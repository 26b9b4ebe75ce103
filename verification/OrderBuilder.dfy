/** BuildOrder and BuildMarketOrder: tick check, amounts, and the signing gate in one. */
module OrderBuilder {
  import opened Wrappers
  import opened Bytes
  import opened Text
  import opened Rationals
  import opened OrderAmounts
  import opened OrderValidation
  import opened OrderSigning
  import opened SignatureTypes

  /** `size` is the size of a limit order and the amount of a market order, which has no expiration. */
  datatype Args = Args(tokenID: string, price: Decimal, size: Decimal, side: Side, expiration: string,
                       signatureType: int, maker: string, builderCode: string, metadata: string)

  /** The unsigned order; a POLY_1271 order with a maker is signed by that maker. */
  function Draft(args: Args, amounts: AmountStrings, expiration: string): Fields {
    Fields(0, args.maker, if args.signatureType == POLY_1271 then args.maker else "", args.tokenID, amounts.maker,
           amounts.taker, expiration, args.side, args.signatureType, "", args.metadata, args.builderCode, "")
  }

  predicate Computable(args: Args, zeroPrice: bool) {
    && Parse(args.price).Some? && Parse(args.size).Some? && !args.side.Other?
    && Value(Parse(args.size).value) > 0.0
    && (if zeroPrice then Value(Parse(args.price).value) >= 0.0 else Value(Parse(args.price).value) > 0.0)
  }

  function LimitOf(args: Args): Amounts
    requires Computable(args, true)
  {
    LimitAmounts(Value(Parse(args.price).value), Value(Parse(args.size).value), args.side)
  }

  function MarketOf(args: Args): Amounts
    requires Computable(args, false)
  {
    MarketAmounts(Value(Parse(args.price).value), Value(Parse(args.size).value), args.side)
  }

  function LimitDraft(args: Args): Fields
    requires Computable(args, true)
  {
    Draft(args, Printed(LimitOf(args)), LimitExpiration(args))
  }

  function MarketDraft(args: Args): Fields
    requires Computable(args, false)
  {
    Draft(args, Printed(MarketOf(args)), "0")
  }

  /** The order carries what was asked for: side, token, signature type, hashes, expiration and owner. */
  ghost predicate CarriesArgs(g: Fields, args: Args, expiration: string) {
    && g.side == args.side && g.tokenID == args.tokenID && g.signatureType == args.signatureType
    && KeptOrZero(args.metadata, g.metadata) && KeptOrZero(args.builderCode, g.builder)
    && g.expiration == expiration
    && IsHexAddress(g.maker) && (IsHexAddress(args.maker) ==> AddressBytes(g.maker) == AddressBytes(args.maker))
  }

  /** The expiration of a limit order; a market order has none. */
  function LimitExpiration(args: Args): string {
    if args.expiration == "" then "0" else args.expiration
  }

  lemma DraftCarriesArgs(args: Args, amounts: AmountStrings, expiration: string, wallet: Address, c: Config)
    requires Signable(Draft(args, amounts, expiration), wallet, c) && PrintsAddresses(c.hex) && expiration != ""
    ensures var g := SignedForm(Draft(args, amounts, expiration), wallet, c);
      && CarriesArgs(g, args, expiration)
      && g.makerAmount == amounts.maker && g.takerAmount == amounts.taker
  {
    SignedFields(Draft(args, amounts, expiration), wallet, c);
    hide Signable, SignedForm, IsHexAddress, AddressBytes, KeptOrZero;
  }

  /** BuildOrder; `inRange` is the verdict of validatePriceRange. */
  method BuildOrder(args: Args, tick: Decimal, inRange: bool, wallet: Address, knownChain: bool, c: Config,
                    produced: Option<string>)
    returns (r: Result<SignedOrder, string>)
    requires PrintsAddresses(c.hex)
    ensures r.Ok? <==>
      && inRange && ValidPriceTicks(args.price, tick) && Computable(args, true)
      && knownChain && Signable(LimitDraft(args), wallet, c) && produced.Some?
    ensures r.Ok? ==>
      fresh(r.value) && r.value.State() == SignedForm(LimitDraft(args), wallet, c).(signature := produced.value)
    ensures r.Ok? ==>
      && CarriesArgs(r.value.State(), args, LimitExpiration(args)) && r.value.signature == produced.value
      && r.value.makerAmount == NatToString(LimitOf(args).maker)
      && r.value.takerAmount == NatToString(LimitOf(args).taker)
  {
    hide ValidPriceTicks, LimitAmounts, Signable, SignedForm, NatToString, Value;
    if !inRange { return Err("price out of range"); }
    if !ValidPriceTicks(args.price, tick) { return Err("price not aligned to tick size"); }
    var amounts := ComputeOrderAmounts(args.price, args.size, args.side);
    if amounts.Err? { return Err(amounts.error); }
    var order := new SignedOrder(Draft(args, amounts.value, "0").(signer := ""));
    if args.expiration != "" {
      order.expiration := args.expiration;
    }
    ApplySignatureShape(order);
    var ok := order.SignOrder(wallet, knownChain, c, produced);
    if !ok { return Err("order not signed"); }
    DraftCarriesArgs(args, Printed(LimitOf(args)), LimitExpiration(args), wallet, c);
    return Ok(order);
  }

  /** BuildMarketOrder. */
  method BuildMarketOrder(args: Args, tick: Decimal, inRange: bool, wallet: Address, knownChain: bool, c: Config,
                    produced: Option<string>)
    returns (r: Result<SignedOrder, string>)
    requires PrintsAddresses(c.hex)
    ensures r.Ok? <==>
      && inRange && ValidPriceTicks(args.price, tick) && Computable(args, false)
      && knownChain && Signable(MarketDraft(args), wallet, c) && produced.Some?
    ensures r.Ok? ==>
      fresh(r.value) && r.value.State() == SignedForm(MarketDraft(args), wallet, c).(signature := produced.value)
    ensures r.Ok? ==>
      && CarriesArgs(r.value.State(), args, "0") && r.value.signature == produced.value
      && r.value.makerAmount == NatToString(MarketOf(args).maker)
      && r.value.takerAmount == NatToString(MarketOf(args).taker)
  {
    hide ValidPriceTicks, MarketAmounts, Signable, SignedForm, NatToString, Value;
    if !inRange { return Err("price out of range"); }
    if !ValidPriceTicks(args.price, tick) { return Err("price not aligned to tick size"); }
    var amounts := ComputeMarketOrderAmounts(args.price, args.size, args.side);
    if amounts.Err? { return Err(amounts.error); }
    var order := new SignedOrder(Draft(args, amounts.value, "0").(signer := ""));
    ApplySignatureShape(order);
    var ok := order.SignOrder(wallet, knownChain, c, produced);
    if !ok { return Err("order not signed"); }
    DraftCarriesArgs(args, Printed(MarketOf(args)), "0", wallet, c);
    return Ok(order);
  }

  /** applyOrderBuilderSignatureShape. */
  method ApplySignatureShape(order: SignedOrder)
    modifies order`signer
    ensures order.signer ==
      if order.signatureType == POLY_1271 && order.maker != "" && old(order.signer) == "" then order.maker
      else old(order.signer)
  {
    if order.signatureType == POLY_1271 && order.maker != "" && order.signer == "" {
      order.signer := order.maker;
    }
  }

  // ----- what a signed order promises -----

  ghost predicate InUint256(a: Amounts) {
    1 <= a.maker < UINT256_LIMIT && 1 <= a.taker < UINT256_LIMIT
  }

  /** Everything the gate asks of an order except its amounts. */
  ghost predicate SignableButAmounts(f: Fields, wallet: Address, c: Config) {
    Signable(f.(makerAmount := "1", takerAmount := "1"), wallet, c)
  }

  /** Signing leaves what is traded as it was. */
  lemma SigningKeepsTheTrade(f: Fields, wallet: Address, c: Config)
    requires Signable(f, wallet, c)
    ensures var g := SignedForm(f, wallet, c);
      && g.makerAmount == f.makerAmount && g.takerAmount == f.takerAmount
      && g.tokenID == f.tokenID && g.side == f.side
  {
    hide CommonGate, IsHexAddress;
  }

  /** The gate lets printed amounts through exactly when both are in 1..2^256-1. */
  lemma GateOnAmounts(f: Fields, a: Amounts, wallet: Address, c: Config)
    requires f.makerAmount == NatToString(a.maker) && f.takerAmount == NatToString(a.taker)
    ensures Signable(f, wallet, c) <==> SignableButAmounts(f, wallet, c) && InUint256(a)
  {
    hide NatToString, ValidUint256, ValidBytes32, IsHexAddress, SaltOk;
    PrintedUint256(a.maker, true, true);
    PrintedUint256(a.taker, true, true);
    PrintedUint256(1, true, true);
    assert IntToString(1) == "1" by { PrintedOne(); }
  }

  lemma PrintedOne()
    ensures NatToString(1) == "1"
  {
  }

  /** A seller keeps the limit always, a buyer up to one unit, and exactly on the size grid. */
  ghost predicate KeepsLimit(p: real, s: real, side: Side, a: Amounts) {
    && (side.Sell? ==> a.taker as real >= p * a.maker as real)
    && (side.Buy? ==> a.maker as real < p * (a.taker + 1) as real)
    && (side.Buy? && SixDecimals(s) ==> a.maker as real <= p * a.taker as real)
  }

  lemma LimitKept(p: real, s: real, side: Side)
    requires p >= 0.0 && s >= 0.0 && !side.Other? && LimitAmounts(p, s, side).maker >= 1
    ensures KeepsLimit(p, s, side, LimitAmounts(p, s, side))
  {
    if side.Sell? {
      SellMeetsLimit(p, s);
    } else {
      assert p == 0.0 ==> Money(p, s) == 0.0;
      BuyNearLimit(p, s);
      if SixDecimals(s) { BuyMeetsLimitOnGrid(p, s); }
    }
  }

  /** A signed limit order carries amounts in 1..2^256-1 that keep its limit, at a price on the tick. */
  lemma SignedLimitOrder(args: Args, tick: Decimal, wallet: Address, c: Config)
    requires ValidPriceTicks(args.price, tick) && Computable(args, true) && Signable(LimitDraft(args), wallet, c)
    requires PrintsAddresses(c.hex)
    ensures var g, a := SignedForm(LimitDraft(args), wallet, c), LimitOf(args);
      var p, s := Value(Parse(args.price).value), Value(Parse(args.size).value);
      && g.makerAmount == NatToString(a.maker) && g.takerAmount == NatToString(a.taker) && InUint256(a)
      && CarriesArgs(g, args, LimitExpiration(args)) && KeepsLimit(p, s, g.side, a)
      && (tick.Written? ==> tick.parsed.Some? && exists n: int :: IsMultiple(p, Value(tick.parsed.value), n))
  {
    DraftCarriesArgs(args, Printed(LimitOf(args)), LimitExpiration(args), wallet, c);
    GateOnAmounts(LimitDraft(args), LimitOf(args), wallet, c);
    hide Signable, SignedForm, ValidPriceTicks, Value, NatToString, LimitAmounts, KeepsLimit, IsMultiple;
    LimitKept(Value(Parse(args.price).value), Value(Parse(args.size).value), args.side);
  }

  /** The number of ticks in a price and of lots in a size, when both are on their grids. */
  lemma GridCounts(p: real, s: real, tick: real, k: nat, n: int) returns (m: nat, j: nat)
    requires k <= 6 && tick * Pow(10, k) as real == 1.0 && IsMultiple(p, tick, n) && p >= 0.0 && s >= 0.0
    requires OnGrid(s, 6 - k)
    ensures p * Pow(10, k) as real == m as real && s * Pow(10, 6 - k) as real == j as real
  {
    hide Pow;
    var t := Pow(10, k) as real;
    InTicks(p, tick, t, n as real);
    assert p * t >= 0.0;
    m, j := n, (s * Pow(10, 6 - k) as real).Floor;
  }

  lemma InTicks(p: real, tick: real, t: real, n: real)
    requires tick * t == 1.0 && p == n * tick
    ensures p * t == n
  {
    assert p * t == n * (tick * t);
  }

  /** At most `decimals` decimals. */
  predicate OnGrid(s: real, decimals: nat) {
    (s * Pow(10, decimals) as real).Floor as real == s * Pow(10, decimals) as real
  }

  /**
   An order that passes the tick check of a tick 10^-k with a size of at most 6 - k decimals is not rounded at
   all: it carries price times size and size at scale, the buyer's amounts are the seller's swapped, and their
   ratio is the price.
   */
  lemma TickAlignedOrdersAreExact(args: Args, tick: Decimal, k: nat)
    requires Computable(args, true) && ValidPriceTicks(args.price, tick) && k <= 6
    requires tick.Written? && tick.parsed.Some? && Value(tick.parsed.value) * Pow(10, k) as real == 1.0
    requires OnGrid(Value(Parse(args.size).value), 6 - k)
    ensures var p, s := Value(Parse(args.price).value), Value(Parse(args.size).value);
      var buy, sell := LimitOf(args.(side := Buy)), LimitOf(args.(side := Sell));
      && buy.maker as real == p * s * SCALE && buy.taker as real == s * SCALE
      && sell == Amounts(buy.taker, buy.maker)
      && buy.maker as real == p * buy.taker as real
      && (LimitOf(args) == if args.side.Buy? then buy else sell)
  {
    hide Value, LimitAmounts, Pow, OnGrid, IsMultiple;
    var p, s, t := Value(Parse(args.price).value), Value(Parse(args.size).value), Value(tick.parsed.value);
    var n: int :| IsMultiple(p, t, n);
    var m, j := GridCounts(p, s, t, k, n);
    AlignedOrdersAreExact(p, s, k, m, j);
    ExactValues(p, s, k, m, j);
    assert args.side.Buy? || args.side.Sell?;
  }

  lemma ExactValues(p: real, s: real, k: nat, m: nat, j: nat)
    requires k <= 6 && p * Pow(10, k) as real == m as real && s * Pow(10, 6 - k) as real == j as real
    requires p >= 0.0 && s >= 0.0
    ensures (m * j) as real == p * s * SCALE && (j * Pow(10, k)) as real == s * SCALE
  {
    hide Pow;
    PowSplit(k);
    Aligned(p, s, Pow(10, k) as real, Pow(10, 6 - k) as real, m as real, j as real);
    IntProducts(m, j, Pow(10, k));
  }

  /** A signed market order never trades worse than its worst price and meets both minimum amounts. */
  lemma SignedMarketOrder(args: Args, wallet: Address, c: Config)
    requires Computable(args, false) && Signable(MarketDraft(args), wallet, c) && PrintsAddresses(c.hex)
    ensures var g, a := SignedForm(MarketDraft(args), wallet, c), MarketOf(args);
      && g.makerAmount == NatToString(a.maker) && g.takerAmount == NatToString(a.taker) && InUint256(a)
      && a.maker >= MAKER_QUANTUM && a.taker >= TAKER_QUANTUM
      && a.maker % MAKER_QUANTUM == 0 && a.taker % TAKER_QUANTUM == 0
      && CarriesArgs(g, args, "0") && MeetsWorstPrice(Value(Parse(args.price).value), a.maker, a.taker, g.side)
  {
    var p, s := Value(Parse(args.price).value), Value(Parse(args.size).value);
    DraftCarriesArgs(args, Printed(MarketOf(args)), "0", wallet, c);
    GateOnAmounts(MarketDraft(args), MarketOf(args), wallet, c);
    hide Signable, SignedForm, Value, NatToString, MarketAmounts;
    MarketMinimum(p, s, args.side);
    MarketMakerIsGreatest(p, s, args.side, 0);
    MarketTakerIsLeast(p, s, args.side, 0);
    MarketTakerIsLeast(p, s, args.side, MarketOf(args).taker);
  }

  /** With nothing else wrong, exactly the market orders of at least 0.01 that fit a uint256 are signed. */
  lemma MarketOrderSignableIff(args: Args, wallet: Address, c: Config)
    requires Computable(args, false)
    ensures Signable(MarketDraft(args), wallet, c) <==>
      && SignableButAmounts(MarketDraft(args), wallet, c)
      && Value(Parse(args.size).value) >= 0.01
      && MarketOf(args).maker < UINT256_LIMIT && MarketOf(args).taker < UINT256_LIMIT
  {
    GateOnAmounts(MarketDraft(args), MarketOf(args), wallet, c);
    hide Signable, Value, NatToString, MarketAmounts;
    MarketMinimum(Value(Parse(args.price).value), Value(Parse(args.size).value), args.side);
  }
}
