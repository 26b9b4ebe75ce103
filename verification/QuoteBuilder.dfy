/**
 Building a quote: from a request, a price and an optional size to the two amounts, the token and the
 side of the order that is signed. All amounts are integers at 6-decimal scale.
 */
module QuoteBuilder {
  import opened Arithmetic
  import opened Wrappers
  import opened Bytes
  import opened Text
  import opened DecimalE6
  import opened OrderValidation
  import opened SignatureTypes
  import ComboContext

  datatype Direction = Buy | Sell | OtherDirection

  datatype Unit = Notional | Shares | OtherUnit

  datatype Source = Unset | Collateral | Inventory | OtherSource

  datatype Request = Request(conditionID: string, yesPositionID: string, noPositionID: string,
                             direction: Direction, sideIsYes: bool, unit: Unit, valueE6: string)

  datatype Options = Options(price: string, size: string, source: Source)

  datatype Identity = Identity(maker: string, signer: string, signatureType: int)

  datatype Order = Order(salt: string, maker: string, signer: string, tokenID: string, makerAmount: string,
                         takerAmount: string, side: int, signatureType: int, timestamp: string,
                         expiration: string, metadata: string, builder: string, signature: string)

  datatype Quote = Quote(priceE6: string, sizeE6: string, order: Order)

  type Signature = s: seq<byte> | |s| == 65 witness seq(65, _ => 0 as byte)

  /**
   What the builder takes from outside: the address of the signing key, a random salt below 2^63, whether
   the chain has a combo exchange, the clock, the hashes of a POLY_1271 wrapper and the signature of the
   digest, each None when computing it fails.
   */
  datatype Env = Env(address: string, salt: Option<nat>, hasExchange: bool, now: int,
                     domainSeparator: Word, contents: Option<Word>, inner: Option<Signature>)

  const ORDER_TYPE: string :=
    "Order(uint256 salt,address maker,address signer,uint256 tokenId,uint256 makerAmount,uint256 takerAmount,"
    + "uint8 side,uint8 signatureType,uint256 timestamp,bytes32 metadata,bytes32 builder)"

  // ----- arithmetic -----

  function FloorDiv(n: nat, d: nat): (q: nat)
    requires d > 0
    ensures q * d <= n < (q + 1) * d
  {
    n / d
  }

  /** The least q with q * d at least n. */
  function CeilDiv(n: nat, d: nat): (q: nat)
    requires d > 0
    ensures q * d >= n && (q > 0 ==> (q - 1) * d < n)
  {
    if n == 0 then 0 else FloorDiv(n - 1, d) + 1
  }

  /** ceilMulDiv: adding d - 1 before the division rounds up. */
  method CeilMulDiv(a: nat, b: nat, d: nat) returns (n: nat)
    requires d > 0
    ensures n == CeilDiv(a * b, d)
  {
    n := a * b;
    n := n + (d - 1);
    n := n / d;
    DivBetween(n, CeilDiv(a * b, d), a * b, d);
  }

  lemma DivBetween(q: nat, r: nat, n: nat, d: nat)
    requires d > 0 && q == (n + (d - 1)) / d
    requires r * d >= n && (r > 0 ==> (r - 1) * d < n)
    ensures q == r
  {
    assert q * d <= n + (d - 1) < q * d + d;
    assert (r - 1) * d == r * d - d;
    if q < r { MulLess(q, r, d); }
    if r < q { MulLess(r, q, d); }
  }

  lemma MulLess(a: int, b: int, d: nat)
    requires a < b
    ensures a * d + d <= b * d
  {
    assert (b - a - 1) * d >= 0;
  }

  // ----- the amounts -----

  /** The largest size the request allows at this price. */
  function MaxSize(unit: Unit, requested: nat, price: nat): nat
    requires price > 0
  {
    if unit.Notional? then FloorDiv(requested * ONE_E6, price) else requested
  }

  /** What is put up for one share: the quoted price or its complement. */
  function OrderPrice(price: nat, direction: Direction, source: Source): nat
    requires 0 < price < ONE_E6
  {
    if (direction.Buy? && source.Collateral?) || (direction.Sell? && source.Inventory?) then ONE_E6 - price else price
  }

  /** Collateral pays for shares, rounded up; inventory gives shares for collateral, rounded down. */
  function MakerAmount(price: nat, size: nat, direction: Direction, source: Source): nat
    requires 0 < price < ONE_E6
  {
    if source.Inventory? then size else CeilDiv(OrderPrice(price, direction, source) * size, ONE_E6)
  }

  function TakerAmount(price: nat, size: nat, direction: Direction, source: Source): nat
    requires 0 < price < ONE_E6
  {
    if source.Inventory? then FloorDiv(OrderPrice(price, direction, source) * size, ONE_E6) else size
  }

  /** Collateral buys, inventory sells. */
  function OrderSide(source: Source): int {
    if source.Inventory? then 1 else 0
  }

  function TokenOf(request: Request, source: Source): string {
    if request.direction.Buy? == source.Collateral? then request.noPositionID else request.yesPositionID
  }

  /**
   The two sources are equivalent for the requester: what collateral pays and what inventory receives at
   the same price add up to the size, in both directions, with nothing lost to rounding.
   */
  lemma SourcesAreComplementary(price: nat, size: nat, direction: Direction)
    requires 0 < price < ONE_E6 && !direction.OtherDirection?
    ensures MakerAmount(price, size, direction, Collateral) + TakerAmount(price, size, direction, Inventory) == size
  {
    var p := OrderPrice(price, direction, Inventory);
    Complement(p, size);
  }

  lemma Complement(p: nat, size: nat)
    requires p < ONE_E6
    ensures CeilDiv((ONE_E6 - p) * size, ONE_E6) + FloorDiv(p * size, ONE_E6) == size
  {
    SplitProduct(p, size);
    Rounded(p * size, size);
  }

  lemma SplitProduct(p: nat, size: nat)
    requires p < ONE_E6
    ensures (ONE_E6 - p) * size == ONE_E6 * size - p * size
  {
  }

  /** Rounding a part up and the rest down loses nothing. */
  lemma Rounded(x: nat, size: nat)
    requires x <= ONE_E6 * size
    ensures CeilDiv(ONE_E6 * size - x, ONE_E6) + FloorDiv(x, ONE_E6) == size
  {
  }

  /** The collateral the requester pays for a BUY, or gets for a SELL; a NO leg is worth its complement. */
  function RequesterCollateral(price: nat, size: nat, direction: Direction, source: Source): int
    requires 0 < price < ONE_E6
  {
    var moved: int := if source.Inventory? then TakerAmount(price, size, direction, source)
                      else MakerAmount(price, size, direction, source);
    if direction.Buy? == source.Collateral? then size - moved else moved
  }

  /** Whatever the source, a buyer pays the quoted price rounded down and a seller gets it rounded up. */
  lemma RequesterNeverLosesToRounding(price: nat, size: nat, direction: Direction, source: Source)
    requires 0 < price < ONE_E6 && !direction.OtherDirection? && (source.Collateral? || source.Inventory?)
    ensures RequesterCollateral(price, size, direction, source)
         == if direction.Buy? then FloorDiv(price * size, ONE_E6) else CeilDiv(price * size, ONE_E6)
  {
    hide FloorDiv, CeilDiv;
    Complement(price, size);
    Complement(ONE_E6 - price, size);
  }

  /** The YES shares an order adds for the quoter: bought YES or sold NO count up, the opposite counts down. */
  function YesExposure(tokenIsNo: bool, side: int, makerAmount: nat, takerAmount: nat): int {
    var shares: int := if side == 0 then takerAmount else makerAmount;
    if (side == 0) == tokenIsNo then -shares else shares
  }

  /** Token, side and price fit together: the quoter takes the other side of the request, at that token's price. */
  lemma QuoterTakesTheOtherSide(request: Request, price: nat, size: nat, source: Source)
    requires 0 < price < ONE_E6 && request.yesPositionID != request.noPositionID
    requires !request.direction.OtherDirection? && (source.Collateral? || source.Inventory?)
    ensures var tokenIsNo := TokenOf(request, source) == request.noPositionID;
      && (tokenIsNo || TokenOf(request, source) == request.yesPositionID)
      && OrderPrice(price, request.direction, source) == (if tokenIsNo then ONE_E6 - price else price)
      && YesExposure(tokenIsNo, OrderSide(source), MakerAmount(price, size, request.direction, source),
                     TakerAmount(price, size, request.direction, source))
         == (if request.direction.Buy? then -1 else 1) * size
  {
  }

  /** A notional request is never exceeded, and one more unit would exceed it. */
  lemma NotionalCap(requested: nat, price: nat)
    requires 0 < price < ONE_E6
    ensures var m := MaxSize(Notional, requested, price);
      price * m <= requested * ONE_E6 < price * (m + 1)
  {
    var m := MaxSize(Notional, requested, price);
    assert price * m == m * price && price * (m + 1) == (m + 1) * price;
  }

  /** Both amounts lie in 0..size; only the amount inventory receives can be zero. */
  lemma AmountsWithinSize(price: nat, size: nat, direction: Direction, source: Source)
    requires 0 < price < ONE_E6 && size > 0
    ensures 0 < MakerAmount(price, size, direction, source) <= size
    ensures TakerAmount(price, size, direction, source) <= size
    ensures TakerAmount(price, size, direction, source) == 0 <==>
      source.Inventory? && OrderPrice(price, direction, source) * size < ONE_E6
  {
    hide FloorDiv, CeilDiv;
    PartOfSize(OrderPrice(price, direction, source), size);
    RoundedPart(OrderPrice(price, direction, source) * size, size);
  }

  lemma PartOfSize(p: nat, size: nat)
    requires 0 < p < ONE_E6 && size > 0
    ensures 0 < p * size <= ONE_E6 * size
  {
    MulLess(0, p, size);
    MulLess(p, ONE_E6, size);
  }

  lemma RoundedPart(x: nat, size: nat)
    requires 0 < x <= ONE_E6 * size
    ensures 0 < CeilDiv(x, ONE_E6) <= size && FloorDiv(x, ONE_E6) <= size
    ensures FloorDiv(x, ONE_E6) == 0 <==> x < ONE_E6
  {
  }

  // ----- who may sign what -----

  predicate NonZeroAddress(text: string) {
    IsHexAddress(text) && AddressBytes(text) != seq(20, _ => 0 as byte)
  }

  /** validateOrderIdentity. */
  predicate ValidIdentity(id: Identity, address: string) {
    && NonZeroAddress(id.maker) && NonZeroAddress(id.signer)
    && (if id.signatureType == EOA then EqualFold(id.maker, id.signer) && EqualFold(id.signer, address)
        else if id.signatureType == PROXY || id.signatureType == GNOSIS_SAFE then EqualFold(id.signer, address)
        else id.signatureType == POLY_1271 && EqualFold(id.signer, id.maker))
  }

  /** Whose addresses a valid identity holds, by signature type, when the signing key's address is well formed. */
  lemma IdentityMeaning(id: Identity, address: string)
    requires ValidIdentity(id, address) && IsHexAddress(address)
    ensures IsHexAddress(id.maker) && IsHexAddress(id.signer) && 0 <= id.signatureType <= 3
    ensures AddressBytes(id.maker) != seq(20, _ => 0 as byte) && AddressBytes(id.signer) != seq(20, _ => 0 as byte)
    ensures id.signatureType != 3 ==> AddressBytes(id.signer) == AddressBytes(address)
    ensures id.signatureType == 0 || id.signatureType == 3 ==> AddressBytes(id.maker) == AddressBytes(id.signer)
  {
    hide IsHexAddress, AddressBytes, EqualFold;
    if id.signatureType == 0 { FoldedAddress(id.maker, id.signer); }
    if id.signatureType == 3 { FoldedAddress(id.signer, id.maker); }
    if id.signatureType != 3 { FoldedAddress(id.signer, address); }
  }

  function AsciiBytes(s: string): (b: seq<byte>)
    ensures |b| == |s|
  {
    seq(|s|, i requires 0 <= i < |s| => (s[i] as int % 256) as byte)
  }

  /** The signature of the digest, for a POLY_1271 wallet wrapped with the hashes and the type it signs. */
  function SignatureBytes(signatureType: int, inner: Signature, domainSeparator: Word, contents: Word): (b: seq<byte>)
    ensures |b| == if signatureType == POLY_1271 then 65 + 32 + 32 + 2 + |ORDER_TYPE| else 65
  {
    if signatureType == POLY_1271 then
      inner + domainSeparator + contents + AsciiBytes(ORDER_TYPE)
      + [(|ORDER_TYPE| / 256 % 256) as byte, (|ORDER_TYPE| % 256) as byte]
    else inner
  }

  // ----- the terms of a quote -----

  datatype Terms = Terms(price: nat, size: nat, source: Source)

  function RequestedSize(text: string): Option<nat> {
    var n := ParseInt10(text);
    if n.None? || n.value <= 0 then None else Some(n.value)
  }

  function QuotedPrice(text: string): Option<nat> {
    var p := DecimalToE6(text);
    if p.None? || p.value <= 0 || p.value >= ONE_E6 then None else Some(p.value)
  }

  function QuotedSize(text: string, max: nat): Option<nat> {
    var s := if text == "" then Some(max as int) else DecimalToE6(text);
    if s.None? || s.value <= 0 || s.value > max then None else Some(s.value)
  }

  /** What is offered on a request, or None when the request or the options are refused. */
  function TermsOf(request: Request, opts: Options): Option<Terms> {
    var price, requested := QuotedPrice(opts.price), RequestedSize(request.valueE6);
    var source := if opts.source.Unset? then Collateral else opts.source;
    if !request.sideIsYes || ComboContext.NormalizeConditionID(request.conditionID).Err? || price.None? then None
    else if requested.None? || request.unit.OtherUnit? then None
    else if source.OtherSource? || request.direction.OtherDirection? then None
    else
      var size := QuotedSize(opts.size, MaxSize(request.unit, requested.value, price.value));
      if size.None? || TakerAmount(price.value, size.value, request.direction, source) == 0 then None
      else Some(Terms(price.value, size.value, source))
  }

  /**
   Accepted terms: a price strictly between 0 and 1, a size that is the largest possible unless one is
   given and never beyond the request, and two amounts in 1..size.
   */
  lemma TermsMeaning(request: Request, opts: Options)
    requires TermsOf(request, opts).Some?
    ensures var t := TermsOf(request, opts).value;
      && 0 < t.price < ONE_E6 && DecimalToE6(opts.price) == Some(t.price)
      && (t.source.Collateral? || t.source.Inventory?)
      && t.source == (if opts.source.Unset? then Collateral else opts.source)
      && (request.direction.Buy? || request.direction.Sell?) && (request.unit.Notional? || request.unit.Shares?)
      && (opts.size != "" ==> DecimalToE6(opts.size) == Some(t.size))
      && RequestedSize(request.valueE6).Some?
      && (var requested := RequestedSize(request.valueE6).value;
          && 0 < t.size <= MaxSize(request.unit, requested, t.price)
          && (opts.size == "" ==> t.size == MaxSize(request.unit, requested, t.price))
          && (request.unit.Notional? ==> t.price * t.size <= requested * ONE_E6)
          && (request.unit.Notional? && opts.size == "" ==> requested * ONE_E6 < t.price * (t.size + 1)))
      && 1 <= MakerAmount(t.price, t.size, request.direction, t.source) <= t.size
      && 1 <= TakerAmount(t.price, t.size, request.direction, t.source) <= t.size
  {
    hide DecimalToE6, ComboContext.NormalizeConditionID, FloorDiv, CeilDiv, RequestedSize, MakerAmount, TakerAmount;
    var t, requested := TermsOf(request, opts).value, RequestedSize(request.valueE6).value;
    AmountsWithinSize(t.price, t.size, request.direction, t.source);
    if request.unit.Notional? {
      NotionalCap(requested, t.price);
      SmallerProduct(t.price, t.size, MaxSize(Notional, requested, t.price));
    }
  }

  lemma SmallerProduct(p: nat, s: nat, m: nat)
    requires s <= m
    ensures p * s <= p * m
  {
    assert p * (m - s) >= 0;
  }

  /** The largest size: all of a request in shares, or what its notional buys at the price. */
  ghost predicate WithinRequest(unit: Unit, requested: nat, price: nat, size: int) {
    if unit.Shares? then size <= requested else price * size <= requested * 1_000_000
  }

  /**
   Exactly these requests and options have terms: a YES request on a valid condition in a known direction and
   unit, a positive requested size, a price strictly between 0 and 1, a known source, and a size, if given,
   that is positive and within the request; and an inventory quote must receive at least one unit.
   */
  lemma TermsExistIff(request: Request, opts: Options)
    ensures TermsOf(request, opts).Some? <==>
      && request.sideIsYes && ComboContext.NormalizeConditionID(request.conditionID).Ok?
      && (request.direction.Buy? || request.direction.Sell?) && (request.unit.Notional? || request.unit.Shares?)
      && !opts.source.OtherSource?
      && DecimalToE6(opts.price).Some? && 0 < DecimalToE6(opts.price).value < 1_000_000
      && ParseInt10(request.valueE6).Some? && ParseInt10(request.valueE6).value > 0
      && var price: nat, requested: nat := DecimalToE6(opts.price).value, ParseInt10(request.valueE6).value;
      var max: int := MaxSize(request.unit, requested, price);
      var size := if opts.size == "" then Some(max) else DecimalToE6(opts.size);
      && size.Some? && size.value > 0 && WithinRequest(request.unit, requested, price, size.value)
      && (opts.source.Inventory? ==>
            (if request.direction.Sell? then 1_000_000 - price else price) * size.value >= 1_000_000)
  {
    hide DecimalToE6, ComboContext.NormalizeConditionID, ParseInt10, FloorDiv, TakerAmount;
    var p, n := QuotedPrice(opts.price), RequestedSize(request.valueE6);
    if p.Some? && n.Some? && !request.unit.OtherUnit? {
      var m := MaxSize(request.unit, n.value, p.value);
      var size := if opts.size == "" then Some(m as int) else DecimalToE6(opts.size);
      if size.Some? && size.value > 0 {
        WithinMax(request.unit, n.value, p.value, size.value);
        if !request.direction.OtherDirection? && !opts.source.OtherSource? {
          var source := if opts.source.Unset? then Collateral else opts.source;
          AmountsWithinSize(p.value, size.value, request.direction, source);
        }
      }
    }
  }

  lemma WithinMax(unit: Unit, requested: nat, price: nat, size: nat)
    requires 0 < price < ONE_E6 && !unit.OtherUnit?
    ensures WithinRequest(unit, requested, price, size) <==> size <= MaxSize(unit, requested, price)
  {
    if unit.Notional? {
      var m := MaxSize(Notional, requested, price);
      NotionalCap(requested, price);
      if size <= m { SmallerProduct(price, size, m); } else { SmallerProduct(price, m + 1, size); }
    }
  }

  function UnsignedOrder(id: Identity, env: Env, request: Request, t: Terms): Order
    requires 0 < t.price < ONE_E6 && env.salt.Some?
  {
    Order(NatToString(env.salt.value), id.maker, if id.signatureType == POLY_1271 then id.maker else id.signer,
          TokenOf(request, t.source), NatToString(MakerAmount(t.price, t.size, request.direction, t.source)),
          NatToString(TakerAmount(t.price, t.size, request.direction, t.source)),
          OrderSide(t.source), id.signatureType, IntToString(env.now), "",
          ZERO_BYTES32, ZERO_BYTES32, "")
  }

  predicate CanSign(id: Identity, env: Env) {
    env.salt.Some? && env.hasExchange && env.inner.Some? && (id.signatureType == POLY_1271 ==> env.contents.Some?)
  }

  function SignedQuote(id: Identity, env: Env, request: Request, t: Terms): Quote
    requires 0 < t.price < ONE_E6 && CanSign(id, env)
  {
    var contents := if env.contents.Some? then env.contents.value else env.domainSeparator;
    var signature := SignatureBytes(id.signatureType, env.inner.value, env.domainSeparator, contents);
    Quote(NatToString(t.price), NatToString(t.size),
          UnsignedOrder(id, env, request, t).(signature := HexutilEncode(signature)))
  }

  /** The size of the quote: the largest the request allows, or the one asked for if it is not larger. */
  method ChooseSize(request: Request, opts: Options, price: nat) returns (r: Option<nat>)
    requires price > 0
    ensures r == if RequestedSize(request.valueE6).None? || request.unit.OtherUnit? then None
                 else QuotedSize(opts.size, MaxSize(request.unit, RequestedSize(request.valueE6).value, price))
  {
    hide DecimalToE6, ParseInt10;
    var requested := ParseInt10(request.valueE6);
    if requested.None? || requested.value <= 0 { return None; }
    var maxSize := requested.value;
    if request.unit == Notional {
      maxSize := maxSize * ONE_E6;
      maxSize := maxSize / price;
    } else if request.unit != Shares {
      return None;
    }
    var size := maxSize;
    if opts.size != "" {
      var parsedSize := DecimalToE6(opts.size);
      if parsedSize.None? { return None; }
      size := parsedSize.value;
    }
    if size <= 0 || size > maxSize { return None; }
    return Some(size);
  }

  datatype Draft = Draft(terms: Terms, tokenID: string, side: int, makerAmount: nat, takerAmount: nat)

  /** BuildAndSign up to the two amounts: price, size, source, token and amounts, or an error. */
  method AgreeTerms(request: Request, opts: Options) returns (r: Result<Draft, string>)
    ensures r.Ok? <==> TermsOf(request, opts).Some?
    ensures r.Ok? ==>
      var t := TermsOf(request, opts).value;
      r.value == Draft(t, TokenOf(request, t.source), OrderSide(t.source),
                       MakerAmount(t.price, t.size, request.direction, t.source),
                       TakerAmount(t.price, t.size, request.direction, t.source))
  {
    hide DecimalToE6, ComboContext.NormalizeConditionID, CeilDiv, QuotedSize, RequestedSize, MaxSize;
    if !request.sideIsYes { return Err("only YES-side rfq requests are supported"); }
    if ComboContext.NormalizeConditionID(request.conditionID).Err? { return Err("invalid condition id"); }
    var parsedPrice := DecimalToE6(opts.price);
    if parsedPrice.None? { return Err("invalid price"); }
    var price := parsedPrice.value;
    if price <= 0 || price >= ONE_E6 { return Err("price must be greater than 0 and less than 1"); }
    var chosen := ChooseSize(request, opts, price);
    if chosen.None? { return Err("invalid size"); }
    var size := chosen.value;
    var source := opts.source;
    if source == Unset {
      source := Collateral;
    }
    if source != Collateral && source != Inventory { return Err("invalid quote source"); }
    var orderPrice := price;
    if (request.direction == Buy && source == Collateral) || (request.direction == Sell && source == Inventory) {
      orderPrice := ONE_E6 - orderPrice;
    }
    var tokenID;
    if request.direction == Buy {
      tokenID := if source == Collateral then request.noPositionID else request.yesPositionID;
    } else if request.direction == Sell {
      tokenID := if source == Collateral then request.yesPositionID else request.noPositionID;
    } else {
      return Err("invalid rfq direction");
    }
    var orderSide := 0;
    var makerAmount := CeilMulDiv(orderPrice, size, ONE_E6);
    var takerAmount := size;
    if source == Inventory {
      orderSide := 1;
      makerAmount := size;
      takerAmount := orderPrice * size;
      takerAmount := takerAmount / ONE_E6;
    }
    SizePositive(opts.size, MaxSize(request.unit, RequestedSize(request.valueE6).value, price));
    AmountsWithinSize(price, size, request.direction, source);
    assert orderPrice == OrderPrice(price, request.direction, source);
    if makerAmount <= 0 || takerAmount <= 0 { return Err("quote produces a zero order amount"); }
    return Ok(Draft(Terms(price, size, source), tokenID, orderSide, makerAmount, takerAmount));
  }

  lemma SizePositive(text: string, max: nat)
    ensures QuotedSize(text, max).Some? ==> 0 < QuotedSize(text, max).value <= max
  {
    hide DecimalToE6;
  }

  // ----- what a built quote carries -----

  /** The text reads as this number. */
  predicate Reads(text: string, n: int) {
    ParseInt10(text) == Some(n)
  }

  /**
   The two amounts of the order: shares on one side, and on the other their collateral at the price of the
   token, rounded against the quoter when paid and down when received.
   */
  ghost predicate CarriesAmounts(o: Order, tokenPrice: int, size: nat) {
    if o.side == 0 then
      Reads(o.takerAmount, size) &&
      exists paid: nat :: Reads(o.makerAmount, paid) && (paid - 1) * 1_000_000 < tokenPrice * size <= paid * 1_000_000
    else
      Reads(o.makerAmount, size) &&
      exists got: nat :: Reads(o.takerAmount, got) && got * 1_000_000 <= tokenPrice * size < (got + 1) * 1_000_000
  }

  /** Every field of a built quote, read back. */
  ghost predicate CarriesTerms(q: Quote, id: Identity, env: Env, request: Request, opts: Options, t: Terms) {
    var o, isNo := q.order, request.direction.Buy? == !opts.source.Inventory?;
    && Reads(q.priceE6, t.price) && Reads(q.sizeE6, t.size)
    && o.side == (if opts.source.Inventory? then 1 else 0)
    && o.tokenID == (if isNo then request.noPositionID else request.yesPositionID)
    && CarriesAmounts(o, if isNo then 1_000_000 - t.price else t.price, t.size)
    && o.maker == id.maker && o.signer == (if id.signatureType == 3 then id.maker else id.signer)
    && o.signatureType == id.signatureType
    && env.salt.Some? && Reads(o.salt, env.salt.value) && Reads(o.timestamp, env.now) && o.expiration == ""
    && HexutilDecode(o.metadata) == Some(seq(32, _ => 0 as byte)) && o.builder == o.metadata
    && CarriesSignature(o, env)
  }

  /** The signature of the digest, wrapped for a contract wallet: hashes, order type, and the type's length. */
  ghost predicate CarriesSignature(o: Order, env: Env) {
    var bytes := HexutilDecode(o.signature);
    && bytes.Some? && env.inner.Some?
    && (if o.signatureType == 3 then
          && env.contents.Some? && |bytes.value| == 131 + |ORDER_TYPE|
          && bytes.value[..65] == env.inner.value && bytes.value[65..97] == env.domainSeparator
          && bytes.value[97..129] == env.contents.value
          && bytes.value[129..129 + |ORDER_TYPE|] == AsciiBytes(ORDER_TYPE)
          && FromBytes(bytes.value[129 + |ORDER_TYPE|..]) == |ORDER_TYPE| % 65536
        else bytes.value == env.inner.value)
  }

  lemma SignatureLayout(inner: Signature, domainSeparator: Word, contents: Word)
    ensures var b, n := SignatureBytes(POLY_1271, inner, domainSeparator, contents), |ORDER_TYPE|;
      && b[..65] == inner && b[65..97] == domainSeparator && b[97..129] == contents
      && b[129..129 + n] == AsciiBytes(ORDER_TYPE) && FromBytes(b[129 + n..]) == n % 65536
  {
    hide AsciiBytes;
    var n := |ORDER_TYPE|;
    TwoBytes(n);
    var b := SignatureBytes(POLY_1271, inner, domainSeparator, contents);
    assert b[129 + n..] == [(n / 256 % 256) as byte, (n % 256) as byte];
  }

  lemma TwoBytes(n: nat)
    ensures FromBytes([(n / 256 % 256) as byte, (n % 256) as byte]) == n % 65536
  {
    var high, low := (n / 256 % 256) as byte, (n % 256) as byte;
    assert [high, low] == [high] + [low];
    FromBytesConcat([high], [low]);
    OneByte(high);
    OneByte(low);
    assert Pow(256, 1) == 256;
    var x, y := n / 256, n / 256 / 256;
    assert n == y * 65536 + (256 * (x % 256) + n % 256);
    DivModUnique(n, 65536, y, 256 * (x % 256) + n % 256);
  }

  lemma SignedQuoteCarries(id: Identity, env: Env, request: Request, opts: Options, t: Terms)
    requires TermsOf(request, opts) == Some(t) && CanSign(id, env)
    requires 0 < t.price < ONE_E6
    ensures CarriesTerms(SignedQuote(id, env, request, t), id, env, request, opts, t)
  {
    hide TermsOf, MakerAmount, TakerAmount, HexutilDecode, HexutilEncode, NatToString, IntToString, ToWord, MaxSize;
    hide SignatureBytes, CarriesAmounts, CarriesSignature, Reads, DecimalToE6, RequestedSize, QuotedSize;
    TermsMeaning(request, opts);
    PrintedTerms(id, env, request, t);
    ZeroBytes32IsValid();
    AmountsCarried(request, t, SignedQuote(id, env, request, t).order);
    SignatureCarried(id, env, request, t);
  }

  lemma SignatureCarried(id: Identity, env: Env, request: Request, t: Terms)
    requires 0 < t.price < ONE_E6 && CanSign(id, env)
    ensures CarriesSignature(SignedQuote(id, env, request, t).order, env)
  {
    var contents := if env.contents.Some? then env.contents.value else env.domainSeparator;
    var bytes := SignatureBytes(id.signatureType, env.inner.value, env.domainSeparator, contents);
    HexutilRoundTrip(bytes);
    SignatureLayout(env.inner.value, env.domainSeparator, contents);
    PlainSignature(env.inner.value, env.domainSeparator, contents, id.signatureType);
    hide MakerAmount, TakerAmount, HexutilDecode, HexutilEncode, NatToString, IntToString, ToWord, AsciiBytes;
    hide SignatureBytes, FromBytes;
  }

  lemma PlainSignature(inner: Signature, domainSeparator: Word, contents: Word, signatureType: int)
    ensures signatureType != POLY_1271 ==> SignatureBytes(signatureType, inner, domainSeparator, contents) == inner
  {
  }

  lemma PrintedTerms(id: Identity, env: Env, request: Request, t: Terms)
    requires 0 < t.price < ONE_E6 && CanSign(id, env)
    ensures var q := SignedQuote(id, env, request, t);
      && Reads(q.priceE6, t.price) && Reads(q.sizeE6, t.size)
      && Reads(q.order.salt, env.salt.value) && Reads(q.order.timestamp, env.now)
      && Reads(q.order.makerAmount, MakerAmount(t.price, t.size, request.direction, t.source))
      && Reads(q.order.takerAmount, TakerAmount(t.price, t.size, request.direction, t.source))
  {
    hide MakerAmount, TakerAmount, NatToString, IntToString, HexutilEncode, SignatureBytes;
    ParsePrinted(t.price);
    ParsePrinted(t.size);
    ParsePrinted(env.salt.value);
    ParsePrintedInt(env.now);
    ParsePrinted(MakerAmount(t.price, t.size, request.direction, t.source));
    ParsePrinted(TakerAmount(t.price, t.size, request.direction, t.source));
  }

  lemma AmountsCarried(request: Request, t: Terms, o: Order)
    requires 0 < t.price < ONE_E6 && (t.source.Collateral? || t.source.Inventory?) && o.side == OrderSide(t.source)
    requires !request.direction.OtherDirection?
    requires Reads(o.makerAmount, MakerAmount(t.price, t.size, request.direction, t.source))
    requires Reads(o.takerAmount, TakerAmount(t.price, t.size, request.direction, t.source))
    ensures CarriesAmounts(o, OrderPrice(t.price, request.direction, t.source), t.size)
  {
    hide Reads, FloorDiv;
    var p := OrderPrice(t.price, request.direction, t.source);
    assert CeilDiv(p * t.size, ONE_E6) == 0 ==> p * t.size == 0;
  }

  /** BuildAndSign. */
  method BuildAndSign(id: Identity, env: Env, request: Request, opts: Options) returns (r: Result<Quote, string>)
    ensures r.Ok? <==> ValidIdentity(id, env.address) && TermsOf(request, opts).Some? && CanSign(id, env)
    ensures r.Ok? ==> r.value == SignedQuote(id, env, request, TermsOf(request, opts).value)
    ensures r.Ok? ==> CarriesTerms(r.value, id, env, request, opts, TermsOf(request, opts).value)
  {
    hide CarriesTerms;
    hide ValidIdentity, SignatureBytes, NatToString, IntToString, HexutilEncode, ToWord, MakerAmount, TakerAmount;
    if !ValidIdentity(id, env.address) { return Err("invalid order identity"); }
    var draft := AgreeTerms(request, opts);
    if draft.Err? { return Err(draft.error); }
    TermsMeaning(request, opts);
    if CanSign(id, env) { SignedQuoteCarries(id, env, request, opts, TermsOf(request, opts).value); }
    hide TermsOf;
    var terms := draft.value.terms;
    if env.salt.None? { return Err("generate salt"); }
    if !env.hasExchange { return Err("combo exchange is not configured"); }
    var order := Order(NatToString(env.salt.value), id.maker, id.signer, draft.value.tokenID,
                       NatToString(draft.value.makerAmount), NatToString(draft.value.takerAmount),
                       draft.value.side, id.signatureType, IntToString(env.now), "", ZERO_BYTES32, ZERO_BYTES32, "");
    var contents := env.domainSeparator;
    if env.contents.Some? { contents := env.contents.value; }
    if id.signatureType == POLY_1271 {
      order := order.(signer := id.maker);
      if env.contents.None? { return Err("sign quote order"); }
    }
    if env.inner.None? { return Err("sign quote order"); }
    var signature := SignatureBytes(id.signatureType, env.inner.value, env.domainSeparator, contents);
    order := order.(signature := HexutilEncode(signature));
    return Ok(Quote(NatToString(terms.price), NatToString(terms.size), order));
  }
}
