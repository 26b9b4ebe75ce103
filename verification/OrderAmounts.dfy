/**
 Order amounts: a price and a size become two integers at 6-decimal scale. The price a limit order
 or a market order implies is compared with the price that was asked for.
 */
module OrderAmounts {
  import opened Wrappers
  import opened Bytes
  import opened Text
  import opened Rationals

  /** A side is text; anything but the two known texts is `Other`. */
  datatype Side = Buy | Sell | Other(text: string)

  /** The text of a decimal field: empty, or not empty and what big.Rat.SetString makes of it. */
  datatype Decimal = Blank | Written(parsed: Option<Rat>)

  datatype Amounts = Amounts(maker: nat, taker: nat)

  datatype AmountStrings = AmountStrings(maker: string, taker: string)

  const ORDER_SCALE: nat := 1_000_000
  const SCALE: real := 1000000.0
  const MAKER_QUANTUM: nat := 10_000
  const TAKER_QUANTUM: nat := 100

  function Parse(d: Decimal): Option<Rat> {
    if d.Blank? then None else d.parsed
  }

  function Printed(a: Amounts): AmountStrings {
    AmountStrings(NatToString(a.maker), NatToString(a.taker))
  }

  // ----- what the amounts are -----

  /** Collateral at scale. */
  function Money(p: real, s: real): (x: real)
    ensures p >= 0.0 && s >= 0.0 ==> x >= 0.0
  {
    p * s * SCALE
  }

  /** A size or an amount at scale. */
  function Scaled(s: real): (x: real)
    ensures s >= 0.0 ==> x >= 0.0
  {
    s * SCALE
  }

  /** Collateral and shares at scale; the party that offers gets the floor, a seller asks for the ceiling. */
  function LimitAmounts(p: real, s: real, side: Side): Amounts
    requires p >= 0.0 && s >= 0.0
  {
    var money, shares := Money(p, s), Scaled(s);
    if side.Buy? then Amounts(money.Floor, shares.Floor) else Amounts(shares.Floor, Ceil(money))
  }

  /** The offered amount on the coarse grid, and what it is worth at the worst price, rounded up on the fine grid. */
  function MarketAmounts(p: real, amount: real, side: Side): Amounts
    requires p > 0.0 && amount >= 0.0
  {
    var maker := FloorTo(Scaled(amount), MAKER_QUANTUM);
    GridFloor(maker, Scaled(amount));
    Amounts(maker, CeilTo(Worth(p, maker, side), TAKER_QUANTUM))
  }

  /** What the offered amount is worth at price p. */
  function Worth(p: real, maker: nat, side: Side): (x: real)
    requires p > 0.0
    ensures x >= 0.0
  {
    if side.Buy? then maker as real / p else maker as real * p
  }

  lemma GridFloor(maker: int, x: real)
    requires x >= 0.0 && maker % MAKER_QUANTUM == 0 && x < (maker + MAKER_QUANTUM) as real
    ensures maker >= 0
  {
  }

  // ----- limit orders -----

  /** computeOrderAmounts. */
  method ComputeOrderAmounts(price: Decimal, size: Decimal, side: Side) returns (r: Result<AmountStrings, string>)
    ensures r.Ok? <==>
      && Parse(price).Some? && Parse(size).Some? && !side.Other?
      && Value(Parse(price).value) >= 0.0 && Value(Parse(size).value) > 0.0
    ensures r.Ok? ==> r.value == Printed(LimitAmounts(Value(Parse(price).value), Value(Parse(size).value), side))
  {
    hide Value, Mul, FromInt, NatToString, Money, Scaled;
    if Parse(price).None? { return Err("invalid price"); }
    var p := Parse(price).value;
    if Parse(size).None? { return Err("invalid size"); }
    var s := Parse(size).value;
    if side.Other? { return Err("invalid side"); }
    SignOf(p);
    SignOf(s);
    if p.num < 0 { return Err("price must be >= 0"); }
    if s.num <= 0 { return Err("size must be > 0"); }
    ScaledValues(p, s);
    var monetary := Mul(p, s);
    var monetaryScaled := Mul(monetary, FromInt(ORDER_SCALE));
    var sizeScaled := Mul(s, FromInt(ORDER_SCALE));
    var makerInt := TruncRat(monetaryScaled);
    var takerInt := TruncRat(sizeScaled);
    if side == Buy {
      return Ok(AmountStrings(NatToString(makerInt), NatToString(takerInt)));
    }
    var takerAmountInt := CeilRat(monetaryScaled);
    return Ok(AmountStrings(NatToString(takerInt), NatToString(takerAmountInt)));
  }

  lemma ScaledValues(p: Rat, s: Rat)
    ensures Value(FromInt(ORDER_SCALE)) == SCALE
    ensures Value(Mul(Mul(p, s), FromInt(ORDER_SCALE))) == Money(Value(p), Value(s))
    ensures Value(Mul(s, FromInt(ORDER_SCALE))) == Scaled(Value(s))
  {
    hide Value, Mul, FromInt;
  }

  lemma SignOf(r: Rat)
    ensures r.num < 0 <==> Value(r) < 0.0
    ensures r.num == 0 <==> Value(r) == 0.0
  {
    var v, n, d := Value(r), r.num as real, r.den as real;
    assert v * d == n;
    if v > 0.0 { assert v * d > 0.0; }
    if v < 0.0 { assert v * d < 0.0; }
  }

  /**
   The tightest amounts on the 10^-6 grid: a buyer offers the most within price times size and asks for the most
   within the size, a seller offers the most within the size and asks for the least that is price times size.
   */
  lemma LimitAmountsTight(p: real, s: real, n: int)
    requires p >= 0.0 && s >= 0.0
    ensures var buy, sell := LimitAmounts(p, s, Buy), LimitAmounts(p, s, Sell);
      && (n <= buy.maker <==> n as real <= p * s * 1000000.0)
      && (n <= buy.taker <==> n as real <= s * 1000000.0)
      && (n <= sell.maker <==> n as real <= s * 1000000.0)
      && (n >= sell.taker <==> n as real >= p * s * 1000000.0)
  {
    assert Money(p, s) == p * s * 1000000.0 && Scaled(s) == s * 1000000.0;
    hide Money, Scaled;
    FloorIsGreatest(Money(p, s), n);
    FloorIsGreatest(Scaled(s), n);
  }

  lemma FloorIsGreatest(x: real, n: int)
    ensures n <= x.Floor <==> n as real <= x
    ensures n >= Ceil(x) <==> n as real >= x
  {
  }

  /** A seller never gets less than the limit price per share. */
  lemma SellMeetsLimit(p: real, s: real)
    requires p >= 0.0 && s >= 0.0
    ensures var a := LimitAmounts(p, s, Sell); a.taker as real >= p * a.maker as real
  {
    var shares := s * SCALE;
    RealMulMono(shares.Floor as real, shares, p);
    assert Money(p, s) == shares * p;
  }

  /** A buyer offers less than the limit price for one unit more than asked, whatever the size. */
  lemma BuyNearLimit(p: real, s: real)
    requires p > 0.0 && s >= 0.0
    ensures var a := LimitAmounts(p, s, Buy); a.maker as real < p * (a.taker + 1) as real
  {
    var a := LimitAmounts(p, s, Buy);
    RealMulStrict(Scaled(s), (a.taker + 1) as real, p);
    assert Money(p, s) == Scaled(s) * p;
    assert (a.maker as real) < (a.taker + 1) as real * p;
  }

  lemma RealMulStrict(x: real, y: real, p: real)
    requires x < y && p > 0.0
    ensures x * p < y * p && p * y == y * p
  {
    assert (y - x) * p > 0.0;
  }

  /** The price a buyer offers is not above the limit: maker / taker <= p. */
  predicate BuyMeetsLimit(p: real, s: real)
    requires p >= 0.0 && s >= 0.0
  {
    var a := LimitAmounts(p, s, Buy);
    a.maker as real <= p * a.taker as real
  }

  /** At most 6 decimals. */
  predicate SixDecimals(s: real) {
    Scaled(s).Floor as real == Scaled(s)
  }

  lemma BuyMeetsLimitOnGrid(p: real, s: real)
    requires p >= 0.0 && s >= 0.0 && SixDecimals(s)
    ensures BuyMeetsLimit(p, s)
  {
    assert Money(p, s) == p * Scaled(s);
  }

  /**
   The limit the source states for BUY holds for every price in range exactly when the size has at most
   6 decimals or is below one unit; otherwise the price `floor(S) / S` breaks it.
   */
  lemma BuyLimitIff(s: Rat)
    requires Value(s) > 0.0
    ensures (forall p: Rat :: 0.0 < Value(p) < 1.0 ==> BuyMeetsLimit(Value(p), Value(s)))
       <==> SixDecimals(Value(s)) || Scaled(Value(s)) < 1.0
  {
    var shares := Scaled(Value(s));
    if SixDecimals(Value(s)) {
      forall p: Rat | 0.0 < Value(p) < 1.0 ensures BuyMeetsLimit(Value(p), Value(s)) {
        BuyMeetsLimitOnGrid(Value(p), Value(s));
      }
    } else if shares < 1.0 {
      forall p: Rat | 0.0 < Value(p) < 1.0 ensures BuyMeetsLimit(Value(p), Value(s)) {
        RealMulMono(Value(p), 1.0, shares);
        assert Money(Value(p), Value(s)) == Value(p) * shares;
      }
    } else {
      var p := BreakingPrice(s);
      assert !BuyMeetsLimit(Value(p), Value(s));
    }
  }

  lemma BreakingPrice(s: Rat) returns (p: Rat)
    requires Value(s) > 0.0 && !SixDecimals(Value(s)) && Scaled(Value(s)) >= 1.0
    ensures 0.0 < Value(p) < 1.0 && !BuyMeetsLimit(Value(p), Value(s))
  {
    hide Value, Mul, Quo, FromInt, Reduced, BuyMeetsLimit;
    var n := Scaled(Value(s)).Floor;
    var scaled := Mul(s, FromInt(ORDER_SCALE));
    SignOf(scaled);
    p := Quo(FromInt(n), scaled);
    FloorPriceBreaks(Value(s), Value(p));
  }

  /** With the price floor(S) / S the floor of p * S is floor(S), one more than p times it allows. */
  lemma FloorPriceBreaks(s: real, p: real)
    requires s > 0.0 && !SixDecimals(s) && Scaled(s) >= 1.0 && p == Scaled(s).Floor as real / Scaled(s)
    ensures 0.0 < p < 1.0 && !BuyMeetsLimit(p, s)
  {
    var shares, n := Scaled(s), Scaled(s).Floor;
    Proper(n as real, shares);
    assert Money(p, s) == p * shares;
    assert Money(p, s) == n as real;
    assert LimitAmounts(p, s, Buy) == Amounts(n, n);
  }

  lemma Proper(n: real, d: real)
    requires 0.0 < n < d
    ensures 0.0 < n / d < 1.0 && n / d * d == n && n / d * n < n
  {
    var q := n / d;
    assert q * d == n;
    if q >= 1.0 { RealMulMono(1.0, q, d); }
    if q <= 0.0 { RealMulMono(q, 0.0, d); }
    assert (1.0 - q) * n > 0.0;
  }

  /** Price 0.99 and size 0.0000019 give 1 for 1, above the limit. */
  lemma BuyLimitBroken()
    ensures LimitAmounts(0.99, 0.0000019, Buy) == Amounts(1, 1)
    ensures !BuyMeetsLimit(0.99, 0.0000019)
  {
    assert Money(0.99, 0.0000019) == 1.881;
    assert Scaled(0.0000019) == 1.9;
  }

  /**
   With a price on a tick of 10^-k and a size of at most 6 - k decimals nothing is rounded: the buyer's
   amounts are the seller's swapped, and their ratio is the price.
   */
  lemma AlignedOrdersAreExact(p: real, s: real, k: nat, m: nat, j: nat)
    requires k <= 6 && p * Pow(10, k) as real == m as real && s * Pow(10, 6 - k) as real == j as real
    requires p >= 0.0 && s >= 0.0
    ensures var buy, sell := LimitAmounts(p, s, Buy), LimitAmounts(p, s, Sell);
      && buy == Amounts(m * j, j * Pow(10, k)) && sell == Amounts(buy.taker, buy.maker)
      && buy.maker as real == p * buy.taker as real
  {
    hide Pow, LimitAmounts, Money, Scaled;
    PowSplit(k);
    var t := Pow(10, k);
    Aligned(p, s, t as real, Pow(10, 6 - k) as real, m as real, j as real);
    IntProducts(m, j, t);
    UnroundedAmounts(p, s, m * j, j * t);
    assert (m * j) as real == p * (j * t) as real;
  }

  lemma UnroundedAmounts(p: real, s: real, money: nat, shares: nat)
    requires p >= 0.0 && s >= 0.0 && Money(p, s) == money as real && Scaled(s) == shares as real
    ensures LimitAmounts(p, s, Buy) == Amounts(money, shares) && LimitAmounts(p, s, Sell) == Amounts(shares, money)
  {
  }

  lemma IntProducts(m: nat, j: nat, t: nat)
    ensures (m * j) as real == m as real * j as real && (j * t) as real == j as real * t as real
    ensures m * j >= 0 && j * t >= 0
  {
  }

  lemma Aligned(p: real, s: real, t: real, u: real, m: real, j: real)
    requires t * u == SCALE && p * t == m && s * u == j
    ensures Scaled(s) == j * t && Money(p, s) == m * j && p * (j * t) == m * j
  {
    assert s * (t * u) == (s * u) * t;
    Exchange(p, s, t, u);
    assert p * (j * t) == (p * t) * j;
  }

  lemma Exchange(p: real, s: real, t: real, u: real)
    ensures p * s * (t * u) == (p * t) * (s * u)
  {
    assert p * s * (t * u) == p * (s * u) * t;
    assert (p * t) * (s * u) == p * (s * u) * t;
  }

  lemma PowSplit(k: nat)
    requires k <= 6
    ensures Pow(10, k) as real * Pow(10, 6 - k) as real == SCALE
  {
    PowAdd(10, k, 6 - k);
    assert Pow(10, 6) == 1_000_000;
    assert (Pow(10, k) * Pow(10, 6 - k)) as real == Pow(10, k) as real * Pow(10, 6 - k) as real;
  }

  // ----- market orders -----

  /** computeMarketOrderAmounts. */
  method ComputeMarketOrderAmounts(price: Decimal, amount: Decimal, side: Side)
    returns (r: Result<AmountStrings, string>)
    ensures r.Ok? <==>
      && Parse(price).Some? && Parse(amount).Some? && !side.Other?
      && Value(Parse(price).value) > 0.0 && Value(Parse(amount).value) > 0.0
    ensures r.Ok? ==> r.value == Printed(MarketAmounts(Value(Parse(price).value), Value(Parse(amount).value), side))
  {
    hide Value, Mul, Quo, FromInt, FloorTo, CeilTo, NatToString, Scaled, Worth;
    if Parse(price).None? { return Err("invalid price"); }
    var p := Parse(price).value;
    if Parse(amount).None? { return Err("invalid amount"); }
    var a := Parse(amount).value;
    if side.Other? { return Err("invalid side"); }
    SignOf(p);
    SignOf(a);
    if p.num <= 0 { return Err("market order price must be > 0"); }
    if a.num <= 0 { return Err("market order amount must be > 0"); }
    var scale := FromInt(ORDER_SCALE);
    ScaledValues(p, a);
    SignOf(scale);
    var amtScaled := Mul(a, scale);
    var makerInt := TruncRatToQuantum(amtScaled, MAKER_QUANTUM);
    GridFloor(makerInt, Scaled(Value(a)));
    var actualMakerAmount := Quo(FromInt(makerInt), scale);
    var takerAmt := if side == Buy then Quo(actualMakerAmount, p) else Mul(actualMakerAmount, p);
    var takerScaled := Mul(takerAmt, scale);
    WorthValue(makerInt, p, side, Value(actualMakerAmount), Value(takerAmt));
    var takerInt := CeilRatToQuantum(takerScaled, TAKER_QUANTUM);
    assert Amounts(makerInt, takerInt) == MarketAmounts(Value(p), Value(a), side);
    return Ok(AmountStrings(NatToString(makerInt), NatToString(takerInt)));
  }

  /** Dividing by the scale first and multiplying by it last changes nothing. */
  lemma WorthValue(maker: nat, p: Rat, side: Side, actual: real, taker: real)
    requires Value(p) > 0.0 && actual == maker as real / SCALE
    requires taker == if side.Buy? then actual / Value(p) else actual * Value(p)
    ensures taker * SCALE == Worth(Value(p), maker, side)
  {
    var x, q := maker as real, Value(p);
    assert actual * SCALE == x;
    if side.Buy? {
      assert taker * q == actual;
      assert taker * SCALE * q == x;
      ExactQuotient(x, q, taker * SCALE);
    }
  }

  lemma ExactQuotient(x: real, q: real, t: real)
    requires q > 0.0 && t * q == x
    ensures x / q == t
  {
  }

  /** Trading `maker` for `taker` is no worse than the worst price p. */
  predicate MeetsWorstPrice(p: real, maker: nat, taker: int, side: Side) {
    if side.Buy? then maker as real <= p * taker as real else taker as real >= p * maker as real
  }

  /** A market order never trades worse than its worst price, and no smaller amount on the grid would do. */
  lemma MarketTakerIsLeast(p: real, amount: real, side: Side, t: int)
    requires p > 0.0 && amount >= 0.0 && t % TAKER_QUANTUM == 0
    ensures var a := MarketAmounts(p, amount, side);
      && a.taker % TAKER_QUANTUM == 0
      && (MeetsWorstPrice(p, a.maker, t, side) <==> a.taker <= t)
  {
    var a := MarketAmounts(p, amount, side);
    var worth := Worth(p, a.maker, side);
    if side.Buy? { AtLeastQuotient(a.maker as real, p, t as real); }
    assert MeetsWorstPrice(p, a.maker, t, side) <==> worth <= t as real;
    if t < a.taker { MultiplesApart(a.taker, t, TAKER_QUANTUM); }
  }

  lemma AtLeastQuotient(x: real, p: real, t: real)
    requires p > 0.0
    ensures x <= p * t <==> x / p <= t
  {
    var q := x / p;
    assert q * p == x;
    if q <= t { RealMulMono(q, t, p); }
    if t < q { assert (q - t) * p > 0.0; }
  }

  /** A market order offers the greatest multiple of its grid within the amount. */
  lemma MarketMakerIsGreatest(p: real, amount: real, side: Side, m: int)
    requires p > 0.0 && amount >= 0.0 && m % MAKER_QUANTUM == 0
    ensures var a := MarketAmounts(p, amount, side);
      && a.maker % MAKER_QUANTUM == 0
      && (m as real <= Scaled(amount) <==> m <= a.maker)
  {
    var maker := MarketAmounts(p, amount, side).maker;
    if maker < m { MultiplesApart(m, maker, MAKER_QUANTUM); }
  }

  /** What a positive market order amounts to at least. */
  lemma MarketMinimum(p: real, amount: real, side: Side)
    requires p > 0.0 && amount >= 0.0
    ensures var a := MarketAmounts(p, amount, side);
      && (a.maker > 0 ==> a.maker >= MAKER_QUANTUM && a.taker >= TAKER_QUANTUM)
      && (a.maker > 0 <==> amount >= 0.01) && (a.maker > 0 <==> a.taker > 0)
  {
    var a := MarketAmounts(p, amount, side);
    MarketMakerIsGreatest(p, amount, side, MAKER_QUANTUM);
    MarketTakerIsLeast(p, amount, side, 0);
    if a.maker > 0 {
      MultiplesApart(a.maker, 0, MAKER_QUANTUM);
      if side.Sell? || side.Other? { assert p * a.maker as real > 0.0; }
      MultiplesApart(a.taker, 0, TAKER_QUANTUM);
    }
  }
}
