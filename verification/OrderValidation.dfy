/** The field checks every order goes through: tick alignment, uint256 text, bytes32 text. */
module OrderValidation {
  import opened Wrappers
  import opened Bytes
  import opened Text
  import opened Rationals
  import opened OrderAmounts

  // ----- tick alignment -----

  /** validatePriceTicks: a price is accepted exactly when it is an integral multiple of a positive tick. */
  predicate ValidPriceTicks(price: Decimal, tick: Decimal): (ok: bool)
    ensures price.Written? && tick.Written? ==>
      (ok <==>
       && price.parsed.Some? && tick.parsed.Some? && Value(tick.parsed.value) > 0.0
       && exists k: int :: IsMultiple(Value(price.parsed.value), Value(tick.parsed.value), k))
    ensures price.Blank? || tick.Blank? ==> ok
  {
    if tick.Blank? || price.Blank? then true
    else if Parse(price).None? || Parse(tick).None? then false
    else
      var p, t := Parse(price).value, Parse(tick).value;
      SignOf(t);
      if t.num <= 0 then false
      else
        MultipleIff(p, t);
        IsInt(Quo(p, t))
  }

  predicate IsMultiple(p: real, t: real, k: int) {
    p == k as real * t
  }

  /** A quotient in lowest terms has denominator 1 exactly when the price is a multiple of the tick. */
  lemma MultipleIff(p: Rat, t: Rat)
    requires t.num > 0
    ensures IsInt(Quo(p, t)) <==> exists k: int :: IsMultiple(Value(p), Value(t), k)
  {
    hide Value, Quo, IsInt;
    var q, x, y := Value(Quo(p, t)), Value(p), Value(t);
    assert q == x / y;
    IsIntMeansIntegral(Quo(p, t));
    if q.Floor as real == q {
      assert IsMultiple(x, y, q.Floor);
    }
    if k: int :| IsMultiple(x, y, k) {
      QuotientOfMultiple(x, y, k);
    }
  }

  lemma QuotientOfMultiple(x: real, y: real, k: int)
    requires y > 0.0 && IsMultiple(x, y, k)
    ensures x / y == k as real && (x / y).Floor == k
  {
  }

  // ----- uint256 text -----

  /** validateUint256String. */
  predicate ValidUint256(value: string, required: bool, positive: bool) {
    if value == "" then !required
    else
      var n := ParseInt10(value);
      n.Some? && n.value >= 0 && !(positive && n.value == 0) && n.value <= UINT256_LIMIT - 1
  }

  /** A printed integer passes exactly when it is in the range of a uint256. */
  lemma PrintedUint256(n: int, required: bool, positive: bool)
    ensures ValidUint256(IntToString(n), required, positive) <==>
      0 <= n < UINT256_LIMIT && (positive ==> n > 0)
  {
    hide IntToString;
    ParsePrintedInt(n);
  }

  /** A text that reads as an integer in `least`..2^256-1. */
  predicate UintText(text: string, least: nat) {
    ParseInt10(text).Some? && least <= ParseInt10(text).value < UINT256_LIMIT
  }

  /** Blank text passes exactly when the field is not required, and any other exactly when it is in range. */
  lemma Uint256Meaning(value: string, required: bool, positive: bool)
    ensures ValidUint256(value, required, positive) <==>
      if value == "" then !required else UintText(value, if positive then 1 else 0)
  {
    hide ParseInt10;
  }

  // ----- bytes32 text -----

  /** What ValidateBytes32Hex accepts: nothing, or the hex of exactly 32 bytes. */
  predicate ValidBytes32(v: string) {
    v == "" || (HexutilDecode(v).Some? && |HexutilDecode(v).value| == 32)
  }

  /** ValidateBytes32Hex. */
  method ValidateBytes32Hex(v: string) returns (ok: bool)
    ensures ok <==> ValidBytes32(v)
  {
    if v == "" { return true; }
    if !HasHexPrefix(v) { return false; }
    var hex := v[2..];
    if |hex| != 64 { return false; }
    var i := 0;
    while i < |hex|
      invariant i <= |hex|
      invariant forall k :: 0 <= k < i ==> IsHexDigit(hex[k])
    {
      if !IsHexDigit(hex[i]) { return false; }
      i := i + 1;
    }
    return true;
  }

  const ZERO_BYTES32: string := HexutilEncode(ToWord(0))

  lemma ZeroBytes32IsValid()
    ensures ZERO_BYTES32 != "" && ValidBytes32(ZERO_BYTES32)
    ensures HexutilDecode(ZERO_BYTES32) == Some(seq(32, _ => 0 as byte))
  {
    FillBytesZero(WORD_SIZE);
    assert ToWord(0) == seq(32, _ => 0 as byte);
    hide ToWord;
    HexutilRoundTrip(ToWord(0));
  }
}
