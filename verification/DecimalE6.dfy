/** decimalToE6: the text of a decimal as an integer at 6-decimal scale. */
module DecimalE6 {
  import opened Wrappers
  import opened Bytes
  import opened Text

  const ONE_E6: nat := 1_000_000

  /** strings.Split at every dot. */
  function SplitDots(s: string): (parts: seq<string>)
    ensures |parts| >= 1
  {
    if s == "" then [""]
    else
      var rest := SplitDots(s[1..]);
      if s[0] == '.' then [""] + rest else [[s[0]] + rest[0]] + rest[1..]
  }

  function Zeros(n: nat): string {
    if n == 0 then "" else Zeros(n - 1) + "0"
  }

  /** An unparsable fraction counts as zero, and a fraction may carry a sign, as in the source. */
  function DecimalToE6(value: string): Option<int> {
    var v := TrimSpace(value);
    var parts := SplitDots(v);
    if |parts| > 2 || parts[0] == "" || "-" <= v then None
    else
      var f := if |parts| == 1 then "" else parts[1];
      var whole := ParseInt10(parts[0]);
      if |f| > 6 || whole.None? then None
      else
        var frac := OrZero(ParseInt10(f + Zeros(6 - |f|)));
        Some(whole.value * ONE_E6 + frac)
  }

  // ----- what it means -----

  lemma {:induction false} SplitWithoutDot(s: string)
    requires '.' !in s
    ensures SplitDots(s) == [s]
  {
    if s != "" {
      SplitWithoutDot(s[1..]);
      assert [s[0]] + s[1..] == s;
    }
  }

  lemma {:induction false} SplitAtDot(w: string, f: string)
    requires '.' !in w && '.' !in f
    ensures SplitDots(w + "." + f) == [w, f]
  {
    var s := w + "." + f;
    if w == "" {
      assert s[1..] == f;
      SplitWithoutDot(f);
    } else {
      SplitAtDot(w[1..], f);
      assert s[1..] == w[1..] + "." + f;
      assert [s[0]] + w[1..] == w;
    }
  }

  lemma {:induction false} SplitParts(s: string)
    ensures var parts := SplitDots(s);
      && (forall i :: 0 <= i < |parts| ==> '.' !in parts[i])
      && (|parts| == 1 ==> s == parts[0])
      && (|parts| == 2 ==> s == parts[0] + "." + parts[1])
  {
    if s != "" {
      SplitParts(s[1..]);
      assert s == [s[0]] + s[1..];
    }
  }

  lemma {:induction false} ZerosValue(n: nat)
    ensures |Zeros(n)| == n && AllDigits(Zeros(n)) && DigitsValue(Zeros(n)) == 0
  {
    if n > 0 {
      ZerosValue(n - 1);
      assert Zeros(n)[..n - 1] == Zeros(n - 1);
    }
  }

  predicate Signed(f: string) {
    f != "" && (f[0] == '+' || f[0] == '-')
  }

  function Unsigned(f: string): string {
    if Signed(f) then f[1..] else f
  }

  /** What the fraction text adds: its digits in place, with its sign; nothing if it has other characters. */
  function FractionE6(f: string): int
    requires |f| <= 6
  {
    if !AllDigits(Unsigned(f)) then 0
    else
      var magnitude: int := DigitsValue(Unsigned(f)) * Pow(10, 6 - |f|);
      if "-" <= f then -magnitude else magnitude
  }

  function OrZero(n: Option<int>): int {
    if n.None? then 0 else n.value
  }

  lemma ParseUnsigned(s: string)
    ensures ParseInt10(s).Some? <==> Unsigned(s) != "" && AllDigits(Unsigned(s))
    ensures ParseInt10(s).Some? ==>
      ParseInt10(s).value == if "-" <= s then -(DigitsValue(Unsigned(s)) as int) else DigitsValue(Unsigned(s)) as int
  {
    hide DigitsValue, AllDigits;
  }

  lemma PaddedDigits(digits: string, n: nat)
    ensures AllDigits(digits + Zeros(n)) <==> AllDigits(digits)
    ensures AllDigits(digits) ==> DigitsValue(digits + Zeros(n)) == DigitsValue(digits) * Pow(10, n)
  {
    hide DigitsValue, Zeros;
    ZerosValue(n);
    if AllDigits(digits) {
      DigitsValueConcat(digits, Zeros(n));
    } else {
      var i :| 0 <= i < |digits| && !IsDigit(digits[i]);
      assert !IsDigit((digits + Zeros(n))[i]);
    }
  }

  lemma PaddedShape(f: string, zeros: string)
    requires zeros == "" || (!Signed(zeros) && IsDigit(zeros[0]))
    ensures Unsigned(f + zeros) == Unsigned(f) + zeros
    ensures "-" <= f + zeros <==> "-" <= f
  {
    var padded := f + zeros;
    if f == "" {
      assert padded == zeros;
    } else {
      assert padded[0] == f[0] && padded[1..] == f[1..] + zeros;
    }
  }

  lemma PaddedFraction(f: string)
    requires |f| <= 6
    ensures OrZero(ParseInt10(f + Zeros(6 - |f|))) == FractionE6(f)
  {
    hide DigitsValue, Zeros, Pow, ParseInt10, AllDigits;
    var n := 6 - |f|;
    ZerosValue(n);
    ZerosHead(n);
    PaddedShape(f, Zeros(n));
    PaddedDigits(Unsigned(f), n);
    ParseUnsigned(f + Zeros(n));
    OnlySign(f);
  }

  lemma {:induction false} ZerosHead(n: nat)
    ensures n > 0 ==> Zeros(n) != "" && Zeros(n)[0] == '0'
  {
    if n > 1 { ZerosHead(n - 1); }
  }

  /** Six characters of text leave no room for padding, but they are more than a sign. */
  lemma OnlySign(f: string)
    requires |f| <= 6
    ensures Unsigned(f) + Zeros(6 - |f|) != ""
  {
    ZerosValue(6 - |f|);
  }

  /**
   Every text of the form `w.f` or `w`, blanks around it aside: it is accepted exactly when it has no
   leading minus, `w` is an integer and `f` has at most 6 characters, and then means w + f at scale.
   */
  lemma DecimalMeaning(value: string, w: string, f: string, dotted: bool)
    requires '.' !in w && '.' !in f && (dotted || f == "")
    requires TrimSpace(value) == if dotted then w + "." + f else w
    ensures DecimalToE6(value).Some? <==> ParseInt10(w).Some? && !("-" <= w) && |f| <= 6
    ensures DecimalToE6(value).Some? ==>
      DecimalToE6(value).value == OrZero(ParseInt10(w)) * ONE_E6 + FractionE6(f)
  {
    hide TrimSpace, FractionE6, Zeros, ParseInt10;
    if dotted {
      SplitAtDot(w, f);
    } else {
      SplitWithoutDot(w);
    }
    if w != "" { LeadingMinus(w, f); }
    EmptyIsNoInteger();
    hide SplitDots;
    if |f| <= 6 { PaddedFraction(f); }
  }

  /** Every accepted text has that form. */
  lemma AcceptedForm(value: string) returns (w: string, f: string, dotted: bool)
    requires DecimalToE6(value).Some?
    ensures '.' !in w && '.' !in f && (dotted || f == "")
    ensures TrimSpace(value) == if dotted then w + "." + f else w
  {
    var parts := SplitDots(TrimSpace(value));
    SplitParts(TrimSpace(value));
    w, dotted := parts[0], |parts| == 2;
    f := if dotted then parts[1] else "";
  }

  lemma EmptyIsNoInteger()
    ensures ParseInt10("") == None
  {
  }

  lemma LeadingMinus(w: string, f: string)
    requires w != ""
    ensures "-" <= w + "." + f <==> "-" <= w
  {
    assert (w + "." + f)[0] == w[0];
  }

  /** The number that digits before and after a dot denote. */
  function DecimalValue(w: string, f: string): real
    requires AllDigits(w) && AllDigits(f)
  {
    PowPositive(10, |f|);
    DigitsValue(w) as real + DigitsValue(f) as real / Pow(10, |f|) as real
  }

  /** On plain digit texts with at most 6 fraction digits the result is the value times 10^6, exactly. */
  lemma DecimalIsExact(value: string, w: string, f: string, dotted: bool)
    requires w != "" && AllDigits(w) && AllDigits(f) && |f| <= 6 && (dotted || f == "")
    requires TrimSpace(value) == if dotted then w + "." + f else w
    ensures DecimalToE6(value).Some?
    ensures DecimalToE6(value).value as real == DecimalValue(w, f) * 1000000.0
  {
    hide DigitsValue, Pow, TrimSpace, DecimalToE6;
    DigitsHaveNoDot(w);
    DigitsHaveNoDot(f);
    DecimalMeaning(value, w, f, dotted);
    PlainParts(w, f);
    FractionValue(f);
    assert (DigitsValue(w) * ONE_E6) as real == DigitsValue(w) as real * 1000000.0;
  }

  lemma DigitsHaveNoDot(s: string)
    requires AllDigits(s)
    ensures '.' !in s && !Signed(s) && !("-" <= s)
  {
    if s != "" { assert IsDigit(s[0]); }
  }

  lemma PlainParts(w: string, f: string)
    requires w != "" && AllDigits(w) && AllDigits(f) && |f| <= 6
    ensures ParseInt10(w) == Some(DigitsValue(w)) && FractionE6(f) == DigitsValue(f) * Pow(10, 6 - |f|)
  {
    hide DigitsValue, Pow;
    DigitsHaveNoDot(w);
    DigitsHaveNoDot(f);
  }

  /** The padded fraction is the fraction at scale. */
  lemma FractionValue(f: string)
    requires AllDigits(f) && |f| <= 6
    ensures Pow(10, |f|) > 0
    ensures (DigitsValue(f) * Pow(10, 6 - |f|)) as real == DigitsValue(f) as real / Pow(10, |f|) as real * 1000000.0
  {
    hide DigitsValue, Pow;
    var k := 6 - |f|;
    PowPositive(10, |f|);
    PowAdd(10, |f|, k);
    MillionIsPow();
    ScaledDigits(DigitsValue(f), Pow(10, |f|), Pow(10, k));
  }

  lemma MillionIsPow()
    ensures Pow(10, 6) == ONE_E6
  {
  }

  lemma ScaledDigits(x: nat, d: nat, e: nat)
    requires d > 0 && d * e == ONE_E6
    ensures (x * e) as real == x as real / d as real * 1000000.0
  {
    var xr, dr, er := x as real, d as real, e as real;
    assert dr * er == 1000000.0;
    ScaleFraction(xr, dr, er);
  }

  lemma ScaleFraction(x: real, d: real, e: real)
    requires d > 0.0
    ensures x / d * (d * e) == x * e
  {
    assert x / d * d == x;
  }

  /** Outside that form a fraction can take away from the whole part, or be ignored. */
  lemma OddFractions()
    ensures DecimalToE6("1.-5") == Some(950_000)
    ensures DecimalToE6("1.x") == Some(1_000_000)
  {
    hide DecimalToE6;
    assert "1." + "-5" == "1.-5" && "1." + "x" == "1.x";
    OneWithFraction("-5");
    OneWithFraction("x");
    assert FractionE6("-5") == -50_000 by {
      assert Unsigned("-5") == "5" && DigitsValue("5") == 5 && Pow(10, 4) == 10_000;
    }
    assert FractionE6("x") == 0 by { assert !IsDigit("x"[0]); }
  }

  lemma OneWithFraction(f: string)
    requires f != "" && |f| <= 6 && '.' !in f && !IsSpace(f[|f| - 1])
    ensures DecimalToE6("1." + f) == Some(ONE_E6 + FractionE6(f))
  {
    hide DecimalToE6, FractionE6;
    var value := "1." + f;
    assert value == "1" + "." + f && value[0] == '1' && value[|value| - 1] == f[|f| - 1];
    TrimSpaceFixed(value);
    DecimalMeaning(value, "1", f, true);
    assert ParseInt10("1") == Some(1) by { assert "1"[..0] == ""; }
  }
}
