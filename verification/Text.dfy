/** The string handling of the client: trimming, base-10 integers and hex. */
module Text {
  import opened Arithmetic
  import opened Wrappers
  import opened Bytes

  // ----- trimming (strings.TrimSpace) -----

  predicate IsSpace(c: char) {
    || '\t' <= c <= '\r' || c == ' ' || c == '\U{0085}' || c == '\U{00A0}' || c == '\U{1680}'
    || '\U{2000}' <= c <= '\U{200A}' || c == '\U{2028}' || c == '\U{2029}' || c == '\U{202F}'
    || c == '\U{205F}' || c == '\U{3000}'
  }

  function TrimLeft(s: string): (r: string)
    ensures r == [] || !IsSpace(r[0])
  {
    if s != [] && IsSpace(s[0]) then TrimLeft(s[1..]) else s
  }

  function TrimRight(s: string): (r: string)
    ensures r == [] || !IsSpace(r[|r| - 1])
  {
    if s != [] && IsSpace(s[|s| - 1]) then TrimRight(s[..|s| - 1]) else s
  }

  function TrimSpace(s: string): string {
    TrimRight(TrimLeft(s))
  }

  /** Text with no blank at either end is its own trimmed form. */
  lemma TrimSpaceFixed(s: string)
    requires s == [] || (!IsSpace(s[0]) && !IsSpace(s[|s| - 1]))
    ensures TrimSpace(s) == s
  {
  }

  lemma {:induction false} TrimRightKeepsFirst(s: string)
    requires s != [] && !IsSpace(s[0])
    ensures TrimRight(s) != [] && TrimRight(s)[0] == s[0]
  {
    if IsSpace(s[|s| - 1]) { TrimRightKeepsFirst(s[..|s| - 1]); }
  }

  predicate AllBlank(s: string) {
    forall i :: 0 <= i < |s| ==> IsSpace(s[i])
  }

  lemma {:induction false} TrimLeftBlank(blank: string, s: string)
    requires AllBlank(blank) && s != "" && !IsSpace(s[0])
    ensures TrimLeft(blank + s) == s
  {
    if blank == "" {
      assert blank + s == s;
    } else {
      TrimLeftBlank(blank[1..], s);
      assert (blank + s)[1..] == blank[1..] + s;
    }
  }

  lemma {:induction false} TrimRightBlank(s: string, blank: string)
    requires AllBlank(blank) && s != "" && !IsSpace(s[|s| - 1])
    ensures TrimRight(s + blank) == s
  {
    if blank == "" {
      assert s + blank == s;
    } else {
      TrimRightBlank(s, blank[..|blank| - 1]);
      assert (s + blank)[..|s + blank| - 1] == s + blank[..|blank| - 1];
    }
  }

  /** Blanks at both ends go, and nothing else. */
  lemma TrimSpaceMeaning(left: string, s: string, right: string)
    requires AllBlank(left) && AllBlank(right) && s != "" && !IsSpace(s[0]) && !IsSpace(s[|s| - 1])
    ensures TrimSpace(left + s + right) == s
  {
    assert left + s + right == left + (s + right);
    TrimLeftBlank(left, s + right);
    TrimRightBlank(s, right);
  }

  lemma {:induction false} TrimBlank(s: string)
    requires AllBlank(s)
    ensures TrimSpace(s) == ""
  {
    if s != "" {
      TrimBlank(s[1..]);
    }
  }

  /** Trimming twice is trimming once. */
  lemma TrimSpaceIdempotent(s: string)
    ensures TrimSpace(TrimSpace(s)) == TrimSpace(s)
  {
    var left := TrimLeft(s);
    if left != [] { TrimRightKeepsFirst(left); }
    TrimSpaceFixed(TrimSpace(s));
  }

  // ----- base-10 integers (big.Int.SetString and String) -----

  predicate IsDigit(c: char) {
    '0' <= c <= '9'
  }

  predicate AllDigits(s: string) {
    forall i :: 0 <= i < |s| ==> IsDigit(s[i])
  }

  function DigitsValue(s: string): nat
    requires AllDigits(s)
  {
    if s == [] then 0 else 10 * DigitsValue(s[..|s| - 1]) + (s[|s| - 1] as int - '0' as int)
  }

  /** big.Int.SetString(s, 10): one optional sign, then digits only, at least one. */
  function ParseInt10(s: string): Option<int> {
    var digits := if s != [] && (s[0] == '+' || s[0] == '-') then s[1..] else s;
    if digits == [] || !AllDigits(digits) then None
    else
      var magnitude: int := DigitsValue(digits);
      Some(if s[0] == '-' then -magnitude else magnitude)
  }

  /** big.Int.String for a non-negative integer. */
  function NatToString(n: nat): string {
    var last := [('0' as int + n % 10) as char];
    if n < 10 then last else NatToString(n / 10) + last
  }

  lemma {:induction false} NatToStringDigits(n: nat)
    ensures NatToString(n) != [] && AllDigits(NatToString(n)) && DigitsValue(NatToString(n)) == n
  {
    var s := NatToString(n);
    if n >= 10 {
      NatToStringDigits(n / 10);
    }
    assert s[..|s| - 1] == if n < 10 then [] else NatToString(n / 10);
  }

  /** Printing then parsing a non-negative integer gives it back. */
  lemma ParsePrinted(n: nat)
    ensures ParseInt10(NatToString(n)) == Some(n)
    ensures TrimSpace(NatToString(n)) == NatToString(n)
  {
    NatToStringDigits(n);
    TrimSpaceFixed(NatToString(n));
  }

  lemma PrintedHasNoBlank(n: nat)
    ensures var s := NatToString(n); s != "" && !IsSpace(s[0]) && !IsSpace(s[|s| - 1])
  {
    NatToStringDigits(n);
    var s := NatToString(n);
    assert IsDigit(s[0]) && IsDigit(s[|s| - 1]);
  }

  /** strconv.FormatInt and big.Int.String. */
  function IntToString(n: int): string {
    if n < 0 then "-" + NatToString(-n) else NatToString(n)
  }

  lemma ParsePrintedInt(n: int)
    ensures ParseInt10(IntToString(n)) == Some(n)
  {
    if n < 0 {
      NatToStringDigits(-n);
      assert IntToString(n)[1..] == NatToString(-n);
    } else {
      ParsePrinted(n);
    }
  }

  lemma {:induction false} DigitsValueConcat(a: string, b: string)
    requires AllDigits(a) && AllDigits(b)
    ensures AllDigits(a + b)
    ensures DigitsValue(a + b) == DigitsValue(a) * Pow(10, |b|) + DigitsValue(b)
  {
    var s := a + b;
    if b == [] {
      assert s == a;
    } else {
      var init := b[..|b| - 1];
      DigitsValueConcat(a, init);
      assert s[..|s| - 1] == a + init && s[|s| - 1] == b[|b| - 1];
      assert AllDigits(s);
      assert DigitsValue(s) == 10 * DigitsValue(a + init) + (s[|s| - 1] as int - '0' as int);
      ShiftLeft(10, DigitsValue(a), Pow(10, |init|));
    }
  }

  /** The digits are the usual ones; DigitsValueConcat says what their places are worth. */
  lemma DigitsInOrder(n: nat)
    requires n < 10
    ensures NatToString(n) == ["0123456789"[n]] && ParseInt10(["0123456789"[n]]) == Some(n)
  {
    ParsePrinted(n);
  }

  /** A text of digits is read with or without one sign. */
  lemma SignsAreRead(digits: string)
    requires digits != "" && AllDigits(digits)
    ensures ParseInt10(digits) == Some(DigitsValue(digits)) == ParseInt10("+" + digits)
    ensures ParseInt10("-" + digits) == Some(-(DigitsValue(digits) as int))
  {
    hide DigitsValue;
    assert ("+" + digits)[1..] == digits && ("-" + digits)[1..] == digits;
    assert IsDigit(digits[0]);
  }

  /** Nothing else is an integer. */
  lemma OnlyIntegersAreRead(s: string)
    requires ParseInt10(s).Some?
    ensures exists digits ::
      digits != "" && AllDigits(digits) && (s == digits || s == "+" + digits || s == "-" + digits)
  {
    hide DigitsValue;
    var digits := if s[0] == '+' || s[0] == '-' then s[1..] else s;
    assert s == digits || s == "+" + digits || s == "-" + digits;
  }

  // ----- hex (encoding/hex, hexutil) -----

  function ToLowerChar(c: char): char {
    if 'A' <= c <= 'Z' then (c as int + 32) as char else c
  }

  /** strings.ToLower on ASCII text. */
  function ToLower(s: string): (r: string)
    ensures |r| == |s|
  {
    seq(|s|, i requires 0 <= i < |s| => ToLowerChar(s[i]))
  }

  /** strings.EqualFold on ASCII text. */
  predicate EqualFold(a: string, b: string) {
    ToLower(a) == ToLower(b)
  }

  predicate IsLowerHex(c: char) {
    '0' <= c <= '9' || 'a' <= c <= 'f'
  }

  predicate IsHexDigit(c: char) {
    IsLowerHex(c) || 'A' <= c <= 'F'
  }

  predicate AllHex(s: string) {
    forall i :: 0 <= i < |s| ==> IsHexDigit(s[i])
  }

  function HexDigit(n: nat): (c: char)
    requires n < 16
    ensures IsLowerHex(c) && HexValue(c) == n
  {
    if n < 10 then ('0' as int + n) as char else ('a' as int + n - 10) as char
  }

  function HexValue(c: char): (n: nat)
    requires IsHexDigit(c)
    ensures n < 16
  {
    if c <= '9' then c as int - '0' as int
    else if c <= 'F' then c as int - 'A' as int + 10
    else c as int - 'a' as int + 10
  }

  function HexByte(b: byte): (s: string)
    ensures |s| == 2
  {
    [HexDigit(b as nat / 16), HexDigit(b as nat % 16)]
  }

  function HexEncode(bytes: seq<byte>): (s: string)
    ensures |s| == 2 * |bytes|
  {
    if bytes == [] then ""
    else HexByte(bytes[0]) + HexEncode(bytes[1..])
  }

  function HexDecode(s: string): (r: Option<seq<byte>>)
    ensures r.Some? <==> AllHex(s) && |s| % 2 == 0
    ensures r.Some? ==> 2 * |r.value| == |s|
  {
    if s == "" then Some([])
    else if |s| == 1 || !IsHexDigit(s[0]) || !IsHexDigit(s[1]) then None
    else
      var b := (16 * HexValue(s[0]) + HexValue(s[1])) as byte;
      match HexDecode(s[2..])
      case None => HexTail(s); None
      case Some(rest) => HexTail(s); Some([b] + rest)
  }

  lemma HexTail(s: string)
    requires |s| >= 2 && IsHexDigit(s[0]) && IsHexDigit(s[1])
    ensures AllHex(s) <==> AllHex(s[2..])
  {
    if AllHex(s[2..]) {
      forall i | 0 <= i < |s| ensures IsHexDigit(s[i]) {
        if i >= 2 { assert s[i] == s[2..][i - 2]; }
      }
    }
  }

  /** Encoding yields lower-case digits that decode to the same bytes. */
  lemma {:induction false} HexRoundTrip(bytes: seq<byte>)
    ensures HexDecode(HexEncode(bytes)) == Some(bytes)
    ensures forall i :: 0 <= i < |HexEncode(bytes)| ==> IsLowerHex(HexEncode(bytes)[i])
  {
    if bytes != [] {
      HexRoundTrip(bytes[1..]);
      var s := HexEncode(bytes);
      assert s[2..] == HexEncode(bytes[1..]);
      assert bytes == [bytes[0]] + bytes[1..];
    }
  }

  lemma {:induction false} HexEncodeConcat(a: seq<byte>, b: seq<byte>)
    ensures HexEncode(a + b) == HexEncode(a) + HexEncode(b)
  {
    if a == [] {
      assert a + b == b;
    } else {
      HexEncodeConcat(a[1..], b);
      HexEncodeMore(a, b);
    }
  }

  lemma HexEncodeMore(a: seq<byte>, b: seq<byte>)
    requires a != [] && HexEncode(a[1..] + b) == HexEncode(a[1..]) + HexEncode(b)
    ensures HexEncode(a + b) == HexEncode(a) + HexEncode(b)
  {
    hide HexEncode, HexByte;
    var s := a + b;
    assert s[0] == a[0] && s[1..] == a[1..] + b;
    HexEncodeFirst(s);
    HexEncodeFirst(a);
    assert HexByte(a[0]) + (HexEncode(a[1..]) + HexEncode(b)) == HexByte(a[0]) + HexEncode(a[1..]) + HexEncode(b);
  }

  lemma HexEncodeFirst(s: seq<byte>)
    requires s != []
    ensures HexEncode(s) == HexByte(s[0]) + HexEncode(s[1..])
  {
  }

  /** Decoding reads upper- and lower-case digits alike: printing the bytes gives the text in lower case. */
  lemma {:induction false} HexDecodeMeaning(s: string)
    requires HexDecode(s).Some?
    ensures HexEncode(HexDecode(s).value) == ToLower(s)
  {
    if s != "" {
      HexDecodeMeaning(s[2..]);
      HexDigitsMeaning(s[0], s[1]);
      HexEncodeFirst(HexDecode(s).value);
      assert HexDecode(s).value[1..] == HexDecode(s[2..]).value;
      assert ToLower(s) == [ToLowerChar(s[0]), ToLowerChar(s[1])] + ToLower(s[2..]);
    }
  }

  lemma HexDigitsMeaning(high: char, low: char)
    requires IsHexDigit(high) && IsHexDigit(low)
    ensures HexByte((16 * HexValue(high) + HexValue(low)) as byte) == [ToLowerChar(high), ToLowerChar(low)]
  {
    HexDigitMeaning(high);
    HexDigitMeaning(low);
    var b := 16 * HexValue(high) + HexValue(low);
    assert b / 16 == HexValue(high) && b % 16 == HexValue(low);
  }

  lemma HexDigitMeaning(c: char)
    requires IsHexDigit(c)
    ensures HexDigit(HexValue(c)) == ToLowerChar(c)
  {
  }

  /** The digits are the usual ones. */
  lemma HexDigitsInOrder(n: nat)
    requires n < 16
    ensures HexDigit(n) == "0123456789abcdef"[n]
  {
  }

  predicate HasHexPrefix(s: string) {
    |s| >= 2 && s[0] == '0' && (s[1] == 'x' || s[1] == 'X')
  }

  /** hexutil.Decode: the prefix is required, then whole bytes. */
  function HexutilDecode(s: string): Option<seq<byte>> {
    if HasHexPrefix(s) then HexDecode(s[2..]) else None
  }

  /** hexutil.Encode. */
  function HexutilEncode(bytes: seq<byte>): string {
    "0x" + HexEncode(bytes)
  }

  lemma HexutilRoundTrip(bytes: seq<byte>)
    ensures HexutilDecode(HexutilEncode(bytes)) == Some(bytes)
  {
    HexRoundTrip(bytes);
    assert HexutilEncode(bytes)[2..] == HexEncode(bytes);
  }

  // ----- addresses (common.IsHexAddress, common.HexToAddress) -----

  type Address = a: seq<byte> | |a| == 20 witness seq(20, _ => 0 as byte)

  function StripHexPrefix(s: string): string {
    if HasHexPrefix(s) then s[2..] else s
  }

  predicate IsHexAddress(s: string) {
    |StripHexPrefix(s)| == 40 && AllHex(StripHexPrefix(s))
  }

  function AddressBytes(s: string): Address
    requires IsHexAddress(s)
  {
    HexDecode(StripHexPrefix(s)).value
  }

  /** Two spellings name the same address exactly when their digits are equal up to case. */
  lemma SameAddressIff(a: string, b: string)
    requires IsHexAddress(a) && IsHexAddress(b)
    ensures AddressBytes(a) == AddressBytes(b) <==> EqualFold(StripHexPrefix(a), StripHexPrefix(b))
  {
    var x, y := StripHexPrefix(a), StripHexPrefix(b);
    HexDecodeMeaning(x);
    HexDecodeMeaning(y);
    HexRoundTrip(AddressBytes(a));
    HexRoundTrip(AddressBytes(b));
  }

  /** Spellings equal up to case, prefix included, name the same address. */
  lemma FoldedAddress(a: string, b: string)
    requires IsHexAddress(a) && EqualFold(a, b)
    ensures IsHexAddress(b) && AddressBytes(a) == AddressBytes(b)
  {
    assert |ToLower(a)| == |a| && |ToLower(b)| == |b|;
    assert forall i :: 0 <= i < |a| ==> ToLowerChar(a[i]) == ToLower(a)[i] == ToLower(b)[i] == ToLowerChar(b[i]);
    assert forall i :: 0 <= i < |a| ==> (IsHexDigit(a[i]) <==> IsHexDigit(b[i]));
    assert HasHexPrefix(a) == HasHexPrefix(b);
    var x, y := StripHexPrefix(a), StripHexPrefix(b);
    assert ToLower(x) == if HasHexPrefix(a) then ToLower(a)[2..] else ToLower(a);
    assert ToLower(y) == if HasHexPrefix(b) then ToLower(b)[2..] else ToLower(b);
    SameAddressIff(a, b);
  }

  /** Address.Hex: the case of the digits is left open, but what is printed reads back to the same bytes. */
  ghost predicate PrintsAddresses(hex: Address -> string) {
    forall a: Address :: IsHexAddress(hex(a)) && AddressBytes(hex(a)) == a
  }
}
