/**
 Derivation of a combo's condition and position ids from its legs, decoding of position ids, and the
 hex form of conditions. Keccak is a parameter: any function from byte strings to 32-byte words.
 */
module ComboContext {
  import opened Arithmetic
  import opened Wrappers
  import opened Bytes
  import opened Text
  import opened ContractAbi
  import opened ComboProtocol

  const COMBO_MODULE: nat := 3

  /** The bytes whose hash identifies the combo. */
  function Preimage(canonical: seq<nat>): seq<byte> {
    EncodeUintAndBytes(COMBO_MODULE, EncodeUintArray(canonical))
  }

  function PositionFor(condition: seq<byte>, outcome: byte): nat {
    FromBytes(condition + [outcome])
  }

  datatype Context = Context(conditionID: seq<byte>, yes: string, no: string)

  /** The module byte, the last 16 bytes of the hash, zeros. */
  ghost predicate IsComboCondition(condition: seq<byte>, hash: Word) {
    && |condition| == 31
    && condition[0] == COMBO_MODULE as byte
    && condition[1..17] == hash[16..]
    && condition[17..] == Zeros(14)
  }

  /** The context that belongs to acceptable legs. */
  ghost predicate IsContextOf(context: Context, legs: seq<string>, keccak: seq<byte> -> Word)
    requires Acceptable(legs)
  {
    && IsComboCondition(context.conditionID, keccak(Preimage(Canonical(legs).value)))
    && context.yes == NatToString(PositionFor(context.conditionID, 0))
    && context.no == NatToString(PositionFor(context.conditionID, 1))
  }

  /** DeriveComboPositionContext. */
  method DeriveComboPositionContext(legs: seq<string>, keccak: seq<byte> -> Word) returns (r: Result<Context, string>)
    ensures r.Ok? <==> Acceptable(legs)
    ensures r.Ok? ==> IsContextOf(r.value, legs, keccak)
  {
    var canonical := CanonicalizeComboLegs(legs);
    if canonical.Err? {
      return Err(canonical.error);
    }
    var hash := keccak(Preimage(canonical.value));
    var id := BuildCondition(hash);
    return Ok(Context(id, NatToString(PositionFor(id, 0)), NatToString(PositionFor(id, 1))));
  }

  lemma ConditionUnique(a: seq<byte>, b: seq<byte>, hash: Word)
    requires IsComboCondition(a, hash) && IsComboCondition(b, hash)
    ensures a == b
  {
    assert a == [a[0]] + a[1..17] + a[17..] && b == [b[0]] + b[1..17] + b[17..];
  }

  /** Any permutation of the legs has the same condition and the same two position ids, or is refused as well. */
  lemma LegOrderKeepsContext(legs: seq<string>, legs': seq<string>, keccak: seq<byte> -> Word)
    requires multiset(legs) == multiset(legs')
    ensures Acceptable(legs) <==> Acceptable(legs')
    ensures Acceptable(legs) ==>
      forall x, y :: IsContextOf(x, legs, keccak) && IsContextOf(y, legs', keccak) ==> x == y
  {
    LegOrderIsIrrelevant(legs, legs');
    assert Acceptable(legs) <==> Acceptable(legs') by {
      assert Canonical(legs).Some? <==> Acceptable(legs);
      assert Canonical(legs').Some? <==> Acceptable(legs');
    }
    if Acceptable(legs) {
      hide Acceptable, Preimage, IsComboCondition, PositionFor, NatToString;
      forall x, y | IsContextOf(x, legs, keccak) && IsContextOf(y, legs', keccak) ensures x == y {
        ConditionUnique(x.conditionID, y.conditionID, keccak(Preimage(Canonical(legs).value)));
      }
    }
  }

  method BuildCondition(hash: Word) returns (id: seq<byte>)
    ensures IsComboCondition(id, hash)
  {
    var condition := new byte[31](_ => 0);
    condition[0] := COMBO_MODULE as byte;
    var i := 1;
    while i < 17
      invariant 1 <= i <= 17
      invariant condition[0] == COMBO_MODULE as byte
      invariant forall k :: 1 <= k < i ==> condition[k] == hash[k + 15]
      invariant forall k :: 17 <= k < 31 ==> condition[k] == 0
    {
      condition[i] := hash[i + 15];
      i := i + 1;
    }
    id := condition[..];
    assert forall k :: 0 <= k < 16 ==> id[1..17][k] == condition[k + 1];
    assert id[1..17] == hash[16..];
  }

  /** DecodeComboPositionID. */
  function DecodeComboPositionID(positionID: string): Result<(seq<byte>, byte), string> {
    var position := ParsePositionID(positionID);
    if position.None? then Err("position id must be a uint256 value")
    else if ModuleByte(position.value) != COMBO_MODULE as byte then Err("must use the combinatorial module")
    else if OutcomeOf(position.value) > 1 then Err("must be a yes/no position id")
    else Ok((ConditionOf(position.value), OutcomeOf(position.value)))
  }

  /** The bytes of the position built from a condition and an outcome are those two parts. */
  lemma PositionBytes(condition: seq<byte>, outcome: byte)
    requires |condition| == 31
    ensures PositionFor(condition, outcome) < UINT256_LIMIT
    ensures ToWord(PositionFor(condition, outcome)) == condition + [outcome]
  {
    var w: Word := condition + [outcome];
    WordRoundTrip(0, w);
  }

  /** Decoding the decimal form of a combo position gives back its condition and outcome, for every condition. */
  lemma DecodePrinted(condition: seq<byte>, outcome: byte)
    requires |condition| == 31 && condition[0] == COMBO_MODULE as byte && outcome <= 1
    ensures DecodeComboPositionID(NatToString(PositionFor(condition, outcome))) == Ok((condition, outcome))
  {
    var n := PositionFor(condition, outcome);
    PositionBytes(condition, outcome);
    ParsePrinted(n);
    NatToStringDigits(n);
    assert (condition + [outcome])[..31] == condition;
  }

  /** Each derived position id decodes to the derived condition and its own outcome, whatever the hash. */
  lemma DerivedPositionsDecode(context: Context, legs: seq<string>, keccak: seq<byte> -> Word)
    requires Acceptable(legs) && IsContextOf(context, legs, keccak)
    ensures DecodeComboPositionID(context.yes) == Ok((context.conditionID, 0 as byte))
    ensures DecodeComboPositionID(context.no) == Ok((context.conditionID, 1 as byte))
  {
    DecodePrinted(context.conditionID, 0);
    DecodePrinted(context.conditionID, 1);
  }

  /** The condition as a number: the module byte, the low 16 bytes of the hash, 14 zero bytes. */
  lemma ConditionNumber(condition: seq<byte>, hash: Word)
    requires IsComboCondition(condition, hash)
    ensures Pow(256, 16) > 0
    ensures FromBytes(condition) == (3 * Pow(256, 16) + FromBytes(hash) % Pow(256, 16)) * Pow(256, 14)
    ensures forall outcome: byte :: PositionFor(condition, outcome) == 256 * FromBytes(condition) + outcome as nat
  {
    var high, low := condition[..17], condition[17..];
    assert condition == high + low && low == Zeros(14);
    assert high == [condition[0]] + condition[1..17];
    hide IsComboCondition, Pow, FromBytes, Zeros;
    FromBytesConcat(high, low);
    ZerosValue(14);
    FromBytesConcat([condition[0]], condition[1..17]);
    OneByte(condition[0]);
    LowHalf(hash);
    forall outcome: byte ensures PositionFor(condition, outcome) == 256 * FromBytes(condition) + outcome as nat {
      PositionNumber(condition, outcome);
    }
  }

  lemma PositionNumber(condition: seq<byte>, outcome: byte)
    ensures PositionFor(condition, outcome) == 256 * FromBytes(condition) + outcome as nat
  {
    assert (condition + [outcome])[..|condition|] == condition;
  }

  lemma {:induction false} ZerosValue(n: nat)
    ensures FromBytes(Zeros(n)) == 0
  {
    if n > 0 {
      ZerosValue(n - 1);
      assert Zeros(n)[..n - 1] == Zeros(n - 1);
    }
  }

  lemma LowHalf(hash: Word)
    ensures Pow(256, 16) > 0 && FromBytes(hash[16..]) == FromBytes(hash) % Pow(256, 16)
  {
    hide Pow;
    var high, low := hash[..16], hash[16..];
    assert hash == high + low;
    FromBytesConcat(high, low);
    FromBytesFill(low);
    DivModUnique(FromBytes(hash), Pow(256, 16), FromBytes(high), FromBytes(low));
  }

  /** A position id decodes exactly when its number has module 3 and outcome 0 or 1. */
  lemma DecodeMeaning(positionID: string)
    ensures Pow(256, 31) > 0
    ensures var n := ParsePositionID(positionID);
      DecodeComboPositionID(positionID).Ok? <==> n.Some? && n.value / Pow(256, 31) == 3 && n.value % 256 <= 1
  {
    hide ParsePositionID, ModuleByte, OutcomeOf, ConditionOf;
    PowPositive(256, 31);
    var n := ParsePositionID(positionID);
    if n.Some? {
      ModuleOf(n.value);
      WordParts(n.value);
    }
  }

  lemma CanonicalBounds(legs: seq<string>)
    requires Acceptable(legs)
    ensures 1 <= |Canonical(legs).value| <= MAX_COMBO_LEGS && AllUint256(Canonical(legs).value)
  {
    var s := Canonical(legs).value;
    PositionOrder.MembersMatch(s, Positions(legs));
    forall i | 0 <= i < |s| ensures s[i] < UINT256_LIMIT {
      assert s[i] in Positions(legs);
      var k :| 0 <= k < |legs| && Positions(legs)[k] == s[i];
      PositionAt(legs, k);
    }
  }

  /** The hashed bytes are (uint256, bytes): the module, and the bytes of exactly the canonical legs. */
  lemma PreimageReadsBack(canonical: seq<nat>)
    requires AllUint256(canonical) && |EncodeUintArray(canonical)| < UINT256_LIMIT
    ensures WordAt(Preimage(canonical), 0) == Some(3)
    ensures ReadBytes(Preimage(canonical), WORD_SIZE).Some?
    ensures ReadUintArray(ReadBytes(Preimage(canonical), WORD_SIZE).value, 0) == Some(canonical)
    ensures |Preimage(canonical)| == 96 + |EncodeUintArray(canonical)|
  {
    hide EncodeUintArray, ReadUintArray, ReadBytes, WordAt, EncodeUintAndBytes;
    var legs := EncodeUintArray(canonical);
    UintAndBytesRoundTrip(COMBO_MODULE, legs);
    UintArrayRoundTrip(canonical);
    UintAndBytesSize(COMBO_MODULE, legs);
    assert |legs| % WORD_SIZE == 0;
  }

  /** Combos with different canonical legs are hashed from different bytes. */
  lemma PreimagesDiffer(legs: seq<string>, legs': seq<string>)
    requires Acceptable(legs) && Acceptable(legs')
    ensures Preimage(Canonical(legs).value) == Preimage(Canonical(legs').value) <==> Canonical(legs) == Canonical(legs')
  {
    CanonicalBounds(legs);
    CanonicalBounds(legs');
    if Preimage(Canonical(legs).value) == Preimage(Canonical(legs').value) {
      NestedEncodingInjective(COMBO_MODULE, Canonical(legs).value, COMBO_MODULE, Canonical(legs').value);
    }
  }

  // ----- the hex form of conditions -----

  predicate HasSuffix(s: string, suffix: string) {
    |s| >= |suffix| && s[|s| - |suffix|..] == suffix
  }

  predicate LowerHexAfterPrefix(s: string) {
    forall i :: 2 <= i < |s| ==> IsLowerHex(s[i])
  }

  /** NormalizeConditionID. */
  function NormalizeConditionID(value: string): Result<string, string> {
    var v := ToLower(TrimSpace(value));
    var w := if |v| == 66 && "0x03" <= v && (HasSuffix(v, "00") || HasSuffix(v, "01")) then v[..64] else v;
    if |w| != 64 || !("0x03" <= w) then Err("invalid condition id")
    else if !LowerHexAfterPrefix(w) then Err("invalid condition id")
    else Ok(w)
  }

  ghost predicate IsNormalized(s: string) {
    |s| == 64 && "0x03" <= s && LowerHexAfterPrefix(s)
  }

  lemma NormalizedIsFixed(s: string)
    requires IsNormalized(s)
    ensures TrimSpace(s) == s && ToLower(s) == s && NormalizeConditionID(s) == Ok(s)
  {
    assert s[0] == '0' && s[1] == 'x';
    TrimSpaceFixed(s);
    assert ToLower(s) == s;
  }

  /** Normalisation is idempotent: a normalised id, and nothing else, is its own normal form. */
  lemma NormalizeIdempotent(value: string)
    ensures NormalizeConditionID(value).Ok? ==>
      NormalizeConditionID(NormalizeConditionID(value).value) == NormalizeConditionID(value)
    ensures NormalizeConditionID(value) == Ok(value) <==> IsNormalized(value)
  {
    var r := NormalizeConditionID(value);
    if r.Ok? { NormalizedIsFixed(r.value); }
    if IsNormalized(value) { NormalizedIsFixed(value); }
  }

  /** The case of the text does not matter. */
  lemma NormalizeIgnoresCase(s: string)
    requires s != "" && !IsSpace(s[0]) && !IsSpace(s[|s| - 1])
    ensures NormalizeConditionID(s) == NormalizeConditionID(ToLower(s))
  {
    TrimSpaceFixed(s);
    TrimSpaceFixed(ToLower(s));
    assert ToLower(ToLower(s)) == ToLower(s);
  }

  lemma NormalizeDropsOutcome(w: string, suffix: string)
    requires IsNormalized(w) && (suffix == "00" || suffix == "01")
    ensures NormalizeConditionID(w + suffix) == Ok(w)
  {
    var v := w + suffix;
    NormalizedIsFixed(w);
    assert w[0] == '0';
    TrimSpaceFixed(v);
    forall i | 0 <= i < |v| ensures ToLowerChar(v[i]) == v[i] {
      if i < 64 { assert v[i] == w[i] == ToLower(w)[i]; }
    }
    assert ToLower(v) == v;
    assert v[..64] == w && v[64..] == suffix;
  }

  lemma ConditionHexIsNormalized(condition: seq<byte>)
    requires |condition| == 31 && condition[0] == COMBO_MODULE as byte
    ensures IsNormalized(HexutilEncode(condition))
  {
    var h := HexEncode(condition);
    HexRoundTrip(condition);
    assert h[0] == HexDigit(0) && h[1] == HexDigit(3);
    assert HexutilEncode(condition)[..4] == "0x03";
    assert forall i :: 2 <= i < 64 ==> HexutilEncode(condition)[i] == h[i - 2];
  }

  lemma NormalizeWordHex(condition: seq<byte>, outcome: byte)
    requires |condition| == 31 && condition[0] == COMBO_MODULE as byte && outcome <= 1
    ensures NormalizeConditionID(HexutilEncode(condition + [outcome])) == Ok(HexutilEncode(condition))
  {
    HexEncodeConcat(condition, [outcome]);
    ConditionHexIsNormalized(condition);
    OutcomeHex(outcome);
    var w, suffix := HexutilEncode(condition), HexEncode([outcome]);
    NormalizeDropsOutcome(w, suffix);
    assert HexutilEncode(condition + [outcome]) == w + suffix;
  }

  /** The hex of a combo position normalises to the hex of the condition the position decodes to. */
  lemma NormalizePositionHex(positionID: string, n: nat)
    requires ParsePositionID(positionID) == Some(n) && DecodeComboPositionID(positionID).Ok?
    ensures NormalizeConditionID(HexutilEncode(ToWord(n)))
         == Ok(HexutilEncode(DecodeComboPositionID(positionID).value.0))
  {
    var condition, outcome := ConditionOf(n), OutcomeOf(n);
    assert ToWord(n) == condition + [outcome];
    NormalizeWordHex(condition, outcome);
  }

  lemma OutcomeHex(outcome: byte)
    requires outcome <= 1
    ensures HexEncode([outcome]) == if outcome == 0 then "00" else "01"
  {
    assert [outcome][1..] == [];
  }
}
