/**
 Combo legs and position ids. A position id is a uint256 whose first byte is the module, whose first
 31 bytes are the condition, and whose last byte is the outcome.
 */
module ComboProtocol {
  import opened Arithmetic
  import opened Wrappers
  import opened Bytes
  import opened Text
  import opened PositionOrder

  const MAX_COMBO_LEGS: nat := 50

  /** parseComboPositionID. */
  function ParsePositionID(value: string): (r: Option<nat>)
    ensures r.Some? ==> r.value < UINT256_LIMIT
  {
    var v := TrimSpace(value);
    var n := ParseInt10(v);
    if v == "" || n.None? || n.value < 0 || n.value >= UINT256_LIMIT then None else Some(n.value)
  }

  function ModuleByte(n: nat): byte {
    ToWord(n)[0]
  }

  function ConditionOf(n: nat): (c: seq<byte>)
    ensures |c| == 31
  {
    ToWord(n)[..31]
  }

  function OutcomeOf(n: nat): byte {
    ToWord(n)[31]
  }

  predicate IsLegPosition(n: nat) {
    n < UINT256_LIMIT && (ModuleByte(n) == 1 || ModuleByte(n) == 2) && OutcomeOf(n) <= 1
  }

  predicate IsLeg(leg: string) {
    ParsePositionID(leg).Some? && IsLegPosition(ParsePositionID(leg).value)
  }

  function PositionOf(leg: string): nat {
    var n := ParsePositionID(leg);
    if n.Some? then n.value else 0
  }

  function Positions(legs: seq<string>): (r: seq<nat>)
    ensures |r| == |legs|
  {
    if legs == [] then [] else Positions(legs[..|legs| - 1]) + [PositionOf(legs[|legs| - 1])]
  }

  lemma {:induction false} PositionAt(legs: seq<string>, i: nat)
    requires i < |legs|
    ensures Positions(legs)[i] == PositionOf(legs[i])
  {
    if i < |legs| - 1 { PositionAt(legs[..|legs| - 1], i); }
  }

  /** No two positions are outcomes of one condition, the same outcome included. */
  ghost predicate DistinctConditions(s: seq<nat>) {
    forall i, j :: 0 <= i < j < |s| ==> ConditionOf(s[i]) != ConditionOf(s[j])
  }

  /** What a list of legs must be: 1 to 50 binary or neg-risk outcomes of different conditions. */
  ghost predicate Acceptable(legs: seq<string>) {
    && 1 <= |legs| <= MAX_COMBO_LEGS
    && (forall i :: 0 <= i < |legs| ==> IsLeg(legs[i]))
    && DistinctConditions(Positions(legs))
  }

  /** Blanks around a printed uint256 do not matter; a larger number is refused. */
  lemma PositionIsRead(n: nat, left: string, right: string)
    requires AllBlank(left) && AllBlank(right)
    ensures ParsePositionID(left + NatToString(n) + right) == if n < UINT256_LIMIT then Some(n) else None
  {
    hide NatToString, TrimSpace, ParseInt10, AllBlank;
    ParsePrinted(n);
    PrintedHasNoBlank(n);
    TrimSpaceMeaning(left, NatToString(n), right);
  }

  /** As numbers: the module is the most significant of 32 bytes, the outcome the least significant. */
  lemma LegMeaning(n: nat)
    ensures Pow(256, 31) > 0
    ensures IsLegPosition(n) <==>
      n < UINT256_LIMIT && (n / Pow(256, 31) == 1 || n / Pow(256, 31) == 2) && (n % 256 == 0 || n % 256 == 1)
  {
    PowPositive(256, 31);
    if n < UINT256_LIMIT {
      ModuleOf(n);
      WordParts(n);
    }
  }

  lemma ModuleOf(n: nat)
    requires n < UINT256_LIMIT
    ensures Pow(256, 31) > 0 && ModuleByte(n) as nat == n / Pow(256, 31)
  {
    hide FillBytes;
    WordLimit();
    FillBytesAt(n, 32, 0);
    assert Pow(256, 32) == 256 * Pow(256, 31);
    hide Pow;
    BelowQuotient(n, Pow(256, 31), 256);
  }

  /** Acceptable legs in numbers: 1 to 50 leg positions, no two with the same upper 31 bytes. */
  lemma AcceptableMeaning(legs: seq<string>)
    ensures Acceptable(legs) <==>
      && 1 <= |legs| <= 50
      && (forall i :: 0 <= i < |legs| ==> IsLeg(legs[i]))
      && (forall i, j :: 0 <= i < j < |legs| ==> PositionOf(legs[i]) / 256 != PositionOf(legs[j]) / 256)
  {
    hide ParsePositionID, ModuleByte, ConditionOf, OutcomeOf;
    if forall i :: 0 <= i < |legs| ==> IsLeg(legs[i]) {
      forall i, j | 0 <= i < j < |legs|
        ensures ConditionOf(Positions(legs)[i]) != ConditionOf(Positions(legs)[j])
           <==> PositionOf(legs[i]) / 256 != PositionOf(legs[j]) / 256
      {
        PositionAt(legs, i);
        PositionAt(legs, j);
        SameCondition(PositionOf(legs[i]), PositionOf(legs[j]));
      }
    }
  }

  // ----- the adjacent scan -----

  /** A position is 256 times its condition plus its outcome. */
  lemma WordParts(n: nat)
    requires n < UINT256_LIMIT
    ensures ConditionOf(n) == FillBytes(n / 256, 31) && OutcomeOf(n) as nat == n % 256
    ensures FromBytes(ConditionOf(n)) == n / 256
  {
    WordLimit();
    assert ToWord(n) == FillBytes(n / 256, 31) + [(n % 256) as byte];
    FillBytesValue(n / 256, 31);
  }

  lemma SameCondition(m: nat, n: nat)
    requires m < UINT256_LIMIT && n < UINT256_LIMIT
    ensures ConditionOf(m) == ConditionOf(n) <==> m / 256 == n / 256
  {
    WordParts(m);
    WordParts(n);
  }

  /** The scan of neighbours after sorting. */
  ghost predicate NoAdjacentClash(s: seq<nat>) {
    forall i :: 1 <= i < |s| ==> ConditionOf(s[i - 1]) != ConditionOf(s[i])
  }

  /** In an ascending list, looking at neighbours finds every clash. */
  lemma AdjacentScanIsComplete(s: seq<nat>)
    requires Ascending(s) && forall i :: 0 <= i < |s| ==> IsLegPosition(s[i])
    ensures NoAdjacentClash(s) <==> DistinctConditions(s)
  {
    if NoAdjacentClash(s) {
      forall i, j | 0 <= i < j < |s| ensures ConditionOf(s[i]) != ConditionOf(s[j]) {
        SameCondition(s[i], s[i + 1]);
        SameCondition(s[i], s[j]);
        assert ConditionOf(s[i + 1 - 1]) != ConditionOf(s[i + 1]);
        assert s[i] <= s[i + 1] <= s[j];
      }
    } else {
      var i :| 1 <= i < |s| && ConditionOf(s[i - 1]) == ConditionOf(s[i]);
      assert ConditionOf(s[i - 1]) == ConditionOf(s[i]);
    }
  }

  // ----- order independence -----

  ghost predicate IsSortedOf(s: seq<nat>, positions: seq<nat>) {
    Ascending(s) && multiset(s) == multiset(positions)
  }

  /** Whether conditions are distinct does not depend on the order of the positions. */
  lemma DistinctByMultiset(s: seq<nat>, t: seq<nat>)
    requires multiset(s) == multiset(t) && DistinctConditions(s)
    ensures DistinctConditions(t)
  {
    forall i, j | 0 <= i < j < |t| ensures ConditionOf(t[i]) != ConditionOf(t[j]) {
      if ConditionOf(t[i]) == ConditionOf(t[j]) {
        MembersMatch(s, t);
        assert t[i] in s && t[j] in s;
        var x :| 0 <= x < |s| && s[x] == t[i];
        var y :| 0 <= y < |s| && s[y] == t[j];
        TwoOccurrences(t, i, j);
        OneOccurrence(s, x);
      }
    }
  }

  lemma TwoOccurrences(t: seq<nat>, i: nat, j: nat)
    requires i < j < |t| && t[i] == t[j]
    ensures multiset(t)[t[i]] >= 2
  {
    assert t == t[..i] + [t[i]] + t[i + 1..j] + [t[j]] + t[j + 1..];
  }

  lemma OneOccurrence(s: seq<nat>, x: nat)
    requires x < |s| && forall i :: 0 <= i < |s| && i != x ==> s[i] != s[x]
    ensures multiset(s)[s[x]] == 1
  {
    assert s == s[..x] + [s[x]] + s[x + 1..];
    assert s[x] !in s[..x] && s[x] !in s[x + 1..];
  }

  lemma {:induction false} PositionsConcat(a: seq<string>, b: seq<string>)
    ensures Positions(a + b) == Positions(a) + Positions(b)
  {
    hide PositionOf;
    var s := a + b;
    if b == [] {
      assert s == a;
    } else {
      var init, last := b[..|b| - 1], b[|b| - 1];
      PositionsConcat(a, init);
      assert s[..|s| - 1] == a + init && s[|s| - 1] == last;
      assert Positions(s) == Positions(a + init) + [PositionOf(last)];
      assert Positions(b) == Positions(init) + [PositionOf(last)];
    }
  }

  function Without<T>(s: seq<T>, k: nat): (r: seq<T>)
    requires k < |s|
    ensures |r| == |s| - 1
  {
    s[..k] + s[k + 1..]
  }

  lemma TakeOut<T>(s: seq<T>, k: nat)
    requires k < |s|
    ensures multiset(s) == multiset{s[k]} + multiset(Without(s, k))
  {
    assert s == s[..k] + [s[k]] + s[k + 1..];
  }

  /** Taking one leg out of the list takes its position out. */
  lemma PositionsWithout(before: seq<string>, leg: string, after: seq<string>)
    ensures multiset(Positions(before + [leg] + after))
         == multiset{PositionOf(leg)} + multiset(Positions(before + after))
  {
    hide PositionOf;
    PositionsConcat(before, [leg]);
    PositionsConcat(before + [leg], after);
    PositionsConcat(before, after);
  }

  lemma {:induction false} PositionsMultiset(legs: seq<string>, legs': seq<string>)
    requires multiset(legs) == multiset(legs')
    ensures multiset(Positions(legs)) == multiset(Positions(legs'))
  {
    hide PositionOf, Positions;
    assert |multiset(legs)| == |legs| && |multiset(legs')| == |legs'|;
    if legs == [] {
      assert legs' == legs;
    } else {
      TakeOut(legs, 0);
      assert legs[0] in multiset(legs');
      var k :| 0 <= k < |legs'| && legs'[k] == legs[0];
      TakeOut(legs', k);
      Cancel(multiset(Without(legs, 0)), multiset(Without(legs', k)), legs[0]);
      PositionsMultiset(Without(legs, 0), Without(legs', k));
      assert legs == legs[..0] + [legs[0]] + legs[1..] && legs' == legs'[..k] + [legs[0]] + legs'[k + 1..];
      PositionsWithout(legs[..0], legs[0], legs[1..]);
      PositionsWithout(legs'[..k], legs[0], legs'[k + 1..]);
    }
  }

  /** The canonical list of a list of legs, if it has one. */
  ghost function Canonical(legs: seq<string>): (r: Option<seq<nat>>)
    ensures r.Some? <==> Acceptable(legs)
    ensures r.Some? ==> IsSortedOf(r.value, Positions(legs))
  {
    if !Acceptable(legs) then None
    else
      SortedExists(Positions(legs));
      var s :| IsSortedOf(s, Positions(legs));
      Some(s)
  }

  lemma {:induction false} SortedExists(positions: seq<nat>)
    ensures exists s :: IsSortedOf(s, positions)
  {
    if positions == [] {
      assert IsSortedOf([], positions);
    } else {
      SortedExists(positions[1..]);
      var s :| IsSortedOf(s, positions[1..]);
      HeadAndTail(positions);
      var t := Inserted(s, positions[0]);
      assert IsSortedOf(t, positions);
    }
  }

  lemma {:induction false} Inserted(s: seq<nat>, x: nat) returns (t: seq<nat>)
    requires Ascending(s)
    ensures Ascending(t) && multiset(t) == multiset{x} + multiset(s)
    ensures t != [] && (t[0] == x || (s != [] && t[0] == s[0]))
  {
    if s == [] || x <= s[0] {
      t := [x] + s;
    } else {
      var rest := Inserted(s[1..], x);
      HeadAndTail(s);
      t := [s[0]] + rest;
      TailAscending(s[0], rest);
    }
  }

  /** In front of an ascending list goes anything not above its first element. */
  lemma TailAscending(x: nat, rest: seq<nat>)
    requires rest != [] && Ascending(rest) && x <= rest[0]
    ensures Ascending([x] + rest)
  {
  }

  /** Any permutation of the legs yields the same canonical list, or is refused like the original. */
  lemma LegOrderIsIrrelevant(legs: seq<string>, legs': seq<string>)
    requires multiset(legs) == multiset(legs')
    ensures Canonical(legs) == Canonical(legs')
  {
    if Acceptable(legs) { LegsPermuted(legs, legs'); }
    if Acceptable(legs') { LegsPermuted(legs', legs); }
    if Acceptable(legs) {
      PositionsMultiset(legs, legs');
      AscendingUnique(Canonical(legs).value, Canonical(legs').value);
    }
  }

  lemma LegsPermuted(legs: seq<string>, legs': seq<string>)
    requires multiset(legs) == multiset(legs') && Acceptable(legs)
    ensures Acceptable(legs')
  {
    assert |multiset(legs)| == |legs| && |multiset(legs')| == |legs'|;
    forall i | 0 <= i < |legs'| ensures IsLeg(legs'[i]) {
      assert legs'[i] in multiset(legs);
    }
    PositionsMultiset(legs, legs');
    DistinctByMultiset(Positions(legs), Positions(legs'));
  }

  /** The first loop: every leg parsed and checked, in the order given. */
  method ParseLegs(legs: seq<string>) returns (ok: bool, positions: array<nat>)
    ensures ok <==> forall i :: 0 <= i < |legs| ==> IsLeg(legs[i])
    ensures fresh(positions) && positions.Length == |legs|
    ensures ok ==> positions[..] == Positions(legs)
  {
    hide FillBytes, ParseInt10, TrimSpace;
    positions := new nat[|legs|];
    ok := true;
    var i := 0;
    while i < |legs|
      invariant i <= |legs|
      invariant forall k :: 0 <= k < i ==> IsLeg(legs[k]) && positions[k] == PositionOf(legs[k])
    {
      var position := ParsePositionID(legs[i]);
      if position.None? {
        assert !IsLeg(legs[i]);
        return false, positions;
      }
      var encoded := ToWord(position.value);
      if (encoded[0] != 1 && encoded[0] != 2) || encoded[31] > 1 {
        assert !IsLeg(legs[i]);
        return false, positions;
      }
      positions[i] := position.value;
      i := i + 1;
    }
    forall k | 0 <= k < |legs| ensures positions[..][k] == Positions(legs)[k] { PositionAt(legs, k); }
  }

  /** The last loop: each position against its left neighbour. */
  method FindClash(positions: array<nat>) returns (clash: Option<string>)
    requires positions.Length > 0
    ensures clash.None? <==> NoAdjacentClash(positions[..])
  {
    ghost var s := positions[..];
    var i := 1;
    while i < positions.Length
      invariant 1 <= i <= positions.Length
      invariant forall k :: 1 <= k < i ==> ConditionOf(s[k - 1]) != ConditionOf(s[k])
    {
      var previous, current := ToWord(positions[i - 1]), ToWord(positions[i]);
      assert ConditionOf(s[i - 1]) == previous[..31] && ConditionOf(s[i]) == current[..31];
      if positions[i - 1] == positions[i] {
        return Some("combo legs must not contain duplicate position ids");
      }
      if previous[..31] == current[..31] {
        return Some("combo legs must not contain both outcomes for the same condition");
      }
      i := i + 1;
    }
    return None;
  }

  /** CanonicalizeComboLegs: succeeds exactly on acceptable legs, with their canonical list. */
  method CanonicalizeComboLegs(legs: seq<string>) returns (r: Result<seq<nat>, string>)
    ensures r.Ok? <==> Acceptable(legs)
    ensures r.Ok? ==> Canonical(legs) == Some(r.value)
  {
    if |legs| == 0 || |legs| > MAX_COMBO_LEGS {
      return Err("combo legs must include 1 to 50 position ids");
    }
    var ok, positions := ParseLegs(legs);
    if !ok {
      return Err("combo legs must be binary or neg-risk yes/no position ids");
    }
    SortPositions(positions);
    SortedDecides(legs, positions[..]);
    var clash := FindClash(positions);
    if clash.Some? {
      return Err(clash.value);
    }
    return Ok(positions[..]);
  }

  /** The scan of the sorted list decides acceptability, and the list is the canonical one if there is one. */
  lemma SortedDecides(legs: seq<string>, s: seq<nat>)
    requires 1 <= |legs| <= MAX_COMBO_LEGS && forall i :: 0 <= i < |legs| ==> IsLeg(legs[i])
    requires IsSortedOf(s, Positions(legs))
    ensures Acceptable(legs) <==> NoAdjacentClash(s)
    ensures Acceptable(legs) ==> Canonical(legs) == Some(s)
  {
    MembersMatch(s, Positions(legs));
    forall k | 0 <= k < |s| ensures IsLegPosition(s[k]) {
      assert s[k] in Positions(legs);
      var i :| 0 <= i < |legs| && Positions(legs)[i] == s[k];
      PositionAt(legs, i);
    }
    AdjacentScanIsComplete(s);
    if DistinctConditions(s) { DistinctByMultiset(s, Positions(legs)); }
    if Acceptable(legs) {
      DistinctByMultiset(Positions(legs), s);
      AscendingUnique(s, Canonical(legs).value);
    }
  }
}
