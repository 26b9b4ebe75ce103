/**
 The recorded subscription lists of the user channel and of RTDS: a subscription is appended before it
 is sent, and a failed send removes the last entry that means the same.
 */
module SubscriptionLists {
  import opened Wrappers

  // ----- removal of the last entry with a given identity -----

  /** `key` is the identity of an entry; an entry without one matches nothing. */
  function RemoveLast<T, K(==)>(list: seq<T>, key: T -> Option<K>, target: Option<K>): seq<T> {
    if list == [] then []
    else
      var last := |list| - 1;
      if target.Some? && key(list[last]) == target then list[..last]
      else RemoveLast(list[..last], key, target) + [list[last]]
  }

  /** Scanning from the end, the first entry with the identity is the one removed. */
  lemma {:induction false} RemoveLastAt<T, K>(list: seq<T>, key: T -> Option<K>, target: Option<K>, idx: int)
    requires -1 <= idx < |list|
    requires forall k :: idx < k < |list| ==> target.None? || key(list[k]) != target
    requires idx >= 0 ==> target.Some? && key(list[idx]) == target
    ensures RemoveLast(list, key, target) == if idx >= 0 then list[..idx] + list[idx + 1..] else list
  {
    var last := |list| - 1;
    if list != [] && idx < last {
      RemoveLastAt(list[..last], key, target, idx);
      assert list == list[..last] + [list[last]];
    }
  }

  function RemoveEach<T, K(==)>(list: seq<T>, key: T -> Option<K>, removed: seq<T>): seq<T>
    decreases removed
  {
    if removed == [] then list
    else RemoveEach(RemoveLast(list, key, key(removed[0])), key, removed[1..])
  }

  function Keys<T, K>(list: seq<T>, key: T -> Option<K>): (r: seq<Option<K>>)
    ensures |r| == |list|
  {
    seq(|list|, i requires 0 <= i < |list| => key(list[i]))
  }

  lemma KeysSplit<T, K>(list: seq<T>, key: T -> Option<K>)
    requires list != []
    ensures Keys(list, key) == Keys(list[..|list| - 1], key) + [key(list[|list| - 1])]
  {
  }

  lemma KeysConcat<T, K>(a: seq<T>, b: seq<T>, key: T -> Option<K>)
    ensures Keys(a + b, key) == Keys(a, key) + Keys(b, key)
  {
  }

  lemma KeysOne<T, K>(x: T, key: T -> Option<K>)
    ensures Keys([x], key) == [key(x)]
  {
  }

  /** As identities, removing the last match takes exactly one occurrence away, or nothing if there is none. */
  lemma {:induction false} RemoveLastKeys<T, K>(list: seq<T>, key: T -> Option<K>, target: Option<K>)
    requires target.Some?
    ensures multiset(Keys(RemoveLast(list, key, target), key)) == multiset(Keys(list, key)) - multiset{target}
  {
    if list != [] {
      var init, last := list[..|list| - 1], list[|list| - 1];
      KeysSplit(list, key);
      if key(last) != target {
        RemoveLastKeys(init, key, target);
        var rest := RemoveLast(init, key, target);
        assert (rest + [last])[..|rest|] == rest;
        KeysSplit(rest + [last], key);
      }
    }
  }

  /** The removal stays within the tail while the tail still holds the identity. */
  lemma {:induction false} RemoveLastInTail<T, K>(list: seq<T>, tail: seq<T>, key: T -> Option<K>, target: Option<K>)
    requires target.Some? && target in multiset(Keys(tail, key))
    ensures RemoveLast(list + tail, key, target) == list + RemoveLast(tail, key, target)
  {
    var init, last := tail[..|tail| - 1], tail[|tail| - 1];
    KeysSplit(tail, key);
    assert (list + tail)[..|list + tail| - 1] == list + init;
    if key(last) != target {
      RemoveLastInTail(list, init, key, target);
    }
  }

  /** Removing entries whose identities are those of the tail, in any order, removes exactly the tail. */
  lemma {:induction false} RemoveEachTail<T, K>(list: seq<T>, tail: seq<T>, key: T -> Option<K>, removed: seq<T>)
    requires multiset(Keys(tail, key)) == multiset(Keys(removed, key))
    requires forall x :: x in removed ==> key(x).Some?
    ensures RemoveEach(list + tail, key, removed) == list
    decreases removed
  {
    if removed == [] {
      assert |multiset(Keys(tail, key))| == |tail|;
      assert list + tail == list;
    } else {
      var k := key(removed[0]);
      assert Keys(removed, key) == [k] + Keys(removed[1..], key);
      assert k in multiset(Keys(tail, key));
      RemoveLastInTail(list, tail, key, k);
      RemoveLastKeys(tail, key, k);
      RemoveEachTail(list, RemoveLast(tail, key, k), key, removed[1..]);
    }
  }

  // ----- rollbacks with other calls in between -----

  /** What another call does to the list: append an entry, or remove the last one like its own. */
  datatype ListOp<T> = Append(entry: T) | Remove(entry: T)

  function ApplyOp<T, K(==)>(list: seq<T>, key: T -> Option<K>, op: ListOp<T>): seq<T> {
    match op
    case Append(entry) => list + [entry]
    case Remove(entry) => RemoveLast(list, key, key(entry))
  }

  function ApplyOps<T, K(==)>(list: seq<T>, key: T -> Option<K>, ops: seq<ListOp<T>>): seq<T>
    decreases |ops|
  {
    if ops == [] then list else ApplyOps(ApplyOp(list, key, ops[0]), key, ops[1..])
  }

  /** How many entries of the list have this identity. */
  function Occurrences<T, K(==)>(list: seq<T>, key: T -> Option<K>, target: Option<K>): nat {
    if list == [] then 0
    else Occurrences(list[..|list| - 1], key, target) + if key(list[|list| - 1]) == target then 1 else 0
  }

  lemma {:induction false} OccurrencesConcat<T, K>(a: seq<T>, b: seq<T>, key: T -> Option<K>, target: Option<K>)
    ensures Occurrences(a + b, key, target) == Occurrences(a, key, target) + Occurrences(b, key, target)
  {
    if b == [] {
      assert a + b == a;
    } else {
      assert (a + b)[..|a + b| - 1] == a + b[..|b| - 1];
      OccurrencesConcat(a, b[..|b| - 1], key, target);
    }
  }

  function MinusOne(n: nat): nat {
    if n == 0 then 0 else n - 1
  }

  function Minus(n: nat, m: nat): nat {
    if n < m then 0 else n - m
  }

  lemma {:induction false} RemoveLastOccurrences<T, K>(list: seq<T>, key: T -> Option<K>, removed: Option<K>,
                                                       target: Option<K>)
    ensures Occurrences(RemoveLast(list, key, removed), key, target)
         == if removed == target && target.Some? then MinusOne(Occurrences(list, key, target))
            else Occurrences(list, key, target)
  {
    if list != [] {
      var init, last := list[..|list| - 1], list[|list| - 1];
      if removed.None? || key(last) != removed {
        RemoveLastOccurrences(init, key, removed, target);
        OccurrencesAppend(RemoveLast(init, key, removed), last, key, target);
      }
    }
  }

  lemma OccurrencesAppend<T, K>(list: seq<T>, x: T, key: T -> Option<K>, target: Option<K>)
    ensures Occurrences(list + [x], key, target) == Occurrences(list, key, target) + if key(x) == target then 1 else 0
  {
    assert (list + [x])[..|list|] == list;
  }

  lemma {:induction false} RemoveEachOccurrences<T, K>(list: seq<T>, key: T -> Option<K>, removed: seq<T>,
                                                       target: Option<K>)
    requires target.Some?
    ensures Occurrences(RemoveEach(list, key, removed), key, target)
         == Minus(Occurrences(list, key, target), Occurrences(removed, key, target))
    decreases removed
  {
    if removed != [] {
      var rest := RemoveLast(list, key, key(removed[0]));
      RemoveLastOccurrences(list, key, key(removed[0]), target);
      RemoveEachOccurrences(rest, key, removed[1..], target);
      assert removed == [removed[0]] + removed[1..] && [removed[0]][..0] == [];
      OccurrencesConcat([removed[0]], removed[1..], key, target);
    }
  }

  /** The same count with only the operations on it: an append adds one, a removal takes one if there is one. */
  function CountAfter<T, K(==)>(n: nat, key: T -> Option<K>, ops: seq<ListOp<T>>, target: Option<K>): nat
    decreases |ops|
  {
    if ops == [] then n else CountAfter(CountStep(n, key, ops[0], target), key, ops[1..], target)
  }

  function CountStep<T, K(==)>(n: nat, key: T -> Option<K>, op: ListOp<T>, target: Option<K>): nat {
    if key(op.entry) != target then n else if op.Append? then n + 1 else MinusOne(n)
  }

  lemma {:induction false} CountApplied<T, K>(list: seq<T>, key: T -> Option<K>, ops: seq<ListOp<T>>, target: Option<K>)
    requires target.Some?
    ensures Occurrences(ApplyOps(list, key, ops), key, target)
         == CountAfter(Occurrences(list, key, target), key, ops, target)
    decreases |ops|
  {
    if ops != [] {
      var next := ApplyOp(list, key, ops[0]);
      if ops[0].Append? {
        assert next[..|list|] == list;
      } else {
        RemoveLastOccurrences(list, key, key(ops[0].entry), target);
      }
      CountApplied(next, key, ops[1..], target);
    }
  }

  /** Some removal of this identity finds none left, when the others start from `n` of them. */
  predicate Starves<T, K(==)>(n: nat, key: T -> Option<K>, ops: seq<ListOp<T>>, target: Option<K>)
    decreases |ops|
  {
    ops != [] &&
    ((ops[0].Remove? && key(ops[0].entry) == target && n == 0)
     || Starves(CountStep(n, key, ops[0], target), key, ops[1..], target))
  }

  /** Entries added beforehand survive the others' operations exactly while no removal starves without them. */
  lemma {:induction false} Excess<T, K>(n: nat, c: nat, key: T -> Option<K>, ops: seq<ListOp<T>>, target: Option<K>)
    ensures CountAfter(n, key, ops, target) <= CountAfter(n + c, key, ops, target)
    ensures CountAfter(n + c, key, ops, target) <= CountAfter(n, key, ops, target) + c
    ensures c > 0 ==>
      (CountAfter(n + c, key, ops, target) == CountAfter(n, key, ops, target) + c <==> !Starves(n, key, ops, target))
    decreases |ops|
  {
    if ops != [] {
      var n', m' := CountStep(n, key, ops[0], target), CountStep(n + c, key, ops[0], target);
      Excess(n', m' - n', key, ops[1..], target);
    }
  }

  /** For one identity: the rollback restores its count exactly if nobody starves, or nobody wants it in the end. */
  lemma RestoredCountIff<T, K>(n: nat, c: nat, key: T -> Option<K>, ops: seq<ListOp<T>>, target: Option<K>)
    requires c > 0
    ensures Minus(CountAfter(n + c, key, ops, target), c) == CountAfter(n, key, ops, target)
       <==> !Starves(n, key, ops, target) || CountAfter(n, key, ops, target) == 0
  {
    Excess(n, c, key, ops, target);
  }

  /** The two lists hold the same identities equally often, nameless entries included. */
  ghost predicate SameIdentities<T, K(!new)>(a: seq<T>, b: seq<T>, key: T -> Option<K>) {
    forall target :: Occurrences(a, key, target) == Occurrences(b, key, target)
  }

  /** The others never need this identity from us: none of their removals misses it, or they end without it. */
  predicate Unneeded<T, K(==)>(list: seq<T>, key: T -> Option<K>, ops: seq<ListOp<T>>, target: Option<K>) {
    || !Starves(Occurrences(list, key, target), key, ops, target)
    || Occurrences(ApplyOps(list, key, ops), key, target) == 0
  }

  /**
   With any appends and removals of other calls in between, taking a failed batch back leaves exactly the
   identities the others alone would have left if and only if every entry of the batch has an identity, and
   for each of them no removal in the others' own run finds it absent, or it is absent at the end of that run.
   */
  lemma InterleavedRollback<T, K(!new)>(list: seq<T>, added: seq<T>, ops: seq<ListOp<T>>, key: T -> Option<K>)
    ensures SameIdentities(RemoveEach(ApplyOps(list + added, key, ops), key, added), ApplyOps(list, key, ops), key)
       <==> forall x :: x in added ==> key(x).Some? && Unneeded(list, key, ops, key(x))
  {
    var with, alone := RemoveEach(ApplyOps(list + added, key, ops), key, added), ApplyOps(list, key, ops);
    forall target ensures
      Occurrences(with, key, target) == Occurrences(alone, key, target)
      <==> Occurrences(added, key, target) == 0 || (target.Some? && Unneeded(list, key, ops, target))
    {
      if target.Some? { NamedRestored(list, added, ops, key, target); } else { NamelessLeft(list, added, ops, key); }
    }
    forall target ensures Occurrences(added, key, target) > 0 <==> exists x :: x in added && key(x) == target {
      OccursIff(added, key, target);
    }
  }

  lemma {:induction false} OccursIff<T, K>(list: seq<T>, key: T -> Option<K>, target: Option<K>)
    ensures Occurrences(list, key, target) > 0 <==> exists x :: x in list && key(x) == target
  {
    if list != [] {
      OccursIff(list[..|list| - 1], key, target);
      assert list == list[..|list| - 1] + [list[|list| - 1]];
    }
  }

  lemma NamedRestored<T, K>(list: seq<T>, added: seq<T>, ops: seq<ListOp<T>>, key: T -> Option<K>, target: Option<K>)
    requires target.Some?
    ensures Occurrences(RemoveEach(ApplyOps(list + added, key, ops), key, added), key, target)
         == Occurrences(ApplyOps(list, key, ops), key, target)
       <==> Occurrences(added, key, target) == 0 || Unneeded(list, key, ops, target)
  {
    hide ApplyOps, RemoveEach, Occurrences, CountAfter, Starves;
    var n, c := Occurrences(list, key, target), Occurrences(added, key, target);
    OccurrencesConcat(list, added, key, target);
    CountApplied(list + added, key, ops, target);
    CountApplied(list, key, ops, target);
    RemoveEachOccurrences(ApplyOps(list + added, key, ops), key, added, target);
    if c > 0 { RestoredCountIff(n, c, key, ops, target); }
  }

  /** Nameless entries are never removed, so those of a failed batch stay. */
  lemma {:induction false} NamelessLeft<T, K>(list: seq<T>, added: seq<T>, ops: seq<ListOp<T>>, key: T -> Option<K>)
    ensures Occurrences(RemoveEach(ApplyOps(list + added, key, ops), key, added), key, None)
         == Occurrences(ApplyOps(list, key, ops), key, None) + Occurrences(added, key, None)
  {
    OccurrencesConcat(list, added, key, None);
    NamelessApplied(list + added, key, ops);
    NamelessApplied(list, key, ops);
    NamelessKept(ApplyOps(list + added, key, ops), key, added);
  }

  lemma {:induction false} NamelessKept<T, K>(list: seq<T>, key: T -> Option<K>, removed: seq<T>)
    ensures Occurrences(RemoveEach(list, key, removed), key, None) == Occurrences(list, key, None)
    decreases removed
  {
    if removed != [] {
      RemoveLastOccurrences(list, key, key(removed[0]), None);
      NamelessKept(RemoveLast(list, key, key(removed[0])), key, removed[1..]);
    }
  }

  /** How many nameless entries the operations append. */
  function NamelessAppends<T, K>(key: T -> Option<K>, ops: seq<ListOp<T>>): nat
    decreases |ops|
  {
    if ops == [] then 0
    else (if ops[0].Append? && key(ops[0].entry).None? then 1 else 0) + NamelessAppends(key, ops[1..])
  }

  lemma {:induction false} NamelessApplied<T, K>(list: seq<T>, key: T -> Option<K>, ops: seq<ListOp<T>>)
    ensures Occurrences(ApplyOps(list, key, ops), key, None) == Occurrences(list, key, None) + NamelessAppends(key, ops)
    decreases |ops|
  {
    if ops != [] {
      var next := ApplyOp(list, key, ops[0]);
      if ops[0].Append? {
        assert next[..|list|] == list;
      } else {
        RemoveLastOccurrences(list, key, key(ops[0].entry), None);
      }
      NamelessApplied(next, key, ops[1..]);
    }
  }

  /**
   A rollback can delete somebody else's live entry: while our send is pending, B unsubscribes and takes our
   entry, C subscribes to the same, and our failed send then removes C's.
   */
  lemma RollbackTakesAnothersEntry<T, K(!new)>(sub: T, key: T -> Option<K>)
    requires key(sub).Some?
    ensures var ops := [Remove(sub), Append(sub)];
      && RemoveEach(ApplyOps([sub], key, ops), key, [sub]) == []
      && ApplyOps([], key, ops) == [sub]
      && !Unneeded([], key, ops, key(sub))
  {
    var ops := [Remove(sub), Append(sub)];
    assert ops[1..] == [Append(sub)] && [Append(sub)][1..] == [];
    assert RemoveLast([sub], key, key(sub)) == [];
    assert RemoveLast([], key, key(sub)) == [];
    TwoOps([sub], key, ops);
    TwoOps([], key, ops);
    assert [sub][1..] == [];
    assert [sub][..0] == [];
  }

  lemma TwoOps<T, K>(list: seq<T>, key: T -> Option<K>, ops: seq<ListOp<T>>)
    requires |ops| == 2
    ensures ApplyOps(list, key, ops) == ApplyOp(ApplyOp(list, key, ops[0]), key, ops[1])
  {
    var once, rest := ApplyOp(list, key, ops[0]), ops[1..];
    assert rest == [ops[1]] && rest[1..] == [];
    assert ApplyOps(once, key, rest) == ApplyOps(ApplyOp(once, key, rest[0]), key, rest[1..]);
  }

  /**
   Taking back a failed batch restores the list exactly, duplicates included, if and only if every
   subscription of the batch has an identity.
   */
  lemma RollbackRestoresIff<T, K>(list: seq<T>, added: seq<T>, key: T -> Option<K>)
    ensures RemoveEach(list + added, key, added) == list <==> forall x :: x in added ==> key(x).Some?
  {
    if forall x :: x in added ==> key(x).Some? {
      RemoveEachTail(list, added, key, added);
    } else {
      OccursIff(added, key, None);
      OccurrencesConcat(list, added, key, None);
      NamelessKept(list + added, key, added);
    }
  }

  /** With nothing but appends in between the others are never disturbed. */
  lemma InterleavedAppends<T, K(!new)>(list: seq<T>, sub: T, between: seq<T>, key: T -> Option<K>)
    requires key(sub).Some?
    ensures multiset(Keys(RemoveLast(list + [sub] + between, key, key(sub)), key))
         == multiset(Keys(list + between, key))
  {
    hide RemoveLast;
    RemoveLastKeys(list + [sub] + between, key, key(sub));
    hide Keys;
    KeysConcat(list, [sub], key);
    KeysConcat(list + [sub], between, key);
    KeysConcat(list, between, key);
    assert Keys([sub], key) == [key(sub)] by { KeysOne(sub, key); }
    assert Keys(list + [sub] + between, key) == Keys(list, key) + [key(sub)] + Keys(between, key);
    assert Keys(list + between, key) == Keys(list, key) + Keys(between, key);
  }

  // ----- the user channel -----

  function Seen(seen: map<string, nat>, v: string): nat {
    if v in seen then seen[v] else 0
  }

  method CountStrings(a: seq<string>) returns (seen: map<string, nat>)
    ensures forall v :: Seen(seen, v) == multiset(a)[v]
  {
    seen := map[];
    var n := 0;
    while n < |a|
      invariant n <= |a|
      invariant forall v :: Seen(seen, v) == multiset(a[..n])[v]
    {
      assert a[..n + 1] == a[..n] + [a[n]];
      seen := seen[a[n] := Seen(seen, a[n]) + 1];
      n := n + 1;
    }
    assert a[..n] == a;
  }

  /** sameStrings: the two lists hold the same strings equally often. */
  method SameStrings(a: seq<string>, b: seq<string>) returns (same: bool)
    ensures same <==> multiset(a) == multiset(b)
  {
    assert |multiset(a)| == |a| && |multiset(b)| == |b|;
    if |a| != |b| {
      return false;
    }
    var seen := CountStrings(a);
    var n := 0;
    while n < |b|
      invariant n <= |b|
      invariant forall v :: Seen(seen, v) + multiset(b[..n])[v] == multiset(a)[v]
    {
      assert b[..n + 1] == b[..n] + [b[n]];
      if Seen(seen, b[n]) == 0 {
        assert b == b[..n] + [b[n]] + b[n + 1..];
        assert multiset(b)[b[n]] > multiset(a)[b[n]];
        return false;
      }
      seen := seen[b[n] := seen[b[n]] - 1];
      n := n + 1;
    }
    assert b[..n] == b;
    SameSizeSubset(multiset(b), multiset(a));
    return true;
  }

  lemma {:induction false} SameSizeSubset<T>(s: multiset<T>, t: multiset<T>)
    requires s <= t && |s| == |t|
    ensures s == t
  {
    assert |t - s| == 0;
    assert t == s + (t - s);
  }

  function MarketsKey(markets: seq<string>): Option<multiset<string>> {
    Some(multiset(markets))
  }

  class UserSubscriptions {
    var userSubs: seq<seq<string>>

    constructor ()
      ensures userSubs == []
    {
      userSubs := [];
    }

    /** The last entry with the same markets, in any order, goes; without one the list stays as it is. */
    method RemoveMatching(target: seq<string>)
      modifies this
      ensures userSubs == RemoveLast(old(userSubs), MarketsKey, MarketsKey(target))
      ensures forall k :: 0 <= k < |old(userSubs)| && multiset(old(userSubs)[k]) == multiset(target) ==>
        (forall i :: k < i < |old(userSubs)| ==> multiset(old(userSubs)[i]) != multiset(target)) ==>
        userSubs == old(userSubs)[..k] + old(userSubs)[k + 1..]
      ensures (forall k :: 0 <= k < |old(userSubs)| ==> multiset(old(userSubs)[k]) != multiset(target)) ==>
        userSubs == old(userSubs)
    {
      var idx := |userSubs| - 1;
      while idx >= 0
        invariant -1 <= idx < |userSubs|
        invariant userSubs == old(userSubs)
        invariant forall k :: idx < k < |userSubs| ==> multiset(userSubs[k]) != multiset(target)
      {
        var same := SameStrings(userSubs[idx], target);
        if same {
          RemoveLastAt(userSubs, MarketsKey, MarketsKey(target), idx);
          userSubs := userSubs[..idx] + userSubs[idx + 1..];
          return;
        }
        idx := idx - 1;
      }
      RemoveLastAt(userSubs, MarketsKey, MarketsKey(target), -1);
    }

    /**
     addUserAndSend, with whatever other calls do to the list while the frame is being sent. A failed send
     leaves what the others alone would have left exactly when they do not need this entry.
     */
    method AddUserAndSend(markets: seq<string>, meanwhile: seq<ListOp<seq<string>>>, sent: bool) returns (ok: bool)
      modifies this
      ensures ok == sent
      ensures ok ==> userSubs == ApplyOps(old(userSubs) + [markets], MarketsKey, meanwhile)
      ensures !ok ==>
        (SameIdentities(userSubs, ApplyOps(old(userSubs), MarketsKey, meanwhile), MarketsKey)
         <==> Unneeded(old(userSubs), MarketsKey, meanwhile, MarketsKey(markets)))
      ensures !ok && meanwhile == [] ==> userSubs == old(userSubs)
    {
      userSubs := userSubs + [markets];
      userSubs := ApplyOps(userSubs, MarketsKey, meanwhile);
      if !sent {
        RemoveMatching(markets);
        InterleavedRollback(old(userSubs), [markets], meanwhile, MarketsKey);
        assert [markets][1..] == [];
        assert (old(userSubs) + [markets])[..|old(userSubs)|] == old(userSubs);
        return false;
      }
      return true;
    }

    /** removeUserAndSend: the entry goes whether or not the frame can be sent. */
    method RemoveUserAndSend(markets: seq<string>, sent: bool) returns (ok: bool)
      modifies this
      ensures ok == sent
      ensures userSubs == RemoveLast(old(userSubs), MarketsKey, MarketsKey(markets))
    {
      RemoveMatching(markets);
      return sent;
    }
  }

  // ----- RTDS -----

  /** A topic subscription with its JSON text, None when it cannot be marshalled. */
  datatype Topic = Topic(topic: string, kind: string, filters: string, json: Option<string>)

  function TopicKey(t: Topic): Option<string> {
    t.json
  }

  class RtdsSubscriptions {
    var subs: seq<Topic>

    constructor ()
      ensures subs == []
    {
      subs := [];
    }

    /** The last entry with the same JSON text goes; what does not marshal matches nothing. */
    method RemoveSubscription(target: Topic)
      modifies this
      ensures subs == RemoveLast(old(subs), TopicKey, TopicKey(target))
      ensures forall k :: 0 <= k < |old(subs)| && target.json.Some? && old(subs)[k].json == target.json ==>
        (forall i :: k < i < |old(subs)| ==> old(subs)[i].json != target.json) ==>
        subs == old(subs)[..k] + old(subs)[k + 1..]
      ensures target.json.None? || (forall k :: 0 <= k < |old(subs)| ==> old(subs)[k].json != target.json) ==>
        subs == old(subs)
    {
      var idx := |subs| - 1;
      while idx >= 0
        invariant -1 <= idx < |subs|
        invariant subs == old(subs)
        invariant forall k :: idx < k < |subs| ==> target.json.None? || subs[k].json != target.json
      {
        if subs[idx].json.Some? && target.json.Some? && subs[idx].json == target.json {
          RemoveLastAt(subs, TopicKey, TopicKey(target), idx);
          subs := subs[..idx] + subs[idx + 1..];
          return;
        }
        idx := idx - 1;
      }
      RemoveLastAt(subs, TopicKey, TopicKey(target), -1);
    }

    /**
     subscribeMany, with whatever other calls do to the list while the batch is being sent; marshalling the
     batch fails if any entry does. A single Subscribe is a batch of one.
     */
    method SubscribeMany(added: seq<Topic>, meanwhile: seq<ListOp<Topic>>, sent: bool) returns (ok: bool)
      requires sent ==> forall x :: x in added ==> x.json.Some?
      modifies this
      ensures ok <==> added == [] || sent
      ensures added == [] ==> subs == old(subs)
      ensures ok && added != [] ==> subs == ApplyOps(old(subs) + added, TopicKey, meanwhile)
      ensures !ok ==>
        (SameIdentities(subs, ApplyOps(old(subs), TopicKey, meanwhile), TopicKey)
         <==> forall x :: x in added ==> x.json.Some? && Unneeded(old(subs), TopicKey, meanwhile, TopicKey(x)))
      ensures !ok && meanwhile == [] ==> (subs == old(subs) <==> forall x :: x in added ==> x.json.Some?)
    {
      if |added| == 0 {
        return true;
      }
      subs := subs + added;
      subs := ApplyOps(subs, TopicKey, meanwhile);
      if !sent {
        ghost var reached := subs;
        var n := 0;
        while n < |added|
          invariant n <= |added|
          invariant RemoveEach(subs, TopicKey, added[n..]) == RemoveEach(reached, TopicKey, added)
        {
          assert added[n..][1..] == added[n + 1..];
          RemoveSubscription(added[n]);
          n := n + 1;
        }
        InterleavedRollback(old(subs), added, meanwhile, TopicKey);
        RollbackRestoresIff(old(subs), added, TopicKey);
        return false;
      }
      return true;
    }
  }
}
