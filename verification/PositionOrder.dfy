/** Ascending lists of integers: the in-place sort of combo positions and its uniqueness. */
module PositionOrder {

  ghost predicate Ascending(s: seq<nat>) {
    forall i, j :: 0 <= i < j < |s| ==> s[i] <= s[j]
  }

  lemma MembersMatch(s: seq<nat>, t: seq<nat>)
    requires multiset(s) == multiset(t)
    ensures |s| == |t| && forall x :: x in s <==> x in t
  {
    assert |multiset(s)| == |s| && |multiset(t)| == |t|;
    forall x ensures x in s <==> x in t {
      assert x in s <==> x in multiset(s);
    }
  }

  lemma Cancel<T>(a: multiset<T>, b: multiset<T>, x: T)
    requires multiset{x} + a == multiset{x} + b
    ensures a == b
  {
    assert a == multiset{x} + a - multiset{x};
    assert b == multiset{x} + b - multiset{x};
  }

  lemma HeadAndTail<T>(s: seq<T>)
    requires s != []
    ensures multiset(s) == multiset{s[0]} + multiset(s[1..])
  {
    assert s == [s[0]] + s[1..];
  }

  /** An ascending list is determined by what it holds. */
  lemma {:induction false} AscendingUnique(s: seq<nat>, t: seq<nat>)
    requires Ascending(s) && Ascending(t) && multiset(s) == multiset(t)
    ensures s == t
  {
    MembersMatch(s, t);
    if s != [] {
      assert s[0] in t && t[0] in s;
      var x := s[0];
      assert x == t[0];
      HeadAndTail(s);
      HeadAndTail(t);
      Cancel(multiset(s[1..]), multiset(t[1..]), x);
      AscendingUnique(s[1..], t[1..]);
      assert s == [x] + s[1..] && t == [x] + t[1..];
    }
  }

  method SwapAdjacent(a: array<nat>, j: nat)
    requires 0 < j < a.Length
    modifies a
    ensures a[..] == old(a[..])[j - 1 := old(a[j])][j := old(a[j - 1])]
    ensures multiset(a[..]) == multiset(old(a[..]))
  {
    a[j - 1], a[j] := a[j], a[j - 1];
  }

  /** Everything up to `n` is in order except that the element at `j` may be too small. */
  ghost predicate Inserting(s: seq<nat>, j: nat, n: nat) {
    && j <= n < |s|
    && forall x, y :: 0 <= x < y <= n && y != j ==> s[x] <= s[y]
  }

  /** sort.Slice by value, as an insertion sort in place. */
  method SortPositions(a: array<nat>)
    modifies a
    ensures Ascending(a[..]) && multiset(a[..]) == multiset(old(a[..]))
  {
    var n := 1;
    while n < a.Length
      invariant a.Length > 0 ==> 1 <= n <= a.Length
      invariant forall x, y :: 0 <= x < y < n && y < a.Length ==> a[..][x] <= a[..][y]
      invariant multiset(a[..]) == multiset(old(a[..]))
    {
      var j := n;
      while j > 0 && a[j] < a[j - 1]
        invariant Inserting(a[..], j, n)
        invariant multiset(a[..]) == multiset(old(a[..]))
      {
        SwapAdjacent(a, j);
        j := j - 1;
      }
      n := n + 1;
    }
  }
}
