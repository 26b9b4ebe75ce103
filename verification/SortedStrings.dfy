/**
 Canonical lists of identifiers: trimmed, without blanks or duplicates, in string order.
 A canonical list is determined by the set of its elements.
 */
module SortedStrings {
  import opened Text

  /** Go's string order. */
  predicate Less(a: string, b: string) {
    if b == [] then false
    else if a == [] then true
    else if a[0] != b[0] then a[0] < b[0]
    else Less(a[1..], b[1..])
  }

  /** After the longest common prefix the shorter string, or the smaller first character, comes first. */
  lemma {:induction false} LessAfterPrefix(p: string, x: string, y: string)
    requires x == [] || y == [] || x[0] != y[0]
    ensures Less(p + x, p + y) <==> y != [] && (x == [] || x[0] < y[0])
  {
    if p == [] {
      assert p + x == x && p + y == y;
    } else {
      LessAfterPrefix(p[1..], x, y);
      assert (p + x)[1..] == p[1..] + x && (p + y)[1..] == p[1..] + y;
    }
  }

  lemma {:induction false} LessTotal(a: string, b: string)
    ensures a == b <==> !Less(a, b) && !Less(b, a)
    ensures !(Less(a, b) && Less(b, a))
  {
    if a != [] && b != [] && a[0] == b[0] {
      LessTotal(a[1..], b[1..]);
      assert a == [a[0]] + a[1..] && b == [b[0]] + b[1..];
    }
  }

  lemma {:induction false} LessTransitive(a: string, b: string, c: string)
    requires Less(a, b) && Less(b, c)
    ensures Less(a, c)
  {
    if a != [] && a[0] == b[0] && b[0] == c[0] {
      LessTransitive(a[1..], b[1..], c[1..]);
    }
  }

  ghost predicate StrictlySorted(q: seq<string>) {
    forall i, j :: 0 <= i < j < |q| ==> Less(q[i], q[j])
  }

  ghost predicate Distinct(ids: seq<string>) {
    forall i, j :: 0 <= i < j < |ids| ==> ids[i] != ids[j]
  }

  function Elements<T(==)>(q: seq<T>): set<T> {
    set x | x in q
  }

  lemma ElementsEmpty<T>(q: seq<T>)
    ensures Elements(q) == {} <==> q == []
  {
    if q != [] { assert q[0] in Elements(q); }
  }

  /** Two strictly sorted lists with the same elements are the same list. */
  lemma {:induction false} SortedUnique(p: seq<string>, q: seq<string>)
    requires StrictlySorted(p) && StrictlySorted(q) && Elements(p) == Elements(q)
    ensures p == q
  {
    ElementsEmpty(p);
    ElementsEmpty(q);
    if p != [] {
      assert p[0] in Elements(q) && q[0] in Elements(p);
      var i :| 0 <= i < |q| && q[i] == p[0];
      var j :| 0 <= j < |p| && p[j] == q[0];
      LessTotal(p[0], q[0]);
      assert p[0] == q[0];
      HeadNotInTail(p);
      HeadNotInTail(q);
      SortedUnique(p[1..], q[1..]);
    }
  }

  lemma HeadNotInTail(p: seq<string>)
    requires StrictlySorted(p) && p != []
    ensures StrictlySorted(p[1..]) && Elements(p[1..]) == Elements(p) - {p[0]}
  {
    forall i | 1 <= i < |p| ensures p[i] != p[0] {
      LessTotal(p[0], p[i]);
    }
    assert p == [p[0]] + p[1..];
  }

  ghost predicate IsAscending(q: seq<string>, s: set<string>) {
    StrictlySorted(q) && Elements(q) == s
  }

  /** The one strictly sorted list of the elements of `s`. */
  ghost function Ascending(s: set<string>): (q: seq<string>)
    ensures IsAscending(q, s)
    ensures q == [] <==> s == {}
  {
    AscendingExists(s);
    var q :| IsAscending(q, s);
    ElementsEmpty(q);
    q
  }

  lemma {:induction false} AscendingExists(s: set<string>)
    ensures exists q :: IsAscending(q, s)
  {
    if s == {} {
      assert IsAscending([], s);
    } else {
      LeastExists(s);
      var m :| IsLeast(s, m);
      AscendingExists(s - {m});
      var rest :| IsAscending(rest, s - {m});
      assert forall x :: x in rest <==> x in Elements(rest);
      assert Elements([m] + rest) == s;
      assert IsAscending([m] + rest, s);
    }
  }

  ghost predicate IsLeast(s: set<string>, m: string) {
    m in s && forall x :: x in s && x != m ==> Less(m, x)
  }

  lemma {:induction false} LeastExists(s: set<string>)
    requires s != {}
    ensures exists m :: IsLeast(s, m)
  {
    var x :| x in s;
    if s == {x} {
      assert IsLeast(s, x);
    } else {
      assert s - {x} != {};
      LeastExists(s - {x});
      var m :| IsLeast(s - {x}, m);
      LessTotal(x, m);
      if Less(m, x) {
        assert IsLeast(s, m);
      } else {
        forall y | y in s && y != x ensures Less(x, y) {
          if y != m { LessTransitive(x, m, y); }
        }
        assert IsLeast(s, x);
      }
    }
  }

  lemma SortedIsAscending(q: seq<string>)
    requires StrictlySorted(q)
    ensures q == Ascending(Elements(q))
  {
    SortedUnique(q, Ascending(Elements(q)));
  }

  /** The identifiers a caller's list stands for: trimmed, blanks dropped. */
  ghost function Canonical(values: seq<string>): set<string> {
    set v | v in values && TrimSpace(v) != "" :: TrimSpace(v)
  }

  /** sort.Strings on a list without duplicates. */
  method SortStrings(values: seq<string>) returns (out: seq<string>)
    requires Distinct(values)
    ensures out == Ascending(Elements(values))
  {
    out := [];
    var n := 0;
    while n < |values|
      invariant n <= |values|
      invariant StrictlySorted(out) && Elements(out) == Elements(values[..n])
    {
      assert values[..n + 1] == values[..n] + [values[n]];
      assert values[n] !in Elements(out);
      out := InsertSorted(out, values[n]);
      n := n + 1;
    }
    assert values[..n] == values;
    SortedIsAscending(out);
  }

  method InsertSorted(q: seq<string>, x: string) returns (out: seq<string>)
    requires StrictlySorted(q) && x !in q
    ensures StrictlySorted(out) && Elements(out) == Elements(q) + {x}
  {
    var k := 0;
    while k < |q| && Less(q[k], x)
      invariant k <= |q|
      invariant forall i :: 0 <= i < k ==> Less(q[i], x)
    {
      k := k + 1;
    }
    out := q[..k] + [x] + q[k..];
    forall j | k <= j < |q| ensures Less(x, q[j]) {
      LessTotal(q[k], x);
      if j > k { LessTransitive(x, q[k], q[j]); }
    }
    assert Elements(out) == Elements(q) + {x} by {
      assert q == q[..k] + q[k..];
    }
  }

  /** canonicalStrings: the set of trimmed values, each once, in order. */
  method CanonicalStrings(values: seq<string>) returns (out: seq<string>)
    ensures out == Ascending(Canonical(values))
  {
    var seen: set<string> := {};
    var list: seq<string> := [];
    var n := 0;
    while n < |values|
      invariant n <= |values|
      invariant Distinct(list)
      invariant seen == Elements(list) == Canonical(values[..n])
    {
      assert values[..n + 1] == values[..n] + [values[n]];
      var value := TrimSpace(values[n]);
      if value != "" && value !in seen {
        seen := seen + {value};
        list := list + [value];
      }
      n := n + 1;
    }
    assert values[..n] == values;
    out := SortStrings(list);
  }

  /** unionSortedStrings: the canonical list of both arguments together. */
  method UnionSortedStrings(a: seq<string>, b: seq<string>) returns (out: seq<string>)
    ensures out == Ascending(Canonical(a) + Canonical(b))
  {
    if |a| == 0 {
      out := CanonicalStrings(b);
      assert Canonical(a) + Canonical(b) == Canonical(b);
    } else if |b| == 0 {
      out := CanonicalStrings(a);
      assert Canonical(a) + Canonical(b) == Canonical(a);
    } else {
      out := CanonicalStrings(a + b);
      assert Canonical(a + b) == Canonical(a) + Canonical(b);
    }
  }

  /** Canonicalising what is already canonical changes nothing. */
  lemma CanonicalIdempotent(values: seq<string>)
    ensures forall v :: v in Canonical(values) ==> v != "" && TrimSpace(v) == v
    ensures Canonical(Ascending(Canonical(values))) == Canonical(values)
  {
    forall v | v in Canonical(values) ensures v != "" && TrimSpace(v) == v {
      var u :| u in values && v == TrimSpace(u);
      TrimSpaceIdempotent(u);
    }
    assert forall v :: v in Ascending(Canonical(values)) <==> v in Elements(Ascending(Canonical(values)));
  }
}
