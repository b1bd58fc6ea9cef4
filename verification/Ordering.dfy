/** Orders on JSON keys, and the fact that sorting by a strict total order has exactly one outcome. */
module Ordering {
  import opened Common

  /** Code-unit lexicographic order, as used by sort.Strings. */
  predicate LexLess(a: string, b: string) {
    if b == "" then false
    else if a == "" then true
    else if a[0] != b[0] then a[0] < b[0]
    else LexLess(a[1..], b[1..])
  }

  /** A proper prefix comes first; otherwise the first character in which the two differ decides. */
  lemma {:induction false} LexLessExactly(a: string, b: string)
    ensures LexLess(a, b) <==> exists i :: 0 <= i <= |a| && i < |b| && a[..i] == b[..i] && (i == |a| || a[i] < b[i])
    decreases |a|
  {
    if b == "" {
    } else if a == "" {
      assert a[..0] == b[..0];
    } else if a[0] != b[0] {
      assert a[..0] == b[..0];
      assert forall i :: 0 < i <= |a| && i < |b| && a[..i] == b[..i] ==> a[..i][0] == b[..i][0];
    } else {
      LexLessExactly(a[1..], b[1..]);
      LexLessTail(a, b);
    }
  }

  lemma LexLessTail(a: string, b: string)
    requires a != "" && b != "" && a[0] == b[0]
    ensures (exists i :: 0 <= i <= |a| && i < |b| && a[..i] == b[..i] && (i == |a| || a[i] < b[i])) <==>
            (exists i :: 0 <= i <= |a[1..]| && i < |b[1..]| && a[1..][..i] == b[1..][..i] && (i == |a[1..]| || a[1..][i] < b[1..][i]))
  {
    if i :| 0 <= i <= |a| && i < |b| && a[..i] == b[..i] && (i == |a| || a[i] < b[i]) {
      assert i > 0;
      assert a[1..][..i - 1] == a[..i][1..] && b[1..][..i - 1] == b[..i][1..];
    }
    if i :| 0 <= i <= |a[1..]| && i < |b[1..]| && a[1..][..i] == b[1..][..i] && (i == |a[1..]| || a[1..][i] < b[1..][i]) {
      assert a[..i + 1] == [a[0]] + a[1..][..i] && b[..i + 1] == [b[0]] + b[1..][..i];
    }
  }

  ghost predicate StrictTotalOrder<T(!new)>(less: (T, T) -> bool) {
    && (forall a: T :: !less(a, a))
    && (forall a: T, b: T :: a != b ==> less(a, b) || less(b, a))
    && (forall a: T, b: T, c: T :: less(a, b) && less(b, c) ==> less(a, c))
  }

  lemma {:induction false} LexTotal(a: string, b: string)
    ensures a != b ==> LexLess(a, b) || LexLess(b, a)
    ensures !LexLess(a, a)
    decreases |a| + |b|
  {
    if a != "" {
      LexTotal(a[1..], if b == "" then "" else b[1..]);
      if b != "" && a[0] == b[0] && a[1..] == b[1..] {
        assert a == [a[0]] + a[1..] == [b[0]] + b[1..] == b;
      }
    }
  }

  lemma {:induction false} LexTransitive(a: string, b: string, c: string)
    requires LexLess(a, b) && LexLess(b, c)
    ensures LexLess(a, c)
    decreases |a|
  {
    if a != "" && a[0] == b[0] && b[0] == c[0] {
      LexTransitive(a[1..], b[1..], c[1..]);
    }
  }

  lemma LexIsStrictTotal()
    ensures StrictTotalOrder(LexLess)
  {
    forall a: string, b: string
      ensures !LexLess(a, a) && (a != b ==> LexLess(a, b) || LexLess(b, a))
    {
      LexTotal(a, b);
    }
    forall a: string, b: string, c: string | LexLess(a, b) && LexLess(b, c)
      ensures LexLess(a, c)
    {
      LexTransitive(a, b, c);
    }
  }

  ghost predicate SortedBy<T>(less: (T, T) -> bool, s: seq<T>) {
    forall i, j :: 0 <= i < j < |s| ==> less(s[i], s[j])
  }

  /** What a filter keeps stays sorted. */
  lemma {:induction false} FilterSorted<T(!new)>(less: (T, T) -> bool, keep: T -> bool, s: seq<T>)
    requires SortedBy(less, s)
    ensures SortedBy(less, Filter(keep, s))
  {
    if s != [] {
      var front, last := s[..|s| - 1], s[|s| - 1];
      FilterSorted(less, keep, front);
      forall i | 0 <= i < |Filter(keep, front)|
        ensures less(Filter(keep, front)[i], last)
      {
        FilterMember(keep, front, Filter(keep, front)[i]);
        var j :| 0 <= j < |front| && front[j] == Filter(keep, front)[i];
        assert s[j] == front[j];
      }
    }
  }

  function Elements<T>(s: seq<T>): set<T> {
    set x | x in s
  }

  lemma NonEmptyListing<T>(s: seq<T>)
    ensures Elements(s) == {} <==> s == []
  {
    assert s != [] ==> s[0] in Elements(s);
  }

  /** Two sorted listings of the same elements are the same listing, however the sort broke ties. */
  lemma {:induction false} SortedListingIsUnique<T(!new)>(less: (T, T) -> bool, s: seq<T>, t: seq<T>)
    requires StrictTotalOrder(less)
    requires SortedBy(less, s) && SortedBy(less, t)
    requires Elements(s) == Elements(t)
    ensures s == t
  {
    NonEmptyListing(s);
    NonEmptyListing(t);
    if s != [] {
      assert s[0] in Elements(t) && t[0] in Elements(s);
      var i :| 0 <= i < |t| && t[i] == s[0];
      var j :| 0 <= j < |s| && s[j] == t[0];
      assert s[0] == t[0];
      forall x
        ensures x in Elements(s[1..]) <==> x in Elements(t[1..])
      {
        TailElements(less, s, x);
        TailElements(less, t, x);
      }
      SortedListingIsUnique(less, s[1..], t[1..]);
      assert s == [s[0]] + s[1..] && t == [t[0]] + t[1..];
    }
  }

  lemma TailElements<T(!new)>(less: (T, T) -> bool, s: seq<T>, x: T)
    requires StrictTotalOrder(less) && SortedBy(less, s) && s != []
    ensures x in Elements(s[1..]) <==> x in Elements(s) && x != s[0]
  {
    if x in Elements(s) && x != s[0] {
      var i :| 0 <= i < |s| && s[i] == x;
      assert s[1..][i - 1] == x;
    }
  }

  lemma {:induction false} LeastExists<T(!new)>(less: (T, T) -> bool, keys: set<T>) returns (least: T)
    requires StrictTotalOrder(less) && keys != {}
    ensures least in keys && forall k :: k in keys && k != least ==> less(least, k)
    decreases |keys|
  {
    least :| least in keys;
    if keys != {least} {
      var rest := keys - {least};
      assert keys == rest + {least};
      var other := LeastExists(less, rest);
      if less(other, least) {
        least := other;
      } else {
        assert less(least, other);
      }
    }
  }

  lemma {:induction false} SortedListingExists<T(!new)>(less: (T, T) -> bool, keys: set<T>) returns (r: seq<T>)
    requires StrictTotalOrder(less)
    ensures SortedBy(less, r) && Elements(r) == keys
    decreases |keys|
  {
    if keys == {} {
      r := [];
    } else {
      var first := LeastExists(less, keys);
      var tail := SortedListingExists(less, keys - {first});
      r := [first] + tail;
      PrependSorted(less, first, tail);
      ElementsOfPrepend(first, tail);
    }
  }

  lemma PrependSorted<T>(less: (T, T) -> bool, x: T, s: seq<T>)
    requires SortedBy(less, s)
    requires forall y :: y in Elements(s) ==> less(x, y)
    ensures SortedBy(less, [x] + s)
  {
    var r := [x] + s;
    forall i, j | 0 <= i < j < |r|
      ensures less(r[i], r[j])
    {
      assert s[j - 1] in Elements(s);
      if i > 0 { assert less(s[i - 1], s[j - 1]); }
    }
  }

  lemma ElementsOfPrepend<T>(x: T, s: seq<T>)
    ensures Elements([x] + s) == {x} + Elements(s)
  {
    assert forall y :: y in [x] + s <==> y == x || y in s;
  }

  /** The sorted listing of a set. */
  ghost function Sorted<T(!new)>(less: (T, T) -> bool, keys: set<T>): (r: seq<T>)
    requires StrictTotalOrder(less)
    ensures SortedBy(less, r) && Elements(r) == keys
  {
    assert exists r :: SortedBy(less, r) && Elements(r) == keys by {
      var listing := SortedListingExists(less, keys);
    }
    var r :| SortedBy(less, r) && Elements(r) == keys;
    r
  }

  /** Lists a set in whatever order iteration yields its members. */
  method Collect<T(==)>(all: set<T>) returns (keys: seq<T>)
    ensures Distinct(keys) && Elements(keys) == all
  {
    keys := [];
    var left := all;
    while left != {}
      invariant left <= all && Distinct(keys)
      invariant Elements(keys) == all - left
      decreases left
    {
      var k :| k in left;
      assert k !in Elements(keys);
      ghost var before := keys;
      left := left - {k};
      keys := keys + [k];
      assert forall x :: x in keys <==> x in before || x == k;
      assert Elements(keys) == Elements(before) + {k};
    }
  }

  /** Inserting before the first element that is not smaller keeps the order. */
  lemma InsertSorted<T(!new)>(less: (T, T) -> bool, s: seq<T>, k: nat, x: T)
    requires StrictTotalOrder(less) && SortedBy(less, s) && x !in Elements(s)
    requires k <= |s| && (forall j :: 0 <= j < k ==> less(s[j], x))
    requires k < |s| ==> !less(s[k], x)
    ensures SortedBy(less, s[..k] + [x] + s[k..])
    ensures Elements(s[..k] + [x] + s[k..]) == Elements(s) + {x}
  {
    var r := s[..k] + [x] + s[k..];
    assert s == s[..k] + s[k..];
    forall j | k <= j < |s|
      ensures less(x, s[j])
    {
      assert s[k] in Elements(s);
      assert less(x, s[k]);
    }
    forall i, j | 0 <= i < j < |r|
      ensures less(r[i], r[j])
    {
      var p, q := if i <= k then i else i - 1, if j <= k then j else j - 1;
      if i != k && j != k {
        assert r[i] == s[p] && r[j] == s[q];
      }
    }
  }

  /** Sorts distinct keys in place on a working sequence, one insertion at a time. */
  method Sort<T(!new, ==)>(less: (T, T) -> bool, keys: seq<T>) returns (r: seq<T>)
    requires StrictTotalOrder(less)
    requires Distinct(keys)
    ensures SortedBy(less, r) && Elements(r) == Elements(keys)
    ensures r == Sorted(less, Elements(keys))
  {
    r := [];
    for i := 0 to |keys|
      invariant SortedBy(less, r)
      invariant Elements(r) == Elements(keys[..i])
    {
      var k := 0;
      while k < |r| && less(r[k], keys[i])
        invariant 0 <= k <= |r|
        invariant forall j :: 0 <= j < k ==> less(r[j], keys[i])
      {
        k := k + 1;
      }
      assert keys[i] !in Elements(r);
      InsertSorted(less, r, k, keys[i]);
      r := r[..k] + [keys[i]] + r[k..];
      assert keys[..i + 1] == keys[..i] + [keys[i]];
      assert Elements(keys[..i + 1]) == Elements(keys[..i]) + {keys[i]};
    }
    assert keys[..|keys|] == keys;
    SortedListingIsUnique(less, r, Sorted(less, Elements(keys)));
  }

  // ---------------------------------------------------------------- sorting by a number

  ghost predicate Ascending<T>(rank: T -> int, s: seq<T>) {
    forall i, j :: 0 <= i < j < |s| ==> rank(s[i]) <= rank(s[j])
  }

  /** The lists after inserting the n-th element of s at position k. */
  lemma InsertReordered<T>(r: seq<T>, s: seq<T>, order: seq<nat>, n: nat, k: nat)
    requires n < |s| && k <= n && Reordered(r, s[..n], order)
    ensures Reordered(r[..k] + [s[n]] + r[k..], s[..n + 1], order[..k] + [n] + order[k..])
  {
    var next := order[..k] + [n] + order[k..];
    assert forall i :: 0 <= i < k ==> next[i] == order[i];
    assert next[k] == n;
    assert forall i :: k < i < |next| ==> next[i] == order[i - 1];
    forall m | 0 <= m < n + 1
      ensures m in next
    {
      if m < n {
        assert m in order;
        var i :| 0 <= i < |order| && order[i] == m;
        assert next[if i < k then i else i + 1] == m;
      }
    }
    forall i, j | 0 <= i < j < |next|
      ensures next[i] != next[j]
    {
      var p, q := if i < k then i else i - 1, if j < k then j else j - 1;
      if i != k && j != k { assert order[p] != order[q]; }
    }
  }

  lemma InsertAscending<T>(rank: T -> int, r: seq<T>, k: nat, x: T)
    requires Ascending(rank, r) && k <= |r|
    requires forall j :: 0 <= j < k ==> rank(r[j]) <= rank(x)
    requires forall j :: k <= j < |r| ==> rank(x) <= rank(r[j])
    ensures Ascending(rank, r[..k] + [x] + r[k..])
  {
  }

  /** An unstable sort: elements of equal rank may come out in any order. */
  method UnstableSort<T>(rank: T -> int, s: seq<T>) returns (r: seq<T>, ghost order: seq<nat>)
    ensures Ascending(rank, r) && Reordered(r, s, order)
  {
    r, order := [], [];
    for i := 0 to |s|
      invariant Ascending(rank, r) && Reordered(r, s[..i], order)
    {
      var k := 0;
      while k < |r|
        invariant 0 <= k <= |r|
        invariant forall j :: 0 <= j < k ==> rank(r[j]) <= rank(s[i])
      {
        var tieBefore: bool := *;
        if rank(r[k]) > rank(s[i]) || (rank(r[k]) == rank(s[i]) && tieBefore) {
          break;
        }
        k := k + 1;
      }
      InsertAscending(rank, r, k, s[i]);
      InsertReordered(r, s, order, i, k);
      r := r[..k] + [s[i]] + r[k..];
      order := order[..k] + [i] + order[k..];
    }
    assert s[..|s|] == s;
  }
}
