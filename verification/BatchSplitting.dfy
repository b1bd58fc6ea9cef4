/**
 The byte-capped splitter used for log events and for gauge rows: items are packed
 greedily into a batch until the encoded batch would exceed the cap.
 */
module BatchSplitting {
  import opened Common

  /** A batch the protocol accepts: it holds something, and only a single item may exceed the cap. */
  ghost predicate Admissible<T>(part: seq<T>, size: seq<T> -> nat, cap: int) {
    |part| > 0 && (|part| == 1 || size(part) <= cap)
  }

  /** parts cuts items into contiguous admissible batches. */
  ghost predicate IsSplit<T>(items: seq<T>, parts: seq<seq<T>>, size: seq<T> -> nat, cap: int) {
    && Concat(parts) == items
    && forall k :: 0 <= k < |parts| ==> Admissible(parts[k], size, cap)
  }

  /** part had no room left for the first item of its successor. */
  ghost predicate Full<T>(part: seq<T>, successor: seq<T>, size: seq<T> -> nat, cap: int) {
    |successor| > 0 && size(part + successor[..1]) > cap
  }

  /** No batch was closed early. */
  ghost predicate Maximal<T>(parts: seq<seq<T>>, size: seq<T> -> nat, cap: int) {
    forall i, j :: 0 <= i && j == i + 1 && j < |parts| ==> Full(parts[i], parts[j], size, cap)
  }

  /** Encoding a contiguous part never takes more bytes than encoding the whole. */
  ghost predicate Monotone<T(!new)>(size: seq<T> -> nat) {
    forall a: seq<T>, b: seq<T>, c: seq<T> :: size(b) <= size(a + b + c)
  }

  /** The split produced from the batch under construction and the items still to come. */
  function GreedyFrom<T>(cur: seq<T>, rest: seq<T>, size: seq<T> -> nat, cap: int): seq<seq<T>>
    decreases |rest|
  {
    if rest == [] then
      if cur == [] then [] else [cur]
    else
      var next := cur + [rest[0]];
      if cur != [] && size(next) > cap then
        [cur] + GreedyFrom([rest[0]], rest[1..], size, cap)
      else
        GreedyFrom(next, rest[1..], size, cap)
  }

  function GreedySplit<T>(items: seq<T>, size: seq<T> -> nat, cap: int): seq<seq<T>> {
    GreedyFrom([], items, size, cap)
  }

  lemma PrependFull<T>(part: seq<T>, tail: seq<seq<T>>, size: seq<T> -> nat, cap: int)
    requires Admissible(part, size, cap) && tail != []
    requires Full(part, tail[0], size, cap)
    requires IsSplit(Concat(tail), tail, size, cap) && Maximal(tail, size, cap)
    ensures IsSplit(part + Concat(tail), [part] + tail, size, cap)
    ensures Maximal([part] + tail, size, cap)
  {
    var parts := [part] + tail;
    assert parts[1..] == tail;
    forall i, j | 0 <= i && j == i + 1 && j < |parts|
      ensures Full(parts[i], parts[j], size, cap)
    {
      if i > 0 {
        assert parts[i] == tail[i - 1] && parts[j] == tail[j - 1];
      }
    }
  }

  lemma {:induction false} GreedyFromProperties<T>(cur: seq<T>, rest: seq<T>, size: seq<T> -> nat, cap: int)
    requires cur != [] ==> Admissible(cur, size, cap)
    ensures var parts := GreedyFrom(cur, rest, size, cap);
            && IsSplit(cur + rest, parts, size, cap)
            && Maximal(parts, size, cap)
            && (cur != [] ==> parts != [] && cur <= parts[0])
    decreases |rest|
  {
    if rest == [] {
      if cur != [] {
        ConcatSingle(cur);
      }
    } else {
      var next := cur + [rest[0]];
      assert next + rest[1..] == cur + rest;
      if cur != [] && size(next) > cap {
        var tail := GreedyFrom([rest[0]], rest[1..], size, cap);
        GreedyFromProperties([rest[0]], rest[1..], size, cap);
        assert [rest[0]] + rest[1..] == rest;
        assert tail[0][..1] == [rest[0]];
        PrependFull(cur, tail, size, cap);
      } else {
        GreedyFromProperties(next, rest[1..], size, cap);
      }
    }
  }

  /** The greedy split is a split, and it never stops a batch early. */
  lemma GreedyIsMaximalSplit<T>(items: seq<T>, size: seq<T> -> nat, cap: int)
    ensures IsSplit(items, GreedySplit(items, size, cap), size, cap)
    ensures Maximal(GreedySplit(items, size, cap), size, cap)
  {
    GreedyFromProperties([], items, size, cap);
    assert [] + items == items;
  }

  /** Number of items in the first k batches. */
  function Reach<T>(parts: seq<seq<T>>, k: nat): nat
    requires k <= |parts|
  {
    |Concat(parts[..k])|
  }

  lemma ReachStep<T>(parts: seq<seq<T>>, k: nat)
    requires k < |parts|
    ensures Reach(parts, k + 1) == Reach(parts, k) + |parts[k]|
    ensures Reach(parts, k + 1) <= |Concat(parts)|
    ensures Concat(parts)[Reach(parts, k)..Reach(parts, k + 1)] == parts[k]
  {
    assert parts[..k + 1] == parts[..k] + [parts[k]];
    ConcatAppend(parts[..k], [parts[k]]);
    ConcatSingle(parts[k]);
    assert parts == parts[..k + 1] + parts[k + 1..];
    ConcatAppend(parts[..k + 1], parts[k + 1..]);
  }

  lemma ReachAll<T>(parts: seq<seq<T>>)
    ensures Reach(parts, |parts|) == |Concat(parts)|
  {
    assert parts[..|parts|] == parts;
  }

  /** An admissible batch cannot cover a full batch together with the item after it. */
  lemma NoOvertaking<T(!new)>(
      part: seq<T>, successor: seq<T>, before: seq<T>, after: seq<T>, cover: seq<T>, size: seq<T> -> nat, cap: int)
    requires Monotone(size)
    requires |part| > 0 && Full(part, successor, size, cap)
    requires cover == before + (part + successor[..1]) + after
    ensures !Admissible(cover, size, cap)
  {
    assert size(part + successor[..1]) <= size(cover);
  }

  /** The items from position lo to hi, cut at g0 and g1. */
  lemma CutInThree<T>(items: seq<T>, lo: nat, g0: nat, g1: nat, hi: nat)
    requires lo <= g0 <= g1 <= hi <= |items|
    ensures items[lo..hi] == items[lo..g0] + items[g0..g1] + items[g1..hi]
  {
  }

  /** After the same number of batches, a maximal split has consumed at least as many items as any other. */
  lemma {:induction false} StaysAhead<T(!new)>(
      items: seq<T>, greedy: seq<seq<T>>, other: seq<seq<T>>, size: seq<T> -> nat, cap: int, k: nat)
    requires Monotone(size)
    requires IsSplit(items, greedy, size, cap) && Maximal(greedy, size, cap)
    requires IsSplit(items, other, size, cap)
    requires k <= |greedy| && k <= |other|
    ensures Reach(other, k) <= Reach(greedy, k)
  {
    if k > 0 {
      StaysAhead(items, greedy, other, size, cap, k - 1);
      if k == |greedy| {
        ReachAll(greedy);
        ReachStep(other, k - 1);
      } else {
        StaysAheadStep(items, greedy, other, size, cap, k);
      }
    }
  }

  lemma StaysAheadStep<T(!new)>(
      items: seq<T>, greedy: seq<seq<T>>, other: seq<seq<T>>, size: seq<T> -> nat, cap: int, k: nat)
    requires Monotone(size)
    requires IsSplit(items, greedy, size, cap) && Maximal(greedy, size, cap)
    requires IsSplit(items, other, size, cap)
    requires 0 < k < |greedy| && k <= |other|
    requires Reach(other, k - 1) <= Reach(greedy, k - 1)
    ensures Reach(other, k) <= Reach(greedy, k)
  {
    ReachStep(greedy, k - 1);
    ReachStep(greedy, k);
    ReachStep(other, k - 1);
    assert Full(greedy[k - 1], greedy[k], size, cap);
    assert |greedy[k - 1]| > 0 by { assert Admissible(greedy[k - 1], size, cap); }
    assert Admissible(other[k - 1], size, cap);
    if Reach(other, k) > Reach(greedy, k) {
      Overtaking(items, greedy[k - 1], greedy[k], other[k - 1],
                 Reach(greedy, k - 1), Reach(other, k - 1), size, cap);
    }
  }

  /** part at position g0 is followed by successor; cover starts no later and ends beyond part. */
  lemma Overtaking<T(!new)>(items: seq<T>, part: seq<T>, successor: seq<T>, cover: seq<T>,
                            g0: nat, o0: nat, size: seq<T> -> nat, cap: int)
    requires Monotone(size)
    requires |part| > 0 && Full(part, successor, size, cap)
    requires o0 <= g0 && g0 + |part| < o0 + |cover| <= |items| && g0 + |part| + |successor| <= |items|
    requires items[g0..g0 + |part|] == part
    requires items[g0 + |part|..g0 + |part| + |successor|] == successor
    requires items[o0..o0 + |cover|] == cover
    ensures !Admissible(cover, size, cap)
  {
    var g1, o1 := g0 + |part|, o0 + |cover|;
    CutInThree(items, o0, g0, g1 + 1, o1);
    CutInThree(items, g0, g1, g1, g1 + 1);
    assert successor[..1] == items[g1..g1 + 1];
    NoOvertaking(part, successor, items[o0..g0], items[g1 + 1..o1], cover, size, cap);
  }

  /** No contiguous split into admissible batches uses fewer batches than a maximal one. */
  lemma FewestBatches<T(!new)>(
      items: seq<T>, greedy: seq<seq<T>>, other: seq<seq<T>>, size: seq<T> -> nat, cap: int)
    requires Monotone(size)
    requires IsSplit(items, greedy, size, cap) && Maximal(greedy, size, cap)
    requires IsSplit(items, other, size, cap)
    ensures |greedy| <= |other|
  {
    if |other| < |greedy| {
      StaysAhead(items, greedy, other, size, cap, |other|);
      ReachAll(other);
      assert Admissible(greedy[|other|], size, cap);
      ReachStep(greedy, |other|);
    }
  }

  /** The greedy split is optimal among all contiguous splits, for every monotone size. */
  lemma GreedyIsOptimal<T(!new)>(items: seq<T>, other: seq<seq<T>>, size: seq<T> -> nat, cap: int)
    requires Monotone(size)
    requires IsSplit(items, other, size, cap)
    ensures |GreedySplit(items, size, cap)| <= |other|
  {
    GreedyIsMaximalSplit(items, size, cap);
    FewestBatches(items, GreedySplit(items, size, cap), other, size, cap);
  }

  /**
   The splitting loop. Building or encoding a batch fails as soon as it holds an item that
   cannot be encoded, and then nothing at all is produced.
   */
  method SplitBatches<T>(items: seq<T>, encodable: T -> bool, size: seq<T> -> nat, cap: int)
    returns (r: Option<seq<seq<T>>>)
    ensures r.Some? <==> forall x :: x in items ==> encodable(x)
    ensures r.Some? ==> r.value == GreedySplit(items, size, cap)
    ensures r.Some? ==> IsSplit(items, r.value, size, cap) && Maximal(r.value, size, cap)
  {
    GreedyIsMaximalSplit(items, size, cap);
    var batches: seq<seq<T>> := [];
    var cur: seq<T> := [];
    for i := 0 to |items|
      invariant forall x :: x in items[..i] ==> encodable(x)
      invariant GreedySplit(items, size, cap) == batches + GreedyFrom(cur, items[i..], size, cap)
    {
      if !encodable(items[i]) {
        return None;
      }
      assert items[..i + 1] == items[..i] + [items[i]];
      assert items[i..][1..] == items[i + 1..];
      var next := cur + [items[i]];
      if cur != [] && size(next) > cap {
        batches := batches + [cur];
        cur := [items[i]];
      } else {
        cur := next;
      }
    }
    assert items[..|items|] == items;
    if cur != [] {
      batches := batches + [cur];
    }
    return Some(batches);
  }

  /** Bytes of a JSON array body: fixed surroundings, the elements, and the commas between them. */
  function ArrayBodySize<T>(base: nat, width: T -> nat, s: seq<T>): nat {
    base + Total(width, s) + (if |s| == 0 then 0 else |s| - 1)
  }

  function Total<T>(width: T -> nat, s: seq<T>): nat {
    if |s| == 0 then 0 else width(s[0]) + Total(width, s[1..])
  }

  lemma {:induction false} TotalAppend<T>(width: T -> nat, a: seq<T>, b: seq<T>)
    ensures Total(width, a + b) == Total(width, a) + Total(width, b)
  {
    if a == [] {
      assert a + b == b;
    } else {
      TotalAppend(width, a[1..], b);
      assert (a + b)[1..] == a[1..] + b;
    }
  }

  /** The log payload is one JSON array of records inside fixed surroundings, so its size is monotone. */
  lemma ArrayBodyIsMonotone<T(!new)>(base: nat, width: T -> nat)
    ensures Monotone((s: seq<T>) => ArrayBodySize(base, width, s))
  {
    var size := (s: seq<T>) => ArrayBodySize(base, width, s);
    forall a: seq<T>, b: seq<T>, c: seq<T>
      ensures size(b) <= size(a + b + c)
    {
      TotalAppend(width, a + b, c);
      TotalAppend(width, a, b);
    }
  }
}
