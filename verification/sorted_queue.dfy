/** The frontier of the older planner: a plain array of entries, sorted by
    `dist` before each removal of its first element. JavaScript's array sort
    is stable, so entries with equal `dist` keep their relative order; the
    insertion sort below is stable too, and a stable sort's output is
    determined by its input, so the two agree. */
module SortedQueue {
  import opened MinHeap

  /** Non-decreasing by `dist`. */
  predicate Sorted(q: seq<Entry>) {
    forall i, j :: 0 <= i < j < |q| ==> q[i].dist <= q[j].dist
  }

  /** The entries of `q` whose `dist` is `d`, in their order in `q`. */
  function WithDist(q: seq<Entry>, d: real): seq<Entry>
    decreases |q|
  {
    if |q| == 0 then []
    else WithDist(q[..|q| - 1], d) + (if q[|q| - 1].dist == d then [q[|q| - 1]] else [])
  }

  /** Stability, stated for every key: each class of equal `dist` appears
      in the same order in both sequences. */
  ghost predicate SameClasses(a: seq<Entry>, b: seq<Entry>) {
    forall d :: WithDist(a, d) == WithDist(b, d)
  }

  lemma WithDistAppend(q: seq<Entry>, x: Entry, d: real)
    ensures WithDist(q + [x], d) == WithDist(q, d) + (if x.dist == d then [x] else [])
  {
    assert (q + [x])[..|q|] == q;
  }

  /** An entry is in its class exactly when it is in the sequence. */
  lemma {:induction false} WithDistMembership(q: seq<Entry>, d: real, x: Entry)
    ensures x in WithDist(q, d) <==> x in q && x.dist == d
    decreases |q|
  {
    if |q| > 0 {
      var init := q[..|q| - 1];
      WithDistMembership(init, d, x);
      assert q == init + [q[|q| - 1]];
    }
  }

  /** Inserts `e` into the sorted `q` after every entry no larger than it. */
  function InsertAfterEquals(q: seq<Entry>, e: Entry): (r: seq<Entry>)
    requires Sorted(q)
    ensures Sorted(r) && |r| == |q| + 1
    ensures multiset(r) == multiset(q) + multiset{e}
    ensures forall d :: WithDist(r, d) == WithDist(q, d) + (if e.dist == d then [e] else [])
    decreases |q|
  {
    if |q| == 0 || q[|q| - 1].dist <= e.dist then
      AppendLargest(q, e);
      AppendClasses(q, e);
      q + [e]
    else
      var init, last := q[..|q| - 1], q[|q| - 1];
      assert q == init + [last];
      var mid := InsertAfterEquals(init, e);
      InsertBeforeLast(init, last, e, mid);
      mid + [last]
  }

  /** Re-attaching the last entry of `q` after `e` was inserted among the
      others: the three promises of the insertion carry over. */
  lemma InsertBeforeLast(init: seq<Entry>, last: Entry, e: Entry, mid: seq<Entry>)
    requires Sorted(init + [last]) && e.dist < last.dist
    requires Sorted(mid) && multiset(mid) == multiset(init) + multiset{e}
    requires forall d :: WithDist(mid, d) == WithDist(init, d) + (if e.dist == d then [e] else [])
    ensures Sorted(mid + [last])
    ensures multiset(mid + [last]) == multiset(init + [last]) + multiset{e}
    ensures forall d :: WithDist(mid + [last], d) == WithDist(init + [last], d) + (if e.dist == d then [e] else [])
  {
    var q := init + [last];
    forall x | x in mid
      ensures x.dist <= last.dist
    {
      assert x in multiset(mid);
      if x != e {
        var k :| 0 <= k < |init| && init[k] == x;
        assert q[k] == x && q[|init|] == last;
      }
    }
    AppendLargest(mid, last);
    assert multiset(mid + [last]) == multiset(mid) + multiset{last};
    assert multiset(q) == multiset(init) + multiset{last};
    ClassesBeforeLast(init, last, e, mid);
  }

  /** The class part of `InsertBeforeLast`: `e` and `last` have different
      `dist`, so appending them in either order gives the same classes. */
  lemma ClassesBeforeLast(init: seq<Entry>, last: Entry, e: Entry, mid: seq<Entry>)
    requires e.dist < last.dist
    requires forall d :: WithDist(mid, d) == WithDist(init, d) + (if e.dist == d then [e] else [])
    ensures forall d :: WithDist(mid + [last], d) == WithDist(init + [last], d) + (if e.dist == d then [e] else [])
  {
    forall d
      ensures WithDist(mid + [last], d) == WithDist(init + [last], d) + (if e.dist == d then [e] else [])
    {
      WithDistAppend(mid, last, d);
      WithDistAppend(init, last, d);
    }
  }

  /** Appending an entry no smaller than all others keeps a sequence sorted. */
  lemma AppendLargest(q: seq<Entry>, x: Entry)
    requires Sorted(q) && forall y :: y in q ==> y.dist <= x.dist
    ensures Sorted(q + [x])
  {
    forall i, j | 0 <= i < j < |q| + 1
      ensures (q + [x])[i].dist <= (q + [x])[j].dist
    {
      if j == |q| {
        assert q[i] in q;
      }
    }
  }

  lemma AppendClasses(q: seq<Entry>, x: Entry)
    ensures forall d :: WithDist(q + [x], d) == WithDist(q, d) + (if x.dist == d then [x] else [])
  {
    forall d
      ensures WithDist(q + [x], d) == WithDist(q, d) + (if x.dist == d then [x] else [])
    {
      WithDistAppend(q, x, d);
    }
  }

  /** `pq.sort((a, b) => a.dist - b.dist)`: a sorted, stable permutation. */
  function SortByDist(q: seq<Entry>): (r: seq<Entry>)
    ensures Sorted(r) && |r| == |q|
    ensures multiset(r) == multiset(q)
    ensures SameClasses(r, q)
    decreases |q|
  {
    if |q| == 0 then []
    else
      var init, last := q[..|q| - 1], q[|q| - 1];
      assert q == init + [last];
      var r := InsertAfterEquals(SortByDist(init), last);
      assert SameClasses(r, q) by {
        forall d
          ensures WithDist(r, d) == WithDist(q, d)
        {
          WithDistAppend(init, last, d);
        }
      }
      r
  }

  /** The last entry of a non-empty sorted sequence carries its largest
      `dist`, and closes the class of that `dist`. */
  lemma LastOfSorted(a: seq<Entry>)
    requires Sorted(a) && |a| > 0
    ensures forall x :: x in a ==> x.dist <= a[|a| - 1].dist
    ensures var init, last := a[..|a| - 1], a[|a| - 1];
            forall d :: WithDist(a, d) == WithDist(init, d) + (if last.dist == d then [last] else [])
  {
    var init, last := a[..|a| - 1], a[|a| - 1];
    assert a == init + [last];
    forall d
      ensures WithDist(a, d) == WithDist(init, d) + (if last.dist == d then [last] else [])
    {
      WithDistAppend(init, last, d);
    }
  }

  /** Any two sorted sequences with the same classes are equal: a stable
      sort has only one possible result, the one `SortByDist` computes. */
  lemma {:induction false} StableSortUnique(a: seq<Entry>, b: seq<Entry>)
    requires Sorted(a) && Sorted(b) && SameClasses(a, b)
    ensures a == b
    decreases |a|
  {
    SameClassesSameEmptiness(a, b);
    if |a| > 0 {
      var la := SameLast(a, b);
      var ia, ib := a[..|a| - 1], b[..|b| - 1];
      forall d
        ensures WithDist(ia, d) == WithDist(ib, d)
      {
        var ca, cb := WithDist(ia, d), WithDist(ib, d);
        var t := if la.dist == d then [la] else [];
        assert WithDist(a, d) == WithDist(b, d);
        assert ca + t == cb + t;
        assert ca == (ca + t)[..|ca|];
        assert cb == (cb + t)[..|cb|];
      }
      StableSortUnique(ia, ib);
      assert a == ia + [la] && b == ib + [la];
    }
  }

  /** Sequences with the same classes are both empty or both not. */
  lemma SameClassesSameEmptiness(a: seq<Entry>, b: seq<Entry>)
    requires SameClasses(a, b)
    ensures |a| == 0 <==> |b| == 0
  {
    if |a| > 0 {
      WithDistMembership(a, a[0].dist, a[0]);
      WithDistMembership(b, a[0].dist, a[0]);
      assert WithDist(a, a[0].dist) == WithDist(b, a[0].dist);
    }
    if |b| > 0 {
      WithDistMembership(a, b[0].dist, b[0]);
      WithDistMembership(b, b[0].dist, b[0]);
      assert WithDist(a, b[0].dist) == WithDist(b, b[0].dist);
    }
  }

  /** Non-empty sorted sequences with the same classes end with the same
      entry, and dropping it leaves each class without its last entry. */
  lemma SameLast(a: seq<Entry>, b: seq<Entry>) returns (la: Entry)
    requires Sorted(a) && Sorted(b) && SameClasses(a, b) && |a| > 0 && |b| > 0
    ensures la == a[|a| - 1] == b[|b| - 1]
    ensures forall d :: WithDist(a, d) == WithDist(a[..|a| - 1], d) + (if la.dist == d then [la] else [])
    ensures forall d :: WithDist(b, d) == WithDist(b[..|b| - 1], d) + (if la.dist == d then [la] else [])
  {
    LastOfSorted(a);
    LastOfSorted(b);
    la := a[|a| - 1];
    var lb := b[|b| - 1];
    WithDistMembership(a, la.dist, la);
    WithDistMembership(b, la.dist, la);
    WithDistMembership(a, lb.dist, lb);
    WithDistMembership(b, lb.dist, lb);
    assert WithDist(a, la.dist) == WithDist(b, la.dist);
    assert WithDist(a, lb.dist) == WithDist(b, lb.dist);
    assert la.dist == lb.dist;
    assert WithDist(a, la.dist)[|WithDist(a, la.dist)| - 1] == la;
    assert WithDist(b, la.dist)[|WithDist(b, la.dist)| - 1] == lb;
  }

  /** The head of a class is the earliest entry of `q` with that `dist`. */
  lemma {:induction false} WithDistHead(q: seq<Entry>, d: real)
    requires WithDist(q, d) != []
    ensures exists i :: 0 <= i < |q| && q[i] == WithDist(q, d)[0] && q[i].dist == d
                        && forall j :: 0 <= j < i ==> q[j].dist != d
    decreases |q|
  {
    var init, last := q[..|q| - 1], q[|q| - 1];
    assert forall j :: 0 <= j < |init| ==> init[j] == q[j];
    if WithDist(init, d) != [] {
      WithDistHead(init, d);
    } else {
      forall j | 0 <= j < |init|
        ensures init[j].dist != d
      {
        WithDistMembership(init, d, init[j]);
      }
    }
  }

  /** The head of a sorted, stable permutation of `q` is the earliest entry
      of `q` with minimal `dist`. */
  lemma SortedHeadIsFirstMin(q: seq<Entry>, sorted: seq<Entry>)
    requires |q| > 0 && Sorted(sorted) && multiset(sorted) == multiset(q) && SameClasses(sorted, q)
    ensures forall x :: x in q ==> sorted[0].dist <= x.dist
    ensures exists i :: 0 <= i < |q| && q[i] == sorted[0] && forall j :: 0 <= j < i ==> q[j].dist > sorted[0].dist
  {
    var head := sorted[0];
    assert |sorted| > 0 by {
      assert q[0] in multiset(sorted);
    }
    forall x | x in q
      ensures head.dist <= x.dist
    {
      assert x in multiset(sorted);
    }
    WithDistMembership(sorted, head.dist, head);
    WithDistHead(sorted, head.dist);
    assert WithDist(sorted, head.dist)[0] == head;
    assert WithDist(q, head.dist) == WithDist(sorted, head.dist);
    WithDistHead(q, head.dist);
    var i :| 0 <= i < |q| && q[i] == head && forall j :: 0 <= j < i ==> q[j].dist != head.dist;
    assert forall j :: 0 <= j < i ==> q[j] in q;
  }

  /** `pq.shift()` after the sort: the entry removed is one of minimal
      `dist`, the earliest such in the queue's order, and the rest of the
      queue is everything else, sorted. */
  function SortAndShift(q: seq<Entry>): (r: (Entry, seq<Entry>))
    requires |q| > 0
    ensures r.0 in q && forall x :: x in q ==> r.0.dist <= x.dist
    ensures exists i :: && 0 <= i < |q| && q[i] == r.0 && (forall j :: 0 <= j < i ==> q[j].dist > r.0.dist)
                        && SameClasses(r.1, q[..i] + q[i + 1..])
    ensures multiset(r.1) + multiset{r.0} == multiset(q) && Sorted(r.1)
  {
    var sorted := SortByDist(q);
    SortedHeadIsFirstMin(q, sorted);
    ShiftStable(q, sorted);
    assert sorted == [sorted[0]] + sorted[1..];
    (sorted[0], sorted[1..])
  }

  /** The classes of a concatenation are the concatenated classes. */
  lemma {:induction false} WithDistConcat(a: seq<Entry>, b: seq<Entry>, d: real)
    ensures WithDist(a + b, d) == WithDist(a, d) + WithDist(b, d)
    decreases |b|
  {
    if |b| == 0 {
      assert a + b == a;
    } else {
      var init, last := b[..|b| - 1], b[|b| - 1];
      WithDistConcat(a, init, d);
      assert a + b == (a + init) + [last];
      assert b == init + [last];
      WithDistAppend(a + init, last, d);
      WithDistAppend(init, last, d);
    }
  }

  /** A sequence with no entry at `d` has an empty class there. */
  lemma WithDistNone(q: seq<Entry>, d: real)
    requires forall j :: 0 <= j < |q| ==> q[j].dist != d
    ensures WithDist(q, d) == []
  {
    if WithDist(q, d) != [] {
      WithDistMembership(q, d, WithDist(q, d)[0]);
    }
  }

  /** Removing the head of a stable sort of `q`, which is the entry at `i`,
      the earliest minimal one, leaves a stable sort of `q` without it. */
  lemma ShiftKeepsClasses(q: seq<Entry>, sorted: seq<Entry>, i: nat)
    requires |sorted| > 0 && SameClasses(sorted, q) && i < |q| && q[i] == sorted[0]
    requires forall j :: 0 <= j < i ==> q[j].dist > sorted[0].dist
    ensures SameClasses(sorted[1..], q[..i] + q[i + 1..])
  {
    var m := sorted[0];
    assert sorted == [m] + sorted[1..];
    assert q == (q[..i] + [m]) + q[i + 1..];
    forall d
      ensures WithDist(sorted[1..], d) == WithDist(q[..i] + q[i + 1..], d)
    {
      WithDistConcat([m], sorted[1..], d);
      WithDistConcat(q[..i] + [m], q[i + 1..], d);
      WithDistConcat(q[..i], [m], d);
      WithDistConcat(q[..i], q[i + 1..], d);
      WithDistAppend([], m, d);
      assert [] + [m] == [m];
      var one := if m.dist == d then [m] else [];
      assert WithDist([m], d) == one;
      assert WithDist(sorted, d) == one + WithDist(sorted[1..], d);
      if m.dist == d {
        WithDistNone(q[..i], d);
      }
      assert WithDist(q, d) == one + WithDist(q[..i] + q[i + 1..], d);
      assert WithDist(sorted, d) == WithDist(q, d);
      assert (one + WithDist(sorted[1..], d))[|one|..] == WithDist(sorted[1..], d);
      assert (one + WithDist(q[..i] + q[i + 1..], d))[|one|..] == WithDist(q[..i] + q[i + 1..], d);
    }
  }

  /** Some earliest minimal entry of `q` heads its stable sort, and the rest
      of the sort is a stable sort of the other entries. */
  lemma ShiftStable(q: seq<Entry>, sorted: seq<Entry>)
    requires |q| > 0 && Sorted(sorted) && multiset(sorted) == multiset(q) && SameClasses(sorted, q)
    ensures |sorted| > 0
    ensures exists i :: && 0 <= i < |q| && q[i] == sorted[0] && (forall j :: 0 <= j < i ==> q[j].dist > sorted[0].dist)
                        && SameClasses(sorted[1..], q[..i] + q[i + 1..])
  {
    SortedHeadIsFirstMin(q, sorted);
    var i :| 0 <= i < |q| && q[i] == sorted[0] && forall j :: 0 <= j < i ==> q[j].dist > sorted[0].dist;
    ShiftKeepsClasses(q, sorted, i);
  }
}
