/** The binary min-heap of the toll-aware planner, keyed on `dist`, stored
    as a sequence in the usual array layout: the children of position `i`
    are `2i+1` and `2i+2`, the parent of `i > 0` is `(i-1)/2`. */
module MinHeap {
  import opened Common

  /** A frontier entry: a node id with the tentative distance it was pushed with. */
  datatype Entry = Entry(id: string, dist: real)

  /** The entry at `i > 0` is no smaller than its parent. */
  predicate OrderedAt(h: seq<Entry>, i: int)
    requires 0 < i < |h|
  {
    h[(i - 1) / 2].dist <= h[i].dist
  }

  /** Heap order: no entry is smaller than its parent. */
  predicate IsHeap(h: seq<Entry>) {
    forall i :: 0 < i < |h| ==> OrderedAt(h, i)
  }

  /** The parent of `k` is no larger than any child of `k`. */
  predicate BridgesAt(h: seq<Entry>, k: int)
    requires 0 <= k < |h|
  {
    forall c :: 0 < k && 0 < c < |h| && (c - 1) / 2 == k ==> h[(k - 1) / 2].dist <= h[c].dist
  }

  /** Heap order everywhere except between `k` and its parent, and the
      parent of `k` no larger than the children of `k`: what holds while an
      entry rises. */
  predicate HeapExceptUp(h: seq<Entry>, k: nat)
    requires k < |h|
  {
    && (forall i :: 0 < i < |h| && i != k ==> OrderedAt(h, i))
    && BridgesAt(h, k)
  }

  /** Heap order everywhere except between `k` and its children, and the
      parent of `k` no larger than the children of `k`: what holds while an
      entry sinks. */
  predicate HeapExceptDown(h: seq<Entry>, k: nat)
    requires k < |h|
  {
    && (forall i :: 0 < i < |h| && (i - 1) / 2 != k ==> OrderedAt(h, i))
    && BridgesAt(h, k)
  }

  /** `isEmpty`: the heap holds no entry at all. */
  function IsEmpty(h: seq<Entry>): (b: bool)
    ensures b <==> multiset(h) == multiset{}
    ensures b <==> forall e :: e !in h
  {
    assert |h| > 0 ==> h[0] in h;
    assert |multiset(h)| == |h|;
    |h| == 0
  }

  /** Exchanges the entries at `i` and `j`. */
  function Swap(h: seq<Entry>, i: nat, j: nat): (r: seq<Entry>)
    requires i < |h| && j < |h|
    ensures |r| == |h| && multiset(r) == multiset(h)
    ensures r[i] == h[j] && r[j] == h[i]
    ensures forall t :: 0 <= t < |h| && t != i && t != j ==> r[t] == h[t]
  {
    h[j := h[i]][i := h[j]]
  }

  /** The root of a heap carries a minimal `dist`. */
  lemma {:induction false} HeapRootIsMin(h: seq<Entry>, k: nat)
    requires IsHeap(h) && k < |h|
    ensures h[0].dist <= h[k].dist
    decreases k
  {
    if k > 0 {
      assert OrderedAt(h, k);
      HeapRootIsMin(h, (k - 1) / 2);
    }
  }

  /** One step of the rise: swapping `k` with its larger parent moves the
      exception up to the parent. */
  lemma RiseStep(r: seq<Entry>, k: nat)
    requires 0 < k < |r| && HeapExceptUp(r, k)
    requires r[(k - 1) / 2].dist > r[k].dist
    ensures var p := (k - 1) / 2; HeapExceptUp(Swap(r, k, p), p)
  {
    var p := (k - 1) / 2;
    var s := Swap(r, k, p);
    forall i | 0 < i < |s| && i != p
      ensures OrderedAt(s, i)
    {
      var q := (i - 1) / 2;
      if i == k {
      } else if q == k {
        assert r[(k - 1) / 2].dist <= r[i].dist;
      } else if q == p {
        assert OrderedAt(r, i);
      } else {
        assert OrderedAt(r, i);
      }
    }
    forall c | 0 < p && 0 < c < |s| && (c - 1) / 2 == p
      ensures s[(p - 1) / 2].dist <= s[c].dist
    {
      assert OrderedAt(r, p);
      if c != k {
        assert OrderedAt(r, c);
      }
    }
  }

  /** One step of the sink: swapping `k` with its smaller child `m` moves
      the exception down to `m`. */
  lemma SinkStep(r: seq<Entry>, k: nat, m: nat)
    requires k < m < |r| && HeapExceptDown(r, k)
    requires (m - 1) / 2 == k && r[m].dist < r[k].dist
    requires forall o :: 0 < o < |r| && (o - 1) / 2 == k ==> r[m].dist <= r[o].dist
    ensures HeapExceptDown(Swap(r, k, m), m)
  {
    var s := Swap(r, k, m);
    forall i | 0 < i < |s| && (i - 1) / 2 != m
      ensures OrderedAt(s, i)
    {
      var q := (i - 1) / 2;
      if i == m {
      } else if i == k {
        assert r[(k - 1) / 2].dist <= r[m].dist;
      } else if q == k {
      } else {
        assert OrderedAt(r, i);
      }
    }
    forall c | 0 < c < |s| && (c - 1) / 2 == m
      ensures s[(m - 1) / 2].dist <= s[c].dist
    {
      assert OrderedAt(r, c);
    }
  }

  /** `m` is the position of the smallest of `k` and its children, `k`
      itself unless a child is strictly smaller. */
  predicate SmallestOfFamily(r: seq<Entry>, k: nat, m: nat) {
    && k < |r| && m < |r|
    && (m == k || m == 2 * k + 1 || m == 2 * k + 2)
    && (2 * k + 1 < |r| ==> r[m].dist <= r[2 * k + 1].dist)
    && (2 * k + 2 < |r| ==> r[m].dist <= r[2 * k + 2].dist)
    && (m != k ==> r[m].dist < r[k].dist)
  }

  /** Swapping `k` with its strictly smaller smallest child `m`. */
  lemma SinkToChild(r: seq<Entry>, k: nat, m: nat)
    requires SmallestOfFamily(r, k, m) && HeapExceptDown(r, k) && m != k
    ensures HeapExceptDown(Swap(r, k, m), m)
  {
    assert (m - 1) / 2 == k;
    forall o | 0 < o < |r| && (o - 1) / 2 == k
      ensures r[m].dist <= r[o].dist
    {
      assert o == 2 * k + 1 || o == 2 * k + 2;
    }
    SinkStep(r, k, m);
  }

  /** A sinking entry no larger than its children ends the sink. */
  lemma SinkDone(r: seq<Entry>, k: nat)
    requires k < |r| && HeapExceptDown(r, k)
    requires 2 * k + 1 < |r| ==> r[k].dist <= r[2 * k + 1].dist
    requires 2 * k + 2 < |r| ==> r[k].dist <= r[2 * k + 2].dist
    ensures IsHeap(r)
  {
    forall i | 0 < i < |r|
      ensures OrderedAt(r, i)
    {
      if (i - 1) / 2 == k {
        assert i == 2 * k + 1 || i == 2 * k + 2;
      }
    }
  }

  /** Moves the entry at `k` up, swapping it with its parent while the
      parent's `dist` is larger. */
  method BubbleUp(h: seq<Entry>, k: nat) returns (r: seq<Entry>)
    requires k < |h| && HeapExceptUp(h, k)
    ensures IsHeap(r)
    ensures multiset(r) == multiset(h) && |r| == |h|
  {
    r := h;
    var index: nat := k;
    while index > 0
      invariant index < |r| == |h|
      invariant HeapExceptUp(r, index)
      invariant multiset(r) == multiset(h)
    {
      var parent := (index - 1) / 2;
      if r[parent].dist <= r[index].dist {
        assert OrderedAt(r, index);
        break;
      }
      RiseStep(r, index);
      r := Swap(r, index, parent);
      index := parent;
    }
  }

  /** Moves the entry at `k` down, swapping it with its smaller child while
      that child's `dist` is strictly smaller. */
  method BubbleDown(h: seq<Entry>, k: nat) returns (r: seq<Entry>)
    requires k < |h| && HeapExceptDown(h, k)
    ensures IsHeap(r)
    ensures multiset(r) == multiset(h) && |r| == |h|
  {
    r := h;
    var index: nat := k;
    while true
      invariant index < |r| == |h|
      invariant HeapExceptDown(r, index)
      invariant multiset(r) == multiset(h)
      decreases |r| - index
    {
      var left := 2 * index + 1;
      var right := 2 * index + 2;
      var smallest := index;
      if left < |r| && r[left].dist < r[smallest].dist {
        smallest := left;
      }
      if right < |r| && r[right].dist < r[smallest].dist {
        smallest := right;
      }
      assert SmallestOfFamily(r, index, smallest);
      if smallest == index {
        SinkDone(r, index);
        break;
      }
      SinkToChild(r, index, smallest);
      r := Swap(r, index, smallest);
      index := smallest;
    }
  }

  /** Appends `e` and lets it rise: the heap gains exactly `e` and stays ordered. */
  method Insert(h: seq<Entry>, e: Entry) returns (r: seq<Entry>)
    requires IsHeap(h)
    ensures IsHeap(r)
    ensures multiset(r) == multiset(h) + multiset{e} && |r| == |h| + 1
  {
    var appended := h + [e];
    forall i | 0 < i < |appended| && i != |h|
      ensures OrderedAt(appended, i)
    {
      assert OrderedAt(h, i);
    }
    r := BubbleUp(appended, |h|);
  }

  /** Removes and returns an entry of minimal `dist`; the last entry takes
      the root's place and sinks. An empty heap yields nothing and is left
      as it is. */
  method ExtractMin(h: seq<Entry>) returns (m: Option<Entry>, r: seq<Entry>)
    requires IsHeap(h)
    ensures m.None? <==> IsEmpty(h)
    ensures m.None? ==> r == h
    ensures m.Some? ==> m.value in h && multiset(r) + multiset{m.value} == multiset(h) && |r| == |h| - 1
    ensures m.Some? ==> forall e :: e in h ==> m.value.dist <= e.dist
    ensures IsHeap(r)
  {
    if |h| == 0 {
      return None, h;
    }
    var min := h[0];
    forall e | e in h
      ensures min.dist <= e.dist
    {
      var k :| 0 <= k < |h| && h[k] == e;
      HeapRootIsMin(h, k);
    }
    var last := h[|h| - 1];
    r := h[..|h| - 1];
    assert h == r + [last];
    if |r| > 0 {
      var moved := r[0 := last];
      assert multiset(moved) + multiset{min} == multiset(h) by {
        assert h == [min] + r[1..] + [last];
        assert moved == [last] + r[1..];
      }
      forall i | 0 < i < |moved| && (i - 1) / 2 != 0
        ensures OrderedAt(moved, i)
      {
        assert OrderedAt(h, i);
      }
      r := BubbleDown(moved, 0);
    } else {
      assert h == [min];
    }
    m := Some(min);
  }
}
