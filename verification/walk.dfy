/** Path reconstruction: following the predecessor map back from the
    destination and collecting the nodes front to back. */
module PathWalk {
  import opened Common
  import opened Graph

  /** Predecessors: `None` is the source's `null`; a missing key reads as
      `undefined`. */
  type Prev = map<NodeId, Option<NodeId>>

  /** Settlement ranks (the order nodes were expanded in) strictly increase
      along every predecessor link into a settled node, and every recorded
      predecessor is settled. */
  predicate Ranked(prev: Prev, done: set<NodeId>, rank: map<NodeId, nat>) {
    && rank.Keys == done
    && (forall v :: v in rank ==> rank[v] < |done|)
    && forall v :: v in prev && prev[v].Some? ==>
         prev[v].value in done && (v in done ==> rank[prev[v].value] < rank[v])
  }

  /** Each node of `path` after the first is recorded with its left
      neighbour as predecessor. */
  predicate IsChain(prev: Prev, path: seq<NodeId>) {
    forall i :: 0 < i < |path| ==> path[i] in prev && prev[path[i]] == Some(path[i - 1])
  }

  /** `v` has no predecessor: `null`, or no entry at all. */
  predicate Unlinked(prev: Prev, v: NodeId) {
    v !in prev || prev[v].None?
  }

  /** Settled nodes are below every unsettled one; a settled node's height
      is one more than its rank. */
  ghost function Height(done: set<NodeId>, rank: map<NodeId, nat>, v: NodeId): nat {
    if v in rank then rank[v] + 1 else |done| + 1
  }

  /** The reconstruction loop, stopping at `null` and also at a node with no
      entry: the returned path is the whole predecessor chain ending at
      `end`, starting at a node without predecessor, with no repeated node;
      all nodes but the last are settled. */
  method WalkBack(prev: Prev, end: NodeId, ghost done: set<NodeId>, ghost rank: map<NodeId, nat>)
    returns (path: seq<NodeId>)
    requires Ranked(prev, done, rank)
    ensures |path| >= 1 && path[|path| - 1] == end
    ensures IsChain(prev, path) && Unlinked(prev, path[0])
    ensures forall i :: 0 <= i < |path| - 1 ==> path[i] in done
    ensures forall i, k :: 0 <= i < k < |path| ==> path[i] != path[k]
    ensures end !in prev ==> path == [end]
  {
    path := [];
    var current: Option<NodeId> := Some(end);
    while current.Some?
      invariant path == [] <==> current == Some(end)
      invariant path != [] ==> path[|path| - 1] == end && IsChain(prev, path)
      invariant path != [] && current.Some? ==> path[0] in prev && prev[path[0]] == current
      invariant path != [] && current.None? ==> Unlinked(prev, path[0])
      invariant path != [] && current.Some? ==> current.value in done && (path[0] in done ==> rank[current.value] < rank[path[0]])
      invariant forall i :: 0 <= i < |path| - 1 ==> path[i] in done
      invariant forall i, k :: 0 <= i < k < |path| && path[k] in done ==> path[i] in done && rank[path[i]] < rank[path[k]]
      decreases if current.Some? then Height(done, rank, current.value) else 0
    {
      var v := current.value;
      ghost var before := path;
      path := [v] + path;
      assert forall i :: 0 < i < |path| ==> path[i] == before[i - 1];
      current := if v in prev then prev[v] else None;
    }
    forall i, k | 0 <= i < k < |path|
      ensures path[i] != path[k]
    {
      if path[k] !in done {
        assert k == |path| - 1;
      }
    }
  }

  /** The reconstruction loop of the older planner, which runs while the
      cursor is truthy: it stops at a missing entry (`undefined`) and at the
      empty id, the one falsy string. Its predecessors are always ids. The
      path is empty exactly for the empty destination; otherwise it is the
      predecessor chain ending at `end`, cut before the first missing or
      empty predecessor, with no repeated node. */
  method WalkBackWhileTruthy(prev: Prev, end: NodeId, ghost done: set<NodeId>, ghost rank: map<NodeId, nat>)
    returns (path: seq<NodeId>)
    requires Ranked(prev, done, rank) && forall v :: v in prev ==> prev[v].Some?
    ensures path == [] <==> end == ""
    ensures path != [] ==> && path[|path| - 1] == end && IsChain(prev, path)
                           && (path[0] !in prev || prev[path[0]] == Some(""))
    ensures forall i :: 0 <= i < |path| ==> path[i] != ""
    ensures forall i :: 0 <= i < |path| - 1 ==> path[i] in done
    ensures forall i, k :: 0 <= i < k < |path| ==> path[i] != path[k]
    ensures end != "" && end !in prev ==> path == [end]
  {
    path := [];
    var current: Option<NodeId> := Some(end);
    while current.Some? && current.value != ""
      invariant path == [] <==> current == Some(end)
      invariant path == [] ==> end != "" || current == Some("")
      invariant path != [] ==> path[|path| - 1] == end && IsChain(prev, path)
      invariant path != [] && current.Some? ==> path[0] in prev && prev[path[0]] == current
      invariant path != [] && current.None? ==> path[0] !in prev
      invariant path != [] && current.Some? ==> current.value in done && (path[0] in done ==> rank[current.value] < rank[path[0]])
      invariant forall i :: 0 <= i < |path| ==> path[i] != ""
      invariant forall i :: 0 <= i < |path| - 1 ==> path[i] in done
      invariant forall i, k :: 0 <= i < k < |path| && path[k] in done ==> path[i] in done && rank[path[i]] < rank[path[k]]
      decreases if current.Some? then Height(done, rank, current.value) else 0
    {
      var v := current.value;
      ghost var before := path;
      path := [v] + path;
      assert forall i :: 0 < i < |path| ==> path[i] == before[i - 1];
      current := if v in prev then prev[v] else None;
    }
    forall i, k | 0 <= i < k < |path|
      ensures path[i] != path[k]
    {
      if path[k] !in done {
        assert k == |path| - 1;
      }
    }
  }

  /** What the source's loop sees in `current`: a node id, `undefined` or
      `null`. */
  datatype Cursor = Null | Undefined | At(id: NodeId)

  /** The JavaScript lookup `prev[current]`: a cursor used as a key is
      converted to a string, so `undefined` reads the key "undefined". */
  function StepAsWritten(prev: Prev, c: Cursor): Cursor {
    var key := match c case Null => "null" case Undefined => "undefined" case At(id) => id;
    if key !in prev then Undefined
    else match prev[key] case None => Null case Some(u) => At(u)
  }

  /** Cursor after `n` rounds of the reconstruction loop as written, which
      only stops at `null` (a stopped loop keeps its cursor). */
  function CursorAfter(prev: Prev, end: NodeId, n: nat): Cursor
    decreases n
  {
    if n == 0 then At(end)
    else
      var c := CursorAfter(prev, end, n - 1);
      if c == Null then Null else StepAsWritten(prev, c)
  }

  /** As written, the loop never reaches `null` when the destination has no
      entry (it is not a node id) and no node is called "undefined": after
      the first round the cursor is `undefined` forever, so the loop never
      ends. */
  lemma {:induction false} AsWrittenNeverStops(prev: Prev, end: NodeId, n: nat)
    requires end !in prev && "undefined" !in prev
    ensures CursorAfter(prev, end, n) != Null
    ensures n >= 1 ==> CursorAfter(prev, end, n) == Undefined
    decreases n
  {
    if n >= 1 {
      AsWrittenNeverStops(prev, end, n - 1);
    }
  }
}
