/** Validation of a workflow definition: references, then cycle detection by Kahn's algorithm. */
module WorkflowValidation {
  import opened Wrappers
  import opened WorkflowGraph

  datatype Rejection =
    | NoNodes
    | NoEntryNodes
    | EntryNotFound(id: NodeId)
    | ExitNotFound(id: NodeId)
    | EdgeSourceNotFound(id: NodeId)
    | EdgeTargetNotFound(id: NodeId)
    | Cycle

  ghost predicate WellFormed(w: Workflow) {
    w.nodes != [] && w.entryNodes != [] && RefersToNodes(w) && DistinctIds(w) && Acyclic(w)
  }

  ghost predicate FirstMissing(ids: seq<NodeId>, known: set<NodeId>, id: NodeId) {
    exists i | 0 <= i < |ids| :: ids[i] == id && id !in known && forall k | 0 <= k < i :: ids[k] in known
  }

  predicate Joins(e: Edge, known: set<NodeId>) {
    e.from in known && e.to in known
  }

  ghost predicate FirstBroken(edges: seq<Edge>, known: set<NodeId>, e: Edge) {
    exists i | 0 <= i < |edges| :: edges[i] == e && !Joins(e, known) && forall k | 0 <= k < i :: Joins(edges[k], known)
  }

  /** What each rejection says about the definition: the first fault in the order of the checks, and
      within a check the first offender. Repeated ids are reported as a cycle. */
  ghost predicate Justified(w: Workflow, why: Rejection) {
    var known := Ids(w);
    var entriesFound := w.nodes != [] && w.entryNodes != [] && forall id | id in w.entryNodes :: id in known;
    var exitsFound := entriesFound && forall id | id in w.exitNodes :: id in known;
    match why
    case NoNodes => w.nodes == []
    case NoEntryNodes => w.nodes != [] && w.entryNodes == []
    case EntryNotFound(id) => w.nodes != [] && FirstMissing(w.entryNodes, known, id)
    case ExitNotFound(id) => entriesFound && FirstMissing(w.exitNodes, known, id)
    case EdgeSourceNotFound(id) =>
      exitsFound && id !in known && exists e | e in w.edges :: e.from == id && FirstBroken(w.edges, known, e)
    case EdgeTargetNotFound(id) =>
      exitsFound && id !in known && exists e | e in w.edges ::
        e.from in known && e.to == id && FirstBroken(w.edges, known, e)
    case Cycle => exitsFound && RefersToNodes(w) && !(DistinctIds(w) && Acyclic(w))
  }

  // ---- in-degrees ----

  /** The edges into `n` that do not come from a node in `done`, parallel edges counted each. */
  function InDegree(edges: seq<Edge>, n: NodeId, done: set<NodeId>): nat {
    if edges == [] then 0
    else (if edges[0].to == n && edges[0].from !in done then 1 else 0) + InDegree(edges[1..], n, done)
  }

  lemma {:induction false} InDegreeAppend(edges: seq<Edge>, e: Edge, n: NodeId, done: set<NodeId>)
    ensures InDegree(edges + [e], n, done)
         == InDegree(edges, n, done) + if e.to == n && e.from !in done then 1 else 0
  {
    if edges == [] {
      assert edges + [e] == [e] && [e][1..] == [];
    } else {
      assert (edges + [e])[1..] == edges[1..] + [e];
      InDegreeAppend(edges[1..], e, n, done);
    }
  }

  lemma {:induction false} InDegreeZero(edges: seq<Edge>, n: NodeId, done: set<NodeId>)
    ensures InDegree(edges, n, done) == 0 <==> forall e | e in edges && e.to == n :: e.from in done
  {
    if edges != [] {
      InDegreeZero(edges[1..], n, done);
      assert edges == [edges[0]] + edges[1..];
    }
  }

  /** Half way through the edges out of a node: the first `i` edges already count it as done. */
  ghost function Remaining(edges: seq<Edge>, i: nat, n: NodeId, done: set<NodeId>, done': set<NodeId>): nat
    requires i <= |edges|
  {
    InDegree(edges[..i], n, done') + InDegree(edges[i..], n, done)
  }

  lemma RemainingStep(edges: seq<Edge>, i: nat, n: NodeId, done: set<NodeId>, v: NodeId)
    requires i < |edges| && v !in done
    ensures Remaining(edges, i, n, done, done + {v})
         == Remaining(edges, i + 1, n, done, done + {v}) + if edges[i].to == n && edges[i].from == v then 1 else 0
  {
    assert edges[..i + 1] == edges[..i] + [edges[i]];
    InDegreeAppend(edges[..i], edges[i], n, done + {v});
    assert edges[i..][1..] == edges[i + 1..];
  }

  // ---- Kahn's algorithm ----

  method AnyOrder(s: set<NodeId>) returns (xs: seq<NodeId>)
    ensures (forall x :: x in xs <==> x in s) && Distinct(xs)
  {
    xs := [];
    var left := s;
    while left != {}
      invariant left <= s && Distinct(xs)
      invariant forall x :: x in xs <==> x in s && x !in left
      decreases |left|
    {
      var x :| x in left;
      xs := xs + [x];
      left := left - {x};
    }
  }

  predicate Distinct(xs: seq<NodeId>) {
    forall i, j | 0 <= i < j < |xs| :: xs[i] != xs[j]
  }

  /** Between pops: the degrees count the edges from nodes not yet popped, and the queue holds the
      nodes that have become free. */
  ghost predicate Counted(w: Workflow, inDegree: map<NodeId, nat>, queue: seq<NodeId>, done: set<NodeId>) {
    && inDegree.Keys == Ids(w) && done <= Ids(w)
    && (forall n | n in Ids(w) :: inDegree[n] == InDegree(w.edges, n, done))
    && Distinct(queue)
    && (forall n :: n in queue <==> n in Ids(w) && n !in done && inDegree[n] == 0)
    && (forall n | n in done :: inDegree[n] == 0)
  }

  ghost predicate Ranked(w: Workflow, rank: map<NodeId, nat>, done: set<NodeId>) {
    && rank.Keys == done
    && (forall n | n in done :: rank[n] < |done|)
    && forall e | e in w.edges && e.to in done :: e.from in done && rank[e.from] < rank[e.to]
  }

  method CountInDegrees(w: Workflow) returns (inDegree: map<NodeId, nat>)
    requires RefersToNodes(w)
    ensures inDegree.Keys == Ids(w) && forall n | n in Ids(w) :: inDegree[n] == InDegree(w.edges, n, {})
  {
    inDegree := map n | n in Ids(w) :: 0;
    for i := 0 to |w.edges|
      invariant inDegree.Keys == Ids(w)
      invariant forall n | n in Ids(w) :: inDegree[n] == InDegree(w.edges[..i], n, {})
    {
      var e := w.edges[i];
      assert w.edges[..i + 1] == w.edges[..i] + [e];
      forall n | n in Ids(w)
        ensures InDegree(w.edges[..i + 1], n, {}) == InDegree(w.edges[..i], n, {}) + if e.to == n then 1 else 0
      {
        InDegreeAppend(w.edges[..i], e, n, {});
      }
      inDegree := inDegree[e.to := inDegree[e.to] + 1];
    }
    assert w.edges[..|w.edges|] == w.edges;
  }

  /** While the edges out of `v` are being taken away, the first `i` of all edges are done. */
  ghost predicate Releasing(w: Workflow, inDegree: map<NodeId, nat>, queue: seq<NodeId>,
                            done: set<NodeId>, v: NodeId, i: nat)
    requires i <= |w.edges|
  {
    && inDegree.Keys == Ids(w) && Distinct(queue)
    && (forall n | n in Ids(w) :: inDegree[n] == Remaining(w.edges, i, n, done, done + {v}))
    && (forall n :: n in queue <==> n in Ids(w) && n !in done && n != v && inDegree[n] == 0)
    && (forall n | n in done + {v} && n in Ids(w) :: InDegree(w.edges, n, done) == 0 && inDegree[n] == 0)
  }

  lemma ReleaseStarts(w: Workflow, inDegree: map<NodeId, nat>, queue: seq<NodeId>, done: set<NodeId>, v: NodeId)
    requires v !in done && v in Ids(w) && Counted(w, inDegree, queue + [v], done)
    ensures Releasing(w, inDegree, queue, done, v, 0)
  {
    var before := queue + [v];
    assert forall i | 0 <= i < |queue| :: before[i] == queue[i];
    assert before[|queue|] == v;
    assert w.edges[..0] == [] && w.edges[0..] == w.edges;
    forall n ensures n in queue <==> n in before && n != v {
      if n in queue {
        var i :| 0 <= i < |queue| && queue[i] == n;
        assert before[i] != before[|queue|];
      }
    }
  }

  lemma ReleaseEnds(w: Workflow, inDegree: map<NodeId, nat>, queue: seq<NodeId>, done: set<NodeId>, v: NodeId)
    requires done <= Ids(w) && v in Ids(w) && Releasing(w, inDegree, queue, done, v, |w.edges|)
    ensures Counted(w, inDegree, queue, done + {v})
  {
    assert w.edges[..|w.edges|] == w.edges && w.edges[|w.edges|..] == [];
  }

  /** The degree an edge out of `v` is taken from is positive, and its node neither popped nor queued. */
  lemma EdgeTargetCounted(w: Workflow, inDegree: map<NodeId, nat>, queue: seq<NodeId>, done: set<NodeId>,
                          v: NodeId, i: nat)
    requires RefersToNodes(w) && i < |w.edges| && v !in done && Releasing(w, inDegree, queue, done, v, i)
    requires w.edges[i].from == v
    ensures var to := w.edges[i].to;
      to in inDegree && inDegree[to] > 0 && to != v && to !in done && to !in queue
  {
    assert w.edges[i] in w.edges;
    RemainingStep(w.edges, i, w.edges[i].to, done, v);
    InDegreeZero(w.edges, w.edges[i].to, done);
  }

  function Freed(inDegree: map<NodeId, nat>, queue: seq<NodeId>, to: NodeId): seq<NodeId>
    requires to in inDegree
  {
    if inDegree[to] == 0 then queue + [to] else queue
  }

  lemma ReleaseEdge(w: Workflow, inDegree: map<NodeId, nat>, queue: seq<NodeId>, done: set<NodeId>, v: NodeId, i: nat)
    requires RefersToNodes(w) && i < |w.edges| && v !in done && Releasing(w, inDegree, queue, done, v, i)
    requires w.edges[i].from == v
    requires var to := w.edges[i].to;
      to in inDegree && inDegree[to] > 0 && to != v && to !in done && to !in queue
    ensures var to := w.edges[i].to;
      var less := inDegree[to := inDegree[to] - 1];
      Releasing(w, less, Freed(less, queue, to), done, v, i + 1)
  {
    var to := w.edges[i].to;
    var less := inDegree[to := inDegree[to] - 1];
    forall n | n in Ids(w) ensures less[n] == Remaining(w.edges, i + 1, n, done, done + {v}) {
      RemainingStep(w.edges, i, n, done, v);
    }
    assert less.Keys == Ids(w);
    var longer := Freed(less, queue, to);
    forall n ensures n in longer <==> n in Ids(w) && n !in done && n != v && less[n] == 0 {
      assert n in longer <==> n in queue || (n == to && less[to] == 0);
    }
  }

  lemma ReleaseSkip(w: Workflow, inDegree: map<NodeId, nat>, queue: seq<NodeId>, done: set<NodeId>, v: NodeId, i: nat)
    requires i < |w.edges| && v !in done && Releasing(w, inDegree, queue, done, v, i)
    requires w.edges[i].from != v
    ensures Releasing(w, inDegree, queue, done, v, i + 1)
  {
    forall n | n in Ids(w) ensures inDegree[n] == Remaining(w.edges, i + 1, n, done, done + {v}) {
      RemainingStep(w.edges, i, n, done, v);
    }
  }

  /** Takes the edges out of a popped node. */
  method Release(w: Workflow, v: NodeId, inDegree0: map<NodeId, nat>, queue0: seq<NodeId>, ghost done: set<NodeId>)
    returns (inDegree: map<NodeId, nat>, queue: seq<NodeId>)
    requires RefersToNodes(w) && v !in done && v in Ids(w)
    requires Counted(w, inDegree0, queue0 + [v], done)
    ensures Counted(w, inDegree, queue, done + {v})
  {
    inDegree, queue := inDegree0, queue0;
    ReleaseStarts(w, inDegree, queue, done, v);
    for i := 0 to |w.edges|
      invariant Releasing(w, inDegree, queue, done, v, i)
    {
      var e := w.edges[i];
      if e.from != v {
        ReleaseSkip(w, inDegree, queue, done, v, i);
      } else {
        EdgeTargetCounted(w, inDegree, queue, done, v, i);
        ReleaseEdge(w, inDegree, queue, done, v, i);
        inDegree := inDegree[e.to := inDegree[e.to] - 1];
        if inDegree[e.to] == 0 {
          queue := queue + [e.to];
        }
      }
    }
    ReleaseEnds(w, inDegree, queue, done, v);
  }

  /** A popped node is new and all its predecessors have been popped before it. */
  lemma AllPredecessorsDone(w: Workflow, inDegree: map<NodeId, nat>, queue: seq<NodeId>, done: set<NodeId>, v: NodeId)
    requires Counted(w, inDegree, queue, done) && v in queue
    ensures v in Ids(w) && v !in done
    ensures forall e | e in w.edges && e.to == v :: e.from in done
  {
    InDegreeZero(w.edges, v, done);
  }

  lemma Popped(w: Workflow, rank: map<NodeId, nat>, done: set<NodeId>, v: NodeId)
    requires Ranked(w, rank, done) && v !in done
    requires forall e | e in w.edges && e.to == v :: e.from in done
    ensures Ranked(w, rank[v := |done|], done + {v})
  {
  }

  ghost predicate Popping(w: Workflow, inDegree: map<NodeId, nat>, queue: seq<NodeId>,
                          done: set<NodeId>, rank: map<NodeId, nat>) {
    Counted(w, inDegree, queue, done) && Ranked(w, rank, done)
  }

  lemma PoppingStarts(w: Workflow, inDegree: map<NodeId, nat>, queue: seq<NodeId>)
    requires inDegree.Keys == Ids(w) && Distinct(queue)
    requires forall n | n in Ids(w) :: inDegree[n] == InDegree(w.edges, n, {})
    requires forall n :: n in queue <==> n in Ids(w) && inDegree[n] == 0
    ensures Popping(w, inDegree, queue, {}, map[])
  {
  }

  lemma LastApart(queue: seq<NodeId>)
    requires queue != []
    ensures queue[..|queue| - 1] + [queue[|queue| - 1]] == queue
  {
  }

  lemma PopIsNew(w: Workflow, inDegree: map<NodeId, nat>, queue: seq<NodeId>, done: set<NodeId>,
                 rank: map<NodeId, nat>, v: NodeId)
    requires Popping(w, inDegree, queue + [v], done, rank)
    ensures v in Ids(w) && v !in done && Counted(w, inDegree, queue + [v], done)
    ensures Ranked(w, rank[v := |done|], done + {v}) && |done + {v}| == |done| + 1
    ensures Ids(w) - (done + {v}) < Ids(w) - done
  {
    assert (queue + [v])[|queue|] == v;
    AllPredecessorsDone(w, inDegree, queue + [v], done, v);
    Popped(w, rank, done, v);
  }

  method PopsEveryNode(w: Workflow) returns (all: bool)
    requires RefersToNodes(w)
    ensures all <==> DistinctIds(w) && Acyclic(w)
  {
    var inDegree := CountInDegrees(w);
    var queue := AnyOrder(set n | n in inDegree && inDegree[n] == 0);
    PoppingStarts(w, inDegree, queue);
    var visited := 0;
    ghost var done: set<NodeId>, rank: map<NodeId, nat> := {}, map[];
    while queue != []
      invariant Popping(w, inDegree, queue, done, rank) && visited == |done|
      decreases Ids(w) - done
    {
      var v := queue[|queue| - 1];
      var rest := queue[..|queue| - 1];
      LastApart(queue);
      visited := visited + 1;
      PopIsNew(w, inDegree, rest, done, rank, v);
      inDegree, queue := Release(w, v, inDegree, rest, done);
      rank := rank[v := |done|];
      done := done + {v};
    }
    IdCount(w.nodes);
    Outcome(w, inDegree, done, rank);
    all := visited == |w.nodes|;
  }

  lemma LeftHavePredecessors(w: Workflow, inDegree: map<NodeId, nat>, done: set<NodeId>, n: NodeId)
    requires RefersToNodes(w) && Counted(w, inDegree, [], done)
    requires n in Ids(w) && n !in done
    ensures HasPredecessorIn(w, Ids(w) - done, n)
  {
    var none: seq<NodeId> := [];
    assert n !in none;
    InDegreeZero(w.edges, n, done);
    var e :| e in w.edges && e.to == n && e.from !in done;
    assert HasEdge(w, e.from, n);
  }

  /** When nothing is free any more, the popped nodes are all nodes unless some lie on a cycle. */
  lemma Outcome(w: Workflow, inDegree: map<NodeId, nat>, done: set<NodeId>, rank: map<NodeId, nat>)
    requires RefersToNodes(w) && Counted(w, inDegree, [], done) && Ranked(w, rank, done)
    ensures Acyclic(w) <==> |done| == |Ids(w)|
    ensures |done| <= |Ids(w)|
  {
    var left := Ids(w) - done;
    assert Ids(w) == done + left;
    assert |Ids(w)| == |done| + |left|;
    if left == {} {
      assert done == Ids(w);
      RankedIsAcyclic(w, rank);
    } else {
      forall n {:trigger HasPredecessorIn(w, left, n)} | n in left ensures HasPredecessorIn(w, left, n) {
        LeftHavePredecessors(w, inDegree, done, n);
      }
      PredecessorsMakeCycle(w, left);
    }
  }

  method Validate(w: Workflow) returns (r: Result<(), Rejection>)
    ensures r.Ok? <==> WellFormed(w)
    ensures r.Err? ==> Justified(w, r.error)
  {
    if w.nodes == [] {
      return Err(NoNodes);
    }
    if w.entryNodes == [] {
      return Err(NoEntryNodes);
    }
    var ids := Ids(w);
    for i := 0 to |w.entryNodes|
      invariant forall k | 0 <= k < i :: w.entryNodes[k] in ids
    {
      if w.entryNodes[i] !in ids {
        return Err(EntryNotFound(w.entryNodes[i]));
      }
    }
    for i := 0 to |w.exitNodes|
      invariant forall k | 0 <= k < i :: w.exitNodes[k] in ids
    {
      if w.exitNodes[i] !in ids {
        return Err(ExitNotFound(w.exitNodes[i]));
      }
    }
    for i := 0 to |w.edges|
      invariant forall k | 0 <= k < i :: Joins(w.edges[k], ids)
    {
      var e := w.edges[i];
      assert e in w.edges && (Joins(e, ids) || FirstBroken(w.edges, ids, e));
      if e.from !in ids {
        return Err(EdgeSourceNotFound(e.from));
      }
      if e.to !in ids {
        return Err(EdgeTargetNotFound(e.to));
      }
    }
    var all := PopsEveryNode(w);
    r := if all then Ok(()) else Err(Cycle);
  }
}
