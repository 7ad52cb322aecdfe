/** Workflows without conditions: which round every node runs in, and that a result is reached. */
module WorkflowPaths {
  import opened WorkflowGraph
  import opened MessageTemplate
  import opened WorkflowValidation
  import opened WorkflowExecution

  ghost predicate EndsPath(w: Workflow, id: NodeId, edges: nat) {
    exists p: seq<NodeId> :: IsPath(w, p) && |p| == edges + 1 && p[edges] == id
  }

  lemma PathThroughSource(w: Workflow, id: NodeId, k: nat)
    ensures EndsPath(w, id, k + 1) <==> exists e | e in w.edges && e.to == id :: EndsPath(w, e.from, k)
  {
    if EndsPath(w, id, k + 1) {
      var p: seq<NodeId> :| IsPath(w, p) && |p| == k + 2 && p[k + 1] == id;
      assert HasEdge(w, p[k], p[k + 1]);
      var e :| e in w.edges && e.from == p[k] && e.to == id;
      var q := p[..k + 1];
      assert IsPath(w, q) && |q| == k + 1 && q[k] == e.from;
      assert EndsPath(w, e.from, k);
    }
    if e :| e in w.edges && e.to == id && EndsPath(w, e.from, k) {
      var q: seq<NodeId> :| IsPath(w, q) && |q| == k + 1 && q[k] == e.from;
      var p := q + [id];
      assert HasEdge(w, q[k], id);
      assert IsPath(w, p) && |p| == k + 2 && p[k + 1] == id;
    }
  }

  lemma ShorterPath(w: Workflow, id: NodeId, k: nat)
    requires EndsPath(w, id, k + 1)
    ensures EndsPath(w, id, k)
  {
    var p: seq<NodeId> :| IsPath(w, p) && |p| == k + 2 && p[k + 1] == id;
    var q := p[1..];
    assert forall i, j | 0 <= i < j < |q| && j == i + 1 :: HasEdge(w, q[i], q[j]) by {
      forall i, j | 0 <= i < j < |q| && j == i + 1 ensures HasEdge(w, q[i], q[j]) {
        assert HasEdge(w, p[i + 1], p[j + 1]);
      }
    }
    assert IsPath(w, q) && |q| == k + 1 && q[k] == id;
  }

  predicate NoInEdge(w: Workflow, id: NodeId) {
    forall e | e in w.edges :: e.to != id
  }

  /** Entry nodes are the nodes without in-edges, and no edge is conditional. */
  ghost predicate Unconditional(w: Workflow) {
    && (forall e | e in w.edges :: e.condition == Always)
    && (forall id {:trigger NoInEdge(w, id)} :: id in w.entryNodes <==> id in Ids(w) && NoInEdge(w, id))
  }

  lemma NoPathIntoEntry(w: Workflow, id: NodeId)
    requires Unconditional(w) && id in Ids(w)
    ensures id in w.entryNodes <==> !EndsPath(w, id, 1)
  {
    PathThroughSource(w, id, 0);
    assert id in w.entryNodes <==> NoInEdge(w, id);
    forall e | e in w.edges ensures EndsPath(w, e.from, 0) {
      assert IsPath(w, [e.from]);
    }
  }

  lemma InEdgeIsEnough(job: Job, id: NodeId, outputs: Outputs)
    requires Unconditional(job.w) && id in Ids(job.w) && id !in job.w.entryNodes
    ensures SomeConditionMet(job, id, outputs)
  {
    assert !NoInEdge(job.w, id);
    var e :| e in job.w.edges && e.to == id;
    assert ConditionMet(job, e.condition, if e.from in outputs then outputs[e.from] else "");
  }

  lemma {:induction false} EntryNodesFirst(job: Job, trace: seq<Outputs>, k: nat)
    requires IsRun(job, trace) && 0 < k < |trace|
    ensures Elements(job.w.entryNodes) <= trace[k].Keys
  {
    StepAdds(job, trace, 0);
    Kept(job, trace, 1, k);
  }

  /** One more round, for a node that is not an entry node: it has run once all its sources have. */
  lemma NextRound(job: Job, trace: seq<Outputs>, k: nat, id: NodeId)
    requires Unconditional(job.w) && IsRun(job, trace) && 0 < k < |trace| - 1
    requires id in Ids(job.w) && id !in job.w.entryNodes
    requires id in trace[k] ==> SourcesIn(job.w, id, trace[k].Keys)
    ensures id in trace[k + 1] <==> SourcesIn(job.w, id, trace[k].Keys)
  {
    StepAdds(job, trace, k);
    InEdgeIsEnough(job, id, trace[k]);
    assert id in Ready(job, trace[k]) <==> IsReady(job, id, trace[k]);
  }

  lemma FirstRound(job: Job, trace: seq<Outputs>, id: NodeId)
    requires IsRun(job, trace) && 1 < |trace|
    ensures id in trace[1] <==> id in job.w.entryNodes
  {
    StepAdds(job, trace, 0);
  }

  /** After `k` rounds exactly the nodes at which no path of `k` edges ends have run. */
  lemma {:induction false} RanIffNoLongPath(job: Job, trace: seq<Outputs>, k: nat, id: NodeId)
    requires RefersToNodes(job.w) && Unconditional(job.w)
    requires IsRun(job, trace) && k < |trace| && id in Ids(job.w)
    ensures id in trace[k] <==> !EndsPath(job.w, id, k)
    decreases k, 0
  {
    if k == 0 {
      assert IsPath(job.w, [id]);
    } else if k == 1 {
      FirstRound(job, trace, id);
      NoPathIntoEntry(job.w, id);
    } else if id in job.w.entryNodes {
      EntryNodesFirst(job, trace, k);
      NoPathIntoEntry(job.w, id);
      NoLongerPath(job.w, id, 1, k);
    } else {
      SourcesRanIffNoLongPath(job, trace, k - 1, id);
      RanIffNoLongPath(job, trace, k - 1, id);
      if id in trace[k - 1] { NoLongerPath(job.w, id, k - 1, k); }
      NextRound(job, trace, k - 1, id);
    }
  }

  lemma {:induction false} SourcesRanIffNoLongPath(job: Job, trace: seq<Outputs>, k: nat, id: NodeId)
    requires RefersToNodes(job.w) && Unconditional(job.w)
    requires IsRun(job, trace) && k < |trace|
    ensures SourcesIn(job.w, id, trace[k].Keys) <==> !EndsPath(job.w, id, k + 1)
    decreases k, 1
  {
    PathThroughSource(job.w, id, k);
    if EndsPath(job.w, id, k + 1) {
      var e :| e in job.w.edges && e.to == id && EndsPath(job.w, e.from, k);
      RanIffNoLongPath(job, trace, k, e.from);
    } else {
      forall e | e in job.w.edges && e.to == id ensures e.from in trace[k] {
        RanIffNoLongPath(job, trace, k, e.from);
      }
    }
  }

  lemma {:induction false} NoLongerPath(w: Workflow, id: NodeId, k: nat, n: nat)
    requires k <= n && !EndsPath(w, id, k)
    ensures !EndsPath(w, id, n)
    decreases n
  {
    if k < n {
      NoLongerPath(w, id, k, n - 1);
      if EndsPath(w, id, n) { ShorterPath(w, id, n - 1); }
    }
  }

  lemma LeftHasPredecessor(job: Job, trace: seq<Outputs>, id: NodeId)
    requires WellFormed(job.w) && Unconditional(job.w) && Complete(job, trace)
    requires id in Ids(job.w) && id !in trace[|trace| - 1]
    ensures HasPredecessorIn(job.w, Ids(job.w) - trace[|trace| - 1].Keys, id)
  {
    var final := trace[|trace| - 1];
    EntryNodesFirst(job, trace, |trace| - 1);
    InEdgeIsEnough(job, id, final);
    assert id !in Ready(job, final);
    var e :| e in job.w.edges && e.to == id && e.from !in final;
    assert HasEdge(job.w, e.from, id);
  }

  /** Every node is run. */
  lemma EveryNodeRuns(job: Job, trace: seq<Outputs>)
    requires WellFormed(job.w) && Unconditional(job.w) && Complete(job, trace)
    ensures Ids(job.w) <= trace[|trace| - 1].Keys
  {
    var left := Ids(job.w) - trace[|trace| - 1].Keys;
    forall id {:trigger HasPredecessorIn(job.w, left, id)} | id in left ensures HasPredecessorIn(job.w, left, id) {
      LeftHasPredecessor(job, trace, id);
    }
    if left != {} {
      PredecessorsMakeCycle(job.w, left);
    }
    assert left == {};
    assert forall id | id in Ids(job.w) :: id in left || id in trace[|trace| - 1].Keys;
  }

  /** A node runs in the round given by the longest path that ends at it. */
  lemma RoundIsLongestPath(job: Job, trace: seq<Outputs>, k: nat, id: NodeId)
    requires WellFormed(job.w) && Unconditional(job.w) && Complete(job, trace)
    requires k < |trace| - 1 && id in Ids(job.w)
    ensures id in Round(job, k, trace[k]) <==> EndsPath(job.w, id, k) && !EndsPath(job.w, id, k + 1)
  {
    RanIffNoLongPath(job, trace, k, id);
    RanIffNoLongPath(job, trace, k + 1, id);
    StepAdds(job, trace, k);
    if id in Round(job, k, trace[k]) {
      RoundFollowsSources(job, trace, k, id);
    }
  }

  /** An unconditional workflow always ends with a result, whatever its agents answer. */
  lemma UnconditionalSucceeds(job: Job, trace: seq<Outputs>)
    requires WellFormed(job.w) && Unconditional(job.w) && Complete(job, trace)
    ensures FinalResult(job.w, trace[|trace| - 1]).Ok?
  {
    var w, n := job.w, |trace| - 1;
    EveryNodeRuns(job, trace);
    GatheredNone(ExitIds(w), trace[n]);
    if w.exitNodes != [] {
      assert w.exitNodes[0] in w.exitNodes;
    } else {
      var id := LastRoundHasLeaf(job, trace);
      LeavesAreLeaves(w, w.nodes, id);
    }
  }

  /** A successor of a node of the last round would have needed one more. */
  lemma LastRoundHasNoSuccessor(job: Job, trace: seq<Outputs>, id: NodeId, e: Edge)
    requires RefersToNodes(job.w) && Unconditional(job.w) && IsRun(job, trace) && |trace| > 1
    requires id in Ids(job.w) && id !in trace[|trace| - 2]
    requires e in job.w.edges && e.to in trace[|trace| - 1]
    ensures e.from != id
  {
    var n := |trace| - 1;
    RanIffNoLongPath(job, trace, n, e.to);
    if e.from == id {
      RanIffNoLongPath(job, trace, n - 1, id);
      PathThroughSource(job.w, e.to, n - 1);
    }
  }

  lemma NoEdgeFromLastRound(job: Job, trace: seq<Outputs>, id: NodeId, e: Edge)
    requires WellFormed(job.w) && Unconditional(job.w) && Complete(job, trace)
    requires id in Ids(job.w) && id !in trace[|trace| - 2] && e in job.w.edges
    ensures e.from != id
  {
    EveryNodeRuns(job, trace);
    assert e.to in Ids(job.w);
    LastRoundHasNoSuccessor(job, trace, id, e);
  }

  lemma LastRoundIsNew(job: Job, trace: seq<Outputs>) returns (id: NodeId)
    requires RefersToNodes(job.w) && Complete(job, trace)
    ensures id in Ids(job.w) && id !in trace[|trace| - 2]
  {
    var n := |trace| - 2;
    StepAdds(job, trace, n);
    id :| id in Round(job, n, trace[n]);
    RoundFollowsSources(job, trace, n, id);
  }

  lemma LastRoundHasLeaf(job: Job, trace: seq<Outputs>) returns (id: NodeId)
    requires WellFormed(job.w) && Unconditional(job.w) && Complete(job, trace)
    ensures id in Ids(job.w) && forall e | e in job.w.edges :: e.from != id
  {
    id := LastRoundIsNew(job, trace);
    forall e | e in job.w.edges ensures e.from != id {
      NoEdgeFromLastRound(job, trace, id, e);
    }
  }
}
