/** The round a node can run in, which neither agents nor conditions can change. */
module WorkflowLevels {
  import opened WorkflowGraph
  import opened MessageTemplate
  import opened WorkflowValidation
  import opened WorkflowExecution
  import opened WorkflowSchedules

  predicate HasInEdge(w: Workflow, id: NodeId) {
    exists e | e in w.edges :: e.to == id
  }

  /** The nodes with an in-edge all of whose sources are in `done`. */
  function Followers(w: Workflow, done: set<NodeId>): set<NodeId> {
    set id | id in Ids(w) && HasInEdge(w, id) && SourcesIn(w, id, done)
  }

  /** The nodes that have run after `k` rounds if every condition is met. */
  function CanRun(w: Workflow, k: nat): set<NodeId> {
    if k == 0 then {}
    else if k == 1 then Elements(w.entryNodes)
    else CanRun(w, k - 1) + Followers(w, CanRun(w, k - 1))
  }

  predicate Level(w: Workflow, id: NodeId, k: nat) {
    id in CanRun(w, k + 1) && id !in CanRun(w, k)
  }

  lemma {:induction false} CanStillRun(w: Workflow, j: nat, k: nat)
    requires j <= k
    ensures CanRun(w, j) <= CanRun(w, k)
    decreases k
  {
    if j < k { CanStillRun(w, j, k - 1); }
  }

  /** The level of a node that can have run after `k` rounds. */
  lemma {:induction false} LevelOf(w: Workflow, id: NodeId, k: nat) returns (j: nat)
    requires id in CanRun(w, k)
    ensures j < k && Level(w, id, j)
  {
    j := k - 1;
    if id in CanRun(w, k - 1) { j := LevelOf(w, id, k - 1); }
  }

  // ---- every run ----

  lemma ReadyFollows(job: Job, outputs: Outputs, done: set<NodeId>, id: NodeId)
    requires id in Ready(job, outputs) && outputs.Keys <= done
    ensures id in Followers(job.w, done)
  {
    assert SourcesIn(job.w, id, done);
  }

  lemma RoundCanRun(job: Job, k: nat, before: Outputs, id: NodeId)
    requires before.Keys <= CanRun(job.w, k) && id in Round(job, k, before)
    ensures id in CanRun(job.w, k + 1)
  {
    if k > 0 { ReadyFollows(job, before, CanRun(job.w, k), id); }
  }

  lemma RoundAddsWithin(job: Job, trace: seq<Outputs>, k: nat, some: set<NodeId>, more: set<NodeId>)
    requires IsRun(job, trace) && k + 1 < |trace|
    requires trace[k].Keys <= some <= more && Round(job, k, trace[k]) <= more
    ensures trace[k + 1].Keys <= more
  {
    StepAdds(job, trace, k);
  }

  lemma {:induction false} RanCanRun(job: Job, trace: seq<Outputs>, k: nat)
    requires IsRun(job, trace) && k < |trace|
    ensures trace[k].Keys <= CanRun(job.w, k)
  {
    if k > 0 {
      RanCanRun(job, trace, k - 1);
      CanStillRun(job.w, k - 1, k);
      RoundsCanRun(job, k - 1, trace[k - 1]);
      RoundAddsWithin(job, trace, k - 1, CanRun(job.w, k - 1), CanRun(job.w, k));
    }
  }

  lemma RoundsCanRun(job: Job, k: nat, before: Outputs)
    requires before.Keys <= CanRun(job.w, k)
    ensures Round(job, k, before) <= CanRun(job.w, k + 1)
  {
    forall id | id in Round(job, k, before) ensures id in CanRun(job.w, k + 1) {
      RoundCanRun(job, k, before, id);
    }
  }

  /** A node that is ready now was ready, or had run, as soon as its sources had run. */
  lemma ReadyEarlier(job: Job, early: Outputs, late: Outputs, id: NodeId)
    requires id in Ready(job, late) && SourcesIn(job.w, id, early.Keys)
    requires forall n | n in early :: n in late && late[n] == early[n]
    ensures id in early || id in Ready(job, early)
  {
    var e :| e in job.w.edges && e.to == id
             && ConditionMet(job, e.condition, if e.from in late then late[e.from] else "");
    assert e.from in early;
    assert ConditionMet(job, e.condition, if e.from in early then early[e.from] else "");
    assert SomeConditionMet(job, id, early);
  }

  /** What has run by `k` and could have run by `i` had run by then. */
  ghost predicate InTime(w: Workflow, trace: seq<Outputs>, k: nat, i: nat)
    requires i <= k < |trace|
  {
    forall id | id in trace[k] && id in CanRun(w, i) :: id in trace[i]
  }

  /** The sources of a node of level `j` had all run after `j` rounds. */
  lemma SourcesInTime(job: Job, trace: seq<Outputs>, k: nat, j: nat, id: NodeId)
    requires 0 < j <= k < |trace| && Level(job.w, id, j) && SourcesIn(job.w, id, trace[k].Keys)
    requires InTime(job.w, trace, k, j)
    ensures SourcesIn(job.w, id, trace[j].Keys)
  {
    assert id in Followers(job.w, CanRun(job.w, j));
  }

  /** A new node of round `k` could not have run before it. */
  lemma NewIsLate(job: Job, trace: seq<Outputs>, k: nat, j: nat, id: NodeId)
    requires IsRun(job, trace) && k + 1 < |trace| && id in Round(job, k, trace[k]) && id !in trace[k]
    requires j < k && InTime(job.w, trace, k, j)
    ensures !Level(job.w, id, j)
  {
    if Level(job.w, id, j) {
      StepAdds(job, trace, j);
      Kept(job, trace, j, k);
      Kept(job, trace, j + 1, k);
      if j > 0 {
        SourcesInTime(job, trace, k, j, id);
        ReadyEarlier(job, trace[j], trace[k], id);
      }
    }
  }

  lemma OneRoundLater(job: Job, trace: seq<Outputs>, k: nat, i: nat)
    requires IsRun(job, trace) && k + 1 < |trace| && i <= k
    requires forall j: nat | j <= k :: InTime(job.w, trace, k, j)
    ensures InTime(job.w, trace, k + 1, i)
  {
    StepAdds(job, trace, k);
    forall id | id in trace[k + 1] && id in CanRun(job.w, i) ensures id in trace[i] {
      if id !in trace[k] {
        var j := LevelOf(job.w, id, i);
        NewIsLate(job, trace, k, j, id);
      } else {
        assert InTime(job.w, trace, k, i);
      }
    }
  }

  lemma {:induction false} RanInTime(job: Job, trace: seq<Outputs>, k: nat)
    requires IsRun(job, trace) && k < |trace|
    ensures forall i: nat | i <= k :: InTime(job.w, trace, k, i)
  {
    if k > 0 {
      RanInTime(job, trace, k - 1);
      forall i: nat | i < k ensures InTime(job.w, trace, k, i) {
        OneRoundLater(job, trace, k - 1, i);
      }
    }
  }

  /** In every run, whatever agents and conditions say, a node of round `k` has level `k`. */
  lemma RunFollowsLevels(job: Job, trace: seq<Outputs>, k: nat, id: NodeId)
    requires IsRun(job, trace) && k + 1 < |trace| && id in Round(job, k, trace[k])
    ensures Level(job.w, id, k)
  {
    RanCanRun(job, trace, k);
    RoundCanRun(job, k, trace[k], id);
    if id in CanRun(job.w, k) {
      RoundFollowsSources(job, trace, k, id);
      RanInTime(job, trace, k);
      var j := LevelOf(job.w, id, k);
      assert InTime(job.w, trace, k, j);
      NewIsLate(job, trace, k, j, id);
    }
  }

  // ---- the sequential meaning ----

  lemma RoundHasLevel(job: Job, k: nat, id: NodeId)
    requires WellFormed(job.w) && id in Round(job, k, After(job, k))
    ensures Level(job.w, id, k)
  {
    var full := SequentialReaches(job, k);
    RunFollowsLevels(job, full, k, id);
  }

  /** Every condition is met by every output. */
  ghost predicate AlwaysMet(job: Job) {
    forall e, output | e in job.w.edges :: ConditionMet(job, e.condition, output)
  }

  lemma NextKeys(job: Job, k: nat, before: Outputs)
    ensures Next(job, k, before).Keys == before.Keys + Round(job, k, before)
  {
  }

  lemma {:induction false} ReachesAll(job: Job, k: nat)
    requires WellFormed(job.w) && AlwaysMet(job)
    ensures After(job, k).Keys == CanRun(job.w, k)
  {
    if k > 0 {
      ReachesAll(job, k - 1);
      NextKeys(job, k - 1, After(job, k - 1));
      if k > 1 { RoundReaches(job, After(job, k - 1)); }
    }
  }

  lemma RoundReaches(job: Job, before: Outputs)
    requires WellFormed(job.w) && AlwaysMet(job)
    ensures before.Keys + Ready(job, before) == before.Keys + Followers(job.w, before.Keys)
  {
    forall id | id in Ready(job, before) ensures id in Followers(job.w, before.Keys) {
      ReadyFollows(job, before, before.Keys, id);
    }
    forall id | id in Followers(job.w, before.Keys) && id !in before ensures id in Ready(job, before) {
      var e :| e in job.w.edges && e.to == id;
      assert e.from in before;
      assert ConditionMet(job, e.condition, if e.from in before then before[e.from] else "");
      assert SomeConditionMet(job, id, before);
    }
  }


  /** If every condition is met, each round of the sequential meaning runs a whole level. */
  lemma LevelIsRound(job: Job, k: nat, id: NodeId)
    requires WellFormed(job.w) && AlwaysMet(job) && Level(job.w, id, k)
    ensures id in Round(job, k, After(job, k))
  {
    ReachesAll(job, k);
    ReachesAll(job, k + 1);
    NextKeys(job, k, After(job, k));
  }
}
