/** What does not depend on the schedule: when all executions of a workflow record the same outputs. */
module WorkflowSchedules {
  import opened WorkflowGraph
  import opened MessageTemplate
  import opened WorkflowValidation
  import opened WorkflowExecution

  // ---- the sequential meaning ----

  /** What some nodes record when each of them has read `before`. */
  function RoundOutputs(produce: Producer, ran: set<NodeId>, before: Outputs): Outputs {
    map id | id in ran :: produce(id, before)
  }

  /** The outputs after one more round of the sequential meaning. */
  function Next(job: Job, k: nat, before: Outputs): Outputs {
    before + RoundOutputs(ProducerOf(job), Round(job, k, before), before)
  }

  /** The outputs after `k` rounds when each round reads only what was recorded before it. */
  function After(job: Job, k: nat): Outputs {
    if k == 0 then map[]
    else Next(job, k - 1, After(job, k - 1))
  }

  // ---- a node that does not notice the others of its round ----

  /** `id` records the same whether or not the nodes of `done` have recorded their outputs. */
  predicate Unmoved(produce: Producer, before: Outputs, id: NodeId, done: set<NodeId>) {
    produce(id, before + RoundOutputs(produce, done, before)) == produce(id, before)
  }

  /** Can `done` be recorded when a task of `id` starts? `id` itself only if it has a second task. */
  predicate MayPrecede(tasks: multiset<NodeId>, id: NodeId, done: set<NodeId>) {
    id in tasks && (forall x | x in done :: x in tasks) && (id in done ==> tasks[id] > 1)
  }

  ghost predicate RoundFree(produce: Producer, tasks: multiset<NodeId>, before: Outputs) {
    forall id, done | MayPrecede(tasks, id, done) :: Unmoved(produce, before, id, done)
  }

  ghost predicate RoundFreeAt(job: Job, k: nat) {
    RoundFree(ProducerOf(job), Tasks(job, k, After(job, k)), After(job, k))
  }

  /** In no round of the sequential meaning does it matter which others have been recorded. */
  ghost predicate OrderFree(job: Job) {
    forall k: nat :: RoundFreeAt(job, k)
  }

  // ---- one round ----

  ghost predicate AlikeAt(produce: Producer, before: Outputs, s: Schedule, i: nat)
    requires Timely(s) && i < |s.order|
  {
    produce(s.order[i], Recording(produce, before, s, s.starts[i])) == produce(s.order[i], before)
  }

  lemma OneMoreRecorded(produce: Producer, before: Outputs, done: set<NodeId>, id: NodeId)
    ensures (before + RoundOutputs(produce, done, before))[id := produce(id, before)]
         == before + RoundOutputs(produce, done + {id}, before)
  {
  }

  /** If every task of a prefix records what it would have recorded first, the prefix leaves that. */
  lemma {:induction false} RecordingAlike(produce: Producer, before: Outputs, s: Schedule, i: nat)
    requires Timely(s) && i <= |s.order| && forall j: nat | j < i :: AlikeAt(produce, before, s, j)
    ensures Recording(produce, before, s, i) == before + RoundOutputs(produce, Elements(s.order[..i]), before)
    decreases i
  {
    if i == 0 {
      assert RoundOutputs(produce, Elements(s.order[..0]), before) == map[];
    } else {
      RecordingAlike(produce, before, s, i - 1);
      assert AlikeAt(produce, before, s, i - 1);
      OneMoreRecorded(produce, before, Elements(s.order[..i - 1]), s.order[i - 1]);
      assert Elements(s.order[..i]) == Elements(s.order[..i - 1]) + {s.order[i - 1]};
      RecordingStep(produce, before, s, i);
    }
  }

  lemma Repeats(xs: seq<NodeId>, a: nat, b: nat)
    requires a < b < |xs| && xs[a] == xs[b]
    ensures multiset(xs)[xs[b]] > 1
  {
    assert xs == xs[..b] + [xs[b]] + xs[b + 1..];
    assert xs[a] == xs[..b][a] && xs[a] in multiset(xs[..b]);
  }

  lemma EarlierMayPrecede(s: Schedule, tasks: multiset<NodeId>, i: nat)
    requires ScheduleOf(s, tasks) && i < |s.order|
    ensures MayPrecede(tasks, s.order[i], Elements(s.order[..s.starts[i]]))
  {
    var id, done := s.order[i], Elements(s.order[..s.starts[i]]);
    assert id in multiset(s.order);
    forall x | x in done ensures x in tasks {
      assert x in s.order && x in multiset(s.order);
    }
    if id in done {
      var a :| 0 <= a < s.starts[i] && s.order[a] == id;
      Repeats(s.order, a, i);
    }
  }

  lemma {:induction false} AllAlike(produce: Producer, tasks: multiset<NodeId>, before: Outputs, s: Schedule, i: nat)
    requires ScheduleOf(s, tasks) && RoundFree(produce, tasks, before) && i <= |s.order|
    ensures forall j: nat | j < i :: AlikeAt(produce, before, s, j)
    decreases i
  {
    if i > 0 {
      var j := i - 1;
      AllAlike(produce, tasks, before, s, j);
      RecordingAlike(produce, before, s, s.starts[j]);
      EarlierMayPrecede(s, tasks, j);
      assert Unmoved(produce, before, s.order[j], Elements(s.order[..s.starts[j]]));
    }
  }

  lemma OrderElements(job: Job, k: nat, before: Outputs, order: seq<NodeId>)
    requires multiset(order) == Tasks(job, k, before)
    ensures Elements(order) == Round(job, k, before)
  {
    forall id ensures id in Elements(order) <==> id in Round(job, k, before) {
      TasksAreRound(job, k, before, id);
      assert id in order <==> id in multiset(order);
    }
  }

  lemma LayerDetermined(job: Job, k: nat, before: Outputs, after: Outputs)
    requires Advances(job, k, before, after) && RoundFree(ProducerOf(job), Tasks(job, k, before), before)
    ensures after == before + RoundOutputs(ProducerOf(job), Round(job, k, before), before)
  {
    var s :| ScheduleOf(s, Tasks(job, k, before)) && after == Recording(ProducerOf(job), before, s, |s.order|);
    AllAlike(ProducerOf(job), Tasks(job, k, before), before, s, |s.order|);
    RecordingAlike(ProducerOf(job), before, s, |s.order|);
    assert s.order[..|s.order|] == s.order;
    OrderElements(job, k, before, s.order);
  }

  // ---- every run ----

  lemma CanonicalStep(job: Job, trace: seq<Outputs>, k: nat)
    requires IsRun(job, trace) && k + 1 < |trace|
    requires OrderFree(job) && trace[k] == After(job, k)
    ensures trace[k + 1] == After(job, k + 1)
  {
    assert AdvancesAt(job, trace, k) && RoundFreeAt(job, k);
    LayerDetermined(job, k, trace[k], trace[k + 1]);
  }

  lemma {:induction false} RunIsCanonical(job: Job, trace: seq<Outputs>, k: nat)
    requires IsRun(job, trace) && k < |trace| && OrderFree(job)
    ensures trace[k] == After(job, k)
    decreases k
  {
    if k > 0 {
      RunIsCanonical(job, trace, k - 1);
      CanonicalStep(job, trace, k - 1);
    }
  }

  /** Any two executions record the same outputs, round for round. */
  lemma ScheduleIndependence(job: Job, trace: seq<Outputs>, trace': seq<Outputs>)
    requires OrderFree(job) && Complete(job, trace) && Complete(job, trace')
    ensures trace == trace'
  {
    NotLonger(job, trace, trace');
    NotLonger(job, trace', trace);
    forall k: nat | k < |trace| ensures trace[k] == trace'[k] {
      RunIsCanonical(job, trace, k);
      RunIsCanonical(job, trace', k);
    }
  }

  lemma NotLonger(job: Job, trace: seq<Outputs>, trace': seq<Outputs>)
    requires OrderFree(job) && Complete(job, trace) && Complete(job, trace')
    ensures |trace| <= |trace'|
  {
    var last := |trace'| - 1;
    if |trace'| < |trace| {
      RunIsCanonical(job, trace, last);
      RunIsCanonical(job, trace', last);
      StepAdds(job, trace, last);
    }
  }

  // ---- schedules that can be chosen ----

  lemma {:induction false} Arranged(ms: multiset<NodeId>) returns (xs: seq<NodeId>)
    ensures multiset(xs) == ms
    decreases |ms|
  {
    if ms == multiset{} {
      xs := [];
    } else {
      var x :| x in ms;
      xs := Arranged(ms - multiset{x});
      xs := xs + [x];
    }
  }

  function Zeros(n: nat): (zs: seq<nat>)
    ensures |zs| == n && forall i | 0 <= i < n :: zs[i] == 0
  {
    seq(n, i => 0)
  }

  /** Everyone reads first, except that the last to be recorded starts after `late` others. */
  function LastStarts(order: seq<NodeId>, late: nat): Schedule
    requires order != []
  {
    Schedule(order, Zeros(|order| - 1) + [late])
  }

  lemma LastReadsLate(produce: Producer, before: Outputs, order: seq<NodeId>, late: nat)
    requires order != [] && late < |order|
    ensures var s, n, id := LastStarts(order, late), |order| - 1, order[|order| - 1];
      && Timely(s)
      && Recording(produce, before, s, |order|)
         == (before + RoundOutputs(produce, Elements(order[..n]), before))[id :=
              produce(id, before + RoundOutputs(produce, Elements(order[..late]), before))]
  {
    var s, n := LastStarts(order, late), |order| - 1;
    assert Timely(s);
    forall j: nat | j < n ensures AlikeAt(produce, before, s, j) {
    }
    RecordingAlike(produce, before, s, n);
    RecordingAlike(produce, before, s, late);
    RecordingStep(produce, before, s, n + 1);
  }

  lemma SequentialSchedule(produce: Producer, before: Outputs, order: seq<NodeId>) returns (s: Schedule)
    requires order != []
    ensures Timely(s) && s.order == order
    ensures Recording(produce, before, s, |order|) == before + RoundOutputs(produce, Elements(order), before)
  {
    var n := |order| - 1;
    s := LastStarts(order, 0);
    LastReadsLate(produce, before, order, 0);
    NoOutputs(produce, before);
    assert Elements(order[..0]) == {};
    OneMoreRecorded(produce, before, Elements(order[..n]), order[n]);
    assert order == order[..n] + [order[n]];
    assert Elements(order) == Elements(order[..n]) + {order[n]};
  }

  lemma NoOutputs(produce: Producer, before: Outputs)
    ensures before + RoundOutputs(produce, {}, before) == before
  {
    assert RoundOutputs(produce, {}, before) == map[];
  }

  lemma LateSchedule(produce: Producer, tasks: multiset<NodeId>, before: Outputs, id: NodeId, done: set<NodeId>)
    returns (s: Schedule)
    requires MayPrecede(tasks, id, done)
    ensures ScheduleOf(s, tasks)
    ensures var after := Recording(produce, before, s, |s.order|);
      id in after && after[id] == produce(id, before + RoundOutputs(produce, done, before))
  {
    var first := Arranged(multiset(done));
    var others := Arranged(tasks - multiset(done) - multiset{id});
    var order := first + others + [id];
    FitsTogether(tasks, id, done);
    s := LastStarts(order, |first|);
    LastReadsLate(produce, before, order, |first|);
    assert order[..|first|] == first;
    ArrangedElements(first, done);
  }

  lemma ArrangedElements(xs: seq<NodeId>, done: set<NodeId>)
    requires multiset(xs) == multiset(done)
    ensures Elements(xs) == done
  {
    forall x ensures x in Elements(xs) <==> x in done {
      assert x in xs <==> x in multiset(xs);
    }
  }

  lemma Scheduled(job: Job, k: nat, before: Outputs, s: Schedule)
    requires ScheduleOf(s, Tasks(job, k, before)) && Round(job, k, before) != {}
    ensures Advances(job, k, before, Recording(ProducerOf(job), before, s, |s.order|))
  {
  }

  /** The round in which everyone reads first. */
  lemma SequentialRound(job: Job, k: nat, before: Outputs)
    requires Round(job, k, before) != {}
    ensures Advances(job, k, before, before + RoundOutputs(ProducerOf(job), Round(job, k, before), before))
  {
    var order := Arranged(Tasks(job, k, before));
    OrderElements(job, k, before, order);
    var s := SequentialSchedule(ProducerOf(job), before, order);
    Scheduled(job, k, before, s);
  }

  /** A round in which `done` has been recorded when `id` starts. */
  lemma LateRound(job: Job, k: nat, before: Outputs, id: NodeId, done: set<NodeId>) returns (after: Outputs)
    requires MayPrecede(Tasks(job, k, before), id, done)
    ensures Advances(job, k, before, after)
    ensures id in after && after[id] == ProducerOf(job)(id, before + RoundOutputs(ProducerOf(job), done, before))
  {
    TasksAreRound(job, k, before, id);
    var s := LateSchedule(ProducerOf(job), Tasks(job, k, before), before, id, done);
    Scheduled(job, k, before, s);
    after := Recording(ProducerOf(job), before, s, |s.order|);
  }

  lemma FitsTogether(tasks: multiset<NodeId>, id: NodeId, done: set<NodeId>)
    requires MayPrecede(tasks, id, done)
    ensures multiset(done) + (tasks - multiset(done) - multiset{id}) + multiset{id} == tasks
  {
    forall x ensures multiset(done)[x] + multiset{id}[x] <= tasks[x] {
      if x in done { assert x in tasks; }
    }
  }

  // ---- every run can be finished ----

  lemma {:induction false} RanAreNodes(job: Job, trace: seq<Outputs>, k: nat)
    requires RefersToNodes(job.w) && IsRun(job, trace) && k < |trace|
    ensures trace[k].Keys <= Ids(job.w)
    decreases k
  {
    if k > 0 {
      RanAreNodes(job, trace, k - 1);
      StepAdds(job, trace, k - 1);
    }
  }

  predicate CanonicalAt(job: Job, trace: seq<Outputs>, k: nat)
    requires k < |trace|
  {
    trace[k] == After(job, k)
  }

  ghost predicate Canonical(job: Job, trace: seq<Outputs>) {
    forall k: nat | k < |trace| :: CanonicalAt(job, trace, k)
  }

  lemma CanonicalExtended(job: Job, trace: seq<Outputs>)
    requires trace != [] && Canonical(job, trace)
    ensures Canonical(job, trace + [Next(job, |trace| - 1, trace[|trace| - 1])])
  {
    var n := |trace|;
    var longer := trace + [Next(job, n - 1, trace[n - 1])];
    assert CanonicalAt(job, trace, n - 1);
    forall k: nat | k < |longer| ensures CanonicalAt(job, longer, k) {
      if k < n { assert CanonicalAt(job, trace, k) && longer[k] == trace[k]; }
    }
  }

  lemma FewerLeft(job: Job, k: nat, before: Outputs)
    requires Round(job, k, before) != {} && Round(job, k, before) <= Ids(job.w) - before.Keys
    ensures Ids(job.w) - Next(job, k, before).Keys < Ids(job.w) - before.Keys
  {
    SequentialRound(job, k, before);
    RoundAdds(job, k, before, Next(job, k, before));
    var id :| id in Round(job, k, before);
    assert id !in Ids(job.w) - Next(job, k, before).Keys;
  }

  lemma RoundIsNew(job: Job, trace: seq<Outputs>)
    requires RefersToNodes(job.w) && IsRun(job, trace)
    ensures Round(job, |trace| - 1, trace[|trace| - 1]) <= Ids(job.w) - trace[|trace| - 1].Keys
  {
  }

  lemma NextSequential(job: Job, trace: seq<Outputs>) returns (longer: seq<Outputs>)
    requires RefersToNodes(job.w) && IsRun(job, trace) && Round(job, |trace| - 1, trace[|trace| - 1]) != {}
    ensures IsRun(job, longer) && |longer| == |trace| + 1 && longer[..|trace|] == trace
    ensures Canonical(job, trace) ==> Canonical(job, longer)
    ensures Ids(job.w) - longer[|trace|].Keys < Ids(job.w) - trace[|trace| - 1].Keys
  {
    var k, before := |trace| - 1, trace[|trace| - 1];
    SequentialRound(job, k, before);
    RunExtended(job, trace, Next(job, k, before));
    RoundIsNew(job, trace);
    FewerLeft(job, k, before);
    longer := trace + [Next(job, k, before)];
    if Canonical(job, trace) {
      CanonicalExtended(job, trace);
    }
  }

  lemma {:induction false} Finished(job: Job, trace: seq<Outputs>) returns (full: seq<Outputs>)
    requires RefersToNodes(job.w) && job.w.entryNodes != [] && IsRun(job, trace)
    ensures Complete(job, full) && |full| >= |trace| && full[..|trace|] == trace
    ensures Canonical(job, trace) ==> Canonical(job, full)
    decreases Ids(job.w) - trace[|trace| - 1].Keys
  {
    var k, last := |trace| - 1, trace[|trace| - 1];
    if k > 0 && Ready(job, last) == {} {
      full := trace;
    } else {
      assert job.w.entryNodes[0] in Elements(job.w.entryNodes);
      var longer := NextSequential(job, trace);
      full := Finished(job, longer);
      assert full[..|trace|] == full[..|longer|][..|trace|];
    }
  }

  /** The execution that follows the sequential meaning. */
  lemma SequentialRun(job: Job) returns (full: seq<Outputs>)
    requires WellFormed(job.w)
    ensures Complete(job, full) && Canonical(job, full)
  {
    assert IsRun(job, [map[]]) && CanonicalAt(job, [map[]], 0);
    full := Finished(job, [map[]]);
  }

  lemma {:induction false} NothingAfter(job: Job, full: seq<Outputs>, k: nat)
    requires Complete(job, full) && Canonical(job, full) && k >= |full| - 1
    ensures After(job, k) == full[|full| - 1] && Round(job, k, After(job, k)) == {}
    decreases k
  {
    assert CanonicalAt(job, full, |full| - 1);
    if k > |full| - 1 {
      NothingAfter(job, full, k - 1);
      NoOutputs(ProducerOf(job), After(job, k - 1));
    }
  }

  // ---- exactly when runs agree ----

  /** All complete executions end with the same outputs. */
  ghost predicate Agree(job: Job) {
    forall trace, trace' | Complete(job, trace) && Complete(job, trace') :: trace[|trace| - 1] == trace'[|trace'| - 1]
  }

  lemma SequentialOutput(job: Job, k: nat, id: NodeId)
    requires id in Round(job, k, After(job, k))
    ensures id in After(job, k + 1) && After(job, k + 1)[id] == ProducerOf(job)(id, After(job, k))
  {
    var before := After(job, k);
    assert id in RoundOutputs(ProducerOf(job), Round(job, k, before), before);
  }

  lemma SequentialReaches(job: Job, k: nat) returns (full: seq<Outputs>)
    requires WellFormed(job.w) && Round(job, k, After(job, k)) != {}
    ensures Complete(job, full) && k + 1 < |full|
    ensures full[k] == After(job, k) && full[k + 1] == After(job, k + 1)
  {
    full := SequentialRun(job);
    if k >= |full| - 1 { NothingAfter(job, full, k); }
    assert CanonicalAt(job, full, k) && CanonicalAt(job, full, k + 1);
  }

  lemma EndsApart(job: Job, full: seq<Outputs>, other: seq<Outputs>, k: nat, id: NodeId)
    requires Complete(job, full) && Complete(job, other) && k < |full| && k < |other|
    requires id in full[k] && id in other[k] && full[k][id] != other[k][id]
    ensures !Agree(job)
  {
    Kept(job, full, k, |full| - 1);
    Kept(job, other, k, |other| - 1);
    assert full[|full| - 1][id] != other[|other| - 1][id];
  }

  lemma RoundApart(job: Job, full: seq<Outputs>, k: nat, after: Outputs, id: NodeId)
    requires WellFormed(job.w) && Complete(job, full) && k + 1 < |full| && Advances(job, k, full[k], after)
    requires id in full[k + 1] && id in after && full[k + 1][id] != after[id]
    ensures !Agree(job)
  {
    var other := Diverged(job, full, k, after);
    EndsApart(job, full, other, k + 1, id);
  }

  /** Where the condition fails, some execution ends with another output than the sequential one. */
  lemma Race(job: Job, k: nat, id: NodeId, done: set<NodeId>)
    requires WellFormed(job.w) && MayPrecede(Tasks(job, k, After(job, k)), id, done)
    requires !Unmoved(ProducerOf(job), After(job, k), id, done)
    ensures !Agree(job)
  {
    TasksAreRound(job, k, After(job, k), id);
    var full := SequentialReaches(job, k);
    SequentialOutput(job, k, id);
    var after := LateRound(job, k, After(job, k), id, done);
    RoundApart(job, full, k, after, id);
  }

  lemma Diverged(job: Job, full: seq<Outputs>, k: nat, after: Outputs) returns (other: seq<Outputs>)
    requires WellFormed(job.w) && IsRun(job, full) && k < |full| && Advances(job, k, full[k], after)
    ensures Complete(job, other) && |other| > k + 1 && other[k + 1] == after
  {
    var prefix := full[..k + 1];
    PrefixIsRun(job, full, k);
    RunExtended(job, prefix, after);
    other := Finished(job, prefix + [after]);
    assert other[k + 1] == other[..k + 2][k + 1] == (prefix + [after])[k + 1];
  }

  lemma PrefixIsRun(job: Job, trace: seq<Outputs>, k: nat)
    requires IsRun(job, trace) && k < |trace|
    ensures IsRun(job, trace[..k + 1])
  {
    var prefix := trace[..k + 1];
    forall j: nat | j + 1 < |prefix| ensures AdvancesAt(job, prefix, j) {
      assert AdvancesAt(job, trace, j);
      assert prefix[j] == trace[j] && prefix[j + 1] == trace[j + 1];
    }
  }

  /** All executions agree exactly when in every round of the sequential meaning no node notices
      which others of the round have been recorded. */
  lemma AgreeExactly(job: Job)
    requires WellFormed(job.w)
    ensures Agree(job) <==> OrderFree(job)
  {
    if OrderFree(job) {
      forall trace, trace' | Complete(job, trace) && Complete(job, trace')
        ensures trace[|trace| - 1] == trace'[|trace'| - 1]
      {
        ScheduleIndependence(job, trace, trace');
      }
    } else {
      var k: nat :| !RoundFreeAt(job, k);
      var id, done :|
        MayPrecede(Tasks(job, k, After(job, k)), id, done) && !Unmoved(ProducerOf(job), After(job, k), id, done);
      Race(job, k, id, done);
    }
  }
}
