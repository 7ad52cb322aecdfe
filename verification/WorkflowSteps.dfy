/** Every schedule can be followed step by step, so schedules describe exactly the interleavings. */
module WorkflowSteps {
  import opened WorkflowGraph
  import opened MessageTemplate
  import opened WorkflowExecution

  // ---- which task stands for which place in the order ----

  /** `at[t]` is the place of task `t` in the order, and `task[j]` the task at place `j`. */
  predicate Arranges(ready: seq<NodeId>, order: seq<NodeId>, at: seq<nat>, task: seq<nat>) {
    && |at| == |task| == |ready| == |order|
    && (forall t | 0 <= t < |at| :: at[t] < |order| && task[at[t]] == t && order[at[t]] == ready[t])
    && (forall j | 0 <= j < |task| :: task[j] < |ready| && at[task[j]] == j)
  }

  /** Places move up by one behind a new place `j`. */
  function Shifted(j: nat, place: nat): nat {
    if place < j then place else place + 1
  }

  lemma Removed(xs: seq<NodeId>, j: nat)
    requires j < |xs|
    ensures multiset(xs[..j] + xs[j + 1..]) == multiset(xs) - multiset{xs[j]}
  {
    assert xs == xs[..j] + [xs[j]] + xs[j + 1..];
  }

  lemma {:induction false} Arrangement(ready: seq<NodeId>, order: seq<NodeId>) returns (at: seq<nat>, task: seq<nat>)
    requires multiset(ready) == multiset(order)
    ensures Arranges(ready, order, at, task)
    decreases |ready|
  {
    if ready == [] {
      assert |multiset(order)| == |order|;
      at, task := [], [];
    } else {
      var last := |ready| - 1;
      assert ready[last] in multiset(ready);
      var j :| 0 <= j < |order| && order[j] == ready[last];
      Removed(ready, last);
      Removed(order, j);
      assert ready[..last] + ready[last + 1..] == ready[..last];
      var at0, task0 := Arrangement(ready[..last], order[..j] + order[j + 1..]);
      at, task := OneMorePlace(ready, order, at0, task0, j);
    }
  }

  lemma OneMorePlace(ready: seq<NodeId>, order: seq<NodeId>, at0: seq<nat>, task0: seq<nat>, j: nat)
    returns (at: seq<nat>, task: seq<nat>)
    requires ready != [] && j < |order| && order[j] == ready[|ready| - 1]
    requires Arranges(ready[..|ready| - 1], order[..j] + order[j + 1..], at0, task0)
    ensures Arranges(ready, order, at, task)
  {
    var last, rest := |ready| - 1, order[..j] + order[j + 1..];
    at := seq(last, t requires 0 <= t < last => Shifted(j, at0[t])) + [j];
    task := task0[..j] + [last] + task0[j..];
    forall t | 0 <= t < |at| ensures at[t] < |order| && task[at[t]] == t && order[at[t]] == ready[t] {
      if t < last { assert rest[at0[t]] == order[Shifted(j, at0[t])]; }
    }
    forall k | 0 <= k < |task| ensures task[k] < |ready| && at[task[k]] == k {
      if k != j { assert task[k] == task0[if k < j then k else k - 1]; }
    }
  }

  // ---- the moments of an execution that follows the schedule ----

  /** The task at place `j`, when `i` results have been recorded and those of the tasks that start
      then have started that stand before place `m`. */
  function TaskAt(job: Job, before: Outputs, s: Schedule, j: nat, i: nat, m: nat): Task
    requires Timely(s) && j < |s.order|
  {
    if j < i then Collected
    else if s.starts[j] < i || (s.starts[j] == i && j < m) then
      Started(MessageOf(job, s.order[j], Recording(ProducerOf(job), before, s, s.starts[j])))
    else Spawned
  }

  function MomentAt(job: Job, before: Outputs, s: Schedule, at: seq<nat>, i: nat, m: nat): Moment
    requires Timely(s) && i <= |s.order| && forall t | 0 <= t < |at| :: at[t] < |s.order|
  {
    Moment(seq(|at|, t requires 0 <= t < |at| => TaskAt(job, before, s, at[t], i, m)),
           Recording(ProducerOf(job), before, s, i))
  }

  /** The next task in line starts, if it starts now. */
  lemma OneStarts(job: Job, ready: seq<NodeId>, before: Outputs, s: Schedule, at: seq<nat>, task: seq<nat>,
                  i: nat, m: nat)
    requires Timely(s) && Arranges(ready, s.order, at, task) && i <= |s.order| && m < |s.order|
    ensures var now, then' := MomentAt(job, before, s, at, i, m), MomentAt(job, before, s, at, i, m + 1);
      now == then' || Moves(job, ready, now, task[m], then')
  {
    var now, then' := MomentAt(job, before, s, at, i, m), MomentAt(job, before, s, at, i, m + 1);
    var x := task[m];
    assert forall t | 0 <= t < |at| && t != x :: at[t] != m;
    if TaskAt(job, before, s, m, i, m) != TaskAt(job, before, s, m, i, m + 1) {
      assert then'.tasks == now.tasks[x := Started(MessageOf(job, ready[x], now.outputs))];
    } else {
      assert then'.tasks == now.tasks;
    }
  }

  predicate StaysOrMoves(job: Job, ready: seq<NodeId>, task: seq<nat>, ms: seq<Moment>, k: nat)
    requires k < |task| && k + 1 < |ms|
  {
    ms[k] == ms[k + 1] || Moves(job, ready, ms[k], task[k], ms[k + 1])
  }

  lemma {:induction false} AllMove(job: Job, ready: seq<NodeId>, before: Outputs, task: seq<nat>,
                                   line: seq<Moment>, k: nat, ms: seq<Moment>) returns (longer: seq<Moment>)
    requires k <= |task| && k < |line| && forall m: nat | m < k :: StaysOrMoves(job, ready, task, line, m)
    requires LeadsTo(job, ready, before, ms, line[0])
    ensures LeadsTo(job, ready, before, longer, line[k])
    decreases k
  {
    longer := ms;
    if k > 0 {
      longer := AllMove(job, ready, before, task, line, k - 1, ms);
      assert StaysOrMoves(job, ready, task, line, k - 1);
      if line[k - 1] != line[k] {
        longer := MoveMade(job, ready, before, longer, line[k - 1], task[k - 1], line[k]);
      }
    }
  }

  lemma AllStart(job: Job, ready: seq<NodeId>, before: Outputs, s: Schedule, at: seq<nat>, task: seq<nat>, i: nat,
                 now: Moment, ms: seq<Moment>) returns (then': Moment, longer: seq<Moment>)
    requires Timely(s) && Arranges(ready, s.order, at, task) && i <= |s.order|
    requires now == MomentAt(job, before, s, at, i, 0) && LeadsTo(job, ready, before, ms, now)
    ensures then' == MomentAt(job, before, s, at, i, |s.order|) && LeadsTo(job, ready, before, longer, then')
  {
    var line := seq(|s.order| + 1, m requires 0 <= m <= |s.order| => MomentAt(job, before, s, at, i, m));
    forall m: nat | m < |s.order| ensures StaysOrMoves(job, ready, task, line, m) {
      OneStarts(job, ready, before, s, at, task, i, m);
    }
    longer := AllMove(job, ready, before, task, line, |s.order|, ms);
    then' := line[|s.order|];
  }

  /** The `i`-th result comes in and is recorded. */
  lemma OneIsRecorded(job: Job, ready: seq<NodeId>, before: Outputs, s: Schedule, at: seq<nat>, task: seq<nat>,
                      i: nat, now: Moment) returns (half: Moment, then': Moment)
    requires Timely(s) && Arranges(ready, s.order, at, task) && i < |s.order|
    requires now == MomentAt(job, before, s, at, i, |s.order|)
    ensures then' == MomentAt(job, before, s, at, i + 1, 0)
    ensures Moves(job, ready, now, task[i], half) && Moves(job, ready, half, task[i], then')
  {
    then' := MomentAt(job, before, s, at, i + 1, 0);
    var x := task[i];
    var message := MessageOf(job, ready[x], Recording(ProducerOf(job), before, s, s.starts[i]));
    assert now.tasks[x] == Started(message);
    half := now.(tasks := now.tasks[x := Finished(Invoked(job, ready[x], message))]);
    assert forall t | 0 <= t < |at| && t != x :: at[t] != i;
    assert then'.tasks == half.tasks[x := Collected];
    RecordingStep(ProducerOf(job), before, s, i + 1);
  }

  lemma {:induction false} ScheduleFollowed(job: Job, ready: seq<NodeId>, before: Outputs, s: Schedule,
                                            at: seq<nat>, task: seq<nat>, i: nat)
    returns (m: Moment, ms: seq<Moment>)
    requires Timely(s) && Arranges(ready, s.order, at, task) && i <= |s.order|
    ensures m == MomentAt(job, before, s, at, i, 0) && LeadsTo(job, ready, before, ms, m)
    decreases i
  {
    if i == 0 {
      m := Start(|ready|, before);
      ms := [m];
      assert m.tasks == MomentAt(job, before, s, at, 0, 0).tasks;
    } else {
      m, ms := ScheduleFollowed(job, ready, before, s, at, task, i - 1);
      m, ms := AllStart(job, ready, before, s, at, task, i - 1, m, ms);
      var half, then' := OneIsRecorded(job, ready, before, s, at, task, i - 1, m);
      ms := MoveMade(job, ready, before, ms, m, task[i - 1], half);
      ms := MoveMade(job, ready, before, ms, half, task[i - 1], then');
      m := then';
    }
  }

  /** The tasks of a round can leave exactly what the schedules of the round record. */
  lemma LayerExactly(job: Job, ready: seq<NodeId>, before: Outputs, after: Outputs)
    ensures Performs(job, ready, before, after) <==> LayerOf(job, multiset(ready), before, after)
  {
    if Performs(job, ready, before, after) {
      PerformsLayer(job, ready, before, after);
    }
    if LayerOf(job, multiset(ready), before, after) {
      var s :| ScheduleOf(s, multiset(ready)) && after == Recording(ProducerOf(job), before, s, |s.order|);
      var at, task := Arrangement(ready, s.order);
      var m, ms := ScheduleFollowed(job, ready, before, s, at, task, |s.order|);
      assert Over(m);
    }
  }
}
