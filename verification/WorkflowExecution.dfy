/** Round-by-round execution of a workflow.

    A round runs its nodes concurrently: every task builds its message from the outputs that have
    been recorded when it starts, and results are recorded one by one in any order. `IsRun`
    describes these executions by the outputs recorded after each round. `RunLayer` shows that every
    interleaving is described, and `WorkflowSteps` that nothing else is. */
module WorkflowExecution {
  import opened Wrappers
  import opened Texts
  import opened WorkflowGraph
  import opened MessageTemplate
  import opened WorkflowValidation

  /** A workflow with its input, its agents, and its reading of the edge conditions other than
      `Always`. */
  datatype Job = Job(
    w: Workflow, input: string,
    invoke: (string, string) -> Result<string, string>,
    matches: (Condition, string) -> bool)

  predicate ConditionMet(job: Job, c: Condition, output: string) {
    c == Always || job.matches(c, output)
  }

  function NodeAt(nodes: seq<Node>, id: NodeId): Option<Node> {
    if nodes == [] then None
    else if nodes[0].id == id then Some(nodes[0])
    else NodeAt(nodes[1..], id)
  }

  function Recorded(result: Result<string, string>): string {
    match result
    case Ok(output) => output
    case Err(error) => "[ERROR: " + error + "]"
  }

  function MessageOf(job: Job, id: NodeId, seen: Outputs): string {
    match NodeAt(job.w.nodes, id)
    case None => ""
    case Some(node) => NodeMessage(node, job.input, seen)
  }

  function Invoked(job: Job, id: NodeId, message: string): Result<string, string> {
    match NodeAt(job.w.nodes, id)
    case None => Ok("")
    case Some(node) => job.invoke(node.agentId, message)
  }

  /** What is recorded for a node that has read `seen`. */
  function Produce(job: Job, id: NodeId, seen: Outputs): string {
    Recorded(Invoked(job, id, MessageOf(job, id, seen)))
  }

  // ---- which nodes a round runs ----

  predicate SourcesIn(w: Workflow, id: NodeId, done: set<NodeId>) {
    forall e | e in w.edges && e.to == id :: e.from in done
  }

  predicate SomeConditionMet(job: Job, id: NodeId, outputs: Outputs) {
    exists e | e in job.w.edges && e.to == id ::
      ConditionMet(job, e.condition, if e.from in outputs then outputs[e.from] else "")
  }

  predicate IsReady(job: Job, id: NodeId, outputs: Outputs) {
    id !in outputs && SourcesIn(job.w, id, outputs.Keys) && SomeConditionMet(job, id, outputs)
  }

  function Ready(job: Job, outputs: Outputs): set<NodeId> {
    set id | id in Ids(job.w) && IsReady(job, id, outputs)
  }

  function Elements<T(==)>(xs: seq<T>): set<T> {
    set x | x in xs
  }

  function Round(job: Job, k: nat, outputs: Outputs): set<NodeId> {
    if k == 0 then Elements(job.w.entryNodes) else Ready(job, outputs)
  }

  // ---- what a round may leave behind ----

  /** One way a round can go: the order in which results are recorded, and for each of them how many
      had been recorded when its task built its message. */
  datatype Schedule = Schedule(order: seq<NodeId>, starts: seq<nat>)

  predicate Timely(s: Schedule) {
    |s.starts| == |s.order| && forall i | 0 <= i < |s.starts| :: s.starts[i] <= i
  }

  /** What a task records for its node once it has read some outputs. */
  type Producer = (NodeId, Outputs) -> string

  function ProducerOf(job: Job): Producer {
    (id, seen) => Produce(job, id, seen)
  }

  /** The outputs once the first `i` results have been recorded. */
  function Recording(produce: Producer, before: Outputs, s: Schedule, i: nat): Outputs
    requires Timely(s) && i <= |s.order|
    decreases i
  {
    if i == 0 then before
    else
      var id := s.order[i - 1];
      Recording(produce, before, s, i - 1)[id := produce(id, Recording(produce, before, s, s.starts[i - 1]))]
  }

  predicate ScheduleOf(s: Schedule, tasks: multiset<NodeId>) {
    Timely(s) && multiset(s.order) == tasks
  }

  ghost predicate LayerOf(job: Job, tasks: multiset<NodeId>, before: Outputs, after: Outputs) {
    exists s :: ScheduleOf(s, tasks) && after == Recording(ProducerOf(job), before, s, |s.order|)
  }

  /** The tasks of a round; an entry node that is listed twice has two. */
  function Tasks(job: Job, k: nat, outputs: Outputs): multiset<NodeId> {
    if k == 0 then multiset(job.w.entryNodes) else multiset(Ready(job, outputs))
  }

  ghost predicate Advances(job: Job, k: nat, before: Outputs, after: Outputs) {
    Round(job, k, before) != {} && LayerOf(job, Tasks(job, k, before), before, after)
  }

  ghost predicate AdvancesAt(job: Job, trace: seq<Outputs>, k: nat)
    requires k + 1 < |trace|
  {
    Advances(job, k, trace[k], trace[k + 1])
  }

  /** The outputs recorded before each round of some execution. */
  ghost predicate IsRun(job: Job, trace: seq<Outputs>) {
    && |trace| > 0 && trace[0] == map[]
    && forall k: nat | k + 1 < |trace| :: AdvancesAt(job, trace, k)
  }

  ghost predicate Complete(job: Job, trace: seq<Outputs>) {
    IsRun(job, trace) && |trace| > 1 && Ready(job, trace[|trace| - 1]) == {}
  }

  lemma TasksAreRound(job: Job, k: nat, outputs: Outputs, id: NodeId)
    ensures id in Tasks(job, k, outputs) <==> id in Round(job, k, outputs)
  {
  }

  lemma {:induction false} RecordingKeys(produce: Producer, before: Outputs, s: Schedule, i: nat, id: NodeId)
    requires Timely(s) && i <= |s.order|
    ensures id in Recording(produce, before, s, i) <==> id in before || id in s.order[..i]
    ensures id !in s.order[..i] && id in before ==> Recording(produce, before, s, i)[id] == before[id]
    decreases i
  {
    if i > 0 {
      RecordingKeys(produce, before, s, i - 1, id);
      assert s.order[..i] == s.order[..i - 1] + [s.order[i - 1]];
    }
  }

  /** A round records an output for exactly its nodes and touches no other. */
  lemma RoundAdds(job: Job, k: nat, before: Outputs, after: Outputs)
    requires Advances(job, k, before, after)
    ensures after.Keys == before.Keys + Round(job, k, before)
    ensures forall id | id in before && id !in Round(job, k, before) :: after[id] == before[id]
  {
    var s :| ScheduleOf(s, Tasks(job, k, before)) && after == Recording(ProducerOf(job), before, s, |s.order|);
    var n := |s.order|;
    assert s.order[..n] == s.order;
    forall id
      ensures id in after <==> id in before || id in Round(job, k, before)
      ensures id in before && id !in Round(job, k, before) ==> after[id] == before[id]
    {
      RecordingKeys(ProducerOf(job), before, s, n, id);
      TasksAreRound(job, k, before, id);
      assert id in s.order <==> id in multiset(s.order);
    }
  }

  lemma StepAdds(job: Job, trace: seq<Outputs>, k: nat)
    requires IsRun(job, trace) && k + 1 < |trace|
    ensures Round(job, k, trace[k]) != {} && trace[k + 1].Keys == trace[k].Keys + Round(job, k, trace[k])
    ensures forall id | id in trace[k] && id !in Round(job, k, trace[k]) :: trace[k + 1][id] == trace[k][id]
  {
    assert AdvancesAt(job, trace, k);
    RoundAdds(job, k, trace[k], trace[k + 1]);
  }

  // ---- every run ----

  lemma RoundKeeps(job: Job, trace: seq<Outputs>, k: nat)
    requires IsRun(job, trace) && k + 1 < |trace|
    ensures forall id | id in trace[k] :: id in trace[k + 1] && trace[k + 1][id] == trace[k][id]
  {
    StepAdds(job, trace, k);
  }

  /** Nothing recorded is ever overwritten, and no node is run in two rounds. */
  lemma {:induction false} Kept(job: Job, trace: seq<Outputs>, i: nat, j: nat)
    requires IsRun(job, trace) && i <= j < |trace|
    ensures forall id | id in trace[i] :: id in trace[j] && trace[j][id] == trace[i][id]
    decreases j
  {
    if i < j {
      Kept(job, trace, i, j - 1);
      RoundKeeps(job, trace, j - 1);
    }
  }

  /** The nodes of a round are new, and every other than an entry node follows all its sources. */
  lemma RoundFollowsSources(job: Job, trace: seq<Outputs>, k: nat, id: NodeId)
    requires IsRun(job, trace) && k < |trace| - 1 && id in Round(job, k, trace[k])
    ensures id !in trace[k] && id in trace[k + 1]
    ensures id in job.w.entryNodes || SourcesIn(job.w, id, trace[k].Keys)
  {
    StepAdds(job, trace, k);
  }

  /** All sources have run, and an edge into the node is unconditional or its condition is met by the
      output of its source. */
  ghost predicate Awaited(job: Job, id: NodeId, outputs: Outputs) {
    && (forall e | e in job.w.edges && e.to == id :: e.from in outputs)
    && exists e | e in job.w.edges && e.to == id ::
         e.from in outputs && (e.condition.Always? || job.matches(e.condition, outputs[e.from]))
  }

  lemma ReadyIsAwaited(job: Job, id: NodeId, outputs: Outputs)
    ensures id in Ready(job, outputs) <==> id in Ids(job.w) && id !in outputs && Awaited(job, id, outputs)
  {
    if id in Ids(job.w) && Awaited(job, id, outputs) {
      var e :| e in job.w.edges && e.to == id && e.from in outputs
               && (e.condition.Always? || job.matches(e.condition, outputs[e.from]));
      assert ConditionMet(job, e.condition, if e.from in outputs then outputs[e.from] else "");
    }
    if id in Ready(job, outputs) {
      var e :| e in job.w.edges && e.to == id
               && ConditionMet(job, e.condition, if e.from in outputs then outputs[e.from] else "");
      assert e.from in outputs;
    }
  }

  /** The first round runs the entry nodes, and each later one the nodes awaited so far. */
  lemma RoundsExactly(job: Job, trace: seq<Outputs>, k: nat, id: NodeId)
    requires IsRun(job, trace) && k + 1 < |trace|
    ensures k == 0 ==> (id in trace[1] <==> id in job.w.entryNodes)
    ensures k > 0 ==>
      (id in trace[k + 1] <==> id in trace[k] || (id in Ids(job.w) && Awaited(job, id, trace[k])))
  {
    StepAdds(job, trace, k);
    ReadyIsAwaited(job, id, trace[k]);
  }

  /** A finished run leaves no awaited node out. */
  lemma NothingAwaited(job: Job, trace: seq<Outputs>, id: NodeId)
    requires Complete(job, trace) && id in Ids(job.w) && Awaited(job, id, trace[|trace| - 1])
    ensures id in trace[|trace| - 1]
  {
    ReadyIsAwaited(job, id, trace[|trace| - 1]);
  }

  /** The output is what the node's agent answers to its message, or the text for its error. */
  ghost predicate Answers(job: Job, id: NodeId, seen: Outputs, output: string) {
    exists node | node in job.w.nodes :: node.id == id
      && match job.invoke(node.agentId, NodeMessage(node, job.input, seen))
         case Ok(answer) => output == answer
         case Err(error) => output == "[ERROR: " + error + "]"
  }

  lemma ProducedAnswers(job: Job, id: NodeId, seen: Outputs)
    requires id in Ids(job.w)
    ensures Answers(job, id, seen, Produce(job, id, seen))
  {
    NodeFound(job.w.nodes, id);
    var node := NodeAt(job.w.nodes, id).value;
    assert node in job.w.nodes && node.id == id;
  }

  lemma {:induction false} LastRecording(produce: Producer, before: Outputs, s: Schedule, i: nat, id: NodeId)
    returns (j: nat)
    requires Timely(s) && i <= |s.order| && id in s.order[..i]
    ensures j < i && id in Recording(produce, before, s, i)
    ensures Recording(produce, before, s, i)[id] == produce(id, Recording(produce, before, s, s.starts[j]))
    decreases i
  {
    assert s.order[..i] == s.order[..i - 1] + [s.order[i - 1]];
    j := i - 1;
    if s.order[i - 1] != id { j := LastRecording(produce, before, s, i - 1, id); }
  }

  ghost predicate Between(before: Outputs, seen: Outputs, after: Outputs) {
    before.Keys <= seen.Keys <= after.Keys
  }

  /** Every recorded output answers a message built from what had been recorded when the task started:
      at least all of the earlier rounds, at most this round as well. */
  lemma OutputsAreAnswers(job: Job, trace: seq<Outputs>, k: nat, id: NodeId) returns (seen: Outputs)
    requires RefersToNodes(job.w) && IsRun(job, trace) && k + 1 < |trace| && id in Round(job, k, trace[k])
    ensures Between(trace[k], seen, trace[k + 1])
    ensures id in trace[k + 1] && Answers(job, id, seen, trace[k + 1][id])
  {
    assert AdvancesAt(job, trace, k);
    var produce, before := ProducerOf(job), trace[k];
    var s :| ScheduleOf(s, Tasks(job, k, before)) && trace[k + 1] == Recording(produce, before, s, |s.order|);
    TasksAreRound(job, k, before, id);
    assert id in multiset(s.order) && s.order[..|s.order|] == s.order;
    var j := LastRecording(produce, before, s, |s.order|, id);
    seen := Recording(produce, before, s, s.starts[j]);
    forall x ensures (x in before ==> x in seen) && (x in seen ==> x in trace[k + 1]) {
      RecordingKeys(produce, before, s, s.starts[j], x);
      RecordingKeys(produce, before, s, |s.order|, x);
    }
    ProducedAnswers(job, id, seen);
  }

  /** A set that holds the entry nodes, and every node all of whose sources it holds and one of
      whose conditions is met. */
  ghost predicate Closed(job: Job, outputs: Outputs, s: set<NodeId>) {
    && Elements(job.w.entryNodes) <= s
    && forall id | id in Ids(job.w) && SourcesIn(job.w, id, s) && SomeConditionMet(job, id, outputs) :: id in s
  }

  lemma ReadyWithin(job: Job, before: Outputs, final: Outputs, s: set<NodeId>, id: NodeId)
    requires Closed(job, final, s) && before.Keys <= s && id in Ready(job, before)
    requires forall n | n in before :: n in final && final[n] == before[n]
    ensures id in s
  {
    assert SourcesIn(job.w, id, s);
    var e :| e in job.w.edges && e.to == id
             && ConditionMet(job, e.condition, if e.from in before then before[e.from] else "");
    assert ConditionMet(job, e.condition, if e.from in final then final[e.from] else "");
    assert SomeConditionMet(job, id, final);
  }

  lemma {:induction false} RanWithin(job: Job, trace: seq<Outputs>, k: nat, s: set<NodeId>)
    requires IsRun(job, trace) && k < |trace| && Closed(job, trace[|trace| - 1], s)
    ensures trace[k].Keys <= s
    decreases k
  {
    if k > 0 {
      RanWithin(job, trace, k - 1, s);
      Kept(job, trace, k - 1, |trace| - 1);
      StepAdds(job, trace, k - 1);
      forall id | id in Round(job, k - 1, trace[k - 1]) ensures id in s {
        if k > 1 { ReadyWithin(job, trace[k - 1], trace[|trace| - 1], s, id); }
      }
    }
  }

  /** The nodes a finished run has run are the least closed set. */
  lemma RunIsLeastClosed(job: Job, trace: seq<Outputs>)
    requires Complete(job, trace)
    ensures var final := trace[|trace| - 1];
      && Closed(job, final, final.Keys)
      && forall s | Closed(job, final, s) :: final.Keys <= s
  {
    var final := trace[|trace| - 1];
    StepAdds(job, trace, 0);
    Kept(job, trace, 1, |trace| - 1);
    assert forall id | id in Ids(job.w) && IsReady(job, id, final) :: id in Ready(job, final);
    forall s | Closed(job, final, s) ensures final.Keys <= s {
      RanWithin(job, trace, |trace| - 1, s);
    }
  }

  // ---- the result ----

  datatype Failure = Invalid(why: Rejection) | NoOutput

  const SEPARATOR := "\n\n---\n\n"

  function Leaves(w: Workflow, nodes: seq<Node>): seq<NodeId> {
    if nodes == [] then []
    else (if forall e | e in w.edges :: e.from != nodes[0].id then [nodes[0].id] else []) + Leaves(w, nodes[1..])
  }

  function ExitIds(w: Workflow): seq<NodeId> {
    if w.exitNodes == [] then Leaves(w, w.nodes) else w.exitNodes
  }

  function Gathered(ids: seq<NodeId>, outputs: Outputs): seq<string> {
    if ids == [] then []
    else (if ids[0] in outputs then [outputs[ids[0]]] else []) + Gathered(ids[1..], outputs)
  }

  function Joined(parts: seq<string>): string {
    if parts == [] then ""
    else if |parts| == 1 then parts[0]
    else parts[0] + SEPARATOR + Joined(parts[1..])
  }

  function FinalResult(w: Workflow, outputs: Outputs): Result<string, Failure> {
    var parts := Gathered(ExitIds(w), outputs);
    if parts == [] then Err(NoOutput) else Ok(Joined(parts))
  }

  /** The chosen positions, from the first to the last. */
  ghost predicate InOrder(chosen: seq<nat>, positions: set<nat>) {
    && (forall i, j | 0 <= i < j < |chosen| :: chosen[i] < chosen[j])
    && (forall k: nat :: k in chosen <==> k in positions)
  }

  function OneUp(chosen: seq<nat>): (later: seq<nat>)
    ensures |later| == |chosen| && forall i | 0 <= i < |chosen| :: later[i] == chosen[i] + 1
  {
    seq(|chosen|, i requires 0 <= i < |chosen| => chosen[i] + 1)
  }

  /** The positions in a list that begins with one more element. */
  lemma OneInFront(chosen: seq<nat>, positions: set<nat>, all: set<nat>) returns (more: seq<nat>)
    requires InOrder(chosen, positions) && forall k: nat :: k in positions <==> k + 1 in all
    ensures InOrder(more, all)
    ensures more == (if 0 in all then [0] else []) + OneUp(chosen)
  {
    var later := OneUp(chosen);
    forall k: nat ensures k in later <==> k > 0 && k in all {
      if k > 0 && k in all {
        assert k - 1 in positions;
        var i :| 0 <= i < |chosen| && chosen[i] == k - 1;
        assert later[i] == k;
      }
      if i :| 0 <= i < |later| && later[i] == k {
        assert chosen[i] in positions;
      }
    }
    more := (if 0 in all then [0] else []) + later;
  }

  function WithOutput(ids: seq<NodeId>, outputs: Outputs): set<nat> {
    set k: nat | k < |ids| && ids[k] in outputs
  }

  /** `parts` are the outputs of the ids that have one, in the order of the ids. */
  ghost predicate OutputsAt(ids: seq<NodeId>, outputs: Outputs, parts: seq<string>, chosen: seq<nat>) {
    && InOrder(chosen, WithOutput(ids, outputs)) && |parts| == |chosen|
    && forall i | 0 <= i < |parts| ::
         chosen[i] < |ids| && ids[chosen[i]] in outputs && parts[i] == outputs[ids[chosen[i]]]
  }

  lemma {:induction false} GathersInOrder(ids: seq<NodeId>, outputs: Outputs) returns (chosen: seq<nat>)
    ensures OutputsAt(ids, outputs, Gathered(ids, outputs), chosen)
  {
    if ids == [] {
      chosen := [];
    } else {
      var rest := GathersInOrder(ids[1..], outputs);
      chosen := OneInFront(rest, WithOutput(ids[1..], outputs), WithOutput(ids, outputs));
    }
  }

  lemma {:induction false} GatheredNone(ids: seq<NodeId>, outputs: Outputs)
    ensures Gathered(ids, outputs) == [] <==> forall id | id in ids :: id !in outputs
  {
    if ids != [] {
      GatheredNone(ids[1..], outputs);
      assert ids == [ids[0]] + ids[1..];
    }
  }

  lemma {:induction false} LeavesAreLeaves(w: Workflow, nodes: seq<Node>, id: NodeId)
    ensures id in Leaves(w, nodes) <==> id in IdsOf(nodes) && forall e | e in w.edges :: e.from != id
  {
    if nodes != [] {
      LeavesAreLeaves(w, nodes[1..], id);
      assert nodes == [nodes[0]] + nodes[1..];
      assert IdsOf(nodes) == {nodes[0].id} + IdsOf(nodes[1..]);
    }
  }

  predicate IsLeaf(w: Workflow, id: NodeId) {
    forall e | e in w.edges :: e.from != id
  }

  function LeafPlaces(w: Workflow, nodes: seq<Node>): set<nat> {
    set k: nat | k < |nodes| && IsLeaf(w, nodes[k].id)
  }

  ghost predicate LeavesAt(w: Workflow, nodes: seq<Node>, ids: seq<NodeId>, chosen: seq<nat>) {
    && InOrder(chosen, LeafPlaces(w, nodes)) && |ids| == |chosen|
    && forall i | 0 <= i < |ids| :: chosen[i] < |nodes| && ids[i] == nodes[chosen[i]].id
  }

  lemma {:induction false} LeavesInOrder(w: Workflow, nodes: seq<Node>) returns (chosen: seq<nat>)
    ensures LeavesAt(w, nodes, Leaves(w, nodes), chosen)
  {
    if nodes == [] {
      chosen := [];
    } else {
      var rest := LeavesInOrder(w, nodes[1..]);
      chosen := OneInFront(rest, LeafPlaces(w, nodes[1..]), LeafPlaces(w, nodes));
    }
  }

  lemma {:induction false} JoinedIsSpelled(parts: seq<string>)
    requires parts != []
    ensures Joined(parts) == Spelled(parts, Repeat("\n\n---\n\n", |parts| - 1))
  {
    var gaps := Repeat("\n\n---\n\n", |parts| - 1);
    if |parts| > 1 {
      JoinedIsSpelled(parts[1..]);
      assert gaps[1..] == Repeat("\n\n---\n\n", |parts| - 2);
    }
  }

  /** The exits are those the workflow names, or else its nodes without outgoing edges, in order. */
  ghost predicate AreExits(w: Workflow, exits: seq<NodeId>) {
    if w.exitNodes != [] then exits == w.exitNodes
    else exists chosen :: LeavesAt(w, w.nodes, exits, chosen)
  }

  /** The text holds the outputs of the exits that have one, in order, with the separator between
      neighbours and nothing else. */
  ghost predicate HoldsOutputs(text: string, exits: seq<NodeId>, outputs: Outputs,
                               chosen: seq<nat>, parts: seq<string>, at: seq<nat>) {
    && parts != [] && OutputsAt(exits, outputs, parts, chosen)
    && Woven(text, parts, Repeat("\n\n---\n\n", |parts| - 1), at)
  }

  ghost predicate Fits(exits: seq<NodeId>, outputs: Outputs, result: Result<string, Failure>) {
    if result.Ok? then exists chosen, parts, at :: HoldsOutputs(result.value, exits, outputs, chosen, parts, at)
    else result.error == NoOutput && forall id | id in exits :: id !in outputs
  }

  ghost predicate Holds(w: Workflow, outputs: Outputs, result: Result<string, Failure>) {
    exists exits :: AreExits(w, exits) && Fits(exits, outputs, result)
  }

  lemma ExitsAreExits(w: Workflow)
    ensures AreExits(w, ExitIds(w))
  {
    if w.exitNodes == [] {
      var chosen := LeavesInOrder(w, w.nodes);
    }
  }

  lemma JoinedHoldsOutputs(exits: seq<NodeId>, outputs: Outputs)
    ensures var parts := Gathered(exits, outputs);
      Fits(exits, outputs, if parts == [] then Err(NoOutput) else Ok(Joined(parts)))
  {
    var parts := Gathered(exits, outputs);
    GatheredNone(exits, outputs);
    if parts != [] {
      var text := Joined(parts);
      var chosen := GathersInOrder(exits, outputs);
      JoinedIsSpelled(parts);
      var at := SpelledIsWoven(text, parts, Repeat("\n\n---\n\n", |parts| - 1));
      assert HoldsOutputs(text, exits, outputs, chosen, parts, at);
    }
  }

  lemma ResultHolds(w: Workflow, outputs: Outputs)
    ensures Holds(w, outputs, FinalResult(w, outputs))
  {
    ExitsAreExits(w);
    JoinedHoldsOutputs(ExitIds(w), outputs);
  }

  // ---- one round, in any interleaving ----

  datatype Task = Spawned | Started(message: string) | Finished(result: Result<string, string>) | Collected

  /** Half way through a round: how far its tasks are, and what has been recorded. */
  datatype Moment = Moment(tasks: seq<Task>, outputs: Outputs)

  function Start(n: nat, before: Outputs): Moment {
    Moment(seq(n, i => Spawned), before)
  }

  /** The `i`-th task builds its message from what has been recorded, invokes its agent, or has its
      result recorded. */
  predicate Moves(job: Job, ready: seq<NodeId>, m: Moment, i: nat, m': Moment) {
    && i < |m.tasks| == |ready|
    && match m.tasks[i]
       case Spawned => m' == m.(tasks := m.tasks[i := Started(MessageOf(job, ready[i], m.outputs))])
       case Started(message) => m' == m.(tasks := m.tasks[i := Finished(Invoked(job, ready[i], message))])
       case Finished(result) => m' == Moment(m.tasks[i := Collected], m.outputs[ready[i] := Recorded(result)])
       case Collected => false
  }

  ghost predicate SomeMoves(job: Job, ready: seq<NodeId>, m: Moment, m': Moment) {
    exists i: nat :: Moves(job, ready, m, i, m')
  }

  ghost predicate MovesAt(job: Job, ready: seq<NodeId>, ms: seq<Moment>, k: nat)
    requires k + 1 < |ms|
  {
    SomeMoves(job, ready, ms[k], ms[k + 1])
  }

  /** Some interleaving of the tasks, from when they are spawned until it comes to `m`. */
  ghost predicate LeadsTo(job: Job, ready: seq<NodeId>, before: Outputs, ms: seq<Moment>, m: Moment) {
    && |ms| > 0 && ms[0] == Start(|ready|, before) && ms[|ms| - 1] == m
    && forall k: nat | k + 1 < |ms| :: MovesAt(job, ready, ms, k)
  }

  predicate Over(m: Moment) {
    forall i | 0 <= i < |m.tasks| :: m.tasks[i].Collected?
  }

  /** Some interleaving of the tasks of a round leaves `after`. */
  ghost predicate Performs(job: Job, ready: seq<NodeId>, before: Outputs, after: Outputs) {
    exists ms, m :: LeadsTo(job, ready, before, ms, m) && Over(m) && m.outputs == after
  }

  function StepsLeft(tasks: seq<Task>): nat {
    if tasks == [] then 0
    else (match tasks[0] case Spawned => 3 case Started(_) => 2 case Finished(_) => 1 case Collected => 0)
         + StepsLeft(tasks[1..])
  }

  function Counted(tasks: seq<Task>): nat {
    if tasks == [] then 0 else (if tasks[0].Collected? then 1 else 0) + Counted(tasks[1..])
  }

  lemma {:induction false} AllCounted(tasks: seq<Task>)
    ensures (forall i | 0 <= i < |tasks| :: tasks[i].Collected?) ==> Counted(tasks) == |tasks|
    ensures (forall i | 0 <= i < |tasks| :: !tasks[i].Collected?) ==> Counted(tasks) == 0
  {
    if tasks != [] {
      AllCounted(tasks[1..]);
    }
  }

  lemma {:induction false} TaskMoved(tasks: seq<Task>, i: nat, t: Task)
    requires i < |tasks|
    requires (tasks[i].Spawned? && t.Started?) || (tasks[i].Started? && t.Finished?)
          || (tasks[i].Finished? && t.Collected?)
    ensures StepsLeft(tasks[i := t]) < StepsLeft(tasks)
    ensures Counted(tasks[i := t]) == Counted(tasks) + if t.Collected? then 1 else 0
  {
    if i == 0 {
      assert tasks[0 := t][1..] == tasks[1..];
    } else {
      TaskMoved(tasks[1..], i - 1, t);
      assert tasks[i := t][1..] == tasks[1..][i - 1 := t];
    }
  }

  /** The tasks whose result has not been recorded yet. */
  function Outstanding(ready: seq<NodeId>, tasks: seq<Task>): multiset<NodeId>
    requires |tasks| == |ready|
  {
    if tasks == [] then multiset{}
    else (if tasks[0].Collected? then multiset{} else multiset{ready[0]}) + Outstanding(ready[1..], tasks[1..])
  }

  lemma {:induction false} OutstandingStep(ready: seq<NodeId>, tasks: seq<Task>, i: nat, t: Task)
    requires |tasks| == |ready| && i < |tasks| && !tasks[i].Collected?
    ensures Outstanding(ready, tasks)
         == Outstanding(ready, tasks[i := t]) + if t.Collected? then multiset{ready[i]} else multiset{}
  {
    if i == 0 {
      assert tasks[0 := t][1..] == tasks[1..];
    } else {
      OutstandingStep(ready[1..], tasks[1..], i - 1, t);
      assert tasks[i := t][1..] == tasks[1..][i - 1 := t];
    }
  }

  lemma {:induction false} OutstandingEnds(ready: seq<NodeId>, tasks: seq<Task>)
    requires |tasks| == |ready|
    ensures (forall i | 0 <= i < |tasks| :: tasks[i].Collected?) ==> Outstanding(ready, tasks) == multiset{}
    ensures (forall i | 0 <= i < |tasks| :: !tasks[i].Collected?) ==> Outstanding(ready, tasks) == multiset(ready)
  {
    if tasks != [] {
      OutstandingEnds(ready[1..], tasks[1..]);
      assert ready == [ready[0]] + ready[1..];
    }
  }

  /** A task that has started has read what was recorded after `read` results. */
  ghost predicate TaskFits(job: Job, id: NodeId, before: Outputs, s: Schedule, read: nat, task: Task)
    requires Timely(s)
  {
    && read <= |s.order|
    && match task
       case Spawned => true
       case Started(message) => message == MessageOf(job, id, Recording(ProducerOf(job), before, s, read))
       case Finished(result) =>
         result == Invoked(job, id, MessageOf(job, id, Recording(ProducerOf(job), before, s, read)))
       case Collected => true
  }

  /** Half way through a round. */
  ghost predicate Running(job: Job, ready: seq<NodeId>, before: Outputs, s: Schedule,
                          readAt: seq<nat>, tasks: seq<Task>) {
    && |tasks| == |ready| == |readAt| && Timely(s)
    && multiset(s.order) + Outstanding(ready, tasks) == multiset(ready)
    && forall i | 0 <= i < |ready| :: TaskFits(job, ready[i], before, s, readAt[i], tasks[i])
  }

  lemma StartedReads(job: Job, ready: seq<NodeId>, before: Outputs, s: Schedule,
                     readAt: seq<nat>, tasks: seq<Task>, i: nat)
    requires Running(job, ready, before, s, readAt, tasks) && i < |tasks| && tasks[i].Spawned?
    ensures var message := MessageOf(job, ready[i], Recording(ProducerOf(job), before, s, |s.order|));
      Running(job, ready, before, s, readAt[i := |s.order|], tasks[i := Started(message)])
  {
    var message := MessageOf(job, ready[i], Recording(ProducerOf(job), before, s, |s.order|));
    OutstandingStep(ready, tasks, i, Started(message));
  }

  lemma FinishedProduces(job: Job, ready: seq<NodeId>, before: Outputs, s: Schedule,
                         readAt: seq<nat>, tasks: seq<Task>, i: nat)
    requires Running(job, ready, before, s, readAt, tasks) && i < |tasks| && tasks[i].Started?
    ensures Running(job, ready, before, s, readAt, tasks[i := Finished(Invoked(job, ready[i], tasks[i].message))])
  {
    var finished := Finished(Invoked(job, ready[i], tasks[i].message));
    OutstandingStep(ready, tasks, i, finished);
    forall j | 0 <= j < |ready| ensures TaskFits(job, ready[j], before, s, readAt[j], tasks[i := finished][j]) {
      assert TaskFits(job, ready[j], before, s, readAt[j], tasks[j]);
    }
  }

  function Later(s: Schedule, id: NodeId, read: nat): Schedule {
    Schedule(s.order + [id], s.starts + [read])
  }

  lemma LaterTimely(s: Schedule, id: NodeId, read: nat)
    requires Timely(s) && read <= |s.order|
    ensures Timely(Later(s, id, read))
  {
  }

  lemma RecordingStep(produce: Producer, before: Outputs, s: Schedule, i: nat)
    requires Timely(s) && 0 < i <= |s.order|
    ensures Recording(produce, before, s, i)
         == Recording(produce, before, s, i - 1)[s.order[i - 1] :=
              produce(s.order[i - 1], Recording(produce, before, s, s.starts[i - 1]))]
  {
  }

  /** What has been recorded does not depend on what follows. */
  lemma {:induction false} RecordingKept(produce: Producer, before: Outputs, s: Schedule, id: NodeId, read: nat, i: nat)
    requires Timely(s) && Timely(Later(s, id, read)) && i <= |s.order|
    ensures Recording(produce, before, Later(s, id, read), i) == Recording(produce, before, s, i)
    decreases i
  {
    if i > 0 {
      var s' := Later(s, id, read);
      var x, start := s.order[i - 1], s.starts[i - 1];
      assert s'.order[i - 1] == x && s'.starts[i - 1] == start;
      RecordingKept(produce, before, s, id, read, i - 1);
      RecordingKept(produce, before, s, id, read, start);
      RecordingStep(produce, before, s', i);
      RecordingStep(produce, before, s, i);
    }
  }

  lemma RecordingNext(produce: Producer, before: Outputs, s: Schedule, id: NodeId, read: nat)
    requires Timely(s) && read <= |s.order|
    ensures var s' := Later(s, id, read);
      && Timely(s')
      && Recording(produce, before, s', |s'.order|)
         == Recording(produce, before, s, |s.order|)[id := produce(id, Recording(produce, before, s, read))]
  {
    LaterTimely(s, id, read);
    RecordingKept(produce, before, s, id, read, |s.order|);
    RecordingKept(produce, before, s, id, read, read);
  }

  lemma StillFits(job: Job, id: NodeId, before: Outputs, s: Schedule, read: nat, task: Task, other: NodeId, start: nat)
    requires Timely(s) && start <= |s.order| && TaskFits(job, id, before, s, read, task)
    ensures Timely(Later(s, other, start)) && TaskFits(job, id, before, Later(s, other, start), read, task)
  {
    LaterTimely(s, other, start);
    RecordingKept(ProducerOf(job), before, s, other, start, read);
  }

  lemma CollectedRecords(job: Job, ready: seq<NodeId>, before: Outputs, s: Schedule,
                         readAt: seq<nat>, tasks: seq<Task>, i: nat)
    requires Running(job, ready, before, s, readAt, tasks) && i < |tasks| && tasks[i].Finished?
    ensures var s' := Later(s, ready[i], readAt[i]);
      && Running(job, ready, before, s', readAt, tasks[i := Collected])
      && Recording(ProducerOf(job), before, s', |s'.order|)
         == Recording(ProducerOf(job), before, s, |s.order|)[ready[i] := Recorded(tasks[i].result)]
  {
    var s' := Later(s, ready[i], readAt[i]);
    assert TaskFits(job, ready[i], before, s, readAt[i], tasks[i]);
    RecordingNext(ProducerOf(job), before, s, ready[i], readAt[i]);
    OutstandingStep(ready, tasks, i, Collected);
    forall j | 0 <= j < |ready| ensures TaskFits(job, ready[j], before, s', readAt[j], tasks[i := Collected][j]) {
      if j != i {
        assert TaskFits(job, ready[j], before, s, readAt[j], tasks[j]);
        StillFits(job, ready[j], before, s, readAt[j], tasks[j], ready[i], readAt[i]);
      }
    }
  }

  lemma RoundOver(job: Job, ready: seq<NodeId>, before: Outputs, s: Schedule, readAt: seq<nat>, tasks: seq<Task>)
    requires Running(job, ready, before, s, readAt, tasks) && forall i | 0 <= i < |tasks| :: tasks[i].Collected?
    ensures LayerOf(job, multiset(ready), before, Recording(ProducerOf(job), before, s, |s.order|))
  {
    OutstandingEnds(ready, tasks);
    assert ScheduleOf(s, multiset(ready));
  }

  /** The moment follows the schedule `s`. */
  ghost predicate Follows(job: Job, ready: seq<NodeId>, before: Outputs, s: Schedule, readAt: seq<nat>, m: Moment) {
    && Running(job, ready, before, s, readAt, m.tasks)
    && m.outputs == Recording(ProducerOf(job), before, s, |s.order|)
  }

  lemma StartFollows(job: Job, ready: seq<NodeId>, before: Outputs) returns (s: Schedule, readAt: seq<nat>)
    ensures Follows(job, ready, before, s, readAt, Start(|ready|, before))
  {
    s, readAt := Schedule([], []), seq(|ready|, i => 0);
    OutstandingEnds(ready, Start(|ready|, before).tasks);
  }

  lemma MoveFollows(job: Job, ready: seq<NodeId>, before: Outputs, s: Schedule, readAt: seq<nat>,
                    m: Moment, i: nat, m': Moment)
    returns (s': Schedule, readAt': seq<nat>)
    requires Follows(job, ready, before, s, readAt, m) && Moves(job, ready, m, i, m')
    ensures Follows(job, ready, before, s', readAt', m')
  {
    s', readAt' := s, readAt;
    match m.tasks[i]
    case Spawned =>
      StartedReads(job, ready, before, s, readAt, m.tasks, i);
      readAt' := readAt[i := |s.order|];
    case Started(_) =>
      FinishedProduces(job, ready, before, s, readAt, m.tasks, i);
    case Finished(_) =>
      CollectedRecords(job, ready, before, s, readAt, m.tasks, i);
      s' := Later(s, ready[i], readAt[i]);
  }

  lemma SomeMoveFollows(job: Job, ready: seq<NodeId>, before: Outputs, s: Schedule, readAt: seq<nat>,
                        m: Moment, m': Moment)
    returns (s': Schedule, readAt': seq<nat>)
    requires Follows(job, ready, before, s, readAt, m) && SomeMoves(job, ready, m, m')
    ensures Follows(job, ready, before, s', readAt', m')
  {
    var i: nat :| Moves(job, ready, m, i, m');
    s', readAt' := MoveFollows(job, ready, before, s, readAt, m, i, m');
  }

  /** However the tasks move, what they have recorded is what some schedule records. */
  lemma {:induction false} EachFollows(job: Job, ready: seq<NodeId>, before: Outputs, ms: seq<Moment>, m: Moment,
                                       k: nat)
    returns (s: Schedule, readAt: seq<nat>)
    requires LeadsTo(job, ready, before, ms, m) && k < |ms|
    ensures Follows(job, ready, before, s, readAt, ms[k])
    decreases k
  {
    if k == 0 {
      s, readAt := StartFollows(job, ready, before);
    } else {
      s, readAt := EachFollows(job, ready, before, ms, m, k - 1);
      assert MovesAt(job, ready, ms, k - 1);
      s, readAt := SomeMoveFollows(job, ready, before, s, readAt, ms[k - 1], ms[k]);
    }
  }

  lemma PerformsLayer(job: Job, ready: seq<NodeId>, before: Outputs, after: Outputs)
    requires Performs(job, ready, before, after)
    ensures LayerOf(job, multiset(ready), before, after)
  {
    var ms, m :| LeadsTo(job, ready, before, ms, m) && Over(m) && m.outputs == after;
    var s, readAt := EachFollows(job, ready, before, ms, m, |ms| - 1);
    RoundOver(job, ready, before, s, readAt, m.tasks);
  }

  lemma MoveMade(job: Job, ready: seq<NodeId>, before: Outputs, ms: seq<Moment>, m: Moment, i: nat, m': Moment)
    returns (longer: seq<Moment>)
    requires LeadsTo(job, ready, before, ms, m) && Moves(job, ready, m, i, m')
    ensures LeadsTo(job, ready, before, longer, m')
  {
    longer := ms + [m'];
    assert SomeMoves(job, ready, m, m');
    forall k: nat | k + 1 < |longer| ensures MovesAt(job, ready, longer, k) {
      if k + 1 < |ms| { assert MovesAt(job, ready, ms, k) && longer[k] == ms[k] && longer[k + 1] == ms[k + 1]; }
    }
  }

  lemma MoveCounts(job: Job, ready: seq<NodeId>, m: Moment, i: nat, m': Moment)
    requires Moves(job, ready, m, i, m')
    ensures |m'.tasks| == |ready| && StepsLeft(m'.tasks) < StepsLeft(m.tasks)
    ensures Counted(m'.tasks) == Counted(m.tasks) + if m.tasks[i].Finished? then 1 else 0
  {
    TaskMoved(m.tasks, i, m'.tasks[i]);
  }

  /** Runs the ready nodes concurrently: at each turn any task that is not collected yet makes its
      next step, building its message, invoking its agent, or having its result recorded. */
  method RunLayer(job: Job, ready: seq<NodeId>, before: Outputs) returns (after: Outputs, executed: nat)
    requires forall id | id in ready :: id in Ids(job.w)
    ensures Performs(job, ready, before, after) && LayerOf(job, multiset(ready), before, after)
    ensures executed == |ready|
  {
    after, executed := before, 0;
    var tasks := seq(|ready|, i => Spawned);
    ghost var ms := [Start(|ready|, before)];
    AllCounted(tasks);
    while exists i | 0 <= i < |tasks| :: !tasks[i].Collected?
      invariant |tasks| == |ready| && LeadsTo(job, ready, before, ms, Moment(tasks, after))
      invariant executed == Counted(tasks)
      decreases StepsLeft(tasks)
    {
      var i :| 0 <= i < |tasks| && !tasks[i].Collected?;
      var found := NodeAt(job.w.nodes, ready[i]);
      NodeFound(job.w.nodes, ready[i]);
      assert ready[i] in ready && found.Some?;
      ghost var m := Moment(tasks, after);
      match tasks[i] {
        case Spawned =>
          var message := BuildNodeMessage(found.value, job.input, after);
          tasks := tasks[i := Started(message)];
        case Started(message) =>
          var result := job.invoke(found.value.agentId, message);
          tasks := tasks[i := Finished(result)];
        case Finished(result) =>
          after, executed := after[ready[i] := Recorded(result)], executed + 1;
          tasks := tasks[i := Collected];
      }
      MoveCounts(job, ready, m, i, Moment(tasks, after));
      ms := MoveMade(job, ready, before, ms, m, i, Moment(tasks, after));
    }
    AllCounted(tasks);
    assert Over(Moment(tasks, after));
    PerformsLayer(job, ready, before, after);
  }

  lemma {:induction false} NodeFound(nodes: seq<Node>, id: NodeId)
    ensures NodeAt(nodes, id).Some? <==> id in IdsOf(nodes)
    ensures NodeAt(nodes, id).Some? ==> NodeAt(nodes, id).value in nodes && NodeAt(nodes, id).value.id == id
  {
    if nodes != [] {
      NodeFound(nodes[1..], id);
      assert nodes == [nodes[0]] + nodes[1..];
      assert IdsOf(nodes) == {nodes[0].id} + IdsOf(nodes[1..]);
    }
  }

  // ---- the whole execution ----

  method FindReady(job: Job, outputs: Outputs) returns (ready: seq<NodeId>)
    requires DistinctIds(job.w)
    ensures Elements(ready) == Ready(job, outputs)
    ensures Distinct(ready)
  {
    ready := [];
    for n := 0 to |job.w.nodes|
      invariant Distinct(ready)
      invariant forall id :: id in ready <==> id in IdsOf(job.w.nodes[..n]) && IsReady(job, id, outputs)
    {
      var id := job.w.nodes[n].id;
      assert job.w.nodes[..n + 1] == job.w.nodes[..n] + [job.w.nodes[n]];
      IdsOfAppend(job.w.nodes[..n], job.w.nodes[n]);
      assert id !in IdsOf(job.w.nodes[..n]);
      var sourcesDone := forall e | e in job.w.edges && e.to == id :: e.from in outputs;
      var conditionMet := exists e | e in job.w.edges && e.to == id ::
        ConditionMet(job, e.condition, if e.from in outputs then outputs[e.from] else "");
      if id !in outputs && sourcesDone && conditionMet {
        ready := ready + [id];
      }
    }
    assert job.w.nodes[..|job.w.nodes|] == job.w.nodes;
  }

  lemma {:induction false} DistinctCount(xs: seq<NodeId>)
    requires Distinct(xs)
    ensures |Elements(xs)| == |xs|
  {
    if xs != [] {
      DistinctCount(xs[1..]);
      assert Elements(xs) == {xs[0]} + Elements(xs[1..]);
    }
  }

  lemma {:induction false} DistinctTasks(xs: seq<NodeId>)
    requires Distinct(xs)
    ensures multiset(xs) == multiset(Elements(xs))
  {
    forall x ensures multiset(xs)[x] == multiset(Elements(xs))[x] {
      OccursOnce(xs, x);
      assert x in multiset(Elements(xs)) <==> x in Elements(xs);
    }
  }

  lemma {:induction false} OccursOnce(xs: seq<NodeId>, x: NodeId)
    requires Distinct(xs)
    ensures multiset(xs)[x] == if x in xs then 1 else 0
  {
    if xs != [] {
      OccursOnce(xs[1..], x);
      assert xs == [xs[0]] + xs[1..];
      assert forall i | 0 <= i < |xs| - 1 :: xs[1..][i] == xs[i + 1] != xs[0];
    }
  }

  /** How many entries repeat another. */
  function Repeated(ids: seq<NodeId>): int {
    |ids| - |Elements(ids)|
  }

  predicate CountsUp(executed: nat, ready: seq<NodeId>, outputs: Outputs, entries: seq<NodeId>) {
    executed + Repeated(ready) == |outputs| + Repeated(entries)
  }

  lemma RoundCount(executed: nat, ready: seq<NodeId>, before: Outputs, after: Outputs,
                   next: seq<NodeId>, entries: seq<NodeId>)
    requires CountsUp(executed, ready, before, entries) && Distinct(next)
    requires Elements(ready) !! before.Keys && after.Keys == before.Keys + Elements(ready)
    ensures CountsUp(executed + |ready|, next, after, entries)
  {
    assert |after| == |after.Keys| && |before| == |before.Keys|;
    DistinctCount(next);
  }

  /** Between rounds. */
  ghost predicate Executing(job: Job, trace: seq<Outputs>, ready: seq<NodeId>, executed: nat) {
    && IsRun(job, trace)
    && var outputs := trace[|trace| - 1];
    && outputs.Keys <= Ids(job.w)
    && multiset(ready) == Tasks(job, |trace| - 1, outputs)
    && Elements(ready) == Round(job, |trace| - 1, outputs) && Elements(ready) <= Ids(job.w)
    && Elements(ready) !! outputs.Keys
    && (|trace| > 1 || ready != [])
    && CountsUp(executed, ready, outputs, job.w.entryNodes)
  }

  lemma ExecutionStarts(job: Job)
    requires RefersToNodes(job.w) && job.w.entryNodes != []
    ensures Executing(job, [map[]], job.w.entryNodes, 0)
  {
    assert IsRun(job, [map[]]);
  }

  lemma RunExtended(job: Job, trace: seq<Outputs>, after: Outputs)
    requires IsRun(job, trace) && Advances(job, |trace| - 1, trace[|trace| - 1], after)
    ensures IsRun(job, trace + [after])
  {
    var longer := trace + [after];
    forall k: nat | k + 1 < |longer| ensures AdvancesAt(job, longer, k) {
      if k + 1 < |trace| {
        assert AdvancesAt(job, trace, k);
        assert longer[k] == trace[k] && longer[k + 1] == trace[k + 1];
      }
    }
  }

  lemma RoundDone(job: Job, trace: seq<Outputs>, ready: seq<NodeId>, executed: nat, after: Outputs, next: seq<NodeId>)
    requires Executing(job, trace, ready, executed) && ready != []
    requires LayerOf(job, multiset(ready), trace[|trace| - 1], after)
    requires Elements(next) == Ready(job, after) && Distinct(next)
    ensures Executing(job, trace + [after], next, executed + |ready|)
    ensures Ids(job.w) - after.Keys < Ids(job.w) - trace[|trace| - 1].Keys
  {
    var outputs := trace[|trace| - 1];
    assert ready[0] in Elements(ready);
    assert Advances(job, |trace| - 1, outputs, after);
    RoundAdds(job, |trace| - 1, outputs, after);
    RoundCount(executed, ready, outputs, after, next, job.w.entryNodes);
    RunExtended(job, trace, after);
    DistinctTasks(next);
    assert ready[0] in Ids(job.w) - outputs.Keys && ready[0] !in Ids(job.w) - after.Keys;
  }

  lemma ExecutionEnds(job: Job, trace: seq<Outputs>, executed: nat)
    requires Executing(job, trace, [], executed)
    ensures Complete(job, trace) && executed == |trace[|trace| - 1]| + Repeated(job.w.entryNodes)
  {
  }

  /** Round after round until no node is ready. */
  method RunRounds(job: Job) returns (outputs: Outputs, executed: nat, ghost trace: seq<Outputs>)
    requires RefersToNodes(job.w) && DistinctIds(job.w) && job.w.entryNodes != []
    ensures Complete(job, trace) && outputs == trace[|trace| - 1]
    ensures executed == |outputs| + Repeated(job.w.entryNodes)
  {
    outputs, executed, trace := map[], 0, [map[]];
    var ready := job.w.entryNodes;
    ExecutionStarts(job);
    while ready != []
      invariant Executing(job, trace, ready, executed) && outputs == trace[|trace| - 1]
      decreases Ids(job.w) - outputs.Keys
    {
      assert forall id | id in ready :: id in Elements(ready);
      var after, count := RunLayer(job, ready, outputs);
      var next := FindReady(job, after);
      RoundDone(job, trace, ready, executed, after, next);
      outputs, executed, trace, ready := after, executed + count, trace + [after], next;
    }
    ExecutionEnds(job, trace, executed);
  }

  /** Executes a workflow. `executed` counts the invocations. */
  method Execute(job: Job)
    returns (result: Result<string, Failure>, outputs: Outputs, executed: nat, ghost trace: seq<Outputs>)
    ensures !WellFormed(job.w) ==> result.Err? && result.error.Invalid? && Justified(job.w, result.error.why)
    ensures WellFormed(job.w) ==> Complete(job, trace) && outputs == trace[|trace| - 1]
    ensures WellFormed(job.w) ==> result == FinalResult(job.w, outputs) && Holds(job.w, outputs, result)
    ensures WellFormed(job.w) ==> executed == |outputs| + Repeated(job.w.entryNodes)
  {
    var valid := Validate(job.w);
    if valid.Err? {
      return Err(Invalid(valid.error)), map[], 0, [map[]];
    }
    outputs, executed, trace := RunRounds(job);
    result := FinalResult(job.w, outputs);
    ResultHolds(job.w, outputs);
  }
}
