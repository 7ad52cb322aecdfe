/** Which templates make a workflow independent of the schedule, whatever agents and conditions say. */
module WorkflowNaming {
  import opened Wrappers
  import opened WorkflowGraph
  import opened MessageTemplate
  import opened WorkflowValidation
  import opened WorkflowExecution
  import opened WorkflowLevels
  import opened WorkflowPaths
  import opened WorkflowSchedules

  function NamesOf(job: Job, id: NodeId): set<NodeId> {
    match NodeAt(job.w.nodes, id)
    case None => {}
    case Some(node) => Names(node, job.input)
  }

  // ---- naming sources is enough ----

  lemma UnnamedUnmoved(job: Job, before: Outputs, id: NodeId, done: set<NodeId>)
    requires NamesOf(job, id) !! done
    ensures Unmoved(ProducerOf(job), before, id, done)
  {
    match NodeAt(job.w.nodes, id)
    case None =>
    case Some(node) =>
      var seen := before + RoundOutputs(ProducerOf(job), done, before);
      assert AgreeOn(seen, before, Names(node, job.input));
      MessageReadsItsNames(node, job.input, seen, before);
  }

  /** Templates that name only the sources of their node, and none in an entry node, are enough. */
  lemma NamingSourcesIsOrderFree(job: Job)
    requires forall id, name | id in Ids(job.w) && name in NamesOf(job, id) :: HasEdge(job.w, name, id)
    requires forall id | id in job.w.entryNodes :: NamesOf(job, id) == {}
    ensures OrderFree(job)
  {
    forall k: nat ensures RoundFreeAt(job, k) {
      var before := After(job, k);
      forall id, done | MayPrecede(Tasks(job, k, before), id, done)
        ensures Unmoved(ProducerOf(job), before, id, done)
      {
        SourcesPrecede(job, k, id, done);
        UnnamedUnmoved(job, before, id, done);
      }
    }
  }

  lemma SourcesPrecede(job: Job, k: nat, id: NodeId, done: set<NodeId>)
    requires forall id, name | id in Ids(job.w) && name in NamesOf(job, id) :: HasEdge(job.w, name, id)
    requires forall id | id in job.w.entryNodes :: NamesOf(job, id) == {}
    requires MayPrecede(Tasks(job, k, After(job, k)), id, done)
    ensures NamesOf(job, id) !! done
  {
    var before := After(job, k);
    TasksAreRound(job, k, before, id);
    forall x | x in NamesOf(job, id) ensures x !in done {
      TasksAreRound(job, k, before, x);
      assert HasEdge(job.w, x, id);
    }
  }

  // ---- exactly which templates ----

  /** No node names another of its own level. */
  ghost predicate NamesOtherLevels(job: Job) {
    forall a, b, k: nat {:trigger Level(job.w, a, k), Level(job.w, b, k)} |
      a in Ids(job.w) && b in Ids(job.w) && b in NamesOf(job, a) && Level(job.w, a, k) && Level(job.w, b, k) :: a == b
  }

  /** No node that is listed twice as an entry names itself. */
  predicate RepeatedAreQuiet(job: Job) {
    forall a | a in job.w.entryNodes && multiset(job.w.entryNodes)[a] > 1 :: a !in NamesOf(job, a)
  }

  lemma OneTask(job: Job, k: nat, before: Outputs, id: NodeId)
    requires id in Tasks(job, k, before) && Tasks(job, k, before)[id] > 1
    ensures k == 0 && id in job.w.entryNodes && multiset(job.w.entryNodes)[id] > 1
  {
  }

  lemma LevelsUnnamed(job: Job, k: nat, id: NodeId, done: set<NodeId>)
    requires WellFormed(job.w) && NamesOtherLevels(job) && RepeatedAreQuiet(job)
    requires MayPrecede(Tasks(job, k, After(job, k)), id, done)
    ensures NamesOf(job, id) !! done
  {
    var before := After(job, k);
    TasksAreRound(job, k, before, id);
    RoundHasLevel(job, k, id);
    forall x | x in NamesOf(job, id) ensures x !in done {
      if x in done {
        TasksAreRound(job, k, before, x);
        RoundHasLevel(job, k, x);
        if x == id { OneTask(job, k, before, id); }
      }
    }
  }

  lemma NamingOtherLevelsIsOrderFree(job: Job)
    requires WellFormed(job.w) && NamesOtherLevels(job) && RepeatedAreQuiet(job)
    ensures OrderFree(job)
  {
    forall k: nat ensures RoundFreeAt(job, k) {
      var before := After(job, k);
      forall id, done | MayPrecede(Tasks(job, k, before), id, done)
        ensures Unmoved(ProducerOf(job), before, id, done)
      {
        LevelsUnnamed(job, k, id, done);
        UnnamedUnmoved(job, before, id, done);
      }
    }
  }

  // ---- an agent that gives a race away ----

  /** Repeats its message behind a mark that the text for a missing output does not begin with. */
  function Marking(agent: string, message: string): Result<string, string> {
    Ok("#" + message)
  }

  lemma MarkingProduces(job: Job, id: NodeId, seen: Outputs)
    requires job.invoke == Marking && id in Ids(job.w)
    ensures NodeAt(job.w.nodes, id).Some?
    ensures ProducerOf(job)(id, seen) == "#" + NodeMessage(NodeAt(job.w.nodes, id).value, job.input, seen)
  {
    NodeFound(job.w.nodes, id);
  }

  lemma MarkingNotices(job: Job, before: Outputs, a: NodeId, b: NodeId)
    requires job.invoke == Marking && a in Ids(job.w) && b in Ids(job.w)
    requires b in NamesOf(job, a) && b !in before
    ensures !Unmoved(ProducerOf(job), before, a, {b})
  {
    var seen := before + RoundOutputs(ProducerOf(job), {b}, before);
    MarkingProduces(job, a, before);
    MarkingProduces(job, a, seen);
    MarkingProduces(job, b, before);
    var node := NodeAt(job.w.nodes, a).value;
    MarkedDiffer(node, job.input, before, seen, b);
    MarksDiffer(NodeMessage(node, job.input, before), NodeMessage(node, job.input, seen));
  }

  lemma MarkedDiffer(node: Node, input: string, before: Outputs, seen: Outputs, b: NodeId)
    requires b in Names(node, input) && b !in before && b in seen && seen[b] != "" && seen[b][0] == '#'
    requires forall id | id != b :: (id in before <==> id in seen) && (id in before ==> before[id] == seen[id])
    ensures NodeMessage(node, input, before) != NodeMessage(node, input, seen)
  {
    if node.template.None? {
      EmptyMentionsNothing();
    }
    FilledDiffers(Read(Substituted(node, input), OUTPUT), OUTPUT, before, seen, b);
  }

  lemma EmptyMentionsNothing()
    ensures Mentions(Read("", OUTPUT)) == {}
  {
    var empty := "";
    FindsLeftmost(empty, OUTPUT, 0);
  }

  lemma MarksDiffer(x: string, y: string)
    requires x != y
    ensures "#" + x != "#" + y
  {
    if "#" + x == "#" + y { PrefixCancels("#", x, y); }
  }

  lemma SameLevelRaces(job: Job, a: NodeId, b: NodeId, k: nat)
    requires WellFormed(job.w) && AlwaysMet(job) && job.invoke == Marking
    requires a in Ids(job.w) && b in Ids(job.w) && a != b && b in NamesOf(job, a)
    requires Level(job.w, a, k) && Level(job.w, b, k)
    ensures !Agree(job)
  {
    var before := After(job, k);
    LevelIsRound(job, k, a);
    LevelIsRound(job, k, b);
    TasksAreRound(job, k, before, a);
    TasksAreRound(job, k, before, b);
    ReachesAll(job, k);
    MarkingNotices(job, before, a, b);
    Race(job, k, a, {b});
  }

  /** The second task of an entry node that names itself may or may not read what the first recorded. */
  lemma RepeatedRaces(job: Job, a: NodeId)
    requires WellFormed(job.w) && job.invoke == Marking
    requires a in job.w.entryNodes && multiset(job.w.entryNodes)[a] > 1 && a in NamesOf(job, a)
    ensures !Agree(job)
  {
    MarkingNotices(job, map[], a, a);
    assert MayPrecede(Tasks(job, 0, After(job, 0)), a, {a});
    Race(job, 0, a, {a});
  }

  lemma MarkingRaces(job: Job)
    requires WellFormed(job.w) && AlwaysMet(job) && job.invoke == Marking
    requires !(NamesOtherLevels(job) && RepeatedAreQuiet(job))
    ensures !Agree(job)
  {
    if !RepeatedAreQuiet(job) {
      var a :| a in job.w.entryNodes && multiset(job.w.entryNodes)[a] > 1 && a in NamesOf(job, a);
      RepeatedRaces(job, a);
    } else {
      var a, b, k: nat :| a in Ids(job.w) && b in Ids(job.w) && b in NamesOf(job, a)
                          && Level(job.w, a, k) && Level(job.w, b, k) && a != b;
      SameLevelRaces(job, a, b, k);
    }
  }

  function With(job: Job, invoke: (string, string) -> Result<string, string>,
                matches: (Condition, string) -> bool): Job
  {
    job.(invoke := invoke, matches := matches)
  }

  ghost predicate AgreeWith(job: Job, invoke: (string, string) -> Result<string, string>,
                            matches: (Condition, string) -> bool)
  {
    Agree(With(job, invoke, matches))
  }

  lemma SameNames(job: Job, invoke: (string, string) -> Result<string, string>, matches: (Condition, string) -> bool)
    ensures var job' := With(job, invoke, matches);
      && (NamesOtherLevels(job') <==> NamesOtherLevels(job))
      && (RepeatedAreQuiet(job') <==> RepeatedAreQuiet(job))
  {
    assert forall id :: NamesOf(With(job, invoke, matches), id) == NamesOf(job, id);
  }

  lemma QuietAgrees(job: Job, invoke: (string, string) -> Result<string, string>, matches: (Condition, string) -> bool)
    requires WellFormed(job.w) && NamesOtherLevels(job) && RepeatedAreQuiet(job)
    ensures AgreeWith(job, invoke, matches)
  {
    SameNames(job, invoke, matches);
    NamingOtherLevelsIsOrderFree(With(job, invoke, matches));
    AgreeExactly(With(job, invoke, matches));
  }

  function Met(c: Condition, output: string): bool {
    true
  }

  /** Whatever the agents answer and whichever conditions are met, all executions of a valid workflow
      agree, exactly when no template, after substitution of the input, names another node of its own
      level, and no node listed twice as an entry names itself. */
  lemma AgreeForAllExactly(job: Job)
    requires WellFormed(job.w)
    ensures (forall invoke, matches :: AgreeWith(job, invoke, matches))
       <==> NamesOtherLevels(job) && RepeatedAreQuiet(job)
  {
    if NamesOtherLevels(job) && RepeatedAreQuiet(job) {
      forall invoke, matches ensures AgreeWith(job, invoke, matches) {
        QuietAgrees(job, invoke, matches);
      }
    } else {
      SameNames(job, Marking, Met);
      MarkingRaces(With(job, Marking, Met));
      assert !AgreeWith(job, Marking, Met);
    }
  }

  // ---- workflows without conditions ----

  /** The longest path that ends at the node has `k` edges. */
  ghost predicate PathLevel(w: Workflow, id: NodeId, k: nat) {
    EndsPath(w, id, k) && !EndsPath(w, id, k + 1)
  }

  lemma RoundIsPathLevel(job: Job, k: nat, id: NodeId)
    requires WellFormed(job.w) && Unconditional(job.w) && id in Ids(job.w)
    ensures id in Round(job, k, After(job, k)) <==> PathLevel(job.w, id, k)
  {
    var full := SequentialRun(job);
    var last := |full| - 1;
    if k < last {
      assert CanonicalAt(job, full, k);
      RoundIsLongestPath(job, full, k, id);
    } else {
      NothingAfter(job, full, k);
      EveryNodeRuns(job, full);
      RanIffNoLongPath(job, full, last, id);
      NoLongerPath(job.w, id, last, k);
    }
  }

  /** Without conditions the level of a node is the length of the longest path that ends at it. */
  lemma LevelIsLongestPath(job: Job, k: nat, id: NodeId)
    requires WellFormed(job.w) && Unconditional(job.w) && id in Ids(job.w)
    ensures Level(job.w, id, k) <==> PathLevel(job.w, id, k)
  {
    RoundIsPathLevel(job, k, id);
    if Level(job.w, id, k) { LevelIsRound(job, k, id); }
    if PathLevel(job.w, id, k) { RoundHasLevel(job, k, id); }
  }

  /** No node names another at which equally long paths end. */
  ghost predicate NamesOtherPathLevels(job: Job) {
    forall a, b, k: nat {:trigger PathLevel(job.w, a, k), PathLevel(job.w, b, k)} |
      a in Ids(job.w) && b in Ids(job.w) && b in NamesOf(job, a) && PathLevel(job.w, a, k) && PathLevel(job.w, b, k) ::
      a == b
  }

  lemma PathLevelsNamed(job: Job)
    requires WellFormed(job.w) && Unconditional(job.w)
    ensures NamesOtherPathLevels(job) <==> NamesOtherLevels(job)
  {
    forall id, k: nat | id in Ids(job.w) ensures Level(job.w, id, k) <==> PathLevel(job.w, id, k) {
      LevelIsLongestPath(job, k, id);
    }
  }

  /** So without conditions it is the lengths of paths that decide. */
  lemma AgreeForAllAgentsExactly(job: Job)
    requires WellFormed(job.w) && Unconditional(job.w)
    ensures (forall invoke :: AgreeWith(job, invoke, job.matches))
       <==> NamesOtherPathLevels(job) && RepeatedAreQuiet(job)
  {
    PathLevelsNamed(job);
    if NamesOtherLevels(job) && RepeatedAreQuiet(job) {
      AgreeForAllExactly(job);
    } else {
      SameNames(job, Marking, job.matches);
      MarkingRaces(With(job, Marking, job.matches));
      assert !AgreeWith(job, Marking, job.matches);
    }
  }

  // ---- a workflow whose executions differ: `a` repeats what `b` has produced ----

  function Echo(): Node {
    Node(NodeId("a"), "", Some("{output:b}"))
  }

  function Quiet(): Node {
    Node(NodeId("b"), "", None)
  }

  function EchoJob(): Job {
    Job(Workflow([Echo(), Quiet()], [], [NodeId("a"), NodeId("b")], []), "",
        (agent, message) => Ok(message), (condition, output) => false)
  }

  lemma EchoText(text: string)
    requires text == "{output:b}"
    ensures Substituted(Echo(), "") == text
  {
    FindsLeftmost(text, INPUT, 0);
    if k: nat :| OccursAt(text, INPUT, k) {
      assert text[k] == INPUT[0] && text[k + 1] == INPUT[1];
    }
  }

  lemma EchoReading(text: string)
    requires text == "{output:b}"
    ensures Read(text, OUTPUT) == Slot("", "b", Plain(""))
  {
    FindsLeftmost(text, OUTPUT, 0);
    assert OccursAt(text, OUTPUT, 0);
    assert Find(text, OUTPUT) == Some(0);
    var after, rest := text[8..], "";
    assert after == "b}";
    FindsFirstChar(after, '}', 0);
    assert FindChar(after, '}') == Some(1);
    assert after[..1] == "b" && after[2..] == rest;
    FindsLeftmost(rest, OUTPUT, 0);
  }

  lemma EchoMessage(seen: Outputs)
    ensures NodeMessage(Echo(), "", seen) == if NodeId("b") in seen then seen[NodeId("b")] else MISSING
  {
    var text := "{output:b}";
    EchoText(text);
    EchoReading(text);
    var output := Produced("b", seen);
    assert Filled(Plain(""), OUTPUT, seen) == "";
    assert Filled(Slot("", "b", Plain("")), OUTPUT, seen) == "" + output + "" == output;
    assert Echo().template == Some(text);
  }

  lemma EchoWellFormed()
    ensures WellFormed(EchoJob().w)
  {
    var w := EchoJob().w;
    assert w.nodes[0] in w.nodes && w.nodes[1] in w.nodes;
    assert "a"[0] != "b"[0];
    RankedIsAcyclic(w, map[]);
  }

  lemma EchoNotices(job: Job, a: NodeId, b: NodeId)
    requires job == EchoJob() && a == NodeId("a") && b == NodeId("b")
    ensures !Unmoved(ProducerOf(job), map[], a, {b})
  {
    assert job.w.nodes[0].id == a && job.w.nodes[1..][0].id == b;
    assert NodeAt(job.w.nodes, a) == Some(Echo()) && NodeAt(job.w.nodes, b) == Some(Quiet());
    var late := map[] + RoundOutputs(ProducerOf(job), {b}, map[]);
    EchoMessage(map[]);
    EchoMessage(late);
    assert Produce(job, b, map[]) == "" && Produce(job, a, late) == "" && Produce(job, a, map[]) == MISSING;
  }

  /** Two complete executions of this valid workflow end with different outputs. */
  lemma RaceExample()
    ensures WellFormed(EchoJob().w) && !Agree(EchoJob())
  {
    EchoWellFormed();
    var job, a, b := EchoJob(), NodeId("a"), NodeId("b");
    EchoNotices(job, a, b);
    var tasks := Tasks(job, 0, map[]);
    assert job.w.entryNodes[0] == a && job.w.entryNodes[1] == b && "a"[0] != "b"[0];
    assert a in tasks && b in tasks;
    Race(job, 0, a, {b});
  }
}
