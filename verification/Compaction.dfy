/** Cutting a history for compaction, and what the cut does to its repair. */
module Compaction {
  import opened Wrappers
  import opened Conversation

  // ---- where a history is cut ----

  /** Neither right after a message with a `tool_calls` entry nor right before a tool result. */
  predicate SafeCut(ms: seq<Message>, i: nat)
    requires i < |ms|
  {
    i == 0 || (!(ms[i - 1].role.Assistant? && ms[i - 1].toolCalls != NoCalls) && !ms[i].role.Tool?)
  }

  function LargestSafe(ms: seq<Message>, limit: nat): (b: nat)
    requires limit == 0 || limit < |ms|
    ensures b <= limit && (b == 0 || SafeCut(ms, b))
    ensures forall j | b < j <= limit :: !SafeCut(ms, j)
  {
    if limit == 0 || SafeCut(ms, limit) then limit else LargestSafe(ms, limit - 1)
  }

  function Boundary(ms: seq<Message>, keepRecent: nat): nat
    requires ms == [] || keepRecent > 0
  {
    LargestSafe(ms, if |ms| < keepRecent then 0 else |ms| - keepRecent)
  }

  method FindSafeCompactionBoundary(ms: seq<Message>, keepRecent: nat) returns (splitAt: nat)
    requires ms == [] || keepRecent > 0
    ensures splitAt == Boundary(ms, keepRecent)
  {
    splitAt := if |ms| < keepRecent then 0 else |ms| - keepRecent;
    while splitAt > 0
      invariant splitAt == 0 || splitAt < |ms|
      invariant LargestSafe(ms, splitAt) == Boundary(ms, keepRecent)
    {
      var current, previous := ms[splitAt], ms[splitAt - 1];
      var previousHasToolCalls := previous.role.Assistant? && previous.toolCalls != NoCalls;
      if previousHasToolCalls || current.role.Tool? {
        splitAt := splitAt - 1;
      } else {
        break;
      }
    }
  }

  // ---- repair across a cut ----

  /** The calls still owed a result after `a`, when `b` follows. */
  function PendingAt(a: seq<Message>, b: seq<Message>, pending: set<CallId>): set<CallId> {
    if a == [] then pending
    else PendingAt(a[1..], b, PendingAfter(a[0], a[1..] + b, pending))
  }

  lemma {:induction false} AnsweredAppend(a: seq<Message>, b: seq<Message>)
    ensures Answered(a) <= Answered(a + b)
  {
    if a != [] {
      assert (a + b)[1..] == a[1..] + b;
      AnsweredAppend(a[1..], b);
    }
  }

  /** What is owed at any point is answered later. */
  lemma StillAnswered(ms: seq<Message>, pending: set<CallId>)
    requires ms != [] && pending <= Answered(ms)
    ensures PendingAfter(ms[0], ms[1..], pending) <= Answered(ms[1..])
  {
  }

  lemma {:induction false} PendingIsAnswered(a: seq<Message>, b: seq<Message>, pending: set<CallId>)
    requires pending <= Answered(a + b)
    ensures PendingAt(a, b, pending) <= Answered(b)
  {
    if a == [] {
      assert a + b == b;
    } else {
      assert (a + b)[1..] == a[1..] + b;
      StillAnswered(a + b, pending);
      PendingIsAnswered(a[1..], b, PendingAfter(a[0], a[1..] + b, pending));
    }
  }

  /** If nothing is owed at the cut, everything owed before it was answered before it. */
  lemma {:induction false} AnsweredBeforeCut(a: seq<Message>, b: seq<Message>, pending: set<CallId>)
    requires pending <= Answered(a + b) && PendingAt(a, b, pending) == {}
    ensures pending <= Answered(a)
  {
    if a != [] {
      assert (a + b)[1..] == a[1..] + b;
      StillAnswered(a + b, pending);
      AnsweredBeforeCut(a[1..], b, PendingAfter(a[0], a[1..] + b, pending));
    }
  }

  lemma RepairFirst(m: Message, ms: seq<Message>, pending: set<CallId>)
    ensures RepairFrom([m] + ms, pending)
         == (if Keeps(m, ms, pending) then [m] else []) + RepairFrom(ms, PendingAfter(m, ms, pending))
  {
    assert ([m] + ms)[1..] == ms;
  }

  lemma Associates(a: seq<Message>, b: seq<Message>, c: seq<Message>)
    ensures (a + b) + c == a + (b + c)
  {
  }

  lemma {:induction false} CutApart(a: seq<Message>, b: seq<Message>, pending: set<CallId>)
    requires pending <= Answered(a + b) && PendingAt(a, b, pending) == {}
    ensures RepairFrom(a + b, pending) == RepairFrom(a, pending) + RepairFrom(b, {})
  {
    if a == [] {
      assert a + b == b;
    } else {
      var m, rest := a[0], a[1..];
      assert (a + b)[1..] == rest + b;
      StillAnswered(a + b, pending);
      var later := PendingAfter(m, rest + b, pending);
      CutApart(rest, b, later);
      AnsweredAppend(rest, b);
      if CallsTools(m) && Required(m) <= Answered(rest + b) {
        AnsweredBeforeCut(rest, b, later);
      }
      assert later == PendingAfter(m, rest, pending);
      assert Keeps(m, rest + b, pending) == Keeps(m, rest, pending);
      assert a + b == [m] + (rest + b) && a == [m] + rest;
      RepairFirst(m, rest + b, pending);
      RepairFirst(m, rest, pending);
      Associates(if Keeps(m, rest, pending) then [m] else [], RepairFrom(rest, later), RepairFrom(b, {}));
    }
  }

  /** The assistant messages of `a` whose calls are all answered, when `b` follows. */
  function AnsweredCallers(a: seq<Message>, b: seq<Message>): nat {
    if a == [] then 0
    else (if CallsTools(a[0]) && Required(a[0]) <= Answered(a[1..] + b) then 1 else 0) + AnsweredCallers(a[1..], b)
  }

  function Callers(ms: seq<Message>): nat {
    if ms == [] then 0 else (if CallsTools(ms[0]) then 1 else 0) + Callers(ms[1..])
  }

  lemma {:induction false} CallersAppend(a: seq<Message>, b: seq<Message>)
    ensures Callers(a + b) == Callers(a) + Callers(b)
  {
    if a == [] {
      assert a + b == b;
    } else {
      assert (a + b)[1..] == a[1..] + b;
      CallersAppend(a[1..], b);
    }
  }

  lemma {:induction false} CallersKept(ms: seq<Message>, pending: set<CallId>)
    ensures Callers(RepairFrom(ms, pending)) == AnsweredCallers(ms, [])
  {
    if ms != [] {
      var later := PendingAfter(ms[0], ms[1..], pending);
      assert ms[1..] + [] == ms[1..];
      CallersKept(ms[1..], later);
      CallersAppend([ms[0]], RepairFrom(ms[1..], later));
      assert [] + RepairFrom(ms[1..], later) == RepairFrom(ms[1..], later);
    }
  }

  lemma {:induction false} AnsweredCallersAppend(a: seq<Message>, b: seq<Message>)
    ensures AnsweredCallers(a + b, []) == AnsweredCallers(a, b) + AnsweredCallers(b, [])
  {
    if a == [] {
      assert a + b == b;
    } else {
      assert (a + b)[1..] == a[1..] + b && (a + b)[1..] + [] == a[1..] + b;
      AnsweredCallersAppend(a[1..], b);
    }
  }

  lemma {:induction false} FewerAlone(a: seq<Message>, b: seq<Message>)
    ensures AnsweredCallers(a, []) <= AnsweredCallers(a, b)
  {
    if a != [] {
      assert a[1..] + [] == a[1..];
      AnsweredAppend(a[1..], b);
      FewerAlone(a[1..], b);
    }
  }

  /** A call owed at the cut belongs to a message that the front part alone would lose. */
  lemma {:induction false} OwedCallerIsLost(a: seq<Message>, b: seq<Message>, pending: set<CallId>)
    requires pending <= Answered(a + b) && PendingAt(a, b, pending) != {}
    ensures AnsweredCallers(a, []) < AnsweredCallers(a, b) || !(pending <= Answered(a))
  {
    if a != [] {
      var m, rest := a[0], a[1..];
      assert (a + b)[1..] == rest + b && rest + [] == rest;
      StillAnswered(a + b, pending);
      OwedCallerIsLost(rest, b, PendingAfter(m, rest + b, pending));
      FewerAlone(rest, b);
      AnsweredAppend(rest, b);
    }
  }

  /** Repair distributes over a cut exactly when no kept call is still owed a result there. */
  lemma RepairDistributesExactly(a: seq<Message>, b: seq<Message>)
    ensures Repair(a + b) == Repair(a) + Repair(b) <==> PendingAt(a, b, {}) == {}
  {
    if PendingAt(a, b, {}) == {} {
      CutApart(a, b, {});
    } else {
      OwedCallerIsLost(a, b, {});
      CallersKept(a + b, {});
      CallersKept(a, {});
      CallersKept(b, {});
      AnsweredCallersAppend(a, b);
      CallersAppend(Repair(a), Repair(b));
    }
  }

  // ---- the safe cut ----

  ghost predicate NoSystemThenTool(ms: seq<Message>) {
    forall i, j | 0 <= i < j < |ms| && j == i + 1 :: !(ms[i].role.System? && ms[j].role.Tool?)
  }

  lemma {:induction false} NothingAnswered(ms: seq<Message>)
    requires NoSystemThenTool(ms) && (ms != [] ==> !ms[0].role.Tool?)
    ensures Answered(ms) == {}
  {
    if ms != [] && !Speaks(ms[0]) {
      NothingAnswered(ms[1..]);
    }
  }

  /** At the boundary nothing is owed, so both parts can be repaired on their own. */
  lemma RepairDistributesOverBoundary(ms: seq<Message>, keepRecent: nat)
    requires ms == [] || keepRecent > 0
    requires NoSystemThenTool(ms)
    ensures var b := Boundary(ms, keepRecent);
      Repair(ms) == Repair(ms[..b]) + Repair(ms[b..])
  {
    var b := Boundary(ms, keepRecent);
    assert ms == ms[..b] + ms[b..];
    if b > 0 {
      NothingAnswered(ms[b..]);
      PendingIsAnswered(ms[..b], ms[b..], {});
    }
    RepairDistributesExactly(ms[..b], ms[b..]);
  }

  /** A call, a system message, and the cut: the call is still owed its result. */
  lemma {:induction false} OwedAtCut(front: seq<Message>, call: Message, note: Message, b: seq<Message>,
                                     pending: set<CallId>)
    requires CallsTools(call) && note.role.System? && Required(call) <= Answered(b)
    ensures Required(call) <= PendingAt(front + [call, note], b, pending)
  {
    var a := front + [call, note];
    if front == [] {
      assert a == [call, note] && a[1..] == [note] && a[1..][1..] == [];
      assert ([note] + b)[1..] == b && [] + b == b;
      assert Answered([note] + b) == Answered(b);
      var owed := PendingAfter(call, [note] + b, pending);
      assert PendingAt([note], b, owed) == PendingAt([], b, owed) == owed;
    } else {
      assert a[1..] == front[1..] + [call, note];
      OwedAtCut(front[1..], call, note, b, PendingAfter(a[0], a[1..] + b, pending));
    }
  }

  lemma CutBetweenNotes(front: seq<Message>, call: Message, note: Message, result: Message, rest: seq<Message>,
                        keepRecent: nat)
    requires note.role.System? && result.role.Tool?
    requires keepRecent > 0 && |rest| == if keepRecent < 2 then 0 else keepRecent - 2
    ensures Boundary(front + [call, note] + ([note, result] + rest), keepRecent) == |front| + 2
  {
    var ms, b := front + [call, note] + ([note, result] + rest), |front| + 2;
    assert ms[b - 1] == note && ms[b] == note && ms[b + 1] == result;
    assert SafeCut(ms, b) && !SafeCut(ms, b + 1);
  }

  /** Without that condition the boundary can separate a call from its result, however many messages
      are kept and whatever stands before and after. */
  lemma SafeCutCanSplitPair(front: seq<Message>, call: Message, note: Message, result: Message, rest: seq<Message>,
                            keepRecent: nat)
    requires CallsTools(call) && result.role.Tool? && result.toolCallId.Some?
    requires Required(call) == {result.toolCallId.value} && note.role.System?
    requires keepRecent > 0 && |rest| == if keepRecent < 2 then 0 else keepRecent - 2
    ensures var ms, b := front + [call, note] + ([note, result] + rest), |front| + 2;
      && Boundary(ms, keepRecent) == b && Repair(ms) != Repair(ms[..b]) + Repair(ms[b..])
      && (front != [] ==> |ms| > keepRecent + 2)
  {
    var a, b := front + [call, note], [note, result] + rest;
    CutBetweenNotes(front, call, note, result, rest, keepRecent);
    assert b[1..] == [result] + rest;
    assert b[1..][0] == result && result.toolCallId.value in Answered(b[1..]) && Answered(b) == Answered(b[1..]);
    OwedAtCut(front, call, note, b, {});
    RepairDistributesExactly(a, b);
    assert (a + b)[..|front| + 2] == a && (a + b)[|front| + 2..] == b;
  }

  // ---- compaction ----

  function Summary(text: string): Message {
    Message(System, NoCalls, None, true, text)
  }

  /** The history after compaction: short ones stay, others keep what follows the boundary. */
  function Compacted(ms: seq<Message>, keepRecent: nat, summary: string): seq<Message>
    requires keepRecent > 0
  {
    if |ms| <= keepRecent + 2 then ms else [Summary(summary)] + ms[Boundary(ms, keepRecent)..]
  }

  /** The last `keepRecent` messages survive; the list shrinks only if the boundary is past 1. */
  lemma CompactionKeepsRecent(ms: seq<Message>, keepRecent: nat, summary: string)
    requires 0 < keepRecent <= |ms|
    ensures var after := Compacted(ms, keepRecent, summary);
      && |after| >= keepRecent && after[|after| - keepRecent..] == ms[|ms| - keepRecent..]
      && (|ms| > keepRecent + 2 ==> |after| == |ms| + 1 - Boundary(ms, keepRecent))
  {
    if |ms| > keepRecent + 2 {
      var b := Boundary(ms, keepRecent);
      var rest := ms[b..];
      var cut := |rest| - keepRecent;
      assert ([Summary(summary)] + rest)[cut + 1..] == rest[cut..] == ms[b + cut..];
    }
  }

  lemma {:induction false} PairedSuffix(a: seq<Message>, b: seq<Message>, owed: set<CallId>)
    requires Paired(a + b, owed) && Answered(b) == {}
    ensures Paired(b, {})
  {
    if a == [] {
      assert a + b == b;
      OwedIsAnswered(b, owed);
      assert owed == {};
    } else {
      assert (a + b)[1..] == a[1..] + b;
      match a[0].role
      case System => PairedSuffix(a[1..], b, owed);
      case Tool => PairedSuffix(a[1..], b, owed - {a[0].toolCallId.value});
      case User => PairedSuffix(a[1..], b, {});
      case Assistant => PairedSuffix(a[1..], b, Required(a[0]));
    }
  }

  lemma BoundaryAnswersNothing(ms: seq<Message>, keepRecent: nat)
    requires keepRecent > 0 && NoSystemThenTool(ms) && Paired(ms, {})
    ensures var b := Boundary(ms, keepRecent);
      Answered(ms[b..]) == {} && (b < |ms| ==> !ms[b].role.Tool?)
  {
    var b := Boundary(ms, keepRecent);
    SuffixHasNoSystemThenTool(ms, b);
    assert ms[b..] != [] ==> ms[b..][0] == ms[b];
    NothingAnswered(ms[b..]);
  }

  lemma SummaryBeforeNoTool(summary: string, rest: seq<Message>)
    requires NoSystemThenTool(rest) && (rest != [] ==> !rest[0].role.Tool?)
    ensures NoSystemThenTool([Summary(summary)] + rest)
  {
    var ms := [Summary(summary)] + rest;
    forall i, j | 0 <= i < j < |ms| && j == i + 1 ensures !(ms[i].role.System? && ms[j].role.Tool?) {
      assert ms[j] == rest[j - 1];
      if i > 0 { assert ms[i] == rest[i - 1]; }
    }
  }

  lemma SummaryKeepsPairs(summary: string, rest: seq<Message>)
    requires Paired(rest, {})
    ensures Paired([Summary(summary)] + rest, {})
  {
    assert ([Summary(summary)] + rest)[1..] == rest;
  }

  lemma SuffixHasNoSystemThenTool(ms: seq<Message>, b: nat)
    requires NoSystemThenTool(ms) && b <= |ms|
    ensures NoSystemThenTool(ms[b..])
  {
    var rest := ms[b..];
    forall i, j | 0 <= i < j < |rest| && j == i + 1 ensures !(rest[i].role.System? && rest[j].role.Tool?) {
      assert rest[i] == ms[b + i] && rest[j] == ms[b + j];
    }
  }

  /** Compaction keeps a paired history paired and never moves a result behind a system message. */
  lemma CompactionKeepsPairs(ms: seq<Message>, keepRecent: nat, summary: string)
    requires keepRecent > 0 && NoSystemThenTool(ms) && Paired(ms, {})
    ensures Paired(Compacted(ms, keepRecent, summary), {})
    ensures NoSystemThenTool(Compacted(ms, keepRecent, summary))
  {
    if |ms| > keepRecent + 2 {
      var b := Boundary(ms, keepRecent);
      BoundaryAnswersNothing(ms, keepRecent);
      assert ms == ms[..b] + ms[b..];
      PairedSuffix(ms[..b], ms[b..], {});
      SummaryKeepsPairs(summary, ms[b..]);
      SuffixHasNoSystemThenTool(ms, b);
      SummaryBeforeNoTool(summary, ms[b..]);
    }
  }

  /** What the model no longer sees after compaction is the repair of the removed part, and the
      summary takes its place. */
  lemma CompactionReplacesPrefix(ms: seq<Message>, keepRecent: nat, summary: string)
    requires keepRecent > 0 && |ms| > keepRecent + 2 && NoSystemThenTool(ms)
    ensures var b := Boundary(ms, keepRecent);
      && Repair(ms) == Repair(ms[..b]) + Repair(ms[b..])
      && Repair(Compacted(ms, keepRecent, summary)) == [Summary(summary)] + Repair(ms[b..])
  {
    RepairDistributesOverBoundary(ms, keepRecent);
    var b := Boundary(ms, keepRecent);
    assert Compacted(ms, keepRecent, summary)[1..] == ms[b..];
  }
}
