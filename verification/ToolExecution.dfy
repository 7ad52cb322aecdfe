/** The execution of the tool calls of one response, and the messages it adds to the history.

    The surroundings of a call (hooks, approvals, remote executors, the tool itself) are arbitrary;
    `EndOf` is the order in which the code consults them. */
module ToolExecution {
  import opened Wrappers
  import opened Conversation
  import opened Compaction

  datatype ToolCall = ToolCall(id: CallId, name: string, arguments: string)

  datatype Response = Response(text: string, calls: seq<ToolCall>)

  // ---- how one call ends ----

  datatype Approval = Approved | Denied(reason: string) | Pending(requestId: string)

  datatype LocalRun =
    | Slow
    | Completes(output: string, success: bool)
    | HandsOver(target: string)
    | Breaks(error: string)

  datatype Reply = Reply(output: string, success: bool)

  /** What one call meets: what hooks and people say, whether the session's security context can be
      loaded, what a remote executor replies if one does, and what the tool does when run here. */
  datatype Surroundings = Surroundings(
    abort: Option<string>, approval: Option<Approval>, contextFound: bool, reply: Option<Reply>, local: LocalRun)

  /** `onlyExecutor` is the executor that calls must be sent to, if the session insists on one. */
  datatype Policy = Policy(breakpointTools: set<string>, onlyExecutor: Option<string>)

  datatype CallEnd =
    | HookAborted(reason: string)
    | BreakpointDenied(reason: string)
    | BreakpointPending(requestId: string)
    | ContextMissing
    | ExecutorMissing(executor: string)
    | RemotelyReplied(reply: Reply)
    | TimedOut
    | HandedOver(target: string)
    | Completed(output: string, success: bool)
    | ToolFailed(error: string)

  function NoCallback(name: string): string {
    "Tool '" + name + "' requires human approval, but no approval callback is configured"
  }

  function EndOf(p: Policy, call: ToolCall, around: Surroundings): CallEnd {
    if around.abort.Some? then HookAborted(around.abort.value)
    else if call.name in p.breakpointTools && around.approval.None? then
      BreakpointDenied(NoCallback(call.name))
    else if call.name in p.breakpointTools && around.approval.value.Denied? then
      BreakpointDenied(around.approval.value.reason)
    else if call.name in p.breakpointTools && around.approval.value.Pending? then
      BreakpointPending(around.approval.value.requestId)
    else if !around.contextFound then ContextMissing
    else if around.reply.Some? then RemotelyReplied(around.reply.value)
    else if p.onlyExecutor.Some? then ExecutorMissing(p.onlyExecutor.value)
    else
      match around.local
      case Slow => TimedOut
      case HandsOver(target) => HandedOver(target)
      case Completes(output, success) => Completed(output, success)
      case Breaks(error) => ToolFailed(error)
  }

  datatype ToolResult = ToolResult(toolName: string, success: bool)

  /** The result kept for the caller, if any; a message is pushed in every case but one. */
  function ResultOf(call: ToolCall, end: CallEnd): Option<ToolResult> {
    match end
    case ExecutorMissing(_) => Some(ToolResult(call.name, false))
    case RemotelyReplied(reply) => Some(ToolResult(call.name, reply.success))
    case TimedOut => Some(ToolResult(call.name, false))
    case HandedOver(_) => Some(ToolResult(call.name, true))
    case Completed(_, success) => Some(ToolResult(call.name, success))
    case _ => None
  }

  predicate GoesOn(end: CallEnd) {
    !end.HandedOver? && !end.ContextMissing?
  }

  predicate AllGoOn(ends: seq<CallEnd>) {
    forall i | 0 <= i < |ends| :: GoesOn(ends[i])
  }

  predicate AllButLastGoOn(ends: seq<CallEnd>) {
    forall i | 0 <= i < |ends| - 1 :: GoesOn(ends[i])
  }

  // ---- messages of an exchange ----

  function IdsOf(calls: seq<ToolCall>): (ids: seq<CallId>)
    ensures |ids| == |calls| && forall i | 0 <= i < |calls| :: ids[i] == calls[i].id
  {
    if calls == [] then [] else [calls[0].id] + IdsOf(calls[1..])
  }

  predicate DistinctIds(calls: seq<ToolCall>) {
    forall i, j | 0 <= i < j < |calls| :: calls[i].id != calls[j].id
  }

  /** The entry is written only when there are calls. */
  function AssistantMessage(r: Response): Message {
    Message(Assistant, if r.calls == [] then NoCalls else Calls(IdsOf(r.calls)), None, false, r.text)
  }

  function UserMessage(text: string): Message {
    Message(User, NoCalls, None, false, text)
  }

  function ResultMessage(call: ToolCall, text: string): Message {
    Message(Tool, NoCalls, Some(call.id), false, text)
  }

  /** One result for each call, in call order. */
  predicate Answers(results: seq<Message>, calls: seq<ToolCall>) {
    && |results| == |calls|
    && forall i | 0 <= i < |calls| :: results[i].role.Tool? && results[i].toolCallId == Some(calls[i].id)
  }

  lemma {:induction false} IdsAreIds(calls: seq<ToolCall>, id: CallId)
    ensures id in IdsOf(calls) <==> exists i | 0 <= i < |calls| :: calls[i].id == id
  {
    if calls != [] {
      IdsAreIds(calls[1..], id);
      if i :| 0 <= i < |calls| && calls[i].id == id {
        if i > 0 { assert calls[1..][i - 1].id == id; }
      }
    }
  }

  function IdSet(calls: seq<ToolCall>): set<CallId> {
    set c | c in calls :: c.id
  }

  lemma RequiredIds(r: Response)
    ensures Required(AssistantMessage(r)) == IdSet(r.calls)
  {
    forall id ensures id in Required(AssistantMessage(r)) <==> id in IdSet(r.calls) {
      IdsAreIds(r.calls, id);
    }
  }

  lemma DistinctHead(calls: seq<ToolCall>)
    requires calls != []
    ensures DistinctIds(calls) <==> calls[0].id !in IdSet(calls[1..]) && DistinctIds(calls[1..])
  {
    var rest := calls[1..];
    assert forall i | 0 <= i < |rest| :: rest[i] == calls[i + 1] && rest[i] in rest;
    if c :| c in rest && c.id == calls[0].id {
      var i :| 0 <= i < |rest| && rest[i] == c;
      assert calls[i + 1].id == calls[0].id;
    } else {
      forall j | 0 < j < |calls| ensures calls[0].id != calls[j].id {
        assert rest[j - 1] in rest;
      }
    }
  }

  lemma IdsOfHead(calls: seq<ToolCall>)
    requires calls != []
    ensures IdSet(calls) == {calls[0].id} + IdSet(calls[1..])
  {
  }

  /** Results in call order settle what is owed exactly when no id occurs twice. */
  lemma {:induction false} ResultsSettle(results: seq<Message>, calls: seq<ToolCall>)
    requires Answers(results, calls)
    ensures Paired(results, IdSet(calls)) <==> DistinctIds(calls)
  {
    if calls != [] {
      var rest := calls[1..];
      ResultsSettle(results[1..], rest);
      IdsOfHead(calls);
      DistinctHead(calls);
      if calls[0].id in IdSet(rest) {
        LeftOver(results[1..], rest, calls[0].id);
      } else {
        assert IdSet(calls) - {calls[0].id} == IdSet(rest);
      }
    }
  }

  /** A second result for an id that has been settled is never accepted. */
  lemma {:induction false} LeftOver(results: seq<Message>, calls: seq<ToolCall>, id: CallId)
    requires Answers(results, calls) && id in IdSet(calls)
    ensures forall owed | id !in owed :: !Paired(results, owed)
  {
    forall owed | id !in owed ensures !Paired(results, owed) {
      if Paired(results, owed) && calls[0].id != id {
        var rest := calls[1..];
        IdsOfHead(calls);
        LeftOver(results[1..], rest, id);
      }
    }
  }

  lemma {:induction false} PairedAppend(a: seq<Message>, b: seq<Message>, owed: set<CallId>)
    requires Paired(a, owed)
    ensures Paired(a + b, owed) <==> Paired(b, {})
  {
    if a == [] {
      assert a + b == b;
    } else {
      assert (a + b)[1..] == a[1..] + b;
      match a[0].role
      case System => PairedAppend(a[1..], b, owed);
      case Tool => PairedAppend(a[1..], b, owed - {a[0].toolCallId.value});
      case User => PairedAppend(a[1..], b, {});
      case Assistant => PairedAppend(a[1..], b, Required(a[0]));
    }
  }

  /** What every step of the loop keeps. */
  ghost predicate WellPaired(ms: seq<Message>) {
    Paired(ms, {}) && NoSystemThenTool(ms)
  }

  /** From a well-paired history repair drops no user, assistant or tool message. */
  lemma WellPairedIsShown(ms: seq<Message>)
    requires WellPaired(ms)
    ensures Repair(ms) == Denoised(ms)
  {
    RepairKeepsExactlyPaired(ms);
  }

  lemma NoSystemAppend(ms: seq<Message>, more: seq<Message>)
    requires NoSystemThenTool(ms) && (more != [] ==> !more[0].role.Tool?)
    requires forall i | 0 <= i < |more| :: !more[i].role.System?
    ensures NoSystemThenTool(ms + more)
  {
  }

  /** One result per call, in call order, keeps the history paired exactly when no id is repeated. */
  lemma ExchangeKeepsPairs(ms: seq<Message>, r: Response, results: seq<Message>)
    requires WellPaired(ms) && Answers(results, r.calls)
    ensures WellPaired(ms + [AssistantMessage(r)] + results) <==> DistinctIds(r.calls)
  {
    var exchange := [AssistantMessage(r)] + results;
    RequiredIds(r);
    ResultsSettle(results, r.calls);
    assert exchange[1..] == results;
    PairedAppend(ms, exchange, {});
    NoSystemAppend(ms, exchange);
    assert ms + [AssistantMessage(r)] + results == ms + exchange;
  }

  lemma SpeechKeepsPairs(ms: seq<Message>, m: Message)
    requires WellPaired(ms) && Speaks(m) && Required(m) == {}
    ensures WellPaired(ms + [m])
  {
    assert [m][1..] == [];
    PairedAppend(ms, [m], {});
    NoSystemAppend(ms, [m]);
  }

  lemma {:induction false} PartlySettled(results: seq<Message>, calls: seq<ToolCall>, n: nat)
    requires n <= |calls| && Answers(results, calls[..n]) && DistinctIds(calls)
    ensures Paired(results, IdSet(calls)) <==> n == |calls|
  {
    if n == |calls| {
      assert calls[..n] == calls;
      ResultsSettle(results, calls);
    } else if n > 0 {
      var rest := calls[1..];
      assert results[0].toolCallId == Some(calls[..n][0].id);
      IdsOfHead(calls);
      DistinctHead(calls);
      assert IdSet(calls) - {calls[0].id} == IdSet(rest);
      assert calls[..n][1..] == rest[..n - 1];
      forall i | 0 <= i < n - 1
        ensures results[1..][i].role.Tool? && results[1..][i].toolCallId == Some(rest[..n - 1][i].id)
      {
        assert results[i + 1].toolCallId == Some(calls[..n][i + 1].id);
      }
      PartlySettled(results[1..], rest, n - 1);
    } else {
      assert calls[0].id in IdSet(calls);
    }
  }

  /** Cut short after `n` results, the history is paired exactly when nothing was cut off. */
  lemma CutExchangeKeepsPairs(ms: seq<Message>, r: Response, results: seq<Message>, n: nat)
    requires WellPaired(ms) && n <= |r.calls| && Answers(results, r.calls[..n]) && DistinctIds(r.calls)
    ensures WellPaired(ms + [AssistantMessage(r)] + results) <==> n == |r.calls|
  {
    var exchange := [AssistantMessage(r)] + results;
    RequiredIds(r);
    PartlySettled(results, r.calls, n);
    assert exchange[1..] == results;
    PairedAppend(ms, exchange, {});
    NoSystemAppend(ms, exchange);
    assert ms + [AssistantMessage(r)] + results == ms + exchange;
  }

  // ---- executing the calls of a response ----

  /** The messages pushed for the calls that have ended. */
  function MessagesOf(say: CallEnd -> string, calls: seq<ToolCall>, ends: seq<CallEnd>): (ms: seq<Message>)
    requires |ends| <= |calls|
    ensures |ms| == |ends| && Answers(ms, calls[..|ends|])
  {
    seq(|ends|, i requires 0 <= i < |ends| => ResultMessage(calls[i], say(ends[i])))
  }

  /** The results kept for the calls that have ended, and the calls they come from. */
  function ResultsOf(calls: seq<ToolCall>, ends: seq<CallEnd>): seq<ToolResult>
    requires |ends| <= |calls|
  {
    if ends == [] then []
    else
      var k := |ends| - 1;
      var result := ResultOf(calls[k], ends[k]);
      ResultsOf(calls, ends[..k]) + if result.Some? then [result.value] else []
  }

  function Origins(ends: seq<CallEnd>): seq<nat> {
    if ends == [] then []
    else
      var k := |ends| - 1;
      Origins(ends[..k]) + if AddsResult(ends[k]) then [k] else []
  }

  predicate AddsResult(end: CallEnd) {
    end.ExecutorMissing? || end.RemotelyReplied? || end.TimedOut? || end.HandedOver? || end.Completed?
  }

  /** The calls that leave a message and no result are those stopped by a hook or a breakpoint and
      those whose tool reports an error. */
  lemma NoResultExactly(p: Policy, call: ToolCall, around: Surroundings)
    requires !EndOf(p, call, around).ContextMissing?
    ensures ResultOf(call, EndOf(p, call, around)).None? <==>
      || around.abort.Some?
      || (call.name in p.breakpointTools && around.approval != Some(Approved))
      || (around.reply.None? && p.onlyExecutor.None? && around.local.Breaks?)
  {
  }

  /** A result reports success exactly for a handoff, and for a call whose tool or remote executor
      reports it. */
  lemma SuccessExactly(p: Policy, call: ToolCall, around: Surroundings)
    requires ResultOf(call, EndOf(p, call, around)).Some?
    ensures ResultOf(call, EndOf(p, call, around)).value.success <==>
      if around.reply.Some? then around.reply.value.success
      else p.onlyExecutor.None?
           && (around.local.HandsOver? || (around.local.Completes? && around.local.success))
  {
  }

  lemma LastResult(calls: seq<ToolCall>, ends: seq<CallEnd>)
    requires 0 < |ends| <= |calls|
    ensures var k := |ends| - 1;
      && ResultsOf(calls, ends) == ResultsOf(calls, ends[..k])
           + (if ResultOf(calls[k], ends[k]).Some? then [ResultOf(calls[k], ends[k]).value] else [])
      && Origins(ends) == Origins(ends[..k]) + (if AddsResult(ends[k]) then [k] else [])
  {
  }

  /** The results come in order from the calls whose end adds one. */
  lemma {:induction false} ResultsComeFrom(calls: seq<ToolCall>, ends: seq<CallEnd>)
    requires |ends| <= |calls|
    ensures var origins, results := Origins(ends), ResultsOf(calls, ends);
      && |results| == |origins|
      && forall j | 0 <= j < |origins| ::
           origins[j] < |ends| && AddsResult(ends[origins[j]]) && results[j].toolName == calls[origins[j]].name
  {
    if ends != [] {
      var front := ends[..|ends| - 1];
      ResultsComeFrom(calls, front);
      LastResult(calls, ends);
      assert forall k | 0 <= k < |front| :: ends[k] == front[k];
    }
  }

  predicate RisesBelow(xs: seq<nat>, n: nat) {
    (forall i, j | 0 <= i < j < |xs| :: xs[i] < xs[j]) && forall j | 0 <= j < |xs| :: xs[j] < n
  }

  lemma {:induction false} OriginsRise(ends: seq<CallEnd>)
    ensures RisesBelow(Origins(ends), |ends|)
  {
    if ends != [] {
      var k := |ends| - 1;
      OriginsRise(ends[..k]);
      RisesFurther(Origins(ends[..k]), k);
    }
  }

  lemma RisesFurther(xs: seq<nat>, n: nat)
    requires RisesBelow(xs, n)
    ensures RisesBelow(xs, n + 1) && RisesBelow(xs + [n], n + 1)
  {
  }

  lemma {:induction false} IsOrigin(ends: seq<CallEnd>, k: nat)
    requires k < |ends|
    ensures k in Origins(ends) <==> AddsResult(ends[k])
  {
    var last := |ends| - 1;
    var earlier := Origins(ends[..last]);
    assert k in earlier + [last] <==> k in earlier || k == last;
    OriginsRise(ends[..last]);
    if k < last {
      IsOrigin(ends[..last], k);
    } else {
      assert k !in earlier;
    }
  }

  /** No call comes twice or out of order, and none that adds a result is missing. */
  lemma {:induction false} OriginsInOrder(ends: seq<CallEnd>)
    ensures forall i, j | 0 <= i < j < |Origins(ends)| :: Origins(ends)[i] < Origins(ends)[j] < |ends|
    ensures forall k | 0 <= k < |ends| :: k in Origins(ends) <==> AddsResult(ends[k])
    ensures forall j | 0 <= j < |Origins(ends)| :: Origins(ends)[j] < |ends|
  {
    OriginsRise(ends);
    forall k | 0 <= k < |ends| ensures k in Origins(ends) <==> AddsResult(ends[k]) {
      IsOrigin(ends, k);
    }
  }

  /** The first `n` results stand beside the messages of their own calls exactly when none of the
      first `n` calls ended without a result. */
  lemma {:induction false} AlignedExactly(ends: seq<CallEnd>, n: nat)
    requires n <= |Origins(ends)|
    ensures (forall j | 0 <= j < n :: Origins(ends)[j] == j)
       <==> n <= |ends| && forall i | 0 <= i < n :: AddsResult(ends[i])
  {
    OriginsInOrder(ends);
    OriginsBelow(ends);
    if forall i | 0 <= i < n :: AddsResult(ends[i]) {
      forall j: nat | j < n ensures Origins(ends)[j] == j {
        BeginsWith(ends, n, j);
      }
    }
    if forall j | 0 <= j < n :: Origins(ends)[j] == j {
      forall i | 0 <= i < n ensures AddsResult(ends[i]) {
        assert Origins(ends)[i] == i && Origins(ends)[i] in Origins(ends);
      }
    }
  }

  lemma {:induction false} BeginsWith(ends: seq<CallEnd>, n: nat, j: nat)
    requires j < n <= |ends| && forall i | 0 <= i < n :: AddsResult(ends[i])
    ensures n <= |Origins(ends)| && Origins(ends)[j] == j
  {
    var k := |ends| - 1;
    var front := ends[..k];
    if n <= k {
      BeginsWith(front, n, j);
    } else {
      assert forall i | 0 <= i < k :: front[i] == ends[i];
      OriginsBelow(front);
      if j < k { BeginsWith(front, k, j); }
    }
  }

  lemma {:induction false} OriginsBelow(ends: seq<CallEnd>)
    ensures |Origins(ends)| <= |ends|
    ensures |Origins(ends)| == |ends| <==> forall i | 0 <= i < |ends| :: AddsResult(ends[i])
  {
    if ends != [] {
      OriginsBelow(ends[..|ends| - 1]);
    }
  }

  /** Without a callback to ask, the call is denied. */
  method AskApproval(name: string, answer: Option<Approval>) returns (approval: Approval)
    ensures approval == if answer.Some? then answer.value else Denied(NoCallback(name))
  {
    if answer.Some? {
      return answer.value;
    }
    approval := Denied("Tool '" + name + "' requires human approval, but no approval callback is configured");
  }

  /** One call: what it leaves for the caller and what it pushes for the model. */
  method ExecuteCall(p: Policy, say: CallEnd -> string, call: ToolCall, met: Surroundings)
    returns (end: CallEnd, result: Option<ToolResult>, message: Option<Message>)
    ensures end == EndOf(p, call, met) && result == ResultOf(call, end)
    ensures message == if end.ContextMissing? then None else Some(ResultMessage(call, say(end)))
  {
    result := None;
    if met.abort.Some? {
      end := HookAborted(met.abort.value);
      return end, None, Some(Message(Tool, NoCalls, Some(call.id), false, say(end)));
    }
    if call.name in p.breakpointTools {
      var approval := AskApproval(call.name, met.approval);
      match approval
      case Approved =>
      case Denied(reason) =>
        end := BreakpointDenied(reason);
        return end, None, Some(Message(Tool, NoCalls, Some(call.id), false, say(end)));
      case Pending(requestId) =>
        end := BreakpointPending(requestId);
        return end, None, Some(Message(Tool, NoCalls, Some(call.id), false, say(end)));
    }
    if !met.contextFound {
      return ContextMissing, None, None;
    }
    if met.reply.Some? {
      end := RemotelyReplied(met.reply.value);
      result := Some(ToolResult(call.name, met.reply.value.success));
      return end, result, Some(Message(Tool, NoCalls, Some(call.id), false, say(end)));
    }
    if p.onlyExecutor.Some? {
      end := ExecutorMissing(p.onlyExecutor.value);
      return end, Some(ToolResult(call.name, false)), Some(Message(Tool, NoCalls, Some(call.id), false, say(end)));
    }
    match met.local {
      case Slow =>
        end, result := TimedOut, Some(ToolResult(call.name, false));
      case HandsOver(target) =>
        end, result := HandedOver(target), Some(ToolResult(call.name, true));
      case Completes(output, success) =>
        end, result := Completed(output, success), Some(ToolResult(call.name, success));
      case Breaks(error) =>
        end := ToolFailed(error);
    }
    message := Some(Message(Tool, NoCalls, Some(call.id), false, say(end)));
  }

  ghost predicate EndsFit(p: Policy, calls: seq<ToolCall>, around: nat -> Surroundings, ends: seq<CallEnd>) {
    |ends| <= |calls| && forall i | 0 <= i < |ends| :: ends[i] == EndOf(p, calls[i], around(i))
  }

  lemma OneMoreFits(p: Policy, calls: seq<ToolCall>, around: nat -> Surroundings, ends: seq<CallEnd>, end: CallEnd)
    requires EndsFit(p, calls, around, ends) && |ends| < |calls| && end == EndOf(p, calls[|ends|], around(|ends|))
    ensures EndsFit(p, calls, around, ends + [end])
    ensures AllGoOn(ends) ==> AllButLastGoOn(ends + [end]) && (GoesOn(end) ==> AllGoOn(ends + [end]))
  {
  }

  /** Executes the calls in order. A handoff stops it after its own message; a missing security
      context abandons the whole response. */
  method ExecuteToolCalls(p: Policy, say: CallEnd -> string, calls: seq<ToolCall>, around: nat -> Surroundings)
    returns (results: seq<ToolResult>, messages: seq<Message>, handoff: bool, broken: bool, ghost ends: seq<CallEnd>)
    ensures EndsFit(p, calls, around, ends)
    ensures messages == MessagesOf(say, calls, ends) && results == ResultsOf(calls, ends)
    ensures |messages| <= |calls| && Answers(messages, calls[..|messages|])
    ensures !handoff && !broken ==> |messages| == |calls|
    ensures AllButLastGoOn(ends)
    ensures broken ==> !handoff && |ends| < |calls| && EndOf(p, calls[|ends|], around(|ends|)).ContextMissing?
                       && AllGoOn(ends)
    ensures handoff <==> ends != [] && ends[|ends| - 1].HandedOver?
    ensures !handoff && !broken ==> |ends| == |calls| && AllGoOn(ends)
  {
    results, messages, handoff, broken, ends := [], [], false, false, [];
    for i := 0 to |calls|
      invariant |ends| == i && EndsFit(p, calls, around, ends) && AllGoOn(ends)
      invariant messages == MessagesOf(say, calls, ends) && results == ResultsOf(calls, ends)
    {
      var end, result, message := ExecuteCall(p, say, calls[i], around(i));
      if message.None? {
        return results, messages, false, true, ends;
      }
      OneMoreFits(p, calls, around, ends, end);
      OneMoreEnd(say, calls, ends, end);
      messages := messages + [message.value];
      results := if result.Some? then results + [result.value] else results;
      ends := ends + [end];
      if end.HandedOver? {
        return results, messages, true, false, ends;
      }
    }
  }

  lemma OneMoreEnd(say: CallEnd -> string, calls: seq<ToolCall>, ends: seq<CallEnd>, end: CallEnd)
    requires |ends| < |calls|
    ensures var longer, call := ends + [end], calls[|ends|];
      && MessagesOf(say, calls, longer) == MessagesOf(say, calls, ends) + [ResultMessage(call, say(end))]
      && ResultsOf(calls, longer)
         == ResultsOf(calls, ends) + (if ResultOf(call, end).Some? then [ResultOf(call, end).value] else [])
  {
    OneMoreMessage(say, calls, ends, end);
    assert (ends + [end])[..|ends|] == ends;
  }

  lemma OneMoreMessage(say: CallEnd -> string, calls: seq<ToolCall>, ends: seq<CallEnd>, end: CallEnd)
    requires |ends| < |calls|
    ensures MessagesOf(say, calls, ends + [end])
         == MessagesOf(say, calls, ends) + [ResultMessage(calls[|ends|], say(end))]
  {
    var all, fewer := MessagesOf(say, calls, ends + [end]), MessagesOf(say, calls, ends);
    forall i | 0 <= i < |ends| ensures all[i] == fewer[i] {
      assert (ends + [end])[i] == ends[i];
    }
  }
}
