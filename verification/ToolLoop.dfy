/** The multi-turn tool loop that processes one model response.

    What the model answers, what every tool call meets, the reading of texts and the token counts are
    arbitrary at every turn. `Leads` says which turns can follow each other and what they do to the
    history and to the window of recent calls; the bounds and the pairing are proved of every run. */
module ToolLoop {
  import opened Wrappers
  import opened Conversation
  import opened Compaction
  import opened LoopDetector
  import opened ToolExecution

  datatype Outcome = Finished | LimitReached | HandedOff | Stopped(repetitions: nat) | Failed

  /** `hash` is the hash of a tool name and its arguments, `say` the text pushed for a call that has
      ended, and the rest is how texts are read: what is left of one for the user, and whether it
      acknowledges, announces more, or whether the history ends with a question of the user. */
  datatype Config = Config(
    hash: (string, string) -> nat, configuredMax: nat, tools: nat, maxContextTokens: nat,
    policy: Policy, say: CallEnd -> string,
    visible: string -> string, acknowledges: string -> bool, announces: string -> bool,
    asksQuestion: seq<Message> -> bool)

  const MAX_CONSECUTIVE_NUDGES := 2

  function MaxIterations(cfg: Config): nat {
    if cfg.configuredMax > 0 then cfg.configuredMax
    else if 32 + cfg.tools * 8 > 160 then 160
    else 32 + cfg.tools * 8
  }

  /** How many messages compaction leaves untouched at least. */
  function KeepRecent(cfg: Config): (k: nat)
    ensures k > 0
  {
    if cfg.maxContextTokens <= 16000 then 8 else if cfg.maxContextTokens <= 32000 then 12 else 20
  }

  /** After a compaction the latest messages are the ones there were: 8, 12 or 20 of them. */
  lemma RecentSurvive(cfg: Config, ms: seq<Message>, summary: string, n: nat)
    requires n == (if cfg.maxContextTokens <= 16000 then 8 else if cfg.maxContextTokens <= 32000 then 12 else 20)
    requires n <= |ms|
    ensures var after := Perhaps(ms, cfg, Some(summary));
      && |after| >= n && after[|after| - n..] == ms[|ms| - n..]
      && (|ms| <= n + 2 ==> after == ms)
      && (|ms| > n + 2 ==> after[0] == Message(System, NoCalls, None, true, summary))
  {
    CompactionKeepsRecent(ms, n, summary);
  }

  // ---- runs of the loop ----

  /** One full iteration: either tool calls with their results and perhaps a hint, or a nudge. The
      optional texts are the summaries of the compactions that took place. */
  datatype Turn =
    | ToolTurn(response: Response, ends: seq<CallEnd>, hint: Option<string>,
               early: Option<string>, late: Option<string>)
    | NudgeTurn(response: Response, reminder: string, late: Option<string>)

  /** How a run ends after its full turns. */
  datatype End =
    | FinalAnswer(response: Response)
    | NoRequest
    | NoResponse
    | AtLimit
    | Abandoned(response: Response)
    | Handover(response: Response, ends: seq<CallEnd>)
    | LoopDetected(response: Response, ends: seq<CallEnd>)

  /** Between turns: the history, the hashes in the window, the nudges since the last tool turn, and
      how many tool results there are. */
  datatype State = State(messages: seq<Message>, window: seq<nat>, nudges: nat, results: nat)

  function CallHashes(hash: (string, string) -> nat, calls: seq<ToolCall>): (hs: seq<nat>)
    ensures |hs| == |calls|
  {
    if calls == [] then []
    else CallHashes(hash, calls[..|calls| - 1]) + [hash(calls[|calls| - 1].name, calls[|calls| - 1].arguments)]
  }

  function WindowAfter(cfg: Config, s: State, r: Response): seq<nat> {
    Latest(s.window + CallHashes(cfg.hash, r.calls))
  }

  function Exchanged(cfg: Config, ms: seq<Message>, r: Response, ends: seq<CallEnd>): seq<Message>
    requires |ends| <= |r.calls|
  {
    ms + [AssistantMessage(r)] + MessagesOf(cfg.say, r.calls, ends)
  }

  /** Every call of the response has ended, none of them in a handoff. */
  predicate AllEnded(r: Response, ends: seq<CallEnd>) {
    |ends| == |r.calls| && AllGoOn(ends)
  }

  predicate EndedByHandoff(r: Response, ends: seq<CallEnd>) {
    0 < |ends| <= |r.calls| && ends[|ends| - 1].HandedOver? && AllButLastGoOn(ends)
  }

  /** A text without tool calls is answered with a reminder when it only acknowledges, announces more
      work, or is empty after work has been done. */
  predicate WantsNudge(cfg: Config, s: State, r: Response) {
    var text, worked := cfg.visible(r.text), s.results > 0;
    && (if text == "" then worked else if worked then cfg.announces(text) else cfg.acknowledges(text))
    && s.nudges < MAX_CONSECUTIVE_NUDGES && !cfg.asksQuestion(s.messages)
  }

  function Perhaps(ms: seq<Message>, cfg: Config, summary: Option<string>): seq<Message>
  {
    if summary.Some? then Compacted(ms, KeepRecent(cfg), summary.value) else ms
  }

  predicate TurnShaped(t: Turn) {
    t.ToolTurn? ==> t.response.calls != [] && AllEnded(t.response, t.ends)
  }

  /** The history before the next request is built. */
  function Extended(cfg: Config, s: State, t: Turn): seq<Message>
    requires TurnShaped(t)
  {
    match t
    case ToolTurn(r, ends, hint, early, _) =>
      var exchanged := Exchanged(cfg, s.messages, r, ends);
      if hint.Some? then exchanged + [UserMessage(hint.value)] else Perhaps(exchanged, cfg, early)
    case NudgeTurn(r, reminder, _) =>
      (if r.text != "" then s.messages + [AssistantMessage(r)] else s.messages) + [UserMessage(reminder)]
  }

  function AfterTurn(cfg: Config, s: State, t: Turn): State
    requires TurnShaped(t)
  {
    var messages := Perhaps(Extended(cfg, s, t), cfg, t.late);
    match t
    case ToolTurn(r, ends, _, _, _) =>
      State(messages, WindowAfter(cfg, s, r), 0, s.results + |ResultsOf(r.calls, ends)|)
    case NudgeTurn(_, _, _) => State(messages, s.window, s.nudges + 1, s.results)
  }

  /** A hint is given exactly on a warning, and compaction before a request needs over ten messages. */
  predicate TurnFits(cfg: Config, s: State, t: Turn) {
    && TurnShaped(t) && (t.late.Some? ==> |Extended(cfg, s, t)| > 10)
    && match t
       case ToolTurn(r, _, hint, early, _) =>
         var verdict := Judge(WindowAfter(cfg, s, r));
         !verdict.Critical? && (hint.Some? <==> verdict.Warning?) && (early.Some? ==> verdict.Fine?)
       case NudgeTurn(r, _, _) => r.calls == [] && WantsNudge(cfg, s, r)
  }

  /** The turns lead from `s` to `final`. */
  predicate Leads(cfg: Config, s: State, turns: seq<Turn>, final: State)
    decreases |turns|
  {
    if turns == [] then s == final
    else TurnFits(cfg, s, turns[0]) && Leads(cfg, AfterTurn(cfg, s, turns[0]), turns[1..], final)
  }

  predicate EndKindFits(cfg: Config, final: State, end: End) {
    match end
    case FinalAnswer(r) => r.calls == [] && !WantsNudge(cfg, final, r)
    case Abandoned(r) => r.calls != []
    case Handover(r, ends) => EndedByHandoff(r, ends)
    case LoopDetected(r, ends) => r.calls != [] && AllEnded(r, ends) && Judge(WindowAfter(cfg, final, r)).Critical?
    case _ => true
  }

  /** No request could be built, or no model answered, only after a turn. */
  predicate EndFits(cfg: Config, final: State, turns: seq<Turn>, end: End) {
    && EndKindFits(cfg, final, end)
    && if end.NoRequest? || end.NoResponse? then 0 < |turns| <= MaxIterations(cfg)
       else if end.AtLimit? then |turns| == MaxIterations(cfg)
       else |turns| < MaxIterations(cfg)
  }

  predicate ExecutesTools(end: End) {
    end.Abandoned? || end.Handover? || end.LoopDetected?
  }

  function EndMessages(cfg: Config, final: State, end: End): seq<Message>
    requires EndKindFits(cfg, final, end)
  {
    match end
    case Handover(r, ends) => Exchanged(cfg, final.messages, r, ends)
    case LoopDetected(r, ends) => Exchanged(cfg, final.messages, r, ends)
    case _ => final.messages
  }

  function EndWindow(cfg: Config, final: State, end: End): seq<nat> {
    if ExecutesTools(end) then WindowAfter(cfg, final, end.response) else final.window
  }

  function Iterations(turns: seq<Turn>, end: End): nat {
    |turns| + if end.NoRequest? || end.NoResponse? then 0 else 1
  }

  function ToolTurns(turns: seq<Turn>): nat {
    if turns == [] then 0 else (if turns[0].ToolTurn? then 1 else 0) + ToolTurns(turns[1..])
  }

  function ToolIterations(turns: seq<Turn>, end: End): nat {
    ToolTurns(turns) + if ExecutesTools(end) then 1 else 0
  }

  function OutcomeOf(cfg: Config, final: State, turns: seq<Turn>, end: End): Outcome {
    match end
    case FinalAnswer(_) => Finished
    case NoRequest => Failed
    case NoResponse => if turns != [] && turns[|turns| - 1].NudgeTurn? then Finished else Failed
    case AtLimit => LimitReached
    case Abandoned(_) => Failed
    case Handover(_, _) => HandedOff
    case LoopDetected(r, _) =>
      var verdict := Judge(WindowAfter(cfg, final, r));
      if verdict.Critical? then Stopped(verdict.repetitions) else Failed
  }

  // ---- bounds on every run ----

  /** The configured limit, or 32 and 8 more for each tool but at most 160: it can be passed by one,
      and is passed exactly by one when it is what ends the run. */
  predicate WithinLimit(cfg: Config, iterations: nat, limitReached: bool) {
    && (cfg.configuredMax > 0 ==> iterations <= cfg.configuredMax + 1)
    && (cfg.configuredMax == 0 ==> iterations <= 33 + 8 * cfg.tools && iterations <= 161)
    && (limitReached ==> if cfg.configuredMax > 0 then iterations == cfg.configuredMax + 1
                         else if cfg.tools <= 16 then iterations == 33 + 8 * cfg.tools else iterations == 161)
  }

  lemma {:induction false} TurnsBounded(cfg: Config, s: State, turns: seq<Turn>, final: State)
    requires Leads(cfg, s, turns, final)
    requires |s.window| < CIRCUIT_BREAKER && s.nudges <= MAX_CONSECUTIVE_NUDGES
    ensures |s.window| + ToolTurns(turns) <= |final.window| < CIRCUIT_BREAKER
    ensures final.nudges <= MAX_CONSECUTIVE_NUDGES
    ensures |turns| + s.nudges <= 3 * ToolTurns(turns) + final.nudges
    decreases |turns|
  {
    if turns != [] {
      TurnsBounded(cfg, AfterTurn(cfg, s, turns[0]), turns[1..], final);
    }
  }

  /** Whatever is answered and configured: at most 30 iterations execute tools and there are at most
      90 iterations, and no more than one past the configured limit. */
  lemma RunBounded(cfg: Config, s: State, turns: seq<Turn>, final: State, end: End)
    requires Leads(cfg, s, turns, final) && EndFits(cfg, final, turns, end)
    requires s.window == [] && s.nudges == 0
    ensures ToolIterations(turns, end) <= 30 && Iterations(turns, end) <= 90
    ensures Iterations(turns, end) <= MaxIterations(cfg) + 1
    ensures WithinLimit(cfg, Iterations(turns, end), end.AtLimit?)
    ensures ToolIterations(turns, end) == 30 ==> ExecutesTools(end)
    ensures |EndWindow(cfg, final, end)| <= 60
  {
    TurnsBounded(cfg, s, turns, final);
  }

  /** The thirtieth recorded call always stops the run, unless it is handed over or abandoned. */
  lemma ThirtiethCallStops(cfg: Config, s: State, turns: seq<Turn>, final: State, t: Turn)
    requires Leads(cfg, s, turns, final) && t.ToolTurn?
    requires |final.window| + |t.response.calls| >= 30
    ensures !TurnFits(cfg, final, t)
  {
  }

  // ---- the bounds are reached ----

  function Counting(n: nat): seq<nat> {
    seq(n, i => i)
  }

  lemma CountingIsFine(n: nat)
    requires n < CIRCUIT_BREAKER
    ensures Judge(Counting(n)) == Fine
  {
    var hs := Counting(n);
    WarnsExactlyWhen(hs);
    assert n >= 5 ==> hs[n - 5] != hs[n - 1];
    assert n >= 4 ==> hs[n - 4] != hs[n - 2];
  }

  /** Texts are shown as they are and always count as unfinished. */
  function Eager(): Config {
    Config((name, arguments) => |arguments|, 100, 0, 0, Policy({}, None), end => "",
           text => text, text => true, text => true, messages => false)
  }

  function Request(n: nat): Response {
    Response("", [ToolCall(n, "", seq(n, i => 'x'))])
  }

  function Pause(): Turn {
    NudgeTurn(Response("x", []), "", None)
  }

  function Work(n: nat): Turn {
    ToolTurn(Request(n), [TimedOut], None, None, None)
  }

  lemma RequestHash(n: nat, s: State)
    requires s.window == Counting(n) && n < CIRCUIT_BREAKER
    ensures WindowAfter(Eager(), s, Request(n)) == Counting(n + 1)
  {
    var calls := Request(n).calls;
    assert calls[..0] == [] && CallHashes(Eager().hash, calls) == [n];
    assert Counting(n) + [n] == Counting(n + 1);
  }

  lemma WorkFits(n: nat, s: State)
    requires s.window == Counting(n) && n + 1 < CIRCUIT_BREAKER
    ensures TurnFits(Eager(), s, Work(n))
    ensures var s' := AfterTurn(Eager(), s, Work(n)); s'.window == Counting(n + 1) && s'.nudges == 0
  {
    RequestHash(n, s);
    CountingIsFine(n + 1);
  }

  lemma PauseOnce(s: State, turns: seq<Turn>, mid: State) returns (longer: seq<Turn>, final: State)
    requires Leads(Eager(), s, turns, mid) && mid.nudges < 2
    ensures Leads(Eager(), s, longer, final) && final.window == mid.window && final.nudges == mid.nudges + 1
    ensures ToolTurns(longer) == ToolTurns(turns) && |longer| == |turns| + 1
  {
    OneMoreTurn(Eager(), s, turns, mid, Pause());
    longer, final := turns + [Pause()], AfterTurn(Eager(), mid, Pause());
  }

  lemma OneCallMore(s: State, turns: seq<Turn>, mid: State, n: nat) returns (longer: seq<Turn>, final: State)
    requires Leads(Eager(), s, turns, mid) && mid.window == Counting(n) && n + 1 < CIRCUIT_BREAKER
    ensures Leads(Eager(), s, longer, final) && final.window == Counting(n + 1) && final.nudges == 0
    ensures ToolTurns(longer) == ToolTurns(turns) + 1 && |longer| == |turns| + 1
  {
    WorkFits(n, mid);
    OneMoreTurn(Eager(), s, turns, mid, Work(n));
    longer, final := turns + [Work(n)], AfterTurn(Eager(), mid, Work(n));
  }

  /** Twice nothing and then one more new call, `n` times over. */
  lemma {:induction false} BusyLeads(start: State, n: nat) returns (turns: seq<Turn>, final: State)
    requires n < CIRCUIT_BREAKER && start.window == Counting(0) && start.nudges == 0
    ensures Leads(Eager(), start, turns, final) && final.window == Counting(n) && final.nudges == 0
    ensures ToolTurns(turns) == n && |turns| == 3 * n
  {
    turns, final := [], start;
    if n > 0 {
      turns, final := BusyLeads(start, n - 1);
      turns, final := PauseOnce(start, turns, final);
      turns, final := PauseOnce(start, turns, final);
      turns, final := OneCallMore(start, turns, final, n - 1);
    }
  }

  lemma LastCallStops(start: State, n: nat) returns (turns: seq<Turn>, final: State, end: End)
    requires n + 1 == CIRCUIT_BREAKER && start.window == Counting(0) && start.nudges == 0
    ensures Leads(Eager(), start, turns, final) && EndFits(Eager(), final, turns, end)
    ensures ToolIterations(turns, end) == n + 1 && Iterations(turns, end) == 3 * n + 3
  {
    turns, final := BusyLeads(start, n);
    turns, final := PauseOnce(start, turns, final);
    turns, final := PauseOnce(start, turns, final);
    end := LoopDetected(Request(n), [TimedOut]);
    RequestHash(n, final);
  }

  /** Some run has 30 tool iterations among 90 iterations. */
  lemma BoundsAreReached() returns (turns: seq<Turn>, final: State, end: End)
    ensures Leads(Eager(), State([], [], 0, 0), turns, final) && EndFits(Eager(), final, turns, end)
    ensures ToolIterations(turns, end) == 30 && Iterations(turns, end) == 90
  {
    turns, final, end := LastCallStops(State([], [], 0, 0), 29);
  }

  // ---- pairing on every run ----

  /** No response asks for the same call id twice. */
  predicate Clean(turns: seq<Turn>, end: End) {
    && (forall i | 0 <= i < |turns| :: DistinctIds(turns[i].response.calls))
    && (ExecutesTools(end) ==> DistinctIds(end.response.calls))
  }

  lemma TurnKeepsPairs(cfg: Config, s: State, t: Turn)
    requires TurnFits(cfg, s, t) && DistinctIds(t.response.calls) && WellPaired(s.messages)
    ensures WellPaired(AfterTurn(cfg, s, t).messages)
  {
    ExtendedKeepsPairs(cfg, s, t);
    if t.late.Some? { CompactionKeepsPairs(Extended(cfg, s, t), KeepRecent(cfg), t.late.value); }
  }

  lemma ExtendedKeepsPairs(cfg: Config, s: State, t: Turn)
    requires TurnFits(cfg, s, t) && DistinctIds(t.response.calls) && WellPaired(s.messages)
    ensures WellPaired(Extended(cfg, s, t))
  {
    match t
    case ToolTurn(r, ends, hint, early, _) =>
      var exchanged := Exchanged(cfg, s.messages, r, ends);
      AllAnswered(cfg, r, ends);
      ExchangeKeepsPairs(s.messages, r, MessagesOf(cfg.say, r.calls, ends));
      if hint.Some? {
        SpeechKeepsPairs(exchanged, UserMessage(hint.value));
      } else if early.Some? {
        CompactionKeepsPairs(exchanged, KeepRecent(cfg), early.value);
      }
    case NudgeTurn(r, reminder, _) =>
      SpeechKeepsPairs(s.messages, AssistantMessage(r));
      var spoken := if r.text != "" then s.messages + [AssistantMessage(r)] else s.messages;
      SpeechKeepsPairs(spoken, UserMessage(reminder));
  }

  lemma AllAnswered(cfg: Config, r: Response, ends: seq<CallEnd>)
    requires AllEnded(r, ends)
    ensures Answers(MessagesOf(cfg.say, r.calls, ends), r.calls)
  {
    assert r.calls[..|ends|] == r.calls;
  }

  /** On a run without repeated call ids a well-paired history stays well paired turn by turn, and is
      so at the end exactly when no handoff has cut a list of calls short. */
  lemma RunKeepsPairs(cfg: Config, s: State, turns: seq<Turn>, final: State, end: End)
    requires Leads(cfg, s, turns, final) && EndFits(cfg, final, turns, end)
    requires Clean(turns, end) && WellPaired(s.messages)
    ensures WellPaired(final.messages)
    ensures WellPaired(EndMessages(cfg, final, end)) <==> (end.Handover? ==> |end.ends| == |end.response.calls|)
  {
    TurnsKeepPairs(cfg, s, turns, final);
    match end
    case Handover(r, ends) =>
      CutExchangeKeepsPairs(final.messages, r, MessagesOf(cfg.say, r.calls, ends), |ends|);
    case LoopDetected(r, ends) =>
      AllAnswered(cfg, r, ends);
      ExchangeKeepsPairs(final.messages, r, MessagesOf(cfg.say, r.calls, ends));
    case _ =>
  }

  /** So the model is shown everything but plain system messages. */
  lemma RunIsShown(cfg: Config, s: State, turns: seq<Turn>, final: State, end: End)
    requires Leads(cfg, s, turns, final) && EndFits(cfg, final, turns, end)
    requires Clean(turns, end) && WellPaired(s.messages)
    requires end.Handover? ==> |end.ends| == |end.response.calls|
    ensures Repair(EndMessages(cfg, final, end)) == Denoised(EndMessages(cfg, final, end))
  {
    RunKeepsPairs(cfg, s, turns, final, end);
    WellPairedIsShown(EndMessages(cfg, final, end));
  }

  lemma {:induction false} TurnsKeepPairs(cfg: Config, s: State, turns: seq<Turn>, final: State)
    requires Leads(cfg, s, turns, final) && WellPaired(s.messages)
    requires forall i | 0 <= i < |turns| :: DistinctIds(turns[i].response.calls)
    ensures WellPaired(final.messages)
    decreases |turns|
  {
    if turns != [] {
      TurnKeepsPairs(cfg, s, turns[0]);
      TurnsKeepPairs(cfg, AfterTurn(cfg, s, turns[0]), turns[1..], final);
    }
  }

  lemma FirstTurn(cfg: Config, s: State, t: Turn, rest: seq<Turn>, final: State)
    ensures Leads(cfg, s, [t] + rest, final) <==> TurnFits(cfg, s, t) && Leads(cfg, AfterTurn(cfg, s, t), rest, final)
    ensures ToolTurns([t] + rest) == (if t.ToolTurn? then 1 else 0) + ToolTurns(rest)
  {
    assert ([t] + rest)[1..] == rest;
  }

  lemma {:induction false} OneMoreTurn(cfg: Config, s: State, turns: seq<Turn>, mid: State, t: Turn)
    requires Leads(cfg, s, turns, mid) && TurnFits(cfg, mid, t)
    ensures Leads(cfg, s, turns + [t], AfterTurn(cfg, mid, t))
    ensures ToolTurns(turns + [t]) == ToolTurns(turns) + if t.ToolTurn? then 1 else 0
    decreases |turns|
  {
    var final := AfterTurn(cfg, mid, t);
    if turns == [] {
      FirstTurn(cfg, s, t, [], final);
      assert [] + [t] == [t] + [];
    } else {
      var first, rest := turns[0], turns[1..];
      assert turns == [first] + rest && turns + [t] == [first] + (rest + [t]);
      FirstTurn(cfg, s, first, rest, mid);
      OneMoreTurn(cfg, AfterTurn(cfg, s, first), rest, mid, t);
      FirstTurn(cfg, s, first, rest + [t], final);
    }
  }

  // ---- the context ----

  class ProcessingContext {
    var messages: seq<Message>

    constructor (messages: seq<Message>)
      ensures this.messages == messages
    {
      this.messages := messages;
    }

    method Push(m: Message)
      modifies this
      ensures messages == old(messages) + [m]
    {
      messages := messages + [m];
    }

    method PushAll(ms: seq<Message>)
      modifies this
      ensures messages == old(messages) + ms
    {
      for i := 0 to |ms|
        invariant messages == old(messages) + ms[..i]
      {
        assert ms[..i + 1] == ms[..i] + [ms[i]];
        messages := messages + [ms[i]];
      }
      assert ms[..|ms|] == ms;
    }

    method Compact(keepRecent: nat, summary: string)
      requires keepRecent > 0
      modifies this
      ensures messages == Compacted(old(messages), keepRecent, summary)
    {
      if |messages| <= keepRecent + 2 {
        return;
      }
      var splitAt := FindSafeCompactionBoundary(messages, keepRecent);
      messages := [Message(System, NoCalls, None, true, summary)] + messages[splitAt..];
    }

    /** Compacts if the token count happens to ask for it and there are more than `atLeast` messages. */
    method CompactIfNeeded(cfg: Config, atLeast: int) returns (summary: Option<string>)
      modifies this
      ensures messages == Perhaps(old(messages), cfg, summary)
      ensures summary.Some? ==> |old(messages)| > atLeast
    {
      var overBudget: bool, text: string := *, *;
      if overBudget && |messages| > atLeast {
        var keepRecent := 20;
        if cfg.maxContextTokens <= 16000 {
          keepRecent := 8;
        } else if cfg.maxContextTokens <= 32000 {
          keepRecent := 12;
        }
        Compact(keepRecent, text);
        return Some(text);
      }
      return None;
    }

    method PushExchange(r: Response, results: seq<Message>)
      modifies this
      ensures messages == old(messages) + [AssistantMessage(r)] + results
    {
      Push(Message(Assistant, if r.calls != [] then Calls(IdsOf(r.calls)) else NoCalls, None, false, r.text));
      PushAll(results);
    }
  }

  // ---- the loop ----

  method RecordCalls(detector: ToolLoopDetector, calls: seq<ToolCall>)
    requires |detector.history| <= MAX_HISTORY
    modifies detector
    ensures Hashes(detector.history) == Latest(Hashes(old(detector.history)) + CallHashes(detector.hashPair, calls))
    ensures |detector.history| <= MAX_HISTORY
  {
    ghost var before, hash := Hashes(detector.history), detector.hashPair;
    assert before + CallHashes(hash, calls[..0]) == before;
    for i := 0 to |calls|
      invariant |detector.history| <= MAX_HISTORY
      invariant Hashes(detector.history) == Latest(before + CallHashes(hash, calls[..i]))
    {
      ghost var h, sig := detector.history, Signature(hash(calls[i].name, calls[i].arguments), calls[i].name, None);
      detector.RecordCall(calls[i].name, calls[i].arguments);
      RecordedHash(h, sig);
      OneMoreHash(hash, before, calls, i);
    }
    assert calls[..|calls|] == calls;
  }

  lemma OneMoreHash(hash: (string, string) -> nat, before: seq<nat>, calls: seq<ToolCall>, i: nat)
    requires i < |calls|
    ensures Latest(Latest(before + CallHashes(hash, calls[..i])) + [hash(calls[i].name, calls[i].arguments)])
         == Latest(before + CallHashes(hash, calls[..i + 1]))
  {
    var h := hash(calls[i].name, calls[i].arguments);
    assert calls[..i + 1][..i] == calls[..i];
    LatestOfLatest(before + CallHashes(hash, calls[..i]), h);
    assert before + CallHashes(hash, calls[..i + 1]) == (before + CallHashes(hash, calls[..i])) + [h];
  }

  /** The history after each result has been recorded with the text of the message beside it. */
  function ResolvedAll(history: seq<Signature>, hashStr: string -> nat,
                       results: seq<ToolResult>, messages: seq<Message>)
    : seq<Signature>
    decreases |results|
  {
    if results == [] || messages == [] then history
    else
      var resolved := Resolve(history, results[0].toolName, hashStr(messages[0].text));
      ResolvedAll(resolved, hashStr, results[1..], messages[1..])
  }

  /** Records results and messages pairwise, as far as both lists go. */
  method RecordResults(detector: ToolLoopDetector, results: seq<ToolResult>, messages: seq<Message>)
    modifies detector
    ensures detector.history == ResolvedAll(old(detector.history), detector.hashStr, results, messages)
    ensures Hashes(detector.history) == Hashes(old(detector.history))
  {
    ghost var goal := ResolvedAll(detector.history, detector.hashStr, results, messages);
    var i := 0;
    while i < |results| && i < |messages|
      invariant 0 <= i <= |results| && i <= |messages|
      invariant goal == ResolvedAll(detector.history, detector.hashStr, results[i..], messages[i..])
      invariant Hashes(detector.history) == Hashes(old(detector.history))
    {
      assert results[i..][1..] == results[i + 1..] && messages[i..][1..] == messages[i + 1..];
      detector.RecordResult(results[i].toolName, messages[i].text);
      i := i + 1;
    }
  }

  /** The model's text, if any, and a reminder; then perhaps a compaction. */
  method Nudge(cfg: Config, context: ProcessingContext, r: Response, ghost s: State) returns (ghost t: Turn)
    requires r.calls == [] && s.messages == context.messages && WantsNudge(cfg, s, r)
    modifies context
    ensures t.NudgeTurn? && t.response == r && TurnFits(cfg, s, t)
    ensures context.messages == AfterTurn(cfg, s, t).messages
  {
    var reminder: string := *;
    if r.text != "" {
      context.Push(Message(Assistant, NoCalls, None, false, r.text));
    }
    context.Push(Message(User, NoCalls, None, false, reminder));
    var late := context.CompactIfNeeded(cfg, 10);
    t := NudgeTurn(r, reminder, late);
  }

  /** The rest of a tool iteration that does not end the loop. */
  method GoOn(cfg: Config, context: ProcessingContext, r: Response, messages: seq<Message>, verdict: Verdict,
              ghost ends: seq<CallEnd>, ghost s: State)
    returns (ghost t: Turn)
    requires r.calls != [] && s.messages == context.messages && AllEnded(r, ends)
    requires messages == MessagesOf(cfg.say, r.calls, ends)
    requires verdict == Judge(WindowAfter(cfg, s, r)) && !verdict.Critical?
    modifies context
    ensures t.ToolTurn? && t.response == r && t.ends == ends && TurnFits(cfg, s, t)
    ensures context.messages == AfterTurn(cfg, s, t).messages
  {
    context.PushExchange(r, messages);
    var hint: Option<string>, early: Option<string> := None, None;
    if verdict.Warning? {
      var text: string := *;
      hint := Some(text);
      context.Push(Message(User, NoCalls, None, false, text));
    } else {
      early := context.CompactIfNeeded(cfg, -1);
    }
    ghost var extended := context.messages;
    var late := context.CompactIfNeeded(cfg, 10);
    t := ToolTurn(r, ends, hint, early, late);
    assert extended == Extended(cfg, s, t);
  }

  lemma HashesLength(history: seq<Signature>)
    ensures |Hashes(history)| == |history|
  {
  }

  /** What follows once every call has ended: the results are recorded, and the verdict stops the loop
      or lets it go on. */
  method JudgeTools(cfg: Config, context: ProcessingContext, detector: ToolLoopDetector, r: Response,
                    results: seq<ToolResult>, messages: seq<Message>, ghost ends: seq<CallEnd>, ghost s: State)
    returns (ended: bool, outcome: Outcome, ghost t: Turn)
    requires r.calls != [] && s.messages == context.messages && AllEnded(r, ends)
    requires messages == MessagesOf(cfg.say, r.calls, ends)
    requires Hashes(detector.history) == WindowAfter(cfg, s, r) && |detector.history| <= MAX_HISTORY
    modifies context, detector
    ensures |detector.history| <= MAX_HISTORY && Hashes(detector.history) == WindowAfter(cfg, s, r)
    ensures !ended ==> t.ToolTurn? && t.response == r && t.ends == ends && TurnFits(cfg, s, t)
                       && context.messages == AfterTurn(cfg, s, t).messages
    ensures ended ==> Judge(WindowAfter(cfg, s, r)).Critical?
                      && outcome == Stopped(Judge(WindowAfter(cfg, s, r)).repetitions)
                      && context.messages == Exchanged(cfg, s.messages, r, ends)
  {
    RecordResults(detector, results, messages);
    HashesLength(detector.history);
    var verdict := detector.Check();
    if verdict.Critical? {
      context.PushExchange(r, messages);
      return true, Stopped(verdict.repetitions), NudgeTurn(r, "", None);
    }
    t := GoOn(cfg, context, r, messages, verdict, ends, s);
    ended, outcome := false, Failed;
  }

  /** The iteration of a response that asks for tools. `ended` says that it ends the loop. */
  method RunTools(cfg: Config, context: ProcessingContext, detector: ToolLoopDetector, r: Response,
                  around: nat -> Surroundings, ghost s: State)
    returns (ended: bool, outcome: Outcome, added: nat, ghost t: Turn, ghost end: End)
    requires cfg.hash == detector.hashPair && r.calls != []
    requires s.messages == context.messages && s.window == Hashes(detector.history) && |detector.history| <= MAX_HISTORY
    modifies context, detector
    ensures |detector.history| <= MAX_HISTORY
    ensures !ended ==> t.ToolTurn? && t.response == r && TurnFits(cfg, s, t)
                       && forall i | 0 <= i < |r.calls| :: t.ends[i] == EndOf(cfg.policy, r.calls[i], around(i))
    ensures !ended ==>
      AfterTurn(cfg, s, t) == State(context.messages, Hashes(detector.history), 0, s.results + added)
    ensures ended ==> ExecutesTools(end) && end.response == r && EndKindFits(cfg, s, end)
                      && outcome == OutcomeOf(cfg, s, [], end)
                      && context.messages == EndMessages(cfg, s, end)
                      && Hashes(detector.history) == EndWindow(cfg, s, end)
  {
    ended, outcome, added, end, t := true, Failed, 0, AtLimit, NudgeTurn(r, "", None);
    RecordCalls(detector, r.calls);
    assert Hashes(detector.history) == WindowAfter(cfg, s, r);
    var results, messages, handoff, broken, ends := ExecuteToolCalls(cfg.policy, cfg.say, r.calls, around);
    if broken {
      end := Abandoned(r);
      return;
    }
    if handoff {
      context.PushExchange(r, messages);
      outcome, end := HandedOff, Handover(r, ends);
      return;
    }
    added, end := |results|, LoopDetected(r, ends);
    ended, outcome, t := JudgeTools(cfg, context, detector, r, results, messages, ends, s);
  }

  /** A run of the loop: its turns, how it ended, and what it left behind and counted. */
  ghost predicate RunDone(cfg: Config, start: State, turns: seq<Turn>, final: State, end: End,
                          messages: seq<Message>, window: seq<nat>, outcome: Outcome,
                          iterations: nat, toolIterations: nat)
  {
    && Leads(cfg, start, turns, final) && EndFits(cfg, final, turns, end)
    && messages == EndMessages(cfg, final, end) && window == EndWindow(cfg, final, end)
    && outcome == OutcomeOf(cfg, final, turns, end)
    && iterations == Iterations(turns, end) && toolIterations == ToolIterations(turns, end)
  }

  /** Between iterations. */
  ghost predicate Looping(cfg: Config, start: State, turns: seq<Turn>, final: State,
                          iterations: nat, toolIterations: nat,
                          messages: seq<Message>, window: seq<nat>, nudges: nat, results: nat)
  {
    && start.window == [] && start.nudges == 0 && Leads(cfg, start, turns, final)
    && iterations == |turns| <= MaxIterations(cfg) && toolIterations == ToolTurns(turns)
    && final == State(messages, window, nudges, results)
  }

  predicate Continues(cfg: Config, s: State, r: Response, t: Turn, s': State) {
    TurnFits(cfg, s, t) && t.response == r && (t.ToolTurn? <==> r.calls != []) && AfterTurn(cfg, s, t) == s'
  }

  predicate EndsWith(cfg: Config, s: State, r: Response, end: End,
                     messages: seq<Message>, window: seq<nat>, outcome: Outcome)
  {
    && (end.FinalAnswer? || ExecutesTools(end)) && (ExecutesTools(end) <==> r.calls != []) && EndKindFits(cfg, s, end)
    && messages == EndMessages(cfg, s, end) && window == EndWindow(cfg, s, end) && outcome == OutcomeOf(cfg, s, [], end)
  }

  function ToolsOf(r: Response): nat {
    if r.calls == [] then 0 else 1
  }

  lemma RunGoesOn(cfg: Config, start: State, turns: seq<Turn>, final: State, iterations: nat, toolIterations: nat,
                  r: Response, t: Turn, s': State)
    returns (longer: seq<Turn>)
    requires Looping(cfg, start, turns, final, iterations, toolIterations,
                     final.messages, final.window, final.nudges, final.results)
    requires Continues(cfg, final, r, t, s') && iterations < MaxIterations(cfg)
    ensures Looping(cfg, start, longer, s', iterations + 1, toolIterations + ToolsOf(r),
                    s'.messages, s'.window, s'.nudges, s'.results)
    ensures longer != [] && (longer[|longer| - 1].ToolTurn? <==> ToolsOf(r) > 0)
  {
    OneMoreTurn(cfg, start, turns, final, t);
    longer := turns + [t];
  }

  lemma RunEnds(cfg: Config, start: State, turns: seq<Turn>, final: State, iterations: nat, toolIterations: nat,
                end: End, messages: seq<Message>, window: seq<nat>, outcome: Outcome)
    requires Looping(cfg, start, turns, final, iterations, toolIterations,
                     final.messages, final.window, final.nudges, final.results)
    requires EndFits(cfg, final, turns, end)
    requires messages == EndMessages(cfg, final, end) && window == EndWindow(cfg, final, end)
    requires outcome == OutcomeOf(cfg, final, turns, end)
    ensures var total, tools := Iterations(turns, end), ToolIterations(turns, end);
      RunDone(cfg, start, turns, final, end, messages, window, outcome, total, tools) && tools <= 30 && total <= 90
  {
    RunBounded(cfg, start, turns, final, end);
  }

  lemma RunEndsWith(cfg: Config, start: State, turns: seq<Turn>, final: State, iterations: nat, toolIterations: nat,
                    r: Response, end: End, messages: seq<Message>, window: seq<nat>, outcome: Outcome)
    requires Looping(cfg, start, turns, final, iterations, toolIterations,
                     final.messages, final.window, final.nudges, final.results)
    requires EndsWith(cfg, final, r, end, messages, window, outcome) && iterations < MaxIterations(cfg)
    ensures var total, tools := iterations + 1, toolIterations + ToolsOf(r);
      RunDone(cfg, start, turns, final, end, messages, window, outcome, total, tools) && tools <= 30 && total <= 90
  {
    RunEnds(cfg, start, turns, final, iterations, toolIterations, end, messages, window, outcome);
  }

  predicate StopsQuietly(cfg: Config, turns: seq<Turn>, final: State, end: End, outcome: Outcome) {
    (end.NoRequest? || end.NoResponse?) && outcome == OutcomeOf(cfg, final, turns, end)
  }

  lemma RunUnanswered(cfg: Config, start: State, turns: seq<Turn>, final: State, iterations: nat, toolIterations: nat,
                      end: End, outcome: Outcome)
    requires Looping(cfg, start, turns, final, iterations, toolIterations,
                     final.messages, final.window, final.nudges, final.results)
    requires turns != [] && StopsQuietly(cfg, turns, final, end, outcome)
    ensures toolIterations <= 30 && iterations <= 90
    ensures RunDone(cfg, start, turns, final, end, final.messages, final.window, outcome, iterations, toolIterations)
  {
    RunEnds(cfg, start, turns, final, iterations, toolIterations, end, final.messages, final.window, outcome);
  }

  lemma RunAtLimit(cfg: Config, start: State, turns: seq<Turn>, final: State, iterations: nat, toolIterations: nat)
    requires Looping(cfg, start, turns, final, iterations, toolIterations,
                     final.messages, final.window, final.nudges, final.results)
    requires iterations == MaxIterations(cfg)
    ensures toolIterations <= 30 && iterations + 1 <= 90
    ensures RunDone(cfg, start, turns, final, AtLimit, final.messages, final.window, LimitReached,
                    iterations + 1, toolIterations)
  {
    RunEnds(cfg, start, turns, final, iterations, toolIterations, AtLimit, final.messages, final.window, LimitReached);
  }

  /** The next request is built and sent: neither need succeed, and without a model's answer a nudge
      is given up quietly while a tool iteration fails. */
  method NextResponse(cfg: Config, ghost turns: seq<Turn>, ghost final: State, afterTools: bool)
    returns (response: Option<Response>, outcome: Outcome, ghost end: End)
    requires turns != [] && (turns[|turns| - 1].ToolTurn? <==> afterTools)
    ensures response.None? ==> StopsQuietly(cfg, turns, final, end, outcome)
  {
    var built: bool, answered: bool, r: Response := *, *, *;
    if !built {
      return None, Failed, NoRequest;
    }
    if !answered {
      return None, if afterTools then Failed else Finished, NoResponse;
    }
    return Some(r), Finished, AtLimit;
  }

  /** One iteration within the limit: the final answer, a nudge, or tool calls. */
  method Iterate(cfg: Config, context: ProcessingContext, detector: ToolLoopDetector, r: Response,
                 nudges0: nat, results0: nat, ghost s: State)
    returns (ended: bool, outcome: Outcome, nudges: nat, results: nat, ghost t: Turn, ghost end: End)
    requires cfg.hash == detector.hashPair && |detector.history| <= MAX_HISTORY
    requires s == State(context.messages, Hashes(detector.history), nudges0, results0)
    modifies context, detector
    ensures |detector.history| <= MAX_HISTORY
    ensures !ended ==>
      Continues(cfg, s, r, t, State(context.messages, Hashes(detector.history), nudges, results))
    ensures ended ==> EndsWith(cfg, s, r, end, context.messages, Hashes(detector.history), outcome)
  {
    nudges, results, t, end := nudges0, results0, NudgeTurn(r, "", None), AtLimit;
    if r.calls != [] {
      var around: nat -> Surroundings := *;
      var added;
      ended, outcome, added, t, end := RunTools(cfg, context, detector, r, around, s);
      nudges, results := 0, results + added;
      return;
    }
    var text := cfg.visible(r.text);
    var askedQuestion := cfg.asksQuestion(context.messages);
    var midTaskPause := results > 0 && text != "" && cfg.announces(text);
    var initialAck := results == 0 && text != "" && cfg.acknowledges(text);
    var emptyAfterWork := results > 0 && text == "";
    if !((initialAck || midTaskPause || emptyAfterWork) && nudges < MAX_CONSECUTIVE_NUDGES && !askedQuestion) {
      end := FinalAnswer(r);
      return true, Finished, nudges, results, t, end;
    }
    t := Nudge(cfg, context, r, s);
    return false, Finished, nudges + 1, results, t, end;
  }

  method ProcessLlmResponse(cfg: Config, context: ProcessingContext, detector: ToolLoopDetector, initial: Response)
    returns (outcome: Outcome, iterations: nat, toolIterations: nat,
             ghost turns: seq<Turn>, ghost final: State, ghost end: End)
    requires detector.history == [] && cfg.hash == detector.hashPair
    modifies context, detector
    ensures RunDone(cfg, State(old(context.messages), [], 0, 0), turns, final, end,
                    context.messages, Hashes(detector.history), outcome, iterations, toolIterations)
    ensures toolIterations <= 30 && iterations <= 90
    ensures WithinLimit(cfg, iterations, outcome == LimitReached)
  {
    var current, nudges: nat, results: nat := initial, 0, 0;
    iterations, toolIterations, turns := 0, 0, [];
    ghost var start := State(context.messages, [], 0, 0);
    final := start;
    var scaled := 32 + cfg.tools * 8;
    var maxIterations := if cfg.configuredMax > 0 then cfg.configuredMax else if scaled <= 160 then scaled else 160;
    while iterations < maxIterations
      invariant Looping(cfg, start, turns, final, iterations, toolIterations,
                        context.messages, Hashes(detector.history), nudges, results)
      invariant |detector.history| <= MAX_HISTORY
      decreases maxIterations - iterations
    {
      var ended;
      ghost var t;
      ended, outcome, nudges, results, t, end := Iterate(cfg, context, detector, current, nudges, results, final);
      if ended {
        RunEndsWith(cfg, start, turns, final, iterations, toolIterations,
                    current, end, context.messages, Hashes(detector.history), outcome);
        iterations, toolIterations := iterations + 1, toolIterations + ToolsOf(current);
        return;
      }
      ghost var next := State(context.messages, Hashes(detector.history), nudges, results);
      turns := RunGoesOn(cfg, start, turns, final, iterations, toolIterations, current, t, next);
      final := next;
      iterations, toolIterations := iterations + 1, toolIterations + ToolsOf(current);
      var response;
      response, outcome, end := NextResponse(cfg, turns, final, ToolsOf(current) > 0);
      if response.None? {
        RunUnanswered(cfg, start, turns, final, iterations, toolIterations, end, outcome);
        return;
      }
      current := response.value;
    }
    RunAtLimit(cfg, start, turns, final, iterations, toolIterations);
    outcome, end, iterations := LimitReached, AtLimit, iterations + 1;
  }
}
