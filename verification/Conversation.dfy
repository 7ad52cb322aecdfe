/** Conversation histories and their repair before they are shown to a model.

    A model accepts tool results only right after the assistant message that asked for them. Repair
    drops the calls without complete results, the results without a call, and every system message
    that is not a compaction summary. */
module Conversation {
  import opened Wrappers

  datatype Role = User | Assistant | System | Tool

  type CallId = nat

  /** The `tool_calls` entry of a message: absent, present but unreadable, or a list of call ids. */
  datatype ToolCalls = NoCalls | Unreadable | Calls(ids: seq<CallId>)

  datatype Message = Message(
    role: Role, toolCalls: ToolCalls, toolCallId: Option<CallId>, isSummary: bool, text: string)

  predicate Noise(m: Message) {
    m.role.System? && !m.isSummary
  }

  /** User and assistant messages end the run of results that belongs to an earlier message. */
  predicate Speaks(m: Message) {
    m.role.User? || m.role.Assistant?
  }

  predicate CallsTools(m: Message) {
    m.role.Assistant? && m.toolCalls.Calls?
  }

  function Required(m: Message): set<CallId> {
    if CallsTools(m) then set id | id in m.toolCalls.ids else {}
  }

  /** The ids answered before the next message that speaks. */
  function Answered(ms: seq<Message>): set<CallId> {
    if ms == [] || Speaks(ms[0]) then {}
    else (if ms[0].role.Tool? && ms[0].toolCallId.Some? then {ms[0].toolCallId.value} else {}) + Answered(ms[1..])
  }

  // ---- repair ----

  /** The calls still owed a result after `m`, when `rest` follows it. */
  function PendingAfter(m: Message, rest: seq<Message>, pending: set<CallId>): set<CallId> {
    if CallsTools(m) && Required(m) <= Answered(rest) then pending + Required(m)
    else if m.role.Tool? && m.toolCallId.Some? then pending - {m.toolCallId.value}
    else pending
  }

  predicate Keeps(m: Message, rest: seq<Message>, pending: set<CallId>) {
    && !Noise(m)
    && (CallsTools(m) ==> Required(m) <= Answered(rest))
    && (m.role.Tool? ==> m.toolCallId.Some? && m.toolCallId.value in pending)
  }

  function RepairFrom(ms: seq<Message>, pending: set<CallId>): seq<Message> {
    if ms == [] then []
    else
      (if Keeps(ms[0], ms[1..], pending) then [ms[0]] else [])
      + RepairFrom(ms[1..], PendingAfter(ms[0], ms[1..], pending))
  }

  function Repair(ms: seq<Message>): seq<Message> {
    RepairFrom(ms, {})
  }

  // ---- what a well-formed history is ----

  /** Each result answers a call that is still owed one, and nothing is owed when anyone speaks. */
  predicate Paired(ms: seq<Message>, owed: set<CallId>) {
    if ms == [] then owed == {}
    else
      match ms[0].role
      case System => Paired(ms[1..], owed)
      case Tool =>
        ms[0].toolCallId.Some? && ms[0].toolCallId.value in owed && Paired(ms[1..], owed - {ms[0].toolCallId.value})
      case User => owed == {} && Paired(ms[1..], {})
      case Assistant => owed == {} && Paired(ms[1..], Required(ms[0]))
  }

  /** The tool messages before the next message that speaks, as the ids they answer. */
  function Block(ms: seq<Message>): seq<Option<CallId>> {
    if ms == [] || Speaks(ms[0]) then []
    else (if ms[0].role.Tool? then [ms[0].toolCallId] else []) + Block(ms[1..])
  }

  function OnceEach(ids: set<CallId>): multiset<Option<CallId>> {
    multiset(set id | id in ids :: Some(id))
  }

  /** Stated position by position: the first messages answer nothing, and every message that speaks
      is followed by exactly one result for each of its distinct calls and by no other. */
  ghost predicate ExactlyAnswered(ms: seq<Message>, owed: set<CallId>) {
    multiset(Block(ms)) == OnceEach(owed) && SpeakersAnswered(ms)
  }

  lemma OnceEachLess(ids: set<CallId>, id: CallId)
    requires id in ids
    ensures OnceEach(ids) == OnceEach(ids - {id}) + multiset{Some(id)}
  {
  }

  lemma OnceEachMembers(ids: set<CallId>, entry: Option<CallId>)
    ensures entry in OnceEach(ids) <==> entry.Some? && entry.value in ids
    ensures OnceEach(ids) == multiset{} <==> ids == {}
  {
    if id :| id in ids { assert Some(id) in OnceEach(ids); }
  }

  lemma Cancel<T>(a: multiset<T>, b: multiset<T>, x: T)
    ensures a + multiset{x} == b + multiset{x} <==> a == b
  {
    if a + multiset{x} == b + multiset{x} {
      forall y ensures a[y] == b[y] {
        assert (a + multiset{x})[y] == (b + multiset{x})[y];
      }
    }
  }

  ghost predicate SpeakersAnswered(ms: seq<Message>) {
    forall i | 0 <= i < |ms| && Speaks(ms[i]) :: multiset(Block(ms[i + 1..])) == OnceEach(Required(ms[i]))
  }

  lemma SpeakersAnsweredCons(ms: seq<Message>)
    requires ms != []
    ensures SpeakersAnswered(ms) == (
        (Speaks(ms[0]) ==> multiset(Block(ms[1..])) == OnceEach(Required(ms[0]))) && SpeakersAnswered(ms[1..]))
  {
    var rest := ms[1..];
    forall i | 0 <= i < |rest| ensures rest[i] == ms[i + 1] && rest[i + 1..] == ms[i + 1 + 1..] {
    }
    if SpeakersAnswered(rest) {
      forall i | 0 < i < |ms| && Speaks(ms[i]) ensures multiset(Block(ms[i + 1..])) == OnceEach(Required(ms[i])) {
        assert rest[i - 1] == ms[i] && rest[i - 1 + 1..] == ms[i + 1..];
      }
    }
  }

  lemma BlockOfResult(ms: seq<Message>, owed: set<CallId>)
    requires ms != [] && ms[0].role.Tool?
    ensures multiset(Block(ms)) == OnceEach(owed)
       <==> ms[0].toolCallId.Some? && ms[0].toolCallId.value in owed
            && multiset(Block(ms[1..])) == OnceEach(owed - {ms[0].toolCallId.value})
  {
    var entry := ms[0].toolCallId;
    assert multiset(Block(ms)) == multiset(Block(ms[1..])) + multiset{entry};
    OnceEachMembers(owed, entry);
    if entry.Some? && entry.value in owed {
      OnceEachLess(owed, entry.value);
      Cancel(multiset(Block(ms[1..])), OnceEach(owed - {entry.value}), entry);
    } else {
      assert entry in multiset(Block(ms));
    }
  }

  /** The two descriptions agree. */
  lemma {:induction false} PairedMeansExactlyAnswered(ms: seq<Message>, owed: set<CallId>)
    ensures Paired(ms, owed) <==> ExactlyAnswered(ms, owed)
  {
    OnceEachMembers(owed, None);
    if ms != [] {
      SpeakersAnsweredCons(ms);
      var m, rest := ms[0], ms[1..];
      match m.role
      case System =>
        assert Block(ms) == Block(rest);
        PairedMeansExactlyAnswered(rest, owed);
      case Tool =>
        BlockOfResult(ms, owed);
        if m.toolCallId.Some? {
          PairedMeansExactlyAnswered(rest, owed - {m.toolCallId.value});
        }
      case _ =>
        PairedMeansExactlyAnswered(rest, Required(m));
    }
  }

  // ---- repair makes histories well formed ----

  /** Whatever the history, what repair leaves is fully paired. */
  lemma {:induction false} RepairPairs(ms: seq<Message>, pending: set<CallId>)
    requires pending <= Answered(ms)
    ensures Paired(RepairFrom(ms, pending), pending)
  {
    if ms != [] {
      var m, rest := ms[0], ms[1..];
      var later := PendingAfter(m, rest, pending);
      RepairPairs(rest, later);
      var repaired := RepairFrom(rest, later);
      if Keeps(m, rest, pending) {
        assert RepairFrom(ms, pending) == [m] + repaired;
        assert ([m] + repaired)[1..] == repaired;
        if Speaks(m) { assert pending == {} && later == Required(m); }
      } else {
        assert RepairFrom(ms, pending) == repaired;
        if m.role.Tool? && m.toolCallId.Some? { assert later == pending; }
      }
    }
  }

  function Denoised(ms: seq<Message>): seq<Message> {
    if ms == [] then []
    else (if Noise(ms[0]) then [] else [ms[0]]) + Denoised(ms[1..])
  }

  lemma {:induction false} OwedIsAnswered(ms: seq<Message>, owed: set<CallId>)
    requires Paired(ms, owed)
    ensures owed <= Answered(ms)
  {
    if ms != [] {
      match ms[0].role
      case System => OwedIsAnswered(ms[1..], owed);
      case Tool => OwedIsAnswered(ms[1..], owed - {ms[0].toolCallId.value});
      case _ =>
    }
  }

  /** From a paired history repair drops nothing but the noise. */
  lemma {:induction false} PairedIsKept(ms: seq<Message>, owed: set<CallId>)
    requires Paired(ms, owed)
    ensures RepairFrom(ms, owed) == Denoised(ms)
  {
    if ms != [] {
      var m, rest := ms[0], ms[1..];
      match m.role
      case System => PairedIsKept(rest, owed);
      case Tool => PairedIsKept(rest, owed - {m.toolCallId.value});
      case User => PairedIsKept(rest, {});
      case Assistant =>
        PairedIsKept(rest, Required(m));
        OwedIsAnswered(rest, Required(m));
        assert owed + Required(m) == Required(m);
    }
  }

  lemma {:induction false} NoiseIsNeutral(ms: seq<Message>, owed: set<CallId>)
    ensures Paired(Denoised(ms), owed) <==> Paired(ms, owed)
  {
    if ms != [] {
      var m, rest := ms[0], Denoised(ms[1..]);
      assert if Noise(m) then Denoised(ms) == rest else Denoised(ms)[1..] == rest;
      match m.role
      case System => NoiseIsNeutral(ms[1..], owed);
      case Tool => if m.toolCallId.Some? { NoiseIsNeutral(ms[1..], owed - {m.toolCallId.value}); }
      case User => NoiseIsNeutral(ms[1..], {});
      case Assistant => NoiseIsNeutral(ms[1..], Required(m));
    }
  }

  /** Repair leaves a history as it is, up to noise, exactly when it is paired. */
  lemma RepairKeepsExactlyPaired(ms: seq<Message>)
    ensures Repair(ms) == Denoised(ms) <==> Paired(ms, {})
  {
    if Paired(ms, {}) {
      PairedIsKept(ms, {});
    } else {
      RepairPairs(ms, {});
      NoiseIsNeutral(ms, {});
    }
  }

  lemma {:induction false} RepairLeavesNoNoise(ms: seq<Message>, pending: set<CallId>)
    ensures Denoised(RepairFrom(ms, pending)) == RepairFrom(ms, pending)
  {
    if ms != [] {
      var later := PendingAfter(ms[0], ms[1..], pending);
      RepairLeavesNoNoise(ms[1..], later);
      var repaired := RepairFrom(ms[1..], later);
      assert ([ms[0]] + repaired)[1..] == repaired;
      assert [] + repaired == repaired;
    }
  }

  /** Repairing twice is repairing once. */
  lemma RepairIdempotent(ms: seq<Message>)
    ensures Repair(Repair(ms)) == Repair(ms)
  {
    RepairPairs(ms, {});
    PairedIsKept(Repair(ms), {});
    RepairLeavesNoNoise(ms, {});
  }

  // ---- what repair never touches ----

  /** User messages, assistant messages without readable calls, and summaries. */
  predicate Fixed(m: Message) {
    m.role.User? || (m.role.Assistant? && !CallsTools(m)) || (m.role.System? && m.isSummary)
  }

  function FixedOf(ms: seq<Message>): seq<Message> {
    if ms == [] then [] else (if Fixed(ms[0]) then [ms[0]] else []) + FixedOf(ms[1..])
  }

  lemma {:induction false} FixedAreKept(ms: seq<Message>, pending: set<CallId>)
    ensures FixedOf(RepairFrom(ms, pending)) == FixedOf(ms)
  {
    if ms != [] {
      var later := PendingAfter(ms[0], ms[1..], pending);
      FixedAreKept(ms[1..], later);
      var repaired := RepairFrom(ms[1..], later);
      assert ([ms[0]] + repaired)[1..] == repaired;
      assert [] + repaired == repaired;
    }
  }

  predicate Subsequence(xs: seq<Message>, ys: seq<Message>) {
    xs == [] || (ys != [] && ((xs[0] == ys[0] && Subsequence(xs[1..], ys[1..])) || Subsequence(xs, ys[1..])))
  }

  lemma {:induction false} RepairIsSubsequence(ms: seq<Message>, pending: set<CallId>)
    ensures Subsequence(RepairFrom(ms, pending), ms)
  {
    if ms != [] {
      var later := PendingAfter(ms[0], ms[1..], pending);
      RepairIsSubsequence(ms[1..], later);
      var repaired := RepairFrom(ms[1..], later);
      assert ([ms[0]] + repaired)[1..] == repaired;
      assert [] + repaired == repaired;
    }
  }

  // ---- the loop ----

  datatype LlmMessage = LlmMessage(role: Role, text: string, toolCalls: Option<seq<CallId>>, toolCallId: Option<CallId>)

  function ToLlm(m: Message): LlmMessage {
    LlmMessage(m.role, m.text, if m.toolCalls.Calls? then Some(m.toolCalls.ids) else None, m.toolCallId)
  }

  function ToLlmAll(ms: seq<Message>): seq<LlmMessage> {
    if ms == [] then [] else [ToLlm(ms[0])] + ToLlmAll(ms[1..])
  }

  lemma {:induction false} ToLlmEach(ms: seq<Message>)
    ensures |ToLlmAll(ms)| == |ms| && forall i | 0 <= i < |ms| :: ToLlmAll(ms)[i] == ToLlm(ms[i])
  {
    if ms != [] { ToLlmEach(ms[1..]); }
  }

  /** What the model is shown of a history: every message repair keeps, as it is. */
  lemma ShownAsKept(ms: seq<Message>)
    ensures var kept, shown := Repair(ms), ToLlmAll(Repair(ms));
      && |shown| == |kept|
      && forall i | 0 <= i < |kept| ::
           && shown[i].role == kept[i].role && shown[i].text == kept[i].text
           && shown[i].toolCallId == kept[i].toolCallId
           && (kept[i].toolCalls.Calls? ==> shown[i].toolCalls == Some(kept[i].toolCalls.ids))
           && (!kept[i].toolCalls.Calls? ==> shown[i].toolCalls == None)
           && !(kept[i].role == System && !kept[i].isSummary)
  {
    ToLlmEach(Repair(ms));
    RepairLeavesNoNoise(ms, {});
    NoiseIsGone(ms, Repair(ms));
  }

  lemma NoiseIsGone(ms: seq<Message>, kept: seq<Message>)
    requires Denoised(kept) == kept
    ensures forall i | 0 <= i < |kept| :: !(kept[i].role == System && !kept[i].isSummary)
  {
    forall i | 0 <= i < |kept| ensures !(kept[i].role == System && !kept[i].isSummary) {
      DenoisedMembers(kept, i);
    }
  }

  lemma {:induction false} DenoisedMembers(ms: seq<Message>, i: nat)
    requires i < |Denoised(ms)|
    ensures !(Denoised(ms)[i].role == System && !Denoised(ms)[i].isSummary)
  {
    var first := if ms[0].role == System && !ms[0].isSummary then 0 else 1;
    if i >= first {
      assert Denoised(ms)[i] == Denoised(ms[1..])[i - first];
      DenoisedMembers(ms[1..], i - first);
    }
  }

  // ---- the messages a model is shown, position by position ----

  /** No user or assistant message stands between. */
  predicate Quiet(shown: seq<LlmMessage>, i: nat, j: nat)
    requires j <= |shown|
  {
    forall k | i < k < j :: shown[k].role != User && shown[k].role != Assistant
  }

  predicate Calling(m: LlmMessage, id: CallId) {
    m.role == Assistant && m.toolCalls.Some? && id in m.toolCalls.value
  }

  predicate ResultFor(m: LlmMessage, id: CallId) {
    m.role == Tool && m.toolCallId == Some(id)
  }

  /** Message `i` makes the call that `j` answers, and no one speaks in between. */
  predicate CalledAt(shown: seq<LlmMessage>, i: nat, j: nat, id: CallId)
    requires j < |shown|
  {
    i < j && Calling(shown[i], id) && ResultFor(shown[j], id) && Quiet(shown, i, j)
  }

  /** Every result answers a call just made, every call gets its result before anyone speaks, and
      none gets two. */
  ghost predicate Matched(shown: seq<LlmMessage>) {
    && (forall j | 0 <= j < |shown| && shown[j].role == Tool ::
          shown[j].toolCallId.Some? && exists i: nat :: CalledAt(shown, i, j, shown[j].toolCallId.value))
    && (forall i, id | 0 <= i < |shown| && Calling(shown[i], id) ::
          exists j: nat :: j < |shown| && CalledAt(shown, i, j, id))
    && (forall j, j', id | 0 <= j < j' < |shown| && ResultFor(shown[j], id) && ResultFor(shown[j'], id) ::
          !Quiet(shown, j, j'))
  }

  predicate NoneSpeaks(ms: seq<Message>, from: nat, to: nat)
    requires to <= |ms|
  {
    forall k | from <= k < to :: !Speaks(ms[k])
  }

  lemma BlockFrom(ms: seq<Message>, from: nat)
    requires from < |ms| && !Speaks(ms[from])
    ensures Block(ms[from..]) == (if ms[from].role.Tool? then [ms[from].toolCallId] else []) + Block(ms[from + 1..])
  {
    assert ms[from..][1..] == ms[from + 1..];
  }

  lemma {:induction false} BlockHolds(ms: seq<Message>, from: nat, j: nat)
    requires from <= j < |ms| && ms[j].role.Tool? && NoneSpeaks(ms, from, j)
    ensures ms[j].toolCallId in Block(ms[from..])
    decreases j - from
  {
    BlockFrom(ms, from);
    if from < j { BlockHolds(ms, from + 1, j); }
  }

  lemma {:induction false} BlockComesFrom(ms: seq<Message>, from: nat, entry: Option<CallId>) returns (j: nat)
    requires from <= |ms| && entry in Block(ms[from..])
    ensures from <= j < |ms| && ms[j].role.Tool? && ms[j].toolCallId == entry && NoneSpeaks(ms, from, j)
    decreases |ms| - from
  {
    assert from < |ms| && !Speaks(ms[from]);
    BlockFrom(ms, from);
    if ms[from].role.Tool? && ms[from].toolCallId == entry {
      j := from;
    } else {
      j := BlockComesFrom(ms, from + 1, entry);
    }
  }

  lemma CountInFront(entry: Option<CallId>, x: Option<CallId>, xs: seq<Option<CallId>>)
    ensures multiset([x] + xs)[entry] == multiset(xs)[entry] + if x == entry then 1 else 0
  {
    assert multiset([x] + xs) == multiset{x} + multiset(xs);
  }

  lemma {:induction false} BlockHoldsTwice(ms: seq<Message>, from: nat, j: nat, j': nat)
    requires from <= j < j' < |ms| && ms[j].role.Tool? && ms[j'].role.Tool? && ms[j].toolCallId == ms[j'].toolCallId
    requires NoneSpeaks(ms, from, j')
    ensures multiset(Block(ms[from..]))[ms[j].toolCallId] >= 2
    decreases j - from
  {
    var entry, rest := ms[j].toolCallId, Block(ms[from + 1..]);
    BlockFrom(ms, from);
    if from < j {
      BlockHoldsTwice(ms, from + 1, j, j');
    } else {
      BlockHolds(ms, from + 1, j');
      assert entry in multiset(rest);
    }
    if ms[from].role.Tool? {
      CountInFront(entry, ms[from].toolCallId, rest);
    } else {
      assert [] + rest == rest;
    }
  }

  /** Behind the last message before `j` that speaks. */
  lemma {:induction false} AfterSpeaker(ms: seq<Message>, j: nat) returns (from: nat)
    requires j <= |ms|
    ensures from <= j && NoneSpeaks(ms, from, j) && (from > 0 ==> Speaks(ms[from - 1]))
  {
    from := j;
    if j > 0 && !Speaks(ms[j - 1]) { from := AfterSpeaker(ms, j - 1); }
  }

  function OwedAfter(ms: seq<Message>, from: nat): set<CallId>
    requires from <= |ms|
  {
    if from == 0 then {} else Required(ms[from - 1])
  }

  lemma BlockAnswers(ms: seq<Message>, from: nat)
    requires Paired(ms, {}) && from <= |ms| && (from > 0 ==> Speaks(ms[from - 1]))
    ensures multiset(Block(ms[from..])) == OnceEach(OwedAfter(ms, from))
  {
    PairedMeansExactlyAnswered(ms, {});
    if from == 0 { assert ms[0..] == ms; }
  }

  lemma OnceEachCounts(ids: set<CallId>, entry: Option<CallId>)
    ensures OnceEach(ids)[entry] <= 1
  {
  }

  lemma ResultHasCaller(ms: seq<Message>, j: nat) returns (i: nat)
    requires Paired(ms, {}) && j < |ms| && ms[j].role.Tool?
    ensures i < j && ms[j].toolCallId.Some? && CallsTools(ms[i]) && ms[j].toolCallId.value in ms[i].toolCalls.ids
    ensures NoneSpeaks(ms, i + 1, j)
  {
    var from := AfterSpeaker(ms, j);
    BlockAnswers(ms, from);
    BlockHolds(ms, from, j);
    OnceEachMembers(OwedAfter(ms, from), ms[j].toolCallId);
    assert ms[j].toolCallId in multiset(Block(ms[from..]));
    i := from - 1;
  }

  lemma CallHasResult(ms: seq<Message>, i: nat, id: CallId) returns (j: nat)
    requires Paired(ms, {}) && i < |ms| && CallsTools(ms[i]) && id in ms[i].toolCalls.ids
    ensures i < j < |ms| && ms[j].role.Tool? && ms[j].toolCallId == Some(id) && NoneSpeaks(ms, i + 1, j)
  {
    BlockAnswers(ms, i + 1);
    OnceEachMembers(Required(ms[i]), Some(id));
    assert Some(id) in multiset(Block(ms[i + 1..]));
    j := BlockComesFrom(ms, i + 1, Some(id));
  }

  lemma ResultIsOnlyOne(ms: seq<Message>, j: nat, j': nat)
    requires Paired(ms, {}) && j < j' < |ms| && ms[j].role.Tool? && ms[j'].role.Tool?
    requires ms[j].toolCallId == ms[j'].toolCallId
    ensures !NoneSpeaks(ms, j + 1, j')
  {
    if NoneSpeaks(ms, j + 1, j') {
      var from := AfterSpeaker(ms, j);
      BlockAnswers(ms, from);
      BlockHoldsTwice(ms, from, j, j');
      OnceEachCounts(OwedAfter(ms, from), ms[j].toolCallId);
    }
  }

  /** Whatever the history, calls and results match in what the model is shown. */
  lemma ShownIsMatched(ms: seq<Message>)
    ensures Matched(ToLlmAll(Repair(ms)))
  {
    var kept, shown := Repair(ms), ToLlmAll(Repair(ms));
    RepairPairs(ms, {});
    ToLlmEach(kept);
    forall j | 0 <= j < |shown| && shown[j].role == Tool
      ensures shown[j].toolCallId.Some? && exists i: nat :: CalledAt(shown, i, j, shown[j].toolCallId.value)
    {
      var i := ResultHasCaller(kept, j);
      assert CalledAt(shown, i, j, shown[j].toolCallId.value);
    }
    forall i, id | 0 <= i < |shown| && Calling(shown[i], id)
      ensures exists j: nat :: j < |shown| && CalledAt(shown, i, j, id)
    {
      var j := CallHasResult(kept, i, id);
      assert CalledAt(shown, i, j, id);
    }
    forall j, j', id | 0 <= j < j' < |shown| && ResultFor(shown[j], id) && ResultFor(shown[j'], id)
      ensures !Quiet(shown, j, j')
    {
      ResultIsOnlyOne(kept, j, j');
    }
  }

  /** The required ids that are answered from position `from` on. */
  method SatisfiedIds(ms: seq<Message>, from: nat, required: set<CallId>) returns (satisfied: set<CallId>)
    requires from <= |ms|
    ensures satisfied == Answered(ms[from..]) * required
  {
    satisfied := {};
    var next := from;
    while next < |ms| && !Speaks(ms[next])
      invariant from <= next <= |ms|
      invariant Answered(ms[from..]) * required == satisfied + Answered(ms[next..]) * required
    {
      assert ms[next..][1..] == ms[next + 1..];
      if ms[next].role.Tool? && ms[next].toolCallId.Some? && ms[next].toolCallId.value in required {
        satisfied := satisfied + {ms[next].toolCallId.value};
      }
      next := next + 1;
    }
  }

  lemma SameSize(part: set<CallId>, whole: set<CallId>)
    requires part <= whole
    ensures |part| == |whole| <==> part == whole
  {
    assert whole == part + (whole - part);
  }

  /** Decides about one message and updates the calls that are owed a result. */
  method Admit(ms: seq<Message>, i: nat, pending: set<CallId>) returns (keep: bool, later: set<CallId>)
    requires i < |ms|
    ensures keep == Keeps(ms[i], ms[i + 1..], pending)
    ensures later == PendingAfter(ms[i], ms[i + 1..], pending)
  {
    var m := ms[i];
    if m.role.System? && !m.isSummary {
      return false, pending;
    }
    if CallsTools(m) {
      var required := set id | id in m.toolCalls.ids;
      var satisfied := SatisfiedIds(ms, i + 1, required);
      SameSize(satisfied, required);
      if |satisfied| != |required| {
        return false, pending;
      }
      return true, pending + required;
    }
    if m.role.Tool? {
      if m.toolCallId.None? || m.toolCallId.value !in pending {
        return false, pending;
      }
      return true, pending - {m.toolCallId.value};
    }
    return true, pending;
  }

  method LlmMessagesFromContext(ms: seq<Message>) returns (messages: seq<LlmMessage>)
    ensures messages == ToLlmAll(Repair(ms)) && Matched(messages)
  {
    messages := [];
    var pending: set<CallId> := {};
    assert ms[0..] == ms;
    for i := 0 to |ms|
      invariant ToLlmAll(Repair(ms)) == messages + ToLlmAll(RepairFrom(ms[i..], pending))
    {
      RepairStep(ms, i, pending);
      var keep, later := Admit(ms, i, pending);
      if keep {
        var calls := if ms[i].toolCalls.Calls? then Some(ms[i].toolCalls.ids) else None;
        messages := messages + [LlmMessage(ms[i].role, ms[i].text, calls, ms[i].toolCallId)];
      }
      pending := later;
    }
    ShownIsMatched(ms);
  }

  lemma RepairStep(ms: seq<Message>, i: nat, pending: set<CallId>)
    requires i < |ms|
    ensures var rest := RepairFrom(ms[i + 1..], PendingAfter(ms[i], ms[i + 1..], pending));
      ToLlmAll(RepairFrom(ms[i..], pending))
      == (if Keeps(ms[i], ms[i + 1..], pending) then [ToLlm(ms[i])] else []) + ToLlmAll(rest)
  {
    assert ms[i..][1..] == ms[i + 1..];
    var rest := RepairFrom(ms[i + 1..], PendingAfter(ms[i], ms[i + 1..], pending));
    assert ([ms[i]] + rest)[1..] == rest;
    assert [] + rest == rest;
  }
}
