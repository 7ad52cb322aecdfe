/** Credential requests and their human approval, as atomic steps of concurrent requests.

    A request evaluates the rules once, may open an approval and wait for a one-shot reply or a
    timeout, then checks the lock flag and later reads the vault. Answers, timeouts, rule changes
    and locking happen at any moment in between. */
module ApprovalProtocol {
  import opened Wrappers
  import opened RuleChoice

  type RequestId = nat

  datatype Phase =
    | Opening
    | Waiting(reply: Option<bool>)
    | Expired
    | Granted
    | Reading
    | Done(released: bool)

  /** `id` names the approval once opened; the times say which steps brought the request here. */
  datatype Request = Request(path: string, level: Level, phase: Phase, id: Uuid,
                             askedAt: nat, openedAt: nat, repliedAt: nat, checkedAt: nat)

  /** `opener` remembers which request opened an approval. The lock flag follows the vault's own
      state in a second step, while the vault is held for writing. */
  datatype State = State(rules: seq<PathPermission>, locked: bool, vaultOpen: bool, switching: bool,
                         requests: map<RequestId, Request>, opener: map<Uuid, RequestId>, pending: set<Uuid>,
                         now: nat)

  const START := State([], true, false, false, map[], map[], {}, 0)

  datatype Event =
    | AddRule(rule: PathPermission)
    | RemoveRule(ruleId: Uuid)
    | SwitchVault(open: bool)
    | SwitchFlag
    | Ask(r: RequestId, path: string, decision: Decision)
    | Open(r: RequestId, id: Uuid)
    | Respond(id: Uuid, approved: bool)
    | Receive(r: RequestId)
    | TimeOut(r: RequestId)
    | CleanUp(r: RequestId)
    | CheckLock(r: RequestId)
    | ReadVault(r: RequestId, found: bool)

  predicate At(s: State, r: RequestId, phase: Phase) {
    r in s.requests && s.requests[r].phase == phase
  }

  ghost predicate Enabled(s: State, e: Event) {
    match e
    case AddRule(_) => true
    case RemoveRule(_) => true
    case SwitchVault(_) => !s.switching
    case SwitchFlag => s.switching
    case Ask(r, path, decision) => r !in s.requests && PathDecides(s.rules, path, decision)
    case Open(r, id) => At(s, r, Opening) && id !in s.opener
    case Respond(id, _) => id in s.pending
    case Receive(r) => r in s.requests && s.requests[r].phase.Waiting? && s.requests[r].phase.reply.Some?
    case TimeOut(r) => At(s, r, Waiting(None))
    case CleanUp(r) => At(s, r, Expired)
    case CheckLock(r) => At(s, r, Granted)
    case ReadVault(r, _) => At(s, r, Reading) && !s.switching
  }

  function FirstPhase(level: Level): Phase {
    match level
    case Allow => Granted
    case AllowHil => Opening
    case AllowHil2fa => Done(false)
    case Deny => Done(false)
  }

  function Moved(s: State, r: RequestId, q: Request): State {
    s.(requests := s.requests[r := q])
  }

  function Effect(s: State, e: Event): State
    requires e.Open? || e.Receive? || e.TimeOut? || e.CleanUp? || e.CheckLock? || e.ReadVault? ==> e.r in s.requests
  {
    match e
    case AddRule(rule) => s.(rules := s.rules + [rule])
    case RemoveRule(id) => s.(rules := WithoutFirst(s.rules, id, PathIdOf))
    case SwitchVault(open) => s.(vaultOpen := open, switching := true)
    case SwitchFlag => s.(locked := !s.vaultOpen, switching := false)
    case Ask(r, path, decision) =>
      Moved(s, r, Request(path, decision.level, FirstPhase(decision.level), 0, s.now, 0, 0, 0))
    case Open(r, id) =>
      Moved(s, r, s.requests[r].(phase := Waiting(None), id := id, openedAt := s.now))
        .(opener := s.opener[id := r], pending := s.pending + {id})
    case Respond(id, approved) =>
      var s' := s.(pending := s.pending - {id});
      if id in s.opener && At(s, s.opener[id], Waiting(None))
      then Moved(s', s.opener[id], s.requests[s.opener[id]].(phase := Waiting(Some(approved)), repliedAt := s.now))
      else s'
    case Receive(r) =>
      Moved(s, r, s.requests[r].(phase := if s.requests[r].phase == Waiting(Some(true)) then Granted else Done(false)))
    case TimeOut(r) => Moved(s, r, s.requests[r].(phase := Expired))
    case CleanUp(r) =>
      Moved(s, r, s.requests[r].(phase := Done(false))).(pending := s.pending - {s.requests[r].id})
    case CheckLock(r) =>
      Moved(s, r, s.requests[r].(phase := if s.locked then Done(false) else Reading, checkedAt := s.now))
    case ReadVault(r, found) => Moved(s, r, s.requests[r].(phase := Done(s.vaultOpen && found)))
  }

  function Apply(s: State, e: Event): State
    requires e.Open? || e.Receive? || e.TimeOut? || e.CleanUp? || e.CheckLock? || e.ReadVault? ==> e.r in s.requests
  {
    Effect(s, e).(now := s.now + 1)
  }

  // ---- runs ----

  /** Any interleaving: the events, and the state before each of them and after the last. */
  datatype Run = Run(events: seq<Event>, states: seq<State>)

  ghost predicate Within(run: Run, k: nat) {
    k <= |run.events| && |run.states| == |run.events| + 1
  }

  ghost predicate StepAt(run: Run, k: nat)
    requires Within(run, k + 1)
  {
    Enabled(run.states[k], run.events[k]) && run.states[k + 1] == Apply(run.states[k], run.events[k])
  }

  ghost predicate Valid(run: Run) {
    Within(run, 0) && run.states[0] == START && forall k: nat | k < |run.events| :: StepAt(run, k)
  }

  // ---- why a request is where it is, in terms of the first `k` events ----

  ghost predicate AskedFor(run: Run, k: nat, r: RequestId, q: Request)
    requires Within(run, k)
  {
    && q.askedAt < k
    && var e := run.events[q.askedAt];
    && e.Ask? && e.r == r && e.path == q.path && e.decision.level == q.level
    && PathDecides(run.states[q.askedAt].rules, q.path, e.decision)
  }

  ghost predicate OpenedBy(run: Run, k: nat, r: RequestId, q: Request)
    requires Within(run, k)
  {
    q.askedAt < q.openedAt < k && run.events[q.openedAt] == Open(r, q.id)
  }

  ghost predicate RepliedWith(run: Run, k: nat, q: Request, approved: bool)
    requires Within(run, k)
  {
    q.openedAt < q.repliedAt < k && run.events[q.repliedAt] == Respond(q.id, approved)
  }

  /** The rules allowed it outright, or asked for an approval that was opened and given. */
  ghost predicate Authorized(run: Run, k: nat, r: RequestId, q: Request)
    requires Within(run, k)
  {
    q.level == Allow || (q.level == AllowHil && OpenedBy(run, k, r, q) && RepliedWith(run, k, q, true))
  }

  ghost predicate FoundUnlocked(run: Run, k: nat, r: RequestId, q: Request)
    requires Within(run, k)
  {
    && q.askedAt < q.checkedAt < k && (q.level == AllowHil ==> q.repliedAt < q.checkedAt)
    && run.events[q.checkedAt] == CheckLock(r) && !run.states[q.checkedAt].locked
  }

  ghost predicate PhaseExplained(run: Run, k: nat, r: RequestId, q: Request)
    requires Within(run, k)
  {
    match q.phase
    case Opening => q.level == AllowHil
    case Waiting(reply) =>
      q.level == AllowHil && OpenedBy(run, k, r, q) && (reply.Some? ==> RepliedWith(run, k, q, reply.value))
    case Expired => q.level == AllowHil && OpenedBy(run, k, r, q)
    case Granted => Authorized(run, k, r, q)
    case Reading => Authorized(run, k, r, q) && FoundUnlocked(run, k, r, q)
    case Done(released) => released ==> Authorized(run, k, r, q) && FoundUnlocked(run, k, r, q)
  }

  ghost predicate Explained(run: Run, k: nat, r: RequestId, q: Request)
    requires Within(run, k)
  {
    AskedFor(run, k, r, q) && PhaseExplained(run, k, r, q)
  }

  /** An explanation stays one as the run goes on. */
  lemma StillExplained(run: Run, k: nat, r: RequestId, q: Request)
    requires Within(run, k + 1) && Explained(run, k, r, q)
    ensures Explained(run, k + 1, r, q)
  {
  }

  lemma {:induction false} Now(run: Run, k: nat)
    requires Valid(run) && k <= |run.events|
    ensures run.states[k].now == k
  {
    if k > 0 {
      Now(run, k - 1);
      assert StepAt(run, k - 1);
    }
  }

  /** The request a step moves, if any. */
  predicate Moves(s: State, e: Event, r: RequestId) {
    match e
    case AddRule(_) => false
    case RemoveRule(_) => false
    case SwitchVault(_) => false
    case SwitchFlag => false
    case Respond(id, _) => id in s.opener && s.opener[id] == r
    case _ => e.r == r
  }

  lemma OthersStay(s: State, e: Event, r: RequestId)
    requires Enabled(s, e) && !Moves(s, e, r)
    ensures r in Apply(s, e).requests <==> r in s.requests
    ensures r in s.requests ==> Apply(s, e).requests[r] == s.requests[r]
  {
  }

  // Each new phase is explained by the step that has just been taken.

  lemma AskExplained(run: Run, k: nat, r: RequestId, path: string, decision: Decision)
    requires Within(run, k + 1) && run.events[k] == Ask(r, path, decision)
    requires PathDecides(run.states[k].rules, path, decision)
    ensures Explained(run, k + 1, r, Request(path, decision.level, FirstPhase(decision.level), 0, k, 0, 0, 0))
  {
  }

  lemma OpenExplained(run: Run, k: nat, r: RequestId, q: Request, id: Uuid)
    requires Within(run, k + 1) && run.events[k] == Open(r, id)
    requires Explained(run, k, r, q) && q.phase == Opening
    ensures Explained(run, k + 1, r, q.(phase := Waiting(None), id := id, openedAt := k))
  {
  }

  lemma RespondExplained(run: Run, k: nat, r: RequestId, q: Request, approved: bool)
    requires Within(run, k + 1) && run.events[k] == Respond(q.id, approved)
    requires Explained(run, k, r, q) && q.phase == Waiting(None)
    ensures Explained(run, k + 1, r, q.(phase := Waiting(Some(approved)), repliedAt := k))
  {
  }

  lemma WaitEndExplained(run: Run, k: nat, r: RequestId, q: Request, next: Phase)
    requires Within(run, k + 1) && Explained(run, k, r, q)
    requires next == Done(false) || (next == Expired && q.phase == Waiting(None))
          || (next == Granted && q.phase == Waiting(Some(true)))
    ensures Explained(run, k + 1, r, q.(phase := next))
  {
  }

  /** The step at `k` moves `r`, which was explained before it. */
  ghost predicate MovesExplained(run: Run, k: nat, r: RequestId)
    requires Within(run, k + 1)
  {
    && StepAt(run, k) && run.states[k].now == k
    && Moves(run.states[k], run.events[k], r) && r in run.states[k].requests
    && Explained(run, k, r, run.states[k].requests[r])
  }

  lemma AskMoves(run: Run, k: nat)
    requires Within(run, k + 1) && StepAt(run, k) && run.states[k].now == k && run.events[k].Ask?
    ensures var r := run.events[k].r;
      r in run.states[k + 1].requests && Explained(run, k + 1, r, run.states[k + 1].requests[r])
  {
    var e := run.events[k];
    AskExplained(run, k, e.r, e.path, e.decision);
  }

  lemma OpenMoves(run: Run, k: nat, r: RequestId)
    requires Within(run, k + 1) && MovesExplained(run, k, r) && run.events[k].Open?
    ensures r in run.states[k + 1].requests && Explained(run, k + 1, r, run.states[k + 1].requests[r])
  {
    OpenExplained(run, k, r, run.states[k].requests[r], run.events[k].id);
  }

  lemma RespondMoves(run: Run, k: nat, r: RequestId)
    requires Within(run, k + 1) && MovesExplained(run, k, r)
    requires run.events[k].Respond? && run.events[k].id == run.states[k].requests[r].id
    ensures r in run.states[k + 1].requests && Explained(run, k + 1, r, run.states[k + 1].requests[r])
  {
    var q := run.states[k].requests[r];
    if q.phase == Waiting(None) {
      RespondExplained(run, k, r, q, run.events[k].approved);
    } else {
      StillExplained(run, k, r, q);
    }
  }

  lemma WaitEndMoves(run: Run, k: nat, r: RequestId)
    requires Within(run, k + 1) && MovesExplained(run, k, r)
    requires run.events[k].Receive? || run.events[k].TimeOut? || run.events[k].CleanUp?
    ensures r in run.states[k + 1].requests && Explained(run, k + 1, r, run.states[k + 1].requests[r])
  {
    WaitEndExplained(run, k, r, run.states[k].requests[r], run.states[k + 1].requests[r].phase);
  }

  lemma RetrievalMoves(run: Run, k: nat, r: RequestId)
    requires Within(run, k + 1) && MovesExplained(run, k, r)
    requires run.events[k].CheckLock? || run.events[k].ReadVault?
    ensures r in run.states[k + 1].requests && Explained(run, k + 1, r, run.states[k + 1].requests[r])
  {
  }

  lemma StepExplained(run: Run, k: nat, r: RequestId)
    requires Valid(run) && k < |run.events| && Tracked(run.states[k])
    requires r in run.states[k].requests ==> Explained(run, k, r, run.states[k].requests[r])
    requires r in run.states[k + 1].requests
    ensures Explained(run, k + 1, r, run.states[k + 1].requests[r])
  {
    var s, e := run.states[k], run.events[k];
    Now(run, k);
    assert StepAt(run, k);
    if !Moves(s, e, r) {
      OthersStay(s, e, r);
      StillExplained(run, k, r, s.requests[r]);
    } else if e.Ask? {
      AskMoves(run, k);
    } else if e.Open? {
      OpenMoves(run, k, r);
    } else if e.Respond? {
      assert ApprovalOk(s, e.id);
      RespondMoves(run, k, r);
    } else if e.CheckLock? || e.ReadVault? {
      RetrievalMoves(run, k, r);
    } else {
      WaitEndMoves(run, k, r);
    }
  }

  // ---- the approvals that are pending ----

  predicate HasApproval(q: Request) {
    q.level == AllowHil && q.phase != Opening
  }

  /** An opened approval belongs to the request that opened it, and is pending only while that
      request waits for a reply or has timed out and not cleaned up yet. */
  ghost predicate ApprovalOk(s: State, id: Uuid)
    requires id in s.opener
  {
    && s.opener[id] in s.requests
    && var q := s.requests[s.opener[id]];
    && HasApproval(q) && q.id == id
    && (id in s.pending ==> q.phase == Waiting(None) || q.phase == Expired)
  }

  ghost predicate RequestOk(s: State, r: RequestId)
    requires r in s.requests
  {
    var q := s.requests[r];
    && (HasApproval(q) ==> q.id in s.opener && s.opener[q.id] == r)
    && (q.phase == Waiting(None) ==> HasApproval(q) && q.id in s.pending)
    && (q.phase == Opening || q.phase == Expired ==> q.level == AllowHil)
  }

  ghost predicate Tracked(s: State) {
    && s.pending <= s.opener.Keys
    && (forall id {:trigger ApprovalOk(s, id)} | id in s.opener :: ApprovalOk(s, id))
    && (forall r {:trigger RequestOk(s, r)} | r in s.requests :: RequestOk(s, r))
  }

  lemma AskerTracked(s: State, e: Event, r: RequestId)
    requires Tracked(s) && Enabled(s, e) && e.Ask? && e.r == r
    ensures RequestOk(Apply(s, e), r)
  {
  }

  lemma OpenerTracked(s: State, e: Event, r: RequestId)
    requires Tracked(s) && Enabled(s, e) && e.Open? && e.r == r
    ensures RequestOk(Apply(s, e), r)
  {
    assert RequestOk(s, r);
  }

  lemma AnsweredTracked(s: State, e: Event, r: RequestId)
    requires Tracked(s) && Enabled(s, e) && e.Respond? && Moves(s, e, r)
    ensures r in s.requests && RequestOk(Apply(s, e), r)
  {
    assert ApprovalOk(s, e.id) && RequestOk(s, r);
  }

  /** The remaining steps change a request's phase and, in a cleanup, drop its approval. */
  lemma PhaseTracked(s: State, e: Event, r: RequestId)
    requires Tracked(s) && Enabled(s, e) && Moves(s, e, r) && !e.Ask? && !e.Open? && !e.Respond?
    ensures RequestOk(Apply(s, e), r)
  {
    assert RequestOk(s, r);
  }

  lemma MoverTracked(s: State, e: Event, r: RequestId)
    requires Tracked(s) && Enabled(s, e) && Moves(s, e, r)
    ensures r in Apply(s, e).requests && RequestOk(Apply(s, e), r)
  {
    if e.Ask? {
      AskerTracked(s, e, r);
    } else if e.Open? {
      OpenerTracked(s, e, r);
    } else if e.Respond? {
      AnsweredTracked(s, e, r);
    } else {
      PhaseTracked(s, e, r);
    }
  }

  /** A step takes no approval away from a request it does not move. */
  lemma PendingStays(s: State, e: Event, id: Uuid)
    requires Tracked(s) && Enabled(s, e) && id in s.opener && !Moves(s, e, s.opener[id])
    ensures id in Apply(s, e).opener && Apply(s, e).opener[id] == s.opener[id]
    ensures id in Apply(s, e).pending <==> id in s.pending
  {
    if e.CleanUp? { assert RequestOk(s, e.r); }
  }

  lemma MovedApproval(s: State, e: Event, id: Uuid)
    requires Tracked(s) && Enabled(s, e) && id in s.opener && ApprovalOk(s, id) && Moves(s, e, s.opener[id])
    ensures ApprovalOk(Apply(s, e), id)
  {
    if e.Respond? { assert ApprovalOk(s, e.id); }
  }

  lemma ApprovalTracked(s: State, e: Event, id: Uuid)
    requires Tracked(s) && Enabled(s, e) && id in Apply(s, e).opener
    ensures ApprovalOk(Apply(s, e), id)
  {
    if id in s.opener {
      assert ApprovalOk(s, id);
      if Moves(s, e, s.opener[id]) {
        MovedApproval(s, e, id);
      } else {
        PendingStays(s, e, id);
        OthersStay(s, e, s.opener[id]);
      }
    } else {
      assert e.Open? && RequestOk(s, e.r);
    }
  }

  lemma StepTracked(s: State, e: Event)
    requires Tracked(s) && Enabled(s, e)
    ensures Tracked(Apply(s, e))
  {
    var s' := Apply(s, e);
    forall id {:trigger ApprovalOk(s', id)} | id in s'.opener ensures ApprovalOk(s', id) {
      ApprovalTracked(s, e, id);
    }
    forall r {:trigger RequestOk(s', r)} | r in s'.requests ensures RequestOk(s', r) {
      if Moves(s, e, r) {
        MoverTracked(s, e, r);
      } else {
        OthersStay(s, e, r);
        assert RequestOk(s, r);
        if HasApproval(s.requests[r]) { PendingStays(s, e, s.requests[r].id); }
      }
    }
  }

  ghost predicate Invariant(run: Run, k: nat)
    requires Within(run, k)
  {
    && Tracked(run.states[k])
    && forall r | r in run.states[k].requests :: Explained(run, k, r, run.states[k].requests[r])
  }

  lemma {:induction false} InvariantHolds(run: Run, k: nat)
    requires Valid(run) && k <= |run.events|
    ensures Invariant(run, k)
  {
    if k > 0 {
      InvariantHolds(run, k - 1);
      assert StepAt(run, k - 1);
      StepTracked(run.states[k - 1], run.events[k - 1]);
      forall r | r in run.states[k].requests ensures Explained(run, k, r, run.states[k].requests[r]) {
        StepExplained(run, k - 1, r);
      }
    }
  }

  // ---- results about every run ----

  /** A credential is released only to a request that the rules in force when it asked allowed, or
      whose own approval was opened and then granted, that later found the flag unlocked, and only
      from an open vault. */
  lemma ReleaseIsJustified(run: Run, k: nat)
    requires Valid(run) && k < |run.events| && run.events[k].ReadVault?
    requires At(run.states[k + 1], run.events[k].r, Done(true))
    ensures var r := run.events[k].r;
      && r in run.states[k].requests
      && var q := run.states[k].requests[r];
      && AskedFor(run, k, r, q) && Authorized(run, k, r, q) && FoundUnlocked(run, k, r, q)
    ensures run.states[k].vaultOpen && run.events[k].found
  {
    InvariantHolds(run, k);
    assert StepAt(run, k);
  }

  /** The step at `t` refuses `r`: the rules deny it, or ask for the second factor that is not there;
      its own approval was answered with no, or timed out before and is now cleaned up; the flag is
      found locked; or the vault is found closed or without the path. */
  ghost predicate RefusedAt(run: Run, t: nat, r: RequestId)
    requires Within(run, t + 1)
  {
    var s := run.states[t];
    match run.events[t]
    case Ask(r', _, decision) => r' == r && (decision.level == Deny || decision.level == AllowHil2fa)
    case Receive(r') =>
      r' == r && r in s.requests && OpenedBy(run, t, r, s.requests[r]) && RepliedWith(run, t, s.requests[r], false)
    case CleanUp(r') => r' == r && TimedOutBefore(run, t, r)
    case CheckLock(r') => r' == r && s.locked
    case ReadVault(r', found) => r' == r && !(s.vaultOpen && found)
    case _ => false
  }

  ghost predicate TimedOutBefore(run: Run, t: nat, r: RequestId)
    requires Within(run, t)
  {
    exists i: nat | i < t :: run.events[i] == TimeOut(r)
  }

  /** The step at `t` hands the credential to `r`, which was authorized and found the flag unlocked. */
  ghost predicate ReleasedAt(run: Run, t: nat, r: RequestId)
    requires Within(run, t + 1)
  {
    && run.events[t] == ReadVault(r, true) && run.states[t].vaultOpen && r in run.states[t].requests
    && var q := run.states[t].requests[r];
    && AskedFor(run, t, r, q) && Authorized(run, t, r, q) && FoundUnlocked(run, t, r, q)
  }

  lemma {:induction false} ExpiredTimedOut(run: Run, k: nat, r: RequestId)
    requires Valid(run) && k <= |run.events| && At(run.states[k], r, Expired)
    ensures TimedOutBefore(run, k, r)
  {
    if k > 0 {
      var s, e := run.states[k - 1], run.events[k - 1];
      assert StepAt(run, k - 1);
      if e != TimeOut(r) {
        assert At(s, r, Expired);
        ExpiredTimedOut(run, k - 1, r);
      }
    }
  }

  lemma DoneIsFinal(run: Run, k: nat, n: nat, r: RequestId, released: bool)
    requires Valid(run) && k <= n <= |run.events| && At(run.states[k], r, Done(released))
    ensures At(run.states[n], r, Done(released))
    decreases n - k
  {
    if k < n {
      assert StepAt(run, k);
      DoneIsFinal(run, k + 1, n, r, released);
    }
  }

  lemma FinisherMoves(s: State, e: Event, r: RequestId)
    requires Enabled(s, e) && r in Apply(s, e).requests && Apply(s, e).requests[r].phase.Done?
    requires r in s.requests ==> !s.requests[r].phase.Done?
    ensures Moves(s, e, r) && (e.Ask? || e.Receive? || e.CleanUp? || e.CheckLock? || e.ReadVault?)
  {
    if !Moves(s, e, r) { OthersStay(s, e, r); }
  }

  /** The step that finishes a request releases it or refuses it. */
  lemma FinishingStep(run: Run, k: nat, r: RequestId, released: bool)
    requires Valid(run) && k < |run.events| && At(run.states[k + 1], r, Done(released))
    requires r in run.states[k].requests ==> !run.states[k].requests[r].phase.Done?
    ensures if released then ReleasedAt(run, k, r) else RefusedAt(run, k, r)
  {
    var s, e := run.states[k], run.events[k];
    InvariantHolds(run, k);
    assert StepAt(run, k);
    FinisherMoves(s, e, r);
    if e.CleanUp? { ExpiredTimedOut(run, k, r); }
  }

  lemma RefusedIsDone(run: Run, t: nat, r: RequestId)
    requires Valid(run) && t < |run.events| && RefusedAt(run, t, r)
    ensures At(run.states[t + 1], r, Done(false))
  {
    InvariantHolds(run, t);
    assert StepAt(run, t);
  }

  lemma ReleasedIsDone(run: Run, t: nat, r: RequestId)
    requires Valid(run) && t < |run.events| && ReleasedAt(run, t, r)
    ensures At(run.states[t + 1], r, Done(true))
  {
    assert StepAt(run, t);
  }

  lemma {:induction false} SomeStepFinished(run: Run, k: nat, r: RequestId, released: bool)
    requires Valid(run) && k <= |run.events| && At(run.states[k], r, Done(released))
    ensures if released then exists t: nat | t < k :: ReleasedAt(run, t, r)
            else exists t: nat | t < k :: RefusedAt(run, t, r)
  {
    if k > 0 {
      if r in run.states[k - 1].requests && run.states[k - 1].requests[r].phase.Done? {
        DoneIsFinal(run, k - 1, k, r, run.states[k - 1].requests[r].phase.released);
        SomeStepFinished(run, k - 1, r, released);
      } else {
        FinishingStep(run, k - 1, r, released);
      }
    }
  }

  /** A finished request holds the credential exactly if some step released it, and does not exactly if
      some step refused it. */
  lemma FinishedExactly(run: Run, k: nat, r: RequestId)
    requires Valid(run) && k <= |run.events| && r in run.states[k].requests && run.states[k].requests[r].phase.Done?
    ensures At(run.states[k], r, Done(true)) <==> exists t: nat | t < k :: ReleasedAt(run, t, r)
    ensures At(run.states[k], r, Done(false)) <==> exists t: nat | t < k :: RefusedAt(run, t, r)
  {
    SomeStepFinished(run, k, r, run.states[k].requests[r].phase.released);
    forall t: nat | t < k && ReleasedAt(run, t, r) ensures At(run.states[k], r, Done(true)) {
      ReleasedIsDone(run, t, r);
      DoneIsFinal(run, t + 1, k, r, true);
    }
    forall t: nat | t < k && RefusedAt(run, t, r) ensures At(run.states[k], r, Done(false)) {
      RefusedIsDone(run, t, r);
      DoneIsFinal(run, t + 1, k, r, false);
    }
  }

  // ---- what can still happen to a request ----

  ghost predicate LeadsTo(s: State, more: seq<Event>, r: RequestId, released: bool)
    decreases |more|
  {
    if more == [] then At(s, r, Done(released))
    else Enabled(s, more[0]) && LeadsTo(Apply(s, more[0]), more[1..], r, released)
  }

  ghost predicate CanEnd(s: State, r: RequestId, released: bool) {
    exists more :: LeadsTo(s, more, r, released)
  }

  lemma OneStep(s: State, e: Event, r: RequestId, released: bool)
    requires Enabled(s, e) && CanEnd(Apply(s, e), r, released)
    ensures CanEnd(s, r, released)
  {
    var more :| LeadsTo(Apply(s, e), more, r, released);
    assert ([e] + more)[1..] == more;
    assert LeadsTo(s, [e] + more, r, released);
  }

  lemma AlreadyEnded(s: State, r: RequestId, released: bool)
    requires At(s, r, Done(released))
    ensures CanEnd(s, r, released)
  {
    assert LeadsTo(s, [], r, released);
  }

  /** Once refused by an answer or a timeout, a request is not released any more. */
  predicate Lost(s: State, r: RequestId) {
    At(s, r, Waiting(Some(false))) || At(s, r, Expired) || At(s, r, Done(false))
  }

  lemma LostStays(s: State, e: Event, r: RequestId)
    requires Lost(s, r) && Enabled(s, e)
    ensures Lost(Apply(s, e), r)
  {
    if !Moves(s, e, r) { OthersStay(s, e, r); }
  }

  lemma {:induction false} LostForGood(s: State, more: seq<Event>, r: RequestId)
    requires Lost(s, r)
    ensures !LeadsTo(s, more, r, true)
    decreases |more|
  {
    if more != [] && Enabled(s, more[0]) {
      LostStays(s, more[0], r);
      LostForGood(Apply(s, more[0]), more[1..], r);
    }
  }

  /** The state after the vault has been opened and the flag has followed. */
  ghost function Unlocked(s: State): (s': State)
    ensures s'.requests == s.requests && !s'.locked && s'.vaultOpen && !s'.switching
  {
    var still := if s.switching then Apply(s, SwitchFlag) else s;
    Apply(Apply(still, SwitchVault(true)), SwitchFlag)
  }

  lemma CanUnlock(s: State, r: RequestId, released: bool)
    requires CanEnd(Unlocked(s), r, released)
    ensures CanEnd(s, r, released)
  {
    var still := if s.switching then Apply(s, SwitchFlag) else s;
    OneStep(Apply(still, SwitchVault(true)), SwitchFlag, r, released);
    OneStep(still, SwitchVault(true), r, released);
    if s.switching { OneStep(s, SwitchFlag, r, released); }
  }

  lemma ReadingCanEnd(s: State, r: RequestId, released: bool)
    requires At(s, r, Reading)
    ensures CanEnd(s, r, released)
  {
    var s' := Unlocked(s);
    AlreadyEnded(Apply(s', ReadVault(r, released)), r, released);
    OneStep(s', ReadVault(r, released), r, released);
    CanUnlock(s, r, released);
  }

  lemma GrantedCanEnd(s: State, r: RequestId, released: bool)
    requires At(s, r, Granted)
    ensures CanEnd(s, r, released)
  {
    var s' := Unlocked(s);
    ReadingCanEnd(Apply(s', CheckLock(r)), r, released);
    OneStep(s', CheckLock(r), r, released);
    CanUnlock(s, r, released);
  }

  lemma AnsweredCanEnd(s: State, r: RequestId, approved: bool)
    requires At(s, r, Waiting(Some(approved)))
    ensures CanEnd(s, r, approved)
  {
    var s' := Apply(s, Receive(r));
    if approved { GrantedCanEnd(s', r, true); } else { AlreadyEnded(s', r, false); }
    OneStep(s, Receive(r), r, approved);
  }

  lemma WaitingCanEnd(s: State, r: RequestId, released: bool)
    requires Tracked(s) && At(s, r, Waiting(None))
    ensures CanEnd(s, r, released)
  {
    var answer := Respond(s.requests[r].id, released);
    assert RequestOk(s, r);
    AnsweredCanEnd(Apply(s, answer), r, released);
    OneStep(s, answer, r, released);
  }

  lemma {:induction false} FreshId(used: set<Uuid>) returns (id: Uuid)
    ensures forall other | other in used :: other < id
  {
    if used == {} {
      id := 0;
    } else {
      var other :| other in used;
      var above := FreshId(used - {other});
      id := if above > other then above else other + 1;
      assert forall o | o in used :: o == other || o in used - {other};
    }
  }

  lemma OpeningCanEnd(s: State, r: RequestId, released: bool)
    requires Tracked(s) && At(s, r, Opening)
    ensures CanEnd(s, r, released)
  {
    var id := FreshId(s.opener.Keys);
    var opening := Open(r, id);
    StepTracked(s, opening);
    WaitingCanEnd(Apply(s, opening), r, released);
    OneStep(s, opening, r, released);
  }

  lemma ExpiredCanEnd(s: State, r: RequestId)
    requires At(s, r, Expired)
    ensures CanEnd(s, r, false)
  {
    AlreadyEnded(Apply(s, CleanUp(r)), r, false);
    OneStep(s, CleanUp(r), r, false);
  }

  /** No request is ever stuck: whatever has happened, it can still be finished, and it can still be
      released exactly unless its approval was denied or timed out or it has been refused already. */
  lemma CanAlwaysEnd(run: Run, k: nat, r: RequestId)
    requires Valid(run) && k <= |run.events| && r in run.states[k].requests
    ensures CanEnd(run.states[k], r, true) || CanEnd(run.states[k], r, false)
    ensures CanEnd(run.states[k], r, true) <==> !Lost(run.states[k], r)
  {
    InvariantHolds(run, k);
    var s := run.states[k];
    if Lost(s, r) {
      forall more ensures !LeadsTo(s, more, r, true) {
        LostForGood(s, more, r);
      }
    }
    match s.requests[r].phase
    case Opening => OpeningCanEnd(s, r, true);
    case Waiting(None) => WaitingCanEnd(s, r, true);
    case Waiting(Some(approved)) => AnsweredCanEnd(s, r, approved);
    case Expired => ExpiredCanEnd(s, r);
    case Granted => GrantedCanEnd(s, r, true);
    case Reading => ReadingCanEnd(s, r, true);
    case Done(released) => AlreadyEnded(s, r, released);
  }

  /** While a request waits without a reply its approval is pending, so its channel stays open. */
  lemma WaitingIsPending(run: Run, k: nat, r: RequestId)
    requires Valid(run) && k <= |run.events| && At(run.states[k], r, Waiting(None))
    ensures run.states[k].requests[r].id in run.states[k].pending
  {
    InvariantHolds(run, k);
    assert RequestOk(run.states[k], r);
  }

  /** Whenever every request is done, no approval is left pending. */
  lemma QuiescentIsEmpty(run: Run, k: nat)
    requires Valid(run) && k <= |run.events|
    requires forall r | r in run.states[k].requests :: run.states[k].requests[r].phase.Done?
    ensures run.states[k].pending == {}
  {
    InvariantHolds(run, k);
    var s := run.states[k];
    assert forall id | id in s.pending :: ApprovalOk(s, id);
  }

  /** Does the step take `id` out of the table? */
  predicate Removes(s: State, e: Event, id: Uuid) {
    id in s.pending && (
      || (e.Respond? && e.id == id)
      || (e.CleanUp? && e.r in s.requests && s.requests[e.r].id == id))
  }

  ghost function Removals(run: Run, k: nat, id: Uuid): nat
    requires Within(run, k)
  {
    if k == 0 then 0
    else Removals(run, k - 1, id) + if Removes(run.states[k - 1], run.events[k - 1], id) then 1 else 0
  }

  lemma RemovalStep(s: State, e: Event, id: Uuid)
    requires Tracked(s) && Enabled(s, e)
    ensures var s' := Apply(s, e);
      (if id in s'.opener && id !in s'.pending then 1 else 0)
      == (if id in s.opener && id !in s.pending then 1 else 0) + (if Removes(s, e, id) then 1 else 0)
  {
  }

  /** Each approval is taken out exactly once: not before it is opened, and never again. */
  lemma {:induction false} RemovedOnce(run: Run, k: nat, id: Uuid)
    requires Valid(run) && k <= |run.events|
    ensures Removals(run, k, id) == if id in run.states[k].opener && id !in run.states[k].pending then 1 else 0
  {
    if k > 0 {
      RemovedOnce(run, k - 1, id);
      InvariantHolds(run, k - 1);
      assert StepAt(run, k - 1);
      RemovalStep(run.states[k - 1], run.events[k - 1], id);
    }
  }

  /** Between switches the flag says what the vault is. */
  lemma {:induction false} FlagFollowsVault(run: Run, k: nat)
    requires Valid(run) && k <= |run.events|
    ensures !run.states[k].switching ==> run.states[k].locked == !run.states[k].vaultOpen
  {
    if k > 0 {
      FlagFollowsVault(run, k - 1);
      assert StepAt(run, k - 1);
    }
  }
}
