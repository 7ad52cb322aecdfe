/** The credential manager's shared fields, changed by the atomic sections of its methods. Each
    section performs one step of `ApprovalProtocol` on the run the manager takes part in. */
module CredentialManager {
  import opened Wrappers
  import opened RuleChoice
  import opened ApprovalProtocol

  /** What a request finds in its one-shot channel is the reply it is recorded to have. */
  predicate ChannelOk(s: State, r: RequestId, sent: Option<bool>) {
    && r in s.requests
    && (sent.Some? ==> HasApproval(s.requests[r]))
    && (s.requests[r].phase.Waiting? ==> s.requests[r].phase.reply == sent)
  }

  function Sent(channels: map<RequestId, bool>, r: RequestId): Option<bool> {
    if r in channels then Some(channels[r]) else None
  }

  ghost predicate ChannelsOk(s: State, channels: map<RequestId, bool>) {
    && channels.Keys <= s.requests.Keys
    && forall r | r in s.requests :: ChannelOk(s, r, Sent(channels, r))
  }

  /** Each held sender leads to the request that opened the approval. */
  ghost predicate SendersOk(s: State, senders: map<Uuid, RequestId>) {
    senders.Keys == s.pending && forall id | id in senders :: id in s.opener && s.opener[id] == senders[id]
  }

  // ---- one step at a time ----

  lemma ChannelKept(s: State, e: Event, r: RequestId, sent: Option<bool>)
    requires Tracked(s) && Enabled(s, e) && !e.Respond? && ChannelOk(s, r, sent)
    ensures ChannelOk(Apply(s, e), r, sent)
  {
    if Moves(s, e, r) {
      assert RequestOk(s, r);
    } else {
      OthersStay(s, e, r);
    }
  }

  lemma ChannelsKept(s: State, e: Event, channels: map<RequestId, bool>)
    requires Tracked(s) && Enabled(s, e) && !e.Respond? && ChannelsOk(s, channels)
    ensures ChannelsOk(Apply(s, e), channels)
  {
    var s' := Apply(s, e);
    forall r | r in s'.requests ensures ChannelOk(s', r, Sent(channels, r)) {
      if r in s.requests {
        ChannelKept(s, e, r, Sent(channels, r));
      }
    }
  }

  lemma SendersKept(s: State, e: Event, senders: map<Uuid, RequestId>)
    requires Enabled(s, e) && !e.Open? && !e.Respond? && !e.CleanUp? && SendersOk(s, senders)
    ensures SendersOk(Apply(s, e), senders)
  {
  }

  lemma SenderTaken(s: State, senders: map<Uuid, RequestId>, id: Uuid, approved: bool)
    requires SendersOk(s, senders)
    ensures SendersOk(Apply(s, Respond(id, approved)), senders - {id})
  {
  }

  /** Taking the held sender of an approval and sending through it is what a response does. */
  lemma ReplySent(s: State, senders: map<Uuid, RequestId>, channels: map<RequestId, bool>, id: Uuid, approved: bool)
    requires Tracked(s) && id in senders && SendersOk(s, senders) && ChannelsOk(s, channels)
    ensures var s' := Apply(s, Respond(id, approved));
      SendersOk(s', senders - {id}) && ChannelsOk(s', channels[senders[id] := approved])
  {
    var e, to := Respond(id, approved), senders[id];
    var s', sent := Apply(s, e), channels[to := approved];
    assert ApprovalOk(s, id) && to in s.requests;
    assert s'.requests.Keys == s.requests.Keys;
    SenderTaken(s, senders, id, approved);
    forall r | r in s'.requests ensures ChannelOk(s', r, Sent(sent, r)) {
      if r == to {
        ReplyArrives(s, id, approved);
      } else {
        OthersStay(s, e, r);
        assert ChannelOk(s, r, Sent(channels, r));
      }
    }
  }

  lemma ReplyArrives(s: State, id: Uuid, approved: bool)
    requires Tracked(s) && id in s.pending && id in s.opener
    ensures ChannelOk(Apply(s, Respond(id, approved)), s.opener[id], Some(approved))
  {
    assert ApprovalOk(s, id);
  }

  // ---- the manager ----

  class Manager {
    var permissions: seq<PathPermission>
    var locked: bool
    var vaultOpen: bool
    /** The held reply senders, each naming the request at the other end. */
    var pendingApprovals: map<Uuid, RequestId>
    /** What has been sent into the one-shot channels. */
    var channels: map<RequestId, bool>
    /** How far the concurrent requests have come. */
    ghost var view: State

    ghost predicate Valid()
      reads this
    {
      && Tracked(view)
      && view.rules == permissions && view.locked == locked && view.vaultOpen == vaultOpen
      && SendersOk(view, pendingApprovals) && ChannelsOk(view, channels)
    }

    constructor ()
      ensures Valid() && view == START
    {
      permissions, locked, vaultOpen := [], true, false;
      pendingApprovals, channels, view := map[], map[], START;
    }

    /** Records a step; the fields it is about have to follow. */
    ghost method Advance(e: Event)
      requires Tracked(view) && Enabled(view, e)
      modifies this`view
      ensures Tracked(view) && view == Apply(old(view), e)
      ensures !e.Respond? && ChannelsOk(old(view), channels) ==> ChannelsOk(view, channels)
      ensures !e.Open? && !e.Respond? && !e.CleanUp? && SendersOk(old(view), pendingApprovals)
          ==> SendersOk(view, pendingApprovals)
    {
      StepTracked(view, e);
      if !e.Respond? && ChannelsOk(view, channels) { ChannelsKept(view, e, channels); }
      if !e.Open? && !e.Respond? && !e.CleanUp? && SendersOk(view, pendingApprovals) {
        SendersKept(view, e, pendingApprovals);
      }
      view := Apply(view, e);
    }

    method RemovePermission(id: Uuid) returns (removed: bool)
      requires Valid()
      modifies this
      ensures removed <==> exists k | 0 <= k < |old(permissions)| :: old(permissions)[k].id == id
      ensures Valid() && view == Apply(old(view), RemoveRule(id))
    {
      var pos := 0;
      while pos < |permissions| && permissions[pos].id != id
        invariant 0 <= pos <= |permissions|
        invariant forall k | 0 <= k < pos :: permissions[k].id != id
      {
        pos := pos + 1;
      }
      removed := pos < |permissions|;
      WithoutFirstAt(permissions, id, PathIdOf, pos);
      Advance(RemoveRule(id));
      if removed {
        permissions := permissions[..pos] + permissions[pos + 1..];
      }
    }

    /** The permission check that opens a request. */
    method BeginRequest(r: RequestId, path: string) returns (decision: Decision)
      requires Valid() && r !in view.requests
      modifies this`view
      ensures Enabled(old(view), Ask(r, path, decision))
      ensures Valid() && view == Apply(old(view), Ask(r, path, decision))
    {
      decision := EvaluatePath(permissions, path);
      Advance(Ask(r, path, decision));
    }

    method OpenApproval(r: RequestId, id: Uuid)
      requires Valid() && Enabled(view, Open(r, id))
      modifies this
      ensures Valid() && view == Apply(old(view), Open(r, id))
    {
      Advance(Open(r, id));
      pendingApprovals := pendingApprovals[id := r];
      assert pendingApprovals.Keys == old(pendingApprovals).Keys + {id};
    }

    /** The reply goes to the request whose sender is held; a second one is refused. */
    method RespondToApproval(id: Uuid, approved: bool) returns (ok: bool)
      requires Valid()
      modifies this
      ensures ok <==> Enabled(old(view), Respond(id, approved))
      ensures Valid() && view == if ok then Apply(old(view), Respond(id, approved)) else old(view)
    {
      ok := id in pendingApprovals;
      if ok {
        ReplySent(view, pendingApprovals, channels, id, approved);
        Advance(Respond(id, approved));
        channels := channels[pendingApprovals[id] := approved];
        pendingApprovals := pendingApprovals - {id};
      }
    }

    /** The wait ends with the reply if one was sent; only otherwise can it time out. */
    method EndWait(r: RequestId) returns (reply: Option<bool>)
      requires Valid() && r in view.requests && view.requests[r].phase.Waiting?
      modifies this`view
      ensures old(view).requests[r].phase == Waiting(reply)
      ensures Valid() && view == Apply(old(view), if reply.None? then TimeOut(r) else Receive(r))
    {
      reply := Sent(channels, r);
      assert ChannelOk(view, r, reply);
      Advance(if reply.None? then TimeOut(r) else Receive(r));
    }

    method CleanupExpiredApproval(ghost r: RequestId, id: Uuid)
      requires Valid() && Enabled(view, CleanUp(r)) && view.requests[r].id == id
      modifies this
      ensures Valid() && view == Apply(old(view), CleanUp(r))
    {
      Advance(CleanUp(r));
      pendingApprovals := pendingApprovals - {id};
    }

    /** The sections that assign or read one field: adding a rule, the two halves of locking and
        unlocking, and the two of a retrieval, which say whether they let the request pass. */
    method Section(e: Event) returns (passes: bool)
      requires Valid() && (e.AddRule? || Enabled(view, e))
      requires e.AddRule? || e.SwitchVault? || e.SwitchFlag? || e.CheckLock? || e.ReadVault?
      modifies this
      ensures Valid() && view == Apply(old(view), e)
      ensures passes <==> match e
                          case CheckLock(_) => !old(view).locked
                          case ReadVault(_, found) => old(view).vaultOpen && found
                          case _ => true
    {
      passes := true;
      Advance(e);
      match e
      case AddRule(rule) => permissions := permissions + [rule];
      case SwitchVault(open) => vaultOpen := open;
      case SwitchFlag => locked := !vaultOpen;
      case CheckLock(_) => passes := !locked;
      case ReadVault(_, found) => passes := vaultOpen && found;
    }
  }
}
