/** Dispatch of tool calls to remote executors, as atomic steps of concurrent dispatches.

    A dispatch registers a one-shot channel under a fresh request id and waits for a reply or a
    timeout. Clients may send responses and output chunks for any id, any number of times. After a
    reply a cleanup task forgets the id in three further steps. */
module RemoteDispatch {
  import opened Wrappers

  type DispatchId = nat
  type RequestId = nat
  type ConnectionId = nat

  datatype Response = Response(requestId: RequestId, output: string)

  datatype Chunk = Chunk(requestId: RequestId, output: string)

  datatype Phase = Waiting(reply: Option<Response>) | TimedOut | Returned(result: Option<Response>)

  /** One call of dispatch, which may ask for output while it waits; `begunAt` and `repliedAt` say
      which steps brought it here. */
  datatype Dispatch = Dispatch(connection: ConnectionId, id: RequestId, streams: bool, phase: Phase,
                               begunAt: nat, repliedAt: nat, chunks: seq<Chunk>)

  datatype Cleanup = Scheduled | Sleeping | Closing

  /** `pending` maps an id to whether its response channel is still unused; `owner` remembers which
      dispatch an id was made for. */
  datatype State = State(sessions: set<ConnectionId>, dispatches: map<DispatchId, Dispatch>,
                         owner: map<RequestId, DispatchId>, pending: map<RequestId, bool>,
                         recent: set<RequestId>, cleanups: map<RequestId, Cleanup>, now: nat)

  const START := State({}, map[], map[], map[], {}, map[], 0)

  datatype Event =
    | Register(connection: ConnectionId)
    | Unregister(connection: ConnectionId)
    | Begin(d: DispatchId, connection: ConnectionId, id: RequestId, streams: bool)
    | Deliver(response: Response)
    | Output(chunk: Chunk)
    | Receive(d: DispatchId)
    | TimeOut(d: DispatchId)
    | Withdraw(d: DispatchId)
    | NoteRecent(id: RequestId)
    | ForgetPending(id: RequestId)
    | ForgetRecent(id: RequestId)

  predicate In(s: State, d: DispatchId, phase: Phase) {
    d in s.dispatches && s.dispatches[d].phase == phase
  }

  predicate Cleaning(s: State, id: RequestId, stage: Cleanup) {
    id in s.cleanups && s.cleanups[id] == stage
  }

  /** A dispatch holds the session table for reading until it returns. */
  predicate HoldsSessions(s: State) {
    exists d | d in s.dispatches :: !s.dispatches[d].phase.Returned?
  }

  predicate Enabled(s: State, e: Event) {
    match e
    case Register(_) => !HoldsSessions(s)
    case Unregister(_) => !HoldsSessions(s)
    case Begin(d, c, id, _) => d !in s.dispatches && c in s.sessions && id !in s.owner
    case Deliver(_) => true
    case Output(_) => true
    case Receive(d) => d in s.dispatches && s.dispatches[d].phase.Waiting? && s.dispatches[d].phase.reply.Some?
    case TimeOut(d) => In(s, d, Waiting(None))
    case Withdraw(d) => In(s, d, TimedOut)
    case NoteRecent(id) => Cleaning(s, id, Scheduled)
    case ForgetPending(id) => Cleaning(s, id, Sleeping)
    case ForgetRecent(id) => Cleaning(s, id, Closing)
  }

  function Moved(s: State, d: DispatchId, q: Dispatch): State {
    s.(dispatches := s.dispatches[d := q])
  }

  function Delivered(s: State, response: Response): State {
    var id := response.requestId;
    if id in s.pending && s.pending[id] then
      var used := s.(pending := s.pending[id := false]);
      if id in s.owner && In(s, s.owner[id], Waiting(None))
      then Moved(used, s.owner[id], s.dispatches[s.owner[id]].(phase := Waiting(Some(response)), repliedAt := s.now))
      else used
    else s
  }

  function Forwarded(s: State, chunk: Chunk): State {
    if chunk.requestId in s.pending && chunk.requestId in s.owner && s.owner[chunk.requestId] in s.dispatches
       && s.dispatches[s.owner[chunk.requestId]].streams
    then
      var d := s.owner[chunk.requestId];
      Moved(s, d, s.dispatches[d].(chunks := s.dispatches[d].chunks + [chunk]))
    else s
  }

  function Effect(s: State, e: Event): State
    requires Enabled(s, e)
  {
    match e
    case Register(c) => s.(sessions := s.sessions + {c})
    case Unregister(c) => s.(sessions := s.sessions - {c})
    case Begin(d, c, id, streams) =>
      Moved(s, d, Dispatch(c, id, streams, Waiting(None), s.now, 0, []))
        .(owner := s.owner[id := d], pending := s.pending[id := true])
    case Deliver(response) => Delivered(s, response)
    case Output(chunk) => Forwarded(s, chunk)
    case Receive(d) =>
      Moved(s, d, s.dispatches[d].(phase := Returned(s.dispatches[d].phase.reply)))
        .(cleanups := s.cleanups[s.dispatches[d].id := Scheduled])
    case TimeOut(d) => Moved(s, d, s.dispatches[d].(phase := TimedOut))
    case Withdraw(d) =>
      Moved(s, d, s.dispatches[d].(phase := Returned(None))).(pending := s.pending - {s.dispatches[d].id})
    case NoteRecent(id) => s.(recent := s.recent + {id}, cleanups := s.cleanups[id := Sleeping])
    case ForgetPending(id) => s.(pending := s.pending - {id}, cleanups := s.cleanups[id := Closing])
    case ForgetRecent(id) => s.(recent := s.recent - {id}, cleanups := s.cleanups - {id})
  }

  function Apply(s: State, e: Event): State
    requires Enabled(s, e)
  {
    Effect(s, e).(now := s.now + 1)
  }

  // ---- runs ----

  ghost predicate Valid(events: seq<Event>)
    decreases |events|, 0
  {
    events == [] || (Valid(events[..|events| - 1]) && Enabled(After(events[..|events| - 1]), events[|events| - 1]))
  }

  ghost function After(events: seq<Event>): State
    requires Valid(events)
    decreases |events|, 1
  {
    if events == [] then START else Apply(After(events[..|events| - 1]), events[|events| - 1])
  }

  lemma {:induction false} ValidPrefix(events: seq<Event>, n: nat)
    requires Valid(events) && n <= |events|
    ensures Valid(events[..n])
    decreases |events|
  {
    if n == |events| {
      assert events[..n] == events;
    } else {
      ValidPrefix(events[..|events| - 1], n);
      assert events[..|events| - 1][..n] == events[..n];
    }
  }

  lemma {:induction false} Now(events: seq<Event>)
    requires Valid(events)
    ensures After(events).now == |events|
  {
    if events != [] { Now(events[..|events| - 1]); }
  }

  // ---- the tables ----

  /** What the registered state of one id says about its dispatch. */
  ghost predicate IdOk(s: State, id: RequestId)
    requires id in s.owner
  {
    && s.owner[id] in s.dispatches && s.dispatches[s.owner[id]].id == id
    && var phase := s.dispatches[s.owner[id]].phase;
    && (id in s.cleanups ==> phase.Returned?)
    && (id in s.pending ==> !phase.Returned? || Cleaning(s, id, Scheduled) || Cleaning(s, id, Sleeping))
    && (id in s.recent ==> Cleaning(s, id, Sleeping) || Cleaning(s, id, Closing))
    && (phase.Waiting? ==> id in s.pending && (s.pending[id] <==> phase.reply.None?))
  }

  ghost predicate DispatchOk(s: State, d: DispatchId)
    requires d in s.dispatches
  {
    var q := s.dispatches[d];
    && q.id in s.owner && s.owner[q.id] == d
    && (!q.phase.Returned? ==> q.connection in s.sessions)
    && (q.chunks != [] ==> q.streams)
    && forall i | 0 <= i < |q.chunks| :: q.chunks[i].requestId == q.id
  }

  ghost predicate Tracked(s: State) {
    && s.pending.Keys <= s.owner.Keys && s.recent <= s.owner.Keys && s.cleanups.Keys <= s.owner.Keys
    && (forall id {:trigger IdOk(s, id)} | id in s.owner :: IdOk(s, id))
    && (forall d {:trigger DispatchOk(s, d)} | d in s.dispatches :: DispatchOk(s, d))
  }

  /** The id a step is about, if it is about one. */
  function Touched(s: State, e: Event): Option<RequestId> {
    match e
    case Register(_) => None
    case Unregister(_) => None
    case Begin(_, _, id, _) => Some(id)
    case Deliver(response) => Some(response.requestId)
    case Output(chunk) => Some(chunk.requestId)
    case NoteRecent(id) => Some(id)
    case ForgetPending(id) => Some(id)
    case ForgetRecent(id) => Some(id)
    case _ => if e.d in s.dispatches then Some(s.dispatches[e.d].id) else None
  }

  lemma OtherDispatchStays(s: State, e: Event, id: RequestId)
    requires Tracked(s) && Enabled(s, e) && id in s.owner && Touched(s, e) != Some(id)
    ensures var s' := Apply(s, e);
      && id in s'.owner && s'.owner[id] == s.owner[id]
      && s.owner[id] in s.dispatches && s.owner[id] in s'.dispatches
      && s'.dispatches[s.owner[id]] == s.dispatches[s.owner[id]]
  {
    assert IdOk(s, id);
    if Touched(s, e).Some? && Touched(s, e).value in s.owner { assert IdOk(s, Touched(s, e).value); }
  }

  lemma OtherEntriesStay(s: State, e: Event, id: RequestId)
    requires Enabled(s, e) && Touched(s, e) != Some(id)
    ensures var s' := Apply(s, e);
      && (id in s'.pending <==> id in s.pending) && (id in s.pending ==> s'.pending[id] == s.pending[id])
      && (id in s'.recent <==> id in s.recent)
      && (id in s'.cleanups <==> id in s.cleanups) && (id in s.cleanups ==> s'.cleanups[id] == s.cleanups[id])
  {
  }

  lemma TouchedIdOk(s: State, e: Event, id: RequestId)
    requires Tracked(s) && Enabled(s, e) && Touched(s, e) == Some(id) && id in Apply(s, e).owner
    ensures IdOk(Apply(s, e), id)
  {
    if id in s.owner { assert IdOk(s, id); }
    if e.Receive? || e.TimeOut? || e.Withdraw? { assert DispatchOk(s, e.d); }
  }

  lemma StepIdOk(s: State, e: Event, id: RequestId)
    requires Tracked(s) && Enabled(s, e) && id in Apply(s, e).owner
    ensures IdOk(Apply(s, e), id)
  {
    if Touched(s, e) == Some(id) {
      TouchedIdOk(s, e, id);
    } else {
      assert IdOk(s, id);
      OtherDispatchStays(s, e, id);
      OtherEntriesStay(s, e, id);
    }
  }

  lemma StepDispatchOk(s: State, e: Event, d: DispatchId)
    requires Tracked(s) && Enabled(s, e) && d in Apply(s, e).dispatches
    ensures DispatchOk(Apply(s, e), d)
  {
    if d in s.dispatches { assert DispatchOk(s, d); }
    if e.Output? && e.chunk.requestId in s.owner { assert IdOk(s, e.chunk.requestId); }
    if e.Deliver? && e.response.requestId in s.owner { assert IdOk(s, e.response.requestId); }
  }

  lemma StepTracked(s: State, e: Event)
    requires Tracked(s) && Enabled(s, e)
    ensures Tracked(Apply(s, e))
  {
    var s' := Apply(s, e);
    forall id {:trigger IdOk(s', id)} | id in s'.owner ensures IdOk(s', id) {
      StepIdOk(s, e, id);
    }
    forall d {:trigger DispatchOk(s', d)} | d in s'.dispatches ensures DispatchOk(s', d) {
      StepDispatchOk(s, e, d);
    }
    if e.Receive? { assert DispatchOk(s, e.d); }
  }

  lemma {:induction false} AlwaysTracked(events: seq<Event>)
    requires Valid(events)
    ensures Tracked(After(events))
  {
    if events != [] {
      AlwaysTracked(events[..|events| - 1]);
      StepTracked(After(events[..|events| - 1]), events[|events| - 1]);
    }
  }

  // ---- which response is returned ----

  ghost predicate NoneDelivered(events: seq<Event>, id: RequestId, from: nat, to: nat)
    requires to <= |events|
  {
    forall i | from <= i < to :: events[i].Deliver? ==> events[i].response.requestId != id
  }

  /** The reply is the first response for this very id that arrived after the dispatch began. */
  ghost predicate FirstReply(events: seq<Event>, q: Dispatch, reply: Option<Response>) {
    if reply.None? then NoneDelivered(events, q.id, q.begunAt, |events|)
    else
      && q.begunAt < q.repliedAt < |events| && events[q.repliedAt] == Deliver(reply.value)
      && reply.value.requestId == q.id && NoneDelivered(events, q.id, q.begunAt, q.repliedAt)
  }

  ghost predicate Explained(events: seq<Event>, d: DispatchId, q: Dispatch) {
    && q.begunAt < |events| && events[q.begunAt] == Begin(d, q.connection, q.id, q.streams)
    && match q.phase
       case Waiting(reply) => FirstReply(events, q, reply)
       case TimedOut => true
       case Returned(result) => result.Some? ==> FirstReply(events, q, result)
  }

  lemma StillExplained(events: seq<Event>, e: Event, d: DispatchId, q: Dispatch)
    requires Explained(events, d, q)
    requires q.phase == Waiting(None) && e.Deliver? ==> e.response.requestId != q.id
    ensures Explained(events + [e], d, q)
  {
    var longer := events + [e];
    assert forall i | 0 <= i < |events| :: longer[i] == events[i];
  }

  lemma MovedExplained(events: seq<Event>, e: Event, d: DispatchId, s: State)
    requires Tracked(s) && Enabled(s, e) && s.now == |events| && d in Apply(s, e).dispatches
    requires d in s.dispatches ==> Explained(events, d, s.dispatches[d])
    requires d in s.dispatches ==> Apply(s, e).dispatches[d] != s.dispatches[d]
    ensures Explained(events + [e], d, Apply(s, e).dispatches[d])
  {
    var longer := events + [e];
    assert longer[|events|] == e && forall i | 0 <= i < |events| :: longer[i] == events[i];
    if e.Deliver? && e.response.requestId in s.owner { assert IdOk(s, e.response.requestId); }
  }

  lemma UnmovedWaits(s: State, e: Event, d: DispatchId)
    requires Tracked(s) && Enabled(s, e) && In(s, d, Waiting(None))
    requires e.Deliver? && e.response.requestId == s.dispatches[d].id
    ensures Apply(s, e).dispatches[d] != s.dispatches[d]
  {
    assert DispatchOk(s, d) && IdOk(s, s.dispatches[d].id);
  }

  lemma {:induction false} AlwaysExplained(events: seq<Event>, d: DispatchId)
    requires Valid(events) && d in After(events).dispatches
    ensures Explained(events, d, After(events).dispatches[d])
  {
    if events != [] {
      var front, e := events[..|events| - 1], events[|events| - 1];
      var s := After(front);
      assert events == front + [e];
      Now(front);
      AlwaysTracked(front);
      if d in s.dispatches { AlwaysExplained(front, d); }
      if d in s.dispatches && Apply(s, e).dispatches[d] == s.dispatches[d] {
        if In(s, d, Waiting(None)) && e.Deliver? && e.response.requestId == s.dispatches[d].id {
          UnmovedWaits(s, e, d);
        }
        StillExplained(front, e, d, s.dispatches[d]);
      } else {
        MovedExplained(front, e, d, s);
      }
    }
  }

  // ---- results about every run ----

  /** A dispatch that returns a response returns the first one sent for its own request id. */
  lemma ReturnsFirstOwnResponse(events: seq<Event>, d: DispatchId)
    requires Valid(events) && d in After(events).dispatches
    requires var phase := After(events).dispatches[d].phase; phase.Returned? && phase.result.Some?
    ensures var q := After(events).dispatches[d];
      && q.begunAt < |events| && events[q.begunAt] == Begin(d, q.connection, q.id, q.streams)
      && q.phase.result.value.requestId == q.id
      && FirstReply(events, q, q.phase.result)
  {
    AlwaysExplained(events, d);
  }

  /** The dispatch gave up at some step, before which nothing had been sent for its id. */
  ghost predicate GaveUp(events: seq<Event>, d: DispatchId, q: Dispatch) {
    exists t: nat | q.begunAt < t < |events| ::
      events[t] == TimeOut(d) && NoneDelivered(events, q.id, q.begunAt, t)
  }

  predicate WithoutReply(phase: Phase) {
    phase == TimedOut || phase == Returned(None)
  }

  lemma StillGaveUp(events: seq<Event>, e: Event, d: DispatchId, q: Dispatch)
    requires GaveUp(events, d, q)
    ensures GaveUp(events + [e], d, q)
  {
    var longer := events + [e];
    var t: nat :| q.begunAt < t < |events| && events[t] == TimeOut(d) && NoneDelivered(events, q.id, q.begunAt, t);
    assert forall i | 0 <= i < |events| :: longer[i] == events[i];
    assert longer[t] == TimeOut(d) && NoneDelivered(longer, q.id, q.begunAt, t);
  }

  lemma GivesUpNow(events: seq<Event>, d: DispatchId, q: Dispatch)
    requires Explained(events, d, q) && q.phase == Waiting(None)
    ensures GaveUp(events + [TimeOut(d)], d, q)
  {
    var longer := events + [TimeOut(d)];
    assert forall i | 0 <= i < |events| :: longer[i] == events[i];
    assert longer[|events|] == TimeOut(d) && NoneDelivered(longer, q.id, q.begunAt, |events|);
  }

  lemma GivingUpStep(s: State, e: Event, d: DispatchId)
    requires Tracked(s) && Enabled(s, e) && d in Apply(s, e).dispatches
    requires WithoutReply(Apply(s, e).dispatches[d].phase)
    ensures d in s.dispatches
    ensures var q, q' := s.dispatches[d], Apply(s, e).dispatches[d]; q'.begunAt == q.begunAt && q'.id == q.id
    ensures WithoutReply(s.dispatches[d].phase) || (s.dispatches[d].phase == Waiting(None) && e == TimeOut(d))
  {
  }

  lemma {:induction false} NoReplyGaveUp(events: seq<Event>, d: DispatchId)
    requires Valid(events) && d in After(events).dispatches && WithoutReply(After(events).dispatches[d].phase)
    ensures GaveUp(events, d, After(events).dispatches[d])
  {
    var front, e := events[..|events| - 1], events[|events| - 1];
    assert events == front + [e];
    AlwaysTracked(front);
    GivingUpStep(After(front), e, d);
    if WithoutReply(After(front).dispatches[d].phase) {
      NoReplyGaveUp(front, d);
      StillGaveUp(front, e, d, After(front).dispatches[d]);
    } else {
      AlwaysExplained(front, d);
      GivesUpNow(front, d, After(front).dispatches[d]);
    }
  }

  lemma EmptyStays(s: State, e: Event, d: DispatchId)
    requires Enabled(s, e) && d in s.dispatches && WithoutReply(s.dispatches[d].phase)
    ensures d in Apply(s, e).dispatches && WithoutReply(Apply(s, e).dispatches[d].phase)
  {
  }

  lemma {:induction false} TimedOutStays(events: seq<Event>, t: nat, d: DispatchId)
    requires Valid(events) && t < |events| && events[t] == TimeOut(d)
    ensures d in After(events).dispatches && WithoutReply(After(events).dispatches[d].phase)
  {
    var front, e := events[..|events| - 1], events[|events| - 1];
    if t < |front| {
      TimedOutStays(front, t, d);
      EmptyStays(After(front), e, d);
    }
  }

  /** A dispatch that has returned came back empty exactly if it gave up before anything was sent for
      its id. */
  lemma ReturnsNoneExactly(events: seq<Event>, d: DispatchId)
    requires Valid(events) && d in After(events).dispatches && After(events).dispatches[d].phase.Returned?
    ensures var q := After(events).dispatches[d]; q.phase.result.None? <==> GaveUp(events, d, q)
  {
    var q := After(events).dispatches[d];
    AlwaysExplained(events, d);
    if q.phase.result.None? {
      NoReplyGaveUp(events, d);
    } else if GaveUp(events, d, q) {
      var t: nat :| q.begunAt < t < |events| && events[t] == TimeOut(d) && NoneDelivered(events, q.id, q.begunAt, t);
      TimedOutStays(events, t, d);
    }
  }

  predicate HasReply(s: State, d: DispatchId, reply: Response) {
    In(s, d, Waiting(Some(reply))) || In(s, d, Returned(Some(reply)))
  }

  lemma ReplyKept(s: State, e: Event, d: DispatchId, reply: Response)
    requires Enabled(s, e) && HasReply(s, d, reply)
    ensures HasReply(Apply(s, e), d, reply)
  {
  }

  /** Whatever is sent afterwards, a reply once given is never replaced. */
  lemma {:induction false} ReplyIsFinal(events: seq<Event>, more: seq<Event>, d: DispatchId, reply: Response)
    requires Valid(events + more) && Valid(events) && HasReply(After(events), d, reply)
    ensures HasReply(After(events + more), d, reply)
    decreases |more|
  {
    if more == [] {
      assert events + more == events;
    } else {
      var n, all := |more| - 1, events + more;
      assert all[..|all| - 1] == events + more[..n];
      ReplyIsFinal(events, more[..n], d, reply);
      ReplyKept(After(events + more[..n]), all[|all| - 1], d, reply);
    }
  }

  /** The chunks sent for an id while its call was pending, in the order they were sent. */
  ghost function SentWhilePending(events: seq<Event>, id: RequestId): seq<Chunk>
    requires Valid(events)
  {
    if events == [] then []
    else
      var front, e := events[..|events| - 1], events[|events| - 1];
      SentWhilePending(front, id) + SentBy(After(front), e, id)
  }

  function SentBy(s: State, e: Event, id: RequestId): seq<Chunk> {
    if e.Output? && e.chunk.requestId == id && id in s.pending then [e.chunk] else []
  }

  lemma OwnerStays(s: State, e: Event, id: RequestId)
    requires Enabled(s, e) && id in s.owner
    ensures id in Apply(s, e).owner
  {
  }

  lemma SentToNobody(s: State, e: Event, id: RequestId)
    requires Tracked(s) && id !in s.owner
    ensures SentBy(s, e, id) == []
  {
  }

  lemma {:induction false} NothingSentBefore(events: seq<Event>, id: RequestId)
    requires Valid(events) && id !in After(events).owner
    ensures SentWhilePending(events, id) == []
  {
    if events != [] {
      var front := events[..|events| - 1];
      AlwaysTracked(front);
      if id in After(front).owner { OwnerStays(After(front), events[|events| - 1], id); }
      NothingSentBefore(front, id);
      SentToNobody(After(front), events[|events| - 1], id);
    }
  }

  lemma ChunksGrow(s: State, e: Event, d: DispatchId)
    requires Tracked(s) && Enabled(s, e) && d in s.dispatches
    ensures var q, q' := s.dispatches[d], Apply(s, e).dispatches[d];
      && q'.id == q.id && q'.streams == q.streams
      && q'.chunks == q.chunks + if q.streams then SentBy(s, e, q.id) else []
  {
    assert DispatchOk(s, d);
    if e.Output? && e.chunk.requestId in s.owner { assert IdOk(s, e.chunk.requestId); }
  }

  /** A call that asked for output gets exactly the chunks sent for it while it was pending, in order;
      any other gets none. */
  lemma {:induction false} ChunksAreExactly(events: seq<Event>, d: DispatchId)
    requires Valid(events) && d in After(events).dispatches
    ensures var q := After(events).dispatches[d];
      q.chunks == if q.streams then SentWhilePending(events, q.id) else []
  {
    if events != [] {
      var front, e := events[..|events| - 1], events[|events| - 1];
      AlwaysTracked(front);
      if d in After(front).dispatches {
        ChunksAreExactly(front, d);
        ChunksGrow(After(front), e, d);
      } else {
        assert e.Begin? && e.d == d;
        NothingSentBefore(front, e.id);
      }
    }
  }

  /** Output chunks reach only the call they were sent for, and only if it asked for output. */
  lemma ChunksReachTheirOwner(events: seq<Event>, d: DispatchId, i: nat)
    requires Valid(events) && d in After(events).dispatches && i < |After(events).dispatches[d].chunks|
    ensures After(events).dispatches[d].chunks[i].requestId == After(events).dispatches[d].id
    ensures After(events).dispatches[d].streams
  {
    AlwaysTracked(events);
    assert DispatchOk(After(events), d);
  }

  /** Two dispatches never share a request id. */
  lemma IdsAreOwnedOnce(events: seq<Event>, d: DispatchId, d': DispatchId)
    requires Valid(events) && d in After(events).dispatches && d' in After(events).dispatches
    requires After(events).dispatches[d].id == After(events).dispatches[d'].id
    ensures d == d'
  {
    AlwaysTracked(events);
    assert DispatchOk(After(events), d) && DispatchOk(After(events), d');
  }

  /** While a dispatch waits its channel cannot close and its executor cannot be unregistered. */
  lemma WaitingIsSafe(events: seq<Event>, d: DispatchId)
    requires Valid(events) && In(After(events), d, Waiting(None))
    ensures var s, q := After(events), After(events).dispatches[d];
      q.id in s.pending && s.pending[q.id] && q.connection in s.sessions && !Enabled(s, Unregister(q.connection))
  {
    AlwaysTracked(events);
    assert DispatchOk(After(events), d) && IdOk(After(events), After(events).dispatches[d].id);
  }

  /** When every dispatch has returned and every cleanup has run, both tables are empty. */
  lemma QuiescentIsEmpty(events: seq<Event>)
    requires Valid(events) && After(events).cleanups == map[]
    requires forall d | d in After(events).dispatches :: After(events).dispatches[d].phase.Returned?
    ensures After(events).pending == map[] && After(events).recent == {}
  {
    AlwaysTracked(events);
    var s := After(events);
    assert forall id | id in s.owner :: IdOk(s, id);
    assert s.pending.Keys == {} && s.recent == {};
  }

  // ---- what can still happen ----

  /** Nothing is under way: every dispatch has returned, nothing is left in the tables, and executors
      may register and unregister. */
  ghost predicate Quiet(s: State) {
    && (forall d | d in s.dispatches :: s.dispatches[d].phase.Returned?)
    && s.pending == map[] && s.recent == {} && s.cleanups == map[]
    && forall c :: Enabled(s, Register(c)) && Enabled(s, Unregister(c))
  }

  ghost predicate LeadsToQuiet(s: State, more: seq<Event>)
    decreases |more|
  {
    if more == [] then Quiet(s)
    else Enabled(s, more[0]) && LeadsToQuiet(Apply(s, more[0]), more[1..])
  }

  ghost predicate CanDrain(s: State) {
    exists more :: LeadsToQuiet(s, more)
  }

  lemma OneStep(s: State, e: Event)
    requires Enabled(s, e) && CanDrain(Apply(s, e))
    ensures CanDrain(s)
  {
    var more :| LeadsToQuiet(Apply(s, e), more);
    assert ([e] + more)[1..] == more;
    assert LeadsToQuiet(s, [e] + more);
  }

  ghost function Unreturned(s: State): set<DispatchId> {
    set d | d in s.dispatches && !s.dispatches[d].phase.Returned?
  }

  /** How many steps a cleanup still has to take. */
  function Remaining(stage: Cleanup): nat {
    match stage
    case Scheduled => 3
    case Sleeping => 2
    case Closing => 1
  }

  lemma QuietWithoutCleanups(s: State)
    requires Tracked(s) && Unreturned(s) == {} && s.cleanups == map[]
    ensures Quiet(s)
  {
    assert forall d | d in s.dispatches :: d in Unreturned(s) || s.dispatches[d].phase.Returned?;
    assert forall id | id in s.owner :: IdOk(s, id);
    assert s.pending.Keys == {} && s.recent == {};
  }

  /** The step that takes the cleanup of `id` further. */
  function NextOf(id: RequestId, stage: Cleanup): Event {
    match stage
    case Scheduled => NoteRecent(id)
    case Sleeping => ForgetPending(id)
    case Closing => ForgetRecent(id)
  }

  lemma CleanupAdvances(s: State, id: RequestId)
    requires Tracked(s) && id in s.cleanups
    ensures var e := NextOf(id, s.cleanups[id]);
      && Enabled(s, e)
      && Apply(s, e).dispatches == s.dispatches
      && if s.cleanups[id] == Closing then Apply(s, e).cleanups == s.cleanups - {id}
         else id in Apply(s, e).cleanups && Apply(s, e).cleanups.Keys == s.cleanups.Keys
              && Remaining(Apply(s, e).cleanups[id]) < Remaining(s.cleanups[id])
  {
  }

  lemma {:induction false} CleanupsDrain(s: State, id: RequestId)
    requires Tracked(s) && Unreturned(s) == {} && id in s.cleanups
    ensures CanDrain(s)
    decreases |s.cleanups.Keys|, Remaining(s.cleanups[id])
  {
    var e := NextOf(id, s.cleanups[id]);
    var s' := Apply(s, e);
    CleanupAdvances(s, id);
    StepTracked(s, e);
    assert Unreturned(s') == {} by {
      assert Unreturned(s') == Unreturned(s);
    }
    if id in s'.cleanups {
      CleanupsDrain(s', id);
    } else if s'.cleanups == map[] {
      QuietWithoutCleanups(s');
      assert LeadsToQuiet(s', []);
    } else {
      var other :| other in s'.cleanups;
      assert s'.cleanups.Keys == s.cleanups.Keys - {id};
      CleanupsDrain(s', other);
    }
    OneStep(s, e);
  }

  lemma ReturnedDrain(s: State)
    requires Tracked(s) && Unreturned(s) == {}
    ensures CanDrain(s)
  {
    if s.cleanups == map[] {
      QuietWithoutCleanups(s);
      assert LeadsToQuiet(s, []);
    } else {
      var id :| id in s.cleanups;
      CleanupsDrain(s, id);
    }
  }

  lemma ReturningStep(s: State, e: Event, d: DispatchId)
    requires Enabled(s, e) && d in Unreturned(s) && (e == Receive(d) || e == Withdraw(d))
    ensures Unreturned(Apply(s, e)) == Unreturned(s) - {d}
  {
  }

  lemma TimeOutStep(s: State, d: DispatchId)
    requires In(s, d, Waiting(None))
    ensures Unreturned(Apply(s, TimeOut(d))) == Unreturned(s) && In(Apply(s, TimeOut(d)), d, TimedOut)
  {
  }

  lemma {:induction false} DispatchesDrain(s: State)
    requires Tracked(s)
    ensures CanDrain(s)
    decreases Unreturned(s), 1
  {
    if Unreturned(s) == {} {
      ReturnedDrain(s);
    } else {
      var d :| d in Unreturned(s);
      if In(s, d, Waiting(None)) {
        var s' := Apply(s, TimeOut(d));
        TimeOutStep(s, d);
        StepTracked(s, TimeOut(d));
        ReturnsAndDrains(s', d, Withdraw(d));
        OneStep(s, TimeOut(d));
      } else if In(s, d, TimedOut) {
        ReturnsAndDrains(s, d, Withdraw(d));
      } else {
        ReturnsAndDrains(s, d, Receive(d));
      }
    }
  }

  lemma {:induction false} ReturnsAndDrains(s: State, d: DispatchId, e: Event)
    requires Tracked(s) && Enabled(s, e) && d in Unreturned(s) && (e == Receive(d) || e == Withdraw(d))
    ensures CanDrain(s)
    decreases Unreturned(s), 0
  {
    ReturningStep(s, e, d);
    StepTracked(s, e);
    DispatchesDrain(Apply(s, e));
    OneStep(s, e);
  }

  /** Whatever has happened, every dispatch can still return and every cleanup still finish, after which
      no id is left behind and executors may register and unregister. */
  lemma CanAlwaysDrain(events: seq<Event>)
    requires Valid(events)
    ensures CanDrain(After(events))
  {
    AlwaysTracked(events);
    DispatchesDrain(After(events));
  }
}
