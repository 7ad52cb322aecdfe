/** The registry's shared tables, changed by the atomic sections of its methods and of the cleanup
    task. Each section performs one step of `RemoteDispatch` on the run the registry takes part in. */
module RemoteExecutors {
  import opened Wrappers
  import opened RemoteDispatch

  /** The senders of a pending call name the dispatch that holds the receiving ends. */
  datatype PendingCall = PendingCall(responseTx: Option<DispatchId>, outputTx: Option<DispatchId>, completed: bool)

  function Sent(replies: map<DispatchId, Response>, d: DispatchId): Option<Response> {
    if d in replies then Some(replies[d]) else None
  }

  function Received(outputs: map<DispatchId, seq<Chunk>>, d: DispatchId): seq<Chunk> {
    if d in outputs then outputs[d] else []
  }

  function SenderTo(d: DispatchId, there: bool): Option<DispatchId> {
    if there then Some(d) else None
  }

  /** The senders of a pending call lead to the dispatch that the id was made for. */
  ghost predicate SenderOk(s: State, id: RequestId, call: PendingCall) {
    && id in s.owner && s.owner[id] in s.dispatches && id in s.pending
    && call.responseTx == SenderTo(s.owner[id], s.pending[id]) && call.completed == !s.pending[id]
    && call.outputTx == SenderTo(s.owner[id], s.dispatches[s.owner[id]].streams)
  }

  ghost predicate SendersOk(s: State, calls: map<RequestId, PendingCall>) {
    calls.Keys == s.pending.Keys && forall id | id in calls :: SenderOk(s, id, calls[id])
  }

  /** What a dispatch finds in its two channels is what it is recorded to have got. */
  predicate ReceiverOk(q: Dispatch, sent: Option<Response>, received: seq<Chunk>) {
    (q.phase.Waiting? ==> q.phase.reply == sent) && q.chunks == received
  }

  ghost predicate ReceiversOk(s: State, replies: map<DispatchId, Response>, outputs: map<DispatchId, seq<Chunk>>) {
    && replies.Keys <= s.dispatches.Keys && outputs.Keys <= s.dispatches.Keys
    && forall d | d in s.dispatches :: ReceiverOk(s.dispatches[d], Sent(replies, d), Received(outputs, d))
  }

  // ---- one step at a time ----

  lemma SendersKept(s: State, e: Event, calls: map<RequestId, PendingCall>)
    requires Tracked(s) && Enabled(s, e) && SendersOk(s, calls)
    requires !e.Begin? && !e.Deliver? && !e.Withdraw? && !e.ForgetPending?
    ensures SendersOk(Apply(s, e), calls)
  {
    forall id | id in calls ensures SenderOk(Apply(s, e), id, calls[id]) {
      assert SenderOk(s, id, calls[id]);
    }
  }

  lemma ReceiversKept(s: State, e: Event, replies: map<DispatchId, Response>, outputs: map<DispatchId, seq<Chunk>>)
    requires Enabled(s, e) && !e.Deliver? && !e.Output? && ReceiversOk(s, replies, outputs)
    ensures ReceiversOk(Apply(s, e), replies, outputs)
  {
  }

  lemma SenderStored(s: State, e: Event, calls: map<RequestId, PendingCall>)
    requires e.Begin? && Tracked(s) && Enabled(s, e) && SendersOk(s, calls)
    ensures SendersOk(Apply(s, e), calls[e.id := PendingCall(Some(e.d), SenderTo(e.d, e.streams), false)])
  {
    var s' := Apply(s, e);
    var calls' := calls[e.id := PendingCall(Some(e.d), SenderTo(e.d, e.streams), false)];
    forall id | id in calls' ensures SenderOk(s', id, calls'[id]) {
      if id != e.id { assert SenderOk(s, id, calls[id]); }
    }
  }

  /** The steps that take an id out of the table of pending calls. */
  predicate Forgets(s: State, e: Event, id: RequestId) {
    e == ForgetPending(id) || (e.Withdraw? && e.d in s.dispatches && s.dispatches[e.d].id == id)
  }

  lemma SenderDropped(s: State, e: Event, id: RequestId, calls: map<RequestId, PendingCall>)
    requires Tracked(s) && Enabled(s, e) && Forgets(s, e, id) && SendersOk(s, calls)
    ensures SendersOk(Apply(s, e), calls - {id})
  {
    forall other | other in calls - {id} ensures SenderOk(Apply(s, e), other, calls[other]) {
      assert SenderOk(s, other, calls[other]);
    }
  }

  predicate Takes(calls: map<RequestId, PendingCall>, id: RequestId) {
    id in calls && calls[id].responseTx.Some?
  }

  /** Only the first response for a pending id finds a sender. */
  lemma SenderTaken(s: State, response: Response, calls: map<RequestId, PendingCall>)
    requires Tracked(s) && SendersOk(s, calls) && Takes(calls, response.requestId)
    ensures var id := response.requestId;
      SendersOk(Apply(s, Deliver(response)), calls[id := calls[id].(responseTx := None, completed := true)])
  {
    var id := response.requestId;
    var calls' := calls[id := calls[id].(responseTx := None, completed := true)];
    assert SenderOk(s, id, calls[id]);
    forall other | other in calls' ensures SenderOk(Apply(s, Deliver(response)), other, calls'[other]) {
      if other != id { assert SenderOk(s, other, calls[other]); }
    }
  }

  lemma ReplyArrives(s: State, response: Response, calls: map<RequestId, PendingCall>,
                     replies: map<DispatchId, Response>, outputs: map<DispatchId, seq<Chunk>>)
    requires Tracked(s) && SendersOk(s, calls) && ReceiversOk(s, replies, outputs)
    requires Takes(calls, response.requestId)
    ensures var d := calls[response.requestId].responseTx.value;
      ReceiversOk(Apply(s, Deliver(response)), replies[d := response], outputs)
  {
    assert SenderOk(s, response.requestId, calls[response.requestId]) && IdOk(s, response.requestId);
  }

  lemma NothingTaken(s: State, response: Response, calls: map<RequestId, PendingCall>,
                     replies: map<DispatchId, Response>, outputs: map<DispatchId, seq<Chunk>>)
    requires SendersOk(s, calls) && ReceiversOk(s, replies, outputs) && !Takes(calls, response.requestId)
    ensures var s' := Apply(s, Deliver(response));
      s' == s.(now := s.now + 1) && SendersOk(s', calls) && ReceiversOk(s', replies, outputs)
  {
  }

  predicate Streams(calls: map<RequestId, PendingCall>, id: RequestId) {
    id in calls && calls[id].outputTx.Some?
  }

  lemma ChunkArrives(s: State, chunk: Chunk, calls: map<RequestId, PendingCall>,
                     replies: map<DispatchId, Response>, outputs: map<DispatchId, seq<Chunk>>)
    requires SendersOk(s, calls) && ReceiversOk(s, replies, outputs) && Streams(calls, chunk.requestId)
    ensures var d := calls[chunk.requestId].outputTx.value;
      ReceiversOk(Apply(s, Output(chunk)), replies, outputs[d := Received(outputs, d) + [chunk]])
  {
    assert SenderOk(s, chunk.requestId, calls[chunk.requestId]);
  }

  lemma ChunkDropped(s: State, chunk: Chunk, calls: map<RequestId, PendingCall>,
                     replies: map<DispatchId, Response>, outputs: map<DispatchId, seq<Chunk>>)
    requires SendersOk(s, calls) && ReceiversOk(s, replies, outputs) && !Streams(calls, chunk.requestId)
    ensures var s' := Apply(s, Output(chunk));
      s' == s.(now := s.now + 1) && ReceiversOk(s', replies, outputs)
  {
  }

  // ---- the registry ----

  class Registry {
    var sessions: set<ConnectionId>
    var pending: map<RequestId, PendingCall>
    var recentlyCompleted: set<RequestId>
    /** What has been sent into the response and output channels. */
    var replies: map<DispatchId, Response>
    var outputs: map<DispatchId, seq<Chunk>>
    /** How far the concurrent dispatches and cleanup tasks have come. */
    ghost var view: State

    ghost predicate Valid()
      reads this
    {
      && Tracked(view)
      && view.sessions == sessions && view.recent == recentlyCompleted
      && SendersOk(view, pending) && ReceiversOk(view, replies, outputs)
    }

    constructor ()
      ensures Valid() && view == START
    {
      sessions, pending, recentlyCompleted := {}, map[], {};
      replies, outputs, view := map[], map[], START;
    }

    /** Without a session of the executor the dispatch returns at once. */
    method BeginDispatch(d: DispatchId, connection: ConnectionId, id: RequestId, streams: bool) returns (begun: bool)
      requires Valid() && d !in view.dispatches && id !in view.owner
      modifies this
      ensures begun <==> connection in old(sessions)
      ensures begun ==> Enabled(old(view), Begin(d, connection, id, streams))
      ensures Valid() && view == if begun then Apply(old(view), Begin(d, connection, id, streams)) else old(view)
    {
      ghost var e := Begin(d, connection, id, streams);
      if connection !in sessions {
        return false;
      }
      StepTracked(view, e);
      SenderStored(view, e, pending);
      ReceiversKept(view, e, replies, outputs);
      pending := pending[id := PendingCall(Some(d), SenderTo(d, streams), false)];
      view := Apply(view, e);
      begun := true;
    }

    method DeliverResponse(response: Response)
      requires Valid()
      modifies this
      ensures Valid() && view == Apply(old(view), Deliver(response))
    {
      StepTracked(view, Deliver(response));
      var id := response.requestId;
      if Takes(pending, id) {
        SenderTaken(view, response, pending);
        ReplyArrives(view, response, pending, replies, outputs);
        replies := replies[pending[id].responseTx.value := response];
        pending := pending[id := pending[id].(responseTx := None, completed := true)];
      } else {
        NothingTaken(view, response, pending, replies, outputs);
      }
      view := Apply(view, Deliver(response));
    }

    method DeliverOutput(chunk: Chunk)
      requires Valid()
      modifies this
      ensures Valid() && view == Apply(old(view), Output(chunk))
    {
      StepTracked(view, Output(chunk));
      SendersKept(view, Output(chunk), pending);
      var id := chunk.requestId;
      if Streams(pending, id) {
        ChunkArrives(view, chunk, pending, replies, outputs);
        var d := pending[id].outputTx.value;
        outputs := outputs[d := Received(outputs, d) + [chunk]];
      } else {
        ChunkDropped(view, chunk, pending, replies, outputs);
      }
      view := Apply(view, Output(chunk));
    }

    /** A reply that has been sent is taken; only otherwise can the wait time out. */
    method EndWait(d: DispatchId) returns (reply: Option<Response>)
      requires Valid() && d in view.dispatches && view.dispatches[d].phase.Waiting?
      modifies this`view
      ensures old(view).dispatches[d].phase == Waiting(reply)
      ensures Valid() && view == Apply(old(view), if reply.None? then TimeOut(d) else Receive(d))
    {
      reply := Sent(replies, d);
      assert ReceiverOk(view.dispatches[d], reply, Received(outputs, d));
      Advance(if reply.None? then TimeOut(d) else Receive(d));
    }

    /** A timed-out dispatch and a cleanup task take the id out of the table of pending calls. */
    method RemovePending(ghost e: Event, id: RequestId)
      requires Valid() && Enabled(view, e) && Forgets(view, e, id)
      modifies this
      ensures Valid() && view == Apply(old(view), e)
    {
      StepTracked(view, e);
      SenderDropped(view, e, id, pending);
      ReceiversKept(view, e, replies, outputs);
      pending := pending - {id};
      view := Apply(view, e);
    }

    /** The sections that change one set: clients come and go, cleanups note and forget an id. */
    method Section(e: Event)
      requires Valid() && Enabled(view, e)
      requires e.Register? || e.Unregister? || e.NoteRecent? || e.ForgetRecent?
      modifies this
      ensures Valid() && view == Apply(old(view), e)
    {
      Advance(e);
      match e
      case Register(c) => sessions := sessions + {c};
      case Unregister(c) => sessions := sessions - {c};
      case NoteRecent(id) => recentlyCompleted := recentlyCompleted + {id};
      case ForgetRecent(id) => recentlyCompleted := recentlyCompleted - {id};
    }

    ghost method Advance(e: Event)
      requires Tracked(view) && SendersOk(view, pending) && ReceiversOk(view, replies, outputs) && Enabled(view, e)
      requires !e.Begin? && !e.Deliver? && !e.Output? && !e.Withdraw? && !e.ForgetPending?
      modifies this`view
      ensures Tracked(view) && SendersOk(view, pending) && ReceiversOk(view, replies, outputs)
      ensures view == Apply(old(view), e)
    {
      StepTracked(view, e);
      SendersKept(view, e, pending);
      ReceiversKept(view, e, replies, outputs);
      view := Apply(view, e);
    }
  }
}
