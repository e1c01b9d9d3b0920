/**
 * Sending the request body of an HTTP client: `onClientAppendHandshakeHeader` and
 * `onClientHttpWriteable` of lib/lws/protocols.js, behind the flush of lws-protocol.c that runs
 * before every writeable callback.
 *
 * The writeable callback may fire at any time and any number of times.  Redirects and the other
 * callbacks are not part of this model.
 */
module ClientBody {
  import opened WriteQueue
  import opened Wrappers

  class ClientRequest {
    const socket: Socket
    var body: Option<seq<byte>>
    var bodyPending: int
    /** The content-length header that was added, if any. */
    var contentLength: Option<nat>
    /** The body the request started with, and whether its headers went out while it was there. */
    ghost const whole: Option<seq<byte>>
    ghost var announced: bool

    constructor (socket: Socket, body: Option<seq<byte>>)
      requires socket.Valid() && socket.enqueued == [] && socket.failures == 0
      ensures this.socket == socket && whole == body == this.body && Valid() && !announced && contentLength.None?
    {
      this.socket, this.body, this.whole := socket, body, body;
      bodyPending, contentLength, announced := 0, None, false;
    }

    ghost predicate Queued()
      reads this
    {
      whole.Some? && body.None?
    }

    /** The body is queued at most once; while no write fails it stays pending until all is taken. */
    ghost predicate Valid()
      reads this, socket
    {
      && socket.Valid()
      && (body.Some? ==> body == whole)
      && (announced ==> whole.Some?)
      && (contentLength.Some? ==> announced && contentLength.value == |whole.value|)
      && (socket.failures == 0 ==>
            && socket.enqueued == (if Queued() then [Msg(whole.value, HttpFinal)] else [])
            && (announced && bodyPending == 0 ==>
                  && Queued() && Accepted(socket.calls) == whole.value
                  && (socket.queue == [] || whole.value == [])))
    }

    /** `onClientAppendHandshakeHeader`, where it deals with the body. */
    method AppendHandshakeHeader(hasContentLength: bool)
      requires Valid()
      modifies this
      ensures Valid() && body == old(body) && (body.None? ==> announced == old(announced))
      ensures body.Some? ==> announced && bodyPending == 1
      ensures body.Some? && !hasContentLength ==> contentLength == Some(|whole.value|)
    {
      if body.Some? {
        if !hasContentLength {
          contentLength := Some(|body.value|);
        }
        bodyPending := 1;
        announced := true;
      }
    }

    /**
     * `onClientHttpWriteable`.  While no write fails, the body stops being pending exactly when nothing
     * is queued or it was empty.
     */
    method OnClientHttpWriteable()
      requires Valid()
      modifies this, socket
      ensures Valid() && body.None? && announced == old(announced) && contentLength == old(contentLength)
      ensures bodyPending == 0 || bodyPending == old(bodyPending)
      ensures announced && socket.failures == 0 ==> (bodyPending == 0 <==> socket.queue == [] || whole.value == [])
      ensures socket.armed == (old(socket.armed) || (old(body.Some?) && socket.queue != []))
      ensures old(body.None?) ==>
                && socket.queue == old(socket.queue) && socket.failures == old(socket.failures)
                && socket.turn == old(socket.turn) && socket.Weight() == old(socket.Weight())
      ensures socket.Willing() ==> socket.failures == old(socket.failures)
      ensures old(body.Some? && socket.queue == [] && socket.partial(socket.turn)) ==>
                socket.queue == [Chunk(Msg(whole.value, HttpFinal), 0)] && socket.failures == old(socket.failures)
      ensures socket.Eager() && old(socket.queue) == [] ==>
                socket.queue == [] && bodyPending == 0 && socket.failures == old(socket.failures)
    {
      hide History, Accepted, Unfinished, Left;
      if body.Some? {
        var all := body.value;
        var n := socket.Write(all, None, Some(HttpFinal), false, false);
        assert all[..n] == all;
        body := None;
      }
      BufferedIsLeft(socket);
      if socket.failures == 0 && whole.Some? {
        NothingQueued(socket, whole.value);
      }
      if socket.buffered == 0 {
        if socket.failures == 0 && whole.Some? {
          AllTaken(socket, whole.value);
        }
        bodyPending := 0;
      }
    }

    /** The writeable callback: the dispatcher flushes, then `onClientHttpWriteable` runs. */
    method Writeable()
      requires Valid()
      modifies this, socket
      ensures Valid() && body.None?
      ensures announced == old(announced) && contentLength == old(contentLength)
      ensures bodyPending == 0 || bodyPending == old(bodyPending)
      ensures announced && socket.failures == 0 ==> (bodyPending == 0 <==> socket.queue == [] || whole.value == [])
      ensures socket.queue != [] ==> socket.armed
      ensures socket.Eager() ==> bodyPending == 0 && socket.failures == old(socket.failures)
      ensures old(body.Some? && socket.queue == [] && socket.partial(socket.turn)) ==>
                socket.queue == [Chunk(Msg(whole.value, HttpFinal), 0)] && socket.failures == old(socket.failures)
      ensures socket.Willing() ==> socket.failures == old(socket.failures)
      ensures socket.Willing() && old(body.None? && socket.queue != []) ==>
                && socket.Weight() <= old(socket.Weight())
                && if old(socket.partial(socket.turn)) then socket.turn == old(socket.turn) + 1
                   else socket.Weight() < old(socket.Weight())
    {
      hide History, Accepted, Unfinished, Left;
      if socket.failures == 0 && announced && bodyPending == 0 {
        NothingQueued(socket, whole.value);
      }
      socket.Fire();
      BufferedIsNat(socket);
      if socket.failures == 0 && announced && bodyPending == 0 {
        AllTaken(socket, whole.value);
        NothingQueued(socket, whole.value);
      }
      OnClientHttpWriteable();
    }
  }

  lemma BufferedIsLeft(socket: Socket)
    requires socket.Valid()
    ensures socket.queue == [] ==> socket.buffered == 0
  {
  }

  lemma BufferedIsNat(socket: Socket)
    requires socket.Valid()
    ensures socket.buffered >= 0
  {
    LeftBound(socket.queue, socket.enqueued, socket.done);
  }

  lemma {:induction false} PendingLength(queue: seq<Chunk>, enqueued: seq<Msg>, done: nat)
    requires GoodQueue(queue, enqueued, done)
    ensures |Pending(queue)| <= Left(queue)
    decreases |queue|
  {
    if queue != [] {
      NextHead(queue, enqueued, done);
      PendingLength(queue[1..], enqueued, done + 1);
    }
  }

  /** Once nothing is buffered, the bytes that were taken are the bytes of the one body queued. */
  lemma AllTaken(socket: Socket, data: seq<byte>)
    requires socket.Valid() && socket.buffered == 0 && socket.enqueued == [Msg(data, HttpFinal)]
    ensures Accepted(socket.calls) == data
  {
    hide History, Accepted;
    CallsAreGood(socket);
    HttpConserved(socket.queue, socket.buffered, socket.enqueued, socket.done, socket.calls);
    assert Pending(socket.queue) == [];
    assert socket.enqueued[..0] == [];
    assert Bytes(socket.enqueued) == data;
  }

  /** Nothing is buffered of a body exactly when its entry has left the queue, or the body is empty. */
  lemma NothingQueued(socket: Socket, data: seq<byte>)
    requires socket.Valid() && socket.enqueued == [Msg(data, HttpFinal)]
    ensures socket.buffered == 0 <==> socket.queue == [] || data == []
  {
    if socket.queue != [] {
      assert socket.queue[0].msg == socket.enqueued[socket.done];
      assert Left(socket.queue[1..]) == 0;
    }
  }

  lemma CallsAreGood(socket: Socket)
    requires socket.Valid()
    ensures GoodCalls(socket.calls) && (socket.buffered == 0 ==> Pending(socket.queue) == [])
  {
    PendingLength(socket.queue, socket.enqueued, socket.done);
  }

  /** What a server may count on: the declared length is the number of bytes sent. */
  lemma DeclaredIsSent(request: ClientRequest)
    requires request.Valid() && request.contentLength.Some? && request.bodyPending == 0
    requires request.socket.failures == 0
    ensures GoodCalls(request.socket.calls)
    ensures |Accepted(request.socket.calls)| == request.contentLength.value
  {
    CallsAreGood(request.socket);
  }

  /**
   * A connection that holds every write back.  The body stays in the queue; the request says that it is
   * not pending if and only if the body is empty.
   */
  method HeldBack(body: seq<byte>) returns (request: ClientRequest)
    ensures request.Valid() && request.whole == Some(body) && request.announced && request.socket.failures == 0
    ensures request.socket.queue == [Chunk(Msg(body, HttpFinal), 0)]
    ensures request.bodyPending == 0 <==> body == []
  {
    hide History, Unfinished, Accepted;
    var socket := new Socket(i => true, i => 0, i => false);
    request := new ClientRequest(socket, Some(body));
    request.AppendHandshakeHeader(false);
    request.Writeable();
  }

  /** Looks at the connection find it free again and again. */
  ghost predicate Fair(socket: Socket) {
    forall i: nat :: FreeLater(socket, i)
  }

  ghost predicate FreeLater(socket: Socket, i: nat) {
    exists j: nat :: i <= j && !socket.partial(j)
  }

  /**
   * On a connection that takes at least one byte whenever it is free, and is free again and again, the
   * writeable callback fires finitely often until the body is no longer pending; then all of it was
   * accepted.
   */
  method SendAll(request: ClientRequest)
    requires request.Valid() && request.announced && request.socket.failures == 0
    requires request.socket.Willing() && Fair(request.socket)
    modifies request, request.socket
    ensures request.Valid() && request.bodyPending == 0 && request.socket.failures == 0
    ensures request.whole.Some? && GoodCalls(request.socket.calls)
    ensures Accepted(request.socket.calls) == request.whole.value
    ensures request.socket.queue == [] || request.whole.value == []
  {
    hide History, Unfinished, Accepted, Left;
    var socket := request.socket;
    request.Writeable();
    assert FreeLater(socket, socket.turn);
    ghost var free: nat :| socket.turn <= free && !socket.partial(free);
    while request.bodyPending != 0
      invariant request.Valid() && request.announced && request.body.None? && socket.failures == 0
      invariant request.bodyPending != 0 ==> socket.queue != []
      invariant socket.turn <= free && !socket.partial(free)
      decreases socket.Weight(), free - socket.turn
    {
      socket.WeightIsNat();
      ghost var held := socket.partial(socket.turn);
      request.Writeable();
      socket.WeightIsNat();
      if !held {
        assert FreeLater(socket, socket.turn);
        free :| socket.turn <= free && !socket.partial(free);
      }
    }
    CallsAreGood(socket);
  }
}
