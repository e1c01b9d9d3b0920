/**
 * The write queue of lws-socket.c: `lwsjs_socket_write`, `socket_flush` and
 * `socket_write_queue_clear`.
 *
 * libwebsockets is an environment that may hold writes back, accept any part of what a call offers,
 * or fail; it answers the `i`-th question put to it from oracles.  Ghost fields record everything
 * queued and every call made since the last failure.
 */
module WriteQueue {
  import opened Seqs
  import opened Wrappers

  /** `lws_write_protocol`, as far as the queue tells its values apart. */
  datatype Proto = Http | HttpFinal | Text | Binary | Other(code: int)

  const HTTP_WRITE_CHUNK_MAX: nat := 16384

  /** A write of this kind is one WebSocket message, never split. */
  predicate IsMessage(p: Proto) {
    p != Http && p != HttpFinal
  }

  datatype Msg = Msg(data: seq<byte>, proto: Proto)

  /** A queue entry; `pos` bytes of it are already handed over. */
  datatype Chunk = Chunk(msg: Msg, pos: nat)

  /** One `lws_write` call, for the message it belongs to. */
  datatype Call = Call(msg: Msg, pos: nat, offered: seq<byte>, proto: Proto, accepted: nat)

  // What the calls mean

  function Bytes(msgs: seq<Msg>): seq<byte> {
    if msgs == [] then []
    else Bytes(msgs[..|msgs| - 1]) + (if IsMessage(msgs[|msgs| - 1].proto) then [] else msgs[|msgs| - 1].data)
  }

  function Messages(msgs: seq<Msg>): seq<Msg> {
    if msgs == [] then []
    else Messages(msgs[..|msgs| - 1]) + (if IsMessage(msgs[|msgs| - 1].proto) then [msgs[|msgs| - 1]] else [])
  }

  /** The HTTP bytes libwebsockets took, in order. */
  function Accepted(calls: seq<Call>): seq<byte>
    requires forall k :: 0 <= k < |calls| ==> GoodCall(calls[k])
  {
    if calls == [] then []
    else
      var c := calls[|calls| - 1];
      assert GoodCall(c);
      Accepted(calls[..|calls| - 1]) + (if IsMessage(c.proto) then [] else c.offered[..c.accepted])
  }

  /** The WebSocket messages handed over, in order. */
  function Handed(calls: seq<Call>): seq<Msg> {
    if calls == [] then []
    else
      var c := calls[|calls| - 1];
      Handed(calls[..|calls| - 1]) + (if IsMessage(c.proto) then [Msg(c.offered, c.proto)] else [])
  }

  /** The framing rules of a single call. */
  predicate GoodCall(c: Call) {
    && c.accepted <= |c.offered|
    && c.pos + |c.offered| <= |c.msg.data| && c.offered == c.msg.data[c.pos..c.pos + |c.offered|]
    && (if IsMessage(c.msg.proto) then c.proto == c.msg.proto && c.offered == c.msg.data
        else
          && !IsMessage(c.proto) && |c.offered| <= HTTP_WRITE_CHUNK_MAX
          && (c.proto == HttpFinal <==> c.msg.proto == HttpFinal && c.pos + |c.offered| == |c.msg.data|))
  }

  function Left(queue: seq<Chunk>): int {
    if queue == [] then 0 else |queue[0].msg.data| - queue[0].pos + Left(queue[1..])
  }

  predicate GoodQueue(queue: seq<Chunk>, enqueued: seq<Msg>, done: nat) {
    && done + |queue| == |enqueued|
    && forall k :: 0 <= k < |queue| ==>
         && queue[k].msg == enqueued[done + k] && queue[k].pos <= |queue[k].msg.data|
         && (k > 0 || IsMessage(queue[k].msg.proto) ==> queue[k].pos == 0)
  }

  /** Every entry has bytes left, or had none from the start. */
  predicate Unfinished(queue: seq<Chunk>) {
    forall k :: 0 <= k < |queue| ==> queue[k].pos < |queue[k].msg.data| || queue[k].msg.data == []
  }

  /** The part of the first entry that libwebsockets has already taken. */
  function HeadTaken(queue: seq<Chunk>): seq<byte> {
    if queue == [] || IsMessage(queue[0].msg.proto) || queue[0].pos > |queue[0].msg.data| then []
    else queue[0].msg.data[..queue[0].pos]
  }

  predicate GoodCalls(calls: seq<Call>) {
    forall k :: 0 <= k < |calls| ==> GoodCall(calls[k])
  }

  /** How the queue, the counter and the calls made so far follow from what was queued. */
  predicate History(queue: seq<Chunk>, buffered: int, enqueued: seq<Msg>, done: nat, calls: seq<Call>) {
    && GoodQueue(queue, enqueued, done) && buffered == Left(queue) && GoodCalls(calls)
    && Accepted(calls) == Bytes(enqueued[..done]) + HeadTaken(queue)
    && Handed(calls) == Messages(enqueued[..done])
  }

  /** What the next call offers of an entry, and under which protocol. */
  function Offer(c: Chunk): nat
    requires c.pos <= |c.msg.data|
  {
    var remaining := |c.msg.data| - c.pos;
    if !IsMessage(c.msg.proto) && remaining > HTTP_WRITE_CHUNK_MAX then HTTP_WRITE_CHUNK_MAX else remaining
  }

  function CallFor(c: Chunk, n: nat): Call
    requires c.pos <= |c.msg.data|
  {
    var proto := if Offer(c) < |c.msg.data| - c.pos && c.msg.proto == HttpFinal then Http else c.msg.proto;
    Call(c.msg, c.pos, c.msg.data[c.pos..c.pos + Offer(c)], proto, n)
  }

  lemma CallIsGood(c: Chunk, n: nat)
    requires c.pos <= |c.msg.data| && n <= Offer(c) && (IsMessage(c.msg.proto) ==> c.pos == 0)
    ensures GoodCall(CallFor(c, n))
  {
  }

  lemma CallsGrow(calls: seq<Call>, c: Call)
    requires GoodCalls(calls) && GoodCall(c)
    ensures GoodCalls(calls + [c])
    ensures Accepted(calls + [c]) == Accepted(calls) + (if IsMessage(c.proto) then [] else c.offered[..c.accepted])
    ensures Handed(calls + [c]) == Handed(calls) + (if IsMessage(c.proto) then [Msg(c.offered, c.proto)] else [])
  {
    assert (calls + [c])[..|calls + [c]| - 1] == calls;
  }

  lemma DoneGrows(enqueued: seq<Msg>, done: nat)
    requires done < |enqueued|
    ensures Bytes(enqueued[..done + 1]) ==
      Bytes(enqueued[..done]) + (if IsMessage(enqueued[done].proto) then [] else enqueued[done].data)
    ensures Messages(enqueued[..done + 1]) ==
      Messages(enqueued[..done]) + (if IsMessage(enqueued[done].proto) then [enqueued[done]] else [])
  {
    assert enqueued[..done + 1][..done] == enqueued[..done];
  }

  /** An HTTP entry of which `n` more bytes were taken, but not all. */
  lemma PartTaken(queue: seq<Chunk>, buffered: int, enqueued: seq<Msg>, done: nat, calls: seq<Call>, n: nat)
    requires History(queue, buffered, enqueued, done, calls) && queue != [] && !IsMessage(queue[0].msg.proto)
    requires n <= Offer(queue[0])
    ensures
      var c := queue[0];
      History([Chunk(c.msg, c.pos + n)] + queue[1..], buffered - n, enqueued, done, calls + [CallFor(c, n)])
  {
    hide Bytes, Messages, Handed, Accepted, Left, GoodQueue, GoodCall, GoodCalls;
    var c := queue[0];
    var next := [Chunk(c.msg, c.pos + n)] + queue[1..];
    QueueFacts(queue, enqueued, done);
    CallIsGood(c, n);
    CallsGrow(calls, CallFor(c, n));
    SameQueue(queue, enqueued, done, n);
    assert c.msg.data[..c.pos] + c.msg.data[c.pos..c.pos + Offer(c)][..n] == c.msg.data[..c.pos + n];
    Assoc(Bytes(enqueued[..done]), c.msg.data[..c.pos], c.msg.data[c.pos..c.pos + Offer(c)][..n]);
  }

  lemma QueueFacts(queue: seq<Chunk>, enqueued: seq<Msg>, done: nat)
    requires GoodQueue(queue, enqueued, done) && queue != []
    ensures queue[0].pos <= |queue[0].msg.data| && (IsMessage(queue[0].msg.proto) ==> queue[0].pos == 0)
    ensures done < |enqueued| && queue[0].msg == enqueued[done]
  {
  }

  lemma SameQueue(queue: seq<Chunk>, enqueued: seq<Msg>, done: nat, n: nat)
    requires GoodQueue(queue, enqueued, done) && queue != [] && !IsMessage(queue[0].msg.proto)
    requires queue[0].pos + n <= |queue[0].msg.data|
    ensures
      var c := queue[0];
      var next := [Chunk(c.msg, c.pos + n)] + queue[1..];
      GoodQueue(next, enqueued, done) && Left(next) == Left(queue) - n
  {
    var c := queue[0];
    var next := [Chunk(c.msg, c.pos + n)] + queue[1..];
    assert next[1..] == queue[1..];
    assert forall k :: 0 < k < |next| ==> next[k] == queue[k];
  }

  /** The first entry, all of which is taken, leaves the queue. */
  lemma HeadLeaves(queue: seq<Chunk>, buffered: int, enqueued: seq<Msg>, done: nat, calls: seq<Call>)
    requires queue != [] && History(queue, buffered, enqueued, done, calls)
    requires !IsMessage(queue[0].msg.proto) && queue[0].pos == |queue[0].msg.data|
    ensures History(queue[1..], buffered, enqueued, done + 1, calls)
  {
    hide Accepted, Handed;
    DoneGrows(enqueued, done);
    var c := queue[0];
    assert c.msg.data[..c.pos] == c.msg.data;
    NextHead(queue, enqueued, done);
  }

  lemma NextHead(queue: seq<Chunk>, enqueued: seq<Msg>, done: nat)
    requires queue != [] && GoodQueue(queue, enqueued, done)
    ensures GoodQueue(queue[1..], enqueued, done + 1) && HeadTaken(queue[1..]) == []
  {
    forall k | 0 <= k < |queue| - 1
      ensures queue[1..][k] == queue[k + 1]
    {
    }
  }

  /** A WebSocket message is handed over whole and leaves the queue. */
  lemma MessageHanded(queue: seq<Chunk>, buffered: int, enqueued: seq<Msg>, done: nat, calls: seq<Call>, n: nat)
    requires History(queue, buffered, enqueued, done, calls) && queue != [] && IsMessage(queue[0].msg.proto)
    requires n <= Offer(queue[0])
    ensures
      var c := queue[0];
      History(queue[1..], buffered - Offer(c), enqueued, done + 1, calls + [CallFor(c, n)])
  {
    hide Accepted, Handed;
    var c := queue[0];
    CallIsGood(c, n);
    CallsGrow(calls, CallFor(c, n));
    DoneGrows(enqueued, done);
    NextHead(queue, enqueued, done);
    assert CallFor(c, n).offered == c.msg.data;
  }

  /** The head of the queue after a call that took `n` bytes. */
  function Moved(c: Chunk, n: nat): Chunk {
    c.(pos := if IsMessage(c.msg.proto) then |c.msg.data| else c.pos + n)
  }

  /** One successful call: the first entry leaves when nothing of it is left, else it moves on. */
  lemma HeadMoves(queue: seq<Chunk>, buffered: int, enqueued: seq<Msg>, done: nat, calls: seq<Call>, n: nat)
    requires History(queue, buffered, enqueued, done, calls) && Unfinished(queue) && queue != []
    requires queue[0].pos <= |queue[0].msg.data| && n <= Offer(queue[0])
    ensures
      var c, wc := queue[0], Moved(queue[0], n);
      var rest := buffered - (if IsMessage(c.msg.proto) then Offer(c) else n);
      if wc.pos >= |wc.msg.data|
      then History(queue[1..], rest, enqueued, done + 1, calls + [CallFor(c, n)]) && Unfinished(queue[1..])
      else
        && History([wc] + queue[1..], rest, enqueued, done, calls + [CallFor(c, n)])
        && Unfinished([wc] + queue[1..])
  {
    hide History, Left, Unfinished, CallFor;
    var c, wc := queue[0], Moved(queue[0], n);
    RestUnfinished(queue, wc);
    if IsMessage(c.msg.proto) {
      MessageHanded(queue, buffered, enqueued, done, calls, n);
    } else {
      PartTaken(queue, buffered, enqueued, done, calls, n);
      if wc.pos >= |wc.msg.data| {
        var next := [wc] + queue[1..];
        HeadLeaves(next, buffered - n, enqueued, done, calls + [CallFor(c, n)]);
        assert next[1..] == queue[1..];
      }
    }
  }

  lemma {:induction false} LeftSnoc(queue: seq<Chunk>, c: Chunk)
    ensures Left(queue + [c]) == Left(queue) + |c.msg.data| - c.pos
  {
    if queue == [] {
      assert (queue + [c])[1..] == [];
    } else {
      assert (queue + [c])[1..] == queue[1..] + [c];
      LeftSnoc(queue[1..], c);
    }
  }

  lemma Enqueues(queue: seq<Chunk>, buffered: int, enqueued: seq<Msg>, done: nat, calls: seq<Call>, m: Msg)
    requires History(queue, buffered, enqueued, done, calls)
    ensures History(queue + [Chunk(m, 0)], buffered + |m.data|, enqueued + [m], done, calls)
  {
    hide Accepted, Handed, Bytes, Messages, Left;
    LeftSnoc(queue, Chunk(m, 0));
    assert (enqueued + [m])[..done] == enqueued[..done];
  }

  lemma {:induction false} LeftBound(queue: seq<Chunk>, enqueued: seq<Msg>, done: nat)
    requires GoodQueue(queue, enqueued, done)
    ensures Left(queue) >= 0
    decreases |queue|
  {
    if queue != [] {
      NextHead(queue, enqueued, done);
      LeftBound(queue[1..], enqueued, done + 1);
    }
  }

  // Consequences

  /** The HTTP bytes still to be taken. */
  function Pending(queue: seq<Chunk>): seq<byte> {
    if queue == [] then []
    else HeadPending(queue) + Pending(queue[1..])
  }

  function HeadPending(queue: seq<Chunk>): seq<byte>
    requires queue != []
  {
    if IsMessage(queue[0].msg.proto) || queue[0].pos > |queue[0].msg.data| then []
    else queue[0].msg.data[queue[0].pos..]
  }

  lemma Regroup4(a: seq<byte>, b: seq<byte>, c: seq<byte>, d: seq<byte>)
    ensures (a + b) + (c + d) == (a + (b + c)) + [] + d
  {
  }

  lemma {:induction false} PendingIsRest(queue: seq<Chunk>, enqueued: seq<Msg>, done: nat)
    requires GoodQueue(queue, enqueued, done)
    ensures Bytes(enqueued[..done]) + HeadTaken(queue) + Pending(queue) == Bytes(enqueued)
    decreases |queue|
  {
    hide Bytes;
    if queue == [] {
      assert enqueued[..done] == enqueued;
    } else {
      hide HeadTaken, HeadPending;
      NextHead(queue, enqueued, done);
      DoneGrows(enqueued, done);
      PendingIsRest(queue[1..], enqueued, done + 1);
      HeadSplits(queue, enqueued, done);
      Regroup4(Bytes(enqueued[..done]), HeadTaken(queue), HeadPending(queue), Pending(queue[1..]));
    }
  }

  lemma HeadSplits(queue: seq<Chunk>, enqueued: seq<Msg>, done: nat)
    requires GoodQueue(queue, enqueued, done) && queue != []
    ensures HeadTaken(queue) + HeadPending(queue) ==
      if IsMessage(enqueued[done].proto) then [] else enqueued[done].data
  {
  }

  /** No HTTP byte is lost, repeated or moved: what was taken and what is queued is what was written. */
  lemma HttpConserved(queue: seq<Chunk>, buffered: int, enqueued: seq<Msg>, done: nat, calls: seq<Call>)
    requires History(queue, buffered, enqueued, done, calls)
    ensures Accepted(calls) + Pending(queue) == Bytes(enqueued)
  {
    PendingIsRest(queue, enqueued, done);
  }

  /** Every WebSocket message was handed over once, in order, and the rest is still queued. */
  lemma MessagesConserved(queue: seq<Chunk>, buffered: int, enqueued: seq<Msg>, done: nat, calls: seq<Call>)
    requires History(queue, buffered, enqueued, done, calls)
    ensures Handed(calls) + Messages(enqueued[done..]) == Messages(enqueued)
  {
    MessagesSplit(enqueued, done);
  }

  lemma {:induction false} MessagesSplit(msgs: seq<Msg>, i: nat)
    requires i <= |msgs|
    ensures Messages(msgs[..i]) + Messages(msgs[i..]) == Messages(msgs)
    decreases |msgs|
  {
    if i == |msgs| {
      assert msgs[..i] == msgs;
    } else {
      var front := msgs[..|msgs| - 1];
      MessagesSplit(front, i);
      assert front[..i] == msgs[..i];
      assert msgs[i..][..|msgs[i..]| - 1] == front[i..];
    }
  }

  /** How a turn of the flush loop ends. */
  datatype Outcome = Held | Lost | Sent | Stalled

  class Socket {
    const partial: nat -> bool
    const accept: nat -> int
    const completes: nat -> bool
    var queue: seq<Chunk>
    var buffered: int
    var completed: bool
    var armed: bool
    var turn: nat
    ghost var enqueued: seq<Msg>
    ghost var done: nat
    ghost var calls: seq<Call>
    ghost var failures: nat

    constructor (partial: nat -> bool, accept: nat -> int, completes: nat -> bool)
      ensures Valid() && queue == [] && buffered == 0 && enqueued == [] && calls == [] && failures == 0
      ensures turn == 0 && this.partial == partial && this.accept == accept && this.completes == completes
    {
      this.partial, this.accept, this.completes := partial, accept, completes;
      queue, buffered, completed, armed, turn := [], 0, false, false, 0;
      enqueued, done, calls, failures := [], 0, [], 0;
    }

    ghost predicate Valid()
      reads this
    {
      History(queue, buffered, enqueued, done, calls) && Unfinished(queue)
    }

    /** An environment that takes everything it is offered. */
    ghost predicate Eager() {
      forall i :: !partial(i) && accept(i) >= HTTP_WRITE_CHUNK_MAX
    }

    /** An environment that takes at least one byte whenever it is asked. */
    ghost predicate Willing() {
      forall i :: accept(i) >= 1
    }

    /** What an environment of either kind does next. */
    lemma Surroundings()
      ensures Eager() ==> !partial(turn) && accept(turn + 1) >= 1
      ensures Willing() ==> accept(turn + 1) >= 1
    {
    }

    /** What is left to do: entries, and bytes. */
    function Weight(): int
      reads this
    {
      |queue| + buffered
    }

    lemma WeightIsNat()
      requires Valid()
      ensures Weight() >= 0
    {
      LeftBound(queue, enqueued, done);
    }

    /** Why a flush stopped: a look found writes held back, or its last call accepted nothing. */
    ghost predicate Stopped(from: nat, before: seq<Call>)
      reads this
    {
      || (from < turn && partial(turn - 1))
      || (|before| < |calls| && calls[|calls| - 1].accepted == 0)
    }

    /** `socket_write_queue_clear` */
    method Clear()
      modifies this`queue, this`buffered, this`enqueued, this`done, this`calls, this`failures
      ensures Valid() && queue == [] && buffered == 0
      ensures enqueued == [] && calls == [] && failures == old(failures) + 1
    {
      queue := [];
      buffered := 0;
      enqueued, done, calls, failures := [], 0, [], failures + 1;
    }

    /** What a flush may change: the history goes on, or everything was dropped after a failure. */
    twostate predicate Flushed()
      reads this
    {
      if failures == old(failures) then
        && enqueued == old(enqueued) && old(done) <= done && old(calls) <= calls && buffered <= old(buffered)
      else
        failures == old(failures) + 1 && queue == [] && buffered == 0 && enqueued == [] && calls == []
    }

    /**
     * `lws_write` of some bytes under a protocol: negative on failure, else how many it took.  The
     * call is recorded as one for the entry `wc`.
     */
    method LwsWrite(bytes: seq<byte>, wp: Proto, ghost wc: Chunk) returns (n: int)
      modifies this`turn, this`calls
      ensures n == (if accept(old(turn)) <= |bytes| then accept(old(turn)) else |bytes|) && turn == old(turn) + 1
      ensures calls == old(calls) + (if n >= 0 then [Call(wc.msg, wc.pos, bytes, wp, n)] else [])
    {
      n := if accept(turn) <= |bytes| then accept(turn) else |bytes|;
      turn := turn + 1;
      if n >= 0 {
        calls := calls + [Call(wc.msg, wc.pos, bytes, wp, n)];
      }
    }

    /** The part of a flush that hands over what comes next of an entry. */
    method WriteHead(wc: Chunk) returns (remaining: nat, n: int)
      requires wc.pos <= |wc.msg.data|
      modifies this`turn, this`calls
      ensures remaining == Offer(wc) && turn == old(turn) + 1
      ensures n == if accept(old(turn)) <= remaining then accept(old(turn)) else remaining
      ensures calls == old(calls) + (if n >= 0 then [CallFor(wc, n)] else [])
      ensures n >= 0 ==> calls[|old(calls)|].accepted == n
      ensures Eager() && !IsMessage(wc.msg.proto) ==> n == remaining
      ensures Eager() ==> n >= 0
    {
      remaining := |wc.msg.data| - wc.pos;
      var wp := wc.msg.proto;
      if !IsMessage(wc.msg.proto) && remaining > HTTP_WRITE_CHUNK_MAX {
        remaining := HTTP_WRITE_CHUNK_MAX;
        if wp == HttpFinal {
          wp := Http;
        }
      }
      n := LwsWrite(wc.msg.data[wc.pos..wc.pos + remaining], wp, wc);
    }

    /** One turn of the loop of `socket_flush`. */
    method FlushTurn() returns (o: Outcome)
      requires Valid() && queue != []
      modifies this
      ensures Valid() && armed == old(armed) && turn > old(turn)
      ensures o == Held <==> partial(old(turn))
      ensures o == Held ==> turn == old(turn) + 1 && queue == old(queue)
      ensures o == Lost <==> failures != old(failures)
      ensures o == Lost ==>
                && accept(old(turn) + 1) < 0
                && failures == old(failures) + 1 && queue == [] && buffered == 0 && enqueued == [] && calls == []
      ensures o != Lost ==>
                && enqueued == old(enqueued) && old(done) <= done && old(calls) <= calls && buffered <= old(buffered)
      ensures o == Sent ==> Weight() < old(Weight())
      ensures o == Stalled ==>
                && queue != [] && accept(old(turn) + 1) == 0
                && |old(calls)| < |calls| && calls[|calls| - 1].accepted == 0
    {
      hide History, Left, Unfinished, CallFor;
      HeadFacts(queue, buffered, enqueued, done, calls);
      var held := partial(turn);
      turn := turn + 1;
      if held {
        return Held;
      }
      var wc := queue[0];
      var len := |wc.msg.data|;
      var message := IsMessage(wc.msg.proto);
      ghost var before := calls;
      var remaining, n := WriteHead(wc);
      if n < 0 {
        Clear();
        return Lost;
      }
      HeadMoves(queue, buffered, enqueued, done, before, n);
      wc := wc.(pos := if message then len else wc.pos + n);
      buffered := buffered - if message then remaining else n;
      if wc.pos >= len {
        if wc.msg.proto == HttpFinal && completes(turn) {
          completed := true;
        }
        queue := queue[1..];
        done := done + 1;
        return Sent;
      }
      queue := [wc] + queue[1..];
      return if n == 0 then Stalled else Sent;
    }

    /** `socket_flush` */
    method Flush()
      requires Valid()
      modifies this
      ensures Valid() && Flushed()
      ensures armed == (old(armed) || queue != [])
      ensures Eager() ==> queue == [] && failures == old(failures)
      ensures queue != [] ==> Stopped(old(turn), old(calls))
      ensures old(partial(turn)) ==> queue == old(queue) && failures == old(failures)
      ensures old(queue) == [] ==> turn == old(turn)
      ensures Willing() ==> failures == old(failures) && Weight() <= old(Weight())
      ensures Willing() && old(queue) != [] ==>
                if old(partial(turn)) then turn == old(turn) + 1 else Weight() < old(Weight())
    {
      hide History, Left, Unfinished, Eager, Willing;
      ghost var moved := false;
      while queue != []
        invariant Valid() && failures == old(failures) && Flushed() && armed == old(armed) && turn >= old(turn)
        invariant if moved then Weight() < old(Weight())
                  else turn == old(turn) && queue == old(queue) && buffered == old(buffered)
        invariant moved ==> !old(partial(turn)) && old(queue) != []
        decreases Weight()
      {
        WeightIsNat();
        Surroundings();
        var o := FlushTurn();
        if o == Lost {
          return;
        }
        if o == Held || o == Stalled {
          break;
        }
        moved := true;
        WeightIsNat();
      }
      if queue != [] {
        armed := true;
      }
    }

    /**
     * The writeable callback: a request for it holds for one callback and is used up when that fires;
     * then the dispatcher flushes.
     */
    method Fire()
      requires Valid()
      modifies this
      ensures Valid() && Flushed() && (armed <==> queue != [])
      ensures Eager() ==> queue == [] && failures == old(failures)
      ensures queue != [] ==> Stopped(old(turn), old(calls))
      ensures old(partial(turn)) ==> queue == old(queue) && failures == old(failures)
      ensures old(queue) == [] ==> turn == old(turn)
      ensures Willing() ==> failures == old(failures) && Weight() <= old(Weight())
      ensures Willing() && old(queue) != [] ==>
                if old(partial(turn)) then turn == old(turn) + 1 else Weight() < old(Weight())
    {
      armed := false;
      Flush();
    }

    /**
     * `wsi.write(data, length, proto)`: a length outside the data means all of it, and without a
     * protocol the kind of connection and of data decide.
     */
    method Write(data: seq<byte>, length: Option<int>, proto: Option<Proto>, ws: bool, text: bool) returns (len: nat)
      requires Valid()
      modifies this
      ensures len <= |data| && (length.None? ==> len == |data|)
      ensures length.Some? ==> len == if 0 <= length.value <= |data| then length.value else |data|
      ensures Valid() && armed == (old(armed) || queue != []) && (queue != [] ==> Stopped(old(turn), old(calls)))
      ensures failures == old(failures) ==>
                && enqueued == old(enqueued) + [Msg(data[..len], ProtoFor(proto, ws, text))]
                && old(calls) <= calls && old(done) <= done
      ensures failures != old(failures) ==>
                failures == old(failures) + 1 && queue == [] && enqueued == [] && calls == []
      ensures Eager() ==> queue == [] && failures == old(failures)
      ensures Willing() ==> failures == old(failures)
      ensures old(partial(turn)) ==>
                queue == old(queue) + [Chunk(Msg(data[..len], ProtoFor(proto, ws, text)), 0)]
                && failures == old(failures)
    {
      hide History, Unfinished, Eager, Willing;
      len := if length.Some? && 0 <= length.value <= |data| then length.value else |data|;
      var m := Msg(data[..len], ProtoFor(proto, ws, text));
      Enqueues(queue, buffered, enqueued, done, calls, m);
      AddedUnfinished(queue, m);
      queue := queue + [Chunk(m, 0)];
      enqueued := enqueued + [m];
      buffered := buffered + len;
      Flush();
    }
  }

  lemma RestUnfinished(queue: seq<Chunk>, wc: Chunk)
    requires queue != [] && Unfinished(queue)
    ensures Unfinished(queue[1..]) && (wc.pos < |wc.msg.data| ==> Unfinished([wc] + queue[1..]))
  {
    assert forall k :: 0 <= k < |queue| - 1 ==> queue[1..][k] == queue[k + 1];
  }

  lemma AddedUnfinished(queue: seq<Chunk>, m: Msg)
    requires Unfinished(queue)
    ensures Unfinished(queue + [Chunk(m, 0)])
  {
  }

  function ProtoFor(proto: Option<Proto>, ws: bool, text: bool): Proto {
    if proto.Some? then proto.value else if !ws then Http else if text then Text else Binary
  }

  lemma HeadFacts(queue: seq<Chunk>, buffered: int, enqueued: seq<Msg>, done: nat, calls: seq<Call>)
    requires History(queue, buffered, enqueued, done, calls) && queue != []
    ensures queue[0].pos <= |queue[0].msg.data| && (IsMessage(queue[0].msg.proto) ==> queue[0].pos == 0)
    ensures buffered >= 0
  {
    LeftBound(queue, enqueued, done);
  }
}
