/**
 * The server of the debugger example: `decodeFrame` of examples/debugger/server.js in its loop, over
 * the `ByteQueue` of lib/lws/byte-queue.js, on any bytes.
 *
 * A promise is a slot the queue fills and the decoder empties when it gets to run.  Whether
 * `JSON.parse` accepts a payload is a predicate; what it throws ends the loop.
 */
module DebuggerServer {
  import opened DebuggerFrames
  import opened Numerals
  import opened Seqs
  import opened Wrappers
  import Utf8

  /** The `ByteQueue`; a length that is not a number is `None`. */
  class ByteQueue {
    var buf: seq<byte>
    var closed: bool
    var waiting: Option<Option<nat>>
    /** The promise of the last read, once resolved: some bytes, or `null`. */
    var answer: Option<Option<seq<byte>>>

    constructor ()
      ensures buf == [] && !closed && waiting.None? && answer.None?
    {
      buf, closed, waiting, answer := [], false, None, None;
    }

    /** `#check` */
    method Check()
      modifies this
      ensures closed == old(closed)
      ensures old(waiting.None?) ==> waiting.None? && answer == old(answer) && buf == old(buf)
      ensures old(waiting.Some?) ==> Checked(old(waiting.value), old(buf), old(answer))
    {
      if waiting.None? {
        return;
      }
      var n := waiting.value;
      if n.Some? && |buf| >= n.value {
        answer := Some(Some(buf[..n.value]));
        buf := buf[n.value..];
        waiting := None;
      } else if closed {
        answer := Some(None);
        waiting := None;
      }
    }

    /** What a check makes of a read of `n` bytes that found `before` in the buffer. */
    predicate Checked(n: Option<nat>, before: seq<byte>, unanswered: Option<Option<seq<byte>>>)
      reads this
    {
      if Suffices(n, before) then
        waiting.None? && answer == Some(Some(before[..n.value])) && buf == before[n.value..]
      else if closed then waiting.None? && answer == Some(None) && buf == before
      else waiting == Some(n) && answer == unanswered && buf == before
    }

    method Feed(chunk: seq<byte>)
      modifies this
      ensures closed == old(closed)
      ensures old(waiting.None?) ==> waiting.None? && answer == old(answer) && buf == old(buf) + chunk
      ensures old(waiting.Some?) ==> Checked(old(waiting.value), old(buf) + chunk, old(answer))
    {
      buf := buf + chunk;
      Check();
    }

    method Close()
      modifies this
      ensures closed
      ensures old(waiting.None?) ==> waiting.None? && answer == old(answer) && buf == old(buf)
      ensures old(waiting.Some?) ==> Checked(old(waiting.value), old(buf), old(answer))
    {
      closed := true;
      Check();
    }

    method Read(n: Option<nat>)
      modifies this
      ensures closed == old(closed) && Checked(n, old(buf), old(answer))
    {
      waiting := Some(n);
      Check();
    }
  }

  /** Whether `n` bytes are asked for and there. */
  predicate Suffices(n: Option<nat>, buf: seq<byte>) {
    n.Some? && |buf| >= n.value
  }

  /** Bytes without their last one, if that is a newline: `toText`. */
  function Stripped(b: seq<byte>): seq<byte> {
    if b != [] && b[|b| - 1] == NEWLINE then b[..|b| - 1] else b
  }

  function WithoutNewline(s: string): string {
    if s != "" && s[|s| - 1] == '\n' then s[..|s| - 1] else s
  }

  function WithoutBlanks(s: string): string {
    if s != "" && IsBlank(s[|s| - 1]) then WithoutBlanks(s[..|s| - 1]) else s
  }

  /** `+('0x' + toText(header))`, which skips blanks behind the digits; `None` stands for NaN. */
  function HeaderNumber(header: seq<byte>): Option<nat> {
    var digits := WithoutBlanks(WithoutNewline(Utf8.Lossy(header)));
    if digits != "" && AllHex(digits) then Some(HexValue(digits)) else None
  }

  /** The number in the header of a frame. */
  lemma FrameNumber(header: seq<byte>)
    requires |header| == 9 && header[8] == NEWLINE && AllHex(AsciiText(header[..8]))
    ensures HeaderNumber(header) == Some(HexValue(AsciiText(header[..8])))
  {
    hide HexValue, Utf8.Lossy;
    var digits := AsciiText(header[..8]);
    assert forall k :: 0 <= k < 8 ==> IsHex(digits[k]) && header[k] == digits[k] as int;
    AsciiReads(header, digits + "\n");
    assert WithoutNewline(digits + "\n") == digits;
  }

  // What the loop makes of the bytes that arrive

  /** Why no more is delivered: bytes are missing, the header is no number, or the payload is rejected. */
  datatype End = Short | Stuck | Rejected

  datatype Served = Served(delivered: seq<seq<byte>>, left: seq<byte>, end: End)

  /** The loop over all bytes that arrive. */
  function Serve(accepts: seq<byte> -> bool, s: seq<byte>): Served
    decreases |s|
  {
    if |s| < 9 then Served([], s, Short)
    else
      match HeaderNumber(s[..9])
      case None => Served([], s, Stuck)
      case Some(n) =>
        if |s| < 9 + n then Served([], s, Short)
        else
          var payload := Stripped(s[9..9 + n]);
          if !accepts(payload) then Served([], s, Rejected)
          else Behind([payload], Serve(accepts, s[9 + n..]))
  }

  /** `handed` was delivered before. */
  function Behind(handed: seq<seq<byte>>, r: Served): Served {
    r.(delivered := handed + r.delivered)
  }

  /** The first `n + 9` bytes are a header that states `n`, and a payload that is accepted. */
  predicate Starts(accepts: seq<byte> -> bool, s: seq<byte>, n: nat) {
    9 + n <= |s| && HeaderNumber(s[..9]) == Some(n) && accepts(Stripped(s[9..9 + n]))
  }

  /** Taking `delivered` off `fed`, one accepted payload after the other, leaves `left`. */
  predicate Consumed(accepts: seq<byte> -> bool, fed: seq<byte>, delivered: seq<seq<byte>>, left: seq<byte>)
    decreases |delivered|
  {
    if delivered == [] then fed == left
    else
      && |fed| >= 9 && HeaderNumber(fed[..9]).Some?
      && var n := HeaderNumber(fed[..9]).value;
         && Starts(accepts, fed, n) && delivered[0] == Stripped(fed[9..9 + n])
         && Consumed(accepts, fed[9 + n..], delivered[1..], left)
  }

  lemma {:induction false} ConsumedServe(
    accepts: seq<byte> -> bool, fed: seq<byte>, delivered: seq<seq<byte>>, left: seq<byte>)
    requires Consumed(accepts, fed, delivered, left)
    ensures Serve(accepts, fed) == Behind(delivered, Serve(accepts, left))
    decreases |delivered|
  {
    hide HeaderNumber;
    if delivered == [] {
      assert [] + Serve(accepts, left).delivered == Serve(accepts, left).delivered;
    } else {
      var rest := fed[9 + HeaderNumber(fed[..9]).value..];
      ConsumedServe(accepts, rest, delivered[1..], left);
      assert [delivered[0]] + delivered[1..] == delivered;
      Assoc([delivered[0]], delivered[1..], Serve(accepts, left).delivered);
    }
  }

  lemma {:induction false} ConsumedMore(
    accepts: seq<byte> -> bool, fed: seq<byte>, delivered: seq<seq<byte>>, left: seq<byte>, chunk: seq<byte>)
    requires Consumed(accepts, fed, delivered, left)
    ensures Consumed(accepts, fed + chunk, delivered, left + chunk)
    decreases |delivered|
  {
    hide HeaderNumber;
    if delivered != [] {
      var n := HeaderNumber(fed[..9]).value;
      ConsumedMore(accepts, fed[9 + n..], delivered[1..], left, chunk);
      assert (fed + chunk)[..9] == fed[..9] && (fed + chunk)[9..9 + n] == fed[9..9 + n];
      assert (fed + chunk)[9 + n..] == fed[9 + n..] + chunk;
    }
  }

  lemma {:induction false} ConsumedNext(
    accepts: seq<byte> -> bool, fed: seq<byte>, delivered: seq<seq<byte>>, left: seq<byte>, n: nat)
    requires Consumed(accepts, fed, delivered, left) && Starts(accepts, left, n)
    ensures Consumed(accepts, fed, delivered + [Stripped(left[9..9 + n])], left[9 + n..])
    decreases |delivered|
  {
    hide HeaderNumber;
    var more := delivered + [Stripped(left[9..9 + n])];
    if delivered == [] {
      assert more[1..] == [];
    } else {
      ConsumedNext(accepts, fed[9 + HeaderNumber(fed[..9]).value..], delivered[1..], left, n);
      assert more[1..] == delivered[1..] + [Stripped(left[9..9 + n])];
    }
  }

  // The decoder

  /** What the decoder reads next; `Ended` at the end of the stream, `Failed` at a payload that is rejected. */
  datatype Phase = Header | Payload | Ended | Failed

  ghost function Resolved(answer: Option<Option<seq<byte>>>): seq<byte> {
    if answer.Some? && answer.value.Some? then answer.value.value else []
  }

  /** The read that is under way: waiting for more bytes, or answered. */
  predicate Reading(
    need: Option<nat>, buf: seq<byte>, closed: bool, waiting: Option<Option<nat>>, answer: Option<Option<seq<byte>>>)
  {
    match answer
    case None => waiting == Some(need) && !closed && !Suffices(need, buf)
    case Some(None) => waiting.None? && closed && !Suffices(need, buf)
    case Some(Some(bytes)) => waiting.None? && need == Some(|bytes|)
  }

  /** The frame decoder of the server: `decodeFrame` in a loop over a queue. */
  class FrameDecoder {
    const accepts: seq<byte> -> bool
    const queue: ByteQueue
    var phase: Phase
    /** The payloads passed on. */
    var delivered: seq<seq<byte>>
    ghost var fed: seq<byte>
    /** What was read of the frame that is not yet delivered. */
    ghost var header: seq<byte>

    constructor (accepts: seq<byte> -> bool)
      ensures this.accepts == accepts && Valid()
      ensures fresh(queue) && fed == [] && delivered == [] && !queue.closed
    {
      this.accepts := accepts;
      queue := new ByteQueue();
      phase, delivered, fed, header := Header, [], [], [];
      new;
      queue.Read(Some(9));
    }

    /** The bytes that arrived behind the last payload passed on. */
    ghost function Left(): seq<byte>
      reads this, queue
    {
      header + Resolved(queue.answer) + queue.buf
    }

    ghost predicate Valid()
      reads this, queue
    {
      && Consumed(accepts, fed, delivered, Left())
      && match phase
         case Ended =>
           && queue.closed && queue.waiting.None? && queue.answer.None?
           && Done(accepts, Left()) && Serve(accepts, Left()).end != Rejected
         case Failed =>
           && queue.waiting.None? && queue.answer.None?
           && Done(accepts, Left()) && Serve(accepts, Left()).end == Rejected
         case Header =>
           header == [] && Reading(Some(9), queue.buf, queue.closed, queue.waiting, queue.answer)
         case Payload =>
           && |header| == 9
           && Reading(HeaderNumber(header), queue.buf, queue.closed, queue.waiting, queue.answer)
    }

    /** `onRawRx` */
    method Feed(chunk: seq<byte>)
      requires Valid() && !queue.closed
      modifies this, queue
      ensures Valid() && fed == old(fed) + chunk && delivered == old(delivered) && !queue.closed
    {
      hide Consumed, HeaderNumber, Serve, Done;
      ConsumedMore(accepts, fed, delivered, Left(), chunk);
      FedLeft(header, Resolved(queue.answer), queue.buf, chunk);
      if phase == Failed {
        RejectedMore(accepts, Left(), chunk);
      }
      ghost var need := if queue.waiting.Some? && queue.waiting.value.Some? then queue.waiting.value.value else 0;
      SplitLeft(header, queue.buf + chunk, need);
      queue.Feed(chunk);
      fed := fed + chunk;
    }

    /** `onRawClose` */
    method Close()
      requires Valid()
      modifies queue
      ensures Valid() && queue.closed
    {
      hide Consumed, HeaderNumber, Serve, Done;
      queue.Close();
    }

    /** The decoder goes on with the bytes, or the `null`, of its last read. */
    method Resume()
      requires Valid() && queue.answer.Some?
      modifies this, queue
      ensures Valid() && fed == old(fed) && queue.closed == old(queue.closed) && old(delivered) <= delivered
      ensures match old(phase)
              case Header =>
                (phase == Payload || phase == Ended) && delivered == old(delivered) && Left() == old(Left())
              case Payload =>
                if phase == Header then
                  |delivered| == |old(delivered)| + 1 && |Left()| < |old(Left())|
                else delivered == old(delivered) && Left() == old(Left()) && (phase == Ended || phase == Failed)
              case _ => true
    {
      hide Consumed, HeaderNumber, Serve, Done;
      var got := queue.answer.value;
      queue.answer := None;
      if got.None? {
        assert header + [] + queue.buf == header + queue.buf;
        EndsShort(accepts, header, queue.buf, phase == Payload);
        phase := Ended;
        return;
      }
      if phase == Header {
        header := got.value;
        phase := Payload;
        SplitLeft(header, queue.buf, if HeaderNumber(header).Some? then HeaderNumber(header).value else 0);
        assert [] + got.value + queue.buf == got.value + [] + queue.buf;
        queue.Read(HeaderNumber(got.value));
      } else {
        var text := Stripped(got.value);
        PayloadRead(accepts, header, got.value, queue.buf);
        if !accepts(text) {
          Kept(header, got.value, queue.buf);
          header := header + got.value;
          phase := Failed;
          return;
        }
        ConsumedNext(accepts, fed, delivered, header + got.value + queue.buf, |got.value|);
        delivered := delivered + [text];
        header := [];
        phase := Header;
        SplitLeft(header, queue.buf, 9);
        assert [] + [] + queue.buf == queue.buf;
        queue.Read(Some(9));
      }
    }

    /** Everything the decoder can do before more bytes arrive. */
    method Settle()
      requires Valid()
      modifies this, queue
      ensures Valid() && fed == old(fed) && queue.closed == old(queue.closed) && old(delivered) <= delivered
      ensures queue.answer.None? && Done(accepts, Left())
      ensures queue.closed ==> phase == Ended || phase == Failed
    {
      hide Consumed, HeaderNumber, Serve, Done;
      while queue.answer.Some?
        invariant Valid() && fed == old(fed) && queue.closed == old(queue.closed) && old(delivered) <= delivered
        decreases |Left()|, if phase == Header then 2 else if phase == Payload then 1 else 0
      {
        Resume();
      }
      if phase != Ended && phase != Failed {
        assert header + [] + queue.buf == header + queue.buf;
        EndsShort(accepts, header, queue.buf, phase == Payload);
      }
    }
  }

  /** Nothing can be taken off these bytes. */
  predicate Done(accepts: seq<byte> -> bool, left: seq<byte>) {
    Serve(accepts, left).delivered == []
  }

  lemma FedLeft(header: seq<byte>, resolved: seq<byte>, buf: seq<byte>, chunk: seq<byte>)
    ensures header + resolved + buf + chunk == header + resolved + (buf + chunk)
  {
  }

  lemma Kept(header: seq<byte>, got: seq<byte>, buf: seq<byte>)
    ensures header + got + buf == (header + got) + [] + buf
  {
  }

  lemma SplitLeft(header: seq<byte>, buf: seq<byte>, n: nat)
    ensures n <= |buf| ==> header + buf[..n] + buf[n..] == header + [] + buf
  {
  }

  /** A read that found too little, or that no number of bytes can answer. */
  lemma EndsShort(accepts: seq<byte> -> bool, header: seq<byte>, buf: seq<byte>, payload: bool)
    requires if payload then |header| == 9 && !Suffices(HeaderNumber(header), buf) else header == [] && |buf| < 9
    ensures Done(accepts, header + buf) && Serve(accepts, header + buf).end != Rejected
  {
    hide HeaderNumber;
    if payload {
      assert (header + buf)[..9] == header;
    } else {
      assert header + buf == buf;
    }
  }

  /** A payload that was read follows its header. */
  lemma PayloadRead(accepts: seq<byte> -> bool, header: seq<byte>, got: seq<byte>, buf: seq<byte>)
    requires |header| == 9 && HeaderNumber(header) == Some(|got|)
    ensures
      var left := header + got + buf;
      if accepts(Stripped(got)) then
        Starts(accepts, left, |got|) && Stripped(left[9..9 + |got|]) == Stripped(got) && left[9 + |got|..] == buf
      else Done(accepts, left) && Serve(accepts, left).end == Rejected
  {
    hide HeaderNumber;
    var left := header + got + buf;
    assert left[..9] == header && left[9..9 + |got|] == got && left[9 + |got|..] == buf;
  }

  lemma RejectedMore(accepts: seq<byte> -> bool, left: seq<byte>, chunk: seq<byte>)
    requires Done(accepts, left) && Serve(accepts, left).end == Rejected
    ensures Done(accepts, left + chunk) && Serve(accepts, left + chunk).end == Rejected
  {
    hide HeaderNumber;
    assert (left + chunk)[..9] == left[..9];
    var n := HeaderNumber(left[..9]).value;
    assert (left + chunk)[9..9 + n] == left[9..9 + n];
  }

  /** A header that is no number: whatever arrives later, nothing more is delivered. */
  lemma StuckMore(accepts: seq<byte> -> bool, left: seq<byte>, later: seq<byte>)
    requires |left| >= 9 && HeaderNumber(left[..9]).None?
    ensures Serve(accepts, left + later) == Served([], left + later, Stuck)
  {
    hide HeaderNumber;
    assert (left + later)[..9] == left[..9];
  }

  /** Such a header: nine bytes without a digit. */
  lemma NoNumber(accepts: seq<byte> -> bool, later: seq<byte>)
    ensures
      var header := [122, 122, 122, 122, 122, 122, 122, 122, NEWLINE];
      Serve(accepts, header + later) == Served([], header + later, Stuck)
  {
    hide Serve, Utf8.Lossy;
    var header := [122, 122, 122, 122, 122, 122, 122, 122, NEWLINE];
    AsciiReads(header, "zzzzzzzz\n");
    assert WithoutNewline("zzzzzzzz\n") == "zzzzzzzz";
    assert WithoutBlanks("zzzzzzzz") == "zzzzzzzz";
    assert header[..9] == header;
    StuckMore(accepts, header, later);
  }

  // Whole streams

  /** Any bytes, cut in any way, and then the end of the connection. */
  method Receive(accepts: seq<byte> -> bool, chunks: seq<seq<byte>>) returns (delivered: seq<seq<byte>>)
    ensures delivered == Serve(accepts, Flatten(chunks)).delivered
  {
    hide Consumed, Flatten, Serve, HeaderNumber, Done;
    var r := new FrameDecoder(accepts);
    assert chunks[0..] == chunks && r.fed + Flatten(chunks) == Flatten(chunks);
    for i := 0 to |chunks|
      invariant r.Valid() && r.accepts == accepts && r.fed + Flatten(chunks[i..]) == Flatten(chunks)
      invariant !r.queue.closed && fresh(r) && fresh(r.queue)
    {
      NextChunk(r.fed, chunks, i, Flatten(chunks));
      r.Feed(chunks[i]);
      r.Settle();
    }
    StreamEnds(r.fed, chunks, Flatten(chunks));
    r.Close();
    r.Settle();
    ConsumedServe(accepts, r.fed, r.delivered, r.Left());
    NothingBehind(accepts, r.delivered, r.Left());
    return r.delivered;
  }

  lemma NothingBehind(accepts: seq<byte> -> bool, delivered: seq<seq<byte>>, left: seq<byte>)
    requires Done(accepts, left)
    ensures Behind(delivered, Serve(accepts, left)).delivered == delivered
  {
    hide Serve;
  }

  // Streams of frames

  /** In a stream of frames the next payloads are delivered, until a frame is incomplete or rejected. */
  lemma {:induction false} ServeFrames(
    accepts: seq<byte> -> bool, payloads: seq<seq<byte>>, fed: seq<byte>, done: nat, left: seq<byte>)
    requires done <= |payloads| && Decoded(payloads, fed, done, payloads[..done], left)
    ensures
      var r := Serve(accepts, left);
      var n := done + |r.delivered|;
      && n <= |payloads| && r.delivered == payloads[done..n] && Decoded(payloads, fed, n, payloads[..n], r.left)
      && (forall k :: done <= k < n ==> accepts(payloads[k]))
      && match r.end
         case Short => Incomplete(payloads, n, r.left)
         case Rejected => n < |payloads| && !accepts(payloads[n]) && Complete(r.left, payloads[n])
         case Stuck => false
    decreases |left|
  {
    hide Decoded, Frame, Incomplete, Complete, HexValue, HeaderNumber;
    if |left| < 9 {
      ShortLeft(payloads, fed, done, payloads[..done], left);
    } else {
      var p := FrameAhead(payloads, fed, done, left);
      if |left| >= 10 + |p| && accepts(p) {
        OneDelivered(payloads, fed, done, payloads[..done], left);
        assert payloads[..done] + [p] == payloads[..done + 1];
        ServeFrames(accepts, payloads, fed, done + 1, left[10 + |p|..]);
      }
    }
  }

  /** The header at the front of the stream, and the payload behind it. */
  lemma FrameAhead(payloads: seq<seq<byte>>, fed: seq<byte>, done: nat, left: seq<byte>) returns (p: seq<byte>)
    requires done <= |payloads| && Decoded(payloads, fed, done, payloads[..done], left) && |left| >= 9
    ensures done < |payloads| && p == payloads[done] && |Frame(p)| == 10 + |p|
    ensures HeaderNumber(left[..9]) == Some(|p| + 1)
    ensures |left| < 10 + |p| ==> Incomplete(payloads, done, left)
    ensures |left| >= 10 + |p| ==> Complete(left, p) && Stripped(left[9..10 + |p|]) == p
  {
    hide Decoded, Frame, Incomplete, Complete, HexValue, HeaderNumber;
    HeaderArrived(payloads, fed, done, payloads[..done], left);
    p := payloads[done];
    assert left[..9][..8] == left[..8];
    FrameNumber(left[..9]);
    if |left| >= 10 + |p| {
      assert left[9..10 + |p|] == p + [NEWLINE];
    }
  }

  /**
   * The server receives the frames of any payloads, cut in any way, and then the connection closes.
   * It passes on the payloads up to the first that is no JSON, hence all of them if and only if each
   * is JSON.
   */
  method ReceiveFrames(accepts: seq<byte> -> bool, chunks: seq<seq<byte>>, ghost payloads: seq<seq<byte>>)
    returns (delivered: seq<seq<byte>>)
    requires Framable(payloads) && Flatten(chunks) == Frames(payloads)
    ensures delivered == payloads[..Taken(accepts, payloads)]
    ensures delivered == payloads <==> forall k :: 0 <= k < |payloads| ==> accepts(payloads[k])
  {
    delivered := Receive(accepts, chunks);
    AllServed(accepts, payloads);
  }

  lemma AllServed(accepts: seq<byte> -> bool, payloads: seq<seq<byte>>)
    requires Framable(payloads)
    ensures
      var r := Serve(accepts, Frames(payloads));
      && r.delivered == payloads[..Taken(accepts, payloads)] && r.left == Frames(payloads[Taken(accepts, payloads)..])
      && (r.delivered == payloads <==> forall k :: 0 <= k < |payloads| ==> accepts(payloads[k]))
  {
    hide Decoded, Incomplete, Complete, Serve, Frames, Taken;
    var fed := Frames(payloads);
    WholeStream(payloads);
    ServeFrames(accepts, payloads, fed, 0, fed);
    var r := Serve(accepts, fed);
    if r.end == Short {
      AllDelivered(payloads, fed, |r.delivered|, payloads[..|r.delivered|], r.left);
    }
    StreamLeft(payloads, fed, |r.delivered|, payloads[..|r.delivered|], r.left);
    TakenIs(accepts, payloads, |r.delivered|);
  }

  /** The payload `x` is no JSON: the loop ends there, and no later frame is decoded. */
  method NotJsonEnds(
    accepts: seq<byte> -> bool, chunks: seq<seq<byte>>, ghost before: seq<seq<byte>>, ghost behind: seq<seq<byte>>)
    returns (delivered: seq<seq<byte>>)
    requires !accepts([120]) && forall k :: 0 <= k < |before| ==> accepts(before[k])
    requires Framable(before + [[120]] + behind) && Flatten(chunks) == Frames(before + [[120]] + behind)
    ensures delivered == before
  {
    hide Framable, Flatten, Frames, Taken;
    TakenUpTo(accepts, before, [120], behind);
    delivered := ReceiveFrames(accepts, chunks, before + [[120]] + behind);
    assert (before + [[120]] + behind)[..|before|] == before;
  }
}
