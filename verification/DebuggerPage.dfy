/**
 * The receiving page of the debugger example: `decodeFrames` and the text messages of
 * examples/debugger/demo.js.
 *
 * Whether `onFrame` returns normally is a predicate on the payload: it throws, for one, on the
 * payload `null`, whose type it asks for.  Buffers hold any bytes at all.
 */
module DebuggerPage {
  import opened DebuggerFrames
  import opened Numerals
  import opened Seqs
  import opened Wrappers
  import Utf8

  type Handler = seq<byte> -> bool

  // One turn of the loop

  /** An end of `subarray` in a buffer of `n` bytes; NaN counts as 0. */
  function Relative(i: int, n: nat): (j: nat)
    ensures j <= n
  {
    if n + i < 0 then 0 else if i < 0 then n + i else if i < n then i else n
  }

  /** `b.subarray(from, to)` */
  function Subarray(b: seq<byte>, from: int, to: int): seq<byte> {
    var i, j := Relative(from, |b|), Relative(to, |b|);
    if i <= j then b[i..j] else []
  }

  /** The length a header states, `None` for NaN. */
  function Stated(buf: seq<byte>): Option<int>
    requires |buf| >= 8
  {
    ParseHexInt(Utf8.Lossy(buf[..8]))
  }

  /** A turn leaves the loop to wait for more, or hands a payload over and goes on with the rest. */
  datatype Turn = Waits | Hands(payload: seq<byte>, rest: seq<byte>)

  function PageTurn(buf: seq<byte>): Turn {
    if |buf| < 9 then Waits
    else
      match Stated(buf)
      case None => Hands(Subarray(buf, 9, 0), Subarray(buf, 0, |buf|))
      case Some(len) =>
        if |buf| < 9 + len then Waits else Hands(Subarray(buf, 9, 9 + len - 1), Subarray(buf, 9 + len, |buf|))
  }

  /** A header that states no length, or one that takes nothing off the buffer. */
  predicate Sticks(buf: seq<byte>) {
    && |buf| >= 9
    && match Stated(buf)
       case None => true
       case Some(len) => len == -9 || 9 + len <= -|buf|
  }

  /** A turn makes the buffer shorter, or leaves it as it is at a header that sticks. */
  lemma TurnShrinks(buf: seq<byte>)
    requires PageTurn(buf).Hands?
    ensures Sticks(buf) ==> PageTurn(buf).rest == buf
    ensures !Sticks(buf) ==> |PageTurn(buf).rest| < |buf|
  {
    hide Stated;
  }

  lemma StuckTurn(buf: seq<byte>)
    requires Sticks(buf)
    ensures PageTurn(buf).Hands?
  {
    hide Stated;
  }

  // When the loop ends

  /** The buffer before turn `n`; `None` once the loop was left. */
  function After(accepts: Handler, buf: seq<byte>, n: nat): Option<seq<byte>> {
    if n == 0 then Some(buf)
    else
      var b :- After(accepts, buf, n - 1);
      Next(accepts, b)
  }

  function Next(accepts: Handler, buf: seq<byte>): Option<seq<byte>> {
    match PageTurn(buf)
    case Waits => None
    case Hands(payload, rest) => if accepts(payload) then Some(rest) else None
  }

  ghost predicate Ends(accepts: Handler, buf: seq<byte>) {
    exists n: nat :: After(accepts, buf, n).None?
  }

  ghost predicate Reaches(accepts: Handler, buf: seq<byte>, b: seq<byte>) {
    exists n: nat :: After(accepts, buf, n) == Some(b)
  }

  /** The header sticks and its payload, with which nothing is wrong, is handed over for ever. */
  predicate Spins(accepts: Handler, buf: seq<byte>) {
    Sticks(buf) && accepts(PageTurn(buf).payload)
  }

  lemma {:induction false} AfterNext(accepts: Handler, buf: seq<byte>, n: nat)
    requires Next(accepts, buf).Some?
    ensures After(accepts, buf, n + 1) == After(accepts, Next(accepts, buf).value, n)
  {
    hide Next;
    if n == 0 {
      assert After(accepts, buf, 0) == Some(buf);
    } else {
      AfterNext(accepts, buf, n - 1);
    }
  }

  lemma {:induction false} SpinsOn(accepts: Handler, buf: seq<byte>, n: nat)
    requires Spins(accepts, buf)
    ensures After(accepts, buf, n) == Some(buf)
  {
    hide Stated, Subarray;
    StuckTurn(buf);
    TurnShrinks(buf);
    if n > 0 {
      SpinsOn(accepts, buf, n - 1);
    }
  }

  lemma {:induction false} AfterSum(accepts: Handler, buf: seq<byte>, n: nat, m: nat)
    requires After(accepts, buf, n).Some?
    ensures After(accepts, buf, n + m) == After(accepts, After(accepts, buf, n).value, m)
  {
    hide Next;
    if m > 0 {
      AfterSum(accepts, buf, n, m - 1);
    }
  }

  lemma {:induction false} StaysLeft(accepts: Handler, buf: seq<byte>, n: nat, m: nat)
    requires After(accepts, buf, n).None? && n <= m
    ensures After(accepts, buf, m).None?
    decreases m
  {
    hide Next;
    if n < m {
      StaysLeft(accepts, buf, n, m - 1);
    }
  }

  /** The loop of the page ends, for any buffer, exactly when it reaches no buffer at which it spins. */
  lemma EndsIff(accepts: Handler, buf: seq<byte>)
    ensures Ends(accepts, buf) <==> forall b :: Reaches(accepts, buf, b) ==> !Spins(accepts, b)
  {
    hide Spins, After;
    if Ends(accepts, buf) {
      forall b | Reaches(accepts, buf, b)
        ensures !Spins(accepts, b)
      {
        if Spins(accepts, b) {
          var n: nat :| After(accepts, buf, n) == Some(b);
          var m: nat :| After(accepts, buf, m).None?;
          AfterSum(accepts, buf, n, m);
          SpinsOn(accepts, b, m);
          StaysLeft(accepts, buf, m, n + m);
          assert false;
        }
      }
    }
    RunEnds(accepts, buf);
  }

  // What a run of the loop does

  datatype Outcome = Waiting | Threw | Spinning

  /** The payloads handled, the buffer left, and whether the loop returned, threw, or does neither. */
  datatype Run = Run(delivered: seq<seq<byte>>, left: seq<byte>, outcome: Outcome)

  function PageRun(accepts: Handler, buf: seq<byte>): Run
    decreases |buf|
  {
    match PageTurn(buf)
    case Waits => Run([], buf, Waiting)
    case Hands(payload, rest) =>
      if !accepts(payload) then Run([], buf, Threw)
      else if Sticks(buf) then Run([], buf, Spinning)
      else
        TurnShrinks(buf);
        var r := PageRun(accepts, rest);
        Run([payload] + r.delivered, r.left, r.outcome)
  }

  /** A run goes on after `handed` was delivered. */
  function Behind(handed: seq<seq<byte>>, r: Run): Run {
    r.(delivered := handed + r.delivered)
  }

  /** One turn of a run. */
  lemma RunStep(accepts: Handler, handed: seq<seq<byte>>, buf: seq<byte>)
    ensures PageTurn(buf).Waits? ==> PageRun(accepts, buf) == Run([], buf, Waiting)
    ensures PageTurn(buf).Hands? && !accepts(PageTurn(buf).payload) ==> PageRun(accepts, buf) == Run([], buf, Threw)
    ensures Spins(accepts, buf) ==> PageRun(accepts, buf) == Run([], buf, Spinning) && PageTurn(buf).rest == buf
    ensures PageTurn(buf).Hands? && accepts(PageTurn(buf).payload) && !Spins(accepts, buf) ==>
              && |PageTurn(buf).rest| < |buf|
              && Behind(handed, PageRun(accepts, buf)) ==
                   Behind(handed + [PageTurn(buf).payload], PageRun(accepts, PageTurn(buf).rest))
  {
    hide PageTurn, Sticks;
    if Sticks(buf) {
      StuckTurn(buf);
    }
    if PageTurn(buf).Hands? {
      TurnShrinks(buf);
      var payload, r := PageTurn(buf).payload, PageRun(accepts, buf);
      if !Sticks(buf) && accepts(payload) {
        Assoc(handed, [payload], PageRun(accepts, PageTurn(buf).rest).delivered);
      }
    }
  }

  lemma RunStart(r: Run)
    ensures Behind([], r) == r && [] + r.delivered == r.delivered
  {
  }

  /** Whether the loop ends can be told from what a run finds. */
  lemma {:induction false} RunEnds(accepts: Handler, buf: seq<byte>)
    ensures PageRun(accepts, buf).outcome == Spinning ==> exists b :: Reaches(accepts, buf, b) && Spins(accepts, b)
    ensures PageRun(accepts, buf).outcome != Spinning ==> Ends(accepts, buf)
    decreases |buf|
  {
    assert After(accepts, buf, 0) == Some(buf);
    assert After(accepts, buf, 1) == Next(accepts, buf);
    if Next(accepts, buf).Some? {
      if Sticks(buf) {
        assert Reaches(accepts, buf, buf) && Spins(accepts, buf);
      } else {
        hide Spins, After;
        var rest := PageTurn(buf).rest;
        TurnShrinks(buf);
        RunEnds(accepts, rest);
        if PageRun(accepts, buf).outcome == Spinning {
          var b :| Reaches(accepts, rest, b) && Spins(accepts, b);
          var n: nat :| After(accepts, rest, n) == Some(b);
          AfterNext(accepts, buf, n);
          assert Reaches(accepts, buf, b);
        } else {
          var n: nat :| After(accepts, rest, n).None?;
          AfterNext(accepts, buf, n);
        }
      }
    }
  }

  /** Nine bytes without a digit: every turn hands over an empty payload and changes nothing. */
  lemma NoDigits(accepts: Handler, n: nat)
    requires accepts([])
    ensures
      var buf := [122, 122, 122, 122, 122, 122, 122, 122, NEWLINE];
      PageTurn(buf) == Hands([], buf) && After(accepts, buf, n) == Some(buf) && !Ends(accepts, buf)
  {
    var buf := [122, 122, 122, 122, 122, 122, 122, 122, NEWLINE];
    HeaderText(buf, "zzzzzzzz");
    assert AfterBlanks("zzzzzzzz") == "zzzzzzzz";
    assert LeadingHex("zzzzzzzz") == "";
    TurnShrinks(buf);
    forall m: nat
      ensures After(accepts, buf, m) == Some(buf)
    {
      SpinsOn(accepts, buf, m);
    }
  }

  lemma MinusNineParses()
    ensures ParseHexInt("-0000009") == Some(-9)
  {
    hide HexValue, LeadingHex, Rounded;
    var digits := "0000009";
    assert "-0000009"[1..] == digits;
    LeadingHexAll(digits);
    RoundedSmall(9);
    LeadingZeros(6, "9");
    assert Zeros(6) + "9" == digits;
    NineReads();
  }

  lemma NineReads()
    ensures HexValue("9") == 9
  {
    assert "9"[..0] == "";
  }

  /** A length of -9 takes nothing off the buffer either. */
  lemma MinusNine(buf: seq<byte>)
    requires |buf| >= 9 && buf[..8] == [45, 48, 48, 48, 48, 48, 48, 57]
    ensures Stated(buf) == Some(-9) && Sticks(buf) && PageTurn(buf).rest == buf
  {
    hide ParseHexInt, Utf8.Lossy;
    var text := "-0000009";
    assert forall k :: 0 <= k < 8 ==> buf[k] == buf[..8][k];
    HeaderText(buf, text);
    MinusNineParses();
    StuckTurn(buf);
    TurnShrinks(buf);
  }

  /** The text of a header of ASCII characters. */
  lemma HeaderText(buf: seq<byte>, text: string)
    requires |buf| >= 8 && |text| == 8
    requires forall k :: 0 <= k < 8 ==> text[k] as int < 0x80 && buf[k] == text[k] as int
    ensures Utf8.Lossy(buf[..8]) == text
  {
    AsciiReads(buf[..8], text);
  }

  // Streams of frames

  /** In a stream of frames a turn waits for the rest of a frame, or hands over its payload. */
  lemma TurnOnFrames(payloads: seq<seq<byte>>, fed: seq<byte>, done: nat, delivered: seq<seq<byte>>, left: seq<byte>)
    requires Decoded(payloads, fed, done, delivered, left)
    ensures PageTurn(left).Waits? ==> Incomplete(payloads, done, left)
    ensures PageTurn(left).Hands? ==>
              && !Sticks(left) && done < |payloads| && Complete(left, payloads[done])
              && PageTurn(left) == Hands(payloads[done], left[|Frame(payloads[done])|..])
  {
    hide Decoded, Frame, Incomplete, HexValue, ParseHexInt, Complete;
    if |left| < 9 {
      ShortLeft(payloads, fed, done, delivered, left);
    } else {
      HeaderArrived(payloads, fed, done, delivered, left);
      var text := AsciiText(left[..8]);
      HeaderText(left, text);
      InRange(payloads, fed, done, delivered, left);
      DigitsParse(text);
    }
  }

  /** A run over what arrived delivers the next payloads, until a frame is incomplete or rejected. */
  lemma {:induction false} RunOnFrames(
    accepts: Handler, payloads: seq<seq<byte>>, fed: seq<byte>, done: nat, left: seq<byte>)
    requires done <= |payloads| && Decoded(payloads, fed, done, payloads[..done], left)
    ensures
      var r := PageRun(accepts, left);
      var n := done + |r.delivered|;
      && n <= |payloads| && r.delivered == payloads[done..n] && Decoded(payloads, fed, n, payloads[..n], r.left)
      && (forall k :: done <= k < n ==> accepts(payloads[k]))
      && match r.outcome
         case Waiting => Incomplete(payloads, n, r.left)
         case Threw => n < |payloads| && !accepts(payloads[n]) && Complete(r.left, payloads[n])
         case Spinning => false
    decreases |left|
  {
    hide Decoded, Frame, Incomplete, Complete, PageTurn, Sticks;
    TurnOnFrames(payloads, fed, done, payloads[..done], left);
    if PageTurn(left).Hands? && accepts(payloads[done]) {
      OneDelivered(payloads, fed, done, payloads[..done], left);
      assert payloads[..done] + [payloads[done]] == payloads[..done + 1];
      TurnShrinks(left);
      RunOnFrames(accepts, payloads, fed, done + 1, PageTurn(left).rest);
    }
  }

  /** A rejected frame stays at the front of the buffer: whatever arrives later, it is tried again. */
  lemma RejectedAgain(accepts: Handler, payload: seq<byte>, later: seq<byte>)
    requires |payload| + 1 < 0x1_0000_0000 && !accepts(payload)
    ensures PageRun(accepts, Frame(payload) + later) == Run([], Frame(payload) + later, Threw)
  {
    hide Frame, HexValue, ParseHexInt;
    var left := Frame(payload) + later;
    FrameShape(payload);
    var text := AsciiText(Frame(payload)[..8]);
    assert left[..8] == Frame(payload)[..8];
    HeaderText(left, text);
    DigitsParse(text);
    assert left[9..9 + |payload|] == Frame(payload)[9..9 + |payload|];
  }

  /** The text of a JSON `null`, at which `onFrame` throws. */
  const NULL_TEXT: seq<byte> := [110, 117, 108, 108]

  /** A payload `null` ends the traffic: nothing behind it is ever handled. */
  lemma NullStays(accepts: Handler, before: seq<seq<byte>>, behind: seq<seq<byte>>, later: seq<byte>)
    requires !accepts(NULL_TEXT) && forall k :: 0 <= k < |before| ==> accepts(before[k])
    ensures Taken(accepts, before + [NULL_TEXT] + behind) == |before|
    ensures PageRun(accepts, Frame(NULL_TEXT) + later) == Run([], Frame(NULL_TEXT) + later, Threw)
  {
    hide Frame;
    TakenUpTo(accepts, before, NULL_TEXT, behind);
    RejectedAgain(accepts, NULL_TEXT, later);
  }

  /** `textBuf` and `decodeFrames` of the page. */
  class TextReceiver {
    const accepts: Handler
    var textBuf: seq<byte>
    /** The payloads `onFrame` has handled. */
    var delivered: seq<seq<byte>>

    constructor (accepts: Handler)
      ensures this.accepts == accepts && delivered == [] && textBuf == []
    {
      this.accepts := accepts;
      textBuf, delivered := [], [];
    }

    /**
     * `decodeFrames`.  Where a turn would change nothing the loop of the page goes on for ever; here
     * that is its outcome.
     */
    method DecodeFrames() returns (outcome: Outcome)
      modifies this`textBuf, this`delivered
      ensures
        var r := PageRun(accepts, old(textBuf));
        delivered == old(delivered) + r.delivered && textBuf == r.left && outcome == r.outcome
    {
      hide Stated, Subarray, Spins, PageRun;
      ghost var handed: seq<seq<byte>> := [];
      RunStart(PageRun(accepts, textBuf));
      while true
        invariant delivered == old(delivered) + handed
        invariant Behind(handed, PageRun(accepts, textBuf)) == PageRun(accepts, old(textBuf))
        decreases |textBuf|
      {
        RunStep(accepts, handed, textBuf);
        if |textBuf| < 9 {
          return Waiting;
        }
        var len := Stated(textBuf);
        if len.Some? && |textBuf| < 9 + len.value {
          return Waiting;
        }
        var total := if len.Some? then 9 + len.value else 0;
        var payload := Subarray(textBuf, 9, if len.Some? then total - 1 else 0);
        if !accepts(payload) {
          return Threw;
        }
        var rest := Subarray(textBuf, total, |textBuf|);
        if rest == textBuf {
          return Spinning;
        }
        delivered := delivered + [payload];
        handed := handed + [payload];
        textBuf := rest;
      }
    }

    /** `onmessage` for a text message. */
    method OnMessage(chunk: seq<byte>) returns (outcome: Outcome)
      modifies this`textBuf, this`delivered
      ensures
        var r := PageRun(accepts, old(textBuf) + chunk);
        delivered == old(delivered) + r.delivered && textBuf == r.left && outcome == r.outcome
    {
      textBuf := textBuf + chunk;
      outcome := DecodeFrames();
    }
  }

  /**
   * The page receives the frames of any payloads, cut in any way.  It handles the payloads up to the
   * first that `onFrame` throws at, hence all of them if and only if it throws at none.
   */
  method ReceiveText(accepts: Handler, chunks: seq<seq<byte>>, ghost payloads: seq<seq<byte>>)
    returns (delivered: seq<seq<byte>>, left: seq<byte>)
    requires Framable(payloads) && Flatten(chunks) == Frames(payloads)
    ensures delivered == payloads[..Taken(accepts, payloads)] && left == Frames(payloads[Taken(accepts, payloads)..])
    ensures delivered == payloads <==> forall k :: 0 <= k < |payloads| ==> accepts(payloads[k])
  {
    hide Decoded, Flatten, Frames, Incomplete, PageRun, Complete, Taken;
    var r := new TextReceiver(accepts);
    NothingDelivered(payloads);
    ghost var fed: seq<byte> := [];
    ghost var done: nat := 0;
    var outcome := Waiting;
    assert chunks[0..] == chunks && fed + Flatten(chunks) == Flatten(chunks);
    for i := 0 to |chunks|
      invariant r.accepts == accepts && fed + Flatten(chunks[i..]) == Frames(payloads) && fresh(r)
      invariant done <= |payloads| && r.delivered == payloads[..done]
      invariant Decoded(payloads, fed, done, r.delivered, r.textBuf)
      invariant forall k :: 0 <= k < done ==> accepts(payloads[k])
      invariant match outcome
                case Waiting => Incomplete(payloads, done, r.textBuf)
                case Threw => done < |payloads| && !accepts(payloads[done])
                case Spinning => false
    {
      NextChunk(fed, chunks, i, Frames(payloads));
      MoreFed(payloads, fed, done, r.delivered, r.textBuf, chunks[i]);
      fed := fed + chunks[i];
      RunOnFrames(accepts, payloads, fed, done, r.textBuf + chunks[i]);
      ghost var more := |PageRun(accepts, r.textBuf + chunks[i]).delivered|;
      outcome := r.OnMessage(chunks[i]);
      assert payloads[..done] + payloads[done..done + more] == payloads[..done + more];
      done := done + more;
    }
    StreamEnds(fed, chunks, Frames(payloads));
    if outcome == Waiting {
      AllDelivered(payloads, fed, done, r.delivered, r.textBuf);
    }
    StreamLeft(payloads, fed, done, r.delivered, r.textBuf);
    TakenIs(accepts, payloads, done);
    return r.delivered, r.textBuf;
  }
}
