/**
 * Length-prefixed frames of the debugger example: `frameMessage` of examples/debugger/server.js, and
 * how far a stream of frames was decoded, for the decoders of the server and of the page.
 *
 * Payloads are bytes, the UTF-8 text of a message.
 */
module DebuggerFrames {
  import opened Numerals
  import opened Seqs
  import opened Wrappers
  import Utf8

  // Frames

  const NEWLINE: byte := 10

  function Zeros(n: nat): (z: string)
    ensures |z| == n && forall k :: 0 <= k < n ==> z[k] == '0'
  {
    seq(n, k => '0')
  }

  /** `padStart(8, '0')` */
  function Pad8(s: string): (t: string)
    ensures |s| <= 8 ==> |t| == 8
  {
    if |s| >= 8 then s else Zeros(8 - |s|) + s
  }

  function AsciiBytes(s: string): (b: seq<byte>)
    requires AllHex(s)
    ensures |b| == |s|
  {
    seq(|s|, k requires 0 <= k < |s| => s[k] as int)
  }

  function AsciiText(b: seq<byte>): (s: string)
    ensures |s| == |b|
  {
    seq(|b|, k requires 0 <= k < |b| => b[k] as char)
  }

  /** The eight digits of a length; more when it has more. */
  function LengthText(n: nat): (t: string)
    ensures AllHex(t)
  {
    Pad8(Hex(n))
  }

  /** `frameMessage(json, byteLength)` for the bytes of `json`. */
  function Frame(payload: seq<byte>): seq<byte> {
    AsciiBytes(LengthText(|payload| + 1)) + [NEWLINE] + payload + [NEWLINE]
  }

  function Frames(payloads: seq<seq<byte>>): seq<byte> {
    FlatMap(Frame, payloads)
  }

  /** Payloads whose length fits the eight digits. */
  predicate Framable(payloads: seq<seq<byte>>) {
    forall k :: 0 <= k < |payloads| ==> |payloads[k]| + 1 < 0x1_0000_0000
  }

  /** ASCII bytes as the decoder of text reads them. */
  lemma AsciiReads(b: seq<byte>, text: string)
    requires |b| == |text| && forall k :: 0 <= k < |b| ==> text[k] as int < 0x80 && b[k] == text[k] as int
    ensures Utf8.Lossy(b) == text
  {
    hide Utf8.Encode, Utf8.Lossy;
    Utf8.EncodeAscii(text);
    assert b == Utf8.Encode(text);
    Utf8.LossyEncode(text);
  }

  // Reading a length back

  function Pow16(k: nat): nat {
    if k == 0 then 1 else 16 * Pow16(k - 1)
  }

  lemma {:induction false} HexLength(n: nat, k: nat)
    requires n < Pow16(k) && k > 0
    ensures |Hex(n)| <= k
    decreases k
  {
    if n >= 16 {
      HexLength(Sixteenth(n), k - 1);
    }
  }

  lemma {:induction false} LeadingZeros(z: nat, s: string)
    requires AllHex(s)
    ensures AllHex(Zeros(z) + s) && HexValue(Zeros(z) + s) == HexValue(s)
    decreases |s| + z
  {
    var t := Zeros(z) + s;
    if s != "" {
      assert t[..|t| - 1] == Zeros(z) + s[..|s| - 1];
      LeadingZeros(z, s[..|s| - 1]);
    } else if z > 0 {
      assert t[..|t| - 1] == Zeros(z - 1) + "";
      LeadingZeros(z - 1, "");
    }
  }

  lemma LengthReads(n: nat)
    requires n < 0x1_0000_0000
    ensures |LengthText(n)| == 8 && HexValue(LengthText(n)) == n
    ensures AsciiText(AsciiBytes(LengthText(n))) == LengthText(n)
  {
    hide Hex, HexValue;
    assert Pow16(8) == 0x1_0000_0000 by {
      assert Pow16(4) == 0x10000;
    }
    HexLength(n, 8);
    HexValueOfHex(n);
    LeadingZeros(8 - |Hex(n)|, Hex(n));
  }

  /** What any beginning of a frame that is long enough says about the rest of it. */
  lemma FrameShape(p: seq<byte>)
    requires |p| + 1 < 0x1_0000_0000
    ensures |Frame(p)| == 9 + (|p| + 1)
    ensures AllHex(AsciiText(Frame(p)[..8])) && HexValue(AsciiText(Frame(p)[..8])) == |p| + 1
    ensures Frame(p)[8] == NEWLINE && Frame(p)[9..9 + |p|] == p && Frame(p)[9 + |p|] == NEWLINE
  {
    hide LengthText, HexValue;
    LengthReads(|p| + 1);
    assert Frame(p)[..8] == AsciiBytes(LengthText(|p| + 1));
  }

  // The stream and how far it was decoded

  /**
   * `fed` is a beginning of the frames of `payloads`; the first `done` of them are delivered, and
   * `left` is the part of `fed` behind them.
   */
  ghost predicate Decoded(
    payloads: seq<seq<byte>>, fed: seq<byte>, done: nat, delivered: seq<seq<byte>>, left: seq<byte>)
  {
    && Framable(payloads) && fed <= Frames(payloads) && done <= |payloads| && delivered == payloads[..done]
    && fed == Frames(payloads[..done]) + left && left <= Frames(payloads[done..])
  }

  /** More of the stream arrives. */
  lemma MoreFed(
    payloads: seq<seq<byte>>, fed: seq<byte>, done: nat, delivered: seq<seq<byte>>, left: seq<byte>, chunk: seq<byte>)
    requires Decoded(payloads, fed, done, delivered, left) && fed + chunk <= Frames(payloads)
    ensures Decoded(payloads, fed + chunk, done, delivered, left + chunk)
  {
    hide FlatMap;
    var before, behind := payloads[..done], payloads[done..];
    assert payloads == before + behind;
    FlatMapAppend(Frame, before, behind);
    Assoc(Frames(before), left, chunk);
    PrefixCancels(Frames(before), left + chunk, Frames(behind));
  }

  lemma PrefixCancels(a: seq<byte>, b: seq<byte>, c: seq<byte>)
    requires a + b <= a + c
    ensures b <= c
  {
    assert b == (a + b)[|a|..] && c == (a + c)[|a|..];
    assert forall k :: 0 <= k < |b| ==> b[k] == (a + b)[|a| + k];
  }

  /** The next frame is complete: `payload` is its payload. */
  ghost predicate Complete(left: seq<byte>, payload: seq<byte>) {
    Frame(payload) <= left
  }

  lemma OneDelivered(payloads: seq<seq<byte>>, fed: seq<byte>, done: nat, delivered: seq<seq<byte>>, left: seq<byte>)
    requires Decoded(payloads, fed, done, delivered, left)
    requires done < |payloads| && Complete(left, payloads[done])
    ensures Decoded(payloads, fed, done + 1, delivered + [payloads[done]], left[|Frame(payloads[done])|..])
  {
    hide Frame;
    var p := payloads[done];
    var rest := left[|Frame(p)|..];
    assert left == Frame(p) + rest;
    assert payloads[..done + 1] == payloads[..done] + [p];
    FlatMapAppend(Frame, payloads[..done], [p]);
    assert Frames([p]) == Frame(p) + [];
    assert payloads[done..] == [p] + payloads[done + 1..];
    assert payloads[done..][1..] == payloads[done + 1..];
    PrefixCancels(Frame(p), rest, Frames(payloads[done + 1..]));
    Assoc(Frames(payloads[..done]), Frame(p), rest);
  }

  /** What is left is empty, or begins the frame of the next payload. */
  lemma NextFrame(payloads: seq<seq<byte>>, fed: seq<byte>, done: nat, delivered: seq<seq<byte>>, left: seq<byte>)
    requires Decoded(payloads, fed, done, delivered, left)
    ensures done == |payloads| ==> left == []
    ensures done < |payloads| ==>
              forall k :: 0 <= k < |left| && k < |Frame(payloads[done])| ==> left[k] == Frame(payloads[done])[k]
  {
    if done < |payloads| {
      var p := payloads[done];
      assert Frames(payloads[done..]) == Frame(p) + Frames(payloads[done..][1..]);
    }
  }

  /** Nothing is left but, perhaps, a part of the next frame. */
  ghost predicate Incomplete(payloads: seq<seq<byte>>, done: nat, left: seq<byte>) {
    if done < |payloads| then left < Frame(payloads[done]) else left == []
  }

  lemma HeaderArrived(payloads: seq<seq<byte>>, fed: seq<byte>, done: nat, delivered: seq<seq<byte>>, left: seq<byte>)
    requires Decoded(payloads, fed, done, delivered, left) && |left| >= 8
    ensures done < |payloads| && AllHex(AsciiText(left[..8]))
    ensures HexValue(AsciiText(left[..8])) == |payloads[done]| + 1 && |Frame(payloads[done])| == 10 + |payloads[done]|
    ensures |left| >= 9 ==> left[8] == NEWLINE
    ensures |left| >= 10 + |payloads[done]| ==>
              && Complete(left, payloads[done]) && left[9..9 + |payloads[done]|] == payloads[done]
              && left[9 + |payloads[done]|] == NEWLINE
    ensures |left| < 10 + |payloads[done]| ==> Incomplete(payloads, done, left)
  {
    hide Frame, Decoded, HexValue;
    NextFrame(payloads, fed, done, delivered, left);
    InRange(payloads, fed, done, delivered, left);
    var p := payloads[done];
    FrameShape(p);
    assert left[..8] == Frame(p)[..8];
    if |left| >= 10 + |p| {
      assert left[9..9 + |p|] == Frame(p)[9..9 + |p|];
    }
  }

  lemma InRange(payloads: seq<seq<byte>>, fed: seq<byte>, done: nat, delivered: seq<seq<byte>>, left: seq<byte>)
    requires Decoded(payloads, fed, done, delivered, left)
    ensures done <= |payloads| && (done < |payloads| ==> |payloads[done]| + 1 < 0x1_0000_0000)
    ensures left != [] ==> done < |payloads|
  {
  }

  lemma ShortLeft(payloads: seq<seq<byte>>, fed: seq<byte>, done: nat, delivered: seq<seq<byte>>, left: seq<byte>)
    requires Decoded(payloads, fed, done, delivered, left) && |left| < 9
    ensures Incomplete(payloads, done, left)
  {
    hide Frame, Decoded;
    NextFrame(payloads, fed, done, delivered, left);
    InRange(payloads, fed, done, delivered, left);
    if done < |payloads| {
      FrameShape(payloads[done]);
    }
  }

  /** Once the whole stream was fed, the frames not delivered are kept. */
  lemma StreamLeft(payloads: seq<seq<byte>>, fed: seq<byte>, done: nat, delivered: seq<seq<byte>>, left: seq<byte>)
    requires Decoded(payloads, fed, done, delivered, left) && fed == Frames(payloads)
    ensures left == Frames(payloads[done..])
  {
    hide FlatMap;
    assert payloads[..done] + payloads[done..] == payloads;
    FlatMapAppend(Frame, payloads[..done], payloads[done..]);
  }

  /** Once the whole stream was fed, every payload is delivered and nothing is kept. */
  lemma AllDelivered(payloads: seq<seq<byte>>, fed: seq<byte>, done: nat, delivered: seq<seq<byte>>, left: seq<byte>)
    requires Decoded(payloads, fed, done, delivered, left) && fed == Frames(payloads)
    requires Incomplete(payloads, done, left)
    ensures delivered == payloads && left == []
  {
    var rest := payloads[done..];
    assert rest != [] ==> Frames(rest) == Frame(rest[0]) + Frames(rest[1..]);
    assert payloads[..done] + rest == payloads;
    FlatMapAppend(Frame, payloads[..done], rest);
    assert |left| == |Frames(rest)|;
  }

  /** How many payloads come before the first that is rejected. */
  function Taken(accepts: seq<byte> -> bool, payloads: seq<seq<byte>>): (n: nat)
    ensures n <= |payloads| && (n < |payloads| ==> !accepts(payloads[n]))
    ensures forall k :: 0 <= k < n ==> accepts(payloads[k])
  {
    if payloads == [] || !accepts(payloads[0]) then 0
    else
      assert forall k :: 0 < k < |payloads| ==> payloads[k] == payloads[1..][k - 1];
      1 + Taken(accepts, payloads[1..])
  }

  /** What was taken is everything exactly when nothing is rejected. */
  lemma TakenIs(accepts: seq<byte> -> bool, payloads: seq<seq<byte>>, n: nat)
    requires n <= |payloads| && (n < |payloads| ==> !accepts(payloads[n]))
    requires forall k :: 0 <= k < n ==> accepts(payloads[k])
    ensures n == Taken(accepts, payloads)
    ensures payloads[..n] == payloads <==> forall k :: 0 <= k < |payloads| ==> accepts(payloads[k])
  {
    if n < |payloads| {
      assert |payloads[..n]| < |payloads|;
    }
  }

  lemma TakenUpTo(
    accepts: seq<byte> -> bool, before: seq<seq<byte>>, rejected: seq<byte>, behind: seq<seq<byte>>)
    requires !accepts(rejected) && forall k :: 0 <= k < |before| ==> accepts(before[k])
    ensures Taken(accepts, before + [rejected] + behind) == |before|
  {
    var all := before + [rejected] + behind;
    assert all[|before|] == rejected;
    assert forall k :: 0 <= k < |before| ==> all[k] == before[k];
  }

  // Whole streams

  lemma NextChunk(fed: seq<byte>, chunks: seq<seq<byte>>, i: nat, stream: seq<byte>)
    requires i < |chunks| && fed + Flatten(chunks[i..]) == stream
    ensures fed + chunks[i] <= stream && fed + chunks[i] + Flatten(chunks[i + 1..]) == stream
  {
    assert chunks[i..][1..] == chunks[i + 1..];
    Assoc(fed, chunks[i], Flatten(chunks[i + 1..]));
  }

  lemma StreamEnds(fed: seq<byte>, chunks: seq<seq<byte>>, stream: seq<byte>)
    requires fed + Flatten(chunks[|chunks|..]) == stream
    ensures fed == stream
  {
  }

  lemma WholeStream(payloads: seq<seq<byte>>)
    requires Framable(payloads)
    ensures Decoded(payloads, Frames(payloads), 0, payloads[..0], Frames(payloads))
  {
    assert payloads[..0] == [] && payloads[0..] == payloads;
  }

  lemma NothingDelivered(payloads: seq<seq<byte>>)
    requires Framable(payloads)
    ensures Decoded(payloads, [], 0, [], []) && Incomplete(payloads, 0, [])
  {
    if payloads != [] {
      FrameShape(payloads[0]);
    }
  }
}
