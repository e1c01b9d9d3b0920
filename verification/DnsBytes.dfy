/**
 * Byte helpers of examples/dns-server/bytes.js and the big-endian words of a `DataView`.
 *
 * Decoders work on a whole message and a position in it; `StandsAt` says that some bytes stand there.
 */
module DnsBytes {
  import opened Seqs
  import opened Wrappers

  lemma HoldsSlice(buf: seq<byte>, at: nat, s: seq<byte>)
    requires StandsAt(buf, at, s)
    ensures buf[at..at + |s|] == s
  {
  }

  /** `subarray(start, end)`, which stops at the end of the buffer. */
  function Clamp(buf: seq<byte>, start: nat, end: nat): seq<byte> {
    if start >= |buf| || end <= start then []
    else buf[start..if end <= |buf| then end else |buf|]
  }

  // Words

  function High(v: int): (h: byte) {
    v / 256 % 256
  }

  function Low(v: int): (l: byte) {
    v % 256
  }

  /** `setUint16`: the value modulo 2^16. */
  function Word16(v: int): (s: seq<byte>)
    ensures |s| == 2
  {
    [High(v), Low(v)]
  }

  /** `setUint32`, and `>>> 0`: the value modulo 2^32. */
  function Word32(v: int): (s: seq<byte>)
    ensures |s| == 4
  {
    Word16(v / 0x10000) + Word16(v)
  }

  /** `getUint16`; `None` is the RangeError past the end of the buffer. */
  function Uint16(buf: seq<byte>, at: nat): Option<nat> {
    if at + 2 > |buf| then None
    else
      var hi: int := buf[at];
      Some(256 * hi + buf[at + 1])
  }

  function Uint32(buf: seq<byte>, at: nat): Option<nat> {
    var hi :- Uint16(buf, at);
    var lo :- Uint16(buf, at + 2);
    Some(0x10000 * hi + lo)
  }

  lemma Word16Reads(buf: seq<byte>, at: nat, v: int)
    requires StandsAt(buf, at, Word16(v))
    ensures Uint16(buf, at) == Some(v % 0x10000)
  {
    assert buf[at] == Word16(v)[0] && buf[at + 1] == Word16(v)[1];
    WordParts(v);
  }

  lemma WordParts(v: int)
    ensures 256 * High(v) + Low(v) == v % 0x10000
  {
  }

  lemma DoubleWordParts(v: int)
    ensures 0x10000 * (v / 0x10000 % 0x10000) + v % 0x10000 == v % 0x1_0000_0000
  {
  }

  lemma Word32Reads(buf: seq<byte>, at: nat, v: int)
    requires StandsAt(buf, at, Word32(v))
    ensures Uint32(buf, at) == Some(v % 0x1_0000_0000)
  {
    StandsSplit(buf, at, Word16(v / 0x10000), Word16(v));
    Word16Reads(buf, at, v / 0x10000);
    Word16Reads(buf, at + 2, v);
    DoubleWordParts(v);
  }

  // bytes.js

  function TotalLength(parts: seq<array<byte>>): nat {
    if parts == [] then 0 else parts[0].Length + TotalLength(parts[1..])
  }

  function Contents(parts: seq<array<byte>>): seq<byte>
    reads parts
  {
    if parts == [] then [] else parts[0][..] + Contents(parts[1..])
  }

  lemma {:induction false} ContentsLength(parts: seq<array<byte>>)
    ensures |Contents(parts)| == TotalLength(parts)
  {
    if parts != [] {
      ContentsLength(parts[1..]);
    }
  }

  method CopyInto(out: array<byte>, a: array<byte>, off: nat)
    requires off + a.Length <= out.Length && out != a
    modifies out
    ensures out[..] == old(out[..off]) + a[..] + old(out[off + a.Length..])
  {
    for k := 0 to a.Length
      invariant forall i :: 0 <= i < out.Length ==>
                  out[i] == if off <= i < off + k then a[i - off] else old(out[i])
    {
      out[off + k] := a[k];
    }
  }

  /** `concatBytes`: one buffer with the contents of all the arrays, in order. */
  method ConcatBytes(arrays: seq<array<byte>>) returns (out: array<byte>)
    ensures fresh(out) && out[..] == Contents(arrays)
  {
    var total := 0;
    for k := 0 to |arrays|
      invariant total + TotalLength(arrays[k..]) == TotalLength(arrays)
    {
      assert arrays[k..][1..] == arrays[k + 1..];
      total := total + arrays[k].Length;
    }
    out := new byte[total];
    assert forall a :: a in arrays ==> a != out;
    ghost var all := Contents(arrays);
    var off: nat := 0;
    for k := 0 to |arrays|
      invariant off + TotalLength(arrays[k..]) == total
      invariant Contents(arrays[k..]) == old(Contents(arrays[k..]))
      invariant Done(out[..], off, Contents(arrays[k..]), all)
    {
      ghost var before := out[..];
      ghost var rest := Contents(arrays[k + 1..]);
      assert arrays[k..][1..] == arrays[k + 1..];
      CopyInto(out, arrays[k], off);
      DoneStep(before, out[..], off, arrays[k][..], rest, all);
      off := off + arrays[k].Length;
    }
  }

  /** The first `off` bytes are written, `rest` is still to come. */
  ghost predicate Done(out: seq<byte>, off: nat, rest: seq<byte>, all: seq<byte>) {
    off <= |out| && out[..off] + rest == all
  }

  lemma DoneStep(before: seq<byte>, out: seq<byte>, off: nat, piece: seq<byte>, rest: seq<byte>, all: seq<byte>)
    requires Done(before, off, piece + rest, all) && off + |piece| <= |before|
    requires out == before[..off] + piece + before[off + |piece|..]
    ensures Done(out, off + |piece|, rest, all)
  {
    assert out[..off + |piece|] == before[..off] + piece;
  }

  /** A character code cut to a byte, and the character of a byte. */
  function CharByte(c: char): byte {
    c as int % 256
  }

  function ByteChar(b: byte): char {
    b as char
  }

  function LabelBytes(s: string): (b: seq<byte>)
    ensures |b| == |s|
  {
    seq(|s|, k requires 0 <= k < |s| => CharByte(s[k]))
  }

  function BytesToLabel(b: seq<byte>): (s: string)
    ensures |s| == |b|
  {
    seq(|b|, k requires 0 <= k < |b| => ByteChar(b[k]))
  }

  /** `labelBytes` */
  method LabelBytesLoop(str: string) returns (buf: array<byte>)
    ensures fresh(buf) && buf[..] == LabelBytes(str)
  {
    buf := new byte[|str|];
    for i := 0 to |str|
      invariant forall k :: 0 <= k < i ==> buf[k] == CharByte(str[k])
    {
      buf[i] := CharByte(str[i]);
    }
  }

  /** `bytesToLabel` */
  method BytesToLabelLoop(buf: seq<byte>) returns (s: string)
    ensures s == BytesToLabel(buf)
  {
    s := "";
    for i := 0 to |buf|
      invariant |s| == i && forall k :: 0 <= k < i ==> s[k] == ByteChar(buf[k])
    {
      s := s + [ByteChar(buf[i])];
    }
  }

  predicate Latin(s: string) {
    forall k :: 0 <= k < |s| ==> s[k] as int < 256
  }

  /** Labels survive as bytes exactly when every character fits a byte. */
  lemma LabelRoundTrip(s: string)
    ensures BytesToLabel(LabelBytes(s)) == s <==> Latin(s)
  {
    var back := BytesToLabel(LabelBytes(s));
    assert forall k :: 0 <= k < |s| ==> back[k] as int == s[k] as int % 256;
    if back == s {
      forall k | 0 <= k < |s|
        ensures s[k] as int < 256
      {
        assert back[k] == s[k];
      }
    }
  }
}
