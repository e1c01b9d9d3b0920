/**
 * UTF-8 as libwebsockets' JavaScript binding writes and reads it.
 *
 * `EncodeChar` is the only definition of what a well-formed sequence is.  `Lossy` states the
 * decoder that replaces every maximal subpart of an ill-formed sequence by U+FFFD (section 8.1.1
 * of the WHATWG Encoding Standard); `MaximalSubpart` proves that the byte windows it uses pick out
 * exactly the longest prefix some encoded character starts with.  `LossyUtf8Decode` is the byte at
 * a time loop of lws.c, which reprocesses a bad continuation byte instead of consuming it.
 *
 * Masks and shifts on bytes are written as the arithmetic they denote: `b & 0x3f` is `b % 64`,
 * which is `b - 0x80` for a continuation byte, and `(cp << 6) | x` is `cp * 64 + x`.
 */
module Utf8 {
  import opened Seqs
  import opened Wrappers

  const REPLACEMENT: char := '\U{FFFD}'

  /** `v >> 6`, defined by counting so that proofs about it are linear and never divide. */
  function Shift6(v: nat): (q: nat)
    ensures 64 * q <= v < 64 * q + 64
  {
    if v < 64 then 0 else 1 + Shift6(v - 64)
  }

  /** The `k` continuation bytes of `v`, six bits each, the low bits last. */
  function TailBytes(v: nat, k: nat): (s: seq<byte>)
    ensures |s| == k
  {
    if k == 0 then [] else TailBytes(Shift6(v), k - 1) + [0x80 + (v - 64 * Shift6(v))]
  }

  /** What is left of `v` for the lead byte once `k` continuation bytes are taken out. */
  function LeadPart(v: nat, k: nat): (q: nat)
    ensures k == 0 ==> q == v
    ensures k == 1 ==> 64 * q <= v < 64 * q + 64
    ensures k == 2 ==> 4096 * q <= v < 4096 * q + 4096
    ensures k == 3 ==> 262144 * q <= v < 262144 * q + 262144
  {
    if k == 0 then v else LeadPart(Shift6(v), k - 1)
  }

  /** How many continuation bytes the value `v` takes. */
  function TailCount(v: nat): nat {
    if v < 0x80 then 0 else if v < 0x800 then 1 else if v < 0x10000 then 2 else 3
  }

  /** The marker bits of a lead byte with `k` continuation bytes. */
  function Marker(k: nat): byte {
    if k == 0 then 0 else if k == 1 then 0xC0 else if k == 2 then 0xE0 else 0xF0
  }

  /** The UTF-8 encoding of one Unicode scalar value. */
  function EncodeChar(c: char): (s: seq<byte>)
    ensures 1 <= |s| <= 4
  {
    var k := TailCount(c as nat);
    [Marker(k) + LeadPart(c as nat, k)] + TailBytes(c as nat, k)
  }

  function Encode(s: string): seq<byte> {
    FlatMap(EncodeChar, s)
  }

  /** How many continuation bytes the lead byte `b` calls for; 0 for ASCII and for a non-lead byte. */
  function Needed(b: byte): nat {
    if 0xC2 <= b <= 0xDF then 1 else if 0xE0 <= b <= 0xEF then 2 else if 0xF0 <= b <= 0xF4 then 3 else 0
  }

  /** The window of the byte after the lead byte `b`. */
  function Lower(b: byte): byte {
    if b == 0xE0 then 0xA0 else if b == 0xF0 then 0x90 else 0x80
  }

  function Upper(b: byte): byte {
    if b == 0xED then 0x9F else if b == 0xF4 then 0x8F else 0xBF
  }

  /** The payload bits of a lead byte. */
  function LeadBits(b: byte): nat
    requires Needed(b) > 0
  {
    b - Marker(Needed(b))
  }

  /** The `k` bytes after the lead byte at `at` exist and are within their windows. */
  predicate Continues(p: seq<byte>, at: nat, k: nat)
    requires at < |p|
  {
    && k <= Needed(p[at])
    && at + k < |p|
    && (k >= 1 ==> Lower(p[at]) <= p[at + 1] <= Upper(p[at]))
    && (k >= 2 ==> 0x80 <= p[at + 2] <= 0xBF)
    && (k >= 3 ==> 0x80 <= p[at + 3] <= 0xBF)
  }

  /** The value accumulated from the lead byte at `at` and its first `k` continuation bytes. */
  function Bits(p: seq<byte>, at: nat, k: nat): nat
    requires at < |p| && Needed(p[at]) > 0 && Continues(p, at, k)
  {
    if k == 0 then LeadBits(p[at]) else Bits(p, at, k - 1) * 64 + (p[at + k] - 0x80)
  }

  /** The number of bytes the decoder consumes for its next character: the maximal subpart. */
  function SubpartLength(p: seq<byte>, at: nat): (k: nat)
    requires at < |p|
    ensures 1 <= k <= |p| - at
  {
    if !Continues(p, at, 1) then 1 else if !Continues(p, at, 2) then 2 else if !Continues(p, at, 3) then 3 else 4
  }

  /** Whether the maximal subpart at `at` is a whole character. */
  predicate Complete(p: seq<byte>, at: nat)
    requires at < |p|
  {
    p[at] < 0x80 || (Needed(p[at]) > 0 && SubpartLength(p, at) == Needed(p[at]) + 1)
  }

  /** Accumulating bytes undoes taking them out. */
  lemma {:induction false} BitsSplit(p: seq<byte>, at: nat, k: nat)
    requires at < |p| && Needed(p[at]) > 0 && Continues(p, at, k)
    ensures LeadPart(Bits(p, at, k), k) == LeadBits(p[at])
    ensures TailBytes(Bits(p, at, k), k) == p[at + 1..at + k + 1]
  {
    if k > 0 {
      BitsSplit(p, at, k - 1);
      assert Shift6(Bits(p, at, k)) == Bits(p, at, k - 1);
      SliceMore(p, at + 1, at + k);
    }
  }

  lemma SliceMore(p: seq<byte>, i: nat, j: nat)
    requires i <= j < |p|
    ensures p[i..j + 1] == p[i..j] + [p[j]]
  {
  }

  /** The window rules rule out overlong forms, surrogates and values past U+10FFFF. */
  lemma BitsBounds(p: seq<byte>, at: nat)
    requires at < |p| && Needed(p[at]) > 0 && Continues(p, at, Needed(p[at]))
    ensures
      var v := Bits(p, at, Needed(p[at]));
      (v < 0xD800 || 0xE000 <= v < 0x110000) && TailCount(v) == Needed(p[at])
  {
    var a, b: int := LeadBits(p[at]), p[at + 1] - 0x80;
    assert Bits(p, at, 1) == a * 64 + b;
    if Needed(p[at]) > 1 {
      var c: int := p[at + 2] - 0x80;
      assert Bits(p, at, 2) == a * 4096 + b * 64 + c;
      if Needed(p[at]) > 2 {
        var d: int := p[at + 3] - 0x80;
        assert Bits(p, at, 3) == a * 262144 + b * 4096 + c * 64 + d;
      }
    }
  }

  lemma SplitEncoding(c: char, k: nat, lead: byte, tail: seq<byte>)
    requires TailCount(c as nat) == k && lead == Marker(k) + LeadPart(c as nat, k) && tail == TailBytes(c as nat, k)
    ensures EncodeChar(c) == [lead] + tail
  {
  }

  /** A sequence that is complete and within its windows is the encoding of its value. */
  lemma BitsInRange(p: seq<byte>, at: nat)
    requires at < |p| && Needed(p[at]) > 0 && Continues(p, at, Needed(p[at]))
    ensures
      var v := Bits(p, at, Needed(p[at]));
      && (v < 0xD800 || 0xE000 <= v < 0x110000)
      && EncodeChar(v as char) == p[at..at + Needed(p[at]) + 1]
  {
    var k := Needed(p[at]);
    BitsSplit(p, at, k);
    BitsBounds(p, at);
    var v := Bits(p, at, k);
    SplitEncoding(v as char, k, p[at], p[at + 1..at + k + 1]);
    assert p[at..at + k + 1] == [p[at]] + p[at + 1..at + k + 1];
  }

  /** The character the decoder emits for the maximal subpart at `at`. */
  function FirstChar(p: seq<byte>, at: nat): char
    requires at < |p|
  {
    if p[at] < 0x80 then p[at] as char
    else if Complete(p, at) then BitsInRange(p, at); Bits(p, at, Needed(p[at])) as char
    else REPLACEMENT
  }

  /** The non-fatal decoder from position `at` on: one character per maximal subpart. */
  function LossyFrom(p: seq<byte>, at: nat): string
    requires at <= |p|
    decreases |p| - at
  {
    if at == |p| then [] else [FirstChar(p, at)] + LossyFrom(p, at + SubpartLength(p, at))
  }

  function Lossy(p: seq<byte>): string {
    LossyFrom(p, 0)
  }

  /** `p` starts with, or is cut short within, the encoding of some character. */
  ghost predicate StartsCharacter(p: seq<byte>) {
    exists c: char :: p <= EncodeChar(c)
  }

  /** The bytes of an encoded character lie in their windows and add up to it again. */
  lemma EncodedTwo(v: nat, v6: nat, p: seq<byte>, at: nat)
    requires 0x80 <= v < 0x800 && 64 * v6 <= v < 64 * v6 + 64 && at + 1 < |p|
    requires p[at] == 0xC0 + v6 && p[at + 1] == 0x80 + (v - 64 * v6)
    ensures Needed(p[at]) == 1 && Continues(p, at, 1) && Bits(p, at, 1) == v
  {
  }

  lemma EncodedThree(v: nat, v6: nat, v12: nat, p: seq<byte>, at: nat)
    requires 0x800 <= v < 0xD800 || 0xE000 <= v < 0x10000
    requires 64 * v6 <= v < 64 * v6 + 64 && 64 * v12 <= v6 < 64 * v12 + 64 && at + 2 < |p|
    requires p[at] == 0xE0 + v12 && p[at + 1] == 0x80 + (v6 - 64 * v12) && p[at + 2] == 0x80 + (v - 64 * v6)
    ensures Needed(p[at]) == 2 && Continues(p, at, 2) && Bits(p, at, 2) == v
  {
    assert Needed(p[at]) == 2 && Continues(p, at, 1);
    assert Bits(p, at, 1) == v6;
  }

  lemma EncodedFour(v: nat, v6: nat, v12: nat, v18: nat, p: seq<byte>, at: nat)
    requires 0x10000 <= v < 0x110000 && 64 * v6 <= v < 64 * v6 + 64
    requires 64 * v12 <= v6 < 64 * v12 + 64 && 64 * v18 <= v12 < 64 * v18 + 64 && at + 3 < |p|
    requires p[at] == 0xF0 + v18 && p[at + 1] == 0x80 + (v12 - 64 * v18)
    requires p[at + 2] == 0x80 + (v6 - 64 * v12) && p[at + 3] == 0x80 + (v - 64 * v6)
    ensures Needed(p[at]) == 3 && Continues(p, at, 3) && Bits(p, at, 3) == v
  {
    assert Needed(p[at]) == 3 && Continues(p, at, 2);
    assert Bits(p, at, 1) == v12;
    assert Bits(p, at, 2) == v6;
  }

  /** The encoding, spelled out. */
  lemma EncodingBytes(c: char)
    ensures
      var v, e := c as nat, EncodeChar(c);
      var v6 := Shift6(v);
      var v12 := Shift6(v6);
      && |e| == TailCount(v) + 1
      && (|e| == 1 ==> e[0] == v)
      && (|e| == 2 ==> e[0] == 0xC0 + v6 && e[1] == 0x80 + (v - 64 * v6))
      && (|e| == 3 ==> e[0] == 0xE0 + v12 && e[1] == 0x80 + (v6 - 64 * v12) && e[2] == 0x80 + (v - 64 * v6))
      && (|e| == 4 ==> e[0] == 0xF0 + Shift6(v12) && e[1] == 0x80 + (v12 - 64 * Shift6(v12)) &&
                       e[2] == 0x80 + (v6 - 64 * v12) && e[3] == 0x80 + (v - 64 * v6))
  {
    var v := c as nat;
    var v6 := Shift6(v);
    var k := TailCount(v);
    if k >= 2 {
      assert TailBytes(v, k) == TailBytes(v6, k - 1) + [0x80 + (v - 64 * v6)];
    }
    if k == 2 {
      assert LeadPart(v, 2) == LeadPart(v6, 1);
    } else if k == 3 {
      assert LeadPart(v, 3) == LeadPart(v6, 2) == LeadPart(Shift6(v6), 1);
    }
  }

  /** ASCII characters encode as themselves, and no other character uses an ASCII byte. */
  lemma AsciiByte(c: char)
    ensures c as int < 0x80 ==> EncodeChar(c) == [c as int]
    ensures c as int >= 0x80 ==> forall k :: 0 <= k < |EncodeChar(c)| ==> EncodeChar(c)[k] >= 0x80
  {
    EncodingBytes(c);
  }

  predicate Ascii(s: string) {
    forall k :: 0 <= k < |s| ==> s[k] as int < 0x80
  }

  lemma {:induction false} EncodeAscii(s: string)
    requires Ascii(s)
    ensures |Encode(s)| == |s| && forall k :: 0 <= k < |s| ==> Encode(s)[k] == s[k] as int
  {
    if s != [] {
      AsciiByte(s[0]);
      EncodeAscii(s[1..]);
      assert Encode(s) == [s[0] as int] + Encode(s[1..]);
    }
  }

  /** An ASCII byte occurs in an encoding only if its character occurs in the text. */
  lemma {:induction false} ByteOfAscii(s: string, b: byte)
    requires b < 0x80 && b in Encode(s)
    ensures (b as char) in s
  {
    if s != [] {
      AsciiByte(s[0]);
      if b !in EncodeChar(s[0]) {
        ByteOfAscii(s[1..], b);
      }
    }
  }

  /** An encoded character found in the input is what the decoder reads there. */
  lemma ReadsEncoded(c: char, p: seq<byte>, at: nat)
    requires at + |EncodeChar(c)| <= |p|
    requires forall j :: 0 <= j < |EncodeChar(c)| ==> p[at + j] == EncodeChar(c)[j]
    ensures |EncodeChar(c)| == Needed(p[at]) + 1 && Continues(p, at, Needed(p[at]))
    ensures p[at] < 0x80 || Needed(p[at]) > 0
    ensures Complete(p, at) && SubpartLength(p, at) == |EncodeChar(c)| && FirstChar(p, at) == c
  {
    var v, e := c as nat, EncodeChar(c);
    var v6 := Shift6(v);
    var v12 := Shift6(v6);
    EncodingBytes(c);
    assert p[at + 0] == e[0];
    if |e| > 1 {
      assert p[at + 1] == e[1];
      if |e| == 2 {
        EncodedTwo(v, v6, p, at);
      } else {
        assert p[at + 2] == e[2];
        if |e| == 3 {
          EncodedThree(v, v6, v12, p, at);
        } else {
          assert p[at + 3] == e[3];
          EncodedFour(v, v6, v12, Shift6(v12), p, at);
        }
      }
    }
  }

  /** A lead byte with in-window continuation bytes can always be completed to a character. */
  lemma {:induction false} ContinuesStarts(p: seq<byte>)
    requires p != [] && Continues(p, 0, |p| - 1) && (p[0] < 0x80 || Needed(p[0]) > 0)
    ensures StartsCharacter(p)
    decreases Needed(p[0]) + 1 - |p|
  {
    if p[0] < 0x80 {
      assert p <= EncodeChar(p[0] as char);
    } else if |p| == Needed(p[0]) + 1 {
      BitsInRange(p, 0);
    } else {
      var q := p + [if |p| == 1 then Lower(p[0]) else 0x80];
      ContinuesStarts(q);
      var c: char :| q <= EncodeChar(c);
      assert p <= EncodeChar(c);
    }
  }

  /** The converse: a prefix of an encoded character has all its bytes in their windows. */
  lemma StartsContinues(p: seq<byte>)
    requires p != [] && StartsCharacter(p)
    ensures Continues(p, 0, |p| - 1) && (p[0] < 0x80 || Needed(p[0]) > 0)
  {
    var c: char :| p <= EncodeChar(c);
    var e := EncodeChar(c);
    ReadsEncoded(c, e, 0);
    assert forall j :: 0 <= j < |p| ==> p[j] == e[j];
  }

  /**
   * What the decoder consumes at `at` is the longest run of bytes that begins some encoded
   * character, and a single byte when there is none.
   */
  lemma MaximalSubpart(p: seq<byte>, at: nat, k: nat)
    requires at < |p| && 1 <= k <= |p| - at
    ensures StartsCharacter(p[at..at + k]) ==> k <= SubpartLength(p, at)
    ensures StartsCharacter(p[at..at + 1]) && k <= SubpartLength(p, at) ==> StartsCharacter(p[at..at + k])
    ensures !StartsCharacter(p[at..at + 1]) ==> SubpartLength(p, at) == 1
  {
    var q, q1 := p[at..at + k], p[at..at + 1];
    assert forall j :: 0 <= j < k ==> q[j] == p[at + j];
    if StartsCharacter(q) {
      StartsContinues(q);
    }
    if StartsCharacter(q1) {
      StartsContinues(q1);
      if k <= SubpartLength(p, at) {
        ContinuesStarts(q);
      }
    } else if p[at] < 0x80 || Needed(p[at]) > 0 {
      ContinuesStarts(q1);
    }
  }

  /** A maximal subpart is complete exactly when it is an encoded character, the one emitted. */
  lemma CompleteSubpart(p: seq<byte>, at: nat)
    requires at < |p|
    ensures Complete(p, at) <==> exists c: char :: EncodeChar(c) == p[at..at + SubpartLength(p, at)]
    ensures Complete(p, at) ==> EncodeChar(FirstChar(p, at)) == p[at..at + SubpartLength(p, at)]
  {
    var q := p[at..at + SubpartLength(p, at)];
    if Complete(p, at) {
      if p[at] >= 0x80 {
        BitsInRange(p, at);
      }
      assert EncodeChar(FirstChar(p, at)) == q;
    }
    forall c: char | EncodeChar(c) == q
      ensures Complete(p, at)
    {
      assert forall j :: 0 <= j < |q| ==> p[at + j] == q[j];
      ReadsEncoded(c, p, at);
    }
  }

  /** The decoder reads one encoded character and goes on behind it. */
  lemma LossyStep(before: seq<byte>, c: char, rest: seq<byte>)
    ensures
      var p := before + EncodeChar(c) + rest;
      LossyFrom(p, |before|) == [c] + LossyFrom(p, |before + EncodeChar(c)|)
  {
    var e := EncodeChar(c);
    var p := before + e + rest;
    assert forall j :: 0 <= j < |e| ==> p[|before| + j] == e[j];
    ReadsEncoded(c, p, |before|);
  }

  /** The decoder is the identity on well-formed input, wherever it starts. */
  lemma {:induction false} LossyFromEncode(before: seq<byte>, s: string)
    ensures LossyFrom(before + Encode(s), |before|) == s
    decreases |s|
  {
    if s != [] {
      var e := EncodeChar(s[0]);
      assert before + Encode(s) == before + e + Encode(s[1..]);
      LossyStep(before, s[0], Encode(s[1..]));
      LossyFromEncode(before + e, s[1..]);
    }
  }

  lemma LossyEncode(s: string)
    ensures Lossy(Encode(s)) == s
  {
    assert [] + Encode(s) == Encode(s);
    LossyFromEncode([], s);
  }

  /** The text decoded from `at` on re-encodes to at most three bytes per byte that was left. */
  lemma {:induction false} LossyBound(p: seq<byte>, at: nat)
    requires at <= |p|
    ensures |Encode(LossyFrom(p, at))| <= 3 * (|p| - at)
    decreases |p| - at
  {
    if at < |p| {
      var k := SubpartLength(p, at);
      LossyBound(p, at + k);
      var t := LossyFrom(p, at);
      assert t[1..] == LossyFrom(p, at + k);
      if Complete(p, at) {
        CompleteSubpart(p, at);
      }
    }
  }

  /** Strict decoding, as `toString` without its lossy flag: no text for an ill-formed input. */
  function Decode(p: seq<byte>): Option<string> {
    var s := Lossy(p);
    if Encode(s) == p then Some(s) else None
  }

  /** Strict decoding inverts encoding, on all inputs and in both directions. */
  lemma DecodeIffEncode(p: seq<byte>, s: string)
    ensures Decode(p) == Some(s) <==> Encode(s) == p
  {
    LossyEncode(s);
  }

  /** `unicode_to_utf8`: stores the encoding of `c` at offset `at` of `out` and says how long it is. */
  method PutChar(out: array<byte>, at: nat, c: char) returns (n: nat)
    requires at + |EncodeChar(c)| <= out.Length
    modifies out
    ensures n == |EncodeChar(c)|
    ensures out[..at + n] == old(out[..at]) + EncodeChar(c)
  {
    var e := EncodeChar(c);
    n := |e|;
    for k := 0 to n
      invariant out[..at] == old(out[..at])
      invariant out[at..at + k] == e[..k]
    {
      out[at + k] := e[k];
    }
    assert out[..at + n] == out[..at] + out[at..at + n];
  }

  /** Input consumed up to `start` has been decoded to `done`; the rest is still to come. */
  ghost predicate Decoded(p: seq<byte>, start: nat, done: string) {
    && start <= |p|
    && done + LossyFrom(p, start) == Lossy(p)
    && |Encode(done)| <= 3 * start
  }

  /** Emitting the character of the maximal subpart at `start` moves on to the next one. */
  lemma DecodedStep(p: seq<byte>, start: nat, done: string)
    requires Decoded(p, start, done) && start < |p|
    ensures Decoded(p, start + SubpartLength(p, start), done + [FirstChar(p, start)])
    ensures Encode(done + [FirstChar(p, start)]) == Encode(done) + EncodeChar(FirstChar(p, start))
  {
    var k := SubpartLength(p, start);
    var c := FirstChar(p, start);
    assert done + [c] + LossyFrom(p, start + k) == done + LossyFrom(p, start);
    FlatMapSnoc(EncodeChar, done, c);
    if Complete(p, start) {
      CompleteSubpart(p, start);
    }
  }

  lemma Scale(n: nat, a: nat, b: nat)
    requires a <= b
    ensures a * n <= n * b
  {
  }

  /** The decoder state after reading up to `i`: `needed == 0` is the ground state. */
  ghost predicate Reading(p: seq<byte>, i: nat, start: nat, seen: nat, needed: nat, cp: nat, lower: byte, upper: byte) {
    if needed == 0 then
      start == i <= |p| && seen == 0 && lower == 0x80 && upper == 0xBF
    else
      && start + seen + 1 == i <= |p|
      && needed == Needed(p[start])
      && seen < needed && Continues(p, start, seen)
      && cp == Bits(p, start, seen)
      && lower == (if seen == 0 then Lower(p[start]) else 0x80)
      && upper == (if seen == 0 then Upper(p[start]) else 0xBF)
  }

  /** A lead byte opens a sequence. */
  lemma ReadLead(p: seq<byte>, i: nat)
    requires i < |p| && Needed(p[i]) > 0
    ensures
      Reading(p, i + 1, i, 0, Needed(p[i]), LeadBits(p[i]), Lower(p[i]), Upper(p[i]))
  {
  }

  /** An ASCII byte is a character by itself; any other byte that leads nothing is replaced. */
  lemma ReadAlone(p: seq<byte>, i: nat)
    requires i < |p| && Needed(p[i]) == 0
    ensures SubpartLength(p, i) == 1
    ensures FirstChar(p, i) == if p[i] < 0x80 then p[i] as char else REPLACEMENT
  {
  }

  /** A byte inside its window extends the sequence, and the last one completes a character. */
  lemma ReadInWindow(p: seq<byte>, i: nat, start: nat, seen: nat, needed: nat, cp: nat, lower: byte, upper: byte,
                     next: nat)
    requires Reading(p, i, start, seen, needed, cp, lower, upper) && needed > 0
    requires i < |p| && lower <= p[i] <= upper && next == cp * 64 + p[i] % 64
    ensures seen + 1 < needed ==> Reading(p, i + 1, start, seen + 1, needed, next, 0x80, 0xBF)
    ensures
      seen + 1 == needed ==>
        && start + SubpartLength(p, start) == i + 1
        && (next < 0xD800 || 0xE000 <= next < 0x110000)
        && FirstChar(p, start) == next as char
  {
    assert Continues(p, start, seen + 1);
    assert Bits(p, start, seen + 1) == next;
    if seen + 1 == needed {
      assert SubpartLength(p, start) == needed + 1;
      BitsInRange(p, start);
    }
  }

  /** A byte outside its window, or the end of the input, ends the maximal subpart before it. */
  lemma ReadCutShort(p: seq<byte>, i: nat, start: nat, seen: nat, needed: nat, cp: nat, lower: byte, upper: byte)
    requires Reading(p, i, start, seen, needed, cp, lower, upper) && needed > 0
    requires i < |p| ==> p[i] < lower || p[i] > upper
    ensures start + SubpartLength(p, start) == i
    ensures FirstChar(p, start) == REPLACEMENT
  {
    assert !Continues(p, start, seen + 1);
  }

  /** The lead byte branches of the loop; `needed == 0` reports a byte that leads nothing. */
  method OpenSequence(b: byte) returns (needed: nat, cp: nat, lower: byte, upper: byte)
    requires b >= 0x80
    ensures needed == Needed(b)
    ensures needed > 0 ==> cp == LeadBits(b) && lower == Lower(b) && upper == Upper(b)
    ensures needed == 0 ==> cp == 0 && lower == 0x80 && upper == 0xBF
  {
    needed, cp, lower, upper := 0, 0, 0x80, 0xBF;
    if 0xC2 <= b <= 0xDF {
      needed := 1;
      cp := b % 32;
    } else if 0xE0 <= b <= 0xEF {
      if b == 0xE0 {
        lower := 0xA0;
      } else if b == 0xED {
        upper := 0x9F;
      }
      needed := 2;
      cp := b % 16;
    } else if 0xF0 <= b <= 0xF4 {
      if b == 0xF0 {
        lower := 0x90;
      } else if b == 0xF4 {
        upper := 0x8F;
      }
      needed := 3;
      cp := b % 8;
    }
  }

  /**
   * The byte loop of the lossy decoder; the locals of the C function are the fields, and each
   * branch of its loop is a method.  `start` and `done` say what has been decoded so far.
   */
  class LossyDecoder {
    const p: seq<byte>
    const out: array<byte>
    var outLen: nat
    var i: nat
    var seen: nat
    var needed: nat
    var cp: nat
    var lower: byte
    var upper: byte
    ghost var start: nat
    ghost var done: string

    ghost predicate Valid()
      reads this, out
    {
      && i <= |p|
      && Reading(p, i, start, seen, needed, cp, lower, upper)
      && Decoded(p, start, done)
      && out.Length >= 3 * |p|
      && outLen == |Encode(done)|
      && out[..outLen] == Encode(done)
    }

    /** Bytes still to be consumed, counting a pending sequence as half a byte. */
    ghost function Left(): int
      reads this
    {
      2 * (|p| - i) + (if needed > 0 then 1 else 0)
    }

    /** `charLenMax` is the per-byte allowance of the buffer, a constant of the QuickJS headers. */
    constructor (p: seq<byte>, charLenMax: nat)
      requires charLenMax >= 3
      ensures Valid() && fresh(out) && this.p == p && i == 0
    {
      this.p := p;
      var length := |p| * charLenMax;
      Scale(|p|, 3, charLenMax);
      out := new byte[length](_ => 0);
      outLen, i, seen, needed, cp, lower, upper := 0, 0, 0, 0, 0, 0x80, 0xBF;
      start, done := 0, [];
      new;
      assert out[..0] == Encode([]);
    }

    /** Writes the character of the maximal subpart at `start`, for which there is always room. */
    method Emit(c: char, ghost next: nat)
      requires start < |p| && c == FirstChar(p, start) && next == start + SubpartLength(p, start)
      requires out.Length >= 3 * |p| && Decoded(p, start, done)
      requires outLen == |Encode(done)| && out[..outLen] == Encode(done)
      modifies `outLen, `start, `done, out
      ensures start == next && done == old(done) + [c] && Decoded(p, start, done)
      ensures outLen == |Encode(done)| <= out.Length && out[..outLen] == Encode(done)
    {
      DecodedStep(p, start, done);
      var w := PutChar(out, outLen, c);
      outLen := outLen + w;
      start, done := next, done + [c];
    }

    /** `!needed`: an ASCII byte, a lead byte, or a byte that is replaced by itself. */
    method GroundByte()
      requires Valid() && i < |p| && needed == 0
      modifies this, out
      ensures Valid() && Left() < old(Left())
    {
      var b := p[i];
      if Needed(b) == 0 {
        ReadAlone(p, i);
      } else {
        ReadLead(p, i);
      }
      if b < 0x80 {
        Emit(b as char, i + 1);
        i := i + 1;
        return;
      }
      needed, cp, lower, upper := OpenSequence(b);
      if needed == 0 {
        Emit(REPLACEMENT, i + 1);
        i := i + 1;
        return;
      }
      seen := 0;
      i := i + 1;
    }

    /** A byte after a lead byte: out of its window it is left for the next iteration. */
    method ContinuationByte()
      requires Valid() && i < |p| && needed > 0
      modifies this, out
      ensures Valid() && Left() < old(Left())
    {
      var b := p[i];
      if b < lower || b > upper {
        ReadCutShort(p, i, start, seen, needed, cp, lower, upper);
        Emit(REPLACEMENT, i);
        needed, seen, cp := 0, 0, 0;
        lower, upper := 0x80, 0xBF;
        return;
      }
      AcceptByte();
    }

    method AcceptByte()
      requires Valid() && i < |p| && needed > 0 && lower <= p[i] <= upper
      modifies this, out
      ensures Valid() && Left() < old(Left())
    {
      var next := cp * 64 + p[i] % 64;
      ReadInWindow(p, i, start, seen, needed, cp, lower, upper, next);
      lower, upper := 0x80, 0xBF;
      cp := next;
      seen := seen + 1;
      i := i + 1;
      if seen == needed {
        Emit(cp as char, i);
        needed, seen, cp := 0, 0, 0;
      }
    }

    /** Runs to the end of the input and replaces a truncated sequence there. */
    method Run() returns (ret: seq<byte>)
      requires Valid()
      modifies this, out
      ensures ret == Encode(Lossy(p))
    {
      while i < |p|
        invariant Valid()
        decreases Left()
      {
        if needed == 0 {
          GroundByte();
        } else {
          ContinuationByte();
        }
      }
      if needed > 0 {
        ReadCutShort(p, i, start, seen, needed, cp, lower, upper);
        Emit(REPLACEMENT, i);
      }
      assert done == Lossy(p);
      ret := out[..outLen];
    }
  }

  /** The lossy decoder: the text of every maximal subpart, re-encoded, in three bytes per byte. */
  method LossyUtf8Decode(p: seq<byte>, charLenMax: nat) returns (ret: seq<byte>)
    requires charLenMax >= 3
    ensures ret == Encode(Lossy(p))
    ensures |ret| <= 3 * |p|
  {
    if |p| == 0 {
      return [];
    }
    var decoder := new LossyDecoder(p, charLenMax);
    ret := decoder.Run();
    LossyBound(p, 0);
  }
}
