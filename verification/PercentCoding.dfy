/**
 * Percent-encoding of lib/lws/url.js (section 1.3 of the WHATWG URL Standard).
 *
 * Strings are sequences of Unicode scalar values.  The JavaScript sets of extra code points are
 * one predicate over the name of the set.
 */
module PercentCoding {
  import opened Numerals
  import opened Seqs
  import opened Wrappers
  import Utf8

  datatype EncodeSet = C0 | Fragment | Query | SpecialQuery | Path | Userinfo | Component | Form

  predicate QueryExtra(c: char) {
    c in {' ', '"', '#', '<', '>'}
  }

  predicate PathExtra(c: char) {
    QueryExtra(c) || c in {'?', '^', '`', '{', '}'}
  }

  predicate UserinfoExtra(c: char) {
    PathExtra(c) || c in {'/', ':', ';', '=', '@', '[', '\\', ']', '|'}
  }

  predicate ComponentExtra(c: char) {
    UserinfoExtra(c) || c in {'$', '%', '&', '+', ','}
  }

  /** Membership in the extra code points of a set. */
  predicate Extra(set_: EncodeSet, c: char) {
    match set_
    case C0 => false
    case Fragment => c in {' ', '"', '<', '>', '`'}
    case Query => QueryExtra(c)
    case SpecialQuery => QueryExtra(c) || c == '\''
    case Path => PathExtra(c)
    case Userinfo => UserinfoExtra(c)
    case Component => ComponentExtra(c)
    case Form => ComponentExtra(c) || c in {'!', '\'', '(', ')', '~'}
  }

  /** A character the encoder copies unchanged. */
  predicate Kept(set_: EncodeSet, c: char) {
    0x1F < c as int <= 0x7E && !Extra(set_, c)
  }

  function HexDigit(n: nat): (c: char)
    requires n < 16
    ensures '0' <= c <= '9' || 'A' <= c <= 'F'
  {
    if n < 10 then ('0' as int + n) as char else ('A' as int + n - 10) as char
  }

  function PercentByte(b: byte): (s: string)
    ensures |s| == 3
  {
    ['%', HexDigit(b / 16), HexDigit(b % 16)]
  }

  function PercentEncodeChar(set_: EncodeSet, c: char): string {
    if Kept(set_, c) then [c] else FlatMap(PercentByte, Utf8.EncodeChar(c))
  }

  function CharEncoder(set_: EncodeSet): char -> string {
    c => PercentEncodeChar(set_, c)
  }

  function PercentEncode(s: string, set_: EncodeSet): string {
    FlatMap(CharEncoder(set_), s)
  }

  lemma NothingEncoded(set_: EncodeSet)
    ensures PercentEncode("", set_) == ""
  {
  }

  lemma NoBytes()
    ensures FlatMap(PercentByte, []) == ""
  {
  }

  /** `utf8PercentEncode`. */
  method Utf8PercentEncode(input: string, set_: EncodeSet) returns (out: string)
    ensures out == PercentEncode(input, set_)
  {
    hide FlatMap, PercentByte, Kept;
    NothingEncoded(set_);
    out := "";
    for k := 0 to |input|
      invariant out == PercentEncode(input[..k], set_)
    {
      var c := input[k];
      assert input[..k + 1] == input[..k] + [c];
      FlatMapSnoc(CharEncoder(set_), input[..k], c);
      if Kept(set_, c) {
        out := out + [c];
        continue;
      }
      var bytes := Utf8.EncodeChar(c);
      var before := out;
      NoBytes();
      assert before + [] == before;
      for j := 0 to |bytes|
        invariant out == before + FlatMap(PercentByte, bytes[..j])
      {
        assert bytes[..j + 1] == bytes[..j] + [bytes[j]];
        FlatMapSnoc(PercentByte, bytes[..j], bytes[j]);
        Assoc(before, FlatMap(PercentByte, bytes[..j]), PercentByte(bytes[j]));
        out := out + PercentByte(bytes[j]);
      }
      assert bytes[..|bytes|] == bytes;
    }
    assert input[..|input|] == input;
  }

  /** Whether an escape `%XX` stands at position `i`. */
  predicate EscapeAt(bytes: seq<byte>, i: nat)
    requires i < |bytes|
  {
    bytes[i] == 0x25 && i + 2 < |bytes| && IsHexByte(bytes[i + 1]) && IsHexByte(bytes[i + 2])
  }

  function PercentDecodeFrom(bytes: seq<byte>, i: nat): seq<byte>
    requires i <= |bytes|
    decreases |bytes| - i
  {
    if i == |bytes| then []
    else if EscapeAt(bytes, i) then
      [HexByteValue(bytes[i + 1]) * 16 + HexByteValue(bytes[i + 2])] + PercentDecodeFrom(bytes, i + 3)
    else [bytes[i]] + PercentDecodeFrom(bytes, i + 1)
  }

  function PercentDecode(bytes: seq<byte>): seq<byte> {
    PercentDecodeFrom(bytes, 0)
  }

  /** The decoder's next byte moves to the end of its output. */
  lemma DecodeNext(out: seq<byte>, bytes: seq<byte>, i: nat)
    requires i < |bytes|
    ensures
      if EscapeAt(bytes, i) then
        var b := HexByteValue(bytes[i + 1]) * 16 + HexByteValue(bytes[i + 2]);
        out + PercentDecodeFrom(bytes, i) == (out + [b]) + PercentDecodeFrom(bytes, i + 3)
      else out + PercentDecodeFrom(bytes, i) == (out + [bytes[i]]) + PercentDecodeFrom(bytes, i + 1)
  {
    if EscapeAt(bytes, i) {
      var b := HexByteValue(bytes[i + 1]) * 16 + HexByteValue(bytes[i + 2]);
      Assoc(out, [b], PercentDecodeFrom(bytes, i + 3));
    } else {
      Assoc(out, [bytes[i]], PercentDecodeFrom(bytes, i + 1));
    }
  }

  /** `percentDecodeBytes`; a `%` that starts no escape stands for itself. */
  method PercentDecodeBytes(bytes: seq<byte>) returns (out: seq<byte>)
    ensures out == PercentDecode(bytes)
  {
    hide PercentDecodeFrom, HexByteValue;
    out := [];
    var i := 0;
    assert [] + PercentDecode(bytes) == PercentDecode(bytes);
    while i < |bytes|
      invariant i <= |bytes|
      invariant out + PercentDecodeFrom(bytes, i) == PercentDecode(bytes)
    {
      DecodeNext(out, bytes, i);
      var b := bytes[i];
      if b != 0x25 {
        out := out + [b];
        i := i + 1;
        continue;
      }
      if i + 2 < |bytes| && IsHexByte(bytes[i + 1]) && IsHexByte(bytes[i + 2]) {
        out := out + [HexByteValue(bytes[i + 1]) * 16 + HexByteValue(bytes[i + 2])];
        i := i + 2;
      } else {
        out := out + [b];
      }
      i := i + 1;
    }
    DecodedAll(bytes);
    assert out + [] == out;
  }

  lemma DecodedAll(bytes: seq<byte>)
    ensures PercentDecodeFrom(bytes, |bytes|) == []
  {
  }

  /** `percentDecodeString`; `None` stands for the TypeError of `toString` on ill-formed UTF-8. */
  function PercentDecodeString(s: string): Option<string> {
    Utf8.Decode(PercentDecode(Utf8.Encode(s)))
  }

  lemma {:induction false} DecodeFromWithout(bytes: seq<byte>, i: nat)
    requires i <= |bytes| && 0x25 !in bytes
    ensures PercentDecodeFrom(bytes, i) == bytes[i..]
    decreases |bytes| - i
  {
    if i < |bytes| {
      DecodeFromWithout(bytes, i + 1);
    }
  }

  /** Text without `%` percent-decodes to itself, whatever characters it has. */
  lemma DecodeStringWithout(s: string)
    requires '%' !in s
    ensures PercentDecodeString(s) == Some(s)
  {
    var bytes := Utf8.Encode(s);
    if 0x25 in bytes {
      Utf8.ByteOfAscii(s, 0x25);
    }
    DecodeFromWithout(bytes, 0);
    assert bytes[0..] == bytes;
    Utf8.DecodeIffEncode(bytes, s);
  }

  /** The sets whose encoding can be applied again without effect: all that leave `%` alone. */
  predicate Idempotent(set_: EncodeSet) {
    set_ != Component && set_ != Form
  }

  predicate AllKept(s: string, set_: EncodeSet) {
    forall k :: 0 <= k < |s| ==> Kept(set_, s[k])
  }

  /** Encoding is the identity exactly on text it has nothing to encode in. */
  lemma {:induction false} EncodeKept(s: string, set_: EncodeSet)
    requires AllKept(s, set_)
    ensures PercentEncode(s, set_) == s
  {
    if s != [] {
      EncodeKept(s[1..], set_);
      assert s == [s[0]] + s[1..];
    }
  }

  /** Every character the encoder writes is `%`, an upper-case hex digit, or kept as it was. */
  lemma {:induction false} PercentBytesKept(bs: seq<byte>, set_: EncodeSet)
    requires Idempotent(set_)
    ensures AllKept(FlatMap(PercentByte, bs), set_)
  {
    if bs != [] {
      PercentBytesKept(bs[1..], set_);
    }
  }

  lemma {:induction false} EncodedIsKept(s: string, set_: EncodeSet)
    requires Idempotent(set_)
    ensures AllKept(PercentEncode(s, set_), set_)
  {
    if s != [] {
      EncodedIsKept(s[1..], set_);
      if !Kept(set_, s[0]) {
        PercentBytesKept(Utf8.EncodeChar(s[0]), set_);
      }
    }
  }

  /** Encoding twice is encoding once: what makes a serialised URL parse back to itself. */
  lemma EncodeIdempotent(s: string, set_: EncodeSet)
    requires Idempotent(set_)
    ensures PercentEncode(PercentEncode(s, set_), set_) == PercentEncode(s, set_)
  {
    EncodedIsKept(s, set_);
    EncodeKept(PercentEncode(s, set_), set_);
  }
}
