/**
 * application/x-www-form-urlencoded parsing and serialising of lib/lws/url.js (sections 5.1 and
 * 5.2 of the WHATWG URL Standard).
 */
module FormUrlEncoded {
  import opened Numerals
  import opened PercentCoding
  import opened Seqs
  import opened Wrappers
  import Utf8

  type Pair = (string, string)

  /** `replace(/%20/g, '+')`. */
  function EscapedSpaceToPlus(t: string): string {
    if |t| < 3 then t
    else if t[..3] == "%20" then "+" + EscapedSpaceToPlus(t[3..])
    else [t[0]] + EscapedSpaceToPlus(t[1..])
  }

  /** `replace(/\+/g, ' ')`. */
  function PlusToSpace(t: string): (s: string)
    ensures |s| == |t|
  {
    seq(|t|, k requires 0 <= k < |t| => if t[k] == '+' then ' ' else t[k])
  }

  function FormEncode(s: string): string {
    EscapedSpaceToPlus(PercentEncode(s, Form))
  }

  function FormDecode(s: string): Option<string> {
    PercentDecodeString(PlusToSpace(s))
  }

  function SerializePair(p: Pair): string {
    FormEncode(p.0) + "=" + FormEncode(p.1)
  }

  function SerializeFormUrlEncoded(list: seq<Pair>): string {
    Join(seq(|list|, k requires 0 <= k < |list| => SerializePair(list[k])), '&')
  }

  /** One `&`-separated part; `None` where percent-decoding throws. */
  function ParsePart(part: string): Option<Pair> {
    var eq := IndexOf(part, '=');
    var rawName := if eq < 0 then part else part[..eq];
    var rawValue := if eq < 0 then "" else part[eq + 1..];
    var name :- FormDecode(rawName);
    var value :- FormDecode(rawValue);
    Some((name, value))
  }

  function ParseParts(parts: seq<string>): Option<seq<Pair>> {
    if parts == [] then Some([])
    else if parts[0] == "" then ParseParts(parts[1..])
    else
      var pair :- ParsePart(parts[0]);
      var rest :- ParseParts(parts[1..]);
      Some([pair] + rest)
  }

  function ParseFormUrlEncoded(input: string): Option<seq<Pair>> {
    if input == "" then Some([]) else ParseParts(Split(input, '&'))
  }

  /** `parseFormURLEncoded`, which pushes the pairs one at a time and throws at the first bad one. */
  method ParseFormUrlEncodedLoop(input: string) returns (output: Option<seq<Pair>>)
    ensures output == ParseFormUrlEncoded(input)
  {
    if input == "" {
      return Some([]);
    }
    var parts := Split(input, '&');
    var pairs: seq<Pair> := [];
    for k := 0 to |parts|
      invariant ParseParts(parts).Some? <==> ParseParts(parts[k..]).Some?
      invariant ParseParts(parts).Some? ==> ParseParts(parts).value == pairs + ParseParts(parts[k..]).value
    {
      assert parts[k..][1..] == parts[k + 1..];
      if parts[k] == "" {
        continue;
      }
      var pair := ParsePart(parts[k]);
      if pair.None? {
        return None;
      }
      pairs := pairs + [pair.value];
    }
    assert parts[|parts|..] == [];
    assert pairs + [] == pairs;
    output := Some(pairs);
  }

  /** What one byte of a text becomes: kept, a plus sign for a space, or an escape. */
  function ByteUnit(b: byte): string {
    if b < 0x80 && Kept(Form, b as char) then [b as char] else PercentByte(b)
  }

  function FormUnit(b: byte): string {
    if b == 0x20 then "+" else ByteUnit(b)
  }

  lemma {:induction false} AllBytesEscaped(bs: seq<byte>)
    requires forall k :: 0 <= k < |bs| ==> ByteUnit(bs[k]) == PercentByte(bs[k])
    ensures FlatMap(ByteUnit, bs) == FlatMap(PercentByte, bs)
  {
    if bs != [] {
      AllBytesEscaped(bs[1..]);
    }
  }

  lemma EncodeCharByBytes(c: char)
    ensures PercentEncodeChar(Form, c) == FlatMap(ByteUnit, Utf8.EncodeChar(c))
  {
    Utf8.AsciiByte(c);
    var bs := Utf8.EncodeChar(c);
    if Kept(Form, c) {
      FlatMapOne(ByteUnit, bs[0]);
    } else {
      AllBytesEscaped(bs);
    }
  }

  lemma {:induction false} EncodeByBytes(s: string)
    ensures PercentEncode(s, Form) == FlatMap(ByteUnit, Utf8.Encode(s))
  {
    if s != [] {
      EncodeCharByBytes(s[0]);
      EncodeByBytes(s[1..]);
      FlatMapAppend(ByteUnit, Utf8.EncodeChar(s[0]), Utf8.Encode(s[1..]));
    }
  }

  /** `%20` is found only where an escaped space stands, never across two escapes. */
  lemma {:induction false} SpacesByBytes(bs: seq<byte>)
    ensures EscapedSpaceToPlus(FlatMap(ByteUnit, bs)) == FlatMap(FormUnit, bs)
  {
    if bs != [] {
      var u, rest := ByteUnit(bs[0]), FlatMap(ByteUnit, bs[1..]);
      SpacesByBytes(bs[1..]);
      SpaceAtUnit(bs[0], rest);
    }
  }

  lemma SkipNonPercent(c: char, rest: string)
    requires c != '%'
    ensures EscapedSpaceToPlus([c] + rest) == [c] + EscapedSpaceToPlus(rest)
  {
    assert ([c] + rest)[1..] == rest;
  }

  lemma EscapeOfSpace(b: byte)
    ensures PercentByte(b) == "%20" <==> b == 0x20
  {
    assert b == b / 16 * 16 + b % 16;
    assert HexDigit(b / 16) == '2' <==> b / 16 == 2;
    assert HexDigit(b % 16) == '0' <==> b % 16 == 0;
  }

  lemma PrependThree(a: char, b: char, c: char, x: string)
    ensures [a, b, c] + x == [a] + ([b] + ([c] + x))
  {
    var l, r := [a, b, c] + x, [a] + ([b] + ([c] + x));
    forall k | 0 <= k < |l|
      ensures l[k] == r[k]
    {
      if k >= 3 {
        assert l[k] == x[k - 3];
      }
    }
  }

  lemma SpaceAtEscape(b: byte, rest: string)
    ensures
      EscapedSpaceToPlus(PercentByte(b) + rest) ==
      (if b == 0x20 then "+" else PercentByte(b)) + EscapedSpaceToPlus(rest)
  {
    var u := PercentByte(b);
    var t := u + rest;
    EscapeOfSpace(b);
    assert t[..3] == u && t[3..] == rest;
    if b != 0x20 {
      var h, l := u[1], u[2];
      assert t[1..] == [h] + ([l] + rest);
      SkipNonPercent(h, [l] + rest);
      SkipNonPercent(l, rest);
      var x := EscapedSpaceToPlus(rest);
      assert EscapedSpaceToPlus(t) == ['%'] + ([h] + ([l] + x));
      PrependThree('%', h, l, x);
    }
  }

  lemma SpaceAtUnit(b: byte, rest: string)
    ensures EscapedSpaceToPlus(ByteUnit(b) + rest) == FormUnit(b) + EscapedSpaceToPlus(rest)
  {
    if b < 0x80 && Kept(Form, b as char) {
      SkipNonPercent(b as char, rest);
    } else {
      SpaceAtEscape(b, rest);
    }
  }

  /** The encoded form of a text, byte by byte. */
  lemma FormEncodeByBytes(s: string)
    ensures FormEncode(s) == FlatMap(FormUnit, Utf8.Encode(s))
  {
    EncodeByBytes(s);
    SpacesByBytes(Utf8.Encode(s));
  }

  /** No separator of the format is left in an encoded text. */
  lemma {:induction false} UnitsHaveNoSeparator(bs: seq<byte>)
    ensures '&' !in FlatMap(FormUnit, bs) && '=' !in FlatMap(FormUnit, bs)
  {
    if bs != [] {
      UnitsHaveNoSeparator(bs[1..]);
    }
  }

  function PlusUnit(b: byte): string {
    PlusToSpace(FormUnit(b))
  }

  lemma PlusToSpaceAppend(a: string, b: string)
    ensures PlusToSpace(a + b) == PlusToSpace(a) + PlusToSpace(b)
  {
  }

  lemma {:induction false} PlusByBytes(bs: seq<byte>)
    ensures PlusToSpace(FlatMap(FormUnit, bs)) == FlatMap(PlusUnit, bs)
  {
    if bs != [] {
      PlusByBytes(bs[1..]);
      PlusToSpaceAppend(FormUnit(bs[0]), FlatMap(FormUnit, bs[1..]));
    }
  }

  /** The ASCII bytes of a decoded unit: the byte itself, or the three bytes of its escape. */
  function WireUnit(b: byte): seq<byte> {
    if b == 0x20 || (b < 0x80 && Kept(Form, b as char)) then [b]
    else [0x25, HexDigit(b / 16) as int, HexDigit(b % 16) as int]
  }

  lemma WireOfUnit(b: byte)
    ensures Utf8.Encode(PlusUnit(b)) == WireUnit(b)
  {
    var u := PlusUnit(b);
    if b == 0x20 {
      assert u == [' '];
    } else if b < 0x80 && Kept(Form, b as char) {
      assert u == [b as char];
    } else {
      assert u == ['%', HexDigit(b / 16), HexDigit(b % 16)];
    }
    Utf8.EncodeAscii(u);
  }

  lemma {:induction false} WireByBytes(bs: seq<byte>)
    ensures Utf8.Encode(FlatMap(PlusUnit, bs)) == FlatMap(WireUnit, bs)
  {
    if bs != [] {
      WireOfUnit(bs[0]);
      WireByBytes(bs[1..]);
      FlatMapAppend(Utf8.EncodeChar, PlusUnit(bs[0]), FlatMap(PlusUnit, bs[1..]));
    }
  }

  lemma HexDigitReads(n: nat)
    requires n < 16
    ensures IsHexByte(HexDigit(n) as int) && HexByteValue(HexDigit(n) as int) == n
  {
  }

  lemma {:induction false} DecodeWire(before: seq<byte>, bs: seq<byte>)
    ensures PercentDecodeFrom(before + FlatMap(WireUnit, bs), |before|) == bs
    decreases |bs|
  {
    if bs != [] {
      var u, rest := WireUnit(bs[0]), FlatMap(WireUnit, bs[1..]);
      var bytes := before + FlatMap(WireUnit, bs);
      assert bytes == before + u + rest;
      DecodeWire(before + u, bs[1..]);
      DecodeUnit(before, bs[0], rest);
    }
  }

  lemma DecodeUnit(before: seq<byte>, b: byte, rest: seq<byte>)
    ensures
      var u := WireUnit(b);
      var bytes := before + u + rest;
      PercentDecodeFrom(bytes, |before|) == [b] + PercentDecodeFrom(bytes, |before + u|)
  {
    var u := WireUnit(b);
    var bytes := before + u + rest;
    assert bytes[|before|] == u[0];
    if |u| == 3 {
      HexDigitReads(b / 16);
      HexDigitReads(b % 16);
      assert bytes[|before| + 1] == u[1] && bytes[|before| + 2] == u[2];
    }
  }

  /** Decoding undoes encoding for every text, literal `%`, `+`, `&`, `=` and "%20" included. */
  lemma FormDecodeEncode(s: string)
    ensures FormDecode(FormEncode(s)) == Some(s)
    ensures '&' !in FormEncode(s) && '=' !in FormEncode(s)
  {
    var bs := Utf8.Encode(s);
    FormEncodeByBytes(s);
    UnitsHaveNoSeparator(bs);
    PlusByBytes(bs);
    WireByBytes(bs);
    assert [] + FlatMap(WireUnit, bs) == FlatMap(WireUnit, bs);
    DecodeWire([], bs);
    Utf8.DecodeIffEncode(bs, s);
  }

  lemma ParseSerializedPair(p: Pair)
    ensures ParsePart(SerializePair(p)) == Some(p)
    ensures '&' !in SerializePair(p) && SerializePair(p) != ""
  {
    FormDecodeEncode(p.0);
    FormDecodeEncode(p.1);
    var name, value := FormEncode(p.0), FormEncode(p.1);
    IndexOfFirst(name, '=', value);
    var part := SerializePair(p);
    assert part[..|name|] == name && part[|name| + 1..] == value;
  }

  lemma {:induction false} ParseSerializedParts(list: seq<Pair>, parts: seq<string>)
    requires |parts| == |list|
    requires forall k :: 0 <= k < |list| ==> parts[k] == SerializePair(list[k])
    ensures ParseParts(parts) == Some(list)
  {
    hide SerializePair;
    if list != [] {
      ParseSerializedPair(list[0]);
      ParseSerializedParts(list[1..], parts[1..]);
      assert list == [list[0]] + list[1..];
    }
  }

  /** Parsing a serialised list gives back the list, for every list of name and value texts. */
  lemma ParseSerialize(list: seq<Pair>)
    ensures ParseFormUrlEncoded(SerializeFormUrlEncoded(list)) == Some(list)
  {
    var parts := seq(|list|, k requires 0 <= k < |list| => SerializePair(list[k]));
    forall k | 0 <= k < |list|
      ensures '&' !in parts[k] && parts[k] != ""
    {
      ParseSerializedPair(list[k]);
    }
    if list != [] {
      SplitJoin(parts, '&');
      ParseSerializedParts(list, parts);
    }
  }
}
