/**
 * Addresses as text: `ipv4ToBytes`, `ipv4ToString`, `ipv6ToBytes` and `ipv6ToString` of
 * examples/dns-server/dns-message.js.
 */
module DnsAddress {
  import opened DnsBytes
  import opened Numerals
  import opened Seqs
  import opened Wrappers

  // IPv4

  /** `Number` on a part between dots; signs, exponents, blanks and other radixes are not modelled. */
  function PartNumber(s: string): Option<nat> {
    if AllDigits(s) then Some(DecimalValue(s)) else None
  }

  predicate IsBytePart(s: string) {
    PartNumber(s).Some? && PartNumber(s).value <= 255
  }

  function Ipv4ToBytes(s: string): Option<seq<byte>> {
    var parts := Split(s, '.');
    if |parts| == 4 && forall k :: 0 <= k < 4 ==> IsBytePart(parts[k]) then
      Some(seq(4, k requires 0 <= k < 4 => PartNumber(parts[k]).value as byte))
    else None
  }

  function DecimalTexts(b: seq<byte>): seq<string> {
    seq(|b|, k requires 0 <= k < |b| => Decimal(b[k]))
  }

  function Ipv4ToString(b: seq<byte>): string {
    Join(DecimalTexts(b), '.')
  }

  lemma PartReadsBack(b: byte)
    ensures '.' !in Decimal(b) && IsBytePart(Decimal(b)) && PartNumber(Decimal(b)) == Some(b)
  {
    DecimalValueOfDecimal(b);
  }

  lemma FourParts(s: string, parts: seq<string>, b: seq<byte>)
    requires |b| == 4 && parts == Split(s, '.') && |parts| == 4
    requires forall k :: 0 <= k < 4 ==> IsBytePart(parts[k]) && PartNumber(parts[k]) == Some(b[k])
    ensures Ipv4ToBytes(s) == Some(b)
  {
    assert Ipv4ToBytes(s).value == b;
  }

  lemma Ipv4RoundTrip(b: seq<byte>)
    requires |b| == 4
    ensures Ipv4ToBytes(Ipv4ToString(b)) == Some(b)
  {
    var parts := DecimalTexts(b);
    forall k | 0 <= k < 4
      ensures '.' !in parts[k] && IsBytePart(parts[k]) && PartNumber(parts[k]) == Some(b[k])
    {
      PartReadsBack(b[k]);
    }
    SplitJoin(parts, '.');
    FourParts(Join(parts, '.'), parts, b);
  }

  // IPv6

  /** Position of the first "::", or -1. */
  function DoubleColon(s: string): (i: int)
    ensures -1 <= i && (i >= 0 ==> i + 2 <= |s|)
  {
    if |s| < 2 then -1
    else if s[0] == ':' && s[1] == ':' then 0
    else
      var i := DoubleColon(s[1..]);
      if i < 0 then -1 else i + 1
  }

  function Groups(s: string): seq<string> {
    if s == "" then [] else Split(s, ':')
  }

  function Zeros(n: int): (z: seq<string>)
    ensures |z| == if n > 0 then n else 0
  {
    if n <= 0 then [] else ["0"] + Zeros(n - 1)
  }

  function BeforeDouble(s: string): string {
    var i := DoubleColon(s);
    if i < 0 then s else s[..i]
  }

  function Filled(head: seq<string>, tail: seq<string>): seq<string> {
    head + Zeros(8 - |head| - |tail|) + tail
  }

  /** The groups of an address with "::" expanded; a second "::" and what follows it is dropped. */
  function Expanded(s: string): seq<string> {
    var i := DoubleColon(s);
    if i < 0 then Groups(s)
    else
      Filled(Groups(s[..i]), Groups(BeforeDouble(s[i + 2..])))
  }

  /** `parseInt(group || '0', 16)`; NaN is stored as 0. */
  function GroupValue(s: string): int {
    var v := ParseHexInt(if s == "" then "0" else s);
    if v.Some? then v.value else 0
  }

  function GroupsBytes(groups: seq<string>): seq<byte> {
    if groups == [] then [] else Word16(GroupValue(groups[0])) + GroupsBytes(groups[1..])
  }

  function Ipv6ToBytes(s: string): Option<seq<byte>> {
    if |Expanded(s)| == 8 then Some(GroupsBytes(Expanded(s))) else None
  }

  lemma {:induction false} GroupsBytesAt(groups: seq<string>, k: nat)
    requires k < |groups|
    ensures |GroupsBytes(groups)| == 2 * |groups|
    ensures GroupsBytes(groups)[2 * k] == High(GroupValue(groups[k]))
    ensures GroupsBytes(groups)[2 * k + 1] == Low(GroupValue(groups[k]))
  {
    hide GroupValue;
    if |groups| > 1 {
      GroupsBytesAt(groups[1..], if k == 0 then 0 else k - 1);
    }
  }

  /** `ipv6ToBytes` */
  method Ipv6ToBytesLoop(s: string) returns (r: Option<array<byte>>)
    ensures r.Some? <==> Ipv6ToBytes(s).Some?
    ensures r.Some? ==> fresh(r.value) && r.value[..] == Ipv6ToBytes(s).value
  {
    var groups := Expanded(s);
    if |groups| != 8 {
      return None;
    }
    var bytes := new byte[16];
    FillGroups(bytes, groups);
    return Some(bytes);
  }

  method FillGroups(bytes: array<byte>, groups: seq<string>)
    requires bytes.Length == 16 && |groups| == 8
    modifies bytes
    ensures bytes[..] == GroupsBytes(groups)
  {
    hide GroupValue;
    for i := 0 to 8
      invariant forall k :: 0 <= k < i ==> Written(bytes[..], k, groups[k])
    {
      var v := GroupValue(groups[i]);
      WriteGroup(bytes, i, v);
    }
    FilledIn(bytes[..], groups);
  }

  method WriteGroup(bytes: array<byte>, i: nat, v: int)
    requires bytes.Length == 16 && i < 8
    modifies bytes
    ensures bytes[..] == old(bytes[..])[2 * i := High(v)][2 * i + 1 := Low(v)]
  {
    bytes[i * 2] := High(v);
    bytes[i * 2 + 1] := Low(v);
  }

  /** Group `k` stands in its two bytes. */
  predicate Written(bytes: seq<byte>, k: nat, group: string) {
    2 * k + 1 < |bytes| && bytes[2 * k] == High(GroupValue(group)) && bytes[2 * k + 1] == Low(GroupValue(group))
  }

  lemma FilledIn(bytes: seq<byte>, groups: seq<string>)
    requires |bytes| == 16 && |groups| == 8
    requires forall k :: 0 <= k < 8 ==> Written(bytes, k, groups[k])
    ensures bytes == GroupsBytes(groups)
  {
    forall k | 0 <= k < 8
      ensures |GroupsBytes(groups)| == 16
      ensures GroupsBytes(groups)[2 * k] == bytes[2 * k] && GroupsBytes(groups)[2 * k + 1] == bytes[2 * k + 1]
    {
      GroupsBytesAt(groups, k);
      assert Written(bytes, k, groups[k]);
    }
    GroupsBytesAt(groups, 0);
    forall i | 0 <= i < 16
      ensures GroupsBytes(groups)[i] == bytes[i]
    {
      assert i == 2 * (i / 2) || i == 2 * (i / 2) + 1;
    }
  }

  /** A byte of the buffer; one past its end counts as 0. */
  function ByteAt(b: seq<byte>, i: nat): byte {
    if i < |b| then b[i] else 0
  }

  function Piece(b: seq<byte>, k: nat): (v: nat)
    ensures v < 0x10000
  {
    var hi: int := ByteAt(b, 2 * k);
    256 * hi + ByteAt(b, 2 * k + 1)
  }

  function PieceTexts(b: seq<byte>): seq<string> {
    seq(8, k requires 0 <= k < 8 => Hex(Piece(b, k)))
  }

  function Ipv6ToString(b: seq<byte>): string {
    Join(PieceTexts(b), ':')
  }

  // Reading back

  predicate HexGroup(s: string) {
    s != "" && AllHex(s)
  }

  predicate HexGroups(groups: seq<string>) {
    forall k :: 0 <= k < |groups| ==> HexGroup(groups[k])
  }

  /** No "::" inside, no ":" at either end. */
  predicate Tight(s: string) {
    DoubleColon(s) == -1 && (s != "" ==> s[0] != ':' && s[|s| - 1] != ':')
  }

  lemma {:induction false} TightColon(a: string, b: string)
    requires ':' !in a && a != "" && Tight(b) && b != ""
    ensures Tight(a + [':'] + b)
  {
    var s := a + [':'] + b;
    if |a| == 1 {
      assert s[1..] == [':'] + b;
      assert ([':'] + b)[1..] == b;
    } else {
      assert s[1..] == a[1..] + [':'] + b;
      TightColon(a[1..], b);
    }
  }

  lemma {:induction false} TightPlain(a: string)
    requires ':' !in a
    ensures Tight(a)
  {
    if a != "" {
      TightPlain(a[1..]);
    }
  }

  lemma {:induction false} TightJoin(groups: seq<string>)
    requires HexGroups(groups)
    ensures Tight(Join(groups, ':')) && (groups != [] ==> Join(groups, ':') != "")
  {
    if groups != [] {
      assert HexGroup(groups[0]);
      if |groups| == 1 {
        TightPlain(groups[0]);
      } else {
        TightJoin(groups[1..]);
        TightColon(groups[0], Join(groups[1..], ':'));
      }
    }
  }

  lemma {:induction false} FirstDouble(a: string, b: string)
    requires DoubleColon(a) == -1 && (a != "" ==> a[|a| - 1] != ':')
    ensures DoubleColon(a + "::" + b) == |a|
  {
    var s := a + "::" + b;
    if a != "" {
      assert s[1..] == a[1..] + "::" + b;
      FirstDouble(a[1..], b);
    }
  }

  lemma GroupsJoin(groups: seq<string>)
    requires HexGroups(groups)
    ensures Groups(Join(groups, ':')) == groups
  {
    TightJoin(groups);
    if groups != [] {
      forall k | 0 <= k < |groups|
        ensures ':' !in groups[k]
      {
        assert HexGroup(groups[k]);
      }
      SplitJoin(groups, ':');
    }
  }

  lemma ExpandedParts(a: string, b: string)
    requires Tight(a) && Tight(b)
    ensures Expanded(a + "::" + b) == Filled(Groups(a), Groups(b))
  {
    var s := a + "::" + b;
    FirstDouble(a, b);
    assert s[..|a|] == a;
    assert s[|a| + 2..] == b;
    assert BeforeDouble(b) == b;
  }

  /** "::" stands for as many zero groups as are missing. */
  lemma CompressedAddress(head: seq<string>, tail: seq<string>)
    requires HexGroups(head) && HexGroups(tail)
    ensures Expanded(Join(head, ':') + "::" + Join(tail, ':')) == head + Zeros(8 - |head| - |tail|) + tail
    ensures Ipv6ToBytes(Join(head, ':') + "::" + Join(tail, ':')).Some? <==> |head| + |tail| <= 8
  {
    hide Join, Groups, Expanded, Tight, HexGroups, GroupsBytes, Zeros;
    var a, b := Join(head, ':'), Join(tail, ':');
    TightJoin(head);
    TightJoin(tail);
    GroupsJoin(head);
    GroupsJoin(tail);
    ExpandedParts(a, b);
    FilledLength(head, tail);
  }

  lemma FilledLength(head: seq<string>, tail: seq<string>)
    ensures |Filled(head, tail)| == 8 <==> |head| + |tail| <= 8
  {
  }

  lemma PieceReadsBack(b: seq<byte>, k: nat)
    requires 2 * k + 1 < |b|
    ensures HexGroup(Hex(Piece(b, k)))
    ensures High(GroupValue(Hex(Piece(b, k)))) == b[2 * k] && Low(GroupValue(Hex(Piece(b, k)))) == b[2 * k + 1]
  {
    hide Hex, HexValue, ParseHexInt;
    DigitsParse(Hex(Piece(b, k)));
    HexValueOfHex(Piece(b, k));
    assert Piece(b, k) < 0x10000;
  }

  lemma Ipv6RoundTrip(b: seq<byte>)
    requires |b| == 16
    ensures Ipv6ToBytes(Ipv6ToString(b)) == Some(b)
  {
    var groups := PieceTexts(b);
    forall k | 0 <= k < 8
      ensures HexGroup(groups[k]) && Written(b, k, groups[k])
    {
      PieceReadsBack(b, k);
    }
    TightJoin(groups);
    GroupsJoin(groups);
    FilledIn(b, groups);
  }
}
