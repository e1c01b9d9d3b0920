/**
 * Questions and resource records: `encodeRdata`, `decodeRdata`, `encodeQuestion`, `decodeQuestion`,
 * `encodeRR` and `decodeRR` of examples/dns-server/dns-message.js (sections 3.3, 4.1.2 and 4.1.3 of
 * RFC 1035, section 2.2 of RFC 3596).
 *
 * Numbers are integers of any size; the encoder cuts them to their field.  A `None` result of an
 * encoder or decoder stands for a thrown error.
 */
module DnsRecord {
  import opened DnsAddress
  import opened DnsBytes
  import opened DnsName
  import opened Seqs
  import opened Wrappers

  const TYPE_A: int := 1
  const TYPE_NS: int := 2
  const TYPE_CNAME: int := 5
  const TYPE_SOA: int := 6
  const TYPE_PTR: int := 12
  const TYPE_MX: int := 15
  const TYPE_TXT: int := 16
  const TYPE_AAAA: int := 28

  const CLASS_IN: int := 1

  /** The shapes of `rdata` the codec knows. */
  datatype Rdata =
    | Address(address: string)
    | Target(target: string)
    | Soa(mname: string, rname: string, serial: int, refresh: int, retry: int, expire: int, minimum: int)
    | Mx(preference: int, exchange: string)
    | Txt(text: seq<string>)
    | Raw(raw: seq<byte>)
    | NoData

  datatype Question = Question(name: string, qtype: int, qclass: Option<int>)

  datatype RR = RR(name: string, rtype: int, class_: Option<int>, ttl: int, rdata: Rdata)

  /** How the codec treats a record type. */
  datatype Kind = KindA | KindAaaa | KindName | KindSoa | KindMx | KindTxt | KindRaw

  function KindOf(rtype: int): Kind {
    if rtype == TYPE_A then KindA
    else if rtype == TYPE_AAAA then KindAaaa
    else if rtype == TYPE_NS || rtype == TYPE_CNAME || rtype == TYPE_PTR then KindName
    else if rtype == TYPE_SOA then KindSoa
    else if rtype == TYPE_MX then KindMx
    else if rtype == TYPE_TXT then KindTxt
    else KindRaw
  }

  // Record data

  function SoaTail(d: Rdata): (s: seq<byte>)
    requires d.Soa?
    ensures |s| == 20
  {
    Word32(d.serial) + (Word32(d.refresh) + (Word32(d.retry) + (Word32(d.expire) + Word32(d.minimum))))
  }

  function EncodeTxt(text: seq<string>): seq<byte> {
    if text == [] then [] else [Low(|text[0]|)] + LabelBytes(text[0]) + EncodeTxt(text[1..])
  }

  /** `encodeRdata`; data of the wrong shape for its type is an error, or nothing for a raw type. */
  function EncodeRdata(kind: Kind, d: Rdata): Option<seq<byte>> {
    match kind
    case KindA => if d.Address? then Ipv4ToBytes(d.address) else None
    case KindAaaa => if d.Address? then Ipv6ToBytes(d.address) else None
    case KindName => if d.Target? then EncodeName(d.target) else None
    case KindSoa =>
      if !d.Soa? then None
      else
        var mname :- EncodeName(d.mname);
        var rname :- EncodeName(d.rname);
        Some(mname + (rname + SoaTail(d)))
    case KindMx =>
      if !d.Mx? then None
      else
        var exchange :- EncodeName(d.exchange);
        Some(Word16(d.preference) + exchange)
    case KindTxt => if d.Txt? then Some(EncodeTxt(d.text)) else None
    case KindRaw => Some(if d.Raw? then d.raw else [])
  }

  function DecodeSoaTail(buf: seq<byte>, p: nat, mname: string, rname: string): Option<Rdata> {
    var serial :- Uint32(buf, p);
    var refresh :- Uint32(buf, p + 4);
    var retry :- Uint32(buf, p + 8);
    var expire :- Uint32(buf, p + 12);
    var minimum :- Uint32(buf, p + 16);
    Some(Soa(mname, rname, serial, refresh, retry, expire, minimum))
  }

  /** A string that starts behind the buffer is read as empty, and ends the list. */
  function DecodeTxt(buf: seq<byte>, p: nat, end: nat): seq<string>
    decreases |buf| - p
  {
    if p >= end then []
    else if p >= |buf| then [""]
    else [BytesToLabel(Clamp(buf, p + 1, p + 1 + buf[p]))] + DecodeTxt(buf, p + 1 + buf[p], end)
  }

  function DecodeRdata(kind: Kind, buf: seq<byte>, start: nat, end: nat): Option<Rdata> {
    match kind
    case KindA => Some(Address(Ipv4ToString(Clamp(buf, start, end))))
    case KindAaaa => Some(Address(Ipv6ToString(Clamp(buf, start, end))))
    case KindName =>
      var target :- DecodeName(buf, start);
      Some(Target(target.value))
    case KindSoa =>
      var mname :- DecodeName(buf, start);
      var rname :- DecodeName(buf, mname.next);
      DecodeSoaTail(buf, rname.next, mname.value, rname.value)
    case KindMx =>
      var preference :- Uint16(buf, start);
      var exchange :- DecodeName(buf, start + 2);
      Some(Mx(preference, exchange.value))
    case KindTxt => Some(Txt(DecodeTxt(buf, start, end)))
    case KindRaw => Some(Raw(Clamp(buf, start, end)))
  }

  /** The loop over the strings of a TXT record. */
  method DecodeTxtLoop(buf: seq<byte>, start: nat, end: nat) returns (text: seq<string>)
    ensures text == DecodeTxt(buf, start, end)
  {
    hide Clamp, BytesToLabel;
    text := [];
    var p: nat := start;
    while p < end
      invariant text + DecodeTxt(buf, p, end) == DecodeTxt(buf, start, end)
      decreases |buf| - p
    {
      if p >= |buf| {
        return text + [""];
      }
      var len := buf[p];
      var s := BytesToLabelLoop(Clamp(buf, p + 1, p + 1 + len));
      text := text + [s];
      p := p + 1 + len;
    }
  }

  // Round trip of record data

  predicate Field16(v: int) {
    0 <= v < 0x10000
  }

  predicate Field32(v: int) {
    0 <= v < 0x1_0000_0000
  }

  predicate GoodText(s: string) {
    |s| <= 255 && Latin(s)
  }

  ghost predicate GoodAddress4(s: string) {
    exists b: seq<byte> :: |b| == 4 && Ipv4ToString(b) == s
  }

  ghost predicate GoodAddress6(s: string) {
    exists b: seq<byte> :: |b| == 16 && Ipv6ToString(b) == s
  }

  ghost predicate GoodRdata(kind: Kind, d: Rdata) {
    match kind
    case KindA => d.Address? && GoodAddress4(d.address)
    case KindAaaa => d.Address? && GoodAddress6(d.address)
    case KindName => d.Target? && Canonical(d.target)
    case KindSoa =>
      && d.Soa? && Canonical(d.mname) && Canonical(d.rname) && Field32(d.serial) && Field32(d.refresh)
      && Field32(d.retry) && Field32(d.expire) && Field32(d.minimum)
    case KindMx => d.Mx? && Field16(d.preference) && Canonical(d.exchange)
    case KindTxt => d.Txt? && forall k :: 0 <= k < |d.text| ==> GoodText(d.text[k])
    case KindRaw => true
  }

  /** What is read back: raw data for the types that are not decoded. */
  function NormalRdata(kind: Kind, d: Rdata): Rdata {
    if !kind.KindRaw? then d else Raw(if d.Raw? then d.raw else [])
  }

  /** Data of this kind, written at `at`, is read back from there. */
  predicate ReadsBack(buf: seq<byte>, at: nat, kind: Kind, d: Rdata) {
    && EncodeRdata(kind, d).Some?
    && var s := EncodeRdata(kind, d).value;
       StandsAt(buf, at, s) ==> DecodeRdata(kind, buf, at, at + |s|) == Some(NormalRdata(kind, d))
  }

  lemma ClampHolds(buf: seq<byte>, at: nat, s: seq<byte>)
    requires StandsAt(buf, at, s)
    ensures Clamp(buf, at, at + |s|) == s
  {
  }

  lemma Field32Reads(buf: seq<byte>, at: nat, v: int)
    requires Field32(v) && StandsAt(buf, at, Word32(v))
    ensures Uint32(buf, at) == Some(v)
  {
    Word32Reads(buf, at, v);
  }

  lemma FivePieces(buf: seq<byte>, at: nat, a: seq<byte>, b: seq<byte>, c: seq<byte>, d: seq<byte>, e: seq<byte>)
    requires |a| == 4 && |b| == 4 && |c| == 4 && |d| == 4 && StandsAt(buf, at, a + (b + (c + (d + e))))
    ensures StandsAt(buf, at, a) && StandsAt(buf, at + 4, b) && StandsAt(buf, at + 8, c)
    ensures StandsAt(buf, at + 12, d) && StandsAt(buf, at + 16, e)
  {
    StandsSplit(buf, at, a, b + (c + (d + e)));
    StandsSplit(buf, at + 4, b, c + (d + e));
    StandsSplit(buf, at + 8, c, d + e);
    StandsSplit(buf, at + 12, d, e);
  }

  /** The five numbers stand one behind the other. */
  predicate FiveNumbers(buf: seq<byte>, at: nat, d: Rdata)
    requires d.Soa?
  {
    && Uint32(buf, at) == Some(d.serial) && Uint32(buf, at + 4) == Some(d.refresh)
    && Uint32(buf, at + 8) == Some(d.retry) && Uint32(buf, at + 12) == Some(d.expire)
    && Uint32(buf, at + 16) == Some(d.minimum)
  }

  lemma SoaTailReads(buf: seq<byte>, at: nat, d: Rdata)
    requires d.Soa? && StandsAt(buf, at, SoaTail(d))
    requires Field32(d.serial) && Field32(d.refresh) && Field32(d.retry) && Field32(d.expire) && Field32(d.minimum)
    ensures FiveNumbers(buf, at, d)
  {
    FivePieces(buf, at, Word32(d.serial), Word32(d.refresh), Word32(d.retry), Word32(d.expire), Word32(d.minimum));
    Field32Reads(buf, at, d.serial);
    Field32Reads(buf, at + 4, d.refresh);
    Field32Reads(buf, at + 8, d.retry);
    Field32Reads(buf, at + 12, d.expire);
    Field32Reads(buf, at + 16, d.minimum);
  }

  lemma SoaDecodes(buf: seq<byte>, at: nat, d: Rdata)
    requires d.Soa? && FiveNumbers(buf, at, d)
    ensures DecodeSoaTail(buf, at, d.mname, d.rname) == Some(d)
  {
  }

  lemma SoaReads(buf: seq<byte>, at: nat, d: Rdata)
    requires GoodRdata(KindSoa, d)
    ensures ReadsBack(buf, at, KindSoa, d)
  {
    hide DecodeName, EncodeName, SoaTail, DecodeSoaTail;
    NameReads(buf, at, d.mname);
    var mname := EncodeName(d.mname).value;
    NameReads(buf, at + |mname|, d.rname);
    var rname := EncodeName(d.rname).value;
    var tail := SoaTail(d);
    if StandsAt(buf, at, mname + (rname + tail)) {
      StandsSplit(buf, at, mname, rname + tail);
      StandsSplit(buf, at + |mname|, rname, tail);
      SoaTailReads(buf, at + |mname| + |rname|, d);
      SoaDecodes(buf, at + |mname| + |rname|, d);
    }
  }

  lemma {:induction false} TxtReads(buf: seq<byte>, at: nat, text: seq<string>)
    requires forall k :: 0 <= k < |text| ==> GoodText(text[k])
    requires StandsAt(buf, at, EncodeTxt(text))
    ensures DecodeTxt(buf, at, at + |EncodeTxt(text)|) == text
    decreases |text|
  {
    hide Clamp;
    if text != [] {
      var s := text[0];
      assert GoodText(s);
      StandsSplit(buf, at, [Low(|s|)] + LabelBytes(s), EncodeTxt(text[1..]));
      StandsSplit(buf, at, [Low(|s|)], LabelBytes(s));
      assert buf[at] == [Low(|s|)][0];
      assert buf[at] == |s|;
      ClampHolds(buf, at + 1, LabelBytes(s));
      LabelRoundTrip(s);
      TxtReads(buf, at + 1 + |s|, text[1..]);
    }
  }

  lemma RawReads(buf: seq<byte>, at: nat, d: Rdata)
    ensures ReadsBack(buf, at, KindRaw, d)
  {
    var s := if d.Raw? then d.raw else [];
    if StandsAt(buf, at, s) {
      ClampHolds(buf, at, s);
    }
  }

  lemma NameDataReads(buf: seq<byte>, at: nat, d: Rdata)
    requires GoodRdata(KindName, d)
    ensures ReadsBack(buf, at, KindName, d)
  {
    NameReads(buf, at, d.target);
  }

  lemma TxtDataReads(buf: seq<byte>, at: nat, d: Rdata)
    requires GoodRdata(KindTxt, d)
    ensures ReadsBack(buf, at, KindTxt, d)
  {
    if StandsAt(buf, at, EncodeTxt(d.text)) {
      TxtReads(buf, at, d.text);
    }
  }

  /** Record data written anywhere in a message is read back. */
  lemma RdataReads(buf: seq<byte>, at: nat, kind: Kind, d: Rdata)
    requires GoodRdata(kind, d)
    ensures ReadsBack(buf, at, kind, d)
  {
    match kind
    case KindA => AddressReads4(buf, at, d);
    case KindAaaa => AddressReads6(buf, at, d);
    case KindName => NameDataReads(buf, at, d);
    case KindSoa => SoaReads(buf, at, d);
    case KindMx => MxReads(buf, at, d);
    case KindTxt => TxtDataReads(buf, at, d);
    case KindRaw => RawReads(buf, at, d);
  }

  lemma AddressReads4(buf: seq<byte>, at: nat, d: Rdata)
    requires d.Address? && GoodAddress4(d.address)
    ensures ReadsBack(buf, at, KindA, d)
  {
    hide Ipv4ToString, Ipv4ToBytes;
    var b: seq<byte> :| |b| == 4 && Ipv4ToString(b) == d.address;
    Ipv4RoundTrip(b);
    if StandsAt(buf, at, b) {
      ClampHolds(buf, at, b);
    }
  }

  lemma AddressReads6(buf: seq<byte>, at: nat, d: Rdata)
    requires d.Address? && GoodAddress6(d.address)
    ensures ReadsBack(buf, at, KindAaaa, d)
  {
    hide Ipv6ToString, Ipv6ToBytes;
    var b: seq<byte> :| |b| == 16 && Ipv6ToString(b) == d.address;
    Ipv6RoundTrip(b);
    if StandsAt(buf, at, b) {
      ClampHolds(buf, at, b);
    }
  }

  lemma MxReads(buf: seq<byte>, at: nat, d: Rdata)
    requires GoodRdata(KindMx, d)
    ensures ReadsBack(buf, at, KindMx, d)
  {
    NameReads(buf, at + 2, d.exchange);
    var exchange := EncodeName(d.exchange).value;
    if StandsAt(buf, at, Word16(d.preference) + exchange) {
      StandsSplit(buf, at, Word16(d.preference), exchange);
      Word16Reads(buf, at, d.preference);
    }
  }

  // Questions

  function ClassOr(c: Option<int>): int {
    if c.Some? then c.value else CLASS_IN
  }

  function EncodeQuestion(q: Question): Option<seq<byte>> {
    var name :- EncodeName(q.name);
    Some(name + (Word16(q.qtype) + Word16(ClassOr(q.qclass))))
  }

  function DecodeQuestion(buf: seq<byte>, offset: nat): Option<Decoded<Question>> {
    var name :- DecodeName(buf, offset);
    var qtype :- Uint16(buf, name.next);
    var qclass :- Uint16(buf, name.next + 2);
    Some(Decoded(Question(name.value, qtype, Some(qclass)), name.next + 4))
  }

  predicate GoodQuestion(q: Question) {
    Canonical(q.name) && Field16(q.qtype) && Field16(ClassOr(q.qclass))
  }

  function NormalQuestion(q: Question): Question {
    q.(qclass := Some(ClassOr(q.qclass)))
  }

  lemma QuestionReads(buf: seq<byte>, at: nat, q: Question)
    requires GoodQuestion(q)
    ensures EncodeQuestion(q).Some?
    ensures StandsAt(buf, at, EncodeQuestion(q).value) ==>
              DecodeQuestion(buf, at) == Some(Decoded(NormalQuestion(q), at + |EncodeQuestion(q).value|))
  {
    hide DecodeName, EncodeName, Word16, Uint16;
    NameReads(buf, at, q.name);
    var name := EncodeName(q.name).value;
    var tail := Word16(q.qtype) + Word16(ClassOr(q.qclass));
    if StandsAt(buf, at, name + tail) {
      StandsSplit(buf, at, name, tail);
      StandsSplit(buf, at + |name|, Word16(q.qtype), Word16(ClassOr(q.qclass)));
      Field16Reads(buf, at + |name|, q.qtype);
      Field16Reads(buf, at + |name| + 2, ClassOr(q.qclass));
    }
  }

  // Records

  function RRHead(rr: RR, length: nat): (s: seq<byte>)
    ensures |s| == 10
  {
    Word16(rr.rtype) + (Word16(ClassOr(rr.class_)) + (Word32(rr.ttl) + Word16(length)))
  }

  function EncodeRR(rr: RR): Option<seq<byte>> {
    var data :- EncodeRdata(KindOf(rr.rtype), rr.rdata);
    var name :- EncodeName(rr.name);
    Some(name + (RRHead(rr, |data|) + data))
  }

  function DecodeRR(buf: seq<byte>, offset: nat): Option<Decoded<RR>> {
    var name :- DecodeName(buf, offset);
    var rtype :- Uint16(buf, name.next);
    var class_ :- Uint16(buf, name.next + 2);
    var ttl :- Uint32(buf, name.next + 4);
    var length :- Uint16(buf, name.next + 8);
    var start := name.next + 10;
    var rdata :- DecodeRdata(KindOf(rtype), buf, start, start + length);
    Some(Decoded(RR(name.value, rtype, Some(class_), ttl, rdata), start + length))
  }

  ghost predicate GoodRR(rr: RR) {
    && Canonical(rr.name) && Field16(rr.rtype) && Field16(ClassOr(rr.class_)) && Field32(rr.ttl)
    && GoodRdata(KindOf(rr.rtype), rr.rdata)
    && (EncodeRdata(KindOf(rr.rtype), rr.rdata).Some? ==>
          |EncodeRdata(KindOf(rr.rtype), rr.rdata).value| < 0x10000)
  }

  function NormalRR(rr: RR): RR {
    rr.(class_ := Some(ClassOr(rr.class_)), rdata := NormalRdata(KindOf(rr.rtype), rr.rdata))
  }

  lemma Field16Reads(buf: seq<byte>, at: nat, v: int)
    requires Field16(v) && StandsAt(buf, at, Word16(v))
    ensures Uint16(buf, at) == Some(v)
  {
    Word16Reads(buf, at, v);
  }

  lemma HeadPieces(buf: seq<byte>, at: nat, a: seq<byte>, b: seq<byte>, c: seq<byte>, d: seq<byte>)
    requires |a| == 2 && |b| == 2 && |c| == 4 && StandsAt(buf, at, a + (b + (c + d)))
    ensures StandsAt(buf, at, a) && StandsAt(buf, at + 2, b) && StandsAt(buf, at + 4, c) && StandsAt(buf, at + 8, d)
  {
    StandsSplit(buf, at, a, b + (c + d));
    StandsSplit(buf, at + 2, b, c + d);
    StandsSplit(buf, at + 4, c, d);
  }

  lemma RRHeadReads(buf: seq<byte>, at: nat, rr: RR, length: nat)
    requires StandsAt(buf, at, RRHead(rr, length)) && length < 0x10000
    requires Field16(rr.rtype) && Field16(ClassOr(rr.class_)) && Field32(rr.ttl)
    ensures Uint16(buf, at) == Some(rr.rtype) && Uint16(buf, at + 2) == Some(ClassOr(rr.class_))
    ensures Uint32(buf, at + 4) == Some(rr.ttl) && Uint16(buf, at + 8) == Some(length)
  {
    var class_ := ClassOr(rr.class_);
    HeadPieces(buf, at, Word16(rr.rtype), Word16(class_), Word32(rr.ttl), Word16(length));
    Field16Reads(buf, at, rr.rtype);
    Field16Reads(buf, at + 2, class_);
    Field32Reads(buf, at + 4, rr.ttl);
    Field16Reads(buf, at + 8, length);
  }

  /** A record written anywhere in a message is read back, with the position behind it. */
  lemma RRReads(buf: seq<byte>, at: nat, rr: RR)
    requires GoodRR(rr)
    ensures EncodeRR(rr).Some?
    ensures StandsAt(buf, at, EncodeRR(rr).value) ==>
              DecodeRR(buf, at) == Some(Decoded(NormalRR(rr), at + |EncodeRR(rr).value|))
  {
    hide DecodeName, EncodeName, EncodeRdata, DecodeRdata, RRHead, Uint16, Uint32;
    NameReads(buf, at, rr.name);
    var name := EncodeName(rr.name).value;
    var kind := KindOf(rr.rtype);
    RdataReads(buf, at + |name| + 10, kind, rr.rdata);
    var data := EncodeRdata(kind, rr.rdata).value;
    if StandsAt(buf, at, EncodeRR(rr).value) {
      StandsSplit(buf, at, name, RRHead(rr, |data|) + data);
      StandsSplit(buf, at + |name|, RRHead(rr, |data|), data);
      RRHeadReads(buf, at + |name|, rr, |data|);
    }
  }
}
