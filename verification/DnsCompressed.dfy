/**
 * Messages with compressed names (section 4.1.4 of RFC 1035), as other servers send them: wherever a name
 * is written, in a question, as an owner or inside record data, it may be cut by pointers to other places
 * of the message.
 */
module DnsCompressed {
  import opened DnsBytes
  import opened DnsMessage
  import opened DnsName
  import opened DnsRecord
  import opened Seqs
  import opened Wrappers

  // Names

  /** These parts, from `at` on, make up the name; it ends at `next`. */
  predicate WrittenAs(buf: seq<byte>, at: nat, name: string, next: nat, parts: seq<Part>) {
    && PointsOn(buf, parts) && parts[0].at == at && |parts| - 1 <= MAX_JUMPS
    && NameText(PartLabels(parts)) == name && next == BehindPart(parts)
  }

  /** The name is written at `at` in some way, and ends at `next`. */
  ghost predicate NameStands(buf: seq<byte>, at: nat, name: string, next: nat) {
    exists parts: seq<Part> :: WrittenAs(buf, at, name, next, parts)
  }

  lemma NameStandsReads(buf: seq<byte>, at: nat, name: string, next: nat)
    requires NameStands(buf, at, name, next)
    ensures DecodeName(buf, at) == Some(Decoded(name, next))
  {
    hide DecodeName, PointsOn, NameText, PartLabels;
    var parts: seq<Part> :| WrittenAs(buf, at, name, next, parts);
    PointerLimit(buf, parts);
  }

  /** The encoder writes names in one part. */
  lemma PlainName(buf: seq<byte>, at: nat, name: string)
    requires Canonical(name) && EncodeName(name).Some? && StandsAt(buf, at, EncodeName(name).value)
    ensures NameStands(buf, at, name, at + |EncodeName(name).value|)
  {
    hide NameText, NameLabels, Canonical, LabelsBytes;
    CanonicalText(name);
    var labels := NameLabels(name);
    var parts := [Part(at, labels)];
    assert labels + [] == labels && PartLabels(parts) == labels + PartLabels(parts[1..]);
    assert WrittenAs(buf, at, name, at + |EncodeName(name).value|, parts);
  }

  /** A pointer to a name in one part stands for that name. */
  lemma PointerName(buf: seq<byte>, at: nat, p: nat, name: string)
    requires Canonical(name) && EncodeName(name).Some? && p < 0x4000
    requires StandsAt(buf, p, EncodeName(name).value) && StandsAt(buf, at, PointerBytes(p))
    ensures NameStands(buf, at, name, at + 2)
  {
    hide NameText, NameLabels, Canonical;
    CanonicalText(name);
    var labels := NameLabels(name);
    var parts := [Part(at, []), Part(p, labels)];
    assert parts[1..] == [Part(p, labels)];
    assert LabelsBytes([]) + PointerBytes(p) == PointerBytes(p);
    assert PointsOn(buf, parts[1..]);
    assert labels + [] == labels && [] + labels == labels;
    assert PartLabels(parts) == [] + PartLabels(parts[1..]) && PartLabels(parts[1..]) == labels + PartLabels([]);
    assert WrittenAs(buf, at, name, at + 2, parts);
  }

  // Record data

  predicate SoaInRange(d: Rdata)
    requires d.Soa?
  {
    Field32(d.serial) && Field32(d.refresh) && Field32(d.retry) && Field32(d.expire) && Field32(d.minimum)
  }

  ghost predicate SoaStands(buf: seq<byte>, at: nat, end: nat, d: Rdata, mid: nat, tail: nat) {
    && d.Soa? && SoaInRange(d) && NameStands(buf, at, d.mname, mid) && NameStands(buf, mid, d.rname, tail)
    && StandsAt(buf, tail, SoaTail(d)) && end == tail + 20
  }

  /** The data stand from `at` to `end`, their names written in some way. */
  ghost predicate RdataStands(buf: seq<byte>, at: nat, end: nat, kind: Kind, d: Rdata) {
    match kind
    case KindName => d.Target? && NameStands(buf, at, d.target, end)
    case KindSoa => exists mid: nat, tail: nat :: SoaStands(buf, at, end, d, mid, tail)
    case KindMx =>
      && d.Mx? && Field16(d.preference) && StandsAt(buf, at, Word16(d.preference))
      && NameStands(buf, at + 2, d.exchange, end)
    case _ =>
      && GoodRdata(kind, d) && EncodeRdata(kind, d).Some? && StandsAt(buf, at, EncodeRdata(kind, d).value)
      && end == at + |EncodeRdata(kind, d).value|
  }

  lemma SoaStandsReads(buf: seq<byte>, at: nat, end: nat, d: Rdata)
    requires RdataStands(buf, at, end, KindSoa, d)
    ensures DecodeRdata(KindSoa, buf, at, end) == Some(d)
  {
    hide DecodeName, NameStands, SoaTail, DecodeSoaTail, FiveNumbers;
    var mid: nat, tail: nat :| SoaStands(buf, at, end, d, mid, tail);
    NameStandsReads(buf, at, d.mname, mid);
    NameStandsReads(buf, mid, d.rname, tail);
    SoaTailReads(buf, tail, d);
    SoaDecodes(buf, tail, d);
  }

  lemma MxStandsReads(buf: seq<byte>, at: nat, end: nat, d: Rdata)
    requires RdataStands(buf, at, end, KindMx, d)
    ensures DecodeRdata(KindMx, buf, at, end) == Some(d)
  {
    hide DecodeName, NameStands, Word16, Uint16;
    Field16Reads(buf, at, d.preference);
    NameStandsReads(buf, at + 2, d.exchange, end);
  }

  lemma NameDataStandsReads(buf: seq<byte>, at: nat, end: nat, d: Rdata)
    requires RdataStands(buf, at, end, KindName, d)
    ensures DecodeRdata(KindName, buf, at, end) == Some(d)
  {
    hide DecodeName, NameStands;
    NameStandsReads(buf, at, d.target, end);
  }

  lemma OtherStandsReads(buf: seq<byte>, at: nat, end: nat, kind: Kind, d: Rdata)
    requires RdataStands(buf, at, end, kind, d) && !kind.KindName? && !kind.KindSoa? && !kind.KindMx?
    ensures DecodeRdata(kind, buf, at, end) == Some(NormalRdata(kind, d))
  {
    hide DecodeRdata, EncodeRdata, GoodRdata;
    RdataReads(buf, at, kind, d);
  }

  lemma RdataStandsReads(buf: seq<byte>, at: nat, end: nat, kind: Kind, d: Rdata)
    requires RdataStands(buf, at, end, kind, d)
    ensures DecodeRdata(kind, buf, at, end) == Some(NormalRdata(kind, d))
  {
    hide DecodeRdata, RdataStands;
    match kind
    case KindName => NameDataStandsReads(buf, at, end, d);
    case KindSoa => SoaStandsReads(buf, at, end, d);
    case KindMx => MxStandsReads(buf, at, end, d);
    case _ => OtherStandsReads(buf, at, end, kind, d);
  }

  // Questions and records

  ghost predicate QuestionStands(buf: seq<byte>, at: nat, q: Question, next: nat) {
    && next >= 4 && NameStands(buf, at, q.name, next - 4) && Field16(q.qtype) && Field16(ClassOr(q.qclass))
    && StandsAt(buf, next - 4, Word16(q.qtype)) && StandsAt(buf, next - 2, Word16(ClassOr(q.qclass)))
  }

  lemma QuestionStandsReads(buf: seq<byte>, at: nat, q: Question, next: nat)
    requires QuestionStands(buf, at, q, next)
    ensures DecodeQuestion(buf, at) == Some(Decoded(NormalQuestion(q), next))
  {
    hide DecodeName, NameStands, Word16, Uint16;
    NameStandsReads(buf, at, q.name, next - 4);
    Field16Reads(buf, next - 4, q.qtype);
    Field16Reads(buf, next - 2, ClassOr(q.qclass));
  }

  /** The record stands from `at` to `next`; its name ends at `mid`. */
  ghost predicate RRStandsAround(buf: seq<byte>, at: nat, rr: RR, mid: nat, next: nat) {
    && NameStands(buf, at, rr.name, mid) && mid + 10 <= next && next - mid - 10 < 0x10000
    && Field16(rr.rtype) && Field16(ClassOr(rr.class_)) && Field32(rr.ttl)
    && StandsAt(buf, mid, RRHead(rr, next - mid - 10))
    && RdataStands(buf, mid + 10, next, KindOf(rr.rtype), rr.rdata)
  }

  ghost predicate RRStands(buf: seq<byte>, at: nat, rr: RR, next: nat) {
    exists mid: nat :: RRStandsAround(buf, at, rr, mid, next)
  }

  lemma RRStandsReads(buf: seq<byte>, at: nat, rr: RR, next: nat)
    requires RRStands(buf, at, rr, next)
    ensures DecodeRR(buf, at) == Some(Decoded(NormalRR(rr), next))
  {
    hide DecodeName, NameStands, DecodeRdata, RdataStands, RRHead, Uint16, Uint32;
    var mid: nat :| RRStandsAround(buf, at, rr, mid, next);
    NameStandsReads(buf, at, rr.name, mid);
    RRHeadReads(buf, mid, rr, next - mid - 10);
    RdataStandsReads(buf, mid + 10, next, KindOf(rr.rtype), rr.rdata);
  }

  // Sections

  ghost predicate QuestionsStand(buf: seq<byte>, at: nat, items: seq<Question>, next: nat)
    decreases |items|
  {
    if items == [] then next == at
    else exists mid :: QuestionStands(buf, at, items[0], mid) && QuestionsStand(buf, mid, items[1..], next)
  }

  ghost predicate RRsStand(buf: seq<byte>, at: nat, items: seq<RR>, next: nat)
    decreases |items|
  {
    if items == [] then next == at
    else exists mid :: RRStands(buf, at, items[0], mid) && RRsStand(buf, mid, items[1..], next)
  }

  lemma {:induction false} QuestionsStandRead(buf: seq<byte>, at: nat, items: seq<Question>, next: nat)
    requires QuestionsStand(buf, at, items, next)
    ensures DecodeAll(DecodeQuestion, buf, at, |items|) == Some(Decoded(Map(NormalQuestion, items), next))
    decreases |items|
  {
    hide DecodeQuestion, QuestionStands, NormalQuestion;
    if items == [] {
      assert Map(NormalQuestion, items) == [];
    } else {
      var mid :| QuestionStands(buf, at, items[0], mid) && QuestionsStand(buf, mid, items[1..], next);
      QuestionStandsReads(buf, at, items[0], mid);
      QuestionsStandRead(buf, mid, items[1..], next);
      assert [NormalQuestion(items[0])] + Map(NormalQuestion, items[1..]) == Map(NormalQuestion, items);
    }
  }

  lemma {:induction false} RRsStandRead(buf: seq<byte>, at: nat, items: seq<RR>, next: nat)
    requires RRsStand(buf, at, items, next)
    ensures DecodeAll(DecodeRR, buf, at, |items|) == Some(Decoded(Map(NormalRR, items), next))
    decreases |items|
  {
    hide DecodeRR, RRStands, NormalRR;
    if items == [] {
      assert Map(NormalRR, items) == [];
    } else {
      var mid :| RRStands(buf, at, items[0], mid) && RRsStand(buf, mid, items[1..], next);
      RRStandsReads(buf, at, items[0], mid);
      RRsStandRead(buf, mid, items[1..], next);
      assert [NormalRR(items[0])] + Map(NormalRR, items[1..]) == Map(NormalRR, items);
    }
  }

  // Messages

  /** The sections stand one behind the other, with these ends. */
  ghost predicate SectionsStand(buf: seq<byte>, m: Message, q: nat, an: nat, ns: nat, ar: nat) {
    && QuestionsStand(buf, 12, m.questions, q) && RRsStand(buf, q, m.answers, an)
    && RRsStand(buf, an, m.authorities, ns) && RRsStand(buf, ns, m.additionals, ar)
  }

  /** The message is written in the buffer, its names in any way. */
  ghost predicate MessageStands(buf: seq<byte>, m: Message) {
    && StandsAt(buf, 0, HeaderBytes(m)) && GoodHeader(m.header) && GoodCounts(m)
    && exists q, an, ns, ar :: SectionsStand(buf, m, q, an, ns, ar)
  }

  /** However the names of a message were compressed, it is read as the same message. */
  lemma CompressedMessage(buf: seq<byte>, m: Message)
    requires MessageStands(buf, m)
    ensures Decode(buf) == Some(Normal(m))
  {
    hide DecodeQuestion, DecodeRR, DecodeAll, Map, HeaderBytes, DecodeHeader, QuestionsStand, RRsStand;
    HeaderReads(buf, m);
    var q, an, ns, ar :| SectionsStand(buf, m, q, an, ns, ar);
    QuestionsStandRead(buf, 12, m.questions, q);
    RRsStandRead(buf, q, m.answers, an);
    RRsStandRead(buf, an, m.authorities, ns);
    RRsStandRead(buf, ns, m.additionals, ar);
  }

  // What the encoder writes stands so

  lemma PlainRdata(buf: seq<byte>, at: nat, kind: Kind, d: Rdata)
    requires GoodRdata(kind, d) && EncodeRdata(kind, d).Some? && StandsAt(buf, at, EncodeRdata(kind, d).value)
    ensures RdataStands(buf, at, at + |EncodeRdata(kind, d).value|, kind, d)
  {
    hide NameStands, EncodeName, Canonical, SoaTail;
    match kind
    case KindName => PlainName(buf, at, d.target);
    case KindSoa =>
      var mname, rname := EncodeName(d.mname).value, EncodeName(d.rname).value;
      StandsSplit(buf, at, mname, rname + SoaTail(d));
      StandsSplit(buf, at + |mname|, rname, SoaTail(d));
      PlainName(buf, at, d.mname);
      PlainName(buf, at + |mname|, d.rname);
      assert SoaStands(buf, at, at + |EncodeRdata(kind, d).value|, d, at + |mname|, at + |mname| + |rname|);
    case KindMx =>
      StandsSplit(buf, at, Word16(d.preference), EncodeName(d.exchange).value);
      PlainName(buf, at + 2, d.exchange);
    case _ =>
  }

  lemma PlainRR(buf: seq<byte>, at: nat, rr: RR)
    requires GoodRR(rr) && EncodeRR(rr).Some? && StandsAt(buf, at, EncodeRR(rr).value)
    ensures RRStands(buf, at, rr, at + |EncodeRR(rr).value|)
  {
    hide NameStands, EncodeName, Canonical, RdataStands, EncodeRdata, GoodRdata, RRHead;
    var name, data := EncodeName(rr.name).value, EncodeRdata(KindOf(rr.rtype), rr.rdata).value;
    StandsSplit(buf, at, name, RRHead(rr, |data|) + data);
    StandsSplit(buf, at + |name|, RRHead(rr, |data|), data);
    PlainName(buf, at, rr.name);
    PlainRdata(buf, at + |name| + 10, KindOf(rr.rtype), rr.rdata);
    assert RRStandsAround(buf, at, rr, at + |name|, at + |EncodeRR(rr).value|);
  }

  lemma PlainQuestion(buf: seq<byte>, at: nat, q: Question)
    requires GoodQuestion(q) && EncodeQuestion(q).Some? && StandsAt(buf, at, EncodeQuestion(q).value)
    ensures QuestionStands(buf, at, q, at + |EncodeQuestion(q).value|)
  {
    hide NameStands, EncodeName, Canonical, Word16;
    var name := EncodeName(q.name).value;
    StandsSplit(buf, at, name, Word16(q.qtype) + Word16(ClassOr(q.qclass)));
    StandsSplit(buf, at + |name|, Word16(q.qtype), Word16(ClassOr(q.qclass)));
    PlainName(buf, at, q.name);
  }

  lemma {:induction false} PlainQuestions(buf: seq<byte>, at: nat, items: seq<Question>)
    requires (forall k :: 0 <= k < |items| ==> GoodQuestion(items[k])) && EncodeAll(EncodeQuestion, items).Some?
    requires StandsAt(buf, at, EncodeAll(EncodeQuestion, items).value)
    ensures QuestionsStand(buf, at, items, at + |EncodeAll(EncodeQuestion, items).value|)
    decreases |items|
  {
    hide EncodeQuestion, QuestionStands;
    if items != [] {
      var first := EncodeQuestion(items[0]).value;
      var rest := EncodeAll(EncodeQuestion, items[1..]).value;
      StandsSplit(buf, at, first, rest);
      PlainQuestion(buf, at, items[0]);
      PlainQuestions(buf, at + |first|, items[1..]);
    }
  }

  lemma {:induction false} PlainRRs(buf: seq<byte>, at: nat, items: seq<RR>)
    requires GoodRRs(items) && EncodeAll(EncodeRR, items).Some?
    requires StandsAt(buf, at, EncodeAll(EncodeRR, items).value)
    ensures RRsStand(buf, at, items, at + |EncodeAll(EncodeRR, items).value|)
    decreases |items|
  {
    hide EncodeRR, RRStands, GoodRR;
    if items != [] {
      var first := EncodeRR(items[0]).value;
      var rest := EncodeAll(EncodeRR, items[1..]).value;
      StandsSplit(buf, at, first, rest);
      PlainRR(buf, at, items[0]);
      PlainRRs(buf, at + |first|, items[1..]);
    }
  }

  /** The encoder's own messages, which never compress, are among these. */
  lemma PlainMessage(m: Message)
    requires GoodMessage(m)
    ensures Encode(m).Some? && MessageStands(Encode(m).value, m)
  {
    hide *;
    MessageRoundTrip(m);
    var buf, q, an, ns, ar := EncodedSections(m);
    FiveSections(buf, HeaderBytes(m), q, an, ns, ar);
    GoodParts(m);
    PlainQuestions(buf, 12, m.questions);
    PlainRRs(buf, 12 + |q|, m.answers);
    PlainRRs(buf, 12 + |q| + |an|, m.authorities);
    PlainRRs(buf, 12 + |q| + |an| + |ns|, m.additionals);
    InSections(buf, m, 12 + |q|, 12 + |q| + |an|, 12 + |q| + |an| + |ns|, 12 + |q| + |an| + |ns| + |ar|);
  }

  lemma GoodParts(m: Message)
    requires GoodMessage(m)
    ensures GoodHeader(m.header) && GoodCounts(m) && forall k :: 0 <= k < |m.questions| ==> GoodQuestion(m.questions[k])
    ensures GoodRRs(m.answers) && GoodRRs(m.authorities) && GoodRRs(m.additionals)
  {
  }

  lemma EncodedSections(m: Message)
    returns (buf: seq<byte>, q: seq<byte>, an: seq<byte>, ns: seq<byte>, ar: seq<byte>)
    requires Encode(m).Some?
    ensures Encode(m) == Some(buf) && buf == HeaderBytes(m) + (q + (an + (ns + ar))) && |HeaderBytes(m)| == 12
    ensures EncodeAll(EncodeQuestion, m.questions) == Some(q) && EncodeAll(EncodeRR, m.answers) == Some(an)
    ensures EncodeAll(EncodeRR, m.authorities) == Some(ns) && EncodeAll(EncodeRR, m.additionals) == Some(ar)
  {
    hide EncodeAll, HeaderBytes;
    buf := Encode(m).value;
    q := EncodeAll(EncodeQuestion, m.questions).value;
    an := EncodeAll(EncodeRR, m.answers).value;
    ns := EncodeAll(EncodeRR, m.authorities).value;
    ar := EncodeAll(EncodeRR, m.additionals).value;
  }

  lemma InSections(buf: seq<byte>, m: Message, q: nat, an: nat, ns: nat, ar: nat)
    requires StandsAt(buf, 0, HeaderBytes(m)) && GoodHeader(m.header) && GoodCounts(m)
    requires QuestionsStand(buf, 12, m.questions, q) && RRsStand(buf, q, m.answers, an)
    requires RRsStand(buf, an, m.authorities, ns) && RRsStand(buf, ns, m.additionals, ar)
    ensures MessageStands(buf, m)
  {
    hide QuestionsStand, RRsStand, HeaderBytes, GoodHeader;
    assert SectionsStand(buf, m, q, an, ns, ar);
  }

  // A message as servers write it: the owner of an answer is a pointer to the name in the question

  /** The answer with a pointer to position 12 for its owner. */
  function PointingRR(rr: RR, data: seq<byte>): seq<byte> {
    PointerBytes(12) + (RRHead(rr, |data|) + data)
  }

  lemma PointingRRStands(buf: seq<byte>, at: nat, rr: RR)
    requires GoodRR(rr) && EncodeRR(rr).Some? && StandsAt(buf, 12, EncodeName(rr.name).value)
    requires StandsAt(buf, at, PointingRR(rr, EncodeRdata(KindOf(rr.rtype), rr.rdata).value))
    ensures RRStands(buf, at, rr, at + 12 + |EncodeRdata(KindOf(rr.rtype), rr.rdata).value|)
  {
    hide NameStands, EncodeName, Canonical, RdataStands, EncodeRdata, GoodRdata, RRHead, PointerBytes;
    var data := EncodeRdata(KindOf(rr.rtype), rr.rdata).value;
    PointerSize();
    StandsSplit(buf, at, PointerBytes(12), RRHead(rr, |data|) + data);
    StandsSplit(buf, at + 2, RRHead(rr, |data|), data);
    PointerName(buf, at, 12, rr.name);
    PlainRdata(buf, at + 12, KindOf(rr.rtype), rr.rdata);
    assert RRStandsAround(buf, at, rr, at + 2, at + 12 + |data|);
  }

  lemma PointerSize()
    ensures |PointerBytes(12)| == 2
  {
  }

  /** A reply whose answer points back to its question is read as if the name were written out. */
  lemma PointingReply(m: Message, q: Question, rr: RR)
    requires GoodMessage(m) && m.questions == [q] && m.answers == [rr] && m.authorities == [] && m.additionals == []
    requires rr.name == q.name
    ensures EncodeQuestion(q).Some? && EncodeRdata(KindOf(rr.rtype), rr.rdata).Some?
    ensures
      var data := EncodeRdata(KindOf(rr.rtype), rr.rdata).value;
      Decode(HeaderBytes(m) + (EncodeQuestion(q).value + PointingRR(rr, data))) == Some(Normal(m))
  {
    hide EncodeRdata, HeaderBytes, QuestionStands, RRStands, PointingRR, EncodeName, Decode, GoodRR, GoodQuestion;
    assert m.questions[0] == q && m.answers[0] == rr;
    assert GoodQuestion(q) && GoodRR(rr);
    QuestionReads([], 0, q);
    RRReads([], 0, rr);
    var data := EncodeRdata(KindOf(rr.rtype), rr.rdata).value;
    var question, answer := EncodeQuestion(q).value, PointingRR(rr, data);
    var buf := HeaderBytes(m) + (question + answer);
    StandsWhole(buf);
    StandsSplit(buf, 0, HeaderBytes(m), question + answer);
    StandsSplit(buf, 12, question, answer);
    StandsSplit(buf, 12, EncodeName(q.name).value, Word16(q.qtype) + Word16(ClassOr(q.qclass)));
    PlainQuestion(buf, 12, q);
    PointingRRStands(buf, 12 + |question|, rr);
    OneEach(buf, m, q, rr, 12 + |question|, 12 + |question| + 12 + |data|);
    CompressedMessage(buf, m);
  }

  lemma OneEach(buf: seq<byte>, m: Message, q: Question, rr: RR, mid: nat, next: nat)
    requires m.questions == [q] && m.answers == [rr] && m.authorities == [] && m.additionals == []
    requires GoodHeader(m.header) && StandsAt(buf, 0, HeaderBytes(m))
    requires QuestionStands(buf, 12, q, mid) && RRStands(buf, mid, rr, next)
    ensures MessageStands(buf, m)
  {
    hide HeaderBytes, QuestionStands, RRStands, GoodHeader;
    assert [q][1..] == [] && [rr][1..] == [];
    assert QuestionsStand(buf, mid, [], mid) && RRsStand(buf, next, [], next);
    assert QuestionsStand(buf, 12, [q], mid) && RRsStand(buf, mid, [rr], next);
    assert SectionsStand(buf, m, mid, next, next, next);
  }
}
