/**
 * Whole messages: `encodeMessage`, `decodeMessage` and `buildQuery` of
 * examples/dns-server/dns-message.js (sections 4.1.1 to 4.1.3 of RFC 1035).
 */
module DnsMessage {
  import opened DnsBytes
  import opened DnsName
  import opened DnsRecord
  import opened Seqs
  import opened Wrappers

  /** The header; the counts are set by the decoder and ignored by the encoder. */
  datatype Header = Header(
    id: int, qr: int, opcode: int, aa: int, tc: int, rd: int, ra: int, rcode: int,
    qdcount: nat, ancount: nat, nscount: nat, arcount: nat)

  datatype Message = Message(
    header: Header, questions: seq<Question>, answers: seq<RR>, authorities: seq<RR>, additionals: seq<RR>)

  // Header

  /** The flag word: fields cut to their width, bits 4 to 6 zero. */
  function Flags(h: Header): (f: int) {
    h.qr % 2 * 32768 + h.opcode % 16 * 2048 + h.aa % 2 * 1024 + h.tc % 2 * 512 + h.rd % 2 * 256 + h.ra % 2 * 128 +
    h.rcode % 16
  }

  /** `(flags >> n) & (w - 1)`, with `p` the power 2^n. */
  function Field(flags: int, p: int, w: int): int
    requires p > 0 && w > 0
  {
    flags / p % w
  }

  function HeaderBytes(m: Message): (s: seq<byte>)
    ensures |s| == 12
  {
    Word16(m.header.id) + (Word16(Flags(m.header)) + (Word16(|m.questions|) + (Word16(|m.answers|) +
    (Word16(|m.authorities|) + Word16(|m.additionals|)))))
  }

  function DecodeHeader(buf: seq<byte>): Option<Header> {
    if |buf| < 12 then None
    else
      var id :- Uint16(buf, 0);
      var flags :- Uint16(buf, 2);
      var qdcount :- Uint16(buf, 4);
      var ancount :- Uint16(buf, 6);
      var nscount :- Uint16(buf, 8);
      var arcount :- Uint16(buf, 10);
      Some(Header(
        id, Field(flags, 32768, 2), Field(flags, 2048, 16), Field(flags, 1024, 2), Field(flags, 512, 2),
        Field(flags, 256, 2), Field(flags, 128, 2), Field(flags, 1, 16), qdcount, ancount, nscount, arcount))
  }

  predicate Bit(v: int) {
    v == 0 || v == 1
  }

  predicate GoodHeader(h: Header) {
    && Field16(h.id) && Bit(h.qr) && 0 <= h.opcode < 16 && Bit(h.aa) && Bit(h.tc) && Bit(h.rd) && Bit(h.ra)
    && 0 <= h.rcode < 16
  }

  lemma Above(a: int, b: int, p: int)
    requires a > b && p > 0
    ensures a * p >= b * p + p
  {
    assert (a - b - 1) * p >= 0;
    assert a * p == (a - b - 1) * p + b * p + p;
  }

  lemma SameQuotient(p: int, a: int, x: int, b: int, y: int)
    requires p > 0 && a * p + x == b * p + y && 0 <= x < p && 0 <= y < p
    ensures a == b
  {
    if a > b {
      Above(a, b, p);
    } else if b > a {
      Above(b, a, p);
    }
  }

  lemma Quotient(f: int, p: int, hi: int, lo: int)
    requires p > 0 && f == hi * p + lo && 0 <= lo < p
    ensures f / p == hi
  {
    SameQuotient(p, hi, lo, f / p, f % p);
  }

  /** A field `v` of width `w` that stands above `lo` and below `up`. */
  lemma FieldIs(f: int, p: int, w: int, up: int, v: int, lo: int)
    requires p > 0 && w > 0 && f == (up * w + v) * p + lo && 0 <= lo < p && 0 <= v < w
    ensures Field(f, p, w) == v
  {
    Quotient(f, p, up * w + v, lo);
    Quotient(up * w + v, w, up, v);
  }

  /** The fields of the flag word `f`. */
  predicate HasFlags(f: int, h: Header) {
    && Field(f, 32768, 2) == h.qr && Field(f, 2048, 16) == h.opcode && Field(f, 1024, 2) == h.aa
    && Field(f, 512, 2) == h.tc && Field(f, 256, 2) == h.rd && Field(f, 128, 2) == h.ra && Field(f, 1, 16) == h.rcode
  }

  lemma FlagsOfSum(f: int, h: Header)
    requires GoodHeader(h)
    requires f == h.qr * 32768 + h.opcode * 2048 + h.aa * 1024 + h.tc * 512 + h.rd * 256 + h.ra * 128 + h.rcode
    ensures HasFlags(f, h)
  {
    hide Field;
    var ra := h.ra * 128 + h.rcode;
    var rd := h.rd * 256 + ra;
    var tc := h.tc * 512 + rd;
    var aa := h.aa * 1024 + tc;
    var opcode := h.opcode * 2048 + aa;
    FieldIs(f, 32768, 2, 0, h.qr, opcode);
    FieldIs(f, 2048, 16, h.qr, h.opcode, aa);
    FieldIs(f, 1024, 2, 16 * h.qr + h.opcode, h.aa, tc);
    FieldIs(f, 512, 2, 32 * h.qr + 2 * h.opcode + h.aa, h.tc, rd);
    FieldIs(f, 256, 2, 64 * h.qr + 4 * h.opcode + 2 * h.aa + h.tc, h.rd, ra);
    FieldIs(f, 128, 2, 128 * h.qr + 8 * h.opcode + 4 * h.aa + 2 * h.tc + h.rd, h.ra, h.rcode);
    FieldIs(f, 1, 16, 2048 * h.qr + 128 * h.opcode + 64 * h.aa + 32 * h.tc + 16 * h.rd + 8 * h.ra, h.rcode, 0);
  }

  lemma FlagsReadBack(h: Header)
    requires GoodHeader(h)
    ensures Field16(Flags(h)) && HasFlags(Flags(h), h)
  {
    hide HasFlags;
    FlagsOfSum(Flags(h), h);
  }

  lemma SixPieces(
    buf: seq<byte>, at: nat, a: seq<byte>, b: seq<byte>, c: seq<byte>, d: seq<byte>, e: seq<byte>, f: seq<byte>)
    requires |a| == 2 && |b| == 2 && |c| == 2 && |d| == 2 && |e| == 2
    requires StandsAt(buf, at, a + (b + (c + (d + (e + f)))))
    ensures StandsAt(buf, at, a) && StandsAt(buf, at + 2, b) && StandsAt(buf, at + 4, c) && StandsAt(buf, at + 6, d)
    ensures StandsAt(buf, at + 8, e) && StandsAt(buf, at + 10, f)
  {
    StandsSplit(buf, at, a, b + (c + (d + (e + f))));
    StandsSplit(buf, at + 2, b, c + (d + (e + f)));
    StandsSplit(buf, at + 4, c, d + (e + f));
    StandsSplit(buf, at + 6, d, e + f);
    StandsSplit(buf, at + 8, e, f);
  }

  function Counted(m: Message): Header {
    m.header.(
      qdcount := |m.questions|, ancount := |m.answers|, nscount := |m.authorities|, arcount := |m.additionals|)
  }

  predicate GoodCounts(m: Message) {
    |m.questions| < 0x10000 && |m.answers| < 0x10000 && |m.authorities| < 0x10000 && |m.additionals| < 0x10000
  }

  lemma HeaderReads(buf: seq<byte>, m: Message)
    requires StandsAt(buf, 0, HeaderBytes(m)) && GoodHeader(m.header) && GoodCounts(m)
    ensures DecodeHeader(buf) == Some(Counted(m))
  {
    hide Word16, Flags, Field, Uint16;
    SixPieces(buf, 0, Word16(m.header.id), Word16(Flags(m.header)), Word16(|m.questions|), Word16(|m.answers|),
      Word16(|m.authorities|), Word16(|m.additionals|));
    FlagsReadBack(m.header);
    Field16Reads(buf, 0, m.header.id);
    Field16Reads(buf, 2, Flags(m.header));
    Field16Reads(buf, 4, |m.questions|);
    Field16Reads(buf, 6, |m.answers|);
    Field16Reads(buf, 8, |m.authorities|);
    Field16Reads(buf, 10, |m.additionals|);
  }

  // Sections

  function EncodeAll<T>(encode: T -> Option<seq<byte>>, items: seq<T>): Option<seq<byte>> {
    if items == [] then Some([])
    else
      var first :- encode(items[0]);
      var rest :- EncodeAll(encode, items[1..]);
      Some(first + rest)
  }

  function DecodeAll<T>(decode: (seq<byte>, nat) -> Option<Decoded<T>>, buf: seq<byte>, offset: nat, count: nat):
    Option<Decoded<seq<T>>>
    decreases count
  {
    if count == 0 then Some(Decoded([], offset))
    else
      var first :- decode(buf, offset);
      var rest :- DecodeAll(decode, buf, first.next, count - 1);
      Some(Decoded([first.value] + rest.value, rest.next))
  }

  /** An item written anywhere is read back as `norm` says. */
  ghost predicate ReadsItem<T>(
    encode: T -> Option<seq<byte>>, decode: (seq<byte>, nat) -> Option<Decoded<T>>, norm: T -> T, buf: seq<byte>,
    item: T)
  {
    && encode(item).Some?
    && forall at: nat :: StandsAt(buf, at, encode(item).value) ==>
         decode(buf, at) == Some(Decoded(norm(item), at + |encode(item).value|))
  }

  function Map<T, U>(f: T -> U, items: seq<T>): (r: seq<U>)
    ensures |r| == |items|
  {
    seq(|items|, k requires 0 <= k < |items| => f(items[k]))
  }

  lemma {:induction false} SectionReads<T>(
    encode: T -> Option<seq<byte>>, decode: (seq<byte>, nat) -> Option<Decoded<T>>, norm: T -> T, buf: seq<byte>,
    at: nat, items: seq<T>)
    requires forall k :: 0 <= k < |items| ==> ReadsItem(encode, decode, norm, buf, items[k])
    ensures EncodeAll(encode, items).Some?
    ensures
      var s := EncodeAll(encode, items).value;
      StandsAt(buf, at, s) ==>
        DecodeAll(decode, buf, at, |items|) == Some(Decoded(Map(norm, items), at + |s|))
    decreases |items|
  {
    if items == [] {
      assert Map(norm, items) == [];
    } else {
      assert ReadsItem(encode, decode, norm, buf, items[0]);
      var first := encode(items[0]).value;
      SectionReads(encode, decode, norm, buf, at + |first|, items[1..]);
      var rest := EncodeAll(encode, items[1..]).value;
      if StandsAt(buf, at, first + rest) {
        StandsSplit(buf, at, first, rest);
        assert [norm(items[0])] + Map(norm, items[1..]) == Map(norm, items);
      }
    }
  }

  // Messages

  /** `encodeMessage`; `None` stands for an error thrown on a name, an address or missing data. */
  function Encode(m: Message): Option<seq<byte>> {
    var questions :- EncodeAll(EncodeQuestion, m.questions);
    var answers :- EncodeAll(EncodeRR, m.answers);
    var authorities :- EncodeAll(EncodeRR, m.authorities);
    var additionals :- EncodeAll(EncodeRR, m.additionals);
    Some(HeaderBytes(m) + (questions + (answers + (authorities + additionals))))
  }

  /** `decodeMessage`; `None` stands for a thrown error. */
  function Decode(buf: seq<byte>): Option<Message> {
    var header :- DecodeHeader(buf);
    var questions :- DecodeAll(DecodeQuestion, buf, 12, header.qdcount);
    var answers :- DecodeAll(DecodeRR, buf, questions.next, header.ancount);
    var authorities :- DecodeAll(DecodeRR, buf, answers.next, header.nscount);
    var additionals :- DecodeAll(DecodeRR, buf, authorities.next, header.arcount);
    Some(Message(header, questions.value, answers.value, authorities.value, additionals.value))
  }

  // Round trip

  ghost predicate GoodMessage(m: Message) {
    && GoodHeader(m.header) && GoodCounts(m)
    && (forall k :: 0 <= k < |m.questions| ==> GoodQuestion(m.questions[k]))
    && GoodRRs(m.answers) && GoodRRs(m.authorities) && GoodRRs(m.additionals)
  }

  ghost predicate GoodRRs(rrs: seq<RR>) {
    forall k :: 0 <= k < |rrs| ==> GoodRR(rrs[k])
  }

  /** The message as it is read back: counts filled in, classes explicit, undecoded data raw. */
  function Normal(m: Message): Message {
    Message(
      Counted(m), Map(NormalQuestion, m.questions), Map(NormalRR, m.answers), Map(NormalRR, m.authorities),
      Map(NormalRR, m.additionals))
  }

  lemma QuestionsRead(buf: seq<byte>, at: nat, items: seq<Question>)
    requires forall k :: 0 <= k < |items| ==> GoodQuestion(items[k])
    ensures EncodeAll(EncodeQuestion, items).Some?
    ensures
      var s := EncodeAll(EncodeQuestion, items).value;
      StandsAt(buf, at, s) ==>
        DecodeAll(DecodeQuestion, buf, at, |items|) == Some(Decoded(Map(NormalQuestion, items), at + |s|))
  {
    hide EncodeQuestion, DecodeQuestion;
    forall k | 0 <= k < |items|
      ensures ReadsItem(EncodeQuestion, DecodeQuestion, NormalQuestion, buf, items[k])
    {
      QuestionReads(buf, 0, items[k]);
      forall at: nat | StandsAt(buf, at, EncodeQuestion(items[k]).value)
        ensures DecodeQuestion(buf, at) ==
          Some(Decoded(NormalQuestion(items[k]), at + |EncodeQuestion(items[k]).value|))
      {
        QuestionReads(buf, at, items[k]);
      }
    }
    SectionReads(EncodeQuestion, DecodeQuestion, NormalQuestion, buf, at, items);
  }

  lemma RRsRead(buf: seq<byte>, at: nat, items: seq<RR>)
    requires GoodRRs(items)
    ensures EncodeAll(EncodeRR, items).Some?
    ensures
      var s := EncodeAll(EncodeRR, items).value;
      StandsAt(buf, at, s) ==> DecodeAll(DecodeRR, buf, at, |items|) == Some(Decoded(Map(NormalRR, items), at + |s|))
  {
    hide EncodeRR, DecodeRR, GoodRR, NormalRR;
    forall k | 0 <= k < |items|
      ensures ReadsItem(EncodeRR, DecodeRR, NormalRR, buf, items[k])
    {
      RRReads(buf, 0, items[k]);
      forall at: nat | StandsAt(buf, at, EncodeRR(items[k]).value)
        ensures DecodeRR(buf, at) == Some(Decoded(NormalRR(items[k]), at + |EncodeRR(items[k]).value|))
      {
        RRReads(buf, at, items[k]);
      }
    }
    SectionReads(EncodeRR, DecodeRR, NormalRR, buf, at, items);
  }

  /** Every well-formed message is encoded, and decoding gives it back. */
  lemma MessageRoundTrip(m: Message)
    requires GoodMessage(m)
    ensures Encode(m).Some? && Decode(Encode(m).value) == Some(Normal(m))
  {
    hide EncodeQuestion, DecodeQuestion, EncodeRR, DecodeRR, EncodeAll, DecodeAll, Map, HeaderBytes, DecodeHeader;
    QuestionsRead([], 0, m.questions);
    RRsRead([], 0, m.answers);
    RRsRead([], 0, m.authorities);
    RRsRead([], 0, m.additionals);
    var q := EncodeAll(EncodeQuestion, m.questions).value;
    var an := EncodeAll(EncodeRR, m.answers).value;
    var ns := EncodeAll(EncodeRR, m.authorities).value;
    var ar := EncodeAll(EncodeRR, m.additionals).value;
    var buf := Encode(m).value;
    FiveSections(buf, HeaderBytes(m), q, an, ns, ar);
    HeaderReads(buf, m);
    QuestionsRead(buf, 12, m.questions);
    RRsRead(buf, 12 + |q|, m.answers);
    RRsRead(buf, 12 + |q| + |an|, m.authorities);
    RRsRead(buf, 12 + |q| + |an| + |ns|, m.additionals);
  }

  lemma FiveSections(buf: seq<byte>, h: seq<byte>, q: seq<byte>, an: seq<byte>, ns: seq<byte>, ar: seq<byte>)
    requires buf == h + (q + (an + (ns + ar)))
    ensures StandsAt(buf, 0, h) && StandsAt(buf, |h|, q) && StandsAt(buf, |h| + |q|, an)
    ensures StandsAt(buf, |h| + |q| + |an|, ns) && StandsAt(buf, |h| + |q| + |an| + |ns|, ar)
  {
    hide StandsAt;
    StandsWhole(buf);
    StandsSplit(buf, 0, h, q + (an + (ns + ar)));
    StandsSplit(buf, |h|, q, an + (ns + ar));
    StandsSplit(buf, |h| + |q|, an, ns + ar);
    StandsSplit(buf, |h| + |q| + |an|, ns, ar);
  }

  /** `buildQuery`, whose options are header fields. */
  function BuildQuery(name: string, qtype: int, id: int, opts: Header -> Header): Option<seq<byte>> {
    Encode(Message(
      opts(Header(id, 0, 0, 0, 0, 0, 0, 0, 0, 0, 0, 0)), [Question(name, qtype, Some(CLASS_IN))], [], [], []))
  }

  /** A query for a canonical name says what was asked for. */
  lemma QueryAsks(name: string, qtype: int, id: int)
    requires Canonical(name) && Field16(qtype) && Field16(id)
    ensures
      var query := BuildQuery(name, qtype, id, h => h);
      && query.Some? && Decode(query.value).Some?
      && Decode(query.value).value.questions == [Question(name, qtype, Some(CLASS_IN))]
      && Decode(query.value).value.header.id == id && Decode(query.value).value.header.qr == 0
  {
    hide Encode, Decode;
    var q := Question(name, qtype, Some(CLASS_IN));
    var m := Message(Header(id, 0, 0, 0, 0, 0, 0, 0, 0, 0, 0, 0), [q], [], [], []);
    MessageRoundTrip(m);
    assert Map(NormalQuestion, [q]) == [q];
  }

  /** The section loops of `decodeMessage`. */
  method DecodeSectionLoop(buf: seq<byte>, offset: nat, count: nat) returns (r: Option<Decoded<seq<RR>>>)
    ensures r == DecodeAll(DecodeRR, buf, offset, count)
  {
    hide DecodeRR;
    var rrs: seq<RR> := [];
    var at := offset;
    ghost var all := DecodeAll(DecodeRR, buf, offset, count);
    BehindNothing(all);
    for i := 0 to count
      invariant all == Behind(rrs, DecodeAll(DecodeRR, buf, at, count - i))
    {
      var next := DecodeRR(buf, at);
      if next.None? {
        return None;
      }
      BehindOne(rrs, next.value.value, DecodeAll(DecodeRR, buf, next.value.next, count - i - 1));
      rrs := rrs + [next.value.value];
      at := next.value.next;
    }
    NothingBehind(rrs, at);
    return Some(Decoded(rrs, at));
  }

  function Behind<T>(done: seq<T>, rest: Option<Decoded<seq<T>>>): Option<Decoded<seq<T>>> {
    if rest.None? then None else Some(Decoded(done + rest.value.value, rest.value.next))
  }

  lemma BehindNothing<T>(rest: Option<Decoded<seq<T>>>)
    ensures Behind([], rest) == rest
  {
    if rest.Some? {
      assert [] + rest.value.value == rest.value.value;
    }
  }

  lemma NothingBehind<T>(done: seq<T>, at: nat)
    ensures Behind(done, Some(Decoded([], at))) == Some(Decoded(done, at))
  {
    assert done + [] == done;
  }

  lemma BehindOne<T>(done: seq<T>, item: T, rest: Option<Decoded<seq<T>>>)
    ensures Behind(done + [item], rest) == Behind(done, Behind([item], rest))
  {
    if rest.Some? {
      assert done + [item] + rest.value.value == done + ([item] + rest.value.value);
    }
  }

  /** `decodeMessage` as the original runs it, section after section. */
  method DecodeMessage(buf: seq<byte>) returns (r: Option<Message>)
    ensures r == Decode(buf)
  {
    hide DecodeQuestion, DecodeRR;
    var header := DecodeHeader(buf);
    if header.None? {
      return None;
    }
    var h := header.value;
    var questions: seq<Question> := [];
    var offset := 12;
    ghost var all := DecodeAll(DecodeQuestion, buf, 12, h.qdcount);
    BehindNothing(all);
    for i := 0 to h.qdcount
      invariant all == Behind(questions, DecodeAll(DecodeQuestion, buf, offset, h.qdcount - i))
    {
      var next := DecodeQuestion(buf, offset);
      if next.None? {
        return None;
      }
      BehindOne(questions, next.value.value, DecodeAll(DecodeQuestion, buf, next.value.next, h.qdcount - i - 1));
      questions := questions + [next.value.value];
      offset := next.value.next;
    }
    NothingBehind(questions, offset);
    var answers := DecodeSectionLoop(buf, offset, h.ancount);
    if answers.None? {
      return None;
    }
    var authorities := DecodeSectionLoop(buf, answers.value.next, h.nscount);
    if authorities.None? {
      return None;
    }
    var additionals := DecodeSectionLoop(buf, authorities.value.next, h.arcount);
    if additionals.None? {
      return None;
    }
    return Some(Message(h, questions, answers.value.value, authorities.value.value, additionals.value.value));
  }
}
