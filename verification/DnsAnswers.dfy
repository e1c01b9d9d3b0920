/**
 * What the replies to one resolution of examples/dns-server/resolver.js say: chains of aliases, and the
 * outcome that the replies of its hops lead to.
 */
module DnsAnswers {
  import opened DnsBytes
  import opened DnsCache
  import opened DnsMessage
  import opened DnsName
  import opened DnsRecord
  import opened Seqs
  import opened Wrappers

  /** The errors `resolve` throws. */
  datatype Reason = NoReply | AliasLoop | NoServers | TooManyHops

  /** What `resolve` returns: an answer from the cache, one from upstream, or a thrown error. */
  datatype Resolution =
    | Cached(cachedAnswers: seq<RR>)
    | Answered(header: Header, answers: seq<RR>)
    | Failed(reason: Reason)

  const NXDOMAIN: int := 3
  const NOERROR: int := 0

  function Answers(r: Resolution): seq<RR> {
    match r
    case Cached(answers) => answers
    case Answered(_, answers) => answers
    case Failed(_) => []
  }

  predicate AllShaped(rrs: seq<RR>) {
    forall k :: 0 <= k < |rrs| ==> Shaped(rrs[k])
  }

  predicate ShapedMessage(m: Message) {
    AllShaped(m.answers) && AllShaped(m.authorities) && AllShaped(m.additionals)
  }

  // Decoded messages have the shape the resolver relies on

  lemma DecodedRRShaped(buf: seq<byte>, at: nat)
    ensures DecodeRR(buf, at).Some? ==> Shaped(DecodeRR(buf, at).value.value)
  {
    hide DecodeName;
  }

  lemma {:induction false} DecodedAllShaped(buf: seq<byte>, at: nat, count: nat)
    ensures
      var r := DecodeAll(DecodeRR, buf, at, count);
      r.Some? ==> AllShaped(r.value.value)
    decreases count
  {
    hide DecodeRR;
    DecodedRRShaped(buf, at);
    if count > 0 && DecodeRR(buf, at).Some? {
      DecodedAllShaped(buf, DecodeRR(buf, at).value.next, count - 1);
    }
  }

  lemma DecodedShaped(buf: seq<byte>)
    ensures Decode(buf).Some? ==> ShapedMessage(Decode(buf).value)
  {
    hide DecodeAll, DecodeHeader, AllShaped;
    if Decode(buf).Some? {
      var h := DecodeHeader(buf).value;
      var questions := DecodeAll(DecodeQuestion, buf, 12, h.qdcount).value;
      DecodedAllShaped(buf, questions.next, h.ancount);
      var answers := DecodeAll(DecodeRR, buf, questions.next, h.ancount).value;
      DecodedAllShaped(buf, answers.next, h.nscount);
      var authorities := DecodeAll(DecodeRR, buf, answers.next, h.nscount).value;
      DecodedAllShaped(buf, authorities.next, h.arcount);
    }
  }

  // `filter` and `find`

  function Filter<T>(p: T -> bool, s: seq<T>): (r: seq<T>)
    ensures forall k :: 0 <= k < |r| ==> p(r[k]) && r[k] in s
    ensures r == [] <==> forall k :: 0 <= k < |s| ==> !p(s[k])
  {
    if s == [] then []
    else if p(s[0]) then [s[0]] + Filter(p, s[1..])
    else
      assert forall k :: 1 <= k < |s| ==> s[k] == s[1..][k - 1];
      Filter(p, s[1..])
  }

  function Find<T>(p: T -> bool, s: seq<T>): (r: Option<T>)
    ensures r.Some? ==> p(r.value) && r.value in s
    ensures r.None? <==> forall k :: 0 <= k < |s| ==> !p(s[k])
  {
    if s == [] then None
    else if p(s[0]) then Some(s[0])
    else
      assert forall k :: 1 <= k < |s| ==> s[k] == s[1..][k - 1];
      Find(p, s[1..])
  }

  function OwnedBy(name: string, rtype: int): RR -> bool {
    (rr: RR) => SameName(rr.name, name) && rr.rtype == rtype
  }

  function Typed(rtype: int): RR -> bool {
    (rr: RR) => rr.rtype == rtype
  }

  // Chains of aliases

  /** The name a chain of aliases that starts at `name` has led to. */
  function LinkEnd(name: string, links: seq<RR>): string
    requires AllAliases(links)
  {
    if links == [] then name else links[|links| - 1].rdata.target
  }

  predicate AllAliases(links: seq<RR>) {
    forall k :: 0 <= k < |links| ==> links[k].rtype == TYPE_CNAME && links[k].rdata.Target?
  }

  /** The `k`-th alias is owned by the name before it. */
  predicate LeadsOn(name: string, links: seq<RR>, k: nat)
    requires AllAliases(links) && k < |links|
  {
    SameName(links[k].name, if k == 0 then name else links[k - 1].rdata.target)
  }

  /** Aliases that lead from one to the next, starting at `name`, to targets that are all different. */
  predicate Chain(name: string, links: seq<RR>) {
    && AllAliases(links)
    && (forall k :: 0 <= k < |links| ==> LeadsOn(name, links, k))
    && (forall j, k :: 0 <= j < k < |links| ==> links[j].rdata.target != links[k].rdata.target)
  }

  /** Records of the wanted type, owned by `name`. */
  predicate Owned(name: string, rtype: int, rrs: seq<RR>) {
    forall k :: 0 <= k < |rrs| ==> SameName(rrs[k].name, name) && rrs[k].rtype == rtype
  }

  /** An alias before led to this name, spelled in the same way. */
  predicate Repeats(links: seq<RR>, target: string)
    requires AllAliases(links)
  {
    exists k :: 0 <= k < |links| && links[k].rdata.target == target
  }

  lemma ChainGrows(name: string, links: seq<RR>, rr: RR)
    requires Chain(name, links) && rr.rtype == TYPE_CNAME && rr.rdata.Target?
    requires SameName(rr.name, LinkEnd(name, links))
    requires !Repeats(links, rr.rdata.target)
    ensures Chain(name, links + [rr])
  {
    hide SameName;
    var more := links + [rr];
    assert forall k :: 0 <= k < |links| ==> more[k] == links[k];
    assert more[|links|] == rr;
    forall k | 0 <= k < |more|
      ensures LeadsOn(name, more, k)
    {
      if k < |links| {
        assert LeadsOn(name, links, k);
      }
    }
  }

  /** Every link was an answer in some reply. */
  ghost predicate Told(received: seq<Message>, links: seq<RR>) {
    forall k :: 0 <= k < |links| ==> ToldBy(received, links[k])
  }

  ghost predicate ToldBy(received: seq<Message>, rr: RR) {
    exists i :: 0 <= i < |received| && rr in received[i].answers
  }

  lemma ToldLater(before: seq<Message>, received: seq<Message>, links: seq<RR>)
    requires before <= received && Told(before, links)
    ensures Told(received, links)
  {
    forall k | 0 <= k < |links|
      ensures ToldBy(received, links[k])
    {
      assert ToldBy(before, links[k]);
      var i :| 0 <= i < |before| && links[k] in before[i].answers;
      assert links[k] in received[i].answers;
    }
  }

  lemma ToldGrows(received: seq<Message>, links: seq<RR>, rr: RR)
    requires received != [] && Told(received, links) && rr in received[|received| - 1].answers
    ensures Told(received, links + [rr])
  {
    assert ToldBy(received, rr);
  }

  // What a hop makes of its reply

  datatype Decision = Answer(wanted: seq<RR>) | Loop | Alias(rr: RR) | Deny | Refer

  /** The branch a hop takes on a reply, after the aliases `links`. */
  function Decide(m: Message, start: string, links: seq<RR>, rtype: int): (d: Decision)
    requires ShapedMessage(m) && AllAliases(links)
    ensures d.Alias? ==> d.rr.rtype == TYPE_CNAME && d.rr.rdata.Target? && Shaped(d.rr)
  {
    var name := LinkEnd(start, links);
    var wanted := Filter(OwnedBy(name, rtype), m.answers);
    var cname := Find(OwnedBy(name, TYPE_CNAME), m.answers);
    if wanted != [] then Answer(wanted)
    else if cname.Some? then if Repeats(links, cname.value.rdata.target) then Loop else Alias(cname.value)
    else if m.header.rcode == NXDOMAIN || !IsReferral(m) then Deny
    else Refer
  }

  predicate IsReferral(m: Message) {
    Filter(Typed(TYPE_NS), m.authorities) != []
  }

  predicate AllShapedMessages(hops: seq<Message>) {
    forall k :: 0 <= k < |hops| ==> ShapedMessage(hops[k])
  }

  /** The aliases followed over hops that all went on, by an alias or a referral. */
  function Followed(hops: seq<Message>, start: string, rtype: int): (r: Option<seq<RR>>)
    requires AllShapedMessages(hops)
    ensures r.Some? ==> AllAliases(r.value) && AllShaped(r.value)
  {
    if hops == [] then Some([])
    else
      var links :- Followed(hops[..|hops| - 1], start, rtype);
      match Decide(hops[|hops| - 1], start, links, rtype)
      case Alias(rr) => Some(links + [rr])
      case Refer => Some(links)
      case _ => None
  }

  /** What the last hop decides, when all hops before it went on. */
  function LastDecision(hops: seq<Message>, start: string, rtype: int): Option<Decision>
    requires AllShapedMessages(hops)
  {
    if hops == [] then None
    else
      var links :- Followed(hops[..|hops| - 1], start, rtype);
      Some(Decide(hops[|hops| - 1], start, links, rtype))
  }

  /** `r` is what the replies of the hops lead to. */
  predicate Verdict(hops: seq<Message>, start: string, rtype: int, maxHops: nat, r: Resolution)
    requires AllShapedMessages(hops)
  {
    match r
    case Cached(_) => hops == []
    case Answered(header, answers) =>
      && LastDecision(hops, start, rtype).Some? && header == hops[|hops| - 1].header
      && var links := Followed(hops[..|hops| - 1], start, rtype).value;
         (match LastDecision(hops, start, rtype).value
          case Answer(wanted) => answers == links + wanted
          case Deny => answers == links
          case _ => false)
    case Failed(NoReply) => Followed(hops, start, rtype).Some? && |hops| < maxHops
    case Failed(TooManyHops) => Followed(hops, start, rtype).Some? && |hops| == maxHops
    case Failed(AliasLoop) => LastDecision(hops, start, rtype) == Some(Loop)
    case Failed(NoServers) => LastDecision(hops, start, rtype) == Some(Refer)
  }

  lemma HopAdded(hops: seq<Message>, m: Message, start: string, rtype: int)
    requires AllShapedMessages(hops) && ShapedMessage(m) && Followed(hops, start, rtype).Some?
    ensures AllShapedMessages(hops + [m]) && (hops + [m])[..|hops|] == hops
    ensures
      var links := Followed(hops, start, rtype).value;
      var d := Decide(m, start, links, rtype);
      && LastDecision(hops + [m], start, rtype) == Some(d)
      && Followed(hops + [m], start, rtype) ==
           match d { case Alias(rr) => Some(links + [rr]) case Refer => Some(links) case _ => None }
  {
    hide Decide;
    assert (hops + [m])[..|hops|] == hops;
  }

  lemma FollowedDecision(hops: seq<Message>, start: string, rtype: int)
    requires AllShapedMessages(hops) && hops != [] && Followed(hops, start, rtype).Some?
    ensures
      var d := LastDecision(hops, start, rtype);
      d.Some? && (d.value.Alias? || d.value.Refer?)
  {
    hide Decide;
  }

  // What the outcomes mean

  /** The aliases that were followed are a chain, and every one was told by some hop. */
  lemma {:induction false} FollowedIsChain(hops: seq<Message>, start: string, rtype: int)
    requires AllShapedMessages(hops) && Followed(hops, start, rtype).Some?
    ensures Chain(start, Followed(hops, start, rtype).value) && Told(hops, Followed(hops, start, rtype).value)
  {
    if hops != [] {
      var front, m := hops[..|hops| - 1], hops[|hops| - 1];
      FollowedIsChain(front, start, rtype);
      var links := Followed(front, start, rtype).value;
      ToldLater(front, hops, links);
      hide Chain, Told, SameName;
      match Decide(m, start, links, rtype) {
        case Alias(rr) =>
          ChainGrows(start, links, rr);
          ToldGrows(hops, links, rr);
        case _ =>
      }
    }
  }

  /**
   * The resolver gives up on a loop exactly when the last reply has no record of the wanted type but an
   * alias to a name that an earlier alias of the chain led to, spelled in the same way.
   */
  lemma LoopIff(hops: seq<Message>, start: string, rtype: int, maxHops: nat, r: Resolution)
    requires AllShapedMessages(hops) && Verdict(hops, start, rtype, maxHops, r)
    ensures r == Failed(AliasLoop) <==>
              && hops != [] && Followed(hops[..|hops| - 1], start, rtype).Some?
              && RepeatsAlias(hops[|hops| - 1], start, Followed(hops[..|hops| - 1], start, rtype).value, rtype)
    ensures r == Failed(AliasLoop) ==>
              var links := Followed(hops[..|hops| - 1], start, rtype).value;
              Chain(start, links) && Told(hops, links)
  {
    hide Followed, Chain, Told, Decide, RepeatsAlias;
    if hops != [] && Followed(hops, start, rtype).Some? {
      FollowedDecision(hops, start, rtype);
    }
    if hops != [] && Followed(hops[..|hops| - 1], start, rtype).Some? {
      DecidesLoop(hops[|hops| - 1], start, Followed(hops[..|hops| - 1], start, rtype).value, rtype);
      FollowedIsChain(hops[..|hops| - 1], start, rtype);
      ToldLater(hops[..|hops| - 1], hops, Followed(hops[..|hops| - 1], start, rtype).value);
    }
  }

  lemma DecidesLoop(m: Message, start: string, links: seq<RR>, rtype: int)
    requires ShapedMessage(m) && AllAliases(links)
    ensures Decide(m, start, links, rtype) == Loop <==> RepeatsAlias(m, start, links, rtype)
  {
    hide SameName, Repeats, LinkEnd;
    var p := OwnedBy(LinkEnd(start, links), rtype);
    assert Filter(p, m.answers) == [] <==> forall k :: 0 <= k < |m.answers| ==> !p(m.answers[k]);
  }

  /** No wanted record, and the first alias leads where one of `links` led, letter for letter. */
  predicate RepeatsAlias(m: Message, start: string, links: seq<RR>, rtype: int)
    requires AllAliases(links)
  {
    var name := LinkEnd(start, links);
    var cname := Find(OwnedBy(name, TYPE_CNAME), m.answers);
    && (forall k :: 0 <= k < |m.answers| ==> !OwnedBy(name, rtype)(m.answers[k]))
    && cname.Some? && cname.value.rdata.Target? && Repeats(links, cname.value.rdata.target)
  }

  predicate HasAlias(m: Message, name: string) {
    Find(OwnedBy(name, TYPE_CNAME), m.answers).Some?
  }

  /** A reply that ends the search for `name`: it denies the name, or refers to no name server. */
  predicate Final(m: Message, name: string) {
    && !HasAlias(m, name)
    && (m.header.rcode == NXDOMAIN || Filter(Typed(TYPE_NS), m.authorities) == [])
  }

  /**
   * An answer: a chain of aliases from `name`, then all records of the wanted type that the last
   * reply has for the name the chain leads to, and none only if that reply ends the search.
   */
  ghost predicate LinkedAnswer(received: seq<Message>, name: string, rtype: int, header: Header, answers: seq<RR>) {
    && received != []
    && var m := received[|received| - 1];
       && header == m.header
       && exists links: seq<RR> ::
            && Chain(name, links) && Told(received, links)
            && var rrs := Filter(OwnedBy(LinkEnd(name, links), rtype), m.answers);
               answers == links + rrs && (rrs == [] ==> Final(m, LinkEnd(name, links)))
  }

  /** An answer of the resolver is linked to the question by replies of its own hops. */
  lemma AnswerIsLinked(hops: seq<Message>, start: string, rtype: int, maxHops: nat, r: Resolution)
    requires AllShapedMessages(hops) && Verdict(hops, start, rtype, maxHops, r) && r.Answered?
    ensures LinkedAnswer(hops, start, rtype, r.header, r.answers)
  {
    hide Followed, Chain, Told, Filter;
    var front, m := hops[..|hops| - 1], hops[|hops| - 1];
    FollowedIsChain(front, start, rtype);
    var links := Followed(front, start, rtype).value;
    ToldLater(front, hops, links);
    assert links + [] == links;
    assert r.answers == links + Filter(OwnedBy(LinkEnd(start, links), rtype), m.answers);
  }

  // Aliases that differ only in case

  lemma {:induction false} FindSame(p: RR -> bool, q: RR -> bool, s: seq<RR>)
    requires forall k :: 0 <= k < |s| ==> (p(s[k]) <==> q(s[k]))
    ensures Find(p, s) == Find(q, s)
  {
    if s != [] {
      assert p(s[0]) <==> q(s[0]);
      assert forall k :: 0 <= k < |s| - 1 ==> s[1..][k] == s[k + 1];
      FindSame(p, q, s[1..]);
    }
  }

  /** The reply has no wanted record, and its first alias leads from `start` to `start` up to case. */
  predicate CaseAlias(m: Message, start: string, rtype: int, rr: RR) {
    && Filter(OwnedBy(start, rtype), m.answers) == []
    && Find(OwnedBy(start, TYPE_CNAME), m.answers) == Some(rr) && rr.rdata.Target? && SameName(rr.rdata.target, start)
  }

  predicate CaseAliases(hops: seq<Message>, start: string, rtype: int, rrs: seq<RR>)
    requires |rrs| == |hops|
  {
    forall k :: 0 <= k < |hops| ==> CaseAlias(hops[k], start, rtype, rrs[k])
  }

  /** No two records have the same data. */
  predicate Different(rrs: seq<RR>) {
    forall j, k :: 0 <= j < k < |rrs| ==> rrs[j].rdata != rrs[k].rdata
  }

  predicate NewData(rrs: seq<RR>, rr: RR) {
    forall k :: 0 <= k < |rrs| ==> rrs[k].rdata != rr.rdata
  }

  lemma CaseFront(hops: seq<Message>, start: string, rtype: int, rrs: seq<RR>)
    requires |rrs| == |hops| && hops != [] && CaseAliases(hops, start, rtype, rrs) && Different(rrs)
    ensures CaseAliases(hops[..|hops| - 1], start, rtype, rrs[..|rrs| - 1]) && Different(rrs[..|rrs| - 1])
    ensures CaseAlias(hops[|hops| - 1], start, rtype, rrs[|rrs| - 1])
    ensures NewData(rrs[..|rrs| - 1], rrs[|rrs| - 1])
  {
    hide CaseAlias;
  }

  /** Aliases that repeat the name up to case are followed as long as each is spelled in a new way. */
  lemma {:induction false} CaseChain(hops: seq<Message>, start: string, rtype: int, rrs: seq<RR>)
    requires AllShapedMessages(hops) && |rrs| == |hops|
    requires CaseAliases(hops, start, rtype, rrs) && Different(rrs)
    ensures Followed(hops, start, rtype) == Some(rrs)
    ensures hops != [] ==> LastDecision(hops, start, rtype) == Some(Alias(rrs[|rrs| - 1]))
    ensures AllAliases(rrs) && SameName(LinkEnd(start, rrs), start)
  {
    hide SameName, CaseAlias, CaseAliases, Different, Decide, NewData;
    SameNameSelf(start);
    if hops != [] {
      var links, rr := rrs[..|rrs| - 1], rrs[|rrs| - 1];
      CaseFront(hops, start, rtype, rrs);
      CaseChain(hops[..|hops| - 1], start, rtype, links);
      assert links + [rr] == rrs;
      CaseDecision(hops[|hops| - 1], start, links, rtype, rr);
      CaseTarget(hops[|hops| - 1], start, rtype, rr);
    }
  }

  lemma SameNameSelf(name: string)
    ensures SameName(name, name)
  {
  }

  lemma CaseTarget(m: Message, start: string, rtype: int, rr: RR)
    requires CaseAlias(m, start, rtype, rr)
    ensures rr.rtype == TYPE_CNAME && rr.rdata.Target? && SameName(rr.rdata.target, start)
  {
  }

  lemma CaseDecision(m: Message, start: string, links: seq<RR>, rtype: int, rr: RR)
    requires ShapedMessage(m) && AllAliases(links) && SameName(LinkEnd(start, links), start)
    requires CaseAlias(m, start, rtype, rr) && NewData(links, rr)
    ensures Decide(m, start, links, rtype) == Alias(rr)
  {
    var name := LinkEnd(start, links);
    FindSame(OwnedBy(name, TYPE_CNAME), OwnedBy(start, TYPE_CNAME), m.answers);
    assert forall k :: 0 <= k < |m.answers| ==> !OwnedBy(start, rtype)(m.answers[k]);
    assert Filter(OwnedBy(name, rtype), m.answers) == [];
  }

  /** Such a chain is never a loop: when every hop gets a reply that goes on with it, the hops run out. */
  lemma CaseRunsOut(
    hops: seq<Message>, start: string, rtype: int, rrs: seq<RR>, maxHops: nat, r: Resolution)
    requires AllShapedMessages(hops) && |rrs| == |hops| && hops != []
    requires CaseAliases(hops, start, rtype, rrs) && Different(rrs)
    requires Verdict(hops, start, rtype, maxHops, r)
    ensures r == if |hops| == maxHops then Failed(TooManyHops) else Failed(NoReply)
  {
    hide CaseAliases, Different, Decide, Followed;
    CaseChain(hops, start, rtype, rrs);
  }

  /** `n` letters, the `k`-th a capital. */
  function Spelling(n: nat, k: nat): string {
    seq(n, i => if i == k then 'A' else 'a') + "."
  }

  /** A reply that calls the next spelling the canonical name of any other. */
  function SpelledReply(n: nat, k: nat): Message {
    Message(
      Header(0, 1, 0, 0, 0, 0, 0, 0, 0, 1, 0, 0), [], [RR(Spelling(n, n), TYPE_CNAME, Some(CLASS_IN), 60,
      Target(Spelling(n, k)))], [], [])
  }

  lemma SpellingsDiffer(n: nat, j: nat, k: nat)
    requires j < n
    ensures SameName(Spelling(n, j), Spelling(n, k)) && (j != k ==> Spelling(n, j) != Spelling(n, k))
  {
    assert Spelling(n, j)[j] == 'A' && (j != k ==> Spelling(n, k)[j] == 'a');
    forall i | 0 <= i <= n
      ensures LowerChar(Spelling(n, j)[i]) == LowerChar(Spelling(n, k)[i])
    {
    }
  }

  lemma CanonicalSpelling(n: nat, k: nat)
    requires 0 < n < 64
    ensures Canonical(Spelling(n, k))
    ensures EncodeName(Spelling(n, k)).Some? && |EncodeName(Spelling(n, k)).value| == n + 2
  {
    var letters := seq(n, i => if i == k then 'A' else 'a');
    assert WithoutDot(letters + ".") == letters && '.' !in letters;
    assert Split(letters, '.') == [letters];
    assert LabelsBytes([letters]) == [|letters| as byte] + LabelBytes(letters) + LabelsBytes([]);
  }

  function SpelledReplies(n: nat): (hops: seq<Message>)
    ensures |hops| == n && forall k :: 0 <= k < n ==> hops[k] == SpelledReply(n, k)
  {
    seq(n, k requires 0 <= k < n => SpelledReply(n, k))
  }

  function SpelledAliases(n: nat): (rrs: seq<RR>)
    ensures |rrs| == n && forall k :: 0 <= k < n ==> rrs[k] == SpelledReply(n, k).answers[0]
  {
    seq(n, k requires 0 <= k < n => SpelledReply(n, k).answers[0])
  }

  /**
   * For every number of hops there are such replies: `n` aliases from a name to itself in other
   * spellings are followed to the end.
   */
  lemma SpellingsFollowed(n: nat)
    ensures AllShapedMessages(SpelledReplies(n))
    ensures CaseAliases(SpelledReplies(n), Spelling(n, n), TYPE_A, SpelledAliases(n)) && Different(SpelledAliases(n))
    ensures Followed(SpelledReplies(n), Spelling(n, n), TYPE_A) == Some(SpelledAliases(n))
  {
    hide Spelling, SameName, Followed;
    SameNameSelf(Spelling(n, n));
    forall k | 0 <= k < n
      ensures CaseAlias(SpelledReply(n, k), Spelling(n, n), TYPE_A, SpelledReply(n, k).answers[0])
    {
      SpellingsDiffer(n, k, n);
    }
    forall j, k | 0 <= j < k < n
      ensures SpelledAliases(n)[j].rdata != SpelledAliases(n)[k].rdata
    {
      SpellingsDiffer(n, j, k);
    }
    CaseChain(SpelledReplies(n), Spelling(n, n), TYPE_A, SpelledAliases(n));
  }

  lemma SpellingsNormal(n: nat, k: nat)
    ensures Normal(SpelledReply(n, k)) == SpelledReply(n, k)
  {
    hide Spelling;
    var rr := SpelledReply(n, k).answers[0];
    assert NormalRR(rr) == rr;
    assert Map(NormalRR, [rr]) == [NormalRR(rr)];
  }

  /** A server can send them, where the name is short enough for a label. */
  lemma SpellingsSent(n: nat, k: nat)
    requires 0 < n < 64 && k < n
    ensures Encode(SpelledReply(n, k)).Some? && Decode(Encode(SpelledReply(n, k)).value) == Some(SpelledReply(n, k))
  {
    hide Encode, Decode, Canonical, Spelling, EncodeName;
    CanonicalSpelling(n, k);
    CanonicalSpelling(n, n);
    var m := SpelledReply(n, k);
    assert GoodRR(m.answers[0]);
    SpellingsNormal(n, k);
    MessageRoundTrip(m);
  }

  /** An answer read off: where its records come from and what they are. */
  lemma AnswerRecords(received: seq<Message>, name: string, rtype: int, header: Header, answers: seq<RR>)
    requires LinkedAnswer(received, name, rtype, header, answers)
    ensures forall k :: 0 <= k < |answers| ==> ToldBy(received, answers[k])
    ensures exists links: seq<RR>, rrs: seq<RR> ::
              answers == links + rrs && Chain(name, links) && Owned(LinkEnd(name, links), rtype, rrs)
  {
    var m := received[|received| - 1];
    var links: seq<RR> :|
      && Chain(name, links) && Told(received, links)
      && var rrs := Filter(OwnedBy(LinkEnd(name, links), rtype), m.answers);
         answers == links + rrs && (rrs == [] ==> Final(m, LinkEnd(name, links)));
    var rrs := Filter(OwnedBy(LinkEnd(name, links), rtype), m.answers);
    assert Owned(LinkEnd(name, links), rtype, rrs);
    forall k | 0 <= k < |answers|
      ensures ToldBy(received, answers[k])
    {
      if k < |links| {
        assert answers[k] == links[k];
      } else {
        assert answers[k] == rrs[k - |links|];
      }
    }
  }
}
