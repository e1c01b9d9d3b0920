/**
 * What a resolver of examples/dns-server/resolver.js has asked and heard so far: the questions put to
 * servers with their replies, where the replies come from, and which records and addresses were heard.
 */
module DnsLog {
  import opened DnsAnswers
  import opened DnsCache
  import opened DnsMessage
  import opened DnsName
  import opened DnsRecord
  import opened Wrappers

  /** A question put to a server, and the reply, if one came. */
  datatype Query = Query(ip: string, name: string, rtype: int, reply: Option<Message>)

  // Where replies come from

  /** One leg of a query: bytes that decode, or none. */
  function Leg(bytes: Option<seq<byte>>): Option<Message> {
    if bytes.None? then None else Decode(bytes.value)
  }

  /** The `i`-th exchange: the reply by UDP, or the one by TCP where that is missing or truncated. */
  function Exchange(udp: nat -> Option<seq<byte>>, tcp: nat -> Option<seq<byte>>, i: nat): Option<Message> {
    var m := Leg(udp(i));
    if m.None? || m.value.header.tc != 0 then Leg(tcp(i)) else m
  }

  /** Whether a question for the name can be encoded. */
  predicate Sendable(name: string) {
    EncodeName(name).Some?
  }

  lemma SendableQuery(name: string, rtype: int, id: int)
    ensures BuildQuery(name, rtype, id, h => h).Some? <==> Sendable(name)
  {
    hide EncodeName;
    var q := Question(name, rtype, Some(CLASS_IN));
    assert EncodeAll(EncodeQuestion, [q]).Some? <==> EncodeQuestion(q).Some?;
  }

  /** How many questions were sent. */
  function Sent(asked: seq<Query>): nat {
    if asked == [] then 0
    else Sent(asked[..|asked| - 1]) + (if Sendable(asked[|asked| - 1].name) then 1 else 0)
  }

  function Replies(asked: seq<Query>): seq<Message> {
    if asked == [] then []
    else
      var reply := asked[|asked| - 1].reply;
      Replies(asked[..|asked| - 1]) + (if reply.Some? then [reply.value] else [])
  }

  /** Every question was answered by its own exchange, if it was sent, and by nothing else. */
  predicate Honest(udp: nat -> Option<seq<byte>>, tcp: nat -> Option<seq<byte>>, asked: seq<Query>) {
    asked != [] ==>
      var front, q := asked[..|asked| - 1], asked[|asked| - 1];
      && Honest(udp, tcp, front)
      && q.reply == if Sendable(q.name) then Exchange(udp, tcp, Sent(front)) else None
  }

  /** The log of a resolver that has sent `queries` questions and got the replies `received`. */
  predicate Logged(
    udp: nat -> Option<seq<byte>>, tcp: nat -> Option<seq<byte>>, asked: seq<Query>, received: seq<Message>,
    queries: nat)
  {
    queries == Sent(asked) && received == Replies(asked) && Honest(udp, tcp, asked)
  }

  lemma LoggedNone(udp: nat -> Option<seq<byte>>, tcp: nat -> Option<seq<byte>>)
    ensures Logged(udp, tcp, [], [], 0)
  {
  }

  lemma LoggedMore(
    udp: nat -> Option<seq<byte>>, tcp: nat -> Option<seq<byte>>, asked: seq<Query>, received: seq<Message>,
    queries: nat, q: Query)
    requires Logged(udp, tcp, asked, received, queries)
    requires q.reply == if Sendable(q.name) then Exchange(udp, tcp, queries) else None
    ensures
      Logged(udp, tcp, asked + [q], if q.reply.Some? then received + [q.reply.value] else received,
        if Sendable(q.name) then queries + 1 else queries)
  {
    hide Exchange;
    assert (asked + [q])[..|asked|] == asked;
  }

  // What was received

  /** Up to its time to live, the record was an answer in some reply. */
  ghost predicate Heard(received: seq<Message>, rr: RR) {
    exists i, k :: 0 <= i < |received| && 0 <= k < |received[i].answers| && rr == received[i].answers[k].(ttl := rr.ttl)
  }

  ghost predicate AllHeard(received: seq<Message>, rrs: seq<RR>) {
    forall k :: 0 <= k < |rrs| ==> Heard(received, rrs[k])
  }

  /** The cache holds nothing that no reply said. */
  ghost predicate HeardCache(received: seq<Message>, entries: Entries) {
    forall key :: key in entries ==> AllHeard(received, entries[key].rrs)
  }

  /** Some reply gave this address to some name. */
  ghost predicate HeardAddress(received: seq<Message>, ip: string) {
    exists rr :: Heard(received, rr) && rr.rtype == TYPE_A && rr.rdata == Address(ip)
  }

  /** The address is in the glue of a referral. */
  ghost predicate GlueAddress(m: Message, ip: string) {
    exists k :: 0 <= k < |m.additionals| && m.additionals[k].rtype == TYPE_A && m.additionals[k].rdata == Address(ip)
  }

  /** Every message was received, not before the first `from`. */
  ghost predicate AllReceived(received: seq<Message>, from: nat, hops: seq<Message>) {
    forall k :: 0 <= k < |hops| ==> Received(received, from, hops[k])
  }

  ghost predicate Received(received: seq<Message>, from: nat, m: Message) {
    exists i :: from <= i < |received| && received[i] == m
  }

  lemma ReceivedLater(before: seq<Message>, received: seq<Message>, from: nat, m: Message)
    requires before <= received && Received(before, from, m)
    ensures Received(received, from, m)
  {
    var i :| from <= i < |before| && before[i] == m;
    assert received[i] == m;
  }

  lemma ReceivedMore(before: seq<Message>, received: seq<Message>, from: nat, hops: seq<Message>)
    requires before <= received && AllReceived(before, from, hops)
    ensures AllReceived(received, from, hops)
  {
    forall k | 0 <= k < |hops|
      ensures Received(received, from, hops[k])
    {
      ReceivedLater(before, received, from, hops[k]);
    }
  }

  lemma ReceivedLast(received: seq<Message>, from: nat, hops: seq<Message>)
    requires AllReceived(received, from, hops) && from < |received|
    ensures AllReceived(received, from, hops + [received[|received| - 1]])
    ensures Received(received, 0, received[|received| - 1])
  {
    var more := hops + [received[|received| - 1]];
    forall k | 0 <= k < |more|
      ensures Received(received, from, more[k])
    {
      assert k < |hops| ==> Received(received, from, hops[k]);
    }
  }

  /** The reply was recorded, or there was none. */
  ghost predicate Recorded(before: seq<Message>, received: seq<Message>, m: Option<Message>) {
    if m.None? then received == before else ShapedMessage(m.value) && received == before + [m.value]
  }

  // What was asked

  /** A root server, or an address that some reply gave. */
  ghost predicate KnownServer(roots: seq<string>, received: seq<Message>, ip: string) {
    || ip in roots || HeardAddress(received, ip)
    || exists i :: 0 <= i < |received| && GlueAddress(received[i], ip)
  }

  ghost predicate AllKnown(roots: seq<string>, received: seq<Message>, servers: seq<string>) {
    forall k :: 0 <= k < |servers| ==> KnownServer(roots, received, servers[k])
  }

  /** The question is for `rtype`, at the end of a chain of aliases from `start`. */
  ghost predicate AsksFor(received: seq<Message>, start: string, rtype: int, q: Query) {
    && q.rtype == rtype
    && exists links: seq<RR> :: Chain(start, links) && Told(received, links) && q.name == LinkEnd(start, links)
  }

  /** Some referral names this server. */
  ghost predicate NamedServer(received: seq<Message>, target: string) {
    exists i :: 0 <= i < |received| && NamesServer(received[i], target)
  }

  predicate NamesServer(m: Message, target: string) {
    exists k ::
      0 <= k < |m.authorities| && m.authorities[k].rtype == TYPE_NS && m.authorities[k].rdata == Target(target)
  }

  /** The question is for the address of a name server of some referral. */
  ghost predicate AsksForServer(received: seq<Message>, q: Query) {
    exists target :: NamedServer(received, target) && AsksFor(received, Dotted(target), TYPE_A, q)
  }

  /** Why the question was put, and to this server. */
  ghost predicate Purpose(roots: seq<string>, received: seq<Message>, start: string, rtype: int, q: Query) {
    && KnownServer(roots, received, q.ip)
    && (AsksFor(received, start, rtype, q) || AsksForServer(received, q))
  }

  ghost predicate AllPurposed(
    roots: seq<string>, received: seq<Message>, start: string, rtype: int, from: nat, asked: seq<Query>)
  {
    forall k :: from <= k < |asked| ==> Purpose(roots, received, start, rtype, asked[k])
  }

  /** All questions since `from` were put to find the address of a name server. */
  ghost predicate AllForServers(roots: seq<string>, received: seq<Message>, from: nat, asked: seq<Query>) {
    forall k :: from <= k < |asked| ==> ForServer(roots, received, asked[k])
  }

  ghost predicate ForServer(roots: seq<string>, received: seq<Message>, q: Query) {
    KnownServer(roots, received, q.ip) && AsksForServer(received, q)
  }

  /** The same question to one server after the other, without a reply. */
  function Unanswered(servers: seq<string>, name: string, rtype: int): (asked: seq<Query>)
    ensures |asked| == |servers|
    ensures forall k :: 0 <= k < |asked| ==> asked[k] == Query(servers[k], name, rtype, None)
  {
    seq(|servers|, k requires 0 <= k < |servers| => Query(servers[k], name, rtype, None))
  }

  /** The servers were asked in turn, up to the first that replied. */
  ghost predicate AskedInTurn(
    before: seq<Query>, asked: seq<Query>, servers: seq<string>, name: string, rtype: int, reply: Option<Message>)
  {
    if reply.None? then asked == before + Unanswered(servers, name, rtype)
    else
      exists i ::
        && 0 <= i < |servers|
        && asked == before + Unanswered(servers[..i], name, rtype) + [Query(servers[i], name, rtype, reply)]
  }

  /** A dot at the end of the name, unless there is one. */
  function Dotted(name: string): string {
    if name != "" && name[|name| - 1] == '.' then name else name + "."
  }

  lemma ReceivedBefore(received: seq<Message>, from: nat, hops: seq<Message>)
    requires AllReceived(received, from, hops)
    ensures AllReceived(received, 0, hops)
  {
    forall k | 0 <= k < |hops|
      ensures Received(received, 0, hops[k])
    {
      assert Received(received, from, hops[k]);
    }
  }

  lemma KnownLater(roots: seq<string>, before: seq<Message>, received: seq<Message>, ip: string)
    requires before <= received && KnownServer(roots, before, ip)
    ensures KnownServer(roots, received, ip)
  {
    hide Heard, GlueAddress;
    AddressesLater(before, received, [ip]);
    assert [ip][0] == ip;
    if i :| 0 <= i < |before| && GlueAddress(before[i], ip) {
      assert received[i] == before[i];
    }
  }

  lemma AsksLater(before: seq<Message>, received: seq<Message>, start: string, rtype: int, q: Query)
    requires before <= received && AsksFor(before, start, rtype, q)
    ensures AsksFor(received, start, rtype, q)
  {
    hide Told, LeadsOn;
    var links: seq<RR> :| Chain(start, links) && Told(before, links) && q.name == LinkEnd(start, links);
    ToldLater(before, received, links);
  }

  lemma AsksServerLater(before: seq<Message>, received: seq<Message>, q: Query)
    requires before <= received && AsksForServer(before, q)
    ensures AsksForServer(received, q)
  {
    hide AsksFor, NamesServer;
    var target :| NamedServer(before, target) && AsksFor(before, Dotted(target), TYPE_A, q);
    var i :| 0 <= i < |before| && NamesServer(before[i], target);
    assert NamesServer(received[i], target);
    AsksLater(before, received, Dotted(target), TYPE_A, q);
  }

  lemma PurposesLater(
    roots: seq<string>, before: seq<Message>, received: seq<Message>, start: string, rtype: int, from: nat,
    asked: seq<Query>)
    requires before <= received && AllPurposed(roots, before, start, rtype, from, asked)
    ensures AllPurposed(roots, received, start, rtype, from, asked)
  {
    hide KnownServer, AsksFor, AsksForServer;
    forall k | from <= k < |asked|
      ensures Purpose(roots, received, start, rtype, asked[k])
    {
      var q := asked[k];
      assert Purpose(roots, before, start, rtype, q);
      KnownLater(roots, before, received, q.ip);
      if AsksFor(before, start, rtype, q) {
        AsksLater(before, received, start, rtype, q);
      } else {
        AsksServerLater(before, received, q);
      }
    }
  }

  /** The questions of one hop are for the name the aliases have led to, at servers that are known. */
  lemma HopAsked(
    roots: seq<string>, before: seq<Message>, received: seq<Message>, start: string, rtype: int, hops: seq<Message>,
    heardFrom: nat, from: nat, askedBefore: seq<Query>, asked: seq<Query>, servers: seq<string>, reply: Option<Message>)
    requires before <= received && AllShapedMessages(hops) && Followed(hops, start, rtype).Some?
    requires AllReceived(before, heardFrom, hops) && AllKnown(roots, before, servers)
    requires from <= |askedBefore| && AllPurposed(roots, before, start, rtype, from, askedBefore)
    requires
      var name := LinkEnd(start, Followed(hops, start, rtype).value);
      AskedInTurn(askedBefore, asked, servers, name, rtype, reply)
    ensures askedBefore <= asked && AllPurposed(roots, received, start, rtype, from, asked)
  {
    hide KnownServer, AsksFor, AsksForServer, Followed, Received, Chain, Told, LinkEnd;
    var links := Followed(hops, start, rtype).value;
    var name := LinkEnd(start, links);
    FollowedIsChain(hops, start, rtype);
    ToldByReceived(before, heardFrom, hops, links);
    forall k | |askedBefore| <= k < |asked|
      ensures Purpose(roots, before, start, rtype, asked[k])
    {
      InTurn(askedBefore, asked, servers, name, rtype, reply, k);
      var j :| 0 <= j < |servers| && servers[j] == asked[k].ip;
      assert KnownServer(roots, before, servers[j]);
      AsksNow(before, start, rtype, links, asked[k]);
    }
    assert forall k :: from <= k < |askedBefore| ==> asked[k] == askedBefore[k];
    PurposesLater(roots, before, received, start, rtype, from, asked);
  }

  lemma AsksNow(received: seq<Message>, start: string, rtype: int, links: seq<RR>, q: Query)
    requires Chain(start, links) && Told(received, links) && q.name == LinkEnd(start, links) && q.rtype == rtype
    ensures AsksFor(received, start, rtype, q)
  {
  }

  lemma InTurn(
    before: seq<Query>, asked: seq<Query>, servers: seq<string>, name: string, rtype: int, reply: Option<Message>,
    k: nat)
    requires AskedInTurn(before, asked, servers, name, rtype, reply) && |before| <= k < |asked|
    ensures before <= asked && asked[k].ip in servers && asked[k].name == name && asked[k].rtype == rtype
  {
    if reply.Some? {
      var i :|
        && 0 <= i < |servers|
        && asked == before + Unanswered(servers[..i], name, rtype) + [Query(servers[i], name, rtype, reply)];
      if k < |before| + i {
        assert asked[k] == Unanswered(servers[..i], name, rtype)[k - |before|];
        assert asked[k].ip == servers[k - |before|];
      } else {
        assert asked[k].ip == servers[i];
      }
    } else {
      assert asked[k] == Unanswered(servers, name, rtype)[k - |before|];
      assert asked[k].ip == servers[k - |before|];
    }
  }

  lemma ToldByReceived(received: seq<Message>, from: nat, hops: seq<Message>, links: seq<RR>)
    requires AllReceived(received, from, hops) && Told(hops, links)
    ensures Told(received, links)
  {
    forall k | 0 <= k < |links|
      ensures ToldBy(received, links[k])
    {
      assert ToldBy(hops, links[k]);
      var h :| 0 <= h < |hops| && links[k] in hops[h].answers;
      assert Received(received, from, hops[h]);
      var i :| from <= i < |received| && received[i] == hops[h];
      assert links[k] in received[i].answers;
    }
  }

  lemma NamedBy(received: seq<Message>, m: Message, rr: RR)
    requires Received(received, 0, m) && rr in m.authorities && rr.rtype == TYPE_NS && rr.rdata.Target?
    ensures NamedServer(received, rr.rdata.target)
  {
    var k :| 0 <= k < |m.authorities| && m.authorities[k] == rr;
    assert NamesServer(m, rr.rdata.target);
    var i :| 0 <= i < |received| && received[i] == m;
    assert NamesServer(received[i], rr.rdata.target);
  }

  /** The questions put while the address of `target` was looked up. */
  lemma ForServersGrow(
    roots: seq<string>, before: seq<Message>, received: seq<Message>, target: string, from: nat,
    askedBefore: seq<Query>, asked: seq<Query>)
    requires before <= received && askedBefore <= asked && from <= |askedBefore| && NamedServer(received, target)
    requires AllForServers(roots, before, from, askedBefore)
    requires AllPurposed(roots, received, Dotted(target), TYPE_A, |askedBefore|, asked)
    ensures AllForServers(roots, received, from, asked)
  {
    hide KnownServer, AsksFor, AsksForServer, NamedServer;
    forall k | from <= k < |asked|
      ensures ForServer(roots, received, asked[k])
    {
      if k < |askedBefore| {
        assert ForServer(roots, before, askedBefore[k]);
        KnownLater(roots, before, received, asked[k].ip);
        AsksServerLater(before, received, asked[k]);
      } else {
        assert Purpose(roots, received, Dotted(target), TYPE_A, asked[k]);
        if AsksFor(received, Dotted(target), TYPE_A, asked[k]) {
          AsksServerNow(received, target, asked[k]);
        }
      }
    }
  }

  lemma AsksServerNow(received: seq<Message>, target: string, q: Query)
    requires NamedServer(received, target) && AsksFor(received, Dotted(target), TYPE_A, q)
    ensures AsksForServer(received, q)
  {
    hide NamedServer, AsksFor;
  }

  /** After a referral the next servers are known, and all questions so far have their purpose. */
  lemma Referred(
    roots: seq<string>, before: seq<Message>, received: seq<Message>, start: string, rtype: int, hops: seq<Message>,
    heardFrom: nat, from: nat, askedBefore: seq<Query>, asked: seq<Query>, m: Message, servers: seq<string>)
    requires before <= received && askedBefore <= asked && from <= |askedBefore| && Received(before, 0, m)
    requires AllReceived(before, heardFrom, hops)
    requires AllPurposed(roots, before, start, rtype, from, askedBefore)
    requires AllForServers(roots, received, |askedBefore|, asked)
    requires forall k :: 0 <= k < |servers| ==> GlueAddress(m, servers[k]) || HeardAddress(received, servers[k])
    ensures AllReceived(received, heardFrom, hops) && AllKnown(roots, received, servers)
    ensures AllPurposed(roots, received, start, rtype, from, asked)
  {
    hide GlueAddress, HeardAddress, Purpose, AsksForServer, AsksFor;
    ReceivedLater(before, received, 0, m);
    ReceivedMore(before, received, heardFrom, hops);
    PurposesLater(roots, before, received, start, rtype, from, askedBefore);
    forall k | |askedBefore| <= k < |asked|
      ensures Purpose(roots, received, start, rtype, asked[k])
    {
      assert ForServer(roots, received, asked[k]);
      ServerPurpose(roots, received, start, rtype, asked[k]);
    }
    assert forall k :: from <= k < |askedBefore| ==> asked[k] == askedBefore[k];
    var i :| 0 <= i < |received| && received[i] == m;
  }

  lemma ServerPurpose(roots: seq<string>, received: seq<Message>, start: string, rtype: int, q: Query)
    requires ForServer(roots, received, q)
    ensures Purpose(roots, received, start, rtype, q)
  {
  }

  lemma HeardGet(received: seq<Message>, entries: Entries, key: string, now: int)
    requires HeardCache(received, entries)
    ensures HeardCache(received, AfterGet(entries, key, now))
    ensures Lookup(entries, key, now).Some? ==> AllHeard(received, Lookup(entries, key, now).value)
  {
    if Lookup(entries, key, now).Some? {
      var rrs, ttl := entries[key].rrs, Remaining(entries[key], now);
      forall k | 0 <= k < |rrs|
        ensures Heard(received, rrs[k].(ttl := ttl))
      {
        assert Heard(received, rrs[k]);
        var i, j :| 0 <= i < |received| && 0 <= j < |received[i].answers| &&
          rrs[k] == received[i].answers[j].(ttl := rrs[k].ttl);
        assert rrs[k].(ttl := ttl) == received[i].answers[j].(ttl := ttl);
      }
    }
  }

  lemma HeardSet(received: seq<Message>, entries: Entries, key: string, rrs: seq<RR>, ttl: int, now: int)
    requires HeardCache(received, entries) && AllHeard(received, rrs)
    ensures HeardCache(received, AfterSet(entries, key, rrs, ttl, now))
  {
    hide AllHeard;
  }

  lemma HeardMore(before: seq<Message>, received: seq<Message>, rr: RR)
    requires before <= received && Heard(before, rr)
    ensures Heard(received, rr)
  {
    var i, k :| 0 <= i < |before| && 0 <= k < |before[i].answers| && rr == before[i].answers[k].(ttl := rr.ttl);
    assert received[i] == before[i];
  }

  lemma HeardLater(before: seq<Message>, received: seq<Message>, entries: Entries)
    requires before <= received && HeardCache(before, entries)
    ensures HeardCache(received, entries)
  {
    hide Heard;
    forall key, k | key in entries && 0 <= k < |entries[key].rrs|
      ensures Heard(received, entries[key].rrs[k])
    {
      assert AllHeard(before, entries[key].rrs);
      HeardMore(before, received, entries[key].rrs[k]);
    }
  }

  lemma AddressesLater(before: seq<Message>, received: seq<Message>, ips: seq<string>)
    requires before <= received
    ensures forall k :: 0 <= k < |ips| && HeardAddress(before, ips[k]) ==> HeardAddress(received, ips[k])
  {
    hide Heard;
    forall k | 0 <= k < |ips| && HeardAddress(before, ips[k])
      ensures HeardAddress(received, ips[k])
    {
      var rr :| Heard(before, rr) && rr.rtype == TYPE_A && rr.rdata == Address(ips[k]);
      HeardMore(before, received, rr);
    }
  }

  /** Answers of the last reply. */
  lemma LastHeard(received: seq<Message>, rrs: seq<RR>)
    requires received != [] && forall k :: 0 <= k < |rrs| ==> rrs[k] in received[|received| - 1].answers
    ensures AllHeard(received, rrs)
  {
    var i := |received| - 1;
    forall n | 0 <= n < |rrs|
      ensures Heard(received, rrs[n])
    {
      var k :| 0 <= k < |received[i].answers| && received[i].answers[k] == rrs[n];
      assert rrs[n] == received[i].answers[k].(ttl := rrs[n].ttl);
    }
  }

  /** Answers told by hops were heard. */
  lemma AnswerHeard(
    received: seq<Message>, hops: seq<Message>, name: string, rtype: int, header: Header, answers: seq<RR>)
    requires LinkedAnswer(hops, name, rtype, header, answers) && AllReceived(received, 0, hops)
    ensures AllHeard(received, answers)
  {
    hide LinkedAnswer;
    AnswerRecords(hops, name, rtype, header, answers);
    forall n | 0 <= n < |answers|
      ensures Heard(received, answers[n])
    {
      assert ToldBy(hops, answers[n]);
      var h :| 0 <= h < |hops| && answers[n] in hops[h].answers;
      var i :| 0 <= i < |received| && received[i] == hops[h];
      var k :| 0 <= k < |received[i].answers| && received[i].answers[k] == answers[n];
      assert answers[n] == received[i].answers[k].(ttl := answers[n].ttl);
    }
  }
}
