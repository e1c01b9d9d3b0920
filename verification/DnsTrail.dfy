/**
 * The trail of one resolution of examples/dns-server/resolver.js: which servers each hop asked, and how
 * the servers that a referral names were looked for.
 */
module DnsTrail {
  import opened DnsAnswers
  import opened DnsCache
  import opened DnsLog
  import opened DnsMessage
  import opened DnsRecord
  import opened Wrappers

  // Looking for the servers of a referral

  /** How the address of a name server was looked for. */
  datatype Search = InGlue(ip: string) | InCache(ip: string) | TooDeep | Looked(r: Resolution, hops: seq<Message>)

  /** `answers.find(rr => rr.type === TYPE.A)?.rdata.address` */
  function FirstAddress(rrs: seq<RR>): Option<string> {
    var found := Find(Typed(TYPE_A), rrs);
    if found.Some? && found.value.rdata.Address? then Some(found.value.rdata.address) else None
  }

  /** What the search came to. */
  function Found(s: Search): Option<string> {
    match s
    case InGlue(ip) => Some(ip)
    case InCache(ip) => Some(ip)
    case TooDeep => None
    case Looked(r, _) => FirstAddress(Answers(r))
  }

  /** The addresses that were found, in order; an empty one does not count. */
  function Usable(searches: seq<Search>): seq<string> {
    if searches == [] then []
    else
      var ip := Found(searches[|searches| - 1]);
      Usable(searches[..|searches| - 1]) + (if ip.Some? && ip.value != "" then [ip.value] else [])
  }

  lemma UsableMore(searches: seq<Search>, s: Search)
    ensures Usable(searches + [s]) ==
      Usable(searches) + (if Found(s).Some? && Found(s).value != "" then [Found(s).value] else [])
  {
    assert (searches + [s])[..|searches|] == searches;
  }

  /** The glue for a name in lower case: the last address record of that name. */
  function GlueFor(rrs: seq<RR>, key: string): Option<string> {
    if rrs == [] then None
    else
      var rr := rrs[|rrs| - 1];
      if rr.rtype == TYPE_A && LowerName(rr.name) == key && rr.rdata.Address? then Some(rr.rdata.address)
      else GlueFor(rrs[..|rrs| - 1], key)
  }

  lemma {:induction false} GlueIsThere(m: Message, n: nat, key: string)
    requires n <= |m.additionals| && GlueFor(m.additionals[..n], key).Some?
    ensures GlueAddress(m, GlueFor(m.additionals[..n], key).value)
    decreases n
  {
    assert n > 0 && m.additionals[..n][..n - 1] == m.additionals[..n - 1];
    var rr := m.additionals[n - 1];
    if !(rr.rtype == TYPE_A && LowerName(rr.name) == key && rr.rdata.Address?) {
      GlueIsThere(m, n - 1, key);
    }
  }

  /** The table of glue holds exactly the glue. */
  ghost predicate GlueTable(glue: map<string, string>, rrs: seq<RR>) {
    forall key :: GlueFor(rrs, key) == if key in glue then Some(glue[key]) else None
  }

  lemma GlueTableMore(glue: map<string, string>, rrs: seq<RR>, rr: RR)
    requires GlueTable(glue, rrs) && (rr.rtype == TYPE_A ==> rr.rdata.Address?)
    ensures GlueTable(if rr.rtype == TYPE_A then glue[LowerName(rr.name) := rr.rdata.address] else glue, rrs + [rr])
  {
    hide LowerName;
    assert (rrs + [rr])[..|rrs|] == rrs;
  }

  function NameServers(m: Message): seq<RR> {
    Filter(Typed(TYPE_NS), m.authorities)
  }

  /**
   * The glue is used where there is some that is not empty.  Otherwise the name is looked up, in the
   * cache or by a resolution of its own, unless these are nested too deeply.
   */
  predicate SearchFor(m: Message, target: string, left: nat, maxHops: nat, s: Search) {
    var glue := GlueFor(m.additionals, LowerName(target));
    if glue.Some? && glue.value != "" then s == InGlue(glue.value)
    else
      match s
      case InGlue(_) => false
      case InCache(_) => true
      case TooDeep => left == 0
      case Looked(r, hops) => left > 0 && AllShapedMessages(hops) && Verdict(hops, Dotted(target), TYPE_A, maxHops, r)
  }

  predicate Searched(m: Message, left: nat, maxHops: nat, searches: seq<Search>) {
    && |searches| <= |NameServers(m)|
    && forall k :: 0 <= k < |searches| ==>
         && NameServers(m)[k].rdata.Target?
         && SearchFor(m, NameServers(m)[k].rdata.target, left, maxHops, searches[k])
  }

  lemma SearchedMore(m: Message, left: nat, maxHops: nat, searches: seq<Search>, s: Search)
    requires Searched(m, left, maxHops, searches) && |searches| < |NameServers(m)|
    requires
      var rdata := NameServers(m)[|searches|].rdata;
      rdata.Target? && SearchFor(m, rdata.target, left, maxHops, s)
    ensures Searched(m, left, maxHops, searches + [s])
  {
    hide SearchFor;
  }

  /** Without a usable server, no name server has glue, and none of them could be looked up. */
  lemma {:induction false} NoneUsable(m: Message, left: nat, maxHops: nat, searches: seq<Search>, k: nat)
    requires Searched(m, left, maxHops, searches) && Usable(searches) == [] && k < |searches|
    ensures
      var rdata := NameServers(m)[k].rdata;
      && rdata.Target? && (Found(searches[k]).None? || Found(searches[k]).value == "")
      && var glue := GlueFor(m.additionals, LowerName(rdata.target));
         glue.None? || glue.value == ""
    decreases |searches|
  {
    hide SearchFor, Verdict;
    var front := searches[..|searches| - 1];
    if k < |front| {
      assert front[k] == searches[k];
      NoneUsable(m, left, maxHops, front, k);
    } else {
      NotFound(m, NameServers(m)[k].rdata.target, left, maxHops, searches[k]);
    }
  }

  lemma NotFound(m: Message, target: string, left: nat, maxHops: nat, s: Search)
    requires SearchFor(m, target, left, maxHops, s) && (Found(s).None? || Found(s).value == "")
    ensures
      var glue := GlueFor(m.additionals, LowerName(target));
      glue.None? || glue.value == ""
  {
  }

  // Which servers each hop asked

  /** The servers of the next hop: those of a referral, or the roots at the start and after an alias. */
  function ServersFor(
    roots: seq<string>, hops: seq<Message>, searches: seq<seq<Search>>, start: string, rtype: int): seq<string>
    requires AllShapedMessages(hops) && |searches| == |hops|
  {
    if LastDecision(hops, start, rtype) == Some(Refer) then Usable(searches[|searches| - 1]) else roots
  }

  /** The name the next hop asks for. */
  function AskedNext(hops: seq<Message>, start: string, rtype: int): string
    requires AllShapedMessages(hops)
  {
    if Followed(hops, start, rtype).Some? then LinkEnd(start, Followed(hops, start, rtype).value) else start
  }

  /** Some time since `from` these servers were asked in turn for the name, with this outcome. */
  ghost predicate TurnTaken(
    asked: seq<Query>, from: nat, servers: seq<string>, name: string, rtype: int, reply: Option<Message>)
  {
    exists before: seq<Query>, after: seq<Query> ::
      from <= |before| && after <= asked && AskedInTurn(before, after, servers, name, rtype, reply)
  }

  /** The last questions were put to these servers, all of them, and none replied. */
  ghost predicate AllSilent(asked: seq<Query>, from: nat, servers: seq<string>, name: string, rtype: int) {
    exists before: seq<Query> ::
      from <= |before| && asked == before + Unanswered(servers, name, rtype)
  }

  /** Every hop asked the servers it should, and every referral was looked into. */
  ghost predicate Trail(
    roots: seq<string>, left: nat, maxHops: nat, asked: seq<Query>, from: nat, hops: seq<Message>,
    searches: seq<seq<Search>>, start: string, rtype: int)
    decreases |hops|
  {
    && AllShapedMessages(hops) && |searches| == |hops|
    && (hops != [] ==>
          var front, done := hops[..|hops| - 1], searches[..|hops| - 1];
          var m := hops[|hops| - 1];
          && Trail(roots, left, maxHops, asked, from, front, done, start, rtype)
          && TurnTaken(asked, from, ServersFor(roots, front, done, start, rtype), AskedNext(front, start, rtype), rtype,
               Some(m))
          && (LastDecision(hops, start, rtype) == Some(Refer) ==>
                && Searched(m, left, maxHops, searches[|hops| - 1])
                && |searches[|hops| - 1]| == |NameServers(m)|))
  }

  lemma TurnLater(
    asked: seq<Query>, more: seq<Query>, from: nat, servers: seq<string>, name: string, rtype: int,
    reply: Option<Message>)
    requires TurnTaken(asked, from, servers, name, rtype, reply) && asked <= more
    ensures TurnTaken(more, from, servers, name, rtype, reply)
  {
    hide AskedInTurn;
  }

  lemma {:induction false} TrailLater(
    roots: seq<string>, left: nat, maxHops: nat, asked: seq<Query>, more: seq<Query>, from: nat, hops: seq<Message>,
    searches: seq<seq<Search>>, start: string, rtype: int)
    requires Trail(roots, left, maxHops, asked, from, hops, searches, start, rtype) && asked <= more
    ensures Trail(roots, left, maxHops, more, from, hops, searches, start, rtype)
    decreases |hops|
  {
    hide TurnTaken, Searched, LastDecision, AskedNext, Followed, ServersFor;
    if hops != [] {
      var front, done := hops[..|hops| - 1], searches[..|hops| - 1];
      TrailLater(roots, left, maxHops, asked, more, from, front, done, start, rtype);
      TurnLater(asked, more, from, ServersFor(roots, front, done, start, rtype), AskedNext(front, start, rtype), rtype,
        Some(hops[|hops| - 1]));
    }
  }

  /** One more hop: its servers were asked in turn, and its referral, if it is one, was looked into. */
  lemma TrailMore(
    roots: seq<string>, left: nat, maxHops: nat, asked: seq<Query>, from: nat, hops: seq<Message>,
    searches: seq<seq<Search>>, start: string, rtype: int, m: Message, found: seq<Search>)
    requires Trail(roots, left, maxHops, asked, from, hops, searches, start, rtype) && ShapedMessage(m)
    requires Followed(hops, start, rtype).Some?
    requires
      TurnTaken(asked, from, ServersFor(roots, hops, searches, start, rtype), AskedNext(hops, start, rtype), rtype,
        Some(m))
    requires Decide(m, start, Followed(hops, start, rtype).value, rtype) == Refer ==>
               Searched(m, left, maxHops, found) && |found| == |NameServers(m)|
    ensures Trail(roots, left, maxHops, asked, from, hops + [m], searches + [found], start, rtype)
    ensures ServersFor(roots, hops + [m], searches + [found], start, rtype) ==
      if Decide(m, start, Followed(hops, start, rtype).value, rtype) == Refer then Usable(found) else roots
  {
    hide TurnTaken, Searched, AskedNext, Followed, Decide, LastDecision, Usable;
    HopAdded(hops, m, start, rtype);
    assert (hops + [m])[..|hops|] == hops && (searches + [found])[..|hops|] == searches;
  }

  lemma TrailStart(
    roots: seq<string>, left: nat, maxHops: nat, asked: seq<Query>, from: nat, start: string, rtype: int)
    ensures Trail(roots, left, maxHops, asked, from, [], [], start, rtype)
    ensures ServersFor(roots, [], [], start, rtype) == roots && AskedNext([], start, rtype) == start
  {
  }

  /** A turn just taken. */
  lemma TurnNow(
    before: seq<Query>, asked: seq<Query>, from: nat, servers: seq<string>, name: string, rtype: int,
    reply: Option<Message>)
    requires AskedInTurn(before, asked, servers, name, rtype, reply) && from <= |before|
    ensures TurnTaken(asked, from, servers, name, rtype, reply)
    ensures reply.None? ==> AllSilent(asked, from, servers, name, rtype)
  {
  }
}
