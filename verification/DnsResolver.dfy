/**
 * The iterative resolver of examples/dns-server/resolver.js, against arbitrary upstream servers.
 *
 * Replies and the clock come from oracles: the `i`-th query has a UDP outcome and a TCP outcome,
 * each some bytes or a failure, and the `i`-th look at the clock has a time.  Sockets, timeouts and
 * promises are not part of this model.
 */
module DnsResolver {
  import opened DnsAnswers
  import opened DnsCache
  import opened DnsLog
  import opened DnsMessage
  import opened DnsRecord
  import opened DnsTrail
  import opened Wrappers

  /** One resolver with its cache, its query counter and its surroundings. */
  class Resolver {
    const udp: nat -> Option<seq<byte>>
    const tcp: nat -> Option<seq<byte>>
    const clock: nat -> int
    const roots: seq<string>
    const maxHops: nat
    const maxGlueDepth: nat
    const cache: Cache
    var nextId: nat
    var queries: nat
    var ticks: nat
    /** The replies so far, oldest first. */
    ghost var received: seq<Message>
    /** The questions put to servers so far. */
    ghost var asked: seq<Query>

    constructor (
      udp: nat -> Option<seq<byte>>, tcp: nat -> Option<seq<byte>>, clock: nat -> int, roots: seq<string>,
      maxHops: nat, maxGlueDepth: nat)
      ensures Valid() && fresh(cache) && cache.entries == map[] && received == [] && asked == []
      ensures this.udp == udp && this.tcp == tcp && this.clock == clock && this.roots == roots
      ensures queries == 0 && ticks == 0 && this.maxHops == maxHops && this.maxGlueDepth == maxGlueDepth
    {
      this.udp, this.tcp, this.clock, this.roots := udp, tcp, clock, roots;
      this.maxHops, this.maxGlueDepth := maxHops, maxGlueDepth;
      cache := new Cache();
      nextId, queries, ticks := 1, 0, 0;
      received, asked := [], [];
      LoggedNone(udp, tcp);
    }

    ghost predicate Valid()
      reads this, cache
    {
      && Consistent(cache.entries) && HeardCache(received, cache.entries)
      && Logged(udp, tcp, asked, received, queries)
    }

    method Now() returns (now: int)
      modifies this`ticks
      ensures now == clock(old(ticks)) && ticks == old(ticks) + 1
    {
      now := clock(ticks);
      ticks := ticks + 1;
    }

    method CacheGet(key: string) returns (r: Option<seq<RR>>)
      requires Valid()
      modifies this`ticks, cache
      ensures Valid() && ticks == old(ticks) + 1
      ensures r == Lookup(old(cache.entries), key, clock(old(ticks)))
      ensures cache.entries == AfterGet(old(cache.entries), key, clock(old(ticks)))
      ensures r.Some? ==> r.value != [] && KeptUnder(r.value, key) && AllHeard(received, r.value)
    {
      hide Consistent, KeptUnder, Logged;
      var now := Now();
      HeardGet(received, cache.entries, key, now);
      ConsistentGet(cache.entries, key, now);
      r := cache.Get(key, now);
    }

    /** `cacheRRs` */
    method CacheRRs(name: string, rtype: nat, rrs: seq<RR>)
      requires Valid() && AllShaped(rrs) && Owned(name, rtype, rrs) && AllHeard(received, rrs)
      modifies this`ticks, cache
      ensures Valid() && cache.entries == WithRRs(old(cache.entries), name, rtype, rrs, clock(old(ticks)))
    {
      hide Logged;
      if |rrs| == 0 {
        return;
      }
      var key := CacheKey(name, rtype);
      var now := Now();
      forall k | 0 <= k < |rrs|
        ensures key == CacheKey(rrs[k].name, rrs[k].rtype)
      {
        KeyInjective(name, rtype, rrs[k].name, rrs[k].rtype);
      }
      ConsistentSet(cache.entries, key, rrs, MinTtl(rrs), now);
      HeardSet(received, cache.entries, key, rrs, MinTtl(rrs), now);
      cache.Set(key, rrs, MinTtl(rrs), now);
    }

    /** One leg of a query: `None` for no reply, or one that does not decode. */
    method Reply(bytes: Option<seq<byte>>) returns (m: Option<Message>)
      ensures m == Leg(bytes) && (m.Some? ==> ShapedMessage(m.value))
    {
      if bytes.None? {
        return None;
      }
      DecodedShaped(bytes.value);
      m := DecodeMessage(bytes.value);
    }

    /** `queryServer`: UDP first, TCP when that fails or is truncated. */
    method QueryServer(ip: string, name: string, rtype: int) returns (m: Option<Message>)
      requires Logged(udp, tcp, asked, received, queries)
      modifies this`nextId, this`queries, this`received, this`asked
      ensures Logged(udp, tcp, asked, received, queries)
      ensures m == if Sendable(name) then Exchange(udp, tcp, old(queries)) else None
      ensures asked == old(asked) + [Query(ip, name, rtype, m)] && Recorded(old(received), received, m)
    {
      hide Logged, Leg, Sendable, Decode;
      SendableQuery(name, rtype, nextId % 0x10000);
      var query := BuildQuery(name, rtype, nextId % 0x10000, h => h);
      nextId := nextId + 1;
      if query.None? {
        LoggedMore(udp, tcp, asked, received, queries, Query(ip, name, rtype, None));
        asked := asked + [Query(ip, name, rtype, None)];
        return None;
      }
      var i := queries;
      m := Reply(udp(i));
      if m.None? || m.value.header.tc != 0 {
        m := Reply(tcp(i));
      }
      LoggedMore(udp, tcp, asked, received, queries, Query(ip, name, rtype, m));
      queries := queries + 1;
      if m.Some? {
        received := received + [m.value];
      }
      asked := asked + [Query(ip, name, rtype, m)];
    }

    /** The loop over the servers of one hop: the first that answers. */
    method QueryServers(servers: seq<string>, name: string, rtype: int) returns (m: Option<Message>)
      requires Logged(udp, tcp, asked, received, queries)
      modifies this`nextId, this`queries, this`received, this`asked
      ensures Logged(udp, tcp, asked, received, queries)
      ensures Recorded(old(received), received, m)
      ensures AskedInTurn(old(asked), asked, servers, name, rtype, m)
    {
      hide Logged, Exchange;
      for i := 0 to |servers|
        invariant Logged(udp, tcp, asked, received, queries) && received == old(received)
        invariant asked == old(asked) + Unanswered(servers[..i], name, rtype)
      {
        m := QueryServer(servers[i], name, rtype);
        if m.Some? {
          return;
        }
        assert Unanswered(servers[..i + 1], name, rtype) ==
          Unanswered(servers[..i], name, rtype) + [Query(servers[i], name, rtype, None)];
      }
      assert servers[..|servers|] == servers;
      m := None;
    }

    /** `resolveGlue`: an address for a name server that came without one, and how it was looked for. */
    method ResolveGlue(name: string, glueDepth: nat) returns (ip: Option<string>, ghost s: Search)
      requires Valid() && glueDepth <= maxGlueDepth
      modifies this, cache
      ensures Valid() && old(received) <= received && old(asked) <= asked
      ensures ip == Found(s) && (ip.Some? ==> HeardAddress(received, ip.value))
      ensures
        var hit := Lookup(old(cache.entries), CacheKey(name, TYPE_A), clock(old(ticks)));
        if hit.Some? then
          && hit.value != [] && s.InCache? && hit.value[0].rdata == Address(s.ip)
          && received == old(received) && asked == old(asked)
        else if glueDepth == maxGlueDepth then
          s == TooDeep && received == old(received) && asked == old(asked)
        else
          && s.Looked? && AllShapedMessages(s.hops) && Verdict(s.hops, Dotted(name), TYPE_A, maxHops, s.r)
          && AllReceived(received, |old(received)|, s.hops)
      ensures AllPurposed(roots, received, Dotted(name), TYPE_A, |old(asked)|, asked)
      decreases maxGlueDepth - glueDepth, 0
    {
      hide Consistent, HeardCache, CacheKey, Heard, LinkedAnswer, Purpose, Verdict, Received, Logged, Trail, Lookup;
      hide AllSilent;
      var cached := CacheGet(CacheKey(name, TYPE_A));
      if cached.Some? {
        KeyInjective(name, TYPE_A, cached.value[0].name, cached.value[0].rtype);
        assert Heard(received, cached.value[0]);
        ip := Some(cached.value[0].rdata.address);
        return ip, InCache(ip.value);
      }
      if glueDepth >= maxGlueDepth {
        return None, TooDeep;
      }
      ghost var from := |received|;
      var result, hops, searches := Resolve(name, TYPE_A, glueDepth + 1);
      s := Looked(result, hops);
      var found := Find(Typed(TYPE_A), Answers(result));
      if found.None? {
        return None, s;
      }
      if result.Answered? {
        AnswerIsLinked(hops, Dotted(name), TYPE_A, maxHops, result);
        ReceivedBefore(received, from, hops);
        AnswerHeard(received, hops, Dotted(name), TYPE_A, result.header, result.answers);
      }
      assert Heard(received, found.value);
      return Some(found.value.rdata.address), s;
    }

    /** The loop that collects the glue of a referral; later records win. */
    method CollectGlue(m: Message) returns (glue: map<string, string>)
      requires ShapedMessage(m)
      ensures GlueTable(glue, m.additionals)
    {
      hide GlueTable;
      glue := map[];
      NoGlue();
      for i := 0 to |m.additionals|
        invariant GlueTable(glue, m.additionals[..i])
      {
        var rr := m.additionals[i];
        assert m.additionals[..i + 1] == m.additionals[..i] + [rr];
        GlueTableMore(glue, m.additionals[..i], rr);
        if rr.rtype == TYPE_A {
          glue := glue[LowerName(rr.name) := rr.rdata.address];
        }
      }
      assert m.additionals[..|m.additionals|] == m.additionals;
    }

    /**
     * The addresses of the name servers a referral names, in order: from its glue, or looked up, and
     * none but these.
     */
    method NextServers(m: Message, glueDepth: nat) returns (servers: seq<string>, ghost searches: seq<Search>)
      requires Valid() && glueDepth <= maxGlueDepth && ShapedMessage(m) && Received(received, 0, m)
      modifies this, cache
      ensures Valid() && old(received) <= received && old(asked) <= asked
      ensures Searched(m, maxGlueDepth - glueDepth, maxHops, searches) && |searches| == |NameServers(m)|
      ensures servers == Usable(searches)
      ensures forall k :: 0 <= k < |servers| ==>
                servers[k] != "" && (GlueAddress(m, servers[k]) || HeardAddress(received, servers[k]))
      ensures AllForServers(roots, received, |old(asked)|, asked)
      decreases maxGlueDepth - glueDepth, 1
    {
      hide Consistent, HeardCache, HeardAddress, Purpose, KnownServer, AsksForServer, Received, Logged, GlueFor;
      hide SearchFor, Searched, Verdict, Lookup, CacheKey, GlueAddress, Usable, Found, GlueTable;
      var nsRecords := Filter(Typed(TYPE_NS), m.authorities);
      var glue := CollectGlue(m);
      servers, searches := [], [];
      NothingSearched(m, maxGlueDepth - glueDepth, maxHops);
      for i := 0 to |nsRecords|
        invariant Valid() && old(received) <= received && old(asked) <= asked
        invariant Received(received, 0, m) && AllForServers(roots, received, |old(asked)|, asked)
        invariant Searched(m, maxGlueDepth - glueDepth, maxHops, searches) && |searches| == i
        invariant servers == Usable(searches)
        invariant forall k :: 0 <= k < |servers| ==>
                    servers[k] != "" && (GlueAddress(m, servers[k]) || HeardAddress(received, servers[k]))
      {
        var target := nsRecords[i].rdata.target;
        var key := LowerName(target);
        GlueLookup(m, glue, key);
        if key in glue && glue[key] != "" {
          GlueSearch(m, target, maxGlueDepth - glueDepth, maxHops, searches);
          searches := searches + [InGlue(glue[key])];
          servers := servers + [glue[key]];
          continue;
        }
        ghost var before, askedBefore := received, asked;
        var ip, s := ResolveGlue(target, glueDepth);
        AddressesLater(before, received, servers);
        ReceivedLater(before, received, 0, m);
        NamedBy(received, m, nsRecords[i]);
        ForServersGrow(roots, before, received, target, |old(asked)|, askedBefore, asked);
        GlueMissing(m, target, maxGlueDepth - glueDepth, maxHops, searches, s);
        searches := searches + [s];
        if ip.Some? && ip.value != "" {
          servers := servers + [ip.value];
        }
      }
    }

    /** What one hop makes of the reply: the branch taken, with the records put into the cache. */
    method Take(
      m: Message, currentName: string, rtype: nat, seenCnames: set<string>, ghost start: string,
      ghost links: seq<RR>)
      returns (d: Decision)
      requires Valid() && ShapedMessage(m) && received != [] && m == received[|received| - 1]
      requires AllAliases(links) && currentName == LinkEnd(start, links) && seenCnames == Targets(links)
      modifies this`ticks, cache
      ensures Valid() && d == Decide(m, start, links, rtype)
      ensures cache.entries ==
              match d
              case Answer(wanted) => WithRRs(old(cache.entries), currentName, rtype, wanted, clock(old(ticks)))
              case Alias(rr) => WithRRs(old(cache.entries), currentName, TYPE_CNAME, [rr], clock(old(ticks)))
              case _ => old(cache.entries)
    {
      hide CacheKey, SameName, Consistent, HeardCache, Heard, WithRRs, Logged;
      var wanted := Filter(OwnedBy(currentName, rtype), m.answers);
      var cname := Find(OwnedBy(currentName, TYPE_CNAME), m.answers);
      if |wanted| > 0 {
        LastHeard(received, wanted);
        CacheRRs(currentName, rtype, wanted);
        return Answer(wanted);
      }
      if cname.Some? {
        var rr := cname.value;
        if rr.rdata.target in seenCnames {
          return Loop;
        }
        LastHeard(received, [rr]);
        CacheRRs(currentName, TYPE_CNAME, [rr]);
        return Alias(rr);
      }
      if m.header.rcode == NXDOMAIN || (|m.authorities| == 0 && m.header.rcode != NOERROR) {
        return Deny;
      }
      var nsRecords := Filter(Typed(TYPE_NS), m.authorities);
      if |nsRecords| == 0 {
        return Deny;
      }
      return Refer;
    }

    /** The servers of a hop are asked in turn, and the reply, if any, is taken. */
    method Ask(
      servers: seq<string>, currentName: string, rtype: nat, seenCnames: set<string>, ghost start: string,
      ghost hops: seq<Message>, ghost links: seq<RR>, ghost heardFrom: nat, ghost askedFrom: nat)
      returns (reply: Option<Message>, d: Decision)
      requires Valid() && AllShapedMessages(hops) && Followed(hops, start, rtype) == Some(links)
      requires currentName == LinkEnd(start, links) && seenCnames == Targets(links)
      requires AllKnown(roots, received, servers)
      requires AllReceived(received, heardFrom, hops) && heardFrom <= |received|
      requires askedFrom <= |asked| && AllPurposed(roots, received, start, rtype, askedFrom, asked)
      modifies this, cache
      ensures Valid() && Recorded(old(received), received, reply)
      ensures AskedInTurn(old(asked), asked, servers, currentName, rtype, reply) && old(asked) <= asked
      ensures AllPurposed(roots, received, start, rtype, askedFrom, asked)
      ensures reply.None? ==> AllReceived(received, heardFrom, hops)
      ensures reply.Some? ==>
                && AllReceived(received, heardFrom, hops + [reply.value]) && Received(received, 0, reply.value)
                && d == Decide(reply.value, start, links, rtype)
    {
      hide Consistent, HeardCache, Heard, Decide, Followed, Received, Purpose, AskedInTurn, KnownServer, Logged;
      reply := QueryServers(servers, currentName, rtype);
      HeardLater(old(received), received, cache.entries);
      HopAsked(roots, old(received), received, start, rtype, hops, heardFrom, askedFrom, old(asked), asked, servers,
        reply);
      d := Deny;
      if reply.Some? {
        ReceivedMore(old(received), received, heardFrom, hops);
        ReceivedLast(received, heardFrom, hops);
        d := Take(reply.value, currentName, rtype, seenCnames, start, links);
      }
    }

    /** One hop, and the servers for the next: those a referral names, or else the roots. */
    method Hop(
      servers: seq<string>, currentName: string, rtype: nat, seenCnames: set<string>, glueDepth: nat,
      ghost start: string, ghost hops: seq<Message>, ghost links: seq<RR>, ghost searches: seq<seq<Search>>,
      ghost heardFrom: nat, ghost askedFrom: nat)
      returns (reply: Option<Message>, d: Decision, next: seq<string>, ghost found: seq<Search>)
      requires Valid() && glueDepth <= maxGlueDepth
      requires AllShapedMessages(hops) && |searches| == |hops| && Followed(hops, start, rtype) == Some(links)
      requires currentName == LinkEnd(start, links) && seenCnames == Targets(links)
      requires servers == ServersFor(roots, hops, searches, start, rtype) && AllKnown(roots, received, servers)
      requires AllReceived(received, heardFrom, hops) && heardFrom <= |received|
      requires askedFrom <= |asked| && AllPurposed(roots, received, start, rtype, askedFrom, asked)
      requires Trail(roots, maxGlueDepth - glueDepth, maxHops, asked, askedFrom, hops, searches, start, rtype)
      modifies this, cache
      ensures Valid() && old(received) <= received && old(asked) <= asked
      ensures AllPurposed(roots, received, start, rtype, askedFrom, asked)
      ensures reply.None? ==>
                && AllSilent(asked, askedFrom, servers, currentName, rtype) && AllReceived(received, heardFrom, hops)
                && Trail(roots, maxGlueDepth - glueDepth, maxHops, asked, askedFrom, hops, searches, start, rtype)
      ensures reply.Some? ==>
                var m := reply.value;
                && ShapedMessage(m) && d == Decide(m, start, links, rtype) && |received| > |old(received)|
                && AllReceived(received, heardFrom, hops + [m]) && AllKnown(roots, received, next)
                && Trail(
                     roots, maxGlueDepth - glueDepth, maxHops, asked, askedFrom, hops + [m], searches + [found], start,
                     rtype)
                && next == ServersFor(roots, hops + [m], searches + [found], start, rtype)
                && next == if d == Refer then Usable(found) else roots
      decreases maxGlueDepth - glueDepth, 2
    {
      hide Consistent, HeardCache, Heard, Decide, Followed, Received, Purpose, AskedInTurn, KnownServer, Logged, Trail;
      hide Searched, Usable, AllPurposed, AllReceived, AllKnown, TurnTaken, ServersFor, AskedNext, AllSilent, Targets;
      hide GlueAddress, HeardAddress, ForServer, Repeats;
      ghost var left := maxGlueDepth - glueDepth;
      NextName(hops, start, rtype);
      reply, d := Ask(servers, currentName, rtype, seenCnames, start, hops, links, heardFrom, askedFrom);
      TurnNow(old(asked), asked, askedFrom, servers, currentName, rtype, reply);
      TrailLater(roots, left, maxHops, old(asked), asked, askedFrom, hops, searches, start, rtype);
      next, found := roots, [];
      RootsKnown(roots, received);
      if reply.None? {
        return;
      }
      var m := reply.value;
      HopAdded(hops, m, start, rtype);
      if d == Refer {
        ghost var before, askedBefore := received, asked;
        next, found := NextServers(m, glueDepth);
        Referred(roots, before, received, start, rtype, hops + [m], heardFrom, askedFrom, askedBefore, asked, m, next);
        TurnLater(askedBefore, asked, askedFrom, servers, currentName, rtype, reply);
        TrailLater(roots, left, maxHops, askedBefore, asked, askedFrom, hops, searches, start, rtype);
      }
      TrailMore(roots, left, maxHops, asked, askedFrom, hops, searches, start, rtype, m, found);
    }

    /**
     * `resolve`, which ends whatever the servers answer: glue nests no deeper than `maxGlueDepth`,
     * and each level makes at most `maxHops` hops.  `hops` are the replies of this level, `searches`
     * say how the servers of their referrals were looked for.
     */
    method Resolve(name: string, rtype: nat, glueDepth: nat)
      returns (r: Resolution, ghost hops: seq<Message>, ghost searches: seq<seq<Search>>)
      requires Valid() && glueDepth <= maxGlueDepth
      modifies this, cache
      ensures Valid() && old(received) <= received && old(asked) <= asked
      ensures AllShaped(Answers(r)) && AllShapedMessages(hops)
      ensures Verdict(hops, Dotted(name), rtype, maxHops, r)
      ensures AllReceived(received, |old(received)|, hops) && |received| >= |old(received)| + |hops|
      ensures AllPurposed(roots, received, Dotted(name), rtype, |old(asked)|, asked)
      ensures Trail(
                roots, maxGlueDepth - glueDepth, maxHops, asked, |old(asked)|, hops, searches, Dotted(name), rtype)
      ensures r == Failed(NoReply) ==>
                AllSilent(
                  asked, |old(asked)|, ServersFor(roots, hops, searches, Dotted(name), rtype),
                  AskedNext(hops, Dotted(name), rtype), rtype)
      ensures r == Failed(NoServers) ==> hops != [] && Usable(searches[|searches| - 1]) == []
      ensures
        var hit := Lookup(old(cache.entries), CacheKey(Dotted(name), rtype), clock(old(ticks)));
        if hit.Some? then r == Cached(hit.value) && received == old(received) && asked == old(asked) else !r.Cached?
      ensures r.Cached? ==>
                && r.cachedAnswers != [] && Owned(Dotted(name), rtype, r.cachedAnswers)
                && AllHeard(received, r.cachedAnswers)
      decreases maxGlueDepth - glueDepth, 3
    {
      hide CacheKey, Consistent, HeardCache, Heard, Decide, Followed, Received, Purpose, Verdict, Logged, Trail, Lookup;
      hide KnownServer, ForServer, HeardAddress, GlueAddress, Repeats, AskedNext, ServersFor, TurnTaken, AllSilent;
      hide Searched, AskedInTurn, Usable, AllPurposed, AllReceived, AllKnown;
      hops, searches := [], [];
      var start := Dotted(name);
      ghost var left := maxGlueDepth - glueDepth;
      NothingFollowed(start, rtype);
      TrailStart(roots, left, maxHops, asked, |asked|, start, rtype);
      NothingAsked(roots, received, start, rtype, asked);
      var direct := CacheGet(CacheKey(start, rtype));
      if direct.Some? {
        CachedOwned(start, rtype, direct.value);
        CachedVerdict(start, rtype, maxHops, direct.value);
        return Cached(direct.value), hops, searches;
      }
      RootsKnown(roots, received);
      var servers := roots;
      var currentName := start;
      var seenCnames: set<string> := {};
      var cnameChain: seq<RR> := [];
      for hop := 0 to maxHops
        invariant Valid() && old(received) <= received && old(asked) <= asked
        invariant AllShapedMessages(hops) && |hops| == hop && Followed(hops, start, rtype) == Some(cnameChain)
        invariant AllReceived(received, |old(received)|, hops) && |received| >= |old(received)| + hop
        invariant currentName == LinkEnd(start, cnameChain) && seenCnames == Targets(cnameChain)
        invariant AllKnown(roots, received, servers)
        invariant AllPurposed(roots, received, start, rtype, |old(asked)|, asked)
        invariant |searches| == hop && Trail(roots, left, maxHops, asked, |old(asked)|, hops, searches, start, rtype)
        invariant servers == ServersFor(roots, hops, searches, start, rtype)
      {
        HopsVerdict(hops, start, rtype, maxHops);
        NextName(hops, start, rtype);
        var reply, d, next, found :=
          Hop(servers, currentName, rtype, seenCnames, glueDepth, start, hops, cnameChain, searches,
            |old(received)|, |old(asked)|);
        if reply.None? {
          return Failed(NoReply), hops, searches;
        }
        var m := reply.value;
        HopAdded(hops, m, start, rtype);
        LastVerdict(hops, m, start, rtype, maxHops);
        LastAdded(hops, searches, m, found);
        hops, searches := hops + [m], searches + [found];
        servers := next;
        match d {
          case Answer(wanted) =>
            WantedShaped(m, start, cnameChain, rtype);
            return Answered(m.header, cnameChain + wanted), hops, searches;
          case Loop => return Failed(AliasLoop), hops, searches;
          case Deny => return Answered(m.header, cnameChain), hops, searches;
          case Alias(rr) =>
            TargetsGrow(cnameChain, rr);
            seenCnames := seenCnames + {rr.rdata.target};
            cnameChain := cnameChain + [rr];
            currentName := rr.rdata.target;
          case Refer =>
            if |servers| == 0 {
              return Failed(NoServers), hops, searches;
            }
        }
      }
      HopsVerdict(hops, start, rtype, maxHops);
      return Failed(TooManyHops), hops, searches;
    }
  }

  // Steps of the methods above

  lemma NoGlue()
    ensures GlueTable(map[], [])
  {
  }

  lemma NothingSearched(m: Message, left: nat, maxHops: nat)
    ensures Searched(m, left, maxHops, []) && Usable([]) == []
  {
  }

  lemma NothingAsked(roots: seq<string>, received: seq<Message>, start: string, rtype: int, asked: seq<Query>)
    ensures AllPurposed(roots, received, start, rtype, |asked|, asked) && AllReceived(received, |received|, [])
  {
  }

  lemma LastAdded(hops: seq<Message>, searches: seq<seq<Search>>, m: Message, found: seq<Search>)
    ensures (searches + [found])[|searches|] == found && (hops + [m])[|hops|] == m
  {
  }

  lemma NextName(hops: seq<Message>, start: string, rtype: int)
    requires AllShapedMessages(hops) && Followed(hops, start, rtype).Some?
    ensures AskedNext(hops, start, rtype) == LinkEnd(start, Followed(hops, start, rtype).value)
  {
  }

  lemma GlueLookup(m: Message, glue: map<string, string>, key: string)
    requires GlueTable(glue, m.additionals)
    ensures GlueFor(m.additionals, key) == if key in glue then Some(glue[key]) else None
    ensures key in glue ==> GlueAddress(m, glue[key])
  {
    assert m.additionals[..|m.additionals|] == m.additionals;
    if key in glue {
      GlueIsThere(m, |m.additionals|, key);
    }
  }

  lemma GlueSearch(m: Message, target: string, left: nat, maxHops: nat, searches: seq<Search>)
    requires Searched(m, left, maxHops, searches) && |searches| < |NameServers(m)|
    requires NameServers(m)[|searches|].rdata == Target(target)
    requires
      var glue := GlueFor(m.additionals, LowerName(target));
      glue.Some? && glue.value != ""
    ensures
      var s := InGlue(GlueFor(m.additionals, LowerName(target)).value);
      Searched(m, left, maxHops, searches + [s]) && Usable(searches + [s]) == Usable(searches) + [s.ip]
  {
    var s := InGlue(GlueFor(m.additionals, LowerName(target)).value);
    SearchedMore(m, left, maxHops, searches, s);
    UsableMore(searches, s);
  }

  lemma GlueMissing(m: Message, target: string, left: nat, maxHops: nat, searches: seq<Search>, s: Search)
    requires Searched(m, left, maxHops, searches) && |searches| < |NameServers(m)|
    requires NameServers(m)[|searches|].rdata == Target(target)
    requires
      var glue := GlueFor(m.additionals, LowerName(target));
      glue.None? || glue.value == ""
    requires
      match s
      case InGlue(_) => false
      case InCache(_) => true
      case TooDeep => left == 0
      case Looked(r, hops) => left > 0 && AllShapedMessages(hops) && Verdict(hops, Dotted(target), TYPE_A, maxHops, r)
    ensures Searched(m, left, maxHops, searches + [s])
    ensures Usable(searches + [s]) ==
      Usable(searches) + (if Found(s).Some? && Found(s).value != "" then [Found(s).value] else [])
  {
    hide Verdict;
    SearchedMore(m, left, maxHops, searches, s);
    UsableMore(searches, s);
  }

  lemma NothingFollowed(start: string, rtype: int)
    ensures Followed([], start, rtype) == Some([])
  {
  }

  lemma CachedVerdict(start: string, rtype: int, maxHops: nat, rrs: seq<RR>)
    ensures Verdict([], start, rtype, maxHops, Cached(rrs))
  {
  }

  /** The verdicts without a last reply. */
  lemma HopsVerdict(hops: seq<Message>, start: string, rtype: int, maxHops: nat)
    requires AllShapedMessages(hops) && Followed(hops, start, rtype).Some?
    ensures |hops| < maxHops ==> Verdict(hops, start, rtype, maxHops, Failed(NoReply))
    ensures |hops| == maxHops ==> Verdict(hops, start, rtype, maxHops, Failed(TooManyHops))
    ensures AskedNext(hops, start, rtype) == LinkEnd(start, Followed(hops, start, rtype).value)
  {
  }

  /** The verdicts on a last reply. */
  lemma LastVerdict(hops: seq<Message>, m: Message, start: string, rtype: int, maxHops: nat)
    requires AllShapedMessages(hops) && ShapedMessage(m) && Followed(hops, start, rtype).Some?
    ensures
      var links := Followed(hops, start, rtype).value;
      && AllShapedMessages(hops + [m])
      && match Decide(m, start, links, rtype)
         case Answer(wanted) => Verdict(hops + [m], start, rtype, maxHops, Answered(m.header, links + wanted))
         case Deny => Verdict(hops + [m], start, rtype, maxHops, Answered(m.header, links))
         case Loop => Verdict(hops + [m], start, rtype, maxHops, Failed(AliasLoop))
         case Refer => Verdict(hops + [m], start, rtype, maxHops, Failed(NoServers))
         case Alias(_) => true
  {
    hide Decide, Followed;
    HopAdded(hops, m, start, rtype);
  }

  lemma RootsKnown(roots: seq<string>, received: seq<Message>)
    ensures AllKnown(roots, received, roots)
  {
  }

  lemma WantedShaped(m: Message, start: string, links: seq<RR>, rtype: int)
    requires ShapedMessage(m) && AllAliases(links) && Decide(m, start, links, rtype).Answer?
    ensures AllShaped(Decide(m, start, links, rtype).wanted)
  {
  }

  /** `seenCnames` after the aliases `links`. */
  function Targets(links: seq<RR>): (seen: set<string>)
    requires AllAliases(links)
    ensures forall target :: target in seen <==> Repeats(links, target)
  {
    set k | 0 <= k < |links| :: links[k].rdata.target
  }

  lemma TargetsGrow(links: seq<RR>, rr: RR)
    requires AllAliases(links) && rr.rtype == TYPE_CNAME && rr.rdata.Target?
    ensures AllAliases(links + [rr]) && Targets(links + [rr]) == Targets(links) + {rr.rdata.target}
  {
    var more := links + [rr];
    assert more[|links|] == rr && forall k :: 0 <= k < |links| ==> more[k] == links[k];
  }

  lemma CachedOwned(name: string, rtype: nat, rrs: seq<RR>)
    requires KeptUnder(rrs, CacheKey(name, rtype))
    ensures AllShaped(rrs) && Owned(name, rtype, rrs)
  {
    forall k | 0 <= k < |rrs|
      ensures SameName(rrs[k].name, name) && rrs[k].rtype == rtype
    {
      KeyInjective(name, rtype, rrs[k].name, rrs[k].rtype);
    }
  }
}
