/**
 * The record cache of examples/dns-server/cache.js, and `cacheKey` and `cacheRRs` of
 * examples/dns-server/resolver.js.  The clock is a parameter of every operation, in milliseconds.
 */
module DnsCache {
  import opened DnsRecord
  import opened Numerals
  import opened Wrappers

  /** `toLowerCase` on the characters below 256 that names on the wire are made of. */
  function LowerChar(c: char): char {
    if 'A' <= c <= 'Z' || (0xC0 <= c as int <= 0xDE && c as int != 0xD7) then (c as int + 32) as char else c
  }

  function LowerName(s: string): (t: string)
    ensures |t| == |s|
  {
    seq(|s|, k requires 0 <= k < |s| => LowerChar(s[k]))
  }

  predicate SameName(a: string, b: string) {
    LowerName(a) == LowerName(b)
  }

  /** `cacheKey`, for record types that are not negative. */
  function CacheKey(name: string, rtype: nat): string {
    Decimal(rtype) + [':'] + LowerName(name)
  }

  lemma {:induction false} BeforeColon(a: string, x: string, b: string, y: string)
    requires a + [':'] + x == b + [':'] + y && ':' !in a && ':' !in b
    ensures a == b && x == y
  {
    var s, t := a + [':'] + x, b + [':'] + y;
    assert s[|a|] == ':' && t[|b|] == ':';
    assert s[..|a|] == a && t[..|b|] == b;
    assert s[|a| + 1..] == x && t[|b| + 1..] == y;
  }

  /** Two keys are the same exactly when name, up to case, and type are. */
  lemma KeyInjective(name: string, rtype: nat, other: string, otherType: nat)
    ensures CacheKey(name, rtype) == CacheKey(other, otherType) <==> SameName(name, other) && rtype == otherType
  {
    if CacheKey(name, rtype) == CacheKey(other, otherType) {
      hide LowerName;
      BeforeColon(Decimal(rtype), LowerName(name), Decimal(otherType), LowerName(other));
      DecimalValueOfDecimal(rtype);
      DecimalValueOfDecimal(otherType);
    }
  }

  datatype Entry = Entry(rrs: seq<RR>, expiresAt: int)

  type Entries = map<string, Entry>

  function Remaining(e: Entry, now: int): int {
    (e.expiresAt - now) / 1000
  }

  function WithTtl(rrs: seq<RR>, ttl: int): (r: seq<RR>)
    ensures |r| == |rrs|
  {
    seq(|rrs|, k requires 0 <= k < |rrs| => rrs[k].(ttl := ttl))
  }

  /** What `get` answers, and what it leaves in the map. */
  function Lookup(m: Entries, key: string, now: int): Option<seq<RR>> {
    if key in m && Remaining(m[key], now) > 0 then Some(WithTtl(m[key].rrs, Remaining(m[key], now))) else None
  }

  function AfterGet(m: Entries, key: string, now: int): Entries {
    if key in m && Remaining(m[key], now) <= 0 then m - {key} else m
  }

  function AfterSet(m: Entries, key: string, rrs: seq<RR>, ttl: int, now: int): Entries {
    if rrs == [] || ttl <= 0 then m else m[key := Entry(rrs, now + ttl * 1000)]
  }

  class Cache {
    var entries: Entries

    constructor ()
      ensures entries == map[]
    {
      entries := map[];
    }

    method Get(key: string, now: int) returns (r: Option<seq<RR>>)
      modifies this
      ensures r == Lookup(old(entries), key, now)
      ensures entries == AfterGet(old(entries), key, now)
    {
      if key !in entries {
        return None;
      }
      var entry := entries[key];
      var remaining := (entry.expiresAt - now) / 1000;
      if remaining <= 0 {
        entries := entries - {key};
        return None;
      }
      return Some(WithTtl(entry.rrs, remaining));
    }

    method Set(key: string, rrs: seq<RR>, ttlSeconds: int, now: int)
      modifies this
      ensures entries == AfterSet(old(entries), key, rrs, ttlSeconds, now)
    {
      if |rrs| == 0 || ttlSeconds <= 0 {
        return;
      }
      entries := entries[key := Entry(rrs, now + ttlSeconds * 1000)];
    }
  }

  /** Stored records are served until their time is up, with what is left of it. */
  lemma ServedWhileFresh(m: Entries, key: string, rrs: seq<RR>, ttl: int, then_: int, now: int)
    requires rrs != [] && now >= then_
    ensures
      var r := Lookup(AfterSet(m - {key}, key, rrs, ttl, then_), key, now);
      && (r.Some? <==> now <= then_ + (ttl - 1) * 1000)
      && (r.Some? ==>
            && |r.value| == |rrs|
            && forall k :: 0 <= k < |rrs| ==>
                 && r.value[k] == rrs[k].(ttl := r.value[k].ttl)
                 && 0 < r.value[k].ttl <= ttl
                 && then_ + (ttl - r.value[k].ttl) * 1000 - 1000 < now <= then_ + (ttl - r.value[k].ttl) * 1000 )
  {
  }

  // `cacheRRs`

  function MinTtl(rrs: seq<RR>): (t: int)
    requires rrs != []
    ensures forall k :: 0 <= k < |rrs| ==> t <= rrs[k].ttl
    ensures exists k :: 0 <= k < |rrs| && t == rrs[k].ttl
  {
    if |rrs| == 1 then rrs[0].ttl
    else
      var rest := MinTtl(rrs[1..]);
      if rrs[0].ttl <= rest then rrs[0].ttl
      else
        assert forall k :: 1 <= k < |rrs| ==> rrs[k] == rrs[1..][k - 1];
        var k :| 0 <= k < |rrs[1..]| && rest == rrs[1..][k].ttl;
        assert rrs[k + 1].ttl == rest;
        rest
  }

  /** What `cacheRRs` leaves in the map: the records under name and type, for their smallest time to live. */
  function WithRRs(m: Entries, name: string, rtype: nat, rrs: seq<RR>, now: int): Entries {
    if rrs == [] then m else AfterSet(m, CacheKey(name, rtype), rrs, MinTtl(rrs), now)
  }

  /** Data of the decoded shape for its type. */
  predicate Shaped(rr: RR) {
    && rr.rtype >= 0
    && (rr.rtype == TYPE_A ==> rr.rdata.Address?)
    && (rr.rtype == TYPE_CNAME || rr.rtype == TYPE_NS ==> rr.rdata.Target?)
  }

  /** Every record is stored under its own name and type. */
  ghost predicate Consistent(m: Entries) {
    forall key :: key in m ==> m[key].rrs != [] && KeptUnder(m[key].rrs, key)
  }

  ghost predicate KeptUnder(rrs: seq<RR>, key: string) {
    forall k :: 0 <= k < |rrs| ==> Shaped(rrs[k]) && key == CacheKey(rrs[k].name, rrs[k].rtype)
  }

  lemma ConsistentGet(m: Entries, key: string, now: int)
    requires Consistent(m)
    ensures Consistent(AfterGet(m, key, now))
    ensures Lookup(m, key, now).Some? ==>
              Lookup(m, key, now).value != [] && KeptUnder(Lookup(m, key, now).value, key)
  {
    hide CacheKey;
  }

  lemma ConsistentSet(m: Entries, key: string, rrs: seq<RR>, ttl: int, now: int)
    requires Consistent(m) && KeptUnder(rrs, key)
    ensures Consistent(AfterSet(m, key, rrs, ttl, now))
  {
    hide CacheKey;
  }
}
