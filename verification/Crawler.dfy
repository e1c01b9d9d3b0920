/**
 * The breadth-first crawler of examples/crawler/lib/crawler.js, between `start` and the end of the
 * crawl, without calls of `add`, `stop` or `pause`.
 *
 * What a fetch returns and which links are followed are parameters: pages, retries, delays, events
 * and the stream of results are not part of this model.
 */
module Crawler {
  import opened Seqs
  import opened Wrappers

  datatype Page = Page(url: string, links: seq<string>)

  /** The web: the page of a URL, if fetching yields one, and the links to follow from it. */
  datatype Site = Site(page: string -> Option<Page>, follow: Page -> seq<string>)

  function Links(s: Site, url: string): seq<string> {
    match s.page(url)
    case None => []
    case Some(page) => s.follow(page)
  }

  // Reachability

  function Successors(s: Site, urls: set<string>): set<string> {
    set u, k | u in urls && 0 <= k < |Links(s, u)| :: Links(s, u)[k]
  }

  lemma SuccessorOf(s: Site, urls: set<string>, v: string) returns (u: string)
    requires v in Successors(s, urls)
    ensures u in urls && v in Links(s, u)
  {
    var k: int;
    u, k :| u in urls && 0 <= k < |Links(s, u)| && Links(s, u)[k] == v;
  }

  lemma IsSuccessor(s: Site, urls: set<string>, u: string, v: string)
    requires u in urls && v in Links(s, u)
    ensures v in Successors(s, urls)
  {
    var k :| 0 <= k < |Links(s, u)| && Links(s, u)[k] == v;
  }

  /** The URLs that at most `d` followed links lead to. */
  function Level(s: Site, seeds: set<string>, d: nat): set<string> {
    if d == 0 then seeds
    else
      var before := Level(s, seeds, d - 1);
      before + Successors(s, before)
  }

  /** Every URL of the path is linked from the one before. */
  predicate IsPath(s: Site, path: seq<string>) {
    path != [] && forall k :: 0 < k < |path| ==> path[k] in Links(s, path[k - 1])
  }

  lemma {:induction false} PathInLevel(s: Site, seeds: set<string>, path: seq<string>, d: nat)
    requires IsPath(s, path) && path[0] in seeds && |path| - 1 <= d
    ensures path[|path| - 1] in Level(s, seeds, d)
  {
    if |path| - 1 < d {
      PathInLevel(s, seeds, path, d - 1);
    } else if d > 0 {
      var front := path[..|path| - 1];
      PathInLevel(s, seeds, front, d - 1);
      var u, v := front[|front| - 1], path[|path| - 1];
      IsSuccessor(s, Level(s, seeds, d - 1), u, v);
    }
  }

  lemma {:induction false} LevelHasPath(s: Site, seeds: set<string>, url: string, d: nat) returns (path: seq<string>)
    requires url in Level(s, seeds, d)
    ensures IsPath(s, path) && path[0] in seeds && path[|path| - 1] == url && |path| - 1 <= d
    decreases d
  {
    if d == 0 {
      path := [url];
    } else if url in Level(s, seeds, d - 1) {
      path := LevelHasPath(s, seeds, url, d - 1);
    } else {
      var u := SuccessorOf(s, Level(s, seeds, d - 1), url);
      var front := LevelHasPath(s, seeds, u, d - 1);
      path := front + [url];
      assert path[|path| - 2] == u;
    }
  }

  /** A level is exactly what short enough paths from the seeds lead to. */
  lemma LevelIffPath(s: Site, seeds: set<string>, url: string, d: nat)
    ensures url in Level(s, seeds, d) <==>
              exists path: seq<string> ::
                IsPath(s, path) && path[0] in seeds && path[|path| - 1] == url && |path| - 1 <= d
  {
    if url in Level(s, seeds, d) {
      var path := LevelHasPath(s, seeds, url, d);
    }
    forall path: seq<string> |
      IsPath(s, path) && path[0] in seeds && path[|path| - 1] == url && |path| - 1 <= d
      ensures url in Level(s, seeds, d)
    {
      PathInLevel(s, seeds, path, d);
    }
  }

  lemma {:induction false} LevelGrows(s: Site, seeds: set<string>, d: nat, e: nat)
    requires d <= e
    ensures Level(s, seeds, d) <= Level(s, seeds, e)
  {
    hide Successors;
    if d < e {
      LevelGrows(s, seeds, d, e - 1);
    }
  }

  // The queue

  datatype Item = Item(url: string, depth: nat)

  function Urls(items: seq<Item>): set<string> {
    set k | 0 <= k < |items| :: items[k].url
  }

  predicate Distinct(items: seq<Item>) {
    forall j, k :: 0 <= j < k < |items| ==> items[j].url != items[k].url
  }

  predicate Ordered(items: seq<Item>) {
    forall j, k :: 0 <= j < k < |items| ==> items[j].depth <= items[k].depth
  }

  /** The depth of an item is the length of a shortest path to it. */
  predicate Shortest(s: Site, seeds: set<string>, item: Item) {
    && item.url in Level(s, seeds, item.depth)
    && (item.depth > 0 ==> item.url !in Level(s, seeds, item.depth - 1))
  }

  /** All links of an item are known. */
  predicate Closed(s: Site, visited: set<string>, item: Item) {
    forall v :: v in Links(s, item.url) ==> v in visited
  }

  /** `all` is everything fetched so far, followed by the queue. */
  predicate Core(s: Site, seeds: set<string>, maxDepth: nat, all: seq<Item>, visited: set<string>) {
    && Distinct(all) && Ordered(all) && visited == Urls(all) && seeds <= visited
    && (forall k :: 0 <= k < |all| ==> Shortest(s, seeds, all[k]) && all[k].depth <= maxDepth)
  }

  /** Once the links of every item before level `d` are known, the whole level is. */
  lemma {:induction false} Covers(
    s: Site, seeds: set<string>, maxDepth: nat, all: seq<Item>, visited: set<string>, d: nat)
    requires Core(s, seeds, maxDepth, all, visited)
    requires forall k :: 0 <= k < |all| && all[k].depth < d ==> Closed(s, visited, all[k])
    ensures Level(s, seeds, d) <= visited
    decreases d
  {
    hide Successors, Closed;
    if d > 0 {
      Covers(s, seeds, maxDepth, all, visited, d - 1);
      SuccessorsCovered(s, seeds, maxDepth, all, visited, d);
    }
  }

  lemma SuccessorsCovered(
    s: Site, seeds: set<string>, maxDepth: nat, all: seq<Item>, visited: set<string>, d: nat)
    requires d > 0 && Core(s, seeds, maxDepth, all, visited) && Level(s, seeds, d - 1) <= visited
    requires forall k :: 0 <= k < |all| && all[k].depth < d ==> Closed(s, visited, all[k])
    ensures Successors(s, Level(s, seeds, d - 1)) <= visited
  {
    hide Level, Successors, Links;
    var before := Level(s, seeds, d - 1);
    forall v | v in Successors(s, before)
      ensures v in visited
    {
      var u := SuccessorOf(s, before, v);
      var k :| 0 <= k < |all| && all[k].url == u;
      assert Shortest(s, seeds, all[k]);
      if all[k].depth >= d {
        LevelGrows(s, seeds, d - 1, all[k].depth - 1);
      }
      assert Closed(s, visited, all[k]);
    }
  }

  /** A link not seen before belongs to the next level. */
  lemma NewLink(
    s: Site, seeds: set<string>, maxDepth: nat, all: seq<Item>, visited: set<string>, item: Item, v: string)
    requires Core(s, seeds, maxDepth, all, visited) && item in all && item.depth < maxDepth
    requires v in Links(s, item.url) && v !in visited
    requires forall k :: 0 <= k < |all| && all[k].depth < item.depth ==> Closed(s, visited, all[k])
    requires forall k :: 0 <= k < |all| ==> all[k].depth <= item.depth + 1
    ensures Core(s, seeds, maxDepth, all + [Item(v, item.depth + 1)], visited + {v})
  {
    hide Links, Successors;
    var next := Item(v, item.depth + 1);
    assert Shortest(s, seeds, next) by {
      Covers(s, seeds, maxDepth, all, visited, item.depth);
      assert Shortest(s, seeds, item);
      IsSuccessor(s, Level(s, seeds, item.depth), item.url, v);
    }
    CoreGrows(s, seeds, maxDepth, all, visited, next);
  }

  lemma CoreGrows(s: Site, seeds: set<string>, maxDepth: nat, all: seq<Item>, visited: set<string>, next: Item)
    requires Core(s, seeds, maxDepth, all, visited) && Shortest(s, seeds, next) && next.depth <= maxDepth
    requires next.url !in visited && forall k :: 0 <= k < |all| ==> all[k].depth <= next.depth
    ensures Core(s, seeds, maxDepth, all + [next], visited + {next.url})
  {
    hide Shortest;
    UrlsGrow(all, next);
    DistinctGrows(all, next);
  }

  lemma UrlsGrow(all: seq<Item>, next: Item)
    ensures Urls(all + [next]) == Urls(all) + {next.url}
  {
    var more := all + [next];
    forall u | u in Urls(all)
      ensures u in Urls(more)
    {
      var k :| 0 <= k < |all| && all[k].url == u;
      assert more[k].url == u;
    }
    assert more[|all|] == next;
  }

  // The crawl

  /** `url.split('#')[0]` */
  function BeforeHash(url: string): string {
    Split(url, '#')[0]
  }

  /** The seeds that are URLs, without their fragments. */
  function SeedSet(isUrl: string -> bool, urls: seq<string>): set<string> {
    set k | 0 <= k < |urls| && isUrl(BeforeHash(urls[k])) :: BeforeHash(urls[k])
  }

  class Crawler {
    const site: Site
    const isUrl: string -> bool
    const maxDepth: nat
    var queue: seq<Item>
    var visited: set<string>
    var pending: nat
    var stopped: bool
    var paused: bool
    /** What was fetched, in order. */
    ghost var fetched: seq<Item>
    ghost var seeds: set<string>

    constructor (site: Site, isUrl: string -> bool, maxDepth: nat)
      ensures this.site == site && this.isUrl == isUrl && this.maxDepth == maxDepth
      ensures queue == [] && visited == {} && pending == 0 && fetched == [] && !stopped && !paused
    {
      this.site, this.isUrl, this.maxDepth := site, isUrl, maxDepth;
      queue, visited, pending, fetched, seeds := [], {}, 0, [], {};
      stopped, paused := false, false;
    }

    /** `start` of a new crawler. */
    method Start(urls: seq<string>)
      requires queue == [] && visited == {} && pending == 0 && fetched == []
      modifies this
      ensures !stopped && !paused && pending == 0 && fetched == []
      ensures seeds == visited == SeedSet(isUrl, urls) == Urls(queue) && Distinct(queue)
      ensures forall k :: 0 <= k < |queue| ==> queue[k].depth == 0
    {
      for i := 0 to |urls|
        invariant pending == 0 && fetched == []
        invariant visited == SeedSet(isUrl, urls[..i]) == Urls(queue) && Distinct(queue)
        invariant forall k :: 0 <= k < |queue| ==> queue[k].depth == 0
      {
        var clean := BeforeHash(urls[i]);
        SeedSetGrows(isUrl, urls[..i], urls[i]);
        assert urls[..i + 1] == urls[..i] + [urls[i]];
        if clean in visited || !isUrl(clean) {
          continue;
        }
        UrlsGrow(queue, Item(clean, 0));
        DistinctGrows(queue, Item(clean, 0));
        visited := visited + {clean};
        queue := queue + [Item(clean, 0)];
      }
      assert urls[..|urls|] == urls;
      stopped := false;
      paused := false;
      seeds := visited;
    }

    ghost predicate Valid()
      reads this
    {
      Between(site, seeds, maxDepth, fetched, queue, visited)
    }

    /** The loop over the links of the page that was fetched last. */
    method Discover(item: Item, links: seq<string>)
      requires During(site, seeds, maxDepth, fetched, queue, visited) && links == Links(site, item.url)
      requires item == fetched[|fetched| - 1] && item.depth < maxDepth
      modifies this`queue, this`visited
      ensures Valid()
    {
      hide During, Between, Links;
      for i := 0 to |links|
        invariant During(site, seeds, maxDepth, fetched, queue, visited)
        invariant forall k :: 0 <= k < i ==> links[k] in visited
      {
        var link := links[i];
        if link !in visited {
          AddLink(site, seeds, maxDepth, fetched, queue, visited, link);
          visited := visited + {link};
          queue := queue + [Item(link, item.depth + 1)];
        }
      }
      Finish(site, seeds, maxDepth, fetched, queue, visited);
    }

    /**
     * The crawl loop.  It ends because the URLs within `maxDepth` links of the seeds are finitely
     * many and none is fetched twice.
     */
    method Run()
      requires Valid() && fetched == [] && !stopped && !paused && pending == 0
      modifies this
      ensures seeds == old(seeds)
      ensures Distinct(fetched) && Ordered(fetched) && queue == []
      ensures Urls(fetched) == Level(site, seeds, maxDepth)
      ensures forall k :: 0 <= k < |fetched| ==> Shortest(site, seeds, fetched[k])
    {
      hide During, Between, Level, Distinct, Ordered, Urls, Shortest;
      while !stopped
        invariant Valid() && !stopped && !paused && pending == 0 && seeds == old(seeds)
        decreases |Level(site, seeds, maxDepth) - Urls(fetched)|
      {
        if paused || |queue| == 0 {
          // Nobody pauses and nothing is in flight, so there is no idle wait.
          assert |queue| == 0 && pending == 0;
          break;
        }
        FetchProgress(site, seeds, maxDepth, fetched, queue, visited);
        Fetch(site, seeds, maxDepth, fetched, queue, visited);
        var item := queue[0];
        queue := queue[1..];
        fetched := fetched + [item];
        pending := pending + 1;
        var page := site.page(item.url);
        if page.Some? && item.depth < maxDepth {
          Discover(item, site.follow(page.value));
        } else {
          Finish(site, seeds, maxDepth, fetched, queue, visited);
        }
        pending := pending - 1;
      }
      Complete(site, seeds, maxDepth, fetched, visited);
    }
  }

  // The invariants of the loops

  /** Between two pages: everything fetched has its links known, the queue spans two depths. */
  ghost predicate Between(
    s: Site, seeds: set<string>, maxDepth: nat, fetched: seq<Item>, queue: seq<Item>, visited: set<string>)
  {
    && Core(s, seeds, maxDepth, fetched + queue, visited)
    && (forall k :: 0 <= k < |fetched| && fetched[k].depth < maxDepth ==> Closed(s, visited, fetched[k]))
    && (queue != [] ==> Spans(fetched + queue, queue[0].depth))
  }

  predicate Spans(all: seq<Item>, d: nat) {
    forall k :: 0 <= k < |all| ==> all[k].depth <= d + 1
  }

  /** While the links of the last fetched page are looked at. */
  ghost predicate During(
    s: Site, seeds: set<string>, maxDepth: nat, fetched: seq<Item>, queue: seq<Item>, visited: set<string>)
  {
    && fetched != [] && Core(s, seeds, maxDepth, fetched + queue, visited)
    && (forall k :: 0 <= k < |fetched| - 1 && fetched[k].depth < maxDepth ==> Closed(s, visited, fetched[k]))
    && Spans(fetched + queue, fetched[|fetched| - 1].depth)
  }

  lemma Fetch(
    s: Site, seeds: set<string>, maxDepth: nat, fetched: seq<Item>, queue: seq<Item>, visited: set<string>)
    requires Between(s, seeds, maxDepth, fetched, queue, visited) && queue != []
    ensures During(s, seeds, maxDepth, fetched + [queue[0]], queue[1..], visited)
  {
    hide Core, Spans;
    assert fetched + [queue[0]] + queue[1..] == fetched + queue;
  }

  lemma AddLink(
    s: Site, seeds: set<string>, maxDepth: nat, fetched: seq<Item>, queue: seq<Item>, visited: set<string>, v: string)
    requires During(s, seeds, maxDepth, fetched, queue, visited)
    requires
      var item := fetched[|fetched| - 1];
      item.depth < maxDepth && v in Links(s, item.url) && v !in visited
    ensures During(s, seeds, maxDepth, fetched, queue + [Item(v, fetched[|fetched| - 1].depth + 1)], visited + {v})
  {
    hide Core, Links;
    var item := fetched[|fetched| - 1];
    var next := Item(v, item.depth + 1);
    EarlierClosed(s, seeds, maxDepth, fetched, queue, visited);
    NewLink(s, seeds, maxDepth, fetched + queue, visited, item, v);
    assert fetched + (queue + [next]) == fetched + queue + [next];
  }

  lemma Finish(
    s: Site, seeds: set<string>, maxDepth: nat, fetched: seq<Item>, queue: seq<Item>, visited: set<string>)
    requires During(s, seeds, maxDepth, fetched, queue, visited)
    requires
      var item := fetched[|fetched| - 1];
      item.depth < maxDepth ==> Closed(s, visited, item)
    ensures Between(s, seeds, maxDepth, fetched, queue, visited)
  {
    if queue != [] {
      var all := fetched + queue;
      assert all[|fetched| - 1] == fetched[|fetched| - 1] && all[|fetched|] == queue[0];
    }
  }

  lemma SeedSetGrows(isUrl: string -> bool, urls: seq<string>, url: string)
    ensures SeedSet(isUrl, urls + [url]) ==
      SeedSet(isUrl, urls) + (if isUrl(BeforeHash(url)) then {BeforeHash(url)} else {})
  {
    hide BeforeHash;
    var more := urls + [url];
    forall u | u in SeedSet(isUrl, urls)
      ensures u in SeedSet(isUrl, more)
    {
      var k :| 0 <= k < |urls| && isUrl(BeforeHash(urls[k])) && u == BeforeHash(urls[k]);
      assert more[k] == urls[k];
    }
    assert more[|urls|] == url;
  }

  lemma DistinctGrows(items: seq<Item>, next: Item)
    requires Distinct(items) && next.url !in Urls(items)
    ensures Distinct(items + [next])
  {
  }

  lemma EarlierClosed(
    s: Site, seeds: set<string>, maxDepth: nat, fetched: seq<Item>, queue: seq<Item>, visited: set<string>)
    requires Core(s, seeds, maxDepth, fetched + queue, visited) && fetched != []
    requires forall k :: 0 <= k < |fetched| - 1 && fetched[k].depth < maxDepth ==> Closed(s, visited, fetched[k])
    ensures
      var all := fetched + queue;
      && fetched[|fetched| - 1] in all
      && forall k :: 0 <= k < |all| && all[k].depth < fetched[|fetched| - 1].depth ==> Closed(s, visited, all[k])
  {
    var all := fetched + queue;
    var item := fetched[|fetched| - 1];
    assert all[|fetched| - 1] == item;
    forall k | 0 <= k < |all| && all[k].depth < item.depth
      ensures Closed(s, visited, all[k])
    {
      assert k < |fetched| - 1;
      assert all[k] == fetched[k];
    }
  }

  lemma FetchProgress(
    s: Site, seeds: set<string>, maxDepth: nat, fetched: seq<Item>, queue: seq<Item>, visited: set<string>)
    requires Between(s, seeds, maxDepth, fetched, queue, visited) && queue != []
    ensures
      |Level(s, seeds, maxDepth) - Urls(fetched + [queue[0]])| < |Level(s, seeds, maxDepth) - Urls(fetched)|
  {
    var all := fetched + queue;
    var item := queue[0];
    var whole := Level(s, seeds, maxDepth);
    assert all[|fetched|] == item;
    assert Shortest(s, seeds, item);
    LevelGrows(s, seeds, item.depth, maxDepth);
    UrlsGrow(fetched, item);
    forall k | 0 <= k < |fetched|
      ensures fetched[k].url != item.url
    {
      assert all[k] == fetched[k];
    }
    assert whole - Urls(fetched + [item]) == whole - Urls(fetched) - {item.url};
  }

  lemma Complete(s: Site, seeds: set<string>, maxDepth: nat, fetched: seq<Item>, visited: set<string>)
    requires Between(s, seeds, maxDepth, fetched, [], visited)
    ensures Distinct(fetched) && Ordered(fetched) && Urls(fetched) == Level(s, seeds, maxDepth)
    ensures forall k :: 0 <= k < |fetched| ==> Shortest(s, seeds, fetched[k])
  {
    assert fetched + [] == fetched;
    Covers(s, seeds, maxDepth, fetched, visited, maxDepth);
    forall k | 0 <= k < |fetched|
      ensures fetched[k].url in Level(s, seeds, maxDepth)
    {
      assert Shortest(s, seeds, fetched[k]);
      LevelGrows(s, seeds, fetched[k].depth, maxDepth);
    }
  }

  lemma StartIsValid(s: Site, seeds: set<string>, maxDepth: nat, queue: seq<Item>)
    requires Distinct(queue) && seeds == Urls(queue) && forall k :: 0 <= k < |queue| ==> queue[k].depth == 0
    ensures Between(s, seeds, maxDepth, [], queue, seeds)
  {
    assert [] + queue == queue;
    forall k | 0 <= k < |queue|
      ensures Shortest(s, seeds, queue[k])
    {
    }
  }

  /** A whole crawl fetches exactly what is reachable, each URL once and at its shortest distance. */
  method Crawl(site: Site, isUrl: string -> bool, maxDepth: nat, urls: seq<string>) returns (c: Crawler)
    ensures Distinct(c.fetched) && Ordered(c.fetched)
    ensures Urls(c.fetched) == Level(site, SeedSet(isUrl, urls), maxDepth)
    ensures forall k :: 0 <= k < |c.fetched| ==> Shortest(site, SeedSet(isUrl, urls), c.fetched[k])
  {
    c := new Crawler(site, isUrl, maxDepth);
    c.Start(urls);
    StartIsValid(site, c.seeds, maxDepth, c.queue);
    c.Run();
  }
}
