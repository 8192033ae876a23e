/**
 `CrawlerService.crawl_site`: sitemap URLs first, then the start URL, then breadth-first along
 links, under a cap on results, a cap on visited URLs and a cap on depth.
 */
module CrawlSite {
  import opened Basics
  import opened ShortestPaths

  /**
   The crawl's view of the web.  `canon` is `normalize_url_canonical` (None when it raises);
   `page` is what fetching a URL gives: None when `crawl_url` raises, else the links found in the
   HTML (none when there is no HTML).
   */
  datatype Web = Web(canon: string -> Option<string>, page: string -> Option<seq<string>>)

  datatype Job = Job(web: Web, start: string, sitemap: seq<string>, maxPages: int, maxDepth: int)

  /** A queue entry: the URL as queued and its depth. */
  datatype Entry = Entry(url: string, depth: int)

  /** Two URLs with one canonical form are one page. */
  ghost predicate Coherent(web: Web) {
    forall a, b :: web.canon(a).Some? && web.canon(a) == web.canon(b) ==> web.page(a) == web.page(b)
  }

  ghost predicate LinksTo(web: Web, k: string, k': string) {
    exists u, d :: web.canon(u) == Some(k) && web.page(u).Some? && d in web.page(u).value && web.canon(d) == Some(k')
  }

  ghost function Edge(web: Web): (string, string) -> bool {
    (k, k') => LinksTo(web, k, k')
  }

  ghost predicate Loads(web: Web, k: string) {
    exists u :: web.canon(u) == Some(k) && web.page(u).Some?
  }

  /** The canonical forms of the start URL and the sitemap URLs. */
  function Starts(job: Job): set<string> {
    (set u | u in job.sitemap && job.web.canon(u).Some? :: job.web.canon(u).value)
    + (if job.web.canon(job.start).Some? then {job.web.canon(job.start).value} else {})
  }

  function Limit(job: Job): int { if job.maxDepth < 0 then 0 else job.maxDepth }

  ghost predicate InRange(job: Job, k: string) {
    Reachable(Edge(job.web), Starts(job), k, Limit(job))
  }

  /** The page cap is large enough for everything within range. */
  ghost predicate Roomy(job: Job, universe: set<string>) {
    && |universe| <= job.maxPages
    && forall k :: InRange(job, k) ==> k in universe
  }

  // ------------------------------------------------------------- the computation

  /** What a page adds to the queue: the URL that failed to normalise, the entries, the visited set. */
  datatype Growth = Growth(bad: Option<string>, added: seq<Entry>, visited: set<string>)
  {
    function After(earlier: seq<Entry>): Growth { this.(added := earlier + added) }
  }

  function Grow(web: Web, links: seq<string>, visited: set<string>, maxPages: int, depth: int): (g: Growth)
    ensures g.bad.Some? ==> web.canon(g.bad.value).None?
    decreases |links|
  {
    if links == [] || |visited| >= maxPages then Growth(None, [], visited)
    else match web.canon(links[0])
      case None => Growth(Some(links[0]), [], visited)
      case Some(norm) =>
        if norm in visited then Grow(web, links[1..], visited, maxPages, depth)
        else Grow(web, links[1..], visited + {norm}, maxPages, depth).After([Entry(links[0], depth)])
  }

  /** One turn of the traversal: it stops, fails on a URL, or goes on. */
  datatype Turn = Stop | Bad(url: string) | Go(added: seq<Entry>, visited: set<string>, results: seq<string>)

  function TurnOf(job: Job, queue: seq<Entry>, visited: set<string>, results: seq<string>): (turn: Turn)
    ensures turn.Bad? ==> job.web.canon(turn.url).None?
  {
    if queue == [] || |results| >= job.maxPages then Stop
    else
      var url, depth := queue[0].url, queue[0].depth;
      if job.web.page(url).None? then Go([], visited, results)
      else if |results| + 1 < job.maxPages && depth < job.maxDepth then
        var g := Grow(job.web, job.web.page(url).value, visited, job.maxPages, depth + 1);
        if g.bad.Some? then Bad(g.bad.value) else Go(g.added, g.visited, results + [url])
      else Go([], visited, results + [url])
  }

  /** The traversal from a given queue, visited set and result list. */
  function Traverse(job: Job, queue: seq<Entry>, visited: set<string>, results: seq<string>): Result<seq<string>, string>
    decreases job.maxPages - |results|, |queue|
  {
    match TurnOf(job, queue, visited, results)
    case Stop => Success(results)
    case Bad(url) => Failure(url)
    case Go(added, visited', results') => Traverse(job, queue[1..] + added, visited', results')
  }

  /** The inner loop: queue the unseen links of a page until the visited cap. */
  method QueueLinks(web: Web, links: seq<string>, queue0: seq<Entry>, visited0: set<string>, maxPages: int, depth: int)
    returns (bad: Option<string>, queue: seq<Entry>, visited: set<string>)
    ensures var g := Grow(web, links, visited0, maxPages, depth);
            bad == g.bad && queue == queue0 + g.added && visited == g.visited
  {
    hide Grow;
    bad, queue, visited := None, queue0, visited0;
    ghost var added: seq<Entry> := [];
    var l := 0;
    assert links[0..] == links;
    while l < |links| && |visited| < maxPages
      invariant 0 <= l <= |links| && queue == queue0 + added
      invariant Grow(web, links, visited0, maxPages, depth) == Grow(web, links[l..], visited, maxPages, depth).After(added)
    {
      var d := links[l];
      GrowUnfolds(web, links, l, visited, maxPages, depth, added);
      if web.canon(d).None? {
        return Some(d), queue, visited;
      }
      var norm := web.canon(d).value;
      if norm !in visited {
        visited := visited + {norm};
        queue := queue + [Entry(d, depth)];
        added := added + [Entry(d, depth)];
      }
      l := l + 1;
    }
    GrowStops(web, links[l..], visited, maxPages, depth);
  }

  lemma GrowStops(web: Web, links: seq<string>, visited: set<string>, maxPages: int, depth: int)
    requires links == [] || |visited| >= maxPages
    ensures Grow(web, links, visited, maxPages, depth) == Growth(None, [], visited)
  {
  }

  lemma GrowUnfolds(web: Web, links: seq<string>, l: nat, visited: set<string>, maxPages: int, depth: int, added: seq<Entry>)
    requires l < |links| && |visited| < maxPages
    ensures var now := Grow(web, links[l..], visited, maxPages, depth).After(added);
            match web.canon(links[l])
            case None => now == Growth(Some(links[l]), added, visited)
            case Some(norm) =>
              if norm in visited then now == Grow(web, links[l + 1..], visited, maxPages, depth).After(added)
              else now == Grow(web, links[l + 1..], visited + {norm}, maxPages, depth).After(added + [Entry(links[l], depth)])
  {
    assert links[l..][0] == links[l] && links[l..][1..] == links[l + 1..];
    match web.canon(links[l]) {
      case None => assert added + [] == added;
      case Some(norm) =>
        var rest := Grow(web, links[l + 1..], visited + {norm}, maxPages, depth).added;
        assert added + ([Entry(links[l], depth)] + rest) == (added + [Entry(links[l], depth)]) + rest;
    }
  }

  /** Everything queued from a page has the given depth and a key that was new, and its keys are what `visited` gains. */
  ghost predicate NewEntries(web: Web, links: seq<string>, visited: set<string>, depth: int, g: Growth) {
    && (forall e :: e in g.added ==> e.depth == depth && e.url in links && web.canon(e.url).Some?)
    && (forall i, j :: 0 <= i < j < |g.added| ==> web.canon(g.added[i].url) != web.canon(g.added[j].url))
    && (forall e :: e in g.added ==> web.canon(e.url).value !in visited)
    && g.visited == visited + (set e | e in g.added :: web.canon(e.url).value)
  }

  /** The first `n` links are visited, and there the reading stops: at a bad link, at the end, or because `visited` is full. */
  ghost predicate ReadsUpTo(web: Web, links: seq<string>, n: nat, maxPages: int, g: Growth) {
    && n <= |links|
    && (forall i :: 0 <= i < n ==> web.canon(links[i]).Some? && web.canon(links[i]).value in g.visited)
    && (g.bad.Some? ==> n < |links| && links[n] == g.bad.value && web.canon(links[n]).None? && |g.visited| < maxPages)
    && (g.bad.None? ==> n == |links| || |g.visited| >= maxPages)
  }

  /**
   A page's links are read in order until the visited set is full, a link cannot be normalised, or they are at
   an end; the keys read are visited afterwards.
   */
  lemma {:induction false} GrowReads(web: Web, links: seq<string>, visited: set<string>, maxPages: int, depth: int) returns (n: nat)
    ensures ReadsUpTo(web, links, n, maxPages, Grow(web, links, visited, maxPages, depth))
    ensures visited <= Grow(web, links, visited, maxPages, depth).visited
    decreases |links|
  {
    if links == [] || |visited| >= maxPages || web.canon(links[0]).None? {
      n := 0;
    } else {
      var norm := web.canon(links[0]).value;
      var seen := if norm in visited then visited else visited + {norm};
      var m := GrowReads(web, links[1..], seen, maxPages, depth);
      n := m + 1;
      var g, rest := Grow(web, links, visited, maxPages, depth), Grow(web, links[1..], seen, maxPages, depth);
      assert g.visited == rest.visited && g.bad == rest.bad;
      hide Grow;
      assert forall i :: 0 < i < |links| ==> links[i] == links[1..][i - 1];
    }
  }

  /** What a page queues: each key that was new once, one deeper. */
  lemma {:induction false} GrowQueues(web: Web, links: seq<string>, visited: set<string>, maxPages: int, depth: int)
    ensures NewEntries(web, links, visited, depth, Grow(web, links, visited, maxPages, depth))
    decreases |links|
  {
    if !(links == [] || |visited| >= maxPages || web.canon(links[0]).None?) {
      var norm := web.canon(links[0]).value;
      var seen := visited + {norm};
      GrowQueues(web, links[1..], seen, maxPages, depth);
      assert norm in visited ==> seen == visited;
      EntriesAfter(web, links, visited, depth, seen, Grow(web, links[1..], seen, maxPages, depth),
                   Grow(web, links, visited, maxPages, depth));
    }
  }

  /** One more entry in front keeps the entries new. */
  lemma EntriesAfter(web: Web, links: seq<string>, visited: set<string>, depth: int, seen: set<string>, rest: Growth, g: Growth)
    requires links != [] && web.canon(links[0]).Some? && seen == visited + {web.canon(links[0]).value}
    requires NewEntries(web, links[1..], seen, depth, rest)
    requires g == if web.canon(links[0]).value in visited then rest else rest.After([Entry(links[0], depth)])
    ensures NewEntries(web, links, visited, depth, g)
  {
    var norm := web.canon(links[0]).value;
    if norm in visited {
      assert seen == visited;
    } else {
      var first := Entry(links[0], depth);
      assert g.added == [first] + rest.added;
      assert forall e :: e in g.added <==> e == first || e in rest.added;
      FrontIsDistinct(web, first, rest.added);
      EntryKeys(web, first, rest.added);
    }
  }

  lemma FrontIsDistinct(web: Web, first: Entry, rest: seq<Entry>)
    requires forall i, j :: 0 <= i < j < |rest| ==> web.canon(rest[i].url) != web.canon(rest[j].url)
    requires forall e :: e in rest ==> web.canon(e.url) != web.canon(first.url)
    ensures var all := [first] + rest; forall i, j :: 0 <= i < j < |all| ==> web.canon(all[i].url) != web.canon(all[j].url)
  {
    var all := [first] + rest;
    forall i, j | 0 <= i < j < |all| ensures web.canon(all[i].url) != web.canon(all[j].url) {
      assert all[j] == rest[j - 1];
      if i > 0 {
        assert all[i] == rest[i - 1];
      }
    }
  }

  lemma EntryKeys(web: Web, first: Entry, rest: seq<Entry>)
    requires web.canon(first.url).Some? && forall e :: e in rest ==> web.canon(e.url).Some?
    ensures (set e | e in [first] + rest :: web.canon(e.url).value) ==
            {web.canon(first.url).value} + (set e | e in rest :: web.canon(e.url).value)
  {
    assert first in [first] + rest;
  }

  /** A crawl that lacks one page fails no more: the links of its last page are not read. */
  lemma {:induction false} LastPageNeverFails(job: Job, queue: seq<Entry>, visited: set<string>, results: seq<string>)
    requires |results| + 1 >= job.maxPages
    ensures Traverse(job, queue, visited, results).Success?
    decreases |queue|
  {
    if queue != [] && |results| < job.maxPages {
      var turn := TurnOf(job, queue, visited, results);
      if |turn.results| < job.maxPages {
        LastPageNeverFails(job, queue[1..] + turn.added, turn.visited, turn.results);
      }
    }
  }

  /** A crawl fails on a link that cannot be normalised and is in a page that loads, and on nothing else. */
  lemma {:induction false} FailsOnlyOnBadLinks(job: Job, queue: seq<Entry>, visited: set<string>, results: seq<string>)
    ensures var r := Traverse(job, queue, visited, results);
            r.Failure? ==> job.web.canon(r.error).None? && exists u :: job.web.page(u).Some? && r.error in job.web.page(u).value
    decreases job.maxPages - |results|, |queue|
  {
    var turn := TurnOf(job, queue, visited, results);
    match turn
    case Stop =>
    case Bad(url) =>
      var n := GrowReads(job.web, job.web.page(queue[0].url).value, visited, job.maxPages, queue[0].depth + 1);
    case Go(added, visited', results') => FailsOnlyOnBadLinks(job, queue[1..] + added, visited', results');
  }

  // ------------------------------------------------------------- what has been found so far

  ghost predicate Canonical(web: Web, entries: seq<Entry>) {
    forall i :: 0 <= i < |entries| ==> web.canon(entries[i].url).Some?
  }

  ghost function Nodes(web: Web, entries: seq<Entry>): (nodes: seq<Node>)
    requires Canonical(web, entries)
    ensures |nodes| == |entries|
  {
    seq(|entries|, i requires 0 <= i < |entries| => Node(web.canon(entries[i].url).value, entries[i].depth))
  }

  /** `visited` is the keys of everything ever queued, each queued once and within range. */
  ghost predicate Tracked(job: Job, entries: seq<Entry>, visited: set<string>) {
    && Canonical(job.web, entries)
    && Distinct(Nodes(job.web, entries))
    && Genuine(Edge(job.web), Starts(job), Limit(job), Nodes(job.web, entries))
    && |visited| == |entries|
    && forall k :: k in visited <==> Known(Nodes(job.web, entries), k)
  }

  ghost predicate Layers(job: Job, entries: seq<Entry>, done: nat)
    requires Canonical(job.web, entries)
  {
    Bfs(Edge(job.web), Starts(job), Limit(job), Nodes(job.web, entries), done)
  }

  lemma DistinctGrows(nodes: seq<Node>, n: Node)
    requires Distinct(nodes) && !Known(nodes, n.key)
    ensures Distinct(nodes + [n])
  {
    forall i | 0 <= i < |nodes| ensures nodes[i].key != n.key {
      assert !(nodes[i].key == n.key);
    }
  }

  lemma GenuineGrows(job: Job, nodes: seq<Node>, n: Node)
    requires Genuine(Edge(job.web), Starts(job), Limit(job), nodes)
    requires 0 <= n.depth <= Limit(job) && Path(Edge(job.web), Starts(job), n.key, n.depth)
    ensures Genuine(Edge(job.web), Starts(job), Limit(job), nodes + [n])
  {
    hide Path, Edge, Starts, Limit;
  }

  lemma TrackNode(job: Job, nodes: seq<Node>, visited: set<string>, k: string, depth: int)
    requires Distinct(nodes) && Genuine(Edge(job.web), Starts(job), Limit(job), nodes) && |visited| == |nodes|
    requires forall x :: x in visited <==> Known(nodes, x)
    requires k !in visited && 0 <= depth <= Limit(job) && Path(Edge(job.web), Starts(job), k, depth)
    ensures var grown := nodes + [Node(k, depth)];
            && Distinct(grown) && Genuine(Edge(job.web), Starts(job), Limit(job), grown)
            && |visited + {k}| == |grown|
            && forall x :: x in visited + {k} <==> Known(grown, x)
  {
    hide Path, Known, Distinct, Genuine, Edge, Starts, Limit;
    DistinctGrows(nodes, Node(k, depth));
    GenuineGrows(job, nodes, Node(k, depth));
    forall x ensures Known(nodes + [Node(k, depth)], x) <==> x in visited + {k} {
      KnownGrows(nodes, Node(k, depth), x);
    }
  }

  lemma Track(job: Job, entries: seq<Entry>, visited: set<string>, url: string, depth: int)
    requires Tracked(job, entries, visited)
    requires job.web.canon(url).Some? && job.web.canon(url).value !in visited
    requires 0 <= depth <= Limit(job) && Path(Edge(job.web), Starts(job), job.web.canon(url).value, depth)
    ensures Tracked(job, entries + [Entry(url, depth)], visited + {job.web.canon(url).value})
    ensures Nodes(job.web, entries + [Entry(url, depth)]) == Nodes(job.web, entries) + [Node(job.web.canon(url).value, depth)]
  {
    hide Known, Path, Distinct, Genuine;
    var k, nodes := job.web.canon(url).value, Nodes(job.web, entries);
    TrackNode(job, nodes, visited, k, depth);
    assert Nodes(job.web, entries + [Entry(url, depth)]) == nodes + [Node(k, depth)];
  }

  lemma KnownGrows(nodes: seq<Node>, n: Node, x: string)
    ensures Known(nodes + [n], x) <==> Known(nodes, x) || n.key == x
  {
    var grown := nodes + [n];
    assert grown[|nodes|] == n;
    if Known(nodes, x) {
      var j :| 0 <= j < |nodes| && nodes[j].key == x;
      assert grown[j].key == x;
    }
  }

  /** With room for everything, a full visited set is everything in range. */
  lemma FullMeansAll(job: Job, universe: set<string>, entries: seq<Entry>, visited: set<string>)
    requires Tracked(job, entries, visited) && Roomy(job, universe)
    ensures |visited| <= job.maxPages
    ensures |visited| >= job.maxPages ==> forall k :: InRange(job, k) ==> Known(Nodes(job.web, entries), k)
  {
    var nodes := Nodes(job.web, entries);
    forall k | k in visited ensures k in universe {
      var j :| 0 <= j < |nodes| && nodes[j].key == k;
      assert InRange(job, k);
    }
    SubsetSize(visited, universe);
  }

  // ------------------------------------------------------------- phases 1 and 2

  /** Before the traversal every entry has depth 0 and a start key. */
  ghost predicate Queued(job: Job, queue: seq<Entry>, visited: set<string>) {
    && Tracked(job, queue, visited)
    && visited <= Starts(job)
    && forall e :: 0 <= e < |queue| ==> queue[e].depth == 0
  }

  ghost predicate Seen(web: Web, urls: seq<string>, visited: set<string>) {
    forall u :: u in urls ==> web.canon(u).Some? && web.canon(u).value in visited
  }

  lemma SeenNext(web: Web, urls: seq<string>, i: nat, visited: set<string>)
    requires i < |urls| && Seen(web, urls[..i], visited) && web.canon(urls[i]).Some?
    ensures Seen(web, urls[..i + 1], visited + {web.canon(urls[i]).value})
  {
    assert urls[..i + 1] == urls[..i] + [urls[i]];
  }

  lemma QueueStart(job: Job, queue: seq<Entry>, visited: set<string>, url: string)
    requires Queued(job, queue, visited)
    requires job.web.canon(url).Some? && job.web.canon(url).value in Starts(job) - visited
    ensures Queued(job, queue + [Entry(url, 0)], visited + {job.web.canon(url).value})
  {
    assert Path(Edge(job.web), Starts(job), job.web.canon(url).value, 0);
    Track(job, queue, visited, url, 0);
  }

  // What phases 1 and 2 queue, said without the loop.

  /** The URLs whose canonical form is new, in order; one that cannot be normalised is passed over. */
  ghost function FirstOfEach(web: Web, urls: seq<string>): seq<string> {
    if urls == [] then []
    else
      var earlier, u := FirstOfEach(web, urls[..|urls| - 1]), urls[|urls| - 1];
      if web.canon(u).None? || Listed(web, earlier, u) then earlier else earlier + [u]
  }

  ghost predicate Listed(web: Web, urls: seq<string>, u: string) {
    exists e :: e in urls && web.canon(e) == web.canon(u)
  }

  ghost function Cut(urls: seq<string>, n: int): seq<string> {
    if n <= 0 then [] else if |urls| <= n then urls else urls[..n]
  }

  /** The first sitemap URL of each page, up to the cap, and then the start URL unless its page is among them. */
  ghost function StartUrls(job: Job): seq<string> {
    var listed := Cut(FirstOfEach(job.web, job.sitemap), job.maxPages);
    if Listed(job.web, listed, job.start) then listed else listed + [job.start]
  }

  /** Normalising the start URL raises, or a sitemap URL that is reached before the cap. */
  ghost predicate StartsFail(job: Job) {
    || job.web.canon(job.start).None?
    || exists i :: FailsAt(job, i)
  }

  ghost predicate FailsAt(job: Job, i: int) {
    0 <= i < |job.sitemap| && job.web.canon(job.sitemap[i]).None? && |FirstOfEach(job.web, job.sitemap[..i])| < job.maxPages
  }

  ghost function Urls(queue: seq<Entry>): seq<string> {
    seq(|queue|, i requires 0 <= i < |queue| => queue[i].url)
  }

  lemma FirstOfEachNext(web: Web, urls: seq<string>, i: nat)
    requires i < |urls|
    ensures FirstOfEach(web, urls[..i + 1]) ==
            if web.canon(urls[i]).None? || Listed(web, FirstOfEach(web, urls[..i]), urls[i]) then FirstOfEach(web, urls[..i])
            else FirstOfEach(web, urls[..i]) + [urls[i]]
  {
    assert urls[..i + 1][..i] == urls[..i];
  }

  lemma {:induction false} FirstOfEachPrefix(web: Web, urls: seq<string>, i: nat)
    requires i <= |urls|
    ensures FirstOfEach(web, urls[..i]) <= FirstOfEach(web, urls)
    decreases |urls| - i
  {
    hide FirstOfEach, Listed;
    if i == |urls| {
      assert urls[..i] == urls;
    } else {
      FirstOfEachNext(web, urls, i);
      FirstOfEachPrefix(web, urls, i + 1);
    }
  }

  lemma VisitedAreListed(job: Job, queue: seq<Entry>, visited: set<string>, url: string)
    requires Tracked(job, queue, visited) && job.web.canon(url).Some?
    ensures job.web.canon(url).value in visited <==> Listed(job.web, Urls(queue), url)
  {
    var nodes, k := Nodes(job.web, queue), job.web.canon(url).value;
    if Known(nodes, k) {
      var j :| 0 <= j < |nodes| && nodes[j].key == k;
      assert Urls(queue)[j] in Urls(queue);
    }
    if Listed(job.web, Urls(queue), url) {
      var e :| e in Urls(queue) && job.web.canon(e) == job.web.canon(url);
      var j :| 0 <= j < |queue| && Urls(queue)[j] == e;
      assert nodes[j].key == k;
    }
  }

  /** The sitemap loop is where it stops: the list is exhausted or the cap is reached. */
  lemma SitemapCut(job: Job, listed: seq<string>, i: nat)
    requires i <= |job.sitemap| && listed == FirstOfEach(job.web, job.sitemap[..i])
    requires i == |job.sitemap| || |listed| >= job.maxPages
    requires listed == [] || |listed| <= job.maxPages
    ensures listed == Cut(FirstOfEach(job.web, job.sitemap), job.maxPages)
  {
    FirstOfEachPrefix(job.web, job.sitemap, i);
    assert i == |job.sitemap| ==> job.sitemap[..i] == job.sitemap;
  }

  /** A URL that fails beyond the stopping point is never reached. */
  lemma NoneFails(job: Job, i: nat)
    requires i <= |job.sitemap| && forall j :: 0 <= j < i ==> job.web.canon(job.sitemap[j]).Some?
    requires i == |job.sitemap| || |FirstOfEach(job.web, job.sitemap[..i])| >= job.maxPages
    ensures forall j :: !FailsAt(job, j)
  {
    forall j | i <= j < |job.sitemap| ensures !FailsAt(job, j) {
      FirstOfEachPrefix(job.web, job.sitemap[..j], i);
      assert job.sitemap[..j][..i] == job.sitemap[..i];
    }
  }

  /** After the first `i` sitemap URLs. */
  ghost predicate SitemapState(job: Job, i: nat, queue: seq<Entry>, visited: set<string>) {
    && i <= |job.sitemap|
    && Queued(job, queue, visited) && Seen(job.web, job.sitemap[..i], visited)
    && Urls(queue) == FirstOfEach(job.web, job.sitemap[..i])
    && (queue == [] || |queue| <= job.maxPages)
    && forall j :: 0 <= j < i ==> job.web.canon(job.sitemap[j]).Some?
  }

  lemma SitemapStart(job: Job)
    ensures SitemapState(job, 0, [], {})
  {
  }

  lemma StartKeys(job: Job, url: string)
    requires job.web.canon(url).Some? && (url in job.sitemap || url == job.start)
    ensures job.web.canon(url).value in Starts(job)
  {
  }

  lemma SitemapSkip(job: Job, i: nat, queue: seq<Entry>, visited: set<string>)
    requires SitemapState(job, i, queue, visited) && i < |job.sitemap|
    requires job.web.canon(job.sitemap[i]).Some? && job.web.canon(job.sitemap[i]).value in visited
    ensures SitemapState(job, i + 1, queue, visited)
  {
    assert Tracked(job, queue, visited);
    hide Queued, Tracked, FirstOfEach, Listed;
    SeenNext(job.web, job.sitemap, i, visited);
    VisitedAreListed(job, queue, visited, job.sitemap[i]);
    FirstOfEachNext(job.web, job.sitemap, i);
    assert visited + {job.web.canon(job.sitemap[i]).value} == visited;
  }

  lemma TakenListed(job: Job, i: nat, queue: seq<Entry>, visited: set<string>)
    requires Tracked(job, queue, visited) && i < |job.sitemap| && Urls(queue) == FirstOfEach(job.web, job.sitemap[..i])
    requires job.web.canon(job.sitemap[i]).Some? && job.web.canon(job.sitemap[i]).value !in visited
    ensures Urls(queue + [Entry(job.sitemap[i], 0)]) == FirstOfEach(job.web, job.sitemap[..i + 1])
  {
    hide Tracked, FirstOfEach, Listed;
    VisitedAreListed(job, queue, visited, job.sitemap[i]);
    FirstOfEachNext(job.web, job.sitemap, i);
    assert Urls(queue + [Entry(job.sitemap[i], 0)]) == Urls(queue) + [job.sitemap[i]];
  }

  lemma SitemapTake(job: Job, i: nat, queue: seq<Entry>, visited: set<string>)
    requires SitemapState(job, i, queue, visited) && i < |job.sitemap| && |queue| < job.maxPages
    requires job.web.canon(job.sitemap[i]).Some? && job.web.canon(job.sitemap[i]).value !in visited
    ensures SitemapState(job, i + 1, queue + [Entry(job.sitemap[i], 0)], visited + {job.web.canon(job.sitemap[i]).value})
  {
    assert Tracked(job, queue, visited);
    hide Queued, Tracked, FirstOfEach, Starts, Urls;
    TakenListed(job, i, queue, visited);
    StartKeys(job, job.sitemap[i]);
    QueueStart(job, queue, visited, job.sitemap[i]);
    SeenNext(job.web, job.sitemap, i, visited);
    hide Seen;
  }

  lemma SitemapDone(job: Job, universe: set<string>, i: nat, queue: seq<Entry>, visited: set<string>)
    requires SitemapState(job, i, queue, visited) && (i == |job.sitemap| || |queue| >= job.maxPages)
    ensures Queued(job, queue, visited) && Tracked(job, queue, visited) && forall j :: !FailsAt(job, j)
    ensures Urls(queue) == Cut(FirstOfEach(job.web, job.sitemap), job.maxPages)
    ensures Roomy(job, universe) ==> AllButStart(job, visited)
  {
    hide Tracked, FailsAt, FirstOfEach, Roomy, AllButStart;
    SitemapQueued(job, universe, queue, visited, i);
    SitemapCut(job, Urls(queue), i);
    NoneFails(job, i);
  }

  /** Phase 1: queue the sitemap URLs until the cap. */
  method QueueSitemap(job: Job, ghost universe: set<string>)
    returns (bad: Option<string>, queue: seq<Entry>, visited: set<string>)
    ensures bad.Some? ==> job.web.canon(bad.value).None? && exists i :: FailsAt(job, i)
    ensures bad.None? ==> Queued(job, queue, visited) && Tracked(job, queue, visited) && forall i :: !FailsAt(job, i)
    ensures bad.None? ==> Urls(queue) == Cut(FirstOfEach(job.web, job.sitemap), job.maxPages)
    ensures bad.None? && Roomy(job, universe) ==> AllButStart(job, visited)
  {
    hide SitemapState, FailsAt, Queued, Tracked, FirstOfEach, Roomy, AllButStart;
    bad, queue, visited := None, [], {};
    SitemapStart(job);
    var i := 0;
    while i < |job.sitemap| && |queue| < job.maxPages
      invariant 0 <= i <= |job.sitemap|
      invariant SitemapState(job, i, queue, visited)
    {
      var url := job.sitemap[i];
      if job.web.canon(url).None? {
        ReachedFailure(job, i, queue, visited);
        return Some(url), queue, visited;
      }
      var norm := job.web.canon(url).value;
      if norm in visited {
        SitemapSkip(job, i, queue, visited);
      } else {
        SitemapTake(job, i, queue, visited);
        visited := visited + {norm};
        queue := queue + [Entry(url, 0)];
      }
      i := i + 1;
    }
    SitemapDone(job, universe, i, queue, visited);
  }

  lemma ReachedFailure(job: Job, i: nat, queue: seq<Entry>, visited: set<string>)
    requires SitemapState(job, i, queue, visited) && i < |job.sitemap| && |queue| < job.maxPages
    requires job.web.canon(job.sitemap[i]).None?
    ensures FailsAt(job, i)
  {
  }

  function WithStart(job: Job, queue: seq<Entry>, visited: set<string>): seq<Entry>
    requires job.web.canon(job.start).Some?
  {
    if job.web.canon(job.start).value in visited then queue else queue + [Entry(job.start, 0)]
  }

  lemma StartListed(job: Job, queue: seq<Entry>, visited: set<string>)
    requires Tracked(job, queue, visited) && job.web.canon(job.start).Some?
    requires Urls(queue) == Cut(FirstOfEach(job.web, job.sitemap), job.maxPages)
    ensures Urls(WithStart(job, queue, visited)) == StartUrls(job)
  {
    VisitedAreListed(job, queue, visited, job.start);
    hide Tracked, FirstOfEach, Cut, Listed;
    assert Urls(queue + [Entry(job.start, 0)]) == Urls(queue) + [job.start];
  }

  lemma StartQueued(job: Job, queue: seq<Entry>, visited: set<string>)
    requires Queued(job, queue, visited) && job.web.canon(job.start).Some?
    ensures Queued(job, WithStart(job, queue, visited), visited + {job.web.canon(job.start).value})
    ensures Tracked(job, WithStart(job, queue, visited), visited + {job.web.canon(job.start).value})
  {
    StartKeys(job, job.start);
    hide Tracked, Starts;
    if job.web.canon(job.start).value in visited {
      assert visited + {job.web.canon(job.start).value} == visited;
    } else {
      QueueStart(job, queue, visited, job.start);
    }
  }

  lemma AllButStartGrows(job: Job, visited: set<string>, norm: string)
    ensures AllButStart(job, visited) ==> AllButStart(job, visited + {norm})
  {
  }

  /**
   Phases 1 and 2: the queue holds the first sitemap URL of each page up to the cap, in order, and then
   the start URL if its page is new.
   */
  method QueueStarts(job: Job, ghost universe: set<string>)
    returns (bad: Option<string>, queue: seq<Entry>, visited: set<string>)
    ensures bad.Some? <==> StartsFail(job)
    ensures bad.Some? ==> job.web.canon(bad.value).None?
    ensures bad.None? ==> Urls(queue) == StartUrls(job) && Tracked(job, queue, visited) && |queue| > 0
    ensures bad.None? && Roomy(job, universe) ==> Layers(job, queue, 0)
  {
    hide Queued, Tracked, FailsAt, FirstOfEach, Cut, Urls, StartUrls, Roomy, AllButStart, Layers;
    bad, queue, visited := QueueSitemap(job, universe);
    if bad.Some? {
      return;
    }
    if job.web.canon(job.start).None? {
      return Some(job.start), queue, visited;
    }
    var norm := job.web.canon(job.start).value;
    StartListed(job, queue, visited);
    StartQueued(job, queue, visited);
    AllButStartGrows(job, visited, norm);
    QueuedLayer(job, universe, WithStart(job, queue, visited), visited + {norm});
    if norm in visited {
      assert visited + {norm} == visited;
    } else {
      visited := visited + {norm};
      queue := queue + [Entry(job.start, 0)];
    }
  }

  ghost predicate AllButStart(job: Job, visited: set<string>) {
    forall k :: k in Starts(job) ==> k in visited || job.web.canon(job.start) == Some(k)
  }

  /** The sitemap loop queued every sitemap key, or stopped with everything in range queued. */
  lemma SitemapQueued(job: Job, universe: set<string>, queue: seq<Entry>, visited: set<string>, i: nat)
    requires Queued(job, queue, visited)
    requires i <= |job.sitemap| && (i == |job.sitemap| || |queue| >= job.maxPages) && Seen(job.web, job.sitemap[..i], visited)
    ensures Roomy(job, universe) ==> AllButStart(job, visited)
  {
    if Roomy(job, universe) {
      FullMeansAll(job, universe, queue, visited);
      forall k | k in Starts(job) && job.web.canon(job.start) != Some(k) ensures k in visited {
        assert Path(Edge(job.web), Starts(job), k, 0);
        assert InRange(job, k);
      }
    }
  }

  lemma QueuedLayer(job: Job, universe: set<string>, queue: seq<Entry>, visited: set<string>)
    requires Queued(job, queue, visited)
    requires job.web.canon(job.start).Some? && job.web.canon(job.start).value in visited
    requires Roomy(job, universe) ==> AllButStart(job, visited)
    ensures |queue| > 0
    ensures Roomy(job, universe) ==> Layers(job, queue, 0)
  {
    var nodes := Nodes(job.web, queue);
    assert Known(nodes, job.web.canon(job.start).value);
    if Roomy(job, universe) {
      StartLayer(Edge(job.web), Starts(job), Limit(job), nodes);
    }
  }

  // ------------------------------------------------------------- expanding one page

  /** The entry at `done` is a loaded page above the depth limit. */
  ghost predicate Expandable(job: Job, entries: seq<Entry>, done: nat, at: Entry) {
    done < |entries| && entries[done] == at && at.depth < job.maxDepth && job.web.page(at.url).Some?
  }

  /** A link of an expandable page leads to a key in range. */
  lemma LinkInRange(job: Job, entries: seq<Entry>, visited: set<string>, done: nat, at: Entry, d: string)
    requires Tracked(job, entries, visited) && Expandable(job, entries, done, at)
    requires d in job.web.page(at.url).value && job.web.canon(d).Some?
    ensures Edge(job.web)(Nodes(job.web, entries)[done].key, job.web.canon(d).value)
    ensures at.depth >= 0 && Path(Edge(job.web), Starts(job), job.web.canon(d).value, at.depth + 1)
    ensures InRange(job, job.web.canon(d).value)
  {
    var node := Nodes(job.web, entries)[done];
    assert LinksTo(job.web, node.key, job.web.canon(d).value);
    assert Edge(job.web)(node.key, job.web.canon(d).value);
    assert Path(Edge(job.web), Starts(job), node.key, node.depth);
    assert Path(Edge(job.web), Starts(job), job.web.canon(d).value, node.depth + 1);
  }

  lemma TrackLink(job: Job, entries: seq<Entry>, visited: set<string>, done: nat, at: Entry, d: string)
    requires Tracked(job, entries, visited) && Expandable(job, entries, done, at)
    requires d in job.web.page(at.url).value && job.web.canon(d).Some? && job.web.canon(d).value !in visited
    ensures Tracked(job, entries + [Entry(d, at.depth + 1)], visited + {job.web.canon(d).value})
    ensures Expandable(job, entries + [Entry(d, at.depth + 1)], done, at)
  {
    LinkInRange(job, entries, visited, done, at, d);
    Track(job, entries, visited, d, at.depth + 1);
  }

  /** Every entry a page adds is new and in range. */
  lemma {:induction false} GrowTracks(job: Job, entries: seq<Entry>, visited: set<string>, done: nat, at: Entry, links: seq<string>)
    requires Tracked(job, entries, visited) && Expandable(job, entries, done, at)
    requires forall d :: d in links ==> d in job.web.page(at.url).value
    ensures var g := Grow(job.web, links, visited, job.maxPages, at.depth + 1);
            Tracked(job, entries + g.added, g.visited)
    decreases |links|
  {
    var g := Grow(job.web, links, visited, job.maxPages, at.depth + 1);
    if links == [] || |visited| >= job.maxPages || job.web.canon(links[0]).None? {
      assert entries + g.added == entries;
    } else {
      var norm := job.web.canon(links[0]).value;
      if norm in visited {
        GrowTracks(job, entries, visited, done, at, links[1..]);
      } else {
        var grown := entries + [Entry(links[0], at.depth + 1)];
        TrackLink(job, entries, visited, done, at, links[0]);
        GrowTracks(job, grown, visited + {norm}, done, at, links[1..]);
        Regroup(entries, [Entry(links[0], at.depth + 1)],
                Grow(job.web, links[1..], visited + {norm}, job.maxPages, at.depth + 1).added);
      }
    }
  }

  lemma Regroup<T>(a: seq<T>, b: seq<T>, c: seq<T>)
    ensures a + (b + c) == (a + b) + c
  {
  }

  /** Every one of `links` leads to a key covered at depth `d`. */
  ghost predicate CoveredLinks(web: Web, entries: seq<Entry>, links: set<string>, d: int)
    requires Canonical(web, entries)
  {
    forall l :: l in links ==> web.canon(l).Some? && Covered(Nodes(web, entries), web.canon(l).value, d)
  }

  /** A link to a key seen before. */
  lemma SkipLink(job: Job, entries: seq<Entry>, visited: set<string>, done: nat, at: Entry, links: set<string>, d: string)
    requires Tracked(job, entries, visited) && Expandable(job, entries, done, at) && Layers(job, entries, done)
    requires job.web.canon(d).Some? && job.web.canon(d).value in visited
    requires CoveredLinks(job.web, entries, links, at.depth + 1)
    ensures CoveredLinks(job.web, entries, links + {d}, at.depth + 1)
  {
    SeenIsCovered(Edge(job.web), Starts(job), Limit(job), Nodes(job.web, entries), done, job.web.canon(d).value);
  }

  /** A link to a new key. */
  lemma DiscoverLink(job: Job, entries: seq<Entry>, visited: set<string>, done: nat, at: Entry, links: set<string>, d: string)
    requires Tracked(job, entries, visited) && Expandable(job, entries, done, at) && Layers(job, entries, done)
    requires d in job.web.page(at.url).value && job.web.canon(d).Some? && job.web.canon(d).value !in visited
    requires CoveredLinks(job.web, entries, links, at.depth + 1)
    ensures var grown := entries + [Entry(d, at.depth + 1)];
            && Canonical(job.web, grown) && Layers(job, grown, done)
            && CoveredLinks(job.web, grown, links + {d}, at.depth + 1)
  {
    var norm, nodes := job.web.canon(d).value, Nodes(job.web, entries);
    var node := Node(norm, at.depth + 1);
    LinkInRange(job, entries, visited, done, at, d);
    assert !Known(nodes, norm);
    assert nodes[done].depth == at.depth;
    Discover(Edge(job.web), Starts(job), Limit(job), nodes, done, norm);
    assert Nodes(job.web, entries + [Entry(d, at.depth + 1)]) == nodes + [node];
    hide Bfs, Covered, Tracked, Known;
    forall l | l in links ensures Covered(nodes + [node], job.web.canon(l).value, at.depth + 1) {
      CoveredGrows(nodes, [node], job.web.canon(l).value, at.depth + 1);
    }
  }

  /** A page that adds all it may leaves no target of its links uncovered. */
  lemma {:induction false} GrowExpands(job: Job, universe: set<string>, entries: seq<Entry>, visited: set<string>,
                                       done: nat, at: Entry,
                                       before: set<string>, links: seq<string>)
    requires Coherent(job.web) && Roomy(job, universe)
    requires Tracked(job, entries, visited) && Expandable(job, entries, done, at) && Layers(job, entries, done)
    requires forall d :: d in job.web.page(at.url).value <==> d in before || d in links
    requires CoveredLinks(job.web, entries, before, at.depth + 1)
    requires Grow(job.web, links, visited, job.maxPages, at.depth + 1).bad.None?
    ensures var all := entries + Grow(job.web, links, visited, job.maxPages, at.depth + 1).added;
            && Canonical(job.web, all) && Layers(job, all, done) && done < |all|
            && Expanded(Edge(job.web), Nodes(job.web, all), Limit(job), done)
    decreases |links|
  {
    assert Canonical(job.web, entries);
    hide Tracked, Layers, CoveredLinks, Roomy, Coherent, Expanded;
    if links == [] || |visited| >= job.maxPages {
      assert entries + [] == entries;
      ExpandedPage(job, universe, entries, visited, done, at, before);
    } else {
      var d, norm := links[0], job.web.canon(links[0]).value;
      assert forall x :: x in links <==> x == d || x in links[1..];
      if norm in visited {
        SkipLink(job, entries, visited, done, at, before, d);
        GrowExpands(job, universe, entries, visited, done, at, before + {d}, links[1..]);
      } else {
        var grown := entries + [Entry(d, at.depth + 1)];
        TrackLink(job, entries, visited, done, at, d);
        DiscoverLink(job, entries, visited, done, at, before, d);
        GrowExpands(job, universe, grown, visited + {norm}, done, at, before + {d}, links[1..]);
        Regroup(entries, [Entry(d, at.depth + 1)],
                Grow(job.web, links[1..], visited + {norm}, job.maxPages, at.depth + 1).added);
      }
    }
  }

  /** Every target of a page's key is the canonical form of one of its links. */
  lemma EdgeIsLink(web: Web, url: string, k: string)
    requires Coherent(web) && web.canon(url).Some? && Edge(web)(web.canon(url).value, k)
    ensures web.page(url).Some? && exists d :: d in web.page(url).value && web.canon(d) == Some(k)
  {
    var u, d :| web.canon(u) == web.canon(url) && web.page(u).Some? && d in web.page(u).value && web.canon(d) == Some(k);
    assert web.page(u) == web.page(url);
  }

  /** The links were all covered, or were left because everything in range had been visited. */
  lemma ExpandedPage(job: Job, universe: set<string>, entries: seq<Entry>, visited: set<string>, done: nat,
                     at: Entry, links: set<string>)
    requires Coherent(job.web) && Roomy(job, universe)
    requires Tracked(job, entries, visited) && Expandable(job, entries, done, at) && Layers(job, entries, done)
    requires CoveredLinks(job.web, entries, links, at.depth + 1)
    requires |visited| >= job.maxPages || forall d :: d in job.web.page(at.url).value ==> d in links
    ensures Expanded(Edge(job.web), Nodes(job.web, entries), Limit(job), done)
  {
    var nodes := Nodes(job.web, entries);
    forall k | Edge(job.web)(nodes[done].key, k) ensures Covered(nodes, k, nodes[done].depth + 1) {
      EdgeIsLink(job.web, at.url, k);
      var d :| d in job.web.page(at.url).value && job.web.canon(d) == Some(k);
      if d !in links {
        LinkInRange(job, entries, visited, done, at, d);
        FullMeansAll(job, universe, entries, visited);
        SeenIsCovered(Edge(job.web), Starts(job), Limit(job), nodes, done, k);
      }
    }
  }

  /** A page that fails to load has no links to expand. */
  lemma FailedPage(job: Job, entries: seq<Entry>, done: nat)
    requires Coherent(job.web) && Canonical(job.web, entries) && done < |entries| && job.web.page(entries[done].url).None?
    ensures Expanded(Edge(job.web), Nodes(job.web, entries), Limit(job), done)
  {
    forall k | Edge(job.web)(Nodes(job.web, entries)[done].key, k) ensures false {
      EdgeIsLink(job.web, entries[done].url, k);
    }
  }

  // ------------------------------------------------------------- results

  /** Where the results come from: entry `from[i]` gave result `i`, in queue order. */
  ghost predicate Picks(web: Web, entries: seq<Entry>, done: nat, results: seq<string>, from: seq<nat>) {
    && |from| == |results| && done <= |entries|
    && (forall i :: 0 <= i < |from| ==>
          from[i] < done && results[i] == entries[from[i]].url && web.page(results[i]).Some?)
    && (forall i, j :: 0 <= i < j < |from| ==> from[i] < from[j])
    && (forall e :: 0 <= e < done && web.page(entries[e].url).Some? ==> exists i :: 0 <= i < |from| && from[i] == e)
  }

  lemma {:induction false} PicksFit(web: Web, entries: seq<Entry>, done: nat, results: seq<string>, from: seq<nat>, n: nat)
    requires Picks(web, entries, done, results, from) && n < |from|
    ensures from[n] >= n
  {
    if n > 0 {
      PicksFit(web, entries, done, results, from, n - 1);
    }
  }

  /** Taking the next entry, and appending what its page adds. */
  lemma PicksNext(web: Web, entries: seq<Entry>, added: seq<Entry>, done: nat, results: seq<string>, from: seq<nat>)
    requires Picks(web, entries, done, results, from) && done < |entries|
    ensures web.page(entries[done].url).None? ==> Picks(web, entries + added, done + 1, results, from)
    ensures web.page(entries[done].url).Some? ==> Picks(web, entries + added, done + 1, results + [entries[done].url], from + [done])
  {
    assert forall e :: 0 <= e <= done ==> (entries + added)[e] == entries[e];
    if web.page(entries[done].url).Some? {
      var from' := from + [done];
      forall e | 0 <= e < done + 1 && web.page(entries[e].url).Some? ensures exists i :: 0 <= i < |from'| && from'[i] == e {
        if e == done {
          assert from'[|from|] == e;
        } else {
          var i :| 0 <= i < |from| && from[i] == e;
          assert from'[i] == e;
        }
      }
    }
  }

  /** Each result loaded, lies in range, and no page is listed twice. */
  ghost predicate Sound(job: Job, urls: seq<string>) {
    && (forall i :: 0 <= i < |urls| ==>
          job.web.canon(urls[i]).Some? && job.web.page(urls[i]).Some? && InRange(job, job.web.canon(urls[i]).value))
    && forall i, j :: 0 <= i < j < |urls| ==> job.web.canon(urls[i]) != job.web.canon(urls[j])
  }

  lemma PicksSound(job: Job, entries: seq<Entry>, visited: set<string>, done: nat, results: seq<string>, from: seq<nat>)
    requires Tracked(job, entries, visited) && Picks(job.web, entries, done, results, from)
    ensures Sound(job, results)
  {
    var nodes := Nodes(job.web, entries);
    forall i | 0 <= i < |results|
      ensures job.web.canon(results[i]).Some? && InRange(job, job.web.canon(results[i]).value)
    {
      var node := nodes[from[i]];
      assert node.depth <= Limit(job) && Path(Edge(job.web), Starts(job), node.key, node.depth);
    }
    forall i, j | 0 <= i < j < |results| ensures job.web.canon(results[i]) != job.web.canon(results[j]) {
      assert nodes[from[i]].key != nodes[from[j]].key;
    }
  }

  /** Results in breadth-first order: nothing listed later is closer to the start. */
  ghost predicate NearestFirst(job: Job, urls: seq<string>) {
    forall i, j, n: nat ::
      0 <= i < j < |urls| && job.web.canon(urls[i]).Some? && job.web.canon(urls[j]).Some?
      && Path(Edge(job.web), Starts(job), job.web.canon(urls[j]).value, n)
      ==> Reachable(Edge(job.web), Starts(job), job.web.canon(urls[i]).value, n)
  }

  ghost predicate Crawled(web: Web, urls: seq<string>, k: string) {
    exists i :: 0 <= i < |urls| && web.canon(urls[i]) == Some(k)
  }

  /** The results are exactly the loadable pages in range, nearest first. */
  ghost predicate CompleteCrawl(job: Job, urls: seq<string>) {
    && (forall k :: Crawled(job.web, urls, k) <==> InRange(job, k) && Loads(job.web, k))
    && NearestFirst(job, urls)
  }

  lemma Harvest(job: Job, entries: seq<Entry>, visited: set<string>, results: seq<string>, from: seq<nat>)
    requires Coherent(job.web) && Tracked(job, entries, visited) && Layers(job, entries, |entries|)
    requires Picks(job.web, entries, |entries|, results, from)
    ensures CompleteCrawl(job, results)
  {
    var nodes := Nodes(job.web, entries);
    BfsIsShortest(Edge(job.web), Starts(job), Limit(job), nodes);
    forall k ensures Crawled(job.web, results, k) <==> InRange(job, k) && Loads(job.web, k) {
      if Crawled(job.web, results, k) {
        var i :| 0 <= i < |results| && job.web.canon(results[i]) == Some(k);
        assert nodes[from[i]].key == k;
      }
      if InRange(job, k) && Loads(job.web, k) {
        var u :| job.web.canon(u) == Some(k) && job.web.page(u).Some?;
        var e :| 0 <= e < |nodes| && nodes[e].key == k;
        assert job.web.page(entries[e].url) == job.web.page(u);
        var i :| 0 <= i < |from| && from[i] == e;
        assert job.web.canon(results[i]) == Some(k);
      }
    }
    forall i, j, n: nat | 0 <= i < j < |results| && Path(Edge(job.web), Starts(job), job.web.canon(results[j]).value, n)
      ensures Reachable(Edge(job.web), Starts(job), job.web.canon(results[i]).value, n)
    {
      var a, b := nodes[from[i]], nodes[from[j]];
      assert Shortest(Edge(job.web), Starts(job), b.key, b.depth);
      assert a.depth <= b.depth <= n && Path(Edge(job.web), Starts(job), a.key, a.depth);
    }
  }

  /** Links are left alone only at the depth limit or when the results already fill the cap. */
  lemma UnexpandedPage(job: Job, universe: set<string>, entries: seq<Entry>, visited: set<string>, done: nat,
                       results: seq<string>, from: seq<nat>)
    requires Coherent(job.web) && Roomy(job, universe)
    requires Tracked(job, entries, visited) && done < |entries| && Layers(job, entries, done)
    requires Picks(job.web, entries, done, results, from) && job.web.page(entries[done].url).Some?
    requires |results| + 1 >= job.maxPages || entries[done].depth >= job.maxDepth
    ensures Expanded(Edge(job.web), Nodes(job.web, entries), Limit(job), done)
  {
    var nodes := Nodes(job.web, entries);
    if entries[done].depth < job.maxDepth {
      if results != [] {
        PicksFit(job.web, entries, done, results, from, |results| - 1);
      }
      forall k | Edge(job.web)(nodes[done].key, k) ensures Covered(nodes, k, nodes[done].depth + 1) {
        EdgeIsLink(job.web, entries[done].url, k);
        var d :| d in job.web.page(entries[done].url).value && job.web.canon(d) == Some(k);
        LinkInRange(job, entries, visited, done, entries[done], d);
        FullMeansAll(job, universe, entries, visited);
        SeenIsCovered(Edge(job.web), Starts(job), Limit(job), nodes, done, k);
      }
    }
  }

  /** With room for everything the result cap is only reached when the queue is empty. */
  lemma AllExpanded(job: Job, universe: set<string>, entries: seq<Entry>, visited: set<string>, done: nat,
                    results: seq<string>, from: seq<nat>)
    requires Roomy(job, universe) && Tracked(job, entries, visited)
    requires Picks(job.web, entries, done, results, from)
    requires done == |entries| || |results| >= job.maxPages
    ensures done == |entries|
  {
    FullMeansAll(job, universe, entries, visited);
    if results != [] {
      PicksFit(job.web, entries, done, results, from, |results| - 1);
    }
  }

  // ------------------------------------------------------------- the traversal

  /** `queue` is what follows entry `done - 1`; taking its head and appending keeps it so. */
  lemma NextQueue<T>(all: seq<T>, done: nat, queue: seq<T>, added: seq<T>)
    requires done < |all| && queue == all[done..]
    ensures queue[0] == all[done]
    ensures queue[1..] + added == (all + added)[done + 1..]
  {
  }

  /** What holds between two turns, whatever the caps. */
  ghost predicate Running(job: Job, entries: seq<Entry>, visited: set<string>, done: nat, queue: seq<Entry>,
                          results: seq<string>, from: seq<nat>) {
    && done <= |entries|
    && Tracked(job, entries, visited)
    && Picks(job.web, entries, done, results, from)
    && queue == entries[done..]
    && (|results| <= job.maxPages || results == [])
  }

  /** The page at the head of the queue is loaded and its links may be followed. */
  predicate Follows(job: Job, at: Entry, results: seq<string>) {
    job.web.page(at.url).Some? && |results| + 1 < job.maxPages && at.depth < job.maxDepth
  }

  /** The growth a turn is made of (none when the page's links are not followed). */
  function GrowthAt(job: Job, at: Entry, visited: set<string>, results: seq<string>): Growth {
    if Follows(job, at, results) then Grow(job.web, job.web.page(at.url).value, visited, job.maxPages, at.depth + 1)
    else Growth(None, [], visited)
  }

  lemma TurnShape(job: Job, queue: seq<Entry>, visited: set<string>, results: seq<string>, at: Entry, g: Growth)
    requires queue != [] && at == queue[0] && |results| < job.maxPages
    requires g == GrowthAt(job, at, visited, results)
    ensures var turn := TurnOf(job, queue, visited, results);
            if Follows(job, at, results) then
              turn == (if g.bad.Some? then Bad(g.bad.value) else Go(g.added, g.visited, results + [at.url]))
            else
              turn == Go([], visited, if job.web.page(at.url).None? then results else results + [at.url])
  {
  }

  lemma GrowthTracks(job: Job, entries: seq<Entry>, visited: set<string>, done: nat, at: Entry, results: seq<string>, g: Growth)
    requires Tracked(job, entries, visited) && done < |entries| && entries[done] == at
    requires g == GrowthAt(job, at, visited, results)
    ensures Tracked(job, entries + g.added, g.visited)
  {
    hide Tracked;
    if Follows(job, at, results) {
      GrowTracks(job, entries, visited, done, at, job.web.page(at.url).value);
    } else {
      assert entries + g.added == entries;
    }
  }

  /** A turn that goes on keeps what holds between turns. */
  lemma TurnKeeps(job: Job, entries: seq<Entry>, visited: set<string>, done: nat, queue: seq<Entry>,
                  results: seq<string>, from: seq<nat>, turn: Turn)
    returns (from': seq<nat>)
    requires Running(job, entries, visited, done, queue, results, from)
    requires turn == TurnOf(job, queue, visited, results) && turn.Go?
    ensures Running(job, entries + turn.added, turn.visited, done + 1, queue[1..] + turn.added, turn.results, from')
  {
    hide Tracked, Picks;
    var at := queue[0];
    var g := GrowthAt(job, at, visited, results);
    TurnShape(job, queue, visited, results, at, g);
    assert turn.added == g.added && turn.visited == g.visited;
    NextQueue(entries, done, queue, g.added);
    GrowthTracks(job, entries, visited, done, at, results, g);
    PicksNext(job.web, entries, g.added, done, results, from);
    from' := if job.web.page(at.url).None? then from else from + [done];
  }

  /** What a traversal may return, whatever the caps. */
  ghost predicate SoundOutcome(job: Job, r: Result<seq<string>, string>) {
    match r
    case Failure(url) => job.web.canon(url).None?
    case Success(urls) => Sound(job, urls) && (|urls| <= job.maxPages || urls == [])
  }

  /** Results are loadable pages in range, each listed once, within the page cap. */
  lemma {:induction false} TraverseSound(job: Job, entries: seq<Entry>, visited: set<string>, done: nat, queue: seq<Entry>,
                                         results: seq<string>, from: seq<nat>)
    requires Running(job, entries, visited, done, queue, results, from)
    ensures SoundOutcome(job, Traverse(job, queue, visited, results))
    decreases job.maxPages - |results|, |queue|
  {
    var turn := TurnOf(job, queue, visited, results);
    match turn
    case Stop => PicksSound(job, entries, visited, done, results, from);
    case Bad(_) =>
    case Go(added, visited', results') =>
      var from' := TurnKeeps(job, entries, visited, done, queue, results, from, turn);
      TraverseSound(job, entries + added, visited', done + 1, queue[1..] + added, results', from');
  }

  /** With room for everything, each turn expands one more entry completely. */
  lemma TurnExpands(job: Job, universe: set<string>, entries: seq<Entry>, visited: set<string>, done: nat, queue: seq<Entry>,
                    results: seq<string>, from: seq<nat>, turn: Turn)
    requires Coherent(job.web) && Roomy(job, universe)
    requires Running(job, entries, visited, done, queue, results, from) && Layers(job, entries, done)
    requires turn == TurnOf(job, queue, visited, results) && turn.Go?
    ensures Canonical(job.web, entries + turn.added) && Layers(job, entries + turn.added, done + 1)
  {
    var at := queue[0];
    var g := GrowthAt(job, at, visited, results);
    TurnShape(job, queue, visited, results, at, g);
    var added := turn.added;
    assert added == g.added && g.bad.None? && at == entries[done];
    assert Canonical(job.web, entries);
    hide *;
    GrowthExpands(job, universe, entries, visited, done, at, results, from, g);
  }

  lemma GrowthExpands(job: Job, universe: set<string>, entries: seq<Entry>, visited: set<string>, done: nat, at: Entry,
                      results: seq<string>, from: seq<nat>, g: Growth)
    requires Coherent(job.web) && Roomy(job, universe)
    requires Tracked(job, entries, visited) && Layers(job, entries, done) && Picks(job.web, entries, done, results, from)
    requires done < |entries| && entries[done] == at && Canonical(job.web, entries)
    requires g == GrowthAt(job, at, visited, results) && g.bad.None?
    ensures Canonical(job.web, entries + g.added) && Layers(job, entries + g.added, done + 1)
  {
    hide Tracked, Layers, Roomy, Picks, Canonical;
    if Follows(job, at, results) {
      GrowExpands(job, universe, entries, visited, done, at, {}, job.web.page(at.url).value);
      AdvanceLayer(job, entries + g.added, done);
    } else {
      if job.web.page(at.url).None? {
        FailedPage(job, entries, done);
      } else {
        UnexpandedPage(job, universe, entries, visited, done, results, from);
      }
      assert entries + g.added == entries;
      AdvanceLayer(job, entries, done);
    }
  }

  lemma AdvanceLayer(job: Job, entries: seq<Entry>, done: nat)
    requires Canonical(job.web, entries) && done < |entries| && Layers(job, entries, done)
    requires Expanded(Edge(job.web), Nodes(job.web, entries), Limit(job), done)
    ensures Layers(job, entries, done + 1)
  {
    Advance(Edge(job.web), Starts(job), Limit(job), Nodes(job.web, entries), done);
  }

  ghost predicate CompleteOutcome(job: Job, r: Result<seq<string>, string>) {
    r.Success? ==> CompleteCrawl(job, r.value)
  }

  /** With room for everything in range, the results are all of it, nearest first. */
  lemma {:induction false} TraverseComplete(job: Job, universe: set<string>, entries: seq<Entry>, visited: set<string>, done: nat,
                                            queue: seq<Entry>, results: seq<string>, from: seq<nat>)
    requires Coherent(job.web) && Roomy(job, universe)
    requires Running(job, entries, visited, done, queue, results, from) && Layers(job, entries, done)
    ensures CompleteOutcome(job, Traverse(job, queue, visited, results))
    decreases job.maxPages - |results|, |queue|
  {
    var turn := TurnOf(job, queue, visited, results);
    match turn
    case Stop =>
      AllExpanded(job, universe, entries, visited, done, results, from);
      Harvest(job, entries, visited, results, from);
    case Bad(_) =>
    case Go(added, visited', results') =>
      var from' := TurnKeeps(job, entries, visited, done, queue, results, from, turn);
      TurnExpands(job, universe, entries, visited, done, queue, results, from, turn);
      TraverseComplete(job, universe, entries + added, visited', done + 1, queue[1..] + added, results', from');
  }

  /**
   The crawl.  `universe` only takes part in the specification: if it holds everything within
   range and is no larger than `maxPages`, the result is complete and nearest-first.
   */
  method CrawlSite(job: Job, ghost universe: set<string>) returns (r: Result<seq<string>, string>)
    ensures SoundOutcome(job, r)
    ensures Coherent(job.web) && Roomy(job, universe) ==> CompleteOutcome(job, r)
    ensures StartsFail(job) ==> r.Failure?
    ensures r.Success? && job.maxPages > 0 ==> FirstLoadable(job.web, StartUrls(job), r.value)
  {
    var bad, queue, visited := QueueStarts(job, universe);
    if bad.Some? {
      return Failure(bad.value);
    }
    StartsGive(job, universe, queue, visited);
    if job.maxPages > 0 {
      TraverseFirst(job, queue, visited);
    }
    r := RunQueue(job, queue, visited);
  }

  /** The traversal loop. */
  method RunQueue(job: Job, queue0: seq<Entry>, visited0: set<string>) returns (r: Result<seq<string>, string>)
    ensures r == Traverse(job, queue0, visited0, [])
  {
    hide Traverse, TurnOf, Grow;
    var bad, queue, visited := None, queue0, visited0;
    var results: seq<string> := [];
    while |queue| > 0 && |results| < job.maxPages
      invariant Traverse(job, queue, visited, results) == Traverse(job, queue0, visited0, [])
      decreases job.maxPages - |results|, |queue|
    {
      var at := queue[0];
      ghost var g := GrowthAt(job, at, visited, results);
      TurnShape(job, queue, visited, results, at, g);
      TraverseTurn(job, queue, visited, results);
      queue := queue[1..];
      if job.web.page(at.url).None? {
        assert queue + [] == queue;
        continue;
      }
      results := results + [at.url];
      if |results| < job.maxPages && at.depth < job.maxDepth {
        bad, queue, visited := QueueLinks(job.web, job.web.page(at.url).value, queue, visited, job.maxPages, at.depth + 1);
        if bad.Some? {
          return Failure(bad.value);
        }
      } else {
        assert queue + [] == queue;
      }
    }
    TraverseStops(job, queue, visited, results);
    return Success(results);
  }

  lemma TraverseTurn(job: Job, queue: seq<Entry>, visited: set<string>, results: seq<string>)
    requires queue != [] && |results| < job.maxPages
    ensures match TurnOf(job, queue, visited, results)
            case Stop => true
            case Bad(url) => Traverse(job, queue, visited, results) == Failure(url)
            case Go(added, visited', results') =>
              Traverse(job, queue, visited, results) == Traverse(job, queue[1..] + added, visited', results')
  {
  }

  lemma TraverseStops(job: Job, queue: seq<Entry>, visited: set<string>, results: seq<string>)
    requires queue == [] || |results| >= job.maxPages
    ensures Traverse(job, queue, visited, results) == Success(results)
  {
  }

  lemma StartsGive(job: Job, universe: set<string>, queue: seq<Entry>, visited: set<string>)
    requires Tracked(job, queue, visited)
    requires Roomy(job, universe) ==> Layers(job, queue, 0)
    ensures SoundOutcome(job, Traverse(job, queue, visited, []))
    ensures Coherent(job.web) && Roomy(job, universe) ==> CompleteOutcome(job, Traverse(job, queue, visited, []))
  {
    assert queue[0..] == queue;
    TraverseSound(job, queue, visited, 0, queue, [], []);
    if Coherent(job.web) && Roomy(job, universe) {
      TraverseComplete(job, universe, queue, visited, 0, queue, [], []);
    }
  }

  // ------------------------------------------------------------- what is crawled first

  /** No page is listed twice. */
  lemma {:induction false} FirstOfEachDistinct(web: Web, urls: seq<string>)
    ensures var list := FirstOfEach(web, urls);
            && (forall i, j :: 0 <= i < j < |list| ==> web.canon(list[i]) != web.canon(list[j]))
            && (forall u :: u in list ==> u in urls && web.canon(u).Some?)
            && (urls != [] && web.canon(urls[0]).Some? ==> list != [] && list[0] == urls[0])
  {
    if urls != [] {
      var front, last := urls[..|urls| - 1], urls[|urls| - 1];
      FirstOfEachDistinct(web, front);
      assert urls == front + [last];
    }
  }

  /** No page of the list is missing. */
  lemma {:induction false} FirstOfEachComplete(web: Web, urls: seq<string>, u: string)
    requires u in urls && web.canon(u).Some?
    ensures Listed(web, FirstOfEach(web, urls), u)
  {
    var front, last := urls[..|urls| - 1], urls[|urls| - 1];
    var earlier, list := FirstOfEach(web, front), FirstOfEach(web, urls);
    if u in front {
      FirstOfEachComplete(web, front, u);
      var e :| e in earlier && web.canon(e) == web.canon(u);
      assert e in list;
    } else {
      assert u == last;
      if !Listed(web, earlier, u) {
        assert list == earlier + [u];
        assert u in list;
      }
    }
  }

  /**
   The start URL's page heads the queue exactly when the sitemap is empty, the cap lets none of it in,
   or its first URL is the start's page.
   */
  lemma StartHeadsQueueExactly(job: Job)
    requires !StartsFail(job)
    ensures StartUrls(job) != []
    ensures job.web.canon(StartUrls(job)[0]) == job.web.canon(job.start) <==>
            job.sitemap == [] || job.maxPages <= 0 || job.web.canon(job.sitemap[0]) == job.web.canon(job.start)
  {
    FirstOfEachDistinct(job.web, job.sitemap);
    if job.sitemap != [] && job.maxPages > 0 {
      assert job.sitemap[..0] == [];
      assert !FailsAt(job, 0);
      assert StartUrls(job)[0] == job.sitemap[0];
    }
  }

  /** The first result is the first queued URL that loads; without one there is no result. */
  ghost predicate FirstLoadable(web: Web, queued: seq<string>, urls: seq<string>) {
    if urls == [] then forall u :: u in queued ==> web.page(u).None?
    else exists i :: FirstToLoad(web, queued, i) && urls[0] == queued[i]
  }

  ghost predicate FirstToLoad(web: Web, queued: seq<string>, i: int) {
    0 <= i < |queued| && web.page(queued[i]).Some? && forall j :: 0 <= j < i ==> web.page(queued[j]).None?
  }

  lemma {:induction false} ResultsExtend(job: Job, queue: seq<Entry>, visited: set<string>, results: seq<string>)
    ensures Traverse(job, queue, visited, results).Success? ==> results <= Traverse(job, queue, visited, results).value
    decreases job.maxPages - |results|, |queue|
  {
    match TurnOf(job, queue, visited, results)
    case Go(added, visited', results') => ResultsExtend(job, queue[1..] + added, visited', results');
    case _ =>
  }

  lemma {:induction false} TraverseFirst(job: Job, queue: seq<Entry>, visited: set<string>)
    requires job.maxPages > 0
    ensures Traverse(job, queue, visited, []).Success? ==>
              FirstLoadable(job.web, Urls(queue), Traverse(job, queue, visited, []).value)
    decreases |queue|
  {
    if queue != [] {
      var turn, urls := TurnOf(job, queue, visited, []), Urls(queue);
      if job.web.page(queue[0].url).None? {
        assert queue[1..] + [] == queue[1..];
        TraverseFirst(job, queue[1..], visited);
        assert Urls(queue[1..]) == urls[1..];
        NextToLoad(job.web, urls, Traverse(job, queue, visited, []));
      } else if turn.Go? {
        ResultsExtend(job, queue[1..] + turn.added, turn.visited, turn.results);
        assert FirstToLoad(job.web, urls, 0) && turn.results[0] == urls[0];
      }
    }
  }

  lemma NextToLoad(web: Web, urls: seq<string>, r: Result<seq<string>, string>)
    requires urls != [] && web.page(urls[0]).None?
    requires r.Success? ==> FirstLoadable(web, urls[1..], r.value)
    ensures r.Success? ==> FirstLoadable(web, urls, r.value)
  {
    if r.Success? {
      if r.value == [] {
        assert forall u :: u in urls <==> u == urls[0] || u in urls[1..];
      } else {
        var i :| FirstToLoad(web, urls[1..], i) && r.value[0] == urls[1..][i];
        assert FirstToLoad(web, urls, i + 1);
      }
    }
  }

  /**
   The start URL's page is the first result exactly when it loads and every page queued ahead of it does
   not.
   */
  lemma StartIsFirstExactly(job: Job, urls: seq<string>)
    requires !StartsFail(job) && FirstLoadable(job.web, StartUrls(job), urls)
    ensures urls != [] && job.web.canon(urls[0]) == job.web.canon(job.start) <==>
            exists i :: FirstToLoad(job.web, StartUrls(job), i) && job.web.canon(StartUrls(job)[i]) == job.web.canon(job.start)
  {
  }

  /** When every queued page loads, that is again only when the start's page heads the queue. */
  lemma StartIsFirstWhenAllLoad(job: Job, urls: seq<string>)
    requires !StartsFail(job) && FirstLoadable(job.web, StartUrls(job), urls)
    requires forall u :: u in StartUrls(job) ==> job.web.page(u).Some?
    ensures urls != []
    ensures job.web.canon(urls[0]) == job.web.canon(job.start) <==>
            job.sitemap == [] || job.maxPages <= 0 || job.web.canon(job.sitemap[0]) == job.web.canon(job.start)
  {
    StartHeadsQueueExactly(job);
    assert StartUrls(job)[0] in StartUrls(job);
  }

  /** Two pages that load, one of them in the sitemap: it is crawled before the start URL. */
  lemma SitemapGoesFirst(start: string, listed: string, maxPages: int, maxDepth: int)
    requires listed != start && maxPages > 0
    ensures var job := Job(Web((u: string) => Some(u), (u: string) => Some([])), start, [listed], maxPages, maxDepth);
            && !StartsFail(job) && StartUrls(job) == [listed, start]
            && forall urls :: FirstLoadable(job.web, StartUrls(job), urls) ==> urls != [] && urls[0] == listed
  {
    var job := Job(Web((u: string) => Some(u), (u: string) => Some([])), start, [listed], maxPages, maxDepth);
    assert [listed][..0] == [];
    assert FirstOfEach(job.web, [listed]) == [listed];
    assert forall u :: Listed(job.web, [listed], u) <==> u == listed by {
      assert listed in [listed];
    }
    assert [listed, start][0] in [listed, start];
  }
}
