/**
 What submitting URLs leaves behind, said without the submission itself: which URLs of a list are queued
 and in what order, which keys become visited, and which counter each refusal raises.
 */
module SchedulerSubmissions {
  import opened Basics
  import opened SchedulerModel
  import opened SchedulerSafety
  import opened SchedulerClosure
  import CrawlScheduler

  // ------------------------------------------------------------- one URL

  /** Nothing but its depth and a repetition can keep the URL out. */
  predicate Fits(site: Site, cfg: Config, base: string, keys: set<string>, raw: string, depth: int) {
    depth <= cfg.maxDepth && Acceptable(site, base, raw) && site.key(site.canon(raw).value) !in keys
  }

  /**
   A submission queues its URL, with the canonical form, source, kind and depth it was submitted with, exactly
   when it fits; it then marks the key and schedules one wake-up, and otherwise neither.
   */
  lemma OfferExactly(site: Site, cfg: Config, s: State, raw: string, source: string, kind: string, depth: int)
    ensures var t := Offer(site, cfg, s, raw, source, kind, depth);
            if !s.cancelled && Fits(site, cfg, s.base, s.keys, raw, depth) then
              && t.queue == s.queue + [Item(raw, site.canon(raw).value, source, kind, depth)]
              && t.keys == s.keys + {site.key(site.canon(raw).value)}
              && t.discovered == s.discovered + 1 && t.pending == s.pending + 1
              && t.diag == s.diag && t.skipped == s.skipped
            else
              t.queue == s.queue && t.keys == s.keys && t.discovered == s.discovered && t.pending == s.pending
    ensures Offer(site, cfg, s, raw, source, kind, depth).offered == s.offered + if s.cancelled then 0 else 1
    ensures s.cancelled ==> Offer(site, cfg, s, raw, source, kind, depth) == s
  {
  }

  const COUNTERS := {"external_host", "duplicate", "non_html", "resource", "api", "max_depth", "max_pages", "invalid_url",
                     "robots_blocked"}

  /** Exactly the counter of that name went up, by one. */
  ghost predicate OnlyRaised(before: Diagnostics, after: Diagnostics, name: string) {
    && name in COUNTERS
    && forall n :: n in COUNTERS ==>
         && before.Get(n).Some? && after.Get(n).Some?
         && after.Get(n).value == before.Get(n).value + if n == name then 1 else 0
  }

  function NameOf(r: Reason): string {
    match r
    case ExternalHost => "external_host"
    case Duplicate => "duplicate"
    case NonHtml => "non_html"
    case ResourceUrl => "resource"
    case ApiUrl => "api"
    case MaxDepth => "max_depth"
    case MaxPages => "max_pages"
    case InvalidUrl => "invalid_url"
    case RobotsBlocked => "robots_blocked"
  }

  lemma BumpRaises(d: Diagnostics, r: Reason)
    ensures OnlyRaised(d, d.Bump(r), NameOf(r))
  {
    assert d.Bump(r).Get(NameOf(r)) == Some(d.Get(NameOf(r)).value + 1);
  }

  lemma PatternNames(reason: string)
    ensures NameOf(ReasonOfPattern(reason)) == if reason in COUNTERS then reason else "non_html"
  {
  }

  /** Which counter a refusal raises: the first test that fails names it. */
  lemma RefusalsCounted(site: Site, cfg: Config, s: State, raw: string, source: string, kind: string, depth: int)
    requires !s.cancelled
    ensures var after, c := Offer(site, cfg, s, raw, source, kind, depth).diag, site.canon(raw);
            && (depth > cfg.maxDepth ==> OnlyRaised(s.diag, after, "max_depth"))
            && (depth <= cfg.maxDepth && c.None? ==> OnlyRaised(s.diag, after, "invalid_url"))
            && (depth <= cfg.maxDepth && c.Some? && site.ignored(c.value).Some? ==>
                  var reason := site.ignored(c.value).value;
                  OnlyRaised(s.diag, after, if reason in COUNTERS then reason else "non_html"))
            && (depth <= cfg.maxDepth && c.Some? && site.ignored(c.value).None? ==>
                  match site.classify(c.value, s.base)
                  case External => OnlyRaised(s.diag, after, "external_host")
                  case Resource => OnlyRaised(s.diag, after, "resource")
                  case Api => OnlyRaised(s.diag, after, "api")
                  case Invalid => OnlyRaised(s.diag, after, "invalid_url")
                  case Fragment => OnlyRaised(s.diag, after, "invalid_url")
                  case Html => (site.blocked(c.value) ==> OnlyRaised(s.diag, after, "robots_blocked"))
                               && (!site.blocked(c.value) && site.key(c.value) in s.keys ==> OnlyRaised(s.diag, after, "duplicate"))
                  case _ => OnlyRaised(s.diag, after, "non_html"))
  {
    var v := Judge(site, cfg, s, raw, depth);
    if v.Reject? {
      BumpRaises(s.diag, v.reason);
    } else if v.Skip? {
      BumpRaises(s.diag, ReasonOfPattern(v.pattern));
      PatternNames(v.pattern);
    }
    hide OnlyRaised;
  }

  /** A URL on the ignore list is recorded as it was submitted, with its canonical form and the pattern's reason. */
  lemma SkipsRecorded(site: Site, cfg: Config, s: State, raw: string, source: string, kind: string, depth: int)
    ensures var t, c := Offer(site, cfg, s, raw, source, kind, depth), site.canon(raw);
            t.skipped == s.skipped +
                         if !s.cancelled && depth <= cfg.maxDepth && c.Some? && site.ignored(c.value).Some?
                         then [(raw, c.value, site.ignored(c.value).value)] else []
  {
  }

  // ------------------------------------------------------------- a list of URLs

  /** The key a URL would mark, if it passes the tests. */
  function Target(site: Site, base: string): string -> Option<string> {
    raw => if Acceptable(site, base, raw) then Some(site.key(site.canon(raw).value)) else None
  }

  function Targets(target: string -> Option<string>, urls: seq<string>): set<string> {
    set u | u in urls && target(u).Some? :: target(u).value
  }

  lemma TargetsAreLinkKeys(site: Site, base: string, urls: seq<string>)
    ensures Targets(Target(site, base), urls) == LinkKeys(site, base, urls)
  {
  }

  lemma TargetsSplit(target: string -> Option<string>, a: seq<string>, b: seq<string>)
    ensures Targets(target, a + b) == Targets(target, a) + Targets(target, b)
  {
  }

  /** The key of `raw` is there and new: not among `keys`, and of no URL before it. */
  predicate IsNew(target: string -> Option<string>, keys: set<string>, before: seq<string>, raw: string) {
    target(raw).Some? && target(raw).value !in keys + Targets(target, before)
  }

  /** The URLs of a list that pass the tests and whose key is new there. */
  function FirstNew(target: string -> Option<string>, keys: set<string>, urls: seq<string>): seq<string> {
    if urls == [] then []
    else
      var before, raw := urls[..|urls| - 1], urls[|urls| - 1];
      FirstNew(target, keys, before) + if IsNew(target, keys, before, raw) then [raw] else []
  }

  /** The queue items they make. */
  function ItemsOf(site: Site, raws: seq<string>, source: string, kind: string, depth: int): seq<Item> {
    seq(|raws|, i requires 0 <= i < |raws| =>
      Item(raws[i], if site.canon(raws[i]).Some? then site.canon(raws[i]).value else raws[i], source, kind, depth))
  }

  lemma OneTarget(target: string -> Option<string>, raw: string)
    ensures Targets(target, [raw]) == if target(raw).Some? then {target(raw).value} else {}
  {
    assert raw in [raw];
  }

  lemma {:induction false} FirstNewMembers(target: string -> Option<string>, keys: set<string>, urls: seq<string>)
    ensures forall u :: u in FirstNew(target, keys, urls) ==> u in urls && target(u).Some?
  {
    if urls != [] {
      var before, raw := urls[..|urls| - 1], urls[|urls| - 1];
      FirstNewMembers(target, keys, before);
      hide Targets;
      assert urls == before + [raw];
    }
  }

  /** The URLs picked have the new keys of the list: none is missing. */
  lemma {:induction false} FirstNewKeys(target: string -> Option<string>, keys: set<string>, urls: seq<string>)
    ensures Targets(target, FirstNew(target, keys, urls)) == Targets(target, urls) - keys
  {
    if urls != [] {
      var before, raw := urls[..|urls| - 1], urls[|urls| - 1];
      var news := FirstNew(target, keys, before);
      FirstNewKeys(target, keys, before);
      assert urls == before + [raw];
      TargetsSplit(target, before, [raw]);
      TargetsSplit(target, news, [raw]);
      OneTarget(target, raw);
      hide Targets;
      if IsNew(target, keys, before, raw) {
        assert FirstNew(target, keys, urls) == news + [raw];
      } else {
        assert FirstNew(target, keys, urls) == news;
      }
    }
  }

  ghost predicate Differ(target: string -> Option<string>, urls: seq<string>) {
    forall i, j :: 0 <= i < j < |urls| ==> target(urls[i]) != target(urls[j])
  }

  lemma DifferGrows(target: string -> Option<string>, urls: seq<string>, raw: string)
    requires Differ(target, urls) && forall u :: u in urls ==> target(u) != target(raw)
    ensures Differ(target, urls + [raw])
  {
    var all := urls + [raw];
    forall i, j | 0 <= i < j < |all| ensures target(all[i]) != target(all[j]) {
      assert all[i] == urls[i] && urls[i] in urls;
    }
  }

  /** Their keys are all different. */
  lemma {:induction false} FirstNewDistinct(target: string -> Option<string>, keys: set<string>, urls: seq<string>)
    ensures Differ(target, FirstNew(target, keys, urls))
  {
    if urls != [] {
      var before, raw := urls[..|urls| - 1], urls[|urls| - 1];
      var news := FirstNew(target, keys, before);
      hide Differ;
      FirstNewDistinct(target, keys, before);
      if IsNew(target, keys, before, raw) {
        FirstNewMembers(target, keys, before);
        forall u | u in news ensures target(u) != target(raw) {
          assert target(u).value in Targets(target, before);
        }
        DifferGrows(target, news, raw);
      } else {
        assert FirstNew(target, keys, urls) == news;
      }
    } else {
      assert FirstNew(target, keys, urls) == [];
    }
  }

  /** The first URL may be looked at first. */
  lemma {:induction false} FirstNewFront(target: string -> Option<string>, keys: set<string>, raw: string, urls: seq<string>)
    ensures FirstNew(target, keys, [raw] + urls) ==
            (if IsNew(target, keys, [], raw) then [raw] else []) + FirstNew(target, keys + Targets(target, [raw]), urls)
  {
    var all := [raw] + urls;
    if urls == [] {
      assert all == [raw] && [raw][..0] == [];
    } else {
      var before, last := urls[..|urls| - 1], urls[|urls| - 1];
      FirstNewFront(target, keys, raw, before);
      assert all[..|all| - 1] == [raw] + before && all[|all| - 1] == last;
      TargetsSplit(target, [raw], before);
      hide Targets;
      assert keys + Targets(target, [raw] + before) == (keys + Targets(target, [raw])) + Targets(target, before);
      assert IsNew(target, keys, [raw] + before, last) == IsNew(target, keys + Targets(target, [raw]), before, last);
    }
  }

  /** What submitting a list of URLs at one depth leaves: each new key is queued once, at its first acceptable URL. */
  ghost predicate Queued(site: Site, s: State, t: State, urls: seq<string>, source: string, kind: string, depth: int) {
    var news := FirstNew(Target(site, s.base), s.keys, urls);
    && t.keys == s.keys + LinkKeys(site, s.base, urls)
    && t.queue == s.queue + ItemsOf(site, news, source, kind, depth)
    && t.discovered == s.discovered + |news| && t.pending == s.pending + |news|
    && t.offered == s.offered + |urls|
  }

  lemma QueuedNone(site: Site, s: State, source: string, kind: string, depth: int)
    ensures Queued(site, s, s, [], source, kind, depth)
  {
  }

  /** One submission, in the words of the list. */
  ghost predicate QueuedOne(site: Site, s: State, mid: State, raw: string, source: string, kind: string, depth: int) {
    var news := if IsNew(Target(site, s.base), s.keys, [], raw) then [raw] else [];
    && mid.base == s.base && mid.cancelled == s.cancelled && mid.cut == s.cut && mid.offered == s.offered + 1
    && mid.keys == s.keys + Targets(Target(site, s.base), [raw])
    && mid.queue == s.queue + ItemsOf(site, news, source, kind, depth)
    && mid.discovered == s.discovered + |news| && mid.pending == s.pending + |news|
  }

  /** One submission before the others. */
  lemma QueuedFront(site: Site, s: State, mid: State, t: State, raw: string, rest: seq<string>, source: string, kind: string, depth: int)
    requires QueuedOne(site, s, mid, raw, source, kind, depth) && Queued(site, mid, t, rest, source, kind, depth)
    ensures Queued(site, s, t, [raw] + rest, source, kind, depth)
  {
    var target := Target(site, s.base);
    hide Target, Targets, FirstNew, ItemsOf, LinkKeys, IsNew;
    var head, tail := if IsNew(target, s.keys, [], raw) then [raw] else [], FirstNew(target, mid.keys, rest);
    FirstNewFront(target, s.keys, raw, rest);
    assert t.queue == s.queue + ItemsOf(site, head + tail, source, kind, depth) by {
      ItemsOfSplit(site, head, tail, source, kind, depth);
    }
    assert t.keys == s.keys + LinkKeys(site, s.base, [raw] + rest) by {
      TargetsAreLinkKeys(site, s.base, rest);
      TargetsAreLinkKeys(site, s.base, [raw] + rest);
      TargetsSplit(target, [raw], rest);
    }
  }

  lemma ItemsOfSplit(site: Site, a: seq<string>, b: seq<string>, source: string, kind: string, depth: int)
    ensures ItemsOf(site, a + b, source, kind, depth) == ItemsOf(site, a, source, kind, depth) + ItemsOf(site, b, source, kind, depth)
  {
  }

  /** One submission within the depth limit, in the words of the list. */
  lemma OfferQueues(site: Site, cfg: Config, s: State, raw: string, source: string, kind: string, depth: int)
    requires !s.cancelled && depth <= cfg.maxDepth
    ensures QueuedOne(site, s, Offer(site, cfg, s, raw, source, kind, depth), raw, source, kind, depth)
  {
    OfferExactly(site, cfg, s, raw, source, kind, depth);
    OfferSubmits(site, cfg, s, raw, source, kind, depth);
    OneTarget(Target(site, s.base), raw);
    assert Targets(Target(site, s.base), []) == {};
    hide Offer, Acceptable, Targets;
  }

  /**
   The sitemap, for every site and every uncancelled state: the keys grow by those of all its acceptable
   URLs, every URL is answered, and the queue by the first acceptable URL of each new key, in order.
   */
  lemma {:induction false} SitemapExactly(site: Site, cfg: Config, s: State, urls: seq<string>, source: string)
    requires !s.cancelled && cfg.maxDepth >= 0
    ensures Queued(site, s, SubmitSitemap(site, cfg, s, urls, source), urls, source, "sitemap", 0)
    decreases |urls|
  {
    if urls == [] {
      QueuedNone(site, s, source, "sitemap", 0);
    } else {
      var mid := Offer(site, cfg, s, urls[0], source, "sitemap", 0);
      OfferQueues(site, cfg, s, urls[0], source, "sitemap", 0);
      hide Offer, Queued;
      assert mid.base == s.base && !mid.cancelled;
      hide QueuedOne;
      SitemapExactly(site, cfg, mid, urls[1..], source);
      QueuedFront(site, s, mid, SubmitSitemap(site, cfg, mid, urls[1..], source), urls[0], urls[1..], source, "sitemap", 0);
      assert [urls[0]] + urls[1..] == urls;
    }
  }

  /** The seed passes its two tests. */
  predicate SeedFits(site: Site, seed: string) {
    site.canon(seed).Some? && site.ignored(site.canon(seed).value).None?
  }

  /**
   The state the workers start in: the seed first if it is not ignored, whatever its class, and then the
   sitemap's acceptable URLs, each key once.
   */
  lemma StartExactly(site: Site, cfg: Config, base: string, seed: string, sitemap: seq<string>)
    requires cfg.maxDepth >= 0
    ensures var s := Start(site, cfg, base, seed, sitemap);
            var first: set<string> := if SeedFits(site, seed) then {site.key(site.canon(seed).value)} else {};
            && s.keys == first + LinkKeys(site, base, sitemap)
            && s.queue == (if SeedFits(site, seed) then [Item(seed, site.canon(seed).value, seed, "seed", 0)] else [])
                          + ItemsOf(site, FirstNew(Target(site, base), first, sitemap), seed, "sitemap", 0)
            && s.offered == 1 + |sitemap|
  {
    var s1 := SubmitSeed(site, Fresh(cfg, base), seed);
    assert !s1.cancelled && s1.base == base && s1.offered == 1;
    assert s1.queue == if SeedFits(site, seed) then [Item(seed, site.canon(seed).value, seed, "seed", 0)] else [];
    assert s1.keys == if SeedFits(site, seed) then {site.key(site.canon(seed).value)} else {};
    hide SubmitSeed, FirstNew, ItemsOf, LinkKeys, Target;
    SitemapExactly(site, cfg, s1, sitemap, seed);
  }

  /**
   A completed crawl has visited exactly the least set that holds the key of the seed, if it is not ignored, and
   those of the sitemap's acceptable URLs, and is closed under the accepted links of its pages.
   */
  lemma CompletedFromSeedAndSitemap(site: Site, cfg: Config, base: string, seed: string, sitemap: seq<string>,
                                    pages: string -> Page, trace: seq<State>, acts: seq<Action>)
    requires Coherent(site, pages) && HostsKept(site) && site.domainOf(base) != "" && cfg.maxDepth >= 0
    requires IsRun(site, cfg, trace, acts) && RunFollows(pages, trace, acts)
    requires trace[0] == Start(site, cfg, base, seed, sitemap) && Completed(trace[|acts|])
    ensures var first: set<string> := if SeedFits(site, seed) then {site.key(site.canon(seed).value)} else {};
            LeastClosed(site, base, pages, first + LinkKeys(site, base, sitemap), trace[|acts|].keys)
  {
    hide Coherent, HostsKept, StepAt, RunFollows, Completed, LeastClosed, Start;
    VisitsLeastClosedSet(site, cfg, base, seed, sitemap, pages, trace, acts);
    StartExactly(site, cfg, base, seed, sitemap);
  }

  /**
   The links of a page within the depth limit, which a worker submits without being interrupted, are queued one
   deeper in the way the sitemap is.
   */
  lemma {:induction false} LinksExactly(site: Site, cfg: Config, s: State, w: nat)
    requires IsRunning(s, w) && !s.cancelled && s.workers[w].item.depth < cfg.maxDepth
    ensures var item := s.workers[w].item;
            Queued(site, s, CrawlScheduler.SubmitAll(site, cfg, s, w), s.workers[w].todo, item.normalized, "html_link", item.depth + 1)
    decreases |s.workers[w].todo|
  {
    hide Next, Queued, QueuedOne, FirstNew, ItemsOf, LinkKeys;
    var item, todo := s.workers[w].item, s.workers[w].todo;
    if todo == [] {
      QueuedNone(site, s, item.normalized, "html_link", item.depth + 1);
    } else {
      UnfoldSubmitAll(site, cfg, s, w);
      LinkQueues(site, cfg, s, w);
      var next := Next(site, cfg, s, Submit(w));
      hide CrawlScheduler.SubmitAll;
      LinksExactly(site, cfg, next, w);
      QueuedFront(site, s, next, CrawlScheduler.SubmitAll(site, cfg, next, w), todo[0], todo[1..], item.normalized, "html_link",
                  item.depth + 1);
      assert [todo[0]] + todo[1..] == todo;
    }
  }

  lemma UnfoldSubmitAll(site: Site, cfg: Config, s: State, w: nat)
    requires IsRunning(s, w) && s.workers[w].todo != []
    ensures var next := Next(site, cfg, s, Submit(w));
            && IsRunning(next, w) && next.workers[w].item == s.workers[w].item && next.workers[w].todo == s.workers[w].todo[1..]
            && CrawlScheduler.SubmitAll(site, cfg, s, w) == CrawlScheduler.SubmitAll(site, cfg, next, w)
  {
    CrawlScheduler.SubmitKeepsRunning(site, cfg, s, w);
  }

  lemma LinkQueues(site: Site, cfg: Config, s: State, w: nat)
    requires IsRunning(s, w) && !s.cancelled && s.workers[w].item.depth < cfg.maxDepth && s.workers[w].todo != []
    ensures var item := s.workers[w].item;
            QueuedOne(site, s, Next(site, cfg, s, Submit(w)), s.workers[w].todo[0], item.normalized, "html_link", item.depth + 1)
    ensures !Next(site, cfg, s, Submit(w)).cancelled
  {
    var item, todo := s.workers[w].item, s.workers[w].todo;
    OfferQueues(site, cfg, s.(workers := s.workers[w := Running(item, todo[1..], false)]), todo[0], item.normalized, "html_link",
                item.depth + 1);
    hide Offer, Targets, Target, IsNew, ItemsOf;
  }

  /** Beyond the limit none is queued or answered, and the crawl counts as cut off if there was any. */
  lemma {:induction false} LinksBeyond(site: Site, cfg: Config, s: State, w: nat)
    requires IsRunning(s, w) && s.workers[w].item.depth >= cfg.maxDepth
    ensures var todo, t := s.workers[w].todo, CrawlScheduler.SubmitAll(site, cfg, s, w);
            && t.queue == s.queue && t.keys == s.keys && t.offered == s.offered && t.pending == s.pending
            && t.cut == (s.cut || todo != [])
    decreases |s.workers[w].todo|
  {
    if s.workers[w].todo != [] {
      CrawlScheduler.SubmitKeepsRunning(site, cfg, s, w);
      LinksBeyond(site, cfg, Next(site, cfg, s, Submit(w)), w);
    }
  }
}
