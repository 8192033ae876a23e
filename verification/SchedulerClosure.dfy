/**
 Schedule independence: what a crawl visits does not depend on the number of workers or on the
 order in which they move, as long as no cap cuts it short and nobody cancels it.
 */
module SchedulerClosure {
  import opened Basics
  import opened SchedulerModel
  import opened SchedulerSafety
  import opened SchedulerTermination

  /** The links a page submits before its worker ends, and whether it then counts as crawled. */
  datatype Page = Page(links: seq<string>, ok: bool)

  /** The step treats pages as a function of their URL. */
  ghost predicate Follows(pages: string -> Page, s: State, a: Action) {
    match a
    case Take(_, todo) => s.queue != [] ==> todo == pages(s.queue[0].normalized).links
    case Finish(w, ok) =>
      IsRunning(s, w) ==> s.workers[w].todo == [] && ok == pages(s.workers[w].item.normalized).ok
    case _ => true
  }

  ghost predicate RunFollows(pages: string -> Page, trace: seq<State>, acts: seq<Action>)
    requires |trace| == |acts| + 1
  {
    forall i :: 0 <= i < |acts| ==> Follows(pages, trace[i], acts[i])
  }

  /**
   Facts about the URL functions: hosts of one site classify alike, normalising a host keeps its
   site, and URLs with one deduplication key are one page.
   */
  ghost predicate Coherent(site: Site, pages: string -> Page) {
    && (forall u, g, h :: SameSite(site, g, h) ==> site.classify(u, g) == site.classify(u, h))
    && (forall h :: site.domainOf(site.normHost(h)) == site.domainOf(h))
    && (forall a, b :: site.key(a) == site.key(b) ==> pages(a).links == pages(b).links)
  }

  /** The tests of `submit_discovered_url` that do not look at the scheduler's state. */
  predicate Acceptable(site: Site, base: string, raw: string) {
    match site.canon(raw)
    case None => false
    case Some(c) => site.ignored(c).None? && site.classify(c, base) == Html && !site.blocked(c)
  }

  function LinkKeys(site: Site, base: string, links: seq<string>): set<string> {
    set l | l in links && Acceptable(site, base, l) :: site.key(site.canon(l).value)
  }

  /** `ks` contains the keys of every acceptable link of every page in it. */
  ghost predicate Closed(site: Site, base: string, pages: string -> Page, ks: set<string>) {
    forall c: string :: site.key(c) in ks ==> LinkKeys(site, base, pages(c).links) <= ks
  }

  ghost predicate LeastClosed(site: Site, base: string, pages: string -> Page, starts: set<string>, ks: set<string>) {
    && starts <= ks && Closed(site, base, pages, ks)
    && forall other: set<string> :: starts <= other && Closed(site, base, pages, other) ==> ks <= other
  }

  // ------------------------------------------------------------- the base host stays on its site

  ghost predicate BaseInv(site: Site, base: string, s: State) {
    site.domainOf(s.base) == site.domainOf(base) != "" && s.base != ""
  }

  ghost predicate HostsKept(site: Site) {
    && site.domainOf("") == ""
    && forall h :: site.domainOf(site.normHost(h)) == site.domainOf(h)
  }

  lemma StepKeepsBase(site: Site, cfg: Config, base: string, s: State, a: Action)
    requires HostsKept(site) && BaseInv(site, base, s) && Enabled(cfg, s, a)
    ensures BaseInv(site, base, Next(site, cfg, s, a))
  {
    if a.Submit? {
      SubmitShape(site, cfg, s, a.w);
    }
  }

  /** A redirect within the site makes its host, normalised, the one later links are classified against; no other does. */
  lemma RedirectAdopted(site: Site, cfg: Config, s: State, w: nat, host: string)
    requires Enabled(cfg, s, Rebase(w, host))
    ensures var s' := Next(site, cfg, s, Rebase(w, host));
            && s'.base == (if s.base == "" || (site.domainOf(host) == site.domainOf(s.base) != "") then site.normHost(host) else s.base)
            && s'.queue == s.queue && s'.keys == s.keys && s'.diag == s.diag && s'.active == s.active
            && IsRunning(s', w) && s'.workers[w].item == s.workers[w].item && s'.workers[w].todo == s.workers[w].todo
  {
  }

  /** A redirect never moves the crawl off the registered domain it started on. */
  lemma {:induction false} BaseStaysOnSite(site: Site, cfg: Config, base: string, trace: seq<State>, acts: seq<Action>, i: nat)
    requires HostsKept(site) && IsRun(site, cfg, trace, acts) && i < |trace|
    requires BaseInv(site, base, trace[0])
    ensures BaseInv(site, base, trace[i])
  {
    if i > 0 {
      BaseStaysOnSite(site, cfg, base, trace, acts, i - 1);
      assert StepAt(site, cfg, trace, acts, i - 1);
      StepKeepsBase(site, cfg, base, trace[i - 1], acts[i - 1]);
    }
  }

  lemma AcceptableAnyBase(site: Site, pages: string -> Page, base: string, s: State, raw: string)
    requires Coherent(site, pages) && BaseInv(site, base, s)
    ensures Acceptable(site, s.base, raw) == Acceptable(site, base, raw)
  {
    assert SameSite(site, s.base, base);
  }

  // ------------------------------------------------------------- upper bound

  /** Running pages were handed out by the log and still owe only links of their own. */
  ghost predicate PageInv(pages: string -> Page, s: State) {
    forall w :: 0 <= w < |s.workers| && s.workers[w].Running? ==>
      && Taken(s.workers[w].item, true) in s.log
      && forall r :: r in s.workers[w].todo ==> r in pages(s.workers[w].item.normalized).links
  }

  lemma LogOnlyGrows(site: Site, cfg: Config, s: State, a: Action, t: Taken)
    requires Enabled(cfg, s, a) && t in s.log
    ensures t in Next(site, cfg, s, a).log
  {
    if a.Submit? {
      SubmitShape(site, cfg, s, a.w);
    } else if a.Take? || a.Drop? {
      var i :| 0 <= i < |s.log| && s.log[i] == t;
      assert Next(site, cfg, s, a).log[i] == t;
    }
  }

  lemma SubmitKeepsPages(site: Site, cfg: Config, pages: string -> Page, s: State, w: nat)
    requires PageInv(pages, s) && Enabled(cfg, s, Submit(w))
    ensures PageInv(pages, Next(site, cfg, s, Submit(w)))
  {
    SubmitShape(site, cfg, s, w);
    hide Next;
  }

  lemma QuietStepKeepsPages(site: Site, cfg: Config, pages: string -> Page, s: State, a: Action)
    requires PageInv(pages, s) && Enabled(cfg, s, a) && !a.Submit? && !a.Take?
    ensures PageInv(pages, Next(site, cfg, s, a))
  {
    var s' := Next(site, cfg, s, a);
    forall t | t in s.log ensures t in s'.log {
      LogOnlyGrows(site, cfg, s, a, t);
    }
    forall v | 0 <= v < |s'.workers| && s'.workers[v].Running?
      ensures s.workers[v].Running? && s'.workers[v].item == s.workers[v].item && s'.workers[v].todo == s.workers[v].todo
    {
    }
  }

  lemma StepKeepsPages(site: Site, cfg: Config, pages: string -> Page, s: State, a: Action)
    requires PageInv(pages, s) && Enabled(cfg, s, a) && Follows(pages, s, a)
    ensures PageInv(pages, Next(site, cfg, s, a))
  {
    if a.Submit? {
      hide Next, PageInv;
      SubmitKeepsPages(site, cfg, pages, s, a.w);
    } else if a.Take? {
      var s' := Next(site, cfg, s, a);
      forall t | t in s.log ensures t in s'.log {
        LogOnlyGrows(site, cfg, s, a, t);
      }
      assert s'.log[|s.log|] == Taken(s.queue[0], true);
    } else {
      hide Next, PageInv;
      QuietStepKeepsPages(site, cfg, pages, s, a);
    }
  }

  lemma LogKeyVisited(site: Site, s: State, item: Item, handed: bool)
    requires ItemInv(site, s) && Taken(item, handed) in s.log
    ensures site.key(item.normalized) in s.keys
  {
    var i :| 0 <= i < |s.log| && s.log[i] == Taken(item, handed);
    assert AllItems(s)[i] == item;
  }

  lemma StepStaysInside(site: Site, cfg: Config, base: string, pages: string -> Page, s: State, a: Action, ks: set<string>)
    requires Coherent(site, pages) && BaseInv(site, base, s) && ItemInv(site, s) && PageInv(pages, s)
    requires Enabled(cfg, s, a) && Closed(site, base, pages, ks) && s.keys <= ks
    ensures Next(site, cfg, s, a).keys <= ks
  {
    if a.Submit? {
      var item, todo := s.workers[a.w].item, s.workers[a.w].todo;
      var mid := s.(workers := s.workers[a.w := Running(item, todo[1..], false)]);
      var v := Judge(site, cfg, mid, todo[0], item.depth + 1);
      if item.depth + 1 <= cfg.maxDepth && v.Accept? {
        LogKeyVisited(site, s, item, true);
        AcceptableAnyBase(site, pages, base, s, todo[0]);
        assert site.key(v.canonical) in LinkKeys(site, base, pages(item.normalized).links);
      }
    }
  }

  // ------------------------------------------------------------- lower bound

  /** A link is either visited or still on the list of the worker running its page. */
  ghost predicate LinkSeen(site: Site, s: State, item: Item, raw: string)
    requires site.canon(raw).Some?
  {
    || site.key(site.canon(raw).value) in s.keys
    || exists w :: 0 <= w < |s.workers| && s.workers[w].Running? && s.workers[w].item == item && raw in s.workers[w].todo
  }

  /** The links of a page within the depth limit are seen, and all links are while none was cut off. */
  ghost predicate CoverInv(site: Site, cfg: Config, base: string, pages: string -> Page, s: State) {
    forall item, raw ::
      Taken(item, true) in s.log && (item.depth < cfg.maxDepth || !s.cut)
      && raw in pages(item.normalized).links && Acceptable(site, base, raw)
      ==> LinkSeen(site, s, item, raw)
  }

  lemma StepKeepsLinkSeen(site: Site, cfg: Config, base: string, pages: string -> Page, s: State, a: Action,
                          item: Item, raw: string)
    requires Coherent(site, pages) && BaseInv(site, base, s)
    requires Enabled(cfg, s, a) && Follows(pages, s, a)
    requires Acceptable(site, base, raw) && LinkSeen(site, s, item, raw)
    requires !s.cancelled && (item.depth < cfg.maxDepth || !Next(site, cfg, s, a).cut)
    ensures LinkSeen(site, Next(site, cfg, s, a), item, raw)
  {
    var s' := Next(site, cfg, s, a);
    if a.Submit? {
      SubmitShape(site, cfg, s, a.w);
    }
    if site.key(site.canon(raw).value) !in s.keys {
      var w :| 0 <= w < |s.workers| && s.workers[w].Running? && s.workers[w].item == item && raw in s.workers[w].todo;
      if a.Submit? && a.w == w {
        var todo := s.workers[w].todo;
        if raw == todo[0] {
          AcceptableAnyBase(site, pages, base, s, raw);
          assert site.key(site.canon(raw).value) in s'.keys;
        } else {
          assert raw in todo[1..];
          assert s'.workers[w].Running? && s'.workers[w].item == item && raw in s'.workers[w].todo;
        }
      } else {
        assert s'.workers[w].Running? && s'.workers[w].item == item && raw in s'.workers[w].todo;
      }
    }
  }

  lemma StepKeepsCover(site: Site, cfg: Config, base: string, pages: string -> Page, s: State, a: Action)
    requires Coherent(site, pages) && BaseInv(site, base, s) && CoverInv(site, cfg, base, pages, s)
    requires Enabled(cfg, s, a) && Follows(pages, s, a)
    requires !s.cancelled
    ensures CoverInv(site, cfg, base, pages, Next(site, cfg, s, a))
  {
    var s' := Next(site, cfg, s, a);
    forall item, raw | Taken(item, true) in s'.log && (item.depth < cfg.maxDepth || !s'.cut)
                       && raw in pages(item.normalized).links && Acceptable(site, base, raw)
      ensures LinkSeen(site, s', item, raw)
    {
      if Taken(item, true) in s.log {
        if s.cut {
          CutSticks(site, cfg, s, a);
        }
        StepKeepsLinkSeen(site, cfg, base, pages, s, a, item, raw);
      } else {
        NewestLogEntry(site, cfg, s, a, item);
        assert s'.workers[a.w].item == item && raw in s'.workers[a.w].todo;
      }
    }
  }

  lemma CutSticks(site: Site, cfg: Config, s: State, a: Action)
    requires Enabled(cfg, s, a) && s.cut
    ensures Next(site, cfg, s, a).cut
  {
    if a.Submit? {
      SubmitShape(site, cfg, s, a.w);
    }
  }

  lemma NewestLogEntry(site: Site, cfg: Config, s: State, a: Action, item: Item)
    requires Enabled(cfg, s, a)
    requires Taken(item, true) in Next(site, cfg, s, a).log && Taken(item, true) !in s.log
    ensures a.Take? && item == s.queue[0]
  {
    if a.Submit? {
      SubmitShape(site, cfg, s, a.w);
    }
  }

  // ------------------------------------------------------------- whole runs

  lemma UncancelledBefore(site: Site, cfg: Config, trace: seq<State>, acts: seq<Action>, i: nat)
    requires IsRun(site, cfg, trace, acts) && i < |trace| && !trace[|acts|].cancelled
    ensures !trace[i].cancelled
  {
    if trace[i].cancelled {
      CancelSticks(site, cfg, trace, acts, i, |acts|);
    }
  }

  lemma {:induction false} RunStaysInside(site: Site, cfg: Config, base: string, pages: string -> Page,
                                          trace: seq<State>, acts: seq<Action>, ks: set<string>, i: nat)
    requires Coherent(site, pages) && HostsKept(site) && IsRun(site, cfg, trace, acts) && RunFollows(pages, trace, acts)
    requires Unstarted(site, cfg, trace[0]) && BaseInv(site, base, trace[0])
    requires trace[0].keys <= ks && Closed(site, base, pages, ks)
    requires i < |trace|
    ensures PageInv(pages, trace[i]) && trace[i].keys <= ks
  {
    if i > 0 {
      hide Closed, Coherent, HostsKept, PageInv, Next, Enabled, Follows, BaseInv;
      RunStaysInside(site, cfg, base, pages, trace, acts, ks, i - 1);
      UnstartedInv(site, cfg, trace[0]);
      RunKeepsInv(site, cfg, trace, acts, i - 1);
      BaseStaysOnSite(site, cfg, base, trace, acts, i - 1);
      assert StepAt(site, cfg, trace, acts, i - 1) && Follows(pages, trace[i - 1], acts[i - 1]);
      StepKeepsPages(site, cfg, pages, trace[i - 1], acts[i - 1]);
      StepStaysInside(site, cfg, base, pages, trace[i - 1], acts[i - 1], ks);
    }
  }

  lemma {:induction false} RunCovers(site: Site, cfg: Config, base: string, pages: string -> Page,
                                     trace: seq<State>, acts: seq<Action>, i: nat)
    requires Coherent(site, pages) && HostsKept(site) && IsRun(site, cfg, trace, acts) && RunFollows(pages, trace, acts)
    requires Unstarted(site, cfg, trace[0]) && BaseInv(site, base, trace[0])
    requires !trace[|acts|].cancelled
    requires i < |trace|
    ensures CoverInv(site, cfg, base, pages, trace[i])
    ensures trace[0].keys <= trace[i].keys
  {
    if i > 0 {
      RunCovers(site, cfg, base, pages, trace, acts, i - 1);
      BaseStaysOnSite(site, cfg, base, trace, acts, i - 1);
      UncancelledBefore(site, cfg, trace, acts, i - 1);
      assert StepAt(site, cfg, trace, acts, i - 1) && Follows(pages, trace[i - 1], acts[i - 1]);
      StepKeepsCover(site, cfg, base, pages, trace[i - 1], acts[i - 1]);
      if acts[i - 1].Submit? {
        SubmitShape(site, cfg, trace[i - 1], acts[i - 1].w);
      }
    }
  }

  /** The crawl ran to its natural end: everyone left, nothing cancelled, cut off or dropped. */
  ghost predicate Completed(s: State) {
    && AllDone(s) && |s.workers| > 0 && !s.cancelled && !s.cut
    && forall i :: 0 <= i < |s.log| ==> s.log[i].handed
  }

  lemma CompletedIsClosed(site: Site, cfg: Config, base: string, pages: string -> Page, s: State)
    requires Coherent(site, pages) && Inv(site, cfg, s) && Completed(s) && CoverInv(site, cfg, base, pages, s)
    ensures Closed(site, base, pages, s.keys)
  {
    assert s.workers[0].Done?;
    assert s.queue == [];
    forall c: string, k | site.key(c) in s.keys && k in LinkKeys(site, base, pages(c).links)
      ensures k in s.keys
    {
      var i :| 0 <= i < |AllItems(s)| && site.key(c) == site.key(AllItems(s)[i].normalized);
      var item := s.log[i].item;
      assert s.log[i] == Taken(item, true);
      var raw :| raw in pages(c).links && Acceptable(site, base, raw) && k == site.key(site.canon(raw).value);
      assert pages(item.normalized).links == pages(c).links;
      assert LinkSeen(site, s, item, raw);
    }
  }

  /**
   A completed crawl has visited exactly the least set that contains the submitted start URLs and
   is closed under the accepted links of its pages.
   */
  lemma VisitsLeastClosedSet(site: Site, cfg: Config, base: string, seed: string, sitemap: seq<string>,
                             pages: string -> Page, trace: seq<State>, acts: seq<Action>)
    requires Coherent(site, pages) && HostsKept(site) && site.domainOf(base) != ""
    requires IsRun(site, cfg, trace, acts) && RunFollows(pages, trace, acts)
    requires trace[0] == Start(site, cfg, base, seed, sitemap)
    requires Completed(trace[|acts|])
    ensures LeastClosed(site, base, pages, trace[0].keys, trace[|acts|].keys)
  {
    StartUnstarted(site, cfg, base, seed, sitemap);
    RunKeepsInv(site, cfg, trace, acts, |acts|);
    RunCovers(site, cfg, base, pages, trace, acts, |acts|);
    CompletedIsClosed(site, cfg, base, pages, trace[|acts|]);
    forall other: set<string> | trace[0].keys <= other && Closed(site, base, pages, other)
      ensures trace[|acts|].keys <= other
    {
      RunStaysInside(site, cfg, base, pages, trace, acts, other, |acts|);
    }
  }

  /** What is submitted before the workers start does not depend on how many there are. */
  lemma {:induction false} SitemapSameKeys(site: Site, cfg: Config, cfg': Config, s: State, s': State,
                                           urls: seq<string>, source: string)
    requires cfg.maxDepth >= 0 && cfg'.maxDepth >= 0
    requires s.keys == s'.keys && s.base == s'.base && !s.cancelled && !s'.cancelled
    ensures SubmitSitemap(site, cfg, s, urls, source).keys == SubmitSitemap(site, cfg', s', urls, source).keys
    decreases |urls|
  {
    if urls != [] {
      SitemapSameKeys(site, cfg, cfg', Offer(site, cfg, s, urls[0], source, "sitemap", 0),
                      Offer(site, cfg', s', urls[0], source, "sitemap", 0), urls[1..], source);
    }
  }

  lemma SameStartKeys(site: Site, cfg: Config, cfg': Config, base: string, seed: string, sitemap: seq<string>)
    requires cfg.maxDepth >= 0 && cfg'.maxDepth >= 0
    ensures Start(site, cfg, base, seed, sitemap).keys == Start(site, cfg', base, seed, sitemap).keys
  {
    SitemapSameKeys(site, cfg, cfg', SubmitSeed(site, Fresh(cfg, base), seed),
                    SubmitSeed(site, Fresh(cfg', base), seed), sitemap, seed);
  }

  lemma LeastClosedUnique(site: Site, base: string, pages: string -> Page, starts: set<string>, a: set<string>, b: set<string>)
    requires LeastClosed(site, base, pages, starts, a) && LeastClosed(site, base, pages, starts, b)
    ensures a == b
  {
    hide Closed;
  }

  /**
   Schedule independence: two completed crawls of one site from the same start URLs have visited
   the same keys, whatever their worker counts, caps and interleavings.
   */
  lemma ScheduleIndependence(site: Site, pages: string -> Page, base: string, seed: string, sitemap: seq<string>,
                             cfg: Config, trace: seq<State>, acts: seq<Action>,
                             cfg': Config, trace': seq<State>, acts': seq<Action>)
    requires Coherent(site, pages) && HostsKept(site) && site.domainOf(base) != ""
    requires cfg.maxDepth >= 0 && cfg'.maxDepth >= 0
    requires IsRun(site, cfg, trace, acts) && RunFollows(pages, trace, acts) && Completed(trace[|acts|])
    requires IsRun(site, cfg', trace', acts') && RunFollows(pages, trace', acts') && Completed(trace'[|acts'|])
    requires trace[0] == Start(site, cfg, base, seed, sitemap)
    requires trace'[0] == Start(site, cfg', base, seed, sitemap)
    ensures trace[|acts|].keys == trace'[|acts'|].keys
    ensures trace[|acts|].discovered == trace'[|acts'|].discovered
  {
    hide Coherent, HostsKept, StepAt, RunFollows, Completed, LeastClosed, Start;
    VisitsLeastClosedSet(site, cfg, base, seed, sitemap, pages, trace, acts);
    VisitsLeastClosedSet(site, cfg', base, seed, sitemap, pages, trace', acts');
    SameStartKeys(site, cfg, cfg', base, seed, sitemap);
    LeastClosedUnique(site, base, pages, trace[0].keys, trace[|acts|].keys, trace'[|acts'|].keys);
    Conservation(site, cfg, base, seed, sitemap, trace, acts, |acts|);
    Conservation(site, cfg', base, seed, sitemap, trace', acts', |acts'|);
  }

  /** Following the pages never blocks a crawl that could otherwise move. */
  lemma FollowerCanMove(site: Site, cfg: Config, pages: string -> Page, s: State)
    requires Inv(site, cfg, s) && !AllDone(s)
    ensures exists a: Action :: !a.Cancel? && Enabled(cfg, s, a) && Follows(pages, s, a)
  {
    DeadlockFree(site, cfg, s);
    var a: Action :| !a.Cancel? && Enabled(cfg, s, a);
    if a.Take? {
      assert Follows(pages, s, Take(a.w, pages(s.queue[0].normalized).links));
    } else if a.Finish? && !Follows(pages, s, a) {
      if s.workers[a.w].todo == [] {
        assert Follows(pages, s, Finish(a.w, pages(s.workers[a.w].item.normalized).ok));
      } else {
        assert Enabled(cfg, s, Submit(a.w)) && Follows(pages, s, Submit(a.w));
      }
    } else {
      assert Follows(pages, s, a);
    }
  }
}
