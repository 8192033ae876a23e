/**
 With one worker the scheduler's FIFO queue makes the crawl breadth-first: it visits exactly the
 keys within `maxDepth` links of the start URLs and records each at its shortest distance.
 With several workers every recorded depth is still the length of a path, though not of a shortest one.
 */
module SchedulerShortest {
  import opened SchedulerModel
  import opened SchedulerSafety
  import opened SchedulerClosure
  import opened ShortestPaths

  ghost predicate LinksTo(site: Site, base: string, pages: string -> Page, k: string, k': string) {
    exists c: string :: site.key(c) == k && k' in LinkKeys(site, base, pages(c).links)
  }

  ghost function EdgeOf(site: Site, base: string, pages: string -> Page): (string, string) -> bool {
    (k, k') => LinksTo(site, base, pages, k, k')
  }

  ghost function NodesOf(site: Site, items: seq<Item>): (nodes: seq<Node>)
    ensures |nodes| == |items|
  {
    seq(|items|, i requires 0 <= i < |items| => Node(site.key(items[i].normalized), items[i].depth))
  }

  /** How many items the single worker has finished expanding. */
  ghost function Expansions(s: State): int
    requires |s.workers| == 1
  {
    if s.workers[0].Running? then |s.log| - 1 else |s.log|
  }

  ghost predicate LayerInv(site: Site, cfg: Config, edge: (string, string) -> bool, starts: set<string>, s: State) {
    && |s.workers| == 1 && Expansions(s) >= 0
    && Bfs(edge, starts, cfg.maxDepth, NodesOf(site, AllItems(s)), Expansions(s))
  }

  /** The links the running page no longer owes all lead to covered keys. */
  ghost predicate OwedInv(site: Site, cfg: Config, base: string, pages: string -> Page, s: State) {
    |s.workers| == 1 && s.workers[0].Running? ==>
      var item, todo := s.workers[0].item, s.workers[0].todo;
      && |s.log| > 0 && s.log[|s.log| - 1] == Taken(item, true)
      && (forall raw :: raw in todo ==> raw in pages(item.normalized).links)
      && (item.depth < cfg.maxDepth ==>
            Settled(site, base, NodesOf(site, AllItems(s)), pages(item.normalized).links, todo, item.depth + 1))
  }

  ghost predicate Settled(site: Site, base: string, nodes: seq<Node>, links: seq<string>, todo: seq<string>, d: int) {
    forall raw :: raw in links && raw !in todo && Acceptable(site, base, raw)
      ==> Covered(nodes, site.key(site.canon(raw).value), d)
  }

  lemma EdgeOfPage(site: Site, base: string, pages: string -> Page, c: string, k: string)
    requires Coherent(site, pages) && EdgeOf(site, base, pages)(site.key(c), k)
    ensures exists raw :: raw in pages(c).links && Acceptable(site, base, raw) && k == site.key(site.canon(raw).value)
  {
    var c' :| site.key(c') == site.key(c) && k in LinkKeys(site, base, pages(c').links);
    assert pages(c').links == pages(c).links;
    var raw :| raw in pages(c').links && Acceptable(site, base, raw) && k == site.key(site.canon(raw).value);
  }

  lemma LinkIsEdge(site: Site, base: string, pages: string -> Page, c: string, raw: string)
    requires raw in pages(c).links && Acceptable(site, base, raw)
    ensures EdgeOf(site, base, pages)(site.key(c), site.key(site.canon(raw).value))
  {
    assert site.key(site.canon(raw).value) in LinkKeys(site, base, pages(c).links);
  }

  /** The node of the running item. */
  lemma RunningNode(site: Site, cfg: Config, base: string, pages: string -> Page, s: State)
    requires |s.workers| == 1 && s.workers[0].Running? && OwedInv(site, cfg, base, pages, s)
    ensures var nodes := NodesOf(site, AllItems(s));
            && 0 <= Expansions(s) < |nodes|
            && nodes[Expansions(s)] == Node(site.key(s.workers[0].item.normalized), s.workers[0].item.depth)
  {
    assert AllItems(s)[|s.log| - 1] == s.workers[0].item;
  }

  /** The running page is expanded once it owes nothing. */
  lemma FinishAdvances(site: Site, cfg: Config, base: string, pages: string -> Page, starts: set<string>, s: State)
    requires Coherent(site, pages)
    requires LayerInv(site, cfg, EdgeOf(site, base, pages), starts, s) && OwedInv(site, cfg, base, pages, s)
    requires s.workers[0].Running? && s.workers[0].todo == []
    ensures Bfs(EdgeOf(site, base, pages), starts, cfg.maxDepth, NodesOf(site, AllItems(s)), |s.log|)
  {
    var edge, nodes, item := EdgeOf(site, base, pages), NodesOf(site, AllItems(s)), s.workers[0].item;
    RunningNode(site, cfg, base, pages, s);
    forall k | item.depth < cfg.maxDepth && edge(site.key(item.normalized), k) ensures Covered(nodes, k, item.depth + 1) {
      EdgeOfPage(site, base, pages, item.normalized, k);
    }
    Advance(edge, starts, cfg.maxDepth, nodes, Expansions(s));
  }

  lemma SubmitState(site: Site, cfg: Config, s: State)
    requires |s.workers| == 1 && s.workers[0].Running? && s.workers[0].todo != [] && !s.cancelled
    ensures var w, s' := s.workers[0], Next(site, cfg, s, Submit(0));
            && s'.workers == [Running(w.item, w.todo[1..], false)] && s'.log == s.log
            && ((s'.queue == s.queue && s'.keys == s.keys) || w.item.depth < cfg.maxDepth)
  {
    var w := s.workers[0];
    assert s.workers[0 := Running(w.item, w.todo[1..], false)] == [Running(w.item, w.todo[1..], false)];
  }

  /** What one submission of an acceptable link does while nothing is cancelled. */
  lemma SubmitOutcome(site: Site, cfg: Config, base: string, pages: string -> Page, s: State)
    requires Coherent(site, pages) && BaseInv(site, base, s) && ItemInv(site, s)
    requires |s.workers| == 1 && s.workers[0].Running? && s.workers[0].todo != [] && !s.cancelled
    ensures var w, s' := s.workers[0], Next(site, cfg, s, Submit(0));
            var raw := w.todo[0];
            if w.item.depth < cfg.maxDepth && Acceptable(site, base, raw) && site.key(site.canon(raw).value) !in s.keys then
              exists item: Item :: item.normalized == site.canon(raw).value && item.depth == w.item.depth + 1
                             && AllItems(s') == AllItems(s) + [item]
            else AllItems(s') == AllItems(s)
  {
    var w, s' := s.workers[0], Next(site, cfg, s, Submit(0));
    var raw := w.todo[0];
    AcceptableAnyBase(site, pages, base, s, raw);
    if w.item.depth < cfg.maxDepth && Acceptable(site, base, raw) && site.key(site.canon(raw).value) !in s.keys {
      var item := Item(raw, site.canon(raw).value, w.item.normalized, "html_link", w.item.depth + 1);
      assert s'.queue == s.queue + [item];
      assert AllItems(s') == AllItems(s) + [item];
    }
  }

  lemma VisitedIsKnown(site: Site, s: State, k: string)
    requires ItemInv(site, s)
    ensures k in s.keys <==> Known(NodesOf(site, AllItems(s)), k)
  {
    var items, nodes := AllItems(s), NodesOf(site, AllItems(s));
    if k in s.keys {
      var i :| 0 <= i < |items| && k == site.key(items[i].normalized);
      assert nodes[i].key == k;
    }
    if Known(nodes, k) {
      var j :| 0 <= j < |nodes| && nodes[j].key == k;
      assert k == site.key(items[j].normalized);
    }
  }

  /** A link that is refused, or found before, changes nothing but the list of links owed. */
  lemma OldLinkKeepsLayers(site: Site, cfg: Config, base: string, pages: string -> Page, starts: set<string>, s: State, s': State)
    requires ItemInv(site, s)
    requires LayerInv(site, cfg, EdgeOf(site, base, pages), starts, s) && OwedInv(site, cfg, base, pages, s)
    requires s.workers[0].Running? && s.workers[0].todo != []
    requires s'.workers == [Running(s.workers[0].item, s.workers[0].todo[1..], false)] && s'.log == s.log
    requires AllItems(s') == AllItems(s)
    requires var w := s.workers[0];
             w.item.depth < cfg.maxDepth && Acceptable(site, base, w.todo[0]) ==> site.key(site.canon(w.todo[0]).value) in s.keys
    ensures LayerInv(site, cfg, EdgeOf(site, base, pages), starts, s') && OwedInv(site, cfg, base, pages, s')
  {
    var w, nodes := s.workers[0], NodesOf(site, AllItems(s));
    if w.item.depth < cfg.maxDepth {
      RunningNode(site, cfg, base, pages, s);
      if Acceptable(site, base, w.todo[0]) {
        var k := site.key(site.canon(w.todo[0]).value);
        VisitedIsKnown(site, s, k);
        SeenIsCovered(EdgeOf(site, base, pages), starts, cfg.maxDepth, nodes, Expansions(s), k);
      }
      assert nodes + [] == nodes;
      SettledNext(site, base, nodes, [], pages(w.item.normalized).links, w.todo, w.item.depth + 1);
    }
  }

  /** The first link owed, not seen before, joins the next layer. */
  lemma NewLinkJoins(site: Site, cfg: Config, base: string, pages: string -> Page, starts: set<string>, s: State, k: string)
    requires ItemInv(site, s)
    requires LayerInv(site, cfg, EdgeOf(site, base, pages), starts, s) && OwedInv(site, cfg, base, pages, s)
    requires s.workers[0].Running? && s.workers[0].todo != [] && s.workers[0].item.depth < cfg.maxDepth
    requires Acceptable(site, base, s.workers[0].todo[0]) && k == site.key(site.canon(s.workers[0].todo[0]).value)
    requires k !in s.keys
    ensures var w := s.workers[0];
            var grown := NodesOf(site, AllItems(s)) + [Node(k, w.item.depth + 1)];
            && Bfs(EdgeOf(site, base, pages), starts, cfg.maxDepth, grown, Expansions(s))
            && Settled(site, base, grown, pages(w.item.normalized).links, w.todo[1..], w.item.depth + 1)
  {
    var w, nodes, edge := s.workers[0], NodesOf(site, AllItems(s)), EdgeOf(site, base, pages);
    hide Bfs, EdgeOf, LinkKeys, Acceptable, Settled, ItemInv, NodesOf, AllItems, Known;
    RunningNode(site, cfg, base, pages, s);
    VisitedIsKnown(site, s, k);
    LinkIsEdge(site, base, pages, w.item.normalized, w.todo[0]);
    Discover(edge, starts, cfg.maxDepth, nodes, Expansions(s), k);
    SettledNext(site, base, nodes, [Node(k, w.item.depth + 1)], pages(w.item.normalized).links, w.todo, w.item.depth + 1);
  }

  lemma NewLinkKeepsLayers(site: Site, cfg: Config, base: string, pages: string -> Page, starts: set<string>,
                           s: State, s': State, item: Item)
    requires ItemInv(site, s)
    requires LayerInv(site, cfg, EdgeOf(site, base, pages), starts, s) && OwedInv(site, cfg, base, pages, s)
    requires s.workers[0].Running? && s.workers[0].todo != [] && s.workers[0].item.depth < cfg.maxDepth
    requires Acceptable(site, base, s.workers[0].todo[0])
    requires item.normalized == site.canon(s.workers[0].todo[0]).value && item.depth == s.workers[0].item.depth + 1
    requires site.key(item.normalized) !in s.keys && AllItems(s') == AllItems(s) + [item]
    requires s'.workers == [Running(s.workers[0].item, s.workers[0].todo[1..], false)] && s'.log == s.log
    ensures LayerInv(site, cfg, EdgeOf(site, base, pages), starts, s') && OwedInv(site, cfg, base, pages, s')
  {
    hide Bfs, EdgeOf, Acceptable, Settled, ItemInv, AllItems;
    NewLinkJoins(site, cfg, base, pages, starts, s, site.key(item.normalized));
    assert NodesOf(site, AllItems(s')) == NodesOf(site, AllItems(s)) + [Node(site.key(item.normalized), item.depth)];
  }

  lemma SubmitKeepsLayers(site: Site, cfg: Config, base: string, pages: string -> Page, starts: set<string>, s: State)
    requires Coherent(site, pages) && BaseInv(site, base, s) && ItemInv(site, s) && !s.cancelled
    requires LayerInv(site, cfg, EdgeOf(site, base, pages), starts, s) && OwedInv(site, cfg, base, pages, s)
    requires s.workers[0].Running? && s.workers[0].todo != []
    ensures LayerInv(site, cfg, EdgeOf(site, base, pages), starts, Next(site, cfg, s, Submit(0)))
    ensures OwedInv(site, cfg, base, pages, Next(site, cfg, s, Submit(0)))
  {
    var w, s' := s.workers[0], Next(site, cfg, s, Submit(0));
    SubmitState(site, cfg, s);
    SubmitOutcome(site, cfg, base, pages, s);
    if w.item.depth < cfg.maxDepth && Acceptable(site, base, w.todo[0]) && site.key(site.canon(w.todo[0]).value) !in s.keys {
      var item: Item :| item.normalized == site.canon(w.todo[0]).value && item.depth == w.item.depth + 1
                        && AllItems(s') == AllItems(s) + [item];
      NewLinkKeepsLayers(site, cfg, base, pages, starts, s, s', item);
    } else {
      OldLinkKeepsLayers(site, cfg, base, pages, starts, s, s');
    }
  }

  lemma SettledNext(site: Site, base: string, nodes: seq<Node>, more: seq<Node>, links: seq<string>, todo: seq<string>, d: int)
    requires todo != [] && Settled(site, base, nodes, links, todo, d)
    requires Acceptable(site, base, todo[0]) ==> Covered(nodes + more, site.key(site.canon(todo[0]).value), d)
    ensures Settled(site, base, nodes + more, links, todo[1..], d)
    ensures more == [] ==> Settled(site, base, nodes, links, todo[1..], d)
  {
    forall raw | raw in links && raw !in todo[1..] && Acceptable(site, base, raw)
      ensures Covered(nodes + more, site.key(site.canon(raw).value), d)
    {
      if raw != todo[0] {
        CoveredGrows(nodes, more, site.key(site.canon(raw).value), d);
      }
    }
    if more == [] {
      assert nodes + more == nodes;
    }
  }

  /** Steps other than a submission leave the items alone. */
  lemma TakeKeepsLayers(site: Site, cfg: Config, base: string, pages: string -> Page, starts: set<string>, s: State, a: Action)
    requires ItemInv(site, s) && LayerInv(site, cfg, EdgeOf(site, base, pages), starts, s)
    requires Enabled(cfg, s, a) && Follows(pages, s, a) && a.Take?
    ensures LayerInv(site, cfg, EdgeOf(site, base, pages), starts, Next(site, cfg, s, a))
    ensures OwedInv(site, cfg, base, pages, Next(site, cfg, s, a))
  {
    TakeOffQueue(site, s, Next(site, cfg, s, a), true);
  }

  lemma FinishKeepsLayers(site: Site, cfg: Config, base: string, pages: string -> Page, starts: set<string>, s: State, a: Action)
    requires Coherent(site, pages)
    requires LayerInv(site, cfg, EdgeOf(site, base, pages), starts, s) && OwedInv(site, cfg, base, pages, s)
    requires Enabled(cfg, s, a) && Follows(pages, s, a) && a.Finish?
    ensures LayerInv(site, cfg, EdgeOf(site, base, pages), starts, Next(site, cfg, s, a))
    ensures OwedInv(site, cfg, base, pages, Next(site, cfg, s, a))
  {
    FinishAdvances(site, cfg, base, pages, starts, s);
    assert AllItems(Next(site, cfg, s, a)) == AllItems(s);
  }

  lemma QuietStepKeepsLayers(site: Site, cfg: Config, base: string, pages: string -> Page, starts: set<string>, s: State, a: Action)
    requires LayerInv(site, cfg, EdgeOf(site, base, pages), starts, s) && OwedInv(site, cfg, base, pages, s)
    requires Enabled(cfg, s, a) && !a.Submit? && !a.Drop? && !a.Take? && !a.Finish?
    ensures LayerInv(site, cfg, EdgeOf(site, base, pages), starts, Next(site, cfg, s, a))
    ensures OwedInv(site, cfg, base, pages, Next(site, cfg, s, a))
  {
    hide Bfs, Settled, EdgeOf;
    var s' := Next(site, cfg, s, a);
    assert AllItems(s') == AllItems(s);
    assert |s'.workers| == 1 && s'.workers[0].Running? == s.workers[0].Running?;
  }

  lemma StepKeepsLayers(site: Site, cfg: Config, base: string, pages: string -> Page, starts: set<string>, s: State, a: Action)
    requires Coherent(site, pages) && BaseInv(site, base, s) && ItemInv(site, s) && !s.cancelled
    requires LayerInv(site, cfg, EdgeOf(site, base, pages), starts, s) && OwedInv(site, cfg, base, pages, s)
    requires Enabled(cfg, s, a) && Follows(pages, s, a) && !a.Drop?
    ensures LayerInv(site, cfg, EdgeOf(site, base, pages), starts, Next(site, cfg, s, a))
    ensures OwedInv(site, cfg, base, pages, Next(site, cfg, s, a))
  {
    if a.Submit? {
      SubmitKeepsLayers(site, cfg, base, pages, starts, s);
    } else if a.Take? {
      TakeKeepsLayers(site, cfg, base, pages, starts, s, a);
    } else if a.Finish? {
      FinishKeepsLayers(site, cfg, base, pages, starts, s, a);
    } else {
      QuietStepKeepsLayers(site, cfg, base, pages, starts, s, a);
    }
  }

  // ------------------------------------------------------------- the start layer

  ghost predicate Shallow(s: State) {
    forall i :: 0 <= i < |s.queue| ==> s.queue[i].depth == 0
  }

  lemma {:induction false} SitemapShallow(site: Site, cfg: Config, s: State, urls: seq<string>, source: string)
    requires Shallow(s)
    ensures Shallow(SubmitSitemap(site, cfg, s, urls, source))
    decreases |urls|
  {
    if urls != [] {
      SitemapShallow(site, cfg, Offer(site, cfg, s, urls[0], source, "sitemap", 0), urls[1..], source);
    }
  }

  lemma StartIsShallow(site: Site, cfg: Config, base: string, seed: string, sitemap: seq<string>)
    ensures Shallow(Start(site, cfg, base, seed, sitemap))
  {
    SitemapShallow(site, cfg, SubmitSeed(site, Fresh(cfg, base), seed), sitemap, seed);
  }

  lemma UnstartedLayers(site: Site, cfg: Config, base: string, pages: string -> Page, s: State)
    requires cfg.workers == 1 && cfg.maxDepth >= 0
    requires Unstarted(site, cfg, s) && Shallow(s)
    ensures LayerInv(site, cfg, EdgeOf(site, base, pages), s.keys, s)
    ensures OwedInv(site, cfg, base, pages, s)
  {
    hide Bfs, EdgeOf;
    var nodes := NodesOf(site, AllItems(s));
    assert AllItems(s) == s.queue;
    forall k ensures k in s.keys <==> Known(nodes, k) {
      VisitedIsKnown(site, s, k);
    }
    forall i | 0 <= i < |nodes| ensures nodes[i].key in s.keys {
      assert Known(nodes, nodes[i].key);
    }
    StartLayer(EdgeOf(site, base, pages), s.keys, cfg.maxDepth, nodes);
  }

  lemma StartLayers(site: Site, cfg: Config, base: string, seed: string, sitemap: seq<string>, pages: string -> Page)
    requires cfg.workers == 1 && cfg.maxDepth >= 0
    ensures var s := Start(site, cfg, base, seed, sitemap);
            && LayerInv(site, cfg, EdgeOf(site, base, pages), s.keys, s)
            && OwedInv(site, cfg, base, pages, s)
  {
    StartIsShallow(site, cfg, base, seed, sitemap);
    hide Start, LayerInv, OwedInv, Unstarted, Shallow, Inv, EdgeOf;
    StartUnstarted(site, cfg, base, seed, sitemap);
    UnstartedLayers(site, cfg, base, pages, Start(site, cfg, base, seed, sitemap));
  }

  // ------------------------------------------------------------- whole runs

  ghost predicate NoDropsYet(s: State) {
    forall i :: 0 <= i < |s.log| ==> s.log[i].handed
  }

  lemma {:induction false} LogPrefix(site: Site, cfg: Config, trace: seq<State>, acts: seq<Action>, i: nat)
    requires IsRun(site, cfg, trace, acts) && i < |trace|
    ensures trace[i].log <= trace[|acts|].log
    decreases |trace| - i
  {
    if i < |acts| {
      LogPrefix(site, cfg, trace, acts, i + 1);
      assert StepAt(site, cfg, trace, acts, i);
      if acts[i].Submit? {
        SubmitShape(site, cfg, trace[i], acts[i].w);
      }
    }
  }

  lemma DropLeavesTrace(site: Site, cfg: Config, trace: seq<State>, acts: seq<Action>, i: nat)
    requires IsRun(site, cfg, trace, acts) && i < |acts| && acts[i].Drop?
    ensures exists j :: 0 <= j < |trace[|acts|].log| && !trace[|acts|].log[j].handed
  {
    assert StepAt(site, cfg, trace, acts, i);
    LogPrefix(site, cfg, trace, acts, i + 1);
    var j := |trace[i].log|;
    assert !trace[i + 1].log[j].handed && trace[|acts|].log[j] == trace[i + 1].log[j];
  }

  lemma {:induction false} RunKeepsLayers(site: Site, cfg: Config, base: string, pages: string -> Page, starts: set<string>,
                                          trace: seq<State>, acts: seq<Action>, i: nat)
    requires Coherent(site, pages) && HostsKept(site) && IsRun(site, cfg, trace, acts) && RunFollows(pages, trace, acts)
    requires Inv(site, cfg, trace[0]) && BaseInv(site, base, trace[0])
    requires LayerInv(site, cfg, EdgeOf(site, base, pages), starts, trace[0]) && OwedInv(site, cfg, base, pages, trace[0])
    requires NoDropsYet(trace[|acts|]) && !trace[|acts|].cancelled
    requires i < |trace|
    ensures LayerInv(site, cfg, EdgeOf(site, base, pages), starts, trace[i]) && OwedInv(site, cfg, base, pages, trace[i])
  {
    if i > 0 {
      RunKeepsLayers(site, cfg, base, pages, starts, trace, acts, i - 1);
      RunKeepsInv(site, cfg, trace, acts, i - 1);
      BaseStaysOnSite(site, cfg, base, trace, acts, i - 1);
      UncancelledBefore(site, cfg, trace, acts, i - 1);
      if acts[i - 1].Drop? {
        DropLeavesTrace(site, cfg, trace, acts, i - 1);
      }
      assert StepAt(site, cfg, trace, acts, i - 1) && Follows(pages, trace[i - 1], acts[i - 1]);
      StepKeepsLayers(site, cfg, base, pages, starts, trace[i - 1], acts[i - 1]);
    }
  }

  /**
   Shortest depth: when a single worker has left without a cancel and without dropping an item at
   the page cap, the visited keys are exactly those within `maxDepth` links of the start URLs, and
   every item carries its shortest link distance.
   */
  lemma SingleWorkerShortest(site: Site, cfg: Config, base: string, seed: string, sitemap: seq<string>,
                             pages: string -> Page, trace: seq<State>, acts: seq<Action>)
    requires Coherent(site, pages) && HostsKept(site) && site.domainOf(base) != ""
    requires cfg.workers == 1 && cfg.maxDepth >= 0
    requires IsRun(site, cfg, trace, acts) && RunFollows(pages, trace, acts)
    requires trace[0] == Start(site, cfg, base, seed, sitemap)
    requires AllDone(trace[|acts|]) && !trace[|acts|].cancelled && NoDropsYet(trace[|acts|])
    ensures var edge, s := EdgeOf(site, base, pages), trace[|acts|];
            && (forall k :: k in s.keys <==> Reachable(edge, trace[0].keys, k, cfg.maxDepth))
            && (forall i :: 0 <= i < |AllItems(s)| ==>
                  Shortest(edge, trace[0].keys, site.key(AllItems(s)[i].normalized), AllItems(s)[i].depth))
  {
    var edge, s := EdgeOf(site, base, pages), trace[|acts|];
    StartUnstarted(site, cfg, base, seed, sitemap);
    StartLayers(site, cfg, base, seed, sitemap, pages);
    RunKeepsInv(site, cfg, trace, acts, |acts|);
    RunKeepsLayers(site, cfg, base, pages, trace[0].keys, trace, acts, |acts|);
    assert s.workers[0].Done?;
    var nodes := NodesOf(site, AllItems(s));
    BfsIsShortest(edge, trace[0].keys, cfg.maxDepth, nodes);
    forall k ensures k in s.keys <==> Reachable(edge, trace[0].keys, k, cfg.maxDepth) {
      VisitedIsKnown(site, s, k);
    }
    forall i | 0 <= i < |AllItems(s)|
      ensures Shortest(edge, trace[0].keys, site.key(AllItems(s)[i].normalized), AllItems(s)[i].depth)
    {
      assert Shortest(edge, trace[0].keys, nodes[i].key, nodes[i].depth);
    }
  }

  /** At every moment of an uncancelled crawl by one worker, every item carries its shortest link distance. */
  lemma SingleWorkerDepths(site: Site, cfg: Config, base: string, seed: string, sitemap: seq<string>,
                           pages: string -> Page, trace: seq<State>, acts: seq<Action>)
    requires Coherent(site, pages) && HostsKept(site) && site.domainOf(base) != ""
    requires cfg.workers == 1 && cfg.maxDepth >= 0
    requires IsRun(site, cfg, trace, acts) && RunFollows(pages, trace, acts)
    requires trace[0] == Start(site, cfg, base, seed, sitemap)
    requires !trace[|acts|].cancelled && NoDropsYet(trace[|acts|])
    ensures DepthsShortest(site, EdgeOf(site, base, pages), trace[0].keys, trace[|acts|])
  {
    var edge, s := EdgeOf(site, base, pages), trace[|acts|];
    StartUnstarted(site, cfg, base, seed, sitemap);
    StartLayers(site, cfg, base, seed, sitemap, pages);
    RunKeepsLayers(site, cfg, base, pages, trace[0].keys, trace, acts, |acts|);
    hide Coherent, HostsKept, StepAt, RunFollows, Start, NoDropsYet, Bfs, EdgeOf, OwedInv;
    var nodes := NodesOf(site, AllItems(s));
    FoundIsShortest(edge, trace[0].keys, cfg.maxDepth, nodes, Expansions(s));
    forall i | 0 <= i < |AllItems(s)|
      ensures Shortest(edge, trace[0].keys, site.key(AllItems(s)[i].normalized), AllItems(s)[i].depth)
    {
      assert Shortest(edge, trace[0].keys, nodes[i].key, nodes[i].depth);
    }
  }

  ghost predicate DepthsShortest(site: Site, edge: (string, string) -> bool, starts: set<string>, s: State) {
    forall i :: 0 <= i < |AllItems(s)| ==>
      Shortest(edge, starts, site.key(AllItems(s)[i].normalized), AllItems(s)[i].depth)
  }

  // ------------------------------------------------------------- any number of workers

  /** The depth recorded is within the limit and the length of a path of accepted links. */
  ghost predicate DepthIsReal(site: Site, cfg: Config, edge: (string, string) -> bool, starts: set<string>, item: Item) {
    0 <= item.depth <= cfg.maxDepth && Path(edge, starts, site.key(item.normalized), item.depth)
  }

  ghost predicate DepthInv(site: Site, cfg: Config, edge: (string, string) -> bool, starts: set<string>, s: State) {
    forall i :: 0 <= i < |AllItems(s)| ==> DepthIsReal(site, cfg, edge, starts, AllItems(s)[i])
  }

  /** One submission adds at most the link it submits, one deeper than its page. */
  lemma SubmitAdds(site: Site, cfg: Config, s: State, w: nat)
    requires Enabled(cfg, s, Submit(w))
    ensures var x, s' := s.workers[w], Next(site, cfg, s, Submit(w));
            || AllItems(s') == AllItems(s)
            || exists item :: && AllItems(s') == AllItems(s) + [item] && item.depth == x.item.depth + 1 <= cfg.maxDepth
                              && Acceptable(site, s.base, x.todo[0]) && item.normalized == site.canon(x.todo[0]).value
  {
    var x, s' := s.workers[w], Next(site, cfg, s, Submit(w));
    if s'.queue != s.queue {
      var item := s'.queue[|s.queue|];
      assert s'.queue == s.queue + [item];
      assert AllItems(s') == AllItems(s) + [item];
    }
  }

  /** The page a worker is on was handed out by the log, so its depth is real. */
  lemma RunningIsReal(site: Site, cfg: Config, edge: (string, string) -> bool, pages: string -> Page, starts: set<string>, s: State, w: nat)
    requires PageInv(pages, s) && DepthInv(site, cfg, edge, starts, s) && IsRunning(s, w)
    ensures DepthIsReal(site, cfg, edge, starts, s.workers[w].item)
  {
    hide DepthIsReal;
    var item := s.workers[w].item;
    var l :| 0 <= l < |s.log| && s.log[l] == Taken(item, true);
    assert AllItems(s)[l] == item;
  }

  /** An accepted link of a page is one link deeper. */
  lemma ChildIsReal(site: Site, cfg: Config, base: string, pages: string -> Page, starts: set<string>,
                    parent: Item, raw: string, item: Item)
    requires DepthIsReal(site, cfg, EdgeOf(site, base, pages), starts, parent)
    requires raw in pages(parent.normalized).links && Acceptable(site, base, raw)
    requires item.normalized == site.canon(raw).value && item.depth == parent.depth + 1 <= cfg.maxDepth
    ensures DepthIsReal(site, cfg, EdgeOf(site, base, pages), starts, item)
  {
    var edge := EdgeOf(site, base, pages);
    LinkIsEdge(site, base, pages, parent.normalized, raw);
    assert Path(edge, starts, site.key(parent.normalized), item.depth - 1);
  }

  lemma SubmitKeepsDepths(site: Site, cfg: Config, base: string, pages: string -> Page, starts: set<string>, s: State, w: nat)
    requires Coherent(site, pages) && BaseInv(site, base, s) && PageInv(pages, s) && Enabled(cfg, s, Submit(w))
    requires DepthInv(site, cfg, EdgeOf(site, base, pages), starts, s)
    ensures DepthInv(site, cfg, EdgeOf(site, base, pages), starts, Next(site, cfg, s, Submit(w)))
  {
    var x, s', edge := s.workers[w], Next(site, cfg, s, Submit(w)), EdgeOf(site, base, pages);
    SubmitAdds(site, cfg, s, w);
    AcceptableAnyBase(site, pages, base, s, x.todo[0]);
    RunningIsReal(site, cfg, edge, pages, starts, s, w);
    assert x.todo[0] in pages(x.item.normalized).links;
    hide Next, Enabled, Coherent, BaseInv, PageInv, DepthIsReal, EdgeOf, Acceptable, AllItems;
    if AllItems(s') != AllItems(s) {
      var item :| AllItems(s') == AllItems(s) + [item] && item.depth == x.item.depth + 1 <= cfg.maxDepth
                  && Acceptable(site, s.base, x.todo[0]) && item.normalized == site.canon(x.todo[0]).value;
      ChildIsReal(site, cfg, base, pages, starts, x.item, x.todo[0], item);
    }
  }

  lemma StepKeepsDepths(site: Site, cfg: Config, base: string, pages: string -> Page, starts: set<string>, s: State, a: Action)
    requires Coherent(site, pages) && BaseInv(site, base, s) && PageInv(pages, s) && Enabled(cfg, s, a)
    requires DepthInv(site, cfg, EdgeOf(site, base, pages), starts, s)
    ensures DepthInv(site, cfg, EdgeOf(site, base, pages), starts, Next(site, cfg, s, a))
  {
    if a.Submit? {
      SubmitKeepsDepths(site, cfg, base, pages, starts, s, a.w);
    } else {
      hide DepthIsReal, Coherent, BaseInv, PageInv;
      assert AllItems(Next(site, cfg, s, a)) == AllItems(s);
    }
  }

  lemma {:induction false} RunKeepsDepths(site: Site, cfg: Config, base: string, pages: string -> Page, starts: set<string>,
                                          trace: seq<State>, acts: seq<Action>, i: nat)
    requires Coherent(site, pages) && HostsKept(site) && IsRun(site, cfg, trace, acts) && RunFollows(pages, trace, acts)
    requires PageInv(pages, trace[0]) && BaseInv(site, base, trace[0])
    requires DepthInv(site, cfg, EdgeOf(site, base, pages), starts, trace[0])
    requires i < |trace|
    ensures PageInv(pages, trace[i]) && DepthInv(site, cfg, EdgeOf(site, base, pages), starts, trace[i])
  {
    if i > 0 {
      hide Coherent, HostsKept, PageInv, DepthInv, Next, Enabled, Follows, BaseInv, EdgeOf;
      RunKeepsDepths(site, cfg, base, pages, starts, trace, acts, i - 1);
      BaseStaysOnSite(site, cfg, base, trace, acts, i - 1);
      assert StepAt(site, cfg, trace, acts, i - 1) && Follows(pages, trace[i - 1], acts[i - 1]);
      StepKeepsPages(site, cfg, pages, trace[i - 1], acts[i - 1]);
      StepKeepsDepths(site, cfg, base, pages, starts, trace[i - 1], acts[i - 1]);
    }
  }

  /**
   Whatever the worker count and schedule, cancelled or capped: every depth ever recorded is at most
   `maxDepth` and the length of a real path of accepted links from a start URL.
   */
  lemma DepthsAreReal(site: Site, cfg: Config, base: string, seed: string, sitemap: seq<string>,
                      pages: string -> Page, trace: seq<State>, acts: seq<Action>, i: nat)
    requires Coherent(site, pages) && HostsKept(site) && site.domainOf(base) != "" && cfg.maxDepth >= 0
    requires IsRun(site, cfg, trace, acts) && RunFollows(pages, trace, acts) && i < |trace|
    requires trace[0] == Start(site, cfg, base, seed, sitemap)
    ensures DepthInv(site, cfg, EdgeOf(site, base, pages), trace[0].keys, trace[i])
  {
    StartUnstarted(site, cfg, base, seed, sitemap);
    StartIsShallow(site, cfg, base, seed, sitemap);
    StartDepths(site, cfg, base, pages, trace[0]);
    RunKeepsDepths(site, cfg, base, pages, trace[0].keys, trace, acts, i);
  }

  lemma StartDepths(site: Site, cfg: Config, base: string, pages: string -> Page, s: State)
    requires Unstarted(site, cfg, s) && Shallow(s) && cfg.maxDepth >= 0
    ensures PageInv(pages, s) && DepthInv(site, cfg, EdgeOf(site, base, pages), s.keys, s)
  {
    hide EdgeOf;
    assert AllItems(s) == s.queue;
    forall i | 0 <= i < |AllItems(s)| ensures DepthIsReal(site, cfg, EdgeOf(site, base, pages), s.keys, AllItems(s)[i]) {
      var k := site.key(AllItems(s)[i].normalized);
      VisitedIsKnown(site, s, k);
      assert NodesOf(site, AllItems(s))[i].key == k;
      assert Path(EdgeOf(site, base, pages), s.keys, k, 0);
    }
  }
}
