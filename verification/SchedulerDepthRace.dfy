/**
 What several workers cost.  Depths are recorded in the order the workers happen to move, so a page
 can be recorded deeper than it lies, and its links are then cut off too early.  For every valid
 configuration, depths are always shortest, and finished crawls always visit exactly what lies within
 the depth limit, if and only if there is one worker or the limit is at most one link.
 */
module SchedulerDepthRace {
  import opened SchedulerModel
  import opened SchedulerSafety
  import opened SchedulerClosure
  import opened SchedulerShortest
  import opened ShortestPaths

  /** A crawl under the assumptions of the depth results, up to some moment before any cancel or drop. */
  ghost predicate Ordinary(site: Site, cfg: Config, base: string, seed: string, sitemap: seq<string>, pages: string -> Page,
                           trace: seq<State>, acts: seq<Action>)
  {
    && Coherent(site, pages) && HostsKept(site) && site.domainOf(base) != ""
    && IsRun(site, cfg, trace, acts) && RunFollows(pages, trace, acts)
    && trace[0] == Start(site, cfg, base, seed, sitemap)
    && !trace[|acts|].cancelled && NoDropsYet(trace[|acts|])
  }

  /** On every site and at every moment of every such crawl, the recorded depths are shortest. */
  ghost predicate AlwaysShortest(cfg: Config) {
    forall site, base, seed, sitemap, pages, trace: seq<State>, acts: seq<Action> ::
      Ordinary(site, cfg, base, seed, sitemap, pages, trace, acts) ==>
      DepthsShortest(site, EdgeOf(site, base, pages), trace[0].keys, trace[|acts|])
  }

  /** The visited keys are those within the depth limit. */
  ghost predicate WithinLimit(edge: (string, string) -> bool, starts: set<string>, limit: int, keys: set<string>) {
    forall k :: k in keys <==> Reachable(edge, starts, k, limit)
  }

  /** On every site every such crawl that ran to its end has visited exactly what lies within the limit. */
  ghost predicate AlwaysWithinLimit(cfg: Config) {
    forall site, base, seed, sitemap, pages, trace: seq<State>, acts: seq<Action> ::
      Ordinary(site, cfg, base, seed, sitemap, pages, trace, acts) && AllDone(trace[|acts|]) ==>
      WithinLimit(EdgeOf(site, base, pages), trace[0].keys, cfg.maxDepth, trace[|acts|].keys)
  }

  // ------------------------------------------------------------- a limit of at most one link

  lemma {:induction false} ItemsGrow(site: Site, cfg: Config, trace: seq<State>, acts: seq<Action>, i: nat)
    requires IsRun(site, cfg, trace, acts) && Inv(site, cfg, trace[0]) && i < |trace|
    ensures AllItems(trace[0]) <= AllItems(trace[i])
  {
    if i > 0 {
      hide AllItems, Next, Enabled;
      ItemsGrow(site, cfg, trace, acts, i - 1);
      RunKeepsInv(site, cfg, trace, acts, i - 1);
      assert StepAt(site, cfg, trace, acts, i - 1);
      StepKeepsItems(site, cfg, trace[i - 1], acts[i - 1]);
    }
  }

  ghost predicate AtDepth(site: Site, s: State, k: string, d: int) {
    exists i :: 0 <= i < |AllItems(s)| && site.key(AllItems(s)[i].normalized) == k && AllItems(s)[i].depth == d
  }

  /** Whatever the schedule, the start URLs stay recorded at depth 0. */
  lemma StartsAtZero(site: Site, cfg: Config, base: string, seed: string, sitemap: seq<string>,
                     trace: seq<State>, acts: seq<Action>, k: string)
    requires IsRun(site, cfg, trace, acts) && trace[0] == Start(site, cfg, base, seed, sitemap) && k in trace[0].keys
    ensures AtDepth(site, trace[|acts|], k, 0)
  {
    StartUnstarted(site, cfg, base, seed, sitemap);
    StartIsShallow(site, cfg, base, seed, sitemap);
    hide StepAt, Start;
    ItemsGrow(site, cfg, trace, acts, |acts|);
    hide ActiveInv, WaitInv, QuietInv, CountInv;
    var first, last := AllItems(trace[0]), AllItems(trace[|acts|]);
    var i :| 0 <= i < |first| && k == site.key(first[i].normalized);
    assert first == trace[0].queue;
    assert last[i] == first[i];
  }

  /** A real depth of at most one is shortest, because a start URL is not found again as a link. */
  lemma ShallowIsShortest(site: Site, cfg: Config, edge: (string, string) -> bool, starts: set<string>, s: State)
    requires ItemInv(site, s) && DepthInv(site, cfg, edge, starts, s) && cfg.maxDepth <= 1
    requires forall k :: k in starts ==> AtDepth(site, s, k, 0)
    ensures DepthsShortest(site, edge, starts, s)
  {
    var items := AllItems(s);
    forall i | 0 <= i < |items| ensures Shortest(edge, starts, site.key(items[i].normalized), items[i].depth) {
      var k := site.key(items[i].normalized);
      assert DepthIsReal(site, cfg, edge, starts, items[i]);
      assert k in starts ==> AtDepth(site, s, k, 0);
    }
  }

  lemma LowLimitShortest(site: Site, cfg: Config, base: string, seed: string, sitemap: seq<string>, pages: string -> Page,
                         trace: seq<State>, acts: seq<Action>)
    requires 0 <= cfg.maxDepth <= 1 && Ordinary(site, cfg, base, seed, sitemap, pages, trace, acts)
    ensures DepthsShortest(site, EdgeOf(site, base, pages), trace[0].keys, trace[|acts|])
  {
    StartUnstarted(site, cfg, base, seed, sitemap);
    RunKeepsInv(site, cfg, trace, acts, |acts|);
    DepthsAreReal(site, cfg, base, seed, sitemap, pages, trace, acts, |acts|);
    forall k | k in trace[0].keys ensures AtDepth(site, trace[|acts|], k, 0) {
      StartsAtZero(site, cfg, base, seed, sitemap, trace, acts, k);
    }
    ShallowIsShortest(site, cfg, EdgeOf(site, base, pages), trace[0].keys, trace[|acts|]);
  }

  /** At the end of a crawl every accepted link of a page recorded above the limit has been visited. */
  lemma FinishedIsExpanded(site: Site, cfg: Config, base: string, seed: string, sitemap: seq<string>, pages: string -> Page,
                           trace: seq<State>, acts: seq<Action>, k: string, d: int, k': string)
    requires Ordinary(site, cfg, base, seed, sitemap, pages, trace, acts) && AllDone(trace[|acts|]) && cfg.workers >= 1
    requires AtDepth(site, trace[|acts|], k, d) && d < cfg.maxDepth && EdgeOf(site, base, pages)(k, k')
    ensures k' in trace[|acts|].keys
  {
    var s := trace[|acts|];
    StartUnstarted(site, cfg, base, seed, sitemap);
    RunKeepsInv(site, cfg, trace, acts, |acts|);
    RunCovers(site, cfg, base, pages, trace, acts, |acts|);
    assert s.workers[0].Done?;
    var i :| 0 <= i < |AllItems(s)| && site.key(AllItems(s)[i].normalized) == k && AllItems(s)[i].depth == d;
    var item := s.log[i].item;
    assert s.log[i] == Taken(item, true);
    EdgeOfPage(site, base, pages, item.normalized, k');
    var raw :| raw in pages(item.normalized).links && Acceptable(site, base, raw) && k' == site.key(site.canon(raw).value);
    assert LinkSeen(site, s, item, raw);
  }

  lemma LowLimitWithin(site: Site, cfg: Config, base: string, seed: string, sitemap: seq<string>, pages: string -> Page,
                       trace: seq<State>, acts: seq<Action>)
    requires 0 <= cfg.maxDepth <= 1 && cfg.workers >= 1
    requires Ordinary(site, cfg, base, seed, sitemap, pages, trace, acts) && AllDone(trace[|acts|])
    ensures WithinLimit(EdgeOf(site, base, pages), trace[0].keys, cfg.maxDepth, trace[|acts|].keys)
  {
    var edge, starts, s := EdgeOf(site, base, pages), trace[0].keys, trace[|acts|];
    StartUnstarted(site, cfg, base, seed, sitemap);
    RunKeepsInv(site, cfg, trace, acts, |acts|);
    DepthsAreReal(site, cfg, base, seed, sitemap, pages, trace, acts, |acts|);
    forall k | k in starts ensures AtDepth(site, s, k, 0) && k in s.keys {
      StartsAtZero(site, cfg, base, seed, sitemap, trace, acts, k);
    }
    forall k ensures k in s.keys <==> Reachable(edge, starts, k, cfg.maxDepth) {
      if k in s.keys {
        var i :| 0 <= i < |AllItems(s)| && k == site.key(AllItems(s)[i].normalized);
        assert DepthIsReal(site, cfg, edge, starts, AllItems(s)[i]);
      } else if Reachable(edge, starts, k, cfg.maxDepth) {
        var n: nat :| n <= cfg.maxDepth && Path(edge, starts, k, n);
        var u :| Path(edge, starts, u, n - 1) && edge(u, k);
        FinishedIsExpanded(site, cfg, base, seed, sitemap, pages, trace, acts, u, 0, k);
      }
    }
  }

  // ------------------------------------------------------------- the race

  /** The links of a URL on a site with a short way to d, by a, and a long one, up the chain of b's. */
  function RaceLinks(height: int, u: string): seq<string> {
    if u == "a" then ["d"]
    else if u == "d" then ["e"]
    else if u == "e" then []
    else if |u| < height then [u + "b"]
    else ["d"]
  }

  /** Pages either all succeed, or all fail once their links are submitted, as when the final flush raises. */
  function RaceSite(height: int, ok: bool): string -> Page { u => Page(RaceLinks(height, u), ok) }

  function Bs(n: nat): string { seq(n, _ => 'b') }

  function At(url: string, source: string, kind: string, depth: int): Item { Item(url, url, source, kind, depth) }

  /** The page cap leaves room for the race, if its pages succeed. */
  predicate Roomy(cfg: Config, ok: bool) {
    cfg.workers >= 2 && cfg.maxPages >= 1 && cfg.maxDepth >= 2 && (ok ==> cfg.maxPages >= cfg.maxDepth + 2)
  }

  ghost predicate Step(cfg: Config, pages: string -> Page, s: State, a: Action, s': State) {
    Enabled(cfg, s, a) && s' == Next(PLAIN, cfg, s, a) && Follows(pages, s, a)
  }

  /** Nobody waits, nothing was cancelled or dropped. */
  ghost predicate Calm(s: State) {
    !s.cancelled && NoDropsYet(s) && forall v :: 0 <= v < |s.workers| ==> !s.workers[v].Waiting?
  }

  ghost predicate RunTo(cfg: Config, pages: string -> Page, s: State, t: State, trace: seq<State>, acts: seq<Action>) {
    IsRun(PLAIN, cfg, trace, acts) && RunFollows(pages, trace, acts) && trace[0] == s && trace[|acts|] == t
  }

  ghost predicate CanReach(cfg: Config, pages: string -> Page, s: State, t: State) {
    exists trace: seq<State>, acts: seq<Action> :: RunTo(cfg, pages, s, t, trace, acts)
  }

  lemma Extend(cfg: Config, pages: string -> Page, s: State, t: State, a: Action, u: State)
    requires CanReach(cfg, pages, s, t) && Step(cfg, pages, t, a, u)
    ensures CanReach(cfg, pages, s, u)
  {
    var trace: seq<State>, acts: seq<Action> :| RunTo(cfg, pages, s, t, trace, acts);
    var trace', acts' := trace + [u], acts + [a];
    forall i | 0 <= i < |acts'| ensures StepAt(PLAIN, cfg, trace', acts', i) && Follows(pages, trace'[i], acts'[i]) {
      if i < |acts| {
        assert StepAt(PLAIN, cfg, trace, acts, i) && Follows(pages, trace[i], acts[i]);
      }
    }
    assert RunTo(cfg, pages, s, u, trace', acts');
  }

  lemma TakeStep(cfg: Config, pages: string -> Page, s0: State, s: State, w: nat) returns (s': State)
    requires CanReach(cfg, pages, s0, s) && Calm(s) && IsIdle(s, w) && s.queue != [] && s.crawled < cfg.maxPages
    ensures CanReach(cfg, pages, s0, s') && Calm(s')
    ensures s'.queue == s.queue[1..] && s'.keys == s.keys && s'.crawled == s.crawled && s'.active == s.active + 1
    ensures s'.workers == s.workers[w := Running(s.queue[0], pages(s.queue[0].normalized).links, true)]
  {
    hide CanReach;
    var a := Take(w, pages(s.queue[0].normalized).links);
    s' := Next(PLAIN, cfg, s, a);
    Extend(cfg, pages, s0, s, a, s');
  }

  lemma SubmitStep(cfg: Config, pages: string -> Page, s0: State, s: State, w: nat) returns (s': State)
    requires CanReach(cfg, pages, s0, s) && Calm(s) && IsRunning(s, w) && s.workers[w].todo != []
    ensures CanReach(cfg, pages, s0, s') && Calm(s')
    ensures var x := s.workers[w];
            && s'.crawled == s.crawled && s'.active == s.active
            && s'.workers == s.workers[w := Running(x.item, x.todo[1..], false)]
            && (if x.item.depth < cfg.maxDepth && x.todo[0] !in s.keys then
                  && s'.queue == s.queue + [At(x.todo[0], x.item.normalized, "html_link", x.item.depth + 1)]
                  && s'.keys == s.keys + {x.todo[0]}
                else
                  s'.queue == s.queue && s'.keys == s.keys)
  {
    hide CanReach;
    s' := Next(PLAIN, cfg, s, Submit(w));
    Extend(cfg, pages, s0, s, Submit(w), s');
  }

  lemma DoneStep(cfg: Config, pages: string -> Page, s0: State, s: State, w: nat) returns (s': State)
    requires CanReach(cfg, pages, s0, s) && Calm(s) && IsRunning(s, w) && s.workers[w].todo == []
    ensures CanReach(cfg, pages, s0, s') && Calm(s')
    ensures s'.queue == s.queue && s'.keys == s.keys && s'.active == s.active - 1
    ensures s'.crawled == s.crawled + if pages(s.workers[w].item.normalized).ok then 1 else 0
    ensures s'.workers == s.workers[w := Idle]
  {
    hide CanReach;
    var ok := pages(s.workers[w].item.normalized).ok;
    var m := Next(PLAIN, cfg, s, Finish(w, ok));
    Extend(cfg, pages, s0, s, Finish(w, ok), m);
    s' := Next(PLAIN, cfg, m, Release(w));
    Extend(cfg, pages, s0, m, Release(w), s');
    assert s'.workers == s.workers[w := Idle];
  }

  /** Worker 0 holds a, the others are idle, and the chain has been climbed up to its n-th page. */
  ghost predicate Climbed(cfg: Config, ok: bool, t: State, n: nat)
    requires Roomy(cfg, ok)
  {
    && Calm(t) && |t.workers| == cfg.workers && t.active == 1
    && (forall v :: 1 <= v < |t.workers| ==> t.workers[v].Idle?)
    && t.workers[0] == Running(At("a", "a", "seed", 0), ["d"], true)
    && |t.queue| == 1 && t.queue[0].normalized == Bs(n) && t.queue[0].depth == n - 1
    && t.crawled == (if ok then n - 1 else 0)
    && forall k :: k in t.keys ==> k == "a" || (1 <= |k| <= n && k[0] == 'b')
  }

  lemma RaceStart(cfg: Config, ok: bool) returns (t: State)
    requires Roomy(cfg, ok)
    ensures CanReach(cfg, RaceSite(cfg.maxDepth, ok), Start(PLAIN, cfg, "h", "a", ["b"]), t) && Climbed(cfg, ok, t, 1)
    ensures Start(PLAIN, cfg, "h", "a", ["b"]).keys == {"a", "b"}
  {
    var pages := RaceSite(cfg.maxDepth, ok);
    var s := StartState(cfg);
    assert CanReach(cfg, pages, s, s) by {
      assert RunTo(cfg, pages, s, s, [s], []);
    }
    hide CanReach;
    t := TakeStep(cfg, pages, s, s, 0);
    assert Bs(1) == "b";
  }

  lemma StartState(cfg: Config) returns (s: State)
    requires cfg.maxDepth >= 0
    ensures s == Start(PLAIN, cfg, "h", "a", ["b"]) && Calm(s) && s.crawled == 0 && s.active == 0
    ensures s.queue == [At("a", "a", "seed", 0), At("b", "a", "sitemap", 0)] && s.keys == {"a", "b"}
    ensures |s.workers| == cfg.workers && forall v :: 0 <= v < |s.workers| ==> IsIdle(s, v)
  {
    s := SubmitSeed(PLAIN, Fresh(cfg, "h"), "a");
    var t := Offer(PLAIN, cfg, s, "b", "a", "sitemap", 0);
    assert SubmitSitemap(PLAIN, cfg, t, [], "a") == t;
    assert ["b"][1..] == [];
    s := t;
  }

  /** Worker 1 crawls the next page of the chain while worker 0 still holds a. */
  lemma ClimbOne(cfg: Config, ok: bool, s0: State, t: State, n: nat) returns (t': State)
    requires Roomy(cfg, ok) && 1 <= n < cfg.maxDepth
    requires CanReach(cfg, RaceSite(cfg.maxDepth, ok), s0, t) && Climbed(cfg, ok, t, n)
    ensures CanReach(cfg, RaceSite(cfg.maxDepth, ok), s0, t') && Climbed(cfg, ok, t', n + 1)
  {
    hide CanReach, Calm;
    var pages := RaceSite(cfg.maxDepth, ok);
    assert Bs(n)[0] == 'b' && Bs(n) + "b" == Bs(n + 1);
    var t1 := TakeStep(cfg, pages, s0, t, 1);
    var t2 := SubmitStep(cfg, pages, s0, t1, 1);
    t' := DoneStep(cfg, pages, s0, t2, 1);
  }

  lemma {:induction false} Climb(cfg: Config, ok: bool, n: nat) returns (t: State)
    requires Roomy(cfg, ok) && 1 <= n <= cfg.maxDepth
    ensures CanReach(cfg, RaceSite(cfg.maxDepth, ok), Start(PLAIN, cfg, "h", "a", ["b"]), t) && Climbed(cfg, ok, t, n)
  {
    hide CanReach, Climbed;
    if n == 1 {
      t := RaceStart(cfg, ok);
    } else {
      var u := Climb(cfg, ok, n - 1);
      t := ClimbOne(cfg, ok, Start(PLAIN, cfg, "h", "a", ["b"]), u, n - 1);
    }
  }

  /** d has been submitted from the top of the chain, at the depth limit; worker 0 still holds a. */
  ghost predicate Overtaken(cfg: Config, ok: bool, t: State)
    requires Roomy(cfg, ok)
  {
    && Calm(t) && |t.workers| == cfg.workers && t.active == 2
    && (forall v :: 2 <= v < |t.workers| ==> t.workers[v].Idle?)
    && t.workers[0] == Running(At("a", "a", "seed", 0), ["d"], true)
    && t.workers[1].Running? && t.workers[1].item.normalized == Bs(cfg.maxDepth) && t.workers[1].todo == []
    && |t.queue| == 1 && t.queue[0].normalized == "d" && t.queue[0].depth == cfg.maxDepth
    && t.crawled == (if ok then cfg.maxDepth - 1 else 0)
    && "d" in t.keys && "e" !in t.keys
  }

  lemma Overtake(cfg: Config, ok: bool, s0: State, u: State) returns (t: State)
    requires Roomy(cfg, ok) && Climbed(cfg, ok, u, cfg.maxDepth) && CanReach(cfg, RaceSite(cfg.maxDepth, ok), s0, u)
    ensures CanReach(cfg, RaceSite(cfg.maxDepth, ok), s0, t) && Overtaken(cfg, ok, t)
  {
    hide CanReach, Calm;
    var pages := RaceSite(cfg.maxDepth, ok);
    assert Bs(cfg.maxDepth)[0] == 'b';
    var u1 := TakeStep(cfg, pages, s0, u, 1);
    t := SubmitStep(cfg, pages, s0, u1, 1);
  }

  lemma OvertakenIsTooDeep(cfg: Config, ok: bool, t: State)
    requires Roomy(cfg, ok) && Overtaken(cfg, ok, t)
    ensures Calm(t) && AtDepth(PLAIN, t, "d", cfg.maxDepth)
  {
    hide Calm;
    assert AllItems(t)[|t.log|] == t.queue[0];
  }

  /** The race is over, nothing is left to do, and e was never visited. */
  ghost predicate Missed(cfg: Config, t: State) {
    && Calm(t) && |t.workers| == cfg.workers && t.active == 0 && t.queue == [] && "e" !in t.keys
  }

  lemma FinishRace(cfg: Config, ok: bool, s0: State, t: State) returns (t': State)
    requires Roomy(cfg, ok) && Overtaken(cfg, ok, t) && CanReach(cfg, RaceSite(cfg.maxDepth, ok), s0, t)
    ensures CanReach(cfg, RaceSite(cfg.maxDepth, ok), s0, t') && Missed(cfg, t')
    ensures forall v :: 0 <= v < |t'.workers| ==> t'.workers[v].Idle?
  {
    hide CanReach, Calm;
    var pages := RaceSite(cfg.maxDepth, ok);
    var t1 := DoneStep(cfg, pages, s0, t, 1);
    var t2 := SubmitStep(cfg, pages, s0, t1, 0);
    var t3 := DoneStep(cfg, pages, s0, t2, 0);
    var t4 := TakeStep(cfg, pages, s0, t3, 0);
    var t5 := SubmitStep(cfg, pages, s0, t4, 0);
    t' := DoneStep(cfg, pages, s0, t5, 0);
  }

  lemma {:induction false} LeaveAll(cfg: Config, pages: string -> Page, s0: State, t: State, k: nat) returns (t': State)
    requires CanReach(cfg, pages, s0, t) && Missed(cfg, t) && k <= cfg.workers
    requires forall v :: 0 <= v < |t.workers| ==> t.workers[v].Idle?
    ensures CanReach(cfg, pages, s0, t') && Missed(cfg, t')
    ensures forall v :: 0 <= v < k ==> t'.workers[v].Done?
    ensures forall v :: k <= v < cfg.workers ==> t'.workers[v].Idle?
  {
    hide CanReach;
    if k == 0 {
      t' := t;
    } else {
      var u := LeaveAll(cfg, pages, s0, t, k - 1);
      t' := Next(PLAIN, cfg, u, Leave(k - 1));
      Extend(cfg, pages, s0, u, Leave(k - 1), t');
    }
  }

  // ------------------------------------------------------------- what the race refutes

  lemma RaceRun(cfg: Config, ok: bool, t: State) returns (trace: seq<State>, acts: seq<Action>)
    requires CanReach(cfg, RaceSite(cfg.maxDepth, ok), Start(PLAIN, cfg, "h", "a", ["b"]), t) && Calm(t)
    ensures Ordinary(PLAIN, cfg, "h", "a", ["b"], RaceSite(cfg.maxDepth, ok), trace, acts)
    ensures trace[0] == Start(PLAIN, cfg, "h", "a", ["b"]) && trace[|acts|] == t
  {
    assert Coherent(PLAIN, RaceSite(cfg.maxDepth, ok)) && HostsKept(PLAIN);
    hide Coherent, HostsKept, StepAt, RunFollows, Start, NoDropsYet;
    trace, acts :| RunTo(cfg, RaceSite(cfg.maxDepth, ok), Start(PLAIN, cfg, "h", "a", ["b"]), t, trace, acts);
  }

  lemma RacePaths(height: int, ok: bool, edge: (string, string) -> bool)
    requires edge == EdgeOf(PLAIN, "h", RaceSite(height, ok))
    ensures Path(edge, {"a", "b"}, "d", 1) && Path(edge, {"a", "b"}, "e", 2)
  {
    var pages := RaceSite(height, ok);
    assert "d" in LinkKeys(PLAIN, "h", pages("a").links) by {
      assert "d" in pages("a").links;
    }
    assert edge("a", "d");
    assert "e" in LinkKeys(PLAIN, "h", pages("d").links) by {
      assert "e" in pages("d").links;
    }
    assert edge("d", "e");
    assert Path(edge, {"a", "b"}, "a", 0);
  }

  /**
   With two or more workers and a limit of two or more links, some run records at the very limit a page
   that lies one link from the start; and so it does on pages that all succeed, if the page cap leaves room.
   */
  lemma DepthCanBeTooLarge(cfg: Config, ok: bool) returns (trace: seq<State>, acts: seq<Action>)
    requires Roomy(cfg, ok)
    ensures Ordinary(PLAIN, cfg, "h", "a", ["b"], RaceSite(cfg.maxDepth, ok), trace, acts)
    ensures AtDepth(PLAIN, trace[|acts|], "d", cfg.maxDepth)
    ensures Shortest(EdgeOf(PLAIN, "h", RaceSite(cfg.maxDepth, ok)), trace[0].keys, "d", 1)
  {
    var pages, s := RaceSite(cfg.maxDepth, ok), Start(PLAIN, cfg, "h", "a", ["b"]);
    var edge := EdgeOf(PLAIN, "h", pages);
    RacePaths(cfg.maxDepth, ok, edge);
    assert Shortest(edge, {"a", "b"}, "d", 1);
    hide Start, EdgeOf, Ordinary, Calm, AtDepth, Overtaken, Climbed, CanReach, Path, Shortest;
    var first := RaceStart(cfg, ok);
    var top := Climb(cfg, ok, cfg.maxDepth);
    var t := Overtake(cfg, ok, s, top);
    OvertakenIsTooDeep(cfg, ok, t);
    trace, acts := RaceRun(cfg, ok, t);
  }

  /** Some finished run of that site then never visits a page two links from the start. */
  lemma PageCanBeMissed(cfg: Config, ok: bool) returns (trace: seq<State>, acts: seq<Action>)
    requires Roomy(cfg, ok)
    ensures Ordinary(PLAIN, cfg, "h", "a", ["b"], RaceSite(cfg.maxDepth, ok), trace, acts) && AllDone(trace[|acts|])
    ensures "e" !in trace[|acts|].keys
    ensures Path(EdgeOf(PLAIN, "h", RaceSite(cfg.maxDepth, ok)), trace[0].keys, "e", 2)
  {
    var pages, s := RaceSite(cfg.maxDepth, ok), Start(PLAIN, cfg, "h", "a", ["b"]);
    hide Start, EdgeOf, CanReach, Climbed, Overtaken, Path;
    var first := RaceStart(cfg, ok);
    var top := Climb(cfg, ok, cfg.maxDepth);
    var over := Overtake(cfg, ok, s, top);
    var quiet := FinishRace(cfg, ok, s, over);
    var t := LeaveAll(cfg, pages, s, quiet, cfg.workers);
    RacePaths(cfg.maxDepth, ok, EdgeOf(PLAIN, "h", pages));
    trace, acts := RaceRun(cfg, ok, t);
  }

  /** Recorded depths are always shortest if and only if there is one worker or links are followed at most once. */
  lemma ShortestExactly(cfg: Config)
    requires ValidConfig(cfg)
    ensures AlwaysShortest(cfg) <==> cfg.workers == 1 || cfg.maxDepth <= 1
  {
    if cfg.workers == 1 || cfg.maxDepth <= 1 {
      forall site, base, seed, sitemap, pages, trace: seq<State>, acts: seq<Action> |
        Ordinary(site, cfg, base, seed, sitemap, pages, trace, acts)
        ensures DepthsShortest(site, EdgeOf(site, base, pages), trace[0].keys, trace[|acts|])
      {
        if cfg.workers == 1 {
          SingleWorkerDepths(site, cfg, base, seed, sitemap, pages, trace, acts);
        } else {
          LowLimitShortest(site, cfg, base, seed, sitemap, pages, trace, acts);
        }
      }
    } else {
      var trace, acts := DepthCanBeTooLarge(cfg, false);
      var edge, t := EdgeOf(PLAIN, "h", RaceSite(cfg.maxDepth, false)), trace[|acts|];
      var i :| 0 <= i < |AllItems(t)| && PLAIN.key(AllItems(t)[i].normalized) == "d" && AllItems(t)[i].depth == cfg.maxDepth;
      hide Ordinary, EdgeOf, AllItems, Path;
      assert !Shortest(edge, trace[0].keys, "d", cfg.maxDepth);
    }
  }

  lemma MissRefutes(cfg: Config)
    requires Roomy(cfg, false)
    ensures !AlwaysWithinLimit(cfg)
  {
    var pages := RaceSite(cfg.maxDepth, false);
    var edge := EdgeOf(PLAIN, "h", pages);
    hide EdgeOf, Path, AllDone, RaceSite, Coherent, HostsKept, StepAt, RunFollows, Start, NoDropsYet;
    var trace, acts := PageCanBeMissed(cfg, false);
    hide Ordinary;
    assert Reachable(edge, trace[0].keys, "e", cfg.maxDepth);
  }

  lemma SingleWorkerWithin(site: Site, cfg: Config, base: string, seed: string, sitemap: seq<string>, pages: string -> Page,
                           trace: seq<State>, acts: seq<Action>)
    requires cfg.workers == 1 && cfg.maxDepth >= 0
    requires Ordinary(site, cfg, base, seed, sitemap, pages, trace, acts) && AllDone(trace[|acts|])
    ensures WithinLimit(EdgeOf(site, base, pages), trace[0].keys, cfg.maxDepth, trace[|acts|].keys)
  {
    SingleWorkerShortest(site, cfg, base, seed, sitemap, pages, trace, acts);
  }

  /** Finished crawls always visit exactly what lies within the depth limit under the same condition. */
  lemma WithinLimitExactly(cfg: Config)
    requires ValidConfig(cfg)
    ensures AlwaysWithinLimit(cfg) <==> cfg.workers == 1 || cfg.maxDepth <= 1
  {
    if cfg.workers == 1 || cfg.maxDepth <= 1 {
      forall site, base, seed, sitemap, pages, trace: seq<State>, acts: seq<Action> |
        Ordinary(site, cfg, base, seed, sitemap, pages, trace, acts) && AllDone(trace[|acts|])
        ensures WithinLimit(EdgeOf(site, base, pages), trace[0].keys, cfg.maxDepth, trace[|acts|].keys)
      {
        hide Ordinary, EdgeOf, AllDone, WithinLimit;
        if cfg.workers == 1 {
          SingleWorkerWithin(site, cfg, base, seed, sitemap, pages, trace, acts);
        } else {
          LowLimitWithin(site, cfg, base, seed, sitemap, pages, trace, acts);
        }
      }
    } else {
      MissRefutes(cfg);
    }
  }
}
