/** The page cap's overshoot bound is exact: for every valid configuration some run attains it. */
module SchedulerOvershoot {
  import opened SchedulerModel
  import opened SchedulerSafety

  /** Some run leads from `s` to `t`. */
  ghost predicate Reaches(site: Site, cfg: Config, s: State, t: State) {
    exists trace, acts :: Leads(site, cfg, s, t, trace, acts)
  }

  ghost predicate Leads(site: Site, cfg: Config, s: State, t: State, trace: seq<State>, acts: seq<Action>) {
    IsRun(site, cfg, trace, acts) && trace[0] == s && trace[|acts|] == t
  }

  lemma ReachesSelf(site: Site, cfg: Config, s: State)
    ensures Reaches(site, cfg, s, s)
  {
    assert Leads(site, cfg, s, s, [s], []);
  }

  lemma ReachesNext(site: Site, cfg: Config, s: State, t: State, a: Action)
    requires Reaches(site, cfg, s, t) && Enabled(cfg, t, a)
    ensures Reaches(site, cfg, s, Next(site, cfg, t, a))
  {
    hide Enabled, Next;
    var trace, acts :| Leads(site, cfg, s, t, trace, acts);
    var trace', acts' := trace + [Next(site, cfg, t, a)], acts + [a];
    forall i | 0 <= i < |acts'| ensures StepAt(site, cfg, trace', acts', i) {
      if i < |acts| {
        assert StepAt(site, cfg, trace, acts, i);
      }
    }
    assert Leads(site, cfg, s, Next(site, cfg, t, a), trace', acts');
  }

  /** Nobody works, `n` pages are crawled and the rest of the first queue is still there. */
  ghost predicate Between(cfg: Config, s: State, t: State, n: nat) {
    && |t.workers| == cfg.workers && (forall w :: 0 <= w < |t.workers| ==> t.workers[w].Idle?)
    && !t.cancelled && t.crawled == n && |t.queue| == |s.queue| - n
  }

  lemma CrawlOne(site: Site, cfg: Config, s: State, t: State, n: nat) returns (t': State)
    requires Reaches(site, cfg, s, t) && Between(cfg, s, t, n) && cfg.workers > 0
    requires n < cfg.maxPages && n < |s.queue|
    ensures Reaches(site, cfg, s, t') && Between(cfg, s, t', n + 1)
  {
    hide Reaches;
    var t1 := Next(site, cfg, t, Take(0, []));
    ReachesNext(site, cfg, s, t, Take(0, []));
    var t2 := Next(site, cfg, t1, Finish(0, true));
    ReachesNext(site, cfg, s, t1, Finish(0, true));
    t' := Next(site, cfg, t2, Release(0));
    ReachesNext(site, cfg, s, t2, Release(0));
  }

  lemma {:induction false} CrawlAlone(site: Site, cfg: Config, s: State, n: nat) returns (t: State)
    requires Between(cfg, s, s, 0) && cfg.workers > 0
    requires n < cfg.maxPages && n <= |s.queue|
    ensures Reaches(site, cfg, s, t) && Between(cfg, s, t, n)
  {
    hide Reaches;
    if n == 0 {
      ReachesSelf(site, cfg, s);
      t := s;
    } else {
      var u := CrawlAlone(site, cfg, s, n - 1);
      t := CrawlOne(site, cfg, s, u, n - 1);
    }
  }

  /** The first `k` workers hold a page, the others none, and `n` pages are crawled. */
  ghost predicate Holding(cfg: Config, t: State, n: nat, k: nat) {
    && |t.workers| == cfg.workers && !t.cancelled && t.crawled == n && k <= cfg.workers
    && (forall w :: 0 <= w < k ==> t.workers[w].Running?)
    && (forall w :: k <= w < |t.workers| ==> t.workers[w].Idle?)
  }

  lemma {:induction false} TakeTogether(site: Site, cfg: Config, s: State, t: State, n: nat, k: nat) returns (t': State)
    requires Reaches(site, cfg, s, t) && Holding(cfg, t, n, 0) && n < cfg.maxPages
    requires k <= cfg.workers && k <= |t.queue|
    ensures Reaches(site, cfg, s, t') && Holding(cfg, t', n, k) && |t'.queue| == |t.queue| - k
  {
    hide Reaches;
    if k == 0 {
      t' := t;
    } else {
      var u := TakeTogether(site, cfg, s, t, n, k - 1);
      t' := Next(site, cfg, u, Take(k - 1, []));
      ReachesNext(site, cfg, s, u, Take(k - 1, []));
    }
  }

  lemma {:induction false} FinishTogether(site: Site, cfg: Config, s: State, t: State, k: nat) returns (t': State)
    requires Reaches(site, cfg, s, t) && k <= |t.workers| && forall w :: 0 <= w < k ==> t.workers[w].Running?
    ensures Reaches(site, cfg, s, t') && t'.crawled == t.crawled + k
    decreases k
  {
    hide Reaches;
    if k == 0 {
      t' := t;
    } else {
      var u := Next(site, cfg, t, Finish(k - 1, true));
      ReachesNext(site, cfg, s, t, Finish(k - 1, true));
      t' := FinishTogether(site, cfg, s, u, k - 1);
    }
  }

  /**
   Whenever enough URLs are submitted before the start, some run crawls exactly
   `maxPages + workers - 1` of them: the bound of `Overshoot` cannot be lowered.
   */
  lemma OvershootAttained(site: Site, cfg: Config, base: string, seed: string, sitemap: seq<string>)
    requires cfg.maxPages > 0 && cfg.workers > 0
    requires |Start(site, cfg, base, seed, sitemap).queue| >= cfg.maxPages + cfg.workers - 1
    ensures exists t :: Reaches(site, cfg, Start(site, cfg, base, seed, sitemap), t)
                        && t.crawled == cfg.maxPages + cfg.workers - 1
  {
    var s := Start(site, cfg, base, seed, sitemap);
    StartIsIdle(site, cfg, base, seed, sitemap);
    hide Reaches, Start;
    var alone := CrawlAlone(site, cfg, s, cfg.maxPages - 1);
    var held := TakeTogether(site, cfg, s, alone, cfg.maxPages - 1, cfg.workers);
    var t := FinishTogether(site, cfg, s, held, cfg.workers);
    assert Reaches(site, cfg, s, t) && t.crawled == cfg.maxPages + cfg.workers - 1;
  }

  /** On a plain site every new URL of the sitemap is queued. */
  lemma {:induction false} SitemapQueuesAll(cfg: Config, s: State, urls: seq<string>, source: string)
    requires cfg.maxDepth >= 0 && !s.cancelled
    requires forall i, j :: 0 <= i < j < |urls| ==> urls[i] != urls[j]
    requires forall i :: 0 <= i < |urls| ==> urls[i] !in s.keys
    ensures |SubmitSitemap(PLAIN, cfg, s, urls, source).queue| == |s.queue| + |urls|
    decreases |urls|
  {
    if urls != [] {
      var s' := Offer(PLAIN, cfg, s, urls[0], source, "sitemap", 0);
      assert s'.keys == s.keys + {urls[0]};
      SitemapQueuesAll(cfg, s', urls[1..], source);
    }
  }

  /** A sitemap of `n` different URLs. */
  function Urls(n: nat): seq<string> { seq(n, i requires 0 <= i < n => seq(i + 1, _ => 'u')) }

  /** For every valid configuration some site and sitemap let a run attain the bound. */
  lemma OvershootIsReal(cfg: Config) returns (sitemap: seq<string>, t: State)
    requires ValidConfig(cfg)
    ensures Reaches(PLAIN, cfg, Start(PLAIN, cfg, "h", "s", sitemap), t)
    ensures t.crawled == cfg.maxPages + cfg.workers - 1
  {
    sitemap := Urls(cfg.maxPages + cfg.workers);
    assert forall i :: 0 <= i < |sitemap| ==> |sitemap[i]| == i + 1 && sitemap[i][0] == 'u';
    SitemapQueuesAll(cfg, SubmitSeed(PLAIN, Fresh(cfg, "h"), "s"), sitemap, "s");
    OvershootAttained(PLAIN, cfg, "h", "s", sitemap);
    t :| Reaches(PLAIN, cfg, Start(PLAIN, cfg, "h", "s", sitemap), t) && t.crawled == cfg.maxPages + cfg.workers - 1;
  }

  lemma StartIsIdle(site: Site, cfg: Config, base: string, seed: string, sitemap: seq<string>)
    ensures Between(cfg, Start(site, cfg, base, seed, sitemap), Start(site, cfg, base, seed, sitemap), 0)
  {
    SitemapKeepsWorkers(site, cfg, SubmitSeed(site, Fresh(cfg, base), seed), sitemap, seed);
  }

  lemma {:induction false} SitemapKeepsWorkers(site: Site, cfg: Config, s: State, urls: seq<string>, source: string)
    ensures var t := SubmitSitemap(site, cfg, s, urls, source);
            t.workers == s.workers && t.crawled == s.crawled && t.cancelled == s.cancelled
    decreases |urls|
  {
    if urls != [] {
      SitemapKeepsWorkers(site, cfg, Offer(site, cfg, s, urls[0], source, "sitemap", 0), urls[1..], source);
    }
  }
}
