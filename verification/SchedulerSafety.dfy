/**
 What every step of the scheduler keeps, for any number of workers, any interleaving and any
 behaviour of the pages: counters, conservation of URLs, the overshoot of the page cap, who may
 be asleep, and what the first exit of a worker means.
 */
module SchedulerSafety {
  import opened SchedulerModel

  // ------------------------------------------------------------- sums over workers

  lemma {:induction false} SumUpdate(ws: seq<Worker>, i: nat, w: Worker, f: Worker -> nat)
    requires i < |ws|
    ensures Sum(ws[i := w], f) + f(ws[i]) == Sum(ws, f) + f(w)
  {
    if i == 0 {
      assert ws[i := w][1..] == ws[1..];
    } else {
      SumUpdate(ws[1..], i - 1, w, f);
      assert ws[i := w][1..] == ws[1..][i - 1 := w];
    }
  }

  lemma {:induction false} SumWake(ws: seq<Worker>, f: Worker -> nat)
    requires f(Waiting) == f(Idle)
    ensures Sum(Wake(ws), f) == Sum(ws, f)
  {
    if ws != [] {
      assert Wake(ws)[1..] == Wake(ws[1..]);
      SumWake(ws[1..], f);
    }
  }

  lemma {:induction false} SumMember(ws: seq<Worker>, i: nat, f: Worker -> nat)
    requires i < |ws|
    ensures f(ws[i]) <= Sum(ws, f)
  {
    if i > 0 {
      SumMember(ws[1..], i - 1, f);
    }
  }

  lemma {:induction false} SumPositive(ws: seq<Worker>, f: Worker -> nat)
    requires Sum(ws, f) > 0
    ensures exists i :: 0 <= i < |ws| && f(ws[i]) > 0
  {
    if f(ws[0]) == 0 {
      SumPositive(ws[1..], f);
      var i :| 0 <= i < |ws[1..]| && f(ws[1..][i]) > 0;
      assert f(ws[i + 1]) > 0;
    }
  }

  lemma {:induction false} RunningBound(ws: seq<Worker>)
    ensures Sum(ws, RunningOne) <= Sum(ws, BusyOne)
    ensures Sum(ws, RunningOne) <= |ws|
  {
    if ws != [] {
      RunningBound(ws[1..]);
    }
  }

  // ------------------------------------------------------------- the invariant

  /** `active_workers` counts exactly the workers between taking an item and releasing it. */
  ghost predicate ActiveInv(cfg: Config, s: State) {
    && |s.workers| == cfg.workers
    && s.active == Sum(s.workers, BusyOne)
  }

  /** A sleeping worker always has an active one to wake it. */
  ghost predicate WaitInv(s: State) {
    forall w :: 0 <= w < |s.workers| && s.workers[w].Waiting? ==> s.active > 0
  }

  /** Once a worker has left an uncancelled crawl there is nothing left to do. */
  ghost predicate QuietInv(s: State) {
    !s.cancelled && (exists w :: 0 <= w < |s.workers| && s.workers[w].Done?)
    ==> s.queue == [] && s.active == 0
  }

  ghost predicate DistinctKeys(site: Site, items: seq<Item>) {
    forall i, j :: 0 <= i < j < |items| ==> site.key(items[i].normalized) != site.key(items[j].normalized)
  }

  function KeySet(site: Site, items: seq<Item>): set<string> {
    set i | 0 <= i < |items| :: site.key(items[i].normalized)
  }

  /** Every accepted URL sits in the queue or in the log, once, and `keys` is exactly their keys. */
  ghost predicate ItemInv(site: Site, s: State) {
    && DistinctKeys(site, AllItems(s))
    && s.keys == KeySet(site, AllItems(s))
    && s.discovered == |AllItems(s)|
  }

  ghost predicate CountInv(cfg: Config, s: State) {
    && s.crawled >= 0 && s.failed >= 0
    && Handed(s.log) == RunningCount(s) + s.crawled + s.failed
    && s.offered == s.discovered + s.diag.Total()
    && (RunningCount(s) + s.crawled > 0 ==> s.crawled + RunningCount(s) <= cfg.maxPages + cfg.workers - 1)
  }

  ghost predicate Inv(site: Site, cfg: Config, s: State) {
    && ActiveInv(cfg, s) && WaitInv(s) && QuietInv(s)
    && ItemInv(site, s) && CountInv(cfg, s)
  }

  // ------------------------------------------------------------- submissions

  /** What one submission can do to the state, whichever branch answers it. */
  ghost predicate Submitted(site: Site, s: State, s': State) {
    && s'.active == s.active && s'.workers == s.workers && s'.log == s.log
    && s'.crawled == s.crawled && s'.failed == s.failed && s'.cancelled == s.cancelled
    && s'.base == s.base && s'.cut == s.cut && s.pending <= s'.pending
    && s'.offered - s'.discovered - s'.diag.Total() == s.offered - s.discovered - s.diag.Total()
    && ((s'.queue == s.queue && s'.keys == s.keys && s'.discovered == s.discovered)
        || exists item :: Appended(site, s, s', item))
  }

  ghost predicate Appended(site: Site, s: State, s': State, item: Item) {
    && site.key(item.normalized) !in s.keys
    && s'.queue == s.queue + [item]
    && s'.keys == s.keys + {site.key(item.normalized)}
    && s'.discovered == s.discovered + 1
  }

  /** Every rejection increments exactly one counter. */
  lemma BumpTotal(d: Diagnostics, r: Reason)
    ensures d.Bump(r).Total() == d.Total() + 1
  {
  }

  lemma SettleSubmits(site: Site, s: State, v: Verdict, item: Item, shown: string)
    requires v.Accept? ==> site.key(v.canonical) !in s.keys
    ensures Submitted(site, s, Settle(site, s, v, item, shown))
    ensures v.Accept? ==> Appended(site, s, Settle(site, s, v, item, shown), item.(normalized := v.canonical))
  {
    match v
    case Quiet =>
    case Reject(r) =>
      BumpTotal(s.diag, r);
    case Skip(_, pattern) =>
      BumpTotal(s.diag, ReasonOfPattern(pattern));
    case Accept(_) =>
      assert Appended(site, s, Settle(site, s, v, item, shown), item.(normalized := v.canonical));
  }

  lemma OfferSubmits(site: Site, cfg: Config, s: State, raw: string, source: string, kind: string, depth: int)
    ensures Submitted(site, s, Offer(site, cfg, s, raw, source, kind, depth))
  {
    var v := Judge(site, cfg, s, raw, depth);
    var item := Item(raw, raw, source, kind, depth);
    SettleSubmits(site, s, v, item, raw);
    if v.Accept? {
      var s' := Offer(site, cfg, s, raw, source, kind, depth);
      assert Appended(site, s, s', item.(normalized := v.canonical));
    }
  }

  lemma SubmittedKeepsItems(site: Site, s: State, s': State)
    requires ItemInv(site, s) && Submitted(site, s, s')
    ensures ItemInv(site, s')
  {
    if s'.queue == s.queue && s'.keys == s.keys && s'.discovered == s.discovered {
      assert AllItems(s') == AllItems(s);
    } else {
      var item :| Appended(site, s, s', item);
      var items := AllItems(s);
      assert AllItems(s') == items + [item];
      forall i | 0 <= i < |items| ensures site.key(items[i].normalized) != site.key(item.normalized) {
        assert site.key(items[i].normalized) in KeySet(site, items);
      }
      KeySetGrows(site, items, item);
    }
  }

  // ------------------------------------------------------------- one step

  lemma TakeOffQueue(site: Site, s: State, s': State, handed: bool)
    requires ItemInv(site, s) && s.queue != []
    requires s'.queue == s.queue[1..] && s'.log == s.log + [Taken(s.queue[0], handed)]
    requires s'.keys == s.keys && s'.discovered == s.discovered
    ensures AllItems(s') == AllItems(s) && ItemInv(site, s')
    ensures Handed(s'.log) == Handed(s.log) + (if handed then 1 else 0)
  {
    assert LogItems(s'.log) == LogItems(s.log) + [s.queue[0]];
    assert AllItems(s') == AllItems(s);
    assert s'.log[..|s'.log| - 1] == s.log;
  }

  lemma IdleStepKeepsActive(site: Site, cfg: Config, s: State, a: Action)
    requires ActiveInv(cfg, s) && Enabled(cfg, s, a)
    requires a.Wait? || a.Leave? || a.Release? || a.Notify?
    ensures ActiveInv(cfg, Next(site, cfg, s, a))
  {
    match a
    case Wait(w) => SumUpdate(s.workers, w, Waiting, BusyOne);
    case Leave(w) =>
      SumUpdate(s.workers, w, Done, BusyOne);
      SumWake(s.workers, BusyOne);
      SumUpdate(Wake(s.workers), w, Done, BusyOne);
    case Release(w) =>
      SumUpdate(s.workers, w, Idle, BusyOne);
      SumWake(s.workers[w := Idle], BusyOne);
    case Notify => SumWake(s.workers, BusyOne);
  }

  lemma StepKeepsActive(site: Site, cfg: Config, s: State, a: Action)
    requires ActiveInv(cfg, s) && Enabled(cfg, s, a)
    ensures ActiveInv(cfg, Next(site, cfg, s, a))
  {
    if a.Wait? || a.Leave? || a.Release? || a.Notify? {
      IdleStepKeepsActive(site, cfg, s, a);
    } else {
      match a
      case Take(w, todo) => SumUpdate(s.workers, w, Running(s.queue[0], todo, true), BusyOne);
      case Submit(w) =>
        SumUpdate(s.workers, w, Running(s.workers[w].item, s.workers[w].todo[1..], false), BusyOne);
        SubmitShape(site, cfg, s, w);
      case Rebase(w, _) => SumUpdate(s.workers, w, s.workers[w].(unsettled := false), BusyOne);
      case Finish(w, _) => SumUpdate(s.workers, w, Counted, BusyOne);
      case _ =>
    }
  }

  /** A worker's submission is `Submitted` from the state with its link list advanced. */
  lemma SubmitShape(site: Site, cfg: Config, s: State, w: nat)
    requires Enabled(cfg, s, Submit(w))
    ensures var mid := s.(workers := s.workers[w := Running(s.workers[w].item, s.workers[w].todo[1..], false)]);
            var s' := Next(site, cfg, s, Submit(w));
            Submitted(site, mid, s') || s' == mid.(cut := true)
  {
    var item, todo := s.workers[w].item, s.workers[w].todo;
    var mid := s.(workers := s.workers[w := Running(item, todo[1..], false)]);
    if item.depth + 1 <= cfg.maxDepth {
      OfferSubmits(site, cfg, mid, todo[0], item.normalized, "html_link", item.depth + 1);
    }
  }

  lemma StepKeepsWait(site: Site, cfg: Config, s: State, a: Action)
    requires ActiveInv(cfg, s) && WaitInv(s) && Enabled(cfg, s, a)
    ensures WaitInv(Next(site, cfg, s, a))
  {
    if a.Submit? {
      SubmitShape(site, cfg, s, a.w);
    } else if a.Wait? {
      assert s.active > 0 || Sum(s.workers, BusyOne) < 0;
    }
  }

  /** A busy worker keeps an uncancelled crawl from being quiet. */
  lemma BusyMeansNoneLeft(cfg: Config, s: State, v: nat)
    requires ActiveInv(cfg, s) && QuietInv(s) && v < |s.workers| && (s.workers[v].Running? || s.workers[v].Counted?)
    ensures s.cancelled || forall w :: 0 <= w < |s.workers| ==> !s.workers[w].Done?
  {
    SumMember(s.workers, v, BusyOne);
  }

  lemma BusyStepKeepsQuiet(site: Site, cfg: Config, s: State, a: Action)
    requires ActiveInv(cfg, s) && QuietInv(s) && Enabled(cfg, s, a)
    requires a.Submit? || a.Finish? || a.Release?
    ensures QuietInv(Next(site, cfg, s, a))
  {
    BusyMeansNoneLeft(cfg, s, a.w);
    if a.Submit? {
      SubmitShape(site, cfg, s, a.w);
      hide Next;
    }
  }

  lemma StepKeepsQuiet(site: Site, cfg: Config, s: State, a: Action)
    requires ActiveInv(cfg, s) && QuietInv(s) && Enabled(cfg, s, a)
    ensures QuietInv(Next(site, cfg, s, a))
  {
    var s' := Next(site, cfg, s, a);
    if a.Submit? || a.Finish? || a.Release? {
      hide Next, QuietInv;
      BusyStepKeepsQuiet(site, cfg, s, a);
    } else if !a.Leave? && !s'.cancelled && exists w :: 0 <= w < |s'.workers| && s'.workers[w].Done? {
      FinishedBefore(s, s');
    }
  }

  lemma FinishedBefore(s: State, s': State)
    requires |s'.workers| == |s.workers|
    requires forall v :: 0 <= v < |s.workers| && s'.workers[v].Done? ==> s.workers[v].Done?
    requires exists v :: 0 <= v < |s'.workers| && s'.workers[v].Done?
    ensures exists v :: 0 <= v < |s.workers| && s.workers[v].Done?
  {
    var v :| 0 <= v < |s'.workers| && s'.workers[v].Done?;
    assert s.workers[v].Done?;
  }

  lemma SubmitKeepsItems(site: Site, cfg: Config, s: State, w: nat)
    requires ItemInv(site, s) && Enabled(cfg, s, Submit(w))
    ensures ItemInv(site, Next(site, cfg, s, Submit(w)))
    ensures AllItems(s) <= AllItems(Next(site, cfg, s, Submit(w)))
  {
    var s' := Next(site, cfg, s, Submit(w));
    var mid := s.(workers := s.workers[w := Running(s.workers[w].item, s.workers[w].todo[1..], false)]);
    assert AllItems(mid) == AllItems(s);
    SubmitShape(site, cfg, s, w);
    hide Next;
    if Submitted(site, mid, s') {
      SubmittedKeepsItems(site, mid, s');
      assert AllItems(s') == AllItems(s) + s'.queue[|s.queue|..];
    } else {
      assert AllItems(s') == AllItems(s);
    }
  }

  lemma StepKeepsItems(site: Site, cfg: Config, s: State, a: Action)
    requires ItemInv(site, s) && Enabled(cfg, s, a)
    ensures ItemInv(site, Next(site, cfg, s, a))
    ensures AllItems(s) <= AllItems(Next(site, cfg, s, a))
  {
    var s' := Next(site, cfg, s, a);
    match a {
      case Take(_, _) => TakeOffQueue(site, s, s', true);
      case Drop(_) => TakeOffQueue(site, s, s', false);
      case Submit(w) =>
        hide Next, ItemInv, AllItems;
        SubmitKeepsItems(site, cfg, s, w);
      case _ => assert AllItems(s') == AllItems(s);
    }
  }

  /** The counters a step may not touch when it only moves one worker between uncounted places. */
  lemma SameCounts(cfg: Config, s: State, s': State)
    requires CountInv(cfg, s) && RunningCount(s') == RunningCount(s)
    requires s'.crawled == s.crawled && s'.failed == s.failed && s'.log == s.log
    requires s'.offered - s'.discovered - s'.diag.Total() == s.offered - s.discovered - s.diag.Total()
    ensures CountInv(cfg, s')
  {
  }

  lemma IdleStepKeepsCounts(site: Site, cfg: Config, s: State, a: Action)
    requires CountInv(cfg, s) && Enabled(cfg, s, a)
    requires a.Wait? || a.Leave? || a.Rebase? || a.Release? || a.Notify? || a.Cancel?
    ensures CountInv(cfg, Next(site, cfg, s, a))
  {
    match a
    case Wait(w) => SumUpdate(s.workers, w, Waiting, RunningOne);
    case Leave(w) =>
      SumUpdate(s.workers, w, Done, RunningOne);
      SumWake(s.workers, RunningOne);
      SumUpdate(Wake(s.workers), w, Done, RunningOne);
    case Rebase(w, _) => SumUpdate(s.workers, w, s.workers[w].(unsettled := false), RunningOne);
    case Release(w) =>
      SumUpdate(s.workers, w, Idle, RunningOne);
      SumWake(s.workers[w := Idle], RunningOne);
    case Notify => SumWake(s.workers, RunningOne);
    case Cancel => SameCounts(cfg, s, Next(site, cfg, s, a));
  }

  lemma HandedGrows(log: seq<Taken>, t: Taken)
    ensures Handed(log + [t]) == Handed(log) + if t.handed then 1 else 0
  {
    assert (log + [t])[..|log|] == log;
  }

  lemma PageStepKeepsCounts(site: Site, cfg: Config, s: State, a: Action)
    requires ActiveInv(cfg, s) && CountInv(cfg, s) && Enabled(cfg, s, a)
    requires a.Take? || a.Drop? || a.Finish?
    ensures CountInv(cfg, Next(site, cfg, s, a))
  {
    if a.Take? {
      HandedGrows(s.log, Taken(s.queue[0], true));
      SumUpdate(s.workers, a.w, Running(s.queue[0], a.todo, true), RunningOne);
      RunningBound(Next(site, cfg, s, a).workers);
    } else if a.Drop? {
      HandedGrows(s.log, Taken(s.queue[0], false));
    } else {
      SumUpdate(s.workers, a.w, Counted, RunningOne);
    }
  }

  lemma StepKeepsCounts(site: Site, cfg: Config, s: State, a: Action)
    requires ActiveInv(cfg, s) && CountInv(cfg, s) && Enabled(cfg, s, a)
    ensures CountInv(cfg, Next(site, cfg, s, a))
  {
    if a.Submit? {
      var w := a.w;
      SumUpdate(s.workers, w, Running(s.workers[w].item, s.workers[w].todo[1..], false), RunningOne);
      SubmitShape(site, cfg, s, w);
      SameCounts(cfg, s, Next(site, cfg, s, a));
    } else if a.Take? || a.Drop? || a.Finish? {
      PageStepKeepsCounts(site, cfg, s, a);
    } else {
      IdleStepKeepsCounts(site, cfg, s, a);
    }
  }

  lemma StepKeepsInv(site: Site, cfg: Config, s: State, a: Action)
    requires Inv(site, cfg, s) && Enabled(cfg, s, a)
    ensures Inv(site, cfg, Next(site, cfg, s, a))
  {
    StepKeepsActive(site, cfg, s, a);
    StepKeepsWait(site, cfg, s, a);
    StepKeepsQuiet(site, cfg, s, a);
    StepKeepsItems(site, cfg, s, a);
    StepKeepsCounts(site, cfg, s, a);
  }

  // ------------------------------------------------------------- the start

  lemma {:induction false} SumIdle(ws: seq<Worker>, f: Worker -> nat)
    requires f(Idle) == 0 && forall i :: 0 <= i < |ws| ==> ws[i].Idle?
    ensures Sum(ws, f) == 0
  {
    if ws != [] {
      SumIdle(ws[1..], f);
    }
  }

  /** Nothing has run yet: all workers idle, nothing taken, counted or cancelled. */
  ghost predicate Unstarted(site: Site, cfg: Config, s: State) {
    && |s.workers| == cfg.workers && (forall w :: 0 <= w < |s.workers| ==> s.workers[w].Idle?)
    && s.active == 0 && s.crawled == 0 && s.failed == 0 && s.log == [] && !s.cancelled && !s.cut
    && ItemInv(site, s) && s.offered == s.discovered + s.diag.Total()
  }

  lemma {:induction false} SitemapUnstarted(site: Site, cfg: Config, s: State, urls: seq<string>, source: string)
    requires Unstarted(site, cfg, s)
    ensures Unstarted(site, cfg, SubmitSitemap(site, cfg, s, urls, source))
    ensures SubmitSitemap(site, cfg, s, urls, source).base == s.base
    decreases |urls|
  {
    if urls != [] {
      var s' := Offer(site, cfg, s, urls[0], source, "sitemap", 0);
      OfferSubmits(site, cfg, s, urls[0], source, "sitemap", 0);
      SubmittedKeepsItems(site, s, s');
      SitemapUnstarted(site, cfg, s', urls[1..], source);
    }
  }

  lemma FreshUnstarted(site: Site, cfg: Config, base: string)
    ensures Unstarted(site, cfg, Fresh(cfg, base))
  {
    var items := AllItems(Fresh(cfg, base));
    assert items == [];
    assert KeySet(site, items) == {};
  }

  lemma SeedUnstarted(site: Site, cfg: Config, s: State, seed: string)
    requires Unstarted(site, cfg, s)
    ensures Unstarted(site, cfg, SubmitSeed(site, s, seed))
    ensures SubmitSeed(site, s, seed).base == s.base
  {
    var v := JudgeSeed(site, s, seed);
    SettleSubmits(site, s, v, Item(seed, seed, seed, "seed", 0), if v.Skip? then v.canonical else seed);
    SubmittedKeepsItems(site, s, SubmitSeed(site, s, seed));
  }

  lemma UnstartedInv(site: Site, cfg: Config, s: State)
    requires Unstarted(site, cfg, s)
    ensures Inv(site, cfg, s)
  {
    SumIdle(s.workers, BusyOne);
    SumIdle(s.workers, RunningOne);
  }

  lemma StartUnstarted(site: Site, cfg: Config, base: string, seed: string, sitemap: seq<string>)
    ensures Unstarted(site, cfg, Start(site, cfg, base, seed, sitemap))
    ensures Inv(site, cfg, Start(site, cfg, base, seed, sitemap))
    ensures Start(site, cfg, base, seed, sitemap).base == base
  {
    var s0 := Fresh(cfg, base);
    FreshUnstarted(site, cfg, base);
    SeedUnstarted(site, cfg, s0, seed);
    SitemapUnstarted(site, cfg, SubmitSeed(site, s0, seed), sitemap, seed);
    UnstartedInv(site, cfg, Start(site, cfg, base, seed, sitemap));
  }

  // ------------------------------------------------------------- runs

  lemma {:induction false} RunKeepsInv(site: Site, cfg: Config, trace: seq<State>, acts: seq<Action>, i: nat)
    requires IsRun(site, cfg, trace, acts) && Inv(site, cfg, trace[0])
    requires i < |trace|
    ensures Inv(site, cfg, trace[i])
  {
    if i > 0 {
      RunKeepsInv(site, cfg, trace, acts, i - 1);
      assert StepAt(site, cfg, trace, acts, i - 1);
      StepKeepsInv(site, cfg, trace[i - 1], acts[i - 1]);
    }
  }

  lemma {:induction false} LogSplit(log: seq<Taken>)
    ensures Handed(log) <= |log|
  {
    if log != [] {
      LogSplit(log[..|log| - 1]);
    }
  }

  lemma KeySetGrows(site: Site, items: seq<Item>, item: Item)
    ensures KeySet(site, items + [item]) == KeySet(site, items) + {site.key(item.normalized)}
  {
    var k, all := site.key(item.normalized), items + [item];
    forall x | x in KeySet(site, items) + {k} ensures x in KeySet(site, all) {
      if x == k {
        assert all[|items|] == item;
      } else {
        var i :| 0 <= i < |items| && x == site.key(items[i].normalized);
        assert all[i] == items[i];
      }
    }
  }

  lemma {:induction false} KeyCount(site: Site, items: seq<Item>)
    requires DistinctKeys(site, items)
    ensures |KeySet(site, items)| == |items|
  {
    if items != [] {
      var front, last := items[..|items| - 1], items[|items| - 1];
      assert items == front + [last];
      KeyCount(site, front);
      KeySetGrows(site, front, last);
      assert site.key(last.normalized) !in KeySet(site, front);
    }
  }

  /**
   Conservation: at every point of every run, each discovered URL is queued, running, crawled,
   failed or dropped at the page cap, and the discovered counter is the size of the visited set.
   */
  lemma Conservation(site: Site, cfg: Config, base: string, seed: string, sitemap: seq<string>,
                     trace: seq<State>, acts: seq<Action>, i: nat)
    requires IsRun(site, cfg, trace, acts) && i < |trace|
    requires trace[0] == Start(site, cfg, base, seed, sitemap)
    ensures var s := trace[i];
            var dropped := |s.log| - Handed(s.log);
            && s.discovered == |s.keys|
            && dropped >= 0
            && s.discovered == |s.queue| + RunningCount(s) + s.crawled + s.failed + dropped
            && s.offered == s.discovered + s.diag.Total()
  {
    StartUnstarted(site, cfg, base, seed, sitemap);
    RunKeepsInv(site, cfg, trace, acts, i);
    LogSplit(trace[i].log);
    KeyCount(site, AllItems(trace[i]));
  }

  /** No canonical URL leaves the queue twice, and none that left it is queued again. */
  lemma AtMostOnce(site: Site, cfg: Config, base: string, seed: string, sitemap: seq<string>,
                   trace: seq<State>, acts: seq<Action>, i: nat)
    requires IsRun(site, cfg, trace, acts) && i < |trace|
    requires trace[0] == Start(site, cfg, base, seed, sitemap)
    ensures var s := trace[i];
            && (forall a, b :: 0 <= a < b < |s.log| ==> s.log[a].item.normalized != s.log[b].item.normalized)
            && (forall a, b :: 0 <= a < |s.log| && 0 <= b < |s.queue| ==>
                  s.log[a].item.normalized != s.queue[b].normalized)
  {
    StartUnstarted(site, cfg, base, seed, sitemap);
    RunKeepsInv(site, cfg, trace, acts, i);
    var s := trace[i];
    var items := AllItems(s);
    assert forall a :: 0 <= a < |s.log| ==> items[a] == s.log[a].item;
    assert forall b :: 0 <= b < |s.queue| ==> items[|s.log| + b] == s.queue[b];
  }

  /** The page cap is tested at dequeue, so it can be passed by at most `workers - 1` pages. */
  lemma Overshoot(site: Site, cfg: Config, base: string, seed: string, sitemap: seq<string>,
                  trace: seq<State>, acts: seq<Action>, i: nat)
    requires cfg.maxPages > 0 && cfg.workers > 0
    requires IsRun(site, cfg, trace, acts) && i < |trace|
    requires trace[0] == Start(site, cfg, base, seed, sitemap)
    ensures trace[i].crawled + RunningCount(trace[i]) <= cfg.maxPages + cfg.workers - 1
  {
    StartUnstarted(site, cfg, base, seed, sitemap);
    RunKeepsInv(site, cfg, trace, acts, i);
  }

  /**
   Stable quiescence: once a worker has left an uncancelled crawl, the queue is empty and nobody
   is active, then and in every later state that is still uncancelled.
   */
  lemma StableQuiescence(site: Site, cfg: Config, base: string, seed: string, sitemap: seq<string>,
                         trace: seq<State>, acts: seq<Action>, i: nat, w: nat, j: nat)
    requires IsRun(site, cfg, trace, acts)
    requires trace[0] == Start(site, cfg, base, seed, sitemap)
    requires i <= j < |trace| && w < |trace[i].workers| && trace[i].workers[w].Done?
    requires !trace[j].cancelled
    ensures trace[j].queue == [] && trace[j].active == 0
    ensures AllItems(trace[j]) == AllItems(trace[i])
    decreases j - i
  {
    StartUnstarted(site, cfg, base, seed, sitemap);
    RunKeepsInv(site, cfg, trace, acts, i);
    if trace[i].cancelled {
      CancelSticks(site, cfg, trace, acts, i, j);
    }
    assert QuietInv(trace[i]);
    if i < j {
      assert StepAt(site, cfg, trace, acts, i);
      assert trace[i + 1].workers[w].Done? by { DoneSticks(site, cfg, trace[i], acts[i], w); }
      QuietStepKeepsItems(site, cfg, trace[i], acts[i]);
      StableQuiescence(site, cfg, base, seed, sitemap, trace, acts, i + 1, w, j);
    }
  }

  lemma DoneSticks(site: Site, cfg: Config, s: State, a: Action, w: nat)
    requires Enabled(cfg, s, a) && w < |s.workers| && s.workers[w].Done?
    ensures var s' := Next(site, cfg, s, a); w < |s'.workers| && s'.workers[w].Done?
  {
    if a.Submit? {
      SubmitShape(site, cfg, s, a.w);
    }
  }

  lemma QuietStepKeepsItems(site: Site, cfg: Config, s: State, a: Action)
    requires Inv(site, cfg, s) && Enabled(cfg, s, a) && s.queue == [] && s.active == 0
    ensures AllItems(Next(site, cfg, s, a)) == AllItems(s)
  {
    if a.Submit? {
      SumMember(s.workers, a.w, BusyOne);
    }
  }

  lemma {:induction false} CancelSticks(site: Site, cfg: Config, trace: seq<State>, acts: seq<Action>, i: nat, j: nat)
    requires IsRun(site, cfg, trace, acts) && i <= j < |trace| && trace[i].cancelled
    ensures trace[j].cancelled
  {
    if i < j {
      CancelSticks(site, cfg, trace, acts, i, j - 1);
      assert StepAt(site, cfg, trace, acts, j - 1);
      if acts[j - 1].Submit? {
        SubmitShape(site, cfg, trace[j - 1], acts[j - 1].w);
      }
    }
  }

  // ------------------------------------------------------------- progress

  /**
   Deadlock freedom: while some worker has not left, some step other than a cancel can happen,
   also after `cancel()`, which notifies nobody.
   */
  lemma DeadlockFree(site: Site, cfg: Config, s: State)
    requires Inv(site, cfg, s) && !AllDone(s)
    ensures exists a: Action :: !a.Cancel? && Enabled(cfg, s, a)
  {
    var w :| 0 <= w < |s.workers| && !s.workers[w].Done?;
    match s.workers[w]
    case Idle => IdleCanMove(cfg, s, w);
    case Running(_, _, _) => assert Enabled(cfg, s, Finish(w, true));
    case Counted => assert Enabled(cfg, s, Release(w));
    case Waiting =>
      SumPositive(s.workers, BusyOne);
      var v :| 0 <= v < |s.workers| && BusyOne(s.workers[v]) > 0;
      if s.workers[v].Running? {
        assert Enabled(cfg, s, Finish(v, true));
      } else {
        assert Enabled(cfg, s, Release(v));
      }
  }

  lemma IdleCanMove(cfg: Config, s: State, w: nat)
    requires IsIdle(s, w)
    ensures exists a: Action :: !a.Cancel? && Enabled(cfg, s, a)
  {
    if s.cancelled || (s.queue == [] && s.active == 0) {
      assert Enabled(cfg, s, Leave(w));
    } else if s.queue == [] {
      assert Enabled(cfg, s, Wait(w));
    } else if s.crawled < cfg.maxPages {
      assert Enabled(cfg, s, Take(w, []));
    } else {
      assert Enabled(cfg, s, Drop(w));
    }
  }

  ghost predicate SomeoneSleeps(s: State) {
    exists w :: 0 <= w < |s.workers| && s.workers[w].Waiting?
  }

  /** While a URL is queued and a worker sleeps, a wake-up is on its way. */
  ghost predicate WakeInv(s: State) {
    SomeoneSleeps(s) && s.queue != [] ==> s.pending > 0
  }

  /** A notification, and the end of a page, leave nobody asleep. */
  lemma WakesAll(site: Site, cfg: Config, s: State, a: Action)
    requires Enabled(cfg, s, a) && (a.Notify? || a.Release?)
    ensures !SomeoneSleeps(Next(site, cfg, s, a))
  {
  }

  lemma StepKeepsWakeUps(site: Site, cfg: Config, s: State, a: Action)
    requires WakeInv(s) && Enabled(cfg, s, a)
    ensures WakeInv(Next(site, cfg, s, a))
  {
    var s' := Next(site, cfg, s, a);
    if a.Submit? {
      SubmitWakes(site, cfg, s, a.w);
    } else if a.Notify? || a.Release? {
      WakesAll(site, cfg, s, a);
    } else if !a.Wait? && SomeoneSleeps(s') {
      var w :| 0 <= w < |s'.workers| && s'.workers[w].Waiting?;
      assert s.workers[w].Waiting?;
    }
  }

  /** A submission that queues a URL also schedules a wake-up. */
  lemma SubmitWakes(site: Site, cfg: Config, s: State, w: nat)
    requires WakeInv(s) && Enabled(cfg, s, Submit(w))
    ensures WakeInv(Next(site, cfg, s, Submit(w)))
  {
    var s' := Next(site, cfg, s, Submit(w));
    assert s'.queue == s.queue || s'.pending > 0;
    SubmitShape(site, cfg, s, w);
    hide Next;
    if SomeoneSleeps(s') {
      var v :| 0 <= v < |s'.workers| && s'.workers[v].Waiting?;
      assert s.workers[v].Waiting?;
    }
  }

  /** No lost wake-up: at every point of every run, a worker asleep beside a non-empty queue is about to be woken. */
  lemma {:induction false} NoLostWakeUp(site: Site, cfg: Config, base: string, seed: string, sitemap: seq<string>,
                                        trace: seq<State>, acts: seq<Action>, i: nat)
    requires IsRun(site, cfg, trace, acts) && i < |trace|
    requires trace[0] == Start(site, cfg, base, seed, sitemap)
    ensures WakeInv(trace[i])
  {
    if i == 0 {
      StartUnstarted(site, cfg, base, seed, sitemap);
    } else {
      hide WakeInv, Start;
      NoLostWakeUp(site, cfg, base, seed, sitemap, trace, acts, i - 1);
      assert StepAt(site, cfg, trace, acts, i - 1);
      StepKeepsWakeUps(site, cfg, trace[i - 1], acts[i - 1]);
    }
  }

  /** Whoever leaves last leaves nobody asleep: the notify before the exit wakes no one. */
  lemma ExitWakesNobody(site: Site, cfg: Config, s: State)
    requires Inv(site, cfg, s) && s.active == 0
    ensures Wake(s.workers) == s.workers
  {
  }
}
