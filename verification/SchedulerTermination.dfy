/**
 Every run of the scheduler is finite when the links come from a finite set of URLs, whatever the
 interleaving.  Together with deadlock freedom: every crawl ends with all workers gone.
 */
module SchedulerTermination {
  import opened Basics
  import opened SchedulerModel
  import opened SchedulerSafety

  /** Steps still ahead of a worker inside its current page. */
  function WorkOf(w: Worker): nat {
    if w.Running? then |w.todo| + 2 + (if w.unsettled then 1 else 0) else if w.Counted? then 1 else 0
  }

  function IdleOne(w: Worker): nat { if w.Idle? then 1 else 0 }

  /** The keys that links drawn from `raws` can add. */
  ghost function Universe(site: Site, raws: set<string>): set<string> {
    set r | r in raws && site.canon(r).Some? :: site.key(site.canon(r).value)
  }

  ghost predicate TodosWithin(s: State, raws: set<string>) {
    forall w :: 0 <= w < |s.workers| && s.workers[w].Running? ==> Within(s.workers[w].todo, raws)
  }

  ghost predicate Within(todo: seq<string>, raws: set<string>) {
    forall r :: r in todo ==> r in raws
  }

  ghost predicate TakesWithin(a: Action, raws: set<string>) {
    a.Take? ==> Within(a.todo, raws)
  }

  lemma StepKeepsTodos(site: Site, cfg: Config, s: State, a: Action, raws: set<string>)
    requires TodosWithin(s, raws) && Enabled(cfg, s, a) && TakesWithin(a, raws)
    ensures TodosWithin(Next(site, cfg, s, a), raws)
  {
    if a.Submit? {
      SubmitShape(site, cfg, s, a.w);
    }
  }

  /** The termination measure, compared lexicographically. */
  datatype Measure = Measure(live: nat, unseen: nat, queued: nat, work: nat, pending: nat, idle: nat)
  {
    predicate Below(m: Measure) {
      live < m.live || (live == m.live &&
      (unseen < m.unseen || (unseen == m.unseen &&
      (queued < m.queued || (queued == m.queued &&
      (work < m.work || (work == m.work &&
      (pending < m.pending || (pending == m.pending && idle < m.idle)))))))))
    }
  }

  ghost function MeasureOf(site: Site, s: State, raws: set<string>): Measure {
    Measure(if s.cancelled then 0 else 1, |Universe(site, raws) - s.keys|, |s.queue|,
            Sum(s.workers, WorkOf), s.pending, Sum(s.workers, IdleOne))
  }

  /** An accepted link uses up a key of the universe. */
  lemma AcceptLowers(site: Site, raws: set<string>, raw: string, keys: set<string>)
    requires raw in raws && site.canon(raw).Some? && site.key(site.canon(raw).value) !in keys
    ensures |Universe(site, raws) - (keys + {site.key(site.canon(raw).value)})| < |Universe(site, raws) - keys|
  {
    var k := site.key(site.canon(raw).value);
    var left := Universe(site, raws) - keys;
    assert k in left;
    assert Universe(site, raws) - (keys + {k}) == left - {k};
  }

  /** With the same keys, queue and cancel flag only work, notifies and idlers matter. */
  ghost predicate WorkerStepLowers(s: State, s': State) {
    && s'.cancelled == s.cancelled && s'.keys == s.keys && s'.queue == s.queue
    && (Sum(s'.workers, WorkOf) < Sum(s.workers, WorkOf)
        || (Sum(s'.workers, WorkOf) == Sum(s.workers, WorkOf)
            && (s'.pending < s.pending
                || (s'.pending == s.pending && Sum(s'.workers, IdleOne) < Sum(s.workers, IdleOne)))))
  }

  lemma WorkerStepBelow(site: Site, s: State, s': State, raws: set<string>)
    requires WorkerStepLowers(s, s')
    ensures MeasureOf(site, s', raws).Below(MeasureOf(site, s, raws))
  {
  }

  lemma RefusedSubmitLowers(site: Site, cfg: Config, s: State, w: nat)
    requires Enabled(cfg, s, Submit(w))
    requires var mid := s.(workers := s.workers[w := Running(s.workers[w].item, s.workers[w].todo[1..], false)]);
             s.workers[w].item.depth + 1 <= cfg.maxDepth
             ==> !Judge(site, cfg, mid, s.workers[w].todo[0], s.workers[w].item.depth + 1).Accept?
    ensures WorkerStepLowers(s, Next(site, cfg, s, Submit(w)))
  {
    var item, todo := s.workers[w].item, s.workers[w].todo;
    SumUpdate(s.workers, w, Running(item, todo[1..], false), WorkOf);
  }

  lemma SubmitLowers(site: Site, cfg: Config, s: State, w: nat, raws: set<string>)
    requires TodosWithin(s, raws) && Enabled(cfg, s, Submit(w))
    ensures MeasureOf(site, Next(site, cfg, s, Submit(w)), raws).Below(MeasureOf(site, s, raws))
  {
    var item, todo := s.workers[w].item, s.workers[w].todo;
    var mid := s.(workers := s.workers[w := Running(item, todo[1..], false)]);
    var v := Judge(site, cfg, mid, todo[0], item.depth + 1);
    if item.depth + 1 <= cfg.maxDepth && v.Accept? {
      assert todo[0] in raws;
      AcceptLowers(site, raws, todo[0], s.keys);
      assert Next(site, cfg, s, Submit(w)).keys == s.keys + {site.key(v.canonical)};
    } else {
      RefusedSubmitLowers(site, cfg, s, w);
      WorkerStepBelow(site, s, Next(site, cfg, s, Submit(w)), raws);
    }
  }

  /** An exit lowers the measure because it wakes nobody. */
  lemma IdleStepLowers(site: Site, cfg: Config, s: State, a: Action)
    requires Inv(site, cfg, s) && (a.Wait? || a.Leave?) && Enabled(cfg, s, a)
    ensures WorkerStepLowers(s, Next(site, cfg, s, a))
  {
    if a.Leave? && !s.cancelled {
      ExitWakesNobody(site, cfg, s);
    }
    var last := if a.Wait? then Waiting else Done;
    SumUpdate(s.workers, a.w, last, WorkOf);
    SumUpdate(s.workers, a.w, last, IdleOne);
  }

  lemma BusyStepLowers(site: Site, cfg: Config, s: State, a: Action)
    requires Enabled(cfg, s, a) && (a.Rebase? || a.Finish? || a.Release? || a.Notify?)
    ensures WorkerStepLowers(s, Next(site, cfg, s, a))
  {
    match a
    case Rebase(w, _) => SumUpdate(s.workers, w, s.workers[w].(unsettled := false), WorkOf);
    case Finish(w, _) => SumUpdate(s.workers, w, Counted, WorkOf);
    case Release(w) =>
      SumUpdate(s.workers, w, Idle, WorkOf);
      SumWake(s.workers[w := Idle], WorkOf);
    case Notify => SumWake(s.workers, WorkOf);
  }

  lemma StepLowers(site: Site, cfg: Config, s: State, a: Action, raws: set<string>)
    requires Inv(site, cfg, s) && TodosWithin(s, raws) && Enabled(cfg, s, a)
    ensures MeasureOf(site, Next(site, cfg, s, a), raws).Below(MeasureOf(site, s, raws))
  {
    if a.Submit? {
      SubmitLowers(site, cfg, s, a.w, raws);
    } else if a.Wait? || a.Leave? {
      IdleStepLowers(site, cfg, s, a);
      WorkerStepBelow(site, s, Next(site, cfg, s, a), raws);
    } else if a.Rebase? || a.Finish? || a.Release? || a.Notify? {
      BusyStepLowers(site, cfg, s, a);
      WorkerStepBelow(site, s, Next(site, cfg, s, a), raws);
    }
  }

  /** `acts(i)` leads from `states(i)` to the next state. */
  ghost predicate StepsAt(site: Site, cfg: Config, states: nat -> State, acts: nat -> Action, i: nat) {
    Enabled(cfg, states(i), acts(i)) && states(i + 1) == Next(site, cfg, states(i), acts(i))
  }

  ghost predicate Endless(site: Site, cfg: Config, raws: set<string>, states: nat -> State, acts: nat -> Action) {
    forall i: nat :: StepsAt(site, cfg, states, acts, i) && TakesWithin(acts(i), raws)
  }

  lemma {:induction false} EndlessIsAbsurd(site: Site, cfg: Config, raws: set<string>,
                                           states: nat -> State, acts: nat -> Action, i: nat, m: Measure)
    requires Endless(site, cfg, raws, states, acts)
    requires Inv(site, cfg, states(i)) && TodosWithin(states(i), raws)
    requires m == MeasureOf(site, states(i), raws)
    ensures false
    decreases m.live, m.unseen, m.queued, m.work, m.pending, m.idle
  {
    assert StepsAt(site, cfg, states, acts, i) && TakesWithin(acts(i), raws);
    StepKeepsInv(site, cfg, states(i), acts(i));
    StepKeepsTodos(site, cfg, states(i), acts(i), raws);
    StepLowers(site, cfg, states(i), acts(i), raws);
    EndlessIsAbsurd(site, cfg, raws, states, acts, i + 1, MeasureOf(site, states(i + 1), raws));
  }

  /**
   Termination: from the start state no schedule goes on for ever, if every page's links come from
   the finite set `raws`.
   */
  lemma EveryRunEnds(site: Site, cfg: Config, base: string, seed: string, sitemap: seq<string>,
                     raws: set<string>, states: nat -> State, acts: nat -> Action)
    requires states(0) == Start(site, cfg, base, seed, sitemap)
    requires forall i: nat :: TakesWithin(acts(i), raws)
    ensures exists i: nat :: !StepsAt(site, cfg, states, acts, i)
  {
    if forall i: nat :: StepsAt(site, cfg, states, acts, i) {
      StartUnstarted(site, cfg, base, seed, sitemap);
      EndlessIsAbsurd(site, cfg, raws, states, acts, 0, MeasureOf(site, states(0), raws));
    }
  }

  /** A run that cannot be continued, except by a cancel, has let every worker leave. */
  lemma StuckMeansDone(site: Site, cfg: Config, base: string, seed: string, sitemap: seq<string>,
                       trace: seq<State>, acts: seq<Action>)
    requires IsRun(site, cfg, trace, acts)
    requires trace[0] == Start(site, cfg, base, seed, sitemap)
    requires forall a: Action :: !a.Cancel? ==> !Enabled(cfg, trace[|acts|], a)
    ensures AllDone(trace[|acts|])
    ensures !trace[|acts|].cancelled && cfg.workers > 0 ==> trace[|acts|].queue == []
  {
    StartUnstarted(site, cfg, base, seed, sitemap);
    RunKeepsInv(site, cfg, trace, acts, |acts|);
    var s := trace[|acts|];
    if !AllDone(s) {
      DeadlockFree(site, cfg, s);
    }
    if cfg.workers > 0 {
      assert s.workers[0].Done?;
    }
  }
}
