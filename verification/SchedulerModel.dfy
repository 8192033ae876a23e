/**
 The crawl scheduler as a transition system: N workers, one FIFO queue, one condition
 variable, a set of visited keys and a counter of active workers.

 Code between two suspension points of an asyncio task is one step.  `Next` is the state
 after a step and `Enabled` says when the step may happen; who moves next is not determined.
 */
module SchedulerModel {
  import opened Basics

  datatype UrlClass =
    Html | External | Resource | Api | Invalid | Fragment | Ignored | Robots | Sitemap

  datatype Reason =
    | ExternalHost | Duplicate | NonHtml | ResourceUrl | ApiUrl
    | MaxDepth | MaxPages | InvalidUrl | RobotsBlocked

  /** The rejection counters; every key is present from the start. */
  datatype Diagnostics = Diagnostics(
    externalHost: nat, duplicate: nat, nonHtml: nat, resource: nat, api: nat,
    maxDepth: nat, maxPages: nat, invalidUrl: nat, robotsBlocked: nat)
  {
    function Total(): nat {
      externalHost + duplicate + nonHtml + resource + api
      + maxDepth + maxPages + invalidUrl + robotsBlocked
    }

    /** The counter of that name. */
    function Get(name: string): Option<nat> {
      match name
      case "external_host" => Some(externalHost)
      case "duplicate" => Some(duplicate)
      case "non_html" => Some(nonHtml)
      case "resource" => Some(resource)
      case "api" => Some(api)
      case "max_depth" => Some(maxDepth)
      case "max_pages" => Some(maxPages)
      case "invalid_url" => Some(invalidUrl)
      case "robots_blocked" => Some(robotsBlocked)
      case _ => None
    }

    function Bump(r: Reason): Diagnostics {
      match r
      case ExternalHost => this.(externalHost := externalHost + 1)
      case Duplicate => this.(duplicate := duplicate + 1)
      case NonHtml => this.(nonHtml := nonHtml + 1)
      case ResourceUrl => this.(resource := resource + 1)
      case ApiUrl => this.(api := api + 1)
      case MaxDepth => this.(maxDepth := maxDepth + 1)
      case MaxPages => this.(maxPages := maxPages + 1)
      case InvalidUrl => this.(invalidUrl := invalidUrl + 1)
      case RobotsBlocked => this.(robotsBlocked := robotsBlocked + 1)
    }
  }

  const NO_REJECTIONS := Diagnostics(0, 0, 0, 0, 0, 0, 0, 0, 0)

  /** `_CLASSIFICATION_TO_DIAGNOSTIC`. */
  function ReasonOfClass(c: UrlClass): Reason {
    match c
    case External => ExternalHost
    case Resource => ResourceUrl
    case Api => ApiUrl
    case Invalid => InvalidUrl
    case Fragment => InvalidUrl
    case _ => NonHtml
  }

  /** An ignore pattern's own reason names a counter or falls back to `non_html`. */
  function ReasonOfPattern(reason: string): Reason {
    match reason
    case "external_host" => ExternalHost
    case "duplicate" => Duplicate
    case "resource" => ResourceUrl
    case "api" => ApiUrl
    case "max_depth" => MaxDepth
    case "max_pages" => MaxPages
    case "invalid_url" => InvalidUrl
    case "robots_blocked" => RobotsBlocked
    case _ => NonHtml
  }

  /**
   The URL functions the scheduler calls.  `canon` is `normalize_url_canonical` (None when it
   raises); `key` is what deduplication compares, the hash of the canonical URL normalised twice
   more.  Normalisation is not idempotent ("https://h//" becomes "https://h", and that becomes
   "https://h/"), so `key(c) == c` is nowhere assumed.
   */
  datatype Site = Site(
    canon: string -> Option<string>,
    key: string -> string,
    ignored: string -> Option<string>,
    classify: (string, string) -> UrlClass,
    blocked: string -> bool,
    domainOf: string -> string,
    normHost: string -> string)

  /** A site on which every URL is its own canonical form and passes every test. */
  const PLAIN := Site((u: string) => Some(u), (u: string) => u, (u: string) => None, (u: string, b: string) => Html,
                      (u: string) => false, (h: string) => h, (h: string) => h)

  datatype Config = Config(maxPages: int, maxDepth: int, workers: nat)

  /** What `CrawlConfig.validate` lets through. */
  predicate ValidConfig(cfg: Config) {
    cfg.maxPages >= 1 && cfg.maxDepth >= 0 && cfg.workers >= 1
  }

  datatype Item = Item(url: string, normalized: string, source: string, kind: string, depth: int)

  datatype Worker =
    | Idle                                     // at the top of the loop, or woken from wait()
    | Waiting                                  // suspended in condition.wait()
    // inside worker_func: links still to be submitted; `unsettled` until the base host is settled
    | Running(item: Item, todo: seq<string>, unsettled: bool)
    | Counted                                  // outcome counted, condition not yet re-entered
    | Done                                     // left the loop

  /** One item removed from the queue: handed to a worker, or dropped at the page cap. */
  datatype Taken = Taken(item: Item, handed: bool)

  /**
   `pending` counts the notify tasks not yet run.  `log` (what left the queue, in order),
   `offered` (submissions answered before a cancel) and `cut` (some link was not followed
   because of its depth) are history.
   */
  datatype State = State(
    queue: seq<Item>, keys: set<string>, active: int,
    crawled: int, failed: int, discovered: int,
    skipped: seq<(string, string, string)>,
    cancelled: bool, base: string, diag: Diagnostics,
    pending: nat, workers: seq<Worker>,
    log: seq<Taken>, offered: nat, cut: bool)

  datatype Verdict =
    | Accept(canonical: string)
    | Reject(reason: Reason)
    | Skip(canonical: string, pattern: string)
    | Quiet

  /** The branches of `submit_discovered_url`, in order. */
  function Judge(site: Site, cfg: Config, s: State, raw: string, depth: int): Verdict {
    if s.cancelled then Quiet
    else if depth > cfg.maxDepth then Reject(MaxDepth)
    else match site.canon(raw)
      case None => Reject(InvalidUrl)
      case Some(c) =>
        match site.ignored(c)
        case Some(pattern) => Skip(c, pattern)
        case None =>
          var class_ := site.classify(c, s.base);
          if class_ != Html then Reject(ReasonOfClass(class_))
          else if site.blocked(c) then Reject(RobotsBlocked)
          else if site.key(c) in s.keys then Reject(Duplicate)
          else Accept(c)
  }

  /** The branches of `submit_seed`: no depth, classification or robots test. */
  function JudgeSeed(site: Site, s: State, raw: string): Verdict {
    match site.canon(raw)
    case None => Reject(InvalidUrl)
    case Some(c) =>
      match site.ignored(c)
      case Some(pattern) => Skip(c, pattern)
      case None => if site.key(c) in s.keys then Reject(Duplicate) else Accept(c)
  }

  /** What a verdict does to the scheduler; `shown` is the URL recorded for a skipped one. */
  function Settle(site: Site, s: State, v: Verdict, item: Item, shown: string): State {
    match v
    case Quiet => s
    case Reject(r) => s.(diag := s.diag.Bump(r), offered := s.offered + 1)
    case Skip(c, pattern) =>
      s.(diag := s.diag.Bump(ReasonOfPattern(pattern)),
         skipped := s.skipped + [(shown, c, pattern)],
         offered := s.offered + 1)
    case Accept(c) =>
      s.(queue := s.queue + [item.(normalized := c)],
         keys := s.keys + {site.key(c)},
         discovered := s.discovered + 1,
         offered := s.offered + 1)
  }

  function SubmitSeed(site: Site, s: State, raw: string): State {
    var v := JudgeSeed(site, s, raw);
    Settle(site, s, v, Item(raw, raw, raw, "seed", 0), if v.Skip? then v.canonical else raw)
  }

  /** `submit_discovered_url`: an accepted URL also spawns one notify task. */
  function Offer(site: Site, cfg: Config, s: State, raw: string, source: string, kind: string, depth: int): State {
    var v := Judge(site, cfg, s, raw, depth);
    var s' := Settle(site, s, v, Item(raw, raw, source, kind, depth), raw);
    if v.Accept? then s'.(pending := s'.pending + 1) else s'
  }

  function SubmitSitemap(site: Site, cfg: Config, s: State, urls: seq<string>, source: string): State
    decreases |urls|
  {
    if urls == [] then s
    else SubmitSitemap(site, cfg, Offer(site, cfg, s, urls[0], source, "sitemap", 0), urls[1..], source)
  }

  function Fresh(cfg: Config, base: string): State {
    State([], {}, 0, 0, 0, 0, [], false, base, NO_REJECTIONS, 0,
          seq(cfg.workers, _ => Idle), [], 0, false)
  }

  /** The state in which the workers start: seed first, then the sitemap URLs. */
  function Start(site: Site, cfg: Config, base: string, seed: string, sitemap: seq<string>): State {
    SubmitSitemap(site, cfg, SubmitSeed(site, Fresh(cfg, base), seed), sitemap, seed)
  }

  /** `notify_all`: every waiter becomes runnable again. */
  function Wake(ws: seq<Worker>): seq<Worker> {
    seq(|ws|, i requires 0 <= i < |ws| => if ws[i].Waiting? then Idle else ws[i])
  }

  datatype Action =
    | Take(w: nat, todo: seq<string>)   // dequeue an item; `todo` is what its page will submit
    | Drop(w: nat)                      // dequeue an item and skip it at the page cap
    | Wait(w: nat)
    | Leave(w: nat)                     // return from the worker loop
    | Submit(w: nat)                    // _enqueue_links handles the next link
    | Rebase(w: nat, host: string)      // _crawl_page adopts the host a redirect led to
    | Finish(w: nat, ok: bool)          // worker_func ends and is counted
    | Release(w: nat)                   // the finally block
    | Notify                            // a pending notify task runs
    | Cancel

  ghost predicate Enabled(cfg: Config, s: State, a: Action) {
    match a
    case Take(w, _) => IsIdle(s, w) && !s.cancelled && s.queue != [] && s.crawled < cfg.maxPages
    case Drop(w) => IsIdle(s, w) && !s.cancelled && s.queue != [] && s.crawled >= cfg.maxPages
    case Wait(w) => IsIdle(s, w) && !s.cancelled && s.queue == [] && s.active != 0
    case Leave(w) => IsIdle(s, w) && (s.cancelled || (s.queue == [] && s.active == 0))
    case Submit(w) => IsRunning(s, w) && s.workers[w].todo != []
    case Rebase(w, _) => IsRunning(s, w) && s.workers[w].unsettled
    case Finish(w, _) => IsRunning(s, w)
    case Release(w) => w < |s.workers| && s.workers[w].Counted?
    case Notify => s.pending > 0
    case Cancel => !s.cancelled
  }

  predicate IsIdle(s: State, w: nat) { w < |s.workers| && s.workers[w].Idle? }

  predicate IsRunning(s: State, w: nat) { w < |s.workers| && s.workers[w].Running? }

  ghost function Next(site: Site, cfg: Config, s: State, a: Action): State
    requires Enabled(cfg, s, a)
  {
    match a
    case Take(w, todo) =>
      s.(queue := s.queue[1..], active := s.active + 1,
         workers := s.workers[w := Running(s.queue[0], todo, true)],
         log := s.log + [Taken(s.queue[0], true)])
    case Drop(w) =>
      s.(queue := s.queue[1..], log := s.log + [Taken(s.queue[0], false)])
    case Wait(w) => s.(workers := s.workers[w := Waiting])
    case Leave(w) =>
      s.(workers := if s.cancelled then s.workers[w := Done] else Wake(s.workers)[w := Done])
    case Submit(w) =>
      var item, todo := s.workers[w].item, s.workers[w].todo;
      var s' := s.(workers := s.workers[w := Running(item, todo[1..], false)]);
      if item.depth + 1 > cfg.maxDepth then s'.(cut := true)
      else Offer(site, cfg, s', todo[0], item.normalized, "html_link", item.depth + 1)
    case Rebase(w, host) =>
      var s' := s.(workers := s.workers[w := s.workers[w].(unsettled := false)]);
      if s.base != "" && !SameSite(site, host, s.base) then s' else s'.(base := site.normHost(host))
    case Finish(w, ok) =>
      var s' := s.(workers := s.workers[w := Counted]);
      if ok then s'.(crawled := s.crawled + 1) else s'.(failed := s.failed + 1)
    case Release(w) =>
      s.(active := s.active - 1, workers := Wake(s.workers[w := Idle]))
    case Notify => s.(pending := s.pending - 1, workers := Wake(s.workers))
    case Cancel => s.(cancelled := true)
  }

  /** `is_same_site`: equal, non-empty registered domains. */
  predicate SameSite(site: Site, a: string, b: string) {
    site.domainOf(a) == site.domainOf(b) && site.domainOf(a) != ""
  }

  /** A finite run: `trace[i+1]` follows from `trace[i]` by `acts[i]`. */
  ghost predicate IsRun(site: Site, cfg: Config, trace: seq<State>, acts: seq<Action>) {
    && |trace| == |acts| + 1
    && forall i :: 0 <= i < |acts| ==> StepAt(site, cfg, trace, acts, i)
  }

  ghost predicate StepAt(site: Site, cfg: Config, trace: seq<State>, acts: seq<Action>, i: nat)
    requires i < |acts| && |trace| == |acts| + 1
  {
    Enabled(cfg, trace[i], acts[i]) && trace[i + 1] == Next(site, cfg, trace[i], acts[i])
  }

  // ----------------------------------------------------------------- derived views

  /** Sum of `f` over the workers. */
  function Sum(ws: seq<Worker>, f: Worker -> nat): nat {
    if ws == [] then 0 else f(ws[0]) + Sum(ws[1..], f)
  }

  function RunningOne(w: Worker): nat { if w.Running? then 1 else 0 }

  function BusyOne(w: Worker): nat { if w.Running? || w.Counted? then 1 else 0 }

  function RunningCount(s: State): nat { Sum(s.workers, RunningOne) }

  function Handed(log: seq<Taken>): nat {
    if log == [] then 0 else Handed(log[..|log| - 1]) + (if log[|log| - 1].handed then 1 else 0)
  }

  function LogItems(log: seq<Taken>): seq<Item> {
    seq(|log|, i requires 0 <= i < |log| => log[i].item)
  }

  /** Every accepted URL, in order of acceptance. */
  function AllItems(s: State): seq<Item> { LogItems(s.log) + s.queue }

  ghost predicate AllDone(s: State) {
    forall w :: 0 <= w < |s.workers| ==> s.workers[w].Done?
  }
}
