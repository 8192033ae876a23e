/**
 The scheduler object itself.  Every method is the code between two suspension points, and is
 proved to do exactly what the transition system's step says; `View` is the abstract state.
 */
module CrawlScheduler {
  import opened Basics
  import opened SchedulerModel

  /** `DeduplicationService`: visited URLs and their hashes, kept in lockstep. */
  class DeduplicationService {
    const normalize: string -> string
    const digest: string -> string
    var visitedUrls: set<string>
    var urlHashes: set<string>

    ghost predicate Valid()
      reads this
    {
      urlHashes == set u | u in visitedUrls :: digest(normalize(u))
    }

    /** What two URLs must share to count as one; each URL is normalised twice before hashing. */
    function Key(url: string): string {
      HashUrl(normalize(url))
    }

    function HashUrl(url: string): string {
      digest(normalize(url))
    }

    constructor (normalize: string -> string, digest: string -> string)
      ensures Valid() && visitedUrls == {}
      ensures this.normalize == normalize && this.digest == digest
    {
      this.normalize, this.digest := normalize, digest;
      visitedUrls, urlHashes := {}, {};
    }

    /** Looking up both sets answers the same as looking up the hashes alone. */
    method IsUrlVisited(url: string) returns (visited: bool)
      requires Valid()
      ensures visited <==> Key(url) in urlHashes
    {
      var canonical := normalize(url);
      var h := HashUrl(canonical);
      visited := canonical in visitedUrls || h in urlHashes;
    }

    method MarkUrlVisited(url: string) returns (h: string)
      requires Valid()
      modifies this
      ensures Valid() && h == Key(url)
      ensures visitedUrls == old(visitedUrls) + {normalize(url)}
      ensures urlHashes == old(urlHashes) + {Key(url)}
    {
      var canonical := normalize(url);
      h := HashUrl(canonical);
      visitedUrls := visitedUrls + {canonical};
      urlHashes := urlHashes + {h};
    }
  }

  /** How a worker's turn under the condition ended. */
  datatype Turn = Exited | Slept | Dropped | Got(item: Item)

  class CrawlScheduler {
    const site: Site
    const config: Config
    const dedup: DeduplicationService
    var queue: seq<Item>
    var activeWorkers: int
    var pagesCrawledCount: int
    var pagesDiscoveredCount: int
    var pagesFailedCount: int
    var pagesSkippedCount: int
    var cancelled: bool
    var skippedUrls: seq<(string, string, string)>
    var baseDomain: string
    var diagnostics: Diagnostics
    // The event loop's part of the state, and history.
    ghost var pending: nat
    ghost var workers: seq<Worker>
    ghost var log: seq<Taken>
    ghost var offered: nat
    ghost var cut: bool

    ghost predicate Valid()
      reads this, dedup
    {
      && dedup.Valid()
      && (forall u :: site.key(u) == dedup.Key(u))
      && pagesSkippedCount == |skippedUrls|
    }

    ghost function View(): State
      reads this, dedup
    {
      State(queue, dedup.urlHashes, activeWorkers, pagesCrawledCount, pagesFailedCount, pagesDiscoveredCount,
            skippedUrls, cancelled, baseDomain, diagnostics, pending, workers, log, offered, cut)
    }

    constructor (site: Site, config: Config, baseDomain: string, dedup: DeduplicationService)
      requires dedup.Valid() && dedup.visitedUrls == {} && forall u :: site.key(u) == dedup.Key(u)
      ensures Valid() && this.site == site && this.config == config && this.dedup == dedup
      ensures View() == Fresh(config, if baseDomain == "" then "" else site.normHost(baseDomain))
    {
      this.site, this.config, this.dedup := site, config, dedup;
      queue, activeWorkers := [], 0;
      pagesCrawledCount, pagesDiscoveredCount, pagesFailedCount, pagesSkippedCount := 0, 0, 0, 0;
      cancelled, skippedUrls, diagnostics := false, [], NO_REJECTIONS;
      this.baseDomain := if baseDomain == "" then "" else site.normHost(baseDomain);
      pending, workers, log, offered, cut := 0, seq(config.workers, _ => Idle), [], 0, false;
    }

    method RecordRejection(reason: Reason)
      requires Valid()
      modifies this
      ensures Valid()
      ensures View() == old(View()).(diag := old(diagnostics).Bump(reason), offered := old(offered) + 1)
    {
      diagnostics := diagnostics.Bump(reason);
      offered := offered + 1;
    }

    method RecordSkip(url: string, canonical: string, pattern: string)
      requires Valid()
      modifies this
      ensures Valid()
      ensures View() == old(View()).(diag := old(diagnostics).Bump(ReasonOfPattern(pattern)), offered := old(offered) + 1,
                                     skipped := old(skippedUrls) + [(url, canonical, pattern)])
    {
      RecordRejection(ReasonOfPattern(pattern));
      pagesSkippedCount := pagesSkippedCount + 1;
      skippedUrls := skippedUrls + [(url, canonical, pattern)];
    }

    /** Mark, count and queue an accepted URL. */
    method Admit(item: Item)
      requires Valid()
      modifies this, dedup
      ensures Valid()
      ensures View() == old(View()).(queue := old(queue) + [item], keys := old(dedup.urlHashes) + {site.key(item.normalized)},
                                     discovered := old(pagesDiscoveredCount) + 1, offered := old(offered) + 1)
    {
      var _ := dedup.MarkUrlVisited(item.normalized);
      pagesDiscoveredCount := pagesDiscoveredCount + 1;
      queue := queue + [item];
      offered := offered + 1;
    }

    method SubmitSeed(seedUrl: string) returns (ok: bool)
      requires Valid()
      modifies this, dedup
      ensures Valid()
      ensures ok == JudgeSeed(site, old(View()), seedUrl).Accept?
      ensures View() == SchedulerModel.SubmitSeed(site, old(View()), seedUrl)
    {
      match site.canon(seedUrl) {
        case None =>
          RecordRejection(InvalidUrl);
          return false;
        case Some(canonical) =>
          match site.ignored(canonical) {
            case Some(pattern) =>
              RecordSkip(canonical, canonical, pattern);
              return false;
            case None =>
              var visited := dedup.IsUrlVisited(canonical);
              if visited {
                RecordRejection(Duplicate);
                return false;
              }
              Admit(Item(seedUrl, canonical, seedUrl, "seed", 0));
              return true;
          }
      }
    }

    method SubmitDiscoveredUrl(url: string, sourceUrl: string, sourceType: string, depth: int) returns (ok: bool)
      requires Valid()
      modifies this, dedup
      ensures Valid()
      ensures ok == Judge(site, config, old(View()), url, depth).Accept?
      ensures View() == Offer(site, config, old(View()), url, sourceUrl, sourceType, depth)
    {
      if cancelled {
        return false;
      }
      if depth > config.maxDepth {
        RecordRejection(MaxDepth);
        return false;
      }
      if site.canon(url).None? {
        RecordRejection(InvalidUrl);
        return false;
      }
      var canonical := site.canon(url).value;
      if site.ignored(canonical).Some? {
        RecordSkip(url, canonical, site.ignored(canonical).value);
        return false;
      }
      var classification := site.classify(canonical, baseDomain);
      if classification != Html {
        RecordRejection(ReasonOfClass(classification));
        return false;
      }
      if site.blocked(canonical) {
        RecordRejection(RobotsBlocked);
        return false;
      }
      var visited := dedup.IsUrlVisited(canonical);
      if visited {
        RecordRejection(Duplicate);
        return false;
      }
      Admit(Item(url, canonical, sourceUrl, sourceType, depth));
      pending := pending + 1;  // asyncio.create_task(self._notify_condition())
      return true;
    }

    method SubmitSitemapUrls(urls: seq<string>, sourceUrl: string) returns (count: nat)
      requires Valid()
      modifies this, dedup
      ensures Valid()
      ensures View() == SubmitSitemap(site, config, old(View()), urls, sourceUrl)
      ensures count == |queue| - |old(queue)|
    {
      count := 0;
      var i := 0;
      assert urls[0..] == urls;
      while i < |urls|
        invariant 0 <= i <= |urls| && Valid()
        invariant count == |queue| - |old(queue)|
        invariant SubmitSitemap(site, config, View(), urls[i..], sourceUrl)
                  == SubmitSitemap(site, config, old(View()), urls, sourceUrl)
      {
        assert urls[i..][1..] == urls[i + 1..];
        var ok := SubmitDiscoveredUrl(urls[i], sourceUrl, "sitemap", 0);
        if ok {
          count := count + 1;
        }
        i := i + 1;
      }
    }

    /** One link of `_enqueue_links`. */
    method EnqueueLink(ghost w: nat, item: Item, link: string)
      requires Valid() && IsRunning(View(), w) && workers[w].item == item
      requires workers[w].todo != [] && workers[w].todo[0] == link
      modifies this, dedup
      ensures Valid() && View() == Next(site, config, old(View()), Action.Submit(w))
    {
      hide Offer, Judge, Settle;
      workers := workers[w := Running(item, workers[w].todo[1..], false)];
      ghost var mid := old(View()).(workers := workers);
      assert View() == mid;
      if item.depth + 1 > config.maxDepth {
        cut := true;
      } else {
        var _ := SubmitDiscoveredUrl(link, item.normalized, "html_link", item.depth + 1);
      }
    }

    /** `_enqueue_links` for the page worker `w` is running; it does not suspend. */
    method EnqueueLinks(ghost w: nat, item: Item, links: seq<string>)
      requires Valid() && IsRunning(View(), w) && workers[w].item == item && workers[w].todo == links
      modifies this, dedup
      ensures Valid()
      ensures View() == SubmitAll(site, config, old(View()), w)
    {
      var i := 0;
      while i < |links|
        invariant 0 <= i <= |links| && Valid()
        invariant IsRunning(View(), w) && workers[w].item == item && workers[w].todo == links[i..]
        invariant SubmitAll(site, config, View(), w) == SubmitAll(site, config, old(View()), w)
      {
        SubmitKeepsRunning(site, config, View(), w);
        EnqueueLink(w, item, links[i]);
        i := i + 1;
      }
    }

    /** `_crawl_page` adopts the host the page was finally served from, if it is on the same site. */
    method AdoptHost(ghost w: nat, host: string)
      requires Valid() && IsRunning(View(), w) && workers[w].unsettled
      modifies this
      ensures Valid() && View() == Next(site, config, old(View()), Rebase(w, host))
    {
      workers := workers[w := workers[w].(unsettled := false)];
      if baseDomain == "" || SameSite(site, host, baseDomain) {
        baseDomain := site.normHost(host);
      }
    }

    /** The body of the worker loop up to the point where it holds an item. */
    method TakeTurn(ghost w: nat, ghost todo: seq<string>) returns (turn: Turn)
      requires Valid() && IsIdle(View(), w)
      modifies this
      ensures Valid()
      ensures match turn
              case Exited => Enabled(config, old(View()), Leave(w)) && View() == Next(site, config, old(View()), Leave(w))
              case Slept => Enabled(config, old(View()), Wait(w)) && View() == Next(site, config, old(View()), Wait(w))
              case Dropped => Enabled(config, old(View()), Drop(w)) && View() == Next(site, config, old(View()), Drop(w))
              case Got(item) => && Enabled(config, old(View()), Take(w, todo))
                                && View() == Next(site, config, old(View()), Take(w, todo)) && item == old(queue)[0]
    {
      if cancelled {
        workers := workers[w := Worker.Done];
        return Exited;
      }
      if |queue| == 0 {
        if activeWorkers == 0 {
          workers := Wake(workers)[w := Worker.Done];  // notify_all, then return
          return Exited;
        }
        workers := workers[w := Waiting];
        return Slept;
      }
      var item := queue[0];
      queue := queue[1..];
      if pagesCrawledCount >= config.maxPages {
        log := log + [Taken(item, false)];
        return Dropped;
      }
      activeWorkers := activeWorkers + 1;
      workers, log := workers[w := Running(item, todo, true)], log + [Taken(item, true)];
      return Got(item);
    }

    /** `worker_func` returned (`ok` unless it returned False) or raised. */
    method CountOutcome(ghost w: nat, ok: bool)
      requires Valid() && IsRunning(View(), w)
      modifies this
      ensures Valid() && View() == Next(site, config, old(View()), Finish(w, ok))
    {
      if ok {
        pagesCrawledCount := pagesCrawledCount + 1;
      } else {
        pagesFailedCount := pagesFailedCount + 1;
      }
      workers := workers[w := Counted];
    }

    /** The `finally` block. */
    method ReleaseWorker(ghost w: nat)
      requires Valid() && w < |workers| && workers[w].Counted?
      modifies this
      ensures Valid() && View() == Next(site, config, old(View()), Release(w))
    {
      activeWorkers := activeWorkers - 1;
      workers := Wake(workers[w := Idle]);  // notify_all
    }

    /** One notify task runs. */
    method NotifyCondition()
      requires Valid() && pending > 0
      modifies this
      ensures Valid() && View() == Next(site, config, old(View()), Notify)
    {
      pending := pending - 1;
      workers := Wake(workers);
    }

    method CancelCrawl()
      requires Valid()
      modifies this
      ensures Valid() && View() == old(View()).(cancelled := true)
    {
      cancelled := true;
    }
  }

  lemma SubmitKeepsRunning(site: Site, config: Config, s: State, w: nat)
    requires IsRunning(s, w) && s.workers[w].todo != []
    ensures var s' := Next(site, config, s, Action.Submit(w));
            && IsRunning(s', w) && s'.workers[w].item == s.workers[w].item && s'.workers[w].todo == s.workers[w].todo[1..]
  {
  }

  /** All the links a running page still owes, submitted one after the other. */
  ghost function SubmitAll(site: Site, config: Config, s: State, w: nat): State
    requires IsRunning(s, w)
    decreases |s.workers[w].todo|
  {
    if s.workers[w].todo == [] then s
    else
      SubmitKeepsRunning(site, config, s, w);
      SubmitAll(site, config, Next(site, config, s, Action.Submit(w)), w)
  }
}
