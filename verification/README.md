# Verified model of the SEO audit backend

This project models, in Dafny 4.11, the parts of the audit backend whose correctness rests on
protocols, orderings and state that spans calls, and proves what they keep.

- **The concurrent crawl scheduler** (`SchedulerModel`, `SchedulerSafety`, `SchedulerTermination`,
  `SchedulerClosure`, `SchedulerShortest`, `SchedulerDepthRace`, `SchedulerOvershoot`, `SchedulerSubmissions`, `CrawlScheduler`): N workers, one FIFO
  queue, one condition variable, a set of visited keys and a counter of active workers, as a transition
  system whose steps are the stretches of code between two suspension points. The class
  `CrawlScheduler` has the source's methods, each proved to take exactly one step of that system; the
  lemmas hold for every worker count and every interleaving.
- **Breadth-first search** (`ShortestPaths`): the FIFO layer invariant, shared by the single-worker
  scheduler and by `crawl_site`.
- **The crawl loop and the bounded queue** (`CrawlSite`, `CrawlQueue`).
- **Scoring** (`AuditScores`, `OverallScore`): worst-verdict merging over canonical pages, pass rates,
  category, page and site scores, in exact arithmetic with rounding as a parameter where only its
  monotonicity matters and as half-to-even where the exact threshold matters.
- **Response pruning** (`StripEmpty`).
- **The report assembler** (`ReportAssembler` for what is built, `ReportLoops` for the loops) and the
  read model's top issues (`TopIssues`).
- **Persistence** (`Upserts`, `CrawlPersistence`, `ResultTables`, `HtmlCompressor`, `StageReplay`,
  `BrokenLinks`): bulk upserts against one-by-one writes, write buffers, snapshot compression, replay of
  the parse and evaluate stages, link counters against a recount.
- **Authentication state** (`Sessions`, `AuthDatabase`, `PasswordReset`): access and refresh tokens over
  login, rotation, logout and cleanup, and the one-time-password life cycle.

`dafny verify dfyconfig.toml` checks everything.

## Results where the code and its promise differ

- `crawl_site`'s docstring says the start URL is always crawled first; sitemap URLs are queued ahead of
  it (app/modules/crawler/crawl_service.py:153-169). Its page is the first result exactly when it loads and
  every page queued ahead of it does not (`CrawlSite.StartIsFirstExactly`, `CrawlSite.SitemapGoesFirst`).
- "A check counts as passed only when 100% of pages pass it"
  (app/modules/scorer/services/score_calculator.py:346-348) holds below 2000 canonical pages; in general
  one page in 2000 may fail (`AuditScores.PassedExactly`).
- Scores can pass 100 when a page has no host: exactly when the pages passing a rule without a canonical
  group outnumber the groups not passing it by more than one group in 2000 (`AuditScores.OverflowByRows`,
  `AuditScores.FallbackKeyOverflows`).
- Pruning twice can differ from pruning once; exactly on trees that are not settled
  (`StripEmpty.IdempotentExactly`).
- A revoked access token stays rejected if the decoder is exact about expiry. With a decoder that
  compares whole seconds it is accepted again exactly when a cleanup ran after its expiry, no logout or
  rotation has listed it again since, and the request comes within the decoder's slack
  (`Sessions.AcceptedAgainExactly`).
- A user gets one token pair a second, as the refresh token's hash must be unique; a second pair goes through
  exactly when the first was begun in one second and stamped in the next (`Sessions.OnePairPerSecond`,
  `Sessions.SecondPairExactly`).
- `parse_crawl`'s counts add up to the successful pages unless pages exist and none was successful
  (`StageReplay.ParseCountsExactly`).
- Bulk and single upserts of rule results differ on a conflicting row's name and category
  (`ResultTables.BulkEqualsSingleExactly`).
- The read model's comment says its impact tiers mirror the report assembler's
  (app/modules/audit/services/audit_read_model_service.py:102-116); they agree exactly below 4, from 8 to 10
  and from 15 on (`TopIssues.TiersAgreeExactly`).
- The read model means to promote the worst severity of a rule. Warnings, infos and errors rank alike there,
  so the one read first is shown; the severity shown is fixed exactly when all results of least rank carry
  one severity (`TopIssues.ShownSeverityExactly`, `TopIssues.WarningOrError`).
- The broken-link counters equal a recount, on the rows the crawl writes, exactly when no link keeps a broken
  status from before (`BrokenLinks.WrittenCountersExact`, `BrokenLinks.StaleDisagrees`); for any rows, as
  `BrokenLinks.CountersExact` says.
- The depth limit is meant as a number of links from the start. For every valid configuration, recorded depths
  are shortest on every site, and finished crawls visit exactly the keys within the limit, if and only if there
  is one worker or `max_depth` is at most 1 (`SchedulerDepthRace.ShortestExactly`,
  `SchedulerDepthRace.WithinLimitExactly`). Otherwise a page one link from the start can be recorded at
  `max_depth`, and its links are then never followed (`SchedulerDepthRace.DepthCanBeTooLarge`,
  `SchedulerDepthRace.PageCanBeMissed`).

## Assumptions

- A page's links are a function of its URL where results about the visited set need it
  (`SchedulerClosure.Coherent`, `CrawlSite.Coherent`), and hosts of one registered domain classify alike.
  `normalize_url_canonical` is not idempotent ("https://h//" gives "https://h", and that gives
  "https://h/"), so nothing assumes it: deduplication compares the key the code computes.
- Termination assumes that the links pages submit come from a finite set of URLs.
- asyncio runs a task without interruption between two `await`s that suspend; re-entering the condition
  after a page is one such point.
- The results about tokens are about the services, called with the access token's own id and expiry. As written,
  the logout and refresh endpoints do not get there with an access token that decodes: they call
  `datetime.fromtimestamp` with only `timezone` imported (app/api/endpoints/v1/auth/logout.py:79,
  app/api/endpoints/v1/auth/refresh_token.py:61).
- A login event is an attempt with the right password by a verified user, if the user is known at all.
- Only tokens the server minted decode; SHA-256 does not collide; `uuid4` ids are fresh; the clock does
  not go back, and an operation that mints tokens is taken to read it twice, for the expiries and for the stamp.
- The parser and the rules are deterministic and a page's rule results have distinct ids, for the replay
  results. A rule id has one category, as in the rule registry, for `AuditScores.FailingNeverHelps`.

## Model

| member | source | states |
|---|---|---|
| SchedulerSafety.BumpTotal | app/modules/crawler/services/crawl_scheduler.py:132-139 | every rejection raises exactly one diagnostic counter by one |
| SchedulerSafety.RunKeepsInv | app/modules/crawler/services/crawl_scheduler.py:283-339 | the joint invariant (active count, waiters, quiescence, items, counters) holds in every state of every run |
| SchedulerSafety.Conservation | app/modules/crawler/services/crawl_scheduler.py:176-190 | discovered = visited keys = queued + running + crawled + failed + dropped, always; and every answered submission is accepted, skipped or counted in the diagnostics |
| SchedulerSafety.AtMostOnce | app/modules/crawler/services/crawl_scheduler.py:237-255 | no canonical URL is handed out or queued twice |
| SchedulerSafety.Overshoot | app/modules/crawler/services/crawl_scheduler.py:309-328 | crawled + running never exceeds max_pages + workers - 1 |
| SchedulerOvershoot.OvershootAttained | app/modules/crawler/services/crawl_scheduler.py:309-328 | whenever at least max_pages + workers - 1 URLs are queued before the workers start, some run crawls exactly that many pages |
| SchedulerOvershoot.OvershootIsReal | app/modules/crawler/services/crawl_scheduler.py:309-328 | for every valid configuration some site and sitemap do so: the bound is exact |
| SchedulerSafety.StableQuiescence | app/modules/crawler/services/crawl_scheduler.py:297-318 | once a worker has left an uncancelled crawl, queue and active workers stay empty and no further URL is ever accepted |
| SchedulerSafety.DeadlockFree | app/modules/crawler/services/crawl_scheduler.py:295-342 | while a worker is left some step other than a cancel is enabled, also after `cancel()` which notifies nobody |
| SchedulerSafety.ExitWakesNobody | app/modules/crawler/services/crawl_scheduler.py:299-303 | the notify before an exit never has anyone to wake |
| SchedulerSafety.NoLostWakeUp | app/modules/crawler/services/crawl_scheduler.py:237-255 | in every state of every run, a worker asleep beside a non-empty queue has a wake-up on its way |
| SchedulerSafety.WakesAll | app/modules/crawler/services/crawl_scheduler.py:335-342 | a notification, and the end of a page, leave nobody asleep |
| SchedulerSubmissions.OfferExactly | app/modules/crawler/services/crawl_scheduler.py:192-255 | a URL is queued, as it was submitted, exactly when it is within the depth, acceptable and new; then its key is marked and one wake-up scheduled, else neither |
| SchedulerSubmissions.RefusalsCounted | app/modules/crawler/services/crawl_scheduler.py:132-139 | the counter a refusal raises, and no other, is the one the first failing test names |
| SchedulerSubmissions.SkipsRecorded | app/modules/crawler/services/crawl_scheduler.py:217-223 | exactly the URLs the ignore list matches are recorded, with canonical form and reason |
| SchedulerSubmissions.FirstNewKeys | app/modules/crawler/services/crawl_scheduler.py:272-281 | the first acceptable URLs of the new keys of a list are of the list, and no new key is missing |
| SchedulerSubmissions.FirstNewDistinct | app/modules/crawler/services/crawl_scheduler.py:272-281 | no two of them have one key |
| SchedulerSubmissions.SitemapExactly | app/modules/crawler/services/crawl_scheduler.py:257-281 | for every site and uncancelled state: the keys grow by those of all acceptable URLs of the list, every URL is answered, and the queue by the first acceptable URL of each new key, in order |
| SchedulerSubmissions.StartExactly | app/modules/crawler/services/crawl_orchestrator.py:181-199 | the workers start with the seed, unless it is ignored, followed by the sitemap's acceptable URLs, each key once |
| SchedulerSubmissions.CompletedFromSeedAndSitemap | app/modules/crawler/services/crawl_scheduler.py:192-255 | a completed crawl visited the least closed set that holds the keys of the seed and of the sitemap's acceptable URLs |
| SchedulerSubmissions.LinksExactly | app/modules/crawler/services/crawl_orchestrator.py:675-721 | the links of a page within the depth limit are queued one deeper in the same way |
| SchedulerSubmissions.LinksBeyond | app/modules/crawler/services/crawl_orchestrator.py:685-690 | beyond the limit none is queued or answered, and the crawl counts as cut off |
| SchedulerTermination.StepLowers | app/modules/crawler/services/crawl_scheduler.py:283-339 | every step lowers a lexicographic measure of unvisited URLs, queue, work, pending notifies and idle workers |
| SchedulerTermination.EveryRunEnds | app/modules/crawler/services/crawl_scheduler.py:287-339 | over a finite URL universe no schedule goes on for ever |
| SchedulerTermination.StuckMeansDone | app/modules/crawler/services/crawl_scheduler.py:287-318 | a run that cannot go on has let every worker leave, with an empty queue unless cancelled |
| SchedulerClosure.BaseStaysOnSite | app/modules/crawler/services/crawl_orchestrator.py:389-403 | adopting the host of a redirect never leaves the registered domain of the start |
| SchedulerClosure.RedirectAdopted | app/modules/crawler/services/crawl_orchestrator.py:389-403 | a redirect within the site, and no other, makes its host the one later links are classified against |
| SchedulerClosure.VisitsLeastClosedSet | app/modules/crawler/services/crawl_scheduler.py:192-255 | a completed crawl visited exactly the least set with the start URLs closed under accepted links |
| SchedulerClosure.ScheduleIndependence | app/modules/crawler/services/crawl_scheduler.py:287-339 | two completed crawls from the same start URLs visited the same keys, whatever worker counts, caps and interleavings |
| SchedulerClosure.FollowerCanMove | app/modules/crawler/services/crawl_orchestrator.py:675-721 | assuming pages are functions of their URL never blocks a crawl |
| SchedulerShortest.SingleWorkerShortest | app/modules/crawler/services/crawl_orchestrator.py:675-721 | with one worker the visited keys are exactly those within max_depth links, each item at its shortest link distance |
| SchedulerShortest.SingleWorkerDepths | app/modules/crawler/services/crawl_orchestrator.py:675-721 | with one worker every depth recorded so far is shortest, at every moment before a cancel or a drop |
| SchedulerShortest.DepthsAreReal | app/modules/crawler/services/crawl_orchestrator.py:675-721 | with any number of workers every recorded depth is at most max_depth and the length of a real path of accepted links |
| SchedulerDepthRace.DepthCanBeTooLarge | app/modules/crawler/services/crawl_orchestrator.py:675-721 | for every worker count and every limit from two on, some run records at the limit a page one link from a start; on pages that all succeed too, if max_pages exceeds max_depth by at least two |
| SchedulerDepthRace.PageCanBeMissed | app/modules/crawler/services/crawl_orchestrator.py:675-721 | under the same conditions some finished run never visits a page two links from a start |
| SchedulerDepthRace.ShortestExactly | app/modules/crawler/services/crawl_orchestrator.py:675-721 | for every configuration that `CrawlConfig.validate` accepts: recorded depths are shortest on every site and at every moment of every uncancelled run without a dropped item if and only if there is one worker or max_depth is at most 1 |
| SchedulerDepthRace.WithinLimitExactly | app/modules/crawler/services/crawl_scheduler.py:192-209 | for the same configurations: every such run that ends has visited exactly the keys within max_depth links if and only if there is one worker or max_depth is at most 1 |
| ShortestPaths.BfsIsShortest | app/modules/crawler/crawl_service.py:171-195 | under the FIFO layer invariant, what is found when everything is expanded is what is reachable within the limit, at shortest distance |
| CrawlScheduler.DeduplicationService.IsUrlVisited | app/modules/crawler/services/deduplication_service.py:22-25 | looking up URLs and hashes answers the same as looking up hashes alone |
| CrawlScheduler.DeduplicationService.MarkUrlVisited | app/modules/crawler/services/deduplication_service.py:27-32 | URLs and hashes grow in lockstep |
| CrawlScheduler.CrawlScheduler.SubmitSeed | app/modules/crawler/services/crawl_scheduler.py:159-190 | takes the seed submission of the transition system and answers whether it queued the URL |
| CrawlScheduler.CrawlScheduler.SubmitDiscoveredUrl | app/modules/crawler/services/crawl_scheduler.py:192-255 | takes exactly one submission step and answers whether it queued the URL |
| CrawlScheduler.CrawlScheduler.SubmitSitemapUrls | app/modules/crawler/services/crawl_scheduler.py:257-281 | submits the sitemap in order and returns how many URLs were queued |
| CrawlScheduler.CrawlScheduler.EnqueueLinks | app/modules/crawler/services/crawl_orchestrator.py:675-721 | takes one submission step per link of the page, none beyond the depth limit |
| CrawlScheduler.CrawlScheduler.AdoptHost | app/modules/crawler/services/crawl_orchestrator.py:389-403 | takes the rebase step |
| CrawlScheduler.CrawlScheduler.TakeTurn | app/modules/crawler/services/crawl_scheduler.py:297-318 | takes exactly the step the branches of the loop choose: take, drop, wait or leave |
| CrawlScheduler.CrawlScheduler.CountOutcome | app/modules/crawler/services/crawl_scheduler.py:324-334 | takes the finish step |
| CrawlScheduler.CrawlScheduler.ReleaseWorker | app/modules/crawler/services/crawl_scheduler.py:335-339 | takes the release step |
| CrawlScheduler.CrawlScheduler.NotifyCondition | app/modules/crawler/services/crawl_scheduler.py:283-285 | takes the notify step |
| CrawlScheduler.CrawlScheduler.CancelCrawl | app/modules/crawler/services/crawl_scheduler.py:341-342 | takes the cancel step: waiters are not woken and the queue is kept |
| CrawlSite.QueueLinks | app/modules/crawler/crawl_service.py:188-195 | queues exactly the unseen links of a page up to the visited cap |
| CrawlSite.GrowReads | app/modules/crawler/crawl_service.py:181-195 | a page's links are read in order until the visited set is full, one cannot be normalised, or they are at an end; those read are visited |
| CrawlSite.GrowQueues | app/modules/crawler/crawl_service.py:181-195 | exactly the keys that become visited are queued, each once and one deeper |
| CrawlSite.LastPageNeverFails | app/modules/crawler/crawl_service.py:171-195 | a crawl that lacks one page at most no longer fails, whatever links are left |
| CrawlSite.FailsOnlyOnBadLinks | app/modules/crawler/crawl_service.py:181-195 | the traversal fails only on a link of a page that loads which cannot be normalised |
| CrawlSite.QueueSitemap | app/modules/crawler/crawl_service.py:153-163 | queues the first sitemap URL of each page, in order, up to the cap; fails exactly when a URL reached before the cap cannot be normalised |
| CrawlSite.FirstOfEachComplete | app/modules/crawler/crawl_service.py:153-163 | no page of the sitemap is missing from those URLs before the cap |
| CrawlSite.QueueStarts | app/modules/crawler/crawl_service.py:153-169 | the queue is those sitemap URLs and then the start URL if its page is new |
| CrawlSite.RunQueue | app/modules/crawler/crawl_service.py:171-197 | computes the traversal |
| CrawlSite.TraverseSound | app/modules/crawler/crawl_service.py:171-197 | results are loadable pages in range, each once, within the page cap, whatever the caps |
| CrawlSite.TraverseComplete | app/modules/crawler/crawl_service.py:171-197 | with room for everything in range the results are all of it, nearest first |
| CrawlSite.CrawlSite | app/modules/crawler/crawl_service.py:105-197 | both of the above for the whole call, and the first result is the first queued URL that loads |
| CrawlSite.StartHeadsQueueExactly | app/modules/crawler/crawl_service.py:153-169 | the start's page heads the queue exactly when the sitemap is empty, max_pages is not positive, or the first sitemap URL is the start's page |
| CrawlSite.StartIsFirstExactly | app/modules/crawler/crawl_service.py:171-181 | the start's page is the first result exactly when it loads and every page queued ahead of it does not |
| CrawlSite.StartIsFirstWhenAllLoad | app/modules/crawler/crawl_service.py:171-181 | when every queued page loads, exactly under the condition of the queue |
| CrawlSite.TraverseFirst | app/modules/crawler/crawl_service.py:171-181 | the traversal's first result is the first queued URL that loads |
| CrawlSite.SitemapGoesFirst | app/modules/crawler/crawl_service.py:153-181 | with one other page in the sitemap, both loading, that page is crawled before the start URL |
| CrawlQueue.CrawlQueueService.Add | app/modules/crawler/crawl_queue.py:45-100 | the outcome and new state of each branch of `add_url` |
| CrawlQueue.CrawlQueueService.Next | app/modules/crawler/crawl_queue.py:102-112 | hands out the oldest item and counts it |
| CrawlQueue.CrawlQueueService.Mark | app/modules/crawler/crawl_queue.py:114-118 | marks the normalised URL |
| CrawlQueue.AnyRunKeepsInv | app/modules/crawler/crawl_queue.py:65-118 | after any operations, queue + crawled_count is the number of distinct (URL, depth) pairs accepted, at most max_pages; `visited` is exactly the accepted and the marked URLs |
| CrawlQueue.AcceptedExactly | app/modules/crawler/crawl_queue.py:65-100 | after any operations a URL is accepted exactly when it is not too deep, fewer than max_pages were accepted, its class is a page's, it normalises, was never marked and not accepted at this depth |
| CrawlQueue.RejectionNoted | app/modules/crawler/crawl_queue.py:65-100 | the note left for a URL turned away names the first test it fails |
| CrawlQueue.MarkedStaysOut | app/modules/crawler/crawl_queue.py:89-118 | a marked URL is never queued again at any depth |
| AuditScores.WwwCollapses | app/modules/audit/services/audit_response_builder.py:174-183 | a www host and its bare host give one canonical key |
| AuditScores.TrailingSlashCollapses | app/modules/audit/services/audit_response_builder.py:180-183 | adding a trailing slash keeps the key exactly when the path is not "/" |
| AuditScores.OnePageExactly | app/modules/audit/services/audit_response_builder.py:174-183 | two URLs are one canonical page exactly when they differ only in www and trailing slashes |
| AuditScores.CanonicalOfExactly | app/modules/audit/services/audit_response_builder.py:169-183 | a page is grouped exactly when it has a host, under the key of its last such row |
| AuditScores.MergeRows | app/modules/audit/services/audit_response_builder.py:229-252 | the loop computes the merge |
| AuditScores.MergeIsConjunction | app/modules/audit/services/audit_response_builder.py:229-252 | the kept verdict is the conjunction of all non-error rows of the canonical page and rule |
| AuditScores.MergeIgnoresOrder | app/modules/audit/services/audit_response_builder.py:323-330 | order and repetition of rows change no verdict, and nothing at all when the deciding rows of each key carry one category |
| AuditScores.OrderCanChangeCategory | app/modules/audit/services/audit_response_builder.py:229-252 | with two categories for a rule id the kept one can depend on row order |
| AuditScores.CategoryFixedExactly | app/modules/audit/services/audit_response_builder.py:250-252 | the kept category of a page and rule is independent of row order exactly when all rows that can decide it (failing rows, or all rows when none fails) carry one category |
| AuditScores.RoundTenthRounds | app/modules/audit/services/audit_response_builder.py:466-470 | half-to-even rounding to a tenth is monotone and fixes tenths |
| AuditScores.RoundTenthExactly | app/modules/audit/services/audit_response_builder.py:465 | the rounded value is the nearest tenth, of two equally near the even one |
| AuditScores.CheckScoreIsRate | app/modules/audit/services/audit_response_builder.py:465 | a check's score is the share of pages that do not fail it, in percent, to the nearest tenth |
| AuditScores.CategoryScoreIsMean | app/modules/audit/services/audit_response_builder.py:470 | a category's score is the mean of its check scores, to the nearest tenth |
| AuditScores.CategoryBetweenChecks | app/modules/audit/services/audit_response_builder.py:470 | however it is rounded it lies between the smallest and the largest of them |
| AuditScores.CountPassedExactly | app/modules/audit/services/audit_response_builder.py:458-469 | checks passed are those that at most one canonical page in 2000 misses |
| AuditScores.RulesFromRows | app/modules/audit/services/audit_response_builder.py:321-335 | a category's rules are those with a verdict in a row of that category, rules having one category |
| AuditScores.BuildCategory | app/modules/audit/services/audit_response_builder.py:455-471 | one pass over a category computes its score and counts |
| AuditScores.ScoresInRange | app/modules/audit/services/audit_response_builder.py:455-471 | check and category scores lie in [0, 100] when every row's page is in a canonical group |
| AuditScores.OverflowExactly | app/modules/audit/services/audit_response_builder.py:462-466 | the reported score of any check exceeds 100 exactly when its passing pages exceed the groups by more than one group in 2000 |
| AuditScores.OverflowByRows | app/modules/audit/services/audit_response_builder.py:233-254 | on the rows: exactly when the pages passing under a fallback key outnumber the groups not passing by more than one group in 2000 |
| AuditScores.FallbackKeyOverflows | app/modules/audit/services/audit_response_builder.py:233-254 | one page without a host next to one with a host gives a score of 200 |
| AuditScores.PassedExactly | app/modules/audit/services/audit_response_builder.py:462-469 | a check passes exactly when at most one page in 2000 misses it |
| AuditScores.SmallSitePassesExactly | app/modules/audit/services/audit_response_builder.py:462-469 | below 2000 pages a check passes exactly when every canonical page has a verdict and none fails it |
| AuditScores.FailingNeverHelps | app/modules/audit/services/audit_response_builder.py:455-481 | turning one verdict from pass to fail raises no category score and no count of passed checks, and moves no rule between categories, when a rule id has one category |
| AuditScores.CategoryScoreIgnoresOrder | app/modules/audit/services/audit_response_builder.py:455-471 | category scores do not depend on row order nor on the order the rule set is visited in, when the deciding rows of each key carry one category |
| OverallScore.OverallOfPages | app/modules/audit/services/audit_response_builder.py:290-306 | the loop computes the weighted mean, homepage counted twice |
| OverallScore.OverallBetweenPages | app/modules/audit/services/audit_response_builder.py:300-306 | the overall score lies between the smallest and largest page score, rounding included |
| OverallScore.HomepageCountsTwice | app/modules/audit/services/audit_response_builder.py:290-306 | the homepage weighs exactly as much as if listed twice as an ordinary page |
| OverallScore.OverallMonotone | app/modules/audit/services/audit_response_builder.py:300-306 | lowering page scores never raises the overall score |
| OverallScore.OverallIsMean | app/modules/audit/services/audit_response_builder.py:290-306 | the overall score is the mean of the page scores, the homepage's taken twice, to the nearest tenth |
| OverallScore.PageScoreInRange | app/modules/scorer/services/score_calculator.py:84-106 | a page score lies in [0, 100] for any weights |
| OverallScore.PageBetweenCategories | app/modules/scorer/services/score_calculator.py:84-106 | with positive weights it lies between its category scores and the clamp never acts |
| OverallScore.PageScoreMonotone | app/modules/scorer/services/score_calculator.py:140-177 | turning verdicts from pass to fail never raises it |
| OverallScore.PageScoreIsMean | app/modules/scorer/services/score_calculator.py:87-106 | a page score is the mean of its category scores under the configured weights, to the nearest tenth |
| OverallScore.CategoriesExactly | app/modules/scorer/services/score_calculator.py:78-96 | each category that occurs is averaged once |
| OverallScore.RawScoreExactly | app/modules/scorer/services/score_calculator.py:156-175 | a result moves its category's score from 100 by its impact if it failed, and if it passed by its impact when that is a bonus |
| OverallScore.CategoryScoreClamped | app/modules/scorer/services/score_calculator.py:176-180 | the category score is that sum within 0 and 100, else the nearer bound |
| StripEmpty.StripLeavesNothingEmpty | app/modules/audit/services/audit_response_builder.py:377-395 | no null, empty list or empty dict is left anywhere |
| StripEmpty.PrunedExactly | app/modules/audit/services/audit_response_builder.py:377-395 | a tree prunes away entirely exactly when it holds nothing outside unavailable metrics |
| StripEmpty.GetStripped | app/modules/audit/services/audit_response_builder.py:384-389 | every key of a pruned dict holds its old value, pruned |
| StripEmpty.ItemKept | app/modules/audit/services/audit_response_builder.py:390-394 | a list keeps exactly its items that are not hollow, each pruned, in their places |
| StripEmpty.EntryKept | app/modules/audit/services/audit_response_builder.py:384-389 | a dict keeps exactly its entries that are not hollow, under their keys, in their places |
| StripEmpty.DictExactly | app/modules/audit/services/audit_response_builder.py:377-389 | a dict is dropped exactly when it says `available: false` with no value or a null one, or when nothing in it is kept |
| StripEmpty.StripShrinks | app/modules/audit/services/audit_response_builder.py:377-395 | pruning never grows a tree and keeps its size only by changing nothing |
| StripEmpty.IdempotentExactly | app/modules/audit/services/audit_response_builder.py:377-395 | a second pass changes nothing if and only if no surviving unavailable dict has a value that is not null but hollow |
| StripEmpty.IterationSettles | app/modules/audit/services/audit_response_builder.py:377-395 | iterating reaches a fixed point within the size of the tree |
| StripEmpty.TowerNeedsEveryPass | app/modules/audit/services/audit_response_builder.py:377-395 | no fixed number of passes is enough for every tree |
| ReportAssembler.GroupsPartition | app/modules/scorer/report_assembler.py:145-148 | grouping puts every failed check in the one group of its id |
| ReportAssembler.OccurrencesAreDistinct | app/modules/scorer/report_assembler.py:159-174 | occurrences are the distinct (found, expected) pairs, each once |
| ReportAssembler.OccurrencesExtend | app/modules/scorer/report_assembler.py:159-174 | occurrences stand in the order of first appearance |
| ReportAssembler.SortSorts | app/modules/scorer/report_assembler.py:191-198 | the result is sorted by the key and a permutation |
| ReportAssembler.IdsAreSequential | app/modules/scorer/report_assembler.py:199-202 | issue ids are exactly 1..n in display order across all categories |
| ReportAssembler.IssuesAreSorted | app/modules/scorer/report_assembler.py:191-198 | each category's issues are sorted by priority, impact and check id |
| ReportAssembler.ShownFirst | app/modules/scorer/report_assembler.py:191-198 | the higher priority comes first, then the larger impact, then the check id |
| ReportAssembler.StringLeExactly | app/modules/scorer/report_assembler.py:191-198 | ids are compared character by character |
| ReportAssembler.EveryFailureCountedOnce | app/modules/scorer/report_assembler.py:205-263 | in a relevant category each failing applicable check belongs to exactly one issue, which counts all checks of its id and takes severity, priority and impact from the first |
| ReportAssembler.FailingExactly | app/modules/scorer/report_assembler.py:259 | the failing checks of a category are its checks that apply and do not pass, in their order |
| ReportAssembler.SelectExactly | app/modules/scorer/report_assembler.py:145-148 | an issue stands for the checks of its id in their order, its head the first |
| ReportAssembler.LevelsAgree | app/modules/scorer/report_assembler.py:104-124 | which severity an issue is shown with and which priority it has; criticals and errors are high, infos and `passed` low |
| ReportAssembler.RelevantExactly | app/modules/scorer/report_assembler.py:64-70 | which categories a kind of site goes without |
| ReportAssembler.EveryCategoryOnce | app/modules/scorer/report_assembler.py:343-364 | every category that occurs is reported once, except the reserved header |
| ReportAssembler.ConfiguredFirst | app/modules/scorer/report_assembler.py:343-364 | the configured categories come first, in their order, and then the others, sorted |
| ReportAssembler.AffectedIsConserved | app/modules/scorer/report_assembler.py:205-364 | the affected page counts add up to the failing applicable checks of relevant categories |
| ReportAssembler.IssueCountsAddUp | app/modules/scorer/report_assembler.py:254-262 | critical, warning and info counts add up to the issues of a category |
| ReportAssembler.CategoryCountsExactly | app/modules/scorer/report_assembler.py:205-263 | a category has counts exactly when it is relevant and a check of it applies, and each count is the number of its issues of that severity |
| ReportAssembler.HeaderExactly | app/modules/scorer/report_assembler.py:278-317 | the header's criticals and warnings are the issues of that severity in the whole report; run, applicable, excluded and passed are the checks that are so |
| ReportAssembler.ChecksAddUp | app/modules/scorer/report_assembler.py:284-289 | passed and failing applicable checks are the applicable ones |
| ReportLoops.BuildOccurrences | app/modules/scorer/report_assembler.py:159-174 | the loop builds the occurrences |
| ReportLoops.BuildIssues | app/modules/scorer/report_assembler.py:142-202 | grouping, building, sorting and numbering loops build the issues and advance the counter |
| ReportLoops.BuildCategory | app/modules/scorer/report_assembler.py:205-277 | builds the category, skipped or applicable |
| ReportLoops.BuildReport | app/modules/scorer/report_assembler.py:320-375 | grouping and emission loops build the report whose properties are stated above |
| TopIssues.GroupFailedResults | app/modules/audit/services/audit_read_model_service.py:137-172 | the fold computes the entries |
| TopIssues.EntryMeaning | app/modules/audit/services/audit_read_model_service.py:137-172 | a rule's entry counts its results and holds a severity of least rank and the tier of the largest impact |
| TopIssues.CountRuleExactly | app/modules/audit/services/audit_read_model_service.py:160 | the page count of an entry is the number of its rule's failed results |
| TopIssues.TopTenIgnoresOrder | app/modules/audit/services/audit_read_model_service.py:273-276 | the sort keys (severity rank, impact, page count, rule) of the ten issues shown do not depend on reading order; the severity text is the next row |
| TopIssues.RanksInOrder | app/modules/audit/services/audit_read_model_service.py:118-122 | critical before high, medium and low, and every other severity after them |
| TopIssues.WorseFirst | app/modules/audit/services/audit_read_model_service.py:129-135 | the worse severity comes first, then the larger impact, then more results, then the id |
| TopIssues.TopExactly | app/modules/audit/services/audit_read_model_service.py:273-276 | ten issues are shown, or all when there are fewer, and every other comes after each of them |
| TopIssues.ShownSeverityExactly | app/modules/audit/services/audit_read_model_service.py:161-163 | the severity shown for a rule is independent of reading order exactly when all its results of least rank carry one severity (and, were a severity ever missing, none is pushed below the stand-in) |
| TopIssues.WarningOrError | app/modules/audit/services/audit_read_model_service.py:118-122 | a warning on one page and an evaluation error on another rank alike, and the one read first is shown |
| TopIssues.TiersAgreeExactly | app/modules/audit/services/audit_read_model_service.py:102-116 | the impact tiers equal the report assembler's exactly below 4, from 8 to 10 and from 15 on, and are one lower between |
| TopIssues.TiersDisagree | app/modules/audit/services/audit_read_model_service.py:102-116 | a penalty of 5 is low here and medium in the report |
| Upserts.StatementIsOneByOne | app/modules/audit/repositories/rule_evaluation_repository.py:127-142 | a statement on distinct keys equals writing its rows one by one |
| Upserts.BatchesAreOneByOne | app/modules/audit/repositories/rule_evaluation_repository.py:98-147 | batches of 500 go through exactly when no batch repeats a key, and then equal one-by-one writes |
| Upserts.BatchesDistinctExactly | app/modules/audit/repositories/rule_evaluation_repository.py:98-147 | no batch repeats a key exactly when no two rows whose numbers fall into the same 500 have one key |
| Upserts.UpsertInBatches | app/modules/audit/repositories/rule_evaluation_repository.py:103-147 | the batch loop computes that |
| CrawlPersistence.PersistenceService.BufferNetwork | app/modules/crawler/services/crawl_persistence_service.py:342-347 | below flush_every the row is only buffered, else the whole buffer is written, and fails exactly when a batch repeats a page; tables plus buffers remain what was submitted |
| CrawlPersistence.PersistenceService.BufferSeo | app/modules/crawler/services/crawl_persistence_service.py:349-354 | the same for SEO rows |
| CrawlPersistence.PersistenceService.BufferResources | app/modules/crawler/services/crawl_persistence_service.py:356-362 | table plus buffer remain the records of all calls made, this one the last |
| CrawlPersistence.PersistenceService.BufferLinks | app/modules/crawler/services/crawl_persistence_service.py:364-370 | the same for links |
| CrawlPersistence.ItemBuilt | app/modules/crawler/services/crawl_persistence_service.py:287-340 | each dict of a list makes one record, with its fields and the page, in its place; nothing else makes one |
| CrawlPersistence.RecordsCount | app/modules/crawler/services/crawl_persistence_service.py:356-370 | the records of a history hold each item as often as it was submitted for the page |
| CrawlPersistence.ItemInOrder | app/modules/crawler/services/crawl_persistence_service.py:356-370 | they stand in the order of submission |
| CrawlPersistence.PersistenceService.FlushNetwork | app/modules/crawler/services/crawl_persistence_service.py:374-410 | empties the buffer into the table as one-by-one writes; fails exactly when a batch repeats a page |
| CrawlPersistence.PersistenceService.FlushSeo | app/modules/crawler/services/crawl_persistence_service.py:412-470 | the same for SEO rows |
| CrawlPersistence.PersistenceService.SetFlushEvery | app/modules/crawler/services/crawl_persistence_service.py:283-285 | lowering the threshold flushes nothing and loses nothing: a buffer may stay above it until its next call |
| CrawlPersistence.PersistenceService.FlushAll | app/modules/crawler/services/crawl_persistence_service.py:494-509 | on a run without a failed statement the tables hold the last network and SEO row submitted for each page, and every dict ever submitted as a resource or link with its page, in order and as often as sent, and nothing else; no failure when no page was sent twice |
| CrawlPersistence.Flushed | app/modules/crawler/services/crawl_persistence_service.py:374-410 | flushing accounts for everything submitted |
| ResultTables.UpsertOne | app/modules/audit/repositories/rule_evaluation_repository.py:23-47 | the single upsert keeps id, rule name and category of an existing row |
| ResultTables.BulkUpsert | app/modules/audit/repositories/rule_evaluation_repository.py:83-147 | the bulk upsert keeps only the id |
| ResultTables.BulkStored | app/modules/audit/repositories/rule_evaluation_repository.py:83-147 | a bulk write leaves each rule's new row under the id it had, and other rules alone |
| ResultTables.BulkEqualsSingleExactly | app/modules/audit/repositories/rule_evaluation_repository.py:23-147 | both give the same table exactly when no row renames or recategorises a stored rule |
| ResultTables.BulkUpsertFacts | app/modules/audit/repositories/parsed_page_fact_repository.py:70-134 | writes the rows with parsed data in order and counts them; fails exactly when a batch repeats a key |
| ResultTables.FactsStored | app/modules/audit/repositories/parsed_page_fact_repository.py:70-134 | a page given data holds the new fact under the id it had; every other page what it held |
| ResultTables.FactSent | app/modules/audit/repositories/parsed_page_fact_repository.py:83-100 | facts with data are sent in their places, facts without are not |
| ResultTables.FactBatchesExactly | app/modules/audit/repositories/parsed_page_fact_repository.py:70-134 | the write goes through exactly when no batch of 500 gives one page data twice |
| HtmlCompressor.CollapseSpaces | app/shared/utils/html_compressor.py:24-28 | the replacement loop ends with one space for each run |
| HtmlCompressor.CompressHtml | app/shared/utils/html_compressor.py:7-28 | computes the compressed form |
| HtmlCompressor.CompressTidies | app/shared/utils/html_compressor.py:17-28 | no newline, no double space, no outer whitespace |
| HtmlCompressor.CompressKeepsVisible | app/shared/utils/html_compressor.py:17-28 | the sequence of non-whitespace characters is kept |
| HtmlCompressor.CompressLines | app/shared/utils/html_compressor.py:17-28 | the compressed lines that are not empty stand with one space between them |
| HtmlCompressor.CompressOneLine | app/shared/utils/html_compressor.py:17-28 | a line loses its outer whitespace and collapses its runs of spaces, and nothing else happens to it |
| HtmlCompressor.CollapseExactly | app/shared/utils/html_compressor.py:24-28 | a text without a double space collapses to itself, and a double space counts as one |
| HtmlCompressor.FixedExactly | app/shared/utils/html_compressor.py:17-28 | exactly the tidy texts are left unchanged |
| HtmlCompressor.CompressIdempotent | app/modules/crawler/services/crawl_persistence_service.py:233-244 | compressing twice is compressing once |
| HtmlCompressor.SnapshotStore.SaveSnapshot | app/modules/crawler/repositories/page_snapshot_repository.py:40-69 | upserts by page, compressing what is marked compressed, keeping parsed data when none is given |
| HtmlCompressor.SnapshotStore.PersistSnapshot | app/modules/crawler/services/crawl_persistence_service.py:219-247 | stores the once-compressed text though it is compressed twice on the way |
| HtmlCompressor.SavedExactly | app/modules/crawler/services/crawl_persistence_service.py:226-244 | more than 1024 bytes are stored compressed, and parsed data is only replaced by parsed data |
| HtmlCompressor.RemoveNulExactly | app/modules/crawler/services/crawl_persistence_service.py:219-232 | every character but NUL stays, in its place |
| HtmlCompressor.Utf8LengthExactly | app/shared/utils/html_compressor.py:31-44 | the length compared with the threshold counts the UTF-8 bytes |
| HtmlCompressor.SnapshotStore.GetByPageIds | app/modules/crawler/repositories/page_snapshot_repository.py:21-38 | batches of 1000 ids read exactly the rows of the requested pages |
| HtmlCompressor.ResaveKeepsContent | app/modules/crawler/services/crawl_persistence_service.py:219-247 | saving stored text again keeps it, and the row unless the text came under the threshold |
| StageReplay.ParseCountsExactly | app/modules/audit/services/db_parser_service.py:90-169 | parsed + failed + skipped is the number of successful pages exactly when there is one or there are no pages |
| StageReplay.ParseCountsEach | app/modules/audit/services/db_parser_service.py:90-169 | parsed, failed and skipped each count the successful pages parsed now, not parsable, and left alone |
| StageReplay.ParseStores | app/modules/audit/services/db_parser_service.py:118-153 | a run leaves the new fact of every page it parsed and everything else as it was |
| StageReplay.ParseReplay | app/modules/audit/services/db_parser_service.py:110-169 | parsing again without force writes nothing |
| StageReplay.ReplayCounts | app/modules/audit/services/db_parser_service.py:110-169 | the second run skips what the first parsed or skipped and fails where it failed |
| StageReplay.EvaluateWrites | app/modules/audit/services/rule_evaluator_service.py:215-235 | with one result per rule the bulk write goes through and writes the new rows in order |
| StageReplay.EvaluateStores | app/modules/audit/services/rule_evaluator_service.py:125-235 | a run leaves every result of every page evaluated and all other rows as they were; ignored pages and pages with rows are not evaluated |
| StageReplay.EvaluateStoresVerdicts | app/modules/audit/services/rule_evaluator_service.py:125-213 | of a page evaluated each rule's verdict is stored, a crash as `evaluation_error` with its message, and no other row of the page is touched |
| StageReplay.CountSkippedExactly | app/modules/audit/services/rule_evaluator_service.py:125-150 | the pages counted as skipped are those whose URL is ignored |
| StageReplay.EvaluateReplay | app/modules/audit/services/rule_evaluator_service.py:125-235 | evaluating again without force, in any order of the facts, writes nothing |
| StageReplay.AuditStages.ParseCrawl | app/modules/audit/services/db_parser_service.py:61-169 | the loop computes table and counts |
| StageReplay.AuditStages.EvaluateCrawl | app/modules/audit/services/rule_evaluator_service.py:75-253 | evaluated + skipped is the number of facts; writes all new rows or nothing |
| StageReplay.AuditStages.RunStages | app/modules/audit/services/rule_evaluator_service.py:75-253 | after one run of both stages any number of unforced runs leaves both tables identical, timestamps included |
| BrokenLinks.BuildPageStatuses | app/modules/crawler/services/broken_link_checker.py:77-85 | the status of a crawled URL is that of the last page with one |
| BrokenLinks.CheckLinks | app/modules/crawler/services/broken_link_checker.py:61-137 | assigns each link its status and counts broken ones as it goes |
| BrokenLinks.PageStatusesExactly | app/modules/crawler/services/broken_link_checker.py:77-85 | a URL has a status exactly when a crawled page has it and one, and then that of the last such page |
| BrokenLinks.CheckedExactly | app/modules/crawler/services/broken_link_checker.py:94-137 | a row ends with the answer of the request made for it, else the status the crawl gives it, else what it held; nothing else changes |
| BrokenLinks.CountExactly | app/modules/crawler/services/broken_link_checker.py:94-137 | a counter is the number of links it counts |
| BrokenLinks.RecountDifference | app/modules/crawler/repositories/page_link_repository.py:48-63 | by how much counters and recount differ, for any links |
| BrokenLinks.CountersExact | app/modules/crawler/repositories/page_link_repository.py:48-63 | for any rows they agree exactly when no external link goes uncounted and as many internal links go uncounted as are counted and then masked |
| BrokenLinks.WrittenIsOfOneKind | app/modules/crawler/extractors/seo_fact_extractor.py:187-188 | neither writer of links makes one that is internal and external |
| BrokenLinks.WrittenCountersExact | app/modules/crawler/repositories/page_link_repository.py:48-63 | on the rows those writers make, they agree exactly when no link keeps a broken status from before |
| BrokenLinks.StaleDisagrees | app/modules/crawler/services/broken_link_checker.py:112-137 | a redirect found broken by one check is recounted after a second check, made with external checks off, that counts nothing |
| Sessions.RunKeepsInv | app/modules/auth/services/refresh_service.py:94-134 | a blacklist entry always holds its token's own expiry; refresh rows outlive their tokens and the second they were stamped with; tokens belong to known users |
| Sessions.LoginExactly | app/modules/auth/services/login_service.py:59-92 | a login succeeds exactly for a known user whose new refresh token is not stored, whatever the blacklist holds; it stores the pair and changes nothing else |
| Sessions.LoginAgain | app/modules/auth/services/login_service.py:59-92 | after any run of logins, rotations, logouts and cleanups a known user can log in in any later second |
| Sessions.RefreshExactly | app/modules/auth/services/refresh_service.py:49-146 | a rotation succeeds exactly when the token's row is live, the access token sent along is not listed already and the new token is not stored; what it writes |
| Sessions.LogoutExactly | app/modules/auth/services/logout_service.py:31-69 | a logout succeeds exactly when the access token decodes and the refresh token is stored; what it writes |
| Sessions.RefusalsExplained | app/modules/auth/services/refresh_service.py:60-98 | what each refusal of a rotation or a logout means |
| Sessions.CleanupsExactly | app/modules/auth/tasks.py:76-105 | the cleanups delete exactly what has expired and change nothing else |
| Sessions.SessionLasts | app/core/security.py:89-122 | the access token of every pair minted, unless something lists it, is accepted exactly until its expiry plus slack, whatever runs |
| Sessions.WholeSecondsExactly | app/modules/auth/utils/auth_utils.py:35-48 | an expiry is cut to the last whole second |
| Sessions.WholeSecondSlack | app/modules/auth/utils/auth_utils.py:65-67 | a decoder that compares whole seconds accepts to the end of the expiry second |
| Sessions.ListedUntilCleared | app/modules/auth/tasks.py:76-88 | a listed token is off the blacklist exactly when a cleanup ran after its expiry and nothing has listed it since |
| Sessions.RevokedForever | app/core/security.py:89-107 | with an exact decoder a revoked token is never accepted again, along any run |
| Sessions.AcceptedAgainExactly | app/core/security.py:89-107 | in general it is accepted again exactly when a cleanup ran after its expiry, nothing has listed it since, and the decoder's slack is not over |
| Sessions.WholeSecondWindow | app/modules/auth/tasks.py:76-88 | one cleanup in the second after expiry is enough for a whole-second decoder |
| Sessions.LogoutRevokes | app/modules/auth/services/logout_service.py:50-69 | for any decoder slack: after a logout its access token is accepted again exactly when a cleanup ran after its expiry, nothing has listed it since, and the slack is still open |
| Sessions.LogoutRevokesForever | app/modules/auth/services/logout_service.py:50-69 | never, if the decoder is exact about expiry |
| Sessions.RefreshTokenIsSingleUse | app/modules/auth/services/refresh_service.py:75-134 | a refresh token is exchanged at most once, over any run |
| Sessions.LogoutEndsRotation | app/modules/auth/services/logout_service.py:50-52 | after a logout its refresh token is never exchanged again, over any run |
| Sessions.RefreshTokenIdentifiesUntilExpiry | app/core/security.py:89-122 | the refresh token of every pair a login or rotation minted is accepted by `get_current_user` exactly until its own expiry plus slack, whatever runs after it, its own rotation and logout included |
| Sessions.LoginOpensSession | app/modules/auth/services/login_service.py:66-92 | after a login its access token is accepted exactly until expiry plus slack, and its refresh token can be exchanged, with or without an access token, exactly while it lasts, the access token is not listed yet and the new token differs from it and from every stored one |
| Sessions.BlacklistCleanupInvisible | app/modules/auth/tasks.py:76-88 | with an exact decoder the cleanup changes no later answer of `get_current_user` |
| Sessions.RefreshCleanupInvisible | app/modules/auth/tasks.py:91-105 | the cleanup changes the success of no later login or rotation |
| Sessions.OnePairPerSecond | app/modules/auth/utils/auth_utils.py:51-62 | after a pair minted within one second, every other login or rotation of that user in this second fails on the unique hash |
| Sessions.SecondPairExactly | app/modules/auth/utils/auth_utils.py:51-62 | of two logins stamped with one second the second succeeds exactly when the first was begun in an earlier second |
| AuthDatabase.AuthDatabase.LoginUser | app/modules/auth/services/login_service.py:66-92 | takes the login step; a failed insert changes nothing |
| AuthDatabase.AuthDatabase.RefreshPair | app/modules/auth/services/refresh_service.py:49-146 | takes the rotation step; every failure, also after the old token was revoked, rolls back |
| AuthDatabase.AuthDatabase.LogoutUser | app/modules/auth/services/logout_service.py:31-72 | takes the logout step |
| AuthDatabase.AuthDatabase.CleanupBlacklist | app/modules/auth/tasks.py:76-88 | deletes exactly the expired entries and returns how many |
| AuthDatabase.AuthDatabase.CleanupRefresh | app/modules/auth/tasks.py:91-105 | deletes exactly the expired rows and returns how many |
| PasswordReset.OneForgotCode | app/modules/auth/services/password_reset_service.py:50-74 | a user never has more than one FORGOT code |
| PasswordReset.PermissionsConserved | app/modules/auth/services/password_reset_service.py:39-221 | password changes plus unused permissions never exceed verifications, which with the open code never exceed requests |
| PasswordReset.ChangeNeedsVerifiedCode | app/modules/auth/services/password_reset_service.py:95-221 | every change follows a request and a verification with that very code, both within the code's life |
| PasswordReset.PasswordChangesOnlyByReset | app/modules/auth/services/password_reset_service.py:196-211 | a password changes exactly by a successful reset, never to itself |
| PasswordReset.ResetFlowSucceeds | app/modules/auth/services/password_reset_service.py:39-221 | request, verification and change in time succeed and set the password |
| PasswordReset.ForgotExactly | app/modules/auth/services/password_reset_service.py:39-79 | a request replaces a known user's FORGOT codes by the new one; other rows stay in order; for an unknown user nothing happens |
| PasswordReset.VerifyExactly | app/modules/auth/services/password_reset_service.py:95-146 | after any run a code is verified exactly when the user is known and holds it, unexpired, as a FORGOT code |
| PasswordReset.VerifyRefused | app/modules/auth/services/password_reset_service.py:95-146 | what each refusal means |
| PasswordReset.ResetExactly | app/modules/auth/services/password_reset_service.py:160-214 | a password is set exactly when it is another and the last RESET row has not expired; that row goes and nothing else changes |
| PasswordReset.ResetRefused | app/modules/auth/services/password_reset_service.py:160-205 | why a change is refused |
| PasswordReset.VerifyRegistrationExactly | app/modules/auth/services/verify_otp_service.py:56-101 | a registration is verified exactly by the code of the user's newest row, of whatever kind, in time |
| PasswordReset.CleanupExactly | app/modules/auth/tasks.py:60-74 | the cleanup deletes exactly the expired rows |
| PasswordReset.RegistrationFlow | app/modules/auth/services/verify_otp_service.py:56-101 | the code of a registration, presented in time, verifies the user and is used up |
| PasswordReset.OtpStore.ForgotPassword | app/modules/auth/services/password_reset_service.py:39-79 | deletes the user's FORGOT codes and issues one |
| PasswordReset.OtpStore.VerifyResetOtp | app/modules/auth/services/password_reset_service.py:95-146 | every refusal, and the retyping of the row |
| PasswordReset.OtpStore.ResetPassword | app/modules/auth/services/password_reset_service.py:160-214 | every refusal, the new password and the deletion of the row |

## Left out

- HTTP, the browser, DNS, mail, payments and language-model calls: a page fetch is a function or an undetermined outcome.
- `normalize_url_canonical`, `classify_url`, robots policy and ignore patterns: uninterpreted functions of the URL.
- Cancellation of asyncio tasks by exceptions outside `Exception`, and the crawl delay: not scheduler steps here.
- Content hashes of the deduplication service: the crawl never asks for them.
- Item fields that no decision reads (`parent_page_id`, `discovered_at`): left out of the scheduler's items.
- The start URL and sitemap URLs are submitted before the workers start, as the orchestrator does; submissions while they run come from workers only.
- `crawl_site`'s file storage and the choice of sitemap URLs by `SiteDiscoveryService`: the sitemap list is an input.
- Floating point: scores are exact reals; `_build_summary`, which keeps the first verdict of a rule, only adds easy members.
- Report texts, grades and weights, `iss_0001` formatting of issue ids, and the fallback aggregation of category scores.
- Severities are lower case already in the report, the read model and the scores.
- Database failures other than unique violations; what a failed statement leaves for the rest of its transaction.
- The single upsert of parsed facts, which also writes rows without data: it is `Upserts.Put` and has no member of its own.
- StageReplay.AuditStages.ParseCrawl: one clock reading stands for the run; skip-log rows and error texts are not kept.
- AuthDatabase.AuthDatabase.LogoutUser: does not model the service's default for a missing expiry, which lists the token until the next cleanup (logout_service.py:61); the logout endpoint always has one to pass, as every token minted carries an expiry.
- Password hashing and JWT signing: a hash matches the one password it was made from, only minted tokens decode.
- Registration and its verification appear in PasswordReset only through their effect on the codes table.
- The streaming audit tasks and the Redis scheduler: the protocol's code is not part of this model.
