/** `CrawlQueueService`: a bounded FIFO queue with (URL, depth) deduplication. */
module CrawlQueue {
  import opened Basics

  datatype Class = Html | Fragment | Invalid | Ignored | Robots | Sitemap | Api | External | Resource

  datatype Limits = Limits(maxDepth: int, maxPages: int)

  /** `classify_url` against the service's base domain, and `normalize_url` (None when it raises). */
  datatype Urls = Urls(classify: string -> Class, normalize: string -> Option<string>)

  datatype QueueItem = QueueItem(url: string, depth: int)

  datatype Rejection =
    | DepthLimit(url: string, depth: int)
    | PageLimit(url: string)
    | BadClass(url: string, class_: Class)
    | Duplicate(url: string)

  datatype Outcome = Added(normalized: string) | Rejected(why: Rejection) | Raised

  datatype State = State(
    queue: seq<QueueItem>, visited: set<string>, crawledCount: nat, rejected: seq<Rejection>,
    queued: set<(string, int)>, manuallyVisited: set<string>)

  const EMPTY := State([], {}, 0, [], {}, {})

  /** The branches of `add_url`, in order. */
  function Judge(urls: Urls, limits: Limits, s: State, url: string, depth: int): Outcome {
    if depth > limits.maxDepth then Rejected(DepthLimit(url, depth))
    else if |s.queue| + s.crawledCount >= limits.maxPages then Rejected(PageLimit(url))
    else if urls.classify(url) !in {Html, Fragment} then Rejected(BadClass(url, urls.classify(url)))
    else match urls.normalize(url)
      case None => Raised
      case Some(n) =>
        if n in s.manuallyVisited || (n, depth) in s.queued then Rejected(Duplicate(url)) else Added(n)
  }

  function AddUrl(urls: Urls, limits: Limits, s: State, url: string, depth: int): State {
    match Judge(urls, limits, s, url, depth)
    case Raised => s
    case Rejected(why) => s.(rejected := s.rejected + [why])
    case Added(n) =>
      s.(queue := s.queue + [QueueItem(url, depth)], visited := s.visited + {n}, queued := s.queued + {(n, depth)})
  }

  function GetNext(s: State): State {
    if s.queue == [] then s else s.(queue := s.queue[1..], crawledCount := s.crawledCount + 1)
  }

  function MarkVisited(urls: Urls, s: State, url: string): State {
    match urls.normalize(url)
    case None => s
    case Some(n) => s.(manuallyVisited := s.manuallyVisited + {n}, visited := s.visited + {n})
  }

  /** The service object. */
  class CrawlQueueService {
    const urls: Urls
    const limits: Limits
    var queue: seq<QueueItem>
    var visited: set<string>
    var crawledCount: nat
    var rejected: seq<Rejection>
    var queued: set<(string, int)>
    var manuallyVisited: set<string>

    ghost function View(): State
      reads this
    {
      State(queue, visited, crawledCount, rejected, queued, manuallyVisited)
    }

    constructor (urls: Urls, limits: Limits)
      ensures View() == EMPTY && this.urls == urls && this.limits == limits
    {
      this.urls, this.limits := urls, limits;
      queue, visited, crawledCount, rejected, queued, manuallyVisited := [], {}, 0, [], {}, {};
    }

    method Add(url: string, depth: int) returns (r: Result<bool, string>)
      modifies this
      ensures View() == AddUrl(urls, limits, old(View()), url, depth)
      ensures r == match Judge(urls, limits, old(View()), url, depth)
                   case Added(_) => Success(true)
                   case Rejected(_) => Success(false)
                   case Raised => Failure(url)
    {
      if depth > limits.maxDepth {
        rejected := rejected + [DepthLimit(url, depth)];
        return Success(false);
      }
      if |queue| + crawledCount >= limits.maxPages {
        rejected := rejected + [PageLimit(url)];
        return Success(false);
      }
      var class_ := urls.classify(url);
      if class_ in {Invalid, Ignored, Robots, Sitemap, Api} || class_ == External || class_ == Resource {
        rejected := rejected + [BadClass(url, class_)];
        return Success(false);
      }
      match urls.normalize(url) {
        case None => return Failure(url);
        case Some(n) =>
          if n in manuallyVisited || (n, depth) in queued {
            rejected := rejected + [Duplicate(url)];
            return Success(false);
          }
          queue := queue + [QueueItem(url, depth)];
          visited := visited + {n};
          queued := queued + {(n, depth)};
          return Success(true);
      }
    }

    method Next() returns (item: Option<QueueItem>)
      modifies this
      ensures View() == GetNext(old(View()))
      ensures item == if old(queue) == [] then None else Some(old(queue)[0])
    {
      if |queue| > 0 {
        crawledCount := crawledCount + 1;
        item := Some(queue[0]);
        queue := queue[1..];
      } else {
        item := None;
      }
    }

    method Mark(url: string) returns (r: Result<(), string>)
      modifies this
      ensures View() == MarkVisited(urls, old(View()), url)
      ensures r.Failure? <==> urls.normalize(url).None?
    {
      match urls.normalize(url) {
        case None => return Failure(url);
        case Some(n) =>
          manuallyVisited := manuallyVisited + {n};
          visited := visited + {n};
          return Success(());
      }
    }
  }

  // ------------------------------------------------------------- any sequence of operations

  datatype Op = OpAdd(url: string, depth: int) | OpNext | OpMark(url: string)

  function Apply(urls: Urls, limits: Limits, s: State, op: Op): State {
    match op
    case OpAdd(url, depth) => AddUrl(urls, limits, s, url, depth)
    case OpNext => GetNext(s)
    case OpMark(url) => MarkVisited(urls, s, url)
  }

  function RunOps(urls: Urls, limits: Limits, ops: seq<Op>): State {
    if ops == [] then EMPTY
    else Apply(urls, limits, RunOps(urls, limits, ops[..|ops| - 1]), ops[|ops| - 1])
  }

  /** The items the operations added, in order. */
  function AddedBy(urls: Urls, limits: Limits, ops: seq<Op>): seq<QueueItem> {
    if ops == [] then []
    else
      var before, op := ops[..|ops| - 1], ops[|ops| - 1];
      AddedBy(urls, limits, before) +
      (if op.OpAdd? && Judge(urls, limits, RunOps(urls, limits, before), op.url, op.depth).Added?
       then [QueueItem(op.url, op.depth)] else [])
  }

  /** `added` is waiting or returned, in order, and counted exactly once each. */
  ghost predicate CountInv(limits: Limits, s: State, added: seq<QueueItem>) {
    && |s.queue| + s.crawledCount == |s.queued| == |added|
    && s.queue == added[s.crawledCount..]
    && |s.queued| <= (if limits.maxPages < 0 then 0 else limits.maxPages)
  }

  ghost predicate VisitedInv(s: State) {
    forall u :: u in s.visited <==> u in s.manuallyVisited || exists d :: (u, d) in s.queued
  }

  ghost predicate AcceptedAs(urls: Urls, added: seq<QueueItem>, p: (string, int)) {
    exists i :: 0 <= i < |added| && urls.normalize(added[i].url) == Some(p.0) && added[i].depth == p.1
  }

  ghost predicate PairInv(urls: Urls, limits: Limits, s: State, added: seq<QueueItem>) {
    && (forall p :: p in s.queued <==> AcceptedAs(urls, added, p))
    && (forall i :: 0 <= i < |added| ==> added[i].depth <= limits.maxDepth)
  }

  ghost predicate QueueInv(urls: Urls, limits: Limits, s: State, added: seq<QueueItem>) {
    CountInv(limits, s, added) && VisitedInv(s) && PairInv(urls, limits, s, added)
  }

  lemma AddKeepsCounts(urls: Urls, limits: Limits, s: State, added: seq<QueueItem>, url: string, depth: int)
    requires CountInv(limits, s, added) && Judge(urls, limits, s, url, depth).Added?
    ensures CountInv(limits, AddUrl(urls, limits, s, url, depth), added + [QueueItem(url, depth)])
  {
    var s' := AddUrl(urls, limits, s, url, depth);
    assert s'.queue == (added + [QueueItem(url, depth)])[s'.crawledCount..];
  }

  lemma AddKeepsPairs(urls: Urls, limits: Limits, s: State, added: seq<QueueItem>, url: string, depth: int)
    requires PairInv(urls, limits, s, added) && Judge(urls, limits, s, url, depth).Added?
    ensures PairInv(urls, limits, AddUrl(urls, limits, s, url, depth), added + [QueueItem(url, depth)])
  {
    var n := Judge(urls, limits, s, url, depth).normalized;
    var added' := added + [QueueItem(url, depth)];
    assert added'[|added|] == QueueItem(url, depth);
    forall p ensures p in s.queued + {(n, depth)} <==> AcceptedAs(urls, added', p) {
      if p in s.queued {
        var i :| 0 <= i < |added| && urls.normalize(added[i].url) == Some(p.0) && added[i].depth == p.1;
        assert added'[i] == added[i];
      }
      if AcceptedAs(urls, added', p) {
        var i :| 0 <= i < |added'| && urls.normalize(added'[i].url) == Some(p.0) && added'[i].depth == p.1;
        assert i < |added| ==> AcceptedAs(urls, added, p);
      }
    }
  }

  lemma AddKeepsVisited(urls: Urls, limits: Limits, s: State, url: string, depth: int)
    requires VisitedInv(s) && Judge(urls, limits, s, url, depth).Added?
    ensures VisitedInv(AddUrl(urls, limits, s, url, depth))
  {
    var s' := AddUrl(urls, limits, s, url, depth);
    var n := Judge(urls, limits, s, url, depth).normalized;
    forall u ensures u in s'.visited <==> u in s'.manuallyVisited || exists d :: (u, d) in s'.queued {
      if u == n {
        assert (n, depth) in s'.queued;
      } else if u in s.visited && u !in s.manuallyVisited {
        var d :| (u, d) in s.queued;
        assert (u, d) in s'.queued;
      }
    }
  }

  lemma AddKeepsInv(urls: Urls, limits: Limits, s: State, added: seq<QueueItem>, url: string, depth: int)
    requires QueueInv(urls, limits, s, added)
    ensures QueueInv(urls, limits, AddUrl(urls, limits, s, url, depth),
                     if Judge(urls, limits, s, url, depth).Added? then added + [QueueItem(url, depth)] else added)
  {
    if Judge(urls, limits, s, url, depth).Added? {
      AddKeepsCounts(urls, limits, s, added, url, depth);
      AddKeepsPairs(urls, limits, s, added, url, depth);
      AddKeepsVisited(urls, limits, s, url, depth);
    }
  }

  /**
   Bounded queue: after any operations, waiting plus returned items are the distinct (URL, depth)
   pairs accepted, never more than `maxPages`; items come out in the order they went in; and
   `visited` is the accepted URLs plus the marked ones.
   */
  lemma {:induction false} AnyRunKeepsInv(urls: Urls, limits: Limits, ops: seq<Op>)
    ensures QueueInv(urls, limits, RunOps(urls, limits, ops), AddedBy(urls, limits, ops))
  {
    if ops != [] {
      var before, op := ops[..|ops| - 1], ops[|ops| - 1];
      AnyRunKeepsInv(urls, limits, before);
      var s, added := RunOps(urls, limits, before), AddedBy(urls, limits, before);
      match op
      case OpAdd(url, depth) =>
        AddKeepsInv(urls, limits, s, added, url, depth);
        assert added + [] == added;
      case OpNext => assert added + [] == added;
      case OpMark(_) => assert added + [] == added;
    }
  }

  /** Once a URL has been marked, no later operation queues it again, at any depth. */
  lemma {:induction false} MarkedStaysOut(urls: Urls, limits: Limits, ops: seq<Op>, more: seq<Op>, url: string, i: nat)
    requires urls.normalize(url).Some? && OpMark(url) in ops && more != []
    requires |AddedBy(urls, limits, ops)| <= i < |AddedBy(urls, limits, ops + more)|
    ensures urls.normalize(AddedBy(urls, limits, ops + more)[i].url) != urls.normalize(url)
    decreases |more|
  {
    var rest := more[..|more| - 1];
    var front := ops + rest;
    assert (ops + more)[..|ops + more| - 1] == front;
    assert rest == [] ==> front == ops;
    if i < |AddedBy(urls, limits, front)| {
      MarkedStaysOut(urls, limits, ops, rest, url, i);
    } else {
      assert OpMark(url) in front;
      MarkIsRemembered(urls, limits, front, url);
    }
  }

  lemma {:induction false} MarkIsRemembered(urls: Urls, limits: Limits, ops: seq<Op>, url: string)
    requires urls.normalize(url).Some? && OpMark(url) in ops
    ensures urls.normalize(url).value in RunOps(urls, limits, ops).manuallyVisited
  {
    var before, op := ops[..|ops| - 1], ops[|ops| - 1];
    if op != OpMark(url) {
      assert OpMark(url) in before;
      MarkIsRemembered(urls, limits, before, url);
    }
  }

  /** The URL was marked visited by one of the operations. */
  ghost predicate Marked(urls: Urls, ops: seq<Op>, n: string) {
    exists i :: 0 <= i < |ops| && ops[i].OpMark? && urls.normalize(ops[i].url) == Some(n)
  }

  lemma {:induction false} MarksExactly(urls: Urls, limits: Limits, ops: seq<Op>, n: string)
    ensures n in RunOps(urls, limits, ops).manuallyVisited <==> Marked(urls, ops, n)
  {
    if ops != [] {
      var before, op := ops[..|ops| - 1], ops[|ops| - 1];
      MarksExactly(urls, limits, before, n);
      assert forall i :: 0 <= i < |before| ==> before[i] == ops[i];
      if Marked(urls, before, n) {
        var i :| 0 <= i < |before| && before[i].OpMark? && urls.normalize(before[i].url) == Some(n);
        assert ops[i] == before[i];
      }
    }
  }

  /**
   When a URL is accepted, from what happened before: it is not too deep, fewer than `maxPages` were accepted
   so far, it is a page or a fragment of one, it normalises, it was never marked, and it was not accepted at
   this depth before.
   */
  lemma AcceptedExactly(urls: Urls, limits: Limits, ops: seq<Op>, url: string, depth: int)
    ensures var added, n := AddedBy(urls, limits, ops), urls.normalize(url);
            AddedBy(urls, limits, ops + [OpAdd(url, depth)]) == added +
              if && depth <= limits.maxDepth && |added| < limits.maxPages
                 && urls.classify(url) != Invalid && urls.classify(url) != Ignored && urls.classify(url) != Robots
                 && urls.classify(url) != Sitemap && urls.classify(url) != Api && urls.classify(url) != External
                 && urls.classify(url) != Resource
                 && n.Some? && !Marked(urls, ops, n.value) && !AcceptedAs(urls, added, (n.value, depth))
              then [QueueItem(url, depth)] else []
  {
    assert (ops + [OpAdd(url, depth)])[..|ops|] == ops;
    AnyRunKeepsInv(urls, limits, ops);
    if urls.normalize(url).Some? {
      MarksExactly(urls, limits, ops, urls.normalize(url).value);
    }
    hide RunOps, Marked, AcceptedAs;
  }

  /** The operations other than an addition accept nothing. */
  lemma OthersAcceptNothing(urls: Urls, limits: Limits, ops: seq<Op>, op: Op)
    requires !op.OpAdd?
    ensures AddedBy(urls, limits, ops + [op]) == AddedBy(urls, limits, ops)
  {
    assert (ops + [op])[..|ops|] == ops;
  }

  /** What is noted for a URL that is turned away: the first test it fails; a URL that cannot be normalised leaves no note. */
  lemma RejectionNoted(urls: Urls, limits: Limits, s: State, url: string, depth: int)
    ensures var after, full := AddUrl(urls, limits, s, url, depth), |s.queue| + s.crawledCount >= limits.maxPages;
            && (depth > limits.maxDepth ==> after.rejected == s.rejected + [DepthLimit(url, depth)])
            && (depth <= limits.maxDepth && full ==> after.rejected == s.rejected + [PageLimit(url)])
            && (depth <= limits.maxDepth && !full && urls.classify(url) !in {Html, Fragment} ==>
                  after.rejected == s.rejected + [BadClass(url, urls.classify(url))])
            && (depth <= limits.maxDepth && !full && urls.classify(url) in {Html, Fragment} ==>
                  after.rejected == s.rejected +
                    if urls.normalize(url).Some? && after.queue == s.queue then [Duplicate(url)] else [])
  {
  }
}
