/**
 `BrokenLinkChecker.check_links` and `get_broken_counts`: the counters kept while statuses are
 assigned, against a recount of the rows afterwards.
 */
module BrokenLinks {
  import opened Basics

  /** `norm` is the normalised target, None when normalising raises. */
  datatype Link = Link(internal: bool, external: bool, target: string, norm: Option<string>, status: Option<int>)

  /** A crawled page: its normalised URL, None when normalising raises, and its status, 0 when it has none. */
  datatype CrawledPage = CrawledPage(norm: Option<string>, status: int)

  /** What the checks answer: crawled statuses by URL, and the HEAD request (0 when it fails). */
  datatype Answers = Answers(pages: map<string, int>, enabled: bool, head: string -> int)

  function PageStatuses(pages: seq<CrawledPage>): map<string, int> {
    if pages == [] then map[]
    else
      var p, earlier := pages[|pages| - 1], PageStatuses(pages[..|pages| - 1]);
      if p.norm.Some? && p.status != 0 then earlier[p.norm.value := p.status] else earlier
  }

  method BuildPageStatuses(pages: seq<CrawledPage>) returns (statuses: map<string, int>)
    ensures statuses == PageStatuses(pages)
  {
    statuses := map[];
    for i := 0 to |pages|
      invariant statuses == PageStatuses(pages[..i])
    {
      assert pages[..i + 1][..i] == pages[..i];
      if pages[i].norm.Some? && pages[i].status != 0 {
        statuses := statuses[pages[i].norm.value := pages[i].status];
      }
    }
    assert pages[..|pages|] == pages;
  }

  /** The i-th page is the last with that normalised URL and a status. */
  ghost predicate LastWith(pages: seq<CrawledPage>, i: int, url: string) {
    && 0 <= i < |pages| && pages[i].norm == Some(url) && pages[i].status != 0
    && forall j :: i < j < |pages| ==> pages[j].norm != Some(url) || pages[j].status == 0
  }

  lemma LastWithGrows(front: seq<CrawledPage>, last: CrawledPage, i: int, url: string)
    ensures LastWith(front + [last], i, url) <==>
            if last.norm == Some(url) && last.status != 0 then i == |front| else LastWith(front, i, url)
  {
    var pages := front + [last];
    assert pages[|front|] == last && forall j :: 0 <= j < |front| ==> pages[j] == front[j];
  }

  /** A URL has a status exactly when a crawled page has it and a status, and then that of the last such page. */
  lemma {:induction false} PageStatusesExactly(pages: seq<CrawledPage>, url: string)
    ensures url in PageStatuses(pages) <==> exists i :: LastWith(pages, i, url)
    ensures forall i :: LastWith(pages, i, url) ==> url in PageStatuses(pages) && PageStatuses(pages)[url] == pages[i].status
  {
    if pages != [] {
      var front, last := pages[..|pages| - 1], pages[|pages| - 1];
      PageStatusesExactly(front, url);
      assert pages == front + [last];
      forall i ensures LastWith(pages, i, url) <==>
                       if last.norm == Some(url) && last.status != 0 then i == |front| else LastWith(front, i, url) {
        LastWithGrows(front, last, i, url);
      }
      hide LastWith;
      if last.norm == Some(url) && last.status != 0 {
        assert LastWith(pages, |front|, url);
      }
    }
  }

  /** The status the crawl gives an internal link. */
  function Resolved(a: Answers, l: Link): Option<int> {
    if l.internal && l.target != "" && l.norm.Some? && l.norm.value in a.pages then Some(a.pages[l.norm.value]) else None
  }

  /** The status the HEAD request gives an external link. */
  function Probed(a: Answers, l: Link): Option<int> {
    if a.enabled && l.external && l.target != "" then Some(a.head(l.target)) else None
  }

  predicate Broken(status: Option<int>) { status.Some? && status.value >= 400 }

  function AfterInternal(a: Answers, l: Link): Link {
    if Resolved(a, l).Some? then l.(status := Resolved(a, l)) else l
  }

  function Checked(a: Answers, l: Link): Link {
    if Probed(a, l).Some? then l.(status := Probed(a, l)) else AfterInternal(a, l)
  }

  function Count(links: seq<Link>, p: Link -> bool): nat {
    if links == [] then 0 else Count(links[..|links| - 1], p) + if p(links[|links| - 1]) then 1 else 0
  }

  /** Where the links stand that satisfy `p`. */
  ghost function LinksWith(links: seq<Link>, p: Link -> bool): set<int> {
    set i | 0 <= i < |links| && p(links[i])
  }

  lemma LinksWithGrow(front: seq<Link>, last: Link, p: Link -> bool)
    ensures |LinksWith(front + [last], p)| == |LinksWith(front, p)| + if p(last) then 1 else 0
  {
    var all, n := front + [last], |front|;
    assert LinksWith(all, p) == LinksWith(front, p) + if p(last) then {n} else {} by {
      assert all[n] == last && forall i :: 0 <= i < n ==> all[i] == front[i];
    }
    assert n !in LinksWith(front, p);
  }

  lemma {:induction false} CountExactly(links: seq<Link>, p: Link -> bool)
    ensures Count(links, p) == |LinksWith(links, p)|
  {
    if links != [] {
      CountExactly(links[..|links| - 1], p);
      assert links == links[..|links| - 1] + [links[|links| - 1]];
      LinksWithGrow(links[..|links| - 1], links[|links| - 1], p);
    }
  }

  function BrokenResolved(a: Answers): Link -> bool { (l: Link) => Broken(Resolved(a, l)) }
  function BrokenProbed(a: Answers): Link -> bool { (l: Link) => Broken(Probed(a, l)) }
  /** The recount's own test: a status of 400 or more in the row. */
  const BROKEN_INTERNAL: Link -> bool := (l: Link) => l.internal && l.status.Some? && l.status.value >= 400
  const BROKEN_EXTERNAL: Link -> bool := (l: Link) => l.external && l.status.Some? && l.status.value >= 400

  function CheckedAll(a: Answers, links: seq<Link>): seq<Link> {
    seq(|links|, i requires 0 <= i < |links| => Checked(a, links[i]))
  }

  /** The loop over internal links. */
  method ResolveInternal(a: Answers, links: array<Link>) returns (broken: nat)
    modifies links
    ensures forall k :: 0 <= k < links.Length ==> links[k] == AfterInternal(a, old(links[k]))
    ensures broken == Count(old(links[..]), BrokenResolved(a))
  {
    ghost var was := links[..];
    broken := 0;
    for i := 0 to links.Length
      invariant forall k :: 0 <= k < links.Length ==> links[k] == if k < i then AfterInternal(a, was[k]) else was[k]
      invariant broken == Count(was[..i], BrokenResolved(a))
    {
      assert was[..i + 1][..i] == was[..i];
      var link := links[i];
      if link.internal && link.target != "" && link.norm.Some? && link.norm.value in a.pages {
        var status := a.pages[link.norm.value];
        links[i] := link.(status := Some(status));
        if status >= 400 {
          broken := broken + 1;
        }
      }
    }
    assert was[..links.Length] == was;
  }

  /** The loop over external links, with the HEAD results at hand. */
  method ProbeExternal(a: Answers, links: array<Link>) returns (broken: nat)
    requires a.enabled
    modifies links
    ensures forall k :: 0 <= k < links.Length ==>
              links[k] == if Probed(a, old(links[k])).Some? then old(links[k]).(status := Probed(a, old(links[k]))) else old(links[k])
    ensures broken == Count(old(links[..]), BrokenProbed(a))
  {
    ghost var was := links[..];
    broken := 0;
    for i := 0 to links.Length
      invariant forall k :: i <= k < links.Length ==> links[k] == was[k]
      invariant forall k :: 0 <= k < i ==>
                  links[k] == if Probed(a, was[k]).Some? then was[k].(status := Probed(a, was[k])) else was[k]
      invariant broken == Count(was[..i], BrokenProbed(a))
    {
      assert was[..i + 1][..i] == was[..i];
      var link := links[i];
      if link.external && link.target != "" {
        var status := a.head(link.target);
        links[i] := link.(status := Some(status));
        if status >= 400 {
          broken := broken + 1;
        }
      }
    }
    assert was[..links.Length] == was;
  }

  /** The crawled statuses, and the two passes over the rows. */
  method CheckLinks(pages: seq<CrawledPage>, enabled: bool, head: string -> int, links: array<Link>)
    returns (brokenInternal: nat, brokenExternal: nat)
    modifies links
    ensures var a := Answers(PageStatuses(pages), enabled, head);
            && links[..] == CheckedAll(a, old(links[..]))
            && brokenInternal == Count(old(links[..]), BrokenResolved(a))
            && brokenExternal == Count(old(links[..]), BrokenProbed(a))
  {
    var statuses := BuildPageStatuses(pages);
    var a := Answers(statuses, enabled, head);
    ghost var was := links[..];
    brokenInternal := ResolveInternal(a, links);
    if a.enabled {
      ghost var resolved := links[..];
      brokenExternal := ProbeExternal(a, links);
      SameProbes(a, was, resolved);
    } else {
      brokenExternal := 0;
      NothingProbed(a, was);
    }
  }

  lemma {:induction false} SameProbes(a: Answers, was: seq<Link>, resolved: seq<Link>)
    requires |was| == |resolved| && forall k :: 0 <= k < |was| ==> resolved[k] == AfterInternal(a, was[k])
    ensures Count(resolved, BrokenProbed(a)) == Count(was, BrokenProbed(a))
  {
    if was != [] {
      SameProbes(a, was[..|was| - 1], resolved[..|was| - 1]);
    }
  }

  lemma {:induction false} NothingProbed(a: Answers, links: seq<Link>)
    requires !a.enabled
    ensures Count(links, BrokenProbed(a)) == 0
  {
    if links != [] {
      NothingProbed(a, links[..|links| - 1]);
    }
  }

  /** The crawl decides: the link is internal, and its target normalises to a crawled page with this status. */
  ghost predicate CrawlSays(pages: seq<CrawledPage>, l: Link, status: int) {
    && l.internal && l.target != "" && l.norm.Some?
    && exists i :: LastWith(pages, i, l.norm.value) && pages[i].status == status
  }

  /**
   What a check leaves in a row: the answer to the request if one is made for it, else the status the crawl gives
   it, else what it held; nothing but the status changes.
   */
  lemma CheckedExactly(pages: seq<CrawledPage>, enabled: bool, head: string -> int, l: Link)
    ensures var after, probed := Checked(Answers(PageStatuses(pages), enabled, head), l), enabled && l.external && l.target != "";
            && after == l.(status := after.status)
            && (probed ==> after.status == Some(head(l.target)))
            && (!probed ==> forall status :: CrawlSays(pages, l, status) ==> after.status == Some(status))
            && (!probed && (forall status :: !CrawlSays(pages, l, status)) ==> after.status == l.status)
  {
    if l.norm.Some? {
      PageStatusesExactly(pages, l.norm.value);
      if l.internal && l.target != "" && l.norm.value in PageStatuses(pages) {
        var i :| LastWith(pages, i, l.norm.value);
        assert CrawlSays(pages, l, pages[i].status);
      }
    }
  }

  // ------------------------------------------------------------- the recount

  /** Counted as broken, but the HEAD request then overwrote the status with a good one. */
  function Masked(a: Answers): Link -> bool {
    (l: Link) => Broken(Resolved(a, l)) && Probed(a, l).Some? && !Broken(Probed(a, l))
  }

  /** Broken afterwards without being counted: found broken by HEAD only, or left with an old status. */
  function MissedInternal(a: Answers): Link -> bool {
    (l: Link) => l.internal && !Broken(Resolved(a, l)) && Broken(Checked(a, l).status)
  }

  function MissedExternal(a: Answers): Link -> bool {
    (l: Link) => l.external && !Broken(Probed(a, l)) && Broken(Checked(a, l).status)
  }

  /** By how much counters and recount differ, for any links. */
  lemma {:induction false} RecountDifference(a: Answers, links: seq<Link>)
    ensures Count(CheckedAll(a, links), BROKEN_INTERNAL) + Count(links, Masked(a)) ==
            Count(links, BrokenResolved(a)) + Count(links, MissedInternal(a))
    ensures Count(CheckedAll(a, links), BROKEN_EXTERNAL) == Count(links, BrokenProbed(a)) + Count(links, MissedExternal(a))
  {
    if links != [] {
      var front := links[..|links| - 1];
      RecountDifference(a, front);
      assert CheckedAll(a, links)[..|front|] == CheckedAll(a, front);
      assert CheckedAll(a, links)[|front|] == Checked(a, links[|front|]);
    }
  }

  lemma {:induction false} CountZero(links: seq<Link>, p: Link -> bool)
    ensures Count(links, p) == 0 <==> forall l :: l in links ==> !p(l)
  {
    if links != [] {
      CountZero(links[..|links| - 1], p);
      assert links == links[..|links| - 1] + [links[|links| - 1]];
    }
  }

  lemma {:induction false} CountSame(links: seq<Link>, p: Link -> bool, q: Link -> bool)
    requires forall l :: l in links ==> p(l) == q(l)
    ensures Count(links, p) == Count(links, q)
  {
    if links != [] {
      CountSame(links[..|links| - 1], p, q);
      assert links[|links| - 1] in links;
    }
  }

  /** An internal link the crawl does not count, and which HEAD finds broken or an earlier check left broken. */
  function UncountedInternal(a: Answers): Link -> bool {
    (l: Link) => l.internal && !Broken(Resolved(a, l)) &&
                 (Broken(Probed(a, l)) || (Probed(a, l).None? && Resolved(a, l).None? && Broken(l.status)))
  }

  /** An external link HEAD says nothing about, and whose crawled or earlier status is broken. */
  function UncountedExternal(a: Answers): Link -> bool {
    (l: Link) => l.external && Probed(a, l).None? && Broken(if Resolved(a, l).Some? then Resolved(a, l) else l.status)
  }

  /**
   For any rows, both counters equal the recount exactly when no external link goes uncounted and as many
   internal links go uncounted as are counted and then masked.
   */
  lemma CountersExact(a: Answers, links: seq<Link>)
    ensures Count(CheckedAll(a, links), BROKEN_INTERNAL) == Count(links, BrokenResolved(a))
            && Count(CheckedAll(a, links), BROKEN_EXTERNAL) == Count(links, BrokenProbed(a))
            <==>
            && (forall l :: l in links ==> !UncountedExternal(a)(l))
            && Count(links, Masked(a)) == Count(links, UncountedInternal(a))
  {
    RecountDifference(a, links);
    CountSame(links, MissedInternal(a), UncountedInternal(a));
    CountSame(links, MissedExternal(a), UncountedExternal(a));
    CountZero(links, UncountedExternal(a));
  }

  // ------------------------------------------------------------- the rows the crawl writes

  /** A link taken from a page: internal when both domains are known and of one site, else external if it has a domain. */
  function Extracted(pageDomain: bool, linkDomain: bool, sameSite: bool, target: string, norm: Option<string>): Link {
    var internal := pageDomain && linkDomain && sameSite;
    Link(internal, linkDomain && !internal, target, norm, None)
  }

  /** A redirect saved as a link. */
  function Redirected(target: string, norm: Option<string>): Link { Link(false, true, target, norm, None) }

  /** A row as one of its two writers made it, whatever earlier checks have set its status to. */
  ghost predicate Written(l: Link) {
    || (exists pageDomain, linkDomain, sameSite ::
          l.(status := None) == Extracted(pageDomain, linkDomain, sameSite, l.target, l.norm))
    || l.(status := None) == Redirected(l.target, l.norm)
  }

  /** Neither writer makes a row of both kinds, and a check leaves the kinds alone. */
  lemma WrittenIsOfOneKind(a: Answers, l: Link)
    requires Written(l)
    ensures !(l.internal && l.external) && Written(Checked(a, l))
  {
    assert Checked(a, l).(status := None) == l.(status := None);
    if l.(status := None) != Redirected(l.target, l.norm) {
      var p, d, same :| l.(status := None) == Extracted(p, d, same, l.target, l.norm);
      assert Checked(a, l).(status := None) == Extracted(p, d, same, l.target, l.norm);
    }
  }

  /** A broken status from before that this check does not replace. */
  predicate Stale(a: Answers, l: Link) {
    Broken(l.status) && Resolved(a, l).None? && Probed(a, l).None? && (l.internal || l.external)
  }

  /** On the rows the crawl writes, both counters equal the recount exactly when no link is stale. */
  lemma WrittenCountersExact(a: Answers, links: seq<Link>)
    requires forall l :: l in links ==> Written(l)
    ensures Count(CheckedAll(a, links), BROKEN_INTERNAL) == Count(links, BrokenResolved(a))
            && Count(CheckedAll(a, links), BROKEN_EXTERNAL) == Count(links, BrokenProbed(a))
            <==> forall l :: l in links ==> !Stale(a, l)
  {
    CountersExact(a, links);
    CountZero(links, Masked(a));
    CountZero(links, UncountedInternal(a));
    forall l | l in links
      ensures !Masked(a)(l) && (Stale(a, l) <==> UncountedInternal(a)(l) || UncountedExternal(a)(l))
    {
      WrittenIsOfOneKind(a, l);
    }
  }

  /** A redirect found broken by one check is recounted after a second, made without requests, that counts nothing. */
  lemma StaleDisagrees(url: string, norm: Option<string>)
    requires url != ""
    ensures var first, second := Answers(map[], true, (u: string) => 404), Answers(map[], false, (u: string) => 0);
            var links := CheckedAll(first, [Redirected(url, norm)]);
            && links == [Link(false, true, url, norm, Some(404))]
            && Count(links, BrokenProbed(second)) == 0 && Count(CheckedAll(second, links), BROKEN_EXTERNAL) == 1
  {
    var first, second := Answers(map[], true, (u: string) => 404), Answers(map[], false, (u: string) => 0);
    var links := CheckedAll(first, [Redirected(url, norm)]);
    assert links == [Link(false, true, url, norm, Some(404))];
    assert links[..0] == [] && CheckedAll(second, links) == links;
  }
}
