/**
 The scoring half of `AuditResponseBuilder.build`: host and slash variants of a page are one
 canonical page, the worst verdict of each (canonical page, rule) is kept, and pass rates and
 weighted means are computed from what was kept.  Arithmetic is exact; `round(x, 1)` is a
 parameter wherever only its monotonicity matters.
 */
module AuditScores {
  import opened Basics

  // ------------------------------------------------------------- canonical pages

  /** A crawled page: its id, the lower-cased host of its URL ("" when there is none) and the path. */
  datatype CrawlPage = CrawlPage(id: string, host: string, path: string)

  function StripWww(host: string): string {
    if |host| >= 4 && host[..4] == "www." then host[4..] else host
  }

  /** `rstrip("/")`. */
  function StripSlashes(path: string): string {
    if path != "" && path[|path| - 1] == '/' then StripSlashes(path[..|path| - 1]) else path
  }

  function CanonicalPath(path: string): string {
    if path == "" then "/" else if path != "/" then StripSlashes(path) else path
  }

  function CanonicalKey(host: string, path: string): string {
    StripWww(host) + CanonicalPath(path)
  }

  /** A `www.` host and its bare host give one key. */
  lemma WwwCollapses(host: string, path: string)
    requires StripWww(host) == host
    ensures CanonicalKey("www." + host, path) == CanonicalKey(host, path)
  {
    assert ("www." + host)[..4] == "www." && ("www." + host)[4..] == host;
  }

  lemma SuffixDecides(host: string, a: string, b: string)
    ensures host + a == host + b <==> a == b
  {
    assert (host + a)[|host|..] == a && (host + b)[|host|..] == b;
  }

  /** A trailing slash is dropped except on "/": there "//" becomes the empty path, not "/". */
  lemma TrailingSlashCollapses(host: string, path: string)
    ensures CanonicalKey(host, path + "/") == CanonicalKey(host, path) <==> path != "/"
  {
    assert (path + "/")[..|path + "/"| - 1] == path;
    SuffixDecides(StripWww(host), CanonicalPath(path + "/"), CanonicalPath(path));
    if path == "/" {
      assert CanonicalPath("//") == "" by {
        assert "//"[..1] == "/" && "/"[..0] == "";
      }
    }
  }

  /** `canonical_of_page`: pages without a host have no canonical page. */
  function CanonicalOf(pages: seq<CrawlPage>): map<string, string> {
    if pages == [] then map[]
    else
      var p := pages[|pages| - 1];
      var earlier := CanonicalOf(pages[..|pages| - 1]);
      if p.host == "" then earlier else earlier[p.id := CanonicalKey(p.host, p.path)]
  }

  /** What a path loses are its trailing slashes, all of them. */
  lemma {:induction false} StripSlashesExactly(path: string) returns (slashes: string)
    ensures path == StripSlashes(path) + slashes && forall c :: c in slashes ==> c == '/'
    ensures StripSlashes(path) != "" ==> StripSlashes(path)[|StripSlashes(path)| - 1] != '/'
  {
    if path != "" && path[|path| - 1] == '/' {
      slashes := StripSlashesExactly(path[..|path| - 1]);
      slashes := slashes + "/";
    } else {
      slashes := "";
    }
  }

  /** As in a URL: the host has no slash, and the path begins with one unless it is empty. */
  predicate IsUrlPart(host: string, path: string) {
    '/' !in host && (path == "" || path[0] == '/')
  }

  /** Two paths of one page: both the root, or the same up to trailing slashes. */
  predicate SamePath(a: string, b: string) {
    if a == "" || a == "/" then b == "" || b == "/"
    else b != "" && b != "/" && StripSlashes(a) == StripSlashes(b)
  }

  function HostLength(url: string): nat {
    if url == "" || url[0] == '/' then 0 else 1 + HostLength(url[1..])
  }

  lemma {:induction false} HostLengthExactly(host: string, path: string)
    requires IsUrlPart(host, path)
    ensures HostLength(host + path) == |host|
  {
    if host == "" {
      assert host + path == path;
    } else {
      assert (host + path)[1..] == host[1..] + path;
      HostLengthExactly(host[1..], path);
    }
  }

  lemma HostEnds(host: string, path: string, host': string, path': string)
    requires IsUrlPart(host, path) && IsUrlPart(host', path') && host + path == host' + path'
    ensures host == host' && path == path'
  {
    var all := host + path;
    HostLengthExactly(host, path);
    HostLengthExactly(host', path');
    assert host == all[..|host|] && host' == all[..|host'|];
    assert path == all[|host|..] && path' == all[|host'|..];
  }

  lemma CanonicalParts(host: string, path: string)
    requires IsUrlPart(host, path)
    ensures IsUrlPart(StripWww(host), CanonicalPath(path))
  {
    var slashes := StripSlashesExactly(path);
  }

  /** Two URLs are one canonical page exactly when they differ only in `www.` and trailing slashes. */
  lemma OnePageExactly(host: string, path: string, host': string, path': string)
    requires IsUrlPart(host, path) && IsUrlPart(host', path')
    ensures CanonicalKey(host, path) == CanonicalKey(host', path') <==> StripWww(host) == StripWww(host') && SamePath(path, path')
  {
    CanonicalParts(host, path);
    CanonicalParts(host', path');
    if CanonicalKey(host, path) == CanonicalKey(host', path') {
      HostEnds(StripWww(host), CanonicalPath(path), StripWww(host'), CanonicalPath(path'));
    }
    NotTheRoot(path);
    NotTheRoot(path');
  }

  lemma NotTheRoot(path: string)
    ensures StripSlashes(path) != "/"
  {
    var slashes := StripSlashesExactly(path);
  }

  /** The i-th row is the last of that page with a host. */
  ghost predicate LastHosted(pages: seq<CrawlPage>, i: int, id: string) {
    && 0 <= i < |pages| && pages[i].id == id && pages[i].host != ""
    && forall j :: i < j < |pages| ==> pages[j].id != id || pages[j].host == ""
  }

  /** A page is grouped exactly when one of its rows has a host, under the key of the last such row. */
  lemma {:induction false} CanonicalOfExactly(pages: seq<CrawlPage>, id: string)
    ensures id in CanonicalOf(pages) <==> exists i :: LastHosted(pages, i, id)
    ensures forall i :: LastHosted(pages, i, id) ==>
              id in CanonicalOf(pages) && CanonicalOf(pages)[id] == CanonicalKey(pages[i].host, pages[i].path)
  {
    if pages != [] {
      var before, last := pages[..|pages| - 1], pages[|pages| - 1];
      hide CanonicalKey;
      CanonicalOfExactly(before, id);
      assert pages == before + [last];
      forall i ensures LastHosted(pages, i, id) <==>
                       if last.id == id && last.host != "" then i == |before| else LastHosted(before, i, id) {
        LastHostedGrows(before, last, i, id);
      }
      hide LastHosted;
      if last.id == id && last.host != "" {
        assert LastHosted(pages, |before|, id);
      }
    }
  }

  lemma LastHostedGrows(before: seq<CrawlPage>, last: CrawlPage, i: int, id: string)
    ensures LastHosted(before + [last], i, id) <==>
            if last.id == id && last.host != "" then i == |before| else LastHosted(before, i, id)
  {
    var pages := before + [last];
    assert pages[|before|] == last && forall j :: 0 <= j < |before| ==> pages[j] == before[j];
  }

  // ------------------------------------------------------------- worst verdict wins

  /** A row of rule_evaluation_results. */
  datatype Row = Row(page: string, rule: string, category: string, isError: bool, passed: bool)

  datatype Kept = Kept(category: string, passed: bool)

  /** Keyed by (canonical page, rule). */
  type Results = map<(string, string), Kept>

  function PageKey(canon: map<string, string>, page: string): string {
    if page in canon then canon[page] else page
  }

  function Absorb(canon: map<string, string>, m: Results, r: Row): Results {
    var k := (PageKey(canon, r.page), r.rule);
    if r.isError then m
    else if k !in m || (!r.passed && m[k].passed) then m[k := Kept(r.category, r.passed)]
    else m
  }

  function Merge(canon: map<string, string>, rows: seq<Row>): Results {
    if rows == [] then map[] else Absorb(canon, Merge(canon, rows[..|rows| - 1]), rows[|rows| - 1])
  }

  /** The loop over the evaluation rows. */
  method MergeRows(canon: map<string, string>, rows: seq<Row>) returns (m: Results)
    ensures m == Merge(canon, rows)
  {
    m := map[];
    for i := 0 to |rows|
      invariant m == Merge(canon, rows[..i])
    {
      assert rows[..i + 1][..i] == rows[..i];
      var r := rows[i];
      if r.isError {
        continue;
      }
      var k := (PageKey(canon, r.page), r.rule);
      if k !in m || (!r.passed && m[k].passed) {
        m := m[k := Kept(r.category, r.passed)];
      }
    }
    assert rows[..|rows|] == rows;
  }

  /** Row `r` counts for key `k`. */
  predicate Maps(canon: map<string, string>, r: Row, k: (string, string)) {
    !r.isError && PageKey(canon, r.page) == k.0 && r.rule == k.1
  }

  ghost predicate AnyRow(canon: map<string, string>, rows: seq<Row>, k: (string, string)) {
    exists r :: r in rows && Maps(canon, r, k)
  }

  ghost predicate AllPass(canon: map<string, string>, rows: seq<Row>, k: (string, string)) {
    forall r :: r in rows && Maps(canon, r, k) ==> r.passed
  }

  ghost predicate FromRow(canon: map<string, string>, rows: seq<Row>, k: (string, string), category: string) {
    exists r :: r in rows && Maps(canon, r, k) && r.category == category
  }

  lemma AbsorbAt(canon: map<string, string>, m: Results, r: Row, k: (string, string))
    ensures k in Absorb(canon, m, r) <==> k in m || Maps(canon, r, k)
    ensures k in m && !Maps(canon, r, k) ==> Absorb(canon, m, r)[k] == m[k]
    ensures k !in m && Maps(canon, r, k) ==> Absorb(canon, m, r)[k] == Kept(r.category, r.passed)
    ensures k in m && Maps(canon, r, k) ==>
              && Absorb(canon, m, r)[k].passed == (m[k].passed && r.passed)
              && Absorb(canon, m, r)[k].category in {m[k].category, r.category}
  {
  }

  lemma RowsGrow(canon: map<string, string>, before: seq<Row>, r: Row, k: (string, string))
    ensures AnyRow(canon, before + [r], k) <==> AnyRow(canon, before, k) || Maps(canon, r, k)
    ensures AllPass(canon, before + [r], k) <==> AllPass(canon, before, k) && (Maps(canon, r, k) ==> r.passed)
    ensures forall c :: FromRow(canon, before + [r], k, c) <==>
                          FromRow(canon, before, k, c) || (Maps(canon, r, k) && r.category == c)
  {
    var rows := before + [r];
    assert r in rows;
    assert forall q :: q in rows <==> q in before || q == r;
  }

  /**
   The kept verdict of a (canonical page, rule) is the conjunction of all its non-error rows, and
   its category is that of one of them.
   */
  lemma {:induction false} MergeIsConjunction(canon: map<string, string>, rows: seq<Row>, k: (string, string))
    ensures k in Merge(canon, rows) <==> AnyRow(canon, rows, k)
    ensures k in Merge(canon, rows) ==> (Merge(canon, rows)[k].passed <==> AllPass(canon, rows, k))
    ensures k in Merge(canon, rows) ==> FromRow(canon, rows, k, Merge(canon, rows)[k].category)
  {
    if rows != [] {
      var before, last := rows[..|rows| - 1], rows[|rows| - 1];
      MergeIsConjunction(canon, before, k);
      assert rows == before + [last];
      AbsorbAt(canon, Merge(canon, before), last, k);
      RowsGrow(canon, before, last, k);
    }
  }

  ghost predicate SameRows(a: seq<Row>, b: seq<Row>) {
    forall r :: r in a <==> r in b
  }

  /** Rule ids determine categories, as the rule registry does. */
  ghost predicate OneCategoryPerRule(rows: seq<Row>) {
    forall a, b :: a in rows && b in rows && !a.isError && !b.isError && a.rule == b.rule ==> a.category == b.category
  }

  /** The order of the rows, and repetitions, change no verdict. */
  lemma MergeIgnoresOrder(canon: map<string, string>, a: seq<Row>, b: seq<Row>)
    requires SameRows(a, b)
    ensures Merge(canon, a).Keys == Merge(canon, b).Keys
    ensures forall k :: k in Merge(canon, a) ==> Merge(canon, a)[k].passed == Merge(canon, b)[k].passed
    ensures (forall k :: OneDecidingCategory(canon, a, k)) ==> Merge(canon, a) == Merge(canon, b)
  {
    forall k ensures k in Merge(canon, a) <==> k in Merge(canon, b)
             ensures k in Merge(canon, a) ==> Merge(canon, a)[k].passed == Merge(canon, b)[k].passed
             ensures k in Merge(canon, a) && OneDecidingCategory(canon, a, k) ==> Merge(canon, a)[k] == Merge(canon, b)[k]
    {
      MergeIsConjunction(canon, a, k);
      MergeIsConjunction(canon, b, k);
      if k in Merge(canon, a) && OneDecidingCategory(canon, a, k) {
        OneCategoryKept(canon, a, b, k);
      }
    }
  }

  /** Without one category per rule the kept category, and so the category scores, depend on order. */
  lemma OrderCanChangeCategory()
    ensures var a, b := Row("p", "r", "links", false, true), Row("p", "r", "images", false, true);
            Merge(map["p" := "x/"], [a, b]) != Merge(map["p" := "x/"], [b, a])
  {
    var canon := map["p" := "x/"];
    var a, b := Row("p", "r", "links", false, true), Row("p", "r", "images", false, true);
    MergeOfTwo(canon, a, b);
    MergeOfTwo(canon, b, a);
  }

  lemma MergeOfTwo(canon: map<string, string>, a: Row, b: Row)
    ensures Merge(canon, [a, b]) == Absorb(canon, Absorb(canon, map[], a), b)
  {
    assert [a, b][..1] == [a] && [a][..0] == [];
    assert Merge(canon, [a]) == Absorb(canon, Merge(canon, []), a);
  }

  /** The rows that can decide what is kept for a key: its failing rows, or all its rows when none fails. */
  predicate Decides(canon: map<string, string>, rows: seq<Row>, k: (string, string), r: Row) {
    Maps(canon, r, k) && (!r.passed || forall q :: q in rows && Maps(canon, q, k) ==> q.passed)
  }

  ghost predicate OneDecidingCategory(canon: map<string, string>, rows: seq<Row>, k: (string, string)) {
    forall a, b :: a in rows && b in rows && Decides(canon, rows, k, a) && Decides(canon, rows, k, b) ==> a.category == b.category
  }

  /** Reading the rows in any other order keeps the same category for the key. */
  ghost predicate CategoryFixed(canon: map<string, string>, rows: seq<Row>, k: (string, string)) {
    forall other: seq<Row> :: multiset(other) == multiset(rows) ==>
      k in Merge(canon, other) && k in Merge(canon, rows) && Merge(canon, other)[k].category == Merge(canon, rows)[k].category
  }

  /** The category kept is that of a deciding row. */
  lemma {:induction false} KeptCategoryDecides(canon: map<string, string>, rows: seq<Row>, k: (string, string))
    requires k in Merge(canon, rows)
    ensures exists r :: r in rows && Decides(canon, rows, k, r) && r.category == Merge(canon, rows)[k].category
  {
    var before, last := rows[..|rows| - 1], rows[|rows| - 1];
    var m := Merge(canon, before);
    assert rows == before + [last];
    assert last in rows && forall q :: q in rows <==> q in before || q == last;
    if k in m {
      KeptCategoryDecides(canon, before, k);
      MergeIsConjunction(canon, before, k);
      var r :| r in before && Decides(canon, before, k, r) && r.category == m[k].category;
      if Maps(canon, last, k) && !last.passed && m[k].passed {
        assert Decides(canon, rows, k, last);
      } else {
        assert Decides(canon, rows, k, r);
      }
    } else {
      MergeIsConjunction(canon, before, k);
      assert Decides(canon, rows, k, last);
    }
  }

  /** A deciding row that is read first is the one kept. */
  lemma {:induction false} FirstDecides(canon: map<string, string>, r: Row, rest: seq<Row>, k: (string, string))
    requires Maps(canon, r, k) && (r.passed ==> AllPass(canon, rest, k))
    ensures k in Merge(canon, [r] + rest) && Merge(canon, [r] + rest)[k] == Kept(r.category, r.passed)
  {
    var rows := [r] + rest;
    if rest == [] {
      assert rows[..0] == [] && rows == [r];
    } else {
      var front := rest[..|rest| - 1];
      FirstDecides(canon, r, front, k);
      assert rows[..|rows| - 1] == [r] + front;
      assert rest[|rest| - 1] in rest;
    }
  }

  /**
   The category kept for a key is independent of the order of the rows exactly when all rows that can
   decide it carry one category.
   */
  lemma CategoryFixedExactly(canon: map<string, string>, rows: seq<Row>, k: (string, string))
    requires AnyRow(canon, rows, k)
    ensures CategoryFixed(canon, rows, k) <==> OneDecidingCategory(canon, rows, k)
  {
    MergeIsConjunction(canon, rows, k);
    if OneDecidingCategory(canon, rows, k) {
      forall other: seq<Row> | multiset(other) == multiset(rows)
        ensures k in Merge(canon, other) && Merge(canon, other)[k].category == Merge(canon, rows)[k].category
      {
        PermutedRows(rows, other);
        OneCategoryKept(canon, rows, other, k);
      }
    }
    if CategoryFixed(canon, rows, k) {
      forall a, b | a in rows && b in rows && Decides(canon, rows, k, a) && Decides(canon, rows, k, b)
        ensures a.category == b.category
      {
        ReadFirst(canon, rows, k, a);
        ReadFirst(canon, rows, k, b);
      }
    }
  }

  lemma PermutedRows(a: seq<Row>, b: seq<Row>)
    requires multiset(a) == multiset(b)
    ensures SameRows(a, b)
  {
    forall r ensures r in a <==> r in b {
      assert r in a <==> r in multiset(a);
      assert r in b <==> r in multiset(b);
    }
  }

  /** Rows of one deciding category keep it in any order, also when some are repeated. */
  lemma OneCategoryKept(canon: map<string, string>, rows: seq<Row>, other: seq<Row>, k: (string, string))
    requires SameRows(rows, other) && AnyRow(canon, rows, k) && OneDecidingCategory(canon, rows, k)
    ensures k in Merge(canon, other) && k in Merge(canon, rows)
    ensures Merge(canon, other)[k].category == Merge(canon, rows)[k].category
  {
    MergeIsConjunction(canon, rows, k);
    MergeIsConjunction(canon, other, k);
    KeptCategoryDecides(canon, rows, k);
    KeptCategoryDecides(canon, other, k);
    var a :| a in rows && Decides(canon, rows, k, a) && a.category == Merge(canon, rows)[k].category;
    var b :| b in other && Decides(canon, other, k, b) && b.category == Merge(canon, other)[k].category;
    assert Decides(canon, rows, k, b);
  }

  /** Some order keeps the category of a given deciding row. */
  lemma ReadFirst(canon: map<string, string>, rows: seq<Row>, k: (string, string), r: Row)
    requires r in rows && Decides(canon, rows, k, r) && CategoryFixed(canon, rows, k)
    ensures k in Merge(canon, rows) && Merge(canon, rows)[k].category == r.category
  {
    hide Merge;
    var i :| 0 <= i < |rows| && rows[i] == r;
    var rest := rows[..i] + rows[i + 1..];
    assert rows == rows[..i] + [r] + rows[i + 1..];
    assert multiset([r] + rest) == multiset(rows);
    FirstDecides(canon, r, rest, k);
  }

  // ------------------------------------------------------------- rounding

  /** What the bounds need of `round(x, 1)`. */
  ghost predicate IsRounding(round: real -> real) {
    && (forall x, y :: x <= y ==> round(x) <= round(y))
    && forall n: int :: round(Tenth(n)) == Tenth(n)
  }

  function Tenth(n: int): real { n as real / 10.0 }

  /** Round half to even, to one decimal, of an exact number. */
  function RoundTenth(x: real): real {
    var n := (x * 10.0).Floor;
    var rest := x * 10.0 - n as real;
    Tenth(if rest < 0.5 then n else if rest > 0.5 then n + 1 else if n % 2 == 0 then n else n + 1)
  }

  lemma RoundTenthRounds()
    ensures IsRounding(RoundTenth)
  {
    forall x, y | x <= y ensures RoundTenth(x) <= RoundTenth(y) {
      assert (x * 10.0).Floor <= (y * 10.0).Floor;
    }
    forall n: int ensures RoundTenth(Tenth(n)) == Tenth(n) {
      assert Tenth(n) * 10.0 == n as real;
    }
  }

  /** The rounded value is the nearest tenth, and of two equally near the even one. */
  lemma RoundTenthExactly(x: real) returns (n: int)
    ensures RoundTenth(x) == Tenth(n) && n as real - 0.5 <= x * 10.0 <= n as real + 0.5
    ensures x * 10.0 == n as real - 0.5 || x * 10.0 == n as real + 0.5 ==> n % 2 == 0
    ensures x - 0.05 <= RoundTenth(x) <= x + 0.05
  {
    var floor := (x * 10.0).Floor;
    var rest := x * 10.0 - floor as real;
    n := if rest < 0.5 then floor else if rest > 0.5 then floor + 1 else if floor % 2 == 0 then floor else floor + 1;
  }

  lemma RoundBounds(round: real -> real, x: real)
    requires IsRounding(round)
    ensures x >= 0.0 ==> round(x) >= 0.0
    ensures x <= 100.0 ==> round(x) <= 100.0
  {
    assert round(Tenth(0)) == Tenth(0) && round(Tenth(1000)) == Tenth(1000);
  }

  // ------------------------------------------------------------- pass rates

  /** The canonical pages that have any verdict: the keys of `rule_cache`. */
  function CachePages(m: Results): set<string> {
    set k | k in m :: k.0
  }

  predicate Fails(m: Results, page: string, rule: string) {
    (page, rule) in m && !m[(page, rule)].passed
  }

  /** A page without a verdict for the rule counts as passing it. */
  function PassingPages(m: Results, rule: string): set<string> {
    set page | page in CachePages(m) && !Fails(m, page, rule)
  }

  function CheckScore(round: real -> real, m: Results, total: nat, rule: string): real {
    if total == 0 then 0.0 else round(100.0 * |PassingPages(m, rule)| as real / total as real)
  }

  function RulesOf(m: Results, category: string): set<string> {
    set k | k in m && m[k].category == category :: k.1
  }

  function SumReal(xs: seq<real>): real {
    if xs == [] then 0.0 else SumReal(xs[..|xs| - 1]) + xs[|xs| - 1]
  }

  function Scores(round: real -> real, m: Results, total: nat, rules: seq<string>): seq<real> {
    seq(|rules|, i requires 0 <= i < |rules| => CheckScore(round, m, total, rules[i]))
  }

  function CategoryScore(round: real -> real, m: Results, total: nat, rules: seq<string>): real {
    if rules == [] then 0.0 else round(SumReal(Scores(round, m, total, rules)) / |rules| as real)
  }

  const PASS_THRESHOLD := 100.0

  function CountPassed(scores: seq<real>): nat {
    if scores == [] then 0
    else CountPassed(scores[..|scores| - 1]) + if scores[|scores| - 1] >= PASS_THRESHOLD then 1 else 0
  }

  /** One pass of `_build_categories`; `rules` is the order in which the rule set is visited. */
  method BuildCategory(round: real -> real, m: Results, total: nat, rules: seq<string>)
    returns (score: real, checksTotal: nat, checksPassed: nat, checksFailed: int)
    ensures score == CategoryScore(round, m, total, rules)
    ensures checksTotal == |rules| && checksPassed == CountPassed(Scores(round, m, total, rules))
    ensures checksFailed == checksTotal - checksPassed && checksFailed >= 0
  {
    var checkScores: seq<real> := [];
    checksTotal, checksPassed := |rules|, 0;
    var sum := 0.0;
    for i := 0 to |rules|
      invariant checkScores == Scores(round, m, total, rules)[..i]
      invariant sum == SumReal(checkScores)
      invariant checksPassed == CountPassed(checkScores) <= i
    {
      var checkScore := CheckScore(round, m, total, rules[i]);
      assert (checkScores + [checkScore])[..i] == checkScores;
      checkScores, sum := checkScores + [checkScore], sum + checkScore;
      if checkScore >= PASS_THRESHOLD {
        checksPassed := checksPassed + 1;
      }
    }
    assert checkScores == Scores(round, m, total, rules);
    checksFailed := checksTotal - checksPassed;
    score := if |checkScores| > 0 then round(sum / |checkScores| as real) else 0.0;
  }

  /** Every non-error row belongs to a canonical page. */
  ghost predicate AllGrouped(canon: map<string, string>, rows: seq<Row>) {
    forall r :: r in rows && !r.isError ==> r.page in canon
  }

  lemma CachePagesGrouped(canon: map<string, string>, rows: seq<Row>)
    requires AllGrouped(canon, rows)
    ensures CachePages(Merge(canon, rows)) <= canon.Values
    ensures |CachePages(Merge(canon, rows))| <= |canon.Values|
  {
    var m := Merge(canon, rows);
    forall page | page in CachePages(m) ensures page in canon.Values {
      var k :| k in m && k.0 == page;
      MergeIsConjunction(canon, rows, k);
      var r :| r in rows && Maps(canon, r, k);
      assert canon[r.page] == page;
    }
    SubsetSize(CachePages(m), canon.Values);
  }

  lemma CheckScoreBounds(round: real -> real, m: Results, total: nat, rule: string)
    requires IsRounding(round) && |CachePages(m)| <= total
    ensures 0.0 <= CheckScore(round, m, total, rule) <= 100.0
  {
    if total > 0 {
      SubsetSize(PassingPages(m, rule), CachePages(m));
      RatioBounds(|PassingPages(m, rule)|, total);
      RoundBounds(round, 100.0 * |PassingPages(m, rule)| as real / total as real);
    }
  }

  lemma RatioBounds(n: nat, total: nat)
    requires n <= total && total > 0
    ensures 0.0 <= 100.0 * n as real / total as real <= 100.0
  {
    assert 100.0 * n as real <= 100.0 * total as real;
    MeanAtMost(100.0 * n as real, total as real, 100.0);
    MeanAtLeast(100.0 * n as real, total as real, 0.0);
  }

  lemma ProductBelow(x: real, y: real, w: real)
    requires w > 0.0 && x > y
    ensures x * w > y * w
  {
  }

  lemma MeanAtMost(sum: real, weight: real, bound: real)
    requires weight > 0.0
    ensures sum <= bound * weight <==> sum / weight <= bound
  {
    var q := sum / weight;
    assert q * weight == sum;
    if q > bound {
      ProductBelow(q, bound, weight);
    } else if q < bound {
      ProductBelow(bound, q, weight);
    }
  }

  lemma MeanAtLeast(sum: real, weight: real, bound: real)
    requires weight > 0.0
    ensures sum >= bound * weight <==> sum / weight >= bound
  {
    var q := sum / weight;
    assert q * weight == sum;
    if q > bound {
      ProductBelow(q, bound, weight);
    } else if q < bound {
      ProductBelow(bound, q, weight);
    }
  }

  lemma {:induction false} SumBounds(xs: seq<real>, lo: real, hi: real)
    requires forall i :: 0 <= i < |xs| ==> lo <= xs[i] <= hi
    ensures lo * |xs| as real <= SumReal(xs) <= hi * |xs| as real
  {
    if xs != [] {
      SumBounds(xs[..|xs| - 1], lo, hi);
      var n := (|xs| - 1) as real;
      assert lo * (n + 1.0) == lo * n + lo && hi * (n + 1.0) == hi * n + hi;
    }
  }

  lemma CategoryInRange(round: real -> real, m: Results, total: nat, rules: seq<string>)
    requires IsRounding(round) && |CachePages(m)| <= total
    ensures 0.0 <= CategoryScore(round, m, total, rules) <= 100.0
  {
    if rules != [] {
      var xs := Scores(round, m, total, rules);
      forall i | 0 <= i < |xs| ensures 0.0 <= xs[i] <= 100.0 {
        CheckScoreBounds(round, m, total, rules[i]);
      }
      hide CheckScore;
      SumBounds(xs, 0.0, 100.0);
      MeanAtMost(SumReal(xs), |rules| as real, 100.0);
      MeanAtLeast(SumReal(xs), |rules| as real, 0.0);
      RoundBounds(round, SumReal(xs) / |rules| as real);
    }
  }

  /** The score of a check is the share of passing pages in percent, to the nearest tenth. */
  lemma CheckScoreIsRate(m: Results, total: nat, rule: string)
    requires total > 0
    ensures var n := |set page | page in CachePages(m) && !((page, rule) in m && !m[(page, rule)].passed)|;
            100.0 * n as real / total as real - 0.05 <= CheckScore(RoundTenth, m, total, rule)
              <= 100.0 * n as real / total as real + 0.05
  {
    var pages := set page | page in CachePages(m) && !((page, rule) in m && !m[(page, rule)].passed);
    assert pages == PassingPages(m, rule);
    var n := RoundTenthExactly(100.0 * |pages| as real / total as real);
  }

  /** The score of a category is the mean of its check scores, to the nearest tenth. */
  lemma CategoryScoreIsMean(m: Results, total: nat, rules: seq<string>)
    requires rules != []
    ensures var sum := SumReal(seq(|rules|, i requires 0 <= i < |rules| => CheckScore(RoundTenth, m, total, rules[i])));
            sum / |rules| as real - 0.05 <= CategoryScore(RoundTenth, m, total, rules) <= sum / |rules| as real + 0.05
  {
    hide CheckScore, RoundTenth, SumReal;
    assert Scores(RoundTenth, m, total, rules) ==
           seq(|rules|, i requires 0 <= i < |rules| => CheckScore(RoundTenth, m, total, rules[i]));
    var n := RoundTenthExactly(SumReal(Scores(RoundTenth, m, total, rules)) / |rules| as real);
  }

  /**
   However it is rounded, the score of a category lies between the smallest and the largest of its check scores; so
   a category whose checks all score the same scores that.
   */
  lemma CategoryBetweenChecks(round: real -> real, m: Results, total: nat, rules: seq<string>, lo: int, hi: int)
    requires IsRounding(round) && rules != []
    requires forall rule :: rule in rules ==> Tenth(lo) <= CheckScore(round, m, total, rule) <= Tenth(hi)
    ensures Tenth(lo) <= CategoryScore(round, m, total, rules) <= Tenth(hi)
  {
    var xs := Scores(round, m, total, rules);
    hide CheckScore;
    assert round(Tenth(lo)) == Tenth(lo) && round(Tenth(hi)) == Tenth(hi);
    hide Tenth;
    forall i | 0 <= i < |xs| ensures Tenth(lo) <= xs[i] <= Tenth(hi) {
      assert rules[i] in rules;
    }
    SumBounds(xs, Tenth(lo), Tenth(hi));
    MeanAtLeast(SumReal(xs), |rules| as real, Tenth(lo));
    MeanAtMost(SumReal(xs), |rules| as real, Tenth(hi));
  }

  /** At most one canonical page in 2000 misses the check. */
  predicate NearlyAllPass(m: Results, total: nat, rule: string) {
    2000 * (total - |PassingPages(m, rule)|) <= total
  }

  /** The number of checks of a category that pass. */
  lemma {:induction false} CountPassedExactly(m: Results, total: nat, rules: seq<string>)
    requires total > 0
    ensures CountPassed(Scores(RoundTenth, m, total, rules)) == |PassedAt(m, total, rules)|
  {
    if rules != [] {
      var front, n := rules[..|rules| - 1], |rules| - 1;
      PassedExactly(m, total, rules[n]);
      assert NearlyAllPass(m, total, rules[n]) <==> CheckScore(RoundTenth, m, total, rules[n]) >= PASS_THRESHOLD;
      hide NearlyAllPass, CheckScore, RoundTenth, PassingPages;
      CountPassedExactly(m, total, front);
      assert Scores(RoundTenth, m, total, rules)[..n] == Scores(RoundTenth, m, total, front);
      assert rules == front + [rules[n]];
      PassedAtGrows(m, total, front, rules[n]);
      hide PassedAt;
    }
  }

  /** The positions of the checks that at most one page in 2000 misses. */
  function PassedAt(m: Results, total: nat, rules: seq<string>): set<int> {
    set i | 0 <= i < |rules| && NearlyAllPass(m, total, rules[i])
  }

  lemma PassedAtGrows(m: Results, total: nat, front: seq<string>, last: string)
    ensures |PassedAt(m, total, front + [last])| == |PassedAt(m, total, front)| + if NearlyAllPass(m, total, last) then 1 else 0
  {
    hide NearlyAllPass;
    var all, earlier, n := front + [last], PassedAt(m, total, front), |front|;
    assert PassedAt(m, total, all) == earlier + if NearlyAllPass(m, total, last) then {n} else {} by {
      assert forall i :: 0 <= i < n ==> all[i] == front[i];
      assert all[n] == last;
    }
    assert n !in earlier;
  }

  /** A rule belongs to a category exactly when a row of that category has a verdict for it, rules having one category. */
  lemma RulesFromRows(canon: map<string, string>, rows: seq<Row>, category: string, rule: string)
    requires OneCategoryPerRule(rows)
    ensures rule in RulesOf(Merge(canon, rows), category) <==>
            exists r :: r in rows && !r.isError && r.rule == rule && r.category == category
  {
    var m := Merge(canon, rows);
    if rule in RulesOf(m, category) {
      var k :| k in m && m[k].category == category && k.1 == rule;
      MergeIsConjunction(canon, rows, k);
      var r :| r in rows && Maps(canon, r, k) && r.category == m[k].category;
    }
    if exists r :: r in rows && !r.isError && r.rule == rule && r.category == category {
      var r :| r in rows && !r.isError && r.rule == rule && r.category == category;
      var k := (PageKey(canon, r.page), rule);
      MergeIsConjunction(canon, rows, k);
      assert Maps(canon, r, k);
      var q :| q in rows && Maps(canon, q, k) && q.category == m[k].category;
      assert k in m && m[k].category == category;
    }
  }

  /** With every row's page in a canonical group, check and category scores lie in [0, 100]. */
  lemma ScoresInRange(round: real -> real, canon: map<string, string>, rows: seq<Row>, rules: seq<string>, rule: string)
    requires IsRounding(round) && AllGrouped(canon, rows)
    ensures 0.0 <= CheckScore(round, Merge(canon, rows), |canon.Values|, rule) <= 100.0
    ensures 0.0 <= CategoryScore(round, Merge(canon, rows), |canon.Values|, rules) <= 100.0
  {
    CachePagesGrouped(canon, rows);
    CheckScoreBounds(round, Merge(canon, rows), |canon.Values|, rule);
    CategoryInRange(round, Merge(canon, rows), |canon.Values|, rules);
  }

  lemma OnlyHostedPagesAreGrouped(p1: CrawlPage, p2: CrawlPage)
    requires p1.host != "" && p2.host == ""
    ensures CanonicalOf([p1, p2]) == map[p1.id := CanonicalKey(p1.host, p1.path)]
    ensures CanonicalOf([p1, p2]).Values == {CanonicalKey(p1.host, p1.path)}
  {
    assert [p1, p2][..1] == [p1] && [p1][..0] == [];
    assert CanonicalOf([p1]) == CanonicalOf([])[p1.id := CanonicalKey(p1.host, p1.path)];
    assert CanonicalOf([p1, p2])[p1.id] == CanonicalKey(p1.host, p1.path);
  }

  /** A page without a host escapes the groups: one group, two pages with verdicts, a score of 200. */
  lemma FallbackKeyOverflows(p1: CrawlPage, p2: CrawlPage, rule: string, category: string)
    requires p1.host != "" && p2.host == "" && p2.id != p1.id && p2.id != CanonicalKey(p1.host, p1.path)
    ensures var canon := CanonicalOf([p1, p2]);
            var rows := [Row(p1.id, rule, category, false, true), Row(p2.id, rule, category, false, true)];
            CheckScore(RoundTenth, Merge(canon, rows), |canon.Values|, rule) == 200.0
  {
    var canon, key := CanonicalOf([p1, p2]), CanonicalKey(p1.host, p1.path);
    OnlyHostedPagesAreGrouped(p1, p2);
    hide CanonicalOf, CanonicalKey;
    var a, b := Row(p1.id, rule, category, false, true), Row(p2.id, rule, category, false, true);
    MergeOfTwo(canon, a, b);
    var m := Merge(canon, [a, b]);
    hide Merge;
    assert m == map[(key, rule) := Kept(category, true), (p2.id, rule) := Kept(category, true)];
    assert CachePages(m) == {key, p2.id} by {
      assert (key, rule) in m && (p2.id, rule) in m;
    }
    assert PassingPages(m, rule) == {key, p2.id};
    TwoOverOne(m, rule, |canon.Values|);
  }

  lemma TwoOverOne(m: Results, rule: string, total: nat)
    requires |PassingPages(m, rule)| == 2 && total == 1
    ensures CheckScore(RoundTenth, m, total, rule) == 200.0
  {
    hide PassingPages;
    RoundTenthRounds();
    assert RoundTenth(Tenth(2000)) == Tenth(2000) == 200.0;
  }

  // ------------------------------------------------------------- the pass threshold

  /** Half-to-even rounding reaches an even number of tenths from half a tenth below it. */
  lemma ReachesEvenTenth(x: real, n: int)
    requires n % 2 == 0
    ensures RoundTenth(x) >= Tenth(n) <==> x * 10.0 >= n as real - 0.5
  {
    var floor := (x * 10.0).Floor;
    if floor >= n {
    } else if floor <= n - 2 {
      assert RoundTenth(x) <= Tenth(n - 1);
    } else {
      assert floor == n - 1 && floor % 2 == 1;
    }
  }

  /** A check passes exactly when at most one page in 2000 misses it: not only when all pages pass. */
  lemma PassedExactly(m: Results, total: nat, rule: string)
    requires total > 0
    ensures CheckScore(RoundTenth, m, total, rule) >= PASS_THRESHOLD <==>
            2000 * (total - |PassingPages(m, rule)|) <= total
  {
    var n := |PassingPages(m, rule)|;
    hide PassingPages;
    var x := 100.0 * n as real / total as real;
    ReachesEvenTenth(x, 1000);
    MeanAtLeast(100.0 * n as real, total as real, 99.95);
    assert x >= 99.95 <==> 100.0 * n as real >= 99.95 * total as real;
    assert 100.0 * n as real >= 99.95 * total as real <==> 2000 * n >= 1999 * total;
  }

  /**
   Below 2000 canonical pages a check passes exactly when every canonical page has some verdict and
   none fails the rule; a page whose rows are all errors counts against every check.
   */
  lemma SmallSitePassesExactly(canon: map<string, string>, rows: seq<Row>, rule: string)
    requires AllGrouped(canon, rows) && 0 < |canon.Values| < 2000
    ensures var m := Merge(canon, rows);
            CheckScore(RoundTenth, m, |canon.Values|, rule) >= PASS_THRESHOLD <==>
            (forall page :: page in canon.Values ==> page in CachePages(m) && !Fails(m, page, rule))
  {
    var m, total := Merge(canon, rows), |canon.Values|;
    CachePagesGrouped(canon, rows);
    PassedExactly(m, total, rule);
    var passing := PassingPages(m, rule);
    SubsetSize(passing, canon.Values);
    assert 2000 * (total - |passing|) <= total <==> |passing| == total;
    assert passing == canon.Values <==> forall page :: page in canon.Values ==> page in passing;
  }

  // ------------------------------------------------------------- scores above 100

  /** Half-to-even rounding passes an even number of tenths only from beyond half a tenth above it. */
  lemma PassesEvenTenth(x: real, n: int)
    requires n % 2 == 0
    ensures RoundTenth(x) > Tenth(n) <==> x * 10.0 > n as real + 0.5
  {
    var floor := (x * 10.0).Floor;
    if floor > n {
    } else if floor < n {
      assert RoundTenth(x) <= Tenth(n);
    } else {
      assert floor % 2 == 0;
    }
  }

  /** The reported score of a check exceeds 100 exactly when its passing pages exceed the groups by more than one in 2000. */
  lemma OverflowExactly(m: Results, total: nat, rule: string)
    ensures CheckScore(RoundTenth, m, total, rule) > 100.0 <==>
            total > 0 && 2000 * (|PassingPages(m, rule)| - total) > total
  {
    if total > 0 {
      var n := |PassingPages(m, rule)|;
      hide PassingPages;
      var x := 100.0 * n as real / total as real;
      PassesEvenTenth(x, 1000);
      MeanAtMost(100.0 * n as real, total as real, 100.05);
      assert x > 100.05 <==> 100.0 * n as real > 100.05 * total as real;
      assert 100.0 * n as real > 100.05 * total as real <==> 2000 * n > 2001 * total;
    }
  }

  /** Some non-error row belongs to the page, and none of them fails the rule. */
  ghost predicate PassesRule(canon: map<string, string>, rows: seq<Row>, page: string, rule: string) {
    && (exists r :: r in rows && !r.isError && PageKey(canon, r.page) == page)
    && AllPass(canon, rows, (page, rule))
  }

  lemma PassingFromRows(canon: map<string, string>, rows: seq<Row>, page: string, rule: string)
    ensures page in PassingPages(Merge(canon, rows), rule) <==> PassesRule(canon, rows, page, rule)
  {
    var m := Merge(canon, rows);
    MergeIsConjunction(canon, rows, (page, rule));
    if page in CachePages(m) {
      var k :| k in m && k.0 == page;
      MergeIsConjunction(canon, rows, k);
      var r :| r in rows && Maps(canon, r, k);
    }
    if exists r :: r in rows && !r.isError && PageKey(canon, r.page) == page {
      var r :| r in rows && !r.isError && PageKey(canon, r.page) == page;
      MergeIsConjunction(canon, rows, (page, r.rule));
      assert Maps(canon, r, (page, r.rule));
      assert (page, r.rule) in m;
    }
  }

  /** Pages that pass the rule under a fallback key: they have no canonical page, and their id names no group. */
  ghost function EscapedPassing(canon: map<string, string>, rows: seq<Row>, rule: string): set<string> {
    set r | r in rows && !r.isError && r.page !in canon && r.page !in canon.Values
            && PassesRule(canon, rows, r.page, rule) :: r.page
  }

  /** Groups that do not pass the rule: some row fails it, or every row is an error. */
  ghost function GroupsNotPassing(canon: map<string, string>, rows: seq<Row>, rule: string): set<string> {
    set g | g in canon.Values && !PassesRule(canon, rows, g, rule)
  }

  lemma PassingByGroup(canon: map<string, string>, rows: seq<Row>, rule: string)
    ensures PassingPages(Merge(canon, rows), rule) ==
            (canon.Values - GroupsNotPassing(canon, rows, rule)) + EscapedPassing(canon, rows, rule)
  {
    var passing := PassingPages(Merge(canon, rows), rule);
    forall page ensures page in passing <==>
                        page in (canon.Values - GroupsNotPassing(canon, rows, rule)) + EscapedPassing(canon, rows, rule)
    {
      PassingFromRows(canon, rows, page, rule);
      if PassesRule(canon, rows, page, rule) && page !in canon.Values {
        var r :| r in rows && !r.isError && PageKey(canon, r.page) == page;
        assert r.page == page;
      }
    }
  }

  /**
   On the rows themselves: a check scores above 100 exactly when the pages passing it under a fallback
   key outnumber the groups not passing it by more than one group in 2000.
   */
  lemma OverflowByRows(canon: map<string, string>, rows: seq<Row>, rule: string)
    ensures CheckScore(RoundTenth, Merge(canon, rows), |canon.Values|, rule) > 100.0 <==>
            |canon.Values| > 0 &&
            2000 * (|EscapedPassing(canon, rows, rule)| - |GroupsNotPassing(canon, rows, rule)|) > |canon.Values|
  {
    var values, outside, missing := canon.Values, EscapedPassing(canon, rows, rule), GroupsNotPassing(canon, rows, rule);
    OverflowExactly(Merge(canon, rows), |values|, rule);
    PassingByGroup(canon, rows, rule);
    assert missing <= values && outside !! values;
    hide EscapedPassing, GroupsNotPassing, CheckScore;
    assert values == (values - missing) + missing;
    assert |values - missing| == |values| - |missing|;
    assert |(values - missing) + outside| == |values - missing| + |outside|;
  }

  // ------------------------------------------------------------- monotonicity

  /** `m'` has the same keys and categories and no better verdicts. */
  ghost predicate NoBetter(m: Results, m': Results) {
    && m'.Keys == m.Keys
    && forall k :: k in m ==> m'[k].category == m[k].category && (m'[k].passed ==> m[k].passed)
  }

  lemma {:induction false} SumMonotone(xs: seq<real>, ys: seq<real>)
    requires |xs| == |ys| && forall i :: 0 <= i < |xs| ==> ys[i] <= xs[i]
    ensures SumReal(ys) <= SumReal(xs)
    ensures CountPassed(ys) <= CountPassed(xs)
  {
    if xs != [] {
      SumMonotone(xs[..|xs| - 1], ys[..|ys| - 1]);
    }
  }

  lemma CheckScoreMonotone(round: real -> real, m: Results, m': Results, total: nat, rule: string)
    requires IsRounding(round) && NoBetter(m, m')
    ensures CheckScore(round, m', total, rule) <= CheckScore(round, m, total, rule)
  {
    assert CachePages(m') == CachePages(m);
    assert PassingPages(m', rule) <= PassingPages(m, rule);
    SubsetSize(PassingPages(m', rule), PassingPages(m, rule));
    if total > 0 {
      var a, b := 100.0 * |PassingPages(m', rule)| as real, 100.0 * |PassingPages(m, rule)| as real;
      DivideMonotone(a, b, total as real);
    }
  }

  lemma DivideMonotone(a: real, b: real, d: real)
    requires a <= b && d > 0.0
    ensures a / d <= b / d
  {
    MeanAtMost(a, d, b / d);
  }

  /** Failing a verdict changes the kept results only for the worse. */
  lemma FailedRowIsNoBetter(canon: map<string, string>, rows: seq<Row>, i: nat)
    requires i < |rows| && OneCategoryPerRule(rows)
    ensures NoBetter(Merge(canon, rows), Merge(canon, rows[i := rows[i].(passed := false)]))
  {
    var rows' := rows[i := rows[i].(passed := false)];
    var m, m' := Merge(canon, rows), Merge(canon, rows');
    forall k ensures k in m' <==> k in m
             ensures k in m ==> m'[k].category == m[k].category && (m'[k].passed ==> m[k].passed)
    {
      MergeIsConjunction(canon, rows, k);
      MergeIsConjunction(canon, rows', k);
      RowsCorrespond(canon, rows, i, k);
      if k in m {
        var r :| r in rows && Maps(canon, r, k) && r.category == m[k].category;
        var r' :| r' in rows' && Maps(canon, r', k) && r'.category == m'[k].category;
        assert exists q :: q in rows && !q.isError && q.rule == k.1 && q.category == r'.category by {
          var j :| 0 <= j < |rows'| && rows'[j] == r';
          assert rows[j].category == r'.category && rows[j].rule == r'.rule && rows[j].isError == r'.isError;
        }
      }
    }
  }

  lemma RowsCorrespond(canon: map<string, string>, rows: seq<Row>, i: nat, k: (string, string))
    requires i < |rows|
    ensures var rows' := rows[i := rows[i].(passed := false)];
            (AnyRow(canon, rows', k) <==> AnyRow(canon, rows, k)) && (AllPass(canon, rows', k) ==> AllPass(canon, rows, k))
  {
    var rows' := rows[i := rows[i].(passed := false)];
    forall r | r in rows && Maps(canon, r, k)
      ensures AnyRow(canon, rows', k) && (AllPass(canon, rows', k) ==> r.passed)
    {
      var j :| 0 <= j < |rows| && rows[j] == r;
      assert rows'[j] in rows' && Maps(canon, rows'[j], k);
    }
    forall r | r in rows' && Maps(canon, r, k) ensures AnyRow(canon, rows, k) {
      var j :| 0 <= j < |rows'| && rows'[j] == r;
      assert rows[j] in rows && Maps(canon, rows[j], k);
    }
  }

  /** Turning one verdict from pass to fail raises no category score and no count of passed checks. */
  lemma FailingNeverHelps(round: real -> real, canon: map<string, string>, rows: seq<Row>, i: nat, total: nat,
                          category: string, rules: seq<string>)
    requires IsRounding(round) && i < |rows| && OneCategoryPerRule(rows)
    ensures var m, m' := Merge(canon, rows), Merge(canon, rows[i := rows[i].(passed := false)]);
            && RulesOf(m', category) == RulesOf(m, category)
            && CategoryScore(round, m', total, rules) <= CategoryScore(round, m, total, rules)
            && CountPassed(Scores(round, m', total, rules)) <= CountPassed(Scores(round, m, total, rules))
  {
    var m, m' := Merge(canon, rows), Merge(canon, rows[i := rows[i].(passed := false)]);
    FailedRowIsNoBetter(canon, rows, i);
    var xs, ys := Scores(round, m, total, rules), Scores(round, m', total, rules);
    forall j | 0 <= j < |rules| ensures ys[j] <= xs[j] {
      CheckScoreMonotone(round, m, m', total, rules[j]);
    }
    SumMonotone(xs, ys);
    if rules != [] {
      DivideMonotone(SumReal(ys), SumReal(xs), |rules| as real);
    }
  }

  // ------------------------------------------------------------- order of the rule set

  lemma {:induction false} SumOfSplit(xs: seq<real>, ys: seq<real>)
    ensures SumReal(xs + ys) == SumReal(xs) + SumReal(ys)
    ensures CountPassed(xs + ys) == CountPassed(xs) + CountPassed(ys)
  {
    if ys == [] {
      assert xs + ys == xs;
    } else {
      assert (xs + ys)[..|xs + ys| - 1] == xs + ys[..|ys| - 1];
      SumOfSplit(xs, ys[..|ys| - 1]);
    }
  }

  ghost predicate Enumerates(rules: seq<string>, s: set<string>) {
    && (forall i, j :: 0 <= i < j < |rules| ==> rules[i] != rules[j])
    && forall r :: r in rules <==> r in s
  }

  /** Taking one rule out of the middle takes out just its own score. */
  lemma TakeOut(round: real -> real, m: Results, total: nat, front: seq<string>, r: string, back: seq<string>)
    ensures SumReal(Scores(round, m, total, front + [r] + back)) ==
            SumReal(Scores(round, m, total, front + back)) + CheckScore(round, m, total, r)
    ensures CountPassed(Scores(round, m, total, front + [r] + back)) ==
            CountPassed(Scores(round, m, total, front + back)) + if CheckScore(round, m, total, r) >= PASS_THRESHOLD then 1 else 0
  {
    var f, x, g := Scores(round, m, total, front), CheckScore(round, m, total, r), Scores(round, m, total, back);
    hide CheckScore;
    assert Scores(round, m, total, front + [r] + back) == f + [x] + g;
    assert Scores(round, m, total, front + back) == f + g;
    SumOfSplit(f + [x], g);
    SumOfSplit(f, [x]);
    SumOfSplit(f, g);
    assert [x][..0] == [];
  }

  /** The set of a category's rules may be visited in any order. */
  lemma {:induction false} OrderOfRulesIrrelevant(round: real -> real, m: Results, total: nat, s: set<string>,
                                                  a: seq<string>, b: seq<string>)
    requires Enumerates(a, s) && Enumerates(b, s)
    ensures |a| == |b|
    ensures SumReal(Scores(round, m, total, a)) == SumReal(Scores(round, m, total, b))
    ensures CountPassed(Scores(round, m, total, a)) == CountPassed(Scores(round, m, total, b))
    ensures CategoryScore(round, m, total, a) == CategoryScore(round, m, total, b)
    decreases |a|
  {
    hide Scores, CheckScore;
    if a == [] {
      if b != [] {
        FirstIsMember(b, s);
      }
    } else {
      var r := a[0];
      assert r in b;
      var j :| 0 <= j < |b| && b[j] == r;
      var front, back := b[..j], b[j + 1..];
      assert b == front + [r] + back;
      RemoveFirst(a, s);
      RemoveAt(b, j, s);
      OrderOfRulesIrrelevant(round, m, total, s - {r}, a[1..], front + back);
      TakeOut(round, m, total, [], r, a[1..]);
      TakeOut(round, m, total, front, r, back);
      assert [] + [r] + a[1..] == a && [] + a[1..] == a[1..];
    }
  }

  lemma FirstIsMember(b: seq<string>, s: set<string>)
    requires b != [] && Enumerates(b, s)
    ensures exists r :: r in s
  {
    assert b[0] in s;
  }

  lemma RemoveFirst(a: seq<string>, s: set<string>)
    requires a != [] && Enumerates(a, s)
    ensures Enumerates(a[1..], s - {a[0]})
  {
    forall r ensures r in a[1..] <==> r in s - {a[0]} {
      if r in s - {a[0]} {
        var i :| 0 <= i < |a| && a[i] == r;
        assert a[1..][i - 1] == r;
      }
    }
  }

  lemma RemoveAt(b: seq<string>, j: nat, s: set<string>)
    requires j < |b| && Enumerates(b, s)
    ensures Enumerates(b[..j] + b[j + 1..], s - {b[j]})
  {
    var c := b[..j] + b[j + 1..];
    forall r ensures r in c <==> r in s - {b[j]} {
      if r in s - {b[j]} {
        var i :| 0 <= i < |b| && b[i] == r;
        assert c[if i < j then i else i - 1] == r;
      }
      if r in c {
        var i :| 0 <= i < |c| && c[i] == r;
        assert b[if i < j then i else i + 1] == r;
      }
    }
  }

  /** Permuting (or repeating) the rows changes no category score, whatever order the rules are visited in. */
  lemma CategoryScoreIgnoresOrder(round: real -> real, canon: map<string, string>, rows: seq<Row>, rows': seq<Row>, total: nat,
                                  category: string, a: seq<string>, b: seq<string>)
    requires SameRows(rows, rows') && forall k :: OneDecidingCategory(canon, rows, k)
    requires Enumerates(a, RulesOf(Merge(canon, rows), category)) && Enumerates(b, RulesOf(Merge(canon, rows'), category))
    ensures CategoryScore(round, Merge(canon, rows), total, a) == CategoryScore(round, Merge(canon, rows'), total, b)
    ensures CountPassed(Scores(round, Merge(canon, rows), total, a)) == CountPassed(Scores(round, Merge(canon, rows'), total, b))
  {
    MergeIgnoresOrder(canon, rows, rows');
    OrderOfRulesIrrelevant(round, Merge(canon, rows), total, RulesOf(Merge(canon, rows), category), a, b);
  }
}
