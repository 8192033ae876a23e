/**
 `build_report_response`: failed checks are grouped into issues, the issues of a category are sorted,
 and one counter numbers them across all categories in display order.
 Values found on a page are their serialised form; severities are lower case.
 */
module ReportAssembler {
  import opened Basics

  datatype Check = Check(
    checkId: string,
    category: string,
    applicable: bool,
    passed: bool,
    severity: string,
    impact: real,
    found: string,
    expected: string)

  datatype Tier = High | Medium | Low

  datatype Issue = Issue(
    id: nat,
    checkId: string,
    severity: string,
    priority: Tier,
    impact: Tier,
    affected: nat,
    occurrences: seq<(string, string)>)

  datatype Counts = Counts(critical: nat, warning: nat, info: nat)

  /** `counts` is None when the category does not apply. */
  datatype Category = Category(id: string, counts: Option<Counts>, issues: seq<Issue>)

  datatype Overall = Overall(run: nat, applicable: nat, excluded: int, critical: nat, warnings: nat, passed: nat)

  // ------------------------------------------------------------- configuration

  const OVERALL := "overall_summary"

  /** The configured categories in order, without the reserved header. */
  const CONFIGURED: seq<string> := [
    "technical_seo", "on_page_seo", "content", "off_page_seo", "local_seo", "geo_ai_readiness", "headers",
    "images", "social", "performance", "security", "accessibility", "mobile"]

  const INTERNAL_TO_RESPONSE: map<string, string> := map[
    "on_page" := "on_page_seo", "technical" := "technical_seo", "content" := "content",
    "links" := "off_page_seo", "images" := "images", "schema" := "technical_seo", "social" := "social",
    "security" := "security", "accessibility" := "accessibility", "performance" := "performance"]

  const SITE_APPLICABILITY: map<string, seq<string>> := map[
    "local_seo" := ["local_business"],
    "geo_ai_readiness" := ["blog", "news", "local_business", "portfolio", "ecommerce"]]

  function Resolve(category: string): string {
    if category in INTERNAL_TO_RESPONSE then INTERNAL_TO_RESPONSE[category] else category
  }

  predicate Relevant(id: string, site: string) {
    id in SITE_APPLICABILITY ==> site in SITE_APPLICABILITY[id]
  }

  function Priority(severity: string): Tier {
    if severity in {"critical", "error"} then High
    else if severity in {"info", "passed"} then Low
    else Medium
  }

  function IssueSeverity(severity: string): string {
    if severity in {"critical", "info"} then severity else "warning"
  }

  function ImpactTier(impact: real): Tier {
    var size := if impact < 0.0 then -impact else impact;
    if size >= 10.0 then High else if size >= 4.0 then Medium else Low
  }

  // ------------------------------------------------------------- grouping

  datatype Group = Group(checkId: string, members: seq<Check>)

  function IndexOf(gs: seq<Group>, checkId: string): (i: int)
    ensures -1 <= i < |gs|
    ensures i >= 0 ==> gs[i].checkId == checkId
    ensures i < 0 ==> forall j :: 0 <= j < |gs| ==> gs[j].checkId != checkId
  {
    if gs == [] then -1
    else if gs[|gs| - 1].checkId == checkId then |gs| - 1
    else IndexOf(gs[..|gs| - 1], checkId)
  }

  /** `grouped.setdefault(check_id, []).append(check)`. */
  function AddTo(gs: seq<Group>, c: Check): seq<Group> {
    var i := IndexOf(gs, c.checkId);
    if i < 0 then gs + [Group(c.checkId, [c])]
    else gs[i := gs[i].(members := gs[i].members + [c])]
  }

  function Groups(failed: seq<Check>): seq<Group> {
    if failed == [] then [] else AddTo(Groups(failed[..|failed| - 1]), failed[|failed| - 1])
  }

  /** The checks with one id, in order. */
  function Select(cs: seq<Check>, checkId: string): seq<Check> {
    if cs == [] then []
    else Select(cs[..|cs| - 1], checkId) + if cs[|cs| - 1].checkId == checkId then [cs[|cs| - 1]] else []
  }

  ghost predicate DistinctIds(gs: seq<Group>) {
    forall i, j :: 0 <= i < j < |gs| ==> gs[i].checkId != gs[j].checkId
  }

  ghost predicate HasGroup(gs: seq<Group>, checkId: string) {
    exists i :: 0 <= i < |gs| && gs[i].checkId == checkId
  }

  /** The groups have distinct ids, each holds exactly the checks of its id, and no check is left out. */
  ghost predicate Partitions(gs: seq<Group>, cs: seq<Check>) {
    && DistinctIds(gs)
    && (forall i :: 0 <= i < |gs| ==> gs[i].members == Select(cs, gs[i].checkId) != [])
    && forall c :: c in cs ==> HasGroup(gs, c.checkId)
  }

  lemma {:induction false} NoMembers(cs: seq<Check>, checkId: string)
    requires forall c :: c in cs ==> c.checkId != checkId
    ensures Select(cs, checkId) == []
  {
    if cs != [] {
      assert cs[|cs| - 1] in cs;
      NoMembers(cs[..|cs| - 1], checkId);
    }
  }

  lemma GroupIds(gs: seq<Group>, c: Check, id: string)
    ensures HasGroup(AddTo(gs, c), id) <==> HasGroup(gs, id) || id == c.checkId
  {
    var after, i := AddTo(gs, c), IndexOf(gs, c.checkId);
    assert after[if i < 0 then |gs| else i].checkId == c.checkId;
    assert forall j :: 0 <= j < |gs| ==> after[j].checkId == gs[j].checkId;
  }

  lemma SelectGrows(cs: seq<Check>, c: Check, id: string)
    ensures Select(cs + [c], id) == Select(cs, id) + if c.checkId == id then [c] else []
  {
    assert (cs + [c])[..|cs|] == cs;
  }

  lemma AddToPartitions(gs: seq<Group>, cs: seq<Check>, c: Check)
    requires Partitions(gs, cs)
    ensures Partitions(AddTo(gs, c), cs + [c])
  {
    var after, i := AddTo(gs, c), IndexOf(gs, c.checkId);
    forall d | d in cs + [c] ensures HasGroup(after, d.checkId) {
      GroupIds(gs, c, d.checkId);
    }
    forall j | 0 <= j < |after| ensures after[j].members == Select(cs + [c], after[j].checkId) != [] {
      SelectGrows(cs, c, after[j].checkId);
      if j == |gs| {
        NoMembers(cs, c.checkId);
      }
    }
  }

  lemma GroupsGrow(before: seq<Check>, c: Check)
    ensures Groups(before + [c]) == AddTo(Groups(before), c)
  {
    assert (before + [c])[..|before|] == before;
  }

  lemma {:induction false} GroupsPartition(failed: seq<Check>)
    ensures Partitions(Groups(failed), failed)
  {
    if failed != [] {
      hide Groups, Partitions, AddTo;
      var before, c := failed[..|failed| - 1], failed[|failed| - 1];
      assert failed == before + [c];
      GroupsPartition(before);
      GroupsGrow(before, c);
      AddToPartitions(Groups(before), before, c);
    }
  }

  /** The distinct (found, expected) pairs in order of first appearance. */
  function Occurrences(members: seq<Check>): seq<(string, string)> {
    if members == [] then []
    else
      var earlier, c := Occurrences(members[..|members| - 1]), members[|members| - 1];
      if (c.found, c.expected) in earlier then earlier else earlier + [(c.found, c.expected)]
  }

  lemma {:induction false} OccurrencesAreDistinct(members: seq<Check>)
    ensures forall i, j :: 0 <= i < j < |Occurrences(members)| ==> Occurrences(members)[i] != Occurrences(members)[j]
    ensures forall o :: o in Occurrences(members) <==> exists c :: c in members && (c.found, c.expected) == o
    ensures members != [] ==> Occurrences(members) != [] && Occurrences(members)[0] == (members[0].found, members[0].expected)
  {
    if members != [] {
      var before, last := members[..|members| - 1], members[|members| - 1];
      OccurrencesAreDistinct(before);
      assert members == before + [last];
      assert last in members;
      assert forall c :: c in members <==> c in before || c == last;
    }
  }

  function ToIssue(g: Group): Issue
    requires g.members != []
  {
    var head := g.members[0];
    Issue(0, g.checkId, IssueSeverity(head.severity), Priority(head.severity), ImpactTier(head.impact), |g.members|,
          Occurrences(g.members))
  }

  // ------------------------------------------------------------- sorting

  predicate StringLe(a: string, b: string) {
    a == "" || (b != "" && (a[0] < b[0] || (a[0] == b[0] && StringLe(a[1..], b[1..]))))
  }

  lemma {:induction false} StringLeTotal(a: string, b: string)
    ensures StringLe(a, b) || StringLe(b, a)
    ensures StringLe(a, b) && StringLe(b, a) ==> a == b
  {
    if a != "" && b != "" {
      StringLeTotal(a[1..], b[1..]);
      assert a == [a[0]] + a[1..] && b == [b[0]] + b[1..];
    }
  }

  lemma {:induction false} StringLeTransitive(a: string, b: string, c: string)
    requires StringLe(a, b) && StringLe(b, c)
    ensures StringLe(a, c)
  {
    if a != "" && a[0] == b[0] && b[0] == c[0] {
      StringLeTransitive(a[1..], b[1..], c[1..]);
    }
  }

  function Rank(t: Tier): nat {
    match t case High => 0 case Medium => 1 case Low => 2
  }

  /** The sort key: priority, then impact, then check id. */
  predicate KeyLe(a: Issue, b: Issue) {
    || Rank(a.priority) < Rank(b.priority)
    || (a.priority == b.priority && Rank(a.impact) < Rank(b.impact))
    || (a.priority == b.priority && a.impact == b.impact && StringLe(a.checkId, b.checkId))
  }

  lemma KeyLeTotal(a: Issue, b: Issue)
    ensures KeyLe(a, b) || KeyLe(b, a)
  {
    StringLeTotal(a.checkId, b.checkId);
  }

  lemma KeyLeTransitive(a: Issue, b: Issue, c: Issue)
    requires KeyLe(a, b) && KeyLe(b, c)
    ensures KeyLe(a, c)
  {
    if StringLe(a.checkId, b.checkId) && StringLe(b.checkId, c.checkId) {
      StringLeTransitive(a.checkId, b.checkId, c.checkId);
    }
  }

  ghost predicate Sorted(xs: seq<Issue>) {
    forall i, j :: 0 <= i < j < |xs| ==> KeyLe(xs[i], xs[j])
  }

  function Insert(xs: seq<Issue>, x: Issue): seq<Issue> {
    if xs == [] || KeyLe(xs[|xs| - 1], x) then xs + [x]
    else Insert(xs[..|xs| - 1], x) + [xs[|xs| - 1]]
  }

  /** A stable sort by the key. */
  function Sort(xs: seq<Issue>): seq<Issue> {
    if xs == [] then [] else Insert(Sort(xs[..|xs| - 1]), xs[|xs| - 1])
  }

  lemma {:induction false} InsertKeepsAll(xs: seq<Issue>, x: Issue)
    ensures multiset(Insert(xs, x)) == multiset(xs) + multiset{x}
  {
    if !(xs == [] || KeyLe(xs[|xs| - 1], x)) {
      InsertKeepsAll(xs[..|xs| - 1], x);
      assert xs == xs[..|xs| - 1] + [xs[|xs| - 1]];
    }
  }

  lemma {:induction false} InsertSorted(xs: seq<Issue>, x: Issue)
    requires Sorted(xs)
    ensures Sorted(Insert(xs, x))
  {
    if xs != [] {
      var front, last := xs[..|xs| - 1], xs[|xs| - 1];
      if KeyLe(last, x) {
        forall i | 0 <= i < |xs| ensures KeyLe(xs[i], x) {
          if i < |xs| - 1 {
            KeyLeTransitive(xs[i], last, x);
          }
        }
      } else {
        InsertSorted(front, x);
        InsertKeepsAll(front, x);
        KeyLeTotal(last, x);
        forall y | y in Insert(front, x) ensures KeyLe(y, last) {
          assert y in multiset(front) + multiset{x};
        }
      }
    }
  }

  lemma {:induction false} SortSorts(xs: seq<Issue>)
    ensures Sorted(Sort(xs)) && multiset(Sort(xs)) == multiset(xs)
  {
    if xs != [] {
      SortSorts(xs[..|xs| - 1]);
      InsertSorted(Sort(xs[..|xs| - 1]), xs[|xs| - 1]);
      InsertKeepsAll(Sort(xs[..|xs| - 1]), xs[|xs| - 1]);
      assert xs == xs[..|xs| - 1] + [xs[|xs| - 1]];
    }
  }

  // ------------------------------------------------------------- one category

  function Failing(checks: seq<Check>, id: string): seq<Check> {
    if checks == [] then []
    else
      var c := checks[|checks| - 1];
      Failing(checks[..|checks| - 1], id) + if Resolve(c.category) == id && c.applicable && !c.passed then [c] else []
  }

  predicate AnyApplicable(checks: seq<Check>, id: string) {
    exists c :: c in checks && Resolve(c.category) == id && c.applicable
  }

  function Drafts(failed: seq<Check>): seq<Issue> {
    GroupsPartition(failed);
    var gs := Groups(failed);
    seq(|gs|, i requires 0 <= i < |gs| => ToIssue(gs[i]))
  }

  function Number(xs: seq<Issue>, next: nat): seq<Issue> {
    seq(|xs|, i requires 0 <= i < |xs| => xs[i].(id := next + i))
  }

  function Issues(failed: seq<Check>, next: nat): seq<Issue> {
    Number(Sort(Drafts(failed)), next)
  }

  function CountSeverity(issues: seq<Issue>, severity: string): nat {
    if issues == [] then 0
    else CountSeverity(issues[..|issues| - 1], severity) + if issues[|issues| - 1].severity == severity then 1 else 0
  }

  function CountsOf(issues: seq<Issue>): Counts {
    Counts(CountSeverity(issues, "critical"), CountSeverity(issues, "warning"), CountSeverity(issues, "info"))
  }

  function CategoryOf(checks: seq<Check>, id: string, site: string, next: nat): Category {
    if !Relevant(id, site) || !AnyApplicable(checks, id) then Category(id, None, [])
    else
      var issues := Issues(Failing(checks, id), next);
      Category(id, Some(CountsOf(issues)), issues)
  }

  /** The categories in order, the counter running on from each to the next. */
  function Categories(checks: seq<Check>, ids: seq<string>, site: string, next: nat): seq<Category> {
    if ids == [] then []
    else
      var c := CategoryOf(checks, ids[0], site, next);
      [c] + Categories(checks, ids[1..], site, next + |c.issues|)
  }

  function InsertId(ids: seq<string>, id: string): seq<string> {
    if ids == [] then [id]
    else if ids[0] == id then ids
    else if StringLe(id, ids[0]) then [id] + ids
    else [ids[0]] + InsertId(ids[1..], id)
  }

  /** The unconfigured categories that occur, sorted. */
  function Extras(checks: seq<Check>): seq<string> {
    if checks == [] then []
    else
      var earlier, id := Extras(checks[..|checks| - 1]), Resolve(checks[|checks| - 1].category);
      if id in CONFIGURED || id == OVERALL then earlier else InsertId(earlier, id)
  }

  function Ids(checks: seq<Check>): seq<string> { CONFIGURED + Extras(checks) }

  function Report(checks: seq<Check>, site: string): seq<Category> {
    Categories(checks, Ids(checks), site, 1)
  }

  // ------------------------------------------------------------- numbering and order

  function AllIssues(cats: seq<Category>): seq<Issue> {
    if cats == [] then [] else cats[0].issues + AllIssues(cats[1..])
  }

  /** Consecutive ids from `next`. */
  ghost predicate RunsOn(issues: seq<Issue>, next: nat) {
    forall i :: 0 <= i < |issues| ==> issues[i].id == next + i
  }

  lemma CategoryRunsOn(checks: seq<Check>, id: string, site: string, next: nat)
    ensures RunsOn(CategoryOf(checks, id, site, next).issues, next)
  {
  }

  lemma {:induction false} IdsRunOn(checks: seq<Check>, ids: seq<string>, site: string, next: nat)
    ensures RunsOn(AllIssues(Categories(checks, ids, site, next)), next)
  {
    hide CategoryOf;
    if ids != [] {
      var c := CategoryOf(checks, ids[0], site, next);
      var rest := Categories(checks, ids[1..], site, next + |c.issues|);
      CategoryRunsOn(checks, ids[0], site, next);
      IdsRunOn(checks, ids[1..], site, next + |c.issues|);
      assert ([c] + rest)[1..] == rest;
      assert AllIssues([c] + rest) == c.issues + AllIssues(rest);
    }
  }

  /** Issue ids are exactly 1..n in display order across all categories. */
  lemma IdsAreSequential(checks: seq<Check>, site: string)
    ensures RunsOn(AllIssues(Report(checks, site)), 1)
  {
    IdsRunOn(checks, Ids(checks), site, 1);
  }

  lemma {:induction false} CategoryAt(checks: seq<Check>, ids: seq<string>, site: string, next: nat, k: nat)
    returns (start: nat)
    requires k < |ids|
    ensures |Categories(checks, ids, site, next)| == |ids|
    ensures Categories(checks, ids, site, next)[k] == CategoryOf(checks, ids[k], site, start)
  {
    hide CategoryOf;
    CategoriesLength(checks, ids, site, next);
    var c := CategoryOf(checks, ids[0], site, next);
    if k == 0 {
      start := next;
    } else {
      start := CategoryAt(checks, ids[1..], site, next + |c.issues|, k - 1);
    }
  }

  lemma {:induction false} CategoriesLength(checks: seq<Check>, ids: seq<string>, site: string, next: nat)
    ensures |Categories(checks, ids, site, next)| == |ids|
  {
    hide CategoryOf;
    if ids != [] {
      CategoriesLength(checks, ids[1..], site, next + |CategoryOf(checks, ids[0], site, next).issues|);
    }
  }

  /** Within each category the issues are sorted by priority, impact and check id. */
  lemma IssuesAreSorted(checks: seq<Check>, site: string, k: nat)
    requires k < |Ids(checks)|
    ensures |Report(checks, site)| == |Ids(checks)| && Sorted(Report(checks, site)[k].issues)
  {
    var n := CategoryAt(checks, Ids(checks), site, 1, k);
    var id := Ids(checks)[k];
    SortSorts(Drafts(Failing(checks, id)));
  }

  // ------------------------------------------------------------- conservation

  /** The issue of a check id, if it has one. */
  ghost predicate IsFor(issues: seq<Issue>, i: int, checkId: string) {
    0 <= i < |issues| && issues[i].checkId == checkId
  }

  ghost predicate OnePerId(issues: seq<Issue>) {
    forall i, j :: 0 <= i < j < |issues| ==> issues[i].checkId != issues[j].checkId
  }

  /** What an issue owes the failing checks it stands for. */
  ghost predicate Summarises(x: Issue, members: seq<Check>) {
    && members != []
    && x.affected == |members|
    && x.severity == IssueSeverity(members[0].severity) && x.priority == Priority(members[0].severity)
    && x.impact == ImpactTier(members[0].impact)
    && x.occurrences == Occurrences(members)
  }

  ghost predicate Covers(issues: seq<Issue>, failed: seq<Check>) {
    && OnePerId(issues)
    && (forall i :: 0 <= i < |issues| ==> Summarises(issues[i], Select(failed, issues[i].checkId)))
    && forall c :: c in failed ==> exists i :: IsFor(issues, i, c.checkId)
  }

  lemma DraftsCover(failed: seq<Check>)
    ensures Covers(Drafts(failed), failed)
  {
    GroupsPartition(failed);
    var gs, ds := Groups(failed), Drafts(failed);
    forall c | c in failed ensures exists i :: IsFor(ds, i, c.checkId) {
      var i :| 0 <= i < |gs| && gs[i].checkId == c.checkId;
      assert IsFor(ds, i, c.checkId);
    }
  }

  lemma SameMembers(xs: seq<Issue>, ys: seq<Issue>, x: Issue)
    requires multiset(xs) == multiset(ys) && x in xs
    ensures x in ys
  {
    assert x in multiset(xs);
  }

  lemma {:induction false} OnePerIdCounts(xs: seq<Issue>, x: Issue, y: Issue)
    requires OnePerId(xs) && x in multiset(xs) && y in multiset(xs) - multiset{x}
    ensures x.checkId != y.checkId
    decreases xs
  {
    var front, last := xs[..|xs| - 1], xs[|xs| - 1];
    assert xs == front + [last];
    assert multiset(xs) == multiset(front) + multiset{last};
    if x == last {
      assert y in front;
    } else if y == last {
      assert x in front;
    } else {
      assert y in multiset(front) - multiset{x};
      OnePerIdCounts(front, x, y);
    }
  }

  lemma PermutedOnePerId(xs: seq<Issue>, ys: seq<Issue>)
    requires multiset(xs) == multiset(ys) && OnePerId(xs)
    ensures OnePerId(ys)
  {
    forall i, j | 0 <= i < j < |ys| ensures ys[i].checkId != ys[j].checkId {
      var back := ys[i + 1..];
      assert ys == ys[..i] + [ys[i]] + back;
      assert back[j - i - 1] == ys[j];
      assert multiset(ys) == multiset(ys[..i]) + multiset{ys[i]} + multiset(back);
      assert ys[j] in multiset(back);
      OnePerIdCounts(xs, ys[i], ys[j]);
    }
  }

  lemma PermutationCovers(ds: seq<Issue>, ss: seq<Issue>, failed: seq<Check>)
    requires Covers(ds, failed) && multiset(ds) == multiset(ss)
    ensures Covers(ss, failed)
  {
    PermutedOnePerId(ds, ss);
    hide Summarises, OnePerId, Select;
    forall i | 0 <= i < |ss| ensures Summarises(ss[i], Select(failed, ss[i].checkId)) {
      SameMembers(ss, ds, ss[i]);
      var j :| 0 <= j < |ds| && ds[j] == ss[i];
    }
    forall c | c in failed ensures exists i :: IsFor(ss, i, c.checkId) {
      var i :| IsFor(ds, i, c.checkId);
      SameMembers(ds, ss, ds[i]);
      var j :| 0 <= j < |ss| && ss[j] == ds[i];
      assert IsFor(ss, j, c.checkId);
    }
  }

  lemma NumberCovers(ss: seq<Issue>, failed: seq<Check>, next: nat)
    requires Covers(ss, failed)
    ensures Covers(Number(ss, next), failed)
  {
    forall c | c in failed ensures exists i :: IsFor(Number(ss, next), i, c.checkId) {
      var i :| IsFor(ss, i, c.checkId);
      assert IsFor(Number(ss, next), i, c.checkId);
    }
  }

  lemma IssuesCover(failed: seq<Check>, next: nat)
    ensures Covers(Issues(failed, next), failed)
  {
    DraftsCover(failed);
    SortSorts(Drafts(failed));
    hide Covers, Drafts, Sort, Number;
    PermutationCovers(Drafts(failed), Sort(Drafts(failed)), failed);
    NumberCovers(Sort(Drafts(failed)), failed, next);
  }

  /**
   In every relevant category there is at most one issue per check id, it counts every failing
   applicable check of that id, and no failing check is without one; an irrelevant category is empty.
   */
  lemma EveryFailureCountedOnce(checks: seq<Check>, site: string, k: nat)
    requires k < |Ids(checks)|
    ensures |Report(checks, site)| == |Ids(checks)|
    ensures var cat := Report(checks, site)[k];
            && cat.id == Ids(checks)[k]
            && (Relevant(cat.id, site) ==> Covers(cat.issues, Failing(checks, cat.id)))
            && (!Relevant(cat.id, site) ==> cat.issues == [])
  {
    var n := CategoryAt(checks, Ids(checks), site, 1, k);
    var id := Ids(checks)[k];
    if Relevant(id, site) {
      if AnyApplicable(checks, id) {
        IssuesCover(Failing(checks, id), n);
      } else {
        NothingFails(checks, id);
      }
    }
  }

  lemma {:induction false} NothingFails(checks: seq<Check>, id: string)
    requires !AnyApplicable(checks, id)
    ensures Failing(checks, id) == []
  {
    if checks != [] {
      assert checks[|checks| - 1] in checks;
      NothingFails(checks[..|checks| - 1], id);
    }
  }

  // ------------------------------------------------------------- every category once

  lemma ConfiguredAreDistinct()
    ensures forall i, j :: 0 <= i < j < |CONFIGURED| ==> CONFIGURED[i] != CONFIGURED[j]
    ensures OVERALL !in CONFIGURED
  {
    assert forall i, j :: 0 <= i < j < |CONFIGURED| ==> |CONFIGURED[i]| != |CONFIGURED[j]| || CONFIGURED[i][0] != CONFIGURED[j][0];
    assert forall i :: 0 <= i < |CONFIGURED| ==> |CONFIGURED[i]| != |OVERALL|;
  }

  ghost predicate StrictlySorted(ids: seq<string>) {
    forall i, j :: 0 <= i < j < |ids| ==> ids[i] != ids[j] && StringLe(ids[i], ids[j])
  }

  lemma {:induction false} InsertIdSorted(ids: seq<string>, id: string)
    requires StrictlySorted(ids)
    ensures StrictlySorted(InsertId(ids, id))
    ensures forall x :: x in InsertId(ids, id) <==> x in ids || x == id
  {
    if ids == [] || ids[0] == id {
    } else if StringLe(id, ids[0]) {
      forall j | 0 <= j < |ids| ensures id != ids[j] && StringLe(id, ids[j]) {
        if j > 0 {
          StringLeTransitive(id, ids[0], ids[j]);
          StringLeTotal(id, ids[0]);
          StringLeTotal(ids[0], ids[j]);
        }
      }
    } else {
      InsertIdSorted(ids[1..], id);
      StringLeTotal(id, ids[0]);
      assert forall x :: x in ids <==> x == ids[0] || x in ids[1..];
      var tail := InsertId(ids[1..], id);
      forall j | 0 <= j < |tail| ensures ids[0] != tail[j] && StringLe(ids[0], tail[j]) {
        assert tail[j] in tail;
      }
    }
  }

  lemma {:induction false} ExtrasSorted(checks: seq<Check>)
    ensures StrictlySorted(Extras(checks))
    ensures forall id :: id in Extras(checks) <==>
              id !in CONFIGURED && id != OVERALL && exists c :: c in checks && Resolve(c.category) == id
  {
    if checks != [] {
      var before, c := checks[..|checks| - 1], checks[|checks| - 1];
      ExtrasSorted(before);
      InsertIdSorted(Extras(before), Resolve(c.category));
      assert checks == before + [c];
      assert c in checks;
      assert forall d :: d in checks <==> d in before || d == c;
    }
  }

  /** Every category that occurs is reported exactly once, except the reserved header. */
  lemma EveryCategoryOnce(checks: seq<Check>)
    ensures forall i, j :: 0 <= i < j < |Ids(checks)| ==> Ids(checks)[i] != Ids(checks)[j]
    ensures OVERALL !in Ids(checks)
    ensures forall c :: c in checks && Resolve(c.category) != OVERALL ==> Resolve(c.category) in Ids(checks)
  {
    ConfiguredAreDistinct();
    ExtrasSorted(checks);
    hide Extras;
    forall i, j | 0 <= i < j < |Ids(checks)| ensures Ids(checks)[i] != Ids(checks)[j] {
      if i < |CONFIGURED| <= j {
        assert Ids(checks)[j] in Extras(checks);
      }
    }
  }

  // ------------------------------------------------------------- totals

  function Affected(issues: seq<Issue>): nat {
    if issues == [] then 0 else issues[0].affected + Affected(issues[1..])
  }

  lemma {:induction false} AffectedOfSplit(a: seq<Issue>, b: seq<Issue>)
    ensures Affected(a + b) == Affected(a) + Affected(b)
  {
    if a == [] {
      assert a + b == b;
    } else {
      assert (a + b)[1..] == a[1..] + b;
      AffectedOfSplit(a[1..], b);
    }
  }

  lemma {:induction false} InsertAffected(xs: seq<Issue>, x: Issue)
    ensures Affected(Insert(xs, x)) == Affected(xs) + x.affected
  {
    assert Affected([x]) == x.affected;
    AffectedOfSplit(xs, [x]);
    if !(xs == [] || KeyLe(xs[|xs| - 1], x)) {
      var front, last := xs[..|xs| - 1], xs[|xs| - 1];
      InsertAffected(front, x);
      AffectedOfSplit(Insert(front, x), [last]);
      AffectedOfSplit(front, [last]);
      assert xs == front + [last];
    }
  }

  lemma {:induction false} SortAffected(xs: seq<Issue>)
    ensures Affected(Sort(xs)) == Affected(xs)
  {
    if xs != [] {
      var front, last := xs[..|xs| - 1], xs[|xs| - 1];
      SortAffected(front);
      InsertAffected(Sort(front), last);
      AffectedOfSplit(front, [last]);
      assert xs == front + [last];
    }
  }

  lemma {:induction false} NumberAffected(xs: seq<Issue>, next: nat)
    ensures Affected(Number(xs, next)) == Affected(xs)
  {
    if xs != [] {
      NumberAffected(xs[1..], next + 1);
      assert Number(xs, next)[1..] == Number(xs[1..], next + 1);
    }
  }

  function Members(gs: seq<Group>): nat {
    if gs == [] then 0 else |gs[0].members| + Members(gs[1..])
  }

  lemma {:induction false} MembersOfUpdate(gs: seq<Group>, i: nat, c: Check)
    requires i < |gs|
    ensures Members(gs[i := gs[i].(members := gs[i].members + [c])]) == Members(gs) + 1
  {
    if i > 0 {
      MembersOfUpdate(gs[1..], i - 1, c);
      assert gs[i := gs[i].(members := gs[i].members + [c])][1..] ==
             gs[1..][i - 1 := gs[1..][i - 1].(members := gs[1..][i - 1].members + [c])];
    }
  }

  lemma {:induction false} MembersOfAppend(gs: seq<Group>, g: Group)
    ensures Members(gs + [g]) == Members(gs) + |g.members|
  {
    if gs == [] {
      assert gs + [g] == [g];
    } else {
      assert (gs + [g])[1..] == gs[1..] + [g];
      MembersOfAppend(gs[1..], g);
    }
  }

  lemma {:induction false} GroupsKeepCount(failed: seq<Check>)
    ensures Members(Groups(failed)) == |failed|
  {
    if failed != [] {
      var before, c := failed[..|failed| - 1], failed[|failed| - 1];
      GroupsKeepCount(before);
      var i := IndexOf(Groups(before), c.checkId);
      if i < 0 {
        MembersOfAppend(Groups(before), Group(c.checkId, [c]));
      } else {
        MembersOfUpdate(Groups(before), i, c);
      }
    }
  }

  lemma {:induction false} DraftsAffected(gs: seq<Group>, ds: seq<Issue>)
    requires |ds| == |gs| && forall i :: 0 <= i < |gs| ==> ds[i].affected == |gs[i].members|
    ensures Affected(ds) == Members(gs)
  {
    if gs != [] {
      DraftsAffected(gs[1..], ds[1..]);
    }
  }

  lemma IssuesAffected(failed: seq<Check>, next: nat)
    ensures Affected(Issues(failed, next)) == |failed|
  {
    GroupsPartition(failed);
    GroupsKeepCount(failed);
    DraftsAffected(Groups(failed), Drafts(failed));
    SortAffected(Drafts(failed));
    NumberAffected(Sort(Drafts(failed)), next);
  }

  /** The failing applicable checks of the relevant categories among `ids`. */
  function Counted(checks: seq<Check>, ids: seq<string>, site: string): nat {
    if ids == [] then 0
    else (if Relevant(ids[0], site) then |Failing(checks, ids[0])| else 0) + Counted(checks, ids[1..], site)
  }

  lemma CategoryAffected(checks: seq<Check>, id: string, site: string, next: nat)
    ensures Affected(CategoryOf(checks, id, site, next).issues) == if Relevant(id, site) then |Failing(checks, id)| else 0
  {
    IssuesAffected(Failing(checks, id), next);
    if !AnyApplicable(checks, id) {
      NothingFails(checks, id);
    }
  }

  lemma {:induction false} CategoriesAffected(checks: seq<Check>, ids: seq<string>, site: string, next: nat)
    ensures Affected(AllIssues(Categories(checks, ids, site, next))) == Counted(checks, ids, site)
  {
    hide CategoryOf;
    if ids != [] {
      var c := CategoryOf(checks, ids[0], site, next);
      var rest := Categories(checks, ids[1..], site, next + |c.issues|);
      CategoriesAffected(checks, ids[1..], site, next + |c.issues|);
      CategoryAffected(checks, ids[0], site, next);
      assert ([c] + rest)[1..] == rest;
      AffectedOfSplit(c.issues, AllIssues(rest));
    }
  }

  /** A check that has to show up in the report. */
  predicate MustShow(c: Check, site: string) {
    var id := Resolve(c.category);
    c.applicable && !c.passed && id != OVERALL && Relevant(id, site)
  }

  function CountMustShow(checks: seq<Check>, site: string): nat {
    if checks == [] then 0
    else CountMustShow(checks[..|checks| - 1], site) + if MustShow(checks[|checks| - 1], site) then 1 else 0
  }

  lemma {:induction false} CountedGrows(before: seq<Check>, c: Check, ids: seq<string>, site: string)
    requires forall i, j :: 0 <= i < j < |ids| ==> ids[i] != ids[j]
    ensures Counted(before + [c], ids, site) == Counted(before, ids, site) +
            if c.applicable && !c.passed && Resolve(c.category) in ids && Relevant(Resolve(c.category), site) then 1 else 0
  {
    if ids != [] {
      CountedGrows(before, c, ids[1..], site);
      assert (before + [c])[..|before|] == before;
      assert ids == [ids[0]] + ids[1..];
      assert ids[0] !in ids[1..];
    }
  }

  lemma {:induction false} CountedIsMustShow(checks: seq<Check>, ids: seq<string>, site: string)
    requires forall i, j :: 0 <= i < j < |ids| ==> ids[i] != ids[j]
    requires OVERALL !in ids && forall c :: c in checks && Resolve(c.category) != OVERALL ==> Resolve(c.category) in ids
    ensures Counted(checks, ids, site) == CountMustShow(checks, site)
    decreases |checks|
  {
    if checks == [] {
      NothingCounted(ids, site);
    } else {
      var before, c := checks[..|checks| - 1], checks[|checks| - 1];
      assert checks == before + [c];
      assert c in checks;
      CountedIsMustShow(before, ids, site);
      CountedGrows(before, c, ids, site);
    }
  }

  lemma {:induction false} NothingCounted(ids: seq<string>, site: string)
    ensures Counted([], ids, site) == 0
  {
    if ids != [] {
      NothingCounted(ids[1..], site);
    }
  }

  /** The `affected_page_count`s of the whole report add up to the failing checks that must show. */
  lemma AffectedIsConserved(checks: seq<Check>, site: string)
    ensures Affected(AllIssues(Report(checks, site))) == CountMustShow(checks, site)
  {
    CategoriesAffected(checks, Ids(checks), site, 1);
    EveryCategoryOnce(checks);
    CountedIsMustShow(checks, Ids(checks), site);
  }

  // ------------------------------------------------------------- severity counts

  /** Every issue is critical, warning or info, so a category's counts add up to its issues. */
  lemma {:induction false} CountsAddUp(issues: seq<Issue>)
    requires forall i :: 0 <= i < |issues| ==> issues[i].severity in {"critical", "warning", "info"}
    ensures CountsOf(issues).critical + CountsOf(issues).warning + CountsOf(issues).info == |issues|
  {
    if issues != [] {
      CountsAddUp(issues[..|issues| - 1]);
      assert |"critical"| == 8 && |"warning"| == 7 && |"info"| == 4;
    }
  }

  lemma IssueCountsAddUp(checks: seq<Check>, site: string, k: nat)
    requires k < |Ids(checks)|
    ensures |Report(checks, site)| == |Ids(checks)|
    ensures var cat := Report(checks, site)[k];
            cat.counts.Some? ==>
              cat.counts.value.critical + cat.counts.value.warning + cat.counts.value.info == |cat.issues|
  {
    var n := CategoryAt(checks, Ids(checks), site, 1, k);
    var cat := Report(checks, site)[k];
    EveryFailureCountedOnce(checks, site, k);
    if cat.counts.Some? {
      CountsAddUp(cat.issues);
    }
  }

  function Count(checks: seq<Check>, p: Check -> bool): nat {
    if checks == [] then 0 else Count(checks[..|checks| - 1], p) + if p(checks[|checks| - 1]) then 1 else 0
  }

  function SumCounts(cats: seq<Category>, pick: Counts -> nat): nat {
    if cats == [] then 0
    else SumCounts(cats[..|cats| - 1], pick) +
         if cats[|cats| - 1].counts.Some? then pick(cats[|cats| - 1].counts.value) else 0
  }

  const IS_APPLICABLE: Check -> bool := (c: Check) => c.applicable
  const IS_PASSED: Check -> bool := (c: Check) => c.applicable && c.passed
  const CRITICAL: Counts -> nat := (n: Counts) => n.critical
  const WARNINGS: Counts -> nat := (n: Counts) => n.warning

  function OverallOf(checks: seq<Check>, cats: seq<Category>): Overall {
    Overall(|checks|, Count(checks, IS_APPLICABLE), |checks| - Count(checks, IS_APPLICABLE),
            SumCounts(cats, CRITICAL), SumCounts(cats, WARNINGS), Count(checks, IS_PASSED))
  }

  /** Passed and excluded checks and the failing applicable ones are all the checks there are. */
  lemma {:induction false} ChecksAddUp(checks: seq<Check>)
    ensures Count(checks, IS_PASSED) + Count(checks, (c: Check) => c.applicable && !c.passed) == Count(checks, IS_APPLICABLE) <= |checks|
  {
    if checks != [] {
      ChecksAddUp(checks[..|checks| - 1]);
    }
  }

  // ------------------------------------------------------------- the totals, counted directly

  /** Where the issues of a severity stand. */
  function IssuesWith(issues: seq<Issue>, severity: string): set<int> {
    set i | 0 <= i < |issues| && issues[i].severity == severity
  }

  lemma {:induction false} CountSeverityExactly(issues: seq<Issue>, severity: string)
    ensures CountSeverity(issues, severity) == |IssuesWith(issues, severity)|
  {
    if issues != [] {
      var front, n := issues[..|issues| - 1], |issues| - 1;
      CountSeverityExactly(front, severity);
      assert IssuesWith(issues, severity) == IssuesWith(front, severity) + if issues[n].severity == severity then {n} else {};
      assert n !in IssuesWith(front, severity);
    }
  }

  lemma {:induction false} CountSeveritySplit(a: seq<Issue>, b: seq<Issue>, severity: string)
    ensures CountSeverity(a + b, severity) == CountSeverity(a, severity) + CountSeverity(b, severity)
  {
    if b == [] {
      assert a + b == a;
    } else {
      assert (a + b)[..|a + b| - 1] == a + b[..|b| - 1];
      CountSeveritySplit(a, b[..|b| - 1], severity);
    }
  }

  /** A category's three counts, each by the severities of its own issues; a category that does not apply has none. */
  lemma CategoryCountsExactly(checks: seq<Check>, site: string, k: nat)
    requires k < |Ids(checks)|
    ensures |Report(checks, site)| == |Ids(checks)|
    ensures var cat := Report(checks, site)[k];
            && (cat.counts.None? <==> !Relevant(cat.id, site) || forall c :: c in checks && c.applicable ==> Resolve(c.category) != cat.id)
            && (cat.counts.None? ==> cat.issues == [])
            && (cat.counts.Some? ==>
                  && cat.counts.value.critical == |IssuesWith(cat.issues, "critical")|
                  && cat.counts.value.warning == |IssuesWith(cat.issues, "warning")|
                  && cat.counts.value.info == |IssuesWith(cat.issues, "info")|)
  {
    var n := CategoryAt(checks, Ids(checks), site, 1, k);
    var cat := Report(checks, site)[k];
    hide Issues, Report, Ids, Relevant, Resolve, IssuesWith;
    CountSeverityExactly(cat.issues, "critical");
    CountSeverityExactly(cat.issues, "warning");
    CountSeverityExactly(cat.issues, "info");
  }

  lemma {:induction false} SumCountsSplit(a: seq<Category>, b: seq<Category>, pick: Counts -> nat)
    ensures SumCounts(a + b, pick) == SumCounts(a, pick) + SumCounts(b, pick)
  {
    if b == [] {
      assert a + b == a;
    } else {
      assert (a + b)[..|a + b| - 1] == a + b[..|b| - 1];
      SumCountsSplit(a, b[..|b| - 1], pick);
    }
  }

  /** A category's counts are of its issues, and without counts it has none. */
  ghost predicate CountsOwn(cat: Category) {
    match cat.counts
    case None => cat.issues == []
    case Some(n) =>
      && n.critical == CountSeverity(cat.issues, "critical") && n.warning == CountSeverity(cat.issues, "warning")
      && n.info == CountSeverity(cat.issues, "info")
  }

  lemma {:induction false} SumsAreCounts(cats: seq<Category>)
    requires forall i :: 0 <= i < |cats| ==> CountsOwn(cats[i])
    ensures SumCounts(cats, CRITICAL) == CountSeverity(AllIssues(cats), "critical")
    ensures SumCounts(cats, WARNINGS) == CountSeverity(AllIssues(cats), "warning")
  {
    if cats != [] {
      SumsAreCounts(cats[1..]);
      assert cats == [cats[0]] + cats[1..] && [cats[0]][..0] == [];
      SumCountsSplit([cats[0]], cats[1..], CRITICAL);
      SumCountsSplit([cats[0]], cats[1..], WARNINGS);
      CountSeveritySplit(cats[0].issues, AllIssues(cats[1..]), "critical");
      CountSeveritySplit(cats[0].issues, AllIssues(cats[1..]), "warning");
    }
  }

  /** Where the checks stand that satisfy `p`. */
  ghost function ChecksWith(checks: seq<Check>, p: Check -> bool): set<int> {
    set i | 0 <= i < |checks| && p(checks[i])
  }

  lemma {:induction false} CountExactly(checks: seq<Check>, p: Check -> bool)
    ensures Count(checks, p) == |ChecksWith(checks, p)|
  {
    if checks != [] {
      var front, n := checks[..|checks| - 1], |checks| - 1;
      CountExactly(front, p);
      assert ChecksWith(checks, p) == ChecksWith(front, p) + if p(checks[n]) then {n} else {};
      assert n !in ChecksWith(front, p);
    }
  }

  /**
   The header counts what the report shows: critical issues and warnings over all its categories, the checks run,
   those that apply, those that do not, and those that apply and pass.
   */
  lemma HeaderExactly(checks: seq<Check>, site: string)
    ensures var o, issues := OverallOf(checks, Report(checks, site)), AllIssues(Report(checks, site));
            && o.critical == |IssuesWith(issues, "critical")| && o.warnings == |IssuesWith(issues, "warning")|
            && o.run == |checks|
            && o.applicable == |ChecksWith(checks, (c: Check) => c.applicable)|
            && o.excluded == |ChecksWith(checks, (c: Check) => !c.applicable)|
            && o.passed == |ChecksWith(checks, (c: Check) => c.applicable && c.passed)|
  {
    var cats := Report(checks, site);
    forall k | 0 <= k < |cats| ensures CountsOwn(cats[k]) {
      CategoriesLength(checks, Ids(checks), site, 1);
      var n := CategoryAt(checks, Ids(checks), site, 1, k);
    }
    SumsAreCounts(cats);
    CountSeverityExactly(AllIssues(cats), "critical");
    CountSeverityExactly(AllIssues(cats), "warning");
    hide Report, AllIssues, IssuesWith, CountsOwn;
    ChecksCounted(checks);
  }

  lemma ChecksCounted(checks: seq<Check>)
    ensures Count(checks, IS_APPLICABLE) == |ChecksWith(checks, (c: Check) => c.applicable)|
    ensures |checks| - Count(checks, IS_APPLICABLE) == |ChecksWith(checks, (c: Check) => !c.applicable)|
    ensures Count(checks, IS_PASSED) == |ChecksWith(checks, (c: Check) => c.applicable && c.passed)|
  {
    var excluded := (c: Check) => !c.applicable;
    CountExactly(checks, IS_APPLICABLE);
    CountExactly(checks, IS_PASSED);
    CountExactly(checks, excluded);
    CountComplement(checks, IS_APPLICABLE, excluded);
    assert ChecksWith(checks, IS_APPLICABLE) == ChecksWith(checks, (c: Check) => c.applicable);
    assert ChecksWith(checks, excluded) == ChecksWith(checks, (c: Check) => !c.applicable);
    assert ChecksWith(checks, IS_PASSED) == ChecksWith(checks, (c: Check) => c.applicable && c.passed);
  }

  lemma {:induction false} CountComplement(checks: seq<Check>, p: Check -> bool, q: Check -> bool)
    requires forall c :: p(c) != q(c)
    ensures Count(checks, p) + Count(checks, q) == |checks|
  {
    if checks != [] {
      CountComplement(checks[..|checks| - 1], p, q);
    }
  }

  // ------------------------------------------------------------- one check

  lemma {:induction false} FailingSplit(a: seq<Check>, b: seq<Check>, id: string)
    ensures Failing(a + b, id) == Failing(a, id) + Failing(b, id)
  {
    if b == [] {
      assert a + b == a;
    } else {
      assert (a + b)[..|a + b| - 1] == a + b[..|b| - 1];
      FailingSplit(a, b[..|b| - 1], id);
    }
  }

  /** The failing checks of a category are its checks that apply and do not pass, in their order. */
  lemma FailingExactly(before: seq<Check>, c: Check, after: seq<Check>, id: string)
    ensures Failing(before + [c] + after, id) ==
            Failing(before, id) + (if c.applicable && !c.passed && Resolve(c.category) == id then [c] else []) + Failing(after, id)
  {
    FailingSplit(before + [c], after, id);
    FailingSplit(before, [c], id);
    assert [c][..0] == [];
  }

  lemma {:induction false} SelectSplit(a: seq<Check>, b: seq<Check>, checkId: string)
    ensures Select(a + b, checkId) == Select(a, checkId) + Select(b, checkId)
  {
    if b == [] {
      assert a + b == a;
    } else {
      assert (a + b)[..|a + b| - 1] == a + b[..|b| - 1];
      SelectSplit(a, b[..|b| - 1], checkId);
    }
  }

  /** An issue stands for the checks of its id, in their order, so its head is the first of them. */
  lemma SelectExactly(before: seq<Check>, c: Check, after: seq<Check>, checkId: string)
    ensures Select(before + [c] + after, checkId) ==
            Select(before, checkId) + (if c.checkId == checkId then [c] else []) + Select(after, checkId)
  {
    SelectSplit(before + [c], after, checkId);
    SelectSplit(before, [c], checkId);
    assert [c][..0] == [];
  }

  /** Pairs are listed where they first appear: more checks only add pairs at the end. */
  lemma {:induction false} OccurrencesExtend(members: seq<Check>, more: seq<Check>)
    ensures Occurrences(members) <= Occurrences(members + more)
  {
    if more == [] {
      assert members + more == members;
    } else {
      assert (members + more)[..|members + more| - 1] == members + more[..|more| - 1];
      OccurrencesExtend(members, more[..|more| - 1]);
    }
  }

  /** What comes first among the issues of a category: the higher priority, then the larger impact, then the check id. */
  lemma ShownFirst(a: Issue, b: Issue)
    ensures (a.priority == High && b.priority != High) || (a.priority == Medium && b.priority == Low) ==> KeyLe(a, b) && !KeyLe(b, a)
    ensures a.priority == b.priority && ((a.impact == High && b.impact != High) || (a.impact == Medium && b.impact == Low)) ==>
              KeyLe(a, b) && !KeyLe(b, a)
    ensures a.priority == b.priority && a.impact == b.impact ==> (KeyLe(a, b) <==> StringLe(a.checkId, b.checkId))
  {
  }

  /** Ids are compared character by character: the first difference decides, and a prefix comes first. */
  lemma {:induction false} StringLeExactly(common: string, a: string, b: string)
    ensures StringLe(common, common + a)
    ensures a != "" && b != "" && a[0] < b[0] ==> StringLe(common + a, common + b) && !StringLe(common + b, common + a)
  {
    if common != "" {
      StringLeExactly(common[1..], a, b);
      assert (common + a)[1..] == common[1..] + a && (common + b)[1..] == common[1..] + b;
    } else {
      assert common + a == a && common + b == b;
    }
  }

  /** The categories are reported in their configured order, and after them the others, sorted. */
  lemma ConfiguredFirst(checks: seq<Check>, site: string)
    ensures |Report(checks, site)| >= |CONFIGURED|
    ensures forall k :: 0 <= k < |CONFIGURED| ==> Report(checks, site)[k].id == CONFIGURED[k]
    ensures forall j, k :: |CONFIGURED| <= j < k < |Report(checks, site)| ==>
              Report(checks, site)[j].id != Report(checks, site)[k].id && StringLe(Report(checks, site)[j].id, Report(checks, site)[k].id)
  {
    var ids := Ids(checks);
    ExtrasSorted(checks);
    hide Extras;
    CategoriesLength(checks, ids, site, 1);
    forall k | 0 <= k < |ids| ensures Report(checks, site)[k].id == ids[k] {
      var n := CategoryAt(checks, ids, site, 1, k);
    }
    assert forall j :: |CONFIGURED| <= j < |ids| ==> ids[j] == Extras(checks)[j - |CONFIGURED|];
    hide Report;
  }

  /**
   How an issue's two levels go together: critical ones are of high priority and infos of low; a warning is of
   medium priority unless it stands for an evaluation error (high) or a severity `passed` (low).
   */
  lemma LevelsAgree(severity: string)
    ensures IssueSeverity(severity) == "critical" <==> severity == "critical"
    ensures IssueSeverity(severity) == "info" <==> severity == "info"
    ensures IssueSeverity(severity) in {"critical", "warning", "info"}
    ensures Priority(severity) == High <==> severity == "critical" || severity == "error"
    ensures Priority(severity) == Low <==> severity == "info" || severity == "passed"
  {
    assert |"critical"| == 8 && |"warning"| == 7 && |"info"| == 4;
  }

  /** Which categories a kind of site goes without. */
  lemma RelevantExactly(id: string, site: string)
    ensures !Relevant(id, site) <==>
            || (id == "local_seo" && site != "local_business")
            || (id == "geo_ai_readiness" && site !in {"blog", "news", "local_business", "portfolio", "ecommerce"})
  {
    assert |"local_seo"| != |"geo_ai_readiness"|;
  }
}
