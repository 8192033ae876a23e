/**
 The read model's fold of failed rule results into one entry per rule, and the ten entries it shows.
 Severities are lower case.  The column is not null and is written from critical, warning, info, passed
 and error only; the fold is modelled on any text, "" standing for a missing one.
 */
module TopIssues {
  import opened Basics
  import opened ReportAssembler

  datatype Failed = Failed(rule: string, severity: string, impact: real)

  datatype Entry = Entry(severity: string, tier: Tier, affected: nat, peak: real)

  function SeverityRank(severity: string): nat {
    if severity == "critical" then 1 else if severity == "high" then 2 else if severity == "medium" then 3
    else if severity == "low" then 4 else 5
  }

  function Abs(x: real): real { if x < 0.0 then -x else x }

  /** The thresholds differ from the report assembler's. */
  function TierOf(impact: real): Tier {
    if Abs(impact) >= 15.0 then High else if Abs(impact) >= 8.0 then Medium else Low
  }

  /**
   The two modules tier the same impact alike exactly below 4, from 8 to 10 and from 15 on; between, the
   report is one tier higher.
   */
  lemma TiersAgreeExactly(impact: real)
    ensures TierOf(impact) == ImpactTier(impact) <==>
            Abs(impact) < 4.0 || 8.0 <= Abs(impact) < 10.0 || Abs(impact) >= 15.0
    ensures TierOf(impact) != ImpactTier(impact) ==> Rank(TierOf(impact)) == Rank(ImpactTier(impact)) + 1
  {
  }

  /** A penalty of 5 is a low impact here and a medium one in the report. */
  lemma TiersDisagree()
    ensures TierOf(-5.0) == Low && ImpactTier(-5.0) == Medium
  {
  }

  /** The severity a rule's entry starts with. */
  function StartSeverity(r: Failed): string { if r.severity == "" then "medium" else r.severity }

  /** One turn of the loop, for one rule's entry. */
  function Absorb(e: Option<Entry>, r: Failed): Entry {
    var start := if e.Some? then e.value
                 else Entry(StartSeverity(r), TierOf(r.impact), 0, 0.0);
    var severity := if SeverityRank(r.severity) < SeverityRank(start.severity) then r.severity else start.severity;
    if Abs(r.impact) > Abs(start.peak) then Entry(severity, TierOf(r.impact), start.affected + 1, r.impact)
    else Entry(severity, start.tier, start.affected + 1, start.peak)
  }

  function Grouped(rows: seq<Failed>): map<string, Entry> {
    if rows == [] then map[]
    else
      var earlier, r := Grouped(rows[..|rows| - 1]), rows[|rows| - 1];
      earlier[r.rule := Absorb(if r.rule in earlier then Some(earlier[r.rule]) else None, r)]
  }

  method GroupFailedResults(rows: seq<Failed>) returns (groups: map<string, Entry>)
    ensures groups == Grouped(rows)
  {
    groups := map[];
    for i := 0 to |rows|
      invariant groups == Grouped(rows[..i])
    {
      assert rows[..i + 1][..i] == rows[..i];
      var r := rows[i];
      if r.rule !in groups {
        groups := groups[r.rule := Entry(StartSeverity(r), TierOf(r.impact), 0, 0.0)];
      }
      var g := groups[r.rule];
      g := g.(affected := g.affected + 1);
      if SeverityRank(r.severity) < SeverityRank(g.severity) {
        g := g.(severity := r.severity);
      }
      if Abs(r.impact) > Abs(g.peak) {
        g := g.(peak := r.impact, tier := TierOf(r.impact));
      }
      groups := groups[r.rule := g];
    }
    assert rows[..|rows|] == rows;
  }

  // ------------------------------------------------------------- what an entry holds

  function CountRule(rows: seq<Failed>, rule: string): nat {
    if rows == [] then 0 else CountRule(rows[..|rows| - 1], rule) + if rows[|rows| - 1].rule == rule then 1 else 0
  }

  ghost predicate HasBlank(rows: seq<Failed>, rule: string) {
    exists r :: r in rows && r.rule == rule && r.severity == ""
  }

  /** `w` is a severity of the rule's rows of least rank, rows without one aside. */
  ghost predicate LeastNamed(rows: seq<Failed>, rule: string, w: string) {
    && w != ""
    && (exists r :: r in rows && r.rule == rule && r.severity == w)
    && forall r :: r in rows && r.rule == rule && r.severity != "" ==> SeverityRank(w) <= SeverityRank(r.severity)
  }

  /** What the rows allow to be shown: a severity of least rank, or the stand-in for a missing one. */
  ghost predicate MayShow(rows: seq<Failed>, rule: string, w: string) {
    || LeastNamed(rows, rule, w)
    || (w == "medium" && HasBlank(rows, rule)
        && forall r :: r in rows && r.rule == rule && r.severity != "" ==> SeverityRank(r.severity) >= 3)
  }

  ghost predicate LargestOf(rows: seq<Failed>, rule: string, e: Entry) {
    && (forall r :: r in rows && r.rule == rule ==> Abs(r.impact) <= Abs(e.peak))
    && (e.peak == 0.0 || exists r :: r in rows && r.rule == rule && r.impact == e.peak)
    && e.tier == TierOf(e.peak)
  }

  lemma AbsorbFirst(rows: seq<Failed>, r: Failed)
    requires forall q :: q in rows ==> q.rule != r.rule
    ensures MayShow(rows + [r], r.rule, Absorb(None, r).severity) && LargestOf(rows + [r], r.rule, Absorb(None, r))
  {
    assert r in rows + [r];
  }

  lemma AbsorbNextSeverity(rows: seq<Failed>, r: Failed, e: Entry)
    requires MayShow(rows, r.rule, e.severity)
    ensures MayShow(rows + [r], r.rule, Absorb(Some(e), r).severity)
  {
    var all := rows + [r];
    assert r in all && forall q :: q in all <==> q in rows || q == r;
    if HasBlank(rows, r.rule) {
      var b :| b in rows && b.rule == r.rule && b.severity == "";
      assert b in all;
    }
    if LeastNamed(rows, r.rule, e.severity) {
      var w :| w in rows && w.rule == r.rule && w.severity == e.severity;
      assert w in all;
    }
  }

  lemma AbsorbNextImpact(rows: seq<Failed>, r: Failed, e: Entry)
    requires LargestOf(rows, r.rule, e)
    ensures LargestOf(rows + [r], r.rule, Absorb(Some(e), r))
  {
    assert r in rows + [r];
    if e.peak != 0.0 {
      var p :| p in rows && p.rule == r.rule && p.impact == e.peak;
      assert p in rows + [r];
    }
  }

  lemma OtherRuleKeeps(rows: seq<Failed>, r: Failed, rule: string, e: Entry)
    requires r.rule != rule && MayShow(rows, rule, e.severity) && LargestOf(rows, rule, e)
    ensures MayShow(rows + [r], rule, e.severity) && LargestOf(rows + [r], rule, e)
  {
    var all := rows + [r];
    assert forall q :: q in all <==> q in rows || q == r;
    if HasBlank(rows, rule) {
      var b :| b in rows && b.rule == rule && b.severity == "";
      assert b in all;
    }
    if LeastNamed(rows, rule, e.severity) {
      var w :| w in rows && w.rule == rule && w.severity == e.severity;
      assert w in all;
    }
    if e.peak != 0.0 {
      var p :| p in rows && p.rule == rule && p.impact == e.peak;
      assert p in all;
    }
  }

  /** A rule's entry counts its results and holds a severity of least rank and the largest impact. */
  lemma {:induction false} EntryMeaning(rows: seq<Failed>, rule: string)
    ensures rule in Grouped(rows) <==> exists r :: r in rows && r.rule == rule
    ensures rule in Grouped(rows) ==>
              var e := Grouped(rows)[rule];
              e.affected == CountRule(rows, rule) && MayShow(rows, rule, e.severity) && LargestOf(rows, rule, e)
    ensures rule !in Grouped(rows) ==> CountRule(rows, rule) == 0
  {
    if rows != [] {
      var before, r := rows[..|rows| - 1], rows[|rows| - 1];
      assert rows == before + [r];
      EntryMeaning(before, rule);
      assert r in rows && forall q :: q in rows <==> q in before || q == r;
      hide MayShow, LargestOf, Absorb;
      if r.rule != rule {
        if rule in Grouped(before) {
          OtherRuleKeeps(before, r, rule, Grouped(before)[rule]);
        }
      } else if rule in Grouped(before) {
        AbsorbNextSeverity(before, r, Grouped(before)[rule]);
        AbsorbNextImpact(before, r, Grouped(before)[rule]);
      } else {
        AbsorbFirst(before, r);
      }
    }
  }

  // ------------------------------------------------------------- when the severity shown is determined

  /** A result read first shows its own severity unless a later one ranks before it. */
  lemma {:induction false} FirstShows(r: Failed, rest: seq<Failed>)
    requires forall q :: q in rest && q.rule == r.rule ==> SeverityRank(StartSeverity(r)) <= SeverityRank(q.severity)
    ensures r.rule in Grouped([r] + rest) && Grouped([r] + rest)[r.rule].severity == StartSeverity(r)
  {
    hide TierOf, Abs;
    var rows := [r] + rest;
    if rest == [] {
      assert rows == [r] && rows[..0] == [];
    } else {
      hide SeverityRank;
      var front, last := rest[..|rest| - 1], rest[|rest| - 1];
      FirstShows(r, front);
      assert rows[..|rows| - 1] == [r] + front;
      assert last in rest;
    }
  }

  /** Reading the results in any other order shows the same severity for the rule. */
  ghost predicate SeverityFixed(rows: seq<Failed>, rule: string) {
    forall other: seq<Failed> :: multiset(other) == multiset(rows) ==>
      rule in Grouped(other) && rule in Grouped(rows) && Grouped(other)[rule].severity == Grouped(rows)[rule].severity
  }

  /** Rows without a severity do not push the entry above the rows that name one. */
  ghost predicate BlanksHarmless(rows: seq<Failed>, rule: string) {
    HasBlank(rows, rule) ==> forall w :: LeastNamed(rows, rule, w) ==> SeverityRank(w) <= 3
  }

  /** All rows of least rank carry one severity. */
  ghost predicate OneLeast(rows: seq<Failed>, rule: string) {
    forall v, w :: LeastNamed(rows, rule, v) && LeastNamed(rows, rule, w) ==> v == w
  }

  /**
   The severity shown for a rule does not depend on reading order exactly when all its results of least
   rank carry one severity and, were a severity ever missing, none stands before the named ones.
   */
  lemma ShownSeverityExactly(rows: seq<Failed>, rule: string)
    requires exists r :: r in rows && r.rule == rule
    ensures SeverityFixed(rows, rule) <==> OneLeast(rows, rule) && BlanksHarmless(rows, rule)
  {
    if OneLeast(rows, rule) && BlanksHarmless(rows, rule) {
      forall other: seq<Failed> | multiset(other) == multiset(rows)
        ensures rule in Grouped(other) && rule in Grouped(rows) && Grouped(other)[rule].severity == Grouped(rows)[rule].severity
      {
        SameResults(rows, other);
        EntryMeaning(rows, rule);
        EntryMeaning(other, rule);
        OneIsShown(rows, other, rule, Grouped(rows)[rule].severity, Grouped(other)[rule].severity);
      }
    }
    if SeverityFixed(rows, rule) {
      forall v, w | LeastNamed(rows, rule, v) && LeastNamed(rows, rule, w) ensures v == w {
        LeastCanShow(rows, rule, v);
        LeastCanShow(rows, rule, w);
      }
      forall w | HasBlank(rows, rule) && LeastNamed(rows, rule, w) ensures SeverityRank(w) <= 3 {
        LeastCanShow(rows, rule, w);
        if SeverityRank(w) > 3 {
          BlankCanShow(rows, rule, w);
        }
      }
    }
  }

  lemma SameResults(rows: seq<Failed>, other: seq<Failed>)
    requires multiset(rows) == multiset(other)
    ensures forall r :: r in rows <==> r in other
  {
    assert forall r :: r in rows <==> r in multiset(rows);
    assert forall r :: r in other <==> r in multiset(other);
  }

  lemma OneIsShown(rows: seq<Failed>, other: seq<Failed>, rule: string, v: string, w: string)
    requires forall r :: r in rows <==> r in other
    requires MayShow(rows, rule, v) && MayShow(other, rule, w)
    requires OneLeast(rows, rule) && BlanksHarmless(rows, rule)
    ensures v == w
  {
    assert HasBlank(other, rule) ==> HasBlank(rows, rule);
    assert LeastNamed(other, rule, w) ==> LeastNamed(rows, rule, w);
    if LeastNamed(rows, rule, v) && !LeastNamed(rows, rule, w) {
      OnlyMediumRanksThird(v);
    } else if LeastNamed(rows, rule, w) && !LeastNamed(rows, rule, v) {
      OnlyMediumRanksThird(w);
    }
  }

  lemma OnlyMediumRanksThird(w: string)
    ensures SeverityRank(w) == 3 <==> w == "medium"
  {
    assert |"critical"| == 8 && |"high"| == 4 && |"medium"| == 6;
  }

  lemma MovedFirst(rows: seq<Failed>, i: nat)
    requires i < |rows|
    ensures multiset([rows[i]] + (rows[..i] + rows[i + 1..])) == multiset(rows)
    ensures forall q :: q in rows[..i] + rows[i + 1..] ==> q in rows
  {
    assert rows == rows[..i] + [rows[i]] + rows[i + 1..];
  }

  /** A result that nothing ranks before can be read first, so it shows if the severity is fixed. */
  lemma LeadIsShown(rows: seq<Failed>, i: nat)
    requires i < |rows| && SeverityFixed(rows, rows[i].rule)
    requires forall q :: q in rows && q.rule == rows[i].rule ==> SeverityRank(StartSeverity(rows[i])) <= SeverityRank(q.severity)
    ensures rows[i].rule in Grouped(rows) && Grouped(rows)[rows[i].rule].severity == StartSeverity(rows[i])
  {
    hide Grouped, SeverityRank, StartSeverity;
    MovedFirst(rows, i);
    FirstShows(rows[i], rows[..i] + rows[i + 1..]);
  }

  /** Some order shows a given severity of least rank. */
  lemma LeastCanShow(rows: seq<Failed>, rule: string, w: string)
    requires LeastNamed(rows, rule, w) && SeverityFixed(rows, rule)
    ensures rule in Grouped(rows) && Grouped(rows)[rule].severity == w
  {
    hide Grouped, SeverityFixed;
    BlankRanksLast(w);
    hide SeverityRank;
    var r :| r in rows && r.rule == rule && r.severity == w;
    var i :| 0 <= i < |rows| && rows[i] == r;
    LeadIsShown(rows, i);
  }

  /** When every named severity ranks after "medium", some order shows the stand-in. */
  lemma BlankCanShow(rows: seq<Failed>, rule: string, w: string)
    requires HasBlank(rows, rule) && LeastNamed(rows, rule, w) && SeverityRank(w) > 3 && SeverityFixed(rows, rule)
    ensures rule in Grouped(rows) && Grouped(rows)[rule].severity == "medium"
    ensures SeverityRank("medium") == 3
  {
    hide Grouped, SeverityFixed;
    OnlyMediumRanksThird("medium");
    BlankRanksLast("medium");
    hide SeverityRank;
    var r :| r in rows && r.rule == rule && r.severity == "";
    var i :| 0 <= i < |rows| && rows[i] == r;
    LeadIsShown(rows, i);
  }

  lemma BlankRanksLast(w: string)
    ensures SeverityRank(w) <= SeverityRank("")
  {
  }

  /**
   A rule that warns on one page and could not be evaluated on another: both severities rank last, and
   whichever result is read first is shown.
   */
  lemma WarningOrError(rule: string, impact: real)
    ensures var warning, error := Failed(rule, "warning", impact), Failed(rule, "error", 0.0);
            Grouped([warning, error])[rule].severity == "warning" && Grouped([error, warning])[rule].severity == "error"
  {
    var warning, error := Failed(rule, "warning", impact), Failed(rule, "error", 0.0);
    assert SeverityRank("warning") == 5 && SeverityRank("error") == 5 by {
      assert |"warning"| == 7 && |"error"| == 5 && |"critical"| == 8 && |"high"| == 4 && |"medium"| == 6 && |"low"| == 3;
    }
    FirstShows(warning, [error]);
    FirstShows(error, [warning]);
    assert [warning] + [error] == [warning, error] && [error] + [warning] == [error, warning];
  }

  // ------------------------------------------------------------- the order shown

  datatype Key = Key(severity: nat, impact: nat, affected: nat, rule: string)

  function KeyOf(rule: string, e: Entry): Key {
    Key(SeverityRank(e.severity), Rank(e.tier) + 1, e.affected, rule)
  }

  /** More affected pages come first; the rule id decides last. */
  predicate Before(a: Key, b: Key) {
    || a.severity < b.severity
    || (a.severity == b.severity && a.impact < b.impact)
    || (a.severity == b.severity && a.impact == b.impact && a.affected > b.affected)
    || (a.severity == b.severity && a.impact == b.impact && a.affected == b.affected && a.rule != b.rule && StringLe(a.rule, b.rule))
  }

  lemma BeforeIsStrict(a: Key, b: Key)
    ensures Before(a, b) || Before(b, a) || a == b
    ensures !(Before(a, b) && Before(b, a))
  {
    StringLeTotal(a.rule, b.rule);
  }

  /** `sorted(groups.values(), key=...)`. */
  ghost predicate IsSorting(keys: seq<Key>, groups: map<string, Entry>) {
    && (forall i, j :: 0 <= i < j < |keys| ==> Before(keys[i], keys[j]))
    && forall k :: k in keys <==> k.rule in groups && k == KeyOf(k.rule, groups[k.rule])
  }

  const MAX_TOP_ISSUES := 10

  function Top(keys: seq<Key>): seq<Key> {
    if |keys| <= MAX_TOP_ISSUES then keys else keys[..MAX_TOP_ISSUES]
  }

  lemma {:induction false} SortedIsUnique(xs: seq<Key>, ys: seq<Key>)
    requires forall i, j :: 0 <= i < j < |xs| ==> Before(xs[i], xs[j])
    requires forall i, j :: 0 <= i < j < |ys| ==> Before(ys[i], ys[j])
    requires forall k :: k in xs <==> k in ys
    ensures xs == ys
    decreases |xs|
  {
    if xs == [] {
      if ys != [] {
        SomeMember(ys);
      }
    } else {
      assert xs[0] in ys;
      assert ys[0] in xs;
      FirstIsLeast(xs, ys[0]);
      FirstIsLeast(ys, xs[0]);
      BeforeIsStrict(xs[0], ys[0]);
      RestMembers(xs);
      RestMembers(ys);
      SortedIsUnique(xs[1..], ys[1..]);
      assert xs == [xs[0]] + xs[1..] && ys == [ys[0]] + ys[1..];
    }
  }

  lemma SomeMember(ys: seq<Key>)
    requires ys != []
    ensures exists k :: k in ys
  {
    assert ys[0] in ys;
  }

  lemma FirstIsLeast(xs: seq<Key>, k: Key)
    requires forall i, j :: 0 <= i < j < |xs| ==> Before(xs[i], xs[j])
    requires k in xs
    ensures xs[0] == k || Before(xs[0], k)
  {
    var i :| 0 <= i < |xs| && xs[i] == k;
  }

  lemma RestMembers(xs: seq<Key>)
    requires xs != [] && forall i, j :: 0 <= i < j < |xs| ==> Before(xs[i], xs[j])
    ensures forall k :: k in xs[1..] <==> k in xs && k != xs[0]
  {
    forall k ensures k in xs[1..] <==> k in xs && k != xs[0] {
      if k in xs[1..] {
        var i :| 0 <= i < |xs[1..]| && xs[1..][i] == k;
        assert xs[i + 1] == k;
        BeforeIsStrict(xs[0], k);
      }
      if k in xs && k != xs[0] {
        var i :| 0 <= i < |xs| && xs[i] == k;
        assert xs[1..][i - 1] == k;
      }
    }
  }

  lemma WithoutOne(front: seq<Failed>, a: seq<Failed>, b: seq<Failed>, r: Failed)
    requires multiset(front + [r]) == multiset(a + [r] + b)
    ensures multiset(front) == multiset(a + b)
  {
    assert multiset(front) == multiset(front + [r]) - multiset{r};
    assert multiset(a + b) == multiset(a + [r] + b) - multiset{r};
  }

  lemma {:induction false} CountIsMultiplicity(rows: seq<Failed>, other: seq<Failed>, rule: string)
    requires multiset(rows) == multiset(other)
    ensures CountRule(rows, rule) == CountRule(other, rule)
    decreases |rows|
  {
    if rows == [] {
      assert other == [] by {
        assert |multiset(other)| == |other|;
      }
    } else {
      var front, r := rows[..|rows| - 1], rows[|rows| - 1];
      assert rows == front + [r];
      assert r in multiset(other);
      var i :| 0 <= i < |other| && other[i] == r;
      var a, b := other[..i], other[i + 1..];
      assert other == a + [r] + b;
      WithoutOne(front, a, b, r);
      CountIsMultiplicity(front, a + b, rule);
      CountOfSplit(a, b, rule);
      CountOfSplit(a + [r], b, rule);
      CountOfSplit(a, [r], rule);
      assert [r][..0] == [];
    }
  }

  lemma {:induction false} CountOfSplit(a: seq<Failed>, b: seq<Failed>, rule: string)
    ensures CountRule(a + b, rule) == CountRule(a, rule) + CountRule(b, rule)
  {
    if b == [] {
      assert a + b == a;
    } else {
      assert (a + b)[..|a + b| - 1] == a + b[..|b| - 1];
      CountOfSplit(a, b[..|b| - 1], rule);
    }
  }

  lemma KeysAgree(rows: seq<Failed>, other: seq<Failed>, rule: string)
    requires multiset(rows) == multiset(other) && BlanksHarmless(rows, rule)
    ensures rule in Grouped(rows) <==> rule in Grouped(other)
    ensures rule in Grouped(rows) ==> KeyOf(rule, Grouped(rows)[rule]) == KeyOf(rule, Grouped(other)[rule])
  {
    SameResults(rows, other);
    EntryMeaning(rows, rule);
    EntryMeaning(other, rule);
    CountIsMultiplicity(rows, other, rule);
    if rule in Grouped(rows) {
      var e, f := Grouped(rows)[rule], Grouped(other)[rule];
      SameRank(rows, other, rule, e.severity, f.severity);
      assert Abs(e.peak) == Abs(f.peak);
    }
  }

  lemma SameRank(rows: seq<Failed>, other: seq<Failed>, rule: string, v: string, w: string)
    requires forall r :: r in rows <==> r in other
    requires MayShow(rows, rule, v) && MayShow(other, rule, w) && BlanksHarmless(rows, rule)
    ensures SeverityRank(v) == SeverityRank(w)
  {
    assert HasBlank(other, rule) ==> HasBlank(rows, rule);
    assert LeastNamed(other, rule, w) ==> LeastNamed(rows, rule, w);
    OnlyMediumRanksThird("medium");
  }

  /**
   The sort keys of the ten issues shown (severity rank, impact, page count, rule) do not depend on the
   order in which the failed results are read; the severity text shown need not be as fixed.
   */
  lemma TopTenIgnoresOrder(rows: seq<Failed>, other: seq<Failed>, keys: seq<Key>, otherKeys: seq<Key>)
    requires multiset(rows) == multiset(other) && forall rule :: BlanksHarmless(rows, rule)
    requires IsSorting(keys, Grouped(rows)) && IsSorting(otherKeys, Grouped(other))
    ensures Top(keys) == Top(otherKeys)
  {
    forall k ensures k in keys <==> k in otherKeys {
      KeysAgree(rows, other, k.rule);
    }
    SortedIsUnique(keys, otherKeys);
  }

  /** The four severities in their order, and every other text after them, alike. */
  lemma RanksInOrder(severity: string)
    ensures SeverityRank("critical") < SeverityRank("high") < SeverityRank("medium") < SeverityRank("low")
    ensures severity !in {"critical", "high", "medium", "low"} ==>
              SeverityRank("low") < SeverityRank(severity) == SeverityRank("warning")
  {
    assert |"critical"| == 8 && |"high"| == 4 && |"medium"| == 6 && |"low"| == 3 && |"warning"| == 7;
    assert "high"[0] != "warning"[0];
  }

  /** Which of two issues is shown first: the worse severity, else the larger impact, else more results, else the id. */
  lemma WorseFirst(r: string, a: Entry, q: string, b: Entry)
    ensures var first := Before(KeyOf(r, a), KeyOf(q, b));
            && (SeverityRank(a.severity) < SeverityRank(b.severity) ==> first)
            && (SeverityRank(a.severity) == SeverityRank(b.severity) ==>
                  && (a.tier == High && b.tier != High ==> first) && (a.tier == Medium && b.tier == Low ==> first)
                  && (a.tier == b.tier && a.affected > b.affected ==> first)
                  && (a.tier == b.tier && a.affected == b.affected && r != q && StringLe(r, q) ==> first))
  {
  }

  /** Where the results of a rule stand. */
  function ResultsAt(rows: seq<Failed>, rule: string): set<int> {
    set i | 0 <= i < |rows| && rows[i].rule == rule
  }

  lemma ResultsAtGrow(front: seq<Failed>, last: Failed, rule: string)
    ensures |ResultsAt(front + [last], rule)| == |ResultsAt(front, rule)| + if last.rule == rule then 1 else 0
  {
    var all, n := front + [last], |front|;
    assert ResultsAt(all, rule) == ResultsAt(front, rule) + if last.rule == rule then {n} else {} by {
      assert all[n] == last && forall i :: 0 <= i < n ==> all[i] == front[i];
    }
    assert n !in ResultsAt(front, rule);
  }

  lemma {:induction false} CountRuleExactly(rows: seq<Failed>, rule: string)
    ensures CountRule(rows, rule) == |ResultsAt(rows, rule)|
  {
    if rows != [] {
      var front, last := rows[..|rows| - 1], rows[|rows| - 1];
      CountRuleExactly(front, rule);
      assert rows == front + [last];
      ResultsAtGrow(front, last, rule);
    }
  }

  /** Ten issues are shown, or all when there are fewer, and every other one comes after each of them. */
  lemma TopExactly(keys: seq<Key>, groups: map<string, Entry>)
    requires IsSorting(keys, groups)
    ensures |Top(keys)| == if |keys| < 10 then |keys| else 10
    ensures forall rule :: rule in groups ==>
              var k := KeyOf(rule, groups[rule]);
              k in Top(keys) || (|Top(keys)| == 10 && forall t :: t in Top(keys) ==> Before(t, k))
  {
    forall rule | rule in groups
      ensures var k := KeyOf(rule, groups[rule]);
              k in Top(keys) || (|Top(keys)| == 10 && forall t :: t in Top(keys) ==> Before(t, k))
    {
      var k := KeyOf(rule, groups[rule]);
      assert k in keys;
      var i :| 0 <= i < |keys| && keys[i] == k;
      if i < |Top(keys)| {
        assert Top(keys)[i] == k;
      } else {
        forall t | t in Top(keys) ensures Before(t, k) {
          var j :| 0 <= j < |Top(keys)| && Top(keys)[j] == t;
          assert keys[j] == t;
        }
      }
    }
  }
}
