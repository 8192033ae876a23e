/** The loops of the report assembler, each proved to build what ReportAssembler's functions describe. */
module ReportLoops {
  import opened Basics
  import opened ReportAssembler

  method BuildOccurrences(members: seq<Check>) returns (occurrences: seq<(string, string)>)
    ensures occurrences == Occurrences(members)
  {
    var seen: set<(string, string)> := {};
    occurrences := [];
    for i := 0 to |members|
      invariant occurrences == Occurrences(members[..i])
      invariant forall o :: o in seen <==> o in occurrences
    {
      assert members[..i + 1][..i] == members[..i];
      var key := (members[i].found, members[i].expected);
      if key !in seen {
        seen := seen + {key};
        occurrences := occurrences + [key];
      }
    }
    assert members[..|members|] == members;
  }

  method GroupFailed(failed: seq<Check>) returns (grouped: seq<Group>)
    ensures grouped == Groups(failed)
  {
    grouped := [];
    for i := 0 to |failed|
      invariant grouped == Groups(failed[..i])
    {
      assert failed[..i + 1][..i] == failed[..i];
      var at := IndexOf(grouped, failed[i].checkId);
      if at < 0 {
        grouped := grouped + [Group(failed[i].checkId, [failed[i]])];
      } else {
        grouped := grouped[at := grouped[at].(members := grouped[at].members + [failed[i]])];
      }
    }
    assert failed[..|failed|] == failed;
  }

  method DraftIssues(failed: seq<Check>) returns (drafts: seq<Issue>)
    ensures drafts == Drafts(failed)
  {
    var grouped := GroupFailed(failed);
    GroupsPartition(failed);
    hide Select;
    drafts := [];
    for i := 0 to |grouped|
      invariant |drafts| == i && drafts == Drafts(failed)[..i]
    {
      var head := grouped[i].members[0];
      var occurrences := BuildOccurrences(grouped[i].members);
      var issue := Issue(0, grouped[i].checkId, IssueSeverity(head.severity), Priority(head.severity),
                         ImpactTier(head.impact), |grouped[i].members|, occurrences);
      assert issue == ToIssue(grouped[i]) == Drafts(failed)[i];
      drafts := drafts + [issue];
    }
  }

  method AssignIds(sorted: seq<Issue>, counter: nat) returns (issues: seq<Issue>, next: nat)
    ensures issues == Number(sorted, counter) && next == counter + |sorted|
  {
    issues, next := sorted, counter;
    for i := 0 to |issues|
      invariant |issues| == |sorted| && next == counter + i
      invariant forall j :: 0 <= j < |issues| ==>
                  issues[j] == if j < i then sorted[j].(id := counter + j) else sorted[j]
    {
      issues := issues[i := issues[i].(id := next)];
      next := next + 1;
    }
  }

  /** `_build_issues`; `counter` is the next id, and `next` the one after the last it used. */
  method BuildIssues(failed: seq<Check>, counter: nat) returns (issues: seq<Issue>, next: nat)
    ensures issues == Issues(failed, counter) && next == counter + |issues|
  {
    var drafts := DraftIssues(failed);
    issues, next := AssignIds(Sort(drafts), counter);
  }

  /** The checks of one report category, in order. */
  function InCategory(checks: seq<Check>, id: string): seq<Check> {
    if checks == [] then []
    else InCategory(checks[..|checks| - 1], id) +
         if Resolve(checks[|checks| - 1].category) == id then [checks[|checks| - 1]] else []
  }

  function FailedOf(checks: seq<Check>): seq<Check> {
    if checks == [] then []
    else
      var c := checks[|checks| - 1];
      FailedOf(checks[..|checks| - 1]) + if c.applicable && !c.passed then [c] else []
  }

  lemma {:induction false} FailedInCategory(checks: seq<Check>, id: string)
    ensures FailedOf(InCategory(checks, id)) == Failing(checks, id)
    ensures (exists c :: c in InCategory(checks, id) && c.applicable) <==> AnyApplicable(checks, id)
  {
    if checks != [] {
      var before, c := checks[..|checks| - 1], checks[|checks| - 1];
      FailedInCategory(before, id);
      assert checks == before + [c];
      assert forall d :: d in checks <==> d in before || d == c;
      var group := InCategory(before, id);
      if Resolve(c.category) == id {
        assert (group + [c])[..|group|] == group;
        assert InCategory(checks, id) == group + [c];
        assert forall d :: d in group + [c] <==> d in group || d == c;
      } else {
        assert InCategory(checks, id) == group;
      }
    }
  }

  /** `_build_category`, from the checks grouped under its id. */
  method BuildCategory(id: string, group: seq<Check>, site: string, counter: nat, ghost checks: seq<Check>)
    returns (category: Category, next: nat)
    requires group == InCategory(checks, id)
    ensures category == CategoryOf(checks, id, site, counter) && next == counter + |category.issues|
  {
    FailedInCategory(checks, id);
    var failed: seq<Check> := [];
    var applicable := false;
    for i := 0 to |group|
      invariant failed == FailedOf(group[..i])
      invariant applicable <==> exists c :: c in group[..i] && c.applicable
    {
      assert group[..i + 1] == group[..i] + [group[i]];
      if group[i].applicable {
        applicable := true;
        if !group[i].passed {
          failed := failed + [group[i]];
        }
      }
    }
    assert group[..|group|] == group;
    if !Relevant(id, site) || !applicable {
      return Category(id, None, []), counter;
    }
    var issues;
    issues, next := BuildIssues(failed, counter);
    category := Category(id, Some(CountsOf(issues)), issues);
  }

  function GroupOf(groups: map<string, seq<Check>>, id: string): seq<Check> {
    if id in groups then groups[id] else []
  }

  method GroupByCategory(checks: seq<Check>) returns (groups: map<string, seq<Check>>)
    ensures forall id :: GroupOf(groups, id) == InCategory(checks, id)
  {
    groups := map[];
    for i := 0 to |checks|
      invariant forall id :: GroupOf(groups, id) == InCategory(checks[..i], id)
    {
      var front, id := checks[..i], Resolve(checks[i].category);
      assert checks[..i + 1][..i] == front;
      forall other ensures InCategory(checks[..i + 1], other) ==
                           InCategory(front, other) + if id == other then [checks[i]] else [] {
      }
      groups := groups[id := GroupOf(groups, id) + [checks[i]]];
    }
    assert checks[..|checks|] == checks;
  }

  /** `build_report_response`. */
  method BuildReport(checks: seq<Check>, site: string) returns (categories: seq<Category>, overall: Overall)
    ensures categories == Report(checks, site) && overall == OverallOf(checks, categories)
  {
    var groups := GroupByCategory(checks);
    hide CategoryOf, InCategory, Ids;
    var ids, counter := Ids(checks), 1;
    categories := [];
    assert ids[0..] == ids;
    for i := 0 to |ids|
      invariant categories + Categories(checks, ids[i..], site, counter) == Report(checks, site)
    {
      var category, next := BuildCategory(ids[i], GroupOf(groups, ids[i]), site, counter, checks);
      assert ids[i..][0] == ids[i] && ids[i..][1..] == ids[i + 1..];
      assert Categories(checks, ids[i..], site, counter) == [category] + Categories(checks, ids[i + 1..], site, next);
      assert categories + ([category] + Categories(checks, ids[i + 1..], site, next)) ==
             categories + [category] + Categories(checks, ids[i + 1..], site, next);
      categories, counter := categories + [category], next;
    }
    overall := OverallOf(checks, categories);
  }
}
