/**
 The parse and evaluate stages of an audit over their tables, for a deterministic parser and
 deterministic rules: what one run writes and counts, and that running them again without `force`
 writes nothing.  Each run reads the clock once.
 */
module StageReplay {
  import opened Basics
  import opened Upserts

  // ------------------------------------------------------------- parsing

  datatype Page = Page(id: string, success: bool)

  datatype Outcome = NoResult | Raised | Parsed(url: string, data: string)

  datatype Fact = Fact(url: string, data: string, parsedAt: int)

  /** parsed_page_facts of one audit, by page id. */
  type Facts = map<string, Fact>

  datatype Summary = Summary(parsed: nat, failed: nat, skipped: nat)

  function Successful(pages: seq<Page>): seq<Page> {
    if pages == [] then []
    else Successful(pages[..|pages| - 1]) + if pages[|pages| - 1].success then [pages[|pages| - 1]] else []
  }

  /** The page is left alone. */
  predicate Skips(existing: set<string>, force: bool, page: Page) { !force && page.id in existing }

  function ParseAll(facts: Facts, todo: seq<Page>, existing: set<string>, force: bool, parse: Page -> Outcome, now: int): Facts {
    if todo == [] then facts
    else
      var page := todo[|todo| - 1];
      var earlier := ParseAll(facts, todo[..|todo| - 1], existing, force, parse, now);
      if !Skips(existing, force, page) && parse(page).Parsed?
      then earlier[page.id := Fact(parse(page).url, parse(page).data, now)]
      else earlier
  }

  function CountAll(todo: seq<Page>, existing: set<string>, force: bool, parse: Page -> Outcome): Summary {
    if todo == [] then Summary(0, 0, 0)
    else
      var page := todo[|todo| - 1];
      var n := CountAll(todo[..|todo| - 1], existing, force, parse);
      if Skips(existing, force, page) then n.(skipped := n.skipped + 1)
      else if parse(page).Parsed? then n.(parsed := n.parsed + 1)
      else n.(failed := n.failed + 1)
  }

  /** The early return counts every page as skipped. */
  function ParseSummary(facts: Facts, pages: seq<Page>, force: bool, parse: Page -> Outcome): Summary {
    if Successful(pages) == [] then Summary(0, 0, |pages|)
    else CountAll(Successful(pages), facts.Keys, force, parse)
  }

  function ParseStage(facts: Facts, pages: seq<Page>, force: bool, parse: Page -> Outcome, now: int): Facts {
    ParseAll(facts, Successful(pages), facts.Keys, force, parse, now)
  }

  lemma {:induction false} CountsAll(todo: seq<Page>, existing: set<string>, force: bool, parse: Page -> Outcome)
    ensures var n := CountAll(todo, existing, force, parse); n.parsed + n.failed + n.skipped == |todo|
  {
    if todo != [] {
      CountsAll(todo[..|todo| - 1], existing, force, parse);
    }
  }

  lemma {:induction false} SuccessfulExactly(pages: seq<Page>)
    ensures forall p :: p in Successful(pages) <==> p in pages && p.success
    ensures |Successful(pages)| <= |pages|
  {
    if pages != [] {
      SuccessfulExactly(pages[..|pages| - 1]);
      assert pages == pages[..|pages| - 1] + [pages[|pages| - 1]];
    }
  }

  /**
   Parsed, failed and skipped add up to the successfully crawled pages exactly when some page was
   crawled successfully or there is no page at all.
   */
  lemma ParseCountsExactly(facts: Facts, pages: seq<Page>, force: bool, parse: Page -> Outcome)
    ensures var n := ParseSummary(facts, pages, force, parse);
            n.parsed + n.failed + n.skipped == |Successful(pages)| <==> pages == [] || exists p :: p in pages && p.success
  {
    SuccessfulExactly(pages);
    CountsAll(Successful(pages), facts.Keys, force, parse);
    if Successful(pages) != [] {
      assert Successful(pages)[0] in Successful(pages);
    }
  }

  /** Where the successful pages stand that satisfy `p`. */
  ghost function PagesWith(pages: seq<Page>, p: Page -> bool): set<int> {
    set i | 0 <= i < |pages| && pages[i].success && p(pages[i])
  }

  lemma PagesWithGrows(front: seq<Page>, last: Page, p: Page -> bool)
    ensures |PagesWith(front + [last], p)| == |PagesWith(front, p)| + if last.success && p(last) then 1 else 0
  {
    var all, n := front + [last], |front|;
    assert PagesWith(all, p) == PagesWith(front, p) + if last.success && p(last) then {n} else {} by {
      assert all[n] == last && forall i :: 0 <= i < n ==> all[i] == front[i];
    }
    assert n !in PagesWith(front, p);
  }

  function ToSkip(existing: set<string>, force: bool): Page -> bool { p => Skips(existing, force, p) }

  function ToParse(existing: set<string>, force: bool, parse: Page -> Outcome): Page -> bool {
    p => !Skips(existing, force, p) && parse(p).Parsed?
  }

  function ToFail(existing: set<string>, force: bool, parse: Page -> Outcome): Page -> bool {
    p => !Skips(existing, force, p) && !parse(p).Parsed?
  }

  lemma CountNext(todo: seq<Page>, last: Page, existing: set<string>, force: bool, parse: Page -> Outcome)
    ensures var n, m := CountAll(todo, existing, force, parse), CountAll(todo + [last], existing, force, parse);
            && m.parsed == n.parsed + (if ToParse(existing, force, parse)(last) then 1 else 0)
            && m.failed == n.failed + (if ToFail(existing, force, parse)(last) then 1 else 0)
            && m.skipped == n.skipped + (if ToSkip(existing, force)(last) then 1 else 0)
  {
    assert (todo + [last])[..|todo|] == todo;
  }

  lemma {:induction false} CountAllExactly(pages: seq<Page>, existing: set<string>, force: bool, parse: Page -> Outcome)
    ensures CountAll(Successful(pages), existing, force, parse) ==
            Summary(|PagesWith(pages, ToParse(existing, force, parse))|, |PagesWith(pages, ToFail(existing, force, parse))|,
                    |PagesWith(pages, ToSkip(existing, force))|)
  {
    if pages != [] {
      var front, last := pages[..|pages| - 1], pages[|pages| - 1];
      hide PagesWith;
      CountAllExactly(front, existing, force, parse);
      assert pages == front + [last];
      PagesWithGrows(front, last, ToParse(existing, force, parse));
      PagesWithGrows(front, last, ToFail(existing, force, parse));
      PagesWithGrows(front, last, ToSkip(existing, force));
      if last.success {
        assert Successful(pages) == Successful(front) + [last];
        CountNext(Successful(front), last, existing, force, parse);
      } else {
        assert Successful(pages) == Successful(front);
      }
      hide CountAll, Successful;
    }
  }

  /** What each count is: of the successful pages, those parsed now, those that could not be, and those left alone. */
  lemma ParseCountsEach(facts: Facts, pages: seq<Page>, force: bool, parse: Page -> Outcome)
    ensures var n := ParseSummary(facts, pages, force, parse);
            if exists p :: p in pages && p.success then
              && n.parsed == |PagesWith(pages, ToParse(facts.Keys, force, parse))|
              && n.failed == |PagesWith(pages, ToFail(facts.Keys, force, parse))|
              && n.skipped == |PagesWith(pages, ToSkip(facts.Keys, force))|
            else n == Summary(0, 0, |pages|)
  {
    SuccessfulExactly(pages);
    CountAllExactly(pages, facts.Keys, force, parse);
    hide PagesWith, CountAll;
    if exists p :: p in pages && p.success {
      var p :| p in pages && p.success;
      assert p in Successful(pages);
    }
    assert Successful(pages) == [] || Successful(pages)[0] in Successful(pages);
  }

  /** Parsing adds what it could parse, removes nothing, and without `force` keeps what was there. */
  lemma {:induction false} ParseAllKeys(facts: Facts, todo: seq<Page>, existing: set<string>, force: bool,
                                        parse: Page -> Outcome, now: int)
    ensures forall p :: p in todo && !Skips(existing, force, p) && parse(p).Parsed? ==>
                          p.id in ParseAll(facts, todo, existing, force, parse, now)
    ensures forall k :: k in facts ==> k in ParseAll(facts, todo, existing, force, parse, now)
    ensures !force ==> forall k :: k in facts && k in existing ==>
                          ParseAll(facts, todo, existing, force, parse, now)[k] == facts[k]
  {
    if todo != [] {
      ParseAllKeys(facts, todo[..|todo| - 1], existing, force, parse, now);
      assert todo == todo[..|todo| - 1] + [todo[|todo| - 1]];
    }
  }

  lemma {:induction false} NothingToParse(facts: Facts, todo: seq<Page>, existing: set<string>, parse: Page -> Outcome, now: int)
    requires forall p :: p in todo ==> p.id in existing || !parse(p).Parsed?
    ensures ParseAll(facts, todo, existing, false, parse, now) == facts
    ensures CountAll(todo, existing, false, parse).parsed == 0
  {
    if todo != [] {
      assert todo[|todo| - 1] in todo;
      NothingToParse(facts, todo[..|todo| - 1], existing, parse, now);
    }
  }

  /** Parsing again without `force` writes nothing and parses nothing. */
  lemma ParseReplay(facts: Facts, pages: seq<Page>, force: bool, parse: Page -> Outcome, now: int, later: int)
    ensures var once := ParseStage(facts, pages, force, parse, now);
            && ParseStage(once, pages, false, parse, later) == once
            && ParseSummary(once, pages, false, parse).parsed == 0
  {
    var todo, once := Successful(pages), ParseStage(facts, pages, force, parse, now);
    ParseAllKeys(facts, todo, facts.Keys, force, parse, now);
    NothingToParse(once, todo, once.Keys, parse, later);
  }

  ghost predicate DistinctPages(pages: seq<Page>) {
    forall i, j :: 0 <= i < j < |pages| ==> pages[i].id != pages[j].id
  }

  lemma {:induction false} SuccessfulDistinct(pages: seq<Page>)
    requires DistinctPages(pages)
    ensures DistinctPages(Successful(pages))
  {
    if pages != [] {
      var front := pages[..|pages| - 1];
      SuccessfulDistinct(front);
      SuccessfulExactly(front);
      assert forall i :: 0 <= i < |Successful(front)| ==> Successful(front)[i] in front;
    }
  }

  /** Which pages a run ends up with: those it had and those it could parse. */
  lemma {:induction false} ParseAllKeysExactly(facts: Facts, todo: seq<Page>, existing: set<string>, force: bool,
                                               parse: Page -> Outcome, now: int, k: string)
    ensures k in ParseAll(facts, todo, existing, force, parse, now) <==>
            k in facts || exists p :: p in todo && p.id == k && !Skips(existing, force, p) && parse(p).Parsed?
  {
    if todo != [] {
      ParseAllKeysExactly(facts, todo[..|todo| - 1], existing, force, parse, now, k);
      assert todo == todo[..|todo| - 1] + [todo[|todo| - 1]];
      assert todo[|todo| - 1] in todo;
      assert forall p :: p in todo <==> p in todo[..|todo| - 1] || p == todo[|todo| - 1];
    }
  }

  /**
   A second unforced run skips what the first parsed or skipped and fails where the first failed.
   */
  lemma ReplayCounts(facts: Facts, pages: seq<Page>, parse: Page -> Outcome, now: int)
    requires DistinctPages(pages)
    ensures var first := ParseSummary(facts, pages, false, parse);
            var second := ParseSummary(ParseStage(facts, pages, false, parse, now), pages, false, parse);
            second == Summary(0, first.failed, first.parsed + first.skipped)
  {
    var todo, once := Successful(pages), ParseStage(facts, pages, false, parse, now);
    SuccessfulDistinct(pages);
    forall p | p in todo ensures p.id in once.Keys <==> p.id in facts.Keys || parse(p).Parsed? {
      ParseAllKeysExactly(facts, todo, facts.Keys, false, parse, now, p.id);
      if p.id in once.Keys && p.id !in facts.Keys {
        var q :| q in todo && q.id == p.id && parse(q).Parsed?;
        assert q == p;
      }
    }
    CountsShift(todo, facts.Keys, once.Keys, parse);
  }

  /** What a run leaves for a page: the fact just parsed if it was to be parsed and could be, else what was there. */
  lemma ParseStores(facts: Facts, pages: seq<Page>, force: bool, parse: Page -> Outcome, now: int, k: string)
    requires DistinctPages(pages)
    ensures var once := ParseStage(facts, pages, force, parse, now);
            && (forall p :: p in pages && p.success && p.id == k && !Skips(facts.Keys, force, p) && parse(p).Parsed? ==>
                  k in once && once[k] == Fact(parse(p).url, parse(p).data, now))
            && ((forall p :: p in pages && p.success && p.id == k ==> Skips(facts.Keys, force, p) || !parse(p).Parsed?) ==>
                  (k in once <==> k in facts) && (k in facts ==> once[k] == facts[k]))
  {
    SuccessfulDistinct(pages);
    SuccessfulExactly(pages);
    forall p | p in pages && p.success && p.id == k && !Skips(facts.Keys, force, p) && parse(p).Parsed?
      ensures k in ParseStage(facts, pages, force, parse, now)
              && ParseStage(facts, pages, force, parse, now)[k] == Fact(parse(p).url, parse(p).data, now)
    {
      ParsedAt(facts, Successful(pages), facts.Keys, force, parse, now, p);
    }
    UntouchedAt(facts, Successful(pages), facts.Keys, force, parse, now, k);
  }

  lemma {:induction false} ParsedAt(facts: Facts, todo: seq<Page>, existing: set<string>, force: bool,
                                    parse: Page -> Outcome, now: int, p: Page)
    requires DistinctPages(todo) && p in todo && !Skips(existing, force, p) && parse(p).Parsed?
    ensures p.id in ParseAll(facts, todo, existing, force, parse, now)
    ensures ParseAll(facts, todo, existing, force, parse, now)[p.id] == Fact(parse(p).url, parse(p).data, now)
  {
    var front, last := todo[..|todo| - 1], todo[|todo| - 1];
    if p != last {
      var i :| 0 <= i < |todo| && todo[i] == p;
      assert front[i] == p && todo[i].id != last.id;
      ParsedAt(facts, front, existing, force, parse, now, p);
    }
  }

  lemma {:induction false} UntouchedAt(facts: Facts, todo: seq<Page>, existing: set<string>, force: bool,
                                       parse: Page -> Outcome, now: int, k: string)
    ensures (forall p :: p in todo && p.id == k ==> Skips(existing, force, p) || !parse(p).Parsed?) ==>
              var once := ParseAll(facts, todo, existing, force, parse, now);
              (k in once <==> k in facts) && (k in facts ==> once[k] == facts[k])
  {
    if todo != [] {
      var front, last := todo[..|todo| - 1], todo[|todo| - 1];
      assert last in todo && forall p :: p in front ==> p in todo;
      UntouchedAt(facts, front, existing, force, parse, now, k);
    }
  }

  lemma {:induction false} CountsShift(todo: seq<Page>, before: set<string>, after: set<string>, parse: Page -> Outcome)
    requires forall p :: p in todo ==> (p.id in after <==> p.id in before || parse(p).Parsed?)
    ensures var first, second := CountAll(todo, before, false, parse), CountAll(todo, after, false, parse);
            second == Summary(0, first.failed, first.parsed + first.skipped)
  {
    if todo != [] {
      assert todo[|todo| - 1] in todo;
      CountsShift(todo[..|todo| - 1], before, after, parse);
    }
  }

  // ------------------------------------------------------------- evaluating

  datatype RuleResult = RuleResult(rule: string, verdict: string)

  /** What evaluating a page gives: a result per rule, or an exception. */
  datatype Evaluation = Results(results: seq<RuleResult>) | Crashed(message: string)

  datatype Stored = Stored(verdict: string, evaluatedAt: int)

  /** rule_evaluation_results of one audit, by page and rule. */
  type Table = map<(string, string), Stored>

  const REPLACE: (Stored, Stored) -> Stored := (old_: Stored, new_: Stored) => new_

  type NewRow = Row<(string, string), Stored>

  function RowsOf(page: string, results: seq<RuleResult>, now: int): seq<NewRow> {
    seq(|results|, i requires 0 <= i < |results| => Row((page, results[i].rule), Stored(results[i].verdict, now)))
  }

  /** A crash leaves one row under the rule id `evaluation_error`. */
  function PageRows(page: string, outcome: Evaluation, now: int): seq<NewRow> {
    match outcome
    case Results(results) => RowsOf(page, results, now)
    case Crashed(message) => [Row((page, "evaluation_error"), Stored(message, now))]
  }

  function PagesOf(table: Table): set<string> { set k | k in table :: k.0 }

  /** The facts in the order they are read, each with its page id. */
  type Listing = seq<(string, Fact)>

  ghost predicate Lists(order: Listing, facts: Facts) {
    && (forall i, j :: 0 <= i < j < |order| ==> order[i].0 != order[j].0)
    && (forall i :: 0 <= i < |order| ==> order[i].0 in facts && facts[order[i].0] == order[i].1)
    && forall k :: k in facts ==> exists i :: 0 <= i < |order| && order[i].0 == k
  }

  function NewRows(order: Listing, ignored: string -> bool, existing: set<string>, force: bool,
                   evaluate: (string, Fact) -> Evaluation, now: int): seq<NewRow> {
    if order == [] then []
    else
      var (page, fact) := order[|order| - 1];
      NewRows(order[..|order| - 1], ignored, existing, force, evaluate, now) +
      if ignored(fact.url) || (!force && page in existing) then []
      else PageRows(page, evaluate(page, fact), now)
  }

  /** Pages already evaluated count as evaluated, ignored URLs as skipped. */
  function CountSkipped(order: Listing, ignored: string -> bool): nat {
    if order == [] then 0
    else CountSkipped(order[..|order| - 1], ignored) + if ignored(order[|order| - 1].1.url) then 1 else 0
  }

  /** Where the pages stand whose URL is ignored. */
  function IgnoredAt(order: Listing, ignored: string -> bool): set<int> {
    set i | 0 <= i < |order| && ignored(order[i].1.url)
  }

  /** What is counted as skipped are the pages whose URL is ignored, evaluated before or not. */
  lemma {:induction false} CountSkippedExactly(order: Listing, ignored: string -> bool)
    ensures CountSkipped(order, ignored) == |IgnoredAt(order, ignored)|
  {
    if order != [] {
      var front, n := order[..|order| - 1], |order| - 1;
      CountSkippedExactly(front, ignored);
      assert IgnoredAt(order, ignored) == IgnoredAt(front, ignored) + if ignored(order[n].1.url) then {n} else {} by {
        assert forall i :: 0 <= i < n ==> front[i] == order[i];
      }
      assert n !in IgnoredAt(front, ignored);
    }
  }

  function EvaluateStage(table: Table, order: Listing, ignored: string -> bool, force: bool,
                         evaluate: (string, Fact) -> Evaluation, now: int): Result<Table, DbError> {
    Batches(table, NewRows(order, ignored, PagesOf(table), force, evaluate, now), REPLACE)
  }

  /** The rules of a page have distinct ids. */
  ghost predicate OneResultPerRule(outcome: Evaluation) {
    outcome.Results? ==>
      forall i, j :: 0 <= i < j < |outcome.results| ==> outcome.results[i].rule != outcome.results[j].rule
  }

  ghost predicate Regular(evaluate: (string, Fact) -> Evaluation) {
    forall page, fact :: OneResultPerRule(evaluate(page, fact))
  }

  lemma {:induction false} NewRowsPages(order: Listing, ignored: string -> bool, existing: set<string>, force: bool,
                                        evaluate: (string, Fact) -> Evaluation, now: int)
    ensures forall r :: r in NewRows(order, ignored, existing, force, evaluate, now) ==>
                          exists i :: 0 <= i < |order| && order[i].0 == r.key.0
  {
    if order != [] {
      NewRowsPages(order[..|order| - 1], ignored, existing, force, evaluate, now);
      assert order[|order| - 1].0 == order[|order| - 1].0;
      var (page, fact) := order[|order| - 1];
      assert forall r :: r in PageRows(page, evaluate(page, fact), now) ==> r.key.0 == page;
    }
  }

  lemma {:induction false} NewRowsDistinct(order: Listing, ignored: string -> bool, existing: set<string>, force: bool,
                                           evaluate: (string, Fact) -> Evaluation, now: int)
    requires Regular(evaluate)
    requires forall i, j :: 0 <= i < j < |order| ==> order[i].0 != order[j].0
    ensures Distinct(NewRows(order, ignored, existing, force, evaluate, now))
  {
    if order != [] {
      var front, page, fact := order[..|order| - 1], order[|order| - 1].0, order[|order| - 1].1;
      NewRowsDistinct(front, ignored, existing, force, evaluate, now);
      NewRowsPages(front, ignored, existing, force, evaluate, now);
      var a, b := NewRows(front, ignored, existing, force, evaluate, now), PageRows(page, evaluate(page, fact), now);
      assert OneResultPerRule(evaluate(page, fact));
      forall i, j | 0 <= i < |a| && 0 <= j < |b| ensures a[i].key != b[j].key {
        assert a[i] in a && b[j].key.0 == page;
      }
    }
  }

  /** With one result per rule the bulk write goes through, and writes the rows one by one in order. */
  lemma EvaluateWrites(table: Table, order: Listing, facts: Facts, ignored: string -> bool, force: bool,
                       evaluate: (string, Fact) -> Evaluation, now: int)
    requires Regular(evaluate) && Lists(order, facts)
    ensures EvaluateStage(table, order, ignored, force, evaluate, now) ==
            Success(PutAll(table, NewRows(order, ignored, PagesOf(table), force, evaluate, now), REPLACE))
  {
    var rows := NewRows(order, ignored, PagesOf(table), force, evaluate, now);
    NewRowsDistinct(order, ignored, PagesOf(table), force, evaluate, now);
    DistinctBatches(rows);
    BatchesAreOneByOne(table, rows, REPLACE);
  }

  /**
   What an evaluation leaves: every result of every page evaluated, and every other row as it was.
   Ignored pages and, without `force`, pages that have rows are not evaluated.
   */
  lemma EvaluateStores(table: Table, order: Listing, facts: Facts, ignored: string -> bool, force: bool,
                       evaluate: (string, Fact) -> Evaluation, now: int, key: (string, string))
    requires Regular(evaluate) && Lists(order, facts)
    ensures var after := EvaluateStage(table, order, ignored, force, evaluate, now);
            var evaluated := key.0 in facts && !ignored(facts[key.0].url) && (force || key.0 !in PagesOf(table));
            && after.Success?
            && (evaluated ==> forall r :: r in PageRows(key.0, evaluate(key.0, facts[key.0]), now) && r.key == key ==>
                                            key in after.value && after.value[key] == r.value)
            && (!evaluated || (forall r :: r in PageRows(key.0, evaluate(key.0, facts[key.0]), now) ==> r.key != key) ==>
                  (key in after.value <==> key in table) && (key in table ==> after.value[key] == table[key]))
  {
    var rows := NewRows(order, ignored, PagesOf(table), force, evaluate, now);
    EvaluateWrites(table, order, facts, ignored, force, evaluate, now);
    NewRowsDistinct(order, ignored, PagesOf(table), force, evaluate, now);
    PutAllAt(table, rows, REPLACE, key);
    if key.0 in facts && !ignored(facts[key.0].url) && (force || key.0 !in PagesOf(table)) {
      var i :| 0 <= i < |order| && order[i].0 == key.0;
      NewRowsHold(order, ignored, PagesOf(table), force, evaluate, now, i);
      forall r | r in PageRows(key.0, evaluate(key.0, facts[key.0]), now) && r.key == key
        ensures Find(rows, key) == Some(r.value)
      {
        var j :| 0 <= j < |rows| && rows[j] == r;
        FindRow(rows, j);
      }
    }
    if Find(rows, key).Some? {
      FoundRow(rows, key);
      NewRowOrigin(order, ignored, PagesOf(table), force, evaluate, now, Row(key, Find(rows, key).value));
    }
  }

  /**
   In the words of the evaluation: for a page evaluated now, each rule's verdict is stored with the time of the
   run, a crash is stored as `evaluation_error` with its message, and no other row of the page is touched.
   */
  lemma EvaluateStoresVerdicts(table: Table, order: Listing, facts: Facts, ignored: string -> bool, force: bool,
                               evaluate: (string, Fact) -> Evaluation, now: int, page: string, rule: string)
    requires Regular(evaluate) && Lists(order, facts)
    requires page in facts && !ignored(facts[page].url) && (force || page !in PagesOf(table))
    ensures EvaluateStage(table, order, ignored, force, evaluate, now).Success?
    ensures var after, key := EvaluateStage(table, order, ignored, force, evaluate, now).value, (page, rule);
            var kept := (key in after <==> key in table) && (key in table ==> after[key] == table[key]);
            match evaluate(page, facts[page])
            case Results(results) =>
              && (forall r :: r in results && r.rule == rule ==> key in after && after[key] == Stored(r.verdict, now))
              && ((forall r :: r in results ==> r.rule != rule) ==> kept)
            case Crashed(message) =>
              if rule == "evaluation_error" then key in after && after[key] == Stored(message, now) else kept
  {
    var outcome := evaluate(page, facts[page]);
    var rows := PageRows(page, outcome, now);
    EvaluateStores(table, order, facts, ignored, force, evaluate, now, (page, rule));
    hide EvaluateStage, Lists, Regular, PagesOf;
    match outcome {
      case Results(results) =>
        forall r | r in results && r.rule == rule ensures Row((page, rule), Stored(r.verdict, now)) in rows {
          var i :| 0 <= i < |results| && results[i] == r;
          assert rows[i] == Row((page, rule), Stored(r.verdict, now));
        }
      case Crashed(message) =>
        assert rows == [Row((page, "evaluation_error"), Stored(message, now))];
    }
  }

  lemma {:induction false} NewRowsHold(order: Listing, ignored: string -> bool, existing: set<string>, force: bool,
                                       evaluate: (string, Fact) -> Evaluation, now: int, i: nat)
    requires i < |order| && !ignored(order[i].1.url) && (force || order[i].0 !in existing)
    ensures forall r :: r in PageRows(order[i].0, evaluate(order[i].0, order[i].1), now) ==>
                          r in NewRows(order, ignored, existing, force, evaluate, now)
  {
    if i < |order| - 1 {
      NewRowsHold(order[..|order| - 1], ignored, existing, force, evaluate, now, i);
    }
  }

  lemma {:induction false} NewRowOrigin(order: Listing, ignored: string -> bool, existing: set<string>, force: bool,
                                        evaluate: (string, Fact) -> Evaluation, now: int, r: NewRow)
    requires r in NewRows(order, ignored, existing, force, evaluate, now)
    ensures exists i :: && 0 <= i < |order| && order[i].0 == r.key.0 && !ignored(order[i].1.url) && (force || order[i].0 !in existing)
                        && r in PageRows(order[i].0, evaluate(order[i].0, order[i].1), now)
  {
    var front := order[..|order| - 1];
    if r in NewRows(front, ignored, existing, force, evaluate, now) {
      NewRowOrigin(front, ignored, existing, force, evaluate, now, r);
      var i :| && 0 <= i < |front| && front[i].0 == r.key.0 && !ignored(front[i].1.url) && (force || front[i].0 !in existing)
               && r in PageRows(front[i].0, evaluate(front[i].0, front[i].1), now);
      assert order[i].0 == r.key.0;
    } else {
      assert order[|front|].0 == r.key.0;
    }
  }

  lemma {:induction false} PutAllPages(table: Table, rows: seq<NewRow>)
    ensures forall k :: k in PutAll(table, rows, REPLACE) <==> k in table || exists r :: r in rows && r.key == k
  {
    if rows != [] {
      var front, last := rows[..|rows| - 1], rows[|rows| - 1];
      PutAllPages(table, front);
      assert rows == front + [last];
      assert last in rows;
      assert forall r :: r in rows <==> r in front || r == last;
    }
  }

  lemma {:induction false} EvaluatedPagesHaveRows(order: Listing, ignored: string -> bool, existing: set<string>, force: bool,
                                                  evaluate: (string, Fact) -> Evaluation, now: int, i: nat)
    requires i < |order| && !ignored(order[i].1.url) && (force || order[i].0 !in existing)
    requires PageRows(order[i].0, evaluate(order[i].0, order[i].1), now) != []
    ensures exists r :: r in NewRows(order, ignored, existing, force, evaluate, now) && r.key.0 == order[i].0
  {
    var front := order[..|order| - 1];
    if i == |front| {
      var rows := PageRows(order[i].0, evaluate(order[i].0, order[i].1), now);
      assert rows[0] in NewRows(order, ignored, existing, force, evaluate, now);
    } else {
      EvaluatedPagesHaveRows(front, ignored, existing, force, evaluate, now, i);
    }
  }

  lemma {:induction false} NothingToEvaluate(order: Listing, ignored: string -> bool, existing: set<string>,
                                             evaluate: (string, Fact) -> Evaluation, now: int)
    requires forall i :: 0 <= i < |order| ==>
               ignored(order[i].1.url) || order[i].0 in existing || PageRows(order[i].0, evaluate(order[i].0, order[i].1), now) == []
    ensures NewRows(order, ignored, existing, false, evaluate, now) == []
  {
    if order != [] {
      assert order[|order| - 1].0 == order[|order| - 1].0;
      NothingToEvaluate(order[..|order| - 1], ignored, existing, evaluate, now);
    }
  }

  /** Evaluating again without `force`, in any order of the facts, writes nothing. */
  lemma EvaluateReplay(table: Table, facts: Facts, order: Listing, again: Listing, ignored: string -> bool, force: bool,
                       evaluate: (string, Fact) -> Evaluation, now: int, later: int)
    requires Regular(evaluate) && Lists(order, facts) && Lists(again, facts)
    ensures var once := EvaluateStage(table, order, ignored, force, evaluate, now);
            once.Success? && EvaluateStage(once.value, again, ignored, false, evaluate, later) == once
  {
    EvaluateWrites(table, order, facts, ignored, force, evaluate, now);
    var rows := NewRows(order, ignored, PagesOf(table), force, evaluate, now);
    var once := PutAll(table, rows, REPLACE);
    PutAllPages(table, rows);
    forall j | 0 <= j < |again|
      ensures ignored(again[j].1.url) || again[j].0 in PagesOf(once)
              || PageRows(again[j].0, evaluate(again[j].0, again[j].1), later) == []
    {
      var (page, fact) := again[j];
      if !ignored(fact.url) && PageRows(page, evaluate(page, fact), later) != [] {
        PageIsDone(table, facts, order, ignored, force, evaluate, now, page, fact, rows, once);
      }
    }
    NothingToEvaluate(again, ignored, PagesOf(once), evaluate, later);
  }

  lemma PageIsDone(table: Table, facts: Facts, order: Listing, ignored: string -> bool, force: bool,
                   evaluate: (string, Fact) -> Evaluation, now: int, page: string, fact: Fact, rows: seq<NewRow>, once: Table)
    requires Lists(order, facts) && page in facts && facts[page] == fact && !ignored(fact.url)
    requires PageRows(page, evaluate(page, fact), now) != []
    requires rows == NewRows(order, ignored, PagesOf(table), force, evaluate, now)
    requires forall k :: k in once <==> k in table || exists r :: r in rows && r.key == k
    ensures page in PagesOf(once)
  {
    if !force && page in PagesOf(table) {
      var k :| k in table && k.0 == page;
      assert k in once;
    } else {
      var i :| 0 <= i < |order| && order[i].0 == page;
      EvaluatedPagesHaveRows(order, ignored, PagesOf(table), force, evaluate, now, i);
      var r :| r in rows && r.key.0 == page;
      assert r.key in once;
    }
  }

  // ------------------------------------------------------------- the whole pipeline

  /** What stays the same from run to run of one audit. */
  datatype Audit = Audit(pages: seq<Page>, parse: Page -> Outcome, ignored: string -> bool, evaluate: (string, Fact) -> Evaluation)

  /** Clock readings of one run of both stages. */
  datatype Times = Times(parse: int, evaluate: int)

  class AuditStages {
    const audit: Audit
    var facts: Facts
    var table: Table

    constructor (audit: Audit)
      ensures this.audit == audit && facts == map[] && table == map[]
    {
      this.audit, facts, table := audit, map[], map[];
    }

    method ParseCrawl(force: bool, now: int) returns (summary: Summary)
      modifies this`facts
      ensures facts == ParseStage(old(facts), audit.pages, force, audit.parse, now)
      ensures summary == ParseSummary(old(facts), audit.pages, force, audit.parse)
    {
      var todo := Successful(audit.pages);
      if todo == [] {
        return Summary(0, 0, |audit.pages|);
      }
      var existing := facts.Keys;
      var parsed, failed, skipped := 0, 0, 0;
      for i := 0 to |todo|
        invariant facts == ParseAll(old(facts), todo[..i], existing, force, audit.parse, now)
        invariant Summary(parsed, failed, skipped) == CountAll(todo[..i], existing, force, audit.parse)
      {
        var page := todo[i];
        assert todo[..i + 1][..i] == todo[..i];
        if !force && page.id in existing {
          skipped := skipped + 1;
          continue;
        }
        match audit.parse(page) {
          case Parsed(url, data) =>
            facts := facts[page.id := Fact(url, data, now)];
            parsed := parsed + 1;
          case _ =>
            failed := failed + 1;
        }
      }
      assert todo[..|todo|] == todo;
      summary := Summary(parsed, failed, skipped);
    }

    method EvaluatePages(order: Listing, existing: set<string>, force: bool, now: int)
      returns (rows: seq<NewRow>, evaluated: nat, skipped: nat)
      ensures rows == NewRows(order, audit.ignored, existing, force, audit.evaluate, now)
      ensures evaluated + skipped == |order| && skipped == CountSkipped(order, audit.ignored)
    {
      rows, evaluated, skipped := [], 0, 0;
      for i := 0 to |order|
        invariant rows == NewRows(order[..i], audit.ignored, existing, force, audit.evaluate, now)
        invariant evaluated + skipped == i && skipped == CountSkipped(order[..i], audit.ignored)
      {
        assert order[..i + 1][..i] == order[..i];
        var page, fact := order[i].0, order[i].1;
        if audit.ignored(fact.url) {
          skipped := skipped + 1;
          continue;
        }
        evaluated := evaluated + 1;
        if force || page !in existing {
          rows := rows + PageRows(page, audit.evaluate(page, fact), now);
        }
      }
      assert order[..|order|] == order;
    }

    /** Nothing is written when the bulk write fails. */
    method EvaluateCrawl(order: Listing, force: bool, now: int) returns (ok: bool, evaluated: nat, skipped: nat, total: nat)
      requires Lists(order, facts)
      modifies this`table
      ensures var after := EvaluateStage(old(table), order, audit.ignored, force, audit.evaluate, now);
              && ok == after.Success?
              && table == if ok then after.value else old(table)
      ensures evaluated + skipped == |order| == |facts|
      ensures skipped == CountSkipped(order, audit.ignored)
      ensures total == |NewRows(order, audit.ignored, PagesOf(old(table)), force, audit.evaluate, now)|
    {
      ListsAll(order, facts);
      var rows: seq<NewRow>;
      rows, evaluated, skipped := EvaluatePages(order, PagesOf(table), force, now);
      total := |rows|;
      hide NewRows, Lists, PagesOf;
      var result := UpsertInBatches(table, rows, REPLACE);
      ok := result.Success?;
      if ok {
        table := result.value;
      }
    }

    /**
     A run of both stages, and then any number of unforced runs: the tables stay exactly as the first
     run left them, timestamps included.
     */
    method RunStages(order: Listing, force: bool, times: Times, reruns: seq<(Listing, Times)>)
      requires Regular(audit.evaluate)
      requires Lists(order, ParseStage(facts, audit.pages, force, audit.parse, times.parse))
      requires forall r :: r in reruns ==> Lists(r.0, ParseStage(facts, audit.pages, force, audit.parse, times.parse))
      modifies this
      ensures facts == ParseStage(old(facts), audit.pages, force, audit.parse, times.parse)
      ensures EvaluateStage(old(table), order, audit.ignored, force, audit.evaluate, times.evaluate) == Success(table)
    {
      ghost var facts0, table0 := facts, table;
      var summary := ParseCrawl(force, times.parse);
      ghost var facts1 := facts;
      EvaluateWrites(table0, order, facts1, audit.ignored, force, audit.evaluate, times.evaluate);
      var ok, evaluated, skipped, total := EvaluateCrawl(order, force, times.evaluate);
      ghost var table1 := table;
      for i := 0 to |reruns|
        invariant facts == facts1 && table == table1
      {
        var rerun := reruns[i];
        assert rerun in reruns;
        ParseReplay(facts0, audit.pages, force, audit.parse, times.parse, rerun.1.parse);
        EvaluateReplay(table0, facts1, order, rerun.0, audit.ignored, force, audit.evaluate, times.evaluate, rerun.1.evaluate);
        summary := ParseCrawl(false, rerun.1.parse);
        ok, evaluated, skipped, total := EvaluateCrawl(rerun.0, false, rerun.1.evaluate);
      }
    }
  }

  lemma ListsAll(order: Listing, facts: Facts)
    requires Lists(order, facts)
    ensures |order| == |facts|
  {
    var keys := set i | 0 <= i < |order| :: order[i].0;
    assert keys == facts.Keys;
    DistinctSize(order, keys);
  }

  lemma {:induction false} DistinctSize(order: Listing, keys: set<string>)
    requires forall i, j :: 0 <= i < j < |order| ==> order[i].0 != order[j].0
    requires keys == set i | 0 <= i < |order| :: order[i].0
    ensures |keys| == |order|
  {
    if order != [] {
      var front, last := order[..|order| - 1], order[|order| - 1].0;
      var rest := set i | 0 <= i < |front| :: front[i].0;
      forall k | k in keys ensures k in rest + {last} {
        var i :| 0 <= i < |order| && order[i].0 == k;
        if i < |front| {
          assert front[i].0 == k;
        }
      }
      forall k | k in rest ensures k in keys && k != last {
        var i :| 0 <= i < |front| && front[i].0 == k;
        assert order[i].0 == k;
      }
      assert order[|front|].0 == last;
      assert keys == rest + {last};
      DistinctSize(front, rest);
    }
  }
}
