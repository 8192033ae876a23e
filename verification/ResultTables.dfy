/**
 The two audit repositories over Upserts: rule results, whose bulk and single upserts treat a
 conflicting row differently, and parsed facts, whose bulk upsert leaves out rows without data.
 */
module ResultTables {
  import opened Basics
  import opened Upserts

  // ------------------------------------------------------------- rule_evaluation_results

  /** Keyed by (audit, page, rule). */
  type RuleKey = (string, string, string)

  datatype Evaluation = Evaluation(id: string, name: string, category: string, verdict: string, evaluatedAt: int)

  /** The bulk statement's conflict clause sets every column but the id. */
  const BULK_UPDATE: (Evaluation, Evaluation) -> Evaluation :=
    (old_: Evaluation, new_: Evaluation) => new_.(id := old_.id)

  /** The single upsert also leaves the rule's name and category as they were. */
  const SINGLE_UPDATE: (Evaluation, Evaluation) -> Evaluation :=
    (old_: Evaluation, new_: Evaluation) => new_.(id := old_.id, name := old_.name, category := old_.category)

  type RuleTable = map<RuleKey, Evaluation>

  method UpsertOne(table: RuleTable, row: Row<RuleKey, Evaluation>) returns (after: RuleTable)
    ensures after == Put(table, row, SINGLE_UPDATE)
  {
    if row.key in table {
      var existing := table[row.key].(verdict := row.value.verdict, evaluatedAt := row.value.evaluatedAt);
      after := table[row.key := existing];
    } else {
      after := table[row.key := row.value];
    }
  }

  /** Returns the number of rows processed. */
  method BulkUpsert(table: RuleTable, rows: seq<Row<RuleKey, Evaluation>>) returns (after: Result<RuleTable, DbError>, processed: nat)
    ensures after == if BatchesDistinct(rows) then Success(PutAll(table, rows, BULK_UPDATE)) else Failure(SameRowTwice)
    ensures after.Success? ==> processed == |rows|
  {
    BatchesAreOneByOne(table, rows, BULK_UPDATE);
    after := UpsertInBatches(table, rows, BULK_UPDATE);
    processed := |rows|;
  }

  /** A rule already stored for this page under another name or category. */
  predicate Renames(table: RuleTable, row: Row<RuleKey, Evaluation>) {
    row.key in table && !(table[row.key].name == row.value.name && table[row.key].category == row.value.category)
  }

  /**
   Writing distinct rows in bulk and one at a time gives the same table exactly when no row renames
   or recategorises a rule already stored.
   */
  lemma BulkEqualsSingleExactly(table: RuleTable, rows: seq<Row<RuleKey, Evaluation>>)
    requires Distinct(rows)
    ensures PutAll(table, rows, BULK_UPDATE) == PutAll(table, rows, SINGLE_UPDATE) <==>
            forall r :: r in rows ==> !Renames(table, r)
  {
    var bulk, single := PutAll(table, rows, BULK_UPDATE), PutAll(table, rows, SINGLE_UPDATE);
    forall r | r in rows ensures r.key in bulk && r.key in single && (bulk[r.key] == single[r.key] <==> !Renames(table, r)) {
      var i :| 0 <= i < |rows| && rows[i] == r;
      FindRow(rows, i);
      PutAllAt(table, rows, BULK_UPDATE, r.key);
      PutAllAt(table, rows, SINGLE_UPDATE, r.key);
    }
    if forall r :: r in rows ==> !Renames(table, r) {
      forall key ensures key in bulk <==> key in single
                 ensures key in bulk ==> bulk[key] == single[key]
      {
        PutAllAt(table, rows, BULK_UPDATE, key);
        PutAllAt(table, rows, SINGLE_UPDATE, key);
        FoundRow(rows, key);
      }
    }
  }

  // ------------------------------------------------------------- parsed_page_facts

  /** Keyed by (audit, page). */
  type FactKey = (string, string)

  datatype ParsedFact = ParsedFact(id: string, parsedData: Option<string>, rest: string)

  type FactRow = Row<FactKey, ParsedFact>

  const FACT_UPDATE: (ParsedFact, ParsedFact) -> ParsedFact :=
    (old_: ParsedFact, new_: ParsedFact) => new_.(id := old_.id)

  /** The rows the bulk upsert sends. */
  function WithData(rows: seq<FactRow>): seq<FactRow> {
    if rows == [] then []
    else WithData(rows[..|rows| - 1]) + if rows[|rows| - 1].value.parsedData.Some? then [rows[|rows| - 1]] else []
  }

  lemma {:induction false} WithDataSplit(a: seq<FactRow>, b: seq<FactRow>)
    ensures WithData(a + b) == WithData(a) + WithData(b)
  {
    if b == [] {
      assert a + b == a;
    } else {
      assert (a + b)[..|a + b| - 1] == a + b[..|b| - 1];
      WithDataSplit(a, b[..|b| - 1]);
    }
  }

  lemma {:induction false} WithDataDistinct(rows: seq<FactRow>)
    requires Distinct(rows)
    ensures Distinct(WithData(rows))
    ensures forall r :: r in WithData(rows) <==> r in rows && r.value.parsedData.Some?
  {
    if rows != [] {
      var front, last := rows[..|rows| - 1], rows[|rows| - 1];
      WithDataDistinct(front);
      assert rows == front + [last];
      forall i | 0 <= i < |WithData(front)| ensures WithData(front)[i].key != last.key {
        assert WithData(front)[i] in front;
      }
    }
  }

  /** A fact with data is sent, in its place; one without is not. */
  lemma FactSent(before: seq<FactRow>, row: FactRow, after: seq<FactRow>)
    ensures WithData(before + [row] + after) ==
            WithData(before) + (if row.value.parsedData != None then [row] else []) + WithData(after)
  {
    WithDataSplit(before + [row], after);
    WithDataSplit(before, [row]);
    assert [row][..0] == [];
  }

  /**
   What writing facts of different pages leaves: a page given data holds the new row under the id it had, or
   under the row's own if it had none; every other page holds what it held.
   */
  lemma FactsStored(table: map<FactKey, ParsedFact>, facts: seq<FactRow>, key: FactKey)
    requires Distinct(facts)
    ensures var after := PutAll(table, WithData(facts), FACT_UPDATE);
            && (forall r :: r in facts && r.key == key && r.value.parsedData.Some? ==>
                  key in after && after[key] == ParsedFact(if key in table then table[key].id else r.value.id,
                                                           r.value.parsedData, r.value.rest))
            && ((forall r :: r in facts && r.key == key ==> r.value.parsedData.None?) ==>
                  (key in after <==> key in table) && (key in table ==> after[key] == table[key]))
  {
    var rows := WithData(facts);
    WithDataDistinct(facts);
    PutAllAt(table, rows, FACT_UPDATE, key);
    FoundRow(rows, key);
    forall r | r in facts && r.key == key && r.value.parsedData.Some? ensures Find(rows, key) == Some(r.value) {
      var i :| 0 <= i < |rows| && rows[i] == r;
      FindRow(rows, i);
    }
  }

  /** What writing results of different rules in bulk leaves: each holds the new row under the id it had, if it had one. */
  lemma BulkStored(table: RuleTable, rows: seq<Row<RuleKey, Evaluation>>, key: RuleKey)
    requires Distinct(rows)
    ensures var after := PutAll(table, rows, BULK_UPDATE);
            && (forall r :: r in rows && r.key == key ==>
                  key in after && after[key] == Evaluation(if key in table then table[key].id else r.value.id, r.value.name,
                                                           r.value.category, r.value.verdict, r.value.evaluatedAt))
            && ((forall r :: r in rows ==> r.key != key) ==> (key in after <==> key in table) && (key in table ==> after[key] == table[key]))
  {
    PutAllAt(table, rows, BULK_UPDATE, key);
    FoundRow(rows, key);
    forall r | r in rows && r.key == key ensures Find(rows, key) == Some(r.value) {
      var i :| 0 <= i < |rows| && rows[i] == r;
      FindRow(rows, i);
    }
  }

  /** Not two rows with data under one key. */
  predicate Apart(a: FactRow, b: FactRow) {
    a.value.parsedData.Some? && b.value.parsedData.Some? ==> a.key != b.key
  }

  ghost predicate AllApart(facts: seq<FactRow>) {
    forall i, j :: 0 <= i < j < |facts| ==> Apart(facts[i], facts[j])
  }

  lemma AllApartGrows(facts: seq<FactRow>, last: FactRow)
    ensures AllApart(facts + [last]) <==> AllApart(facts) && forall r :: r in facts ==> Apart(r, last)
  {
    var all := facts + [last];
    if AllApart(all) {
      forall i, j | 0 <= i < j < |facts| ensures Apart(facts[i], facts[j]) {
        assert Apart(all[i], all[j]);
      }
      forall r | r in facts ensures Apart(r, last) {
        var i :| 0 <= i < |facts| && facts[i] == r;
        assert Apart(all[i], all[|facts|]);
      }
    }
  }

  lemma DistinctGrows(rows: seq<FactRow>, last: FactRow)
    ensures Distinct(rows + [last]) <==> Distinct(rows) && forall r :: r in rows ==> r.key != last.key
  {
    var all := rows + [last];
    assert forall i :: 0 <= i < |rows| ==> all[i] == rows[i];
    if Distinct(all) {
      forall i, j | 0 <= i < j < |rows| ensures rows[i].key != rows[j].key {
        assert all[i].key != all[j].key;
      }
      forall r | r in rows ensures r.key != last.key {
        var i :| 0 <= i < |rows| && rows[i] == r;
        assert all[i].key != all[|rows|].key;
      }
    }
    if Distinct(rows) && forall r :: r in rows ==> r.key != last.key {
      forall i, j | 0 <= i < j < |all| ensures all[i].key != all[j].key {
        if j == |rows| {
          assert rows[i] in rows;
        } else {
          assert rows[i].key != rows[j].key;
        }
      }
    }
  }

  lemma {:induction false} DataApart(facts: seq<FactRow>)
    ensures Distinct(WithData(facts)) <==> AllApart(facts)
    ensures forall r :: r in WithData(facts) <==> r in facts && r.value.parsedData.Some?
  {
    if facts != [] {
      var front, last := facts[..|facts| - 1], facts[|facts| - 1];
      assert facts == front + [last];
      DataApart(front);
      AllApartGrows(front, last);
      DistinctGrows(WithData(front), last);
      hide Distinct, AllApart;
      var rows := WithData(front);
      if last.value.parsedData.Some? {
        assert WithData(facts) == rows + [last];
        assert (forall r :: r in rows ==> r.key != last.key) <==> forall r :: r in front ==> Apart(r, last);
      } else {
        assert WithData(facts) == rows;
        assert forall r :: r in front ==> Apart(r, last);
      }
    }
  }

  /** Among rows whose numbers fall into one batch of 500, no page is given data twice. */
  ghost predicate ApartWithin500(facts: seq<FactRow>) {
    forall i, j :: 0 <= i < j < |facts| && i / 500 == j / 500 ==> Apart(facts[i], facts[j])
  }

  lemma ApartInBatches(facts: seq<FactRow>)
    requires facts != []
    ensures var n := Min(BATCH_SIZE, |facts|);
            ApartWithin500(facts) <==> AllApart(facts[..n]) && ApartWithin500(facts[n..])
  {
    hide Apart;
    var n := Min(BATCH_SIZE, |facts|);
    var first, rest := facts[..n], facts[n..];
    if ApartWithin500(facts) {
      forall i, j | 0 <= i < j < |rest| && i / 500 == j / 500 ensures Apart(rest[i], rest[j]) {
        assert (i + 500) / 500 == (j + 500) / 500 && Apart(facts[i + 500], facts[j + 500]);
      }
      forall i, j | 0 <= i < j < |first| ensures Apart(first[i], first[j]) {
        assert i / 500 == j / 500 && Apart(facts[i], facts[j]);
      }
    }
    if AllApart(first) && ApartWithin500(rest) {
      forall i, j | 0 <= i < j < |facts| && i / 500 == j / 500 ensures Apart(facts[i], facts[j]) {
        if i < n {
          assert Apart(first[i], first[j]);
        } else {
          assert (i - n) / 500 == (j - n) / 500 && Apart(rest[i - n], rest[j - n]);
        }
      }
    }
  }

  /** The bulk write of facts goes through exactly when no batch of 500 gives a page data twice. */
  lemma {:induction false} FactBatchesExactly(facts: seq<FactRow>)
    ensures FactBatchesDistinct(facts) <==> ApartWithin500(facts)
    decreases |facts|
  {
    if facts != [] {
      ApartInBatches(facts);
      DataApart(facts[..Min(BATCH_SIZE, |facts|)]);
      FactBatchesExactly(facts[Min(BATCH_SIZE, |facts|)..]);
      hide Distinct, AllApart, ApartWithin500, WithData;
    }
  }

  /** No batch of the raw list holds two rows with data under one key. */
  predicate FactBatchesDistinct(facts: seq<FactRow>)
    decreases |facts|
  {
    facts == [] ||
    (Distinct(WithData(facts[..Min(BATCH_SIZE, |facts|)])) && FactBatchesDistinct(facts[Min(BATCH_SIZE, |facts|)..]))
  }

  lemma {:induction false} DistinctFactBatches(facts: seq<FactRow>)
    requires Distinct(facts)
    ensures FactBatchesDistinct(facts)
    decreases |facts|
  {
    if facts != [] {
      WithDataDistinct(facts[..Min(BATCH_SIZE, |facts|)]);
      DistinctFactBatches(facts[Min(BATCH_SIZE, |facts|)..]);
    }
  }

  /** One batch: a statement of its rows with data, if there are any. */
  method WriteFacts(table: map<FactKey, ParsedFact>, batch: seq<FactRow>)
    returns (after: Result<map<FactKey, ParsedFact>, DbError>, written: nat)
    ensures after == if Distinct(WithData(batch)) then Success(PutAll(table, WithData(batch), FACT_UPDATE)) else Failure(SameRowTwice)
    ensures written == |WithData(batch)|
  {
    var rows := WithData(batch);
    written := |rows|;
    if rows == [] {
      return Success(table), written;
    }
    if Distinct(rows) {
      StatementIsOneByOne(table, rows, FACT_UPDATE);
    }
    after := Statement(table, rows, FACT_UPDATE);
  }

  lemma NextBatch(table: map<FactKey, ParsedFact>, facts: seq<FactRow>, start: nat, end: nat)
    requires start <= end <= |facts|
    ensures WithData(facts[..end]) == WithData(facts[..start]) + WithData(facts[start..end])
    ensures PutAll(table, WithData(facts[..end]), FACT_UPDATE) ==
            PutAll(PutAll(table, WithData(facts[..start]), FACT_UPDATE), WithData(facts[start..end]), FACT_UPDATE)
  {
    assert facts[..end] == facts[..start] + facts[start..end];
    WithDataSplit(facts[..start], facts[start..end]);
    PutAllSplit(table, WithData(facts[..start]), WithData(facts[start..end]), FACT_UPDATE);
  }

  /**
   The bulk upsert of facts: rows are batched first and filtered within each batch.  It writes the rows
   with data, in order, and returns how many they are; it fails exactly when a batch repeats a key.
   */
  method BulkUpsertFacts(table: map<FactKey, ParsedFact>, facts: seq<FactRow>)
    returns (after: Result<map<FactKey, ParsedFact>, DbError>, processed: nat)
    ensures after == if FactBatchesDistinct(facts) then Success(PutAll(table, WithData(facts), FACT_UPDATE)) else Failure(SameRowTwice)
    ensures after.Success? ==> processed == |WithData(facts)|
  {
    var current, start := table, 0;
    processed := 0;
    assert facts[0..] == facts && facts[..0] == [];
    assert WithData(facts[..0]) == [] && PutAll(table, [], FACT_UPDATE) == table;
    hide PutAll, Distinct, WithData;
    while start < |facts|
      invariant 0 <= start
      invariant FactBatchesDistinct(facts) <==> FactBatchesDistinct(facts[Min(start, |facts|)..])
      invariant PutAll(table, WithData(facts[..Min(start, |facts|)]), FACT_UPDATE) == current
      invariant processed == |WithData(facts[..Min(start, |facts|)])|
    {
      ghost var rest := facts[start..];
      var end := Min(start + BATCH_SIZE, |facts|);
      var batch := facts[start..end];
      assert rest[..Min(BATCH_SIZE, |rest|)] == batch && rest[Min(BATCH_SIZE, |rest|)..] == facts[end..];
      var after', written := WriteFacts(current, batch);
      if after'.Failure? {
        return after', processed;
      }
      NextBatch(table, facts, start, end);
      current, processed := after'.value, processed + written;
      start := start + BATCH_SIZE;
    }
    assert facts[..|facts|] == facts;
    after := Success(current);
  }
}
