/**
 Bulk upserts: `INSERT ... ON CONFLICT DO UPDATE` statements of at most 500 rows each, compared with
 writing the rows one by one.  A table is a map on its unique constraint; `update(old, new)` is the
 row a conflict leaves behind.
 */
module Upserts {
  import opened Basics

  datatype Row<K, V> = Row(key: K, value: V)

  datatype DbError = SameRowTwice

  const BATCH_SIZE := 500

  // ------------------------------------------------------------- one by one

  function Put<K(==), V>(table: map<K, V>, row: Row<K, V>, update: (V, V) -> V): map<K, V> {
    table[row.key := if row.key in table then update(table[row.key], row.value) else row.value]
  }

  function PutAll<K(==), V>(table: map<K, V>, rows: seq<Row<K, V>>, update: (V, V) -> V): map<K, V> {
    if rows == [] then table else Put(PutAll(table, rows[..|rows| - 1], update), rows[|rows| - 1], update)
  }

  lemma {:induction false} PutAllSplit<K, V>(table: map<K, V>, a: seq<Row<K, V>>, b: seq<Row<K, V>>, update: (V, V) -> V)
    ensures PutAll(table, a + b, update) == PutAll(PutAll(table, a, update), b, update)
  {
    if b == [] {
      assert a + b == a;
    } else {
      assert (a + b)[..|a + b| - 1] == a + b[..|b| - 1];
      PutAllSplit(table, a, b[..|b| - 1], update);
    }
  }

  // ------------------------------------------------------------- one statement

  predicate Distinct<K(==), V(==)>(rows: seq<Row<K, V>>) {
    forall i, j :: 0 <= i < j < |rows| ==> rows[i].key != rows[j].key
  }

  /** The last value given for a key. */
  function Find<K(==), V>(rows: seq<Row<K, V>>, key: K): Option<V> {
    if rows == [] then None
    else if rows[|rows| - 1].key == key then Some(rows[|rows| - 1].value)
    else Find(rows[..|rows| - 1], key)
  }

  function Keys<K(==), V>(rows: seq<Row<K, V>>): set<K> {
    set i | 0 <= i < |rows| :: rows[i].key
  }

  lemma {:induction false} FindExactly<K, V>(rows: seq<Row<K, V>>, key: K)
    ensures Find(rows, key).Some? <==> key in Keys(rows)
  {
    if rows != [] {
      FindExactly(rows[..|rows| - 1], key);
      assert rows == rows[..|rows| - 1] + [rows[|rows| - 1]];
    }
  }

  /** Every row of a statement is compared with the table as it was before the statement. */
  function Effect<K(==), V>(table: map<K, V>, rows: seq<Row<K, V>>, update: (V, V) -> V): map<K, V> {
    map key | key in table.Keys + Keys(rows) ::
      match Find(rows, key)
      case Some(value) => if key in table then update(table[key], value) else value
      case None => FindExactly(rows, key); table[key]
  }

  /** A statement may not touch a row twice. */
  function Statement<K(==), V(==)>(table: map<K, V>, rows: seq<Row<K, V>>, update: (V, V) -> V): Result<map<K, V>, DbError> {
    if Distinct(rows) then Success(Effect(table, rows, update)) else Failure(SameRowTwice)
  }

  /** What one-by-one writes of distinct rows leave under a key. */
  lemma {:induction false} PutAllAt<K, V>(table: map<K, V>, rows: seq<Row<K, V>>, update: (V, V) -> V, key: K)
    requires Distinct(rows)
    ensures Find(rows, key) == None ==> (key in PutAll(table, rows, update) <==> key in table)
    ensures Find(rows, key) == None && key in table ==> PutAll(table, rows, update)[key] == table[key]
    ensures Find(rows, key).Some? ==>
              && key in PutAll(table, rows, update)
              && PutAll(table, rows, update)[key] ==
                 if key in table then update(table[key], Find(rows, key).value) else Find(rows, key).value
  {
    if rows != [] {
      PutAllAt(table, rows[..|rows| - 1], update, key);
      FindExactly(rows[..|rows| - 1], key);
    }
  }

  lemma {:induction false} FindRow<K, V>(rows: seq<Row<K, V>>, i: nat)
    requires Distinct(rows) && i < |rows|
    ensures Find(rows, rows[i].key) == Some(rows[i].value)
  {
    if i < |rows| - 1 {
      FindRow(rows[..|rows| - 1], i);
    }
  }

  lemma {:induction false} FoundRow<K, V>(rows: seq<Row<K, V>>, key: K)
    ensures Find(rows, key).Some? ==> Row(key, Find(rows, key).value) in rows
  {
    if rows != [] {
      FoundRow(rows[..|rows| - 1], key);
    }
  }

  /** Touching each row once, a statement writes what one-by-one writes in order would. */
  lemma StatementIsOneByOne<K, V>(table: map<K, V>, rows: seq<Row<K, V>>, update: (V, V) -> V)
    requires Distinct(rows)
    ensures Effect(table, rows, update) == PutAll(table, rows, update)
  {
    forall key ensures key in Effect(table, rows, update) <==> key in PutAll(table, rows, update)
               ensures key in Effect(table, rows, update) ==>
                         Effect(table, rows, update)[key] == PutAll(table, rows, update)[key]
    {
      FindExactly(rows, key);
      PutAllAt(table, rows, update, key);
    }
  }

  // ------------------------------------------------------------- batches

  function Min(a: nat, b: nat): nat { if a < b then a else b }

  function Batches<K(==), V(==)>(table: map<K, V>, rows: seq<Row<K, V>>, update: (V, V) -> V): Result<map<K, V>, DbError>
    decreases |rows|
  {
    if rows == [] then Success(table)
    else
      var n := Min(BATCH_SIZE, |rows|);
      match Statement(table, rows[..n], update)
      case Failure(error) => Failure(error)
      case Success(next) => Batches(next, rows[n..], update)
  }

  /** No batch holds a key twice. */
  predicate BatchesDistinct<K(==), V(==)>(rows: seq<Row<K, V>>)
    decreases |rows|
  {
    rows == [] || (Distinct(rows[..Min(BATCH_SIZE, |rows|)]) && BatchesDistinct(rows[Min(BATCH_SIZE, |rows|)..]))
  }

  /**
   A bulk upsert goes through exactly when no batch holds a key twice, and then it leaves the table
   that writing the rows one by one, in order, would.
   */
  lemma {:induction false} BatchesAreOneByOne<K, V>(table: map<K, V>, rows: seq<Row<K, V>>, update: (V, V) -> V)
    ensures Batches(table, rows, update) ==
            if BatchesDistinct(rows) then Success(PutAll(table, rows, update)) else Failure(SameRowTwice)
    decreases |rows|
  {
    if rows != [] {
      var n := Min(BATCH_SIZE, |rows|);
      if Distinct(rows[..n]) {
        StatementIsOneByOne(table, rows[..n], update);
        BatchesAreOneByOne(Effect(table, rows[..n], update), rows[n..], update);
        PutAllSplit(table, rows[..n], rows[n..], update);
        assert rows[..n] + rows[n..] == rows;
      }
    }
  }

  lemma {:induction false} DistinctBatches<K, V>(rows: seq<Row<K, V>>)
    requires Distinct(rows)
    ensures BatchesDistinct(rows)
    decreases |rows|
  {
    if rows != [] {
      DistinctBatches(rows[Min(BATCH_SIZE, |rows|)..]);
    }
  }

  /** Rows whose numbers fall into one batch of 500 have different keys. */
  ghost predicate DistinctWithin500<K(!new), V(!new)>(rows: seq<Row<K, V>>) {
    forall i, j :: 0 <= i < j < |rows| && i / 500 == j / 500 ==> rows[i].key != rows[j].key
  }

  /** Which rows share a statement: those whose numbers agree up to 500. */
  lemma {:induction false} BatchesDistinctExactly<K(!new), V(!new)>(rows: seq<Row<K, V>>)
    ensures BatchesDistinct(rows) <==> DistinctWithin500(rows)
    decreases |rows|
  {
    if rows != [] {
      var n := Min(BATCH_SIZE, |rows|);
      var first, rest := rows[..n], rows[n..];
      BatchesDistinctExactly(rest);
      if DistinctWithin500(rows) {
        forall i, j | 0 <= i < j < |rest| && i / 500 == j / 500 ensures rest[i].key != rest[j].key {
          assert rest[i] == rows[i + 500] && rest[j] == rows[j + 500] && (i + 500) / 500 == (j + 500) / 500;
        }
        forall i, j | 0 <= i < j < |first| ensures first[i].key != first[j].key {
          assert i / 500 == 0 && j / 500 == 0;
          assert rows[i].key != rows[j].key;
        }
      }
      if Distinct(first) && DistinctWithin500(rest) {
        forall i, j | 0 <= i < j < |rows| && i / 500 == j / 500 ensures rows[i].key != rows[j].key {
          if i < n {
            assert j < n && first[i] == rows[i] && first[j] == rows[j];
          } else {
            assert rest[i - n] == rows[i] && rest[j - n] == rows[j] && (i - n) / 500 == (j - n) / 500;
          }
        }
      }
    }
  }

  /** The loop `for start in range(0, len(rows), BATCH_SIZE)`. */
  method UpsertInBatches<K(==), V(==)>(table: map<K, V>, rows: seq<Row<K, V>>, update: (V, V) -> V)
    returns (result: Result<map<K, V>, DbError>)
    ensures result == Batches(table, rows, update)
  {
    var current, start := table, 0;
    assert rows[0..] == rows;
    while start < |rows|
      invariant 0 <= start
      invariant Batches(table, rows, update) == Batches(current, rows[Min(start, |rows|)..], update)
    {
      var rest := rows[start..];
      var batch := rest[..Min(BATCH_SIZE, |rest|)];
      assert batch == rows[start..start + |batch|];
      assert rest[|batch|..] == rows[Min(start + BATCH_SIZE, |rows|)..];
      match Statement(current, batch, update) {
        case Failure(error) => return Failure(error);
        case Success(next) => current := next;
      }
      start := start + BATCH_SIZE;
    }
    result := Success(current);
  }
}
