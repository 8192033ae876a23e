/**
 `CrawlPersistenceService`: four write buffers over the tables of a crawl, flushed when they reach
 `flush_every`.  As long as no statement has failed, what was written plus what is still buffered is
 exactly what was submitted.
 */
module CrawlPersistence {
  import opened Basics
  import opened Upserts

  /** A page's network or SEO row; the table keeps one per page. */
  type PageRow = Row<string, string>

  /** An element of a page's resource or link list; what is not a dict is skipped. */
  datatype Item = Dict(fields: string) | Other

  datatype Record = Record(page: string, fields: string)

  /** `_build_resource_objects` and `_build_link_objects`. */
  function Build(page: string, items: seq<Item>): seq<Record> {
    if items == [] then []
    else
      Build(page, items[..|items| - 1]) +
      match items[|items| - 1]
      case Dict(fields) => [Record(page, fields)]
      case Other => []
  }

  function Stored(page: string, item: Item): seq<Record> {
    match item
    case Dict(fields) => [Record(page, fields)]
    case Other => []
  }

  lemma {:induction false} BuildSplit(page: string, a: seq<Item>, b: seq<Item>)
    ensures Build(page, a + b) == Build(page, a) + Build(page, b)
  {
    if b == [] {
      assert a + b == a;
    } else {
      assert (a + b)[..|a + b| - 1] == a + b[..|b| - 1];
      BuildSplit(page, a, b[..|b| - 1]);
    }
  }

  /** Each dict of a list makes one record, with its fields and the page, in its place; nothing else makes one. */
  lemma ItemBuilt(page: string, before: seq<Item>, item: Item, after: seq<Item>)
    ensures Build(page, before + [item] + after) == Build(page, before) + Stored(page, item) + Build(page, after)
  {
    BuildSplit(page, before + [item], after);
    BuildSplit(page, before, [item]);
    assert [item][..0] == [];
  }

  /** A call of `buffer_resources` or `buffer_links`. */
  datatype Submission = Submission(page: string, items: seq<Item>)

  /** The records of a history of calls. */
  function Records(sent: seq<Submission>): seq<Record> {
    if sent == [] then []
    else Records(sent[..|sent| - 1]) + Build(sent[|sent| - 1].page, sent[|sent| - 1].items)
  }

  lemma RecordsGrow(sent: seq<Submission>, page: string, items: seq<Item>)
    ensures Records(sent + [Submission(page, items)]) == Records(sent) + Build(page, items)
  {
    assert (sent + [Submission(page, items)])[..|sent|] == sent;
  }

  lemma {:induction false} RecordsSplit(a: seq<Submission>, b: seq<Submission>)
    ensures Records(a + b) == Records(a) + Records(b)
  {
    if b == [] {
      assert a + b == a;
    } else {
      assert (a + b)[..|a + b| - 1] == a + b[..|b| - 1];
      RecordsSplit(a, b[..|b| - 1]);
    }
  }

  /** The records of a history are in the order in which their items were submitted. */
  lemma ItemInOrder(a: seq<Submission>, page: string, before: seq<Item>, item: Item, after: seq<Item>, b: seq<Submission>)
    ensures Records(a + [Submission(page, before + [item] + after)] + b) ==
            Records(a) + (Build(page, before) + Stored(page, item) + Build(page, after)) + Records(b)
  {
    hide Records, Build, Stored;
    RecordsSplit(a + [Submission(page, before + [item] + after)], b);
    RecordsGrow(a, page, before + [item] + after);
    ItemBuilt(page, before, item, after);
  }

  /** How often an item was submitted for a page. */
  function TimesSent(sent: seq<Submission>, page: string, fields: string): nat {
    if sent == [] then 0
    else TimesSent(sent[1..], page, fields) + if sent[0].page == page then multiset(sent[0].items)[Dict(fields)] else 0
  }

  lemma {:induction false} BuildCounts(page: string, items: seq<Item>, r: Record)
    ensures multiset(Build(page, items))[r] == if r.page == page then multiset(items)[Dict(r.fields)] else 0
  {
    if items != [] {
      BuildCounts(page, items[..|items| - 1], r);
      assert items == items[..|items| - 1] + [items[|items| - 1]];
    }
  }

  lemma {:induction false} RecordsCount(sent: seq<Submission>, r: Record)
    ensures multiset(Records(sent))[r] == TimesSent(sent, r.page, r.fields)
  {
    if sent != [] {
      RecordsCount(sent[1..], r);
      RecordsSplit([sent[0]], sent[1..]);
      assert [sent[0]] + sent[1..] == sent && [sent[0]][..0] == [];
      BuildCounts(sent[0].page, sent[0].items, r);
    }
  }

  /** The table holds every item submitted, as often as it was, and nothing else. */
  ghost predicate HoldsAll(table: seq<Record>, sent: seq<Submission>) {
    && table == Records(sent)
    && forall page, fields :: multiset(table)[Record(page, fields)] == TimesSent(sent, page, fields)
  }

  lemma AllHeld(sent: seq<Submission>)
    ensures HoldsAll(Records(sent), sent)
  {
    forall page, fields ensures multiset(Records(sent))[Record(page, fields)] == TimesSent(sent, page, fields) {
      RecordsCount(sent, Record(page, fields));
    }
  }

  /** The conflict clause takes every column from the new row. */
  const OVERWRITE: (string, string) -> string := (old_: string, new_: string) => new_

  class PersistenceService {
    var flushEvery: int
    var failed: bool
    var bufNetwork: seq<PageRow>
    var bufSeo: seq<PageRow>
    var bufResources: seq<Record>
    var bufLinks: seq<Record>
    var networkTable: map<string, string>
    var seoTable: map<string, string>
    var resourceTable: seq<Record>
    var linkTable: seq<Record>
    /** Everything submitted since the service was made, in order. */
    ghost var sentNetwork: seq<PageRow>
    ghost var sentSeo: seq<PageRow>
    ghost var sentResources: seq<Submission>
    ghost var sentLinks: seq<Submission>

    constructor (flushEvery: int)
      ensures Valid() && !failed && this.flushEvery == flushEvery
      ensures sentNetwork == sentSeo == [] && sentResources == sentLinks == []
    {
      this.flushEvery, failed := flushEvery, false;
      bufNetwork, bufSeo, bufResources, bufLinks := [], [], [], [];
      networkTable, seoTable, resourceTable, linkTable := map[], map[], [], [];
      sentNetwork, sentSeo, sentResources, sentLinks := [], [], [], [];
      new;
      NothingSent();
    }

    /** Unless a statement has failed, tables and buffers together hold what was submitted. */
    ghost predicate Valid()
      reads this
    {
      && Accounted(networkTable, bufNetwork, sentNetwork, failed)
      && Accounted(seoTable, bufSeo, sentSeo, failed)
      && (!failed ==> resourceTable + bufResources == Records(sentResources) && linkTable + bufLinks == Records(sentLinks))
      && (Distinct(sentNetwork) && Distinct(sentSeo) ==> !failed)
    }

    /** A buffer that was just flushed if it was due. */
    predicate Below(size: nat)
      reads this`flushEvery
    {
      size == 0 || size < flushEvery
    }

    method FlushNetwork()
      requires Valid()
      modifies this`networkTable, this`bufNetwork, this`failed
      ensures Valid()
      ensures failed <==> old(failed) || !BatchesDistinct(old(bufNetwork))
      ensures !failed ==> bufNetwork == [] && networkTable == PutAll(old(networkTable), old(bufNetwork), OVERWRITE)
    {
      BatchesAreOneByOne(networkTable, bufNetwork, OVERWRITE);
      if !failed {
        Flushed(networkTable, bufNetwork, sentNetwork);
      }
      var result := UpsertInBatches(networkTable, bufNetwork, OVERWRITE);
      match result {
        case Failure(_) => failed := true;
        case Success(table) => networkTable, bufNetwork := table, [];
      }
    }

    method FlushSeo()
      requires Valid()
      modifies this`seoTable, this`bufSeo, this`failed
      ensures Valid()
      ensures failed <==> old(failed) || !BatchesDistinct(old(bufSeo))
      ensures !failed ==> bufSeo == [] && seoTable == PutAll(old(seoTable), old(bufSeo), OVERWRITE)
    {
      BatchesAreOneByOne(seoTable, bufSeo, OVERWRITE);
      if !failed {
        Flushed(seoTable, bufSeo, sentSeo);
      }
      var result := UpsertInBatches(seoTable, bufSeo, OVERWRITE);
      match result {
        case Failure(_) => failed := true;
        case Success(table) => seoTable, bufSeo := table, [];
      }
    }

    method FlushResources()
      requires Valid()
      modifies this`resourceTable, this`bufResources
      ensures Valid() && bufResources == [] && resourceTable == old(resourceTable + bufResources)
    {
      resourceTable := AddInBatches(resourceTable, bufResources);
      bufResources := [];
    }

    method FlushLinks()
      requires Valid()
      modifies this`linkTable, this`bufLinks
      ensures Valid() && bufLinks == [] && linkTable == old(linkTable + bufLinks)
    {
      linkTable := AddInBatches(linkTable, bufLinks);
      bufLinks := [];
    }

    method BufferNetwork(row: PageRow)
      requires Valid()
      modifies this`bufNetwork, this`networkTable, this`failed, this`sentNetwork
      ensures Valid() && sentNetwork == old(sentNetwork) + [row]
      ensures !failed ==> Below(|bufNetwork|)
      ensures |old(bufNetwork)| + 1 < flushEvery ==>
                bufNetwork == old(bufNetwork) + [row] && networkTable == old(networkTable) && failed == old(failed)
      ensures |old(bufNetwork)| + 1 >= flushEvery ==>
                && (failed <==> old(failed) || !BatchesDistinct(old(bufNetwork) + [row]))
                && (!failed ==> bufNetwork == [] && networkTable == PutAll(old(networkTable), old(bufNetwork) + [row], OVERWRITE))
    {
      Submitted(networkTable, bufNetwork, sentNetwork, failed, row);
      bufNetwork, sentNetwork := bufNetwork + [row], sentNetwork + [row];
      if |bufNetwork| >= flushEvery {
        FlushNetwork();
      }
    }

    method BufferSeo(row: PageRow)
      requires Valid()
      modifies this`bufSeo, this`seoTable, this`failed, this`sentSeo
      ensures Valid() && sentSeo == old(sentSeo) + [row]
      ensures !failed ==> Below(|bufSeo|)
      ensures |old(bufSeo)| + 1 < flushEvery ==>
                bufSeo == old(bufSeo) + [row] && seoTable == old(seoTable) && failed == old(failed)
      ensures |old(bufSeo)| + 1 >= flushEvery ==>
                && (failed <==> old(failed) || !BatchesDistinct(old(bufSeo) + [row]))
                && (!failed ==> bufSeo == [] && seoTable == PutAll(old(seoTable), old(bufSeo) + [row], OVERWRITE))
    {
      Submitted(seoTable, bufSeo, sentSeo, failed, row);
      bufSeo, sentSeo := bufSeo + [row], sentSeo + [row];
      if |bufSeo| >= flushEvery {
        FlushSeo();
      }
    }

    method BufferResources(page: string, resources: seq<Item>)
      requires Valid()
      modifies this`bufResources, this`resourceTable, this`sentResources
      ensures Valid() && sentResources == old(sentResources) + [Submission(page, resources)]
      ensures Below(|bufResources|)
      ensures var all := old(bufResources) + Build(page, resources);
              if |all| < flushEvery then bufResources == all && resourceTable == old(resourceTable)
              else bufResources == [] && resourceTable == old(resourceTable) + all
    {
      hide Build, Records, Accounted, Distinct;
      RecordsGrow(sentResources, page, resources);
      bufResources, sentResources := bufResources + Build(page, resources), sentResources + [Submission(page, resources)];
      if |bufResources| >= flushEvery {
        FlushResources();
      }
    }

    method BufferLinks(page: string, links: seq<Item>)
      requires Valid()
      modifies this`bufLinks, this`linkTable, this`sentLinks
      ensures Valid() && sentLinks == old(sentLinks) + [Submission(page, links)]
      ensures Below(|bufLinks|)
      ensures var all := old(bufLinks) + Build(page, links);
              if |all| < flushEvery then bufLinks == all && linkTable == old(linkTable)
              else bufLinks == [] && linkTable == old(linkTable) + all
    {
      hide Build, Records, Accounted, Distinct;
      RecordsGrow(sentLinks, page, links);
      bufLinks, sentLinks := bufLinks + Build(page, links), sentLinks + [Submission(page, links)];
      if |bufLinks| >= flushEvery {
        FlushLinks();
      }
    }

    /** Lowering the threshold flushes nothing: a buffer may stay above it until its next call. */
    method SetFlushEvery(flushEvery: int)
      requires Valid()
      modifies this`flushEvery
      ensures Valid() && this.flushEvery == flushEvery
    {
      this.flushEvery := flushEvery;
    }

    /** After a run without a failed statement, the tables hold exactly what was submitted. */
    method FlushAll()
      requires Valid()
      modifies this`networkTable, this`bufNetwork, this`failed, this`seoTable, this`bufSeo,
               this`resourceTable, this`bufResources, this`linkTable, this`bufLinks
      ensures Valid()
      ensures !failed ==>
                && networkTable == PutAll(map[], sentNetwork, OVERWRITE) && LastSent(networkTable, sentNetwork)
                && seoTable == PutAll(map[], sentSeo, OVERWRITE) && LastSent(seoTable, sentSeo)
                && HoldsAll(resourceTable, sentResources) && HoldsAll(linkTable, sentLinks)
                && bufNetwork == bufSeo == [] && bufResources == bufLinks == []
      ensures Distinct(sentNetwork) && Distinct(sentSeo) ==> !failed
    {
      hide BatchesDistinct, Distinct, PutAll, HoldsAll, LastSent, Records;
      FlushNetwork();
      FlushSeo();
      FlushResources();
      FlushLinks();
      assert sentNetwork[..|sentNetwork|] == sentNetwork && sentSeo[..|sentSeo|] == sentSeo;
      LastIsKept(sentNetwork);
      LastIsKept(sentSeo);
      AllHeld(sentResources);
      AllHeld(sentLinks);
    }
  }

  /** The i-th row submitted is the last of its page. */
  ghost predicate IsLast(sent: seq<PageRow>, i: int, page: string) {
    0 <= i < |sent| && sent[i].key == page && forall j :: i < j < |sent| ==> sent[j].key != page
  }

  /** The table has one row for every page submitted, the one submitted last. */
  ghost predicate LastSent(table: map<string, string>, sent: seq<PageRow>) {
    forall page :: HoldsLast(table, sent, page)
  }

  ghost predicate HoldsLast(table: map<string, string>, sent: seq<PageRow>, page: string) {
    && (page in table <==> exists i :: IsLast(sent, i, page))
    && forall i :: IsLast(sent, i, page) ==> page in table && table[page] == sent[i].value
  }

  lemma IsLastGrows(front: seq<PageRow>, last: PageRow, i: int, page: string)
    ensures IsLast(front + [last], i, page) <==> if last.key == page then i == |front| else IsLast(front, i, page)
  {
    var sent := front + [last];
    assert sent[|front|] == last && forall j :: 0 <= j < |front| ==> sent[j] == front[j];
  }

  lemma {:induction false} LastIsKept(sent: seq<PageRow>)
    ensures LastSent(PutAll(map[], sent, OVERWRITE), sent)
  {
    if sent != [] {
      var front, last := sent[..|sent| - 1], sent[|sent| - 1];
      LastIsKept(front);
      assert sent == front + [last];
      var table := PutAll(map[], front, OVERWRITE);
      var after := table[last.key := last.value];
      assert PutAll(map[], sent, OVERWRITE) == after;
      hide PutAll;
      forall page ensures HoldsLast(after, sent, page) {
        assert HoldsLast(table, front, page);
        forall i ensures IsLast(sent, i, page) <==> if last.key == page then i == |front| else IsLast(front, i, page) {
          IsLastGrows(front, last, i, page);
        }
        if last.key == page {
          assert IsLast(sent, |front|, page);
        }
      }
    }
  }

  /** The buffer is the end of what was submitted, and the table holds the rest, row by row. */
  ghost predicate Accounted(table: map<string, string>, buffer: seq<PageRow>, sent: seq<PageRow>, failed: bool) {
    !failed ==>
      && |buffer| <= |sent|
      && buffer == sent[|sent| - |buffer|..]
      && table == PutAll(map[], sent[..|sent| - |buffer|], OVERWRITE)
  }

  lemma NothingSent()
    ensures Accounted(map[], [], [], false)
  {
  }

  lemma Submitted(table: map<string, string>, buffer: seq<PageRow>, sent: seq<PageRow>, failed: bool, row: PageRow)
    requires Accounted(table, buffer, sent, failed)
    ensures Accounted(table, buffer + [row], sent + [row], failed)
    ensures Distinct(sent + [row]) ==> Distinct(sent)
  {
    if !failed {
      var all := sent + [row];
      assert all[..|all| - |buffer + [row]|] == sent[..|sent| - |buffer|];
    }
    assert Distinct(sent + [row]) ==> Distinct((sent + [row])[..|sent|]);
    assert (sent + [row])[..|sent|] == sent;
  }

  /** A flushed buffer accounts for everything submitted, and cannot fail when no page was sent twice. */
  lemma Flushed(table: map<string, string>, buffer: seq<PageRow>, sent: seq<PageRow>)
    requires Accounted(table, buffer, sent, false)
    ensures Accounted(PutAll(table, buffer, OVERWRITE), [], sent, false)
    ensures Distinct(sent) ==> BatchesDistinct(buffer)
  {
    hide PutAll, Distinct, BatchesDistinct;
    var done := sent[..|sent| - |buffer|];
    PutAllSplit(map[], done, buffer, OVERWRITE);
    assert done + buffer == sent;
    var none: seq<PageRow> := [];
    assert sent[..|sent| - |none|] == sent && sent[|sent| - |none|..] == none;
    DistinctEnd(sent, |sent| - |buffer|);
  }

  lemma DistinctEnd(rows: seq<PageRow>, from: nat)
    requires from <= |rows|
    ensures Distinct(rows) ==> BatchesDistinct(rows[from..])
  {
    if Distinct(rows) {
      DistinctBatches(rows[from..]);
    }
  }

  method AddInBatches(table: seq<Record>, rows: seq<Record>) returns (result: seq<Record>)
    ensures result == table + rows
  {
    result := table;
    var start := 0;
    while start < |rows|
      invariant 0 <= start && result == table + rows[..Min(start, |rows|)]
    {
      var end := Min(start + BATCH_SIZE, |rows|);
      assert rows[..end] == rows[..start] + rows[start..end];
      result := result + rows[start..end];
      start := start + BATCH_SIZE;
    }
  }
}
