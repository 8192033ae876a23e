/**
 `AuditResponseBuilder._strip_empty`: the pruning of nulls, empty containers and `available: false`
 metrics from the response tree, and how far one pass is from a fixed point.
 */
module StripEmpty {

  /** A dict is its entries in insertion order; its keys are distinct. */
  datatype Json =
    | Null
    | Bool(b: bool)
    | Num(n: real)
    | Str(s: string)
    | List(items: seq<Json>)
    | Dict(entries: seq<Entry>)
  datatype Entry = Entry(key: string, value: Json)

  /** `dict.get(key)`. */
  function Get(es: seq<Entry>, key: string): Json {
    if es == [] then Null else if es[0].key == key then es[0].value else Get(es[1..], key)
  }

  predicate Unavailable(es: seq<Entry>) {
    Get(es, "available") == Bool(false) && Get(es, "value") == Null
  }

  function Strip(d: Json): Json {
    match d
    case List(items) => var kept := StripItems(items); if kept == [] then Null else List(kept)
    case Dict(es) =>
      if Unavailable(es) then Null
      else var kept := StripEntries(es); if kept == [] then Null else Dict(kept)
    case _ => d
  }

  function StripItems(items: seq<Json>): seq<Json> {
    if items == [] then []
    else
      var first, rest := Strip(items[0]), StripItems(items[1..]);
      if first == Null then rest else [first] + rest
  }

  function StripEntries(es: seq<Entry>): seq<Entry> {
    if es == [] then []
    else
      var first, rest := Strip(es[0].value), StripEntries(es[1..]);
      if first == Null then rest else [Entry(es[0].key, first)] + rest
  }

  // ------------------------------------------------------------- nothing empty is left

  /** No null, empty list or empty dict anywhere in the tree. */
  predicate NoEmpty(d: Json) {
    match d
    case Null => false
    case List(items) => items != [] && forall i :: 0 <= i < |items| ==> NoEmpty(items[i])
    case Dict(es) => es != [] && forall i :: 0 <= i < |es| ==> NoEmpty(es[i].value)
    case _ => true
  }

  /** What is left of a tree, if anything, holds nothing empty. */
  lemma {:induction false} StripLeavesNothingEmpty(d: Json)
    ensures Strip(d) == Null || NoEmpty(Strip(d))
  {
    match d {
      case List(items) => ItemsLeaveNothingEmpty(items);
      case Dict(es) => EntriesLeaveNothingEmpty(es);
      case _ =>
    }
  }

  lemma {:induction false} ItemsLeaveNothingEmpty(items: seq<Json>)
    ensures forall i :: 0 <= i < |StripItems(items)| ==> NoEmpty(StripItems(items)[i])
  {
    if items != [] {
      StripLeavesNothingEmpty(items[0]);
      ItemsLeaveNothingEmpty(items[1..]);
    }
  }

  lemma {:induction false} EntriesLeaveNothingEmpty(es: seq<Entry>)
    ensures forall i :: 0 <= i < |StripEntries(es)| ==> NoEmpty(StripEntries(es)[i].value)
  {
    if es != [] {
      StripLeavesNothingEmpty(es[0].value);
      EntriesLeaveNothingEmpty(es[1..]);
    }
  }

  /** Nothing in the tree is worth keeping. */
  predicate Hollow(d: Json) {
    match d
    case Null => true
    case List(items) => forall i :: 0 <= i < |items| ==> Hollow(items[i])
    case Dict(es) => Unavailable(es) || forall i :: 0 <= i < |es| ==> Hollow(es[i].value)
    case _ => false
  }

  /** A tree prunes away entirely exactly when it is hollow: no value outside unavailable metrics is lost. */
  lemma {:induction false} PrunedExactly(d: Json)
    ensures Strip(d) == Null <==> Hollow(d)
  {
    match d {
      case List(items) => ItemsPrunedExactly(items);
      case Dict(es) => EntriesPrunedExactly(es);
      case _ =>
    }
  }

  lemma {:induction false} ItemsPrunedExactly(items: seq<Json>)
    ensures StripItems(items) == [] <==> forall i :: 0 <= i < |items| ==> Hollow(items[i])
  {
    if items != [] {
      PrunedExactly(items[0]);
      ItemsPrunedExactly(items[1..]);
      assert forall i :: 0 < i < |items| ==> items[i] == items[1..][i - 1];
    }
  }

  lemma {:induction false} EntriesPrunedExactly(es: seq<Entry>)
    ensures StripEntries(es) == [] <==> forall i :: 0 <= i < |es| ==> Hollow(es[i].value)
  {
    if es != [] {
      PrunedExactly(es[0].value);
      EntriesPrunedExactly(es[1..]);
      assert forall i :: 0 < i < |es| ==> es[i] == es[1..][i - 1];
    }
  }

  // ------------------------------------------------------------- what is left is what was there

  predicate DistinctKeys(es: seq<Entry>) {
    forall i, j :: 0 <= i < j < |es| ==> es[i].key != es[j].key
  }

  lemma {:induction false} AbsentKey(es: seq<Entry>, key: string)
    requires forall i :: 0 <= i < |es| ==> es[i].key != key
    ensures Get(es, key) == Null
    ensures forall i :: 0 <= i < |StripEntries(es)| ==> StripEntries(es)[i].key != key
  {
    if es != [] {
      AbsentKey(es[1..], key);
    }
  }

  /** Every key of a pruned dict holds the pruned value it held before; keys stay distinct. */
  lemma {:induction false} GetStripped(es: seq<Entry>, key: string)
    requires DistinctKeys(es)
    ensures Get(StripEntries(es), key) == Strip(Get(es, key))
    ensures DistinctKeys(StripEntries(es))
  {
    if es != [] {
      GetStripped(es[1..], key);
      AbsentKey(es[1..], es[0].key);
      var first, rest := Strip(es[0].value), StripEntries(es[1..]);
      if first != Null {
        assert ([Entry(es[0].key, first)] + rest)[1..] == rest;
      }
    }
  }

  lemma {:induction false} ItemsSplit(a: seq<Json>, b: seq<Json>)
    ensures StripItems(a + b) == StripItems(a) + StripItems(b)
  {
    if a == [] {
      assert a + b == b;
    } else {
      assert (a + b)[1..] == a[1..] + b;
      ItemsSplit(a[1..], b);
    }
  }

  /** Every item of a list that is not hollow is kept in its place, pruned, and no other. */
  lemma ItemKept(before: seq<Json>, item: Json, after: seq<Json>)
    ensures StripItems(before + [item] + after) ==
            StripItems(before) + (if Hollow(item) then [] else [Strip(item)]) + StripItems(after)
  {
    ItemsSplit(before + [item], after);
    ItemsSplit(before, [item]);
    PrunedExactly(item);
    assert [item][1..] == [];
  }

  lemma {:induction false} EntriesSplit(a: seq<Entry>, b: seq<Entry>)
    ensures StripEntries(a + b) == StripEntries(a) + StripEntries(b)
  {
    if a == [] {
      assert a + b == b;
    } else {
      assert (a + b)[1..] == a[1..] + b;
      EntriesSplit(a[1..], b);
    }
  }

  /** So is every entry of a dict, under its key. */
  lemma EntryKept(before: seq<Entry>, entry: Entry, after: seq<Entry>)
    ensures StripEntries(before + [entry] + after) ==
            StripEntries(before) + (if Hollow(entry.value) then [] else [Entry(entry.key, Strip(entry.value))]) + StripEntries(after)
  {
    EntriesSplit(before + [entry], after);
    EntriesSplit(before, [entry]);
    PrunedExactly(entry.value);
    assert [entry][1..] == [];
  }

  lemma {:induction false} GetExactly(es: seq<Entry>, key: string)
    requires DistinctKeys(es)
    ensures forall i :: 0 <= i < |es| && es[i].key == key ==> Get(es, key) == es[i].value
    ensures (forall i :: 0 <= i < |es| ==> es[i].key != key) ==> Get(es, key) == Null
  {
    if es != [] {
      GetExactly(es[1..], key);
      assert forall i :: 0 < i < |es| ==> es[i] == es[1..][i - 1];
    }
  }

  /** The dict holds `available: false`, and no value or a null one. */
  predicate SaysUnavailable(es: seq<Entry>) {
    && Entry("available", Bool(false)) in es
    && forall e :: e in es && e.key == "value" ==> e.value == Null
  }

  lemma UnavailableExactly(es: seq<Entry>)
    requires DistinctKeys(es)
    ensures Unavailable(es) <==> SaysUnavailable(es)
  {
    GetExactly(es, "available");
    GetExactly(es, "value");
    hide Get;
    if exists e :: e in es && e.key == "available" {
      var e :| e in es && e.key == "available";
      assert e == Entry("available", e.value);
    }
  }

  /** A dict is dropped exactly when it is an unavailable metric or nothing in it is worth keeping. */
  lemma DictExactly(es: seq<Entry>)
    requires DistinctKeys(es)
    ensures Strip(Dict(es)) == if SaysUnavailable(es) || (forall e :: e in es ==> Hollow(e.value)) then Null
                               else Dict(StripEntries(es))
  {
    UnavailableExactly(es);
    EntriesPrunedExactly(es);
    hide SaysUnavailable, Unavailable, Hollow, StripEntries;
  }

  // ------------------------------------------------------------- size

  /** Containers and their slots weigh one each, so every removal shows. */
  function Size(d: Json): nat {
    match d
    case Null => 0
    case List(items) => 1 + ItemsSize(items)
    case Dict(es) => 1 + EntriesSize(es)
    case _ => 1
  }

  function ItemsSize(items: seq<Json>): nat {
    if items == [] then 0 else 1 + Size(items[0]) + ItemsSize(items[1..])
  }

  function EntriesSize(es: seq<Entry>): nat {
    if es == [] then 0 else 1 + Size(es[0].value) + EntriesSize(es[1..])
  }

  /** Pruning never grows a tree, and keeps its size only by changing nothing. */
  lemma {:induction false} StripShrinks(d: Json)
    ensures Size(Strip(d)) <= Size(d)
    ensures Size(Strip(d)) == Size(d) ==> Strip(d) == d
  {
    match d {
      case List(items) => ItemsShrink(items);
      case Dict(es) => EntriesShrink(es);
      case _ =>
    }
  }

  lemma {:induction false} ItemsShrink(items: seq<Json>)
    ensures ItemsSize(StripItems(items)) <= ItemsSize(items)
    ensures ItemsSize(StripItems(items)) == ItemsSize(items) ==> StripItems(items) == items
  {
    if items != [] {
      StripShrinks(items[0]);
      ItemsShrink(items[1..]);
      var first, rest := Strip(items[0]), StripItems(items[1..]);
      assert ([first] + rest)[1..] == rest && [items[0]] + items[1..] == items;
    }
  }

  lemma {:induction false} EntriesShrink(es: seq<Entry>)
    ensures EntriesSize(StripEntries(es)) <= EntriesSize(es)
    ensures EntriesSize(StripEntries(es)) == EntriesSize(es) ==> StripEntries(es) == es
  {
    if es != [] {
      StripShrinks(es[0].value);
      EntriesShrink(es[1..]);
      var first, rest := Entry(es[0].key, Strip(es[0].value)), StripEntries(es[1..]);
      assert ([first] + rest)[1..] == rest && [es[0]] + es[1..] == es;
    }
  }

  // ------------------------------------------------------------- idempotence, exactly

  /**
   No dict that survives the first pass has `available: false` and a `value` that is not null but
   hollow: such a dict is kept by one pass and dropped by the next.
   */
  predicate Settled(d: Json) {
    match d
    case List(items) => forall i :: 0 <= i < |items| ==> Settled(items[i])
    case Dict(es) =>
      Unavailable(es) ||
      (!(Get(es, "available") == Bool(false) && Hollow(Get(es, "value")))
       && forall i :: 0 <= i < |es| ==> Settled(es[i].value))
    case _ => true
  }

  predicate WellFormed(d: Json) {
    match d
    case List(items) => forall i :: 0 <= i < |items| ==> WellFormed(items[i])
    case Dict(es) => DistinctKeys(es) && forall i :: 0 <= i < |es| ==> WellFormed(es[i].value)
    case _ => true
  }

  /** A second pass changes nothing if and only if the tree is settled. */
  lemma {:induction false} IdempotentExactly(d: Json)
    requires WellFormed(d)
    ensures Strip(Strip(d)) == Strip(d) <==> Settled(d)
  {
    match d {
      case List(items) =>
        ItemsIdempotentExactly(items);
        ItemsNotLonger(StripItems(items));
      case Dict(es) =>
        if !Unavailable(es) {
          EntriesIdempotentExactly(es);
          GetStripped(es, "available");
          GetStripped(es, "value");
          PrunedExactly(Get(es, "value"));
        }
      case _ =>
    }
  }

  lemma {:induction false} ItemsNotLonger(items: seq<Json>)
    ensures |StripItems(items)| <= |items|
  {
    if items != [] {
      ItemsNotLonger(items[1..]);
    }
  }

  lemma {:induction false} EntriesNotLonger(es: seq<Entry>)
    ensures |StripEntries(es)| <= |es|
  {
    if es != [] {
      EntriesNotLonger(es[1..]);
    }
  }

  lemma {:induction false} ItemsIdempotentExactly(items: seq<Json>)
    requires forall i :: 0 <= i < |items| ==> WellFormed(items[i])
    ensures StripItems(StripItems(items)) == StripItems(items) <==> forall i :: 0 <= i < |items| ==> Settled(items[i])
  {
    if items != [] {
      IdempotentExactly(items[0]);
      ItemsIdempotentExactly(items[1..]);
      var first, rest := Strip(items[0]), StripItems(items[1..]);
      ItemsNotLonger(rest);
      assert (forall i :: 0 <= i < |items| ==> Settled(items[i])) <==>
             Settled(items[0]) && forall i :: 0 <= i < |items[1..]| ==> Settled(items[1..][i]) by {
        assert forall i :: 0 < i < |items| ==> items[i] == items[1..][i - 1];
      }
      if first != Null {
        assert ([first] + rest)[1..] == rest;
        var again := Strip(first);
        assert StripItems([first] + rest) == if again == Null then StripItems(rest) else [again] + StripItems(rest);
        if again != Null && [again] + StripItems(rest) == [first] + rest {
          assert ([again] + StripItems(rest))[1..] == rest;
        }
      }
    }
  }

  lemma {:induction false} EntriesIdempotentExactly(es: seq<Entry>)
    requires forall i :: 0 <= i < |es| ==> WellFormed(es[i].value)
    ensures StripEntries(StripEntries(es)) == StripEntries(es) <==> forall i :: 0 <= i < |es| ==> Settled(es[i].value)
  {
    if es != [] {
      IdempotentExactly(es[0].value);
      EntriesIdempotentExactly(es[1..]);
      var first, rest := Strip(es[0].value), StripEntries(es[1..]);
      EntriesNotLonger(rest);
      assert (forall i :: 0 <= i < |es| ==> Settled(es[i].value)) <==>
             Settled(es[0].value) && forall i :: 0 <= i < |es[1..]| ==> Settled(es[1..][i].value) by {
        assert forall i :: 0 < i < |es| ==> es[i] == es[1..][i - 1];
      }
      if first != Null {
        var head := Entry(es[0].key, first);
        assert ([head] + rest)[1..] == rest;
        var again := Strip(first);
        assert StripEntries([head] + rest) ==
               if again == Null then StripEntries(rest) else [Entry(es[0].key, again)] + StripEntries(rest);
        if again != Null && [Entry(es[0].key, again)] + StripEntries(rest) == [head] + rest {
          assert ([Entry(es[0].key, again)] + StripEntries(rest))[1..] == rest;
        }
      }
    }
  }

  // ------------------------------------------------------------- iterating

  function Iterate(passes: nat, d: Json): Json {
    if passes == 0 then d else Strip(Iterate(passes - 1, d))
  }

  lemma {:induction false} IterateEarly(passes: nat, d: Json)
    ensures Iterate(passes + 1, d) == Iterate(passes, Strip(d))
  {
    if passes > 0 {
      IterateEarly(passes - 1, d);
    }
  }

  lemma {:induction false} FixedPointStays(passes: nat, d: Json)
    requires Strip(d) == d
    ensures Iterate(passes, d) == d
  {
    if passes > 0 {
      FixedPointStays(passes - 1, d);
    }
  }

  /** As many passes as the tree is large reach a fixed point. */
  lemma {:induction false} IterationSettles(d: Json, passes: nat)
    requires passes >= Size(d)
    ensures Strip(Iterate(passes, d)) == Iterate(passes, d)
    decreases passes
  {
    StripShrinks(d);
    if Strip(d) == d {
      FixedPointStays(passes, d);
    } else {
      IterateEarly(passes - 1, d);
      IterationSettles(Strip(d), passes - 1);
    }
  }

  /** `available: false` metrics nested in each other's `value`, around an empty list. */
  function Tower(n: nat): Json {
    if n == 0 then List([]) else Dict([Entry("available", Bool(false)), Entry("value", Tower(n - 1))])
  }

  function Remains(n: nat): Json {
    if n == 0 then Null
    else if n == 1 then Dict([Entry("available", Bool(false))])
    else Dict([Entry("available", Bool(false)), Entry("value", Remains(n - 1))])
  }

  /** One pass takes one storey, so no fixed number of passes is enough for every tree. */
  lemma {:induction false} TowerNeedsEveryPass(n: nat, passes: nat)
    requires 0 < passes <= n + 1
    ensures Iterate(passes, Tower(n)) == Remains(n + 1 - passes)
    ensures Iterate(passes, Tower(n)) != Iterate(passes - 1, Tower(n))
  {
    if passes == 1 {
      StripTower(n);
      if n > 0 {
        RemainsDiffer(n);
      }
    } else {
      RemainsDiffer(n + 2 - passes);
      TowerNeedsEveryPass(n, passes - 1);
      StripRemains(n + 2 - passes);
    }
  }

  lemma StripPair(v: Json)
    requires v != Null
    ensures var off := Entry("available", Bool(false));
            Strip(Dict([off, Entry("value", v)])) == Dict(if Strip(v) == Null then [off] else [off, Entry("value", Strip(v))])
  {
    var off, on := Entry("available", Bool(false)), Entry("value", v);
    assert [off, on][1..] == [on] && [on][1..] == [];
    assert StripEntries([on]) == if Strip(v) == Null then [] else [Entry("value", Strip(v))];
    assert Get([on], "value") == v;
    assert |"available"| != |"value"|;
    assert Get([off, on], "value") == v;
    assert !Unavailable([off, on]);
    assert StripEntries([off, on]) == [off] + StripEntries([on]);
  }

  lemma {:induction false} RemainsDiffer(n: nat)
    requires n > 0
    ensures Remains(n) != Remains(n - 1)
    ensures Tower(n) != Remains(n)
  {
    if n > 1 {
      RemainsDiffer(n - 1);
      assert Remains(n).entries[1] == Entry("value", Remains(n - 1));
      assert n > 2 ==> Remains(n - 1).entries[1] == Entry("value", Remains(n - 2));
      assert Tower(n).entries[1] == Entry("value", Tower(n - 1));
    }
  }

  lemma {:induction false} StripRemains(n: nat)
    requires n > 0
    ensures Strip(Remains(n)) == Remains(n - 1)
  {
    if n == 1 {
      var off := Entry("available", Bool(false));
      assert [off][1..] == [];
      assert Get([off], "value") == Null;
    } else {
      StripRemains(n - 1);
      StripPair(Remains(n - 1));
    }
  }

  lemma {:induction false} StripTower(n: nat)
    ensures Strip(Tower(n)) == Remains(n)
  {
    if n > 0 {
      StripTower(n - 1);
      StripPair(Tower(n - 1));
    }
  }
}
