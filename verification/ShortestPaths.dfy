/**
 Breadth-first discovery over an arbitrary link relation.  `found` lists every discovered key in
 order with the depth recorded for it; the first `done` of them have been expanded.
 */
module ShortestPaths {

  datatype Node = Node(key: string, depth: int)

  /** `v` is exactly `n` links away from some start, along some path. */
  ghost predicate Path(edge: (string, string) -> bool, starts: set<string>, v: string, n: nat)
    decreases n
  {
    if n == 0 then v in starts
    else exists u: string :: Path(edge, starts, u, n - 1) && edge(u, v)
  }

  ghost predicate Reachable(edge: (string, string) -> bool, starts: set<string>, v: string, limit: int) {
    exists n: nat :: n <= limit && Path(edge, starts, v, n)
  }

  /** `d` is the length of a shortest path from a start to `v`. */
  ghost predicate Shortest(edge: (string, string) -> bool, starts: set<string>, v: string, d: int) {
    && d >= 0 && Path(edge, starts, v, d)
    && forall n: nat :: Path(edge, starts, v, n) ==> d <= n
  }

  ghost predicate Covered(found: seq<Node>, k: string, d: int) {
    exists j :: 0 <= j < |found| && found[j].key == k && found[j].depth <= d
  }

  ghost predicate Known(found: seq<Node>, k: string) {
    exists j :: 0 <= j < |found| && found[j].key == k
  }

  ghost predicate Expanded(edge: (string, string) -> bool, found: seq<Node>, limit: int, i: nat)
    requires i < |found|
  {
    found[i].depth < limit ==>
      forall k :: edge(found[i].key, k) ==> Covered(found, k, found[i].depth + 1)
  }

  ghost predicate Distinct(found: seq<Node>) {
    forall i, j :: 0 <= i < j < |found| ==> found[i].key != found[j].key
  }

  ghost predicate Layered(found: seq<Node>, done: nat) {
    && (forall i, j :: 0 <= i < j < |found| ==> found[i].depth <= found[j].depth)
    && (done < |found| ==> forall i :: 0 <= i < |found| ==> found[i].depth <= found[done].depth + 1)
  }

  ghost predicate Genuine(edge: (string, string) -> bool, starts: set<string>, limit: int, found: seq<Node>) {
    forall i :: 0 <= i < |found| ==>
      0 <= found[i].depth <= limit && Path(edge, starts, found[i].key, found[i].depth)
  }

  /** The FIFO invariant: queued depths never decrease and spread over at most two layers. */
  ghost predicate Bfs(edge: (string, string) -> bool, starts: set<string>, limit: int, found: seq<Node>, done: nat) {
    && done <= |found|
    && Distinct(found) && Layered(found, done) && Genuine(edge, starts, limit, found)
    && (forall k :: k in starts ==> Covered(found, k, 0))
    && (forall i :: 0 <= i < done ==> Expanded(edge, found, limit, i))
  }

  /** Found keys only accumulate, so what was covered stays covered. */
  lemma CoveredGrows(found: seq<Node>, more: seq<Node>, k: string, d: int)
    requires Covered(found, k, d)
    ensures Covered(found + more, k, d)
  {
    var j :| 0 <= j < |found| && found[j].key == k && found[j].depth <= d;
    assert (found + more)[j] == found[j];
  }

  lemma StartLayer(edge: (string, string) -> bool, starts: set<string>, limit: int, found: seq<Node>)
    requires limit >= 0 && Distinct(found)
    requires forall i :: 0 <= i < |found| ==> found[i].depth == 0 && found[i].key in starts
    requires forall k :: k in starts ==> Known(found, k)
    ensures Bfs(edge, starts, limit, found, 0)
  {
    forall i | 0 <= i < |found| ensures Path(edge, starts, found[i].key, found[i].depth) {
    }
    forall k | k in starts ensures Covered(found, k, 0) {
      var j :| 0 <= j < |found| && found[j].key == k;
      assert found[j].depth <= 0;
    }
  }

  /** The node being expanded discovers a new key. */
  lemma Discover(edge: (string, string) -> bool, starts: set<string>, limit: int, found: seq<Node>, done: nat, k: string)
    requires Bfs(edge, starts, limit, found, done) && done < |found|
    requires found[done].depth < limit && edge(found[done].key, k) && !Known(found, k)
    ensures Bfs(edge, starts, limit, found + [Node(k, found[done].depth + 1)], done)
    ensures Covered(found + [Node(k, found[done].depth + 1)], k, found[done].depth + 1)
  {
    var node := Node(k, found[done].depth + 1);
    var grown := found + [node];
    assert Path(edge, starts, found[done].key, found[done].depth);
    assert Path(edge, starts, k, found[done].depth + 1);
    assert grown[|found|] == node;
    forall s | s in starts ensures Covered(grown, s, 0) {
      CoveredGrows(found, [node], s, 0);
    }
    forall i | 0 <= i < done ensures Expanded(edge, grown, limit, i) {
      assert Expanded(edge, found, limit, i) && grown[i] == found[i];
      forall x | found[i].depth < limit && edge(found[i].key, x) ensures Covered(grown, x, found[i].depth + 1) {
        CoveredGrows(found, [node], x, found[i].depth + 1);
      }
    }
  }

  /** A key seen before was recorded at most one layer below the node now being expanded. */
  lemma SeenIsCovered(edge: (string, string) -> bool, starts: set<string>, limit: int, found: seq<Node>, done: nat, k: string)
    requires Bfs(edge, starts, limit, found, done) && done < |found| && Known(found, k)
    ensures Covered(found, k, found[done].depth + 1)
  {
    var j :| 0 <= j < |found| && found[j].key == k;
    assert found[j].depth <= found[done].depth + 1;
  }

  lemma Advance(edge: (string, string) -> bool, starts: set<string>, limit: int, found: seq<Node>, done: nat)
    requires Bfs(edge, starts, limit, found, done) && done < |found|
    requires Expanded(edge, found, limit, done)
    ensures Bfs(edge, starts, limit, found, done + 1)
  {
  }

  lemma {:induction false} PathsAreCovered(edge: (string, string) -> bool, starts: set<string>, limit: int,
                                           found: seq<Node>, v: string, n: nat)
    requires Bfs(edge, starts, limit, found, |found|) && n <= limit && Path(edge, starts, v, n)
    ensures Covered(found, v, n)
    decreases n
  {
    if n > 0 {
      var u :| Path(edge, starts, u, n - 1) && edge(u, v);
      PathsAreCovered(edge, starts, limit, found, u, n - 1);
      var i :| 0 <= i < |found| && found[i].key == u && found[i].depth <= n - 1;
      assert Expanded(edge, found, limit, i);
      var j :| 0 <= j < |found| && found[j].key == v && found[j].depth <= found[i].depth + 1;
      assert found[j].depth <= n;
    }
  }

  /**
   When everything found has been expanded, the found keys are exactly those within `limit` links
   of a start, each recorded at its shortest distance.
   */
  lemma BfsIsShortest(edge: (string, string) -> bool, starts: set<string>, limit: int, found: seq<Node>)
    requires Bfs(edge, starts, limit, found, |found|)
    ensures forall k :: Known(found, k) <==> Reachable(edge, starts, k, limit)
    ensures forall i :: 0 <= i < |found| ==> Shortest(edge, starts, found[i].key, found[i].depth)
  {
    forall k ensures Known(found, k) <==> Reachable(edge, starts, k, limit) {
      if Known(found, k) {
        var j :| 0 <= j < |found| && found[j].key == k;
        assert found[j].depth <= limit && Path(edge, starts, k, found[j].depth);
      }
      if Reachable(edge, starts, k, limit) {
        var n: nat :| n <= limit && Path(edge, starts, k, n);
        PathsAreCovered(edge, starts, limit, found, k, n);
      }
    }
    forall i | 0 <= i < |found| ensures Shortest(edge, starts, found[i].key, found[i].depth) {
      assert 0 <= found[i].depth <= limit && Path(edge, starts, found[i].key, found[i].depth);
      forall n: nat | Path(edge, starts, found[i].key, n) ensures found[i].depth <= n {
        if n <= limit {
          PathsAreCovered(edge, starts, limit, found, found[i].key, n);
        }
      }
    }
  }

  /** While a layer is being expanded, everything up to that layer has been found. */
  lemma {:induction false} LayersAreCovered(edge: (string, string) -> bool, starts: set<string>, limit: int,
                                            found: seq<Node>, done: nat, v: string, n: nat)
    requires Bfs(edge, starts, limit, found, done) && done < |found|
    requires n <= found[done].depth && Path(edge, starts, v, n)
    ensures Covered(found, v, n)
    decreases n
  {
    if n > 0 {
      var u :| Path(edge, starts, u, n - 1) && edge(u, v);
      LayersAreCovered(edge, starts, limit, found, done, u, n - 1);
      var i :| 0 <= i < |found| && found[i].key == u && found[i].depth <= n - 1;
      assert i < done;
      assert found[done].depth <= limit by {
        assert Path(edge, starts, found[done].key, found[done].depth);
      }
      assert Expanded(edge, found, limit, i);
      var j :| 0 <= j < |found| && found[j].key == v && found[j].depth <= found[i].depth + 1;
      assert found[j].depth <= n;
    }
  }

  /** At every moment of a breadth-first search what has been found is recorded at its shortest distance. */
  lemma FoundIsShortest(edge: (string, string) -> bool, starts: set<string>, limit: int, found: seq<Node>, done: nat)
    requires Bfs(edge, starts, limit, found, done)
    ensures forall i :: 0 <= i < |found| ==> Shortest(edge, starts, found[i].key, found[i].depth)
  {
    if done == |found| {
      BfsIsShortest(edge, starts, limit, found);
    } else {
      forall i | 0 <= i < |found| ensures Shortest(edge, starts, found[i].key, found[i].depth) {
        assert 0 <= found[i].depth <= limit && Path(edge, starts, found[i].key, found[i].depth);
        forall n: nat | Path(edge, starts, found[i].key, n) ensures found[i].depth <= n {
          if n <= found[done].depth {
            LayersAreCovered(edge, starts, limit, found, done, found[i].key, n);
          }
        }
      }
    }
  }
}
