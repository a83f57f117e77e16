// The edge chains of a vertex (data/vertex.go) as ghost sequences of edge ids: the vertex keeps
// the id of its first outbound and its first inbound edge, and each edge the id of the next one
// on either chain. `ChainOk` is what a well-kept chain satisfies: it is linked from the head to
// a link of 0, every id is found by the edge store, and no id repeats. The predicates take the
// store as the function `find` its `Find` computes (`EdgeStore.View`), so that they do not
// depend on how a record is read. A vertex's cache of a
// chain (its `outMap` or `inMap`) is `Coherent` when it holds exactly the chain's edges, as the
// store has them, each under the key of its label and its id. The lemmas show that building the
// cache and unlinking an edge keep all of this, for the chain unlinked from and for the chain in
// the other direction.

module EdgeChains {
  import opened Conversion
  import Labels
  import opened Edges
  import opened EdgeLists
  import opened EdgeMaps
  import opened EdgeStores

  /** The link the edge at position i must carry: the next id, or 0 after the last. */
  function Succ(ids: seq<u32>, i: nat): u32 {
    if i + 1 < |ids| then ids[i + 1] else 0
  }

  ghost predicate Distinct(ids: seq<u32>) {
    forall i, j :: 0 <= i < j < |ids| ==> ids[i] != ids[j]
  }

  /** The chain from `head` in direction `dir` is the ids in order. */
  ghost predicate ChainOk(find: Finder, head: u32, ids: seq<u32>, dir: Direction) {
    && find(0).None?
    && (if ids == [] then head == 0 else ids[0] == head)
    && (forall i {:trigger find(ids[i])} :: 0 <= i < |ids| ==>
          && ids[i] != 0
          && find(ids[i]).Some?
          && find(ids[i]).value.Id == ids[i]
          && NextOf(find(ids[i]).value, dir) == Succ(ids, i))
    && Distinct(ids)
  }

  /** Every edge of the chain has a label whose key can be found. */
  ghost predicate KeysOk(find: Finder, ids: seq<u32>, names: Labels.Names) {
    forall i {:trigger find(ids[i])} :: 0 <= i < |ids| ==>
      find(ids[i]).Some? && names(find(ids[i]).value.labelId).Some?
  }

  /** The edge is filed in the cache under its key and its id. */
  ghost predicate Cached(m: Lists, e: Edge, names: Labels.Names) {
    && names(e.labelId).Some?
    && names(e.labelId).value in m
    && e.Id in m[names(e.labelId).value]
    && m[names(e.labelId).value][e.Id] == e
  }

  /** The cache holds exactly the chain's edges as the store has them, each under its own key
      and id, and no empty list. */
  ghost predicate Coherent(m: Lists, find: Finder, ids: seq<u32>, names: Labels.Names) {
    NoEmptyList(m) && ChainCached(m, find, ids, names) && CacheOnChain(m, find, ids, names)
  }

  /** Every edge of the chain is in the cache. */
  ghost predicate ChainCached(m: Lists, find: Finder, ids: seq<u32>, names: Labels.Names) {
    forall i {:trigger find(ids[i])} :: 0 <= i < |ids| ==>
      find(ids[i]).Some? && Cached(m, find(ids[i]).value, names)
  }

  /** Every edge in the cache is on the chain, as the store has it, under its own key and id. */
  ghost predicate CacheOnChain(m: Lists, find: Finder, ids: seq<u32>, names: Labels.Names) {
    forall k, id :: k in m && id in m[k] ==>
      && id in ids
      && m[k][id].Id == id
      && find(id) == Some(m[k][id])
      && names(m[k][id].labelId) == Some(k)
  }

  // ---- walking a chain ----

  /** One step of the walk of `Out`/`In`: following the link of the edge at position i gives
      the edge at i + 1, or the end after the last. */
  lemma {:induction false} WalkStep(find: Finder, head: u32, ids: seq<u32>, dir: Direction, i: nat)
    requires ChainOk(find, head, ids, dir) && i < |ids|
    ensures var e := find(ids[i]).value;
      find(NextOf(e, dir)) == if i + 1 < |ids| then find(ids[i + 1]) else None
  {
  }

  /** The loop of `Out`/`In` as written (data/vertex.go:72-77, 95-100): the head and every
      link are handed to `Find`, whose assertion fails on 0 (`FirstOut`/`FirstIn`,
      data/vertex.go:67 and 90, and `OutNext`/`InNext`); the walk stops where `Find` returns
      nothing. It yields the ids filed, cut off after `fuel` more steps. */
  ghost function WalkAsWritten(find: Finder, id: u32, dir: Direction, fuel: nat): Outcome<seq<u32>>
    decreases fuel
  {
    if id == 0 then Panicked
    else match find(id)
      case None => Done([])
      case Some(e) =>
        if fuel == 0 then Done([id])
        else match WalkAsWritten(find, NextOf(e, dir), dir, fuel - 1)
          case Panicked => Panicked
          case Done(rest) => Done([id] + rest)
  }

  /** On a well-kept chain the walk as written always panics: an empty chain hands its head 0
      to `Find`, and a non-empty one the link 0 of its last edge. So `Out` and `In` as written
      panic on every vertex, where the corrected walk (`Vertices.BuildCache`) ends. */
  lemma {:induction false} WalkAsWrittenPanics(find: Finder, head: u32, ids: seq<u32>, dir: Direction)
    requires ChainOk(find, head, ids, dir)
    ensures WalkAsWritten(find, head, dir, |ids|) == Panicked
  {
    WalkAsWrittenFrom(find, head, ids, dir, 0);
  }

  lemma {:induction false} WalkAsWrittenFrom(find: Finder, head: u32, ids: seq<u32>, dir: Direction, i: nat)
    requires ChainOk(find, head, ids, dir) && i <= |ids|
    ensures WalkAsWritten(find, if i < |ids| then ids[i] else 0, dir, |ids| - i) == Panicked
    decreases |ids| - i
  {
    if i < |ids| {
      WalkAsWrittenFrom(find, head, ids, dir, i + 1);
      assert find(ids[i]).Some? && NextOf(find(ids[i]).value, dir) == Succ(ids, i);
    }
  }

  /** Filing the edge at position i into a cache of the edges before it gives the cache of the
      edges up to it. */
  lemma {:induction false} CoherentSnoc(m: Lists, find: Finder, head: u32, ids: seq<u32>,
                     dir: Direction, names: Labels.Names, i: nat)
    requires ChainOk(find, head, ids, dir) && KeysOk(find, ids, names)
    requires i < |ids| && Coherent(m, find, ids[..i], names)
    ensures var e := find(ids[i]).value;
      Coherent(Insert(m, Key(e, names), e), find, ids[..i + 1], names)
  {
    var e := find(ids[i]).value;
    assert e.Id !in ids[..i] by {
      forall n | 0 <= n < i
        ensures ids[..i][n] != e.Id
      {
        assert ids[..i][n] == ids[n];
      }
    }
    assert ids[..i + 1] == ids[..i] + [ids[i]];
    CoherentAppend(m, find, ids[..i], names, e);
  }

  /** Filing an edge the store has, whose id is new to the cache's chain, gives the cache of the
      chain extended by it. */
  lemma {:induction false} CoherentAppend(m: Lists, find: Finder, pre: seq<u32>, names: Labels.Names, e: Edge)
    requires Coherent(m, find, pre, names) && e.Id !in pre
    requires find(e.Id) == Some(e) && names(e.labelId).Some?
    ensures Coherent(Insert(m, Key(e, names), e), find, pre + [e.Id], names)
  {
    var key := Key(e, names);
    var r := Insert(m, key, e);
    var post := pre + [e.Id];
    NoEmptyListKept(m, key, e);
    forall n | 0 <= n < |post|
      ensures find(post[n]).Some? && Cached(r, find(post[n]).value, names)
    {
      if n < |pre| {
        assert post[n] == pre[n];
        var f := find(pre[n]).value;
        assert Cached(m, f, names);
        InsertFinds(m, key, e, Key(f, names), f.Id);
      } else {
        InsertFinds(m, key, e, key, e.Id);
      }
    }
    forall k, id | k in r && id in r[k]
      ensures id in post && r[k][id].Id == id
      ensures find(id) == Some(r[k][id])
      ensures names(r[k][id].labelId) == Some(k)
    {
      InsertFinds(m, key, e, k, id);
    }
  }

  // ---- the predecessor of an edge ----

  /** In a coherent cache the only edge linking to the edge at position j > 0 is the one at
      j - 1, and it is there. */
  lemma {:induction false} PredecessorUnique(m: Lists, find: Finder, head: u32, ids: seq<u32>,
                          dir: Direction, names: Labels.Names, j: nat)
    requires ChainOk(find, head, ids, dir) && Coherent(m, find, ids, names)
    requires 0 < j < |ids|
    ensures Cached(m, find(ids[j - 1]).value, names)
    ensures NextOf(find(ids[j - 1]).value, dir) == ids[j]
    ensures forall k, id :: k in m && id in m[k] && NextOf(m[k][id], dir) == ids[j] ==>
      m[k][id] == find(ids[j - 1]).value
  {
    forall k, id | k in m && id in m[k] && NextOf(m[k][id], dir) == ids[j]
      ensures m[k][id] == find(ids[j - 1]).value
    {
      assert id in ids;
      var i :| 0 <= i < |ids| && ids[i] == id;
      assert Succ(ids, i) == ids[j];
      assert i + 1 == j;
    }
  }

  /** Nothing in a coherent cache links to an id off the chain. */
  lemma {:induction false} NoPredecessorOffChain(m: Lists, find: Finder, head: u32, ids: seq<u32>,
                              dir: Direction, names: Labels.Names, x: u32)
    requires ChainOk(find, head, ids, dir) && Coherent(m, find, ids, names)
    requires x != 0 && x !in ids
    ensures forall k, id :: k in m && id in m[k] ==> NextOf(m[k][id], dir) != x
  {
    forall k, id | k in m && id in m[k]
      ensures NextOf(m[k][id], dir) != x
    {
      assert id in ids;
      var i :| 0 <= i < |ids| && ids[i] == id;
      assert NextOf(m[k][id], dir) == Succ(ids, i);
    }
  }

  // ---- unlinking ----

  /** The ids without the one at position j. */
  function Cut(ids: seq<u32>, j: nat): (r: seq<u32>)
    requires j < |ids|
    ensures |r| == |ids| - 1
    ensures forall i :: 0 <= i < j ==> r[i] == ids[i]
    ensures forall i :: j <= i < |r| ==> r[i] == ids[i + 1]
  {
    ids[..j] + ids[j + 1..]
  }

  /** The chain without the id x, where it is on the chain. */
  ghost function Unlinked(ids: seq<u32>, x: u32): seq<u32> {
    if x in ids then
      var j :| 0 <= j < |ids| && ids[j] == x;
      Cut(ids, j)
    else ids
  }

  /** A distinct chain has one position per id, so `Unlinked` cuts at that position, and what
      is left is distinct and no longer holds the id. */
  lemma {:induction false} UnlinkedAt(ids: seq<u32>, j: nat)
    requires Distinct(ids) && j < |ids|
    ensures Unlinked(ids, ids[j]) == Cut(ids, j)
    ensures ids[j] !in Cut(ids, j)
    ensures Distinct(Cut(ids, j))
  {
    var j' :| 0 <= j' < |ids| && ids[j'] == ids[j];
    assert j' == j;
    var r := Cut(ids, j);
    forall i | 0 <= i < |r|
      ensures r[i] != ids[j]
    {
      if i < j {
        assert r[i] == ids[i];
      } else {
        assert r[i] == ids[i + 1];
      }
    }
  }

  /** Unlinking the head: the chain from the head's link is the rest. */
  lemma {:induction false} UnlinkHead(find: Finder, head: u32, ids: seq<u32>, dir: Direction, names: Labels.Names)
    requires ChainOk(find, head, ids, dir) && KeysOk(find, ids, names) && ids != []
    ensures var e := find(ids[0]).value;
      ChainOk(find, NextOf(e, dir), Cut(ids, 0), dir) && KeysOk(find, Cut(ids, 0), names)
  {
    var r := Cut(ids, 0);
    UnlinkedAt(ids, 0);
    forall i | 0 <= i < |r|
      ensures Succ(r, i) == Succ(ids, i + 1)
    {
    }
  }

  /** The edge the predecessor of position j becomes: it takes over the link of the edge at j. */
  ghost function Bypass(find: Finder, ids: seq<u32>, dir: Direction, j: nat): Edge
    requires 0 < j < |ids| && find(ids[j - 1]).Some? && find(ids[j]).Some?
  {
    Relinked(find(ids[j - 1]).value, dir, NextOf(find(ids[j]).value, dir))
  }

  /** Relinking the predecessor keeps the chain linked without the edge at j. */
  lemma {:induction false} UnlinkLater(find: Finder, find2: Finder, head: u32, ids: seq<u32>, dir: Direction,
                    names: Labels.Names, j: nat)
    requires ChainOk(find, head, ids, dir) && KeysOk(find, ids, names) && 0 < j < |ids|
    requires StoredOver(find2, find, Bypass(find, ids, dir, j))
    ensures ChainOk(find2, head, Cut(ids, j), dir) && KeysOk(find2, Cut(ids, j), names)
  {
    var r := Cut(ids, j);
    UnlinkedAt(ids, j);
    forall i | 0 <= i < |r|
      ensures r[i] != 0 && find2(r[i]).Some? && find2(r[i]).value.Id == r[i]
      ensures NextOf(find2(r[i]).value, dir) == Succ(r, i)
      ensures names(find2(r[i]).value.labelId).Some?
    {
      if i < j - 1 {
        assert r[i] == ids[i] != ids[j - 1];
        assert Succ(r, i) == ids[i + 1];
      } else if i == j - 1 {
        assert r[i] == ids[j - 1];
        assert Succ(r, i) == Succ(ids, j);
      } else {
        assert r[i] == ids[i + 1] != ids[j - 1];
        assert Succ(r, i) == Succ(ids, i + 1);
      }
    }
  }

  /** Relinking an edge in one direction leaves the chains of the other direction as they
      were. */
  lemma {:induction false} OtherChainKept(find: Finder, find2: Finder, head: u32, ids: seq<u32>, dir: Direction,
                       p: Edge, next: u32, names: Labels.Names)
    requires ChainOk(find, head, ids, dir.Other()) && KeysOk(find, ids, names)
    requires find(p.Id) == Some(p)
    requires StoredOver(find2, find, Relinked(p, dir, next))
    ensures ChainOk(find2, head, ids, dir.Other()) && KeysOk(find2, ids, names)
  {
    assert dir.Other().Other() == dir;
  }

  // ---- the caches under unlinking ----

  /** A cache after a write through an edge it may hold: where the edge's key and id are filed,
      the entry becomes the written edge; elsewhere nothing changes. */
  ghost function Refreshed(m: Lists, e: Edge, names: Labels.Names): Lists {
    if names(e.labelId).Some? && names(e.labelId).value in m && e.Id in m[names(e.labelId).value]
    then Insert(m, names(e.labelId).value, e)
    else m
  }

  /** After the store tracks a changed copy of one of its edges (same id and label), a coherent
      cache refreshed with that copy is coherent with the new store. */
  lemma {:induction false} CoherentRefresh(m: Lists, find: Finder, find2: Finder, ids: seq<u32>, names: Labels.Names, e: Edge)
    requires Coherent(m, find, ids, names)
    requires forall i :: 0 <= i < |ids| ==> find(ids[i]).Some? && find(ids[i]).value.Id == ids[i]
    requires find(e.Id).Some? && find(e.Id).value.labelId == e.labelId && find(e.Id).value.Id == e.Id
    requires StoredOver(find2, find, e)
    ensures Coherent(Refreshed(m, e, names), find2, ids, names)
  {
    var r := Refreshed(m, e, names);
    if names(e.labelId).Some? && names(e.labelId).value in m && e.Id in m[names(e.labelId).value] {
      var key := names(e.labelId).value;
      NoEmptyListKept(m, key, e);
      forall i | 0 <= i < |ids|
        ensures find2(ids[i]).Some? && Cached(r, find2(ids[i]).value, names)
      {
        var f := find(ids[i]).value;
        InsertFinds(m, key, e, names(f.labelId).value, f.Id);
      }
      forall k, id | k in r && id in r[k]
        ensures id in ids && r[k][id].Id == id && find2(id) == Some(r[k][id]) && names(r[k][id].labelId) == Some(k)
      {
        InsertFinds(m, key, e, k, id);
      }
    } else {
      forall i | 0 <= i < |ids|
        ensures find2(ids[i]).Some? && Cached(r, find2(ids[i]).value, names)
      {
        assert Cached(m, find(ids[i]).value, names);
        assert ids[i] != e.Id;
      }
    }
  }

  /** Removing the edge at position j from a coherent cache leaves the cache of the chain
      without it. */
  lemma {:induction false} CoherentCut(m: Lists, find: Finder, ids: seq<u32>, names: Labels.Names, j: nat)
    requires Coherent(m, find, ids, names) && Distinct(ids) && j < |ids|
    requires forall i :: 0 <= i < |ids| ==> find(ids[i]).Some? && find(ids[i]).value.Id == ids[i]
    ensures var e := find(ids[j]).value;
      Coherent(Delete(m, Key(e, names), e), find, Cut(ids, j), names)
  {
    var e := find(ids[j]).value;
    NoEmptyListKept(m, Key(e, names), e);
    CutCached(m, find, ids, names, j, e);
    CutEntries(m, find, ids, names, j, e);
  }

  /** The first half of `CoherentCut`: every edge left on the chain is still cached. */
  lemma {:induction false} CutCached(m: Lists, find: Finder, ids: seq<u32>, names: Labels.Names, j: nat, e: Edge)
    requires Coherent(m, find, ids, names) && Distinct(ids) && j < |ids| && find(ids[j]) == Some(e)
    requires forall i :: 0 <= i < |ids| ==> find(ids[i]).Some? && find(ids[i]).value.Id == ids[i]
    ensures ChainCached(Delete(m, Key(e, names), e), find, Cut(ids, j), names)
  {
    var key := Key(e, names);
    var r := Delete(m, key, e);
    var c := Cut(ids, j);
    UnlinkedAt(ids, j);
    forall i | 0 <= i < |c|
      ensures find(c[i]).Some? && Cached(r, find(c[i]).value, names)
    {
      var f := find(c[i]).value;
      assert c[i] == ids[if i < j then i else i + 1];
      DeleteForgets(m, key, e, names(f.labelId).value, f.Id);
    }
  }

  /** The second half of `CoherentCut`: every edge the cache keeps is on the shortened chain. */
  lemma {:induction false} CutEntries(m: Lists, find: Finder, ids: seq<u32>, names: Labels.Names, j: nat, e: Edge)
    requires Coherent(m, find, ids, names) && Distinct(ids) && j < |ids| && find(ids[j]) == Some(e)
    requires forall i :: 0 <= i < |ids| ==> find(ids[i]).Some? && find(ids[i]).value.Id == ids[i]
    ensures CacheOnChain(Delete(m, Key(e, names), e), find, Cut(ids, j), names)
  {
    var key := Key(e, names);
    var r: Lists := Delete(m, key, e);
    var c := Cut(ids, j);
    forall k: Bytes, id: u32 | k in r && id in r[k]
      ensures id in c && r[k][id].Id == id && find(id) == Some(r[k][id]) && names(r[k][id].labelId) == Some(k)
    {
      DeleteForgets(m, key, e, k, id);
      assert id in ids;
      var n :| 0 <= n < |ids| && ids[n] == id;
      if n < j {
        assert c[n] == id;
      } else if n > j {
        assert c[n - 1] == id;
      }
    }
  }

  /** Removing an edge whose id is off the chain leaves a coherent cache as it was. */
  lemma {:induction false} DeleteOffChain(m: Lists, find: Finder, ids: seq<u32>, names: Labels.Names, key: Bytes, e: Edge)
    requires Coherent(m, find, ids, names) && e.Id !in ids
    ensures Delete(m, key, e) == m
  {
    if key in m {
      assert e.Id !in m[key];
      assert m[key] - {e.Id} == m[key];
    }
  }

  // ---- one chain of a vertex together with its cache ----

  /** The chain of one direction is well kept and, where the cache is built, the cache is
      coherent with it. */
  ghost predicate ChainKept(find: Finder, names: Labels.Names, head: u32, ids: seq<u32>,
                            dir: Direction, cache: Option<Lists>) {
    && ChainOk(find, head, ids, dir) && KeysOk(find, ids, names)
    && (cache.Some? ==> Coherent(cache.value, find, ids, names))
  }

  /** No list of the cache holds the id. */
  ghost predicate NotCached(m: Lists, x: u32) {
    forall k :: k in m ==> x !in m[k]
  }

  /** The id before x on the chain, or 0 when x comes first or is not on the chain. */
  ghost function Before(ids: seq<u32>, x: u32): u32 {
    if x in ids then
      var j :| 0 <= j < |ids| && ids[j] == x;
      if j == 0 then 0 else ids[j - 1]
    else 0
  }

  lemma {:induction false} BeforeAt(ids: seq<u32>, j: nat)
    requires Distinct(ids) && j < |ids|
    ensures Before(ids, ids[j]) == if j == 0 then 0 else ids[j - 1]
  {
    var j' :| 0 <= j' < |ids| && ids[j'] == ids[j];
    assert j' == j;
  }

  /** Unlinking an id from a distinct chain leaves it off the chain. */
  lemma {:induction false} UnlinkedGone(ids: seq<u32>, x: u32)
    requires Distinct(ids)
    ensures x !in Unlinked(ids, x)
  {
    if x in ids {
      var j :| 0 <= j < |ids| && ids[j] == x;
      UnlinkedAt(ids, j);
    }
  }

  /** An edge of the cache that links to x in this direction is the one just before x on the
      chain. */
  lemma {:induction false} PredecessorAt(find: Finder, names: Labels.Names, head: u32, ids: seq<u32>, dir: Direction,
                      m: Lists, key: Bytes, x: u32, target: u32) returns (j: nat)
    requires ChainKept(find, names, head, ids, dir, Some(m)) && target != 0
    requires key in m && x in m[key] && NextOf(m[key][x], dir) == target
    ensures 0 < j < |ids| && ids[j] == target && m[key][x] == find(ids[j - 1]).value
  {
    assert x in ids;
    var i :| 0 <= i < |ids| && ids[i] == x;
    assert NextOf(find(ids[i]).value, dir) == Succ(ids, i);
    j := i + 1;
  }

  /** An id other than the head that no cached edge links to is not on the chain. */
  lemma {:induction false} OffChainWithoutPredecessor(find: Finder, names: Labels.Names, head: u32, ids: seq<u32>,
                                   dir: Direction, m: Lists, target: u32)
    requires ChainKept(find, names, head, ids, dir, Some(m)) && target != head
    requires forall k, x :: k in m && x in m[k] ==> NextOf(m[k][x], dir) != target
    ensures target !in ids
  {
    if target in ids {
      var j :| 0 <= j < |ids| && ids[j] == target;
      PredecessorUnique(m, find, head, ids, dir, names, j);
    }
  }

  /** Removing the first edge: the head moves on to its link and the cache drops it. */
  lemma {:induction false} FirstRemoved(find: Finder, names: Labels.Names, head: u32, ids: seq<u32>, dir: Direction, m: Lists)
    requires ChainKept(find, names, head, ids, dir, Some(m)) && ids != []
    ensures var e := find(ids[0]).value;
      && names(e.labelId).Some?
      && ChainKept(find, names, NextOf(e, dir), Cut(ids, 0), dir, Some(Delete(m, Key(e, names), e)))
  {
    UnlinkHead(find, head, ids, dir, names);
    CoherentCut(m, find, ids, names, 0);
  }

  /** Removing a later edge: the store relinks its predecessor past it, and the cache takes the
      relinked predecessor and drops the edge. */
  lemma {:induction false} LaterRemoved(find: Finder, find2: Finder, names: Labels.Names, head: u32, ids: seq<u32>,
                     dir: Direction, m: Lists, j: nat)
    requires ChainKept(find, names, head, ids, dir, Some(m)) && 0 < j < |ids|
    requires StoredOver(find2, find, Bypass(find, ids, dir, j))
    ensures var b, e := Bypass(find, ids, dir, j), find(ids[j]).value;
      && names(b.labelId).Some? && names(e.labelId).Some?
      && ChainKept(find2, names, head, Cut(ids, j), dir,
                   Some(Delete(Insert(m, Key(b, names), b), Key(e, names), e)))
  {
    var b := Bypass(find, ids, dir, j);
    UnlinkLater(find, find2, head, ids, dir, names, j);
    assert Cached(m, find(ids[j - 1]).value, names);
    CoherentRefresh(m, find, find2, ids, names, b);
    var r := Refreshed(m, b, names);
    assert r == Insert(m, Key(b, names), b);
    forall i | 0 <= i < |ids|
      ensures find2(ids[i]).Some? && find2(ids[i]).value.Id == ids[i]
    {
    }
    CoherentCut(r, find2, ids, names, j);
    assert find2(ids[j]) == find(ids[j]);
  }

  /** The chain and cache of the other direction under the same relink. */
  lemma {:induction false} OtherRemoved(find: Finder, find2: Finder, names: Labels.Names, head: u32, ids: seq<u32>,
                     dir: Direction, c: Option<Lists>, p: Edge, next: u32)
    requires ChainKept(find, names, head, ids, dir.Other(), c) && find(p.Id) == Some(p)
    requires StoredOver(find2, find, Relinked(p, dir, next))
    ensures ChainKept(find2, names, head, ids, dir.Other(),
                      if c.Some? then Some(Refreshed(c.value, Relinked(p, dir, next), names)) else None)
  {
    OtherChainKept(find, find2, head, ids, dir, p, next, names);
    if c.Some? {
      CoherentRefresh(c.value, find, find2, ids, names, Relinked(p, dir, next));
    }
  }

  /** Removing a later edge from a vertex's chain in `dir`, in one step: the chain and cache
      of `dir` as `LaterRemoved` leaves them, without the edge, and the chain and cache of the
      other direction as `OtherRemoved` leaves them. */
  lemma {:induction false} LaterStep(find: Finder, find2: Finder, names: Labels.Names, head: u32, ids: seq<u32>,
                  dir: Direction, m: Lists, otherHead: u32, other: seq<u32>, c: Option<Lists>, j: nat)
    requires ChainKept(find, names, head, ids, dir, Some(m)) && 0 < j < |ids|
    requires ChainKept(find, names, otherHead, other, dir.Other(), c)
    requires StoredOver(find2, find, Bypass(find, ids, dir, j))
    ensures var b, e := Bypass(find, ids, dir, j), find(ids[j]).value;
      && names(b.labelId).Some? && names(e.labelId).Some?
      && var m' := Delete(Insert(m, Key(b, names), b), Key(e, names), e);
      && ChainKept(find2, names, head, Cut(ids, j), dir, Some(m'))
      && NotCached(m', e.Id)
      && ChainKept(find2, names, otherHead, other, dir.Other(),
                   if c.Some? then Some(Refreshed(c.value, b, names)) else None)
  {
    var p := find(ids[j - 1]).value;
    UnlinkedAt(ids, j);
    LaterRemoved(find, find2, names, head, ids, dir, m, j);
    OtherRemoved(find, find2, names, otherHead, other, dir, c, p, NextOf(find(ids[j]).value, dir));
    var b, e := Bypass(find, ids, dir, j), find(ids[j]).value;
    NotCachedOffChain(Delete(Insert(m, Key(b, names), b), Key(e, names), e), find2, Cut(ids, j), names, e.Id);
  }

  /** A coherent cache that takes a relinked edge and then drops `e` holds `e`'s id nowhere. */
  lemma {:induction false} DroppedAfterRelink(m: Lists, find: Finder, ids: seq<u32>, names: Labels.Names, b: Edge, e: Edge)
    requires Coherent(m, find, ids, names) && find(e.Id) == Some(e) && b.Id != e.Id
    requires names(b.labelId).Some? && names(e.labelId).Some?
    ensures NotCached(Delete(Insert(m, Key(b, names), b), Key(e, names), e), e.Id)
  {
    var m1 := Insert(m, Key(b, names), b);
    var r := Delete(m1, Key(e, names), e);
    forall k | k in r
      ensures e.Id !in r[k]
    {
      DeleteForgets(m1, Key(e, names), e, k, e.Id);
      InsertFinds(m, Key(b, names), b, k, e.Id);
    }
  }

  /** A coherent cache holds no id off its chain. */
  lemma {:induction false} NotCachedOffChain(m: Lists, find: Finder, ids: seq<u32>, names: Labels.Names, x: u32)
    requires Coherent(m, find, ids, names) && x !in ids
    ensures NotCached(m, x)
  {
  }
}
