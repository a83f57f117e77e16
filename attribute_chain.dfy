// The attribute chain of a vertex or an edge (data/attributable.go) as a ghost sequence: the
// owner keeps the id of its first attribute and each attribute the id of the next. `ChainOk` is
// what a well-kept owner satisfies: the sequence is linked from `firstAtt` to a `next` of 0,
// every element is what the attribute store returns for its id, ids are distinct and in use by
// the allocator, and keys are distinct. The owner's cache is coherent when it equals
// `Cache(chain)`, each element under its key. The lemmas show that the changes `SetAttribute`
// and `RemoveAttribute` make keep all of this.

module AttributeChains {
  import opened Conversion
  import opened IdStores
  import Labels
  import opened Attributes
  import opened AttributeMaps
  import opened AttributeStores

  // ---- the chain as `Attributes` reads it ----

  /** The attributes the walk of `Attributes` visits from `first`: it stops at a `next` of 0
      or at an id the store cannot find. */
  ghost predicate Walk(tracking: map<u32, Attribute>, file: Bytes, first: u32, chain: seq<Attribute>)
    decreases |chain|
  {
    match Follow(tracking, file, first)
    case None => chain == []
    case Some(a) => chain != [] && chain[0] == a && Walk(tracking, file, a.next, chain[1..])
  }

  /** The map `m` after `add` of each attribute of the chain in order: a later attribute
      replaces an earlier one with the same key. */
  function AddAll(m: map<Bytes, Attribute>, chain: seq<Attribute>, names: Labels.Names): map<Bytes, Attribute>
    decreases |chain|
  {
    if chain == [] then m else AddAll(Put(m, chain[0], names), chain[1..], names)
  }

  // ---- the invariant of an owner ----

  /** Linked from `first` through the `next` ids to a `next` of 0; empty iff `first` is 0. */
  ghost predicate Linked(first: u32, chain: seq<Attribute>)
    decreases |chain|
  {
    if chain == [] then first == 0
    else first != 0 && chain[0].Id == first && Linked(chain[0].next, chain[1..])
  }

  /** Every element is what the store's `Find` returns for its id. */
  ghost predicate Stored(tracking: map<u32, Attribute>, file: Bytes, chain: seq<Attribute>)
    decreases |chain|
  {
    chain == [] ||
    (chain[0].Id != 0 && LookupIn(tracking, file, chain[0].Id) == Some(chain[0]) && Stored(tracking, file, chain[1..]))
  }

  ghost function Ids(chain: seq<Attribute>): set<nat>
    decreases |chain|
  {
    if chain == [] then {} else {chain[0].Id as nat} + Ids(chain[1..])
  }

  ghost predicate DistinctIds(chain: seq<Attribute>)
    decreases |chain|
  {
    chain == [] || (chain[0].Id as nat !in Ids(chain[1..]) && DistinctIds(chain[1..]))
  }

  ghost function ChainKeys(chain: seq<Attribute>, names: Labels.Names): set<Bytes>
    decreases |chain|
  {
    if chain == [] then {} else {KeyOrEmpty(chain[0], names)} + ChainKeys(chain[1..], names)
  }

  /** Every element has a key, and no two elements share one. */
  ghost predicate KeysOk(chain: seq<Attribute>, names: Labels.Names)
    decreases |chain|
  {
    chain == [] ||
    (Key(chain[0], names).Some? && KeyOrEmpty(chain[0], names) !in ChainKeys(chain[1..], names) && KeysOk(chain[1..], names))
  }

  /** The cache a chain with distinct keys calls for: each element under its key. */
  function Cache(chain: seq<Attribute>, names: Labels.Names): map<Bytes, Attribute>
    decreases |chain|
  {
    if chain == [] then map[] else Cache(chain[1..], names)[KeyOrEmpty(chain[0], names) := chain[0]]
  }

  ghost predicate ChainOk(tracking: map<u32, Attribute>, file: Bytes, pool: Pool, first: u32,
                          chain: seq<Attribute>, names: Labels.Names)
  {
    && Linked(first, chain)
    && Stored(tracking, file, chain)
    && DistinctIds(chain)
    && KeysOk(chain, names)
    && PoolOk(pool)
    && Ids(chain) <= Issued(pool)
  }

  // ---- facts about one chain ----

  /** A linked chain whose elements the store returns is exactly what the walk visits. */
  lemma {:induction false} LinkedWalk(tracking: map<u32, Attribute>, file: Bytes, first: u32, chain: seq<Attribute>)
    requires Linked(first, chain) && Stored(tracking, file, chain)
    ensures Walk(tracking, file, first, chain)
    decreases |chain|
  {
    if chain != [] {
      LinkedWalk(tracking, file, chain[0].next, chain[1..]);
    }
  }

  /** The cache holds exactly the keys of the chain. */
  lemma {:induction false} CacheKeys(chain: seq<Attribute>, names: Labels.Names)
    ensures Cache(chain, names).Keys == ChainKeys(chain, names)
    decreases |chain|
  {
    if chain != [] {
      CacheKeys(chain[1..], names);
    }
  }

  /** With distinct keys, the walk's `add`s on top of any map give that map overlaid with the
      chain's cache. */
  lemma {:induction false} AddAllCache(m: map<Bytes, Attribute>, chain: seq<Attribute>, names: Labels.Names)
    requires KeysOk(chain, names)
    ensures AddAll(m, chain, names) == m + Cache(chain, names)
    decreases |chain|
  {
    if chain != [] {
      var k := KeyOrEmpty(chain[0], names);
      AddAllCache(Put(m, chain[0], names), chain[1..], names);
      CacheKeys(chain[1..], names);
      assert m[k := chain[0]] + Cache(chain[1..], names) == m + Cache(chain, names);
    }
  }

  /** With distinct keys, the cache `Attributes` builds is the chain's cache. */
  lemma {:induction false} CollectIsCache(chain: seq<Attribute>, names: Labels.Names)
    requires KeysOk(chain, names)
    ensures AddAll(map[], chain, names) == Cache(chain, names)
  {
    AddAllCache(map[], chain, names);
    assert map[] + Cache(chain, names) == Cache(chain, names);
  }

  /** A cached attribute is an element of the chain, under its own key. */
  lemma {:induction false} CachedIndex(chain: seq<Attribute>, names: Labels.Names, k: Bytes) returns (j: nat)
    requires k in Cache(chain, names)
    ensures j < |chain| && KeyOrEmpty(chain[j], names) == k && Cache(chain, names)[k] == chain[j]
    decreases |chain|
  {
    if k == KeyOrEmpty(chain[0], names) {
      j := 0;
    } else {
      var j' := CachedIndex(chain[1..], names, k);
      j := j' + 1;
    }
  }

  /** Conversely, every element of a chain with distinct keys is cached under its key. */
  lemma {:induction false} CacheAt(chain: seq<Attribute>, names: Labels.Names, i: nat)
    requires KeysOk(chain, names) && i < |chain|
    ensures Key(chain[i], names).Some?
    ensures KeyOrEmpty(chain[i], names) in Cache(chain, names)
    ensures Cache(chain, names)[KeyOrEmpty(chain[i], names)] == chain[i]
    decreases i
  {
    if i > 0 {
      CacheAt(chain[1..], names, i - 1);
      ChainKeyAt(chain[1..], names, i - 1);
    }
  }

  /** Every element's id is non-zero, and its `next` is the id of the element after it, or 0
      for the last. */
  lemma {:induction false} LinkedAt(first: u32, chain: seq<Attribute>, i: nat)
    requires Linked(first, chain) && i < |chain|
    ensures chain[i].Id != 0
    ensures i + 1 < |chain| ==> chain[i].next == chain[i + 1].Id
    ensures i + 1 == |chain| ==> chain[i].next == 0
    decreases i
  {
    if i > 0 {
      LinkedAt(chain[0].next, chain[1..], i - 1);
    }
  }

  lemma {:induction false} IdAt(chain: seq<Attribute>, i: nat)
    requires i < |chain|
    ensures chain[i].Id as nat in Ids(chain)
    decreases i
  {
    if i > 0 {
      IdAt(chain[1..], i - 1);
    }
  }

  lemma {:induction false} ChainKeyAt(chain: seq<Attribute>, names: Labels.Names, i: nat)
    requires i < |chain|
    ensures KeyOrEmpty(chain[i], names) in ChainKeys(chain, names)
    decreases i
  {
    if i > 0 {
      ChainKeyAt(chain[1..], names, i - 1);
    }
  }

  /** Distinct ids: equal ids mean the same position. */
  lemma {:induction false} SameId(chain: seq<Attribute>, p: nat, q: nat)
    requires DistinctIds(chain) && p < |chain| && q < |chain| && chain[p].Id == chain[q].Id
    ensures p == q
    decreases p + q
  {
    if p > 0 && q > 0 {
      SameId(chain[1..], p - 1, q - 1);
    } else if p > 0 {
      IdAt(chain[1..], p - 1);
    } else if q > 0 {
      IdAt(chain[1..], q - 1);
    }
  }

  /** In a linked chain with distinct ids, the only element whose `next` is the id of the
      element j is the one just before it, and no element points at the first. */
  lemma {:induction false} Predecessor(first: u32, chain: seq<Attribute>, i: nat, j: nat)
    requires Linked(first, chain) && DistinctIds(chain)
    requires i < |chain| && j < |chain| && chain[i].next == chain[j].Id
    ensures j > 0 && i == j - 1
  {
    LinkedAt(first, chain, i);
    LinkedAt(first, chain, j);
    if i + 1 < |chain| {
      SameId(chain, i + 1, j);
    }
  }

  /** The first element is the only one whose id is `first`. */
  lemma {:induction false} HeadId(first: u32, chain: seq<Attribute>, j: nat)
    requires Linked(first, chain) && DistinctIds(chain) && j < |chain|
    ensures chain[j].Id == first <==> j == 0
  {
    if chain[j].Id == first {
      SameId(chain, 0, j);
    }
  }

  /** Changing the store at an id the chain does not use leaves the chain stored. */
  lemma {:induction false} StoredOther(tracking: map<u32, Attribute>, file: Bytes, chain: seq<Attribute>, x: Attribute)
    requires Stored(tracking, file, chain) && x.Id as nat !in Ids(chain)
    ensures Stored(tracking[x.Id := x], file, chain)
    decreases |chain|
  {
    if chain != [] {
      StoredOther(tracking, file, chain[1..], x);
    }
  }

  /** A key the chain does not have is not cached. */
  lemma {:induction false} NotCached(chain: seq<Attribute>, names: Labels.Names, k: Bytes)
    requires k !in ChainKeys(chain, names)
    ensures k !in Cache(chain, names)
  {
    CacheKeys(chain, names);
  }

  // ---- the changes `SetAttribute` and `RemoveAttribute` make keep the invariant ----

  /** Prepending a freshly allocated attribute with a new key: the new id is in no element,
      so the old elements stay as the store returns them. */
  lemma {:induction false} PrependKeeps(tracking: map<u32, Attribute>, file: Bytes, pool: Pool, first: u32,
                     chain: seq<Attribute>, names: Labels.Names, b: Attribute)
    requires ChainOk(tracking, file, pool, first, chain, names)
    requires |pool.ids| != 0 || pool.lastId + 1 < TWO32
    requires b.Id as nat == Next(pool, 4).0 && b.next == first
    requires Key(b, names).Some? && KeyOrEmpty(b, names) !in ChainKeys(chain, names)
    ensures ChainOk(tracking[b.Id := b], file, Next(pool, 4).1, b.Id, [b] + chain, names)
    ensures Cache([b] + chain, names) == Cache(chain, names)[KeyOrEmpty(b, names) := b]
  {
    assert Pow256(4) == TWO32;
    NextNeverReissues(pool, 4);
    var c := [b] + chain;
    assert c[1..] == chain;
    StoredOther(tracking, file, chain, b);
  }

  /** Replacing the element j by one with the same id, link and label keeps the shape. */
  lemma {:induction false} ReplaceKeeps(first: u32, chain: seq<Attribute>, names: Labels.Names, j: nat, u: Attribute)
    requires j < |chain| && u.Id == chain[j].Id && u.next == chain[j].next && u.labelId == chain[j].labelId
    ensures Linked(first, chain[j := u]) == Linked(first, chain)
    ensures Ids(chain[j := u]) == Ids(chain) && DistinctIds(chain[j := u]) == DistinctIds(chain)
    ensures ChainKeys(chain[j := u], names) == ChainKeys(chain, names)
    ensures KeysOk(chain[j := u], names) == KeysOk(chain, names)
    decreases j
  {
    if j > 0 {
      assert chain[j := u][1..] == chain[1..][j - 1 := u];
      ReplaceKeeps(chain[0].next, chain[1..], names, j - 1, u);
    } else {
      assert chain[0 := u][1..] == chain[1..];
    }
  }

  /** Tracking the replacement: the store returns it for its id and nothing else changes. */
  lemma {:induction false} ReplaceStored(tracking: map<u32, Attribute>, file: Bytes, chain: seq<Attribute>, j: nat, u: Attribute)
    requires Stored(tracking, file, chain) && DistinctIds(chain)
    requires j < |chain| && u.Id == chain[j].Id
    ensures Stored(tracking[u.Id := u], file, chain[j := u])
    decreases j
  {
    if j == 0 {
      assert chain[0 := u][1..] == chain[1..];
      StoredOther(tracking, file, chain[1..], u);
    } else {
      assert chain[j := u][1..] == chain[1..][j - 1 := u];
      IdAt(chain[1..], j - 1);
      ReplaceStored(tracking, file, chain[1..], j - 1, u);
    }
  }

  /** Replacing an element replaces it in the cache under the same key. */
  lemma {:induction false} ReplaceCache(chain: seq<Attribute>, names: Labels.Names, j: nat, u: Attribute)
    requires KeysOk(chain, names) && j < |chain| && u.labelId == chain[j].labelId
    ensures Cache(chain[j := u], names) == Cache(chain, names)[KeyOrEmpty(u, names) := u]
    decreases j
  {
    if j == 0 {
      assert chain[0 := u][1..] == chain[1..];
    } else {
      assert chain[j := u][1..] == chain[1..][j - 1 := u];
      ReplaceCache(chain[1..], names, j - 1, u);
      ChainKeyAt(chain[1..], names, j - 1);
    }
  }

  /** Changing the type and value of the element j in place keeps the owner well kept, and the
      cache holds the changed element under its key. */
  lemma {:induction false} UpdateKeeps(tracking: map<u32, Attribute>, file: Bytes, pool: Pool, first: u32,
                    chain: seq<Attribute>, names: Labels.Names, j: nat, t: byte, data: Bytes)
    requires ChainOk(tracking, file, pool, first, chain, names) && j < |chain|
    ensures var u := chain[j].(t := t, data := data);
      && ChainOk(tracking[u.Id := u], file, pool, first, chain[j := u], names)
      && Cache(chain[j := u], names) == Cache(chain, names)[KeyOrEmpty(u, names) := u]
  {
    var u := chain[j].(t := t, data := data);
    ReplaceKeeps(first, chain, names, j, u);
    ReplaceStored(tracking, file, chain, j, u);
    ReplaceCache(chain, names, j, u);
  }

  /** Unlinking the first element: the chain starts at its `next`, its id goes back to the
      pool, its tombstone is tracked, and the cache loses its key. */
  lemma {:induction false} UnlinkHeadKeeps(tracking: map<u32, Attribute>, file: Bytes, pool: Pool, first: u32,
                        chain: seq<Attribute>, names: Labels.Names)
    requires ChainOk(tracking, file, pool, first, chain, names) && chain != []
    ensures var a := chain[0];
      && ChainOk(tracking[a.Id := a.(t := EmptyT)], file, Add(pool, a.Id as nat), a.next, chain[1..], names)
      && Cache(chain[1..], names) == Cache(chain, names) - {KeyOrEmpty(a, names)}
  {
    var a := chain[0];
    var rest := chain[1..];
    AddReleases(pool, a.Id as nat);
    assert Ids(rest) <= Issued(pool) - {a.Id as nat};
    StoredOther(tracking, file, rest, a.(t := EmptyT));
    NotCached(rest, names, KeyOrEmpty(a, names));
    DropFresh(Cache(rest, names), KeyOrEmpty(a, names), a);
  }

  /** Dropping the first element takes exactly its id and key away. */
  lemma {:induction false} HeadShape(chain: seq<Attribute>, names: Labels.Names)
    requires DistinctIds(chain) && KeysOk(chain, names) && chain != []
    ensures Ids(chain[1..]) == Ids(chain) - {chain[0].Id as nat}
    ensures ChainKeys(chain[1..], names) == ChainKeys(chain, names) - {KeyOrEmpty(chain[0], names)}
  {
  }

  /** The chain with the element j (not the first) unlinked: its predecessor points past it. */
  function Unlinked(chain: seq<Attribute>, j: nat): (r: seq<Attribute>)
    requires 0 < j < |chain|
    ensures |r| == |chain| - 1
    decreases j
  {
    if j == 1 then [chain[0].(next := chain[1].next)] + chain[2..]
    else [chain[0]] + Unlinked(chain[1..], j - 1)
  }

  /** The predecessor of the element j, relinked past it. */
  function Relinked(chain: seq<Attribute>, j: nat): Attribute
    requires 0 < j < |chain|
  {
    chain[j - 1].(next := chain[j].next)
  }

  /** Unlinking keeps the chain linked from the same first id and takes exactly the element's
      id and key away. */
  lemma {:induction false} UnlinkShape(first: u32, chain: seq<Attribute>, names: Labels.Names, j: nat)
    requires Linked(first, chain) && DistinctIds(chain) && KeysOk(chain, names) && 0 < j < |chain|
    ensures var r := Unlinked(chain, j);
      && Linked(first, r) && DistinctIds(r) && KeysOk(r, names)
      && Ids(r) == Ids(chain) - {chain[j].Id as nat}
      && ChainKeys(r, names) == ChainKeys(chain, names) - {KeyOrEmpty(chain[j], names)}
    decreases j
  {
    var r := Unlinked(chain, j);
    if j == 1 {
      assert r[1..] == chain[2..];
      assert chain[1..][1..] == chain[2..];
    } else {
      UnlinkShape(chain[0].next, chain[1..], names, j - 1);
      assert r[1..] == Unlinked(chain[1..], j - 1);
      assert chain[1..][j - 1] == chain[j];
      IdAt(chain[1..], j - 1);
      ChainKeyAt(chain[1..], names, j - 1);
    }
  }

  /** Tracking the relinked predecessor and the tombstone keeps the remaining chain stored. */
  lemma {:induction false} UnlinkStored(tracking: map<u32, Attribute>, file: Bytes, chain: seq<Attribute>, j: nat)
    requires Stored(tracking, file, chain) && DistinctIds(chain) && 0 < j < |chain|
    ensures var a := chain[j]; var u := Relinked(chain, j);
      Stored(tracking[u.Id := u][a.Id := a.(t := EmptyT)], file, Unlinked(chain, j))
    decreases j
  {
    var a := chain[j];
    var u := Relinked(chain, j);
    var r := Unlinked(chain, j);
    if j == 1 {
      assert r[1..] == chain[2..];
      assert chain[1..][1..] == chain[2..];
      StoredOther(tracking, file, chain[2..], u);
      StoredOther(tracking[u.Id := u], file, chain[2..], a.(t := EmptyT));
    } else {
      var t2 := tracking[u.Id := u][a.Id := a.(t := EmptyT)];
      assert chain[1..][j - 1] == a && Relinked(chain[1..], j - 1) == u;
      UnlinkStored(tracking, file, chain[1..], j - 1);
      IdAt(chain[1..], j - 1);
      IdAt(chain[1..], j - 2);
      assert chain[0].Id != u.Id && chain[0].Id != a.Id;
      assert LookupIn(t2, file, chain[0].Id) == Some(chain[0]);
      assert r[0] == chain[0] && r[1..] == Unlinked(chain[1..], j - 1);
    }
  }

  /** The cache of the remaining chain holds the relinked predecessor and not the element. */
  lemma {:induction false} UnlinkCache(chain: seq<Attribute>, names: Labels.Names, j: nat)
    requires KeysOk(chain, names) && 0 < j < |chain|
    ensures var u := Relinked(chain, j);
      Cache(Unlinked(chain, j), names) == Cache(chain, names)[KeyOrEmpty(u, names) := u] - {KeyOrEmpty(chain[j], names)}
    decreases j
  {
    var r := Unlinked(chain, j);
    var u := Relinked(chain, j);
    var ku, ka := KeyOrEmpty(u, names), KeyOrEmpty(chain[j], names);
    if j == 1 {
      var c2 := Cache(chain[2..], names);
      assert r[1..] == chain[2..];
      assert chain[1..][1..] == chain[2..];
      NotCached(chain[2..], names, ka);
      assert Cache(chain, names)[ku := u] == c2[ka := chain[1]][ku := u];
      DropOther(c2[ka := chain[1]], ku, u, ka);
      DropFresh(c2, ka, chain[1]);
    } else {
      var k0 := KeyOrEmpty(chain[0], names);
      var c1 := Cache(chain[1..], names);
      UnlinkCache(chain[1..], names, j - 1);
      assert r[1..] == Unlinked(chain[1..], j - 1);
      assert chain[1..][j - 1] == chain[j] && chain[1..][j - 2] == chain[j - 1];
      ChainKeyAt(chain[1..], names, j - 1);
      ChainKeyAt(chain[1..], names, j - 2);
      SwapUpdates(c1, k0, chain[0], ku, u);
      DropOther(c1[ku := u], k0, chain[0], ka);
    }
  }

  /** Unlinking an element after the first keeps the owner well kept. */
  lemma {:induction false} UnlinkKeeps(tracking: map<u32, Attribute>, file: Bytes, pool: Pool, first: u32,
                    chain: seq<Attribute>, names: Labels.Names, j: nat)
    requires ChainOk(tracking, file, pool, first, chain, names) && 0 < j < |chain|
    ensures var a := chain[j]; var u := Relinked(chain, j);
      && ChainOk(tracking[u.Id := u][a.Id := a.(t := EmptyT)], file, Add(pool, a.Id as nat), first, Unlinked(chain, j), names)
      && Cache(Unlinked(chain, j), names) == Cache(chain, names)[KeyOrEmpty(u, names) := u] - {KeyOrEmpty(a, names)}
  {
    var a := chain[j];
    IdAt(chain, j);
    AddReleases(pool, a.Id as nat);
    UnlinkShape(first, chain, names, j);
    UnlinkStored(tracking, file, chain, j);
    UnlinkCache(chain, names, j);
  }

  // ---- small facts about maps ----

  lemma {:induction false} DropFresh<K, V>(m: map<K, V>, k: K, v: V)
    requires k !in m
    ensures m[k := v] - {k} == m
  {
  }

  lemma {:induction false} DropOther<K, V>(m: map<K, V>, k: K, v: V, d: K)
    requires k != d
    ensures m[k := v] - {d} == (m - {d})[k := v]
  {
  }

  lemma {:induction false} SwapUpdates<K, V>(m: map<K, V>, k1: K, v1: V, k2: K, v2: V)
    requires k1 != k2
    ensures m[k1 := v1][k2 := v2] == m[k2 := v2][k1 := v1]
  {
  }
}
