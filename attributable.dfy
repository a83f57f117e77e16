// The attribute-holding part of a vertex or an edge (data/attributable.go): the id of its first
// attribute and, once `Attributes` has walked the chain, the cache of its attributes by key.
// Each operation takes the graph's attribute store and the label names (`Labels.Names`, the
// label store's `find` followed by `Value`) as parameters, and a ghost chain that describes
// the attributes as `AttributeChains` does.
//
// In Go the owner's `track` is reached through the embedded `attributable`, whose `track`
// panics; here the corrected `SetAttribute` and `RemoveAttribute` report instead whether the
// owner changed, so that the vertex or edge can track itself.

module Attributables {
  import opened Conversion
  import opened IdStores
  import Labels
  import opened Attributes
  import opened AttributeMaps
  import opened AttributeStores
  import opened AttributeChains

  /** `FirstAttribute` as written: it hands `firstAtt` to `Find`, whose assertion fails on 0,
      the `firstAtt` of every owner without attributes. */
  function FirstAttributeAsWritten(tracking: map<u32, Attribute>, file: Bytes, firstAtt: u32): Outcome<Option<Attribute>> {
    if firstAtt == 0 then Panicked else Done(LookupIn(tracking, file, firstAtt))
  }

  /** Where the owner has attributes, the corrected first attribute is what the code as written
      returns; where it has none, the code as written panics and the corrected one returns
      nothing, so that `Attributes` gives the empty map. */
  lemma {:induction false} FirstAttributeCorrected(tracking: map<u32, Attribute>, file: Bytes, firstAtt: u32)
    ensures firstAtt != 0 ==> FirstAttributeAsWritten(tracking, file, firstAtt) == Done(Follow(tracking, file, firstAtt))
    ensures firstAtt == 0 ==> FirstAttributeAsWritten(tracking, file, firstAtt).Panicked? && Walk(tracking, file, firstAtt, [])
  {
  }

  /** The loop of `RemoveAttribute` over the cache: the key of an attribute whose `next` is
      `id`, if there is one. Go visits a map in no fixed order, so any such key may come out. */
  method FindPredecessor(m: AttributeMap, id: u32) returns (r: Option<Bytes>)
    ensures r.Some? ==> r.value in m.entries && m.entries[r.value].next == id
    ensures r.None? ==> forall k :: k in m.entries ==> m.entries[k].next != id
  {
    var keys := m.entries.Keys;
    while keys != {}
      invariant keys <= m.entries.Keys
      invariant forall k :: k in m.entries && k !in keys ==> m.entries[k].next != id
      decreases keys
    {
      var k :| k in keys;
      if m.entries[k].next == id {
        return Some(k);
      }
      keys := keys - {k};
    }
    r := None;
  }

  class Attributable {
    var firstAtt: u32
    var aMap: AttributeMap?

    /** The zero value embedded in a new vertex or edge: no attributes, nothing cached. */
    constructor ()
      ensures firstAtt == 0 && aMap == null
    {
      firstAtt := 0;
      aMap := null;
    }

    /** The owner is well kept with this chain, and the cache, once built, holds the chain. */
    ghost predicate Valid(store: AttributeStore, names: Labels.Names, chain: seq<Attribute>)
      reads this, aMap, store, store.idStore
    {
      && store.Valid()
      && ChainOk(store.tracking, store.file, store.idStore.State(), firstAtt, chain, names)
      && (aMap != null ==> aMap.entries == Cache(chain, names))
    }

    /** `FirstAttribute`, corrected: nothing when the owner has no attributes. */
    method FirstAttribute(store: AttributeStore) returns (r: Option<Attribute>)
      requires store.Valid()
      ensures r == Follow(store.tracking, store.file, firstAtt)
    {
      if firstAtt == 0 {
        return None;
      }
      r := store.Find(firstAtt);
    }

    /** `Attributes`: on the first call, walk the chain from `firstAtt` through `Next` and add
        each attribute to a new map, which is cached; later calls return the cached map. */
    method Attributes(store: AttributeStore, names: Labels.Names, ghost chain: seq<Attribute>) returns (m: AttributeMap)
      requires store.Valid()
      requires aMap == null ==> Walk(store.tracking, store.file, firstAtt, chain)
      modifies this`aMap
      ensures aMap == m
      ensures old(aMap) != null ==> m == old(aMap)
      ensures old(aMap) == null ==> fresh(m) && m.entries == AddAll(map[], chain, names)
    {
      if aMap != null {
        return aMap;
      }
      m := new AttributeMap();
      var a := FirstAttribute(store);
      ghost var i := 0;
      ghost var cur := firstAtt;
      while a.Some?
        invariant fresh(m)
        invariant i <= |chain|
        invariant a == Follow(store.tracking, store.file, cur)
        invariant Walk(store.tracking, store.file, cur, chain[i..])
        invariant AddAll(m.entries, chain[i..], names) == AddAll(map[], chain, names)
        decreases |chain| - i
      {
        assert chain[i..][1..] == chain[i + 1..];
        var ok := m.Add(a.value, names);
        cur := a.value.next;
        a := store.NextOf(a.value);
        i := i + 1;
      }
      aMap := m;
    }

    /** `Attributes` on a well-kept owner: the cache is the chain's. */
    method CachedAttributes(store: AttributeStore, names: Labels.Names, ghost chain: seq<Attribute>) returns (m: AttributeMap)
      requires Valid(store, names, chain)
      modifies this`aMap
      ensures Valid(store, names, chain) && aMap == m && m.entries == Cache(chain, names)
      ensures old(aMap) != null ==> m == old(aMap)
      ensures old(aMap) == null ==> fresh(m)
    {
      ghost var built := aMap != null;
      LinkedWalk(store.tracking, store.file, firstAtt, chain);
      m := Attributes(store, names, chain);
      if !built {
        CollectIsCache(chain, names);
      }
    }

    /** `SetAttribute` on a key the owner has: the cached attribute under it takes the new type
        and value and is tracked; the chain keeps its shape. */
    method Update(m: AttributeMap, a: Attribute, store: AttributeStore, names: Labels.Names, ghost chain: seq<Attribute>)
        returns (ghost j: nat)
      requires Valid(store, names, chain) && aMap == m && KeyOrEmpty(a, names) in m.entries
      modifies m, store`tracking
      ensures j < |chain| && KeyOrEmpty(chain[j], names) == KeyOrEmpty(a, names)
      ensures Valid(store, names, chain[j := chain[j].(t := a.t, data := a.data)])
      ensures store.tracking == old(store.tracking)[chain[j].Id := chain[j].(t := a.t, data := a.data)]
    {
      ghost var t0 := store.tracking;
      var current := m.Get(KeyOrEmpty(a, names));
      j := CachedIndex(chain, names, KeyOrEmpty(a, names));
      var upd := current.value.(t := a.t, data := a.data);
      UpdateKeeps(t0, store.file, store.idStore.State(), firstAtt, chain, names, j, a.t, a.data);
      LinkedAt(firstAtt, chain, j);
      CacheAt(chain, names, j);
      store.Track(upd);
      var ok := m.Add(upd, names);
    }

    /** `SetAttribute` on a new key: the attribute gets a fresh id and the old first attribute
        as its `next`, and is cached and tracked as the new first attribute. */
    method Prepend(m: AttributeMap, a: Attribute, store: AttributeStore, names: Labels.Names, ghost chain: seq<Attribute>)
        returns (b: Attribute)
      requires Valid(store, names, chain) && aMap == m && Key(a, names).Some?
      requires KeyOrEmpty(a, names) !in ChainKeys(chain, names)
      requires |store.idStore.ids| != 0 || store.idStore.lastId + 1 < TWO32
      modifies this`firstAtt, m, store`tracking, store.idStore`lastId, store.idStore`ids
      ensures (firstAtt as nat, store.idStore.State()) == Next(old(store.idStore.State()), 4)
      ensures b == a.(Id := firstAtt, next := old(firstAtt))
      ensures Valid(store, names, [b] + chain)
      ensures store.tracking == old(store.tracking)[firstAtt := b]
    {
      ghost var t0, p0 := store.tracking, store.idStore.State();
      var id := store.NextId();
      b := a.(Id := id, next := firstAtt);
      PrependKeeps(t0, store.file, p0, firstAtt, chain, names, b);
      firstAtt := id;
      var ok := m.Add(b, names);
      store.Track(b);
    }

    /** `SetAttribute`, corrected: for a key the owner has, the cached attribute takes the new
        type and value and is tracked, and the chain keeps its shape; for a new key, the
        attribute gets a fresh id, is prepended to the chain, cached and tracked, and the owner
        reports that it changed. */
    method SetAttribute(a: Attribute, store: AttributeStore, names: Labels.Names, ghost chain: seq<Attribute>)
        returns (ownerChanged: bool, ghost chain': seq<Attribute>)
      requires Valid(store, names, chain)
      requires Key(a, names).Some? || KeyOrEmpty(a, names) in ChainKeys(chain, names)
      requires KeyOrEmpty(a, names) !in ChainKeys(chain, names) ==>
        |store.idStore.ids| != 0 || store.idStore.lastId + 1 < TWO32
      modifies this, aMap, store`tracking, store.idStore`lastId, store.idStore`ids
      ensures Valid(store, names, chain') && aMap != null
      ensures var k := KeyOrEmpty(a, names); k in aMap.entries && aMap.entries[k].t == a.t && aMap.entries[k].data == a.data
      ensures ownerChanged <==> KeyOrEmpty(a, names) !in ChainKeys(chain, names)
      ensures !ownerChanged ==>
        && firstAtt == old(firstAtt) && store.idStore.State() == old(store.idStore.State())
        && exists j :: 0 <= j < |chain| && chain' == chain[j := chain[j].(t := a.t, data := a.data)]
             && store.tracking == old(store.tracking)[chain[j].Id := chain'[j]]
      ensures ownerChanged ==>
        && (firstAtt as nat, store.idStore.State()) == Next(old(store.idStore.State()), 4)
        && chain' == [a.(Id := firstAtt, next := old(firstAtt))] + chain
        && store.tracking == old(store.tracking)[firstAtt := chain'[0]]
    {
      var m := CachedAttributes(store, names, chain);
      var key := KeyOrEmpty(a, names);
      CacheKeys(chain, names);
      var has := m.HasKey(key);
      if has {
        ghost var j := Update(m, a, store, names, chain);
        chain' := chain[j := chain[j].(t := a.t, data := a.data)];
        CacheAt(chain', names, j);
        ownerChanged := false;
      } else {
        var b := Prepend(m, a, store, names, chain);
        chain' := [b] + chain;
        CacheAt(chain', names, 0);
        ownerChanged := true;
      }
    }

    /** `SetAttribute` as written: the same changes, after which the owner's `track` call on a
        new key reaches `attributable.track` and panics. The state left behind at the panic is
        the state the corrected method ends in. */
    method SetAttributeAsWritten(a: Attribute, store: AttributeStore, names: Labels.Names, ghost chain: seq<Attribute>)
        returns (panicked: bool, ghost chain': seq<Attribute>)
      requires Valid(store, names, chain)
      requires Key(a, names).Some? || KeyOrEmpty(a, names) in ChainKeys(chain, names)
      requires KeyOrEmpty(a, names) !in ChainKeys(chain, names) ==>
        |store.idStore.ids| != 0 || store.idStore.lastId + 1 < TWO32
      modifies this, aMap, store`tracking, store.idStore`lastId, store.idStore`ids
      ensures panicked <==> KeyOrEmpty(a, names) !in ChainKeys(chain, names)
      ensures Valid(store, names, chain') && aMap != null
      ensures var k := KeyOrEmpty(a, names); k in aMap.entries && aMap.entries[k].t == a.t && aMap.entries[k].data == a.data
      ensures !panicked ==>
        && firstAtt == old(firstAtt) && store.idStore.State() == old(store.idStore.State())
        && exists j :: 0 <= j < |chain| && chain' == chain[j := chain[j].(t := a.t, data := a.data)]
             && store.tracking == old(store.tracking)[chain[j].Id := chain'[j]]
      ensures panicked ==>
        && (firstAtt as nat, store.idStore.State()) == Next(old(store.idStore.State()), 4)
        && chain' == [a.(Id := firstAtt, next := old(firstAtt))] + chain
        && store.tracking == old(store.tracking)[firstAtt := chain'[0]]
    {
      panicked, chain' := SetAttribute(a, store, names, chain);
    }

    /** `RemoveAttribute` on the first attribute: `firstAtt` moves on to its `next`, the store
        keeps its tombstone and takes its id back, and the cache drops it. */
    method UnlinkFirst(m: AttributeMap, a: Attribute, store: AttributeStore, names: Labels.Names, ghost chain: seq<Attribute>)
      requires Valid(store, names, chain) && aMap == m && chain != [] && a == chain[0]
      modifies this`firstAtt, m, store`tracking, store.idStore`ids
      ensures firstAtt == a.next && Valid(store, names, chain[1..]) && KeyOrEmpty(a, names) !in m.entries
      ensures store.idStore.State() == Add(old(store.idStore.State()), a.Id as nat)
      ensures store.tracking == old(store.tracking)[a.Id := a.(t := EmptyT)]
    {
      UnlinkHeadKeeps(store.tracking, store.file, store.idStore.State(), firstAtt, chain, names);
      LinkedAt(firstAtt, chain, 0);
      CacheAt(chain, names, 0);
      firstAtt := a.next;
      store.Remove(a);
      var ok := m.Remove(a, names);
    }

    /** `RemoveAttribute` on a later attribute: its predecessor, found by its `next`, is
        relinked past it and tracked, the store keeps its tombstone and takes its id back, and
        the cache holds the relinked predecessor and drops it. */
    method UnlinkLater(m: AttributeMap, a: Attribute, store: AttributeStore, names: Labels.Names,
                       ghost chain: seq<Attribute>, ghost j: nat)
      requires Valid(store, names, chain) && aMap == m && 0 < j < |chain| && a == chain[j]
      modifies m, store`tracking, store.idStore`ids
      ensures Valid(store, names, Unlinked(chain, j)) && KeyOrEmpty(a, names) !in m.entries
      ensures store.idStore.State() == Add(old(store.idStore.State()), a.Id as nat)
      ensures store.tracking == old(store.tracking)[chain[j - 1].Id := Relinked(chain, j)][a.Id := a.(t := EmptyT)]
    {
      ghost var t0, p0 := store.tracking, store.idStore.State();
      LinkedAt(firstAtt, chain, j - 1);
      LinkedAt(firstAtt, chain, j);
      CacheAt(chain, names, j - 1);
      CacheAt(chain, names, j);
      var pred := FindPredecessor(m, a.Id);
      var attr := m.entries[pred.value];
      ghost var i := CachedIndex(chain, names, pred.value);
      Predecessor(firstAtt, chain, i, j);
      var upd := attr.(next := a.next);
      UnlinkKeeps(t0, store.file, p0, firstAtt, chain, names, j);
      UnlinkShape(firstAtt, chain, names, j);
      store.Track(upd);
      store.Remove(a);
      var ok := m.Add(upd, names);
      ok := m.Remove(a, names);
    }

    /** `RemoveAttribute`, corrected: nothing happens unless the attribute's key is cached;
        otherwise the attribute is unlinked (from `firstAtt`, which the owner reports, or from
        its predecessor, which is tracked), removed from the store as a tombstone with its id
        recycled, and dropped from the cache. The attribute must be the owner's own one for its
        key. */
    method RemoveAttribute(a: Attribute, store: AttributeStore, names: Labels.Names, ghost chain: seq<Attribute>)
        returns (ownerChanged: bool, ghost chain': seq<Attribute>)
      requires Valid(store, names, chain)
      requires KeyOrEmpty(a, names) in Cache(chain, names) ==> Cache(chain, names)[KeyOrEmpty(a, names)] == a
      modifies this, aMap, store`tracking, store.idStore`ids
      ensures Valid(store, names, chain') && aMap != null && KeyOrEmpty(a, names) !in aMap.entries
      ensures ownerChanged <==> chain != [] && chain[0] == a
      ensures ownerChanged ==> firstAtt == a.next && chain' == chain[1..]
      ensures !ownerChanged ==> firstAtt == old(firstAtt)
      ensures KeyOrEmpty(a, names) !in ChainKeys(chain, names) ==>
        chain' == chain && store.tracking == old(store.tracking) && store.idStore.State() == old(store.idStore.State())
      ensures KeyOrEmpty(a, names) in ChainKeys(chain, names) ==>
        && store.idStore.State() == Add(old(store.idStore.State()), a.Id as nat)
        && a.Id in store.tracking && store.tracking[a.Id] == a.(t := EmptyT)
        && |chain'| == |chain| - 1 && Ids(chain') == Ids(chain) - {a.Id as nat}
        && ChainKeys(chain', names) == ChainKeys(chain, names) - {KeyOrEmpty(a, names)}
    {
      var m := CachedAttributes(store, names, chain);
      CacheKeys(chain, names);
      var has := m.Has(a, names);
      if !has {
        return false, chain;
      }
      ghost var j := CachedIndex(chain, names, KeyOrEmpty(a, names));
      HeadId(firstAtt, chain, j);
      if firstAtt == a.Id {
        HeadShape(chain, names);
        UnlinkFirst(m, a, store, names, chain);
        return true, chain[1..];
      }
      UnlinkShape(firstAtt, chain, names, j);
      UnlinkLater(m, a, store, names, chain, j);
      chain' := Unlinked(chain, j);
      ownerChanged := false;
    }

    /** `RemoveAttribute` as written: on the first attribute it moves `firstAtt` on and then
        panics in the owner's `track`, before the attribute leaves the store or the cache. */
    method RemoveAttributeAsWritten(a: Attribute, store: AttributeStore, names: Labels.Names, ghost chain: seq<Attribute>)
        returns (panicked: bool)
      requires Valid(store, names, chain)
      requires KeyOrEmpty(a, names) in Cache(chain, names) ==> Cache(chain, names)[KeyOrEmpty(a, names)] == a
      modifies this, aMap, store`tracking, store.idStore`ids
      ensures panicked <==> chain != [] && chain[0] == a
      ensures panicked ==>
        && firstAtt == a.next && store.tracking == old(store.tracking)
        && aMap != null && KeyOrEmpty(a, names) in aMap.entries
    {
      var m := CachedAttributes(store, names, chain);
      CacheKeys(chain, names);
      var has := m.Has(a, names);
      if has && firstAtt == a.Id {
        ghost var j := CachedIndex(chain, names, KeyOrEmpty(a, names));
        HeadId(firstAtt, chain, j);
        firstAtt := a.next;
        return true;
      }
      if has {
        ghost var j := CachedIndex(chain, names, KeyOrEmpty(a, names));
        HeadId(firstAtt, chain, j);
      }
      var changed;
      ghost var chain';
      changed, chain' := RemoveAttribute(a, store, names, chain);
      panicked := false;
    }

    /** `RemoveAttributeByKey`: remove the cached attribute under the key, if there is one. */
    method RemoveAttributeByKey(key: Bytes, store: AttributeStore, names: Labels.Names, ghost chain: seq<Attribute>)
        returns (ownerChanged: bool, ghost chain': seq<Attribute>)
      requires Valid(store, names, chain)
      modifies this, aMap, store`tracking, store.idStore`ids
      ensures Valid(store, names, chain') && aMap != null && key !in aMap.entries
      ensures key !in ChainKeys(chain, names) ==> chain' == chain && store.tracking == old(store.tracking)
      ensures key in ChainKeys(chain, names) ==> |chain'| == |chain| - 1 && ChainKeys(chain', names) == ChainKeys(chain, names) - {key}
    {
      var m := CachedAttributes(store, names, chain);
      CacheKeys(chain, names);
      var a := m.Get(key);
      if a.None? {
        return false, chain;
      }
      ghost var j := CachedIndex(chain, names, key);
      ownerChanged, chain' := RemoveAttribute(a.value, store, names, chain);
      CacheKeys(chain', names);
    }
  }
}
