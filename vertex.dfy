// Vertices (data/vertex.go and data/vertex_store.go): the 13-byte vertex record, the lazily
// built caches of a vertex's outbound and inbound edges, and the removal of an edge from one
// of its chains. The edge store is a parameter; the chains are described by ghost sequences of
// edge ids (`EdgeChains`). `FirstOut`, `FirstIn`, `OutNext` and `InNext` are taken in their
// corrected form, which ends a walk at the id 0 instead of handing 0 to `Find`
// (`EdgeStores.NextCorrected`).
//
// In Go the caches hold pointers to edges, and a relinked predecessor is changed through such
// a pointer. Here the change is made to a copy: the store tracks the relinked copy, and each of
// the vertex's two caches that holds the edge is refreshed with it. The two caches share an
// edge in Go only when it was tracked before both were built; an untracked edge is decoded
// afresh by each `Find`, so each cache holds its own copy and a relink leaves the other one
// stale (`StaleCopyKeepsRemovedLink`). The corrected removals refresh both caches.

module Vertices {
  import opened Conversion
  import opened FileModel
  import Labels
  import opened Edges
  import opened EdgeMaps
  import opened EdgeStores
  import opened EdgeChains
  import Attributables

  const VertexDataSize: nat := 13

  /** The fields of a vertex record: its class id, the heads of its outbound and inbound
      chains, and its first attribute. */
  datatype VertexRecord = VertexRecord(classId: u8, out: u32, inHead: u32, firstAtt: u32)

  /** `constructVertex`: class 0, out 1:5, in 5:9 and firstAtt 9:13, little-endian. There is
      no length check, so a shorter slice makes the slicing fault, and bytes after the 13th
      are not looked at. */
  function DecodeVertex(b: Bytes): (r: VertexRecord)
    requires |b| >= VertexDataSize
    ensures r.classId == b[0]
    ensures r.out == LittleEndian(b[1..5]) && r.inHead == LittleEndian(b[5..9])
    ensures r.firstAtt == LittleEndian(b[9..13])
  {
    VertexRecord(b[0], Field32(b, 1), Field32(b, 5), Field32(b, 9))
  }

  /** The record layout `constructVertex` decodes (the Go code writes no vertex records). */
  function VertexLayout(r: VertexRecord): (b: Bytes)
    ensures |b| == VertexDataSize
  {
    [r.classId] + Uint32ToBytes(r.out) + Uint32ToBytes(r.inHead) + Uint32ToBytes(r.firstAtt)
  }

  /** Decoding the layout of a record gives the record back. */
  lemma {:induction false} DecodeLayout(r: VertexRecord)
    ensures DecodeVertex(VertexLayout(r)) == r
  {
    var b := VertexLayout(r);
    assert b[1..5] == Uint32ToBytes(r.out);
    assert b[5..9] == Uint32ToBytes(r.inHead);
    assert b[9..13] == Uint32ToBytes(r.firstAtt);
  }

  /** Every 13-byte record is the layout of what it decodes to. */
  lemma {:induction false} LayoutDecode(b: Bytes)
    requires |b| == VertexDataSize
    ensures VertexLayout(DecodeVertex(b)) == b
  {
    EncodeOfLittleEndian(b[1..5]);
    EncodeOfLittleEndian(b[5..9]);
    EncodeOfLittleEndian(b[9..13]);
    assert b == [b[0]] + b[1..5] + b[5..9] + b[9..13];
  }

  /** Bytes after the 13th do not change the decoded record. */
  lemma {:induction false} VertexTrailingIgnored(b: Bytes, extra: Bytes)
    requires |b| >= VertexDataSize
    ensures DecodeVertex(b + extra) == DecodeVertex(b)
  {
    var c := b + extra;
    assert c[1..5] == b[1..5] && c[5..9] == b[5..9] && c[9..13] == b[9..13];
  }

  /** `(id - 1) * vertexDataSize`, computed in uint32 and then widened. */
  function VertexOffset(id: u32): (r: nat)
    requires id != 0
    ensures r < TWO32
  {
    ((id - 1) * VertexDataSize) % TWO32
  }

  /** The offset is exact while (id - 1) * 13 fits in 32 bits. */
  lemma {:induction false} VertexOffsetExact(id: u32)
    requires 1 <= id <= 330382100
    ensures VertexOffset(id) == (id - 1) * VertexDataSize
  {
  }

  /** Past that the multiplication wraps: vertex 330382101 is read at byte 4, inside the record
      of vertex 1. */
  lemma {:induction false} VertexOffsetWraps()
    ensures VertexOffset(330382101) == 4
  {
  }

  /** What `Find(id)` decodes from the file when the vertex is not tracked: the 13 bytes at the
      id's offset, or nothing on a short read. */
  function RecordAt(file: Bytes, id: u32): (r: Option<VertexRecord>)
    requires id != 0
    ensures r.Some? <==> VertexOffset(id) + VertexDataSize <= |file|
    ensures r.Some? ==> VertexLayout(r.value) == file[VertexOffset(id)..VertexOffset(id) + VertexDataSize]
  {
    var rd := ReadAt(file, VertexOffset(id), VertexDataSize);
    if rd.eof then None
    else
      LayoutDecode(rd.data);
      Some(DecodeVertex(rd.data))
  }

  /** The loop of `Out` and `In`: walk the chain from `head` through the links of `dir`,
      filing each edge into a new map under its key. */
  method BuildCache(store: EdgeStore, names: Labels.Names, head: u32, dir: Direction, ghost ids: seq<u32>)
      returns (m: EdgeMap)
    requires store.Valid()
    requires ChainOk(store.View(), head, ids, dir) && KeysOk(store.View(), ids, names)
    ensures fresh(m) && Coherent(m.lists, store.View(), ids, names)
  {
    m := new EdgeMap();
    var e := store.First(head);
    ghost var i := 0;
    while e.Some?
      invariant fresh(m)
      invariant i <= |ids|
      invariant e == if i < |ids| then store.View()(ids[i]) else None
      invariant Coherent(m.lists, store.View(), ids[..i], names)
      decreases |ids| - i
    {
      CoherentSnoc(m.lists, store.View(), head, ids, dir, names, i);
      m.Add(e.value, names);
      WalkStep(store.View(), head, ids, dir, i);
      e := store.Next(e.value, dir);
      i := i + 1;
    }
    assert ids[..i] == ids;
  }

  /** The loops of `RemoveOutboundEdge`/`RemoveInboundEdge` over the cache: an edge whose link
      in `dir` is `target`, with the key and id it is filed under. Go visits maps in no fixed
      order, so any such edge may come out. */
  method FindPredecessor(m: EdgeMap, dir: Direction, target: u32)
      returns (r: Option<Edge>, ghost key: Bytes, ghost x: u32)
    ensures r.Some? ==> key in m.lists && x in m.lists[key] && m.lists[key][x] == r.value
    ensures r.Some? ==> NextOf(r.value, dir) == target
    ensures r.None? ==> forall k, y :: k in m.lists && y in m.lists[k] ==> NextOf(m.lists[k][y], dir) != target
  {
    var keys := m.lists.Keys;
    while keys != {}
      invariant keys <= m.lists.Keys
      invariant forall k, y :: k in m.lists && k !in keys && y in m.lists[k] ==> NextOf(m.lists[k][y], dir) != target
      decreases keys
    {
      var k :| k in keys;
      var l := m.lists[k];
      var xs := l.Keys;
      while xs != {}
        invariant xs <= l.Keys
        invariant forall y :: y in l && y !in xs ==> NextOf(l[y], dir) != target
        decreases xs
      {
        var y :| y in xs;
        if NextOf(l[y], dir) == target {
          return Some(l[y]), k, y;
        }
        xs := xs - {y};
      }
      keys := keys - {k};
    }
    return None, [], 0;
  }

  /** A write through a shared edge pointer, as seen by one cache: where the cache holds the
      edge under its key and id, the entry becomes the written edge. */
  method RefreshCache(c: EdgeMap, p: Edge, names: Labels.Names)
    requires names(p.labelId).Some?
    modifies c
    ensures c.lists == Refreshed(old(c.lists), p, names)
  {
    var l := c.Get(Key(p, names));
    if p.Id in l {
      c.Add(p, names);
    }
  }

  /** The edge store's tracking map after a removal bypasses the edge: the predecessor `q`
      (0 when the edge was the head) takes `next` as its link in direction `dir` and is
      tracked; at the head nothing is tracked. */
  ghost function Bypassed(t: map<u32, Edge>, find: Finder, q: u32, dir: Direction, next: u32): map<u32, Edge> {
    if q == 0 then t
    else match find(q)
      case Some(p) => t[q := Relinked(p, dir, next)]
      case None => t
  }

  /** Two copies of one untracked edge. A loop 10 on vertex 7 heads both of its chains, the
      outbound chain 10, 11 and the inbound chain 10, 12, and nothing is tracked. `Out` and
      `In` each decode edge 10 from the file, so each cache holds a copy of its own (`copy`).
      Removing 11 relinks the outbound cache's copy and tracks it (`t1`). The inbound cache's
      copy keeps its link to 11, so `In` goes on handing out edge 10 with the removed edge as
      its outbound link. Removing 12 then relinks only that copy (`inCopy`) and tracks
      nothing, so the store's edge 10 keeps its inbound link to the removed 12. Were line 138
      to track the predecessor as line 118 does, the store would take the stale copy
      (`tracked`, `Bypassed` over the view both caches were built from), and its outbound
      chain would run through 11 again. Relinking what the store finds now, as the corrected
      removals do (`shared`), ends both links. */
  lemma {:induction false} StaleCopyKeepsRemovedLink()
    ensures var file := Zeros(9 * EdgeDataSize) + EdgeLayout(Edge(10, 1, 7, 7, 11, 12, 0));
      var copy := ViewOf(map[], file)(10);
      var t1 := Bypassed(map[], ViewOf(map[], file), 10, Outbound, 0);
      var tracked := Bypassed(t1, ViewOf(map[], file), 10, Inbound, 0);
      var shared := Bypassed(t1, ViewOf(t1, file), 10, Inbound, 0);
      && copy.Some? && copy.value.outNext == 11 && copy.value.inNext == 12
      && var inCopy := Relinked(copy.value, Inbound, 0);
      && 10 in t1 && t1[10].outNext == 0 && t1[10].inNext == 12
      && inCopy.outNext == 11 && inCopy.inNext == 0
      && 10 in tracked && tracked[10].outNext == 11 && tracked[10].inNext == 0
      && 10 in shared && shared[10].outNext == 0 && shared[10].inNext == 0
  {
    var loop := Edge(10, 1, 7, 7, 11, 12, 0);
    var file := Zeros(9 * EdgeDataSize) + EdgeLayout(loop);
    assert EdgeOffset(10) == 9 * EdgeDataSize;
    assert file[9 * EdgeDataSize..10 * EdgeDataSize] == EdgeLayout(loop);
    ConstructLayout(loop);
    assert ViewOf(map[], file)(10) == Some(loop);
    var t1 := map[10 := Relinked(loop, Outbound, 0)];
    assert ViewOf(t1, file)(10) == Some(t1[10]);
  }

  /** Tracking the same vertex twice leaves the map of tracking it once. */
  lemma {:induction false} TrackedTwice(m: map<u32, Vertex>, k: u32, v: Vertex)
    ensures m[k := v][k := v] == m[k := v]
  {
  }

  class Vertex {
    const Id: u32
    var classId: u8
    /** `out`: the id of the first outbound edge, 0 when there is none. */
    var outHead: u32
    /** `in`: the id of the first inbound edge, 0 when there is none. */
    var inHead: u32
    var outMap: EdgeMap?
    var inMap: EdgeMap?
    /** The embedded `attributable`. */
    const attributes: Attributables.Attributable

    /** `constructVertex`: the decoded record, nothing cached. */
    constructor Construct(id: u32, b: Bytes)
      requires |b| >= VertexDataSize
      ensures Id == id && Record() == DecodeVertex(b)
      ensures outMap == null && inMap == null
      ensures fresh(attributes) && attributes.aMap == null
    {
      var r := DecodeVertex(b);
      Id := id;
      classId := r.classId;
      outHead := r.out;
      inHead := r.inHead;
      outMap := null;
      inMap := null;
      attributes := new Attributables.Attributable();
      new;
      attributes.firstAtt := r.firstAtt;
    }

    /** `newVertex`: a vertex of the class, with id 0 (not stored yet), no edges and no
        attributes. */
    constructor New(classId: u8)
      ensures Id == 0 && Record() == VertexRecord(classId, 0, 0, 0)
      ensures outMap == null && inMap == null
      ensures fresh(attributes) && attributes.aMap == null
    {
      Id := 0;
      this.classId := classId;
      outHead := 0;
      inHead := 0;
      outMap := null;
      inMap := null;
      attributes := new Attributables.Attributable();
    }

    /** The fields a vertex record holds. */
    function Record(): VertexRecord
      reads this, attributes
    {
      VertexRecord(classId, outHead, inHead, attributes.firstAtt)
    }

    function Head(dir: Direction): u32
      reads this
    {
      if dir.Outbound? then outHead else inHead
    }

    function CacheOf(dir: Direction): EdgeMap?
      reads this
    {
      if dir.Outbound? then outMap else inMap
    }

    /** The contents of the cache of a direction, once built. */
    function CacheLists(dir: Direction): Option<Lists>
      reads this, outMap, inMap
    {
      var c := CacheOf(dir);
      if c == null then None else Some(c.lists)
    }

    /** The vertex's two chains are the given ids and are well kept in the store, and each
        cache, once built, holds its chain's edges as the store has them. */
    ghost predicate Valid(store: EdgeStore, names: Labels.Names, outIds: seq<u32>, inIds: seq<u32>)
      reads this, outMap, inMap, store, store.idStore
    {
      && store.Valid()
      && ChainKept(store.View(), names, outHead, outIds, Outbound, CacheLists(Outbound))
      && ChainKept(store.View(), names, inHead, inIds, Inbound, CacheLists(Inbound))
      && (outMap != null && inMap != null ==> outMap != inMap)
    }

    /** `Valid` with the ids of `dir`'s chain and of the other chain. */
    ghost predicate ValidDir(store: EdgeStore, names: Labels.Names, dir: Direction, ids: seq<u32>, other: seq<u32>)
      reads this, outMap, inMap, store, store.idStore
    {
      if dir.Outbound? then Valid(store, names, ids, other) else Valid(store, names, other, ids)
    }

    /** `Out`: on the first call, build the cache of the outbound chain; later calls return
        the cached map. */
    method Out(store: EdgeStore, names: Labels.Names, ghost outIds: seq<u32>, ghost inIds: seq<u32>)
        returns (m: EdgeMap)
      requires Valid(store, names, outIds, inIds)
      modifies this`outMap
      ensures Valid(store, names, outIds, inIds) && outMap == m
      ensures old(outMap) != null ==> m == old(outMap)
      ensures old(outMap) == null ==> fresh(m)
    {
      if outMap == null {
        m := BuildCache(store, names, outHead, Outbound, outIds);
        outMap := m;
      }
      m := outMap;
    }

    /** `In`: the same for the inbound chain. */
    method In(store: EdgeStore, names: Labels.Names, ghost outIds: seq<u32>, ghost inIds: seq<u32>)
        returns (m: EdgeMap)
      requires Valid(store, names, outIds, inIds)
      modifies this`inMap
      ensures Valid(store, names, outIds, inIds) && inMap == m
      ensures old(inMap) != null ==> m == old(inMap)
      ensures old(inMap) == null ==> fresh(m)
    {
      if inMap == null {
        m := BuildCache(store, names, inHead, Inbound, inIds);
        inMap := m;
      }
      m := inMap;
    }

    /** Removing the first edge of a chain: the head takes the edge's link, the vertex is
        tracked, and the cache drops the edge. */
    method UnlinkFirst(dir: Direction, e: Edge, m: EdgeMap, store: EdgeStore, vstore: VertexStore,
                       names: Labels.Names, ghost ids: seq<u32>, ghost other: seq<u32>)
      requires ValidDir(store, names, dir, ids, other) && m == CacheOf(dir) && Id != 0
      requires ids != [] && Head(dir) == e.Id && store.View()(e.Id) == Some(e)
      modifies this`outHead, this`inHead, m, vstore`tracking
      ensures ValidDir(store, names, dir, Unlinked(ids, e.Id), other)
      ensures NotCached(m.lists, e.Id) && Before(ids, e.Id) == 0
      ensures Head(dir) == NextOf(e, dir) && Head(dir.Other()) == old(Head(dir.Other()))
      ensures vstore.tracking == old(vstore.tracking)[Id := this]
    {
      ghost var find := store.View();
      UnlinkedAt(ids, 0);
      BeforeAt(ids, 0);
      FirstRemoved(find, names, Head(dir), ids, dir, m.lists);
      if dir.Outbound? {
        outHead := e.outNext;
      } else {
        inHead := e.inNext;
      }
      vstore.Track(this);
      m.Remove(e, names);
      NotCachedOffChain(m.lists, find, Cut(ids, 0), names, e.Id);
    }

    /** Removing a later edge of a chain: its predecessor `p`, found in the cache, takes the
        edge's link; the store tracks the relinked predecessor, both caches see it, and the
        cache of `dir` drops the edge. */
    method UnlinkLater(dir: Direction, e: Edge, p: Edge, m: EdgeMap, store: EdgeStore,
                       names: Labels.Names, ghost ids: seq<u32>, ghost other: seq<u32>, ghost j: nat)
      requires ValidDir(store, names, dir, ids, other) && m == CacheOf(dir)
      requires 0 < j < |ids| && ids[j] == e.Id && store.View()(e.Id) == Some(e)
      requires p == store.View()(ids[j - 1]).value
      modifies m, CacheOf(dir.Other()), store`tracking
      ensures ValidDir(store, names, dir, Cut(ids, j), other)
      ensures NotCached(m.lists, e.Id) && e.Id !in Cut(ids, j)
      ensures store.tracking == old(store.tracking)[p.Id := Relinked(p, dir, NextOf(e, dir))]
      ensures store.View()(e.Id) == Some(e)
    {
      ghost var find := store.View();
      var b := Relinked(p, dir, NextOf(e, dir));
      assert b == Bypass(find, ids, dir, j);
      UnlinkedAt(ids, j);
      ViewTracked(store.tracking, store.file, b);
      store.Track(b);
      LaterStep(find, store.View(), names, Head(dir), ids, dir, m.lists, Head(dir.Other()), other, CacheLists(dir.Other()), j);
      RelinkInCaches(dir, e, b, m, names);
    }

    /** The cache side of `UnlinkLater`: the cache of `dir` takes the relinked predecessor `b`
        and drops `e`; the other cache sees `b` where it holds it. */
    method RelinkInCaches(dir: Direction, e: Edge, b: Edge, m: EdgeMap, names: Labels.Names)
      requires m == CacheOf(dir) && CacheOf(dir.Other()) != m
      requires names(b.labelId).Some? && names(e.labelId).Some?
      modifies m, CacheOf(dir.Other())
      ensures CacheLists(dir) == Some(Delete(Insert(old(m.lists), Key(b, names), b), Key(e, names), e))
      ensures var c := old(CacheLists(dir.Other()));
        CacheLists(dir.Other()) == if c.Some? then Some(Refreshed(c.value, b, names)) else None
    {
      m.Add(b, names);
      var o := CacheOf(dir.Other());
      if o != null {
        RefreshCache(o, b, names);
      }
      m.Remove(e, names);
    }

    /** Removing an edge that is not at the head: the loops look for its predecessor in the
        cache; when there is one, it is relinked past the edge and tracked, and when there is
        none, the edge is not on the chain and nothing changes. The cache drops the edge. */
    method UnlinkAfterHead(dir: Direction, e: Edge, m: EdgeMap, store: EdgeStore,
                           names: Labels.Names, ghost ids: seq<u32>, ghost other: seq<u32>)
      requires ValidDir(store, names, dir, ids, other) && m == CacheOf(dir)
      requires Head(dir) != e.Id && e.Id != 0 && store.View()(e.Id) == Some(e) && names(e.labelId).Some?
      modifies m, CacheOf(dir.Other()), store`tracking
      ensures ValidDir(store, names, dir, Unlinked(ids, e.Id), other)
      ensures NotCached(m.lists, e.Id)
      ensures var q := Before(ids, e.Id);
        store.tracking == if q == 0 then old(store.tracking)
                          else old(store.tracking)[q := Relinked(old(store.View())(q).value, dir, NextOf(e, dir))]
      ensures store.View()(e.Id) == Some(e)
    {
      ghost var find := store.View();
      var p, key, x := FindPredecessor(m, dir, e.Id);
      if p.Some? {
        ghost var j := PredecessorAt(find, names, Head(dir), ids, dir, m.lists, key, x, e.Id);
        UnlinkedAt(ids, j);
        BeforeAt(ids, j);
        UnlinkLater(dir, e, p.value, m, store, names, ids, other, j);
      } else {
        OffChainWithoutPredecessor(find, names, Head(dir), ids, dir, m.lists, e.Id);
        DeleteOffChain(m.lists, find, ids, names, Key(e, names), e);
        m.Remove(e, names);
        NotCachedOffChain(m.lists, find, ids, names, e.Id);
      }
    }

    /** `RemoveOutboundEdge`: the outbound cache is built first. At the head, `out` takes the
        edge's `outNext` and the vertex is tracked; further on, the predecessor found in the
        cache takes the edge's `outNext` and is tracked; an edge that is not on the chain
        changes nothing. The cache ends up without the edge. The edge must be the one the
        store has. */
    method RemoveOutboundEdge(e: Edge, store: EdgeStore, vstore: VertexStore, names: Labels.Names,
                              ghost outIds: seq<u32>, ghost inIds: seq<u32>)
      requires Valid(store, names, outIds, inIds) && Id != 0
      requires e.Id != 0 && store.View()(e.Id) == Some(e) && names(e.labelId).Some?
      modifies this`outHead, this`inHead, this`outMap, outMap, inMap, store`tracking, vstore`tracking
      ensures Valid(store, names, Unlinked(outIds, e.Id), inIds) && inHead == old(inHead)
      ensures outMap != null && NotCached(outMap.lists, e.Id)
      ensures old(outMap) != null ==> outMap == old(outMap)
      ensures old(outMap) == null ==> fresh(outMap)
      ensures outHead == if old(outHead) == e.Id then e.outNext else old(outHead)
      ensures old(outHead) == e.Id ==> vstore.tracking == old(vstore.tracking)[Id := this]
      ensures old(outHead) != e.Id ==> vstore.tracking == old(vstore.tracking)
      ensures store.tracking == Bypassed(old(store.tracking), old(store.View()), Before(outIds, e.Id), Outbound, e.outNext)
      ensures store.View()(e.Id) == Some(e)
    {
      var m := Out(store, names, outIds, inIds);
      UnlinkOutbound(e, m, store, vstore, names, outIds, inIds);
    }

    /** The body of `RemoveOutboundEdge` once the outbound cache `m` is built. */
    method UnlinkOutbound(e: Edge, m: EdgeMap, store: EdgeStore, vstore: VertexStore, names: Labels.Names,
                          ghost outIds: seq<u32>, ghost inIds: seq<u32>)
      requires Valid(store, names, outIds, inIds) && Id != 0 && m == outMap
      requires e.Id != 0 && store.View()(e.Id) == Some(e) && names(e.labelId).Some?
      modifies this`outHead, this`inHead, m, inMap, store`tracking, vstore`tracking
      ensures Valid(store, names, Unlinked(outIds, e.Id), inIds) && inHead == old(inHead)
      ensures NotCached(m.lists, e.Id)
      ensures outHead == if old(outHead) == e.Id then e.outNext else old(outHead)
      ensures old(outHead) == e.Id ==> vstore.tracking == old(vstore.tracking)[Id := this]
      ensures old(outHead) != e.Id ==> vstore.tracking == old(vstore.tracking)
      ensures store.tracking == Bypassed(old(store.tracking), old(store.View()), Before(outIds, e.Id), Outbound, e.outNext)
      ensures store.View()(e.Id) == Some(e)
    {
      if outHead == e.Id {
        UnlinkFirst(Outbound, e, m, store, vstore, names, outIds, inIds);
      } else {
        UnlinkAfterHead(Outbound, e, m, store, names, outIds, inIds);
      }
    }

    /** `RemoveInboundEdge`, corrected: as `RemoveOutboundEdge` on the inbound chain, and the
        relinked predecessor is tracked. */
    method RemoveInboundEdge(e: Edge, store: EdgeStore, vstore: VertexStore, names: Labels.Names,
                             ghost outIds: seq<u32>, ghost inIds: seq<u32>)
      requires Valid(store, names, outIds, inIds) && Id != 0
      requires e.Id != 0 && store.View()(e.Id) == Some(e) && names(e.labelId).Some?
      modifies this`outHead, this`inHead, this`inMap, outMap, inMap, store`tracking, vstore`tracking
      ensures Valid(store, names, outIds, Unlinked(inIds, e.Id)) && outHead == old(outHead)
      ensures inMap != null && NotCached(inMap.lists, e.Id)
      ensures old(inMap) != null ==> inMap == old(inMap)
      ensures old(inMap) == null ==> fresh(inMap)
      ensures inHead == if old(inHead) == e.Id then e.inNext else old(inHead)
      ensures old(inHead) == e.Id ==> vstore.tracking == old(vstore.tracking)[Id := this]
      ensures old(inHead) != e.Id ==> vstore.tracking == old(vstore.tracking)
      ensures store.tracking == Bypassed(old(store.tracking), old(store.View()), Before(inIds, e.Id), Inbound, e.inNext)
      ensures store.View()(e.Id) == Some(e)
    {
      var m := In(store, names, outIds, inIds);
      UnlinkInbound(e, m, store, vstore, names, outIds, inIds);
    }

    /** The body of `RemoveInboundEdge` once the inbound cache `m` is built. */
    method UnlinkInbound(e: Edge, m: EdgeMap, store: EdgeStore, vstore: VertexStore, names: Labels.Names,
                         ghost outIds: seq<u32>, ghost inIds: seq<u32>)
      requires Valid(store, names, outIds, inIds) && Id != 0 && m == inMap
      requires e.Id != 0 && store.View()(e.Id) == Some(e) && names(e.labelId).Some?
      modifies this`outHead, this`inHead, m, outMap, store`tracking, vstore`tracking
      ensures Valid(store, names, outIds, Unlinked(inIds, e.Id)) && outHead == old(outHead)
      ensures NotCached(m.lists, e.Id)
      ensures inHead == if old(inHead) == e.Id then e.inNext else old(inHead)
      ensures old(inHead) == e.Id ==> vstore.tracking == old(vstore.tracking)[Id := this]
      ensures old(inHead) != e.Id ==> vstore.tracking == old(vstore.tracking)
      ensures store.tracking == Bypassed(old(store.tracking), old(store.View()), Before(inIds, e.Id), Inbound, e.inNext)
      ensures store.View()(e.Id) == Some(e)
    {
      if inHead == e.Id {
        UnlinkFirst(Inbound, e, m, store, vstore, names, inIds, outIds);
      } else {
        UnlinkAfterHead(Inbound, e, m, store, names, inIds, outIds);
      }
    }

    /** `RemoveInboundEdge` as written: the predecessor is relinked through the cache's pointer
        but not tracked. The store sees the change only when it already tracks that very
        edge, which the tracked branch takes the inbound cache to hold (true when the cache was
        built after the edge was tracked); otherwise the store's inbound chain still runs
        through the removed edge while the cache no longer holds it. */
    method RemoveInboundEdgeAsWritten(e: Edge, store: EdgeStore, vstore: VertexStore, names: Labels.Names,
                                      ghost outIds: seq<u32>, ghost inIds: seq<u32>)
      requires Valid(store, names, outIds, inIds) && Id != 0
      requires e.Id != 0 && store.View()(e.Id) == Some(e) && names(e.labelId).Some?
      modifies this`outHead, this`inHead, this`inMap, outMap, inMap, store`tracking, vstore`tracking
      ensures inMap != null && NotCached(inMap.lists, e.Id)
      ensures outMap == old(outMap)
      ensures var q := Before(inIds, e.Id);
        q != 0 && q !in old(store.tracking) ==>
          && store.tracking == old(store.tracking) && inHead == old(inHead)
          && e.Id in inIds && ChainOk(store.View(), inHead, inIds, Inbound)
          && (outMap != null ==> outMap.lists == old(outMap.lists))
      ensures var q := Before(inIds, e.Id);
        q == 0 || q in old(store.tracking) ==> Valid(store, names, outIds, Unlinked(inIds, e.Id))
    {
      var m := In(store, names, outIds, inIds);
      if inHead == e.Id {
        UnlinkFirst(Inbound, e, m, store, vstore, names, inIds, outIds);
      } else {
        UnlinkAfterHeadAsWritten(e, m, store, names, outIds, inIds);
      }
    }

    /** Lines 132-143 of `RemoveInboundEdge` as written: the predecessor found in the cache is
        relinked in the store only when the store tracks it already. */
    method UnlinkAfterHeadAsWritten(e: Edge, m: EdgeMap, store: EdgeStore, names: Labels.Names,
                                    ghost outIds: seq<u32>, ghost inIds: seq<u32>)
      requires Valid(store, names, outIds, inIds) && m == inMap
      requires inHead != e.Id && e.Id != 0 && store.View()(e.Id) == Some(e) && names(e.labelId).Some?
      modifies m, outMap, store`tracking
      ensures NotCached(m.lists, e.Id)
      ensures var q := Before(inIds, e.Id);
        q != 0 && q !in old(store.tracking) ==>
          && store.tracking == old(store.tracking) && e.Id in inIds
          && (outMap != null ==> outMap.lists == old(outMap.lists))
      ensures var q := Before(inIds, e.Id);
        q == 0 || q in old(store.tracking) ==> Valid(store, names, outIds, Unlinked(inIds, e.Id))
    {
      ghost var find := store.View();
      var p, key, x := FindPredecessor(m, Inbound, e.Id);
      if p.None? {
        UnlinkAfterHead(Inbound, e, m, store, names, inIds, outIds);
        return;
      }
      ghost var j := PredecessorAt(find, names, inHead, inIds, Inbound, m.lists, key, x, e.Id);
      BeforeAt(inIds, j);
      if p.value.Id in store.tracking {
        UnlinkedAt(inIds, j);
        UnlinkLater(Inbound, e, p.value, m, store, names, inIds, outIds, j);
      } else {
        RelinkUntracked(e, p.value, m, store, names, outIds, inIds, j);
      }
    }

    /** Lines 136-138 on an untracked predecessor: the cache's copy is relinked, the store's is
        not, and the cache drops the edge. An untracked edge is decoded afresh by each `Find`,
        so the outbound cache holds a copy of its own, which is left as it was. */
    method RelinkUntracked(e: Edge, p: Edge, m: EdgeMap, store: EdgeStore, names: Labels.Names,
                           ghost outIds: seq<u32>, ghost inIds: seq<u32>, ghost j: nat)
      requires Valid(store, names, outIds, inIds) && m == inMap
      requires 0 < j < |inIds| && inIds[j] == e.Id && store.View()(e.Id) == Some(e)
      requires p == store.View()(inIds[j - 1]).value
      modifies m
      ensures var b := Relinked(p, Inbound, e.inNext);
        m.lists == Delete(Insert(old(m.lists), Key(b, names), b), Key(e, names), e)
      ensures NotCached(m.lists, e.Id)
      ensures outMap != null ==> outMap.lists == old(outMap.lists)
    {
      var b := Relinked(p, Inbound, e.inNext);
      DroppedAfterRelink(m.lists, store.View(), inIds, names, b, e);
      m.Add(b, names);
      m.Remove(e, names);
    }

    /** `RemoveEdge`: unlink the edge from the outbound chain when the vertex is its origin,
        and from the inbound chain when the vertex is its destination; a loop on the vertex
        is unlinked from both. */
    method RemoveEdge(e: Edge, store: EdgeStore, vstore: VertexStore, names: Labels.Names,
                      ghost outIds: seq<u32>, ghost inIds: seq<u32>)
      requires Valid(store, names, outIds, inIds) && Id != 0
      requires e.Id != 0 && store.View()(e.Id) == Some(e) && names(e.labelId).Some?
      modifies this`outHead, this`outMap, this`inHead, this`inMap, outMap, inMap
      modifies store`tracking, vstore`tracking
      ensures Valid(store, names, if e.from == Id then Unlinked(outIds, e.Id) else outIds,
                                  if e.to == Id then Unlinked(inIds, e.Id) else inIds)
      ensures e.from == Id ==> outMap != null && NotCached(outMap.lists, e.Id)
      ensures e.to == Id ==> inMap != null && NotCached(inMap.lists, e.Id)
      ensures outHead == if e.from == Id && old(outHead) == e.Id then e.outNext else old(outHead)
      ensures inHead == if e.to == Id && old(inHead) == e.Id then e.inNext else old(inHead)
      ensures vstore.tracking ==
        if (e.from == Id && old(outHead) == e.Id) || (e.to == Id && old(inHead) == e.Id)
        then old(vstore.tracking)[Id := this] else old(vstore.tracking)
      ensures var t1 := Bypassed(old(store.tracking), old(store.View()),
                                 if e.from == Id then Before(outIds, e.Id) else 0, Outbound, e.outNext);
        store.tracking == Bypassed(t1, ViewOf(t1, store.file),
                                   if e.to == Id then Before(inIds, e.Id) else 0, Inbound, e.inNext)
      ensures e.from != Id && e.to != Id ==>
        unchanged(this) && (outMap != null ==> unchanged(outMap)) && (inMap != null ==> unchanged(inMap))
    {
      if e.from == Id && e.to == Id {
        RemoveLoop(e, store, vstore, names, outIds, inIds);
      } else if e.from == Id {
        RemoveOutboundEdge(e, store, vstore, names, outIds, inIds);
      } else if e.to == Id {
        RemoveInboundEdge(e, store, vstore, names, outIds, inIds);
      }
    }

    /** `RemoveEdge` on an edge from the vertex to itself: it leaves both chains. */
    method RemoveLoop(e: Edge, store: EdgeStore, vstore: VertexStore, names: Labels.Names,
                      ghost outIds: seq<u32>, ghost inIds: seq<u32>)
      requires Valid(store, names, outIds, inIds) && Id != 0
      requires e.Id != 0 && store.View()(e.Id) == Some(e) && names(e.labelId).Some?
      modifies this`outHead, this`outMap, this`inHead, this`inMap, outMap, inMap
      modifies store`tracking, vstore`tracking
      ensures Valid(store, names, Unlinked(outIds, e.Id), Unlinked(inIds, e.Id))
      ensures outMap != null && NotCached(outMap.lists, e.Id)
      ensures inMap != null && NotCached(inMap.lists, e.Id)
      ensures outHead == if old(outHead) == e.Id then e.outNext else old(outHead)
      ensures inHead == if old(inHead) == e.Id then e.inNext else old(inHead)
      ensures old(outHead) == e.Id || old(inHead) == e.Id ==> vstore.tracking == old(vstore.tracking)[Id := this]
      ensures old(outHead) != e.Id && old(inHead) != e.Id ==> vstore.tracking == old(vstore.tracking)
      ensures var t1 := Bypassed(old(store.tracking), old(store.View()), Before(outIds, e.Id), Outbound, e.outNext);
        store.tracking == Bypassed(t1, ViewOf(t1, store.file), Before(inIds, e.Id), Inbound, e.inNext)
    {
      ghost var vt0 := vstore.tracking;
      ghost var both := outHead == e.Id && inHead == e.Id;
      RemoveOutboundEdge(e, store, vstore, names, outIds, inIds);
      UnlinkedGone(outIds, e.Id);
      RemoveLoopInbound(e, store, vstore, names, Unlinked(outIds, e.Id), inIds);
      if both {
        TrackedTwice(vt0, Id, this);
      }
    }

    /** The second half of `RemoveLoop`: the loop, already off the outbound chain `outIds`,
        leaves the inbound chain, and the outbound cache stays without it. */
    method RemoveLoopInbound(e: Edge, store: EdgeStore, vstore: VertexStore, names: Labels.Names,
                             ghost outIds: seq<u32>, ghost inIds: seq<u32>)
      requires Valid(store, names, outIds, inIds) && Id != 0 && e.Id !in outIds
      requires e.Id != 0 && store.View()(e.Id) == Some(e) && names(e.labelId).Some?
      modifies this`outHead, this`inHead, this`inMap, outMap, inMap, store`tracking, vstore`tracking
      ensures Valid(store, names, outIds, Unlinked(inIds, e.Id)) && outHead == old(outHead)
      ensures outMap != null ==> NotCached(outMap.lists, e.Id)
      ensures inMap != null && NotCached(inMap.lists, e.Id)
      ensures inHead == if old(inHead) == e.Id then e.inNext else old(inHead)
      ensures old(inHead) == e.Id ==> vstore.tracking == old(vstore.tracking)[Id := this]
      ensures old(inHead) != e.Id ==> vstore.tracking == old(vstore.tracking)
      ensures store.tracking == Bypassed(old(store.tracking), old(store.View()), Before(inIds, e.Id), Inbound, e.inNext)
    {
      RemoveInboundEdge(e, store, vstore, names, outIds, inIds);
      if outMap != null {
        NotCachedOffChain(outMap.lists, store.View(), outIds, names, e.Id);
      }
    }
  }

  /** The vertex store (data/vertex_store.go): a `tracking` map in front of the vertex file. */
  class VertexStore {
    var file: Bytes
    var tracking: map<u32, Vertex>

    /** `constructVertexStore`: the opened file, nothing tracked yet. */
    constructor Open(file: Bytes)
      ensures this.file == file && tracking == map[]
    {
      this.file := file;
      tracking := map[];
    }

    /** `Track`: from now on `Find` returns this vertex for its id. */
    method Track(v: Vertex)
      requires v.Id != 0
      modifies this`tracking
      ensures tracking == old(tracking)[v.Id := v]
    {
      tracking := tracking[v.Id := v];
    }

    /** `Find`: the tracked vertex if there is one; otherwise a new vertex decoded from the
        13 bytes at the id's offset, and nothing when the file ends before them. */
    method Find(id: u32) returns (r: Vertex?)
      requires id != 0
      ensures id in tracking ==> r == tracking[id]
      ensures id !in tracking ==> (r != null <==> RecordAt(file, id).Some?)
      ensures id !in tracking && r != null ==>
        && fresh(r) && fresh(r.attributes) && r.Id == id && r.Record() == RecordAt(file, id).value
        && r.outMap == null && r.inMap == null && r.attributes.aMap == null
    {
      if id in tracking {
        return tracking[id];
      }
      var rd := ReadAt(file, VertexOffset(id), VertexDataSize);
      if rd.eof {
        return null;
      }
      r := new Vertex.Construct(id, rd.data);
    }
  }
}
