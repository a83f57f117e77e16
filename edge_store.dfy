// The edge store (data/edge_store.go): 22-byte edge records at (id - 1) * 22 in the edge file,
// a `tracking` map of changed edges that `Find` consults first, and a 32-bit id allocator.
// `Find` asserts that the id is not 0, and the end of every edge chain is the id 0: the
// chain-following calls of data/edge.go hand that 0 straight to `Find`.

module EdgeStores {
  import opened Conversion
  import opened FileModel
  import opened IdStores
  import opened Edges

  /** `(id - 1) * edgeDataSize`, computed in uint32 and then widened. */
  function EdgeOffset(id: u32): (r: nat)
    requires id != 0
    ensures r < TWO32
  {
    ((id - 1) * EdgeDataSize) % TWO32
  }

  /** The offset is exact while (id - 1) * 22 fits in 32 bits. */
  lemma {:induction false} EdgeOffsetExact(id: u32)
    requires 1 <= id <= 195225787
    ensures EdgeOffset(id) == (id - 1) * EdgeDataSize
  {
  }

  /** Past that the multiplication wraps: edge 195225788 is read at byte 18, inside the record
      of edge 1. */
  lemma {:induction false} EdgeOffsetWraps()
    ensures EdgeOffset(195225788) == 18
  {
  }

  /** What `Find(id)` returns in a store with these tracked edges and this file: the tracked
      edge, else the record decoded from the file, else (short read) nothing. */
  function LookupIn(tracking: map<u32, Edge>, file: Bytes, id: u32): Option<Edge>
    requires id != 0
  {
    if id in tracking then Some(tracking[id])
    else
      var rd := ReadAt(file, EdgeOffset(id), EdgeDataSize);
      if rd.eof then None else Some(ConstructEdge(id, rd.data))
  }

  /** The corrected `OutNext`, `InNext`, `FirstOut` and `FirstIn`: nothing for the id 0, which
      ends a chain, else what `Find` returns. */
  function Follow(tracking: map<u32, Edge>, file: Bytes, id: u32): Option<Edge> {
    if id == 0 then None else LookupIn(tracking, file, id)
  }

  /** `OutNext` (dir Outbound) and `InNext` (dir Inbound) as written: the link is handed to
      `Find` as it is, so on the last edge of a chain, whose link is 0, `Find`'s assertion
      fails. */
  function NextAsWritten(tracking: map<u32, Edge>, file: Bytes, e: Edge, dir: Direction): Outcome<Option<Edge>> {
    if NextOf(e, dir) == 0 then Panicked else Done(LookupIn(tracking, file, NextOf(e, dir)))
  }

  /** The written `OutNext`/`InNext` agrees with `Follow` exactly where the link is not 0, and
      at the end of a chain it panics where `Follow` reports the end. */
  lemma {:induction false} NextCorrected(tracking: map<u32, Edge>, file: Bytes, e: Edge, dir: Direction)
    ensures NextOf(e, dir) != 0 ==> NextAsWritten(tracking, file, e, dir) == Done(Follow(tracking, file, NextOf(e, dir)))
    ensures NextOf(e, dir) == 0 <==> NextAsWritten(tracking, file, e, dir).Panicked?
    ensures NextOf(e, dir) == 0 ==> Follow(tracking, file, NextOf(e, dir)).None?
  {
  }

  /** What a store's `Find` returns for each id, with nothing for 0. */
  type Finder = u32 -> Option<Edge>

  /** The store with these tracked edges and this file, as a function. */
  function ViewOf(tracking: map<u32, Edge>, file: Bytes): Finder {
    (id: u32) => Follow(tracking, file, id)
  }

  /** `find2` is the store `find` after the edge `e` was tracked under its id. */
  ghost predicate StoredOver(find2: Finder, find: Finder, e: Edge) {
    forall x :: find2(x) == if x == e.Id then Some(e) else find(x)
  }

  /** After `Track(e)` the store finds `e` for its id and what it found before for every other
      id. */
  lemma {:induction false} ViewTracked(tracking: map<u32, Edge>, file: Bytes, e: Edge)
    requires e.Id != 0
    ensures StoredOver(ViewOf(tracking[e.Id := e], file), ViewOf(tracking, file), e)
  {
    forall x: u32
      ensures ViewOf(tracking[e.Id := e], file)(x) == if x == e.Id then Some(e) else ViewOf(tracking, file)(x)
    {
      TrackedLookup(tracking, file, e, x);
    }
  }

  /** The tracking map keeps each edge under its own id, and never under 0. */
  ghost predicate TrackedOk(tracking: map<u32, Edge>) {
    forall id :: id in tracking ==> id != 0 && tracking[id].Id == id
  }

  /** Whatever `Find(id)` returns carries the id asked for. */
  lemma {:induction false} LookupId(tracking: map<u32, Edge>, file: Bytes, id: u32)
    requires id != 0 && TrackedOk(tracking)
    ensures LookupIn(tracking, file, id).Some? ==> LookupIn(tracking, file, id).value.Id == id
  {
  }

  /** Tracking an edge changes what is found for its id and for no other id. */
  lemma {:induction false} TrackedLookup(tracking: map<u32, Edge>, file: Bytes, e: Edge, id: u32)
    requires e.Id != 0
    ensures Follow(tracking[e.Id := e], file, id) == if id == e.Id then Some(e) else Follow(tracking, file, id)
  {
  }

  class EdgeStore {
    var file: Bytes
    const idStore: IdStore
    var tracking: map<u32, Edge>

    ghost predicate Valid()
      reads this, idStore
    {
      idStore.Valid() && idStore.width == 4 && TrackedOk(tracking)
    }

    /** `constructEdgeStore`: an opened file and allocator, nothing tracked yet. */
    constructor Open(file: Bytes, idStore: IdStore)
      requires idStore.Valid() && idStore.width == 4
      ensures Valid() && this.file == file && this.idStore == idStore && tracking == map[]
    {
      this.file := file;
      this.idStore := idStore;
      tracking := map[];
    }

    function Lookup(id: u32): Option<Edge>
      requires id != 0
      reads this
    {
      LookupIn(tracking, file, id)
    }

    function View(): Finder
      reads this
    {
      ViewOf(tracking, file)
    }

    /** `Find`: the tracked edge if there is one; otherwise the 22 bytes at the id's offset,
        and nothing when the file ends before them. */
    method Find(id: u32) returns (r: Option<Edge>)
      requires Valid() && id != 0
      ensures r == Lookup(id)
      ensures id in tracking ==> r == Some(tracking[id])
      ensures id !in tracking ==> (r.Some? <==> EdgeOffset(id) + EdgeDataSize <= |file|)
      ensures id !in tracking && r.Some? ==>
        r.value == ConstructEdge(id, file[EdgeOffset(id)..EdgeOffset(id) + EdgeDataSize])
      ensures r.Some? ==> r.value.Id == id
    {
      if id in tracking {
        return Some(tracking[id]);
      }
      var rd := ReadAt(file, EdgeOffset(id), EdgeDataSize);
      if rd.eof {
        return None;
      }
      r := Some(ConstructEdge(id, rd.data));
    }

    /** `Track`: from now on `Find` returns this edge for its id; no other id changes. */
    method Track(e: Edge)
      requires Valid() && e.Id != 0
      modifies this`tracking
      ensures Valid() && tracking == old(tracking)[e.Id := e]
      ensures Lookup(e.Id) == Some(e)
      ensures forall id: u32 :: id != 0 && id != e.Id ==> Lookup(id) == old(Lookup(id))
    {
      tracking := tracking[e.Id := e];
    }

    /** `Remove`: the id goes back to the allocator and the edge stays tracked with label 0,
        which `Find` goes on returning. */
    method Remove(e: Edge)
      requires Valid() && e.Id != 0
      modifies this`tracking, idStore`ids
      ensures Valid() && tracking == old(tracking)[e.Id := e.(labelId := 0)]
      ensures idStore.State() == Add(old(idStore.State()), e.Id)
      ensures Lookup(e.Id) == Some(e.(labelId := 0))
      ensures forall id: u32 :: id != 0 && id != e.Id ==> Lookup(id) == old(Lookup(id))
    {
      assert Pow256(4) == TWO32;
      idStore.AddId(e.Id);
      tracking := tracking[e.Id := e.(labelId := 0)];
    }

    /** The corrected `OutNext`/`InNext`: nothing at the end of the chain, else
        `Find(link)`. */
    method Next(e: Edge, dir: Direction) returns (r: Option<Edge>)
      requires Valid()
      ensures r == Follow(tracking, file, NextOf(e, dir))
      ensures r.Some? ==> r.value.Id == NextOf(e, dir)
    {
      if NextOf(e, dir) == 0 {
        return None;
      }
      r := Find(NextOf(e, dir));
    }

    /** The corrected `FirstOut`/`FirstIn` of a vertex: nothing when the chain is empty (head
        0), else `Find(head)`. */
    method First(head: u32) returns (r: Option<Edge>)
      requires Valid()
      ensures r == Follow(tracking, file, head)
      ensures r.Some? ==> r.value.Id == head
    {
      if head == 0 {
        return None;
      }
      r := Find(head);
    }
  }
}
