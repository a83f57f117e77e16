// The attribute store (data/attribute_store.go): 15-byte attribute records at (id - 1) * 15 in
// the attribute file, a `tracking` map of changed attributes that `Find` consults first, and a
// 32-bit id allocator. The store writes nothing back to the file.

module AttributeStores {
  import opened Conversion
  import opened FileModel
  import opened IdStores
  import opened Attributes

  /** `(id - 1) * attributeDataSize`, computed in uint32 and then widened. */
  function AttributeOffset(id: u32): (r: nat)
    requires id != 0
    ensures r < TWO32
  {
    ((id - 1) * AttributeDataSize) % TWO32
  }

  /** The offset is exact while (id - 1) * 15 fits in 32 bits. */
  lemma {:induction false} AttributeOffsetExact(id: u32)
    requires 1 <= id <= 286331154
    ensures AttributeOffset(id) == (id - 1) * AttributeDataSize
  {
  }

  /** Past that the multiplication wraps: attribute 286331155 is read at byte 14, inside the
      record of attribute 1. */
  lemma {:induction false} AttributeOffsetWraps()
    ensures AttributeOffset(286331155) == 14
  {
  }

  /** What `Find(id)` returns in a store with these tracked attributes and this file: the
      tracked attribute, else the record decoded from the file, else (short read) nothing. */
  function LookupIn(tracking: map<u32, Attribute>, file: Bytes, id: u32): Option<Attribute>
    requires id != 0
  {
    if id in tracking then Some(tracking[id])
    else
      var rd := ReadAt(file, AttributeOffset(id), AttributeDataSize);
      if rd.eof then None else Some(ConstructAttribute(id, rd.data))
  }

  /** `Attribute.Next` and the corrected `FirstAttribute`: nothing for the id 0, which ends a
      chain, else what `Find` returns. */
  function Follow(tracking: map<u32, Attribute>, file: Bytes, id: u32): Option<Attribute> {
    if id == 0 then None else LookupIn(tracking, file, id)
  }

  /** The tracking map keeps each attribute under its own id, and never under 0. */
  ghost predicate TrackedOk(tracking: map<u32, Attribute>) {
    forall id :: id in tracking ==> id != 0 && tracking[id].Id == id
  }

  /** Whatever `Find(id)` returns carries the id asked for. */
  lemma {:induction false} LookupId(tracking: map<u32, Attribute>, file: Bytes, id: u32)
    requires id != 0 && TrackedOk(tracking)
    ensures LookupIn(tracking, file, id).Some? ==> LookupIn(tracking, file, id).value.Id == id
  {
  }

  class AttributeStore {
    var file: Bytes
    const idStore: IdStore
    var tracking: map<u32, Attribute>

    ghost predicate Valid()
      reads this, idStore
    {
      idStore.Valid() && idStore.width == 4 && TrackedOk(tracking)
    }

    /** `constructAttributeStore`: an opened file and allocator, nothing tracked yet. */
    constructor Open(file: Bytes, idStore: IdStore)
      requires idStore.Valid() && idStore.width == 4
      ensures Valid() && this.file == file && this.idStore == idStore && tracking == map[]
    {
      this.file := file;
      this.idStore := idStore;
      tracking := map[];
    }

    function Lookup(id: u32): Option<Attribute>
      requires id != 0
      reads this
    {
      LookupIn(tracking, file, id)
    }

    /** `Find`: the tracked attribute if there is one; otherwise the 15 bytes at the id's
        offset, and nothing when the file ends before them. */
    method Find(id: u32) returns (r: Option<Attribute>)
      requires Valid() && id != 0
      ensures r == Lookup(id)
      ensures id in tracking ==> r == Some(tracking[id])
      ensures id !in tracking ==> (r.Some? <==> AttributeOffset(id) + AttributeDataSize <= |file|)
      ensures id !in tracking && r.Some? ==>
        r.value == ConstructAttribute(id, file[AttributeOffset(id)..AttributeOffset(id) + AttributeDataSize])
      ensures r.Some? ==> r.value.Id == id
    {
      if id in tracking {
        return Some(tracking[id]);
      }
      var rd := ReadAt(file, AttributeOffset(id), AttributeDataSize);
      if rd.eof {
        return None;
      }
      r := Some(ConstructAttribute(id, rd.data));
    }

    /** `Track`: from now on `Find` returns this attribute for its id; no other id changes. */
    method Track(a: Attribute)
      requires Valid() && a.Id != 0
      modifies this`tracking
      ensures Valid() && tracking == old(tracking)[a.Id := a]
      ensures Lookup(a.Id) == Some(a)
      ensures forall id: u32 :: id != 0 && id != a.Id ==> Lookup(id) == old(Lookup(id))
    {
      tracking := tracking[a.Id := a];
    }

    /** `Remove`: the id goes back to the allocator and the attribute stays tracked as a
        tombstone, with type `empty_t`, which `Find` goes on returning. */
    method Remove(a: Attribute)
      requires Valid() && a.Id != 0
      modifies this`tracking, idStore`ids
      ensures Valid() && tracking == old(tracking)[a.Id := a.(t := EmptyT)]
      ensures idStore.State() == Add(old(idStore.State()), a.Id)
      ensures Lookup(a.Id) == Some(a.(t := EmptyT)) && AttributeValue(Lookup(a.Id).value).None?
      ensures forall id: u32 :: id != 0 && id != a.Id ==> Lookup(id) == old(Lookup(id))
    {
      assert Pow256(4) == TWO32;
      idStore.AddId(a.Id);
      tracking := tracking[a.Id := a.(t := EmptyT)];
    }

    /** `nextId`: the 32-bit allocator's next id. */
    method NextId() returns (id: u32)
      requires Valid()
      modifies idStore`lastId, idStore`ids
      ensures Valid() && (id as nat, idStore.State()) == Next(old(idStore.State()), 4)
    {
      assert Pow256(4) == TWO32;
      var n := idStore.NextId();
      assert n < TWO32 by {
        if old(idStore.ids) != [] {
          assert old(idStore.ids)[0] in old(idStore.ids);
        }
      }
      id := n;
    }

    /** `Attribute.Next`: nothing at the end of the chain (next 0), else `Find(next)`. */
    method NextOf(a: Attribute) returns (r: Option<Attribute>)
      requires Valid()
      ensures r == Follow(tracking, file, a.next)
      ensures r.Some? ==> r.value.Id == a.next
    {
      if a.next == 0 {
        return None;
      }
      r := Find(a.next);
    }
  }
}
