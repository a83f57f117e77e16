// Vertex classes (data/class.go): the 9-byte class record, its decoding and the creation
// of a class below an optional super class. Classes form a tree: `super` is the parent's id, `sub`
// the first child's and `nextSub` the next sibling's, with 0 for none. The lookups that follow
// these links, and `hasId`, need the class store and are in `ClassStores`.

module Classes {
  import opened Conversion

  const ClassDataSize: nat := 9

  /** A class record. The Go value also holds a pointer to the class's id index, which is
      opened on demand; here the indexes are a parameter of `ClassStores.HasIdIn`. */
  datatype Class = Class(Id: u8, count: u32, labelId: u16, super: u8, sub: u8, nextSub: u8)

  /** `Data`: count (4 bytes, little-endian), label (2 bytes, little-endian), then the super,
      sub and nextSub ids. The id is not stored: it is the record's position in the file. */
  function Data(c: Class): (r: Bytes)
    ensures |r| == ClassDataSize
    ensures LittleEndian(r[0..4]) == c.count && LittleEndian(r[4..6]) == c.labelId
    ensures r[6] == c.super && r[7] == c.sub && r[8] == c.nextSub
  {
    var r := Uint32ToBytes(c.count) + Uint16ToBytes(c.labelId) + [c.super, c.sub, c.nextSub];
    assert r[0..4] == Uint32ToBytes(c.count) && r[4..6] == Uint16ToBytes(c.labelId);
    r
  }

  /** `constructClass` as written: any slice whose length is not 8 is refused (None stands for
      the returned error), and an 8-byte slice reaches `bytes[8]`, which is out of range. */
  function ConstructClassAsWritten(id: u8, b: Bytes): Outcome<Option<Class>> {
    if |b| != 8 then Done(None) else Panicked
  }

  /** As written, no slice decodes: an 8-byte slice panics, every other length is refused,
      and so the record `Data` writes is refused where the corrected decoder gives the class
      back. */
  lemma {:induction false} DataRefusedAsWritten(c: Class, b: Bytes)
    ensures ConstructClassAsWritten(c.Id, b).Panicked? <==> |b| == 8
    ensures ConstructClassAsWritten(c.Id, b) != Done(Some(c))
    ensures ConstructClassAsWritten(c.Id, Data(c)) == Done(None)
    ensures ConstructClass(c.Id, Data(c)) == Some(c)
  {
    ConstructData(c);
  }

  /** The corrected `constructClass`: exactly 9 bytes, laid out as `Data` writes them;
      the class gets the id it is given. */
  function ConstructClass(id: u8, b: Bytes): (r: Option<Class>)
    ensures r.Some? <==> |b| == ClassDataSize
    ensures r.Some? ==> r.value.Id == id && Data(r.value) == b
  {
    if |b| != ClassDataSize then None
    else
      var c := Class(id, Field32(b, 0), Field16(b, 4), b[6], b[7], b[8]);
      EncodeOfLittleEndian(b[0..4]);
      EncodeOfLittleEndian(b[4..6]);
      assert b == b[0..4] + b[4..6] + [b[6], b[7], b[8]];
      Some(c)
  }

  /** Decoding what `Data` wrote, under the class's own id, gives the class back. */
  lemma {:induction false} ConstructData(c: Class)
    ensures ConstructClass(c.Id, Data(c)) == Some(c)
  {
  }

  /** `createClass`: the new class, with no vertices and no children, and the super class
      after the new class was put at the front of its children (nothing when there is no
      super class). */
  function CreateClass(id: u8, labelId: u16, sup: Option<Class>): (r: (Class, Option<Class>))
    ensures r.0.Id == id && r.0.count == 0 && r.0.labelId == labelId && r.0.sub == 0
    ensures sup.None? ==> r.0.super == 0 && r.0.nextSub == 0 && r.1 == None
    ensures sup.Some? ==> r.0.super == sup.value.Id && r.0.nextSub == sup.value.sub
    ensures sup.Some? ==> r.1 == Some(sup.value.(sub := id))
  {
    match sup
    case None => (Class(id, 0, labelId, 0, 0, 0), None)
    case Some(s) => (Class(id, 0, labelId, s.Id, 0, s.sub), Some(s.(sub := id)))
  }
}
