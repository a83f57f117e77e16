// The class id index (data/class_id_index.go): the set of vertex ids that belong to one class,
// kept in memory as a set and on disk as consecutive 4-byte little-endian ids in no particular
// order.

module ClassIdIndexes {
  import opened Conversion
  import opened FileModel

  /** The ids that `readIds` collects from whole 4-byte chunks of the file. */
  function IdSet(b: Bytes): set<u32>
    decreases |b|
  {
    if |b| < 4 then {} else {Field32(b, 0)} + IdSet(b[4..])
  }

  /** The bytes `write` emits when the map yields the ids in this order. */
  function Packed(order: seq<u32>): (r: Bytes)
    ensures |r| == 4 * |order|
  {
    if |order| == 0 then [] else Packed(order[..|order| - 1]) + Uint32ToBytes(order[|order| - 1])
  }

  /** One more id at the end of whole chunks adds that id to the set read back. */
  lemma {:induction false} IdSetAppend(b: Bytes, id: u32)
    requires |b| % 4 == 0
    ensures IdSet(b + Uint32ToBytes(id)) == IdSet(b) + {id}
    decreases |b|
  {
    var u := Uint32ToBytes(id);
    if |b| == 0 {
      assert b + u == u && u[0..4] == u;
      assert u[4..] == [];
    } else {
      assert (b + u)[0..4] == b[0..4];
      assert (b + u)[4..] == b[4..] + u;
      IdSetAppend(b[4..], id);
    }
  }

  /** Reading back what `write` emits gives exactly the ids written, whatever their order and
      however often each occurs. */
  lemma {:induction false} PackedIds(order: seq<u32>)
    ensures |Packed(order)| % 4 == 0
    ensures forall x :: x in IdSet(Packed(order)) <==> x in order
  {
    if |order| > 0 {
      var init := order[..|order| - 1];
      PackedIds(init);
      IdSetAppend(Packed(init), order[|order| - 1]);
      assert order == init + [order[|order| - 1]];
    }
  }

  /** Duplicates in the file collapse: the same id twice reads back as one id. */
  lemma {:induction false} DuplicatesCollapse(x: u32)
    ensures IdSet(Packed([x, x])) == {x}
  {
    PackedIds([x, x]);
  }

  class ClassIdIndex {
    var file: Bytes
    var ids: set<u32>

    /** The index over this file before `readIds` has filled the set; `constructClassIdIndex`
        attaches the existing file, `createClassIdIndex` a new empty one, and both then call
        `ReadIds`. */
    constructor Attach(file: Bytes)
      ensures this.file == file && ids == {}
    {
      this.file := file;
      ids := {};
    }

    /** `readIds`: the ids of the consecutive 4-byte chunks of the whole file. A last chunk
        shorter than 4 bytes is sliced beyond the buffer, which panics before the set is
        replaced. */
    method ReadIds() returns (panicked: bool)
      modifies this`ids
      ensures panicked <==> |file| % 4 != 0
      ensures !panicked ==> ids == IdSet(file)
      ensures panicked ==> ids == old(ids)
    {
      var acc: set<u32> := {};
      var pos := 0;
      while pos < |file|
        invariant 0 <= pos <= |file| && pos % 4 == 0
        invariant IdSet(file) == acc + IdSet(file[pos..])
      {
        if pos + 4 > |file| {
          return true;
        }
        assert file[pos..][0..4] == file[pos..pos + 4];
        assert file[pos..][4..] == file[pos + 4..];
        acc := acc + {Field32(file, pos)};
        pos := pos + 4;
      }
      ids := acc;
      panicked := false;
    }

    /** `write`: the file is truncated and then holds 4 bytes for every id, in the order the
        map yields them, so that `ReadIds` gives back the same set. */
    method Write() returns (ghost order: seq<u32>)
      modifies this`file
      ensures |order| == |ids| && forall x :: x in order <==> x in ids
      ensures file == Packed(order) && |file| == 4 * |ids|
      ensures |file| % 4 == 0 && IdSet(file) == ids
    {
      var rest := ids;
      var out: Bytes := [];
      order := [];
      while rest != {}
        invariant rest <= ids
        invariant forall x :: x in order <==> x in ids && x !in rest
        invariant |order| == |ids| - |rest|
        invariant out == Packed(order)
        decreases rest
      {
        var id :| id in rest;
        assert (order + [id])[..|order|] == order;
        out := out + Uint32ToBytes(id);
        order := order + [id];
        rest := rest - {id};
      }
      file := WriteAt([], out, 0);
      assert file == out;
      PackedIds(order);
    }

    /** `hasId`: membership in the set. */
    method HasId(id: u32) returns (r: bool)
      ensures r <==> id in ids
    {
      r := id in ids;
    }

    /** `allIds`: the set itself. */
    method AllIds() returns (r: set<u32>)
      ensures r == ids
    {
      r := ids;
    }

    /** `addId`: the id joins the set; nothing else changes. */
    method AddId(id: u32)
      modifies this`ids
      ensures ids == old(ids) + {id}
    {
      ids := ids + {id};
    }

    /** `removeId`: the id leaves the set; nothing else changes. */
    method RemoveId(id: u32)
      modifies this`ids
      ensures ids == old(ids) - {id}
    {
      ids := ids - {id};
    }
  }
}
