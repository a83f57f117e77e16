// The recyclable id allocator (data/uint16_id_store.go, data/uint32_id_store.go). The two Go
// types are the same code over 16-bit and 32-bit ids; here one class carries the id width in
// bytes (2 or 4) as a constant.

module IdStores {
  import opened Conversion
  import opened FileModel

  /** The allocator's state: the last id handed out from the counter and the free pool. */
  datatype Pool = Pool(lastId: nat, ids: seq<nat>)

  ghost predicate InRange(ids: seq<nat>, width: nat) {
    forall i :: 0 <= i < |ids| ==> ids[i] < Pow256(width)
  }

  /** `nextId`: pop the head of the pool, or else bump the counter (which wraps at the width). */
  function Next(p: Pool, width: nat): (r: (nat, Pool))
  {
    if |p.ids| != 0 then (p.ids[0], Pool(p.lastId, p.ids[1..]))
    else
      var last := (p.lastId + 1) % Pow256(width);
      (last, Pool(last, []))
  }

  /** `addId`: append to the pool, without looking for duplicates. */
  function Add(p: Pool, id: nat): Pool {
    Pool(p.lastId, p.ids + [id])
  }

  /** The ids that are currently in use: issued by the counter and not back in the pool. */
  ghost function Issued(p: Pool): set<nat> {
    set i | 1 <= i <= p.lastId && i !in p.ids
  }

  /** A well-kept pool: every pooled id was issued by the counter and none is pooled twice. */
  ghost predicate PoolOk(p: Pool) {
    && (forall i :: 0 <= i < |p.ids| ==> 1 <= p.ids[i] <= p.lastId)
    && (forall i, j :: 0 <= i < j < |p.ids| ==> p.ids[i] != p.ids[j])
  }

  /** A fresh allocator hands out 1 first. */
  lemma {:induction false} FreshPoolIssuesOne(width: nat)
    requires width == 2 || width == 4
    ensures Next(Pool(0, []), width).0 == 1
  {
    assert Pow256(2) == 0x1_0000;
  }

  /** Handing out an id on a well-kept pool never returns an id already in use: the result is
      non-zero, was not in use, and afterwards the ids in use are exactly the old ones plus it. */
  lemma {:induction false} NextNeverReissues(p: Pool, width: nat)
    requires PoolOk(p)
    requires |p.ids| != 0 || p.lastId + 1 < Pow256(width)
    ensures var (id, q) := Next(p, width);
      && id != 0
      && id !in Issued(p)
      && Issued(q) == Issued(p) + {id}
      && PoolOk(q)
  {
    if |p.ids| != 0 {
      PopNeverReissues(p);
    } else {
      BumpNeverReissues(p, width);
    }
  }

  lemma {:induction false} PopNeverReissues(p: Pool)
    requires PoolOk(p) && |p.ids| != 0
    ensures var id := p.ids[0]; var q := Pool(p.lastId, p.ids[1..]);
      id != 0 && id !in Issued(p) && Issued(q) == Issued(p) + {id} && PoolOk(q)
  {
    var id := p.ids[0];
    var q := Pool(p.lastId, p.ids[1..]);
    assert p.ids == [id] + q.ids;
    assert id in p.ids;
    forall k | 0 <= k < |q.ids| ensures q.ids[k] != id {
      assert q.ids[k] == p.ids[k + 1];
    }
  }

  lemma {:induction false} ModOfSmaller(a: nat, m: nat)
    requires a < m
    ensures a % m == a
  {
  }

  lemma {:induction false} BumpNeverReissues(p: Pool, width: nat)
    requires PoolOk(p) && |p.ids| == 0
    requires p.lastId + 1 < Pow256(width)
    ensures var (id, q) := Next(p, width);
      id == p.lastId + 1 && id !in Issued(p) && Issued(q) == Issued(p) + {id} && PoolOk(q)
  {
    var id := p.lastId + 1;
    ModOfSmaller(id, Pow256(width));
    var q := Pool(id, []);
    assert Next(p, width) == (id, q);
    assert Issued(q) == Issued(p) + {id} by {
      forall i: nat ensures i in Issued(q) <==> i in Issued(p) + {id} {
      }
    }
  }

  /** Returning an id that is in use puts it back in the pool and keeps the pool well kept. */
  lemma {:induction false} AddReleases(p: Pool, id: nat)
    requires PoolOk(p)
    requires id in Issued(p)
    ensures Issued(Add(p, id)) == Issued(p) - {id}
    ensures PoolOk(Add(p, id))
  {
    var q := Add(p, id);
    forall i | i in Issued(p) - {id} ensures i in Issued(q) {
      assert i !in p.ids;
    }
  }

  /** Adding the same id twice (a caller error the allocator does not detect) makes it hand
      that id out twice in a row. */
  lemma {:induction false} DoubleAddReissues(width: nat)
    requires width == 2 || width == 4
    ensures var p := Add(Add(Pool(5, []), 3), 3);
      Next(p, width).0 == 3 && Next(Next(p, width).1, width).0 == 3
  {
  }

  /** The counter wraps to the 0 sentinel when the last id of the width has been issued. */
  lemma {:induction false} NextWrapsToZero(width: nat)
    ensures Next(Pool(Pow256(width) - 1, []), width).0 == 0
  {
    var m := Pow256(width);
    assert (m - 1 + 1) % m == 0;
  }

  /** The ids handed out by k successive `nextId` calls. */
  function Drain(p: Pool, width: nat, k: nat): seq<nat>
    decreases k
  {
    if k == 0 then [] else [Next(p, width).0] + Drain(Next(p, width).1, width, k - 1)
  }

  /** Freed ids come back in the order they were freed (first in, first out). */
  lemma {:induction false} PoolIsFifo(lastId: nat, ids: seq<nat>, width: nat)
    ensures Drain(Pool(lastId, ids), width, |ids|) == ids
  {
    if |ids| > 0 {
      PoolIsFifo(lastId, ids[1..], width);
      assert [ids[0]] + ids[1..] == ids;
    }
  }

  // ---- File layout: the last id at offset 0, then ids[i] at width + width * i. ----

  function Flatten(ids: seq<nat>, width: nat): (r: Bytes)
    requires InRange(ids, width)
  {
    if |ids| == 0 then [] else EncodeLE(ids[0], width) + Flatten(ids[1..], width)
  }

  lemma {:induction false} FlattenLength(ids: seq<nat>, width: nat)
    requires InRange(ids, width)
    ensures |Flatten(ids, width)| == width * |ids|
  {
    if |ids| > 0 {
      FlattenLength(ids[1..], width);
    }
  }

  /** Appending one id appends its encoding. */
  lemma {:induction false} FlattenSnoc(ids: seq<nat>, id: nat, width: nat)
    requires InRange(ids, width) && id < Pow256(width)
    ensures InRange(ids + [id], width)
    ensures Flatten(ids + [id], width) == Flatten(ids, width) + EncodeLE(id, width)
  {
    var xs := ids + [id];
    assert forall i :: 0 <= i < |xs| ==> xs[i] == if i < |ids| then ids[i] else id;
    if |ids| > 0 {
      assert xs[0] == ids[0] && xs[1..] == ids[1..] + [id];
      FlattenSnoc(ids[1..], id, width);
      var e := EncodeLE(ids[0], width);
      assert Flatten(xs, width) == e + (Flatten(ids[1..], width) + EncodeLE(id, width));
      assert Flatten(ids, width) == e + Flatten(ids[1..], width);
    } else {
      assert Flatten([id], width) == EncodeLE(id, width) + [];
    }
  }

  function Serialized(width: nat, lastId: nat, ids: seq<nat>): Bytes
    requires lastId < Pow256(width) && InRange(ids, width)
  {
    EncodeLE(lastId, width) + Flatten(ids, width)
  }

  /** What `readIds` collects from the bytes after the header: one id per whole chunk. */
  function ParseIds(s: Bytes, width: nat): (r: seq<nat>)
    requires width > 0
    decreases |s|
  {
    if |s| < width then [] else [LittleEndian(s[..width])] + ParseIds(s[width..], width)
  }

  /** Every id `readIds` collects fits the width, so a reopened allocator is well formed. */
  lemma {:induction false} ParseIdsInRange(s: Bytes, width: nat)
    requires width > 0
    ensures InRange(ParseIds(s, width), width)
    decreases |s|
  {
    if |s| >= width {
      LittleEndianBound(s[..width]);
      ParseIdsInRange(s[width..], width);
    }
  }

  function Skip(s: Bytes, n: nat): Bytes {
    if n <= |s| then s[n..] else []
  }

  lemma {:induction false} ParseFlatten(ids: seq<nat>, width: nat, rest: Bytes)
    requires width > 0 && InRange(ids, width)
    requires |rest| < width
    ensures ParseIds(Flatten(ids, width) + rest, width) == ids
    decreases |ids|
  {
    if |ids| > 0 {
      var e := EncodeLE(ids[0], width);
      var tail := Flatten(ids[1..], width) + rest;
      assert Flatten(ids, width) + rest == e + tail;
      SplitAt(e, tail);
      ParseFlatten(ids[1..], width, rest);
      assert [ids[0]] + ids[1..] == ids;
    } else {
      assert Flatten(ids, width) + rest == rest;
    }
  }

  lemma {:induction false} SplitAt(a: Bytes, b: Bytes)
    ensures (a + b)[..|a|] == a && (a + b)[|a|..] == b
  {
  }

  /** Reloading a flushed allocator restores its counter and its pool, in order. */
  lemma {:induction false} ReloadRestoresPool(width: nat, lastId: nat, ids: seq<nat>)
    requires width > 0 && lastId < Pow256(width) && InRange(ids, width)
    ensures var file := Serialized(width, lastId, ids);
      && LittleEndian(ReadAt(file, 0, width).data) == lastId
      && ParseIds(Skip(file, width), width) == ids
  {
    var file := Serialized(width, lastId, ids);
    assert file[..width] == EncodeLE(lastId, width);
    assert Skip(file, width) == Flatten(ids, width) + [];
    ParseFlatten(ids, width, []);
  }

  class IdStore {
    /** Bytes per id: 2 for uint16IdStore, 4 for uint32IdStore. */
    const width: nat
    var file: Bytes
    var lastId: nat
    var ids: seq<nat>

    ghost predicate Valid()
      reads this
    {
      (width == 2 || width == 4) && lastId < Pow256(width) && InRange(ids, width)
    }

    function State(): Pool
      reads this
    {
      Pool(lastId, ids)
    }

    /** `createUint16IdStore` / `createUint32IdStore` on a new empty file: the counter is 0,
        the pool empty, and the counter is written to the file. */
    constructor Create(width: nat)
      requires width == 2 || width == 4
      ensures Valid() && this.width == width
      ensures lastId == 0 && ids == []
      ensures file == EncodeLE(0, width)
    {
      this.width := width;
      lastId := 0;
      ids := [];
      file := [];
      new;
      WriteLastId();
      WriteAtEnd([], EncodeLE(0, width));
    }

    /** `constructUint16IdStore` / `constructUint32IdStore` on an existing file: the counter
        is read from the header and the pool from the chunks after it. */
    constructor Open(width: nat, file: Bytes)
      requires width == 2 || width == 4
      ensures Valid() && this.width == width && this.file == file
      ensures lastId == LittleEndian(ReadAt(file, 0, width).data)
      ensures ids == ParseIds(Skip(file, width), width)
    {
      this.width := width;
      this.file := file;
      lastId := 0;
      ids := [];
      new;
      lastId := ReadLastId();
      ParseIdsInRange(Skip(file, width), width);
      ids := ReadIds();
    }

    method NextId() returns (id: nat)
      requires Valid()
      modifies this`lastId, this`ids
      ensures Valid()
      ensures (id, State()) == Next(old(State()), width)
      ensures old(ids) != [] ==> id == old(ids)[0] && ids == old(ids)[1..] && lastId == old(lastId)
      ensures old(ids) == [] ==> id == lastId == (old(lastId) + 1) % Pow256(width) && ids == []
    {
      if |ids| != 0 {
        id := ids[0];
        ids := ids[1..];
        return;
      }
      lastId := (lastId + 1) % Pow256(width);
      id := lastId;
    }

    method AddId(id: nat)
      requires Valid() && id < Pow256(width)
      modifies this`ids
      ensures Valid()
      ensures State() == Add(old(State()), id)
    {
      ids := ids + [id];
    }

    /** `write`: truncate the file, then write the counter and the pool. */
    method Write()
      requires Valid()
      modifies this`file
      ensures file == Serialized(width, lastId, ids)
    {
      file := [];
      WriteLastId();
      WriteAtEnd([], EncodeLE(lastId, width));
      WriteIds();
      WriteAtEnd(EncodeLE(lastId, width), Flatten(ids, width));
    }

    method WriteLastId()
      requires Valid()
      modifies this`file
      ensures file == WriteAt(old(file), EncodeLE(lastId, width), 0)
    {
      file := WriteAt(file, EncodeLE(lastId, width), 0);
    }

    /** `writeIds`: ids[i] at offset width + width * i, one write per id (the offset is kept
        as a running sum). */
    method WriteIds()
      requires Valid()
      modifies this`file
      ensures file == WriteAt(old(file), Flatten(ids, width), width)
    {
      ghost var start := file;
      var idx := 0;
      var off := width;
      while idx < |ids|
        invariant 0 <= idx <= |ids|
        invariant InRange(ids[..idx], width)
        invariant off == width + |Flatten(ids[..idx], width)|
        invariant file == WriteAt(start, Flatten(ids[..idx], width), width)
      {
        var b := EncodeLE(ids[idx], width);
        file := WriteAt(file, b, off);
        assert InRange(ids[..idx + 1], width)
          && Flatten(ids[..idx + 1], width) == Flatten(ids[..idx], width) + b
        by {
          FlattenSnoc(ids[..idx], ids[idx], width);
          assert ids[..idx + 1] == ids[..idx] + [ids[idx]];
        }
        WriteAtAdjacent(start, Flatten(ids[..idx], width), b, width);
        idx := idx + 1;
        off := off + width;
      }
      assert ids[..idx] == ids;
    }

    /** `readLastId`: the first `width` bytes, zero-filled where the file is shorter. */
    method ReadLastId() returns (v: nat)
      requires Valid()
      ensures v < Pow256(width)
      ensures v == LittleEndian(ReadAt(file, 0, width).data)
      ensures |file| >= width ==> v == LittleEndian(file[..width])
    {
      var r := ReadAt(file, 0, width);
      var d := Decode(r.data, width);
      assert r.data[..width] == r.data;
      v := d.value;
    }

    /** `readIds`: read whole ids from offset `width` until a read comes back short. */
    method ReadIds() returns (res: seq<nat>)
      requires Valid()
      ensures res == ParseIds(Skip(file, width), width)
    {
      res := [];
      var readAt := width;
      var r := ReadAt(file, readAt, width);
      while !r.eof
        invariant readAt >= width
        invariant r == ReadAt(file, readAt, width)
        invariant res + ParseIds(Skip(file, readAt), width) == ParseIds(Skip(file, width), width)
        decreases |file| - readAt
      {
        var d := Decode(r.data, width);
        assert r.data[..width] == r.data;
        assert Skip(file, readAt)[..width] == r.data;
        assert Skip(file, readAt)[width..] == Skip(file, readAt + width);
        res := res + [d.value];
        readAt := readAt + width;
        r := ReadAt(file, readAt, width);
      }
      assert |Skip(file, readAt)| < width;
    }
  }
}
