// The row allocator of the text file (data/text_id_store.go): a list of free runs of rows plus
// an end cursor `next`. A text of n bytes takes ceil((n + 4) / 16) rows.

module TextIdStores {
  import opened Conversion
  import opened FileModel
  import opened TextIds

  /** Bytes per row of the text file (data/text_store.go:21). */
  const TextStoreRowSize: nat := 16

  /** `calculateTextRows`: the rows needed for a text of `size` bytes plus its 4-byte length,
      rounded up. The addition is in uint32, so it wraps for the four largest sizes. */
  function CalculateTextRows(size: u32): (r: u32)
    ensures size + 4 < TWO32 ==> r >= 1 && r * TextStoreRowSize >= size + 4 > (r - 1) * TextStoreRowSize
  {
    var s := (size + 4) % TWO32;
    var rows := s / TextStoreRowSize;
    if s % TextStoreRowSize != 0 then rows + 1 else rows
  }

  /** Near the top of the uint32 range the sum wraps, and a text of 2^32 - 4 bytes is given
      no rows at all. */
  lemma {:induction false} TextRowsWrap()
    ensures CalculateTextRows(0xFFFF_FFFC) == 0
    ensures CalculateTextRows(0xFFFF_FFFF) == 1
  {
  }

  // ---- Free rows ----

  ghost predicate Covers(t: TextId, row: int) {
    t.value <= row < t.value + t.rows
  }

  /** A row is free when a run covers it or it lies at or past the end cursor. */
  ghost predicate IsFree(ids: seq<TextId>, next: int, row: int) {
    row >= next || exists i :: 0 <= i < |ids| && Covers(ids[i], row)
  }

  /** The runs cover pairwise different rows, all below the end cursor. */
  ghost predicate Disjoint(ids: seq<TextId>, next: int) {
    && (forall i, j, row :: 0 <= i < |ids| && 0 <= j < |ids| && i != j && Covers(ids[i], row) ==> !Covers(ids[j], row))
    && (forall i, row :: 0 <= i < |ids| && Covers(ids[i], row) ==> row < next)
  }

  /** No run and no allocation from the cursor reaches past the uint64 range. */
  ghost predicate NoWrap(ids: seq<TextId>, next: int, rows: int) {
    next + rows < TWO64 && forall i :: 0 <= i < |ids| ==> ids[i].value + rows < TWO64
  }

  /** The index of the first run large enough for `rows`, if any. */
  function FirstFit(ids: seq<TextId>, rows: nat): (r: Option<nat>)
    ensures r.Some? ==> r.value < |ids| && ids[r.value].rows >= rows
    ensures r.Some? ==> forall j :: 0 <= j < r.value ==> ids[j].rows < rows
    ensures r.None? ==> forall j :: 0 <= j < |ids| ==> ids[j].rows < rows
  {
    if |ids| == 0 then None
    else if ids[0].rows >= rows then Some(0)
    else match FirstFit(ids[1..], rows)
      case None => None
      case Some(k) => Some(k + 1)
  }

  /** The index of the first run that passes the guard of data/text_id_store.go:151,
      `id.rows <= rows`, if any. */
  function FirstFitAsWritten(ids: seq<TextId>, rows: nat): (r: Option<nat>)
    ensures r.Some? ==> r.value < |ids| && ids[r.value].rows <= rows
    ensures r.Some? ==> forall j :: 0 <= j < r.value ==> ids[j].rows > rows
    ensures r.None? ==> forall j :: 0 <= j < |ids| ==> ids[j].rows > rows
  {
    if |ids| == 0 then None
    else if ids[0].rows <= rows then Some(0)
    else match FirstFitAsWritten(ids[1..], rows)
      case None => None
      case Some(k) => Some(k + 1)
  }

  /** The first row handed out and the allocator state afterwards. */
  datatype Alloc = Alloc(val: u64, ids: seq<TextId>, next: u64)

  /** `nextId` with the intended guard: take the rows from the front of the first run that
      holds them, else from the end cursor. */
  function Allocate(ids: seq<TextId>, next: u64, rows: u32): Alloc
  {
    match FirstFit(ids, rows)
    case Some(i) =>
      Alloc(ids[i].value, ids[i := TextId((ids[i].value + rows) % TWO64, ids[i].rows - rows)], next)
    case None => Alloc(next, ids, (next + rows) % TWO64)
  }

  /** `nextId` as written: the inverted guard, and a uint32 subtraction that wraps. */
  function AllocateAsWritten(ids: seq<TextId>, next: u64, rows: u32): Alloc
  {
    match FirstFitAsWritten(ids, rows)
    case Some(i) =>
      Alloc(ids[i].value, ids[i := TextId((ids[i].value + rows) % TWO64, (ids[i].rows - rows) % TWO32)], next)
    case None => Alloc(next, ids, (next + rows) % TWO64)
  }

  /** The rows handed out were free, and exactly they stop being free: every other row keeps
      its state. On a disjoint layout none of them is free afterwards and the layout stays
      disjoint, so no row is ever handed out twice. */
  lemma {:induction false} AllocateTakesFreeRows(ids: seq<TextId>, next: u64, rows: u32)
    requires NoWrap(ids, next, rows)
    ensures var a := Allocate(ids, next, rows);
      && (forall row :: a.val <= row < a.val + rows ==> IsFree(ids, next, row))
      && (forall row :: !(a.val <= row < a.val + rows) ==> (IsFree(a.ids, a.next, row) <==> IsFree(ids, next, row)))
      && (Disjoint(ids, next) ==> Disjoint(a.ids, a.next))
      && (Disjoint(ids, next) ==> forall row :: a.val <= row < a.val + rows ==> !IsFree(a.ids, a.next, row))
  {
    var a := Allocate(ids, next, rows);
    match FirstFit(ids, rows)
    case None =>
    case Some(i) =>
      var t := ids[i];
      var t' := a.ids[i];
      assert t'.value == t.value + rows && t'.rows == t.rows - rows;
      forall row | a.val <= row < a.val + rows ensures IsFree(ids, next, row) {
        assert Covers(ids[i], row);
      }
      forall row | !(a.val <= row < a.val + rows)
        ensures IsFree(a.ids, a.next, row) <==> IsFree(ids, next, row)
      {
        if IsFree(ids, next, row) && row < next {
          var j :| 0 <= j < |ids| && Covers(ids[j], row);
          assert Covers(a.ids[j], row);
        }
        if IsFree(a.ids, a.next, row) && row < next {
          var j :| 0 <= j < |a.ids| && Covers(a.ids[j], row);
          assert Covers(ids[j], row);
        }
      }
      if Disjoint(ids, next) {
        forall row | a.val <= row < a.val + rows ensures !IsFree(a.ids, a.next, row) {
          assert Covers(ids[i], row);
        }
        forall j, k, row | 0 <= j < |a.ids| && 0 <= k < |a.ids| && j != k && Covers(a.ids[j], row)
          ensures !Covers(a.ids[k], row)
        {
          assert Covers(ids[j], row);
        }
        forall j, row | 0 <= j < |a.ids| && Covers(a.ids[j], row) ensures row < a.next {
          assert Covers(ids[j], row);
        }
      }
  }

  /** Freeing a run adds exactly its rows to the free rows. */
  lemma {:induction false} AddRunFrees(ids: seq<TextId>, next: u64, t: TextId)
    ensures forall row :: IsFree(ids + [t], next, row) <==> IsFree(ids, next, row) || Covers(t, row)
  {
    forall row | IsFree(ids + [t], next, row) && row < next && !Covers(t, row)
      ensures IsFree(ids, next, row)
    {
      var j :| 0 <= j < |ids| + 1 && Covers((ids + [t])[j], row);
      assert Covers(ids[j], row);
    }
    forall row | IsFree(ids, next, row) && row < next ensures IsFree(ids + [t], next, row) {
      var j :| 0 <= j < |ids| && Covers(ids[j], row);
      assert Covers((ids + [t])[j], row);
    }
    forall row | Covers(t, row) ensures IsFree(ids + [t], next, row) {
      assert Covers((ids + [t])[|ids|], row);
    }
  }

  /** The inverted guard hands the same row out twice. A single free run of rows 5 and 6 sits
      just below the cursor 7. A 20-byte text (2 rows) takes the run whole and leaves a 0-row run
      at 7; an empty text (1 row) passes the guard on that empty run and gets row 7, and the
      subtraction wraps the run to 2^32 - 1 rows; the next empty text fails the guard and is
      given the cursor, 7 again. */
  lemma {:induction false} AllocateAsWrittenReissues()
    ensures var ids, next := [TextId(5, 2)], 7;
      var a1 := AllocateAsWritten(ids, next, CalculateTextRows(20));
      var a2 := AllocateAsWritten(a1.ids, a1.next, CalculateTextRows(0));
      var a3 := AllocateAsWritten(a2.ids, a2.next, CalculateTextRows(0));
      && Disjoint(ids, next)
      && a1.val == 5 && a2.val == 7 && a3.val == 7
      && a2.ids == [TextId(8, TWO32 - 1)]
  {
    var ids, next := [TextId(5, 2)], 7;
    assert CalculateTextRows(20) == 2 && CalculateTextRows(0) == 1;
    var a1 := AllocateAsWritten(ids, next, 2);
    assert FirstFitAsWritten(ids, 2) == Some(0);
    assert a1.ids == [TextId(7, 0)] && a1.next == 7;
    assert FirstFitAsWritten(a1.ids, 1) == Some(0);
    var a2 := AllocateAsWritten(a1.ids, a1.next, 1);
    assert a2.ids == [TextId(8, TWO32 - 1)];
    assert FirstFitAsWritten(a2.ids, 1) == None;
  }

  /** The corrected guard does not hand out a run that is too small: on the same history it
      issues rows 5, 7 and 8. */
  lemma {:induction false} AllocateDoesNotReissue()
    ensures var ids, next := [TextId(5, 2)], 7;
      var a1 := Allocate(ids, next, CalculateTextRows(20));
      var a2 := Allocate(a1.ids, a1.next, CalculateTextRows(0));
      var a3 := Allocate(a2.ids, a2.next, CalculateTextRows(0));
      a1.val == 5 && a2.val == 7 && a3.val == 8
  {
    var ids, next := [TextId(5, 2)], 7;
    assert CalculateTextRows(20) == 2 && CalculateTextRows(0) == 1;
    assert FirstFit(ids, 2) == Some(0);
    var a1 := Allocate(ids, next, 2);
    assert a1.ids == [TextId(7, 0)];
    assert FirstFit(a1.ids, 1) == None;
    var a2 := Allocate(a1.ids, a1.next, 1);
    assert FirstFit(a2.ids, 1) == None;
  }

  // ---- File layout: `next` at offset 0, then run i at 8 + 12 * i when it has rows. ----

  function Blank(k: nat): (r: seq<TextId>)
    ensures |r| == k && forall i :: 0 <= i < k ==> r[i] == TextId(0, 0)
  {
    seq(k, _ => TextId(0, 0))
  }

  /** What a reload gives back for a list of runs: `writeIds` skips 0-row runs, so trailing
      ones vanish and interior ones read back from the zero-filled gap as {0, 0}. */
  function Normalize(ids: seq<TextId>): (r: seq<TextId>)
    ensures |r| <= |ids|
    ensures forall i :: 0 <= i < |r| ==> r[i] == (if ids[i].rows > 0 then ids[i] else TextId(0, 0))
    ensures forall i :: |r| <= i < |ids| ==> ids[i].rows == 0
  {
    if |ids| == 0 then []
    else
      var init := ids[..|ids| - 1];
      var n := Normalize(init);
      if ids[|ids| - 1].rows == 0 then n
      else n + Blank(|ids| - 1 - |n|) + [ids[|ids| - 1]]
  }

  /** A reload keeps every free row: the runs it drops or blanks cover no row. */
  lemma {:induction false} NormalizeKeepsFreeRows(ids: seq<TextId>, next: u64)
    ensures forall row :: IsFree(Normalize(ids), next, row) <==> IsFree(ids, next, row)
  {
    var n := Normalize(ids);
    forall row | IsFree(ids, next, row) && row < next ensures IsFree(n, next, row) {
      var j :| 0 <= j < |ids| && Covers(ids[j], row);
      assert Covers(n[j], row);
    }
    forall row | IsFree(n, next, row) && row < next ensures IsFree(ids, next, row) {
      var j :| 0 <= j < |n| && Covers(n[j], row);
      assert Covers(ids[j], row);
    }
  }

  /** Runs that all have rows survive a reload unchanged. */
  lemma {:induction false} NormalizeOfNonEmptyRuns(ids: seq<TextId>)
    requires forall i :: 0 <= i < |ids| ==> ids[i].rows > 0
    ensures Normalize(ids) == ids
  {
  }

  function FlattenRuns(ids: seq<TextId>): (r: Bytes)
    ensures |r| == TextIdDataSize * |ids|
  {
    if |ids| == 0 then [] else Data(ids[0]) + FlattenRuns(ids[1..])
  }

  lemma {:induction false} FlattenRunsAppend(a: seq<TextId>, b: seq<TextId>)
    ensures FlattenRuns(a + b) == FlattenRuns(a) + FlattenRuns(b)
  {
    if |a| > 0 {
      FlattenRunsAppend(a[1..], b);
      assert (a + b)[1..] == a[1..] + b;
    } else {
      assert a + b == b;
    }
  }

  lemma {:induction false} FlattenBlank(k: nat)
    ensures FlattenRuns(Blank(k)) == Zeros(TextIdDataSize * k)
  {
    if k > 0 {
      FlattenBlank(k - 1);
      assert Blank(k)[1..] == Blank(k - 1);
      ZeroRecord();
      assert Data(TextId(0, 0)) == Zeros(TextIdDataSize);
      ZerosAppend(TextIdDataSize, TextIdDataSize * (k - 1));
    }
  }

  /** What `readIds` collects after the header: one run per whole 12-byte chunk. */
  function ParseRuns(s: Bytes): (r: seq<TextId>)
    decreases |s|
  {
    if |s| < TextIdDataSize then []
    else [ConstructTextId(s[..TextIdDataSize])] + ParseRuns(s[TextIdDataSize..])
  }

  lemma {:induction false} ParseFlattenRuns(ids: seq<TextId>)
    ensures ParseRuns(FlattenRuns(ids)) == ids
  {
    if |ids| > 0 {
      var s := FlattenRuns(ids);
      assert s[..TextIdDataSize] == Data(ids[0]);
      assert s[TextIdDataSize..] == FlattenRuns(ids[1..]);
      ConstructData(ids[0]);
      ParseFlattenRuns(ids[1..]);
      assert [ids[0]] + ids[1..] == ids;
    }
  }

  function Serialized(next: u64, ids: seq<TextId>): Bytes {
    Uint64ToBytes(next) + FlattenRuns(Normalize(ids))
  }

  /** Reloading a flushed allocator gives back its cursor and its runs, normalised. */
  lemma {:induction false} ReloadRuns(next: u64, ids: seq<TextId>)
    ensures var file := Serialized(next, ids);
      && LittleEndian(ReadAt(file, 0, 8).data) == next
      && ParseRuns(Skip(file, 8)) == Normalize(ids)
  {
    var file := Serialized(next, ids);
    assert file[..8] == Uint64ToBytes(next);
    assert Skip(file, 8) == FlattenRuns(Normalize(ids));
    ParseFlattenRuns(Normalize(ids));
  }

  function Skip(s: Bytes, n: nat): Bytes {
    if n <= |s| then s[n..] else []
  }

  class TextIdStore {
    var file: Bytes
    var next: u64
    var ids: seq<TextId>

    /** `createTextIdStore` on a new empty file: the cursor starts at row 1 and is written,
        and the (empty) list of runs is read back. */
    constructor Create()
      ensures next == 1 && ids == [] && file == Uint64ToBytes(1)
    {
      file := [];
      next := 1;
      ids := [];
      new;
      WriteNextId();
      WriteAtEnd([], Uint64ToBytes(1));
      ids := ReadIds();
    }

    /** `constructTextIdStore` on an existing file: the cursor is read from the first 8 bytes
        and the runs from the whole 12-byte records after it. */
    constructor Open(file: Bytes)
      ensures this.file == file
      ensures next == LittleEndian(ReadAt(file, 0, 8).data)
      ensures ids == ParseRuns(Skip(file, 8))
    {
      this.file := file;
      next := 0;
      ids := [];
      new;
      next := ReadNextId();
      ids := ReadIds();
    }

    /** `nextId` with the intended guard (data/text_id_store.go:151 reads `id.rows <= rows`). */
    method NextId(size: u32) returns (val: u64)
      modifies this`ids, this`next
      ensures Alloc(val, ids, next) == Allocate(old(ids), old(next), CalculateTextRows(size))
    {
      var rows := CalculateTextRows(size);
      var i := 0;
      while i < |ids|
        invariant 0 <= i <= |ids|
        invariant forall j :: 0 <= j < i ==> ids[j].rows < rows
        invariant ids == old(ids) && next == old(next)
      {
        if ids[i].rows >= rows {
          FirstFitIs(ids, rows, i);
          val := ids[i].value;
          var idRows := ids[i].rows;
          ids := ids[i := TextId((val + rows) % TWO64, idRows - rows)];
          return;
        }
        i := i + 1;
      }
      val := next;
      next := (next + rows) % TWO64;
    }

    /** `nextId` as written, guard `id.rows <= rows` and a wrapping uint32 subtraction. */
    method NextIdAsWritten(size: u32) returns (val: u64)
      modifies this`ids, this`next
      ensures Alloc(val, ids, next) == AllocateAsWritten(old(ids), old(next), CalculateTextRows(size))
    {
      var rows := CalculateTextRows(size);
      var i := 0;
      while i < |ids|
        invariant 0 <= i <= |ids|
        invariant forall j :: 0 <= j < i ==> ids[j].rows > rows
        invariant ids == old(ids) && next == old(next)
      {
        if ids[i].rows <= rows {
          FirstFitAsWrittenIs(ids, rows, i);
          val := ids[i].value;
          var idRows := ids[i].rows;
          ids := ids[i := TextId((val + rows) % TWO64, (idRows - rows) % TWO32)];
          return;
        }
        i := i + 1;
      }
      val := next;
      next := (next + rows) % TWO64;
    }

    /** `addId`: append the run, without merging it with its neighbours. */
    method AddId(t: TextId)
      modifies this`ids
      ensures ids == old(ids) + [t]
    {
      ids := ids + [t];
    }

    /** `write`: truncate the file, then write the cursor and the runs. */
    method Write()
      modifies this`file
      ensures file == Serialized(next, ids)
    {
      file := [];
      WriteNextId();
      WriteAtEnd([], Uint64ToBytes(next));
      WriteIds();
    }

    method WriteNextId()
      modifies this`file
      ensures file == WriteAt(old(file), Uint64ToBytes(next), 0)
    {
      file := WriteAt(file, Uint64ToBytes(next), 0);
    }

    /** `writeIds` on a file holding just the cursor: run i at 8 + 12 * i, skipping runs with
        no rows. */
    method WriteIds()
      requires file == Uint64ToBytes(next)
      modifies this`file
      ensures file == Serialized(next, ids)
    {
      var idx := 0;
      while idx < |ids|
        invariant 0 <= idx <= |ids|
        invariant file == Uint64ToBytes(next) + FlattenRuns(Normalize(ids[..idx]))
      {
        if ids[idx].rows > 0 {
          var b := Data(ids[idx]);
          WriteRunStep(Uint64ToBytes(next), ids, idx);
          file := WriteAt(file, b, 8 + TextIdDataSize * idx);
        } else {
          NormalizeSkip(ids, idx);
        }
        idx := idx + 1;
      }
      assert ids[..idx] == ids;
    }

    /** `readNextId`: the first 8 bytes, zero-filled where the file is shorter. */
    method ReadNextId() returns (v: u64)
      ensures v == LittleEndian(ReadAt(file, 0, 8).data)
    {
      var r := ReadAt(file, 0, 8);
      assert r.data[..8] == r.data;
      v := BytesToUint64(r.data).value;
    }

    /** `readIds`: read whole 12-byte runs from offset 8 until a read comes back short. */
    method ReadIds() returns (res: seq<TextId>)
      ensures res == ParseRuns(Skip(file, 8))
    {
      res := [];
      var readAt := 8;
      var r := ReadAt(file, readAt, TextIdDataSize);
      while !r.eof
        invariant readAt >= 8
        invariant r == ReadAt(file, readAt, TextIdDataSize)
        invariant res + ParseRuns(Skip(file, readAt)) == ParseRuns(Skip(file, 8))
        decreases |file| - readAt
      {
        var val := ConstructTextId(r.data);
        assert Skip(file, readAt)[..TextIdDataSize] == r.data;
        assert Skip(file, readAt)[TextIdDataSize..] == Skip(file, readAt + TextIdDataSize);
        res := res + [val];
        readAt := readAt + TextIdDataSize;
        r := ReadAt(file, readAt, TextIdDataSize);
      }
    }
  }

  lemma {:induction false} FirstFitIs(ids: seq<TextId>, rows: nat, i: nat)
    requires i < |ids| && ids[i].rows >= rows
    requires forall j :: 0 <= j < i ==> ids[j].rows < rows
    ensures FirstFit(ids, rows) == Some(i)
  {
    var r := FirstFit(ids, rows);
    if r.None? || r.value < i {
    } else if r.value > i {
    }
  }

  lemma {:induction false} FirstFitAsWrittenIs(ids: seq<TextId>, rows: nat, i: nat)
    requires i < |ids| && ids[i].rows <= rows
    requires forall j :: 0 <= j < i ==> ids[j].rows > rows
    ensures FirstFitAsWritten(ids, rows) == Some(i)
  {
    var r := FirstFitAsWritten(ids, rows);
    if r.None? || r.value < i {
    } else if r.value > i {
    }
  }

  /** One iteration of `writeIds` that writes a run: the gap since the last written run reads
      back as blank runs. */
  /** A run without rows is not written, and adds nothing to the normalised runs. */
  lemma {:induction false} NormalizeSkip(ids: seq<TextId>, idx: nat)
    requires idx < |ids| && ids[idx].rows == 0
    ensures Normalize(ids[..idx + 1]) == Normalize(ids[..idx])
  {
    assert ids[..idx + 1][..idx] == ids[..idx];
  }

  lemma {:induction false} WriteRunStep(hdr: Bytes, ids: seq<TextId>, idx: nat)
    requires |hdr| == 8 && idx < |ids| && ids[idx].rows > 0
    ensures WriteAt(hdr + FlattenRuns(Normalize(ids[..idx])), Data(ids[idx]), 8 + TextIdDataSize * idx)
         == hdr + FlattenRuns(Normalize(ids[..idx + 1]))
  {
    var n := Normalize(ids[..idx]);
    var file := hdr + FlattenRuns(n);
    var gap := idx - |n|;
    WriteAtPastEnd(file, Data(ids[idx]), 8 + TextIdDataSize * idx);
    NormalizeSnoc(ids, idx);
    AppendAssoc(hdr, FlattenRuns(n), Zeros(TextIdDataSize * gap), Data(ids[idx]));
  }

  lemma {:induction false} AppendAssoc(a: Bytes, b: Bytes, c: Bytes, d: Bytes)
    ensures a + b + c + d == a + (b + c + d)
  {
  }

  lemma {:induction false} NormalizeSnoc(ids: seq<TextId>, idx: nat)
    requires idx < |ids| && ids[idx].rows > 0
    ensures var n := Normalize(ids[..idx]);
      FlattenRuns(Normalize(ids[..idx + 1])) == FlattenRuns(n) + Zeros(TextIdDataSize * (idx - |n|)) + Data(ids[idx])
  {
    var n := Normalize(ids[..idx]);
    var gap := idx - |n|;
    assert ids[..idx + 1][..idx] == ids[..idx];
    assert Normalize(ids[..idx + 1]) == n + Blank(gap) + [ids[idx]];
    FlattenBlank(gap);
    FlattenRunsAppend(n, Blank(gap));
    FlattenRunsAppend(n + Blank(gap), [ids[idx]]);
    assert FlattenRuns([ids[idx]]) == Data(ids[idx]) + [];
  }
}
