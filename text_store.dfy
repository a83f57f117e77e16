// The string store (data/text_store.go): strings live at row addresses of the text file, a row
// being 16 bytes; new and changed strings wait in `writes` until `write` flushes them, and the
// row allocator hands out and takes back runs of rows.

module TextStores {
  import opened Conversion
  import opened FileModel
  import opened TextIds
  import opened TextIdStores
  import opened Texts

  /** The byte offset of a string's first row: `id * 16 - 16` in uint64, converted to int64.
      A negative int64 (the top half of the uint64 range) is an offset `WriteAt` and `ReadAt`
      refuse, so they do nothing there. */
  function TextOffset(id: u64): (r: Option<nat>)
    ensures r.Some? ==> r.value < TWO63
    ensures 1 <= id && (id - 1) * TextStoreRowSize < TWO63 ==> r == Some((id - 1) * TextStoreRowSize)
  {
    var off := (id * TextStoreRowSize + TWO64 - TextStoreRowSize) % TWO64;
    if off < TWO63 then Some(off) else None
  }

  /** The file half of `find`: the 4-byte length at the string's offset, then that many bytes
      after it; an offset the file refuses reads as the empty string. */
  function ReadText(file: Bytes, id: u64): (r: (u32, Bytes))
    ensures |r.1| == r.0
  {
    match TextOffset(id)
    case None => (0, [])
    case Some(off) =>
      var length := LittleEndian(ReadAt(file, off, 4).data);
      LittleEndianBound(ReadAt(file, off, 4).data);
      assert Pow256(4) == TWO32;
      (length, ReadAt(file, off + 4, length).data)
  }

  /** A string written at its offset reads back as itself. */
  lemma {:induction false} ReadAfterWriteText(file: Bytes, id: u64, value: Bytes)
    requires TextOffset(id).Some? && |value| < TWO32
    ensures ReadText(WriteAt(file, TextData(value), TextOffset(id).value), id) == (|value|, value)
  {
    var off := TextOffset(id).value;
    var d := TextData(value);
    var f := WriteAt(file, d, off);
    assert ReadAt(f, off, 4).data == d[..4];
    assert ReadAt(f, off + 4, |value|).data == d[4..];
  }

  /** A write that misses the bytes of a stored string leaves the string readable. */
  lemma {:induction false} ReadTextFrame(file: Bytes, id: u64, data: Bytes, at: nat)
    requires TextOffset(id).Some?
    requires var off := TextOffset(id).value;
      off + 4 + ReadText(file, id).0 <= at || at + |data| <= off
    requires TextOffset(id).value + 4 <= |file|
    ensures ReadText(WriteAt(file, data, at), id) == ReadText(file, id)
  {
    var off := TextOffset(id).value;
    var f := WriteAt(file, data, at);
    assert ReadAt(f, off, 4).data == ReadAt(file, off, 4).data;
    var length := ReadText(file, id).0;
    assert ReadAt(f, off + 4, length).data == ReadAt(file, off + 4, length).data;
  }

  /** What a pending string contributes to `write`: its id and its value at that moment. */
  datatype Pending = Pending(id: u64, value: Bytes)

  function Snapshot(ws: seq<Text>): (r: seq<Pending>)
    reads ws
    ensures |r| == |ws|
    ensures forall i :: 0 <= i < |ws| ==> r[i] == Pending(ws[i].Id, ws[i].value)
  {
    if |ws| == 0 then [] else Snapshot(ws[..|ws| - 1]) + [Pending(ws[|ws| - 1].Id, ws[|ws| - 1].value)]
  }

  /** The file after `write` has stored the pending strings in order. */
  function WriteTexts(file: Bytes, ps: seq<Pending>): Bytes
  {
    if |ps| == 0 then file
    else
      var f := WriteTexts(file, ps[..|ps| - 1]);
      var p := ps[|ps| - 1];
      match TextOffset(p.id)
      case None => f
      case Some(off) => WriteAt(f, TextData(p.value), off)
  }

  /** The last pending version of a string is what `find` reads back after `write`, provided
      nothing written after it overlaps its bytes. */
  lemma {:induction false} FindAfterWriteTexts(file: Bytes, ps: seq<Pending>, k: nat)
    requires k < |ps| && TextOffset(ps[k].id).Some? && |ps[k].value| < TWO32
    requires forall j :: k < j < |ps| && TextOffset(ps[j].id).Some? ==>
      var a, b := TextOffset(ps[k].id).value, TextOffset(ps[j].id).value;
      a + 4 + |ps[k].value| <= b || b + 4 + |ps[j].value| <= a
    ensures ReadText(WriteTexts(file, ps), ps[k].id) == (|ps[k].value|, ps[k].value)
    decreases |ps|
  {
    var p := ps[|ps| - 1];
    if k == |ps| - 1 {
      ReadAfterWriteText(WriteTexts(file, ps[..k]), p.id, p.value);
    } else {
      var init := ps[..|ps| - 1];
      FindAfterWriteTexts(file, init, k);
      var f := WriteTexts(file, init);
      match TextOffset(p.id)
      case None =>
      case Some(off) =>
        var a := TextOffset(ps[k].id).value;
        assert |f| >= a + 4 + |ps[k].value| by { WrittenLength(file, init, k); }
        ReadTextFrame(f, ps[k].id, TextData(p.value), off);
    }
  }

  lemma {:induction false} WriteTextsStep(file: Bytes, ps: seq<Pending>, i: nat)
    requires i < |ps|
    ensures WriteTexts(file, ps[..i + 1]) == match TextOffset(ps[i].id)
      case None => WriteTexts(file, ps[..i])
      case Some(off) => WriteAt(WriteTexts(file, ps[..i]), TextData(ps[i].value), off)
  {
    assert ps[..i + 1][..i] == ps[..i];
  }

  /** Writes only grow the file: every stored string's bytes are inside it. */
  lemma {:induction false} WrittenLength(file: Bytes, ps: seq<Pending>, k: nat)
    requires k < |ps| && TextOffset(ps[k].id).Some?
    ensures |WriteTexts(file, ps)| >= TextOffset(ps[k].id).value + 4 + |ps[k].value|
    decreases |ps|
  {
    if k < |ps| - 1 {
      WrittenLength(file, ps[..|ps| - 1], k);
    }
  }

  class TextStore {
    var file: Bytes
    const idStore: TextIdStore
    var writes: seq<Text>

    /** Every pending string has an id, which `write` demands (data/text_store.go:207). */
    predicate WriteReady()
      reads this, writes
    {
      forall i :: 0 <= i < |writes| ==> writes[i].Id != 0
    }

    /** A store over an empty text file and a fresh allocator. */
    constructor Create()
      ensures file == [] && writes == [] && fresh(idStore)
      ensures idStore.next == 1 && idStore.ids == []
    {
      file := [];
      idStore := new TextIdStore.Create();
      writes := [];
    }

    /** `constructTextStore`: the existing text file, an allocator opened over its own file,
        and nothing pending. */
    constructor Open(file: Bytes, idFile: Bytes)
      ensures this.file == file && writes == [] && fresh(idStore) && idStore.file == idFile
      ensures idStore.next == LittleEndian(ReadAt(idFile, 0, 8).data)
      ensures idStore.ids == ParseRuns(Skip(idFile, 8))
    {
      this.file := file;
      idStore := new TextIdStore.Open(idFile);
      writes := [];
    }

    /** `find`: the first pending string with this id, else a new string read from the file. */
    method Find(id: u64) returns (t: Text)
      requires id != 0
      ensures forall i :: 0 <= i < |writes| && writes[i].Id == id ==>
        exists k :: 0 <= k <= i && t == writes[k]
      ensures t in writes ==> t.Id == id
      ensures (forall i :: 0 <= i < |writes| ==> writes[i].Id != id) ==>
        fresh(t) && t.Id == id && (t.length, t.value) == ReadText(file, id)
    {
      var i := 0;
      while i < |writes|
        invariant 0 <= i <= |writes|
        invariant forall j :: 0 <= j < i ==> writes[j].Id != id
      {
        if writes[i].Id == id {
          return writes[i];
        }
        i := i + 1;
      }
      var (length, bytes) := ReadText(file, id);
      t := new Text.ConstructText(id, length, bytes);
    }

    /** `addText`: give an unsaved string rows for its current length and queue it. */
    method AddText(t: Text) returns (id: u64)
      requires t.Id == 0
      modifies this`writes, t, idStore`ids, idStore`next
      ensures idStore.file == old(idStore.file)
      ensures Alloc(id, idStore.ids, idStore.next)
           == Allocate(old(idStore.ids), old(idStore.next), CalculateTextRows(t.Len()))
      ensures t.Id == id && t.length == t.Len() && t.value == old(t.value)
      ensures writes == old(writes) + [t]
      ensures file == old(file)
    {
      var n := t.Len();
      id := idStore.NextId(n);
      t.Id := id;
      t.length := n;
      writes := writes + [t];
    }

    /** `removeText` as written: the rows go back to the allocator and the id is cleared, but
        the string stays queued in `writes`. */
    method RemoveTextAsWritten(t: Text)
      modifies t, idStore`ids, idStore`next
      ensures idStore.file == old(idStore.file)
      ensures old(t.Id) != 0 ==> idStore.ids == old(idStore.ids) + [TextId(old(t.Id), CalculateTextRows(old(t.length)))]
      ensures old(t.Id) == 0 ==> idStore.ids == old(idStore.ids)
      ensures t.Id == 0 && t.length == old(t.length) && t.value == old(t.value)
      ensures idStore.next == old(idStore.next)
    {
      if t.Id != 0 {
        var rows := CalculateTextRows(t.length);
        idStore.AddId(NewTextId(t.Id, rows));
        t.Id := 0;
      }
    }

    /** `removeText` with the string also taken out of `writes`, so that a later `write`
        meets its requirement. */
    method RemoveText(t: Text)
      modifies this`writes, t, idStore`ids, idStore`next
      ensures idStore.file == old(idStore.file)
      ensures old(t.Id) != 0 ==> idStore.ids == old(idStore.ids) + [TextId(old(t.Id), CalculateTextRows(old(t.length)))]
      ensures old(t.Id) == 0 ==> idStore.ids == old(idStore.ids)
      ensures t.Id == 0 && t.length == old(t.length) && t.value == old(t.value)
      ensures idStore.next == old(idStore.next)
      ensures writes == Without(old(writes), t)
      ensures file == old(file)
    {
      if t.Id != 0 {
        var rows := CalculateTextRows(t.length);
        idStore.AddId(NewTextId(t.Id, rows));
        t.Id := 0;
      }
      writes := Without(writes, t);
    }

    /** `saveText`: queue a new or changed string. An unsaved string is added; a string that
        now needs fewer rows keeps its id and frees the rows past its new end; one that needs
        more gives its rows back and is added anew. */
    method SaveText(t: Text) returns (id: u64)
      modifies this`writes, t, idStore`ids, idStore`next
      ensures idStore.file == old(idStore.file)
      ensures id == t.Id && t.length == t.Len() && t.value == old(t.value)
      ensures var oldRows, newRows := CalculateTextRows(old(t.length)), CalculateTextRows(t.Len());
        && (old(t.Id) != 0 && oldRows > newRows ==>
              id == old(t.Id)
              && idStore.ids == old(idStore.ids) + [TextId((old(t.Id) + newRows) % TWO64, oldRows - newRows)]
              && idStore.next == old(idStore.next))
        && (old(t.Id) != 0 && oldRows == newRows ==>
              id == old(t.Id) && idStore.ids == old(idStore.ids) && idStore.next == old(idStore.next))
        && (old(t.Id) != 0 && oldRows < newRows ==>
              Alloc(id, idStore.ids, idStore.next)
              == Allocate(old(idStore.ids) + [TextId(old(t.Id), oldRows)], old(idStore.next), newRows))
        && (old(t.Id) == 0 ==>
              Alloc(id, idStore.ids, idStore.next) == Allocate(old(idStore.ids), old(idStore.next), newRows))
      ensures old(t.Id) != 0 && CalculateTextRows(old(t.length)) < CalculateTextRows(t.Len()) ==>
        writes == Without(old(writes), t) + [t]
      ensures !(old(t.Id) != 0 && CalculateTextRows(old(t.length)) < CalculateTextRows(t.Len())) ==>
        writes == old(writes) + [t]
      ensures file == old(file)
    {
      if t.Id == 0 {
        id := AddText(t);
        return;
      }
      var oldRows := CalculateTextRows(t.length);
      var newRows := CalculateTextRows(t.Len());
      if oldRows > newRows {
        var idToCreate := (t.Id + newRows) % TWO64;
        var createRows := oldRows - newRows;
        idStore.AddId(NewTextId(idToCreate, createRows));
      } else if oldRows < newRows {
        RemoveText(t);
        id := AddText(t);
        return;
      }
      writes := writes + [t];
      t.length := t.Len();
      id := t.Id;
    }

    /** `write`: store every pending string at its offset, empty `writes`, and flush the
        allocator. */
    method Write()
      requires WriteReady()
      modifies this`file, this`writes, idStore`file
      ensures file == WriteTexts(old(file), old(Snapshot(writes)))
      ensures writes == []
      ensures idStore.file == TextIdStores.Serialized(idStore.next, idStore.ids)
    {
      var i := 0;
      ghost var ps := Snapshot(writes);
      while i < |writes|
        invariant 0 <= i <= |writes| && writes == old(writes) && |ps| == |writes|
        invariant file == WriteTexts(old(file), ps[..i])
      {
        var t := writes[i];
        // `t.Id * textStoreRowSize - textStoreRowSize` as an int64 offset
        var pos := TextOffset(t.Id);
        if pos.Some? {
          file := WriteAt(file, t.Data(), pos.value);
        }
        assert file == WriteTexts(old(file), ps[..i + 1]) by {
          assert ps[i] == Pending(t.Id, t.value);
          WriteTextsStep(old(file), ps, i);
        }
        i := i + 1;
      }
      assert ps[..i] == ps;
      writes := [];
      idStore.Write();
    }
  }

  /** `writes` without any entry for t. */
  function Without(ws: seq<Text>, t: Text): (r: seq<Text>)
    ensures t !in r && forall u :: u in ws && u != t ==> u in r
    ensures forall i :: 0 <= i < |r| ==> r[i] in ws
  {
    if |ws| == 0 then []
    else if ws[0] == t then Without(ws[1..], t)
    else [ws[0]] + Without(ws[1..], t)
  }

  /** Adding a string and removing it again before `write`, with `removeText` as written,
      leaves a pending string with id 0, which the requirement of `write` rejects. */
  method AddThenRemoveAsWritten(s: TextStore, t: Text)
    requires t.Id == 0
    modifies s, t, s.idStore
    ensures t in s.writes && t.Id == 0 && !s.WriteReady()
  {
    var _ := s.AddText(t);
    s.RemoveTextAsWritten(t);
    assert s.writes[|s.writes| - 1] == t;
  }

  /** With `removeText` taking the string out of `writes`, add-then-remove leaves `writes` as
      it was. */
  method AddThenRemove(s: TextStore, t: Text)
    requires t.Id == 0 && s.WriteReady() && t !in s.writes
    modifies s, t, s.idStore
    ensures s.writes == old(s.writes) && s.WriteReady()
  {
    var _ := s.AddText(t);
    s.RemoveText(t);
    WithoutAbsent(old(s.writes), t);
  }

  lemma {:induction false} WithoutAbsent(ws: seq<Text>, t: Text)
    requires t !in ws
    ensures Without(ws + [t], t) == ws
  {
    if |ws| > 0 {
      assert (ws + [t])[1..] == ws[1..] + [t];
      WithoutAbsent(ws[1..], t);
      assert [ws[0]] + ws[1..] == ws;
    } else {
      assert Without([t], t) == Without([], t);
    }
  }
}
