// The label store (data/label_store.go): a file of 21-byte label records behind a 2-byte header
// that holds the id of the root of the label tree, a 16-bit id allocator, and the map `writes`
// of labels changed since the last `write`. Labels are found by string through the AVL tree of
// data/label.go, whose nodes are the records.
//
// The class keeps, as a ghost field, the tree the records and `root` describe; `Valid` ties the
// two together. The text store is the function `text` (the string behind each text id).

module LabelStores {
  import opened Conversion
  import opened FileModel
  import opened IdStores
  import opened Labels
  import opened LabelTrees
  import opened LabelEdits
  import opened LabelRemovals
  import opened LabelSearches
  import opened LabelEntries

  const LabelStoreHeaderSize: nat := 2

  // ---- where the records lie ----

  /** Where the record of label `id` starts: ids count from 1, records follow the header. */
  function LabelOffset(id: u16): (r: nat)
    requires id != 0
    ensures r >= LabelStoreHeaderSize
  {
    LabelStoreHeaderSize + (id - 1) * LabelDataSize
  }

  /** Records of different labels do not overlap. */
  lemma {:induction false} LabelRecordsApart(a: u16, b: u16)
    requires a != 0 && b != 0 && a != b
    ensures LabelOffset(a) + LabelDataSize <= LabelOffset(b) || LabelOffset(b) + LabelDataSize <= LabelOffset(a)
  {
    if a < b {
      assert (b - 1) * LabelDataSize - (a - 1) * LabelDataSize == (b - a) * LabelDataSize;
    } else {
      assert (a - 1) * LabelDataSize - (b - 1) * LabelDataSize == (a - b) * LabelDataSize;
    }
  }

  /** The offset as `find` and `write` compute it: `labelStoreHeaderSize + (id - 1) *
      labelDataSize` has the type of `id`, uint16, and wraps. */
  function LabelOffsetAsWritten(id: u16): u16 {
    (LabelStoreHeaderSize + ((id + TWO16 - 1) % TWO16) * LabelDataSize) % TWO16
  }

  /** Up to id 3121 the uint16 offset is the intended one. */
  lemma {:induction false} LabelOffsetAsWrittenExact(id: u16)
    requires 1 <= id <= 3121
    ensures LabelOffsetAsWritten(id) == LabelOffset(id)
  {
    assert (id + TWO16 - 1) % TWO16 == id - 1;
    assert (id - 1) * LabelDataSize <= 3120 * LabelDataSize;
  }

  /** Label 3122 is written at offset 7, inside the record of label 1 (bytes 2 to 22). */
  lemma {:induction false} LabelOffsetWraps()
    ensures LabelOffsetAsWritten(3122) == 7
    ensures LabelOffset(1) < LabelOffsetAsWritten(3122) < LabelOffset(1) + LabelDataSize
    ensures LabelOffset(3122) == 65543
  {
  }

  // ---- reading and writing records ----

  /** `find` for a label that is not in `writes`: the record read from the file, or nothing when
      the file ends before the record does. */
  function ReadLabel(file: Bytes, id: u16): (r: Option<Label>)
    requires id != 0
    ensures r.Some? <==> LabelOffset(id) + LabelDataSize <= |file|
    ensures r.Some? ==> r.value.Id == id
  {
    var rd := ReadAt(file, LabelOffset(id), LabelDataSize);
    if rd.eof then None else Some(ConstructLabel(id, rd.data))
  }

  /** A record written by `write` reads back as the label written. */
  lemma {:induction false} ReadLabelAfterWrite(file: Bytes, lab: Label)
    requires lab.Id != 0
    ensures ReadLabel(WriteAt(file, Data(lab), LabelOffset(lab.Id)), lab.Id) == Some(lab)
  {
    ReadAfterWrite(file, Data(lab), LabelOffset(lab.Id));
    ConstructData(lab);
  }

  /** A write that misses a record that is already in the file leaves it as it was. */
  lemma {:induction false} ReadLabelFrame(file: Bytes, d: Bytes, off: nat, id: u16)
    requires id != 0 && ReadLabel(file, id).Some?
    requires off + |d| <= LabelOffset(id) || LabelOffset(id) + LabelDataSize <= off
    ensures ReadLabel(WriteAt(file, d, off), id) == ReadLabel(file, id)
  {
    var o := LabelOffset(id);
    var f := WriteAt(file, d, off);
    assert f[o..o + LabelDataSize] == file[o..o + LabelDataSize];
  }

  /** `readHeader`: the root id in the first two bytes; a short file reads as zeroes. */
  function ReadRoot(file: Bytes): (r: u16)
    ensures |file| >= 2 ==> r == LittleEndian(file[..2])
  {
    var d := ReadAt(file, 0, 2).data;
    assert d[..2] == d && (|file| >= 2 ==> d == file[..2]);
    BytesToUint16(d).OrZero(0)
  }

  /** `readHeader` after `writeHeader` gives back the root. */
  lemma {:induction false} ReadRootAfterWrite(file: Bytes, root: u16)
    ensures ReadRoot(WriteAt(file, Uint16ToBytes(root), 0)) == root
  {
    var f := WriteAt(file, Uint16ToBytes(root), 0);
    assert f[..2] == Uint16ToBytes(root);
  }

  // ---- the store's contents ----

  /** What `find` returns for a non-zero id: the pending label, else the record in the file. */
  function StoredIn(writes: map<u16, Label>, file: Bytes, id: u16): Option<Label>
    requires id != 0
  {
    if id in writes then Some(writes[id]) else ReadLabel(file, id)
  }

  /** Every label of the tree is what the store returns for its id. */
  ghost predicate Described(writes: map<u16, Label>, file: Bytes, t: Tree) {
    forall lab :: lab in Records(t) ==> lab.Id != 0 && StoredIn(writes, file, lab.Id) == Some(lab)
  }

  /** The write map after the tree code has put the labels `marks` into it. In Go the map holds
      pointers to the tree's own labels, so an entry shows the label as the tree leaves it. */
  function Marked(writes: map<u16, Label>, after: Tree, marks: set<u16>): (r: map<u16, Label>)
    ensures r.Keys == writes.Keys + (marks * Ids(after))
    ensures forall id :: id in r && id !in marks * Ids(after) ==> r[id] == writes[id]
    ensures forall id :: id in marks * Ids(after) ==> r[id] == LabelOf(after, id)
  {
    writes + map id | id in marks * Ids(after) :: LabelOf(after, id)
  }

  /** When every label the tree code changed is marked, the store describes the new tree. */
  lemma {:induction false} MarkedKeeps(writes: map<u16, Label>, file: Bytes, before: Tree, after: Tree, marks: set<u16>)
    requires Described(writes, file, before) && Distinct(after) && Recorded(before, after, marks)
    ensures Described(Marked(writes, after, marks), file, after)
  {
    var w := Marked(writes, after, marks);
    NoZeroId(after);
    forall lab | lab in Records(after)
      ensures lab.Id != 0 && StoredIn(w, file, lab.Id) == Some(lab)
    {
      RecordIsLabelOf(after, lab);
    }
  }

  /** Changing a label's count in the tree and in `writes` alike keeps the store describing
      the tree. */
  lemma {:induction false} SetRefsDescribed(writes: map<u16, Label>, file: Bytes, t: Tree, id: u16, refs: u64, text: u64 -> Bytes)
    requires Described(writes, file, t) && Avl(t, text) && id in Ids(t)
    ensures id != 0
    ensures Described(writes[id := LabelOf(t, id).(refs := refs)], file, SetRefs(t, id, refs))
  {
    NoZeroId(t);
    SetRefsKeeps(t, id, refs, text);
  }

  /** The store's state as values: an AVL tree rooted at `root` that the records describe,
      pending labels under their own ids, and every id of the tree in use in the allocator. */
  ghost predicate Consistent(text: u64 -> Bytes, p: Pool, t: Tree, writes: map<u16, Label>, file: Bytes, root: u16) {
    && PoolOk(p) && Avl(t, text) && RootId(t) == root
    && Described(writes, file, t)
    && 0 !in writes && (forall id :: id in writes ==> writes[id].Id == id)
    && (forall id :: id in Ids(t) ==> id as nat in Issued(p))
  }

  /** A pending label whose id is not in the tree leaves the store consistent. */
  lemma {:induction false} PendingKeeps(text: u64 -> Bytes, p: Pool, t: Tree, writes: map<u16, Label>, file: Bytes, root: u16, lab: Label)
    requires Consistent(text, p, t, writes, file, root) && lab.Id != 0 && lab.Id !in Ids(t)
    ensures Consistent(text, p, t, writes[lab.Id := lab], file, root)
  {
    PendingDescribed(writes, file, t, lab);
  }

  lemma {:induction false} PendingDescribed(writes: map<u16, Label>, file: Bytes, t: Tree, lab: Label)
    requires Described(writes, file, t) && lab.Id !in Ids(t)
    ensures Described(writes[lab.Id := lab], file, t)
  {
    forall x | x in Records(t)
      ensures x.Id != 0 && StoredIn(writes[lab.Id := lab], file, x.Id) == StoredIn(writes, file, x.Id)
    {
      RecordFacts(t, x, y => []);
    }
  }

  /** `l.refs += 1` or `l.refs -= 1` on a label of the tree, which `writes` then holds: the store
      stays consistent and only that label's entry changes. */
  lemma {:induction false} RefsStep(text: u64 -> Bytes, p: Pool, t: Tree, writes: map<u16, Label>, file: Bytes, root: u16, lab: Label, refs: u64)
    requires Consistent(text, p, t, writes, file, root) && lab in Records(t)
    ensures lab.Id in Ids(t) && LabelOf(t, lab.Id) == lab
    ensures Consistent(text, p, SetRefs(t, lab.Id, refs), writes[lab.Id := lab.(refs := refs)], file, root)
    ensures Entries(SetRefs(t, lab.Id, refs)) == Entries(t) - {EntryOf(lab)} + {EntryOf(lab).(refs := refs)}
  {
    RecordIsLabelOf(t, lab);
    SetRefsKeeps(t, lab.Id, refs, text);
    SetRefsDescribed(writes, file, t, lab.Id, refs, text);
    SetRefsEntries(t, lab.Id, refs);
  }

  /** Marking keeps every pending label under its own id. */
  lemma {:induction false} MarkedKeyed(writes: map<u16, Label>, after: Tree, marks: set<u16>)
    requires 0 !in writes && (forall id :: id in writes ==> writes[id].Id == id) && Distinct(after)
    ensures var w := Marked(writes, after, marks); 0 !in w && forall id :: id in w ==> w[id].Id == id
  {
    NoZeroId(after);
  }

  /** So does putting a label under its own non-zero id. */
  lemma {:induction false} KeyedPut(writes: map<u16, Label>, lab: Label)
    requires 0 !in writes && (forall id :: id in writes ==> writes[id].Id == id) && lab.Id != 0
    ensures var w := writes[lab.Id := lab]; 0 !in w && forall id :: id in w ==> w[id].Id == id
  {
  }

  /** The new label's id is fresh, and adding it to the tree gains exactly its id, its text
      and its entry (n's id, its text, 1). */
  lemma {:induction false} InsertShape(text: u64 -> Bytes, p: Pool, q: Pool, t: Tree, writes: map<u16, Label>, file: Bytes, root: u16, n: Label)
    requires Consistent(text, p, t, writes, file, root)
    requires Next(p, 2) == (n.Id as nat, q) && (|p.ids| != 0 || p.lastId + 1 < TWO16)
    requires n == NewLabel(n.value).(Id := n.Id) && text(n.value) !in Keys(t, text)
    ensures n.Id != 0 && n.Id !in Ids(t) && Described(writes[n.Id := n], file, t)
    ensures Issued(q) == Issued(p) + {n.Id as nat} && PoolOk(q)
    ensures var (after, marks) := AddNode(t, n, text);
      && Avl(after, text) && Recorded(t, after, marks + {n.Id})
      && Ids(after) == Ids(t) + {n.Id} && Keys(after, text) == Keys(t, text) + {text(n.value)}
      && LabelOf(after, n.Id).refs == 0
      && Entries(SetRefs(after, n.Id, 1)) == Entries(t) + {Entry(n.Id, n.value, 1)}
  {
    NextNeverReissues(p, 2);
    assert Pow256(2) == TWO16;
    assert n.Id !in Ids(t);
    PendingDescribed(writes, file, t, n);
    AddNew(t, n, text);
  }

  /** The new-label path of `addLabel`: `n` takes the next id, is put into `writes`, added to
      the tree, and given its first reference. The store stays consistent with the allocator's
      new state. */
  lemma {:induction false} InsertStep(text: u64 -> Bytes, p: Pool, q: Pool, t: Tree, writes: map<u16, Label>, file: Bytes, root: u16, n: Label,
                    after: Tree, marks: set<u16>)
    requires Consistent(text, p, t, writes, file, root)
    requires Next(p, 2) == (n.Id as nat, q) && (|p.ids| != 0 || p.lastId + 1 < TWO16)
    requires n == NewLabel(n.value).(Id := n.Id) && text(n.value) !in Keys(t, text)
    requires (after, marks) == AddNode(t, n, text)
    ensures n.Id in Ids(after)
    ensures var w := Marked(writes[n.Id := n], after, marks + {n.Id});
      Consistent(text, q, SetRefs(after, n.Id, 1), w[n.Id := LabelOf(after, n.Id).(refs := 1)], file, RootId(after))
  {
    InsertMarked(text, p, q, t, writes, file, root, n, after, marks);
    var w := Marked(writes[n.Id := n], after, marks + {n.Id});
    RefsConsistent(text, q, after, w, file, n.Id, 1);
  }

  /** The first half of `InsertStep`: after `addNode` has put its labels into `writes`, the
      pending labels describe the new tree, under their own ids, and every id is issued. */
  lemma {:induction false} InsertMarked(text: u64 -> Bytes, p: Pool, q: Pool, t: Tree, writes: map<u16, Label>, file: Bytes, root: u16, n: Label,
                     after: Tree, marks: set<u16>)
    requires Consistent(text, p, t, writes, file, root)
    requires Next(p, 2) == (n.Id as nat, q) && (|p.ids| != 0 || p.lastId + 1 < TWO16)
    requires n == NewLabel(n.value).(Id := n.Id) && text(n.value) !in Keys(t, text)
    requires (after, marks) == AddNode(t, n, text)
    ensures n.Id in Ids(after) && PoolOk(q) && Avl(after, text)
    ensures forall id :: id in Ids(after) ==> id as nat in Issued(q)
    ensures var w := Marked(writes[n.Id := n], after, marks + {n.Id});
      && Described(w, file, after) && 0 !in w && (forall id :: id in w ==> w[id].Id == id)
  {
    InsertShape(text, p, q, t, writes, file, root, n);
    KeyedPut(writes, n);
    MarkedKeeps(writes[n.Id := n], file, t, after, marks + {n.Id});
    MarkedKeyed(writes[n.Id := n], after, marks + {n.Id});
  }

  /** Giving a label of the tree a new reference count, and putting it into `writes`, keeps the
      store consistent. */
  lemma {:induction false} RefsConsistent(text: u64 -> Bytes, q: Pool, t: Tree, w: map<u16, Label>, file: Bytes, id: u16, refs: u64)
    requires PoolOk(q) && Avl(t, text) && Described(w, file, t) && id in Ids(t)
    requires 0 !in w && (forall i :: i in w ==> w[i].Id == i)
    requires forall i :: i in Ids(t) ==> i as nat in Issued(q)
    ensures Consistent(text, q, SetRefs(t, id, refs), w[id := LabelOf(t, id).(refs := refs)], file, RootId(t))
  {
    SetRefsKeeps(t, id, refs, text);
    SetRefsDescribed(w, file, t, id, refs, text);
    var t2 := SetRefs(t, id, refs);
    var w2 := w[id := LabelOf(t, id).(refs := refs)];
    KeyedPut(w, LabelOf(t, id).(refs := refs));
    assert forall i :: i in Ids(t2) ==> i as nat in Issued(q);
    ConsistentOf(text, q, t2, w2, file);
  }

  lemma {:induction false} ConsistentOf(text: u64 -> Bytes, p: Pool, t: Tree, writes: map<u16, Label>, file: Bytes)
    requires PoolOk(p) && Avl(t, text) && Described(writes, file, t)
    requires 0 !in writes && (forall id :: id in writes ==> writes[id].Id == id)
    requires forall id :: id in Ids(t) ==> id as nat in Issued(p)
    ensures Consistent(text, p, t, writes, file, RootId(t))
  {
  }

  /** What `addLabel` needs to know about adding a fresh label `n`: the tree stays an AVL tree
      and gains exactly the entry of `n`, which is the only entry under its id. */
  lemma {:induction false} AddNew(t: Tree, n: Label, text: u64 -> Bytes)
    requires Avl(t, text) && n.Id != 0 && n.Id !in Ids(t) && text(n.value) !in Keys(t, text)
    requires n.l == 0 && n.r == 0 && n.h == 0 && n.refs == 0
    ensures var (r, m) := AddNode(t, n, text);
      && Avl(r, text) && Ids(r) == Ids(t) + {n.Id} && Keys(r, text) == Keys(t, text) + {text(n.value)}
      && Recorded(t, r, m + {n.Id})
      && LabelOf(r, n.Id).value == n.value && LabelOf(r, n.Id).refs == 0
      && Entries(SetRefs(r, n.Id, 1)) == Entries(t) + {EntryOf(n).(refs := 1)}
  {
    AvlHeightBound(t, text);
    AddNodeAvl(t, n, text);
    AddNodeEntries(t, n, text, true);
    var r := AddNode(t, n, text).0;
    var lab := LabelOf(r, n.Id);
    RecordEntry(r, lab);
    EntryUnique(r, lab, EntryOf(n));
    if EntryOf(n) in Entries(t) {
      EntryFacts(t, EntryOf(n));
    }
    SetRefsEntries(r, n.Id, 1);
  }

  /** `deleteLabel` of a label of the tree: its id back in the pool, the label out of the tree,
      the changed labels pending. The store stays consistent and loses exactly that entry. */
  lemma {:induction false} DeleteStep(text: u64 -> Bytes, p: Pool, t: Tree, writes: map<u16, Label>, file: Bytes, root: u16, lab: Label)
    requires Consistent(text, p, t, writes, file, root)
    requires lab.Id != 0 && lab.Id in Ids(t) && LabelOf(t, lab.Id).value == lab.value
    ensures var (after, marks) := RemoveNode(t, lab, text);
      && Consistent(text, Add(p, lab.Id), after, Marked(writes, after, marks), file, RootId(after))
      && Ids(after) == Ids(t) - {lab.Id} && Keys(after, text) == Keys(t, text) - {text(lab.value)}
      && Entries(after) == Entries(t) - {EntryOf(LabelOf(t, lab.Id))}
  {
    var cur := LabelOf(t, lab.Id);
    AddReleases(p, lab.Id);
    RemoveNodeByKey(t, lab, cur, text);
    AvlHeightBound(t, text);
    RemoveNodeAvl(t, cur, text);
    RemoveNodeEntries(t, cur, text);
    var r := RemoveNode(t, lab, text);
    MarkedKeeps(writes, file, t, r.0, r.1);
    MarkedKeyed(writes, r.0, r.1);
    assert forall id :: id in Ids(r.0) ==> id as nat in Issued(Add(p, lab.Id));
    ConsistentOf(text, Add(p, lab.Id), r.0, Marked(writes, r.0, r.1), file);
  }

  /** Part way through `write`: the labels of `w` outside `pending` are in their records, and
      every record that was in the file and is not pending is as it was. */
  ghost predicate Flushed(w: map<u16, Label>, f0: Bytes, pending: set<u16>, f: Bytes) {
    && 0 !in w
    && (forall id :: id in w && id !in pending ==> ReadLabel(f, id) == Some(w[id]))
    && (forall id: u16 :: id != 0 && id !in w && ReadLabel(f0, id).Some? ==> ReadLabel(f, id) == ReadLabel(f0, id))
  }

  /** Writing the record of one pending label. */
  lemma {:induction false} FlushStep(w: map<u16, Label>, f0: Bytes, pending: set<u16>, f: Bytes, id: u16)
    requires Flushed(w, f0, pending, f) && id in pending && pending <= w.Keys
    requires 0 !in w && forall i :: i in w ==> w[i].Id == i
    ensures Flushed(w, f0, pending - {id}, WriteAt(f, Data(w[id]), LabelOffset(id)))
  {
    var lab := w[id];
    var g := WriteAt(f, Data(lab), LabelOffset(id));
    ReadLabelAfterWrite(f, lab);
    forall j: u16 | j != 0 && j != id && ReadLabel(f, j).Some?
      ensures ReadLabel(g, j) == ReadLabel(f, j)
    {
      LabelRecordsApart(id, j);
      ReadLabelFrame(f, Data(lab), LabelOffset(id), j);
    }
  }

  /** Once nothing is pending, the file holds what `find` returned before. */
  lemma {:induction false} FlushedAll(w: map<u16, Label>, f0: Bytes, f: Bytes)
    requires Flushed(w, f0, {}, f)
    ensures forall id: u16 :: id != 0 && StoredIn(w, f0, id).Some? ==> ReadLabel(f, id) == StoredIn(w, f0, id)
  {
  }

  /** After `write` the store, with no pending labels, describes the same tree. */
  lemma {:induction false} WrittenConsistent(text: u64 -> Bytes, p: Pool, t: Tree, w: map<u16, Label>, f0: Bytes, f1: Bytes, f2: Bytes, root: u16)
    requires Consistent(text, p, t, w, f0, root)
    requires forall id: u16 :: id != 0 && StoredIn(w, f0, id).Some? ==> ReadLabel(f1, id) == StoredIn(w, f0, id)
    requires forall id: u16 :: id != 0 && ReadLabel(f1, id).Some? ==> ReadLabel(f2, id) == ReadLabel(f1, id)
    ensures Consistent(text, p, t, map[], f2, root)
    ensures forall id: u16 :: id != 0 && StoredIn(w, f0, id).Some? ==> StoredIn(map[], f2, id) == StoredIn(w, f0, id)
  {
    forall lab | lab in Records(t)
      ensures lab.Id != 0 && StoredIn(map[], f2, lab.Id) == Some(lab)
    {
      assert StoredIn(w, f0, lab.Id) == Some(lab);
    }
  }

  class LabelStore {
    var file: Bytes
    const idStore: IdStore
    var writes: map<u16, Label>
    var root: u16
    /** The label tree that the records and `root` describe. */
    ghost var tree: Tree

    function Stored(id: u16): Option<Label>
      requires id != 0
      reads this
    {
      StoredIn(writes, file, id)
    }

    ghost predicate Valid(text: u64 -> Bytes)
      reads this, idStore
    {
      idStore.Valid() && idStore.width == 2 && Consistent(text, idStore.State(), tree, writes, file, root)
    }

    /** `createLabelStore`: an empty file and allocator; the header records root 0. */
    constructor Create()
      ensures forall text: u64 -> Bytes :: Valid(text)
      ensures file == [0, 0] && writes == map[] && root == 0 && tree == Nil
      ensures fresh(idStore) && idStore.lastId == 0 && idStore.ids == []
    {
      file := [];
      idStore := new IdStore.Create(2);
      writes := map[];
      root := 0;
      tree := Nil;
      new;
      WriteHeader();
    }

    /** `constructLabelStore`: an existing file and allocator; the root comes from the header.
        The ghost `t` is the tree the file's records describe: when they do (as
        `WrittenConsistent` gives after `Write`), the opened store is valid. */
    constructor Open(file: Bytes, idStore: IdStore, ghost t: Tree)
      ensures this.file == file && this.idStore == idStore && writes == map[]
      ensures root == ReadRoot(file) && tree == t
      ensures forall text: u64 -> Bytes ::
        idStore.Valid() && idStore.width == 2 && Consistent(text, idStore.State(), t, map[], file, ReadRoot(file))
        ==> Valid(text)
    {
      this.file := file;
      this.idStore := idStore;
      writes := map[];
      root := 0;
      tree := t;
      new;
      ReadHeader();
    }

    /** `readHeader`. */
    method ReadHeader()
      modifies this`root
      ensures root == ReadRoot(file)
    {
      var d := ReadAt(file, 0, 2);
      root := BytesToUint16(d.data).OrZero(0);
    }

    /** `writeHeader`: the root goes to the first two bytes; the records stay as they were. */
    method WriteHeader()
      modifies this`file
      ensures file == WriteAt(old(file), Uint16ToBytes(root), 0)
      ensures ReadRoot(file) == root
      ensures forall id: u16 :: id != 0 && ReadLabel(old(file), id).Some? ==> ReadLabel(file, id) == ReadLabel(old(file), id)
    {
      ghost var f0 := file;
      var bytes := Uint16ToBytes(root);
      file := WriteAt(file, bytes, 0);
      ReadRootAfterWrite(f0, root);
      forall id: u16 | id != 0 && ReadLabel(f0, id).Some?
        ensures ReadLabel(file, id) == ReadLabel(f0, id)
      {
        ReadLabelFrame(f0, bytes, 0, id);
      }
    }

    /** `find`: the pending label, else the record; a record past the end is an error. */
    method Find(id: u16) returns (r: Option<Label>)
      requires id != 0
      ensures r == Stored(id)
    {
      if id in writes {
        return Some(writes[id]);
      }
      var rd := ReadAt(file, LabelOffset(id), LabelDataSize);
      if rd.eof {
        return None;
      }
      return Some(ConstructLabel(id, rd.data));
    }

    /** `findAllowZero`: nothing for id 0. */
    method FindAllowZero(id: u16) returns (r: Option<Label>)
      ensures id == 0 ==> r == None
      ensures id != 0 ==> r == Stored(id)
    {
      if id == 0 {
        return None;
      }
      r := Find(id);
    }

    /** `rootNode`: the label at the root of the tree. */
    method RootNode(ghost text: u64 -> Bytes) returns (r: Option<Label>)
      requires Valid(text) && root != 0
      ensures r == Some(tree.lab) && r.value.Id == root
    {
      assert tree.lab in Records(tree);
      r := Find(root);
    }

    /** `findByValue`: the descent from the root, reading each node through `find`. The label
        returned is the tree's label of that string, and there is one exactly when the tree
        holds the string. */
    method FindByValue(value: Bytes, text: u64 -> Bytes) returns (r: Option<Label>)
      requires Valid(text)
      ensures r == Search(tree, value, text)
      ensures r.Some? <==> value in Keys(tree, text)
      ensures r.Some? ==> r.value in Records(tree) && text(r.value.value) == value
    {
      SearchFinds(tree, value, text);
      r := FindAllowZero(root);
      ghost var sub := tree;
      while r.Some?
        invariant Linked(sub) && Records(sub) <= Records(tree)
        invariant r == (if sub.Nil? then None else Some(sub.lab))
        invariant Search(sub, value, text) == Search(tree, value, text)
        decreases sub
      {
        var lab := r.value;
        var rootVal := text(lab.value);
        if rootVal == value {
          return;
        } else if Less(rootVal, value) {
          sub := sub.right;
          r := FindAllowZero(lab.r);
        } else {
          sub := sub.left;
          r := FindAllowZero(lab.l);
        }
      }
    }

    /** The subtree whose root is `id`, read node by node through `find` (as `left` and
        `right` do): it is the subtree the store describes. */
    method LoadTree(id: u16, ghost t: Tree) returns (r: Tree)
      requires Described(writes, file, t) && Linked(t) && RootId(t) == id
      ensures r == t
      decreases t
    {
      if id == 0 {
        assert t.Nil? || t.lab in Records(t);
        return Nil;
      }
      assert t.lab in Records(t);
      var lab := Find(id);
      var left := LoadTree(lab.value.l, t.left);
      var right := LoadTree(lab.value.r, t.right);
      r := Node(left, lab.value, right);
    }

    /** `addLabel`: a string already in the tree gets one more reference; a new string gets a
        new id and a label with one reference, added to the tree. Either way the label is
        pending, and its id is returned. */
    method AddLabel(value: Bytes, text: u64 -> Bytes, textId: u64) returns (id: u16)
      requires Valid(text) && text(textId) == value
      requires value !in Keys(tree, text) ==> idStore.ids != [] || idStore.lastId + 1 < TWO16
      modifies this`writes, this`root, this`tree, idStore`lastId, idStore`ids
      ensures Valid(text) && file == old(file) && id in writes
      ensures Keys(tree, text) == old(Keys(tree, text)) + {value}
      ensures Ids(tree) == old(Ids(tree)) + {id}
      ensures var found := old(Search(tree, value, text));
        found.Some? ==>
          && id == found.value.Id
          && idStore.State() == old(idStore.State())
          && Entries(tree) == old(Entries(tree)) - {EntryOf(found.value)} + {EntryOf(found.value).(refs := IncRefs(found.value.refs))}
      ensures var found := old(Search(tree, value, text));
        found.None? ==>
          && id != 0 && id !in old(Ids(tree))
          && (id as nat, idStore.State()) == Next(old(idStore.State()), 2)
          && Entries(tree) == old(Entries(tree)) + {Entry(id, textId, 1)}
    {
      var l := FindByValue(value, text);
      if l.None? {
        id := AddNewLabel(value, text, textId);
      } else {
        var lab := l.value;
        RecordIsLabelOf(tree, lab);
        SetCount(lab, IncRefs(lab.refs), text);
        id := lab.Id;
      }
    }

    /** The new-string path of `addLabel`: the next id, a label with that id made pending and
        added to the tree, then its first reference. */
    method AddNewLabel(value: Bytes, text: u64 -> Bytes, textId: u64) returns (id: u16)
      requires Valid(text) && text(textId) == value && value !in Keys(tree, text)
      requires idStore.ids != [] || idStore.lastId + 1 < TWO16
      modifies this`writes, this`root, this`tree, idStore`lastId, idStore`ids
      ensures Valid(text) && file == old(file) && id in writes
      ensures Keys(tree, text) == old(Keys(tree, text)) + {value}
      ensures Ids(tree) == old(Ids(tree)) + {id}
      ensures id != 0 && id !in old(Ids(tree))
      ensures (id as nat, idStore.State()) == Next(old(idStore.State()), 2)
      ensures Entries(tree) == old(Entries(tree)) + {Entry(id, textId, 1)}
    {
      ghost var p, t0, w0, f0, r0 := idStore.State(), tree, writes, file, root;
      assert Consistent(text, p, t0, w0, f0, r0);
      assert Pow256(2) == TWO16;
      var nid := idStore.NextId();
      assert nid < TWO16 by {
        if p.ids != [] {
          assert p.ids[0] in p.ids;
        }
      }
      var n := NewLabel(textId).(Id := nid as u16);
      id := InsertNew(n, text, p);
    }

    /** The rest of the new-string path once `n` has its id: `n` made pending, added to the
        tree, and given its first reference. */
    method InsertNew(n: Label, text: u64 -> Bytes, ghost p: Pool) returns (id: u16)
      requires idStore.Valid() && idStore.width == 2 && Consistent(text, p, tree, writes, file, root)
      requires Next(p, 2) == (n.Id as nat, idStore.State()) && (|p.ids| != 0 || p.lastId + 1 < TWO16)
      requires n == NewLabel(n.value).(Id := n.Id) && text(n.value) !in Keys(tree, text)
      modifies this`writes, this`root, this`tree
      ensures Valid(text) && file == old(file) && id == n.Id && id in writes
      ensures Keys(tree, text) == old(Keys(tree, text)) + {text(n.value)}
      ensures Ids(tree) == old(Ids(tree)) + {id}
      ensures id != 0 && id !in old(Ids(tree))
      ensures Entries(tree) == old(Entries(tree)) + {Entry(id, n.value, 1)}
    {
      ghost var q, t0, w0 := idStore.State(), tree, writes;
      InsertShape(text, p, q, t0, w0, file, root, n);
      var t := LoadTree(root, tree);
      var (after, marks) := AddNode(t, n, text);
      InsertStep(text, p, q, t0, w0, file, root, n, after, marks);
      // `l.refs += 1` on the new label, which the tree and `writes` share
      var lab := LabelOf(after, n.Id);
      var upd := lab.(refs := IncRefs(lab.refs));
      assert upd == lab.(refs := 1);
      Install(Marked(writes[n.Id := n], after, marks + {n.Id})[n.Id := upd], RootId(after), SetRefs(after, n.Id, 1), text);
      id := n.Id;
    }

    /** Puts in place a new state of the pending labels and the tree that is consistent with
        the allocator's. */
    method Install(w: map<u16, Label>, r: u16, t: Tree, ghost text: u64 -> Bytes)
      requires idStore.Valid() && idStore.width == 2 && Consistent(text, idStore.State(), t, w, file, r)
      modifies this`writes, this`root, this`tree
      ensures Valid(text) && writes == w && root == r && tree == t
    {
      writes := w;
      root := r;
      tree := t;
    }

    /** `l.refs = refs` on a label of the tree, which the tree and `writes` share; the label
        becomes pending with its new count. */
    method SetCount(lab: Label, refs: u64, ghost text: u64 -> Bytes)
      requires Valid(text) && lab in Records(tree)
      modifies this`writes, this`tree
      ensures Valid(text) && writes == old(writes)[lab.Id := lab.(refs := refs)]
      ensures tree == SetRefs(old(tree), lab.Id, refs)
      ensures Entries(tree) == old(Entries(tree)) - {EntryOf(lab)} + {EntryOf(lab).(refs := refs)}
    {
      ghost var p, t0, w0, f0, r0 := idStore.State(), tree, writes, file, root;
      assert Consistent(text, p, t0, w0, f0, r0);
      RefsStep(text, p, t0, w0, f0, r0, lab, refs);
      writes := writes[lab.Id := lab.(refs := refs)];
      tree := SetRefs(tree, lab.Id, refs);
    }

    /** `s.writes[l.Id] = l` for a label that has just left the tree. */
    method MarkPending(lab: Label, ghost text: u64 -> Bytes)
      requires Valid(text) && lab.Id != 0 && lab.Id !in Ids(tree)
      modifies this`writes
      ensures Valid(text) && writes == old(writes)[lab.Id := lab]
    {
      ghost var p, t0, w0, f0, r0 := idStore.State(), tree, writes, file, root;
      assert Consistent(text, p, t0, w0, f0, r0);
      PendingKeeps(text, p, t0, w0, f0, r0, lab);
      writes := writes[lab.Id := lab];
    }

    /** `removeLabel`: a string in the tree loses a reference (the uint64 count wraps below 0);
        at 0 the label is deleted and the id of its text is returned for the text store to
        drop. The label is pending with its new count either way. A string not in the tree
        changes nothing. */
    method RemoveLabel(value: Bytes, text: u64 -> Bytes) returns (freed: Option<u64>)
      requires Valid(text)
      modifies this`writes, this`root, this`tree, idStore`ids
      ensures Valid(text) && file == old(file) && idStore.lastId == old(idStore.lastId)
      ensures var found := old(Search(tree, value, text));
        found.None? ==>
          tree == old(tree) && writes == old(writes) && root == old(root) && idStore.ids == old(idStore.ids) && freed == None
      ensures var found := old(Search(tree, value, text));
        found.Some? ==>
          var lab := found.value;
          var refs := DecRefs(lab.refs);
          && lab.Id in writes && writes[lab.Id] == lab.(refs := refs)
          && (refs != 0 ==>
                && freed == None && idStore.ids == old(idStore.ids) && Ids(tree) == old(Ids(tree))
                && Entries(tree) == old(Entries(tree)) - {EntryOf(lab)} + {EntryOf(lab).(refs := refs)})
          && (refs == 0 ==>
                && freed == Some(lab.value) && idStore.ids == old(idStore.ids) + [lab.Id]
                && Ids(tree) == old(Ids(tree)) - {lab.Id} && Keys(tree, text) == old(Keys(tree, text)) - {value}
                && Entries(tree) == old(Entries(tree)) - {EntryOf(lab)})
    {
      var l := FindByValue(value, text);
      assert l.Some? ==> l.value.Id != 0;
      freed := None;
      if l.Some? && l.value.Id != 0 {
        var lab := l.value;
        var upd := lab.(refs := DecRefs(lab.refs));
        if upd.refs == 0 {
          RecordIsLabelOf(tree, lab);
          freed := DeleteLabel(upd, text);
          MarkPending(upd, text);
        } else {
          SetCount(lab, upd.refs, text);
        }
      }
    }

    /** `deleteLabel`: the id goes back to the allocator and the label out of the tree; the id
        of its text is returned for the text store to drop. Id 0 is ignored. */
    method DeleteLabel(lab: Label, text: u64 -> Bytes) returns (freed: Option<u64>)
      requires Valid(text)
      requires lab.Id != 0 ==> lab.Id in Ids(tree) && LabelOf(tree, lab.Id).value == lab.value
      modifies this`writes, this`root, this`tree, idStore`ids
      ensures Valid(text) && file == old(file) && idStore.lastId == old(idStore.lastId)
      ensures lab.Id == 0 ==>
        freed == None && tree == old(tree) && writes == old(writes) && root == old(root) && idStore.ids == old(idStore.ids)
      ensures lab.Id != 0 ==>
        && freed == Some(lab.value) && idStore.ids == old(idStore.ids) + [lab.Id]
        && Ids(tree) == old(Ids(tree)) - {lab.Id} && Keys(tree, text) == old(Keys(tree, text)) - {text(lab.value)}
        && Entries(tree) == old(Entries(tree)) - {EntryOf(old(LabelOf(tree, lab.Id)))}
    {
      if lab.Id == 0 {
        return None;
      }
      ghost var p, t0, w0, f0, r0 := idStore.State(), tree, writes, file, root;
      assert Consistent(text, p, t0, w0, f0, r0);
      DeleteStep(text, p, t0, w0, f0, r0, lab);
      assert Pow256(2) == TWO16;
      idStore.AddId(lab.Id);
      var t := LoadTree(root, tree);
      var (after, marks) := RemoveNode(t, lab, text);
      Install(Marked(writes, after, marks), RootId(after), after, text);
      freed := Some(lab.value);
    }

    /** `write`: every pending label goes to its record, then the header; the map is emptied.
        Whatever `find` returned before, it returns after. */
    method Write(ghost text: u64 -> Bytes)
      requires Valid(text)
      modifies this`file, this`writes
      ensures Valid(text) && writes == map[] && ReadRoot(file) == root
      ensures forall id :: id in old(writes) ==> ReadLabel(file, id) == Some(old(writes)[id])
      ensures forall id: u16 :: id != 0 && old(Stored(id)).Some? ==> Stored(id) == old(Stored(id))
    {
      ghost var f0, w, p, t, r0 := file, writes, idStore.State(), tree, root;
      assert Consistent(text, p, t, w, f0, r0);
      WriteRecords();
      FlushedAll(w, f0, file);
      ghost var f1 := file;
      WriteHeader();
      writes := map[];
      WrittenConsistent(text, p, t, w, f0, f1, file, r0);
    }

    /** The loop of `write`: the pending labels go to their records one at a time, in any
        order (Go ranges over a map). */
    method WriteRecords()
      requires 0 !in writes && forall id :: id in writes ==> writes[id].Id == id
      modifies this`file
      ensures Flushed(writes, old(file), {}, file)
    {
      ghost var f0 := file;
      var pending := writes.Keys;
      while pending != {}
        invariant pending <= writes.Keys
        invariant Flushed(writes, f0, pending, file)
        decreases pending
      {
        var id :| id in pending;
        var lab := writes[id];
        FlushStep(writes, f0, pending, file, id);
        file := WriteAt(file, Data(lab), LabelOffset(lab.Id));
        pending := pending - {id};
      }
    }
  }
}
