// The class store (data/class_store.go) and the class operations that go through it
// (data/class.go: `Super`, `Sub`, `NextSub`, `hasId`). The classes sit in a slice where the
// one with id i is at slot i - 1; on disk each class is a 9-byte record (`Classes.Data`) and
// the record's position gives the id back. The label store's `addLabel` and the label names
// are parameters.

module ClassStores {
  import opened Conversion
  import opened FileModel
  import Labels
  import opened Classes

  /** The class in slot i has the id i + 1, and each of its links is 0 or the id of a class in
      the store. */
  ghost predicate ClassesOk(cs: seq<Class>) {
    forall i :: 0 <= i < |cs| ==>
      cs[i].Id as int == i + 1 && cs[i].super as int <= |cs| && cs[i].sub as int <= |cs| &&
      cs[i].nextSub as int <= |cs|
  }

  /** `Find`: nothing for the id 0, else the class in slot id - 1. Ids past the end of the slice
      index out of range, which is a panic in Go; callers must not pass them. */
  function Lookup(cs: seq<Class>, id: u8): Option<Class>
    requires id as int <= |cs|
  {
    if id == 0 then None else Some(cs[id - 1])
  }

  // ---- nextId ----

  /** The slot of the first class whose label is 0. */
  function FirstFree(cs: seq<Class>): (r: Option<nat>)
    ensures r.Some? ==> r.value < |cs| && cs[r.value].labelId == 0
    ensures r.Some? ==> forall j :: 0 <= j < r.value ==> cs[j].labelId != 0
    ensures r.None? ==> forall j :: 0 <= j < |cs| ==> cs[j].labelId != 0
  {
    if |cs| == 0 then None
    else if cs[0].labelId == 0 then Some(0)
    else match FirstFree(cs[1..])
      case None => None
      case Some(k) => Some(k + 1)
  }

  /** `nextId`: the id of the first class whose label is 0, else `uint8(len) + 1`, which wraps
      to 0 once the slice holds 255 classes. In a well-formed store that reuses the slot of
      the first class with label 0, or else is the first id past the end. */
  function NextIdOf(cs: seq<Class>): (r: u8)
    ensures ClassesOk(cs) ==> |cs| <= 255
    ensures ClassesOk(cs) && FirstFree(cs).Some? ==> r as int == FirstFree(cs).value + 1
    ensures ClassesOk(cs) && FirstFree(cs).None? ==> r as int == (|cs| + 1) % 256
  {
    assert ClassesOk(cs) && |cs| > 255 ==> cs[255].Id as int == 256;
    match FirstFree(cs)
    case Some(k) => cs[k].Id
    case None => ((|cs| % 256) + 1) % 256
  }

  // ---- AddClass ----

  /** The classes after `AddClass(id, label, super)`: the super class (if any) has the new class
      as its first child, and the new class is appended when its id is past the end and
      overwrites slot id - 1 otherwise. */
  function Added(cs: seq<Class>, id: u8, labelId: u16, superId: u8): seq<Class>
    requires superId as int <= |cs| && 1 <= id as int <= |cs| + 1
  {
    var made := CreateClass(id, labelId, Lookup(cs, superId));
    var linked := if superId == 0 then cs else cs[superId - 1 := made.1.value];
    if id as int > |linked| then linked + [made.0] else linked[id - 1 := made.0]
  }

  /** Adding a class with the next id keeps the store well formed, and it grows by one exactly
      when no slot was free. */
  lemma {:induction false} AddedOk(cs: seq<Class>, labelId: u16, superId: u8)
    requires ClassesOk(cs) && superId as int <= |cs| && NextIdOf(cs) != 0
    ensures ClassesOk(Added(cs, NextIdOf(cs), labelId, superId))
    ensures |Added(cs, NextIdOf(cs), labelId, superId)| == if FirstFree(cs).None? then |cs| + 1 else |cs|
  {
  }

  /** The children of a class, following `nextSub` from its `sub`, as far as `fuel` steps. */
  function Children(cs: seq<Class>, first: u8, fuel: nat): seq<u8>
    requires first as int <= |cs|
    requires ClassesOk(cs)
    decreases fuel
  {
    if fuel == 0 || first == 0 then [] else [first] + Children(cs, cs[first - 1].nextSub, fuel - 1)
  }

  /** Appending a class and changing only `sub` links leaves every sibling walk that starts in
      the old classes as it was. */
  lemma {:induction false} ChildrenKept(cs: seq<Class>, cs2: seq<Class>, first: u8, fuel: nat)
    requires ClassesOk(cs) && ClassesOk(cs2) && |cs2| >= |cs| && first as int <= |cs|
    requires forall i :: 0 <= i < |cs| ==> cs2[i].nextSub == cs[i].nextSub
    ensures Children(cs2, first, fuel) == Children(cs, first, fuel)
    decreases fuel
  {
    if fuel > 0 && first != 0 {
      ChildrenKept(cs, cs2, cs[first - 1].nextSub, fuel - 1);
    }
  }

  /** `createClass` prepends: once a class is added below a super class (and appended, since no
      slot was free), the super class's children are the new class followed by its old
      children. */
  lemma {:induction false} PrependChild(cs: seq<Class>, labelId: u16, superId: u8, fuel: nat)
    requires ClassesOk(cs) && 1 <= superId as int <= |cs| && NextIdOf(cs) != 0
    requires FirstFree(cs).None?
    ensures var cs2 := Added(cs, NextIdOf(cs), labelId, superId);
      Children(cs2, cs2[superId - 1].sub, fuel + 1) ==
        [NextIdOf(cs)] + Children(cs, cs[superId - 1].sub, fuel)
  {
    AddedOk(cs, labelId, superId);
    var id := NextIdOf(cs);
    var cs2 := Added(cs, id, labelId, superId);
    assert cs2[id - 1].nextSub == cs[superId - 1].sub;
    ChildrenKept(cs, cs2, cs[superId - 1].sub, fuel);
  }

  // ---- hasId ----

  /** `hasId` on the class `x`, with `index(c)` the ids in class c's index: true when the id is
      in the class's own index or, recursively, in one of its children's. The Go recursion has
      no bound; `fuel` bounds it here. */
  function HasIdIn(cs: seq<Class>, index: u8 -> set<u32>, x: u8, id: u32, fuel: nat): bool
    requires ClassesOk(cs) && 1 <= x as int <= |cs|
    decreases fuel, 0
  {
    fuel > 0 && (id in index(x) || SubsHaveId(cs, index, cs[x - 1].sub, id, fuel - 1))
  }

  /** The loop of `hasId` over the sibling chain that starts at `s`. */
  function SubsHaveId(cs: seq<Class>, index: u8 -> set<u32>, s: u8, id: u32, fuel: nat): bool
    requires ClassesOk(cs) && s as int <= |cs|
    decreases fuel, 1
  {
    s != 0 &&
    (HasIdIn(cs, index, s, id, fuel) || (fuel > 0 && SubsHaveId(cs, index, cs[s - 1].nextSub, id, fuel - 1)))
  }

  /** The classes of the subtree below `x` that a walk with this fuel reaches, `x` included. */
  ghost function Subtree(cs: seq<Class>, x: u8, fuel: nat): set<u8>
    requires ClassesOk(cs) && 1 <= x as int <= |cs|
    decreases fuel, 0
  {
    if fuel == 0 then {} else {x} + SubtreesFrom(cs, cs[x - 1].sub, fuel - 1)
  }

  ghost function SubtreesFrom(cs: seq<Class>, s: u8, fuel: nat): set<u8>
    requires ClassesOk(cs) && s as int <= |cs|
    decreases fuel, 1
  {
    if s == 0 then {}
    else Subtree(cs, s, fuel) + (if fuel > 0 then SubtreesFrom(cs, cs[s - 1].nextSub, fuel - 1) else {})
  }

  /** `hasId` is true exactly when some class of the subtree holds the id in its index. */
  lemma {:induction false} HasIdSubtree(cs: seq<Class>, index: u8 -> set<u32>, x: u8, id: u32, fuel: nat)
    requires ClassesOk(cs) && 1 <= x as int <= |cs|
    ensures HasIdIn(cs, index, x, id, fuel) <==> exists d :: d in Subtree(cs, x, fuel) && id in index(d)
    decreases fuel, 0
  {
    if fuel > 0 {
      SubsSubtrees(cs, index, cs[x - 1].sub, id, fuel - 1);
    }
  }

  lemma {:induction false} SubsSubtrees(cs: seq<Class>, index: u8 -> set<u32>, s: u8, id: u32, fuel: nat)
    requires ClassesOk(cs) && s as int <= |cs|
    ensures SubsHaveId(cs, index, s, id, fuel) <==> exists d :: d in SubtreesFrom(cs, s, fuel) && id in index(d)
    decreases fuel, 1
  {
    if s != 0 {
      HasIdSubtree(cs, index, s, id, fuel);
      if fuel > 0 {
        SubsSubtrees(cs, index, cs[s - 1].nextSub, id, fuel - 1);
      }
    }
  }

  // ---- FindByName ----

  /** What `Name` gives for a class's label: the label's string, or "" when the label cannot
      be read. The label store's `find` asserts that the id is not 0, so a class with label 0
      panics. */
  function NameOf(names: Labels.Names, labelId: u16): Outcome<Bytes> {
    if labelId == 0 then Panicked
    else match names(labelId)
      case Some(v) => Done(v)
      case None => Done([])
  }

  /** `FindByName`: the first class whose name is the one asked for, nothing if none is. */
  function ByName(cs: seq<Class>, names: Labels.Names, name: Bytes): (r: Outcome<Option<Class>>)
    ensures r == Done(None) <==> forall j :: 0 <= j < |cs| ==> NameOf(names, cs[j].labelId).Done? && NameOf(names, cs[j].labelId).value != name
    ensures r.Done? && r.value.Some? ==>
      exists k :: 0 <= k < |cs| && cs[k] == r.value.value && NameOf(names, cs[k].labelId) == Done(name) &&
        (forall j :: 0 <= j < k ==> NameOf(names, cs[j].labelId).Done? && NameOf(names, cs[j].labelId).value != name)
    ensures r.Panicked? ==> exists k :: 0 <= k < |cs| && cs[k].labelId == 0
  {
    if |cs| == 0 then Done(None)
    else match NameOf(names, cs[0].labelId)
      case Panicked => Panicked
      case Done(v) =>
        if v == name then Done(Some(cs[0]))
        else
          var r := ByName(cs[1..], names, name);
          assert forall j :: 1 <= j < |cs| ==> cs[j] == cs[1..][j - 1];
          r
  }

  // ---- write and readClasses ----

  /** The file after `write` puts record i at byte i * stride, one record after another. */
  function LaidOut(cs: seq<Class>, stride: nat): Bytes {
    if |cs| == 0 then []
    else WriteAt(LaidOut(cs[..|cs| - 1], stride), Data(cs[|cs| - 1]), (|cs| - 1) * stride)
  }

  /** The records one after another. */
  function Flat(cs: seq<Class>): (r: Bytes)
    ensures |r| == ClassDataSize * |cs|
  {
    if |cs| == 0 then [] else Flat(cs[..|cs| - 1]) + Data(cs[|cs| - 1])
  }

  /** With the 9-byte stride the records neither overlap nor leave gaps. */
  lemma {:induction false} LaidOutFlat(cs: seq<Class>)
    ensures LaidOut(cs, ClassDataSize) == Flat(cs)
  {
    if |cs| > 0 {
      LaidOutFlat(cs[..|cs| - 1]);
      WriteAtEnd(Flat(cs[..|cs| - 1]), Data(cs[|cs| - 1]));
    }
  }

  /** Record k of the flat file is the k-th class's data. */
  lemma {:induction false} FlatRecord(cs: seq<Class>, k: nat)
    requires k < |cs|
    ensures Flat(cs)[ClassDataSize * k..ClassDataSize * k + ClassDataSize] == Data(cs[k])
  {
    var init := cs[..|cs| - 1];
    if k < |cs| - 1 {
      FlatRecord(init, k);
      assert init[k] == cs[k];
    }
  }

  /** `ReadAt` into the 9-byte buffer at `off`: the bytes the file still has replace the front
      of the buffer; past the end of the file the buffer keeps what the previous read left. */
  function Refill(buf: Bytes, file: Bytes, off: nat): (r: Bytes)
    requires |buf| == ClassDataSize && off < |file|
    ensures |r| == ClassDataSize
  {
    var n := if off + ClassDataSize <= |file| then ClassDataSize else |file| - off;
    file[off..off + n] + buf[n..]
  }

  /** The class decoded from the buffer read at `off`, under the id `uint8(off / 9 + 1)`. */
  function RecordAt(buf: Bytes, off: nat): Class
    requires |buf| == ClassDataSize
  {
    ConstructClass(((off / ClassDataSize + 1) % 256) as u8, buf).value
  }

  /** The corrected `readClasses` from byte `off` on, with the buffer as the last read left it:
      one class for every 9 bytes started, the last one completed by stale buffer bytes when the
      file ends inside it. */
  function Loaded(file: Bytes, off: nat, buf: Bytes): (r: seq<Class>)
    requires |buf| == ClassDataSize
    decreases |file| - off
  {
    if off >= |file| then []
    else
      var b := Refill(buf, file, off);
      [RecordAt(b, off)] + Loaded(file, off + ClassDataSize, b)
  }

  /** One class for every 9 bytes started. */
  lemma {:induction false} LoadedLength(file: Bytes, off: nat, buf: Bytes)
    requires |buf| == ClassDataSize
    ensures |Loaded(file, off, buf)| == if off >= |file| then 0 else (|file| - off + ClassDataSize - 1) / ClassDataSize
    decreases |file| - off
  {
    if off < |file| {
      LoadedLength(file, off + ClassDataSize, Refill(buf, file, off));
    }
  }

  /** The buffer read at record k of the flat file is the k-th class's data. */
  lemma {:induction false} FlatRead(cs: seq<Class>, k: nat, buf: Bytes)
    requires k < |cs| && |buf| == ClassDataSize
    ensures Refill(buf, Flat(cs), ClassDataSize * k) == Data(cs[k])
  {
    var off := ClassDataSize * k;
    assert off + ClassDataSize <= ClassDataSize * |cs|;
    FlatRecord(cs, k);
    assert buf[ClassDataSize..] == [];
  }

  /** The record read at byte 9 * k decodes under the id k + 1. */
  lemma {:induction false} RecordAtData(c: Class, k: nat)
    requires c.Id as int == k + 1
    ensures RecordAt(Data(c), ClassDataSize * k) == c
  {
    assert ClassDataSize * k / ClassDataSize == k;
    ConstructData(c);
  }

  /** Reading back a store's records from record k on gives its classes from k on. */
  lemma {:induction false} LoadedFlat(cs: seq<Class>, k: nat, buf: Bytes)
    requires ClassesOk(cs) && k <= |cs| && |buf| == ClassDataSize
    ensures Loaded(Flat(cs), ClassDataSize * k, buf) == cs[k..]
    decreases |cs| - k
  {
    if k < |cs| {
      FlatRead(cs, k, buf);
      RecordAtData(cs[k], k);
      LoadedFlat(cs, k + 1, Data(cs[k]));
      assert cs[k..] == [cs[k]] + cs[k + 1..];
    }
  }

  /** `write` at the corrected 9-byte stride followed by `readClasses` gives the classes back. */
  lemma {:induction false} WriteReadRoundTrip(cs: seq<Class>)
    requires ClassesOk(cs)
    ensures Loaded(LaidOut(cs, ClassDataSize), 0, Zeros(ClassDataSize)) == cs
  {
    LaidOutFlat(cs);
    LoadedFlat(cs, 0, Zeros(ClassDataSize));
  }

  /** `write` as written steps 8 bytes per record, so each record's last byte (`nextSub`) is
      overwritten by the next record's first count byte: a class whose next sibling is class 2,
      followed by class 2 with no vertices, reads back with no next sibling. */
  lemma {:induction false} WriteAsWrittenOverlaps()
    ensures var c1 := Class(1, 0, 1, 0, 0, 2);
      var c2 := Class(2, 0, 2, 0, 0, 0);
      var file := LaidOut([c1, c2], 8);
      |file| == 17 && file[8] == 0 && Loaded(file, 0, Zeros(ClassDataSize))[0].nextSub == 0
  {
    var c1 := Class(1, 0, 1, 0, 0, 2);
    var c2 := Class(2, 0, 2, 0, 0, 0);
    assert [c1, c2][..1] == [c1];
    assert [c1][..0] == [];
    var f1 := LaidOut([c1], 8);
    WriteAtEnd([], Data(c1));
    assert LaidOut([c1][..0], 8) == [];
    assert f1 == WriteAt([], Data(c1), 0);
    var file := LaidOut([c1, c2], 8);
    assert file == WriteAt(f1, Data(c2), 8);
    assert file[8] == Data(c2)[0] == 0;
    var b := Refill(Zeros(ClassDataSize), file, 0);
    assert b == file[0..9];
    assert RecordAt(b, 0).nextSub == b[8];
  }

  /** `readClasses` as written starts from `size / 9` nil slots and appends after them, so the
      one with id 1 is not at slot 0. (Here with the corrected decoder; with the decoder as
      written, `ReadClassesAsWritten` fails on any non-empty file.) */
  function Prefilled(file: Bytes): seq<Option<Class>> {
    var loaded := Loaded(file, 0, Zeros(ClassDataSize));
    seq(|file| / ClassDataSize, _ => None) + seq(|loaded|, i requires 0 <= i < |loaded| => Some(loaded[i]))
  }

  /** A store with one class reads back, as written, as a nil slot followed by that class, so
      `Find(1)` gives nil where the corrected reader finds the class. */
  lemma {:induction false} PrefillHidesFirstClass(c: Class)
    requires ClassesOk([c])
    ensures Prefilled(Flat([c])) == [None, Some(c)]
    ensures Loaded(Flat([c]), 0, Zeros(ClassDataSize)) == [c]
  {
    LoadedFlat([c], 0, Zeros(ClassDataSize));
  }

  class ClassStore {
    var file: Bytes
    var classes: seq<Class>

    ghost predicate Valid()
      reads this
    {
      ClassesOk(classes)
    }

    /** The corrected `constructClassStore`: the classes read from the file. A file that
        `Write` produced from well-formed classes opens as those classes, and the store is
        then ready for `Find`, `AddClass` and the rest. */
    constructor Open(file: Bytes)
      ensures this.file == file && classes == Loaded(file, 0, Zeros(ClassDataSize))
      ensures forall cs :: ClassesOk(cs) && file == LaidOut(cs, ClassDataSize) ==> classes == cs && Valid()
    {
      this.file := file;
      classes := [];
      new;
      classes := ReadClasses();
      forall cs | ClassesOk(cs) && file == LaidOut(cs, ClassDataSize)
        ensures classes == cs
      {
        WriteReadRoundTrip(cs);
      }
    }

    /** `Find`: nothing for 0, else the class with that id. */
    method Find(id: u8) returns (r: Option<Class>)
      requires Valid() && id as int <= |classes|
      ensures r == Lookup(classes, id)
      ensures r.None? <==> id == 0
      ensures r.Some? ==> r.value.Id == id && r.value in classes
    {
      if id == 0 {
        return None;
      }
      r := Some(classes[id - 1]);
    }

    /** `Super`: the parent class, nothing for a root class. */
    method Super(c: Class) returns (r: Option<Class>)
      requires Valid() && c in classes
      ensures r.None? <==> c.super == 0
      ensures r.Some? ==> r.value.Id == c.super && r.value in classes
    {
      r := Find(c.super);
    }

    /** `Sub`: the first child, nothing for a class without children. */
    method Sub(c: Class) returns (r: Option<Class>)
      requires Valid() && c in classes
      ensures r.None? <==> c.sub == 0
      ensures r.Some? ==> r.value.Id == c.sub && r.value in classes
    {
      r := Find(c.sub);
    }

    /** `NextSub`: the next sibling, nothing for the last child. */
    method NextSub(c: Class) returns (r: Option<Class>)
      requires Valid() && c in classes
      ensures r.None? <==> c.nextSub == 0
      ensures r.Some? ==> r.value.Id == c.nextSub && r.value in classes
    {
      r := Find(c.nextSub);
    }

    /** `nextId`: the first class with label 0 gives its id; else the id after the last. */
    method NextId() returns (id: u8)
      ensures id == NextIdOf(classes)
      ensures FirstFree(classes).None? ==> id as int == (|classes| + 1) % 256
    {
      var i := 0;
      while i < |classes|
        invariant 0 <= i <= |classes|
        invariant forall j :: 0 <= j < i ==> classes[j].labelId != 0
      {
        if classes[i].labelId == 0 {
          assert FirstFree(classes) == Some(i);
          return classes[i].Id;
        }
        i := i + 1;
      }
      id := ((|classes| % 256) + 1) % 256;
    }

    /** `AddClass`: the class gets the next id and the label `addLabel` made for its name, is
        put first among its super class's children, and is appended or fills its slot. */
    method AddClass(labelId: u16, superId: u8) returns (id: u8)
      requires Valid() && superId as int <= |classes| && NextIdOf(classes) != 0
      modifies this`classes
      ensures id == NextIdOf(old(classes))
      ensures classes == Added(old(classes), id, labelId, superId)
      ensures Valid()
    {
      AddedOk(classes, labelId, superId);
      id := NextId();
      var sup := Find(superId);
      var made := CreateClass(id, labelId, sup);
      if sup.Some? {
        classes := classes[superId - 1 := made.1.value];
      }
      if id as int > |classes| {
        classes := classes + [made.0];
      } else {
        classes := classes[id - 1 := made.0];
      }
    }

    /** `FindByName`: the classes in slot order, the first whose name matches. */
    method FindByName(names: Labels.Names, name: Bytes) returns (r: Outcome<Option<Class>>)
      ensures r == ByName(classes, names, name)
    {
      var i := 0;
      while i < |classes|
        invariant 0 <= i <= |classes|
        invariant ByName(classes, names, name) == ByName(classes[i..], names, name)
      {
        assert classes[i..][1..] == classes[i + 1..];
        match NameOf(names, classes[i].labelId)
        case Panicked =>
          return Panicked;
        case Done(v) =>
          if v == name {
            return Done(Some(classes[i]));
          }
        i := i + 1;
      }
      r := Done(None);
    }

    /** `hasId` on a class of the store, its recursion bounded by `fuel`. */
    method HasId(x: u8, id: u32, index: u8 -> set<u32>, fuel: nat) returns (r: bool)
      requires Valid() && 1 <= x as int <= |classes|
      ensures r == HasIdIn(classes, index, x, id, fuel)
      decreases fuel
    {
      if fuel == 0 {
        return false;
      }
      if id in index(x) {
        return true;
      }
      var sub := classes[x - 1].sub;
      var f: nat := fuel - 1;
      while sub != 0
        invariant sub as int <= |classes| && f < fuel
        invariant SubsHaveId(classes, index, classes[x - 1].sub, id, fuel - 1) == SubsHaveId(classes, index, sub, id, f)
        decreases f
      {
        var found := HasId(sub, id, index, f);
        if found {
          return true;
        }
        if f == 0 {
          return false;
        }
        sub := classes[sub - 1].nextSub;
        f := f - 1;
      }
      r := false;
    }

    /** The corrected `write`: the file is truncated and record i is written at i * 9. The
        indexes of the classes are written by `ClassIdIndex.Write`. */
    method Write()
      requires Valid()
      modifies this`file
      ensures file == LaidOut(classes, ClassDataSize) && file == Flat(classes)
      ensures Loaded(file, 0, Zeros(ClassDataSize)) == classes
    {
      file := [];
      for i := 0 to |classes|
        invariant file == LaidOut(classes[..i], ClassDataSize)
      {
        assert classes[..i + 1][..i] == classes[..i];
        file := WriteAt(file, Data(classes[i]), i * ClassDataSize);
      }
      assert classes[..|classes|] == classes;
      WriteReadRoundTrip(classes);
      LaidOutFlat(classes);
    }

    /** `write` as written: record i at i * 8, each overlapping the next one's first byte. */
    method WriteAsWritten()
      modifies this`file
      ensures file == LaidOut(classes, 8)
    {
      file := [];
      for i := 0 to |classes|
        invariant file == LaidOut(classes[..i], 8)
      {
        assert classes[..i + 1][..i] == classes[..i];
        file := WriteAt(file, Data(classes[i]), i * 8);
      }
      assert classes[..|classes|] == classes;
    }

    /** The corrected `readClasses`: a 9-byte record at a time, each decoded under the id its
        position gives. */
    method ReadClasses() returns (r: seq<Class>)
      ensures r == Loaded(file, 0, Zeros(ClassDataSize))
      ensures |r| == (|file| + ClassDataSize - 1) / ClassDataSize
    {
      var buf := Zeros(ClassDataSize);
      var off := 0;
      r := [];
      while off < |file|
        invariant |buf| == ClassDataSize
        invariant Loaded(file, 0, Zeros(ClassDataSize)) == r + Loaded(file, off, buf)
        decreases |file| - off
      {
        buf := Refill(buf, file, off);
        r := r + [RecordAt(buf, off)];
        off := off + ClassDataSize;
      }
      LoadedLength(file, 0, Zeros(ClassDataSize));
    }

    /** `readClasses` as written: `size / 9` nil slots first, then every 9-byte buffer goes
        to `constructClass`, which refuses it, so any non-empty file is an error (None). */
    method ReadClassesAsWritten() returns (r: Option<seq<Option<Class>>>)
      ensures |file| == 0 ==> r == Some([])
      ensures |file| > 0 ==> r == None
    {
      var buf := Zeros(ClassDataSize);
      var off := 0;
      var acc: seq<Option<Class>> := seq(|file| / ClassDataSize, _ => None);
      // The loop never gets past its first record.
      if off < |file| {
        buf := Refill(buf, file, off);
        match ConstructClassAsWritten(((off / ClassDataSize + 1) % 256) as u8, buf)
        case Panicked =>
          assert false;
        case Done(None) =>
          return None;
        case Done(Some(c)) =>
          assert false;
      }
      assert acc == [];
      r := Some(acc);
    }
  }
}
