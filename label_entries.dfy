// What the tree operations leave alone: apart from the links and heights, a label's fields
// (its id, its string and its reference count) are never changed by `setHeight`, the
// rotations, `balance`, `addNode` or `removeNode`; those functions only move labels around.

module LabelEntries {
  import opened Conversion
  import opened Labels
  import opened LabelTrees
  import opened LabelEdits
  import opened LabelRemovals
  import opened LabelSearches

  /** The part of a label that is not tree structure. */
  datatype Entry = Entry(id: u16, value: u64, refs: u64)

  function EntryOf(lab: Label): Entry {
    Entry(lab.Id, lab.value, lab.refs)
  }

  function Entries(t: Tree): set<Entry>
    decreases t
  {
    if t.Nil? then {} else Entries(t.left) + {EntryOf(t.lab)} + Entries(t.right)
  }

  lemma {:induction false} EntryFacts(t: Tree, e: Entry)
    requires e in Entries(t)
    ensures e.id in Ids(t)
    decreases t
  {
    if e in Entries(t.left) {
      EntryFacts(t.left, e);
    } else if e in Entries(t.right) {
      EntryFacts(t.right, e);
    }
  }

  lemma {:induction false} RecordEntry(t: Tree, lab: Label)
    requires lab in Records(t)
    ensures EntryOf(lab) in Entries(t)
    decreases t
  {
    if lab in Records(t.left) {
      RecordEntry(t.left, lab);
    } else if lab in Records(t.right) {
      RecordEntry(t.right, lab);
    }
  }

  // ---- the rebalancing steps move labels but keep their entries ----

  lemma {:induction false} SetHeightEntries(t: Tree)
    requires t.Node?
    ensures Entries(SetHeight(t).0) == Entries(t)
  {
  }

  lemma {:induction false} RotateRightEntries(t: Tree)
    requires t.Node? && t.left.Node?
    ensures Entries(RotateRight(t).0) == Entries(t)
  {
    var x := t.left;
    var y := Node(x.right, t.lab.(l := x.lab.r), t.right);
    SetHeightEntries(y);
    SetHeightEntries(Node(x.left, x.lab.(r := t.lab.Id), SetHeight(y).0));
  }

  lemma {:induction false} RotateLeftEntries(t: Tree)
    requires t.Node? && t.right.Node?
    ensures Entries(RotateLeft(t).0) == Entries(t)
  {
    var x := t.right;
    var y := Node(t.left, t.lab.(r := x.lab.l), x.left);
    SetHeightEntries(y);
    SetHeightEntries(Node(SetHeight(y).0, x.lab.(l := t.lab.Id), x.right));
  }

  lemma {:induction false} BalanceEntries(t: Tree)
    requires t.Node?
    ensures Entries(Balance(t).0) == Entries(t)
  {
    var t1 := SetHeight(t).0;
    SetHeightEntries(t);
    if CurrentBalance(t1) < -1 && t1.left.Node? {
      if CurrentBalance(t1.left) > 0 && t1.left.right.Node? {
        var sub := RotateLeft(t1.left).0;
        RotateLeftEntries(t1.left);
        RotateRightEntries(Node(sub, t1.lab.(l := RootId(sub)), t1.right));
      } else {
        RotateRightEntries(t1);
      }
    } else if CurrentBalance(t1) > 1 && t1.right.Node? {
      if CurrentBalance(t1.right) < 0 && t1.right.left.Node? {
        var sub := RotateRight(t1.right).0;
        RotateRightEntries(t1.right);
        RotateLeftEntries(Node(t1.left, t1.lab.(r := RootId(sub)), sub));
      } else {
        RotateLeftEntries(t1);
      }
    }
  }

  // ---- addNode and removeNode ----

  /** `addNode` adds the new label's entry and changes no other. */
  lemma {:induction false} AddNodeEntries(t: Tree, n: Label, text: u64 -> Bytes, markHeight: bool)
    ensures Entries(AddNodeWith(t, n, text, markHeight).0) == Entries(t) + {EntryOf(n)}
    decreases t
  {
    if t.Node? {
      var c := t.lab;
      if Less(text(n.value), text(c.value)) {
        AddNodeEntries(t.left, n, text, markHeight);
        var sub := AddNodeWith(t.left, n, text, markHeight).0;
        var t0 := Node(sub, c.(l := RootId(sub)), t.right);
        SetHeightEntries(t0);
        BalanceEntries(SetHeight(t0).0);
      } else {
        AddNodeEntries(t.right, n, text, markHeight);
        var sub := AddNodeWith(t.right, n, text, markHeight).0;
        var t0 := Node(t.left, c.(r := RootId(sub)), sub);
        SetHeightEntries(t0);
        BalanceEntries(SetHeight(t0).0);
      }
    }
  }

  /** In a tree with distinct ids, no entry other than the label's own has its id. */
  lemma {:induction false} EntryUnique(t: Tree, lab: Label, e: Entry)
    requires Distinct(t) && lab in Records(t) && e in Entries(t) && e.id == lab.Id
    ensures e == EntryOf(lab)
    decreases t
  {
    if lab in Records(t.left) {
      RecordFacts(t.left, lab, x => []);
      if e in Entries(t.right) {
        EntryFacts(t.right, e);
      } else if e in Entries(t.left) {
        EntryUnique(t.left, lab, e);
      }
    } else if lab in Records(t.right) {
      RecordFacts(t.right, lab, x => []);
      if e in Entries(t.left) {
        EntryFacts(t.left, e);
      } else if e in Entries(t.right) {
        EntryUnique(t.right, lab, e);
      }
    } else {
      if e in Entries(t.left) {
        EntryFacts(t.left, e);
      } else if e in Entries(t.right) {
        EntryFacts(t.right, e);
      }
    }
  }

  /** `removeNode` of a label of an AVL tree takes exactly that label's entry away. */
  lemma {:induction false} RemoveNodeEntries(t: Tree, rem: Label, text: u64 -> Bytes)
    requires Avl(t, text) && rem in Records(t) && ActualHeight(t) < 126
    ensures Entries(RemoveNode(t, rem, text).0) == Entries(t) - {EntryOf(rem)}
    decreases t
  {
    var c := t.lab;
    assert Shape(t, text) && Avl(t.left, text) && Avl(t.right, text);
    if rem.Id == c.Id {
      RootRecord(t, rem, text);
      RootEntryApart(t);
      if t.left.Node? && t.right.Node? {
        HeightIsActual(t.left);
        HeightIsActual(t.right);
        if Height(t.left) > Height(t.right) {
          var rl := Rightmost(t.left);
          RightmostFacts(t.left, text);
          RemoveNodeEntries(t.left, rl, text);
          EntriesFromLeft(t, rl, RemoveNode(t.left, rl, text).0);
        } else {
          var ll := Leftmost(t.right);
          LeftmostFacts(t.right, text);
          RemoveNodeEntries(t.right, ll, text);
          EntriesFromRight(t, ll, RemoveNode(t.right, ll, text).0);
        }
      }
    } else {
      RecordSide(t, rem, text);
      if Less(text(rem.value), text(c.value)) {
        RemoveNodeEntries(t.left, rem, text);
        EntriesLeftStep(t, rem, RemoveNode(t.left, rem, text).0);
      } else {
        RemoveNodeEntries(t.right, rem, text);
        EntriesRightStep(t, rem, RemoveNode(t.right, rem, text).0);
      }
    }
  }

  lemma {:induction false} EntriesFromLeft(t: Tree, rl: Label, sub: Tree)
    requires t.Node? && Distinct(t) && rl in Records(t.left)
    requires Entries(sub) == Entries(t.left) - {EntryOf(rl)}
    ensures Entries(Balance(Node(sub, rl.(l := RootId(sub), r := t.lab.r), t.right)).0) == Entries(t) - {EntryOf(t.lab)}
  {
    RootEntryApart(t);
    RecordEntry(t.left, rl);
    BalanceEntries(Node(sub, rl.(l := RootId(sub), r := t.lab.r), t.right));
  }

  lemma {:induction false} EntriesFromRight(t: Tree, ll: Label, sub: Tree)
    requires t.Node? && Distinct(t) && ll in Records(t.right)
    requires Entries(sub) == Entries(t.right) - {EntryOf(ll)}
    ensures Entries(Balance(Node(t.left, ll.(r := RootId(sub), l := t.lab.l), sub)).0) == Entries(t) - {EntryOf(t.lab)}
  {
    RootEntryApart(t);
    RecordEntry(t.right, ll);
    BalanceEntries(Node(t.left, ll.(r := RootId(sub), l := t.lab.l), sub));
  }

  lemma {:induction false} EntriesLeftStep(t: Tree, rem: Label, sub: Tree)
    requires t.Node? && Distinct(t) && rem in Records(t.left)
    requires Entries(sub) == Entries(t.left) - {EntryOf(rem)}
    ensures Entries(Balance(Node(sub, t.lab.(l := RootId(sub)), t.right)).0) == Entries(t) - {EntryOf(rem)}
  {
    RemovedSide(t, rem, true);
    BalanceEntries(Node(sub, t.lab.(l := RootId(sub)), t.right));
  }

  lemma {:induction false} EntriesRightStep(t: Tree, rem: Label, sub: Tree)
    requires t.Node? && Distinct(t) && rem in Records(t.right)
    requires Entries(sub) == Entries(t.right) - {EntryOf(rem)}
    ensures Entries(Balance(Node(t.left, t.lab.(r := RootId(sub)), sub)).0) == Entries(t) - {EntryOf(rem)}
  {
    RemovedSide(t, rem, false);
    BalanceEntries(Node(t.left, t.lab.(r := RootId(sub)), sub));
  }

  /** The root's entry is in neither subtree. */
  lemma {:induction false} RootEntryApart(t: Tree)
    requires t.Node? && Distinct(t)
    ensures EntryOf(t.lab) !in Entries(t.left) && EntryOf(t.lab) !in Entries(t.right)
  {
    if EntryOf(t.lab) in Entries(t.left) {
      EntryFacts(t.left, EntryOf(t.lab));
    }
    if EntryOf(t.lab) in Entries(t.right) {
      EntryFacts(t.right, EntryOf(t.lab));
    }
  }

  /** A label of one subtree has its entry on that side only. */
  lemma {:induction false} RemovedSide(t: Tree, rem: Label, left: bool)
    requires t.Node? && Distinct(t)
    requires rem in Records(if left then t.left else t.right)
    ensures EntryOf(rem) != EntryOf(t.lab)
    ensures EntryOf(rem) !in Entries(if left then t.right else t.left)
  {
    var x := t.lab;
    if left {
      RecordFacts(t.left, rem, x => []);
      if EntryOf(rem) in Entries(t.right) {
        EntryFacts(t.right, EntryOf(rem));
      }
    } else {
      RecordFacts(t.right, rem, x => []);
      if EntryOf(rem) in Entries(t.left) {
        EntryFacts(t.left, EntryOf(rem));
      }
    }
  }

  // ---- changing a reference count ----

  lemma {:induction false} SetRefsAbsent(t: Tree, id: u16, refs: u64)
    requires id !in Ids(t)
    ensures SetRefs(t, id, refs) == t
    decreases t
  {
    if t.Node? {
      SetRefsAbsent(t.left, id, refs);
      SetRefsAbsent(t.right, id, refs);
    }
  }

  /** Setting a label's count replaces its entry and leaves the others. */
  lemma {:induction false} SetRefsEntries(t: Tree, id: u16, refs: u64)
    requires Distinct(t) && id in Ids(t)
    ensures var e := EntryOf(LabelOf(t, id));
      Entries(SetRefs(t, id, refs)) == Entries(t) - {e} + {e.(refs := refs)}
    decreases t
  {
    var e := EntryOf(LabelOf(t, id));
    var c := t.lab;
    RecordEntry(t, LabelOf(t, id));
    RootEntryApart(t);
    if id in Ids(t.left) {
      SetRefsEntries(t.left, id, refs);
      SetRefsAbsent(t.right, id, refs);
      RemovedSide(t, LabelOf(t.left, id), true);
    } else if id == c.Id {
      SetRefsAbsent(t.left, id, refs);
      SetRefsAbsent(t.right, id, refs);
    } else {
      SetRefsEntries(t.right, id, refs);
      SetRefsAbsent(t.left, id, refs);
      RemovedSide(t, LabelOf(t.right, id), false);
    }
  }
}
