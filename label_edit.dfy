// What `addNode` and `removeNode` of data/label.go keep: insertion and removal leave an AVL
// tree over the expected ids and strings, and every node they change is put into `writes`.

module LabelEdits {
  import opened Conversion
  import opened Labels
  import opened LabelTrees

  // ---- addNode ----

  /** `addNode` of a fresh label (links and height 0) whose string is not yet in the tree: the
      result is an AVL tree holding one more id and one more string, at most one level taller,
      and every label it holds is unchanged or marked (the new one is written by the caller). */
  lemma {:induction false} AddNodeAvl(t: Tree, n: Label, text: u64 -> Bytes)
    requires Avl(t, text) && n.Id != 0 && n.Id !in Ids(t) && text(n.value) !in Keys(t, text)
    requires n.l == 0 && n.r == 0 && n.h == 0
    requires ActualHeight(t) < 125
    ensures var (r, m) := AddNode(t, n, text);
      && Avl(r, text) && Ids(r) == Ids(t) + {n.Id} && Keys(r, text) == Keys(t, text) + {text(n.value)}
      && ActualHeight(t) <= ActualHeight(r) <= ActualHeight(t) + 1
      && Recorded(t, r, m + {n.Id})
    decreases t
  {
    if t.Nil? {
      assert Records(AddNode(t, n, text).0) == {n};
    } else if Less(text(n.value), text(t.lab.value)) {
      assert Avl(t.left, text) && n.Id !in Ids(t.left) && text(n.value) !in Keys(t.left, text);
      AddNodeAvl(t.left, n, text);
      var (sub, m1) := AddNode(t.left, n, text);
      AddLeftStep(t, n, text, sub, m1);
    } else {
      assert Avl(t.right, text) && n.Id !in Ids(t.right) && text(n.value) !in Keys(t.right, text);
      AddNodeAvl(t.right, n, text);
      var (sub, m1) := AddNode(t.right, n, text);
      AddRightStep(t, n, text, sub, m1);
    }
  }

  /** One level of `addNode` going left, given what the recursive call promises. */
  lemma {:induction false} AddLeftStep(t: Tree, n: Label, text: u64 -> Bytes, sub: Tree, m1: set<u16>)
    requires t.Node? && Avl(t, text) && n.Id !in Ids(t) && Less(text(n.value), text(t.lab.value))
    requires Avl(sub, text) && Ids(sub) == Ids(t.left) + {n.Id}
    requires Keys(sub, text) == Keys(t.left, text) + {text(n.value)}
    requires ActualHeight(t.left) <= ActualHeight(sub) <= ActualHeight(t.left) + 1
    requires Recorded(t.left, sub, m1 + {n.Id})
    requires ActualHeight(t) < 125
    ensures var c := t.lab;
      var m2 := if RootId(sub) != c.l then {c.Id} else {};
      var (t1, changed) := SetHeight(Node(sub, c.(l := RootId(sub)), t.right));
      var m3 := if changed then {c.Id} else {};
      var (top, m4) := Balance(t1);
      && Avl(top, text) && Ids(top) == Ids(t) + {n.Id} && Keys(top, text) == Keys(t, text) + {text(n.value)}
      && ActualHeight(t) <= ActualHeight(top) <= ActualHeight(t) + 1
      && Recorded(t, top, m1 + m2 + m3 + m4 + {n.Id})
  {
    var c := t.lab;
    var t0 := Node(sub, c.(l := RootId(sub)), t.right);
    AddLeftLink(t, n, text, sub, m1);
    SetAndBalance(t0, text);
  }

  /** Linking the grown left subtree into the node, before `setHeight` and `balance`. */
  lemma {:induction false} AddLeftLink(t: Tree, n: Label, text: u64 -> Bytes, sub: Tree, m1: set<u16>)
    requires t.Node? && Avl(t, text) && n.Id !in Ids(t) && Less(text(n.value), text(t.lab.value))
    requires Avl(sub, text) && Ids(sub) == Ids(t.left) + {n.Id}
    requires Keys(sub, text) == Keys(t.left, text) + {text(n.value)}
    requires ActualHeight(t.left) <= ActualHeight(sub) <= ActualHeight(t.left) + 1
    requires Recorded(t.left, sub, m1 + {n.Id})
    requires ActualHeight(t) < 125
    ensures var t0 := Node(sub, t.lab.(l := RootId(sub)), t.right);
      && ReadyToBalance(t0, text)
      && Ids(t0) == Ids(t) + {n.Id} && Keys(t0, text) == Keys(t, text) + {text(n.value)}
      && Recorded(t, t0, m1 + {n.Id} + if RootId(sub) != t.lab.l then {t.lab.Id} else {})
      && ActualHeight(t) <= ActualHeight(t0) <= ActualHeight(t) + 1
      && (!(-1 <= ActualHeight(t0.right) - ActualHeight(t0.left) <= 1) ==> ActualHeight(t0) == ActualHeight(t) + 1)
  {
    var c := t.lab;
    assert Shape(t, text) && Avl(t.right, text) && Balanced(t);
    assert forall k :: k in Keys(sub, text) ==> Less(k, text(c.value));
    NewLeft(t, sub, m1 + {n.Id}, text);
    NodeSets(t, text);
    GrownHeights(ActualHeight(t.left), ActualHeight(sub), ActualHeight(t.right));
    SameSets(Ids(t.left), Ids(t.right), Ids(sub), c.Id, n.Id, true);
    SameSets(Keys(t.left, text), Keys(t.right, text), Keys(sub, text), text(c.value), text(n.value), true);
  }

  /** One level of `addNode` going right, given what the recursive call promises. */
  lemma {:induction false} AddRightStep(t: Tree, n: Label, text: u64 -> Bytes, sub: Tree, m1: set<u16>)
    requires t.Node? && Avl(t, text) && n.Id !in Ids(t) && !Less(text(n.value), text(t.lab.value))
    requires text(n.value) != text(t.lab.value)
    requires Avl(sub, text) && Ids(sub) == Ids(t.right) + {n.Id}
    requires Keys(sub, text) == Keys(t.right, text) + {text(n.value)}
    requires ActualHeight(t.right) <= ActualHeight(sub) <= ActualHeight(t.right) + 1
    requires Recorded(t.right, sub, m1 + {n.Id})
    requires ActualHeight(t) < 125
    ensures var c := t.lab;
      var m2 := if RootId(sub) != c.r then {c.Id} else {};
      var (t1, changed) := SetHeight(Node(t.left, c.(r := RootId(sub)), sub));
      var m3 := if changed then {c.Id} else {};
      var (top, m4) := Balance(t1);
      && Avl(top, text) && Ids(top) == Ids(t) + {n.Id} && Keys(top, text) == Keys(t, text) + {text(n.value)}
      && ActualHeight(t) <= ActualHeight(top) <= ActualHeight(t) + 1
      && Recorded(t, top, m1 + m2 + m3 + m4 + {n.Id})
  {
    var c := t.lab;
    var t0 := Node(t.left, c.(r := RootId(sub)), sub);
    AddRightLink(t, n, text, sub, m1);
    SetAndBalance(t0, text);
  }

  /** Linking the grown right subtree into the node, before `setHeight` and `balance`. */
  lemma {:induction false} AddRightLink(t: Tree, n: Label, text: u64 -> Bytes, sub: Tree, m1: set<u16>)
    requires t.Node? && Avl(t, text) && n.Id !in Ids(t) && !Less(text(n.value), text(t.lab.value))
    requires text(n.value) != text(t.lab.value)
    requires Avl(sub, text) && Ids(sub) == Ids(t.right) + {n.Id}
    requires Keys(sub, text) == Keys(t.right, text) + {text(n.value)}
    requires ActualHeight(t.right) <= ActualHeight(sub) <= ActualHeight(t.right) + 1
    requires Recorded(t.right, sub, m1 + {n.Id})
    requires ActualHeight(t) < 125
    ensures var t0 := Node(t.left, t.lab.(r := RootId(sub)), sub);
      && ReadyToBalance(t0, text)
      && Ids(t0) == Ids(t) + {n.Id} && Keys(t0, text) == Keys(t, text) + {text(n.value)}
      && Recorded(t, t0, m1 + {n.Id} + if RootId(sub) != t.lab.r then {t.lab.Id} else {})
      && ActualHeight(t) <= ActualHeight(t0) <= ActualHeight(t) + 1
      && (!(-1 <= ActualHeight(t0.right) - ActualHeight(t0.left) <= 1) ==> ActualHeight(t0) == ActualHeight(t) + 1)
  {
    var c := t.lab;
    LessTotal(text(n.value), text(c.value));
    assert Shape(t, text) && Avl(t.left, text) && Balanced(t);
    assert forall k :: k in Keys(sub, text) ==> Less(text(c.value), k);
    NewRight(t, sub, m1 + {n.Id}, text);
    NodeSets(t, text);
    GrownHeights(ActualHeight(t.right), ActualHeight(sub), ActualHeight(t.left));
    SameSets(Ids(t.left), Ids(t.right), Ids(sub), c.Id, n.Id, false);
    SameSets(Keys(t.left, text), Keys(t.right, text), Keys(sub, text), text(c.value), text(n.value), false);
  }

  /** A one-byte string per value, for the concrete trees below. */
  function OneByte(v: u64): (r: Bytes)
    ensures |r| == 1 && r[0] == v % 256
  {
    [v % 256]
  }

  /** `addNode` as written loses a height change: inserting "\x04" into the AVL tree
      "\x02"("\x01", "\x03") gives `ExampleAfter` with only "\x03" marked (`ExampleInsert`); the
      root's height went from 1 to 2, yet the root is neither marked nor a label of the old tree,
      so the stored root keeps height 1. (`AddNodeAvl` shows `AddNode` marks it.) */
  lemma {:induction false} AddNodeAsWrittenLosesHeight()
    ensures Avl(ExampleTree, OneByte) && ExampleNew.Id !in Ids(ExampleTree)
    ensures OneByte(ExampleNew.value) !in Keys(ExampleTree, OneByte)
    ensures !Recorded(ExampleTree, ExampleAfter, {3} + {ExampleNew.Id})
  {
    ExampleTreeAvl();
    var b := ExampleTree.lab.(h := 2);
    assert b == ExampleAfter.lab && b !in Records(ExampleTree);
    Unrecorded(ExampleTree, ExampleAfter, {3} + {ExampleNew.Id}, b);
  }

  /** A changed label whose id is not marked breaks `Recorded`. */
  lemma {:induction false} Unrecorded(before: Tree, after: Tree, marked: set<u16>, lab: Label)
    requires lab in Records(after) && lab !in Records(before) && lab.Id !in marked
    ensures !Recorded(before, after, marked)
  {
  }

  /** The tree "\x02"("\x01", "\x03") of the example, with ids 1, 2, 3. */
  const ExampleTree: Tree :=
    Node(Node(Nil, Label(1, 1, 1, 0, 0, 0), Nil), Label(2, 2, 1, 1, 3, 1), Node(Nil, Label(3, 3, 1, 0, 0, 0), Nil))

  /** A fresh label for "\x04", id 4. */
  const ExampleNew: Label := Label(4, 4, 1, 0, 0, 0)

  /** The example tree after inserting "\x04": the root's height is 2, "\x03" links to it. */
  const ExampleAfter: Tree :=
    Node(Node(Nil, Label(1, 1, 1, 0, 0, 0), Nil), Label(2, 2, 1, 1, 3, 2),
         Node(Nil, Label(3, 3, 1, 0, 4, 1), Node(Nil, Label(4, 4, 1, 0, 0, 0), Nil)))

  lemma {:induction false} ExampleTreeAvl()
    ensures Avl(ExampleTree, OneByte) && ExampleNew.Id !in Ids(ExampleTree)
    ensures OneByte(ExampleNew.value) !in Keys(ExampleTree, OneByte)
  {
    var t := ExampleTree;
    assert OneByte(1) == [1] && OneByte(2) == [2] && OneByte(3) == [3] && OneByte(4) == [4];
    assert Keys(t.left, OneByte) == {[1]} && Keys(t.right, OneByte) == {[3]};
    assert Less([1], [2]) && Less([2], [3]);
    assert Ordered(t, OneByte);
  }

  /** What `addNode` as written returns on the example: the new tree, with only "\x03" marked. */
  lemma {:induction false} ExampleInsert()
    ensures AddNodeAsWritten(ExampleTree, ExampleNew, OneByte) == (ExampleAfter, {3})
  {
    var t, n := ExampleTree, ExampleNew;
    var a, b := t.left.lab, t.lab;
    var c1 := ExampleAfter.right;
    ExampleInsertUnderLeaf();
    assert OneByte(4) == [4] && OneByte(2) == [2] && !Less([4], [2]);
    var r := ExampleAfter;
    assert SetHeight(Node(Node(Nil, a, Nil), b, c1)) == (r, true);
    assert !SetHeight(r).1 && CurrentBalance(r) == 1;
    BalanceIdle(r);
  }

  /** The inner step of the example: "\x04" under the leaf "\x03". */
  lemma {:induction false} ExampleInsertUnderLeaf()
    ensures AddNodeWith(ExampleTree.right, ExampleNew, OneByte, false) == (ExampleAfter.right, {3})
  {
    var c, n := ExampleTree.right.lab, ExampleNew;
    var d := Node(Nil, n, Nil);
    var c1 := ExampleAfter.right;
    assert AddNodeWith(Nil, n, OneByte, false) == (d, {});
    assert OneByte(4) == [4] && OneByte(3) == [3] && !Less([4], [3]);
    assert SetHeight(Node(Nil, c.(r := 4), d)) == (c1, true);
    assert !SetHeight(c1).1 && CurrentBalance(c1) == 1;
    BalanceIdle(c1);
  }

  /** Heights when one child of a balanced node, of height `h`, grows to `g` (by at most one)
      and the other has height `o`: the node grows by at most one, its balance stays within 2,
      and when it leaves [-1, 1] the node grew by exactly one. */
  lemma {:induction false} GrownHeights(h: int, g: int, o: int)
    requires -1 <= h && -1 <= o && -1 <= o - h <= 1 && h <= g <= h + 1
    ensures 1 + Max(h, o) <= 1 + Max(g, o) <= 2 + Max(h, o)
    ensures -2 <= o - g <= 2
    ensures !(-1 <= o - g <= 1) ==> 1 + Max(g, o) == 2 + Max(h, o)
  {
  }

  /** The set bookkeeping of one insertion step: the grown child `s` is the old one plus `x`. */
  lemma {:induction false} SameSets<T>(l: set<T>, r: set<T>, s: set<T>, c: T, x: T, left: bool)
    requires s == (if left then l else r) + {x}
    ensures left ==> s + {c} + r == l + {c} + r + {x}
    ensures !left ==> l + {c} + s == l + {c} + r + {x}
  {
  }

  lemma {:induction false} NodeSets(t: Tree, text: u64 -> Bytes)
    requires t.Node?
    ensures Ids(t) == Ids(t.left) + {t.lab.Id} + Ids(t.right)
    ensures Keys(t, text) == Keys(t.left, text) + {text(t.lab.value)} + Keys(t.right, text)
  {
  }

  // ---- relinking a child, then setHeight and balance ----

  /** Linking a new left subtree into a node: the shape holds when the new subtree's ids are
      new to the rest of the node and its strings are smaller; the node is marked when its link
      changes. */
  lemma {:induction false} NewLeft(t: Tree, sub: Tree, m: set<u16>, text: u64 -> Bytes)
    requires t.Node? && Shape(t, text) && Shape(sub, text)
    requires t.lab.Id !in Ids(sub) && Ids(sub) !! Ids(t.right)
    requires forall k :: k in Keys(sub, text) ==> Less(k, text(t.lab.value))
    requires Recorded(t.left, sub, m)
    ensures var t0 := Node(sub, t.lab.(l := RootId(sub)), t.right);
      && Shape(t0, text) && Ids(t0) == Ids(sub) + {t.lab.Id} + Ids(t.right)
      && Keys(t0, text) == Keys(sub, text) + {text(t.lab.value)} + Keys(t.right, text)
      && Recorded(t, t0, m + if RootId(sub) != t.lab.l then {t.lab.Id} else {})
  {
    var t0 := Node(sub, t.lab.(l := RootId(sub)), t.right);
    assert Records(t0) == Records(sub) + {t0.lab} + Records(t.right);
    assert Records(t) == Records(t.left) + {t.lab} + Records(t.right);
  }

  /** Linking a new right subtree into a node: the mirror image of `NewLeft`. */
  lemma {:induction false} NewRight(t: Tree, sub: Tree, m: set<u16>, text: u64 -> Bytes)
    requires t.Node? && Shape(t, text) && Shape(sub, text)
    requires t.lab.Id !in Ids(sub) && Ids(sub) !! Ids(t.left)
    requires forall k :: k in Keys(sub, text) ==> Less(text(t.lab.value), k)
    requires Recorded(t.right, sub, m)
    ensures var t0 := Node(t.left, t.lab.(r := RootId(sub)), sub);
      && Shape(t0, text) && Ids(t0) == Ids(t.left) + {t.lab.Id} + Ids(sub)
      && Keys(t0, text) == Keys(t.left, text) + {text(t.lab.value)} + Keys(sub, text)
      && Recorded(t, t0, m + if RootId(sub) != t.lab.r then {t.lab.Id} else {})
  {
    var t0 := Node(t.left, t.lab.(r := RootId(sub)), sub);
    assert Records(t0) == Records(t.left) + {t0.lab} + Records(sub);
    assert Records(t) == Records(t.left) + {t.lab} + Records(t.right);
  }

  /** A relinked node that `setHeight` and `balance` can repair: its subtrees are AVL trees
      whose heights differ by at most 2. */
  ghost predicate ReadyToBalance(t0: Tree, text: u64 -> Bytes) {
    && t0.Node? && Shape(t0, text) && Avl(t0.left, text) && Avl(t0.right, text)
    && -2 <= ActualHeight(t0.right) - ActualHeight(t0.left) <= 2
    && ActualHeight(t0) < 126
  }

  /** `setHeight` followed by `balance`, as `addNode` does them: the second `setHeight` finds
      nothing to change, and the result is what `BalanceKeeps` promises, with the first height
      change marked. */
  lemma {:induction false} SetAndBalance(t0: Tree, text: u64 -> Bytes)
    requires ReadyToBalance(t0, text)
    ensures var (t1, changed) := SetHeight(t0);
      var (top, m4) := Balance(t1);
      && Avl(top, text) && Ids(top) == Ids(t0) && Keys(top, text) == Keys(t0, text)
      && Recorded(t0, top, (if changed then {t0.lab.Id} else {}) + m4)
      && ActualHeight(t0) - 1 <= ActualHeight(top) <= ActualHeight(t0)
      && (-1 <= ActualHeight(t0.right) - ActualHeight(t0.left) <= 1 ==> ActualHeight(top) == ActualHeight(t0))
  {
    var (t1, changed) := SetHeight(t0);
    SetHeightOk(t0);
    assert Shape(t1, text) && Records(t1) == Records(t0.left) + {t1.lab} + Records(t0.right);
    assert Recorded(t0, t1, if changed then {t0.lab.Id} else {});
    BalanceKeeps(t1, text);
    var (top, m4) := Balance(t1);
    RecordedTrans(t0, t1, top, if changed then {t0.lab.Id} else {}, m4);
  }
}
