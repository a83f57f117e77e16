// What the label tree operations of data/label.go keep: the AVL invariants (search order by
// string, heights that are the real heights, balance in [-1, 1]), the ids and strings they
// promise, and that every node they change is put into `writes`.

module LabelTrees {
  import opened Conversion
  import opened Labels

  ghost function ActualHeight(t: Tree): (r: int)
    ensures r >= -1
    ensures t.Node? ==> r >= 0
  {
    if t.Nil? then -1 else 1 + Max(ActualHeight(t.left), ActualHeight(t.right))
  }

  /** Every stored height is the real height of its subtree, and fits an int8. */
  ghost predicate HeightsOk(t: Tree) {
    t.Nil? || (HeightsOk(t.left) && HeightsOk(t.right) && t.lab.h == ActualHeight(t) < 128)
  }

  ghost predicate Balanced(t: Tree) {
    t.Nil? || (Balanced(t.left) && Balanced(t.right) && -1 <= ActualHeight(t.right) - ActualHeight(t.left) <= 1)
  }

  /** The stored links name the children. */
  ghost predicate Linked(t: Tree) {
    t.Nil? || (Linked(t.left) && Linked(t.right) && t.lab.l == RootId(t.left) && t.lab.r == RootId(t.right))
  }

  /** Ids are non-zero and no id occurs twice. */
  ghost predicate Distinct(t: Tree) {
    t.Nil? || (
      && Distinct(t.left) && Distinct(t.right) && t.lab.Id != 0
      && t.lab.Id !in Ids(t.left) && t.lab.Id !in Ids(t.right) && Ids(t.left) !! Ids(t.right))
  }

  /** Search order: every string on the left is smaller than the node's, every one on the
      right larger. */
  ghost predicate Ordered(t: Tree, text: u64 -> Bytes) {
    t.Nil? || (
      && Ordered(t.left, text) && Ordered(t.right, text)
      && (forall k :: k in Keys(t.left, text) ==> Less(k, text(t.lab.value)))
      && (forall k :: k in Keys(t.right, text) ==> Less(text(t.lab.value), k)))
  }

  /** The shape invariants that do not involve heights. */
  ghost predicate Shape(t: Tree, text: u64 -> Bytes) {
    Linked(t) && Distinct(t) && Ordered(t, text)
  }

  ghost predicate Avl(t: Tree, text: u64 -> Bytes) {
    Shape(t, text) && HeightsOk(t) && Balanced(t)
  }

  /** Every label of `after` either is one of `before` unchanged or has its id in `marked`:
      nothing changed escapes `writes`. */
  ghost predicate Recorded(before: Tree, after: Tree, marked: set<u16>) {
    forall lab :: lab in Records(after) ==> lab.Id in marked || lab in Records(before)
  }

  lemma {:induction false} HeightIsActual(t: Tree)
    requires HeightsOk(t)
    ensures Height(t) == ActualHeight(t)
  {
  }

  /** On children whose heights are right, `setHeight` stores the node's real height. */
  lemma {:induction false} SetHeightOk(t: Tree)
    requires t.Node? && HeightsOk(t.left) && HeightsOk(t.right) && ActualHeight(t) < 128
    ensures HeightsOk(SetHeight(t).0) && ActualHeight(SetHeight(t).0) == ActualHeight(t)
  {
    HeightIsActual(t.left);
    HeightIsActual(t.right);
    var n := 1 + Max(ActualHeight(t.left), ActualHeight(t.right));
    assert n == ActualHeight(t);
    assert 0 <= n < 128;
    var r := SetHeight(t).0;
    assert r.lab.h == n;
    assert r.left == t.left && r.right == t.right;
    assert ActualHeight(r) == n;
    assert HeightsOk(r);
  }

  lemma {:induction false} RecordedTrans(a: Tree, b: Tree, c: Tree, m1: set<u16>, m2: set<u16>)
    requires Recorded(a, b, m1) && Recorded(b, c, m2)
    ensures Recorded(a, c, m1 + m2)
  {
  }

  // ---- Rotations ----

  /** `rotateRight` keeps the shape and the strings, computes correct heights for the two
      nodes it moves, and marks both. */
  lemma {:induction false} RotateRightKeeps(t: Tree, text: u64 -> Bytes)
    requires t.Node? && t.left.Node? && Shape(t, text)
    requires HeightsOk(t.left.left) && HeightsOk(t.left.right) && HeightsOk(t.right)
    requires Max(ActualHeight(t.left.left), Max(ActualHeight(t.left.right), ActualHeight(t.right))) < 126
    ensures var (r, m) := RotateRight(t);
      && Shape(r, text) && HeightsOk(r) && Keys(r, text) == Keys(t, text) && Recorded(t, r, m)
      && r.left == t.left.left && r.right.Node? && r.right.left == t.left.right && r.right.right == t.right
  {
    RotateRightShape(t, text);
    RotateRightHeights(t);
    RotateRightRecorded(t);
  }

  lemma {:induction false} RotateRightShape(t: Tree, text: u64 -> Bytes)
    requires t.Node? && t.left.Node? && Shape(t, text)
    ensures var r := RotateRight(t).0;
      && Shape(r, text) && Keys(r, text) == Keys(t, text)
      && r.left == t.left.left && r.right.Node? && r.right.left == t.left.right && r.right.right == t.right
  {
    var x, a, b, c := t.left, t.left.left, t.left.right, t.right;
    var r := RotateRight(t).0;
    var y := r.right;
    assert r.left == a && y.left == b && y.right == c;
    assert Linked(x) && Linked(c) && Distinct(x) && Distinct(c);
    assert Ids(x) == Ids(a) + {x.lab.Id} + Ids(b);
    assert Linked(y);
    assert Linked(r);
    assert Ids(y) == Ids(b) + {t.lab.Id} + Ids(c);
    assert Distinct(y);
    assert Distinct(r);
    var kx, ky := text(x.lab.value), text(t.lab.value);
    assert y.lab.value == t.lab.value && r.lab.value == x.lab.value;
    assert Keys(x, text) == Keys(a, text) + {kx} + Keys(b, text);
    assert Keys(y, text) == Keys(b, text) + {ky} + Keys(c, text);
    assert Ordered(x, text) && Ordered(c, text);
    assert forall k :: k in Keys(b, text) ==> Less(k, ky);
    assert Ordered(y, text);
    assert Less(kx, ky);
    forall k | k in Keys(y, text) ensures Less(kx, k) {
      if k in Keys(c, text) {
        LessTransitive(kx, ky, k);
      }
    }
    assert Ordered(r, text);
  }

  lemma {:induction false} RotateRightHeights(t: Tree)
    requires t.Node? && t.left.Node?
    requires HeightsOk(t.left.left) && HeightsOk(t.left.right) && HeightsOk(t.right)
    requires Max(ActualHeight(t.left.left), Max(ActualHeight(t.left.right), ActualHeight(t.right))) < 126
    ensures HeightsOk(RotateRight(t).0)
  {
    var x := t.left;
    SetHeightOk(Node(x.right, t.lab.(l := x.lab.r), t.right));
    var y := SetHeight(Node(x.right, t.lab.(l := x.lab.r), t.right)).0;
    SetHeightOk(Node(x.left, x.lab.(r := t.lab.Id), y));
  }

  lemma {:induction false} RotateRightRecorded(t: Tree)
    requires t.Node? && t.left.Node?
    ensures var (r, m) := RotateRight(t); Recorded(t, r, m)
  {
    var (r, m) := RotateRight(t);
    assert Records(r) == Records(t.left.left) + {r.lab} + Records(t.left.right) + {r.right.lab} + Records(t.right);
  }

  lemma {:induction false} RotateLeftKeeps(t: Tree, text: u64 -> Bytes)
    requires t.Node? && t.right.Node? && Shape(t, text)
    requires HeightsOk(t.left) && HeightsOk(t.right.left) && HeightsOk(t.right.right)
    requires Max(ActualHeight(t.left), Max(ActualHeight(t.right.left), ActualHeight(t.right.right))) < 126
    ensures var (r, m) := RotateLeft(t);
      && Shape(r, text) && HeightsOk(r) && Keys(r, text) == Keys(t, text) && Recorded(t, r, m)
      && r.right == t.right.right && r.left.Node? && r.left.left == t.left && r.left.right == t.right.left
  {
    RotateLeftShape(t, text);
    RotateLeftHeights(t);
    RotateLeftRecorded(t);
  }

  lemma {:induction false} RotateLeftShape(t: Tree, text: u64 -> Bytes)
    requires t.Node? && t.right.Node? && Shape(t, text)
    ensures var r := RotateLeft(t).0;
      && Shape(r, text) && Keys(r, text) == Keys(t, text)
      && r.right == t.right.right && r.left.Node? && r.left.left == t.left && r.left.right == t.right.left
  {
    var x, a, b, c := t.right, t.left, t.right.left, t.right.right;
    var r := RotateLeft(t).0;
    var y := r.left;
    assert r.right == c && y.left == a && y.right == b;
    assert Linked(x) && Linked(a) && Distinct(x) && Distinct(a);
    assert Ids(x) == Ids(b) + {x.lab.Id} + Ids(c);
    assert Linked(y);
    assert Linked(r);
    assert Ids(y) == Ids(a) + {t.lab.Id} + Ids(b);
    assert Distinct(y);
    assert Distinct(r);
    var kx, ky := text(x.lab.value), text(t.lab.value);
    assert y.lab.value == t.lab.value && r.lab.value == x.lab.value;
    assert Keys(x, text) == Keys(b, text) + {kx} + Keys(c, text);
    assert Keys(y, text) == Keys(a, text) + {ky} + Keys(b, text);
    assert Ordered(x, text) && Ordered(a, text);
    assert forall k :: k in Keys(b, text) ==> Less(ky, k);
    assert Ordered(y, text);
    assert Less(ky, kx);
    forall k | k in Keys(y, text) ensures Less(k, kx) {
      if k in Keys(a, text) {
        LessTransitive(k, ky, kx);
      }
    }
    assert Ordered(r, text);
  }

  lemma {:induction false} RotateLeftHeights(t: Tree)
    requires t.Node? && t.right.Node?
    requires HeightsOk(t.left) && HeightsOk(t.right.left) && HeightsOk(t.right.right)
    requires Max(ActualHeight(t.left), Max(ActualHeight(t.right.left), ActualHeight(t.right.right))) < 126
    ensures HeightsOk(RotateLeft(t).0)
  {
    var x := t.right;
    SetHeightOk(Node(t.left, t.lab.(r := x.lab.l), x.left));
    var y := SetHeight(Node(t.left, t.lab.(r := x.lab.l), x.left)).0;
    SetHeightOk(Node(y, x.lab.(l := t.lab.Id), x.right));
  }

  lemma {:induction false} RotateLeftRecorded(t: Tree)
    requires t.Node? && t.right.Node?
    ensures var (r, m) := RotateLeft(t); Recorded(t, r, m)
  {
    var (r, m) := RotateLeft(t);
    assert Records(r) == Records(t.left) + {r.left.lab} + Records(t.right.left) + {r.lab} + Records(t.right.right);
  }


  // ---- balance ----

  /** `balance` on a node whose subtrees are AVL trees whose heights differ by at most 2: the
      result is an AVL tree over the same ids and strings, every node it changes is marked, and
      its height is the node's real height, or one less after a rotation. */
  lemma {:induction false} BalanceKeeps(t: Tree, text: u64 -> Bytes)
    requires t.Node? && Shape(t, text) && Avl(t.left, text) && Avl(t.right, text)
    requires -2 <= ActualHeight(t.right) - ActualHeight(t.left) <= 2
    requires ActualHeight(t) < 126
    ensures var (r, m) := Balance(t);
      && Avl(r, text) && Ids(r) == Ids(t) && Keys(r, text) == Keys(t, text) && Recorded(t, r, m)
      && ActualHeight(t) - 1 <= ActualHeight(r) <= ActualHeight(t)
      && (-1 <= ActualHeight(t.right) - ActualHeight(t.left) <= 1 ==> ActualHeight(r) == ActualHeight(t))
  {
    var (t1, changed) := SetHeight(t);
    var marked := if changed then {t.lab.Id} else {};
    SetHeightOk(t);
    assert Shape(t1, text) && Records(t1) == Records(t.left) + {t1.lab} + Records(t.right);
    assert Recorded(t, t1, marked);
    RebalanceKeeps(t1, text);
    var (top, m) := Rebalance(t1);
    RecordedTrans(t, t1, top, marked, m);
  }

  /** The rotations of `balance`, on a node whose height is set and whose subtrees are AVL
      trees whose heights differ by at most 2. */
  lemma {:induction false} RebalanceKeeps(t: Tree, text: u64 -> Bytes)
    requires t.Node? && Shape(t, text) && HeightsOk(t) && Avl(t.left, text) && Avl(t.right, text)
    requires -2 <= ActualHeight(t.right) - ActualHeight(t.left) <= 2
    requires ActualHeight(t) < 126
    ensures var (r, m) := Rebalance(t);
      && Avl(r, text) && Ids(r) == Ids(t) && Keys(r, text) == Keys(t, text) && Recorded(t, r, m)
      && ActualHeight(t) - 1 <= ActualHeight(r) <= ActualHeight(t)
      && (-1 <= ActualHeight(t.right) - ActualHeight(t.left) <= 1 ==> r == t)
  {
    if ActualHeight(t.left) == ActualHeight(t.right) + 2 {
      LeftHeavy(t, text);
    } else if ActualHeight(t.right) == ActualHeight(t.left) + 2 {
      RightHeavy(t, text);
    } else {
      HeightIsActual(t.left);
      HeightIsActual(t.right);
      assert Balanced(t);
    }
  }

  /** The rotations of `balance` on a left side two levels taller. */
  lemma {:induction false} LeftHeavy(t: Tree, text: u64 -> Bytes)
    requires t.Node? && Shape(t, text) && HeightsOk(t) && Avl(t.left, text) && Avl(t.right, text)
    requires ActualHeight(t.left) == ActualHeight(t.right) + 2 && ActualHeight(t) < 126
    ensures var (r, m) := Rebalance(t);
      && Avl(r, text) && Ids(r) == Ids(t) && Keys(r, text) == Keys(t, text) && Recorded(t, r, m)
      && ActualHeight(t) - 1 <= ActualHeight(r) <= ActualHeight(t)
  {
    HeightIsActual(t.left);
    HeightIsActual(t.right);
    assert CurrentBalance(t) < -1;
    if CurrentBalance(t.left) > 0 && t.left.right.Node? {
      LeftDouble(t, text);
    } else {
      LeftSingle(t, text);
    }
  }

  /** The rotations of `balance` on a right side two levels taller. */
  lemma {:induction false} RightHeavy(t: Tree, text: u64 -> Bytes)
    requires t.Node? && Shape(t, text) && HeightsOk(t) && Avl(t.left, text) && Avl(t.right, text)
    requires ActualHeight(t.right) == ActualHeight(t.left) + 2 && ActualHeight(t) < 126
    ensures var (r, m) := Rebalance(t);
      && Avl(r, text) && Ids(r) == Ids(t) && Keys(r, text) == Keys(t, text) && Recorded(t, r, m)
      && ActualHeight(t) - 1 <= ActualHeight(r) <= ActualHeight(t)
  {
    HeightIsActual(t.left);
    HeightIsActual(t.right);
    assert CurrentBalance(t) > 1;
    if CurrentBalance(t.right) < 0 && t.right.left.Node? {
      RightDouble(t, text);
    } else {
      RightSingle(t, text);
    }
  }

  /** Left side taller at its left: one right rotation. */
  lemma {:induction false} LeftSingle(t: Tree, text: u64 -> Bytes)
    requires t.Node? && Shape(t, text) && HeightsOk(t) && Avl(t.left, text) && Avl(t.right, text)
    requires ActualHeight(t.left) == ActualHeight(t.right) + 2 && ActualHeight(t) < 126
    requires t.left.Node? && !(CurrentBalance(t.left) > 0 && t.left.right.Node?)
    ensures var (top, m2) := RotateRight(t);
      && Avl(top, text) && Ids(top) == Ids(t) && Keys(top, text) == Keys(t, text)
      && Recorded(t, top, {t.lab.Id} + m2)
      && ActualHeight(t) - 1 <= ActualHeight(top) <= ActualHeight(t)
  {
    var x := t.left;
    assert Balanced(x) && HeightsOk(x);
    HeightIsActual(x.left);
    HeightIsActual(x.right);
    RotateRightKeeps(t, text);
    SingleRightHeights(t);
  }

  /** The heights after a single right rotation of a node whose left side is two levels taller
      and not taller at its right. */
  lemma {:induction false} SingleRightHeights(t: Tree)
    requires t.Node? && t.left.Node? && Balanced(t.left) && Balanced(t.right)
    requires ActualHeight(t.left) == ActualHeight(t.right) + 2
    requires ActualHeight(t.left.right) <= ActualHeight(t.left.left)
    ensures Balanced(RotateRight(t).0)
    ensures ActualHeight(t) - 1 <= ActualHeight(RotateRight(t).0) <= ActualHeight(t)
  {
    var top := RotateRight(t).0;
    var a, b, c := t.left.left, t.left.right, t.right;
    assert Balanced(a) && Balanced(b);
    var hc := ActualHeight(c);
    assert ActualHeight(a) == hc + 1 && hc <= ActualHeight(b) <= hc + 1;
    assert hc + 1 <= ActualHeight(top.right) <= hc + 2;
    assert Balanced(top.right);
  }

  /** Left side taller at its right: a left rotation of the left side, then a right rotation. */
  lemma {:induction false} LeftDouble(t: Tree, text: u64 -> Bytes)
    requires t.Node? && Shape(t, text) && HeightsOk(t) && Avl(t.left, text) && Avl(t.right, text)
    requires ActualHeight(t.left) == ActualHeight(t.right) + 2 && ActualHeight(t) < 126
    requires t.left.Node? && CurrentBalance(t.left) > 0 && t.left.right.Node?
    ensures var (sub, m1) := RotateLeft(t.left);
      var (top, m2) := RotateRight(Node(sub, t.lab.(l := RootId(sub)), t.right));
      && Avl(top, text) && Ids(top) == Ids(t) && Keys(top, text) == Keys(t, text)
      && Recorded(t, top, {t.lab.Id} + m1 + m2)
      && ActualHeight(top) == ActualHeight(t) - 1
  {
    var x := t.left;
    assert Balanced(x) && HeightsOk(x);
    HeightIsActual(x.left);
    HeightIsActual(x.right);
    DoubleRightShape(t, text);
    DoubleRightHeights(t);
  }

  /** The double rotation keeps the shape, the ids and the strings, and marks what it changes. */
  lemma {:induction false} DoubleRightShape(t: Tree, text: u64 -> Bytes)
    requires t.Node? && Shape(t, text) && HeightsOk(t) && t.left.Node? && t.left.right.Node?
    requires ActualHeight(t) < 126
    ensures var (sub, m1) := RotateLeft(t.left);
      var (top, m2) := RotateRight(Node(sub, t.lab.(l := RootId(sub)), t.right));
      && Shape(top, text) && HeightsOk(top) && Ids(top) == Ids(t) && Keys(top, text) == Keys(t, text)
      && Recorded(t, top, {t.lab.Id} + m1 + m2)
  {
    var x := t.left;
    assert Shape(x, text) && HeightsOk(x) && HeightsOk(x.right);
    RotateLeftKeeps(x, text);
    var (sub, m1) := RotateLeft(x);
    RotateWithNewLeft(t, sub, m1, text);
  }

  /** The heights after the double rotation of a node whose left side is two levels taller at
      its right. */
  lemma {:induction false} DoubleRightHeights(t: Tree)
    requires t.Node? && t.left.Node? && t.left.right.Node? && Balanced(t.left) && Balanced(t.right)
    requires ActualHeight(t.left) == ActualHeight(t.right) + 2
    requires ActualHeight(t.left.right) > ActualHeight(t.left.left)
    ensures var sub := RotateLeft(t.left).0;
      var top := RotateRight(Node(sub, t.lab.(l := RootId(sub)), t.right)).0;
      Balanced(top) && ActualHeight(top) == ActualHeight(t) - 1
  {
    var sub := RotateLeft(t.left).0;
    var top := RotateRight(Node(sub, t.lab.(l := RootId(sub)), t.right)).0;
    var a, y, c := t.left.left, t.left.right, t.right;
    assert Balanced(a) && Balanced(y) && Balanced(y.left) && Balanced(y.right);
    var hc := ActualHeight(c);
    assert ActualHeight(y) == hc + 1 && ActualHeight(a) == hc;
    assert hc - 1 <= ActualHeight(y.left) <= hc && hc - 1 <= ActualHeight(y.right) <= hc;
    assert top.left == sub.left && top.right.left == y.right && top.right.right == c;
    assert ActualHeight(top.left) == hc + 1 && ActualHeight(top.right) == hc + 1;
    assert Balanced(top.left) && Balanced(top.right);
  }

  /** The second rotation of a double rotation: the left subtree, already rotated, is linked
      into the node and the node rotated right. */
  lemma {:induction false} RotateWithNewLeft(t: Tree, sub: Tree, m1: set<u16>, text: u64 -> Bytes)
    requires t.Node? && Shape(t, text) && HeightsOk(t.right)
    requires sub.Node? && sub.left.Node? && Shape(sub, text) && HeightsOk(sub)
    requires Ids(sub) == Ids(t.left) && Keys(sub, text) == Keys(t.left, text)
    requires Recorded(t.left, sub, m1)
    requires ActualHeight(sub) < 126 && ActualHeight(t.right) < 126
    ensures var (top, m2) := RotateRight(Node(sub, t.lab.(l := RootId(sub)), t.right));
      && Shape(top, text) && HeightsOk(top) && Ids(top) == Ids(t) && Keys(top, text) == Keys(t, text)
      && Recorded(t, top, {t.lab.Id} + m1 + m2)
  {
    var t2 := Node(sub, t.lab.(l := RootId(sub)), t.right);
    LeftReplaced(t, sub, text);
    assert Records(t2) == Records(sub) + {t2.lab} + Records(t.right);
    assert Records(t) == Records(t.left) + {t.lab} + Records(t.right);
    assert Recorded(t, t2, {t.lab.Id} + m1);
    assert HeightsOk(sub.left) && HeightsOk(sub.right);
    RotateRightKeeps(t2, text);
    var (top, m2) := RotateRight(t2);
    RecordedTrans(t, t2, top, {t.lab.Id} + m1, m2);
  }

  /** Replacing the left subtree by one with the same ids and strings keeps the shape. */
  lemma {:induction false} LeftReplaced(t: Tree, sub: Tree, text: u64 -> Bytes)
    requires t.Node? && Shape(t, text) && Shape(sub, text)
    requires Ids(sub) == Ids(t.left) && Keys(sub, text) == Keys(t.left, text)
    ensures Shape(Node(sub, t.lab.(l := RootId(sub)), t.right), text)
  {
  }

  /** Replacing the right subtree by one with the same ids and strings keeps the shape. */
  lemma {:induction false} RightReplaced(t: Tree, sub: Tree, text: u64 -> Bytes)
    requires t.Node? && Shape(t, text) && Shape(sub, text)
    requires Ids(sub) == Ids(t.right) && Keys(sub, text) == Keys(t.right, text)
    ensures Shape(Node(t.left, t.lab.(r := RootId(sub)), sub), text)
  {
  }

  /** Right side taller at its right: one left rotation. */
  lemma {:induction false} RightSingle(t: Tree, text: u64 -> Bytes)
    requires t.Node? && Shape(t, text) && HeightsOk(t) && Avl(t.left, text) && Avl(t.right, text)
    requires ActualHeight(t.right) == ActualHeight(t.left) + 2 && ActualHeight(t) < 126
    requires t.right.Node? && !(CurrentBalance(t.right) < 0 && t.right.left.Node?)
    ensures var (top, m2) := RotateLeft(t);
      && Avl(top, text) && Ids(top) == Ids(t) && Keys(top, text) == Keys(t, text)
      && Recorded(t, top, {t.lab.Id} + m2)
      && ActualHeight(t) - 1 <= ActualHeight(top) <= ActualHeight(t)
  {
    var x := t.right;
    assert Balanced(x) && HeightsOk(x);
    HeightIsActual(x.left);
    HeightIsActual(x.right);
    RotateLeftKeeps(t, text);
    SingleLeftHeights(t);
  }

  /** The heights after a single left rotation of a node whose right side is two levels taller
      and not taller at its left. */
  lemma {:induction false} SingleLeftHeights(t: Tree)
    requires t.Node? && t.right.Node? && Balanced(t.left) && Balanced(t.right)
    requires ActualHeight(t.right) == ActualHeight(t.left) + 2
    requires ActualHeight(t.right.left) <= ActualHeight(t.right.right)
    ensures Balanced(RotateLeft(t).0)
    ensures ActualHeight(t) - 1 <= ActualHeight(RotateLeft(t).0) <= ActualHeight(t)
  {
    var top := RotateLeft(t).0;
    var a, b, c := t.left, t.right.left, t.right.right;
    assert Balanced(b) && Balanced(c);
    var ha := ActualHeight(a);
    assert ActualHeight(c) == ha + 1 && ha <= ActualHeight(b) <= ha + 1;
    assert ha + 1 <= ActualHeight(top.left) <= ha + 2;
    assert Balanced(top.left);
  }

  /** Right side taller at its left: a right rotation of the right side, then a left rotation. */
  lemma {:induction false} RightDouble(t: Tree, text: u64 -> Bytes)
    requires t.Node? && Shape(t, text) && HeightsOk(t) && Avl(t.left, text) && Avl(t.right, text)
    requires ActualHeight(t.right) == ActualHeight(t.left) + 2 && ActualHeight(t) < 126
    requires t.right.Node? && CurrentBalance(t.right) < 0 && t.right.left.Node?
    ensures var (sub, m1) := RotateRight(t.right);
      var (top, m2) := RotateLeft(Node(t.left, t.lab.(r := RootId(sub)), sub));
      && Avl(top, text) && Ids(top) == Ids(t) && Keys(top, text) == Keys(t, text)
      && Recorded(t, top, {t.lab.Id} + m1 + m2)
      && ActualHeight(top) == ActualHeight(t) - 1
  {
    var x := t.right;
    assert Balanced(x) && HeightsOk(x);
    HeightIsActual(x.left);
    HeightIsActual(x.right);
    DoubleLeftShape(t, text);
    DoubleLeftHeights(t);
  }

  /** The double rotation keeps the shape, the ids and the strings, and marks what it changes. */
  lemma {:induction false} DoubleLeftShape(t: Tree, text: u64 -> Bytes)
    requires t.Node? && Shape(t, text) && HeightsOk(t) && t.right.Node? && t.right.left.Node?
    requires ActualHeight(t) < 126
    ensures var (sub, m1) := RotateRight(t.right);
      var (top, m2) := RotateLeft(Node(t.left, t.lab.(r := RootId(sub)), sub));
      && Shape(top, text) && HeightsOk(top) && Ids(top) == Ids(t) && Keys(top, text) == Keys(t, text)
      && Recorded(t, top, {t.lab.Id} + m1 + m2)
  {
    var x := t.right;
    assert Shape(x, text) && HeightsOk(x) && HeightsOk(x.left);
    RotateRightKeeps(x, text);
    var (sub, m1) := RotateRight(x);
    RotateWithNewRight(t, sub, m1, text);
  }

  /** The heights after the double rotation of a node whose right side is two levels taller at
      its left. */
  lemma {:induction false} DoubleLeftHeights(t: Tree)
    requires t.Node? && t.right.Node? && t.right.left.Node? && Balanced(t.left) && Balanced(t.right)
    requires ActualHeight(t.right) == ActualHeight(t.left) + 2
    requires ActualHeight(t.right.left) > ActualHeight(t.right.right)
    ensures var sub := RotateRight(t.right).0;
      var top := RotateLeft(Node(t.left, t.lab.(r := RootId(sub)), sub)).0;
      Balanced(top) && ActualHeight(top) == ActualHeight(t) - 1
  {
    var sub := RotateRight(t.right).0;
    var top := RotateLeft(Node(t.left, t.lab.(r := RootId(sub)), sub)).0;
    var a, y, c := t.left, t.right.left, t.right.right;
    assert Balanced(c) && Balanced(y) && Balanced(y.left) && Balanced(y.right);
    var ha := ActualHeight(a);
    assert ActualHeight(y) == ha + 1 && ActualHeight(c) == ha;
    assert ha - 1 <= ActualHeight(y.left) <= ha && ha - 1 <= ActualHeight(y.right) <= ha;
    assert top.right == sub.right && top.left.left == a && top.left.right == y.left;
    assert ActualHeight(top.left) == ha + 1 && ActualHeight(top.right) == ha + 1;
    assert Balanced(top.left) && Balanced(top.right);
  }

  /** The second rotation of a double rotation: the right subtree, already rotated, is linked
      into the node and the node rotated left. */
  lemma {:induction false} RotateWithNewRight(t: Tree, sub: Tree, m1: set<u16>, text: u64 -> Bytes)
    requires t.Node? && Shape(t, text) && HeightsOk(t.left)
    requires sub.Node? && sub.right.Node? && Shape(sub, text) && HeightsOk(sub)
    requires Ids(sub) == Ids(t.right) && Keys(sub, text) == Keys(t.right, text)
    requires Recorded(t.right, sub, m1)
    requires ActualHeight(sub) < 126 && ActualHeight(t.left) < 126
    ensures var (top, m2) := RotateLeft(Node(t.left, t.lab.(r := RootId(sub)), sub));
      && Shape(top, text) && HeightsOk(top) && Ids(top) == Ids(t) && Keys(top, text) == Keys(t, text)
      && Recorded(t, top, {t.lab.Id} + m1 + m2)
  {
    var t2 := Node(t.left, t.lab.(r := RootId(sub)), sub);
    RightReplaced(t, sub, text);
    assert Records(t2) == Records(t.left) + {t2.lab} + Records(sub);
    assert Records(t) == Records(t.left) + {t.lab} + Records(t.right);
    assert Recorded(t, t2, {t.lab.Id} + m1);
    assert HeightsOk(sub.left) && HeightsOk(sub.right);
    RotateLeftKeeps(t2, text);
    var (top, m2) := RotateLeft(t2);
    RecordedTrans(t, t2, top, {t.lab.Id} + m1, m2);
  }
}
