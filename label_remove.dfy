// What `removeNode` of data/label.go keeps: removing a label that is in the tree leaves an AVL
// tree over the other ids and strings, at most one level lower, with every changed node put
// into `writes`; and what the version at label.go:233 does instead.

module LabelRemovals {
  import opened Conversion
  import opened Labels
  import opened LabelTrees
  import opened LabelEdits

  // ---- facts about labels in a tree ----

  lemma {:induction false} RecordFacts(t: Tree, lab: Label, text: u64 -> Bytes)
    requires lab in Records(t)
    ensures lab.Id in Ids(t) && text(lab.value) in Keys(t, text)
    decreases t
  {
    if lab in Records(t.left) {
      RecordFacts(t.left, lab, text);
    } else if lab in Records(t.right) {
      RecordFacts(t.right, lab, text);
    }
  }

  /** With distinct ids, the label of the root is the only one carrying the root's id. */
  lemma {:induction false} RootRecord(t: Tree, lab: Label, text: u64 -> Bytes)
    requires t.Node? && Distinct(t) && lab in Records(t) && lab.Id == t.lab.Id
    ensures lab == t.lab
  {
    if lab in Records(t.left) {
      RecordFacts(t.left, lab, text);
    } else if lab in Records(t.right) {
      RecordFacts(t.right, lab, text);
    }
  }

  /** In a search tree, a label other than the root whose string is smaller than the root's is
      in the left subtree, and one whose string is not smaller is in the right subtree. */
  lemma {:induction false} RecordSide(t: Tree, lab: Label, text: u64 -> Bytes)
    requires t.Node? && Ordered(t, text) && lab in Records(t) && lab.Id != t.lab.Id
    ensures Less(text(lab.value), text(t.lab.value)) ==> lab in Records(t.left)
    ensures !Less(text(lab.value), text(t.lab.value)) ==> lab in Records(t.right)
  {
    var k, kc := text(lab.value), text(t.lab.value);
    if lab in Records(t.left) {
      RecordFacts(t.left, lab, text);
      assert Less(k, kc);
    } else {
      assert lab in Records(t.right);
      RecordFacts(t.right, lab, text);
      assert Less(kc, k);
      LessAsymmetric(kc, k);
    }
  }

  /** Every id in a tree with distinct ids is non-zero. */
  lemma {:induction false} NoZeroId(t: Tree)
    requires Distinct(t)
    ensures 0 !in Ids(t)
    decreases t
  {
    if t.Node? {
      NoZeroId(t.left);
      NoZeroId(t.right);
    }
  }

  /** `rightmostNode` finds the label of the largest string. */
  lemma {:induction false} RightmostFacts(t: Tree, text: u64 -> Bytes)
    requires t.Node? && Ordered(t, text)
    ensures Rightmost(t) in Records(t)
    ensures forall k :: k in Keys(t, text) ==> k == text(Rightmost(t).value) || Less(k, text(Rightmost(t).value))
    decreases t
  {
    var kc := text(t.lab.value);
    if t.right.Node? {
      RightmostFacts(t.right, text);
      var rm := Rightmost(t.right);
      var km := text(rm.value);
      RecordFacts(t.right, rm, text);
      assert Less(kc, km);
      forall k | k in Keys(t.left, text)
        ensures Less(k, km)
      {
        LessTransitive(k, kc, km);
      }
    }
  }

  /** `leftmostNode` finds the label of the smallest string. */
  lemma {:induction false} LeftmostFacts(t: Tree, text: u64 -> Bytes)
    requires t.Node? && Ordered(t, text)
    ensures Leftmost(t) in Records(t)
    ensures forall k :: k in Keys(t, text) ==> k == text(Leftmost(t).value) || Less(text(Leftmost(t).value), k)
    decreases t
  {
    var kc := text(t.lab.value);
    if t.left.Node? {
      LeftmostFacts(t.left, text);
      var lm := Leftmost(t.left);
      var km := text(lm.value);
      RecordFacts(t.left, lm, text);
      assert Less(km, kc);
      forall k | k in Keys(t.right, text)
        ensures Less(km, k)
      {
        LessTransitive(km, kc, k);
      }
    }
  }

  /** Heights when one child of a balanced node, of height `h`, shrinks to `g` (by at most one)
      and the other has height `o`: the node shrinks by at most one, its balance stays within 2,
      and when it leaves [-1, 1] the node kept its height. */
  lemma {:induction false} ShrunkHeights(h: int, g: int, o: int)
    requires -1 <= g && -1 <= o && -1 <= o - h <= 1 && h - 1 <= g <= h
    ensures Max(h, o) <= 1 + Max(g, o) <= 1 + Max(h, o)
    ensures -2 <= o - g <= 2
    ensures !(-1 <= o - g <= 1) ==> Max(g, o) == Max(h, o)
  {
  }

  // ---- removeNode ----

  /** `removeNode` of a label of the tree (with label.go:233 removing the replacement from the
      side it was taken from): the result is an AVL tree over the other ids and strings, at
      most one level lower, and every label it holds is unchanged or marked. */
  lemma {:induction false} RemoveNodeAvl(t: Tree, rem: Label, text: u64 -> Bytes)
    requires Avl(t, text) && rem in Records(t) && ActualHeight(t) < 126
    ensures var r := RemoveNode(t, rem, text);
      && Avl(r.0, text) && Ids(r.0) == Ids(t) - {rem.Id} && Keys(r.0, text) == Keys(t, text) - {text(rem.value)}
      && ActualHeight(t) - 1 <= ActualHeight(r.0) <= ActualHeight(t)
      && Recorded(t, r.0, r.1)
    decreases t
  {
    var c := t.lab;
    assert Shape(t, text) && Avl(t.left, text) && Avl(t.right, text);
    if rem.Id == c.Id {
      RootRecord(t, rem, text);
      if t.left.Nil? || t.right.Nil? {
        RemoveLeaf(t, text);
      } else {
        HeightIsActual(t.left);
        HeightIsActual(t.right);
        if Height(t.left) > Height(t.right) {
          var rl := Rightmost(t.left);
          RightmostFacts(t.left, text);
          RemoveNodeAvl(t.left, rl, text);
          var sub := RemoveNode(t.left, rl, text);
          RootFromLeft(t, text, sub.0, sub.1);
        } else {
          var ll := Leftmost(t.right);
          LeftmostFacts(t.right, text);
          RemoveNodeAvl(t.right, ll, text);
          var sub := RemoveNode(t.right, ll, text);
          RootFromRight(t, text, sub.0, sub.1);
        }
      }
    } else if Less(text(rem.value), text(c.value)) {
      RecordSide(t, rem, text);
      RemoveNodeAvl(t.left, rem, text);
      var sub := RemoveNode(t.left, rem, text);
      RemoveLeftStep(t, rem, text, sub.0, sub.1);
    } else {
      RecordSide(t, rem, text);
      RemoveNodeAvl(t.right, rem, text);
      var sub := RemoveNode(t.right, rem, text);
      RemoveRightStep(t, rem, text, sub.0, sub.1);
    }
  }

  /** Removing the root of a node with at most one child leaves that child. */
  lemma {:induction false} RemoveLeaf(t: Tree, text: u64 -> Bytes)
    requires Avl(t, text) && t.Node? && (t.left.Nil? || t.right.Nil?)
    ensures var r := if t.left.Nil? && t.right.Nil? then Nil else if t.left.Nil? then t.right else t.left;
      && Avl(r, text) && Ids(r) == Ids(t) - {t.lab.Id} && Keys(r, text) == Keys(t, text) - {text(t.lab.value)}
      && ActualHeight(r) == ActualHeight(t) - 1
      && Recorded(t, r, {})
  {
    LessIrreflexive(text(t.lab.value));
    assert Records(t) == Records(t.left) + {t.lab} + Records(t.right);
    NodeSets(t, text);
  }

  // ---- one level of the search ----

  /** One level of `removeNode` going left, given what the recursive call promises. */
  lemma {:induction false} RemoveLeftStep(t: Tree, rem: Label, text: u64 -> Bytes, sub: Tree, m1: set<u16>)
    requires t.Node? && Avl(t, text) && rem in Records(t.left) && ActualHeight(t) < 126
    requires Avl(sub, text) && Ids(sub) == Ids(t.left) - {rem.Id}
    requires Keys(sub, text) == Keys(t.left, text) - {text(rem.value)}
    requires ActualHeight(t.left) - 1 <= ActualHeight(sub) <= ActualHeight(t.left)
    requires Recorded(t.left, sub, m1)
    ensures var c := t.lab;
      var m2 := if RootId(sub) != c.l then {c.Id} else {};
      var b := Balance(Node(sub, c.(l := RootId(sub)), t.right));
      && Avl(b.0, text) && Ids(b.0) == Ids(t) - {rem.Id} && Keys(b.0, text) == Keys(t, text) - {text(rem.value)}
      && ActualHeight(t) - 1 <= ActualHeight(b.0) <= ActualHeight(t)
      && Recorded(t, b.0, m1 + m2 + b.1)
  {
    var t0 := Node(sub, t.lab.(l := RootId(sub)), t.right);
    RemoveLeftLink(t, rem, text, sub, m1);
    BalanceKeeps(t0, text);
  }

  /** Linking the shrunk left subtree into the node, before `balance`. */
  lemma {:induction false} RemoveLeftLink(t: Tree, rem: Label, text: u64 -> Bytes, sub: Tree, m1: set<u16>)
    requires t.Node? && Avl(t, text) && rem in Records(t.left) && ActualHeight(t) < 126
    requires Avl(sub, text) && Ids(sub) == Ids(t.left) - {rem.Id}
    requires Keys(sub, text) == Keys(t.left, text) - {text(rem.value)}
    requires ActualHeight(t.left) - 1 <= ActualHeight(sub) <= ActualHeight(t.left)
    requires Recorded(t.left, sub, m1)
    ensures var t0 := Node(sub, t.lab.(l := RootId(sub)), t.right);
      && ReadyToBalance(t0, text)
      && Ids(t0) == Ids(t) - {rem.Id} && Keys(t0, text) == Keys(t, text) - {text(rem.value)}
      && Recorded(t, t0, m1 + if RootId(sub) != t.lab.l then {t.lab.Id} else {})
      && ActualHeight(t) - 1 <= ActualHeight(t0) <= ActualHeight(t)
      && (!(-1 <= ActualHeight(t0.right) - ActualHeight(t0.left) <= 1) ==> ActualHeight(t0) == ActualHeight(t))
  {
    var c := t.lab;
    var k, kc := text(rem.value), text(c.value);
    assert Shape(t, text) && Avl(t.right, text) && Balanced(t);
    RecordFacts(t.left, rem, text);
    assert Less(k, kc);
    LessAsymmetric(k, kc);
    assert forall x :: x in Keys(sub, text) ==> Less(x, kc);
    NewLeft(t, sub, m1, text);
    NodeSets(t, text);
    ShrunkHeights(ActualHeight(t.left), ActualHeight(sub), ActualHeight(t.right));
  }

  /** One level of `removeNode` going right, given what the recursive call promises. */
  lemma {:induction false} RemoveRightStep(t: Tree, rem: Label, text: u64 -> Bytes, sub: Tree, m1: set<u16>)
    requires t.Node? && Avl(t, text) && rem in Records(t.right) && ActualHeight(t) < 126
    requires Avl(sub, text) && Ids(sub) == Ids(t.right) - {rem.Id}
    requires Keys(sub, text) == Keys(t.right, text) - {text(rem.value)}
    requires ActualHeight(t.right) - 1 <= ActualHeight(sub) <= ActualHeight(t.right)
    requires Recorded(t.right, sub, m1)
    ensures var c := t.lab;
      var m2 := if RootId(sub) != c.r then {c.Id} else {};
      var b := Balance(Node(t.left, c.(r := RootId(sub)), sub));
      && Avl(b.0, text) && Ids(b.0) == Ids(t) - {rem.Id} && Keys(b.0, text) == Keys(t, text) - {text(rem.value)}
      && ActualHeight(t) - 1 <= ActualHeight(b.0) <= ActualHeight(t)
      && Recorded(t, b.0, m1 + m2 + b.1)
  {
    var t0 := Node(t.left, t.lab.(r := RootId(sub)), sub);
    RemoveRightLink(t, rem, text, sub, m1);
    BalanceKeeps(t0, text);
  }

  /** Linking the shrunk right subtree into the node, before `balance`. */
  lemma {:induction false} RemoveRightLink(t: Tree, rem: Label, text: u64 -> Bytes, sub: Tree, m1: set<u16>)
    requires t.Node? && Avl(t, text) && rem in Records(t.right) && ActualHeight(t) < 126
    requires Avl(sub, text) && Ids(sub) == Ids(t.right) - {rem.Id}
    requires Keys(sub, text) == Keys(t.right, text) - {text(rem.value)}
    requires ActualHeight(t.right) - 1 <= ActualHeight(sub) <= ActualHeight(t.right)
    requires Recorded(t.right, sub, m1)
    ensures var t0 := Node(t.left, t.lab.(r := RootId(sub)), sub);
      && ReadyToBalance(t0, text)
      && Ids(t0) == Ids(t) - {rem.Id} && Keys(t0, text) == Keys(t, text) - {text(rem.value)}
      && Recorded(t, t0, m1 + if RootId(sub) != t.lab.r then {t.lab.Id} else {})
      && ActualHeight(t) - 1 <= ActualHeight(t0) <= ActualHeight(t)
      && (!(-1 <= ActualHeight(t0.right) - ActualHeight(t0.left) <= 1) ==> ActualHeight(t0) == ActualHeight(t))
  {
    var c := t.lab;
    var k, kc := text(rem.value), text(c.value);
    assert Shape(t, text) && Avl(t.left, text) && Balanced(t);
    RecordFacts(t.right, rem, text);
    assert Less(kc, k);
    LessAsymmetric(kc, k);
    assert forall x :: x in Keys(sub, text) ==> Less(kc, x);
    NewRight(t, sub, m1, text);
    NodeSets(t, text);
    ShrunkHeights(ActualHeight(t.right), ActualHeight(sub), ActualHeight(t.left));
  }

  // ---- removing the node itself ----

  /** The sets of a node whose own element `c` gives way to `x`, taken out of one side. */
  lemma {:induction false} Replaced<T>(l: set<T>, r: set<T>, s: set<T>, c: T, x: T, left: bool)
    requires x in (if left then l else r) && s == (if left then l else r) - {x}
    requires c !in l && c !in r
    ensures left ==> s + {x} + r == (l + {c} + r) - {c}
    ensures !left ==> l + {x} + s == (l + {c} + r) - {c}
  {
  }

  /** Removing a node with two children whose left side is taller: the rightmost label of the
      left side, removed from there, takes the node's place. */
  lemma {:induction false} RootFromLeft(t: Tree, text: u64 -> Bytes, sub: Tree, m1: set<u16>)
    requires t.Node? && t.left.Node? && t.right.Node? && Avl(t, text) && ActualHeight(t) < 126
    requires ActualHeight(t.left) > ActualHeight(t.right)
    requires var rl := Rightmost(t.left);
      && Avl(sub, text) && Ids(sub) == Ids(t.left) - {rl.Id}
      && Keys(sub, text) == Keys(t.left, text) - {text(rl.value)}
      && ActualHeight(t.left) - 1 <= ActualHeight(sub) <= ActualHeight(t.left)
      && Recorded(t.left, sub, m1)
    ensures var rl := Rightmost(t.left);
      var b := Balance(Node(sub, rl.(l := RootId(sub), r := t.lab.r), t.right));
      && Avl(b.0, text) && Ids(b.0) == Ids(t) - {t.lab.Id} && Keys(b.0, text) == Keys(t, text) - {text(t.lab.value)}
      && ActualHeight(t) - 1 <= ActualHeight(b.0) <= ActualHeight(t)
      && Recorded(t, b.0, m1 + {rl.Id} + b.1)
  {
    var rl := Rightmost(t.left);
    var t0 := Node(sub, rl.(l := RootId(sub), r := t.lab.r), t.right);
    RootFromLeftLink(t, text, sub, m1);
    BalanceKeeps(t0, text);
  }

  lemma {:induction false} RootFromLeftLink(t: Tree, text: u64 -> Bytes, sub: Tree, m1: set<u16>)
    requires t.Node? && t.left.Node? && t.right.Node? && Avl(t, text) && ActualHeight(t) < 126
    requires ActualHeight(t.left) > ActualHeight(t.right)
    requires var rl := Rightmost(t.left);
      && Avl(sub, text) && Ids(sub) == Ids(t.left) - {rl.Id}
      && Keys(sub, text) == Keys(t.left, text) - {text(rl.value)}
      && ActualHeight(t.left) - 1 <= ActualHeight(sub) <= ActualHeight(t.left)
      && Recorded(t.left, sub, m1)
    ensures var rl := Rightmost(t.left);
      var t0 := Node(sub, rl.(l := RootId(sub), r := t.lab.r), t.right);
      && Shape(t0, text) && Avl(t0.left, text) && Avl(t0.right, text)
      && -1 <= ActualHeight(t0.right) - ActualHeight(t0.left) <= 1
      && Ids(t0) == Ids(t) - {t.lab.Id} && Keys(t0, text) == Keys(t, text) - {text(t.lab.value)}
      && Recorded(t, t0, m1 + {rl.Id})
      && ActualHeight(t) - 1 <= ActualHeight(t0) <= ActualHeight(t)
  {
    var c, rl := t.lab, Rightmost(t.left);
    assert Shape(t, text) && Avl(t.left, text) && Avl(t.right, text) && Balanced(t);
    RightmostReplaces(t, text);
    var t0 := Node(sub, rl.(l := RootId(sub), r := c.r), t.right);
    assert Shape(t0, text);
    NodeSets(t, text);
    NodeSets(t0, text);
    RootApart(t, text);
    Replaced(Ids(t.left), Ids(t.right), Ids(sub), c.Id, rl.Id, true);
    Replaced(Keys(t.left, text), Keys(t.right, text), Keys(sub, text), text(c.value), text(rl.value), true);
    assert Records(t0) == Records(sub) + {t0.lab} + Records(t.right);
    assert Records(t) == Records(t.left) + {c} + Records(t.right);
  }

  /** Removing a node with two children whose right side is at least as tall: the leftmost
      label of the right side, removed from there, takes the node's place. */
  lemma {:induction false} RootFromRight(t: Tree, text: u64 -> Bytes, sub: Tree, m1: set<u16>)
    requires t.Node? && t.left.Node? && t.right.Node? && Avl(t, text) && ActualHeight(t) < 126
    requires ActualHeight(t.left) <= ActualHeight(t.right)
    requires var ll := Leftmost(t.right);
      && Avl(sub, text) && Ids(sub) == Ids(t.right) - {ll.Id}
      && Keys(sub, text) == Keys(t.right, text) - {text(ll.value)}
      && ActualHeight(t.right) - 1 <= ActualHeight(sub) <= ActualHeight(t.right)
      && Recorded(t.right, sub, m1)
    ensures var ll := Leftmost(t.right);
      var b := Balance(Node(t.left, ll.(r := RootId(sub), l := t.lab.l), sub));
      && Avl(b.0, text) && Ids(b.0) == Ids(t) - {t.lab.Id} && Keys(b.0, text) == Keys(t, text) - {text(t.lab.value)}
      && ActualHeight(t) - 1 <= ActualHeight(b.0) <= ActualHeight(t)
      && Recorded(t, b.0, m1 + {ll.Id} + b.1)
  {
    var ll := Leftmost(t.right);
    var t0 := Node(t.left, ll.(r := RootId(sub), l := t.lab.l), sub);
    RootFromRightLink(t, text, sub, m1);
    BalanceKeeps(t0, text);
  }

  lemma {:induction false} RootFromRightLink(t: Tree, text: u64 -> Bytes, sub: Tree, m1: set<u16>)
    requires t.Node? && t.left.Node? && t.right.Node? && Avl(t, text) && ActualHeight(t) < 126
    requires ActualHeight(t.left) <= ActualHeight(t.right)
    requires var ll := Leftmost(t.right);
      && Avl(sub, text) && Ids(sub) == Ids(t.right) - {ll.Id}
      && Keys(sub, text) == Keys(t.right, text) - {text(ll.value)}
      && ActualHeight(t.right) - 1 <= ActualHeight(sub) <= ActualHeight(t.right)
      && Recorded(t.right, sub, m1)
    ensures var ll := Leftmost(t.right);
      var t0 := Node(t.left, ll.(r := RootId(sub), l := t.lab.l), sub);
      && Shape(t0, text) && Avl(t0.left, text) && Avl(t0.right, text)
      && -1 <= ActualHeight(t0.right) - ActualHeight(t0.left) <= 1
      && Ids(t0) == Ids(t) - {t.lab.Id} && Keys(t0, text) == Keys(t, text) - {text(t.lab.value)}
      && Recorded(t, t0, m1 + {ll.Id})
      && ActualHeight(t) - 1 <= ActualHeight(t0) <= ActualHeight(t)
  {
    var c, ll := t.lab, Leftmost(t.right);
    assert Shape(t, text) && Avl(t.left, text) && Avl(t.right, text) && Balanced(t);
    LeftmostReplaces(t, text);
    var t0 := Node(t.left, ll.(r := RootId(sub), l := c.l), sub);
    assert Shape(t0, text);
    NodeSets(t, text);
    NodeSets(t0, text);
    RootApart(t, text);
    Replaced(Ids(t.left), Ids(t.right), Ids(sub), c.Id, ll.Id, false);
    Replaced(Keys(t.left, text), Keys(t.right, text), Keys(sub, text), text(c.value), text(ll.value), false);
    assert Records(t0) == Records(t.left) + {t0.lab} + Records(sub);
    assert Records(t) == Records(t.left) + {c} + Records(t.right);
  }

  /** The root's id and string occur in neither subtree. */
  lemma {:induction false} RootApart(t: Tree, text: u64 -> Bytes)
    requires t.Node? && Shape(t, text)
    ensures t.lab.Id !in Ids(t.left) && t.lab.Id !in Ids(t.right)
    ensures text(t.lab.value) !in Keys(t.left, text) && text(t.lab.value) !in Keys(t.right, text)
  {
    LessIrreflexive(text(t.lab.value));
  }

  /** The rightmost label of the left subtree can stand in for the root: its id is new to the
      right side, and its string lies between the left side's others and the right side's. */
  lemma {:induction false} RightmostReplaces(t: Tree, text: u64 -> Bytes)
    requires t.Node? && t.left.Node? && Shape(t, text)
    ensures var rl := Rightmost(t.left);
      && rl in Records(t.left) && rl.Id in Ids(t.left) && text(rl.value) in Keys(t.left, text) && rl.Id != 0 && rl.Id != t.lab.Id && rl.Id !in Ids(t.right)
      && Less(text(rl.value), text(t.lab.value))
      && (forall x :: x in Keys(t.right, text) ==> Less(text(rl.value), x))
      && (forall x :: x in Keys(t.left, text) && x != text(rl.value) ==> Less(x, text(rl.value)))
  {
    var c, rl := t.lab, Rightmost(t.left);
    var kc, kr := text(c.value), text(rl.value);
    RightmostFacts(t.left, text);
    RecordFacts(t.left, rl, text);
    NoZeroId(t.left);
    assert Less(kr, kc);
    forall x | x in Keys(t.right, text)
      ensures Less(kr, x)
    {
      LessTransitive(kr, kc, x);
    }
  }

  /** The leftmost label of the right subtree can stand in for the root. */
  lemma {:induction false} LeftmostReplaces(t: Tree, text: u64 -> Bytes)
    requires t.Node? && t.right.Node? && Shape(t, text)
    ensures var ll := Leftmost(t.right);
      && ll in Records(t.right) && ll.Id in Ids(t.right) && text(ll.value) in Keys(t.right, text) && ll.Id != 0 && ll.Id != t.lab.Id && ll.Id !in Ids(t.left)
      && Less(text(t.lab.value), text(ll.value))
      && (forall x :: x in Keys(t.left, text) ==> Less(x, text(ll.value)))
      && (forall x :: x in Keys(t.right, text) && x != text(ll.value) ==> Less(text(ll.value), x))
  {
    var c, ll := t.lab, Leftmost(t.right);
    var kc, kl := text(c.value), text(ll.value);
    LeftmostFacts(t.right, text);
    RecordFacts(t.right, ll, text);
    NoZeroId(t.right);
    assert Less(kc, kl);
    forall x | x in Keys(t.left, text)
      ensures Less(x, kl)
    {
      LessTransitive(x, kc, kl);
    }
  }

  // ---- label.go:233 as written ----

  /** What `removeNode` as written returns when the root "\x02" of the example is removed: the
      leftmost label "\x03" of the right side takes its place, but the search for it runs
      through the left side, which comes back unchanged and is linked on both sides. */
  const ExampleRemoved: Tree :=
    Node(Node(Nil, Label(1, 1, 1, 0, 0, 0), Nil), Label(3, 3, 1, 1, 1, 1), Node(Nil, Label(1, 1, 1, 0, 0, 0), Nil))

  lemma {:induction false} ExampleRemove()
    ensures RemoveNodeAsWritten(ExampleTree, ExampleTree.lab, OneByte) == (ExampleRemoved, {3})
  {
    var t := ExampleTree;
    var a, ll := t.left.lab, t.right.lab;
    assert Leftmost(t.right) == ll;
    assert OneByte(3) == [3] && OneByte(1) == [1] && !Less([3], [1]);
    assert RemoveNodeWith(Nil, ll, OneByte, false) == (Nil, {});
    BalanceIdle(t.left);
    assert RemoveNodeWith(t.left, ll, OneByte, false) == (t.left, {});
    var t0 := Node(t.left, ll.(r := 1, l := 1), t.left);
    assert SetHeight(t0) == (ExampleRemoved, true);
    assert !SetHeight(ExampleRemoved).1 && CurrentBalance(ExampleRemoved) == 0;
    BalanceIdle(ExampleRemoved);
    assert Rebalance(ExampleRemoved) == (ExampleRemoved, {});
    assert Balance(t0).0 == ExampleRemoved && Balance(t0).1 == {3};
    assert !(Height(t.left) > Height(t.right)) && RootId(t.left) == 1 && t.lab.l == 1;
    assert {} + {3} + {3} == {3};
    var r := RemoveNodeAsWritten(t, t.lab, OneByte);
    assert r.0 == ExampleRemoved && r.1 == {3};
  }

  /** Removing the root of an AVL tree with label.go:233 as written can give a tree in which the
      same label hangs on both sides, so ids repeat and strings are out of order. */
  lemma {:induction false} RemoveNodeAsWrittenBreaksOrder()
    ensures Avl(ExampleTree, OneByte) && ExampleTree.lab in Records(ExampleTree)
    ensures !Distinct(ExampleRemoved) && !Ordered(ExampleRemoved, OneByte)
  {
    ExampleTreeAvl();
    var t := ExampleRemoved;
    assert OneByte(1) == [1] && OneByte(3) == [3];
    assert [1] in Keys(t.right, OneByte) && !Less([3], [1]);
    assert 1 in Ids(t.left) && 1 in Ids(t.right);
  }
}
