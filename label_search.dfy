// Looking labels up in the tree (the descent of `findByValue`, data/label_store.go:183-208),
// changing a label's reference count in place, and how high a tree of 16-bit ids can grow.

module LabelSearches {
  import opened Conversion
  import opened Labels
  import opened LabelTrees
  import opened LabelRemovals

  /** The descent of `findByValue`: stop at an equal string, go right when the node's string
      is smaller, else left. */
  function Search(t: Tree, key: Bytes, text: u64 -> Bytes): Option<Label>
    decreases t
  {
    if t.Nil? then None
    else
      var k := text(t.lab.value);
      if k == key then Some(t.lab)
      else if Less(k, key) then Search(t.right, key, text)
      else Search(t.left, key, text)
  }

  /** In a search tree the descent finds a string exactly when the tree holds it, and what it
      finds is the label of that string. */
  lemma {:induction false} SearchFinds(t: Tree, key: Bytes, text: u64 -> Bytes)
    requires Ordered(t, text)
    ensures Search(t, key, text).Some? <==> key in Keys(t, text)
    ensures Search(t, key, text).Some? ==>
      Search(t, key, text).value in Records(t) && text(Search(t, key, text).value.value) == key
    decreases t
  {
    if t.Node? {
      var k := text(t.lab.value);
      if k != key {
        if Less(k, key) {
          SearchFinds(t.right, key, text);
          if Less(key, k) {
            LessAsymmetric(key, k);
          }
          assert key !in Keys(t.left, text);
        } else {
          SearchFinds(t.left, key, text);
          LessTotal(k, key);
          assert key !in Keys(t.right, text);
        }
      }
    }
  }

  /** With distinct ids a label of the tree is the one `LabelOf` finds for its id. */
  lemma {:induction false} RecordIsLabelOf(t: Tree, lab: Label)
    requires Distinct(t) && lab in Records(t)
    ensures lab.Id in Ids(t) && LabelOf(t, lab.Id) == lab
    decreases t
  {
    if lab in Records(t.left) {
      RecordIsLabelOf(t.left, lab);
    } else if lab in Records(t.right) {
      RecordIsLabelOf(t.right, lab);
      assert lab.Id !in Ids(t.left);
    } else {
      assert lab == t.lab;
    }
  }

  // ---- `l.refs += 1` / `l.refs -= 1` on a label of the tree ----

  /** The tree with the reference count of the label `id` set to `refs`. */
  function SetRefs(t: Tree, id: u16, refs: u64): (r: Tree)
    ensures RootId(r) == RootId(t) && Ids(r) == Ids(t)
    ensures forall text: u64 -> Bytes :: Keys(r, text) == Keys(t, text)
    decreases t
  {
    if t.Nil? then Nil
    else Node(SetRefs(t.left, id, refs), if t.lab.Id == id then t.lab.(refs := refs) else t.lab, SetRefs(t.right, id, refs))
  }

  /** The reference count plays no part in the tree's shape: the tree stays an AVL tree, and
      its labels are the old ones except that the label `id` has the new count. */
  lemma {:induction false} SetRefsKeeps(t: Tree, id: u16, refs: u64, text: u64 -> Bytes)
    requires Avl(t, text)
    ensures Avl(SetRefs(t, id, refs), text) && ActualHeight(SetRefs(t, id, refs)) == ActualHeight(t)
    ensures forall lab :: lab in Records(SetRefs(t, id, refs)) ==>
      (lab.Id != id && lab in Records(t)) || (lab.Id == id && id in Ids(t) && lab == LabelOf(t, id).(refs := refs))
    decreases t
  {
    if t.Node? {
      SetRefsKeeps(t.left, id, refs, text);
      SetRefsKeeps(t.right, id, refs, text);
      var r := SetRefs(t, id, refs);
      forall lab | lab in Records(r)
        ensures (lab.Id != id && lab in Records(t)) || (lab.Id == id && id in Ids(t) && lab == LabelOf(t, id).(refs := refs))
      {
        if lab in Records(r.right) && lab.Id == id {
          assert id !in Ids(t.left);
        }
      }
    }
  }

  // ---- how high the tree can grow ----

  /** The fewest nodes an AVL tree of height h has. */
  function MinNodes(h: int): nat
    decreases h
  {
    if h < 0 then 0 else if h == 0 then 1 else 1 + MinNodes(h - 1) + MinNodes(h - 2)
  }

  lemma {:induction false} MinNodesGrows(a: int, b: int)
    requires a <= b
    ensures MinNodes(a) <= MinNodes(b)
    decreases b - a
  {
    if a < b {
      MinNodesGrows(a, b - 1);
    }
  }

  /** An AVL tree of height h has at least `MinNodes(h)` distinct ids. */
  lemma {:induction false} AvlSize(t: Tree)
    requires Distinct(t) && Balanced(t)
    ensures |Ids(t)| >= MinNodes(ActualHeight(t))
    decreases t
  {
    if t.Node? {
      AvlSize(t.left);
      AvlSize(t.right);
      DisjointSize(Ids(t.left), Ids(t.right), t.lab.Id);
      MinNodesStep(|Ids(t.left)|, |Ids(t.right)|, ActualHeight(t.left), ActualHeight(t.right));
    }
  }

  /** The step of `AvlSize`: children with enough nodes and heights at most one apart give a
      node with enough nodes. */
  lemma {:induction false} MinNodesStep(nl: int, nr: int, hl: int, hr: int)
    requires -1 <= hl && -1 <= hr && -1 <= hr - hl <= 1
    requires nl >= MinNodes(hl) && nr >= MinNodes(hr)
    ensures nl + nr + 1 >= MinNodes(1 + Max(hl, hr))
  {
    var h := 1 + Max(hl, hr);
    assert MinNodes(h) == 1 + MinNodes(h - 1) + MinNodes(h - 2);
    if hl <= hr {
      MinNodesGrows(h - 2, hl);
    } else {
      MinNodesGrows(h - 2, hr);
    }
  }

  lemma {:induction false} DisjointSize<T>(a: set<T>, b: set<T>, c: T)
    requires a !! b && c !in a && c !in b
    ensures |a + {c} + b| == |a| + |b| + 1
  {
    assert a * b == {};
    assert (a + b) * {c} == {};
    assert a + {c} + b == (a + b) + {c};
  }

  lemma {:induction false} MinNodesAt22()
    ensures MinNodes(22) == 75024
  {
    assert MinNodes(0) == 1 && MinNodes(1) == 2 && MinNodes(2) == 4 && MinNodes(3) == 7;
    assert MinNodes(4) == 12 && MinNodes(5) == 20 && MinNodes(6) == 33 && MinNodes(7) == 54;
    assert MinNodes(8) == 88 && MinNodes(9) == 143 && MinNodes(10) == 232 && MinNodes(11) == 376;
    assert MinNodes(12) == 609 && MinNodes(13) == 986 && MinNodes(14) == 1596;
    assert MinNodes(15) == 2583 && MinNodes(16) == 4180 && MinNodes(17) == 6764;
    assert MinNodes(18) == 10945 && MinNodes(19) == 17710 && MinNodes(20) == 28656;
    assert MinNodes(21) == 46367;
  }

  /** A set of ids drawn from 1..n has at most n members. */
  lemma {:induction false} IdsAtMost(s: set<u16>, n: nat)
    requires n < TWO16 && forall x :: x in s ==> 1 <= x <= n
    ensures |s| <= n
    decreases n
  {
    if n == 0 {
      assert s == {};
    } else {
      IdsAtMost(s - {n}, n - 1);
    }
  }

  /** A label tree never gets higher than 21: 16-bit ids allow at most 65535 nodes, fewer
      than an AVL tree of height 22 needs; the uint8 heights therefore never wrap. */
  lemma {:induction false} AvlHeightBound(t: Tree, text: u64 -> Bytes)
    requires Avl(t, text)
    ensures ActualHeight(t) < 22
  {
    assert Distinct(t) && Balanced(t);
    BalancedHeightBound(t);
  }

  /** The bound holds for any balanced tree of distinct 16-bit ids. */
  lemma {:induction false} BalancedHeightBound(t: Tree)
    requires Distinct(t) && Balanced(t)
    ensures ActualHeight(t) < 22
  {
    SizeBound(t);
    AvlSize(t);
    HeightFromSize(|Ids(t)|, ActualHeight(t));
  }

  /** A tree of distinct 16-bit ids has fewer than 2^16 of them, 0 never being one. */
  lemma {:induction false} SizeBound(t: Tree)
    requires Distinct(t)
    ensures |Ids(t)| < TWO16
  {
    NoZeroId(t);
    var ids := Ids(t);
    assert forall x :: x in ids ==> 1 <= x <= TWO16 - 1;
    IdsAtMost(ids, TWO16 - 1);
  }

  /** The arithmetic of `AvlHeightBound`: 65535 nodes are fewer than height 22 needs. */
  lemma {:induction false} HeightFromSize(n: nat, h: int)
    requires n < TWO16 && n >= MinNodes(h)
    ensures h < 22
  {
    if h >= 22 {
      MinNodesGrows(22, h);
      MinNodesAt22();
      assert false;
    }
  }

  /** `removeNode` looks only at the id and the string of the label it removes. */
  lemma {:induction false} RemoveNodeByKey(t: Tree, a: Label, b: Label, text: u64 -> Bytes)
    requires a.Id == b.Id && a.value == b.value
    ensures RemoveNode(t, a, text) == RemoveNode(t, b, text)
    decreases t
  {
    if t.Node? {
      RemoveNodeByKey(t.left, a, b, text);
      RemoveNodeByKey(t.right, a, b, text);
    }
  }
}
