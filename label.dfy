// Labels (data/label.go): reusable strings, stored as 21-byte records that are also the nodes of
// an AVL tree ordered by the string each label stands for. A node names its children by id
// (`l`, `r`, 0 for none) and keeps its height `h`.
//
// The tree operations are modelled on the tree the id links describe: a `Tree` value whose
// nodes carry the records, read out of the store by `LabelStores.LabelStore.LoadTree`. Each Go function that
// changes a record changes the label in the tree the same way, and returns, next to the new
// subtree, the set of ids it put into the store's `writes` map. There are two exceptions, both
// about a node Go re-reads from the file before it is put into `writes`, and so sees with its
// old height:
// - `AddNodeAsWritten`: Go loses a changed height that is not put into `writes`, while the
//   tree here keeps it.
// - `RotateLeft`/`RotateRight` as the inner rotation of a double rotation (label.go:280, 288):
//   the node rotated down is not yet in `writes`, so the new root's `setHeight` (label.go:323,
//   345) reads that node's old height. Here it reads the new one. The outer rotation then
//   recomputes that height from current children, so the tree `Balance` returns is the same.
// The text store, which holds the strings, is the function `text`: the string behind each text
// id.

module Labels {
  import opened Conversion

  const LabelDataSize: nat := 21

  datatype Label = Label(Id: u16, value: u64, refs: u64, l: u16, r: u16, h: u8)

  /** `newLabel`: a label for the string the text store keeps under `value`; the id is set by
      the caller, references, links and height start at 0. */
  function NewLabel(value: u64): (r: Label)
    ensures r.value == value && r.Id == 0 && r.refs == 0 && r.l == 0 && r.r == 0 && r.h == 0
  {
    Label(0, value, 0, 0, 0, 0)
  }

  /** The string each label id stands for, as the other stores reach it through
      `labelStore.find(id)` followed by `Value`: None where `find` fails. */
  type Names = u16 -> Option<Bytes>

  /** `l.refs += 1` on the uint64 count: past the largest value it wraps to 0. */
  function IncRefs(refs: u64): u64 {
    (refs + 1) % TWO64
  }

  /** `l.refs -= 1` on the uint64 count: below 0 it wraps to the largest value. */
  function DecRefs(refs: u64): u64 {
    (refs + TWO64 - 1) % TWO64
  }

  /** `data`: value (8), refs (8), l (2), r (2) little-endian, then h (1). */
  function Data(lab: Label): (r: Bytes)
    ensures |r| == LabelDataSize
    ensures LittleEndian(r[0..8]) == lab.value && LittleEndian(r[8..16]) == lab.refs
    ensures LittleEndian(r[16..18]) == lab.l && LittleEndian(r[18..20]) == lab.r && r[20] == lab.h
  {
    var v, f, a, b := Uint64ToBytes(lab.value), Uint64ToBytes(lab.refs), Uint16ToBytes(lab.l), Uint16ToBytes(lab.r);
    var r := v + f + a + b + [lab.h];
    assert r[0..8] == v && r[8..16] == f && r[16..18] == a && r[18..20] == b;
    r
  }

  /** `constructLabel`: the caller must pass exactly 21 bytes. The decoding errors it checks for
      cannot happen on slices of those lengths, so the result carries no error. */
  function ConstructLabel(id: u16, b: Bytes): (r: Label)
    requires |b| == LabelDataSize
    ensures r.Id == id && r.value == LittleEndian(b[0..8]) && r.refs == LittleEndian(b[8..16])
    ensures r.l == LittleEndian(b[16..18]) && r.r == LittleEndian(b[18..20]) && r.h == b[20]
  {
    var v, f, a, c := b[0..8], b[8..16], b[16..18], b[18..20];
    assert v[..8] == v && f[..8] == f && a[..2] == a && c[..2] == c;
    Label(id, BytesToUint64(v).OrZero(0), BytesToUint64(f).OrZero(0),
          BytesToUint16(a).OrZero(0), BytesToUint16(c).OrZero(0), b[20])
  }

  lemma {:induction false} ConstructData(lab: Label)
    ensures ConstructLabel(lab.Id, Data(lab)) == lab
  {
  }

  lemma {:induction false} DataConstruct(id: u16, b: Bytes)
    requires |b| == LabelDataSize
    ensures Data(ConstructLabel(id, b)) == b
  {
    EncodeOfLittleEndian(b[0..8]);
    EncodeOfLittleEndian(b[8..16]);
    EncodeOfLittleEndian(b[16..18]);
    EncodeOfLittleEndian(b[18..20]);
    assert b == b[0..8] + b[8..16] + b[16..18] + b[18..20] + [b[20]];
  }

  // ---- Go's string order ----

  /** `<` on Go strings: byte-wise lexicographic, a proper prefix first. */
  predicate Less(a: Bytes, b: Bytes)
    decreases |a|
  {
    |b| > 0 && (|a| == 0 || a[0] < b[0] || (a[0] == b[0] && Less(a[1..], b[1..])))
  }

  lemma {:induction false} LessIrreflexive(a: Bytes)
    ensures !Less(a, a)
  {
    if |a| > 0 {
      LessIrreflexive(a[1..]);
    }
  }

  lemma {:induction false} LessTransitive(a: Bytes, b: Bytes, c: Bytes)
    requires Less(a, b) && Less(b, c)
    ensures Less(a, c)
  {
    if |a| > 0 && a[0] == b[0] && b[0] == c[0] {
      LessTransitive(a[1..], b[1..], c[1..]);
    }
  }

  lemma {:induction false} LessTotal(a: Bytes, b: Bytes)
    ensures a == b || Less(a, b) || Less(b, a)
  {
    if |a| > 0 && |b| > 0 && a[0] == b[0] {
      LessTotal(a[1..], b[1..]);
      if a[1..] == b[1..] {
        assert a == [a[0]] + a[1..] && b == [b[0]] + b[1..];
      }
    }
  }

  lemma {:induction false} LessAsymmetric(a: Bytes, b: Bytes)
    requires Less(a, b)
    ensures !Less(b, a) && a != b
  {
    LessIrreflexive(a);
    if Less(b, a) {
      LessTransitive(a, b, a);
    }
  }

  // ---- The tree the id links describe ----

  datatype Tree = Nil | Node(left: Tree, lab: Label, right: Tree)

  /** The id a parent stores for this subtree: 0 for none. */
  function RootId(t: Tree): u16 {
    if t.Nil? then 0 else t.lab.Id
  }

  function Ids(t: Tree): set<u16> {
    if t.Nil? then {} else Ids(t.left) + {t.lab.Id} + Ids(t.right)
  }

  function Records(t: Tree): set<Label> {
    if t.Nil? then {} else Records(t.left) + {t.lab} + Records(t.right)
  }

  /** The strings of a subtree, looked up through the text store. */
  function Keys(t: Tree, text: u64 -> Bytes): set<Bytes> {
    if t.Nil? then {} else Keys(t.left, text) + {text(t.lab.value)} + Keys(t.right, text)
  }

  /** The in-order sequence of node ids. */
  function Inorder(t: Tree): seq<u16> {
    if t.Nil? then [] else Inorder(t.left) + [t.lab.Id] + Inorder(t.right)
  }

  /** The label with a given id, searched in the left subtree, then the node, then the right. */
  function LabelOf(t: Tree, id: u16): (r: Label)
    requires id in Ids(t)
    ensures r in Records(t) && r.Id == id
  {
    if id in Ids(t.left) then LabelOf(t.left, id)
    else if id == t.lab.Id then t.lab
    else LabelOf(t.right, id)
  }

  // ---- label.go:106-165 ----

  /** The stored uint8 read back as an int8, as `height` and `setHeight` do. */
  function Int8(h: u8): (r: int)
    ensures h < 128 ==> r == h
    ensures h >= 128 ==> r == h - 256
  {
    if h < 128 then h else h - 256
  }

  /** `height`: -1 for a missing node, else the node's stored height as an int8. */
  function Height(t: Tree): (r: int)
    ensures t.Nil? ==> r == -1
    ensures t.Node? ==> r == Int8(t.lab.h)
  {
    if t.Nil? then -1 else Int8(t.lab.h)
  }

  function Max(a: int, b: int): int { if a < b then b else a }

  /** Conversion of an int to uint8, wrapping around. */
  function Wrap8(n: int): (r: u8)
    ensures 0 <= n < 256 ==> r == n
  {
    n % 256
  }

  /** `setHeight`: store one more than the taller child's height (wrapping in uint8), and report
      whether the stored height changed. Nothing but `h` changes. */
  function SetHeight(t: Tree): (r: (Tree, bool))
    requires t.Node?
    ensures r.0.Node? && r.0 == t.(lab := t.lab.(h := r.0.lab.h))
    ensures r.0.lab.h == Wrap8(1 + Max(Height(t.left), Height(t.right)))
    ensures r.1 <==> r.0.lab != t.lab
  {
    var lh, rh := Height(t.left), Height(t.right);
    var newHeight := if lh < rh then Wrap8(1 + rh) else Wrap8(1 + lh);
    (t.(lab := t.lab.(h := newHeight)), Int8(newHeight) != Height(t))
  }

  /** A node with no children gets height 0. */
  lemma {:induction false} LeafHeight(lab: Label)
    ensures SetHeight(Node(Nil, lab, Nil)).0.lab.h == 0
  {
  }

  /** `currentBalance`: right height minus left height. */
  function CurrentBalance(t: Tree): int
    requires t.Node?
  {
    Height(t.right) - Height(t.left)
  }

  // ---- label.go:308-351 ----

  /** `rotateRight`: the left child x becomes the subtree root; the old root takes x's right
      subtree as its left. Both nodes get new heights and both are put into `writes`. */
  function RotateRight(t: Tree): (r: (Tree, set<u16>))
    requires t.Node? && t.left.Node?
    ensures Inorder(r.0) == Inorder(t) && Ids(r.0) == Ids(t)
    ensures RootId(r.0) == t.left.lab.Id && r.1 == {t.lab.Id, t.left.lab.Id}
    ensures r.0.Node? && r.0.left == t.left.left && r.0.right.Node?
    ensures r.0.right.left == t.left.right && r.0.right.right == t.right
  {
    var x := t.left;
    var y := SetHeight(Node(x.right, t.lab.(l := x.lab.r), t.right)).0;
    var top := SetHeight(Node(x.left, x.lab.(r := t.lab.Id), y)).0;
    (top, {t.lab.Id, x.lab.Id})
  }

  /** `rotateLeft`: the mirror image of `rotateRight`. */
  function RotateLeft(t: Tree): (r: (Tree, set<u16>))
    requires t.Node? && t.right.Node?
    ensures Inorder(r.0) == Inorder(t) && Ids(r.0) == Ids(t)
    ensures RootId(r.0) == t.right.lab.Id && r.1 == {t.lab.Id, t.right.lab.Id}
    ensures r.0.Node? && r.0.right == t.right.right && r.0.left.Node?
    ensures r.0.left.left == t.left && r.0.left.right == t.right.left
  {
    var x := t.right;
    var y := SetHeight(Node(t.left, t.lab.(r := x.lab.l), x.left)).0;
    var top := SetHeight(Node(y, x.lab.(l := t.lab.Id), x.right)).0;
    (top, {t.lab.Id, x.lab.Id})
  }

  // ---- label.go:260-294 ----

  /** `balance`: set the height (marking the node when it changed), then rotate once or twice
      when one side is more than one level taller. Where Go would dereference a missing child
      (possible only when stored heights disagree with the tree), the node is left unrotated. */
  function Balance(t: Tree): (r: (Tree, set<u16>))
    requires t.Node?
  {
    var (t1, changed) := SetHeight(t);
    var (top, m) := Rebalance(t1);
    (top, (if changed then {t.lab.Id} else {}) + m)
  }

  /** `balance` leaves a node whose stored height is current and whose balance is within
      [-1, 1] as it is, and puts nothing into `writes`. */
  lemma {:induction false} BalanceIdle(t: Tree)
    requires t.Node? && !SetHeight(t).1 && -1 <= CurrentBalance(t) <= 1
    ensures Balance(t) == (t, {})
  {
    assert SetHeight(t).0 == t;
    assert Balance(t).0 == t && Balance(t).1 == {};
  }

  /** The rotations of `balance`, on a node whose height has been set. */
  function Rebalance(t: Tree): (r: (Tree, set<u16>))
    requires t.Node?
  {
    var b := CurrentBalance(t);
    if b < -1 && t.left.Node? then
      if CurrentBalance(t.left) > 0 && t.left.right.Node? then
        var (sub, m1) := RotateLeft(t.left);
        var (top, m2) := RotateRight(Node(sub, t.lab.(l := RootId(sub)), t.right));
        (top, {t.lab.Id} + m1 + m2)
      else
        var (top, m2) := RotateRight(t);
        (top, {t.lab.Id} + m2)
    else if b > 1 && t.right.Node? then
      if CurrentBalance(t.right) < 0 && t.right.left.Node? then
        var (sub, m1) := RotateRight(t.right);
        var (top, m2) := RotateLeft(Node(t.left, t.lab.(r := RootId(sub)), sub));
        (top, {t.lab.Id} + m1 + m2)
      else
        var (top, m2) := RotateLeft(t);
        (top, {t.lab.Id} + m2)
    else (t, {})
  }

  // ---- label.go:167-198 ----

  /** `addNode` as written: descend left iff the new string is smaller, relink, set the height
      and balance. The flag `setHeight` returns at label.go:196 is dropped, so a node whose
      height alone changed is not put into `writes`. Go's parent would then re-read that node
      from the file with its old height; here the new height stays in the tree, so on deeper
      paths the heights and rotations further up can differ from Go's. */
  function AddNodeAsWritten(t: Tree, n: Label, text: u64 -> Bytes): (Tree, set<u16>) {
    AddNodeWith(t, n, text, false)
  }

  /** `addNode` with the flag of label.go:196 honoured, as `balance` does at label.go:268-271. */
  function AddNode(t: Tree, n: Label, text: u64 -> Bytes): (Tree, set<u16>) {
    AddNodeWith(t, n, text, true)
  }

  function AddNodeWith(t: Tree, n: Label, text: u64 -> Bytes, markHeight: bool): (r: (Tree, set<u16>))
    decreases t
  {
    if t.Nil? then (Node(Nil, n, Nil), {})
    else
      var c := t.lab;
      if Less(text(n.value), text(c.value)) then
        var (sub, m1) := AddNodeWith(t.left, n, text, markHeight);
        var m2 := if RootId(sub) != c.l then {c.Id} else {};
        var (t1, changed) := SetHeight(Node(sub, c.(l := RootId(sub)), t.right));
        var m3 := if markHeight && changed then {c.Id} else {};
        var (top, m4) := Balance(t1);
        (top, m1 + m2 + m3 + m4)
      else
        var (sub, m1) := AddNodeWith(t.right, n, text, markHeight);
        var m2 := if RootId(sub) != c.r then {c.Id} else {};
        var (t1, changed) := SetHeight(Node(t.left, c.(r := RootId(sub)), sub));
        var m3 := if markHeight && changed then {c.Id} else {};
        var (top, m4) := Balance(t1);
        (top, m1 + m2 + m3 + m4)
  }

  // ---- label.go:200-258, 353-369 ----

  /** `leftmostNode`: follow left links to the end. */
  function Leftmost(t: Tree): (r: Label)
    requires t.Node?
  {
    if t.left.Nil? then t.lab else Leftmost(t.left)
  }

  /** `rightmostNode`: follow right links to the end. */
  function Rightmost(t: Tree): (r: Label)
    requires t.Node?
  {
    if t.right.Nil? then t.lab else Rightmost(t.right)
  }

  /** `removeNode` as written: with two children and a right side at least as tall, the
      replacement is taken from the right side but removed from the left one (label.go:233). */
  function RemoveNodeAsWritten(t: Tree, rem: Label, text: u64 -> Bytes): (Tree, set<u16>) {
    RemoveNodeWith(t, rem, text, false)
  }

  /** `removeNode` with label.go:233 removing the replacement from the right side it came from. */
  function RemoveNode(t: Tree, rem: Label, text: u64 -> Bytes): (Tree, set<u16>) {
    RemoveNodeWith(t, rem, text, true)
  }

  function RemoveNodeWith(t: Tree, rem: Label, text: u64 -> Bytes, fixed: bool): (r: (Tree, set<u16>))
    decreases t
  {
    if t.Nil? then (Nil, {})
    else
      var c := t.lab;
      if rem.Id == c.Id then
        if t.left.Nil? && t.right.Nil? then (Nil, {})
        else if t.left.Nil? then (t.right, {})
        else if t.right.Nil? then (t.left, {})
        else if Height(t.left) > Height(t.right) then
          var rl := Rightmost(t.left);
          var (sub, m1) := RemoveNodeWith(t.left, rl, text, fixed);
          var (top, m2) := Balance(Node(sub, rl.(l := RootId(sub), r := c.r), t.right));
          (top, m1 + {rl.Id} + m2)
        else
          var ll := Leftmost(t.right);
          var (sub, m1) := RemoveNodeWith(if fixed then t.right else t.left, ll, text, fixed);
          var (top, m2) := Balance(Node(t.left, ll.(r := RootId(sub), l := c.l), sub));
          (top, m1 + {ll.Id} + m2)
      else if Less(text(rem.value), text(c.value)) then
        var (sub, m1) := RemoveNodeWith(t.left, rem, text, fixed);
        var m2 := if RootId(sub) != c.l then {c.Id} else {};
        var (top, m3) := Balance(Node(sub, c.(l := RootId(sub)), t.right));
        (top, m1 + m2 + m3)
      else
        var (sub, m1) := RemoveNodeWith(t.right, rem, text, fixed);
        var m2 := if RootId(sub) != c.r then {c.Id} else {};
        var (top, m3) := Balance(Node(t.left, c.(r := RootId(sub)), sub));
        (top, m1 + m2 + m3)
  }
}
