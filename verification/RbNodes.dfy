/** The nodes of libavl's red-black tree (include/rb.h) and the values they stand for. */
module RbNodes {
  // The heap holds RbNode objects, as the C program does.  What the links mean is a
  // value: a Tree that names the node at each position.  Image reads the heap once
  // and for all into a Store, and Holds says that a Store contains a Tree, so every
  // fact about links and colours below is a fact about values.

  /** include/rb.h:33 */
  const RB_MAX_HEIGHT: nat := 32

  const KEY_MODULUS: int := 0x1_0000_0000_0000_0000

  /** global_id_t of include/set.h:34: an unsigned 64-bit integer. */
  type Key = k: int | 0 <= k < KEY_MODULUS

  /** struct _item of include/set.h:41-44.  Two items are equal when they are the
      same object, as two item_t pointers are in C.  An Item is a block of memory with
      what it holds; when a block that has been freed is written to, the nodes that refer
      to it hold another Item (RbReplace.Rewrite). */
  class Item {
    const key: Key
    const data: nat

    constructor (key: Key, data: nat)
      ensures this.key == key && this.data == data
    {
      this.key := key;
      this.data := data;
    }
  }

  datatype Color = Black | Red

  /** An index into link[2]. */
  type Dir = d: int | 0 <= d <= 1

  /** The two-element array link of rb_node. */
  datatype Links = Links(zero: RbNode?, one: RbNode?) {
    function At(d: Dir): RbNode? {
      if d == 0 then zero else one
    }

    function With(d: Dir, n: RbNode?): Links {
      if d == 0 then Links(n, one) else Links(zero, n)
    }
  }

  /** struct rb_node, without the two unused fields cache and pad. */
  class RbNode {
    var data: Item
    var link: Links
    var color: Color

    constructor (data: Item, color: Color)
      ensures this.data == data && this.color == color && link == Links(null, null)
    {
      this.data := data;
      this.color := color;
      link := Links(null, null);
    }
  }

  /** _comparison_func, common/set.c:34-46. */
  function Compare(a: Key, b: Key): (diff: int)
    ensures diff < 0 <==> a < b
    ensures diff > 0 <==> a > b
  {
    if a > b then 1 else if a < b then -1 else 0
  }

  // ---------- Trees as values ----------

  datatype Tree = Leaf | Fork(ref: RbNode, color: Color, item: Item, left: Tree, right: Tree)

  /** The tree whose subtree in direction d is near and whose other subtree is far. */
  function Mk(ref: RbNode, color: Color, item: Item, d: Dir, near: Tree, far: Tree): (t: Tree)
    ensures t.Fork? && t.ref == ref && t.color == color && t.item == item
    ensures Kid(t, d) == near && Kid(t, 1 - d) == far
    ensures Nodes(t) == {ref} + Nodes(near) + Nodes(far)
    ensures Distinct(t) <==>
              ref !in Nodes(near) && ref !in Nodes(far) && Nodes(near) !! Nodes(far) && Distinct(near) && Distinct(far)
  {
    if d == 0 then Fork(ref, color, item, near, far) else Fork(ref, color, item, far, near)
  }

  function Kid(t: Tree, d: Dir): Tree
    requires t.Fork?
  {
    if d == 0 then t.left else t.right
  }

  function Ref(t: Tree): RbNode? {
    if t.Leaf? then null else t.ref
  }

  /** A null link counts as black wherever the source tests a colour. */
  function Col(t: Tree): Color {
    if t.Leaf? then Black else t.color
  }

  function Paint(t: Tree, c: Color): (p: Tree)
    ensures Ref(p) == Ref(t) && Nodes(p) == Nodes(t) && InOrder(p) == InOrder(t)
    ensures Distinct(p) <==> Distinct(t)
  {
    if t.Leaf? then Leaf else t.(color := c)
  }

  function Nodes(t: Tree): set<RbNode> {
    if t.Leaf? then {} else {t.ref} + Nodes(t.left) + Nodes(t.right)
  }

  /** No node occurs at two positions. */
  ghost predicate Distinct(t: Tree) {
    t.Fork? ==>
      && t.ref !in Nodes(t.left) && t.ref !in Nodes(t.right) && Nodes(t.left) !! Nodes(t.right)
      && Distinct(t.left) && Distinct(t.right)
  }

  function InOrder(t: Tree): seq<Item> {
    if t.Leaf? then [] else InOrder(t.left) + [t.item] + InOrder(t.right)
  }

  function Size(t: Tree): nat {
    if t.Leaf? then 0 else Size(t.left) + 1 + Size(t.right)
  }

  function Height(t: Tree): nat {
    if t.Leaf? then 0
    else if Height(t.left) < Height(t.right) then 1 + Height(t.right) else 1 + Height(t.left)
  }

  /** The subtree to which a search for key turns. */
  function Toward(t: Tree, key: Key): Tree
    requires t.Fork?
  {
    if key < t.item.key then t.left else t.right
  }

  /** The stack pointer with which a search for key ends: entry 0 is the header's, and the
      search pushes every node at which it turns. */
  function Pointer(t: Tree, key: Key): (p: nat)
    ensures p > 0
  {
    if t.Leaf? || key == t.item.key then 1 else 1 + Pointer(Toward(t, key), key)
  }

  /** The item that a search for key comes upon, whatever the order of the keys. */
  function Sought(t: Tree, key: Key): Item? {
    if t.Leaf? then null else if key == t.item.key then t.item else Sought(Toward(t, key), key)
  }

  lemma {:induction false} SoughtIsThere(t: Tree, key: Key)
    requires Sought(t, key) != null
    ensures Sought(t, key).key == key && Sought(t, key) in InOrder(t)
  {
    if key != t.item.key {
      SoughtIsThere(Toward(t, key), key);
    }
  }

  /** When the keys ascend, a search comes upon the key if and only if it is there. */
  lemma {:induction false} SoughtInOrder(t: Tree, key: Key)
    requires Ascending(InOrder(t))
    ensures Sought(t, key) == null <==> Absent(InOrder(t), key)
  {
    if t.Fork? {
      var l, r := InOrder(t.left), InOrder(t.right);
      AscendingParts(l, t.item, r, key);
      if key != t.item.key {
        SoughtInOrder(Toward(t, key), key);
      }
    }
  }

  lemma AscendingParts(l: seq<Item>, x: Item, r: seq<Item>, key: Key)
    requires Ascending(l + [x] + r)
    ensures Ascending(l) && Ascending(r) && (key == x.key ==> !Absent(l + [x] + r, key))
    ensures key < x.key ==> (Absent(l + [x] + r, key) <==> Absent(l, key))
    ensures x.key < key ==> (Absent(l + [x] + r, key) <==> Absent(r, key))
  {
    var s := l + [x] + r;
    assert s[|l|] == x;
    assert forall i | 0 <= i < |l| :: s[i] == l[i];
    assert forall j | 0 <= j < |r| :: s[|l| + 1 + j] == r[j];
  }

  /** How far the stack pointer of rb_delete, which stands at 1 above f, goes beyond that when
      f is the node that leaves the tree and sib the colour of its sibling: case 1 pushes one
      more entry. */
  function LeafReach(f: Tree, sib: Color): (p: nat)
    requires f.Fork?
    ensures p > 0
  {
    if f.color == Black && f.left.Leaf? && f.right.Leaf? && sib == Red then 2 else 1
  }

  /** On the way to the leftmost node of f. */
  function LeftReach(f: Tree, sib: Color): (p: nat)
    requires f.Fork?
    ensures p > 0
  {
    if f.left.Leaf? then LeafReach(f, sib) else 1 + LeftReach(f.left, Col(f.right))
  }

  /** When f holds the item to remove. */
  function FoundReach(f: Tree, sib: Color): (p: nat)
    requires f.Fork?
    ensures p > 0
  {
    if f.left.Leaf? || f.right.Leaf? then LeafReach(f, sib) else 1 + LeftReach(f.right, Col(f.left))
  }

  /** How many entries of its stacks rb_delete uses for a key: the search, the way to the
      successor, and case 1. */
  function Reach(t: Tree, sib: Color, key: Key): (p: nat)
    ensures p > 0
  {
    if t.Leaf? then 1
    else if key == t.item.key then FoundReach(t, sib)
    else 1 + Reach(Toward(t, key), Col(if key < t.item.key then t.right else t.left), key)
  }

  lemma {:induction false} LeftReachBelowHeight(f: Tree, sib: Color)
    requires f.Fork?
    ensures LeftReach(f, sib) <= Height(f) + 1
  {
    if f.left.Fork? {
      LeftReachBelowHeight(f.left, Col(f.right));
    }
  }

  lemma {:induction false} ReachBelowHeight(t: Tree, sib: Color, key: Key)
    ensures Pointer(t, key) <= Reach(t, sib, key) <= Height(t) + 1
  {
    if t.Fork? {
      if key != t.item.key {
        ReachBelowHeight(Toward(t, key), Col(if key < t.item.key then t.right else t.left), key);
      } else if t.left.Fork? && t.right.Fork? {
        LeftReachBelowHeight(t.right, Col(t.left));
      }
    }
  }

  lemma {:induction false} PointerBelowHeight(t: Tree, key: Key)
    ensures Pointer(t, key) <= Height(t) + 1
  {
    if t.Fork? && key != t.item.key {
      PointerBelowHeight(Toward(t, key), key);
    }
  }

  lemma {:induction false} SizeIsLength(t: Tree)
    ensures Size(t) == |InOrder(t)|
  {
    if t.Fork? {
      SizeIsLength(t.left);
      SizeIsLength(t.right);
    }
  }

  lemma {:induction false} DistinctCount(t: Tree)
    requires Distinct(t)
    ensures |Nodes(t)| == Size(t)
  {
    if t.Fork? {
      DistinctCount(t.left);
      DistinctCount(t.right);
      assert |{t.ref} + Nodes(t.left)| == 1 + |Nodes(t.left)|;
    }
  }

  // ---------- The red-black invariant ----------

  /** Every path from t down to a null link meets n black nodes. */
  predicate Balanced(t: Tree, n: nat) {
    if t.Leaf? then n == 0
    else if t.color == Red then Balanced(t.left, n) && Balanced(t.right, n)
    else n > 0 && Balanced(t.left, n - 1) && Balanced(t.right, n - 1)
  }

  /** No red node has a red child. */
  predicate NoRedRed(t: Tree) {
    t.Fork? ==>
      && (t.color == Red ==> Col(t.left) == Black && Col(t.right) == Black)
      && NoRedRed(t.left) && NoRedRed(t.right)
  }

  function BlackHeight(t: Tree): nat {
    if t.Leaf? then 0 else BlackHeight(t.left) + (if t.color == Black then 1 else 0)
  }

  /** Keys strictly ascend. */
  ghost predicate Ascending(s: seq<Item>) {
    forall i, j | 0 <= i < j < |s| :: s[i].key < s[j].key
  }

  ghost predicate Absent(s: seq<Item>, key: Key) {
    forall i | 0 <= i < |s| :: s[i].key != key
  }

  /** s' is s with x put in. */
  ghost predicate Inserted(s: seq<Item>, x: Item, s': seq<Item>) {
    exists i | 0 <= i <= |s| :: s' == s[..i] + [x] + s[i..]
  }

  /** s' is s with x taken out. */
  ghost predicate Removed(s: seq<Item>, x: Item, s': seq<Item>) {
    exists i | 0 <= i < |s| :: s[i] == x && s' == s[..i] + s[i + 1..]
  }

  /** Red-black but for the order of the keys. */
  predicate Shaped(t: Tree) {
    Col(t) == Black && NoRedRed(t) && Balanced(t, BlackHeight(t))
  }

  ghost predicate RedBlack(t: Tree) {
    Shaped(t) && Ascending(InOrder(t))
  }

  lemma {:induction false} BalancedIsBlackHeight(t: Tree, n: nat)
    requires Balanced(t, n)
    ensures n == BlackHeight(t)
  {
    if t.Fork? {
      BalancedIsBlackHeight(t.left, if t.color == Red then n else n - 1);
    }
  }

  // ---------- Keys between bounds ----------

  ghost predicate Within(s: seq<Item>, ge: int, le: int) {
    forall i | 0 <= i < |s| :: ge <= s[i].key <= le
  }

  ghost predicate Ordered(s: seq<Item>, ge: int, le: int) {
    Ascending(s) && Within(s, ge, le)
  }

  lemma OrderSplits(l: seq<Item>, x: Item, r: seq<Item>, ge: int, le: int)
    requires Ordered(l + [x] + r, ge, le)
    ensures ge <= x.key <= le && Ordered(l, ge, x.key - 1) && Ordered(r, x.key + 1, le)
  {
    var s := l + [x] + r;
    assert s[|l|] == x;
    forall i | 0 <= i < |l| ensures s[i] == l[i] && ge <= l[i].key < x.key {
      assert s[i].key < s[|l|].key;
    }
    forall i | 0 <= i < |r| ensures s[|l| + 1 + i] == r[i] && x.key < r[i].key <= le {
      assert s[|l|].key < s[|l| + 1 + i].key;
    }
    forall i, j | 0 <= i < j < |r| ensures r[i].key < r[j].key {
      assert s[|l| + 1 + i].key < s[|l| + 1 + j].key;
    }
  }

  lemma OrderJoins(l: seq<Item>, x: Item, r: seq<Item>, ge: int, le: int)
    requires ge <= x.key <= le && Ordered(l, ge, x.key - 1) && Ordered(r, x.key + 1, le)
    ensures Ordered(l + [x] + r, ge, le)
  {
    var s := l + [x] + r;
    assert forall i | 0 <= i < |s| :: s[i] == if i < |l| then l[i] else if i == |l| then x else r[i - |l| - 1];
  }

  // ---------- The heap as a value ----------

  datatype Cell = Cell(color: Color, data: Item, link: Links)

  type Store = map<RbNode, Cell>

  ghost function Image(S: set<RbNode>): (m: Store)
    reads S
  {
    map n | n in S :: Cell(n.color, n.data, n.link)
  }

  /** The nodes of t are linked, coloured and filled in the store as t says. */
  ghost predicate Holds(m: Store, t: Tree) {
    t.Fork? ==>
      && t.ref in m && m[t.ref] == Cell(t.color, t.item, Links(Ref(t.left), Ref(t.right)))
      && Holds(m, t.left) && Holds(m, t.right)
  }

  /** From m to k, only cells of X change; cells may be added. */
  ghost predicate OnlyAt(m: Store, k: Store, X: set<RbNode>) {
    forall n | n in m && n !in X :: n in k && k[n] == m[n]
  }

  lemma {:induction false} Keep(m: Store, k: Store, X: set<RbNode>, t: Tree)
    requires Holds(m, t) && OnlyAt(m, k, X) && Nodes(t) !! X
    ensures Holds(k, t)
  {
    if t.Fork? {
      Keep(m, k, X, t.left);
      Keep(m, k, X, t.right);
    }
  }

  lemma {:induction false} HeldNodes(m: Store, t: Tree)
    requires Holds(m, t)
    ensures Nodes(t) <= m.Keys
  {
    if t.Fork? {
      HeldNodes(m, t.left);
      HeldNodes(m, t.right);
    }
  }

  /** A store determines the tree hanging from a link. */
  lemma {:induction false} HeldTreeIsUnique(m: Store, t: Tree, u: Tree)
    requires Holds(m, t) && Holds(m, u) && Ref(t) == Ref(u)
    ensures t == u
  {
    if t.Fork? {
      HeldTreeIsUnique(m, t.left, u.left);
      HeldTreeIsUnique(m, t.right, u.right);
    }
  }

  /** What one node says about the tree that hangs from it. */
  lemma ReadNode(S: set<RbNode>, f: Tree)
    requires Holds(Image(S), f) && f.Fork?
    ensures f.ref in S && f.ref.data == f.item && f.ref.color == f.color
    ensures f.ref.link == Links(Ref(f.left), Ref(f.right)) && Holds(Image(S), f.left) && Holds(Image(S), f.right)
    ensures Height(f.left) < Height(f) && Height(f.right) < Height(f)
  {
    assert f.ref in Image(S);
  }

  /** Exactly the empty tree hangs from a null link. */
  lemma RefNull(x: RbNode?, f: Tree)
    requires x == Ref(f)
    ensures x == null <==> f == Leaf
    ensures f.Fork? ==> x == f.ref
    ensures f == Leaf ==> InOrder(f) == [] && Size(f) == 0
  {
  }

  lemma Shift<T>(a: seq<T>, x: T, b: seq<T>)
    ensures a + ([x] + b) == (a + [x]) + b
  {
  }
}
