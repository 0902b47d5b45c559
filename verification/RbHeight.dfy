/** How high a red-black tree can be, and what RB_MAX_HEIGHT (include/rb.h:28-34) is
    worth.  The stacks of common/rb.c have RB_MAX_HEIGHT entries, and rb_probe and
    rb_delete use entry 0 for the header, so they need Height(t) < RB_MAX_HEIGHT. */
module RbHeight {
  import opened RbNodes

  function Pow2(n: nat): (p: nat)
    ensures p > 0
  {
    if n == 0 then 1 else 2 * Pow2(n - 1)
  }

  lemma {:induction false} Pow2Monotone(a: nat, b: nat)
    requires a <= b
    ensures Pow2(a) <= Pow2(b)
  {
    if a < b {
      Pow2Monotone(a, b - 1);
    }
  }

  /** A tree of black height n is at least a full tree of height n. */
  lemma {:induction false} FullBelow(t: Tree, n: nat)
    requires Balanced(t, n)
    ensures Size(t) + 1 >= Pow2(n)
  {
    if t.Fork? {
      var k := if t.color == Red then n else n - 1;
      FullBelow(t.left, k);
      FullBelow(t.right, k);
    }
  }

  /** The least number of nodes of a red-black tree with a root of colour c, black
      height n and height h.  A path with n black nodes and h - n red ones forces full
      trees beside it. */
  function Least(c: Color, n: nat, h: nat): int
    requires if c == Black then n <= h else n < h
  {
    if c == Black then Pow2(n) + Pow2(h - n) - 2 else Pow2(n + 1) + Pow2(h - n - 1) - 2
  }

  predicate Possible(c: Color, n: nat, h: nat) {
    if c == Black then n <= h <= 2 * n else n < h <= 2 * n + 1
  }

  /** The higher child and a full tree of its black height force the parent's bound. */
  lemma LeastStep(c: Color, n: nat, h: nat, c': Color, n': nat, size: nat)
    requires h > 0 && Possible(c', n', h - 1) && size + 1 >= Least(c', n', h - 1) + Pow2(n') + 1
    requires if c == Red then c' == Black && n' == n else n' + 1 == n
    ensures Possible(c, n, h) && size >= Least(c, n, h)
  {
    if c == Black && c' == Red {
      Pow2Monotone(h - n - 1, n - 1);
      assert Pow2(h - n) == 2 * Pow2(h - n - 1);
    }
  }

  lemma {:induction false} LeastSize(t: Tree, n: nat)
    requires Balanced(t, n) && NoRedRed(t)
    ensures Possible(Col(t), n, Height(t)) && Size(t) >= Least(Col(t), n, Height(t))
  {
    if t.Fork? {
      var k := if t.color == Red then n else n - 1;
      LeastSize(t.left, k);
      LeastSize(t.right, k);
      FullBelow(t.left, k);
      FullBelow(t.right, k);
      var high := if Height(t.left) < Height(t.right) then t.right else t.left;
      LeastStep(t.color, n, Height(t), Col(high), k, Size(t));
    }
  }

  /** The first size at which a stack may be too small. */
  const FIRST_UNSAFE_SIZE: nat := 131_070

  lemma Pow2Values()
    ensures Pow2(16) == 65_536 && Pow2(17) == 131_072
  {
    assert Pow2(4) == 16;
    assert Pow2(8) == 256;
    assert Pow2(12) == 4096;
    assert Pow2(16) == 65_536;
  }

  /** Up to 131,069 nodes, and so up to the 65,535 that include/rb.h promises, the stacks
      are large enough, in whatever order the nodes came. */
  lemma SmallTreesFit(t: Tree)
    requires Shaped(t) && Size(t) < FIRST_UNSAFE_SIZE
    ensures Height(t) < RB_MAX_HEIGHT
  {
    LeastSize(t, BlackHeight(t));
    Pow2Values();
    if Height(t) >= RB_MAX_HEIGHT {
      if BlackHeight(t) >= 17 {
        Pow2Monotone(17, BlackHeight(t));
      }
    }
  }

  // ---------- Trees of least size ----------

  /** A node to be and the item it is to hold. */
  datatype Slot = Slot(ref: RbNode, item: Item)

  /** The nodes of t with their items, in order. */
  function Slots(t: Tree): seq<Slot> {
    if t.Leaf? then [] else Slots(t.left) + [Slot(t.ref, t.item)] + Slots(t.right)
  }

  /** A full tree of black nodes over the slots s. */
  function Full(n: nat, s: seq<Slot>): (t: Tree)
    requires |s| + 1 == Pow2(n)
    ensures Balanced(t, n) && NoRedRed(t) && Col(t) == Black && Height(t) == n
    ensures Slots(t) == s
  {
    if n == 0 then Leaf
    else
      var h := Pow2(n - 1) - 1;
      var t := Fork(s[h].ref, Black, s[h].item, Full(n - 1, s[..h]), Full(n - 1, s[h + 1..]));
      assert s[..h] + [s[h]] + s[h + 1..] == s;
      t
  }

  /** How many nodes lie above the leftmost null link. */
  function LeftDepth(t: Tree): nat {
    if t.Leaf? then 0 else 1 + LeftDepth(t.left)
  }

  /** What hangs below the root of a thin tree on its high side. */
  function ThinKid(c: Color, n: nat, h: nat): (p: (Color, nat))
    requires h > 0 && Possible(c, n, h)
    ensures Possible(p.0, p.1, h - 1) && (if c == Red then p.0 == Black && p.1 == n else p.1 + 1 == n)
    ensures 0 <= Least(p.0, p.1, h - 1) && Least(p.0, p.1, h - 1) + Pow2(p.1) == Least(c, n, h)
  {
    if c == Red then (Black, n) else if h < 2 * n then (Black, n - 1) else (Red, n - 1)
  }

  /** A red-black tree over the slots s with root colour c, black height n, height h and no
      node to spare: the high path on the left, full trees beside it. */
  function Thin(c: Color, n: nat, h: nat, s: seq<Slot>): (t: Tree)
    requires Possible(c, n, h) && |s| == Least(c, n, h)
    ensures Col(t) == c
    decreases h
  {
    if h == 0 then Leaf
    else
      var p := ThinKid(c, n, h);
      var i := Least(p.0, p.1, h - 1);
      var high, full := Thin(p.0, p.1, h - 1, s[..i]), Full(p.1, s[i + 1..]);
      Fork(s[i].ref, c, s[i].item, high, full)
  }

  lemma ThinIsFork(c: Color, n: nat, h: nat, s: seq<Slot>) returns (p: (Color, nat), i: nat)
    requires h > 0 && Possible(c, n, h) && |s| == Least(c, n, h)
    ensures p == ThinKid(c, n, h) && i == Least(p.0, p.1, h - 1) < |s|
    ensures Possible(p.0, p.1, h - 1) && |s[i + 1..]| + 1 == Pow2(p.1)
    ensures Thin(c, n, h, s) == Fork(s[i].ref, c, s[i].item, Thin(p.0, p.1, h - 1, s[..i]), Full(p.1, s[i + 1..]))
  {
    hide Least, Pow2, Full, ThinKid;
    p := ThinKid(c, n, h);
    i := Least(p.0, p.1, h - 1);
  }

  lemma ThinIsLeaf(c: Color, n: nat, s: seq<Slot>)
    requires Possible(c, n, 0) && |s| == Least(c, n, 0)
    ensures n == 0 && s == [] && Thin(c, n, 0, s) == Leaf
  {
  }

  lemma {:induction false} ThinShape(c: Color, n: nat, h: nat, s: seq<Slot>)
    requires Possible(c, n, h) && |s| == Least(c, n, h)
    ensures var t := Thin(c, n, h, s);
            Balanced(t, n) && NoRedRed(t) && Height(t) == h && LeftDepth(t) == h
    decreases h
  {
    hide Possible, Least, ThinKid, Thin, Full, Pow2, Slots;
    if h > 0 {
      var p, i := ThinIsFork(c, n, h, s);
      ThinShape(p.0, p.1, h - 1, s[..i]);
      ThinJoins(c, n, h, p, s[i], Thin(p.0, p.1, h - 1, s[..i]), Full(p.1, s[i + 1..]));
    } else {
      ThinIsLeaf(c, n, s);
    }
  }

  lemma ThinJoins(c: Color, n: nat, h: nat, p: (Color, nat), x: Slot, high: Tree, full: Tree)
    requires h > 0 && Possible(c, n, h) && p == ThinKid(c, n, h)
    requires Balanced(high, p.1) && NoRedRed(high) && Col(high) == p.0 && Height(high) == h - 1 && LeftDepth(high) == h - 1
    requires Balanced(full, p.1) && NoRedRed(full) && Col(full) == Black && Height(full) == p.1
    ensures var t := Fork(x.ref, c, x.item, high, full);
            Balanced(t, n) && NoRedRed(t) && Height(t) == h && LeftDepth(t) == h
  {
  }

  lemma {:induction false} ThinSlots(c: Color, n: nat, h: nat, s: seq<Slot>)
    requires Possible(c, n, h) && |s| == Least(c, n, h)
    ensures Slots(Thin(c, n, h, s)) == s
    decreases h
  {
    hide Possible, Least, ThinKid, Thin, Full, Pow2;
    if h > 0 {
      var p, i := ThinIsFork(c, n, h, s);
      ThinSlots(p.0, p.1, h - 1, s[..i]);
      Around(Thin(p.0, p.1, h - 1, s[..i]), Full(p.1, s[i + 1..]), c, s, i);
    } else {
      ThinIsLeaf(c, n, s);
    }
  }

  lemma Around(l: Tree, r: Tree, c: Color, s: seq<Slot>, i: nat)
    requires i < |s| && Slots(l) == s[..i] && Slots(r) == s[i + 1..]
    ensures Slots(Fork(s[i].ref, c, s[i].item, l, r)) == s
  {
    assert s[..i] + [s[i]] + s[i + 1..] == s;
  }

  /** The slots have different nodes, and their keys ascend. */
  ghost predicate Usable(s: seq<Slot>) {
    forall i, j | 0 <= i < j < |s| :: s[i].ref != s[j].ref && s[i].item.key < s[j].item.key
  }

  lemma {:induction false} SlotsItems(t: Tree)
    ensures |Slots(t)| == |InOrder(t)| && forall i | 0 <= i < |Slots(t)| :: Slots(t)[i].item == InOrder(t)[i]
  {
    if t.Fork? {
      SlotsItems(t.left);
      SlotsItems(t.right);
    }
  }

  predicate HasRef(s: seq<Slot>, r: RbNode) {
    exists i | 0 <= i < |s| :: s[i].ref == r
  }

  lemma AnyRef(l: seq<Slot>, x: Slot, u: seq<Slot>, r: RbNode)
    ensures HasRef(l + [x] + u, r) <==> x.ref == r || HasRef(l, r) || HasRef(u, r)
  {
    var s := l + [x] + u;
    assert forall i | 0 <= i < |l| :: s[i] == l[i];
    assert forall i | 0 <= i < |u| :: s[|l| + 1 + i] == u[i];
    assert s[|l|] == x;
  }

  lemma {:induction false} SlotsNodes(t: Tree, r: RbNode)
    ensures r in Nodes(t) <==> HasRef(Slots(t), r)
  {
    if t.Fork? {
      SlotsNodes(t.left, r);
      SlotsNodes(t.right, r);
      AnyRef(Slots(t.left), Slot(t.ref, t.item), Slots(t.right), r);
      assert HasRef(Slots(t), r) <==> t.ref == r || HasRef(Slots(t.left), r) || HasRef(Slots(t.right), r);
    }
  }

  lemma UsableParts(l: seq<Slot>, x: Slot, r: seq<Slot>)
    requires Usable(l + [x] + r)
    ensures Usable(l) && Usable(r)
    ensures forall i | 0 <= i < |l| :: l[i].ref != x.ref
    ensures forall j | 0 <= j < |r| :: r[j].ref != x.ref
    ensures forall i, j | 0 <= i < |l| && 0 <= j < |r| :: l[i].ref != r[j].ref
  {
    var s := l + [x] + r;
    assert forall i | 0 <= i < |l| :: s[i] == l[i];
    assert forall j | 0 <= j < |r| :: s[|l| + 1 + j] == r[j];
    assert s[|l|] == x;
  }

  lemma {:induction false} UsableDistinct(t: Tree)
    requires Usable(Slots(t))
    ensures Distinct(t)
  {
    if t.Fork? {
      UsableParts(Slots(t.left), Slot(t.ref, t.item), Slots(t.right));
      UsableDistinct(t.left);
      UsableDistinct(t.right);
      SlotsNodes(t.left, t.ref);
      SlotsNodes(t.right, t.ref);
      forall r | r in Nodes(t.left) ensures r !in Nodes(t.right) {
        SlotsNodes(t.left, r);
        SlotsNodes(t.right, r);
      }
    }
  }

  /** The least size is attained: whatever the nodes and the ascending keys, they make up a
      tree of the given colour, black height and height. */
  lemma LeastIsAttained(c: Color, n: nat, h: nat, s: seq<Slot>) returns (t: Tree)
    requires Possible(c, n, h) && |s| == Least(c, n, h) && Usable(s)
    ensures Balanced(t, n) && NoRedRed(t) && Col(t) == c && Height(t) == h && Size(t) == Least(c, n, h)
    ensures t == Thin(c, n, h, s) && Slots(t) == s
    ensures Distinct(t) && Ascending(InOrder(t)) && LeftDepth(t) == h
  {
    t := Thin(c, n, h, s);
    ThinShape(c, n, h, s);
    ThinSlots(c, n, h, s);
    UsableDistinct(t);
    SlotsItems(t);
    SizeIsLength(t);
  }

  lemma {:induction false} LeftmostPointer(t: Tree, key: Key)
    requires forall i | 0 <= i < |InOrder(t)| :: key < InOrder(t)[i].key
    ensures Pointer(t, key) == LeftDepth(t) + 1
  {
    if t.Fork? {
      assert InOrder(t)[|InOrder(t.left)|] == t.item;
      assert forall i | 0 <= i < |InOrder(t.left)| :: InOrder(t.left)[i] == InOrder(t)[i];
      LeftmostPointer(t.left, key);
    }
  }

  /** The bound is sharp: of any 131,070 nodes with ascending keys above 0 there is a
      red-black tree in which the search for 0 ends with a stack pointer of 33, having
      written entry 32 of stacks that end with entry 31. */
  lemma BoundIsSharp(s: seq<Slot>) returns (t: Tree)
    requires |s| == FIRST_UNSAFE_SIZE && Usable(s) && s[0].item.key > 0
    ensures Least(Black, 16, 32) == FIRST_UNSAFE_SIZE && t == Thin(Black, 16, 32, s)
    ensures RedBlack(t) && Distinct(t) && Slots(t) == s && Size(t) == FIRST_UNSAFE_SIZE
    ensures Height(t) == RB_MAX_HEIGHT && Pointer(t, 0) == RB_MAX_HEIGHT + 1
  {
    hide *;
    SharpSize();
    t := LeastIsAttained(Black, 16, 32, s);
    IsRedBlack(t, 16);
    PositiveKeys(t, s);
    LeftmostPointer(t, 0);
  }

  lemma SharpSize()
    ensures Possible(Black, 16, 32) && Least(Black, 16, 32) == FIRST_UNSAFE_SIZE == 131_070
    ensures RB_MAX_HEIGHT == 32 && 2 * FIRST_UNSAFE_SIZE + 1 < KEY_MODULUS
  {
    Pow2Values();
  }

  lemma IsRedBlack(t: Tree, n: nat)
    requires Balanced(t, n) && NoRedRed(t) && Col(t) == Black && Ascending(InOrder(t))
    ensures RedBlack(t)
  {
    BalancedIsBlackHeight(t, n);
  }

  lemma PositiveKeys(t: Tree, s: seq<Slot>)
    requires Slots(t) == s && s != [] && Usable(s) && s[0].item.key > 0
    ensures forall i | 0 <= i < |InOrder(t)| :: 0 < InOrder(t)[i].key
  {
    SlotsItems(t);
    forall i | 0 <= i < |InOrder(t)| ensures 0 < InOrder(t)[i].key {
      assert i > 0 ==> s[0].item.key < s[i].item.key;
    }
  }

  // ---------- Which searches fit ----------

  /** A null link of t below d nodes, at which a search for a key between ge and le can
      end: between the keys next to it there is room for another. */
  predicate OpenLink(t: Tree, ge: int, le: int, d: nat) {
    if t.Leaf? then d == 0 && ge <= le
    else d > 0 && (OpenLink(t.left, ge, t.item.key - 1, d - 1) || OpenLink(t.right, t.item.key + 1, le, d - 1))
  }

  /** A search for a key that t lacks ends at an open link. */
  lemma {:induction false} SearchEndsOpen(t: Tree, ge: int, le: int, key: Key)
    requires ge <= key <= le && Pointer(t, key) > Height(t)
    ensures Pointer(t, key) == Height(t) + 1 && OpenLink(t, ge, le, Height(t))
  {
    PointerBelowHeight(t, key);
    if t.Fork? {
      PointerBelowHeight(Toward(t, key), key);
      if key < t.item.key {
        SearchEndsOpen(t.left, ge, t.item.key - 1, key);
      } else {
        SearchEndsOpen(t.right, t.item.key + 1, le, key);
      }
    }
  }

  /** Some search ends at every open link. */
  lemma {:induction false} OpenLinkReached(t: Tree, ge: int, le: int, d: nat) returns (key: Key)
    requires 0 <= ge && le < KEY_MODULUS && Ordered(InOrder(t), ge, le) && OpenLink(t, ge, le, d)
    ensures ge <= key <= le && Pointer(t, key) == d + 1
  {
    if t.Leaf? {
      key := ge;
    } else {
      var k: int := t.item.key;
      OrderSplits(InOrder(t.left), t.item, InOrder(t.right), ge, le);
      if OpenLink(t.left, ge, k - 1, d - 1) {
        key := OpenLinkReached(t.left, ge, k - 1, d - 1);
      } else {
        key := OpenLinkReached(t.right, k + 1, le, d - 1);
      }
    }
  }

  /** The search for a key at the greatest depth passes all nodes above it. */
  lemma {:induction false} DeepestKey(t: Tree, ge: int, le: int) returns (key: Key)
    requires t.Fork? && Ordered(InOrder(t), ge, le)
    ensures ge <= key <= le && Pointer(t, key) == Height(t)
  {
    OrderSplits(InOrder(t.left), t.item, InOrder(t.right), ge, le);
    if t.left == Leaf && t.right == Leaf {
      key := t.item.key;
    } else if Height(t.left) < Height(t.right) {
      key := DeepestKey(t.right, t.item.key + 1, le);
    } else {
      key := DeepestKey(t.left, ge, t.item.key - 1);
    }
  }

  lemma {:induction false} OpenLinkHeight(t: Tree, ge: int, le: int, d: nat)
    requires OpenLink(t, ge, le, d)
    ensures d <= Height(t)
  {
    if t.Fork? {
      if OpenLink(t.left, ge, t.item.key - 1, d - 1) {
        OpenLinkHeight(t.left, ge, t.item.key - 1, d - 1);
      } else {
        OpenLinkHeight(t.right, t.item.key + 1, le, d - 1);
      }
    }
  }

  /** The searches for all keys stay within a stack of size entries if and only if the tree
      is at most that high and no link below size nodes is open.  With RB_MAX_HEIGHT for
      size: a tree of height 32 fits only when its deepest links lie between adjacent keys,
      so neither the 131,070 nodes of BoundIsSharp nor the 4,294,967,295 nodes of the
      comment in include/rb.h do. */
  lemma SearchesFit(t: Tree, size: nat)
    requires Ascending(InOrder(t)) && size > 0
    ensures (forall key: Key :: Pointer(t, key) <= size) <==>
            Height(t) <= size && !OpenLink(t, 0, KEY_MODULUS - 1, size)
  {
    var ge, le := 0, KEY_MODULUS - 1;
    assert Ordered(InOrder(t), ge, le);
    if Height(t) <= size && !OpenLink(t, ge, le, size) {
      forall key: Key ensures Pointer(t, key) <= size {
        PointerBelowHeight(t, key);
        if Pointer(t, key) > size {
          SearchEndsOpen(t, ge, le, key);
        }
      }
    }
    if Height(t) > size {
      var key := DeepestKey(t, ge, le);
      assert !(Pointer(t, key) <= size);
    } else if OpenLink(t, ge, le, size) {
      var key := OpenLinkReached(t, ge, le, size);
      assert !(Pointer(t, key) <= size);
    }
  }

  /** No two keys are adjacent, and there is room at both ends of the range. */
  ghost predicate Gapped(s: seq<Item>, ge: int, le: int) {
    && ge <= le && (forall i | 0 <= i < |s| :: ge < s[i].key < le)
    && forall i, j | 0 <= i < j < |s| :: s[i].key + 1 < s[j].key
  }

  lemma GappedParts(l: seq<Item>, x: Item, r: seq<Item>, ge: int, le: int)
    requires Gapped(l + [x] + r, ge, le)
    ensures Gapped(l, ge, x.key - 1) && Gapped(r, x.key + 1, le)
  {
    var s := l + [x] + r;
    assert s[|l|] == x;
    assert forall i | 0 <= i < |l| :: s[i] == l[i];
    assert forall j | 0 <= j < |r| :: s[|l| + 1 + j] == r[j];
  }

  lemma {:induction false} GappedIsOpen(t: Tree, ge: int, le: int)
    requires Gapped(InOrder(t), ge, le)
    ensures OpenLink(t, ge, le, Height(t))
  {
    if t.Fork? {
      GappedParts(InOrder(t.left), t.item, InOrder(t.right), ge, le);
      GappedIsOpen(t.left, ge, t.item.key - 1);
      GappedIsOpen(t.right, t.item.key + 1, le);
    }
  }

  /** With gaps between the keys, the searches fit if and only if the tree is lower than
      the stack is long. */
  lemma GappedSearchesFit(t: Tree, size: nat)
    requires Ascending(InOrder(t)) && size > 0 && Gapped(InOrder(t), 0, KEY_MODULUS - 1)
    ensures (forall key: Key :: Pointer(t, key) <= size) <==> Height(t) < size
  {
    SearchesFit(t, size);
    GappedIsOpen(t, 0, KEY_MODULUS - 1);
    if OpenLink(t, 0, KEY_MODULUS - 1, size) {
      OpenLinkHeight(t, 0, KEY_MODULUS - 1, size);
    }
  }

  /** While the stacks suffice, the C int that counts the nodes does not overflow. */
  lemma {:induction false} SizeBelowPow2(t: Tree)
    ensures Size(t) < Pow2(Height(t))
  {
    if t.Fork? {
      SizeBelowPow2(t.left);
      SizeBelowPow2(t.right);
      Pow2Monotone(Height(t.left), Height(t) - 1);
      Pow2Monotone(Height(t.right), Height(t) - 1);
    }
  }

  lemma CountFitsInt(t: Tree)
    requires Height(t) < RB_MAX_HEIGHT
    ensures Size(t) <= 0x7fff_ffff
  {
    SizeBelowPow2(t);
    Pow2Monotone(Height(t), 31);
    Pow2Values();
    assert Pow2(20) == 16 * Pow2(16) && Pow2(24) == 16 * Pow2(20) && Pow2(28) == 16 * Pow2(24);
  }
}
