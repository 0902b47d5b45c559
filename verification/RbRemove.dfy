/** rb_delete, common/rb.c:549-765, on heap nodes: the search, the unlinking of a node
    and the call of the fixup loop.

    The node that is unlinked is the one with the item, or its successor when it has two
    children.  On the way to the successor the path on the stacks already reads as it will
    when the successor's item has moved up: Seeking speaks of the store that the heap will
    be by then.  Spliced says what is left afterwards: a whole tree, or one that is a black
    node short at the top of the stacks.  How many entries of the stacks this takes is
    RbNodes.Reach; nothing but where the search ends depends on the order of the keys. */
module RbRemove {
  import opened RbNodes
  import opened RbContext
  import opened RbDeleteSteps
  import opened RbHeap
  import opened RbFixup

  /** A node leaves: the store without its cell still holds everything else. */
  lemma Forget(m: Store, k: Store, y: RbNode, c: Ctx, f: Tree, root: RbNode, s: seq<Item>, N: set<RbNode>)
    requires Carries(m, c, f, root, s, N) && y !in N && OnlyAt(m, k, {y})
    ensures Carries(k, c, f, root, s, N)
  {
    KeepCtx(m, k, {y}, c, Ref(f));
    Keep(m, k, {y}, f);
  }

  /** f has a null link, and x is its other subtree. */
  predicate OneChild(f: Tree, x: Tree) {
    f.Fork? && ((f.left == Leaf && x == f.right) || (f.right == Leaf && x == f.left))
  }

  /** The root of the subtree at the end of the path gives way to its only child x. */
  lemma SpliceHeap(m: Store, k: Store, c: Ctx, f: Tree, x: Tree)
    requires Rep(m, c, f) && OneChild(f, x)
    requires OnlyAt(m, k, {LastRef(c)}) && LastRef(c) in m && LastRef(c) in k
    requires k[LastRef(c)] == m[LastRef(c)].(link := m[LastRef(c)].link.With(LastDir(c), Ref(x)))
    ensures Rep(k, c, x) && CtxNodes(c) + Nodes(x) == CtxNodes(c) + Nodes(f) - {f.ref}
  {
    Rehang(m, k, {LastRef(c)}, c, f.ref, Ref(x));
    Keep(m, k, {LastRef(c)}, x);
  }

  lemma SpliceSound(c: Ctx, f: Tree, x: Tree, n: nat)
    requires Sound(c, f, n) && OneChild(f, x)
    ensures f.color == Red ==> Sound(c, x, n)
    ensures f.color == Black ==> n > 0 && Deficit(c, x, n - 1)
  {
    CtxNoRedRedBlack(c, f.color);
    assert NoRedRed(x) && NoRedRed(Paint(x, Black));
  }

  /** Without the node y, whose place x takes, the subtree at the end of the path is
      whole if y was red and one black node short if it was black. */
  ghost predicate Spliced(m: Store, pa: array<RbNode>, a: array<Dir>, k: nat, x: RbNode?, y: Color,
                          c: Ctx, f: Tree, n: nat, root: RbNode, s: seq<Item>, N: set<RbNode>)
    reads pa, a
  {
    && Carries(m, c, f, root, s, N) && Stacked(pa, a, k, c) && x == Ref(f)
    && (if y == Red then Sound(c, f, n) else Deficit(c, f, n))
  }

  /** pa[k - 1]->link[a[k - 1]] = x (lines 607 and 628), then y is freed (lines 634 and 638). */
  method Splice(pa: array<RbNode>, a: array<Dir>, k: nat, x: RbNode?, ghost S: set<RbNode>,
                ghost c: Ctx, ghost f: Tree, ghost x': Tree, ghost n: nat, ghost root: RbNode, ghost s: seq<Item>)
    returns (ghost n': nat)
    requires Walking(Image(S), pa, a, k, Ref(f), c, f, n, root, s, S)
    requires OneChild(f, x') && x == Ref(x')
    modifies S
    ensures Spliced(Image(S - {f.ref}), pa, a, k, x, f.color, c, x', n', root,
                    CtxLeft(c) + InOrder(x') + CtxRight(c), S - {f.ref})
    ensures forall v | v in S :: v.color == old(v.color)
  {
    hide Rep, CtxLeft, CtxRight, InOrder, Sound, Deficit, Refs, Dirs;
    ghost var m := Image(S);
    StackLast(pa, a, k, c);
    SpliceSound(c, f, x', n);
    n' := if f.color == Red then n else n - 1;
    pa[k - 1].link := pa[k - 1].link.With(a[k - 1], x);
    SpliceHeap(m, Image(S), c, f, x');
    Forget(Image(S), Image(S - {f.ref}), f.ref, c, x', root, CtxLeft(c) + InOrder(x') + CtxRight(c), S - {f.ref});
  }

  /** Another item at the root of the subtree at the end of the path. */
  lemma Reitem(m: Store, c: Ctx, f: Tree, n: nat, root: RbNode, s: seq<Item>, N: set<RbNode>, item: Item)
    requires Carries(m, c, f, root, s, N) && Sound(c, f, n) && f.Fork?
    ensures Carries(m[f.ref := m[f.ref].(data := item)], c, f.(item := item), root, Whole(c, f.(item := item)), N)
    ensures Sound(c, f.(item := item), n)
  {
    var k := m[f.ref := m[f.ref].(data := item)];
    KeepCtx(m, k, {f.ref}, c, f.ref);
    Keep(m, k, {f.ref}, f.left);
    Keep(m, k, {f.ref}, f.right);
  }

  /** On the way to the successor of z: m is the store with z's data already replaced
      by item, the first item below y; l is what lies before it and r what lies from it on. */
  ghost predicate Seeking(m: Store, S: set<RbNode>, pa: array<RbNode>, a: array<Dir>, k: nat, y: RbNode?,
                          c: Ctx, f: Tree, n: nat, root: RbNode, s: seq<Item>, z: RbNode, item: Item, l: seq<Item>, r: seq<Item>)
    reads S, pa, a
  {
    && Walking(m, pa, a, k, y, c, f, n, root, s, S) && f.Fork?
    && z in CtxNodes(c) && OnlyAt(m, Image(S), {z}) && m.Keys == S
    && z in m && m[z] == Cell(z.color, item, z.link)
    && InOrder(f)[0] == item && CtxLeft(c) == l && InOrder(f) + CtxRight(c) == r
  }

  /** What the walk to the successor reads at y. */
  lemma SeekRead(m: Store, S: set<RbNode>, pa: array<RbNode>, a: array<Dir>, k: nat, y: RbNode,
                 c: Ctx, f: Tree, n: nat, root: RbNode, s: seq<Item>, z: RbNode, item: Item, l: seq<Item>, r: seq<Item>)
    requires Seeking(m, S, pa, a, k, y, c, f, n, root, s, z, item, l, r)
    ensures y == f.ref && y != z && y in m && y.link == m[y].link && y.color == f.color
    ensures y.link == Links(Ref(f.left), Ref(f.right)) && y.data == f.item
    ensures f.left == Leaf ==> f.item == item && OneChild(f, f.right)
    ensures f.left == Leaf && r != [] ==> CtxLeft(c) + InOrder(f.right) + CtxRight(c) == l + r[1..]
  {
    assert y in Image(S);
    if f.left == Leaf {
      assert InOrder(f) == [f.item] + InOrder(f.right);
      assert r == [f.item] + (InOrder(f.right) + CtxRight(c));
    }
  }

  lemma SeekLeft(c: Ctx, f: Tree, item: Item, l: seq<Item>, r: seq<Item>)
    requires f.Fork? && f.left.Fork? && InOrder(f)[0] == item && CtxLeft(c) == l && InOrder(f) + CtxRight(c) == r
    ensures CtxLeft(Down(c, f, 0)) == l && InOrder(f.left) != [] && InOrder(f.left)[0] == item
    ensures InOrder(f.left) + CtxRight(Down(c, f, 0)) == r
    ensures Height(f.left) < Height(f)
  {
    var u := InOrder(f.left);
    assert u + [f.item] + InOrder(f.right) + CtxRight(c) == u + ([f.item] + InOrder(f.right) + CtxRight(c));
  }

  /** Lines 611-615, first step: from z to its right child. */
  method SeekRight(pa: array<RbNode>, a: array<Dir>, k: nat, z: RbNode, ghost S: set<RbNode>,
                   ghost c: Ctx, ghost f: Tree, ghost n: nat, ghost root: RbNode, ghost s: seq<Item>)
    returns (y: RbNode, ghost m: Store, ghost c': Ctx, ghost f': Tree, ghost n': nat, ghost s': seq<Item>, ghost item: Item)
    requires Walking(Image(S), pa, a, k, z, c, f, n, root, s, S) && f.Fork? && f.left.Fork? && f.right.Fork?
    requires k < RB_MAX_HEIGHT
    modifies pa, a
    ensures item == InOrder(f.right)[0] && f' == f.right && SibCol(c') == Col(f.left)
    ensures Seeking(m, S, pa, a, k + 1, y, c', f', n', root, s', z, item,
                    CtxLeft(c) + InOrder(f.left) + [item], InOrder(f.right) + CtxRight(c))
  {
    item := InOrder(f.right)[0];
    ghost var g := f.(item := item);
    Reitem(Image(S), c, f, n, root, s, S, item);
    m := Image(S)[f.ref := Image(S)[f.ref].(data := item)];
    s' := Whole(c, g);
    WalkRead(S, pa, a, k, z, c, f, n, root, s, S);
    c', f' := Down(c, g, 1), f.right;
    var y';
    y', n' := StepDown(pa, a, k, z, 1, m, c, g, n, root, s', S);
    y := y';
  }

  /** Lines 615-621: down the left links from y to the node with none. */
  method SeekLeftmost(pa: array<RbNode>, a: array<Dir>, k0: nat, y0: RbNode, ghost m: Store, ghost S: set<RbNode>,
                      ghost c0: Ctx, ghost f0: Tree, ghost n0: nat, ghost root: RbNode, ghost s: seq<Item>,
                      ghost z: RbNode, ghost item: Item, ghost l: seq<Item>, ghost r: seq<Item>)
    returns (k: nat, y: RbNode, ghost c: Ctx, ghost f: Tree, ghost n: nat)
    requires Seeking(m, S, pa, a, k0, y0, c0, f0, n0, root, s, z, item, l, r)
    requires k0 + LeftReach(f0, SibCol(c0)) <= RB_MAX_HEIGHT + 1
    modifies pa, a
    ensures Seeking(m, S, pa, a, k, y, c, f, n, root, s, z, item, l, r)
    ensures f.left == Leaf && f.item == item && k + LeafReach(f, SibCol(c)) == k0 + LeftReach(f0, SibCol(c0))
  {
    k, y, c, f, n := k0, y0, c0, f0, n0;
    SeekRead(m, S, pa, a, k, y, c, f, n, root, s, z, item, l, r);
    while y.link.zero != null
      invariant Seeking(m, S, pa, a, k, y, c, f, n, root, s, z, item, l, r)
      invariant y.link.zero == Ref(f.left) && (f.left == Leaf ==> f.item == item)
      invariant k + LeftReach(f, SibCol(c)) == k0 + LeftReach(f0, SibCol(c0))
      decreases Height(f)
    {
      k, y, c, f, n := SeekStep(pa, a, k, y, m, S, c, f, n, root, s, z, item, l, r);
      SeekRead(m, S, pa, a, k, y, c, f, n, root, s, z, item, l, r);
    }
  }

  method SeekStep(pa: array<RbNode>, a: array<Dir>, k: nat, y: RbNode, ghost m: Store, ghost S: set<RbNode>,
                  ghost c: Ctx, ghost f: Tree, ghost n: nat, ghost root: RbNode, ghost s: seq<Item>,
                  ghost z: RbNode, ghost item: Item, ghost l: seq<Item>, ghost r: seq<Item>)
    returns (k': nat, y': RbNode, ghost c': Ctx, ghost f': Tree, ghost n': nat)
    requires Seeking(m, S, pa, a, k, y, c, f, n, root, s, z, item, l, r) && f.left.Fork? && k < RB_MAX_HEIGHT
    modifies pa, a
    ensures Seeking(m, S, pa, a, k', y', c', f', n', root, s, z, item, l, r)
    ensures k' == k + 1 && Height(f') < Height(f) && f' == f.left && SibCol(c') == Col(f.right)
  {
    hide Walking, Carries, Sound, OnlyAt, InOrder, CtxLeft, CtxRight, Height, Image;
    SeekRead(m, S, pa, a, k, y, c, f, n, root, s, z, item, l, r);
    SeekLeft(c, f, item, l, r);
    c', f', k' := Down(c, f, 0), f.left, k + 1;
    var y'';
    y'', n' := StepDown(pa, a, k, y, 0, m, c, f, n, root, s, S);
    y' := y'';
  }

  lemma SeekStore(m: Store, S: set<RbNode>, pa: array<RbNode>, a: array<Dir>, k: nat, y: RbNode,
                  c: Ctx, f: Tree, n: nat, root: RbNode, s: seq<Item>, z: RbNode, item: Item, l: seq<Item>, r: seq<Item>)
    requires Seeking(m, S, pa, a, k, y, c, f, n, root, s, z, item, l, r)
    ensures Walking(m, pa, a, k, y, c, f, n, root, s, S) && OnlyAt(m, Image(S), {z})
    ensures m.Keys == S && z in m && m[z] == Cell(z.color, item, z.link)
  {
  }

  /** Line 627: from here on the heap is the store m that the walk foresaw. */
  method MoveItem(y: RbNode, z: RbNode, ghost m: Store, ghost S: set<RbNode>, ghost pa: array<RbNode>, ghost a: array<Dir>, ghost k: nat,
                  ghost c: Ctx, ghost f: Tree, ghost n: nat, ghost root: RbNode, ghost s: seq<Item>,
                  ghost item: Item, ghost l: seq<Item>, ghost r: seq<Item>)
    requires Seeking(m, S, pa, a, k, y, c, f, n, root, s, z, item, l, r) && f.left == Leaf
    modifies S
    ensures Walking(Image(S), pa, a, k, Ref(f), c, f, n, root, s, S) && y == f.ref && y in S && y.color == f.color
  {
    hide Seeking, Walking, OneChild, CtxLeft, CtxRight, InOrder;
    SeekRead(m, S, pa, a, k, y, c, f, n, root, s, z, item, l, r);
    SeekStore(m, S, pa, a, k, y, c, f, n, root, s, z, item, l, r);
    z.data := y.data;
    assert Image(S) == m;
  }

  lemma Rejoin(l: seq<Item>, u: seq<Item>, v: seq<Item>, r: seq<Item>)
    requires v != []
    ensures (l + u + [v[0]]) + (v + r)[1..] == l + (u + v) + r
  {
    assert v + r == [v[0]] + (v + r)[1..];
  }

  /** Lines 624-638. */
  method DropLeftmost(pa: array<RbNode>, a: array<Dir>, k: nat, y: RbNode, z: RbNode, ghost m: Store, ghost S: set<RbNode>,
                      ghost c: Ctx, ghost f: Tree, ghost n: nat, ghost root: RbNode, ghost s: seq<Item>,
                      ghost item: Item, ghost l: seq<Item>, ghost r: seq<Item>)
    returns (x: RbNode?, ghost n': nat)
    requires Seeking(m, S, pa, a, k, y, c, f, n, root, s, z, item, l, r) && f.left == Leaf && r != []
    modifies S
    ensures y in S && y.color == f.color
    ensures Spliced(Image(S - {y}), pa, a, k, x, y.color, c, f.right, n', root, l + r[1..], S - {y})
  {
    hide *;
    SeekRead(m, S, pa, a, k, y, c, f, n, root, s, z, item, l, r);
    x := y.link.one;
    MoveItem(y, z, m, S, pa, a, k, c, f, n, root, s, item, l, r);
    n' := Splice(pa, a, k, x, S, c, f, f.right, n, root, s);
  }

  /** Whether case 1 pushes an entry when x is the subtree that takes the place of a node of
      the given colour. */
  function Pushes(y: Color, c: Ctx, x: Tree): nat {
    if y == Black && NeedsFix(c, x) && SibCol(c) == Red then 1 else 0
  }

  lemma PushesIs(y: Color, c: Ctx, x: Tree)
    ensures Pushes(y, c, x) == if y == Black && NeedsFix(c, x) && SibCol(c) == Red then 1 else 0
  {
  }

  /** A black node with one child has a red one. */
  lemma OnlyChildRed(f: Tree, n: nat, c: Ctx, x: Tree)
    requires f.Fork? && Balanced(f, n) && (f.left.Leaf? || f.right.Leaf?) && x == if f.left.Fork? then f.left else f.right
    ensures 1 + Pushes(f.color, c, x) <= LeafReach(f, SibCol(c))
  {
  }

  lemma WalkBalanced(m: Store, pa: array<RbNode>, a: array<Dir>, k: nat, z: RbNode,
                     c: Ctx, f: Tree, n: nat, root: RbNode, s: seq<Item>, S: set<RbNode>)
    requires Walking(m, pa, a, k, z, c, f, n, root, s, S)
    ensures Balanced(f, n)
  {
  }

  lemma WalkColor(S: set<RbNode>, pa: array<RbNode>, a: array<Dir>, k: nat, z: RbNode,
                  c: Ctx, f: Tree, n: nat, root: RbNode, s: seq<Item>)
    requires Walking(Image(S), pa, a, k, z, c, f, n, root, s, S)
    ensures f.Fork? && z == f.ref == Ref(f) && z in S && z.color == f.color
  {
    ReadNode(S, f);
  }

  lemma SeekPushes(m: Store, S: set<RbNode>, pa: array<RbNode>, a: array<Dir>, k: nat, y: RbNode,
                   c: Ctx, f: Tree, n: nat, root: RbNode, s: seq<Item>, z: RbNode, item: Item, l: seq<Item>, r: seq<Item>)
    requires Seeking(m, S, pa, a, k, y, c, f, n, root, s, z, item, l, r) && f.left == Leaf
    ensures 1 + Pushes(f.color, c, f.right) <= LeafReach(f, SibCol(c))
  {
    WalkBalanced(m, pa, a, k, y, c, f, n, root, s, S);
    hide Seeking;
    OnlyChildRed(f, n, c, f.right);
  }

  lemma SeekFirst(f: Tree)
    requires f.Fork?
    ensures InOrder(f) != []
  {
  }

  lemma ReachCases(f: Tree, sib: Color)
    requires f.Fork?
    ensures f.left.Leaf? || f.right.Leaf? ==> FoundReach(f, sib) == LeafReach(f, sib)
    ensures f.left.Fork? && f.right.Fork? ==> FoundReach(f, sib) == 1 + LeftReach(f.right, Col(f.left))
    ensures LeafReach(f, sib) > 0
    ensures f.right.Fork? ==> LeftReach(f.right, Col(f.left)) > 0
  {
  }

  lemma LeftCases(f: Tree, sib: Color)
    requires f.Fork?
    ensures f.left == Leaf ==> LeftReach(f, sib) == LeafReach(f, sib)
    ensures f.left.Fork? ==> LeftReach(f, sib) == 1 + LeftReach(f.left, Col(f.right)) && LeftReach(f.left, Col(f.right)) > 0
  {
  }

  /** Lines 609-629: z has two children.  The item of its successor y moves to z, and y
      leaves the tree. */
  method UnlinkSuccessor(pa: array<RbNode>, a: array<Dir>, k: nat, z: RbNode, ghost S: set<RbNode>,
                         ghost c: Ctx, ghost f: Tree, ghost n: nat, ghost root: RbNode, ghost s: seq<Item>)
    returns (k': nat, x: RbNode?, y: RbNode, ghost c': Ctx, ghost f': Tree, ghost n': nat)
    requires Walking(Image(S), pa, a, k, z, c, f, n, root, s, S) && f.Fork? && f.left.Fork? && f.right.Fork?
    requires k + FoundReach(f, SibCol(c)) <= RB_MAX_HEIGHT + 1
    modifies pa, a, S
    ensures y in S && k' + Pushes(y.color, c', f') <= RB_MAX_HEIGHT
    ensures Spliced(Image(S - {y}), pa, a, k', x, y.color, c', f', n', root,
                    CtxLeft(c) + (InOrder(f.left) + InOrder(f.right)) + CtxRight(c), S - {y})
  {
    hide *;
    ReachCases(f, SibCol(c));
    SeekFirst(f.right);
    Rejoin(CtxLeft(c), InOrder(f.left), InOrder(f.right), CtxRight(c));
    ghost var m, item, s0, g;
    ghost var l, r := CtxLeft(c) + InOrder(f.left) + [InOrder(f.right)[0]], InOrder(f.right) + CtxRight(c);
    y, m, c', g, n', s0, item := SeekRight(pa, a, k, z, S, c, f, n, root, s);
    k', y, c', g, n' := SeekLeftmost(pa, a, k + 1, y, m, S, c', g, n', root, s0, z, item, l, r);
    SeekPushes(m, S, pa, a, k', y, c', g, n', root, s0, z, item, l, r);
    x, n' := DropLeftmost(pa, a, k', y, z, m, S, c', g, n', root, s0, item, l, r);
    f' := g.right;
  }

  lemma TheChild(S: set<RbNode>, f: Tree, x: Tree)
    requires f.Fork? && (f.left.Leaf? || f.right.Leaf?) && x == if f.left.Fork? then f.left else f.right
    ensures InOrder(x) == InOrder(f.left) + InOrder(f.right) && OneChild(f, x)
    ensures Ref(x) == if Ref(f.left) != null then Ref(f.left) else Ref(f.right)
  {
  }

  /** Lines 596-608: z has a null link and itself leaves the tree. */
  method UnlinkDirect(pa: array<RbNode>, a: array<Dir>, k: nat, z: RbNode, ghost S: set<RbNode>,
                      ghost c: Ctx, ghost f: Tree, ghost n: nat, ghost root: RbNode, ghost s: seq<Item>)
    returns (x: RbNode?, ghost f': Tree, ghost n': nat)
    requires Walking(Image(S), pa, a, k, z, c, f, n, root, s, S) && f.Fork? && (f.left.Leaf? || f.right.Leaf?)
    modifies S
    ensures 1 + Pushes(z.color, c, f') <= LeafReach(f, SibCol(c))
    ensures z in S && Spliced(Image(S - {z}), pa, a, k, x, z.color, c, f', n', root,
                              CtxLeft(c) + (InOrder(f.left) + InOrder(f.right)) + CtxRight(c), S - {z})
  {
    hide *;
    WalkRead(S, pa, a, k, z, c, f, n, root, s, S);
    WalkBalanced(Image(S), pa, a, k, z, c, f, n, root, s, S);
    WalkColor(S, pa, a, k, z, c, f, n, root, s);
    x := if z.link.zero != null then z.link.zero else z.link.one;
    f' := if f.left.Fork? then f.left else f.right;
    TheChild(S, f, f');
    OnlyChildRed(f, n, c, f');
    n' := Splice(pa, a, k, x, S, c, f, f', n, root, s);
  }

  /** Lines 595-638.  Afterwards y is out of the tree; where it was, a black node is
      missing if y was black. */
  method Unlink(pa: array<RbNode>, a: array<Dir>, k: nat, z: RbNode, ghost S: set<RbNode>,
                ghost c: Ctx, ghost f: Tree, ghost n: nat, ghost root: RbNode, ghost s: seq<Item>)
    returns (k': nat, x: RbNode?, y: RbNode, ghost c': Ctx, ghost f': Tree, ghost n': nat)
    requires Walking(Image(S), pa, a, k, z, c, f, n, root, s, S) && f.Fork?
    requires k + FoundReach(f, SibCol(c)) <= RB_MAX_HEIGHT + 1
    modifies pa, a, S
    ensures y in S && k' + Pushes(y.color, c', f') <= RB_MAX_HEIGHT
    ensures Spliced(Image(S - {y}), pa, a, k', x, y.color, c', f', n', root,
                    CtxLeft(c) + (InOrder(f.left) + InOrder(f.right)) + CtxRight(c), S - {y})
  {
    hide *;
    WalkRead(S, pa, a, k, z, c, f, n, root, s, S);
    RefNull(z.link.zero, f.left);
    RefNull(z.link.one, f.right);
    ReachCases(f, SibCol(c));
    if z.link.zero == null || z.link.one == null {
      y, k', c' := z, k, c;
      x, f', n' := UnlinkDirect(pa, a, k, z, S, c, f, n, root, s);
    } else {
      k', x, y, c', f', n' := UnlinkSuccessor(pa, a, k, z, S, c, f, n, root, s);
    }
  }

  lemma SplicedRed(m: Store, pa: array<RbNode>, a: array<Dir>, k: nat, x: RbNode?,
                   c: Ctx, f: Tree, n: nat, root: RbNode, s: seq<Item>, N: set<RbNode>) returns (t: Tree, b: nat)
    requires Spliced(m, pa, a, k, x, Red, c, f, n, root, s, N)
    ensures HoldsTree(m, root, t, b, s, N)
  {
    t, b := Close(m, c, f, n, root, s, N);
  }

  lemma SplicedBlack(S: set<RbNode>, pa: array<RbNode>, a: array<Dir>, k: nat, x: RbNode?,
                     c: Ctx, f: Tree, n: nat, root: RbNode, s: seq<Item>)
    requires Spliced(Image(S), pa, a, k, x, Black, c, f, n, root, s, S)
    ensures Fixing(S, pa, a, k, x, c, f, n, root, s, S)
  {
  }

  /** From line 595 on. */
  method Remove(root: RbNode, pa: array<RbNode>, a: array<Dir>, k: nat, z: RbNode, ghost S: set<RbNode>,
                ghost c: Ctx, ghost f: Tree, ghost n: nat, ghost s: seq<Item>)
    returns (ghost t: Tree, ghost b: nat, ghost y: RbNode)
    requires Walking(Image(S), pa, a, k, z, c, f, n, root, s, S) && f.Fork?
    requires k + FoundReach(f, SibCol(c)) <= RB_MAX_HEIGHT + 1
    modifies pa, a, S
    ensures y in S
    ensures HoldsTree(Image(S - {y}), root, t, b, CtxLeft(c) + (InOrder(f.left) + InOrder(f.right)) + CtxRight(c), S - {y})
  {
    hide *;
    ghost var s' := CtxLeft(c) + (InOrder(f.left) + InOrder(f.right)) + CtxRight(c);
    var k', x, y', c', f', n' := Unlink(pa, a, k, z, S, c, f, n, root, s);
    y := y';
    if y'.color == Red {
      t, b := SplicedRed(Image(S - {y}), pa, a, k', x, c', f', n', root, s', S - {y});
    } else {
      SplicedBlack(S - {y}, pa, a, k', x, c', f', n', root, s');
      PushesIs(Black, c', f');
      t, b := Fixup(root, pa, a, k', x, S - {y}, c', f', n', s', S - {y});
    }
  }

  lemma TakeOut(l: seq<Item>, x: Item, r: seq<Item>)
    ensures Removed(l + [x] + r, x, l + r)
    ensures Ascending(l + [x] + r) ==> Ascending(l + r)
  {
    var s, s' := l + [x] + r, l + r;
    assert s[|l|] == x && s' == s[..|l|] + s[|l| + 1..];
    forall i, j | Ascending(s) && 0 <= i < j < |s'| ensures s'[i].key < s'[j].key {
      var i', j' := if i < |l| then i else i + 1, if j < |l| then j else j + 1;
      assert s'[i] == s[i'] && s'[j] == s[j'];
    }
  }

  lemma RemovedHere(c: Ctx, f: Tree, s: seq<Item>)
    requires f.Fork? && Whole(c, f) == s
    ensures Removed(s, f.item, CtxLeft(c) + (InOrder(f.left) + InOrder(f.right)) + CtxRight(c))
    ensures Ascending(s) ==> Ascending(CtxLeft(c) + (InOrder(f.left) + InOrder(f.right)) + CtxRight(c))
  {
    var a, u, v, b := CtxLeft(c), InOrder(f.left), InOrder(f.right), CtxRight(c);
    assert a + (u + [f.item] + v) + b == (a + u) + [f.item] + (v + b);
    assert a + (u + v) + b == (a + u) + (v + b);
    TakeOut(a + u, f.item, v + b);
  }

  lemma RemovedLength(s: seq<Item>, x: Item, s': seq<Item>)
    requires Removed(s, x, s')
    ensures |s'| == |s| - 1
  {
  }

  lemma HeldIsShaped(m: Store, root: RbNode, t: Tree, b: nat, N: set<RbNode>)
    requires HoldsTree(m, root, t, b, InOrder(t), N)
    ensures Shaped(t) && Rep(m, Top(root), t) && N == {root} + Nodes(t) && Size(t) == |InOrder(t)|
  {
    BalancedIsBlackHeight(t, b);
    SizeIsLength(t);
  }

  /** rb_delete, lines 556-765, but for the counter, whatever the order of the keys; N is
      what is left of the nodes. */
  method DeleteFrom(root: RbNode, key: Key, ghost S: set<RbNode>, ghost t: Tree, ghost b: nat)
    returns (found: Item?, ghost t': Tree, ghost b': nat, ghost N: set<RbNode>)
    requires HoldsTree(Image(S), root, t, b, InOrder(t), S) && Reach(t, Black, key) <= RB_MAX_HEIGHT
    modifies S
    ensures found == Sought(t, key)
    ensures found == null ==> Image(S) == old(Image(S))
    ensures found != null ==>
      && Removed(InOrder(t), found, InOrder(t')) && (Ascending(InOrder(t)) ==> Ascending(InOrder(t')))
      && HoldsTree(Image(N), root, t', b', InOrder(t'), N) && N <= S
  {
    hide *;
    t', b', N := t, b, S;
    var pa := new RbNode[RB_MAX_HEIGHT](_ => root);
    var a := new Dir[RB_MAX_HEIGHT](_ => 0);
    ReachBelowHeight(t, Black, key);
    var k, z, c, f, n := Descend(root, pa, a, key, S, t, b);
    WalkWhole(Image(S), pa, a, k, z, c, f, n, root, InOrder(t), S);
    if z == null {
      return null, t', b', N;
    }
    RemovedHere(c, f, InOrder(t));
    found := z.data;
    ghost var y;
    t', b', y := Remove(root, pa, a, k, z, S, c, f, n, InOrder(t));
    N := S - {y};
    HeldItems(Image(N), root, t', b', CtxLeft(c) + (InOrder(f.left) + InOrder(f.right)) + CtxRight(c), N);
  }
}
