/** The repair loop of rb_probe (common/rb.c:409-487) as steps on a path and a subtree.

    The defect is that the red root of the subtree in the hole may hang below a red
    node.  The source spells every case twice, once for each direction; here the
    direction is that of the grandparent, c.up.dir. */
module RbProbeSteps {
  import opened RbNodes
  import opened RbContext

  /** f has a red root; if the node above it were black, nothing would be wrong. */
  ghost predicate RedFocus(c: Ctx, f: Tree, n: nat) {
    && CtxBalanced(c, n) && Balanced(f, n) && NoRedRed(f) && f.Fork? && f.color == Red
    && CtxNoRedRed(c, Black)
  }

  /** The negation of the exit test of line 411. */
  predicate Clash(c: Ctx) {
    c.Frame? && c.up.Frame? && c.color == Red
  }

  /** Under a red parent there is a black grandparent. */
  lemma ClashAbove(c: Ctx, f: Tree, n: nat)
    requires RedFocus(c, f, n) && Clash(c)
    ensures c.up.color == Black && Balanced(c.up.sib, n) && Col(c.sib) == Black
    ensures NoRedRed(c.up.sib) && CtxBalanced(c.up.up, n + 1) && CtxNoRedRed(c.up.up, Black)
  {
    assert CtxBalanced(c.up, n) && CtxNoRedRed(c.up, Red);
  }

  /** Without a clash the tree is right but for the colour of its root. */
  lemma NoClash(c: Ctx, f: Tree, n: nat)
    requires RedFocus(c, f, n) && !Clash(c)
    ensures c.Frame? ==> Sound(c, f, n)
  {
    if c.Frame? {
      assert CtxNoRedRed(c.up, c.color);
    }
  }

  // ---------- A new red leaf ----------

  lemma AttachHeap(m: Store, k: Store, c: Ctx, x: RbNode, item: Item)
    requires CtxHolds(m, c, null) && CtxDistinct(c) && x !in CtxNodes(c)
    requires OnlyAt(m, k, {x, LastRef(c)}) && LastRef(c) in m && LastRef(c) in k && x in k
    requires k[LastRef(c)] == m[LastRef(c)].(link := m[LastRef(c)].link.With(LastDir(c), x))
    requires k[x] == Cell(Red, item, Links(null, null))
    ensures Rep(k, c, Fork(x, Red, item, Leaf, Leaf))
  {
    Rehang(m, k, {x, LastRef(c)}, c, null, x);
  }

  lemma AttachSound(c: Ctx, x: RbNode, item: Item, n: nat)
    requires Sound(c, Leaf, n)
    ensures RedFocus(c, Fork(x, Red, item, Leaf, Leaf), n)
  {
  }

  // ---------- Case 1: the uncle is red ----------

  function Uncle1Tree(c: Ctx, f: Tree): Tree
    requires c.Frame? && c.up.Frame?
  {
    var g := c.up;
    Mk(g.ref, Red, g.item, g.dir, Mk(c.ref, Black, c.item, c.dir, f, c.sib), Paint(g.sib, Black))
  }

  lemma Uncle1Apart(c: Ctx, f: Tree)
    requires c.Frame? && c.up.Frame? && Apart(c, f)
    ensures Apart(c.up.up, Uncle1Tree(c, f))
    ensures CtxNodes(c.up.up) + Nodes(Uncle1Tree(c, f)) == CtxNodes(c) + Nodes(f)
  {
    assert CtxDistinct(c.up);
  }

  lemma Uncle1Heap(m: Store, k: Store, c: Ctx, f: Tree)
    requires c.Frame? && c.up.Frame? && c.up.sib.Fork? && Rep(m, c, f)
    requires OnlyAt(m, k, {c.ref, c.up.ref, c.up.sib.ref}) && {c.ref, c.up.ref, c.up.sib.ref} <= m.Keys * k.Keys
    requires k[c.ref] == m[c.ref].(color := Black)
    requires k[c.up.sib.ref] == m[c.up.sib.ref].(color := Black)
    requires k[c.up.ref] == m[c.up.ref].(color := Red)
    ensures Rep(k, c.up.up, Uncle1Tree(c, f))
  {
    Uncle1Apart(c, f);
    var g := c.up;
    var X := {c.ref, g.ref, g.sib.ref};
    assert CtxHolds(m, g, c.ref) && CtxDistinct(g) && Holds(m, g.sib) && Distinct(g.sib);
    KeepCtx(m, k, X, g.up, g.ref);
    Keep(m, k, X, f);
    Keep(m, k, X, c.sib);
    Keep(m, k, X, g.sib.left);
    Keep(m, k, X, g.sib.right);
    assert Holds(k, Paint(g.sib, Black));
    assert Holds(k, Mk(c.ref, Black, c.item, c.dir, f, c.sib));
  }

  lemma Uncle1Order(c: Ctx, f: Tree)
    requires c.Frame? && c.up.Frame?
    ensures Whole(c.up.up, Uncle1Tree(c, f)) == Whole(c, f)
  {
    var g := c.up;
    var t := Mk(c.ref, Black, c.item, c.dir, f, c.sib);
    DownWhole(g.up, Mk(g.ref, g.color, g.item, g.dir, t, g.sib), g.dir);
    DownWhole(g, Mk(c.ref, c.color, c.item, c.dir, f, c.sib), c.dir);
    InOrderMk(c.ref, Black, c.item, c.dir, f, c.sib);
    InOrderMk(c.ref, c.color, c.item, c.dir, f, c.sib);
    InOrderMk(g.ref, g.color, g.item, g.dir, t, g.sib);
    InOrderMk(g.ref, Red, g.item, g.dir, t, Paint(g.sib, Black));
  }

  /** The defect moves two levels up. */
  lemma Uncle1Sound(c: Ctx, f: Tree, n: nat)
    requires RedFocus(c, f, n) && Clash(c) && Col(c.up.sib) == Red
    ensures RedFocus(c.up.up, Uncle1Tree(c, f), n + 1)
  {
    ClashAbove(c, f, n);
    var t := Mk(c.ref, Black, c.item, c.dir, f, c.sib);
    assert Balanced(t, n + 1) && NoRedRed(t);
    assert Balanced(Paint(c.up.sib, Black), n + 1) && NoRedRed(Paint(c.up.sib, Black));
  }

  // ---------- Case 2: the red node is an inner grandchild ----------

  function Inner2Ctx(c: Ctx, f: Tree): Ctx
    requires c.Frame? && c.up.Frame? && f.Fork?
  {
    Frame(c.up, f.ref, f.color, f.item, c.up.dir, Kid(f, 1 - c.up.dir))
  }

  function Inner2Tree(c: Ctx, f: Tree): Tree
    requires c.Frame? && c.up.Frame? && f.Fork?
  {
    Mk(c.ref, c.color, c.item, c.up.dir, c.sib, Kid(f, c.up.dir))
  }

  lemma Inner2Apart(c: Ctx, f: Tree)
    requires c.Frame? && c.up.Frame? && f.Fork? && Apart(c, f)
    ensures Apart(Inner2Ctx(c, f), Inner2Tree(c, f))
    ensures CtxNodes(Inner2Ctx(c, f)) + Nodes(Inner2Tree(c, f)) == CtxNodes(c) + Nodes(f)
  {
    RebuildKid(f, c.up.dir);
  }

  lemma Inner2Heap(m: Store, k: Store, c: Ctx, f: Tree)
    requires c.Frame? && c.up.Frame? && c.dir != c.up.dir && f.Fork? && Rep(m, c, f)
    requires OnlyAt(m, k, {c.ref, c.up.ref, f.ref}) && {c.ref, c.up.ref, f.ref} <= m.Keys * k.Keys
    requires k[c.ref] == m[c.ref].(link := m[c.ref].link.With(1 - c.up.dir, m[f.ref].link.At(c.up.dir)))
    requires k[f.ref] == m[f.ref].(link := m[f.ref].link.With(c.up.dir, c.ref))
    requires k[c.up.ref] == m[c.up.ref].(link := m[c.up.ref].link.With(c.up.dir, f.ref))
    ensures Rep(k, Inner2Ctx(c, f), Inner2Tree(c, f))
  {
    Inner2Apart(c, f);
    var d := c.up.dir;
    var X := {c.ref, c.up.ref, f.ref};
    RebuildKid(f, d);
    assert CtxHolds(m, c.up, c.ref) && CtxDistinct(c.up);
    Rehang(m, k, X, c.up, c.ref, f.ref);
    Keep(m, k, X, c.sib);
    Keep(m, k, X, Kid(f, d));
    Keep(m, k, X, Kid(f, 1 - d));
  }

  lemma Inner2Order(c: Ctx, f: Tree)
    requires c.Frame? && c.up.Frame? && c.dir != c.up.dir && f.Fork?
    ensures Whole(Inner2Ctx(c, f), Inner2Tree(c, f)) == Whole(c, f)
  {
    var d := c.up.dir;
    var t := Inner2Tree(c, f);
    var u := Mk(f.ref, f.color, f.item, d, t, Kid(f, 1 - d));
    var v := Mk(c.ref, c.color, c.item, c.dir, f, c.sib);
    DownWhole(c.up, v, c.dir);
    DownWhole(c.up, u, d);
    InOrderMk(c.ref, c.color, c.item, d, c.sib, Kid(f, d));
    InOrderMk(f.ref, f.color, f.item, d, t, Kid(f, 1 - d));
    InOrderMk(c.ref, c.color, c.item, c.dir, f, c.sib);
    Regroup(InOrder(c.sib), [c.item], InOrder(f.left), [f.item], InOrder(f.right));
    Regroup(InOrder(f.left), [f.item], InOrder(f.right), [c.item], InOrder(c.sib));
  }

  lemma Inner2Sound(c: Ctx, f: Tree, n: nat)
    requires RedFocus(c, f, n) && Clash(c)
    ensures RedFocus(Inner2Ctx(c, f), Inner2Tree(c, f), n) && Clash(Inner2Ctx(c, f))
  {
    ClashAbove(c, f, n);
  }

  // ---------- Case 3: the red node is an outer grandchild ----------

  function Outer3Tree(c: Ctx, f: Tree): Tree
    requires c.Frame? && c.up.Frame?
  {
    var g := c.up;
    Mk(c.ref, Black, c.item, g.dir, f, Mk(g.ref, Red, g.item, g.dir, c.sib, g.sib))
  }

  lemma Outer3Apart(c: Ctx, f: Tree)
    requires c.Frame? && c.up.Frame? && Apart(c, f)
    ensures Apart(c.up.up, Outer3Tree(c, f))
    ensures CtxNodes(c.up.up) + Nodes(Outer3Tree(c, f)) == CtxNodes(c) + Nodes(f)
  {
    assert CtxDistinct(c.up);
  }

  lemma Outer3Heap(m: Store, k: Store, c: Ctx, f: Tree)
    requires c.Frame? && c.up.Frame? && c.dir == c.up.dir && Rep(m, c, f)
    requires OnlyAt(m, k, {c.ref, c.up.ref, LastRef(c.up.up)}) && {c.ref, c.up.ref, LastRef(c.up.up)} <= m.Keys * k.Keys
    requires k[c.up.ref] == Cell(Red, m[c.up.ref].data, m[c.up.ref].link.With(c.dir, m[c.ref].link.At(1 - c.dir)))
    requires k[c.ref] == Cell(Black, m[c.ref].data, m[c.ref].link.With(1 - c.dir, c.up.ref))
    requires k[LastRef(c.up.up)] ==
             m[LastRef(c.up.up)].(link := m[LastRef(c.up.up)].link.With(LastDir(c.up.up), c.ref))
    ensures Rep(k, c.up.up, Outer3Tree(c, f))
  {
    Outer3Apart(c, f);
    var g := c.up;
    var X := {c.ref, g.ref, LastRef(g.up)};
    assert CtxHolds(m, g, c.ref) && CtxDistinct(g);
    Rehang(m, k, X, g.up, g.ref, c.ref);
    Keep(m, k, X, f);
    Keep(m, k, X, c.sib);
    Keep(m, k, X, g.sib);
    assert Holds(k, Mk(g.ref, Red, g.item, g.dir, c.sib, g.sib));
  }

  lemma Outer3Order(c: Ctx, f: Tree)
    requires c.Frame? && c.up.Frame? && c.dir == c.up.dir
    ensures Whole(c.up.up, Outer3Tree(c, f)) == Whole(c, f)
  {
    var g, d := c.up, c.dir;
    var t := Mk(c.ref, c.color, c.item, d, f, c.sib);
    DownWhole(g.up, Mk(g.ref, g.color, g.item, d, t, g.sib), d);
    DownWhole(g, t, d);
    InOrderMk(c.ref, c.color, c.item, d, f, c.sib);
    InOrderMk(g.ref, g.color, g.item, d, t, g.sib);
    InOrderMk(g.ref, Red, g.item, d, c.sib, g.sib);
    InOrderMk(c.ref, Black, c.item, d, f, Mk(g.ref, Red, g.item, d, c.sib, g.sib));
    Regroup(InOrder(f), [c.item], InOrder(c.sib), [g.item], InOrder(g.sib));
    Regroup(InOrder(g.sib), [g.item], InOrder(c.sib), [c.item], InOrder(f));
  }

  /** The defect is gone. */
  lemma Outer3Sound(c: Ctx, f: Tree, n: nat)
    requires RedFocus(c, f, n) && Clash(c) && Col(c.up.sib) == Black
    ensures Sound(c.up.up, Outer3Tree(c, f), n + 1)
  {
    ClashAbove(c, f, n);
    var g := c.up;
    var t := Mk(g.ref, Red, g.item, g.dir, c.sib, g.sib);
    assert Balanced(t, n) && NoRedRed(t);
  }
}
