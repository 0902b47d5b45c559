/** RB-Delete-Fixup (common/rb.c:641-762) as steps on a path and a subtree. */
module RbDeleteSteps {
  // The defect the loop repairs is that the subtree in the hole is one black node
  // short.  Each case of the source is a function on values; for each, one lemma says
  // what the writes of that case do to the store, one that the order of the items
  // stays, one what becomes of the defect.  The source spells every case twice, once
  // for each direction; here the direction is c.dir.  Line numbers up to 23 are those
  // that the source's comments give the lines of RB-Delete-Fixup.

  import opened RbNodes
  import opened RbContext

  /** The subtree f in the hole is one black node short; painting its root black must
      leave no red-red pair. */
  ghost predicate Deficit(c: Ctx, f: Tree, n: nat) {
    CtxBalanced(c, n + 1) && Balanced(f, n) && NoRedRed(Paint(f, Black)) && CtxNoRedRed(c, Black)
  }

  /** The condition of the fixup loop, line 1. */
  predicate NeedsFix(c: Ctx, f: Tree) {
    c.Frame? && Col(f) == Black
  }

  lemma CtxNoRedRedBlack(c: Ctx, col: Color)
    requires CtxNoRedRed(c, col)
    ensures CtxNoRedRed(c, Black)
  {
  }

  /** Lines 3 and 8: the sibling w is not a null link. */
  lemma SiblingExists(c: Ctx, f: Tree, n: nat)
    requires Deficit(c, f, n) && c.Frame?
    ensures c.sib.Fork?
  {
  }

  /** When the loop ends, painting x black (line 23) repairs what is left. */
  lemma DeficitRepaired(c: Ctx, f: Tree, n: nat) returns (b: nat)
    requires Deficit(c, f, n) && !NeedsFix(c, f)
    ensures Sound(c, Paint(f, Black), b)
  {
    b := if Col(f) == Red then n + 1 else n;
  }

  lemma PaintHeap(m: Store, k: Store, c: Ctx, f: Tree)
    requires Rep(m, c, f) && f.Fork? && OnlyAt(m, k, {f.ref})
    requires f.ref in m && f.ref in k && k[f.ref] == m[f.ref].(color := Black)
    ensures Rep(k, c, Paint(f, Black))
  {
    KeepCtx(m, k, {f.ref}, c, f.ref);
    Keep(m, k, {f.ref}, f.left);
    Keep(m, k, {f.ref}, f.right);
  }

  // ---------- Case 1: the sibling is red ----------

  function Case1Ctx(c: Ctx): Ctx
    requires c.Frame? && c.sib.Fork?
  {
    var w, d := c.sib, c.dir;
    Frame(Frame(c.up, w.ref, Black, w.item, d, Kid(w, 1 - d)), c.ref, Red, c.item, d, Kid(w, d))
  }

  lemma Case1Apart(c: Ctx, f: Tree)
    requires c.Frame? && c.sib.Fork? && Apart(c, f)
    ensures Apart(Case1Ctx(c), f)
    ensures CtxNodes(Case1Ctx(c)) == CtxNodes(c)
  {
    RebuildKid(c.sib, c.dir);
  }

  lemma Case1Heap(m: Store, k: Store, c: Ctx, f: Tree)
    requires c.Frame? && c.sib.Fork? && Rep(m, c, f)
    requires OnlyAt(m, k, {LastRef(c.up), c.ref, c.sib.ref})
    requires {LastRef(c.up), c.ref, c.sib.ref} <= m.Keys * k.Keys
    requires k[c.ref] == Cell(Red, m[c.ref].data, m[c.ref].link.With(1 - c.dir, m[c.sib.ref].link.At(c.dir)))
    requires k[c.sib.ref] == Cell(Black, m[c.sib.ref].data, m[c.sib.ref].link.With(c.dir, c.ref))
    requires k[LastRef(c.up)] == m[LastRef(c.up)].(link := m[LastRef(c.up)].link.With(LastDir(c.up), c.sib.ref))
    ensures Rep(k, Case1Ctx(c), f)
  {
    Case1Apart(c, f);
    var X := {LastRef(c.up), c.ref, c.sib.ref};
    RebuildKid(c.sib, c.dir);
    Rehang(m, k, X, c.up, c.ref, c.sib.ref);
    Keep(m, k, X, f);
    Keep(m, k, X, Kid(c.sib, 0));
    Keep(m, k, X, Kid(c.sib, 1));
  }

  lemma Case1Order(c: Ctx, f: Tree)
    requires c.Frame? && c.sib.Fork?
    ensures Whole(Case1Ctx(c), f) == Whole(c, f)
  {
    var w, d := c.sib, c.dir;
    var t := Mk(c.ref, Red, c.item, d, f, Kid(w, d));
    DownWhole(c.up, Mk(c.ref, c.color, c.item, d, f, w), d);
    DownWhole(Case1Ctx(c).up, t, d);
    DownWhole(c.up, Mk(w.ref, Black, w.item, d, t, Kid(w, 1 - d)), d);
    Regroup(InOrder(f), [c.item], InOrder(w.left), [w.item], InOrder(w.right));
    Regroup(InOrder(w.left), [w.item], InOrder(w.right), [c.item], InOrder(f));
  }

  /** The new sibling is black and again not null; the defect stays. */
  lemma Case1Sound(c: Ctx, f: Tree, n: nat)
    requires Deficit(c, f, n) && c.Frame? && c.sib.Fork? && c.sib.color == Red
    ensures Deficit(Case1Ctx(c), f, n)
    ensures Case1Ctx(c).sib.Fork? && Case1Ctx(c).sib.color == Black
  {
  }

  // ---------- Case 2: the sibling is black with two black children ----------

  function Case2Tree(c: Ctx, f: Tree): Tree
    requires c.Frame?
  {
    Mk(c.ref, c.color, c.item, c.dir, f, Paint(c.sib, Red))
  }

  lemma Case2Heap(m: Store, k: Store, c: Ctx, f: Tree)
    requires c.Frame? && c.sib.Fork? && Rep(m, c, f)
    requires OnlyAt(m, k, {c.sib.ref})
    requires c.sib.ref in m && c.sib.ref in k && k[c.sib.ref] == m[c.sib.ref].(color := Red)
    ensures Rep(k, c.up, Case2Tree(c, f))
    ensures CtxNodes(c.up) + Nodes(Case2Tree(c, f)) == CtxNodes(c) + Nodes(f)
  {
    var X := {c.sib.ref};
    KeepCtx(m, k, X, c.up, c.ref);
    Keep(m, k, X, f);
    Keep(m, k, X, c.sib.left);
    Keep(m, k, X, c.sib.right);
    assert Holds(k, Paint(c.sib, Red));
  }

  lemma Case2Order(c: Ctx, f: Tree)
    requires c.Frame?
    ensures Whole(c.up, Case2Tree(c, f)) == Whole(c, f)
  {
    DownWhole(c.up, Case2Tree(c, f), c.dir);
    DownWhole(c.up, Mk(c.ref, c.color, c.item, c.dir, f, c.sib), c.dir);
    InOrderMk(c.ref, c.color, c.item, c.dir, f, c.sib);
    InOrderMk(c.ref, c.color, c.item, c.dir, f, Paint(c.sib, Red));
  }

  lemma Case2Sound(c: Ctx, f: Tree, n: nat)
    requires Deficit(c, f, n) && NeedsFix(c, f) && c.sib.Fork? && c.sib.color == Black
    requires Col(c.sib.left) == Black && Col(c.sib.right) == Black
    ensures Deficit(c.up, Case2Tree(c, f), if c.color == Black then n + 1 else n)
  {
    CtxNoRedRedBlack(c.up, c.color);
  }

  // ---------- Case 3: the sibling's inner child is red, its outer child black ----------

  function Case3Sib(c: Ctx): Tree
    requires c.Frame? && c.sib.Fork? && Kid(c.sib, c.dir).Fork?
  {
    var w, d := c.sib, c.dir;
    var y := Kid(w, d);
    Mk(y.ref, Black, y.item, d, Kid(y, d), Mk(w.ref, Red, w.item, d, Kid(y, 1 - d), Kid(w, 1 - d)))
  }

  lemma Case3Apart(c: Ctx, f: Tree)
    requires c.Frame? && c.sib.Fork? && Kid(c.sib, c.dir).Fork? && Apart(c, f)
    ensures Apart(c.(sib := Case3Sib(c)), f)
    ensures Nodes(Case3Sib(c)) == Nodes(c.sib)
    ensures CtxNodes(c.(sib := Case3Sib(c))) == CtxNodes(c)
  {
    RebuildKid(c.sib, c.dir);
    RebuildKid(Kid(c.sib, c.dir), c.dir);
  }

  lemma Case3SibHeap(m: Store, k: Store, c: Ctx)
    requires c.Frame? && c.sib.Fork? && Kid(c.sib, c.dir).Fork?
    requires Holds(m, c.sib) && Distinct(c.sib) && c.ref !in Nodes(c.sib)
    requires OnlyAt(m, k, {c.ref, c.sib.ref, Kid(c.sib, c.dir).ref})
    requires c.sib.ref in k && Kid(c.sib, c.dir).ref in k && Kid(c.sib, c.dir).ref in m
    requires k[c.sib.ref] ==
             Cell(Red, m[c.sib.ref].data, m[c.sib.ref].link.With(c.dir, m[Kid(c.sib, c.dir).ref].link.At(1 - c.dir)))
    requires k[Kid(c.sib, c.dir).ref] ==
             Cell(Black, m[Kid(c.sib, c.dir).ref].data, m[Kid(c.sib, c.dir).ref].link.With(1 - c.dir, c.sib.ref))
    ensures Holds(k, Case3Sib(c))
  {
    var w, d := c.sib, c.dir;
    var y := Kid(w, d);
    var X := {c.ref, w.ref, y.ref};
    RebuildKid(w, d);
    RebuildKid(y, d);
    assert Holds(m, y) && Distinct(y);
    Keep(m, k, X, Kid(w, 1 - d));
    Keep(m, k, X, Kid(y, d));
    Keep(m, k, X, Kid(y, 1 - d));
    assert Holds(k, Mk(w.ref, Red, w.item, d, Kid(y, 1 - d), Kid(w, 1 - d)));
  }

  lemma Case3Heap(m: Store, k: Store, c: Ctx, f: Tree)
    requires c.Frame? && c.sib.Fork? && Kid(c.sib, c.dir).Fork? && Rep(m, c, f)
    requires OnlyAt(m, k, {c.ref, c.sib.ref, Kid(c.sib, c.dir).ref})
    requires {c.ref, c.sib.ref, Kid(c.sib, c.dir).ref} <= m.Keys * k.Keys
    requires k[c.ref] == m[c.ref].(link := m[c.ref].link.With(1 - c.dir, Kid(c.sib, c.dir).ref))
    requires k[c.sib.ref] ==
             Cell(Red, m[c.sib.ref].data, m[c.sib.ref].link.With(c.dir, m[Kid(c.sib, c.dir).ref].link.At(1 - c.dir)))
    requires k[Kid(c.sib, c.dir).ref] ==
             Cell(Black, m[Kid(c.sib, c.dir).ref].data, m[Kid(c.sib, c.dir).ref].link.With(1 - c.dir, c.sib.ref))
    ensures Rep(k, c.(sib := Case3Sib(c)), f)
  {
    var X := {c.ref, c.sib.ref, Kid(c.sib, c.dir).ref};
    Case3Apart(c, f);
    Case3SibHeap(m, k, c);
    KeepCtx(m, k, X, c.up, c.ref);
    Keep(m, k, X, f);
  }

  lemma Case3Order(c: Ctx, f: Tree)
    requires c.Frame? && c.sib.Fork? && Kid(c.sib, c.dir).Fork?
    ensures InOrder(Case3Sib(c)) == InOrder(c.sib)
    ensures Whole(c.(sib := Case3Sib(c)), f) == Whole(c, f)
  {
    var w, d := c.sib, c.dir;
    var y := Kid(w, d);
    InOrderMk(w.ref, Red, w.item, d, Kid(y, 1 - d), Kid(w, 1 - d));
    InOrderMk(y.ref, Black, y.item, d, Kid(y, d), Mk(w.ref, Red, w.item, d, Kid(y, 1 - d), Kid(w, 1 - d)));
    Regroup(InOrder(Kid(y, 0)), [y.item], InOrder(Kid(y, 1)), [w.item], InOrder(Kid(w, 1)));
    Regroup(InOrder(Kid(w, 0)), [w.item], InOrder(Kid(y, 0)), [y.item], InOrder(Kid(y, 1)));
  }

  lemma Case3Sound(c: Ctx, f: Tree, n: nat)
    requires Deficit(c, f, n) && c.Frame? && c.sib.Fork? && c.sib.color == Black
    requires Kid(c.sib, c.dir).Fork? && Kid(c.sib, c.dir).color == Red && Col(Kid(c.sib, 1 - c.dir)) == Black
    ensures Deficit(c.(sib := Case3Sib(c)), f, n)
    ensures Case3Sib(c).color == Black && Col(Kid(Case3Sib(c), 1 - c.dir)) == Red
  {
    var w, d := c.sib, c.dir;
    var y := Kid(w, d);
    assert Balanced(y, n) && NoRedRed(y);
    var t := Mk(w.ref, Red, w.item, d, Kid(y, 1 - d), Kid(w, 1 - d));
    assert Balanced(t, n) && NoRedRed(t);
  }

  // ---------- Case 4: the sibling's outer child is red ----------

  function Case4Tree(c: Ctx, f: Tree): Tree
    requires c.Frame? && c.sib.Fork?
  {
    var w, d := c.sib, c.dir;
    Mk(w.ref, c.color, w.item, d, Mk(c.ref, Black, c.item, d, f, Kid(w, d)), Paint(Kid(w, 1 - d), Black))
  }

  lemma Case4Apart(c: Ctx, f: Tree)
    requires c.Frame? && c.sib.Fork? && Apart(c, f)
    ensures Apart(c.up, Case4Tree(c, f))
    ensures CtxNodes(c.up) + Nodes(Case4Tree(c, f)) == CtxNodes(c) + Nodes(f)
  {
    RebuildKid(c.sib, c.dir);
  }

  lemma Case4Heap(m: Store, k: Store, c: Ctx, f: Tree)
    requires c.Frame? && c.sib.Fork? && Kid(c.sib, 1 - c.dir).Fork? && Rep(m, c, f)
    requires OnlyAt(m, k, {LastRef(c.up), c.ref, c.sib.ref, Kid(c.sib, 1 - c.dir).ref})
    requires {LastRef(c.up), c.ref, c.sib.ref, Kid(c.sib, 1 - c.dir).ref} <= m.Keys * k.Keys
    requires k[c.ref] == Cell(Black, m[c.ref].data, m[c.ref].link.With(1 - c.dir, m[c.sib.ref].link.At(c.dir)))
    requires k[c.sib.ref] == Cell(m[c.ref].color, m[c.sib.ref].data, m[c.sib.ref].link.With(c.dir, c.ref))
    requires k[Kid(c.sib, 1 - c.dir).ref] == m[Kid(c.sib, 1 - c.dir).ref].(color := Black)
    requires k[LastRef(c.up)] == m[LastRef(c.up)].(link := m[LastRef(c.up)].link.With(LastDir(c.up), c.sib.ref))
    ensures Rep(k, c.up, Case4Tree(c, f))
  {
    Case4Apart(c, f);
    var w, d := c.sib, c.dir;
    var b := Kid(w, 1 - d);
    var X := {LastRef(c.up), c.ref, w.ref, b.ref};
    RebuildKid(w, d);
    assert Holds(m, b) && Distinct(b);
    Rehang(m, k, X, c.up, c.ref, w.ref);
    Keep(m, k, X, f);
    Keep(m, k, X, Kid(w, d));
    Keep(m, k, X, b.left);
    Keep(m, k, X, b.right);
    assert Holds(k, Paint(b, Black));
    assert Holds(k, Mk(c.ref, Black, c.item, d, f, Kid(w, d)));
  }

  lemma Case4Order(c: Ctx, f: Tree)
    requires c.Frame? && c.sib.Fork?
    ensures Whole(c.up, Case4Tree(c, f)) == Whole(c, f)
  {
    var w, d := c.sib, c.dir;
    var t := Mk(c.ref, Black, c.item, d, f, Kid(w, d));
    DownWhole(c.up, Mk(c.ref, c.color, c.item, d, f, w), d);
    InOrderMk(c.ref, c.color, c.item, d, f, w);
    InOrderMk(c.ref, Black, c.item, d, f, Kid(w, d));
    InOrderMk(w.ref, c.color, w.item, d, t, Paint(Kid(w, 1 - d), Black));
    Regroup(InOrder(f), [c.item], InOrder(w.left), [w.item], InOrder(w.right));
    Regroup(InOrder(w.left), [w.item], InOrder(w.right), [c.item], InOrder(f));
  }

  /** The defect is gone. */
  lemma Case4Sound(c: Ctx, f: Tree, n: nat)
    requires Deficit(c, f, n) && NeedsFix(c, f) && c.sib.Fork? && c.sib.color == Black
    requires Col(Kid(c.sib, 1 - c.dir)) == Red
    ensures Sound(c.up, Case4Tree(c, f), if c.color == Black then n + 2 else n + 1)
  {
    var w, d := c.sib, c.dir;
    var b := Kid(w, 1 - d);
    assert Balanced(b, n) && NoRedRed(b);
    assert Balanced(Paint(b, Black), n + 1) && NoRedRed(Paint(b, Black));
    var t := Mk(c.ref, Black, c.item, d, f, Kid(w, d));
    assert Balanced(t, n + 1) && NoRedRed(t);
  }
}
