/** RB-Delete-Fixup, common/rb.c:641-762, on heap nodes.  The source writes the loop
    body twice, for a[k - 1] == 0 and with 0 and 1 exchanged for a[k - 1] == 1; here it
    is written once over d = a[k - 1].  Each Write method is the run of assignments of
    one case.  Line numbers up to 23 are those that the source's comments give the lines
    of RB-Delete-Fixup.

    The invariant of the loop is Fixing: the heap holds a path and a subtree, spelled by the
    stacks, that lacks one black node at its top.  Each case is a method that keeps it, or
    that ends it with a whole tree; what the writes amount to is said in RbDeleteSteps. */
module RbFixup {
  import opened RbNodes
  import opened RbContext
  import opened RbDeleteSteps
  import opened RbHeap

  /** Lines 5-7 of case 1. */
  method WriteCase1(g: RbNode, dg: Dir, p: RbNode, d: Dir, w: RbNode)
    requires g != p && g != w && p != w
    modifies g, p, w
    ensures g.color == old(g.color) && g.data == old(g.data) && g.link == old(g.link).With(dg, w)
    ensures p.color == Red && p.data == old(p.data) && p.link == old(p.link).With(1 - d, old(w.link).At(d))
    ensures w.color == Black && w.data == old(w.data) && w.link == old(w.link).With(d, p)
  {
    w.color := Black;
    p.color := Red;
    p.link := p.link.With(1 - d, w.link.At(d));
    w.link := w.link.With(d, p);
    g.link := g.link.With(dg, w);
  }

  /** The stack writes of case 1: w slips in below p's parent, p moves one up. */
  method PushCase1(pa: array<RbNode>, a: array<Dir>, k: nat, w: RbNode, ghost c: Ctx)
    requires Stacked(pa, a, k, c) && k < RB_MAX_HEIGHT
    requires c.Frame? && c.sib.Fork? && w == c.sib.ref
    modifies pa, a
    ensures Stacked(pa, a, k + 1, Case1Ctx(c))
  {
    ghost var rs, ds := Refs(c.up), Dirs(c.up);
    assert pa[..k] == rs + [c.ref] && a[..k] == ds + [c.dir];
    pa[k] := pa[k - 1];
    a[k] := a[k - 1];
    pa[k - 1] := w;
    assert pa[..k + 1] == rs + [w] + [c.ref];
    assert a[..k + 1] == ds + [c.dir] + [c.dir];
  }

  /** Lines 13-16 of case 3; y is the new sibling. */
  method WriteCase3(p: RbNode, d: Dir, w: RbNode) returns (y: RbNode)
    requires w.link.At(d) != null && p != w && w.link.At(d) !in {p, w}
    modifies p, w, w.link.At(d)
    ensures y == old(w.link.At(d))
    ensures p.color == old(p.color) && p.data == old(p.data) && p.link == old(p.link).With(1 - d, y)
    ensures w.color == Red && w.data == old(w.data) && w.link == old(w.link).With(d, old(y.link).At(1 - d))
    ensures y.color == Black && y.data == old(y.data) && y.link == old(y.link).With(1 - d, w)
  {
    w.link.At(d).color := Black;
    w.color := Red;
    y := w.link.At(d);
    w.link := w.link.With(d, y.link.At(1 - d));
    y.link := y.link.With(1 - d, w);
    p.link := p.link.With(1 - d, y);
  }

  /** Lines 17-20 of case 4. */
  method WriteCase4(g: RbNode, dg: Dir, p: RbNode, d: Dir, w: RbNode)
    requires g != p && g != w && p != w
    requires w.link.At(1 - d) != null && w.link.At(1 - d) !in {g, p, w}
    modifies g, p, w, w.link.At(1 - d)
    ensures g.color == old(g.color) && g.data == old(g.data) && g.link == old(g.link).With(dg, w)
    ensures p.color == Black && p.data == old(p.data) && p.link == old(p.link).With(1 - d, old(w.link).At(d))
    ensures w.color == old(p.color) && w.data == old(w.data) && w.link == old(w.link).With(d, p)
    ensures old(w.link.At(1 - d)).color == Black
    ensures old(w.link.At(1 - d)).data == old(w.link.At(1 - d).data)
    ensures old(w.link.At(1 - d)).link == old(w.link.At(1 - d).link)
  {
    w.color := p.color;
    p.color := Black;
    w.link.At(1 - d).color := Black;
    p.link := p.link.With(1 - d, w.link.At(d));
    w.link := w.link.With(d, p);
    g.link := g.link.With(dg, w);
  }

  // ---------- What each case does to the tree the heap carries ----------

  method FixCase1(g: RbNode, dg: Dir, p: RbNode, d: Dir, w: RbNode, ghost S: set<RbNode>,
                  ghost c: Ctx, ghost f: Tree, ghost root: RbNode, ghost s: seq<Item>, ghost N: set<RbNode>)
    requires Carries(Image(S), c, f, root, s, N) && c.Frame? && c.sib.Fork?
    requires g == LastRef(c.up) && dg == LastDir(c.up) && p == c.ref && d == c.dir && w == c.sib.ref
    modifies S
    ensures Carries(Image(S), Case1Ctx(c), f, root, s, N)
  {
    ghost var m := Image(S);
    Case1Apart(c, f);
    Case1Order(c, f);
    WriteCase1(g, dg, p, d, w);
    Case1Heap(m, Image(S), c, f);
  }

  method FixCase2(w: RbNode, ghost S: set<RbNode>,
                  ghost c: Ctx, ghost f: Tree, ghost root: RbNode, ghost s: seq<Item>, ghost N: set<RbNode>)
    requires Carries(Image(S), c, f, root, s, N) && c.Frame? && c.sib.Fork? && w == c.sib.ref
    modifies S
    ensures Carries(Image(S), c.up, Case2Tree(c, f), root, s, N)
  {
    ghost var m := Image(S);
    Case2Order(c, f);
    w.color := Red;
    Case2Heap(m, Image(S), c, f);
  }

  method FixCase3(p: RbNode, d: Dir, w: RbNode, ghost S: set<RbNode>,
                  ghost c: Ctx, ghost f: Tree, ghost root: RbNode, ghost s: seq<Item>, ghost N: set<RbNode>)
    returns (y: RbNode)
    requires Carries(Image(S), c, f, root, s, N) && c.Frame? && c.sib.Fork? && Kid(c.sib, d).Fork?
    requires p == c.ref && d == c.dir && w == c.sib.ref
    modifies S
    ensures Carries(Image(S), c.(sib := Case3Sib(c)), f, root, s, N) && y == Case3Sib(c).ref
  {
    ghost var m := Image(S);
    Case3Apart(c, f);
    Case3Order(c, f);
    y := WriteCase3(p, d, w);
    Case3Heap(m, Image(S), c, f);
  }

  method FixCase4(g: RbNode, dg: Dir, p: RbNode, d: Dir, w: RbNode, ghost S: set<RbNode>,
                  ghost c: Ctx, ghost f: Tree, ghost root: RbNode, ghost s: seq<Item>, ghost N: set<RbNode>)
    requires Carries(Image(S), c, f, root, s, N) && c.Frame? && c.sib.Fork? && Kid(c.sib, 1 - d).Fork?
    requires g == LastRef(c.up) && dg == LastDir(c.up) && p == c.ref && d == c.dir && w == c.sib.ref
    modifies S
    ensures Carries(Image(S), c.up, Case4Tree(c, f), root, s, N)
  {
    ghost var m := Image(S);
    Case4Apart(c, f);
    Case4Order(c, f);
    WriteCase4(g, dg, p, d, w);
    Case4Heap(m, Image(S), c, f);
  }

  // ---------- The loop ----------

  /** The loop invariant: the subtree at x, the end of the path on the stacks, is one
      black node short of what its place asks for, and nothing else is wrong. */
  ghost predicate Fixing(S: set<RbNode>, pa: array<RbNode>, a: array<Dir>, k: nat, x: RbNode?,
                         c: Ctx, f: Tree, n: nat, root: RbNode, s: seq<Item>, N: set<RbNode>)
    reads S, pa, a
  {
    Carries(Image(S), c, f, root, s, N) && Deficit(c, f, n) && Stacked(pa, a, k, c) && x == Ref(f)
  }

  /** After the loop: painting x black is all that is left to do. */
  ghost predicate Fixed(S: set<RbNode>, x: RbNode?, c: Ctx, f: Tree, n: nat, root: RbNode, s: seq<Item>, N: set<RbNode>)
    reads S
  {
    Carries(Image(S), c, f, root, s, N) && Deficit(c, f, n) && !NeedsFix(c, f) && x == Ref(f)
  }

  lemma LoopOver(S: set<RbNode>, pa: array<RbNode>, a: array<Dir>, k: nat, x: RbNode?,
                 c: Ctx, f: Tree, n: nat, root: RbNode, s: seq<Item>, N: set<RbNode>)
    requires Fixing(S, pa, a, k, x, c, f, n, root, s, N) && !NeedsFix(c, f)
    ensures Fixed(S, x, c, f, n, root, s, N)
  {
  }

  /** The loop condition of line 1, read off the heap. */
  lemma LoopTest(S: set<RbNode>, pa: array<RbNode>, a: array<Dir>, k: nat, x: RbNode?,
                 c: Ctx, f: Tree, n: nat, root: RbNode, s: seq<Item>, N: set<RbNode>)
    requires Fixing(S, pa, a, k, x, c, f, n, root, s, N)
    ensures NeedsFix(c, f) <==> k > 1 && (x == null || x.color == Black)
  {
    if x != null {
      ReadLink(S, f, 0);
    }
  }

  /** The sibling w is not a null link (lines 3 and 8). */
  lemma Sibling(S: set<RbNode>, pa: array<RbNode>, a: array<Dir>, k: nat, x: RbNode?,
                c: Ctx, f: Tree, n: nat, root: RbNode, s: seq<Item>, N: set<RbNode>)
    requires Fixing(S, pa, a, k, x, c, f, n, root, s, N) && c.Frame?
    ensures k >= 2 && pa[k - 1] == c.ref && a[k - 1] == c.dir
    ensures pa[k - 2] == LastRef(c.up) && a[k - 2] == LastDir(c.up)
    ensures c.sib.Fork? && c.ref.link.At(1 - c.dir) == c.sib.ref && c.sib.ref.color == c.sib.color
  {
    StackTop(pa, a, k, c);
    SiblingExists(c, f, n);
    assert c.ref in Image(S) && c.sib.ref in Image(S);
  }

  /** The test of line 9, read off the heap. */
  lemma NephewTest(S: set<RbNode>, c: Ctx, f: Tree, root: RbNode, s: seq<Item>, N: set<RbNode>)
    requires Carries(Image(S), c, f, root, s, N) && c.Frame? && c.sib.Fork?
    ensures Col(c.sib.left) == Black <==> c.sib.ref.link.zero == null || c.sib.ref.link.zero.color == Black
    ensures Col(c.sib.right) == Black <==> c.sib.ref.link.one == null || c.sib.ref.link.one.color == Black
  {
    ReadLink(S, c.sib, 0);
    ReadLink(S, c.sib, 1);
  }

  /** Lines 3-8: afterwards the sibling is black. */
  method BlackSibling(pa: array<RbNode>, a: array<Dir>, k: nat, ghost x: RbNode?, ghost S: set<RbNode>,
                      ghost c: Ctx, ghost f: Tree, ghost n: nat, ghost root: RbNode, ghost s: seq<Item>, ghost N: set<RbNode>)
    returns (k': nat, w: RbNode, ghost c': Ctx)
    requires Fixing(S, pa, a, k, x, c, f, n, root, s, N) && NeedsFix(c, f)
    requires k <= RB_MAX_HEIGHT && (SibCol(c) == Red ==> k < RB_MAX_HEIGHT)
    modifies pa, a, S
    ensures Fixing(S, pa, a, k', x, c', f, n, root, s, N) && NeedsFix(c', f)
    ensures c'.sib.Fork? && w == c'.sib.ref && c'.sib.color == Black
    ensures k' == k || (k' == k + 1 && c'.color == Red)
  {
    Sibling(S, pa, a, k, x, c, f, n, root, s, N);
    k', c' := k, c;
    w := pa[k - 1].link.At(1 - a[k - 1]);
    if w.color == Red {
      Case1Sound(c, f, n);
      FixCase1(pa[k - 2], a[k - 2], pa[k - 1], a[k - 1], w, S, c, f, root, s, N);
      PushCase1(pa, a, k, w, c);
      k', c' := k + 1, Case1Ctx(c);
      Sibling(S, pa, a, k', x, c', f, n, root, s, N);
      w := pa[k' - 1].link.At(1 - a[k' - 1]);
    }
  }

  /** Lines 10-11. */
  method BlackNephews(pa: array<RbNode>, a: array<Dir>, k: nat, ghost x: RbNode?, w: RbNode, ghost S: set<RbNode>,
                      ghost c: Ctx, ghost f: Tree, ghost n: nat, ghost root: RbNode, ghost s: seq<Item>, ghost N: set<RbNode>)
    returns (x': RbNode?, k': nat, ghost c': Ctx, ghost f': Tree, ghost n': nat)
    requires Fixing(S, pa, a, k, x, c, f, n, root, s, N) && NeedsFix(c, f)
    requires c.sib.Fork? && w == c.sib.ref && c.sib.color == Black
    requires Col(c.sib.left) == Black && Col(c.sib.right) == Black
    modifies S
    ensures Fixing(S, pa, a, k', x', c', f', n', root, s, N)
    ensures k' == k - 1 && Col(f') == c.color
  {
    FixCase2(w, S, c, f, root, s, N);
    Case2Sound(c, f, n);
    StackTop(pa, a, k, c);
    StackPop(pa, a, k, c);
    x' := pa[k - 1];
    k' := k - 1;
    c', f', n' := c.up, Case2Tree(c, f), if c.color == Black then n + 1 else n;
  }

  /** Lines 12-16: afterwards the outer child of the sibling is red. */
  method OuterRed(p: RbNode, d: Dir, w: RbNode, ghost S: set<RbNode>,
                  ghost c: Ctx, ghost f: Tree, ghost n: nat, ghost root: RbNode, ghost s: seq<Item>, ghost N: set<RbNode>)
    returns (w': RbNode, ghost c': Ctx)
    requires Carries(Image(S), c, f, root, s, N) && Deficit(c, f, n) && NeedsFix(c, f)
    requires c.sib.Fork? && w == c.sib.ref && c.sib.color == Black
    requires Col(c.sib.left) == Red || Col(c.sib.right) == Red
    requires p == c.ref && d == c.dir
    modifies S
    ensures c'.Frame? && c' == c.(sib := c'.sib) && Carries(Image(S), c', f, root, s, N) && Deficit(c', f, n)
    ensures c'.sib.Fork? && w' == c'.sib.ref && c'.sib.color == Black && Col(Kid(c'.sib, 1 - d)) == Red
  {
    w', c' := w, c;
    ReadLink(S, c.sib, 1 - d);
    if w.link.At(1 - d) == null || w.link.At(1 - d).color == Black {
      Case3Sound(c, f, n);
      w' := FixCase3(p, d, w, S, c, f, root, s, N);
      c' := c.(sib := Case3Sib(c));
    }
  }

  /** Lines 12-20. */
  method RedNephew(g: RbNode, dg: Dir, p: RbNode, d: Dir, w: RbNode, ghost S: set<RbNode>,
                   ghost c: Ctx, ghost f: Tree, ghost n: nat, ghost root: RbNode, ghost s: seq<Item>, ghost N: set<RbNode>)
    returns (ghost t: Tree, ghost b: nat)
    requires Carries(Image(S), c, f, root, s, N) && Deficit(c, f, n) && NeedsFix(c, f)
    requires c.sib.Fork? && w == c.sib.ref && c.sib.color == Black
    requires Col(c.sib.left) == Red || Col(c.sib.right) == Red
    requires g == LastRef(c.up) && dg == LastDir(c.up) && p == c.ref && d == c.dir
    modifies S
    ensures Carries(Image(S), c.up, t, root, s, N) && Sound(c.up, t, b)
  {
    var w', c' := OuterRed(p, d, w, S, c, f, n, root, s, N);
    Case4Sound(c', f, n);
    FixCase4(g, dg, p, d, w', S, c', f, root, s, N);
    t, b := Case4Tree(c', f), if c.color == Black then n + 2 else n + 1;
  }

  lemma HeldIsFixed(S: set<RbNode>, root: RbNode, t: Tree, b: nat, s: seq<Item>, N: set<RbNode>)
    requires HoldsTree(Image(S), root, t, b, s, N)
    ensures Fixed(S, root.link.zero, Top(root), t, b, root, s, N)
  {
    assert root in Image(S);
  }

  /** Lines 12-21: the rotation that ends the loop, and x = root. */
  method LastRotation(root: RbNode, pa: array<RbNode>, a: array<Dir>, k: nat, ghost x: RbNode?, w: RbNode, ghost S: set<RbNode>,
                      ghost c: Ctx, ghost f: Tree, ghost n: nat, ghost s: seq<Item>, ghost N: set<RbNode>)
    returns (x': RbNode?, ghost t: Tree, ghost b: nat)
    requires Fixing(S, pa, a, k, x, c, f, n, root, s, N) && NeedsFix(c, f)
    requires c.sib.Fork? && w == c.sib.ref && c.sib.color == Black
    requires Col(c.sib.left) == Red || Col(c.sib.right) == Red
    modifies S
    ensures Fixed(S, x', Top(root), t, b, root, s, N)
  {
    StackTop(pa, a, k, c);
    t, b := RedNephew(pa[k - 2], a[k - 2], pa[k - 1], a[k - 1], w, S, c, f, n, root, s, N);
    t, b := Close(Image(S), c.up, t, b, root, s, N);
    HeldIsFixed(S, root, t, b, s, N);
    x' := root.link.zero;
  }

  /** One round of the loop, lines 643-758.  Either it was the last one, or the stack
      got shorter, or x became red: case 1 followed by case 2 leaves k as it was. */
  method Round(root: RbNode, pa: array<RbNode>, a: array<Dir>, k: nat, ghost x: RbNode?, ghost S: set<RbNode>,
               ghost c: Ctx, ghost f: Tree, ghost n: nat, ghost s: seq<Item>, ghost N: set<RbNode>)
    returns (k': nat, x': RbNode?, done: bool, ghost c': Ctx, ghost f': Tree, ghost n': nat)
    requires Fixing(S, pa, a, k, x, c, f, n, root, s, N) && NeedsFix(c, f)
    requires k <= RB_MAX_HEIGHT && (SibCol(c) == Red ==> k < RB_MAX_HEIGHT)
    modifies pa, a, S
    ensures !done ==> Fixing(S, pa, a, k', x', c', f', n', root, s, N)
    ensures !done ==> k' < k || (k' == k && Col(f') == Red)
    ensures done ==> Fixed(S, x', c', f', n', root, s, N)
  {
    hide *;
    var w;
    k', w, c' := BlackSibling(pa, a, k, x, S, c, f, n, root, s, N);
    NephewTest(S, c', f, root, s, N);
    if (w.link.zero == null || w.link.zero.color == Black) && (w.link.one == null || w.link.one.color == Black) {
      x', k', c', f', n' := BlackNephews(pa, a, k', x, w, S, c', f, n, root, s, N);
      done := false;
    } else {
      x', f', n' := LastRotation(root, pa, a, k', x, w, S, c', f, n, s, N);
      c', done := Top(root), true;
    }
  }

  /** Line 23. */
  method PaintBlack(x: RbNode?, ghost S: set<RbNode>, ghost c: Ctx, ghost f: Tree, ghost n: nat,
                    ghost root: RbNode, ghost s: seq<Item>, ghost N: set<RbNode>)
    returns (ghost t: Tree, ghost b: nat)
    requires Fixed(S, x, c, f, n, root, s, N)
    modifies S
    ensures HoldsTree(Image(S), root, t, b, s, N)
  {
    b := DeficitRepaired(c, f, n);
    if x != null {
      ghost var m := Image(S);
      x.color := Black;
      PaintHeap(m, Image(S), c, f);
    }
    t, b := Close(Image(S), c, Paint(f, Black), b, root, s, N);
  }

  /** RB-Delete-Fixup, lines 641-762.  The path c0 and the subtree f0 below it are one
      black node short of a red-black tree; the result is one, with the same items on
      the same nodes.  It never follows a null sibling, it ends, and the stacks never
      grow past their arrays. */
  method Fixup(root: RbNode, pa: array<RbNode>, a: array<Dir>, k0: nat, x0: RbNode?, ghost S: set<RbNode>,
               ghost c0: Ctx, ghost f0: Tree, ghost n0: nat, ghost s: seq<Item>, ghost N: set<RbNode>)
    returns (ghost t: Tree, ghost b: nat)
    requires Fixing(S, pa, a, k0, x0, c0, f0, n0, root, s, N)
    requires k0 <= RB_MAX_HEIGHT && (NeedsFix(c0, f0) && SibCol(c0) == Red ==> k0 < RB_MAX_HEIGHT)
    modifies pa, a, S
    ensures HoldsTree(Image(S), root, t, b, s, N)
  {
    ghost var c, f, n := c0, f0, n0;
    var k: nat, x := k0, x0;
    var done := false;
    LoopTest(S, pa, a, k, x, c, f, n, root, s, N);
    while k > 1 && (x == null || x.color == Black)
      invariant !done && Fixing(S, pa, a, k, x, c, f, n, root, s, N)
      invariant k <= RB_MAX_HEIGHT && (NeedsFix(c, f) && SibCol(c) == Red ==> k < RB_MAX_HEIGHT)
      invariant NeedsFix(c, f) <==> k > 1 && (x == null || x.color == Black)
      decreases k, NeedsFix(c, f)
    {
      hide *;
      k, x, done, c, f, n := Round(root, pa, a, k, x, S, c, f, n, s, N);
      if done {
        break;
      }
      LoopTest(S, pa, a, k, x, c, f, n, root, s, N);
    }
    hide *;
    if !done {
      LoopOver(S, pa, a, k, x, c, f, n, root, s, N);
    }
    t, b := PaintBlack(x, S, c, f, n, root, s, N);
  }
}
