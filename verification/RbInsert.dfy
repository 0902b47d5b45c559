/** The inserting half of rb_probe, common/rb.c:404-489, on heap nodes.  The source
    writes the loop body twice, for ad[ak - 2] == 0 and with 0 and 1 exchanged; here it
    is written once over d = ad[ak - 2].

    Each Write method is the run of assignments of one case, and each Fix method says which
    path and which subtree the heap holds afterwards; that they are what the case should
    make of them is said in RbProbeSteps.  The invariant of the loop is Probing: the heap
    holds a path and a subtree, spelled by the stacks, whose one fault may be a red root
    below a red parent.  Nothing here but the place of the new item depends on the order of
    the keys. */
module RbInsert {
  import opened RbNodes
  import opened RbContext
  import opened RbProbeSteps
  import opened RbHeap

  // ---------- The pointer writes, case by case ----------

  /** Lines 420-421. */
  method WriteUncle(g: RbNode, p: RbNode, y: RbNode)
    requires g != p && g != y && p != y
    modifies g, p, y
    ensures g.color == Red && g.data == old(g.data) && g.link == old(g.link)
    ensures p.color == Black && p.data == old(p.data) && p.link == old(p.link)
    ensures y.color == Black && y.data == old(y.data) && y.link == old(y.link)
  {
    y.color := Black;
    p.color := y.color;
    g.color := Red;
  }

  /** Lines 429-433. */
  method WriteInner(g: RbNode, d: Dir, x: RbNode) returns (y: RbNode)
    requires x.link.At(1 - d) != null && g != x && x.link.At(1 - d) !in {g, x}
    modifies g, x, x.link.At(1 - d)
    ensures y == old(x.link.At(1 - d))
    ensures g.color == old(g.color) && g.data == old(g.data) && g.link == old(g.link).With(d, y)
    ensures x.color == old(x.color) && x.data == old(x.data) && x.link == old(x.link).With(1 - d, old(y.link).At(d))
    ensures y.color == old(y.color) && y.data == old(y.data) && y.link == old(y.link).With(d, x)
  {
    y := x.link.At(1 - d);
    x.link := x.link.With(1 - d, y.link.At(d));
    y.link := y.link.With(d, x);
    g.link := g.link.With(d, y);
  }

  /** Lines 439-445. */
  method WriteOuter(gg: RbNode, dg: Dir, x: RbNode, d: Dir, y: RbNode)
    requires gg != x && gg != y && x != y
    modifies gg, x, y
    ensures gg.color == old(gg.color) && gg.data == old(gg.data) && gg.link == old(gg.link).With(dg, y)
    ensures x.color == Red && x.data == old(x.data) && x.link == old(x.link).With(d, old(y.link).At(1 - d))
    ensures y.color == Black && y.data == old(y.data) && y.link == old(y.link).With(1 - d, x)
  {
    x.color := Red;
    y.color := Black;
    x.link := x.link.With(d, y.link.At(1 - d));
    y.link := y.link.With(1 - d, x);
    gg.link := gg.link.With(dg, y);
  }

  // ---------- What each case does to the tree the heap carries ----------

  method FixUncle(g: RbNode, p: RbNode, y: RbNode, ghost S: set<RbNode>,
                  ghost c: Ctx, ghost f: Tree, ghost root: RbNode, ghost s: seq<Item>, ghost N: set<RbNode>)
    requires Carries(Image(S), c, f, root, s, N) && c.Frame? && c.up.Frame? && c.up.sib.Fork?
    requires g == c.up.ref && p == c.ref && y == c.up.sib.ref
    modifies S
    ensures Carries(Image(S), c.up.up, Uncle1Tree(c, f), root, s, N)
    ensures forall v | v in S :: v.data == old(v.data)
  {
    ghost var m := Image(S);
    assert Header(c.up) == root;
    Uncle1Apart(c, f);
    Uncle1Order(c, f);
    WriteUncle(g, p, y);
    Uncle1Heap(m, Image(S), c, f);
  }

  method FixInner(g: RbNode, d: Dir, p: RbNode, ghost S: set<RbNode>,
                  ghost c: Ctx, ghost f: Tree, ghost root: RbNode, ghost s: seq<Item>, ghost N: set<RbNode>)
    returns (y: RbNode)
    requires Carries(Image(S), c, f, root, s, N) && c.Frame? && c.up.Frame? && f.Fork?
    requires g == c.up.ref && d == c.up.dir && d != c.dir && p == c.ref
    modifies S
    ensures Carries(Image(S), Inner2Ctx(c, f), Inner2Tree(c, f), root, s, N) && y == f.ref
    ensures forall v | v in S :: v.data == old(v.data)
  {
    ghost var m := Image(S);
    Inner2Apart(c, f);
    Inner2Order(c, f);
    y := WriteInner(g, d, p);
    Inner2Heap(m, Image(S), c, f);
  }

  method FixOuter(gg: RbNode, dg: Dir, g: RbNode, d: Dir, y: RbNode, ghost S: set<RbNode>,
                  ghost c: Ctx, ghost f: Tree, ghost root: RbNode, ghost s: seq<Item>, ghost N: set<RbNode>)
    requires Carries(Image(S), c, f, root, s, N) && c.Frame? && c.up.Frame? && c.dir == c.up.dir
    requires gg == LastRef(c.up.up) && dg == LastDir(c.up.up) && g == c.up.ref && d == c.dir && y == c.ref
    modifies S
    ensures Carries(Image(S), c.up.up, Outer3Tree(c, f), root, s, N)
    ensures forall v | v in S :: v.data == old(v.data)
  {
    ghost var m := Image(S);
    assert Header(c.up) == root;
    Outer3Apart(c, f);
    Outer3Order(c, f);
    WriteOuter(gg, dg, g, d, y);
    Outer3Heap(m, Image(S), c, f);
  }

  // ---------- The loop ----------

  /** The loop invariant: nothing is wrong but that the red root of the subtree at the
      end of the path may hang below a red node. */
  ghost predicate Probing(S: set<RbNode>, pa: array<RbNode>, a: array<Dir>, k: nat,
                          c: Ctx, f: Tree, n: nat, root: RbNode, s: seq<Item>, N: set<RbNode>)
    reads S, pa, a
  {
    Carries(Image(S), c, f, root, s, N) && RedFocus(c, f, n) && Stacked(pa, a, k, c)
  }

  /** After the loop: the tree is right but for the colour of its root. */
  ghost predicate Rooting(S: set<RbNode>, t: Tree, b: nat, root: RbNode, s: seq<Item>, N: set<RbNode>)
    reads S
  {
    Carries(Image(S), Top(root), t, root, s, N) && Balanced(t, b) && NoRedRed(t) && t.Fork?
  }

  /** What the stacks say about a parent and a grandparent. */
  lemma Grandparent(pa: array<RbNode>, a: array<Dir>, k: nat, c: Ctx)
    requires Stacked(pa, a, k, c) && c.Frame? && c.up.Frame?
    ensures k >= 3 && pa[k - 1] == c.ref && a[k - 1] == c.dir
    ensures pa[k - 2] == c.up.ref && a[k - 2] == c.up.dir
    ensures pa[k - 3] == LastRef(c.up.up) && a[k - 3] == LastDir(c.up.up)
    ensures Stacked(pa, a, k - 2, c.up.up)
  {
    StackTop(pa, a, k, c);
    StackPop(pa, a, k, c);
    StackTop(pa, a, k - 1, c.up);
    StackPop(pa, a, k - 1, c.up);
  }

  /** The test of line 411, read off the heap. */
  lemma ClashTest(S: set<RbNode>, pa: array<RbNode>, a: array<Dir>, k: nat,
                  c: Ctx, f: Tree, n: nat, root: RbNode, s: seq<Item>, N: set<RbNode>)
    requires Probing(S, pa, a, k, c, f, n, root, s, N)
    ensures 0 < k <= pa.Length && (Clash(c) <==> !(k < 3 || pa[k - 1].color != Red))
  {
    if c.Frame? {
      StackTop(pa, a, k, c);
      assert c.ref in Image(S);
      assert Depth(c) == 1 + Depth(c.up);
    }
  }

  /** The uncle of lines 416-417, read off the heap. */
  lemma UncleTest(S: set<RbNode>, pa: array<RbNode>, a: array<Dir>, k: nat,
                  c: Ctx, f: Tree, n: nat, root: RbNode, s: seq<Item>, N: set<RbNode>)
    requires Probing(S, pa, a, k, c, f, n, root, s, N) && Clash(c)
    ensures 3 <= k <= pa.Length == a.Length && c.Frame? && c.up.Frame?
    ensures pa[k - 2].link.At(1 - a[k - 2]) == Ref(c.up.sib)
    ensures Ref(c.up.sib) != null <==> c.up.sib.Fork?
    ensures c.up.sib.Fork? ==> Ref(c.up.sib) == c.up.sib.ref && c.up.sib.ref.color == c.up.sib.color
    ensures Col(c.up.sib) == Red <==> c.up.sib.Fork? && c.up.sib.color == Red
  {
    Grandparent(pa, a, k, c);
    assert CtxHolds(Image(S), c.up, c.ref);
    assert c.up.ref in Image(S);
    if c.up.sib.Fork? {
      assert c.up.sib.ref in Image(S);
    }
  }

  lemma CloseProbe(S: set<RbNode>, c: Ctx, f: Tree, n: nat, root: RbNode, s: seq<Item>, N: set<RbNode>) returns (t: Tree, b: nat)
    requires Carries(Image(S), c, f, root, s, N) && f.Fork?
    requires Sound(c, f, n) || (RedFocus(c, f, n) && !Clash(c))
    ensures Rooting(S, t, b, root, s, N)
  {
    if c.Top? {
      t, b := f, n;
    } else {
      if !Sound(c, f, n) {
        NoClash(c, f, n);
      }
      t, b := Close(Image(S), c, f, n, root, s, N);
      assert root in Image(S);
      PlugFork(Image(S), c, f, t, root);
    }
  }

  lemma PlugFork(m: Store, c: Ctx, f: Tree, t: Tree, root: RbNode)
    requires c.Frame? && Rep(m, Top(root), t) && Rep(m, c, f) && Header(c) == root
    ensures t.Fork?
  {
    PlugRep(m, c, f);
    PlugIsFork(c, f);
  }

  lemma {:induction false} PlugIsFork(c: Ctx, f: Tree)
    ensures f.Fork? || c.Frame? ==> Plug(c, f).Fork?
  {
    if c.Frame? {
      PlugIsFork(c.up, Mk(c.ref, c.color, c.item, c.dir, f, c.sib));
    }
  }

  /** Lines 426-436: afterwards the red node is an outer grandchild and y its parent. */
  method Outward(pa: array<RbNode>, a: array<Dir>, k: nat, ghost S: set<RbNode>,
                 ghost c: Ctx, ghost f: Tree, ghost n: nat, ghost root: RbNode, ghost s: seq<Item>, ghost N: set<RbNode>)
    returns (y: RbNode, ghost c': Ctx, ghost f': Tree)
    requires Probing(S, pa, a, k, c, f, n, root, s, N) && Clash(c) && k >= 3
    modifies S
    ensures Carries(Image(S), c', f', root, s, N) && RedFocus(c', f', n) && Clash(c')
    ensures c'.up == c.up && c'.dir == c.up.dir && y == c'.ref
    ensures forall v | v in S :: v.data == old(v.data)
  {
    Grandparent(pa, a, k, c);
    y, c', f' := pa[k - 1], c, f;
    if a[k - 1] != a[k - 2] {
      Inner2Sound(c, f, n);
      y := FixInner(pa[k - 2], a[k - 2], pa[k - 1], S, c, f, root, s, N);
      c', f' := Inner2Ctx(c, f), Inner2Tree(c, f);
    }
  }

  /** Lines 438-447. */
  method Upward(gg: RbNode, dg: Dir, g: RbNode, d: Dir, y: RbNode, ghost S: set<RbNode>,
                ghost c: Ctx, ghost f: Tree, ghost n: nat, ghost root: RbNode, ghost s: seq<Item>, ghost N: set<RbNode>)
    returns (ghost t: Tree, ghost b: nat)
    requires Carries(Image(S), c, f, root, s, N) && RedFocus(c, f, n) && Clash(c)
    requires Col(c.up.sib) == Black && c.dir == c.up.dir && y == c.ref
    requires gg == LastRef(c.up.up) && dg == LastDir(c.up.up) && g == c.up.ref && d == c.dir
    modifies S
    ensures Rooting(S, t, b, root, s, N)
    ensures forall v | v in S :: v.data == old(v.data)
  {
    Outer3Sound(c, f, n);
    FixOuter(gg, dg, g, d, y, S, c, f, root, s, N);
    t, b := CloseProbe(S, c.up.up, Outer3Tree(c, f), n + 1, root, s, N);
  }

  /** Lines 426-447: the rotations that end the loop. */
  method Rotate(pa: array<RbNode>, a: array<Dir>, k: nat, ghost S: set<RbNode>,
                ghost c: Ctx, ghost f: Tree, ghost n: nat, ghost root: RbNode, ghost s: seq<Item>, ghost N: set<RbNode>)
    returns (ghost t: Tree, ghost b: nat)
    requires Probing(S, pa, a, k, c, f, n, root, s, N) && Clash(c) && Col(c.up.sib) == Black
    modifies S
    ensures Rooting(S, t, b, root, s, N)
    ensures forall v | v in S :: v.data == old(v.data)
  {
    Grandparent(pa, a, k, c);
    hide *;
    var y, c', f' := Outward(pa, a, k, S, c, f, n, root, s, N);
    t, b := Upward(pa[k - 3], a[k - 3], pa[k - 2], a[k - 2], y, S, c', f', n, root, s, N);
  }

  /** Lines 420-422: recolouring, and two levels up. */
  method Recolor(pa: array<RbNode>, a: array<Dir>, k: nat, y: RbNode, ghost S: set<RbNode>,
                 ghost c: Ctx, ghost f: Tree, ghost n: nat, ghost root: RbNode, ghost s: seq<Item>, ghost N: set<RbNode>)
    requires Probing(S, pa, a, k, c, f, n, root, s, N) && Clash(c) && k >= 3
    requires c.up.sib.Fork? && y == c.up.sib.ref && c.up.sib.color == Red
    modifies S
    ensures Probing(S, pa, a, k - 2, c.up.up, Uncle1Tree(c, f), n + 1, root, s, N)
    ensures forall v | v in S :: v.data == old(v.data)
  {
    Grandparent(pa, a, k, c);
    Uncle1Sound(c, f, n);
    FixUncle(pa[k - 2], pa[k - 1], y, S, c, f, root, s, N);
  }

  /** Lines 409-485. */
  method ProbeLoop(pa: array<RbNode>, a: array<Dir>, k0: nat, ghost S: set<RbNode>,
                   ghost c0: Ctx, ghost f0: Tree, ghost n0: nat, ghost root: RbNode, ghost s: seq<Item>, ghost N: set<RbNode>)
    returns (ghost t: Tree, ghost b: nat)
    requires Probing(S, pa, a, k0, c0, f0, n0, root, s, N)
    modifies S
    ensures Rooting(S, t, b, root, s, N)
    ensures forall v | v in S :: v.data == old(v.data)
  {
    hide *;
    ghost var c, f, n := c0, f0, n0;
    var k: nat := k0;
    ClashTest(S, pa, a, k, c, f, n, root, s, N);
    while !(k < 3 || pa[k - 1].color != Red)
      invariant Probing(S, pa, a, k, c, f, n, root, s, N)
      invariant 0 < k <= pa.Length && (Clash(c) <==> !(k < 3 || pa[k - 1].color != Red))
      invariant forall v | v in S :: v.data == old(v.data)
      decreases k
    {
      UncleTest(S, pa, a, k, c, f, n, root, s, N);
      var y := pa[k - 2].link.At(1 - a[k - 2]);
      if y != null && y.color == Red {
        Recolor(pa, a, k, y, S, c, f, n, root, s, N);
        k := k - 2;
        c, f, n := c.up.up, Uncle1Tree(c, f), n + 1;
        ClashTest(S, pa, a, k, c, f, n, root, s, N);
      } else {
        t, b := Rotate(pa, a, k, S, c, f, n, root, s, N);
        return;
      }
    }
    t, b := ProbeOver(S, pa, a, k, c, f, n, root, s, N);
  }

  lemma ProbeOver(S: set<RbNode>, pa: array<RbNode>, a: array<Dir>, k: nat,
                  c: Ctx, f: Tree, n: nat, root: RbNode, s: seq<Item>, N: set<RbNode>) returns (t: Tree, b: nat)
    requires Probing(S, pa, a, k, c, f, n, root, s, N) && !Clash(c)
    ensures Rooting(S, t, b, root, s, N)
  {
    t, b := CloseProbe(S, c, f, n, root, s, N);
  }

  /** Line 487. */
  method PaintRoot(root: RbNode, ghost S: set<RbNode>, ghost t: Tree, ghost b: nat, ghost s: seq<Item>, ghost N: set<RbNode>)
    returns (ghost t': Tree, ghost b': nat)
    requires Rooting(S, t, b, root, s, N)
    modifies S
    ensures HoldsTree(Image(S), root, t', b', s, N)
    ensures forall v | v in S :: v.data == old(v.data)
  {
    ghost var m := Image(S);
    assert root in m && t.ref in m;
    root.link.zero.color := Black;
    t', b' := Paint(t, Black), if t.color == Red then b + 1 else b;
    Keep(m, Image(S), {t.ref}, t.left);
    Keep(m, Image(S), {t.ref}, t.right);
  }

  /** Lines 383 and 394, then 405-407: a new red node at the end of the path. */
  method Attach(pa: array<RbNode>, a: array<Dir>, k: nat, item: Item, ghost S: set<RbNode>,
                ghost c: Ctx, ghost n: nat, ghost root: RbNode, ghost s: seq<Item>)
    returns (x: RbNode)
    requires Walking(Image(S), pa, a, k, null, c, Leaf, n, root, s, S)
    modifies S
    ensures fresh(x) && x.data == item
    ensures Probing(S + {x}, pa, a, k, c, Fork(x, Red, item, Leaf, Leaf), n, root,
                    CtxLeft(c) + [item] + CtxRight(c), S + {x})
    ensures forall v | v in S :: v.data == old(v.data)
  {
    ghost var m := Image(S);
    StackLast(pa, a, k, c);
    x := new RbNode(item, Red);
    pa[k - 1].link := pa[k - 1].link.With(a[k - 1], x);
    AttachHeap(m, Image(S + {x}), c, x, item);
    AttachSound(c, x, item, n);
  }

  /** Lines 358-367: the first node of the tree. */
  method Plant(root: RbNode, item: Item, ghost S: set<RbNode>, ghost b: nat) returns (x: RbNode)
    requires HoldsTree(Image(S), root, Leaf, b, [], S)
    modifies S
    ensures fresh(x) && x.data == item
    ensures HoldsTree(Image(S + {x}), root, Fork(x, Black, item, Leaf, Leaf), 1, [item], S + {x})
  {
    assert root in Image(S);
    x := new RbNode(item, Black);
    root.link := root.link.With(0, x);
    ghost var k, t := Image(S + {x}), Fork(x, Black, item, Leaf, Leaf);
    assert x in k && root in k && x != root;
    assert Holds(k, t) && Nodes(t) == {x};
  }

  lemma InsertedLength(s: seq<Item>, x: Item, s': seq<Item>)
    requires Inserted(s, x, s')
    ensures |s'| == |s| + 1
  {
  }

  lemma PutIn(l: seq<Item>, x: Item, r: seq<Item>)
    requires Ascending(l + r) && AllBelow(l, x.key) && AllAbove(x.key, r)
    ensures Inserted(l + r, x, l + [x] + r) && Ascending(l + [x] + r)
  {
    var s, s' := l + r, l + [x] + r;
    assert s[..|l|] == l && s[|l|..] == r;
    forall i, j | 0 <= i < j < |s'| ensures s'[i].key < s'[j].key {
      if i < |l| && j > |l| {
        assert s'[i] == s[i] && s'[j] == s[j - 1];
      } else if j < |l| {
        assert s'[i] == s[i] && s'[j] == s[j];
      } else if i > |l| {
        assert s'[i] == s[i - 1] && s'[j] == s[j - 1];
      }
    }
  }

  /** An item put where a search ended.  When the keys ascend, they still do. */
  lemma InsertedHere(m: Store, pa: array<RbNode>, a: array<Dir>, k: nat, c: Ctx, f: Tree, n: nat, root: RbNode, s: seq<Item>, N: set<RbNode>, x: Item)
    requires Walking(m, pa, a, k, null, c, f, n, root, s, N) && (Ascending(s) ==> Between(c, x.key))
    ensures f == Leaf && s == CtxLeft(c) + CtxRight(c)
    ensures Inserted(s, x, CtxLeft(c) + [x] + CtxRight(c))
    ensures Ascending(s) ==> Ascending(CtxLeft(c) + [x] + CtxRight(c))
  {
    assert s == CtxLeft(c) + CtxRight(c);
    assert s[..|CtxLeft(c)|] == CtxLeft(c) && s[|CtxLeft(c)|..] == CtxRight(c);
    if Ascending(s) {
      PutIn(CtxLeft(c), x, CtxRight(c));
    }
  }

  lemma PresentHere(m: Store, pa: array<RbNode>, a: array<Dir>, k: nat, z: RbNode, c: Ctx, f: Tree, n: nat, root: RbNode, s: seq<Item>, N: set<RbNode>)
    requires Walking(m, pa, a, k, z, c, f, n, root, s, N)
    ensures f.Fork? && z == f.ref && z in N && !Absent(s, f.item.key)
    ensures Header(c) == root && z != root
  {
    var i := |CtxLeft(c)| + |InOrder(f.left)|;
    assert s == CtxLeft(c) + (InOrder(f.left) + [f.item] + InOrder(f.right)) + CtxRight(c);
    assert s[i] == f.item;
    HeaderInPath(c);
  }

  lemma {:induction false} HeaderInPath(c: Ctx)
    ensures Header(c) in CtxNodes(c)
  {
    if c.Frame? {
      HeaderInPath(c.up);
    }
  }

  /** From line 404 on: a new node for item at the end of the path. */
  method InsertAt(root: RbNode, pa: array<RbNode>, a: array<Dir>, k: nat, item: Item, ghost S: set<RbNode>,
                  ghost c: Ctx, ghost n: nat, ghost s: seq<Item>)
    returns (x: RbNode, ghost t: Tree, ghost b: nat)
    requires Walking(Image(S), pa, a, k, null, c, Leaf, n, root, s, S)
    modifies S
    ensures fresh(x) && x.data == item
    ensures HoldsTree(Image(S + {x}), root, t, b, CtxLeft(c) + [item] + CtxRight(c), S + {x})
  {
    hide *;
    x := Attach(pa, a, k, item, S, c, n, root, s);
    ghost var s' := CtxLeft(c) + [item] + CtxRight(c);
    t, b := ProbeLoop(pa, a, k, S + {x}, c, Fork(x, Red, item, Leaf, Leaf), n, root, s', S + {x});
    t, b := PaintRoot(root, S + {x}, t, b, s', S + {x});
  }

  lemma RootLink(S: set<RbNode>, root: RbNode, t: Tree, b: nat)
    requires HoldsTree(Image(S), root, t, b, InOrder(t), S)
    ensures root in S && root.link.zero == Ref(t) && (Ref(t) == null <==> t == Leaf)
  {
    assert root in Image(S);
  }

  /** rb_probe, lines 348-489, but for the counter, whatever the order of the keys.  slot is
      the node whose data field the returned pointer addresses. */
  method ProbeFrom(root: RbNode, item: Item, ghost S: set<RbNode>, ghost t: Tree, ghost b: nat)
    returns (slot: RbNode, added: bool, ghost t': Tree, ghost b': nat, ghost N: set<RbNode>)
    requires HoldsTree(Image(S), root, t, b, InOrder(t), S) && Pointer(t, item.key) <= RB_MAX_HEIGHT
    modifies S
    ensures added <==> Sought(t, item.key) == null
    ensures !added ==> slot in Nodes(t) && slot.data == Sought(t, item.key) && Image(S) == old(Image(S))
    ensures added ==>
      && fresh(slot) && slot.data == item && N == S + {slot}
      && Inserted(InOrder(t), item, InOrder(t')) && (Ascending(InOrder(t)) ==> Ascending(InOrder(t')))
      && HoldsTree(Image(N), root, t', b', InOrder(t'), N)
  {
    t', b', N := t, b, S;
    RootLink(S, root, t, b);
    if root.link.zero == null {
      slot := Plant(root, item, S, b);
      added := true;
      t', b', N := Fork(slot, Black, item, Leaf, Leaf), 1, S + {slot};
      assert InOrder(t') == [][..0] + [item] + [][0..];
      return;
    }
    var pa := new RbNode[RB_MAX_HEIGHT](_ => root);
    var a := new Dir[RB_MAX_HEIGHT](_ => 0);
    hide *;
    HeldItems(Image(S), root, t, b, InOrder(t), S);
    var k, z, c, f, n := Descend(root, pa, a, item.key, S, t, b);
    if z != null {
      PresentHere(Image(S), pa, a, k, z, c, f, n, root, InOrder(t), S);
      return z, false, t', b', N;
    }
    InsertedHere(Image(S), pa, a, k, c, f, n, root, InOrder(t), S, item);
    added := true;
    slot, t', b' := InsertAt(root, pa, a, k, item, S, c, n, InOrder(t));
    N := S + {slot};
    HeldItems(Image(N), root, t', b', CtxLeft(c) + [item] + CtxRight(c), N);
  }
}
