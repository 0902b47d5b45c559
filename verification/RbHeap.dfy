/** The heap nodes and the two explicit stacks, tied to the path and the subtree they
    represent.

    Stacked says that the first k entries of pa and a spell a path, Carries that the heap
    holds a path and a subtree with a given sequence of items on given nodes.  The methods
    of rb_probe and rb_delete work on the heap alone; after each of them a lemma of this
    module, or of the module of the method, says which path and which subtree the heap
    holds now.

    Descend is the search that both functions begin with.  How far it goes is a matter of
    the key: RbNodes.Pointer. */
module RbHeap {
  import opened RbNodes
  import opened RbContext

  /** The first k entries of the two stacks spell the path c. */
  ghost predicate Stacked(pa: array<RbNode>, a: array<Dir>, k: nat, c: Ctx)
    reads pa, a
  {
    && pa.Length == RB_MAX_HEIGHT && a.Length == RB_MAX_HEIGHT
    && k == Depth(c) <= RB_MAX_HEIGHT && pa[..k] == Refs(c) && a[..k] == Dirs(c)
  }

  lemma StackTop(pa: array<RbNode>, a: array<Dir>, k: nat, c: Ctx)
    requires Stacked(pa, a, k, c) && c.Frame?
    ensures k >= 2 && pa[k - 1] == c.ref && a[k - 1] == c.dir
    ensures pa[k - 2] == LastRef(c.up) && a[k - 2] == LastDir(c.up)
  {
    assert pa[..k] == Refs(c.up) + [c.ref] && a[..k] == Dirs(c.up) + [c.dir];
    assert pa[k - 1] == pa[..k][k - 1] && pa[k - 2] == pa[..k][k - 2];
    assert a[k - 1] == a[..k][k - 1] && a[k - 2] == a[..k][k - 2];
  }

  lemma StackLast(pa: array<RbNode>, a: array<Dir>, k: nat, c: Ctx)
    requires Stacked(pa, a, k, c)
    ensures k >= 1 && pa[k - 1] == LastRef(c) && a[k - 1] == LastDir(c)
  {
    assert pa[k - 1] == pa[..k][k - 1] && a[k - 1] == a[..k][k - 1];
  }

  lemma StackPop(pa: array<RbNode>, a: array<Dir>, k: nat, c: Ctx)
    requires Stacked(pa, a, k, c) && c.Frame?
    ensures Stacked(pa, a, k - 1, c.up)
  {
    assert pa[..k - 1] == pa[..k][..k - 1] == (Refs(c.up) + [c.ref])[..k - 1];
    assert a[..k - 1] == a[..k][..k - 1] == (Dirs(c.up) + [c.dir])[..k - 1];
  }

  method Push(pa: array<RbNode>, a: array<Dir>, k: nat, z: RbNode, d: Dir, ghost c: Ctx, ghost color: Color, ghost item: Item, ghost sib: Tree)
    requires Stacked(pa, a, k, c) && k < RB_MAX_HEIGHT
    modifies pa, a
    ensures Stacked(pa, a, k + 1, Frame(c, z, color, item, d, sib))
  {
    ghost var rs, ds := Refs(c), Dirs(c);
    pa[k] := z;
    a[k] := d;
    assert pa[..k + 1] == rs + [z] && a[..k + 1] == ds + [d];
  }

  /** The store holds the path c with the subtree f at its end; together they are the
      nodes N, they start at the header root, and their items are s. */
  ghost predicate Carries(m: Store, c: Ctx, f: Tree, root: RbNode, s: seq<Item>, N: set<RbNode>) {
    && Rep(m, c, f) && Header(c) == root
    && Whole(c, f) == s && CtxNodes(c) + Nodes(f) == N <= m.Keys
  }

  /** The store holds the tree t under the header root, red-black but for the order of
      its keys. */
  ghost predicate HoldsTree(m: Store, root: RbNode, t: Tree, b: nat, s: seq<Item>, N: set<RbNode>) {
    Carries(m, Top(root), t, root, s, N) && Sound(Top(root), t, b)
  }

  /** What a link and the colour behind it say about the tree. */
  lemma ReadLink(S: set<RbNode>, t: Tree, d: Dir)
    requires t.Fork? && Holds(Image(S), t)
    ensures t.ref in S && t.ref.link.At(d) == Ref(Kid(t, d))
    ensures t.ref.color == t.color && t.ref.data == t.item
    ensures Kid(t, d).Fork? ==> Kid(t, d).ref in S && Kid(t, d).ref.color == Kid(t, d).color
  {
    assert t.ref in Image(S);
    if Kid(t, d).Fork? {
      assert Kid(t, d).ref in Image(S);
    }
  }

  /** The whole tree that a path and the subtree below it make up. */
  lemma Close(m: Store, c: Ctx, f: Tree, n: nat, root: RbNode, s: seq<Item>, N: set<RbNode>) returns (t: Tree, b: nat)
    requires Carries(m, c, f, root, s, N) && Sound(c, f, n)
    ensures HoldsTree(m, root, t, b, s, N)
  {
    t := Plug(c, f);
    PlugRep(m, c, f);
    PlugWhole(c, f);
    b := PlugSound(c, f, n);
  }

  // ---------- Walking down ----------

  /** On the way down, z is at the end of the path on the stacks and nothing is wrong. */
  ghost predicate Walking(m: Store, pa: array<RbNode>, a: array<Dir>, k: nat, z: RbNode?,
                          c: Ctx, f: Tree, n: nat, root: RbNode, s: seq<Item>, N: set<RbNode>)
    reads pa, a
  {
    Carries(m, c, f, root, s, N) && Sound(c, f, n) && Stacked(pa, a, k, c) && z == Ref(f)
  }

  method StepDown(pa: array<RbNode>, a: array<Dir>, k: nat, z: RbNode, d: Dir, ghost m: Store,
                  ghost c: Ctx, ghost f: Tree, ghost n: nat, ghost root: RbNode, ghost s: seq<Item>, ghost N: set<RbNode>)
    returns (z': RbNode?, ghost n': nat)
    requires Walking(m, pa, a, k, z, c, f, n, root, s, N) && f.Fork? && k < RB_MAX_HEIGHT
    requires z in m && z.link == m[z].link
    modifies pa, a
    ensures Walking(m, pa, a, k + 1, z', Down(c, f, d), Kid(f, d), n', root, s, N)
  {
    Push(pa, a, k, z, d, c, f.color, f.item, Kid(f, 1 - d));
    DownRep(m, c, f, d);
    DownSound(c, f, d, n);
    DownWhole(c, f, d);
    n' := DownHeight(f, n);
    z' := z.link.At(d);
  }

  /** What the walk reads at z. */
  lemma WalkRead(S: set<RbNode>, pa: array<RbNode>, a: array<Dir>, k: nat, z: RbNode,
                 c: Ctx, f: Tree, n: nat, root: RbNode, s: seq<Item>, N: set<RbNode>)
    requires Walking(Image(S), pa, a, k, z, c, f, n, root, s, N)
    ensures f.Fork? && z == f.ref && z.data == f.item && z in Image(S) && z.link == Image(S)[z].link
    ensures z.link == Links(Ref(f.left), Ref(f.right))
  {
  }

  lemma WalkWhole(m: Store, pa: array<RbNode>, a: array<Dir>, k: nat, z: RbNode?,
                  c: Ctx, f: Tree, n: nat, root: RbNode, s: seq<Item>, N: set<RbNode>)
    requires Walking(m, pa, a, k, z, c, f, n, root, s, N)
    ensures Whole(c, f) == s && z == Ref(f)
  {
  }

  /** A search that has not ended turns once more, and there is room for it. */
  lemma TurnsAgain(t: Tree, key: Key, k: nat, f: Tree)
    requires k + Pointer(f, key) == Pointer(t, key) + 1 && Pointer(t, key) <= RB_MAX_HEIGHT
    requires f.Fork? && f.item.key != key
    ensures k < RB_MAX_HEIGHT
    ensures k + 1 + Pointer(Kid(f, if key < f.item.key then 0 else 1), key) == Pointer(t, key) + 1
    ensures Sought(Kid(f, if key < f.item.key then 0 else 1), key) == Sought(f, key)
    ensures forall c: Ctx :: var d: Dir := if key < f.item.key then 0 else 1;
      Reach(f, SibCol(c), key) == 1 + Reach(Kid(f, d), SibCol(Down(c, f, d)), key)
  {
  }

  lemma SearchEnds(t: Tree, key: Key, k: nat, f: Tree)
    requires k + Pointer(f, key) == Pointer(t, key) + 1 && (f == Leaf || (f.Fork? && f.item.key == key))
    ensures k == Pointer(t, key) && Sought(f, key) == if f == Leaf then null else f.item
    ensures forall sib: Color :: Reach(f, sib, key) == if f == Leaf then 1 else FoundReach(f, sib)
  {
  }

  /** Turning towards key keeps the hole where key belongs. */
  lemma WalkBetween(m: Store, pa: array<RbNode>, a: array<Dir>, k: nat, z: RbNode?, d: Dir, key: Key,
                    c: Ctx, f: Tree, n: nat, root: RbNode, s: seq<Item>, N: set<RbNode>)
    requires Walking(m, pa, a, k, z, c, f, n, root, s, N) && (Ascending(s) ==> Between(c, key))
    requires f.Fork? && if d == 0 then key < f.item.key else f.item.key < key
    ensures Ascending(s) ==> Between(Down(c, f, d), key)
    ensures Height(Kid(f, d)) < Height(f)
  {
    if Ascending(s) {
      DownBetween(c, f, d, key);
    }
  }

  // ---------- The search loop ----------

  lemma WalkStart(S: set<RbNode>, pa: array<RbNode>, a: array<Dir>, root: RbNode, t: Tree, b: nat, key: Key)
    requires HoldsTree(Image(S), root, t, b, InOrder(t), S)
    requires pa.Length == RB_MAX_HEIGHT && a.Length == RB_MAX_HEIGHT && pa[0] == root && a[0] == 0
    ensures Walking(Image(S), pa, a, 1, root.link.zero, Top(root), t, b, root, InOrder(t), S) && Between(Top(root), key)
    ensures SibCol(Top(root)) == Black
  {
    assert root in Image(S);
    assert pa[..1] == [root] && a[..1] == [0];
  }

  /** Lines 564-590 of rb_delete.  rb_probe's loop, lines 369-402, walks the same path
      with the same stacks. */
  method Descend(root: RbNode, pa: array<RbNode>, a: array<Dir>, key: Key, ghost S: set<RbNode>, ghost t: Tree, ghost b: nat)
    returns (k: nat, z: RbNode?, ghost c: Ctx, ghost f: Tree, ghost n: nat)
    requires HoldsTree(Image(S), root, t, b, InOrder(t), S) && Pointer(t, key) <= RB_MAX_HEIGHT
    requires pa.Length == RB_MAX_HEIGHT && a.Length == RB_MAX_HEIGHT
    modifies pa, a
    ensures Walking(Image(S), pa, a, k, z, c, f, n, root, InOrder(t), S)
    ensures Ascending(InOrder(t)) ==> Between(c, key)
    ensures k == Pointer(t, key)
    ensures k + (if f == Leaf then 1 else FoundReach(f, SibCol(c))) == Reach(t, Black, key) + 1
    ensures z == null <==> Sought(t, key) == null
    ensures z != null ==> f.Fork? && f.item.key == key && z.data == f.item == Sought(t, key)
  {
    hide *;
    a[0] := 0;
    pa[0] := root;
    z := root.link.zero;
    WalkStart(S, pa, a, root, t, b, key);
    k, c, f, n := 1, Top(root), t, b;
    while z != null && Compare(key, z.data.key) != 0
      invariant Walking(Image(S), pa, a, k, z, c, f, n, root, InOrder(t), S)
      invariant Ascending(InOrder(t)) ==> Between(c, key)
      invariant k + Pointer(f, key) == Pointer(t, key) + 1
      invariant k + Reach(f, SibCol(c), key) == Reach(t, Black, key) + 1
      invariant Sought(f, key) == Sought(t, key)
      decreases Height(f)
    {
      WalkRead(S, pa, a, k, z, c, f, n, root, InOrder(t), S);
      var d: Dir := if Compare(key, z.data.key) < 0 then 0 else 1;
      TurnsAgain(t, key, k, f);
      WalkBetween(Image(S), pa, a, k, z, d, key, c, f, n, root, InOrder(t), S);
      ghost var c', f' := Down(c, f, d), Kid(f, d);
      z, n := StepDown(pa, a, k, z, d, Image(S), c, f, n, root, InOrder(t), S);
      k, c, f := k + 1, c', f';
    }
    if z != null {
      WalkRead(S, pa, a, k, z, c, f, n, root, InOrder(t), S);
    }
    WalkWhole(Image(S), pa, a, k, z, c, f, n, root, InOrder(t), S);
    RefNull(z, f);
    SearchEnds(t, key, k, f);
  }

  lemma HeldItems(m: Store, root: RbNode, t: Tree, b: nat, s: seq<Item>, N: set<RbNode>)
    requires HoldsTree(m, root, t, b, s, N)
    ensures InOrder(t) == s && N == {root} + Nodes(t)
  {
  }
}
