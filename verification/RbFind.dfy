/** rb_find and rb_find_close, common/rb.c:492-543, on heap nodes. */
module RbFind {
  import opened RbNodes
  import opened RbContext
  import opened RbHeap

  /** The search is at z; key, if anywhere, is at or below z. */
  ghost predicate Looking(m: Store, z: RbNode?, key: Key, c: Ctx, f: Tree, root: RbNode, s: seq<Item>, N: set<RbNode>) {
    Carries(m, c, f, root, s, N) && Ascending(s) && Between(c, key) && z == Ref(f)
  }

  lemma LookStart(S: set<RbNode>, key: Key, t: Tree, b: nat, root: RbNode)
    requires HoldsTree(Image(S), root, t, b, InOrder(t), S) && Ascending(InOrder(t))
    ensures root in S && Looking(Image(S), root.link.zero, key, Top(root), t, root, InOrder(t), S)
    ensures root.link.zero == null <==> t == Leaf
  {
    assert root in Image(S);
  }

  /** What a search reads at z. */
  lemma LookAt(S: set<RbNode>, z: RbNode, key: Key, c: Ctx, f: Tree, root: RbNode, s: seq<Item>)
    requires Looking(Image(S), z, key, c, f, root, s, S)
    ensures f.Fork? && z.data == f.item && z.link == Links(Ref(f.left), Ref(f.right))
    ensures exists i | 0 <= i < |s| :: s[i] == f.item
  {
    ReadLink(S, f, 0);
    var i := |CtxLeft(c)| + |InOrder(f.left)|;
    assert s == CtxLeft(c) + (InOrder(f.left) + [f.item] + InOrder(f.right)) + CtxRight(c);
    assert s[i] == f.item;
  }

  lemma LookDown(m: Store, z: RbNode, d: Dir, key: Key, c: Ctx, f: Tree, root: RbNode, s: seq<Item>, N: set<RbNode>)
    requires Looking(m, z, key, c, f, root, s, N) && f.Fork?
    requires if d == 0 then key < f.item.key else f.item.key < key
    ensures Looking(m, Ref(Kid(f, d)), key, Down(c, f, d), Kid(f, d), root, s, N)
    ensures Height(Kid(f, d)) < Height(f)
  {
    DownRep(m, c, f, d);
    DownWhole(c, f, d);
    DownBetween(c, f, d, key);
  }

  /** rb_find, lines 493-512, whatever the order of the keys. */
  method FindFrom(root: RbNode, key: Key, ghost S: set<RbNode>, ghost t: Tree) returns (found: Item?)
    requires Rep(Image(S), Top(root), t)
    ensures found == Sought(t, key)
  {
    assert root in Image(S);
    var p := root.link.zero;
    ghost var f := t;
    while p != null
      invariant Holds(Image(S), f) && p == Ref(f) && Sought(f, key) == Sought(t, key)
      decreases Height(f)
    {
      ReadNode(S, f);
      var diff := Compare(key, p.data.key);
      if diff == 0 {
        return p.data;
      }
      f := Toward(f, key);
      p := p.link.At(if diff < 0 then 0 else 1);
    }
    found := null;
  }

  lemma LinkAt(l: Links, f: Tree, d: Dir)
    requires f.Fork? && l == Links(Ref(f.left), Ref(f.right))
    ensures l.At(d) == Ref(Kid(f, d))
  {
  }

  /** x is in s, and no key of s lies closer to key on x's side of it. */
  ghost predicate Closest(s: seq<Item>, x: Item, key: Key) {
    && (exists i | 0 <= i < |s| :: s[i] == x)
    && (x.key < key ==> forall i | 0 <= i < |s| :: s[i].key <= x.key || key < s[i].key)
    && (key < x.key ==> forall i | 0 <= i < |s| :: s[i].key < key || x.key <= s[i].key)
  }

  lemma ClosestSplit(l: seq<Item>, x: Item, r: seq<Item>, d: Dir, key: Key)
    requires Ascending(l + [x] + r)
    requires if d == 0 then key < x.key && AllBelow(l, key) else x.key < key && AllAbove(key, r)
    ensures Closest(l + [x] + r, x, key)
  {
    var s := l + [x] + r;
    assert s[|l|] == x;
    AscendingAround(l, x, r);
    forall i | 0 <= i < |s|
      ensures if d == 0 then s[i].key < key || x.key <= s[i].key else s[i].key <= x.key || key < s[i].key
    {
      if i < |l| {
        assert s[i] == l[i];
      } else if i > |l| {
        assert s[i] == r[i - |l| - 1];
      }
    }
  }

  lemma LookWhole(m: Store, z: RbNode, key: Key, c: Ctx, f: Tree, root: RbNode, s: seq<Item>, N: set<RbNode>)
    requires Looking(m, z, key, c, f, root, s, N) && f.Fork?
    ensures s == (CtxLeft(c) + InOrder(f.left)) + [f.item] + (InOrder(f.right) + CtxRight(c))
    ensures Ascending(s) && AllBelow(CtxLeft(c), key) && AllAbove(key, CtxRight(c))
  {
    hide Ascending, Rep, CtxNodes, Nodes, AllBelow, AllAbove, CtxLeft, CtxRight;
    Regroup(CtxLeft(c), InOrder(f.left), f.item, InOrder(f.right), CtxRight(c));
  }

  lemma Regroup(a: seq<Item>, u: seq<Item>, x: Item, v: seq<Item>, b: seq<Item>)
    ensures a + (u + [x] + v) + b == (a + u) + [x] + (v + b)
  {
  }

  /** Where the search for key stops, the nearest item on that side is the one at z. */
  lemma ClosestHere(m: Store, z: RbNode, d: Dir, key: Key, c: Ctx, f: Tree, root: RbNode, s: seq<Item>, N: set<RbNode>)
    requires Looking(m, z, key, c, f, root, s, N) && f.Fork? && Kid(f, d) == Leaf
    requires if d == 0 then key < f.item.key else f.item.key < key
    ensures Closest(s, f.item, key)
  {
    var a, u, v, b := CtxLeft(c), InOrder(f.left), InOrder(f.right), CtxRight(c);
    LookWhole(m, z, key, c, f, root, s, N);
    hide Looking, Ascending, Closest;
    if d == 0 {
      assert a + u == a;
    } else {
      assert v + b == b;
    }
    ClosestSplit(a + u, f.item, v + b, d, key);
  }

  /** rb_find_close, lines 516-543. */
  method FindCloseFrom(root: RbNode, key: Key, ghost S: set<RbNode>, ghost t: Tree, ghost b: nat) returns (found: Item?)
    requires HoldsTree(Image(S), root, t, b, InOrder(t), S) && Ascending(InOrder(t))
    ensures found == null <==> t == Leaf
    ensures found != null ==> Closest(InOrder(t), found, key)
  {
    hide *;
    LookStart(S, key, t, b, root);
    var p := root.link.zero;
    if p == null {
      return null;
    }

    ghost var c, f := Top(root), t;
    while true
      invariant p != null && Looking(Image(S), p, key, c, f, root, InOrder(t), S)
      decreases Height(f)
    {
      LookAt(S, p, key, c, f, root, InOrder(t));
      var diff := Compare(key, p.data.key);
      if diff == 0 {
        ClosestSelf(InOrder(t), f.item);
        return p.data;
      }
      var d: Dir := if diff < 0 then 0 else 1;
      LinkAt(p.link, f, d);
      if p.link.At(d) != null {
        LookDown(Image(S), p, d, key, c, f, root, InOrder(t), S);
        p := p.link.At(d);
        c, f := Down(c, f, d), Kid(f, d);
      } else {
        RefNull(p.link.At(d), Kid(f, d));
        ClosestHere(Image(S), p, d, key, c, f, root, InOrder(t), S);
        return p.data;
      }
    }
  }

  lemma ClosestSelf(s: seq<Item>, x: Item)
    requires exists i | 0 <= i < |s| :: s[i] == x
    ensures Closest(s, x, x.key)
  {
  }
}
