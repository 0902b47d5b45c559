/** The explicit stacks of rb_probe and rb_delete as a value.

    At every point of those functions the arrays pa and a describe the path from the
    header node to one link: the stack holds the nodes on the path and the direction
    taken at each.  Ctx is that path together with the subtrees it leaves aside; a Ctx
    and the Tree below it make up the whole tree.

    CtxHolds reads a path off a Store as Holds reads a tree, and Rep puts the two together.
    Down goes one link further and Plug puts a subtree back into its place; neither changes
    what is held, nor the sequence of the items.  What a search knows about its key on the
    way is Between, and what the loops of rb_probe and rb_delete know about colours and
    black counts is stated on a path and the subtree below it in the modules that follow. */
module RbContext {
  import opened RbNodes

  datatype Ctx =
    | Top(header: RbNode)
    | Frame(up: Ctx, ref: RbNode, color: Color, item: Item, dir: Dir, sib: Tree)

  function CtxNodes(c: Ctx): set<RbNode> {
    match c
    case Top(h) => {h}
    case Frame(up, ref, _, _, _, sib) => {ref} + Nodes(sib) + CtxNodes(up)
  }

  /** The top entry of the node stack. */
  function LastRef(c: Ctx): (r: RbNode)
    ensures r in CtxNodes(c)
  {
    if c.Top? then c.header else c.ref
  }

  /** The top entry of the direction stack. */
  function LastDir(c: Ctx): Dir {
    if c.Top? then 0 else c.dir
  }

  function Header(c: Ctx): RbNode {
    if c.Top? then c.header else Header(c.up)
  }

  /** The whole node stack, pa[0] first. */
  function Refs(c: Ctx): (s: seq<RbNode>)
    ensures |s| == Depth(c) && s[|s| - 1] == LastRef(c)
  {
    if c.Top? then [c.header] else Refs(c.up) + [c.ref]
  }

  /** The whole direction stack, a[0] first. */
  function Dirs(c: Ctx): (s: seq<Dir>)
    ensures |s| == Depth(c) && s[|s| - 1] == LastDir(c)
  {
    if c.Top? then [0] else Dirs(c.up) + [c.dir]
  }

  /** The stack pointer. */
  function Depth(c: Ctx): (k: nat)
    ensures k > 0
  {
    if c.Top? then 1 else 1 + Depth(c.up)
  }

  ghost predicate CtxDistinct(c: Ctx) {
    c.Frame? ==>
      && c.ref !in Nodes(c.sib) && c.ref !in CtxNodes(c.up) && Nodes(c.sib) !! CtxNodes(c.up)
      && Distinct(c.sib) && CtxDistinct(c.up)
  }

  ghost predicate CtxHolds(m: Store, c: Ctx, hole: RbNode?) {
    match c
    case Top(h) => h in m && m[h].link == Links(hole, null)
    case Frame(up, ref, color, item, dir, sib) =>
      && ref in m && m[ref] == Cell(color, item, Pair(dir, hole, Ref(sib)))
      && Holds(m, sib) && CtxHolds(m, up, ref)
  }

  function Pair(d: Dir, near: RbNode?, far: RbNode?): Links {
    if d == 0 then Links(near, far) else Links(far, near)
  }

  /** The path and the subtree below it share no node. */
  ghost predicate Apart(c: Ctx, f: Tree) {
    CtxDistinct(c) && Distinct(f) && CtxNodes(c) !! Nodes(f)
  }

  ghost predicate Rep(m: Store, c: Ctx, f: Tree) {
    CtxHolds(m, c, Ref(f)) && Holds(m, f) && Apart(c, f)
  }

  function CtxLeft(c: Ctx): seq<Item> {
    if c.Top? then []
    else if c.dir == 0 then CtxLeft(c.up)
    else CtxLeft(c.up) + InOrder(c.sib) + [c.item]
  }

  function CtxRight(c: Ctx): seq<Item> {
    if c.Top? then []
    else if c.dir == 0 then [c.item] + InOrder(c.sib) + CtxRight(c.up)
    else CtxRight(c.up)
  }

  /** The items of the whole tree, in order. */
  function Whole(c: Ctx, f: Tree): seq<Item> {
    CtxLeft(c) + InOrder(f) + CtxRight(c)
  }

  /** A subtree of black height n in the hole balances the whole tree. */
  predicate CtxBalanced(c: Ctx, n: nat) {
    c.Frame? ==> Balanced(c.sib, n) && CtxBalanced(c.up, if c.color == Black then n + 1 else n)
  }

  /** A subtree whose root has colour col in the hole gives no red-red pair and a black root. */
  predicate CtxNoRedRed(c: Ctx, col: Color) {
    if c.Top? then col == Black
    else
      && (c.color == Red ==> col == Black && Col(c.sib) == Black)
      && NoRedRed(c.sib) && CtxNoRedRed(c.up, c.color)
  }

  ghost predicate Sound(c: Ctx, f: Tree, n: nat) {
    CtxBalanced(c, n) && Balanced(f, n) && NoRedRed(f) && CtxNoRedRed(c, Col(f))
  }

  function Plug(c: Ctx, f: Tree): Tree {
    if c.Top? then f else Plug(c.up, Mk(c.ref, c.color, c.item, c.dir, f, c.sib))
  }

  /** One step down in direction d. */
  function Down(c: Ctx, f: Tree, d: Dir): Ctx
    requires f.Fork?
  {
    Frame(c, f.ref, f.color, f.item, d, Kid(f, 1 - d))
  }

  lemma RebuildKid(f: Tree, d: Dir)
    requires f.Fork?
    ensures f == Mk(f.ref, f.color, f.item, d, Kid(f, d), Kid(f, 1 - d))
  {
  }

  lemma InOrderMk(ref: RbNode, color: Color, item: Item, d: Dir, near: Tree, far: Tree)
    ensures InOrder(Mk(ref, color, item, d, near, far)) ==
            if d == 0 then InOrder(near) + [item] + InOrder(far) else InOrder(far) + [item] + InOrder(near)
  {
  }

  lemma DownRep(m: Store, c: Ctx, f: Tree, d: Dir)
    requires Rep(m, c, f) && f.Fork?
    ensures Rep(m, Down(c, f, d), Kid(f, d))
    ensures CtxNodes(Down(c, f, d)) + Nodes(Kid(f, d)) == CtxNodes(c) + Nodes(f)
  {
    RebuildKid(f, d);
  }

  lemma Regroup<T>(a: seq<T>, b: seq<T>, c: seq<T>, d: seq<T>, e: seq<T>)
    ensures a + (b + c + d) + e == a + b + (c + d + e)
    ensures a + (b + c + d) + e == (a + b + c) + d + e
  {
  }

  lemma DownWhole(c: Ctx, f: Tree, d: Dir)
    requires f.Fork?
    ensures Whole(Down(c, f, d), Kid(f, d)) == Whole(c, f)
  {
    Regroup(CtxLeft(c), InOrder(f.left), [f.item], InOrder(f.right), CtxRight(c));
  }

  function DownHeight(f: Tree, n: nat): nat
    requires f.Fork? && Balanced(f, n)
  {
    if f.color == Red then n else n - 1
  }

  lemma DownSound(c: Ctx, f: Tree, d: Dir, n: nat)
    requires Sound(c, f, n) && f.Fork?
    ensures Sound(Down(c, f, d), Kid(f, d), DownHeight(f, n))
  {
  }

  /** What changes in the store when only the last link of the path is redirected. */
  lemma Rehang(m: Store, k: Store, X: set<RbNode>, c: Ctx, h: RbNode?, h': RbNode?)
    requires CtxHolds(m, c, h) && CtxDistinct(c) && OnlyAt(m, k, X) && CtxNodes(c) * X <= {LastRef(c)}
    requires var g := LastRef(c); g in m && g in k && k[g] == m[g].(link := m[g].link.With(LastDir(c), h'))
    ensures CtxHolds(k, c, h')
  {
    if c.Frame? {
      Keep(m, k, X, c.sib);
      KeepCtx(m, k, X, c.up, c.ref);
    }
  }

  lemma {:induction false} KeepCtx(m: Store, k: Store, X: set<RbNode>, c: Ctx, h: RbNode?)
    requires CtxHolds(m, c, h) && OnlyAt(m, k, X) && CtxNodes(c) !! X
    ensures CtxHolds(k, c, h)
  {
    if c.Frame? {
      Keep(m, k, X, c.sib);
      KeepCtx(m, k, X, c.up, c.ref);
    }
  }

  lemma {:induction false} PlugRep(m: Store, c: Ctx, f: Tree)
    requires Rep(m, c, f)
    ensures Rep(m, Top(Header(c)), Plug(c, f))
    ensures Nodes(Plug(c, f)) + {Header(c)} == CtxNodes(c) + Nodes(f)
  {
    if c.Frame? {
      var t := Mk(c.ref, c.color, c.item, c.dir, f, c.sib);
      assert Rep(m, c.up, t);
      PlugRep(m, c.up, t);
    }
  }

  lemma {:induction false} PlugWhole(c: Ctx, f: Tree)
    ensures InOrder(Plug(c, f)) == Whole(c, f)
  {
    if c.Frame? {
      var t := Mk(c.ref, c.color, c.item, c.dir, f, c.sib);
      PlugWhole(c.up, t);
      DownWhole(c.up, t, c.dir);
      assert Down(c.up, t, c.dir) == c;
    }
  }

  lemma {:induction false} PlugSound(c: Ctx, f: Tree, n: nat) returns (b: nat)
    requires Sound(c, f, n)
    ensures Sound(Top(Header(c)), Plug(c, f), b)
  {
    if c.Top? {
      b := n;
    } else {
      var t := Mk(c.ref, c.color, c.item, c.dir, f, c.sib);
      b := PlugSound(c.up, t, if c.color == Black then n + 1 else n);
    }
  }

  // ---------- Searching ----------

  ghost predicate AllBelow(s: seq<Item>, key: Key) {
    forall i | 0 <= i < |s| :: s[i].key < key
  }

  ghost predicate AllAbove(key: Key, s: seq<Item>) {
    forall i | 0 <= i < |s| :: key < s[i].key
  }

  /** The colour beside the hole. */
  function SibCol(c: Ctx): Color {
    if c.Top? then Black else Col(c.sib)
  }

  /** The hole is where key belongs. */
  ghost predicate Between(c: Ctx, key: Key) {
    AllBelow(CtxLeft(c), key) && AllAbove(key, CtxRight(c))
  }

  lemma AscendingAround(a: seq<Item>, x: Item, b: seq<Item>)
    requires Ascending(a + [x] + b)
    ensures AllBelow(a, x.key) && AllAbove(x.key, b) && Ascending(a) && Ascending(b)
  {
    var s := a + [x] + b;
    assert s[|a|] == x;
    forall i | 0 <= i < |a| ensures a[i].key < x.key { assert s[i] == a[i]; }
    forall i | 0 <= i < |b| ensures x.key < b[i].key { assert s[|a| + 1 + i] == b[i]; }
    forall i, j | 0 <= i < j < |a| ensures a[i].key < a[j].key { assert s[i] == a[i] && s[j] == a[j]; }
    forall i, j | 0 <= i < j < |b| ensures b[i].key < b[j].key {
      assert s[|a| + 1 + i] == b[i] && s[|a| + 1 + j] == b[j];
    }
  }

  lemma AscendingMiddle(a: seq<Item>, b: seq<Item>, c: seq<Item>)
    requires Ascending(a + b + c)
    ensures Ascending(b)
  {
    var s := a + b + c;
    forall i, j | 0 <= i < j < |b| ensures b[i].key < b[j].key {
      assert s[|a| + i] == b[i] && s[|a| + j] == b[j];
    }
  }

  lemma BelowConcat(a: seq<Item>, b: seq<Item>, x: Item, key: Key)
    requires AllBelow(a, key) && AllBelow(b, x.key)
    ensures x.key < key ==> AllBelow(a + b + [x], key)
  {
  }

  lemma AboveConcat(x: Item, a: seq<Item>, b: seq<Item>, key: Key)
    requires AllAbove(x.key, a) && AllAbove(key, b)
    ensures key < x.key ==> AllAbove(key, [x] + a + b)
  {
  }

  lemma DownBetween(c: Ctx, f: Tree, d: Dir, key: Key)
    requires f.Fork? && Ascending(Whole(c, f)) && Between(c, key)
    requires if d == 0 then key < f.item.key else f.item.key < key
    ensures Between(Down(c, f, d), key)
  {
    AscendingMiddle(CtxLeft(c), InOrder(f), CtxRight(c));
    AscendingAround(InOrder(f.left), f.item, InOrder(f.right));
    BelowConcat(CtxLeft(c), InOrder(f.left), f.item, key);
    AboveConcat(f.item, InOrder(f.right), CtxRight(c), key);
  }
}
