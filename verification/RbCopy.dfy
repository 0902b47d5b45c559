/** rb_copy, common/rb.c:167-253: Knuth's Algorithm 2.3.1C with an explicit pre-order
    traversal of the old and the new tree side by side.

    Twins maps each old node to the node that has been made for it.  A new node starts as a
    stub: it is hung into the new tree before its colour and data are filled in and before
    its children exist.  Going left, the old and the new node are pushed; coming back, a
    node without right child is left behind and the pair of the next one is popped.

    Visited, Moving and Halfway are the places in the loop, named after the steps of the
    algorithm: a node whose left subtree is next, a subtree that is next, and a node between
    getting its stubs and getting its colour and data.  What they share is Base: the new
    nodes are linked as the old ones are, and all but those still to be copied have the old
    colours and copies of the old data.  The subtrees that the stacks leave for later are a
    sequence of trees. */
module RbCopy {
  import opened RbNodes
  import opened RbContext

  /** From nodes of the old tree to the nodes made for them so far. */
  type Twins = map<RbNode, RbNode>

  function Twin(phi: Twins, n: RbNode?): RbNode? {
    if n != null && n in phi then phi[n] else null
  }

  /** t on the new nodes, with the data that copy makes of the old. */
  function Image2(t: Tree, phi: Twins, copy: Item -> Item): Tree {
    if t.Leaf? || t.ref !in phi then Leaf
    else Fork(phi[t.ref], t.color, copy(t.item), Image2(t.left, phi, copy), Image2(t.right, phi, copy))
  }

  /** Same shape, same colours, copied data. */
  predicate SameShape(t: Tree, u: Tree, copy: Item -> Item) {
    if t.Leaf? then u.Leaf?
    else
      && u.Fork? && u.color == t.color && u.item == copy(t.item)
      && SameShape(t.left, u.left, copy) && SameShape(t.right, u.right, copy)
  }

  ghost predicate Injective(phi: Twins) {
    forall a, b | a in phi && b in phi && phi[a] == phi[b] :: a == b
  }

  /** New nodes are linked as the old ones are, as far as there are new nodes. */
  ghost predicate Linked(m: Store, k: Store, phi: Twins) {
    forall n | n in phi ::
      && n in m && phi[n] in k
      && k[phi[n]].link == Links(Twin(phi, m[n].link.zero), Twin(phi, m[n].link.one))
  }

  /** The nodes of V have their colour and data. */
  ghost predicate Filled(m: Store, k: Store, phi: Twins, V: set<RbNode>, copy: Item -> Item) {
    forall n | n in V :: n in phi && n in m && phi[n] in k && k[phi[n]].color == m[n].color && k[phi[n]].data == copy(m[n].data)
  }

  // ---------- A node hangs from one link only ----------

  lemma {:induction false} ParentKnown(m: Store, t: Tree, n: RbNode, d: Dir)
    requires Holds(m, t) && n in Nodes(t) && n in m && m[n].link.At(d) != null && Distinct(t)
    ensures m[n].link.At(d) in Nodes(t) && m[n].link.At(d) != Ref(t)
  {
    if t.ref != n {
      if n in Nodes(t.left) {
        ParentKnown(m, t.left, n, d);
      } else {
        ParentKnown(m, t.right, n, d);
      }
    }
  }

  lemma {:induction false} OneParent(m: Store, t: Tree, n: RbNode, d: Dir, n': RbNode, d': Dir)
    requires Holds(m, t) && Distinct(t) && n in Nodes(t) && n' in Nodes(t) && n in m && n' in m
    requires m[n].link.At(d) != null && m[n].link.At(d) == m[n'].link.At(d')
    ensures n == n' && d == d'
  {
    if t.ref == n == n' {
    } else if n in Nodes(t.left) && n' in Nodes(t.left) {
      OneParent(m, t.left, n, d, n', d');
    } else if n in Nodes(t.right) && n' in Nodes(t.right) {
      OneParent(m, t.right, n, d, n', d');
    } else {
      Under(m, t, n, d);
      Under(m, t, n', d');
    }
  }

  /** Where the child of n lies. */
  lemma Under(m: Store, t: Tree, n: RbNode, d: Dir)
    requires Holds(m, t) && Distinct(t) && n in Nodes(t) && n in m && m[n].link.At(d) != null
    ensures n == t.ref ==> m[n].link.At(d) == Ref(if d == 0 then t.left else t.right)
    ensures n in Nodes(t.left) ==> m[n].link.At(d) in Nodes(t.left) && m[n].link.At(d) != Ref(t.left)
    ensures n in Nodes(t.right) ==> m[n].link.At(d) in Nodes(t.right) && m[n].link.At(d) != Ref(t.right)
  {
    if n in Nodes(t.left) {
      ParentKnown(m, t.left, n, d);
    }
    if n in Nodes(t.right) {
      ParentKnown(m, t.right, n, d);
    }
  }

  // ---------- One new node ----------

  /** Allocating r for the child c of n in direction d, and linking it. */
  lemma Grow(m: Store, k: Store, k': Store, phi: Twins, t: Tree, n: RbNode, d: Dir, c: RbNode, r: RbNode)
    requires Holds(m, t) && Distinct(t) && phi.Keys <= Nodes(t) && Linked(m, k, phi) && Injective(phi)
    requires n in phi && c in m && c !in phi && m[n].link.At(d) == c
    requires m[c].link.zero !in phi.Keys + {c} && m[c].link.one !in phi.Keys + {c}
    requires r !in k && OnlyAt(k, k', {phi[n]}) && phi[n] in k' && r in k'
    requires k'[phi[n]] == k[phi[n]].(link := k[phi[n]].link.With(d, r)) && k'[r].link == Links(null, null)
    ensures Linked(m, k', phi[c := r]) && Injective(phi[c := r])
  {
    var psi := phi[c := r];
    forall a | a in psi
      ensures a in m && psi[a] in k' && k'[psi[a]].link == Links(Twin(psi, m[a].link.zero), Twin(psi, m[a].link.one))
    {
      if a != c {
        if m[a].link.zero == c { OneParent(m, t, n, d, a, 0); }
        if m[a].link.one == c { OneParent(m, t, n, d, a, 1); }
      }
    }
  }

  // ---------- What is still to be copied ----------

  /** The root of f has a new node, nothing below it has. */
  ghost predicate Stub(phi: Twins, f: Tree) {
    f.Fork? ==> f.ref in phi && Nodes(f.left) !! phi.Keys && Nodes(f.right) !! phi.Keys
  }

  function Rights(p: seq<Tree>): set<RbNode> {
    if p == [] then {}
    else (if p[|p| - 1].Leaf? then {} else Nodes(p[|p| - 1].right)) + Rights(p[..|p| - 1])
  }

  function RightsSize(p: seq<Tree>): nat {
    if p == [] then 0
    else (if p[|p| - 1].Leaf? then 0 else Size(p[|p| - 1].right)) + RightsSize(p[..|p| - 1])
  }

  /** The right subtrees of the stacked nodes wait as stubs. */
  ghost predicate Waiting(phi: Twins, p: seq<Tree>) {
    p != [] ==>
      var f := p[|p| - 1];
      && f.Fork? && Stub(phi, f.right) && Distinct(f.right) && Nodes(f.right) !! Rights(p[..|p| - 1])
      && Waiting(phi, p[..|p| - 1])
  }

  lemma {:induction false} WaitingGrow(phi: Twins, p: seq<Tree>, c: RbNode, r: RbNode)
    requires Waiting(phi, p) && c !in Rights(p)
    ensures Waiting(phi[c := r], p)
  {
    if p != [] {
      WaitingGrow(phi, p[..|p| - 1], c, r);
    }
  }

  /** The old tree t0 (with the header as its root) is copied but for the nodes U, which
      have at most stubs; k is the store of the new nodes. */
  ghost predicate Base(m: Store, k: Store, phi: Twins, t0: Tree, U: set<RbNode>, copy: Item -> Item) {
    && Holds(m, t0) && Distinct(t0) && t0.Fork? && phi.Keys <= Nodes(t0) && k.Keys == phi.Values
    && Linked(m, k, phi) && Injective(phi)
    && U <= Nodes(t0) && Filled(m, k, phi, Nodes(t0) - {t0.ref} - U, copy)
  }

  /** At step C4: cur has its colour, its data and a stub on the right. */
  ghost predicate Visited(m: Store, k: Store, phi: Twins, t0: Tree, cur: Tree, p: seq<Tree>, copy: Item -> Item) {
    && cur.Fork? && Holds(m, cur) && Distinct(cur) && cur.ref in phi
    && Nodes(cur.left) !! phi.Keys && Stub(phi, cur.right)
    && Nodes(cur) !! Rights(p) && Waiting(phi, p)
    && Base(m, k, phi, t0, Nodes(cur.left) + Nodes(cur.right) + Rights(p), copy)
  }

  /** At steps PT2 and PT5: f is the next subtree, and it has a stub. */
  ghost predicate Moving(m: Store, k: Store, phi: Twins, t0: Tree, f: Tree, p: seq<Tree>, copy: Item -> Item) {
    && Holds(m, f) && Distinct(f) && Stub(phi, f)
    && Nodes(f) !! Rights(p) && Waiting(phi, p)
    && Base(m, k, phi, t0, Nodes(f) + Rights(p), copy)
  }

  /** Between steps C2 and C3. */
  ghost predicate Halfway(m: Store, k: Store, phi: Twins, t0: Tree, f: Tree, p: seq<Tree>, copy: Item -> Item) {
    && Holds(m, f) && Distinct(f) && f.Fork? && f.ref in phi
    && Stub(phi, f.right) && Nodes(f.left) !! phi.Keys
    && Nodes(f) !! Rights(p) && Waiting(phi, p)
    && Base(m, k, phi, t0, Nodes(f) + Rights(p), copy)
  }

  /** Stacks PA and QA. */
  ghost predicate Stacks(m: Store, phi: Twins, pa: array<RbNode?>, qa: array<RbNode?>, n: nat, p: seq<Tree>, h: nat)
    reads pa, qa
  {
    && pa.Length == RB_MAX_HEIGHT && qa.Length == RB_MAX_HEIGHT && n == |p| <= RB_MAX_HEIGHT
    && forall i | 0 <= i < |p| ::
         && p[i].Fork? && Holds(m, p[i]) && Height(p[i]) + i <= h && p[i].ref in phi
         && pa[i] == p[i].ref && qa[i] == phi[p[i].ref]
  }

  // ---------- The steps ----------

  lemma ChildFacts(m: Store, f: Tree, d: Dir)
    requires Holds(m, f) && Distinct(f) && f.Fork?
    ensures f.ref in m && m[f.ref].link.At(d) == Ref(Kid(f, d))
    ensures var g := Kid(f, d); g.Fork? ==>
      && g.ref in m && m[g.ref].link == Links(Ref(g.left), Ref(g.right)) && g.ref in Nodes(g) && g.ref != f.ref
      && g.ref !in Nodes(g.left) && g.ref !in Nodes(g.right)
      && (Ref(g.left) != null ==> Ref(g.left) in Nodes(g.left)) && (Ref(g.right) != null ==> Ref(g.right) in Nodes(g.right))
  {
  }

  lemma VisitedIsMoving(m: Store, k: Store, phi: Twins, t0: Tree, cur: Tree, p: seq<Tree>, copy: Item -> Item)
    requires Visited(m, k, phi, t0, cur, p, copy) && cur.left == Leaf
    ensures Moving(m, k, phi, t0, Leaf, p + [cur], copy)
  {
    assert (p + [cur])[..|p|] == p;
    assert Nodes(Leaf) + Rights(p + [cur]) == Nodes(cur.left) + Nodes(cur.right) + Rights(p);
  }

  lemma FilledGrow(m: Store, k: Store, k': Store, phi: Twins, V: set<RbNode>, copy: Item -> Item, n: RbNode, c: RbNode, r: RbNode)
    requires Filled(m, k, phi, V, copy) && n in phi && c !in phi && OnlyAt(k, k', {phi[n]}) && phi[n] in k && phi[n] in k'
    requires k'[phi[n]].color == k[phi[n]].color && k'[phi[n]].data == k[phi[n]].data
    ensures Filled(m, k', phi[c := r], V, copy)
  {
  }

  lemma StubGrow(phi: Twins, f: Tree, c: RbNode, r: RbNode)
    requires Stub(phi, f) && c !in Nodes(f)
    ensures Stub(phi[c := r], f)
  {
  }

  lemma ValuesGrow(phi: Twins, c: RbNode, r: RbNode)
    requires c !in phi
    ensures phi[c := r].Values == phi.Values + {r}
  {
    var psi := phi[c := r];
    assert psi[c] == r;
    forall v | v in phi.Values ensures v in psi.Values {
      var a: RbNode :| a in phi && phi[a] == v;
      assert psi[a] == v;
    }
  }

  /** A stub r for the child of f in direction d. */
  lemma BaseGrow(m: Store, k: Store, k': Store, phi: Twins, t0: Tree, f: Tree, d: Dir, U: set<RbNode>, copy: Item -> Item, r: RbNode)
    requires Base(m, k, phi, t0, U, copy) && Holds(m, f) && Distinct(f) && f.Fork? && Kid(f, d).Fork?
    requires f.ref in phi && Nodes(Kid(f, d)) !! phi.Keys && Kid(f, d).ref in Nodes(t0)
    requires Sprouted(k, k', phi[f.ref], d, r)
    ensures Base(m, k', phi[Kid(f, d).ref := r], t0, U, copy)
  {
    var c := Kid(f, d).ref;
    ChildFacts(m, f, d);
    Grow(m, k, k', phi, t0, f.ref, d, c, r);
    FilledGrow(m, k, k', phi, Nodes(t0) - {t0.ref} - U, copy, f.ref, c, r);
    ValuesGrow(phi, c, r);
  }

  /** Step C4 when cur has a left child. */
  lemma LeftGrow(m: Store, k: Store, k': Store, phi: Twins, t0: Tree, cur: Tree, p: seq<Tree>, copy: Item -> Item, r: RbNode)
    requires Visited(m, k, phi, t0, cur, p, copy) && cur.left.Fork?
    requires Sprouted(k, k', phi[cur.ref], 0, r)
    ensures Moving(m, k', phi[cur.left.ref := r], t0, cur.left, p + [cur], copy)
  {
    var c, U := cur.left.ref, Nodes(cur.left) + Nodes(cur.right) + Rights(p);
    assert c in Nodes(cur.left) && c in U;
    BaseGrow(m, k, k', phi, t0, cur, 0, U, copy, r);
    WaitingGrow(phi, p, c, r);
    StubGrow(phi, cur.right, c, r);
    LeftStub(phi, cur, p, r);
    assert Nodes(cur.left) + Rights(p + [cur]) == U;
  }

  lemma LeftStub(phi: Twins, cur: Tree, p: seq<Tree>, r: RbNode)
    requires cur.Fork? && cur.left.Fork? && Distinct(cur) && Nodes(cur.left) !! phi.Keys && Nodes(cur) !! Rights(p)
    requires Stub(phi[cur.left.ref := r], cur.right) && Waiting(phi[cur.left.ref := r], p)
    ensures Stub(phi[cur.left.ref := r], cur.left) && Waiting(phi[cur.left.ref := r], p + [cur])
    ensures Rights(p + [cur]) == Nodes(cur.right) + Rights(p) && Nodes(cur.left) !! Rights(p + [cur])
  {
    assert (p + [cur])[..|p|] == p;
  }

  /** Steps PT4 and PT5. */
  lemma PopMoving(m: Store, k: Store, phi: Twins, t0: Tree, p: seq<Tree>, copy: Item -> Item)
    requires Moving(m, k, phi, t0, Leaf, p, copy) && p != [] && Holds(m, p[|p| - 1])
    ensures p[|p| - 1].Fork? && Moving(m, k, phi, t0, p[|p| - 1].right, p[..|p| - 1], copy)
  {
    var f := p[|p| - 1];
    assert Nodes(f.right) + Rights(p[..|p| - 1]) == Nodes(Leaf) + Rights(p);
  }

  /** Step C2 when f has a right child. */
  lemma RightGrow(m: Store, k: Store, k': Store, phi: Twins, t0: Tree, f: Tree, p: seq<Tree>, copy: Item -> Item, r: RbNode)
    requires Moving(m, k, phi, t0, f, p, copy) && f.Fork? && f.right.Fork?
    requires Sprouted(k, k', phi[f.ref], 1, r)
    ensures Halfway(m, k', phi[f.right.ref := r], t0, f, p, copy)
  {
    var c, U := f.right.ref, Nodes(f) + Rights(p);
    assert c in Nodes(f.right) && c in U;
    BaseGrow(m, k, k', phi, t0, f, 1, U, copy, r);
    WaitingGrow(phi, p, c, r);
    FreshStub(phi, f.right, r);
  }

  lemma FreshStub(phi: Twins, f: Tree, r: RbNode)
    requires f.Fork? && Distinct(f) && Nodes(f) !! phi.Keys
    ensures Stub(phi[f.ref := r], f)
  {
  }

  lemma NoRight(m: Store, k: Store, phi: Twins, t0: Tree, f: Tree, p: seq<Tree>, copy: Item -> Item)
    requires Moving(m, k, phi, t0, f, p, copy) && f.Fork? && f.right == Leaf
    ensures Halfway(m, k, phi, t0, f, p, copy)
  {
  }

  /** Step C3. */
  lemma FillVisited(m: Store, k: Store, k': Store, phi: Twins, t0: Tree, f: Tree, p: seq<Tree>, copy: Item -> Item)
    requires Halfway(m, k, phi, t0, f, p, copy)
    requires Painted(k, k', phi[f.ref], f.color, copy(f.item))
    ensures Visited(m, k', phi, t0, f, p, copy)
  {
    var U := Nodes(f.left) + Nodes(f.right) + Rights(p);
    forall n | n in Nodes(t0) - {t0.ref} - U
      ensures n in phi && n in m && phi[n] in k' && k'[phi[n]].color == m[n].color && k'[phi[n]].data == copy(m[n].data)
    {
      if n != f.ref {
        assert n in Nodes(t0) - {t0.ref} - (Nodes(f) + Rights(p));
      }
    }
  }

  // ---------- The loop ----------

  ghost predicate Extends(phi: Twins, psi: Twins) {
    forall a | a in phi :: a in psi && psi[a] == phi[a]
  }

  lemma StacksExtend(m: Store, phi: Twins, psi: Twins, pa: array<RbNode?>, qa: array<RbNode?>, n: nat, p: seq<Tree>, h: nat)
    requires Stacks(m, phi, pa, qa, n, p, h) && Extends(phi, psi)
    ensures Stacks(m, psi, pa, qa, n, p, h)
  {
  }

  /** Lines 201-203 and 241-243.  The data and colour that a fresh node has before step
      C3 do not matter. */
  method NewStub(q: RbNode, d: Dir, data: Item, ghost k: Store) returns (r: RbNode)
    requires q in k && k == Image(k.Keys)
    modifies q
    ensures fresh(r) && r !in k && Sprouted(k, Image(k.Keys + {r}), q, d, r)
  {
    r := new RbNode(data, Black);
    q.link := q.link.With(d, r);
  }

  /** From k to k', q got the new node r as its child in direction d. */
  ghost predicate Sprouted(k: Store, k': Store, q: RbNode, d: Dir, r: RbNode) {
    && r !in k && OnlyAt(k, k', {q}) && q in k && k'.Keys == k.Keys + {r}
    && k'[q] == k[q].(link := k[q].link.With(d, r))
    && k'[r].link == Links(null, null)
  }

  /** Lines 198-204. */
  method CopyLeft(p: RbNode, q: RbNode, ghost S: set<RbNode>, ghost phi: Twins, ghost t0: Tree, ghost cur: Tree,
                  ghost ps: seq<Tree>, ghost copy: Item -> Item)
    returns (ghost psi: Twins)
    requires Visited(Image(S), Image(phi.Values), phi, t0, cur, ps, copy) && S !! phi.Values
    requires p == cur.ref && q == Twin(phi, p)
    modifies phi.Values
    ensures Moving(Image(S), Image(psi.Values), psi, t0, cur.left, ps + [cur], copy) && S !! psi.Values
    ensures fresh(psi.Values - phi.Values) && Extends(phi, psi)
  {
    hide *;
    psi := phi;
    ReadVisited(S, phi, t0, cur, ps, copy, p, q);
    if p.link.zero != null {
      ghost var m, k := Image(S), Image(phi.Values);
      var r := NewStub(q, 0, p.data, k);
      psi := phi[cur.left.ref := r];
      ValuesGrow(phi, cur.left.ref, r);
      LeftGrow(m, k, Image(psi.Values), phi, t0, cur, ps, copy, r);
      ExtendsBy(phi, cur.left.ref, r);
    } else {
      VisitedIsMoving(Image(S), Image(phi.Values), phi, t0, cur, ps, copy);
      ExtendsItself(phi);
    }
  }

  lemma ReadVisited(S: set<RbNode>, phi: Twins, t0: Tree, f: Tree, ps: seq<Tree>, copy: Item -> Item, p: RbNode, q: RbNode?)
    requires Visited(Image(S), Image(phi.Values), phi, t0, f, ps, copy)
    requires p == f.ref && q == Twin(phi, p)
    ensures f.Fork? && p in S && p.link == Links(Ref(f.left), Ref(f.right)) && q in phi.Values && q == phi[p]
    ensures Holds(Image(S), f) && Height(f) > 0
    ensures Ref(f.left) == null <==> f.left == Leaf
    ensures f.left.Fork? ==> f.left.ref !in phi
    ensures Image(phi.Values).Keys == phi.Values
  {
    ReadLinks(S, phi, f, p, q);
  }

  lemma ReadMoving(S: set<RbNode>, phi: Twins, t0: Tree, f: Tree, ps: seq<Tree>, copy: Item -> Item, p: RbNode, q: RbNode?)
    requires Moving(Image(S), Image(phi.Values), phi, t0, f, ps, copy) && f.Fork?
    requires p == f.ref && q == Twin(phi, p)
    ensures p in S && p.link == Links(Ref(f.left), Ref(f.right)) && q in phi.Values && q == phi[p]
    ensures Ref(f.right) == null <==> f.right == Leaf
    ensures f.right.Fork? ==> f.right.ref !in phi
    ensures Image(phi.Values).Keys == phi.Values
  {
    ReadLinks(S, phi, f, p, q);
  }

  lemma ReadHalfway(S: set<RbNode>, phi: Twins, t0: Tree, f: Tree, ps: seq<Tree>, copy: Item -> Item, p: RbNode, q: RbNode?)
    requires Halfway(Image(S), Image(phi.Values), phi, t0, f, ps, copy)
    requires p == f.ref && q == Twin(phi, p)
    ensures p in S && p.color == f.color && p.data == f.item && q in phi.Values && q == phi[p]
    ensures Image(phi.Values).Keys == phi.Values
  {
    ReadLinks(S, phi, f, p, q);
  }

  lemma ExtendsBy(phi: Twins, c: RbNode, r: RbNode)
    requires c !in phi
    ensures Extends(phi, phi[c := r])
  {
  }

  lemma ExtendsItself(phi: Twins)
    ensures Extends(phi, phi)
  {
  }

  lemma ReadLinks(S: set<RbNode>, phi: Twins, f: Tree, p: RbNode, q: RbNode?)
    requires Holds(Image(S), f) && f.Fork? && p == f.ref && p in phi && q == Twin(phi, p)
    ensures p in S && p.link == Links(Ref(f.left), Ref(f.right)) && p.color == f.color && p.data == f.item
    ensures Ref(f.left) == null <==> f.left == Leaf
    ensures Ref(f.right) == null <==> f.right == Leaf
    ensures q == phi[p] && q in phi.Values
  {
    assert p in Image(S);
  }

  /** Step C2, lines 239-244. */
  method CopyRight(p: RbNode, q: RbNode, ghost S: set<RbNode>, ghost phi: Twins, ghost t0: Tree, ghost f: Tree,
                   ghost ps: seq<Tree>, ghost copy: Item -> Item)
    returns (ghost psi: Twins)
    requires Moving(Image(S), Image(phi.Values), phi, t0, f, ps, copy) && f.Fork? && S !! phi.Values
    requires p == f.ref && q == Twin(phi, p)
    modifies phi.Values
    ensures Halfway(Image(S), Image(psi.Values), psi, t0, f, ps, copy) && S !! psi.Values
    ensures fresh(psi.Values - phi.Values) && Extends(phi, psi)
  {
    hide *;
    psi := phi;
    ReadMoving(S, phi, t0, f, ps, copy, p, q);
    if p.link.one != null {
      ghost var m, k := Image(S), Image(phi.Values);
      var r := NewStub(q, 1, p.data, k);
      psi := phi[f.right.ref := r];
      ValuesGrow(phi, f.right.ref, r);
      RightGrow(m, k, Image(psi.Values), phi, t0, f, ps, copy, r);
      ExtendsBy(phi, f.right.ref, r);
    } else {
      NoRight(Image(S), Image(phi.Values), phi, t0, f, ps, copy);
      ExtendsItself(phi);
    }
  }

  /** From k to k', q got its colour and its data. */
  ghost predicate Painted(k: Store, k': Store, q: RbNode, color: Color, item: Item) {
    q in k && k'.Keys == k.Keys && OnlyAt(k, k', {q}) && k'[q] == Cell(color, item, k[q].link)
  }

  method Write(q: RbNode, color: Color, item: Item, ghost k: Store)
    requires q in k && k == Image(k.Keys)
    modifies q
    ensures Painted(k, Image(k.Keys), q, color, item)
  {
    q.color := color;
    q.data := item;
  }

  /** Step C3, lines 247-251. */
  method Fill(p: RbNode, q: RbNode, ghost S: set<RbNode>, ghost phi: Twins, ghost t0: Tree, ghost f: Tree,
              ghost ps: seq<Tree>, copy: Item -> Item)
    requires Halfway(Image(S), Image(phi.Values), phi, t0, f, ps, copy) && S !! phi.Values
    requires p == f.ref && q == Twin(phi, p)
    modifies phi.Values
    ensures Visited(Image(S), Image(phi.Values), phi, t0, f, ps, copy)
  {
    hide *;
    ReadHalfway(S, phi, t0, f, ps, copy, p, q);
    ghost var m, k := Image(S), Image(phi.Values);
    Write(q, p.color, copy(p.data), k);
    FillVisited(m, k, Image(phi.Values), phi, t0, f, ps, copy);
  }

  /** What one step down reads in the old tree and in the new one. */
  lemma ReadKid(S: set<RbNode>, phi: Twins, t0: Tree, U: set<RbNode>, copy: Item -> Item, f: Tree, p: RbNode, q: RbNode?, d: Dir)
    requires Base(Image(S), Image(phi.Values), phi, t0, U, copy) && Holds(Image(S), f) && f.Fork? && f.ref in phi
    requires p == f.ref && q == Twin(phi, p)
    ensures q != null && p.link.At(d) == Ref(Kid(f, d)) && q.link.At(d) == Twin(phi, Ref(Kid(f, d)))
    ensures Holds(Image(S), Kid(f, d))
  {
    var m, k := Image(S), Image(phi.Values);
    assert p in m && phi[p] in k && k[phi[p]].link == Links(Twin(phi, m[p].link.zero), Twin(phi, m[p].link.one));
  }

  /** Lines 214-217. */
  method PushBoth(pa: array<RbNode?>, qa: array<RbNode?>, n: nat, p: RbNode, q: RbNode, ghost m: Store, ghost phi: Twins,
                  ghost f: Tree, ghost ps: seq<Tree>, ghost h: nat)
    requires Stacks(m, phi, pa, qa, n, ps, h) && n < RB_MAX_HEIGHT && pa != qa
    requires Holds(m, f) && f.Fork? && f.ref in phi && p == f.ref && q == phi[p] && Height(f) + n <= h
    modifies pa, qa
    ensures Stacks(m, phi, pa, qa, n + 1, ps + [f], h)
  {
    pa[n] := p;
    qa[n] := q;
  }

  lemma PopBoth(m: Store, phi: Twins, pa: array<RbNode?>, qa: array<RbNode?>, n: nat, ps: seq<Tree>, h: nat)
    requires Stacks(m, phi, pa, qa, n, ps, h) && n > 0
    ensures n == |ps| && Stacks(m, phi, pa, qa, n - 1, ps[..n - 1], h)
    ensures var f := ps[n - 1];
      && f.Fork? && Holds(m, f) && Height(f.right) < Height(f) <= h - (n - 1)
      && f.ref in phi && pa[n - 1] == f.ref && qa[n - 1] == Twin(phi, f.ref)
  {
  }

  lemma Unpack(m: Store, k: Store, phi: Twins, t0: Tree, f: Tree, p: seq<Tree>, copy: Item -> Item)
    requires Moving(m, k, phi, t0, f, p, copy)
    ensures Base(m, k, phi, t0, Nodes(f) + Rights(p), copy) && Holds(m, f)
    ensures f.Fork? ==> f.ref in phi
  {
  }

  lemma Sizes(f: Tree, p: seq<Tree>, g: Tree)
    requires f.Fork?
    ensures Size(f.left) + RightsSize(p + [f]) + 1 == Size(f) + RightsSize(p) && Height(f.left) < Height(f)
    ensures p != [] && p[|p| - 1].Fork? ==> Size(p[|p| - 1].right) + RightsSize(p[..|p| - 1]) == RightsSize(p)
  {
    assert (p + [f])[..|p|] == p;
  }

  /** The header as the root of a tree: line 181. */
  function Headed(root: RbNode, c: Color, x: Item, t: Tree): Tree {
    Fork(root, c, x, t, Leaf)
  }

  lemma Begin(S: set<RbNode>, root: RbNode, newRoot: RbNode, t: Tree, copy: Item -> Item, pa: array<RbNode?>, qa: array<RbNode?>)
    requires Rep(Image(S), Top(root), t) && newRoot !in S && newRoot.link == Links(null, null)
    requires pa.Length == RB_MAX_HEIGHT && qa.Length == RB_MAX_HEIGHT
    ensures var t0, phi := Headed(root, root.color, root.data, t), map[root := newRoot];
      && Visited(Image(S), Image(phi.Values), phi, t0, t0, [], copy) && S !! phi.Values && phi.Values == {newRoot}
      && Stacks(Image(S), phi, pa, qa, 0, [], Height(t) + 1) && root == t0.ref && newRoot == Twin(phi, root)
      && Height(t0) == Height(t) + 1
  {
    var t0 := Headed(root, root.color, root.data, t);
    var none: Twins := map[];
    var phi := none[root := newRoot];
    ValuesGrow(none, root, newRoot);
    var m := Image(S);
    assert root in m && Ref(t0.left) == Ref(t) && Ref(t0.right) == null;
    HeldNodes(m, t);
    assert Nodes(t0.left) == Nodes(t) && Nodes(t0.right) == {} && Nodes(t0) == {root} + Nodes(t);
    assert root in CtxNodes(Top(root)) && root !in Nodes(t);
    assert Distinct(t0.left) && Distinct(t0.right) && Distinct(t0);
    assert Rights([]) == {};
    assert Linked(m, Image(phi.Values), phi);
    assert Base(m, Image(phi.Values), phi, t0, Nodes(t0.left) + Nodes(t0.right) + Rights([]), copy);
  }

  // ---------- When every node has its twin ----------

  /** The subtree s of the old tree has a copy in the new store. */
  lemma {:induction false} CopyHeld(m: Store, k: Store, phi: Twins, t0: Tree, s: Tree, copy: Item -> Item)
    requires Base(m, k, phi, t0, {}, copy) && Holds(m, s) && Nodes(s) <= Nodes(t0) - {t0.ref}
    ensures Holds(k, Image2(s, phi, copy)) && SameShape(s, Image2(s, phi, copy), copy)
    ensures Ref(Image2(s, phi, copy)) == Twin(phi, Ref(s))
  {
    if s.Fork? {
      assert s.ref in Nodes(t0) - {t0.ref} - {};
      CopyHeld(m, k, phi, t0, s.left, copy);
      CopyHeld(m, k, phi, t0, s.right, copy);
    }
  }

  function Twinned(phi: Twins, X: set<RbNode>): set<RbNode> {
    set n | n in X && n in phi :: phi[n]
  }

  lemma {:induction false} CopyDistinct(phi: Twins, s: Tree, copy: Item -> Item)
    requires Injective(phi) && Nodes(s) <= phi.Keys && Distinct(s)
    ensures Nodes(Image2(s, phi, copy)) == Twinned(phi, Nodes(s)) && Distinct(Image2(s, phi, copy))
  {
    if s.Fork? {
      CopyDistinct(phi, s.left, copy);
      CopyDistinct(phi, s.right, copy);
    }
  }

  lemma TwinnedAll(phi: Twins, X: set<RbNode>, root: RbNode)
    requires phi.Keys == {root} + X
    ensures phi.Values == {phi[root]} + Twinned(phi, X)
  {
    forall v | v in phi.Values ensures v in {phi[root]} + Twinned(phi, X) {
      var a: RbNode :| a in phi && phi[a] == v;
      assert a == root || a in X;
    }
  }

  lemma Finish(m: Store, k: Store, phi: Twins, root: RbNode, c: Color, x: Item, newRoot: RbNode, t: Tree, copy: Item -> Item)
    requires Moving(m, k, phi, Headed(root, c, x, t), Leaf, [], copy) && Extends(map[root := newRoot], phi)
    ensures Copied(k, newRoot, phi.Values, t, Image2(t, phi, copy), copy)
  {
    var t0, u := Headed(root, c, x, t), Image2(t, phi, copy);
    assert Nodes(t0) == {root} + Nodes(t) && Nodes(Leaf) + Rights([]) == {};
    assert Nodes(t) == Nodes(t0) - {root} && Distinct(t) && Holds(m, t);
    CopyHeld(m, k, phi, t0, t, copy);
    assert forall n | n in Nodes(t0) - {root} - {} :: n in phi;
    assert root in map[root := newRoot] && root in phi && phi[root] == newRoot;
    assert phi.Keys == {root} + Nodes(t);
    CopyDistinct(phi, t, copy);
    TwinnedAll(phi, Nodes(t), root);
    assert k[phi[root]].link == Links(Ref(u), null);
    assert newRoot !in Twinned(phi, Nodes(t));
  }

  /** The nodes N hold the tree u under the header newRoot, and u is t copied. */
  ghost predicate Copied(k: Store, newRoot: RbNode, N: set<RbNode>, t: Tree, u: Tree, copy: Item -> Item) {
    Rep(k, Top(newRoot), u) && N == {newRoot} + Nodes(u) && SameShape(t, u, copy)
  }

  // ---------- The loop ----------

  /** Lines 208-232: the next node in pre-order, or none. */
  method Seek(pa: array<RbNode?>, qa: array<RbNode?>, n0: nat, p0: RbNode?, q0: RbNode?,
              ghost S: set<RbNode>, ghost phi: Twins, ghost t0: Tree, ghost f0: Tree, ghost ps0: seq<Tree>,
              ghost copy: Item -> Item, ghost h: nat)
    returns (n: nat, p: RbNode?, q: RbNode?, ghost f: Tree, ghost ps: seq<Tree>)
    requires Moving(Image(S), Image(phi.Values), phi, t0, f0, ps0, copy)
    requires Stacks(Image(S), phi, pa, qa, n0, ps0, h) && Height(f0) + n0 <= h
    requires p0 == Ref(f0) && q0 == Twin(phi, p0)
    ensures Moving(Image(S), Image(phi.Values), phi, t0, f, ps, copy)
    ensures Stacks(Image(S), phi, pa, qa, n, ps, h) && Height(f) + n <= h
    ensures p == Ref(f) && q == Twin(phi, p) && Size(f) + RightsSize(ps) == Size(f0) + RightsSize(ps0)
    ensures p == null ==> f == Leaf && ps == []
    ensures p != null ==> f.Fork? && p == f.ref && q != null && p in phi
  {
    hide *;
    n, p, q, f, ps := n0, p0, q0, f0, ps0;
    LeafOrFork(Image(S), phi, f, pa, qa, n, ps, h);
    while p == null && n != 0
      invariant Moving(Image(S), Image(phi.Values), phi, t0, f, ps, copy)
      invariant Stacks(Image(S), phi, pa, qa, n, ps, h) && Height(f) + n <= h && n == |ps|
      invariant p == Ref(f) && q == Twin(phi, p) && Size(f) + RightsSize(ps) == Size(f0) + RightsSize(ps0)
      invariant p == null <==> f == Leaf
      decreases n
    {
      LeafOrFork(Image(S), phi, f, pa, qa, n, ps, h);
      PopBoth(Image(S), phi, pa, qa, n, ps, h);
      Sizes(ps[n - 1], ps, Leaf);
      PopMoving(Image(S), Image(phi.Values), phi, t0, ps, copy);
      n := n - 1;
      p := pa[n];
      q := qa[n];
      ghost var U := Nodes(f) + Rights(ps);
      Unpack(Image(S), Image(phi.Values), phi, t0, f, ps, copy);
      ReadKid(S, phi, t0, U, copy, ps[n], p, q, 1);
      RightIsOne(p.link, q.link, ps[n]);
      LeafSize(f);
      p := p.link.one;
      q := q.link.one;
      f, ps := ps[n].right, ps[..n];
      LeafOrFork(Image(S), phi, f, pa, qa, n, ps, h);
    }
    HasTwin(Image(S), Image(phi.Values), phi, t0, f, ps, copy);
  }

  lemma LeafSize(f: Tree)
    ensures f == Leaf ==> Size(f) == 0 && Nodes(f) == {}
  {
  }

  lemma HasTwin(m: Store, k: Store, phi: Twins, t0: Tree, f: Tree, p: seq<Tree>, copy: Item -> Item)
    requires Moving(m, k, phi, t0, f, p, copy)
    ensures f.Fork? ==> Ref(f) == f.ref && f.ref in phi && Twin(phi, f.ref) == phi[f.ref]
    ensures f == Leaf <==> Ref(f) == null
  {
  }

  lemma LeafOrFork(m: Store, phi: Twins, f: Tree, pa: array<RbNode?>, qa: array<RbNode?>, n: nat, p: seq<Tree>, h: nat)
    requires Stacks(m, phi, pa, qa, n, p, h)
    ensures Ref(f) == null <==> f == Leaf
    ensures n == |p| <= pa.Length == qa.Length
  {
  }

  lemma ExtendsMore(phi: Twins, psi: Twins, psi': Twins)
    requires Extends(phi, psi) && Extends(psi, psi')
    ensures Extends(phi, psi')
  {
  }

  lemma TwinStays(phi: Twins, psi: Twins, p: RbNode)
    requires Extends(phi, psi) && p in phi
    ensures p in psi && Twin(psi, p) == Twin(phi, p) == psi[p]
  {
  }

  lemma RightIsOne(a: Links, b: Links, f: Tree)
    requires f.Fork?
    ensures a.At(1) == a.one && b.At(1) == b.one && Kid(f, 1) == f.right
    ensures a.At(0) == a.zero && b.At(0) == b.zero && Kid(f, 0) == f.left
  {
  }

  /** Steps C4 and PT3, lines 198-217: a stub on the left, both nodes onto the stacks,
      and down. */
  method Descend(pa: array<RbNode?>, qa: array<RbNode?>, n: nat, p0: RbNode, q0: RbNode,
                 ghost S: set<RbNode>, ghost phi: Twins, ghost t0: Tree, ghost f: Tree, ghost ps: seq<Tree>,
                 ghost copy: Item -> Item, ghost h: nat, ghost first: Twins)
    returns (p: RbNode?, q: RbNode?, ghost psi: Twins)
    requires Extends(first, phi)
    requires Visited(Image(S), Image(phi.Values), phi, t0, f, ps, copy) && S !! phi.Values
    requires Stacks(Image(S), phi, pa, qa, n, ps, h) && Height(f) + n <= h <= RB_MAX_HEIGHT && pa != qa
    requires f.Fork? && p0 == f.ref && q0 == Twin(phi, p0) && p0 in phi
    modifies phi.Values, pa, qa
    ensures Moving(Image(S), Image(psi.Values), psi, t0, f.left, ps + [f], copy) && S !! psi.Values
    ensures fresh(psi.Values - phi.Values) && Extends(first, psi)
    ensures Stacks(Image(S), psi, pa, qa, n + 1, ps + [f], h) && Height(f.left) + n + 1 <= h
    ensures p == Ref(f.left) && q == Twin(psi, p)
    ensures Size(f.left) + RightsSize(ps + [f]) < Size(f) + RightsSize(ps)
  {
    hide *;
    ReadVisited(S, phi, t0, f, ps, copy, p0, q0);
    psi := CopyLeft(p0, q0, S, phi, t0, f, ps, copy);
    StacksExtend(Image(S), phi, psi, pa, qa, n, ps, h);
    TwinStays(phi, psi, p0);
    ExtendsMore(first, phi, psi);
    Sizes(f, ps, Leaf);
    PushBoth(pa, qa, n, p0, q0, Image(S), psi, f, ps, h);
    Unpack(Image(S), Image(psi.Values), psi, t0, f.left, ps + [f], copy);
    ReadKid(S, psi, t0, Nodes(f.left) + Rights(ps + [f]), copy, f, p0, q0, 0);
    RightIsOne(p0.link, q0.link, f);
    p := p0.link.zero;
    q := q0.link.zero;
  }

  /** Steps C2 and C3, lines 238-251. */
  method Visit(ghost pa: array<RbNode?>, ghost qa: array<RbNode?>, ghost n: nat, p: RbNode, q: RbNode,
               ghost S: set<RbNode>, ghost phi: Twins, ghost t0: Tree, ghost f: Tree, ghost ps: seq<Tree>,
               copy: Item -> Item, ghost h: nat, ghost first: Twins)
    returns (ghost psi: Twins)
    requires Extends(first, phi) && Stacks(Image(S), phi, pa, qa, n, ps, h)
    requires Moving(Image(S), Image(phi.Values), phi, t0, f, ps, copy) && f.Fork? && S !! phi.Values
    requires p == f.ref && q == Twin(phi, p) && p in phi
    modifies phi.Values
    ensures Visited(Image(S), Image(psi.Values), psi, t0, f, ps, copy) && S !! psi.Values
    ensures fresh(psi.Values - phi.Values) && Extends(first, psi)
    ensures Stacks(Image(S), psi, pa, qa, n, ps, h) && p in psi && q == Twin(psi, p)
  {
    hide *;
    psi := CopyRight(p, q, S, phi, t0, f, ps, copy);
    TwinStays(phi, psi, p);
    StacksExtend(Image(S), phi, psi, pa, qa, n, ps, h);
    ExtendsMore(first, phi, psi);
    ReadHalfway(S, psi, t0, f, ps, copy, p, q);
    Fill(p, q, S, psi, t0, f, ps, copy);
  }

  /** Lines 180-252.  root is the header of the old tree t, newRoot the empty header of
      the new one. */
  method CopyNodes(root: RbNode, newRoot: RbNode, copy: Item -> Item, ghost S: set<RbNode>, ghost t: Tree)
    returns (ghost N: set<RbNode>, ghost u: Tree)
    requires Rep(Image(S), Top(root), t) && Height(t) < RB_MAX_HEIGHT
    requires newRoot !in S && newRoot.link == Links(null, null)
    modifies newRoot
    ensures S !! N && fresh(N - {newRoot})
    ensures Copied(Image(N), newRoot, N, t, u, copy)
  {
    hide *;
    var pa := new RbNode?[RB_MAX_HEIGHT](_ => null);
    var qa := new RbNode?[RB_MAX_HEIGHT](_ => null);
    var n: nat, p: RbNode?, q: RbNode? := 0, root, newRoot;
    ghost var c, x := root.color, root.data;
    ghost var t0, ps, h := Headed(root, c, x, t), [], Height(t) + 1;
    ghost var first: Twins := map[root := newRoot];
    ghost var phi, f := first, t0;
    Begin(S, root, newRoot, t, copy, pa, qa);
    ExtendsItself(phi);
    while true
      invariant Visited(Image(S), Image(phi.Values), phi, t0, f, ps, copy)
      invariant S !! phi.Values && fresh(phi.Values - {newRoot}) && Extends(first, phi)
      invariant Stacks(Image(S), phi, pa, qa, n, ps, h) && Height(f) + n <= h
      invariant p != null && q != null && f.Fork? && p == f.ref && q == Twin(phi, p) && p in phi
      decreases Size(f) + RightsSize(ps)
    {
      p, q, phi := Descend(pa, qa, n, p, q, S, phi, t0, f, ps, copy, h, first);
      ps, f := ps + [f], f.left;
      n, p, q, f, ps := Seek(pa, qa, n + 1, p, q, S, phi, t0, f, ps, copy, h);
      if p == null {
        Finish(Image(S), Image(phi.Values), phi, root, c, x, newRoot, t, copy);
        N, u := phi.Values, Image2(t, phi, copy);
        return;
      }
      phi := Visit(pa, qa, n, p, q, S, phi, t0, f, ps, copy, h, first);
    }
  }

  // ---------- What the copy is worth ----------

  /** The copy of a red-black tree is a red-black tree with the items copied in place,
      exactly when copying keeps the keys in ascending order. */
  lemma {:induction false} CopyBalanced(t: Tree, u: Tree, copy: Item -> Item, n: nat)
    requires SameShape(t, u, copy)
    ensures Balanced(u, n) <==> Balanced(t, n)
    ensures NoRedRed(u) <==> NoRedRed(t)
    ensures Col(u) == Col(t) && Size(u) == Size(t) && Height(u) == Height(t) && BlackHeight(u) == BlackHeight(t)
  {
    if t.Fork? {
      var below := if t.color == Red || n == 0 then n else n - 1;
      CopyBalanced(t.left, u.left, copy, below);
      CopyBalanced(t.right, u.right, copy, below);
    }
  }

  lemma {:induction false} CopyOrder(t: Tree, u: Tree, copy: Item -> Item)
    requires SameShape(t, u, copy)
    ensures |InOrder(u)| == |InOrder(t)|
    ensures forall i | 0 <= i < |InOrder(t)| :: InOrder(u)[i] == copy(InOrder(t)[i])
  {
    if t.Fork? {
      CopyOrder(t.left, u.left, copy);
      CopyOrder(t.right, u.right, copy);
    }
  }

  ghost predicate CopiesAscend(s: seq<Item>, copy: Item -> Item) {
    forall i, j | 0 <= i < j < |s| :: copy(s[i]).key < copy(s[j]).key
  }

  lemma CopyRedBlack(t: Tree, u: Tree, copy: Item -> Item)
    requires SameShape(t, u, copy) && RedBlack(t)
    ensures RedBlack(u) <==> CopiesAscend(InOrder(t), copy)
  {
    CopyBalanced(t, u, copy, BlackHeight(t));
    CopyOrder(t, u, copy);
    var s, s' := InOrder(t), InOrder(u);
    if Ascending(s') {
      forall i, j | 0 <= i < j < |s| ensures copy(s[i]).key < copy(s[j]).key {
        assert s'[i].key < s'[j].key;
      }
    }
  }
}
