/** rb_traverse and rb_walk, common/rb.c:255-333: in-order traversal with an explicit
    stack (Knuth's Algorithm 2.3.1T), and the traverser of include/rb.h:54-62. */
module RbTraverse {
  import opened RbNodes

  /** The items that the stacked nodes still stand for: each its own and those to its right. */
  function Pending(p: seq<Tree>): seq<Item> {
    if p == [] then []
    else
      var t := p[|p| - 1];
      (if t.Leaf? then [] else [t.item] + InOrder(t.right)) + Pending(p[..|p| - 1])
  }

  /** The stack holds the roots of the trees p, each lower than the one pushed before it. */
  ghost predicate Stacks(m: Store, stack: array<RbNode?>, n: nat, p: seq<Tree>, h: nat)
    reads stack
  {
    && stack.Length == RB_MAX_HEIGHT && n == |p| <= RB_MAX_HEIGHT
    && forall i | 0 <= i < |p| :: p[i].Fork? && Holds(m, p[i]) && Height(p[i]) + i <= h && stack[i] == p[i].ref
  }

  lemma PendingPush(p: seq<Tree>, t: Tree)
    requires t.Fork?
    ensures InOrder(t) + Pending(p) == InOrder(t.left) + Pending(p + [t])
  {
    assert (p + [t])[..|p|] == p;
  }

  /** One push. */
  method Push(stack: array<RbNode?>, n: nat, x: RbNode, ghost m: Store, ghost f: Tree, ghost p: seq<Tree>, ghost h: nat)
    requires Stacks(m, stack, n, p, h) && Holds(m, f) && f.Fork? && x == f.ref
    requires Height(f) + n <= h <= RB_MAX_HEIGHT
    modifies stack
    ensures Stacks(m, stack, n + 1, p + [f], h)
  {
    stack[n] := x;
  }

  /** The top of the stack, and the stack below it. */
  lemma Pop(m: Store, stack: array<RbNode?>, n: nat, p: seq<Tree>, h: nat)
    requires Stacks(m, stack, n, p, h) && n > 0
    ensures n == |p| <= stack.Length && p[n - 1].Fork? && stack[n - 1] == p[n - 1].ref && Holds(m, p[n - 1])
    ensures Stacks(m, stack, n - 1, p[..n - 1], h) && Height(p[n - 1]) + n - 1 <= h
    ensures Height(p[n - 1].right) + n - 1 <= h
    ensures Pending(p) == [p[n - 1].item] + (InOrder(p[n - 1].right) + Pending(p[..n - 1]))
  {
  }

  lemma Empty(m: Store, stack: array<RbNode?>, h: nat)
    requires stack.Length == RB_MAX_HEIGHT
    ensures Stacks(m, stack, 0, [], h) && Pending([]) == []
  {
  }

  lemma Bottom(m: Store, stack: array<RbNode?>, n: nat, p: seq<Tree>, h: nat)
    requires Stacks(m, stack, n, p, h)
    ensures n == |p| && stack.Length == RB_MAX_HEIGHT && (n == 0 ==> Pending(p) == [])
  {
  }

  /** Steps T2 and T3: push f and its left descendants. */
  method PushLeft(stack: array<RbNode?>, n0: nat, x0: RbNode?, ghost S: set<RbNode>, ghost f0: Tree, ghost p0: seq<Tree>, ghost h: nat)
    returns (n: nat, ghost p: seq<Tree>)
    requires Stacks(Image(S), stack, n0, p0, h) && Holds(Image(S), f0) && x0 == Ref(f0)
    requires Height(f0) + n0 <= h <= RB_MAX_HEIGHT
    modifies stack
    ensures Stacks(Image(S), stack, n, p, h) && Pending(p) == InOrder(f0) + Pending(p0)
  {
    hide *;
    ghost var f := f0;
    var x := x0;
    n, p := n0, p0;
    RefNull(x, f);
    while x != null
      invariant Stacks(Image(S), stack, n, p, h) && Holds(Image(S), f) && (x == null <==> f == Leaf)
      invariant f.Fork? ==> x == f.ref
      invariant f == Leaf ==> InOrder(f) == []
      invariant Height(f) + n <= h
      invariant InOrder(f) + Pending(p) == InOrder(f0) + Pending(p0)
      decreases Height(f)
    {
      ReadNode(S, f);
      PendingPush(p, f);
      Push(stack, n, x, Image(S), f, p, h);
      n := n + 1;
      p := p + [f];
      f := f.left;
      RefNull(Ref(f), f);
      x := x.link.zero;
    }
  }

  /** rb_traverser. */
  class RbTraverser {
    var init: int
    var nstack: nat
    var p: RbNode?
    const stack: array<RbNode?>
    ghost var cur: Tree
    ghost var pend: seq<Tree>

    constructor ()
      ensures init == 0 && fresh(stack) && stack.Length == RB_MAX_HEIGHT
    {
      init, nstack, p := 0, 0, null;
      stack := new RbNode?[RB_MAX_HEIGHT](_ => null);
      cur, pend := Leaf, [];
    }

    /** The traverser stands at a node of the tree t in the store m. */
    ghost predicate At(m: Store, t: Tree)
      reads this, stack
    {
      && stack.Length == RB_MAX_HEIGHT
      && (init != 0 ==>
            && cur.Fork? && p == cur.ref && Holds(m, cur) && Height(cur) + |pend| <= Height(t)
            && Stacks(m, stack, nstack, pend, Height(t)))
    }

    /** What the calls of Traverse still return before the next null. */
    ghost function Remaining(t: Tree): seq<Item>
      reads this
    {
      if init == 0 || cur.Leaf? then InOrder(t) else InOrder(cur.right) + Pending(pend)
    }

    /** rb_init_traverser, include/rb.h:104. */
    method Init(ghost m: Store, ghost t: Tree)
      requires stack.Length == RB_MAX_HEIGHT
      modifies this
      ensures At(m, t) && init == 0 && Remaining(t) == InOrder(t)
    {
      init := 0;
    }

    /** rb_traverse, lines 295-333, on the tree t under the header root. */
    method Next(root: RbNode, ghost S: set<RbNode>, ghost t: Tree) returns (data: Item?)
      requires At(Image(S), t) && Holds(Image(S), t) && Height(t) <= RB_MAX_HEIGHT
      requires root in S && root.link.zero == Ref(t)
      modifies this, stack
      ensures At(Image(S), t)
      ensures old(Remaining(t)) == [] ==> data == null && init == 0
      ensures old(Remaining(t)) != [] ==>
        init != 0 && data == old(Remaining(t))[0] && Remaining(t) == old(Remaining(t))[1..]
    {
      ghost var f := t;
      if init == 0 {
        init := 1;
        nstack := 0;
        p := root.link.zero;
        pend := [];
      } else {
        assert p in Image(S);
        f := cur.right;
        p := p.link.one;
      }
      data := Land(S, t, f);
    }

    /** Steps T2 to T5 from the link p. */
    method Land(ghost S: set<RbNode>, ghost t: Tree, ghost f: Tree) returns (data: Item?)
      requires Stacks(Image(S), stack, nstack, pend, Height(t)) && Holds(Image(S), f) && p == Ref(f)
      requires Height(f) + nstack <= Height(t) <= RB_MAX_HEIGHT && init != 0
      modifies this, stack
      ensures At(Image(S), t)
      ensures old(InOrder(f) + Pending(pend)) == [] ==> data == null && init == 0
      ensures old(InOrder(f) + Pending(pend)) != [] ==>
        && init != 0 && data == old(InOrder(f) + Pending(pend))[0]
        && Remaining(t) == old(InOrder(f) + Pending(pend))[1..]
    {
      hide *;
      var n, ps := PushLeft(stack, nstack, p, S, f, pend, Height(t));
      Bottom(Image(S), stack, n, ps, Height(t));
      nstack, pend := n, ps;
      p := null;
      if nstack == 0 {
        init := 0;
        Rest(Image(S), t);
        return null;
      }
      Pop(Image(S), stack, n, ps, Height(t));
      nstack := nstack - 1;
      p := stack[nstack];
      cur, pend := pend[nstack], pend[..nstack];
      ReadNode(S, cur);
      Arrive(Image(S), t);
      data := p.data;
    }

    lemma Rest(m: Store, t: Tree)
      requires init == 0 && stack.Length == RB_MAX_HEIGHT
      ensures At(m, t)
    {
    }

    lemma Arrive(m: Store, t: Tree)
      requires init != 0 && cur.Fork? && p == cur.ref && Holds(m, cur)
      requires Height(cur) + nstack <= Height(t) && Stacks(m, stack, nstack, pend, Height(t))
      ensures At(m, t) && Remaining(t) == InOrder(cur.right) + Pending(pend)
    {
    }
  }

  /** rb_walk, lines 257-289.  Calling walk_func at a node is modelled as appending the
      node's data to visits. */
  method Walk(root: RbNode, ghost S: set<RbNode>, ghost t: Tree) returns (visits: seq<Item>)
    requires Holds(Image(S), t) && Height(t) <= RB_MAX_HEIGHT
    requires root in S && root.link.zero == Ref(t)
    ensures visits == InOrder(t)
  {
    hide *;
    var an := new RbNode?[RB_MAX_HEIGHT](_ => null);
    var ap, x := 0, root.link.zero;
    ghost var f, p, h := t, [], Height(t);
    visits := [];
    ghost var rest := InOrder(t);
    Empty(Image(S), an, h);
    assert rest + Pending(p) == rest;
    while true
      invariant Stacks(Image(S), an, ap, p, h) && Holds(Image(S), f) && x == Ref(f)
      invariant Height(f) + ap <= h
      invariant rest == InOrder(f) + Pending(p) && visits + rest == InOrder(t)
      decreases |rest|
    {
      ap, p := PushLeft(an, ap, x, S, f, p, h);
      Bottom(Image(S), an, ap, p, h);
      if ap == 0 {
        assert visits + [] == visits;
        return;
      }
      Pop(Image(S), an, ap, p, h);
      ap := ap - 1;
      x := an[ap];
      f, p := p[ap], p[..ap];
      ReadNode(S, f);
      rest := InOrder(f.right) + Pending(p);
      Shift(visits, x.data, rest);
      visits := visits + [x.data];
      x := x.link.one;
      f := f.right;
    }
  }

}
