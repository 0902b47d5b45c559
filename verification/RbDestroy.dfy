/** rb_destroy, common/rb.c:93-150: post-order traversal with an explicit stack and one
    bit per stack entry.  Freeing a node is modelled as appending it to freed; a node is
    never read once it is there. */
module RbDestroy {
  import opened RbNodes

  function PostOrder(t: Tree): seq<RbNode> {
    if t.Leaf? then [] else PostOrder(t.left) + PostOrder(t.right) + [t.ref]
  }

  ghost predicate NoRepeat(s: seq<RbNode>) {
    forall i, j | 0 <= i < j < |s| :: s[i] != s[j]
  }

  /** v occurs in s before u. */
  ghost predicate Before(s: seq<RbNode>, v: RbNode, u: RbNode) {
    exists i, j | 0 <= i < j < |s| :: s[i] == v && s[j] == u
  }

  lemma {:induction false} PostOrderNodes(t: Tree)
    ensures forall n :: n in PostOrder(t) <==> n in Nodes(t)
  {
    if t.Fork? {
      PostOrderNodes(t.left);
      PostOrderNodes(t.right);
    }
  }

  lemma PostOrderApart(a: seq<RbNode>, t: Tree, b: seq<RbNode>, u: Tree)
    requires a == PostOrder(t) && b == PostOrder(u) && Nodes(t) !! Nodes(u)
    ensures forall n | n in a :: n !in b
  {
    PostOrderNodes(t);
    PostOrderNodes(u);
  }

  /** Every node occurs exactly once. */
  lemma {:induction false} PostOrderOnce(t: Tree)
    requires Distinct(t)
    ensures NoRepeat(PostOrder(t)) && |PostOrder(t)| == Size(t)
  {
    if t.Fork? {
      PostOrderOnce(t.left);
      PostOrderOnce(t.right);
      PostOrderApart(PostOrder(t.left), t.left, PostOrder(t.right), t.right);
      PostOrderNodes(t.left);
      PostOrderNodes(t.right);
      NoRepeatConcat(PostOrder(t.left), PostOrder(t.right));
      NoRepeatConcat(PostOrder(t.left) + PostOrder(t.right), [t.ref]);
    }
  }

  lemma NoRepeatConcat(a: seq<RbNode>, b: seq<RbNode>)
    requires NoRepeat(a) && NoRepeat(b) && forall n | n in a :: n !in b
    ensures NoRepeat(a + b)
  {
    var s := a + b;
    forall i, j | 0 <= i < j < |s| ensures s[i] != s[j] {
      if i < |a| <= j {
        assert s[i] in a && s[j] in b;
      }
    }
  }

  /** Children come before their parent. */
  lemma {:induction false} ChildrenFirst(m: Store, t: Tree, u: RbNode, d: Dir)
    requires Holds(m, t) && u in Nodes(t) && u in m && m[u].link.At(d) != null && Distinct(t)
    ensures Before(PostOrder(t), m[u].link.At(d), u)
  {
    var a, b := PostOrder(t.left), PostOrder(t.right);
    var v := m[u].link.At(d);
    if t.ref == u {
      PostOrderNodes(t.left);
      PostOrderNodes(t.right);
      assert v in a + b;
      var i :| 0 <= i < |a + b| && (a + b)[i] == v;
      var s := PostOrder(t);
      assert s[i] == v && s[|a + b|] == u;
    } else if u in Nodes(t.left) {
      ChildrenFirst(m, t.left, u, d);
      BeforeConcat([], a, b + [t.ref], v, u);
      assert [] + a + (b + [t.ref]) == PostOrder(t);
    } else {
      ChildrenFirst(m, t.right, u, d);
      BeforeConcat(a, b, [t.ref], v, u);
    }
  }

  lemma BeforeConcat(a: seq<RbNode>, s: seq<RbNode>, b: seq<RbNode>, v: RbNode, u: RbNode)
    requires Before(s, v, u)
    ensures Before(a + s + b, v, u)
  {
    var i, j :| 0 <= i < j < |s| && s[i] == v && s[j] == u;
    var r := a + s + b;
    assert r[|a| + i] == v && r[|a| + j] == u;
  }

  // ---------- The traversal ----------

  /** A stack entry: the root of tree, and whether its right subtree has been entered. */
  datatype Entry = Entry(tree: Tree, bit: bool)

  /** The nodes that the stack still has to free, in order. */
  function After(p: seq<Entry>): seq<RbNode> {
    if p == [] then []
    else
      var e := p[|p| - 1];
      (if e.tree.Leaf? then [] else if e.bit then [e.tree.ref] else PostOrder(e.tree.right) + [e.tree.ref])
      + After(p[..|p| - 1])
  }

  function Work(p: seq<Entry>): nat {
    if p == [] then 0
    else
      var e := p[|p| - 1];
      (if e.tree.Leaf? then 0 else if e.bit then 1 else 2 * Size(e.tree.right) + 2) + Work(p[..|p| - 1])
  }

  ghost predicate Stacks(m: Store, an: array<RbNode?>, ab: array<bool>, n: nat, p: seq<Entry>, h: nat)
    reads an, ab
  {
    && an.Length == RB_MAX_HEIGHT && ab.Length == RB_MAX_HEIGHT && n == |p| <= RB_MAX_HEIGHT
    && forall i | 0 <= i < |p| ::
         && p[i].tree.Fork? && Holds(m, p[i].tree) && Height(p[i].tree) + i <= h
         && an[i] == p[i].tree.ref && ab[i] == p[i].bit
  }

  /** Step T3. */
  method Push(an: array<RbNode?>, ab: array<bool>, n: nat, x: RbNode, ghost m: Store, ghost f: Tree, ghost p: seq<Entry>, ghost h: nat)
    requires Stacks(m, an, ab, n, p, h) && Holds(m, f) && f.Fork? && x == f.ref
    requires Height(f) + n <= h <= RB_MAX_HEIGHT
    modifies an, ab
    ensures Stacks(m, an, ab, n + 1, p + [Entry(f, false)], h)
  {
    ab[n] := false;
    an[n] := x;
  }

  /** ab |= 1ul << ap. */
  method Mark(an: array<RbNode?>, ab: array<bool>, n: nat, ghost m: Store, ghost p: seq<Entry>, ghost h: nat)
    requires Stacks(m, an, ab, n, p, h) && n > 0
    modifies ab
    ensures Stacks(m, an, ab, n, p[n - 1 := p[n - 1].(bit := true)], h)
  {
    ab[n - 1] := true;
  }

  lemma Empty(m: Store, an: array<RbNode?>, ab: array<bool>, h: nat)
    requires an.Length == RB_MAX_HEIGHT && ab.Length == RB_MAX_HEIGHT
    ensures Stacks(m, an, ab, 0, [], h) && After([]) == [] && Work([]) == 0
  {
  }

  lemma Bottom(m: Store, an: array<RbNode?>, ab: array<bool>, n: nat, p: seq<Entry>, h: nat)
    requires Stacks(m, an, ab, n, p, h)
    ensures n == |p| && (n == 0 ==> After(p) == [])
  {
  }

  lemma PushFacts(p: seq<Entry>, f: Tree)
    requires f.Fork?
    ensures PostOrder(f) + After(p) == PostOrder(f.left) + After(p + [Entry(f, false)])
    ensures 2 * Size(f) + Work(p) == 2 * Size(f.left) + Work(p + [Entry(f, false)])
  {
    assert (p + [Entry(f, false)])[..|p|] == p;
  }

  lemma Top(m: Store, an: array<RbNode?>, ab: array<bool>, n: nat, p: seq<Entry>, h: nat)
    requires Stacks(m, an, ab, n, p, h) && n > 0
    ensures n == |p| <= an.Length == ab.Length && p[n - 1].tree.Fork? && Holds(m, p[n - 1].tree)
    ensures an[n - 1] == p[n - 1].tree.ref && ab[n - 1] == p[n - 1].bit
    ensures Stacks(m, an, ab, n - 1, p[..n - 1], h) && Height(p[n - 1].tree.right) + n <= h
  {
  }

  lemma MarkFacts(p: seq<Entry>)
    requires p != [] && p[|p| - 1].tree.Fork? && !p[|p| - 1].bit
    ensures var q := p[|p| - 1 := p[|p| - 1].(bit := true)]; var r := p[|p| - 1].tree.right;
      After(p) == PostOrder(r) + After(q) && Work(p) == 2 * Size(r) + Work(q) + 1
  {
    var q := p[|p| - 1 := p[|p| - 1].(bit := true)];
    assert q[..|q| - 1] == p[..|p| - 1];
  }

  lemma PopFacts(p: seq<Entry>)
    requires p != [] && p[|p| - 1].tree.Fork? && p[|p| - 1].bit
    ensures After(p) == [p[|p| - 1].tree.ref] + After(p[..|p| - 1]) && Work(p) == Work(p[..|p| - 1]) + 1
  {
  }

  lemma PostOrderParts(f: Tree)
    ensures f == Leaf ==> PostOrder(f) == []
    ensures f.Fork? ==> PostOrder(f) == PostOrder(f.left) + PostOrder(f.right) + [f.ref]
  {
  }

  /** What is still to be freed has not been freed. */
  lemma Unfreed(freed: seq<RbNode>, n: RbNode, rest: seq<RbNode>)
    requires NoRepeat(freed + rest) && n in rest
    ensures n !in freed
  {
    var j :| 0 <= j < |rest| && rest[j] == n;
    var s := freed + rest;
    assert s[|freed| + j] == n;
    forall i | 0 <= i < |freed|
      ensures freed[i] != n
    {
      assert s[i] == freed[i];
    }
  }

  /** Steps T2 and T3. */
  method PushLeft(an: array<RbNode?>, ab: array<bool>, n0: nat, x0: RbNode?, ghost S: set<RbNode>, ghost f0: Tree,
                  ghost p0: seq<Entry>, ghost h: nat, ghost freed: seq<RbNode>)
    returns (n: nat, ghost p: seq<Entry>)
    requires Stacks(Image(S), an, ab, n0, p0, h) && Holds(Image(S), f0) && x0 == Ref(f0)
    requires Height(f0) + n0 <= h <= RB_MAX_HEIGHT && NoRepeat(freed + (PostOrder(f0) + After(p0)))
    modifies an, ab
    ensures Stacks(Image(S), an, ab, n, p, h)
    ensures After(p) == PostOrder(f0) + After(p0) && Work(p) == 2 * Size(f0) + Work(p0)
  {
    hide *;
    ghost var f := f0;
    var x := x0;
    n, p := n0, p0;
    RefNull(x, f);
    PostOrderParts(f);
    while x != null
      invariant Stacks(Image(S), an, ab, n, p, h) && Holds(Image(S), f) && (x == null <==> f == Leaf)
      invariant f.Fork? ==> x == f.ref
      invariant f == Leaf ==> PostOrder(f) == [] && Size(f) == 0
      invariant Height(f) + n <= h
      invariant PostOrder(f) + After(p) == PostOrder(f0) + After(p0)
      invariant 2 * Size(f) + Work(p) == 2 * Size(f0) + Work(p0)
      decreases Height(f)
    {
      ReadNode(S, f);
      PostOrderParts(f);
      PushFacts(p, f);
      Unfreed(freed, x, PostOrder(f) + After(p));
      assert x !in freed;
      Push(an, ab, n, x, Image(S), f, p, h);
      n := n + 1;
      p := p + [Entry(f, false)];
      f := f.left;
      RefNull(Ref(f), f);
      PostOrderParts(f);
      x := x.link.zero;
    }
  }

  /** Step T4 until a right subtree is to be entered: entries whose bit is set are freed. */
  method Unwind(an: array<RbNode?>, ab: array<bool>, n0: nat, ghost S: set<RbNode>, ghost p0: seq<Entry>, ghost h: nat,
                freed0: seq<RbNode>, items0: seq<Item>, ghost all: seq<RbNode>)
    returns (n: nat, x: RbNode?, done: bool, freed: seq<RbNode>, items: seq<Item>, ghost f: Tree, ghost p: seq<Entry>)
    requires Stacks(Image(S), an, ab, n0, p0, h) && freed0 + After(p0) == all && NoRepeat(all)
    requires Data(S, freed0, items0)
    modifies ab
    ensures Data(S, freed, items)
    ensures done ==> freed == all
    ensures !done ==> Stacks(Image(S), an, ab, n, p, h) && Holds(Image(S), f) && x == Ref(f) && Height(f) + n <= h
    ensures !done ==> freed + (PostOrder(f) + After(p)) == all && 2 * Size(f) + Work(p) < Work(p0)
  {
    hide *;
    n, x, done, freed, items, f, p := n0, null, false, freed0, items0, Leaf, p0;
    while true
      invariant !done && Stacks(Image(S), an, ab, n, p, h) && freed + After(p) == all
      invariant Data(S, freed, items) && Work(p) <= Work(p0)
      decreases n
    {
      Bottom(Image(S), an, ab, n, p, h);
      if n == 0 {
        done := true;
        assert freed + [] == freed;
        return;
      }
      Top(Image(S), an, ab, n, p, h);
      f := p[n - 1].tree;
      ReadNode(S, f);
      PostOrderParts(f);
      var y := an[n - 1];
      if !ab[n - 1] {
        MarkFacts(p);
        Mark(an, ab, n, Image(S), p, h);
        RightUnfreed(freed, p, y);
        assert y !in freed;
        p := p[n - 1 := p[n - 1].(bit := true)];
        x := y.link.one;
        f := f.right;
        return;
      }
      PopFacts(p);
      RightUnfreed(freed, p, y);
      assert y !in freed;
      AddData(S, freed, items, y);
      Shift(freed, y, After(p[..n - 1]));
      items := items + [y.data];
      freed := freed + [y];
      n := n - 1;
      p := p[..n];
    }
  }

  /** items are the data of the freed nodes, in order. */
  ghost predicate Data(S: set<RbNode>, freed: seq<RbNode>, items: seq<Item>)
    reads S
  {
    |freed| == |items| && forall i | 0 <= i < |freed| :: freed[i] in S && items[i] == freed[i].data
  }

  lemma NoData(S: set<RbNode>)
    ensures Data(S, [], [])
  {
  }

  lemma AddData(S: set<RbNode>, freed: seq<RbNode>, items: seq<Item>, y: RbNode)
    requires Data(S, freed, items) && y in S
    ensures Data(S, freed + [y], items + [y.data])
  {
  }

  lemma RightUnfreed(freed: seq<RbNode>, p: seq<Entry>, y: RbNode)
    requires p != [] && p[|p| - 1].tree.Fork? && y == p[|p| - 1].tree.ref && NoRepeat(freed + After(p))
    ensures y !in freed
  {
    Unfreed(freed, y, After(p));
  }

  /** rb_destroy, lines 107-146: every node is freed once, children before their parent,
      and free_func sees the data of each. */
  method Destroy(root: RbNode, ghost S: set<RbNode>, ghost t: Tree) returns (freed: seq<RbNode>, items: seq<Item>)
    requires Holds(Image(S), t) && Distinct(t) && Height(t) <= RB_MAX_HEIGHT
    requires root in S && root.link.zero == Ref(t)
    ensures freed == PostOrder(t) && NoRepeat(freed) && Data(S, freed, items)
  {
    hide *;
    var an := new RbNode?[RB_MAX_HEIGHT](_ => null);
    var ab := new bool[RB_MAX_HEIGHT](_ => false);
    var ap, x, done := 0, root.link.zero, false;
    ghost var f, p, h := t, [], Height(t);
    freed, items := [], [];
    PostOrderOnce(t);
    NoData(S);
    Empty(Image(S), an, ab, h);
    assert [] + (PostOrder(t) + []) == PostOrder(t);
    while !done
      invariant !done ==> Stacks(Image(S), an, ab, ap, p, h) && Holds(Image(S), f) && x == Ref(f) && Height(f) + ap <= h
      invariant !done ==> freed + (PostOrder(f) + After(p)) == PostOrder(t)
      invariant done ==> freed == PostOrder(t)
      invariant Data(S, freed, items)
      decreases !done, 2 * Size(f) + Work(p)
    {
      ap, p := PushLeft(an, ab, ap, x, S, f, p, h, freed);
      ap, x, done, freed, items, f, p := Unwind(an, ab, ap, S, p, h, freed, items, PostOrder(t));
    }
  }
}
