/** The tree checker of libavl's self-test, common/rb.c:872-942.  It passes exactly the
    trees that have the red-black properties, except that it never looks at the colour of
    the root. */
module RbVerify {
  import opened RbNodes
  import opened RbContext

  /** What recurse_tree accepts below a node, given the bounds it passes down. */
  ghost predicate Kosher(t: Tree, ge: int, le: int) {
    NoRedRed(t) && Balanced(t, BlackHeight(t)) && Ordered(InOrder(t), ge, le)
  }

  /** A node is fine when both subtrees are, they have the same black height, the colours
      fit and its key is within bounds. */
  lemma KosherFork(t: Tree, ge: int, le: int)
    requires t.Fork?
    ensures Kosher(t, ge, le) <==>
            && ge <= t.item.key <= le
            && Kosher(t.left, ge, t.item.key - 1) && Kosher(t.right, t.item.key + 1, le)
            && BlackHeight(t.left) == BlackHeight(t.right)
            && (t.color == Red ==> Col(t.left) == Black && Col(t.right) == Black)
  {
    var x := t.item;
    if Ordered(InOrder(t), ge, le) {
      OrderSplits(InOrder(t.left), x, InOrder(t.right), ge, le);
    }
    if ge <= x.key <= le && Ordered(InOrder(t.left), ge, x.key - 1) && Ordered(InOrder(t.right), x.key + 1, le) {
      OrderJoins(InOrder(t.left), x, InOrder(t.right), ge, le);
    }
    var n := BlackHeight(t.left);
    if Balanced(t.right, n) {
      BalancedIsBlackHeight(t.right, n);
    }
  }

  /** recurse_tree, lines 876-925.  count is what *COUNT grows by; faulty is whether done
      is set.  Black heights count the null link as one. */
  method RecurseTree(node: RbNode?, ge: int, le: int, ghost S: set<RbNode>, ghost t: Tree)
    returns (bh: nat, count: nat, faulty: bool)
    requires Holds(Image(S), t) && node == Ref(t)
    ensures count == Size(t)
    ensures faulty <==> !Kosher(t, ge, le)
    ensures bh == BlackHeight(t) + 1
    decreases t
  {
    if node == null {
      return 1, 0, false;
    }
    ReadNode(S, t);
    RefNull(node.link.zero, t.left);
    RefNull(node.link.one, t.right);
    if t.left.Fork? {
      ReadNode(S, t.left);
    }
    if t.right.Fork? {
      ReadNode(S, t.right);
    }
    KosherFork(t, ge, le);
    var d := node.data.key;
    var nl, nr, cl, cr, fl, fr := 1, 1, 0, 0, false, false;
    faulty := !(d >= ge) || !(d <= le);
    if node.link.zero != null {
      nl, cl, fl := RecurseTree(node.link.zero, ge, d - 1, S, t.left);
    }
    if node.link.one != null {
      nr, cr, fr := RecurseTree(node.link.one, d + 1, le, S, t.right);
    }
    count := cl + 1 + cr;
    faulty := faulty || fl || fr;
    if node.color == Red && node.link.zero != null && node.link.zero.color == Red {
      faulty := true;
    }
    if node.color == Red && node.link.one != null && node.link.one.color == Red {
      faulty := true;
    }
    if nl != nr {
      faulty := true;
    }
    bh := (if node.color == Black then 1 else 0) + nl;
  }

  /** verify_tree, lines 928-942: false stands for abort().  The bounds are those of a key. */
  method VerifyTree(root: RbNode, treeCount: int, ghost S: set<RbNode>, ghost t: Tree) returns (ok: bool)
    requires Rep(Image(S), Top(root), t)
    ensures ok <==> NoRedRed(t) && Balanced(t, BlackHeight(t)) && Ascending(InOrder(t)) && treeCount == Size(t)
    ensures RedBlack(t) && treeCount == Size(t) ==> ok
  {
    assert root in Image(S);
    var bh, count, faulty := RecurseTree(root.link.zero, 0, 0xFFFF_FFFF_FFFF_FFFF, S, t);
    ok := !faulty && count == treeCount;
    assert Within(InOrder(t), 0, 0xFFFF_FFFF_FFFF_FFFF);
  }

  /** The checker is weaker than the invariant: a lone red root passes. */
  lemma RedRootPasses(n: RbNode, x: Item)
    ensures var t := Fork(n, Red, x, Leaf, Leaf);
            Kosher(t, 0, 0xFFFF_FFFF_FFFF_FFFF) && !RedBlack(t)
  {
    var t := Fork(n, Red, x, Leaf, Leaf);
    assert InOrder(t) == [x];
  }
}
