/** Overwriting the data field of one node, as rb_replace does (common/rb.c:784-800). */
module RbReplace {
  import opened RbNodes
  import opened RbContext

  /** t with item at node r. */
  function SetItem(t: Tree, r: RbNode, item: Item): (u: Tree)
    ensures Ref(u) == Ref(t) && Col(u) == Col(t) && Nodes(u) == Nodes(t)
    ensures |InOrder(u)| == |InOrder(t)| && Height(u) == Height(t)
  {
    if t.Leaf? then Leaf
    else if t.ref == r then t.(item := item)
    else t.(left := SetItem(t.left, r, item), right := SetItem(t.right, r, item))
  }

  lemma {:induction false} SetItemOutside(t: Tree, r: RbNode, item: Item)
    requires r !in Nodes(t)
    ensures SetItem(t, r, item) == t
  {
    if t.Fork? {
      SetItemOutside(t.left, r, item);
      SetItemOutside(t.right, r, item);
    }
  }

  lemma {:induction false} SetItemHeap(m: Store, k: Store, t: Tree, r: RbNode, item: Item)
    requires Holds(m, t) && Distinct(t) && OnlyAt(m, k, {r})
    requires r in m && r in k && k[r] == m[r].(data := item)
    ensures Holds(k, SetItem(t, r, item)) && Distinct(SetItem(t, r, item))
  {
    if t.Fork? {
      if t.ref == r {
        Keep(m, k, {r}, t.left);
        Keep(m, k, {r}, t.right);
      } else {
        SetItemHeap(m, k, t.left, r, item);
        SetItemHeap(m, k, t.right, r, item);
      }
    }
  }

  lemma {:induction false} SetItemSound(t: Tree, r: RbNode, item: Item, n: nat)
    requires Balanced(t, n) && NoRedRed(t)
    ensures Balanced(SetItem(t, r, item), n) && NoRedRed(SetItem(t, r, item))
  {
    if t.Fork? && t.ref != r {
      var k := if t.color == Red then n else n - 1;
      SetItemSound(t.left, r, item, k);
      SetItemSound(t.right, r, item, k);
    }
  }

  /** s' is s with y in the place of x. */
  ghost predicate Replaced(s: seq<Item>, x: Item, y: Item, s': seq<Item>) {
    exists i | 0 <= i < |s| :: s[i] == x && s' == s[i := y]
  }

  lemma ReplacedIn(a: seq<Item>, s: seq<Item>, b: seq<Item>, x: Item, y: Item, s': seq<Item>)
    requires Replaced(s, x, y, s')
    ensures Replaced(a + s + b, x, y, a + s' + b)
  {
    var i :| 0 <= i < |s| && s[i] == x && s' == s[i := y];
    assert (a + s + b)[|a| + i] == x;
    assert a + s' + b == (a + s + b)[|a| + i := y];
  }

  lemma {:induction false} SetItemOrder(m: Store, t: Tree, r: RbNode, item: Item)
    requires Holds(m, t) && Distinct(t) && r in Nodes(t) && r in m
    ensures Replaced(InOrder(t), m[r].data, item, InOrder(SetItem(t, r, item)))
  {
    var l: seq<Item>, x: seq<Item>, u: seq<Item> := InOrder(t.left), [t.item], InOrder(t.right);
    if t.ref == r {
      assert InOrder(t)[|l|] == t.item;
      assert l + [item] + u == (l + x + u)[|l| := item];
    } else if r in Nodes(t.left) {
      SetItemOutside(t.right, r, item);
      SetItemOrder(m, t.left, r, item);
      ReplacedIn([], l, x + u, m[r].data, item, InOrder(SetItem(t.left, r, item)));
      assert [] + l + (x + u) == InOrder(t);
      var l' := InOrder(SetItem(t.left, r, item));
      assert [] + l' + (x + u) == l' + x + u;
    } else {
      SetItemOutside(t.left, r, item);
      SetItemOrder(m, t.right, r, item);
      ReplacedIn(l + x, u, [], m[r].data, item, InOrder(SetItem(t.right, r, item)));
      assert l + x + u + [] == InOrder(t);
      var u' := InOrder(SetItem(t.right, r, item));
      assert l + x + u' + [] == l + x + u';
    }
  }

  lemma ReplacedAscends(s: seq<Item>, x: Item, y: Item, s': seq<Item>)
    requires Replaced(s, x, y, s') && Ascending(s) && x.key == y.key
    ensures Ascending(s')
  {
  }

  // ---------- Writing to a block that the tree refers to ----------

  /** The nodes that refer to the block y find in it what x holds. */
  function Rewritten(t: Tree, y: Item, x: Item): (u: Tree)
    ensures Ref(u) == Ref(t) && Col(u) == Col(t) && Nodes(u) == Nodes(t) && (Distinct(u) <==> Distinct(t))
    ensures |InOrder(u)| == |InOrder(t)| && Height(u) == Height(t) && Size(u) == Size(t)
  {
    if t.Leaf? then Leaf
    else Fork(t.ref, t.color, if t.item == y then x else t.item, Rewritten(t.left, y, x), Rewritten(t.right, y, x))
  }

  lemma {:induction false} RewrittenSound(t: Tree, y: Item, x: Item, n: nat)
    requires Balanced(t, n) && NoRedRed(t)
    ensures Balanced(Rewritten(t, y, x), n) && NoRedRed(Rewritten(t, y, x))
  {
    if t.Fork? {
      var k := if t.color == Red then n else n - 1;
      RewrittenSound(t.left, y, x, k);
      RewrittenSound(t.right, y, x, k);
    }
  }

  lemma {:induction false} RewrittenItems(t: Tree, y: Item, x: Item)
    ensures forall i | 0 <= i < |InOrder(t)| :: InOrder(Rewritten(t, y, x))[i] == if InOrder(t)[i] == y then x else InOrder(t)[i]
  {
    if t.Fork? {
      RewrittenItems(t.left, y, x);
      RewrittenItems(t.right, y, x);
    }
  }

  lemma {:induction false} RewrittenElsewhere(t: Tree, y: Item, x: Item)
    requires y !in InOrder(t)
    ensures Rewritten(t, y, x) == t
  {
    if t.Fork? {
      RewrittenElsewhere(t.left, y, x);
      RewrittenElsewhere(t.right, y, x);
    }
  }

  lemma {:induction false} NotSought(t: Tree, key: Key)
    requires forall i | 0 <= i < |InOrder(t)| :: InOrder(t)[i].key != key
    ensures Sought(t, key) == null
  {
    if Sought(t, key) != null {
      SoughtIsThere(t, key);
    }
  }

  /** Once the block of an item has been written to, whatever the tree looks like now, a
      search for the key that it had comes upon it if and only if it holds that key again. */
  lemma {:induction false} SoughtRewritten(t: Tree, y: Item, x: Item)
    requires Ascending(InOrder(t)) && y in InOrder(t)
    ensures Sought(Rewritten(t, y, x), y.key) == if x.key == y.key then x else null
  {
    var l, r, k := InOrder(t.left), InOrder(t.right), y.key;
    AscendingParts(l, t.item, r, k);
    RewrittenItems(t.left, y, x);
    RewrittenItems(t.right, y, x);
    OneItem(l, t.item, r, y);
    if t.item == y {
      if x.key != k {
        NotSought(Rewritten(t.left, y, x), k);
        NotSought(Rewritten(t.right, y, x), k);
      }
    } else {
      SoughtRewritten(Toward(t, k), y, x);
    }
  }

  /** In ascending order an item, and its key, stands at one place. */
  lemma OneItem(l: seq<Item>, z: Item, r: seq<Item>, y: Item)
    requires Ascending(l + [z] + r) && y in l + [z] + r
    ensures z == y ==> Absent(l, y.key) && Absent(r, y.key)
    ensures z != y ==> y.key != z.key && y in (if y.key < z.key then l else r)
  {
    var s := l + [z] + r;
    assert s[|l|] == z;
    assert forall i | 0 <= i < |l| :: s[i] == l[i];
    assert forall j | 0 <= j < |r| :: s[|l| + 1 + j] == r[j];
  }

  lemma {:induction false} HoldsAround(S: set<RbNode>, N: set<RbNode>, t: Tree)
    requires Holds(Image(S), t) && Nodes(t) <= N
    ensures Holds(Image(N), t)
  {
    if t.Fork? {
      ReadNode(S, t);
      assert t.ref in Image(N);
      HoldsAround(S, N, t.left);
      HoldsAround(S, N, t.right);
    }
  }

  /** A root that is filled in, over two subtrees that are. */
  lemma Joined(t: Tree)
    requires t.Fork? && Distinct(t) && Holds(Image(Nodes(t.left)), t.left) && Holds(Image(Nodes(t.right)), t.right)
    requires t.ref.color == t.color && t.ref.data == t.item && t.ref.link == Links(Ref(t.left), Ref(t.right))
    ensures Holds(Image(Nodes(t)), t)
  {
    HoldsAround(Nodes(t.left), Nodes(t), t.left);
    HoldsAround(Nodes(t.right), Nodes(t), t.right);
    assert t.ref in Image(Nodes(t));
  }

  lemma Apart3(t: Tree)
    requires t.Fork? && Distinct(t)
    ensures t.ref in Nodes(t) && Nodes(t.left) <= Nodes(t) && Nodes(t.right) <= Nodes(t)
    ensures t.ref !in Nodes(t.left) && t.ref !in Nodes(t.right) && Nodes(t.left) !! Nodes(t.right)
    ensures Distinct(t.left) && Distinct(t.right)
  {
  }

  lemma Below(t: Tree)
    requires t.Fork? && Holds(Image(Nodes(t)), t)
    ensures t.ref.data == t.item && t.ref.color == t.color && t.ref.link == Links(Ref(t.left), Ref(t.right))
    ensures Holds(Image(Nodes(t.left)), t.left) && Holds(Image(Nodes(t.right)), t.right)
  {
    ReadNode(Nodes(t), t);
    HoldsAround(Nodes(t), Nodes(t.left), t.left);
    HoldsAround(Nodes(t), Nodes(t.right), t.right);
  }

  lemma NothingBelow(y: Item, x: Item)
    ensures Holds(Image(Nodes(Leaf)), Rewritten(Leaf, y, x))
  {
  }

  lemma RewrittenFork(t: Tree, y: Item, x: Item)
    requires t.Fork? && Distinct(t)
    ensures Distinct(Rewritten(t, y, x)) && Nodes(Rewritten(t, y, x)) == Nodes(t)
    ensures Nodes(Rewritten(t.left, y, x)) == Nodes(t.left) && Ref(Rewritten(t.left, y, x)) == Ref(t.left)
    ensures Nodes(Rewritten(t.right, y, x)) == Nodes(t.right) && Ref(Rewritten(t.right, y, x)) == Ref(t.right)
    ensures Rewritten(t, y, x) ==
      Fork(t.ref, t.color, if t.item == y then x else t.item, Rewritten(t.left, y, x), Rewritten(t.right, y, x))
  {
  }

  /** Somebody writes to the block y: every node below n that refers to it refers to what
      the block holds now, which is x. */
  method Rewrite(n: RbNode?, y: Item, x: Item, ghost t: Tree)
    requires Holds(Image(Nodes(t)), t) && Distinct(t) && n == Ref(t)
    modifies Nodes(t)
    ensures Holds(Image(Nodes(t)), Rewritten(t, y, x))
    decreases t
  {
    hide *;
    RefNull(n, t);
    if n == null {
      NothingBelow(y, x);
      return;
    }
    Apart3(t);
    Below(t);
    RewrittenFork(t, y, x);
    ghost var u := Rewritten(t, y, x);
    ghost var L, R := Nodes(t.left), Nodes(t.right);
    var zero, one := n.link.zero, n.link.one;
    Rewrite(zero, y, x, t.left);
    ghost var m := Image(L);
    assert Image(R) == old(Image(R));
    Rewrite(one, y, x, t.right);
    assert Image(L) == m;
    ghost var m' := Image(R);
    if n.data == y {
      n.data := x;
    }
    assert Image(L) == m && Image(R) == m';
    Joined(u);
  }
}
