/** A red-black tree on the heap that is too high for the stacks of common/rb.c although it
    has only 131,070 nodes (include/rb.h:28-34). */
module RbSharp {
  import opened Rb
  import opened RbContext
  import opened RbHeight
  import opened RbNodes
  import opened RbReplace

  /** Links, colours and fills the nodes of t as t says. */
  method Lay(t: Tree)
    requires Distinct(t)
    modifies Nodes(t)
    ensures Holds(Image(Nodes(t)), t)
  {
    if t.Leaf? {
      return;
    }
    hide *;
    Apart3(t);
    var link := Links(Ref(t.left), Ref(t.right));
    t.ref.color := t.color;
    t.ref.data := t.item;
    t.ref.link := link;
    Lay(t.left);
    ghost var L, m := Nodes(t.left), Image(Nodes(t.left));
    Lay(t.right);
    assert Image(L) == m;
    Joined(t);
  }

  /** Nodes of their own for the keys 1, 3, 5 and so on. */
  method Allocate(n: nat) returns (slots: seq<Slot>)
    requires 2 * n < KEY_MODULUS
    ensures |slots| == n && OddKeys(slots) && forall i | 0 <= i < n :: fresh(slots[i].ref)
  {
    slots := [];
    for i := 0 to n
      invariant |slots| == i && Usable(slots)
      invariant forall j | 0 <= j < i :: fresh(slots[j].ref) && slots[j].item.key == 2 * j + 1
      invariant forall j | 0 <= j < i :: allocated(slots[j].ref)
    {
      var item := new Item(2 * i + 1, 0);
      var node := new RbNode(item, Black);
      slots := slots + [Slot(node, item)];
    }
  }

  /** The slots are the odd keys on fresh nodes. */
  ghost predicate OddKeys(slots: seq<Slot>) {
    Usable(slots) && forall i | 0 <= i < |slots| :: slots[i].item.key == 2 * i + 1
  }

  lemma OddKeysGapped(slots: seq<Slot>, t: Tree)
    requires OddKeys(slots) && Slots(t) == slots && 2 * |slots| + 1 < KEY_MODULUS
    ensures Gapped(InOrder(t), 0, KEY_MODULUS - 1)
  {
    SlotsItems(t);
  }

  /** A tree object over the tree t, whose nodes it links. */
  method Plant(t: Tree, count: nat) returns (tree: RbTree)
    requires Distinct(t) && RedBlack(t) && count == Size(t)
    modifies Nodes(t)
    ensures tree.Valid() && tree.shape == t && tree.count == count && fresh(tree)
  {
    hide *;
    RbTree.NodesAllocated(t);
    tree := new RbTree();
    RbTree.CleanHeader(tree);
    var root := tree.root;
    assert root !in Nodes(t);
    Lay(t);
    ghost var S, m := Nodes(t), Image(Nodes(t));
    root.link := Links(Ref(t), null);
    assert Image(S) == m;
    tree.count := count;
    tree.shape := t;
    Headed(tree);
  }

  lemma Headed(tree: RbTree)
    requires Holds(Image(Nodes(tree.shape)), tree.shape) && Distinct(tree.shape) && RedBlack(tree.shape)
    requires tree.root.link == Links(Ref(tree.shape), null) && tree.root !in Nodes(tree.shape)
    requires tree.count == Size(tree.shape)
    ensures tree.Valid()
  {
    HoldsAround(Nodes(tree.shape), tree.Repr(), tree.shape);
    assert tree.root in Image(tree.Repr());
  }

  /** A valid tree of 131,070 nodes in which rb_probe and rb_delete, asked for the key 0,
      write entry 32 of stacks whose last entry is 31. */
  method SharpTree() returns (tree: RbTree)
    ensures tree.Valid() && tree.count == FIRST_UNSAFE_SIZE
    ensures Gapped(InOrder(tree.shape), 0, KEY_MODULUS - 1) && Pointer(tree.shape, 0) == RB_MAX_HEIGHT + 1
  {
    hide *;
    SharpSize();
    var slots := Allocate(131_070);
    FirstOdd(slots);
    ghost var g := BoundIsSharp(slots);
    OddKeysGapped(slots, g);
    FreshNodes(g, slots);
    var t := Thin(Black, 16, 32, slots);
    tree := Plant(t, 131_070);
  }

  lemma FreshNodes(t: Tree, slots: seq<Slot>)
    requires Slots(t) == slots
    ensures forall r | r in Nodes(t) :: exists i | 0 <= i < |slots| :: slots[i].ref == r
  {
    forall r | r in Nodes(t) ensures exists i | 0 <= i < |slots| :: slots[i].ref == r {
      SlotsNodes(t, r);
    }
  }

  lemma FirstOdd(slots: seq<Slot>)
    requires OddKeys(slots) && slots != []
    ensures Usable(slots) && slots[0].item.key > 0
  {
  }
}
