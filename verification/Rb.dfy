/** libavl's red-black tree: the functions of common/rb.c on a tree object. */
module Rb {
  import opened RbNodes
  import opened RbContext
  import opened RbCopy
  import RbDestroy
  import opened RbFind
  import opened RbHeap
  import opened RbInsert
  import opened RbRemove
  import opened RbReplace
  import RbTraverse

  /** struct rb_tree of include/rb.h:76-86.  root is the header node whose link[0] is
      the root of the tree proper; shape is the tree the nodes hold. */
  class RbTree {
    const root: RbNode
    var count: int
    ghost var shape: Tree

    ghost function Repr(): set<RbNode>
      reads this
    {
      {root} + Nodes(shape)
    }

    /** A red-black tree but for the order of the keys, which whoever writes to the blocks
        of the items may upset. */
    ghost predicate Linked()
      reads this, Repr()
    {
      Rep(Image(Repr()), Top(root), shape) && Shaped(shape) && count == Size(shape)
    }

    ghost predicate Valid()
      reads this, Repr()
    {
      Linked() && Ascending(InOrder(shape))
    }

    /** rb_create, lines 76-91. */
    constructor ()
      ensures Valid() && shape == Leaf && count == 0 && fresh(Repr())
    {
      var item := new Item(0, 0);
      root := new RbNode(item, Black);
      count := 0;
      shape := Leaf;
    }

    lemma Held()
      requires Linked()
      ensures HoldsTree(Image(Repr()), root, shape, BlackHeight(shape), InOrder(shape), Repr())
      ensures count == |InOrder(shape)|
    {
      SizeIsLength(shape);
    }

    lemma OrderKept()
      requires Linked()
      ensures Valid() <==> Ascending(InOrder(shape))
    {
    }

    /** rb_delete, lines 549-765.  The item that the search comes upon goes; when the keys
        ascend, that is the item with the key. */
    method Delete(item: Item) returns (found: Item?)
      requires Linked() && Reach(shape, Black, item.key) <= RB_MAX_HEIGHT
      modifies this, Repr()
      ensures Linked() && Repr() <= old(Repr()) && (old(Valid()) ==> Valid())
      ensures found == Sought(old(shape), item.key)
      ensures found == null ==> shape == old(shape) && count == old(count)
      ensures found != null ==>
        found.key == item.key && Removed(old(InOrder(shape)), found, InOrder(shape)) && count == old(count) - 1
      ensures old(Valid()) ==> (found == null <==> Absent(old(InOrder(shape)), item.key))
    {
      hide Rep, Shaped, HoldsTree, Removed, Absent, InOrder, Ascending, Size, BlackHeight, Distinct, Image, Sought;
      Held();
      OrderKept();
      Coming(item.key);
      ghost var t, b, N;
      found, t, b, N := DeleteFrom(root, item.key, Repr(), shape, BlackHeight(shape));
      if found != null {
        count := count - 1;
        shape := t;
        HeldIsShaped(Image(N), root, t, b, N);
        RemovedLength(old(InOrder(shape)), found, InOrder(t));
      }
    }

    /** What a search comes upon. */
    lemma Coming(key: Key)
      ensures Sought(shape, key) != null ==> Sought(shape, key).key == key && Sought(shape, key) in InOrder(shape)
      ensures Ascending(InOrder(shape)) ==> (Sought(shape, key) == null <==> Absent(InOrder(shape), key))
    {
      if Sought(shape, key) != null {
        SoughtIsThere(shape, key);
      }
      if Ascending(InOrder(shape)) {
        SoughtInOrder(shape, key);
      }
    }

    /** rb_probe, lines 341-490.  slot is the node whose data field the returned pointer
        addresses; it holds the item with the sought key even after the rotations. */
    method Probe(item: Item) returns (slot: RbNode)
      requires Linked() && Pointer(shape, item.key) <= RB_MAX_HEIGHT
      modifies this, Repr()
      ensures Linked() && (old(Valid()) ==> Valid()) && slot in Nodes(shape) && slot.data.key == item.key
      ensures fresh(Repr() - old(Repr()))
      ensures Sought(old(shape), item.key) != null ==>
        shape == old(shape) && count == old(count) && slot.data == Sought(old(shape), item.key)
      ensures Sought(old(shape), item.key) == null ==>
        && slot.data == item && Inserted(old(InOrder(shape)), item, InOrder(shape)) && count == old(count) + 1
      ensures old(Valid()) ==> (Sought(old(shape), item.key) == null <==> Absent(old(InOrder(shape)), item.key))
    {
      hide Rep, Shaped, HoldsTree, Inserted, Absent, InOrder, Ascending, Size, BlackHeight, Distinct, Image, Sought;
      Held();
      OrderKept();
      Coming(item.key);
      ghost var t, b, N;
      var added;
      slot, added, t, b, N := ProbeFrom(root, item, Repr(), shape, BlackHeight(shape));
      if added {
        count := count + 1;
        shape := t;
        HeldIsShaped(Image(N), root, t, b, N);
        InsertedLength(old(InOrder(shape)), item, InOrder(t));
      }
    }

    /** rb_insert, lines 769-778. */
    method Insert(item: Item) returns (dup: Item?)
      requires Linked() && Pointer(shape, item.key) <= RB_MAX_HEIGHT
      modifies this, Repr()
      ensures Linked() && (old(Valid()) ==> Valid()) && fresh(Repr() - old(Repr()))
      ensures Sought(old(shape), item.key) == null ==>
        && dup == null && Inserted(old(InOrder(shape)), item, InOrder(shape)) && count == old(count) + 1
      ensures Sought(old(shape), item.key) != null ==>
        && shape == old(shape) && count == old(count)
        && dup == if Sought(shape, item.key) == item then null else Sought(shape, item.key)
      ensures old(Valid()) ==> (Sought(old(shape), item.key) == null <==> Absent(old(InOrder(shape)), item.key))
    {
      var p := Probe(item);
      dup := if p.data == item then null else p.data;
    }

    /** rb_replace, lines 784-800. */
    method Replace(item: Item) returns (r: Item?)
      requires Valid() && Pointer(shape, item.key) <= RB_MAX_HEIGHT
      modifies this, Repr()
      ensures Valid() && fresh(Repr() - old(Repr()))
      ensures Absent(old(InOrder(shape)), item.key) ==>
        && r == null && Inserted(old(InOrder(shape)), item, InOrder(shape)) && count == old(count) + 1
      ensures !Absent(old(InOrder(shape)), item.key) ==> count == old(count)
      ensures !Absent(old(InOrder(shape)), item.key) && r == null ==>
        shape == old(shape) && exists i | 0 <= i < |InOrder(shape)| :: InOrder(shape)[i] == item
      ensures r != null ==>
        && r != item && r.key == item.key && Replaced(old(InOrder(shape)), r, item, InOrder(shape))
    {
      var p := Probe(item);
      SlotItem(p);
      r := null;
      if p.data != item {
        r := p.data;
        Overwrite(p, item);
      }
    }

    /** The data field of a node holds an item of the tree. */
    lemma SlotItem(p: RbNode)
      requires Valid() && p in Nodes(shape)
      ensures exists i | 0 <= i < |InOrder(shape)| :: InOrder(shape)[i] == p.data
    {
      SetItemOrder(Image(Repr()), shape, p, p.data);
    }

    /** Somebody writes to the block y.  The nodes that refer to it do so still, and now find
        there what x holds. */
    method Rewrite(y: Item, x: Item)
      requires Linked()
      modifies this, Repr()
      ensures Linked() && Repr() == old(Repr()) && count == old(count) && shape == Rewritten(old(shape), y, x)
    {
      hide *;
      Pieces();
      var top := root.link.zero;
      ghost var t, S := shape, Repr();
      RbReplace.Rewrite(top, y, x, t);
      shape := Rewritten(t, y, x);
      PutTogether(t, y, x);
    }

    lemma Pieces()
      requires Linked()
      ensures root.link == Links(Ref(shape), null) && root !in Nodes(shape) && Repr() == {root} + Nodes(shape)
      ensures Holds(Image(Nodes(shape)), shape) && Distinct(shape) && Shaped(shape) && count == Size(shape)
    {
      assert root in Image(Repr());
      HoldsAround(Repr(), Nodes(shape), shape);
    }

    lemma PutTogether(t: Tree, y: Item, x: Item)
      requires shape == Rewritten(t, y, x) && Holds(Image(Nodes(t)), shape) && Distinct(t) && Shaped(t) && count == Size(t)
      requires root.link == Links(Ref(t), null) && root !in Nodes(t)
      ensures Linked() && Repr() == {root} + Nodes(t)
    {
      HoldsAround(Nodes(t), Repr(), shape);
      assert root in Image(Repr());
      RewrittenSound(t, y, x, BlackHeight(t));
      BalancedIsBlackHeight(shape, BlackHeight(t));
    }

    /** *p = item. */
    method Overwrite(p: RbNode, item: Item)
      requires Valid() && p in Nodes(shape) && p.data.key == item.key
      modifies this, Repr()
      ensures Valid() && Repr() == old(Repr()) && count == old(count)
      ensures Replaced(old(InOrder(shape)), old(p.data), item, InOrder(shape))
    {
      ghost var m, b := Image(Repr()), BlackHeight(shape);
      SetItemOrder(m, shape, p, item);
      SetItemSound(shape, p, item, b);
      ReplacedAscends(InOrder(shape), p.data, item, InOrder(SetItem(shape, p, item)));
      Held();
      p.data := item;
      shape := SetItem(shape, p, item);
      SetItemHeap(m, Image(Repr()), old(shape), p, item);
      HeldIsShaped(Image(Repr()), root, shape, b, Repr());
    }

    /** rb_find, lines 493-512. */
    method Find(item: Item) returns (found: Item?)
      requires Linked()
      ensures found == Sought(shape, item.key)
      ensures found != null ==> found.key == item.key && found in InOrder(shape)
      ensures Valid() ==> (found == null <==> Absent(InOrder(shape), item.key))
    {
      found := FindFrom(root, item.key, Repr(), shape);
      Coming(item.key);
    }

    /** rb_find_close, lines 516-543. */
    method FindClose(item: Item) returns (found: Item?)
      requires Valid()
      ensures found == null <==> shape == Leaf
      ensures found != null ==> Closest(InOrder(shape), found, item.key)
    {
      Held();
      found := FindCloseFrom(root, item.key, Repr(), shape, BlackHeight(shape));
    }

    /** rb_count, lines 160-165. */
    method Count() returns (n: int)
      requires Valid()
      ensures n == |InOrder(shape)|
    {
      Held();
      n := count;
    }

    /** rb_copy, lines 172-253.  copy is the identity when COPY is NULL. */
    method Copy(copy: Item -> Item) returns (twin: RbTree)
      requires Valid() && Height(shape) < RB_MAX_HEIGHT
      ensures fresh(twin) && fresh(twin.Repr()) && twin.count == count
      ensures SameShape(shape, twin.shape, copy)
      ensures twin.Valid() <==> CopiesAscend(InOrder(shape), copy)
    {
      hide Rep, RedBlack, Image, Copied, SameShape, InOrder, Size, BlackHeight, Distinct, CopiesAscend;
      Parts();
      ghost var S, t := Repr(), shape;
      NodesAllocated(t);
      twin := new RbTree();
      CleanHeader(twin);
      twin.count := count;
      ghost var N, u := CopyNodes(root, twin.root, copy, S, t);
      twin.shape := u;
      twin.CopiedIsValid(Image(N), N, t, copy);
    }

    static lemma {:induction false} NodesAllocated(t: Tree)
      ensures forall n | n in Nodes(t) :: allocated(n)
    {
      if t.Fork? {
        NodesAllocated(t.left);
        NodesAllocated(t.right);
      }
    }

    lemma Parts()
      requires Valid()
      ensures Rep(Image(Repr()), Top(root), shape) && RedBlack(shape) && count == Size(shape)
    {
    }

    static lemma CleanHeader(t: RbTree)
      requires t.Valid() && t.shape == Leaf
      ensures t.root.link == Links(null, null) && t.root in t.Repr()
    {
      assert t.root in Image(t.Repr());
    }

    lemma CopiedIsValid(k: Store, N: set<RbNode>, t: Tree, copy: Item -> Item)
      requires Copied(k, root, N, t, shape, copy) && k == Image(N) && count == Size(t) && RedBlack(t)
      ensures SameShape(t, shape, copy) && Repr() == N
      ensures Valid() <==> CopiesAscend(InOrder(t), copy)
    {
      CopyRedBlack(t, shape, copy);
      CopyBalanced(t, shape, copy, 0);
    }

    /** rb_walk, lines 257-289. */
    method Walk() returns (visits: seq<Item>)
      requires Valid() && Height(shape) <= RB_MAX_HEIGHT
      ensures visits == InOrder(shape)
    {
      assert root in Image(Repr());
      visits := RbTraverse.Walk(root, Repr(), shape);
    }

    /** rb_destroy, lines 101-150: the order in which nodes are freed and the items that
        free_func is given. */
    method Destroy() returns (freed: seq<RbNode>, items: seq<Item>)
      requires Valid() && Height(shape) <= RB_MAX_HEIGHT
      ensures forall n :: n in freed <==> n in Nodes(shape)
      ensures RbDestroy.NoRepeat(freed) && |items| == |freed| == count
      ensures forall i | 0 <= i < |freed| :: items[i] == freed[i].data
      ensures forall u, d: Dir | u in Nodes(shape) && u.link.At(d) != null :: RbDestroy.Before(freed, u.link.At(d), u)
    {
      assert root in Image(Repr());
      freed, items := RbDestroy.Destroy(root, Repr(), shape);
      RbDestroy.PostOrderOnce(shape);
      RbDestroy.PostOrderNodes(shape);
      forall u, d: Dir | u in Nodes(shape) && u.link.At(d) != null
        ensures RbDestroy.Before(freed, u.link.At(d), u)
      {
        RbDestroy.ChildrenFirst(Image(Repr()), shape, u, d);
      }
    }
  }

  lemma OneIndex(s: seq<Item>, i: nat, j: nat)
    requires Ascending(s) && i < |s| && j < |s| && s[i].key == s[j].key
    ensures i == j
  {
    if i < j {
      InStep(s, i, j);
    } else if j < i {
      InStep(s, j, i);
    }
  }

  /** Deleting what was just inserted restores the in-order sequence: the contracts of
      Probe and Delete leave no other choice. */
  lemma DeleteUndoesInsert(s: seq<Item>, x: Item, s1: seq<Item>, y: Item, s2: seq<Item>)
    requires Ascending(s1) && Inserted(s, x, s1) && Removed(s1, y, s2) && y.key == x.key
    ensures y == x && s2 == s
  {
    hide Ascending;
    var i :| 0 <= i <= |s| && s1 == s[..i] + [x] + s[i..];
    TakeBack(s, x, i, s1);
    hide *;
    var j :| 0 <= j < |s1| && s1[j] == y && s2 == s1[..j] + s1[j + 1..];
    OneIndex(s1, i, j);
  }

  lemma TakeBack(s: seq<Item>, x: Item, i: nat, s1: seq<Item>)
    requires i <= |s| && s1 == s[..i] + [x] + s[i..]
    ensures i < |s1| && s1[i] == x && s1[..i] + s1[i + 1..] == s
  {
    assert s1[..i] == s[..i] && s1[i + 1..] == s[i..];
  }

  /** Inserting what was just deleted restores it too: in order there is one place only. */
  lemma InsertUndoesDelete(s: seq<Item>, x: Item, s1: seq<Item>, s2: seq<Item>)
    requires Ascending(s) && Removed(s, x, s1) && Ascending(s2) && Inserted(s1, x, s2)
    ensures s2 == s
  {
    hide Ascending;
    var i :| 0 <= i < |s| && s[i] == x && s1 == s[..i] + s[i + 1..];
    var j :| 0 <= j <= |s1| && s2 == s1[..j] + [x] + s1[j..];
    hide *;
    OnePlace(s, i, s1, j, s2);
    GiveBack(s, i, s1);
  }

  lemma GiveBack(s: seq<Item>, i: nat, s1: seq<Item>)
    requires i < |s| && s1 == s[..i] + s[i + 1..]
    ensures s1[..i] + [s[i]] + s1[i..] == s
  {
    assert s1[..i] == s[..i] && s1[i..] == s[i + 1..];
  }

  lemma OnePlace(s: seq<Item>, i: nat, s1: seq<Item>, j: nat, s2: seq<Item>)
    requires Ascending(s) && i < |s| && s1 == s[..i] + s[i + 1..]
    requires Ascending(s2) && j <= |s1| && s2 == s1[..j] + [s[i]] + s1[j..]
    ensures i == j
  {
    hide Ascending;
    if i < j {
      assert s2[j - 1] == s1[j - 1] == s[j] && s2[j] == s[i];
      InStep(s2, j - 1, j);
      InStep(s, i, j);
    } else if j < i {
      assert s2[j + 1] == s1[j] == s[j] && s2[j] == s[i];
      InStep(s2, j, j + 1);
      InStep(s, j, i);
    }
  }

  lemma InStep(s: seq<Item>, i: nat, j: nat)
    requires Ascending(s) && i < j < |s|
    ensures s[i].key < s[j].key
  {
  }
}
