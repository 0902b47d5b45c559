/** The locked set of common/set.c and include/set.h: a red-black tree of items, a
    re-entrant lock and one traverser. */
module Set {
  import opened Lock
  import opened Rb
  import opened RbContext
  import opened RbHeight
  import opened RbNodes
  import opened RbReplace
  import opened RbTraverse

  /** NULL as a data pointer. */
  const NULL: nat := 0

  /** The finite map that a sequence of items stands for. */
  function MapOf(s: seq<Item>): map<Key, nat> {
    if s == [] then map[] else MapOf(s[..|s| - 1])[s[|s| - 1].key := s[|s| - 1].data]
  }

  lemma {:induction false} EntryOf(s: seq<Item>, i: nat)
    requires Ascending(s) && i < |s|
    ensures s[i].key in MapOf(s) && MapOf(s)[s[i].key] == s[i].data
  {
    if i < |s| - 1 {
      EntryOf(s[..|s| - 1], i);
    }
  }

  lemma {:induction false} ItemOf(s: seq<Item>, k: Key) returns (i: nat)
    requires k in MapOf(s)
    ensures i < |s| && s[i].key == k
  {
    i := |s| - 1;
    if s[i].key != k {
      i := ItemOf(s[..|s| - 1], k);
    }
  }

  lemma {:induction false} MapOfSize(s: seq<Item>)
    requires Ascending(s)
    ensures |MapOf(s)| == |s|
  {
    if s != [] {
      var r, x := s[..|s| - 1], s[|s| - 1];
      MapOfSize(r);
      if x.key in MapOf(r) {
        var i := ItemOf(r, x.key);
        assert false;
      }
      assert MapOf(s).Keys == MapOf(r).Keys + {x.key};
    }
  }

  lemma InMap(s: seq<Item>, k: Key)
    requires Ascending(s)
    ensures k in MapOf(s) <==> !Absent(s, k)
  {
    if k in MapOf(s) {
      var i := ItemOf(s, k);
    }
    if !Absent(s, k) {
      var i :| 0 <= i < |s| && s[i].key == k;
      EntryOf(s, i);
    }
  }

  lemma MapOfInserted(s: seq<Item>, x: Item, s': seq<Item>)
    requires Ascending(s) && Ascending(s') && Inserted(s, x, s')
    ensures Absent(s, x.key) && MapOf(s') == MapOf(s)[x.key := x.data]
  {
    var i :| 0 <= i <= |s| && s' == s[..i] + [x] + s[i..];
    MapOfInsertedAt(s, x, s', i);
  }

  lemma MapOfInsertedAt(s: seq<Item>, x: Item, s': seq<Item>, i: nat)
    requires Ascending(s) && Ascending(s') && i <= |s| && |s'| == |s| + 1 && s'[i] == x
    requires forall j | 0 <= j < |s| :: s[j] == s'[if j < i then j else j + 1]
    ensures Absent(s, x.key) && MapOf(s') == MapOf(s)[x.key := x.data]
  {
    hide MapOf;
    var m, m' := MapOf(s), MapOf(s');
    EntryOf(s', i);
    forall k: Key | k in m ensures k in m' && m'[k] == m[k] && k != x.key {
      var j := ItemOf(s, k);
      EntryOf(s, j);
      EntryOf(s', if j < i then j else j + 1);
    }
    forall k: Key | k in m' && k != x.key ensures k in m {
      var j := ItemOf(s', k);
      var j' := if j < i then j else j - 1;
      assert s[j'] == s'[j];
      EntryOf(s, j');
    }
    InMap(s, x.key);
  }

  lemma MapOfRemoved(s: seq<Item>, x: Item, s': seq<Item>)
    requires Ascending(s) && Ascending(s') && Removed(s, x, s')
    ensures MapOf(s') == MapOf(s) - {x.key} && x.key in MapOf(s) && Absent(s', x.key)
  {
    hide *;
    PutBack(s, x, s');
    MapOfInserted(s', x, s);
    InMap(s', x.key);
    assert forall k | k in MapOf(s') :: k != x.key;
  }

  lemma PutBack(s: seq<Item>, x: Item, s': seq<Item>)
    requires Removed(s, x, s')
    ensures Inserted(s', x, s)
  {
    var i :| 0 <= i < |s| && s[i] == x && s' == s[..i] + s[i + 1..];
    assert s'[..i] == s[..i] && s'[i..] == s[i + 1..];
    assert s[..i] + [x] + s[i + 1..] == s;
  }

  // ---------- Addresses ----------

  predicate Beyond(n: nat, addresses: set<nat>) {
    n != NULL && forall a | a in addresses :: a < n
  }

  /** There is always an address for one more record. */
  lemma {:induction false} AddressBeyond(addresses: set<nat>)
    ensures exists n: nat :: Beyond(n, addresses)
  {
    if addresses == {} {
      assert Beyond(1, addresses);
    } else {
      var a :| a in addresses;
      AddressBeyond(addresses - {a});
      var n: nat :| Beyond(n, addresses - {a});
      assert forall b | b in addresses :: b == a || b in addresses - {a};
      assert Beyond(if a < n then n else a + 1, addresses);
    }
  }

  lemma FreeAddress(addresses: set<nat>)
    ensures exists n: nat :: n != NULL && n !in addresses
  {
    AddressBeyond(addresses);
    var n: nat :| Beyond(n, addresses);
    assert n != NULL && n !in addresses;
  }

  // ---------- The set ----------

  function Datas(s: seq<Item>): (d: seq<nat>)
    ensures |d| == |s| && forall i | 0 <= i < |s| :: d[i] == s[i].data
  {
    if s == [] then [] else Datas(s[..|s| - 1]) + [s[|s| - 1].data]
  }

  /** Nothing has been freed twice, and no item of s has been freed. */
  ghost predicate Unfreed(s: seq<Item>, freed: multiset<Item>) {
    (forall x | x in freed :: freed[x] == 1) && forall i | 0 <= i < |s| :: s[i] !in freed
  }

  lemma {:induction false} ItemsAllocated(t: Tree)
    ensures forall x | x in InOrder(t) :: allocated(x)
  {
    if t.Fork? {
      ItemsAllocated(t.left);
      ItemsAllocated(t.right);
    }
  }

  /** The block of reused is handed out for item: what was freed of it is freed of item but
      for the once that it is taken. */
  function Handed(freed: multiset<Item>, reused: Item?, item: Item): multiset<Item>
    requires reused != null ==> reused in freed
  {
    if reused == null then freed else freed[reused := 0][item := freed[reused] - 1]
  }

  /** The tree as it reads once item has been written to the block of reused. */
  function Renewed(t: Tree, reused: Item?, item: Item): Tree {
    if reused == null then t else Rewritten(t, reused, item)
  }

  /** What set_insert does to a tree and to the blocks that are free, whatever the freed
      blocks hold that the tree may refer to. */
  ghost predicate InsertRan(was: Tree, free: multiset<Item>, reused: Item?, item: Item, intended: bool, ok: bool,
                            now: Tree, freed: multiset<Item>)
    requires reused != null ==> reused in free
  {
    var t := Renewed(was, reused, item);
    var met := Sought(t, item.key);
    && (ok <==> met == null || met == item)
    && (if met == null then Inserted(InOrder(t), item, InOrder(now)) else now == t)
    && freed == Handed(free, reused, item) + if ok then multiset{} else multiset{if intended then item else met}
  }

  /** On an intact set it makes no difference which block is handed out. */
  lemma InsertFacts(was: Tree, free: multiset<Item>, reused: Item?, item: Item, intended: bool, ok: bool,
                    now: Tree, freed: multiset<Item>)
    requires reused != null ==> reused in free
    requires InsertRan(was, free, reused, item, intended, ok, now, freed)
    requires Unfreed(InOrder(was), free) && item !in InOrder(was) && item !in free
    requires Ascending(InOrder(was)) && Ascending(InOrder(now))
    ensures ok <==> item.key !in MapOf(InOrder(was))
    ensures ok ==> MapOf(InOrder(now)) == MapOf(InOrder(was))[item.key := item.data]
    ensures !ok ==> now == was
    ensures Unfreed(InOrder(now), freed) <==> intended || ok
    ensures !ok && !intended ==> exists y :: y in InOrder(now) && y in freed && y.key == item.key
  {
    hide MapOf, Ascending, Unfreed, Inserted;
    ReuseUnseen(was, free, reused, item);
    var f := Handed(free, reused, item);
    SoughtInOrder(was, item.key);
    InMap(InOrder(was), item.key);
    var met := Sought(was, item.key);
    if met == null {
      MapOfInserted(InOrder(was), item, InOrder(now));
      InsertKeeps(InOrder(was), InOrder(now), f, item);
      assert f + multiset{} == f;
    } else {
      SoughtIsThere(was, item.key);
      FreeOne(InOrder(was), f, item);
      if !intended {
        NowDangling(InOrder(was), f, met);
      }
    }
  }

  lemma OtherBlock(t: Tree, free: multiset<Item>, item: Item)
    ensures Renewed(t, null, item) == t && Handed(free, null, item) == free
  {
  }

  lemma SameBlock(t: Tree, free: multiset<Item>, reused: Item, item: Item)
    requires reused in free && item !in free
    ensures Renewed(t, reused, item) == Rewritten(t, reused, item)
    ensures Handed(free, reused, item) == free[reused := 0][item := free[reused]][item := free[reused] - 1]
  {
  }

  lemma FreeIsElsewhere(s: seq<Item>, freed: multiset<Item>, y: Item)
    requires Unfreed(s, freed) && y in freed
    ensures y !in s
  {
  }

  lemma ReuseUnseen(was: Tree, free: multiset<Item>, reused: Item?, item: Item)
    requires Unfreed(InOrder(was), free) && item !in free && (reused != null ==> reused in free)
    ensures Renewed(was, reused, item) == was && item !in Handed(free, reused, item)
    ensures Unfreed(InOrder(was), Handed(free, reused, item))
  {
    if reused != null {
      FreeIsElsewhere(InOrder(was), free, reused);
      RewrittenElsewhere(was, reused, item);
      var f := Handed(free, reused, item);
      assert forall x :: f[x] == if x == reused || x == item then 0 else free[x];
    }
  }

  lemma NowDangling(s: seq<Item>, freed: multiset<Item>, y: Item)
    requires y in s
    ensures !Unfreed(s, freed + multiset{y}) && y in freed + multiset{y}
  {
    var i :| 0 <= i < |s| && s[i] == y;
    assert s[i] in freed + multiset{y};
  }

  lemma InsertKeeps(was: seq<Item>, now: seq<Item>, freed: multiset<Item>, item: Item)
    requires Inserted(was, item, now) && item !in freed
    ensures Unfreed(now, freed) <==> Unfreed(was, freed)
  {
    InsertedMembers(was, now, item);
    hide Inserted;
    if Unfreed(was, freed) {
      forall i | 0 <= i < |now| ensures now[i] !in freed {
        assert now[i] in now;
      }
    }
    if Unfreed(now, freed) {
      forall i | 0 <= i < |was| ensures was[i] !in freed {
        assert was[i] in now;
      }
    }
  }

  lemma InsertedMembers(was: seq<Item>, now: seq<Item>, item: Item)
    requires Inserted(was, item, now)
    ensures forall x :: x in now <==> x in was || x == item
  {
    var i :| 0 <= i <= |was| && now == was[..i] + [item] + was[i..];
    assert was == was[..i] + was[i..];
  }

  lemma FreeOne(s: seq<Item>, freed: multiset<Item>, item: Item)
    requires item !in s && item !in freed
    ensures Unfreed(s, freed + multiset{item}) <==> Unfreed(s, freed)
  {
    var f := freed + multiset{item};
    assert forall x :: f[x] == freed[x] + if x == item then 1 else 0;
    assert forall x :: x in f <==> x in freed || x == item;
  }

  /** What set_remove does, likewise. */
  ghost predicate RemoveRan(was: Tree, free: multiset<Item>, key: Key, ok: bool, now: Tree, freed: multiset<Item>) {
    var met := Sought(was, key);
    && (ok <==> met != null)
    && (if met == null then now == was && freed == free
        else Removed(InOrder(was), met, InOrder(now)) && freed == free + multiset{met})
  }

  lemma DeleteFacts(was: Tree, free: multiset<Item>, key: Key, ok: bool, now: Tree, freed: multiset<Item>)
    requires RemoveRan(was, free, key, ok, now, freed) && Ascending(InOrder(was)) && Ascending(InOrder(now))
    ensures ok <==> key in MapOf(InOrder(was))
    ensures MapOf(InOrder(now)) == MapOf(InOrder(was)) - {key}
    ensures Unfreed(InOrder(now), freed) <==> Unfreed(InOrder(was), free)
  {
    hide MapOf, Unfreed, Ascending;
    InMap(InOrder(was), key);
    SoughtInOrder(was, key);
    var met := Sought(was, key);
    if met != null {
      SoughtIsThere(was, key);
      MapOfRemoved(InOrder(was), met, InOrder(now));
      NotThere(InOrder(now), met);
      DeleteFrees(InOrder(was), InOrder(now), free, met);
    }
  }

  lemma OnlyItem(s: seq<Item>, key: Key, item: Item?)
    requires Ascending(s) && (item == null <==> Absent(s, key)) && (item != null ==> item.key == key && item in s)
    ensures forall y | y in s && y.key == key :: y == item
  {
    forall y | y in s && y.key == key ensures y == item {
      var i :| 0 <= i < |s| && s[i] == y;
      var j :| 0 <= j < |s| && s[j] == item;
      OneIndex(s, i, j);
    }
  }

  lemma NotThere(s: seq<Item>, x: Item)
    requires Absent(s, x.key)
    ensures x !in s
  {
  }

  lemma RanIs(was: Tree, free: multiset<Item>, reused: Item?, item: Item, intended: bool, ok: bool,
              now: Tree, freed: multiset<Item>, dup: Item?)
    requires reused != null ==> reused in free
    requires var t := Renewed(was, reused, item);
      && (Sought(t, item.key) == null ==> dup == null && Inserted(InOrder(t), item, InOrder(now)))
      && (Sought(t, item.key) != null ==>
            now == t && dup == if Sought(t, item.key) == item then null else Sought(t, item.key))
    requires ok <==> dup == null
    requires freed == if ok then Handed(free, reused, item)
                      else Handed(free, reused, item) + if intended then multiset{item} else multiset{dup}
    ensures InsertRan(was, free, reused, item, intended, ok, now, freed)
  {
  }

  lemma RemovedIs(was: Tree, free: multiset<Item>, key: Key, ok: bool, now: Tree, freed: multiset<Item>)
    requires ok <==> Sought(was, key) != null
    requires !ok ==> now == was && freed == free
    requires ok ==> Removed(InOrder(was), Sought(was, key), InOrder(now)) && freed == free + multiset{Sought(was, key)}
    ensures RemoveRan(was, free, key, ok, now, freed)
  {
  }

  lemma RemovedMembers(was: seq<Item>, now: seq<Item>, found: Item)
    requires Removed(was, found, now)
    ensures found in was && forall x :: x in was <==> x in now || x == found
  {
    var i :| 0 <= i < |was| && was[i] == found && now == was[..i] + was[i + 1..];
    assert was == was[..i] + [found] + was[i + 1..];
  }

  lemma DeleteFrees(was: seq<Item>, now: seq<Item>, freed: multiset<Item>, found: Item)
    requires Removed(was, found, now) && found !in now
    ensures found in was && (Unfreed(now, freed + multiset{found}) <==> Unfreed(was, freed))
  {
    var f := freed + multiset{found};
    RemovedMembers(was, now, found);
    hide Removed;
    assert forall x :: f[x] == freed[x] + if x == found then 1 else 0;
    if Unfreed(now, f) {
      assert f[found] == 1;
      forall i | 0 <= i < |was| ensures was[i] !in freed {
        assert was[i] in was;
      }
    }
    if Unfreed(was, freed) {
      forall i | 0 <= i < |now| ensures now[i] !in f {
        assert now[i] in now;
      }
    }
  }

  lemma FindFacts(t: Tree, key: Key)
    requires Ascending(InOrder(t))
    ensures Sought(t, key) != null <==> key in MapOf(InOrder(t))
    ensures Sought(t, key) != null ==> Sought(t, key).data == MapOf(InOrder(t))[key]
  {
    var s := InOrder(t);
    InMap(s, key);
    SoughtInOrder(t, key);
    if Sought(t, key) != null {
      SoughtIsThere(t, key);
      var i :| 0 <= i < |s| && s[i] == Sought(t, key);
      EntryOf(s, i);
    }
  }

  /** struct _set, include/set.h:46-50.  freed is not part of it: it counts, for each item of
      the set, how often its block has been passed to free() and not been handed out again.
      While the tree refers to such a block, what it finds there is what free(), or whoever
      gets the block next, writes to it (Overwritten). */
  class LockedSet {
    const lock: ReentrantLock
    const tree: RbTree
    const trav: RbTraverser
    var freed: multiset<Item>

    ghost function Repr(): set<object>
      reads this, tree
    {
      {this, lock, tree, trav, trav.stack} + tree.Repr()
    }

    ghost predicate Valid()
      reads this, Repr()
    {
      lock.Valid() && tree.Valid() && trav.stack.Length == RB_MAX_HEIGHT
    }

    /** What no writing to freed blocks can upset. */
    ghost predicate Linked()
      reads this, Repr()
    {
      lock.Valid() && tree.Linked() && trav.stack.Length == RB_MAX_HEIGHT
    }

    ghost predicate Reachable(self: Tid)
      reads this, Repr()
    {
      Linked() && lock.Open(self)
    }

    /** The items in the order of the tree. */
    ghost function Items(): seq<Item>
      reads this, tree
    {
      InOrder(tree.shape)
    }

    ghost function Contents(): map<Key, nat>
      reads this, tree
    {
      MapOf(Items())
    }

    /** The tree refers to no block that is free, and none has been freed twice. */
    ghost predicate Intact()
      reads this, tree
    {
      Unfreed(Items(), freed)
    }

    /** The tree refers to an item with the key whose block is free. */
    ghost predicate Dangling(key: Key)
      reads this, tree
    {
      exists y :: y in Items() && y in freed && y.key == key
    }

    /** The calling thread may enter. */
    ghost predicate Enterable(self: Tid)
      reads this, Repr()
    {
      Valid() && lock.Open(self)
    }

    /** The stacks of the tree suffice: rb_count is below the first size that is unsafe. */
    ghost predicate Roomy()
      reads this, tree
    {
      tree.count < FIRST_UNSAFE_SIZE
    }

    /** A pass over the set is under way: the thread holds the lock and the traverser
        stands in this tree. */
    ghost predicate Passing(self: Tid)
      reads this, Repr()
    {
      && Enterable(self) && lock.Mutex().Held? && lock.Mutex().tid == self
      && trav.At(Image(tree.Repr()), tree.shape)
    }

    /** The items that the pass has yet to return. */
    ghost function Left(): seq<Item>
      reads this, tree, trav
    {
      trav.Remaining(tree.shape)
    }

    lemma Sizes()
      requires Valid()
      ensures Ascending(Items()) && |Contents()| == |Items()| == tree.count
      ensures |Contents()| < FIRST_UNSAFE_SIZE ==> Height(tree.shape) < RB_MAX_HEIGHT
      ensures forall k: Key :: k in Contents() <==> !Absent(Items(), k)
    {
      tree.Held();
      SizeIsLength(tree.shape);
      MapOfSize(Items());
      if |Contents()| < FIRST_UNSAFE_SIZE {
        SmallTreesFit(tree.shape);
      }
      forall k: Key ensures k in Contents() <==> !Absent(Items(), k) {
        InMap(Items(), k);
      }
    }

    /** set_create, common/set.c:48-62. */
    constructor ()
      ensures Valid() && Items() == [] && lock.Mutex() == Free && freed == multiset{} && fresh(Repr())
      ensures Contents() == map[] && Intact()
    {
      lock := new ReentrantLock();
      tree := new RbTree();
      trav := new RbTraverser();
      freed := multiset{};
    }

    /** A block that malloc may hand out: one of those that are free, or another one. */
    method AnyBlock() returns (reused: Item?)
      ensures reused != null ==> reused in freed
    {
      reused := null;
      var again: bool := *;
      if again && freed != multiset{} {
        reused :| reused in freed;
      }
    }

    /** Somebody writes to the block of y, which has been freed. */
    method Overwritten(y: Item, key: Key, data: nat) returns (x: Item)
      requires Linked() && y in freed
      modifies Repr()
      ensures Linked() && lock.Mutex() == old(lock.Mutex()) && Repr() == old(Repr())
      ensures fresh(x) && x.key == key && x.data == data
      ensures tree.shape == Rewritten(old(tree.shape), y, x) && tree.count == old(tree.count)
      ensures freed == old(freed)[y := 0][x := old(freed)[y]]
    {
      hide *;
      LinkedParts();
      ReprAllocated();
      x := new Item(key, data);
      tree.Rewrite(y, x);
      freed := freed[y := 0][x := freed[y]];
      LinkedParts();
    }

    /** Lines 90-92, when malloc hands out the block of reused. */
    method NewItem(key: Key, data: nat, reused: Item?) returns (item: Item)
      requires Linked() && (reused != null ==> reused in freed)
      modifies Repr()
      ensures Linked() && lock.Mutex() == old(lock.Mutex()) && Repr() == old(Repr())
      ensures fresh(item) && item.key == key && item.data == data && freed == Handed(old(freed), reused, item)
      ensures tree.shape == Renewed(old(tree.shape), reused, item) && tree.count == old(tree.count)
    {
      hide *;
      LinkedParts();
      ReprAllocated();
      if reused == null {
        item := new Item(key, data);
        OtherBlock(tree.shape, freed, item);
      } else {
        ghost var was, free := tree.shape, freed;
        item := Overwritten(reused, key, data);
        LinkedParts();
        ReprAllocated();
        freed := freed[item := freed[item] - 1];
        SameBlock(was, free, reused, item);
      }
      LinkedParts();
    }

    /** set_insert up to the unlocking, common/set.c:90-96. */
    method InsertItem(self: Tid, key: Key, data: nat, reused: Item?) returns (item: Item, dup: Item?)
      requires Reachable(self) && Roomy() && (reused != null ==> reused in freed)
      modifies Repr()
      ensures Linked() && lock.Mutex() == old(lock.Mutex()) && fresh(Repr() - old(Repr()))
      ensures fresh(item) && item.key == key && item.data == data && freed == Handed(old(freed), reused, item)
      ensures var t := Renewed(old(tree.shape), reused, item);
        && (Ascending(InOrder(t)) ==> Valid())
        && (Sought(t, key) == null ==> dup == null && Inserted(InOrder(t), item, Items()))
        && (Sought(t, key) != null ==>
              tree.shape == t && dup == if Sought(t, key) == item then null else Sought(t, key))
    {
      hide *;
      LinkedParts();
      ReprAllocated();
      ghost var before := lock.Mutex();
      OpenLock(self, before);
      RoomIs();
      item := NewItem(key, data, reused);
      LinkedParts();
      ReprAllocated();
      RoomIs();
      OpenLock(self, before);
      lock.Wait(self);
      lock.Acquired(before, self);
      LinkedParts();
      ReachFits(key);
      dup := tree.Insert(item);
      ReprAllocated();
      lock.Post(self);
      LinkedParts();
    }

    /** set_insert, common/set.c:84-108, when malloc hands out the block of reused.  As
        written, line 100 frees what rb_insert returned, and that is the item still in the
        tree; it is meant to free the new item. */
    method Insert(self: Tid, key: Key, data: nat, reused: Item?, intended: bool) returns (ok: bool, ghost item: Item)
      requires Reachable(self) && Roomy() && (reused != null ==> reused in freed)
      modifies Repr()
      ensures Linked() && lock.Mutex() == old(lock.Mutex()) && fresh(Repr() - old(Repr()))
      ensures fresh(item) && item.key == key && item.data == data
      ensures InsertRan(old(tree.shape), old(freed), reused, item, intended, ok, tree.shape, freed)
      ensures Ascending(InOrder(Renewed(old(tree.shape), reused, item))) ==> Valid()
      ensures old(Valid() && Intact()) ==>
        && Valid() && (ok <==> key !in old(Contents())) && (Intact() <==> intended || ok)
        && (ok ==> Contents() == old(Contents())[key := data])
        && (!ok ==> tree.shape == old(tree.shape))
        && (!ok && !intended ==> Dangling(key))
    {
      hide *;
      LinkedParts();
      ReprAllocated();
      ghost var was, free := tree.shape, freed;
      ItemsAllocated(was);
      ghost var fine := Valid() && Intact();
      IntactIs();
      var i, dup := InsertItem(self, key, data, reused);
      item := i;
      ok := true;
      LinkedParts();
      ReprAllocated();
      if dup != null {
        freed := freed + if intended then multiset{i} else multiset{dup};
        ok := false;
      }
      LinkedParts();
      IntactIs();
      RanIs(was, free, reused, i, intended, ok, tree.shape, freed, dup);
      if fine {
        ReuseUnseen(was, free, reused, i);
        InsertFacts(was, free, reused, i, intended, ok, tree.shape, freed);
      }
    }

    /** set_insert on an intact set, whichever block malloc hands out. */
    method InsertAnywhere(self: Tid, key: Key, data: nat, intended: bool) returns (ok: bool)
      requires Enterable(self) && Intact() && Roomy()
      modifies Repr()
      ensures Valid() && lock.Mutex() == old(lock.Mutex()) && fresh(Repr() - old(Repr()))
      ensures ok <==> key !in old(Contents())
      ensures Intact() <==> intended || ok
      ensures ok || intended ==> Contents() == if ok then old(Contents())[key := data] else old(Contents())
      ensures !ok ==> tree.shape == old(tree.shape)
      ensures !Intact() ==> Dangling(key)
    {
      hide *;
      LinkedParts();
      ReprAllocated();
      IntactIs();
      ghost var before := lock.Mutex();
      OpenLock(self, before);
      var reused := AnyBlock();
      LinkedParts();
      IntactIs();
      OpenLock(self, before);
      label inserting:
      var done, item := Insert(self, key, data, reused, intended);
      assert fresh@inserting(Repr() - old@inserting(Repr()));
      forall o | o in Repr() && o !in old(Repr()) ensures fresh(o) {
        assert fresh@inserting(o);
        assert old(allocated(o)) ==> old@inserting(allocated(o));
      }
      LinkedParts();
      ok := done;
    }

    /** set_remove, common/set.c:110-128. */
    method Remove(self: Tid, key: Key) returns (ok: bool)
      requires Reachable(self) && Roomy()
      modifies Repr()
      ensures Linked() && lock.Mutex() == old(lock.Mutex()) && Repr() <= old(Repr())
      ensures RemoveRan(old(tree.shape), old(freed), key, ok, tree.shape, freed)
      ensures old(Valid() && Intact()) ==>
        Valid() && Intact() && (ok <==> key in old(Contents())) && Contents() == old(Contents()) - {key}
    {
      hide *;
      LinkedParts();
      ReprAllocated();
      ghost var was, free := tree.shape, freed;
      ghost var fine := Valid() && Intact();
      IntactIs();
      var stub := new Item(key, NULL);
      OpenLock(self, lock.Mutex());
      ghost var before := lock.Mutex();
      lock.Wait(self);
      lock.Acquired(before, self);
      LinkedParts();
      ReachFits(key);
      var item := tree.Delete(stub);
      ReprAllocated();
      lock.Post(self);
      ok := false;
      if item != null {
        freed := freed + multiset{item};
        ok := true;
      }
      LinkedParts();
      IntactIs();
      RemovedIs(was, free, key, ok, tree.shape, freed);
      if fine {
        DeleteFacts(was, free, key, ok, tree.shape, freed);
      }
    }

    /** set_find, common/set.c:130-149. */
    method Find(self: Tid, key: Key) returns (ok: bool, result: nat)
      requires Reachable(self)
      modifies lock
      ensures Reachable(self) && lock.Mutex() == old(lock.Mutex()) && Repr() == old(Repr())
      ensures ok <==> Sought(tree.shape, key) != null
      ensures ok ==> result == Sought(tree.shape, key).data
      ensures Valid() && Intact() ==> (ok <==> key in Contents()) && (ok ==> result == Contents()[key])
    {
      hide *;
      LinkedParts();
      ReprAllocated();
      IntactIs();
      var stub := new Item(key, NULL);
      OpenLock(self, lock.Mutex());
      ghost var before := lock.Mutex();
      lock.Wait(self);
      lock.Acquired(before, self);
      LinkedParts();
      var item := tree.Find(stub);
      lock.Post(self);
      OpenLock(self, before);
      LinkedParts();
      IntactIs();
      ok, result := false, NULL;
      if Ascending(Items()) {
        FindFacts(tree.shape, key);
      }
      if item != null {
        ok, result := true, item.data;
      }
    }

    /** set_count, include/set.h:79-83; it takes no lock. */
    method Count() returns (n: int)
      requires Valid()
      ensures n == |Contents()| && Valid()
    {
      Sizes();
      ghost var S, m := tree.Repr(), Image(tree.Repr());
      n := tree.Count();
      assert tree.Repr() == S && Image(S) == m;
    }

    // ---------- The pass ----------

    /** set_start, include/set.h:64-69. */
    method Start(self: Tid)
      requires Enterable(self)
      modifies lock, trav
      ensures Passing(self) && Acquire(old(lock.Mutex()), self, lock.Mutex()) && Left() == Items()
    {
      hide Rep, RedBlack, Image, InOrder, MapOf, Size, Ascending, Absent, Inserted, Removed, Unfreed, Height, Nodes;
      Enter(self);
      ghost var S, m := tree.Repr(), Image(tree.Repr());
      lock.Wait(self);
      lock.Acquired(old(lock.Mutex()), self);
      assert tree.Repr() == S && Image(S) == m;
      trav.Init(Image(tree.Repr()), tree.shape);
      Exit();
    }

    /** set_next, common/set.c:151-164. */
    method Next(self: Tid) returns (data: nat)
      requires Passing(self) && Roomy() && Intact()
      modifies lock, trav, trav.stack
      ensures Passing(self) && lock.Mutex() == old(lock.Mutex())
      ensures old(Left()) == [] ==> data == NULL && Left() == Items()
      ensures old(Left()) != [] ==> data == old(Left())[0].data && Left() == old(Left())[1..]
    {
      hide Rep, RedBlack, Image, InOrder, MapOf, Size, Ascending, Absent, Inserted, Removed, Unfreed, Height, Nodes;
      Enter(self);
      ghost var S, m := tree.Repr(), Image(tree.Repr());
      lock.Wait(self);
      lock.Acquired(old(lock.Mutex()), self);
      assert tree.Repr() == S && Image(S) == m;
      Standing();
      var item := trav.Next(tree.root, tree.Repr(), tree.shape);
      lock.Post(self);
      assert tree.Repr() == S && Image(S) == m;
      Exit();
      if item == null {
        return NULL;
      }
      data := item.data;
    }

    /** set_finish, include/set.h:71-75. */
    method Finish(self: Tid)
      requires Passing(self)
      modifies lock
      ensures Valid() && Release(old(lock.Mutex()), self, lock.Mutex())
    {
      hide Rep, RedBlack, Image, InOrder, MapOf, Size, Ascending, Absent, Inserted, Removed, Unfreed, Height, Nodes;
      Enter(self);
      ghost var S, m := tree.Repr(), Image(tree.Repr());
      lock.Post(self);
      assert tree.Repr() == S && Image(S) == m;
      Exit();
    }

    /** The mutex and the contents decide whether a thread may use the set. */
    lemma MayEnter(self: Tid)
      requires Valid()
      ensures lock.Valid()
      ensures Enterable(self) <==> (lock.Mutex().Held? ==> lock.Mutex().tid == self)
      ensures Roomy() <==> |Contents()| < FIRST_UNSAFE_SIZE
    {
      Sizes();
    }

    lemma RoomFor(m: map<Key, nat>)
      requires Valid() && Contents() == m
      ensures Roomy() <==> |m| < FIRST_UNSAFE_SIZE
    {
      Sizes();
    }

    lemma EnterableIsValid(self: Tid)
      requires Enterable(self)
      ensures Valid()
    {
    }

    lemma ReprAllocated()
      ensures {this, lock, tree, trav, trav.stack} <= Repr()
      ensures forall o | o in Repr() :: allocated(o)
    {
      RbTree.NodesAllocated(tree.shape);
    }

    lemma LinkedParts()
      ensures Linked() <==> lock.Valid() && tree.Linked() && trav.stack.Length == RB_MAX_HEIGHT
      ensures Valid() <==> Linked() && Ascending(Items())
      ensures tree.Valid() <==> tree.Linked() && Ascending(Items())
      ensures forall t: Tid :: (Reachable(t) ==> Linked()) && (Enterable(t) ==> Valid())
      ensures lock.Valid() ==>
        forall t: Tid :: (Reachable(t) <==> Linked() && lock.Open(t)) && (Enterable(t) <==> Valid() && lock.Open(t))
      ensures Items() == InOrder(tree.shape) && Contents() == MapOf(Items())
      ensures Repr() == {this, lock, tree, trav, trav.stack} + tree.Repr()
    {
    }

    lemma OpenLock(self: Tid, m: Mutex)
      requires lock.Valid() && lock.Mutex() == m
      ensures lock.Open(self) <==> (m.Held? ==> m.tid == self)
      ensures m.Held? ==> m.times > 0
    {
    }

    /** The item with a key whose block is free, as rb_find points to it. */
    method ItemWith(self: Tid, key: Key) returns (y: Item)
      requires Enterable(self) && Dangling(key)
      ensures y in Items() && y in freed && y.key == key && Enterable(self)
    {
      hide *;
      LinkedParts();
      ReprAllocated();
      IntactIs();
      ghost var before := lock.Mutex();
      OpenLock(self, before);
      var stub := new Item(key, NULL);
      LinkedParts();
      OpenLock(self, before);
      IntactIs();
      var item := tree.Find(stub);
      OnlyItem(Items(), key, item);
      y := item;
    }

    lemma RoomIs()
      ensures Roomy() <==> tree.count < FIRST_UNSAFE_SIZE
    {
    }

    lemma HeightFits()
      requires tree.Linked() && Roomy()
      ensures Height(tree.shape) < RB_MAX_HEIGHT
    {
      SmallTreesFit(tree.shape);
    }

    lemma ReachFits(key: Key)
      requires tree.Linked() && Roomy()
      ensures Pointer(tree.shape, key) <= Reach(tree.shape, Black, key) <= RB_MAX_HEIGHT
    {
      HeightFits();
      ReachBelowHeight(tree.shape, Black, key);
    }

    lemma IntactIs()
      ensures Intact() <==> Unfreed(Items(), freed)
      ensures forall key: Key :: Dangling(key) <==> exists y :: y in Items() && y in freed && y.key == key
    {
    }

    lemma LockInRepr(self: Tid)
      requires Enterable(self)
      ensures lock in Repr() && Valid() && lock.Valid() && (lock.Mutex().Held? ==> lock.Mutex().tid == self)
    {
    }

    lemma PassingLock(self: Tid)
      requires Passing(self)
      ensures lock.Valid() && lock.Mutex().Held? && lock.Mutex().tid == self
    {
    }

    lemma LockValid()
      requires Valid()
      ensures lock.Valid()
    {
    }

    lemma Standing()
      requires tree.Valid()
      ensures RbNodes.Holds(Image(tree.Repr()), tree.shape) && tree.root in tree.Repr() && tree.root.link.zero == Ref(tree.shape)
    {
      assert tree.root in Image(tree.Repr());
    }

    lemma Enter(self: Tid)
      requires Enterable(self)
      ensures lock.Valid() && lock.Open(self) && (lock.Mutex().Held? ==> lock.Mutex().times > 0)
      ensures tree.Valid() && trav.stack.Length == RB_MAX_HEIGHT
      ensures Roomy() ==> Height(tree.shape) < RB_MAX_HEIGHT
      ensures Items() == InOrder(tree.shape) && Contents() == MapOf(Items()) && Ascending(Items())
    {
      Sizes();
    }

    lemma Exit()
      requires lock.Valid() && tree.Valid() && trav.stack.Length == RB_MAX_HEIGHT
      ensures Valid() && Items() == InOrder(tree.shape) && Contents() == MapOf(Items()) && Ascending(Items())
    {
      Sizes();
    }
  }

  // ---------- Whole histories ----------

  datatype Op =
    | Insert(key: Key, data: nat)
    | Remove(key: Key)
    | Find(key: Key)
    | Count

  datatype Answer = Flag(ok: bool) | Lookup(ok: bool, result: nat) | Number(n: int)

  /** A finite map under the same operations. */
  function After(m: map<Key, nat>, op: Op): map<Key, nat> {
    match op
    case Insert(k, d) => if k in m then m else m[k := d]
    case Remove(k) => m - {k}
    case Find(_) | Count => m
  }

  predicate Answers(m: map<Key, nat>, op: Op, a: Answer) {
    match op
    case Insert(k, _) => a == Flag(k !in m)
    case Remove(k) => a == Flag(k in m)
    case Find(k) => if k in m then a == Lookup(true, m[k]) else a.Lookup? && !a.ok
    case Count => a == Number(|m|)
  }

  function AfterAll(m: map<Key, nat>, ops: seq<Op>): map<Key, nat> {
    if ops == [] then m else After(AfterAll(m, ops[..|ops| - 1]), ops[|ops| - 1])
  }

  /** The set is small enough for the stacks of the tree whenever they are used. */
  ghost predicate Fits(m: map<Key, nat>, ops: seq<Op>) {
    forall i | 0 <= i < |ops| && (ops[i].Insert? || ops[i].Remove?) :: |AfterAll(m, ops[..i])| < FIRST_UNSAFE_SIZE
  }

  /** The operation inserts under a key that is present. */
  predicate Repeats(m: map<Key, nat>, op: Op) {
    op.Insert? && op.key in m
  }

  ghost predicate NoRepeats(m: map<Key, nat>, ops: seq<Op>) {
    forall i | 0 <= i < |ops| :: !Repeats(AfterAll(m, ops[..i]), ops[i])
  }

  lemma OneStep(m: map<Key, nat>, op: Op)
    ensures match op
            case Insert(k, d) =>
              Answers(m, op, Flag(k !in m)) && (k !in m ==> After(m, op) == m[k := d]) && (k in m ==> After(m, op) == m)
              && (Repeats(m, op) <==> k in m)
            case Remove(k) => Answers(m, op, Flag(k in m)) && After(m, op) == m - {k} && !Repeats(m, op)
            case Find(k) => After(m, op) == m && !Repeats(m, op) && forall a: Answer :: Answers(m, op, a) <==>
                              a.Lookup? && (a.ok <==> k in m) && (k in m ==> a.result == m[k])
            case Count => Answers(m, op, Number(|m|)) && After(m, op) == m && !Repeats(m, op)
  {
  }

  /** One operation, as a client would call it, with set_insert as written or as meant.
      Whichever free blocks malloc hands out, the answer is that of a map; an insertion
      under a present key, as written, leaves the tree with a block that is free. */
  method Perform(s: LockedSet, self: Tid, op: Op, intended: bool) returns (a: Answer)
    requires s.Enterable(self) && s.lock.Valid() && s.Intact() && (op.Insert? || op.Remove? ==> s.Roomy())
    modifies s.Repr()
    ensures s.Enterable(self) && fresh(s.Repr() - old(s.Repr())) && Answers(old(s.Contents()), op, a)
    ensures s.lock.Valid() && s.lock.Mutex() == old(s.lock.Mutex())
    ensures s.Intact() <==> intended || !Repeats(old(s.Contents()), op)
    ensures s.Intact() ==> s.Contents() == After(old(s.Contents()), op)
    ensures !s.Intact() ==> op.Insert? && s.tree.shape == old(s.tree.shape) && s.Dangling(op.key)
    ensures op.Insert? ==> a.Flag? && (a.ok <==> !Repeats(old(s.Contents()), op))
  {
    hide *;
    OneStep(s.Contents(), op);
    s.LinkedParts();
    s.ReprAllocated();
    s.IntactIs();
    ghost var before := s.lock.Mutex();
    s.OpenLock(self, before);
    match op {
    case Insert(key, data) =>
      var ok := s.InsertAnywhere(self, key, data, intended);
      a := Flag(ok);
    case Remove(key) =>
      var ok := s.Remove(self, key);
      a := Flag(ok);
    case Find(key) =>
      var ok, result := s.Find(self, key);
      a := Lookup(ok, result);
    case Count =>
      var n := s.Count();
      a := Number(n);
    }
    s.LinkedParts();
    s.IntactIs();
    s.OpenLock(self, before);
  }

  lemma NoSteps(m: map<Key, nat>, ops: seq<Op>)
    ensures AfterAll(m, ops[..0]) == m && NoRepeats(m, ops[..0])
  {
  }

  lemma NextStep(s: LockedSet, m: map<Key, nat>, ops: seq<Op>, i: nat)
    requires Fits(m, ops) && i < |ops| && s.Valid() && s.Contents() == AfterAll(m, ops[..i])
    ensures ops[i].Insert? || ops[i].Remove? ==> s.Roomy()
    ensures AfterAll(m, ops[..i + 1]) == After(AfterAll(m, ops[..i]), ops[i])
    ensures NoRepeats(m, ops[..i + 1]) <==> NoRepeats(m, ops[..i]) && !Repeats(AfterAll(m, ops[..i]), ops[i])
  {
    hide MapOf, Height, Rep, RedBlack, Ascending, NoRepeats, Repeats, After;
    assert ops[..i + 1][..i] == ops[..i];
    OneMore(m, ops[..i + 1], ops[..i]);
    s.RoomFor(s.Contents());
  }

  lemma RepeatSpoils(m: map<Key, nat>, ops: seq<Op>, n: nat)
    requires n <= |ops| && !NoRepeats(m, ops[..n])
    ensures !NoRepeats(m, ops)
  {
    var i :| 0 <= i < n && Repeats(AfterAll(m, ops[..n][..i]), ops[..n][i]);
    assert ops[..n][..i] == ops[..i] && ops[..n][i] == ops[i];
  }

  lemma OneMore(m: map<Key, nat>, next: seq<Op>, now: seq<Op>)
    requires next != [] && now == next[..|next| - 1]
    ensures NoRepeats(m, next) <==> NoRepeats(m, now) && !Repeats(AfterAll(m, now), next[|next| - 1])
  {
    hide AfterAll, Repeats;
    var i := |now|;
    assert forall j | 0 <= j <= i :: next[..j] == now[..j];
    assert now[..i] == now;
    if NoRepeats(m, next) {
      assert !Repeats(AfterAll(m, next[..i]), next[i]);
      forall j | 0 <= j < i ensures !Repeats(AfterAll(m, now[..j]), now[j]) {
        assert !Repeats(AfterAll(m, next[..j]), next[j]);
      }
    }
    if NoRepeats(m, now) && !Repeats(AfterAll(m, now), next[i]) {
      forall j | 0 <= j <= i ensures !Repeats(AfterAll(m, next[..j]), next[j]) {
        if j < i {
          assert !Repeats(AfterAll(m, now[..j]), now[j]);
        }
      }
    }
  }

  /** Over every history the set answers as a finite map from keys to data, up to and with
      the first insertion under a present key, and with set_insert as meant to the end.  As
      written, nothing is known beyond that insertion; Aftermath says why. */
  method Play(s: LockedSet, self: Tid, ops: seq<Op>, intended: bool) returns (answers: seq<Answer>)
    requires s.Enterable(self) && s.Intact() && Fits(s.Contents(), ops)
    modifies s.Repr()
    ensures s.Enterable(self) && |answers| <= |ops| && fresh(s.Repr() - old(s.Repr()))
    ensures forall i | 0 <= i < |answers| :: Answers(AfterAll(old(s.Contents()), ops[..i]), ops[i], answers[i])
    ensures s.Intact() <==> intended || NoRepeats(old(s.Contents()), ops)
    ensures s.Intact() ==> |answers| == |ops| && s.Contents() == AfterAll(old(s.Contents()), ops)
    ensures !s.Intact() ==> Spoiled(s, old(s.Contents()), ops, |answers|)
  {
    hide *;
    answers := [];
    ghost var m := s.Contents();
    NoSteps(m, ops);
    for i := 0 to |ops|
      invariant s.Enterable(self) && s.Intact() && |answers| == i
      invariant intended || NoRepeats(m, ops[..i])
      invariant fresh(s.Repr() - old(s.Repr()))
      invariant s.Contents() == AfterAll(m, ops[..i])
      invariant forall j | 0 <= j < i :: Answers(AfterAll(m, ops[..j]), ops[j], answers[j])
    {
      s.EnterableIsValid(self);
      NextStep(s, m, ops, i);
      s.LinkedParts();
      s.LockValid();
      label before:
      var a := Perform(s, self, ops[i], intended);
      assert fresh@before(s.Repr() - old@before(s.Repr()));
      forall o | o in s.Repr() && o !in old(s.Repr()) ensures fresh(o) {
        if o !in old@before(s.Repr()) {
          assert fresh@before(o);
          assert old(allocated(o)) ==> old@before(allocated(o));
        }
      }
      answers := answers + [a];
      if !intended && ops[i].Insert? && a == Flag(false) {
        RepeatSpoils(m, ops, i + 1);
        s.LinkedParts();
        IsSpoiled(s, m, ops, i + 1);
        return;
      }
    }
    assert ops[..|ops|] == ops;
  }

  /** Operation n - 1 was the first to insert under a present key.  The links are as they
      were, and the tree refers to the block that this has freed; if nobody has written to
      it yet, it reads as before. */
  ghost predicate Spoiled(s: LockedSet, m: map<Key, nat>, ops: seq<Op>, n: nat)
    reads s, s.tree
  {
    && 0 < n <= |ops| && NoRepeats(m, ops[..n - 1]) && Repeats(AfterAll(m, ops[..n - 1]), ops[n - 1])
    && s.Dangling(ops[n - 1].key) && s.Contents() == AfterAll(m, ops[..n])
  }

  lemma IsSpoiled(s: LockedSet, m: map<Key, nat>, ops: seq<Op>, n: nat)
    requires 0 < n <= |ops| && NoRepeats(m, ops[..n - 1]) && Repeats(AfterAll(m, ops[..n - 1]), ops[n - 1])
    requires s.Dangling(ops[n - 1].key) && s.Contents() == AfterAll(m, ops[..n - 1])
    ensures Spoiled(s, m, ops, n)
  {
    assert ops[..n][..n - 1] == ops[..n - 1];
  }

  // ---------- After the first repeat ----------

  /** set_find for the key of an item of the tree whose block is free, once somebody has
      written to the block: the answer is the one that was due if and only if the block
      holds the same key and datum again. */
  method Misled(s: LockedSet, self: Tid, y: Item, key: Key, data: nat) returns (ok: bool, result: nat)
    requires s.Enterable(self) && y in s.Items() && y in s.freed
    modifies s.Repr()
    ensures s.Reachable(self) && y.key in old(s.Contents())
    ensures ok <==> key == y.key
    ensures Answers(old(s.Contents()), Find(y.key), Lookup(ok, result)) <==> key == y.key && data == y.data
  {
    hide *;
    s.LinkedParts();
    s.ReprAllocated();
    ghost var t, before := s.tree.shape, s.lock.Mutex();
    s.OpenLock(self, before);
    EntryThere(InOrder(t), y);
    var x := s.Overwritten(y, key, data);
    s.LinkedParts();
    s.OpenLock(self, before);
    SoughtRewritten(t, y, x);
    ok, result := s.Find(self, y.key);
    OneStep(MapOf(InOrder(t)), Find(y.key));
  }

  lemma EntryThere(s: seq<Item>, y: Item)
    requires Ascending(s) && y in s
    ensures y.key in MapOf(s) && MapOf(s)[y.key] == y.data
  {
    var i :| 0 <= i < |s| && s[i] == y;
    EntryOf(s, i);
  }

  /** set_insert under that key, which is in use: it succeeds if and only if the block holds
      another key. */
  method TakenAgain(s: LockedSet, self: Tid, y: Item, key: Key, data: nat) returns (ok: bool)
    requires s.Enterable(self) && s.Roomy() && y in s.Items() && y in s.freed
    modifies s.Repr()
    ensures s.Reachable(self) && y.key in old(s.Contents())
    ensures ok <==> key != y.key
  {
    hide *;
    s.LinkedParts();
    s.ReprAllocated();
    ghost var t, before := s.tree.shape, s.lock.Mutex();
    s.OpenLock(self, before);
    EntryThere(InOrder(t), y);
    s.RoomIs();
    var x := s.Overwritten(y, key, data);
    s.RoomIs();
    s.LinkedParts();
    s.OpenLock(self, before);
    SoughtRewritten(t, y, x);
    ghost var u, free := s.tree.shape, s.freed;
    var ok', item := s.Insert(self, y.key, NULL, null, false);
    InsertedAgain(u, free, x, item, ok', s.tree.shape, s.freed);
    ok := ok';
    s.LinkedParts();
    s.OpenLock(self, before);
  }

  lemma InsertedAgain(t: Tree, free: multiset<Item>, x: Item, item: Item, ok: bool, now: Tree, freed: multiset<Item>)
    requires InsertRan(t, free, null, item, false, ok, now, freed) && item != x
    requires Sought(t, item.key) == null || Sought(t, item.key) == x
    ensures ok <==> Sought(t, item.key) == null
  {
  }

  /** Every history with an insertion under a present key, as written, followed by a
      set_find for that key, when the block that was freed holds key and data in the
      meantime: the answer is certain to be right only if nobody writes to the block, or
      writes what it held. */
  method Aftermath(s: LockedSet, self: Tid, ops: seq<Op>, key: Key, data: nat)
    returns (answers: seq<Answer>, a: Answer, ghost m: map<Key, nat>)
    requires s.Enterable(self) && s.Intact() && Fits(s.Contents(), ops) && !NoRepeats(s.Contents(), ops)
    modifies s.Repr()
    ensures 0 < |answers| <= |ops| && ops[|answers| - 1].Insert?
    ensures m == AfterAll(old(s.Contents()), ops[..|answers|]) && ops[|answers| - 1].key in m
    ensures var k := ops[|answers| - 1].key;
      Answers(m, Find(k), a) <==> key == k && data == m[k]
  {
    hide *;
    m := s.Contents();
    ghost var m0 := m;
    answers := Play(s, self, ops, false);
    ghost var n := |answers|;
    SpoiledFacts(s, m0, ops, n);
    var k := ops[|answers| - 1].key;
    m := AfterAll(m0, ops[..n]);
    s.LinkedParts();
    var y := s.ItemWith(self, k);
    EntryThere(s.Items(), y);
    var ok, result := Misled(s, self, y, key, data);
    a := Lookup(ok, result);
  }

  lemma SpoiledFacts(s: LockedSet, m: map<Key, nat>, ops: seq<Op>, n: nat)
    requires Spoiled(s, m, ops, n)
    ensures 0 < n <= |ops| && ops[n - 1].Insert? && s.Dangling(ops[n - 1].key) && s.Contents() == AfterAll(m, ops[..n])
  {
  }

  // ---------- A full pass ----------

  /** The keys in ascending order: every key of m once, and its datum beside it. */
  ghost predicate Listing(m: map<Key, nat>, keys: seq<Key>, data: seq<nat>) {
    && |keys| == |data| == |m|
    && (forall i, j | 0 <= i < j < |keys| :: keys[i] < keys[j])
    && forall i | 0 <= i < |keys| :: keys[i] in m && m[keys[i]] == data[i]
  }

  function Keys(s: seq<Item>): (k: seq<Key>)
    ensures |k| == |s| && forall i | 0 <= i < |s| :: k[i] == s[i].key
  {
    if s == [] then [] else Keys(s[..|s| - 1]) + [s[|s| - 1].key]
  }

  lemma ItemsList(s: seq<Item>)
    requires Ascending(s)
    ensures Listing(MapOf(s), Keys(s), Datas(s))
  {
    MapOfSize(s);
    forall i | 0 <= i < |s| ensures s[i].key in MapOf(s) && MapOf(s)[s[i].key] == s[i].data {
      EntryOf(s, i);
    }
  }

  /** A listing is a listing of every key: m has no other. */
  lemma ListingIsComplete(m: map<Key, nat>, keys: seq<Key>, data: seq<nat>, k: Key)
    requires Listing(m, keys, data) && k in m
    ensures k in keys
  {
    var K := set i | 0 <= i < |keys| :: keys[i];
    KeysCount(keys, K);
    assert K <= m.Keys && |m.Keys - K| == |m.Keys| - |K| == 0;
    assert m.Keys - K == {};
  }

  lemma {:induction false} KeysCount(keys: seq<Key>, K: set<Key>)
    requires forall i, j | 0 <= i < j < |keys| :: keys[i] < keys[j]
    requires forall k: Key :: k in K <==> k in keys
    ensures |K| == |keys|
  {
    if keys == [] {
      assert K == {};
    } else {
      var last := keys[|keys| - 1];
      KeysCount(keys[..|keys| - 1], K - {last});
      assert K == K - {last} + {last};
    }
  }

  /** The loop that clients of the set write: start, next until NULL, finish.  It sees the
      contents in ascending order of the keys; only a NULL among the data, which reads like
      the end, cuts it short. */
  method Pass(s: LockedSet, self: Tid) returns (data: seq<nat>)
    requires s.Enterable(self) && s.Roomy() && s.Intact()
    modifies s.lock, s.trav, s.trav.stack
    ensures s.Valid() && s.lock.Mutex() == old(s.lock.Mutex())
    ensures exists keys, all ::
      Listing(s.Contents(), keys, all) && data <= all && NULL !in data && (|data| < |all| ==> all[|data|] == NULL)
  {
    hide *;
    s.Enter(self);
    ghost var before, items := s.lock.Mutex(), s.Items();
    ItemsList(items);
    s.Start(self);
    s.PassingLock(self);
    s.lock.Acquired(before, self);
    ghost var held := s.lock.Mutex();
    data := [];
    var x := s.Next(self);
    s.PassingLock(self);
    while x != NULL
      invariant s.Passing(self) && s.Roomy() && s.Intact() && s.lock.Valid() && s.lock.Mutex() == held
      invariant |data| <= |items| && data == Datas(items)[..|data|]
      invariant x != NULL ==> |data| < |items| && x == items[|data|].data && s.Left() == items[|data| + 1..]
      invariant x == NULL && |data| < |items| ==> items[|data|].data == NULL
      invariant NULL !in data
      decreases |items| - |data|
    {
      data := data + [x];
      x := s.Next(self);
      s.PassingLock(self);
    }
    s.Finish(self);
    s.LockValid();
    assert data <= Datas(items) && (|data| < |items| ==> Datas(items)[|data|] == NULL);
    assert Listing(s.Contents(), Keys(items), Datas(items));
  }
}
