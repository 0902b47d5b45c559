/** id_create and id_release, agent/src/id.c:29-52, over the locked set of IDs in use. */
module Ids {
  import opened Lock
  import opened RbHeight
  import opened RbNodes
  import opened RbReplace
  import opened Set

  /** Of the numbers that rand() yields, draw n is the first that is neither zero nor taken. */
  ghost predicate FirstDraw(taken: set<Key>, draws: nat -> Key, n: nat) {
    draws(n) != 0 && draws(n) !in taken && forall i | 0 <= i < n :: draws(i) == 0 || draws(i) in taken
  }

  /** No number drawn before it was a taken ID. */
  ghost predicate NoCollision(draws: nat -> Key, n: nat) {
    forall i | 0 <= i < n :: draws(i) == 0
  }

  lemma Drawn(taken: set<Key>, draws: nat -> Key, n: nat, i: nat)
    requires FirstDraw(taken, draws, n) && i <= n
    ensures i == n ==> draws(i) != 0 && draws(i) !in taken
    ensures i < n ==> draws(i) == 0 || draws(i) in taken
  {
  }

  lemma CollisionStep(draws: nat -> Key, i: nat)
    ensures NoCollision(draws, 0)
    ensures NoCollision(draws, i + 1) <==> NoCollision(draws, i) && draws(i) == 0
  {
    if NoCollision(draws, i) && draws(i) == 0 {
      forall j | 0 <= j < i + 1 ensures draws(j) == 0 {
      }
    }
  }

  /** id_create, lines 29-46, with set_insert as written or as it is meant.  set_insert is
      the test whether a number is in use.  As written, the first draw that is in use frees
      the item of the pool that says so: from there on nothing is certain, and id is that
      draw. */
  method IdCreate(pool: LockedSet, self: Tid, draws: nat -> Key, ghost n: nat, intended: bool) returns (id: Key, certain: bool)
    requires pool.Enterable(self) && pool.Intact() && pool.Roomy() && FirstDraw(pool.Contents().Keys, draws, n)
    modifies pool.Repr()
    ensures pool.Valid() && pool.lock.Mutex() == old(pool.lock.Mutex()) && fresh(pool.Repr() - old(pool.Repr()))
    ensures certain <==> intended || NoCollision(draws, n)
    ensures certain ==>
      && id == draws(n) && id != 0 && id !in old(pool.Contents())
      && pool.Contents() == old(pool.Contents())[id := NULL] && pool.Intact()
    ensures !certain ==>
      && id in old(pool.Contents()) && pool.Dangling(id) && !pool.Intact()
      && pool.tree.shape == old(pool.tree.shape)
  {
    hide *;
    pool.EnterableIsValid(self);
    pool.MayEnter(self);
    var i: nat := 0;
    ghost var taken, mutex, shape := pool.Contents(), pool.lock.Mutex(), pool.tree.shape;
    Drawn(taken.Keys, draws, n, n);
    CollisionStep(draws, 0);
    while true
      invariant i <= n && pool.Enterable(self) && pool.Intact() && pool.Roomy()
      invariant pool.Contents() == taken && (intended || pool.tree.shape == shape)
      invariant pool.lock.Valid() && pool.lock.Mutex() == mutex && fresh(pool.Repr() - old(pool.Repr()))
      invariant intended || NoCollision(draws, i)
      decreases n - i
    {
      Drawn(taken.Keys, draws, n, i);
      CollisionStep(draws, i);
      if draws(i) != 0 {
        label before:
        var ok := pool.InsertAnywhere(self, draws(i), NULL, intended);
        pool.MayEnter(self);
        assert fresh@before(pool.Repr() - old@before(pool.Repr()));
        forall o | o in pool.Repr() && o !in old(pool.Repr()) ensures fresh(o) {
          if o !in old@before(pool.Repr()) {
            assert fresh@before(o);
            assert old(allocated(o)) ==> old@before(allocated(o));
          }
        }
        if ok {
          return draws(i), true;
        }
        if !intended {
          Collided(draws, n, i);
          return draws(i), false;
        }
      }
      i := i + 1;
    }
  }

  lemma Collided(draws: nat -> Key, n: nat, i: nat)
    requires i < n && draws(i) != 0
    ensures !NoCollision(draws, n)
  {
  }

  /** After a draw that was in use, as written: when the block that was freed holds key, id_create
      accepts the number in use if it is drawn again if and only if key is another one.  So an
      ID is certain not to be handed out twice if and only if no draw collides. */
  method DrawnTwice(pool: LockedSet, self: Tid, draws: nat -> Key, ghost n: nat, key: Key, data: nat)
    returns (id: Key, accepted: bool)
    requires pool.Enterable(self) && pool.Intact() && pool.Roomy() && FirstDraw(pool.Contents().Keys, draws, n)
    requires !NoCollision(draws, n)
    modifies pool.Repr()
    ensures id in old(pool.Contents())
    ensures accepted <==> key != id
  {
    hide *;
    pool.EnterableIsValid(self);
    pool.MayEnter(self);
    ghost var size := |pool.Contents()|;
    pool.LinkedParts();
    var certain;
    id, certain := IdCreate(pool, self, draws, n, false);
    pool.MayEnter(self);
    pool.LinkedParts();
    var y := pool.ItemWith(self, id);
    accepted := TakenAgain(pool, self, y, key, data);
  }

  /** A draw that collides.  7 is in use; 7 and then 8 are drawn, and malloc hands out for 8
      the block that was freed for 7.  Then 8 is accepted, and the pool holds 8 alone: 7 is in
      use and not in it, and is accepted when it is drawn again. */
  method CollidingDraw() returns (again: bool, eight: bool, ghost contents: map<Key, nat>, twice: bool)
    ensures !again && eight && contents == map[8 := NULL] && twice
  {
    hide *;
    ghost var c, d: Item;
    var pool: LockedSet, y: Item;
    pool, again, y := Collide();
    pool.LinkedParts();
    pool.OpenLock(1, Free);
    Small(pool);
    ghost var t := pool.tree.shape;
    eight, c := pool.Insert(1, 8, NULL, y, false);
    ghost var u := pool.tree.shape;
    Displaced(t, y, c, eight, u, pool.freed);
    pool.LinkedParts();
    pool.OpenLock(1, Free);
    Small(pool);
    contents := pool.Contents();
    twice, d := pool.Insert(1, 7, NULL, null, false);
    AnotherOne(u, c, d, twice, pool.tree.shape, pool.freed);
  }

  /** 7 is taken and then drawn again. */
  method Collide() returns (pool: LockedSet, again: bool, y: Item)
    ensures !again && pool.Valid() && pool.lock.Valid() && pool.lock.Mutex() == Free
    ensures pool.Items() == [y] && y.key == 7 && pool.freed == multiset{y} && fresh(pool.Repr())
  {
    hide *;
    pool := new LockedSet();
    pool.LinkedParts();
    pool.OpenLock(1, Free);
    ghost var t := pool.tree.shape;
    ghost var a, b: Item;
    Small(pool);
    var first;
    label taking:
    first, a := pool.Insert(1, 7, NULL, null, false);
    forall o | o in pool.Repr() ensures fresh(o) {
      assert fresh@taking(pool.Repr() - old@taking(pool.Repr()));
      assert old(allocated(o)) ==> old@taking(allocated(o));
    }
    ghost var u := pool.tree.shape;
    OnlyOne(t, a, false, first, u, pool.freed);
    pool.LinkedParts();
    pool.OpenLock(1, Free);
    Small(pool);
    label drawing:
    again, b := pool.Insert(1, 7, NULL, null, false);
    forall o | o in pool.Repr() ensures fresh(o) {
      assert fresh@drawing(pool.Repr() - old@drawing(pool.Repr()));
      assert old(allocated(o)) ==> old@drawing(allocated(o));
    }
    Repeated(u, a, b, again, pool.tree.shape, pool.freed);
    pool.LinkedParts();
    pool.OpenLock(1, Free);
    pool.IntactIs();
    Dangles(pool, a);
    y := pool.ItemWith(1, 7);
    pool.LinkedParts();
    pool.OpenLock(1, Free);
  }

  lemma Small(pool: LockedSet)
    requires pool.tree.Linked() && |pool.Items()| <= 1
    ensures pool.Roomy() && 8 < KEY_MODULUS
  {
    pool.tree.Held();
  }

  lemma Dangles(pool: LockedSet, a: Item)
    requires pool.Items() == [a] && pool.freed == multiset{a}
    ensures pool.Dangling(a.key)
  {
    assert a in pool.Items();
  }

  lemma OnlyOne(t: Tree, a: Item, intended: bool, ok: bool, now: Tree, freed: multiset<Item>)
    requires InOrder(t) == [] && InsertRan(t, multiset{}, null, a, intended, ok, now, freed)
    ensures ok && InOrder(now) == [a] && freed == multiset{} && Ascending([a]) && MapOf([a]) == map[a.key := a.data]
    ensures Renewed(t, null, a) == t && Ascending(InOrder(t))
  {
  }

  lemma Repeated(t: Tree, a: Item, b: Item, ok: bool, now: Tree, freed: multiset<Item>)
    requires InOrder(t) == [a] && a != b && a.key == b.key && InsertRan(t, multiset{}, null, b, false, ok, now, freed)
    ensures !ok && now == t && freed == multiset{a} && Ascending(InOrder(t))
  {
    assert InOrder(t)[0].key == a.key;
    SoughtInOrder(t, a.key);
    SoughtIsThere(t, a.key);
  }

  lemma Displaced(t: Tree, a: Item, c: Item, ok: bool, now: Tree, freed: multiset<Item>)
    requires InOrder(t) == [a] && a != c && a.key != c.key && InsertRan(t, multiset{a}, a, c, false, ok, now, freed)
    ensures ok && InOrder(now) == [c] && freed == multiset{} && Ascending([c]) && MapOf([c]) == map[c.key := c.data]
    ensures Ascending(InOrder(Renewed(t, a, c)))
  {
    OnlyRewritten(t, a, c);
    hide Inserted, Rewritten;
    assert Renewed(t, a, c) == Rewritten(t, a, c);
    assert multiset{a}[a := 0][c := 0] == multiset{};
  }

  lemma OnlyRewritten(t: Tree, a: Item, c: Item)
    requires InOrder(t) == [a]
    ensures InOrder(Rewritten(t, a, c)) == [c] && Sought(Rewritten(t, a, c), c.key) == c
  {
    RewrittenItems(t, a, c);
    var u := Rewritten(t, a, c);
    assert InOrder(u) == [c] && InOrder(u)[0].key == c.key;
    SoughtInOrder(u, c.key);
    SoughtIsThere(u, c.key);
  }

  lemma AnotherOne(t: Tree, c: Item, d: Item, ok: bool, now: Tree, freed: multiset<Item>)
    requires InOrder(t) == [c] && c.key != d.key && InsertRan(t, multiset{}, null, d, false, ok, now, freed)
    ensures ok
  {
    SoughtInOrder(t, d.key);
  }
}
