/** Lookups in sets of records: by key (common/map.c:55-67), by a linear pass
    (common/map.c:69-88, common/alloc.c:45-61), and over a list in place
    (common/map.c:90-119). */
module Lookup {
  import opened Lock
  import opened RbHeight
  import opened RbNodes
  import opened Set

  /** Neither a hit nor NULL among the first n. */
  ghost predicate Missed(all: seq<nat>, hit: nat -> bool, n: nat) {
    n <= |all| && forall j | 0 <= j < n :: all[j] != NULL && !hit(all[j])
  }

  /** data is the first hit of all, or NULL when there is none before the end or the first
      NULL. */
  ghost predicate Finds(all: seq<nat>, hit: nat -> bool, data: nat) {
    exists n: nat ::
      && Missed(all, hit, n)
      && (if n < |all| then data == all[n] && (data != NULL ==> hit(data)) else data == NULL)
  }

  /** The loop of both functions: start, next until a hit or NULL, finish.  keys and all
      list the contents of the set in ascending order of the keys. */
  method FirstMatch(s: LockedSet, self: Tid, hit: nat -> bool)
    returns (data: nat, ghost keys: seq<Key>, ghost all: seq<nat>)
    requires s.Enterable(self) && s.Roomy() && s.Intact()
    modifies s.lock, s.trav, s.trav.stack
    ensures s.Valid() && s.lock.Mutex() == old(s.lock.Mutex()) && s.Contents() == old(s.Contents())
    ensures Listing(s.Contents(), keys, all)
    ensures Finds(all, hit, data)
  {
    hide *;
    s.Enter(self);
    ghost var before, items := s.lock.Mutex(), s.Items();
    keys, all := Keys(items), Datas(items);
    ItemsList(items);
    s.Start(self);
    s.PassingLock(self);
    s.lock.Acquired(before, self);
    ghost var held, n := s.lock.Mutex(), 0;
    MissedNone(all, hit);
    data := s.Next(self);
    s.PassingLock(self);
    while data != NULL && !hit(data)
      invariant s.Passing(self) && s.Roomy() && s.Intact() && s.lock.Valid() && s.lock.Mutex() == held
      invariant n <= |items| && Missed(all, hit, n)
      invariant data != NULL ==> n < |items| && data == items[n].data && s.Left() == items[n + 1..]
      invariant data == NULL && n < |items| ==> items[n].data == NULL
      decreases |items| - n
    {
      MissedMore(all, hit, n);
      n := n + 1;
      data := s.Next(self);
      s.PassingLock(self);
    }
    s.Finish(self);
    s.LockValid();
    FoundAt(all, hit, n, data);
  }

  lemma MissedNone(all: seq<nat>, hit: nat -> bool)
    ensures Missed(all, hit, 0)
  {
  }

  lemma MissedMore(all: seq<nat>, hit: nat -> bool, n: nat)
    requires n < |all| && Missed(all, hit, n) && all[n] != NULL && !hit(all[n])
    ensures Missed(all, hit, n + 1)
  {
  }

  lemma FoundAt(all: seq<nat>, hit: nat -> bool, n: nat, data: nat)
    requires Missed(all, hit, n)
    requires if n < |all| then data == all[n] && (data != NULL ==> hit(data)) else data == NULL
    ensures Finds(all, hit, data)
  {
  }

  /** The test of a scan: the record at the address has k in its field. */
  function Reads(field: nat -> Key, k: Key): nat -> bool {
    (x: nat) => field(x) == k
  }

  // ---------- clara_find_allocation ----------

  /** Every allocation lies under its own handle; handleOf reads the record at an address. */
  ghost predicate ByHandle(m: map<Key, nat>, handleOf: nat -> Key) {
    forall k | k in m :: m[k] != NULL && handleOf(m[k]) == k
  }

  lemma ScanIsLookup(m: map<Key, nat>, keys: seq<Key>, all: seq<nat>, handleOf: nat -> Key, handle: Key, data: nat)
    requires Listing(m, keys, all) && ByHandle(m, handleOf)
    requires Finds(all, Reads(handleOf, handle), data)
    ensures data == if handle in m then m[handle] else NULL
  {
    assert forall j | 0 <= j < |all| :: all[j] == m[keys[j]] && all[j] != NULL;
    if data != NULL {
      var i: nat :| Missed(all, Reads(handleOf, handle), i) && i < |all| && data == all[i];
      assert handleOf(m[keys[i]]) == keys[i];
    } else if handle in m {
      ListingIsComplete(m, keys, all, handle);
    }
  }

  /** clara_find_allocation, common/alloc.c:45-61: the linear scan finds what a lookup by
      key would find. */
  method FindAllocation(allocations: LockedSet, self: Tid, handleOf: nat -> Key, handle: Key) returns (data: nat)
    requires allocations.Enterable(self) && allocations.Roomy() && allocations.Intact() && ByHandle(allocations.Contents(), handleOf)
    modifies allocations.lock, allocations.trav, allocations.trav.stack
    ensures allocations.Valid() && allocations.lock.Mutex() == old(allocations.lock.Mutex())
    ensures allocations.Contents() == old(allocations.Contents())
    ensures data == if handle in allocations.Contents() then allocations.Contents()[handle] else NULL
  {
    hide *;
    ghost var keys, all;
    data, keys, all := FirstMatch(allocations, self, Reads(handleOf, handle));
    ScanIsLookup(allocations.Contents(), keys, all, handleOf, handle, data);
  }

  // ---------- mapping_find_by_real ----------

  /** Every mapping lies under its virtual ID, and none is NULL. */
  ghost predicate Mappings(m: map<Key, nat>) {
    forall k | k in m :: m[k] != NULL
  }

  lemma ScanIsLeast(m: map<Key, nat>, keys: seq<Key>, all: seq<nat>, realOf: nat -> Key, actual: Key, data: nat)
    requires Listing(m, keys, all) && Mappings(m)
    requires Finds(all, Reads(realOf, actual), data)
    ensures data == NULL <==> forall k | k in m :: realOf(m[k]) != actual
    ensures data != NULL ==>
      exists k | k in m :: m[k] == data && realOf(data) == actual && forall l: Key | l in m && l < k :: realOf(m[l]) != actual
  {
    assert forall j | 0 <= j < |all| :: all[j] == m[keys[j]] && all[j] != NULL;
    if data == NULL {
      forall k | k in m ensures realOf(m[k]) != actual {
        ListingIsComplete(m, keys, all, k);
        var j :| 0 <= j < |keys| && keys[j] == k;
        assert all[j] == m[k];
      }
    } else {
      var i: nat :| Missed(all, Reads(realOf, actual), i) && i < |all| && data == all[i];
      assert keys[i] in m && m[keys[i]] == data && realOf(data) == actual;
      forall l: Key | l in m && l < keys[i] ensures realOf(m[l]) != actual {
        ListingIsComplete(m, keys, all, l);
        var j :| 0 <= j < |keys| && keys[j] == l;
        assert all[j] == m[l] && j < i;
      }
    }
  }

  /** mapping_find_by_real, common/map.c:69-88: of the mappings to a real ID, the one with
      the least virtual ID. */
  method FindByReal(s: LockedSet, self: Tid, realOf: nat -> Key, actual: Key) returns (found: bool, data: nat)
    requires s.Enterable(self) && s.Roomy() && s.Intact() && Mappings(s.Contents())
    modifies s.lock, s.trav, s.trav.stack
    ensures s.Valid() && s.lock.Mutex() == old(s.lock.Mutex()) && s.Contents() == old(s.Contents())
    ensures found <==> exists k | k in s.Contents() :: realOf(s.Contents()[k]) == actual
    ensures found ==>
      exists k | k in s.Contents() ::
        s.Contents()[k] == data && realOf(data) == actual
        && forall l: Key | l in s.Contents() && l < k :: realOf(s.Contents()[l]) != actual
  {
    hide *;
    ghost var keys, all;
    data, keys, all := FirstMatch(s, self, Reads(realOf, actual));
    ScanIsLeast(s.Contents(), keys, all, realOf, actual, data);
    found := data != NULL;
  }

  /** mapping_find_by_virt, common/map.c:55-67. */
  method FindByVirt(s: LockedSet, self: Tid, virt: Key) returns (found: bool, data: nat)
    requires s.Enterable(self) && s.Intact()
    modifies s.lock
    ensures s.Valid() && s.lock.Mutex() == old(s.lock.Mutex())
    ensures found <==> virt in s.Contents()
    ensures found ==> data == s.Contents()[virt]
  {
    hide *;
    s.LinkedParts();
    s.IntactIs();
    s.ReprAllocated();
    found, data := s.Find(self, virt);
    s.LinkedParts();
    s.IntactIs();
  }

  // ---------- mapping_translate_list_to_real ----------

  /** How many words at the start of list have a mapping. */
  function Translatable(m: map<Key, nat>, list: seq<Key>): (n: nat)
    ensures n <= |list|
    ensures forall i | 0 <= i < n :: list[i] in m
    ensures n < |list| ==> list[n] !in m
  {
    if list == [] || list[0] !in m then 0 else 1 + Translatable(m, list[1..])
  }

  lemma {:induction false} TranslatableIs(m: map<Key, nat>, list: seq<Key>, n: nat)
    requires n <= |list| && (forall i | 0 <= i < n :: list[i] in m) && (n < |list| ==> list[n] !in m)
    ensures Translatable(m, list) == n
  {
    if n > 0 {
      TranslatableIs(m, list[1..], n - 1);
    }
  }

  lemma WordsApart(s: LockedSet, words: array<Key>)
    ensures words !in s.Repr() && s in s.Repr() && s.lock in s.Repr() && s.tree in s.Repr()
  {
    hide Nodes;
  }

  /** common/map.c:90-119, with one array for both lists or two: the callers pass the same
      list twice.  A list that is NULL is empty. */
  method TranslateList(s: LockedSet, self: Tid, realOf: nat -> Key, numItems: nat, virtList: array?<Key>, realList: array<Key>)
    returns (n: nat)
    requires s.Enterable(self) && s.Intact()
    requires virtList != null ==> numItems <= virtList.Length && numItems <= realList.Length
    modifies s.lock, realList
    ensures s.Valid() && s.lock.Mutex() == old(s.lock.Mutex()) && s.Contents() == old(s.Contents())
    ensures virtList == null ==> n == 0 && realList[..] == old(realList[..])
    ensures virtList != null ==>
      && n == Translatable(s.Contents(), old(virtList[..numItems]))
      && (forall i | 0 <= i < n :: old(virtList[i]) in s.Contents() && realList[i] == realOf(s.Contents()[old(virtList[i])]))
      && realList[n..] == old(realList[n..])
      && (virtList != realList ==> virtList[..] == old(virtList[..]))
  {
    hide *;
    WordsApart(s, realList);
    s.LockInRepr(self);
    n := 0;
    if numItems == 0 || virtList == null {
      EmptyList(s.Contents());
      return;
    }
    ghost var m, mutex := s.Contents(), s.lock.Mutex();
    while n < numItems
      invariant s.Enterable(self) && s.Intact() && s.Valid() && s.lock.Valid() && s.lock.Mutex() == mutex && s.Contents() == m
      invariant n <= numItems
      invariant forall i | n <= i < virtList.Length :: virtList[i] == old(virtList[i])
      invariant forall i | n <= i < realList.Length :: realList[i] == old(realList[i])
      invariant forall i | 0 <= i < n :: old(virtList[i]) in m && realList[i] == realOf(m[old(virtList[i])])
      invariant virtList != realList ==> virtList[..] == old(virtList[..])
    {
      s.LockInRepr(self);
      var found, mapping := FindByVirt(s, self, virtList[n]);
      s.MayEnter(self);
      WordsApart(s, realList);
      if !found {
        break;
      }
      realList[n] := realOf(mapping);
      n := n + 1;
    }
    TranslatableIs(m, old(virtList[..numItems]), n);
  }

  lemma EmptyList(m: map<Key, nat>)
    ensures Translatable(m, []) == 0
  {
  }
}
