/** set_insert, set_remove, set_find and set_count among any number of threads
    (common/set.c:84-149, include/set.h:64-83), and malloc and free among them: a block that
    has been freed may be handed out again, to the set or to anybody else. */
module SetOps {
  // The lock is the re-entrant mutex that it refines (Lock.RunRefines).  A body reads the
  // tree in one step and changes it in a later one, when rb_count changes too.
  // That nobody else comes in between the two is proved.  What the operations do with an item
  // after lock_post, freeing it or reading its datum, is a step of its own.  set_insert is as
  // written.  Once an insertion has met a present key, the tree refers to a block that
  // somebody else may write to, and the bodies may do anything.

  import opened Lock
  import opened RbNodes
  import Set

  type Addr = nat

  datatype Record = Record(key: Key, data: nat)

  datatype Maybe = Null | To(at: Addr)

  /** Where a thread is in its call.  answer is what the state of the tree decided. */
  datatype Call =
    | Resting
    | Waiting(op: Set.Op)                                        // in lock_wait
    | Entered(op: Set.Op)
    | Working(op: Set.Op, seen: map<Key, Addr>)                  // the body has read the tree
    | Leaving(op: Set.Op, item: Maybe, answer: Set.Answer)       // in lock_post
    | Left(op: Set.Op, item: Maybe, answer: Set.Answer)          // the item is yet to be freed or read

  /** tree maps each key to the item that the red-black tree holds under it; freed counts how
      often a block has been freed and not been handed out again.  met and stale are history:
      an insertion has met a present key; the block of the item that a call of set_find has
      found has been freed since. */
  datatype System = System(
    mutex: Mutex, tree: map<Key, Addr>, items: map<Addr, Record>, freed: multiset<Addr>, calls: map<Tid, Call>,
    met: bool, stale: set<Tid>)

  ghost predicate Init(s: System) {
    && s.mutex == Free && s.freed == multiset{} && (forall t | t in s.calls :: s.calls[t] == Resting)
    && !s.met && s.stale == {}
    && forall k | k in s.tree :: s.tree[k] in s.items && s.items[s.tree[k]].key == k
  }

  /** The data that a set holds. */
  function Contents(s: System): map<Key, nat> {
    Data(s.tree, s.items)
  }

  function Data(tree: map<Key, Addr>, items: map<Addr, Record>): map<Key, nat> {
    map k | k in tree && tree[k] in items :: items[tree[k]].data
  }

  // ---------- The steps ----------

  datatype Action =
    | Hold                       // lock_wait of set_start
    | Unhold                     // lock_post of set_finish
    | Invoke(op: Set.Op)
    | Enter
    | Read
    | Write(at: Addr)            // at is where malloc put a new item
    | Leave
    | Return(answer: Set.Answer)
    | Take(at: Addr, holds: Record)   // somebody else is handed out a free block, and writes to it
    | ReadCount(n: int)

  function Goes(s: System, t: Tid, c: Call): System {
    s.(calls := s.calls[t := c])
  }

  /** The item that the body of op finds in the tree it has seen. */
  function Found(op: Set.Op, seen: map<Key, Addr>): Maybe {
    match op
    case Insert(k, _) => if k in seen then To(seen[k]) else Null
    case Remove(k) => if k in seen then To(seen[k]) else Null
    case Find(k) => if k in seen then To(seen[k]) else Null
    case Count => Null
  }

  /** The tree after the body. */
  function Written(op: Set.Op, seen: map<Key, Addr>, at: Addr): map<Key, Addr> {
    match op
    case Insert(k, _) => if k in seen then seen else seen[k := at]
    case Remove(k) => seen - {k}
    case Find(_) | Count => seen
  }

  /** The memory and the free blocks after malloc. */
  function Allocated(op: Set.Op, items: map<Addr, Record>, at: Addr): map<Addr, Record> {
    if op.Insert? then items[at := Record(op.key, op.data)] else items
  }

  function StillFree(op: Set.Op, freed: multiset<Addr>, at: Addr): multiset<Addr> {
    if op.Insert? then freed - multiset{at} else freed
  }

  /** malloc hands out a block that is new, or free. */
  predicate Available(s: System, at: Addr) {
    at !in s.items || at in s.freed
  }

  /** The threads whose set_find has found the item at a and not yet read it. */
  function Readers(s: System, a: Addr): set<Tid> {
    set t | t in s.calls && Reads(s.calls[t], a)
  }

  predicate Reads(c: Call, a: Addr) {
    (c.Leaving? || c.Left?) && c.op.Find? && c.item == To(a)
  }

  /** What the caller is told: true or false by the item, and what the item holds now. */
  function Told(op: Set.Op, item: Maybe, items: map<Addr, Record>): Set.Answer {
    match op
    case Insert(_, _) => Set.Flag(item == Null)
    case Remove(_) => Set.Flag(item != Null)
    case Find(_) => if item.To? && item.at in items then Set.Lookup(true, items[item.at].data) else Set.Lookup(false, Set.NULL)
    case Count => Set.Number(0)
  }

  ghost predicate Step(s: System, t: Tid, a: Action, s': System) {
    t in s.calls &&
    var c := s.calls[t];
    match a
    case Hold => c == Resting && Acquire(s.mutex, t, s'.mutex) && s' == s.(mutex := s'.mutex)
    case Unhold => c == Resting && Release(s.mutex, t, s'.mutex) && s' == s.(mutex := s'.mutex)
    case Invoke(op) => c == Resting && op != Set.Count && s' == Goes(s, t, Waiting(op))
    case Enter => c.Waiting? && Acquire(s.mutex, t, s'.mutex) && s' == Goes(s, t, Entered(c.op)).(mutex := s'.mutex)
    case Read => c.Entered? && s' == Goes(s, t, Working(c.op, s.tree))
    case Write(at) =>
      && c.Working? && Available(s, at)
      && if s.met then
           && t in s'.calls && s'.calls[t].Leaving? && s'.calls[t].op == c.op
           && s' == Goes(s, t, s'.calls[t]).(tree := s'.tree, items := s'.items, freed := s'.freed)
         else
           var item, items := Found(c.op, c.seen), Allocated(c.op, s.items, at);
           s' == Goes(s, t, Leaving(c.op, item, Told(c.op, item, items)))
                   .(tree := Written(c.op, c.seen, at), items := items, freed := StillFree(c.op, s.freed, at),
                     met := c.op.Insert? && c.op.key in c.seen)
    case Leave =>
      && c.Leaving? && Release(s.mutex, t, s'.mutex)
      && s' == Goes(s, t, Left(c.op, c.item, c.answer)).(mutex := s'.mutex)
    case Return(answer) =>
      && c.Left?
      && ((c.op.Find? && c.item.To? && c.item.at in s.freed && answer.Lookup? && answer.ok) || answer == Told(c.op, c.item, s.items))
      && s' == (if Frees(c) then
                  Goes(s, t, Resting).(freed := s.freed + multiset{c.item.at}, stale := s.stale - {t} + Readers(s, c.item.at))
                else Goes(s, t, Resting).(stale := s.stale - {t}))
    case Take(at, holds) => at in s.freed && s' == s.(items := s.items[at := holds], freed := s.freed - multiset{at})
    case ReadCount(n) => c == Resting && n == |s.tree| && s' == s
  }

  /** The call has yet to free its item: the removed one, or on a present key the one that
      rb_insert returned. */
  predicate Frees(c: Call) {
    (c.Leaving? || c.Left?) && !c.op.Find? && c.item.To?
  }

  /** A run and who did what in it. */
  ghost predicate Run(r: seq<System>, who: seq<Tid>, did: seq<Action>) {
    && |r| > 0 && |who| == |did| == |r| - 1 && Init(r[0])
    && forall i | 0 <= i < |r| - 1 :: Step(r[i], who[i], did[i], r[i + 1])
  }

  // ---------- The invariant ----------

  predicate Inside(c: Call) {
    c.Entered? || c.Working? || c.Leaving?
  }

  predicate Owns(s: System, t: Tid) {
    s.mutex.Held? && s.mutex.tid == t
  }

  /** A thread in a body holds the lock, and the tree is still as the body has seen it. */
  predicate CallOk(s: System, t: Tid)
    requires t in s.calls
  {
    var c := s.calls[t];
    && (c != Resting ==> c.op != Set.Count)
    && (Inside(c) ==> Owns(s, t))
    && (c.Working? ==> c.seen == s.tree)
    && (t in s.stale ==> (c.Leaving? || c.Left?) && c.op.Find? && c.item.To?)
  }

  /** What was found still says what it said, unless its block has been freed; while the
      thread keeps the lock it is still in the tree. */
  predicate FoundOk(s: System, t: Tid)
    requires t in s.calls
  {
    var c := s.calls[t];
    c.Leaving? || c.Left? ==>
      && ((c.op.Find? && t in s.stale) || c.answer == Told(c.op, c.item, s.items))
      && (c.item.To? ==> c.item.at in s.items)
      && (c.op.Find? && c.item.To? && t !in s.stale ==> c.item.at !in s.freed)
      && (c.op.Find? && c.item.To? && Owns(s, t) ==>
            t !in s.stale && c.op.key in s.tree && s.tree[c.op.key] == c.item.at)
  }

  /** The call has yet to free the block at a. */
  predicate WillFree(s: System, t: Tid, a: Addr) {
    t in s.calls && Frees(s.calls[t]) && s.calls[t].item.at == a
  }

  /** Each key leads to its item; nothing has been freed twice, and nothing that the tree
      refers to is free or about to be freed. */
  ghost predicate Tidy(s: System) {
    && (forall k | k in s.tree :: s.tree[k] in s.items && s.items[s.tree[k]].key == k && s.tree[k] !in s.freed)
    && (forall a | a in s.freed :: a in s.items && s.freed[a] == 1)
    && (forall t, a | WillFree(s, t, a) :: a !in s.freed && forall k | k in s.tree :: s.tree[k] != a)
    && forall t, u, a | t != u && WillFree(s, t, a) :: !WillFree(s, u, a)
  }

  /** While no insertion has met a present key, all is as it should be. */
  ghost predicate Inv(s: System) {
    Base(s) && (!s.met ==> Tidy(s) && AllFound(s))
  }

  ghost predicate Base(s: System) {
    (forall t | t in s.calls :: CallOk(s, t)) && s.stale <= s.calls.Keys && (s.mutex.Held? ==> s.mutex.times > 0)
  }

  ghost predicate AllFound(s: System) {
    forall t | t in s.calls :: FoundOk(s, t)
  }

  lemma CallStays(s: System, t: Tid, a: Action, s': System, u: Tid)
    requires Step(s, t, a, s') && CallOk(s, t) && u in s.calls && CallOk(s, u)
    ensures u in s'.calls && CallOk(s', u)
  {
    hide CallOk;
    if u == t {
      OwnCall(s, t, a, s');
    } else {
      OtherCall(s, t, a, s', u);
    }
  }

  lemma OwnCall(s: System, t: Tid, a: Action, s': System)
    requires Step(s, t, a, s') && CallOk(s, t)
    ensures t in s'.calls && CallOk(s', t)
  {
  }

  lemma OtherCall(s: System, t: Tid, a: Action, s': System, u: Tid)
    requires Step(s, t, a, s') && CallOk(s, t) && u in s.calls && CallOk(s, u) && u != t
    ensures u in s'.calls && CallOk(s', u)
  {
    assert s'.calls[u] == s.calls[u];
  }

  lemma LockStays(s: System, t: Tid, a: Action, s': System)
    requires Step(s, t, a, s') && (s.mutex.Held? ==> s.mutex.times > 0)
    ensures s'.mutex.Held? ==> s'.mutex.times > 0
    ensures s.stale <= s.calls.Keys ==> s'.stale <= s'.calls.Keys
    ensures s.met ==> s'.met
  {
  }

  // ---------- What a step leaves alone ----------

  /** A call that has an item to free, or to read. */
  predicate Pending(c: Call) {
    c.Leaving? || c.Left?
  }

  lemma OtherCalls(s: System, t: Tid, a: Action, s': System)
    requires Step(s, t, a, s')
    ensures t in s.calls && t in s'.calls && s'.calls.Keys == s.calls.Keys
    ensures forall u | u in s.calls && u != t :: s'.calls[u] == s.calls[u]
  {
  }

  lemma OwnPending(s: System, t: Tid, a: Action, s': System)
    requires Step(s, t, a, s') && !a.Write? && t in s.calls && t in s'.calls
    ensures a.Return? ==> s.calls[t].Left? && s'.calls[t] == Resting
    ensures !a.Return? ==>
      && (Pending(s'.calls[t]) <==> Pending(s.calls[t]))
      && (Pending(s.calls[t]) ==>
            && s'.calls[t].op == s.calls[t].op && s'.calls[t].item == s.calls[t].item
            && s'.calls[t].answer == s.calls[t].answer && (Owns(s', t) ==> Owns(s, t)))
  {
  }

  lemma Elsewhere(s: System, t: Tid, a: Action, s': System)
    requires Step(s, t, a, s') && !a.Write? && !a.Return? && !a.Take?
    ensures s'.tree == s.tree && s'.items == s.items && s'.freed == s.freed && s'.met == s.met && s'.stale == s.stale
  {
  }

  lemma OwnersStay(s: System, t: Tid, a: Action, s': System, u: Tid)
    requires Step(s, t, a, s') && u != t
    ensures Owns(s', u) ==> Owns(s, u)
  {
  }

  // ---------- Each kind of step keeps the memory in order ----------

  /** A body: the tree, the memory and the free blocks, and what the call has found. */
  lemma BodyStep(s: System, t: Tid, at: Addr, s': System)
    requires Inv(s) && !s.met && Step(s, t, Write(at), s')
    ensures t in s.calls && s.calls[t].Working? && Available(s, at) && Owns(s, t)
    ensures var op := s.calls[t].op; var item := Found(op, s.tree);
      && op != Set.Count && s'.calls[t] == Leaving(op, item, Told(op, item, s'.items))
      && s'.tree == Written(op, s.tree, at) && s'.items == Allocated(op, s.items, at)
      && s'.freed == StillFree(op, s.freed, at) && (s'.met <==> op.Insert? && op.key in s.tree)
      && s'.stale == s.stale && t !in s.stale && s'.mutex == s.mutex
  {
    assert CallOk(s, t);
  }

  lemma InOrder(s: System)
    requires Inv(s) && !s.met
    ensures Tidy(s) && AllFound(s)
  {
  }

  /** The block that malloc hands out is not in use. */
  lemma AtIsUnused(s: System, at: Addr)
    requires Inv(s) && !s.met && Available(s, at)
    ensures forall k | k in s.tree :: s.tree[k] != at && s.tree[k] in s.items
    ensures forall u, x | WillFree(s, u, x) :: x != at && x in s.items
    ensures forall u | u in s.calls && Pending(s.calls[u]) && s.calls[u].item.To? && u !in s.stale && s.calls[u].op.Find? ::
              s.calls[u].item.at != at && s.calls[u].item.at in s.items
  {
    assert forall u | u in s.calls :: FoundOk(s, u);
  }

  /** What a body makes of a tree whose items are in order, when malloc hands out at. */
  lemma WrittenOk(tree: map<Key, Addr>, items: map<Addr, Record>, freed: multiset<Addr>, op: Set.Op, at: Addr)
    requires forall k | k in tree :: tree[k] in items && items[tree[k]].key == k && tree[k] !in freed && tree[k] != at
    requires forall x | x in freed :: x in items && freed[x] == 1
    requires !(op.Insert? && op.key in tree)
    ensures var tree', items', freed' := Written(op, tree, at), Allocated(op, items, at), StillFree(op, freed, at);
      && (forall k | k in tree' :: tree'[k] in items' && items'[tree'[k]].key == k && tree'[k] !in freed')
      && (forall x | x in freed' :: x in items' && freed'[x] == 1)
      && (forall k | k in tree' :: (tree'[k] == at && op.Insert?) || (k in tree && tree'[k] == tree[k]))
      && (op.Remove? && op.key in tree ==> forall k | k in tree' :: tree'[k] != tree[op.key])
  {
    FreedShrinks(op, freed, at);
  }

  /** What is about to be freed after a body. */
  lemma WriteWillFree(s: System, t: Tid, at: Addr, s': System, u: Tid, x: Addr)
    requires Inv(s) && !s.met && Step(s, t, Write(at), s') && !s'.met && WillFree(s', u, x)
    ensures u != t ==> WillFree(s, u, x)
    ensures u == t ==> s.calls[t].op.Remove? && s.calls[t].op.key in s.tree && s.tree[s.calls[t].op.key] == x
  {
    BodyStep(s, t, at, s');
    OtherCalls(s, t, Write(at), s');
    hide Inv, Step;
  }

  lemma TidyAt(s: System, t: Tid, x: Addr)
    requires Tidy(s) && WillFree(s, t, x)
    ensures x !in s.freed && forall k | k in s.tree :: s.tree[k] != x
    ensures forall u | u != t :: !WillFree(s, u, x)
  {
  }

  lemma WriteTidyAt(s: System, t: Tid, at: Addr, s': System, u: Tid, x: Addr)
    requires Inv(s) && !s.met && Step(s, t, Write(at), s') && !s'.met && WillFree(s', u, x)
    ensures x !in s'.freed && (forall k | k in s'.tree :: s'.tree[k] != x) && forall v | v != u :: !WillFree(s', v, x)
  {
    BodyStep(s, t, at, s');
    AtIsUnused(s, at);
    assert Tidy(s);
    var op := s.calls[t].op;
    WrittenOk(s.tree, s.items, s.freed, op, at);
    FreedShrinks(op, s.freed, at);
    WriteWillFree(s, t, at, s', u, x);
    forall v | v != u ensures !WillFree(s', v, x) {
      if WillFree(s', v, x) {
        WriteWillFree(s, t, at, s', v, x);
        if u != t {
          TidyAt(s, u, x);
        }
        if v != t {
          TidyAt(s, v, x);
        }
      }
    }
    hide Inv, Step, Tidy, WillFree, Written, Allocated, StillFree, Available, Told;
    if u != t {
      TidyAt(s, u, x);
    }
  }

  lemma WriteTidy(s: System, t: Tid, at: Addr, s': System)
    requires Inv(s) && !s.met && Step(s, t, Write(at), s') && !s'.met
    ensures Tidy(s')
  {
    hide Inv, Base, AllFound, Step, Told, Found, Written, Allocated, StillFree, Available, WillFree;
    InOrder(s);
    BodyStep(s, t, at, s');
    AtIsUnused(s, at);
    WrittenOk(s.tree, s.items, s.freed, s.calls[t].op, at);
    forall u, x | WillFree(s', u, x)
      ensures x !in s'.freed && (forall k | k in s'.tree :: s'.tree[k] != x) && forall v | v != u :: !WillFree(s', v, x)
    {
      WriteTidyAt(s, t, at, s', u, x);
    }
  }

  /** A body keeps the set tidy if and only if it does not insert under a present key. */
  lemma WriteTidyExactly(s: System, t: Tid, at: Addr, s': System)
    requires Inv(s) && !s.met && Step(s, t, Write(at), s')
    ensures Tidy(s') <==> !(s.calls[t].op.Insert? && s.calls[t].op.key in s.tree)
    ensures s'.met <==> s.calls[t].op.Insert? && s.calls[t].op.key in s.tree
  {
    BodyStep(s, t, at, s');
    if s'.met {
      var k := s.calls[t].op.key;
      assert WillFree(s', t, s.tree[k]) && k in s'.tree && s'.tree[k] == s.tree[k];
    } else {
      WriteTidy(s, t, at, s');
    }
  }

  lemma FreedShrinks(op: Set.Op, freed: multiset<Addr>, at: Addr)
    ensures forall x :: StillFree(op, freed, at)[x] <= freed[x]
    ensures forall x | x in StillFree(op, freed, at) :: x in freed
    ensures op.Insert? && freed[at] <= 1 ==> at !in StillFree(op, freed, at)
  {
  }

  lemma WriteFoundOwn(s: System, t: Tid, at: Addr, s': System)
    requires Inv(s) && !s.met && Step(s, t, Write(at), s') && !s'.met && t in s'.calls
    ensures FoundOk(s', t)
  {
    BodyStep(s, t, at, s');
    AtIsUnused(s, at);
    assert Tidy(s);
    hide Inv, Step, Available;
    FreedShrinks(s.calls[t].op, s.freed, at);
  }

  lemma WriteFound(s: System, t: Tid, at: Addr, s': System, u: Tid)
    requires Inv(s) && !s.met && Step(s, t, Write(at), s') && u in s.calls && u in s'.calls && u != t
    ensures FoundOk(s', u)
  {
    hide *;
    BodyStep(s, t, at, s');
    AtIsUnused(s, at);
    OtherCalls(s, t, Write(at), s');
    InOrder(s);
    var op := s.calls[t].op;
    FreedShrinks(op, s.freed, at);
    KeepsOut(s, t, s', u);
    MemoryKept(op, s.items, at);
    FoundKept(s, s', u, at);
  }

  lemma KeepsOut(s: System, t: Tid, s': System, u: Tid)
    requires Owns(s, t) && s'.mutex == s.mutex && u != t
    ensures !Owns(s', u)
  {
  }

  lemma MemoryKept(op: Set.Op, items: map<Addr, Record>, at: Addr)
    ensures forall x | x in items :: x in Allocated(op, items, at) && (x != at ==> Allocated(op, items, at)[x] == items[x])
  {
  }

  /** What another call has found, while only the block at changes. */
  lemma FoundKept(s: System, s': System, u: Tid, at: Addr)
    requires AllFound(s) && u in s.calls && u in s'.calls && s'.calls[u] == s.calls[u] && s'.stale == s.stale && !Owns(s', u)
    requires forall x | x in s.items :: x in s'.items && (x != at ==> s'.items[x] == s.items[x])
    requires forall x | x in s'.freed :: x in s.freed
    requires var c := s.calls[u]; Pending(c) && c.item.To? && u !in s.stale && c.op.Find? ==> c.item.at != at
    ensures FoundOk(s', u)
  {
    assert FoundOk(s, u);
  }

  lemma ReturnTidy(s: System, t: Tid, answer: Set.Answer, s': System)
    requires Inv(s) && !s.met && Step(s, t, Return(answer), s')
    ensures Tidy(s') && !s'.met
  {
    FreedNext(s, t, answer, s');
    OtherCalls(s, t, Return(answer), s');
    OwnPending(s, t, Return(answer), s');
    hide Inv, Step;
    forall u, x | WillFree(s', u, x) ensures u != t && WillFree(s, u, x) {
    }
  }

  lemma FreedNext(s: System, t: Tid, answer: Set.Answer, s': System)
    requires Inv(s) && !s.met && Step(s, t, Return(answer), s')
    ensures s'.tree == s.tree && s'.items == s.items && !s'.met && Tidy(s) && t in s.calls
    ensures forall x | x in s'.freed :: x in s.freed || WillFree(s, t, x)
    ensures forall x | x in s'.freed :: s'.freed[x] == 1 && x in s'.items
    ensures forall u | u in s.calls && u != t && u !in s'.stale :: u !in s.stale
    ensures forall u, x | u in s.calls && u != t && WillFree(s, t, x) && Reads(s.calls[u], x) :: u in s'.stale
    ensures forall u | u in s'.stale && u != t :: u in s.stale || exists x :: WillFree(s, t, x) && Reads(s.calls[u], x)
  {
    assert FoundOk(s, t);
    if Frees(s.calls[t]) {
      assert WillFree(s, t, s.calls[t].item.at);
    }
  }

  lemma ReturnFound(s: System, t: Tid, answer: Set.Answer, s': System, u: Tid)
    requires Inv(s) && !s.met && Step(s, t, Return(answer), s') && u in s.calls && u in s'.calls
    ensures FoundOk(s', u)
  {
    FreedNext(s, t, answer, s');
    OtherCalls(s, t, Return(answer), s');
    OwnPending(s, t, Return(answer), s');
    if u != t {
      OwnersStay(s, t, Return(answer), s', u);
    }
    assert FoundOk(s, u);
    hide Inv, Step;
    var c := s.calls[u];
    if u != t && Pending(c) && c.op.Find? && c.item.To? {
      assert Reads(c, c.item.at);
      assert forall x | Reads(c, x) :: x == c.item.at;
    }
  }

  lemma TakeTidy(s: System, t: Tid, at: Addr, holds: Record, s': System)
    requires Inv(s) && !s.met && Step(s, t, Action.Take(at, holds), s')
    ensures Tidy(s') && AllFound(s')
  {
    assert s'.calls == s.calls && s'.tree == s.tree && s'.mutex == s.mutex && s'.stale == s.stale;
    assert s'.items == s.items[at := holds] && s'.freed == s.freed - multiset{at};
    assert Tidy(s) && AllFound(s);
    hide Inv, Step;
    assert forall u, x :: WillFree(s', u, x) <==> WillFree(s, u, x);
    forall u | u in s'.calls ensures FoundOk(s', u) {
      assert FoundOk(s, u);
    }
  }

  lemma OtherOk(s: System, t: Tid, a: Action, s': System)
    requires Inv(s) && !s.met && Step(s, t, a, s') && !a.Write? && !a.Return? && !a.Take?
    ensures Tidy(s') && AllFound(s')
  {
    Elsewhere(s, t, a, s');
    OtherCalls(s, t, a, s');
    OwnPending(s, t, a, s');
    forall u | u in s.calls && u != t ensures Owns(s', u) ==> Owns(s, u) {
      OwnersStay(s, t, a, s', u);
    }
    assert Tidy(s) && AllFound(s);
    hide Inv, Step;
    forall u, x ensures WillFree(s', u, x) <==> WillFree(s, u, x) {
    }
    forall u | u in s'.calls ensures FoundOk(s', u) {
      assert FoundOk(s, u);
    }
  }

  lemma StepGood(s: System, t: Tid, a: Action, s': System)
    requires Inv(s) && !s.met && Step(s, t, a, s') && !s'.met
    ensures Tidy(s') && AllFound(s')
  {
    OtherCalls(s, t, a, s');
    hide Inv, Step, Tidy, FoundOk;
    match a
    case Write(at) =>
      WriteTidy(s, t, at, s');
      forall u | u in s'.calls ensures FoundOk(s', u) {
        if u == t {
          WriteFoundOwn(s, t, at, s');
        } else {
          WriteFound(s, t, at, s', u);
        }
      }
    case Return(answer) =>
      ReturnTidy(s, t, answer, s');
      forall u | u in s'.calls ensures FoundOk(s', u) {
        ReturnFound(s, t, answer, s', u);
      }
    case Take(at, holds) => TakeTidy(s, t, at, holds, s');
    case _ => OtherOk(s, t, a, s');
  }

  lemma StepInv(s: System, t: Tid, a: Action, s': System)
    requires Inv(s) && Step(s, t, a, s')
    ensures Inv(s')
  {
    OtherCalls(s, t, a, s');
    LockStays(s, t, a, s');
    hide Step, Tidy, FoundOk, CallOk;
    forall u | u in s'.calls ensures CallOk(s', u) {
      CallStays(s, t, a, s', u);
    }
    if !s'.met {
      StepGood(s, t, a, s');
    }
  }

  lemma Steps(s: System, t: Tid, a: Action, s': System)
    requires Step(s, t, a, s')
    ensures t in s.calls
  {
  }

  lemma {:induction false} RunInv(r: seq<System>, who: seq<Tid>, did: seq<Action>, i: nat)
    requires Run(r, who, did) && i < |r|
    ensures Inv(r[i])
  {
    hide Step, Inv;
    if i == 0 {
      AtStart(r[0]);
    } else {
      RunInv(r, who, did, i - 1);
      assert Step(r[i - 1], who[i - 1], did[i - 1], r[i - 1 + 1]);
      StepInv(r[i - 1], who[i - 1], did[i - 1], r[i]);
    }
  }

  lemma AtStart(s: System)
    requires Init(s)
    ensures Inv(s) && !s.met
  {
  }

  // ---------- Each call takes effect at one moment ----------

  lemma TreeIsContents(s: System)
    requires Inv(s) && !s.met
    ensures Contents(s).Keys == s.tree.Keys && |Contents(s)| == |s.tree|
  {
    assert Contents(s).Keys == s.tree.Keys;
    assert |Contents(s).Keys| == |Contents(s)| && |s.tree.Keys| == |s.tree|;
  }

  /** While no insertion has met a present key, a body does to the contents what its
      operation does to a map, and what its caller will be told is the map's answer; no
      other step changes the contents, and the count read without the lock is theirs at that
      moment. */
  lemma StepLinearizes(s: System, t: Tid, a: Action, s': System)
    requires Inv(s) && !s.met && Step(s, t, a, s')
    ensures a.Write? ==>
      && s.calls[t].Working? && s'.calls[t].Leaving? && s'.calls[t].op == s.calls[t].op
      && Contents(s') == Set.After(Contents(s), s.calls[t].op)
      && Set.Answers(Contents(s), s.calls[t].op, s'.calls[t].answer)
      && (s'.met <==> Set.Repeats(Contents(s), s.calls[t].op))
    ensures !a.Write? ==> Contents(s') == Contents(s) && !s'.met
    ensures a.ReadCount? ==> a.n == |Contents(s)|
  {
    hide *;
    match a
    case Write(at) => WriteLinearizes(s, t, at, s');
    case Take(at, holds) => TakeUnseen(s, t, at, holds, s');
    case Return(answer) =>
      FreedNext(s, t, answer, s');
      SameContents(s, s');
    case ReadCount(n) => CountIs(s, t, n, s');
    case _ =>
      Elsewhere(s, t, a, s');
      SameContents(s, s');
  }

  lemma SameContents(s: System, s': System)
    requires s'.tree == s.tree && s'.items == s.items
    ensures Contents(s') == Contents(s)
  {
  }

  lemma CountIs(s: System, t: Tid, n: int, s': System)
    requires Inv(s) && !s.met && Step(s, t, ReadCount(n), s')
    ensures s' == s && n == |Contents(s)|
  {
    TreeIsContents(s);
  }

  lemma TakeUnseen(s: System, t: Tid, at: Addr, holds: Record, s': System)
    requires Inv(s) && !s.met && Step(s, t, Action.Take(at, holds), s')
    ensures Contents(s') == Contents(s) && !s'.met
  {
    assert forall k | k in s.tree :: s.tree[k] != at;
  }

  lemma WriteLinearizes(s: System, t: Tid, at: Addr, s': System)
    requires Inv(s) && !s.met && Step(s, t, Write(at), s')
    ensures t in s.calls && s.calls[t].Working? && s'.calls[t].Leaving? && s'.calls[t].op == s.calls[t].op
    ensures Contents(s') == Set.After(Contents(s), s.calls[t].op)
    ensures Set.Answers(Contents(s), s.calls[t].op, s'.calls[t].answer)
    ensures s'.met <==> Set.Repeats(Contents(s), s.calls[t].op)
  {
    BodyStep(s, t, at, s');
    AtIsUnused(s, at);
    TreeIsContents(s);
    hide Inv, Step, Set.After, Set.Answers, Written, Allocated, Found, Told, Data;
    BodyActs(s.tree, s.items, s.calls[t].op, at);
  }

  lemma BodyActs(tree: map<Key, Addr>, items: map<Addr, Record>, op: Set.Op, at: Addr)
    requires op != Set.Count && forall k | k in tree :: tree[k] in items && tree[k] != at
    ensures Data(Written(op, tree, at), Allocated(op, items, at)) == Set.After(Data(tree, items), op)
    ensures Set.Answers(Data(tree, items), op, Told(op, Found(op, tree), Allocated(op, items, at)))
  {
    var m, m' := Data(tree, items), Data(Written(op, tree, at), Allocated(op, items, at));
    assert m.Keys == tree.Keys;
    assert m' == Set.After(m, op);
  }

  /** The operations whose bodies have been done, in the order of their Write steps. */
  function Ops(r: seq<System>, who: seq<Tid>, did: seq<Action>, i: nat): seq<Set.Op>
    requires i < |r| && |who| == |did| == |r| - 1
  {
    if i == 0 then []
    else
      Ops(r, who, did, i - 1) +
      if did[i - 1].Write? && who[i - 1] in r[i - 1].calls && r[i - 1].calls[who[i - 1]].Working?
      then [r[i - 1].calls[who[i - 1]].op] else []
  }

  lemma OneOp(m: map<Key, nat>, ops: seq<Set.Op>, op: Set.Op)
    ensures Set.AfterAll(m, ops + [op]) == Set.After(Set.AfterAll(m, ops), op)
    ensures Set.AfterAll(m, ops + []) == Set.AfterAll(m, ops) && ops + [] == ops
    ensures Set.NoRepeats(m, ops + [op]) <==> Set.NoRepeats(m, ops) && !Set.Repeats(Set.AfterAll(m, ops), op)
  {
    assert (ops + [op])[..|ops + [op]| - 1] == ops;
    assert ops + [] == ops;
    Set.OneMore(m, ops + [op], ops);
  }

  lemma {:induction false} NotYetMet(r: seq<System>, who: seq<Tid>, did: seq<Action>, i: nat, j: nat)
    requires Run(r, who, did) && i <= j < |r| && !r[j].met
    ensures !r[i].met
    decreases j
  {
    if i < j {
      assert Step(r[j - 1], who[j - 1], did[j - 1], r[j - 1 + 1]);
      if r[j - 1].met {
        MetStays(r[j - 1], who[j - 1], did[j - 1], r[j]);
      }
      NotYetMet(r, who, did, i, j - 1);
    }
  }

  /** In every run, up to and with the first insertion under a present key, the contents are
      those of a map after the same operations, one after another. */
  lemma {:induction false} ContentsFollow(r: seq<System>, who: seq<Tid>, did: seq<Action>, i: nat)
    requires Run(r, who, did) && i < |r| && (i > 0 ==> !r[i - 1].met)
    ensures Contents(r[i]) == Set.AfterAll(Contents(r[0]), Ops(r, who, did, i))
    ensures r[i].met <==> !Set.NoRepeats(Contents(r[0]), Ops(r, who, did, i))
  {
    hide Step, Inv, Contents, Set.After, Set.NoRepeats, Set.Repeats;
    if i == 0 {
      AtStart(r[0]);
      var none: seq<Set.Op> := [];
      Set.NoSteps(Contents(r[0]), none);
      assert none[..0] == none;
    } else {
      if i > 1 {
        NotYetMet(r, who, did, i - 2, i - 1);
      }
      ContentsFollow(r, who, did, i - 1);
      RunInv(r, who, did, i - 1);
      var s, t, a := r[i - 1], who[i - 1], did[i - 1];
      assert Step(r[i - 1], who[i - 1], did[i - 1], r[i - 1 + 1]);
      Steps(s, t, a, r[i]);
      StepLinearizes(s, t, a, r[i]);
      OneOp(Contents(r[0]), Ops(r, who, did, i - 1), if a.Write? then s.calls[t].op else Set.Count);
    }
  }

  /** met says whether there has been such an insertion. */
  lemma {:induction false} MetIs(r: seq<System>, who: seq<Tid>, did: seq<Action>, i: nat)
    requires Run(r, who, did) && i < |r|
    ensures r[i].met <==> !Set.NoRepeats(Contents(r[0]), Ops(r, who, did, i))
  {
    hide Step, Contents, Set.NoRepeats;
    if i == 0 || !r[i - 1].met {
      ContentsFollow(r, who, did, i);
    } else {
      MetIs(r, who, did, i - 1);
      assert Step(r[i - 1], who[i - 1], did[i - 1], r[i - 1 + 1]);
      MetStays(r[i - 1], who[i - 1], did[i - 1], r[i]);
      var ops, all := Ops(r, who, did, i - 1), Ops(r, who, did, i);
      MoreOps(Contents(r[0]), ops, all[|ops|..]);
      assert all == ops + all[|ops|..];
    }
  }

  lemma MetStays(s: System, t: Tid, a: Action, s': System)
    requires s.met && Step(s, t, a, s')
    ensures s'.met
  {
  }

  lemma MoreOps(m: map<Key, nat>, ops: seq<Set.Op>, more: seq<Set.Op>)
    requires !Set.NoRepeats(m, ops)
    ensures !Set.NoRepeats(m, ops + more)
  {
    assert (ops + more)[..|ops|] == ops;
    Set.RepeatSpoils(m, ops + more, |ops|);
  }

  /** Thread t enters no operation and returns from none after i and before j. */
  ghost predicate Quiet(who: seq<Tid>, did: seq<Action>, i: nat, j: nat, t: Tid)
    requires i < j <= |who| == |did|
  {
    forall k | i < k < j && who[k] == t :: !did[k].Invoke? && !did[k].Return?
  }

  /** t has called op at i and is still at it at j. */
  ghost predicate CalledAt(who: seq<Tid>, did: seq<Action>, i: nat, j: nat, t: Tid, op: Set.Op)
    requires j <= |who| == |did|
  {
    i < j && who[i] == t && did[i] == Invoke(op) && Quiet(who, did, i, j, t)
  }

  /** At k the body of t answers as the map does after the bodies before it. */
  ghost predicate AnsweredAt(r: seq<System>, who: seq<Tid>, did: seq<Action>, k: nat, t: Tid, op: Set.Op, answer: Set.Answer)
    requires |who| == |did| == |r| - 1
  {
    && k < |did| && who[k] == t && did[k].Write?
    && Ops(r, who, did, k + 1) == Ops(r, who, did, k) + [op]
    && Set.Answers(Set.AfterAll(Contents(r[0]), Ops(r, who, did, k)), op, answer)
  }

  /** What has happened to a call by the time it is where it is. */
  ghost predicate Story(r: seq<System>, who: seq<Tid>, did: seq<Action>, j: nat, t: Tid)
    requires j < |r| && |who| == |did| == |r| - 1
  {
    t in r[j].calls && r[j].calls[t] != Resting ==>
      var c := r[j].calls[t];
      exists i: nat ::
        && CalledAt(who, did, i, j, t, c.op)
        && (c.Leaving? || c.Left? ==> exists k | i < k < j :: AnsweredAt(r, who, did, k, t, c.op, c.answer))
  }

  lemma StoryStays(r: seq<System>, who: seq<Tid>, did: seq<Action>, j: nat, t: Tid)
    requires Run(r, who, did) && j + 1 < |r| && Story(r, who, did, j, t)
    requires t in r[j].calls && t in r[j + 1].calls && r[j].calls[t] != Resting && r[j + 1].calls[t] != Resting
    requires r[j + 1].calls[t].op == r[j].calls[t].op && !(who[j] == t && (did[j].Invoke? || did[j].Return?))
    requires var c, c' := r[j].calls[t], r[j + 1].calls[t];
      c'.Leaving? || c'.Left? ==>
        || ((c.Leaving? || c.Left?) && c'.answer == c.answer)
        || AnsweredAt(r, who, did, j, t, c'.op, c'.answer)
    ensures Story(r, who, did, j + 1, t)
  {
    hide Step, Ops, Set.AfterAll, Set.Answers, AnsweredAt;
    var c, c' := r[j].calls[t], r[j + 1].calls[t];
    var i: nat :| CalledAt(who, did, i, j, t, c.op)
      && (c.Leaving? || c.Left? ==> exists k | i < k < j :: AnsweredAt(r, who, did, k, t, c.op, c.answer));
    assert CalledAt(who, did, i, j + 1, t, c'.op);
    if (c.Leaving? || c.Left?) && (c'.Leaving? || c'.Left?) && c'.answer == c.answer {
      var k :| i < k < j && AnsweredAt(r, who, did, k, t, c.op, c.answer);
      assert i < k < j + 1;
    }
  }

  lemma CallSteps(s: System, t: Tid, a: Action, s': System, u: Tid)
    requires Inv(s) && !s.met && Step(s, t, a, s') && u in s'.calls && s'.calls[u] != Resting
    ensures u in s.calls
    ensures t == u && a.Invoke? ==> s'.calls[u] == Waiting(a.op)
    ensures !(t == u && a.Invoke?) ==>
      && s.calls[u] != Resting && s'.calls[u].op == s.calls[u].op && !(t == u && a.Return?)
      && (s'.calls[u].Leaving? || s'.calls[u].Left? ==>
            || ((s.calls[u].Leaving? || s.calls[u].Left?) && s'.calls[u].answer == s.calls[u].answer)
            || (t == u && a.Write? && s.calls[u].Working? && Set.Answers(Contents(s), s.calls[u].op, s'.calls[u].answer)))
  {
    hide *;
    OtherCalls(s, t, a, s');
    if t == u {
      OwnOp(s, t, a, s');
    }
    StepLinearizes(s, t, a, s');
    if t == u && !a.Write? {
      OwnPending(s, t, a, s');
      PendingIs(s.calls[u]);
      PendingIs(s'.calls[u]);
    }
  }

  lemma PendingIs(c: Call)
    ensures Pending(c) <==> c.Leaving? || c.Left?
  {
  }

  lemma OwnOp(s: System, t: Tid, a: Action, s': System)
    requires Step(s, t, a, s') && t in s.calls && t in s'.calls && s'.calls[t] != Resting
    ensures a.Invoke? ==> s'.calls[t] == Waiting(a.op)
    ensures !a.Invoke? ==> s.calls[t] != Resting && s'.calls[t].op == s.calls[t].op && !a.Return?
  {
  }

  lemma {:induction false} StoryHolds(r: seq<System>, who: seq<Tid>, did: seq<Action>, j: nat, t: Tid)
    requires Run(r, who, did) && j < |r| && !r[j].met
    ensures Story(r, who, did, j, t)
  {
    hide Step, Inv, Contents, Set.AfterAll, Set.Answers;
    if j == 0 {
      assert Init(r[0]);
    } else if t in r[j].calls && r[j].calls[t] != Resting {
      NotYetMet(r, who, did, j - 1, j);
      StoryHolds(r, who, did, j - 1, t);
      RunInv(r, who, did, j - 1);
      assert Step(r[j - 1], who[j - 1], did[j - 1], r[j - 1 + 1]);
      CallSteps(r[j - 1], who[j - 1], did[j - 1], r[j], t);
      if who[j - 1] == t && did[j - 1].Invoke? {
        assert CalledAt(who, did, j - 1, j, t, did[j - 1].op);
      } else {
        if j > 1 {
          NotYetMet(r, who, did, j - 2, j);
        }
        ContentsFollow(r, who, did, j - 1);
        StoryStays(r, who, did, j - 1, t);
      }
    }
  }

  /** The block of the item that the call found has not been freed since. */
  predicate Safe(s: System, t: Tid) {
    t in s.calls && s.calls[t].Left? && t !in s.stale
  }

  /** In every run in which no insertion has met a present key, an operation that returns has,
      between its call and its return, a moment at which its answer is the map's answer after
      the operations that took effect before; for set_find, as long as the block of the item
      it found has not been freed. */
  lemma Linearizable(r: seq<System>, who: seq<Tid>, did: seq<Action>, j: nat)
    requires Run(r, who, did) && j < |did| && did[j].Return? && Safe(r[j], who[j])
    requires Set.NoRepeats(Contents(r[0]), Ops(r, who, did, j))
    ensures var t, op := who[j], r[j].calls[who[j]].op;
      exists i: nat, k: nat :: i < k < j && CalledAt(who, did, i, j, t, op) && AnsweredAt(r, who, did, k, t, op, did[j].answer)
  {
    hide AnsweredAt, CalledAt, Set.NoRepeats;
    var t := who[j];
    MetIs(r, who, did, j);
    StoryHolds(r, who, did, j, t);
    RunInv(r, who, did, j);
    assert Step(r[j], t, did[j], r[j + 1]) && FoundOk(r[j], t);
    var c := r[j].calls[t];
    var i: nat :| CalledAt(who, did, i, j, t, c.op) && exists k | i < k < j :: AnsweredAt(r, who, did, k, t, c.op, c.answer);
    var k :| i < k < j && AnsweredAt(r, who, did, k, t, c.op, c.answer);
  }

  /** That condition is exact: the answer is certain to be the one decided in the body if and
      only if the block of the item found has not been freed since, or somebody else has it
      by now and happens to have written the same datum. */
  lemma SafeExactly(s: System, t: Tid)
    requires Inv(s) && !s.met && t in s.calls && s.calls[t].Left?
    ensures var c := s.calls[t];
      (forall answer, s' | Step(s, t, Return(answer), s') :: answer == c.answer) <==>
      Safe(s, t) || (c.item.To? && c.item.at !in s.freed && Told(c.op, c.item, s.items) == c.answer)
  {
    var c := s.calls[t];
    assert CallOk(s, t) && FoundOk(s, t);
    var s' := Goes(s, t, Resting).(stale := s.stale - {t});
    if t in s.stale {
      if c.item.at in s.freed {
        var wrong := Set.Lookup(true, if c.answer.Lookup? then c.answer.result + 1 else 0);
        assert Step(s, t, Return(wrong), s') && wrong != c.answer;
      } else if Told(c.op, c.item, s.items) != c.answer {
        assert Step(s, t, Return(Told(c.op, c.item, s.items)), s');
      }
    }
  }

  /** In every run without an insertion under a present key nothing is freed twice, and
      nothing that the tree refers to is free. */
  lemma TidyHolds(r: seq<System>, who: seq<Tid>, did: seq<Action>, i: nat)
    requires Run(r, who, did) && i < |r| && Set.NoRepeats(Contents(r[0]), Ops(r, who, did, i))
    ensures Tidy(r[i])
  {
    MetIs(r, who, did, i);
    RunInv(r, who, did, i);
  }

  /** A thread that keeps the lock around set_find reads no freed block. */
  lemma SafeUnderLock(s: System, t: Tid)
    requires Inv(s) && !s.met && t in s.calls && s.calls[t].Left? && Owns(s, t)
    ensures s.calls[t].op.Find? && s.calls[t].item.To? ==> Safe(s, t)
  {
    assert CallOk(s, t) && FoundOk(s, t);
  }

  // ---------- What can go wrong ----------

  /** From the call of op to its lock_post, with nobody else about, when malloc hands out a
      new block or a free one. */
  lemma BodyAlone(s: System, t: Tid, op: Set.Op, at: Addr) returns (r: seq<System>, did: seq<Action>)
    requires s.mutex == Free && !s.met && t in s.calls && s.calls[t] == Resting && op != Set.Count
    requires at in s.items ==> at in s.freed
    ensures |r| == 6 && |did| == 5 && r[0] == s && forall i | 0 <= i < 5 :: Step(r[i], t, did[i], r[i + 1])
    ensures did == [Invoke(op), Enter, Read, Write(at), Action.Leave]
    ensures var items, item := Allocated(op, s.items, at), Found(op, s.tree);
      r[5] == System(Free, Written(op, s.tree, at), items, if op.Insert? then s.freed - multiset{at} else s.freed,
                     s.calls[t := Left(op, item, Told(op, item, items))], op.Insert? && op.key in s.tree, s.stale)
  {
    var items, item, met := Allocated(op, s.items, at), Found(op, s.tree), op.Insert? && op.key in s.tree;
    var answer := Told(op, item, items);
    var s1, s2, s3 := EnterAlone(s, t, op);
    var s4 := Goes(s3, t, Leaving(op, item, answer))
                .(tree := Written(op, s.tree, at), items := items, freed := StillFree(op, s.freed, at), met := met);
    var s5 := Goes(s4, t, Left(op, item, answer)).(mutex := Free);
    did := [Invoke(op), Enter, Read, Write(at), Action.Leave];
    r := [s, s1, s2, s3, s4, s5];
    assert s4.freed == if op.Insert? then s.freed - multiset{at} else s.freed;
    WriteAlone(s3, t, at, s4);
    hide Allocated, Found, Told, Written, StillFree, Available;
    assert Step(s4, t, did[4], s5);
    hide Step;
  }

  lemma EnterAlone(s: System, t: Tid, op: Set.Op) returns (s1: System, s2: System, s3: System)
    requires s.mutex == Free && t in s.calls && s.calls[t] == Resting && op != Set.Count
    ensures Step(s, t, Invoke(op), s1) && Step(s1, t, Enter, s2) && Step(s2, t, Read, s3)
    ensures s3 == Goes(s, t, Working(op, s.tree)).(mutex := Held(t, 1))
  {
    s1 := Goes(s, t, Waiting(op));
    s2 := Goes(s1, t, Entered(op)).(mutex := Held(t, 1));
    s3 := Goes(s2, t, Working(op, s.tree));
  }

  lemma WriteAlone(s: System, t: Tid, at: Addr, s': System)
    requires t in s.calls && s.calls[t].Working? && s.calls[t].seen == s.tree && !s.met
    requires at in s.items ==> at in s.freed
    requires var op := s.calls[t].op; var items, item := Allocated(op, s.items, at), Found(op, s.tree);
      s' == Goes(s, t, Leaving(op, item, Told(op, item, items)))
              .(tree := Written(op, s.tree, at), items := items, freed := StillFree(op, s.freed, at),
                met := op.Insert? && op.key in s.tree)
    ensures Step(s, t, Write(at), s')
  {
    hide Allocated, Found, Told, Written, StillFree;
  }

  /** The call returns, and frees the block that it has to free. */
  lemma Returns(s: System, t: Tid) returns (s': System)
    requires t in s.calls && s.calls[t].Left?
    ensures var c := s.calls[t]; Step(s, t, Return(Told(c.op, c.item, s.items)), s')
    ensures s' == if Frees(s.calls[t])
                  then Goes(s, t, Resting).(freed := s.freed + multiset{s.calls[t].item.at},
                                            stale := s.stale - {t} + Readers(s, s.calls[t].item.at))
                  else Goes(s, t, Resting).(stale := s.stale - {t})
  {
    s' := if Frees(s.calls[t])
          then Goes(s, t, Resting).(freed := s.freed + multiset{s.calls[t].item.at},
                                    stale := s.stale - {t} + Readers(s, s.calls[t].item.at))
          else Goes(s, t, Resting).(stale := s.stale - {t});
  }

  /** Thread 1 looks for a key and has left the lock; thread 2 removes the entry and frees
      the item; what thread 1 then reads is anything. */
  lemma UnsafeFind() returns (r: seq<System>, who: seq<Tid>, did: seq<Action>)
    ensures Run(r, who, did) && |r| == 12 && 1 in r[11].calls && r[11].calls[1].Left? && !Safe(r[11], 1)
    ensures r[11].calls[1].item.To? && r[11].calls[1].item.at in r[11].freed
  {
    hide Step;
    var t1: Tid, t2: Tid := 1, 2;
    var s0 := System(Free, map[7 := 1], map[1 := Record(7, 5)], multiset{}, map[t1 := Resting, t2 := Resting], false, {});
    var a, didA := BodyAlone(s0, t1, Set.Find(7), 2);
    var b, didB := BodyAlone(a[5], t2, Set.Remove(7), 2);
    var s := b[5];
    assert s.calls[t2] == Left(Set.Remove(7), To(1), Set.Flag(true));
    assert Reads(s.calls[t1], 1);
    var last := Returns(s, t2);
    r := a + b[1..] + [last];
    who := [t1, t1, t1, t1, t1, t2, t2, t2, t2, t2, t2];
    did := didA + didB + [Return(Set.Flag(true))];
    forall i | 0 <= i < 11 ensures Step(r[i], who[i], did[i], r[i + 1]) {
      if i < 5 {
        assert Step(a[i], t1, didA[i], a[i + 1]);
      } else if i < 10 {
        assert Step(b[i - 5], t2, didB[i - 5], b[i - 5 + 1]);
      }
    }
  }

  /** After an insertion under a present key has returned, anybody may be handed out the block
      to which the tree refers under that key, and write anything to it. */
  lemma RepeatLosesEntry(s: System, t: Tid, holds: Record) returns (s': System, s'': System)
    requires t in s.calls && s.calls[t].Left? && s.calls[t].op.Insert? && s.calls[t].item.To?
    requires s.calls[t].op.key in s.tree && s.tree[s.calls[t].op.key] == s.calls[t].item.at
    ensures Step(s, t, Return(Set.Flag(false)), s') && Step(s', t, Action.Take(s.calls[t].item.at, holds), s'')
    ensures var k := s.calls[t].op.key; k in s''.tree && s''.items[s''.tree[k]] == holds
  {
    s' := Returns(s, t);
    var a := s.calls[t].item.at;
    s'' := s'.(items := s'.items[a := holds], freed := s'.freed - multiset{a});
  }
}
