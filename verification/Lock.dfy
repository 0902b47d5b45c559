/** The re-entrant lock of common/lock.c as the interleaved steps of any number of threads. */
module Lock {
  // Every access to the shared words owner and cnt is a step of its own, so cnt++ and
  // --cnt are a load and a store, and the two tests of line 85 read owner twice.  A step
  // is atomic and its effect is seen by all threads at once.  Threads use the lock in
  // balanced fashion: one posts only while it is inside.

  /** pthread_self(), which lock_wait and lock_post assert to be non-zero. */
  type Tid = t: int | t != 0 witness 1

  /** Where a thread is.  tmp is the value it has loaded from cnt. */
  datatype Pc =
    | Outside                  // in the caller's code
    | TestFree                 // line 85, first operand
    | TestOther                // line 85, second operand
    | Wait                     // line 87
    | Recheck                  // line 88
    | Take                     // line 89
    | LoadInc                  // line 91
    | StoreInc(tmp: int)
    | CheckOwner               // line 101
    | LoadDec                  // line 102
    | StoreDec(tmp: int)
    | Leave                    // line 104
    | Post                     // line 105
    | Failed                   // the assert of line 101

  /** depth is a history variable: how often the thread has come back from lock_wait and
      not yet left again. */
  datatype Thread = Thread(pc: Pc, depth: nat)

  datatype State = State(owner: int, cnt: int, sem: nat, threads: map<Tid, Thread>)

  ghost predicate Init(s: State) {
    s.owner == 0 && s.cnt == 0 && s.sem == 1 && forall t | t in s.threads :: s.threads[t] == Thread(Outside, 0)
  }

  function At(s: State, t: Tid, pc: Pc): State
    requires t in s.threads
  {
    s.(threads := s.threads[t := s.threads[t].(pc := pc)])
  }

  function Into(s: State, t: Tid, depth: nat, pc: Pc): State {
    s.(threads := s.threads[t := Thread(pc, depth)])
  }

  /** One step of thread t. */
  ghost predicate Step(s: State, t: Tid, s': State) {
    t in s.threads &&
    var Thread(pc, depth) := s.threads[t];
    match pc
    case Outside => s' == At(s, t, TestFree) || (depth > 0 && s' == At(s, t, CheckOwner))
    case TestFree => s' == At(s, t, if s.owner == 0 then Wait else TestOther)
    case TestOther => s' == At(s, t, if s.owner != t then Wait else LoadInc)
    case Wait => s.sem > 0 && s' == At(s, t, Recheck).(sem := s.sem - 1)
    case Recheck => s' == At(s, t, if s.owner == 0 then Take else LoadInc)
    case Take => s' == At(s, t, LoadInc).(owner := t)
    case LoadInc => s' == At(s, t, StoreInc(s.cnt))
    case StoreInc(tmp) => s' == Into(s, t, depth + 1, Outside).(cnt := tmp + 1)
    case CheckOwner => s' == At(s, t, if s.owner == t then LoadDec else Failed)
    case LoadDec => s' == At(s, t, StoreDec(s.cnt))
    case StoreDec(tmp) => depth > 0 && s' == Into(s, t, depth - 1, if tmp - 1 == 0 then Leave else Outside).(cnt := tmp - 1)
    case Leave => s' == At(s, t, Post).(owner := 0)
    case Post => s' == At(s, t, Outside).(sem := s.sem + 1)
    case Failed => false
  }

  ghost predicate Next(s: State, s': State) {
    exists t: Tid :: Step(s, t, s')
  }

  ghost predicate Run(r: seq<State>) {
    |r| > 0 && Init(r[0]) && forall i | 0 <= i < |r| - 1 :: Next(r[i], r[i + 1])
  }

  // ---------- The invariant ----------

  /** t has decremented the semaphore and not yet incremented it again. */
  predicate Holds(s: State, t: Tid) {
    t in s.threads && (s.threads[t].depth > 0 || s.threads[t].pc in {Recheck, Take, LoadInc, Leave, Post} || s.threads[t].pc.StoreInc?)
  }

  /** What the shared words are while t is where it is. */
  predicate Local(s: State, t: Tid)
    requires t in s.threads
  {
    var Thread(pc, depth) := s.threads[t];
    match pc
    case Outside | TestFree | TestOther => depth > 0 ==> s.owner == t && s.cnt == depth
    case Wait => depth == 0
    case Recheck | Take | Post => depth == 0 && s.owner == 0 && s.cnt == 0
    case LoadInc => s.owner == t && s.cnt == depth
    case StoreInc(tmp) => s.owner == t && s.cnt == depth == tmp
    case CheckOwner | LoadDec => depth > 0 && s.owner == t && s.cnt == depth
    case StoreDec(tmp) => depth > 0 && s.owner == t && s.cnt == depth == tmp
    case Leave => depth == 0 && s.owner == t && s.cnt == 0
    case Failed => false
  }

  /** Who, if anyone, holds the semaphore. */
  datatype Holder = Nobody | Somebody(t: Tid)

  ghost predicate HeldBy(s: State, h: Holder) {
    && (forall t: Tid :: Holds(s, t) <==> h == Somebody(t))
    && s.sem == (if h == Nobody then 1 else 0)
    && (h == Nobody ==> s.owner == 0 && s.cnt == 0)
    && (s.owner != 0 ==> h == Somebody(s.owner))
  }

  ghost predicate Inv(s: State) {
    (exists h :: HeldBy(s, h)) && forall t | t in s.threads :: Local(s, t)
  }

  lemma InitInv(s: State)
    requires Init(s)
    ensures Inv(s)
  {
    assert HeldBy(s, Nobody);
  }

  /** Who holds the semaphore after a step of t. */
  function HolderAfter(s: State, t: Tid, h: Holder): Holder
    requires t in s.threads
  {
    match s.threads[t].pc
    case Wait => Somebody(t)
    case Post => Nobody
    case _ => h
  }

  lemma StepHolder(s: State, t: Tid, s': State, h: Holder)
    requires HeldBy(s, h) && (forall u | u in s.threads :: Local(s, u)) && Step(s, t, s')
    ensures HeldBy(s', HolderAfter(s, t, h))
  {
    assert Local(s, t);
    var h' := HolderAfter(s, t, h);
    forall u: Tid ensures Holds(s', u) <==> h' == Somebody(u) {
      assert Holds(s, u) <==> h == Somebody(u);
      assert Holds(s, t) <==> h == Somebody(t);
      if u != t {
        assert u in s'.threads <==> u in s.threads;
      }
    }
  }

  lemma StepLocal(s: State, t: Tid, s': State, h: Holder, u: Tid)
    requires HeldBy(s, h) && (forall u | u in s.threads :: Local(s, u)) && Step(s, t, s') && u in s'.threads
    ensures Local(s', u)
  {
    assert Local(s, t);
    assert Holds(s, t) <==> h == Somebody(t);
    if u != t {
      assert Local(s, u) && s'.threads[u] == s.threads[u];
      assert Holds(s, u) <==> h == Somebody(u);
    }
  }

  lemma StepInv(s: State, t: Tid, s': State)
    requires Inv(s) && Step(s, t, s')
    ensures Inv(s')
  {
    var h :| HeldBy(s, h);
    StepHolder(s, t, s', h);
    forall u | u in s'.threads ensures Local(s', u) {
      StepLocal(s, t, s', h, u);
    }
  }

  /** The invariant holds throughout every run. */
  lemma {:induction false} RunInv(r: seq<State>, i: nat)
    requires Run(r) && i < |r|
    ensures Inv(r[i])
  {
    if i == 0 {
      InitInv(r[0]);
    } else {
      RunInv(r, i - 1);
      assert Next(r[i - 1], r[i - 1 + 1]);
      var t: Tid :| Step(r[i - 1], t, r[i]);
      StepInv(r[i - 1], t, r[i]);
    }
  }

  // ---------- What callers rely on ----------

  /** t is between a lock_wait and the lock_post that matches it. */
  predicate Inside(s: State, t: Tid) {
    t in s.threads && s.threads[t].depth > 0
  }

  ghost function Holders(s: State): set<Tid> {
    set t | t in s.threads && Holds(s, t)
  }

  /** At most one thread is inside, the semaphore and its holders add up to one, cnt is the
      nesting depth of whoever is inside, and no assert has failed. */
  lemma MutualExclusion(r: seq<State>, i: nat)
    requires Run(r) && i < |r|
    ensures forall t: Tid, u: Tid | Inside(r[i], t) && Inside(r[i], u) :: t == u
    ensures r[i].sem + |Holders(r[i])| == 1
    ensures forall t: Tid | Inside(r[i], t) :: r[i].owner == t && r[i].cnt == r[i].threads[t].depth
    ensures forall t: Tid | t in r[i].threads :: r[i].threads[t].pc != Failed
  {
    RunInv(r, i);
    var s := r[i];
    var h :| HeldBy(s, h);
    forall t: Tid, u: Tid | Inside(s, t) && Inside(s, u) ensures t == u {
      assert Holds(s, t) && Holds(s, u);
    }
    forall t: Tid | Inside(s, t) ensures s.owner == t && s.cnt == s.threads[t].depth {
      assert Local(s, t) && Holds(s, t);
    }
    assert forall t | t in s.threads :: Local(s, t);
    match h
    case Nobody => assert Holders(s) == {};
    case Somebody(t) =>
      assert Holds(s, t);
      assert Holders(s) == {t};
  }

  /** The unprotected reads of owner do no harm.  On line 85 a thread finds itself there
      exactly when it is inside already, whatever other threads write meanwhile; on line 88
      the re-check after the semaphore always succeeds; and whoever is about to touch cnt
      or to write owner is the only holder. */
  lemma RacesAreBenign(r: seq<State>, i: nat, t: Tid)
    requires Run(r) && i < |r| && t in r[i].threads
    ensures r[i].threads[t].pc in {TestFree, TestOther, CheckOwner} ==> (r[i].owner == t <==> Inside(r[i], t))
    ensures r[i].threads[t].pc == Recheck ==> r[i].owner == 0
    ensures var pc := r[i].threads[t].pc;
            pc in {Take, LoadInc, LoadDec, Leave, Post} || pc.StoreInc? || pc.StoreDec? ==> Holders(r[i]) == {t}
  {
    RunInv(r, i);
    var s := r[i];
    var h :| HeldBy(s, h);
    assert Local(s, t);
    assert Holds(s, t) <==> h == Somebody(t);
    assert Holders(s) <= {if h.Somebody? then h.t else t};
  }

  /** A thread can take its next step unless it waits for the semaphore. */
  predicate Enabled(s: State, t: Tid) {
    t in s.threads && (s.threads[t].pc == Wait ==> s.sem > 0)
  }

  lemma EnabledSteps(s: State, t: Tid)
    requires Inv(s) && Enabled(s, t)
    ensures exists s' :: Step(s, t, s')
  {
    assert Local(s, t);
    var Thread(pc, depth) := s.threads[t];
    match pc
    case Outside => assert Step(s, t, At(s, t, TestFree));
    case TestFree => assert Step(s, t, At(s, t, if s.owner == 0 then Wait else TestOther));
    case TestOther => assert Step(s, t, At(s, t, if s.owner != t then Wait else LoadInc));
    case Wait => assert Step(s, t, At(s, t, Recheck).(sem := s.sem - 1));
    case Recheck => assert Step(s, t, At(s, t, if s.owner == 0 then Take else LoadInc));
    case Take => assert Step(s, t, At(s, t, LoadInc).(owner := t));
    case LoadInc => assert Step(s, t, At(s, t, StoreInc(s.cnt)));
    case StoreInc(tmp) => assert Step(s, t, Into(s, t, depth + 1, Outside).(cnt := tmp + 1));
    case CheckOwner => assert Step(s, t, At(s, t, if s.owner == t then LoadDec else Failed));
    case LoadDec => assert Step(s, t, At(s, t, StoreDec(s.cnt)));
    case StoreDec(tmp) =>
      assert Step(s, t, Into(s, t, depth - 1, if tmp - 1 == 0 then Leave else Outside).(cnt := tmp - 1));
    case Leave => assert Step(s, t, At(s, t, Post).(owner := 0));
    case Post => assert Step(s, t, At(s, t, Outside).(sem := s.sem + 1));
  }

  /** The lock does not deadlock by itself: when a thread is inside lock_wait or lock_post,
      some thread there can step, or somebody is inside and in the caller's code. */
  lemma NoDeadlock(r: seq<State>, i: nat, t: Tid)
    requires Run(r) && i < |r| && t in r[i].threads && r[i].threads[t].pc != Outside
    ensures exists u: Tid, s' :: (u in r[i].threads && r[i].threads[u].pc != Outside && Step(r[i], u, s'))
                              || (Inside(r[i], u) && r[i].threads[u].pc == Outside)
  {
    RunInv(r, i);
    var s := r[i];
    var h :| HeldBy(s, h);
    if Enabled(s, t) {
      EnabledSteps(s, t);
      var s' :| Step(s, t, s');
    } else {
      assert Holds(s, h.t) && Local(s, h.t);
      EnabledSteps(s, h.t);
      var s' :| Step(s, h.t, s');
      assert s.threads[h.t].pc != Outside || Inside(s, h.t);
    }
  }

  // ---------- The re-entrant mutex that the lock implements ----------

  datatype Mutex = Free | Held(tid: Tid, times: nat)

  ghost function Abstract(s: State): Mutex {
    if t: Tid :| Inside(s, t) then Held(t, s.threads[t].depth) else Free
  }

  predicate Acquire(a: Mutex, t: Tid, a': Mutex) {
    match a
    case Free => a' == Held(t, 1)
    case Held(tid, n) => tid == t && a' == Held(t, n + 1)
  }

  predicate Release(a: Mutex, t: Tid, a': Mutex) {
    a.Held? && a.tid == t && a.times > 0 && a' == if a.times == 1 then Free else Held(t, a.times - 1)
  }

  lemma AbstractIs(s: State, t: Tid)
    requires Inv(s)
    ensures Inside(s, t) ==> Abstract(s) == Held(t, s.threads[t].depth)
    ensures (forall u: Tid :: !Inside(s, u)) ==> Abstract(s) == Free
  {
    var h :| HeldBy(s, h);
    forall u: Tid | Inside(s, u) ensures h == Somebody(u) {
      assert Holds(s, u);
    }
  }

  /** Every step is invisible to the mutex, but for the one that completes a lock_wait,
      which acquires, and the decrement in lock_post, which releases. */
  lemma StepRefines(s: State, t: Tid, s': State)
    requires Inv(s) && Step(s, t, s')
    ensures match s.threads[t].pc
            case StoreInc(_) => Acquire(Abstract(s), t, Abstract(s'))
            case StoreDec(_) => Release(Abstract(s), t, Abstract(s'))
            case _ => Abstract(s') == Abstract(s)
  {
    StepInv(s, t, s');
    AbstractIs(s', t);
    AbstractIs(s, t);
    var h :| HeldBy(s, h);
    assert Local(s, t);
    assert Holds(s, t) <==> h == Somebody(t);
    forall u: Tid | u != t ensures Inside(s', u) <==> Inside(s, u) {
    }
    forall u: Tid | Inside(s, u) ensures h == Somebody(u) {
      assert Holds(s, u);
    }
    if u: Tid :| Inside(s, u) {
      AbstractIs(s, u);
      AbstractIs(s', u);
    }
  }

  ghost predicate MutexNext(a: Mutex, a': Mutex) {
    a' == a || exists t: Tid :: Acquire(a, t, a') || Release(a, t, a')
  }

  /** Every run of the lock is a run of the mutex. */
  lemma RunRefines(r: seq<State>, i: nat)
    requires Run(r) && i + 1 < |r|
    ensures Abstract(r[0]) == Free && MutexNext(Abstract(r[i]), Abstract(r[i + 1]))
  {
    RunInv(r, 0);
    RunInv(r, i);
    assert Next(r[i], r[i + 1]);
    var t: Tid :| Step(r[i], t, r[i + 1]);
    StepRefines(r[i], t, r[i + 1]);
  }

  // ---------- The lock as one thread sees it ----------

  /** struct _lock while no thread is in the middle of lock_wait or lock_post. */
  class ReentrantLock {
    var owner: int
    var cnt: int
    var sem: nat

    ghost predicate Valid()
      reads this
    {
      if owner == 0 then cnt == 0 && sem == 1 else cnt > 0 && sem == 0
    }

    ghost function Mutex(): Mutex
      reads this
      requires Valid()
    {
      if owner == 0 then Free else Held(owner, cnt)
    }

    /** lock_wait would not block the thread. */
    ghost predicate Open(self: Tid)
      reads this
      requires Valid()
    {
      Mutex().Held? ==> Mutex().tid == self
    }

    /** After lock_wait the thread may post, and posting restores the mutex. */
    lemma Acquired(before: Mutex, self: Tid)
      requires Valid() && Acquire(before, self, Mutex()) && (before.Held? ==> before.times > 0)
      ensures Mutex().Held? && Mutex().tid == self && Open(self)
      ensures forall a: Mutex :: Release(Mutex(), self, a) <==> a == before
    {
    }

    /** lock_create, lines 34-52. */
    constructor ()
      ensures Valid() && Mutex() == Free
    {
      owner, cnt, sem := 0, 0, 1;
    }

    /** lock_wait, lines 79-93, when it need not wait. */
    method Wait(self: Tid)
      requires Valid() && Open(self)
      modifies this
      ensures Valid() && Acquire(old(Mutex()), self, Mutex())
    {
      if owner == 0 || owner != self {
        sem := sem - 1;
        if owner == 0 {
          owner := self;
        }
      }
      cnt := cnt + 1;
    }

    /** lock_post, lines 95-107. */
    method Post(self: Tid)
      requires Valid() && Mutex().Held? && Mutex().tid == self
      modifies this
      ensures Valid() && Release(old(Mutex()), self, Mutex())
    {
      assert owner == self;
      cnt := cnt - 1;
      if cnt == 0 {
        owner := 0;
        sem := sem + 1;
      }
    }
  }

  /** While every thread is in its caller's code, the shared words are those of a
      ReentrantLock with the same mutex. */
  lemma QuietIsObject(r: seq<State>, i: nat)
    requires Run(r) && i < |r| && forall t | t in r[i].threads :: r[i].threads[t].pc == Outside
    ensures var s := r[i];
      if s.owner == 0 then s.cnt == 0 && s.sem == 1 && Abstract(s) == Free
      else s.cnt > 0 && s.sem == 0 && Abstract(s) == Held(s.owner, s.cnt)
  {
    RunInv(r, i);
    var s := r[i];
    var h :| HeldBy(s, h);
    AbstractIs(s, if h.Somebody? then h.t else 1);
    match h
    case Nobody =>
      forall u: Tid ensures !Inside(s, u) {
        assert !Holds(s, u);
      }
    case Somebody(t) => assert Holds(s, t) && Local(s, t);
  }
}
