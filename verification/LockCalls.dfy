/** What whole calls of lock_wait and lock_post do, in any interleaving of common/lock.c:79-107
    and alone. */
module LockCalls {
  import opened Lock

  // ---------- Calls, read off the program counters ----------

  datatype Call = NoCall | InWait | InPost

  function PcOf(s: State, t: Tid): Pc {
    if t in s.threads then s.threads[t].pc else Outside
  }

  /** Leaving the caller's code enters a function; coming back completes it. */
  function CallAfter(c: Call, pc: Pc, pc': Pc): Call {
    if pc' == Outside then NoCall
    else if pc == Outside then (if pc' == TestFree then InWait else InPost)
    else c
  }

  /** The call that t is in at i. */
  function Doing(r: seq<State>, t: Tid, i: nat): Call
    requires i < |r|
  {
    if i == 0 then NoCall else CallAfter(Doing(r, t, i - 1), PcOf(r[i - 1], t), PcOf(r[i], t))
  }

  /** At step i, t comes back from a call of kind c. */
  predicate Completes(r: seq<State>, t: Tid, i: nat, c: Call)
    requires i + 1 < |r|
  {
    PcOf(r[i], t) != Outside && PcOf(r[i + 1], t) == Outside && Doing(r, t, i) == c
  }

  /** How many calls of a kind t has completed by i. */
  function Completed(r: seq<State>, t: Tid, i: nat, c: Call): nat
    requires i < |r|
  {
    if i == 0 then 0 else Completed(r, t, i - 1, c) + if Completes(r, t, i - 1, c) then 1 else 0
  }

  // ---------- What the mutex has seen ----------

  ghost predicate Acquires(r: seq<State>, t: Tid, i: nat)
    requires i + 1 < |r|
  {
    Acquire(Abstract(r[i]), t, Abstract(r[i + 1]))
  }

  ghost predicate Releases(r: seq<State>, t: Tid, i: nat)
    requires i + 1 < |r|
  {
    Release(Abstract(r[i]), t, Abstract(r[i + 1]))
  }

  ghost function Acquired(r: seq<State>, t: Tid, i: nat): nat
    requires i < |r|
  {
    if i == 0 then 0 else Acquired(r, t, i - 1) + if Acquires(r, t, i - 1) then 1 else 0
  }

  ghost function Released(r: seq<State>, t: Tid, i: nat): nat
    requires i < |r|
  {
    if i == 0 then 0 else Released(r, t, i - 1) + if Releases(r, t, i - 1) then 1 else 0
  }

  /** A thread acquires in the step that completes its lock_wait, releases in the decrement of
      its lock_post, and at no other. */
  lemma StepActs(s: State, u: Tid, s': State, t: Tid)
    requires Inv(s) && Step(s, u, s')
    ensures Acquire(Abstract(s), t, Abstract(s')) <==> u == t && s.threads[u].pc.StoreInc?
    ensures Release(Abstract(s), t, Abstract(s')) <==> u == t && s.threads[u].pc.StoreDec?
  {
    StepRefines(s, u, s');
    hide Inv, Step, Abstract;
  }

  // ---------- The ledger ----------

  /** Where t is in its call, how deep it is inside, and what has been acquired and released. */
  ghost predicate Ledger(r: seq<State>, t: Tid, i: nat)
    requires i < |r|
  {
    t in r[i].threads &&
    var Thread(pc, depth) := r[i].threads[t];
    var waits, posts := Completed(r, t, i, InWait), Completed(r, t, i, InPost);
    var past := pc == Leave || pc == Post;
    && Doing(r, t, i) == (if pc == Outside then NoCall
                          else if past || pc == CheckOwner || pc == LoadDec || pc.StoreDec? then InPost else InWait)
    && Acquired(r, t, i) == waits && Released(r, t, i) == posts + (if past then 1 else 0)
    && depth + posts + (if past then 1 else 0) == waits && pc != Failed
  }

  lemma ThreadsStay(r: seq<State>, t: Tid, i: nat)
    requires Run(r) && i + 1 < |r|
    ensures t in r[i].threads <==> t in r[i + 1].threads
  {
    assert Next(r[i], r[i + 1]);
  }

  /** A step of another thread is none of t's. */
  lemma LedgerOther(r: seq<State>, t: Tid, i: nat, u: Tid)
    requires i + 1 < |r| && Ledger(r, t, i) && Inv(r[i]) && Step(r[i], u, r[i + 1]) && u != t
    ensures Ledger(r, t, i + 1)
  {
    StepActs(r[i], u, r[i + 1], t);
    assert r[i + 1].threads[t] == r[i].threads[t];
  }

  lemma LedgerOwn(r: seq<State>, t: Tid, i: nat)
    requires i + 1 < |r| && Ledger(r, t, i) && Inv(r[i]) && Step(r[i], t, r[i + 1])
    ensures Ledger(r, t, i + 1)
  {
    hide Step, Inv, Abstract, Acquire, Release;
    StepActs(r[i], t, r[i + 1], t);
    OwnStep(r[i], t, r[i + 1]);
  }

  /** Where a thread goes from where it is, and how its depth changes. */
  lemma OwnStep(s: State, t: Tid, s': State)
    requires Inv(s) && Step(s, t, s')
    ensures t in s.threads && t in s'.threads && s'.threads[t].pc != Failed
    ensures var Thread(pc, depth) := s.threads[t]; var Thread(pc', depth') := s'.threads[t];
      && depth' == (if pc.StoreInc? then depth + 1 else if pc.StoreDec? then depth - 1 else depth)
      && (pc == Outside ==> pc' == TestFree || pc' == CheckOwner)
      && (pc == CheckOwner ==> pc' == LoadDec) && (pc == LoadDec ==> pc'.StoreDec?)
      && (pc.StoreDec? ==> pc' == Leave || pc' == Outside) && (pc == Leave ==> pc' == Post) && (pc == Post ==> pc' == Outside)
      && (pc.StoreInc? ==> pc' == Outside)
      && (pc in {TestFree, TestOther, Wait, Recheck, Take, LoadInc} ==>
            pc' in {TestOther, Wait, Recheck, Take, LoadInc} || pc'.StoreInc?)
  {
    assert Local(s, t);
    hide Inv;
  }

  lemma {:induction false} LedgerHolds(r: seq<State>, t: Tid, i: nat)
    requires Run(r) && i < |r| && t in r[i].threads
    ensures Ledger(r, t, i)
  {
    hide Step, Inv, Ledger;
    if i == 0 {
      LedgerAtStart(r, t);
    } else {
      ThreadsStay(r, t, i - 1);
      LedgerHolds(r, t, i - 1);
      RunInv(r, i - 1);
      assert Next(r[i - 1], r[i - 1 + 1]);
      var u: Tid :| Step(r[i - 1], u, r[i]);
      if u == t {
        LedgerOwn(r, t, i - 1);
      } else {
        LedgerOther(r, t, i - 1, u);
      }
    }
  }

  lemma LedgerAtStart(r: seq<State>, t: Tid)
    requires Run(r) && t in r[0].threads
    ensures Ledger(r, t, 0)
  {
  }

  /** In every run, whenever t is in its own code, it is inside as often as it has come back
      from lock_wait and not from lock_post, and it has acquired and released the mutex once
      for each of these calls. */
  lemma CallsAddUp(r: seq<State>, t: Tid, i: nat)
    requires Run(r) && i < |r| && t in r[i].threads && r[i].threads[t].pc == Outside
    ensures r[i].threads[t].depth == Completed(r, t, i, InWait) - Completed(r, t, i, InPost)
    ensures Acquired(r, t, i) == Completed(r, t, i, InWait) && Released(r, t, i) == Completed(r, t, i, InPost)
  {
    LedgerHolds(r, t, i);
  }

  // ---------- One call ----------

  /** t enters a call of kind c at i, and comes back from it at j. */
  ghost predicate CallFrom(r: seq<State>, t: Tid, i: nat, j: nat, c: Call)
    requires i + 1 < j < |r|
  {
    && PcOf(r[i], t) == Outside && PcOf(r[i + 1], t) == (if c == InWait then TestFree else CheckOwner)
    && PcOf(r[j], t) == Outside && forall k | i < k < j :: PcOf(r[k], t) != Outside
  }

  lemma {:induction false} CompletedNone(r: seq<State>, t: Tid, i: nat, k: nat, c: Call, d: Call)
    requires i < k < |r| && PcOf(r[i], t) == Outside && (forall l | i < l <= k :: PcOf(r[l], t) != Outside)
    requires c != NoCall && PcOf(r[i + 1], t) == (if c == InWait then TestFree else CheckOwner)
    ensures Doing(r, t, k) == c && Completed(r, t, k, d) == Completed(r, t, i, d)
    decreases k
  {
    if k > i + 1 {
      CompletedNone(r, t, i, k - 1, c, d);
    }
  }

  lemma CompletedOne(r: seq<State>, t: Tid, i: nat, j: nat, c: Call, d: Call)
    requires i + 1 < j < |r| && CallFrom(r, t, i, j, c) && c != NoCall
    ensures Completed(r, t, j, d) == Completed(r, t, i, d) + if c == d then 1 else 0
  {
    CompletedNone(r, t, i, j - 1, c, d);
  }

  /** Between the entry and the return of each lock_wait its thread acquires the mutex exactly
      once and never releases it; of each lock_post it is the other way round. */
  lemma EachCallActsOnce(r: seq<State>, t: Tid, i: nat, j: nat, c: Call)
    requires Run(r) && i + 1 < j < |r| && t in r[i].threads && t in r[j].threads && c != NoCall && CallFrom(r, t, i, j, c)
    ensures Acquired(r, t, j) == Acquired(r, t, i) + if c == InWait then 1 else 0
    ensures Released(r, t, j) == Released(r, t, i) + if c == InPost then 1 else 0
    ensures r[j].threads[t].depth == r[i].threads[t].depth + if c == InWait then 1 else -1
  {
    CallsAddUp(r, t, i);
    CallsAddUp(r, t, j);
    CompletedOne(r, t, i, j, c, InWait);
    CompletedOne(r, t, i, j, c, InPost);
  }

  // ---------- Calls with nobody else about ----------

  /** The shared words are those of the object, and every thread is in its own code. */
  ghost predicate Quiet(s: State, l: ReentrantLock)
    reads l
  {
    s.owner == l.owner && s.cnt == l.cnt && s.sem == l.sem && forall t | t in s.threads :: s.threads[t].pc == Outside
  }

  /** One thread takes all steps of r. */
  ghost predicate Alone(r: seq<State>, t: Tid) {
    |r| > 0 && forall i | 0 <= i < |r| - 1 :: Step(r[i], t, r[i + 1])
  }

  lemma Longer(r: seq<State>, t: Tid, s: State)
    requires Alone(r, t) && Step(r[|r| - 1], t, s)
    ensures Alone(r + [s], t)
  {
    var q := r + [s];
    forall i | 0 <= i < |q| - 1 ensures Step(q[i], t, q[i + 1]) {
      if i < |r| - 1 {
        assert q[i] == r[i] && q[i + 1] == r[i + 1] && Step(r[i], t, r[i + 1]);
      }
    }
  }

  /** The steps of lock_wait when it need not wait, up to the load of cnt. */
  lemma UpToLoad(s: State, t: Tid) returns (r: seq<State>)
    requires t in s.threads && s.threads[t].pc == Outside && (s.owner == t || (s.owner == 0 && s.sem > 0))
    ensures Alone(r, t) && r[0] == s
    ensures r[|r| - 1] == At(s, t, LoadInc).(owner := t, sem := if s.owner == 0 then s.sem - 1 else s.sem)
    ensures |r| >= 3 && r[1] == At(s, t, TestFree) && forall i | 0 < i < |r| :: PcOf(r[i], t) != Outside
  {
    var s1 := At(s, t, TestFree);
    if s.owner == 0 {
      var s2 := At(s1, t, Wait);
      var s3 := At(s2, t, Recheck).(sem := s.sem - 1);
      var s4 := At(s3, t, Take);
      var s5 := At(s4, t, LoadInc).(owner := t);
      r := [s, s1, s2, s3, s4, s5];
    } else {
      var s2 := At(s1, t, TestOther);
      var s3 := At(s2, t, LoadInc);
      r := [s, s1, s2, s3];
    }
  }

  /** lock_wait as the object runs it is a lock_wait of the interleaved lock that nobody
      disturbs: the same words afterwards. */
  method WaitAlone(l: ReentrantLock, t: Tid, ghost s: State) returns (ghost r: seq<State>)
    requires l.Valid() && l.Open(t) && Quiet(s, l) && t in s.threads
    modifies l
    ensures Alone(r, t) && |r| > 2 && r[0] == s && r[1] == At(s, t, TestFree)
    ensures forall i | 0 < i < |r| - 1 :: PcOf(r[i], t) != Outside
    ensures Quiet(r[|r| - 1], l) && r[|r| - 1].threads == s.threads[t := Thread(Outside, s.threads[t].depth + 1)]
    ensures l.Valid() && Acquire(old(l.Mutex()), t, l.Mutex())
  {
    ghost var q := UpToLoad(s, t);
    ghost var a := q[|q| - 1];
    ghost var b := At(a, t, StoreInc(a.cnt));
    ghost var c := Into(b, t, s.threads[t].depth + 1, Outside).(cnt := a.cnt + 1);
    Longer(q, t, b);
    Longer(q + [b], t, c);
    r := q + [b] + [c];
    l.Wait(t);
  }

  /** And so is lock_post. */
  method PostAlone(l: ReentrantLock, t: Tid, ghost s: State) returns (ghost r: seq<State>)
    requires l.Valid() && l.Mutex().Held? && l.Mutex().tid == t && Quiet(s, l) && t in s.threads && s.threads[t].depth > 0
    modifies l
    ensures Alone(r, t) && |r| > 2 && r[0] == s && r[1] == At(s, t, CheckOwner)
    ensures forall i | 0 < i < |r| - 1 :: PcOf(r[i], t) != Outside
    ensures Quiet(r[|r| - 1], l) && r[|r| - 1].threads == s.threads[t := Thread(Outside, s.threads[t].depth - 1)]
    ensures l.Valid() && Release(old(l.Mutex()), t, l.Mutex())
  {
    r := PostSteps(s, t);
    l.Post(t);
  }

  /** The steps of lock_post. */
  lemma PostSteps(s: State, t: Tid) returns (r: seq<State>)
    requires t in s.threads && s.threads[t].pc == Outside && s.owner == t && s.threads[t].depth > 0
    ensures Alone(r, t) && |r| > 2 && r[0] == s && r[1] == At(s, t, CheckOwner)
    ensures forall i | 0 < i < |r| - 1 :: PcOf(r[i], t) != Outside
    ensures var depth := s.threads[t].depth - 1;
      r[|r| - 1] == if s.cnt == 1 then State(0, 0, s.sem + 1, s.threads[t := Thread(Outside, depth)])
                    else State(t, s.cnt - 1, s.sem, s.threads[t := Thread(Outside, depth)])
  {
    var s1 := At(s, t, CheckOwner);
    var s2 := At(s1, t, LoadDec);
    var s3 := At(s2, t, StoreDec(s.cnt));
    var s4 := Into(s3, t, s.threads[t].depth - 1, if s.cnt == 1 then Leave else Outside).(cnt := s.cnt - 1);
    assert Step(s, t, s1) && Step(s1, t, s2) && Step(s2, t, s3) && Step(s3, t, s4);
    r := [s, s1, s2, s3, s4];
    if s.cnt == 1 {
      var s5 := At(s4, t, Post).(owner := 0);
      var s6 := At(s5, t, Outside).(sem := s.sem + 1);
      assert Step(s4, t, s5) && Step(s5, t, s6);
      r := [s, s1, s2, s3, s4, s5, s6];
    }
  }
}
