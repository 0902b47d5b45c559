/** What whole calls of lb_allocate_platform and lb_release_platform do, in any interleaving of
    agent/src/loadbalancer.c:90-147 and alone. */
module LoadBalancerCalls {
  import opened LoadBalancer

  // ---------- The lock of the set ----------

  predicate Scans(pc: Pc) {
    pc.Scan? || pc.Lend? || pc.Point?
  }

  /** The lock of the set of platforms is held by exactly the thread that is passing over it. */
  ghost predicate LockOk(s: State) {
    && (forall c: Consumer :: s.setLock == To(c) <==> c in s.pc && Scans(s.pc[c]))
    && s.pc.Keys == s.platformOf.Keys
  }

  lemma StepLockOk(s: State, d: Consumer, s': State)
    requires LockOk(s) && Step(s, d, s')
    ensures LockOk(s')
  {
    forall c: Consumer ensures s'.setLock == To(c) <==> c in s'.pc && Scans(s'.pc[c]) {
      assert s.setLock == To(c) <==> c in s.pc && Scans(s.pc[c]);
      assert s.setLock == To(d) <==> d in s.pc && Scans(s.pc[d]);
    }
  }

  /** In every run a thread that is in none of these places holds no lock of the set. */
  lemma {:induction false} LockFollows(r: seq<State>, i: nat)
    requires Run(r) && i < |r|
    ensures LockOk(r[i])
  {
    hide LockOk, Step;
    if i == 0 {
      LockAtStart(r[0]);
    } else {
      LockFollows(r, i - 1);
      assert Next(r[i - 1], r[i - 1 + 1]);
      var d :| Step(r[i - 1], d, r[i]);
      StepLockOk(r[i - 1], d, r[i]);
    }
  }

  lemma LockAtStart(s: State)
    requires Init(s)
    ensures LockOk(s)
  {
  }

  // ---------- One call ----------

  /** The thread of c enters a call at i and is next back from it at j. */
  ghost predicate CallFrom(r: seq<State>, c: Consumer, i: nat, j: nat)
    requires i + 1 < j < |r|
  {
    && (forall k | i <= k <= j :: c in r[k].pc && c in r[k].platformOf)
    && r[i].pc[c] == Idle && r[j].pc[c] == Idle && forall k | i < k < j :: r[k].pc[c] != Idle
  }

  /** What a step does to the place and the pointers of c. */
  lemma Moves(r: seq<State>, c: Consumer, k: nat) returns (d: Consumer)
    requires Run(r) && k + 1 < |r|
    ensures Step(r[k], d, r[k + 1]) && Inv(r[k]) && Inv(r[k + 1]) && |r[k + 1].consumerOf| == |r[k].consumerOf|
    ensures d != c && c in r[k].pc && c in r[k].platformOf ==>
      && c in r[k + 1].pc && r[k + 1].pc[c] == r[k].pc[c]
      && c in r[k + 1].platformOf && r[k + 1].platformOf[c] == r[k].platformOf[c]
  {
    hide Inv, Step;
    RunInv(r, k);
    RunInv(r, k + 1);
    assert Next(r[k], r[k + 1]);
    d :| Step(r[k], d, r[k + 1]);
    OneMoves(r[k], d, r[k + 1], c);
  }

  lemma OneMoves(s: State, d: Consumer, s': State, c: Consumer)
    requires Step(s, d, s')
    ensures |s'.consumerOf| == |s.consumerOf|
    ensures d != c && c in s.pc && c in s.platformOf ==>
      c in s'.pc && c in s'.platformOf && s'.pc[c] == s.pc[c] && s'.platformOf[c] == s.platformOf[c]
  {
  }

  lemma ReleaseStep(s: State, c: Consumer, s': State, p: Platform)
    requires Inv(s) && Step(s, c, s') && c in s'.pc && (s.pc[c] == Check(p) || s.pc[c] == Unpoint(p) || s.pc[c] == Free(p))
    ensures s'.pc[c] == Unpoint(p) || s'.pc[c] == Free(p) || (s'.pc[c] == Idle && s.pc[c] == Free(p))
    ensures s.pc[c] == Free(p) ==>
      && p < |s.consumerOf| && s.consumerOf[p] == To(c) && s'.consumerOf == s.consumerOf[p := Null]
      && c in s'.platformOf && s'.platformOf[c] == Null
  {
    assert ThreadOk(s, c);
  }

  lemma {:induction false} InRelease(r: seq<State>, c: Consumer, i: nat, j: nat, k: nat, p: Platform)
    requires Run(r) && i < k < j < |r| && CallFrom(r, c, i, j) && r[i].platformOf[c] == To(p)
    ensures r[k].pc[c] == Check(p) || r[k].pc[c] == Unpoint(p) || r[k].pc[c] == Free(p)
    decreases k
  {
    hide Step, Inv;
    var d := Moves(r, c, k - 1);
    if k == i + 1 {
      EntersRelease(r[i], d, r[i + 1], c, p);
    } else {
      InRelease(r, c, i, j, k - 1, p);
      if d == c {
        ReleaseStep(r[k - 1], c, r[k], p);
      }
    }
  }

  lemma EntersRelease(s: State, d: Consumer, s': State, c: Consumer, p: Platform)
    requires Step(s, d, s') && c in s.pc && c in s.platformOf && s.pc[c] == Idle && c in s'.pc && s'.pc[c] != Idle
    requires s.platformOf[c] == To(p)
    ensures s'.pc[c] == Check(p)
  {
  }

  /** In every run a consumer that has a platform and starts a call releases it: when its
      thread is next back, its pointer is NULL, and the last thing that the thread has done is
      to take the platform's pointer from itself to NULL. */
  lemma ReleaseReleases(r: seq<State>, c: Consumer, i: nat, j: nat, p: Platform)
    requires Run(r) && i + 1 < j < |r| && CallFrom(r, c, i, j) && r[i].platformOf[c] == To(p)
    ensures r[j].platformOf[c] == Null && r[j - 1].pc[c] == Free(p)
    ensures p < |r[j].consumerOf| == |r[j - 1].consumerOf|
    ensures r[j - 1].consumerOf[p] == To(c) && r[j].consumerOf[p] == Null
  {
    hide Step, Inv;
    InRelease(r, c, i, j, j - 1, p);
    var d := Moves(r, c, j - 1);
    assert d == c;
    ReleaseStep(r[j - 1], c, r[j], p);
  }

  lemma AllocateStep(s: State, c: Consumer, s': State)
    requires Inv(s) && Step(s, c, s') && c in s'.pc && Scans(s.pc[c])
    ensures Scans(s'.pc[c]) || s'.pc[c] == Idle
    ensures s'.pc[c] == Idle ==>
      && s'.setLock == Null && c in s'.platformOf
      && (s.pc[c].Point? || (s.pc[c].Scan? && s.pc[c].next >= |s.consumerOf| && s'.consumerOf == s.consumerOf))
      && s'.platformOf[c] == if s.pc[c].Point? then To(s.pc[c].found) else Null
    ensures s.pc[c].Point? ==>
      s.pc[c].found < |s.consumerOf| && s.consumerOf[s.pc[c].found] == To(c) && s'.consumerOf == s.consumerOf
  {
    assert ThreadOk(s, c);
  }

  lemma {:induction false} InAllocate(r: seq<State>, c: Consumer, i: nat, j: nat, k: nat)
    requires Run(r) && i < k < j < |r| && CallFrom(r, c, i, j) && r[i].platformOf[c] == Null
    ensures Scans(r[k].pc[c])
    decreases k
  {
    hide Step, Inv;
    var d := Moves(r, c, k - 1);
    if k == i + 1 {
      EntersAllocate(r[i], d, r[i + 1], c);
    } else {
      InAllocate(r, c, i, j, k - 1);
      if d == c {
        AllocateStep(r[k - 1], c, r[k]);
      }
    }
  }

  lemma EntersAllocate(s: State, d: Consumer, s': State, c: Consumer)
    requires Step(s, d, s') && c in s.pc && c in s.platformOf && s.pc[c] == Idle && c in s'.pc && s'.pc[c] != Idle
    requires s.platformOf[c] == Null
    ensures s'.pc[c] == Scan(0) && s'.setLock == To(c)
  {
  }

  /** In every run a consumer without a platform that starts a call is lent one, which points
      at it, or has passed all of them; either way the lock of the set is free when its thread
      is back. */
  lemma AllocateLends(r: seq<State>, c: Consumer, i: nat, j: nat)
    requires Run(r) && i + 1 < j < |r| && CallFrom(r, c, i, j) && r[i].platformOf[c] == Null
    ensures r[j].setLock == Null && r[i + 1].setLock == To(c)
    ensures match r[j].platformOf[c]
            case To(p) => r[j - 1].pc[c] == Point(p) && p < |r[j].consumerOf| && r[j].consumerOf[p] == To(c)
            case Null => r[j - 1].pc[c].Scan? && r[j - 1].pc[c].next >= |r[j - 1].consumerOf|
  {
    hide Step, Inv;
    var e := Moves(r, c, i);
    EntersAllocate(r[i], e, r[i + 1], c);
    InAllocate(r, c, i, j, j - 1);
    var d := Moves(r, c, j - 1);
    assert d == c;
    AllocateStep(r[j - 1], c, r[j]);
  }

  // ---------- Calls with nobody in between ----------

  /** The pointers are those of the object, and nobody is in a call. */
  ghost predicate Quiet(s: State, b: Balancer)
    reads b
  {
    && s.consumerOf == b.consumerOf && s.platformOf == b.platformOf && s.setLock == Null
    && s.pc.Keys == s.platformOf.Keys && forall c | c in s.pc :: s.pc[c] == Idle
  }

  /** The thread of c takes all steps of r. */
  ghost predicate Alone(r: seq<State>, c: Consumer) {
    |r| > 0 && forall i | 0 <= i < |r| - 1 :: Step(r[i], c, r[i + 1])
  }

  lemma Before(s: State, c: Consumer, r: seq<State>)
    requires Alone(r, c) && Step(s, c, r[0])
    ensures Alone([s] + r, c)
  {
    var q := [s] + r;
    forall i | 0 <= i < |q| - 1 ensures Step(q[i], c, q[i + 1]) {
      if i > 0 {
        assert q[i] == r[i - 1] && q[i + 1] == r[i] && Step(r[i - 1], c, r[i - 1 + 1]);
      }
    }
  }

  /** The first platform from n on that is free. */
  function FirstFree(consumerOf: seq<Maybe<Consumer>>, n: nat): (f: Maybe<Platform>)
    requires n <= |consumerOf|
    ensures f == Null <==> forall p | n <= p < |consumerOf| :: consumerOf[p] != Null
    ensures f.To? ==>
      n <= f.it < |consumerOf| && consumerOf[f.it] == Null && forall p | n <= p < f.it :: consumerOf[p] != Null
    decreases |consumerOf| - n
  {
    if n == |consumerOf| then Null else if consumerOf[n] == Null then To(n) else FirstFree(consumerOf, n + 1)
  }

  /** c is back, and has been lent f if that is a platform. */
  function Lent(s: State, c: Consumer, f: Maybe<Platform>): State
    requires f.To? ==> f.it < |s.consumerOf|
  {
    var t := Goes(s, c, Idle).(setLock := Null);
    if f == Null then t else t.(consumerOf := s.consumerOf[f.it := To(c)], platformOf := s.platformOf[c := f])
  }

  /** The steps from the scan of platform n on. */
  lemma {:induction false} ScanSteps(s: State, c: Consumer, n: nat) returns (r: seq<State>)
    requires c in s.pc && c in s.platformOf && s.pc[c] == Scan(n) && n <= |s.consumerOf|
    ensures Alone(r, c) && r[0] == s && |r| > 1 && r[|r| - 1] == Lent(s, c, FirstFree(s.consumerOf, n))
    decreases |s.consumerOf| - n
  {
    if n == |s.consumerOf| {
      var s1 := Goes(s, c, Idle).(setLock := Null);
      r := [s, s1];
    } else if s.consumerOf[n] == Null {
      r := LendSteps(s, c, n);
    } else {
      var s1 := Goes(s, c, Scan(n + 1));
      assert Step(s, c, s1);
      hide Step, Alone;
      var q := ScanSteps(s1, c, n + 1);
      Before(s, c, q);
      r := [s] + q;
      assert r[|r| - 1] == q[|q| - 1];
      assert s1.pc[c := Idle] == s.pc[c := Idle];
    }
  }

  lemma LendSteps(s: State, c: Consumer, n: nat) returns (r: seq<State>)
    requires c in s.pc && c in s.platformOf && s.pc[c] == Scan(n) && n < |s.consumerOf| && s.consumerOf[n] == Null
    ensures Alone(r, c) && |r| == 4 && r[0] == s && r[3] == Lent(s, c, To(n))
  {
    var s1 := Goes(s, c, Lend(n));
    var s2 := Goes(s1, c, Point(n)).(consumerOf := s.consumerOf[n := To(c)]);
    var s3 := Goes(s2, c, Idle).(platformOf := s.platformOf[c := To(n)], setLock := Null);
    assert Step(s, c, s1) && Step(s1, c, s2) && Step(s2, c, s3);
    r := [s, s1, s2, s3];
  }

  lemma AllocateSteps(s: State, c: Consumer) returns (r: seq<State>)
    requires c in s.pc && c in s.platformOf && s.pc[c] == Idle && s.platformOf[c] == Null && s.setLock == Null
    ensures Alone(r, c) && |r| > 2 && r[0] == s && r[1] == Goes(s, c, Scan(0)).(setLock := To(c))
    ensures r[|r| - 1] == Lent(s, c, FirstFree(s.consumerOf, 0))
  {
    var s1 := Goes(s, c, Scan(0)).(setLock := To(c));
    assert Step(s, c, s1);
    hide Step, Alone;
    var q := ScanSteps(s1, c, 0);
    Before(s, c, q);
    r := [s] + q;
    assert r[|r| - 1] == q[|q| - 1];
    assert s1.pc[c := Idle] == s.pc[c := Idle];
  }

  /** lb_allocate_platform as the object runs it is a call that nobody disturbs. */
  method AllocateAlone(b: Balancer, c: Consumer, ghost s: State) returns (ok: bool, ghost r: seq<State>)
    requires b.Valid() && Quiet(s, b) && c in b.platformOf && b.platformOf[c] == Null
    modifies b
    ensures Alone(r, c) && |r| > 2 && r[0] == s && r[1] == Goes(s, c, Scan(0)).(setLock := To(c))
    ensures b.Valid() && Quiet(r[|r| - 1], b) && c in b.platformOf && (ok <==> b.platformOf[c] != Null)
  {
    r := AllocateSteps(s, c);
    ghost var f := FirstFree(s.consumerOf, 0);
    ok := b.Allocate(c);
    hide Step, Alone, Balancer.Valid;
    if ok {
      ghost var p: Platform :| LoadBalancer.Lent(s.consumerOf, p)
        && b.consumerOf == s.consumerOf[p := To(c)] && b.platformOf == s.platformOf[c := To(p)];
      assert f == To(p);
    }
    assert s.pc[c := Idle] == s.pc;
  }

  /** And so is lb_release_platform; without a platform it does nothing. */
  method ReleaseAlone(b: Balancer, c: Consumer, ghost s: State) returns (ok: bool, ghost r: seq<State>)
    requires b.Valid() && Quiet(s, b) && c in b.platformOf
    modifies b
    ensures Alone(r, c) && r[0] == s
    ensures ok <==> old(b.platformOf[c]).To?
    ensures old(b.platformOf[c]).To? ==> |r| == 5 && r[1] == Goes(s, c, Check(old(b.platformOf[c]).it))
    ensures c in b.platformOf && b.platformOf[c] == Null
    ensures !ok ==> r == [s]
    ensures b.Valid() && Quiet(r[|r| - 1], b)
  {
    r := [s];
    if b.platformOf[c].To? {
      r := ReleaseSteps(s, c, b.platformOf[c].it);
      assert s.pc[c := Idle] == s.pc;
    }
    ok := b.Release(c);
  }

  lemma ReleaseSteps(s: State, c: Consumer, p: Platform) returns (r: seq<State>)
    requires c in s.pc && c in s.platformOf && s.pc[c] == Idle && s.platformOf[c] == To(p)
    requires p < |s.consumerOf| && s.consumerOf[p] == To(c)
    ensures Alone(r, c) && |r| == 5 && r[0] == s && r[1] == Goes(s, c, Check(p))
    ensures r[4] == Goes(s, c, Idle).(consumerOf := s.consumerOf[p := Null], platformOf := s.platformOf[c := Null])
  {
    var s1 := Goes(s, c, Check(p));
    var s2 := Goes(s1, c, Unpoint(p));
    var s3 := Goes(s2, c, Free(p)).(platformOf := s.platformOf[c := Null]);
    var s4 := Goes(s3, c, Idle).(consumerOf := s.consumerOf[p := Null]);
    assert Step(s, c, s1) && Step(s1, c, s2) && Step(s2, c, s3) && Step(s3, c, s4);
    r := [s, s1, s2, s3, s4];
  }
}
