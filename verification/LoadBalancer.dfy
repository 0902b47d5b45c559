/** Platforms and the consumers they are lent to. */
module LoadBalancer {
  // agent/src/loadbalancer.c:90-147 and agent/src/opencl_platform.c:45-58.  Platforms are
  // numbered in the order of their global IDs, which is the order in which the set of
  // platforms is passed over.

  type Consumer = nat
  type Platform = nat

  datatype Maybe<T> = Null | To(it: T)

  // ---------- One thread at a time ----------

  /** p is the first free platform. */
  ghost predicate Lent(consumerOf: seq<Maybe<Consumer>>, p: Platform) {
    p < |consumerOf| && consumerOf[p] == Null && forall q | 0 <= q < p :: consumerOf[q] != Null
  }

  /** The two back pointers: platform->consumer and consumer->platform. */
  class Balancer {
    var consumerOf: seq<Maybe<Consumer>>
    var platformOf: map<Consumer, Maybe<Platform>>

    /** No consumer is without a pointer field, and each pointer is answered. */
    ghost predicate Valid()
      reads this
    {
      && (forall c | c in platformOf && platformOf[c].To? ::
            platformOf[c].it < |consumerOf| && consumerOf[platformOf[c].it] == To(c))
      && (forall p | 0 <= p < |consumerOf| && consumerOf[p].To? ::
            consumerOf[p].it in platformOf && platformOf[consumerOf[p].it] == To(p))
    }

    constructor (platforms: nat, consumers: set<Consumer>)
      ensures Valid() && |consumerOf| == platforms && platformOf.Keys == consumers
      ensures forall p | 0 <= p < platforms :: consumerOf[p] == Null
    {
      consumerOf := seq(platforms, _ => Null);
      platformOf := map c | c in consumers :: Null;
    }

    /** lb_allocate_platform, lines 90-115, of a consumer that has no platform.  It lends the
        free platform of least ID, and fails only when all are taken. */
    method Allocate(consumer: Consumer) returns (ok: bool)
      requires Valid() && consumer in platformOf && platformOf[consumer] == Null
      modifies this
      ensures Valid() && |consumerOf| == |old(consumerOf)|
      ensures ok <==> exists p :: 0 <= p < |old(consumerOf)| && old(consumerOf)[p] == Null
      ensures !ok ==> consumerOf == old(consumerOf) && platformOf == old(platformOf)
      ensures ok ==>
        exists p: Platform ::
          Lent(old(consumerOf), p)
          && consumerOf == old(consumerOf)[p := To(consumer)] && platformOf == old(platformOf)[consumer := To(p)]
    {
      var p := 0;
      while p < |consumerOf| && consumerOf[p] != Null
        invariant p <= |consumerOf| && forall q | 0 <= q < p :: consumerOf[q] != Null
      {
        p := p + 1;
      }
      ok := false;
      if p < |consumerOf| {
        assert Lent(consumerOf, p);
        consumerOf := consumerOf[p := To(consumer)];
        platformOf := platformOf[consumer := To(p)];
        ok := true;
      }
    }

    /** lb_release_platform, lines 117-147. */
    method Release(consumer: Consumer) returns (ok: bool)
      requires Valid() && consumer in platformOf
      modifies this
      ensures Valid() && ok == old(platformOf[consumer]).To?
      ensures !ok ==> consumerOf == old(consumerOf) && platformOf == old(platformOf)
      ensures ok ==>
        && consumerOf == old(consumerOf)[old(platformOf[consumer]).it := Null]
        && platformOf == old(platformOf)[consumer := Null]
    {
      var platform := platformOf[consumer];
      if platform == Null {
        return false;
      }
      if consumerOf[platform.it] != To(consumer) {
        assert false;
        return false;
      }
      platformOf := platformOf[consumer := Null];
      consumerOf := consumerOf[platform.it := Null];
      ok := true;
    }
  }

  // ---------- All threads at once ----------

  /** Where the thread of a consumer is.  Allocation runs under the lock of the set; the
      steps of a release run without it. */
  datatype Pc =
    | Idle
    | Scan(next: Platform)       // lines 98-102, about to read platform->consumer
    | Lend(found: Platform)      // line 106
    | Point(found: Platform)     // line 107
    | Check(held: Platform)      // line 136
    | Unpoint(held: Platform)    // line 142
    | Free(held: Platform)       // line 143

  datatype State = State(
    consumerOf: seq<Maybe<Consumer>>, platformOf: map<Consumer, Maybe<Platform>>, pc: map<Consumer, Pc>,
    setLock: Maybe<Consumer>)

  ghost predicate Init(s: State) {
    && (forall p | 0 <= p < |s.consumerOf| :: s.consumerOf[p] == Null)
    && (forall c | c in s.platformOf :: s.platformOf[c] == Null)
    && s.pc.Keys == s.platformOf.Keys && (forall c | c in s.pc :: s.pc[c] == Idle) && s.setLock == Null
  }

  function Goes(s: State, c: Consumer, pc: Pc): State {
    s.(pc := s.pc[c := pc])
  }

  /** One step of the thread of consumer c: one access to a pointer. */
  ghost predicate Step(s: State, c: Consumer, s': State) {
    c in s.pc && c in s.platformOf &&
    match s.pc[c]
    case Idle =>
      || (s.platformOf[c] == Null && s.setLock == Null && s' == Goes(s, c, Scan(0)).(setLock := To(c)))
      || (s.platformOf[c].To? && s' == Goes(s, c, Check(s.platformOf[c].it)))
    case Scan(p) =>
      if p >= |s.consumerOf| then s' == Goes(s, c, Idle).(setLock := Null)
      else if s.consumerOf[p] == Null then s' == Goes(s, c, Lend(p))
      else s' == Goes(s, c, Scan(p + 1))
    case Lend(p) => p < |s.consumerOf| && s' == Goes(s, c, Point(p)).(consumerOf := s.consumerOf[p := To(c)])
    case Point(p) => s' == Goes(s, c, Idle).(platformOf := s.platformOf[c := To(p)], setLock := Null)
    case Check(p) =>
      p < |s.consumerOf| && s' == Goes(s, c, if s.consumerOf[p] == To(c) then Unpoint(p) else Idle)
    case Unpoint(p) => s' == Goes(s, c, Free(p)).(platformOf := s.platformOf[c := Null])
    case Free(p) => p < |s.consumerOf| && s' == Goes(s, c, Idle).(consumerOf := s.consumerOf[p := Null])
  }

  ghost predicate Next(s: State, s': State) {
    exists c :: Step(s, c, s')
  }

  ghost predicate Run(r: seq<State>) {
    |r| > 0 && Init(r[0]) && forall i | 0 <= i < |r| - 1 :: Next(r[i], r[i + 1])
  }

  /** The pointers of one consumer are what its thread makes of them. */
  predicate ThreadOk(s: State, c: Consumer)
    requires c in s.pc && c in s.platformOf
  {
    var own := s.platformOf[c];
    match s.pc[c]
    case Idle => Answered(s, c)
    case Scan(_) => own == Null && s.setLock == To(c)
    case Lend(p) => own == Null && s.setLock == To(c) && p < |s.consumerOf| && s.consumerOf[p] == Null
    case Point(p) => own == Null && s.setLock == To(c) && p < |s.consumerOf| && s.consumerOf[p] == To(c)
    case Check(p) => own == To(p) && Answered(s, c)
    case Unpoint(p) => own == To(p) && Answered(s, c)
    case Free(p) => own == Null && p < |s.consumerOf| && s.consumerOf[p] == To(c)
  }

  /** The platform of c, if it has one, points back at it. */
  predicate Answered(s: State, c: Consumer) {
    c in s.platformOf && s.platformOf[c].To? ==>
      s.platformOf[c].it < |s.consumerOf| && s.consumerOf[s.platformOf[c].it] == To(c)
  }

  /** A platform that points at c is the one that c has, or is getting, or is giving back. */
  predicate Claimed(s: State, p: Platform)
    requires p < |s.consumerOf|
  {
    s.consumerOf[p].To? ==>
      var c := s.consumerOf[p].it;
      c in s.pc && c in s.platformOf && (s.platformOf[c] == To(p) || s.pc[c] == Point(p) || s.pc[c] == Free(p))
  }

  ghost predicate Inv(s: State) {
    && s.pc.Keys == s.platformOf.Keys
    && (forall c | c in s.pc :: ThreadOk(s, c))
    && (forall p | 0 <= p < |s.consumerOf| :: Claimed(s, p))
  }

  lemma OwnThread(s: State, c: Consumer, s': State)
    requires c in s.pc && c in s.platformOf && ThreadOk(s, c) && Step(s, c, s')
    ensures c in s'.pc && c in s'.platformOf && ThreadOk(s', c)
  {
  }

  lemma OtherThread(s: State, c: Consumer, s': State, d: Consumer)
    requires c in s.pc && c in s.platformOf && ThreadOk(s, c) && Step(s, c, s')
    requires d in s.pc && d in s.platformOf && ThreadOk(s, d) && c != d
    ensures d in s'.pc && d in s'.platformOf && ThreadOk(s', d)
  {
    assert s'.pc[d] == s.pc[d] && s'.platformOf[d] == s.platformOf[d];
  }

  lemma StepClaim(s: State, c: Consumer, s': State, p: Platform)
    requires Inv(s) && Step(s, c, s') && p < |s'.consumerOf|
    ensures Claimed(s', p)
  {
    assert ThreadOk(s, c);
    assert p < |s.consumerOf| && Claimed(s, p);
  }

  lemma StepInv(s: State, c: Consumer, s': State)
    requires Inv(s) && Step(s, c, s')
    ensures Inv(s')
  {
    forall d | d in s'.pc ensures d in s'.platformOf && ThreadOk(s', d) {
      assert d in s.pc && ThreadOk(s, d) && ThreadOk(s, c);
      if d == c {
        OwnThread(s, c, s');
      } else {
        OtherThread(s, c, s', d);
      }
    }
    forall p | 0 <= p < |s'.consumerOf| ensures Claimed(s', p) {
      StepClaim(s, c, s', p);
    }
    assert s'.pc.Keys == s.pc.Keys && s'.platformOf.Keys == s.platformOf.Keys;
  }

  lemma {:induction false} RunInv(r: seq<State>, i: nat)
    requires Run(r) && i < |r|
    ensures Inv(r[i])
  {
    if i > 0 {
      RunInv(r, i - 1);
      assert Next(r[i - 1], r[i - 1 + 1]);
      var c :| Step(r[i - 1], c, r[i]);
      StepInv(r[i - 1], c, r[i]);
    }
  }

  /** In every interleaving the platform of a consumer points back at it, so no two
      consumers ever share a platform; the check on line 136 never fails; and a platform
      found free is still free when it is lent. */
  lemma PlatformsAreNotShared(r: seq<State>, i: nat)
    requires Run(r) && i < |r|
    ensures forall c | c in r[i].platformOf :: Answered(r[i], c)
    ensures forall c, d | c in r[i].platformOf && d in r[i].platformOf && c != d && r[i].platformOf[c].To? ::
              r[i].platformOf[d] != r[i].platformOf[c]
    ensures forall c | c in r[i].pc && r[i].pc[c].Check? ::
              r[i].pc[c].held < |r[i].consumerOf| && r[i].consumerOf[r[i].pc[c].held] == To(c)
    ensures forall c | c in r[i].pc && r[i].pc[c].Lend? ::
              r[i].pc[c].found < |r[i].consumerOf| && r[i].consumerOf[r[i].pc[c].found] == Null
  {
    RunInv(r, i);
    forall c | c in r[i].pc && r[i].pc[c].Lend?
      ensures r[i].pc[c].found < |r[i].consumerOf| && r[i].consumerOf[r[i].pc[c].found] == Null
    {
      assert ThreadOk(r[i], c);
    }
    forall c | c in r[i].platformOf ensures Answered(r[i], c) {
      assert ThreadOk(r[i], c);
    }
    forall c | c in r[i].pc && r[i].pc[c].Check?
      ensures r[i].pc[c].held < |r[i].consumerOf| && r[i].consumerOf[r[i].pc[c].held] == To(c)
    {
      assert ThreadOk(r[i], c);
    }
  }

  /** While nobody is in the middle of anything, the pointers are those of a Balancer. */
  lemma QuietIsValid(r: seq<State>, i: nat)
    requires Run(r) && i < |r| && forall c | c in r[i].pc :: r[i].pc[c] == Idle
    ensures forall p | 0 <= p < |r[i].consumerOf| && r[i].consumerOf[p].To? ::
      r[i].consumerOf[p].it in r[i].platformOf && r[i].platformOf[r[i].consumerOf[p].it] == To(p)
  {
    RunInv(r, i);
    forall p | 0 <= p < |r[i].consumerOf| && r[i].consumerOf[p].To?
      ensures r[i].consumerOf[p].it in r[i].platformOf && r[i].platformOf[r[i].consumerOf[p].it] == To(p)
    {
      assert Claimed(r[i], p);
    }
  }

  // ---------- When an allocation fails ----------

  /** At j the thread of c reads the back pointer of q, and q is taken. */
  ghost predicate ReadsTaken(r: seq<State>, j: nat, c: Consumer, q: Platform)
    requires j < |r|
  {
    c in r[j].pc && r[j].pc[c] == Scan(q) && q < |r[j].consumerOf| && r[j].consumerOf[q] != Null
  }

  /** From j to i the thread of c is in one and the same scan. */
  ghost predicate Scanning(r: seq<State>, j: nat, i: nat, c: Consumer)
    requires j <= i < |r|
  {
    forall k | j <= k <= i :: c in r[k].pc && r[k].pc[c].Scan?
  }

  lemma ScanStep(s: State, d: Consumer, s': State, c: Consumer)
    requires Step(s, d, s') && c in s'.pc && s'.pc[c].Scan?
    ensures c in s.pc
    ensures s'.pc[c].next > 0 ==>
      || s.pc[c] == s'.pc[c]
      || (s.pc[c] == Scan(s'.pc[c].next - 1) && s'.pc[c].next <= |s.consumerOf| && s.consumerOf[s'.pc[c].next - 1] != Null)
  {
  }

  /** In every run each platform that a scan has passed was taken when the scan read it. */
  lemma {:induction false} ScanSawTaken(r: seq<State>, i: nat, c: Consumer, q: Platform)
    requires Run(r) && i < |r| && c in r[i].pc && r[i].pc[c].Scan? && q < r[i].pc[c].next
    ensures exists j | 0 <= j < i :: ReadsTaken(r, j, c, q) && Scanning(r, j, i, c)
  {
    hide Step, Inv;
    if i > 0 {
      assert Next(r[i - 1], r[i - 1 + 1]);
      var d :| Step(r[i - 1], d, r[i]);
      ScanStep(r[i - 1], d, r[i], c);
      if q < r[i - 1].pc[c].next {
        ScanSawTaken(r, i - 1, c, q);
        var j :| 0 <= j < i - 1 && ReadsTaken(r, j, c, q) && Scanning(r, j, i - 1, c);
        assert Scanning(r, j, i, c);
      } else {
        assert ReadsTaken(r, i - 1, c, q) && Scanning(r, i - 1, i, c);
      }
    }
  }

  /** An allocation fails only when every platform was taken at some moment of its scan:
      one that is free throughout is found. */
  lemma FailureSawAllTaken(r: seq<State>, i: nat, c: Consumer, q: Platform)
    requires Run(r) && i < |r| && c in r[i].pc && r[i].pc[c].Scan?
    requires r[i].pc[c].next >= |r[i].consumerOf| && q < |r[i].consumerOf|
    ensures exists j | 0 <= j < i :: ReadsTaken(r, j, c, q) && Scanning(r, j, i, c)
  {
    ScanSawTaken(r, i, c, q);
  }

  // ---------- The order of the last two writes ----------

  /** The step of lines 142 and 143 with the writes exchanged: the platform is free before
      its consumer has let go of it. */
  ghost predicate HastyStep(s: State, c: Consumer, s': State) {
    && c in s.pc && c in s.platformOf && s.pc[c].Unpoint? && s.pc[c].held < |s.consumerOf|
    && s' == Goes(s, c, Free(s.pc[c].held)).(consumerOf := s.consumerOf[s.pc[c].held := Null])
  }

  /** The first thread is lent a platform and begins to release it, makes the hasty write,
      and then the second thread is lent a platform. */
  ghost predicate HastyRun(r: seq<State>) {
    && |r| == 12 && Init(r[0]) && (forall i | 0 <= i < 6 :: Step(r[i], 0, r[i + 1])) && HastyStep(r[6], 0, r[7])
    && forall i | 7 <= i < 11 :: Step(r[i], 1, r[i + 1])
  }

  /** The thread of c is lent platform 0 in four steps. */
  lemma LentInFour(s: State, c: Consumer) returns (r: seq<State>)
    requires s.consumerOf == [Null] && s.setLock == Null
    requires c in s.pc && s.pc[c] == Idle && c in s.platformOf && s.platformOf[c] == Null
    ensures |r| == 5 && r[0] == s && forall i | 0 <= i < 4 :: Step(r[i], c, r[i + 1])
    ensures r[4] == State([To(c)], s.platformOf[c := To(0)], s.pc, Null)
  {
    var s1 := Goes(s, c, Scan(0)).(setLock := To(c));
    var s2 := Goes(s1, c, Lend(0));
    var s3 := Goes(s2, c, Point(0)).(consumerOf := [To(c)]);
    var s4 := Goes(s3, c, Idle).(platformOf := s.platformOf[c := To(0)], setLock := Null);
    r := [s, s1, s2, s3, s4];
    assert s4.pc == s.pc;
    assert Step(s, c, s1) && Step(s1, c, s2) && Step(s2, c, s3) && Step(s3, c, s4);
  }

  /** The written order matters: after the hasty write another thread can be lent the
      platform while the first still points at it. */
  lemma HastyReleaseShares() returns (r: seq<State>)
    ensures HastyRun(r) && r[11].platformOf == map[0 := To(0), 1 := To(0)]
  {
    hide Step;
    var s0 := State([Null], map[0 := Null, 1 := Null], map[0 := Idle, 1 := Idle], Null);
    var a := LentInFour(s0, 0);
    var s5 := Goes(a[4], 0, Check(0));
    var s6 := Goes(s5, 0, Unpoint(0));
    BeginsRelease(a[4], s5, s6);
    var s7 := Goes(s6, 0, Free(0)).(consumerOf := [Null]);
    var b := LentInFour(s7, 1);
    r := a + [s5, s6] + b;
    assert forall i | 0 <= i < 4 :: r[i] == a[i];
    assert forall i | 7 <= i < 12 :: r[i] == b[i - 7];
    assert r[4] == a[4] && r[5] == s5 && r[6] == s6 && r[7] == s7;
  }

  lemma BeginsRelease(s: State, s5: State, s6: State)
    requires s.consumerOf == [To(0)] && 0 in s.pc && s.pc[0] == Idle && 0 in s.platformOf && s.platformOf[0] == To(0)
    requires s5 == Goes(s, 0, Check(0)) && s6 == Goes(s5, 0, Unpoint(0))
    ensures Step(s, 0, s5) && Step(s5, 0, s6)
  {
  }
}
