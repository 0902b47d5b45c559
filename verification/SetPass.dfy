/** A pass over a set among any number of threads (include/set.h:64-75 and
    common/set.c:84-164 over common/lock.c). */
module SetPass {
  // The bodies of the set operations run between lock_wait and lock_post, so a body is a
  // step that a thread takes while it is inside; everything else is a step of the lock.
  // The model allows any thread inside any body at any time, which is more than the code
  // does.  The one rule is the client's: a thread that is passing over a set neither
  // changes nor restarts that set.

  import opened Lock
  import opened RbNodes

  /** keys are exactly the keys of m, in ascending order. */
  ghost predicate InOrderOf(m: map<Key, nat>, keys: seq<Key>) {
    && (forall i, j | 0 <= i < j < |keys| :: keys[i] < keys[j])
    && forall k: Key :: k in m <==> k in keys
  }

  /** The pass of one thread: the contents at set_start, what set_next has returned since,
      and whether the last call returned NULL. */
  datatype Pass = Pass(tid: Tid, start: map<Key, nat>, seen: seq<Key>, ended: bool)

  datatype Maybe = None | Some(pass: Pass)

  /** left is what the shared traverser will return before its next NULL. */
  datatype System = System(lock: State, contents: map<Key, nat>, left: seq<Key>, pass: Maybe)

  predicate InBody(s: System, t: Tid) {
    Inside(s.lock, t) && s.lock.threads[t].pc == Outside
  }

  predicate Passes(s: System, t: Tid) {
    s.pass.Some? && s.pass.pass.tid == t
  }

  /** A step of the lock.  When the passing thread enters its outermost lock_post, which is
      set_finish, its pass is over. */
  ghost predicate LockStep(s: System, t: Tid, s': System) {
    && Step(s.lock, t, s'.lock) && s'.contents == s.contents && s'.left == s.left
    && s'.pass == if Passes(s, t) && s'.lock.threads[t] == Thread(CheckOwner, 1) then None else s.pass
  }

  /** rb_insert or rb_delete: the contents become anything, the traverser is stale. */
  ghost predicate MutateStep(s: System, t: Tid, s': System) {
    InBody(s, t) && !Passes(s, t) && s'.lock == s.lock && s'.pass == s.pass
  }

  /** rb_init_traverser in set_start. */
  ghost predicate StartStep(s: System, t: Tid, s': System) {
    && InBody(s, t) && !Passes(s, t) && s'.lock == s.lock && s'.contents == s.contents
    && InOrderOf(s.contents, s'.left) && s'.pass == Some(Pass(t, s.contents, [], false))
  }

  /** The traverser goes one item on, or starts again. */
  ghost predicate Moves(m: map<Key, nat>, left: seq<Key>, left': seq<Key>) {
    if left == [] then InOrderOf(m, left') else left' == left[1..]
  }

  /** rb_traverse in set_next: the next key, or NULL and the traverser is as at the start. */
  ghost predicate NextStep(s: System, t: Tid, s': System) {
    && InBody(s, t) && s'.lock == s.lock && s'.contents == s.contents
    && Moves(s.contents, s.left, s'.left)
    && s'.pass == if Passes(s, t) then Some(Seen(s.pass.pass, s.left)) else s.pass
  }

  function Seen(p: Pass, left: seq<Key>): Pass {
    var before := if p.ended then [] else p.seen;
    if left == [] then p.(seen := before, ended := true) else p.(seen := before + [left[0]], ended := false)
  }

  datatype Action = LockAction | Mutate | Start | Next

  ghost predicate SystemStep(s: System, t: Tid, a: Action, s': System) {
    match a
    case LockAction => LockStep(s, t, s')
    case Mutate => MutateStep(s, t, s')
    case Start => StartStep(s, t, s')
    case Next => NextStep(s, t, s')
  }

  ghost predicate SystemNext(s: System, s': System) {
    exists t: Tid, a: Action :: SystemStep(s, t, a, s')
  }

  ghost predicate SystemRun(r: seq<System>) {
    && |r| > 0 && Init(r[0].lock) && r[0].pass == None
    && forall i | 0 <= i < |r| - 1 :: SystemNext(r[i], r[i + 1])
  }

  /** While a thread passes, it is inside until set_finish, the contents are those of
      set_start, and what it has seen and what is left make up all keys in order. */
  ghost predicate PassInv(s: System) {
    s.pass.Some? ==>
      var p := s.pass.pass;
      && Inside(s.lock, p.tid)
      && (var Thread(pc, depth) := s.lock.threads[p.tid];
          depth == 1 ==> pc != CheckOwner && pc != LoadDec && !pc.StoreDec?)
      && s.contents == p.start
      && (if p.ended then InOrderOf(p.start, p.seen) && InOrderOf(p.start, s.left) else InOrderOf(p.start, p.seen + s.left))
  }

  lemma AloneInside(s: State, t: Tid, u: Tid)
    requires Inv(s) && Inside(s, t) && Inside(s, u)
    ensures t == u
  {
    var h :| HeldBy(s, h);
    assert Lock.Holds(s, t) && Lock.Holds(s, u);
  }

  lemma LockStepKeeps(s: System, t: Tid, s': System)
    requires Inv(s.lock) && PassInv(s) && LockStep(s, t, s')
    ensures PassInv(s')
  {
    if s'.pass.Some? {
      var p := s.pass.pass;
      assert Inside(s.lock, p.tid) && Local(s.lock, t);
      if p.tid != t {
        assert s'.lock.threads[p.tid] == s.lock.threads[p.tid];
      }
    }
  }

  lemma BodyStepKeeps(s: System, t: Tid, s': System)
    requires Inv(s.lock) && PassInv(s) && (MutateStep(s, t, s') || StartStep(s, t, s') || NextStep(s, t, s'))
    ensures PassInv(s')
  {
    if s.pass.Some? {
      AloneInside(s.lock, t, s.pass.pass.tid);
      var p := s.pass.pass;
      if NextStep(s, t, s') && !p.ended && s.left != [] {
        assert p.seen + s.left == (p.seen + [s.left[0]]) + s.left[1..];
      }
      if NextStep(s, t, s') && s.left == [] {
        assert p.seen + [] == p.seen;
      }
      if NextStep(s, t, s') && p.ended && s.left != [] {
        assert s.left == [s.left[0]] + s.left[1..];
      }
    } else if StartStep(s, t, s') {
      assert [] + s'.left == s'.left;
    }
  }

  lemma StepKeeps(s: System, t: Tid, a: Action, s': System)
    requires Inv(s.lock) && PassInv(s) && SystemStep(s, t, a, s')
    ensures Inv(s'.lock) && PassInv(s')
  {
    hide Inv, PassInv;
    if a == LockAction {
      StepInv(s.lock, t, s'.lock);
      LockStepKeeps(s, t, s');
    } else {
      BodyStepKeeps(s, t, s');
    }
  }

  lemma {:induction false} PassInvHolds(r: seq<System>, i: nat)
    requires SystemRun(r) && i < |r|
    ensures Inv(r[i].lock) && PassInv(r[i])
  {
    hide Inv, PassInv, SystemStep;
    if i == 0 {
      InitInv(r[0].lock);
      NoPass(r[0]);
    } else {
      PassInvHolds(r, i - 1);
      assert SystemNext(r[i - 1], r[i - 1 + 1]);
      var t: Tid, a: Action :| SystemStep(r[i - 1], t, a, r[i]);
      StepKeeps(r[i - 1], t, a, r[i]);
    }
  }

  lemma NoPass(s: System)
    requires s.pass == None
    ensures PassInv(s)
  {
  }

  /** In every run, while a pass is under way no other thread is inside, the contents are
      those at set_start, and set_next has returned an initial part of their keys in
      ascending order; when it has returned NULL, it has returned each of them once. */
  lemma PassSeesContents(r: seq<System>, i: nat)
    requires SystemRun(r) && i < |r| && r[i].pass.Some?
    ensures var p := r[i].pass.pass;
      && r[i].contents == p.start
      && (forall t: Tid :: Inside(r[i].lock, t) <==> t == p.tid)
      && (exists keys :: InOrderOf(p.start, keys) && p.seen <= keys && (p.ended ==> p.seen == keys))
  {
    PassInvHolds(r, i);
    var s, p := r[i], r[i].pass.pass;
    forall t: Tid | Inside(s.lock, t) ensures t == p.tid {
      AloneInside(s.lock, t, p.tid);
    }
    assert InOrderOf(p.start, if p.ended then p.seen else p.seen + s.left);
  }

  /** What the other threads do in the meantime ends neither the pass nor the hold: only a
      step of the passing thread itself takes the pass away. */
  lemma OthersCannotEndPass(r: seq<System>, i: nat, t: Tid, a: Action)
    requires SystemRun(r) && i + 1 < |r| && r[i].pass.Some? && t != r[i].pass.pass.tid && SystemStep(r[i], t, a, r[i + 1])
    ensures r[i + 1].pass == r[i].pass && r[i + 1].left == r[i].left && r[i + 1].contents == r[i].contents
  {
    PassInvHolds(r, i);
    if Inside(r[i].lock, t) {
      AloneInside(r[i].lock, t, r[i].pass.pass.tid);
    }
  }
}
