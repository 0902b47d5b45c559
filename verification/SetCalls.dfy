/** What the calls of a thread add up to in the runs of SetOps and SetPass: how often it holds
    the lock of the set, and what the n-th set_next of a pass returns
    (common/set.c:84-164, include/set.h:64-83). */
module SetCalls {
  import opened Lock
  import opened RbNodes
  import opened SetPass
  import SetOps

  // ---------- The lock of a set ----------

  /** How often t holds the mutex. */
  function Times(m: Mutex, t: Tid): int {
    if m.Held? && m.tid == t then m.times else 0
  }

  /** The lock_waits of set_start that t has done before step n, less the lock_posts of
      set_finish. */
  function Passing(who: seq<Tid>, did: seq<SetOps.Action>, n: nat, t: Tid): int
    requires n <= |who| == |did|
  {
    if n == 0 then 0
    else
      Passing(who, did, n - 1, t) +
      if who[n - 1] != t then 0 else if did[n - 1].Hold? then 1 else if did[n - 1].Unhold? then -1 else 0
  }

  predicate InCall(s: SetOps.System, t: Tid) {
    t in s.calls && SetOps.Inside(s.calls[t])
  }

  lemma HoldsAfter(s: SetOps.System, u: Tid, a: SetOps.Action, s': SetOps.System, t: Tid)
    requires SetOps.Step(s, u, a, s') && (s.mutex.Held? ==> s.mutex.times > 0)
    ensures Times(s'.mutex, t) - (if InCall(s', t) then 1 else 0) ==
            Times(s.mutex, t) - (if InCall(s, t) then 1 else 0) +
            if u != t then 0 else if a.Hold? then 1 else if a.Unhold? then -1 else 0
  {
    hide SetOps.Told, SetOps.Written, SetOps.Allocated, SetOps.StillFree, SetOps.Readers, SetOps.Available, SetOps.Found;
  }

  /** In every run a thread holds the lock once for every pass that it has started and not
      finished, and once more while it is in the body of an operation: set_finish gives back
      what set_start has taken, and so does every operation by the time it returns. */
  lemma {:induction false} LockAddsUp(r: seq<SetOps.System>, who: seq<Tid>, did: seq<SetOps.Action>, n: nat, t: Tid)
    requires SetOps.Run(r, who, did) && n < |r|
    ensures Times(r[n].mutex, t) == Passing(who, did, n, t) + if InCall(r[n], t) then 1 else 0
  {
    hide SetOps.Step, SetOps.Inv;
    if n == 0 {
      assert SetOps.Init(r[0]);
    } else {
      LockAddsUp(r, who, did, n - 1, t);
      assert SetOps.Step(r[n - 1], who[n - 1], did[n - 1], r[n - 1 + 1]);
      SetOps.RunInv(r, who, did, n - 1);
      TimesArePositive(r[n - 1]);
      HoldsAfter(r[n - 1], who[n - 1], did[n - 1], r[n], t);
    }
  }

  lemma TimesArePositive(s: SetOps.System)
    requires SetOps.Inv(s)
    ensures s.mutex.Held? ==> s.mutex.times > 0
  {
  }

  /** A thread that has finished its passes and is in no operation does not hold the lock, and
      nobody else is kept out by it. */
  lemma GivesBack(r: seq<SetOps.System>, who: seq<Tid>, did: seq<SetOps.Action>, n: nat, t: Tid)
    requires SetOps.Run(r, who, did) && n < |r| && Passing(who, did, n, t) == 0 && !InCall(r[n], t)
    ensures !SetOps.Owns(r[n], t)
  {
    LockAddsUp(r, who, did, n, t);
    SetOps.RunInv(r, who, did, n);
  }

  /** set_start, set_count and set_finish with nobody else about. */
  lemma PassAlone(s: SetOps.System, t: Tid) returns (s': SetOps.System)
    requires s.mutex == Free && t in s.calls && s.calls[t] == SetOps.Resting
    ensures SetOps.Step(s, t, SetOps.Hold, s') && s'.mutex == Held(t, 1)
    ensures SetOps.Step(s', t, SetOps.ReadCount(|s.tree|), s') && SetOps.Step(s', t, SetOps.Unhold, s)
  {
    s' := s.(mutex := Held(t, 1));
  }

  // ---------- The calls of set_next in a pass ----------

  ghost predicate RunBy(r: seq<System>, who: seq<Tid>, did: seq<Action>) {
    && |r| > 0 && |who| == |did| == |r| - 1 && Init(r[0].lock) && r[0].pass == None
    && forall i | 0 <= i < |did| :: SystemStep(r[i], who[i], did[i], r[i + 1])
  }

  lemma IsRun(r: seq<System>, who: seq<Tid>, did: seq<Action>)
    requires RunBy(r, who, did)
    ensures SystemRun(r)
  {
    hide SystemStep, Init;
  }

  /** How many times t has called set_next since step i. */
  function Calls(who: seq<Tid>, did: seq<Action>, i: nat, n: nat, t: Tid): nat
    requires i <= n <= |who| == |did|
  {
    if n == i then 0 else Calls(who, did, i, n - 1, t) + if who[n - 1] == t && did[n - 1].Next? then 1 else 0
  }

  /** Where the traverser is after n calls, when there are length keys: after the last key
      comes NULL, and then the first key again. */
  function Position(n: nat, length: nat): (p: nat)
    ensures p <= length
  {
    if n == 0 then 0 else if Position(n - 1, length) == length then 0 else Position(n - 1, length) + 1
  }

  lemma {:induction false} FirstRound(n: nat, length: nat)
    requires n <= length
    ensures Position(n, length) == n
  {
    if n > 0 {
      FirstRound(n - 1, length);
    }
  }

  lemma InOrderIsUnique(m: map<Key, nat>, a: seq<Key>, b: seq<Key>)
    requires InOrderOf(m, a) && InOrderOf(m, b)
    ensures a == b
  {
    SortedIsUnique(a, b);
  }

  lemma {:induction false} SortedIsUnique(a: seq<Key>, b: seq<Key>)
    requires forall i, j | 0 <= i < j < |a| :: a[i] < a[j]
    requires forall i, j | 0 <= i < j < |b| :: b[i] < b[j]
    requires forall k: Key :: k in a <==> k in b
    ensures a == b
  {
    assert b != [] ==> b[0] in a;
    if a != [] {
      assert a[0] in b && b[0] in a;
      assert a[0] == b[0];
      forall k: Key ensures k in a[1..] <==> k in b[1..] {
        assert k in a <==> k in b;
        assert a == [a[0]] + a[1..] && b == [b[0]] + b[1..];
      }
      SortedIsUnique(a[1..], b[1..]);
    }
  }

  /** t is passing over keys and has got to position p. */
  ghost predicate PassAt(s: System, t: Tid, keys: seq<Key>, p: nat) {
    && Passes(s, t) && InOrderOf(s.pass.pass.start, keys) && s.contents == s.pass.pass.start
    && p <= |keys| && s.left == keys[p..]
  }

  /** set_finish of the outermost set_start. */
  ghost predicate Finishes(s: System, t: Tid, a: Action, s': System) {
    a.LockAction? && t in s'.lock.threads && s'.lock.threads[t] == Thread(CheckOwner, 1)
  }

  lemma PassMoves(s: System, u: Tid, a: Action, s': System, t: Tid, keys: seq<Key>, p: nat)
    requires Inv(s.lock) && PassInv(s) && SystemStep(s, u, a, s') && PassAt(s, t, keys, p)
    requires u == t ==> !Finishes(s, t, a, s')
    ensures s'.contents == s.contents
    ensures PassAt(s', t, keys, if u != t || !a.Next? then p else if p == |keys| then 0 else p + 1)
  {
    if u != t {
      OthersWait(s, u, a, s', t);
    } else if a.Next? && p == |keys| {
      InOrderIsUnique(s.contents, keys, s'.left);
    }
  }

  lemma OthersWait(s: System, u: Tid, a: Action, s': System, t: Tid)
    requires Inv(s.lock) && PassInv(s) && SystemStep(s, u, a, s') && Passes(s, t) && u != t
    ensures s'.pass == s.pass && s'.left == s.left && s'.contents == s.contents
  {
    if Inside(s.lock, u) {
      AloneInside(s.lock, u, t);
    }
  }

  lemma Starts(s: System, t: Tid, s': System)
    requires SystemStep(s, t, Start, s')
    ensures PassAt(s', t, s'.left, 0)
  {
  }

  /** In every run, from set_start until set_finish, whatever the other threads do: the n-th
      set_next of the thread, counting from 0, finds the n-th key of the contents at set_start
      next, and after the last key nothing, which is where the code returns NULL and starts
      again. */
  lemma {:induction false} NthNext(r: seq<System>, who: seq<Tid>, did: seq<Action>, i: nat, n: nat, t: Tid)
    requires RunBy(r, who, did) && i < n < |r| && who[i] == t && did[i] == Start
    requires forall k | i < k < n && who[k] == t :: !Finishes(r[k], t, did[k], r[k + 1])
    ensures var keys := r[i + 1].left;
      && InOrderOf(r[i].contents, keys) && r[n].contents == r[i].contents
      && Passes(r[n], t) && r[n].left == keys[Position(Calls(who, did, i + 1, n, t), |keys|)..]
    decreases n
  {
    hide SystemStep, Inv, PassInv, Init, Finishes, InOrderOf;
    IsRun(r, who, did);
    PassInvHolds(r, i);
    var keys := r[i + 1].left;
    StartKeeps(r[i], t, r[i + 1]);
    if n == i + 1 {
      Starts(r[i], t, r[i + 1]);
    } else {
      NthNext(r, who, did, i, n - 1, t);
      PassInvHolds(r, n - 1);
      var p := Position(Calls(who, did, i + 1, n - 1, t), |keys|);
      PassIs(r[n - 1], t);
      PassMoves(r[n - 1], who[n - 1], did[n - 1], r[n - 1 + 1], t, keys, p);
    }
  }

  lemma StartKeeps(s: System, t: Tid, s': System)
    requires SystemStep(s, t, Start, s')
    ensures s'.contents == s.contents && InOrderOf(s.contents, s'.left) && Passes(s', t)
  {
  }

  lemma PassIs(s: System, t: Tid)
    requires PassInv(s) && Passes(s, t)
    ensures s.contents == s.pass.pass.start
  {
  }

  /** The first round: set_next returns the keys one after another, and then NULL. */
  lemma FirstRoundNext(r: seq<System>, who: seq<Tid>, did: seq<Action>, i: nat, n: nat, t: Tid)
    requires RunBy(r, who, did) && i < n < |r| && who[i] == t && did[i] == Start
    requires forall k | i < k < n && who[k] == t :: !Finishes(r[k], t, did[k], r[k + 1])
    ensures var keys, calls := r[i + 1].left, Calls(who, did, i + 1, n, t);
      && (forall k: Key :: k in keys <==> k in r[i].contents)
      && (calls < |keys| ==> r[n].left != [] && r[n].left[0] == keys[calls])
      && (calls == |keys| ==> r[n].left == [])
  {
    NthNext(r, who, did, i, n, t);
    var keys, calls := r[i + 1].left, Calls(who, did, i + 1, n, t);
    if calls <= |keys| {
      FirstRound(calls, |keys|);
    }
  }

  // ---------- A pass can be had ----------

  function Without(m: map<Key, nat>, k: Key): map<Key, nat> {
    map x | x in m && x != k :: m[x]
  }

  lemma {:induction false} Greatest(keys: set<Key>) returns (k: Key)
    requires keys != {}
    ensures k in keys && forall x | x in keys :: x <= k
  {
    k :| k in keys;
    if keys != {k} {
      var rest := keys - {k};
      assert rest != {} by {
        assert forall x | x in keys :: x in rest || x == k;
      }
      var g := Greatest(rest);
      var other := k;
      k := if other < g then g else other;
      forall x | x in keys ensures x <= k {
        assert x in rest || x == other;
      }
    }
  }

  /** Every contents can be listed in order. */
  lemma {:induction false} HasOrder(m: map<Key, nat>) returns (keys: seq<Key>)
    ensures InOrderOf(m, keys)
    decreases |m|
  {
    if m == map[] {
      keys := [];
    } else {
      assert m.Keys != {} by {
        var k :| k in m;
      }
      var k := Greatest(m.Keys);
      var rest := Without(m, k);
      assert rest.Keys == m.Keys - {k};
      assert |m.Keys| == |m| && |rest.Keys| == |rest|;
      var before := HasOrder(rest);
      keys := before + [k];
      forall x: Key ensures x in m <==> x in keys {
        assert x in rest <==> x in before;
      }
      assert forall i | 0 <= i < |before| :: before[i] in rest;
    }
  }

  /** A thread in a body may start a pass or change the contents as it likes, and one that
      passes may call set_next. */
  lemma PassGoesOn(s: System, t: Tid, contents: map<Key, nat>) returns (s': System)
    requires InBody(s, t)
    ensures SystemStep(s, t, if Passes(s, t) then Next else Start, s')
    ensures !Passes(s, t) ==> SystemStep(s, t, Mutate, s.(contents := contents))
  {
    var keys := HasOrder(s.contents);
    if Passes(s, t) {
      s' := s.(left := if s.left == [] then keys else s.left[1..], pass := Some(Seen(s.pass.pass, s.left)));
    } else {
      s' := s.(left := keys, pass := Some(Pass(t, s.contents, [], false)));
    }
  }
}
