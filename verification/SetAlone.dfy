/** The operations of Set.LockedSet, run by one thread with nobody else about, are runs of
    the step relation of SetOps (common/set.c:84-149). */
module SetAlone {
  import opened Lock
  import opened RbNodes
  import opened Set
  import SetOps
  import SetPass

  /** The value describes the set while nobody is in an operation. */
  ghost predicate Describes(sys: SetOps.System, s: LockedSet, self: Tid)
    requires s.lock.Valid()
    reads s, s.tree, s.lock
  {
    && sys.mutex == s.lock.Mutex() && SetOps.Contents(sys) == s.Contents()
    && SetOps.Inv(sys) && !sys.met && self in sys.calls && sys.calls[self] == SetOps.Resting
  }

  /** A run of one thread. */
  ghost predicate RunsAlone(r: seq<SetOps.System>, self: Tid, did: seq<SetOps.Action>) {
    |r| == |did| + 1 && forall i | 0 <= i < |did| :: SetOps.Step(r[i], self, did[i], r[i + 1])
  }

  /** The steps of one operation, from the call to the return. */
  lemma OneOperation(sys: SetOps.System, self: Tid, op: Op)
    returns (r: seq<SetOps.System>, did: seq<SetOps.Action>, answer: Answer)
    requires SetOps.Inv(sys) && !sys.met && sys.mutex == Free && self in sys.calls && sys.calls[self] == SetOps.Resting
    requires op != Count
    ensures RunsAlone(r, self, did) && |did| == 6 && |r| == 7 && r[0] == sys
    ensures did[0] == SetOps.Invoke(op) && did[5] == SetOps.Return(answer)
    ensures r[6].mutex == Free && self in r[6].calls && r[6].calls[self] == SetOps.Resting && SetOps.Inv(r[6])
    ensures Answers(SetOps.Contents(sys), op, answer)
    ensures r[6].met <==> Repeats(SetOps.Contents(sys), op)
    ensures !r[6].met ==> SetOps.Contents(r[6]) == After(SetOps.Contents(sys), op)
  {
    hide SetOps.Step, SetOps.Inv, SetOps.Contents, Answers, After, Repeats, SetOps.Written, SetOps.Allocated, SetOps.Told;
    FreeAddress(sys.items.Keys);
    var at: SetOps.Addr :| at != NULL && at !in sys.items.Keys;
    NewIsNotFree(sys, self, at);
    var b, didB := SetOps.BodyAlone(sys, self, op, at);
    var last := SetOps.Returns(b[5], self);
    var c := b[5].calls[self];
    answer := c.answer;
    r := b + [last];
    did := didB + [SetOps.Return(answer)];
    forall i | 0 <= i < 6 ensures SetOps.Step(r[i], self, did[i], r[i + 1]) {
      if i < 5 {
        assert SetOps.Step(b[i], self, didB[i], b[i + 1]);
      }
    }
    Silent(r[0], self, did[0], r[1]);
    Silent(r[1], self, did[1], r[2]);
    Silent(r[2], self, did[2], r[3]);
    SetOps.OtherCalls(r[4], self, did[4], r[5]);
    SetOps.OwnPending(r[4], self, did[4], r[5]);
    SetOps.StepInv(r[3], self, did[3], r[4]);
    SetOps.StepLinearizes(r[3], self, did[3], r[4]);
    Silent(r[4], self, did[4], r[5]);
    Silent(r[5], self, did[5], r[6]);
  }

  /** A step that is no body changes nothing that can be seen. */
  lemma Silent(sys: SetOps.System, self: Tid, a: SetOps.Action, next: SetOps.System)
    requires SetOps.Inv(sys) && SetOps.Step(sys, self, a, next) && !a.Write?
    ensures SetOps.Inv(next) && (next.met <==> sys.met)
    ensures !sys.met ==> SetOps.Contents(next) == SetOps.Contents(sys)
  {
    hide *;
    SetOps.StepInv(sys, self, a, next);
    if sys.met {
      SetOps.MetStays(sys, self, a, next);
    } else {
      SetOps.StepLinearizes(sys, self, a, next);
    }
  }

  lemma NewIsNotFree(sys: SetOps.System, self: Tid, at: SetOps.Addr)
    requires SetOps.Inv(sys) && !sys.met && at !in sys.items && self in sys.calls && sys.calls[self] == SetOps.Resting
    ensures at !in sys.freed && self !in sys.stale
  {
    assert SetOps.CallOk(sys, self) && SetOps.Tidy(sys);
  }

  /** One operation of the set as the code runs it, with nobody else about: it answers as the
      step relation does, and where that goes on to promise anything, the two agree
      afterwards. */
  method Alone(s: LockedSet, self: Tid, op: Op, ghost sys: SetOps.System)
    returns (a: Answer, ghost r: seq<SetOps.System>, ghost did: seq<SetOps.Action>)
    requires s.Enterable(self) && s.Intact() && (op.Insert? || op.Remove? ==> s.Roomy()) && op != Count
    requires s.lock.Valid() && s.lock.Mutex() == Free && Describes(sys, s, self)
    modifies s.Repr()
    ensures RunsAlone(r, self, did) && |did| == 6 && |r| == 7 && r[0] == sys && did[0] == SetOps.Invoke(op) && did[5].Return?
    ensures Same(op, a, did[5].answer)
    ensures s.lock.Valid() && (s.Intact() <==> !r[6].met)
    ensures s.Intact() ==> Describes(r[6], s, self)
  {
    hide *;
    ghost var m, answer := s.Contents(), Flag(true);
    Described(sys, s, self);
    s.LinkedParts();
    s.OpenLock(self, Free);
    a := Perform(s, self, op, false);
    s.LinkedParts();
    r, did, answer := OneOperation(sys, self, op);
    SameAnswers(m, op, a, answer);
    Described(r[6], s, self);
  }

  /** Equal, but for the datum when nothing is found. */
  predicate Same(op: Op, a: Answer, b: Answer) {
    a == b || (op.Find? && a.Lookup? && b.Lookup? && !a.ok && !b.ok)
  }

  lemma SameAnswers(m: map<Key, nat>, op: Op, a: Answer, b: Answer)
    requires Answers(m, op, a) && Answers(m, op, b)
    ensures Same(op, a, b)
  {
  }

  lemma Described(sys: SetOps.System, s: LockedSet, self: Tid)
    requires s.lock.Valid()
    ensures Describes(sys, s, self) <==>
      && sys.mutex == s.lock.Mutex() && SetOps.Contents(sys) == s.Contents()
      && SetOps.Inv(sys) && !sys.met && self in sys.calls && sys.calls[self] == SetOps.Resting
  {
  }

  lemma KeysInOrder(s: LockedSet)
    requires s.Valid()
    ensures SetPass.InOrderOf(s.Contents(), Keys(s.Items()))
  {
    s.Sizes();
    ItemsList(s.Items());
    forall k: Key | k in s.Contents() ensures k in Keys(s.Items()) {
      ListingIsComplete(s.Contents(), Keys(s.Items()), Datas(s.Items()), k);
    }
  }

  lemma KeysTail(s: seq<Item>)
    requires s != []
    ensures Keys(s[1..]) == Keys(s)[1..] && Keys(s)[0] == s[0].key
  {
  }

  /** set_start as the code runs it leaves the keys before the pass that SetPass.StartStep
      does. */
  method StartAlone(s: LockedSet, self: Tid)
    requires s.Enterable(self)
    modifies s.lock, s.trav
    ensures s.Passing(self) && s.Contents() == old(s.Contents())
    ensures SetPass.InOrderOf(s.Contents(), Keys(s.Left()))
  {
    hide *;
    s.ReprAllocated();
    s.EnterableIsValid(self);
    KeysInOrder(s);
    s.Start(self);
  }

  /** set_next as the code runs it moves the traverser as SetPass.NextStep does, and returns
      the datum under the key that it passes. */
  method NextAlone(s: LockedSet, self: Tid) returns (data: nat)
    requires s.Passing(self) && s.Roomy() && s.Intact()
    modifies s.lock, s.trav, s.trav.stack
    ensures s.Passing(self) && s.Contents() == old(s.Contents())
    ensures SetPass.Moves(s.Contents(), Keys(old(s.Left())), Keys(s.Left()))
    ensures if old(s.Left()) == [] then data == NULL else data == old(s.Left())[0].data
  {
    hide *;
    s.ReprAllocated();
    ghost var left := s.Left();
    NoKeys(left);
    if left != [] {
      KeysTail(left);
    }
    PassingIsValid(s, self);
    KeysInOrder(s);
    data := s.Next(self);
    MovesIs(s.Contents(), Keys(left), Keys(s.Left()));
  }

  lemma PassingIsValid(s: LockedSet, self: Tid)
    requires s.Passing(self)
    ensures s.Valid()
  {
  }

  lemma NoKeys(s: seq<Item>)
    ensures Keys(s) == [] <==> s == []
  {
  }

  lemma MovesIs(m: map<Key, nat>, left: seq<Key>, left': seq<Key>)
    requires if left == [] then SetPass.InOrderOf(m, left') else left' == left[1..]
    ensures SetPass.Moves(m, left, left')
  {
  }
}
