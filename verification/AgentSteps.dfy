/** What Objects.Agent does to its tables are the agent's steps in the protocol of IdProtocol
    (agent/src/opencl_object.c:29-102). */
module AgentSteps {
  import opened IdProtocol
  import Provider
  import Ids
  import Objects

  type Word = Objects.Word

  /** The protocol has the ID in agent->objects. */
  predicate IsObject(g: Stage) {
    g.Recorded? || g.LiveObject? || g.Attached?
  }

  predicate ObjectOk(o: Objects.ObjectRecord, g: Stage) {
    match g
    case Attached(actual) => o.actual == actual
    case Recorded(c, actual) => o.actual == actual && o.owner == Objects.By(c) && o.refcnt > 0
    case LiveObject(c, actual) => o.actual == actual && o.owner == Objects.By(c) && o.refcnt > 0
    case _ => false
  }

  /** id_pool and agent->objects are as the stages of the IDs say. */
  ghost predicate Matches(t: Objects.Tables, s: State) {
    && (forall id: Word :: id in t.pool <==> InPool(s, id))
    && (forall id: Word :: id in t.objects <==> id in s.ids && IsObject(s.ids[id]))
    && forall id | id in t.objects && id in s.ids :: ObjectOk(t.objects[id], s.ids[id])
  }

  /** A new object is entered under a new ID, and then its MAPPING is sent. */
  lemma CreatedSteps(t: Objects.Tables, s: State, c: Consumer, id: Word, actual: Word) returns (s1: State, s2: State)
    requires Matches(t, s) && Fresh(s, id) && actual != 0
    ensures var u := Objects.After(Objects.After(t, Objects.Drawn(id)), Objects.Created(c, id, actual));
      && Step(s, NewObject(c, id, actual), s1) && Step(s1, SendMapping(id), s2)
      && Matches(u, s1) && Matches(u, s2)
  {
    s1 := s.(ids := s.ids[id := Recorded(c, actual)]);
    s2 := s1.(ids := s1.ids[id := LiveObject(c, actual)], queue := s1.queue + [Provider.Mapping(actual, id)]);
  }

  /** A release is a step of the protocol when the counter reaches zero, and otherwise nothing
      that the protocol sees. */
  lemma DroppedStep(t: Objects.Tables, s: State, c: Consumer, id: Word) returns (s': State)
    requires Matches(t, s) && t.Ok() && Objects.Counts(t, Objects.Dropped(c, id)) && (id in s.ids ==> !s.ids[id].Recorded?)
    ensures Matches(Objects.After(t, Objects.Dropped(c, id)), s')
    ensures if id in t.objects && t.objects[id].refcnt == 1
            then Step(s, Release(id), s') || Step(s, Discard(id), s') else s' == s
  {
    Objects.SoundAt(t, id);
    s' := s;
    if id in t.objects && t.objects[id].refcnt == 1 {
      var g := s.ids[id];
      s' := s.(ids := s.ids[id := if g.Attached? then Discarded(g.actual) else Released(g.owner, g.actual)]);
      assert Step(s, if g.Attached? then Discard(id) else Release(id), s');
    }
  }

  /** A retain is nothing that the protocol sees. */
  lemma RetainedStep(t: Objects.Tables, s: State, c: Consumer, id: Word)
    requires Matches(t, s) && Objects.Proceeds(t, Objects.Retained(c, id)) && Objects.Counts(t, Objects.Retained(c, id))
    ensures Matches(Objects.After(t, Objects.Retained(c, id)), s)
  {
  }

  /** clCreateObject as the agent runs it on its tables. */
  method Create(a: Objects.Agent, consumer: Consumer, actual: Word, draws: nat -> Word, ghost n: nat, intended: bool,
                ghost s: State)
    returns (id: Word, certain: bool, ghost s1: State, ghost s2: State)
    requires a.Valid() && a.Able() && consumer in a.held && actual != 0 && Ids.FirstDraw(a.Now().pool, draws, n)
    requires Matches(a.Now(), s) && Fresh(s, draws(n))
    modifies a, a.pool.Repr()
    ensures certain ==>
      && a.Valid() && Step(s, NewObject(consumer, id, actual), s1) && Step(s1, SendMapping(id), s2)
      && Matches(a.Now(), s1) && Matches(a.Now(), s2)
  {
    hide *;
    ghost var t := a.Now();
    s1, s2 := CreatedSteps(t, s, consumer, draws(n), actual);
    id, certain := a.CreateObject(consumer, actual, 0, draws, n, intended);
    Objects.TwoEvents(t, Objects.Drawn(draws(n)), Objects.Created(consumer, draws(n), actual));
    assert [Objects.Drawn(draws(n))] + [Objects.Created(consumer, draws(n), actual)]
        == [Objects.Drawn(draws(n)), Objects.Created(consumer, draws(n), actual)];
  }

  /** clReleaseObject as the agent runs it on its tables. */
  method ReleaseOne(a: Objects.Agent, consumer: Consumer, id: Word, ghost s: State) returns (ok: bool, ghost s': State)
    requires a.Valid() && a.Able() && Objects.Counts(a.Now(), Objects.Dropped(consumer, id))
    requires Matches(a.Now(), s) && (id in s.ids ==> !s.ids[id].Recorded?)
    modifies a, a.pool.Repr()
    ensures a.Valid() && Matches(a.Now(), s')
    ensures if id in old(a.objects) && old(a.objects[id].refcnt) == 1
            then Step(s, Release(id), s') || Step(s, Discard(id), s') else s' == s
  {
    hide *;
    a.NowIs();
    s' := DroppedStep(a.Now(), s, consumer, id);
    ok := a.ReleaseObject(consumer, id);
  }
}
