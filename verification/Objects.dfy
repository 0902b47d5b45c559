/** Reference-counted OpenCL objects in the agent. */
module Objects {
  // agent/src/opencl_object.c:29-102 and agent/src/object.c:3-94.  id_pool is the locked set
  // that Ids draws from; the sets agent->objects and consumer->objects are finite maps, and an
  // object is kept under its ID; one thread runs.

  import Ids
  import Lock
  import RbHeight
  import RbNodes
  import Set

  type Word = RbNodes.Key

  type Consumer = nat

  /** refcnt is a uint32_t. */
  const REFCNT_MODULUS: nat := 0x1_0000_0000

  datatype Owner = Nobody | By(consumer: Consumer)

  /** struct _object without its lock and its provider. */
  datatype ObjectRecord = ObjectRecord(actual: Word, refcnt: nat, owner: Owner)

  /** A platform or a device is entered without a reference and belongs to nobody.  Any
      other object has a reference count of at least one and lies in the set of its own
      consumer.  IDs are non-zero and in id_pool. */
  predicate SoundObject(pool: set<Word>, o: ObjectRecord, held: map<Consumer, set<Word>>, id: Word) {
    && id != 0 && id in pool && o.refcnt < REFCNT_MODULUS
    && (if o.refcnt == 0 then o.owner == Nobody
        else o.owner.By? && o.owner.consumer in held && id in held[o.owner.consumer])
  }

  /** What lies in a consumer's set is an object of that consumer, and so in no other set. */
  predicate SoundHeld(objects: map<Word, ObjectRecord>, ids: set<Word>, c: Consumer) {
    forall id | id in ids :: id in objects && objects[id].owner == By(c)
  }

  ghost predicate Sound(pool: set<Word>, objects: map<Word, ObjectRecord>, held: map<Consumer, set<Word>>) {
    && (forall id | id in objects :: SoundObject(pool, objects[id], held, id))
    && (forall c | c in held :: SoundHeld(objects, held[c], c))
  }

  // ---------- The tables as a value ----------

  datatype Tables = Tables(pool: set<Word>, objects: map<Word, ObjectRecord>, held: map<Consumer, set<Word>>) {
    ghost predicate Ok() {
      Sound(pool, objects, held)
    }
  }

  /** What a successful call does. */
  datatype Event =
    | Drawn(id: Word)
    | Attached(id: Word, actual: Word)
    | Created(consumer: Consumer, id: Word, actual: Word)
    | Retained(consumer: Consumer, id: Word)
    | Dropped(consumer: Consumer, id: Word)

  function Put(t: Tables, id: Word, o: ObjectRecord): Tables {
    t.(objects := t.objects[id := o])
  }

  /** id enters the set of c. */
  function Enter(t: Tables, c: Consumer, id: Word): Tables {
    if c in t.held then t.(held := t.held[c := t.held[c] + {id}]) else t
  }

  function Leave(t: Tables, c: Consumer, id: Word): Tables {
    if c in t.held then t.(held := t.held[c := t.held[c] - {id}]) else t
  }

  function After(t: Tables, e: Event): Tables {
    match e
    case Drawn(id) => t.(pool := t.pool + {id})
    case Attached(id, actual) => Put(t, id, ObjectRecord(actual, 0, Nobody))
    case Created(c, id, actual) => Put(Enter(t, c, id), id, ObjectRecord(actual, 1, By(c)))
    case Retained(c, id) =>
      if id !in t.objects then t
      else
        var o := t.objects[id];
        var n := (o.refcnt + 1) % REFCNT_MODULUS;
        if o.refcnt == 0 then Put(Enter(t, c, id), id, ObjectRecord(o.actual, n, By(c)))
        else Put(t, id, o.(refcnt := n))
    case Dropped(_, id) =>
      if id !in t.objects then t
      else
        var o := t.objects[id];
        var n := (o.refcnt + REFCNT_MODULUS - 1) % REFCNT_MODULUS;
        if n == 0 then
          var l := if o.owner.By? then Leave(t, o.owner.consumer, id) else t;
          l.(pool := l.pool - {id}, objects := map k | k in l.objects && k != id :: l.objects[k])
        else Put(t, id, o.(refcnt := n))
  }

  function AfterAll(t: Tables, h: seq<Event>): Tables {
    if h == [] then t else After(AfterAll(t, h[..|h| - 1]), h[|h| - 1])
  }

  /** The code gets through the call: no new ID is in use, and no assert fails. */
  predicate Proceeds(t: Tables, e: Event) {
    match e
    case Drawn(id) => id != 0 && id !in t.pool
    case Attached(id, _) => id != 0 && id in t.pool && id !in t.objects
    case Created(c, id, _) => id != 0 && id in t.pool && id !in t.objects && c in t.held
    case Retained(c, id) => c in t.held && (id in t.objects && t.objects[id].refcnt > 0 ==> t.objects[id].owner == By(c))
    case Dropped(_, _) => true
  }

  /** The counter does not wrap. */
  predicate Counts(t: Tables, e: Event) {
    match e
    case Retained(_, id) => id in t.objects ==> t.objects[id].refcnt + 1 < REFCNT_MODULUS
    case Dropped(_, id) => id in t.objects ==> t.objects[id].refcnt > 0
    case _ => true
  }

  lemma SoundAt(t: Tables, id: Word)
    requires t.Ok()
    ensures id in t.objects ==> SoundObject(t.pool, t.objects[id], t.held, id)
    ensures id !in t.objects ==> forall c | c in t.held :: id !in t.held[c]
    ensures id in t.objects ==> forall c | c in t.held && id in t.held[c] :: t.objects[id].owner == By(c)
  {
    forall c | c in t.held && id in t.held[c] ensures id in t.objects && t.objects[id].owner == By(c) {
      assert SoundHeld(t.objects, t.held[c], c);
    }
  }

  /** Every event keeps the other objects as sound as they were. */
  lemma OthersStay(t: Tables, e: Event, k: Word)
    requires t.Ok() && Proceeds(t, e) && k != e.id && k in After(t, e).objects
    ensures k in t.objects && SoundObject(After(t, e).pool, After(t, e).objects[k], After(t, e).held, k)
  {
    SoundAt(t, k);
    SoundAt(t, e.id);
  }

  lemma SetsStay(t: Tables, e: Event, c: Consumer)
    requires t.Ok() && Proceeds(t, e) && c in After(t, e).held
    ensures SoundHeld(After(t, e).objects, After(t, e).held[c], c)
  {
    assert c in t.held && SoundHeld(t.objects, t.held[c], c);
    SoundAt(t, e.id);
  }

  /** An event keeps the tables sound if and only if the counter does not wrap. */
  lemma StepSound(t: Tables, e: Event)
    requires t.Ok() && Proceeds(t, e)
    ensures After(t, e).Ok() <==> Counts(t, e)
    ensures After(t, e).held.Keys == t.held.Keys
  {
    var t' := After(t, e);
    SoundAt(t, e.id);
    if Counts(t, e) {
      forall k | k in t'.objects ensures SoundObject(t'.pool, t'.objects[k], t'.held, k) {
        if k != e.id {
          OthersStay(t, e, k);
        }
      }
      forall c | c in t'.held ensures SoundHeld(t'.objects, t'.held[c], c) {
        SetsStay(t, e, c);
      }
    } else {
      assert !SoundObject(t'.pool, t'.objects[e.id], t'.held, e.id);
    }
  }

  /** One event after another. */
  lemma TwoEvents(t: Tables, a: Event, b: Event)
    ensures AfterAll(t, [a]) == After(t, a) && AfterAll(t, [a, b]) == After(After(t, a), b)
  {
    assert [a, b][..1] == [a] && [a][..0] == [];
  }

  lemma AttachFacts(t: Tables, id: Word, actual: Word)
    requires t.Ok() && Proceeds(t, Drawn(id))
    ensures var u := After(t, Drawn(id)); var v := Tables(u.pool, u.objects[id := ObjectRecord(actual, 0, Nobody)], u.held);
            v.Ok() && v == AfterAll(t, [Drawn(id), Attached(id, actual)])
  {
    TwoEvents(t, Drawn(id), Attached(id, actual));
    StepSound(t, Drawn(id));
    SoundAt(t, id);
    StepSound(After(t, Drawn(id)), Attached(id, actual));
  }

  lemma CreateFacts(t: Tables, u: Tables, c: Consumer, id: Word, actual: Word, wish: Word)
    requires t.Ok() && c in t.held && id !in t.objects
    requires if wish == 0 then Proceeds(t, Drawn(id)) && u == After(t, Drawn(id)) else u == t && id in t.pool && id != 0
    ensures 1 % REFCNT_MODULUS == 1
    ensures var v := Tables(u.pool, u.objects[id := ObjectRecord(actual, 0, Nobody)][id := ObjectRecord(actual, 1, By(c))],
                            u.held[c := u.held[c] + {id}]);
            v.Ok() && v == AfterAll(t, (if wish == 0 then [Drawn(id)] else []) + [Created(c, id, actual)])
  {
    hide Sound, SoundObject, SoundHeld;
    if wish == 0 {
      TwoEvents(t, Drawn(id), Created(c, id, actual));
      StepSound(t, Drawn(id));
    } else {
      TwoEvents(t, Created(c, id, actual), Created(c, id, actual));
      assert [] + [Created(c, id, actual)] == [Created(c, id, actual)];
    }
    StepSound(u, Created(c, id, actual));
    assert Tables(u.pool, u.objects[id := ObjectRecord(actual, 0, Nobody)][id := ObjectRecord(actual, 1, By(c))],
                  u.held[c := u.held[c] + {id}]) == After(u, Created(c, id, actual));
  }

  lemma RetainFacts(t: Tables, c: Consumer, id: Word)
    requires t.Ok() && c in t.held
    ensures Proceeds(t, Retained(c, id)) <==> (id in t.objects && t.objects[id].refcnt > 0 ==> t.objects[id].owner == By(c))
    ensures id !in t.objects ==> After(t, Retained(c, id)) == t
    ensures id in t.objects && t.objects[id].refcnt == 0 ==> id !in t.held[c]
    ensures id in t.objects && Proceeds(t, Retained(c, id)) ==>
      var o, n := t.objects[id], (t.objects[id].refcnt + 1) % REFCNT_MODULUS;
      After(t, Retained(c, id)) ==
      Tables(t.pool, t.objects[id := ObjectRecord(o.actual, n, By(c))], if o.refcnt == 0 then t.held[c := t.held[c] + {id}] else t.held)
    ensures Proceeds(t, Retained(c, id)) ==> (After(t, Retained(c, id)).Ok() <==> Counts(t, Retained(c, id)))
  {
    SoundAt(t, id);
    if Proceeds(t, Retained(c, id)) {
      StepSound(t, Retained(c, id));
    }
    hide Sound;
  }

  lemma DropFacts(t: Tables, c: Consumer, id: Word)
    requires t.Ok()
    ensures id !in t.objects ==> After(t, Dropped(c, id)) == t
    ensures id in t.objects ==>
      var o, n := t.objects[id], (t.objects[id].refcnt + REFCNT_MODULUS - 1) % REFCNT_MODULUS;
      && o.refcnt < REFCNT_MODULUS && (o.refcnt == 1 <==> n == 0) && id in t.pool
      && (n != 0 ==> After(t, Dropped(c, id)) == Tables(t.pool, t.objects[id := ObjectRecord(o.actual, n, o.owner)], t.held))
      && (n == 0 ==>
            && o.owner.By? && o.owner.consumer in t.held && id in t.held[o.owner.consumer]
            && After(t, Dropped(c, id)) ==
               Tables(t.pool - {id}, t.objects[id := ObjectRecord(o.actual, n, Nobody)] - {id},
                      t.held[o.owner.consumer := t.held[o.owner.consumer] - {id}]))
  {
    SoundAt(t, id);
  }

  // ---------- Whole histories ----------

  /** Every call of the history gets through. */
  ghost predicate AllProceed(t: Tables, h: seq<Event>) {
    forall i | 0 <= i < |h| :: Proceeds(AfterAll(t, h[..i]), h[i])
  }

  /** The balance after one more event. */
  function Next(b: int, e: Event, id: Word): int {
    b + if e.Retained? && e.id == id then 1 else if e.Dropped? && e.id == id then -1 else 0
  }

  /** Retains minus releases of an object. */
  function Balance(h: seq<Event>, id: Word): int {
    if h == [] then 0 else Next(Balance(h[..|h| - 1], id), h[|h| - 1], id)
  }

  /** Release i brought the counter to zero. */
  predicate DrainedAt(r: nat, h: seq<Event>, id: Word, i: nat)
    requires 0 < i <= |h|
  {
    h[i - 1].Dropped? && h[i - 1].id == id && (r + Balance(h[..i], id)) % REFCNT_MODULUS == 0
  }

  ghost predicate Drained(r: nat, h: seq<Event>, id: Word) {
    exists i | 0 < i <= |h| :: DrainedAt(r, h, id, i)
  }

  /** The object is in the tables all along. */
  ghost predicate Lasts(t: Tables, h: seq<Event>, id: Word) {
    forall i | 0 <= i <= |h| :: id in AfterAll(t, h[..i]).objects
  }

  lemma ShorterProceeds(t: Tables, h: seq<Event>)
    requires h != []
    ensures AllProceed(t, h) <==> AllProceed(t, h[..|h| - 1]) && Proceeds(AfterAll(t, h[..|h| - 1]), h[|h| - 1])
  {
    hide AfterAll, Proceeds;
    var g := h[..|h| - 1];
    assert forall i | 0 <= i < |h| :: h[..i] == g[..i];
    assert g[..|g|] == g;
    if AllProceed(t, h) {
      forall i | 0 <= i < |g| ensures Proceeds(AfterAll(t, g[..i]), g[i]) {
        assert Proceeds(AfterAll(t, h[..i]), h[i]);
      }
      assert Proceeds(AfterAll(t, h[..|g|]), h[|g|]);
    }
    if AllProceed(t, g) && Proceeds(AfterAll(t, g), h[|g|]) {
      forall i | 0 <= i < |h| ensures Proceeds(AfterAll(t, h[..i]), h[i]) {
        assert i < |g| ==> Proceeds(AfterAll(t, g[..i]), g[i]);
      }
    }
  }

  lemma ShorterLasts(t: Tables, h: seq<Event>, id: Word)
    requires h != []
    ensures Lasts(t, h, id) <==> Lasts(t, h[..|h| - 1], id) && id in AfterAll(t, h).objects
  {
    hide AfterAll;
    var g := h[..|h| - 1];
    assert h[..|h|] == h;
    assert forall i | 0 <= i < |h| :: h[..i] == g[..i];
    if Lasts(t, h, id) {
      assert id in AfterAll(t, h[..|h|]).objects;
      forall i | 0 <= i <= |g| ensures id in AfterAll(t, g[..i]).objects {
        assert id in AfterAll(t, h[..i]).objects;
      }
    }
  }

  lemma ShorterDrained(r: nat, h: seq<Event>, id: Word)
    requires h != []
    ensures Drained(r, h, id) <==> Drained(r, h[..|h| - 1], id) || DrainedAt(r, h, id, |h|)
  {
    var g := h[..|h| - 1];
    forall i | 0 < i <= |g| ensures DrainedAt(r, g, id, i) <==> DrainedAt(r, h, id, i) {
      assert h[..i] == g[..i];
    }
    hide DrainedAt;
    if Drained(r, g, id) {
      var i :| 0 < i <= |g| && DrainedAt(r, g, id, i);
      assert DrainedAt(r, h, id, i);
    }
    if Drained(r, h, id) {
      var i :| 0 < i <= |h| && DrainedAt(r, h, id, i);
      assert i <= |g| ==> DrainedAt(r, g, id, i);
    }
  }

  lemma Wraps(a: int, b: int)
    requires 0 <= b < REFCNT_MODULUS && b == a % REFCNT_MODULUS
    ensures (a + 1) % REFCNT_MODULUS == (b + 1) % REFCNT_MODULUS
    ensures (a - 1) % REFCNT_MODULUS == (b + REFCNT_MODULUS - 1) % REFCNT_MODULUS
  {
  }

  /** What an event does to the record of an object. */
  lemma EventAt(t: Tables, e: Event, id: Word)
    requires id in t.objects && Proceeds(t, e)
    ensures var o := t.objects[id]; var n := (o.refcnt + REFCNT_MODULUS - 1) % REFCNT_MODULUS;
      if e.Dropped? && e.id == id then
        && (id in After(t, e).objects <==> n != 0)
        && (n != 0 ==> After(t, e).objects[id] == o.(refcnt := n))
      else
        && id in After(t, e).objects && After(t, e).objects[id].actual == o.actual
        && After(t, e).objects[id].refcnt ==
             if e.Retained? && e.id == id then (o.refcnt + 1) % REFCNT_MODULUS else o.refcnt
  {
  }

  lemma BalanceStep(t: Tables, e: Event, id: Word, b: int)
    requires id in t.objects && Proceeds(t, e) && t.objects[id].refcnt == b % REFCNT_MODULUS
    ensures id in After(t, e).objects <==> !(e.Dropped? && e.id == id && Next(b, e, id) % REFCNT_MODULUS == 0)
    ensures id in After(t, e).objects ==>
      && After(t, e).objects[id].refcnt == Next(b, e, id) % REFCNT_MODULUS
      && After(t, e).objects[id].actual == t.objects[id].actual
  {
    EventAt(t, e, id);
    Wraps(b, t.objects[id].refcnt);
    hide After, Proceeds, REFCNT_MODULUS;
  }

  /** Over every history an object lasts until a release finds the count of its retains
      minus its releases at zero, modulo the width of the counter; until then its counter
      is that count. */
  lemma {:induction false} RefcntIsBalance(t: Tables, h: seq<Event>, id: Word)
    requires id in t.objects && t.objects[id].refcnt < REFCNT_MODULUS && AllProceed(t, h)
    ensures var r := t.objects[id].refcnt;
      && (Lasts(t, h, id) <==> !Drained(r, h, id))
      && (Lasts(t, h, id) ==>
            && id in AfterAll(t, h).objects
            && AfterAll(t, h).objects[id].refcnt == (r + Balance(h, id)) % REFCNT_MODULUS
            && AfterAll(t, h).objects[id].actual == t.objects[id].actual)
  {
    hide Drained, Lasts, AllProceed, After, Proceeds, REFCNT_MODULUS;
    var r := t.objects[id].refcnt;
    if h == [] {
      NoEvents(t, id);
    } else {
      var g, e := h[..|h| - 1], h[|h| - 1];
      ShorterProceeds(t, h);
      ShorterLasts(t, h, id);
      ShorterDrained(r, h, id);
      assert h[..|h|] == h;
      RefcntIsBalance(t, g, id);
      if Lasts(t, g, id) {
        BalanceStep(AfterAll(t, g), e, id, r + Balance(g, id));
      }
    }
  }

  lemma NoEvents(t: Tables, id: Word)
    requires id in t.objects && t.objects[id].refcnt < REFCNT_MODULUS
    ensures Lasts(t, [], id) && !Drained(t.objects[id].refcnt, [], id) && id in AfterAll(t, []).objects
    ensures t.objects[id].refcnt % REFCNT_MODULUS == t.objects[id].refcnt
  {
  }

  lemma {:induction false} AfterBoth(t: Tables, a: seq<Event>, b: seq<Event>)
    ensures AfterAll(t, a + b) == AfterAll(AfterAll(t, a), b)
    ensures AllProceed(t, a + b) <==> AllProceed(t, a) && AllProceed(AfterAll(t, a), b)
  {
    hide After, Proceeds, AllProceed;
    if b == [] {
      assert a + b == a;
      NothingProceeds(AfterAll(t, a));
    } else {
      var b' := b[..|b| - 1];
      assert (a + b)[..|a + b| - 1] == a + b';
      AfterBoth(t, a, b');
      ShorterProceeds(t, a + b);
      ShorterProceeds(AfterAll(t, a), b);
    }
  }

  lemma NothingProceeds(t: Tables)
    ensures AllProceed(t, [])
  {
  }

  // ---------- Requests ----------

  /** What rand() yields; number n is the one that id_create takes. */
  datatype Draws = Draws(number: nat -> Word, n: nat)

  datatype Request =
    | Attach(actual: Word, draws: Draws)
    | Create(consumer: Consumer, actual: Word, wish: Word, draws: Draws)
    | Retain(consumer: Consumer, id: Word)
    | Release(consumer: Consumer, id: Word)

  /** The ID of a new object. */
  function Taken(r: Request): (id: Word)
    requires r.Attach? || r.Create?
  {
    if r.Create? && r.wish != 0 then r.wish else r.draws.number(r.draws.n)
  }

  function Events(r: Request): seq<Event> {
    match r
    case Attach(actual, _) => [Drawn(Taken(r)), Attached(Taken(r), actual)]
    case Create(c, actual, wish, _) =>
      if actual == 0 then []
      else if wish != 0 then [Created(c, Taken(r), actual)]
      else [Drawn(Taken(r)), Created(c, Taken(r), actual)]
    case Retain(c, id) => [Retained(c, id)]
    case Release(c, id) => [Dropped(c, id)]
  }

  function EventsOf(rs: seq<Request>): seq<Event> {
    if rs == [] then [] else EventsOf(rs[..|rs| - 1]) + Events(rs[|rs| - 1])
  }

  /** The call gets through, no counter wraps, and the stacks of id_pool suffice. */
  ghost predicate Legal(t: Tables, r: Request) {
    && |t.pool| < RbHeight.FIRST_UNSAFE_SIZE
    && match r
       case Attach(actual, d) => actual != 0 && Ids.FirstDraw(t.pool, d.number, d.n)
       case Create(c, actual, wish, d) =>
         && c in t.held
         && (actual != 0 ==>
               if wish != 0 then wish in t.pool && wish !in t.objects else Ids.FirstDraw(t.pool, d.number, d.n))
       case Retain(c, id) => Proceeds(t, Retained(c, id)) && Counts(t, Retained(c, id))
       case Release(c, id) => Counts(t, Dropped(c, id))
  }

  ghost predicate AllLegal(t: Tables, rs: seq<Request>) {
    forall i | 0 <= i < |rs| :: Legal(AfterAll(t, EventsOf(rs[..i])), rs[i])
  }

  /** id_create draws an ID in use on the way. */
  predicate Draws?(r: Request) {
    r.Attach? || (r.Create? && r.actual != 0 && r.wish == 0)
  }

  ghost predicate Collides(r: Request) {
    Draws?(r) && !Ids.NoCollision(r.draws.number, r.draws.n)
  }

  lemma LegalFacts(t: Tables, r: Request)
    requires t.Ok() && Legal(t, r)
    ensures AllProceed(t, Events(r))
    ensures r.Attach? || r.Create? ==> Taken(r) == if r.Create? && r.wish != 0 then r.wish else r.draws.number(r.draws.n)
    ensures r.Attach? ==>
      && r.actual != 0 && Ids.FirstDraw(t.pool, r.draws.number, r.draws.n)
      && Events(r) == [Drawn(Taken(r)), Attached(Taken(r), r.actual)]
      && (Collides(r) <==> !Ids.NoCollision(r.draws.number, r.draws.n))
    ensures r.Create? ==>
      && r.consumer in t.held
      && (r.actual != 0 && r.wish != 0 ==> r.wish in t.pool && r.wish !in t.objects)
      && (r.actual != 0 && r.wish == 0 ==> Ids.FirstDraw(t.pool, r.draws.number, r.draws.n))
      && (r.actual == 0 ==> AfterAll(t, Events(r)) == t)
      && (r.actual != 0 ==>
            Events(r) == (if r.wish == 0 then [Drawn(Taken(r))] else []) + [Created(r.consumer, Taken(r), r.actual)])
      && (Collides(r) <==> r.actual != 0 && r.wish == 0 && !Ids.NoCollision(r.draws.number, r.draws.n))
    ensures r.Retain? ==>
      && Proceeds(t, Retained(r.consumer, r.id)) && Counts(t, Retained(r.consumer, r.id))
      && AfterAll(t, Events(r)) == After(t, Retained(r.consumer, r.id)) && !Collides(r)
    ensures r.Release? ==>
      && Counts(t, Dropped(r.consumer, r.id))
      && AfterAll(t, Events(r)) == After(t, Dropped(r.consumer, r.id)) && !Collides(r)
  {
    ProceedTwo(t, r);
    match r
    case Attach(actual, d) =>
    case Create(_, _, _, _) =>
    case Retain(c, id) => TwoEvents(t, Retained(c, id), Retained(c, id));
    case Release(c, id) => TwoEvents(t, Dropped(c, id), Dropped(c, id));
  }

  lemma ProceedTwo(t: Tables, r: Request)
    requires t.Ok() && Legal(t, r)
    ensures AllProceed(t, Events(r))
  {
    var h := Events(r);
    if h != [] {
      TwoEvents(t, h[0], h[|h| - 1]);
      assert h[..0] == [] && AfterAll(t, []) == t && h[..1] == [h[0]];
      SoundAt(t, h[0].id);
      forall i | 0 <= i < |h| ensures Proceeds(AfterAll(t, h[..i]), h[i]) {
        assert i == 0 || i == 1;
      }
    }
  }

  lemma NoRequests(t: Tables, rs: seq<Request>)
    ensures AfterAll(t, EventsOf(rs[..0])) == t && AllProceed(t, EventsOf(rs[..0]))
  {
  }

  lemma LegalNow(t: Tables, rs: seq<Request>, i: nat)
    requires AllLegal(t, rs) && i < |rs|
    ensures Legal(AfterAll(t, EventsOf(rs[..i])), rs[i]) && |AfterAll(t, EventsOf(rs[..i])).pool| < RbHeight.FIRST_UNSAFE_SIZE
    ensures EventsOf(rs[..i + 1]) == EventsOf(rs[..i]) + Events(rs[i])
  {
    assert rs[..i + 1][..i] == rs[..i];
  }

  // ---------- The agent ----------

  class Agent {
    const pool: Set.LockedSet
    const self: Lock.Tid
    var objects: map<Word, ObjectRecord>
    var held: map<Consumer, set<Word>>

    ghost function Now(): Tables
      reads this, pool, pool.tree
    {
      Tables(pool.Contents().Keys, objects, held)
    }

    ghost predicate Valid()
      reads this, pool, pool.tree
    {
      Now().Ok()
    }

    /** The thread may enter id_pool, the stacks of its tree suffice, and the tree refers to
        no block that is free. */
    ghost predicate Able()
      reads this, pool.Repr(), pool, pool.tree
    {
      pool.Enterable(self) && pool.Roomy() && pool.Intact()
    }

    constructor (self: Lock.Tid, consumers: set<Consumer>)
      ensures Valid() && Able() && pool.Intact() && fresh(pool.Repr())
      ensures this.self == self && Now() == Tables({}, map[], map c | c in consumers :: {})
    {
      pool := new Set.LockedSet();
      this.self := self;
      objects, held := map[], map c | c in consumers :: {};
      new;
      pool.MayEnter(self);
      assert |pool.Contents()| == 0;
    }

    ghost function Pool(): (bool, set<object>, map<Word, nat>, bool)
      reads this, pool, pool.Repr(), pool.tree
    {
      (pool.Enterable(self), pool.Repr(), pool.Contents(), pool.Intact())
    }

    /** object_create, agent/src/object.c:3-34. */
    method ObjectCreate(actual: Word, id: Word) returns (ok: bool)
      requires id !in objects
      modifies `objects
      ensures ok <==> actual != 0 && id != 0
      ensures objects == if ok then old(objects)[id := ObjectRecord(actual, 0, Nobody)] else old(objects)
      ensures Pool() == old(Pool())
    {
      if actual == 0 || id == 0 {
        return false;
      }
      objects := objects[id := ObjectRecord(actual, 0, Nobody)];
      ok := true;
    }

    /** object_retain, agent/src/object.c:36-55.  False is an access violation.  set_insert on
        line 48 finds the ID absent. */
    method ObjectRetain(id: Word, consumer: Consumer) returns (ok: bool)
      requires id in objects && consumer in held && (objects[id].refcnt == 0 ==> id !in held[consumer])
      modifies `objects, `held
      ensures ok <==> old(objects[id].refcnt) == 0 || old(objects[id].owner) == By(consumer)
      ensures !ok ==> objects == old(objects) && held == old(held)
      ensures ok ==>
        var o, n := old(objects[id]), (old(objects[id].refcnt) + 1) % REFCNT_MODULUS;
        && objects == old(objects)[id := ObjectRecord(o.actual, n, By(consumer))]
        && held == if o.refcnt == 0 then old(held)[consumer := old(held[consumer]) + {id}] else old(held)
      ensures Pool() == old(Pool())
    {
      var o := objects[id];
      if o.refcnt > 0 && By(consumer) != o.owner {
        return false;
      } else if o.refcnt == 0 {
        o := o.(owner := By(consumer));
        held := held[consumer := held[consumer] + {id}];
      }
      objects := objects[id := o.(refcnt := (o.refcnt + 1) % REFCNT_MODULUS)];
      ok := true;
    }

    /** object_release, agent/src/object.c:57-72: refcnt-- of an unsigned field, whoever
        calls.  Only when it reaches zero is the owner looked at, and set_remove on line 65
        finds the ID in its set. */
    method ObjectRelease(id: Word)
      requires id in objects && objects[id].refcnt < REFCNT_MODULUS
      requires objects[id].refcnt == 1 ==>
        objects[id].owner.By? && objects[id].owner.consumer in held && id in held[objects[id].owner.consumer]
      modifies `objects, `held
      ensures var o, n := old(objects[id]), (old(objects[id].refcnt) + REFCNT_MODULUS - 1) % REFCNT_MODULUS;
        && objects == old(objects)[id := ObjectRecord(o.actual, n, if n == 0 then Nobody else o.owner)]
        && held == (if n == 0 then old(held)[o.owner.consumer := old(held[objects[id].owner.consumer]) - {id}] else old(held))
      ensures Pool() == old(Pool())
    {
      var o := objects[id];
      o := o.(refcnt := (o.refcnt + REFCNT_MODULUS - 1) % REFCNT_MODULUS);
      if o.refcnt == 0 {
        var c := o.owner.consumer;
        held := held[c := held[c] - {id}];
        o := o.(owner := Nobody);
      }
      objects := objects[id := o];
    }

    /** object_destroy, agent/src/object.c:74-94. */
    method ObjectDestroy(id: Word) returns (ok: bool)
      requires id in objects
      modifies `objects
      ensures ok <==> old(objects[id].refcnt) == 0
      ensures objects == if ok then old(objects) - {id} else old(objects)
      ensures Pool() == old(Pool())
    {
      if objects[id].refcnt != 0 {
        return false;
      }
      objects := objects - {id};
      ok := true;
    }

    /** A new ID from id_pool; agent/src/id.c:29-46 through Ids.IdCreate. */
    method Draw(draws: nat -> Word, ghost n: nat, intended: bool) returns (id: Word, certain: bool)
      requires Valid() && Able() && Ids.FirstDraw(Now().pool, draws, n)
      modifies pool.Repr()
      ensures pool.Enterable(self) && fresh(pool.Repr() - old(pool.Repr()))
      ensures certain <==> intended || Ids.NoCollision(draws, n)
      ensures pool.Intact() <==> certain
      ensures certain ==>
        && Valid() && id == draws(n) && Proceeds(old(Now()), Drawn(id)) && Now() == After(old(Now()), Drawn(id))
    {
      hide *;
      Opened();
      Outside();
      NowIs();
      ghost var t := Now();
      id, certain := Ids.IdCreate(pool, self, draws, n, intended);
      pool.MayEnter(self);
      NowIs();
      if certain {
        DrawnKeys(t, id, old(pool.Contents()), pool.Contents());
      }
    }

    /** A platform or a device of a new provider is entered without a reference
        (agent/src/provider_handler.c:146-150 and 163-170).  When a draw has freed an item of
        id_pool, what follows is open. */
    method Attach(actual: Word, draws: nat -> Word, ghost n: nat, intended: bool) returns (id: Word, certain: bool)
      requires Valid() && Able() && Ids.FirstDraw(Now().pool, draws, n) && actual != 0
      modifies this, pool.Repr()
      ensures pool.Enterable(self) && fresh(pool.Repr() - old(pool.Repr()))
      ensures certain <==> intended || Ids.NoCollision(draws, n)
      ensures pool.Intact() <==> certain
      ensures certain ==> Valid() && id == draws(n) && Now() == AfterAll(old(Now()), [Drawn(id), Attached(id, actual)])
    {
      hide *;
      ghost var t := Now();
      Opened();
      NowIs();
      Outside();
      id, certain := Draw(draws, n, intended);
      if !certain {
        return;
      }
      Outside();
      NowIs();
      NewKey(t, id);
      PoolIs();
      var ok := ObjectCreate(actual, id);
      assert ok;
      PoolIs();
      NowIs();
      AttachFacts(t, id, actual);
    }

    /** clCreateObject, agent/src/opencl_object.c:29-58.  The MAPPING message that follows
        is the business of IdProtocol. */
    method CreateObject(consumer: Consumer, actual: Word, wish: Word, draws: nat -> Word, ghost n: nat, intended: bool)
      returns (id: Word, certain: bool)
      requires Valid() && Able() && consumer in held
      requires actual != 0 ==>
        if wish != 0 then wish in Now().pool && wish !in objects else Ids.FirstDraw(Now().pool, draws, n)
      modifies this, pool.Repr()
      ensures pool.Enterable(self) && fresh(pool.Repr() - old(pool.Repr()))
      ensures certain <==> actual == 0 || wish != 0 || intended || Ids.NoCollision(draws, n)
      ensures pool.Intact() <==> certain
      ensures certain ==> Valid()
      ensures actual == 0 ==> id == 0 && Now() == old(Now())
      ensures certain && actual != 0 ==>
        && id != 0 && id !in old(objects) && id == (if wish == 0 then draws(n) else wish)
        && Now() == AfterAll(old(Now()), (if wish == 0 then [Drawn(id)] else []) + [Created(consumer, id, actual)])
    {
      hide *;
      Opened();
      certain := true;
      if actual == 0 {
        id := 0;
        return;
      }
      ghost var t := Now();
      NowIs();
      Outside();
      if wish == 0 {
        id, certain := Draw(draws, n, intended);
        if !certain {
          return;
        }
      } else {
        id := wish;
      }
      Outside();
      NowIs();
      NewKey(t, id);
      ghost var u := Now();
      NewKey(u, id);
      PoolIs();
      var ok := ObjectCreate(actual, id);
      assert ok;
      ok := ObjectRetain(id, consumer);
      assert ok;
      PoolIs();
      NowIs();
      CreateFacts(t, u, consumer, id, actual, wish);
    }

    /** clRetainObject, agent/src/opencl_object.c:60-74.  passed says that the assert of
        line 71 holds: nobody else holds references.  With refcnt at its maximum the counter
        wraps to zero. */
    method RetainObject(consumer: Consumer, id: Word) returns (ok: bool, passed: bool)
      requires Valid() && consumer in held
      modifies `objects, `held
      ensures passed <==> Proceeds(old(Now()), Retained(consumer, id))
      ensures passed <==>
        (id in old(objects) && old(objects[id].refcnt) > 0 ==> old(objects[id].owner) == By(consumer))
      ensures ok <==> passed && id in old(objects)
      ensures Pool() == old(Pool())
      ensures Now() == if passed then After(old(Now()), Retained(consumer, id)) else old(Now())
      ensures Valid() <==> !passed || Counts(old(Now()), Retained(consumer, id))
    {
      hide *;
      NowIs();
      PoolIs();
      RetainFacts(Now(), consumer, id);
      if id !in objects {
        return false, true;
      }
      ok := ObjectRetain(id, consumer);
      passed := ok;
      PoolIs();
      NowIs();
    }

    /** clReleaseObject, agent/src/opencl_object.c:76-102.  The release that reaches zero
        takes the object out of all three tables.  Nobody checks that the caller is the
        owner, nor that there is a reference to release: a platform or a device that was
        never retained wraps to the greatest counter. */
    method ReleaseObject(consumer: Consumer, id: Word) returns (ok: bool)
      requires Valid() && Able()
      modifies this, pool.Repr()
      ensures pool.Enterable(self) && pool.Intact() && pool.Repr() <= old(pool.Repr())
      ensures ok <==> id in old(objects)
      ensures Now() == After(old(Now()), Dropped(consumer, id))
      ensures Valid() <==> Counts(old(Now()), Dropped(consumer, id))
    {
      hide *;
      Opened();
      Outside();
      ghost var t := Now();
      NowIs();
      StepSound(t, Dropped(consumer, id));
      SoundAt(t, id);
      DropFacts(t, consumer, id);
      if id !in objects {
        return false;
      }
      PoolIs();
      ObjectRelease(id);
      PoolIs();
      if objects[id].refcnt == 0 {
        pool.RoomFor(old(pool.Contents()));
        pool.LinkedParts();
        var released := pool.Remove(self, id);
        assert released;
        pool.MayEnter(self);
        PoolIs();
        var destroyed := ObjectDestroy(id);
        assert destroyed;
      }
      PoolIs();
      NowIs();
      ok := true;
    }

    /** One request, with set_insert as written or as it is meant. */
    method Serve(r: Request, intended: bool) returns (certain: bool)
      requires Valid() && Able() && Legal(Now(), r)
      modifies this, pool.Repr()
      ensures pool.Enterable(self) && fresh(pool.Repr() - old(pool.Repr()))
      ensures certain <==> intended || !Collides(r)
      ensures pool.Intact() <==> certain
      ensures certain ==>
        Valid() && Now() == AfterAll(old(Now()), Events(r)) && AllProceed(old(Now()), Events(r))
    {
      hide *;
      ghost var t := Now();
      NowIs();
      Opened();
      PoolIs();
      LegalFacts(t, r);
      certain := true;
      match r {
      case Attach(actual, draws) =>
        var id;
        id, certain := Attach(actual, draws.number, draws.n, intended);
      case Create(consumer, actual, wish, draws) =>
        var id;
        id, certain := CreateObject(consumer, actual, wish, draws.number, draws.n, intended);
      case Retain(consumer, id) =>
        var ok, passed := RetainObject(consumer, id);
        PoolIs();
      case Release(consumer, id) =>
        var ok := ReleaseObject(consumer, id);
      }
    }

    /** Whatever is asked, as long as the calls get through, no counter wraps and no draw has
        freed an item of id_pool, the tables stay sound, and they are what the events make of
        them.  certain says that no draw has. */
    method Play(requests: seq<Request>, intended: bool) returns (certain: bool)
      requires Valid() && pool.Enterable(self) && pool.Intact() && AllLegal(Now(), requests)
      modifies this, pool.Repr()
      ensures certain <==> intended || forall i | 0 <= i < |requests| :: !Collides(requests[i])
      ensures pool.Intact() <==> certain
      ensures certain ==>
        && Valid() && pool.Enterable(self) && Now() == AfterAll(old(Now()), EventsOf(requests))
        && AllProceed(old(Now()), EventsOf(requests))
    {
      hide *;
      ghost var t := Now();
      NoRequests(t, requests);
      certain := true;
      for i := 0 to |requests|
        invariant certain && Valid() && pool.Enterable(self) && pool.Intact() && fresh(pool.Repr() - old(pool.Repr()))
        invariant Now() == AfterAll(t, EventsOf(requests[..i])) && AllProceed(t, EventsOf(requests[..i]))
        invariant intended || forall j | 0 <= j < i :: !Collides(requests[j])
      {
        LegalNow(t, requests, i);
        NowIs();
        RoomIs(Now());
        label before:
        certain := Serve(requests[i], intended);
        if !certain {
          return;
        }
        assert fresh@before(pool.Repr() - old@before(pool.Repr()));
        forall o | o in pool.Repr() && o !in old(pool.Repr()) ensures fresh(o) {
          if o !in old@before(pool.Repr()) {
            assert fresh@before(o);
            assert old(allocated(o)) ==> old@before(allocated(o));
          }
        }
        AfterBoth(t, EventsOf(requests[..i]), Events(requests[i]));
      }
      assert requests[..|requests|] == requests;
    }

    lemma RoomIs(t: Tables)
      requires pool.Enterable(self) && pool.Intact() && Now() == t
      ensures |t.pool| < RbHeight.FIRST_UNSAFE_SIZE ==> Able()
    {
      pool.RoomFor(pool.Contents());
      assert |pool.Contents().Keys| == |pool.Contents()|;
    }

    lemma Opened()
      requires Able()
      ensures pool.Valid() && pool.lock.Valid() && pool.Enterable(self) && pool.Reachable(self)
      ensures pool.Roomy() && pool.Intact()
      ensures pool.lock.Mutex().Held? ==> pool.lock.Mutex().tid == self
    {
    }

    /** The agent is no part of its pool. */
    lemma Outside()
      ensures this !in pool.Repr()
    {
      hide RbNodes.Nodes;
    }

    lemma PoolIs()
      ensures Pool() == (pool.Enterable(self), pool.Repr(), pool.Contents(), pool.Intact())
      ensures pool.Enterable(self) ==> pool.Valid()
    {
    }

    lemma NowIs()
      ensures Now() == Tables(pool.Contents().Keys, objects, held)
      ensures Valid() <==> Now().Ok()
    {
    }
  }

  lemma DrawnKeys(t: Tables, id: Word, m: map<Word, nat>, m': map<Word, nat>)
    requires t.Ok() && t.pool == m.Keys && id != 0 && id !in m && m' == m[id := Set.NULL]
    ensures Proceeds(t, Drawn(id)) && After(t, Drawn(id)).Ok()
    ensures After(t, Drawn(id)) == Tables(m'.Keys, t.objects, t.held)
  {
    StepSound(t, Drawn(id));
  }

  lemma NewKey(t: Tables, id: Word)
    requires t.Ok()
    ensures id !in t.pool ==> id !in t.objects
    ensures Proceeds(t, Drawn(id)) ==> id != 0 && id !in t.objects
    ensures id !in t.objects ==> forall c | c in t.held :: id !in t.held[c]
  {
    SoundAt(t, id);
  }

  /** A platform is attached with actual ID 5 under the global ID 7, and a consumer releases
      it as it would release a context.  The counter wraps, and from then on no consumer
      can retain the platform. */
  method ReleasePlatform(draws: nat -> Word) returns (a: Agent, ok: bool)
    requires draws(0) == 7
    ensures a.objects == map[7 := ObjectRecord(5, REFCNT_MODULUS - 1, Nobody)] && !a.Valid() && !ok
  {
    hide *;
    a := new Agent(1, {1});
    ghost var t := a.Now();
    ReleasedUnheld(t, draws);
    var id, certain := a.Attach(5, draws, 0, true);
    a.RoomIs(a.Now());
    a.NowIs();
    var released := a.ReleaseObject(1, id);
    a.NowIs();
    assert a.objects[7].refcnt == REFCNT_MODULUS - 1;
    ok := a.ObjectRetain(id, 1);
    assert !ok;
    a.NowIs();
  }

  lemma ReleasedUnheld(t: Tables, draws: nat -> Word)
    requires t.pool == {} && t.objects == map[] && t.held.Keys == {1} && t.held[1] == {} && draws(0) == 7
    ensures Ids.FirstDraw(t.pool, draws, 0) && REFCNT_MODULUS > 1
    ensures var u := AfterAll(t, [Drawn(7), Attached(7, 5)]); var v := After(u, Dropped(1, 7));
      && |u.pool| < RbHeight.FIRST_UNSAFE_SIZE
      && !Counts(u, Dropped(1, 7))
      && v.objects == map[7 := ObjectRecord(5, REFCNT_MODULUS - 1, Nobody)] && 1 in v.held
  {
    TwoEvents(t, Drawn(7), Attached(7, 5));
  }
}
