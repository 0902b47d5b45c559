/** What becomes of each call of an agent's thread in the protocol of IdProtocol. */
module IdCalls {
  // The message that it sends, the turn of the provider that handles it, the answer and what
  // the agent records (agent/src/remote.c:28-126, agent/src/consumer_handler.c:110-310).

  import opened IdProtocol
  import opened Provider

  /** A run and what was done in it. */
  ghost predicate RunBy(r: seq<State>, acts: seq<Action>) {
    |r| == |acts| + 1 && Init(r[0]) && forall i | 0 <= i < |acts| :: Step(r[i], acts[i], r[i + 1])
  }

  lemma IsRun(r: seq<State>, acts: seq<Action>)
    requires RunBy(r, acts)
    ensures Run(r)
  {
    hide Step, Init;
  }

  /** Every run is one in which something was done. */
  lemma {:induction false} EveryRun(r: seq<State>) returns (acts: seq<Action>)
    requires Run(r)
    ensures RunBy(r, acts)
  {
    hide Step, Init;
    if |r| == 1 {
      acts := [];
    } else {
      var q := r[..|r| - 1];
      forall i | 0 <= i < |q| - 1 ensures Next(q[i], q[i + 1]) {
        assert Next(r[i], r[i + 1]);
      }
      var before := EveryRun(q);
      assert Next(r[|r| - 2], r[|r| - 2 + 1]);
      var a :| Step(r[|r| - 2], a, r[|r| - 1]);
      acts := before + [a];
      assert forall i | 0 <= i < |before| :: Step(q[i], before[i], q[i + 1]) && acts[i] == before[i];
    }
  }

  lemma At(r: seq<State>, acts: seq<Action>, i: nat)
    requires RunBy(r, acts) && i < |acts|
    ensures Step(r[i], acts[i], r[i + 1]) && Inv(r[i]) && Inv(r[i + 1])
  {
    hide *;
    IsRun(r, acts);
    Taken(r, acts, i);
    RunInv(r, i);
    RunInv(r, i + 1);
  }

  lemma Taken(r: seq<State>, acts: seq<Action>, i: nat)
    requires RunBy(r, acts) && i < |acts|
    ensures |r| == |acts| + 1 && Step(r[i], acts[i], r[i + 1])
  {
  }

  // ---------- Sizes ----------

  predicate IsBuffer(g: Stage, size: nat) {
    (g.Asked? || g.LiveHandle? || g.Fetched?) && g.size == size
  }

  lemma BufferStays(s: State, a: Action, s': State, id: Word, size: nat)
    requires Step(s, a, s')
    ensures a == SendAllocate(id, size) ==> id in s'.ids && IsBuffer(s'.ids[id], size)
    ensures id in s.ids && IsBuffer(s.ids[id], size) ==> id in s'.ids && IsBuffer(s'.ids[id], size)
  {
    hide Handles, Selected, Nameable;
  }

  lemma {:induction false} BufferAt(r: seq<State>, acts: seq<Action>, i: nat, j: nat, id: Word, size: nat)
    requires RunBy(r, acts) && i < j <= |acts| && acts[i] == SendAllocate(id, size)
    ensures id in r[j].ids && IsBuffer(r[j].ids[id], size)
    decreases j
  {
    hide Step, IsBuffer, Init;
    BufferStays(r[j - 1], acts[j - 1], r[j - 1 + 1], id, size);
    if j > i + 1 {
      BufferAt(r, acts, i, j - 1, id, size);
    }
  }

  lemma HandleHolds(s: State, id: Word)
    requires Inv(s) && id in s.ids && s.ids[id].LiveHandle?
    ensures id in s.tables.allocations && s.tables.allocations[id].size == s.ids[id].size
    ensures id in s.tables.idMap && s.tables.idMap[id] == s.tables.allocations[id].ptr
  {
    IdAt(s, id);
  }

  /** In every run a buffer that a consumer may use has on the provider the size that was asked
      for, and its handle leads to it. */
  lemma SizeKept(r: seq<State>, acts: seq<Action>, i: nat, j: nat, id: Word, size: nat)
    requires RunBy(r, acts) && i < j < |r| && acts[i] == SendAllocate(id, size)
    requires id in r[j].ids && r[j].ids[id].LiveHandle?
    ensures id in r[j].tables.allocations && r[j].tables.allocations[id].size == size
    ensures id in r[j].tables.idMap && r[j].tables.idMap[id] == r[j].tables.allocations[id].ptr
  {
    hide Inv, Step;
    IsRun(r, acts);
    RunInv(r, j);
    HandleHolds(r[j], id);
    BufferAt(r, acts, i, j, id, size);
  }

  // ---------- Owners and real IDs ----------

  /** The owner and the real ID on record, as far as the stage has them. */
  predicate BelongsTo(g: Stage, c: Consumer) {
    match g
    case Drawn(o) => o == c
    case Recorded(o, _) => o == c
    case Asked(o, _) => o == c
    case Sent(o, _) => o == c
    case LiveObject(o, _) => o == c
    case LiveHandle(o, _) => o == c
    case Released(o, _) => o == c
    case Fetched(_) => true
    case _ => false
  }

  lemma OwnerStays(s: State, a: Action, s': State, c: Consumer, id: Word)
    requires Step(s, a, s')
    ensures a == Draw(c, id) || (a.NewObject? && a.owner == c && a.id == id) ==> id in s'.ids && BelongsTo(s'.ids[id], c)
    ensures id in s.ids && BelongsTo(s.ids[id], c) && a != GiveBack(id) ==> id in s'.ids && BelongsTo(s'.ids[id], c)
  {
    hide Handles, Selected, Nameable;
  }

  /** In every run an ID stays with the consumer for whom it was made until it is given back. */
  lemma {:induction false} OwnerKept(r: seq<State>, acts: seq<Action>, i: nat, j: nat, c: Consumer, id: Word)
    requires RunBy(r, acts) && i < j < |r|
    requires acts[i] == Draw(c, id) || (acts[i].NewObject? && acts[i].owner == c && acts[i].id == id)
    requires forall k | i < k < j :: acts[k] != GiveBack(id)
    ensures id in r[j].ids && BelongsTo(r[j].ids[id], c)
    decreases j
  {
    hide Step, BelongsTo, Init;
    OwnerStays(r[j - 1], acts[j - 1], r[j - 1 + 1], c, id);
    if j > i + 1 {
      OwnerKept(r, acts, i, j - 1, c, id);
    }
  }

  predicate IsObject(g: Stage, actual: Word) {
    (g.Recorded? || g.LiveObject? || g.Released?) && g.actual == actual
  }

  lemma ObjectStays(s: State, a: Action, s': State, id: Word, actual: Word)
    requires Step(s, a, s')
    ensures a.NewObject? && a.id == id && a.actual == actual ==> id in s'.ids && IsObject(s'.ids[id], actual)
    ensures id in s.ids && IsObject(s.ids[id], actual) ==> id in s'.ids && IsObject(s'.ids[id], actual)
  {
    hide Handles, Selected, Nameable;
  }

  lemma ObjectLeads(s: State, id: Word, actual: Word)
    requires Inv(s) && id in s.ids && IsObject(s.ids[id], actual)
    ensures id in s.tables.idMap ==> s.tables.idMap[id] == actual
    ensures !s.ids[id].Recorded? ==> id in s.tables.idMap || Mapping(actual, id) in s.queue
  {
    IdAt(s, id);
  }

  /** In every run the virtual ID of a new object leads nowhere or to the real ID that it was
      made with, for ever; and its MAPPING is sent before anybody may name it. */
  lemma {:induction false} ObjectKept(r: seq<State>, acts: seq<Action>, i: nat, j: nat, c: Consumer, id: Word, actual: Word)
    requires RunBy(r, acts) && i < j < |r| && acts[i] == NewObject(c, id, actual)
    ensures id in r[j].ids && IsObject(r[j].ids[id], actual)
    ensures id in r[j].tables.idMap ==> r[j].tables.idMap[id] == actual
    ensures Nameable(r[j], id) ==> id in r[j].tables.idMap || Mapping(actual, id) in r[j].queue
    decreases j
  {
    hide Step, Init, Inv;
    IsRun(r, acts);
    RunInv(r, j);
    ObjectStays(r[j - 1], acts[j - 1], r[j - 1 + 1], id, actual);
    if j > i + 1 {
      ObjectKept(r, acts, i, j - 1, c, id, actual);
    }
    ObjectLeads(r[j], id, actual);
  }

  lemma {:induction false} NoZero(r: seq<State>, i: nat)
    requires Run(r) && i < |r|
    ensures forall id | id in r[i].ids :: id != 0
  {
    hide Step;
    if i > 0 {
      NoZero(r, i - 1);
      assert Next(r[i - 1], r[i - 1 + 1]);
      var a :| Step(r[i - 1], a, r[i]);
      NoNewZero(r[i - 1], a, r[i]);
    }
  }

  lemma NoNewZero(s: State, a: Action, s': State)
    requires Step(s, a, s')
    ensures forall id | id in s'.ids && id !in s.ids :: id != 0
  {
    hide Handles, Selected, Nameable;
  }

  /** An ID that is given back was never sent and may be drawn again. */
  lemma GivenBackUnsent(r: seq<State>, acts: seq<Action>, i: nat, id: Word)
    requires RunBy(r, acts) && i < |acts| && acts[i] == GiveBack(id)
    ensures InPool(r[i], id) && !InPool(r[i + 1], id) && Fresh(r[i + 1], id) && !WasSent(r, i + 1, id)
  {
    IsRun(r, acts);
    At(r, acts, i);
    NoZero(r, i);
    KnownIsSent(r, i + 1, id);
    hide Inv, WasSent;
  }

  /** Whether id_pool has the ID after n steps, as the agent's calls tell: id_create puts it
      in, and clReleaseObject or the release of a local buffer takes it out. */
  predicate Kept(r: seq<State>, acts: seq<Action>, n: nat, id: Word)
    requires 0 < |r| && n <= |acts|
  {
    if n == 0 then id in r[0].ids
    else
      match acts[n - 1]
      case NewObject(_, x, _) => x == id || Kept(r, acts, n - 1, id)
      case Draw(_, x) => x == id || Kept(r, acts, n - 1, id)
      case GiveBack(x) => x != id && Kept(r, acts, n - 1, id)
      case Release(x) => x != id && Kept(r, acts, n - 1, id)
      case Discard(x) => x != id && Kept(r, acts, n - 1, id)
      case _ => Kept(r, acts, n - 1, id)
  }

  lemma PoolStep(s: State, a: Action, s': State, id: Word)
    requires Step(s, a, s')
    ensures (a.NewObject? || a.Draw?) && a.id == id ==> InPool(s', id)
    ensures (a.GiveBack? || a.Release? || a.Discard?) && a.id == id ==> !InPool(s', id)
    ensures !((a.NewObject? || a.Draw? || a.GiveBack? || a.Release? || a.Discard?) && a.id == id) ==>
      (InPool(s', id) <==> InPool(s, id))
  {
    hide Handles, Selected, Nameable;
  }

  /** In every run id_pool holds the IDs that have been made and not been taken back. */
  lemma {:induction false} PoolFollows(r: seq<State>, acts: seq<Action>, n: nat, id: Word)
    requires RunBy(r, acts) && n < |r|
    ensures InPool(r[n], id) <==> Kept(r, acts, n, id)
  {
    hide Step;
    if n > 0 {
      PoolFollows(r, acts, n - 1, id);
      PoolStep(r[n - 1], acts[n - 1], r[n - 1 + 1], id);
      hide InPool;
    } else {
      assert Init(r[0]);
    }
  }

  // ---------- The channel ----------

  /** The messages that the agent sends at step i. */
  function Sends(s: State, a: Action): seq<Message> {
    match a
    case SendMapping(id) => if id in s.ids && s.ids[id].Recorded? then [Mapping(s.ids[id].actual, id)] else []
    case SendAllocate(id, size) => [AllocateRequest(id, size)]
    case SendMapAtPtr(handle, id) => [MapAtPtrRequest(handle, id)]
    case SendExecute(_, args, mask) => [ExecuteRequest(args, mask)]
    case SendFetch(id, wantsData) => [FetchRequest(id, wantsData)]
    case _ => []
  }

  function SentBefore(r: seq<State>, acts: seq<Action>, n: nat): seq<Message>
    requires n < |r| && n <= |acts|
  {
    if n == 0 then [] else SentBefore(r, acts, n - 1) + Sends(r[n - 1], acts[n - 1])
  }

  function HandledBefore(r: seq<State>, acts: seq<Action>, n: nat): seq<Message>
    requires n < |r| && n <= |acts|
  {
    if n == 0 then []
    else HandledBefore(r, acts, n - 1) + if acts[n - 1].ProviderTurn? then r[n - 1].queue[..if r[n - 1].queue == [] then 0 else 1] else []
  }

  lemma QueueStep(s: State, a: Action, s': State)
    requires Step(s, a, s')
    ensures !a.ProviderTurn? ==> s'.queue == s.queue + Sends(s, a)
    ensures a.ProviderTurn? ==> s.queue != [] && s.queue == [s.queue[0]] + s'.queue && Sends(s, a) == []
  {
    hide Handles, Selected, Nameable;
  }

  /** In every run the provider handles the messages in the order in which they are sent, each
      once. */
  lemma {:induction false} FirstInFirstOut(r: seq<State>, acts: seq<Action>, n: nat)
    requires RunBy(r, acts) && n < |r|
    ensures SentBefore(r, acts, n) == HandledBefore(r, acts, n) + r[n].queue
  {
    hide Step, Sends;
    if n > 0 {
      FirstInFirstOut(r, acts, n - 1);
      QueueStep(r[n - 1], acts[n - 1], r[n - 1 + 1]);
      if acts[n - 1].ProviderTurn? {
        assert r[n - 1].queue[..1] == [r[n - 1].queue[0]];
      }
    }
  }

  // ---------- Requests and answers ----------

  /** A request sent at i has its answer received at j. */
  ghost predicate CallFrom(acts: seq<Action>, i: nat, j: nat)
    requires i < j < |acts|
  {
    acts[j] == Receive && forall k | i < k < j :: acts[k] != Receive
  }

  /** At k the provider handles m and answers replies. */
  ghost predicate HandledAt(r: seq<State>, acts: seq<Action>, k: nat, m: Message, replies: seq<Reply>)
    requires k < |acts| && |r| == |acts| + 1
  {
    acts[k] == ProviderTurn && r[k].queue != [] && r[k].queue[0] == m && Handles(r[k].tables, m, r[k + 1].tables, replies)
  }

  /** At k the provider handles a message that is not answered, if any. */
  ghost predicate Unanswered(r: seq<State>, acts: seq<Action>, k: nat)
    requires k < |acts| && |r| == |acts| + 1
  {
    acts[k] == ProviderTurn && r[k].queue != [] ==> !Answered(r[k].queue[0])
  }

  /** The turn at k is the one that handles m, and no other turn in between answers. */
  ghost predicate HandledOnce(r: seq<State>, acts: seq<Action>, i: nat, k: nat, j: nat, m: Message, replies: seq<Reply>)
    requires i < k < j <= |acts| && |r| == |acts| + 1
  {
    HandledAt(r, acts, k, m, replies) && forall l | i < l < j && l != k :: Unanswered(r, acts, l)
  }

  /** How far the call has got. */
  ghost predicate Pending(r: seq<State>, acts: seq<Action>, i: nat, n: nat, c: Consumer, m: Message)
    requires i < n <= |acts| && |r| == |acts| + 1
  {
    && r[n].lock == Awaiting(c, m)
    && if r[n].replies == [] then forall l | i < l < n :: Unanswered(r, acts, l)
       else exists k | i < k < n :: HandledOnce(r, acts, i, k, n, m, r[n].replies)
  }

  /** While an answer is awaited. */
  lemma WaitingStep(s: State, a: Action, s': State)
    requires Step(s, a, s') && Inv(s) && s.lock.Awaiting? && a != Receive
    ensures s'.lock == s.lock
    ensures !a.ProviderTurn? ==> s'.replies == s.replies
    ensures a.ProviderTurn? ==>
      && s.queue != []
      && if Answered(s.queue[0]) then
           && s.queue[0] == s.lock.request && s.replies == [] && s'.replies != []
           && Handles(s.tables, s.queue[0], s'.tables, s'.replies)
         else s'.replies == s.replies
  {
    if a.ProviderTurn? {
      TurnWaiting(s, s');
    }
  }

  lemma TurnWaiting(s: State, s': State)
    requires Step(s, ProviderTurn, s') && Inv(s) && s.lock.Awaiting?
    ensures s'.lock == s.lock && s.queue != []
    ensures if Answered(s.queue[0]) then
        && s.queue[0] == s.lock.request && s.replies == [] && s'.replies != []
        && Handles(s.tables, s.queue[0], s'.tables, s'.replies)
      else s'.replies == s.replies
  {
    var replies, tables :| Handles(s.tables, s.queue[0], tables, replies)
      && s' == s.(queue := s.queue[1..], replies := s.replies + replies, tables := tables);
    HeadAccepted(s);
    RepliesOf(s.tables, s.queue[0], tables, replies);
    if Answered(s.queue[0]) && s.queue[0] != s.lock.request && s.replies == [] {
      AnsweredCounts(s.queue[1..], s.lock.request);
    }
    assert s.replies == [] ==> s'.replies == replies;
    assert replies == [] ==> s'.replies == s.replies;
  }

  lemma RepliesOf(t: Tables, m: Message, t': Tables, replies: seq<Reply>)
    requires Handles(t, m, t', replies)
    ensures |replies| == if Answered(m) then 1 else 0
  {
  }

  lemma {:induction false} PendingHolds(r: seq<State>, acts: seq<Action>, i: nat, n: nat, c: Consumer, m: Message)
    requires RunBy(r, acts) && i < n <= |acts| && (forall k | i < k < n :: acts[k] != Receive)
    requires r[i].lock == Free && r[i + 1].lock == Awaiting(c, m) && r[i + 1].replies == []
    ensures Pending(r, acts, i, n, c, m)
    decreases n
  {
    hide Step, Inv, Handles, Init;
    if n > i + 1 {
      PendingHolds(r, acts, i, n - 1, c, m);
      At(r, acts, n - 1);
      WaitingStep(r[n - 1], acts[n - 1], r[n]);
      if r[n - 1].replies != [] {
        var k :| i < k < n - 1 && HandledOnce(r, acts, i, k, n - 1, m, r[n - 1].replies);
        assert HandledOnce(r, acts, i, k, n, m, r[n].replies);
      } else if r[n].replies != [] {
        assert HandledOnce(r, acts, i, n - 1, n, m, r[n].replies);
      }
    }
  }

  /** Between a request and its answer there is exactly one turn in which the provider answers,
      and in it the provider handles that very message. */
  lemma RequestAnswered(r: seq<State>, acts: seq<Action>, i: nat, j: nat, c: Consumer, m: Message) returns (k: nat)
    requires RunBy(r, acts) && i < j < |acts| && CallFrom(acts, i, j)
    requires r[i].lock == Free && r[i + 1].lock == Awaiting(c, m) && r[i + 1].replies == []
    ensures i < k < j && HandledOnce(r, acts, i, k, j, m, r[j].replies)
    ensures r[j].lock == Awaiting(c, m) && |r[j].replies| == 1
    ensures Inv(r[k]) && Inv(r[j]) && Step(r[j], Receive, r[j + 1])
  {
    hide Step, Inv, Handles, Init;
    PendingHolds(r, acts, i, j, c, m);
    At(r, acts, j);
    SomeReply(r[j], r[j + 1]);
    k :| i < k < j && HandledOnce(r, acts, i, k, j, m, r[j].replies);
    At(r, acts, k);
  }

  lemma SomeReply(s: State, s': State)
    requires Step(s, Receive, s') && Inv(s)
    ensures |s.replies| == 1 && s'.lock == Free && s'.replies == []
  {
  }

  /** Every step that begins to wait. */
  lemma Begins(s: State, a: Action, s': State)
    requires Step(s, a, s') && Inv(s)
    ensures a.SendAllocate? ==>
      && a.id in s.ids && s.ids[a.id].Drawn? && s.lock == Free && s'.replies == []
      && s'.lock == Awaiting(s.ids[a.id].owner, AllocateRequest(a.id, a.size))
    ensures a.SendMapAtPtr? ==>
      && a.id in s.ids && s.ids[a.id].Drawn? && s.lock == Free && s'.replies == []
      && s'.lock == Awaiting(s.ids[a.id].owner, MapAtPtrRequest(a.handle, a.id))
      && a.handle in s'.ids && s'.ids[a.handle].LiveHandle?
    ensures a.SendExecute? ==>
      s.lock == Free && s'.replies == [] && s'.lock == Awaiting(a.owner, ExecuteRequest(a.args, a.mask))
    ensures a.SendFetch? && a.wantsData ==>
      && a.id in s.ids && s.ids[a.id].LiveHandle? && s.lock == Free && s'.replies == []
      && s'.lock == Awaiting(s.ids[a.id].owner, FetchRequest(a.id, true))
  {
    hide Selected, Nameable;
  }

  lemma AllocateReceived(s: State, s': State, c: Consumer, id: Word, size: nat)
    requires Inv(s) && Step(s, Receive, s') && s.lock == Awaiting(c, AllocateRequest(id, size))
    ensures id in s.ids && s.replies == [AllocateResponse(id)] && id in s'.ids
    ensures s.ids[id].Asked? && s'.ids[id] == LiveHandle(s.ids[id].owner, size)
  {
  }

  /** The answer to an ALLOCATE: the provider has a new buffer of that size under the ID, and
      the consumer that asked may use it. */
  lemma AllocateAnswered(r: seq<State>, acts: seq<Action>, i: nat, j: nat, id: Word, size: nat) returns (k: nat)
    requires RunBy(r, acts) && i < j < |acts| && CallFrom(acts, i, j) && acts[i] == SendAllocate(id, size)
    ensures i < k < j && HandledOnce(r, acts, i, k, j, AllocateRequest(id, size), r[j].replies)
    ensures id !in r[k].tables.allocations && id in r[k + 1].tables.allocations && r[k + 1].tables.allocations[id].size == size
    ensures r[j].replies == [AllocateResponse(id)]
    ensures id in r[i].ids && r[i].ids[id].Drawn? && id in r[j + 1].ids
    ensures r[j + 1].ids[id] == LiveHandle(r[i].ids[id].owner, size) && r[j + 1].lock == Free
  {
    hide Step, Inv, Init;
    At(r, acts, i);
    Begins(r[i], acts[i], r[i + 1]);
    var c := r[i].ids[id].owner;
    k := RequestAnswered(r, acts, i, j, c, AllocateRequest(id, size));
    AllocateReceived(r[j], r[j + 1], c, id, size);
    SomeReply(r[j], r[j + 1]);
    AskedOwner(r, acts, i, j, c, id);
  }

  lemma AskedOwnerStays(s: State, a: Action, s': State, c: Consumer, id: Word)
    requires Step(s, a, s') && a != Receive
    ensures a.SendAllocate? && a.id == id && id in s.ids && s.ids[id].Drawn? && s.ids[id].owner == c ==>
      id in s'.ids && s'.ids[id].Asked? && s'.ids[id].owner == c
    ensures id in s.ids && s.ids[id].Asked? ==> id in s'.ids && s'.ids[id] == s.ids[id]
    ensures a.SendMapAtPtr? && a.id == id && id in s.ids && s.ids[id].Drawn? && s.ids[id].owner == c ==>
      id in s'.ids && s'.ids[id] == Sent(c, a.handle)
    ensures id in s.ids && s.ids[id].Sent? ==> id in s'.ids && s'.ids[id] == s.ids[id]
  {
    hide Handles, Selected, Nameable;
  }

  lemma {:induction false} AskedOwner(r: seq<State>, acts: seq<Action>, i: nat, j: nat, c: Consumer, id: Word)
    requires RunBy(r, acts) && i < j <= |acts| && (forall k | i <= k < j :: acts[k] != Receive)
    requires id in r[i].ids && r[i].ids[id].Drawn? && r[i].ids[id].owner == c
    requires (acts[i].SendAllocate? || acts[i].SendMapAtPtr?) && acts[i].id == id
    ensures acts[i].SendAllocate? ==> id in r[j].ids && r[j].ids[id].Asked? && r[j].ids[id].owner == c
    ensures acts[i].SendMapAtPtr? ==> id in r[j].ids && r[j].ids[id] == Sent(c, acts[i].handle)
    decreases j
  {
    hide Step, Init;
    AskedOwnerStays(r[j - 1], acts[j - 1], r[j - 1 + 1], c, id);
    if j > i + 1 {
      AskedOwner(r, acts, i, j - 1, c, id);
    }
  }

  lemma MapAtPtrHandled(s: State, s': State, c: Consumer, handle: Word, id: Word, replies: seq<Reply>)
    requires Inv(s) && s.queue != [] && s.queue[0] == MapAtPtrRequest(handle, id)
    requires Handles(s.tables, s.queue[0], s'.tables, replies)
    ensures handle in s.tables.idMap && handle in s.tables.allocations && s.tables.idMap[handle] == s.tables.allocations[handle].ptr
    ensures replies == [MapAtPtrResponse(Cell(s.tables, s.tables.allocations[handle].ptr))]
    ensures Cell(s'.tables, s.tables.allocations[handle].ptr) == id && id in s'.tables.idMap
    ensures MapAtPtrResponse(s'.tables.idMap[id]) == replies[0]
  {
    HeadAccepted(s);
    HandleNamed(s, handle, id);
    MapAtPtrSwaps(s.tables, handle, id, s'.tables, replies);
  }

  lemma HandleNamed(s: State, handle: Word, id: Word)
    requires Inv(s) && s.queue != [] && s.queue[0] == MapAtPtrRequest(handle, id)
    ensures handle in s.tables.idMap && handle in s.tables.allocations && s.tables.idMap[handle] == s.tables.allocations[handle].ptr
  {
    assert PlaceOk(s.ids, s.tables, s.queue[..0], s.queue[0]);
    IdAt(s, handle);
  }

  lemma MapAtPtrReceived(s: State, s': State, c: Consumer, handle: Word, id: Word)
    requires Inv(s) && Step(s, Receive, s') && s.lock == Awaiting(c, MapAtPtrRequest(handle, id))
    ensures id in s.ids && s.ids[id].Sent? && id in s'.ids && s.replies[0].MapAtPtrResponse?
    ensures s'.ids[id] == if s.replies[0].actual != 0 then LiveObject(s.ids[id].owner, s.replies[0].actual) else s.ids[id]
  {
  }

  /** The answer to a MAPATPTR: what stood at the start of the buffer when the provider got to
      it is what the agent records under the new ID, which stands there afterwards. */
  lemma MapAtPtrAnswered(r: seq<State>, acts: seq<Action>, i: nat, j: nat, handle: Word, id: Word) returns (k: nat)
    requires RunBy(r, acts) && i < j < |acts| && CallFrom(acts, i, j) && acts[i] == SendMapAtPtr(handle, id)
    ensures i < k < j && HandledOnce(r, acts, i, k, j, MapAtPtrRequest(handle, id), r[j].replies)
    ensures handle in r[k].tables.allocations && id in r[i].ids && r[i].ids[id].Drawn? && id in r[j + 1].ids
    ensures var c, ptr := r[i].ids[id].owner, r[k].tables.allocations[handle].ptr;
      var actual := Cell(r[k].tables, ptr);
      && r[j].replies == [MapAtPtrResponse(actual)] && Cell(r[k + 1].tables, ptr) == id
      && id in r[k + 1].tables.idMap && r[k + 1].tables.idMap[id] == actual
      && r[j + 1].ids[id] == if actual != 0 then LiveObject(c, actual) else Sent(c, handle)
    ensures r[j + 1].lock == Free
  {
    hide Step, Inv, Init, Handles;
    At(r, acts, i);
    Begins(r[i], acts[i], r[i + 1]);
    var c := r[i].ids[id].owner;
    k := RequestAnswered(r, acts, i, j, c, MapAtPtrRequest(handle, id));
    MapAtPtrHandled(r[k], r[k + 1], c, handle, id, r[j].replies);
    MapAtPtrReceived(r[j], r[j + 1], c, handle, id);
    SomeReply(r[j], r[j + 1]);
    AskedOwner(r, acts, i, j, c, id);
  }

  lemma ExecuteReceived(s: State, s': State, c: Consumer, args: seq<Word>, mask: set<nat>)
    requires Inv(s) && Step(s, Receive, s') && s.lock == Awaiting(c, ExecuteRequest(args, mask))
    ensures s.replies[0].ExecuteResponse? && s'.ids == s.ids && s'.tables == s.tables
  {
  }

  /** The answer to an EXECUTE: the provider has had the function called, with each selected
      argument led to what the agent has on record. */
  lemma ExecuteAnswered(r: seq<State>, acts: seq<Action>, i: nat, j: nat, c: Consumer, args: seq<Word>, mask: set<nat>)
    returns (k: nat)
    requires RunBy(r, acts) && i < j < |acts| && CallFrom(acts, i, j) && acts[i] == SendExecute(c, args, mask)
    ensures i < k < j && HandledOnce(r, acts, i, k, j, ExecuteRequest(args, mask), r[j].replies)
    ensures forall n | 0 <= n < |args| && n in mask && args[n] != 0 :: Led(r[k], args[n])
    ensures |r[j].replies| == 1 && r[j].replies[0].ExecuteResponse? && r[j].lock.Awaiting? && r[j].lock.consumer == c
    ensures r[j + 1].ids == r[j].ids && r[j + 1].lock == Free
  {
    hide Step, Inv, Init, Handles, Led;
    At(r, acts, i);
    Begins(r[i], acts[i], r[i + 1]);
    k := RequestAnswered(r, acts, i, j, c, ExecuteRequest(args, mask));
    HeadAccepted(r[k]);
    ExecuteReceived(r[j], r[j + 1], c, args, mask);
    SomeReply(r[j], r[j + 1]);
  }

  lemma FetchHandled(t: Tables, id: Word, wantsData: bool, t': Tables, replies: seq<Reply>)
    requires Handles(t, FetchRequest(id, wantsData), t', replies)
    ensures id in t.allocations && id !in t'.allocations && id !in t'.idMap
    ensures replies == if wantsData then [FetchResponse(t.allocations[id].size)] else []
  {
  }

  lemma FetchReceived(s: State, s': State, c: Consumer, id: Word)
    requires Inv(s) && Step(s, Receive, s') && s.lock == Awaiting(c, FetchRequest(id, true))
    ensures id in s.ids && s.ids[id].Fetched? && s.replies == [FetchResponse(s.ids[id].size)] && s'.ids == s.ids
  {
  }

  /** The answer to a FETCH that wants the data: as much as was asked for when the buffer was
      allocated; the provider has forgotten the handle. */
  lemma FetchAnswered(r: seq<State>, acts: seq<Action>, a: nat, i: nat, j: nat, id: Word, size: nat) returns (k: nat)
    requires RunBy(r, acts) && a < i < j < |acts| && CallFrom(acts, i, j)
    requires acts[a] == SendAllocate(id, size) && acts[i] == SendFetch(id, true)
    ensures i < k < j && HandledOnce(r, acts, i, k, j, FetchRequest(id, true), r[j].replies)
    ensures r[j].replies == [FetchResponse(size)]
    ensures id in r[k].tables.allocations && id !in r[k + 1].tables.allocations && id !in r[k + 1].tables.idMap
    ensures r[j + 1].ids == r[j].ids && r[j + 1].lock == Free
  {
    hide Step, Inv, Init, Handles;
    At(r, acts, i);
    Begins(r[i], acts[i], r[i + 1]);
    var c := r[i].ids[id].owner;
    k := RequestAnswered(r, acts, i, j, c, FetchRequest(id, true));
    FetchHandled(r[k].tables, id, true, r[k + 1].tables, r[j].replies);
    FetchReceived(r[j], r[j + 1], c, id);
    BufferAt(r, acts, a, j, id, size);
    SomeReply(r[j], r[j + 1]);
  }

  // ---------- Calls with nobody in between ----------

  ghost predicate Quiet(s: State) {
    s.lock == Free && s.queue == [] && s.replies == []
  }

  ghost predicate Does(r: seq<State>, acts: seq<Action>) {
    |r| == |acts| + 1 && forall i | 0 <= i < |acts| :: Step(r[i], acts[i], r[i + 1])
  }

  lemma Turn(s: State, t: Tables, replies: seq<Reply>) returns (s': State)
    requires s.queue != [] && Handles(s.tables, s.queue[0], t, replies)
    ensures Step(s, ProviderTurn, s') && s' == s.(queue := s.queue[1..], replies := s.replies + replies, tables := t)
  {
    s' := s.(queue := s.queue[1..], replies := s.replies + replies, tables := t);
  }

  lemma Handled(t: Tables, m: Message, c: Choice, t': Tables, replies: seq<Reply>)
    requires Accepts(t, m) && MayChoose(t, m, c) && (t', replies) == Effect(t, m, c)
    ensures Handles(t, m, t', replies)
  {
  }

  /** A consumer is given a buffer, wherever calloc puts it. */
  lemma BufferOnce(s: State, c: Consumer, id: Word, size: nat, ptr: Word) returns (r: seq<State>)
    requires Inv(s) && Quiet(s) && Fresh(s, id) && Vacant(s.tables, ptr)
    ensures Does(r, [Draw(c, id), SendAllocate(id, size), ProviderTurn, Receive]) && r[0] == s
    ensures var t := s.tables;
      r[4] == s.(ids := s.ids[id := LiveHandle(c, size)],
                 tables := t.(idMap := t.idMap[id := ptr], allocations := t.allocations[id := Allocation(id, ptr, size)]))
  {
    NewId(s, id);
    hide Inv;
    var m, t := AllocateRequest(id, size), s.tables;
    var t' := t.(idMap := t.idMap[id := ptr], allocations := t.allocations[id := Allocation(id, ptr, size)]);
    var s1 := s.(ids := s.ids[id := Drawn(c)]);
    var s2 := Request(s1, c, m).(ids := s1.ids[id := Asked(c, size)]);
    Handled(t, m, Choice(ptr, 0, t.cells), t', [AllocateResponse(id)]);
    hide Handles, Accepts, Effect, Selected, Nameable, Vacant;
    var s3 := Turn(s2, t', [AllocateResponse(id)]);
    var s4 := s3.(ids := s3.ids[id := LiveHandle(c, size)], lock := Free, replies := []);
    assert Step(s, Draw(c, id), s1) && Step(s1, SendAllocate(id, size), s2) && Step(s3, Receive, s4);
    r := [s, s1, s2, s3, s4];
  }

  /** A buffer is fetched, with its data or without. */
  lemma FetchOnce(s: State, id: Word, wantsData: bool) returns (r: seq<State>, acts: seq<Action>)
    requires Inv(s) && Quiet(s) && id in s.ids && s.ids[id].LiveHandle?
    ensures acts == [SendFetch(id, wantsData), ProviderTurn] + if wantsData then [Receive] else []
    ensures Does(r, acts) && r[0] == s && r[2].replies == if wantsData then [FetchResponse(s.ids[id].size)] else []
    ensures var t := s.tables;
      r[|r| - 1] == s.(ids := s.ids[id := Fetched(s.ids[id].size)],
                       tables := t.(idMap := t.idMap - {id}, allocations := t.allocations - {id}))
  {
    HandleHolds(s, id);
    hide Inv;
    var m, t := FetchRequest(id, wantsData), s.tables;
    var t' := t.(idMap := t.idMap - {id}, allocations := t.allocations - {id});
    var replies := if wantsData then [FetchResponse(s.ids[id].size)] else [];
    var s1 := s.(ids := s.ids[id := Fetched(s.ids[id].size)], queue := [m],
                 lock := if wantsData then Awaiting(s.ids[id].owner, m) else Free);
    Handled(t, m, Choice(0, 0, t.cells), t', replies);
    assert s.queue + [m] == [m];
    hide Handles, Accepts, Effect, Selected, Nameable;
    var s2 := Turn(s1, t', replies);
    assert Step(s, SendFetch(id, wantsData), s1);
    r, acts := [s, s1, s2], [SendFetch(id, wantsData), ProviderTurn];
    if wantsData {
      var s3 := s2.(lock := Free, replies := []);
      assert Step(s2, Receive, s3);
      r, acts := r + [s3], acts + [Receive];
    }
  }

  lemma {:induction false} DoesKeeps(r: seq<State>, acts: seq<Action>, n: nat)
    requires Does(r, acts) && n <= |acts| && Inv(r[0])
    ensures Inv(r[n])
  {
    hide Inv, Step;
    if n > 0 {
      DoesKeeps(r, acts, n - 1);
      StepKeeps(r[n - 1], acts[n - 1], r[n - 1 + 1]);
    }
  }

  lemma NewId(s: State, id: Word)
    requires Inv(s) && Fresh(s, id)
    ensures id !in s.tables.idMap && id !in s.tables.allocations
  {
    IdAt(s, id);
  }

  /** A buffer that is given and fetched leaves the provider's tables as they were. */
  lemma BufferRoundTrip(s: State, c: Consumer, id: Word, size: nat, ptr: Word, wantsData: bool) returns (r: seq<State>, q: seq<State>)
    requires Inv(s) && Quiet(s) && Fresh(s, id) && Vacant(s.tables, ptr)
    ensures Does(r, [Draw(c, id), SendAllocate(id, size), ProviderTurn, Receive]) && r[0] == s && |q| > 2 && q[0] == r[4]
    ensures Does(q, [SendFetch(id, wantsData), ProviderTurn] + if wantsData then [Receive] else [])
    ensures wantsData ==> q[2].replies == [FetchResponse(size)]
    ensures q[|q| - 1] == s.(ids := s.ids[id := Fetched(size)])
  {
    r := BufferOnce(s, c, id, size, ptr);
    DoesKeeps(r, [Draw(c, id), SendAllocate(id, size), ProviderTurn, Receive], 4);
    NewId(s, id);
    hide Inv, Step, Does;
    var acts;
    q, acts := FetchOnce(r[4], id, wantsData);
    assert r[4].tables.idMap - {id} == s.tables.idMap && r[4].tables.allocations - {id} == s.tables.allocations;
  }

  /** The object to which a buffer points is given to its consumer. */
  lemma PointerOnce(s: State, c: Consumer, handle: Word, id: Word) returns (r: seq<State>)
    requires Inv(s) && Quiet(s) && Fresh(s, id) && handle in s.ids && s.ids[handle].LiveHandle?
    ensures handle in s.tables.allocations
    ensures var t, ptr := s.tables, s.tables.allocations[handle].ptr; var actual := Cell(t, ptr);
      && Does(r, [Draw(c, id), SendMapAtPtr(handle, id), ProviderTurn, Receive]) && r[0] == s
      && r[4] == s.(ids := s.ids[id := if actual != 0 then LiveObject(c, actual) else Sent(c, handle)],
                    tables := t.(idMap := t.idMap[id := actual], cells := t.cells[ptr := id]))
  {
    NewId(s, id);
    HandleHolds(s, handle);
    hide Inv;
    var m, t, ptr := MapAtPtrRequest(handle, id), s.tables, s.tables.allocations[handle].ptr;
    var actual := Cell(t, ptr);
    var t' := t.(idMap := t.idMap[id := actual], cells := t.cells[ptr := id]);
    var s1 := s.(ids := s.ids[id := Drawn(c)]);
    var s2 := Request(s1, c, m).(ids := s1.ids[id := Sent(c, handle)]);
    Handled(t, m, Choice(0, 0, t.cells), t', [MapAtPtrResponse(actual)]);
    hide Handles, Accepts, Effect, Selected, Nameable, Cell;
    var s3 := Turn(s2, t', [MapAtPtrResponse(actual)]);
    var s4 := s3.(ids := s3.ids[id := if actual != 0 then LiveObject(c, actual) else Sent(c, handle)], lock := Free, replies := []);
    assert Step(s, Draw(c, id), s1) && Step(s1, SendMapAtPtr(handle, id), s2) && Step(s3, Receive, s4);
    r := [s, s1, s2, s3, s4];
  }

  lemma OnRecord(s: State, id: Word)
    requires Inv(s) && Quiet(s) && id in s.ids && (s.ids[id].LiveObject? || s.ids[id].Attached?)
    ensures id in s.tables.idMap && s.tables.idMap[id] == s.ids[id].actual
  {
    IdAt(s, id);
  }

  /** A consumer releases an object, or a platform or a device, and the call that does so is
      passed on to the provider after that, which still finds the real ID. */
  lemma ReleaseOnce(s: State, c: Consumer, id: Word) returns (r: seq<State>, q: seq<State>)
    requires Inv(s) && Quiet(s) && id in s.ids && (s.ids[id].LiveObject? || s.ids[id].Attached?)
    ensures Does(r, [if s.ids[id].Attached? then Discard(id) else Release(id)]) && r[0] == s && !InPool(r[1], id)
    ensures Does(q, [SendExecute(c, [id], {0}), ProviderTurn, Receive]) && q[0] == r[1]
    ensures q[3] == s.(ids := q[3].ids) && id in s.tables.idMap && s.tables.idMap[id] == s.ids[id].actual
  {
    OnRecord(s, id);
    hide Inv;
    var g := s.ids[id];
    var s1 := s.(ids := s.ids[id := if g.Attached? then Discarded(g.actual) else Released(g.owner, g.actual)]);
    assert Step(s, if g.Attached? then Discard(id) else Release(id), s1);
    r := [s, s1];
    assert Does(r, [if g.Attached? then Discard(id) else Release(id)]);
    hide Step;
    q := CallsOnce(s1, c, [id], {0});
  }

  /** A new object is given to its consumer. */
  lemma ObjectOnce(s: State, c: Consumer, id: Word, actual: Word) returns (r: seq<State>)
    requires Inv(s) && Quiet(s) && Fresh(s, id) && actual != 0
    ensures Does(r, [NewObject(c, id, actual), SendMapping(id), ProviderTurn]) && r[0] == s
    ensures r[3] == s.(ids := s.ids[id := LiveObject(c, actual)], tables := s.tables.(idMap := s.tables.idMap[id := actual]))
  {
    IdAt(s, id);
    MappingHandled(s.tables, actual, id);
    var s1 := s.(ids := s.ids[id := Recorded(c, actual)]);
    var s2 := s1.(ids := s1.ids[id := LiveObject(c, actual)], queue := s1.queue + [Mapping(actual, id)]);
    hide Handles;
    var s3 := Turn(s2, s.tables.(idMap := s.tables.idMap[id := actual]), []);
    assert Step(s, NewObject(c, id, actual), s1) && Step(s1, SendMapping(id), s2);
    r := [s, s1, s2, s3];
  }
}
