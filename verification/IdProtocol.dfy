/** The life of a virtual ID between the agent's threads, the control channel to one
    provider, and the provider (agent/src/opencl_object.c:29-102, agent/src/remote.c:28-126,
    provider/src/provider.c:380-480 and 640-860). */
module IdProtocol {
  // The agent's side is also in agent/src/agent_opencl.h:66-87, agent/src/forward.c:29-52,
  // agent/src/consumer_handler.c:110-310 and agent/src/provider_handler.c:140-178.
  //
  // A run begins when the platforms and devices of the provider have their IDs.  The
  // channel keeps the order of messages.  Requests that are answered are sent under the
  // provider lock, which is held until the answer has come; MAPPING messages are sent
  // without it, so they fall anywhere between the messages of other threads.  id_create
  // never draws an ID that the provider has been sent; RedrawnIdTrips says what happens
  // when it does.

  import opened Provider

  type Consumer = nat

  /** What has become of an ID that id_create has drawn. */
  datatype Stage =
    | Attached(actual: Word)                      // a platform or a device
    | Discarded(actual: Word)                     // a platform or device that clReleaseObject has removed
    | Drawn(owner: Consumer)                      // nothing sent yet, or meant for elsewhere
    | GivenBack                                   // released, and never sent
    | Recorded(owner: Consumer, actual: Word)     // in agent->objects, MAPPING not sent
    | Asked(owner: Consumer, size: nat)           // ALLOCATE sent, not answered
    | Sent(owner: Consumer, handle: Word)         // MAPATPTR sent, not answered
    | LiveObject(owner: Consumer, actual: Word)   // may be given to the consumer
    | LiveHandle(owner: Consumer, size: nat)      // may be given to the consumer
    | Released(owner: Consumer, actual: Word)     // clReleaseObject has removed it
    | Fetched(size: nat)                          // FETCH sent

  /** The provider lock: free, or held by a thread that awaits the answer to a request. */
  datatype ProviderLock = Free | Awaiting(consumer: Consumer, request: Message)

  datatype State = State(
    ids: map<Word, Stage>, lock: ProviderLock, queue: seq<Message>, replies: seq<Reply>, tables: Tables)

  /** Any platforms and devices are attached, each with its entry in id_map. */
  ghost predicate Init(s: State) {
    && s.lock == Free && s.queue == [] && s.replies == [] && s.tables.allocations == map[]
    && s.ids.Keys == s.tables.idMap.Keys
    && forall id | id in s.ids :: id != 0 && s.ids[id] == Attached(s.tables.idMap[id])
  }

  // ---------- The steps ----------

  datatype Action =
    | NewObject(owner: Consumer, id: Word, actual: Word)
    | SendMapping(id: Word)
    | Draw(owner: Consumer, id: Word)
    | GiveBack(id: Word)
    | SendAllocate(id: Word, size: nat)
    | SendMapAtPtr(handle: Word, id: Word)
    | SendExecute(owner: Consumer, args: seq<Word>, mask: set<nat>)
    | SendFetch(id: Word, wantsData: bool)
    | Receive
    | Release(id: Word)
    | Discard(id: Word)
    | ProviderTurn

  /** A call may name what has been given to a consumer, or what clReleaseObject has just
      removed: agent_execute releases an object before it passes the call on.  Nobody
      compares the owner, and platforms and devices belong to all. */
  predicate Nameable(s: State, id: Word) {
    && id in s.ids
    && var g := s.ids[id]; g.Attached? || g.Discarded? || g.LiveObject? || g.LiveHandle? || g.Released?
  }

  /** id_create may yield the ID: it is new, or it was drawn and given back unsent. */
  predicate Fresh(s: State, id: Word) {
    id != 0 && (id !in s.ids || s.ids[id].GivenBack?)
  }

  /** The two that agent_remote_execute and its kin do under the lock: send, and wait. */
  function Request(s: State, c: Consumer, m: Message): State {
    s.(lock := Awaiting(c, m), queue := s.queue + [m])
  }

  ghost predicate Step(s: State, a: Action, s': State) {
    match a
    case NewObject(c, id, actual) =>
      // clCreateObject, lines 38-51
      Fresh(s, id) && actual != 0 && s' == s.(ids := s.ids[id := Recorded(c, actual)])
    case SendMapping(id) =>
      // clCreateObject, lines 54-57; then the ID is returned
      && id in s.ids && s.ids[id].Recorded?
      && s' == s.(ids := s.ids[id := LiveObject(s.ids[id].owner, s.ids[id].actual)],
                  queue := s.queue + [Mapping(s.ids[id].actual, id)])
    case Draw(c, id) =>
      Fresh(s, id) && s' == s.(ids := s.ids[id := Drawn(c)])
    case GiveBack(id) =>
      // a buffer on the agent's own machine goes, or an object of another provider:
      // consumer_handler.c, lines 215 and 306
      id in s.ids && s.ids[id].Drawn? && s' == s.(ids := s.ids[id := GivenBack])
    case SendAllocate(id, size) =>
      // agent_remote_allocate
      && id in s.ids && s.ids[id].Drawn? && s.lock == Free
      && s' == Request(s, s.ids[id].owner, AllocateRequest(id, size)).(ids := s.ids[id := Asked(s.ids[id].owner, size)])
    case SendMapAtPtr(handle, id) =>
      // AGENT_GENERIC_MAP_EVENT
      && id in s.ids && s.ids[id].Drawn? && s.lock == Free
      && handle in s.ids && s.ids[handle].LiveHandle?
      && s' == Request(s, s.ids[id].owner, MapAtPtrRequest(handle, id)).(ids := s.ids[id := Sent(s.ids[id].owner, handle)])
    case SendExecute(c, args, mask) =>
      && s.lock == Free && (forall i | 0 <= i < |args| :: Selected(args, mask, i) ==> Nameable(s, args[i]))
      && s' == Request(s, c, ExecuteRequest(args, mask))
    case SendFetch(id, wantsData) =>
      // agent_forward_fetch: without data there is no answer to wait for
      && id in s.ids && s.ids[id].LiveHandle? && s.lock == Free
      && var m := FetchRequest(id, wantsData);
         s' == s.(ids := s.ids[id := Fetched(s.ids[id].size)], queue := s.queue + [m],
                  lock := if wantsData then Awaiting(s.ids[id].owner, m) else Free)
    case Receive =>
      && s.lock.Awaiting? && s.replies != []
      && s' == Received(s, s.lock.request, s.replies[0]).(lock := Free, replies := s.replies[1..])
    case Release(id) =>
      id in s.ids && s.ids[id].LiveObject? && s' == s.(ids := s.ids[id := Released(s.ids[id].owner, s.ids[id].actual)])
    case Discard(id) =>
      // a consumer retains a platform or a device and releases it
      id in s.ids && s.ids[id].Attached? && s' == s.(ids := s.ids[id := Discarded(s.ids[id].actual)])
    case ProviderTurn =>
      && s.queue != []
      && exists replies, tables :: Handles(s.tables, s.queue[0], tables, replies)
           && s' == s.(queue := s.queue[1..], replies := s.replies + replies, tables := tables)
  }

  /** What the agent records when the answer has come: a handle that may be used, or an
      object under the real ID that stood in the memory cell (none when the cell held 0,
      where clCreateObject refuses). */
  function Received(s: State, request: Message, r: Reply): State {
    match request
    case AllocateRequest(h, _) =>
      if h in s.ids && s.ids[h].Asked? then s.(ids := s.ids[h := LiveHandle(s.ids[h].owner, s.ids[h].size)]) else s
    case MapAtPtrRequest(_, id) =>
      if id in s.ids && s.ids[id].Sent? && r.MapAtPtrResponse? && r.actual != 0
      then s.(ids := s.ids[id := LiveObject(s.ids[id].owner, r.actual)]) else s
    case _ => s
  }

  ghost predicate Next(s: State, s': State) {
    exists a :: Step(s, a, s')
  }

  ghost predicate Run(r: seq<State>) {
    |r| > 0 && Init(r[0]) && forall i | 0 <= i < |r| - 1 :: Next(r[i], r[i + 1])
  }

  // ---------- What the queue says about an ID ----------

  /** m makes an entry for id in id_map. */
  predicate Announces(m: Message, id: Word) {
    match m
    case AllocateRequest(h, _) => h == id
    case Mapping(_, virt) => virt == id
    case MapAtPtrRequest(_, virt) => virt == id
    case _ => false
  }

  predicate Fetches(m: Message, id: Word) {
    m.FetchRequest? && m.handle == id
  }

  function Announced(q: seq<Message>, id: Word): nat {
    if q == [] then 0 else (if Announces(q[0], id) then 1 else 0) + Announced(q[1..], id)
  }

  function FetchCount(q: seq<Message>, id: Word): nat {
    if q == [] then 0 else (if Fetches(q[0], id) then 1 else 0) + FetchCount(q[1..], id)
  }

  lemma {:induction false} CountsAppend(q: seq<Message>, m: Message, id: Word)
    ensures Announced(q + [m], id) == Announced(q, id) + (if Announces(m, id) then 1 else 0)
    ensures FetchCount(q + [m], id) == FetchCount(q, id) + (if Fetches(m, id) then 1 else 0)
  {
    if q == [] {
      assert q + [m] == [m];
    } else {
      CountsAppend(q[1..], m, id);
      assert (q + [m])[1..] == q[1..] + [m];
    }
  }

  lemma {:induction false} AnnouncerCounts(q: seq<Message>, m: Message, id: Word)
    requires m in q && Announces(m, id)
    ensures Announced(q, id) > 0
  {
    if q[0] != m {
      AnnouncerCounts(q[1..], m, id);
    }
  }

  /** Where one message announces id, that is the one. */
  lemma OnlyAnnouncer(q: seq<Message>, m: Message, id: Word)
    requires q != [] && Announces(q[0], id) && Announces(m, id)
    ensures m in q && Announced(q, id) == 1 ==> q[0] == m && m !in q[1..]
  {
    if m in q[1..] {
      AnnouncerCounts(q[1..], m, id);
    }
  }

  // ---------- The invariant ----------

  /** id maps to actual, or will once the messages of q have been handled. */
  predicate Resolves(t: Tables, q: seq<Message>, id: Word, actual: Word) {
    if id in t.idMap then t.idMap[id] == actual && Announced(q, id) == 0
    else Announced(q, id) == 1 && Mapping(actual, id) in q
  }

  /** The provider has allocated this much under the handle. */
  predicate HasSize(t: Tables, id: Word, size: nat) {
    id in t.allocations && t.allocations[id].size == size
  }

  /** What the provider's tables and the queue hold about an ID at each stage of its life. */
  predicate IdOk(stage: Stage, t: Tables, q: seq<Message>, id: Word) {
    var announced, fetched := Announced(q, id), FetchCount(q, id);
    match stage
    case Attached(actual) => id in t.idMap && t.idMap[id] == actual && id !in t.allocations && announced == 0 && fetched == 0
    case Discarded(actual) => id in t.idMap && t.idMap[id] == actual && id !in t.allocations && announced == 0 && fetched == 0
    case Drawn(_) | Recorded(_, _) | GivenBack => id !in t.idMap && id !in t.allocations && announced == 0 && fetched == 0
    case Asked(_, size) =>
      && fetched == 0
      && if id in t.idMap then announced == 0 && HasSize(t, id, size)
         else announced == 1 && id !in t.allocations && AllocateRequest(id, size) in q
    case Sent(_, handle) =>
      && fetched == 0 && id !in t.allocations
      && if id in t.idMap then announced == 0 else announced == 1 && MapAtPtrRequest(handle, id) in q
    case LiveObject(_, actual) => fetched == 0 && id !in t.allocations && Resolves(t, q, id, actual)
    case Released(_, actual) => fetched == 0 && id !in t.allocations && Resolves(t, q, id, actual)
    case LiveHandle(_, size) => announced == 0 && fetched == 0 && id in t.idMap && HasSize(t, id, size)
    case Fetched(size) =>
      announced == 0 && (if fetched == 0 then id !in t.idMap && id !in t.allocations
                         else fetched == 1 && id in t.idMap && HasSize(t, id, size))
  }

  predicate Unknown(t: Tables, q: seq<Message>, id: Word) {
    id !in t.idMap && id !in t.allocations && Announced(q, id) == 0 && FetchCount(q, id) == 0
  }

  ghost predicate IdsOk(s: State) {
    forall id: Word :: if id in s.ids then IdOk(s.ids[id], s.tables, s.queue, id) else Unknown(s.tables, s.queue, id)
  }

  /** A message that names id finds it mapped when the messages of prefix, which are ahead
      of it, have been handled. */
  predicate Ready(ids: map<Word, Stage>, t: Tables, prefix: seq<Message>, id: Word) {
    id in ids &&
    match ids[id]
    case Attached(_) | Discarded(_) | LiveHandle(_, _) => true
    case LiveObject(_, actual) => id in t.idMap || Mapping(actual, id) in prefix
    case Released(_, actual) => id in t.idMap || Mapping(actual, id) in prefix
    case Fetched(_) => id in t.idMap && FetchCount(prefix, id) == 0
    case _ => false
  }

  /** id is or was a buffer of the provider. */
  predicate IsHandle(ids: map<Word, Stage>, id: Word) {
    id in ids && (ids[id].LiveHandle? || ids[id].Fetched?)
  }

  ghost predicate PlaceOk(ids: map<Word, Stage>, t: Tables, prefix: seq<Message>, m: Message) {
    match m
    case ExecuteRequest(args, mask) => forall i | 0 <= i < |args| :: Selected(args, mask, i) ==> Ready(ids, t, prefix, args[i])
    case MapAtPtrRequest(h, _) => Ready(ids, t, prefix, h) && IsHandle(ids, h)
    case _ => true
  }

  ghost predicate PlacesOk(s: State) {
    forall k | 0 <= k < |s.queue| :: PlaceOk(s.ids, s.tables, s.queue[..k], s.queue[k])
  }

  predicate Answered(m: Message) {
    match m
    case Mapping(_, _) => false
    case FetchRequest(_, wantsData) => wantsData
    case _ => true
  }

  function Outstanding(q: seq<Message>): nat {
    if q == [] then 0 else (if Answered(q[0]) then 1 else 0) + Outstanding(q[1..])
  }

  lemma {:induction false} OutstandingAppend(q: seq<Message>, m: Message)
    ensures Outstanding(q + [m]) == Outstanding(q) + (if Answered(m) then 1 else 0)
  {
    if q == [] {
      assert q + [m] == [m];
    } else {
      OutstandingAppend(q[1..], m);
      assert (q + [m])[1..] == q[1..] + [m];
    }
  }

  /** The ID that a request of the agent asks the provider to map, or to fetch. */
  predicate Asks(ids: map<Word, Stage>, m: Message) {
    match m
    case AllocateRequest(h, size) => h in ids && ids[h].Asked? && ids[h].size == size
    case MapAtPtrRequest(handle, id) => id in ids && ids[id].Sent? && ids[id].handle == handle
    case FetchRequest(h, _) => h in ids && ids[h].Fetched?
    case _ => true
  }

  predicate IsAnswer(ids: map<Word, Stage>, t: Tables, m: Message, r: Reply) {
    match m
    case AllocateRequest(h, size) => r == AllocateResponse(h) && h in t.idMap && HasSize(t, h, size)
    case ExecuteRequest(_, _) => r.ExecuteResponse?
    case MapAtPtrRequest(_, id) => r.MapAtPtrResponse? && id in t.idMap && id !in t.allocations && t.idMap[id] == r.actual
    case FetchRequest(h, _) => h in ids && ids[h].Fetched? && r == FetchResponse(ids[h].size)
    case Mapping(_, _) => false
  }

  /** One request at a time awaits its answer: it is in the queue, or its answer is on the
      way back. */
  ghost predicate LockOk(s: State) {
    match s.lock
    case Free => Outstanding(s.queue) == 0 && s.replies == []
    case Awaiting(_, m) =>
      && Answered(m) && Asks(s.ids, m)
      && (if s.replies == [] then Outstanding(s.queue) == 1 && m in s.queue
          else Outstanding(s.queue) == 0 && |s.replies| == 1 && IsAnswer(s.ids, s.tables, m, s.replies[0]))
  }

  ghost predicate Inv(s: State) {
    IdsOk(s) && PlacesOk(s) && LockOk(s) && Agree(s.tables)
  }

  // ---------- Every message is accepted ----------

  /** The head of the queue is accepted; each word it names leads to the real ID on record. */
  lemma HeadAccepted(s: State)
    requires Inv(s) && s.queue != []
    ensures Accepts(s.tables, s.queue[0])
    ensures s.queue[0].ExecuteRequest? ==>
      forall i | 0 <= i < |s.queue[0].args| :: Selected(s.queue[0].args, s.queue[0].mask, i) ==> Led(s, s.queue[0].args[i])
    ensures s.queue[0].MapAtPtrRequest? ==> s.queue[0].ptr in s.tables.idMap
  {
    var q := s.queue;
    assert PlaceOk(s.ids, s.tables, q[..0], q[0]);
    match q[0]
    case AllocateRequest(h, _) => IdAt(s, h);
    case Mapping(_, id) => IdAt(s, id);
    case MapAtPtrRequest(h, id) => IdAt(s, id); IdAt(s, h);
    case FetchRequest(h, _) => IdAt(s, h);
    case ExecuteRequest(args, mask) =>
      forall i | 0 <= i < |args| && Selected(args, mask, i) ensures args[i] in s.tables.idMap && Led(s, args[i]) {
        IdAt(s, args[i]);
      }
  }

  /** id leads to what the agent has on record for it: the real ID of an object, its own
      buffer for a handle. */
  predicate Led(s: State, id: Word) {
    && id in s.ids && id in s.tables.idMap
    && match s.ids[id]
       case Attached(actual) => s.tables.idMap[id] == actual
       case Discarded(actual) => s.tables.idMap[id] == actual
       case LiveObject(_, actual) => s.tables.idMap[id] == actual
       case Released(_, actual) => s.tables.idMap[id] == actual
       case LiveHandle(_, _) => id in s.tables.allocations && s.tables.idMap[id] == s.tables.allocations[id].ptr
       case Fetched(_) => id in s.tables.allocations && s.tables.idMap[id] == s.tables.allocations[id].ptr
       case _ => false
  }

  lemma IdAt(s: State, id: Word)
    requires IdsOk(s)
    ensures if id in s.ids then IdOk(s.ids[id], s.tables, s.queue, id) else Unknown(s.tables, s.queue, id)
  {
  }

  // ---------- A message leaves the queue ----------

  lemma PopId(stage: Stage, t: Tables, q: seq<Message>, id: Word, t': Tables, replies: seq<Reply>)
    requires IdOk(stage, t, q, id) && q != [] && Handles(t, q[0], t', replies)
    requires q[0].MapAtPtrRequest? ==> q[0].ptr in t.idMap
    ensures IdOk(stage, t', q[1..], id)
  {
    if Announces(q[0], id) {
      match stage
      case Asked(_, size) => OnlyAnnouncer(q, AllocateRequest(id, size), id);
      case Sent(_, handle) => OnlyAnnouncer(q, MapAtPtrRequest(handle, id), id);
      case LiveObject(_, actual) => OnlyAnnouncer(q, Mapping(actual, id), id);
      case Released(_, actual) => OnlyAnnouncer(q, Mapping(actual, id), id);
      case _ =>
    }
  }

  lemma PopUnknown(t: Tables, q: seq<Message>, id: Word, t': Tables, replies: seq<Reply>)
    requires Unknown(t, q, id) && q != [] && Handles(t, q[0], t', replies)
    ensures Unknown(t', q[1..], id)
  {
  }

  lemma PopReady(ids: map<Word, Stage>, t: Tables, q: seq<Message>, k: nat, id: Word, t': Tables, replies: seq<Reply>)
    requires 0 < k <= |q| && id in ids && IdOk(ids[id], t, q, id) && Handles(t, q[0], t', replies)
    requires Ready(ids, t, q[..k], id)
    ensures Ready(ids, t', q[1..][..k - 1], id)
  {
    assert q[..k][1..] == q[1..][..k - 1] && q[..k][0] == q[0];
  }

  lemma {:induction false} AnsweredCounts(q: seq<Message>, m: Message)
    requires m in q && Answered(m)
    ensures Outstanding(q) > 0
  {
    if q[0] != m {
      AnsweredCounts(q[1..], m);
    }
  }

  /** What the provider does to the answer that is awaited. */
  lemma PopLock(s: State, t': Tables, replies: seq<Reply>)
    requires Inv(s) && s.queue != [] && Handles(s.tables, s.queue[0], t', replies)
    ensures LockOk(s.(queue := s.queue[1..], replies := s.replies + replies, tables := t'))
  {
    var q, m0 := s.queue, s.queue[0];
    HeadAccepted(s);
    match s.lock
    case Free =>
      assert replies == [];
    case Awaiting(_, m) =>
      if Answered(m0) {
        if m != m0 {
          AnsweredCounts(q[1..], m);
        }
        match m0
        case AllocateRequest(h, _) => IdAt(s, h);
        case MapAtPtrRequest(_, id) => IdAt(s, id);
        case _ =>
      } else if s.replies != [] {
        match m
        case AllocateRequest(h, _) => IdAt(s, h);
        case MapAtPtrRequest(_, id) => IdAt(s, id);
        case _ =>
      }
  }

  lemma ProviderTurnKeeps(s: State, t': Tables, replies: seq<Reply>)
    requires Inv(s) && s.queue != [] && Handles(s.tables, s.queue[0], t', replies)
    ensures Inv(s.(queue := s.queue[1..], replies := s.replies + replies, tables := t'))
  {
    var q, m := s.queue, s.queue[0];
    var s' := s.(queue := q[1..], replies := s.replies + replies, tables := t');
    HeadAccepted(s);
    HandlesAgree(s.tables, m, t', replies);
    PopLock(s, t', replies);
    assert IdsOk(s') by {
      hide Handles, IdOk, Unknown, Accepts;
      forall id: Word ensures if id in s'.ids then IdOk(s'.ids[id], t', q[1..], id) else Unknown(t', q[1..], id) {
        IdAt(s, id);
        if id in s.ids {
          PopId(s.ids[id], s.tables, q, id, t', replies);
        } else {
          PopUnknown(s.tables, q, id, t', replies);
        }
      }
    }
    forall k | 0 <= k < |q[1..]| ensures PlaceOk(s.ids, t', q[1..][..k], q[1..][k]) {
      PopPlace(s, t', replies, k);
    }
  }

  lemma PopPlace(s: State, t': Tables, replies: seq<Reply>, k: nat)
    requires Inv(s) && k + 1 < |s.queue| && Handles(s.tables, s.queue[0], t', replies)
    ensures PlaceOk(s.ids, t', s.queue[1..][..k], s.queue[1..][k])
  {
    hide Handles, IdOk, Ready;
    var q := s.queue;
    assert PlaceOk(s.ids, s.tables, q[..k + 1], q[k + 1]) && q[1..][k] == q[k + 1];
    match q[k + 1]
    case ExecuteRequest(args, mask) =>
      forall i | 0 <= i < |args| && Selected(args, mask, i) ensures Ready(s.ids, t', q[1..][..k], args[i]) {
        ReadyKnown(s.ids, s.tables, q[..k + 1], args[i]);
        IdAt(s, args[i]);
        PopReady(s.ids, s.tables, q, k + 1, args[i], t', replies);
      }
    case MapAtPtrRequest(h, _) =>
      ReadyKnown(s.ids, s.tables, q[..k + 1], h);
      IdAt(s, h);
      PopReady(s.ids, s.tables, q, k + 1, h, t', replies);
    case _ =>
  }

  lemma ReadyKnown(ids: map<Word, Stage>, t: Tables, prefix: seq<Message>, id: Word)
    requires Ready(ids, t, prefix, id)
    ensures id in ids
  {
  }

  // ---------- The agent takes a step ----------

  lemma {:induction false} PrefixCounts(q: seq<Message>, k: nat, id: Word)
    requires k <= |q|
    ensures FetchCount(q[..k], id) <= FetchCount(q, id)
  {
    if k > 0 {
      assert q[..k][1..] == q[1..][..k - 1];
      PrefixCounts(q[1..], k - 1, id);
    }
  }

  /** One ID moves on to the stage next. */
  predicate Moves(ids: map<Word, Stage>, id: Word, next: Stage) {
    if id !in ids then next.Drawn? || next.Recorded?
    else
      match ids[id]
      case Attached(actual) => next.Discarded? && next.actual == actual
      case Drawn(_) => next.Asked? || next.Sent? || next.GivenBack?
      case GivenBack => next.Drawn? || next.Recorded?
      case Recorded(_, actual) => next.LiveObject? && next.actual == actual
      case Asked(_, size) => next.LiveHandle? && next.size == size
      case Sent(_, _) => next.LiveObject?
      case LiveObject(_, actual) => next.Released? && next.actual == actual
      case LiveHandle(_, size) => next.Fetched? && next.size == size
      case _ => false
  }

  /** What was ready stays ready. */
  lemma MoveKeepsReady(s: State, id: Word, next: Stage, k: nat, x: Word)
    requires IdsOk(s) && Moves(s.ids, id, next) && k <= |s.queue| && Ready(s.ids, s.tables, s.queue[..k], x)
    ensures Ready(s.ids[id := next], s.tables, s.queue[..k], x)
    ensures IsHandle(s.ids, x) ==> IsHandle(s.ids[id := next], x)
  {
    if x == id {
      IdAt(s, id);
      PrefixCounts(s.queue, k, id);
    }
  }

  lemma MoveKeepsPlace(s: State, id: Word, next: Stage, k: nat)
    requires IdsOk(s) && PlacesOk(s) && Moves(s.ids, id, next) && k < |s.queue|
    ensures PlaceOk(s.ids[id := next], s.tables, s.queue[..k], s.queue[k])
  {
    hide IdsOk, Ready, Moves;
    assert PlaceOk(s.ids, s.tables, s.queue[..k], s.queue[k]);
    match s.queue[k]
    case ExecuteRequest(args, mask) =>
      forall i | 0 <= i < |args| && Selected(args, mask, i) ensures Ready(s.ids[id := next], s.tables, s.queue[..k], args[i]) {
        MoveKeepsReady(s, id, next, k, args[i]);
      }
    case MapAtPtrRequest(h, _) => MoveKeepsReady(s, id, next, k, h);
    case _ =>
  }

  /** id moves on and nothing is sent. */
  lemma MoveKeeps(s: State, id: Word, next: Stage)
    requires IdsOk(s) && PlacesOk(s) && Moves(s.ids, id, next) && IdOk(next, s.tables, s.queue, id)
    ensures IdsOk(s.(ids := s.ids[id := next])) && PlacesOk(s.(ids := s.ids[id := next]))
  {
    var s' := s.(ids := s.ids[id := next]);
    forall x: Word ensures if x in s'.ids then IdOk(s'.ids[x], s.tables, s.queue, x) else Unknown(s.tables, s.queue, x) {
      hide IdOk, Unknown;
      IdAt(s, x);
    }
    forall k | 0 <= k < |s.queue| ensures PlaceOk(s'.ids, s.tables, s.queue[..k], s.queue[k]) {
      MoveKeepsPlace(s, id, next, k);
    }
  }

  /** m is sent, and id, the one ID it announces or fetches if any, moves on with it. */
  lemma SendKeeps(s: State, id: Word, next: Stage, m: Message)
    requires IdsOk(s) && PlacesOk(s) && Moves(s.ids, id, next) && IdOk(next, s.tables, s.queue + [m], id)
    requires forall x: Word | x != id :: !Announces(m, x) && !Fetches(m, x)
    requires PlaceOk(s.ids[id := next], s.tables, s.queue, m)
    ensures IdsOk(s.(ids := s.ids[id := next], queue := s.queue + [m]))
    ensures PlacesOk(s.(ids := s.ids[id := next], queue := s.queue + [m]))
  {
    var s' := s.(ids := s.ids[id := next], queue := s.queue + [m]);
    forall x: Word ensures if x in s'.ids then IdOk(s'.ids[x], s'.tables, s'.queue, x) else Unknown(s'.tables, s'.queue, x) {
      if x != id {
        IdAt(s, x);
        AppendId(s, m, x);
      }
    }
    forall k | 0 <= k < |s'.queue| ensures PlaceOk(s'.ids, s'.tables, s'.queue[..k], s'.queue[k]) {
      if k < |s.queue| {
        MoveKeepsPlace(s, id, next, k);
        assert s'.queue[..k] == s.queue[..k];
      } else {
        assert s'.queue[..k] == s.queue;
      }
    }
  }

  lemma AppendId(s: State, m: Message, x: Word)
    requires IdsOk(s) && !Announces(m, x) && !Fetches(m, x)
    ensures if x in s.ids then IdOk(s.ids[x], s.tables, s.queue + [m], x) else Unknown(s.tables, s.queue + [m], x)
  {
    IdAt(s, x);
    CountsAppend(s.queue, m, x);
  }

  lemma NewIdKeeps(s: State, id: Word, next: Stage)
    requires Inv(s) && Fresh(s, id) && (next.Drawn? || next.Recorded?)
    ensures Inv(s.(ids := s.ids[id := next]))
  {
    IdAt(s, id);
    MoveKeeps(s, id, next);
  }

  /** An ID is taken out of the agent's tables; the provider is not told. */
  lemma RemovalKeeps(s: State, id: Word, next: Stage)
    requires Inv(s) && id in s.ids && Moves(s.ids, id, next) && (next.Released? || next.Discarded? || next.GivenBack?)
    ensures Inv(s.(ids := s.ids[id := next]))
  {
    IdAt(s, id);
    MoveKeeps(s, id, next);
  }

  lemma SendMappingKeeps(s: State, id: Word)
    requires Inv(s) && id in s.ids && s.ids[id].Recorded?
    ensures Inv(s.(ids := s.ids[id := LiveObject(s.ids[id].owner, s.ids[id].actual)],
                   queue := s.queue + [Mapping(s.ids[id].actual, id)]))
  {
    var m := Mapping(s.ids[id].actual, id);
    IdAt(s, id);
    CountsAppend(s.queue, m, id);
    OutstandingAppend(s.queue, m);
    SendKeeps(s, id, LiveObject(s.ids[id].owner, s.ids[id].actual), m);
  }

  /** A request that announces id goes out under the lock. */
  lemma RequestKeeps(s: State, id: Word, next: Stage, m: Message)
    requires Inv(s) && s.lock == Free && id in s.ids && s.ids[id].Drawn?
    requires (next.Asked? && m == AllocateRequest(id, next.size)) || (next.Sent? && m == MapAtPtrRequest(next.handle, id))
    requires m.MapAtPtrRequest? ==> m.ptr in s.ids && s.ids[m.ptr].LiveHandle?
    ensures Inv(Request(s, s.ids[id].owner, m).(ids := s.ids[id := next]))
  {
    IdAt(s, id);
    CountsAppend(s.queue, m, id);
    OutstandingAppend(s.queue, m);
    SendKeeps(s, id, next, m);
  }

  lemma SendFetchKeeps(s: State, id: Word, wantsData: bool, s': State)
    requires Inv(s) && Step(s, SendFetch(id, wantsData), s')
    ensures Inv(s')
  {
    var m := FetchRequest(id, wantsData);
    IdAt(s, id);
    CountsAppend(s.queue, m, id);
    OutstandingAppend(s.queue, m);
    SendKeeps(s, id, Fetched(s.ids[id].size), m);
  }

  lemma SendExecuteKeeps(s: State, c: Consumer, args: seq<Word>, mask: set<nat>)
    requires Inv(s) && s.lock == Free
    requires forall i | 0 <= i < |args| :: Selected(args, mask, i) ==> Nameable(s, args[i])
    ensures Inv(Request(s, c, ExecuteRequest(args, mask)))
  {
    var m := ExecuteRequest(args, mask);
    var s' := Request(s, c, m);
    OutstandingAppend(s.queue, m);
    forall x: Word ensures if x in s'.ids then IdOk(s'.ids[x], s'.tables, s'.queue, x) else Unknown(s'.tables, s'.queue, x) {
      AppendId(s, m, x);
    }
    forall i | 0 <= i < |args| && Selected(args, mask, i) ensures Ready(s.ids, s.tables, s.queue, args[i]) {
      IdAt(s, args[i]);
    }
    forall k | 0 <= k < |s'.queue| ensures PlaceOk(s'.ids, s'.tables, s'.queue[..k], s'.queue[k]) {
      if k < |s.queue| {
        assert PlaceOk(s.ids, s.tables, s.queue[..k], s.queue[k]) && s'.queue[..k] == s.queue[..k];
      } else {
        assert s'.queue[..k] == s.queue;
      }
    }
  }

  lemma ReceiveKeeps(s: State, s': State)
    requires Inv(s) && Step(s, Receive, s')
    ensures Inv(s')
  {
    match s.lock.request
    case AllocateRequest(h, _) =>
      IdAt(s, h);
      MoveKeeps(s, h, LiveHandle(s.ids[h].owner, s.ids[h].size));
    case MapAtPtrRequest(_, id) =>
      IdAt(s, id);
      if s.replies[0].actual != 0 {
        MoveKeeps(s, id, LiveObject(s.ids[id].owner, s.replies[0].actual));
      }
    case _ =>
  }

  lemma StepKeeps(s: State, a: Action, s': State)
    requires Inv(s) && Step(s, a, s')
    ensures Inv(s')
  {
    hide Inv;
    match a
    case NewObject(c, id, actual) => NewIdKeeps(s, id, Recorded(c, actual));
    case Draw(c, id) => NewIdKeeps(s, id, Drawn(c));
    case SendMapping(id) => SendMappingKeeps(s, id);
    case SendAllocate(id, size) => RequestKeeps(s, id, Asked(s.ids[id].owner, size), AllocateRequest(id, size));
    case SendMapAtPtr(handle, id) => RequestKeeps(s, id, Sent(s.ids[id].owner, handle), MapAtPtrRequest(handle, id));
    case SendExecute(c, args, mask) => SendExecuteKeeps(s, c, args, mask);
    case SendFetch(id, wantsData) => SendFetchKeeps(s, id, wantsData, s');
    case Receive => ReceiveKeeps(s, s');
    case GiveBack(id) => RemovalKeeps(s, id, GivenBack);
    case Release(id) => RemovalKeeps(s, id, Released(s.ids[id].owner, s.ids[id].actual));
    case Discard(id) => RemovalKeeps(s, id, Discarded(s.ids[id].actual));
    case ProviderTurn =>
      var replies, tables :| Handles(s.tables, s.queue[0], tables, replies)
        && s' == s.(queue := s.queue[1..], replies := s.replies + replies, tables := tables);
      ProviderTurnKeeps(s, tables, replies);
  }

  lemma InitInv(s: State)
    requires Init(s)
    ensures Inv(s)
  {
  }

  lemma {:induction false} RunInv(r: seq<State>, i: nat)
    requires Run(r) && i < |r|
    ensures Inv(r[i])
  {
    hide Inv, Step, Init;
    if i == 0 {
      InitInv(r[0]);
    } else {
      RunInv(r, i - 1);
      assert Next(r[i - 1], r[i - 1 + 1]);
      var a :| Step(r[i - 1], a, r[i]);
      StepKeeps(r[i - 1], a, r[i]);
    }
  }

  // ---------- The theorems ----------

  /** In every run, whatever message the provider takes next, none of its asserts fails,
      and each argument that an EXECUTE selects is in id_map: an object's virtual ID leads
      to the real ID that the agent recorded, a handle to its own buffer. */
  lemma ProviderNeverFails(r: seq<State>, i: nat)
    requires Run(r) && i < |r| && r[i].queue != []
    ensures Accepts(r[i].tables, r[i].queue[0]) && Agree(r[i].tables)
    ensures r[i].queue[0].ExecuteRequest? ==>
      forall j | 0 <= j < |r[i].queue[0].args| ::
        Selected(r[i].queue[0].args, r[i].queue[0].mask, j) ==> Led(r[i], r[i].queue[0].args[j])
  {
    RunInv(r, i);
    HeadAccepted(r[i]);
  }

  /** An ID that may be named has its mapping made, or on the way before anything that is
      sent from now on. */
  lemma NameableResolves(r: seq<State>, i: nat, id: Word)
    requires Run(r) && i < |r| && Nameable(r[i], id)
    ensures id in r[i].tables.idMap || (!r[i].ids[id].LiveHandle? && Mapping(r[i].ids[id].actual, id) in r[i].queue)
    ensures id in r[i].tables.idMap ==> Led(r[i], id)
  {
    RunInv(r, i);
    IdAt(r[i], id);
  }

  // ---------- When an ID is drawn again ----------

  /** id_pool: what id_create's guard compares a candidate with (agent/src/id.c:41).
      clReleaseObject gives an ID back, and so does the release of a local buffer. */
  predicate InPool(s: State, id: Word) {
    id in s.ids && !s.ids[id].Released? && !s.ids[id].Discarded? && !s.ids[id].GivenBack?
  }

  /** The provider has been sent the ID, or knows it from the start. */
  ghost predicate WasSent(r: seq<State>, i: nat, id: Word)
    requires i < |r|
  {
    id in r[0].tables.idMap || exists j | 0 <= j <= i :: Announced(r[j].queue, id) > 0
  }

  /** What the agent has on record of that. */
  predicate Known(s: State, id: Word) {
    id in s.ids && !s.ids[id].Drawn? && !s.ids[id].Recorded? && !s.ids[id].GivenBack?
  }

  lemma AnnouncedIsKnown(s: State, id: Word)
    requires Inv(s)
    ensures Announced(s.queue, id) > 0 ==> Known(s, id)
  {
    IdAt(s, id);
  }

  /** Sending is the only way to become known. */
  lemma BecomesKnown(s: State, a: Action, s': State, id: Word)
    requires Step(s, a, s')
    ensures Known(s, id) ==> Known(s', id)
    ensures Known(s', id) ==> Known(s, id) || Announced(s'.queue, id) > 0
  {
    hide Handles, Announced, Selected;
    match a
    case SendMapping(x) => CountsAppend(s.queue, Mapping(s.ids[x].actual, x), id);
    case SendAllocate(x, size) => CountsAppend(s.queue, AllocateRequest(x, size), id);
    case SendMapAtPtr(handle, x) => CountsAppend(s.queue, MapAtPtrRequest(handle, x), id);
    case _ =>
  }

  lemma KnownStep(s: State, a: Action, s': State, id: Word)
    requires Inv(s) && Step(s, a, s')
    ensures Known(s', id) <==> Known(s, id) || Announced(s'.queue, id) > 0
  {
    hide *;
    BecomesKnown(s, a, s', id);
    StepKeeps(s, a, s');
    AnnouncedIsKnown(s', id);
  }

  lemma {:induction false} KnownIsSent(r: seq<State>, i: nat, id: Word)
    requires Run(r) && i < |r|
    ensures Known(r[i], id) <==> WasSent(r, i, id)
  {
    hide Inv, Step, Known, Announced;
    if i == 0 {
      KnownAtStart(r[0], id);
    } else {
      KnownIsSent(r, i - 1, id);
      RunInv(r, i - 1);
      assert Next(r[i - 1], r[i - 1 + 1]);
      var a :| Step(r[i - 1], a, r[i]);
      KnownStep(r[i - 1], a, r[i], id);
      if WasSent(r, i, id) && id !in r[0].tables.idMap {
        var j :| 0 <= j <= i && Announced(r[j].queue, id) > 0;
        assert j <= i - 1 || j == i;
      }
    }
  }

  lemma KnownAtStart(s: State, id: Word)
    requires Init(s)
    ensures (Known(s, id) <==> id in s.tables.idMap) && Announced(s.queue, id) == 0
  {
  }

  /** id_map has an entry for id once the messages of q have been handled, if only they are
      accepted. */
  function KeyAfter(known: bool, q: seq<Message>, id: Word): bool
    decreases q
  {
    if q == [] then known
    else KeyAfter(if Announces(q[0], id) then true else if Fetches(q[0], id) then false else known, q[1..], id)
  }

  lemma {:induction false} KeyAfterCounts(known: bool, q: seq<Message>, id: Word)
    requires FetchCount(q, id) == 0
    decreases q
    ensures KeyAfter(known, q, id) <==> known || Announced(q, id) > 0
  {
    if q != [] {
      KeyAfterCounts(if Announces(q[0], id) then true else known, q[1..], id);
    }
  }

  /** id_create accepts any candidate outside the pool.  The MAPPING of such an ID will
      find its key absent, as the assert at provider/src/provider.c:748 demands, exactly
      when the ID was never sent to this provider: clReleaseObject leaves the old entry
      behind. */
  lemma RedrawnIdTrips(r: seq<State>, i: nat, id: Word)
    requires Run(r) && i < |r| && !InPool(r[i], id)
    ensures !KeyAfter(id in r[i].tables.idMap, r[i].queue, id) <==> !WasSent(r, i, id)
  {
    RunInv(r, i);
    IdAt(r[i], id);
    KeyAfterCounts(id in r[i].tables.idMap, r[i].queue, id);
    KnownIsSent(r, i, id);
  }

  lemma MappingHandled(t: Tables, actual: Word, virt: Word)
    requires virt !in t.idMap
    ensures Handles(t, Mapping(actual, virt), t.(idMap := t.idMap[virt := actual]), [])
  {
    var c := Choice(0, 0, map[]);
    assert MayChoose(t, Mapping(actual, virt), c) && Effect(t, Mapping(actual, virt), c).0.idMap == t.idMap[virt := actual];
  }

  lemma ExecuteHandled(t: Tables, args: seq<Word>, mask: set<nat>)
    requires Accepts(t, ExecuteRequest(args, mask))
    ensures Handles(t, ExecuteRequest(args, mask), t, [ExecuteResponse(0)])
  {
    var c := Choice(0, 0, t.cells);
    assert MayChoose(t, ExecuteRequest(args, mask), c) && Effect(t, ExecuteRequest(args, mask), c).0 == t;
  }

  /** A run of five steps after which ID 1 is outside the pool and its MAPPING would be
      refused. */
  lemma RedrawnIdExample() returns (r: seq<State>)
    ensures Run(r) && |r| == 5 && !InPool(r[4], 1) && !Accepts(r[4].tables, Mapping(7, 1))
  {
    hide Handles;
    var t0 := Tables(map[], map[], map[]);
    var t1 := t0.(idMap := map[1 := 5]);
    var s0 := State(map[], Free, [], [], t0);
    var s1 := s0.(ids := s0.ids[1 := Recorded(0, 5)]);
    var s2 := s1.(ids := s1.ids[1 := LiveObject(0, 5)], queue := s1.queue + [Mapping(5, 1)]);
    var s3 := s2.(queue := s2.queue[1..], replies := s2.replies + [], tables := t1);
    var s4 := s3.(ids := s3.ids[1 := Released(0, 5)]);
    r := [s0, s1, s2, s3, s4];
    assert Step(s0, NewObject(0, 1, 5), s1);
    assert Step(s1, SendMapping(1), s2);
    MappingHandled(t0, 5, 1);
    assert Step(s2, ProviderTurn, s3);
    assert Step(s3, Release(1), s4);
    assert forall i | 0 <= i < 4 :: Next(r[i], r[i + 1]);
  }

  /** A consumer has a function called while nobody else is at it: one request, one turn of
      the provider, one answer. */
  lemma CallsOnce(s: State, c: Consumer, args: seq<Word>, mask: set<nat>) returns (r: seq<State>)
    requires s.lock == Free && s.queue == [] && s.replies == [] && Accepts(s.tables, ExecuteRequest(args, mask))
    requires forall i | 0 <= i < |args| :: Selected(args, mask, i) ==> Nameable(s, args[i])
    ensures |r| == 4 && r[0] == s && r[1] == Request(s, c, ExecuteRequest(args, mask)) && r[3] == s
    ensures Step(r[0], SendExecute(c, args, mask), r[1]) && Step(r[1], ProviderTurn, r[2]) && Step(r[2], Receive, r[3])
  {
    var m := ExecuteRequest(args, mask);
    ExecuteHandled(s.tables, args, mask);
    hide Handles, Accepts, Nameable;
    var s1 := Request(s, c, m);
    var s2 := s1.(queue := s1.queue[1..], replies := s1.replies + [ExecuteResponse(0)], tables := s.tables);
    var s3 := Received(s2, m, ExecuteResponse(0)).(lock := Free, replies := s2.replies[1..]);
    assert Step(s, SendExecute(c, args, mask), s1);
    assert Step(s1, ProviderTurn, s2);
    assert Step(s2, Receive, s3);
    r := [s, s1, s2, s3];
  }

  /** A run in which two consumers have the provider call a function on the same device. */
  lemma SharedDeviceExample() returns (r: seq<State>)
    ensures Run(r) && |r| == 7 && r[1].lock.Awaiting? && r[4].lock.Awaiting?
    ensures r[1].lock.consumer != r[4].lock.consumer && r[1].lock.request == r[4].lock.request == ExecuteRequest([3], {0})
  {
    hide Step;
    var s := State(map[3 := Attached(5)], Free, [], [], Tables(map[3 := 5], map[], map[]));
    var a := CallsOnce(s, 1, [3], {0});
    var b := CallsOnce(s, 2, [3], {0});
    r := a + b[1..];
    assert Init(s);
    forall i | 0 <= i < 6 ensures Next(r[i], r[i + 1]) {
      assert r[i] == if i < 3 then a[i] else b[i - 3];
      assert r[i + 1] == if i < 3 then a[i + 1] else b[i - 2];
    }
  }
}
