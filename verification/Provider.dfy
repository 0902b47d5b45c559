/** The provider's side of the control protocol, on the values of its tables. */
module Provider {
  // The two tables of provider_main and what each message does to them
  // (provider/src/provider.c:640-860), and the translation of arguments in
  // common/rpc_server.c:29-73.  ProviderMain is the program that does this.

  import RbNodes

  /** A 64-bit word: a virtual ID, a pointer or an argument. */
  type Word = RbNodes.Key

  /** struct clara_allocation. */
  datatype Allocation = Allocation(handle: Word, ptr: Word, size: nat)

  datatype Message =
    | AllocateRequest(handle: Word, size: nat)
    | ExecuteRequest(args: seq<Word>, mask: set<nat>)
    | Mapping(actual: Word, virt: Word)
    | MapAtPtrRequest(ptr: Word, virt: Word)
    | FetchRequest(handle: Word, wantsData: bool)

  datatype Reply =
    | AllocateResponse(handle: Word)
    | ExecuteResponse(retval: Word)
    | MapAtPtrResponse(actual: Word)
    | FetchResponse(size: nat)

  /** id_map from virtual to real IDs, allocations by handle, and the memory cells that
      hold words. */
  datatype Tables = Tables(idMap: map<Word, Word>, allocations: map<Word, Allocation>, cells: map<Word, Word>)

  function Cell(t: Tables, a: Word): Word {
    if a in t.cells then t.cells[a] else 0
  }

  /** The arguments that clara_execute translates: selected by the mask and not zero. */
  predicate Selected(args: seq<Word>, mask: set<nat>, i: nat) {
    i < |args| && i in mask && args[i] != 0
  }

  /** No assert fails and no pointer is NULL while the provider handles m: set_insert finds
      the new key absent (lines 709, 711, 748, 766), provider_id_map finds every argument
      (line 149), the pointer of MAPATPTR does not lead to NULL (line 763), FETCH finds its
      allocation and its mapping (lines 797-823). */
  predicate Accepts(t: Tables, m: Message) {
    match m
    case AllocateRequest(h, _) => h !in t.allocations && h !in t.idMap
    case ExecuteRequest(args, mask) => forall i | 0 <= i < |args| :: Selected(args, mask, i) ==> args[i] in t.idMap
    case Mapping(_, virt) => virt !in t.idMap
    case MapAtPtrRequest(ptr, virt) => ptr in t.idMap ==> t.idMap[ptr] != 0 && virt !in t.idMap
    case FetchRequest(h, _) => h in t.allocations && h in t.idMap
  }

  /** Where calloc may put a new buffer: not at NULL and not where another buffer is. */
  predicate Vacant(t: Tables, ptr: Word) {
    ptr != 0 && forall h | h in t.allocations :: t.allocations[h].ptr != ptr
  }

  /** What a message leaves open: the address that calloc returns, and what an OpenCL
      function returns and makes of the memory. */
  datatype Choice = Choice(ptr: Word, retval: Word, cells: map<Word, Word>)

  /** What handling an accepted message does to the tables, and what is answered. */
  function Effect(t: Tables, m: Message, c: Choice): (Tables, seq<Reply>)
    requires Accepts(t, m)
  {
    match m
    case AllocateRequest(h, size) =>
      (t.(idMap := t.idMap[h := c.ptr], allocations := t.allocations[h := Allocation(h, c.ptr, size)]), [AllocateResponse(h)])
    case ExecuteRequest(_, _) => (t.(cells := c.cells), [ExecuteResponse(c.retval)])
    case Mapping(actual, virt) => (t.(idMap := t.idMap[virt := actual]), [])
    case MapAtPtrRequest(ptr, virt) =>
      if ptr in t.idMap then
        var actual := Cell(t, t.idMap[ptr]);
        (t.(idMap := t.idMap[virt := actual], cells := t.cells[t.idMap[ptr] := virt]), [MapAtPtrResponse(actual)])
      else (t, [MapAtPtrResponse(0)])
    case FetchRequest(h, wantsData) =>
      (t.(idMap := t.idMap - {h}, allocations := t.allocations - {h}),
       if wantsData then [FetchResponse(t.allocations[h].size)] else [])
  }

  /** A choice that can occur. */
  predicate MayChoose(t: Tables, m: Message, c: Choice) {
    m.AllocateRequest? ==> Vacant(t, c.ptr)
  }

  /** One of the ways to handle a message that is accepted. */
  ghost predicate Handles(t: Tables, m: Message, t': Tables, replies: seq<Reply>) {
    Accepts(t, m) && exists c :: MayChoose(t, m, c) && (t', replies) == Effect(t, m, c)
  }

  /** Every handle has its entry in id_map, which leads to its own buffer. */
  ghost predicate Agree(t: Tables) {
    && (forall h | h in t.allocations ::
          var a := t.allocations[h]; a.handle == h && a.ptr != 0 && h in t.idMap && t.idMap[h] == a.ptr)
    && forall h, k | h in t.allocations && k in t.allocations && h != k :: t.allocations[h].ptr != t.allocations[k].ptr
  }

  /** Every message that the provider accepts keeps the tables in agreement. */
  lemma HandlesAgree(t: Tables, m: Message, t': Tables, replies: seq<Reply>)
    requires Agree(t) && Handles(t, m, t', replies)
    ensures Agree(t')
  {
    match m
    case AllocateRequest(h, _) =>
      forall k | k in t'.allocations && k != h ensures k in t.allocations && t'.allocations[k] == t.allocations[k] {
      }
    case FetchRequest(h, _) =>
      forall k | k in t'.allocations ensures k in t.allocations && k != h && k in t'.idMap {
      }
    case _ =>
  }

  /** Once the pointer is mapped, the cell it leads to holds the virtual ID, and that ID
      maps back to the real ID that stood there, which is the one the agent is told. */
  lemma MapAtPtrSwaps(t: Tables, ptr: Word, virt: Word, t': Tables, replies: seq<Reply>)
    requires Handles(t, MapAtPtrRequest(ptr, virt), t', replies)
    requires ptr in t.idMap
    ensures Cell(t', t'.idMap[ptr]) == virt && virt in t'.idMap
    ensures t'.idMap[virt] == Cell(t, t.idMap[ptr]) && replies == [MapAtPtrResponse(t'.idMap[virt])]
    ensures forall a: Word | a != t.idMap[ptr] :: Cell(t', a) == Cell(t, a)
    ensures forall v | v in t.idMap :: v in t'.idMap && t'.idMap[v] == t.idMap[v]
  {
  }

  /** Fetching a handle takes away both entries that allocating it made, whatever was
      executed in between. */
  lemma FetchUndoesAllocate(t: Tables, h: Word, size: nat, wantsData: bool, t1: Tables, t2: Tables, r1: seq<Reply>)
    requires Handles(t, AllocateRequest(h, size), t1, r1) && t2 == t1.(cells := t2.cells)
    ensures Accepts(t2, FetchRequest(h, wantsData))
    ensures forall t3, r3 | Handles(t2, FetchRequest(h, wantsData), t3, r3) ::
      t3.idMap == t.idMap && t3.allocations == t.allocations && (wantsData ==> r3 == [FetchResponse(size)])
  {
    assert t2.idMap - {h} == t.idMap && t2.allocations - {h} == t.allocations;
  }

  /** The argument list after the loop of clara_execute, which the function sees. */
  function Translated(idMap: map<Word, Word>, mask: set<nat>, args: seq<Word>): (argv: seq<Word>)
    requires forall i | 0 <= i < |args| :: Selected(args, mask, i) ==> args[i] in idMap
    ensures |argv| == |args|
    ensures forall i | 0 <= i < |args| && i in mask && args[i] != 0 :: args[i] in idMap && argv[i] == idMap[args[i]]
    ensures forall i | 0 <= i < |args| && (i !in mask || args[i] == 0) :: argv[i] == args[i]
  {
    assert forall i | 0 <= i < |args| :: Selected(args, mask, i) <==> args[i] != 0 && i in mask;
    seq(|args|, i requires 0 <= i < |args| => if Selected(args, mask, i) then idMap[args[i]] else args[i])
  }

  /** An OpenCL function: from its arguments and the memory to its result and the memory. */
  type Vendor = (seq<Word>, map<Word, Word>) -> (Word, map<Word, Word>)

  /** The choice when calloc returns ptr and the OpenCL function that an EXECUTE names is
      vendor, which sees the real IDs. */
  function Chosen(t: Tables, m: Message, ptr: Word, vendor: Vendor): Choice
    requires Accepts(t, m)
  {
    match m
    case ExecuteRequest(args, mask) =>
      var r := vendor(Translated(t.idMap, mask, args), t.cells);
      Choice(ptr, r.0, r.1)
    case _ => Choice(ptr, 0, t.cells)
  }

  function Apply(t: Tables, m: Message, ptr: Word, vendor: Vendor): (Tables, seq<Reply>)
    requires Accepts(t, m)
  {
    Effect(t, m, Chosen(t, m, ptr, vendor))
  }

  /** A function that returns its argument i without more ado tells the caller the real ID
      behind it, where one is selected, and otherwise the word that was passed. */
  lemma ReturnsRealId(t: Tables, args: seq<Word>, mask: set<nat>, i: nat, ptr: Word, vendor: Vendor)
    requires Accepts(t, ExecuteRequest(args, mask)) && i < |args|
    requires forall argv, cells | |argv| == |args| :: vendor(argv, cells) == (argv[i], cells)
    ensures i in mask && args[i] != 0 ==>
      args[i] in t.idMap && Apply(t, ExecuteRequest(args, mask), ptr, vendor) == (t, [ExecuteResponse(t.idMap[args[i]])])
    ensures i !in mask || args[i] == 0 ==> Apply(t, ExecuteRequest(args, mask), ptr, vendor) == (t, [ExecuteResponse(args[i])])
  {
    var argv := Translated(t.idMap, mask, args);
    assert vendor(argv, t.cells) == (argv[i], t.cells);
  }

  /** What the program does is one of the ways that the protocol leaves open. */
  lemma ApplyHandles(t: Tables, m: Message, ptr: Word, vendor: Vendor)
    requires Accepts(t, m) && Vacant(t, ptr)
    ensures Handles(t, m, Apply(t, m, ptr, vendor).0, Apply(t, m, ptr, vendor).1)
  {
    assert MayChoose(t, m, Chosen(t, m, ptr, vendor));
  }

  /** The tables after the messages of ms, up to the first that is not accepted. */
  function AfterAll(t: Tables, ms: seq<Message>, ptrs: nat -> Word, vendors: nat -> Vendor): Tables {
    if ms == [] then t
    else
      var n := |ms| - 1;
      var u := AfterAll(t, ms[..n], ptrs, vendors);
      if Accepts(u, ms[n]) then Apply(u, ms[n], ptrs(n), vendors(n)).0 else u
  }

  /** Whatever arrives, each handle keeps its own buffer in both tables. */
  lemma {:induction false} AfterAllAgrees(t: Tables, ms: seq<Message>, ptrs: nat -> Word, vendors: nat -> Vendor)
    requires Agree(t) && forall i | 0 <= i < |ms| :: Vacant(AfterAll(t, ms[..i], ptrs, vendors), ptrs(i))
    ensures Agree(AfterAll(t, ms, ptrs, vendors))
  {
    if ms != [] {
      var n := |ms| - 1;
      var u := AfterAll(t, ms[..n], ptrs, vendors);
      assert forall i | 0 <= i < n :: ms[..n][..i] == ms[..i];
      AfterAllAgrees(t, ms[..n], ptrs, vendors);
      if Accepts(u, ms[n]) {
        ApplyHandles(u, ms[n], ptrs(n), vendors(n));
        HandlesAgree(u, ms[n], Apply(u, ms[n], ptrs(n), vendors(n)).0, Apply(u, ms[n], ptrs(n), vendors(n)).1);
      }
    }
  }
}
