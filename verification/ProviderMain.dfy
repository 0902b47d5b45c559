/** provider_main on the locked sets id_map and allocations
    (provider/src/provider.c:640-860), with the records that they point to
    (common/map.c:28-67, common/alloc.c:28-80) and the translation of arguments
    (common/rpc_server.c:29-73).  A failing assert stops the program.

    The data of both sets are addresses of records; mappings and buffers are the memory that
    these records are in, and malloc finds a new address for each.  Filed and Kept say that
    a record lies under its own key, and Now makes the two tables of Provider of the sets
    and the records.  Each method is a run of lines that handles one message, or a part of
    one, and returns false where an assert would fail. */
module ProviderMain {
  import Lock
  import Lookup
  import opened Provider
  import RbHeight
  import RbNodes
  import Set

  /** struct mapping. */
  datatype MappingRecord = MappingRecord(virt: Word, actual: Word)

  /** The records that the data of a set point to lie under their own keys. */
  ghost predicate Filed(ids: map<Word, nat>, records: map<nat, MappingRecord>) {
    forall k | k in ids :: ids[k] != Set.NULL && ids[k] in records && records[ids[k]].virt == k
  }

  ghost predicate Kept(handles: map<Word, nat>, records: map<nat, Allocation>) {
    forall k | k in handles :: handles[k] != Set.NULL && handles[k] in records && records[handles[k]].handle == k
  }

  ghost function Actuals(ids: map<Word, nat>, records: map<nat, MappingRecord>): map<Word, Word>
    requires Filed(ids, records)
  {
    map k | k in ids :: records[ids[k]].actual
  }

  ghost function Buffers(handles: map<Word, nat>, records: map<nat, Allocation>): map<Word, Allocation>
    requires Kept(handles, records)
  {
    map k | k in handles :: records[handles[k]]
  }

  lemma FiledAfter(ids: map<Word, nat>, records: map<nat, MappingRecord>, at: nat, virt: Word, actual: Word)
    requires Filed(ids, records) && at !in records && at != Set.NULL && virt !in ids
    ensures Filed(ids[virt := at], records[at := MappingRecord(virt, actual)])
    ensures Actuals(ids[virt := at], records[at := MappingRecord(virt, actual)]) == Actuals(ids, records)[virt := actual]
  {
  }

  lemma FiledWithout(ids: map<Word, nat>, records: map<nat, MappingRecord>, virt: Word)
    requires Filed(ids, records) && virt in ids
    ensures Filed(ids - {virt}, records - {ids[virt]})
    ensures Actuals(ids - {virt}, records - {ids[virt]}) == Actuals(ids, records) - {virt}
  {
    forall k | k in ids && k != virt ensures ids[k] != ids[virt] {
      assert records[ids[k]].virt == k;
    }
  }

  lemma KeptAfter(handles: map<Word, nat>, records: map<nat, Allocation>, at: nat, a: Allocation)
    requires Kept(handles, records) && at !in records && at != Set.NULL && a.handle !in handles
    ensures Kept(handles[a.handle := at], records[at := a])
    ensures Buffers(handles[a.handle := at], records[at := a]) == Buffers(handles, records)[a.handle := a]
  {
  }

  lemma KeptWithout(handles: map<Word, nat>, records: map<nat, Allocation>, handle: Word)
    requires Kept(handles, records) && handle in handles
    ensures Kept(handles - {handle}, records - {handles[handle]})
    ensures Buffers(handles - {handle}, records - {handles[handle]}) == Buffers(handles, records) - {handle}
  {
    forall k | k in handles && k != handle ensures handles[k] != handles[handle] {
      assert records[handles[k]].handle == k;
    }
  }

  /** struct _provider, as far as provider_main uses it, and the memory its records are in. */
  class Program {
    const idMap: Set.LockedSet
    const allocations: Set.LockedSet
    const self: Lock.Tid
    var mappings: map<nat, MappingRecord>
    var buffers: map<nat, Allocation>
    var cells: map<Word, Word>

    ghost function Repr(): set<object>
      reads this, idMap, idMap.tree, allocations, allocations.tree
    {
      {this} + idMap.Repr() + allocations.Repr()
    }

    /** The thread may enter both sets, which refer to no freed item and share nothing. */
    ghost predicate Usable()
      reads idMap, idMap.Repr(), allocations, allocations.Repr()
    {
      && idMap.Enterable(self) && allocations.Enterable(self) && idMap.Repr() !! allocations.Repr()
      && idMap.Intact() && allocations.Intact()
    }

    ghost predicate Valid()
      reads this, idMap, idMap.Repr(), allocations, allocations.Repr()
    {
      Usable() && Filed(idMap.Contents(), mappings) && Kept(allocations.Contents(), buffers)
    }

    ghost function Now(): Tables
      reads this, idMap, idMap.Repr(), allocations, allocations.Repr()
      requires Valid()
    {
      Tables(Actuals(idMap.Contents(), mappings), Buffers(allocations.Contents(), buffers), cells)
    }

    constructor (self: Lock.Tid)
      ensures Valid() && Now() == Tables(map[], map[], map[]) && fresh(Repr())
    {
      hide *;
      var a, b := TwoSets(self);
      a.ReprAllocated();
      b.ReprAllocated();
      idMap, allocations := a, b;
      this.self := self;
      mappings, buffers, cells := map[], map[], map[];
      new;
      Whole();
      NothingYet(idMap.Contents(), allocations.Contents());
      NowIs();
    }

    // ---------- The sets ----------

    /** set_insert on one of the two sets; the other stays as it is. */
    method Enter(s: Set.LockedSet, other: Set.LockedSet, key: Word, data: nat) returns (ok: bool)
      requires s.Enterable(self) && s.Roomy() && s.Intact() && other.Enterable(self) && s.Repr() !! other.Repr()
      modifies s.Repr()
      ensures s.Enterable(self) && fresh(s.Repr() - old(s.Repr())) && s.Repr() !! other.Repr()
      ensures ok <==> key !in old(s.Contents())
      ensures ok ==> s.Intact() && s.Contents() == old(s.Contents())[key := data]
      ensures other.Enterable(self) && other.Repr() == old(other.Repr()) && other.Contents() == old(other.Contents())
      ensures other.Intact() == old(other.Intact())
    {
      hide *;
      other.ReprAllocated();
      s.EnterableIsValid(self);
      s.MayEnter(self);
      ok := s.InsertAnywhere(self, key, data, false);
      s.MayEnter(self);
    }

    method Leave(s: Set.LockedSet, other: Set.LockedSet, key: Word) returns (ok: bool)
      requires s.Enterable(self) && s.Roomy() && s.Intact() && other.Enterable(self) && s.Repr() !! other.Repr()
      modifies s.Repr()
      ensures s.Enterable(self) && s.Repr() <= old(s.Repr()) && s.Intact()
      ensures ok <==> key in old(s.Contents())
      ensures s.Contents() == old(s.Contents()) - {key}
      ensures other.Enterable(self) && other.Repr() == old(other.Repr()) && other.Contents() == old(other.Contents())
      ensures other.Intact() == old(other.Intact())
    {
      hide *;
      other.ReprAllocated();
      s.EnterableIsValid(self);
      s.MayEnter(self);
      s.LinkedParts();
      ok := s.Remove(self, key);
      s.LinkedParts();
      s.MayEnter(self);
    }

    // ---------- One table ----------

    /** mapping_create and set_insert. */
    method AddMapping(actual: Word, virt: Word) returns (ok: bool)
      requires Valid() && idMap.Roomy()
      modifies `mappings, idMap.Repr()
      ensures ok <==> virt !in old(Now()).idMap
      ensures ok ==> Valid() && Now() == old(Now()).(idMap := old(Now()).idMap[virt := actual])
      ensures fresh(idMap.Repr() - old(idMap.Repr())) && allocations.Repr() == old(allocations.Repr())
    {
      hide *;
      Whole();
      NowIs();
      Keys();
      ghost var ids, records := idMap.Contents(), mappings;
      Set.FreeAddress(mappings.Keys);
      var at: nat :| at != Set.NULL && at !in mappings.Keys;
      mappings := mappings[at := MappingRecord(virt, actual)];
      Whole();
      label before:
      ok := Enter(idMap, allocations, virt, at);
      assert fresh@before(idMap.Repr() - old@before(idMap.Repr()));
      forall o | o in idMap.Repr() && o !in old(idMap.Repr()) ensures fresh(o) {
        assert fresh@before(o);
        assert old(allocated(o)) ==> old@before(allocated(o));
      }
      Whole();
      if ok {
        FiledAfter(ids, records, at, virt, actual);
        NowIs();
      }
    }

    /** clara_create_allocation and set_insert. */
    method AddAllocation(a: Allocation) returns (ok: bool)
      requires Valid() && allocations.Roomy()
      modifies `buffers, allocations.Repr()
      ensures ok <==> a.handle !in old(Now()).allocations
      ensures ok ==>
        && Valid() && Now() == old(Now()).(allocations := old(Now()).allocations[a.handle := a])
        && idMap.Contents() == old(idMap.Contents())
      ensures fresh(allocations.Repr() - old(allocations.Repr())) && idMap.Repr() == old(idMap.Repr())
    {
      hide *;
      Whole();
      NowIs();
      Keys();
      ghost var handles, records := allocations.Contents(), buffers;
      Set.FreeAddress(buffers.Keys);
      var at: nat :| at != Set.NULL && at !in buffers.Keys;
      buffers := buffers[at := a];
      Whole();
      label before:
      ok := Enter(allocations, idMap, a.handle, at);
      assert fresh@before(allocations.Repr() - old@before(allocations.Repr()));
      forall o | o in allocations.Repr() && o !in old(allocations.Repr()) ensures fresh(o) {
        assert fresh@before(o);
        assert old(allocated(o)) ==> old@before(allocated(o));
      }
      Whole();
      if ok {
        KeptAfter(handles, records, at, a);
        NowIs();
      }
    }

    /** provider_id_map without its assert, and mapping_find_by_virt elsewhere. */
    method FindMapping(virt: Word) returns (ok: bool, actual: Word)
      requires Valid()
      modifies idMap.lock
      ensures Valid() && Now() == old(Now()) && Repr() == old(Repr()) && idMap.Contents() == old(idMap.Contents())
      ensures ok <==> virt in Now().idMap
      ensures ok ==> actual == Now().idMap[virt]
    {
      hide *;
      Whole();
      NowIs();
      Keys();
      idMap.EnterableIsValid(self);
      idMap.MayEnter(self);
      idMap.ReprAllocated();
      allocations.ReprAllocated();
      var at;
      ok, at := Lookup.FindByVirt(idMap, self, virt);
      idMap.MayEnter(self);
      Whole();
      NowIs();
      actual := 0;
      if ok {
        FiledAt(idMap.Contents(), mappings, virt);
        actual := mappings[at].actual;
      }
    }

    /** clara_find_allocation. */
    method FindAllocation(handle: Word) returns (at: nat)
      requires Valid() && allocations.Roomy()
      modifies allocations.lock, allocations.trav, allocations.trav.stack
      ensures Valid() && Now() == old(Now()) && Repr() == old(Repr())
      ensures idMap.Contents() == old(idMap.Contents()) && allocations.Contents() == old(allocations.Contents())
      ensures at != Set.NULL <==> handle in Now().allocations
      ensures at != Set.NULL ==>
        && handle in allocations.Contents() && at == allocations.Contents()[handle]
        && at in buffers && buffers[at] == Now().allocations[handle]
    {
      hide *;
      Whole();
      NowIs();
      Keys();
      allocations.EnterableIsValid(self);
      allocations.MayEnter(self);
      idMap.ReprAllocated();
      allocations.ReprAllocated();
      var handleOf := HandleOf(buffers);
      ReadsHandles(allocations.Contents(), buffers, handleOf);
      at := Lookup.FindAllocation(allocations, self, handleOf, handle);
      allocations.MayEnter(self);
      Whole();
      NowIs();
      KeptAt(allocations.Contents(), buffers, handle);
    }

    /** Lines 820-822: find the mapping, take it out of the set, and free it. */
    method DropMapping(virt: Word) returns (ok: bool)
      requires Valid() && idMap.Roomy()
      modifies `mappings, idMap.Repr()
      ensures Valid() && idMap.Repr() <= old(idMap.Repr()) && allocations.Repr() == old(allocations.Repr())
      ensures ok <==> virt in old(Now()).idMap
      ensures ok ==> Now() == old(Now()).(idMap := old(Now()).idMap - {virt})
      ensures allocations.Contents() == old(allocations.Contents())
    {
      hide *;
      Whole();
      NowIs();
      Keys();
      ghost var ids, records := idMap.Contents(), mappings;
      idMap.EnterableIsValid(self);
      idMap.MayEnter(self);
      idMap.ReprAllocated();
      allocations.ReprAllocated();
      var at;
      ok, at := Lookup.FindByVirt(idMap, self, virt);
      idMap.MayEnter(self);
      Whole();
      NowIs();
      if ok {
        FiledAt(ids, records, virt);
        idMap.EnterableIsValid(self);
        idMap.RoomFor(ids);
        var removed := Leave(idMap, allocations, mappings[at].virt);
        assert removed;
        FiledWithout(ids, records, virt);
        mappings := mappings - {at};
        Whole();
        NowIs();
      }
    }

    /** Lines 823-824, with at what clara_find_allocation returned. */
    method DropAllocation(at: nat) returns (ok: bool)
      requires Valid() && allocations.Roomy() && at in buffers
      requires buffers[at].handle in allocations.Contents() && allocations.Contents()[buffers[at].handle] == at
      modifies `buffers, allocations.Repr()
      ensures Valid() && allocations.Repr() <= old(allocations.Repr()) && idMap.Repr() == old(idMap.Repr())
      ensures ok && Now() == old(Now()).(allocations := old(Now()).allocations - {old(buffers)[at].handle})
    {
      hide *;
      Whole();
      NowIs();
      ghost var handles, records := allocations.Contents(), buffers;
      ghost var handle := buffers[at].handle;
      ok := Leave(allocations, idMap, buffers[at].handle);
      KeptWithout(handles, records, handle);
      buffers := buffers - {at};
      Whole();
      NowIs();
    }

    // ---------- The messages ----------

    lemma Apart(words: array<Word>)
      ensures words !in Repr()
    {
      Lookup.WordsApart(idMap, words);
      Lookup.WordsApart(allocations, words);
    }

    /** clara_execute, common/rpc_server.c:59-71: the loop over the arguments, in place. */
    method TranslateArgs(argv: array<Word>, mask: set<nat>) returns (ok: bool)
      requires Valid()
      modifies argv, idMap.lock
      ensures Valid() && Now() == old(Now()) && Repr() == old(Repr())
      ensures ok <==> Accepts(Now(), ExecuteRequest(old(argv[..]), mask))
      ensures ok ==> argv[..] == Translated(Now().idMap, mask, old(argv[..]))
    {
      hide *;
      Whole();
      idMap.ReprAllocated();
      Apart(argv);
      ghost var t, args, S := Now(), argv[..], Repr();
      for i := 0 to argv.Length
        invariant Valid() && Now() == t && Repr() == S
        invariant forall j | i <= j < argv.Length :: argv[j] == args[j]
        invariant forall j | 0 <= j < i :: TranslatedAt(t.idMap, mask, args, j, argv[j])
      {
        if argv[i] == 0 {
          NotSelected(t.idMap, mask, args, i);
          continue;
        }
        if i in mask {
          Whole();
          idMap.ReprAllocated();
          var found, actual := FindMapping(argv[i]);
          if !found {
            Unmapped(t, mask, args, i);
            return false;
          }
          argv[i] := actual;
          Replaced(t.idMap, mask, args, i);
        } else {
          NotSelected(t.idMap, mask, args, i);
        }
      }
      ok := true;
      AllTranslated(t, mask, args, argv[..]);
    }

    /** CLARA_MSG_ALLOCATE_REQUEST, lines 707-711. */
    method Allocate(handle: Word, size: nat, ptr: Word) returns (ok: bool)
      requires Valid() && idMap.Roomy() && allocations.Roomy()
      modifies `buffers, `mappings, idMap.Repr(), allocations.Repr()
      ensures ok <==> Accepts(old(Now()), AllocateRequest(handle, size))
      ensures ok ==>
        && Valid()
        && var t := old(Now());
           Now() == Tables(t.idMap[handle := ptr], t.allocations[handle := Allocation(handle, ptr, size)], t.cells)
      ensures fresh(Repr() - old(Repr()))
    {
      hide *;
      Whole();
      ghost var t := Now();
      AcceptsAllocate(t, handle, size);
      ghost var ids := idMap.Contents();
      idMap.EnterableIsValid(self);
      idMap.RoomFor(ids);
      var allocation := Allocation(handle, ptr, size);
      ok := AddAllocation(allocation);
      Whole();
      if ok {
        idMap.EnterableIsValid(self);
        idMap.RoomFor(ids);
        label before:
        ok := AddMapping(allocation.ptr, allocation.handle);
        assert fresh@before(idMap.Repr() - old@before(idMap.Repr()));
        forall o | o in idMap.Repr() && o !in old(idMap.Repr()) ensures fresh(o) {
          assert fresh@before(o);
          assert old(allocated(o)) ==> old@before(allocated(o));
        }
        Whole();
      }
    }

    /** CLARA_MSG_EXECUTE_REQUEST: clara_execute. */
    method Execute(args: seq<Word>, mask: set<nat>, vendor: Vendor) returns (ok: bool, retval: Word)
      requires Valid()
      modifies `cells, idMap.lock
      ensures ok <==> Accepts(old(Now()), ExecuteRequest(args, mask))
      ensures Valid() && Repr() == old(Repr())
      ensures ok ==>
        var r := vendor(Translated(old(Now()).idMap, mask, args), old(Now()).cells);
        retval == r.0 && Now() == old(Now()).(cells := r.1)
    {
      hide *;
      Whole();
      NowIs();
      idMap.ReprAllocated();
      allocations.ReprAllocated();
      ghost var S := Repr();
      var argv := new Word[|args|](i requires 0 <= i < |args| => args[i]);
      assert argv[..] == args;
      Whole();
      assert Repr() == S;
      ok := TranslateArgs(argv, mask);
      ZeroIsWord();
      retval := 0;
      Whole();
      NowIs();
      if ok {
        var r := vendor(argv[..], cells);
        retval, cells := r.0, r.1;
        Whole();
        NowIs();
      }
    }

    /** CLARA_MSG_MAPATPTR_REQUEST, lines 758-776. */
    method MapAtPtr(id: Word, virt: Word) returns (ok: bool, actual: Word)
      requires Valid() && idMap.Roomy()
      modifies `cells, `mappings, idMap.Repr()
      ensures ok <==> Accepts(old(Now()), MapAtPtrRequest(id, virt))
      ensures ok ==>
        && Valid()
        && var t := old(Now());
           if id in t.idMap then
             && actual == Cell(t, t.idMap[id])
             && Now() == Tables(t.idMap[virt := actual], t.allocations, t.cells[t.idMap[id] := virt])
           else Now() == t && actual == 0
      ensures fresh(Repr() - old(Repr()))
    {
      hide *;
      Whole();
      NowIs();
      idMap.ReprAllocated();
      AcceptsMapAtPtr(Now(), id, virt);
      actual := 0;
      var found, at := FindMapping(id);
      ok := true;
      Whole();
      NowIs();
      if found {
        if at == 0 {
          return false, 0;
        }
        actual := if at in cells then cells[at] else 0;
        label before:
        ok := AddMapping(actual, virt);
        assert fresh@before(idMap.Repr() - old@before(idMap.Repr()));
        forall o | o in idMap.Repr() && o !in old(idMap.Repr()) ensures fresh(o) {
          assert fresh@before(o);
          assert old(allocated(o)) ==> old@before(allocated(o));
        }
        Whole();
        if ok {
          NowIs();
          cells := cells[at := virt];
          Whole();
          NowIs();
        }
      }
    }

    /** CLARA_MSG_FETCH_REQUEST, lines 797-825. */
    method Fetch(handle: Word) returns (ok: bool, size: nat)
      requires Valid() && idMap.Roomy() && allocations.Roomy()
      modifies `buffers, `mappings, idMap.Repr(), allocations.Repr()
      ensures ok <==> Accepts(old(Now()), FetchRequest(handle, true))
      ensures ok ==>
        && Valid()
        && var t := old(Now());
           && handle in t.allocations && size == t.allocations[handle].size
           && Now() == Tables(t.idMap - {handle}, t.allocations - {handle}, t.cells)
      ensures Repr() <= old(Repr())
    {
      hide *;
      Whole();
      NowIs();
      idMap.ReprAllocated();
      allocations.ReprAllocated();
      ghost var t, handles := Now(), allocations.Contents();
      AcceptsFetch(t, handle);
      allocations.EnterableIsValid(self);
      allocations.RoomFor(handles);
      var at := FindAllocation(handle);
      Whole();
      size := 0;
      if at == Set.NULL {
        return false, 0;
      }
      NowIs();
      KeptAt(handles, buffers, handle);
      assert allocations.Contents() == handles && handles[handle] == at && buffers[at].handle == handle;
      size := buffers[at].size;
      ok := DropMapping(buffers[at].handle);
      Whole();
      if ok {
        assert allocations.Contents() == handles && buffers[at].handle == handle;
        allocations.EnterableIsValid(self);
        allocations.RoomFor(handles);
        ok := DropAllocation(at);
        Whole();
      }
    }

    /** One turn of the loop, lines 699-825.  ptr is what calloc returns, and vendor the
        function that an EXECUTE names.  An assert fails, or a NULL pointer is followed, if
        and only if the message is not one that Accepts describes. */
    method Handle(m: Message, ptr: Word, vendor: Vendor) returns (ok: bool, replies: seq<Reply>)
      requires Valid() && idMap.Roomy() && allocations.Roomy()
      modifies Repr()
      ensures ok <==> Accepts(old(Now()), m)
      ensures ok ==> Valid() && (Now(), replies) == Apply(old(Now()), m, ptr, vendor) && fresh(Repr() - old(Repr()))
      ensures ok && m.ExecuteRequest? ==>
        var t := old(Now());
        var r := vendor(Translated(t.idMap, m.mask, m.args), t.cells);
        Now() == t.(cells := r.1) && replies == [ExecuteResponse(r.0)]
    {
      hide *;
      Whole();
      idMap.ReprAllocated();
      replies := [];
      ghost var t := Now();
      match m {
      case AllocateRequest(handle, size) =>
        ok := Allocate(handle, size, ptr);
        replies := [AllocateResponse(handle)];
      case ExecuteRequest(args, mask) =>
        var retval;
        ok, retval := Execute(args, mask, vendor);
        replies := [ExecuteResponse(retval)];
      case Mapping(actual, virt) =>
        AcceptsMapping(t, actual, virt);
        ok := AddMapping(actual, virt);
        Whole();
      case MapAtPtrRequest(id, virt) =>
        var actual;
        ok, actual := MapAtPtr(id, virt);
        replies := [MapAtPtrResponse(actual)];
      case FetchRequest(handle, wantsData) =>
        AcceptsFetch(t, handle);
        var size;
        ok, size := Fetch(handle);
        if wantsData {
          replies := [FetchResponse(size)];
        }
      }
      if ok {
        ApplyIs(t, m, ptr, vendor);
      }
    }

    /** The loop of provider_main over the messages that arrive, until an assert fails: it
        gets to the first message that is not accepted, and no further. */
    method Serve(ms: seq<Message>, ptrs: nat -> Word, vendors: nat -> Vendor) returns (n: nat, replies: seq<seq<Reply>>)
      requires Valid() && Fits(Now(), ms, ptrs, vendors)
      modifies Repr()
      ensures n <= |ms| && |replies| == n
      ensures forall i | 0 <= i < n :: Answered(old(Now()), ms, ptrs, vendors, i, replies[i])
      ensures n < |ms| ==> !Accepts(AfterAll(old(Now()), ms[..n], ptrs, vendors), ms[n])
      ensures n == |ms| ==> Valid() && Now() == AfterAll(old(Now()), ms, ptrs, vendors)
    {
      hide *;
      n, replies := 0, [];
      ghost var t := Now();
      NoMessages(t, ms, ptrs, vendors);
      while n < |ms|
        invariant n <= |ms| && |replies| == n && Valid() && fresh(Repr() - old(Repr()))
        invariant Now() == AfterAll(t, ms[..n], ptrs, vendors)
        invariant forall i | 0 <= i < n :: Answered(t, ms, ptrs, vendors, i, replies[i])
      {
        NextMessage(t, ms, ptrs, vendors, n);
        Keys();
        RoomIs();
        label before:
        var ok, r := Handle(ms[n], ptrs(n), vendors(n));
        if !ok {
          return;
        }
        assert fresh@before(Repr() - old@before(Repr()));
        forall o | o in Repr() && o !in old(Repr()) ensures fresh(o) {
          if o !in old@before(Repr()) {
            assert fresh@before(o);
            assert old(allocated(o)) ==> old@before(allocated(o));
          }
        }
        replies := replies + [r];
        n := n + 1;
      }
      assert ms[..n] == ms;
    }

    lemma RoomIs()
      requires Valid()
      ensures |Now().idMap| < RbHeight.FIRST_UNSAFE_SIZE ==> idMap.Roomy()
      ensures |Now().allocations| < RbHeight.FIRST_UNSAFE_SIZE ==> allocations.Roomy()
    {
      hide *;
      Whole();
      Keys();
      idMap.EnterableIsValid(self);
      allocations.EnterableIsValid(self);
      idMap.RoomFor(idMap.Contents());
      allocations.RoomFor(allocations.Contents());
      assert |Now().idMap.Keys| == |Now().idMap| && |idMap.Contents().Keys| == |idMap.Contents()|;
      assert |Now().allocations.Keys| == |Now().allocations| && |allocations.Contents().Keys| == |allocations.Contents()|;
    }

    lemma Keys()
      requires Valid()
      ensures Now().idMap.Keys == idMap.Contents().Keys && Now().allocations.Keys == allocations.Contents().Keys
    {
    }

    lemma Whole()
      ensures this !in idMap.Repr() && this !in allocations.Repr()
      ensures Repr() == {this} + idMap.Repr() + allocations.Repr()
      ensures Usable() <==>
        && idMap.Enterable(self) && allocations.Enterable(self) && idMap.Repr() !! allocations.Repr()
        && idMap.Intact() && allocations.Intact()
      ensures Valid() <==> Usable() && Filed(idMap.Contents(), mappings) && Kept(allocations.Contents(), buffers)
    {
      hide RbNodes.Nodes;
    }

    lemma NowIs()
      requires Valid()
      ensures Filed(idMap.Contents(), mappings) && Kept(allocations.Contents(), buffers)
      ensures Now() == Tables(Actuals(idMap.Contents(), mappings), Buffers(allocations.Contents(), buffers), cells)
    {
    }
  }

  lemma FiledAt(ids: map<Word, nat>, records: map<nat, MappingRecord>, virt: Word)
    requires Filed(ids, records) && virt in ids
    ensures ids[virt] in records && records[ids[virt]].virt == virt && Actuals(ids, records)[virt] == records[ids[virt]].actual
  {
  }

  lemma KeptAt(handles: map<Word, nat>, records: map<nat, Allocation>, handle: Word)
    requires Kept(handles, records)
    ensures handle in handles ==>
      && handles[handle] != Set.NULL && handles[handle] in records && records[handles[handle]].handle == handle
      && Buffers(handles, records)[handle] == records[handles[handle]]
  {
  }

  /** allocation->handle, for a pointer to an allocation. */
  function HandleOf(records: map<nat, Allocation>): nat -> Word {
    (at: nat) => if at in records then records[at].handle else 0
  }

  lemma ReadsHandles(handles: map<Word, nat>, records: map<nat, Allocation>, handleOf: nat -> Word)
    requires Kept(handles, records) && handleOf == HandleOf(records)
    ensures Lookup.ByHandle(handles, handleOf)
  {
  }

  /** Argument i has been dealt with and is now x. */
  predicate TranslatedAt(idMap: map<Word, Word>, mask: set<nat>, args: seq<Word>, i: nat, x: Word)
    requires i < |args|
  {
    (Selected(args, mask, i) ==> args[i] in idMap) && x == if Selected(args, mask, i) then idMap[args[i]] else args[i]
  }

  lemma NotSelected(idMap: map<Word, Word>, mask: set<nat>, args: seq<Word>, i: nat)
    requires i < |args| && (args[i] == 0 || i !in mask)
    ensures TranslatedAt(idMap, mask, args, i, args[i])
  {
  }

  lemma Replaced(idMap: map<Word, Word>, mask: set<nat>, args: seq<Word>, i: nat)
    requires i < |args| && args[i] != 0 && i in mask && args[i] in idMap
    ensures TranslatedAt(idMap, mask, args, i, idMap[args[i]])
  {
  }

  lemma Unmapped(t: Tables, mask: set<nat>, args: seq<Word>, i: nat)
    requires i < |args| && args[i] != 0 && i in mask && args[i] !in t.idMap
    ensures !Accepts(t, ExecuteRequest(args, mask))
  {
    assert Selected(args, mask, i);
  }

  lemma AllTranslated(t: Tables, mask: set<nat>, args: seq<Word>, now: seq<Word>)
    requires |now| == |args| && forall i | 0 <= i < |args| :: TranslatedAt(t.idMap, mask, args, i, now[i])
    ensures Accepts(t, ExecuteRequest(args, mask)) && now == Translated(t.idMap, mask, args)
  {
    forall i | 0 <= i < |args| ensures Selected(args, mask, i) ==> args[i] in t.idMap {
      assert TranslatedAt(t.idMap, mask, args, i, now[i]);
    }
    var r := Translated(t.idMap, mask, args);
    forall i | 0 <= i < |args| ensures now[i] == r[i] {
      assert TranslatedAt(t.idMap, mask, args, i, now[i]);
    }
  }

  /** The sets are small enough for the stacks of their trees. */
  ghost predicate Fits(t: Tables, ms: seq<Message>, ptrs: nat -> Word, vendors: nat -> Vendor) {
    forall i | 0 <= i < |ms| :: Small(AfterAll(t, ms[..i], ptrs, vendors))
  }

  predicate Small(t: Tables) {
    |t.idMap| < RbHeight.FIRST_UNSAFE_SIZE && |t.allocations| < RbHeight.FIRST_UNSAFE_SIZE
  }

  /** Message i is accepted where it stands, and gets its answer. */
  ghost predicate Answered(t: Tables, ms: seq<Message>, ptrs: nat -> Word, vendors: nat -> Vendor, i: nat, r: seq<Reply>)
    requires i < |ms|
  {
    var u := AfterAll(t, ms[..i], ptrs, vendors);
    Accepts(u, ms[i]) && r == Apply(u, ms[i], ptrs(i), vendors(i)).1
  }

  lemma NoMessages(t: Tables, ms: seq<Message>, ptrs: nat -> Word, vendors: nat -> Vendor)
    ensures AfterAll(t, ms[..0], ptrs, vendors) == t
  {
  }

  lemma NextMessage(t: Tables, ms: seq<Message>, ptrs: nat -> Word, vendors: nat -> Vendor, n: nat)
    requires n < |ms| && Fits(t, ms, ptrs, vendors)
    ensures var u := AfterAll(t, ms[..n], ptrs, vendors);
      && |u.idMap| < RbHeight.FIRST_UNSAFE_SIZE && |u.allocations| < RbHeight.FIRST_UNSAFE_SIZE
      && (Accepts(u, ms[n]) ==>
            && AfterAll(t, ms[..n + 1], ptrs, vendors) == Apply(u, ms[n], ptrs(n), vendors(n)).0
            && Answered(t, ms, ptrs, vendors, n, Apply(u, ms[n], ptrs(n), vendors(n)).1))
  {
    hide Accepts, Apply;
    assert Small(AfterAll(t, ms[..n], ptrs, vendors));
    assert ms[..n + 1][..n] == ms[..n];
  }

  /** Handling a message, field by field. */
  lemma ApplyIs(t: Tables, m: Message, ptr: Word, vendor: Vendor)
    requires Accepts(t, m)
    ensures m.AllocateRequest? ==>
      Apply(t, m, ptr, vendor) ==
      (Tables(t.idMap[m.handle := ptr], t.allocations[m.handle := Allocation(m.handle, ptr, m.size)], t.cells),
       [AllocateResponse(m.handle)])
    ensures m.ExecuteRequest? ==>
      var r := vendor(Translated(t.idMap, m.mask, m.args), t.cells);
      Apply(t, m, ptr, vendor) == (t.(cells := r.1), [ExecuteResponse(r.0)])
    ensures m.Mapping? ==> Apply(t, m, ptr, vendor) == (t.(idMap := t.idMap[m.virt := m.actual]), [])
    ensures m.MapAtPtrRequest? ==>
      Apply(t, m, ptr, vendor) ==
      if m.ptr in t.idMap then
        var actual := Cell(t, t.idMap[m.ptr]);
        (Tables(t.idMap[m.virt := actual], t.allocations, t.cells[t.idMap[m.ptr] := m.virt]), [MapAtPtrResponse(actual)])
      else (t, [MapAtPtrResponse(0)])
    ensures m.FetchRequest? ==>
      Apply(t, m, ptr, vendor) ==
      (Tables(t.idMap - {m.handle}, t.allocations - {m.handle}, t.cells),
       if m.wantsData then [FetchResponse(t.allocations[m.handle].size)] else [])
  {
  }

  lemma AcceptsMapping(t: Tables, actual: Word, virt: Word)
    ensures Accepts(t, Mapping(actual, virt)) <==> virt !in t.idMap
  {
  }

  lemma ZeroIsWord()
    ensures 0 < RbNodes.KEY_MODULUS
  {
  }

  lemma AcceptsAllocate(t: Tables, handle: Word, size: nat)
    ensures Accepts(t, AllocateRequest(handle, size)) <==> handle !in t.allocations && handle !in t.idMap
  {
  }

  lemma AcceptsMapAtPtr(t: Tables, id: Word, virt: Word)
    ensures Accepts(t, MapAtPtrRequest(id, virt)) <==> (id in t.idMap ==> t.idMap[id] != 0 && virt !in t.idMap)
    ensures forall a: Word :: Cell(t, a) == if a in t.cells then t.cells[a] else 0
  {
  }

  lemma AcceptsFetch(t: Tables, handle: Word)
    ensures forall w :: Accepts(t, FetchRequest(handle, w)) <==> handle in t.allocations && handle in t.idMap
  {
  }

  lemma NothingYet(ids: map<Word, nat>, handles: map<Word, nat>)
    requires ids == map[] && handles == map[]
    ensures Filed(ids, map[]) && Kept(handles, map[]) && Actuals(ids, map[]) == map[] && Buffers(handles, map[]) == map[]
  {
  }

  /** Two empty sets. */
  method TwoSets(self: Lock.Tid) returns (a: Set.LockedSet, b: Set.LockedSet)
    ensures a.Enterable(self) && b.Enterable(self) && a.Repr() !! b.Repr() && fresh(a.Repr() + b.Repr())
    ensures a.Intact() && b.Intact() && a.Contents() == map[] && b.Contents() == map[]
  {
    hide *;
    a := new Set.LockedSet();
    a.ReprAllocated();
    a.MayEnter(self);
    b := new Set.LockedSet();
    b.MayEnter(self);
  }
}
