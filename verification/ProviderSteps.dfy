/** The provider's steps in the protocol of IdProtocol are those of the program on its
    locked sets (provider/src/provider.c:640-860). */
module ProviderSteps {
  import opened IdProtocol
  import opened Provider
  import ProviderMain

  lemma Turns(r: seq<State>, i: nat, ptr: Word, vendor: Vendor) returns (s': State)
    requires Run(r) && i < |r| && r[i].queue != [] && Vacant(r[i].tables, ptr)
    ensures Accepts(r[i].tables, r[i].queue[0])
    ensures var a := Apply(r[i].tables, r[i].queue[0], ptr, vendor);
      s' == r[i].(queue := r[i].queue[1..], replies := r[i].replies + a.1, tables := a.0)
    ensures Step(r[i], ProviderTurn, s') && Inv(s')
  {
    ProviderNeverFails(r, i);
    RunInv(r, i);
    var a := Apply(r[i].tables, r[i].queue[0], ptr, vendor);
    ApplyHandles(r[i].tables, r[i].queue[0], ptr, vendor);
    s' := r[i].(queue := r[i].queue[1..], replies := r[i].replies + a.1, tables := a.0);
    StepKeeps(r[i], ProviderTurn, s');
  }

  /** In whatever state of a run the program takes the next message, no assert fails, and
      what it does to its sets and answers is a step of the protocol. */
  method TakeTurn(p: ProviderMain.Program, m: Message, ptr: Word, vendor: Vendor, ghost r: seq<State>, ghost i: nat)
    returns (ok: bool, replies: seq<Reply>, ghost s': State)
    requires Run(r) && i < |r| && r[i].queue != [] && m == r[i].queue[0] && Vacant(r[i].tables, ptr)
    requires p.Valid() && p.idMap.Roomy() && p.allocations.Roomy() && p.Now() == r[i].tables
    modifies p.Repr()
    ensures ok && p.Valid()
    ensures Step(r[i], ProviderTurn, s') && Inv(s')
    ensures s'.tables == p.Now() && s'.queue == r[i].queue[1..] && s'.replies == r[i].replies + replies
  {
    hide *;
    s' := Turns(r, i, ptr, vendor);
    ok, replies := p.Handle(m, ptr, vendor);
  }
}
