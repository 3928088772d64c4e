// The tables of registered peers tell the truth about who is at an address.

module Registry {
  import opened Wrappers
  import opened Messages
  import opened Network
  import Identity
  import R = Relays

  // The names under which node n registers.
  predicate NamesOf(n: Node, peerId: string, btc: Option<string>) {
    match n
    case RelayNode(r) => peerId == R.RelayId(r) && btc == None
    case ClientNode(c) => peerId == c.peerId && btc == Some(c.btc)
  }

  ghost predicate TrueTables(s: System) {
    forall r, a :: IsRelay(s, r) && a in RelayAt(s, r).peers ==>
                     IsNode(s, a) && NamesOf(s.nodes[a], RelayAt(s, r).peers[a].peerId, RelayAt(s, r).peers[a].btc)
  }

  ghost predicate TrueRegistrations(s: System) {
    forall p :: p in s.net && p.msg.Register? ==>
                  IsNode(s, p.src) && NamesOf(s.nodes[p.src], p.msg.srcId, p.msg.btcAddress)
  }

  ghost predicate RegistryInv(s: System) {
    TrueTables(s) && TrueRegistrations(s)
  }

  lemma NamesStay(scheme: Identity.Scheme, s: System, act: Action, a: Addr, peerId: string, btc: Option<string>)
    requires Enabled(scheme, s, act) && IsNode(s, a) && NamesOf(s.nodes[a], peerId, btc)
    ensures IsNode(Apply(scheme, s, act), a) && NamesOf(Apply(scheme, s, act).nodes[a], peerId, btc)
  {
    IdentityFixed(scheme, s, act);
    assert SameIdentity(s.nodes[a], Apply(scheme, s, act).nodes[a]);
  }

  lemma EmittedRegistration(scheme: Identity.Scheme, s: System, act: Action, p: Packet)
    requires Enabled(scheme, s, act) && p in Emitted(scheme, s, act) && p.msg.Register? && p !in s.net
    ensures IsNode(s, p.src) && NamesOf(s.nodes[p.src], p.msg.srcId, p.msg.btcAddress)
  {
  }

  // An entry of a table after a step was there before, or just registered.
  lemma EntryOrigin(scheme: Identity.Scheme, s: System, act: Action, r: Addr, a: Addr)
    requires Enabled(scheme, s, act) && IsRelay(s, r) && IsRelay(Apply(scheme, s, act), r)
    requires a in RelayAt(Apply(scheme, s, act), r).peers
    ensures var e := RelayAt(Apply(scheme, s, act), r).peers[a];
            || (a in RelayAt(s, r).peers && RelayAt(s, r).peers[a] == e)
            || (exists p :: p in s.net && p.msg.Register? && p.src == a
                            && p.msg.srcId == e.peerId && p.msg.btcAddress == e.btc)
  {
    if act.Deliver? {
      assert s.net[act.i] in s.net;
    }
  }

  lemma RegistrationsStayTrue(scheme: Identity.Scheme, s: System, act: Action, p: Packet)
    requires Enabled(scheme, s, act) && RegistryInv(s) && p in Apply(scheme, s, act).net && p.msg.Register?
    ensures IsNode(Apply(scheme, s, act), p.src)
    ensures NamesOf(Apply(scheme, s, act).nodes[p.src], p.msg.srcId, p.msg.btcAddress)
  {
    InNetAfter(scheme, s, act, p);
    if p !in s.net {
      EmittedRegistration(scheme, s, act, p);
    }
    NamesStay(scheme, s, act, p.src, p.msg.srcId, p.msg.btcAddress);
  }

  lemma TablesStayTrue(scheme: Identity.Scheme, s: System, act: Action, r: Addr, a: Addr)
    requires Enabled(scheme, s, act) && RegistryInv(s) && IsRelay(s, r) && IsRelay(Apply(scheme, s, act), r)
    requires a in RelayAt(Apply(scheme, s, act), r).peers
    ensures var s' := Apply(scheme, s, act);
            IsNode(s', a) && NamesOf(s'.nodes[a], RelayAt(s', r).peers[a].peerId, RelayAt(s', r).peers[a].btc)
  {
    var e := RelayAt(Apply(scheme, s, act), r).peers[a];
    EntryNames(scheme, s, act, r, a);
    NamesStay(scheme, s, act, a, e.peerId, e.btc);
  }

  lemma EntryNames(scheme: Identity.Scheme, s: System, act: Action, r: Addr, a: Addr)
    requires Enabled(scheme, s, act) && RegistryInv(s) && IsRelay(s, r) && IsRelay(Apply(scheme, s, act), r)
    requires a in RelayAt(Apply(scheme, s, act), r).peers
    ensures var e := RelayAt(Apply(scheme, s, act), r).peers[a]; IsNode(s, a) && NamesOf(s.nodes[a], e.peerId, e.btc)
  {
    EntryOrigin(scheme, s, act, r, a);
  }

  lemma RegistryStep(scheme: Identity.Scheme, s: System, act: Action)
    requires Enabled(scheme, s, act) && RegistryInv(s)
    ensures RegistryInv(Apply(scheme, s, act))
  {
    var s' := Apply(scheme, s, act);
    WorldFixed(scheme, s, act);
    forall p | p in s'.net && p.msg.Register?
      ensures IsNode(s', p.src) && NamesOf(s'.nodes[p.src], p.msg.srcId, p.msg.btcAddress)
    {
      RegistrationsStayTrue(scheme, s, act, p);
    }
    forall r, a | IsRelay(s', r) && a in RelayAt(s', r).peers
      ensures IsNode(s', a) && NamesOf(s'.nodes[a], RelayAt(s', r).peers[a].peerId, RelayAt(s', r).peers[a].btc)
    {
      assert IsNode(s, r) && SameIdentity(s.nodes[r], s'.nodes[r]);
      TablesStayTrue(scheme, s, act, r, a);
    }
  }

  lemma {:induction false} RegistryHolds(scheme: Identity.Scheme, states: seq<System>, actions: seq<Action>, k: nat)
    requires IsRun(scheme, states, actions) && k <= |actions| && RegistryInv(states[0])
    ensures RegistryInv(states[k])
  {
    if k > 0 {
      RegistryHolds(scheme, states, actions, k - 1);
      assert StepAt(scheme, states, actions, k - 1);
      RegistryStep(scheme, states[k - 1], actions[k - 1]);
    }
  }
}
