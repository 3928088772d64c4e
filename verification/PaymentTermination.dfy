// Payments and acknowledgements carry no ttl and relays keep no record of them; on a federation
// without loops their flooding terminates all the same.

module PaymentTermination {
  import opened Messages
  import opened Network
  import opened Weighing
  import opened Ledger
  import opened Registry
  import opened Routing
  import opened Loops
  import Identity
  import T = Termination
  import R = Relays

  // What a federation looks like over a whole run: its relays, all links there ever are between
  // them, and how many addresses a node may send to.
  datatype Topology = Topology(relays: set<Addr>, links: set<Link>, fan: nat)

  ghost predicate Within(s: System, t: Topology) {
    && (forall a :: IsRelay(s, a) <==> a in t.relays)
    && (forall v :: IsRelay(s, v) ==> |RelayAt(s, v).peers| <= t.fan)
    && (forall c :: IsClient(s, c) ==> |ClientAt(s, c).relays| <= t.fan)
    && (forall v, w :: RelayLink(s, v, w) ==> (v, w) in t.links)
  }

  predicate Linked(s: System, v: Addr, w: Addr) {
    IsRelay(s, v) && w in RelayAt(s, v).peers
  }

  predicate RelayLink(s: System, v: Addr, w: Addr) {
    Linked(s, v, w) && IsRelay(s, w)
  }

  // How many more hops a copy on the way from u to v can make: less, the longer the walk that
  // brought it there may have been.
  ghost function Rank(t: Topology, u: Addr, v: Addr): nat {
    if v in t.relays then MaxRank(t) - Longest(t.links, (u, v), |t.links|) else 0
  }

  function MaxRank(t: Topology): nat {
    |t.links| + 1
  }

  ghost function RoutedWeight(t: Topology): Packet -> nat {
    (p: Packet) => if Routed(p.msg) then Weight(t.fan, Rank(t, p.src, p.dst)) else 0
  }

  // What sending one message to all relays of a client can cost.
  ghost function Burst(t: Topology): nat {
    t.fan * Weight(t.fan, MaxRank(t))
  }

  function Unsettled(ledger: seq<Entry>): nat {
    if ledger == [] then 0 else (if ledger[0].settled then 0 else 1) + Unsettled(ledger[1..])
  }

  ghost function Measure(t: Topology, s: System): nat {
    Sum(RoutedWeight(t), s.net) + Burst(t) * Unsettled(s.ledger)
  }

  // No relay bears the name a message is addressed to, nor the name a payment's acknowledgement
  // will be addressed to.
  ghost predicate Addressed(s: System, m: Message)
    requires Routed(m)
  {
    NamesNoRelay(s, Name(m)) && (m.Payment? ==> NamesNoRelay(s, m.srcId))
  }

  ghost predicate RoutedInv(s: System) {
    forall p :: p in s.net && Routed(p.msg) ==> Addressed(s, p.msg)
  }

  // No relay has the name of a client.
  ghost predicate ClientNamesNoRelay(s: System) {
    forall c :: IsClient(s, c) ==> NamesNoRelay(s, ClientAt(s, c).peerId)
  }

  // ---------- one delivery at a relay ----------

  lemma RankBounded(t: Topology, u: Addr, v: Addr)
    ensures Rank(t, u, v) <= MaxRank(t)
    ensures v in t.relays ==> Rank(t, u, v) > 0
  {
  }

  // Every onward hop has a lower rank.
  lemma RankFalls(s: System, t: Topology, u: Addr, v: Addr, w: Addr)
    requires Within(s, t) && LoopFree(t.links) && Linked(s, v, w) && w != u
    ensures Rank(t, v, w) < Rank(t, u, v)
  {
    RankBounded(t, u, v);
    if IsRelay(s, w) {
      assert RelayLink(s, v, w);
      LongerOnwards(t.links, (u, v), (v, w));
    }
  }

  // Whoever a relay finds under this name is no relay.
  ghost predicate FindsNoRelay(s: System, v: Addr, name: string)
    requires IsRelay(s, v)
  {
    forall a :: a in RelayAt(s, v).peers && R.Matches(RelayAt(s, v).peers[a], name) ==> !IsRelay(s, a)
  }

  // The copies a relay makes of a routed message weigh less than the one it received.
  lemma RelayLightens(s: System, t: Topology, order: seq<Addr>, p: Packet)
    requires Within(s, t) && LoopFree(t.links) && Routed(p.msg) && IsRelay(s, p.dst)
    requires FindsNoRelay(s, p.dst, Name(p.msg)) && R.IsOrder(order, RelayAt(s, p.dst).peers.Keys)
    ensures Sum(RoutedWeight(t), From(p.dst, R.Route(RelayAt(s, p.dst), order, p.src, Name(p.msg), p.msg))) + 1
         <= Weight(t.fan, Rank(t, p.src, p.dst))
  {
    var r, v, rank := RelayAt(s, p.dst), p.dst, Rank(t, p.src, p.dst);
    var out := From(v, R.Route(r, order, p.src, Name(p.msg), p.msg));
    T.OrderLength(order, r.peers.Keys);
    RankBounded(t, p.src, v);
    if R.FindPeer(r.peers, order, Name(p.msg)).Some? {
      var a := R.FindPeer(r.peers, order, Name(p.msg)).value;
      assert out == [Packet(v, a, p.msg)];
      SumAtMost(RoutedWeight(t), out, 1);
      WeightMonotone(t.fan, 0, rank - 1);
      Scale(1, t.fan, Weight(t.fan, rank - 1));
    } else {
      var targets := R.Targets(order, p.src);
      forall i | 0 <= i < |targets|
        ensures Linked(s, v, targets[i]) && targets[i] != p.src
      {
        assert targets[i] in targets && targets[i] in order;
      }
      BroadcastLightens(s, t, p, targets);
    }
  }

  lemma BroadcastLightens(s: System, t: Topology, p: Packet, targets: seq<Addr>)
    requires Within(s, t) && LoopFree(t.links) && IsRelay(s, p.dst) && Routed(p.msg) && Rank(t, p.src, p.dst) > 0
    requires |targets| <= t.fan
    requires forall i :: 0 <= i < |targets| ==> Linked(s, p.dst, targets[i]) && targets[i] != p.src
    ensures Sum(RoutedWeight(t), From(p.dst, SendAll(targets, p.msg))) + 1 <= Weight(t.fan, Rank(t, p.src, p.dst))
  {
    var out, w := From(p.dst, SendAll(targets, p.msg)), Weight(t.fan, Rank(t, p.src, p.dst) - 1);
    forall i | 0 <= i < |out|
      ensures RoutedWeight(t)(out[i]) <= w
    {
      RankFalls(s, t, p.src, p.dst, targets[i]);
      WeightMonotone(t.fan, Rank(t, p.dst, targets[i]), Rank(t, p.src, p.dst) - 1);
    }
    SumAtMost(RoutedWeight(t), out, w);
    Scale(|out|, t.fan, w);
  }

  lemma NamedFindsNoRelay(s: System, v: Addr, name: string)
    requires TrueTables(s) && NamesNoRelay(s, name) && IsRelay(s, v)
    ensures FindsNoRelay(s, v, name)
  {
    forall a | a in RelayAt(s, v).peers && R.Matches(RelayAt(s, v).peers[a], name)
      ensures !IsRelay(s, a)
    {
      assert IsNode(s, a) && NamesOf(s.nodes[a], RelayAt(s, v).peers[a].peerId, RelayAt(s, v).peers[a].btc);
    }
  }

  // ---------- what a step adds ----------

  predicate DeliversRouted(s: System, act: Action) {
    act.Deliver? && act.i < |s.net| && Routed(s.net[act.i].msg)
  }

  predicate DuplicatesRouted(s: System, act: Action) {
    act.Duplicate? && act.i < |s.net| && Routed(s.net[act.i].msg)
  }

  lemma NothingRouted(t: Topology, packets: seq<Packet>)
    requires forall p :: p in packets ==> !Routed(p.msg)
    ensures Sum(RoutedWeight(t), packets) == 0
  {
    SumAtMost(RoutedWeight(t), packets, 0);
  }

  lemma BurstBounds(s: System, t: Topology, a: Addr, m: Message)
    requires Within(s, t) && IsClient(s, a)
    ensures Sum(RoutedWeight(t), From(a, SendAll(ClientAt(s, a).relays, m))) <= Burst(t)
  {
    var out := From(a, SendAll(ClientAt(s, a).relays, m));
    forall i | 0 <= i < |out|
      ensures RoutedWeight(t)(out[i]) <= Weight(t.fan, MaxRank(t))
    {
      RankBounded(t, a, out[i].dst);
      WeightMonotone(t.fan, Rank(t, a, out[i].dst), MaxRank(t));
    }
    SumAtMost(RoutedWeight(t), out, Weight(t.fan, MaxRank(t)));
    Scale(|out|, t.fan, Weight(t.fan, MaxRank(t)));
  }

  // What a step emits, at most.
  ghost function Allowance(t: Topology, s: System, act: Action): nat {
    if CreditStep(s, act) || DebitStep(s, act) then Burst(t)
    else if DuplicatesRouted(s, act) then Weight(t.fan, MaxRank(t))
    else if DeliversRouted(s, act) && IsRelay(s, s.net[act.i].dst)
    then RoutedWeight(t)(s.net[act.i])
    else 0
  }

  lemma EmitsWithinAllowance(scheme: Identity.Scheme, s: System, t: Topology, act: Action)
    requires Enabled(scheme, s, act) && Within(s, t) && LoopFree(t.links) && TrueTables(s) && RoutedInv(s)
    ensures Sum(RoutedWeight(t), Emitted(scheme, s, act))
            + (if DeliversRouted(s, act) && IsRelay(s, s.net[act.i].dst) then 1 else 0)
         <= Allowance(t, s, act)
  {
    if DebitStep(s, act) {
      BurstBounds(s, t, act.who, Payment(ClientAt(s, act.who).peerId, act.dstId, act.amount, act.paymentId));
    } else if CreditStep(s, act) {
      var a, m := s.net[act.i].dst, s.net[act.i].msg;
      BurstBounds(s, t, a, PaymentAck(m.paymentId, ClientAt(s, a).peerId, m.srcId));
    } else if DeliversRouted(s, act) && IsRelay(s, s.net[act.i].dst) {
      assert s.net[act.i] in s.net;
      NamedFindsNoRelay(s, s.net[act.i].dst, Name(s.net[act.i].msg));
      RelayLightens(s, t, act.order, s.net[act.i]);
    } else if DuplicatesRouted(s, act) {
      CopyWeighs(t, s.net[act.i]);
    } else {
      NoneEmitted(scheme, s, act);
      NothingRouted(t, Emitted(scheme, s, act));
    }
  }

  lemma CopyWeighs(t: Topology, p: Packet)
    ensures Sum(RoutedWeight(t), [p]) <= Weight(t.fan, MaxRank(t))
  {
    RankBounded(t, p.src, p.dst);
    WeightMonotone(t.fan, Rank(t, p.src, p.dst), MaxRank(t));
    SumFirst(RoutedWeight(t), [p]);
  }

  // Other steps emit no routed message.
  lemma NoneEmitted(scheme: Identity.Scheme, s: System, act: Action)
    requires Enabled(scheme, s, act) && !DebitStep(s, act) && !CreditStep(s, act) && !DuplicatesRouted(s, act)
    requires DeliversRouted(s, act) ==> !IsRelay(s, s.net[act.i].dst)
    ensures forall p :: p in Emitted(scheme, s, act) ==> !Routed(p.msg)
  {
  }

  lemma {:induction false} UnsettledAfterSettle(ledger: seq<Entry>, i: nat)
    requires i < |ledger| && DistinctIds(ledger)
    ensures Unsettled(Settle(ledger, ledger[i].id)) == Unsettled(ledger) - if ledger[i].settled then 0 else 1
  {
    var id := ledger[i].id;
    assert Settle(ledger, id)[1..] == Settle(ledger[1..], id);
    if i > 0 {
      UnsettledAfterSettle(ledger[1..], i - 1);
    } else {
      SettleOther(ledger[1..], id);
    }
  }

  lemma {:induction false} UnsettledPush(ledger: seq<Entry>, e: Entry)
    ensures Unsettled(ledger + [e]) == Unsettled(ledger) + if e.settled then 0 else 1
  {
    if ledger == [] {
      assert ledger + [e] == [e];
    } else {
      assert (ledger + [e])[1..] == ledger[1..] + [e];
      UnsettledPush(ledger[1..], e);
    }
  }

  lemma UnsettledAfter(scheme: Identity.Scheme, s: System, act: Action)
    requires Enabled(scheme, s, act) && LedgerInv(s) && !StaleRedelivery(s, act)
    ensures Unsettled(Apply(scheme, s, act).ledger)
         == Unsettled(s.ledger) + (if DebitStep(s, act) then 1 else 0) - if CreditStep(s, act) then 1 else 0
  {
    if CreditStep(s, act) {
      CreditMoves(scheme, s, act);
      var i := EntryOf(s, act);
      UnsettledAfterSettle(s.ledger, i);
    } else if DebitStep(s, act) {
      DebitMoves(scheme, s, act);
      UnsettledPush(s.ledger, Apply(scheme, s, act).ledger[|s.ledger|]);
    } else {
      NothingMoves(scheme, s, act);
    }
  }

  // What a step may add to the measure.
  ghost function Charge(t: Topology, s: System, act: Action): nat {
    (if DebitStep(s, act) then 2 * Burst(t) else 0)
    + if DuplicatesRouted(s, act) then Weight(t.fan, MaxRank(t)) else 0
  }

  // Each delivery of a payment or acknowledgement lowers the measure; issuing a payment raises
  // it by at most two bursts, duplicating a copy by the weight of one; nothing else raises it.
  lemma StepLowersMeasure(scheme: Identity.Scheme, s: System, t: Topology, act: Action)
    requires Enabled(scheme, s, act) && Within(s, t) && LoopFree(t.links) && TrueTables(s) && RoutedInv(s)
    requires LedgerInv(s) && !StaleRedelivery(s, act)
    ensures Measure(t, Apply(scheme, s, act)) + (if DeliversRouted(s, act) then 1 else 0)
         <= Measure(t, s) + Charge(t, s, act)
  {
    var w := RoutedWeight(t);
    NetAfter(scheme, s, act);
    SumAppend(w, Remaining(s, act), Emitted(scheme, s, act));
    EmitsWithinAllowance(scheme, s, t, act);
    UnsettledAfter(scheme, s, act);
    if act.Deliver? || act.Drop? {
      SumWithout(w, s.net, act.i);
    }
    if DeliversRouted(s, act) {
      WeightMonotone(t.fan, 0, Rank(t, s.net[act.i].src, s.net[act.i].dst));
    }
    BurstTimes(Burst(t), Unsettled(s.ledger), Unsettled(Apply(scheme, s, act).ledger));
  }

  lemma BurstTimes(b: nat, before: nat, after: nat)
    ensures after == before + 1 ==> b * after == b * before + b
    ensures after + 1 == before ==> b * after + b == b * before
  {
  }

  // ---------- the invariants are kept ----------

  ghost predicate Decent(s: System, act: Action) {
    act.ClientPay? ==> NamesNoRelay(s, act.dstId)
  }

  lemma RelayRoutes(scheme: Identity.Scheme, r: R.Relay, order: seq<Addr>, a: Addr, p: Packet, q: Packet)
    requires R.IsOrder(order, r.peers.Keys) && Routed(q.msg)
    requires q in From(a, R.Handle(scheme, r, order, p.src, p.msg).sends)
    ensures q.msg == p.msg && q.src == a && q.dst in r.peers
  {
    if R.FindPeer(r.peers, order, Name(p.msg)).None? {
      OnTheWire(a, R.Targets(order, p.src), p.msg, q);
      var i :| 0 <= i < |order| && order[i] == q.dst;
    }
  }

  // What is emitted is addressed to a name already in use.
  lemma EmittedAddressed(scheme: Identity.Scheme, s: System, act: Action, p: Packet)
    requires Enabled(scheme, s, act) && RoutedInv(s) && ClientNamesNoRelay(s) && Decent(s, act)
    requires p in Emitted(scheme, s, act) && Routed(p.msg) && p !in s.net
    ensures Addressed(s, p.msg)
  {
    if act.Deliver? {
      assert s.net[act.i] in s.net;
      if IsRelay(s, s.net[act.i].dst) {
        RelayRoutes(scheme, RelayAt(s, s.net[act.i].dst), act.order, s.net[act.i].dst, s.net[act.i], p);
      }
      assert Routed(s.net[act.i].msg) && Addressed(s, s.net[act.i].msg);
    }
  }

  lemma RoutedStep(scheme: Identity.Scheme, s: System, act: Action)
    requires Enabled(scheme, s, act) && RoutedInv(s) && ClientNamesNoRelay(s) && Decent(s, act)
    ensures RoutedInv(Apply(scheme, s, act)) && ClientNamesNoRelay(Apply(scheme, s, act))
  {
    var s' := Apply(scheme, s, act);
    WorldFixed(scheme, s, act);
    forall p | p in s'.net && Routed(p.msg)
      ensures Addressed(s', p.msg)
    {
      InNetAfter(scheme, s, act, p);
      if p !in s.net {
        EmittedAddressed(scheme, s, act, p);
      }
      AddressStays(s, s', p.msg);
    }
    forall c | IsClient(s', c)
      ensures NamesNoRelay(s', ClientAt(s', c).peerId)
    {
      assert IsNode(s, c) && SameIdentity(s.nodes[c], s'.nodes[c]);
      RelayNamesStay(s, s', ClientAt(s, c).peerId);
    }
  }

  lemma AddressStays(s: System, s': System, m: Message)
    requires SameWorld(s, s') && Routed(m) && Addressed(s, m)
    ensures Addressed(s', m)
  {
    RelayNamesStay(s, s', Name(m));
    if m.Payment? {
      RelayNamesStay(s, s', m.srcId);
    }
  }

  // ---------- the theorem ----------

  ghost predicate DecentAt(states: seq<System>, actions: seq<Action>, k: nat)
    requires k < |actions| && |states| == |actions| + 1
  {
    Decent(states[k], actions[k])
  }

  // A payment run in which tables tell the truth at first, and nobody pays a relay or is named
  // like one.
  ghost predicate DecentRun(scheme: Identity.Scheme, states: seq<System>, actions: seq<Action>) {
    && PaymentRun(scheme, states, actions)
    && RegistryInv(states[0])
    && ClientNamesNoRelay(states[0])
    && forall k :: 0 <= k < |actions| ==> DecentAt(states, actions, k)
  }

  // Every link between relays that there is at any time belongs to the topology.
  ghost predicate RunWithin(states: seq<System>, t: Topology) {
    forall k :: 0 <= k < |states| ==> Within(states[k], t)
  }

  ghost function Deliveries(states: seq<System>, actions: seq<Action>, k: nat): nat
    requires k <= |actions| && |states| == |actions| + 1
  {
    if k == 0 then 0
    else Deliveries(states, actions, k - 1) + if DeliversRouted(states[k - 1], actions[k - 1]) then 1 else 0
  }

  ghost function Payments(states: seq<System>, actions: seq<Action>, k: nat): nat
    requires k <= |actions| && |states| == |actions| + 1
  {
    if k == 0 then 0 else Payments(states, actions, k - 1) + if DebitStep(states[k - 1], actions[k - 1]) then 1 else 0
  }

  ghost function Duplicates(states: seq<System>, actions: seq<Action>, k: nat): nat
    requires k <= |actions| && |states| == |actions| + 1
  {
    if k == 0 then 0
    else Duplicates(states, actions, k - 1) + if DuplicatesRouted(states[k - 1], actions[k - 1]) then 1 else 0
  }

  lemma {:induction false} RoutedInvHolds(scheme: Identity.Scheme, states: seq<System>, actions: seq<Action>, k: nat)
    requires DecentRun(scheme, states, actions) && k <= |actions|
    ensures RoutedInv(states[k]) && ClientNamesNoRelay(states[k])
  {
    if k > 0 {
      RoutedInvHolds(scheme, states, actions, k - 1);
      assert StepAt(scheme, states, actions, k - 1) && DecentAt(states, actions, k - 1);
      RoutedStep(scheme, states[k - 1], actions[k - 1]);
    }
  }

  lemma RunLowersMeasure(scheme: Identity.Scheme, states: seq<System>, actions: seq<Action>, t: Topology, k: nat)
    requires DecentRun(scheme, states, actions) && RunWithin(states, t) && LoopFree(t.links) && k < |actions|
    ensures Measure(t, states[k + 1]) + (if DeliversRouted(states[k], actions[k]) then 1 else 0)
         <= Measure(t, states[k]) + Charge(t, states[k], actions[k])
  {
    RoutedInvHolds(scheme, states, actions, k);
    SoundAt(scheme, states, actions, k);
    assert StepAt(scheme, states, actions, k) && PaymentStepAt(states, actions, k);
    SecondCreditIff(scheme, states, actions, k, actions[k]);
    StepLowersMeasure(scheme, states[k], t, actions[k]);
  }

  // What the payments issued and the copies duplicated so far allow for.
  ghost function Budget(t: Topology, states: seq<System>, actions: seq<Action>, k: nat): nat
    requires k <= |actions| && |states| == |actions| + 1
  {
    2 * Burst(t) * Payments(states, actions, k) + Weight(t.fan, MaxRank(t)) * Duplicates(states, actions, k)
  }

  lemma BudgetGrows(t: Topology, states: seq<System>, actions: seq<Action>, k: nat)
    requires k < |actions| && |states| == |actions| + 1
    ensures Budget(t, states, actions, k + 1) == Budget(t, states, actions, k) + Charge(t, states[k], actions[k])
  {
    BurstTimes(2 * Burst(t), Payments(states, actions, k), Payments(states, actions, k + 1));
    BurstTimes(Weight(t.fan, MaxRank(t)), Duplicates(states, actions, k), Duplicates(states, actions, k + 1));
  }

  ghost predicate InBudget(states: seq<System>, actions: seq<Action>, t: Topology, k: nat)
    requires k <= |actions| && |states| == |actions| + 1
  {
    Deliveries(states, actions, k) + Measure(t, states[k]) <= Measure(t, states[0]) + Budget(t, states, actions, k)
  }

  lemma {:induction false} MeasureBudget(scheme: Identity.Scheme, states: seq<System>, actions: seq<Action>,
                                         t: Topology, k: nat)
    requires DecentRun(scheme, states, actions) && RunWithin(states, t) && LoopFree(t.links) && k <= |actions|
    ensures InBudget(states, actions, t, k)
  {
    if k > 0 {
      MeasureBudget(scheme, states, actions, t, k - 1);
      StaysInBudget(scheme, states, actions, t, k);
    }
  }

  lemma StaysInBudget(scheme: Identity.Scheme, states: seq<System>, actions: seq<Action>, t: Topology, k: nat)
    requires DecentRun(scheme, states, actions) && RunWithin(states, t) && LoopFree(t.links) && 0 < k <= |actions|
    requires InBudget(states, actions, t, k - 1)
    ensures InBudget(states, actions, t, k)
  {
    RunLowersMeasure(scheme, states, actions, t, k - 1);
    BudgetGrows(t, states, actions, k - 1);
    var delivered := if DeliversRouted(states[k - 1], actions[k - 1]) then 1 else 0;
    assert Deliveries(states, actions, k) == Deliveries(states, actions, k - 1) + delivered;
  }

  // Flooding of payments and acknowledgements terminates on a federation without loops: every
  // payment issued accounts for at most 2 * Burst deliveries, and every copy that the network
  // makes for the weight of one, whatever the order in which datagrams arrive.
  lemma PaymentFloodingTerminates(scheme: Identity.Scheme, states: seq<System>, actions: seq<Action>, t: Topology)
    requires DecentRun(scheme, states, actions) && RunWithin(states, t) && LoopFree(t.links)
    ensures Deliveries(states, actions, |actions|) <= Budget(t, states, actions, |actions|)
  {
    MeasureBudget(scheme, states, actions, t, |actions|);
    NothingRouted(t, states[0].net);
  }
}
