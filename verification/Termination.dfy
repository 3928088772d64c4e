// Flooding of texts terminates by ttl alone: even if caches forget, a weight that grows
// with the ttl bounds the number of deliveries.

module Termination {
  import opened Messages
  import opened Network
  import opened Weighing
  import Identity
  import R = Relays

  function CopyWeight(n: nat, p: Packet): nat {
    if p.msg.Classic? then Weight(n, p.msg.ttl) else 0
  }

  function TextWeight(n: nat): Packet -> nat {
    p => CopyWeight(n, p)
  }

  function Potential(n: nat, net: seq<Packet>): nat {
    Sum(TextWeight(n), net)
  }

  ghost predicate FanOut(s: System, n: nat) {
    forall a :: IsRelay(s, a) ==> |RelayAt(s, a).peers| <= n
  }

  ghost predicate RunFanOut(states: seq<System>, n: nat) {
    forall k :: 0 <= k < |states| ==> FanOut(states[k], n)
  }

  predicate DeliversClassic(s: System, a: Action) {
    a.Deliver? && a.i < |s.net| && s.net[a.i].msg.Classic?
  }

  // The copies of texts that users and duplication, not relays, add to the network.
  function Injected(s: System, a: Action): seq<Packet> {
    match a
    case ClientSay(who, m) => if IsClient(s, who) then From(who, SendAll(ClientAt(s, who).relays, m)) else []
    case RelaySay(who, m, order) => From(who, SendAll(R.Targets(order, NOWHERE), m))
    case Duplicate(i) => if i < |s.net| then [s.net[i]] else []
    case _ => []
  }

  // An iteration order is as long as the map is large.
  lemma {:induction false} OrderLength(order: seq<Addr>, keys: set<Addr>)
    requires R.IsOrder(order, keys)
    ensures |order| == |keys|
    decreases |order|
  {
    if order == [] {
      assert forall a :: a in keys ==> a in order;
      assert keys == {};
    } else {
      var rest := keys - {order[0]};
      forall i | 0 <= i < |order[1..]|
        ensures order[1..][i] in rest
      {
        assert order[1..][i] == order[i + 1];
      }
      forall a | a in rest
        ensures a in order[1..]
      {
        var k :| 0 <= k < |order| && order[k] == a;
        assert order[1..][k - 1] == a;
      }
      OrderLength(order[1..], rest);
    }
  }

  lemma NoClassicNoPotential(n: nat, packets: seq<Packet>)
    requires forall p :: p in packets ==> !p.msg.Classic?
    ensures Potential(n, packets) == 0
  {
    SumAtMost(TextWeight(n), packets, 0);
  }

  // What a relay forwards on handling a text weighs less than the text it received.
  lemma ForwardingLoses(scheme: Identity.Scheme, n: nat, r: R.Relay, order: seq<Addr>, a: Addr, p: Packet)
    requires R.IsOrder(order, r.peers.Keys) && |r.peers| <= n && p.msg.Classic?
    ensures Potential(n, From(a, R.Handle(scheme, r, order, p.src, p.msg).sends)) + 1 <= CopyWeight(n, p)
  {
    var sends := R.Handle(scheme, r, order, p.src, p.msg).sends;
    if sends == [] {
      assert From(a, sends) == [];
      WeightMonotone(n, 0, p.msg.ttl);
    } else {
      var targets := R.Targets(order, p.src);
      var fwd := p.msg.(ttl := p.msg.ttl - 1);
      OrderLength(order, r.peers.Keys);
      SumAtMost(TextWeight(n), From(a, SendAll(targets, fwd)), Weight(n, fwd.ttl));
      Scale(|targets|, n, Weight(n, fwd.ttl));
    }
  }

  lemma OtherSendsWeighNothing(scheme: Identity.Scheme, n: nat, r: R.Relay, order: seq<Addr>, a: Addr, p: Packet)
    requires R.IsOrder(order, r.peers.Keys) && !p.msg.Classic?
    ensures Potential(n, From(a, R.Handle(scheme, r, order, p.src, p.msg).sends)) == 0
  {
    NoClassicNoPotential(n, From(a, R.Handle(scheme, r, order, p.src, p.msg).sends));
  }

  // Every delivery of a text lowers the potential; nothing but an injection raises it.
  lemma StepLowersPotential(scheme: Identity.Scheme, n: nat, s: System, a: Action)
    requires Enabled(scheme, s, a) && FanOut(s, n)
    ensures Potential(n, Apply(scheme, s, a).net) + (if DeliversClassic(s, a) then 1 else 0)
         <= Potential(n, s.net) + Potential(n, Injected(s, a))
  {
    NetAfter(scheme, s, a);
    SumAppend(TextWeight(n), Remaining(s, a), Emitted(scheme, s, a));
    EmittedWeight(scheme, n, s, a);
    if a.Deliver? || a.Drop? {
      SumWithout(TextWeight(n), s.net, a.i);
    }
  }

  // What a step emits weighs less than the text it delivers, apart from injections.
  lemma EmittedWeight(scheme: Identity.Scheme, n: nat, s: System, a: Action)
    requires Enabled(scheme, s, a) && FanOut(s, n)
    ensures Potential(n, Emitted(scheme, s, a)) + (if DeliversClassic(s, a) then 1 else 0)
         <= (if a.Deliver? then CopyWeight(n, s.net[a.i]) else 0) + Potential(n, Injected(s, a))
  {
    if a.Deliver? && IsRelay(s, s.net[a.i].dst) {
      RelayEmitsLess(scheme, n, s, a.i, a.order);
    } else if a.ClientSay? || a.RelaySay? || a.Duplicate? {
      assert Emitted(scheme, s, a) == Injected(s, a);
    } else {
      NoClassicNoPotential(n, Emitted(scheme, s, a));
      if a.Deliver? && s.net[a.i].msg.Classic? {
        WeightMonotone(n, 0, s.net[a.i].msg.ttl);
      }
    }
  }

  lemma RelayEmitsLess(scheme: Identity.Scheme, n: nat, s: System, i: nat, order: seq<Addr>)
    requires Enabled(scheme, s, Deliver(i, order)) && FanOut(s, n) && IsRelay(s, s.net[i].dst)
    ensures Potential(n, Emitted(scheme, s, Deliver(i, order))) + (if s.net[i].msg.Classic? then 1 else 0)
         <= CopyWeight(n, s.net[i])
  {
    var p := s.net[i];
    if p.msg.Classic? {
      ForwardingLoses(scheme, n, RelayAt(s, p.dst), order, p.dst, p);
    } else {
      OtherSendsWeighNothing(scheme, n, RelayAt(s, p.dst), order, p.dst, p);
    }
  }

  ghost function DeliveriesUpTo(states: seq<System>, actions: seq<Action>, k: nat): nat
    requires k <= |actions| && |states| == |actions| + 1
  {
    if k == 0 then 0
    else DeliveriesUpTo(states, actions, k - 1) + if DeliversClassic(states[k - 1], actions[k - 1]) then 1 else 0
  }

  ghost function InjectedUpTo(states: seq<System>, actions: seq<Action>, k: nat): seq<Packet>
    requires k <= |actions| && |states| == |actions| + 1
  {
    if k == 0 then []
    else InjectedUpTo(states, actions, k - 1) + Injected(states[k - 1], actions[k - 1])
  }

  // What a run has spent so far: potential left, plus deliveries made, less what was injected.
  ghost function Balance(n: nat, states: seq<System>, actions: seq<Action>, k: nat): int
    requires k <= |actions| && |states| == |actions| + 1
  {
    Potential(n, states[k].net) + DeliveriesUpTo(states, actions, k) - Potential(n, InjectedUpTo(states, actions, k))
  }

  lemma BalanceFalls(scheme: Identity.Scheme, n: nat, states: seq<System>, actions: seq<Action>, k: nat)
    requires IsRun(scheme, states, actions) && k < |actions| && RunFanOut(states, n)
    ensures Balance(n, states, actions, k + 1) <= Balance(n, states, actions, k)
  {
    assert StepAt(scheme, states, actions, k);
    var injected := Injected(states[k], actions[k]);
    StepLowersPotential(scheme, n, states[k], actions[k]);
    SumAppend(TextWeight(n), InjectedUpTo(states, actions, k), injected);
  }

  lemma {:induction false} BalanceStaysBelow(scheme: Identity.Scheme, n: nat, states: seq<System>,
                                             actions: seq<Action>, k: nat)
    requires IsRun(scheme, states, actions) && k <= |actions| && RunFanOut(states, n)
    ensures Balance(n, states, actions, k) <= Balance(n, states, actions, 0)
  {
    if k > 0 {
      BalanceStaysBelow(scheme, n, states, actions, k - 1);
      BalanceFalls(scheme, n, states, actions, k - 1);
    }
  }

  // In any run - with evictions, sweeps, loss and reordering - deliveries of texts are
  // bounded by the weight of the copies that were in flight or injected.
  lemma DeliveriesBounded(scheme: Identity.Scheme, n: nat, states: seq<System>, actions: seq<Action>, k: nat)
    requires IsRun(scheme, states, actions) && k <= |actions| && RunFanOut(states, n)
    ensures DeliveriesUpTo(states, actions, k) + Potential(n, states[k].net)
         <= Potential(n, states[0].net) + Potential(n, InjectedUpTo(states, actions, k))
  {
    BalanceStaysBelow(scheme, n, states, actions, k);
  }

  // How many of these datagrams are texts.
  function Texts(packets: seq<Packet>): nat {
    if packets == [] then 0 else (if packets[0].msg.Classic? then 1 else 0) + Texts(packets[1..])
  }

  ghost predicate TtlBounded(packets: seq<Packet>) {
    forall p :: p in packets && p.msg.Classic? ==> p.msg.ttl <= INITIAL_TTL
  }

  // No datagram ever carries more than the initial ttl, if none does at first.
  lemma TtlStaysBounded(scheme: Identity.Scheme, s: System, a: Action)
    requires Enabled(scheme, s, a) && TtlBounded(s.net)
    ensures TtlBounded(Apply(scheme, s, a).net) && TtlBounded(Injected(s, a))
  {
    forall p | p in Apply(scheme, s, a).net && p.msg.Classic?
      ensures p.msg.ttl <= INITIAL_TTL
    {
      InNetAfter(scheme, s, a, p);
      if p in Emitted(scheme, s, a) {
        EmittedTtl(scheme, s, a, p);
      }
    }
  }

  lemma EmittedTtl(scheme: Identity.Scheme, s: System, a: Action, p: Packet)
    requires Enabled(scheme, s, a) && TtlBounded(s.net) && p in Emitted(scheme, s, a) && p.msg.Classic?
    ensures p.msg.ttl <= INITIAL_TTL
  {
    if a.Deliver? {
      assert s.net[a.i] in s.net;
    }
  }

  lemma {:induction false} InjectedBounded(scheme: Identity.Scheme, states: seq<System>, actions: seq<Action>, k: nat)
    requires IsRun(scheme, states, actions) && k <= |actions| && TtlBounded(states[0].net)
    ensures TtlBounded(states[k].net) && TtlBounded(InjectedUpTo(states, actions, k))
  {
    if k > 0 {
      InjectedBounded(scheme, states, actions, k - 1);
      assert StepAt(scheme, states, actions, k - 1);
      TtlStaysBounded(scheme, states[k - 1], actions[k - 1]);
    }
  }

  lemma OneMore(count: nat, w: nat)
    ensures (1 + count) * w == w + count * w
  {
  }

  lemma {:induction false} TextsWeigh(n: nat, packets: seq<Packet>)
    requires TtlBounded(packets)
    ensures Potential(n, packets) <= Texts(packets) * Weight(n, INITIAL_TTL)
    decreases |packets|
  {
    if packets != [] {
      var p, w := packets[0], Weight(n, INITIAL_TTL);
      assert p in packets && forall q :: q in packets[1..] ==> q in packets;
      TextsWeigh(n, packets[1..]);
      if p.msg.Classic? {
        WeightMonotone(n, p.msg.ttl, INITIAL_TTL);
        OneMore(Texts(packets[1..]), w);
      }
    }
  }

  // Starting with no text in flight, each copy of a text that is ever injected causes at most
  // Weight(n, 16) deliveries.
  lemma InjectionsBounded(scheme: Identity.Scheme, n: nat, states: seq<System>, actions: seq<Action>)
    requires IsRun(scheme, states, actions) && RunFanOut(states, n)
    requires forall p :: p in states[0].net ==> !p.msg.Classic?
    ensures DeliveriesUpTo(states, actions, |actions|)
         <= Texts(InjectedUpTo(states, actions, |actions|)) * Weight(n, INITIAL_TTL)
  {
    DeliveriesBounded(scheme, n, states, actions, |actions|);
    NoClassicNoPotential(n, states[0].net);
    InjectedBounded(scheme, states, actions, |actions|);
    TextsWeigh(n, InjectedUpTo(states, actions, |actions|));
  }
}
