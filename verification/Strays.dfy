// Exactly which federations payments die out on: a payment or acknowledgement that no one is
// registered to receive is delivered only so often, whatever happens to its copies, if and only
// if the links between relays are free of loops.

module Strays {
  import opened Messages
  import opened Network
  import opened Routing
  import opened Weighing
  import opened Loops
  import opened PaymentTermination
  import opened PaymentCycle
  import Identity
  import R = Relays
  import C = Clients

  // No one is registered or known under this name.
  ghost predicate Nameless(s: System, name: string) {
    && (forall v :: UnknownAt(s, v, name))
    && forall c :: IsClient(s, c) ==> !C.Owns(ClientAt(s, c), name)
  }

  // A copy on a link between relays, under a name of no one.
  ghost predicate IsStray(s: System, p: Packet) {
    Routed(p.msg) && RelayLink(s, p.src, p.dst) && Nameless(s, Name(p.msg))
  }

  // A run of nothing but deliveries, from the moment this copy is the only datagram in flight.
  ghost predicate StrayRun(scheme: Identity.Scheme, s: System, p: Packet, states: seq<System>, actions: seq<Action>) {
    && IsRun(scheme, states, actions)
    && states[0] == s.(net := [p])
    && forall k :: 0 <= k < |actions| ==> actions[k].Deliver?
  }

  ghost predicate StraysDieOut(scheme: Identity.Scheme, s: System, bound: nat) {
    forall p, states, actions :: IsStray(s, p) && StrayRun(scheme, s, p, states, actions) ==> |actions| <= bound
  }

  // ---------- without loops they die out ----------

  ghost function TopologyOf(s: System): Topology {
    Topology((set a | 0 <= a < |s.nodes| && IsRelay(s, a)), LinksOf(s), Fan(s.nodes))
  }

  lemma WithinOwn(s: System)
    ensures Within(s, TopologyOf(s))
  {
    forall a | IsNode(s, a)
      ensures IsRelay(s, a) ==> |RelayAt(s, a).peers| <= Fan(s.nodes)
      ensures IsClient(s, a) ==> |ClientAt(s, a).relays| <= Fan(s.nodes)
    {
      FanBounds(s.nodes, a);
    }
  }

  // Only copies of this message are in flight, and the nodes are as at first.
  ghost predicate OnlyCopies(s: System, first: System, m: Message) {
    s.nodes == first.nodes && forall p :: p in s.net ==> p.msg == m
  }

  // A message for no one leaves every node as it is; only relays send anything on.
  lemma DeliveredStray(scheme: Identity.Scheme, s: System, act: Action, m: Message)
    requires Enabled(scheme, s, act) && act.Deliver? && s.net[act.i].msg == m && Routed(m) && Nameless(s, Name(m))
    ensures Apply(scheme, s, act).nodes == s.nodes
    ensures forall p :: p in Emitted(scheme, s, act) ==> p.msg == m
    ensures !IsRelay(s, s.net[act.i].dst) ==> Emitted(scheme, s, act) == []
  {
    if IsRelay(s, s.net[act.i].dst) {
      RoutedLeavesRelays(scheme, s, act);
    } else if IsClient(s, s.net[act.i].dst) {
      assert !C.Owns(ClientAt(s, s.net[act.i].dst), Name(m));
      assert s.nodes[s.net[act.i].dst := s.nodes[s.net[act.i].dst]] == s.nodes;
    }
  }

  lemma StrayLightens(scheme: Identity.Scheme, s: System, act: Action, t: Topology, m: Message)
    requires Enabled(scheme, s, act) && act.Deliver? && s.net[act.i].msg == m && Routed(m) && Nameless(s, Name(m))
    requires Within(s, t) && LoopFree(t.links)
    ensures Sum(RoutedWeight(t), Apply(scheme, s, act).net) + 1 <= Sum(RoutedWeight(t), s.net)
  {
    var w, p := RoutedWeight(t), s.net[act.i];
    NetAfter(scheme, s, act);
    SumAppend(w, Remaining(s, act), Emitted(scheme, s, act));
    SumWithout(w, s.net, act.i);
    DeliveredStray(scheme, s, act, m);
    if IsRelay(s, p.dst) {
      assert UnknownAt(s, p.dst, Name(m));
      RoutedLeavesRelays(scheme, s, act);
      RelayLightens(s, t, act.order, p);
    } else {
      WeightMonotone(t.fan, 0, Rank(t, p.src, p.dst));
    }
  }

  lemma {:induction false} StraysSpend(scheme: Identity.Scheme, s: System, p: Packet, states: seq<System>,
                                       actions: seq<Action>, k: nat)
    requires IsStray(s, p) && StrayRun(scheme, s, p, states, actions) && LoopFree(LinksOf(s)) && k <= |actions|
    ensures OnlyCopies(states[k], s, p.msg)
    ensures k + Sum(RoutedWeight(TopologyOf(s)), states[k].net) <= Sum(RoutedWeight(TopologyOf(s)), [p])
  {
    if k > 0 {
      StraysSpend(scheme, s, p, states, actions, k - 1);
      StrayStep(scheme, s, p, states, actions, k - 1);
    }
  }

  lemma StrayStep(scheme: Identity.Scheme, s: System, p: Packet, states: seq<System>, actions: seq<Action>, k: nat)
    requires IsStray(s, p) && StrayRun(scheme, s, p, states, actions) && LoopFree(LinksOf(s)) && k < |actions|
    requires OnlyCopies(states[k], s, p.msg)
    ensures OnlyCopies(states[k + 1], s, p.msg)
    ensures Sum(RoutedWeight(TopologyOf(s)), states[k + 1].net) + 1 <= Sum(RoutedWeight(TopologyOf(s)), states[k].net)
  {
    var here, act := states[k], actions[k];
    assert StepAt(scheme, states, actions, k);
    SameNodes(s, here, Name(p.msg));
    WithinOwn(here);
    assert here.net[act.i] in here.net;
    DeliveredStray(scheme, here, act, p.msg);
    StrayLightens(scheme, here, act, TopologyOf(here), p.msg);
    forall q | q in states[k + 1].net
      ensures q.msg == p.msg
    {
      InNetAfter(scheme, here, act, q);
    }
  }

  lemma SameNodes(s: System, s': System, name: string)
    requires s'.nodes == s.nodes
    ensures Nameless(s, name) ==> Nameless(s', name)
    ensures LinksOf(s') == LinksOf(s) && TopologyOf(s') == TopologyOf(s)
  {
    assert forall v :: IsRelay(s, v) <==> IsRelay(s', v);
    assert forall c :: IsClient(s, c) <==> IsClient(s', c);
    if Nameless(s, name) {
      forall v
        ensures UnknownAt(s', v, name)
      {
        assert UnknownAt(s, v, name);
        assert IsRelay(s, v) ==> RelayAt(s', v) == RelayAt(s, v);
      }
    }
  }

  lemma LoopFreeKills(scheme: Identity.Scheme, s: System)
    requires LoopFree(LinksOf(s))
    ensures StraysDieOut(scheme, s, Weight(Fan(s.nodes), |LinksOf(s)| + 1))
  {
    var t := TopologyOf(s);
    forall p, states, actions | IsStray(s, p) && StrayRun(scheme, s, p, states, actions)
      ensures |actions| <= Weight(t.fan, MaxRank(t))
    {
      StraysSpend(scheme, s, p, states, actions, |actions|);
      CopyWeighs(t, p);
    }
  }

  // ---------- on a loop they need not ----------

  lemma {:induction false} FreshName(names: set<string>) returns (name: string)
    ensures forall x :: x in names ==> |x| < |name|
  {
    if x :| x in names {
      var rest := FreshName(names - {x});
      name := rest + x + "a";
    } else {
      name := "";
    }
  }

  // All names in the tables and of the clients.
  ghost function Names(s: System): set<string> {
    (set v, a | 0 <= v < |s.nodes| && IsRelay(s, v) && a in RelayAt(s, v).peers :: RelayAt(s, v).peers[a].peerId)
    + (set v, a | 0 <= v < |s.nodes| && IsRelay(s, v) && a in RelayAt(s, v).peers && RelayAt(s, v).peers[a].btc.Some?
       :: RelayAt(s, v).peers[a].btc.value)
    + (set c | 0 <= c < |s.nodes| && IsClient(s, c) :: ClientAt(s, c).peerId)
    + (set c | 0 <= c < |s.nodes| && IsClient(s, c) :: ClientAt(s, c).fp)
    + (set c | 0 <= c < |s.nodes| && IsClient(s, c) :: ClientAt(s, c).btc)
  }

  lemma UnnamedIsNameless(s: System, name: string)
    requires name !in Names(s)
    ensures Nameless(s, name)
  {
    forall v
      ensures UnknownAt(s, v, name)
    {
      if IsRelay(s, v) {
        forall a | a in RelayAt(s, v).peers
          ensures !R.Matches(RelayAt(s, v).peers[a], name)
        {
          assert RelayAt(s, v).peers[a].peerId in Names(s);
          assert RelayAt(s, v).peers[a].btc.Some? ==> RelayAt(s, v).peers[a].btc.value in Names(s);
        }
      }
    }
  }

  // A payment that nobody will ever receive.
  lemma StrayExists(s: System, loop: seq<Link>) returns (p: Packet)
    requires IsLoop(LinksOf(s), loop)
    ensures IsStray(s, p) && OnLoop(s.(net := [p]), loop, 0, p.msg)
  {
    var name := FreshName(Names(s));
    UnnamedIsNameless(s, name);
    p := Packet(loop[0].0, loop[0].1, Payment("", name, 1, 0));
    LinkAt(s, loop, 0);
    SameNodes(s, s.(net := [p]), name);
    assert p in s.(net := [p]).net;
  }

  lemma LoopKeepsStrays(scheme: Identity.Scheme, s: System, loop: seq<Link>, bound: nat)
    requires IsLoop(LinksOf(s), loop)
    ensures !StraysDieOut(scheme, s, bound)
  {
    var p := StrayExists(s, loop);
    var states, actions := CirculatesFor(scheme, s.(net := [p]), loop, 0, p.msg, bound + 1);
    assert StrayRun(scheme, s, p, states, actions);
  }

  // The condition of the termination theorem is exact.
  lemma StraysDieOutIff(scheme: Identity.Scheme, s: System)
    ensures (exists bound :: StraysDieOut(scheme, s, bound)) <==> LoopFree(LinksOf(s))
  {
    if LoopFree(LinksOf(s)) {
      LoopFreeKills(scheme, s);
    } else {
      var loop :| IsLoop(LinksOf(s), loop);
      forall bound: nat
        ensures !StraysDieOut(scheme, s, bound)
      {
        LoopKeepsStrays(scheme, s, loop, bound);
      }
    }
  }
}
