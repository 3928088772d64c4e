// Freedom from loops is needed: around every loop of links a payment to a name nobody there
// knows can be delivered any number of times. A triangle shows how a single payment gets there.

module PaymentCycle {
  import opened Wrappers
  import opened Messages
  import opened Network
  import opened Ledger
  import opened Registry
  import opened Routing
  import opened Loops
  import opened PaymentTermination
  import Identity
  import R = Relays
  import C = Clients

  // The links between relays that there are now.
  ghost function LinksOf(s: System): set<Link> {
    set v, w | 0 <= v < |s.nodes| && 0 <= w < |s.nodes| && RelayLink(s, v, w) :: (v, w)
  }

  // ---------- any loop ----------

  // The place after place i of the loop, and the one reached from it in k steps.
  function After(loop: seq<Link>, i: nat): (next: nat)
    requires i < |loop|
    ensures next < |loop|
  {
    if i + 1 == |loop| then 0 else i + 1
  }

  function Reached(loop: seq<Link>, i: nat, k: nat): (place: nat)
    requires i < |loop|
    ensures place < |loop|
    decreases k
  {
    if k == 0 then i else Reached(loop, After(loop, i), k - 1)
  }

  // No relay of the loop has anyone registered under this name.
  ghost predicate UnknownOn(s: System, loop: seq<Link>, name: string) {
    forall i :: 0 <= i < |loop| ==> UnknownAt(s, loop[i].0, name)
  }

  ghost predicate UnknownAt(s: System, v: Addr, name: string) {
    IsRelay(s, v) ==> forall a :: a in RelayAt(s, v).peers ==> !R.Matches(RelayAt(s, v).peers[a], name)
  }

  // A copy is on link i of a loop, and its name is unknown there.
  ghost predicate OnLoop(s: System, loop: seq<Link>, i: nat, m: Message) {
    && IsLoop(LinksOf(s), loop)
    && i < |loop|
    && Routed(m)
    && UnknownOn(s, loop, Name(m))
    && Packet(loop[i].0, loop[i].1, m) in s.net
  }

  lemma LinkAt(s: System, loop: seq<Link>, i: nat)
    requires IsLoop(LinksOf(s), loop) && i < |loop|
    ensures RelayLink(s, loop[i].0, loop[i].1) && Joins(loop[i], loop[After(loop, i)])
  {
    assert loop[i] in LinksOf(s);
    assert i + 1 < |loop| ==> Joins(loop[i], loop[i + 1]);
  }

  // The relay at the end of a link broadcasts the message, also over the next link.
  lemma RelayPassesOn(s: System, loop: seq<Link>, i: nat, m: Message, order: seq<Addr>)
    requires OnLoop(s, loop, i, m) && IsRelay(s, loop[i].1)
    requires R.IsOrder(order, RelayAt(s, loop[i].1).peers.Keys)
    ensures var next := loop[After(loop, i)];
            && next.0 == loop[i].1
            && Packet(next.0, next.1, m) in From(next.0, R.Route(RelayAt(s, next.0), order, loop[i].0, Name(m), m))
  {
    LinkAt(s, loop, i);
    LinkAt(s, loop, After(loop, i));
    var (v, w) := loop[After(loop, i)];
    var r := RelayAt(s, v);
    assert UnknownAt(s, v, Name(m));
    R.FindPeerFinds(r.peers, order, Name(m));
    assert w in r.peers.Keys && w in order && w != loop[i].0;
    OnTheWire(v, R.Targets(order, loop[i].0), m, Packet(v, w, m));
  }

  // Relays handle routed messages without changing.
  lemma RoutedLeavesRelays(scheme: Identity.Scheme, s: System, act: Action)
    requires Enabled(scheme, s, act) && act.Deliver? && IsRelay(s, s.net[act.i].dst) && Routed(s.net[act.i].msg)
    ensures Apply(scheme, s, act).nodes == s.nodes
    ensures Emitted(scheme, s, act)
         == From(s.net[act.i].dst, R.Route(RelayAt(s, s.net[act.i].dst), act.order, s.net[act.i].src,
                                           Name(s.net[act.i].msg), s.net[act.i].msg))
  {
  }

  // A step that delivers the message at the end of its link and puts it on the next one.
  ghost predicate GoesOn(scheme: Identity.Scheme, s: System, act: Action, loop: seq<Link>, i: nat, m: Message)
    requires i < |loop|
  {
    && Enabled(scheme, s, act)
    && DeliversExactly(s, act, loop[i].1, m)
    && IsRelay(s, loop[i].1)
    && Apply(scheme, s, act).nodes == s.nodes
    && Apply(scheme, s, act).ledger == s.ledger
    && OnLoop(Apply(scheme, s, act), loop, After(loop, i), m)
  }

  lemma LoopHop(scheme: Identity.Scheme, s: System, loop: seq<Link>, i: nat, m: Message) returns (act: Action)
    requires OnLoop(s, loop, i, m)
    ensures GoesOn(scheme, s, act, loop, i, m)
  {
    var v, next := loop[i].1, loop[After(loop, i)];
    LinkAt(s, loop, i);
    var order := R.OrderExists(RelayAt(s, v).peers.Keys);
    var k :| 0 <= k < |s.net| && s.net[k] == Packet(loop[i].0, v, m);
    act := Deliver(k, order);
    RoutedLeavesRelays(scheme, s, act);
    RelayPassesOn(s, loop, i, m, order);
    InNetAfter(scheme, s, act, Packet(next.0, next.1, m));
    LoopStays(s, Apply(scheme, s, act), loop, Name(m));
  }

  lemma LoopStays(s: System, s': System, loop: seq<Link>, name: string)
    requires IsLoop(LinksOf(s), loop) && UnknownOn(s, loop, name) && s'.nodes == s.nodes
    ensures IsLoop(LinksOf(s'), loop) && UnknownOn(s', loop, name)
  {
    assert LinksOf(s') == LinksOf(s);
    forall i | 0 <= i < |loop|
      ensures UnknownAt(s', loop[i].0, name)
    {
      assert UnknownAt(s, loop[i].0, name);
    }
  }

  lemma RunPrepend(scheme: Identity.Scheme, s: System, act: Action, states: seq<System>, actions: seq<Action>)
    requires Enabled(scheme, s, act) && IsRun(scheme, states, actions) && states[0] == Apply(scheme, s, act)
    ensures IsRun(scheme, [s] + states, [act] + actions)
  {
    forall k | 0 <= k < |[act] + actions|
      ensures StepAt(scheme, [s] + states, [act] + actions, k)
    {
      if k > 0 {
        assert StepAt(scheme, states, actions, k - 1);
      }
    }
  }

  // Every step delivers the message, over one link of the loop after the other.
  ghost predicate GoesAround(scheme: Identity.Scheme, s: System, loop: seq<Link>, i: nat, m: Message,
                             states: seq<System>, actions: seq<Action>)
    requires i < |loop|
  {
    && IsRun(scheme, states, actions)
    && states[0] == s
    && forall k :: 0 <= k < |actions| ==> DeliversExactly(states[k], actions[k], loop[Reached(loop, i, k)].1, m)
  }

  // One hop before going around is going around from one place earlier.
  lemma HopThenAround(scheme: Identity.Scheme, s: System, loop: seq<Link>, i: nat, m: Message, act: Action,
                      states: seq<System>, actions: seq<Action>)
    requires i < |loop| && GoesOn(scheme, s, act, loop, i, m)
    requires GoesAround(scheme, Apply(scheme, s, act), loop, After(loop, i), m, states, actions)
    ensures GoesAround(scheme, s, loop, i, m, [s] + states, [act] + actions)
  {
    RunPrepend(scheme, s, act, states, actions);
    forall k | 0 <= k < |[act] + actions|
      ensures DeliversExactly(([s] + states)[k], ([act] + actions)[k], loop[Reached(loop, i, k)].1, m)
    {
      if k > 0 {
        assert DeliversExactly(states[k - 1], actions[k - 1], loop[Reached(loop, After(loop, i), k - 1)].1, m);
      }
    }
  }

  lemma {:induction false} CirculatesFor(scheme: Identity.Scheme, s: System, loop: seq<Link>, i: nat, m: Message,
                                         n: nat)
    returns (states: seq<System>, actions: seq<Action>)
    requires OnLoop(s, loop, i, m)
    ensures |actions| == n && GoesAround(scheme, s, loop, i, m, states, actions)
    decreases n
  {
    if n == 0 {
      states, actions := [s], [];
    } else {
      var act := LoopHop(scheme, s, loop, i, m);
      var laterStates, laterActions := CirculatesFor(scheme, Apply(scheme, s, act), loop, After(loop, i), m, n - 1);
      HopThenAround(scheme, s, loop, i, m, act, laterStates, laterActions);
      states, actions := [s] + laterStates, [act] + laterActions;
    }
  }

  // In any system, on any loop of links, a payment or acknowledgement that travels along the
  // loop under a name unknown there can be delivered any number of times in a row.
  lemma CyclesCirculateForever(scheme: Identity.Scheme, s: System, loop: seq<Link>, i: nat, m: Message, n: nat)
    requires OnLoop(s, loop, i, m)
    ensures exists states, actions :: |actions| == n && GoesAround(scheme, s, loop, i, m, states, actions)
  {
    var states, actions := CirculatesFor(scheme, s, loop, i, m, n);
  }

  // ---------- no bound on runs with loops ----------

  // A run of the termination theorem, but for loops, and where it leads.
  ghost predicate DecentTo(scheme: Identity.Scheme, states: seq<System>, actions: seq<Action>, s: System) {
    DecentRun(scheme, states, actions) && states[|actions|] == s
  }

  lemma DecentAppend(scheme: Identity.Scheme, states: seq<System>, actions: seq<Action>, s: System, act: Action)
    requires DecentTo(scheme, states, actions, s) && Enabled(scheme, s, act)
    requires FreshPayment(s, act) && !CreditStep(s, act) && Decent(s, act)
    ensures DecentTo(scheme, states + [Apply(scheme, s, act)], actions + [act], Apply(scheme, s, act))
  {
    var s' := Apply(scheme, s, act);
    Extend(scheme, states, actions, act);
    forall k | 0 <= k <= |actions|
      ensures DecentAt(states + [s'], actions + [act], k)
    {
      assert k < |actions| ==> DecentAt(states, actions, k);
    }
  }

  // Counting up to k looks at nothing later.
  lemma {:induction false} CountsBefore(states: seq<System>, actions: seq<Action>, s: System, act: Action, k: nat)
    requires |states| == |actions| + 1 && k <= |actions|
    ensures Deliveries(states + [s], actions + [act], k) == Deliveries(states, actions, k)
    ensures Payments(states + [s], actions + [act], k) == Payments(states, actions, k)
    ensures Duplicates(states + [s], actions + [act], k) == Duplicates(states, actions, k)
  {
    if k > 0 {
      CountsBefore(states, actions, s, act, k - 1);
      assert (states + [s])[k - 1] == states[k - 1] && (actions + [act])[k - 1] == actions[k - 1];
    }
  }

  lemma CountsAppend(states: seq<System>, actions: seq<Action>, s: System, act: Action)
    requires |states| == |actions| + 1
    ensures var n, last := |actions|, states[|actions|];
            && Deliveries(states + [s], actions + [act], n + 1)
            == Deliveries(states, actions, n) + (if DeliversRouted(last, act) then 1 else 0)
            && Payments(states + [s], actions + [act], n + 1)
            == Payments(states, actions, n) + (if DebitStep(last, act) then 1 else 0)
            && Duplicates(states + [s], actions + [act], n + 1)
            == Duplicates(states, actions, n) + if DuplicatesRouted(last, act) then 1 else 0
  {
    CountsBefore(states, actions, s, act, |actions|);
    assert (states + [s])[|actions|] == states[|actions|] && (actions + [act])[|actions|] == act;
  }

  // The longer run issues and duplicates nothing more, but delivers n times more.
  ghost predicate MoreDeliveries(states: seq<System>, actions: seq<Action>, longer: seq<System>, acts: seq<Action>,
                                 n: nat)
    requires |states| == |actions| + 1 && |longer| == |acts| + 1
  {
    && Payments(longer, acts, |acts|) == Payments(states, actions, |actions|)
    && Duplicates(longer, acts, |acts|) == Duplicates(states, actions, |actions|)
    && Deliveries(longer, acts, |acts|) == Deliveries(states, actions, |actions|) + n
  }

  lemma HopDelivers(scheme: Identity.Scheme, states: seq<System>, actions: seq<Action>, s: System, act: Action,
                    loop: seq<Link>, i: nat, m: Message)
    requires DecentTo(scheme, states, actions, s) && i < |loop| && Routed(m) && GoesOn(scheme, s, act, loop, i, m)
    ensures DecentTo(scheme, states + [Apply(scheme, s, act)], actions + [act], Apply(scheme, s, act))
    ensures MoreDeliveries(states, actions, states + [Apply(scheme, s, act)], actions + [act], 1)
  {
    DecentAppend(scheme, states, actions, s, act);
    CountsAppend(states, actions, Apply(scheme, s, act), act);
  }

  // Once such a run has brought a message onto a loop, no number of payments and duplicates
  // bounds the deliveries.
  lemma {:induction false} LoopsHaveNoBound(scheme: Identity.Scheme, states: seq<System>, actions: seq<Action>,
                                            s: System, loop: seq<Link>, i: nat, m: Message, n: nat)
    returns (longer: seq<System>, acts: seq<Action>)
    requires DecentTo(scheme, states, actions, s) && OnLoop(s, loop, i, m)
    ensures DecentRun(scheme, longer, acts) && MoreDeliveries(states, actions, longer, acts, n)
    decreases n
  {
    if n == 0 {
      longer, acts := states, actions;
    } else {
      var act := LoopHop(scheme, s, loop, i, m);
      var s' := Apply(scheme, s, act);
      HopDelivers(scheme, states, actions, s, act, loop, i, m);
      longer, acts := LoopsHaveNoBound(scheme, states + [s'], actions + [act], s', loop, After(loop, i), m, n - 1);
      MoreAndMore(states, actions, states + [s'], actions + [act], longer, acts, n - 1);
    }
  }

  lemma MoreAndMore(states: seq<System>, actions: seq<Action>, states': seq<System>, actions': seq<Action>,
                    states'': seq<System>, actions'': seq<Action>, n: nat)
    requires |states| == |actions| + 1 && |states'| == |actions'| + 1 && |states''| == |actions''| + 1
    requires MoreDeliveries(states, actions, states', actions', 1)
    requires MoreDeliveries(states', actions', states'', actions'', n)
    ensures MoreDeliveries(states, actions, states'', actions'', n + 1)
  {
  }

  // ---------- a loop that one payment reaches ----------

  const PAYER: Addr := 3

  function Next(v: Addr): Addr {
    (v + 1) % 3
  }

  // Every relay has the two others registered.
  function TriangleRelay(v: Addr): R.Relay {
    var e := R.PeerEntry("relay:" + "r", 0, None);
    R.Relay("r", [], map[Next(v) := e, Next(Next(v)) := e], [])
  }

  function ThePayment(): Message {
    Payment("payer", "nobody", 1, 7)
  }

  function Nodes(c: C.Client): seq<Node> {
    [RelayNode(TriangleRelay(0)), RelayNode(TriangleRelay(1)), RelayNode(TriangleRelay(2)), ClientNode(c)]
  }

  function PayerBefore(): C.Client {
    C.Client("payer", "f", "b", [0], [], 1, 1, [])
  }

  function PayerAfter(): C.Client {
    PayerBefore().(balance := 0, saved := 0, log := [C.Sent(7, "nobody", 1)])
  }

  function Start(): System {
    System(Nodes(PayerBefore()), [], [])
  }

  function TheLedger(): seq<Entry> {
    [Entry(7, PAYER, "payer", "nobody", 1, false)]
  }

  function Paid(): System {
    System(Nodes(PayerAfter()), [Packet(PAYER, 0, ThePayment())], TheLedger())
  }

  // The first relay sends a copy each way around.
  function Entered(): System {
    System(Nodes(PayerAfter()), [Packet(0, 2, ThePayment()), Packet(0, 1, ThePayment())], TheLedger())
  }

  function Order(v: Addr): seq<Addr> {
    [Next(Next(v)), Next(v)]
  }

  function PayAction(): Action {
    ClientPay(PAYER, "nobody", 1, 7)
  }

  function EnterAction(): Action {
    Deliver(0, Order(0))
  }

  lemma Orders(v: Addr)
    requires 0 <= v < 3
    ensures R.IsOrder(Order(v), TriangleRelay(v).peers.Keys)
  {
    assert Order(v)[0] in Order(v) && Order(v)[1] in Order(v);
  }

  lemma FirstForwards()
    ensures R.Route(TriangleRelay(0), Order(0), PAYER, "nobody", ThePayment()) == SendAll([2, 1], ThePayment())
  {
    var order := Order(0);
    assert order == [2, 1] && order[1..] == [1] && order[1..][1..] == [];
    assert R.Targets(order[1..], PAYER) == [1];
    assert R.FindPeer(TriangleRelay(0).peers, order[1..], "nobody") == None;
    assert R.FindPeer(TriangleRelay(0).peers, order, "nobody") == None;
  }

  lemma FirstHop(scheme: Identity.Scheme)
    ensures Enabled(scheme, Paid(), EnterAction()) && Entered() == Apply(scheme, Paid(), EnterAction())
  {
    Orders(0);
    FirstForwards();
    RelayHandles(scheme, Paid(), 0, Order(0));
    EnterResult();
  }

  lemma EnterResult()
    ensures var s := Paid();
            AtRelay(s.(net := Without(s.net, 0)), 0, R.Reaction(TriangleRelay(0), SendAll([2, 1], ThePayment())))
            == Entered()
  {
    var s := Paid();
    var s' := AtRelay(s.(net := Without(s.net, 0)), 0, R.Reaction(TriangleRelay(0), SendAll([2, 1], ThePayment())));
    assert Without(s.net, 0) == [];
    assert s'.net == Entered().net;
    assert s'.nodes == Entered().nodes;
  }

  lemma PayStep(scheme: Identity.Scheme)
    ensures Enabled(scheme, Start(), PayAction()) && Paid() == Apply(scheme, Start(), PayAction())
  {
    var s' := Apply(scheme, Start(), PayAction());
    assert PayerBefore().log + [C.Sent(7, "nobody", 1)] == PayerAfter().log;
    assert s'.net == Paid().net;
    assert s'.nodes == Paid().nodes;
  }

  lemma StartIsProper()
    ensures RegistryInv(Start()) && ClientNamesNoRelay(Start())
  {
    var s := Start();
    forall r, a | IsRelay(s, r) && a in RelayAt(s, r).peers
      ensures IsNode(s, a) && NamesOf(s.nodes[a], RelayAt(s, r).peers[a].peerId, RelayAt(s, r).peers[a].btc)
    {
      EntryIsTrue(r, a);
    }
    assert TrueRegistrations(s);
    PayerIsNoRelay();
  }

  lemma RelayNodes(v: Addr)
    requires IsRelay(Start(), v)
    ensures 0 <= v < 3 && RelayAt(Start(), v) == TriangleRelay(v)
  {
  }

  lemma EntryIsTrue(r: Addr, a: Addr)
    requires IsRelay(Start(), r) && a in RelayAt(Start(), r).peers
    ensures IsNode(Start(), a)
    ensures var e := RelayAt(Start(), r).peers[a]; NamesOf(Start().nodes[a], e.peerId, e.btc)
  {
    RelayNodes(r);
    assert 0 <= a < 3 && Start().nodes[a] == RelayNode(TriangleRelay(a));
    assert R.RelayId(TriangleRelay(a)) == "relay:" + "r";
  }

  lemma PayerIsNoRelay()
    ensures ClientNamesNoRelay(Start())
  {
    forall r | IsRelay(Start(), r)
      ensures R.RelayId(RelayAt(Start(), r)) != "payer"
    {
      RelayNodes(r);
      assert "payer"[0] == 'p' && ("relay:" + "r")[0] == 'r';
    }
  }

  lemma StartTotal()
    ensures Total(Start()) == 1
  {
    var nodes := Start().nodes;
    assert nodes[1..][1..][1..] == [nodes[3]] && nodes[3..][1..] == [];
  }

  lemma StartIsOpening()
    ensures Opening(Start()) && Total(Start()) == 1
  {
    StartTotal();
  }

  lemma StartIsDecent(scheme: Identity.Scheme)
    ensures DecentTo(scheme, [Start()], [], Start())
  {
    StartIsOpening();
    StartIsProper();
  }

  // The payment is issued,
  lemma Issued(scheme: Identity.Scheme) returns (states: seq<System>, actions: seq<Action>)
    ensures DecentTo(scheme, states, actions, Paid())
    ensures Payments(states, actions, |actions|) == 1 && Duplicates(states, actions, |actions|) == 0
  {
    StartIsDecent(scheme);
    PayStep(scheme);
    EntersOnly();
    DecentAppend(scheme, [Start()], [], Start(), PayAction());
    CountsAppend([Start()], [], Paid(), PayAction());
    states, actions := [Start()] + [Paid()], [] + [PayAction()];
  }

  // and enters the triangle.
  lemma EntersTriangle(scheme: Identity.Scheme) returns (states: seq<System>, actions: seq<Action>)
    ensures DecentTo(scheme, states, actions, Entered())
    ensures Payments(states, actions, |actions|) == 1 && Duplicates(states, actions, |actions|) == 0
  {
    states, actions := Issued(scheme);
    FirstHop(scheme);
    EntersOnly();
    DecentAppend(scheme, states, actions, Paid(), EnterAction());
    CountsAppend(states, actions, Entered(), EnterAction());
    states, actions := states + [Entered()], actions + [EnterAction()];
  }

  lemma EntersOnly()
    ensures FreshPayment(Paid(), EnterAction()) && Decent(Paid(), EnterAction())
    ensures !CreditStep(Paid(), EnterAction()) && !DebitStep(Paid(), EnterAction())
    ensures FreshPayment(Start(), PayAction()) && Decent(Start(), PayAction())
    ensures !CreditStep(Start(), PayAction()) && DebitStep(Start(), PayAction())
  {
    assert IsRelay(Paid(), 0);
  }

  lemma TriangleLinks(v: Addr)
    requires 0 <= v < 3
    ensures RelayLink(Entered(), v, Next(v)) && (v, Next(v)) in LinksOf(Entered())
    ensures UnknownAt(Entered(), v, "nobody")
  {
    var s := Entered();
    assert s.nodes[v] == RelayNode(TriangleRelay(v)) && s.nodes[Next(v)] == RelayNode(TriangleRelay(Next(v)));
  }

  function Around(): seq<Link> {
    [(0, 1), (1, 2), (2, 0)]
  }

  lemma TriangleIsLoop()
    ensures OnLoop(Entered(), Around(), 0, ThePayment())
  {
    TriangleLinks(0);
    TriangleLinks(1);
    TriangleLinks(2);
    assert Entered().net[1] in Entered().net;
  }

  // One payment issued, nothing duplicated, and n deliveries, for every n.
  lemma OnePaymentCirculates(scheme: Identity.Scheme, n: nat)
    ensures exists states, actions ::
              && DecentRun(scheme, states, actions)
              && Payments(states, actions, |actions|) == 1
              && Duplicates(states, actions, |actions|) == 0
              && Deliveries(states, actions, |actions|) >= n
  {
    var states, actions := EntersTriangle(scheme);
    TriangleIsLoop();
    var longer, acts := LoopsHaveNoBound(scheme, states, actions, Entered(), Around(), 0, ThePayment(), n);
  }
}
