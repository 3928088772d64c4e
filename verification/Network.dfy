// The whole system: relays, clients and the datagrams in flight between them, with the one
// step relation all run-level theorems are about.

module Network {
  import opened Words
  import opened Messages
  import Identity
  import R = Relays
  import C = Clients
  import opened DedupKeys

  // Node i has socket address i; any other address belongs to no one.
  datatype Node = RelayNode(relay: R.Relay) | ClientNode(client: C.Client)

  datatype Packet = Packet(src: Addr, dst: Addr, msg: Message)

  // The history of one payment: who issued it, on what terms, and whether it was credited.
  datatype Entry = Entry(id: u64, payer: Addr, src: string, dst: string, amount: u64, settled: bool)

  // net holds the datagrams in flight, one element a copy. The ledger only records what
  // happened; no node reads it.
  datatype System = System(nodes: seq<Node>, net: seq<Packet>, ledger: seq<Entry>)

  // The choices of users, clocks and the network. `order` is the order in which a relay's
  // hash map of peers is iterated while it handles a message.
  datatype Action =
    | ClientSay(who: Addr, msg: Message)
    | RelaySay(who: Addr, msg: Message, order: seq<Addr>)
    | ClientPay(who: Addr, dstId: string, amount: u64, paymentId: u64)
    | Heartbeat(who: Addr, now: u64)
    | Cleanup(who: Addr, now: u64)
    | Deliver(i: nat, order: seq<Addr>)
    | Drop(i: nat)
    | Duplicate(i: nat)

  predicate IsNode(s: System, a: Addr) {
    0 <= a < |s.nodes|
  }

  predicate IsRelay(s: System, a: Addr) {
    IsNode(s, a) && s.nodes[a].RelayNode?
  }

  predicate IsClient(s: System, a: Addr) {
    IsNode(s, a) && s.nodes[a].ClientNode?
  }

  function RelayAt(s: System, a: Addr): R.Relay
    requires IsRelay(s, a)
  {
    s.nodes[a].relay
  }

  function ClientAt(s: System, a: Addr): C.Client
    requires IsClient(s, a)
  {
    s.nodes[a].client
  }

  // The cache of a node, whichever kind it is.
  function Seen(n: Node): seq<u64> {
    match n
    case RelayNode(r) => r.seen
    case ClientNode(c) => c.seen
  }

  // The datagrams a node puts on the wire.
  function From(src: Addr, sends: seq<Send>): (packets: seq<Packet>)
    ensures |packets| == |sends|
    ensures forall i :: 0 <= i < |sends| ==> packets[i] == Packet(src, sends[i].to, sends[i].msg)
  {
    seq(|sends|, i requires 0 <= i < |sends| => Packet(src, sends[i].to, sends[i].msg))
  }

  function Without(net: seq<Packet>, i: nat): seq<Packet>
    requires i < |net|
  {
    net[..i] + net[i + 1..]
  }

  // A text as its author sends it: full ttl, and signed so that it verifies.
  predicate Original(scheme: Identity.Scheme, m: Message) {
    m.Classic? && m.ttl == INITIAL_TTL && Authentic(scheme, m)
  }

  ghost predicate Enabled(scheme: Identity.Scheme, s: System, a: Action) {
    match a
    case ClientSay(who, m) => IsClient(s, who) && Original(scheme, m) && m.srcId == ClientAt(s, who).peerId
    case RelaySay(who, m, order) =>
      && IsRelay(s, who) && Original(scheme, m) && m.srcId == RelayAt(s, who).myId
      && R.IsOrder(order, RelayAt(s, who).peers.Keys)
    case ClientPay(who, dstId, amount, _) => IsClient(s, who) && amount > 0
    case Heartbeat(who, _) => IsNode(s, who)
    case Cleanup(who, _) => IsRelay(s, who)
    case Deliver(i, order) =>
      && i < |s.net|
      && (IsRelay(s, s.net[i].dst) ==> R.IsOrder(order, RelayAt(s, s.net[i].dst).peers.Keys))
    case Drop(i) => i < |s.net|
    case Duplicate(i) => i < |s.net|
  }

  function Settle(ledger: seq<Entry>, id: u64): (settled: seq<Entry>)
    ensures |settled| == |ledger|
    ensures forall i :: 0 <= i < |ledger| ==>
                          settled[i] == if ledger[i].id == id then ledger[i].(settled := true) else ledger[i]
  {
    seq(|ledger|, i requires 0 <= i < |ledger| => if ledger[i].id == id then ledger[i].(settled := true) else ledger[i])
  }

  // Does this client, handling this message, credit its wallet?
  predicate Credits(c: C.Client, m: Message) {
    m.Payment? && C.Owns(c, m.dstId) && Key(Pay, m.paymentId) !in c.seen
  }

  ghost function AtRelay(s: System, a: Addr, reaction: R.Reaction): System
    requires IsRelay(s, a)
  {
    s.(nodes := s.nodes[a := RelayNode(reaction.relay)], net := s.net + From(a, reaction.sends))
  }

  ghost function AtClient(s: System, a: Addr, reaction: C.Reaction): System
    requires IsClient(s, a)
  {
    s.(nodes := s.nodes[a := ClientNode(reaction.client)], net := s.net + From(a, reaction.sends))
  }

  // The heartbeat of a node: it registers, again, with each of its relays.
  function Registration(n: Node, now: u64): seq<Send> {
    match n
    case RelayNode(r) => R.Registration(r, now)
    case ClientNode(c) => C.Registration(c, now)
  }

  ghost function Apply(scheme: Identity.Scheme, s: System, a: Action): System
    requires Enabled(scheme, s, a)
  {
    match a
    case ClientSay(who, m) => AtClient(s, who, C.Say(ClientAt(s, who), m))
    case RelaySay(who, m, order) => AtRelay(s, who, R.Say(RelayAt(s, who), order, m))
    case ClientPay(who, dstId, amount, paymentId) =>
      var c := ClientAt(s, who);
      var s' := AtClient(s, who, C.MakePayment(c, dstId, amount, paymentId));
      if c.balance < amount then s'
      else s'.(ledger := s.ledger + [Entry(paymentId, who, c.peerId, dstId, amount, false)])
    case Heartbeat(who, now) => s.(net := s.net + From(who, Registration(s.nodes[who], now)))
    case Cleanup(who, now) =>
      var r := RelayAt(s, who);
      AtRelay(s, who, R.Reaction(r.(peers := R.Retained(r.peers, now)), []))
    case Deliver(i, order) => Receive(scheme, s, i, order)
    case Drop(i) => s.(net := Without(s.net, i))
    case Duplicate(i) => s.(net := s.net + [s.net[i]])
  }

  ghost function Receive(scheme: Identity.Scheme, s: System, i: nat, order: seq<Addr>): System
    requires Enabled(scheme, s, Deliver(i, order))
  {
    var p := s.net[i];
    var rest := s.(net := Without(s.net, i));
    if !IsNode(s, p.dst) then rest
    else if IsRelay(s, p.dst) then AtRelay(rest, p.dst, R.Handle(scheme, RelayAt(s, p.dst), order, p.src, p.msg))
    else
      var c := ClientAt(s, p.dst);
      var s' := AtClient(rest, p.dst, C.Handle(scheme, c, p.msg));
      if Credits(c, p.msg) then s'.(ledger := Settle(s.ledger, p.msg.paymentId)) else s'
  }

  // ---------- runs ----------

  ghost predicate StepAt(scheme: Identity.Scheme, states: seq<System>, actions: seq<Action>, k: nat)
    requires k < |actions| && |states| == |actions| + 1
  {
    Enabled(scheme, states[k], actions[k]) && states[k + 1] == Apply(scheme, states[k], actions[k])
  }

  ghost predicate IsRun(scheme: Identity.Scheme, states: seq<System>, actions: seq<Action>) {
    && |states| == |actions| + 1
    && forall k :: 0 <= k < |actions| ==> StepAt(scheme, states, actions, k)
  }

  lemma StepFrom(scheme: Identity.Scheme, states: seq<System>, actions: seq<Action>, k: nat, s: System, a: Action,
                 s': System)
    requires Enabled(scheme, s, a) && s' == Apply(scheme, s, a)
    requires |states| == |actions| + 1 && k < |actions| && states[k] == s && actions[k] == a && states[k + 1] == s'
    ensures StepAt(scheme, states, actions, k)
  {
  }

  // A run extended by a step is a run.
  lemma RunAppend(scheme: Identity.Scheme, states: seq<System>, actions: seq<Action>, act: Action)
    requires IsRun(scheme, states, actions) && Enabled(scheme, states[|actions|], act)
    ensures IsRun(scheme, states + [Apply(scheme, states[|actions|], act)], actions + [act])
  {
    var s' := Apply(scheme, states[|actions|], act);
    forall k | 0 <= k <= |actions|
      ensures StepAt(scheme, states + [s'], actions + [act], k)
    {
      if k < |actions| {
        assert StepAt(scheme, states, actions, k);
        StepFrom(scheme, states + [s'], actions + [act], k, states[k], actions[k], states[k + 1]);
      } else {
        StepFrom(scheme, states + [s'], actions + [act], k, states[k], act, s');
      }
    }
  }

  // ---------- facts about steps ----------

  // What a step leaves in flight of what was in flight, and what it puts on the wire.
  function Remaining(s: System, a: Action): seq<Packet> {
    if (a.Deliver? || a.Drop?) && a.i < |s.net| then Without(s.net, a.i) else s.net
  }

  ghost function Emitted(scheme: Identity.Scheme, s: System, a: Action): seq<Packet>
    requires Enabled(scheme, s, a)
  {
    match a
    case ClientSay(who, m) => From(who, SendAll(ClientAt(s, who).relays, m))
    case RelaySay(who, m, order) => From(who, SendAll(R.Targets(order, NOWHERE), m))
    case ClientPay(who, dstId, amount, paymentId) =>
      From(who, C.MakePayment(ClientAt(s, who), dstId, amount, paymentId).sends)
    case Heartbeat(who, now) => From(who, Registration(s.nodes[who], now))
    case Cleanup(_, _) => []
    case Deliver(i, order) =>
      var p := s.net[i];
      if !IsNode(s, p.dst) then []
      else if IsRelay(s, p.dst) then From(p.dst, R.Handle(scheme, RelayAt(s, p.dst), order, p.src, p.msg).sends)
      else From(p.dst, C.Handle(scheme, ClientAt(s, p.dst), p.msg).sends)
    case Drop(_) => []
    case Duplicate(i) => [s.net[i]]
  }

  lemma NetAfter(scheme: Identity.Scheme, s: System, a: Action)
    requires Enabled(scheme, s, a)
    ensures Apply(scheme, s, a).net == Remaining(s, a) + Emitted(scheme, s, a)
  {
  }

  lemma InNetAfter(scheme: Identity.Scheme, s: System, a: Action, p: Packet)
    requires Enabled(scheme, s, a)
    ensures p in Apply(scheme, s, a).net <==> p in Remaining(s, a) || p in Emitted(scheme, s, a)
    ensures p in Remaining(s, a) ==> p in s.net
  {
    NetAfter(scheme, s, a);
  }

  lemma RelayHandles(scheme: Identity.Scheme, s: System, i: nat, order: seq<Addr>)
    requires i < |s.net| && IsRelay(s, s.net[i].dst) && R.IsOrder(order, RelayAt(s, s.net[i].dst).peers.Keys)
    ensures Enabled(scheme, s, Deliver(i, order))
    ensures var p := s.net[i];
            Apply(scheme, s, Deliver(i, order))
            == AtRelay(s.(net := Without(s.net, i)), p.dst, R.Handle(scheme, RelayAt(s, p.dst), order, p.src, p.msg))
  {
  }

  // The most addresses any node may send one message to.
  function Fan(nodes: seq<Node>): nat {
    if nodes == [] then 0
    else
      var here := match nodes[0] case RelayNode(r) => |r.peers| case ClientNode(c) => |c.relays|;
      var rest := Fan(nodes[1..]);
      if here > rest then here else rest
  }

  lemma {:induction false} FanBounds(nodes: seq<Node>, i: nat)
    requires i < |nodes|
    ensures nodes[i].RelayNode? ==> |nodes[i].relay.peers| <= Fan(nodes)
    ensures nodes[i].ClientNode? ==> |nodes[i].client.relays| <= Fan(nodes)
  {
    if i > 0 {
      FanBounds(nodes[1..], i - 1);
    }
  }

  // What a step displays at a client: one line or nothing.
  ghost function Displayed(scheme: Identity.Scheme, s: System, act: Action, a: Addr): seq<C.Line>
    requires Enabled(scheme, s, act) && IsClient(s, a)
  {
    var c := ClientAt(s, a);
    match act
    case ClientSay(who, m) => if who == a then [C.Said(m.msgId, m.txt)] else []
    case ClientPay(who, dstId, amount, id) =>
      if who == a && amount <= c.balance then [C.Sent(id, dstId, amount)] else []
    case Deliver(i, _) => if s.net[i].dst == a then DisplayedOnReceipt(scheme, c, s.net[i].msg) else []
    case _ => []
  }

  function DisplayedOnReceipt(scheme: Identity.Scheme, c: C.Client, m: Message): seq<C.Line> {
    match m
    case Classic(srcId, txt, _, msgId, _, _, _) =>
      if msgId !in c.seen && Authentic(scheme, m) then [C.Shown(msgId, srcId, txt)] else []
    case Payment(srcId, _, amount, id) => if Credits(c, m) then [C.Received(id, srcId, amount)] else []
    case PaymentAck(id, fromId, toId) => if Confirms(c, m) then [C.Confirmed(id, fromId)] else []
    case _ => []
  }

  // Does this client, handling this message, display a confirmation?
  predicate Confirms(c: C.Client, m: Message) {
    m.PaymentAck? && C.Owns(c, m.toId) && Key(Ack, m.paymentId) !in c.seen
  }

  lemma LogAfter(scheme: Identity.Scheme, s: System, act: Action, a: Addr)
    requires Enabled(scheme, s, act) && IsClient(s, a)
    ensures var s' := Apply(scheme, s, act);
            IsClient(s', a) && ClientAt(s', a).log == ClientAt(s, a).log + Displayed(scheme, s, act, a)
  {
    var log := ClientAt(s, a).log;
    assert log + [] == log;
    if act.Deliver? && s.net[act.i].dst == a {
      LogOnReceipt(scheme, ClientAt(s, a), s.net[act.i].msg);
    }
  }

  lemma LogOnReceipt(scheme: Identity.Scheme, c: C.Client, m: Message)
    ensures C.Handle(scheme, c, m).client.log == c.log + DisplayedOnReceipt(scheme, c, m)
  {
    assert c.log + [] == c.log;
  }

  lemma CountAfter(scheme: Identity.Scheme, s: System, act: Action, a: Addr, kind: C.LineKind, id: u64)
    requires Enabled(scheme, s, act) && IsClient(s, a)
    ensures var s', lines := Apply(scheme, s, act), Displayed(scheme, s, act, a);
            && IsClient(s', a)
            && C.Count(ClientAt(s', a).log, kind, id)
            == C.Count(ClientAt(s, a).log, kind, id) + if lines == [] then 0 else C.Hits(lines[0], kind, id)
  {
    LogAfter(scheme, s, act, a);
    var log, lines := ClientAt(s, a).log, Displayed(scheme, s, act, a);
    if lines == [] {
      assert log + lines == log;
    } else {
      assert lines == [lines[0]];
      C.CountPush(log, lines[0], kind, id);
    }
  }

  // Whatever a client puts on the wire goes to one of its relays.
  lemma ClientEmits(scheme: Identity.Scheme, s: System, a: Action, p: Packet)
    requires Enabled(scheme, s, a) && p in Emitted(scheme, s, a) && !a.Duplicate? && IsClient(s, p.src)
    ensures p.dst in ClientAt(s, p.src).relays
  {
  }

  // A relay's table gains an address only by a datagram received from it.
  lemma PeersGrow(scheme: Identity.Scheme, s: System, a: Action, r: Addr, b: Addr)
    requires Enabled(scheme, s, a) && IsRelay(s, r) && IsRelay(Apply(scheme, s, a), r)
    requires b in RelayAt(Apply(scheme, s, a), r).peers && b !in RelayAt(s, r).peers
    ensures a.Deliver? && s.net[a.i].dst == r && s.net[a.i].src == b && s.net[a.i].msg.Register?
  {
  }

  // A datagram stays in flight until it is delivered or dropped.
  lemma StillInFlight(net: seq<Packet>, i: nat, p: Packet)
    requires i < |net| && p in net && p != net[i]
    ensures p in Without(net, i)
  {
    var k :| 0 <= k < |net| && net[k] == p;
    assert Without(net, i)[if k < i then k else k - 1] == p;
  }

  lemma OnTheWire(src: Addr, targets: seq<Addr>, m: Message, p: Packet)
    ensures p in From(src, SendAll(targets, m)) <==> p.src == src && p.dst in targets && p.msg == m
  {
    var packets := From(src, SendAll(targets, m));
    if p.src == src && p.dst in targets && p.msg == m {
      var k :| 0 <= k < |targets| && targets[k] == p.dst;
      assert packets[k] == p;
    }
  }

  // Steps never change what kind of node an address is, a client's names, or whom a node
  // registers with.
  ghost predicate SameIdentity(n: Node, n': Node) {
    match (n, n')
    case (RelayNode(r), RelayNode(r')) => r.myId == r'.myId && r.peerRelays == r'.peerRelays
    case (ClientNode(c), ClientNode(c')) =>
      c.peerId == c'.peerId && c.fp == c'.fp && c.btc == c'.btc && c.relays == c'.relays
    case _ => false
  }

  ghost predicate SameWorld(s: System, s': System) {
    |s'.nodes| == |s.nodes| && forall a :: IsNode(s, a) ==> SameIdentity(s.nodes[a], s'.nodes[a])
  }

  lemma WorldFixed(scheme: Identity.Scheme, s: System, a: Action)
    requires Enabled(scheme, s, a)
    ensures SameWorld(s, Apply(scheme, s, a))
  {
    IdentityFixed(scheme, s, a);
  }

  lemma IdentityFixed(scheme: Identity.Scheme, s: System, a: Action)
    requires Enabled(scheme, s, a)
    ensures var s' := Apply(scheme, s, a);
            |s'.nodes| == |s.nodes| && forall i :: 0 <= i < |s.nodes| ==> SameIdentity(s.nodes[i], s'.nodes[i])
  {
    var s' := Apply(scheme, s, a);
    forall i | 0 <= i < |s.nodes|
      ensures SameIdentity(s.nodes[i], s'.nodes[i])
    {
      if s'.nodes[i] != s.nodes[i] {
        IdentityOfChanged(scheme, s, a, i);
      }
    }
  }

  lemma IdentityOfChanged(scheme: Identity.Scheme, s: System, a: Action, i: nat)
    requires Enabled(scheme, s, a) && i < |s.nodes| && Apply(scheme, s, a).nodes[i] != s.nodes[i]
    ensures SameIdentity(s.nodes[i], Apply(scheme, s, a).nodes[i])
  {
  }
}
