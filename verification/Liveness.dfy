// Heartbeats every thirty seconds against a sweep that drops peers silent for a minute, on
// a shared clock of whole seconds and with a bounded delivery delay.

module Liveness {
  import opened Wrappers
  import opened Words
  import opened Messages
  import Identity
  import R = Relays
  import N = Network

  const HEARTBEAT: nat := 30
  const SWEEP_PERIOD: nat := 30

  // A peer, its address, the address of the relay it registers with, and how long deliveries
  // may take.
  datatype Setting = Setting(scheme: Identity.Scheme, peer: N.Node, a: Addr, home: Addr, delay: nat)

  // A heartbeat on its way.
  datatype Hello = Hello(sent: u64, msg: Message)

  // The relay, the heartbeats not yet delivered, and when the peer last sent one; a silent peer
  // has stopped.
  datatype Timed =
    Timed(now: u64, relay: R.Relay, inFlight: set<Hello>, lastSent: u64, lastSweep: u64, silent: bool)

  datatype Event =
    | Tick
    | Beat(msg: Message)
    | Receive(hello: Hello, order: seq<Addr>)
    | OtherMessage(sender: Addr, msg: Message, order: seq<Addr>)
    | Sweep
    | Stop

  // Time passes only if no heartbeat, delivery or sweep is due: heartbeats are thirty seconds
  // apart, deliveries take at most `delay`, sweeps come at least every thirty seconds.
  ghost predicate Enabled(w: Setting, s: Timed, e: Event) {
    match e
    case Tick =>
      && s.now + 1 < U64_LIMIT
      && (s.silent || s.now < s.lastSent + HEARTBEAT)
      && (forall h :: h in s.inFlight ==> s.now < h.sent + w.delay)
      && s.now < s.lastSweep + SWEEP_PERIOD
    case Beat(m) =>
      !s.silent && s.now == s.lastSent + HEARTBEAT && Send(w.home, m) in N.Registration(w.peer, s.now)
    case Receive(h, order) => h in s.inFlight && R.IsOrder(order, s.relay.peers.Keys)
    case OtherMessage(sender, _, order) => sender != w.a && R.IsOrder(order, s.relay.peers.Keys)
    case Sweep => true
    case Stop => true
  }

  ghost function Next(w: Setting, s: Timed, e: Event): Timed
    requires Enabled(w, s, e)
  {
    match e
    case Tick => s.(now := s.now + 1)
    case Beat(m) => s.(inFlight := s.inFlight + {Hello(s.now, m)}, lastSent := s.now)
    case Receive(h, order) =>
      s.(relay := R.Handle(w.scheme, s.relay, order, w.a, h.msg).relay, inFlight := s.inFlight - {h})
    case OtherMessage(sender, m, order) => s.(relay := R.Handle(w.scheme, s.relay, order, sender, m).relay)
    case Sweep => s.(relay := Swept(s.relay, s.now), lastSweep := s.now)
    case Stop => s.(silent := true)
  }

  function Swept(r: R.Relay, now: u64): R.Relay {
    r.(peers := R.Retained(r.peers, now))
  }

  ghost predicate IsRun(w: Setting, states: seq<Timed>, events: seq<Event>) {
    && |states| == |events| + 1
    && forall k :: 0 <= k < |events| ==> StepAt(w, states, events, k)
  }

  ghost predicate StepAt(w: Setting, states: seq<Timed>, events: seq<Event>, k: nat)
    requires k < |events| && |states| == |events| + 1
  {
    Enabled(w, states[k], events[k]) && states[k + 1] == Next(w, states[k], events[k])
  }

  // The peer has just registered.
  predicate Start(w: Setting, s: Timed) {
    && w.a in s.relay.peers
    && s.relay.peers[w.a].lastSeen == s.now
    && s.inFlight == {}
    && s.lastSent == s.now
    && s.lastSweep == s.now
    && !s.silent
  }

  // The peer never goes silent.
  ghost predicate LiveRun(w: Setting, states: seq<Timed>, events: seq<Event>) {
    && IsRun(w, states, events)
    && Start(w, states[0])
    && forall k :: 0 <= k < |events| ==> !events[k].Stop?
  }

  // ---------- what heartbeats do ----------

  // A heartbeat is a registration stamped with the second it is sent.
  lemma BeatIsStamped(w: Setting, s: Timed, m: Message)
    requires Enabled(w, s, Beat(m))
    ensures m.Register? && m.time == s.now
  {
  }

  // Delivered, it renews the peer's entry.
  lemma HelloRenews(w: Setting, s: Timed, h: Hello, order: seq<Addr>)
    requires Enabled(w, s, Receive(h, order)) && h.msg.Register?
    ensures var r := Next(w, s, Receive(h, order)).relay; w.a in r.peers && r.peers[w.a].lastSeen == h.msg.time
  {
    R.RegisterReplaces(w.scheme, s.relay, order, w.a, h.msg.srcId, h.msg.time, h.msg.btcAddress);
  }

  // Messages from elsewhere leave it alone.
  lemma OthersLeave(w: Setting, s: Timed, e: Event)
    requires Enabled(w, s, e) && e.OtherMessage?
    ensures var r := Next(w, s, e).relay;
            && (w.a in r.peers <==> w.a in s.relay.peers)
            && (w.a in r.peers ==> r.peers[w.a] == s.relay.peers[w.a])
  {
    if e.msg.Register? {
      R.RegisterReplaces(w.scheme, s.relay, e.order, e.sender, e.msg.srcId, e.msg.time, e.msg.btcAddress);
      assert w.a in Next(w, s, e).relay.peers.Keys <==> w.a in s.relay.peers.Keys;
    }
  }

  // ---------- a live peer is never dropped ----------

  predicate IsLatest(s: Timed, h: Hello) {
    h.sent == s.lastSent && h.msg.Register? && h.msg.time == s.lastSent
  }

  // At most the latest heartbeat is still on its way, and then the one before it has arrived.
  ghost predicate Alive(s: Timed, a: Addr) {
    && a in s.relay.peers
    && s.lastSent <= s.now <= s.lastSent + HEARTBEAT
    && (s.inFlight == {} ==> s.relay.peers[a].lastSeen == s.lastSent)
    && (s.inFlight != {} ==>
          && (exists h :: s.inFlight == {h} && IsLatest(s, h))
          && s.relay.peers[a].lastSeen + HEARTBEAT == s.lastSent
          && s.now < s.lastSent + HEARTBEAT)
  }

  lemma AliveStep(w: Setting, s: Timed, e: Event)
    requires Enabled(w, s, e) && Alive(s, w.a) && !e.Stop? && !s.silent && w.delay < HEARTBEAT
    ensures Alive(Next(w, s, e), w.a) && !Next(w, s, e).silent
  {
    var s' := Next(w, s, e);
    match e
    case Tick =>
      if s.inFlight != {} {
        var h :| s.inFlight == {h} && IsLatest(s, h);
        assert h in s.inFlight && IsLatest(s', h);
      }
    case Receive(h, order) =>
      var x :| s.inFlight == {x} && IsLatest(s, x);
      assert h == x && s'.inFlight == {};
      HelloRenews(w, s, h, order);
    case Beat(m) =>
      BeatIsStamped(w, s, m);
      assert s'.inFlight == {Hello(s.now, m)} && IsLatest(s', Hello(s.now, m));
    case Sweep =>
      R.RetainedExactly(s.relay.peers, s.now, w.a);
      assert forall h :: IsLatest(s, h) ==> IsLatest(s', h);
    case OtherMessage(_, _, _) =>
      OthersLeave(w, s, e);
      assert forall h :: IsLatest(s, h) ==> IsLatest(s', h);
  }

  lemma {:induction false} LivePeerStays(w: Setting, states: seq<Timed>, events: seq<Event>, k: nat)
    requires LiveRun(w, states, events) && w.delay < HEARTBEAT && k <= |events|
    ensures Alive(states[k], w.a) && !states[k].silent
  {
    if k > 0 {
      LivePeerStays(w, states, events, k - 1);
      assert StepAt(w, states, events, k - 1);
      AliveStep(w, states[k - 1], events[k - 1]);
    }
  }

  // ---------- with a delay of thirty seconds it can be dropped ----------

  function Ticks(n: nat): seq<Event> {
    seq(n, _ => Tick)
  }

  // The states of n seconds in which nothing else happens.
  function Seconds(s: Timed, n: nat): seq<Timed>
    requires s.now + n < U64_LIMIT
  {
    seq(n + 1, k requires 0 <= k <= n => s.(now := s.now + k))
  }

  function First(r: R.Relay): Timed {
    Timed(0, r, {}, 0, 0, false)
  }

  // A heartbeat at second 30 that is delivered only after the sweep of second 60.
  function DropEvents(m: Message): seq<Event> {
    Ticks(30) + [Beat(m), Sweep] + Ticks(30) + [Sweep]
  }

  function DropStates(r: R.Relay, m: Message): seq<Timed> {
    var beaten := Timed(30, r, {Hello(30, m)}, 30, 0, false);
    var swept := Timed(30, Swept(r, 30), {Hello(30, m)}, 30, 30, false);
    Seconds(First(r), 30) + [beaten] + Seconds(swept, 30)
    + [Timed(60, Swept(Swept(r, 30), 60), {Hello(30, m)}, 30, 60, false)]
  }

  lemma DropIsRun(w: Setting, r: R.Relay, m: Message)
    requires w.delay >= HEARTBEAT && Send(w.home, m) in N.Registration(w.peer, 30)
    ensures IsRun(w, DropStates(r, m), DropEvents(m))
  {
    assert {} + {Hello(30, m)} == {Hello(30, m)};
    forall k | 0 <= k < |DropEvents(m)|
      ensures StepAt(w, DropStates(r, m), DropEvents(m), k)
    {
    }
  }

  // The peer registers with this relay.
  predicate Registers(n: N.Node, home: Addr) {
    match n
    case RelayNode(r) => home in r.peerRelays
    case ClientNode(c) => home in c.relays
  }

  lemma RegistersWhen(n: N.Node, home: Addr, now: u64) returns (m: Message)
    requires Registers(n, home)
    ensures Send(home, m) in N.Registration(n, now)
  {
    var relays := match n case RelayNode(r) => r.peerRelays case ClientNode(c) => c.relays;
    var k :| 0 <= k < |relays| && relays[k] == home;
    m := N.Registration(n, now)[k].msg;
    assert N.Registration(n, now)[k] == Send(home, m);
  }

  // A live peer survives every sweep of every run exactly when deliveries take less than
  // thirty seconds.
  lemma LivePeerSafeIff(w: Setting)
    requires Registers(w.peer, w.home)
    ensures w.delay < HEARTBEAT <==>
            forall states: seq<Timed>, events: seq<Event> ::
              LiveRun(w, states, events) ==> w.a in states[|events|].relay.peers
  {
    if w.delay < HEARTBEAT {
      forall states: seq<Timed>, events: seq<Event> | LiveRun(w, states, events)
        ensures w.a in states[|events|].relay.peers
      {
        LivePeerStays(w, states, events, |events|);
      }
    } else {
      var m := RegistersWhen(w.peer, w.home, 30);
      SlowHeartbeatDrops(w, m);
    }
  }

  lemma SlowHeartbeatDrops(w: Setting, m: Message)
    requires w.delay >= HEARTBEAT && Send(w.home, m) in N.Registration(w.peer, 30)
    ensures exists states: seq<Timed>, events: seq<Event> ::
              LiveRun(w, states, events) && w.a !in states[|events|].relay.peers
  {
    var p: R.Peers := map[w.a := R.PeerEntry("peer", 0, None)];
    var r := R.Relay("r", [], p, []);
    var states, events := DropStates(r, m), DropEvents(m);
    DropIsRun(w, r, m);
    R.RetainedExactly(R.Retained(p, 30), 60, w.a);
    R.RetainedExactly(p, 30, w.a);
    assert LiveRun(w, states, events);
    assert w.a !in states[|events|].relay.peers;
  }

  // ---------- a silent peer is forgotten ----------

  // An entry survived the last sweep, or is younger; no stamp is ahead of the clock.
  ghost predicate Young(w: Setting, s: Timed) {
    && s.lastSweep <= s.now <= s.lastSweep + SWEEP_PERIOD
    && s.lastSent <= s.now
    && (forall h :: h in s.inFlight ==>
          h.msg.Register? && h.msg.time == h.sent && h.sent <= s.now <= h.sent + w.delay)
    && (w.a in s.relay.peers ==>
          && s.relay.peers[w.a].lastSeen <= s.now
          && s.lastSweep < s.relay.peers[w.a].lastSeen + R.PEER_TIMEOUT)
  }

  lemma YoungStep(w: Setting, s: Timed, e: Event)
    requires Enabled(w, s, e) && Young(w, s) && w.delay < R.PEER_TIMEOUT
    ensures Young(w, Next(w, s, e))
  {
    match e
    case Tick =>
    case Beat(m) => BeatIsStamped(w, s, m);
    case Receive(h, order) => HelloRenews(w, s, h, order);
    case OtherMessage(_, _, _) => OthersLeave(w, s, e);
    case Sweep => R.RetainedExactly(s.relay.peers, s.now, w.a);
    case Stop =>
  }

  // No entry is ever ninety seconds old, and no stamp lies in the future: so a peer that goes
  // silent is gone within ninety seconds of its last registration, and the subtraction in
  // the sweep never wraps.
  lemma {:induction false} EntriesStayYoung(w: Setting, states: seq<Timed>, events: seq<Event>, k: nat)
    requires IsRun(w, states, events) && Start(w, states[0]) && w.delay < R.PEER_TIMEOUT && k <= |events|
    ensures Young(w, states[k])
    ensures w.a in states[k].relay.peers ==>
              var seen := states[k].relay.peers[w.a].lastSeen;
              seen <= states[k].now < seen + R.PEER_TIMEOUT + SWEEP_PERIOD
  {
    if k > 0 {
      EntriesStayYoung(w, states, events, k - 1);
      assert StepAt(w, states, events, k - 1);
      YoungStep(w, states[k - 1], events[k - 1]);
    }
  }
}
