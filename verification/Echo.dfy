// No echo: a client registered with a single relay never gets its own text back, whatever
// cycles the federation has; and which clients with several relays can get it back.

module Echo {
  import opened Words
  import opened Messages
  import opened Network
  import opened Flood
  import opened FloodRuns
  import Identity
  import S = SeenIds
  import R = Relays

  ghost predicate EchoInv(s: System, c: Addr, r: Addr, id: u64) {
    && IsClient(s, c)
    && IsRelay(s, r)
    && (forall b :: b in ClientAt(s, c).relays ==> b == r)
    && (forall x :: IsRelay(s, x) && c in RelayAt(s, x).peers ==> x == r)
    && (forall p :: p in s.net && p.src == c ==> p.dst == r)
    && CopiesStayAway(s, c, r, id)
    && CountShown(ClientAt(s, c).log, id) == 0
  }

  // Until the relay accepts the text, all copies are on their way from the client to the
  // relay; afterwards no copy is on its way to the client.
  ghost predicate CopiesStayAway(s: System, c: Addr, r: Addr, id: u64) {
    forall p :: p in s.net && Carries(p, id) ==> if HasSeen(s, r, id) then p.dst != c else p.src == c && p.dst == r
  }

  // Nobody but the client sends a text with this id, and the relay does not forget the id.
  ghost predicate Undisturbed(s: System, act: Action, s': System, c: Addr, r: Addr, id: u64) {
    && (act.ClientSay? && act.who != c ==> act.msg.Classic? && act.msg.msgId != id)
    && (act.RelaySay? ==> act.msg.Classic? && act.msg.msgId != id)
    && (HasSeen(s, r, id) ==> HasSeen(s', r, id))
  }

  lemma NoNewCopyToClient(scheme: Identity.Scheme, s: System, act: Action, c: Addr, r: Addr, id: u64, p: Packet)
    requires Enabled(scheme, s, act) && EchoInv(s, c, r, id)
    requires Undisturbed(s, act, Apply(scheme, s, act), c, r, id)
    requires p in Emitted(scheme, s, act) && Carries(p, id) && p !in s.net
    ensures if act.ClientSay? then p.src == c && p.dst == r
            else HasSeen(Apply(scheme, s, act), r, id) && p.dst != c
  {
    if act.ClientSay? {
      ClientEmits(scheme, s, act, p);
    } else {
      assert act.Deliver? && IsRelay(s, s.net[act.i].dst);
      var q := s.net[act.i];
      RelayCopies(scheme, RelayAt(s, q.dst), act.order, q.dst, q, p);
      assert q in s.net;
      DeliveredSeen(scheme, s, act, q.dst, id);
      OnTheWire(q.dst, R.Targets(act.order, q.src), p.msg, p);
    }
  }

  lemma CopiesStayAwayKept(scheme: Identity.Scheme, s: System, act: Action, c: Addr, r: Addr, id: u64)
    requires Enabled(scheme, s, act) && EchoInv(s, c, r, id)
    requires Undisturbed(s, act, Apply(scheme, s, act), c, r, id)
    ensures CopiesStayAway(Apply(scheme, s, act), c, r, id)
  {
    var s' := Apply(scheme, s, act);
    forall p | p in s'.net && Carries(p, id)
      ensures if HasSeen(s', r, id) then p.dst != c else p.src == c && p.dst == r
    {
      InNetAfter(scheme, s, act, p);
      if p !in s.net {
        NoNewCopyToClient(scheme, s, act, c, r, id, p);
      }
    }
  }

  lemma NeverDelivered(s: System, act: Action, c: Addr, r: Addr, id: u64)
    requires EchoInv(s, c, r, id)
    ensures !DeliversTo(s, act, c, id)
  {
    if act.Deliver? && act.i < |s.net| {
      assert s.net[act.i] in s.net;
    }
  }

  lemma EchoStep(scheme: Identity.Scheme, s: System, act: Action, c: Addr, r: Addr, id: u64)
    requires Enabled(scheme, s, act) && EchoInv(s, c, r, id)
    requires Undisturbed(s, act, Apply(scheme, s, act), c, r, id)
    ensures EchoInv(Apply(scheme, s, act), c, r, id)
  {
    var s' := Apply(scheme, s, act);
    RelaysStay(scheme, s, act);
    IdentityFixed(scheme, s, act);
    assert SameIdentity(s.nodes[c], s'.nodes[c]);
    forall x | IsRelay(s', x) && c in RelayAt(s', x).peers
      ensures x == r
    {
      if c !in RelayAt(s, x).peers {
        PeersGrow(scheme, s, act, x, c);
        assert s.net[act.i] in s.net;
      }
    }
    forall p | p in s'.net && p.src == c
      ensures p.dst == r
    {
      InNetAfter(scheme, s, act, p);
      if p !in s.net {
        ClientEmits(scheme, s, act, p);
      }
    }
    CopiesStayAwayKept(scheme, s, act, c, r, id);
    NeverDelivered(s, act, c, r, id);
    ShowsOnlyDelivered(scheme, s, act, c, id);
  }

  ghost predicate EchoRun(scheme: Identity.Scheme, states: seq<System>, actions: seq<Action>, c: Addr, r: Addr,
                          id: u64)
  {
    && IsRun(scheme, states, actions)
    && (forall k :: 0 <= k < |actions| ==> Undisturbed(states[k], actions[k], states[k + 1], c, r, id))
    && SingleHomed(states[0], c, r)
    && !HasSeen(states[0], r, id)
    && (forall p :: p in states[0].net ==> !Carries(p, id))
    && CountShown(ClientAt(states[0], c).log, id) == 0
  }

  // The client uses one relay only, and so far has been in touch with no other.
  ghost predicate SingleHomed(s: System, c: Addr, r: Addr) {
    && IsClient(s, c)
    && IsRelay(s, r)
    && (forall b :: b in ClientAt(s, c).relays ==> b == r)
    && (forall x :: IsRelay(s, x) && c in RelayAt(s, x).peers ==> x == r)
    && (forall p :: p in s.net && p.src == c ==> p.dst == r)
  }

  // At no point of the run is a copy of the text on its way back to its author, and the
  // author never displays it as received. Copies may be lost, duplicated and reordered,
  // relays may join, leave and forget, and the federation may be any graph.
  lemma {:induction false} NoEcho(scheme: Identity.Scheme, states: seq<System>, actions: seq<Action>, c: Addr, r: Addr,
                                  id: u64, k: nat)
    requires EchoRun(scheme, states, actions, c, r, id) && k <= |actions|
    ensures EchoInv(states[k], c, r, id)
    ensures forall p :: p in states[k].net && Carries(p, id) ==> p.dst != c
    ensures CountShown(ClientAt(states[k], c).log, id) == 0
  {
    if k > 0 {
      NoEcho(scheme, states, actions, c, r, id, k - 1);
      assert StepAt(scheme, states, actions, k - 1);
      EchoStep(scheme, states[k - 1], actions[k - 1], c, r, id);
    }
  }

  // ---------- clients with several relays ----------

  // The client lists itself as a relay; or a route of at least two distinct relays, short enough
  // to leave ttl, leads from it to one that has it registered.
  ghost predicate HearsItself(s: System, c: Addr)
    requires IsClient(s, c)
  {
    c in ClientAt(s, c).relays || exists route :: EchoRoute(s, c, route)
  }

  ghost predicate EchoRoute(s: System, c: Addr, route: seq<Addr>) {
    && IsRoute(s, c, route)
    && S.NoRepeats(route)
    && 2 <= |route| <= INITIAL_TTL
    && c in RelayAt(s, route[|route| - 1]).peers
  }

  // Some run makes the author display its own text as received.
  ghost predicate CanEcho(scheme: Identity.Scheme, s: System, orig: Message, c: Addr) {
    exists end :: Leads(scheme, orig, c, s, end) && IsClient(end, c) && CountShown(ClientAt(end, c).log, orig.msgId) > 0
  }

  // A copy that is on its way to a client that does not know it can be displayed next.
  lemma CopyShows(scheme: Identity.Scheme, s: System, s': System, orig: Message, c: Addr, p: Packet)
    requires Original(scheme, orig) && Leads(scheme, orig, c, s, s') && NoKeyClash(s', orig.msgId)
    requires IsClient(s', c) && !HasSeen(s', c, orig.msgId)
    requires p in s'.net && p.dst == c && Carries(p, orig.msgId)
    ensures CanEcho(scheme, s, orig, c)
  {
    var act := CanDeliver(scheme, s', p);
    DeliveryIsCalm(scheme, s', act.i, act.order, orig.msgId);
    LeadsKeeps(scheme, orig, c, s, s');
    assert GoodCopy(s', orig, c, p);
    ClientShowsOnce(scheme, s', act.i, act.order, orig);
    LeadsOn(scheme, orig, c, s, s', act, Apply(scheme, s', act));
  }

  lemma OwnRelayEchoes(scheme: Identity.Scheme, s: System, orig: Message, c: Addr)
    requires CanSay(scheme, s, orig, c) && IsClient(s, c) && c in ClientAt(s, c).relays
    ensures CanEcho(scheme, s, orig, c)
  {
    var act := SayStarts(scheme, s, orig, c);
    RelaysStay(scheme, s, act);
    SeenAfterSaying(scheme, s, act, orig, c);
    SayKeepsClear(scheme, s, orig, c, act);
    CopiesAfterSaying(scheme, s, act, orig, c, Packet(c, c, orig));
    CopyShows(scheme, s, Apply(scheme, s, act), orig, c, Packet(c, c, orig));
  }

  lemma EndSendsBack(scheme: Identity.Scheme, s: System, orig: Message, c: Addr, route: seq<Addr>, k: nat)
    returns (act: Action)
    requires Original(scheme, orig) && Moved(s, orig, c, route, k) && IsClient(s, c) && 0 < k < INITIAL_TTL
    requires IsRelay(s, route[k]) && IsRelay(s, route[k - 1]) && c in RelayAt(s, route[k]).peers
    ensures Enabled(scheme, s, act) && Calm(s, act, Apply(scheme, s, act), orig.msgId)
    ensures NoKeyClash(Apply(scheme, s, act), orig.msgId) && NoClientSaw(Apply(scheme, s, act), orig.msgId)
    ensures Packet(route[k], c, orig.(ttl := INITIAL_TTL - k - 1)) in Apply(scheme, s, act).net
  {
    act := HopIsCalm(scheme, s, orig, c, route, k);
    AnyTtlAuthentic(scheme, orig, INITIAL_TTL - k);
    CopyForwarded(scheme, s, act, CopyAt(s, orig, c, route, k), c);
  }

  lemma RouteEchoes(scheme: Identity.Scheme, s: System, orig: Message, c: Addr, route: seq<Addr>)
    requires CanSay(scheme, s, orig, c) && IsClient(s, c) && EchoRoute(s, c, route)
    ensures CanEcho(scheme, s, orig, c)
  {
    var k := |route| - 1;
    var s1 := GoesAlong(scheme, s, orig, c, route, k);
    LeadsKeeps(scheme, orig, c, s, s1);
    PeersStay(s, s1, route[k], c);
    assert IsRelay(s1, route[k]) && IsRelay(s1, route[k - 1]);
    var act := EndSendsBack(scheme, s1, orig, c, route, k);
    var s2 := Apply(scheme, s1, act);
    LeadsOn(scheme, orig, c, s, s1, act, s2);
    LeadsKeeps(scheme, orig, c, s, s2);
    CopyShows(scheme, s, s2, orig, c, Packet(route[k], c, orig.(ttl := INITIAL_TTL - k - 1)));
  }

  // A copy that reaches its author has come along such a route.
  lemma CopyToAuthor(s: System, s': System, orig: Message, c: Addr, p: Packet)
    requires SameLinks(s, s') && CopiesGood(s', orig, c) && IsClient(s, c)
    requires p in s'.net && p.dst == c && Carries(p, orig.msgId)
    ensures HearsItself(s, c)
  {
    assert GoodCopy(s', orig, c, p);
    if !FromAuthor(s', c, p) {
      var chain :| IsChain(s', orig.msgId, c, chain, p.src) && |chain| + p.msg.ttl == Reach(s', c);
      RouteStays(s, s', c, chain);
      PeersStay(s, s', p.src, c);
      assert EchoRoute(s, c, chain);
    }
  }

  lemma DeliveredHearsItself(scheme: Identity.Scheme, states: seq<System>, actions: seq<Action>, orig: Message, c: Addr,
                             k: nat)
    requires FloodRun(scheme, states, actions, orig, c) && IsClient(states[0], c) && k < |actions|
    requires DeliversTo(states[k], actions[k], c, orig.msgId)
    ensures HearsItself(states[0], c)
  {
    LinksStayAlways(scheme, states, actions, orig, c, k);
    CopiesGoodAlways(scheme, states, actions, orig, c, k);
    CopyToAuthor(states[0], states[k], orig, c, states[k].net[actions[k].i]);
  }

  // A displayed text was delivered.
  lemma {:induction false} ShownWasDelivered(scheme: Identity.Scheme, states: seq<System>, actions: seq<Action>,
                                             orig: Message, c: Addr, k: nat)
    requires FloodRun(scheme, states, actions, orig, c) && IsClient(states[0], c) && k <= |actions|
    requires IsClient(states[k], c) && CountShown(ClientAt(states[k], c).log, orig.msgId) > 0
    ensures HearsItself(states[0], c)
  {
    if k > 0 {
      var s, act := states[k - 1], actions[k - 1];
      assert StepAt(scheme, states, actions, k - 1);
      LinksStayAlways(scheme, states, actions, orig, c, k - 1);
      if DeliversTo(s, act, c, orig.msgId) {
        DeliveredHearsItself(scheme, states, actions, orig, c, k - 1);
      } else {
        ShowsOnlyDelivered(scheme, s, act, c, orig.msgId);
        ShownWasDelivered(scheme, states, actions, orig, c, k - 1);
      }
    }
  }

  // A client can be shown its own text exactly if it hears itself; for a client with two relays
  // of which one has the other registered that is so.
  lemma EchoIff(scheme: Identity.Scheme, s: System, orig: Message, c: Addr)
    requires CanSay(scheme, s, orig, c) && IsClient(s, c)
    ensures CanEcho(scheme, s, orig, c) <==> HearsItself(s, c)
  {
    if HearsItself(s, c) {
      if c in ClientAt(s, c).relays {
        OwnRelayEchoes(scheme, s, orig, c);
      } else {
        var route :| EchoRoute(s, c, route);
        RouteEchoes(scheme, s, orig, c, route);
      }
    }
    if CanEcho(scheme, s, orig, c) {
      var end :| Leads(scheme, orig, c, s, end) && IsClient(end, c) && CountShown(ClientAt(end, c).log, orig.msgId) > 0;
      var states, actions :| FloodsTo(scheme, states, actions, orig, c, s, end);
      ShownWasDelivered(scheme, states, actions, orig, c, |actions|);
    }
  }

  lemma TwoLinkedRelaysEcho(s: System, c: Addr, r1: Addr, r2: Addr)
    requires IsClient(s, c) && r1 in ClientAt(s, c).relays && r1 != r2
    requires IsRelay(s, r1) && IsRelay(s, r2) && r2 in RelayAt(s, r1).peers && c in RelayAt(s, r2).peers
    ensures HearsItself(s, c)
  {
    assert EchoRoute(s, c, [r1, r2]);
  }
}
