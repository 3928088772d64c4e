// Runs in which a text floods, built step by step: along a given route, and until no copy is
// in flight. They show that the condition of the coverage theorem is exact, and when a client
// gets its own text back.

module FloodRuns {
  import opened Words
  import opened Messages
  import opened DedupKeys
  import opened Network
  import opened Flood
  import Identity
  import S = SeenIds
  import R = Relays
  import T = Termination

  // ---------- a run, step by step ----------

  // A run of the coverage theorem leads from one state to the other.
  ghost predicate FloodsTo(scheme: Identity.Scheme, states: seq<System>, actions: seq<Action>, orig: Message,
                           author: Addr, s: System, s': System)
  {
    && FloodRun(scheme, states, actions, orig, author)
    && states[0] == s
    && states[|actions|] == s'
  }

  ghost predicate Leads(scheme: Identity.Scheme, orig: Message, author: Addr, s: System, s': System) {
    exists states, actions :: FloodsTo(scheme, states, actions, orig, author, s, s')
  }

  lemma LeadsFirst(scheme: Identity.Scheme, orig: Message, author: Addr, s: System, act: Action, s': System)
    requires Enabled(scheme, s, act) && s' == Apply(scheme, s, act)
    requires orig.Classic? && Authors(act, orig, author) && Unused(s, orig.msgId)
    ensures Leads(scheme, orig, author, s, s')
  {
    assert StepAt(scheme, [s, s'], [act], 0);
    assert FloodsTo(scheme, [s, s'], [act], orig, author, s, s');
  }

  lemma LeadsOn(scheme: Identity.Scheme, orig: Message, author: Addr, s: System, s': System, act: Action, next: System)
    requires Leads(scheme, orig, author, s, s') && Enabled(scheme, s', act) && next == Apply(scheme, s', act)
    requires orig.Classic? && Calm(s', act, next, orig.msgId)
    ensures Leads(scheme, orig, author, s, next)
  {
    var states, actions :| FloodsTo(scheme, states, actions, orig, author, s, s');
    RunAppend(scheme, states, actions, act);
    CalmAppend(states, actions, next, act, orig.msgId);
    assert FloodsTo(scheme, states + [next], actions + [act], orig, author, s, next);
  }

  lemma CalmAppend(states: seq<System>, actions: seq<Action>, s': System, act: Action, id: u64)
    requires |states| == |actions| + 1 && Calm(states[|actions|], act, s', id)
    requires forall k :: 0 < k < |actions| ==> CalmAt(states, actions, id, k)
    ensures forall k :: 0 < k <= |actions| ==> CalmAt(states + [s'], actions + [act], id, k)
  {
    forall k | 0 < k <= |actions|
      ensures CalmAt(states + [s'], actions + [act], id, k)
    {
      assert k < |actions| ==> CalmAt(states, actions, id, k);
    }
  }

  // Where such a run leads, copies are good and links are what they were.
  lemma LeadsKeeps(scheme: Identity.Scheme, orig: Message, author: Addr, s: System, s': System)
    requires Leads(scheme, orig, author, s, s')
    ensures CopiesGood(s', orig, author) && SameLinks(s, s')
  {
    var states, actions :| FloodsTo(scheme, states, actions, orig, author, s, s');
    CopiesGoodAlways(scheme, states, actions, orig, author, |actions|);
    LinksStayAlways(scheme, states, actions, orig, author, |actions|);
  }

  // ---------- delivering a copy ----------

  // Delivering a copy disturbs nothing.
  lemma DeliveryIsCalm(scheme: Identity.Scheme, s: System, i: nat, order: seq<Addr>, id: u64)
    requires Enabled(scheme, s, Deliver(i, order)) && Carries(s.net[i], id) && NoKeyClash(s, id)
    ensures Calm(s, Deliver(i, order), Apply(scheme, s, Deliver(i, order)), id)
    ensures NoKeyClash(Apply(scheme, s, Deliver(i, order)), id)
  {
    var act := Deliver(i, order);
    var s' := Apply(scheme, s, act);
    forall a | HasSeen(s, a, id)
      ensures HasSeen(s', a, id)
    {
      if s.net[i].dst == a {
        DeliveredSeen(scheme, s, act, a, id);
      }
    }
    forall p | p in s'.net
      ensures p.msg.Payment? ==> Key(Pay, p.msg.paymentId) != id
      ensures p.msg.PaymentAck? ==> Key(Ack, p.msg.paymentId) != id
    {
      InNetAfter(scheme, s, act, p);
      if p in Emitted(scheme, s, act) {
        TextsBegetTexts(scheme, s, i, order, p);
      }
    }
  }

  lemma TextsBegetTexts(scheme: Identity.Scheme, s: System, i: nat, order: seq<Addr>, p: Packet)
    requires Enabled(scheme, s, Deliver(i, order)) && s.net[i].msg.Classic?
    requires p in Emitted(scheme, s, Deliver(i, order))
    ensures p.msg.Classic?
  {
  }

  // An action that delivers this copy.
  lemma CanDeliver(scheme: Identity.Scheme, s: System, p: Packet) returns (act: Action)
    requires p in s.net
    ensures act.Deliver? && Enabled(scheme, s, act) && s.net[act.i] == p
  {
    var i :| 0 <= i < |s.net| && s.net[i] == p;
    if IsRelay(s, p.dst) {
      var order := R.OrderExists(RelayAt(s, p.dst).peers.Keys);
      act := Deliver(i, order);
    } else {
      act := Deliver(i, []);
    }
  }

  // No client has seen or displayed the text.
  ghost predicate NoClientSaw(s: System, id: u64) {
    forall a :: IsClient(s, a) ==> !HasSeen(s, a, id) && CountShown(ClientAt(s, a).log, id) == 0
  }

  // A delivery at a relay changes what that relay has seen, and nothing else.
  lemma OnlyThereSeen(scheme: Identity.Scheme, s: System, act: Action, a: Addr, id: u64)
    requires Enabled(scheme, s, act) && act.Deliver? && Carries(s.net[act.i], id) && NoKeyClash(s, id)
    requires a != s.net[act.i].dst
    ensures HasSeen(Apply(scheme, s, act), a, id) <==> HasSeen(s, a, id)
  {
    DeliveryIsCalm(scheme, s, act.i, act.order, id);
    if IsNode(s, a) {
      SeenOnlyOnDelivery(scheme, s, act, a, id);
    }
    IdentityFixed(scheme, s, act);
  }

  lemma ClientsStayUnaware(scheme: Identity.Scheme, s: System, act: Action, id: u64)
    requires Enabled(scheme, s, act) && act.Deliver? && Carries(s.net[act.i], id) && NoKeyClash(s, id)
    requires IsRelay(s, s.net[act.i].dst) && NoClientSaw(s, id)
    ensures NoClientSaw(Apply(scheme, s, act), id)
  {
    RelaysStay(scheme, s, act);
    forall a | IsClient(Apply(scheme, s, act), a)
      ensures !HasSeen(Apply(scheme, s, act), a, id) && CountShown(ClientAt(Apply(scheme, s, act), a).log, id) == 0
    {
      OnlyThereSeen(scheme, s, act, a, id);
      ShowsOnlyDelivered(scheme, s, act, a, id);
    }
  }

  // ---------- along a route ----------

  // The author may send this text now: it is signed, bears its name, and its id is fresh.
  ghost predicate CanSay(scheme: Identity.Scheme, s: System, orig: Message, author: Addr) {
    && Original(scheme, orig)
    && Unused(s, orig.msgId)
    && NoKeyClash(s, orig.msgId)
    && (|| (IsClient(s, author) && orig.srcId == ClientAt(s, author).peerId)
        || (IsRelay(s, author) && orig.srcId == RelayAt(s, author).myId))
  }

  // How many relays of a route know the text once its author has sent it.
  function First(s: System, author: Addr): nat {
    if IsRelay(s, author) then 1 else 0
  }

  function CopyAt(s: System, orig: Message, author: Addr, route: seq<Addr>, k: nat): Packet
    requires orig.Classic? && k < |route| && k <= Reach(s, author) <= k + INITIAL_TTL
  {
    Packet(if k == 0 then author else route[k - 1], route[k], orig.(ttl := Reach(s, author) - k))
  }

  // The first k relays of the route have accepted the text, the others have not, and a copy is
  // on its way to the next one.
  ghost predicate Moved(s: System, orig: Message, author: Addr, route: seq<Addr>, k: nat) {
    && orig.Classic?
    && k < |route|
    && First(s, author) <= k <= Reach(s, author)
    && CopyAt(s, orig, author, route, k) in s.net
    && (forall j :: k <= j < |route| ==> !HasSeen(s, route[j], orig.msgId))
    && NoKeyClash(s, orig.msgId)
    && NoClientSaw(s, orig.msgId)
  }

  lemma SayStarts(scheme: Identity.Scheme, s: System, orig: Message, author: Addr) returns (act: Action)
    requires CanSay(scheme, s, orig, author)
    ensures Enabled(scheme, s, act) && Authors(act, orig, author)
    ensures Leads(scheme, orig, author, s, Apply(scheme, s, act))
  {
    if IsClient(s, author) {
      act := ClientSay(author, orig);
    } else {
      var order := R.OrderExists(RelayAt(s, author).peers.Keys);
      act := RelaySay(author, orig, order);
    }
    LeadsFirst(scheme, orig, author, s, act, Apply(scheme, s, act));
  }

  // What the author sends makes no clash.
  lemma SayKeepsClear(scheme: Identity.Scheme, s: System, orig: Message, author: Addr, act: Action)
    requires CanSay(scheme, s, orig, author) && Enabled(scheme, s, act) && Authors(act, orig, author)
    ensures NoKeyClash(Apply(scheme, s, act), orig.msgId)
  {
    forall p | p in Apply(scheme, s, act).net
      ensures p in s.net || p.msg.Classic?
    {
      InNetAfter(scheme, s, act, p);
    }
  }

  // The author's copy to the first relay of the route that is not the author.
  lemma SayPuts(scheme: Identity.Scheme, s: System, orig: Message, author: Addr, route: seq<Addr>, act: Action)
    requires CanSay(scheme, s, orig, author) && IsRoute(s, author, route) && First(s, author) < |route|
    requires Enabled(scheme, s, act) && Authors(act, orig, author)
    ensures CopyAt(s, orig, author, route, First(s, author)) in Apply(scheme, s, act).net
  {
    var k := First(s, author);
    if act.RelaySay? {
      RelayAudience(s, act);
      assert route[k] in RelayAt(s, route[k - 1]).peers && IsRelay(s, route[k]);
    }
    assert orig.(ttl := INITIAL_TTL) == orig;
    CopiesAfterSaying(scheme, s, act, orig, author, CopyAt(s, orig, author, route, k));
  }

  lemma SayMoves(scheme: Identity.Scheme, s: System, orig: Message, author: Addr, route: seq<Addr>) returns (s': System)
    requires CanSay(scheme, s, orig, author) && IsRoute(s, author, route) && S.NoRepeats(route)
    requires First(s, author) < |route|
    ensures Leads(scheme, orig, author, s, s') && Moved(s', orig, author, route, First(s, author))
  {
    var act := SayStarts(scheme, s, orig, author);
    s' := Apply(scheme, s, act);
    SayKeepsClear(scheme, s, orig, author, act);
    SayPuts(scheme, s, orig, author, route, act);
    SayLeavesUnseen(scheme, s, orig, author, route, act);
    assert CopyAt(s', orig, author, route, First(s, author)) == CopyAt(s, orig, author, route, First(s, author));
  }

  lemma SayLeavesUnseen(scheme: Identity.Scheme, s: System, orig: Message, author: Addr, route: seq<Addr>, act: Action)
    requires CanSay(scheme, s, orig, author) && IsRoute(s, author, route) && S.NoRepeats(route)
    requires Enabled(scheme, s, act) && Authors(act, orig, author)
    ensures forall j :: First(s, author) <= j < |route| ==> !HasSeen(Apply(scheme, s, act), route[j], orig.msgId)
    ensures NoClientSaw(Apply(scheme, s, act), orig.msgId)
    ensures IsRelay(s, author) <==> IsRelay(Apply(scheme, s, act), author)
  {
    RelaysStay(scheme, s, act);
    SeenAfterSaying(scheme, s, act, orig, author);
    forall j | First(s, author) <= j < |route|
      ensures !HasSeen(Apply(scheme, s, act), route[j], orig.msgId)
    {
      assert IsRelay(s, author) ==> route[0] == author && route[j] != route[0];
    }
  }

  // A relay that accepts a copy with ttl left sends one to each of its other peers.
  lemma CopyForwarded(scheme: Identity.Scheme, s: System, act: Action, p: Packet, b: Addr)
    requires Enabled(scheme, s, act) && act.Deliver? && s.net[act.i] == p && IsRelay(s, p.dst)
    requires p.msg.Classic? && Authentic(scheme, p.msg) && p.msg.ttl > 0 && !HasSeen(s, p.dst, p.msg.msgId)
    requires b in RelayAt(s, p.dst).peers && b != p.src
    ensures Packet(p.dst, b, p.msg.(ttl := p.msg.ttl - 1)) in Apply(scheme, s, act).net
  {
    var fwd := p.msg.(ttl := p.msg.ttl - 1);
    OnTheWire(p.dst, R.Targets(act.order, p.src), fwd, Packet(p.dst, b, fwd));
    assert b in RelayAt(s, p.dst).peers.Keys && b in act.order;
    InNetAfter(scheme, s, act, Packet(p.dst, b, fwd));
  }

  // Delivering the copy that has gone along the route.
  lemma HopIsCalm(scheme: Identity.Scheme, s: System, orig: Message, author: Addr, route: seq<Addr>, k: nat)
    returns (act: Action)
    requires Original(scheme, orig) && Moved(s, orig, author, route, k) && IsRelay(s, route[k])
    ensures Enabled(scheme, s, act) && act.Deliver? && s.net[act.i] == CopyAt(s, orig, author, route, k)
    ensures Calm(s, act, Apply(scheme, s, act), orig.msgId)
    ensures NoKeyClash(Apply(scheme, s, act), orig.msgId) && NoClientSaw(Apply(scheme, s, act), orig.msgId)
  {
    act := CanDeliver(scheme, s, CopyAt(s, orig, author, route, k));
    DeliveryIsCalm(scheme, s, act.i, act.order, orig.msgId);
    ClientsStayUnaware(scheme, s, act, orig.msgId);
  }

  // It is forwarded to the next relay of the route,
  lemma HopForwards(scheme: Identity.Scheme, s: System, act: Action, orig: Message, author: Addr, route: seq<Addr>,
                    k: nat)
    requires Original(scheme, orig) && Moved(s, orig, author, route, k) && S.NoRepeats(route)
    requires IsRoute(s, author, route) && k + 1 < |route| && k < Reach(s, author)
    requires Enabled(scheme, s, act) && act.Deliver? && s.net[act.i] == CopyAt(s, orig, author, route, k)
    ensures CopyAt(s, orig, author, route, k + 1) in Apply(scheme, s, act).net
  {
    RouteGoesOn(s, author, route, k);
    AnyTtlAuthentic(scheme, orig, Reach(s, author) - k);
    CopyForwarded(scheme, s, act, CopyAt(s, orig, author, route, k), route[k + 1]);
    NextCopy(s, orig, author, route, k);
  }

  lemma RouteGoesOn(s: System, author: Addr, route: seq<Addr>, k: nat)
    requires IsRoute(s, author, route) && S.NoRepeats(route) && First(s, author) <= k && k + 1 < |route|
    ensures IsRelay(s, route[k]) && route[k + 1] in RelayAt(s, route[k]).peers
    ensures route[k + 1] != if k == 0 then author else route[k - 1]
  {
    assert IsRelay(s, route[k]) && IsRelay(s, route[k + 1]);
  }

  lemma AnyTtlAuthentic(scheme: Identity.Scheme, orig: Message, ttl: byte)
    requires Original(scheme, orig)
    ensures Authentic(scheme, orig.(ttl := ttl))
  {
  }

  lemma NextCopy(s: System, orig: Message, author: Addr, route: seq<Addr>, k: nat)
    requires orig.Classic? && k + 1 < |route| && k < Reach(s, author) <= k + INITIAL_TTL
    ensures var p := CopyAt(s, orig, author, route, k);
            Packet(p.dst, route[k + 1], p.msg.(ttl := p.msg.ttl - 1)) == CopyAt(s, orig, author, route, k + 1)
  {
  }

  // which, like the ones after it, still knows nothing of it.
  lemma RestUnaware(scheme: Identity.Scheme, s: System, act: Action, orig: Message, author: Addr, route: seq<Addr>,
                    k: nat)
    requires Moved(s, orig, author, route, k) && S.NoRepeats(route)
    requires Enabled(scheme, s, act) && act.Deliver? && s.net[act.i] == CopyAt(s, orig, author, route, k)
    ensures forall j :: k < j < |route| ==> !HasSeen(Apply(scheme, s, act), route[j], orig.msgId)
  {
    forall j | k < j < |route|
      ensures !HasSeen(Apply(scheme, s, act), route[j], orig.msgId)
    {
      OnlyThereSeen(scheme, s, act, route[j], orig.msgId);
    }
  }

  lemma HopMoves(scheme: Identity.Scheme, s: System, act: Action, orig: Message, author: Addr, route: seq<Addr>, k: nat)
    requires Original(scheme, orig) && Moved(s, orig, author, route, k) && S.NoRepeats(route)
    requires IsRoute(s, author, route) && k + 1 < |route| && k < Reach(s, author)
    requires Enabled(scheme, s, act) && act.Deliver? && s.net[act.i] == CopyAt(s, orig, author, route, k)
    requires NoKeyClash(Apply(scheme, s, act), orig.msgId) && NoClientSaw(Apply(scheme, s, act), orig.msgId)
    ensures Moved(Apply(scheme, s, act), orig, author, route, k + 1)
  {
    RelaysStay(scheme, s, act);
    HopForwards(scheme, s, act, orig, author, route, k);
    RestUnaware(scheme, s, act, orig, author, route, k);
    NextMoved(s, Apply(scheme, s, act), orig, author, route, k);
  }

  lemma NextMoved(s: System, s': System, orig: Message, author: Addr, route: seq<Addr>, k: nat)
    requires Moved(s, orig, author, route, k) && k + 1 < |route| && k < Reach(s, author)
    requires IsRelay(s, author) <==> IsRelay(s', author)
    requires CopyAt(s, orig, author, route, k + 1) in s'.net
    requires forall j :: k < j < |route| ==> !HasSeen(s', route[j], orig.msgId)
    requires NoKeyClash(s', orig.msgId) && NoClientSaw(s', orig.msgId)
    ensures Moved(s', orig, author, route, k + 1)
  {
    assert CopyAt(s', orig, author, route, k + 1) == CopyAt(s, orig, author, route, k + 1);
  }

  // A text can go along any route of distinct relays before any other copy arrives anywhere.
  lemma {:induction false} GoesAlong(scheme: Identity.Scheme, s: System, orig: Message, author: Addr, route: seq<Addr>,
                                     k: nat) returns (s': System)
    requires CanSay(scheme, s, orig, author) && IsRoute(s, author, route) && S.NoRepeats(route)
    requires First(s, author) <= k < |route| && k <= Reach(s, author)
    ensures Leads(scheme, orig, author, s, s') && Moved(s', orig, author, route, k)
    decreases k
  {
    if k == First(s, author) {
      s' := SayMoves(scheme, s, orig, author, route);
    } else {
      var before := GoesAlong(scheme, s, orig, author, route, k - 1);
      LeadsKeeps(scheme, orig, author, s, before);
      RouteStays(s, before, author, route);
      var act := HopIsCalm(scheme, before, orig, author, route, k - 1);
      s' := Apply(scheme, before, act);
      HopMoves(scheme, before, act, orig, author, route, k - 1);
      LeadsOn(scheme, orig, author, s, before, act, s');
    }
  }
}
