// Coverage: if no route of distinct relays from its author is longer than the initial ttl
// allows for, a text floods to every reachable relay and is displayed exactly once by every
// client registered there.

module Flood {
  import opened Words
  import opened Messages
  import opened DedupKeys
  import opened Network
  import opened Memory
  import Identity
  import S = SeenIds
  import R = Relays
  import C = Clients

  predicate Carries(p: Packet, id: u64) {
    p.msg.Classic? && p.msg.msgId == id
  }

  predicate HasSeen(s: System, a: Addr, id: u64) {
    IsNode(s, a) && id in Seen(s.nodes[a])
  }

  ghost predicate InFlightTo(s: System, a: Addr, id: u64) {
    exists p :: p in s.net && p.dst == a && Carries(p, id)
  }

  function CountShown(log: seq<C.Line>, id: u64): nat {
    C.Count(log, C.ShownLine, id)
  }

  // No trace of this id anywhere.
  ghost predicate Unused(s: System, id: u64) {
    && (forall p :: p in s.net ==> !Carries(p, id))
    && (forall a :: IsNode(s, a) ==> !HasSeen(s, a, id))
    && (forall a :: IsClient(s, a) ==> CountShown(ClientAt(s, a).log, id) == 0)
  }

  // No payment in flight has a dedup key equal to this text's.
  ghost predicate NoKeyClash(s: System, id: u64) {
    forall p :: p in s.net ==>
      && (p.msg.Payment? ==> Key(Pay, p.msg.paymentId) != id)
      && (p.msg.PaymentAck? ==> Key(Ack, p.msg.paymentId) != id)
  }

  ghost predicate SamePeers(s: System, s': System) {
    forall a :: IsRelay(s, a) && IsRelay(s', a) ==> RelayAt(s', a).peers.Keys == RelayAt(s, a).peers.Keys
  }

  ghost predicate KeepsSeen(s: System, s': System, id: u64) {
    forall a :: HasSeen(s, a, id) ==> HasSeen(s', a, id)
  }

  // A step that reuses the id nowhere, loses no copy of the text, evicts its id from no
  // cache, and leaves the sets of registered peers as they are.
  ghost predicate Calm(s: System, a: Action, s': System, id: u64) {
    && (a.ClientSay? || a.RelaySay? ==> a.msg.Classic? && a.msg.msgId != id)
    && (a.Drop? && a.i < |s.net| ==> !Carries(s.net[a.i], id))
    && KeepsSeen(s, s', id)
    && SamePeers(s, s')
    && NoKeyClash(s, id)
  }

  // ---------- the invariant ----------

  // Relays reached from the author along entries of peer tables.
  ghost predicate IsRoute(s: System, author: Addr, route: seq<Addr>) {
    && route != []
    && (if IsClient(s, author) then route[0] in ClientAt(s, author).relays else route[0] == author)
    && (forall i :: 0 <= i < |route| ==> IsRelay(s, route[i]))
    && forall i :: 0 < i < |route| ==> route[i] in RelayAt(s, route[i - 1]).peers
  }

  // How many relays a text can pass: a relay's own texts start with the full ttl beyond it.
  function Reach(s: System, author: Addr): nat {
    if IsRelay(s, author) then INITIAL_TTL + 1 else INITIAL_TTL
  }

  // No route of distinct relays is longer than that.
  ghost predicate RoutesFit(s: System, author: Addr) {
    forall route :: IsRoute(s, author, route) && S.NoRepeats(route) ==> |route| <= Reach(s, author)
  }

  // A route of distinct relays that all accepted the text, ending in `last`.
  ghost predicate IsChain(s: System, id: u64, author: Addr, chain: seq<Addr>, last: Addr) {
    && IsRoute(s, author, chain)
    && S.NoRepeats(chain)
    && chain[|chain| - 1] == last
    && forall i :: 0 <= i < |chain| ==> HasSeen(s, chain[i], id)
  }

  // The author, a client, sent this copy to one of its relays.
  predicate FromAuthor(s: System, author: Addr, p: Packet) {
    && IsClient(s, author)
    && p.src == author
    && p.dst in ClientAt(s, author).relays
    && p.msg.Classic?
    && p.msg.ttl == INITIAL_TTL
  }

  // A relay sent this copy to one of its peers, and the ttl has paid for a chain of relays that
  // accepted the text one after the other. The first of them does not send it back.
  ghost predicate FromChain(s: System, id: u64, author: Addr, p: Packet) {
    && p.msg.Classic?
    && IsRelay(s, p.src)
    && p.dst in RelayAt(s, p.src).peers
    && (exists chain :: IsChain(s, id, author, chain, p.src) && |chain| + p.msg.ttl == Reach(s, author))
    && (p.dst == author && IsClient(s, author) ==> p.msg.ttl + 1 < INITIAL_TTL)
  }

  // A copy differs from the original in its ttl only.
  ghost predicate GoodCopy(s: System, orig: Message, author: Addr, p: Packet)
    requires orig.Classic?
  {
    && p.msg.Classic?
    && p.msg == orig.(ttl := p.msg.ttl)
    && (FromAuthor(s, author, p) || FromChain(s, orig.msgId, author, p))
  }

  ghost predicate CopiesGood(s: System, orig: Message, author: Addr) {
    && orig.Classic?
    && IsNode(s, author)
    && forall p :: p in s.net && Carries(p, orig.msgId) ==> GoodCopy(s, orig, author, p)
  }

  // Reached, about to be reached, or not to be reached at all.
  ghost predicate Covered(s: System, a: Addr, id: u64, author: Addr) {
    a == author || !IsNode(s, a) || HasSeen(s, a, id) || InFlightTo(s, a, id)
  }

  ghost predicate PeersCovered(s: System, a: Addr, id: u64, author: Addr)
    requires IsRelay(s, a)
  {
    forall b :: b in RelayAt(s, a).peers ==> Covered(s, b, id, author)
  }

  ghost predicate FloodInv(s: System, orig: Message, author: Addr) {
    && CopiesGood(s, orig, author)
    && (forall a :: IsRelay(s, a) && HasSeen(s, a, orig.msgId) ==> PeersCovered(s, a, orig.msgId, author))
    && (IsRelay(s, author) ==> HasSeen(s, author, orig.msgId))
    && (IsClient(s, author) ==>
          forall i :: 0 <= i < |ClientAt(s, author).relays| ==>
                        Covered(s, ClientAt(s, author).relays[i], orig.msgId, author))
    && ShownOnce(s, orig.msgId)
  }

  // A client has displayed the text once if it has seen it, and not at all otherwise.
  ghost predicate ShownOnce(s: System, id: u64) {
    forall a :: IsClient(s, a) ==> CountShown(ClientAt(s, a).log, id) == if HasSeen(s, a, id) then 1 else 0
  }

  // ---------- steps ----------

  // The text is delivered by this step to address a.
  predicate DeliversTo(s: System, act: Action, a: Addr, id: u64) {
    act.Deliver? && act.i < |s.net| && s.net[act.i].dst == a && Carries(s.net[act.i], id)
  }

  // No cache loses the id in a run in which every cache still has room.
  lemma RoomKeepsSeen(scheme: Identity.Scheme, states: seq<System>, actions: seq<Action>, k: nat, id: u64)
    requires IsRun(scheme, states, actions) && k < |actions|
    requires forall a :: IsNode(states[0], a) ==>
                           |Seen(states[0].nodes[a])| + AcceptedBetween(states, actions, a, 0, k + 1) <= CACHE_SIZE
    ensures KeepsSeen(states[k], states[k + 1], id)
  {
    forall a | HasSeen(states[k], a, id)
      ensures HasSeen(states[k + 1], a, id)
    {
      NodeStays(scheme, states, actions, a, k);
      NodeStays(scheme, states, actions, a, k + 1);
      NothingForgottenYet(scheme, states, actions, a, id, k + 1);
      assert KnownAt(states, k, a, id);
    }
  }

  lemma CacheIgnores(scheme: Identity.Scheme, c: C.Client, m: Message, id: u64)
    requires m.Classic? ==> m.msgId != id
    requires m.Payment? ==> Key(Pay, m.paymentId) != id
    requires m.PaymentAck? ==> Key(Ack, m.paymentId) != id
    ensures id in C.Handle(scheme, c, m).client.seen ==> id in c.seen
  {
  }

  lemma RelayCacheIgnores(scheme: Identity.Scheme, r: R.Relay, order: seq<Addr>, sender: Addr, m: Message, id: u64)
    requires R.IsOrder(order, r.peers.Keys) && (m.Classic? ==> m.msgId != id)
    ensures id in R.Handle(scheme, r, order, sender, m).relay.seen ==> id in r.seen
  {
  }

  // Caches gain the id, and clients display the text, only when a copy is delivered.
  lemma SeenOnlyOnDelivery(scheme: Identity.Scheme, s: System, act: Action, a: Addr, id: u64)
    requires Enabled(scheme, s, act) && Calm(s, act, Apply(scheme, s, act), id)
    requires IsNode(s, a) && !DeliversTo(s, act, a, id)
    ensures HasSeen(Apply(scheme, s, act), a, id) <==> HasSeen(s, a, id)
  {
    if act.Deliver? && s.net[act.i].dst == a {
      var p := s.net[act.i];
      assert p in s.net;
      if IsClient(s, a) {
        CacheIgnores(scheme, ClientAt(s, a), p.msg, id);
      } else {
        RelayCacheIgnores(scheme, RelayAt(s, a), act.order, p.src, p.msg, id);
      }
    }
  }

  lemma ShowsOnlyDelivered(scheme: Identity.Scheme, s: System, act: Action, a: Addr, id: u64)
    requires Enabled(scheme, s, act) && IsClient(s, a) && !DeliversTo(s, act, a, id)
    ensures var s' := Apply(scheme, s, act);
            IsClient(s', a) && CountShown(ClientAt(s', a).log, id) == CountShown(ClientAt(s, a).log, id)
  {
    CountAfter(scheme, s, act, a, C.ShownLine, id);
  }

  lemma ClientShowsOnce(scheme: Identity.Scheme, s: System, i: nat, order: seq<Addr>, orig: Message)
    requires Enabled(scheme, s, Deliver(i, order)) && IsClient(s, s.net[i].dst)
    requires orig.Classic? && Authentic(scheme, orig) && s.net[i].msg.Classic?
    requires s.net[i].msg == orig.(ttl := s.net[i].msg.ttl)
    ensures var a, s' := s.net[i].dst, Apply(scheme, s, Deliver(i, order));
            && IsClient(s', a)
            && HasSeen(s', a, orig.msgId)
            && CountShown(ClientAt(s', a).log, orig.msgId)
            == CountShown(ClientAt(s, a).log, orig.msgId) + if HasSeen(s, a, orig.msgId) then 0 else 1
  {
    CountAfter(scheme, s, Deliver(i, order), s.net[i].dst, C.ShownLine, orig.msgId);
  }

  // Copies leave the network only by reaching their destination.
  lemma CopiesKept(scheme: Identity.Scheme, s: System, act: Action, p: Packet, id: u64)
    requires Enabled(scheme, s, act) && Calm(s, act, Apply(scheme, s, act), id)
    requires p in s.net && Carries(p, id)
    ensures var s' := Apply(scheme, s, act);
            p in s'.net || !IsNode(s, p.dst) || DeliversTo(s, act, p.dst, id)
  {
    InNetAfter(scheme, s, act, p);
    if (act.Deliver? || act.Drop?) && p != s.net[act.i] {
      StillInFlight(s.net, act.i, p);
    }
  }

  lemma RelayCopies(scheme: Identity.Scheme, r: R.Relay, order: seq<Addr>, a: Addr, p: Packet, q: Packet)
    requires R.IsOrder(order, r.peers.Keys) && q.msg.Classic?
    requires q in From(a, R.Handle(scheme, r, order, p.src, p.msg).sends)
    ensures p.msg.Classic? && p.msg.msgId !in r.seen && p.msg.ttl > 0
    ensures q.src == a && q.msg == p.msg.(ttl := p.msg.ttl - 1)
    ensures q.dst in r.peers && q.dst != p.src
  {
    OnTheWire(a, R.Targets(order, p.src), p.msg.(ttl := p.msg.ttl - 1), q);
  }

  // New copies come from a relay handling a copy it had not seen, and go to its peers but not
  // back to the sender.
  lemma NewCopies(scheme: Identity.Scheme, s: System, act: Action, p: Packet, id: u64)
    requires Enabled(scheme, s, act) && Calm(s, act, Apply(scheme, s, act), id)
    requires p in Apply(scheme, s, act).net && Carries(p, id) && p !in s.net
    ensures DeliversTo(s, act, p.src, id) && IsRelay(s, p.src) && !HasSeen(s, p.src, id)
    ensures s.net[act.i].msg.ttl > 0 && p.msg == s.net[act.i].msg.(ttl := s.net[act.i].msg.ttl - 1)
    ensures p.dst in RelayAt(s, p.src).peers && p.dst != s.net[act.i].src
  {
    InNetAfter(scheme, s, act, p);
    assert p in Emitted(scheme, s, act);
    if act.Deliver? {
      var a := s.net[act.i].dst;
      assert IsRelay(s, a);
      RelayCopies(scheme, RelayAt(s, a), act.order, a, s.net[act.i], p);
    }
  }

  // A relay that accepts a copy with ttl left sends it on to everyone but the sender.
  lemma RelayForwards(scheme: Identity.Scheme, s: System, i: nat, order: seq<Addr>, b: Addr)
    requires Enabled(scheme, s, Deliver(i, order)) && IsRelay(s, s.net[i].dst)
    requires s.net[i].msg.Classic? && Authentic(scheme, s.net[i].msg) && s.net[i].msg.ttl > 0
    requires !HasSeen(s, s.net[i].dst, s.net[i].msg.msgId)
    requires b in RelayAt(s, s.net[i].dst).peers && b != s.net[i].src
    ensures InFlightTo(Apply(scheme, s, Deliver(i, order)), b, s.net[i].msg.msgId)
  {
    var p := s.net[i];
    var targets := R.Targets(order, p.src);
    var fwd := p.msg.(ttl := p.msg.ttl - 1);
    var q := Packet(p.dst, b, fwd);
    OnTheWire(p.dst, targets, fwd, q);
    assert b in RelayAt(s, p.dst).peers.Keys && b in order;
    assert q in Apply(scheme, s, Deliver(i, order)).net;
  }

  // The tables routes run along stay as they are: whom a client talks to, and who is
  // registered with a relay.
  ghost predicate SameLinks(s: System, s': System) {
    && (forall a :: IsRelay(s, a) <==> IsRelay(s', a))
    && (forall a :: IsClient(s, a) <==> IsClient(s', a))
    && (forall a :: IsClient(s, a) ==> ClientAt(s', a).relays == ClientAt(s, a).relays)
    && SamePeers(s, s')
  }

  lemma LinksStay(scheme: Identity.Scheme, s: System, act: Action)
    requires Enabled(scheme, s, act) && SamePeers(s, Apply(scheme, s, act))
    ensures SameLinks(s, Apply(scheme, s, act))
  {
    RelaysStay(scheme, s, act);
    IdentityFixed(scheme, s, act);
    var s' := Apply(scheme, s, act);
    assert forall a :: 0 <= a < |s.nodes| ==> SameIdentity(s.nodes[a], s'.nodes[a]);
  }

  lemma PeersStay(s: System, s': System, a: Addr, b: Addr)
    requires SameLinks(s, s') && IsRelay(s, a)
    ensures b in RelayAt(s, a).peers <==> b in RelayAt(s', a).peers
  {
    assert RelayAt(s', a).peers.Keys == RelayAt(s, a).peers.Keys;
    assert b in RelayAt(s, a).peers.Keys <==> b in RelayAt(s', a).peers.Keys;
  }

  lemma RouteStays(s: System, s': System, author: Addr, route: seq<Addr>)
    requires SameLinks(s, s')
    ensures IsRoute(s, author, route) <==> IsRoute(s', author, route)
  {
    forall i | 0 < i < |route| && IsRelay(s, route[i - 1])
      ensures route[i] in RelayAt(s, route[i - 1]).peers <==> route[i] in RelayAt(s', route[i - 1]).peers
    {
      PeersStay(s, s', route[i - 1], route[i]);
    }
  }

  lemma RoutesFitStays(s: System, s': System, author: Addr)
    requires SameLinks(s, s')
    ensures RoutesFit(s, author) <==> RoutesFit(s', author)
  {
    forall route
      ensures IsRoute(s, author, route) <==> IsRoute(s', author, route)
    {
      RouteStays(s, s', author, route);
    }
  }

  // A relay that has not seen the text, reached from the last relay of a chain, makes the chain
  // a longer route of distinct relays.
  lemma ChainExtends(s: System, id: u64, author: Addr, chain: seq<Addr>, last: Addr, next: Addr)
    requires IsChain(s, id, author, chain, last) && IsRelay(s, next) && !HasSeen(s, next, id)
    requires next in RelayAt(s, last).peers
    ensures IsRoute(s, author, chain + [next]) && S.NoRepeats(chain + [next])
  {
    var longer := chain + [next];
    assert longer[0] == chain[0];
    forall i | 0 < i < |longer|
      ensures longer[i] in RelayAt(s, longer[i - 1]).peers
    {
      assert longer[i - 1] == chain[i - 1];
    }
  }

  lemma ChainKept(s: System, s': System, id: u64, author: Addr, chain: seq<Addr>, last: Addr)
    requires IsChain(s, id, author, chain, last) && KeepsSeen(s, s', id) && SameLinks(s, s')
    ensures IsChain(s', id, author, chain, last)
  {
    RouteStays(s, s', author, chain);
  }

  lemma ChainGrows(s: System, s': System, id: u64, author: Addr, chain: seq<Addr>, last: Addr, next: Addr)
    requires IsChain(s, id, author, chain, last) && IsRelay(s, next) && !HasSeen(s, next, id)
    requires next in RelayAt(s, last).peers
    requires KeepsSeen(s, s', id) && SameLinks(s, s') && HasSeen(s', next, id)
    ensures IsChain(s', id, author, chain + [next], next)
  {
    ChainExtends(s, id, author, chain, last, next);
    RouteStays(s, s', author, chain + [next]);
    forall i | 0 <= i < |chain + [next]|
      ensures HasSeen(s', (chain + [next])[i], id)
    {
      assert i < |chain| ==> HasSeen(s, chain[i], id);
    }
  }

  // A copy without ttl arrives at a relay that has not seen the text only by a route of
  // distinct relays that is too long.
  lemma NoTtlMeansLong(s: System, orig: Message, author: Addr, p: Packet) returns (route: seq<Addr>)
    requires CopiesGood(s, orig, author) && p in s.net && Carries(p, orig.msgId) && p.msg.ttl == 0
    requires IsRelay(s, p.dst) && !HasSeen(s, p.dst, orig.msgId)
    ensures IsRoute(s, author, route) && S.NoRepeats(route) && |route| == Reach(s, author) + 1
  {
    assert GoodCopy(s, orig, author, p);
    var chain :| IsChain(s, orig.msgId, author, chain, p.src) && |chain| + p.msg.ttl == Reach(s, author);
    ChainExtends(s, orig.msgId, author, chain, p.src, p.dst);
    route := chain + [p.dst];
  }

  // So if all routes fit, a copy arrives at a relay that has not seen the text with ttl left.
  lemma TtlSuffices(s: System, orig: Message, author: Addr, p: Packet)
    requires CopiesGood(s, orig, author) && p in s.net && Carries(p, orig.msgId)
    requires IsRelay(s, p.dst) && !HasSeen(s, p.dst, orig.msgId) && RoutesFit(s, author)
    ensures p.msg.ttl > 0
  {
    assert GoodCopy(s, orig, author, p);
    if p.msg.ttl == 0 {
      var route := NoTtlMeansLong(s, orig, author, p);
    }
  }

  lemma CoveredKept(scheme: Identity.Scheme, s: System, act: Action, orig: Message, author: Addr, a: Addr)
    requires Enabled(scheme, s, act) && orig.Classic? && Calm(s, act, Apply(scheme, s, act), orig.msgId)
    requires Authentic(scheme, orig) && FloodInv(s, orig, author) && Covered(s, a, orig.msgId, author)
    ensures Covered(Apply(scheme, s, act), a, orig.msgId, author)
  {
    var s' := Apply(scheme, s, act);
    IdentityFixed(scheme, s, act);
    if InFlightTo(s, a, orig.msgId) && IsNode(s, a) {
      var p :| p in s.net && p.dst == a && Carries(p, orig.msgId);
      CopiesKept(scheme, s, act, p, orig.msgId);
      if DeliversTo(s, act, a, orig.msgId) {
        DeliveredSeen(scheme, s, act, a, orig.msgId);
      }
    }
  }

  lemma DeliveredSeen(scheme: Identity.Scheme, s: System, act: Action, a: Addr, id: u64)
    requires Enabled(scheme, s, act) && IsNode(s, a) && DeliversTo(s, act, a, id)
    ensures HasSeen(Apply(scheme, s, act), a, id)
  {
  }

  lemma RelaysStay(scheme: Identity.Scheme, s: System, act: Action)
    requires Enabled(scheme, s, act)
    ensures forall a :: IsRelay(s, a) <==> IsRelay(Apply(scheme, s, act), a)
    ensures forall a :: IsClient(s, a) <==> IsClient(Apply(scheme, s, act), a)
  {
    IdentityFixed(scheme, s, act);
    var s' := Apply(scheme, s, act);
    assert forall a :: 0 <= a < |s.nodes| ==> SameIdentity(s.nodes[a], s'.nodes[a]);
  }

  lemma OldCopyKept(s: System, s': System, orig: Message, author: Addr, p: Packet)
    requires orig.Classic? && GoodCopy(s, orig, author, p) && KeepsSeen(s, s', orig.msgId) && SameLinks(s, s')
    ensures GoodCopy(s', orig, author, p)
  {
    if !FromAuthor(s, author, p) {
      var chain :| IsChain(s, orig.msgId, author, chain, p.src) && |chain| + p.msg.ttl == Reach(s, author);
      ChainKept(s, s', orig.msgId, author, chain, p.src);
      PeersStay(s, s', p.src, p.dst);
    }
  }

  // The relay that forwards a good copy ends a chain.
  lemma ForwardedChain(s: System, s': System, orig: Message, author: Addr, q: Packet) returns (chain: seq<Addr>)
    requires orig.Classic? && GoodCopy(s, orig, author, q) && KeepsSeen(s, s', orig.msgId) && SameLinks(s, s')
    requires IsRelay(s, q.dst) && !HasSeen(s, q.dst, orig.msgId) && HasSeen(s', q.dst, orig.msgId)
    ensures IsChain(s', orig.msgId, author, chain, q.dst) && |chain| + q.msg.ttl == Reach(s, author) + 1
  {
    if FromAuthor(s, author, q) {
      chain := [q.dst];
    } else {
      var before :| IsChain(s, orig.msgId, author, before, q.src) && |before| + q.msg.ttl == Reach(s, author);
      ChainGrows(s, s', orig.msgId, author, before, q.src, q.dst);
      chain := before + [q.dst];
    }
  }

  // A forwarded copy is good if the copy it answers was.
  lemma ForwardedCopyGood(s: System, s': System, orig: Message, author: Addr, q: Packet, p: Packet)
    requires orig.Classic? && GoodCopy(s, orig, author, q) && KeepsSeen(s, s', orig.msgId) && SameLinks(s, s')
    requires IsRelay(s, p.src) && !HasSeen(s, p.src, orig.msgId) && HasSeen(s', p.src, orig.msgId)
    requires q.dst == p.src && p.dst in RelayAt(s, p.src).peers && p.dst != q.src
    requires q.msg.ttl > 0 && p.msg == q.msg.(ttl := q.msg.ttl - 1)
    ensures GoodCopy(s', orig, author, p)
  {
    var chain := ForwardedChain(s, s', orig, author, q);
    PeersStay(s, s', p.src, p.dst);
    assert FromChain(s', orig.msgId, author, p);
  }

  lemma GoodCopyKept(scheme: Identity.Scheme, s: System, act: Action, orig: Message, author: Addr, p: Packet)
    requires Enabled(scheme, s, act) && orig.Classic? && Calm(s, act, Apply(scheme, s, act), orig.msgId)
    requires CopiesGood(s, orig, author)
    requires p in Apply(scheme, s, act).net && Carries(p, orig.msgId)
    ensures GoodCopy(Apply(scheme, s, act), orig, author, p)
  {
    var s' := Apply(scheme, s, act);
    LinksStay(scheme, s, act);
    if p in s.net {
      OldCopyKept(s, s', orig, author, p);
    } else {
      NewCopies(scheme, s, act, p, orig.msgId);
      DeliveredSeen(scheme, s, act, p.src, orig.msgId);
      ForwardedCopyGood(s, s', orig, author, s.net[act.i], p);
    }
  }

  // Whatever the lengths of routes, copies stay good.
  lemma CopiesStayGood(scheme: Identity.Scheme, s: System, act: Action, orig: Message, author: Addr)
    requires Enabled(scheme, s, act) && orig.Classic? && Calm(s, act, Apply(scheme, s, act), orig.msgId)
    requires CopiesGood(s, orig, author)
    ensures CopiesGood(Apply(scheme, s, act), orig, author)
  {
    IdentityFixed(scheme, s, act);
    forall p | p in Apply(scheme, s, act).net && Carries(p, orig.msgId)
      ensures GoodCopy(Apply(scheme, s, act), orig, author, p)
    {
      GoodCopyKept(scheme, s, act, orig, author, p);
    }
  }

  // The sender of a copy needs no copy back.
  lemma SenderCovered(s: System, orig: Message, author: Addr, p: Packet)
    requires CopiesGood(s, orig, author) && p in s.net && Carries(p, orig.msgId)
    ensures p.src == author || HasSeen(s, p.src, orig.msgId)
  {
    assert GoodCopy(s, orig, author, p);
  }

  lemma PeersCoveredKept(scheme: Identity.Scheme, s: System, act: Action, orig: Message, author: Addr, a: Addr)
    requires Enabled(scheme, s, act) && orig.Classic? && Calm(s, act, Apply(scheme, s, act), orig.msgId)
    requires Authentic(scheme, orig) && FloodInv(s, orig, author) && RoutesFit(s, author)
    requires IsRelay(s, a) && IsRelay(Apply(scheme, s, act), a) && HasSeen(Apply(scheme, s, act), a, orig.msgId)
    ensures PeersCovered(Apply(scheme, s, act), a, orig.msgId, author)
  {
    var s', id := Apply(scheme, s, act), orig.msgId;
    forall b | b in RelayAt(s', a).peers
      ensures Covered(s', b, id, author)
    {
      assert b in RelayAt(s', a).peers.Keys && b in RelayAt(s, a).peers.Keys;
      if HasSeen(s, a, id) {
        assert PeersCovered(s, a, id, author);
        CoveredKept(scheme, s, act, orig, author, b);
      } else {
        if !DeliversTo(s, act, a, id) {
          SeenOnlyOnDelivery(scheme, s, act, a, id);
        }
        AcceptorCovers(scheme, s, act, orig, author, b);
      }
    }
  }

  // The relay that accepts the text now covers its peers.
  lemma AcceptorCovers(scheme: Identity.Scheme, s: System, act: Action, orig: Message, author: Addr, b: Addr)
    requires Enabled(scheme, s, act) && orig.Classic? && Calm(s, act, Apply(scheme, s, act), orig.msgId)
    requires Authentic(scheme, orig) && FloodInv(s, orig, author) && RoutesFit(s, author)
    requires act.Deliver? && Carries(s.net[act.i], orig.msgId) && IsRelay(s, s.net[act.i].dst)
    requires !HasSeen(s, s.net[act.i].dst, orig.msgId) && b in RelayAt(s, s.net[act.i].dst).peers
    ensures Covered(Apply(scheme, s, act), b, orig.msgId, author)
  {
    var p := s.net[act.i];
    SenderCovered(s, orig, author, p);
    TtlSuffices(s, orig, author, p);
    if b == p.src {
      CoveredKept(scheme, s, act, orig, author, b);
    } else {
      assert GoodCopy(s, orig, author, p);
      RelayForwards(scheme, s, act.i, act.order, b);
    }
  }

  lemma ShownOnceKept(scheme: Identity.Scheme, s: System, act: Action, orig: Message, author: Addr)
    requires Enabled(scheme, s, act) && orig.Classic? && Calm(s, act, Apply(scheme, s, act), orig.msgId)
    requires Authentic(scheme, orig) && FloodInv(s, orig, author)
    ensures ShownOnce(Apply(scheme, s, act), orig.msgId)
  {
    var s', id := Apply(scheme, s, act), orig.msgId;
    IdentityFixed(scheme, s, act);
    forall a | IsClient(s', a)
      ensures CountShown(ClientAt(s', a).log, id) == if HasSeen(s', a, id) then 1 else 0
    {
      assert SameIdentity(s.nodes[a], s'.nodes[a]);
      if DeliversTo(s, act, a, id) {
        assert GoodCopy(s, orig, author, s.net[act.i]);
        ClientShowsOnce(scheme, s, act.i, act.order, orig);
      } else {
        SeenOnlyOnDelivery(scheme, s, act, a, id);
        ShowsOnlyDelivered(scheme, s, act, a, id);
      }
    }
  }

  lemma FloodStep(scheme: Identity.Scheme, s: System, act: Action, orig: Message, author: Addr)
    requires Enabled(scheme, s, act) && orig.Classic? && Calm(s, act, Apply(scheme, s, act), orig.msgId)
    requires Authentic(scheme, orig) && FloodInv(s, orig, author) && RoutesFit(s, author)
    ensures FloodInv(Apply(scheme, s, act), orig, author)
    ensures SameLinks(s, Apply(scheme, s, act))
  {
    var s', id := Apply(scheme, s, act), orig.msgId;
    IdentityFixed(scheme, s, act);
    LinksStay(scheme, s, act);
    assert SameIdentity(s.nodes[author], s'.nodes[author]);
    CopiesStayGood(scheme, s, act, orig, author);
    forall a | IsRelay(s', a) && HasSeen(s', a, id)
      ensures PeersCovered(s', a, id, author)
    {
      assert SameIdentity(s.nodes[a], s'.nodes[a]);
      PeersCoveredKept(scheme, s, act, orig, author, a);
    }
    if IsClient(s, author) {
      forall i | 0 <= i < |ClientAt(s, author).relays|
        ensures Covered(s', ClientAt(s, author).relays[i], id, author)
      {
        CoveredKept(scheme, s, act, orig, author, ClientAt(s, author).relays[i]);
      }
    }
    ShownOnceKept(scheme, s, act, orig, author);
  }

  // The author, client or relay, sends the text.
  predicate Authors(act: Action, orig: Message, author: Addr) {
    (act.ClientSay? || act.RelaySay?) && act.who == author && act.msg == orig
  }

  // After that only a relay that is itself the author has seen it.
  lemma SeenAfterSaying(scheme: Identity.Scheme, s: System, act: Action, orig: Message, author: Addr)
    requires orig.Classic? && Enabled(scheme, s, act) && Authors(act, orig, author) && Unused(s, orig.msgId)
    ensures var s' := Apply(scheme, s, act);
            && (forall a :: HasSeen(s', a, orig.msgId) <==> IsRelay(s, author) && a == author)
            && (forall a :: IsClient(s', a) ==> CountShown(ClientAt(s', a).log, orig.msgId) == 0)
  {
    var s' := Apply(scheme, s, act);
    forall a | IsNode(s', a)
      ensures HasSeen(s', a, orig.msgId) <==> IsRelay(s, author) && a == author
      ensures IsClient(s', a) ==> CountShown(ClientAt(s', a).log, orig.msgId) == 0
    {
      assert !HasSeen(s, a, orig.msgId);
      if IsClient(s, a) {
        assert CountShown(ClientAt(s, a).log, orig.msgId) == 0;
        CountAfter(scheme, s, act, a, C.ShownLine, orig.msgId);
      }
    }
  }

  // To whom the author sends.
  ghost function Audience(s: System, act: Action): seq<Addr>
    requires if act.ClientSay? then IsClient(s, act.who) else act.RelaySay?
  {
    if act.ClientSay? then ClientAt(s, act.who).relays else R.Targets(act.order, NOWHERE)
  }

  lemma CopiesAfterSaying(scheme: Identity.Scheme, s: System, act: Action, orig: Message, author: Addr, p: Packet)
    requires orig.Classic? && Enabled(scheme, s, act) && Authors(act, orig, author) && Unused(s, orig.msgId)
    ensures p in Apply(scheme, s, act).net && Carries(p, orig.msgId) ==>
              p.src == author && p.msg == orig && p.dst in Audience(s, act)
    ensures p.src == author && p.dst in Audience(s, act) && p.msg == orig ==> p in Apply(scheme, s, act).net
  {
    InNetAfter(scheme, s, act, p);
    OnTheWire(author, Audience(s, act), orig, p);
  }

  lemma FirstCopyGood(scheme: Identity.Scheme, s: System, act: Action, orig: Message, author: Addr, p: Packet)
    requires orig.Classic? && Enabled(scheme, s, act) && Authors(act, orig, author) && Unused(s, orig.msgId)
    requires p in Apply(scheme, s, act).net && Carries(p, orig.msgId)
    ensures GoodCopy(Apply(scheme, s, act), orig, author, p)
  {
    var s' := Apply(scheme, s, act);
    RelaysStay(scheme, s, act);
    SeenAfterSaying(scheme, s, act, orig, author);
    CopiesAfterSaying(scheme, s, act, orig, author, p);
    if act.RelaySay? {
      RelayFirstCopy(s', orig, author, p);
    } else {
      assert FromAuthor(s', author, p);
    }
  }

  lemma RelayFirstCopy(s: System, orig: Message, author: Addr, p: Packet)
    requires orig.Classic? && orig.ttl == INITIAL_TTL && IsRelay(s, author) && HasSeen(s, author, orig.msgId)
    requires p.src == author && p.msg == orig && p.dst in RelayAt(s, author).peers
    ensures FromChain(s, orig.msgId, author, p)
  {
    assert IsChain(s, orig.msgId, author, [author], author);
  }

  lemma AudienceCovered(scheme: Identity.Scheme, s: System, act: Action, orig: Message, author: Addr)
    requires orig.Classic? && Enabled(scheme, s, act) && Authors(act, orig, author) && Unused(s, orig.msgId)
    ensures forall b :: b in Audience(s, act) ==> Covered(Apply(scheme, s, act), b, orig.msgId, author)
  {
    forall b | b in Audience(s, act)
      ensures Covered(Apply(scheme, s, act), b, orig.msgId, author)
    {
      CopiesAfterSaying(scheme, s, act, orig, author, Packet(author, b, orig));
    }
  }

  // Everyone the author is in touch with is in its audience.
  lemma ContactsCovered(scheme: Identity.Scheme, s: System, act: Action, orig: Message, author: Addr)
    requires orig.Classic? && Enabled(scheme, s, act) && Authors(act, orig, author) && Unused(s, orig.msgId)
    ensures var s' := Apply(scheme, s, act);
            && (IsRelay(s', author) ==> PeersCovered(s', author, orig.msgId, author))
            && (IsClient(s', author) ==>
                  forall i :: 0 <= i < |ClientAt(s', author).relays| ==>
                                Covered(s', ClientAt(s', author).relays[i], orig.msgId, author))
  {
    AudienceCovered(scheme, s, act, orig, author);
    if act.RelaySay? {
      RelayAudience(s, act);
    }
  }

  // The author's own step starts the flood.
  lemma FloodStarts(scheme: Identity.Scheme, s: System, act: Action, orig: Message, author: Addr)
    requires orig.Classic? && Enabled(scheme, s, act) && Authors(act, orig, author) && Unused(s, orig.msgId)
    ensures FloodInv(Apply(scheme, s, act), orig, author)
    ensures SameLinks(s, Apply(scheme, s, act))
  {
    var s' := Apply(scheme, s, act);
    LinksStay(scheme, s, act);
    SeenAfterSaying(scheme, s, act, orig, author);
    forall p | p in s'.net && Carries(p, orig.msgId)
      ensures GoodCopy(s', orig, author, p)
    {
      FirstCopyGood(scheme, s, act, orig, author, p);
    }
    ContactsCovered(scheme, s, act, orig, author);
  }

  lemma RelayAudience(s: System, act: Action)
    requires act.RelaySay? && IsRelay(s, act.who) && R.IsOrder(act.order, RelayAt(s, act.who).peers.Keys)
    ensures forall b :: b in RelayAt(s, act.who).peers && b != NOWHERE ==> b in Audience(s, act)
  {
    assert forall b :: b in RelayAt(s, act.who).peers ==> b in RelayAt(s, act.who).peers.Keys && b in act.order;
  }

  // ---------- the theorem ----------

  // A run in which a client or relay sends a text with an unused id and then nothing disturbs
  // it.
  ghost predicate FloodRun(scheme: Identity.Scheme, states: seq<System>, actions: seq<Action>, orig: Message,
                           author: Addr)
  {
    && IsRun(scheme, states, actions)
    && orig.Classic?
    && actions != []
    && Authors(actions[0], orig, author)
    && Unused(states[0], orig.msgId)
    && forall k :: 0 < k < |actions| ==> CalmAt(states, actions, orig.msgId, k)
  }

  ghost predicate CalmAt(states: seq<System>, actions: seq<Action>, id: u64, k: nat)
    requires k < |actions| && |states| == |actions| + 1
  {
    Calm(states[k], actions[k], states[k + 1], id)
  }

  lemma LinksChain(s: System, s': System, s'': System)
    requires SameLinks(s, s') && SameLinks(s', s'')
    ensures SameLinks(s, s'')
  {
  }

  // The author's own step changes no links either.
  lemma LinksStayAt(scheme: Identity.Scheme, states: seq<System>, actions: seq<Action>, orig: Message, author: Addr,
                    k: nat)
    requires FloodRun(scheme, states, actions, orig, author) && k < |actions|
    ensures SameLinks(states[k], states[k + 1])
  {
    assert StepAt(scheme, states, actions, k);
    assert k > 0 ==> CalmAt(states, actions, orig.msgId, k);
    LinksStay(scheme, states[k], actions[k]);
  }

  lemma {:induction false} LinksStayAlways(scheme: Identity.Scheme, states: seq<System>, actions: seq<Action>,
                                           orig: Message, author: Addr, k: nat)
    requires FloodRun(scheme, states, actions, orig, author) && k <= |actions|
    ensures SameLinks(states[0], states[k])
  {
    if k > 0 {
      LinksStayAlways(scheme, states, actions, orig, author, k - 1);
      LinksStayAt(scheme, states, actions, orig, author, k - 1);
      LinksChain(states[0], states[k - 1], states[k]);
    }
  }

  // In every state of such a run copies are good.
  lemma {:induction false} CopiesGoodAlways(scheme: Identity.Scheme, states: seq<System>, actions: seq<Action>,
                                            orig: Message, author: Addr, k: nat)
    requires FloodRun(scheme, states, actions, orig, author) && 0 < k <= |actions|
    ensures CopiesGood(states[k], orig, author)
  {
    if k == 1 {
      assert StepAt(scheme, states, actions, 0);
      FloodStarts(scheme, states[0], actions[0], orig, author);
    } else {
      CopiesGoodAlways(scheme, states, actions, orig, author, k - 1);
      CopiesGoOn(scheme, states, actions, orig, author, k - 1);
    }
  }

  lemma CopiesGoOn(scheme: Identity.Scheme, states: seq<System>, actions: seq<Action>, orig: Message, author: Addr,
                   k: nat)
    requires FloodRun(scheme, states, actions, orig, author) && 0 < k < |actions|
    requires CopiesGood(states[k], orig, author)
    ensures CopiesGood(states[k + 1], orig, author)
  {
    assert StepAt(scheme, states, actions, k) && CalmAt(states, actions, orig.msgId, k);
    CopiesStayGood(scheme, states[k], actions[k], orig, author);
  }

  lemma {:induction false} FloodInvHolds(scheme: Identity.Scheme, states: seq<System>, actions: seq<Action>,
                                         orig: Message, author: Addr, k: nat)
    requires FloodRun(scheme, states, actions, orig, author) && 0 < k <= |actions|
    requires RoutesFit(states[0], author)
    ensures FloodInv(states[k], orig, author)
  {
    if k == 1 {
      assert StepAt(scheme, states, actions, 0);
      FloodStarts(scheme, states[0], actions[0], orig, author);
    } else {
      FloodInvHolds(scheme, states, actions, orig, author, k - 1);
      FloodGoesOn(scheme, states, actions, orig, author, k - 1);
    }
  }

  lemma FloodGoesOn(scheme: Identity.Scheme, states: seq<System>, actions: seq<Action>, orig: Message, author: Addr,
                    k: nat)
    requires FloodRun(scheme, states, actions, orig, author) && 0 < k < |actions|
    requires RoutesFit(states[0], author) && FloodInv(states[k], orig, author)
    ensures FloodInv(states[k + 1], orig, author)
  {
    assert StepAt(scheme, states, actions, 0);
    assert StepAt(scheme, states, actions, k) && CalmAt(states, actions, orig.msgId, k);
    LinksStayAlways(scheme, states, actions, orig, author, k);
    RoutesFitStays(states[0], states[k], author);
    FloodStep(scheme, states[k], actions[k], orig, author);
  }

  ghost predicate Quiescent(s: System, id: u64) {
    forall p :: p in s.net ==> !Carries(p, id)
  }

  lemma {:induction false} RouteAccepted(s: System, orig: Message, author: Addr, route: seq<Addr>, i: nat)
    requires FloodInv(s, orig, author) && Quiescent(s, orig.msgId)
    requires IsRoute(s, author, route) && i < |route|
    ensures HasSeen(s, route[i], orig.msgId)
  {
    if i == 0 && IsClient(s, author) {
      var k :| 0 <= k < |ClientAt(s, author).relays| && ClientAt(s, author).relays[k] == route[0];
      assert Covered(s, route[0], orig.msgId, author);
    } else if i > 0 {
      RouteAccepted(s, orig, author, route, i - 1);
      assert PeersCovered(s, route[i - 1], orig.msgId, author);
      assert Covered(s, route[i], orig.msgId, author);
    }
  }

  ghost function RelaySet(s: System): set<Addr> {
    set a | 0 <= a < |s.nodes| && s.nodes[a].RelayNode?
  }

  // Routes fit whenever there are no more relays than a text can pass.
  lemma SmallFederationsFit(s: System, author: Addr)
    requires |RelaySet(s)| <= Reach(s, author)
    ensures RoutesFit(s, author)
  {
    forall route | IsRoute(s, author, route) && S.NoRepeats(route)
      ensures |route| <= Reach(s, author)
    {
      assert forall i :: 0 <= i < |route| ==> IsRelay(s, route[i]) && route[i] in RelaySet(s);
      S.DistinctFit(route, RelaySet(s));
    }
  }

  // Once no copy is in flight, every relay on every route from the author has accepted the
  // text, and every client registered with one of them, other than the author, has displayed
  // it exactly once. No other assumption is made on the order of deliveries or on what else
  // goes on.
  lemma Coverage(scheme: Identity.Scheme, states: seq<System>, actions: seq<Action>, orig: Message, author: Addr,
                 route: seq<Addr>)
    requires FloodRun(scheme, states, actions, orig, author)
    requires RoutesFit(states[0], author)
    requires Quiescent(states[|actions|], orig.msgId)
    requires IsRoute(states[|actions|], author, route)
    ensures var s := states[|actions|];
            && (forall i :: 0 <= i < |route| ==> HasSeen(s, route[i], orig.msgId))
            && (forall i, a :: 0 <= i < |route| && a in RelayAt(s, route[i]).peers && a != author && IsClient(s, a)
                 ==> CountShown(ClientAt(s, a).log, orig.msgId) == 1)
  {
    var s := states[|actions|];
    FloodInvHolds(scheme, states, actions, orig, author, |actions|);
    forall i | 0 <= i < |route|
      ensures HasSeen(s, route[i], orig.msgId)
      ensures forall a :: a in RelayAt(s, route[i]).peers && a != author && IsClient(s, a) ==>
                            CountShown(ClientAt(s, a).log, orig.msgId) == 1
    {
      RouteAccepted(s, orig, author, route, i);
      assert PeersCovered(s, route[i], orig.msgId, author);
      assert forall a :: a in RelayAt(s, route[i]).peers ==> Covered(s, a, orig.msgId, author);
    }
  }

  // In every state of such a run, on any federation, a copy that has left its author's hands
  // has gone along a route of 16 - ttl distinct relays, all of which accepted the text; one
  // more if a relay wrote it.
  lemma TtlCountsRelays(scheme: Identity.Scheme, states: seq<System>, actions: seq<Action>, orig: Message, author: Addr,
                        k: nat, p: Packet)
    requires FloodRun(scheme, states, actions, orig, author) && 0 < k <= |actions|
    requires p in states[k].net && Carries(p, orig.msgId)
    ensures p.msg == orig.(ttl := p.msg.ttl)
    ensures p.src != author ==>
              && IsRelay(states[k], p.src)
              && p.dst in RelayAt(states[k], p.src).peers
              && exists chain ::
                   && IsChain(states[k], orig.msgId, author, chain, p.src)
                   && |chain| == Reach(states[0], author) - p.msg.ttl
  {
    CopiesGoodAlways(scheme, states, actions, orig, author, k);
    LinksStayAlways(scheme, states, actions, orig, author, k);
    assert GoodCopy(states[k], orig, author, p);
  }
}
