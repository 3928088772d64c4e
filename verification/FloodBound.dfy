// The condition of the coverage theorem is exact: a route of distinct relays that is too long
// lets some run lose the ttl on the way, and a relay that accepts a copy without ttl keeps the
// text from everyone that only it serves. Short routes beside the long one do not help.

module FloodBound {
  import opened Wrappers
  import opened Words
  import opened Messages
  import opened Network
  import opened Flood
  import opened FloodRuns
  import Identity
  import S = SeenIds
  import R = Relays
  import C = Clients
  import T = Termination

  // ---------- running out of ttl ----------

  // A relay that has not seen the text gets a copy without ttl: it accepts it and will never
  // send it on.
  predicate Starves(s: System, act: Action, id: u64) {
    && act.Deliver?
    && act.i < |s.net|
    && Carries(s.net[act.i], id)
    && s.net[act.i].msg.ttl == 0
    && IsRelay(s, s.net[act.i].dst)
    && !HasSeen(s, s.net[act.i].dst, id)
  }

  // Some run gets to where the next step can starve a relay.
  ghost predicate CanStarve(scheme: Identity.Scheme, s: System, orig: Message, author: Addr) {
    exists s', act :: Leads(scheme, orig, author, s, s') && Enabled(scheme, s', act) && Starves(s', act, orig.msgId)
  }

  ghost predicate LongRoute(s: System, author: Addr, route: seq<Addr>) {
    IsRoute(s, author, route) && S.NoRepeats(route) && |route| == Reach(s, author) + 1
  }

  // The beginning of a route is a route.
  lemma Shorten(s: System, author: Addr, route: seq<Addr>)
    requires IsRoute(s, author, route) && S.NoRepeats(route) && |route| > Reach(s, author)
    ensures LongRoute(s, author, route[..Reach(s, author) + 1])
  {
  }

  lemma LongRouteStarves(scheme: Identity.Scheme, s: System, orig: Message, author: Addr, route: seq<Addr>)
    returns (s': System, act: Action)
    requires CanSay(scheme, s, orig, author) && LongRoute(s, author, route)
    ensures Leads(scheme, orig, author, s, s') && Enabled(scheme, s', act) && Starves(s', act, orig.msgId)
    ensures s'.net[act.i].dst == route[|route| - 1] && NoKeyClash(s', orig.msgId) && NoClientSaw(s', orig.msgId)
    ensures Calm(s', act, Apply(scheme, s', act), orig.msgId)
  {
    var k := Reach(s, author);
    s' := GoesAlong(scheme, s, orig, author, route, k);
    LeadsKeeps(scheme, orig, author, s, s');
    assert IsRelay(s, route[k]);
    act := HopIsCalm(scheme, s', orig, author, route, k);
    LastCopyStarves(s', act, orig, author, route, k);
  }

  lemma LastCopyStarves(s: System, act: Action, orig: Message, author: Addr, route: seq<Addr>, k: nat)
    requires Moved(s, orig, author, route, k) && k == Reach(s, author) && IsRelay(s, route[k])
    requires act.Deliver? && act.i < |s.net| && s.net[act.i] == CopyAt(s, orig, author, route, k)
    ensures Starves(s, act, orig.msgId) && s.net[act.i].dst == route[k]
  {
  }

  // A relay can be starved exactly if some route of distinct relays is too long.
  lemma CanStarveIff(scheme: Identity.Scheme, s: System, orig: Message, author: Addr)
    requires CanSay(scheme, s, orig, author)
    ensures CanStarve(scheme, s, orig, author) <==> !RoutesFit(s, author)
  {
    if CanStarve(scheme, s, orig, author) {
      var s', act :|
        Leads(scheme, orig, author, s, s') && Enabled(scheme, s', act) && Starves(s', act, orig.msgId);
      LeadsKeeps(scheme, orig, author, s, s');
      var route := NoTtlMeansLong(s', orig, author, s'.net[act.i]);
      RouteStays(s, s', author, route);
    }
    if !RoutesFit(s, author) {
      var route :| IsRoute(s, author, route) && S.NoRepeats(route) && |route| > Reach(s, author);
      Shorten(s, author, route);
      var s', act := LongRouteStarves(scheme, s, orig, author, route[..Reach(s, author) + 1]);
    }
  }

  // ---------- who misses the text ----------

  // A client that hears from one relay only, and not from the author itself.
  ghost predicate ServedOnlyBy(s: System, author: Addr, c: Addr, r: Addr) {
    && IsClient(s, c)
    && c != author
    && IsRelay(s, r)
    && c in RelayAt(s, r).peers
    && (forall x :: IsRelay(s, x) && c in RelayAt(s, x).peers ==> x == r)
    && (IsClient(s, author) ==> c !in ClientAt(s, author).relays)
  }

  lemma ServiceStays(s: System, s': System, author: Addr, c: Addr, r: Addr)
    requires SameLinks(s, s') && ServedOnlyBy(s, author, c, r)
    ensures ServedOnlyBy(s', author, c, r)
  {
    PeersStay(s, s', r, c);
    forall x | IsRelay(s', x) && c in RelayAt(s', x).peers
      ensures x == r
    {
      PeersStay(s, s', x, c);
    }
  }

  // The relay has accepted the text but sent no copy, and the client knows nothing of it.
  ghost predicate Silenced(s: System, r: Addr, c: Addr, id: u64) {
    && HasSeen(s, r, id)
    && (forall p :: p in s.net && Carries(p, id) ==> p.src != r)
    && IsClient(s, c)
    && CountShown(ClientAt(s, c).log, id) == 0
  }

  lemma StarvingSilences(scheme: Identity.Scheme, s: System, act: Action, orig: Message, author: Addr, c: Addr)
    requires Enabled(scheme, s, act) && CopiesGood(s, orig, author) && Starves(s, act, orig.msgId)
    requires Calm(s, act, Apply(scheme, s, act), orig.msgId) && NoClientSaw(s, orig.msgId) && IsClient(s, c)
    ensures Silenced(Apply(scheme, s, act), s.net[act.i].dst, c, orig.msgId)
  {
    var s', r := Apply(scheme, s, act), s.net[act.i].dst;
    DeliveredSeen(scheme, s, act, r, orig.msgId);
    ShowsOnlyDelivered(scheme, s, act, c, orig.msgId);
    forall p | p in s'.net && Carries(p, orig.msgId)
      ensures p.src != r
    {
      if p in s.net {
        assert GoodCopy(s, orig, author, p);
      } else {
        NewCopies(scheme, s, act, p, orig.msgId);
      }
    }
  }

  lemma NotDelivered(s: System, act: Action, orig: Message, author: Addr, c: Addr, r: Addr)
    requires CopiesGood(s, orig, author) && ServedOnlyBy(s, author, c, r) && Silenced(s, r, c, orig.msgId)
    ensures !DeliversTo(s, act, c, orig.msgId)
  {
    if act.Deliver? && act.i < |s.net| {
      assert s.net[act.i] in s.net;
    }
  }

  // No calm step brings the text to a client that only a silenced relay serves.
  lemma StaysSilenced(scheme: Identity.Scheme, s: System, act: Action, orig: Message, author: Addr, c: Addr, r: Addr)
    requires Enabled(scheme, s, act) && CopiesGood(s, orig, author) && ServedOnlyBy(s, author, c, r)
    requires Calm(s, act, Apply(scheme, s, act), orig.msgId) && Silenced(s, r, c, orig.msgId)
    ensures Silenced(Apply(scheme, s, act), r, c, orig.msgId)
  {
    var s', id := Apply(scheme, s, act), orig.msgId;
    forall p | p in s'.net && Carries(p, id)
      ensures p.src != r
    {
      if p !in s.net {
        NewCopies(scheme, s, act, p, id);
      }
    }
    NotDelivered(s, act, orig, author, c, r);
    ShowsOnlyDelivered(scheme, s, act, c, id);
  }

  // ---------- until no copy is in flight ----------

  lemma FanFits(s: System)
    ensures T.FanOut(s, Fan(s.nodes))
  {
    forall a | IsRelay(s, a)
      ensures |RelayAt(s, a).peers| <= Fan(s.nodes)
    {
      FanBounds(s.nodes, a);
    }
  }

  lemma FanOutStays(s: System, s': System, n: nat)
    requires SameLinks(s, s') && T.FanOut(s, n)
    ensures T.FanOut(s', n)
  {
    forall a | IsRelay(s', a)
      ensures |RelayAt(s', a).peers| <= n
    {
      assert RelayAt(s', a).peers.Keys == RelayAt(s, a).peers.Keys;
      assert |RelayAt(s', a).peers| == |RelayAt(s', a).peers.Keys|;
      assert |RelayAt(s, a).peers| == |RelayAt(s, a).peers.Keys|;
    }
  }

  // Every run can be continued until no copy is in flight, and a silenced relay stays silent.
  lemma {:induction false} Drains(scheme: Identity.Scheme, s: System, s': System, orig: Message, author: Addr, c: Addr,
                                  r: Addr, n: nat) returns (end: System)
    requires Leads(scheme, orig, author, s, s') && NoKeyClash(s', orig.msgId) && T.FanOut(s', n)
    requires ServedOnlyBy(s', author, c, r) && Silenced(s', r, c, orig.msgId)
    ensures Leads(scheme, orig, author, s, end) && Quiescent(end, orig.msgId)
    ensures ServedOnlyBy(end, author, c, r) && Silenced(end, r, c, orig.msgId)
    decreases T.Potential(n, s'.net)
  {
    LeadsKeeps(scheme, orig, author, s, s');
    if p :| p in s'.net && Carries(p, orig.msgId) {
      var act := CanDeliver(scheme, s', p);
      var next := Apply(scheme, s', act);
      DeliveryIsCalm(scheme, s', act.i, act.order, orig.msgId);
      StaysSilenced(scheme, s', act, orig, author, c, r);
      LinksStay(scheme, s', act);
      ServiceStays(s', next, author, c, r);
      FanOutStays(s', next, n);
      DeliveryDrains(scheme, s', act, n);
      LeadsOn(scheme, orig, author, s, s', act, next);
      end := Drains(scheme, s, next, orig, author, c, r, n);
    } else {
      end := s';
    }
  }

  lemma DeliveryDrains(scheme: Identity.Scheme, s: System, act: Action, n: nat)
    requires Enabled(scheme, s, act) && T.DeliversClassic(s, act) && T.FanOut(s, n)
    ensures T.Potential(n, Apply(scheme, s, act).net) < T.Potential(n, s.net)
  {
    T.StepLowersPotential(scheme, n, s, act);
    assert T.Injected(s, act) == [];
  }

  // A client that only the end of a too long route serves can miss the text for good.
  lemma LongRouteMisses(scheme: Identity.Scheme, s: System, orig: Message, author: Addr, route: seq<Addr>, c: Addr)
    returns (end: System)
    requires CanSay(scheme, s, orig, author) && LongRoute(s, author, route)
    requires ServedOnlyBy(s, author, c, route[|route| - 1])
    ensures Leads(scheme, orig, author, s, end) && Quiescent(end, orig.msgId)
    ensures IsClient(end, c) && CountShown(ClientAt(end, c).log, orig.msgId) == 0
  {
    var r := route[|route| - 1];
    var s', act := LongRouteStarves(scheme, s, orig, author, route);
    var next := Apply(scheme, s', act);
    LeadsKeeps(scheme, orig, author, s, s');
    ServiceStays(s, s', author, c, r);
    StarvingSilences(scheme, s', act, orig, author, c);
    LeadsOn(scheme, orig, author, s, s', act, next);
    DeliveryIsCalm(scheme, s', act.i, act.order, orig.msgId);
    LinksStay(scheme, s', act);
    ServiceStays(s', next, author, c, r);
    FanFits(next);
    end := Drains(scheme, s, next, orig, author, c, r, Fan(next.nodes));
  }

  // ---------- the condition is exact ----------

  // Every relay has a client that no one else serves.
  ghost predicate EveryRelayServes(s: System, author: Addr) {
    forall r :: IsRelay(s, r) ==> exists c :: ServedOnlyBy(s, author, c, r)
  }

  // Everyone the text can reach has displayed it once.
  ghost predicate AllReached(s: System, id: u64, author: Addr) {
    forall route, c :: IsRoute(s, author, route) ==> ReachedFrom(s, id, author, route, c)
  }

  ghost predicate ReachedFrom(s: System, id: u64, author: Addr, route: seq<Addr>, c: Addr)
    requires IsRoute(s, author, route)
  {
    c in RelayAt(s, route[|route| - 1]).peers && c != author && IsClient(s, c) ==>
      CountShown(ClientAt(s, c).log, id) == 1
  }

  ghost predicate AlwaysCovers(scheme: Identity.Scheme, s: System, orig: Message, author: Addr) {
    forall end :: Leads(scheme, orig, author, s, end) && Quiescent(end, orig.msgId) ==>
                    AllReached(end, orig.msgId, author)
  }

  // Where each relay has a client of its own, every run reaches everyone exactly if no route of
  // distinct relays from the author is too long.
  lemma CoverageIff(scheme: Identity.Scheme, s: System, orig: Message, author: Addr)
    requires CanSay(scheme, s, orig, author) && EveryRelayServes(s, author)
    ensures AlwaysCovers(scheme, s, orig, author) <==> RoutesFit(s, author)
  {
    if RoutesFit(s, author) {
      forall end | Leads(scheme, orig, author, s, end) && Quiescent(end, orig.msgId)
        ensures AllReached(end, orig.msgId, author)
      {
        FittingRoutesReach(scheme, s, orig, author, end);
      }
    } else {
      var route :| IsRoute(s, author, route) && S.NoRepeats(route) && |route| > Reach(s, author);
      LongRouteLoses(scheme, s, orig, author, route);
    }
  }

  lemma FittingRoutesReach(scheme: Identity.Scheme, s: System, orig: Message, author: Addr, end: System)
    requires RoutesFit(s, author) && Leads(scheme, orig, author, s, end) && Quiescent(end, orig.msgId)
    ensures AllReached(end, orig.msgId, author)
  {
    var states, actions :| FloodsTo(scheme, states, actions, orig, author, s, end);
    forall route, c | IsRoute(end, author, route)
      ensures ReachedFrom(end, orig.msgId, author, route, c)
    {
      Coverage(scheme, states, actions, orig, author, route);
    }
  }

  lemma LongRouteLoses(scheme: Identity.Scheme, s: System, orig: Message, author: Addr, route: seq<Addr>)
    requires CanSay(scheme, s, orig, author) && EveryRelayServes(s, author)
    requires IsRoute(s, author, route) && S.NoRepeats(route) && |route| > Reach(s, author)
    ensures !AlwaysCovers(scheme, s, orig, author)
  {
    Shorten(s, author, route);
    EndLoses(scheme, s, orig, author, route[..Reach(s, author) + 1]);
  }

  lemma EndLoses(scheme: Identity.Scheme, s: System, orig: Message, author: Addr, route: seq<Addr>)
    requires CanSay(scheme, s, orig, author) && EveryRelayServes(s, author) && LongRoute(s, author, route)
    ensures !AlwaysCovers(scheme, s, orig, author)
  {
    var r := route[|route| - 1];
    assert IsRelay(s, r);
    var c :| ServedOnlyBy(s, author, c, r);
    var end := LongRouteMisses(scheme, s, orig, author, route, c);
    LeadsKeeps(scheme, orig, author, s, end);
    RouteStays(s, end, author, route);
    PeersStay(s, end, r, c);
    assert !ReachedFrom(end, orig.msgId, author, route, c);
  }

  // ---------- short routes do not help ----------

  // A line of relays, one more than a text can pass; a client behind the last one; and another
  // client in front of the first one, which is the author unless the first relay is.
  datatype Case = ByClient | ByRelay

  function Length(c: Case): nat {
    if c == ByRelay then INITIAL_TTL + 2 else INITIAL_TTL + 1
  }

  function Sink(c: Case): Addr {
    Length(c)
  }

  function Author(c: Case): Addr {
    if c == ByRelay then 0 else Length(c) + 1
  }

  // Relay a forwards to a + 1; the first one has a direct link to the last one as well, and
  // the last one serves the sink.
  function LinePeers(c: Case, a: Addr): R.Peers {
    var e := R.PeerEntry("peer", 0, None);
    if a == 0 then map[1 := e, Length(c) - 1 := e] else map[a + 1 := e]
  }

  function LineNode(c: Case, a: Addr, name: string): Node {
    if a < Length(c) then RelayNode(R.Relay(name, [], LinePeers(c, a), []))
    else if a == Sink(c) then ClientNode(C.Client("sink", "f1", "b1", [Length(c) - 1], [], 0, 0, []))
    else ClientNode(C.Client(name, "f2", "b2", [0], [], 0, 0, []))
  }

  function Line(c: Case, name: string): (s: System)
    ensures |s.nodes| == Length(c) + 2
    ensures forall a :: 0 <= a < |s.nodes| ==> s.nodes[a] == LineNode(c, a, name)
  {
    System(seq(Length(c) + 2, a requires 0 <= a < Length(c) + 2 => LineNode(c, a, name)), [], [])
  }

  function WholeLine(c: Case): (route: seq<Addr>)
    ensures |route| == Length(c) && forall i :: 0 <= i < |route| ==> route[i] == i
  {
    seq(Length(c), i requires 0 <= i < Length(c) => i)
  }

  lemma LineRoutes(c: Case, name: string)
    ensures LongRoute(Line(c, name), Author(c), WholeLine(c))
    ensures IsRoute(Line(c, name), Author(c), [0, Length(c) - 1])
    ensures ServedOnlyBy(Line(c, name), Author(c), Sink(c), Length(c) - 1)
  {
    var s := Line(c, name);
    assert IsClient(s, Author(c)) ==> ClientAt(s, Author(c)).relays[0] == 0;
  }

  lemma LineCanSay(scheme: Identity.Scheme, c: Case, orig: Message)
    requires Original(scheme, orig)
    ensures CanSay(scheme, Line(c, orig.srcId), orig, Author(c))
  {
  }

  ghost function FirstAddrs(n: nat): (addrs: set<Addr>)
    ensures |addrs| == n && forall a :: a in addrs <==> 0 <= a < n
  {
    if n == 0 then {} else FirstAddrs(n - 1) + {n - 1}
  }

  lemma RelaysCounted(s: System, n: nat)
    requires forall a :: IsRelay(s, a) <==> 0 <= a < n
    ensures |RelaySet(s)| == n
  {
    forall a: Addr
      ensures a in RelaySet(s) <==> a in FirstAddrs(n)
    {
      assert IsRelay(s, a) <==> 0 <= a < n;
    }
    assert RelaySet(s) == FirstAddrs(n);
  }

  // A run that meets every hypothesis of the coverage theorem but the one on routes, and a
  // client on this route that never displays the text.
  ghost predicate Counterexample(scheme: Identity.Scheme, s: System, orig: Message, author: Addr, end: System,
                                 route: seq<Addr>, client: Addr)
  {
    && Leads(scheme, orig, author, s, end)
    && Quiescent(end, orig.msgId)
    && IsRoute(end, author, route)
    && client in RelayAt(end, route[|route| - 1]).peers
    && client != author
    && IsClient(end, client)
    && CountShown(ClientAt(end, client).log, orig.msgId) == 0
  }

  lemma LineMisses(scheme: Identity.Scheme, c: Case, orig: Message) returns (end: System)
    requires Original(scheme, orig)
    ensures Counterexample(scheme, Line(c, orig.srcId), orig, Author(c), end, [0, Length(c) - 1], Sink(c))
    ensures |RelaySet(Line(c, orig.srcId))| == Length(c)
  {
    var s := Line(c, orig.srcId);
    LineRoutes(c, orig.srcId);
    LineCanSay(scheme, c, orig);
    end := LongRouteMisses(scheme, s, orig, Author(c), WholeLine(c), Sink(c));
    LeadsKeeps(scheme, orig, Author(c), s, end);
    RouteStays(s, end, Author(c), [0, Length(c) - 1]);
    PeersStay(s, end, Length(c) - 1, Sink(c));
    RelaysCounted(s, Length(c));
  }

  // With seventeen relays a client two hops from a client author can miss the text.
  lemma SeventeenRelaysTooMany(scheme: Identity.Scheme, orig: Message)
    requires Original(scheme, orig)
    ensures exists s, author, end, route, client ::
              && Counterexample(scheme, s, orig, author, end, route, client)
              && IsClient(s, author)
              && |RelaySet(s)| == 17
              && |route| == 2
  {
    var end := LineMisses(scheme, ByClient, orig);
    assert IsClient(Line(ByClient, orig.srcId), Author(ByClient));
  }

  // With eighteen the same can happen to a text of a relay.
  lemma EighteenRelaysTooMany(scheme: Identity.Scheme, orig: Message)
    requires Original(scheme, orig)
    ensures exists s, author, end, route, client ::
              && Counterexample(scheme, s, orig, author, end, route, client)
              && IsRelay(s, author)
              && |RelaySet(s)| == 18
              && |route| == 2
  {
    var end := LineMisses(scheme, ByRelay, orig);
    assert IsRelay(Line(ByRelay, orig.srcId), Author(ByRelay));
  }
}
