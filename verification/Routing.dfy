// Payments and acknowledgements find their way: on a lossless federation a payment is
// credited exactly once, to the owner of its destination name, and its payer learns of it.

module Routing {
  import opened Words
  import opened Messages
  import opened DedupKeys
  import opened Network
  import opened Ledger
  import opened Acks
  import opened Registry
  import Identity
  import R = Relays
  import C = Clients

  predicate Routed(m: Message) {
    m.Payment? || m.PaymentAck?
  }

  // The name a routed message is addressed to.
  function Name(m: Message): string
    requires Routed(m)
  {
    if m.Payment? then m.dstId else m.toId
  }

  ghost predicate NamesNoRelay(s: System, name: string) {
    forall r :: IsRelay(s, r) ==> R.RelayId(RelayAt(s, r)) != name
  }

  // From a client over relays to the client that owns the name. A path may turn back, at its
  // end, only if the relay there can look the name up: relays know peer ids and BTC
  // addresses, but not fingerprints.
  ghost predicate IsPath(s: System, path: seq<Addr>, name: string) {
    var last := |path| - 1;
    && |path| >= 2
    && IsClient(s, path[0])
    && path[1] in ClientAt(s, path[0]).relays
    && (forall k :: 0 < k < last ==> IsRelay(s, path[k]))
    && IsClient(s, path[last])
    && (var owner := ClientAt(s, path[last]); name == owner.peerId || name == owner.fp || name == owner.btc)
    && forall k :: 0 < k < last && TurnsBack(path, k) ==>
                     k + 1 == last && (name == ClientAt(s, path[last]).peerId || name == ClientAt(s, path[last]).btc)
  }

  predicate TurnsBack(path: seq<Addr>, k: int)
    requires 0 < k < |path| - 1
  {
    path[k + 1] == path[k - 1]
  }

  // Each relay of the path has the next node registered.
  ghost predicate Open(s: System, path: seq<Addr>) {
    forall k :: 0 < k < |path| - 1 && IsRelay(s, path[k]) ==> path[k + 1] in RelayAt(s, path[k]).peers
  }

  // A copy is on some leg of the path, or on its last hop.
  ghost predicate OnItsWay(s: System, path: seq<Addr>, m: Message)
    requires |path| >= 2
  {
    || (exists k :: 0 <= k < |path| - 1 && Packet(path[k], path[k + 1], m) in s.net)
    || (exists p :: p in s.net && p.dst == path[|path| - 1] && p.msg == m)
  }

  predicate DeliversExactly(s: System, act: Action, a: Addr, m: Message) {
    act.Deliver? && act.i < |s.net| && s.net[act.i].dst == a && s.net[act.i].msg == m
  }

  predicate Loses(s: System, act: Action, m: Message) {
    act.Drop? && act.i < |s.net| && s.net[act.i].msg == m
  }

  // ---------- one hop ----------

  // A name that no relay has can be found in a table only at its owner's address.
  lemma FoundIsOwner(s: System, r: Addr, order: seq<Addr>, name: string, owner: Addr, t: Addr)
    requires UniqueNames(s) && TrueTables(s) && NamesNoRelay(s, name) && IsRelay(s, r)
    requires IsClient(s, owner) && C.Owns(ClientAt(s, owner), name)
    requires t in RelayAt(s, r).peers && R.Matches(RelayAt(s, r).peers[t], name)
    ensures t == owner
  {
    assert NamesOf(s.nodes[t], RelayAt(s, r).peers[t].peerId, RelayAt(s, r).peers[t].btc);
    assert !IsRelay(s, t);
    assert C.Owns(ClientAt(s, t), name);
  }

  // What a relay of the path emits continues the path, or goes straight to the owner.
  lemma RelayContinues(s: System, path: seq<Addr>, m: Message, k: nat, order: seq<Addr>)
    requires Routed(m) && IsPath(s, path, Name(m)) && Open(s, path) && 0 < k < |path| - 1
    requires UniqueNames(s) && TrueTables(s) && NamesNoRelay(s, Name(m))
    requires R.IsOrder(order, RelayAt(s, path[k]).peers.Keys)
    ensures var out := From(path[k], R.Route(RelayAt(s, path[k]), order, path[k - 1], Name(m), m));
            Packet(path[k], path[k + 1], m) in out || Packet(path[k], path[|path| - 1], m) in out
  {
    var r, owner, name := RelayAt(s, path[k]), path[|path| - 1], Name(m);
    assert path[k + 1] in r.peers && path[k + 1] in r.peers.Keys;
    if TurnsBack(path, k) {
      assert NamesOf(s.nodes[owner], r.peers[owner].peerId, r.peers[owner].btc);
      assert R.Matches(r.peers[owner], name);
    }
    R.FindPeerFinds(r.peers, order, name);
    match R.FindPeer(r.peers, order, name)
    case Some(t) =>
      FoundIsOwner(s, path[k], order, name, owner, t);
      assert From(path[k], [Send(owner, m)])[0] == Packet(path[k], owner, m);
    case None =>
      OnTheWire(path[k], R.Targets(order, path[k - 1]), m, Packet(path[k], path[k + 1], m));
  }

  lemma DeliveredOnwards(scheme: Identity.Scheme, s: System, act: Action, path: seq<Addr>, m: Message, k: nat)
    requires Enabled(scheme, s, act) && Routed(m) && IsPath(s, path, Name(m)) && Open(s, path) && 0 < k < |path| - 1
    requires UniqueNames(s) && TrueTables(s) && NamesNoRelay(s, Name(m))
    requires act.Deliver? && s.net[act.i] == Packet(path[k - 1], path[k], m)
    ensures OnItsWay(Apply(scheme, s, act), path, m)
  {
    RelayContinues(s, path, m, k, act.order);
    InNetAfter(scheme, s, act, Packet(path[k], path[k + 1], m));
    InNetAfter(scheme, s, act, Packet(path[k], path[|path| - 1], m));
  }

  // As long as no copy is lost, a message on its way stays on its way until it arrives.
  lemma StaysOnItsWay(scheme: Identity.Scheme, s: System, act: Action, path: seq<Addr>, m: Message)
    requires Enabled(scheme, s, act) && Routed(m) && IsPath(s, path, Name(m)) && Open(s, path)
    requires UniqueNames(s) && TrueTables(s) && NamesNoRelay(s, Name(m))
    requires OnItsWay(s, path, m) && !Loses(s, act, m)
    ensures OnItsWay(Apply(scheme, s, act), path, m) || DeliversExactly(s, act, path[|path| - 1], m)
  {
    var owner := path[|path| - 1];
    if k :| 0 <= k < |path| - 1 && Packet(path[k], path[k + 1], m) in s.net {
      var p := Packet(path[k], path[k + 1], m);
      InNetAfter(scheme, s, act, p);
      if act.Deliver? && s.net[act.i] == p {
        if k + 1 < |path| - 1 {
          DeliveredOnwards(scheme, s, act, path, m, k + 1);
        }
      } else if act.Deliver? || act.Drop? {
        StillInFlight(s.net, act.i, p);
      }
    } else {
      var p :| p in s.net && p.dst == owner && p.msg == m;
      InNetAfter(scheme, s, act, p);
      if (act.Deliver? || act.Drop?) && s.net[act.i] != p {
        StillInFlight(s.net, act.i, p);
      }
    }
  }

  // A relay hands a message back to the registered client it came from exactly when it is
  // addressed to that client by peer id or BTC address; so a payment to oneself by
  // fingerprint stops at the first relay.
  lemma ReturnedIff(s: System, r: Addr, order: seq<Addr>, c: Addr, m: Message)
    requires UniqueNames(s) && TrueTables(s) && Routed(m) && NamesNoRelay(s, Name(m))
    requires IsRelay(s, r) && IsClient(s, c) && c in RelayAt(s, r).peers
    requires R.IsOrder(order, RelayAt(s, r).peers.Keys)
    ensures Send(c, m) in R.Route(RelayAt(s, r), order, c, Name(m), m)
       <==> Name(m) == ClientAt(s, c).peerId || Name(m) == ClientAt(s, c).btc
  {
    var peers, name := RelayAt(s, r).peers, Name(m);
    R.FindPeerFinds(peers, order, name);
    assert NamesOf(s.nodes[c], peers[c].peerId, peers[c].btc);
    assert R.Matches(peers[c], name) <==> name == ClientAt(s, c).peerId || name == ClientAt(s, c).btc;
    match R.FindPeer(peers, order, name)
    case Some(t) =>
      if R.Matches(peers[c], name) {
        FoundIsOwner(s, r, order, name, c, t);
      }
    case None =>
  }

  // A client that sends to all its relays sends onto the path.
  lemma SentOntoPath(s: System, path: seq<Addr>, m: Message, packets: seq<Packet>)
    requires |path| >= 2 && IsClient(s, path[0]) && path[1] in ClientAt(s, path[0]).relays
    requires packets == From(path[0], SendAll(ClientAt(s, path[0]).relays, m))
    ensures Packet(path[0], path[1], m) in packets
  {
    OnTheWire(path[0], ClientAt(s, path[0]).relays, m, Packet(path[0], path[1], m));
  }

  // ---------- a payment and its acknowledgement ----------

  // One payment, the route to its payee, and the route its acknowledgement takes back.
  datatype Journey = Journey(pay: Message, there: seq<Addr>, back: seq<Addr>)

  function Payer(j: Journey): Addr
    requires |j.there| >= 2
  {
    j.there[0]
  }

  function Payee(j: Journey): Addr
    requires |j.there| >= 2
  {
    j.there[|j.there| - 1]
  }

  // Everything a journey needs that no step changes.
  ghost predicate Planned(s: System, j: Journey) {
    && j.pay.Payment?
    && IsPath(s, j.there, j.pay.dstId)
    && IsPath(s, j.back, j.pay.srcId)
    && j.back[0] == Payee(j)
    && j.back[|j.back| - 1] == Payer(j)
    && ClientAt(s, Payer(j)).peerId == j.pay.srcId
    && NamesNoRelay(s, j.pay.dstId)
    && NamesNoRelay(s, j.pay.srcId)
  }

  function AckOf(s: System, j: Journey): Message
    requires |j.there| >= 2 && IsClient(s, Payee(j)) && j.pay.Payment?
  {
    PaymentAck(j.pay.paymentId, ClientAt(s, Payee(j)).peerId, j.pay.srcId)
  }

  predicate HasKey(m: Message) {
    m.Classic? || Routed(m)
  }

  // The dedup key of a message.
  function KeyOf(m: Message): u64
    requires HasKey(m)
  {
    match m
    case Classic(_, _, _, msgId, _, _, _) => Key(Text, msgId)
    case Payment(_, _, _, paymentId) => Key(Pay, paymentId)
    case PaymentAck(paymentId, _, _) => Key(Ack, paymentId)
  }

  // A message of another kind has the dedup key of this payment or of its acknowledgement.
  predicate Clashes(m: Message, id: u64) {
    && HasKey(m)
    && (|| (KeyOf(m) == Key(Pay, id) && !m.Payment?)
        || (KeyOf(m) == Key(Ack, id) && !m.PaymentAck?))
  }

  ghost predicate Smooth(s: System, act: Action, j: Journey) {
    && Planned(s, j)
    && !Loses(s, act, j.pay)
    && !Loses(s, act, AckOf(s, j))
    && Open(s, j.there)
    && Open(s, j.back)
    && forall p :: p in s.net ==> !Clashes(p.msg, j.pay.paymentId)
  }

  predicate HasDisplayed(s: System, a: Addr, kind: C.LineKind, id: u64) {
    IsClient(s, a) && C.Count(ClientAt(s, a).log, kind, id) > 0
  }

  predicate IsReceived(s: System, j: Journey)
    requires |j.there| >= 2 && j.pay.Payment?
  {
    HasDisplayed(s, Payee(j), C.ReceivedLine, j.pay.paymentId)
  }

  predicate IsConfirmed(s: System, j: Journey)
    requires |j.there| >= 2 && j.pay.Payment?
  {
    HasDisplayed(s, Payer(j), C.ConfirmedLine, j.pay.paymentId)
  }

  // The payee's cache knows the payment only if it was credited, and the payer's cache knows
  // the acknowledgement only if it was displayed.
  ghost predicate NoFalseHit(s: System, j: Journey)
    requires Planned(s, j)
  {
    && (Key(Pay, j.pay.paymentId) in ClientAt(s, Payee(j)).seen ==> IsReceived(s, j))
    && (Key(Ack, j.pay.paymentId) in ClientAt(s, Payer(j)).seen ==> IsConfirmed(s, j))
  }

  // The payment is under way; or it is credited and its acknowledgement is under way; or the
  // acknowledgement is displayed.
  ghost predicate UnderWay(s: System, j: Journey) {
    && Planned(s, j)
    && Backed(s.ledger, j.pay)
    && NoFalseHit(s, j)
    && if !IsReceived(s, j) then OnItsWay(s, j.there, j.pay) else OnItsWay(s, j.back, AckOf(s, j)) || IsConfirmed(s, j)
  }

  lemma PlanStays(s: System, s': System, j: Journey)
    requires SameWorld(s, s') && Planned(s, j)
    ensures Planned(s', j) && AckOf(s', j) == AckOf(s, j)
  {
    PathStays(s, s', j.there, j.pay.dstId);
    PathStays(s, s', j.back, j.pay.srcId);
    RelayNamesStay(s, s', j.pay.dstId);
    RelayNamesStay(s, s', j.pay.srcId);
    assert SameIdentity(s.nodes[Payer(j)], s'.nodes[Payer(j)]);
    assert SameIdentity(s.nodes[Payee(j)], s'.nodes[Payee(j)]);
  }

  lemma RelayNamesStay(s: System, s': System, name: string)
    requires SameWorld(s, s') && NamesNoRelay(s, name)
    ensures NamesNoRelay(s', name)
  {
    forall r | IsRelay(s', r)
      ensures R.RelayId(RelayAt(s', r)) != name
    {
      assert IsNode(s, r) && SameIdentity(s.nodes[r], s'.nodes[r]);
      assert IsRelay(s, r);
    }
  }

  lemma PathStays(s: System, s': System, path: seq<Addr>, name: string)
    requires SameWorld(s, s') && IsPath(s, path, name)
    ensures IsPath(s', path, name)
  {
    var last := |path| - 1;
    assert SameIdentity(s.nodes[path[0]], s'.nodes[path[0]]);
    assert SameIdentity(s.nodes[path[last]], s'.nodes[path[last]]);
    forall k | 0 < k < last
      ensures IsRelay(s', path[k])
    {
      assert IsRelay(s, path[k]) && SameIdentity(s.nodes[path[k]], s'.nodes[path[k]]);
    }
  }

  lemma DisplayStays(scheme: Identity.Scheme, s: System, act: Action, a: Addr, kind: C.LineKind, id: u64)
    requires Enabled(scheme, s, act) && HasDisplayed(s, a, kind, id)
    ensures HasDisplayed(Apply(scheme, s, act), a, kind, id)
  {
    CountAfter(scheme, s, act, a, kind, id);
  }

  // A payment credited is displayed.
  lemma CreditDisplays(scheme: Identity.Scheme, s: System, act: Action, id: u64)
    requires Enabled(scheme, s, act) && CreditStep(s, act) && s.net[act.i].msg.paymentId == id
    ensures HasDisplayed(Apply(scheme, s, act), s.net[act.i].dst, C.ReceivedLine, id)
  {
    var a, m := s.net[act.i].dst, s.net[act.i].msg;
    assert Displayed(scheme, s, act, a) == [C.Received(id, m.srcId, m.amount)];
    CountAfter(scheme, s, act, a, C.ReceivedLine, id);
  }

  lemma ConfirmDisplays(scheme: Identity.Scheme, s: System, act: Action, id: u64)
    requires Enabled(scheme, s, act) && act.Deliver? && IsClient(s, s.net[act.i].dst)
    requires Confirms(ClientAt(s, s.net[act.i].dst), s.net[act.i].msg) && s.net[act.i].msg.paymentId == id
    ensures HasDisplayed(Apply(scheme, s, act), s.net[act.i].dst, C.ConfirmedLine, id)
  {
    var a, m := s.net[act.i].dst, s.net[act.i].msg;
    assert Displayed(scheme, s, act, a) == [C.Confirmed(id, m.fromId)];
    CountAfter(scheme, s, act, a, C.ConfirmedLine, id);
  }

  // A client comes to display a payment only by crediting it.
  lemma DisplayedByCredit(scheme: Identity.Scheme, s: System, act: Action, a: Addr, id: u64)
    requires Enabled(scheme, s, act) && IsClient(s, a) && !HasDisplayed(s, a, C.ReceivedLine, id)
    requires HasDisplayed(Apply(scheme, s, act), a, C.ReceivedLine, id)
    ensures CreditStep(s, act) && s.net[act.i].dst == a && s.net[act.i].msg.paymentId == id
  {
    CountAfter(scheme, s, act, a, C.ReceivedLine, id);
  }

  // A client's cache gains a key only from a message with that key, which it then credits or
  // displays.
  lemma SeenGains(scheme: Identity.Scheme, c: C.Client, m: Message, key: u64)
    requires key !in c.seen && key in C.Handle(scheme, c, m).client.seen
    ensures HasKey(m) && KeyOf(m) == key
    ensures m.Payment? ==> Credits(c, m)
    ensures m.PaymentAck? ==> Confirms(c, m)
  {
  }

  lemma SeenOnDelivery(scheme: Identity.Scheme, s: System, act: Action, a: Addr, key: u64)
    requires Enabled(scheme, s, act) && IsClient(s, a) && IsClient(Apply(scheme, s, act), a)
    requires key !in ClientAt(s, a).seen && key in ClientAt(Apply(scheme, s, act), a).seen
    ensures act.Deliver? && s.net[act.i].dst == a && HasKey(s.net[act.i].msg) && KeyOf(s.net[act.i].msg) == key
    ensures s.net[act.i].msg.Payment? ==> Credits(ClientAt(s, a), s.net[act.i].msg)
    ensures s.net[act.i].msg.PaymentAck? ==> Confirms(ClientAt(s, a), s.net[act.i].msg)
  {
    assert act.Deliver? && s.net[act.i].dst == a;
    SeenGains(scheme, ClientAt(s, a), s.net[act.i].msg, key);
  }

  lemma NoFalsePayment(scheme: Identity.Scheme, s: System, act: Action, j: Journey)
    requires Enabled(scheme, s, act) && Smooth(s, act, j) && Planned(Apply(scheme, s, act), j) && NoFalseHit(s, j)
    ensures var s' := Apply(scheme, s, act);
            Key(Pay, j.pay.paymentId) in ClientAt(s', Payee(j)).seen ==> IsReceived(s', j)
  {
    var a, id := Payee(j), j.pay.paymentId;
    if Key(Pay, id) in ClientAt(s, a).seen {
      DisplayStays(scheme, s, act, a, C.ReceivedLine, id);
    } else if Key(Pay, id) in ClientAt(Apply(scheme, s, act), a).seen {
      SeenOnDelivery(scheme, s, act, a, Key(Pay, id));
      assert s.net[act.i] in s.net && !Clashes(s.net[act.i].msg, id);
      SameKindInjective(Pay, s.net[act.i].msg.paymentId, id);
      CreditDisplays(scheme, s, act, id);
    }
  }

  lemma NoFalseAck(scheme: Identity.Scheme, s: System, act: Action, j: Journey)
    requires Enabled(scheme, s, act) && Smooth(s, act, j) && Planned(Apply(scheme, s, act), j) && NoFalseHit(s, j)
    ensures var s' := Apply(scheme, s, act);
            Key(Ack, j.pay.paymentId) in ClientAt(s', Payer(j)).seen ==> IsConfirmed(s', j)
  {
    var a, id := Payer(j), j.pay.paymentId;
    if Key(Ack, id) in ClientAt(s, a).seen {
      DisplayStays(scheme, s, act, a, C.ConfirmedLine, id);
    } else if Key(Ack, id) in ClientAt(Apply(scheme, s, act), a).seen {
      SeenOnDelivery(scheme, s, act, a, Key(Ack, id));
      assert s.net[act.i] in s.net && !Clashes(s.net[act.i].msg, id);
      SameKindInjective(Ack, s.net[act.i].msg.paymentId, id);
      ConfirmDisplays(scheme, s, act, id);
    }
  }

  // The payee credits the payment the first time it arrives.
  lemma ArrivalCredits(s: System, act: Action, j: Journey)
    requires Planned(s, j) && NoFalseHit(s, j) && DeliversExactly(s, act, Payee(j), j.pay) && !IsReceived(s, j)
    ensures CreditStep(s, act)
  {
  }

  // The payer displays the acknowledgement the first time it arrives.
  lemma ArrivalConfirms(s: System, act: Action, j: Journey)
    requires Planned(s, j) && NoFalseHit(s, j) && DeliversExactly(s, act, Payer(j), AckOf(s, j)) && !IsConfirmed(s, j)
    ensures Confirms(ClientAt(s, Payer(j)), AckOf(s, j))
  {
  }

  // Crediting the payment puts its acknowledgement onto the way back.
  lemma CreditSendsAck(scheme: Identity.Scheme, s: System, act: Action, path: seq<Addr>)
    requires Enabled(scheme, s, act) && CreditStep(s, act)
    requires |path| >= 2 && path[0] == s.net[act.i].dst && path[1] in ClientAt(s, path[0]).relays
    ensures var m := s.net[act.i].msg;
            OnItsWay(Apply(scheme, s, act), path, PaymentAck(m.paymentId, ClientAt(s, path[0]).peerId, m.srcId))
  {
    var m := s.net[act.i].msg;
    var ack := PaymentAck(m.paymentId, ClientAt(s, path[0]).peerId, m.srcId);
    SentOntoPath(s, path, ack, Emitted(scheme, s, act));
    InNetAfter(scheme, s, act, Packet(path[0], path[1], ack));
  }

  lemma SamePayment(s: System, act: Action, pay: Message)
    requires LedgerInv(s) && CreditStep(s, act) && pay.Payment? && Backed(s.ledger, pay)
    requires s.net[act.i].msg.paymentId == pay.paymentId
    ensures s.net[act.i].msg == pay
  {
    var i := EntryOf(s, act);
    var k :| 0 <= k < |s.ledger| && Backs(s.ledger[k], pay);
    assert i == k;
  }

  lemma BackingStays(scheme: Identity.Scheme, s: System, act: Action, pay: Message)
    requires Enabled(scheme, s, act) && pay.Payment? && Backed(s.ledger, pay)
    ensures Backed(Apply(scheme, s, act).ledger, pay)
  {
    var i :| 0 <= i < |s.ledger| && Backs(s.ledger[i], pay);
    if DebitStep(s, act) {
      DebitMoves(scheme, s, act);
    } else if CreditStep(s, act) {
      CreditMoves(scheme, s, act);
    } else {
      NothingMoves(scheme, s, act);
    }
    assert Backs(Apply(scheme, s, act).ledger[i], pay);
  }

  // While the payment is not credited it stays under way, and crediting it sends the
  // acknowledgement.
  lemma WayThere(scheme: Identity.Scheme, s: System, act: Action, j: Journey)
    requires Enabled(scheme, s, act) && LedgerInv(s) && TrueTables(s) && Smooth(s, act, j) && UnderWay(s, j)
    requires !IsReceived(s, j)
    ensures if !IsReceived(Apply(scheme, s, act), j) then OnItsWay(Apply(scheme, s, act), j.there, j.pay)
            else OnItsWay(Apply(scheme, s, act), j.back, AckOf(s, j))
  {
    if IsReceived(Apply(scheme, s, act), j) {
      DisplayedByCredit(scheme, s, act, Payee(j), j.pay.paymentId);
      SamePayment(s, act, j.pay);
      CreditSendsAck(scheme, s, act, j.back);
    } else {
      StaysOnItsWay(scheme, s, act, j.there, j.pay);
      if DeliversExactly(s, act, Payee(j), j.pay) {
        ArrivalCredits(s, act, j);
        CreditDisplays(scheme, s, act, j.pay.paymentId);
      }
    }
  }

  lemma AckArrives(scheme: Identity.Scheme, s: System, act: Action, j: Journey)
    requires Enabled(scheme, s, act) && Planned(s, j) && NoFalseHit(s, j) && !IsConfirmed(s, j)
    requires DeliversExactly(s, act, Payer(j), AckOf(s, j))
    ensures IsConfirmed(Apply(scheme, s, act), j)
  {
    ArrivalConfirms(s, act, j);
    ConfirmDisplays(scheme, s, act, j.pay.paymentId);
  }

  lemma AckStays(scheme: Identity.Scheme, s: System, act: Action, j: Journey)
    requires Enabled(scheme, s, act) && UniqueNames(s) && TrueTables(s)
    requires Planned(s, j) && Open(s, j.back) && !Loses(s, act, AckOf(s, j))
    requires OnItsWay(s, j.back, AckOf(s, j)) && !DeliversExactly(s, act, Payer(j), AckOf(s, j))
    ensures OnItsWay(Apply(scheme, s, act), j.back, AckOf(s, j))
  {
    StaysOnItsWay(scheme, s, act, j.back, AckOf(s, j));
  }

  // The acknowledgement stays under way until the payer displays it.
  lemma WayBack(scheme: Identity.Scheme, s: System, act: Action, j: Journey)
    requires Enabled(scheme, s, act) && UniqueNames(s) && TrueTables(s) && Smooth(s, act, j)
    requires NoFalseHit(s, j) && OnItsWay(s, j.back, AckOf(s, j)) && !IsConfirmed(s, j)
    ensures OnItsWay(Apply(scheme, s, act), j.back, AckOf(s, j)) || IsConfirmed(Apply(scheme, s, act), j)
  {
    var ack := AckOf(s, j);
    if DeliversExactly(s, act, Payer(j), ack) {
      AckArrives(scheme, s, act, j);
    } else {
      AckStays(scheme, s, act, j);
    }
  }

  lemma JourneyStep(scheme: Identity.Scheme, s: System, act: Action, j: Journey)
    requires Enabled(scheme, s, act) && LedgerInv(s) && TrueTables(s) && Smooth(s, act, j) && UnderWay(s, j)
    ensures UnderWay(Apply(scheme, s, act), j)
  {
    WorldFixed(scheme, s, act);
    PlanStays(s, Apply(scheme, s, act), j);
    BackingStays(scheme, s, act, j.pay);
    NoFalsePayment(scheme, s, act, j);
    NoFalseAck(scheme, s, act, j);
    if IsReceived(s, j) {
      DisplayStays(scheme, s, act, Payee(j), C.ReceivedLine, j.pay.paymentId);
      if IsConfirmed(s, j) {
        DisplayStays(scheme, s, act, Payer(j), C.ConfirmedLine, j.pay.paymentId);
      } else {
        WayBack(scheme, s, act, j);
      }
    } else {
      WayThere(scheme, s, act, j);
    }
  }

  // The step that issues the payment of the journey, under an id whose dedup keys are unknown
  // to payee and payer.
  ghost predicate Issues(s: System, act: Action, j: Journey) {
    && Planned(s, j)
    && Key(Pay, j.pay.paymentId) !in ClientAt(s, Payee(j)).seen
    && Key(Ack, j.pay.paymentId) !in ClientAt(s, Payer(j)).seen
    && DebitStep(s, act)
    && act.who == Payer(j)
    && j.pay == Payment(ClientAt(s, act.who).peerId, act.dstId, act.amount, act.paymentId)
  }

  lemma IssuedOntoPath(scheme: Identity.Scheme, s: System, act: Action, j: Journey)
    requires Enabled(scheme, s, act) && Issues(s, act, j)
    ensures OnItsWay(Apply(scheme, s, act), j.there, j.pay)
    ensures Backed(Apply(scheme, s, act).ledger, j.pay)
  {
    SentOntoPath(s, j.there, j.pay, Emitted(scheme, s, act));
    InNetAfter(scheme, s, act, Packet(j.there[0], j.there[1], j.pay));
    DebitMoves(scheme, s, act);
    assert Backs(Apply(scheme, s, act).ledger[|s.ledger|], j.pay);
  }

  // Issuing the payment starts the journey.
  lemma JourneyStarts(scheme: Identity.Scheme, s: System, act: Action, j: Journey)
    requires Enabled(scheme, s, act) && LedgerInv(s) && FreshPayment(s, act) && Issues(s, act, j)
    ensures UnderWay(Apply(scheme, s, act), j)
  {
    WorldFixed(scheme, s, act);
    PlanStays(s, Apply(scheme, s, act), j);
    IssuedOntoPath(scheme, s, act, j);
    assert LogMatches(s, Payee(j), j.pay.paymentId);
    if IsReceived(Apply(scheme, s, act), j) {
      DisplayedByCredit(scheme, s, act, Payee(j), j.pay.paymentId);
    }
  }

  // ---------- the theorem ----------

  // A run in which the payment of the journey is issued by step `start` and then nothing of
  // it is lost and its routes stay registered.
  ghost predicate JourneyRun(scheme: Identity.Scheme, states: seq<System>, actions: seq<Action>, j: Journey,
                             start: nat)
  {
    && PaymentRun(scheme, states, actions)
    && RegistryInv(states[0])
    && start < |actions|
    && IssuesAt(states, actions, j, start)
    && forall k :: start < k < |actions| ==> SmoothAt(states, actions, j, k)
  }

  ghost predicate IssuesAt(states: seq<System>, actions: seq<Action>, j: Journey, k: nat)
    requires k < |actions| && |states| == |actions| + 1
  {
    Issues(states[k], actions[k], j)
  }

  ghost predicate SmoothAt(states: seq<System>, actions: seq<Action>, j: Journey, k: nat)
    requires k < |actions| && |states| == |actions| + 1
  {
    Smooth(states[k], actions[k], j)
  }

  ghost predicate UnderWayAt(states: seq<System>, j: Journey, k: nat)
    requires k < |states|
  {
    UnderWay(states[k], j)
  }

  lemma {:induction false} JourneyGoesOn(scheme: Identity.Scheme, states: seq<System>, actions: seq<Action>, j: Journey,
                                         start: nat, k: nat)
    requires JourneyRun(scheme, states, actions, j, start) && start < k <= |actions|
    ensures UnderWayAt(states, j, k)
  {
    if k == start + 1 {
      JourneyBegins(scheme, states, actions, j, start);
    } else {
      JourneyGoesOn(scheme, states, actions, j, start, k - 1);
      JourneyContinues(scheme, states, actions, j, start, k);
    }
  }

  lemma SoundAt(scheme: Identity.Scheme, states: seq<System>, actions: seq<Action>, k: nat)
    requires PaymentRun(scheme, states, actions) && RegistryInv(states[0]) && k <= |actions|
    ensures LedgerInv(states[k]) && TrueTables(states[k])
  {
    Conservation(scheme, states, actions, k);
    RegistryHolds(scheme, states, actions, k);
  }

  lemma JourneyBegins(scheme: Identity.Scheme, states: seq<System>, actions: seq<Action>, j: Journey, start: nat)
    requires JourneyRun(scheme, states, actions, j, start)
    ensures UnderWayAt(states, j, start + 1)
  {
    Conservation(scheme, states, actions, start);
    assert StepAt(scheme, states, actions, start) && PaymentStepAt(states, actions, start);
    JourneyStarts(scheme, states[start], actions[start], j);
  }

  lemma JourneyContinues(scheme: Identity.Scheme, states: seq<System>, actions: seq<Action>, j: Journey, start: nat,
                         k: nat)
    requires JourneyRun(scheme, states, actions, j, start) && start + 1 < k <= |actions|
    requires UnderWayAt(states, j, k - 1)
    ensures UnderWayAt(states, j, k)
  {
    SoundAt(scheme, states, actions, k - 1);
    assert StepAt(scheme, states, actions, k - 1) && SmoothAt(states, actions, j, k - 1);
    JourneyStep(scheme, states[k - 1], actions[k - 1], j);
  }

  // Once no copy of the payment or its acknowledgement is in flight, the owner of the
  // destination name has credited it exactly once, no other client has, and the payer has
  // displayed its confirmation. The federation may have any shape.
  lemma PaymentRoundTrip(scheme: Identity.Scheme, states: seq<System>, actions: seq<Action>, j: Journey,
                         start: nat, k: nat)
    requires JourneyRun(scheme, states, actions, j, start) && start < k <= |actions|
    requires forall p :: p in states[k].net ==> p.msg != j.pay
    requires IsClient(states[k], Payee(j)) ==> forall p :: p in states[k].net ==> p.msg != AckOf(states[k], j)
    ensures IsClient(states[k], Payee(j)) && IsClient(states[k], Payer(j))
    ensures C.Count(ClientAt(states[k], Payee(j)).log, C.ReceivedLine, j.pay.paymentId) == 1
    ensures forall a :: IsClient(states[k], a) && a != Payee(j) ==>
                          C.Count(ClientAt(states[k], a).log, C.ReceivedLine, j.pay.paymentId) == 0
    ensures C.Count(ClientAt(states[k], Payer(j)).log, C.ConfirmedLine, j.pay.paymentId) >= 1
    ensures NoLateAcks(states, actions) ==>
              C.Count(ClientAt(states[k], Payer(j)).log, C.ConfirmedLine, j.pay.paymentId) == 1
  {
    JourneyGoesOn(scheme, states, actions, j, start, k);
    Conservation(scheme, states, actions, k);
    JourneyEnds(states[k], j);
    if NoLateAcks(states, actions) {
      AckInvHolds(scheme, states, actions, k);
      assert ConfirmationsEarned(states[k], Payer(j));
    }
  }

  // In particular a payment to a fingerprint, a name no relay can look up, reaches its owner.
  lemma FingerprintIsPaid(scheme: Identity.Scheme, states: seq<System>, actions: seq<Action>, j: Journey,
                          start: nat, k: nat, payee: C.Client)
    requires JourneyRun(scheme, states, actions, j, start) && start < k <= |actions|
    requires forall p :: p in states[k].net ==> p.msg != j.pay
    requires IsClient(states[k], Payee(j)) ==> forall p :: p in states[k].net ==> p.msg != AckOf(states[k], j)
    requires states[start].nodes[Payee(j)] == ClientNode(payee) && j.pay.dstId == payee.fp
    ensures IsClient(states[k], Payee(j)) && IsClient(states[k], Payer(j))
    ensures ClientAt(states[k], Payee(j)).fp == j.pay.dstId
    ensures C.Count(ClientAt(states[k], Payee(j)).log, C.ReceivedLine, j.pay.paymentId) == 1
    ensures C.Count(ClientAt(states[k], Payer(j)).log, C.ConfirmedLine, j.pay.paymentId) >= 1
  {
    PaymentRoundTrip(scheme, states, actions, j, start, k);
    FingerprintStays(scheme, states, actions, Payee(j), start, k);
  }

  lemma {:induction false} FingerprintStays(scheme: Identity.Scheme, states: seq<System>, actions: seq<Action>, a: Addr,
                                            i: nat, k: nat)
    requires IsRun(scheme, states, actions) && i <= k <= |actions| && IsClient(states[i], a)
    ensures IsClient(states[k], a) && ClientAt(states[k], a).fp == ClientAt(states[i], a).fp
  {
    if i < k {
      FingerprintStays(scheme, states, actions, a, i, k - 1);
      assert StepAt(scheme, states, actions, k - 1);
      WorldFixed(scheme, states[k - 1], actions[k - 1]);
      assert SameIdentity(states[k - 1].nodes[a], states[k].nodes[a]);
    }
  }

  // A journey of which nothing is in flight any more is complete.
  lemma JourneyEnds(s: System, j: Journey)
    requires UnderWay(s, j) && LedgerInv(s)
    requires forall p :: p in s.net ==> p.msg != j.pay && p.msg != AckOf(s, j)
    ensures C.Count(ClientAt(s, Payee(j)).log, C.ReceivedLine, j.pay.paymentId) == 1
    ensures IsConfirmed(s, j)
    ensures forall a :: IsClient(s, a) && a != Payee(j) ==>
                          C.Count(ClientAt(s, a).log, C.ReceivedLine, j.pay.paymentId) == 0
  {
    assert LogMatches(s, Payee(j), j.pay.paymentId);
    forall a | IsClient(s, a) && a != Payee(j)
      ensures C.Count(ClientAt(s, a).log, C.ReceivedLine, j.pay.paymentId) == 0
    {
      OnlyOwnerCredits(s, j.pay, Payee(j), a);
    }
  }

  lemma OnlyOwnerCredits(s: System, pay: Message, owner: Addr, a: Addr)
    requires LedgerInv(s) && pay.Payment? && Backed(s.ledger, pay)
    requires IsClient(s, owner) && C.Owns(ClientAt(s, owner), pay.dstId) && IsClient(s, a) && a != owner
    ensures C.Count(ClientAt(s, a).log, C.ReceivedLine, pay.paymentId) == 0
  {
    var i :| 0 <= i < |s.ledger| && Backs(s.ledger[i], pay);
    assert LogMatches(s, a, pay.paymentId);
    assert forall n :: 0 <= n < |s.ledger| && s.ledger[n].id == pay.paymentId ==> n == i;
  }
}
