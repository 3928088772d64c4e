// The condition of the conservation theorem is needed: a run in which a duplicate of a payment
// outlives the payee's memory of it, and is credited a second time.

module Eviction {
  import opened Wrappers
  import opened Words
  import opened Messages
  import opened DedupKeys
  import opened Network
  import opened Ledger
  import Identity
  import S = SeenIds
  import R = Relays
  import C = Clients

  const PAYER: Addr := 0
  const PAYEE: Addr := 1
  const RELAY: Addr := 2

  // The key of the payment is none of the ids of the texts that push it out.
  const KEY: u64 := CACHE_SIZE

  function PaymentId(): (id: u64)
    ensures Key(Pay, id) == KEY
  {
    KeyBijective(Pay, KEY);
    Key(Pay, KEY)
  }

  function ThePayment(): Message {
    Payment("payer", "payee", 1, PaymentId())
  }

  function Receipt(): C.Line {
    C.Received(PaymentId(), "payer", 1)
  }

  function PayerAt(balance: u64, log: seq<C.Line>): C.Client {
    C.Client("payer", "f0", "b0", [RELAY], [], balance, balance, log)
  }

  function PayeeAt(balance: u64, seen: seq<u64>, log: seq<C.Line>): C.Client {
    C.Client("payee", "f1", "b1", [RELAY], seen, balance, balance, log)
  }

  function TheRelay(seen: seq<u64>): R.Relay {
    R.Relay("r", [], map[PAYEE := R.PeerEntry("payee", 0, None)], seen)
  }

  // Before the payment, and after it while the payee knows this much of it.
  function Start(): System {
    System([ClientNode(PayerAt(1, [])), ClientNode(PayeeAt(0, [], [])), RelayNode(TheRelay([]))], [], [])
  }

  function Paid(payee: C.Client, relaySeen: seq<u64>, settled: bool, net: seq<Packet>): System {
    System(
      [ClientNode(PayerAt(0, [C.Sent(PaymentId(), "payee", 1)])), ClientNode(payee), RelayNode(TheRelay(relaySeen))],
      net,
      [Entry(PaymentId(), PAYER, "payer", "payee", 1, settled)])
  }

  function Forwarded(): Packet {
    Packet(RELAY, PAYEE, ThePayment())
  }

  function TheAck(): Packet {
    Packet(PAYEE, RELAY, PaymentAck(PaymentId(), "payee", "payer"))
  }

  // ---------- steps of the payee and of the relay ----------

  lemma PayeeStep(scheme: Identity.Scheme, c: C.Client, seen: seq<u64>, settled: bool, net: seq<Packet>, i: nat)
    requires i < |net| && net[i].dst == PAYEE
    requires net[i].msg.Payment? && Credits(c, net[i].msg) ==> net[i].msg.paymentId == PaymentId()
    ensures var s, act, r := Paid(c, seen, settled, net), Deliver(i, []), C.Handle(scheme, c, net[i].msg);
            && Enabled(scheme, s, act)
            && Apply(scheme, s, act)
            == Paid(r.client, seen, settled || Credits(c, net[i].msg), Without(net, i) + From(PAYEE, r.sends))
  {
    var s, act, r := Paid(c, seen, settled, net), Deliver(i, []), C.Handle(scheme, c, net[i].msg);
    var s' := Apply(scheme, s, act);
    var paid := Paid(r.client, seen, settled || Credits(c, net[i].msg), Without(net, i) + From(PAYEE, r.sends));
    assert s'.nodes == paid.nodes;
    assert s'.ledger == paid.ledger;
  }

  lemma RelayStep(scheme: Identity.Scheme, c: C.Client, seen: seq<u64>, settled: bool, net: seq<Packet>, m: Message)
    requires Original(scheme, m) && m.srcId == "r" && R.IsOrder([PAYEE], TheRelay(seen).peers.Keys)
    ensures var s, act := Paid(c, seen, settled, net), RelaySay(RELAY, m, [PAYEE]);
            && Enabled(scheme, s, act)
            && Apply(scheme, s, act)
            == Paid(c, S.Admit(seen, CACHE_SIZE, m.msgId), settled, net + [Packet(RELAY, PAYEE, m)])
  {
    TheOrder(seen);
    var s := Paid(c, seen, settled, net);
    var r := TheRelay(S.Admit(seen, CACHE_SIZE, m.msgId));
    assert R.Say(TheRelay(seen), [PAYEE], m) == R.Reaction(r, SendAll([PAYEE], m));
    assert From(RELAY, SendAll([PAYEE], m)) == [Packet(RELAY, PAYEE, m)];
    assert s.nodes[RELAY := RelayNode(r)] == Paid(c, r.seen, settled, net).nodes;
  }

  lemma SpeaksTo(scheme: Identity.Scheme, c: C.Client, seen: seq<u64>, m: Message)
    requires Original(scheme, m) && m.srcId == "r" && R.IsOrder([PAYEE], TheRelay(seen).peers.Keys)
    ensures var s, act := Paid(c, seen, true, [Forwarded()]), RelaySay(RELAY, m, [PAYEE]);
            && Enabled(scheme, s, act)
            && !CreditStep(s, act)
            && Apply(scheme, s, act)
            == Paid(c, S.Admit(seen, CACHE_SIZE, m.msgId), true, [Forwarded(), Packet(RELAY, PAYEE, m)])
  {
    RelayStep(scheme, c, seen, true, [Forwarded()], m);
    assert [Forwarded()] + [Packet(RELAY, PAYEE, m)] == [Forwarded(), Packet(RELAY, PAYEE, m)];
  }

  lemma ReadsFrom(scheme: Identity.Scheme, c: C.Client, seen: seq<u64>, m: Message, c': C.Client)
    requires m.Classic? && C.Handle(scheme, c, m) == C.Reaction(c', [])
    ensures var s, act := Paid(c, seen, true, [Forwarded(), Packet(RELAY, PAYEE, m)]), Deliver(1, []);
            && Enabled(scheme, s, act)
            && !CreditStep(s, act)
            && Apply(scheme, s, act) == Paid(c', seen, true, [Forwarded()])
  {
    var net := [Forwarded(), Packet(RELAY, PAYEE, m)];
    assert Without(net, 1) + From(PAYEE, []) == [Forwarded()];
    PayeeStep(scheme, c, seen, true, net, 1);
  }

  lemma ClientReads(scheme: Identity.Scheme, c: C.Client, m: Message)
    requires Original(scheme, m) && m.msgId !in c.seen
    ensures C.Handle(scheme, c, m)
         == C.Reaction(c.(seen := S.Admit(c.seen, CACHE_SIZE, m.msgId), log := c.log + [ShownLine(m)]), [])
  {
  }

  // ---------- the payment is credited, and a copy of it stays in flight ----------

  function Unread(net: seq<Packet>): System {
    Paid(PayeeAt(0, [], []), [], false, net)
  }

  function Sent(): System {
    Unread([Packet(PAYER, RELAY, ThePayment())])
  }

  function Doubled(): System {
    Unread([Forwarded(), Forwarded()])
  }

  lemma TheOrder(seen: seq<u64>)
    ensures R.IsOrder([PAYEE], TheRelay(seen).peers.Keys)
    ensures R.Targets([PAYEE], NOWHERE) == [PAYEE]
  {
    assert PAYEE in [PAYEE];
    assert [PAYEE][1..] == [];
  }

  lemma PayerPays()
    ensures C.MakePayment(PayerAt(1, []), "payee", 1, PaymentId())
         == C.Reaction(PayerAt(0, [C.Sent(PaymentId(), "payee", 1)]), SendAll([RELAY], ThePayment()))
  {
    assert [] + [C.Sent(PaymentId(), "payee", 1)] == [C.Sent(PaymentId(), "payee", 1)];
  }

  lemma PaysFirst(scheme: Identity.Scheme)
    ensures var act := ClientPay(PAYER, "payee", 1, PaymentId());
            Enabled(scheme, Start(), act) && Apply(scheme, Start(), act) == Sent() && NothingRead(Sent())
  {
    PayerPays();
    assert From(PAYER, SendAll([RELAY], ThePayment())) == Sent().net;
    PaidNodes();
  }

  lemma PaidNodes()
    ensures Start().nodes[PAYER := ClientNode(PayerAt(0, [C.Sent(PaymentId(), "payee", 1)]))] == Sent().nodes
  {
  }

  lemma RelayRoutes()
    ensures R.Route(TheRelay([]), [PAYEE], PAYER, "payee", ThePayment()) == [Send(PAYEE, ThePayment())]
  {
    assert R.FindPeer(TheRelay([]).peers, [PAYEE], "payee") == Some(PAYEE);
  }

  lemma RelayForwards(scheme: Identity.Scheme)
    ensures Enabled(scheme, Sent(), Deliver(0, [PAYEE]))
    ensures Apply(scheme, Sent(), Deliver(0, [PAYEE])) == Unread([Forwarded()])
  {
    TheOrder([]);
    var s := Sent();
    RelayRoutes();
    var s' := Apply(scheme, s, Deliver(0, [PAYEE]));
    assert Without(s.net, 0) == [];
    assert s'.nodes == s.nodes;
    assert s'.net == [Forwarded()];
  }

  // A state some run of the conservation theorem leads to.
  ghost predicate Reachable(scheme: Identity.Scheme, s: System) {
    exists states, actions :: RunTo(scheme, states, actions, s)
  }

  lemma NextReachable(scheme: Identity.Scheme, s: System, act: Action)
    requires Reachable(scheme, s) && Enabled(scheme, s, act) && FreshPayment(s, act) && !CreditStep(s, act)
    ensures Reachable(scheme, Apply(scheme, s, act))
  {
    var states, actions :| RunTo(scheme, states, actions, s);
    Extend(scheme, states, actions, act);
  }

  // A state some run leads to in which the payee accepts nothing.
  ghost predicate ReachableUnread(scheme: Identity.Scheme, s: System) {
    exists states, actions :: RunTo(scheme, states, actions, s) && AllUnread(states)
  }

  predicate AllUnread(states: seq<System>) {
    forall s :: s in states ==> NothingRead(s)
  }

  predicate NothingRead(s: System) {
    IsNode(s, PAYEE) && Seen(s.nodes[PAYEE]) == []
  }

  lemma NextUnread(scheme: Identity.Scheme, s: System, act: Action)
    requires ReachableUnread(scheme, s) && Enabled(scheme, s, act) && FreshPayment(s, act) && !CreditStep(s, act)
    requires NothingRead(Apply(scheme, s, act))
    ensures ReachableUnread(scheme, Apply(scheme, s, act))
  {
    var states, actions :| RunTo(scheme, states, actions, s) && AllUnread(states);
    Extend(scheme, states, actions, act);
    assert AllUnread(states + [Apply(scheme, s, act)]);
  }

  lemma FirstCredit(scheme: Identity.Scheme, s: System, act: Action)
    requires ReachableUnread(scheme, s) && Enabled(scheme, s, act) && CreditStep(s, act) && s.net[act.i].dst == PAYEE
    ensures Reachable(scheme, Apply(scheme, s, act))
  {
    var states, actions :| RunTo(scheme, states, actions, s) && AllUnread(states);
    assert forall j :: 0 <= j < |states| ==> NothingRead(states[j]);
    Extend(scheme, states, actions, act);
  }

  lemma StartTotal()
    ensures Total(Start()) == 1
  {
    var nodes := Start().nodes;
    assert nodes[1..][1..] == [nodes[2]] && nodes[2..][1..] == [];
  }

  lemma StartIsOpening()
    ensures Opening(Start()) && Total(Start()) == 1
  {
    StartTotal();
  }

  lemma StartReachable(scheme: Identity.Scheme)
    ensures ReachableUnread(scheme, Start())
  {
    StartIsOpening();
    var actions: seq<Action> := [];
    assert RunTo(scheme, [Start()], actions, Start());
  }

  lemma Pays(scheme: Identity.Scheme)
    ensures ReachableUnread(scheme, Sent())
  {
    StartReachable(scheme);
    PaysFirst(scheme);
    NextUnread(scheme, Start(), ClientPay(PAYER, "payee", 1, PaymentId()));
  }

  lemma Doubles(scheme: Identity.Scheme)
    ensures ReachableUnread(scheme, Doubled())
  {
    Pays(scheme);
    RelayForwards(scheme);
    NextUnread(scheme, Sent(), Deliver(0, [PAYEE]));
    assert [Forwarded()] + [Forwarded()] == [Forwarded(), Forwarded()];
    NextUnread(scheme, Unread([Forwarded()]), Duplicate(0));
  }

  // The payee as it is after crediting and then displaying j texts.
  ghost function PayeeAfter(texts: seq<Message>, j: nat): C.Client
    requires j <= CACHE_SIZE && Numbered(texts)
  {
    PayeeAt(1, Remembered(j), Feed(texts, j))
  }

  function Remembered(j: nat): seq<u64>
    requires j <= CACHE_SIZE
  {
    if j < CACHE_SIZE then [KEY] + Ids(j) else Ids(j)
  }

  function Ids(j: nat): seq<u64>
    requires j <= CACHE_SIZE
  {
    seq(j, i requires 0 <= i < j => i)
  }

  // As many texts of the relay as the cache holds, under consecutive ids.
  ghost predicate Numbered(texts: seq<Message>) {
    && |texts| == CACHE_SIZE
    && forall i :: 0 <= i < |texts| ==> texts[i].Classic? && texts[i].msgId == i && texts[i].srcId == "r"
  }

  function ShownLine(m: Message): C.Line
    requires m.Classic?
  {
    C.Shown(m.msgId, m.srcId, m.txt)
  }

  ghost function Feed(texts: seq<Message>, j: nat): seq<C.Line>
    requires j <= CACHE_SIZE && Numbered(texts)
  {
    [Receipt()] + Shown(texts, j)
  }

  ghost function Shown(texts: seq<Message>, j: nat): (lines: seq<C.Line>)
    requires j <= CACHE_SIZE && Numbered(texts)
    ensures |lines| == j && forall i :: 0 <= i < j ==> lines[i] == ShownLine(texts[i])
  {
    seq(j, i requires 0 <= i < j => ShownLine(texts[i]))
  }

  ghost function Quiet(texts: seq<Message>, j: nat): System
    requires j <= CACHE_SIZE && Numbered(texts)
  {
    Paid(PayeeAfter(texts, j), Ids(j), true, [Forwarded()])
  }

  lemma PayeeCredits(scheme: Identity.Scheme, texts: seq<Message>)
    requires Numbered(texts)
    ensures C.Handle(scheme, PayeeAt(0, [], []), ThePayment())
         == C.Reaction(PayeeAfter(texts, 0), [Send(RELAY, TheAck().msg)])
  {
    assert S.Admit([], CACHE_SIZE, KEY) == Remembered(0);
    assert [] + [Receipt()] == Feed(texts, 0);
    assert SendAll([RELAY], TheAck().msg) == [Send(RELAY, TheAck().msg)];
  }

  lemma Credited(scheme: Identity.Scheme, texts: seq<Message>)
    requires Numbered(texts)
    ensures Reachable(scheme, Paid(PayeeAfter(texts, 0), Ids(0), true, [Forwarded(), TheAck()]))
  {
    var c, net := PayeeAt(0, [], []), [Forwarded(), Forwarded()];
    Doubles(scheme);
    assert Without(net, 0) + From(PAYEE, [Send(RELAY, TheAck().msg)]) == [Forwarded(), TheAck()];
    PayeeCredits(scheme, texts);
    PayeeStep(scheme, c, [], false, net, 0);
    assert Ids(0) == [];
    FirstCredit(scheme, Doubled(), Deliver(0, []));
  }

  lemma CreditedQuiet(scheme: Identity.Scheme, texts: seq<Message>)
    requires Numbered(texts)
    ensures Reachable(scheme, Quiet(texts, 0))
  {
    var acked := Paid(PayeeAfter(texts, 0), Ids(0), true, [Forwarded(), TheAck()]);
    Credited(scheme, texts);
    NextReachable(scheme, acked, Drop(1));
    assert Without(acked.net, 1) == [Forwarded()];
  }

  // ---------- texts push the key out of the payee's cache ----------

  ghost predicate AllSigned(scheme: Identity.Scheme, texts: seq<Message>) {
    Numbered(texts) && forall i :: 0 <= i < |texts| ==> Original(scheme, texts[i])
  }

  ghost function Spoken(texts: seq<Message>, j: nat): System
    requires j < CACHE_SIZE && Numbered(texts)
  {
    Paid(PayeeAfter(texts, j), Ids(j + 1), true, [Forwarded(), Packet(RELAY, PAYEE, texts[j])])
  }

  lemma Speaks(scheme: Identity.Scheme, texts: seq<Message>, j: nat)
    requires j < CACHE_SIZE && AllSigned(scheme, texts) && Reachable(scheme, Quiet(texts, j))
    ensures Reachable(scheme, Spoken(texts, j))
  {
    TheOrder(Ids(j));
    assert Original(scheme, texts[j]);
    RelayRemembers(j);
    SpeaksTo(scheme, PayeeAfter(texts, j), Ids(j), texts[j]);
    NextReachable(scheme, Quiet(texts, j), RelaySay(RELAY, texts[j], [PAYEE]));
  }

  lemma RelayRemembers(j: nat)
    requires j < CACHE_SIZE
    ensures S.Admit(Ids(j), CACHE_SIZE, j) == Ids(j + 1)
  {
  }

  lemma PayeeRemembers(j: nat)
    requires j < CACHE_SIZE
    ensures j !in Remembered(j) && S.Admit(Remembered(j), CACHE_SIZE, j) == Remembered(j + 1)
  {
    assert Ids(j + 1) == Ids(j) + [j];
    assert ([KEY] + Ids(j))[1..] == Ids(j);
  }

  lemma FeedGrows(texts: seq<Message>, j: nat)
    requires j < CACHE_SIZE && Numbered(texts)
    ensures Feed(texts, j) + [ShownLine(texts[j])] == Feed(texts, j + 1)
  {
    ShownGrows(texts, j);
    PushAfter([Receipt()], Shown(texts, j), ShownLine(texts[j]));
  }

  lemma ShownGrows(texts: seq<Message>, j: nat)
    requires j < CACHE_SIZE && Numbered(texts)
    ensures Shown(texts, j) + [ShownLine(texts[j])] == Shown(texts, j + 1)
  {
  }

  lemma PushAfter<T>(s: seq<T>, t: seq<T>, x: T)
    ensures s + t + [x] == s + (t + [x])
  {
  }

  lemma PayeeReads(scheme: Identity.Scheme, texts: seq<Message>, j: nat)
    requires j < CACHE_SIZE && AllSigned(scheme, texts)
    ensures C.Handle(scheme, PayeeAfter(texts, j), texts[j]) == C.Reaction(PayeeAfter(texts, j + 1), [])
  {
    assert Original(scheme, texts[j]) && texts[j].msgId == j && texts[j].srcId == "r";
    PayeeRemembers(j);
    FeedGrows(texts, j);
    ClientReads(scheme, PayeeAfter(texts, j), texts[j]);
  }

  lemma Hears(scheme: Identity.Scheme, texts: seq<Message>, j: nat)
    requires j < CACHE_SIZE && AllSigned(scheme, texts) && Reachable(scheme, Spoken(texts, j))
    ensures Reachable(scheme, Quiet(texts, j + 1))
  {
    PayeeReads(scheme, texts, j);
    ReadsFrom(scheme, PayeeAfter(texts, j), Ids(j + 1), texts[j], PayeeAfter(texts, j + 1));
    NextReachable(scheme, Spoken(texts, j), Deliver(1, []));
  }

  lemma {:induction false} AllTexts(scheme: Identity.Scheme, texts: seq<Message>, j: nat)
    requires j <= CACHE_SIZE && AllSigned(scheme, texts)
    ensures Heard(scheme, texts, j)
  {
    if j == 0 {
      CreditedQuiet(scheme, texts);
    } else {
      AllTexts(scheme, texts, j - 1);
      NextText(scheme, texts, j - 1);
    }
  }

  // Some run leads to the state in which the payee has displayed j texts.
  ghost predicate Heard(scheme: Identity.Scheme, texts: seq<Message>, j: nat)
    requires j <= CACHE_SIZE && Numbered(texts)
  {
    Reachable(scheme, Quiet(texts, j))
  }

  lemma NextText(scheme: Identity.Scheme, texts: seq<Message>, j: nat)
    requires j < CACHE_SIZE && AllSigned(scheme, texts) && Heard(scheme, texts, j)
    ensures Heard(scheme, texts, j + 1)
  {
    Speaks(scheme, texts, j);
    Hears(scheme, texts, j);
  }

  // ---------- the copy arrives ----------

  // A run without late payments, and a step that credits a displayed payment once more and
  // makes money.
  ghost predicate MakesMoney(scheme: Identity.Scheme, states: seq<System>, actions: seq<Action>, act: Action) {
    && PaymentRun(scheme, states, actions)
    && Enabled(scheme, states[|actions|], act)
    && RedeliversEvicted(states, |actions|, act)
    && Total(Apply(scheme, states[|actions|], act)) > Total(states[0])
  }

  lemma CopyIsStale(texts: seq<Message>)
    requires Numbered(texts)
    ensures StaleRedelivery(Quiet(texts, CACHE_SIZE), Deliver(0, []))
  {
    ReceiptCounts();
    CountKept([Receipt()], Shown(texts, CACHE_SIZE), C.ReceivedLine, PaymentId());
  }

  lemma ReceiptCounts()
    ensures C.Count([Receipt()], C.ReceivedLine, PaymentId()) == 1
  {
    C.CountPush([], Receipt(), C.ReceivedLine, PaymentId());
    assert [] + [Receipt()] == [Receipt()];
  }

  lemma {:induction false} CountKept(log: seq<C.Line>, more: seq<C.Line>, kind: C.LineKind, id: u64)
    ensures C.Count(log + more, kind, id) >= C.Count(log, kind, id)
  {
    if more == [] {
      assert log + more == log;
    } else {
      var n := |more| - 1;
      assert log + more == log + more[..n] + [more[n]];
      CountKept(log, more[..n], kind, id);
      C.CountPush(log + more[..n], more[n], kind, id);
    }
  }

  // Whoever can sign can bring it about: a duplicate, and as many texts as the cache holds.
  lemma SecondCreditHappens(scheme: Identity.Scheme, texts: seq<Message>)
    requires AllSigned(scheme, texts)
    ensures exists states, actions, act :: MakesMoney(scheme, states, actions, act)
  {
    AllTexts(scheme, texts, CACHE_SIZE);
    var states, actions :| RunTo(scheme, states, actions, Quiet(texts, CACHE_SIZE));
    var act := Deliver(0, []);
    CopyIsStale(texts);
    Conservation(scheme, states, actions, |actions|);
    SecondCreditIff(scheme, states, actions, |actions|, act);
    SecondCreditGains(scheme, states[|actions|], act);
    assert MakesMoney(scheme, states, actions, act);
  }
}
