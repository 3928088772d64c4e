// Money is conserved: over every run with loss, duplication and reordering, balances plus
// payments not yet credited stay equal to the initial total, as long as no copy of a payment
// comes again after the payee's cache has evicted its key.

module Ledger {
  import opened Words
  import opened Messages
  import opened DedupKeys
  import opened Network
  import opened Memory
  import Identity
  import W = Wallet
  import S = SeenIds
  import C = Clients

  // ---------- what is summed ----------

  function Balance(n: Node): u64 {
    match n
    case RelayNode(_) => 0
    case ClientNode(c) => c.balance
  }

  function SumBalances(nodes: seq<Node>): nat {
    if nodes == [] then 0 else Balance(nodes[0]) + SumBalances(nodes[1..])
  }

  // The amounts debited and not yet credited.
  function Pending(ledger: seq<Entry>): nat {
    if ledger == [] then 0 else (if ledger[0].settled then 0 else ledger[0].amount) + Pending(ledger[1..])
  }

  function Total(s: System): nat {
    SumBalances(s.nodes) + Pending(s.ledger)
  }

  // ---------- invariant ----------

  // No two clients answer to one name.
  ghost predicate UniqueNames(s: System) {
    forall a, b, name :: IsClient(s, a) && IsClient(s, b)
                         && C.Owns(ClientAt(s, a), name) && C.Owns(ClientAt(s, b), name) ==>
                           a == b
  }

  predicate HasEntry(ledger: seq<Entry>, id: u64) {
    exists i :: 0 <= i < |ledger| && ledger[i].id == id
  }

  ghost predicate DistinctIds(ledger: seq<Entry>) {
    forall i, j :: 0 <= i < j < |ledger| ==> ledger[i].id != ledger[j].id
  }

  // A payment message repeats the terms of a recorded payment.
  predicate Backs(e: Entry, m: Message)
    requires m.Payment?
  {
    e.id == m.paymentId && e.src == m.srcId && e.dst == m.dstId && e.amount == m.amount
  }

  ghost predicate Backed(ledger: seq<Entry>, m: Message)
    requires m.Payment?
  {
    exists i :: 0 <= i < |ledger| && Backs(ledger[i], m)
  }

  predicate IssuedBy(ledger: seq<Entry>, a: Addr, id: u64) {
    exists i :: 0 <= i < |ledger| && ledger[i].id == id && ledger[i].payer == a
  }

  predicate CreditedTo(ledger: seq<Entry>, c: C.Client, id: u64) {
    exists i :: 0 <= i < |ledger| && ledger[i].id == id && ledger[i].settled && C.Owns(c, ledger[i].dst)
  }

  // Each client's log tells of exactly the payments it issued and was credited, once each.
  ghost predicate LogsMatch(s: System) {
    forall a, id :: IsClient(s, a) ==> LogMatches(s, a, id)
  }

  ghost predicate LogMatches(s: System, a: Addr, id: u64)
    requires IsClient(s, a)
  {
    var c := ClientAt(s, a);
    && C.Count(c.log, C.SentLine, id) == (if IssuedBy(s.ledger, a, id) then 1 else 0)
    && C.Count(c.log, C.ReceivedLine, id) == (if CreditedTo(s.ledger, c, id) then 1 else 0)
  }

  ghost predicate EntrySound(s: System, e: Entry) {
    && e.amount > 0
    && IsClient(s, e.payer)
    && ClientAt(s, e.payer).peerId == e.src
    && (e.settled ==> exists a :: IsClient(s, a) && C.Owns(ClientAt(s, a), e.dst))
  }

  ghost predicate LedgerInv(s: System) {
    && UniqueNames(s)
    && DistinctIds(s.ledger)
    && (forall i :: 0 <= i < |s.ledger| ==> EntrySound(s, s.ledger[i]))
    && (forall p :: p in s.net && p.msg.Payment? ==> Backed(s.ledger, p.msg))
    && LogsMatch(s)
  }

  // ---------- conditions on steps ----------

  ghost predicate FreshPayment(s: System, act: Action) {
    act.ClientPay? ==> !HasEntry(s.ledger, act.paymentId)
  }

  predicate CreditStep(s: System, act: Action) {
    && act.Deliver?
    && act.i < |s.net|
    && IsClient(s, s.net[act.i].dst)
    && Credits(ClientAt(s, s.net[act.i].dst), s.net[act.i].msg)
  }

  // A credit for a payment whose receipt is already displayed.
  predicate StaleRedelivery(s: System, act: Action) {
    && CreditStep(s, act)
    && C.Count(ClientAt(s, s.net[act.i].dst).log, C.ReceivedLine, s.net[act.i].msg.paymentId) > 0
  }

  predicate DebitStep(s: System, act: Action) {
    act.ClientPay? && IsClient(s, act.who) && act.amount <= ClientAt(s, act.who).balance
  }

  // ---------- sums ----------

  lemma {:induction false} SumUpdate(nodes: seq<Node>, a: nat, n: Node)
    requires a < |nodes|
    ensures SumBalances(nodes[a := n]) == SumBalances(nodes) - Balance(nodes[a]) + Balance(n)
    ensures Balance(nodes[a]) <= SumBalances(nodes)
  {
    if a > 0 {
      assert nodes[a := n][1..] == nodes[1..][a - 1 := n];
      SumUpdate(nodes[1..], a - 1, n);
    } else {
      assert nodes[a := n][1..] == nodes[1..];
    }
  }

  lemma {:induction false} SameBalances(nodes: seq<Node>, nodes': seq<Node>)
    requires |nodes| == |nodes'| && forall a :: 0 <= a < |nodes| ==> Balance(nodes[a]) == Balance(nodes'[a])
    ensures SumBalances(nodes) == SumBalances(nodes')
  {
    if nodes != [] {
      SameBalances(nodes[1..], nodes'[1..]);
    }
  }

  lemma {:induction false} PendingPush(ledger: seq<Entry>, e: Entry)
    ensures Pending(ledger + [e]) == Pending(ledger) + if e.settled then 0 else e.amount
  {
    if ledger == [] {
      assert ledger + [e] == [e];
    } else {
      assert (ledger + [e])[1..] == ledger[1..] + [e];
      PendingPush(ledger[1..], e);
    }
  }

  lemma {:induction false} PendingSettle(ledger: seq<Entry>, i: nat)
    requires i < |ledger| && DistinctIds(ledger)
    ensures Pending(Settle(ledger, ledger[i].id)) == Pending(ledger) - if ledger[i].settled then 0 else ledger[i].amount
  {
    var id := ledger[i].id;
    assert Settle(ledger, id)[1..] == Settle(ledger[1..], id);
    if i > 0 {
      PendingSettle(ledger[1..], i - 1);
    } else {
      SettleOther(ledger[1..], id);
    }
  }

  lemma SettleOther(ledger: seq<Entry>, id: u64)
    requires !HasEntry(ledger, id)
    ensures Settle(ledger, id) == ledger
  {
  }

  // ---------- what a step does to balances and ledger ----------

  lemma NothingMoves(scheme: Identity.Scheme, s: System, act: Action)
    requires Enabled(scheme, s, act) && !CreditStep(s, act) && !DebitStep(s, act)
    ensures var s' := Apply(scheme, s, act); s'.ledger == s.ledger && SumBalances(s'.nodes) == SumBalances(s.nodes)
  {
    var s' := Apply(scheme, s, act);
    forall a | 0 <= a < |s.nodes|
      ensures Balance(s.nodes[a]) == Balance(s'.nodes[a])
    {
      if act.Deliver? && s.net[act.i].dst == a && IsClient(s, a) {
        OnlyCreditsPay(scheme, ClientAt(s, a), s.net[act.i].msg);
      }
    }
    SameBalances(s.nodes, s'.nodes);
  }

  lemma OnlyCreditsPay(scheme: Identity.Scheme, c: C.Client, m: Message)
    ensures C.Handle(scheme, c, m).client.balance
         == if Credits(c, m) then W.WrappingAdd(c.balance, m.amount) else c.balance
  {
  }

  lemma DebitMoves(scheme: Identity.Scheme, s: System, act: Action)
    requires Enabled(scheme, s, act) && DebitStep(s, act)
    ensures var s' := Apply(scheme, s, act);
            && s'.ledger
            == s.ledger + [Entry(act.paymentId, act.who, ClientAt(s, act.who).peerId, act.dstId, act.amount, false)]
            && SumBalances(s'.nodes) == SumBalances(s.nodes) - act.amount
  {
    var s' := Apply(scheme, s, act);
    SumUpdate(s.nodes, act.who, s'.nodes[act.who]);
  }

  lemma CreditMoves(scheme: Identity.Scheme, s: System, act: Action)
    requires Enabled(scheme, s, act) && CreditStep(s, act)
    ensures var s', a, m := Apply(scheme, s, act), s.net[act.i].dst, s.net[act.i].msg;
            && s'.ledger == Settle(s.ledger, m.paymentId)
            && SumBalances(s'.nodes)
            == SumBalances(s.nodes) - ClientAt(s, a).balance + W.WrappingAdd(ClientAt(s, a).balance, m.amount)
            && ClientAt(s, a).balance <= SumBalances(s.nodes)
  {
    var s', a := Apply(scheme, s, act), s.net[act.i].dst;
    OnlyCreditsPay(scheme, ClientAt(s, a), s.net[act.i].msg);
    SumUpdate(s.nodes, a, s'.nodes[a]);
  }

  // The entry of a payment message, and whether this client was credited for it before.
  lemma EntryOf(s: System, act: Action) returns (i: nat)
    requires LedgerInv(s) && CreditStep(s, act)
    ensures i < |s.ledger| && Backs(s.ledger[i], s.net[act.i].msg)
    ensures s.ledger[i].settled <==> StaleRedelivery(s, act)
  {
    var p := s.net[act.i];
    var a, m := p.dst, p.msg;
    assert p in s.net && Backed(s.ledger, m);
    i :| 0 <= i < |s.ledger| && Backs(s.ledger[i], m);
    assert LogMatches(s, a, m.paymentId);
    var c := ClientAt(s, a);
    if CreditedTo(s.ledger, c, m.paymentId) {
      var j :|
        && 0 <= j < |s.ledger|
        && s.ledger[j].id == m.paymentId && s.ledger[j].settled && C.Owns(c, s.ledger[j].dst);
      assert i == j;
    }
  }

  lemma CreditTotal(scheme: Identity.Scheme, s: System, act: Action)
    requires Enabled(scheme, s, act) && LedgerInv(s) && Total(s) < U64_LIMIT && CreditStep(s, act)
    ensures Total(Apply(scheme, s, act)) == Total(s) <==> !StaleRedelivery(s, act)
    ensures !StaleRedelivery(s, act) ==> ClientAt(s, s.net[act.i].dst).balance + s.net[act.i].msg.amount < U64_LIMIT
  {
    CreditMoves(scheme, s, act);
    var i := EntryOf(s, act);
    assert EntrySound(s, s.ledger[i]);
    PendingSettle(s.ledger, i);
    WrapChanges(ClientAt(s, s.net[act.i].dst).balance, s.net[act.i].msg.amount);
  }

  lemma WrapChanges(a: u64, b: u64)
    ensures W.WrappingAdd(a, b) == if a + b < U64_LIMIT then a + b else a + b - U64_LIMIT
  {
  }

  lemma DebitTotal(scheme: Identity.Scheme, s: System, act: Action)
    requires Enabled(scheme, s, act) && DebitStep(s, act)
    ensures Total(Apply(scheme, s, act)) == Total(s)
  {
    DebitMoves(scheme, s, act);
    PendingPush(s.ledger, Entry(act.paymentId, act.who, ClientAt(s, act.who).peerId, act.dstId, act.amount, false));
  }

  // One step keeps the total exactly when it is not a second credit.
  lemma StepConservesIff(scheme: Identity.Scheme, s: System, act: Action)
    requires Enabled(scheme, s, act) && LedgerInv(s) && Total(s) < U64_LIMIT
    ensures Total(Apply(scheme, s, act)) == Total(s) <==> !StaleRedelivery(s, act)
    ensures CreditStep(s, act) && !StaleRedelivery(s, act) ==>
              ClientAt(s, s.net[act.i].dst).balance + s.net[act.i].msg.amount < U64_LIMIT
  {
    if CreditStep(s, act) {
      CreditTotal(scheme, s, act);
    } else if DebitStep(s, act) {
      DebitTotal(scheme, s, act);
    } else {
      NothingMoves(scheme, s, act);
    }
  }

  // A second credit makes money: unless the balance wraps, the total grows by the amount.
  lemma SecondCreditGains(scheme: Identity.Scheme, s: System, act: Action)
    requires Enabled(scheme, s, act) && LedgerInv(s) && StaleRedelivery(s, act)
    requires ClientAt(s, s.net[act.i].dst).balance + s.net[act.i].msg.amount < U64_LIMIT
    ensures Total(Apply(scheme, s, act)) == Total(s) + s.net[act.i].msg.amount
  {
    CreditMoves(scheme, s, act);
    var i := EntryOf(s, act);
    PendingSettle(s.ledger, i);
    WrapChanges(ClientAt(s, s.net[act.i].dst).balance, s.net[act.i].msg.amount);
  }

  // ---------- the invariant is kept ----------

  lemma NamesKept(scheme: Identity.Scheme, s: System, act: Action)
    requires Enabled(scheme, s, act)
    ensures var s' := Apply(scheme, s, act);
            && (forall a :: IsClient(s', a) <==> IsClient(s, a))
            && (forall a :: IsClient(s, a) ==> ClientAt(s', a).peerId == ClientAt(s, a).peerId)
            && (forall a, name :: IsClient(s, a) ==> (C.Owns(ClientAt(s', a), name) <==> C.Owns(ClientAt(s, a), name)))
  {
    var s' := Apply(scheme, s, act);
    IdentityFixed(scheme, s, act);
    assert forall a :: 0 <= a < |s.nodes| ==> SameIdentity(s.nodes[a], s'.nodes[a]);
  }

  // Payments on the wire are copies of payments on the wire, or the one just issued.
  lemma EmittedPayment(scheme: Identity.Scheme, s: System, act: Action, p: Packet)
    requires Enabled(scheme, s, act) && p in Emitted(scheme, s, act) && p.msg.Payment?
    ensures if DebitStep(s, act)
            then p.msg == Payment(ClientAt(s, act.who).peerId, act.dstId, act.amount, act.paymentId)
            else exists q :: q in s.net && q.msg == p.msg
  {
    if act.Deliver? {
      assert s.net[act.i] in s.net;
    }
  }

  lemma PaymentsBacked(scheme: Identity.Scheme, s: System, act: Action, p: Packet)
    requires Enabled(scheme, s, act) && LedgerInv(s)
    requires p in Apply(scheme, s, act).net && p.msg.Payment?
    ensures Backed(Apply(scheme, s, act).ledger, p.msg)
  {
    var s' := Apply(scheme, s, act);
    InNetAfter(scheme, s, act, p);
    if p in Emitted(scheme, s, act) {
      EmittedPayment(scheme, s, act, p);
    }
    if DebitStep(s, act) {
      DebitMoves(scheme, s, act);
    } else if CreditStep(s, act) {
      CreditMoves(scheme, s, act);
    } else {
      NothingMoves(scheme, s, act);
    }
    if p in s.net || !DebitStep(s, act) {
      var q :| q in s.net && q.msg == p.msg;
      assert Backed(s.ledger, q.msg);
      var i :| 0 <= i < |s.ledger| && Backs(s.ledger[i], q.msg);
      assert Backs(s'.ledger[i], p.msg);
    } else {
      assert Backs(s'.ledger[|s.ledger|], p.msg);
    }
  }

  lemma EntriesSound(scheme: Identity.Scheme, s: System, act: Action, i: nat)
    requires Enabled(scheme, s, act) && LedgerInv(s) && i < |Apply(scheme, s, act).ledger|
    ensures EntrySound(Apply(scheme, s, act), Apply(scheme, s, act).ledger[i])
  {
    var s' := Apply(scheme, s, act);
    NamesKept(scheme, s, act);
    if DebitStep(s, act) {
      DebitMoves(scheme, s, act);
    } else if CreditStep(s, act) {
      CreditMoves(scheme, s, act);
      var j := EntryOf(s, act);
      assert s.ledger[i].id == s.ledger[j].id ==> i == j;
      assert C.Owns(ClientAt(s', s.net[act.i].dst), s.ledger[j].dst);
    } else {
      NothingMoves(scheme, s, act);
    }
    if i < |s.ledger| {
      var e := s.ledger[i];
      assert EntrySound(s, e);
      if e.settled {
        var a :| IsClient(s, a) && C.Owns(ClientAt(s, a), e.dst);
        assert IsClient(s', a) && C.Owns(ClientAt(s', a), e.dst);
      }
    }
  }

  lemma IdsDistinct(scheme: Identity.Scheme, s: System, act: Action)
    requires Enabled(scheme, s, act) && LedgerInv(s) && FreshPayment(s, act)
    ensures DistinctIds(Apply(scheme, s, act).ledger)
  {
    if DebitStep(s, act) {
      DebitMoves(scheme, s, act);
    } else if CreditStep(s, act) {
      CreditMoves(scheme, s, act);
    } else {
      NothingMoves(scheme, s, act);
    }
  }

  // Issuing a payment adds its id to what the payer issued, and changes nothing else.
  lemma IssuedAfterDebit(ledger: seq<Entry>, e: Entry, a: Addr, c: C.Client, id: u64)
    requires !HasEntry(ledger, e.id) && !e.settled
    ensures IssuedBy(ledger + [e], a, id) <==> IssuedBy(ledger, a, id) || (id == e.id && a == e.payer)
    ensures id == e.id ==> !IssuedBy(ledger, a, id)
    ensures CreditedTo(ledger + [e], c, id) <==> CreditedTo(ledger, c, id)
  {
    var longer := ledger + [e];
    assert longer[|ledger|] == e;
    assert forall i :: 0 <= i < |ledger| ==> longer[i] == ledger[i];
  }

  // Settling an entry credits it to the owner of its destination name, and nothing else.
  lemma CreditedAfterSettle(ledger: seq<Entry>, i: nat, a: Addr, c: C.Client, id: u64)
    requires i < |ledger| && DistinctIds(ledger)
    ensures var settled := Settle(ledger, ledger[i].id);
            && (IssuedBy(settled, a, id) <==> IssuedBy(ledger, a, id))
            && (CreditedTo(settled, c, id) <==>
                CreditedTo(ledger, c, id) || (id == ledger[i].id && C.Owns(c, ledger[i].dst)))
  {
    var settled := Settle(ledger, ledger[i].id);
    if IssuedBy(ledger, a, id) {
      var j :| 0 <= j < |ledger| && ledger[j].id == id && ledger[j].payer == a;
      assert settled[j].id == id && settled[j].payer == a;
    }
    if CreditedTo(ledger, c, id) {
      var j :| 0 <= j < |ledger| && ledger[j].id == id && ledger[j].settled && C.Owns(c, ledger[j].dst);
      assert settled[j].id == id && settled[j].settled;
    }
    if id == ledger[i].id && C.Owns(c, ledger[i].dst) {
      assert settled[i].id == id && settled[i].settled;
    }
    if CreditedTo(settled, c, id) {
      var j :| 0 <= j < |ledger| && settled[j].id == id && settled[j].settled && C.Owns(c, settled[j].dst);
      assert ledger[j].id == id && (j == i || settled[j] == ledger[j]);
    }
  }

  lemma LogMatchesQuietly(scheme: Identity.Scheme, s: System, act: Action, a: Addr, id: u64)
    requires Enabled(scheme, s, act) && LedgerInv(s) && IsClient(s, a) && IsClient(Apply(scheme, s, act), a)
    requires !CreditStep(s, act) && !DebitStep(s, act)
    ensures LogMatches(Apply(scheme, s, act), a, id)
  {
    NothingMoves(scheme, s, act);
    NamesKept(scheme, s, act);
    assert LogMatches(s, a, id);
    CountAfter(scheme, s, act, a, C.SentLine, id);
    CountAfter(scheme, s, act, a, C.ReceivedLine, id);
    CreditedByNames(s.ledger, ClientAt(s, a), ClientAt(Apply(scheme, s, act), a), id);
  }

  lemma CreditedByNames(ledger: seq<Entry>, c: C.Client, c': C.Client, id: u64)
    requires forall name :: C.Owns(c, name) <==> C.Owns(c', name)
    ensures CreditedTo(ledger, c, id) <==> CreditedTo(ledger, c', id)
  {
  }

  lemma LogMatchesAfterDebit(scheme: Identity.Scheme, s: System, act: Action, a: Addr, id: u64)
    requires Enabled(scheme, s, act) && LedgerInv(s) && IsClient(s, a) && IsClient(Apply(scheme, s, act), a)
    requires DebitStep(s, act) && FreshPayment(s, act)
    ensures LogMatches(Apply(scheme, s, act), a, id)
  {
    var s', c := Apply(scheme, s, act), ClientAt(s, a);
    DebitMoves(scheme, s, act);
    NamesKept(scheme, s, act);
    assert LogMatches(s, a, id);
    CountAfter(scheme, s, act, a, C.SentLine, id);
    CountAfter(scheme, s, act, a, C.ReceivedLine, id);
    CreditedByNames(s'.ledger, c, ClientAt(s', a), id);
    IssuedAfterDebit(s.ledger, s'.ledger[|s.ledger|], a, c, id);
  }

  lemma UnsettledNotCredited(ledger: seq<Entry>, i: nat, c: C.Client)
    requires i < |ledger| && DistinctIds(ledger) && !ledger[i].settled
    ensures !CreditedTo(ledger, c, ledger[i].id)
  {
  }

  // Of all clients only the credited one owns the destination, and it displays the receipt.
  lemma ReceivedCount(scheme: Identity.Scheme, s: System, act: Action, a: Addr, id: u64, i: nat)
    requires Enabled(scheme, s, act) && UniqueNames(s) && IsClient(s, a) && IsClient(Apply(scheme, s, act), a)
    requires CreditStep(s, act) && i < |s.ledger| && Backs(s.ledger[i], s.net[act.i].msg)
    ensures var before, after := ClientAt(s, a).log, ClientAt(Apply(scheme, s, act), a).log;
            && C.Count(after, C.SentLine, id) == C.Count(before, C.SentLine, id)
            && C.Count(after, C.ReceivedLine, id) == C.Count(before, C.ReceivedLine, id)
            + if id == s.ledger[i].id && C.Owns(ClientAt(s, a), s.ledger[i].dst) then 1 else 0
  {
    var m := s.net[act.i].msg;
    assert C.Owns(ClientAt(s, s.net[act.i].dst), s.ledger[i].dst);
    assert Displayed(scheme, s, act, a)
        == if s.net[act.i].dst == a then [C.Received(m.paymentId, m.srcId, m.amount)] else [];
    CountAfter(scheme, s, act, a, C.SentLine, id);
    CountAfter(scheme, s, act, a, C.ReceivedLine, id);
  }

  lemma LogMatchesAfterCredit(scheme: Identity.Scheme, s: System, act: Action, a: Addr, id: u64)
    requires Enabled(scheme, s, act) && LedgerInv(s) && IsClient(s, a) && IsClient(Apply(scheme, s, act), a)
    requires CreditStep(s, act) && !StaleRedelivery(s, act)
    ensures LogMatches(Apply(scheme, s, act), a, id)
  {
    var s', c := Apply(scheme, s, act), ClientAt(s, a);
    CreditMoves(scheme, s, act);
    NamesKept(scheme, s, act);
    var i := EntryOf(s, act);
    assert LogMatches(s, a, id);
    ReceivedCount(scheme, s, act, a, id, i);
    CreditedByNames(s'.ledger, c, ClientAt(s', a), id);
    CreditedAfterSettle(s.ledger, i, a, c, id);
    UnsettledNotCredited(s.ledger, i, c);
  }

  lemma LedgerStep(scheme: Identity.Scheme, s: System, act: Action)
    requires Enabled(scheme, s, act) && LedgerInv(s) && FreshPayment(s, act) && !StaleRedelivery(s, act)
    ensures LedgerInv(Apply(scheme, s, act))
  {
    var s' := Apply(scheme, s, act);
    NamesKept(scheme, s, act);
    IdsDistinct(scheme, s, act);
    forall i | 0 <= i < |s'.ledger|
      ensures EntrySound(s', s'.ledger[i])
    {
      EntriesSound(scheme, s, act, i);
    }
    forall p | p in s'.net && p.msg.Payment?
      ensures Backed(s'.ledger, p.msg)
    {
      PaymentsBacked(scheme, s, act, p);
    }
    forall a, id | IsClient(s', a)
      ensures LogMatches(s', a, id)
    {
      if CreditStep(s, act) {
        LogMatchesAfterCredit(scheme, s, act, a, id);
      } else if DebitStep(s, act) {
        LogMatchesAfterDebit(scheme, s, act, a, id);
      } else {
        LogMatchesQuietly(scheme, s, act, a, id);
      }
    }
  }

  // ---------- runs ----------

  // The start: distinct names, nothing issued, no payment traffic, no payment displayed.
  ghost predicate Opening(s: System) {
    && UniqueNames(s)
    && s.ledger == []
    && (forall p :: p in s.net ==> !p.msg.Payment? && !p.msg.PaymentAck?)
    && (forall a, kind, id :: IsClient(s, a) && kind in {C.SentLine, C.ReceivedLine, C.ConfirmedLine} ==>
                                C.Count(ClientAt(s, a).log, kind, id) == 0)
  }

  // A payment is credited although the payee's cache once held its key, which it has evicted
  // since.
  ghost predicate LatePayment(states: seq<System>, k: nat, act: Action)
    requires k < |states|
  {
    && CreditStep(states[k], act)
    && Forgotten(states, k, states[k].net[act.i].dst, Key(Pay, states[k].net[act.i].msg.paymentId))
  }

  // Such a payment is in fact one that was credited and displayed before.
  ghost predicate RedeliversEvicted(states: seq<System>, k: nat, act: Action)
    requires k < |states|
  {
    && LatePayment(states, k, act)
    && var p := states[k].net[act.i];
       C.Count(ClientAt(states[k], p.dst).log, C.ReceivedLine, p.msg.paymentId) > 0
  }

  ghost predicate PaymentRun(scheme: Identity.Scheme, states: seq<System>, actions: seq<Action>) {
    && IsRun(scheme, states, actions)
    && Opening(states[0])
    && Total(states[0]) < U64_LIMIT
    && forall k :: 0 <= k < |actions| ==> PaymentStepAt(states, actions, k)
  }

  // Payment ids are fresh, and no copy of a payment comes after the eviction of its key.
  ghost predicate PaymentStepAt(states: seq<System>, actions: seq<Action>, k: nat)
    requires k < |actions| && |states| == |actions| + 1
  {
    FreshPayment(states[k], actions[k]) && !LatePayment(states, k, actions[k])
  }

  ghost predicate RunTo(scheme: Identity.Scheme, states: seq<System>, actions: seq<Action>, s: System) {
    PaymentRun(scheme, states, actions) && states[|actions|] == s
  }

  // Whether a payment is late depends on the states so far only.
  lemma LateBefore(states: seq<System>, longer: seq<System>, k: nat, act: Action)
    requires k < |states| <= |longer| && longer[..|states|] == states
    ensures LatePayment(longer, k, act) ==> LatePayment(states, k, act)
  {
    assert forall j :: 0 <= j < |states| ==> longer[j] == states[j];
    if LatePayment(longer, k, act) {
      var a, key := states[k].net[act.i].dst, Key(Pay, states[k].net[act.i].msg.paymentId);
      var j :| 0 <= j <= k && KnownAt(longer, j, a, key);
      assert KnownAt(states, j, a, key);
    }
  }

  // A payment run extended by a step that credits nothing late is a payment run.
  lemma Extend(scheme: Identity.Scheme, states: seq<System>, actions: seq<Action>, act: Action)
    requires PaymentRun(scheme, states, actions) && Enabled(scheme, states[|actions|], act)
    requires FreshPayment(states[|actions|], act) && !LatePayment(states, |actions|, act)
    ensures RunTo(scheme, states + [Apply(scheme, states[|actions|], act)], actions + [act],
                  Apply(scheme, states[|actions|], act))
  {
    var s' := Apply(scheme, states[|actions|], act);
    RunAppend(scheme, states, actions, act);
    forall k | 0 <= k <= |actions|
      ensures PaymentStepAt(states + [s'], actions + [act], k)
    {
      LateBefore(states, states + [s'], k, (actions + [act])[k]);
      assert k < |actions| ==> PaymentStepAt(states, actions, k);
    }
  }

  // ---------- the cache prevents second credits ----------

  // A crediting client's cache holds the payment's key afterwards.
  lemma CreditIsRemembered(scheme: Identity.Scheme, s: System, act: Action)
    requires Enabled(scheme, s, act) && CreditStep(s, act)
    ensures var a := s.net[act.i].dst;
            && IsNode(Apply(scheme, s, act), a)
            && Key(Pay, s.net[act.i].msg.paymentId) in Seen(Apply(scheme, s, act).nodes[a])
  {
    var a, key := s.net[act.i].dst, Key(Pay, s.net[act.i].msg.paymentId);
    CacheAfter(scheme, s, act, a);
    AdmitAllOne(Seen(s.nodes[a]), key);
    S.AdmitContains(Seen(s.nodes[a]), CACHE_SIZE, key);
  }

  // A client displays a receipt only for a payment whose key its cache holds or held.
  lemma {:induction false} ReceiptsKnown(scheme: Identity.Scheme, states: seq<System>, actions: seq<Action>, k: nat,
                                         a: Addr, id: u64)
    requires IsRun(scheme, states, actions) && Opening(states[0]) && k <= |actions|
    requires IsClient(states[k], a) && C.Count(ClientAt(states[k], a).log, C.ReceivedLine, id) > 0
    ensures Known(states, k, a, Key(Pay, id))
  {
    if k > 0 {
      var s, act := states[k - 1], actions[k - 1];
      assert StepAt(scheme, states, actions, k - 1);
      NamesKept(scheme, s, act);
      CountAfter(scheme, s, act, a, C.ReceivedLine, id);
      if C.Count(ClientAt(s, a).log, C.ReceivedLine, id) > 0 {
        ReceiptsKnown(scheme, states, actions, k - 1, a, id);
      } else {
        CreditIsRemembered(scheme, s, act);
        assert KnownAt(states, k, a, Key(Pay, id));
      }
    }
  }

  // So a second credit comes exactly when a displayed payment comes again after its eviction.
  lemma SecondCreditIff(scheme: Identity.Scheme, states: seq<System>, actions: seq<Action>, k: nat, act: Action)
    requires IsRun(scheme, states, actions) && Opening(states[0]) && k <= |actions|
    ensures StaleRedelivery(states[k], act) <==> RedeliversEvicted(states, k, act)
  {
    if StaleRedelivery(states[k], act) {
      ReceiptsKnown(scheme, states, actions, k, states[k].net[act.i].dst, states[k].net[act.i].msg.paymentId);
    }
  }

  // Conservation: the sum of all balances plus the payments debited but not credited is the
  // same in every state of every run.
  lemma {:induction false} Conservation(scheme: Identity.Scheme, states: seq<System>, actions: seq<Action>, k: nat)
    requires PaymentRun(scheme, states, actions) && k <= |actions|
    ensures LedgerInv(states[k])
    ensures Total(states[k]) == Total(states[0])
  {
    if k == 0 {
      forall a, id | IsClient(states[0], a)
        ensures LogMatches(states[0], a, id)
      {
        assert C.Count(ClientAt(states[0], a).log, C.SentLine, id) == 0;
        assert C.Count(ClientAt(states[0], a).log, C.ReceivedLine, id) == 0;
      }
    } else {
      Conservation(scheme, states, actions, k - 1);
      assert StepAt(scheme, states, actions, k - 1) && PaymentStepAt(states, actions, k - 1);
      SecondCreditIff(scheme, states, actions, k - 1, actions[k - 1]);
      StepConservesIff(scheme, states[k - 1], actions[k - 1]);
      LedgerStep(scheme, states[k - 1], actions[k - 1]);
    }
  }

  // The next step of such a run keeps the total exactly when it does not redeliver a credited
  // payment whose key has been evicted.
  lemma NextStepConservesIff(scheme: Identity.Scheme, states: seq<System>, actions: seq<Action>, act: Action)
    requires PaymentRun(scheme, states, actions) && Enabled(scheme, states[|actions|], act)
    ensures Total(Apply(scheme, states[|actions|], act)) == Total(states[|actions|])
       <==> !RedeliversEvicted(states, |actions|, act)
  {
    Conservation(scheme, states, actions, |actions|);
    SecondCreditIff(scheme, states, actions, |actions|, act);
    StepConservesIff(scheme, states[|actions|], act);
  }

  // No cache has accepted more keys than it has room for.
  ghost predicate WithinCapacity(states: seq<System>, actions: seq<Action>)
    requires |states| == |actions| + 1
  {
    forall a, k :: IsNode(states[0], a) && 0 <= k <= |actions| ==>
                     |Seen(states[0].nodes[a])| + AcceptedBetween(states, actions, a, 0, k) <= CACHE_SIZE
  }

  // In particular every run is fine until some cache is full.
  lemma SmallRunsConserve(scheme: Identity.Scheme, states: seq<System>, actions: seq<Action>)
    requires IsRun(scheme, states, actions) && Opening(states[0]) && Total(states[0]) < U64_LIMIT
    requires forall k :: 0 <= k < |actions| ==> FreshPayment(states[k], actions[k])
    requires WithinCapacity(states, actions)
    ensures PaymentRun(scheme, states, actions)
    ensures Total(states[|actions|]) == Total(states[0])
  {
    forall k | 0 <= k < |actions|
      ensures PaymentStepAt(states, actions, k)
    {
      if CreditStep(states[k], actions[k]) {
        var a := states[k].net[actions[k].i].dst;
        NodeStays(scheme, states, actions, a, k);
        NothingForgottenYet(scheme, states, actions, a, Key(Pay, states[k].net[actions[k].i].msg.paymentId), k);
      }
    }
    Conservation(scheme, states, actions, |actions|);
  }

  // Hence the unchecked addition in credit never overflows.
  lemma CreditNeverOverflows(scheme: Identity.Scheme, states: seq<System>, actions: seq<Action>, k: nat)
    requires PaymentRun(scheme, states, actions) && k < |actions|
    ensures CreditStep(states[k], actions[k]) ==>
              var p := states[k].net[actions[k].i];
              && ClientAt(states[k], p.dst).balance + p.msg.amount < U64_LIMIT
              && IsClient(states[k + 1], p.dst)
              && ClientAt(states[k + 1], p.dst).balance == ClientAt(states[k], p.dst).balance + p.msg.amount
  {
    Conservation(scheme, states, actions, k);
    assert StepAt(scheme, states, actions, k) && PaymentStepAt(states, actions, k);
    SecondCreditIff(scheme, states, actions, k, actions[k]);
    StepConservesIff(scheme, states[k], actions[k]);
  }
}
