// Acknowledgements tell the truth: whoever sees one in flight or displayed may conclude
// that the payment was debited once and credited once.

module Acks {
  import opened Words
  import opened Messages
  import opened DedupKeys
  import opened Network
  import opened Memory
  import opened Ledger
  import Identity
  import S = SeenIds
  import C = Clients

  // Entry i was credited to client a, who confirms as `from` to the payer `to`.
  ghost predicate Receipt(s: System, i: int, a: Addr, id: u64, from: string, to: string) {
    && 0 <= i < |s.ledger|
    && s.ledger[i].id == id
    && s.ledger[i].settled
    && s.ledger[i].src == to
    && IsClient(s, a)
    && C.Owns(ClientAt(s, a), s.ledger[i].dst)
    && ClientAt(s, a).peerId == from
  }

  ghost predicate Earned(s: System, id: u64, from: string, to: string) {
    exists i, a :: Receipt(s, i, a, id, from, to)
  }

  ghost predicate ConfirmationsEarned(s: System, a: Addr)
    requires IsClient(s, a)
  {
    var c := ClientAt(s, a);
    && (forall line :: line in c.log && line.Confirmed? ==> Earned(s, line.paymentId, line.byId, c.peerId))
    && (forall id :: C.Count(c.log, C.ConfirmedLine, id) <= 1)
  }

  ghost predicate AckInv(s: System) {
    && (forall p :: p in s.net && p.msg.PaymentAck? ==> Earned(s, p.msg.paymentId, p.msg.fromId, p.msg.toId))
    && (forall a :: IsClient(s, a) ==> ConfirmationsEarned(s, a))
  }

  predicate ConfirmStep(s: System, act: Action) {
    && act.Deliver?
    && act.i < |s.net|
    && IsClient(s, s.net[act.i].dst)
    && Confirms(ClientAt(s, s.net[act.i].dst), s.net[act.i].msg)
  }

  // A confirmation of a payment that is already displayed as confirmed.
  predicate StaleAck(s: System, act: Action) {
    && ConfirmStep(s, act)
    && C.Count(ClientAt(s, s.net[act.i].dst).log, C.ConfirmedLine, s.net[act.i].msg.paymentId) > 0
  }

  // An acknowledgement is displayed although the payer's cache once held its key, which it has
  // evicted since.
  ghost predicate LateAck(states: seq<System>, k: nat, act: Action)
    requires k < |states|
  {
    && ConfirmStep(states[k], act)
    && Forgotten(states, k, states[k].net[act.i].dst, Key(Ack, states[k].net[act.i].msg.paymentId))
  }

  // Such an acknowledgement is in fact one that was displayed before.
  ghost predicate ReconfirmsEvicted(states: seq<System>, k: nat, act: Action)
    requires k < |states|
  {
    && LateAck(states, k, act)
    && var p := states[k].net[act.i];
       C.Count(ClientAt(states[k], p.dst).log, C.ConfirmedLine, p.msg.paymentId) > 0
  }

  ghost predicate NoLateAcks(states: seq<System>, actions: seq<Action>)
    requires |states| == |actions| + 1
  {
    forall k :: 0 <= k < |actions| ==> !LateAck(states, k, actions[k])
  }

  lemma ConfirmIsRemembered(scheme: Identity.Scheme, s: System, act: Action)
    requires Enabled(scheme, s, act) && ConfirmStep(s, act)
    ensures var a := s.net[act.i].dst;
            && IsNode(Apply(scheme, s, act), a)
            && Key(Ack, s.net[act.i].msg.paymentId) in Seen(Apply(scheme, s, act).nodes[a])
  {
    var a, key := s.net[act.i].dst, Key(Ack, s.net[act.i].msg.paymentId);
    CacheAfter(scheme, s, act, a);
    AdmitAllOne(Seen(s.nodes[a]), key);
    S.AdmitContains(Seen(s.nodes[a]), CACHE_SIZE, key);
  }

  // A client displays a confirmation only if its cache holds or held the acknowledgement's key.
  lemma {:induction false} ConfirmationsKnown(scheme: Identity.Scheme, states: seq<System>, actions: seq<Action>,
                                              k: nat, a: Addr, id: u64)
    requires IsRun(scheme, states, actions) && Opening(states[0]) && k <= |actions|
    requires IsClient(states[k], a) && C.Count(ClientAt(states[k], a).log, C.ConfirmedLine, id) > 0
    ensures Known(states, k, a, Key(Ack, id))
  {
    if k > 0 {
      var s, act := states[k - 1], actions[k - 1];
      assert StepAt(scheme, states, actions, k - 1);
      NamesKept(scheme, s, act);
      CountAfter(scheme, s, act, a, C.ConfirmedLine, id);
      if C.Count(ClientAt(s, a).log, C.ConfirmedLine, id) > 0 {
        ConfirmationsKnown(scheme, states, actions, k - 1, a, id);
      } else {
        ConfirmIsRemembered(scheme, s, act);
        assert KnownAt(states, k, a, Key(Ack, id));
      }
    }
  }

  // A confirmation is displayed again exactly when a copy comes after the eviction of its key.
  lemma SecondConfirmationIff(scheme: Identity.Scheme, states: seq<System>, actions: seq<Action>, k: nat, act: Action)
    requires IsRun(scheme, states, actions) && Opening(states[0]) && k <= |actions|
    ensures StaleAck(states[k], act) <==> ReconfirmsEvicted(states, k, act)
  {
    if StaleAck(states[k], act) {
      ConfirmationsKnown(scheme, states, actions, k, states[k].net[act.i].dst, states[k].net[act.i].msg.paymentId);
    }
  }

  lemma EarnedKept(scheme: Identity.Scheme, s: System, act: Action, id: u64, from: string, to: string)
    requires Enabled(scheme, s, act) && Earned(s, id, from, to)
    ensures Earned(Apply(scheme, s, act), id, from, to)
  {
    var s' := Apply(scheme, s, act);
    NamesKept(scheme, s, act);
    if DebitStep(s, act) {
      DebitMoves(scheme, s, act);
    } else if CreditStep(s, act) {
      CreditMoves(scheme, s, act);
    } else {
      NothingMoves(scheme, s, act);
    }
    var i, a :| Receipt(s, i, a, id, from, to);
    assert Receipt(s', i, a, id, from, to);
  }

  // A crediting client's acknowledgement is earned.
  lemma CreditEarns(scheme: Identity.Scheme, s: System, act: Action)
    requires Enabled(scheme, s, act) && LedgerInv(s) && CreditStep(s, act)
    ensures var m, c := s.net[act.i].msg, ClientAt(s, s.net[act.i].dst);
            Earned(Apply(scheme, s, act), m.paymentId, c.peerId, m.srcId)
  {
    var s', a, m := Apply(scheme, s, act), s.net[act.i].dst, s.net[act.i].msg;
    NamesKept(scheme, s, act);
    CreditMoves(scheme, s, act);
    var i := EntryOf(s, act);
    assert Receipt(s', i, a, m.paymentId, ClientAt(s, a).peerId, m.srcId);
  }

  lemma EmittedAck(scheme: Identity.Scheme, s: System, act: Action, p: Packet)
    requires Enabled(scheme, s, act) && p in Emitted(scheme, s, act) && p.msg.PaymentAck?
    ensures if CreditStep(s, act)
            then
              var m := s.net[act.i].msg;
              p.msg == PaymentAck(m.paymentId, ClientAt(s, s.net[act.i].dst).peerId, m.srcId)
            else exists q :: q in s.net && q.msg == p.msg
  {
    if act.Deliver? {
      assert s.net[act.i] in s.net;
    }
  }

  lemma AcksInFlightEarned(scheme: Identity.Scheme, s: System, act: Action, p: Packet)
    requires Enabled(scheme, s, act) && LedgerInv(s) && AckInv(s)
    requires p in Apply(scheme, s, act).net && p.msg.PaymentAck?
    ensures Earned(Apply(scheme, s, act), p.msg.paymentId, p.msg.fromId, p.msg.toId)
  {
    InNetAfter(scheme, s, act, p);
    if p !in s.net {
      EmittedAck(scheme, s, act, p);
    }
    if p in s.net || !CreditStep(s, act) {
      var q :| q in s.net && q.msg == p.msg;
      EarnedKept(scheme, s, act, q.msg.paymentId, q.msg.fromId, q.msg.toId);
    } else {
      CreditEarns(scheme, s, act);
    }
  }

  // Only the payer itself confirms.
  lemma ConfirmerIsPayer(s: System, p: Packet)
    requires LedgerInv(s) && AckInv(s) && p in s.net && IsClient(s, p.dst) && Confirms(ClientAt(s, p.dst), p.msg)
    ensures p.msg.toId == ClientAt(s, p.dst).peerId
  {
    var m := p.msg;
    assert Earned(s, m.paymentId, m.fromId, m.toId);
    var i, a :| Receipt(s, i, a, m.paymentId, m.fromId, m.toId);
    var e := s.ledger[i];
    assert EntrySound(s, e);
    assert C.Owns(ClientAt(s, e.payer), m.toId) && C.Owns(ClientAt(s, p.dst), m.toId);
  }

  lemma ConfirmationsKept(scheme: Identity.Scheme, s: System, act: Action, a: Addr)
    requires Enabled(scheme, s, act) && LedgerInv(s) && AckInv(s) && !StaleAck(s, act)
    requires IsClient(s, a) && IsClient(Apply(scheme, s, act), a)
    ensures ConfirmationsEarned(Apply(scheme, s, act), a)
  {
    var s', c := Apply(scheme, s, act), ClientAt(s, a);
    var lines := Displayed(scheme, s, act, a);
    NamesKept(scheme, s, act);
    LogAfter(scheme, s, act, a);
    assert ConfirmationsEarned(s, a);
    if lines != [] && lines[0].Confirmed? {
      assert s.net[act.i] in s.net;
      ConfirmerIsPayer(s, s.net[act.i]);
    }
    forall line | line in ClientAt(s', a).log && line.Confirmed?
      ensures Earned(s', line.paymentId, line.byId, c.peerId)
    {
      assert Earned(s, line.paymentId, line.byId, c.peerId);
      EarnedKept(scheme, s, act, line.paymentId, line.byId, c.peerId);
    }
    forall id
      ensures C.Count(ClientAt(s', a).log, C.ConfirmedLine, id) <= 1
    {
      ConfirmedOnce(scheme, s, act, a, id);
    }
  }

  lemma ConfirmedOnce(scheme: Identity.Scheme, s: System, act: Action, a: Addr, id: u64)
    requires Enabled(scheme, s, act) && !StaleAck(s, act) && IsClient(s, a) && IsClient(Apply(scheme, s, act), a)
    requires C.Count(ClientAt(s, a).log, C.ConfirmedLine, id) <= 1
    ensures C.Count(ClientAt(Apply(scheme, s, act), a).log, C.ConfirmedLine, id) <= 1
  {
    CountAfter(scheme, s, act, a, C.ConfirmedLine, id);
  }

  lemma AckStep(scheme: Identity.Scheme, s: System, act: Action)
    requires Enabled(scheme, s, act) && LedgerInv(s) && AckInv(s) && !StaleAck(s, act)
    ensures AckInv(Apply(scheme, s, act))
  {
    var s' := Apply(scheme, s, act);
    NamesKept(scheme, s, act);
    forall p | p in s'.net && p.msg.PaymentAck?
      ensures Earned(s', p.msg.paymentId, p.msg.fromId, p.msg.toId)
    {
      AcksInFlightEarned(scheme, s, act, p);
    }
    forall a | IsClient(s', a)
      ensures ConfirmationsEarned(s', a)
    {
      ConfirmationsKept(scheme, s, act, a);
    }
  }

  lemma {:induction false} NoConfirmedLine(log: seq<C.Line>, line: C.Line)
    requires line in log && line.Confirmed?
    ensures C.Count(log, C.ConfirmedLine, line.paymentId) > 0
  {
    var last := |log| - 1;
    if log[last] != line {
      NoConfirmedLine(log[..last], line);
    }
  }

  lemma AckInvAtFirst(s: System)
    requires Opening(s)
    ensures AckInv(s)
  {
    forall a | IsClient(s, a)
      ensures ConfirmationsEarned(s, a)
    {
      var log := ClientAt(s, a).log;
      assert forall id :: C.Count(log, C.ConfirmedLine, id) == 0;
      forall line | line in log && line.Confirmed?
        ensures false
      {
        NoConfirmedLine(log, line);
      }
    }
  }

  lemma {:induction false} AckInvHolds(scheme: Identity.Scheme, states: seq<System>, actions: seq<Action>, k: nat)
    requires PaymentRun(scheme, states, actions) && k <= |actions|
    requires NoLateAcks(states, actions)
    ensures LedgerInv(states[k]) && AckInv(states[k])
  {
    Conservation(scheme, states, actions, k);
    if k == 0 {
      AckInvAtFirst(states[0]);
    } else {
      AckInvHolds(scheme, states, actions, k - 1);
      AckInvGoesOn(scheme, states, actions, k - 1);
    }
  }

  lemma AckInvGoesOn(scheme: Identity.Scheme, states: seq<System>, actions: seq<Action>, k: nat)
    requires IsRun(scheme, states, actions) && Opening(states[0]) && k < |actions| && NoLateAcks(states, actions)
    requires LedgerInv(states[k]) && AckInv(states[k])
    ensures AckInv(states[k + 1])
  {
    assert StepAt(scheme, states, actions, k);
    SecondConfirmationIff(scheme, states, actions, k, actions[k]);
    AckStep(scheme, states[k], actions[k]);
  }

  // A payer named `to` was debited exactly once for this payment, and a payee named `from`
  // credited exactly once.
  ghost predicate PaidAndReceived(s: System, payer: Addr, payee: Addr, id: u64, from: string, to: string) {
    && IsClient(s, payer)
    && IsClient(s, payee)
    && ClientAt(s, payer).peerId == to
    && ClientAt(s, payee).peerId == from
    && C.Count(ClientAt(s, payer).log, C.SentLine, id) == 1
    && C.Count(ClientAt(s, payee).log, C.ReceivedLine, id) == 1
  }

  lemma EarnedMeansPaid(s: System, id: u64, from: string, to: string) returns (payer: Addr, payee: Addr)
    requires LedgerInv(s) && Earned(s, id, from, to)
    ensures PaidAndReceived(s, payer, payee, id, from, to)
  {
    var i, a :| Receipt(s, i, a, id, from, to);
    payer, payee := s.ledger[i].payer, a;
    assert EntrySound(s, s.ledger[i]);
    assert LogMatches(s, payer, id) && LogMatches(s, payee, id);
  }

  // Ack causality, in every state of every run: an acknowledgement in flight, or displayed,
  // means its payment was debited once at the one and credited once at the other; and no
  // payer displays two acknowledgements of one payment.
  lemma AckCausality(scheme: Identity.Scheme, states: seq<System>, actions: seq<Action>, k: nat)
    requires PaymentRun(scheme, states, actions) && k <= |actions|
    requires NoLateAcks(states, actions)
    ensures forall p :: p in states[k].net && p.msg.PaymentAck? ==>
                          exists payer, payee ::
                            PaidAndReceived(states[k], payer, payee, p.msg.paymentId, p.msg.fromId, p.msg.toId)
    ensures forall a, line :: IsClient(states[k], a) && line in ClientAt(states[k], a).log && line.Confirmed? ==>
                exists payee ::
                  PaidAndReceived(states[k], a, payee, line.paymentId, line.byId, ClientAt(states[k], a).peerId)
    ensures forall a, id :: IsClient(states[k], a) ==> C.Count(ClientAt(states[k], a).log, C.ConfirmedLine, id) <= 1
  {
    var s := states[k];
    AckInvHolds(scheme, states, actions, k);
    forall p | p in s.net && p.msg.PaymentAck?
      ensures exists payer, payee :: PaidAndReceived(s, payer, payee, p.msg.paymentId, p.msg.fromId, p.msg.toId)
    {
      var payer, payee := EarnedMeansPaid(s, p.msg.paymentId, p.msg.fromId, p.msg.toId);
    }
    forall a, line | IsClient(s, a) && line in ClientAt(s, a).log && line.Confirmed?
      ensures exists payee :: PaidAndReceived(s, a, payee, line.paymentId, line.byId, ClientAt(s, a).peerId)
    {
      assert ConfirmationsEarned(s, a);
      var payer, payee := EarnedMeansPaid(s, line.paymentId, line.byId, ClientAt(s, a).peerId);
      assert C.Owns(ClientAt(s, payer), ClientAt(s, a).peerId) && C.Owns(ClientAt(s, a), ClientAt(s, a).peerId);
      assert payer == a;
    }
    assert forall a :: IsClient(s, a) ==> ConfirmationsEarned(s, a);
  }
}
