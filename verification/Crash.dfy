// Crash safety of the wallet files: paying and crediting cut into their single steps, with
// a crash possible between any two of them.

module Crash {
  import opened Words
  import opened Messages
  import opened DedupKeys
  import W = Wallet
  import S = SeenIds
  import C = Clients
  import Identity
  import N = Network
  import L = Ledger

  // How far a payment order, or the handling of a received payment, has come.
  datatype PayStage = NotPaying | Debited(dst: string, amount: u64) | DebitSaved(dst: string, amount: u64)
  datatype ReceiveStage = NotReceiving | Accepted(msg: Message) | Credited(msg: Message) | CreditSaved(msg: Message)

  // A client's memory and file, and the two activities working on them.
  datatype Device = Device(client: C.Client, pay: PayStage, receive: ReceiveStage)

  // net holds copies of payments, which may reach any client, and acknowledgements, which end
  // here; an entry of the ledger is settled once its credit is in a file.
  datatype World = World(devices: seq<Device>, net: seq<Message>, ledger: seq<N.Entry>)

  datatype Action =
    | Debit(i: nat, dst: string, amount: u64)
    | SaveDebit(i: nat)
    | SendPayment(i: nat, id: u64)
    | Accept(i: nat, k: nat)
    | Credit(i: nat)
    | SaveCredit(i: nat)
    | Acknowledge(i: nat)
    | Lose(k: nat)
    | Copy(k: nat)
    | Crash(i: nat)

  // Debit and save, and credit and save, each hold the wallet's lock.
  ghost predicate Enabled(w: World, a: Action) {
    match a
    case Debit(i, _, amount) =>
      && i < |w.devices| && w.devices[i].pay == NotPaying && !w.devices[i].receive.Credited?
      && 0 < amount <= w.devices[i].client.balance
    case SaveDebit(i) => i < |w.devices| && w.devices[i].pay.Debited?
    case SendPayment(i, id) => i < |w.devices| && w.devices[i].pay.DebitSaved? && !L.HasEntry(w.ledger, id)
    case Accept(i, k) =>
      && i < |w.devices| && k < |w.net|
      && w.devices[i].receive == NotReceiving && N.Credits(w.devices[i].client, w.net[k])
    case Credit(i) =>
      && i < |w.devices| && w.devices[i].receive.Accepted? && w.devices[i].receive.msg.Payment?
      && !w.devices[i].pay.Debited?
    case SaveCredit(i) => i < |w.devices| && w.devices[i].receive.Credited? && w.devices[i].receive.msg.Payment?
    case Acknowledge(i) => i < |w.devices| && w.devices[i].receive.CreditSaved? && w.devices[i].receive.msg.Payment?
    case Lose(k) => k < |w.net|
    case Copy(k) => k < |w.net|
    case Crash(i) => i < |w.devices|
  }

  function Repeat(m: Message, n: nat): seq<Message> {
    seq(n, _ => m)
  }

  function Taken(net: seq<Message>, k: nat): seq<Message>
    requires k < |net|
  {
    net[..k] + net[k + 1..]
  }

  ghost function Apply(w: World, a: Action): World
    requires Enabled(w, a)
  {
    match a
    case Debit(i, dst, amount) =>
      var d := w.devices[i];
      var c := d.client.(balance := d.client.balance - amount);
      w.(devices := w.devices[i := d.(client := c, pay := Debited(dst, amount))])
    case SaveDebit(i) =>
      var d := w.devices[i];
      var c := d.client.(saved := d.client.balance);
      w.(devices := w.devices[i := d.(client := c, pay := DebitSaved(d.pay.dst, d.pay.amount))])
    case SendPayment(i, id) =>
      var d := w.devices[i];
      var m := Payment(d.client.peerId, d.pay.dst, d.pay.amount, id);
      var c := d.client.(log := d.client.log + [C.Sent(id, m.dstId, m.amount)]);
      World(
        w.devices[i := d.(client := c, pay := NotPaying)],
        w.net + Repeat(m, |d.client.relays|),
        w.ledger + [N.Entry(id, i, m.srcId, m.dstId, m.amount, false)])
    case Accept(i, k) =>
      var d, m := w.devices[i], w.net[k];
      var c := d.client.(seen := S.Admit(d.client.seen, CACHE_SIZE, Key(Pay, m.paymentId)));
      w.(devices := w.devices[i := d.(client := c, receive := Accepted(m))], net := Taken(w.net, k))
    case Credit(i) =>
      var d := w.devices[i];
      var c := d.client.(balance := W.WrappingAdd(d.client.balance, d.receive.msg.amount));
      w.(devices := w.devices[i := d.(client := c, receive := Credited(d.receive.msg))])
    case SaveCredit(i) =>
      var d := w.devices[i];
      var c := d.client.(saved := d.client.balance);
      w.(devices := w.devices[i := d.(client := c, receive := CreditSaved(d.receive.msg))],
         ledger := N.Settle(w.ledger, d.receive.msg.paymentId))
    case Acknowledge(i) =>
      var d, m := w.devices[i], w.devices[i].receive.msg;
      var c := d.client.(log := d.client.log + [C.Received(m.paymentId, m.srcId, m.amount)]);
      w.(devices := w.devices[i := d.(client := c, receive := NotReceiving)],
         net := w.net + Repeat(PaymentAck(m.paymentId, c.peerId, m.srcId), |c.relays|))
    case Lose(k) => w.(net := Taken(w.net, k))
    case Copy(k) => w.(net := w.net + [w.net[k]])
    case Crash(i) =>
      var c := w.devices[i].client;
      w.(devices := w.devices[i := Device(c.(balance := c.saved, seen := [], log := []), NotPaying, NotReceiving)])
  }

  // ---------- the steps make up the operations ----------

  // Debit, save and send, uninterrupted, are what a client does on a payment order.
  lemma PayingIsMakePayment(w: World, i: nat, dst: string, amount: u64, id: u64)
    requires Enabled(w, Debit(i, dst, amount)) && !L.HasEntry(w.ledger, id)
    ensures var w1 := Apply(w, Debit(i, dst, amount));
            && Enabled(w1, SaveDebit(i))
            && var w2 := Apply(w1, SaveDebit(i));
            && Enabled(w2, SendPayment(i, id))
            && var w3 := Apply(w2, SendPayment(i, id));
            var r := C.MakePayment(w.devices[i].client, dst, amount, id);
            && w3.devices[i].client == r.client
            && w3.net == w.net + Repeat(Payment(w.devices[i].client.peerId, dst, amount, id), |r.sends|)
            && forall x :: 0 <= x < |r.sends| ==> r.sends[x].msg == Payment(w.devices[i].client.peerId, dst, amount, id)
  {
  }

  // Dedup, credit, save and acknowledge, uninterrupted, are what a client does on receiving a
  // payment.
  lemma ReceivingIsHandle(scheme: Identity.Scheme, w: World, i: nat, k: nat)
    requires Enabled(w, Accept(i, k)) && !w.devices[i].pay.Debited?
    ensures var m := w.net[k];
            var w1 := Apply(w, Accept(i, k));
            && Enabled(w1, Credit(i))
            && var w2 := Apply(w1, Credit(i));
            && Enabled(w2, SaveCredit(i))
            && var w3 := Apply(w2, SaveCredit(i));
            && Enabled(w3, Acknowledge(i))
            && var w4 := Apply(w3, Acknowledge(i));
            var r := C.Handle(scheme, w.devices[i].client, m);
            && w4.devices[i].client == r.client
            && w4.net
            == Taken(w.net, k) + Repeat(PaymentAck(m.paymentId, w.devices[i].client.peerId, m.srcId), |r.sends|)
            && forall x :: 0 <= x < |r.sends| ==>
                 r.sends[x].msg == PaymentAck(m.paymentId, w.devices[i].client.peerId, m.srcId)
  {
  }

  // ---------- what is counted ----------

  // What is certain to survive: the files, the payments debited and not yet durably
  // credited, and those about to be sent.
  function InHand(d: Device): nat {
    if d.pay.DebitSaved? then d.pay.amount else 0
  }

  function Durable(devices: seq<Device>): nat {
    if devices == [] then 0 else devices[0].client.saved + InHand(devices[0]) + Durable(devices[1..])
  }

  function SavedTotal(devices: seq<Device>): nat {
    if devices == [] then 0 else devices[0].client.saved + SavedTotal(devices[1..])
  }

  function Worth(w: World): nat {
    Durable(w.devices) + L.Pending(w.ledger)
  }

  lemma {:induction false} DurableUpdate(devices: seq<Device>, i: nat, d: Device)
    requires i < |devices|
    ensures Durable(devices[i := d])
         == Durable(devices) - devices[i].client.saved - InHand(devices[i]) + d.client.saved + InHand(d)
    ensures devices[i].client.saved + InHand(devices[i]) <= Durable(devices)
  {
    if i > 0 {
      assert devices[i := d][1..] == devices[1..][i - 1 := d];
      DurableUpdate(devices[1..], i - 1, d);
    } else {
      assert devices[i := d][1..] == devices[1..];
    }
  }

  lemma {:induction false} SavedBelowDurable(devices: seq<Device>)
    ensures SavedTotal(devices) <= Durable(devices)
  {
    if devices != [] {
      SavedBelowDurable(devices[1..]);
    }
  }

  // ---------- the invariant ----------

  ghost predicate UniqueOwners(w: World) {
    forall i, j, name :: 0 <= i < |w.devices| && 0 <= j < |w.devices|
                         && C.Owns(w.devices[i].client, name) && C.Owns(w.devices[j].client, name) ==>
                           i == j
  }

  // This payment is recorded on these terms and not durably credited.
  ghost predicate Open(ledger: seq<N.Entry>, m: Message) {
    m.Payment? && exists e :: e in ledger && L.Backs(e, m) && !e.settled
  }

  predicate Receiving(d: Device) {
    d.receive.Accepted? || d.receive.Credited?
  }

  // Memory and file differ by the step in progress, and a payment being credited is not
  // durably credited yet, but known to the cache.
  ghost predicate Coherent(w: World, d: Device) {
    && d.client.balance == (if d.receive.Credited? && d.receive.msg.Payment? then d.client.saved + d.receive.msg.amount
                            else if d.pay.Debited? then d.client.saved - d.pay.amount
                            else d.client.saved)
    && !(d.pay.Debited? && d.receive.Credited?)
    && (Receiving(d) ==>
          && Open(w.ledger, d.receive.msg)
          && C.Owns(d.client, d.receive.msg.dstId)
          && Key(Pay, d.receive.msg.paymentId) in d.client.seen)
  }

  // What holds whatever caches forget: records are consistent, amounts are positive, and each
  // device is coherent.
  ghost predicate Sound(w: World) {
    && UniqueOwners(w)
    && L.DistinctIds(w.ledger)
    && (forall m :: m in w.net && m.Payment? ==> L.Backed(w.ledger, m))
    && (forall i :: 0 <= i < |w.devices| ==> Coherent(w, w.devices[i]))
    && (forall e :: e in w.ledger ==> e.amount > 0)
    && forall i :: 0 <= i < |w.devices| && !w.devices[i].pay.NotPaying? ==> w.devices[i].pay.amount > 0
  }

  ghost predicate CrashInv(w: World) {
    Sound(w) && forall i :: 0 <= i < |w.devices| ==> WantsOpenOnly(w, w.devices[i].client)
  }

  // Of the payments in flight a client would credit only those not durably credited.
  ghost predicate WantsOpenOnly(w: World, c: C.Client) {
    forall m :: m in w.net && N.Credits(c, m) ==> Open(w.ledger, m)
  }

  // A copy of a payment this client has durably credited is on its way to it.
  ghost predicate Lurks(w: World, i: nat, m: Message)
    requires i < |w.devices|
  {
    m in w.net && IsFor(w, i, m) && !Open(w.ledger, m)
  }

  // A client crashes while such a copy is in flight.
  ghost predicate CrashesTooEarly(w: World, a: Action) {
    a.Crash? && a.i < |w.devices| && exists m :: Lurks(w, a.i, m)
  }

  // Accepting a payment evicts the key of such a copy.
  ghost predicate EvictsTooEarly(w: World, a: Action) {
    && a.Accept?
    && a.i < |w.devices|
    && a.k < |w.net|
    && w.net[a.k].Payment?
    && exists m :: Lurks(w, a.i, m) && Forgets(w.devices[a.i].client.seen, w.net[a.k], m)
  }

  // Accepting one payment makes this cache forget the key of another.
  predicate Forgets(seen: seq<u64>, accepted: Message, m: Message)
    requires accepted.Payment? && m.Payment?
  {
    && Key(Pay, m.paymentId) in seen
    && Key(Pay, m.paymentId) !in S.Admit(seen, CACHE_SIZE, Key(Pay, accepted.paymentId))
  }

  ghost predicate TooEarly(w: World, a: Action) {
    CrashesTooEarly(w, a) || EvictsTooEarly(w, a)
  }

  predicate IsFor(w: World, i: nat, m: Message)
    requires i < |w.devices|
  {
    m.Payment? && C.Owns(w.devices[i].client, m.dstId)
  }

  // ---------- steps ----------

  lemma OpenStays(ledger: seq<N.Entry>, e: N.Entry, m: Message)
    requires Open(ledger, m)
    ensures Open(ledger + [e], m)
  {
    var x :| x in ledger && L.Backs(x, m) && !x.settled;
    assert x in ledger + [e];
  }

  lemma OpenAfterSettle(ledger: seq<N.Entry>, id: u64, m: Message)
    requires Open(ledger, m) && m.paymentId != id
    ensures Open(N.Settle(ledger, id), m)
  {
    var x :| x in ledger && L.Backs(x, m) && !x.settled;
    var k :| 0 <= k < |ledger| && ledger[k] == x;
    assert N.Settle(ledger, id)[k] == x;
  }

  lemma BackedStays(ledger: seq<N.Entry>, e: N.Entry, m: Message)
    requires m.Payment? && L.Backed(ledger, m)
    ensures L.Backed(ledger + [e], m)
  {
    var k :| 0 <= k < |ledger| && L.Backs(ledger[k], m);
    assert L.Backs((ledger + [e])[k], m);
  }

  lemma BackedAfterSettle(ledger: seq<N.Entry>, id: u64, m: Message)
    requires m.Payment? && L.Backed(ledger, m)
    ensures L.Backed(N.Settle(ledger, id), m)
  {
    var k :| 0 <= k < |ledger| && L.Backs(ledger[k], m);
    assert L.Backs(N.Settle(ledger, id)[k], m);
  }

  // Durably crediting an open payment moves its amount from the network to the file.
  lemma SettleOpen(ledger: seq<N.Entry>, m: Message)
    requires L.DistinctIds(ledger) && Open(ledger, m)
    ensures L.Pending(N.Settle(ledger, m.paymentId)) == L.Pending(ledger) - m.amount
    ensures m.amount <= L.Pending(ledger)
  {
    var x :| x in ledger && L.Backs(x, m) && !x.settled;
    var k :| 0 <= k < |ledger| && ledger[k] == x;
    L.PendingSettle(ledger, k);
  }

  // Adding to the balance of a payment being credited does not overflow.
  lemma RoomForCredit(w: World, i: nat)
    requires Sound(w) && Enabled(w, Credit(i)) && Worth(w) < U64_LIMIT
    ensures w.devices[i].client.balance == w.devices[i].client.saved
    ensures w.devices[i].client.balance + w.devices[i].receive.msg.amount < U64_LIMIT
  {
    var d := w.devices[i];
    assert Coherent(w, d);
    DurableUpdate(w.devices, i, d);
    SettleOpen(w.ledger, d.receive.msg);
  }

  // No step raises what is certain to survive.
  lemma WorthNeverGrows(w: World, a: Action)
    requires Enabled(w, a) && Sound(w) && Worth(w) < U64_LIMIT
    ensures Worth(Apply(w, a)) <= Worth(w)
    ensures a.SaveDebit? || a.Credit? || a.SaveCredit? || a.Acknowledge? ==> Worth(Apply(w, a)) == Worth(w)
  {
    var w' := Apply(w, a);
    match a
    case Debit(i, _, _) => DurableUpdate(w.devices, i, w'.devices[i]);
    case SaveDebit(i) =>
      assert Coherent(w, w.devices[i]);
      DurableUpdate(w.devices, i, w'.devices[i]);
    case SendPayment(i, id) =>
      DurableUpdate(w.devices, i, w'.devices[i]);
      L.PendingPush(w.ledger, w'.ledger[|w.ledger|]);
    case Accept(i, _) => DurableUpdate(w.devices, i, w'.devices[i]);
    case Credit(i) => DurableUpdate(w.devices, i, w'.devices[i]);
    case SaveCredit(i) =>
      assert Coherent(w, w.devices[i]);
      DurableUpdate(w.devices, i, w'.devices[i]);
      SettleOpen(w.ledger, w.devices[i].receive.msg);
    case Acknowledge(i) => DurableUpdate(w.devices, i, w'.devices[i]);
    case Crash(i) => DurableUpdate(w.devices, i, w'.devices[i]);
    case _ =>
  }

  // The one way to gain: a credit saved for a payment that was durably credited before adds
  // its amount out of nothing.
  lemma SecondCreditGains(w: World, i: nat, k: nat)
    requires Enabled(w, SaveCredit(i)) && L.DistinctIds(w.ledger) && k < |w.ledger| && w.ledger[k].settled
    requires w.devices[i].receive.msg.paymentId == w.ledger[k].id
    requires w.devices[i].client.balance == w.devices[i].client.saved + w.devices[i].receive.msg.amount
    ensures Worth(Apply(w, SaveCredit(i))) == Worth(w) + w.devices[i].receive.msg.amount
  {
    DurableUpdate(w.devices, i, Apply(w, SaveCredit(i)).devices[i]);
    L.PendingSettle(w.ledger, k);
  }

  lemma NamesFixed(w: World, a: Action)
    requires Enabled(w, a)
    ensures var w' := Apply(w, a);
            && |w'.devices| == |w.devices|
            && forall i, name :: 0 <= i < |w.devices| ==>
                                   (C.Owns(w'.devices[i].client, name) <==> C.Owns(w.devices[i].client, name))
  {
  }

  lemma NetStaysBacked(w: World, a: Action, m: Message)
    requires Enabled(w, a) && Sound(w) && m in Apply(w, a).net && m.Payment?
    ensures L.Backed(Apply(w, a).ledger, m)
  {
    var w' := Apply(w, a);
    if a.SendPayment? {
      var e := w'.ledger[|w.ledger|];
      if m in w.net {
        BackedStays(w.ledger, e, m);
      } else {
        assert L.Backs(w'.ledger[|w.ledger|], m);
      }
    } else {
      assert m in w.net;
      if a.SaveCredit? {
        BackedAfterSettle(w.ledger, w.devices[a.i].receive.msg.paymentId, m);
      }
    }
  }

  ghost predicate AcceptsOpen(w: World, a: Action) {
    a.Accept? && a.k < |w.net| ==> Open(w.ledger, w.net[a.k])
  }

  // The device that acts stays coherent.
  lemma ActorCoherent(w: World, a: Action, i: nat)
    requires Enabled(w, a) && Sound(w) && Worth(w) < U64_LIMIT && AcceptsOpen(w, a)
    requires i < |w.devices| && !a.Lose? && !a.Copy? && a.i == i
    ensures Coherent(Apply(w, a), Apply(w, a).devices[i])
  {
    var w', d := Apply(w, a), w.devices[i];
    assert Coherent(w, d);
    if a.Credit? {
      RoomForCredit(w, i);
    } else if a.Accept? {
      assert w.net[a.k] in w.net;
      S.AdmitContains(d.client.seen, CACHE_SIZE, Key(Pay, w.net[a.k].paymentId));
    } else if a.SendPayment? && Receiving(d) {
      OpenStays(w.ledger, w'.ledger[|w.ledger|], d.receive.msg);
    }
  }

  // Other devices stay coherent: two clients never credit the same payment.
  lemma OthersCoherent(w: World, a: Action, i: nat)
    requires Enabled(w, a) && Sound(w) && i < |w.devices| && (a.Lose? || a.Copy? || a.i != i)
    ensures Apply(w, a).devices[i] == w.devices[i] && Coherent(Apply(w, a), w.devices[i])
  {
    var w', d := Apply(w, a), w.devices[i];
    assert Coherent(w, d);
    if Receiving(d) {
      if a.SendPayment? {
        OpenStays(w.ledger, w'.ledger[|w.ledger|], d.receive.msg);
      } else if a.SaveCredit? {
        assert Coherent(w, w.devices[a.i]);
        DifferentPayments(w, i, a.i);
        OpenAfterSettle(w.ledger, w.devices[a.i].receive.msg.paymentId, d.receive.msg);
      }
    }
  }

  lemma DifferentPayments(w: World, i: nat, j: nat)
    requires Sound(w) && i < |w.devices| && j < |w.devices| && i != j
    requires Receiving(w.devices[i])
    requires w.devices[j].receive.Credited?
    ensures w.devices[i].receive.msg.Payment? && w.devices[j].receive.msg.Payment?
    ensures w.devices[i].receive.msg.paymentId != w.devices[j].receive.msg.paymentId
  {
    var m, n := w.devices[i].receive.msg, w.devices[j].receive.msg;
    assert Coherent(w, w.devices[i]) && Coherent(w, w.devices[j]);
    var x :| x in w.ledger && L.Backs(x, m) && !x.settled;
    var y :| y in w.ledger && L.Backs(y, n) && !y.settled;
    assert m.paymentId == n.paymentId ==> x == y;
  }

  // Unless it is too early, a client goes on knowing the credited payments in flight to it.
  lemma SeenStays(w: World, a: Action, i: nat, m: Message)
    requires Enabled(w, a) && !TooEarly(w, a) && i < |w.devices|
    requires Lurks(w, i, m) && Key(Pay, m.paymentId) in w.devices[i].client.seen
    ensures |Apply(w, a).devices| == |w.devices|
    ensures Key(Pay, m.paymentId) in Apply(w, a).devices[i].client.seen
  {
    if a.Accept? && a.i == i {
      assert !Forgets(w.devices[i].client.seen, w.net[a.k], m);
    }
  }

  // Durably crediting a payment leaves no one who would credit it again: its owner's cache
  // knows it, and no one else owns its destination name.
  lemma SettledUnwanted(w: World, a: Action, i: nat, m: Message)
    requires Enabled(w, a) && Sound(w) && a.SaveCredit? && i < |w.devices| && m in w.net
    requires N.Credits(w.devices[i].client, m)
    ensures m.paymentId != w.devices[a.i].receive.msg.paymentId
  {
    var n := w.devices[a.i].receive.msg;
    assert Coherent(w, w.devices[a.i]);
    var x :| x in w.ledger && L.Backs(x, n) && !x.settled;
    assert L.Backed(w.ledger, m);
    var k :| 0 <= k < |w.ledger| && L.Backs(w.ledger[k], m);
    var e := w.ledger[k];
    assert x.id == e.id ==> x == e;
  }

  lemma OpenBefore(w: World, a: Action, i: nat, m: Message)
    requires Enabled(w, a) && CrashInv(w) && !TooEarly(w, a) && m in w.net
    requires i < |w.devices| && |Apply(w, a).devices| == |w.devices| && N.Credits(Apply(w, a).devices[i].client, m)
    ensures Open(w.ledger, m)
  {
    NamesFixed(w, a);
    if Key(Pay, m.paymentId) !in w.devices[i].client.seen {
      assert WantsOpenOnly(w, w.devices[i].client);
    } else if !Open(w.ledger, m) {
      SeenStays(w, a, i, m);
    }
  }

  // What a client would credit after a step was open before, or is new.
  lemma StillWantsOpenOnly(w: World, a: Action, i: nat, m: Message)
    requires Enabled(w, a) && CrashInv(w) && !TooEarly(w, a)
    requires i < |w.devices| && |Apply(w, a).devices| == |w.devices| && m in Apply(w, a).net
    requires N.Credits(Apply(w, a).devices[i].client, m)
    ensures Open(Apply(w, a).ledger, m)
  {
    var w' := Apply(w, a);
    NamesFixed(w, a);
    if m in w.net {
      OpenBefore(w, a, i, m);
      if a.SendPayment? {
        OpenStays(w.ledger, w'.ledger[|w.ledger|], m);
      } else if a.SaveCredit? {
        SettledUnwanted(w, a, i, m);
        OpenAfterSettle(w.ledger, w.devices[a.i].receive.msg.paymentId, m);
      }
    } else {
      assert a.SendPayment? && L.Backs(w'.ledger[|w.ledger|], m);
    }
  }

  // Whatever is forgotten, records stay sound as long as only open payments are accepted.
  lemma SoundStep(w: World, a: Action)
    requires Enabled(w, a) && Sound(w) && Worth(w) < U64_LIMIT && AcceptsOpen(w, a)
    ensures Sound(Apply(w, a))
  {
    var w' := Apply(w, a);
    NamesFixed(w, a);
    forall m | m in w'.net && m.Payment?
      ensures L.Backed(w'.ledger, m)
    {
      NetStaysBacked(w, a, m);
    }
    forall i | 0 <= i < |w'.devices|
      ensures Coherent(w', w'.devices[i])
    {
      if a.Lose? || a.Copy? || a.i != i {
        OthersCoherent(w, a, i);
      } else {
        ActorCoherent(w, a, i);
      }
    }
    AmountsStay(w, a);
  }

  lemma AmountsStay(w: World, a: Action)
    requires Enabled(w, a) && Sound(w)
    ensures forall e :: e in Apply(w, a).ledger ==> e.amount > 0
  {
    var w' := Apply(w, a);
    forall k | 0 <= k < |w'.ledger|
      ensures w'.ledger[k].amount > 0
    {
      assert k < |w.ledger| ==> w.ledger[k] in w.ledger && w'.ledger[k].amount == w.ledger[k].amount;
    }
  }

  lemma CrashStep(w: World, a: Action)
    requires Enabled(w, a) && CrashInv(w) && Worth(w) < U64_LIMIT && !TooEarly(w, a)
    ensures CrashInv(Apply(w, a))
  {
    var w' := Apply(w, a);
    if a.Accept? {
      assert WantsOpenOnly(w, w.devices[a.i].client) && w.net[a.k] in w.net;
    }
    SoundStep(w, a);
    forall i, m | 0 <= i < |w'.devices| && m in w'.net && N.Credits(w'.devices[i].client, m)
      ensures Open(w'.ledger, m)
    {
      StillWantsOpenOnly(w, a, i, m);
    }
  }

  // ---------- runs ----------

  ghost predicate Happens(worlds: seq<World>, actions: seq<Action>, k: nat)
    requires k < |actions| && |worlds| == |actions| + 1
  {
    Enabled(worlds[k], actions[k]) && worlds[k + 1] == Apply(worlds[k], actions[k])
  }

  // While a copy of a payment a client durably credited is on its way to it, the client does
  // not crash, and its cache keeps the key.
  ghost predicate StepAt(worlds: seq<World>, actions: seq<Action>, k: nat)
    requires k < |actions| && |worlds| == |actions| + 1
  {
    Happens(worlds, actions, k) && !TooEarly(worlds[k], actions[k])
  }

  // At first no payment exists, and files agree with memory.
  ghost predicate Opening(w: World) {
    && UniqueOwners(w)
    && w.net == []
    && w.ledger == []
    && Worth(w) < U64_LIMIT
    && forall i :: 0 <= i < |w.devices| ==>
         && w.devices[i].client.balance == w.devices[i].client.saved
         && w.devices[i].pay == NotPaying
         && w.devices[i].receive == NotReceiving
  }

  // Along such a run what is certain to survive never grows.
  lemma {:induction false} NeverGains(worlds: seq<World>, actions: seq<Action>, k: nat)
    requires |worlds| == |actions| + 1 && CrashInv(worlds[0]) && Worth(worlds[0]) < U64_LIMIT && k <= |actions|
    requires forall j :: 0 <= j < |actions| ==> StepAt(worlds, actions, j)
    ensures CrashInv(worlds[k]) && Worth(worlds[k]) <= Worth(worlds[0])
  {
    if k > 0 {
      NeverGains(worlds, actions, k - 1);
      assert StepAt(worlds, actions, k - 1);
      WorthNeverGrows(worlds[k - 1], actions[k - 1]);
      CrashStep(worlds[k - 1], actions[k - 1]);
    }
  }

  // Clients may crash between any two steps of paying or crediting and go on from their
  // files, provided none does, or evicts the key, while a copy of a payment it durably credited
  // is on its way to it: the files plus the payments sent and not durably credited never exceed
  // what the files held at first.
  lemma CrashSafety(worlds: seq<World>, actions: seq<Action>, k: nat)
    requires |worlds| == |actions| + 1 && Opening(worlds[0]) && k <= |actions|
    requires forall j :: 0 <= j < |actions| ==> StepAt(worlds, actions, j)
    ensures CrashInv(worlds[k]) && Worth(worlds[k]) <= Worth(worlds[0])
    ensures SavedTotal(worlds[k].devices) + L.Pending(worlds[k].ledger) <= SavedTotal(worlds[0].devices)
  {
    NeverGains(worlds, actions, k);
    SavedBelowDurable(worlds[k].devices);
    AtFirst(worlds[0].devices);
  }

  lemma {:induction false} AtFirst(devices: seq<Device>)
    requires forall i :: 0 <= i < |devices| ==> devices[i].pay == NotPaying
    ensures Durable(devices) == SavedTotal(devices)
  {
    if devices != [] {
      AtFirst(devices[1..]);
    }
  }
}
