// The condition of the crash-safety theorem is exact: a step is too early exactly if steps that
// are not can make money after it. And such a step can be reached.

module CrashGain {
  import opened Words
  import opened Messages
  import opened DedupKeys
  import opened Crash
  import C = Clients
  import N = Network
  import L = Ledger

  // A run whose steps all meet the conditions of the crash-safety theorem.
  ghost predicate SafeRun(worlds: seq<World>, actions: seq<Action>, w: World, w': World) {
    && |worlds| == |actions| + 1
    && worlds[0] == w
    && worlds[|actions|] == w'
    && forall k :: 0 <= k < |actions| ==> StepAt(worlds, actions, k)
  }

  ghost predicate Leads(w: World, w': World) {
    exists worlds, actions :: SafeRun(worlds, actions, w, w')
  }

  lemma LeadsNowhere(w: World)
    ensures Leads(w, w)
  {
    var actions: seq<Action> := [];
    assert SafeRun([w], actions, w, w);
  }

  lemma LeadsOn(w: World, w': World, a: Action)
    requires Leads(w, w') && Enabled(w', a) && !TooEarly(w', a)
    ensures Leads(w, Apply(w', a))
  {
    var worlds, actions :| SafeRun(worlds, actions, w, w');
    var longer, acts := worlds + [Apply(w', a)], actions + [a];
    forall k | 0 <= k < |acts|
      ensures StepAt(longer, acts, k)
    {
      if k < |actions| {
        assert StepAt(worlds, actions, k);
      }
    }
    assert SafeRun(longer, acts, w, Apply(w', a));
  }

  // ---------- a lurking copy makes money ----------

  lemma StillThere(net: seq<Message>, k: nat, m: Message)
    requires k < |net| && m in net && net[k] != m
    ensures m in Taken(net, k)
  {
    var j :| 0 <= j < |net| && net[j] == m;
    assert Taken(net, k)[if j < k then j else j - 1] == m;
  }

  // The network may lose everything but one copy.
  lemma {:induction false} LosesAllElse(w: World, w': World, m: Message)
    requires Leads(w, w') && m in w'.net
    ensures Leads(w, w'.(net := [m]))
    decreases |w'.net|
  {
    if |w'.net| == 1 {
      assert w'.net == [m];
    } else {
      var k := if m in w'.net[1..] then 0 else |w'.net| - 1;
      assert w'.net == [w'.net[0]] + w'.net[1..];
      assert m in Taken(w'.net, k) by {
        if k > 0 {
          assert Taken(w'.net, k)[0] == m;
        } else {
          assert Taken(w'.net, k) == w'.net[1..];
        }
      }
      LeadsOn(w, w', Lose(k));
      LosesAllElse(w, w'.(net := Taken(w'.net, k)), m);
    }
  }

  // A client at rest that does not know a payment it has durably credited.
  ghost predicate Ripe(w: World, i: nat, m: Message) {
    && i < |w.devices|
    && Lurks(w, i, m)
    && L.DistinctIds(w.ledger)
    && L.Backed(w.ledger, m)
    && Key(Pay, m.paymentId) !in w.devices[i].client.seen
    && w.devices[i].receive == NotReceiving
    && !w.devices[i].pay.Debited?
    && w.devices[i].client.balance == w.devices[i].client.saved
    && m.amount > 0
    && w.devices[i].client.saved + m.amount < U64_LIMIT
  }

  // Once more it accepts it,
  lemma RipeAccepted(w: World, w1: World, i: nat, m: Message) returns (w2: World)
    requires Leads(w, w1) && Ripe(w1, i, m) && w1.net == [m]
    ensures Leads(w, w2) && Enabled(w2, Credit(i)) && Worth(w2) == Worth(w1) && w2.ledger == w1.ledger
    ensures w2.devices[i].receive == Accepted(m) && w2.devices[i].client.balance == w1.devices[i].client.balance
    ensures w2.devices[i].client.saved == w1.devices[i].client.saved
  {
    assert !EvictsTooEarly(w1, Accept(i, 0)) by {
      assert forall x :: x in w1.net ==> x == m;
    }
    LeadsOn(w, w1, Accept(i, 0));
    w2 := Apply(w1, Accept(i, 0));
    DurableUpdate(w1.devices, i, w2.devices[i]);
  }

  // and credits it.
  lemma RipeCredited(w: World, w2: World, i: nat, m: Message) returns (w4: World)
    requires Leads(w, w2) && Enabled(w2, Credit(i)) && w2.devices[i].receive == Accepted(m)
    requires L.DistinctIds(w2.ledger) && L.Backed(w2.ledger, m) && !Open(w2.ledger, m)
    requires w2.devices[i].client.balance == w2.devices[i].client.saved
    requires m.amount > 0 && w2.devices[i].client.saved + m.amount < U64_LIMIT
    ensures Leads(w, w4) && Worth(w4) > Worth(w2)
  {
    LeadsOn(w, w2, Credit(i));
    var w3 := Apply(w2, Credit(i));
    DurableUpdate(w2.devices, i, w3.devices[i]);
    LeadsOn(w, w3, SaveCredit(i));
    w4 := Apply(w3, SaveCredit(i));
    var k :| 0 <= k < |w2.ledger| && L.Backs(w2.ledger[k], m);
    assert w2.ledger[k].settled by {
      assert w2.ledger[k] in w2.ledger;
    }
    SecondCreditGains(w3, i, k);
  }

  lemma RipeGains(w: World, w1: World, i: nat, m: Message) returns (w': World)
    requires Leads(w, w1) && Ripe(w1, i, m)
    ensures Leads(w, w') && Worth(w') > Worth(w1)
  {
    LosesAllElse(w, w1, m);
    var w2 := RipeAccepted(w, w1.(net := [m]), i, m);
    w' := RipeCredited(w, w2, i, m);
  }

  // ---------- too early ----------

  // No amount in flight could overflow a balance.
  ghost predicate RoomForAll(w: World) {
    forall m :: m in w.net && m.Payment? ==> m.amount + Worth(w) < U64_LIMIT
  }

  ghost predicate CanGain(w: World) {
    exists w' :: Leads(w, w') && Worth(w') > Worth(w)
  }

  lemma AmountPositive(w: World, m: Message)
    requires Sound(w) && m in w.net && m.Payment?
    ensures m.amount > 0
  {
    var k :| 0 <= k < |w.ledger| && L.Backs(w.ledger[k], m);
    assert w.ledger[k] in w.ledger;
  }

  lemma EarlyCrashGains(w: World, i: nat)
    requires Sound(w) && RoomForAll(w) && CrashesTooEarly(w, Crash(i))
    ensures CanGain(Apply(w, Crash(i)))
  {
    var w1 := Apply(w, Crash(i));
    var m :| Lurks(w, i, m);
    AmountPositive(w, m);
    DurableUpdate(w.devices, i, w.devices[i]);
    LeadsNowhere(w1);
    var w' := RipeGains(w1, w1, i, m);
  }

  // The client in the middle of accepting a payment can finish, without losing anything.
  lemma Finishes(w: World, i: nat) returns (w': World)
    requires Sound(w) && Worth(w) < U64_LIMIT && i < |w.devices| && w.devices[i].receive.Accepted?
    ensures Leads(w, w') && Sound(w') && Worth(w') == Worth(w)
    ensures |w'.devices| == |w.devices| && w'.devices[i].receive == NotReceiving && !w'.devices[i].pay.Debited?
    ensures w'.devices[i].client.seen == w.devices[i].client.seen
    ensures w'.ledger == N.Settle(w.ledger, w.devices[i].receive.msg.paymentId)
    ensures forall m :: m in w.net ==> m in w'.net
    ensures forall name :: C.Owns(w'.devices[i].client, name) <==> C.Owns(w.devices[i].client, name)
  {
    LeadsNowhere(w);
    w' := w;
    assert Coherent(w, w.devices[i]);
    if w.devices[i].pay.Debited? {
      w' := Quietly(w, w', SaveDebit(i));
    }
    w' := Quietly(w, w', Credit(i));
    w' := Quietly(w, w', SaveCredit(i));
    w' := Quietly(w, w', Acknowledge(i));
  }

  lemma Quietly(w: World, w': World, a: Action) returns (next: World)
    requires Leads(w, w') && Enabled(w', a) && (a.SaveDebit? || a.Credit? || a.SaveCredit? || a.Acknowledge?)
    requires Sound(w') && Worth(w') < U64_LIMIT
    ensures next == Apply(w', a) && Leads(w, next) && Sound(next) && Worth(next) == Worth(w')
  {
    next := Apply(w', a);
    SoundStep(w', a);
    WorthNeverGrows(w', a);
    LeadsOn(w, w', a);
  }

  lemma StillLurks(w: World, w': World, i: nat, id: u64, m: Message)
    requires i < |w.devices| && Lurks(w, i, m) && L.Backed(w.ledger, m) && L.DistinctIds(w.ledger)
    requires i < |w'.devices| && m in w'.net && w'.ledger == N.Settle(w.ledger, id)
    requires forall name :: C.Owns(w'.devices[i].client, name) <==> C.Owns(w.devices[i].client, name)
    ensures Lurks(w', i, m)
  {
  }

  lemma EarlyEvictionGains(w: World, i: nat, k: nat)
    requires CrashInv(w) && RoomForAll(w) && Worth(w) < U64_LIMIT && Enabled(w, Accept(i, k))
    requires EvictsTooEarly(w, Accept(i, k))
    ensures CanGain(Apply(w, Accept(i, k)))
  {
    var w1 := Apply(w, Accept(i, k));
    var m :| Lurks(w, i, m) && Forgets(w.devices[i].client.seen, w.net[k], m);
    AmountPositive(w, m);
    assert WantsOpenOnly(w, w.devices[i].client) && w.net[k] in w.net;
    SoundStep(w, Accept(i, k));
    DurableUpdate(w.devices, i, w1.devices[i]);
    StillThere(w.net, k, m);
    assert Lurks(w1, i, m);
    var w2 := Finishes(w1, i);
    StillLurks(w1, w2, i, w1.devices[i].receive.msg.paymentId, m);
    assert Coherent(w2, w2.devices[i]);
    DurableUpdate(w2.devices, i, w2.devices[i]);
    var w' := RipeGains(w1, w2, i, m);
  }

  // A step is too early exactly if afterwards steps that are not can make money.
  lemma TooEarlyIff(w: World, a: Action)
    requires Enabled(w, a) && CrashInv(w) && Worth(w) < U64_LIMIT && RoomForAll(w)
    ensures TooEarly(w, a) <==> CanGain(Apply(w, a))
  {
    if CrashesTooEarly(w, a) {
      EarlyCrashGains(w, a.i);
    } else if EvictsTooEarly(w, a) {
      EarlyEvictionGains(w, a.i, a.k);
    } else {
      SafeCannotGain(w, a);
    }
  }

  lemma SafeCannotGain(w: World, a: Action)
    requires Enabled(w, a) && CrashInv(w) && Worth(w) < U64_LIMIT && !TooEarly(w, a)
    ensures !CanGain(Apply(w, a))
  {
    CrashStep(w, a);
    WorthNeverGrows(w, a);
    forall w' | Leads(Apply(w, a), w')
      ensures Worth(w') <= Worth(Apply(w, a))
    {
      var worlds, actions :| SafeRun(worlds, actions, Apply(w, a), w');
      NeverGains(worlds, actions, |actions|);
    }
  }

  // ---------- such a step can be reached ----------

  const PAYER: nat := 0
  const PAYEE: nat := 1
  const ID: u64 := 7

  function ThePayment(): Message {
    Payment("payer", "payee", 1, ID)
  }

  function Payer(balance: u64, saved: u64, pay: PayStage, log: seq<C.Line>): Device {
    Device(C.Client("payer", "f0", "b0", [2], [], balance, saved, log), pay, NotReceiving)
  }

  function Payee(balance: u64, saved: u64, seen: seq<u64>, receive: ReceiveStage): Device {
    Device(C.Client("payee", "f1", "b1", [2], seen, balance, saved, []), NotPaying, receive)
  }

  function Start(): World {
    World([Payer(1, 1, NotPaying, []), Payee(0, 0, [], NotReceiving)], [], [])
  }

  // The payment is sent; so many copies of it are in flight.
  function Sent(payee: Device, copies: nat, settled: bool): World {
    World(
      [Payer(0, 0, NotPaying, [C.Sent(ID, "payee", 1)]), payee],
      Repeat(ThePayment(), copies),
      [N.Entry(ID, PAYER, "payer", "payee", 1, settled)])
  }

  lemma Pays()
    ensures Leads(Start(), Sent(Payee(0, 0, [], NotReceiving), 1, false))
  {
    var w0 := Start();
    LeadsNowhere(w0);
    LeadsOn(w0, w0, Debit(PAYER, "payee", 1));
    var w1 := Apply(w0, Debit(PAYER, "payee", 1));
    LeadsOn(w0, w1, SaveDebit(PAYER));
    var w2 := Apply(w1, SaveDebit(PAYER));
    LeadsOn(w0, w2, SendPayment(PAYER, ID));
    var w3, sent := Apply(w2, SendPayment(PAYER, ID)), Sent(Payee(0, 0, [], NotReceiving), 1, false);
    assert [] + [C.Sent(ID, "payee", 1)] == [C.Sent(ID, "payee", 1)];
    assert w3.devices == sent.devices;
    assert w3.net == sent.net;
    assert w3.ledger == sent.ledger;
    assert Leads(w0, w3) && w3 == sent;
  }

  lemma CopyMade(payee: Device)
    ensures Enabled(Sent(payee, 1, false), Copy(0))
    ensures Apply(Sent(payee, 1, false), Copy(0)) == Sent(payee, 2, false)
  {
    assert Repeat(ThePayment(), 1) + [ThePayment()] == Repeat(ThePayment(), 2);
  }

  lemma RepeatTaken(m: Message, n: nat)
    requires n > 0
    ensures Taken(Repeat(m, n), 0) == Repeat(m, n - 1)
  {
  }

  lemma PaymentAccepted(balance: u64, copies: nat, settled: bool)
    requires copies > 0
    ensures var w := Sent(Payee(balance, balance, [], NotReceiving), copies, settled);
            && Enabled(w, Accept(PAYEE, 0))
            && Apply(w, Accept(PAYEE, 0))
            == Sent(Payee(balance, balance, [Key(Pay, ID)], Accepted(ThePayment())), copies - 1, settled)
  {
    var w := Sent(Payee(balance, balance, [], NotReceiving), copies, settled);
    var w' := Sent(Payee(balance, balance, [Key(Pay, ID)], Accepted(ThePayment())), copies - 1, settled);
    RepeatTaken(ThePayment(), copies);
    assert [] + [Key(Pay, ID)] == [Key(Pay, ID)];
    assert Apply(w, Accept(PAYEE, 0)).devices == w'.devices;
  }

  lemma PaymentCredited(balance: u64, seen: seq<u64>, copies: nat, settled: bool)
    requires balance + 1 < U64_LIMIT
    ensures var w := Sent(Payee(balance, balance, seen, Accepted(ThePayment())), copies, settled);
            && Enabled(w, Credit(PAYEE))
            && Apply(w, Credit(PAYEE))
            == Sent(Payee(balance + 1, balance, seen, Credited(ThePayment())), copies, settled)
  {
    var w := Sent(Payee(balance, balance, seen, Accepted(ThePayment())), copies, settled);
    var w' := Sent(Payee(balance + 1, balance, seen, Credited(ThePayment())), copies, settled);
    assert Apply(w, Credit(PAYEE)).devices == w'.devices;
  }

  lemma CreditIsSaved(balance: u64, saved: u64, seen: seq<u64>, copies: nat, settled: bool)
    ensures var w := Sent(Payee(balance, saved, seen, Credited(ThePayment())), copies, settled);
            && Enabled(w, SaveCredit(PAYEE))
            && Apply(w, SaveCredit(PAYEE))
            == Sent(Payee(balance, balance, seen, CreditSaved(ThePayment())), copies, true)
  {
    var w := Sent(Payee(balance, saved, seen, Credited(ThePayment())), copies, settled);
    var w' := Sent(Payee(balance, balance, seen, CreditSaved(ThePayment())), copies, true);
    assert Apply(w, SaveCredit(PAYEE)).devices == w'.devices;
    assert Apply(w, SaveCredit(PAYEE)).ledger == w'.ledger;
  }

  lemma CreditMade(w: World, balance: u64, copies: nat, settled: bool)
    requires copies > 0 && balance + 1 < U64_LIMIT
    requires Leads(w, Sent(Payee(balance, balance, [], NotReceiving), copies, settled))
    ensures Leads(w, Sent(Payee(balance + 1, balance + 1, [Key(Pay, ID)], CreditSaved(ThePayment())), copies - 1, true))
  {
    var seen := [Key(Pay, ID)];
    PaymentAccepted(balance, copies, settled);
    LeadsOn(w, Sent(Payee(balance, balance, [], NotReceiving), copies, settled), Accept(PAYEE, 0));
    PaymentCredited(balance, seen, copies - 1, settled);
    LeadsOn(w, Sent(Payee(balance, balance, seen, Accepted(ThePayment())), copies - 1, settled), Credit(PAYEE));
    CreditIsSaved(balance + 1, balance, seen, copies - 1, settled);
    LeadsOn(w, Sent(Payee(balance + 1, balance, seen, Credited(ThePayment())), copies - 1, settled), SaveCredit(PAYEE));
  }

  lemma CopyLeft()
    ensures Leads(Start(), Sent(Payee(1, 1, [Key(Pay, ID)], CreditSaved(ThePayment())), 1, true))
  {
    var unpaid := Payee(0, 0, [], NotReceiving);
    Pays();
    CopyMade(unpaid);
    LeadsOn(Start(), Sent(unpaid, 1, false), Copy(0));
    CreditMade(Start(), 0, 2, false);
  }

  // A safe run, a crash, and a safe run, after which the files hold more than at first.
  ghost predicate CrashMakesMoney(w0: World, w1: World, i: nat, w2: World) {
    && Opening(w0)
    && Leads(w0, w1)
    && Enabled(w1, Crash(i))
    && Leads(Apply(w1, Crash(i)), w2)
    && SavedTotal(w2.devices) > SavedTotal(w0.devices)
  }

  lemma OneEarlyCrashIsEnough()
    ensures exists w0, w1, i, w2 :: CrashMakesMoney(w0, w1, i, w2)
  {
    var w0 := Start();
    CopyLeft();
    var w1 := Sent(Payee(1, 1, [Key(Pay, ID)], CreditSaved(ThePayment())), 1, true);
    var restarted := Sent(Payee(1, 1, [], NotReceiving), 1, true);
    assert Apply(w1, Crash(PAYEE)) == restarted;
    LeadsNowhere(restarted);
    CreditMade(restarted, 1, 1, true);
    var w2 := Sent(Payee(2, 2, [Key(Pay, ID)], CreditSaved(ThePayment())), 0, true);
    StartIsOpening();
    FilesHold(w2);
    assert CrashMakesMoney(w0, w1, PAYEE, w2);
  }

  lemma StartIsOpening()
    ensures Opening(Start()) && SavedTotal(Start().devices) == 1
  {
    FilesHold(Start());
  }

  lemma FilesHold(w: World)
    requires |w.devices| == 2
    ensures SavedTotal(w.devices) == w.devices[PAYER].client.saved + w.devices[PAYEE].client.saved
    ensures Durable(w.devices) == SavedTotal(w.devices) + InHand(w.devices[PAYER]) + InHand(w.devices[PAYEE])
  {
    var rest := w.devices[1..];
    assert rest[0] == w.devices[1] && rest[1..] == [];
    assert SavedTotal(rest) == rest[0].client.saved + SavedTotal(rest[1..]);
    assert Durable(rest) == rest[0].client.saved + InHand(rest[0]) + Durable(rest[1..]);
  }
}
