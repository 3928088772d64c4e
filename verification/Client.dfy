// A client: names, dedup cache, wallet and its file, and the feed of events it displays.

module Clients {
  import opened Wrappers
  import opened Words
  import opened Messages
  import opened DedupKeys
  import opened PayArgs
  import W = Wallet
  import S = SeenIds
  import Identity

  // What a client displays: its own texts and payments, texts and payments received, and
  // payments confirmed. Ids are kept beside what is shown so that events can be told apart.
  datatype Line =
    | Said(msgId: u64, text: string)
    | Shown(msgId: u64, srcId: string, text: string)
    | Sent(paymentId: u64, dstId: string, amount: u64)
    | Received(paymentId: u64, srcId: string, amount: u64)
    | Confirmed(paymentId: u64, byId: string)

  datatype LineKind = SaidLine | ShownLine | SentLine | ReceivedLine | ConfirmedLine

  function KindOf(line: Line): LineKind {
    match line
    case Said(_, _) => SaidLine
    case Shown(_, _, _) => ShownLine
    case Sent(_, _, _) => SentLine
    case Received(_, _, _) => ReceivedLine
    case Confirmed(_, _) => ConfirmedLine
  }

  function IdOf(line: Line): u64 {
    match line
    case Said(id, _) => id
    case Shown(id, _, _) => id
    case Sent(id, _, _) => id
    case Received(id, _, _) => id
    case Confirmed(id, _) => id
  }

  function Hits(line: Line, kind: LineKind, id: u64): nat {
    if KindOf(line) == kind && IdOf(line) == id then 1 else 0
  }

  // How often an event of this kind was displayed for this id.
  function Count(log: seq<Line>, kind: LineKind, id: u64): nat {
    if log == [] then 0 else Count(log[..|log| - 1], kind, id) + Hits(log[|log| - 1], kind, id)
  }

  lemma CountPush(log: seq<Line>, line: Line, kind: LineKind, id: u64)
    ensures Count(log + [line], kind, id) == Count(log, kind, id) + Hits(line, kind, id)
  {
    assert (log + [line])[..|log + [line]| - 1] == log;
  }

  // A client as a value; log is everything ever displayed and saved is the wallet file.
  datatype Client = Client(
    peerId: string,
    fp: string,
    btc: string,
    relays: seq<Addr>,
    seen: seq<u64>,
    balance: u64,
    saved: u64,
    log: seq<Line>)

  datatype Reaction = Reaction(client: Client, sends: seq<Send>)

  const FEED_LIMIT: nat := 500

  predicate Owns(c: Client, name: string) {
    name == c.peerId || name == c.fp || name == c.btc
  }

  function Handle(scheme: Identity.Scheme, c: Client, m: Message): Reaction {
    match m
    case Classic(srcId, txt, _, msgId, _, _, _) =>
      if Key(Text, msgId) in c.seen then Reaction(c, [])
      else
        var c' := c.(seen := S.Admit(c.seen, CACHE_SIZE, Key(Text, msgId)));
        Reaction(if Authentic(scheme, m) then c'.(log := c.log + [Shown(msgId, srcId, txt)]) else c', [])
    case Payment(srcId, dstId, amount, paymentId) =>
      if !Owns(c, dstId) || Key(Pay, paymentId) in c.seen then Reaction(c, [])
      else
        var balance := W.WrappingAdd(c.balance, amount);
        Reaction(
          c.(seen := S.Admit(c.seen, CACHE_SIZE, Key(Pay, paymentId)), balance := balance, saved := balance,
             log := c.log + [Received(paymentId, srcId, amount)]),
          SendAll(c.relays, PaymentAck(paymentId, c.peerId, srcId)))
    case PaymentAck(paymentId, fromId, toId) =>
      if !Owns(c, toId) || Key(Ack, paymentId) in c.seen then Reaction(c, [])
      else
        Reaction(
          c.(seen := S.Admit(c.seen, CACHE_SIZE, Key(Ack, paymentId)), log := c.log + [Confirmed(paymentId, fromId)]),
          [])
    case _ => Reaction(c, [])
  }

  function Say(c: Client, m: Message): Reaction
    requires m.Classic?
  {
    Reaction(c.(log := c.log + [Said(m.msgId, m.txt)]), SendAll(c.relays, m))
  }

  function MakePayment(c: Client, dst: string, amount: u64, paymentId: u64): Reaction {
    if c.balance < amount then Reaction(c, [])
    else
      var balance := c.balance - amount;
      Reaction(
        c.(balance := balance, saved := balance, log := c.log + [Sent(paymentId, dst, amount)]),
        SendAll(c.relays, Payment(c.peerId, dst, amount, paymentId)))
  }

  function Registration(c: Client, now: u64): seq<Send> {
    SendAll(c.relays, Register(c.peerId, now, Some(c.btc)))
  }

  // ---------- what handling a message means ----------

  // A payment that is new is credited, saved, displayed and acknowledged exactly if it is made out
  // to one of the client's three names; anything else changes nothing.
  lemma PaymentReceivedIff(scheme: Identity.Scheme, c: Client, srcId: string, dstId: string, amount: u64, id: u64)
    ensures var r := Handle(scheme, c, Payment(srcId, dstId, amount, id));
            if (dstId == c.peerId || dstId == c.fp || dstId == c.btc) && Key(Pay, id) !in c.seen
            then
              && r.client.balance == (c.balance + amount) % U64_LIMIT
              && r.client.saved == r.client.balance
              && r.client.log == c.log + [Received(id, srcId, amount)]
              && r.client.seen == S.Admit(c.seen, CACHE_SIZE, Key(Pay, id))
              && r.client == c.(balance := r.client.balance, saved := r.client.saved, log := r.client.log,
                                seen := r.client.seen)
              && |r.sends| == |c.relays|
              && forall k :: 0 <= k < |r.sends| ==> r.sends[k] == Send(c.relays[k], PaymentAck(id, c.peerId, srcId))
            else r == Reaction(c, [])
  {
  }

  // An acknowledgement that is new is displayed exactly if it is for one of the three names.
  lemma AckReceivedIff(scheme: Identity.Scheme, c: Client, id: u64, fromId: string, toId: string)
    ensures var r := Handle(scheme, c, PaymentAck(id, fromId, toId));
            && r.sends == []
            && if (toId == c.peerId || toId == c.fp || toId == c.btc) && Key(Ack, id) !in c.seen
               then r.client == c.(log := c.log + [Confirmed(id, fromId)],
                                   seen := S.Admit(c.seen, CACHE_SIZE, Key(Ack, id)))
               else r.client == c
  {
  }

  // A text is displayed exactly if its id is new and its signature good. New ids are remembered,
  // however the text turns out.
  lemma TextShownIff(scheme: Identity.Scheme, c: Client, m: Message)
    requires m.Classic?
    ensures var r := Handle(scheme, c, m);
            && r.sends == []
            && r.client == c.(log := r.client.log, seen := S.Admit(c.seen, CACHE_SIZE, m.msgId))
            && r.client.log
            == if && m.msgId !in c.seen
                  && Identity.Verify(scheme, m.publicKey, m.srcId, m.txt, m.time, m.msgId, m.signature)
               then c.log + [Shown(m.msgId, m.srcId, m.txt)] else c.log
  {
  }

  // ---------- the client as the program runs it ----------

  class ClientNode {
    const peerId: string
    const fp: string
    const btc: string
    const relays: seq<Addr>
    const seen: S.SeenIds
    const wallet: W.Wallet
    var walletFile: u64
    var messages: seq<Line>
    ghost var log: seq<Line>

    // The feed keeps the most recent events only.
    ghost predicate Valid()
      reads this, seen
    {
      && seen.Valid()
      && seen.max == CACHE_SIZE
      && messages == S.LastN(log, FEED_LIMIT)
    }

    ghost function State(): Client
      reads this, seen, wallet
    {
      Client(peerId, fp, btc, relays, seen.queue, wallet.balance, walletFile, log)
    }

    constructor (peerId: string, fp: string, btc: string, relays: seq<Addr>, balance: u64)
      ensures Valid() && fresh(seen) && fresh(wallet)
      ensures State() == Client(peerId, fp, btc, relays, [], balance, balance, [])
    {
      this.peerId, this.fp, this.btc, this.relays := peerId, fp, btc, relays;
      seen := new S.SeenIds(CACHE_SIZE);
      wallet := new W.Wallet(balance, btc);
      walletFile, messages, log := balance, [], [];
    }

    method PushMessage(line: Line)
      requires messages == S.LastN(log, FEED_LIMIT)
      modifies this`messages, this`log
      ensures log == old(log) + [line] && messages == S.LastN(log, FEED_LIMIT)
      ensures |messages| == (if |log| < 500 then |log| else 500) && messages == log[|log| - |messages|..]
    {
      log := log + [line];
      messages := messages + [line];
      if |messages| > FEED_LIMIT {
        var overflow := |messages| - FEED_LIMIT;
        messages := messages[overflow..];
      }
    }

    method SaveWallet()
      modifies this`walletFile
      ensures walletFile == wallet.balance
    {
      walletFile := wallet.balance;
    }

    method SendToRelays(m: Message) returns (sends: seq<Send>)
      ensures sends == SendAll(relays, m)
    {
      sends := [];
      for i := 0 to |relays|
        invariant sends == SendAll(relays[..i], m)
      {
        sends := sends + [Send(relays[i], m)];
      }
      assert relays[..|relays|] == relays;
    }

    // At the start and with every heartbeat.
    method RegisterWithRelays(now: u64) returns (sends: seq<Send>)
      ensures sends == Registration(State(), now)
    {
      sends := SendToRelays(Register(peerId, now, Some(btc)));
    }

    method HandleMsg(scheme: Identity.Scheme, m: Message) returns (sends: seq<Send>)
      requires Valid()
      modifies this, seen, wallet
      ensures Valid()
      ensures Reaction(State(), sends) == Handle(scheme, old(State()), m)
    {
      sends := [];
      match m {
        case Classic(_, _, _, _, _, _, _) =>
          HandleClassic(scheme, m);
        case Payment(_, _, _, _) =>
          sends := HandlePayment(scheme, m);
        case PaymentAck(_, _, _) =>
          HandleAck(scheme, m);
        case _ =>
      }
    }

    method HandleClassic(scheme: Identity.Scheme, m: Message)
      requires Valid() && m.Classic?
      modifies this, seen
      ensures Valid()
      ensures Reaction(State(), []) == Handle(scheme, old(State()), m)
    {
      var isNew := seen.IsNew(m.msgId);
      if !isNew {
        return;
      }
      if !Authentic(scheme, m) {
        return;
      }
      PushMessage(Shown(m.msgId, m.srcId, m.txt));
    }

    method HandleAck(ghost scheme: Identity.Scheme, m: Message)
      requires Valid() && m.PaymentAck?
      modifies this, seen
      ensures Valid()
      ensures Reaction(State(), []) == Handle(scheme, old(State()), m)
    {
      if m.toId != peerId && m.toId != fp && m.toId != btc {
        return;
      }
      var isNew := seen.IsNew(Key(Ack, m.paymentId));
      if !isNew {
        return;
      }
      PushMessage(Confirmed(m.paymentId, m.fromId));
    }

    method HandlePayment(ghost scheme: Identity.Scheme, m: Message) returns (sends: seq<Send>)
      requires Valid() && m.Payment?
      modifies this, seen, wallet
      ensures Valid()
      ensures Reaction(State(), sends) == Handle(scheme, old(State()), m)
    {
      if m.dstId != peerId && m.dstId != fp && m.dstId != btc {
        return [];
      }
      var isNew := seen.IsNew(Key(Pay, m.paymentId));
      if !isNew {
        return [];
      }
      wallet.Credit(m.amount);
      SaveWallet();
      PushMessage(Received(m.paymentId, m.srcId, m.amount));
      sends := SendToRelays(PaymentAck(m.paymentId, peerId, m.srcId));
    }

    method SendMsg(text: string, time: u64, msgId: u64, publicKey: seq<byte>, signature: seq<byte>)
      returns (sends: seq<Send>)
      requires Valid()
      modifies this
      ensures Valid()
      ensures Reaction(State(), sends)
           == Say(old(State()), Classic(peerId, text, time, msgId, INITIAL_TTL, publicKey, signature))
      ensures |sends| == |relays|
      ensures forall k :: 0 <= k < |sends| ==>
                sends[k] == Send(relays[k], Classic(peerId, text, time, msgId, 16, publicKey, signature))
    {
      sends := SendToRelays(Classic(peerId, text, time, msgId, INITIAL_TTL, publicKey, signature));
      PushMessage(Said(msgId, text));
    }

    // A payment command: nothing happens unless it parses and the balance covers it.
    method DoPay(args: string, paymentId: u64) returns (sends: seq<Send>)
      requires Valid()
      modifies this, wallet
      ensures Valid()
      ensures Reaction(State(), sends) ==
              match ParsePay(args)
              case Some(order) => MakePayment(old(State()), order.dst, order.amount, paymentId)
              case None => Reaction(old(State()), [])
    {
      var parsed := ParsePay(args);
      if parsed.None? {
        return [];
      }
      var dst, amount := parsed.value.dst, parsed.value.amount;
      var ok := wallet.Debit(amount);
      if !ok {
        return [];
      }
      SaveWallet();
      sends := SendToRelays(Payment(peerId, dst, amount, paymentId));
      PushMessage(Sent(paymentId, dst, amount));
    }
  }
}
