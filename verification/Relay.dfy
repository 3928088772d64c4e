// A relay: the table of registered peers, the dedup cache, and what it forwards.

module Relays {
  import opened Wrappers
  import opened Words
  import opened Messages
  import S = SeenIds
  import Identity

  datatype PeerEntry = PeerEntry(peerId: string, lastSeen: u64, btc: Option<string>)
  type Peers = map<Addr, PeerEntry>

  // The part of a relay that message handling reads and changes, as a value.
  datatype Relay = Relay(myId: string, peerRelays: seq<Addr>, peers: Peers, seen: seq<u64>)

  datatype Reaction = Reaction(relay: Relay, sends: seq<Send>)

  const PEER_TIMEOUT: u64 := 60

  function RelayId(r: Relay): string {
    "relay:" + r.myId
  }

  // The order in which iterating over a hash map visits its keys: any order, each key once.
  ghost predicate IsOrder(order: seq<Addr>, keys: set<Addr>) {
    && S.NoRepeats(order)
    && (forall i :: 0 <= i < |order| ==> order[i] in keys)
    && forall a :: a in keys ==> a in order
  }

  lemma {:induction false} OrderExists(keys: set<Addr>) returns (order: seq<Addr>)
    ensures IsOrder(order, keys)
  {
    if a :| a in keys {
      var rest := OrderExists(keys - {a});
      order := [a] + rest;
      assert forall i :: 0 <= i < |rest| ==> order[i + 1] == rest[i];
      assert order[0] == a;
    } else {
      order := [];
    }
  }

  predicate Matches(e: PeerEntry, id: string) {
    e.peerId == id || e.btc == Some(id)
  }

  // The first peer, in iteration order, registered under this peer id or BTC address.
  function FindPeer(peers: Peers, order: seq<Addr>, id: string): (r: Option<Addr>)
    requires forall i :: 0 <= i < |order| ==> order[i] in peers
    ensures r.Some? ==> r.value in peers && r.value in order && Matches(peers[r.value], id)
    ensures r.None? ==> forall i :: 0 <= i < |order| ==> !Matches(peers[order[i]], id)
  {
    if order == [] then None
    else if Matches(peers[order[0]], id) then Some(order[0])
    else FindPeer(peers, order[1..], id)
  }

  // Everyone but the sender.
  function Targets(order: seq<Addr>, exclude: Addr): (targets: seq<Addr>)
    ensures |targets| <= |order|
    ensures forall a :: a in targets <==> a in order && a != exclude
  {
    if order == [] then []
    else (if order[0] != exclude then [order[0]] else []) + Targets(order[1..], exclude)
  }

  lemma {:induction false} TargetsAppend(order: seq<Addr>, a: Addr, exclude: Addr)
    ensures Targets(order + [a], exclude) == Targets(order, exclude) + if a != exclude then [a] else []
  {
    if order == [] {
      assert order + [a] == [a];
    } else {
      assert (order + [a])[0] == order[0] && (order + [a])[1..] == order[1..] + [a];
      TargetsAppend(order[1..], a, exclude);
    }
  }

  // The peer found is the first one registered under the name, as peer id or as BTC address, and
  // none is found only if no peer is.
  lemma FindPeerFinds(peers: Peers, order: seq<Addr>, id: string)
    requires IsOrder(order, peers.Keys)
    ensures FindPeer(peers, order, id).None? <==> forall a :: a in peers ==> !Matches(peers[a], id)
    ensures forall a :: a in peers ==> (Matches(peers[a], id) <==> peers[a].peerId == id || peers[a].btc == Some(id))
    ensures FindPeer(peers, order, id).Some? ==>
              exists k :: 0 <= k < |order| && FindPeer(peers, order, id).value == order[k]
                          && forall i :: 0 <= i < k ==> !Matches(peers[order[i]], id)
  {
    match FindPeer(peers, order, id)
    case Some(found) =>
      assert found in peers;
      var k := FirstMatch(peers, order, id);
    case None =>
      forall a | a in peers
        ensures !Matches(peers[a], id)
      {
        assert a in peers.Keys && a in order;
        var i :| 0 <= i < |order| && order[i] == a;
      }
  }

  lemma {:induction false} FirstMatch(peers: Peers, order: seq<Addr>, id: string) returns (k: nat)
    requires (forall i :: 0 <= i < |order| ==> order[i] in peers) && FindPeer(peers, order, id).Some?
    ensures k < |order| && FindPeer(peers, order, id).value == order[k]
    ensures forall i :: 0 <= i < k ==> !Matches(peers[order[i]], id)
  {
    if Matches(peers[order[0]], id) {
      k := 0;
    } else {
      k := FirstMatch(peers, order[1..], id);
      k := k + 1;
    }
  }

  function Route(r: Relay, order: seq<Addr>, sender: Addr, dstId: string, m: Message): seq<Send>
    requires forall i :: 0 <= i < |order| ==> order[i] in r.peers
  {
    match FindPeer(r.peers, order, dstId)
    case Some(addr) => [Send(addr, m)]
    case None => SendAll(Targets(order, sender), m)
  }

  // The first peer, in iteration order, registered under this peer id.
  function FindId(peers: Peers, order: seq<Addr>, id: string): (r: Option<Addr>)
    requires forall i :: 0 <= i < |order| ==> order[i] in peers
    ensures r.Some? ==> r.value in peers && peers[r.value].peerId == id
    ensures r.None? ==> forall i :: 0 <= i < |order| ==> peers[order[i]].peerId != id
  {
    if order == [] then None
    else if peers[order[0]].peerId == id then Some(order[0])
    else FindId(peers, order[1..], id)
  }

  // Asked for the address of a peer id, a relay tells it, or keeps silent.
  function Answer(r: Relay, order: seq<Addr>, asker: Addr, id: string): seq<Send>
    requires forall i :: 0 <= i < |order| ==> order[i] in r.peers
  {
    match FindId(r.peers, order, id)
    case Some(addr) => [Send(asker, PeerInfo(addr, id))]
    case None => []
  }

  // It keeps silent exactly if no peer has that id, and never tells a wrong address; it does
  // not answer to BTC addresses.
  lemma AnsweredIff(r: Relay, order: seq<Addr>, asker: Addr, id: string)
    requires IsOrder(order, r.peers.Keys)
    ensures var sends := Answer(r, order, asker, id);
            && |sends| <= 1
            && (sends == [] <==> forall a :: a in r.peers ==> r.peers[a].peerId != id)
            && forall k :: 0 <= k < |sends| ==>
                 && sends[k].to == asker
                 && sends[k].msg.PeerInfo?
                 && sends[k].msg.peerId == id
                 && sends[k].msg.peerAddr in r.peers
                 && r.peers[sends[k].msg.peerAddr].peerId == id
  {
    if FindId(r.peers, order, id).None? {
      forall a | a in r.peers
        ensures r.peers[a].peerId != id
      {
        assert a in r.peers.Keys && a in order;
        var i :| 0 <= i < |order| && order[i] == a;
      }
    }
  }

  // Registering, again, replaces the entry of an address.
  function Enrol(peers: Peers, sender: Addr, srcId: string, time: u64, btc: Option<string>): Peers {
    peers[sender := PeerEntry(srcId, time, btc)]
  }

  ghost function Handle(scheme: Identity.Scheme, r: Relay, order: seq<Addr>, sender: Addr, m: Message): Reaction
    requires IsOrder(order, r.peers.Keys)
  {
    match m
    case Register(srcId, time, btc) =>
      Reaction(r.(peers := Enrol(r.peers, sender, srcId, time, btc)), [])
    case Classic(_, _, _, msgId, ttl, _, _) =>
      if msgId in r.seen then Reaction(r, [])
      else
        var r' := r.(seen := S.Admit(r.seen, CACHE_SIZE, msgId));
        if Authentic(scheme, m) && ttl > 0
        then Reaction(r', SendAll(Targets(order, sender), m.(ttl := ttl - 1)))
        else Reaction(r', [])
    case Payment(_, dstId, _, _) => Reaction(r, Route(r, order, sender, dstId, m))
    case PaymentAck(_, _, toId) => Reaction(r, Route(r, order, sender, toId, m))
    case AskForAddr(srcAddr, _, peerId, _) => Reaction(r, Answer(r, order, srcAddr, peerId))
    case Connect(_, _, _, _) => Reaction(r, [])
    case PeerInfo(_, _) => Reaction(r, [])
  }

  // What the operator types at a relay: marked as seen, sent to every peer with the full ttl.
  ghost function Say(r: Relay, order: seq<Addr>, m: Message): Reaction
    requires IsOrder(order, r.peers.Keys) && m.Classic?
  {
    Reaction(r.(seen := S.Admit(r.seen, CACHE_SIZE, m.msgId)), SendAll(Targets(order, NOWHERE), m))
  }

  // A registration replaces whatever is known of the address it comes from, and nothing else.
  lemma RegisterReplaces(scheme: Identity.Scheme, r: Relay, order: seq<Addr>, sender: Addr, srcId: string, time: u64,
                         btc: Option<string>)
    requires IsOrder(order, r.peers.Keys)
    ensures var reaction := Handle(scheme, r, order, sender, Register(srcId, time, btc));
            && reaction.sends == []
            && reaction.relay == r.(peers := reaction.relay.peers)
            && reaction.relay.peers.Keys == r.peers.Keys + {sender}
            && reaction.relay.peers[sender] == PeerEntry(srcId, time, btc)
            && forall a :: a in r.peers && a != sender ==> reaction.relay.peers[a] == r.peers[a]
  {
  }

  // A text is passed on if its id is new, its signature is good and ttl is left.
  predicate PassesOn(scheme: Identity.Scheme, r: Relay, m: Message)
    requires m.Classic?
  {
    && m.msgId !in r.seen
    && Identity.Verify(scheme, m.publicKey, m.srcId, m.txt, m.time, m.msgId, m.signature)
    && m.ttl > 0
  }

  // Exactly such a text is forwarded: one copy to each peer but the sender, alike but for a ttl of
  // one less. New ids are remembered, however the text turns out.
  lemma TextForwardedIff(scheme: Identity.Scheme, r: Relay, order: seq<Addr>, sender: Addr, m: Message)
    requires IsOrder(order, r.peers.Keys) && m.Classic?
    ensures var reaction := Handle(scheme, r, order, sender, m);
            && reaction.relay == r.(seen := S.Admit(r.seen, CACHE_SIZE, m.msgId))
            && (forall a :: SendsTo(reaction.sends, a) <==> PassesOn(scheme, r, m) && a in r.peers && a != sender)
            && (forall j, k :: 0 <= j < k < |reaction.sends| ==> reaction.sends[j].to != reaction.sends[k].to)
            && forall k :: 0 <= k < |reaction.sends| ==>
                 reaction.sends[k].msg
                 == Classic(m.srcId, m.txt, m.time, m.msgId, m.ttl - 1, m.publicKey, m.signature)
  {
    TargetsDistinct(order, sender);
    var sends := Handle(scheme, r, order, sender, m).sends;
    assert sends == if PassesOn(scheme, r, m) then SendAll(Targets(order, sender), m.(ttl := m.ttl - 1)) else [];
    forall a
      ensures SendsTo(sends, a) <==> PassesOn(scheme, r, m) && a in r.peers && a != sender
    {
      if PassesOn(scheme, r, m) {
        BroadcastReaches(r, order, sender, m.(ttl := m.ttl - 1), a);
      }
    }
  }

  lemma BroadcastReaches(r: Relay, order: seq<Addr>, sender: Addr, m: Message, a: Addr)
    requires IsOrder(order, r.peers.Keys)
    ensures SendsTo(SendAll(Targets(order, sender), m), a) <==> a in r.peers && a != sender
  {
    SendsToTargets(Targets(order, sender), m, a);
    assert a in r.peers <==> a in r.peers.Keys;
  }

  lemma {:induction false} TargetsDistinct(order: seq<Addr>, exclude: Addr)
    requires S.NoRepeats(order)
    ensures S.NoRepeats(Targets(order, exclude))
  {
    if order != [] {
      var rest := Targets(order[1..], exclude);
      assert forall i :: 0 <= i < |order[1..]| ==> order[1..][i] == order[i + 1];
      TargetsDistinct(order[1..], exclude);
      assert order[0] !in rest;
      assert forall i :: 0 <= i < |rest| ==> rest[i] in rest;
    }
  }

  // Someone is registered here under this name, as peer id or BTC address.
  predicate Registered(peers: Peers, a: Addr, name: string) {
    a in peers && (peers[a].peerId == name || peers[a].btc == Some(name))
  }

  // A payment or acknowledgement goes, as it is, to one peer registered under its name, or, if
  // there is none, to every peer but the sender; the relay keeps no record of it.
  lemma RoutedUnchanged(scheme: Identity.Scheme, r: Relay, order: seq<Addr>, sender: Addr, m: Message)
    requires IsOrder(order, r.peers.Keys) && (m.Payment? || m.PaymentAck?)
    ensures var reaction, name := Handle(scheme, r, order, sender, m), if m.Payment? then m.dstId else m.toId;
            && reaction.relay == r
            && (forall k :: 0 <= k < |reaction.sends| ==> reaction.sends[k].msg == m)
            && if exists a :: Registered(r.peers, a, name)
               then |reaction.sends| == 1 && Registered(r.peers, reaction.sends[0].to, name)
               else forall a :: SendsTo(reaction.sends, a) <==> a in r.peers && a != sender
  {
    FoundIsRegistered(r, order, if m.Payment? then m.dstId else m.toId);
    forall a
      ensures SendsTo(SendAll(Targets(order, sender), m), a) <==> a in r.peers && a != sender
    {
      BroadcastReaches(r, order, sender, m, a);
    }
  }

  lemma FoundIsRegistered(r: Relay, order: seq<Addr>, name: string)
    requires IsOrder(order, r.peers.Keys)
    ensures match FindPeer(r.peers, order, name)
            case Some(found) => Registered(r.peers, found, name)
            case None => forall a :: !Registered(r.peers, a, name)
  {
    FindPeerFinds(r.peers, order, name);
    assert forall a :: a in r.peers ==> (Matches(r.peers[a], name) <==> Registered(r.peers, a, name));
  }

  function Registration(r: Relay, now: u64): seq<Send> {
    SendAll(r.peerRelays, Register(RelayId(r), now, None))
  }

  // The age of an entry, in the u64 arithmetic of the release build.
  function WrappingSub(a: u64, b: u64): u64 {
    (a - b) % U64_LIMIT
  }

  predicate IsRecent(e: PeerEntry, now: u64) {
    WrappingSub(now, e.lastSeen) < PEER_TIMEOUT
  }

  function Retained(peers: Peers, now: u64): Peers {
    map a | a in peers && IsRecent(peers[a], now) :: peers[a]
  }

  // Exactly the entries seen during the last minute stay, unchanged; an entry stamped with a
  // later time than the relay's own clock counts as very old.
  lemma RetainedExactly(peers: Peers, now: u64, a: Addr)
    ensures a in Retained(peers, now)
       <==> && a in peers
            && (|| peers[a].lastSeen <= now < peers[a].lastSeen + PEER_TIMEOUT
                || now + U64_LIMIT < peers[a].lastSeen + PEER_TIMEOUT)
    ensures a in Retained(peers, now) ==> Retained(peers, now)[a] == peers[a]
  {
    if a in peers {
      var age := now - peers[a].lastSeen;
      assert age % U64_LIMIT == if age >= 0 then age else age + U64_LIMIT;
    }
  }

  // ---------- the relay as the program runs it ----------

  class RelayNode {
    const myId: string
    const peerRelays: seq<Addr>
    var peers: Peers
    const seen: S.SeenIds

    ghost predicate Valid()
      reads this, seen
    {
      seen.Valid() && seen.max == CACHE_SIZE
    }

    ghost function State(): Relay
      reads this, seen
    {
      Relay(myId, peerRelays, peers, seen.queue)
    }

    constructor (myId: string, peerRelays: seq<Addr>)
      ensures Valid() && fresh(seen)
      ensures State() == Relay(myId, peerRelays, map[], [])
    {
      this.myId, this.peerRelays := myId, peerRelays;
      peers := map[];
      seen := new S.SeenIds(CACHE_SIZE);
    }

    method Find(order: seq<Addr>, id: string) returns (found: Option<Addr>)
      requires IsOrder(order, peers.Keys)
      ensures found == FindPeer(peers, order, id)
    {
      var i := 0;
      while i < |order|
        invariant 0 <= i <= |order|
        invariant FindPeer(peers, order, id) == FindPeer(peers, order[i..], id)
      {
        assert order[i..][1..] == order[i + 1..];
        var e := peers[order[i]];
        if e.peerId == id {
          return Some(order[i]);
        }
        match e.btc {
          case Some(btcAddress) =>
            if btcAddress == id {
              return Some(order[i]);
            }
          case None =>
        }
        i := i + 1;
      }
      return None;
    }

    // One copy to every peer except the excluded address.
    method Broadcast(order: seq<Addr>, exclude: Addr, m: Message) returns (sends: seq<Send>)
      requires IsOrder(order, peers.Keys)
      ensures sends == SendAll(Targets(order, exclude), m)
    {
      sends := [];
      var i := 0;
      while i < |order|
        invariant 0 <= i <= |order|
        invariant sends == SendAll(Targets(order[..i], exclude), m)
      {
        assert order[..i + 1] == order[..i] + [order[i]];
        TargetsAppend(order[..i], order[i], exclude);
        if order[i] != exclude {
          sends := sends + [Send(order[i], m)];
        }
        i := i + 1;
      }
      assert order[..i] == order;
    }

    method HandleMessage(scheme: Identity.Scheme, m: Message, sender: Addr, order: seq<Addr>) returns (sends: seq<Send>)
      requires Valid() && IsOrder(order, peers.Keys)
      modifies this, seen
      ensures Valid()
      ensures Reaction(State(), sends) == Handle(scheme, old(State()), order, sender, m)
    {
      sends := [];
      match m {
        case Register(srcId, time, btc) =>
          peers := peers[sender := PeerEntry(srcId, time, btc)];
        case Classic(_, _, _, _, _, _, _) =>
          sends := HandleClassic(scheme, m, sender, order);
        case Payment(_, dstId, _, _) =>
          sends := SendTowards(order, sender, dstId, m);
        case PaymentAck(_, _, toId) =>
          sends := SendTowards(order, sender, toId, m);
        case AskForAddr(srcAddr, _, peerId, _) =>
          sends := Reply(order, srcAddr, peerId);
        case _ =>
      }
    }

    method HandleClassic(scheme: Identity.Scheme, m: Message, sender: Addr, order: seq<Addr>) returns (sends: seq<Send>)
      requires Valid() && m.Classic? && IsOrder(order, peers.Keys)
      modifies seen
      ensures Valid()
      ensures Reaction(State(), sends) == Handle(scheme, old(State()), order, sender, m)
    {
      var isNew := seen.IsNew(m.msgId);
      if !isNew {
        return [];
      }
      if !Authentic(scheme, m) {
        return [];
      }
      if m.ttl > 0 {
        sends := Broadcast(order, sender, m.(ttl := m.ttl - 1));
      } else {
        sends := [];
      }
    }

    method SendTowards(order: seq<Addr>, sender: Addr, dstId: string, m: Message) returns (sends: seq<Send>)
      requires IsOrder(order, peers.Keys)
      ensures sends == Route(State(), order, sender, dstId, m)
    {
      var target := Find(order, dstId);
      match target {
        case Some(addr) => sends := [Send(addr, m)];
        case None => sends := Broadcast(order, sender, m);
      }
    }

    method Reply(order: seq<Addr>, asker: Addr, id: string) returns (sends: seq<Send>)
      requires IsOrder(order, peers.Keys)
      ensures sends == Answer(State(), order, asker, id)
    {
      var i := 0;
      while i < |order|
        invariant 0 <= i <= |order|
        invariant FindId(peers, order, id) == FindId(peers, order[i..], id)
      {
        assert order[i..][1..] == order[i + 1..];
        if peers[order[i]].peerId == id {
          return [Send(asker, PeerInfo(order[i], id))];
        }
        i := i + 1;
      }
      return [];
    }

    method SayLine(m: Message, order: seq<Addr>) returns (sends: seq<Send>)
      requires Valid() && m.Classic? && IsOrder(order, peers.Keys)
      modifies seen
      ensures Valid()
      ensures Reaction(State(), sends) == Say(old(State()), order, m)
    {
      var _ := seen.IsNew(m.msgId);
      sends := Broadcast(order, NOWHERE, m);
    }

    // At the start and with every heartbeat.
    method RegisterWithPeers(now: u64) returns (sends: seq<Send>)
      ensures sends == Registration(State(), now)
    {
      sends := [];
      for i := 0 to |peerRelays|
        invariant sends == SendAll(peerRelays[..i], Register(RelayId(State()), now, None))
      {
        sends := sends + [Send(peerRelays[i], Register("relay:" + myId, now, None))];
      }
      assert peerRelays[..|peerRelays|] == peerRelays;
    }

    // The periodic sweep; `order` is the order in which the table is visited.
    method Cleanup(now: u64, order: seq<Addr>)
      requires IsOrder(order, peers.Keys)
      modifies this`peers
      ensures State() == old(State()).(peers := Retained(old(peers), now))
    {
      ghost var before := peers;
      var i := 0;
      while i < |order|
        invariant 0 <= i <= |order|
        invariant peers == map a | a in before && (a !in order[..i] || IsRecent(before[a], now)) :: before[a]
      {
        var a := order[i];
        assert order[..i + 1] == order[..i] + [a];
        assert a !in order[..i];
        if !((now - peers[a].lastSeen) % U64_LIMIT < PEER_TIMEOUT) {
          peers := peers - {a};
        }
        i := i + 1;
      }
      assert order[..i] == order;
      assert forall a :: a in before ==> a in before.Keys && a in order;
      assert peers == Retained(before, now);
    }
  }
}
