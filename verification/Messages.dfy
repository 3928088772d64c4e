// The messages relays and clients exchange over UDP, and the addressed sends a node makes
// while it handles one.

module Messages {
  import opened Wrappers
  import opened Words
  import Identity

  // A socket address; 0.0.0.0:0 stands for no one.
  type Addr = int
  const NOWHERE: Addr := -1

  const INITIAL_TTL: nat := 16
  const CACHE_SIZE: nat := 10_000

  datatype Message =
    | Register(srcId: string, time: u64, btcAddress: Option<string>)
    | Classic(srcId: string, txt: string, time: u64, msgId: u64, ttl: byte, publicKey: seq<byte>, signature: seq<byte>)
    | Payment(srcId: string, dstId: string, amount: u64, paymentId: u64)
    | PaymentAck(paymentId: u64, fromId: string, toId: string)
    | Connect(srcAddr: Addr, srcId: string, dstId: string, time: u64)
    | AskForAddr(srcAddr: Addr, srcId: string, peerId: string, time: u64)
    | PeerInfo(peerAddr: Addr, peerId: string)

  datatype Send = Send(to: Addr, msg: Message)

  predicate Authentic(scheme: Identity.Scheme, m: Message)
    requires m.Classic?
  {
    Identity.Verify(scheme, m.publicKey, m.srcId, m.txt, m.time, m.msgId, m.signature)
  }

  // The same message to each address of a list, in order.
  function SendAll(targets: seq<Addr>, m: Message): (sends: seq<Send>)
    ensures |sends| == |targets|
    ensures forall i :: 0 <= i < |targets| ==> sends[i] == Send(targets[i], m)
  {
    seq(|targets|, i requires 0 <= i < |targets| => Send(targets[i], m))
  }

  // One of these sends goes to this address.
  predicate SendsTo(sends: seq<Send>, a: Addr) {
    exists k :: 0 <= k < |sends| && sends[k].to == a
  }

  lemma SendsToTargets(targets: seq<Addr>, m: Message, a: Addr)
    ensures SendsTo(SendAll(targets, m), a) <==> a in targets
  {
    if a in targets {
      var k :| 0 <= k < |targets| && targets[k] == a;
      assert SendAll(targets, m)[k].to == a;
    }
  }
}
