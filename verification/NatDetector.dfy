// Detecting the type of NAT in front of a host: the exchanges with one STUN server, the
// vote over many, and an operational model of the NATs to judge both by.

module NatDetector {
  import opened Wrappers

  datatype SocketAddr = SocketAddr(ip: nat, port: nat)

  const EMPTY_ADDRESS: SocketAddr := SocketAddr(0, 0)
  const STUN_RETRY_COUNT: nat := 2

  datatype NatType =
    | UdpBlocked
    | OpenInternet
    | SymmetricUdpFirewall
    | FullCone
    | RestrictedCone
    | PortRestrictedCone
    | Symmetric
    | Unknown

  function Weight(t: NatType): nat {
    match t
    case UdpBlocked => 1
    case OpenInternet => 7
    case SymmetricUdpFirewall => 2
    case FullCone => 6
    case RestrictedCone => 5
    case PortRestrictedCone => 4
    case Symmetric => 3
    case Unknown => 0
  }

  // ---------- exchanges ----------

  datatype Response = Response(mapped: Option<SocketAddr>, changed: Option<SocketAddr>)

  // A binding request: where to, and from where the reply is asked to come.
  datatype Request = Request(dest: SocketAddr, changeIp: bool, changePort: bool)

  // What comes of sending a request once.
  datatype Attempt =
    | SendFailed
    | TimedOut
    | Garbage
    | ErrorReply
    | OtherTransaction
    | Reply(response: Response)

  // What the network answers to a request, attempt by attempt, given the requests this socket
  // made before.
  type Net = (seq<Request>, Request) -> seq<Attempt>

  // The first reply, unless an error reply comes before it, among the attempts made.
  function FirstReply(attempts: seq<Attempt>, retries: nat): Option<Response> {
    if attempts == [] || retries == 0 then None
    else
      match attempts[0]
      case Reply(response) => Some(response)
      case ErrorReply => None
      case _ => FirstReply(attempts[1..], retries - 1)
  }

  method SingleSend(attempts: seq<Attempt>) returns (result: Option<Response>)
    requires |attempts| >= STUN_RETRY_COUNT
    ensures result == FirstReply(attempts, STUN_RETRY_COUNT)
  {
    for i := 0 to STUN_RETRY_COUNT
      invariant FirstReply(attempts, STUN_RETRY_COUNT) == FirstReply(attempts[i..], STUN_RETRY_COUNT - i)
    {
      assert attempts[i..][1..] == attempts[i + 1..];
      match attempts[i] {
        case SendFailed => continue;
        case TimedOut => continue;
        case Garbage => continue;
        case ErrorReply => break;
        case OtherTransaction =>
        case Reply(response) => return Some(response);
      }
    }
    return None;
  }

  // ---------- the decision procedure ----------

  datatype Detection = Failed | Detected(publicAddress: SocketAddr, natType: NatType)

  function Test1(server: SocketAddr): Request {
    Request(server, false, false)
  }

  function Test2(server: SocketAddr): Request {
    Request(server, true, true)
  }

  function Test3(changed: SocketAddr): Request {
    Request(changed, false, true)
  }

  function Ask(net: Net, before: seq<Request>, q: Request): Option<Response> {
    FirstReply(net(before, q), STUN_RETRY_COUNT)
  }

  ghost predicate Answers(net: Net) {
    forall before, q :: |net(before, q)| >= STUN_RETRY_COUNT
  }

  // The verdict on a host, by what came of its exchanges.
  function Verdict(localIp: nat, server: SocketAddr, net: Net): Detection {
    var first := Ask(net, [], Test1(server));
    if first.None? then Detected(EMPTY_ADDRESS, UdpBlocked)
    else if first.value.mapped.None? || first.value.changed.None? then Failed
    else
      var public, changed := first.value.mapped.value, first.value.changed.value;
      var second := Ask(net, [Test1(server)], Test2(server));
      if localIp == public.ip then Detected(public, if second.None? then OpenInternet else SymmetricUdpFirewall)
      else if second.Some? then Detected(public, FullCone)
      else AtChangedAddress(server, public, changed, net)
  }

  function AtChangedAddress(server: SocketAddr, public: SocketAddr, changed: SocketAddr, net: Net): Detection {
    var before := [Test1(server), Test2(server)];
    var again := Ask(net, before, Test1(changed));
    if again.None? then Detected(public, Unknown)
    else if again.value.mapped.None? then Failed
    else if again.value.mapped.value != public then Detected(public, Symmetric)
    else if Ask(net, before + [Test1(changed)], Test3(changed)).None? then Detected(public, PortRestrictedCone)
    else Detected(public, RestrictedCone)
  }

  method NatDetect(localIp: nat, server: SocketAddr, net: Net) returns (d: Detection)
    requires Answers(net)
    ensures d == Verdict(localIp, server, net)
  {
    var result := SingleSend(net([], Test1(server)));
    if result.None? {
      return Detected(EMPTY_ADDRESS, UdpBlocked);
    }
    var test1Response := result.value;
    if test1Response.mapped.None? {
      return Failed;
    }
    var publicAddress := test1Response.mapped.value;
    if test1Response.changed.None? {
      return Failed;
    }
    var changedAddress := test1Response.changed.value;
    var isSameIp := localIp == publicAddress.ip;
    result := SingleSend(net([Test1(server)], Test2(server)));
    if isSameIp {
      if result.None? {
        return Detected(publicAddress, OpenInternet);
      } else {
        return Detected(publicAddress, SymmetricUdpFirewall);
      }
    }
    if result.Some? {
      return Detected(publicAddress, FullCone);
    }
    result := SingleSend(net([Test1(server), Test2(server)], Test1(changedAddress)));
    if result.None? {
      return Detected(publicAddress, Unknown);
    }
    if result.value.mapped.None? {
      return Failed;
    }
    if publicAddress != result.value.mapped.value {
      return Detected(publicAddress, Symmetric);
    }
    var before := [Test1(server), Test2(server)] + [Test1(changedAddress)];
    result := SingleSend(net(before, Test3(changedAddress)));
    if result.None? {
      return Detected(publicAddress, PortRestrictedCone);
    }
    return Detected(publicAddress, RestrictedCone);
  }

  // ---------- when there is no verdict ----------

  // This response is what comes of two attempts: it answers the first, or the second if the first
  // brought neither a response nor an error.
  predicate Brings(attempts: seq<Attempt>, response: Response) {
    && |attempts| >= 2
    && (|| attempts[0] == Reply(response)
        || (attempts[1] == Reply(response) && !attempts[0].Reply? && !attempts[0].ErrorReply?))
  }

  lemma AskBrings(net: Net, before: seq<Request>, q: Request)
    requires Answers(net)
    ensures forall response :: Ask(net, before, q) == Some(response) <==> Brings(net(before, q), response)
  {
    var attempts := net(before, q);
    assert attempts[1..][0] == attempts[1];
    assert FirstReply(attempts[1..], 1) == if attempts[1].Reply? then Some(attempts[1].response) else None;
  }

  // A reply to the first request that lacks the mapped or the changed address.
  predicate IncompleteFirst(server: SocketAddr, net: Net, first: Response) {
    Brings(net([], Test1(server)), first) && (first.mapped.None? || first.changed.None?)
  }

  // A reply from the changed address that lacks the mapped address, where it is asked for.
  ghost predicate IncompleteAgain(localIp: nat, server: SocketAddr, net: Net, first: Response, again: Response) {
    && Brings(net([], Test1(server)), first)
    && first.mapped.Some?
    && first.changed.Some?
    && first.mapped.value.ip != localIp
    && (forall second :: !Brings(net([Test1(server)], Test2(server)), second))
    && Brings(net([Test1(server), Test2(server)], Test1(first.changed.value)), again)
    && again.mapped.None?
  }

  // On any network the work on a server ends without a verdict exactly if such a reply comes.
  lemma FailsIff(localIp: nat, server: SocketAddr, net: Net)
    requires Answers(net)
    ensures Verdict(localIp, server, net) == Failed
       <==> || (exists first :: IncompleteFirst(server, net, first))
            || (exists first, again :: IncompleteAgain(localIp, server, net, first, again))
  {
    AskBrings(net, [], Test1(server));
    var first := Ask(net, [], Test1(server));
    if first.Some? {
      assert Brings(net([], Test1(server)), first.value);
      if first.value.mapped.Some? && first.value.changed.Some? {
        var b1, b2, changed := [Test1(server)], [Test1(server), Test2(server)], first.value.changed.value;
        AskBrings(net, b1, Test2(server));
        AskBrings(net, b2, Test1(changed));
        var again := Ask(net, b2, Test1(changed));
        if Verdict(localIp, server, net) == Failed {
          assert IncompleteAgain(localIp, server, net, first.value, again.value);
        }
      } else {
        assert IncompleteFirst(server, net, first.value);
      }
    }
  }

  // ---------- the world: hosts, NATs and servers ----------

  // How a host looks from outside: the external address each destination sees, and which
  // incoming datagrams get through.
  datatype Nat = Nat(kind: NatType, mapping: SocketAddr -> SocketAddr)

  // A STUN server answers from two addresses; not every one tells the other address in its replies.
  datatype Server = Server(primary: SocketAddr, alternate: SocketAddr, tells: bool)

  // What becomes of one attempt: the datagram never leaves the host, or it is lost beyond the
  // NAT, or the reply is lost, or nothing is lost.
  datatype Fate = NotSent | RequestLost | ReplyLost | Unharmed

  // By exchange and attempt.
  type Fates = (nat, nat) -> Fate

  ghost predicate IsCone(n: Nat) {
    forall d, e :: n.mapping(d) == n.mapping(e)
  }

  ghost predicate BehindNat(n: Nat, localIp: nat) {
    && n.kind in {FullCone, RestrictedCone, PortRestrictedCone, Symmetric}
    && (forall d :: n.mapping(d).ip != localIp)
    && (n.kind != Symmetric ==> IsCone(n))
    && (n.kind == Symmetric ==> forall d, e :: n.mapping(d) == n.mapping(e) ==> d == e)
  }

  ghost predicate IsPublic(n: Nat, localIp: nat) {
    && n.kind in {OpenInternet, SymmetricUdpFirewall}
    && (forall d :: n.mapping(d).ip == localIp)
    && IsCone(n)
  }

  predicate GoodServer(server: Server) {
    server.primary.ip != server.alternate.ip && server.primary.port != server.alternate.port
  }

  // Does a datagram from this address to external address ext reach the host, which has sent
  // to the addresses in `contacted`?
  predicate Admits(n: Nat, contacted: set<SocketAddr>, ext: SocketAddr, from: SocketAddr) {
    match n.kind
    case OpenInternet => true
    case FullCone => true
    case RestrictedCone => exists c :: c in contacted && c.ip == from.ip
    case PortRestrictedCone => from in contacted
    case SymmetricUdpFirewall => from in contacted
    case Symmetric => from in contacted && n.mapping(from) == ext
    case _ => false
  }

  function Other(server: Server, at: SocketAddr): SocketAddr {
    if at == server.primary then server.alternate else server.primary
  }

  // What a reply says: how the host looks to the server, and the server's other address.
  function Answer(n: Nat, server: Server, at: SocketAddr): Response {
    Response(Some(n.mapping(at)), if server.tells then Some(Other(server, at)) else None)
  }

  // Where the server answers a request from.
  function ReplySource(server: Server, q: Request): SocketAddr {
    var other := Other(server, q.dest);
    SocketAddr(if q.changeIp then other.ip else q.dest.ip, if q.changePort then other.port else q.dest.port)
  }

  predicate Left(fates: Fates, exchange: nat) {
    fates(exchange, 0) != NotSent || fates(exchange, 1) != NotSent
  }

  // The addresses the host has sent to before.
  function Contacted(before: seq<Request>, fates: Fates): set<SocketAddr> {
    set k | 0 <= k < |before| && Left(fates, k) :: before[k].dest
  }

  function OneAttempt(n: Nat, server: Server, fates: Fates, before: seq<Request>, q: Request, i: nat): Attempt {
    match fates(|before|, i)
    case NotSent => SendFailed
    case RequestLost => TimedOut
    case ReplyLost => TimedOut
    case Unharmed =>
      if q.dest != server.primary && q.dest != server.alternate then TimedOut
      else if Admits(n, Contacted(before, fates) + {q.dest}, n.mapping(q.dest), ReplySource(server, q))
      then Reply(Answer(n, server, q.dest))
      else TimedOut
  }

  function NatNet(n: Nat, server: Server, fates: Fates): Net {
    (before: seq<Request>, q: Request) =>
      [OneAttempt(n, server, fates, before, q, 0), OneAttempt(n, server, fates, before, q, 1)]
  }

  predicate Survives(fates: Fates, exchange: nat) {
    fates(exchange, 0) == Unharmed || fates(exchange, 1) == Unharmed
  }

  // A reply arrives if one attempt is unharmed and the NAT lets it in.
  lemma AskResult(n: Nat, server: Server, fates: Fates, before: seq<Request>, q: Request)
    requires q.dest == server.primary || q.dest == server.alternate
    ensures Ask(NatNet(n, server, fates), before, q)
         == if && Survives(fates, |before|)
               && Admits(n, Contacted(before, fates) + {q.dest}, n.mapping(q.dest), ReplySource(server, q))
            then Some(Answer(n, server, q.dest)) else None
  {
    TwoAttempts(OneAttempt(n, server, fates, before, q, 0), OneAttempt(n, server, fates, before, q, 1));
  }

  lemma TwoAttempts(first: Attempt, second: Attempt)
    ensures FirstReply([first, second], STUN_RETRY_COUNT) ==
            match first
            case Reply(response) => Some(response)
            case ErrorReply => None
            case _ => if second.Reply? then Some(second.response) else None
  {
    assert [first, second][1..] == [second] && [second][1..] == [];
    assert FirstReply([second], 1) == if second.Reply? then Some(second.response) else None;
  }

  // Which of the four tests a NAT of each kind passes when nothing is lost.
  lemma TestsByKind(n: Nat, localIp: nat, server: Server, contacted: set<SocketAddr>)
    requires BehindNat(n, localIp) && GoodServer(server)
    requires contacted <= {server.primary, server.alternate}
    ensures var s, a := server.primary, server.alternate;
            && Admits(n, contacted + {s}, n.mapping(s), ReplySource(server, Test1(s)))
            && Admits(n, contacted + {a}, n.mapping(a), ReplySource(server, Test1(a)))
            && (n.kind == FullCone ==> Admits(n, contacted + {s}, n.mapping(s), ReplySource(server, Test2(s))))
            && (Admits(n, {s}, n.mapping(s), ReplySource(server, Test2(s))) ==> n.kind == FullCone)
            && (n.kind == RestrictedCone ==> Admits(n, contacted + {a}, n.mapping(a), ReplySource(server, Test3(a))))
            && (Admits(n, contacted + {a}, n.mapping(a), ReplySource(server, Test3(a))) ==>
                  n.kind != PortRestrictedCone)
            && (n.mapping(s) == n.mapping(a) <==> n.kind != Symmetric)
  {
    var s, a := server.primary, server.alternate;
    assert a in contacted + {a} && s in contacted + {s};
  }

  // Exactly what a host behind a NAT is told, by which exchanges survive.
  lemma VerdictBehindNat(n: Nat, localIp: nat, server: Server, fates: Fates)
    requires BehindNat(n, localIp) && GoodServer(server)
    ensures var public := n.mapping(server.primary);
            Verdict(localIp, server.primary, NatNet(n, server, fates)) ==
            if !Survives(fates, 0) then Detected(EMPTY_ADDRESS, UdpBlocked)
            else if !server.tells then Failed
            else if n.kind == FullCone && Survives(fates, 1) then Detected(public, FullCone)
            else if !Survives(fates, 2) then Detected(public, Unknown)
            else if n.kind == Symmetric then Detected(public, Symmetric)
            else if n.kind != PortRestrictedCone && Survives(fates, 3) then Detected(public, RestrictedCone)
            else Detected(public, PortRestrictedCone)
  {
    var s, a, net := server.primary, server.alternate, NatNet(n, server, fates);
    var b1, b2 := [Test1(s)], [Test1(s), Test2(s)];
    var b3 := b2 + [Test1(a)];
    AskResult(n, server, fates, [], Test1(s));
    AskResult(n, server, fates, b1, Test2(s));
    AskResult(n, server, fates, b2, Test1(a));
    AskResult(n, server, fates, b3, Test3(a));
    TestsByKind(n, localIp, server, {});
    assert Contacted([], fates) == {};
    assert Contacted(b1, fates) <= {s};
    assert Contacted(b2, fates) <= {s};
    assert Contacted(b3, fates) <= {s, a};
    assert Contacted(b1, fates) + {s} == {s};
    TestsByKind(n, localIp, server, Contacted(b2, fates));
    TestsByKind(n, localIp, server, Contacted(b3, fates));
  }

  // When one attempt of each exchange survives and the server tells its other address, the verdict
  // is the NAT's true type.
  lemma Classifies(n: Nat, localIp: nat, server: Server, fates: Fates)
    requires BehindNat(n, localIp) && GoodServer(server) && server.tells
    requires forall k :: 0 <= k < 4 ==> Survives(fates, k)
    ensures Verdict(localIp, server.primary, NatNet(n, server, fates)) == Detected(n.mapping(server.primary), n.kind)
  {
    VerdictBehindNat(n, localIp, server, fates);
    assert Survives(fates, 0) && Survives(fates, 1) && Survives(fates, 2) && Survives(fates, 3);
  }

  // However much is lost, a verdict never weighs more than the truth.
  lemma NeverTooOptimistic(n: Nat, localIp: nat, server: Server, fates: Fates)
    requires BehindNat(n, localIp) && GoodServer(server)
    ensures var d := Verdict(localIp, server.primary, NatNet(n, server, fates));
            && (d.Detected? <==> server.tells || !Survives(fates, 0))
            && (d.Detected? ==> Weight(d.natType) <= Weight(n.kind))
  {
    VerdictBehindNat(n, localIp, server, fates);
  }

  // Exactly what a host that is not behind a NAT is told, by which exchanges survive.
  lemma VerdictInPublic(n: Nat, localIp: nat, server: Server, fates: Fates)
    requires IsPublic(n, localIp) && GoodServer(server)
    ensures Verdict(localIp, server.primary, NatNet(n, server, fates)) ==
            if !Survives(fates, 0) then Detected(EMPTY_ADDRESS, UdpBlocked)
            else if !server.tells then Failed
            else if n.kind == OpenInternet && Survives(fates, 1)
            then Detected(n.mapping(server.primary), SymmetricUdpFirewall)
            else Detected(n.mapping(server.primary), OpenInternet)
  {
    var s := server.primary;
    AskResult(n, server, fates, [], Test1(s));
    AskResult(n, server, fates, [Test1(s)], Test2(s));
    assert Contacted([Test1(s)], fates) <= {s};
    assert s in Contacted([], fates) + {s};
    assert ReplySource(server, Test2(s)) == server.alternate;
  }

  // The two public verdicts are the wrong way round: the verdict is right only for a host
  // without firewall, and only by accident, when both attempts of the second test are lost.
  lemma PublicVerdictRightIff(n: Nat, localIp: nat, server: Server, fates: Fates)
    requires IsPublic(n, localIp) && GoodServer(server)
    ensures var d := Verdict(localIp, server.primary, NatNet(n, server, fates));
            && (d.Detected? <==> server.tells || !Survives(fates, 0))
            && (d.Detected? && d.natType == n.kind <==>
                n.kind == OpenInternet && server.tells && Survives(fates, 0) && !Survives(fates, 1))
  {
    VerdictInPublic(n, localIp, server, fates);
  }

  // ---------- the vote over many servers ----------

  // The work on one server ends in a detection, or dies on the way.
  datatype Outcome = Died | Finished(detection: Detection)

  datatype Vote = NoVote | Elected(natType: NatType, publicAddress: SocketAddr)

  predicate IsBallot(o: Outcome) {
    o.Finished? && o.detection.Detected?
  }

  function LastAddress(outcomes: seq<Outcome>): SocketAddr {
    if outcomes == [] then EMPTY_ADDRESS
    else
      var o := outcomes[|outcomes| - 1];
      if IsBallot(o) && o.detection.publicAddress != EMPTY_ADDRESS then o.detection.publicAddress
      else LastAddress(outcomes[..|outcomes| - 1])
  }

  // How often a type was reported.
  function Reports(outcomes: seq<Outcome>, t: NatType): nat {
    if outcomes == [] then 0
    else
      var o := outcomes[|outcomes| - 1];
      Reports(outcomes[..|outcomes| - 1], t) + if IsBallot(o) && o.detection.natType == t then 1 else 0
  }

  lemma {:induction false} ReportedBy(outcomes: seq<Outcome>, t: NatType)
    ensures Reports(outcomes, t) > 0 <==> exists o :: o in outcomes && IsBallot(o) && o.detection.natType == t
  {
    if outcomes != [] {
      var before, o := outcomes[..|outcomes| - 1], outcomes[|outcomes| - 1];
      ReportedBy(before, t);
      assert outcomes == before + [o];
    }
  }

  // The outcome of the vote: some server's verdict, none heavier, and the last address any
  // server reported; no outcome if the work on one died or none gave a verdict.
  ghost predicate IsVote(outcomes: seq<Outcome>, v: Vote) {
    if Died in outcomes || forall o :: o in outcomes ==> !IsBallot(o) then v == NoVote
    else
      && v.Elected?
      && (exists o :: o in outcomes && IsBallot(o) && o.detection.natType == v.natType)
      && (forall o :: o in outcomes && IsBallot(o) ==> Weight(o.detection.natType) <= Weight(v.natType))
      && v.publicAddress == LastAddress(outcomes)
  }

  // Types weigh differently, so the vote has one outcome, whatever the order of the tally.
  lemma VoteUnique(outcomes: seq<Outcome>, v: Vote, w: Vote)
    requires IsVote(outcomes, v) && IsVote(outcomes, w)
    ensures v == w
  {
    if v.Elected? {
      assert Weight(v.natType) == Weight(w.natType);
    }
  }

  // Some server reported this type.
  ghost predicate Reported(outcomes: seq<Outcome>, t: NatType) {
    exists a :: Finished(Detected(a, t)) in outcomes
  }

  // The types from the most to the least open.
  function ByOpenness(): seq<NatType> {
    [OpenInternet, FullCone, RestrictedCone, PortRestrictedCone, Symmetric, SymmetricUdpFirewall, UdpBlocked, Unknown]
  }

  // The address of the last server that reported one, if any did.
  ghost predicate IsLastReported(outcomes: seq<Outcome>, address: SocketAddr) {
    var none := SocketAddr(0, 0);
    if address == none then forall a, t :: Finished(Detected(a, t)) in outcomes ==> a == none
    else
      exists k, t ::
        && 0 <= k < |outcomes|
        && outcomes[k] == Finished(Detected(address, t))
        && forall j :: k < j < |outcomes| && IsBallot(outcomes[j]) ==> outcomes[j].detection.publicAddress == none
  }

  // The vote spelled out: the most open type reported, and the last address.
  ghost predicate IsMostOpen(outcomes: seq<Outcome>, v: Vote) {
    if Died in outcomes || forall t :: !Reported(outcomes, t) then v == NoVote
    else
      && v.Elected?
      && (exists i :: 0 <= i < 8 && v.natType == ByOpenness()[i] && Reported(outcomes, v.natType)
                      && forall j :: 0 <= j < i ==> !Reported(outcomes, ByOpenness()[j]))
      && IsLastReported(outcomes, v.publicAddress)
  }

  lemma ReportedIff(outcomes: seq<Outcome>, t: NatType)
    ensures Reported(outcomes, t) <==> exists o :: o in outcomes && IsBallot(o) && o.detection.natType == t
  {
    if o :| o in outcomes && IsBallot(o) && o.detection.natType == t {
      assert o == Finished(Detected(o.detection.publicAddress, t));
    }
  }

  lemma {:induction false} LastIsReported(outcomes: seq<Outcome>)
    ensures IsLastReported(outcomes, LastAddress(outcomes))
  {
    if outcomes != [] {
      var before, o := outcomes[..|outcomes| - 1], outcomes[|outcomes| - 1];
      LastIsReported(before);
      assert outcomes == before + [o];
      if IsBallot(o) && o.detection.publicAddress != EMPTY_ADDRESS {
        assert outcomes[|outcomes| - 1] == Finished(Detected(o.detection.publicAddress, o.detection.natType));
      } else if LastAddress(before) != EMPTY_ADDRESS {
        var k, t :|
          && 0 <= k < |before|
          && before[k] == Finished(Detected(LastAddress(before), t))
          && forall j :: k < j < |before| && IsBallot(before[j]) ==>
                           before[j].detection.publicAddress == SocketAddr(0, 0);
        assert outcomes[k] == Finished(Detected(LastAddress(before), t));
      }
    }
  }

  // How open a type is, as a place in that order.
  function Place(t: NatType): (i: nat)
    ensures i < 8 && ByOpenness()[i] == t
  {
    match t
    case OpenInternet => 0
    case FullCone => 1
    case RestrictedCone => 2
    case PortRestrictedCone => 3
    case Symmetric => 4
    case SymmetricUdpFirewall => 5
    case UdpBlocked => 6
    case Unknown => 7
  }

  lemma VoteIsMostOpen(outcomes: seq<Outcome>, v: Vote)
    requires IsVote(outcomes, v)
    ensures IsMostOpen(outcomes, v)
  {
    forall t
      ensures Reported(outcomes, t) <==> exists o :: o in outcomes && IsBallot(o) && o.detection.natType == t
    {
      ReportedIff(outcomes, t);
    }
    if v.Elected? {
      LastIsReported(outcomes);
      assert Reported(outcomes, v.natType) && ByOpenness()[Place(v.natType)] == v.natType;
      forall j | 0 <= j < Place(v.natType)
        ensures !Reported(outcomes, ByOpenness()[j])
      {
        assert Weight(ByOpenness()[j]) > Weight(v.natType);
      }
    } else if Died !in outcomes {
      assert forall t :: !Reported(outcomes, t);
    }
  }

  method DetectWithServers(outcomes: seq<Outcome>) returns (v: Vote)
    ensures IsVote(outcomes, v) && IsMostOpen(outcomes, v)
  {
    var tally: map<NatType, nat> := map[];
    var publicAddress := EMPTY_ADDRESS;
    for i := 0 to |outcomes|
      invariant Died !in outcomes[..i]
      invariant publicAddress == LastAddress(outcomes[..i])
      invariant forall t :: t in tally <==> Reports(outcomes[..i], t) > 0
      invariant forall t :: t in tally ==> tally[t] == Reports(outcomes[..i], t)
    {
      assert outcomes[..i + 1] == outcomes[..i] + [outcomes[i]];
      assert outcomes[..i + 1][..i] == outcomes[..i];
      if outcomes[i].Died? {
        assert outcomes[i] in outcomes;
        v := NoVote;
        VoteIsMostOpen(outcomes, v);
        return v;
      }
      if outcomes[i].detection.Detected? {
        var d := outcomes[i].detection;
        if d.publicAddress != EMPTY_ADDRESS {
          publicAddress := d.publicAddress;
        }
        tally := tally[d.natType := if d.natType in tally then tally[d.natType] + 1 else 1];
      }
    }
    assert outcomes[..|outcomes|] == outcomes;
    forall t
      ensures t in tally <==> exists o :: o in outcomes && IsBallot(o) && o.detection.natType == t
    {
      ReportedBy(outcomes, t);
    }
    assert forall o :: o in outcomes && IsBallot(o) ==> o.detection.natType in tally;
    if tally == map[] {
      v := NoVote;
      VoteIsMostOpen(outcomes, v);
      return v;
    }
    var best := Heaviest(tally.Keys);
    assert best in tally;
    v := Elected(best, publicAddress);
    VoteIsMostOpen(outcomes, v);
  }

  method Heaviest(types: set<NatType>) returns (best: NatType)
    requires types != {}
    ensures best in types && forall t :: t in types ==> Weight(t) <= Weight(best)
  {
    best :| best in types;
    var rest := types - {best};
    while rest != {}
      invariant best in types && rest <= types
      invariant forall t :: t in types && t !in rest ==> Weight(t) <= Weight(best)
      decreases rest
    {
      var t :| t in rest;
      if Weight(t) >= Weight(best) {
        best := t;
      }
      rest := rest - {t};
    }
  }

  // The host asks a list of servers, each over a socket of its own: the NAT is of one kind,
  // but may give each socket another external address. Every exchange has its own losses.
  ghost predicate AskedAll(kind: NatType, localIp: nat, nats: seq<Nat>, servers: seq<Server>, fates: seq<Fates>,
                           outcomes: seq<Outcome>)
  {
    && |nats| == |servers| == |fates| == |outcomes|
    && forall k :: 0 <= k < |servers| ==>
         && nats[k].kind == kind
         && BehindNat(nats[k], localIp)
         && GoodServer(servers[k])
         && outcomes[k] == Finished(Verdict(localIp, servers[k].primary, NatNet(nats[k], servers[k], fates[k])))
  }

  // Every ballot weighs at most what the NAT's type weighs.
  lemma BallotsSafe(kind: NatType, localIp: nat, nats: seq<Nat>, servers: seq<Server>, fates: seq<Fates>,
                    outcomes: seq<Outcome>)
    requires AskedAll(kind, localIp, nats, servers, fates, outcomes)
    ensures Died !in outcomes
    ensures forall o :: o in outcomes && IsBallot(o) ==> Weight(o.detection.natType) <= Weight(kind)
  {
    forall o | o in outcomes
      ensures o.Finished? && (IsBallot(o) ==> Weight(o.detection.natType) <= Weight(kind))
    {
      var j :| 0 <= j < |outcomes| && outcomes[j] == o;
      NeverTooOptimistic(nats[j], localIp, servers[j], fates[j]);
    }
  }

  // A ballot that no other outweighs wins.
  lemma HeaviestWins(outcomes: seq<Outcome>, o: Outcome, v: Vote)
    requires IsVote(outcomes, v) && Died !in outcomes && o in outcomes && IsBallot(o)
    requires forall x :: x in outcomes && IsBallot(x) ==> Weight(x.detection.natType) <= Weight(o.detection.natType)
    ensures v.Elected? && v.natType == o.detection.natType
  {
    assert Weight(v.natType) == Weight(o.detection.natType);
  }

  // The address of the vote is one a ballot reports; if it is empty, all ballots report none.
  lemma {:induction false} AddressReported(outcomes: seq<Outcome>)
    ensures var a := LastAddress(outcomes);
            if a == EMPTY_ADDRESS
            then forall o :: o in outcomes && IsBallot(o) ==> o.detection.publicAddress == EMPTY_ADDRESS
            else exists o :: o in outcomes && IsBallot(o) && o.detection.publicAddress == a
  {
    if outcomes != [] {
      var before, o := outcomes[..|outcomes| - 1], outcomes[|outcomes| - 1];
      AddressReported(before);
      assert outcomes == before + [o];
      if LastAddress(before) != EMPTY_ADDRESS && LastAddress(outcomes) == LastAddress(before) {
        var x :| x in before && IsBallot(x) && x.detection.publicAddress == LastAddress(before);
        assert x in outcomes;
      }
    }
  }

  // Every ballot reports the address the NAT gave the socket it was cast from, or none.
  lemma BallotAddress(kind: NatType, localIp: nat, nats: seq<Nat>, servers: seq<Server>, fates: seq<Fates>,
                      outcomes: seq<Outcome>, o: Outcome) returns (j: nat)
    requires AskedAll(kind, localIp, nats, servers, fates, outcomes) && o in outcomes && IsBallot(o)
    ensures j < |servers|
    ensures o.detection.publicAddress in {EMPTY_ADDRESS, nats[j].mapping(servers[j].primary)}
  {
    j :| 0 <= j < |outcomes| && outcomes[j] == o;
    VerdictBehindNat(nats[j], localIp, servers[j], fates[j]);
  }

  // One server whose exchanges survive is enough for the vote to be exactly right: it names the
  // NAT's type, and an address the NAT gave one of the sockets.
  lemma VoteIsRight(kind: NatType, localIp: nat, nats: seq<Nat>, servers: seq<Server>, fates: seq<Fates>,
                    outcomes: seq<Outcome>, k: nat, v: Vote)
    requires AskedAll(kind, localIp, nats, servers, fates, outcomes) && IsVote(outcomes, v)
    requires k < |servers| && servers[k].tells && forall x :: 0 <= x < 4 ==> Survives(fates[k], x)
    ensures v.Elected? && v.natType == kind
    ensures exists j :: 0 <= j < |servers| && v.publicAddress == nats[j].mapping(servers[j].primary)
  {
    Classifies(nats[k], localIp, servers[k], fates[k]);
    assert outcomes[k] in outcomes;
    BallotsSafe(kind, localIp, nats, servers, fates, outcomes);
    HeaviestWins(outcomes, outcomes[k], v);
    AddressReported(outcomes);
    assert v.publicAddress == LastAddress(outcomes);
    if v.publicAddress == EMPTY_ADDRESS {
      assert v.publicAddress == nats[k].mapping(servers[k].primary);
    } else {
      var o :| o in outcomes && IsBallot(o) && o.detection.publicAddress == v.publicAddress;
      var j := BallotAddress(kind, localIp, nats, servers, fates, outcomes, o);
    }
  }

  // Whatever is lost, the vote never claims a more open NAT than the true one.
  lemma VoteIsSafe(kind: NatType, localIp: nat, nats: seq<Nat>, servers: seq<Server>, fates: seq<Fates>,
                   outcomes: seq<Outcome>, v: Vote)
    requires AskedAll(kind, localIp, nats, servers, fates, outcomes) && IsVote(outcomes, v)
    ensures v.Elected? <==> exists k :: 0 <= k < |servers| && (servers[k].tells || !Survives(fates[k], 0))
    ensures v.Elected? ==> Weight(v.natType) <= Weight(kind)
  {
    BallotsSafe(kind, localIp, nats, servers, fates, outcomes);
    forall k | 0 <= k < |servers|
      ensures outcomes[k] in outcomes && (IsBallot(outcomes[k]) <==> servers[k].tells || !Survives(fates[k], 0))
    {
      NeverTooOptimistic(nats[k], localIp, servers[k], fates[k]);
    }
  }

  // ---------- the vote of a host without a NAT ----------

  ghost predicate AskedInPublic(kind: NatType, localIp: nat, nats: seq<Nat>, servers: seq<Server>, fates: seq<Fates>,
                                outcomes: seq<Outcome>)
  {
    && |nats| == |servers| == |fates| == |outcomes|
    && forall k :: 0 <= k < |servers| ==>
         && nats[k].kind == kind
         && IsPublic(nats[k], localIp)
         && GoodServer(servers[k])
         && outcomes[k] == Finished(Verdict(localIp, servers[k].primary, NatNet(nats[k], servers[k], fates[k])))
  }

  // This server answers the first test, completely.
  predicate Serves(server: Server, fates: Fates) {
    server.tells && Survives(fates, 0)
  }

  // It answers, and the host hears nothing of its second test.
  predicate SaysOpen(kind: NatType, server: Server, fates: Fates) {
    Serves(server, fates) && (kind == SymmetricUdpFirewall || !Survives(fates, 1))
  }

  lemma PublicBallot(kind: NatType, localIp: nat, nats: seq<Nat>, servers: seq<Server>, fates: seq<Fates>,
                     outcomes: seq<Outcome>, k: nat)
    requires AskedInPublic(kind, localIp, nats, servers, fates, outcomes) && k < |servers|
    ensures outcomes[k] in outcomes && outcomes[k].Finished?
    ensures IsBallot(outcomes[k]) <==> servers[k].tells || !Survives(fates[k], 0)
    ensures IsBallot(outcomes[k]) ==>
              outcomes[k].detection.natType
              == if SaysOpen(kind, servers[k], fates[k]) then OpenInternet
                 else if Serves(servers[k], fates[k]) then SymmetricUdpFirewall else UdpBlocked
  {
    VerdictInPublic(nats[k], localIp, servers[k], fates[k]);
  }

  // Exactly what a host without a NAT is told by the vote: that it has no firewall, if some server
  // answers it and its second test goes unheard there; else that it has one, if some server
  // answers it; else that it is blocked; and nothing if no server gives a verdict.
  lemma PublicVote(kind: NatType, localIp: nat, nats: seq<Nat>, servers: seq<Server>, fates: seq<Fates>,
                   outcomes: seq<Outcome>, v: Vote)
    requires AskedInPublic(kind, localIp, nats, servers, fates, outcomes) && IsVote(outcomes, v)
    ensures v.Elected? <==> exists k :: 0 <= k < |servers| && (servers[k].tells || !Survives(fates[k], 0))
    ensures v.Elected? ==>
              v.natType
              == if exists k :: 0 <= k < |servers| && SaysOpen(kind, servers[k], fates[k]) then OpenInternet
                 else if exists k :: 0 <= k < |servers| && Serves(servers[k], fates[k]) then SymmetricUdpFirewall
                 else UdpBlocked
  {
    forall k | 0 <= k < |servers|
      ensures outcomes[k] in outcomes && outcomes[k].Finished?
      ensures IsBallot(outcomes[k]) <==> servers[k].tells || !Survives(fates[k], 0)
      ensures IsBallot(outcomes[k]) ==>
                outcomes[k].detection.natType
                == if SaysOpen(kind, servers[k], fates[k]) then OpenInternet
                   else if Serves(servers[k], fates[k]) then SymmetricUdpFirewall else UdpBlocked
    {
      PublicBallot(kind, localIp, nats, servers, fates, outcomes, k);
    }
    if v.Elected? {
      HeaviestOf(outcomes, v);
    }
  }

  // The winner was reported, and nothing heavier was.
  lemma HeaviestOf(outcomes: seq<Outcome>, v: Vote)
    requires IsVote(outcomes, v) && v.Elected?
    ensures exists j :: 0 <= j < |outcomes| && IsBallot(outcomes[j]) && outcomes[j].detection.natType == v.natType
    ensures forall j :: 0 <= j < |outcomes| && IsBallot(outcomes[j]) ==>
                          Weight(outcomes[j].detection.natType) <= Weight(v.natType)
  {
    var o :| o in outcomes && IsBallot(o) && o.detection.natType == v.natType;
    var j :| 0 <= j < |outcomes| && outcomes[j] == o;
  }
}
