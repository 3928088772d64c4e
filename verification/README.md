# A verified model of the Zeta relay federation, payments and NAT detection

Zeta is a peer-to-peer messenger with a small wallet. Clients register with relays over UDP,
relays register with each other, and signed texts, payments and payment acknowledgements are
flooded or routed from relay to relay. This project models that system in Dafny and proves what
it does over whole runs.

## How it is modelled

- **Nodes as the program has them.** `SeenIds.SeenIds`, `Wallet.Wallet`, `Relays.RelayNode` and
  `Clients.ClientNode` are classes with the source's fields and loops. Each method is proved
  against a function on values (`Relays.Handle`, `Clients.Handle`, `Clients.MakePayment`, ...), and
  what these functions mean, field by field, is stated apart from them.
- **One system, one step relation.** `Network.Apply` runs those functions on a system of relays,
  clients and datagrams in flight. A step is a user's message or payment, a heartbeat, a sweep of
  a peer table, or a datagram being delivered, lost or duplicated; any datagram may be delivered
  next. The run-level theorems on flooding, money and routing are about this relation, with
  hypotheses stated in the lemma; `Crash.dfy` and `Liveness.dfy` have step relations of their own,
  for crashes between single steps and for a clock.
- **Addresses and hash maps.** The node at index i has socket address i; -1 stands for
  0.0.0.0:0. The order in which a hash map is iterated is a parameter of the step that iterates
  it, so the theorems hold for every order.
- **History.** The ledger of payments and the uncapped log of each client are recorded beside the
  state and read by no node. Ids are kept in the log next to the text that is displayed.
- **Numbers.** `u64` is a bounded integer; the unchecked addition in `credit` and the subtraction
  in the sweep wrap, as in a release build. Exclusive or is defined bit by bit.
- **Signatures** are an arbitrary predicate on key, signed bytes and signature.
- Each mutex-protected block, and the handling of one datagram, is one atomic step, except in
  `Crash.dfy`, where paying and crediting are cut into their single steps.

| file | contents |
|---|---|
| Words.dfy, Identity.dfy | words, exclusive or, little-endian and UTF-8 bytes; the signed bytes |
| SeenIds.dfy, DedupKeys.dfy | the dedup cache and the keys used in it |
| PayArgs.dfy | parsing and printing of payment commands |
| Messages.dfy, Wallet.dfy, Relay.dfy, Client.dfy, Network.dfy | messages, nodes, the system |
| Memory.dfy | what caches remember over a run |
| Flood.dfy, FloodRuns.dfy, FloodBound.dfy, Echo.dfy | flooding of texts: coverage, its exact condition, echoes |
| Weighing.dfy, Termination.dfy | termination of flooding |
| Forgery.dfy | texts that do not verify |
| Ledger.dfy, Acks.dfy, Crash.dfy | conservation of money, acknowledgements, crashes |
| Eviction.dfy, CrashGain.dfy | how money is made when the conditions of those theorems are not met |
| Registry.dfy, Routing.dfy | peer tables, routing of payments |
| Loops.dfy, PaymentTermination.dfy, PaymentCycle.dfy, Strays.dfy | where payments die out, and where not |
| Liveness.dfy | heartbeats and sweeps on a clock |
| NatDetector.dfy | NAT classification and the vote |

## Main results

1. **Coverage.** If no route of distinct relays from the author is longer than 16 (17 if the author
   is a relay), no copy is lost and no cache evicts the id, then once no copy is in flight every
   relay on every route from the author has accepted the text and every client registered there has
   displayed it exactly once (`Flood.Coverage`). The condition is exact: a relay can be starved of ttl
   exactly if some route is too long (`FloodBound.CanStarveIff`), and where every relay has a client
   of its own, all runs reach everyone exactly if routes fit (`FloodBound.CoverageIff`). Hop distance
   does not help: among 17 relays a client two hops away can miss the text
   (`FloodBound.SeventeenRelaysTooMany`, `FloodBound.EighteenRelaysTooMany`).
2. **Echo.** A client with a single relay never gets its own text back, on any federation graph, even
   with loss, evictions and changing tables (`Echo.NoEcho`). In general a client can be shown its own
   text as received exactly if a route of 2 to 16 distinct relays leads from it to one that has it
   registered, or it lists itself as a relay (`Echo.EchoIff`).
3. **Termination** of text flooding by ttl alone, in every run, even with evictions
   (`Termination.InjectionsBounded`).
4. **Conservation** of money over every run with loss, duplication and reordering in which no copy
   of a payment comes after the payee's cache has evicted its key (`Ledger.Conservation`). That the
   cache prevents second credits until then is proved, not assumed: a step breaks conservation
   exactly when it redelivers a credited payment whose key was evicted
   (`Ledger.NextStepConservesIff`); an eviction takes a whole window of other acceptances
   (`Memory.EvictionTakesAWindow`), so a run in which no cache fills up conserves money without
   further condition (`Ledger.SmallRunsConserve`); and the condition is needed
   (`Eviction.SecondCreditHappens`). Hence no overflow.
5. **Ack causality** (`Acks.AckCausality`) and **payment round trip** (`Routing.PaymentRoundTrip`).
6. **Termination of payment flooding.** If the links that ever exist between relays contain no closed
   walk that never turns straight back, deliveries are bounded by the payments issued and the copies
   duplicated (`PaymentTermination.PaymentFloodingTerminates`). The condition is exact: it holds
   precisely when every payment for no one dies out (`Strays.StraysDieOutIff`), and once a message is
   on such a walk no such bound exists (`PaymentCycle.LoopsHaveNoBound`). If no relay lists itself,
   there is one exactly if there is a ring of three or more distinct relays (`Loops.LoopFreeIff`).
7. **Crash safety** of the wallet files (`Crash.CrashSafety`): crashes between any two steps make no
   money, unless a client crashes, or evicts the key, while a copy of a payment it has durably
   credited is in flight to it. The condition is exact, step by step: a step is of that kind exactly
   if steps that are not can make money after it (`CrashGain.TooEarlyIff`), and such a step can be
   reached (`CrashGain.OneEarlyCrashIsEnough`).
8. **NAT classification** against an operational model of NATs, with lost exchanges and with servers
   that do not tell their other address (`NatDetector.VerdictBehindNat`, `NatDetector.VoteIsRight`,
   `NatDetector.PublicVote`).
9. **Forgeries stop.** A text that does not verify gets no farther than the link it was put on, and
   is displayed by no client (`Forgery.ForgeriesStop`, `Forgery.ShownWasSigned`).
10. **Typed commands.** What is typed after /pay is an order for a destination and an amount exactly
   if it spells them, by a grammar with explicit white space, sign and digits (`PayArgs.CommandMeans`).

## Where the code and its documentation differ

- For hosts with a public address, `nat_detect` answers `OpenInternet` when the second test fails
  and `SymmetricUdpFirewall` when it succeeds, the opposite of the comments on the two types and of
  section 10.1 of RFC 3489. The model follows the code; such a host is told its true type only if it
  has no firewall and both attempts of the second test are lost (`NatDetector.PublicVerdictRightIff`).
- The repository's README says that all messages are signed. Payments, acknowledgements and
  registrations are not; the model follows the code.
- The repository's README offers payment by fingerprint. Relays do not know fingerprints, so such
  payments are flooded, and a payment to one's own fingerprint is not returned by one's relay
  (`Routing.ReturnedIff`).

## Model

| member | source | states |
|---|---|---|
| SeenIds.SeenIds.constructor | src/relay.rs:29-31 | a new cache is empty and has the given limit |
| SeenIds.SeenIds.IsNew | src/relay.rs:33-41 | answers false exactly for an id among the last max(max,1) accepted ids; set and queue stay in step |
| SeenIds.QueueIsWindow | src/relay.rs:33-41 | after any history the bounded queue is the window of the last accepted ids of a reference filter |
| SeenIds.AcceptancesApart | src/client.rs:32-40 | two acceptances of one id have at least a window of other acceptances between them |
| SeenIds.QueueShape | src/client.rs:32-40 | the queue never repeats an id and never exceeds max(max,1) |
| SeenIds.SurvivesWindow | src/relay.rs:33-41 | an id stays in the cache while no more other ids are accepted than the capacity leaves room for behind it, however many are offered |
| Memory.CacheBetween | src/client.rs:176-239 | over any stretch of any run, every node's cache is what admitting the keys offered to it leaves |
| Memory.EvictionTakesAWindow | src/client.rs:32-40 | between the step that brings a key into a node's cache and a later state without it, the cache has accepted at least 10000 keys |
| Memory.NothingForgottenYet | src/client.rs:32-40 | a cache has forgotten nothing as long as what it held and has accepted fits into it |
| DedupKeys.KeyBijective | src/client.rs:204-205 | each dedup key is a bijection on 64-bit words, its own inverse |
| DedupKeys.PayKeyFlips | src/client.rs:204-205 | the key of a payment is its id with the upper 32 bits flipped |
| DedupKeys.AckKeyFlips | src/client.rs:238-239 | the key of an acknowledgement is its payment's id with the first and third sixteen bits flipped |
| DedupKeys.KeysCollide | src/client.rs:238-239 | keys of two kinds are equal exactly when the ids differ by the exclusive or of the masks |
| DedupKeys.KindsSeparate | src/client.rs:204-239 | the three keys of one id are pairwise different, so paying oneself does not suppress one's own acknowledgement |
| DedupKeys.SharedCacheIsThreeFilters | src/client.rs:179-239 | without such a pair of ids, the shared cache decides as three separate filters over one window would |
| Identity.BuildSignedData | src/identity.rs:39-46 | the signed bytes are author, text, time and id, in that order |
| Identity.SignedDataSpells | src/identity.rs:39-46 | bytes are the signed bytes of a text exactly if the last 8 are the id and the 8 before them the time, least byte first, and the rest the UTF-8 of author and text |
| Identity.VerifyIff | src/identity.rs:29-37 | a text verifies exactly if key and signature have 32 and 64 bytes and the scheme accepts the signature of those bytes |
| Identity.SignedDataDetermines | src/identity.rs:39-46 | two contents have equal signed bytes exactly when time, id and the concatenation of author and text are equal |
| Identity.Utf8Injective | src/identity.rs:41-42 | different texts have different UTF-8 bytes |
| PayArgs.ParsePrint | src/client.rs:309 | every u64 printed in decimal parses back to itself |
| PayArgs.ParseOverflows | src/client.rs:309 | a decimal beyond u64 is refused, not wrapped |
| PayArgs.WebPayRoundTrip | src/client.rs:138-140 | a payment ordered on the web page is carried out with exactly its amount and trimmed destination, or refused, and refused exactly when other than white space follows the first blank |
| PayArgs.CommandMeans | src/client.rs:301-312 | a typed command is an order for a destination and an amount exactly if it is: white space, a destination without blanks and without white space at its ends, white space, a blank, white space, an optional plus sign, digits that denote the amount, white space; the amount is positive and below 2^64 |
| PayArgs.SpaceIsWhite | src/client.rs:308-309 | trimming takes off the 25 characters Unicode calls white space, and no others |
| Wallet.Wallet.Debit | src/wallet.rs:73-79 | takes the amount exactly if the balance covers it |
| Wallet.Wallet.Credit | src/wallet.rs:82-84 | adds the amount modulo 2^64 |
| Relays.RelayNode.constructor | src/relay.rs:62-63 | a relay starts with no peers and an empty cache of 10000 ids |
| Relays.RelayNode.Find | src/relay.rs:197-206 | returns the first peer, in iteration order, with the peer id or BTC address |
| Relays.FindPeerFinds | src/relay.rs:197-206 | the peer found is the first in iteration order with this peer id or BTC address, and none is found exactly if no peer has it |
| Relays.RelayNode.Broadcast | src/relay.rs:209-216 | one copy to each peer except the excluded address |
| Relays.RelayNode.HandleMessage | src/relay.rs:121-194 | the new state and the datagrams sent are those of the relay function, for every kind of message |
| Relays.RegisterReplaces | src/relay.rs:129-137 | a registration sets the entry of its sender to exactly its name, stamp and BTC address, whatever was there, and changes nothing else |
| Relays.TextForwardedIff | src/relay.rs:139-154 | a text is forwarded exactly if its id is new, it verifies and has ttl left: one copy to each peer but the sender, alike but for a ttl of one less; a new id is remembered in any case |
| Relays.RoutedUnchanged | src/relay.rs:156-181 | a payment or acknowledgement goes unchanged to one peer registered under its name, or to every peer but the sender if there is none, and leaves the relay as it was |
| Relays.RelayNode.Reply | src/relay.rs:183-190 | a relay asked for the address of a peer id tells the first one in iteration order, to the asker |
| Relays.AnsweredIff | src/relay.rs:183-190 | it keeps silent exactly if no peer has that id, and only tells addresses registered under it; BTC addresses are not looked up |
| Relays.RelayNode.SayLine | src/relay.rs:98-118 | a relay's own text is marked as seen and sent to every peer |
| Relays.RelayNode.RegisterWithPeers | src/relay.rs:218-250 | one registration to each peer relay, under the relay's prefixed name |
| Relays.RelayNode.Cleanup | src/relay.rs:252-265 | keeps exactly the entries the sweep's condition retains |
| Relays.RetainedExactly | src/relay.rs:258-262 | an entry stays exactly if it was seen within the last minute, in wrapping u64 arithmetic |
| Clients.ClientNode.PushMessage | src/app_state.rs:43-54 | the feed is the last 500 of everything displayed |
| Clients.ClientNode.HandleMsg | src/client.rs:176-254 | the new state and the datagrams sent are those of the client function, for every kind of message |
| Clients.PaymentReceivedIff | src/client.rs:198-230 | a payment with a new key is credited, saved, displayed and acknowledged to every relay exactly if it is made out to the client's peer id, fingerprint or BTC address; otherwise nothing changes |
| Clients.AckReceivedIff | src/client.rs:232-250 | an acknowledgement with a new key is displayed exactly if it is for one of the three names; otherwise nothing changes |
| Clients.TextShownIff | src/client.rs:178-196 | a text is displayed exactly if its id is new and it verifies; a new id is remembered in any case |
| Clients.ClientNode.SendMsg | src/client.rs:262-299 | a text goes to every relay with ttl 16 and is displayed |
| Clients.ClientNode.DoPay | src/client.rs:301-343 | nothing happens unless the command parses and the balance covers it; otherwise debit, save, send, display |
| Clients.ClientNode.RegisterWithRelays | src/client.rs:345-376 | one registration to each relay with peer id and BTC address |
| Flood.FloodStep | src/relay.rs:139-154 | if routes fit, any step keeps: every copy's ttl is paid for by a route of distinct accepting relays, peers of accepting relays are reached or about to be, displays are counted right |
| Flood.Coverage | src/relay.rs:139-154 | if no route of distinct relays from the author is longer than 16, or 17 for a relay's text, every relay on a route from the author accepts the text and every other client there displays it exactly once, in every quiescent state of every run |
| Flood.SmallFederationsFit | src/relay.rs:149-153 | this holds wherever there are no more relays than that |
| Flood.TtlCountsRelays | src/relay.rs:149-153 | on any federation, a forwarded copy is on a link of its sender and carries ttl 16 less the length of a route of distinct accepting relays that leads there from the author; one more if a relay wrote it |
| Flood.RoomKeepsSeen | src/relay.rs:33-41 | no cache loses the id of a text before some cache has accepted more than it has room for |
| FloodBound.CanStarveIff | src/relay.rs:149-153 | from every state with a fresh id, some run brings a relay that has not seen the text a copy without ttl exactly if some route of distinct relays from the author is too long |
| FloodBound.LongRouteMisses | src/relay.rs:139-154 | a client that only the end of such a route serves can miss the text for good: some run ends with no copy in flight and nothing displayed |
| FloodBound.CoverageIff | src/relay.rs:139-154 | where every relay has a client of its own, every quiescent run reaches everyone exactly if no route is too long |
| FloodBound.SeventeenRelaysTooMany | src/relay.rs:149-153 | there is a system of 17 relays in which a client two hops from a client author can miss its text |
| FloodBound.EighteenRelaysTooMany | src/relay.rs:98-118 | and one of 18 relays for the text of a relay |
| Echo.NoEcho | src/relay.rs:209-216 | a client with one relay never has its own text sent back to it nor displays it as received, if that relay does not evict the id |
| Echo.EchoIff | src/client.rs:262-299 | since a client does not mark its own ids, some run displays its text to itself as received exactly if it lists itself or a route of 2 to 16 distinct relays leads from it to one that has it registered |
| Echo.TwoLinkedRelaysEcho | src/client.rs:262-299 | so a client with two relays, of which one has the other and that one the client registered, can get its text back |
| Termination.StepLowersPotential | src/relay.rs:149-153 | every delivery of a text lowers the weight in flight, whatever caches forget |
| Termination.DeliveriesBounded | src/relay.rs:139-154 | deliveries of texts in any run are bounded by the weight in flight at first and injected |
| Termination.InjectionsBounded | src/relay.rs:149-153 | in every run that starts without texts in flight, each copy of a text sent by a user or duplicated causes at most W(16) deliveries, with W(0) = 1 and W(t) = 1 + n W(t-1) |
| Forgery.ForgeriesStop | src/relay.rs:142-154 | over any run, a text in flight that does not verify was in flight at first on the same link |
| Forgery.ShownWasSigned | src/client.rs:181-196 | whatever a client displays as received in a run bears a signature that verifies for its author, text and id |
| Ledger.StepConservesIff | src/client.rs:198-212 | a step from a sound state keeps balances plus uncredited payments exactly when it is not a credit of a payment whose receipt is already displayed |
| Ledger.SecondCreditIff | src/client.rs:204-205 | in any run, such a second credit is exactly the redelivery of a displayed payment whose key the payee's cache held and has evicted |
| Ledger.NextStepConservesIff | src/client.rs:198-212 | so the next step of a run keeps the total exactly when it does not redeliver a credited payment whose key was evicted |
| Ledger.SecondCreditGains | src/client.rs:207-208 | a second credit that does not wrap raises the total by exactly the amount |
| Ledger.LedgerStep | src/client.rs:198-230 | every other step keeps: each client's log shows exactly its issued and credited payments, once each, and all payments in flight are recorded |
| Ledger.Conservation | src/client.rs:198-331 | in every state of every run with fresh payment ids, one owner a name and no copy of a payment arriving after the eviction of its key, balances plus uncredited payments equal the initial total |
| Ledger.SmallRunsConserve | src/client.rs:32-40 | every run with fresh payment ids in which no cache accepts more than it has room for meets that condition and conserves the total |
| Eviction.SecondCreditHappens | src/client.rs:198-212 | the condition is needed: after such a run, with one datagram duplicated and 10000 signed texts, the next step credits a payment again and raises the total |
| Ledger.CreditNeverOverflows | src/wallet.rs:82-84 | every credit of such a run stays below 2^64 and adds exactly the amount |
| Acks.SecondConfirmationIff | src/client.rs:238-239 | in any run, a confirmation is displayed again exactly when a copy of a displayed acknowledgement comes after the eviction of its key |
| Acks.AckCausality | src/client.rs:223-250 | in every run in which no copy comes after the eviction of its key: an acknowledgement in flight or displayed means one debit at its addressee and one credit at its sender, and no payer displays two for one payment |
| Crash.PayingIsMakePayment | src/client.rs:314-331 | the single steps of paying, uninterrupted, make up the client's payment |
| Crash.ReceivingIsHandle | src/client.rs:198-230 | the single steps of receiving a payment, uninterrupted - accept, credit, save, display and acknowledge - make up the client's handling of it, state and datagrams |
| Crash.CrashSafety | src/client.rs:207-331 | with crashes between any two steps, saved balances plus payments sent and not durably credited never exceed the initial total, provided no client crashes, or evicts the key, while a copy of a payment it durably credited is in flight to it |
| CrashGain.TooEarlyIff | src/client.rs:204-212 | that proviso is exact, for every step: it is such a crash or eviction exactly if afterwards steps that are not can raise what survives |
| Crash.SecondCreditGains | src/client.rs:205-212 | crediting a durably credited payment again adds exactly its amount |
| CrashGain.OneEarlyCrashIsEnough | src/client.rs:205-212 | and such a step is reachable: a run without any, one early crash, and another run without any leave more in the files than at first |
| Registry.RegistryStep | src/relay.rs:129-137 | peer tables and registrations in flight keep naming whoever is at the address |
| Routing.RelayContinues | src/relay.rs:156-181 | a relay on the path sends a payment or acknowledgement to the next node of the path or straight to the owner of its destination name |
| Routing.StaysOnItsWay | src/relay.rs:156-216 | while no copy is lost, a routed message stays under way until it arrives |
| Routing.PaymentRoundTrip | src/client.rs:198-250 | on a federation of any shape that loses no copy of it, keeps its routes registered, has no message with a clashing dedup key and sees no copy after the eviction of its key, a payment to a peer id, BTC address or fingerprint is credited exactly once, by the owner of the name and no one else, and its payer displays the acknowledgement, also exactly once |
| Routing.FingerprintIsPaid | src/client.rs:198-202 | in particular a payment whose destination is the payee's fingerprint is credited by that payee once and confirmed to its payer |
| Routing.ReturnedIff | src/relay.rs:160-167 | a relay returns a message to the client it came from exactly if it is addressed to its peer id or BTC address |
| PaymentTermination.StepLowersMeasure | src/relay.rs:156-181 | if the links between relays have no closed walk that never turns straight back, each delivery of a payment or acknowledgement lowers a measure, including the acknowledgements it triggers; issuing a payment or duplicating a copy raises it by a constant |
| PaymentTermination.PaymentFloodingTerminates | src/relay.rs:156-216 | then, through registrations, sweeps, loss and duplication, the deliveries of payments and acknowledgements are bounded by a constant for each payment issued and one for each copy duplicated |
| Strays.StraysDieOutIff | src/relay.rs:156-216 | the deliveries a payment for no one can cause are bounded exactly if the links between relays have no such closed walk |
| Loops.LoopFreeIff | src/relay.rs:209-216 | without self-registration such walks exist exactly if there is a ring of three or more distinct relays, each with the next one registered |
| PaymentCycle.CyclesCirculateForever | src/relay.rs:156-168 | in any system, a payment or acknowledgement in flight along such a closed walk of relays that do not know its name can be delivered along it in any number of consecutive steps |
| PaymentCycle.LoopsHaveNoBound | src/relay.rs:156-168 | a run that brings a message there can be continued by any number of deliveries without issuing or duplicating anything |
| PaymentCycle.OnePaymentCirculates | src/relay.rs:156-168 | and such a run exists: one payment, no duplicates, at least n deliveries, for every n |
| Liveness.LivePeerSafeIff | src/relay.rs:233-265 | a peer, client or relay, whose heartbeats are what it registers with at that second and are handled by the relay like any message, survives every sweep exactly if deliveries take less than 30 seconds, whatever other addresses send |
| Liveness.EntriesStayYoung | src/relay.rs:252-262 | no entry is stamped in the future or ever 90 seconds old |
| NatDetector.SingleSend | src/nat_detector/util.rs:278-319 | the first reply among two attempts, unless an error reply comes before it |
| NatDetector.NatDetect | src/nat_detector/util.rs:132-256 | the verdict of the decision procedure on any network |
| NatDetector.FailsIff | src/nat_detector/util.rs:154-169 | there is no verdict exactly if the first reply lacks the mapped or the changed address, or the reply from the changed address, where it is asked for, lacks the mapped one |
| NatDetector.VerdictBehindNat | src/nat_detector/util.rs:193-252 | what a host behind a NAT of each type is told, by which of the four exchanges survive and whether the server tells its other address |
| NatDetector.Classifies | src/nat_detector/util.rs:132-256 | if one attempt of each exchange survives and the server tells its other address, the verdict is the NAT's type, for every mapping and every such server |
| NatDetector.NeverTooOptimistic | src/nat_detector/util.rs:64-77 | whatever is lost, the verdict weighs no more than the NAT's type, and there is one exactly if the server tells its other address or the first exchange is lost |
| NatDetector.VerdictInPublic | src/nat_detector/util.rs:159-191 | what a host without a NAT is told, by which exchanges survive |
| NatDetector.PublicVerdictRightIff | src/nat_detector/util.rs:182-191 | it is told its true type exactly if it has no firewall, the server tells its other address, the first test survives and both attempts of the second are lost |
| NatDetector.DetectWithServers | src/nat_detector/util.rs:79-120 | elects the first of the eight types, from OpenInternet down to Unknown, that some server reported, and the address of the last server that reported one; fails if a task died or none reported |
| NatDetector.VoteIsMostOpen | src/nat_detector/util.rs:64-77 | the type of maximal weight is the first reported one in that order, spelled out |
| NatDetector.PublicVote | src/nat_detector/util.rs:99-117 | a host without a NAT is told by the vote that it has no firewall exactly if some server answers completely and its second test goes unheard there, else that it has one exactly if some server answers completely, else that it is blocked |
| NatDetector.VoteUnique | src/nat_detector/util.rs:115-117 | the outcome of the vote does not depend on the order of the tally |
| NatDetector.VoteIsRight | src/nat_detector/util.rs:99-117 | one server whose exchanges survive makes the vote over any list exactly right: the NAT's type, and an address it gave one of the sockets, although it may map the socket of each server differently |
| NatDetector.VoteIsSafe | src/nat_detector/util.rs:99-117 | whatever is lost, the vote never claims a more open NAT than the true one, and is held exactly if there is a server |

## Left out

- The web interface, server-sent events, console output, command line and log lines.
- Sockets, timers and key files; a failed send is a lost datagram, and a heartbeat may happen at any step.
- Ed25519, secp256k1, hashing, Base58, fingerprints, bincode, JSON and STUN encodings: signatures are an abstract predicate, names are given, STUN replies are records.
- The address fields of messages that no branch reads, and the timestamps of displayed events.
- Sending `Connect` and `AskForAddr`, which nothing in the repository does: in a run they occur only if in flight at its start.
- A sweep that runs between the lookup and the broadcast of one message: handling a datagram is atomic here.
- Forged traffic: every text in a run is sent by `ClientSay` or `RelaySay` with a valid signature, and ids of different texts differ where a theorem needs it.
- STUN replies that arrive after their exchange has timed out, host name resolution, and I/O errors that end `nat_detect` before its first exchange.
- Reading a wallet file: a client starts from a given saved balance.
- Crash.CrashSafety: covers payments only, on a network that may bring any payment to any client, with atomic file writes, and not the early crashes and evictions for which it fails.
- CrashGain.TooEarlyIff: assumes that no amount in flight plus what survives reaches 2^64, since a credit that wraps loses money.
- FloodBound.CoverageIff: where some relay has no client of its own, a too long route still lets a relay fall silent (`CanStarveIff`), but whether anyone misses the text depends on who else serves them.
