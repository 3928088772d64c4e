// What the caches of a system remember over a run: every cache is the sliding window of the
// keys offered to it, so a key is forgotten only after many acceptances.

module Memory {
  import opened Words
  import opened Messages
  import opened DedupKeys
  import opened Network
  import Identity
  import S = SeenIds
  import R = Relays
  import C = Clients

  // The keys a step offers to the cache of node a: one or none.
  function Offered(s: System, act: Action, a: Addr): seq<u64>
    requires IsNode(s, a)
  {
    if act.RelaySay? && act.who == a && act.msg.Classic? then [act.msg.msgId]
    else if act.Deliver? && act.i < |s.net| && s.net[act.i].dst == a then OfferedBy(s.nodes[a], s.net[act.i].msg)
    else []
  }

  function OfferedBy(n: Node, m: Message): seq<u64> {
    if m.Classic? then [Key(Text, m.msgId)]
    else if n.ClientNode? && m.Payment? && C.Owns(n.client, m.dstId) then [Key(Pay, m.paymentId)]
    else if n.ClientNode? && m.PaymentAck? && C.Owns(n.client, m.toId) then [Key(Ack, m.paymentId)]
    else []
  }

  lemma AdmitAllOne(queue: seq<u64>, x: u64)
    ensures S.AdmitAll(queue, CACHE_SIZE, [x]) == S.Admit(queue, CACHE_SIZE, x)
    ensures S.AdmitAll(queue, CACHE_SIZE, []) == queue
  {
    assert [x][1..] == [];
  }

  lemma ClientCacheAfter(scheme: Identity.Scheme, c: C.Client, m: Message)
    ensures C.Handle(scheme, c, m).client.seen == S.AdmitAll(c.seen, CACHE_SIZE, OfferedBy(ClientNode(c), m))
  {
    var offers := OfferedBy(ClientNode(c), m);
    AdmitAllOne(c.seen, if offers == [] then 0 else offers[0]);
  }

  lemma RelayCacheAfter(scheme: Identity.Scheme, r: R.Relay, order: seq<Addr>, sender: Addr, m: Message)
    requires R.IsOrder(order, r.peers.Keys)
    ensures R.Handle(scheme, r, order, sender, m).relay.seen
         == S.AdmitAll(r.seen, CACHE_SIZE, OfferedBy(RelayNode(r), m))
  {
    AdmitAllOne(r.seen, if m.Classic? then m.msgId else 0);
  }

  // A step leaves in a cache what admitting the offered keys leaves.
  lemma CacheAfter(scheme: Identity.Scheme, s: System, act: Action, a: Addr)
    requires Enabled(scheme, s, act) && IsNode(s, a)
    ensures IsNode(Apply(scheme, s, act), a)
    ensures Seen(Apply(scheme, s, act).nodes[a]) == S.AdmitAll(Seen(s.nodes[a]), CACHE_SIZE, Offered(s, act, a))
  {
    AdmitAllOne(Seen(s.nodes[a]), if act.RelaySay? && act.msg.Classic? then act.msg.msgId else 0);
    if act.Deliver? && s.net[act.i].dst == a {
      if IsClient(s, a) {
        ClientCacheAfter(scheme, ClientAt(s, a), s.net[act.i].msg);
      } else {
        RelayCacheAfter(scheme, RelayAt(s, a), act.order, s.net[act.i].src, s.net[act.i].msg);
      }
    }
  }

  // ---------- runs ----------

  // Node a is there throughout the run.
  lemma {:induction false} NodeStays(scheme: Identity.Scheme, states: seq<System>, actions: seq<Action>, a: Addr,
                                     k: nat)
    requires IsRun(scheme, states, actions) && k <= |actions|
    ensures IsNode(states[k], a) <==> IsNode(states[0], a)
  {
    if k > 0 {
      NodeStays(scheme, states, actions, a, k - 1);
      assert StepAt(scheme, states, actions, k - 1);
      IdentityFixed(scheme, states[k - 1], actions[k - 1]);
    }
  }

  // The keys offered to node a by the steps from j on, before k.
  function OfferedBetween(states: seq<System>, actions: seq<Action>, a: Addr, j: nat, k: nat): seq<u64>
    requires j <= k <= |actions| && |states| == |actions| + 1
    decreases k
  {
    if j == k then []
    else
      OfferedBetween(states, actions, a, j, k - 1)
      + if IsNode(states[k - 1], a) then Offered(states[k - 1], actions[k - 1], a) else []
  }

  // How many keys the cache of node a accepts in the steps from j on, before k.
  function AcceptedBetween(states: seq<System>, actions: seq<Action>, a: Addr, j: nat, k: nat): nat
    requires j <= k <= |actions| && |states| == |actions| + 1 && IsNode(states[j], a)
  {
    S.Acceptances(Seen(states[j].nodes[a]), CACHE_SIZE, OfferedBetween(states, actions, a, j, k))
  }

  // Over any stretch of a run a cache is what admitting the keys offered to it leaves.
  lemma {:induction false} CacheBetween(scheme: Identity.Scheme, states: seq<System>, actions: seq<Action>, a: Addr,
                                        j: nat, k: nat)
    requires IsRun(scheme, states, actions) && j <= k <= |actions| && IsNode(states[j], a)
    ensures IsNode(states[k], a)
    ensures Seen(states[k].nodes[a])
         == S.AdmitAll(Seen(states[j].nodes[a]), CACHE_SIZE, OfferedBetween(states, actions, a, j, k))
    decreases k
  {
    if j < k {
      CacheBetween(scheme, states, actions, a, j, k - 1);
      assert StepAt(scheme, states, actions, k - 1);
      CacheAfter(scheme, states[k - 1], actions[k - 1], a);
      S.AdmitAllAppend(Seen(states[j].nodes[a]), CACHE_SIZE, OfferedBetween(states, actions, a, j, k - 1),
                       Offered(states[k - 1], actions[k - 1], a));
    }
  }

  lemma {:induction false} OfferedSplit(states: seq<System>, actions: seq<Action>, a: Addr, i: nat, j: nat, k: nat)
    requires i <= j <= k <= |actions| && |states| == |actions| + 1
    ensures OfferedBetween(states, actions, a, i, k)
         == OfferedBetween(states, actions, a, i, j) + OfferedBetween(states, actions, a, j, k)
    decreases k
  {
    if j < k {
      OfferedSplit(states, actions, a, i, j, k - 1);
    }
  }

  predicate KnownAt(states: seq<System>, j: int, a: Addr, key: u64) {
    0 <= j < |states| && IsNode(states[j], a) && key in Seen(states[j].nodes[a])
  }

  // The cache of node a has held this key at some time up to state k.
  ghost predicate Known(states: seq<System>, k: nat, a: Addr, key: u64) {
    exists j :: 0 <= j <= k && KnownAt(states, j, a, key)
  }

  // It has held the key and holds it no more: the key was evicted.
  ghost predicate Forgotten(states: seq<System>, k: nat, a: Addr, key: u64) {
    Known(states, k, a, key) && !KnownAt(states, k, a, key)
  }

  // A key a step brings into a cache is the last one the cache accepted.
  lemma NewKeyIsLast(scheme: Identity.Scheme, s: System, act: Action, a: Addr, key: u64)
    requires Enabled(scheme, s, act) && IsNode(s, a) && IsNode(Apply(scheme, s, act), a)
    requires key !in Seen(s.nodes[a]) && key in Seen(Apply(scheme, s, act).nodes[a])
    ensures var queue := Seen(Apply(scheme, s, act).nodes[a]); queue[|queue| - 1] == key
  {
    var before, offers := Seen(s.nodes[a]), Offered(s, act, a);
    CacheAfter(scheme, s, act, a);
    var x := if offers == [] then 0 else offers[0];
    AdmitAllOne(before, x);
    if offers != [] {
      assert offers == [x];
      NewIsOffered(before, x, key);
      S.AdmitContains(before, CACHE_SIZE, key);
    }
  }

  // A key is forgotten only after as many acceptances as the cache holds.
  lemma EvictionTakesAWindow(scheme: Identity.Scheme, states: seq<System>, actions: seq<Action>, a: Addr, key: u64,
                             j: nat, k: nat)
    requires IsRun(scheme, states, actions) && j < k <= |actions| && IsNode(states[j + 1], a)
    requires !KnownAt(states, j, a, key) && KnownAt(states, j + 1, a, key) && !KnownAt(states, k, a, key)
    ensures AcceptedBetween(states, actions, a, j + 1, k) >= 10_000
  {
    assert StepAt(scheme, states, actions, j);
    NodeStays(scheme, states, actions, a, j);
    NodeStays(scheme, states, actions, a, j + 1);
    NewKeyIsLast(scheme, states[j], actions[j], a, key);
    CacheBetween(scheme, states, actions, a, j + 1, k);
    var queue := Seen(states[j + 1].nodes[a]);
    if AcceptedBetween(states, actions, a, j + 1, k) < CACHE_SIZE {
      S.SurvivesWindow(queue, CACHE_SIZE, key, OfferedBetween(states, actions, a, j + 1, k), |queue| - 1);
    }
  }

  lemma NewIsOffered(queue: seq<u64>, x: u64, key: u64)
    requires key !in queue && key in S.Admit(queue, CACHE_SIZE, x)
    ensures key == x
  {
  }

  // Before a cache has accepted more keys than it has room for, it forgets nothing.
  lemma NothingForgottenYet(scheme: Identity.Scheme, states: seq<System>, actions: seq<Action>, a: Addr, key: u64,
                            k: nat)
    requires IsRun(scheme, states, actions) && k <= |actions| && IsNode(states[0], a)
    requires |Seen(states[0].nodes[a])| + AcceptedBetween(states, actions, a, 0, k) <= CACHE_SIZE
    ensures !Forgotten(states, k, a, key)
  {
    if Known(states, k, a, key) {
      var j :| 0 <= j <= k && KnownAt(states, j, a, key);
      var first, queue := Seen(states[0].nodes[a]), Seen(states[j].nodes[a]);
      var early, late := OfferedBetween(states, actions, a, 0, j), OfferedBetween(states, actions, a, j, k);
      CacheBetween(scheme, states, actions, a, 0, j);
      CacheBetween(scheme, states, actions, a, j, k);
      OfferedSplit(states, actions, a, 0, j, k);
      S.AdmitAllAppend(first, CACHE_SIZE, early, late);
      S.GrowsByAcceptances(first, CACHE_SIZE, early);
      var i :| 0 <= i < |queue| && queue[i] == key;
      S.SurvivesWindow(queue, CACHE_SIZE, key, late, i);
    }
  }
}
