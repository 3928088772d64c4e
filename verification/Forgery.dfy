// Texts that do not verify: no relay passes one on, and no client displays one.

module Forgery {
  import opened Messages
  import opened Network
  import Identity
  import R = Relays
  import C = Clients

  predicate IsForged(scheme: Identity.Scheme, m: Message) {
    && m.Classic?
    && !Identity.Verify(scheme, m.publicKey, m.srcId, m.txt, m.time, m.msgId, m.signature)
  }

  // No step puts a forged text on the wire that was not there.
  lemma NothingForged(scheme: Identity.Scheme, s: System, act: Action, p: Packet)
    requires Enabled(scheme, s, act) && p in Apply(scheme, s, act).net && IsForged(scheme, p.msg)
    ensures p in s.net
  {
    InNetAfter(scheme, s, act, p);
    if p in Emitted(scheme, s, act) && act.Deliver? && IsRelay(s, s.net[act.i].dst) {
      RelaySendsVerified(scheme, s, act, p);
    }
  }

  lemma RelaySendsVerified(scheme: Identity.Scheme, s: System, act: Action, p: Packet)
    requires Enabled(scheme, s, act) && act.Deliver? && IsRelay(s, s.net[act.i].dst)
    requires p in Emitted(scheme, s, act)
    ensures !IsForged(scheme, p.msg)
  {
    var q := s.net[act.i];
    var r := RelayAt(s, q.dst);
    if q.msg.Classic? {
      R.TextForwardedIff(scheme, r, act.order, q.src, q.msg);
    } else if q.msg.Payment? || q.msg.PaymentAck? {
      R.RoutedUnchanged(scheme, r, act.order, q.src, q.msg);
    }
  }

  // A forged text in flight was sent by no node: over any run of relays and clients it gets no
  // farther than the link it was put on.
  lemma {:induction false} ForgeriesStop(scheme: Identity.Scheme, states: seq<System>, actions: seq<Action>, k: nat,
                                         p: Packet)
    requires IsRun(scheme, states, actions) && k <= |actions|
    requires p in states[k].net && IsForged(scheme, p.msg)
    ensures p in states[0].net
  {
    if k > 0 {
      assert StepAt(scheme, states, actions, k - 1);
      NothingForged(scheme, states[k - 1], actions[k - 1], p);
      ForgeriesStop(scheme, states, actions, k - 1, p);
    }
  }

  // This text, by this author, is signed by someone.
  ghost predicate IsSigned(scheme: Identity.Scheme, line: C.Line)
    requires line.Shown?
  {
    exists m: Message ::
      && m.Classic?
      && m.msgId == line.msgId && m.srcId == line.srcId && m.txt == line.text
      && Identity.Verify(scheme, m.publicKey, m.srcId, m.txt, m.time, m.msgId, m.signature)
  }

  lemma ShowsSigned(scheme: Identity.Scheme, s: System, act: Action, a: Addr, line: C.Line)
    requires Enabled(scheme, s, act) && IsClient(s, a) && IsClient(Apply(scheme, s, act), a)
    requires line in ClientAt(Apply(scheme, s, act), a).log && line !in ClientAt(s, a).log && line.Shown?
    ensures IsSigned(scheme, line)
  {
    LogAfter(scheme, s, act, a);
    assert line in Displayed(scheme, s, act, a);
    var m := s.net[act.i].msg;
    C.TextShownIff(scheme, ClientAt(s, a), m);
    assert m.msgId == line.msgId && m.srcId == line.srcId && m.txt == line.text;
  }

  // Whatever a client displays as received in a run, someone signed.
  lemma {:induction false} ShownWasSigned(scheme: Identity.Scheme, states: seq<System>, actions: seq<Action>, a: Addr,
                                          line: C.Line, k: nat)
    requires IsRun(scheme, states, actions) && k <= |actions| && IsClient(states[0], a)
    requires IsClient(states[k], a) && line in ClientAt(states[k], a).log && line.Shown?
    ensures line in ClientAt(states[0], a).log || IsSigned(scheme, line)
  {
    if k > 0 {
      assert StepAt(scheme, states, actions, k - 1);
      IdentityFixed(scheme, states[k - 1], actions[k - 1]);
      assert SameIdentity(states[k - 1].nodes[a], states[k].nodes[a]);
      if line in ClientAt(states[k - 1], a).log {
        ShownWasSigned(scheme, states, actions, a, line, k - 1);
      } else {
        ShowsSigned(scheme, states[k - 1], actions[k - 1], a, line);
      }
    }
  }
}
