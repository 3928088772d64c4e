// Weighing the datagrams in flight, and bounding what a run can do by the weight it loses.

module Weighing {
  import opened Network

  function Sum(w: Packet -> nat, net: seq<Packet>): nat {
    if net == [] then 0 else w(net[0]) + Sum(w, net[1..])
  }

  lemma {:induction false} SumAppend(w: Packet -> nat, net: seq<Packet>, more: seq<Packet>)
    ensures Sum(w, net + more) == Sum(w, net) + Sum(w, more)
  {
    if net == [] {
      assert net + more == more;
    } else {
      assert (net + more)[1..] == net[1..] + more;
      SumAppend(w, net[1..], more);
    }
  }

  lemma SumWithout(w: Packet -> nat, net: seq<Packet>, i: nat)
    requires i < |net|
    ensures Sum(w, net) == Sum(w, Without(net, i)) + w(net[i])
  {
    assert net == net[..i] + net[i..];
    SumAppend(w, net[..i], net[i..]);
    SumAppend(w, net[..i], net[i + 1..]);
    SumFirst(w, net[i..]);
    assert net[i..][1..] == net[i + 1..];
  }

  lemma SumFirst(w: Packet -> nat, net: seq<Packet>)
    requires net != []
    ensures Sum(w, net) == w(net[0]) + Sum(w, net[1..])
  {
  }

  lemma {:induction false} SumAtMost(w: Packet -> nat, net: seq<Packet>, bound: nat)
    requires forall i :: 0 <= i < |net| ==> w(net[i]) <= bound
    ensures Sum(w, net) <= |net| * bound
    decreases |net|
  {
    if net != [] {
      SumAtMost(w, net[1..], bound);
      assert |net| * bound == bound + |net[1..]| * bound;
    }
  }

  lemma Scale(a: nat, b: nat, w: nat)
    requires a <= b
    ensures a * w <= b * w
  {
  }

  lemma ScaleBy(w: nat, a: nat, b: nat)
    requires a <= b
    ensures w * a <= w * b
  {
  }

  // The most deliveries a copy can cause that makes at most t more hops and at each of them
  // becomes at most n copies.
  function Weight(n: nat, t: nat): nat {
    if t == 0 then 1 else 1 + n * Weight(n, t - 1)
  }

  lemma {:induction false} WeightMonotone(n: nat, t: nat, u: nat)
    requires t <= u
    ensures 1 <= Weight(n, t) <= Weight(n, u)
    decreases u
  {
    if t > 0 {
      var lower, upper := Weight(n, t - 1), Weight(n, u - 1);
      assert Weight(n, t) == 1 + n * lower && Weight(n, u) == 1 + n * upper;
      WeightMonotone(n, t - 1, u - 1);
      ScaleBy(n, lower, upper);
    }
  }
}
