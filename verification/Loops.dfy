// Walks along links that never turn straight back, which is how payments travel from relay to
// relay. Without a closed one, every walk is short.

module Loops {
  import opened Messages
  import S = SeenIds

  // The first relay has the second one registered.
  type Link = (Addr, Addr)

  // What is received over one link is sent on over the other, but not back to the sender.
  predicate Joins(e: Link, next: Link) {
    e.1 == next.0 && next.1 != e.0
  }

  predicate IsWalk(links: set<Link>, walk: seq<Link>) {
    && (forall i :: 0 <= i < |walk| ==> walk[i] in links)
    && forall i :: 0 < i < |walk| ==> Joins(walk[i - 1], walk[i])
  }

  predicate IsLoop(links: set<Link>, loop: seq<Link>) {
    loop != [] && IsWalk(links, loop) && Joins(loop[|loop| - 1], loop[0])
  }

  ghost predicate LoopFree(links: set<Link>) {
    forall loop :: !IsLoop(links, loop)
  }

  // A walk that uses a link twice goes around a loop.
  lemma WalksFit(links: set<Link>, walk: seq<Link>)
    requires LoopFree(links) && IsWalk(links, walk)
    ensures |walk| <= |links|
  {
    if !S.NoRepeats(walk) {
      var i, j :| 0 <= i < j < |walk| && walk[i] == walk[j];
      var loop := walk[i..j];
      assert Joins(walk[j - 1], walk[j]);
      assert IsLoop(links, loop);
    } else {
      S.DistinctFit(walk, links);
    }
  }

  // ---------- the longest walk that ends in a link ----------

  ghost predicate WalkTo(links: set<Link>, e: Link, n: nat) {
    exists walk :: |walk| == n && walk != [] && IsWalk(links, walk) && walk[|walk| - 1] == e
  }

  // Its length, if that is at most n.
  ghost function Longest(links: set<Link>, e: Link, n: nat): (longest: nat)
    ensures longest <= n
    ensures longest > 0 ==> WalkTo(links, e, longest)
  {
    if n == 0 then 0 else if WalkTo(links, e, n) then n else Longest(links, e, n - 1)
  }

  lemma {:induction false} LongestIs(links: set<Link>, e: Link, n: nat, k: nat)
    requires k <= n && WalkTo(links, e, k)
    ensures k <= Longest(links, e, n)
  {
    if n > 0 && !WalkTo(links, e, n) {
      LongestIs(links, e, n - 1, k);
    }
  }

  // Going on makes it longer.
  lemma LongerOnwards(links: set<Link>, e: Link, next: Link)
    requires LoopFree(links) && Joins(e, next) && next in links
    ensures Longest(links, e, |links|) < Longest(links, next, |links|)
  {
    var n := Longest(links, e, |links|);
    var longer := [next];
    if n > 0 {
      var walk :| |walk| == n && walk != [] && IsWalk(links, walk) && walk[|walk| - 1] == e;
      longer := walk + [next];
    }
    assert IsWalk(links, longer);
    WalksFit(links, longer);
    assert WalkTo(links, next, n + 1);
    LongestIs(links, next, |links|, n + 1);
  }

  // ---------- loops are rings ----------

  // Three or more distinct relays, each with the next one registered.
  predicate IsRing(links: set<Link>, ring: seq<Addr>) {
    && |ring| >= 3
    && S.NoRepeats(ring)
    && forall i :: 0 <= i < |ring| ==> Edge(ring, i) in links
  }

  // The link from place i of a ring to the next place.
  function Edge(ring: seq<Addr>, i: nat): Link
    requires i < |ring|
  {
    (ring[i], if i + 1 == |ring| then ring[0] else ring[i + 1])
  }

  lemma RingIsLoop(links: set<Link>, ring: seq<Addr>)
    requires IsRing(links, ring)
    ensures !LoopFree(links)
  {
    var loop := seq(|ring|, i requires 0 <= i < |ring| => Edge(ring, i));
    assert forall i :: 0 <= i < |loop| ==> loop[i] == Edge(ring, i);
    assert IsLoop(links, loop);
  }

  lemma {:induction false} FirstRepeat(s: seq<Addr>) returns (i: nat, j: nat)
    requires !S.NoRepeats(s)
    ensures i < j < |s| && s[i] == s[j] && S.NoRepeats(s[..j])
  {
    var last := |s| - 1;
    if !S.NoRepeats(s[..last]) {
      i, j := FirstRepeat(s[..last]);
      assert s[..last][..j] == s[..j];
    } else {
      j := last;
      i :| 0 <= i < last && s[i] == s[last];
    }
  }

  lemma LoopHasRing(links: set<Link>, loop: seq<Link>) returns (ring: seq<Addr>)
    requires IsLoop(links, loop) && forall e :: e in links ==> e.0 != e.1
    ensures IsRing(links, ring)
  {
    var stops := seq(|loop|, i requires 0 <= i < |loop| => loop[i].0) + [loop[0].0];
    assert stops[0] == stops[|loop|];
    var i, j := FirstRepeat(stops);
    ring := stops[i..j];
    assert forall k :: 0 <= k < |loop| ==> loop[k] == (stops[k], stops[k + 1]);
    assert forall k :: 0 <= k < |ring| ==> ring[k] == stops[i + k] && ring[k] == stops[..j][i + k];
    assert j != i + 1;
    assert j != i + 2 by {
      assert i + 1 < |loop| ==> Joins(loop[i], loop[i + 1]);
    }
    forall k | 0 <= k < |ring|
      ensures Edge(ring, k) in links
    {
      assert Edge(ring, k) == loop[i + k];
    }
  }

  // If no relay is registered with itself, closed walks that never turn back exist exactly if
  // there is a ring of distinct relays.
  lemma LoopFreeIff(links: set<Link>)
    requires forall e :: e in links ==> e.0 != e.1
    ensures LoopFree(links) <==> forall ring :: !IsRing(links, ring)
  {
    if ring :| IsRing(links, ring) {
      RingIsLoop(links, ring);
    } else if loop :| IsLoop(links, loop) {
      var ring := LoopHasRing(links, loop);
    }
  }
}
