// The dedup cache of relays and clients: a hash set and a FIFO queue of bounded length.
// The queue is compared with a sliding window over the ids accepted so far.

module SeenIds {
  import opened Words

  // A cache with max == 0 still holds one id: the queue is trimmed before the push.
  function Capacity(max: nat): nat {
    if max == 0 then 1 else max
  }

  // The queue after offering x.
  function Admit<T(==)>(queue: seq<T>, max: nat, x: T): seq<T> {
    if x in queue then queue
    else (if |queue| >= max && |queue| > 0 then queue[1..] else queue) + [x]
  }

  // The queue after offering a whole history.
  function QueueAfter<T(==)>(history: seq<T>, max: nat): seq<T> {
    if history == [] then []
    else Admit(QueueAfter(history[..|history| - 1], max), max, history[|history| - 1])
  }

  function LastN<T>(s: seq<T>, n: nat): seq<T> {
    if |s| <= n then s else s[|s| - n..]
  }

  // The reference filter: keep an id unless it is one of the last `window` ids kept.
  function Accepted<T(==)>(history: seq<T>, window: nat): seq<T> {
    if history == [] then []
    else
      var kept := Accepted(history[..|history| - 1], window);
      var x := history[|history| - 1];
      if x in LastN(kept, window) then kept else kept + [x]
  }

  predicate NoRepeats<T(==)>(s: seq<T>) {
    forall i, j :: 0 <= i < j < |s| ==> s[i] != s[j]
  }

  // A sequence without repeats is no longer than a set that holds its elements.
  lemma {:induction false} DistinctFit<T>(s: seq<T>, elements: set<T>)
    requires NoRepeats(s) && forall i :: 0 <= i < |s| ==> s[i] in elements
    ensures |s| <= |elements|
    decreases |s|
  {
    if s != [] {
      DistinctFit(s[..|s| - 1], elements - {s[|s| - 1]});
    }
  }

  // The bounded queue is exactly the window of the last accepted ids.
  lemma {:induction false} QueueIsWindow<T>(history: seq<T>, max: nat)
    ensures QueueAfter(history, max) == LastN(Accepted(history, Capacity(max)), Capacity(max))
  {
    if history != [] {
      var before := history[..|history| - 1];
      QueueIsWindow(before, max);
      AdmitIsWindow(Accepted(before, Capacity(max)), max, history[|history| - 1]);
    }
  }

  lemma AdmitIsWindow<T>(kept: seq<T>, max: nat, x: T)
    ensures var window := Capacity(max);
            Admit(LastN(kept, window), max, x)
            == LastN(if x in LastN(kept, window) then kept else kept + [x], window)
  {
  }

  // Two acceptances of one id are separated by at least a window of other acceptances.
  lemma {:induction false} AcceptancesApart<T>(history: seq<T>, window: nat, i: nat, j: nat)
    requires i < j < |Accepted(history, window)|
    requires Accepted(history, window)[i] == Accepted(history, window)[j]
    ensures j - i > window
  {
    var before := history[..|history| - 1];
    var kept := Accepted(before, window);
    if j < |kept| {
      AcceptancesApart(before, window, i, j);
    } else {
      InWindow(kept, window, i);
    }
  }

  lemma InWindow<T>(s: seq<T>, n: nat, i: nat)
    requires i < |s|
    ensures |s| - i <= n ==> s[i] in LastN(s, n)
  {
    if n < |s| && |s| - i <= n {
      assert LastN(s, n)[i - (|s| - n)] == s[i];
    }
  }

  // What the filter keeps was offered.
  lemma {:induction false} AcceptedWereOffered<T>(history: seq<T>, window: nat, x: T)
    ensures x in Accepted(history, window) ==> x in history
  {
    if history != [] {
      AcceptedWereOffered(history[..|history| - 1], window, x);
    }
  }

  function Image<T, U>(f: T -> U, s: seq<T>): (r: seq<U>)
    ensures |r| == |s| && forall i :: 0 <= i < |s| ==> r[i] == f(s[i])
  {
    seq(|s|, i requires 0 <= i < |s| => f(s[i]))
  }

  ghost predicate InjectiveOn<T, U>(f: T -> U, s: seq<T>) {
    forall x, y :: x in s && y in s && f(x) == f(y) ==> x == y
  }

  lemma ImageMember<T, U>(f: T -> U, s: seq<T>, x: T)
    requires forall y :: y in s && f(y) == f(x) ==> y == x
    ensures f(x) in Image(f, s) <==> x in s
  {
    if f(x) in Image(f, s) {
      var i :| 0 <= i < |s| && Image(f, s)[i] == f(x);
      assert s[i] in s;
    }
    if x in s {
      var i :| 0 <= i < |s| && s[i] == x;
      assert Image(f, s)[i] == f(x);
    }
  }

  lemma KeepByKey<T, U>(f: T -> U, kept: seq<T>, x: T, window: nat)
    requires forall y :: y in kept && f(y) == f(x) ==> y == x
    ensures var keys := Image(f, kept);
            (if f(x) in LastN(keys, window) then keys else keys + [f(x)])
            == Image(f, if x in LastN(kept, window) then kept else kept + [x])
  {
    var recent := LastN(kept, window);
    assert LastN(Image(f, kept), window) == Image(f, recent);
    assert forall y :: y in recent ==> y in kept;
    ImageMember(f, recent, x);
    assert Image(f, kept + [x]) == Image(f, kept) + [f(x)];
  }

  // Filtering by an injective key is filtering by the thing itself.
  lemma {:induction false} FilterByKey<T, U>(f: T -> U, history: seq<T>, window: nat)
    requires InjectiveOn(f, history)
    ensures Accepted(Image(f, history), window) == Image(f, Accepted(history, window))
  {
    if history == [] {
      assert Image(f, history) == [];
    } else {
      var before, x := history[..|history| - 1], history[|history| - 1];
      FilterByKey(f, before, window);
      assert Image(f, history)[..|history| - 1] == Image(f, before);
      var kept := Accepted(before, window);
      forall y | y in kept && f(y) == f(x)
        ensures y == x
      {
        AcceptedWereOffered(before, window, y);
      }
      KeepByKey(f, kept, x, window);
    }
  }

  // The queue never repeats an id and never outgrows the capacity.
  lemma {:induction false} QueueShape<T>(history: seq<T>, max: nat)
    ensures NoRepeats(QueueAfter(history, max))
    ensures |QueueAfter(history, max)| <= Capacity(max)
  {
    if history != [] {
      QueueShape(history[..|history| - 1], max);
      AdmitShape(QueueAfter(history[..|history| - 1], max), max, history[|history| - 1]);
    }
  }

  lemma AdmitShape<T>(queue: seq<T>, max: nat, x: T)
    requires NoRepeats(queue) && |queue| <= Capacity(max)
    ensures NoRepeats(Admit(queue, max, x)) && |Admit(queue, max, x)| <= Capacity(max)
    ensures x in Admit(queue, max, x)
  {
    assert Admit(queue, max, x)[|Admit(queue, max, x)| - 1] == x || x in queue;
  }

  function AdmitAll<T(==)>(queue: seq<T>, max: nat, offers: seq<T>): seq<T>
    decreases |offers|
  {
    if offers == [] then queue else AdmitAll(Admit(queue, max, offers[0]), max, offers[1..])
  }

  // How many of the offers are accepted.
  function Acceptances<T(==)>(queue: seq<T>, max: nat, offers: seq<T>): nat
    decreases |offers|
  {
    if offers == [] then 0
    else (if offers[0] in queue then 0 else 1) + Acceptances(Admit(queue, max, offers[0]), max, offers[1..])
  }

  // An id k places from the end of the queue survives as many acceptances as the capacity
  // leaves room for behind it; so the id accepted last survives capacity - 1 others.
  lemma {:induction false} SurvivesWindow<T>(queue: seq<T>, max: nat, x: T, offers: seq<T>, k: nat)
    requires k < |queue| && queue[k] == x
    requires |queue| - k + Acceptances(queue, max, offers) <= Capacity(max)
    ensures x in AdmitAll(queue, max, offers)
    decreases |offers|
  {
    if offers != [] {
      var next := Admit(queue, max, offers[0]);
      if offers[0] in queue {
        SurvivesWindow(next, max, x, offers[1..], k);
      } else if |queue| >= max && |queue| > 0 {
        assert next[k - 1] == x;
        SurvivesWindow(next, max, x, offers[1..], k - 1);
      } else {
        assert next[k] == x;
        SurvivesWindow(next, max, x, offers[1..], k);
      }
    }
  }

  lemma {:induction false} AdmitAllAppend<T>(queue: seq<T>, max: nat, offers: seq<T>, more: seq<T>)
    ensures AdmitAll(queue, max, offers + more) == AdmitAll(AdmitAll(queue, max, offers), max, more)
    ensures Acceptances(queue, max, offers + more)
         == Acceptances(queue, max, offers) + Acceptances(AdmitAll(queue, max, offers), max, more)
    decreases |offers|
  {
    if offers == [] {
      assert offers + more == more;
    } else {
      assert (offers + more)[0] == offers[0] && (offers + more)[1..] == offers[1..] + more;
      AdmitAllAppend(Admit(queue, max, offers[0]), max, offers[1..], more);
    }
  }

  // The queue grows only by acceptances.
  lemma {:induction false} GrowsByAcceptances<T>(queue: seq<T>, max: nat, offers: seq<T>)
    ensures |AdmitAll(queue, max, offers)| <= |queue| + Acceptances(queue, max, offers)
    decreases |offers|
  {
    if offers != [] {
      GrowsByAcceptances(Admit(queue, max, offers[0]), max, offers[1..]);
    }
  }

  lemma AdmitContains<T>(queue: seq<T>, max: nat, x: T)
    ensures x in Admit(queue, max, x)
    ensures x !in queue ==> Admit(queue, max, x)[|Admit(queue, max, x)| - 1] == x
  {
    assert x !in queue ==> Admit(queue, max, x)[|Admit(queue, max, x)| - 1] == x;
  }

  function Elements<T(==)>(s: seq<T>): set<T> {
    set x | x in s
  }

  lemma ElementsPop<T>(s: seq<T>)
    requires NoRepeats(s) && s != []
    ensures Elements(s[1..]) == Elements(s) - {s[0]}
  {
    assert s == [s[0]] + s[1..];
    assert forall k :: 0 <= k < |s[1..]| ==> s[1..][k] == s[k + 1];
  }

  lemma ElementsPush<T>(s: seq<T>, x: T)
    ensures Elements(s + [x]) == Elements(s) + {x}
  {
  }

  class SeenIds {
    var members: set<u64>
    var queue: seq<u64>
    const max: nat
    ghost var history: seq<u64>

    ghost predicate Valid()
      reads this
    {
      && queue == QueueAfter(history, max)
      && NoRepeats(queue)
      && |queue| <= Capacity(max)
      && members == Elements(queue)
    }

    constructor (max: nat)
      ensures Valid() && this.max == max && queue == [] && history == []
    {
      this.max := max;
      members, queue, history := {}, [], [];
    }

    // Answers false exactly for an id among the last accepted ones.
    method IsNew(id: u64) returns (isNew: bool)
      requires Valid()
      modifies this
      ensures Valid()
      ensures history == old(history) + [id]
      ensures isNew == (id !in old(queue))
      ensures isNew == (id !in LastN(Accepted(old(history), Capacity(max)), Capacity(max)))
      ensures queue == Admit(old(queue), max, id)
    {
      QueueIsWindow(history, max);
      AdmitShape(queue, max, id);
      history := history + [id];
      assert QueueAfter(history, max) == Admit(queue, max, id) by {
        assert history[..|history| - 1] == old(history);
      }
      if id in members {
        return false;
      }
      if |queue| >= max {
        if |queue| > 0 {
          var oldest := queue[0];
          ElementsPop(queue);
          queue := queue[1..];
          members := members - {oldest};
        }
      }
      ElementsPush(queue, id);
      members := members + {id};
      queue := queue + [id];
      return true;
    }
  }
}
