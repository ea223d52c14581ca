/**
 The consumer of a push iterator: the yield function Go passes to an iter.Seq. It may be any
 stateful function, so its answer is an arbitrary function of everything it has been given.
 */
module Iteration {

  class Consumer<T> {
    const wants: seq<T> -> bool
    var seen: seq<T>

    constructor (wants: seq<T> -> bool)
      ensures this.wants == wants && seen == [] && Valid()
    {
      this.wants := wants;
      seen := [];
    }

    /** It was only ever called again after it had answered true. */
    ghost predicate Valid()
      reads this
    {
      forall n :: 0 < n < |seen| ==> wants(seen[..n])
    }

    /** Its last answer was false: nobody may call it again. */
    predicate Stopped()
      reads this
    {
      seen != [] && !wants(seen)
    }

    method Yield(x: T) returns (more: bool)
      requires Valid() && !Stopped()
      modifies this
      ensures Valid() && seen == old(seen) + [x] && more == !Stopped()
    {
      ghost var before := seen;
      seen := seen + [x];
      more := wants(seen);
      assert forall n :: 0 < n < |seen| ==> seen[..n] == before[..n];
      assert before == before[..|before|];
    }
  }

  function StopFrom<T>(all: seq<T>, wants: seq<T> -> bool, n: nat): (stop: nat)
    requires n <= |all|
    ensures n <= stop <= |all|
    decreases |all| - n
  {
    if n == |all| then n else if wants(all[..n + 1]) then StopFrom(all, wants, n + 1) else n + 1
  }

  /** What of `all` a consumer gets to see: up to the first answer false, or everything. */
  function Taken<T>(all: seq<T>, wants: seq<T> -> bool): seq<T> {
    all[..StopFrom(all, wants, 0)]
  }

  lemma {:induction false} StopFromIs<T>(all: seq<T>, wants: seq<T> -> bool, from: nat, stop: nat)
    requires from <= stop <= |all| && (from == stop ==> stop == |all|)
    requires forall n :: from < n < stop ==> wants(all[..n])
    requires stop == |all| || !wants(all[..stop])
    ensures StopFrom(all, wants, from) == stop
    decreases stop - from
  {
    if from + 1 < stop {
      assert wants(all[..from + 1]);
      StopFromIs(all, wants, from + 1, stop);
    }
  }

  /** A consumer that was served in order, and until it stopped or everything was served. */
  lemma SeenIsTaken<T>(c: Consumer<T>, all: seq<T>)
    requires c.Valid() && c.seen <= all && (c.Stopped() || c.seen == all)
    ensures c.seen == Taken(all, c.wants)
  {
    assert forall n :: 0 < n < |c.seen| ==> c.seen[..n] == all[..n];
    assert c.seen == all[..|c.seen|];
    StopFromIs(all, c.wants, 0, |c.seen|);
  }
}
