/** Starting and stopping a middleware chain: a start that fails is rolled back, and stopping goes backwards. */
module Lifecycle {

  /** What a hook does; a cancellation is not an `Exception` and passes through the handlers. */
  datatype Hook = Works | Throws | IsCancelled

  datatype Call = OnStart(i: nat) | OnStop(i: nat)

  datatype Outcome = Done | Raised | Cancelled

  /** The calls so far, followed by `on_start` of the first `n`. */
  function Up(calls: seq<Call>, n: nat): seq<Call> {
    if n == 0 then calls else Up(calls, n - 1) + [OnStart(n - 1)]
  }

  /** The calls so far, followed by `on_stop` from the `n`th backwards; only a cancellation ends that early. */
  function Down(calls: seq<Call>, n: nat, stop: nat -> Hook): seq<Call>
    decreases n
  {
    if n == 0 then calls
    else if stop(n - 1) == IsCancelled then calls + [OnStop(n - 1)]
    else Down(calls + [OnStop(n - 1)], n - 1, stop)
  }

  predicate CancelledBelow(n: nat, stop: nat -> Hook) {
    exists i :: 0 <= i < n && stop(i) == IsCancelled
  }

  class ChainLifecycle {
    const count: nat
    var calls: seq<Call>

    constructor (count: nat)
      ensures this.count == count && calls == []
    {
      this.count := count;
      calls := [];
    }

    method Stop(n: nat, stop: nat -> Hook) returns (cut: bool)
      modifies this
      ensures calls == Down(old(calls), n, stop) && cut == CancelledBelow(n, stop)
    {
      var i: nat := n;
      while i > 0
        invariant i <= n && Down(calls, i, stop) == Down(old(calls), n, stop)
        invariant forall j :: i <= j < n ==> stop(j) != IsCancelled
      {
        i := i - 1;
        calls := calls + [OnStop(i)];
        if stop(i) == IsCancelled {
          return true;
        }
      }
      return false;
    }

    /** The failing middleware is stopped too, then those started before it, last first. */
    method StartAll(start: nat -> Hook, stop: nat -> Hook) returns (outcome: Outcome, reached: nat)
      modifies this
      ensures reached <= count && forall i :: 0 <= i < reached ==> start(i) == Works
      ensures reached < count ==> start(reached) != Works
      ensures outcome == if reached == count then Done
                         else if start(reached) == IsCancelled || CancelledBelow(reached + 1, stop) then Cancelled
                         else Raised
      ensures reached == count ==> calls == Up(old(calls), count)
      ensures reached < count ==>
        var started := Up(old(calls), reached + 1);
        calls == if start(reached) == IsCancelled then started else Down(started, reached + 1, stop)
    {
      reached := 0;
      while reached < count
        invariant reached <= count && calls == Up(old(calls), reached)
        invariant forall i :: 0 <= i < reached ==> start(i) == Works
      {
        calls := calls + [OnStart(reached)];
        if start(reached) == IsCancelled {
          return Cancelled, reached;
        }
        if start(reached) == Throws {
          var cut := Stop(reached + 1, stop);
          return if cut then Cancelled else Raised, reached;
        }
        reached := reached + 1;
      }
      return Done, reached;
    }

    method StopAll(stop: nat -> Hook) returns (outcome: Outcome)
      modifies this
      ensures calls == Down(old(calls), count, stop)
      ensures outcome == if CancelledBelow(count, stop) then Cancelled else Done
    {
      var cut := Stop(count, stop);
      return if cut then Cancelled else Done;
    }
  }

  /** The middlewares started, in order. */
  function Starts(calls: seq<Call>): seq<nat> {
    if calls == [] then []
    else Starts(calls[..|calls| - 1]) + if calls[|calls| - 1].OnStart? then [calls[|calls| - 1].i] else []
  }

  /** The middlewares stopped, the last one first. */
  function StopsBackwards(calls: seq<Call>): seq<nat> {
    if calls == [] then []
    else (if calls[|calls| - 1].OnStop? then [calls[|calls| - 1].i] else []) + StopsBackwards(calls[..|calls| - 1])
  }

  lemma OneMore(calls: seq<Call>, c: Call)
    ensures Starts(calls + [c]) == if c.OnStart? then Starts(calls) + [c.i] else Starts(calls)
    ensures StopsBackwards(calls + [c]) == if c.OnStop? then [c.i] + StopsBackwards(calls) else StopsBackwards(calls)
  {
    assert (calls + [c])[..|calls|] == calls;
  }

  function Range(lo: nat, hi: nat): (r: seq<nat>)
    requires lo <= hi
    ensures |r| == hi - lo
  {
    if lo == hi then [] else Range(lo, hi - 1) + [hi - 1]
  }

  lemma {:induction false} UpIs(n: nat)
    ensures Starts(Up([], n)) == Range(0, n) && StopsBackwards(Up([], n)) == []
  {
    hide Starts;
    hide StopsBackwards;
    if n == 0 {
      NoCalls();
    } else {
      UpIs(n - 1);
      OneMore(Up([], n - 1), OnStart(n - 1));
    }
  }

  lemma NoCalls()
    ensures Starts([]) == [] && StopsBackwards([]) == []
  {
  }

  /** Where stopping the first `n` backwards ends: at the last cancelled stop, or at the first middleware. */
  function StoppedFrom(n: nat, stop: nat -> Hook): (m: nat)
    ensures m <= n && (n > 0 ==> m < n)
    ensures m == 0 <==> forall j :: 1 <= j < n ==> stop(j) != IsCancelled
  {
    if n == 0 then 0 else if stop(n - 1) == IsCancelled then n - 1 else StoppedFrom(n - 1, stop)
  }

  lemma {:induction false} DownIs(calls: seq<Call>, n: nat, stop: nat -> Hook)
    ensures Starts(Down(calls, n, stop)) == Starts(calls)
    ensures StopsBackwards(Down(calls, n, stop)) == Range(StoppedFrom(n, stop), n) + StopsBackwards(calls)
    decreases n
  {
    hide Starts;
    hide StopsBackwards;
    if n > 0 {
      OneMore(calls, OnStop(n - 1));
      if stop(n - 1) == IsCancelled {
        assert Range(n - 1, n) == [n - 1];
      } else {
        DownIs(calls + [OnStop(n - 1)], n - 1, stop);
        Regroup(Range(StoppedFrom(n - 1, stop), n - 1), n - 1, StopsBackwards(calls));
      }
    }
  }

  lemma Regroup(front: seq<nat>, i: nat, back: seq<nat>)
    ensures front + ([i] + back) == (front + [i]) + back
  {
  }

  /** Whether the start failed at some middleware and was rolled back, or went through and the chain was stopped
      later: what is stopped are the last of those started, in the opposite order, and they are all of them, each
      once, exactly when no stop after the first middleware's is cancelled. */
  lemma StopsMirrorStarts(n: nat, stop: nat -> Hook)
    ensures var calls := Down(Up([], n), n, stop);
      && Starts(calls) == Range(0, n)
      && StopsBackwards(calls) == Range(StoppedFrom(n, stop), n)
      && (StopsBackwards(calls) == Starts(calls) <==> forall j :: 1 <= j < n ==> stop(j) != IsCancelled)
  {
    UpIs(n);
    DownIs(Up([], n), n, stop);
    assert Range(StoppedFrom(n, stop), n) + [] == Range(StoppedFrom(n, stop), n);
  }
}
