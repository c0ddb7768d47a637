/**
 * `throttle(func, limit)` (js/main.js:555-566). The returned wrapper runs
 * `func` only while its closure flag `inThrottle` is clear, then sets the flag
 * and arms a timer of `limit` ms whose firing clears it again. The timer is
 * modelled as an explicit event; the delay itself is not.
 */
module Throttling {

  datatype Event = Invoke | TimerFired

  /** The flag after `trace`, starting from `inThrottle`. */
  function FlagAfter(inThrottle: bool, trace: seq<Event>): (r: bool)
    ensures |trace| == 0 ==> r == inThrottle
    ensures |trace| > 0 ==> (r <==> trace[|trace| - 1] == Invoke)
    decreases |trace|
  {
    if |trace| == 0 then inThrottle
    else FlagAfter(trace[0] == Invoke, trace[1..])
  }

  /** How many times the wrapped function runs during `trace`. */
  function Runs(inThrottle: bool, trace: seq<Event>): (r: nat)
    ensures r <= |trace|
    decreases |trace|
  {
    if |trace| == 0 then 0
    else (if trace[0] == Invoke && !inThrottle then 1 else 0) + Runs(trace[0] == Invoke, trace[1..])
  }

  /** How many timer events `trace` holds. */
  function Fires(trace: seq<Event>): nat
    decreases |trace|
  {
    if |trace| == 0 then 0
    else (if trace[0] == TimerFired then 1 else 0) + Fires(trace[1..])
  }

  /** Replaying one more event: */
  lemma {:induction false} StepAtEnd(inThrottle: bool, trace: seq<Event>, e: Event)
    ensures FlagAfter(inThrottle, trace + [e]) == (e == Invoke)
    ensures Runs(inThrottle, trace + [e]) ==
            Runs(inThrottle, trace) + (if e == Invoke && !FlagAfter(inThrottle, trace) then 1 else 0)
    ensures Fires(trace + [e]) == Fires(trace) + (if e == TimerFired then 1 else 0)
    decreases |trace|
  {
    if |trace| == 0 {
      assert [] + [e] == [e];
    } else {
      assert (trace + [e])[1..] == trace[1..] + [e];
      StepAtEnd(trace[0] == Invoke, trace[1..], e);
    }
  }

  /** The rate limit: besides one run while the flag is clear, every run
      needs a timer event before it. */
  lemma {:induction false} RunsBoundedByFires(inThrottle: bool, trace: seq<Event>)
    ensures Runs(inThrottle, trace) <= Fires(trace) + (if inThrottle then 0 else 1)
    decreases |trace|
  {
    if |trace| > 0 {
      RunsBoundedByFires(trace[0] == Invoke, trace[1..]);
    }
  }

  /** Invocations with no timer event between them run at most once. */
  lemma {:induction false} BurstRunsAtMostOnce(inThrottle: bool, trace: seq<Event>)
    requires forall k :: 0 <= k < |trace| ==> trace[k] == Invoke
    ensures Runs(inThrottle, trace) <= 1
    ensures |trace| > 0 ==> FlagAfter(inThrottle, trace)
  {
    RunsBoundedByFires(inThrottle, trace);
    if |trace| > 0 {
      FiresOfInvokes(trace);
      LastInvokeSetsFlag(inThrottle, trace);
    } else {
      FiresOfInvokes(trace);
    }
  }

  lemma {:induction false} FiresOfInvokes(trace: seq<Event>)
    requires forall k :: 0 <= k < |trace| ==> trace[k] == Invoke
    ensures Fires(trace) == 0
    decreases |trace|
  {
    if |trace| > 0 {
      FiresOfInvokes(trace[1..]);
    }
  }

  lemma {:induction false} LastInvokeSetsFlag(inThrottle: bool, trace: seq<Event>)
    requires |trace| > 0 && trace[|trace| - 1] == Invoke
    ensures FlagAfter(inThrottle, trace)
  {
    var init := trace[..|trace| - 1];
    assert trace == init + [Invoke];
    StepAtEnd(inThrottle, init, Invoke);
  }

  /** The wrapper returned by one call of `throttle`. */
  class Throttle {
    /** The closure's `inThrottle`; it starts undefined, which is falsy. */
    var inThrottle: bool
    /** How many times the wrapped function has run. */
    var runs: nat
    /** The `limit` argument, in ms. */
    const limit: int
    ghost var trace: seq<Event>

    ghost predicate Valid()
      reads this
    {
      inThrottle == FlagAfter(false, trace) && runs == Runs(false, trace)
    }

    constructor (limit: int)
      ensures Valid() && this.limit == limit
      ensures !inThrottle && runs == 0 && trace == []
    {
      this.limit := limit;
      inThrottle := false;
      runs := 0;
      trace := [];
    }

    /** One call of the wrapper: `ran` says whether the wrapped function ran. */
    method Call() returns (ran: bool)
      requires Valid()
      modifies this
      ensures Valid() && trace == old(trace) + [Invoke]
      ensures ran == !old(inThrottle)
      ensures inThrottle
      ensures runs == old(runs) + (if ran then 1 else 0)
      ensures runs <= Fires(trace) + 1
    {
      StepAtEnd(false, trace, Invoke);
      ran := !inThrottle;
      if ran {
        runs := runs + 1;
        inThrottle := true;
      }
      trace := trace + [Invoke];
      RunsBoundedByFires(false, trace);
    }

    /** The timer armed by the last run fires; it exists only while the flag is set. */
    method OnTimer()
      requires Valid() && inThrottle
      modifies this
      ensures Valid() && trace == old(trace) + [TimerFired]
      ensures !inThrottle && runs == old(runs)
    {
      StepAtEnd(false, trace, TimerFired);
      inThrottle := false;
      trace := trace + [TimerFired];
    }
  }
}
