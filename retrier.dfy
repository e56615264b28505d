/**
 * The deferred prefetch of `deferMayLaunchUntilConnected`: a loop of at most
 * `MaxAttempts` iterations that calls `mayLaunchUrl` only in iterations that
 * see the connection flag set, and stops after the first call that is
 * accepted. The environment supplies, for each iteration, the value of the
 * flag the iteration reads (`connected[i]`) and what `mayLaunchUrl` returns
 * if it is called in that iteration (`accepted[i]`).
 */
module Retrier {

  /** The bound of the loop counter `i`. */
  const MaxAttempts: nat := 10

  /** The value of the loop counter in some iteration. */
  type Attempt = k: nat | k < MaxAttempts

  /** The environment gives one observation per iteration. */
  predicate WellFormed(connected: seq<bool>, accepted: seq<bool>)
  {
    |connected| == MaxAttempts && |accepted| == MaxAttempts
  }

  /** What a run of the loop did: the iterations that called `mayLaunchUrl`, and how many iterations ran. */
  datatype Outcome = Outcome(calls: seq<Attempt>, iterations: nat)

  /**
   * The rest of the loop, entered with counter `i` after the calls `calls`:
   * exhausted at `MaxAttempts`; in an iteration that sees the flag set, a
   * call, which ends the loop when it is accepted; otherwise on to `i + 1`.
   */
  function Run(connected: seq<bool>, accepted: seq<bool>, i: nat, calls: seq<Attempt>): (o: Outcome)
    requires WellFormed(connected, accepted) && i <= MaxAttempts
    decreases MaxAttempts - i
  {
    if i == MaxAttempts then Outcome(calls, MaxAttempts)
    else if connected[i] && accepted[i] then Outcome(calls + [i], i + 1)
    else Run(connected, accepted, i + 1, if connected[i] then calls + [i] else calls)
  }

  /** The whole loop, from `i = 0` with no call made. */
  function Deferred(connected: seq<bool>, accepted: seq<bool>): (o: Outcome)
    requires WellFormed(connected, accepted)
  {
    Run(connected, accepted, 0, [])
  }

  /** The loop of `deferMayLaunchUntilConnected`, run sequentially. */
  method DeferMayLaunchUntilConnected(connected: seq<bool>, accepted: seq<bool>)
    returns (calls: seq<Attempt>, iterations: nat)
    requires WellFormed(connected, accepted)
    ensures Outcome(calls, iterations) == Deferred(connected, accepted)
  {
    calls, iterations := [], 0;
    var i: nat := 0;
    while i < MaxAttempts
      invariant i <= MaxAttempts && iterations == i
      invariant Run(connected, accepted, i, calls) == Deferred(connected, accepted)
    {
      iterations := i + 1;
      if connected[i] {
        calls := calls + [i];
        if accepted[i] {
          break;
        }
      }
      i := i + 1;
    }
  }

  /** The run keeps the calls already made as a prefix, adds at most one per remaining iteration, and stays within the bound. */
  lemma {:induction false} RunExtends(connected: seq<bool>, accepted: seq<bool>, i: nat, calls: seq<Attempt>)
    requires WellFormed(connected, accepted) && i <= MaxAttempts
    ensures var o := Run(connected, accepted, i, calls);
      && i <= o.iterations <= MaxAttempts
      && |calls| <= |o.calls| <= |calls| + (MaxAttempts - i)
      && o.calls[..|calls|] == calls
    decreases MaxAttempts - i
  {
    if i < MaxAttempts && !(connected[i] && accepted[i]) {
      var next := if connected[i] then calls + [i] else calls;
      RunExtends(connected, accepted, i + 1, next);
      var o := Run(connected, accepted, i + 1, next);
      assert o.calls[..|calls|] == o.calls[..|next|][..|calls|];
    }
  }

  /** The iterations that called `mayLaunchUrl`, in increasing order. */
  ghost predicate Ascending(calls: seq<Attempt>)
  {
    forall k :: 0 <= k < |calls| - 1 ==> calls[k] < calls[k + 1]
  }

  /** Every call is made in an iteration that ran and saw the flag set. */
  lemma {:induction false} RunCallsConnected(connected: seq<bool>, accepted: seq<bool>, i: nat, calls: seq<Attempt>)
    requires WellFormed(connected, accepted) && i <= MaxAttempts
    requires forall k :: 0 <= k < |calls| ==> calls[k] < i && connected[calls[k]]
    ensures forall k :: 0 <= k < |Run(connected, accepted, i, calls).calls| ==>
      Run(connected, accepted, i, calls).calls[k] < Run(connected, accepted, i, calls).iterations &&
      connected[Run(connected, accepted, i, calls).calls[k]]
    decreases MaxAttempts - i
  {
    if i < MaxAttempts && !(connected[i] && accepted[i]) {
      var next := if connected[i] then calls + [i] else calls;
      assert forall k :: 0 <= k < |next| ==> next[k] < i + 1 && connected[next[k]];
      assert Run(connected, accepted, i, calls) == Run(connected, accepted, i + 1, next);
      RunCallsConnected(connected, accepted, i + 1, next);
    } else if i < MaxAttempts {
      assert Run(connected, accepted, i, calls) == Outcome(calls + [i], i + 1);
    }
  }

  /** Calls are made in increasing iterations. */
  lemma {:induction false} RunCallsAscending(connected: seq<bool>, accepted: seq<bool>, i: nat, calls: seq<Attempt>)
    requires WellFormed(connected, accepted) && i <= MaxAttempts
    requires Ascending(calls) && (calls != [] ==> calls[|calls| - 1] < i)
    ensures Ascending(Run(connected, accepted, i, calls).calls)
    decreases MaxAttempts - i
  {
    if i < MaxAttempts {
      var next := if connected[i] then calls + [i] else calls;
      assert Ascending(next);
      if !(connected[i] && accepted[i]) {
        assert Run(connected, accepted, i, calls) == Run(connected, accepted, i + 1, next);
        RunCallsAscending(connected, accepted, i + 1, next);
      }
    }
  }

  /** Every call but the last is rejected; the loop ends right after an accepted call, and otherwise runs out. */
  lemma {:induction false} RunStopsAtSuccess(connected: seq<bool>, accepted: seq<bool>, i: nat, calls: seq<Attempt>)
    requires WellFormed(connected, accepted) && i <= MaxAttempts
    requires forall k :: 0 <= k < |calls| ==> !accepted[calls[k]]
    ensures var o := Run(connected, accepted, i, calls);
      && (forall k :: 0 <= k < |o.calls| - 1 ==> !accepted[o.calls[k]])
      && (if o.calls != [] && accepted[o.calls[|o.calls| - 1]]
          then o.iterations == o.calls[|o.calls| - 1] as int + 1
          else o.iterations == MaxAttempts)
    decreases MaxAttempts - i
  {
    if i < MaxAttempts && !(connected[i] && accepted[i]) {
      RunStopsAtSuccess(connected, accepted, i + 1, if connected[i] then calls + [i] else calls);
    }
  }

  /**
   * The whole loop runs at most `MaxAttempts` iterations and makes at most
   * `MaxAttempts` calls, in increasing iterations, each one that ran and saw
   * the flag set.
   */
  lemma DeferredBounds(connected: seq<bool>, accepted: seq<bool>)
    requires WellFormed(connected, accepted)
    ensures Deferred(connected, accepted).iterations <= MaxAttempts
    ensures |Deferred(connected, accepted).calls| <= MaxAttempts
    ensures forall k :: 0 <= k < |Deferred(connected, accepted).calls| ==>
      Deferred(connected, accepted).calls[k] < Deferred(connected, accepted).iterations &&
      connected[Deferred(connected, accepted).calls[k]]
    ensures Ascending(Deferred(connected, accepted).calls)
  {
    RunExtends(connected, accepted, 0, []);
    RunCallsConnected(connected, accepted, 0, []);
    RunCallsAscending(connected, accepted, 0, []);
  }

  /** A call that is accepted is the last call, and the loop stops in the iteration that made it. */
  lemma DeferredStopsAtSuccess(connected: seq<bool>, accepted: seq<bool>, k: nat)
    requires WellFormed(connected, accepted)
    requires k < |Deferred(connected, accepted).calls| && accepted[Deferred(connected, accepted).calls[k]]
    ensures k == |Deferred(connected, accepted).calls| - 1
    ensures Deferred(connected, accepted).iterations == Deferred(connected, accepted).calls[k] as int + 1
  {
    RunStopsAtSuccess(connected, accepted, 0, []);
  }

  /** When no call is accepted, all `MaxAttempts` iterations run. */
  lemma DeferredExhausted(connected: seq<bool>, accepted: seq<bool>)
    requires WellFormed(connected, accepted)
    requires forall k :: 0 <= k < |Deferred(connected, accepted).calls| ==>
      !accepted[Deferred(connected, accepted).calls[k]]
    ensures Deferred(connected, accepted).iterations == MaxAttempts
  {
    RunStopsAtSuccess(connected, accepted, 0, []);
  }

  /**
   * An iteration `j` calls `mayLaunchUrl` exactly when it sees the flag set
   * and no earlier iteration (from `i` on) made an accepted call.
   */
  lemma {:induction false} RunCallsEveryConnectedIteration(
    connected: seq<bool>, accepted: seq<bool>, i: nat, calls: seq<Attempt>, j: nat)
    requires WellFormed(connected, accepted) && i <= j < MaxAttempts
    requires forall k :: 0 <= k < |calls| ==> calls[k] < i
    ensures j in Run(connected, accepted, i, calls).calls <==>
      connected[j] && forall m :: i <= m < j ==> !(connected[m] && accepted[m])
    decreases MaxAttempts - i
  {
    assert j !in calls;
    if i < j && !(connected[i] && accepted[i]) {
      RunCallsEveryConnectedIteration(connected, accepted, i + 1,
        if connected[i] then calls + [i] else calls, j);
    } else if i == j && !(connected[i] && accepted[i]) {
      var next := if connected[i] then calls + [i] else calls;
      if connected[i] {
        RunExtends(connected, accepted, i + 1, next);
        var o := Run(connected, accepted, i + 1, next);
        assert o.calls[|calls|] == o.calls[..|next|][|calls|] == i;
      } else {
        RunOnlyCallsFrom(connected, accepted, i + 1, next, i);
      }
    }
  }

  /** An iteration `j` before `i` that was not already among the calls is never called afterwards. */
  lemma {:induction false} RunOnlyCallsFrom(
    connected: seq<bool>, accepted: seq<bool>, i: nat, calls: seq<Attempt>, j: nat)
    requires WellFormed(connected, accepted) && i <= MaxAttempts && j < i && j !in calls
    ensures j !in Run(connected, accepted, i, calls).calls
    decreases MaxAttempts - i
  {
    if i < MaxAttempts && !(connected[i] && accepted[i]) {
      RunOnlyCallsFrom(connected, accepted, i + 1, if connected[i] then calls + [i] else calls, j);
    }
  }

  /**
   * Over the whole loop: iteration `j` calls `mayLaunchUrl` exactly when it
   * sees the flag set and no earlier call was accepted.
   */
  lemma DeferredCallsEveryConnectedIteration(connected: seq<bool>, accepted: seq<bool>, j: nat)
    requires WellFormed(connected, accepted) && j < MaxAttempts
    ensures j in Deferred(connected, accepted).calls <==>
      connected[j] && forall m :: 0 <= m < j ==> !(connected[m] && accepted[m])
  {
    RunCallsEveryConnectedIteration(connected, accepted, 0, [], j);
  }

  /** Connected throughout, rejected nine times and accepted the tenth time: ten calls, and no eleventh iteration. */
  lemma ScenarioNineFailuresThenSuccess()
    ensures Deferred([true, true, true, true, true, true, true, true, true, true],
                     [false, false, false, false, false, false, false, false, false, true])
         == Outcome([0, 1, 2, 3, 4, 5, 6, 7, 8, 9], MaxAttempts)
  {
  }

  /** Never connected: no call at all, and all ten iterations run. */
  lemma {:induction false} RunNeverConnected(connected: seq<bool>, accepted: seq<bool>, i: nat, calls: seq<Attempt>)
    requires WellFormed(connected, accepted) && i <= MaxAttempts
    requires forall k :: i <= k < MaxAttempts ==> !connected[k]
    ensures Run(connected, accepted, i, calls) == Outcome(calls, MaxAttempts)
    decreases MaxAttempts - i
  {
    if i < MaxAttempts {
      RunNeverConnected(connected, accepted, i + 1, calls);
    }
  }
}
