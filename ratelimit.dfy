/** Rate control over an explicit millisecond clock `now` (standing for
    `Date.now()` and the expiry of `setTimeout`): the commit debounce gate
    and the trailing-edge throttle that paces controller polling. */
module RateLimit {
  import opened Wrappers
  import opened JsMath

  /** Every two entries of `times`, in order, are at least `gap` apart. */
  ghost predicate Spaced(times: seq<int>, gap: int)
  {
    forall i, j :: 0 <= i < j < |times| ==> times[i] + gap <= times[j]
  }

  /** The most recent entry of a history, if any. */
  function Latest(times: seq<int>): Option<int>
  {
    if times == [] then None else Some(times[|times| - 1])
  }

  /** The number of entries of `times` that fall in the window [lo, hi). */
  function CountIn(times: seq<int>, lo: int, hi: int): (k: nat)
    ensures k <= |times|
    decreases |times|
  {
    if times == [] then 0
    else CountIn(times[..|times| - 1], lo, hi) + (if lo <= times[|times| - 1] < hi then 1 else 0)
  }

  /** A window that lies entirely after every entry holds none of them. */
  lemma {:induction false} CountInAfterAll(times: seq<int>, lo: int, hi: int)
    requires forall i :: 0 <= i < |times| ==> times[i] < lo
    ensures CountIn(times, lo, hi) == 0
    decreases |times|
  {
    if times != [] {
      CountInAfterAll(times[..|times| - 1], lo, hi);
    }
  }

  /** In a history spaced by gap > 0, any window of length gap holds at
      most one entry. */
  lemma {:induction false} AtMostOneInWindow(times: seq<int>, gap: int, lo: int)
    requires gap > 0 && Spaced(times, gap)
    ensures CountIn(times, lo, lo + gap) <= 1
    decreases |times|
  {
    if times != [] {
      var init, last := times[..|times| - 1], times[|times| - 1];
      assert Spaced(init, gap) by {
        forall i, j | 0 <= i < j < |init| ensures init[i] + gap <= init[j] {
          assert init[i] == times[i] && init[j] == times[j];
        }
      }
      if lo <= last < lo + gap {
        forall i | 0 <= i < |init| ensures init[i] < lo {
          assert init[i] == times[i];
        }
        CountInAfterAll(init, lo, lo + gap);
      } else {
        AtMostOneInWindow(init, gap, lo);
      }
    }
  }

  /** The debounce gate `!selectingRef.current`: a trigger fires when nothing
      has fired yet or the cooldown since the last firing has elapsed (the
      reset timer of `setTimeout(..., cooldown)` has run). */
  predicate GateOpen(last: Option<int>, now: int, cooldown: int)
  {
    last.None? || now >= last.value + cooldown
  }

  /** A call that the throttle has deferred: its arguments and the time its
      timer is due. */
  datatype Pending<A> = Pending(args: A, due: int)

  /** The closure `throttle(func, limit)`: `lastRan` and `lastFunc` are its
      two captured variables; `runs` records, for the proof, every time
      `func` has run. */
  class Throttle<A> {
    const limit: int
    var lastRan: Option<int>
    var pending: Option<Pending<A>>
    ghost var runs: seq<int>

    ghost predicate Valid()
      reads this
    {
      && limit >= 0
      && Spaced(runs, limit)
      && lastRan == Latest(runs)
      && (pending.Some? ==> lastRan.Some? && pending.value.due >= lastRan.value + limit)
    }

    constructor (limit: nat)
      ensures Valid()
      ensures this.limit == limit && lastRan == None && pending == None && runs == []
    {
      this.limit := limit;
      lastRan := None;
      pending := None;
      runs := [];
    }

    /** A call of the throttled function at time `now`. The very first call
        runs at once; every later call cancels any pending call and schedules
        itself for `limit - (now - lastRan)` ms later (a negative delay
        meaning "as soon as possible"). `ran` holds the arguments `func` ran
        with now, if it ran. */
    method Call(now: int, args: A) returns (ran: Option<A>)
      requires Valid()
      modifies this
      ensures Valid()
      ensures old(lastRan).None? ==>
        ran == Some(args) && lastRan == Some(now) && runs == [now] && pending == None
      ensures old(lastRan).Some? ==>
        && ran == None && lastRan == old(lastRan) && runs == old(runs)
        && pending == Some(Pending(args, Max(now, old(lastRan).value + limit)))
    {
      if lastRan.None? {
        ran := Some(args);
        lastRan := Some(now);
        runs := runs + [now];
      } else {
        var delay := limit - (now - lastRan.value);
        pending := Some(Pending(args, now + Max(0, delay)));
        ran := None;
      }
    }

    /** The host runs the pending timer at time `now`, once it is due. The
        deferred call runs only if at least `limit` ms have passed since the
        last run. */
    method Fire(now: int) returns (ran: Option<A>)
      requires Valid()
      modifies this
      ensures Valid()
      ensures old(pending).None? || now < old(pending).value.due ==>
        ran == None && lastRan == old(lastRan) && pending == old(pending) && runs == old(runs)
      ensures old(pending).Some? && now >= old(pending).value.due ==>
        && pending == None
        && ran.Some?
        && (ran.Some? <==> now - old(lastRan).value >= limit)
        && (ran.Some? ==> ran == Some(old(pending).value.args) && lastRan == Some(now) && runs == old(runs) + [now])
        && (ran.None? ==> lastRan == old(lastRan) && runs == old(runs))
    {
      ran := None;
      if pending.Some? && now >= pending.value.due {
        var call := pending.value;
        pending := None;
        if now - lastRan.value >= limit {
          ran := Some(call.args);
          lastRan := Some(now);
          runs := runs + [now];
        }
      }
    }
  }
}
