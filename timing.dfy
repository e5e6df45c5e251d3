/**
 * The two timing utilities, over an explicit clock. Time is in milliseconds;
 * each method takes the time of its event, and timer callbacks are explicit
 * events too, which may fire at or after the time they are due.
 */
module Timing {
  import opened Wrappers

  /**
   * `throttle(func, limit)`: a call runs `func` when the flag is clear, sets
   * the flag, and schedules a reset `limit` ms later. Calls while the flag is
   * set are dropped, and the reset runs nothing.
   */
  class Throttle {
    const limit: nat
    var inThrottle: bool
    /** When the scheduled reset is due; meaningful while `inThrottle`. */
    var resetDue: int
    /** Time of the latest event. */
    var now: int
    /** Times at which `func` ran. */
    ghost var runs: seq<int>

    ghost predicate Valid()
      reads this
    {
      && (inThrottle ==> runs != [] && resetDue == runs[|runs| - 1] + limit)
      && (runs != [] ==> runs[|runs| - 1] <= now)
      && (!inThrottle && runs != [] ==> runs[|runs| - 1] + limit <= now)
      && (forall i :: 0 < i < |runs| ==> runs[i - 1] + limit <= runs[i])
    }

    constructor (limit: nat, start: int)
      ensures Valid() && this.limit == limit && !inThrottle && now == start && runs == []
    {
      this.limit := limit;
      inThrottle := false;
      resetDue := start;
      now := start;
      runs := [];
    }

    /**
     * The throttled function is called at time `t`; `ran` says whether `func`
     * ran. Successive runs are always at least `limit` ms apart (`Valid`).
     */
    method Call(t: int) returns (ran: bool)
      requires Valid() && now <= t
      modifies this
      ensures Valid() && now == t && inThrottle
      ensures ran == !old(inThrottle)
      ensures ran ==> runs == old(runs) + [t] && resetDue == t + limit
      ensures !ran ==> runs == old(runs) && resetDue == old(resetDue)
    {
      now := t;
      ran := false;
      if !inThrottle {
        ran := true;
        runs := runs + [t];
        inThrottle := true;
        resetDue := t + limit;
      }
    }

    /** The reset timer fires at time `t`: the flag clears and nothing runs. */
    method FireReset(t: int)
      requires Valid() && inThrottle && now <= t && resetDue <= t
      modifies this
      ensures Valid() && now == t && !inThrottle && runs == old(runs)
    {
      now := t;
      inThrottle := false;
    }
  }

  /** A pending `later` callback: when it is due and the arguments it captured. */
  datatype Timer<A> = Timer(due: int, args: A)

  /**
   * `debounce(func, wait, immediate)`: every call replaces the pending timer
   * with one due `wait` ms later carrying this call's arguments. Without
   * `immediate`, `func` runs when the timer fires, with the latest arguments;
   * with `immediate`, it runs on a call made while no timer is pending.
   */
  class Debouncer<A> {
    const wait: nat
    const immediate: bool
    var timeout: Option<Timer<A>>
    var now: int
    /** Time of the latest call. */
    ghost var lastCall: int

    ghost predicate Valid()
      reads this
    {
      timeout.Some? ==> timeout.value.due == lastCall + wait && lastCall <= now
    }

    constructor (wait: nat, immediate: bool, start: int)
      ensures Valid() && this.wait == wait && this.immediate == immediate
      ensures timeout == None && now == start
    {
      this.wait := wait;
      this.immediate := immediate;
      timeout := None;
      now := start;
      lastCall := start;
    }

    /** The debounced function is called at time `t` with `args`; `ranWith` holds the arguments `func` ran with, if it ran. */
    method Call(t: int, args: A) returns (ranWith: Option<A>)
      requires Valid() && now <= t
      modifies this
      ensures Valid() && now == t && lastCall == t
      ensures timeout == Some(Timer(t + wait, args))
      ensures ranWith == if immediate && old(timeout).None? then Some(args) else None
    {
      var callNow := immediate && timeout.None?;
      now := t;
      lastCall := t;
      timeout := Some(Timer(t + wait, args));
      ranWith := None;
      if callNow {
        ranWith := Some(args);
      }
    }

    /**
     * The pending timer fires at time `t`, at least `wait` ms after the latest
     * call: the slot empties, and without `immediate` `func` runs with the
     * latest call's arguments.
     */
    method Fire(t: int) returns (ranWith: Option<A>)
      requires Valid() && timeout.Some? && now <= t && timeout.value.due <= t
      modifies this
      ensures Valid() && now == t && timeout == None && lastCall == old(lastCall)
      ensures lastCall + wait <= t
      ensures ranWith == if immediate then None else Some(old(timeout).value.args)
    {
      var pending := timeout.value;
      now := t;
      timeout := None;
      ranWith := None;
      if !immediate {
        ranWith := Some(pending.args);
      }
    }
  }
}
