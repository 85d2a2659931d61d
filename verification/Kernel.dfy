/**
 The kernel services the aggregation is built on, as the contracts its code relies on:
 one-shot timers, and a delayable work item with the flags Delayed, Queued and Running.
 The clock is a parameter, in ticks.
 */
module Kernel {
  import opened Types

  /** A one-shot timer: the deadline it is armed for, if it is armed. */
  class Timer {
    var deadline: Option<nat>

    constructor ()
      ensures deadline == None
    {
      deadline := None;
    }

    function RemainingTicks(now: nat): nat
      reads this
    {
      if IsRunning(deadline, now) then deadline.value - now else 0
    }

    method Start(now: nat, duration: nat)
      modifies this
      ensures deadline == Some(now + duration)
    {
      deadline := Some(now + duration);
    }
  }

  /** Armed for a tick that is still to come. */
  predicate IsRunning(deadline: Option<nat>, now: nat) {
    deadline.Some? && now < deadline.value
  }

  /** Armed for a tick that has come, but not served yet. */
  predicate IsDue(deadline: Option<nat>, now: nat) {
    deadline.Some? && deadline.value <= now
  }

  /** The flags of a delayable work item; `queued` also remembers since when it is queued. */
  datatype Work = Work(delayed: Option<nat>, queued: Option<nat>, running: bool) {

    predicate IsPending() {
      delayed.Some? || queued.Some? || running
    }

    /** Scheduling an item that is Delayed or Queued does nothing; no delay means queue at once. */
    function Schedule(now: nat, delay: nat): Work {
      if delayed.Some? || queued.Some? then this
      else if delay == 0 then this.(queued := Some(now))
      else this.(delayed := Some(now + delay))
    }

    /** Rescheduling without delay drops the delay and queues the item, unless it is queued. */
    function RescheduleNow(now: nat): Work {
      this.(delayed := None, queued := if queued.Some? then queued else Some(now))
    }

    /** Return value of rescheduling: 0 already queued, 2 queued while running, 1 otherwise. */
    function RescheduleResult(): int {
      if queued.Some? then 0 else if running then 2 else 1
    }

    /** The delay ran out: the item is queued. */
    function Expire(now: nat): Work {
      this.(delayed := None, queued := if queued.Some? then queued else Some(now))
    }
  }

  const IDLE := Work(None, None, false)

  class DelayableWork {
    var flags: Work

    constructor ()
      ensures flags == IDLE
    {
      flags := IDLE;
    }

    predicate IsPending()
      reads this
    {
      flags.IsPending()
    }

    method ScheduleForQueue(now: nat, delay: nat)
      modifies this
      ensures flags == old(flags).Schedule(now, delay)
    {
      if flags.delayed.None? && flags.queued.None? {
        if delay == 0 {
          flags := flags.(queued := Some(now));
        } else {
          flags := flags.(delayed := Some(now + delay));
        }
      }
    }

    method RescheduleForQueueNow(now: nat) returns (ret: int)
      modifies this
      ensures flags == old(flags).RescheduleNow(now)
      ensures ret == old(flags).RescheduleResult()
    {
      flags := flags.(delayed := None);
      if flags.queued.Some? {
        ret := 0;
      } else {
        ret := if flags.running then 2 else 1;
        flags := flags.(queued := Some(now));
      }
    }
  }
}
