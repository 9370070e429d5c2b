/** The scheduler's delay test: a 16-bit tick counter compared with the tick at which the delay
  * last fired, against time that does not wrap.
  */
module Scheduler {
  import opened Words

  const MAX_DELAYCTR_COUNT := 0xFFFF

  /** The counter's reading at an instant, counted in ticks since it was last known to be 0. */
  function Tick(time: nat): uint16 { time % 0x1_0000 }

  class Timer {
    var tickCounter: uint16
    var delayCounter: uint16

    /** Scheduler_HasDelayElapsed: fires, and starts again, on the branches' own arithmetic. */
    method HasDelayElapsed(delay: uint16) returns (fired: bool)
      modifies this`delayCounter
      ensures fired == Fires(old(tickCounter), old(delayCounter), delay)
      ensures delayCounter == if fired then tickCounter else old(delayCounter)
    {
      var now := tickCounter;
      var start := delayCounter;
      if now >= start {
        if now - start >= delay {
          delayCounter := now;
          return true;
        }
      } else {
        if (MAX_DELAYCTR_COUNT - start) + now >= delay {
          delayCounter := now;
          return true;
        }
      }
      return false;
    }
  }

  /** The ticks that the counter shows to have gone by, less one if it has wrapped in between. */
  predicate Fires(now: uint16, start: uint16, delay: uint16) {
    (now + 0x1_0000 - start) % 0x1_0000 - (if now < start then 1 else 0) >= delay
  }

  /** Started at `start` and tested `elapsed` ticks later. */
  predicate FiresAfter(start: nat, elapsed: nat, delay: uint16) {
    Fires(Tick(start + elapsed), Tick(start), delay)
  }

  /** Within one turn of the counter the test fires if and only if the delay has gone by, and one
    * tick more if the counter has wrapped.
    */
  lemma FiresIff(start: nat, elapsed: nat, delay: uint16)
    requires elapsed < 0x1_0000
    ensures FiresAfter(start, elapsed, delay)
            <==> elapsed >= delay + if Tick(start) + elapsed >= 0x1_0000 then 1 else 0
  {
    var s := Tick(start);
    assert start == 0x1_0000 * (start / 0x1_0000) + s;
    if s + elapsed < 0x1_0000 {
      assert Tick(start + elapsed) == s + elapsed;
    } else {
      assert Tick(start + elapsed) == s + elapsed - 0x1_0000;
    }
  }

  /** However long ago it was started, and however often the counter has wrapped, the test does not
    * fire before the delay has gone by.
    */
  lemma NeverEarly(start: nat, elapsed: nat, delay: uint16)
    requires FiresAfter(start, elapsed, delay)
    ensures elapsed >= delay
  {
    if elapsed < 0x1_0000 {
      FiresIff(start, elapsed, delay);
    }
  }

  /** When a delay polled at every tick is due: at its own length, or one tick later if the counter
    * reaches its end by then.
    */
  function Due(start: nat, delay: uint16): nat {
    delay + if Tick(start) + delay >= 0x1_0000 then 1 else 0
  }

  /** It does not fire before it is due, and it does then, unless it is the longest delay and was
    * started when the counter read anything but 0.
    */
  lemma FirstFiresWhenDue(start: nat, delay: uint16)
    ensures forall e: nat :: FiresAfter(start, e, delay) ==> e >= Due(start, delay)
    ensures FiresAfter(start, Due(start, delay), delay) <==> delay < 0xFFFF || Tick(start) == 0
  {
    forall e: nat | FiresAfter(start, e, delay)
      ensures e >= Due(start, delay)
    {
      if e < 0x1_0000 {
        FiresIff(start, e, delay);
      }
    }
    if Due(start, delay) < 0x1_0000 {
      FiresIff(start, Due(start, delay), delay);
    }
  }

  /** The longest delay, started when the counter reads anything but 0, never fires at all. */
  lemma LongestDelay(start: nat)
    ensures (exists e: nat :: FiresAfter(start, e, 0xFFFF)) <==> Tick(start) == 0
  {
    if Tick(start) == 0 {
      FirstFiresWhenDue(start, 0xFFFF);
      assert FiresAfter(start, 0xFFFF, 0xFFFF);
    }
  }
}
