// A timer: what the heap stores, ordered by expiration.
module Timer {
  type Address = nat

  /** -1: a timer outside the heap. */
  const NO_INDEX := -1
  const INVALID_TIME := 0

  /**
   * A timer, from its construction to its deletion. While it lives, no other living timer has its
   * address; afterwards another timer may be constructed there, with another sequence number.
   */
  class Timer {
    const address: Address
    const sequence: nat
    /** Seconds between two expirations; not above 0 for a timer that runs once. */
    const interval: real
    var minHeapIdx: int
    var expiration: int

    constructor (address: Address, sequence: nat, when: int, interval: real)
      ensures this.address == address && this.sequence == sequence && this.interval == interval
      ensures expiration == when && minHeapIdx == NO_INDEX
    {
      this.address := address;
      this.sequence := sequence;
      this.interval := interval;
      expiration := when;
      minHeapIdx := NO_INDEX;
    }

    predicate Repeat() {
      interval > 0.0
    }

    /**
     * The next expiration of a repeating timer counts from now, not from the last one. It is later than
     * now exactly if the interval is a microsecond or more, and falls short of the interval by less than one.
     */
    method Restart(now: int)
      modifies `expiration
      ensures expiration == if Repeat() then now + Micros(interval) else INVALID_TIME
      ensures Repeat() ==> expiration >= now && (expiration > now <==> Coarse(interval))
      ensures Repeat() ==> (expiration - now) as real <= interval * 1000000.0 < (expiration - now + 1) as real
    {
      if Repeat() {
        expiration := now + Micros(interval);
      } else {
        expiration := INVALID_TIME;
      }
    }
  }

  /** Seconds as a whole number of microseconds, truncated toward zero. */
  function Micros(seconds: real): (r: int)
    ensures r > 0 <==> seconds >= 0.000001
    ensures seconds >= 0.0 ==> 0 <= r && r as real <= seconds * 1000000.0 < (r + 1) as real
    ensures seconds <= 0.0 ==> r <= 0 && (r - 1) as real < seconds * 1000000.0 <= r as real
  {
    if seconds >= 0.0 then (seconds * 1000000.0).Floor else -(-seconds * 1000000.0).Floor
  }

  /** Intervals with which a restarted timer is not due again at once. */
  predicate Coarse(interval: real) {
    interval <= 0.0 || interval >= 0.000001
  }

  /** The comparator of the timer heap: 1, 0 or -1 as the left key is greater, equal or less. */
  function EventGreater(left: int, right: int): (r: int)
    ensures r == 1 <==> left > right
    ensures r == -1 <==> left < right
    ensures r == 0 <==> left == right
  {
    if left < right then -1 else if left == right then 0 else 1
  }
}
