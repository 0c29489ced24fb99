/** The shared budget of one evidence acquisition (runner-evidence-deadline.ts). */
module EvidenceDeadline {
  import opened Wrappers

  const BUDGET_MS := 10000.0

  /** One look at both clocks: None is a wall time that is no safe integer, or a monotonic time
      that is not finite. */
  datatype Reading = Reading(wall: Option<int>, monotonic: Option<real>)

  function Lower(a: real, b: real): real { if a < b then a else b }

  /** Whether a reading lies inside the budget and no clock ran backwards. */
  predicate Within(r: Reading, wallExpiry: int, lastWall: int, lastMonotonic: real, monotonicEnd: real) {
    && r.wall.Some? && r.monotonic.Some?
    && lastWall <= r.wall.value < wallExpiry
    && lastMonotonic <= r.monotonic.value < monotonicEnd
  }

  class Deadline {
    var wallExpiry: int
    var lastWall: int
    var lastMonotonic: real
    const monotonicEnd: real
    var timer: Option<real>
    var closed: bool
    var aborted: bool

    /** While the deadline is live its last reading is inside the budget and a timer is armed for
        what is left of it. */
    predicate Valid() reads this {
      !closed && !aborted ==>
        lastWall < wallExpiry && lastMonotonic < monotonicEnd
        && timer == Some(Lower((wallExpiry - lastWall) as real, monotonicEnd - lastMonotonic))
    }

    predicate Live() reads this { !closed && !aborted }

    /** `createRunnerEvidenceDeadline`; a deadline whose first reading fails is never handed out,
        which an aborted one stands for. */
    constructor (start: Reading, expiresAt: Option<int>)
      ensures Valid() && !closed
      ensures Live() <==> start.wall.Some? && start.monotonic.Some? && expiresAt.Some? && start.wall.value < expiresAt.value
      ensures Live() ==>
        wallExpiry == expiresAt.value && lastWall == start.wall.value && lastMonotonic == start.monotonic.value
        && monotonicEnd == start.monotonic.value + 10000.0
    {
      closed := false;
      var ok := start.wall.Some? && start.monotonic.Some? && expiresAt.Some? && start.wall.value < expiresAt.value;
      aborted := !ok;
      if ok {
        wallExpiry, lastWall, lastMonotonic := expiresAt.value, start.wall.value, start.monotonic.value;
        monotonicEnd := start.monotonic.value + BUDGET_MS;
        timer := Some(Lower((expiresAt.value - start.wall.value) as real, BUDGET_MS));
      } else {
        wallExpiry, lastWall, lastMonotonic, monotonicEnd, timer := 0, 0, 0.0, 0.0, None;
      }
    }

    /** `expire`. */
    method Expire()
      modifies this`timer, this`aborted
      ensures aborted && timer.None?
    {
      timer, aborted := None, true;
    }

    /** The timer fires. */
    method Fire()
      requires Valid() && timer.Some?
      modifies this`timer, this`aborted
      ensures Valid() && aborted && timer.None?
    {
      Expire();
    }

    /** `check`: the wall time, or a thrown error. */
    method Check(r: Reading) returns (now: Option<int>)
      requires Valid()
      modifies this`lastWall, this`lastMonotonic, this`timer, this`aborted
      ensures Valid() && closed == old(closed)
      ensures now.Some? <==>
        && old(Live()) && r.wall.Some? && r.monotonic.Some?
        && old(lastWall) <= r.wall.value < wallExpiry && old(lastMonotonic) <= r.monotonic.value < monotonicEnd
      ensures now.Some? ==> Live() && now == r.wall && lastWall == r.wall.value && lastMonotonic == r.monotonic.value
      ensures now.None? ==> aborted && timer.None? && lastWall == old(lastWall) && lastMonotonic == old(lastMonotonic)
    {
      if closed || aborted || !Within(r, wallExpiry, lastWall, lastMonotonic, monotonicEnd) {
        Expire();
        return None;
      }
      lastWall, lastMonotonic := r.wall.value, r.monotonic.value;
      timer := Some(Lower((wallExpiry - lastWall) as real, monotonicEnd - lastMonotonic));
      return r.wall;
    }

    /** `cap`: an expiry can only come closer, and is checked at once. */
    method Cap(nextExpiry: Option<int>, r: Reading) returns (ok: bool)
      requires Valid()
      modifies this
      ensures Valid() && closed == old(closed)
      ensures wallExpiry == if nextExpiry.Some? && nextExpiry.value < old(wallExpiry) then nextExpiry.value else old(wallExpiry)
      ensures ok <==>
        && nextExpiry.Some? && old(Live()) && r.wall.Some? && r.monotonic.Some?
        && old(lastWall) <= r.wall.value < wallExpiry && old(lastMonotonic) <= r.monotonic.value < monotonicEnd
      ensures ok ==> Live() && lastWall == r.wall.value && lastMonotonic == r.monotonic.value
      ensures !ok ==> aborted && timer.None? && lastWall == old(lastWall) && lastMonotonic == old(lastMonotonic)
    {
      if nextExpiry.None? {
        Expire();
        return false;
      }
      if nextExpiry.value < wallExpiry { wallExpiry := nextExpiry.value; }
      if closed || aborted || !Within(r, wallExpiry, lastWall, lastMonotonic, monotonicEnd) {
        Expire();
        return false;
      }
      lastWall, lastMonotonic := r.wall.value, r.monotonic.value;
      timer := Some(Lower((wallExpiry - lastWall) as real, monotonicEnd - lastMonotonic));
      return true;
    }

    /** `close`: every later check fails. */
    method Close()
      modifies this`closed, this`timer
      ensures Valid() && closed && timer.None? && aborted == old(aborted)
    {
      closed, timer := true, None;
    }
  }
}
