/** `struct timeval` and the arithmetic the timer library does on it (libtimer.c, top of file).

    Every theorem about time is stated in microseconds, through `Micros`. */
module TimeVals {
  const MICRO_PER_SEC := 1_000_000
  const MAX_USEC := 999_999
  // The wait used for a deadline that has already passed.
  const ALMOST_NOW := 1000

  datatype TimeVal = TimeVal(sec: int, usec: int) {
    ghost predicate Normal() {
      0 <= usec < MICRO_PER_SEC
    }

    ghost function Micros(): int {
      sec * 1_000_000 + usec
    }
  }

  /** TV_LESS_THAN */
  predicate LessThan(t1: TimeVal, t2: TimeVal) {
    t1.sec < t2.sec || (t1.sec == t2.sec && t1.usec < t2.usec)
  }

  /** TV_MINUS: the borrow adds MAX_USEC, not MICRO_PER_SEC. */
  function Minus(t1: TimeVal, t2: TimeVal): TimeVal {
    if t1.usec >= t2.usec
    then TimeVal(t1.sec - t2.sec, t1.usec - t2.usec)
    else TimeVal(t1.sec - t2.sec - 1, t1.usec + (MAX_USEC - t2.usec))
  }

  /** The absolute deadline of a timer added at `now` with a relative timeout. */
  function AbsoluteDeadline(now: TimeVal, sec: nat, usec: nat): TimeVal
    requires 0 <= now.usec
  {
    TimeVal(now.sec + sec + (now.usec + usec) / MICRO_PER_SEC, (now.usec + usec) % MICRO_PER_SEC)
  }

  /** How long the server sleeps when the first timer is due at `due`. */
  function RestTime(due: TimeVal, now: TimeVal): TimeVal {
    if LessThan(now, due) then Minus(due, now) else TimeVal(0, ALMOST_NOW)
  }

  lemma LessThanOrdersMicros(t1: TimeVal, t2: TimeVal)
    requires t1.Normal() && t2.Normal()
    ensures LessThan(t1, t2) <==> t1.Micros() < t2.Micros()
  {
    if t1.sec < t2.sec {
      assert t1.sec + 1 <= t2.sec;
    } else if t2.sec < t1.sec {
      assert t2.sec + 1 <= t1.sec;
    }
  }

  /** The subtraction is exact without a borrow and one microsecond short with one. */
  lemma MinusIsShortByTheBorrow(t1: TimeVal, t2: TimeVal)
    requires t1.Normal() && t2.Normal()
    ensures Minus(t1, t2).Normal()
    ensures Minus(t1, t2).Micros() == t1.Micros() - t2.Micros() - (if t1.usec >= t2.usec then 0 else 1)
  {
  }

  /** The normalisation of seconds and microseconds is exact, even for a usec argument of a second or more. */
  lemma AbsoluteDeadlineIsExact(now: TimeVal, sec: nat, usec: nat)
    requires now.Normal()
    ensures AbsoluteDeadline(now, sec, usec).Normal()
    ensures AbsoluteDeadline(now, sec, usec).Micros() == now.Micros() + TimeVal(sec, usec).Micros()
  {
    var total := now.usec + usec;
    assert total == total / MICRO_PER_SEC * MICRO_PER_SEC + total % MICRO_PER_SEC;
  }

  /** Sleeping for the computed rest never ends more than one microsecond before the deadline, and the
      rest is a legal, non-negative argument for `select`. */
  lemma RestTimeReachesDeadline(due: TimeVal, now: TimeVal)
    requires due.Normal() && now.Normal()
    ensures RestTime(due, now).Normal() && RestTime(due, now).Micros() >= 0
    ensures now.Micros() + RestTime(due, now).Micros() >= due.Micros() - 1
    ensures LessThan(now, due) ==> now.Micros() + RestTime(due, now).Micros() <= due.Micros()
    ensures due.Micros() <= now.Micros() ==> RestTime(due, now) == TimeVal(0, 1000)
  {
    LessThanOrdersMicros(now, due);
    MinusIsShortByTheBorrow(due, now);
  }
}
