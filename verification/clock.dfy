/** Time as the service sees it: instants are whole seconds since
    1970-01-01T00:00:00 UTC and calendar dates are day numbers from the same
    epoch. Every handler receives the current instant as a parameter. */
module Clock {

  type Instant = int
  type Date = int

  const SecondsPerDay: int := 86400

  /** The UTC calendar date of an instant; division floors, so instants before
      the epoch fall on negative day numbers. */
  function DateOf(t: Instant): Date {
    t / SecondsPerDay
  }

  /** The first instant of a date. */
  function Midnight(d: Date): Instant {
    d * SecondsPerDay
  }

  /** Day of the week with Monday = 0 ... Sunday = 6; day 0 was a Thursday. */
  function Weekday(d: Date): (w: int)
    ensures 0 <= w < 7
  {
    (d + 3) % 7
  }

  /** The Monday of the week containing `d`. */
  function WeekStart(d: Date): (s: Date)
    ensures Weekday(s) == 0
    ensures s <= d <= s + 6
  {
    d - Weekday(d)
  }

  /** The Sunday six days after `WeekStart(d)`. */
  function WeekEnd(d: Date): (e: Date)
    ensures Weekday(e) == 6
    ensures e - 6 <= d <= e
  {
    WeekStart(d) + 6
  }

  /** The stored comparison `timestamp >= d` of a timestamp with a bare date.
      Timestamps are stored as text `YYYY-MM-DD HH:MM:SS.ffffff` and dates as
      `YYYY-MM-DD`, so the timestamp is not earlier exactly when its date is
      not earlier. */
  predicate NotBeforeDate(t: Instant, d: Date) {
    DateOf(t) >= d
  }

  /** The stored comparison `timestamp <= d`: the timestamp text extends the
      date text of its own day and so sorts after it, hence only timestamps on
      earlier dates pass. */
  predicate NotAfterDate(t: Instant, d: Date) {
    DateOf(t) < d
  }

  lemma DateOfBounds(t: Instant)
    ensures Midnight(DateOf(t)) <= t < Midnight(DateOf(t) + 1)
  {
  }

  /** An instant lies on date `d` exactly when it lies in `[Midnight(d), Midnight(d + 1))`. */
  lemma DateOfIsDay(t: Instant, d: Date)
    ensures DateOf(t) == d <==> Midnight(d) <= t < Midnight(d + 1)
  {
    DateOfBounds(t);
    if DateOf(t) < d {
      assert Midnight(DateOf(t) + 1) <= Midnight(d);
    } else if DateOf(t) > d {
      assert Midnight(d + 1) <= Midnight(DateOf(t));
    }
  }

  /** The lower week bound admits exactly the instants from the date's midnight on. */
  lemma NotBeforeDateIsMidnight(t: Instant, d: Date)
    ensures NotBeforeDate(t, d) <==> Midnight(d) <= t
  {
    DateOfBounds(t);
    if DateOf(t) < d {
      assert Midnight(DateOf(t) + 1) <= Midnight(d);
    } else {
      assert Midnight(d) <= Midnight(DateOf(t));
    }
  }

  /** The upper week bound admits exactly the instants strictly before the date's midnight. */
  lemma NotAfterDateIsBeforeMidnight(t: Instant, d: Date)
    ensures NotAfterDate(t, d) <==> t < Midnight(d)
  {
    DateOfBounds(t);
    if DateOf(t) < d {
      assert Midnight(DateOf(t) + 1) <= Midnight(d);
    } else {
      assert Midnight(d) <= Midnight(DateOf(t));
    }
  }

  lemma EpochWasThursday()
    ensures Weekday(0) == 3
  {
  }

  lemma WeekdayAdvances(d: Date)
    ensures Weekday(d + 1) == (Weekday(d) + 1) % 7
  {
  }

  /** The week runs from a Monday to a Sunday and contains the date it was
      computed from. This only collects the contracts of `WeekStart` and
      `WeekEnd` in one place for the weekly query's proofs. */
  lemma WeekBounds(d: Date)
    ensures Weekday(WeekStart(d)) == 0
    ensures Weekday(WeekEnd(d)) == 6
    ensures WeekStart(d) <= d <= WeekEnd(d)
  {
  }
}
