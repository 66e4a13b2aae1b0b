/**
 * `timediff` of AndroitShmemClient_timemeasure.cc: the difference of two
 * `struct timespec` values, borrowing one second when the nanoseconds would
 * go negative.
 */
module TimeMeasure {

  const NSEC_PER_SEC: int := 1_000_000_000

  /** `struct timespec`: seconds and nanoseconds. */
  datatype Timespec = Timespec(sec: int, nsec: int)

  /** The nanoseconds field is in [0, 10^9). */
  predicate Normalized(t: Timespec) {
    0 <= t.nsec < NSEC_PER_SEC
  }

  /** The instant as a count of nanoseconds. */
  function Nanos(t: Timespec): int {
    t.sec * NSEC_PER_SEC + t.nsec
  }

  /** The normalized timespec for a count of nanoseconds (seconds rounded
      towards minus infinity). */
  function FromNanos(n: int): (t: Timespec)
    ensures Normalized(t) && Nanos(t) == n
  {
    Timespec(n / NSEC_PER_SEC, n % NSEC_PER_SEC)
  }

  /** `timediff(start, end)`: whatever the inputs, the result spans exactly
      the nanoseconds from `start` to `end`; for normalized inputs it is
      normalized too. */
  function TimeDiff(start: Timespec, end: Timespec): (d: Timespec)
    ensures Nanos(d) == Nanos(end) - Nanos(start)
    ensures Normalized(start) && Normalized(end) ==> Normalized(d)
  {
    if end.nsec - start.nsec < 0 then
      Timespec(end.sec - start.sec - 1, NSEC_PER_SEC + end.nsec - start.nsec)
    else
      Timespec(end.sec - start.sec, end.nsec - start.nsec)
  }

  /** A normalized timespec is determined by its nanosecond count. */
  lemma NormalizedUnique(a: Timespec, b: Timespec)
    requires Normalized(a) && Normalized(b) && Nanos(a) == Nanos(b)
    ensures a == b
  {
  }

  /** On normalized inputs `timediff` is the normalized form of the
      difference of the two instants: the borrow is taken exactly when it is
      needed. */
  lemma TimeDiffIsNormalizedDifference(start: Timespec, end: Timespec)
    requires Normalized(start) && Normalized(end)
    ensures TimeDiff(start, end) == FromNanos(Nanos(end) - Nanos(start))
  {
    NormalizedUnique(TimeDiff(start, end), FromNanos(Nanos(end) - Nanos(start)));
  }

  /** The difference of an instant with itself is zero. */
  lemma TimeDiffSelf(t: Timespec)
    ensures TimeDiff(t, t) == Timespec(0, 0)
  {
  }

  /** Differences over consecutive intervals add up. */
  lemma TimeDiffAdds(a: Timespec, b: Timespec, c: Timespec)
    ensures Nanos(TimeDiff(a, c)) == Nanos(TimeDiff(a, b)) + Nanos(TimeDiff(b, c))
  {
  }
}
