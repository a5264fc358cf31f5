/** Instants and durations as the collector uses them: nanoseconds since the Unix epoch, unbounded.
    The source database stamps its rows in whole milliseconds. */
module Clock {
  type Time = int

  // A Go duration is a signed 64-bit count of nanoseconds.
  type Duration = d: int | -0x8000_0000_0000_0000 <= d < 0x8000_0000_0000_0000

  const NANOS_PER_MILLI := 1_000_000

  // Go's zero time, 1 January of year 1; the collector reads it as "unset" or "full history".
  const ZERO_TIME: Time := -62_135_596_800_000_000_000

  predicate IsZero(t: Time) { t == ZERO_TIME }

  /** Time.UnixMilli. Go adds the milliseconds of the non-negative nanosecond part to the seconds,
      which floors also before the epoch; Dafny's division by a positive number floors too. */
  function UnixMilli(t: Time): int { t / NANOS_PER_MILLI }

  /** time.UnixMilli, the instant of a row stamped with `ms`. */
  function FromMilli(ms: int): Time { ms * NANOS_PER_MILLI }

  /** Flooring a bound to milliseconds loses nothing against rows stamped in milliseconds:
      both the strict lower bound and the inclusive upper bound select exactly the same rows. */
  lemma MilliBoundsAreExact(ms: int, bound: Time)
    ensures ms > UnixMilli(bound) <==> FromMilli(ms) > bound
    ensures ms <= UnixMilli(bound) <==> FromMilli(ms) <= bound
    ensures UnixMilli(FromMilli(ms)) == ms
  {
  }

  function Max(a: int, b: int): int { if a >= b then a else b }

  function Min(a: int, b: int): int { if a <= b then a else b }

  lemma UnixMilliMonotone(a: Time, b: Time)
    requires a <= b
    ensures UnixMilli(a) <= UnixMilli(b)
  {
  }

  /** Successive instants lie at least `gap` apart. */
  predicate Spaced(times: seq<Time>, gap: int) {
    forall i | 0 <= i < |times| - 1 :: times[i + 1] - times[i] >= gap
  }

  lemma SpacedPrepend(first: Time, times: seq<Time>, gap: int)
    requires Spaced(times, gap) && (times != [] ==> times[0] - first >= gap)
    ensures Spaced([first] + times, gap)
  {
    forall i | 0 <= i < |times| ensures ([first] + times)[i + 1] - ([first] + times)[i] >= gap {
      if i > 0 { assert times[i - 1 + 1] - times[i - 1] >= gap; }
    }
  }

  lemma {:induction false} SpacedSpan(times: seq<Time>, gap: int, i: nat, j: nat)
    requires Spaced(times, gap) && i <= j < |times|
    ensures (j - i) * gap <= times[j] - times[i]
    decreases j - i
  {
    if i < j {
      SpacedSpan(times, gap, i, j - 1);
      assert times[j - 1 + 1] - times[j - 1] >= gap;
      assert (j - i) * gap == (j - 1 - i) * gap + gap;
    }
  }
}
