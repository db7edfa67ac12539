/**
 Time in machine words: a delay that waits on the wrapping tick counter, and elapsed times
 computed from seconds and a fraction in unsigned or truncating arithmetic.

 A word has `2 * half` values; `half` is 0x8000_0000 for the 32-bit `unsigned long` of the board.
 */
module TimeArith {

  /** The value of `x` in an unsigned type of `m` values. */
  function Wrap(x: int, m: nat): (r: nat)
    requires m > 0
    ensures r < m
    decreases x < 0, if x < 0 then -x else x
  {
    if x < 0 then Wrap(x + m, m)
    else if x < m then x
    else Wrap(x - m, m)
  }

  lemma Distribute(a: int, b: int, m: int)
    ensures (a + b) * m == a * m + b * m
    ensures (a - b) * m == a * m - b * m
  {
  }

  lemma AtLeastOnce(c: int, m: nat)
    requires c >= 1
    ensures c * m >= m
  {
  }

  /** Whole turns do not show. */
  lemma {:induction false} WrapShift(x: int, k: int, m: nat)
    requires m > 0
    ensures Wrap(x + k * m, m) == Wrap(x, m)
    decreases if k < 0 then -k else k
  {
    if k > 0 {
      WrapShift(x, k - 1, m);
      Distribute(k, 1, m);
    } else if k < 0 {
      WrapShift(x, k + 1, m);
      Distribute(k, 1, m);
    }
  }

  /** How many turns `Wrap` takes off. */
  lemma {:induction false} Turns(x: int, m: nat) returns (k: int)
    requires m > 0
    ensures x == k * m + Wrap(x, m)
    decreases x < 0, if x < 0 then -x else x
  {
    if x < 0 {
      k := Turns(x + m, m);
      k := k - 1;
      Distribute(k, 1, m);
    } else if x < m {
      k := 0;
    } else {
      k := Turns(x - m, m);
      k := k + 1;
      Distribute(k, 1, m);
    }
  }

  lemma RemainderUnique(q: int, r: int, k: int, w: int, m: nat)
    requires q * m + r == k * m + w && 0 <= r < m && 0 <= w < m
    ensures r == w
  {
    Distribute(q, k, m);
    Distribute(k, q, m);
    if q > k {
      AtLeastOnce(q - k, m);
    } else if q < k {
      AtLeastOnce(k - q, m);
    }
  }

  /** That is Dafny's own remainder, which is never negative. */
  lemma WrapIsMod(x: int, m: nat)
    requires m > 0
    ensures Wrap(x, m) == x % m
  {
    var k := Turns(x, m);
    assert x == (x / m) * m + x % m;
    RemainderUnique(k, Wrap(x, m), x / m, x % m, m);
  }

  /** Wrapping an operand before an addition makes no difference to the wrapped sum. */
  lemma WrapInside(x: int, y: int, m: nat)
    requires m > 0
    ensures Wrap(Wrap(x, m) + y, m) == Wrap(x + y, m)
  {
    var k := Turns(x, m);
    WrapShift(Wrap(x, m) + y, k, m);
  }

  lemma WrapMinus(x: int, y: int, m: nat)
    requires m > 0
    ensures Wrap(x - Wrap(y, m), m) == Wrap(x - y, m)
  {
    var k := Turns(y, m);
    WrapShift(x - y, k, m);
  }

  lemma WrapSum(x: int, y: int, m: nat)
    requires m > 0
    ensures Wrap(Wrap(x, m) + Wrap(y, m), m) == Wrap(x + y, m)
  {
    WrapInside(x, Wrap(y, m), m);
    WrapInside(y, x, m);
  }

  lemma WrapDifference(x: int, y: int, m: nat)
    requires m > 0
    ensures Wrap(Wrap(x, m) - Wrap(y, m), m) == Wrap(x - y, m)
  {
    WrapInside(x, -(Wrap(y, m) as int), m);
    WrapMinus(x, y, m);
  }

  lemma SmallWrap(x: int, m: nat)
    requires m > 0
    ensures 0 <= x < m ==> Wrap(x, m) == x
    ensures 0 <= x + m < m ==> Wrap(x, m) == x + m
  {
    if 0 <= x + m < m {
      WrapShift(x, 1, m);
      assert x + 1 * m == x + m;
    }
  }

  /** The numbers of a signed type of `2 * half` values. */
  predicate Fits(x: int, half: nat) {
    0 <= x + half < 2 * half
  }

  /** The value of `x` in a signed type of `2 * half` values, in two's complement. */
  function Signed(x: int, half: nat): (r: int)
    requires half > 0
    ensures Fits(r, half)
  {
    var w := Wrap(x, 2 * half);
    if w < half then w else w - 2 * half
  }

  lemma SignedExactly(x: int, half: nat)
    requires half > 0
    ensures Signed(x, half) == x <==> Fits(x, half)
  {
    SmallWrap(x, 2 * half);
  }

  // ---------- mydelay

  /** `time_before(a, b)`: `(long)(a - b) < 0` */
  predicate TimeBefore(a: nat, b: nat, half: nat)
    requires half > 0
  {
    Signed(a - b, half) < 0
  }

  /** The comparison of the loop, `e` ticks after `jiffies` was read for `end = jiffies + d`. */
  predicate KeepsWaiting(start: nat, d: nat, e: nat, half: nat)
    requires half > 0
  {
    TimeBefore(Wrap(start + e, 2 * half), Wrap(Wrap(start, 2 * half) + d, 2 * half), half)
  }

  /** The distance between two counter readings is the true one, wrapped; `end` is read as a sum. */
  lemma TicksApart(start: int, d: int, e: int, end: nat, m: nat)
    requires m > 0 && end == Wrap(start + d, m)
    ensures Wrap(Wrap(start + e, m) - end, m) == Wrap(e - d, m)
  {
    WrapDifference(start + e, start + d, m);
  }

  lemma WaitingMeans(start: nat, d: nat, e: nat, half: nat)
    requires half > 0
    ensures KeepsWaiting(start, d, e, half) <==> Wrap(e - d, 2 * half) >= half
  {
    WrapInside(start, d, 2 * half);
    TicksApart(start, d, e, Wrap(Wrap(start, 2 * half) + d, 2 * half), 2 * half);
  }

  /**
   The loop cannot end early, wherever the counter stands and however it wraps, exactly if the
   delay is at most half the range of the counter; with a longer delay it does not wait at all.
   */
  lemma NeverEarlyExactly(start: nat, d: nat, half: nat)
    requires half > 0 && d < 2 * half
    ensures (forall e: nat | e < d :: KeepsWaiting(start, d, e, half)) <==> d <= half
    ensures d > half ==> !KeepsWaiting(start, d, 0, half)
  {
    forall e: nat | e < d
      ensures KeepsWaiting(start, d, e, half) <==> d - e <= half
    {
      WaitingMeans(start, d, e, half);
      SmallWrap(e - d, 2 * half);
    }
    if d > half {
      assert !KeepsWaiting(start, d, 0, half);
    }
  }

  /** Time does not run backwards and advances by less than `half` from one reading to the next. */
  ghost predicate Steady(half: nat, clock: nat -> nat) {
    forall j: nat, k: nat | k == j + 1 :: clock(j) <= clock(k) < clock(j) + half
  }

  /**
   At reading `i` the comparison tells the truth about the end of the delay, and until then the
   wrapped distance to it is the true one.
   */
  ghost predicate ReadsTruly(half: nat, d: nat, clock: nat -> nat, i: nat, jiffies: nat, end: nat)
    requires half > 0
  {
    && jiffies == Wrap(clock(i), 2 * half)
    && (TimeBefore(jiffies, end, half) <==> clock(i) < clock(0) + d)
    && (clock(i) < clock(0) + d ==> Wrap((end as int) - jiffies, 2 * half) == clock(0) + d - clock(i))
  }

  /**
   `mydelay` for `d` ticks.  `clock(i)` is the true time at the `i`-th reading of `jiffies`; it
   may stand still, but not for ever: it has advanced by `d` by reading `n`.
   */
  method MyDelay(half: nat, d: nat, clock: nat -> nat, ghost n: nat) returns (i: nat)
    requires 0 < half && d <= half
    requires Steady(half, clock)
    requires clock(n) >= clock(0) + d
    ensures i > 0 && clock(i) >= clock(0) + d
    ensures i > 1 ==> clock(i - 1) < clock(0) + d
  {
    var end := Wrap(Wrap(clock(0), 2 * half) + d, 2 * half);
    i := 1;
    var jiffies := Wrap(clock(i), 2 * half);
    ReadingMeans(half, d, clock, i);
    while TimeBefore(jiffies, end, half)
      invariant i > 0 && ReadsTruly(half, d, clock, i, jiffies, end)
      invariant i > 1 ==> clock(i - 1) < clock(0) + d
      decreases n - i
    {
      StillBefore(half, d, clock, n, i);
      i := i + 1;
      jiffies := Wrap(clock(i), 2 * half);
      ReadingMeans(half, d, clock, i);
    }
  }

  /** A reading that has not reached the end comes before the reading `n` that has. */
  lemma StillBefore(half: nat, d: nat, clock: nat -> nat, n: nat, i: nat)
    requires Steady(half, clock) && clock(n) >= clock(0) + d && clock(i) < clock(0) + d
    ensures i < n
  {
    if n <= i {
      ClockMonotone(half, clock, n, i);
    }
  }

  lemma {:induction false} ClockMonotone(half: nat, clock: nat -> nat, i: nat, j: nat)
    requires Steady(half, clock)
    requires i <= j
    ensures clock(i) <= clock(j)
  {
    if i < j {
      ClockMonotone(half, clock, i, j - 1);
    }
  }

  lemma DistanceMeans(start: nat, d: nat, e: nat, half: nat)
    requires half > 0 && e < d <= half
    ensures Wrap((Wrap(Wrap(start, 2 * half) + d, 2 * half) as int) - Wrap(start + e, 2 * half), 2 * half) == d - e
  {
    WrapInside(start, d, 2 * half);
    TicksApart(start, e, d, Wrap(start + e, 2 * half), 2 * half);
    SmallWrap(d - e, 2 * half);
  }

  /** The comparison and the wrapped distance `e` ticks after the start, short of half the range past the end. */
  lemma TrueAfter(start: nat, d: nat, e: nat, half: nat)
    requires 0 < half && d <= half && e < d + half
    ensures KeepsWaiting(start, d, e, half) <==> e < d
  {
    WaitingMeans(start, d, e, half);
    SmallWrap(e - d, 2 * half);
  }

  lemma DistanceAfter(start: nat, d: nat, e: nat, half: nat, jiffies: nat, end: nat)
    requires half > 0 && d <= half
    requires jiffies == Wrap(start + e, 2 * half) && end == Wrap(Wrap(start, 2 * half) + d, 2 * half)
    ensures e < d ==> Wrap((end as int) - jiffies, 2 * half) == d - e
  {
    if e < d {
      DistanceMeans(start, d, e, half);
    }
  }

  lemma ReadsTrulyAfter(half: nat, d: nat, clock: nat -> nat, i: nat, e: nat)
    requires 0 < half && d <= half && e < d + half && clock(i) == clock(0) + e
    ensures ReadsTruly(half, d, clock, i, Wrap(clock(i), 2 * half), Wrap(Wrap(clock(0), 2 * half) + d, 2 * half))
  {
    var m := 2 * half;
    TrueAfter(clock(0), d, e, half);
    DistanceAfter(clock(0), d, e, half, Wrap(clock(i), m), Wrap(Wrap(clock(0), m) + d, m));
  }

  /** The reading after one that has not reached the end cannot have passed it by half the range. */
  lemma ReadingMeans(half: nat, d: nat, clock: nat -> nat, i: nat)
    requires 0 < half && d <= half && Steady(half, clock)
    requires i > 0 && (i > 1 ==> clock(i - 1) < clock(0) + d)
    ensures ReadsTruly(half, d, clock, i, Wrap(clock(i), 2 * half), Wrap(Wrap(clock(0), 2 * half) + d, 2 * half))
  {
    ClockMonotone(half, clock, 0, i);
    assert clock(i - 1) <= clock(i) < clock(i - 1) + half;
    ReadsTrulyAfter(half, d, clock, i, clock(i) - clock(0));
  }

  // ---------- Elapsed time

  const NSPERSEC := 1_000_000_000
  const USPERSEC := 1_000_000

  /** `struct timespec` or `struct timeval`; `frac` counts nanoseconds or microseconds. */
  datatype Stamp = Stamp(sec: int, frac: int)

  predicate Normal(t: Stamp, unit: nat) {
    0 <= t.frac < unit
  }

  predicate NotAfter(s: Stamp, e: Stamp) {
    s.sec < e.sec || (s.sec == e.sec && s.frac <= e.frac)
  }

  /** The time from `s` to `e` in fractions. */
  function Difference(s: Stamp, e: Stamp, unit: nat): int {
    (e.sec - s.sec) * unit + (e.frac - s.frac)
  }

  /** `x + y - z` in unsigned arithmetic of `m` values */
  function PlusMinus(x: int, y: int, z: int, m: nat): nat
    requires m > 0
  {
    Wrap(Wrap(Wrap(x, m) + Wrap(y, m), m) - Wrap(z, m), m)
  }

  /**
   `(e.sec - s.sec) * unit + e.frac - s.frac`: the seconds are subtracted as `long`, of `2 * half`
   values; `unit` makes the rest unsigned arithmetic of `m` values.
   */
  function Elapsed(s: Stamp, e: Stamp, unit: nat, half: nat, m: nat): nat
    requires half > 0 && m > 0
  {
    PlusMinus(Wrap(Signed(e.sec - s.sec, half), m) * unit, e.frac, s.frac, m)
  }

  /** A stamp as one number of fractions. */
  function Total(t: Stamp, unit: nat): int {
    t.sec * unit + t.frac
  }

  lemma DifferenceMeans(s: Stamp, e: Stamp, unit: nat)
    ensures Difference(s, e, unit) == Total(e, unit) - Total(s, unit)
  {
    Distribute(e.sec, s.sec, unit);
  }

  lemma Exchange(a: int, b: int, c: int)
    ensures (a * b) * c == (a * c) * b
  {
  }

  lemma WrapProduct(x: int, unit: nat, m: nat)
    requires m > 0
    ensures Wrap(Wrap(x, m) * unit, m) == Wrap(x * unit, m)
  {
    var q := Turns(x, m);
    Distribute(q * m, Wrap(x, m), unit);
    Exchange(q, m, unit);
    WrapShift(Wrap(x, m) * unit, q * unit, m);
  }

  lemma SumAndDifference(x: int, y: int, z: int, m: nat)
    requires m > 0
    ensures PlusMinus(x, y, z, m) == Wrap(x + y - z, m)
  {
    WrapSum(x, y, m);
    WrapDifference(x + y, z, m);
  }

  /** The wrapping after the subtraction cancels out: what counts is the seconds as a `long`, and one wrap. */
  lemma ElapsedWraps(s: Stamp, e: Stamp, unit: nat, half: nat, m: nat)
    requires half > 0 && m > 0
    ensures Elapsed(s, e, unit, half, m) == Wrap(Signed(e.sec - s.sec, half) * unit + (e.frac - s.frac), m)
  {
    var seconds := Signed(e.sec - s.sec, half);
    WrapProduct(seconds, unit, m);
    SumAndDifference(Wrap(seconds, m) * unit, e.frac, s.frac, m);
    SameWrap(Wrap(seconds, m) * unit, seconds * unit, e.frac - s.frac, m);
  }

  lemma SameWrap(x: int, x': int, y: int, m: nat)
    requires m > 0 && Wrap(x, m) == Wrap(x', m)
    ensures Wrap(x + y, m) == Wrap(x' + y, m)
  {
    WrapInside(x, y, m);
    WrapInside(x', y, m);
  }

  /** In a word as wide as the `long`, the subtraction's own wrapping cancels out too. */
  lemma ElapsedInLong(s: Stamp, e: Stamp, unit: nat, half: nat)
    requires half > 0
    ensures Elapsed(s, e, unit, half, 2 * half) == Wrap(Difference(s, e, unit), 2 * half)
  {
    var m := 2 * half;
    var ds := e.sec - s.sec;
    ElapsedWraps(s, e, unit, half, m);
    var k := Turns(ds, m);
    var j := if Wrap(ds, m) < half then k else k + 1;
    Distribute(k, 1, m);
    assert ds == Signed(ds, half) + j * m;
    Distribute(Signed(ds, half), j * m, unit);
    Exchange(j, m, unit);
    WrapShift(Signed(ds, half) * unit + (e.frac - s.frac), j * unit, m);
  }

  /**
   For normalised stamps, also when the fraction borrows, the microsecond formula of `long` width
   gives the true time exactly if the stamps are in order and their distance fits in the word.
   */
  lemma ElapsedExactly(s: Stamp, e: Stamp, unit: nat, half: nat)
    requires half > 0 && Normal(s, unit) && Normal(e, unit)
    ensures Elapsed(s, e, unit, half, 2 * half) == Difference(s, e, unit) <==>
            NotAfter(s, e) && Difference(s, e, unit) < 2 * half
  {
    ElapsedInLong(s, e, unit, half);
    var x := Difference(s, e, unit);
    OrderedMeans(s, e, unit);
    if 0 <= x < 2 * half {
      SmallWrap(x, 2 * half);
    }
  }

  /**
   The nanosecond formula's word is wide enough for every `long` of seconds: it gives the true
   time exactly if the stamps are in order and the subtraction of the seconds does not overflow.
   */
  lemma ElapsedWideExactly(s: Stamp, e: Stamp, unit: nat, half: nat, m: nat)
    requires half > 0 && 2 * half * unit < m && Normal(s, unit) && Normal(e, unit)
    requires Fits(s.sec, half) && Fits(e.sec, half)
    ensures Elapsed(s, e, unit, half, m) == Difference(s, e, unit) <==> NotAfter(s, e) && e.sec - s.sec < half
  {
    var ds, df := e.sec - s.sec, e.frac - s.frac;
    var x := Difference(s, e, unit);
    ElapsedWraps(s, e, unit, half, m);
    OrderedMeans(s, e, unit);
    if 0 <= x {
      SecondsFit(ds, df, unit, half);
      SmallWrap(ds * unit + df, m);
      SmallWrap((ds - 2 * half) * unit + df, m);
      SignedNear(ds, half);
    }
  }

  lemma SignedNear(ds: int, half: nat)
    requires half > 0 && 0 <= ds < 2 * half
    ensures Signed(ds, half) == if ds < half then ds else ds - 2 * half
  {
    SmallWrap(ds, 2 * half);
  }

  /** How far seconds and a fraction go, and where they land one turn of the `long` lower. */
  lemma SecondsFit(ds: int, df: int, unit: nat, half: nat)
    requires ds < 2 * half && 0 < df + unit < 2 * unit && ds * unit + df >= 0
    ensures ds >= 0 && ds * unit + df < 2 * half * unit
    ensures (ds - 2 * half) * unit + df == ds * unit + df - 2 * half * unit
  {
    Distribute(2 * half, ds, unit);
    Distribute(ds, 2 * half, unit);
    AtLeastOnce(2 * half - ds, unit);
    if ds < 0 {
      Distribute(0, ds, unit);
      AtLeastOnce(-ds, unit);
    }
  }

  const LONG_HALF := 0x8000_0000

  /** The two formulas of the driver on the 32-bit board: nanoseconds in 64 bits, microseconds in 32. */
  lemma ElapsedOnBoard(s: Stamp, e: Stamp)
    requires Fits(s.sec, LONG_HALF) && Fits(e.sec, LONG_HALF)
    ensures Normal(s, NSPERSEC) && Normal(e, NSPERSEC) ==>
              (Elapsed(s, e, NSPERSEC, LONG_HALF, 0x1_0000_0000_0000_0000) == Difference(s, e, NSPERSEC) <==>
               NotAfter(s, e) && e.sec - s.sec < LONG_HALF)
    ensures Normal(s, USPERSEC) && Normal(e, USPERSEC) ==>
              (Elapsed(s, e, USPERSEC, LONG_HALF, 0x1_0000_0000) == Difference(s, e, USPERSEC) <==>
               NotAfter(s, e) && Difference(s, e, USPERSEC) < 0x1_0000_0000)
  {
    if Normal(s, NSPERSEC) && Normal(e, NSPERSEC) {
      ElapsedWideExactly(s, e, NSPERSEC, LONG_HALF, 0x1_0000_0000_0000_0000);
    }
    if Normal(s, USPERSEC) && Normal(e, USPERSEC) {
      ElapsedExactly(s, e, USPERSEC, LONG_HALF);
    }
  }

  lemma OrderedMeans(s: Stamp, e: Stamp, unit: nat)
    requires Normal(s, unit) && Normal(e, unit)
    ensures Difference(s, e, unit) >= 0 <==> NotAfter(s, e)
  {
    var ds := e.sec - s.sec;
    if ds >= 1 {
      AtLeastOnce(ds, unit);
    } else if ds <= -1 {
      AtLeastOnce(-ds, unit);
      assert ds * unit == -((-ds) * unit);
    }
  }

  // ---------- The microsecond formula

  /** Division of C: towards zero. */
  function Trunc(x: int, y: int): int
    requires y > 0
  {
    if x >= 0 then x / y else -(-x / y)
  }

  /** `(t1.tv_sec - t0.tv_sec) * 1000000 + (t1.tv_nsec - t0.tv_nsec) / 1000` */
  function Micros(t0: Stamp, t1: Stamp): int {
    (t1.sec - t0.sec) * USPERSEC + Trunc(t1.frac - t0.frac, 1000)
  }

  /**
   The result is less than a microsecond away from the true time.  It is the true time rounded
   down, except that a borrowed fraction which is no whole number of microseconds rounds up.
   */
  lemma MicrosExactly(t0: Stamp, t1: Stamp)
    ensures var ns := Difference(t0, t1, NSPERSEC);
            var borrow := t1.frac - t0.frac;
            && -1000 < Micros(t0, t1) * 1000 - ns < 1000
            && Micros(t0, t1) == ns / 1000 + (if borrow < 0 && borrow % 1000 != 0 then 1 else 0)
  {
    var ds, dn := t1.sec - t0.sec, t1.frac - t0.frac;
    assert Difference(t0, t1, NSPERSEC) == (ds * 1_000_000) * 1000 + dn;
  }

  const INT_RANGE: int := 0x1_0000_0000

  /** The value of `x` in a 32-bit `int` or `long`. */
  function ToInt(x: int): int {
    Signed(x, INT_RANGE / 2)
  }

  lemma ToIntWraps(x: int) returns (k: int)
    ensures ToInt(x) == x + k * INT_RANGE
    ensures -INT_RANGE / 2 <= ToInt(x) < INT_RANGE / 2
  {
    k := Turns(x, INT_RANGE);
    k := -k;
    if Wrap(x, INT_RANGE) >= INT_RANGE / 2 {
      k := k - 1;
    }
  }

  lemma ToIntShift(x: int, k: int)
    ensures ToInt(x + k * INT_RANGE) == ToInt(x)
  {
    WrapShift(x, k, INT_RANGE);
  }

  lemma ToIntExactly(x: int)
    ensures ToInt(x) == x <==> -INT_RANGE / 2 <= x < INT_RANGE / 2
  {
    SignedExactly(x, INT_RANGE / 2);
  }

  /** The formula as the 32-bit board computes it: every operation wraps, and so does storing into `us`. */
  function MicrosInWords(t0: Stamp, t1: Stamp): int {
    var seconds := ToInt(ToInt(t1.sec - t0.sec) * USPERSEC);
    ToInt(seconds + Trunc(ToInt(t1.frac - t0.frac), 1000))
  }

  lemma ProductInWords(x: int, y: int)
    ensures ToInt(ToInt(ToInt(x) * USPERSEC) + y) == ToInt(x * USPERSEC + y)
  {
    var j := ToIntWraps(x);
    var k := ToIntWraps(ToInt(x) * USPERSEC);
    ToIntShift(x * USPERSEC + y, j * USPERSEC + k);
  }

  /**
   For normalised stamps the board's `us` is the formula's value wrapped once, so it is that
   value exactly if it fits in 32 bits, about 35 minutes either way.
   */
  lemma MicrosStored(t0: Stamp, t1: Stamp)
    requires Normal(t0, NSPERSEC) && Normal(t1, NSPERSEC)
    ensures MicrosInWords(t0, t1) == ToInt(Micros(t0, t1))
    ensures MicrosInWords(t0, t1) == Micros(t0, t1) <==> -INT_RANGE / 2 <= Micros(t0, t1) < INT_RANGE / 2
  {
    ToIntExactly(t1.frac - t0.frac);
    ProductInWords(t1.sec - t0.sec, Trunc(t1.frac - t0.frac, 1000));
    ToIntExactly(Micros(t0, t1));
  }
}
