/**
 The node's timers: one per task plus one for the hyperperiod cycle, all armed from one start
 time, and the position inside the current cycle.
 */
module HyperperiodTimers {
  import opened HyperperiodMath
  import Tasks
  import Division

  const USEC_PER_SEC: nat := 1_000_000
  const NSEC_PER_SEC: nat := 1_000_000_000
  const NSEC_PER_USEC: nat := 1_000

  datatype Timespec = Timespec(sec: int, nsec: int)

  datatype ITimerSpec = ITimerSpec(value: Timespec, interval: Timespec)

  predicate Normalised(t: Timespec)
  {
    0 <= t.nsec < NSEC_PER_SEC
  }

  function Nanos(t: Timespec): int
  {
    t.sec * NSEC_PER_SEC + t.nsec
  }

  /** Arming of one task timer: first expiry at the start, then once per period. */
  method ArmTaskTimer(start: Timespec, periodUs: nat) returns (its: ITimerSpec)
    requires Normalised(start)
    ensures Normalised(its.value) && Normalised(its.interval)
    ensures Nanos(its.value) == Nanos(start)
    ensures Nanos(its.interval) == periodUs * NSEC_PER_USEC
  {
    its := ITimerSpec(start, Timespec(periodUs / USEC_PER_SEC, periodUs % USEC_PER_SEC * NSEC_PER_USEC));
  }

  /** Arming of the cycle timer: first expiry one hyperperiod after the start. One carry is enough. */
  method ArmHyperperiodTimer(start: Timespec, hyperperiodUs: nat) returns (its: ITimerSpec)
    requires Normalised(start)
    ensures Normalised(its.value) && Normalised(its.interval)
    ensures Nanos(its.value) == Nanos(start) + hyperperiodUs * NSEC_PER_USEC
    ensures Nanos(its.interval) == hyperperiodUs * NSEC_PER_USEC
  {
    var sec := start.sec + hyperperiodUs / USEC_PER_SEC;
    var nsec := start.nsec + hyperperiodUs % USEC_PER_SEC * NSEC_PER_USEC;
    if nsec >= NSEC_PER_SEC {
      sec := sec + 1;
      nsec := nsec - NSEC_PER_SEC;
    }
    its := ITimerSpec(Timespec(sec, nsec),
                      Timespec(hyperperiodUs / USEC_PER_SEC, hyperperiodUs % USEC_PER_SEC * NSEC_PER_USEC));
  }

  // ----- cycles

  /** Instant of the k-th expiry (from 0) of an armed timer, in nanoseconds. */
  function Expiry(its: ITimerSpec, k: nat): int
  {
    Nanos(its.value) + k * Nanos(its.interval)
  }

  /** The expiries of a task timer that fall in the j-th cycle, (start + jH, start + (j+1)H]. */
  ghost predicate InCycle(task: ITimerSpec, startNs: int, cycleNs: int, j: nat, k: nat)
  {
    startNs + j * cycleNs < Expiry(task, k) <= startNs + (j + 1) * cycleNs
  }

  /** A cycle length that ends every cycle on an expiry of every task timer. */
  ghost predicate Aligned(cycleUs: nat, periods: seq<nat>)
  {
    cycleUs > 0 &&
    forall i, j: nat :: 0 <= i < |periods| ==> EndsOnExpiry(periods[i], cycleUs, j)
  }

  ghost predicate EndsOnExpiry(periodUs: nat, cycleUs: nat, j: nat)
  {
    IsSomeMultiple((j + 1) * cycleUs, periodUs)
  }

  ghost predicate IsSomeMultiple(n: nat, p: nat)
  {
    exists k: nat :: IsMultiple(n, k, p)
  }

  predicate IsMultiple(n: nat, k: nat, p: nat)
  {
    n == k * p
  }

  /** In every hyperperiod cycle each task timer expires exactly H / p times, at consecutive
      expiry numbers, and the cycle's end is the instant of the last of them. */
  lemma CycleHoldsExactlyItsExpiries(start: Timespec, h: nat, p: nat, task: ITimerSpec, cycle: ITimerSpec, j: nat)
    requires Divides(p, h) && h > 0
    requires Nanos(task.value) == Nanos(start) && Nanos(task.interval) == p * NSEC_PER_USEC
    requires Nanos(cycle.value) == Nanos(start) + h * NSEC_PER_USEC && Nanos(cycle.interval) == h * NSEC_PER_USEC
    ensures forall k: nat :: InCycle(task, Nanos(start), h * NSEC_PER_USEC, j, k) <==>
                             j * (h / p) < k <= (j + 1) * (h / p)
    ensures Expiry(cycle, j) == Expiry(task, (j + 1) * (h / p))
    ensures (j + 1) * (h / p) - j * (h / p) == h / p > 0
  {
    var n := h / p;
    var pn := p * NSEC_PER_USEC;
    assert h == p * n;
    assert n == 0 ==> p * n == 0;
    assert h * NSEC_PER_USEC == n * pn;
    Regroup(j, n, pn);
    Regroup(j + 1, n, pn);
    assert (j + 1) * n == j * n + n;
    forall k: nat
      ensures InCycle(task, Nanos(start), h * NSEC_PER_USEC, j, k) <==> j * n < k <= (j + 1) * n
    {
      ScaledOrder(j * n, k, pn);
      ScaledOrder((j + 1) * n, k, pn);
    }
  }

  lemma Regroup(j: nat, n: nat, c: nat)
    ensures j * (n * c) == (j * n) * c
  {
  }

  lemma ScaledOrder(a: nat, b: nat, c: nat)
    requires c > 0
    ensures a * c < b * c <==> a < b
    ensures a * c <= b * c <==> a <= b
  {
  }

  /** The hyperperiod is the shortest aligned cycle, and every aligned cycle is a multiple of it. */
  lemma HyperperiodIsShortestAlignedCycle(h: nat, periods: seq<nat>)
    requires Positive(periods) && IsLcm(h, periods)
    ensures Aligned(h, periods)
    ensures forall c: nat :: Aligned(c, periods) ==> h <= c && Divides(h, c)
  {
    forall i, j: nat | 0 <= i < |periods| ensures EndsOnExpiry(periods[i], h, j) {
      var p := periods[i];
      assert h == p * (h / p);
      Regroup(j + 1, h / p, p);
      assert IsMultiple((j + 1) * h, (j + 1) * (h / p), p);
    }
    forall c: nat | Aligned(c, periods) ensures h <= c && Divides(h, c) {
      forall i | 0 <= i < |periods| ensures Divides(periods[i], c) {
        assert EndsOnExpiry(periods[i], c, 0);
        var k: nat :| IsMultiple((0 + 1) * c, k, periods[i]);
        DividesFromFactor(periods[i], c, k);
      }
      assert CommonMultiple(c, periods);
      DividesBounds(h, c);
    }
  }

  // ----- position inside the cycle

  /** Bitwise AND of two natural numbers, bit by bit. */
  function BitAnd(a: nat, b: nat): nat
  {
    if a == 0 || b == 0 then 0
    else (if a % 2 == 1 && b % 2 == 1 then 1 else 0) + 2 * BitAnd(a / 2, b / 2)
  }

  ghost predicate IsPow2(h: nat)
  {
    exists k: nat :: h == Tasks.Pow2(k)
  }

  lemma {:induction false} MaskTestFindsPow2(h: nat)
    requires h > 0
    ensures BitAnd(h, h - 1) == 0 <==> IsPow2(h)
  {
    if h == 1 {
      assert Tasks.Pow2(0) == 1;
    } else if h % 2 == 1 {
      assert BitAnd(h, h - 1) == 2 * BitAnd(h / 2, (h - 1) / 2);
      AndWithSelf(h / 2);
      forall k: nat ensures h != Tasks.Pow2(k) {
        assert k > 0 ==> Tasks.Pow2(k) % 2 == 0;
      }
    } else {
      assert (h - 1) / 2 == h / 2 - 1;
      MaskTestFindsPow2(h / 2);
      if IsPow2(h / 2) {
        var k: nat :| h / 2 == Tasks.Pow2(k);
        assert h == Tasks.Pow2(k + 1);
      }
      if IsPow2(h) {
        var k: nat :| h == Tasks.Pow2(k);
        assert h / 2 == Tasks.Pow2(k - 1);
      }
    }
  }

  lemma {:induction false} AndWithSelf(a: nat)
    ensures BitAnd(a, a) == a
  {
    if a > 0 {
      AndWithSelf(a / 2);
    }
  }

  lemma {:induction false} MaskIsRemainder(e: nat, k: nat)
    ensures BitAnd(e, Tasks.Pow2(k) - 1) == e % Tasks.Pow2(k)
  {
    if k > 0 {
      var p := Tasks.Pow2(k - 1);
      MaskIsRemainder(e / 2, k - 1);
      DoubledRemainder(e, p);
      AndWithOddMask(e, p - 1);
    }
  }

  lemma AndWithOddMask(e: nat, m: nat)
    ensures BitAnd(e, 2 * m + 1) == e % 2 + 2 * BitAnd(e / 2, m)
  {
  }

  lemma DoubledRemainder(e: nat, p: nat)
    requires p > 0
    ensures e % (2 * p) == e % 2 + 2 * ((e / 2) % p)
  {
    var q, r := (e / 2) / p, (e / 2) % p;
    assert e / 2 == p * q + r;
    assert (2 * p) * q == 2 * (p * q);
    Division.UniqueQuotient(e, 2 * p, q, 2 * r + e % 2);
  }

  /** Position inside the current cycle: zero before the timers start, otherwise the elapsed
      time modulo the hyperperiod, whichever of the two code paths is taken. Unsigned 64-bit
      subtraction wraps when the clock is behind the start. With no hyperperiod set the mask is
      all ones and the elapsed time comes back unchanged. */
  method RelativeTime(startUs: nat, nowUs: nat, hyperperiodUs: nat) returns (r: nat)
    requires startUs < U64 && nowUs < U64 && hyperperiodUs < U64
    ensures startUs == 0 ==> r == 0
    ensures startUs != 0 && hyperperiodUs > 0 ==> r == WrappingSub(nowUs, startUs) % hyperperiodUs
    ensures startUs != 0 && hyperperiodUs == 0 ==> r == WrappingSub(nowUs, startUs)
  {
    if startUs == 0 {
      return 0;
    }
    var elapsed := WrappingSub(nowUs, startUs);
    var mask := WrappingSub(hyperperiodUs, 1);
    if BitAnd(hyperperiodUs, mask) != 0 {
      r := elapsed % hyperperiodUs;
    } else {
      r := BitAnd(elapsed, mask);
      MaskPath(elapsed, hyperperiodUs);
    }
  }

  /** Unsigned 64-bit subtraction. */
  function WrappingSub(a: nat, b: nat): (d: nat)
    requires a < U64 && b < U64
    ensures d < U64 && (d == a - b || d == a - b + U64)
  {
    if a >= b then a - b else a - b + U64
  }

  lemma MaskPath(elapsed: nat, h: nat)
    requires elapsed < U64 && h < U64 && BitAnd(h, WrappingSub(h, 1)) == 0
    ensures BitAnd(elapsed, WrappingSub(h, 1)) == if h == 0 then elapsed else elapsed % h
  {
    if h == 0 {
      FullMask(elapsed);
    } else {
      MaskTestFindsPow2(h);
      var k: nat :| h == Tasks.Pow2(k);
      MaskIsRemainder(elapsed, k);
    }
  }

  lemma FullMask(elapsed: nat)
    requires elapsed < U64
    ensures BitAnd(elapsed, U64 - 1) == elapsed
  {
    U64IsPow2();
    MaskIsRemainder(elapsed, 64);
    SmallRemainder(elapsed, U64);
  }

  lemma SmallRemainder(n: nat, d: nat)
    requires n < d
    ensures n % d == n
  {
  }

  lemma U64IsPow2()
    ensures Tasks.Pow2(64) == U64
  {
    assert Tasks.Pow2(8) == 0x100;
    assert Tasks.Pow2(16) == 0x1_0000;
    assert Tasks.Pow2(24) == 0x100_0000;
    assert Tasks.Pow2(32) == 0x1_0000_0000;
    assert Tasks.Pow2(40) == 0x100_0000_0000;
    assert Tasks.Pow2(48) == 0x1_0000_0000_0000;
    assert Tasks.Pow2(56) == 0x100_0000_0000_0000;
  }
}
