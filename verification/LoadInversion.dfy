/** load5s undoes one step of the kernel's load average: it is the number of active tasks of that step.

    The kernel keeps the load in units of 1/2048 (FIXED_1), and every five seconds calc_load mixes in the
    active tasks with the weight 164 = 2048 - 1884 (EXP_1).  /proc/loadavg shows two decimals, cut off after
    5/1000 have been added.  Everything here is exact; the rounding of doubles is not modelled. */
module LoadInversion {
  import opened LoadHistory

  /** How a calc_load rounds: the older one adds one half, the newer one rounds up while the load rises. */
  datatype Rounding = HalfUp | UpWhenRising

  /** calc_load with `n` active tasks. */
  function CalcLoad(load: nat, n: nat, how: Rounding): nat {
    var mixed := load * 1884 + n * 2048 * 164;
    match how
    case HalfUp => (mixed + 1024) / 2048
    case UpWhenRising => (if n * 2048 >= load then mixed + 2047 else mixed) / 2048
  }

  /** LOAD_INT and LOAD_FRAC of the load plus FIXED_1/200, as the reader of /proc/loadavg sees them. */
  function Shown(load: nat): real {
    var x := load + 2048 / 200;
    (x / 2048) as real + ((x % 2048 * 100) / 2048) as real / 100.0
  }

  /** The reading is the load plus 10, cut off after two decimals. */
  lemma ShownIsCutOff(load: nat)
    ensures Shown(load) == ((100 * (load + 10)) / 2048) as real / 100.0
  {
    var x := load + 10;
    var q, f := x / 2048, x % 2048;
    assert 100 * x == 2048 * (100 * q) + f * 100;
    DivShift(100 * q, f * 100);
    assert (100 * q + f * 100 / 2048) as real / 100.0 == q as real + (f * 100 / 2048) as real / 100.0;
  }

  lemma DivShift(q: nat, r: nat)
    ensures (2048 * q + r) / 2048 == q + r / 2048
  {
  }

  /** A reading is at most 10/2048 too large and less than 10.48/2048 too small. */
  lemma ShownBounds(load: nat)
    ensures load as real - 10.48 < 2048.0 * Shown(load) <= load as real + 10.0
  {
    ShownIsCutOff(load);
    var k := (100 * (load + 10)) / 2048;
    assert 2048 * k <= 100 * (load + 10) < 2048 * k + 2048;
    assert (2048 * k) as real == 2048.0 * k as real;
    assert 2048.0 * (k as real / 100.0) == (2048 * k) as real / 100.0;
  }

  /** 2048 times the new load is the mixed load up to the rounding. */
  lemma CalcLoadBounds(load: nat, n: nat, how: Rounding)
    ensures var mixed := load * 1884 + n * 335872;
            mixed - 2047 <= 2048 * CalcLoad(load, n, how) <= mixed + 2047
  {
  }

  /** The estimate is the number of active tasks with an error between -0.2 and 0.07. */
  lemma EstimateError(load: nat, n: nat, how: Rounding)
    ensures n as real - 0.2 < Estimate(Shown(CalcLoad(load, n, how)), Shown(load)) < n as real + 0.07
  {
    var next := CalcLoad(load, n, how);
    ShownBounds(load);
    ShownBounds(next);
    CalcLoadBounds(load, n, how);
    EstimateOf(Shown(next), Shown(load), next, load, n);
  }

  /** The same with readings and loads at their bounds. */
  lemma EstimateOf(c: real, p: real, next: nat, load: nat, n: nat)
    requires load as real - 10.48 < 2048.0 * p <= load as real + 10.0
    requires next as real - 10.48 < 2048.0 * c <= next as real + 10.0
    requires load * 1884 + n * 335872 - 2047 <= 2048 * next <= load * 1884 + n * 335872 + 2047
    ensures n as real - 0.2 < Estimate(c, p) < n as real + 0.07
  {
    var e := 2048.0 * (2048.0 * c - 10.0) - 1024.0 - 1884.0 * 2048.0 * p;
    assert Estimate(c, p) == e / 335872.0;
    assert n as real * 335872.0 - 67174.4 < e < n as real * 335872.0 + 23511.04;
  }

  lemma RoundNear(x: real, n: nat)
    requires n as real - 0.5 < x < n as real + 0.5
    ensures Round(x) == n
  {
  }

  /** load5s of two readings one kernel step apart is exactly the number of active tasks in that step. */
  lemma Load5sIsActive(load: nat, n: nat, how: Rounding)
    ensures Load5s(Shown(CalcLoad(load, n, how)), Shown(load)) == n
  {
    EstimateError(load, n, how);
    RoundNear(Estimate(Shown(CalcLoad(load, n, how)), Shown(load)), n);
  }

  // ----- over a whole run ---------------------------------------------------------------------

  /** The records from `a` on show the kernel's loads, one step after the other, with `tasks[i]` active tasks
      in step `i`. */
  predicate Follows(h: seq<Record>, a: nat, loads: seq<nat>, tasks: seq<nat>, how: Rounding) {
    a + |loads| <= |h| && |tasks| == |loads| &&
    forall i :: 0 < i < |loads| ==> IsKernelStep(h, a, loads, tasks, how, i)
  }

  predicate IsKernelStep(h: seq<Record>, a: nat, loads: seq<nat>, tasks: seq<nat>, how: Rounding, i: nat)
    requires a + |loads| <= |h| && |tasks| == |loads| && 0 < i < |loads|
  {
    loads[i] == CalcLoad(loads[i - 1], tasks[i], how) &&
    h[a + i - 1].load1 == Shown(loads[i - 1]) && h[a + i].load1 == Shown(loads[i])
  }

  /** Along such a run every record of the 5s type holds the number of active tasks, and it is over its
      threshold if and only if that number is. */
  lemma RecordsHoldActive(h: seq<Record>, base: Baselines, a: nat, loads: seq<nat>, tasks: seq<nat>, how: Rounding,
                          i: nat)
    requires IsHistory(h, base) && RING <= a && Follows(h, a, loads, tasks, how)
    requires 0 < i < |loads| && Is5s(h, a + i)
    ensures h[a + i].load5s == tasks[i]
    ensures h[a + i].load5sState == if tasks[i] > base.load5s then 2 else 0
  {
    hide IsHistory, Load5s, Shown, CalcLoad, PrevState, Rises;
    assert IsKernelStep(h, a, loads, tasks, how, i);
    HistoryStep(h, base, a + i);
    Load5sIsActive(loads[i - 1], tasks[i], how);
  }
}
