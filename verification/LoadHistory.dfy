/** The decisions of load1_thread in sresar/sresar.c, over the unbounded history of its records.

    Loads are exact reals.  A history starts with the 16 nodes of the ring as circular_linkedlist_init leaves
    them: load1 is zero, and the fields it does not set hold anything. */
module LoadHistory {

  /** LIST_SIZE. */
  const RING: nat := 16

  /** The values of a Node. */
  datatype Record = Record(load1: real, load5s: int, load5sState: int, zoom: int)

  /** load1m_baseline and load5s_baseline. */
  datatype Baselines = Baselines(load1m: int, load5s: int)

  /** `round` of the C library: halves go away from zero. */
  function Round(x: real): (r: int)
    ensures x - 0.5 <= r as real <= x + 0.5
    ensures r as real == x + 0.5 ==> x > 0.0
    ensures r as real == x - 0.5 ==> x < 0.0
  {
    if x >= 0.0 then (x + 0.5).Floor else -((0.5 - x).Floor)
  }

  /** A conversion to int, towards zero. */
  function Truncate(x: real): (r: int)
    ensures x >= 0.0 ==> r >= 0 && r as real <= x < r as real + 1.0
    ensures x <= 0.0 ==> r <= 0 && r as real - 1.0 < x <= r as real
  {
    if x >= 0.0 then x.Floor else -((-x).Floor)
  }

  /** What load5s is rounded from. */
  function Estimate(load1: real, prev: real): real {
    (2048.0 * (2048.0 * load1 - 10.0) - 1024.0 - 1884.0 * 2048.0 * prev) / 164.0 / 2048.0
  }

  /** load5s of two successive readings of load1. */
  function Load5s(load1: real, prev: real): int {
    Round(Estimate(load1, prev))
  }

  /** get_prevnode_state: the latest zoom state among the last `n` records that is not zero, or zero. */
  function PrevState(h: seq<Record>, n: nat): (z: int)
    requires n <= |h|
    ensures z == 0 <==> forall j :: |h| - n <= j < |h| ==> h[j].zoom == 0
  {
    if n == 0 then 0
    else if h[|h| - 1].zoom != 0 then h[|h| - 1].zoom
    else PrevState(h[..|h| - 1], n - 1)
  }

  /** Both loads are more than five percent above those of the record before. */
  predicate Rises(load1: real, load5s: int, prev: Record) {
    load5s as real > 1.05 * prev.load5s as real && load1 > 1.05 * prev.load1
  }

  /** The record of the reading `load1` after the history `h`. */
  function NewRecord(h: seq<Record>, load1: real, base: Baselines): Record
    requires |h| >= RING
  {
    var prev := h[|h| - 1];
    if load1 == 0.0 || prev.load1 == 0.0 then
      var v := Truncate(load1);
      var over := v > base.load1m;
      Record(load1, v, if over then 2 else 0, if over && PrevState(h, 9) == 0 then 3 else 0)
    else
      var v := Load5s(load1, prev.load1);
      var over := v > base.load5s;
      Record(load1, v, if over then 2 else 0,
             if over && (Rises(load1, v, prev) || PrevState(h, 9) == 0) then 3 else 0)
  }

  /** The histories that load1_thread can have. */
  predicate IsHistory(h: seq<Record>, base: Baselines) {
    |h| >= RING &&
    (forall i :: 0 <= i < RING ==> h[i].load1 == 0.0) &&
    (forall i :: RING <= i < |h| ==> IsStep(h[..i], h[i], base))
  }

  /** A change of load1 has been recorded. */
  predicate IsStep(h: seq<Record>, r: Record, base: Baselines) {
    |h| >= RING && r.load1 != h[|h| - 1].load1 && r == NewRecord(h, r.load1, base)
  }

  lemma HistoryStep(h: seq<Record>, base: Baselines, i: nat)
    requires IsHistory(h, base) && RING <= i < |h|
    ensures IsStep(h[..i], h[i], base)
  {
  }

  // ----- what a record says -------------------------------------------------------------------

  /** The record is of the 5s type: it and the one before show a load. */
  predicate Is5s(h: seq<Record>, i: nat)
    requires 0 < i < |h|
  {
    h[i].load1 != 0.0 && h[i - 1].load1 != 0.0
  }

  predicate Over(h: seq<Record>, i: nat, base: Baselines)
    requires 0 < i < |h|
  {
    h[i].load5s > if Is5s(h, i) then base.load5s else base.load1m
  }

  predicate Rise(h: seq<Record>, i: nat)
    requires 0 < i < |h|
  {
    Is5s(h, i) && Rises(h[i].load1, h[i].load5s, h[i - 1])
  }

  /** The record has triggered detail collection. */
  predicate Triggered(h: seq<Record>, i: nat)
    requires i < |h|
  {
    h[i].zoom != 0
  }

  /** A record triggers collection if and only if it is over its threshold and either rises or has no
      trigger among the nine records before it. */
  lemma TriggeredIff(h: seq<Record>, base: Baselines, i: nat)
    requires IsHistory(h, base) && RING <= i < |h|
    ensures Triggered(h, i) <==>
            Over(h, i, base) && (Rise(h, i) || forall j :: i - 9 <= j < i ==> !Triggered(h, j))
    ensures h[i].load5sState == if Over(h, i, base) then 2 else 0
  {
    hide IsHistory, PrevState, Load5s, Rises, Truncate;
    var p := h[..i];
    HistoryStep(h, base, i);
    assert p[|p| - 1] == h[i - 1];
    if forall j :: i - 9 <= j < i ==> !Triggered(h, j) {
      assert forall j :: |p| - 9 <= j < |p| ==> p[j].zoom == 0 by {
        assert forall j :: i - 9 <= j < i ==> p[j] == h[j] && !Triggered(h, j);
      }
    } else {
      var j :| i - 9 <= j < i && Triggered(h, j);
      assert p[j] == h[j];
    }
  }

  /** A rise in whole numbers: both loads are more than a twentieth above those of the record before. */
  lemma RiseIff(h: seq<Record>, i: nat)
    requires 0 < i < |h|
    ensures Rise(h, i) <==>
              Is5s(h, i) && 20 * h[i].load5s > 21 * h[i - 1].load5s && 20.0 * h[i].load1 > 21.0 * h[i - 1].load1
  {
    var a, b := h[i].load5s, h[i - 1].load5s;
    assert a as real > 1.05 * b as real <==> (20 * a) as real > (21 * b) as real;
  }

  /** What a record holds: a new reading; its integer part, or the estimate, rounded; and 3 if it triggers. */
  lemma RecordHolds(h: seq<Record>, base: Baselines, i: nat)
    requires IsHistory(h, base) && RING <= i < |h|
    ensures h[i].load1 != h[i - 1].load1
    ensures !Is5s(h, i) && h[i].load1 >= 0.0 ==> h[i].load5s as real <= h[i].load1 < h[i].load5s as real + 1.0
    ensures Is5s(h, i) ==>
              var x := Estimate(h[i].load1, h[i - 1].load1); x - 0.5 <= h[i].load5s as real <= x + 0.5
    ensures h[i].zoom == if Triggered(h, i) then 3 else 0
  {
    hide IsHistory, PrevState, Estimate, Rises;
    HistoryStep(h, base, i);
  }

  /** Of two triggers fewer than ten records apart, the later one is a rise. */
  lemma CloseTriggersRise(h: seq<Record>, base: Baselines, i: nat, j: nat)
    requires IsHistory(h, base) && i < j < i + 10 && RING <= j < |h|
    requires Triggered(h, i) && Triggered(h, j)
    ensures Rise(h, j)
  {
    TriggeredIff(h, base, j);
  }

  /** A record over its threshold has a trigger among itself and the nine before it.  With nine predecessors
      that were really recorded, the trigger is one of them, whatever the nodes held at the start. */
  lemma OverIsCovered(h: seq<Record>, base: Baselines, i: nat)
    requires IsHistory(h, base) && RING <= i < |h| && Over(h, i, base)
    ensures exists j :: i - 9 <= j <= i && Triggered(h, j)
    ensures i >= RING + 9 ==> exists j :: RING <= j <= i && i - 9 <= j && Triggered(h, j)
  {
    TriggeredIff(h, base, i);
    if Triggered(h, i) {
      assert i - 9 <= i <= i;
    }
  }

  /** The first record triggers if and only if it is over its threshold and no node it looks back at happens
      to hold a zoom state: the nodes are not cleared at the start. */
  lemma FirstRecord(h: seq<Record>, base: Baselines)
    requires IsHistory(h, base) && |h| > RING
    ensures !Is5s(h, RING)
    ensures Triggered(h, RING) <==>
              Truncate(h[RING].load1) > base.load1m && forall j :: 7 <= j < RING ==> h[j].zoom == 0
  {
    TriggeredIff(h, base, RING);
    assert IsStep(h[..RING], h[RING], base);
    assert forall j :: 7 <= j < RING ==> (Triggered(h, j) <==> h[j].zoom != 0);
  }

  // ----- how many triggers --------------------------------------------------------------------

  /** The triggers among the `n` records from `a` on. */
  function Triggers(h: seq<Record>, a: nat, n: nat): nat
    requires a + n <= |h|
    decreases n
  {
    if n == 0 then 0 else (if Triggered(h, a) then 1 else 0) + Triggers(h, a + 1, n - 1)
  }

  lemma {:induction false} TriggersSplit(h: seq<Record>, a: nat, m: nat, n: nat)
    requires a + m + n <= |h|
    ensures Triggers(h, a, m + n) == Triggers(h, a, m) + Triggers(h, a + m, n)
    decreases m
  {
    if m > 0 {
      TriggersSplit(h, a + 1, m - 1, n);
    }
  }

  lemma {:induction false} NoTriggers(h: seq<Record>, a: nat, n: nat)
    requires a + n <= |h| && forall i :: a <= i < a + n ==> !Triggered(h, i)
    ensures Triggers(h, a, n) == 0
    decreases n
  {
    if n > 0 {
      NoTriggers(h, a + 1, n - 1);
    }
  }

  lemma {:induction false} SomeTrigger(h: seq<Record>, a: nat, n: nat, i: nat)
    requires a + n <= |h| && a <= i < a + n && Triggered(h, i)
    ensures Triggers(h, a, n) >= 1
    decreases n
  {
    if i > a {
      SomeTrigger(h, a + 1, n - 1, i);
    }
  }

  /** Among any `n` successive records without a rise, at most one in ten, rounded up, triggers. */
  lemma {:induction false} TriggersAreSparse(h: seq<Record>, base: Baselines, a: nat, n: nat)
    requires IsHistory(h, base) && RING <= a && a + n <= |h|
    requires forall i :: a <= i < a + n ==> !Rise(h, i)
    ensures Triggers(h, a, n) <= (n + 9) / 10
    decreases n
  {
    hide IsHistory, Triggered, Rise;
    if n > 0 {
      if Triggered(h, a) {
        var m := if n < 10 then n else 10;
        forall j | a + 1 <= j < a + m ensures !Triggered(h, j) {
          if Triggered(h, j) {
            CloseTriggersRise(h, base, a, j);
          }
        }
        NoTriggers(h, a + 1, m - 1);
        TriggersSplit(h, a, m, n - m);
        TriggersAreSparse(h, base, a + m, n - m);
      } else {
        TriggersAreSparse(h, base, a + 1, n - 1);
      }
    }
  }

  /** Among any `n` successive records over their threshold, at least one in ten, rounded down, triggers. */
  lemma {:induction false} TriggersAreFrequent(h: seq<Record>, base: Baselines, a: nat, n: nat)
    requires IsHistory(h, base) && RING <= a && a + n <= |h|
    requires forall i :: a <= i < a + n ==> Over(h, i, base)
    ensures Triggers(h, a, n) >= n / 10
    decreases n
  {
    hide IsHistory, Triggered, Over;
    if n >= 10 {
      OverIsCovered(h, base, a + 9);
      var j :| a <= j <= a + 9 && Triggered(h, j);
      SomeTrigger(h, a, 10, j);
      TriggersSplit(h, a, 10, n - 10);
      TriggersAreFrequent(h, base, a + 10, n - 10);
    }
  }

  // ----- the nodes that are not initialised ---------------------------------------------------

  lemma StartIsZero(h: seq<Record>, base: Baselines, i: nat)
    requires IsHistory(h, base) && i < |h|
    ensures i < RING ==> h[i].load1 == 0.0
  {
  }

  /** Two histories of the same readings agree on both loads and on the load state, whatever the ring held at
      the start: only the zoom states can differ. */
  lemma LoadsIgnoreStart(g: seq<Record>, h: seq<Record>, base: Baselines, i: nat)
    requires IsHistory(g, base) && IsHistory(h, base) && |g| == |h| && RING <= i < |h|
    requires forall j :: RING <= j < |h| ==> g[j].load1 == h[j].load1
    ensures g[i].load5s == h[i].load5s && g[i].load5sState == h[i].load5sState
  {
    hide IsHistory, PrevState, Load5s, Rises, Truncate;
    HistoryStep(g, base, i);
    HistoryStep(h, base, i);
    assert g[i].load1 == h[i].load1;
    assert g[i - 1].load1 == h[i - 1].load1 by {
      StartIsZero(g, base, i - 1);
      StartIsZero(h, base, i - 1);
    }
  }
}
