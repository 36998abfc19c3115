/** randomlize of sresar/utils.c, and the sample of D tasks that loadrd of sresar/sresar.c takes with it. */
module Shuffle {
  import opened Sequences

  /** The draws `rand() % (n - i)` for n entries. */
  predicate IsDraws(ds: seq<nat>, n: nat) {
    |ds| == n && forall i :: 0 <= i < n ==> ds[i] < n - i
  }

  /** The order that the draws give: each draw picks one of the entries that are left, and the first of those
      takes its place. */
  function Picked<T>(s: seq<T>, ds: seq<nat>): (t: seq<T>)
    requires IsDraws(ds, |s|)
    ensures |t| == |s|
    decreases |s|
  {
    if s == [] then []
    else
      var rest := Swapped(s, 0, ds[0]);
      [rest[0]] + Picked(rest[1..], ds[1..])
  }

  /** randomlize on the first `n` entries; `rands[i]` is what rand() returns in round `i`. */
  method Randomlize(arr: array<int>, n: nat, rands: seq<nat>)
    requires n <= arr.Length && |rands| == n
    modifies arr
    ensures arr[..n] == Picked(old(arr[..n]), Residues(rands, n)) && arr[n..] == old(arr[n..])
  {
    hide Picked, Swapped, Shown;
    ghost var was, ds := arr[..], Residues(rands, n);
    StartShown(was, n, ds);
    for i := 0 to n
      invariant Shown(arr[..], i, n, ds) == Shown(was, 0, n, ds) && arr[..][n..] == was[n..]
    {
      RoundKeeps(arr[..], i, n, ds);
      var j := rands[i] % (n - i) + i;
      Swap(arr, i, j);
    }
    EndShown(arr[..], n, ds);
    assert arr[..][..n] == arr[..n] && arr[..][n..] == arr[n..];
    assert was[..n] == old(arr[..n]) && was[n..] == old(arr[n..]);
  }

  method Swap(arr: array<int>, i: nat, j: nat)
    requires i < arr.Length && j < arr.Length
    modifies arr
    ensures arr[..] == Swapped(old(arr[..]), i, j)
  {
    var tmp := arr[i];
    arr[i] := arr[j];
    arr[j] := tmp;
  }

  /** The first `i` places with the order that the rest of the draws gives behind them. */
  function Shown(s: seq<int>, i: nat, n: nat, ds: seq<nat>): seq<int>
    requires i <= n <= |s| && IsDraws(ds, n)
  {
    assert IsDraws(ds[i..], n - i);
    s[..i] + Picked(s[i..n], ds[i..])
  }

  lemma StartShown(s: seq<int>, n: nat, ds: seq<nat>)
    requires n <= |s| && IsDraws(ds, n)
    ensures Shown(s, 0, n, ds) == Picked(s[..n], ds)
  {
    assert s[0..n] == s[..n] && ds[0..] == ds;
  }

  lemma EndShown(s: seq<int>, n: nat, ds: seq<nat>)
    requires n <= |s| && IsDraws(ds, n)
    ensures Shown(s, n, n, ds) == s[..n]
  {
  }

  lemma RoundKeeps(s: seq<int>, i: nat, n: nat, ds: seq<nat>)
    requires i < n <= |s| && IsDraws(ds, n)
    ensures var t := Swapped(s, i, i + ds[i]);
            Shown(t, i + 1, n, ds) == Shown(s, i, n, ds) && t[n..] == s[n..]
  {
    hide Picked;
    var t := Swapped(s, i, i + ds[i]);
    var left := s[i..n];
    var rest := Swapped(left, 0, ds[i]);
    assert IsDraws(ds[i..], n - i) && ds[i..][0] == ds[i] && ds[i..][1..] == ds[i + 1..];
    PickedStep(left, ds[i..]);
    assert t[i..n] == rest && t[i + 1..n] == rest[1..];
    assert t[..i + 1] == s[..i] + [rest[0]];
  }

  function Residues(rands: seq<nat>, n: nat): (ds: seq<nat>)
    requires |rands| == n
    ensures IsDraws(ds, n)
    ensures forall i :: 0 <= i < n ==> ds[i] == rands[i] % (n - i)
  {
    seq(n, i requires 0 <= i < n => Residue(rands[i], n - i))
  }

  function Residue(r: nat, m: nat): (d: nat)
    requires m > 0
    ensures d < m && d == r % m
  {
    r % m
  }

  lemma PickedStep<T>(s: seq<T>, ds: seq<nat>)
    requires s != [] && IsDraws(ds, |s|)
    ensures IsDraws(ds[1..], |s| - 1)
    ensures Picked(s, ds) == [Swapped(s, 0, ds[0])[0]] + Picked(Swapped(s, 0, ds[0])[1..], ds[1..])
  {
  }

  /** D_STATE_SAMPLE. */
  const SAMPLE: nat := 100

  function SampleSize(n: nat): nat {
    if n < SAMPLE then n else SAMPLE
  }

  /** The tasks whose stacks loadrd reads: all of them in order, or the front of a random order. */
  method StackSample(tids: array<int>, n: nat, disabled: bool, rands: seq<nat>) returns (read: seq<int>)
    requires n <= tids.Length && |rands| == n
    modifies tids
    ensures read == if disabled then old(tids[..n]) else Picked(old(tids[..n]), Residues(rands, n))[..SampleSize(n)]
  {
    var real_size := n;
    if !disabled {
      Randomlize(tids, n, rands);
      real_size := if n < SAMPLE then n else SAMPLE;
    }
    read := [];
    for j := 0 to real_size
      invariant read == tids[..j]
    {
      read := read + [tids[j]];
    }
  }

  // ----- every permutation from exactly one sequence of draws ---------------------------------

  lemma PermutesTail<T>(a: seq<T>, b: seq<T>)
    requires a != [] && b != [] && a[0] == b[0]
    ensures Permutes(a, b) <==> Permutes(a[1..], b[1..])
  {
    assert a == [a[0]] + a[1..] && b == [b[0]] + b[1..];
    assert multiset(a) == multiset{a[0]} + multiset(a[1..]) && multiset(b) == multiset{b[0]} + multiset(b[1..]);
    assert multiset(a[1..]) == multiset(a) - multiset{a[0]} && multiset(b[1..]) == multiset(b) - multiset{b[0]};
  }

  /** Whatever is drawn, the result is a permutation. */
  lemma {:induction false} PickedPermutes<T>(s: seq<T>, ds: seq<nat>)
    requires IsDraws(ds, |s|)
    ensures Permutes(s, Picked(s, ds))
    decreases |s|
  {
    if s != [] {
      hide Permutes;
      var rest := Swapped(s, 0, ds[0]);
      SwapPermutes(s, 0, ds[0]);
      PickedPermutes(rest[1..], ds[1..]);
      PermutesTail(rest, Picked(s, ds));
      PermutesTrans(s, rest, Picked(s, ds));
    }
  }

  lemma DistinctRest<T>(s: seq<T>, j: nat)
    requires AllDistinct(s) && j < |s|
    ensures AllDistinct(Swapped(s, 0, j)[1..])
  {
  }

  /** Different draws give different orders. */
  lemma {:induction false} PickedInjective<T>(s: seq<T>, ds: seq<nat>, es: seq<nat>)
    requires AllDistinct(s) && IsDraws(ds, |s|) && IsDraws(es, |s|) && Picked(s, ds) == Picked(s, es)
    ensures ds == es
    decreases |s|
  {
    if s != [] {
      var d, e := Swapped(s, 0, ds[0]), Swapped(s, 0, es[0]);
      assert Picked(s, ds)[0] == s[ds[0]] && Picked(s, es)[0] == s[es[0]];
      assert ds[0] == es[0];
      DistinctRest(s, ds[0]);
      assert Picked(s, ds)[1..] == Picked(d[1..], ds[1..]) && Picked(s, es)[1..] == Picked(e[1..], es[1..]);
      PickedInjective(d[1..], ds[1..], es[1..]);
      assert ds == [ds[0]] + ds[1..] && es == [es[0]] + es[1..];
    }
  }

  /** Every permutation comes from some draws. */
  lemma {:induction false} PickedSurjective<T>(s: seq<T>, t: seq<T>) returns (ds: seq<nat>)
    requires Permutes(s, t)
    ensures IsDraws(ds, |s|) && Picked(s, ds) == t
    decreases |s|
  {
    SameLength(s, t);
    if s == [] {
      ds := [];
    } else {
      hide Permutes, Picked;
      HeadIsThere(s, t);
      var d: nat :| d < |s| && s[d] == t[0];
      var rest := Swapped(s, 0, d);
      SwapPermutes(s, 0, d);
      PermutesVia(s, rest, t);
      PermutesTail(rest, t);
      var es := PickedSurjective(rest[1..], t[1..]);
      ds := [d] + es;
      assert ds[1..] == es;
      PickedStep(s, ds);
      assert t == [t[0]] + t[1..];
    }
  }

  lemma HeadIsThere<T>(s: seq<T>, t: seq<T>)
    requires Permutes(s, t) && t != []
    ensures t[0] in s
  {
    assert t[0] in multiset(s);
  }

  lemma PermutesVia<T>(s: seq<T>, a: seq<T>, b: seq<T>)
    requires Permutes(s, a) && Permutes(s, b)
    ensures Permutes(a, b)
  {
  }

  lemma SameLength<T>(s: seq<T>, t: seq<T>)
    requires Permutes(s, t)
    ensures |s| == |t|
  {
    assert |multiset(s)| == |s| && |multiset(t)| == |t|;
  }

  /** For distinct entries the draws and the permutations correspond one to one. */
  lemma DrawsAreBijective<T>(s: seq<T>, t: seq<T>)
    requires AllDistinct(s)
    ensures Permutes(s, t) <==> exists ds :: IsDraws(ds, |s|) && Picked(s, ds) == t
    ensures forall ds, es ::
              IsDraws(ds, |s|) && IsDraws(es, |s|) && Picked(s, ds) == t && Picked(s, es) == t ==> ds == es
  {
    hide Permutes, Picked;
    if Permutes(s, t) {
      var ds := PickedSurjective(s, t);
    }
    forall ds | IsDraws(ds, |s|) && Picked(s, ds) == t ensures Permutes(s, t) {
      PickedPermutes(s, ds);
    }
    forall ds, es | IsDraws(ds, |s|) && IsDraws(es, |s|) && Picked(s, ds) == t && Picked(s, es) == t ensures ds == es {
      PickedInjective(s, ds, es);
    }
  }

  // ----- how often a sample comes up ----------------------------------------------------------

  function Factorial(n: nat): nat {
    if n == 0 then 1 else n * Factorial(n - 1)
  }

  /** All draws for `n` entries. */
  function AllDraws(n: nat): seq<seq<nat>>
    decreases n, n + 1
  {
    if n == 0 then [[]] else DrawsFrom(n, 0)
  }

  /** Those whose first draw is `d` or more. */
  function DrawsFrom(n: nat, d: nat): seq<seq<nat>>
    requires n > 0 && d <= n
    decreases n, n - d
  {
    if d == n then [] else Prepended(d, AllDraws(n - 1)) + DrawsFrom(n, d + 1)
  }

  function Prepended(d: nat, xs: seq<seq<nat>>): (ys: seq<seq<nat>>)
    ensures |ys| == |xs|
    ensures forall i :: 0 <= i < |xs| ==> ys[i] == [d] + xs[i]
  {
    seq(|xs|, i requires 0 <= i < |xs| => [d] + xs[i])
  }

  /** The list has every sequence of draws, and nothing else. */
  lemma {:induction false} AllDrawsComplete(n: nat, ds: seq<nat>)
    ensures ds in AllDraws(n) <==> IsDraws(ds, n)
    decreases n, n + 1
  {
    if n > 0 {
      DrawsFromComplete(n, 0, ds);
    }
  }

  lemma {:induction false} DrawsFromComplete(n: nat, d: nat, ds: seq<nat>)
    requires n > 0 && d <= n
    ensures ds in DrawsFrom(n, d) <==> IsDraws(ds, n) && d <= ds[0]
    decreases n, n - d
  {
    if d < n {
      DrawsFromComplete(n, d + 1, ds);
      PrependedComplete(n, d, ds);
    }
  }

  lemma {:induction false} PrependedComplete(n: nat, d: nat, ds: seq<nat>)
    requires n > 0 && d < n
    ensures ds in Prepended(d, AllDraws(n - 1)) <==> IsDraws(ds, n) && ds[0] == d
    decreases n, 0
  {
    var xs := AllDraws(n - 1);
    if ds != [] {
      AllDrawsComplete(n - 1, ds[1..]);
      assert ds == [ds[0]] + ds[1..];
      if ds[0] == d && ds[1..] in xs {
        var i :| 0 <= i < |xs| && xs[i] == ds[1..];
        assert Prepended(d, xs)[i] == ds;
      }
      if ds in Prepended(d, xs) {
        var i :| 0 <= i < |xs| && Prepended(d, xs)[i] == ds;
        assert ([d] + xs[i])[1..] == xs[i];
      }
    }
  }

  /** The list has none of them twice. */
  lemma {:induction false} AllDrawsDistinct(n: nat)
    ensures AllDistinct(AllDraws(n))
    decreases n, n + 1
  {
    if n > 0 {
      DrawsFromDistinct(n, 0);
    }
  }

  lemma {:induction false} DrawsFromDistinct(n: nat, d: nat)
    requires n > 0 && d <= n
    ensures AllDistinct(DrawsFrom(n, d))
    decreases n, n - d
  {
    if d < n {
      var a, b := Prepended(d, AllDraws(n - 1)), DrawsFrom(n, d + 1);
      AllDrawsDistinct(n - 1);
      DrawsFromDistinct(n, d + 1);
      forall i, j | 0 <= i < |a| && 0 <= j < |b| ensures a[i] != b[j] {
        DrawsFromComplete(n, d + 1, b[j]);
        assert b[j] in b;
      }
      forall i, j | 0 <= i < j < |a| ensures a[i] != a[j] {
        assert a[i][1..] == AllDraws(n - 1)[i] && a[j][1..] == AllDraws(n - 1)[j];
      }
    }
  }

  /** The draws whose order starts with `p`. */
  predicate StartsWith<T(==)>(s: seq<T>, ds: seq<nat>, p: seq<T>)
    requires |p| <= |s|
  {
    IsDraws(ds, |s|) && Picked(s, ds)[..|p|] == p
  }

  /** How many of the listed draws start with `p`. */
  function HowMany<T(==)>(s: seq<T>, p: seq<T>, xs: seq<seq<nat>>): nat
    requires |p| <= |s|
  {
    if xs == [] then 0 else (if StartsWith(s, xs[0], p) then 1 else 0) + HowMany(s, p, xs[1..])
  }

  lemma {:induction false} HowManyAppend<T>(s: seq<T>, p: seq<T>, xs: seq<seq<nat>>, ys: seq<seq<nat>>)
    requires |p| <= |s|
    ensures HowMany(s, p, xs + ys) == HowMany(s, p, xs) + HowMany(s, p, ys)
    decreases |xs|
  {
    hide StartsWith;
    if xs == [] {
      assert xs + ys == ys;
    } else {
      assert (xs + ys)[1..] == xs[1..] + ys;
      HowManyAppend(s, p, xs[1..], ys);
    }
  }

  lemma StartsWithStep<T>(s: seq<T>, p: seq<T>, d: nat, ds: seq<nat>)
    requires 0 < |p| <= |s| && d < |s|
    ensures StartsWith(s, [d] + ds, p) <==> s[d] == p[0] && StartsWith(Swapped(s, 0, d)[1..], ds, p[1..])
  {
    var rest := Swapped(s, 0, d);
    var es := [d] + ds;
    assert es[1..] == ds && forall i :: 0 <= i < |ds| ==> es[i + 1] == ds[i];
    if IsDraws(ds, |s| - 1) {
      assert IsDraws(es, |s|);
      PickedStep(s, es);
      var tail := Picked(rest[1..], ds);
      assert ([rest[0]] + tail)[..|p|] == [rest[0]] + tail[..|p| - 1];
      assert p == [p[0]] + p[1..];
    }
  }

  lemma {:induction false} HowManyPrepended<T>(s: seq<T>, p: seq<T>, d: nat, xs: seq<seq<nat>>)
    requires 0 < |p| <= |s| && d < |s|
    ensures HowMany(s, p, Prepended(d, xs))
         == if s[d] == p[0] then HowMany(Swapped(s, 0, d)[1..], p[1..], xs) else 0
    decreases |xs|
  {
    hide StartsWith;
    if xs != [] {
      StartsWithStep(s, p, d, xs[0]);
      assert Prepended(d, xs)[1..] == Prepended(d, xs[1..]);
      HowManyPrepended(s, p, d, xs[1..]);
    }
  }

  lemma {:induction false} CountDraws(n: nat)
    ensures |AllDraws(n)| == Factorial(n)
    decreases n, n + 1
  {
    if n > 0 {
      CountDrawsFrom(n, 0);
    }
  }

  lemma {:induction false} CountDrawsFrom(n: nat, d: nat)
    requires n > 0 && d <= n
    ensures |DrawsFrom(n, d)| == (n - d) * Factorial(n - 1)
    decreases n, n - d
  {
    if d < n {
      CountDraws(n - 1);
      CountDrawsFrom(n, d + 1);
      var f := Factorial(n - 1);
      assert f + (n - d - 1) * f == (n - d) * f;
    }
  }

  lemma {:induction false} HowManyAll<T>(s: seq<T>, xs: seq<seq<nat>>)
    requires forall ds <- xs :: IsDraws(ds, |s|)
    ensures HowMany(s, [], xs) == |xs|
    decreases |xs|
  {
    if xs != [] {
      assert xs[0] in xs;
      HowManyAll(s, xs[1..]);
    }
  }

  /** Without the entry at `k`, swapped away, the others are still there. */
  lemma OthersStay<T>(s: seq<T>, p: seq<T>, k: nat)
    requires AllDistinct(p) && p != [] && k < |s| && s[k] == p[0] && forall x <- p :: x in s
    ensures forall x <- p[1..] :: x in Swapped(s, 0, k)[1..]
  {
    var rest := Swapped(s, 0, k);
    forall x | x in p[1..] ensures x in rest[1..] {
      var i :| 0 <= i < |p[1..]| && p[1..][i] == x;
      assert p[i + 1] == x && x in p;
      var j :| 0 <= j < |s| && s[j] == x;
      assert x != p[0];
      assert rest[1..][if j == 0 then k - 1 else j - 1] == x;
    }
  }

  /** Every sample of `|p|` different entries comes up for the same number of draws: the orders of the others. */
  lemma {:induction false} SamplesAreFair<T>(s: seq<T>, p: seq<T>)
    requires AllDistinct(s) && AllDistinct(p) && |p| <= |s| && forall x <- p :: x in s
    ensures HowMany(s, p, AllDraws(|s|)) == Factorial(|s| - |p|)
    decreases |s|, |s| + 1
  {
    hide HowMany;
    if p == [] {
      forall ds | ds in AllDraws(|s|) ensures IsDraws(ds, |s|) {
        AllDrawsComplete(|s|, ds);
      }
      HowManyAll(s, AllDraws(|s|));
      CountDraws(|s|);
    } else {
      assert p[0] in p;
      var k: nat :| k < |s| && s[k] == p[0];
      FairFrom(s, p, k, 0);
    }
  }

  lemma {:induction false} FairFrom<T>(s: seq<T>, p: seq<T>, k: nat, d: nat)
    requires AllDistinct(s) && AllDistinct(p) && 0 < |p| <= |s| && (forall x <- p :: x in s)
    requires k < |s| && s[k] == p[0] && d <= |s|
    ensures HowMany(s, p, DrawsFrom(|s|, d)) == if d <= k then Factorial(|s| - |p|) else 0
    decreases |s|, |s| - d
  {
    if d < |s| {
      hide HowMany, StartsWith;
      var xs := AllDraws(|s| - 1);
      FairFrom(s, p, k, d + 1);
      HowManyAppend(s, p, Prepended(d, xs), DrawsFrom(|s|, d + 1));
      HowManyPrepended(s, p, d, xs);
      if d == k {
        DistinctRest(s, k);
        OthersStay(s, p, k);
        SamplesAreFair(Swapped(s, 0, k)[1..], p[1..]);
      }
    }
  }
}
