/** The merge of file lists in init_sys_config of sresar/sresar.c: the most specific kernel release wins. */
module CollectConfig {
  import opened Sequences
  import opened Wrappers

  /** COLLECT_SIZE. */
  const SIZE: nat := 256

  /** The entries of the arrays; an empty src_path ends an array. */
  datatype Collect = Collect(src_path: string, cfile: string, uname: string, turn: bool, gzip: bool)

  const EMPTY := Collect("", "", "", false, false)

  /** One file to collect: sys_srcs, sys_targets and sys_gzips. */
  datatype Target = Target(src: string, target: string, gzip: bool)

  // ----- the order of strcmp ------------------------------------------------------------------

  /** strcmp(a, b) < 0. */
  predicate Less(a: string, b: string) {
    b != [] && (a == [] || a[0] < b[0] || (a[0] == b[0] && Less(a[1..], b[1..])))
  }

  lemma {:induction false} LessTotal(a: string, b: string)
    ensures Less(a, b) || Less(b, a) || a == b
    ensures !(Less(a, b) && Less(b, a))
  {
    if a != [] && b != [] && a[0] == b[0] {
      LessTotal(a[1..], b[1..]);
      assert a == [a[0]] + a[1..] && b == [b[0]] + b[1..];
    }
  }

  lemma {:induction false} NotLessTransitive(a: string, b: string, c: string)
    requires !Less(a, b) && !Less(b, c)
    ensures !Less(a, c)
  {
    if a != [] && b != [] && c != [] && a[0] == b[0] == c[0] {
      NotLessTransitive(a[1..], b[1..], c[1..]);
    }
  }

  /** `strstr(release, uname) == release`. */
  predicate IsPrefix(uname: string, release: string) {
    |uname| <= |release| && uname == release[..|uname|]
  }

  lemma PrefixIff(uname: string, release: string)
    ensures IsPrefix(uname, release) <==> exists rest: string :: release == uname + rest
  {
    if IsPrefix(uname, release) {
      assert release == uname + release[|uname|..];
    }
  }

  /** Among prefixes of one release, the order of strings is the order of lengths. */
  lemma {:induction false} PrefixOrder(a: string, b: string, release: string)
    requires IsPrefix(a, release) && IsPrefix(b, release)
    ensures Less(a, b) <==> |a| < |b|
  {
    if a != [] && b != [] {
      assert a[0] == release[0] == b[0];
      assert a[1..] == release[1..][..|a| - 1] && b[1..] == release[1..][..|b| - 1];
      PrefixOrder(a[1..], b[1..], release[1..]);
    }
  }

  // ----- the exchange sort --------------------------------------------------------------------

  predicate Descending(s: seq<Collect>) {
    forall i, j :: 0 <= i < j < |s| ==> InOrder(s[i], s[j])
  }

  predicate InOrder(x: Collect, y: Collect) {
    !Less(x.uname, y.uname)
  }

  method Swap(a: array<Collect>, i: nat, j: nat)
    requires i < j < a.Length
    modifies a
    ensures a[..] == Swapped(old(a[..]), i, j)
    ensures Permutes(old(a[..]), a[..])
  {
    SwapPermutes(a[..], i, j);
    a[i], a[j] := a[j], a[i];
  }

  /** `n` entries are used. */
  predicate UsedIs(s: seq<Collect>, n: nat) {
    n <= |s| && (forall k :: 0 <= k < n ==> s[k].src_path != "") && (n < |s| ==> s[n].src_path == "")
  }

  /** The first `i` places are final. */
  predicate Settled(s: seq<Collect>, i: nat, n: nat) {
    i <= n <= |s| && forall p, q :: 0 <= p < i && p < q < n ==> InOrder(s[p], s[q])
  }

  /** Place `i` holds the greatest of the places up to `j`. */
  predicate Leads(s: seq<Collect>, i: nat, j: nat) {
    i < j <= |s| && forall q :: i < q < j ==> InOrder(s[i], s[q])
  }

  lemma SwapLeads(s: seq<Collect>, i: nat, j: nat, n: nat)
    requires UsedIs(s, n) && Settled(s, i, n) && Leads(s, i, j) && j < n && Less(s[i].uname, s[j].uname)
    ensures var t := Swapped(s, i, j); UsedIs(t, n) && Settled(t, i, n) && Leads(t, i, j + 1) && t[n..] == s[n..]
  {
    hide Less;
    var t := Swapped(s, i, j);
    LessTotal(s[i].uname, s[j].uname);
    forall q | i < q < j + 1 ensures InOrder(t[i], t[q]) {
      if q < j {
        LessTotal(s[i].uname, s[j].uname);
        NotLessTransitive(s[j].uname, s[i].uname, s[q].uname);
      }
    }
    assert forall p :: 0 <= p < i ==> t[p] == s[p];
  }

  lemma LeaderSettles(s: seq<Collect>, i: nat, n: nat)
    requires Settled(s, i, n) && Leads(s, i, n)
    ensures Settled(s, i + 1, n)
  {
  }

  /** The exchange sort: the used entries in descending order, a permutation of what they were. */
  method SortSpecials(a: array<Collect>, ghost n: nat)
    requires UsedIs(a[..], n)
    modifies a
    ensures UsedIs(a[..], n) && Permutes(old(a[..n]), a[..n]) && Descending(a[..n])
    ensures a[n..] == old(a[n..])
  {
    hide Less, InOrder, Permutes, UsedIs, Settled, Leads, Swapped;
    ghost var was := a[..];
    var i: nat := 0;
    StartSettled(was, n);
    while i < a.Length
      invariant i <= n <= a.Length && UsedIs(a[..], n) && Settled(a[..], i, n)
      invariant Permutes(was, a[..]) && a[n..] == was[n..]
    {
      UsedAt(a[..], n, i);
      if a[i].src_path == "" {
        break;
      }
      var j: nat := i + 1;
      StartLeads(a[..], i);
      while j < a.Length
        invariant i < j <= n <= a.Length && UsedIs(a[..], n) && Settled(a[..], i, n) && Leads(a[..], i, j)
        invariant Permutes(was, a[..]) && a[n..] == was[n..]
      {
        UsedAt(a[..], n, j);
        if a[j].src_path == "" {
          break;
        }
        if Less(a[i].uname, a[j].uname) {
          ghost var s := a[..];
          SwapLeads(s, i, j, n);
          Swap(a, i, j);
          PermutesTrans(was, s, a[..]);
        } else {
          LeadsFurther(a[..], i, j);
        }
        j := j + 1;
      }
      LeaderSettles(a[..], i, n);
      i := i + 1;
    }
    SettledDescends(a[..], n);
    SameTail(was, a[..], n);
    assert was[..n] == old(a[..n]) && a[..][..n] == a[..n];
    assert was[n..] == old(a[n..]);
  }

  lemma SameTail(s: seq<Collect>, t: seq<Collect>, n: nat)
    requires Permutes(s, t) && n <= |s| && n <= |t| && s[n..] == t[n..]
    ensures Permutes(s[..n], t[..n])
  {
    assert s == s[..n] + s[n..] && t == t[..n] + t[n..];
    forall x ensures multiset(s[..n])[x] == multiset(t[..n])[x] {
      assert multiset(s)[x] == (multiset(s[..n]) + multiset(s[n..]))[x];
      assert multiset(t)[x] == (multiset(t[..n]) + multiset(t[n..]))[x];
    }
  }

  lemma StartSettled(s: seq<Collect>, n: nat)
    requires UsedIs(s, n)
    ensures Settled(s, 0, n) && Permutes(s, s)
  {
  }

  lemma UsedAt(s: seq<Collect>, n: nat, k: nat)
    requires UsedIs(s, n) && k <= n && k < |s|
    ensures s[k].src_path == "" <==> k == n
  {
  }

  lemma StartLeads(s: seq<Collect>, i: nat)
    requires i < |s|
    ensures Leads(s, i, i + 1)
  {
  }

  lemma LeadsFurther(s: seq<Collect>, i: nat, j: nat)
    requires Leads(s, i, j) && j < |s| && !Less(s[i].uname, s[j].uname)
    ensures Leads(s, i, j + 1)
  {
  }

  lemma SettledDescends(s: seq<Collect>, n: nat)
    requires Settled(s, n, n)
    ensures n <= |s| && Descending(s[..n])
  {
  }

  // ----- filter and merge ---------------------------------------------------------------------

  predicate HasPath(xs: seq<Collect>, src_path: string) {
    exists k :: 0 <= k < |xs| && xs[k].src_path == src_path
  }

  /** An entry is taken unless its path has been. */
  function Added(xs: seq<Collect>, e: Collect): seq<Collect> {
    if HasPath(xs, e.src_path) then xs else xs + [e]
  }

  /** Of the entries of each path the first. */
  function FirstWins(xs: seq<Collect>): (ys: seq<Collect>)
    ensures |ys| <= |xs|
  {
    if xs == [] then [] else Added(FirstWins(xs[..|xs| - 1]), xs[|xs| - 1])
  }

  /** The entries for this kernel release. */
  function Matching(xs: seq<Collect>, release: string): (ys: seq<Collect>)
    ensures |ys| <= |xs|
  {
    if xs == [] then []
    else Matching(xs[..|xs| - 1], release) + if IsPrefix(xs[|xs| - 1].uname, release) then [xs[|xs| - 1]] else []
  }

  /** The merged list of sorted specials and defaults. */
  function Merged(specials: seq<Collect>, defaults: seq<Collect>, release: string): seq<Collect> {
    FirstWins(Matching(specials, release) + defaults)
  }

  function PathsOf(xs: seq<Collect>): set<string> {
    set e <- xs :: e.src_path
  }

  /** The paths of the defaults and of the specials for this release. */
  function Paths(specials: seq<Collect>, defaults: seq<Collect>, release: string): set<string> {
    (set f | f in specials && IsPrefix(f.uname, release) :: f.src_path) + PathsOf(defaults)
  }

  lemma {:induction false} FirstWinsCount(xs: seq<Collect>)
    ensures PathsOf(FirstWins(xs)) == PathsOf(xs) && |FirstWins(xs)| == |PathsOf(xs)|
    decreases |xs|
  {
    if xs != [] {
      var front, last := xs[..|xs| - 1], xs[|xs| - 1];
      FirstWinsCount(front);
      assert xs == front + [last];
      assert PathsOf(xs) == PathsOf(front) + {last.src_path};
      var ys := FirstWins(front);
      assert HasPath(ys, last.src_path) <==> last.src_path in PathsOf(ys);
      assert PathsOf(ys + [last]) == PathsOf(ys) + {last.src_path};
    }
  }

  /** The merged list has as many entries as there are paths, in whatever order the specials are. */
  lemma MergedCount(specials: seq<Collect>, defaults: seq<Collect>, release: string)
    ensures |Merged(specials, defaults, release)| == |Paths(specials, defaults, release)|
  {
    hide IsPrefix, FirstWins, Matching;
    var ms := Matching(specials, release);
    FirstWinsCount(ms + defaults);
    forall f ensures f in ms <==> f in specials && IsPrefix(f.uname, release) {
      MatchingMembers(specials, release, f);
    }
    assert PathsOf(ms + defaults) == PathsOf(ms) + PathsOf(defaults);
    assert PathsOf(ms) == set f | f in specials && IsPrefix(f.uname, release) :: f.src_path;
  }

  /** A list of some of the entries has no more paths. */
  lemma FewerPaths(xs: seq<Collect>, ys: seq<Collect>)
    requires forall x :: x in xs ==> x in ys
    ensures |FirstWins(xs)| <= |FirstWins(ys)|
  {
    hide FirstWins;
    FirstWinsCount(xs);
    FirstWinsCount(ys);
    assert PathsOf(ys) == PathsOf(xs) + (PathsOf(ys) - PathsOf(xs));
  }

  /** During the first loop. */
  lemma SpecialsFit(specials: seq<Collect>, i: nat, n: nat, defaults: seq<Collect>, release: string)
    requires i <= n <= |specials|
    ensures |FirstWins(Matching(specials[..i], release))| <= |Merged(specials[..n], defaults, release)|
  {
    hide IsPrefix, FirstWins, Matching;
    forall x | x in Matching(specials[..i], release) ensures x in Matching(specials[..n], release) + defaults {
      MatchingMembers(specials[..i], release, x);
      MatchingMembers(specials[..n], release, x);
      assert x in specials[..n];
    }
    FewerPaths(Matching(specials[..i], release), Matching(specials[..n], release) + defaults);
  }

  /** At entry `i` the list is full and does not have the path: the search for it goes on behind the array. */
  predicate RunsPast(xs: seq<Collect>, i: nat)
    requires i < |xs|
  {
    |FirstWins(xs[..i])| >= SIZE && !HasPath(FirstWins(xs[..i]), xs[i].src_path)
  }

  lemma {:induction false} RunsPastSomewhere(xs: seq<Collect>)
    requires |FirstWins(xs)| > SIZE
    ensures exists i :: 0 <= i < |xs| && RunsPast(xs, i)
    decreases |xs|
  {
    var front := xs[..|xs| - 1];
    if |FirstWins(front)| > SIZE {
      RunsPastSomewhere(front);
      var i :| 0 <= i < |front| && RunsPast(front, i);
      assert front[..i] == xs[..i];
      assert RunsPast(xs, i);
    } else {
      assert RunsPast(xs, |xs| - 1);
    }
  }

  /** The merge goes beyond its array if and only if the defaults and the applicable specials have more than 256
      paths between them. */
  lemma OverrunIff(specials: seq<Collect>, defaults: seq<Collect>, release: string)
    ensures var xs := Matching(specials, release) + defaults;
            |Paths(specials, defaults, release)| > SIZE <==> exists i :: 0 <= i < |xs| && RunsPast(xs, i)
  {
    hide Matching, Paths, FirstWins;
    var xs := Matching(specials, release) + defaults;
    MergedCount(specials, defaults, release);
    if |FirstWins(xs)| > SIZE {
      RunsPastSomewhere(xs);
    }
    forall i | 0 <= i < |xs| && RunsPast(xs, i) ensures |FirstWins(xs)| > SIZE {
      FirstWinsNext(xs, i);
      FewerPaths(xs[..i + 1], xs);
      assert |FirstWins(xs)| >= |FirstWins(xs[..i + 1])| == |FirstWins(xs[..i])| + 1;
    }
  }

  lemma FirstWinsNext(xs: seq<Collect>, i: nat)
    requires i < |xs|
    ensures FirstWins(xs[..i + 1]) == Added(FirstWins(xs[..i]), xs[i])
  {
    hide Added;
    assert xs[..i + 1][..i] == xs[..i];
  }

  /** find_collect on an array of which `n` entries are used: nothing if it would go on behind the array. */
  method FindCollect(collects: array<Collect>, value: string, ghost n: nat) returns (found: Option<bool>)
    requires UsedIs(collects[..], n)
    ensures found == if HasPath(collects[..n], value) then Some(true)
                     else if n < collects.Length then Some(false) else None
  {
    var i: nat := 0;
    while i < collects.Length && collects[i].src_path != ""
      invariant i <= n && forall k :: 0 <= k < i ==> collects[k].src_path != value
      decreases n - i
    {
      if collects[i].src_path == value {
        return Some(true);
      }
      i := i + 1;
    }
    return if i < collects.Length then Some(false) else None;
  }

  /** The list so far in a zeroed array. */
  predicate Filled(filter: seq<Collect>, xs: seq<Collect>) {
    |xs| <= |filter| && filter[..|xs|] == xs && (forall k :: 0 <= k < |xs| ==> xs[k].src_path != "") &&
    forall k :: |xs| <= k < |filter| ==> filter[k] == EMPTY
  }

  /** The part of both loops that takes an entry: the new length of the list, if the search stays in the array. */
  method AddNew(filter: array<Collect>, j: nat, e: Collect, ghost xs: seq<Collect>) returns (r: Option<nat>)
    requires Filled(filter[..], xs) && j == |xs| && e.src_path != ""
    modifies filter
    ensures r == if |Added(xs, e)| <= filter.Length then Some(|Added(xs, e)|) else None
    ensures r.Some? ==> Filled(filter[..], Added(xs, e))
  {
    assert filter[..][..j] == filter[..j];
    var found := FindCollect(filter, e.src_path, j);
    if found.None? {
      return None;
    }
    if found.value {
      return Some(j);
    }
    filter[j] := e;
    assert filter[..][..j + 1] == xs + [e];
    return Some(j + 1);
  }

  /** The two loops of the merge; `inside` if they stay in the array. */
  method Merge(specials: array<Collect>, defaults: array<Collect>, release: string, ghost ns: nat, ghost nd: nat)
    returns (inside: bool, filter: array<Collect>)
    requires UsedIs(specials[..], ns) && UsedIs(defaults[..], nd)
    ensures fresh(filter) && filter.Length == SIZE
    ensures inside <==> |Merged(specials[..ns], defaults[..nd], release)| <= SIZE
    ensures inside ==> Filled(filter[..], Merged(specials[..ns], defaults[..nd], release))
  {
    hide IsPrefix, HasPath, FirstWins, Matching, Filled;
    filter := new Collect[SIZE](_ => EMPTY);
    ghost var xs: seq<Collect> := [];
    var i: nat, j: nat := 0, 0;
    StartFilled(filter[..]);
    StartMatching(specials[..], release);
    while i < specials.Length
      invariant i <= ns && j == |xs| && Filled(filter[..], xs) && xs == FirstWins(Matching(specials[..i], release))
    {
      UsedAt(specials[..], ns, i);
      if specials[i].src_path == "" {
        break;
      }
      MatchingStep(specials[..], i, release);
      assert specials[..][..i] == specials[..i] && specials[..][..i + 1] == specials[..i + 1];
      if IsPrefix(specials[i].uname, release) {
        var added := AddNew(filter, j, specials[i], xs);
        if added.None? {
          SpecialsFit(specials[..], i + 1, ns, defaults[..nd], release);
          assert specials[..][..ns] == specials[..ns];
          return false, filter;
        }
        j, xs := added.value, Added(xs, specials[i]);
      }
      i := i + 1;
    }
    UsedEnd(specials[..], ns, i);
    ghost var ms := Matching(specials[..ns], release);
    assert ms + defaults[..0] == ms;
    i := 0;
    while i < defaults.Length
      invariant i <= nd && j == |xs| && Filled(filter[..], xs) && xs == FirstWins(ms + defaults[..i])
    {
      UsedAt(defaults[..], nd, i);
      if defaults[i].src_path == "" {
        break;
      }
      FirstWinsStep(ms, defaults[..], i);
      var added := AddNew(filter, j, defaults[i], xs);
      if added.None? {
        FewerPaths(ms + defaults[..i + 1], ms + defaults[..nd]);
        return false, filter;
      }
      j, xs := added.value, Added(xs, defaults[i]);
      i := i + 1;
    }
    UsedEnd(defaults[..], nd, i);
    FilledFits(filter[..], xs);
    return true, filter;
  }

  lemma FilledFits(filter: seq<Collect>, xs: seq<Collect>)
    requires Filled(filter, xs)
    ensures |xs| <= |filter|
  {
  }

  lemma StartFilled(filter: seq<Collect>)
    requires forall k :: 0 <= k < |filter| ==> filter[k] == EMPTY
    ensures Filled(filter, [])
  {
  }

  lemma StartMatching(specials: seq<Collect>, release: string)
    ensures FirstWins(Matching(specials[..0], release)) == []
  {
  }

  lemma MatchingStep(specials: seq<Collect>, i: nat, release: string)
    requires i < |specials|
    ensures var xs := FirstWins(Matching(specials[..i], release));
            FirstWins(Matching(specials[..i + 1], release))
            == if IsPrefix(specials[i].uname, release) then Added(xs, specials[i]) else xs
  {
    hide IsPrefix, Added;
    assert specials[..i + 1][..i] == specials[..i];
    var m := Matching(specials[..i], release);
    assert (m + [specials[i]])[..|m|] == m;
    assert m + [] == m;
  }

  lemma FirstWinsStep(ms: seq<Collect>, defaults: seq<Collect>, i: nat)
    requires i < |defaults|
    ensures FirstWins(ms + defaults[..i + 1]) == Added(FirstWins(ms + defaults[..i]), defaults[i])
  {
    hide Added;
    var all := ms + defaults[..i + 1];
    assert all[..|all| - 1] == ms + defaults[..i];
  }

  lemma UsedEnd(s: seq<Collect>, n: nat, i: nat)
    requires UsedIs(s, n) && i <= n && (i == |s| || s[i].src_path == "")
    ensures i == n
  {
  }

  // ----- what the merge means -----------------------------------------------------------------

  lemma {:induction false} FirstWinsDistinct(xs: seq<Collect>)
    ensures forall p, q :: 0 <= p < q < |FirstWins(xs)| ==> FirstWins(xs)[p].src_path != FirstWins(xs)[q].src_path
    decreases |xs|
  {
    if xs != [] {
      FirstWinsDistinct(xs[..|xs| - 1]);
    }
  }

  /** `i` is the first place of its path. */
  predicate IsFirst(xs: seq<Collect>, i: nat, e: Collect) {
    i < |xs| && xs[i] == e && forall q :: 0 <= q < i ==> xs[q].src_path != e.src_path
  }

  lemma {:induction false} FirstWinsFirst(xs: seq<Collect>, k: nat) returns (i: nat)
    requires k < |FirstWins(xs)|
    ensures IsFirst(xs, i, FirstWins(xs)[k])
    decreases |xs|
  {
    var front, last := xs[..|xs| - 1], xs[|xs| - 1];
    if k < |FirstWins(front)| {
      i := FirstWinsFirst(front, k);
    } else {
      i := |xs| - 1;
      forall q | 0 <= q < i ensures xs[q].src_path != last.src_path {
        FirstWinsAll(front, q);
      }
    }
  }

  lemma {:induction false} FirstWinsAll(xs: seq<Collect>, i: nat)
    requires i < |xs|
    ensures HasPath(FirstWins(xs), xs[i].src_path)
    decreases |xs|
  {
    var ys := FirstWins(xs[..|xs| - 1]);
    if i < |xs| - 1 {
      FirstWinsAll(xs[..|xs| - 1], i);
      var k :| 0 <= k < |ys| && ys[k].src_path == xs[i].src_path;
      assert FirstWins(xs)[k] == ys[k];
    } else if !HasPath(ys, xs[i].src_path) {
      assert FirstWins(xs)[|ys|] == xs[i];
    }
  }

  lemma {:induction false} MatchingMembers(xs: seq<Collect>, release: string, e: Collect)
    ensures e in Matching(xs, release) <==> e in xs && IsPrefix(e.uname, release)
    decreases |xs|
  {
    hide IsPrefix;
    if xs != [] {
      MatchingMembers(xs[..|xs| - 1], release, e);
      assert xs == xs[..|xs| - 1] + [xs[|xs| - 1]];
    }
  }

  lemma {:induction false} MatchingDescends(xs: seq<Collect>, release: string)
    requires Descending(xs)
    ensures Descending(Matching(xs, release))
    decreases |xs|
  {
    hide IsPrefix, InOrder;
    if xs != [] {
      var front, last := xs[..|xs| - 1], xs[|xs| - 1];
      MatchingDescends(front, release);
      forall x | x in Matching(front, release) ensures InOrder(x, last) {
        MatchingMembers(front, release, x);
        var i :| 0 <= i < |front| && front[i] == x;
        assert xs[i] == x;
      }
    }
  }

  /** A special entry that applies to the release and to the path. */
  predicate Applies(f: Collect, release: string, src_path: string) {
    f.src_path == src_path && IsPrefix(f.uname, release)
  }

  /** The entry of its path: from the longest key that is a prefix of the release, or else the first default. */
  ghost predicate Wins(e: Collect, specials: seq<Collect>, defaults: seq<Collect>, release: string) {
    if exists f :: f in specials && Applies(f, release, e.src_path) then
      e in specials && IsPrefix(e.uname, release) &&
      forall f :: f in specials && Applies(f, release, e.src_path) ==> |f.uname| <= |e.uname|
    else exists k :: IsFirst(defaults, k, e)
  }

  lemma MergedWins(specials: seq<Collect>, defaults: seq<Collect>, release: string, k: nat)
    requires Descending(specials) && k < |Merged(specials, defaults, release)|
    ensures Wins(Merged(specials, defaults, release)[k], specials, defaults, release)
  {
    hide IsPrefix, FirstWins, Matching, Descending;
    var ms := Matching(specials, release);
    var xs := ms + defaults;
    var e := FirstWins(xs)[k];
    var i := FirstWinsFirst(xs, k);
    if i < |ms| {
      MatchingMembers(specials, release, e);
      assert ms[i] == e;
      assert e in specials && Applies(e, release, e.src_path);
      forall f | f in specials && Applies(f, release, e.src_path) ensures |f.uname| <= |e.uname| {
        MatchingMembers(specials, release, f);
        var j :| 0 <= j < |ms| && ms[j] == f;
        assert xs[j] == f;
        MatchingDescends(specials, release);
        LongestFirst(ms, i, j, release);
      }
    } else {
      forall f | f in specials ensures !Applies(f, release, e.src_path) {
        if Applies(f, release, e.src_path) {
          var j := PlaceOf(f, specials, defaults, release);
        }
      }
      assert IsFirst(defaults, i - |ms|, e) by {
        assert forall q :: 0 <= q < i - |ms| ==> defaults[q] == xs[|ms| + q];
      }
    }
  }

  lemma PlaceOf(f: Collect, specials: seq<Collect>, defaults: seq<Collect>, release: string) returns (j: nat)
    requires f in specials && IsPrefix(f.uname, release)
    ensures j < |Matching(specials, release)| && (Matching(specials, release) + defaults)[j] == f
  {
    MatchingMembers(specials, release, f);
    j :| 0 <= j < |Matching(specials, release)| && Matching(specials, release)[j] == f;
  }

  lemma LongestFirst(ms: seq<Collect>, i: nat, j: nat, release: string)
    requires Descending(ms) && i <= j < |ms| && IsPrefix(ms[i].uname, release) && IsPrefix(ms[j].uname, release)
    ensures |ms[j].uname| <= |ms[i].uname|
  {
    hide Less, IsPrefix;
    if i < j {
      assert InOrder(ms[i], ms[j]);
      PrefixOrder(ms[i].uname, ms[j].uname, release);
    }
  }

  /** The merged list has each path at most once, every path that a default or an applicable special names, and
      for each path the entry that wins. */
  lemma MergedIsLayered(was: seq<Collect>, specials: seq<Collect>, defaults: seq<Collect>, release: string)
    requires Permutes(was, specials) && Descending(specials)
    ensures var ys := Merged(specials, defaults, release);
            (forall p, q :: 0 <= p < q < |ys| ==> ys[p].src_path != ys[q].src_path) &&
            (forall k :: 0 <= k < |ys| ==> Wins(ys[k], was, defaults, release)) &&
            (forall d :: d in defaults ==> HasPath(ys, d.src_path)) &&
            (forall f :: f in was && IsPrefix(f.uname, release) ==> HasPath(ys, f.src_path))
  {
    hide IsPrefix, FirstWins, Matching, HasPath, Wins, Descending;
    var ms := Matching(specials, release);
    var xs := ms + defaults;
    var ys := FirstWins(xs);
    FirstWinsDistinct(xs);
    SameMembers(was, specials);
    forall k | 0 <= k < |ys| ensures Wins(ys[k], was, defaults, release) {
      MergedWins(specials, defaults, release, k);
      SameWins(ys[k], was, specials, defaults, release);
    }
    forall d | d in defaults ensures HasPath(ys, d.src_path) {
      var i :| 0 <= i < |defaults| && defaults[i] == d;
      assert xs[|ms| + i] == d;
      FirstWinsAll(xs, |ms| + i);
    }
    forall f | f in was && IsPrefix(f.uname, release) ensures HasPath(ys, f.src_path) {
      MatchingMembers(specials, release, f);
      var i :| 0 <= i < |ms| && ms[i] == f;
      assert xs[i] == f;
      FirstWinsAll(xs, i);
    }
  }

  lemma SameMembers(a: seq<Collect>, b: seq<Collect>)
    requires Permutes(a, b)
    ensures forall x :: x in a <==> x in b
  {
    assert forall x :: x in a <==> x in multiset(a);
    assert forall x :: x in b <==> x in multiset(b);
  }

  lemma SameWins(e: Collect, a: seq<Collect>, b: seq<Collect>, defaults: seq<Collect>, release: string)
    requires (forall x :: x in a <==> x in b) && Wins(e, b, defaults, release)
    ensures Wins(e, a, defaults, release)
  {
  }

  // ----- the files to collect -----------------------------------------------------------------

  /** The files of the entries that are turned on and regular; none while there is no log to complain to. */
  function Targets(xs: seq<Collect>, regular: set<string>, hasLog: bool): seq<Target> {
    if xs == [] || !hasLog then []
    else
      var e := xs[|xs| - 1];
      Targets(xs[..|xs| - 1], regular, hasLog)
      + if e.turn && e.src_path in regular then [Target(e.src_path, e.cfile, e.gzip)] else []
  }

  lemma {:induction false} TargetsMembers(xs: seq<Collect>, regular: set<string>, hasLog: bool, t: Target)
    ensures t in Targets(xs, regular, hasLog) <==>
            hasLog && exists k :: 0 <= k < |xs| && xs[k].turn && xs[k].src_path in regular &&
                        t == Target(xs[k].src_path, xs[k].cfile, xs[k].gzip)
    decreases |xs|
  {
    if xs != [] {
      var front := xs[..|xs| - 1];
      TargetsMembers(front, regular, hasLog, t);
      assert forall k :: 0 <= k < |front| ==> xs[k] == front[k];
    }
  }

  /** The files stand in the order of their entries, one for each entry that is turned on and regular. */
  lemma {:induction false} TargetsInOrder(xs: seq<Collect>, regular: set<string>, hasLog: bool) returns (ks: seq<nat>)
    ensures |ks| == |Targets(xs, regular, hasLog)|
    ensures forall p, q :: 0 <= p < q < |ks| ==> ks[p] < ks[q]
    ensures forall p :: 0 <= p < |ks| ==>
              ks[p] < |xs| &&
              Targets(xs, regular, hasLog)[p] == Target(xs[ks[p]].src_path, xs[ks[p]].cfile, xs[ks[p]].gzip)
    ensures forall k :: 0 <= k < |xs| ==> (k in ks <==> hasLog && xs[k].turn && xs[k].src_path in regular)
    decreases |xs|
  {
    if xs == [] || !hasLog {
      ks := [];
    } else {
      var n := |xs| - 1;
      ks := TargetsInOrder(xs[..n], regular, hasLog);
      if xs[n].turn && xs[n].src_path in regular {
        ks := ks + [n];
      }
    }
  }

  /** Every file to collect comes from the entry that wins its path, and that entry is turned on: where the winner
      is turned off, nothing is collected, whatever the other entries say. */
  lemma TargetIsWinner(was: seq<Collect>, specials: seq<Collect>, defaults: seq<Collect>, release: string,
                       regular: set<string>, hasLog: bool, t: Target) returns (e: Collect)
    requires Permutes(was, specials) && Descending(specials)
    requires t in Targets(Merged(specials, defaults, release), regular, hasLog)
    ensures Wins(e, was, defaults, release) && e.turn && e.src_path in regular
    ensures t == Target(e.src_path, e.cfile, e.gzip)
  {
    hide Permutes, Descending, Merged, Wins, Targets;
    var ys := Merged(specials, defaults, release);
    MergedIsLayered(was, specials, defaults, release);
    TargetsMembers(ys, regular, hasLog, t);
    var k :| 0 <= k < |ys| && ys[k].turn && ys[k].src_path in regular &&
             t == Target(ys[k].src_path, ys[k].cfile, ys[k].gzip);
    e := ys[k];
  }

  /** The part of init_sys_config behind the reading of the file; `regular` are the regular files there are, and
      `hasLog` says whether sresar_stderr is open.  There is no result if a search goes on behind its array. */
  method InitSysConfig(specials: array<Collect>, defaults: array<Collect>, release: string, regular: set<string>,
                       hasLog: bool, ghost ns: nat, ghost nd: nat)
    returns (targets: Option<seq<Target>>)
    requires specials != defaults && UsedIs(specials[..], ns) && UsedIs(defaults[..], nd)
    modifies specials
    ensures Permutes(old(specials[..ns]), specials[..ns]) && Descending(specials[..ns])
    ensures targets.None? <==> |Paths(old(specials[..ns]), defaults[..nd], release)| > SIZE
    ensures targets.Some? ==>
              targets.value == Targets(Merged(specials[..ns], defaults[..nd], release), regular, hasLog)
  {
    hide Permutes, Descending, FirstWins, Merged, Paths;
    ghost var was := specials[..ns];
    SortSpecials(specials, ns);
    SamePaths(was, specials[..ns], defaults[..nd], release);
    MergedCount(specials[..ns], defaults[..nd], release);
    var inside, filter := Merge(specials, defaults, release, ns, nd);
    if !inside {
      return None;
    }
    ghost var ys := Merged(specials[..ns], defaults[..nd], release);
    var list := [];
    var i: nat := 0;
    assert ys[..0] == [];
    while i < filter.Length && filter[i].src_path != ""
      invariant i <= |ys| && list == Targets(ys[..i], regular, hasLog)
      decreases |ys| - i
    {
      assert filter[..][i] == filter[i];
      assert filter[..][..|ys|][i] == ys[i];
      assert ys[..i + 1][..i] == ys[..i];
      if filter[i].turn && hasLog && filter[i].src_path in regular {
        list := list + [Target(filter[i].src_path, filter[i].cfile, filter[i].gzip)];
      }
      i := i + 1;
    }
    assert i < filter.Length ==> filter[..][i] == filter[i];
    assert ys[..|ys|] == ys;
    return Some(list);
  }

  lemma SamePaths(a: seq<Collect>, b: seq<Collect>, defaults: seq<Collect>, release: string)
    requires Permutes(a, b)
    ensures Paths(a, defaults, release) == Paths(b, defaults, release)
  {
    hide Permutes, IsPrefix;
    SameMembers(a, b);
  }
}
