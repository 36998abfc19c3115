/** The recyclers of sresar/sresar.c: which hour directories they remove, and when they find space enough.

    A listing is what scandir returns in the order of alphasort: `.`, `..` and the hour directories, oldest first. */
module Recycling {
  import opened Wrappers

  /** The entries of a listing without `.` and `..`. */
  function Entries(listing: seq<string>): seq<string> {
    if listing == [] then []
    else if listing[0] == "." || listing[0] == ".." then Entries(listing[1..])
    else [listing[0]] + Entries(listing[1..])
  }

  lemma {:induction false} EntriesSnoc(listing: seq<string>, name: string)
    ensures Entries(listing + [name]) == Entries(listing) + (if name == "." || name == ".." then [] else [name])
  {
    if listing == [] {
      assert [name][1..] == [];
    } else {
      assert (listing + [name])[1..] == listing[1..] + [name];
      EntriesSnoc(listing[1..], name);
    }
  }

  /** Wherever `.` and `..` stand, the entries are the other names, in order. */
  lemma EntriesAreTheRest(a: seq<string>, b: seq<string>, c: seq<string>, first: string, second: string)
    requires NoDots(a) && NoDots(b) && NoDots(c) && {first, second} == {".", ".."}
    ensures Entries(a + [first] + b + [second] + c) == a + b + c
  {
    hide NoDots, Entries;
    EntriesAppend(a + [first] + b + [second], c);
    EntriesSnoc(a + [first] + b, second);
    EntriesAppend(a + [first], b);
    EntriesSnoc(a, first);
    AllEntries(a);
    AllEntries(b);
    AllEntries(c);
    assert first in {first, second} && second in {first, second};
  }

  predicate NoDots(names: seq<string>) {
    forall i :: 0 <= i < |names| ==> names[i] != "." && names[i] != ".."
  }

  lemma {:induction false} AllEntries(names: seq<string>)
    requires NoDots(names)
    ensures Entries(names) == names
  {
    if names != [] {
      AllEntries(names[1..]);
      assert names == [names[0]] + names[1..];
    }
  }

  function Min(a: int, b: int): int {
    if a < b then a else b
  }

  function Max(a: int, b: int): int {
    if a < b then b else a
  }

  /** The first `k` of a sequence, or all of it. */
  function Take<T>(s: seq<T>, k: nat): seq<T> {
    if k < |s| then s[..k] else s
  }

  lemma TakeSnoc<T>(s: seq<T>, x: T, k: nat)
    ensures Take(s + [x], k) == if |s| < k then Take(s, k) + [x] else Take(s, k)
  {
    if k <= |s| {
      assert (s + [x])[..k] == s[..k];
    }
  }

  lemma TakeLength<T>(s: seq<T>, k: nat)
    ensures |Take(s, k)| == if k < |s| then k else |s|
  {
  }

  // ----- by number ----------------------------------------------------------------------------

  /** How many directories one pass of recycle_diskspace_hour removes. */
  function Excess(count: nat, max_sub: int): (k: nat)
    ensures k <= count && k <= 5
  {
    if count <= max_sub then 0 else Min(count, Min(5, count - max_sub))
  }

  /** recycle_diskspace_hour on a listing: what it removes, in order. */
  method RecycleDiskspaceHour(listing: seq<string>, max_sub: int) returns (removed: seq<string>)
    requires |listing| == |Entries(listing)| + 2
    ensures removed == Take(Entries(listing), Excess(|listing| - 2, max_sub))
  {
    var n := |listing|;
    removed := [];
    if n - 2 < max_sub + 1 {
      return;
    }
    var rm_num := n - 2 - max_sub;
    if rm_num > 5 {
      rm_num := 5;
    }
    var rm_index := 0;
    ghost var es: seq<string> := [];
    for index := 0 to n
      invariant es == Entries(listing[..index]) && removed == Take(es, rm_num) && rm_index == |removed|
    {
      hide Entries, Take;
      Visit(listing, index);
      if listing[index] == "." || listing[index] == ".." {
        continue;
      }
      TakeSnoc(es, listing[index], rm_num);
      TakeLength(es, rm_num);
      es := es + [listing[index]];
      if rm_index < rm_num {
        removed := removed + [listing[index]];
        rm_index := rm_index + 1;
      }
    }
    assert listing[..n] == listing;
  }

  /** One rotation: a new directory, and then one pass of the recycler. */
  function Rotated(names: seq<string>, newest: string, max_sub: int): seq<string> {
    var all := names + [newest];
    all[Excess(|all|, max_sub)..]
  }

  function Rotations(names: seq<string>, newer: seq<string>, max_sub: int): seq<string>
    decreases |newer|
  {
    if newer == [] then names else Rotations(Rotated(names, newer[0], max_sub), newer[1..], max_sub)
  }

  lemma {:induction false} RotationsLeaveSuffix(names: seq<string>, newer: seq<string>, max_sub: int)
    ensures var left := Rotations(names, newer, max_sub);
            |left| <= |names + newer| && left == (names + newer)[|names + newer| - |left|..]
    decreases |newer|
  {
    if newer != [] {
      RotationsLeaveSuffix(Rotated(names, newer[0], max_sub), newer[1..], max_sub);
      SuffixStep(names, newer[0], newer[1..], max_sub, Rotations(names, newer, max_sub));
      assert [newer[0]] + newer[1..] == newer;
    } else {
      assert names + newer == names;
    }
  }

  lemma {:induction false} RotationsCount(names: seq<string>, newer: seq<string>, max_sub: int)
    ensures var n := |Rotations(names, newer, max_sub)|;
            (newer != [] ==> n <= Max(Max(max_sub, 0), |names| - 4 * |newer|)) &&
            n >= Min(max_sub, |names| + |newer|)
    decreases |newer|
  {
    if newer != [] {
      var next := Rotated(names, newer[0], max_sub);
      assert |next| == |names| + 1 - Excess(|names| + 1, max_sub);
      RotationsCount(next, newer[1..], max_sub);
    }
  }

  /** After any number of rotations the newest directories remain, and nothing older between them; their number
      falls by at least four a rotation down to the limit, and never below it while there are enough. */
  lemma RotationsKeepNewest(names: seq<string>, newer: seq<string>, max_sub: int)
    ensures var left := Rotations(names, newer, max_sub);
            |left| <= |names + newer| && left == (names + newer)[|names + newer| - |left|..] &&
            (newer != [] ==> |left| <= Max(Max(max_sub, 0), |names| - 4 * |newer|)) &&
            |left| >= Min(max_sub, |names + newer|)
  {
    hide Rotations;
    RotationsLeaveSuffix(names, newer, max_sub);
    RotationsCount(names, newer, max_sub);
  }

  lemma SuffixStep(names: seq<string>, newest: string, newer: seq<string>, max_sub: int, left: seq<string>)
    requires var next := Rotated(names, newest, max_sub) + newer;
             |left| <= |next| && left == next[|next| - |left|..]
    ensures var all := names + ([newest] + newer);
            |left| <= |all| && left == all[|all| - |left|..]
  {
    hide Excess;
    var all := names + [newest];
    var i := Excess(|all|, max_sub);
    assert all[i..] + newer == (all + newer)[i..];
    assert all + newer == names + ([newest] + newer);
  }

  /** The newest directory survives a pass if and only if the limit is positive or there are more than five. */
  lemma NewestSurvivesIff(names: seq<string>, max_sub: int)
    requires names != []
    ensures Excess(|names|, max_sub) < |names| <==> max_sub >= 1 || |names| > 5
  {
  }

  // ----- by space -----------------------------------------------------------------------------

  /** What statvfs reports. */
  datatype Space = Space(bavail: nat, blocks: nat, favail: nat, files: nat, bsize: nat)

  datatype Thresholds = Thresholds(disk_use: int, inode_use: int, disk_available: int)

  /** A share below 100 - `use` percent; dividing by zero is not below anything. */
  predicate ShareBelow(free: nat, all: nat, use: int) {
    all != 0 && free as real / all as real < (100 - use) as real / 100.0
  }

  predicate Insufficient(space: Space, t: Thresholds) {
    ShareBelow(space.bavail, space.blocks, t.disk_use) ||
    ShareBelow(space.favail, space.files, t.inode_use) ||
    space.bsize as real * space.bavail as real / 1024.0 / 1024.0 < t.disk_available as real
  }

  /** check_partition_usage reports a shortage: also when statvfs fails. */
  predicate Short(reading: Option<Space>, t: Thresholds) {
    reading.None? || Insufficient(reading.value, t)
  }

  lemma ShareIff(free: nat, all: nat, use: int)
    requires all > 0
    ensures ShareBelow(free, all, use) <==> 100 * free < (100 - use) * all
  {
    var f, a, u := free as real, all as real, (100 - use) as real;
    assert f / a * a == f && u / 100.0 * 100.0 == u;
    if f / a < u / 100.0 {
      assert f / a * a < u / 100.0 * a;
    } else {
      assert f / a * a >= u / 100.0 * a;
    }
    assert 100.0 * (u / 100.0 * a) == u * a;
    assert (100 * free) as real == 100.0 * f && ((100 - use) * all) as real == u * a;
  }

  lemma SizeIff(bsize: nat, bavail: nat, available: int)
    ensures bsize as real * bavail as real / 1024.0 / 1024.0 < available as real <==>
              bsize * bavail < available * 1024 * 1024
  {
    assert (bsize * bavail) as real == bsize as real * bavail as real;
    assert (available * 1024 * 1024) as real == available as real * 1024.0 * 1024.0;
  }

  /** A shortage in whole numbers: too small a share of the blocks or of the inodes is free, or too few mebibytes.
      A file system that reports no blocks or no inodes at all is never short of them. */
  lemma ShortageIff(space: Space, t: Thresholds)
    ensures Insufficient(space, t) <==>
              (space.blocks > 0 && 100 * space.bavail < (100 - t.disk_use) * space.blocks) ||
              (space.files > 0 && 100 * space.favail < (100 - t.inode_use) * space.files) ||
              space.bsize * space.bavail < t.disk_available * 1024 * 1024
  {
    hide ShareBelow;
    if space.blocks > 0 {
      ShareIff(space.bavail, space.blocks, t.disk_use);
    } else {
      NothingBelow(space.bavail, t.disk_use);
    }
    if space.files > 0 {
      ShareIff(space.favail, space.files, t.inode_use);
    } else {
      NothingBelow(space.favail, t.inode_use);
    }
    SizeIff(space.bsize, space.bavail, t.disk_available);
  }

  lemma NothingBelow(free: nat, use: int)
    ensures !ShareBelow(free, 0, use)
  {
  }

  /** More free blocks or inodes never turn enough into a shortage. */
  lemma MoreIsEnough(space: Space, more: Space, t: Thresholds)
    requires more.bavail >= space.bavail && more.favail >= space.favail
    requires more.blocks == space.blocks && more.files == space.files && more.bsize == space.bsize
    requires !Insufficient(space, t)
    ensures !Insufficient(more, t)
  {
    hide Insufficient;
    ShortageIff(space, t);
    ShortageIff(more, t);
    assert more.bsize * more.bavail >= space.bsize * space.bavail;
  }

  /** What one pass of recycle_diskspace_usage removes, when `short[i]` is the result of the check at the
      `i`-th directory and `quota` removals are left. */
  function Freed<T>(names: seq<T>, short: seq<bool>, quota: nat): (removed: seq<T>)
    requires |short| == |names|
    ensures |removed| <= quota && |removed| <= |names|
  {
    if names == [] then []
    else if quota > 0 && short[0] then [names[0]] + Freed(names[1..], short[1..], quota - 1)
    else Freed(names[1..], short[1..], quota)
  }

  function Quota(count: nat): nat {
    if count == 0 then 0 else Min(5, count - 1)
  }

  lemma {:induction false} FreedSnoc(names: seq<string>, short: seq<bool>, quota: nat, name: string, s: bool)
    requires |short| == |names|
    ensures Freed(names + [name], short + [s], quota)
         == Freed(names, short, quota) + if s && |Freed(names, short, quota)| < quota then [name] else []
    decreases |names|
  {
    var a, b := names + [name], short + [s];
    if names == [] {
      assert a[1..] == [] && b[1..] == [];
    } else {
      assert a[1..] == names[1..] + [name] && b[1..] == short[1..] + [s];
      FreedSnoc(names[1..], short[1..], if quota > 0 && short[0] then quota - 1 else quota, name, s);
    }
  }

  /** Space is a function of how many directories have been removed: the check at the `i`-th directory finds
      `enough` of what was removed before it. */
  predicate Steady(names: seq<string>, short: seq<bool>, quota: nat, enough: nat -> bool)
    requires |short| == |names|
  {
    forall i :: 0 <= i < |names| ==> short[i] == !enough(|Freed(names[..i], short[..i], quota)|)
  }

  /** The fewest removals that make the partition sufficient, from `k` on, or the quota. */
  function Needed(enough: nat -> bool, k: nat, quota: nat): (n: nat)
    requires k <= quota
    ensures k <= n <= quota
    ensures n < quota ==> enough(n)
    ensures forall j :: k <= j < n ==> !enough(j)
    decreases quota - k
  {
    if k == quota || enough(k) then k else Needed(enough, k + 1, quota)
  }

  lemma {:induction false} FreedPrefix(names: seq<string>, short: seq<bool>, quota: nat, enough: nat -> bool, i: nat)
    requires |short| == |names| && Steady(names, short, quota, enough) && i <= |names|
    ensures Freed(names[..i], short[..i], quota) == names[..Min(i, Needed(enough, 0, quota))]
    decreases i
  {
    hide Freed, Needed;
    if i > 0 {
      FreedPrefix(names, short, quota, enough, i - 1);
      assert names[..i] == names[..i - 1] + [names[i - 1]] && short[..i] == short[..i - 1] + [short[i - 1]];
      FreedSnoc(names[..i - 1], short[..i - 1], quota, names[i - 1], short[i - 1]);
      assert short[i - 1] == !enough(|Freed(names[..i - 1], short[..i - 1], quota)|);
    } else {
      assert Freed(names[..0], short[..0], quota) == [];
    }
  }

  /** When nothing else changes the space, the pass removes exactly the shortest run of oldest directories that
      makes the partition sufficient, five at most and never the newest. */
  lemma FreesShortestPrefix(names: seq<string>, short: seq<bool>, enough: nat -> bool)
    requires |short| == |names| && names != [] && Steady(names, short, Quota(|names|), enough)
    ensures Freed(names, short, Quota(|names|)) == names[..Needed(enough, 0, Quota(|names|))]
    ensures Needed(enough, 0, Quota(|names|)) < |names|
  {
    hide Freed, Steady, Needed;
    FreedPrefix(names, short, Quota(|names|), enough, |names|);
    assert names[..|names|] == names && short[..|names|] == short;
  }

  /** Whatever the checks say, the newest directory is removed if and only if the check at it reports a shortage
      before the quota is used up: some older directory was kept because space seemed enough there. */
  lemma NewestIsFreedIff(names: seq<string>, short: seq<bool>)
    requires |short| == |names| && names != []
    ensures var n := |names| - 1;
            var before := Freed(names[..n], short[..n], Quota(|names|));
            Freed(names, short, Quota(|names|))
            == before + (if short[n] && |before| < Quota(|names|) then [names[n]] else []) &&
            (|before| < Quota(|names|) ==> exists i :: 0 <= i < n && !short[i])
  {
    var n := |names| - 1;
    FreedSnoc(names[..n], short[..n], Quota(|names|), names[n], short[n]);
    assert names[..n] + [names[n]] == names && short[..n] + [short[n]] == short;
    if forall i :: 0 <= i < n ==> short[i] {
      AllFreed(names[..n], short[..n], Quota(|names|));
    }
  }

  lemma {:induction false} AllFreed(names: seq<string>, short: seq<bool>, quota: nat)
    requires |short| == |names| && quota <= |names| && forall i :: 0 <= i < |short| ==> short[i]
    ensures |Freed(names, short, quota)| == quota
    decreases |names|
  {
    if quota > 0 {
      AllFreed(names[1..], short[1..], quota - 1);
    } else if names != [] {
      AllFreed(names[1..], short[1..], 0);
    }
  }

  /** A case that removes the newest of two: space is short only at the second check. */
  lemma NewestCanBeFreed()
    ensures Freed(["2024010100", "2024010101"], [false, true], Quota(2)) == ["2024010101"]
  {
    var names, short := ["2024010100", "2024010101"], [false, true];
    assert names[1..] == ["2024010101"] && short[1..] == [true];
    assert names[1..][1..] == [] && short[1..][1..] == [];
  }

  /** The options that the recyclers share with the collectors. */
  class Options {
    const thresholds: Thresholds
    var partition_insufficient: bool

    constructor (t: Thresholds)
      ensures thresholds == t && !partition_insufficient
    {
      thresholds, partition_insufficient := t, false;
    }

    /** check_partition_usage: a failing statvfs is reported as a shortage and leaves the flag. */
    method CheckPartitionUsage(reading: Option<Space>) returns (short: bool)
      modifies this
      ensures short == Short(reading, thresholds)
      ensures partition_insufficient == if reading.None? then old(partition_insufficient) else short
      ensures reading.Some? && reading.value.blocks > 0 && reading.value.files > 0 ==>
                var s, t := reading.value, thresholds;
                short <==> 100 * s.bavail < (100 - t.disk_use) * s.blocks ||
                           100 * s.favail < (100 - t.inode_use) * s.files ||
                           s.bsize * s.bavail < t.disk_available * 1024 * 1024
    {
      if reading.None? {
        return true;
      }
      var buff := reading.value;
      ShortageIff(buff, thresholds);
      if ShareBelow(buff.bavail, buff.blocks, thresholds.disk_use) {
        partition_insufficient := true;
        return true;
      }
      if ShareBelow(buff.favail, buff.files, thresholds.inode_use) {
        partition_insufficient := true;
        return true;
      }
      if buff.bsize as real * buff.bavail as real / 1024.0 / 1024.0 < thresholds.disk_available as real {
        partition_insufficient := true;
        return true;
      }
      partition_insufficient := false;
      return false;
    }

    /** recycle_diskspace_usage on a listing.  `readings[i]` is what statvfs says at the `i`-th directory, and
        the last reading what it says at the end. */
    method RecycleDiskspaceUsage(listing: seq<string>, readings: seq<Option<Space>>) returns (removed: seq<string>)
      requires |listing| == |Entries(listing)| + 2 && |readings| == |Entries(listing)| + 1
      modifies this
      ensures var names := Entries(listing);
              |names| < 2 ==> removed == [] && partition_insufficient == old(partition_insufficient)
      ensures var names := Entries(listing);
              |names| >= 2 ==> removed == Freed(names, Shorts(readings, |names|, thresholds), Quota(|names|)) &&
                               (readings[|names|].Some? ==>
                                  partition_insufficient == Insufficient(readings[|names|].value, thresholds))
    {
      var n := |listing|;
      removed := [];
      if n - 2 < 2 {
        return;
      }
      var rm_index, rm_max, seen := 0, n - 2 - 1, 0;
      ghost var quota: nat := Quota(n - 2);
      ghost var es: seq<string>, ss: seq<bool> := [], [];
      for index := 0 to n
        invariant es == Entries(listing[..index]) && seen == |es| <= n - 2
        invariant ss == Shorts(readings, seen, thresholds)
        invariant rm_index == |removed| <= quota && rm_max == n - 2 - 1 - rm_index
        invariant removed == Freed(es, ss, quota)
      {
        hide Entries, Freed, Short, Insufficient, ShareBelow, Shorts;
        Visit(listing, index);
        if listing[index] == "." || listing[index] == ".." {
          continue;
        }
        FreedSnoc(es, ss, quota, listing[index], Short(readings[seen], thresholds));
        ShortsStep(readings, seen, thresholds);
        es, ss := es + [listing[index]], ss + [Short(readings[seen], thresholds)];
        if rm_max > 0 && rm_index < 5 {
          var short := CheckPartitionUsage(readings[seen]);
          if short {
            removed := removed + [listing[index]];
            rm_index := rm_index + 1;
            rm_max := rm_max - 1;
          }
        }
        seen := seen + 1;
      }
      assert listing[..n] == listing;
      var _ := CheckPartitionUsage(readings[seen]);
    }
  }

  /** The results of the checks at the first `n` directories. */
  function Shorts(readings: seq<Option<Space>>, n: nat, t: Thresholds): (short: seq<bool>)
    requires n <= |readings|
    ensures |short| == n
  {
    seq(n, i requires 0 <= i < n => Short(readings[i], t))
  }

  /** When the space depends on how many directories are gone, the pass removes the oldest ones until there is no
      shortage, five at most, and never the newest. */
  lemma RecyclesUntilEnough(names: seq<string>, readings: seq<Option<Space>>, space: nat -> Space, t: Thresholds)
    returns (n: nat)
    requires |readings| > |names| >= 2
    requires forall i :: 0 <= i < |names| ==>
               readings[i] == Some(space(|Freed(names[..i], Shorts(readings, i, t), Quota(|names|))|))
    ensures n <= 5 && n < |names| && Freed(names, Shorts(readings, |names|, t), Quota(|names|)) == names[..n]
    ensures forall j :: 0 <= j < n ==> Insufficient(space(j), t)
    ensures n < 5 && n < |names| - 1 ==> !Insufficient(space(n), t)
  {
    hide Insufficient, Freed;
    var enough := (k: nat) => !Insufficient(space(k), t);
    var short := Shorts(readings, |names|, t);
    forall i | 0 <= i < |names|
      ensures short[i] == !enough(|Freed(names[..i], short[..i], Quota(|names|))|)
    {
      assert short[..i] == Shorts(readings, i, t);
    }
    FreesShortestPrefix(names, short, enough);
    n := Needed(enough, 0, Quota(|names|));
  }

  lemma ShortsStep(readings: seq<Option<Space>>, n: nat, t: Thresholds)
    requires n < |readings|
    ensures Shorts(readings, n + 1, t) == Shorts(readings, n, t) + [Short(readings[n], t)]
  {
  }

  /** One more entry of a listing. */
  lemma Visit(listing: seq<string>, index: nat)
    requires index < |listing|
    ensures Entries(listing[..index + 1]) == Entries(listing[..index])
            + if listing[index] == "." || listing[index] == ".." then [] else [listing[index]]
    ensures |Entries(listing[..index + 1])| <= |Entries(listing)|
  {
    assert listing[..index + 1] == listing[..index] + [listing[index]];
    EntriesSnoc(listing[..index], listing[index]);
    EntriesAppend(listing[..index + 1], listing[index + 1..]);
    assert listing[..index + 1] + listing[index + 1..] == listing;
  }

  lemma {:induction false} EntriesAppend(a: seq<string>, b: seq<string>)
    ensures Entries(a + b) == Entries(a) + Entries(b)
  {
    if a == [] {
      assert a + b == b;
    } else {
      assert (a + b)[1..] == a[1..] + b;
      EntriesAppend(a[1..], b);
    }
  }
}
