/** The hourly rotation of sresar/sresar.c: rotate_thread, the gates of the four collector threads, the recyclers
    and the clock, interleaved in any order.

    An hour stands for its name and its timestamp; later hours have larger names.  Every access to a shared
    field is a step of its own. */
module Rotation {
  import opened Recycling

  /** Where rotate_thread is. */
  datatype Rotator =
    | Waiting
    | Locked                                   // hour_lock is set
    | HourRead(hour: nat)                      // get_current_hour_datetime has returned
    | Named(hour: nat)                         // data_path_hour is written
    | Made(hour: nat)                          // mkdir has succeeded
    | Switched(hour: nat)                      // load5s_fd refers into the new directory
    | Timed(hour: nat, stamp: nat)             // get_current_hour_timestamp has returned
    | Stamped                                  // hour_timestamp_lock is written
    | Trimming(left: seq<nat>)                 // recycle_diskspace_hour: the directories still to remove
    | Freeing(left: seq<nat>, quota: nat, kept: bool) // recycle_diskspace_usage: the directories still to visit
    | Ended(at: Rotator)                       // the thread has given up, at this place

  /** Where a collector thread is.  C leaves open which operand of its test is read first: hour_timestamp_lock
      (`Loaded`) or the clock (`Clocked`). */
  datatype Gate =
    | Asleep
    | Testing(tries: nat)
    | Loaded(stamp: nat, tries: nat)
    | Clocked(hour: nat, tries: nat)
    | Collecting

  const COLLECTORS: nat := 4
  /** Comparisons before a collector gives up: one in front of the loop and 1001 in it. */
  const PATIENCE: nat := 1002

  datatype State = State(
    now: nat,
    dirs: set<nat>,
    path: nat,           // the hour in data_path_hour
    fd: nat,             // the hour directory that load5s_fd refers into
    stamp: nat,          // hour_timestamp_lock
    hourLock: bool,
    rotator: Rotator,
    gates: seq<Gate>)

  datatype Event =
    | Tick(hour: nat)
    | Lock | ReadHour | WritePath | MakeDir(ok: bool) | Switch(ok: bool) | LogFails | ReadStamp | WriteStamp
    | Unlock(listing: seq<nat>) | Trim(gone: bool)
    | CheckSpace(listing: seq<nat>) | Visit(short: bool, gone: bool)
    | Wake(i: nat) | LoadStamp(i: nat) | LoadClock(i: nat) | Compare(i: nat) | Sleep(i: nat)

  /** What a collector needs: the path names the current hour's directory, it exists, and records go into it. */
  predicate Live(s: State) {
    s.path == s.now && s.now in s.dirs && s.fd == s.now
  }

  predicate Ascending(names: seq<nat>) {
    forall i, j :: 0 <= i < j < |names| ==> names[i] < names[j]
  }

  /** A listing of the hour directories. */
  ghost predicate Lists(names: seq<nat>, dirs: set<nat>) {
    Ascending(names) && (forall d :: d in dirs <==> d in names)
  }

  /** init_env, which reads one hour; older directories may be there. */
  ghost predicate Init(s: State) {
    s.path == s.now && s.fd == s.now && s.stamp == s.now && s.now in s.dirs &&
    (forall d <- s.dirs :: d <= s.now) &&
    !s.hourLock && s.rotator == Waiting && |s.gates| == COLLECTORS && (forall g <- s.gates :: g == Asleep)
  }

  function Fails(s: State): State {
    s.(rotator := Ended(s.rotator), hourLock := false)
  }

  /** The steps; `limit` is duration_threshold. */
  ghost predicate Step(s: State, e: Event, limit: int, s': State) {
    match e
    case Tick(hour) => s.now <= hour && s' == s.(now := hour)
    case Lock => s.rotator == Waiting && s' == s.(rotator := Locked, hourLock := true)
    case ReadHour => s.rotator == Locked && s' == s.(rotator := HourRead(s.now))
    case WritePath => s.rotator.HourRead? && s' == s.(rotator := Named(s.rotator.hour), path := s.rotator.hour)
    case MakeDir(ok) =>
      s.rotator.Named? && (ok ==> s.rotator.hour !in s.dirs) &&
      s' == if ok then s.(rotator := Made(s.rotator.hour), dirs := s.dirs + {s.rotator.hour}) else Fails(s)
    case Switch(ok) =>
      s.rotator.Made? &&
      s' == if ok then s.(rotator := Switched(s.rotator.hour), fd := s.rotator.hour) else Fails(s)
    case LogFails => s.rotator.Switched? && s' == Fails(s)
    case ReadStamp => s.rotator.Switched? && s' == s.(rotator := Timed(s.rotator.hour, s.now))
    case WriteStamp => s.rotator.Timed? && s' == s.(rotator := Stamped, stamp := s.rotator.stamp)
    case Unlock(listing) =>
      s.rotator == Stamped && Lists(listing, s.dirs) &&
      s' == s.(rotator := Trimming(listing[..Excess(|listing|, limit)]), hourLock := false)
    case Trim(gone) =>
      s.rotator.Trimming? &&
      s' == (if s.rotator.left == [] then s.(rotator := Waiting)
             else s.(rotator := Trimming(s.rotator.left[1..]), dirs := Without(s.dirs, s.rotator.left[0], gone)))
    case CheckSpace(listing) =>
      s.rotator == Waiting && Lists(listing, s.dirs) && |listing| >= 2 &&
      s' == s.(rotator := Freeing(listing, Quota(|listing|), false))
    case Visit(short, gone) =>
      s.rotator.Freeing? && VisitStep(s, short, gone, s')
    case Wake(i) => i < |s.gates| && s.gates[i] == Asleep && s' == Put(s, i, Testing(0))
    case LoadStamp(i) =>
      i < |s.gates| && s.gates[i].Testing? && s' == Put(s, i, Loaded(s.stamp, s.gates[i].tries))
    case LoadClock(i) =>
      i < |s.gates| && s.gates[i].Testing? && s' == Put(s, i, Clocked(s.now, s.gates[i].tries))
    case Compare(i) =>
      i < |s.gates| && (s.gates[i].Loaded? || s.gates[i].Clocked?) &&
      s' == Put(s, i, if Passes(s, s.gates[i]) then Collecting
                      else if s.gates[i].tries + 1 < PATIENCE then Testing(s.gates[i].tries + 1)
                      else Asleep)
    case Sleep(i) => i < |s.gates| && s.gates[i] == Collecting && s' == Put(s, i, Asleep)
  }

  /** The second operand is read, and the two are equal. */
  predicate Passes(s: State, g: Gate)
    requires g.Loaded? || g.Clocked?
  {
    match g
    case Loaded(stamp, _) => stamp == s.now
    case Clocked(hour, _) => s.stamp == hour
  }

  function Put(s: State, i: nat, g: Gate): State
    requires i < |s.gates|
  {
    s.(gates := s.gates[i := g])
  }

  function Without(dirs: set<nat>, d: nat, gone: bool): set<nat> {
    if gone then dirs - {d} else dirs
  }

  /** One entry of recycle_diskspace_usage. */
  ghost predicate VisitStep(s: State, short: bool, gone: bool, s': State)
    requires s.rotator.Freeing?
  {
    var left, quota, kept := s.rotator.left, s.rotator.quota, s.rotator.kept;
    if left == [] then s' == s.(rotator := Waiting)
    else if quota > 0 && short then
      s' == s.(rotator := Freeing(left[1..], quota - 1, kept), dirs := Without(s.dirs, left[0], gone))
    else s' == s.(rotator := Freeing(left[1..], quota, true))
  }

  /** What has to hold of the surroundings, at the one step that each concerns: a rotation reads one hour for the
      name and for the lock; a pass by number does not set out to remove all directories; and a pass by space does
      not remove the newest one, which it can only after it has kept an older one. */
  ghost predicate Orderly(s: State, e: Event, limit: int) {
    match e
    case ReadStamp => s.rotator.Switched? ==> s.rotator.hour == s.now
    case Unlock(listing) => limit >= 1 || |listing| > 5
    case Visit(short, gone) =>
      s.rotator.Freeing? && s.rotator.left == [s.stamp] && s.rotator.quota > 0 ==> !(short && gone)
    case _ => true
  }

  /** A run of the threads, whatever the surroundings do. */
  ghost predicate Steps(states: seq<State>, events: seq<Event>, limit: int) {
    |states| == |events| + 1 && Init(states[0]) &&
    forall i :: 0 <= i < |events| ==> Step(states[i], events[i], limit, states[i + 1])
  }

  /** A run in orderly surroundings. */
  ghost predicate Runs(states: seq<State>, events: seq<Event>, limit: int) {
    Steps(states, events, limit) && forall i :: 0 <= i < |events| ==> Orderly(states[i], events[i], limit)
  }

  // ----- the invariant ------------------------------------------------------------------------

  /** The newest directory is that of hour `h`. */
  predicate Newest(s: State, h: nat) {
    h in s.dirs && forall d <- s.dirs :: d <= h
  }

  /** Everything is of one hour. */
  predicate Settled(s: State) {
    s.path == s.stamp && s.fd == s.stamp && Newest(s, s.stamp)
  }

  /** What holds when the rotator is at `r`, or has given up there. */
  predicate PlaceInv(s: State, r: Rotator) {
    match r
    case Waiting => Settled(s)
    case Locked => Settled(s)
    case HourRead(h) => Settled(s) && s.stamp <= h <= s.now
    case Named(h) => s.path == h && s.fd == s.stamp <= h <= s.now && Newest(s, s.stamp)
    case Made(h) => s.path == h && s.fd == s.stamp < h <= s.now && s.stamp in s.dirs && Newest(s, h)
    case Switched(h) => s.path == h && s.fd == h && s.stamp < h <= s.now && Newest(s, h)
    case Timed(h, t) => s.path == h && s.fd == h && s.stamp < h == t <= s.now && Newest(s, h)
    case Stamped => Settled(s)
    case Trimming(left) => Settled(s) && s.stamp !in left
    case Freeing(left, quota, kept) => Settled(s) && Ascending(left) && FreeingInv(s, left, quota, kept)
    case Ended(_) => false
  }

  /** The newest directory is the last one to visit, and the quota is used up by then or something was kept. */
  predicate FreeingInv(s: State, left: seq<nat>, quota: nat, kept: bool) {
    left != [] ==> left[|left| - 1] == s.stamp && (kept || quota < |left|)
  }

  function Place(r: Rotator): Rotator {
    if r.Ended? then r.at else r
  }

  predicate Rotating(r: Rotator) {
    r.Locked? || r.HourRead? || r.Named? || r.Made? || r.Switched? || r.Timed? || r.Stamped?
  }

  /** A rotation can only give up at these places. */
  predicate CanFail(r: Rotator) {
    r.Named? || r.Made? || r.Switched?
  }

  predicate Inv(s: State) {
    s.hourLock == Rotating(s.rotator) && (s.rotator.Ended? ==> CanFail(s.rotator.at)) &&
    s.stamp <= s.now && (forall d <- s.dirs :: d <= s.now) && PlaceInv(s, Place(s.rotator)) &&
    |s.gates| == COLLECTORS && forall g <- s.gates :: GateInv(s, g)
  }

  /** A collector has read a stamp or an hour of the past, or the present ones. */
  predicate GateInv(s: State, g: Gate) {
    (g.Loaded? ==> g.stamp <= s.stamp) && (g.Clocked? ==> g.hour <= s.now)
  }

  predicate IsGateEvent(e: Event) {
    e.Wake? || e.LoadStamp? || e.LoadClock? || e.Compare? || e.Sleep?
  }

  lemma GateKeepsInv(s: State, e: Event, limit: int, s': State)
    requires Inv(s) && Step(s, e, limit, s') && IsGateEvent(e)
    ensures Inv(s')
  {
    hide PlaceInv;
    SamePlace(s, s'.gates);
    forall g | g in s'.gates ensures GateInv(s', g) {
      assert g in s.gates || g == s'.gates[e.i];
    }
  }

  lemma SamePlace(s: State, gates: seq<Gate>)
    ensures PlaceInv(s, Place(s.rotator)) ==> PlaceInv(s.(gates := gates), Place(s.rotator))
  {
  }

  predicate IsRecyclerEvent(e: Event) {
    e.Unlock? || e.Trim? || e.CheckSpace? || e.Visit?
  }

  lemma ListingKeepsInv(s: State, e: Event, limit: int, s': State)
    requires Inv(s) && Step(s, e, limit, s') && (e.Unlock? || e.CheckSpace?)
    ensures Inv(s') <==> Orderly(s, e, limit)
  {
    assert forall g <- s.gates :: GateInv(s, g) ==> GateInv(s', g);
    NewestIsLast(e.listing, s.dirs, s.stamp);
    assert e.listing[..|e.listing|] == e.listing;
  }

  lemma RemovalKeepsInv(s: State, e: Event, limit: int, s': State)
    requires Inv(s) && Step(s, e, limit, s') && (e.Trim? || e.Visit?)
    ensures Inv(s') <==> Orderly(s, e, limit)
  {
    assert forall g <- s.gates :: GateInv(s, g) ==> GateInv(s', g);
  }

  lemma RecyclerKeepsInv(s: State, e: Event, limit: int, s': State)
    requires Inv(s) && Step(s, e, limit, s') && IsRecyclerEvent(e)
    ensures Inv(s') <==> Orderly(s, e, limit)
  {
    hide Inv, Step, Orderly;
    if e.Unlock? || e.CheckSpace? {
      ListingKeepsInv(s, e, limit, s');
    } else {
      RemovalKeepsInv(s, e, limit, s');
    }
  }

  lemma NewestIsLast(listing: seq<nat>, dirs: set<nat>, h: nat)
    requires Lists(listing, dirs) && h in dirs && forall d <- dirs :: d <= h
    ensures listing != [] && listing[|listing| - 1] == h && h in listing
    ensures forall k :: 0 <= k < |listing| ==> h !in listing[..k]
  {
    assert h in listing;
    var i :| 0 <= i < |listing| && listing[i] == h;
    assert listing[|listing| - 1] in dirs;
  }

  lemma RotationKeepsInv(s: State, e: Event, limit: int, s': State)
    requires Inv(s) && Step(s, e, limit, s') && !IsGateEvent(e) && !IsRecyclerEvent(e)
    ensures Inv(s') <==> Orderly(s, e, limit)
  {
    assert forall g <- s.gates :: GateInv(s, g) ==> GateInv(s', g);
  }

  /** A step keeps the invariant if and only if it is orderly. */
  lemma StepKeepsInvIff(s: State, e: Event, limit: int, s': State)
    requires Inv(s) && Step(s, e, limit, s')
    ensures Inv(s') <==> Orderly(s, e, limit)
  {
    hide Inv, Step;
    if IsGateEvent(e) {
      GateKeepsInv(s, e, limit, s');
    } else if IsRecyclerEvent(e) {
      RecyclerKeepsInv(s, e, limit, s');
    } else {
      RotationKeepsInv(s, e, limit, s');
    }
  }

  lemma InitInv(s: State)
    requires Init(s)
    ensures Inv(s)
  {
  }

  lemma {:induction false} RunKeepsInv(states: seq<State>, events: seq<Event>, limit: int, i: nat)
    requires Runs(states, events, limit) && i < |states|
    ensures Inv(states[i])
  {
    hide Inv, Init, Step, Orderly;
    if i == 0 {
      InitInv(states[0]);
    } else {
      RunKeepsInv(states, events, limit, i - 1);
      assert Step(states[i - 1], events[i - 1], limit, states[i - 1 + 1]);
      assert Orderly(states[i - 1], events[i - 1], limit);
      StepKeepsInvIff(states[i - 1], events[i - 1], limit, states[i]);
    }
  }

  // ----- what follows from it -----------------------------------------------------------------

  lemma InvLive(s: State)
    requires Inv(s) && s.stamp == s.now
    ensures Live(s)
  {
  }

  /** At every moment of every run: while hour_timestamp_lock is the current hour, data_path_hour names that hour's
      directory, it exists, and load5s_fd refers into it. */
  lemma StampMeansLive(states: seq<State>, events: seq<Event>, limit: int, i: nat)
    requires Runs(states, events, limit) && i < |states|
    ensures states[i].stamp == states[i].now ==> Live(states[i])
  {
    hide Inv, Runs, Live;
    RunKeepsInv(states, events, limit, i);
    if states[i].stamp == states[i].now {
      InvLive(states[i]);
    }
  }

  // ----- gates --------------------------------------------------------------------------------

  predicate Collects(s: State, i: nat) {
    i < |s.gates| && s.gates[i] == Collecting
  }

  /** The current hour's directory is in use, but its hour is not in the lock yet. */
  predicate EarlyLive(s: State) {
    var r := Place(s.rotator);
    (r.Switched? || r.Timed?) && r.hour == s.now
  }

  lemma PassingIsLiveIff(s: State, i: nat, limit: int, s': State)
    requires Inv(s) && Step(s, Compare(i), limit, s') && Collects(s', i)
    ensures var g := s.gates[i];
            Live(s') <==> g.Loaded? || g.hour == s.now || EarlyLive(s)
  {
    assert s.gates[i] in s.gates;
  }

  /** In every run, a collector that passes its gate finds a live directory if and only if it read the lock first,
      or the hour it read is still the current one, or the next directory happens to be in use already. */
  lemma GateFindsLiveIff(states: seq<State>, events: seq<Event>, limit: int, k: nat, i: nat)
    requires Runs(states, events, limit) && k < |events| && events[k] == Compare(i)
    requires Collects(states[k + 1], i)
    ensures i < |states[k].gates| && (states[k].gates[i].Loaded? || states[k].gates[i].Clocked?)
    ensures var g := states[k].gates[i];
            Live(states[k + 1]) <==> g.Loaded? || g.hour == states[k].now || EarlyLive(states[k])
  {
    hide Runs, Inv, Live, Collects, EarlyLive;
    RunStepOf(states, events, limit, k);
    RunKeepsInv(states, events, limit, k);
    PassingIsLiveIff(states[k], i, limit, states[k + 1]);
  }

  lemma RunStepOf(states: seq<State>, events: seq<Event>, limit: int, k: nat)
    requires Runs(states, events, limit) && k < |events|
    ensures |states| == |events| + 1 && Step(states[k], events[k], limit, states[k + 1])
  {
  }

  /** At the start of hour 5: the collectors asleep, the directories of hours 4 and 5. */
  function Start(): State {
    State(5, {4, 5}, 5, 5, 5, false, Waiting, [Asleep, Asleep, Asleep, Asleep])
  }

  /** A collector reads the clock, the hour ends, it reads the lock and passes, and nothing of hour 6 is there. */
  lemma StaleGate(limit: int) returns (states: seq<State>, events: seq<Event>)
    ensures Runs(states, events, limit) && |states| == 5
    ensures Collects(states[4], 0) && !Live(states[4])
  {
    var s := Start();
    var s1, s2 := Put(s, 0, Testing(0)), Put(s, 0, Clocked(5, 0));
    var s3 := s2.(now := 6);
    states, events := [s, s1, s2, s3, Put(s3, 0, Collecting)], [Wake(0), LoadClock(0), Tick(6), Compare(0)];
  }

  // ----- load records -------------------------------------------------------------------------

  /** load5s_fd refers into a directory that exists, at every moment.  It is the one that data_path_hour names, unless
      a rotation is between naming a new hour and switching to it, under hour_lock, or has given up there. */
  lemma RecordsHaveADirectory(states: seq<State>, events: seq<Event>, limit: int, i: nat)
    requires Runs(states, events, limit) && i < |states|
    ensures states[i].fd in states[i].dirs
    ensures states[i].fd == states[i].path <==>
              var r := Place(states[i].rotator); !r.Made? && (r.Named? ==> r.hour == states[i].stamp)
    ensures states[i].fd != states[i].path ==> states[i].hourLock || states[i].rotator.Ended?
  {
    hide Runs;
    RunKeepsInv(states, events, limit, i);
  }

  // ----- surroundings that are not orderly ----------------------------------------------------

  /** Whatever the clock does: the lock that a rotation writes belongs to what it has published if and only if both
      readings of the clock gave one hour; otherwise it is wrong for as long as that hour is the current one. */
  lemma StampIff(s: State, s1: State, limit: int, s': State)
    requires Inv(s) && Step(s, ReadStamp, limit, s1)
    requires Step(s1.(now := s'.now), WriteStamp, limit, s') && s1.now <= s'.now
    ensures Settled(s') <==> s.rotator.hour == s.now
    ensures (s'.stamp == s'.now ==> Live(s')) <==> s.rotator.hour == s.now || s.now < s'.now
  {
  }

  /** Whatever space does: a visit of the recycler removes the newest directory if and only if it is the one
      visited, removals are left and a shortage is reported; and then an older directory has been kept before. */
  lemma VisitRemovesNewestIff(s: State, short: bool, limit: int, s': State)
    requires Inv(s) && Step(s, Visit(short, true), limit, s')
    ensures s.stamp !in s'.dirs <==> s.rotator.left == [s.stamp] && s.rotator.quota > 0 && short
    ensures s.stamp !in s'.dirs ==> s.rotator.kept
  {
    var left := s.rotator.left;
    if left != [] && left[0] == s.stamp {
      assert |left| == 1;
    }
  }

  /** A run in which the hour ends between the two readings of the clock. */
  lemma TornRotation(limit: int) returns (states: seq<State>, events: seq<Event>)
    ensures Steps(states, events, limit) && |states| == 10
    ensures states[9].stamp == states[9].now && !Live(states[9])
  {
    var s := Start();
    var s1 := s.(now := 6);
    var s2 := s1.(rotator := Locked, hourLock := true);
    var s3 := s2.(rotator := HourRead(6));
    var s4 := s3.(rotator := Named(6), path := 6);
    var s5 := s4.(rotator := Made(6), dirs := s.dirs + {6});
    var s6 := s5.(rotator := Switched(6), fd := 6);
    var s7 := s6.(now := 7);
    var s8 := s7.(rotator := Timed(6, 7));
    states := [s, s1, s2, s3, s4, s5, s6, s7, s8, s8.(rotator := Stamped, stamp := 7)];
    events := [Tick(6), Lock, ReadHour, WritePath, MakeDir(true), Switch(true), Tick(7), ReadStamp, WriteStamp];
  }

  /** A run in which space is short, then enough at the older directory, then short again at the newest. */
  lemma NewestRemoved(limit: int) returns (states: seq<State>, events: seq<Event>)
    ensures Steps(states, events, limit) && |states| == 4
    ensures states[3].stamp == states[3].now && !Live(states[3])
  {
    var s := Start();
    var s1 := s.(rotator := Freeing([4, 5], 1, false));
    var s2 := s1.(rotator := Freeing([5], 1, true));
    states := [s, s1, s2, s2.(rotator := Freeing([], 0, true), dirs := {4})];
    events := [CheckSpace([4, 5]), Visit(false, true), Visit(true, true)];
    assert [4, 5][1..] == [5] && [5][1..] == [];
  }

  /** A rotation that nothing disturbs publishes the new hour. */
  lemma RotationPublishes(s: State, limit: int) returns (states: seq<State>)
    requires Inv(s) && s.rotator == Waiting && s.stamp < s.now
    ensures |states| == 8 && states[0] == s
    ensures Step(s, Lock, limit, states[1]) && Step(states[1], ReadHour, limit, states[2])
    ensures Step(states[2], WritePath, limit, states[3]) && Step(states[3], MakeDir(true), limit, states[4])
    ensures Step(states[4], Switch(true), limit, states[5]) && Step(states[5], ReadStamp, limit, states[6])
    ensures Step(states[6], WriteStamp, limit, states[7])
    ensures Live(states[7]) && states[7].stamp == s.now
  {
    var s1 := s.(rotator := Locked, hourLock := true);
    var s2 := s1.(rotator := HourRead(s.now));
    var s3 := s2.(rotator := Named(s.now), path := s.now);
    var s4 := s3.(rotator := Made(s.now), dirs := s.dirs + {s.now});
    var s5 := s4.(rotator := Switched(s.now), fd := s.now);
    var s6 := s5.(rotator := Timed(s.now, s.now));
    states := [s, s1, s2, s3, s4, s5, s6, s6.(rotator := Stamped, stamp := s.now)];
  }
  // ----- whole passes and waits ---------------------------------------------------------------

  /** Steps one after the other, from any state. */
  ghost predicate Path(states: seq<State>, events: seq<Event>, limit: int) {
    |states| == |events| + 1 && forall i :: 0 <= i < |events| ==> Step(states[i], events[i], limit, states[i + 1])
  }

  lemma PathRest(states: seq<State>, events: seq<Event>, limit: int)
    requires Path(states, events, limit) && events != []
    ensures Step(states[0], events[0], limit, states[1]) && Path(states[1..], events[1..], limit)
  {
    hide Step;
    forall i | 0 <= i < |events[1..]| ensures Step(states[1..][i], events[1..][i], limit, states[1..][i + 1]) {
      assert Step(states[i + 1], events[i + 1], limit, states[i + 1 + 1]);
    }
  }

  function SetOf<T>(s: seq<T>): set<T> {
    set x | x in s
  }

  /** A pass by number, when every removal succeeds, removes just the directories it set out to remove. */
  lemma {:induction false} TrimPass(states: seq<State>, events: seq<Event>, limit: int)
    requires Path(states, events, limit) && states[0].rotator.Trimming?
    requires |events| == |states[0].rotator.left| + 1 && forall i :: 0 <= i < |events| ==> events[i] == Trim(true)
    ensures states[|events|] == states[0].(rotator := Waiting, dirs := states[0].dirs - SetOf(states[0].rotator.left))
    decreases |events|
  {
    PathRest(states, events, limit);
    hide Path;
    var left := states[0].rotator.left;
    if left != [] {
      TrimPass(states[1..], events[1..], limit);
      assert SetOf(left) == {left[0]} + SetOf(left[1..]);
      assert states[1..][|events| - 1] == states[|events|];
    } else {
      assert SetOf(left) == {};
    }
  }

  /** After a rotation and a whole pass by number the newest directories remain, as many as the limit allows or
      five fewer than there were. */
  lemma RotationTrims(states: seq<State>, events: seq<Event>, limit: int, listing: seq<nat>)
    requires Path(states, events, limit) && states[0].rotator == Stamped && Lists(listing, states[0].dirs)
    requires |events| == Excess(|listing|, limit) + 2 && events[0] == Unlock(listing)
    requires forall i :: 1 <= i < |events| ==> events[i] == Trim(true)
    ensures states[|events|].rotator == Waiting
    ensures states[|events|].dirs == SetOf(listing[Excess(|listing|, limit)..])
  {
    PathRest(states, events, limit);
    var k := Excess(|listing|, limit);
    TrimPass(states[1..], events[1..], limit);
    assert states[1..][|events| - 1] == states[|events|];
    hide Path, Step, Excess;
    ListingSplits(listing, states[0].dirs, k);
  }

  lemma ListingSplits(listing: seq<nat>, dirs: set<nat>, k: nat)
    requires Lists(listing, dirs) && k <= |listing|
    ensures dirs - SetOf(listing[..k]) == SetOf(listing[k..])
  {
    assert listing == listing[..k] + listing[k..];
    forall d | d in listing[k..] ensures d in dirs && d !in listing[..k] {
      var i :| 0 <= i < |listing[k..]| && listing[k..][i] == d;
      assert listing[k + i] == d;
      assert forall j :: 0 <= j < k ==> listing[..k][j] == listing[j] < d;
    }
  }

  /** A pass by space, when every removal succeeds, removes what the recycler frees for these results of its checks. */
  lemma {:induction false} VisitPass(states: seq<State>, events: seq<Event>, limit: int, short: seq<bool>)
    requires Path(states, events, limit) && states[0].rotator.Freeing?
    requires |short| == |states[0].rotator.left| && |events| == |short| + 1
    requires (forall i :: 0 <= i < |short| ==> events[i] == Visit(short[i], true)) && events[|short|].Visit?
    ensures var r := states[0].rotator;
            states[|events|].rotator == Waiting &&
            states[|events|].dirs == states[0].dirs - SetOf(Freed(r.left, short, r.quota))
    decreases |events|
  {
    PathRest(states, events, limit);
    hide Path;
    var left, quota := states[0].rotator.left, states[0].rotator.quota;
    if left != [] {
      assert events[0] == Visit(short[0], true);
      VisitPass(states[1..], events[1..], limit, short[1..]);
      assert states[1..][|events| - 1] == states[|events|];
      if quota > 0 && short[0] {
        var freed := Freed(left[1..], short[1..], quota - 1);
        assert SetOf([left[0]] + freed) == {left[0]} + SetOf(freed);
      }
    } else {
      assert SetOf(Freed(left, short, quota)) == {};
    }
  }

  /** A collector that finds the lock of another hour each time gives up at the 1002nd comparison, and not before. */
  lemma {:induction false} GateGivesUp(states: seq<State>, events: seq<Event>, limit: int, i: nat, n: nat)
    requires Path(states, events, limit) && i < |states[0].gates| && states[0].gates[i] == Testing(0)
    requires states[0].stamp != states[0].now && |events| == 2 * n && n <= 1002
    requires forall k :: 0 <= k < n ==> events[2 * k] == LoadStamp(i) && events[2 * k + 1] == Compare(i)
    ensures states[2 * n] == Put(states[0], i, if n < 1002 then Testing(n) else Asleep)
    decreases n
  {
    if n > 0 {
      var m := n - 1;
      assert events[2 * m] == LoadStamp(i) && events[2 * m + 1] == Compare(i);
      assert Step(states[2 * m], events[2 * m], limit, states[2 * m + 1]);
      assert Step(states[2 * m + 1], events[2 * m + 1], limit, states[2 * m + 1 + 1]);
      PathFront(states, events, limit, 2 * m);
      GateGivesUp(states[..2 * m + 1], events[..2 * m], limit, i, m);
      assert states[..2 * m + 1][2 * m] == states[2 * m];
      hide Path;
    }
  }

  lemma PathFront(states: seq<State>, events: seq<Event>, limit: int, k: nat)
    requires Path(states, events, limit) && k <= |events|
    ensures Path(states[..k + 1], events[..k], limit) && states[..k + 1][0] == states[0]
  {
    hide Step;
    forall i | 0 <= i < k ensures Step(states[..k + 1][i], events[..k][i], limit, states[..k + 1][i + 1]) {
      assert Step(states[i], events[i], limit, states[i + 1]);
    }
  }
}
