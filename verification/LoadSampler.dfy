/** The sampling step of load1_thread in sresar/sresar.c, on the ring of sresar/collection.c. */
module LoadSampler {
  import opened LoadHistory
  import opened LoadRing
  import opened Sequences

  function Values(n: Node): Record
    reads n
  {
    Record(n.load1, n.load5s, n.load5s_state, n.zoom_state)
  }

  lemma HistoryGrows(h: seq<Record>, r: Record, base: Baselines)
    requires IsHistory(h, base) && IsStep(h, r, base)
    ensures IsHistory(h + [r], base)
  {
    hide NewRecord, IsStep;
    var g := h + [r];
    forall i | RING <= i < |g| ensures IsStep(g[..i], g[i], base) {
      if i < |h| {
        HistoryStep(h, base, i);
        assert g[..i] == h[..i];
      } else {
        assert g[..i] == h;
      }
    }
  }

  lemma NewIsStep(h: seq<Record>, load1: real, base: Baselines)
    requires |h| >= RING && load1 != h[|h| - 1].load1
    ensures IsStep(h, NewRecord(h, load1, base), base)
  {
  }

  /** The nodes before the one at `at` hold the latest records, the last `k` of them. */
  predicate Mirrors(plist: seq<Node>, at: nat, history: seq<Record>, k: nat)
    requires |plist| == RING && at < RING && k <= RING <= |history|
    reads plist
  {
    forall m {:trigger Behind(at, m, RING)} :: 1 <= m <= k ==>
      Values(plist[Behind(at, m, RING)]) == history[|history| - m]
  }

  /** Once the current node holds the new record and is left behind, the ring mirrors the longer history. */
  lemma MirrorsNext(plist: seq<Node>, at: nat, history: seq<Record>)
    requires |plist| == RING && at < RING <= |history|
    requires Mirrors(plist, at, history, RING - 1)
    ensures Mirrors(plist, After(at, RING), history + [Values(plist[at])], RING)
  {
    var longer, next := history + [Values(plist[at])], After(at, RING);
    forall m | 1 <= m <= RING ensures Values(plist[Behind(next, m, RING)]) == longer[|longer| - m] {
      if m > 1 {
        assert Behind(next, m, RING) == Behind(at, m - 1, RING);
      }
    }
  }

  lemma {:induction false} TriggersOfPrefix(h: seq<Record>, r: Record, a: nat, n: nat)
    requires a + n <= |h|
    ensures Triggers(h + [r], a, n) == Triggers(h, a, n)
    decreases n
  {
    if n > 0 {
      TriggersOfPrefix(h, r, a + 1, n - 1);
    }
  }

  /** A new record counts if it triggers. */
  lemma TriggersGrow(h: seq<Record>, r: Record)
    requires |h| >= RING
    ensures Triggers(h + [r], RING, |h| + 1 - RING) == Triggers(h, RING, |h| - RING) + if r.zoom != 0 then 1 else 0
  {
    TriggersSplit(h + [r], RING, |h| - RING, 1);
    TriggersOfPrefix(h, r, RING, |h| - RING);
    assert Triggers(h + [r], |h|, 1) == (if r.zoom != 0 then 1 else 0) + Triggers(h + [r], |h| + 1, 0);
  }

  /** The numbers that are read from /proc/loadavg. */
  datatype Reading = Reading(load1: real, runnable: int, threads: int)

  /** A line of the load5s file: the record and what was read with it, but for the time. */
  datatype LoadLine = LoadLine(threads: int, runnable: int, record: Record, load5sType: int)

  /** 1 for a load of the last minute, 5 for one of the last five seconds. */
  function LoadType(load1: real, prev: real): int {
    if load1 == 0.0 || prev == 0.0 then 1 else 5
  }

  /** The type of a line tells which of the two loads its record holds. */
  lemma TypeIs5sIff(h: seq<Record>, i: nat)
    requires 0 < i < |h|
    ensures LoadType(h[i].load1, h[i - 1].load1) == if Is5s(h, i) then 5 else 1
  {
  }

  class Sampler {
    const plist: seq<Node>
    const base: Baselines
    var current_node: Node
    /** The collections that eventfd_load1 has been told to start. */
    var triggers: nat
    /** What has been written to load5s_fd. */
    var file: seq<LoadLine>
    ghost var at: nat
    ghost var history: seq<Record>

    ghost predicate Valid()
      reads this, plist
    {
      |plist| == RING && IsRing(plist) && at < RING <= |history| && current_node == plist[at] &&
      IsHistory(history, base) && Mirrors(plist, at, history, RING) &&
      triggers == Triggers(history, RING, |history| - RING)
    }

    /** While the current node is being written, the fifteen before it still hold the latest records. */
    ghost predicate Writing()
      reads this, plist
    {
      |plist| == RING && IsRing(plist) && at < RING <= |history| && current_node == plist[at] &&
      Mirrors(plist, at, history, RING - 1)
    }

    /** The thread starts with nodes that hold anything. */
    constructor (nodes: seq<Node>, baselines: Baselines)
      requires |nodes| == RING && AllDistinct(nodes)
      modifies nodes
      ensures Valid() && plist == nodes && base == baselines && |history| == RING && triggers == 0 && file == []
      ensures forall i :: 0 <= i < RING ==> history[i].zoom == old(nodes[i].zoom_state)
    {
      plist, base, current_node, triggers, file, at := nodes, baselines, nodes[0], 0, [], 0;
      history := [];
      new;
      CircularLinkedlistInit(plist);
      history := seq(RING, i requires 0 <= i < RING reads plist, this => Values(plist[i]));
    }

    /** get_prevnode_state of the current node. */
    method GetPrevnodeState(level: nat) returns (state: int)
      requires Writing() && 1 <= level <= RING
      ensures state == PrevState(history, level - 1)
    {
      var cnode := current_node.prev;
      var i: nat := 1;
      assert history[..|history| - (i - 1)] == history;
      while i < level
        invariant 1 <= i <= level && cnode == plist[Behind(at, i, RING)]
        invariant PrevState(history, level - 1) == PrevState(history[..|history| - (i - 1)], level - i)
      {
        assert Behind(at, i, RING) < RING;
        assert history[..|history| - (i - 1)][..|history| - i] == history[..|history| - i];
        if cnode.zoom_state != 0 {
          return cnode.zoom_state;
        }
        cnode := cnode.prev;
        i := i + 1;
      }
      return 0;
    }

    /** One reading of /proc/loadavg. */
    method Sample(now: Reading, hour_lock: bool, partition_insufficient: bool)
      requires Valid()
      modifies this`current_node, this`triggers, this`file, this`at, this`history
      modifies current_node`load1, current_node`load5s, current_node`load5s_state, current_node`zoom_state
      ensures Valid()
      ensures hour_lock || now.load1 == old(history[|history| - 1].load1) ==>
        history == old(history) && current_node == old(current_node) && triggers == old(triggers) &&
        file == old(file) && Values(old(current_node)) == old(Values(current_node))
      ensures !hour_lock && now.load1 != old(history[|history| - 1].load1) ==>
        var r := NewRecord(old(history), now.load1, base);
        var line := LoadLine(now.threads, now.runnable, r, LoadType(now.load1, old(history[|history| - 1].load1)));
        history == old(history) + [r] && current_node == old(current_node.next) &&
        triggers == old(triggers) + (if r.zoom != 0 then 1 else 0) &&
        file == old(file) + if partition_insufficient then [] else [line]
    {
      hide IsHistory, NewRecord, PrevState, Load5s, Rises, Truncate, Triggers;
      assert Behind(at, 1, RING) == Before(at, RING);
      if now.load1 != current_node.prev.load1 {
        if hour_lock {
          return;
        }
        var load5s_type := Decide(now.load1);
        if !partition_insufficient {
          file := file + [LoadLine(now.threads, now.runnable, Values(current_node), load5s_type)];
        }
        if current_node.zoom_state != 0 {
          triggers := triggers + 1;
        }
        Leave(now.load1);
      }
    }

    /** The current node holds its record and is left behind. */
    method Leave(ghost load1: real)
      requires Writing() && IsHistory(history, base) && load1 != history[|history| - 1].load1
      requires Values(current_node) == NewRecord(history, load1, base)
      requires triggers == Triggers(history, RING, |history| - RING)
                           + if current_node.zoom_state != 0 then 1 else 0
      modifies this`current_node, this`at, this`history
      ensures Valid() && history == old(history) + [NewRecord(old(history), load1, base)]
      ensures current_node == old(current_node.next)
    {
      hide IsHistory, NewRecord, PrevState, Triggers;
      ghost var r := NewRecord(history, load1, base);
      MirrorsNext(plist, at, history);
      TriggersGrow(history, r);
      NewIsStep(history, load1, base);
      HistoryGrows(history, r, base);
      history, at := history + [r], After(at, RING);
      current_node := current_node.next;
    }

    /** A load over its threshold: the load state, and the zoom state if collection is due. */
    method MarkOver(rises: bool)
      requires Writing()
      modifies current_node`load5s_state, current_node`zoom_state
      ensures Writing() && current_node.load5s_state == 2
      ensures current_node.zoom_state == if rises || PrevState(history, 9) == 0 then 3 else old(current_node.zoom_state)
    {
      hide PrevState, Mirrors;
      SetStates(2, current_node.zoom_state);
      var state := GetPrevnodeState(10);
      if rises || state == 0 {
        SetStates(2, 3);
      }
    }

    /** The fields of the current node for a reading. */
    method Decide(load1: real) returns (load5s_type: int)
      requires Valid()
      modifies current_node`load1, current_node`load5s, current_node`load5s_state, current_node`zoom_state
      ensures Writing() && Values(current_node) == NewRecord(history, load1, base)
      ensures load5s_type == LoadType(load1, history[|history| - 1].load1)
    {
      hide IsHistory, PrevState, Load5s, Rises, Truncate, Mirrors;
      StartWriting(load1);
      var prev := current_node.prev;
      var load5s: int;
      if current_node.load1 == 0.0 || prev.load1 == 0.0 {
        load5s_type := 1;
        load5s := Truncate(current_node.load1);
        if load5s > base.load1m {
          MarkOver(false);
        }
      } else {
        load5s_type := 5;
        load5s := Load5s(current_node.load1, prev.load1);
        if load5s > base.load5s {
          MarkOver(Rises(load1, load5s, Values(prev)));
        }
      }
      SetLoad5s(load5s);
    }

    method StartWriting(load1: real)
      requires Valid()
      modifies current_node`load1, current_node`load5s_state, current_node`zoom_state
      ensures Writing() && current_node.load1 == load1 && current_node.load5s_state == 0 && current_node.zoom_state == 0
      ensures Values(current_node.prev) == history[|history| - 1]
    {
      hide IsHistory;
      assert Behind(at, 1, RING) == Before(at, RING);
      current_node.load1 := load1;
      current_node.load5s_state := 0;
      current_node.zoom_state := 0;
    }

    method SetStates(load5s_state: int, zoom_state: int)
      requires Writing()
      modifies current_node`load5s_state, current_node`zoom_state
      ensures Writing() && current_node.load5s_state == load5s_state && current_node.zoom_state == zoom_state
    {
      current_node.load5s_state := load5s_state;
      current_node.zoom_state := zoom_state;
    }

    method SetLoad5s(load5s: int)
      requires Writing()
      modifies current_node`load5s
      ensures Writing() && current_node.load5s == load5s
    {
      current_node.load5s := load5s;
    }
  }

  /** After any run, `prev` followed `m` times from the current node leads to the `m`-th latest record. */
  lemma PrevLeadsToLatest(s: Sampler, m: nat)
    requires s.Valid() && 1 <= m <= RING
    ensures var node := Back(s.current_node, m, SetOf(s.plist));
            node != null && Values(node) == s.history[|s.history| - m]
  {
    hide IsHistory, Triggers;
    BackIs(s.plist, s.at, m);
    assert Behind(s.at, m, RING) < RING;
  }
}
