/** What the statements of a text for ssar/cpptoml.h mean to those who look keys up in the tree that parse() returns. */
module CppTomlLookups {
  import opened Wrappers
  import opened CppTomlText
  import opened CppTomlTree
  import opened CppTomlParser
  import opened CppTomlDocument
  import opened CppTomlSound
  import opened CppTomlMeaning

  /** Under the parts of a key, one after the other, stands the value. */
  predicate Holds(t: Table, keys: seq<string>, v: Value)
    decreases |keys|
  {
    keys != [] && Contains(t, keys[0]) &&
    if |keys| == 1 then Get(t, keys[0]) == Leaf(v)
    else Get(t, keys[0]).Tab? && Holds(Get(t, keys[0]).table, keys[1..], v)
  }

  // ----- keys ---------------------------------------------------------------------------------

  /** A key that is put is found, and what is under other keys stays. */
  lemma {:induction false} PutHolds(t: Table, keys: seq<string>, v: Value)
    requires keys != [] && Put(t, keys, v).Some?
    ensures Holds(Put(t, keys, v).value, keys, v)
    ensures forall k :: k != keys[0] && Contains(t, k) ==>
              Contains(Put(t, keys, v).value, k) && Get(Put(t, keys, v).value, k) == Get(t, k)
    decreases |keys|
  {
    hide Contains, Get, Insert;
    var key := keys[0];
    if |keys| == 1 {
      InsertGet(t, key, Leaf(v));
    } else {
      var sub := Inner(t, key, false).value;
      var u := Put(sub, keys[1..], v).value;
      PutHolds(sub, keys[1..], v);
      InsertGet(t, key, Tab(u));
    }
  }

  /** Where nothing but tables, or nothing, is on the way, and nothing at the end. */
  predicate IsOpenKey(t: Table, keys: seq<string>)
    requires keys != []
    decreases |keys|
  {
    !Contains(t, keys[0]) || (|keys| > 1 && Get(t, keys[0]).Tab? && IsOpenKey(Get(t, keys[0]).table, keys[1..]))
  }

  /** A key is accepted if and only if its place is free. */
  lemma {:induction false} PutAcceptedIff(t: Table, keys: seq<string>, v: Value)
    requires keys != []
    ensures Put(t, keys, v).Some? <==> IsOpenKey(t, keys)
    decreases |keys|
  {
    hide Contains, Get, Insert;
    if |keys| > 1 {
      NothingInside(EMPTY_TABLE, keys[1]);
      if Contains(t, keys[0]) {
        if Get(t, keys[0]).Tab? {
          PutAcceptedIff(Get(t, keys[0]).table, keys[1..], v);
        }
      } else {
        PutAcceptedIff(EMPTY_TABLE, keys[1..], v);
      }
    }
  }

  // ----- headers ------------------------------------------------------------------------------

  /** Tables and table arrays all the way, as far as there is something. */
  predicate IsWay(t: Table, keys: seq<string>)
    decreases |keys|
  {
    keys == [] ||
    (keys[0] != "" && Inner(t, keys[0], true).Some? && IsWay(Inner(t, keys[0], true).value, keys[1..]))
  }

  /** One part further on the way. */
  lemma {:induction false} WayBelow(t: Table, keys: seq<string>)
    requires |keys| > 1
    ensures IsWay(t, Front(keys)) <==>
              keys[0] != "" && Inner(t, keys[0], true).Some? && IsWay(Inner(t, keys[0], true).value, Front(keys[1..]))
  {
    FrontMore(keys);
  }

  /** [keys] is accepted if and only if its parts have names, no value is on the way, and the table is new or may be
      opened again. */
  lemma {:induction false} TableAcceptedIff(t: Table, keys: seq<string>)
    requires keys != []
    ensures OpenTable(t, keys).Some? <==> IsWay(t, keys) && (HasPath(t, keys) ==> Reopens(At(t, keys)))
    decreases |keys|
  {
    hide Contains, Insert, Reopens, HasPath, At;
    var key, rest := keys[0], keys[1..];
    assert keys == [key] + rest;
    InnerPath(t, key, rest);
    NothingInside(t, key);
    if |keys| > 1 {
      if Inner(t, key, true).Some? {
        TableAcceptedIff(Inner(t, key, true).value, rest);
        NothingThere(rest);
      }
    } else {
      EmptyPath(EMPTY_TABLE);
      if Inner(t, key, true).Some? {
        EmptyPath(Inner(t, key, true).value);
      }
    }
  }

  /** [[keys]] is accepted if and only if its parts have names, no value is on the way, and nothing or a table array is
      at the end. */
  lemma {:induction false} ElementAcceptedIff(t: Table, keys: seq<string>)
    requires keys != []
    ensures OpenElement(t, keys).Some? <==>
              IsWay(t, Front(keys)) && Last(keys) != "" &&
              (HasPath(t, Front(keys)) ==> var here := At(t, Front(keys));
                 !Contains(here, Last(keys)) || Get(here, Last(keys)).TabArr?)
    decreases |keys|
  {
    hide Contains, Get, Insert, HasPath, At;
    var key, rest := keys[0], keys[1..];
    if |keys| > 1 {
      WayBelow(t, keys);
      FrontMore(keys);
      InnerPath(t, key, Front(rest));
      NothingInside(t, key);
      NothingInside(EMPTY_TABLE, Last(rest));
      if Inner(t, key, true).Some? {
        ElementAcceptedIff(Inner(t, key, true).value, rest);
        if Front(rest) == [] {
          EmptyPath(EMPTY_TABLE);
        } else {
          NothingThere(Front(rest));
        }
      }
    } else {
      EmptyPath(t);
      assert Front(keys) == [];
    }
  }

  // ----- growth -------------------------------------------------------------------------------

  lemma RefillExtends(t: Table, key: string, u: Table)
    requires Inner(t, key, true).Some? && Extends(Inner(t, key, true).value, u)
    ensures Extends(t, Refill(t, key, u))
  {
    hide Extends, Insert;
    if Contains(t, key) && Get(t, key).TabArr? {
      LastExtends(Get(t, key).tables, u);
    } else if Contains(t, key) {
      TabExtends(Get(t, key).table, u);
    }
    InsertExtends(t, key, if Contains(t, key) then NodeWith(Get(t, key), u) else Tab(u));
  }

  lemma TabExtends(t: Table, u: Table)
    requires Extends(t, u)
    ensures NodeExtends(Tab(t), Tab(u))
  {
  }

  lemma LastExtends(ts: seq<Table>, u: Table)
    requires ts != [] && Extends(ts[|ts| - 1], u)
    ensures NodeExtends(TabArr(ts), TabArr(ts[|ts| - 1 := u]))
  {
    hide Extends;
    forall i | 0 <= i < |ts| ensures Extends(ts[i], ts[i]) {
      ExtendsSelf(ts[i]);
    }
  }

  lemma {:induction false} PutExtends(t: Table, keys: seq<string>, v: Value)
    requires keys != [] && Put(t, keys, v).Some?
    ensures Extends(t, Put(t, keys, v).value)
    decreases |keys|
  {
    hide Extends, Insert, Contains, Refill;
    if |keys| == 1 {
      InsertExtends(t, keys[0], Leaf(v));
    } else {
      var sub := Inner(t, keys[0], false).value;
      PutExtends(sub, keys[1..], v);
      RefillExtends(t, keys[0], Put(sub, keys[1..], v).value);
    }
  }

  lemma {:induction false} OpenExtends(t: Table, keys: seq<string>, double: bool)
    requires keys != [] && Opened(t, keys, double).Some?
    ensures Extends(t, Opened(t, keys, double).value)
    decreases |keys|
  {
    hide Extends, Insert, Contains, Get, Refill, NodeExtends, Reopens;
    ExtendsSelf(t);
    var key := keys[0];
    if |keys| > 1 {
      var sub := Inner(t, key, true).value;
      OpenExtends(sub, keys[1..], double);
      RefillExtends(t, key, Opened(sub, keys[1..], double).value);
    } else if !Contains(t, key) {
      InsertExtends(t, key, Tab(EMPTY_TABLE));
      InsertExtends(t, key, TabArr([EMPTY_TABLE]));
    } else if double {
      OneMoreGrows(Get(t, key).tables);
      InsertExtends(t, key, TabArr(Get(t, key).tables + [EMPTY_TABLE]));
    }
  }

  lemma {:induction false} WithExtends(t: Table, path: seq<string>, u: Table)
    requires HasPath(t, path) && Extends(At(t, path), u)
    ensures Extends(t, With(t, path, u))
    decreases |path|
  {
    hide Extends, Insert;
    if path != [] {
      assert path == [path[0]] + path[1..];
      InnerPath(t, path[0], path[1..]);
      var sub := Inner(t, path[0], true).value;
      WithExtends(sub, path[1..], u);
      RefillExtends(t, path[0], With(sub, path[1..], u));
    }
  }

  lemma ActExtends(root: Table, cur: seq<string>, stmt: Stmt)
    requires HasPath(root, cur) && Act(root, cur, stmt).Some?
    ensures Extends(root, Act(root, cur, stmt).value.0)
  {
    hide Extends, HasPath, With, At, Put, Opened;
    if stmt.Item? {
      PutExtends(At(root, cur), stmt.keys, stmt.v);
      WithExtends(root, cur, Put(At(root, cur), stmt.keys, stmt.v).value);
    } else {
      OpenExtends(root, stmt.keys, stmt.double);
    }
  }

  lemma {:induction false} RunExtends(root: Table, cur: seq<string>, stmts: seq<Stmt>)
    requires HasPath(root, cur) && Run(root, cur, stmts).Some?
    ensures Extends(root, Run(root, cur, stmts).value.0)
    decreases |stmts|
  {
    hide Extends, HasPath, Act;
    if stmts == [] {
      ExtendsSelf(root);
    } else {
      var (t, path) := Act(root, cur, stmts[0]).value;
      ActExtends(root, cur, stmts[0]);
      RunExtends(t, path, stmts[1..]);
      ExtendsTrans(root, t, Run(root, cur, stmts).value.0);
    }
  }

  // ----- places that stay ---------------------------------------------------------------------

  lemma {:induction false} IndexInLonger(es: seq<Entry>, es': seq<Entry>, key: string)
    requires |es| <= |es'| && (forall i :: 0 <= i < |es| ==> es[i].key == es'[i].key) && Index(es, key) < |es|
    ensures Index(es', key) == Index(es, key)
  {
    if es[0].key != key {
      IndexInLonger(es[1..], es'[1..], key);
    }
  }

  lemma NodeStays(t: Table, t': Table, key: string)
    requires Extends(t, t') && Contains(t, key)
    ensures Contains(t', key) && NodeExtends(Get(t, key), Get(t', key))
  {
    hide NodeExtends, Index;
    IndexInLonger(t.entries, t'.entries, key);
  }

  lemma {:induction false} HoldsOn(t: Table, t': Table, keys: seq<string>, v: Value)
    requires Extends(t, t') && Holds(t, keys, v)
    ensures Holds(t', keys, v)
    decreases |keys|
  {
    hide Extends, Contains, Get;
    NodeStays(t, t', keys[0]);
    if |keys| > 1 {
      HoldsOn(Get(t, keys[0]).table, Get(t', keys[0]).table, keys[1..], v);
    }
  }

  /** A table, or one of the tables of a table array. */
  datatype Spot = Sub(key: string) | Elem(key: string, index: nat)

  function AtSpot(t: Table, spots: seq<Spot>): Option<Table>
    decreases |spots|
  {
    if spots == [] then Some(t)
    else if !Contains(t, spots[0].key) then None
    else
      match (spots[0], Get(t, spots[0].key))
      case (Sub(_), Tab(sub)) => AtSpot(sub, spots[1..])
      case (Elem(_, i), TabArr(ts)) => if i < |ts| then AtSpot(ts[i], spots[1..]) else None
      case _ => None
  }

  /** The place that `keys` lead to just now: through the last table of each array on the way. */
  function Locate(t: Table, keys: seq<string>): (r: seq<Spot>)
    requires HasPath(t, keys)
    ensures |r| == |keys|
    decreases |keys|
  {
    if keys == [] then []
    else
      match Get(t, keys[0])
      case Tab(sub) => [Sub(keys[0])] + Locate(sub, keys[1..])
      case TabArr(ts) => [Elem(keys[0], |ts| - 1)] + Locate(ts[|ts| - 1], keys[1..])
  }

  lemma {:induction false} LocateReaches(t: Table, keys: seq<string>)
    requires HasPath(t, keys)
    ensures AtSpot(t, Locate(t, keys)) == Some(At(t, keys))
    decreases |keys|
  {
    hide Contains, Get;
    if keys != [] {
      match Get(t, keys[0])
      case Tab(sub) => LocateReaches(sub, keys[1..]);
      case TabArr(ts) => LocateReaches(ts[|ts| - 1], keys[1..]);
    }
  }

  /** A place stays when the tree grows, and what is there grows. */
  lemma {:induction false} SpotStays(t: Table, t': Table, spots: seq<Spot>)
    requires Extends(t, t') && AtSpot(t, spots).Some?
    ensures AtSpot(t', spots).Some? && Extends(AtSpot(t, spots).value, AtSpot(t', spots).value)
    decreases |spots|
  {
    hide Contains, Get, Extends;
    if spots != [] {
      var key := spots[0].key;
      NodeStays(t, t', key);
      match spots[0]
      case Sub(_) => SpotStays(Get(t, key).table, Get(t', key).table, spots[1..]);
      case Elem(_, i) => SpotStays(Get(t, key).tables[i], Get(t', key).tables[i], spots[1..]);
    }
  }

  // ----- texts --------------------------------------------------------------------------------

  /** The keys of the last header. */
  function Section(stmts: seq<Stmt>): seq<string> {
    if stmts == [] then []
    else if stmts[|stmts| - 1].Head? then stmts[|stmts| - 1].keys
    else Section(stmts[..|stmts| - 1])
  }

  lemma {:induction false} RunSnoc(root: Table, cur: seq<string>, stmts: seq<Stmt>, more: seq<Stmt>)
    requires HasPath(root, cur)
    ensures var r := Run(root, cur, stmts);
            Run(root, cur, stmts + more) == if r.Some? then Run(r.value.0, r.value.1, more) else None
    decreases |stmts|
  {
    hide HasPath, Act;
    if stmts == [] {
      assert stmts + more == more;
    } else {
      assert (stmts + more)[1..] == stmts[1..] + more;
      var act := Act(root, cur, stmts[0]);
      if act.Some? {
        RunSnoc(act.value.0, act.value.1, stmts[1..], more);
      }
    }
  }

  lemma StartsEmpty()
    ensures HasPath(EMPTY_TABLE, [])
  {
  }

  /** Behind any statements, the next keys go to the table of the last header. */
  lemma {:induction false} RunSection(stmts: seq<Stmt>)
    requires HasPath(EMPTY_TABLE, []) && Run(EMPTY_TABLE, [], stmts).Some?
    ensures Run(EMPTY_TABLE, [], stmts).value.1 == Section(stmts)
    decreases |stmts|
  {
    hide HasPath, Act;
    if stmts != [] {
      var front, last := stmts[..|stmts| - 1], stmts[|stmts| - 1];
      assert stmts == front + [last];
      RunSnoc(EMPTY_TABLE, [], front, [last]);
      RunSection(front);
      var (t, cur) := Run(EMPTY_TABLE, [], front).value;
      RunOne(t, cur, last);
    }
  }

  lemma RunOne(root: Table, cur: seq<string>, stmt: Stmt)
    requires HasPath(root, cur)
    ensures Run(root, cur, [stmt]) == Act(root, cur, stmt)
    ensures Act(root, cur, stmt).Some? ==>
              Act(root, cur, stmt).value.1 == if stmt.Head? then stmt.keys else cur
  {
    hide HasPath, With, At, Put, Opened;
    assert [stmt][1..] == [];
  }

  /** The tree behind the first `k` statements, and what the others add. */
  lemma RunPrefix(stmts: seq<Stmt>, k: nat)
    requires k <= |stmts| && Made(stmts).Some?
    ensures HasPath(EMPTY_TABLE, []) && Run(EMPTY_TABLE, [], stmts[..k]).Some? && Made(stmts[..k]).Some?
    ensures Made(stmts[..k]).value == Run(EMPTY_TABLE, [], stmts[..k]).value.0
    ensures Extends(Made(stmts[..k]).value, Made(stmts).value)
    ensures HasPath(Made(stmts[..k]).value, Section(stmts[..k])) &&
            Run(EMPTY_TABLE, [], stmts[..k]).value.1 == Section(stmts[..k])
    ensures k < |stmts| ==>
              Run(EMPTY_TABLE, [], stmts[..k + 1])
                == Act(Made(stmts[..k]).value, Section(stmts[..k]), stmts[k])
  {
    hide HasPath, Run, Extends, Act, Section;
    StartsEmpty();
    assert stmts[..k] + stmts[k..] == stmts;
    RunSnoc(EMPTY_TABLE, [], stmts[..k], stmts[k..]);
    RunSection(stmts[..k]);
    var (t, cur) := Run(EMPTY_TABLE, [], stmts[..k]).value;
    RunExtends(t, cur, stmts[k..]);
    if k < |stmts| {
      assert stmts[..k + 1] == stmts[..k] + [stmts[k]];
      RunSnoc(EMPTY_TABLE, [], stmts[..k], [stmts[k]]);
      RunOne(t, cur, stmts[k]);
    }
  }

  /** In the tree at the end, a key's value is found under its parts in the table that the header before it led to. */
  predicate KeyIsFound(stmts: seq<Stmt>, k: nat)
    requires k < |stmts| && stmts[k].Item?
  {
    Made(stmts).Some? && Made(stmts[..k]).Some? && HasPath(Made(stmts[..k]).value, Section(stmts[..k])) &&
    var tab := AtSpot(Made(stmts).value, Locate(Made(stmts[..k]).value, Section(stmts[..k])));
    tab.Some? && Holds(tab.value, stmts[k].keys, stmts[k].v)
  }

  lemma KeysAreFound(stmts: seq<Stmt>, k: nat)
    requires k < |stmts| && stmts[k].Item? && Made(stmts).Some?
    ensures KeyIsFound(stmts, k)
  {
    hide HasPath, Run, Extends, Act, Section, Made, Locate, AtSpot, Holds, With, At;
    RunPrefix(stmts, k);
    RunPrefix(stmts, k + 1);
    var t, cur := Made(stmts[..k]).value, Section(stmts[..k]);
    var t1 := Made(stmts[..k + 1]).value;
    ItemLands(t, cur, stmts[k].keys, stmts[k].v);
    var place := Locate(t, cur);
    SpotStays(t1, Made(stmts).value, place);
    HoldsOn(AtSpot(t1, place).value, AtSpot(Made(stmts).value, place).value, stmts[k].keys, stmts[k].v);
  }

  /** Where one key and value go. */
  lemma ItemLands(t: Table, cur: seq<string>, keys: seq<string>, v: Value)
    requires HasPath(t, cur) && Act(t, cur, Item(keys, v)).Some?
    ensures var tab := AtSpot(Act(t, cur, Item(keys, v)).value.0, Locate(t, cur));
            tab.Some? && Holds(tab.value, keys, v)
  {
    hide HasPath, With, At, Put, Locate, AtSpot, Holds;
    var u := Put(At(t, cur), keys, v).value;
    PutHolds(At(t, cur), keys, v);
    LocateWith(t, cur, u);
  }

  /** Changing the table at a path changes it at its place. */
  lemma {:induction false} LocateWith(t: Table, path: seq<string>, u: Table)
    requires HasPath(t, path)
    ensures AtSpot(With(t, path, u), Locate(t, path)) == Some(u)
    decreases |path|
  {
    hide Contains, Get, Insert;
    if path != [] {
      match Get(t, path[0])
      case Tab(sub) =>
        LocateWith(sub, path[1..], u);
        InsertGet(t, path[0], Tab(With(sub, path[1..], u)));
      case TabArr(ts) =>
        LocateWith(ts[|ts| - 1], path[1..], u);
        InsertGet(t, path[0], TabArr(ts[|ts| - 1 := With(ts[|ts| - 1], path[1..], u)]));
    }
  }

  /** Behind a header, the path of its keys leads to its table: a new one, or with [keys] the one that was there, which
      has to have something in it but no single values. */
  lemma HeadsAreOpened(stmts: seq<Stmt>, k: nat)
    requires k < |stmts| && stmts[k].Head? && Made(stmts).Some?
    ensures Made(stmts[..k]).Some? && Made(stmts[..k + 1]).Some? && stmts[k].keys != []
    ensures var (t, t1, keys) := (Made(stmts[..k]).value, Made(stmts[..k + 1]).value, stmts[k].keys);
            Extends(t, t1) && HasPath(t1, keys) &&
            if stmts[k].double then
              At(t1, keys) == EMPTY_TABLE && TablesAt(t1, keys) == TablesAt(t, keys) + [EMPTY_TABLE]
            else if HasPath(t, keys) then t1 == t && Reopens(At(t, keys))
            else At(t1, keys) == EMPTY_TABLE
  {
    hide HasPath, Run, Extends, Section, At, Made, TablesAt, OpenTable, OpenElement;
    RunPrefix(stmts, k);
    RunPrefix(stmts, k + 1);
    var t, t1, keys := Made(stmts[..k]).value, Made(stmts[..k + 1]).value, stmts[k].keys;
    ActExtends(t, Section(stmts[..k]), stmts[k]);
    if stmts[k].double {
      ElementIsOpened(t, keys);
      TablesAre(t1, keys);
    } else {
      TableIsOpened(t, keys);
    }
  }

  lemma TablesAre(t: Table, keys: seq<string>)
    requires keys != [] && HasPath(t, Front(keys)) && Contains(At(t, Front(keys)), Last(keys))
    requires Get(At(t, Front(keys)), Last(keys)).TabArr?
    ensures TablesAt(t, keys) == Get(At(t, Front(keys)), Last(keys)).tables
  {
  }

  /** Every text that is accepted shows statements, and each of its keys is found, under the header before it. */
  lemma EveryKeyIsFound(text: string) returns (stmts: seq<Stmt>)
    requires Parse(text).Ok?
    ensures IsText(text, stmts) && Made(stmts) == Some(Parse(text).value)
    ensures forall k :: 0 <= k < |stmts| && stmts[k].Item? ==> KeyIsFound(stmts, k)
  {
    hide Parse, IsText, Made, KeyIsFound;
    stmts := TextIsShown(text);
    forall k | 0 <= k < |stmts| && stmts[k].Item? ensures KeyIsFound(stmts, k) {
      KeysAreFound(stmts, k);
    }
  }
}
