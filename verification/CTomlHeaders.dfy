/** What the headers of sresar/toml.c open: the table that the lookups of the interface find under the header's keys. */
module CTomlHeaders {
  import opened Sequences
  import opened Wrappers
  import opened CTomlScan
  import opened CTomlTree
  import opened CTomlParser
  import opened CTomlSound

  // ----- changing the table at a path ---------------------------------------------------------

  lemma StepWithTwice(t: Tab, step: Step, u: Tab, v: Tab)
    requires CanStep(t, step) && u.key == StepTo(t, step).key
    ensures CanStep(StepWith(t, step, u), step) && StepWith(StepWith(t, step, u), step, v) == StepWith(t, step, v)
  {
    StepWithKeys(t, step, u);
    match step
    case InTab(key) =>
      var i := IndexOf(TabKeys(t.tabs), key);
      assert TabKeys(t.tabs[i := u]) == TabKeys(t.tabs) && t.tabs[i := u][i := v] == t.tabs[i := v];
    case InArr(key) =>
      var i := IndexOf(ArrKeys(t.arrs), key);
      var a := t.arrs[i];
      var last := |a.tabs| - 1;
      var a1 := a.(tabs := a.tabs[last := u]);
      var a2 := a.(tabs := a.tabs[last := v]);
      assert ArrKeys(t.arrs[i := a1]) == ArrKeys(t.arrs);
      assert a.tabs[last := u][last := v] == a.tabs[last := v];
      assert t.arrs[i := a1][i := a2] == t.arrs[i := a2];
  }

  lemma WithOne(t: Tab, step: Step, u: Tab)
    requires CanStep(t, step)
    ensures HasPath(t, [step]) && At(t, [step]) == StepTo(t, step) && With(t, [step], u) == StepWith(t, step, u)
  {
    hide CanStep, StepTo, StepWith;
    assert [step][1..] == [];
  }

  /** Changing the table at `path` to `t1` and then the table one step further is one change at `path`. */
  lemma {:induction false} WithStep(root: Tab, path: seq<Step>, t1: Tab, step: Step, u: Tab)
    requires HasPath(root, path) && t1.key == At(root, path).key && CanStep(t1, step)
    ensures var root1 := With(root, path, t1);
            HasPath(root1, path + [step]) && At(root1, path + [step]) == StepTo(t1, step) &&
            With(root1, path + [step], u) == With(root, path, StepWith(t1, step, u))
    decreases |path|
  {
    hide CanStep, StepTo, StepWith;
    if path == [] {
      assert path + [step] == [step] && [step][1..] == [];
    } else {
      var next := StepTo(root, path[0]);
      var w := With(next, path[1..], t1);
      WithStep(next, path[1..], t1, step, u);
      KeepPath(next, path[1..], t1);
      assert (path + [step])[0] == path[0] && (path + [step])[1..] == path[1..] + [step];
      StepWithKeys(root, path[0], w);
      StepWithTwice(root, path[0], w, With(w, path[1..] + [step], u));
    }
  }

  // ----- walk_tabpath, one key at a time ------------------------------------------------------

  /** What walking from the table at `path` of `root` means for the whole tree. */
  function Lift(root: Tab, path: seq<Step>, r: Parsed<(Tab, seq<Step>)>): Parsed<(Tab, seq<Step>)>
    requires HasPath(root, path)
  {
    match r
    case Ok((u, more)) => Ok((With(root, path, u), path + more))
    case Err(e) => Err(e)
  }

  /** The table walk_tabpath goes on from, and the step to it, when `t` is at hand. */
  function Enter(t: Tab, key: string): (r: Parsed<(Tab, Step)>)
    ensures r.Ok? ==> CanStep(r.value.0, r.value.1) && r.value.0.key == t.key
  {
    match CheckKey(t, key)
    case ATab(i) => Ok((t, InTab(key)))
    case AnArr(i) => if t.arrs[i].kind != Tables || t.arrs[i].tabs == [] then Err(Internal) else Ok((t, InArr(key)))
    case AVal(_) => Err(KeyExists)
    case NotFound =>
      var t1 := t.(tabs := t.tabs + [NewTab(key, true)]);
      EnterNewTab(t, NewTab(key, true), []);
      assert [InTab(key)] + [] == [InTab(key)];
      Ok((t1, InTab(key)))
  }

  lemma NewTabIsFound(t: Tab, key: string)
    requires key !in AllKeys(t)
    ensures IndexOf(TabKeys(t.tabs + [NewTab(key, true)]), key) == |t.tabs|
  {
    var ks := TabKeys(t.tabs + [NewTab(key, true)]);
    forall j | 0 <= j < |t.tabs| ensures ks[j] != key {
      assert ks[j] == AllKeys(t)[|t.kvals| + |t.arrs| + j];
    }
    IndexOfFirst(ks, |t.tabs|);
  }

  /** One round of walk_tabpath. */
  lemma WalkStep(t: Tab, keys: seq<string>)
    requires keys != []
    ensures match Enter(t, keys[0])
            case Err(e) => WalkPath(t, keys) == Err(e)
            case Ok((t1, step)) =>
              HasPath(t1, [step]) &&
              WalkPath(t, keys) == Lift(t1, [step], WalkPath(StepTo(t1, step), keys[1..]))
  {
    hide HasPath, With, At, AllKeys, CheckKey, IndexOf, Lift;
    var e := Enter(t, keys[0]);
    if e.Ok? {
      var (t1, step) := e.value;
      match CheckKey(t, keys[0])
      case ATab(i) =>
        WalkInto(t1, step, t.tabs[i], WalkPath(t.tabs[i], keys[1..]));
      case AnArr(i) =>
        var a := t.arrs[i];
        WalkInto(t1, step, a.tabs[|a.tabs| - 1], WalkPath(a.tabs[|a.tabs| - 1], keys[1..]));
      case NotFound =>
        NewTabIsFound(t, keys[0]);
        var u := NewTab(keys[0], true);
        var r := WalkPath(u, keys[1..]);
        WalkInto(t1, step, u, r);
        if r.Ok? {
          assert (t.tabs + [u])[|t.tabs| := r.value.0] == t.tabs + [r.value.0];
        }
    }
  }

  lemma WalkInto(t: Tab, step: Step, next: Tab, r: Parsed<(Tab, seq<Step>)>)
    requires CanStep(t, step) && next == StepTo(t, step)
    ensures HasPath(t, [step])
    ensures Lift(t, [step], r) == if r.Err? then r else Ok((StepWith(t, step, r.value.0), [step] + r.value.1))
  {
    hide CanStep, StepTo, StepWith, HasPath, With, At;
    WithOne(t, step, if r.Ok? then r.value.0 else t);
  }

  // ----- lookups along a path -----------------------------------------------------------------

  /** The table under `keys`: toml_table_in at each key, or else the last table of toml_array_in. */
  function Reach(t: Tab, keys: seq<string>): Option<Tab>
    decreases |keys|
  {
    if keys == [] then Some(t)
    else if TableIn(t, keys[0]).Some? then Reach(TableIn(t, keys[0]).value, keys[1..])
    else
      match ArrayIn(t, keys[0])
      case Some(a) => if a.kind == Tables && a.tabs != [] then Reach(a.tabs[|a.tabs| - 1], keys[1..]) else None
      case None => None
  }

  function Names(path: seq<Step>): (ks: seq<string>)
    ensures |ks| == |path|
  {
    if path == [] then [] else [path[0].key] + Names(path[1..])
  }

  lemma {:induction false} NamesSnoc(path: seq<Step>, step: Step)
    ensures Names(path + [step]) == Names(path) + [step.key]
  {
    if path == [] {
      assert path + [step] == [step] && [step][1..] == [];
    } else {
      assert (path + [step])[1..] == path[1..] + [step];
      NamesSnoc(path[1..], step);
    }
  }

  /** In a table with distinct keys, one key is not the name of both a table and an array. */
  lemma OneOf(t: Tab, i: nat, j: nat)
    requires AllDistinct(AllKeys(t)) && i < |t.arrs| && j < |t.tabs|
    ensures t.arrs[i].key != t.tabs[j].key
  {
    assert AllKeys(t)[|t.kvals| + i] == t.arrs[i].key;
    assert AllKeys(t)[|t.kvals| + |t.arrs| + j] == t.tabs[j].key;
  }

  lemma StepIsLookup(t: Tab, step: Step)
    requires AllDistinct(AllKeys(t)) && CanStep(t, step)
    ensures TableIn(t, step.key) == if step.InTab? then Some(StepTo(t, step)) else None
    ensures step.InArr? ==> ArrayIn(t, step.key).Some? &&
                            var a := ArrayIn(t, step.key).value;
                            a.kind == Tables && a.tabs != [] && a.tabs[|a.tabs| - 1] == StepTo(t, step)
  {
    hide AllKeys, AllDistinct;
    if step.InArr? && TableIn(t, step.key).Some? {
      OneOf(t, IndexOf(ArrKeys(t.arrs), step.key), IndexOf(TabKeys(t.tabs), step.key));
    }
  }

  lemma StepIsSound(t: Tab, step: Step, vt: string -> char)
    requires SoundTab(t, vt) && CanStep(t, step)
    ensures SoundTab(StepTo(t, step), vt) && AllDistinct(AllKeys(t))
  {
    hide AllDistinct, AllKeys;
    match step
    case InTab(key) =>
    case InArr(key) =>
      var i := IndexOf(ArrKeys(t.arrs), key);
      assert SoundArr(t.arrs[i], vt);
  }

  /** The table at a path of a sound tree is the one the lookups find. */
  lemma {:induction false} PathReaches(t: Tab, path: seq<Step>, vt: string -> char)
    requires SoundTab(t, vt) && HasPath(t, path)
    ensures Reach(t, Names(path)) == Some(At(t, path))
    decreases |path|
  {
    hide SoundTab, CanStep, StepTo, AllKeys, AllDistinct, TableIn, ArrayIn;
    if path != [] {
      StepIsSound(t, path[0], vt);
      StepIsLookup(t, path[0]);
      PathReaches(StepTo(t, path[0]), path[1..], vt);
      assert Names(path)[1..] == Names(path[1..]);
    }
  }

  lemma {:induction false} ReachSnoc(t: Tab, keys: seq<string>, key: string)
    ensures Reach(t, keys + [key]) == if Reach(t, keys).None? then None else Reach(Reach(t, keys).value, [key])
    decreases |keys|
  {
    hide TableIn, ArrayIn;
    if keys == [] {
      assert keys + [key] == [key];
    } else {
      assert (keys + [key])[0] == keys[0] && (keys + [key])[1..] == keys[1..] + [key];
      if TableIn(t, keys[0]).Some? {
        ReachSnoc(TableIn(t, keys[0]).value, keys[1..], key);
      } else if ArrayIn(t, keys[0]).Some? {
        var a := ArrayIn(t, keys[0]).value;
        if a.kind == Tables && a.tabs != [] {
          ReachSnoc(a.tabs[|a.tabs| - 1], keys[1..], key);
        }
      }
    }
  }

  /** The table at the end of walk_tabpath: the one that was under the keys, or a new implicit one. */
  function Walked(t: Tab, keys: seq<string>): Tab {
    if Reach(t, keys).Some? then Reach(t, keys).value else NewTab(if keys == [] then "" else keys[|keys| - 1], true)
  }

  /** What walk_tabpath enters is what the lookups find, or new. */
  lemma EnterIsLookup(t: Tab, key: string)
    requires AllDistinct(AllKeys(t)) && Enter(t, key).Ok?
    ensures var (t1, step) := Enter(t, key).value;
            step.key == key &&
            match TableIn(t, key)
            case Some(u) => StepTo(t1, step) == u
            case None =>
              match ArrayIn(t, key)
              case Some(a) => a.kind == Tables && a.tabs != [] && StepTo(t1, step) == a.tabs[|a.tabs| - 1]
              case None => StepTo(t1, step) == NewTab(key, true)
  {
    hide AllKeys, AllDistinct;
    match CheckKey(t, key)
    case AnArr(i) => StepIsLookup(t, InArr(key));
    case NotFound => NewTabIsFound(t, key);
    case _ =>
  }

  /** A new table has nothing in it. */
  lemma WalkedIsNew(key: string, keys: seq<string>)
    ensures Walked(NewTab(key, true), keys) == NewTab(if keys == [] then key else keys[|keys| - 1], true)
  {
  }

  lemma WalkedStep(t: Tab, keys: seq<string>)
    requires keys != [] && AllDistinct(AllKeys(t)) && Enter(t, keys[0]).Ok?
    ensures var (t1, step) := Enter(t, keys[0]).value; Walked(t, keys) == Walked(StepTo(t1, step), keys[1..])
  {
    hide AllKeys, AllDistinct, Enter, TableIn, ArrayIn, StepTo, CanStep;
    EnterIsLookup(t, keys[0]);
    WalkedIsNew(keys[0], keys[1..]);
  }

  lemma AtStep(t: Tab, step: Step, u: Tab, path: seq<Step>)
    requires CanStep(t, step) && u.key == StepTo(t, step).key && HasPath(u, path)
    ensures var t1 := StepWith(t, step, u); HasPath(t1, [step] + path) && At(t1, [step] + path) == At(u, path)
  {
    hide CanStep, StepTo, StepWith;
    StepWithKeys(t, step, u);
    assert ([step] + path)[1..] == path;
  }

  /** walk_tabpath follows the lookups and ends at `Walked`. */
  lemma {:induction false} WalkReaches(t: Tab, keys: seq<string>, vt: string -> char)
    requires SoundTab(t, vt) && WalkPath(t, keys).Ok?
    ensures var (t1, path) := WalkPath(t, keys).value; Names(path) == keys && At(t1, path) == Walked(t, keys)
    decreases |keys|
  {
    if keys != [] {
      hide SoundTab, AllKeys, AllDistinct, WalkPath, Enter, StepTo, CanStep, StepWith, HasPath, At, With, Walked, Reach;
      var (t1, step) := Enter(t, keys[0]).value;
      WalkStep(t, keys);
      EnteredIsSound(t, keys[0], vt);
      WalkReaches(StepTo(t1, step), keys[1..], vt);
      var (u, path) := WalkPath(StepTo(t1, step), keys[1..]).value;
      WalkInto(t1, step, StepTo(t1, step), Ok((u, path)));
      AtStep(t1, step, u, path);
      WalkedStep(t, keys);
      EnterIsLookup(t, keys[0]);
      assert ([step] + path)[1..] == path;
    }
  }

  lemma EnteredIsSound(t: Tab, key: string, vt: string -> char)
    requires SoundTab(t, vt) && Enter(t, key).Ok?
    ensures AllDistinct(AllKeys(t)) && SoundTab(StepTo(Enter(t, key).value.0, Enter(t, key).value.1), vt)
  {
    hide AllKeys, AllDistinct;
    match CheckKey(t, key)
    case NotFound =>
      NewTabIsFound(t, key);
      NewTabSound(key, true, vt);
    case ATab(_) => StepIsSound(t, InTab(key), vt);
    case AnArr(_) => StepIsSound(t, InArr(key), vt);
    case AVal(_) =>
  }

  // ----- headers ------------------------------------------------------------------------------

  /** The table that a header opens in `here`. */
  lemma OpenedTable(here: Tab, key: string, double: bool)
    requires OpenTable(here, key, double).Ok?
    ensures var (t, step) := OpenTable(here, key, double).value;
            step.key == key &&
            StepTo(t, step) == if double then NewTab("__anon__", false)
                               else if TableIn(here, key).Some? then TableIn(here, key).value.(implicit := false)
                               else NewTab(key, false)
    ensures !double && TableIn(here, key).Some? ==> TableIn(here, key).value.implicit
    ensures !double ==> ArrayIn(here, key).None?
  {
    hide AllKeys;
    if double {
      PushedTable(here, key);
    } else if CheckKey(here, key) == NotFound {
      FoundIsListed(here, key);
      var ks := TabKeys(here.tabs + [NewTab(key, false)]);
      assert ks == TabKeys(here.tabs) + [key];
      NotListed(here, key);
      IndexOfFirst(ks, |here.tabs|);
    } else {
      var i := CheckKey(here, key).t;
      var u := here.tabs[i].(implicit := false);
      assert TabKeys(here.tabs[i := u]) == TabKeys(here.tabs);
    }
  }

  lemma NotListed(t: Tab, key: string)
    requires key !in AllKeys(t)
    ensures IndexOf(ArrKeys(t.arrs), key) == |t.arrs| && IndexOf(TabKeys(t.tabs), key) == |t.tabs|
    ensures key !in TabKeys(t.tabs)
  {
    forall j | 0 <= j < |t.tabs| ensures t.tabs[j].key != key {
      assert AllKeys(t)[|t.kvals| + |t.arrs| + j] == t.tabs[j].key;
    }
    forall j | 0 <= j < |t.arrs| ensures t.arrs[j].key != key {
      assert AllKeys(t)[|t.kvals| + j] == t.arrs[j].key;
    }
  }

  lemma PushedTable(here: Tab, key: string)
    requires PushTable(here, key).Ok?
    ensures CanStep(PushTable(here, key).value, InArr(key))
    ensures StepTo(PushTable(here, key).value, InArr(key)) == NewTab("__anon__", false)
  {
    hide AllKeys;
    var t1 := PushTable(here, key).value;
    var i := IndexOf(ArrKeys(here.arrs), key);
    if i < |here.arrs| {
      assert ArrKeys(t1.arrs) == ArrKeys(here.arrs);
    } else {
      assert ArrKeys(t1.arrs) == ArrKeys(here.arrs) + [key];
      IndexOfFirst(ArrKeys(t1.arrs), i);
    }
  }

  /** The last key, looked up in the table that the others lead to. */
  lemma LastLookup(root: Tab, keys: seq<string>)
    requires keys != []
    ensures var here := Walked(root, keys[..|keys| - 1]);
            var z := keys[|keys| - 1];
            ArrayIn(here, z).None? ==> Reach(root, keys) == TableIn(here, z)
  {
    hide TableIn, ArrayIn;
    var front, z := keys[..|keys| - 1], keys[|keys| - 1];
    assert keys == front + [z];
    ReachSnoc(root, front, z);
    assert [z][1..] == [];
    EmptyLookups(if front == [] then "" else front[|front| - 1], z);
  }

  lemma EmptyLookups(key: string, z: string)
    ensures TableIn(NewTab(key, true), z).None? && ArrayIn(NewTab(key, true), z).None?
  {
  }

  /** The header with the keys `keys`: curtab becomes the table that the lookups then find under all of the keys.
      `[a.b]` opens a new table, or one that was only implied so far with what is in it; `[[a.b]]` a new empty one.
      Nothing else in the tree is lost. */
  lemma HeaderOpens(text: CString, vt: string -> char, tok: Token, root: Tab)
    requires Inside(text, tok) && SoundTab(root, vt) && ParseSelect(text, tok, root).Ok?
    ensures HeaderKeys(text, tok).Ok?
    ensures var (t, root1, cur) := ParseSelect(text, tok, root).value;
            SoundTab(root1, vt) && Extends(root, root1) &&
            OpensTable(root, HeaderKeys(text, tok).value, IsDouble(text, tok), root1, cur)
  {
    hide SoundTab, Extends, ParseSelect, HeaderKeys, OpenPath, OpensTable, IsDouble;
    HeaderParts(text, tok, root);
    ParseSelectGrows(text, tok, root, vt);
    GrowsSound(root, ParseSelect(text, tok, root).value.1, vt);
    OpenPathOpens(root, HeaderKeys(text, tok).value, IsDouble(text, tok), vt);
  }

  /** The table at `cur` of the new tree, by the lookups in both trees. */
  predicate OpensTable(root: Tab, keys: seq<string>, double: bool, root1: Tab, cur: seq<Step>)
    requires keys != [] && HasPath(root1, cur)
  {
    Names(cur) == keys && Reach(root1, keys) == Some(At(root1, cur)) &&
    (double ==> At(root1, cur) == NewTab("__anon__", false)) &&
    (!double && Reach(root, keys).None? ==> At(root1, cur) == NewTab(keys[|keys| - 1], false)) &&
    (!double && Reach(root, keys).Some? ==> Reach(root, keys).value.implicit &&
                                            At(root1, cur) == Reach(root, keys).value.(implicit := false))
  }

  lemma OpenPathOpens(root: Tab, keys: seq<string>, double: bool, vt: string -> char)
    requires keys != [] && SoundTab(root, vt) && OpenPath(root, keys, double).Ok?
    ensures OpensTable(root, keys, double, OpenPath(root, keys, double).value.0, OpenPath(root, keys, double).value.1)
  {
    hide SoundTab, Extends, WalkPath, OpenTable, With, At, HasPath, CanStep, StepTo, Reach, Walked, TableIn, ArrayIn;
    hide AllKeys, Names;
    var front, z := keys[..|keys| - 1], keys[|keys| - 1];
    var (tree, path) := WalkPath(root, front).value;
    var (here, step) := OpenTable(At(tree, path), z, double).value;
    var root1 := With(tree, path, here);
    WalkReaches(root, front, vt);
    OpenedTable(At(tree, path), z, double);
    WithStep(tree, path, here, step, here);
    NamesSnoc(path, step);
    assert keys == front + [z];
    OpenPathGrows(root, keys, double, vt);
    GrowsSound(root, root1, vt);
    PathReaches(root1, path + [step], vt);
    LastLookup(root, keys);
  }
}
