/** Every tree that toml_parse returns is sound, and no line takes back what an earlier one has put there. */
module CTomlSound {
  import opened Wrappers
  import opened CTomlScan
  import opened CTomlTree
  import opened CTomlParser
  import opened CTomlGrammar
  import opened CTomlMeaning

  lemma CreateKeytableGrows(t: Tab, key: string, vt: string -> char)
    requires CreateKeytable(t, key).Ok?
    ensures Grows(t, CreateKeytable(t, key).value.0, vt)
  {
    hide SoundTab, Extends, SoundArr, ArrExtends;
    match CheckKey(t, key)
    case NotFound =>
      NewTabSound(key, false, vt);
      AppendTab(t, NewTab(key, false), vt);
    case ATab(i) =>
      NoLongerImplicit(t.tabs[i], vt);
      ReplaceTab(t, i, t.tabs[i].(implicit := false), vt);
    case _ =>
  }

  lemma NoLongerImplicit(t: Tab, vt: string -> char)
    ensures Grows(t, t.(implicit := false), vt)
  {
    ExtendsSelf(t);
  }

  lemma SubTableGrows(t: Tab, key: string, vt: string -> char)
    requires SubTable(t, key).Ok?
    ensures Grows(t, SubTable(t, key).value.0, vt)
  {
    hide Grows, CreateKeytable;
    if IndexOf(TabKeys(t.tabs), key) < |t.tabs| {
      GrowsSelf(t, vt);
    } else {
      CreateKeytableGrows(t, key, vt);
    }
  }

  /** `sub` grew out of sub-table `j` of `t1`, which grew out of `t`. */
  lemma SubTableReplaced(t: Tab, t1: Tab, j: nat, sub: Tab, vt: string -> char)
    requires Grows(t, t1, vt) && j < |t1.tabs| && Grows(t1.tabs[j], sub, vt)
    ensures Grows(t, t1.(tabs := t1.tabs[j := sub]), vt)
  {
    hide Grows;
    ReplaceTab(t1, j, sub, vt);
    GrowsTrans(t, t1, t1.(tabs := t1.tabs[j := sub]), vt);
  }

  /** A key and value only add to their table. */
  lemma {:induction false} PutGrows(vt: string -> char, tab: Tab, keys: seq<string>, val: Val)
    requires keys != [] && Put(vt, tab, keys, val).Ok?
    ensures Grows(tab, Put(vt, tab, keys, val).value, vt)
    decreases val, 1, |keys|
  {
    hide Grows, SubTable, CreateKeytable, PutElems, PutPairs, CheckKey;
    if |keys| > 1 {
      var (tab1, j) := SubTable(tab, keys[0]).value;
      SubTableGrows(tab, keys[0], vt);
      PutGrows(vt, tab1.tabs[j], keys[1..], val);
      SubTableReplaced(tab, tab1, j, Put(vt, tab1.tabs[j], keys[1..], val).value, vt);
    } else {
      match val
      case Plain(raw) =>
        AppendVal(tab, KeyVal(keys[0], raw), vt);
      case List(elems) =>
        NewArrSound(keys[0], vt);
        PutElemsSound(vt, NewArr(keys[0], NoKind), elems);
        AppendArr(tab, PutElems(vt, NewArr(keys[0], NoKind), elems).value, vt);
      case Inline(pairs) =>
        var (tab1, j) := CreateKeytable(tab, keys[0]).value;
        CreateKeytableGrows(tab, keys[0], vt);
        PutPairsGrows(vt, tab1.tabs[j], pairs);
        SubTableReplaced(tab, tab1, j, PutPairs(vt, tab1.tabs[j], pairs).value, vt);
    }
  }

  lemma {:induction false} PutPairsGrows(vt: string -> char, tab: Tab, pairs: seq<Pair>)
    requires PutPairs(vt, tab, pairs).Ok?
    ensures Grows(tab, PutPairs(vt, tab, pairs).value, vt)
    decreases pairs, 0, 0
  {
    hide Grows, Put;
    if pairs == [] {
      GrowsSelf(tab, vt);
    } else {
      var tab1 := Put(vt, tab, pairs[0].keys, pairs[0].val).value;
      PutGrows(vt, tab, pairs[0].keys, pairs[0].val);
      PutPairsGrows(vt, tab1, pairs[1..]);
      GrowsTrans(tab, tab1, PutPairs(vt, tab1, pairs[1..]).value, vt);
    }
  }

  lemma {:induction false} PutElemsSound(vt: string -> char, arr: Arr, elems: seq<Val>)
    requires PutElems(vt, arr, elems).Ok? && SoundArr(arr, vt)
    ensures SoundArr(PutElems(vt, arr, elems).value, vt)
    decreases elems, 0, 0
  {
    hide SoundArr, PutElem;
    if elems != [] {
      PutElemSound(vt, arr, elems[0]);
      PutElemsSound(vt, PutElem(vt, arr, elems[0]).value, elems[1..]);
    }
  }

  lemma {:induction false} PutElemSound(vt: string -> char, arr: Arr, v: Val)
    requires PutElem(vt, arr, v).Ok? && SoundArr(arr, vt)
    ensures SoundArr(PutElem(vt, arr, v).value, vt)
    decreases v, 0, 0
  {
    hide SoundArr, SoundTab, PutElems, PutPairs, Grows;
    match v
    case Plain(raw) =>
      PushValSound(vt, arr, raw);
    case List(elems) =>
      NewArrSound("", vt);
      PutElemsSound(vt, NewArr("", NoKind), elems);
      PushArrSound(vt, arr, PutElems(vt, NewArr("", NoKind), elems).value);
    case Inline(pairs) =>
      NewTabSound("", false, vt);
      PutPairsGrows(vt, NewTab("", false), pairs);
      GrowsSound(NewTab("", false), PutPairs(vt, NewTab("", false), pairs).value, vt);
      PushTabSound(vt, arr, PutPairs(vt, NewTab("", false), pairs).value);
  }

  /** parse_keyval only adds to its table. */
  lemma ParseKeyvalGrows(text: CString, vt: string -> char, tok: Token, tab: Tab)
    requires Inside(text, tok) && ParseKeyval(text, vt, tok, tab).Ok?
    ensures Grows(tab, ParseKeyval(text, vt, tok, tab).value.1, vt)
  {
    hide Grows, ParseKeyval, PairEnd, Put;
    var keys, val := PairIsShown(text, vt, tok, tab);
    PairKeys(text, tok, keys, val);
    PairIsPut(text, vt, tok, keys, val, tab);
    PutGrows(vt, tab, keys, val);
  }

  /** `key = value` with a plain value is accepted if and only if the table has no entry of that key and the
      next token is read; then toml_raw_in finds the raw value under the key, and every other lookup is as before. */
  lemma KeyvalIsLookedUp(text: CString, vt: string -> char, tok: Token, tab: Tab, t1: Token, t2: Token, key: string)
    requires Inside(text, tok) && Eat(text, tok, Str, true) == Ok(t1) && t1.kind == Equal
    requires Next(text, t1, false) == Ok(t2) && t2.kind == Str && NormalizeKey(text, tok) == Ok(key)
    ensures var r := ParseKeyval(text, vt, tok, tab);
            (r.Ok? <==> key !in AllKeys(tab) && Next(text, t2, true).Ok?) &&
            (r.Ok? ==> RawIn(r.value.1, key) == Some(text[t2.ptr..t2.End()]) &&
                       forall k :: (k != key ==> RawIn(r.value.1, k) == RawIn(tab, k)) &&
                                   ArrayIn(r.value.1, k) == ArrayIn(tab, k) && TableIn(r.value.1, k) == TableIn(tab, k))
  {
    hide Next, NormalizeKey, ParseArray, ParseTable, AllKeys, IndexOf;
    var kv := KeyVal(key, text[t2.ptr..t2.End()]);
    var r := ParseKeyval(text, vt, tok, tab);
    FoundIsListed(tab, key);
    if r.Ok? {
      assert r.value.1 == tab.(kvals := tab.kvals + [kv]);
      forall k ensures RawIn(r.value.1, k) == if k == key then Some(kv.val) else RawIn(tab, k) {
        RawAfterAppend(tab, kv, k);
      }
    }
  }

  lemma FoundIsListed(t: Tab, key: string)
    ensures CheckKey(t, key) == NotFound <==> key !in AllKeys(t)
  {
    var v, a, b := IndexOf(ValKeys(t.kvals), key), IndexOf(ArrKeys(t.arrs), key), IndexOf(TabKeys(t.tabs), key);
    var ks := AllKeys(t);
    assert v < |t.kvals| ==> ks[v] == key;
    assert a < |t.arrs| ==> ks[|t.kvals| + a] == key;
    assert b < |t.tabs| ==> ks[|t.kvals| + |t.arrs| + b] == key;
  }

  lemma RawAfterAppend(t: Tab, kv: KeyVal, k: string)
    requires CheckKey(t, kv.key) == NotFound
    ensures RawIn(t.(kvals := t.kvals + [kv]), k) == if k == kv.key then Some(kv.val) else RawIn(t, k)
  {
    var ks := ValKeys(t.kvals + [kv]);
    assert ks == ValKeys(t.kvals) + [kv.key];
    IndexOfAppend(ValKeys(t.kvals), kv.key, k);
  }

  lemma {:induction false} IndexOfAppend(ks: seq<string>, key: string, k: string)
    requires IndexOf(ks, key) == |ks|
    ensures IndexOf(ks + [key], k)
         == if IndexOf(ks, k) < |ks| then IndexOf(ks, k) else if k == key then |ks| else |ks| + 1
  {
    if ks != [] {
      assert (ks + [key])[1..] == ks[1..] + [key];
      IndexOfAppend(ks[1..], key, k);
    } else {
      assert [key][1..] == [];
    }
  }

  lemma NewArrSound(key: string, vt: string -> char)
    ensures SoundArr(NewArr(key, NoKind), vt)
  {
  }

  /** parse_array returns a sound array. */
  lemma ParseArraySound(text: CString, vt: string -> char, tok: Token, arr: Arr)
    requires Inside(text, tok) && ParseArray(text, vt, tok, arr).Ok? && SoundArr(arr, vt)
    ensures SoundArr(ParseArray(text, vt, tok, arr).value.1, vt)
  {
    hide SoundArr, ParseArray, ElemsEnd, PutElems;
    var elems := ArrayIsShown(text, vt, tok, arr);
    assert ValEnd(text, tok, List(elems), true).Some?;
    ArrayIsPut(text, vt, tok, elems, arr);
    PutElemsSound(vt, arr, elems);
  }

  lemma GrowsSound(t: Tab, t': Tab, vt: string -> char)
    requires Grows(t, t', vt) && SoundTab(t, vt)
    ensures SoundTab(t', vt) && Extends(t, t')
  {
  }

  lemma PushValSound(vt: string -> char, arr: Arr, val: string)
    requires SoundArr(arr, vt) && PushVal(vt, arr, val).Ok?
    ensures SoundArr(PushVal(vt, arr, val).value, vt)
  {
  }

  lemma PushArrSound(vt: string -> char, arr: Arr, a: Arr)
    requires SoundArr(arr, vt) && SoundArr(a, vt) && KindFor(arr, Arrays).Ok?
    ensures SoundArr(KindFor(arr, Arrays).value.(arrs := arr.arrs + [a]), vt)
  {
  }

  lemma PushTabSound(vt: string -> char, arr: Arr, t: Tab)
    requires SoundArr(arr, vt) && SoundTab(t, vt) && KindFor(arr, Tables).Ok?
    ensures SoundArr(KindFor(arr, Tables).value.(tabs := arr.tabs + [t]), vt)
  {
  }

  // ----- headers ------------------------------------------------------------------------------

  lemma StepWithGrows(t: Tab, step: Step, u: Tab, vt: string -> char)
    requires CanStep(t, step) && Grows(StepTo(t, step), u, vt)
    ensures Grows(t, StepWith(t, step, u), vt)
  {
    hide Grows, SoundArr, ArrExtends;
    match step
    case InTab(key) => ReplaceTab(t, IndexOf(TabKeys(t.tabs), key), u, vt);
    case InArr(key) =>
      var i := IndexOf(ArrKeys(t.arrs), key);
      var a := t.arrs[i];
      ReplaceLast(a, u, vt);
      ReplaceArr(t, i, a.(tabs := a.tabs[|a.tabs| - 1 := u]), vt);
  }

  /** The tree grows when a table in it grows. */
  lemma {:induction false} WithGrows(t: Tab, path: seq<Step>, u: Tab, vt: string -> char)
    requires HasPath(t, path) && Grows(At(t, path), u, vt)
    ensures Grows(t, With(t, path, u), vt)
    decreases |path|
  {
    hide Grows;
    if path != [] {
      WithGrows(StepTo(t, path[0]), path[1..], u, vt);
      StepWithGrows(t, path[0], With(StepTo(t, path[0]), path[1..], u), vt);
    }
  }

  lemma {:induction false} WalkPathGrows(t: Tab, keys: seq<string>, vt: string -> char)
    requires WalkPath(t, keys).Ok?
    ensures Grows(t, WalkPath(t, keys).value.0, vt)
    decreases |keys|
  {
    hide Grows, SoundArr, ArrExtends, SoundTab, Extends, CheckKey, AllKeys, HasPath, IndexOf;
    if keys == [] {
      GrowsSelf(t, vt);
    } else {
      match CheckKey(t, keys[0])
      case ATab(i) =>
        WalkPathGrows(t.tabs[i], keys[1..], vt);
        ReplaceTab(t, i, WalkPath(t.tabs[i], keys[1..]).value.0, vt);
      case AnArr(i) =>
        var a := t.arrs[i];
        var last := a.tabs[|a.tabs| - 1];
        WalkPathGrows(last, keys[1..], vt);
        var sub := WalkPath(last, keys[1..]).value.0;
        ReplaceLast(a, sub, vt);
        ReplaceArr(t, i, a.(tabs := a.tabs[|a.tabs| - 1 := sub]), vt);
      case NotFound =>
        var new1 := NewTab(keys[0], true);
        WalkPathGrows(new1, keys[1..], vt);
        NewTabSound(keys[0], true, vt);
        GrowsSound(new1, WalkPath(new1, keys[1..]).value.0, vt);
        AppendTab(t, WalkPath(new1, keys[1..]).value.0, vt);
      case AVal(_) =>
    }
  }

  lemma PushTableGrows(t: Tab, key: string, vt: string -> char)
    requires PushTable(t, key).Ok?
    ensures Grows(t, PushTable(t, key).value, vt)
  {
    hide Grows, SoundArr, ArrExtends, SoundTab, Extends;
    var i := IndexOf(ArrKeys(t.arrs), key);
    var u := NewTab("__anon__", false);
    NewTabSound("__anon__", false, vt);
    if i < |t.arrs| {
      PushTab(t.arrs[i], u, vt);
      ReplaceArr(t, i, t.arrs[i].(tabs := t.arrs[i].tabs + [u]), vt);
    } else {
      var a := NewArr(key, Tables).(tabs := [u]);
      OneTableSound(key, u, vt);
      AppendArr(t, a, vt);
      assert [] + [u] == [u];
      assert (t.arrs + [NewArr(key, Tables)])[|t.arrs| := a] == t.arrs + [a];
    }
  }

  lemma OneTableSound(key: string, u: Tab, vt: string -> char)
    requires SoundTab(u, vt)
    ensures SoundArr(NewArr(key, Tables).(tabs := [u]), vt)
  {
  }

  lemma OpenPathGrows(root: Tab, keys: seq<string>, double: bool, vt: string -> char)
    requires keys != [] && OpenPath(root, keys, double).Ok?
    ensures Grows(root, OpenPath(root, keys, double).value.0, vt)
  {
    hide Grows, WalkPath, With, At, PushTable, CreateKeytable, HasPath, CanStep;
    var z, front := keys[|keys| - 1], keys[..|keys| - 1];
    var (root1, path) := WalkPath(root, front).value;
    var here := OpenTable(At(root1, path), z, double).value.0;
    WalkPathGrows(root, front, vt);
    if double {
      PushTableGrows(At(root1, path), z, vt);
    } else {
      CreateKeytableGrows(At(root1, path), z, vt);
    }
    WithGrows(root1, path, here, vt);
    GrowsTrans(root, root1, With(root1, path, here), vt);
  }

  lemma ParseSelectGrows(text: CString, tok: Token, root: Tab, vt: string -> char)
    requires Inside(text, tok) && ParseSelect(text, tok, root).Ok?
    ensures Grows(root, ParseSelect(text, tok, root).value.1, vt)
  {
    hide Grows, ParseSelect, OpenPath, HeaderKeys;
    HeaderParts(text, tok, root);
    OpenPathGrows(root, HeaderKeys(text, tok).value, IsDouble(text, tok), vt);
  }

  // ----- the whole text -----------------------------------------------------------------------

  /** Statements only add to the tree. */
  lemma {:induction false} RunGrows(vt: string -> char, root: Tab, cur: seq<Step>, stmts: seq<Stmt>)
    requires HasPath(root, cur) && Run(vt, root, cur, stmts).Ok?
    ensures Grows(root, Run(vt, root, cur, stmts).value.0, vt)
    decreases |stmts|
  {
    hide Grows, Put, OpenPath, With, At, HasPath;
    if stmts == [] {
      GrowsSelf(root, vt);
    } else {
      match stmts[0]
      case Item(pair) =>
        var tab := Put(vt, At(root, cur), pair.keys, pair.val).value;
        PutGrows(vt, At(root, cur), pair.keys, pair.val);
        WithGrows(root, cur, tab, vt);
        KeepPath(root, cur, tab);
        RunGrows(vt, With(root, cur, tab), cur, stmts[1..]);
        GrowsTrans(root, With(root, cur, tab), Run(vt, With(root, cur, tab), cur, stmts[1..]).value.0, vt);
      case Head(keys, double) =>
        var (root1, cur1) := OpenPath(root, keys, double).value;
        OpenPathGrows(root, keys, double, vt);
        RunGrows(vt, root1, cur1, stmts[1..]);
        GrowsTrans(root, root1, Run(vt, root1, cur1, stmts[1..]).value.0, vt);
    }
  }

  /** From any point of the main loop on, the tree only grows. */
  lemma ParseLoopGrows(text: CString, vt: string -> char, tok: Token, root: Tab, cur: seq<Step>)
    requires Inside(text, tok) && HasPath(root, cur) && ParseLoop(text, vt, tok, root, cur).Ok?
    ensures Grows(root, ParseLoop(text, vt, tok, root, cur).value, vt)
  {
    hide Grows, ParseLoop, HasPath, Shows, Run;
    var stmts := LoopIsShown(text, vt, tok, root, cur);
    ShownIsRun(text, vt, tok, root, cur, stmts);
    RunGrows(vt, root, cur, stmts);
  }

  lemma RootSound(vt: string -> char)
    ensures SoundTab(ROOT, vt)
  {
    hide SoundTab;
    NewTabSound("", false, vt);
  }

  lemma MadeIsSound(vt: string -> char, stmts: seq<Stmt>)
    requires Made(vt, stmts).Ok?
    ensures SoundTab(Made(vt, stmts).value, vt)
  {
    hide SoundTab, Run;
    RootSound(vt);
    RunGrows(vt, ROOT, [], stmts);
    GrowsSound(ROOT, Made(vt, stmts).value, vt);
  }

  /** A successful parse returns a sound tree: distinct keys, single-kind arrays, single-type value arrays. */
  lemma ParsedIsSound(text: CString, vt: string -> char)
    ensures TomlParse(text, vt).Ok? ==> SoundTab(TomlParse(text, vt).value, vt)
  {
    hide SoundTab, TomlParse, IsText, Made;
    if TomlParse(text, vt).Ok? {
      var stmts := TextIsShown(text, vt);
      TextIsMade(text, vt, stmts);
      MadeIsSound(vt, stmts);
    }
  }
}
