/** What statements make of a tree, and that this is what toml_parse of sresar/toml.c makes of a text that shows
    them; and it accepts no text that does not show some. */
module CTomlMeaning {
  import opened Wrappers
  import opened CTomlScan
  import opened CTomlTree
  import opened CTomlParser
  import opened CTomlGrammar

  // ----- statements on trees ------------------------------------------------------------------

  function Put(vt: string -> char, tab: Tab, keys: seq<string>, val: Val): (r: Parsed<Tab>)
    requires keys != []
    ensures r.Ok? ==> r.value.key == tab.key
    decreases val, 1, |keys|
  {
    if |keys| > 1 then
      var (tab1, j) :- SubTable(tab, keys[0]);
      var sub :- Put(vt, tab1.tabs[j], keys[1..], val);
      Ok(tab1.(tabs := tab1.tabs[j := sub]))
    else
      match val
      case Plain(raw) => CreateKeyval(tab, keys[0], raw)
      case List(elems) =>
        var _ :- CreateKeyarray(tab, NewArr(keys[0], NoKind));
        var a :- PutElems(vt, NewArr(keys[0], NoKind), elems);
        Ok(tab.(arrs := tab.arrs + [a]))
      case Inline(pairs) =>
        var (tab1, j) :- CreateKeytable(tab, keys[0]);
        var sub :- PutPairs(vt, tab1.tabs[j], pairs);
        Ok(tab1.(tabs := tab1.tabs[j := sub]))
  }

  function PutPairs(vt: string -> char, tab: Tab, pairs: seq<Pair>): (r: Parsed<Tab>)
    ensures r.Ok? ==> r.value.key == tab.key
    decreases pairs, 0, 0
  {
    if pairs == [] then Ok(tab)
    else if pairs[0].keys == [] then Err(Syntax)
    else
      var tab1 :- Put(vt, tab, pairs[0].keys, pairs[0].val);
      PutPairs(vt, tab1, pairs[1..])
  }

  function PutElem(vt: string -> char, arr: Arr, v: Val): (r: Parsed<Arr>)
    ensures r.Ok? ==> r.value.key == arr.key
    decreases v, 0, 0
  {
    match v
    case Plain(raw) => PushVal(vt, arr, raw)
    case List(elems) =>
      var a :- KindFor(arr, Arrays);
      var sub :- PutElems(vt, NewArr("", NoKind), elems);
      Ok(a.(arrs := a.arrs + [sub]))
    case Inline(pairs) =>
      var a :- KindFor(arr, Tables);
      var sub :- PutPairs(vt, NewTab("", false), pairs);
      Ok(a.(tabs := a.tabs + [sub]))
  }

  function PutElems(vt: string -> char, arr: Arr, elems: seq<Val>): (r: Parsed<Arr>)
    ensures r.Ok? ==> r.value.key == arr.key
    decreases elems, 0, 0
  {
    if elems == [] then Ok(arr)
    else
      var arr1 :- PutElem(vt, arr, elems[0]);
      PutElems(vt, arr1, elems[1..])
  }

  /** The statements one after the other: the tree and the path of curtab. */
  function Run(vt: string -> char, root: Tab, cur: seq<Step>, stmts: seq<Stmt>): (r: Parsed<(Tab, seq<Step>)>)
    requires HasPath(root, cur)
    ensures r.Ok? ==> HasPath(r.value.0, r.value.1)
    decreases |stmts|
  {
    if stmts == [] then Ok((root, cur))
    else
      match stmts[0]
      case Item(pair) =>
        if pair.keys == [] then Err(Syntax)
        else
          var tab :- Put(vt, At(root, cur), pair.keys, pair.val);
          KeepPath(root, cur, tab);
          Run(vt, With(root, cur, tab), cur, stmts[1..])
      case Head(keys, double) =>
        if keys == [] then Err(Syntax)
        else
          var (root1, cur1) :- OpenPath(root, keys, double);
          Run(vt, root1, cur1, stmts[1..])
  }

  // ----- a text that shows statements is parsed to what they make -------------------------------

  /** A token and a result that fit. */
  function Paired<T>(t: Token, r: Parsed<T>): Parsed<(Token, T)> {
    match r
    case Ok(v) => Ok((t, v))
    case Err(e) => Err(e)
  }

  lemma {:induction false} PairIsPut(text: CString, vt: string -> char, tok: Token, keys: seq<string>,
    val: Val, tab: Tab)
    requires Inside(text, tok) && PairEnd(text, tok, keys, val).Some?
    ensures ParseKeyval(text, vt, tok, tab) == Paired(PairEnd(text, tok, keys, val).value, Put(vt, tab, keys, val))
    decreases val, 1, |keys|
  {
    hide Next, NormalizeKey, SubTable, CreateKeyval, CreateKeytable, CreateKeyarray, ParseArray, ParseTable,
      PutElems, PutPairs;
    hide ElemsEnd, PairsEnd;
    var t1 := Next(text, tok, true).value;
    if |keys| > 1 {
      var t2 := Next(text, t1, true).value;
      if SubTable(tab, keys[0]).Ok? {
        var (tab1, j) := SubTable(tab, keys[0]).value;
        PairIsPut(text, vt, t2, keys[1..], val, tab1.tabs[j]);
      }
    } else {
      var t2 := Next(text, t1, false).value;
      match val
      case Plain(raw) =>
      case List(elems) =>
        ArrayIsPut(text, vt, t2, elems, NewArr(keys[0], NoKind));
      case Inline(pairs) =>
        if CreateKeytable(tab, keys[0]).Ok? {
          var (tab1, j) := CreateKeytable(tab, keys[0]).value;
          TableIsPut(text, vt, t2, pairs, tab1.tabs[j]);
        }
    }
  }

  lemma {:induction false} TableIsPut(text: CString, vt: string -> char, tok: Token, pairs: seq<Pair>, tab: Tab)
    requires Inside(text, tok) && ValEnd(text, tok, Inline(pairs), true).Some?
    ensures ParseTable(text, vt, tok, tab)
         == Paired(ValEnd(text, tok, Inline(pairs), true).value, PutPairs(vt, tab, pairs))
    decreases pairs, 1, 0
  {
    hide Next, ParseTableLoop, PutPairs, PairsEnd;
    PairsArePut(text, vt, Next(text, tok, true).value, pairs, tab);
  }

  lemma {:induction false} PairsArePut(text: CString, vt: string -> char, tok: Token, pairs: seq<Pair>, tab: Tab)
    requires Inside(text, tok) && PairsEnd(text, tok, pairs).Some?
    ensures ParseTableLoop(text, vt, tok, tab) == Paired(PairsEnd(text, tok, pairs).value, PutPairs(vt, tab, pairs))
    decreases pairs, 0, 0
  {
    hide Next, ParseKeyval, Put, PairEnd;
    if pairs != [] {
      PairKeys(text, tok, pairs[0].keys, pairs[0].val);
      PairIsPut(text, vt, tok, pairs[0].keys, pairs[0].val, tab);
      var t := PairEnd(text, tok, pairs[0].keys, pairs[0].val).value;
      var put := Put(vt, tab, pairs[0].keys, pairs[0].val);
      if put.Ok? && t.kind == Comma {
        PairsArePut(text, vt, Next(text, t, true).value, pairs[1..], put.value);
      }
    }
  }

  lemma PairKeys(text: CString, tok: Token, keys: seq<string>, val: Val)
    requires Inside(text, tok) && PairEnd(text, tok, keys, val).Some?
    ensures keys != [] && tok.kind == Str
  {
  }

  lemma {:induction false} ArrayIsPut(text: CString, vt: string -> char, tok: Token, elems: seq<Val>, arr: Arr)
    requires Inside(text, tok) && ValEnd(text, tok, List(elems), true).Some?
    ensures ParseArray(text, vt, tok, arr)
         == Paired(ValEnd(text, tok, List(elems), true).value, PutElems(vt, arr, elems))
    decreases elems, 1, 0
  {
    hide Next, ParseArrayLoop, PutElems, ElemsEnd;
    ElemsArePut(text, vt, Next(text, tok, false).value, elems, arr);
  }

  lemma {:induction false} ElemIsPut(text: CString, vt: string -> char, tok: Token, v: Val, arr: Arr)
    requires Inside(text, tok) && ValEnd(text, tok, v, false).Some?
    ensures ParseElement(text, vt, tok, arr) == Paired(ValEnd(text, tok, v, false).value, PutElem(vt, arr, v))
    decreases v, 1, 0
  {
    hide Next, ParseArray, ParseTable, PushVal, KindFor, PutElems, PutPairs;
    match v
    case Plain(raw) =>
    case List(elems) => ArrayIsPut(text, vt, tok, elems, NewArr("", NoKind));
    case Inline(pairs) => TableIsPut(text, vt, tok, pairs, NewTab("", false));
  }

  lemma {:induction false} ElemsArePut(text: CString, vt: string -> char, tok: Token, elems: seq<Val>, arr: Arr)
    requires Inside(text, tok) && ElemsEnd(text, tok, elems).Some?
    ensures ParseArrayLoop(text, vt, tok, arr) == Paired(ElemsEnd(text, tok, elems).value, PutElems(vt, arr, elems))
    decreases elems, 0, 0
  {
    hide Next, SkipNewlines, ParseElement, PutElem, ValEnd;
    if elems != [] {
      var t := SkipNewlines(text, tok, false).value;
      ElemIsPut(text, vt, t, elems[0], arr);
      var t1 := ValEnd(text, t, elems[0], false).value;
      var t2 := SkipNewlines(text, t1, false).value;
      var put := PutElem(vt, arr, elems[0]);
      if put.Ok? && t2.kind == Comma {
        ElemsArePut(text, vt, Next(text, t2, false).value, elems[1..], put.value);
      }
    }
  }

  // ----- headers ------------------------------------------------------------------------------

  lemma {:induction false} KeysAreFilled(text: CString, tok: Token, keys: seq<string>, done: seq<string>)
    requires Inside(text, tok) && KeysEnd(text, tok, keys).Some? && |done| + |keys| <= 10
    ensures FillPath(text, tok, done) == Ok((KeysEnd(text, tok, keys).value, done + keys))
    decreases |keys|
  {
    hide Next, NormalizeKey;
    var t := Next(text, tok, true).value;
    if |keys| > 1 {
      KeysAreFilled(text, Next(text, t, true).value, keys[1..], done + [keys[0]]);
      assert done + [keys[0]] + keys[1..] == done + keys;
    } else {
      assert [keys[0]] == keys;
    }
  }

  lemma HeadIsOpened(text: CString, tok: Token, keys: seq<string>, double: bool, root: Tab)
    requires Inside(text, tok) && HeadEnd(text, tok, keys, double).Some?
    ensures keys != []
    ensures var o := OpenPath(root, keys, double);
            ParseSelect(text, tok, root)
            == if o.Ok? then Ok((HeadEnd(text, tok, keys, double).value, o.value.0, o.value.1)) else Err(o.error)
  {
    hide Next, FillPath, OpenPath, KeysEnd, HasPath;
    var t := Brackets(text, tok, LBracket, double).value;
    KeysNotEmpty(text, t, keys);
    assert IsDouble(text, tok) == double && HeaderStart(text, tok) == Ok(t);
    KeysAreFilled(text, t, keys, []);
    assert [] + keys == keys;
    var t1 := KeysEnd(text, t, keys).value;
    assert CloseHeader(text, t1, double) == Ok(HeadEnd(text, tok, keys, double).value);
  }

  lemma KeysNotEmpty(text: CString, tok: Token, keys: seq<string>)
    requires Inside(text, tok) && KeysEnd(text, tok, keys).Some?
    ensures keys != []
  {
  }

  // ----- texts --------------------------------------------------------------------------------

  /** The tree of a run. */
  function TreeOf(r: Parsed<(Tab, seq<Step>)>): Parsed<Tab> {
    match r
    case Ok((t, _)) => Ok(t)
    case Err(e) => Err(e)
  }

  lemma {:induction false} ShownIsRun(text: CString, vt: string -> char, tok: Token, root: Tab,
    cur: seq<Step>, stmts: seq<Stmt>)
    requires Inside(text, tok) && HasPath(root, cur) && Shows(text, tok, stmts)
    ensures ParseLoop(text, vt, tok, root, cur) == TreeOf(Run(vt, root, cur, stmts))
    decreases |text| - tok.ptr, if tok.kind == Newline && tok.len == 0 then 1 else 0, |stmts|
  {
    hide Next, ParseKeyval, ParseSelect, Put, PairEnd, HeadEnd, OpenPath, HasPath, With, At;
    if tok.eof {
    } else if tok.kind == Newline {
      var t := Next(text, tok, true).value;
      if !t.eof {
        ShownIsRun(text, vt, t, root, cur, stmts);
      }
    } else {
      match stmts[0]
      case Item(pair) =>
        var t := PairEnd(text, tok, pair.keys, pair.val).value;
        PairKeys(text, tok, pair.keys, pair.val);
        PairIsPut(text, vt, tok, pair.keys, pair.val, At(root, cur));
        var put := Put(vt, At(root, cur), pair.keys, pair.val);
        if put.Ok? {
          KeepPath(root, cur, put.value);
          ShownIsRun(text, vt, Next(text, t, true).value, With(root, cur, put.value), cur, stmts[1..]);
        }
      case Head(keys, double) =>
        HeadKind(text, tok, keys, double);
        HeadIsOpened(text, tok, keys, double, root);
        var o := OpenPath(root, keys, double);
        if o.Ok? {
          ShownIsRun(text, vt, HeadEnd(text, tok, keys, double).value, o.value.0, o.value.1, stmts[1..]);
        }
    }
  }

  lemma HeadKind(text: CString, tok: Token, keys: seq<string>, double: bool)
    requires Inside(text, tok) && HeadEnd(text, tok, keys, double).Some?
    ensures tok.kind == LBracket
  {
  }

  // ----- a text that is accepted shows statements ---------------------------------------------

  lemma {:induction false} PairIsShown(text: CString, vt: string -> char, tok: Token, tab: Tab)
    returns (keys: seq<string>, val: Val)
    requires Inside(text, tok) && ParseKeyval(text, vt, tok, tab).Ok?
    ensures PairEnd(text, tok, keys, val) == Some(ParseKeyval(text, vt, tok, tab).value.0)
    decreases |text| - tok.ptr, 2
  {
    hide Next, NormalizeKey, SubTable, CreateKeyval, CreateKeytable, CreateKeyarray, ParseArray, ParseTable;
    hide ElemsEnd, PairsEnd;
    var t1 := Next(text, tok, true).value;
    var key := NormalizeKey(text, tok).value;
    if t1.kind == Dot {
      var (tab1, j) := SubTable(tab, key).value;
      var t2 := Next(text, t1, true).value;
      var more, v := PairIsShown(text, vt, t2, tab1.tabs[j]);
      PairKeys(text, t2, more, v);
      keys, val := [key] + more, v;
      assert keys[1..] == more;
    } else {
      keys := [key];
      var t2 := Next(text, t1, false).value;
      match t2.kind
      case Str => val := Plain(text[t2.ptr..t2.End()]);
      case LBracket =>
        var elems := ArrayIsShown(text, vt, t2, NewArr(key, NoKind));
        val := List(elems);
      case LBrace =>
        var (tab1, j) := CreateKeytable(tab, key).value;
        var pairs := TableIsShown(text, vt, t2, tab1.tabs[j]);
        val := Inline(pairs);
      case _ =>
    }
  }

  lemma {:induction false} TableIsShown(text: CString, vt: string -> char, tok: Token, tab: Tab)
    returns (pairs: seq<Pair>)
    requires Inside(text, tok) && ParseTable(text, vt, tok, tab).Ok?
    ensures forall dot :: ValEnd(text, tok, Inline(pairs), dot) == Some(ParseTable(text, vt, tok, tab).value.0)
    decreases |text| - tok.ptr, 0
  {
    hide Next, ParseTableLoop, PairsEnd;
    pairs := PairsAreShown(text, vt, Next(text, tok, true).value, tab);
  }

  lemma {:induction false} PairsAreShown(text: CString, vt: string -> char, tok: Token, tab: Tab)
    returns (pairs: seq<Pair>)
    requires Inside(text, tok) && ParseTableLoop(text, vt, tok, tab).Ok?
    ensures PairsEnd(text, tok, pairs) == Some(ParseTableLoop(text, vt, tok, tab).value.0)
    decreases |text| - tok.ptr, 3
  {
    hide Next, ParseKeyval, PairEnd;
    pairs := [];
    if tok.kind != RBrace {
      var (t1, tab1) := ParseKeyval(text, vt, tok, tab).value;
      var keys, val := PairIsShown(text, vt, tok, tab);
      if t1.kind == Comma {
        pairs := PairsAreShown(text, vt, Next(text, t1, true).value, tab1);
      }
      assert ([Pair(keys, val)] + pairs)[1..] == pairs;
      pairs := [Pair(keys, val)] + pairs;
    }
  }

  lemma {:induction false} ArrayIsShown(text: CString, vt: string -> char, tok: Token, arr: Arr)
    returns (elems: seq<Val>)
    requires Inside(text, tok) && ParseArray(text, vt, tok, arr).Ok?
    ensures forall dot :: ValEnd(text, tok, List(elems), dot) == Some(ParseArray(text, vt, tok, arr).value.0)
    decreases |text| - tok.ptr, 0
  {
    hide Next, ParseArrayLoop, ElemsEnd;
    elems := ElemsAreShown(text, vt, Next(text, tok, false).value, arr);
  }

  lemma {:induction false} ElemsAreShown(text: CString, vt: string -> char, tok: Token, arr: Arr)
    returns (elems: seq<Val>)
    requires Inside(text, tok) && ParseArrayLoop(text, vt, tok, arr).Ok?
    ensures ElemsEnd(text, tok, elems) == Some(ParseArrayLoop(text, vt, tok, arr).value.0)
    decreases |text| - tok.ptr, 5
  {
    hide Next, SkipNewlines, ParseElement, ValEnd;
    elems := [];
    var t := SkipNewlines(text, tok, false).value;
    if t.kind != RBracket {
      var (t1, arr1) := ParseElement(text, vt, t, arr).value;
      var v := ElemIsShown(text, vt, t, arr);
      var t2 := SkipNewlines(text, t1, false).value;
      if t2.kind == Comma {
        elems := ElemsAreShown(text, vt, Next(text, t2, false).value, arr1);
      }
      assert ([v] + elems)[1..] == elems;
      elems := [v] + elems;
    }
  }

  lemma {:induction false} ElemIsShown(text: CString, vt: string -> char, tok: Token, arr: Arr) returns (v: Val)
    requires Inside(text, tok) && ParseElement(text, vt, tok, arr).Ok?
    ensures ValEnd(text, tok, v, false) == Some(ParseElement(text, vt, tok, arr).value.0)
    decreases |text| - tok.ptr, 4
  {
    hide Next, ParseArray, ParseTable, PushVal, KindFor, ElemsEnd, PairsEnd;
    match tok.kind
    case Str => v := Plain(text[tok.ptr..tok.End()]);
    case LBracket =>
      var elems := ArrayIsShown(text, vt, tok, NewArr("", NoKind));
      v := List(elems);
    case LBrace =>
      var pairs := TableIsShown(text, vt, tok, NewTab("", false));
      v := Inline(pairs);
    case _ =>
  }

  lemma {:induction false} KeysAreShown(text: CString, tok: Token, done: seq<string>)
    requires Inside(text, tok) && FillPath(text, tok, done).Ok?
    ensures var (t, keys) := FillPath(text, tok, done).value;
            |done| < |keys| <= 10 && keys[..|done|] == done && KeysEnd(text, tok, keys[|done|..]) == Some(t)
    decreases |text| - tok.ptr
  {
    hide Next, NormalizeKey;
    var key := NormalizeKey(text, tok).value;
    var t := Next(text, tok, true).value;
    var keys := FillPath(text, tok, done).value.1;
    if t.kind == Dot {
      var more := done + [key];
      KeysAreShown(text, Next(text, t, true).value, more);
      assert keys[..|done|] == keys[..|more|][..|done|] == done;
      assert keys[|done|] == keys[..|more|][|done|] == key;
      assert keys[|done|..][1..] == keys[|more|..];
    } else {
      assert keys[|done|..] == [key];
    }
  }

  lemma HeadIsShown(text: CString, tok: Token, root: Tab) returns (keys: seq<string>)
    requires Inside(text, tok) && ParseSelect(text, tok, root).Ok?
    ensures HeadEnd(text, tok, keys, CharBehind(text, tok, '[')) == Some(ParseSelect(text, tok, root).value.0)
  {
    hide Next, FillPath, OpenPath, KeysEnd, HasPath;
    var double := CharBehind(text, tok, '[');
    var t := HeaderStart(text, tok).value;
    keys := FillPath(text, t, []).value.1;
    KeysAreShown(text, t, []);
    assert keys[0..] == keys;
    assert Brackets(text, tok, LBracket, double) == Some(t);
    var t1 := FillPath(text, t, []).value.0;
    assert Brackets(text, t1, RBracket, double) == Some(CloseHeader(text, t1, double).value);
  }

  lemma {:induction false} LoopIsShown(text: CString, vt: string -> char, tok: Token, root: Tab, cur: seq<Step>)
    returns (stmts: seq<Stmt>)
    requires Inside(text, tok) && HasPath(root, cur) && ParseLoop(text, vt, tok, root, cur).Ok?
    ensures Shows(text, tok, stmts)
    decreases |text| - tok.ptr, if tok.kind == Newline && tok.len == 0 then 1 else 0
  {
    hide Next, ParseKeyval, ParseSelect, PairEnd, HeadEnd, HasPath, With, At;
    stmts := [];
    if !tok.eof {
      match tok.kind
      case Newline =>
        var t := Next(text, tok, true).value;
        if !t.eof {
          stmts := LoopIsShown(text, vt, t, root, cur);
        }
      case Str =>
        var (t, tab) := ParseKeyval(text, vt, tok, At(root, cur)).value;
        var keys, val := PairIsShown(text, vt, tok, At(root, cur));
        KeepPath(root, cur, tab);
        var rest := LoopIsShown(text, vt, Next(text, t, true).value, With(root, cur, tab), cur);
        stmts := [Item(Pair(keys, val))] + rest;
        assert stmts[1..] == rest;
      case LBracket =>
        var (t, root1, cur1) := ParseSelect(text, tok, root).value;
        var keys := HeadIsShown(text, tok, root);
        var rest := LoopIsShown(text, vt, t, root1, cur1);
        stmts := [Head(keys, CharBehind(text, tok, '['))] + rest;
        assert stmts[1..] == rest;
      case _ =>
    }
  }

  /** The whole text is these statements. */
  predicate IsText(text: CString, stmts: seq<Stmt>) {
    StartsAtRoot(text);
    Shows(text, START, stmts)
  }

  /** The tree that statements make of the empty root. */
  function Made(vt: string -> char, stmts: seq<Stmt>): Parsed<Tab> {
    TreeOf(Run(vt, ROOT, [], stmts))
  }

  lemma TextIsMade(text: CString, vt: string -> char, stmts: seq<Stmt>)
    requires IsText(text, stmts)
    ensures TomlParse(text, vt) == Made(vt, stmts)
  {
    hide ParseLoop, TomlParse, HasPath, Inside, Shows, Run;
    StartsAtRoot(text);
    ParseIsLoop(text, vt);
    ShownIsRun(text, vt, START, ROOT, [], stmts);
  }

  lemma TextIsShown(text: CString, vt: string -> char) returns (stmts: seq<Stmt>)
    requires TomlParse(text, vt).Ok?
    ensures IsText(text, stmts)
  {
    hide ParseLoop, TomlParse, HasPath, Inside, Shows;
    StartsAtRoot(text);
    ParseIsLoop(text, vt);
    stmts := LoopIsShown(text, vt, START, ROOT, []);
  }

  /** toml_parse accepts a text if and only if it shows statements that can be carried out one after the other,
      and returns the tree that they make. */
  lemma ParseIsMade(text: CString, vt: string -> char)
    ensures forall stmts :: IsText(text, stmts) ==> TomlParse(text, vt) == Made(vt, stmts)
    ensures TomlParse(text, vt).Ok? ==> exists stmts :: IsText(text, stmts)
  {
    hide TomlParse, IsText, Made;
    forall stmts | IsText(text, stmts) ensures TomlParse(text, vt) == Made(vt, stmts) {
      TextIsMade(text, vt, stmts);
    }
    if TomlParse(text, vt).Ok? {
      var stmts := TextIsShown(text, vt);
    }
  }
}
