/** The recursive-descent parser of sresar/toml.c, as functions from tokens and tables to tokens and tables.

    That these functions are accepted at all is the proof that toml_parse ends on every text: the
    position of the current token bounds every loop and recursion.
    `vt` classifies the raw text of an array element (valtype); nothing depends on how it does so. */
module CTomlParser {
  import opened Wrappers
  import opened CTomlScan
  import opened CTomlNorm
  import opened CTomlTree

  datatype ParseError =
    | Scan(e: ScanError)
    | BadString
    | BadKey
    | KeyExists
    | Syntax
    | Internal

  type Parsed<T> = Result<T, ParseError>

  /** A token as next_token makes it: inside the text, and punctuation is one character. */
  predicate Inside(text: CString, tok: Token) {
    tok.End() <= |text| && (tok.kind != Str && tok.kind != Newline ==> tok.len == 1)
  }

  /** next_token, whose errors end the parse. */
  function Next(text: CString, tok: Token, dot: bool): (r: Parsed<Token>)
    requires Inside(text, tok)
    ensures r.Ok? ==> Inside(text, r.value) && tok.End() <= r.value.ptr
    ensures r.Ok? && r.value.kind == Newline && !r.value.eof ==> r.value.len == 1
  {
    match NextToken(text, tok, dot)
    case Err(e) => Err(Scan(e))
    case Ok(t) => Ok(t)
  }

  /** EAT_TOKEN. */
  function Eat(text: CString, tok: Token, kind: Kind, dot: bool): (r: Parsed<Token>)
    requires Inside(text, tok)
    ensures r.Ok? ==> Inside(text, r.value) && tok.End() <= r.value.ptr && tok.kind == kind
    ensures r.Ok? && r.value.kind == Newline && !r.value.eof ==> r.value.len == 1
  {
    if tok.kind != kind then Err(Internal) else Next(text, tok, dot)
  }

  // ----- keys -----------------------------------------------------------------------------

  /** A C string ends at its first NUL. */
  function UpToNul(s: string): (r: string)
    ensures r <= s && '\0' !in r
  {
    if s == "" || s[0] == '\0' then "" else [s[0]] + UpToNul(s[1..])
  }

  predicate IsBareKeyChar(c: char) {
    'A' <= c <= 'Z' || 'a' <= c <= 'z' || IsDigit(c) || c == '_' || c == '-'
  }

  /** normalize_key. */
  function NormalizeKey(text: CString, tok: Token): Parsed<string>
    requires Inside(text, tok)
  {
    var s := text[tok.ptr..tok.End()];
    if s != "" && (s[0] == '\'' || s[0] == '\"') then
      var multiline := |s| >= 6 && s[1] == s[0] && s[2] == s[0];
      var body := if multiline then s[3..|s| - 3] else if |s| >= 2 then s[1..|s| - 1] else "";
      var key := if s[0] == '\'' then Some(body) else Norm(body, multiline);
      if key.None? then Err(BadString)
      else if '\n' in UpToNul(key.value) then Err(BadKey)
      else Ok(UpToNul(key.value))
    else if forall i :: 0 <= i < |s| ==> IsBareKeyChar(s[i]) then Ok(s)
    else Err(BadKey)
  }

  // ----- creating entries ---------------------------------------------------------------------

  /** create_keyval_in_table. */
  function CreateKeyval(t: Tab, key: string, val: string): Parsed<Tab> {
    if CheckKey(t, key) == NotFound then Ok(t.(kvals := t.kvals + [KeyVal(key, val)])) else Err(KeyExists)
  }

  /** create_keytable_in_table: the table and the index of the new or no longer implicit sub-table. */
  function CreateKeytable(t: Tab, key: string): (r: Parsed<(Tab, nat)>)
    ensures r.Ok? ==> r.value.1 < |r.value.0.tabs| && r.value.0.tabs[r.value.1].key == key && r.value.0.key == t.key
  {
    match CheckKey(t, key)
    case NotFound => Ok((t.(tabs := t.tabs + [NewTab(key, false)]), |t.tabs|))
    case ATab(i) =>
      if t.tabs[i].implicit then Ok((t.(tabs := t.tabs[i := t.tabs[i].(implicit := false)]), i)) else Err(KeyExists)
    case _ => Err(KeyExists)
  }

  /** create_keyarray_in_table of the array that is read from here on. */
  function CreateKeyarray(t: Tab, a: Arr): Parsed<Tab> {
    if CheckKey(t, a.key) == NotFound then Ok(t.(arrs := t.arrs + [a])) else Err(KeyExists)
  }

  // ----- values -------------------------------------------------------------------------------

  /** skip_newlines. */
  function SkipNewlines(text: CString, tok: Token, dot: bool): (r: Parsed<Token>)
    requires Inside(text, tok)
    ensures r.Ok? ==> Inside(text, r.value) && tok.ptr <= r.value.ptr
    decreases |text| - tok.ptr, if tok.kind == Newline && tok.len == 0 then 1 else 0
  {
    if tok.kind != Newline then Ok(tok)
    else
      var t :- Next(text, tok, dot);
      if t.eof || t.kind != Newline then Ok(t) else SkipNewlines(text, t, dot)
  }

  /** `key.` in front of more of a dotted key: the sub-table of that name, made if there is none. */
  function SubTable(tab: Tab, key: string): (r: Parsed<(Tab, nat)>)
    ensures r.Ok? ==> r.value.1 < |r.value.0.tabs| && r.value.0.key == tab.key
  {
    var i := IndexOf(TabKeys(tab.tabs), key);
    if i < |tab.tabs| then Ok((tab, i)) else CreateKeytable(tab, key)
  }

  /** parse_keyval into `tab`, at the key. */
  function ParseKeyval(text: CString, vt: string -> char, tok: Token, tab: Tab): (r: Parsed<(Token, Tab)>)
    requires Inside(text, tok)
    ensures r.Ok? ==> Inside(text, r.value.0) && tok.ptr < r.value.0.ptr && tok.kind == Str && r.value.1.key == tab.key
    decreases |text| - tok.ptr, 2
  {
    var t1 :- Eat(text, tok, Str, true);
    if t1.kind == Dot then
      var key :- NormalizeKey(text, tok);
      var (tab1, j) :- SubTable(tab, key);
      var t2 :- Next(text, t1, true);
      var (t3, sub) :- ParseKeyval(text, vt, t2, tab1.tabs[j]);
      Ok((t3, tab1.(tabs := tab1.tabs[j := sub])))
    else if t1.kind != Equal then Err(Syntax)
    else
      var t2 :- Next(text, t1, false);
      match t2.kind
      case Str =>
        var key :- NormalizeKey(text, tok);
        var tab1 :- CreateKeyval(tab, key, text[t2.ptr..t2.End()]);
        var t3 :- Next(text, t2, true);
        Ok((t3, tab1))
      case LBracket =>
        var key :- NormalizeKey(text, tok);
        var _ :- CreateKeyarray(tab, NewArr(key, NoKind));
        var (t3, a) :- ParseArray(text, vt, t2, NewArr(key, NoKind));
        Ok((t3, tab.(arrs := tab.arrs + [a])))
      case LBrace =>
        var key :- NormalizeKey(text, tok);
        var (tab1, j) :- CreateKeytable(tab, key);
        var (t3, sub) :- ParseTable(text, vt, t2, tab1.tabs[j]);
        Ok((t3, tab1.(tabs := tab1.tabs[j := sub])))
      case _ => Err(Syntax)
  }

  /** parse_table: an inline table, at its brace. */
  function ParseTable(text: CString, vt: string -> char, tok: Token, tab: Tab): (r: Parsed<(Token, Tab)>)
    requires Inside(text, tok)
    ensures r.Ok? ==> Inside(text, r.value.0) && tok.ptr < r.value.0.ptr && r.value.1.key == tab.key
    decreases |text| - tok.ptr, 0
  {
    var t1 :- Eat(text, tok, LBrace, true);
    ParseTableLoop(text, vt, t1, tab)
  }

  function ParseTableLoop(text: CString, vt: string -> char, tok: Token, tab: Tab): (r: Parsed<(Token, Tab)>)
    requires Inside(text, tok)
    ensures r.Ok? ==> Inside(text, r.value.0) && tok.ptr <= r.value.0.ptr && r.value.1.key == tab.key
    decreases |text| - tok.ptr, 3
  {
    if tok.kind == RBrace then CloseTable(text, tok, tab)
    else if tok.kind != Str then Err(Syntax)
    else
      var (t1, tab1) :- ParseKeyval(text, vt, tok, tab);
      if t1.kind == Comma then
        var t2 :- Next(text, t1, true);
        ParseTableLoop(text, vt, t2, tab1)
      else CloseTable(text, t1, tab1)
  }

  function CloseTable(text: CString, tok: Token, tab: Tab): (r: Parsed<(Token, Tab)>)
    requires Inside(text, tok)
    ensures r.Ok? ==> Inside(text, r.value.0) && tok.ptr <= r.value.0.ptr && r.value.1 == tab
  {
    if tok.kind != RBrace then Err(Syntax)
    else
      var t :- Next(text, tok, true);
      Ok((t, tab))
  }

  /** parse_array, at its bracket. */
  function ParseArray(text: CString, vt: string -> char, tok: Token, arr: Arr): (r: Parsed<(Token, Arr)>)
    requires Inside(text, tok)
    ensures r.Ok? ==> Inside(text, r.value.0) && tok.ptr < r.value.0.ptr && r.value.1.key == arr.key
    decreases |text| - tok.ptr, 0
  {
    var t1 :- Eat(text, tok, LBracket, false);
    ParseArrayLoop(text, vt, t1, arr)
  }

  /** The kind check of an element; `NoKind` takes the kind of the first one. */
  function KindFor(arr: Arr, kind: ArrKind): Parsed<Arr> {
    if arr.kind == NoKind then Ok(arr.(kind := kind)) else if arr.kind == kind then Ok(arr) else Err(Syntax)
  }

  /** A string in a value array, with the check of its type. */
  function PushVal(vt: string -> char, arr: Arr, val: string): Parsed<Arr> {
    var a :- KindFor(arr, Values);
    if a.vals == [] then Ok(a.(vals := [val], valtype := vt(val)))
    else if a.valtype != vt(val) then Err(Syntax)
    else Ok(a.(vals := a.vals + [val]))
  }

  function ParseArrayLoop(text: CString, vt: string -> char, tok: Token, arr: Arr): (r: Parsed<(Token, Arr)>)
    requires Inside(text, tok)
    ensures r.Ok? ==> Inside(text, r.value.0) && tok.ptr <= r.value.0.ptr && r.value.1.key == arr.key
    decreases |text| - tok.ptr, 5
  {
    var t1 :- SkipNewlines(text, tok, false);
    if t1.kind == RBracket then CloseArray(text, t1, arr)
    else
      var (t2, arr1) :- ParseElement(text, vt, t1, arr);
      var t3 :- SkipNewlines(text, t2, false);
      if t3.kind == Comma then
        var t4 :- Next(text, t3, false);
        ParseArrayLoop(text, vt, t4, arr1)
      else CloseArray(text, t3, arr1)
  }

  /** One element of an array. */
  function ParseElement(text: CString, vt: string -> char, tok: Token, arr: Arr): (r: Parsed<(Token, Arr)>)
    requires Inside(text, tok)
    ensures r.Ok? ==> Inside(text, r.value.0) && tok.ptr <= r.value.0.ptr && r.value.1.key == arr.key
    decreases |text| - tok.ptr, 4
  {
    match tok.kind
    case Str =>
      var a :- PushVal(vt, arr, text[tok.ptr..tok.End()]);
      var t :- Next(text, tok, false);
      Ok((t, a))
    case LBracket =>
      var a :- KindFor(arr, Arrays);
      var (t, sub) :- ParseArray(text, vt, tok, NewArr("", NoKind));
      Ok((t, a.(arrs := a.arrs + [sub])))
    case LBrace =>
      var a :- KindFor(arr, Tables);
      var (t, sub) :- ParseTable(text, vt, tok, NewTab("", false));
      Ok((t, a.(tabs := a.tabs + [sub])))
    case _ => Err(Syntax)
  }

  function CloseArray(text: CString, tok: Token, arr: Arr): (r: Parsed<(Token, Arr)>)
    requires Inside(text, tok)
    ensures r.Ok? ==> Inside(text, r.value.0) && tok.ptr <= r.value.0.ptr && r.value.1 == arr
  {
    if tok.kind != RBracket then Err(Syntax)
    else
      var t :- Next(text, tok, true);
      Ok((t, arr))
  }

  // ----- headers ------------------------------------------------------------------------------

  /** One step from a table to the table `curtab` points to next: a sub-table, or the last table of an array. */
  datatype Step = InTab(key: string) | InArr(key: string)

  predicate CanStep(t: Tab, step: Step) {
    match step
    case InTab(key) => IndexOf(TabKeys(t.tabs), key) < |t.tabs|
    case InArr(key) =>
      var i := IndexOf(ArrKeys(t.arrs), key);
      i < |t.arrs| && t.arrs[i].kind == Tables && t.arrs[i].tabs != []
  }

  function StepTo(t: Tab, step: Step): Tab
    requires CanStep(t, step)
  {
    match step
    case InTab(key) => t.tabs[IndexOf(TabKeys(t.tabs), key)]
    case InArr(key) => var a := t.arrs[IndexOf(ArrKeys(t.arrs), key)]; a.tabs[|a.tabs| - 1]
  }

  function StepWith(t: Tab, step: Step, u: Tab): Tab
    requires CanStep(t, step)
  {
    match step
    case InTab(key) => t.(tabs := t.tabs[IndexOf(TabKeys(t.tabs), key) := u])
    case InArr(key) =>
      var i := IndexOf(ArrKeys(t.arrs), key);
      var a := t.arrs[i];
      t.(arrs := t.arrs[i := a.(tabs := a.tabs[|a.tabs| - 1 := u])])
  }

  predicate HasPath(t: Tab, path: seq<Step>)
    decreases |path|
  {
    path == [] || (CanStep(t, path[0]) && HasPath(StepTo(t, path[0]), path[1..]))
  }

  function At(t: Tab, path: seq<Step>): Tab
    requires HasPath(t, path)
    decreases |path|
  {
    if path == [] then t else At(StepTo(t, path[0]), path[1..])
  }

  /** The tree after the table at `path` has become `u`. */
  function With(t: Tab, path: seq<Step>, u: Tab): Tab
    requires HasPath(t, path)
    decreases |path|
  {
    if path == [] then u else StepWith(t, path[0], With(StepTo(t, path[0]), path[1..], u))
  }

  /** fill_tabpath: the keys up to the closing bracket, ten at most. */
  function FillPath(text: CString, tok: Token, keys: seq<string>): (r: Parsed<(Token, seq<string>)>)
    requires Inside(text, tok)
    ensures r.Ok? ==> Inside(text, r.value.0) && tok.ptr <= r.value.0.ptr && r.value.0.kind == RBracket &&
                      |keys| < |r.value.1| <= 10
    decreases |text| - tok.ptr
  {
    if |keys| >= 10 then Err(Syntax)
    else if tok.kind != Str then Err(Syntax)
    else
      var key :- NormalizeKey(text, tok);
      var t1 :- Next(text, tok, true);
      if t1.kind == RBracket then Ok((t1, keys + [key]))
      else if t1.kind != Dot then Err(Syntax)
      else
        var t2 :- Next(text, t1, true);
        FillPath(text, t2, keys + [key])
  }

  /** walk_tabpath from `t`: the table with the implicit tables it needed, and the steps taken. */
  function WalkPath(t: Tab, keys: seq<string>): (r: Parsed<(Tab, seq<Step>)>)
    ensures r.Ok? ==> HasPath(r.value.0, r.value.1) && r.value.0.key == t.key
    decreases |keys|
  {
    if keys == [] then Ok((t, []))
    else
      hide HasPath, AllKeys, CheckKey, IndexOf;
      match CheckKey(t, keys[0])
      case ATab(i) => IntoTab(t, i, WalkPath(t.tabs[i], keys[1..]))
      case AnArr(i) =>
        var a := t.arrs[i];
        if a.kind != Tables || a.tabs == [] then Err(Internal)
        else IntoArr(t, i, WalkPath(a.tabs[|a.tabs| - 1], keys[1..]))
      case AVal(_) => Err(KeyExists)
      case NotFound => IntoNewTab(t, WalkPath(NewTab(keys[0], true), keys[1..]), keys[0])
  }

  /** The walk has gone on in sub-table `i`. */
  function IntoTab(t: Tab, i: nat, r: Parsed<(Tab, seq<Step>)>): (r': Parsed<(Tab, seq<Step>)>)
    requires i < |t.tabs| && IndexOf(TabKeys(t.tabs), t.tabs[i].key) == i
    requires r.Ok? ==> HasPath(r.value.0, r.value.1) && r.value.0.key == t.tabs[i].key
    ensures r'.Ok? ==> HasPath(r'.value.0, r'.value.1) && r'.value.0.key == t.key
  {
    hide HasPath;
    var (sub, path) :- r;
    EnterTab(t, i, sub, path);
    Ok((t.(tabs := t.tabs[i := sub]), [InTab(sub.key)] + path))
  }

  /** The walk has gone on in the last table of array `i`. */
  function IntoArr(t: Tab, i: nat, r: Parsed<(Tab, seq<Step>)>): (r': Parsed<(Tab, seq<Step>)>)
    requires i < |t.arrs| && IndexOf(ArrKeys(t.arrs), t.arrs[i].key) == i
    requires t.arrs[i].kind == Tables && t.arrs[i].tabs != []
    requires r.Ok? ==> HasPath(r.value.0, r.value.1)
    ensures r'.Ok? ==> HasPath(r'.value.0, r'.value.1) && r'.value.0.key == t.key
  {
    hide HasPath;
    var (sub, path) :- r;
    EnterArr(t, i, sub, path);
    var a := t.arrs[i];
    Ok((t.(arrs := t.arrs[i := a.(tabs := a.tabs[|a.tabs| - 1 := sub])]), [InArr(a.key)] + path))
  }

  /** The walk has gone on in a new table. */
  function IntoNewTab(t: Tab, r: Parsed<(Tab, seq<Step>)>, key: string): (r': Parsed<(Tab, seq<Step>)>)
    requires key !in AllKeys(t)
    requires r.Ok? ==> HasPath(r.value.0, r.value.1) && r.value.0.key == key
    ensures r'.Ok? ==> HasPath(r'.value.0, r'.value.1) && r'.value.0.key == t.key
  {
    hide HasPath;
    var (sub, path) :- r;
    EnterNewTab(t, sub, path);
    Ok((t.(tabs := t.tabs + [sub]), [InTab(key)] + path))
  }

  lemma {:induction false} IndexOfFirst(ks: seq<string>, i: nat)
    requires i < |ks| && forall j :: 0 <= j < i ==> ks[j] != ks[i]
    ensures IndexOf(ks, ks[i]) == i
  {
  }

  lemma EnterTab(t: Tab, i: nat, sub: Tab, path: seq<Step>)
    requires i < |t.tabs| && IndexOf(TabKeys(t.tabs), t.tabs[i].key) == i
    requires sub.key == t.tabs[i].key && HasPath(sub, path)
    ensures HasPath(t.(tabs := t.tabs[i := sub]), [InTab(sub.key)] + path)
  {
    var t' := t.(tabs := t.tabs[i := sub]);
    assert TabKeys(t'.tabs) == TabKeys(t.tabs);
    assert ([InTab(sub.key)] + path)[1..] == path;
  }

  lemma EnterArr(t: Tab, i: nat, sub: Tab, path: seq<Step>)
    requires i < |t.arrs| && IndexOf(ArrKeys(t.arrs), t.arrs[i].key) == i
    requires t.arrs[i].kind == Tables && t.arrs[i].tabs != [] && HasPath(sub, path)
    ensures var a := t.arrs[i];
            HasPath(t.(arrs := t.arrs[i := a.(tabs := a.tabs[|a.tabs| - 1 := sub])]), [InArr(a.key)] + path)
  {
    var a := t.arrs[i];
    var t' := t.(arrs := t.arrs[i := a.(tabs := a.tabs[|a.tabs| - 1 := sub])]);
    assert ArrKeys(t'.arrs) == ArrKeys(t.arrs);
    assert ([InArr(a.key)] + path)[1..] == path;
  }

  lemma EnterNewTab(t: Tab, sub: Tab, path: seq<Step>)
    requires sub.key !in AllKeys(t) && HasPath(sub, path)
    ensures HasPath(t.(tabs := t.tabs + [sub]), [InTab(sub.key)] + path)
  {
    var t' := t.(tabs := t.tabs + [sub]);
    var ks := TabKeys(t'.tabs);
    forall j | 0 <= j < |t.tabs| ensures ks[j] != sub.key {
      assert ks[j] == AllKeys(t)[|t.kvals| + |t.arrs| + j];
    }
    assert ks[|t.tabs|] == sub.key;
    IndexOfFirst(ks, |t.tabs|);
    assert ([InTab(sub.key)] + path)[1..] == path;
  }

  /** [[z]]: the array of tables under `key`, with one more table. */
  function PushTable(t: Tab, key: string): (r: Parsed<Tab>)
    ensures r.Ok? ==> r.value.key == t.key && CanStep(r.value, InArr(key))
  {
    var i := IndexOf(ArrKeys(t.arrs), key);
    var t1 :- if i < |t.arrs| then Ok(t) else CreateKeyarray(t, NewArr(key, Tables));
    assert ArrKeys(t1.arrs) == if i < |t.arrs| then ArrKeys(t.arrs) else ArrKeys(t.arrs) + [key];
    IndexOfFirst(ArrKeys(t1.arrs), i);
    if t1.arrs[i].kind != Tables then Err(Syntax)
    else
      var a := t1.arrs[i].(tabs := t1.arrs[i].tabs + [NewTab("__anon__", false)]);
      assert ArrKeys(t1.arrs[i := a]) == ArrKeys(t1.arrs);
      Ok(t1.(arrs := t1.arrs[i := a]))
  }

  /** The table of a header, under its last key in `here`: changed, and one step further. */
  function OpenTable(here: Tab, key: string, double: bool): (r: Parsed<(Tab, Step)>)
    ensures r.Ok? ==> CanStep(r.value.0, r.value.1) && r.value.0.key == here.key
  {
    if double then
      var t :- PushTable(here, key);
      Ok((t, InArr(key)))
    else
      var (t, i) :- CreateKeytable(here, key);
      assert TabKeys(t.tabs)[i] == key;
      Ok((t, InTab(key)))
  }

  lemma {:induction false} WithPath(t: Tab, path: seq<Step>, u: Tab, step: Step)
    requires HasPath(t, path) && u.key == At(t, path).key && CanStep(u, step)
    ensures HasPath(With(t, path, u), path + [step])
    ensures With(t, path, u).key == t.key
    decreases |path|
  {
    if path == [] {
      assert path + [step] == [step] && [step][1..] == [];
    } else {
      var next := StepTo(t, path[0]);
      var w := With(next, path[1..], u);
      WithPath(next, path[1..], u, step);
      assert (path + [step])[0] == path[0] && (path + [step])[1..] == path[1..] + [step];
      StepWithKeys(t, path[0], w);
    }
  }

  lemma StepWithKeys(t: Tab, step: Step, u: Tab)
    requires CanStep(t, step) && u.key == StepTo(t, step).key
    ensures CanStep(StepWith(t, step, u), step) && StepTo(StepWith(t, step, u), step) == u
  {
    var t' := StepWith(t, step, u);
    assert TabKeys(t'.tabs) == TabKeys(t.tabs) && ArrKeys(t'.arrs) == ArrKeys(t.arrs);
  }

  /** The tokens after a header: its bracket (or two), and the end of the line. */
  function CloseHeader(text: CString, tok: Token, double: bool): (r: Parsed<Token>)
    requires Inside(text, tok)
    ensures r.Ok? ==> Inside(text, r.value) && tok.ptr <= r.value.ptr && r.value.kind == Newline
  {
    if tok.kind != RBracket then Err(Syntax)
    else if double && !(tok.ptr + 1 < |text| && text[tok.ptr + 1] == ']') then Err(Syntax)
    else
      var t1 :- if double then Eat(text, tok, RBracket, true) else Ok(tok);
      var t2 :- Eat(text, t1, RBracket, true);
      if t2.kind != Newline then Err(Syntax) else Ok(t2)
  }

  /** The first key of a header, behind its bracket or two. */
  function HeaderStart(text: CString, tok: Token): (r: Parsed<Token>)
    requires Inside(text, tok)
    ensures r.Ok? ==> Inside(text, r.value) && tok.ptr < r.value.ptr
  {
    var t1 :- Eat(text, tok, LBracket, true);
    if IsDouble(text, tok) then Eat(text, t1, LBracket, true) else Ok(t1)
  }

  /** A second bracket follows at once. */
  predicate IsDouble(text: CString, tok: Token) {
    tok.ptr + 1 < |text| && text[tok.ptr + 1] == '['
  }

  /** The tree after a header with these keys, and the path of curtab in it. */
  function OpenPath(root: Tab, keys: seq<string>, double: bool): (r: Parsed<(Tab, seq<Step>)>)
    requires keys != []
    ensures r.Ok? ==> HasPath(r.value.0, r.value.1)
  {
    hide HasPath, CanStep, WalkPath, OpenTable;
    var (root1, path) :- WalkPath(root, keys[..|keys| - 1]);
    var (here, step) :- OpenTable(At(root1, path), keys[|keys| - 1], double);
    WithPath(root1, path, here, step);
    Ok((With(root1, path, here), path + [step]))
  }

  /** parse_select, at the bracket: the root and the path of curtab after it. */
  function ParseSelect(text: CString, tok: Token, root: Tab): (r: Parsed<(Token, Tab, seq<Step>)>)
    requires Inside(text, tok)
    ensures r.Ok? ==> Inside(text, r.value.0) && tok.ptr < r.value.0.ptr && HasPath(r.value.1, r.value.2) &&
                      r.value.0.kind == Newline
  {
    hide HeaderStart, FillPath, OpenPath, CloseHeader, HasPath;
    var t2 :- HeaderStart(text, tok);
    var (t3, keys) :- FillPath(text, t2, []);
    var (root1, cur) :- OpenPath(root, keys, IsDouble(text, tok));
    var t4 :- CloseHeader(text, t3, IsDouble(text, tok));
    Ok((t4, root1, cur))
  }

  /** The keys of the header at `tok`, if it has any. */
  function HeaderKeys(text: CString, tok: Token): (r: Parsed<seq<string>>)
    requires Inside(text, tok)
    ensures r.Ok? ==> r.value != []
  {
    var t2 :- HeaderStart(text, tok);
    var (_, keys) :- FillPath(text, t2, []);
    Ok(keys)
  }

  /** The parts of a successful parse_select. */
  lemma HeaderParts(text: CString, tok: Token, root: Tab)
    requires Inside(text, tok) && ParseSelect(text, tok, root).Ok?
    ensures HeaderKeys(text, tok).Ok?
    ensures OpenPath(root, HeaderKeys(text, tok).value, IsDouble(text, tok))
         == Ok((ParseSelect(text, tok, root).value.1, ParseSelect(text, tok, root).value.2))
  {
    hide HeaderStart, FillPath, OpenPath, CloseHeader, HasPath;
  }

  // ----- the whole text -----------------------------------------------------------------------

  /** The loop of toml_parse. */
  function ParseLoop(text: CString, vt: string -> char, tok: Token, root: Tab, cur: seq<Step>): Parsed<Tab>
    requires Inside(text, tok) && HasPath(root, cur)
    decreases |text| - tok.ptr, if tok.kind == Newline && tok.len == 0 then 1 else 0
  {
    if tok.eof then Ok(root)
    else
      match tok.kind
      case Newline =>
        var t :- Next(text, tok, true);
        if t.eof then Ok(root) else ParseLoop(text, vt, t, root, cur)
      case Str =>
        var (t1, tab) :- ParseKeyval(text, vt, tok, At(root, cur));
        if t1.kind != Newline then Err(Syntax)
        else
          var t2 :- Eat(text, t1, Newline, true);
          KeepPath(root, cur, tab);
          ParseLoop(text, vt, t2, With(root, cur, tab), cur)
      case LBracket =>
        var (t1, root1, cur1) :- ParseSelect(text, tok, root);
        ParseLoop(text, vt, t1, root1, cur1)
      case _ => Err(Syntax)
  }

  lemma {:induction false} KeepPath(t: Tab, path: seq<Step>, u: Tab)
    requires HasPath(t, path) && u.key == At(t, path).key
    ensures HasPath(With(t, path, u), path) && At(With(t, path, u), path) == u
    ensures With(t, path, u).key == t.key
    decreases |path|
  {
    if path != [] {
      KeepPath(StepTo(t, path[0]), path[1..], u);
      StepWithKeys(t, path[0], With(StepTo(t, path[0]), path[1..], u));
    }
  }

  const ROOT := NewTab("", false)

  /** toml_parse. */
  function TomlParse(text: CString, vt: string -> char): Parsed<Tab> {
    ParseLoop(text, vt, START, ROOT, [])
  }

  lemma StartsAtRoot(text: CString)
    ensures Inside(text, START) && HasPath(ROOT, [])
  {
  }

  lemma ParseIsLoop(text: CString, vt: string -> char)
    ensures TomlParse(text, vt) == ParseLoop(text, vt, START, ROOT, [])
  {
    hide ParseLoop;
  }
}
