/** The context_t of sresar/toml.c: its current token, the tree under construction, the path that stands for
    `curtab`, and the keys of the header at hand.  Every method does what the functions of CTomlScan and
    CTomlParser say; an error return stands for the longjmp of the original. */
module CTomlParserObject {
  import opened Wrappers
  import opened CTomlScan
  import opened CTomlTree
  import opened CTomlParser
  import opened CTomlHeaders

  /** A new token, as the specification gives it. */
  predicate TokenAgrees(r: Parsed<()>, now: Token, spec: Parsed<Token>) {
    match spec
    case Ok(t) => r == Ok(()) && now == t
    case Err(e) => r == Err(e)
  }

  /** A result and the token behind it, as the specification gives them. */
  predicate Agrees<T(==)>(r: Parsed<T>, now: Token, spec: Parsed<(Token, T)>) {
    match spec
    case Ok((t, v)) => r == Ok(v) && now == t
    case Err(e) => r == Err(e)
  }

  lemma LiftTwice(root: Tab, path: seq<Step>, t1: Tab, step: Step, r: Parsed<(Tab, seq<Step>)>)
    requires HasPath(root, path) && t1.key == At(root, path).key && CanStep(t1, step)
    ensures HasPath(t1, [step])
    ensures var root1 := With(root, path, t1);
            HasPath(root1, path + [step]) && At(root1, path + [step]) == StepTo(t1, step) &&
            Lift(root1, path + [step], r) == Lift(root, path, Lift(t1, [step], r))
  {
    hide StepTo, StepWith, CanStep, HasPath, With, At;
    WithOne(t1, step, if r.Ok? then r.value.0 else root);
    WithStep(root, path, t1, step, if r.Ok? then r.value.0 else root);
    if r.Ok? {
      assert path + ([step] + r.value.1) == path + [step] + r.value.1;
    }
  }

  lemma WalkStart(t: Tab, keys: seq<string>)
    ensures HasPath(t, []) && At(t, []) == t && Lift(t, [], WalkPath(t, keys)) == WalkPath(t, keys)
    ensures keys[0..] == keys
  {
    var r := WalkPath(t, keys);
    if r.Ok? {
      assert [] + r.value.1 == r.value.1;
    }
  }

  lemma WalkEnd(t: Tab, path: seq<Step>)
    requires HasPath(t, path)
    ensures Lift(t, path, WalkPath(At(t, path), [])) == Ok((t, path))
  {
    WithSelf(t, path);
    assert path + [] == path;
  }

  lemma {:induction false} WithSelf(t: Tab, path: seq<Step>)
    requires HasPath(t, path)
    ensures With(t, path, At(t, path)) == t
    decreases |path|
  {
    if path != [] {
      WithSelf(StepTo(t, path[0]), path[1..]);
      StepWithSelf(t, path[0]);
    }
  }

  lemma StepWithSelf(t: Tab, step: Step)
    requires CanStep(t, step)
    ensures StepWith(t, step, StepTo(t, step)) == t
  {
    match step
    case InTab(key) =>
      var i := IndexOf(TabKeys(t.tabs), key);
      assert t.tabs[i := t.tabs[i]] == t.tabs;
    case InArr(key) =>
      var i := IndexOf(ArrKeys(t.arrs), key);
      var last := |t.arrs[i].tabs| - 1;
      assert t.arrs[i].tabs[last := t.arrs[i].tabs[last]] == t.arrs[i].tabs;
      assert t.arrs[i := t.arrs[i]] == t.arrs;
  }

  class Context {
    const text: CString
    const vt: string -> char
    var tok: Token
    var root: Tab
    var curtab: seq<Step>
    var tpath: seq<string>

    constructor (conf: CString, valtype: string -> char)
      ensures text == conf && vt == valtype && tok == START && root == ROOT && curtab == []
    {
      text, vt, tok, root, curtab, tpath := conf, valtype, START, ROOT, [], [];
    }

    predicate Ready()
      reads this
    {
      Inside(text, tok)
    }

    // ----- tokens -------------------------------------------------------------------------------

    method RetToken(kind: Kind, lineno: nat, ptr: nat, len: nat)
      modifies this`tok
      ensures tok == Token(kind, lineno, ptr, len, false)
    {
      tok := Token(kind, lineno, ptr, len, false);
    }

    /** The loop of scan_string over a triple-quoted basic string. */
    method ScanTriple(start: nat) returns (r: Scanned<nat>)
      requires start <= |text|
      ensures r == TripleLoop(text, start, false, 0, 0)
    {
      var p: nat, escape, hexreq: nat, qcnt: nat := start, false, 0, 0;
      while p < |text| && qcnt < 3
        invariant p <= |text|
        invariant TripleLoop(text, p, escape, hexreq, qcnt) == TripleLoop(text, start, false, 0, 0)
        decreases |text| - p
      {
        var c := text[p];
        if escape {
          escape := false;
          if IsSimpleEscape(c) {
          } else if c == 'u' {
            hexreq := 4;
          } else if c == 'U' {
            hexreq := 8;
          } else if Ch(text, SkipBlanks(text, p)) != '\n' {
            return Err(BadEscapeChar);
          }
        } else if hexreq > 0 {
          hexreq := hexreq - 1;
          if !IsUpperHex(c) {
            return Err(ExpectHexChar);
          }
        } else if c == '\\' {
          escape := true;
        } else {
          qcnt := if c == '\"' then qcnt + 1 else 0;
        }
        p := p + 1;
      }
      return if qcnt != 3 then Err(UnterminatedTripleQuote) else Ok(p);
    }

    /** The loop of scan_string over a basic string. */
    method ScanBasic(start: nat) returns (r: Scanned<nat>)
      requires start <= |text|
      ensures r == BasicLoop(text, start, false, 0)
    {
      var p: nat, escape, hexreq: nat := start, false, 0;
      while p < |text|
        invariant p <= |text|
        invariant BasicLoop(text, p, escape, hexreq) == BasicLoop(text, start, false, 0)
        decreases |text| - p
      {
        var c := text[p];
        if escape {
          escape := false;
          if IsSimpleEscape(c) {
          } else if c == 'u' {
            hexreq := 4;
          } else if c == 'U' {
            hexreq := 8;
          } else {
            return Err(BadEscapeChar);
          }
        } else if hexreq > 0 {
          hexreq := hexreq - 1;
          if !IsUpperHex(c) {
            return Err(ExpectHexChar);
          }
        } else if c == '\\' {
          escape := true;
        } else if c == '\n' || c == '\"' {
          return Ok(p);
        }
        p := p + 1;
      }
      return Ok(p);
    }

    /** The loops of scan_string over an unquoted timestamp, forward and back. */
    method ScanTimestamp(start: nat) returns (r: Scanned<nat>)
      requires start <= |text|
      ensures var q := TimestampLoop(text, start);
              r == if q == |text| then Err(Overrun) else Ok(SqueezeLoop(text, start, q))
    {
      var p: nat := start;
      while p < |text| && IsTimestampChar(text[p])
        invariant start <= p <= |text| && TimestampLoop(text, p) == TimestampLoop(text, start)
      {
        p := p + 1;
      }
      if p == |text| {
        return Err(Overrun);
      }
      while p > start && text[p - 1] == ' '
        invariant start <= p <= |text|
        invariant SqueezeLoop(text, start, p) == SqueezeLoop(text, start, TimestampLoop(text, start))
      {
        p := p - 1;
      }
      return Ok(p);
    }

    /** The literal loop of scan_string. */
    method ScanLiteral(start: nat, dot: bool) returns (p: nat)
      requires start <= |text|
      ensures p == LiteralLoop(text, start, dot)
    {
      p := start;
      while p < |text| && text[p] != '\n'
        invariant p <= |text| && LiteralLoop(text, p, dot) == LiteralLoop(text, start, dot)
      {
        if (text[p] == '.' && dot) || !IsLiteralChar(text[p]) {
          return;
        }
        p := p + 1;
      }
    }

    /** The loop of scan_string over a literal string. */
    method ScanSingle(start: nat) returns (p: nat)
      requires start <= |text|
      ensures p == SingleLoop(text, start)
    {
      p := start;
      while p < |text| && text[p] != '\n' && text[p] != '\''
        invariant p <= |text| && SingleLoop(text, p) == SingleLoop(text, start)
      {
        p := p + 1;
      }
    }

    /** scan_string, whose token is the string, timestamp or literal at `p`. */
    method ScanString(p: nat, lineno: nat, dot: bool) returns (r: Parsed<()>)
      requires p < |text|
      modifies this`tok
      ensures match ScanEnd(text, p, dot)
              case Ok(q) => r == Ok(()) && tok == Token(Str, lineno, p, q - p, false)
              case Err(e) => r == Err(Scan(e))
    {
      hide TripleLoop, BasicLoop, TimestampLoop, SqueezeLoop, LiteralLoop, SingleLoop, FindTriple, IsDate, IsTime;
      var q: Scanned<nat>;
      if Triple(text, p, '\'') {
        var end := FindTriple(text, p + 3);
        q := if end.None? then Err(UnterminatedTripleSQuote) else Ok(end.value + 3);
      } else if Triple(text, p, '\"') {
        q := ScanTriple(p + 3);
      } else if text[p] == '\'' {
        var end := ScanSingle(p + 1);
        q := if Ch(text, end) != '\'' then Err(UnterminatedSQuote) else Ok(end + 1);
      } else if text[p] == '\"' {
        q := ScanBasic(p + 1);
        if q.Ok? {
          q := if Ch(text, q.value) != '\"' then Err(UnterminatedQuote) else Ok(q.value + 1);
        }
      } else if IsDate(text, p) || IsTime(text, p) {
        q := ScanTimestamp(p);
      } else {
        var end := ScanLiteral(p, dot);
        q := Ok(end);
      }
      if q.Err? {
        return Err(Scan(q.error));
      }
      RetToken(Str, lineno, p, q.value - p);
      return Ok(());
    }

    /** The newlines of the current token, as next_token counts them. */
    method EatenLines() returns (lineno: nat)
      requires Ready()
      ensures lineno == tok.lineno + Newlines(text[tok.ptr..tok.End()])
    {
      var p: nat := tok.ptr;
      lineno := tok.lineno;
      while p < tok.End()
        invariant tok.ptr <= p <= tok.End()
        invariant lineno + Newlines(text[p..tok.End()]) == tok.lineno + Newlines(text[tok.ptr..tok.End()])
      {
        assert text[p..tok.End()][1..] == text[p + 1..tok.End()];
        if text[p] == '\n' {
          lineno := lineno + 1;
        }
        p := p + 1;
      }
    }

    /** The loop of next_token up to the first character of a token. */
    method PassGap(start: nat) returns (p: nat)
      requires start <= |text|
      ensures p == SkipGap(text, start)
    {
      p := start;
      while p < |text| && (text[p] == '#' || IsBlank(text[p]))
        invariant p <= |text| && SkipGap(text, p) == SkipGap(text, start)
      {
        if text[p] == '#' {
          ghost var hash := p;
          p := p + 1;
          while p < |text| && text[p] != '\n'
            invariant hash < p <= |text| && SkipComment(text, p) == SkipComment(text, hash + 1)
          {
            p := p + 1;
          }
        } else {
          p := p + 1;
        }
      }
    }

    /** next_token. */
    method NextTok(dot: bool) returns (r: Parsed<()>)
      requires Ready()
      modifies this`tok
      ensures TokenAgrees(r, tok, Next(text, old(tok), dot))
      ensures r.Ok? ==> Ready() && old(tok).End() <= tok.ptr
    {
      hide SkipGap, ScanEnd, Newlines;
      var lineno := EatenLines();
      var p := PassGap(tok.End());
      if p == |text| {
        tok := Token(Newline, lineno, |text|, 0, true);
        return Ok(());
      }
      if dot && text[p] == '.' {
        RetToken(Dot, lineno, p, 1);
        return Ok(());
      }
      match text[p] {
        case ',' => RetToken(Comma, lineno, p, 1);
        case '=' => RetToken(Equal, lineno, p, 1);
        case '{' => RetToken(LBrace, lineno, p, 1);
        case '}' => RetToken(RBrace, lineno, p, 1);
        case '[' => RetToken(LBracket, lineno, p, 1);
        case ']' => RetToken(RBracket, lineno, p, 1);
        case '\n' => RetToken(Newline, lineno, p, 1);
        case _ =>
          r := ScanString(p, lineno, dot);
          return;
      }
      return Ok(());
    }

    /** EAT_TOKEN. */
    method EatToken(kind: Kind, dot: bool) returns (r: Parsed<()>)
      requires Ready()
      modifies this`tok
      ensures TokenAgrees(r, tok, Eat(text, old(tok), kind, dot))
      ensures r.Ok? ==> Ready() && old(tok).End() <= tok.ptr && old(tok).kind == kind
    {
      if tok.kind != kind {
        return Err(Internal);
      }
      r := NextTok(dot);
    }

    /** skip_newlines. */
    method SkipLines(dot: bool) returns (r: Parsed<()>)
      requires Ready()
      modifies this`tok
      ensures TokenAgrees(r, tok, SkipNewlines(text, old(tok), dot))
      ensures r.Ok? ==> Ready() && old(tok).ptr <= tok.ptr
    {
      hide Next;
      while tok.kind == Newline
        invariant Ready() && old(tok).ptr <= tok.ptr
        invariant SkipNewlines(text, tok, dot) == SkipNewlines(text, old(tok), dot)
        decreases |text| - tok.ptr, if tok.kind == Newline && tok.len == 0 then 1 else 0
      {
        var _ :- NextTok(dot);
        if tok.eof {
          break;
        }
      }
      return Ok(());
    }

    // ----- keys and values ----------------------------------------------------------------------

    /** parse_keyval, at the key, into `tab`. */
    method KeyvalInto(tab: Tab) returns (r: Parsed<Tab>)
      requires Ready()
      modifies this`tok
      ensures Agrees(r, tok, ParseKeyval(text, vt, old(tok), tab))
      ensures r.Ok? ==> Ready() && old(tok).ptr < tok.ptr
      decreases |text| - tok.ptr, 2
    {
      hide Next, NormalizeKey, SubTable, CreateKeyval, CreateKeytable, CreateKeyarray, ParseArray, ParseTable;
      var name := tok;
      var _ :- EatToken(Str, true);
      if tok.kind == Dot {
        var key :- NormalizeKey(text, name);
        var made :- SubTable(tab, key);
        var (tab1, j) := made;
        var _ :- NextTok(true);
        var sub :- KeyvalInto(tab1.tabs[j]);
        return Ok(tab1.(tabs := tab1.tabs[j := sub]));
      }
      if tok.kind != Equal {
        return Err(Syntax);
      }
      var _ :- NextTok(false);
      match tok.kind {
        case Str =>
          var key :- NormalizeKey(text, name);
          var tab1 :- CreateKeyval(tab, key, text[tok.ptr..tok.End()]);
          var _ :- NextTok(true);
          return Ok(tab1);
        case LBracket =>
          var key :- NormalizeKey(text, name);
          var _ :- CreateKeyarray(tab, NewArr(key, NoKind));
          var arr :- ArrayInto(NewArr(key, NoKind));
          return Ok(tab.(arrs := tab.arrs + [arr]));
        case LBrace =>
          var key :- NormalizeKey(text, name);
          var made :- CreateKeytable(tab, key);
          var (tab1, j) := made;
          var sub :- TableInto(tab1.tabs[j]);
          return Ok(tab1.(tabs := tab1.tabs[j := sub]));
        case _ =>
          return Err(Syntax);
      }
    }

    /** parse_table, at the brace, into `tab`. */
    method TableInto(tab: Tab) returns (r: Parsed<Tab>)
      requires Ready()
      modifies this`tok
      ensures Agrees(r, tok, ParseTable(text, vt, old(tok), tab))
      ensures r.Ok? ==> Ready() && old(tok).ptr < tok.ptr
      decreases |text| - tok.ptr, 0
    {
      hide Next, ParseKeyval;
      var _ :- EatToken(LBrace, true);
      ghost var spec := ParseTableLoop(text, vt, tok, tab);
      var t := tab;
      while tok.kind != RBrace
        invariant Ready() && old(tok).ptr < tok.ptr && ParseTableLoop(text, vt, tok, t) == spec
        decreases |text| - tok.ptr
      {
        if tok.kind != Str {
          return Err(Syntax);
        }
        t :- KeyvalInto(t);
        if tok.kind != Comma {
          break;
        }
        var _ :- EatToken(Comma, true);
      }
      if tok.kind != RBrace {
        return Err(Syntax);
      }
      var _ :- EatToken(RBrace, true);
      return Ok(t);
    }

    /** parse_array, at the bracket, into `arr`. */
    method ArrayInto(arr: Arr) returns (r: Parsed<Arr>)
      requires Ready()
      modifies this`tok
      ensures Agrees(r, tok, ParseArray(text, vt, old(tok), arr))
      ensures r.Ok? ==> Ready() && old(tok).ptr < tok.ptr
      decreases |text| - tok.ptr, 0
    {
      hide Next, SkipNewlines, ParseElement;
      var _ :- EatToken(LBracket, false);
      ghost var spec := ParseArrayLoop(text, vt, tok, arr);
      var a := arr;
      while true
        invariant Ready() && old(tok).ptr < tok.ptr && ParseArrayLoop(text, vt, tok, a) == spec
        decreases |text| - tok.ptr
      {
        var _ :- SkipLines(false);
        if tok.kind == RBracket {
          break;
        }
        a :- ElementInto(a);
        var _ :- SkipLines(false);
        if tok.kind != Comma {
          break;
        }
        var _ :- EatToken(Comma, false);
      }
      if tok.kind != RBracket {
        return Err(Syntax);
      }
      var _ :- EatToken(RBracket, true);
      return Ok(a);
    }

    /** The switch of parse_array over the first token of an element. */
    method ElementInto(arr: Arr) returns (r: Parsed<Arr>)
      requires Ready()
      modifies this`tok
      ensures Agrees(r, tok, ParseElement(text, vt, old(tok), arr))
      ensures r.Ok? ==> Ready() && old(tok).ptr <= tok.ptr
      decreases |text| - tok.ptr, 4
    {
      hide Next, PushVal, KindFor, ParseArray, ParseTable;
      match tok.kind {
        case Str =>
          var a :- PushVal(vt, arr, text[tok.ptr..tok.End()]);
          var _ :- EatToken(Str, false);
          return Ok(a);
        case LBracket =>
          var a :- KindFor(arr, Arrays);
          var sub :- ArrayInto(NewArr("", NoKind));
          return Ok(a.(arrs := a.arrs + [sub]));
        case LBrace =>
          var a :- KindFor(arr, Tables);
          var sub :- TableInto(NewTab("", false));
          return Ok(a.(tabs := a.tabs + [sub]));
        case _ =>
          return Err(Syntax);
      }
    }

    // ----- headers ------------------------------------------------------------------------------

    /** fill_tabpath. */
    method FillTabpath() returns (r: Parsed<()>)
      requires Ready()
      modifies this`tok, this`tpath
      ensures match FillPath(text, old(tok), [])
              case Ok((t, keys)) => r == Ok(()) && tok == t && tpath == keys
              case Err(e) => r == Err(e)
    {
      hide Next, NormalizeKey;
      tpath := [];
      while true
        invariant Ready() && FillPath(text, tok, tpath) == FillPath(text, old(tok), [])
        decreases |text| - tok.ptr
      {
        if |tpath| >= 10 || tok.kind != Str {
          return Err(Syntax);
        }
        var key :- NormalizeKey(text, tok);
        tpath := tpath + [key];
        var _ :- NextTok(true);
        if tok.kind == RBracket {
          return Ok(());
        }
        if tok.kind != Dot {
          return Err(Syntax);
        }
        var _ :- NextTok(true);
      }
    }

    /** walk_tabpath: `curtab` moves from the root along the keys, and missing tables are made on the way. */
    method WalkTabpath() returns (r: Parsed<()>)
      modifies this`root, this`curtab
      ensures match WalkPath(old(root), tpath)
              case Ok((t, path)) => r == Ok(()) && root == t && curtab == path
              case Err(e) => r == Err(e)
    {
      hide WalkPath, With, At, HasPath, Enter, CanStep, StepTo;
      curtab := [];
      WalkStart(root, tpath);
      for i := 0 to |tpath|
        invariant HasPath(root, curtab)
        invariant Lift(root, curtab, WalkPath(At(root, curtab), tpath[i..])) == WalkPath(old(root), tpath)
      {
        ghost var here := At(root, curtab);
        WalkStep(here, tpath[i..]);
        assert tpath[i..][0] == tpath[i] && tpath[i..][1..] == tpath[i + 1..];
        var next :- Enter(At(root, curtab), tpath[i]);
        var (t1, step) := next;
        LiftTwice(root, curtab, t1, step, WalkPath(StepTo(t1, step), tpath[i + 1..]));
        root, curtab := With(root, curtab, t1), curtab + [step];
      }
      WalkEnd(root, curtab);
      assert tpath[|tpath|..] == [];
      return Ok(());
    }

    /** The tokens that end a header. */
    method EndHeader(double: bool) returns (r: Parsed<()>)
      requires Ready()
      modifies this`tok
      ensures TokenAgrees(r, tok, CloseHeader(text, old(tok), double))
      ensures r.Ok? ==> Ready() && old(tok).ptr <= tok.ptr
    {
      hide Next;
      if tok.kind != RBracket {
        return Err(Syntax);
      }
      if double {
        if !(tok.ptr + 1 < |text| && text[tok.ptr + 1] == ']') {
          return Err(Syntax);
        }
        var _ :- EatToken(RBracket, true);
      }
      var _ :- EatToken(RBracket, true);
      return if tok.kind != Newline then Err(Syntax) else Ok(());
    }

    /** parse_select, at the bracket. */
    method SelectTable() returns (r: Parsed<()>)
      requires Ready()
      modifies this`tok, this`root, this`curtab, this`tpath
      ensures match ParseSelect(text, old(tok), old(root))
              case Ok((t, tree, path)) => r == Ok(()) && tok == t && root == tree && curtab == path
              case Err(e) => r == Err(e)
      ensures r.Ok? ==> Ready() && old(tok).ptr < tok.ptr && HasPath(root, curtab)
    {
      hide Next, FillPath, WalkPath, OpenTable, CloseHeader, With, At, HasPath, CanStep;
      var double := IsDouble(text, tok);
      var _ :- EatToken(LBracket, true);
      if double {
        var _ :- EatToken(LBracket, true);
      }
      var _ :- FillTabpath();
      var z := tpath[|tpath| - 1];
      tpath := tpath[..|tpath| - 1];
      var _ :- WalkTabpath();
      var target :- OpenTable(At(root, curtab), z, double);
      var (here, step) := target;
      WithPath(root, curtab, here, step);
      var _ :- EndHeader(double);
      root, curtab := With(root, curtab, here), curtab + [step];
      return Ok(());
    }

    /** The loop of toml_parse. */
    method ParseStatements() returns (r: Parsed<Tab>)
      requires Ready() && HasPath(root, curtab)
      modifies this
      ensures r == ParseLoop(text, vt, old(tok), old(root), old(curtab))
    {
      hide Next, ParseKeyval, ParseSelect, With, At, HasPath;
      while !tok.eof
        invariant Ready() && HasPath(root, curtab)
        invariant ParseLoop(text, vt, tok, root, curtab) == ParseLoop(text, vt, old(tok), old(root), old(curtab))
        decreases |text| - tok.ptr, if tok.kind == Newline && tok.len == 0 && !tok.eof then 1 else 0
      {
        match tok.kind {
          case Newline =>
            var _ :- NextTok(true);
          case Str =>
            var tab :- KeyvalInto(At(root, curtab));
            KeepPath(root, curtab, tab);
            root := With(root, curtab, tab);
            if tok.kind != Newline {
              return Err(Syntax);
            }
            var _ :- EatToken(Newline, true);
          case LBracket =>
            var _ :- SelectTable();
          case _ =>
            return Err(Syntax);
        }
      }
      return Ok(root);
    }

    /** toml_parse, from the artificial newline on. */
    method Parse() returns (r: Parsed<Tab>)
      requires tok == START && root == ROOT && curtab == []
      modifies this
      ensures r == TomlParse(text, vt)
    {
      hide ParseLoop, TomlParse, HasPath, Inside;
      StartsAtRoot(text);
      ParseIsLoop(text, vt);
      r := ParseStatements();
    }
  }
}
