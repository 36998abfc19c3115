/** The statements that a text for ssar/cpptoml.h shows, and what they do to the tree: an independent account of the
    parser, in which a header or a dotted key opens tables inside tables and there is no pointer that moves. */
module CppTomlMeaning {
  import opened Wrappers
  import opened CppTomlText
  import opened CppTomlTree
  import opened CppTomlParser
  import opened CppTomlDocument

  /** [keys], [[keys]], or keys = v. */
  datatype Stmt = Head(keys: seq<string>, double: bool) | Item(keys: seq<string>, v: Value)

  // ----- what a text shows --------------------------------------------------------------------

  /** The text behind these keys, which dots join and `end` ends. */
  function KeysEnd(s: string, keys: seq<string>, end: char): (r: Option<string>)
    ensures r.Some? ==> keys != [] && (r.value == "" || r.value[0] == end) && |r.value| < |s|
    decreases |keys|
  {
    if keys == [] || s == "" || s[0] == end then None
    else
      match ParseSimpleKey(s)
      case Err(_) => None
      case Ok((key, rest)) =>
        var t := ConsumeWhitespace(rest);
        if key != keys[0] then None
        else if t == "" || t[0] == end then if |keys| == 1 then Some(t) else None
        else if t[0] == '.' && |keys| > 1 then KeysEnd(t[1..], keys[1..], end) else None
  }

  predicate HeadShown(s: string, keys: seq<string>, double: bool) {
    |s| > 1 && s[0] == '[' && (s[1] == '[') == double &&
    var end := KeysEnd(if double then s[2..] else s[1..], keys, ']');
    end.Some? && end.value != "" && (double ==> |end.value| > 1 && end.value[1] == ']') &&
    EolOrComment(ConsumeWhitespace(end.value[if double then 2 else 1..]))
  }

  /** The input behind the line or lines of this key and value. */
  function ItemEnd(st: St, keys: seq<string>, v: Value): (r: Option<Input>)
    ensures r.Some? ==> InputLeft(r.value) <= Left(st)
  {
    if st.s == "" || st.s[0] == '[' then None
    else
      match KeysEnd(st.s, keys, '=')
      case None => None
      case Some(rest) =>
        if rest == "" then None
        else
          match ParseValue(St(ConsumeWhitespace(rest[1..]), st.inp))
          case Err(_) => None
          case Ok((w, st1)) =>
            if w == v && EolOrComment(ConsumeWhitespace(st1.s)) then Some(st1.inp) else None
  }

  /** The text is these statements, with blank lines and comments between them. */
  predicate Shows(inp: Input, stmts: seq<Stmt>)
    decreases InputLeft(inp)
  {
    match GetLine(inp)
    case None => stmts == []
    case Some((line, rest)) =>
      GetLineShrinks(St("", inp));
      var s := ConsumeWhitespace(line);
      if EolOrComment(s) then Shows(rest, stmts)
      else
        stmts != [] &&
        match stmts[0]
        case Head(keys, double) => HeadShown(s, keys, double) && Shows(rest, stmts[1..])
        case Item(keys, v) =>
          ItemEnd(St(s, rest), keys, v).Some? && Shows(ItemEnd(St(s, rest), keys, v).value, stmts[1..])
  }

  // ----- what statements do -------------------------------------------------------------------

  /** The table under a key, or the last one of the table array there if that is allowed; a new one if there is
      nothing. */
  function Inner(t: Table, key: string, arrays: bool): Option<Table> {
    if !Contains(t, key) then Some(EMPTY_TABLE)
    else
      match Get(t, key)
      case Tab(sub) => Some(sub)
      case TabArr(ts) => if arrays && ts != [] then Some(ts[|ts| - 1]) else None
      case Leaf(_) => None
  }

  /** The same with that table changed. */
  function Refill(t: Table, key: string, u: Table): Table {
    Insert(t, key, if Contains(t, key) then NodeWith(Get(t, key), u) else Tab(u))
  }

  /** A value under a key of one or more parts, none of which may be a value or a table array. */
  function Put(t: Table, keys: seq<string>, v: Value): Option<Table>
    requires keys != []
    decreases |keys|
  {
    if |keys| == 1 then if Contains(t, keys[0]) then None else Some(Insert(t, keys[0], Leaf(v)))
    else
      match Inner(t, keys[0], false)
      case None => None
      case Some(sub) => Refilled(t, keys[0], Put(sub, keys[1..], v))
  }

  function Refilled(t: Table, key: string, u: Option<Table>): Option<Table> {
    match u
    case None => None
    case Some(sub) => Some(Refill(t, key, sub))
  }

  /** A table that a header may open again: it has something in it, but no values other than arrays. */
  predicate Reopens(t: Table) {
    t.entries != [] &&
    forall i :: 0 <= i < |t.entries| ==> (t.entries[i].node.Leaf? ==> t.entries[i].node.v.Arr?)
  }

  /** [keys]. */
  function OpenTable(t: Table, keys: seq<string>): Option<Table>
    requires keys != []
    decreases |keys|
  {
    if keys[0] == "" then None
    else
      match Inner(t, keys[0], true)
      case None => None
      case Some(sub) =>
        if |keys| > 1 then Refilled(t, keys[0], OpenTable(sub, keys[1..]))
        else if !Contains(t, keys[0]) then Some(Insert(t, keys[0], Tab(EMPTY_TABLE)))
        else if Reopens(sub) then Some(t) else None
  }

  /** [[keys]]. */
  function OpenElement(t: Table, keys: seq<string>): Option<Table>
    requires keys != []
    decreases |keys|
  {
    if keys[0] == "" then None
    else if |keys| > 1 then
      match Inner(t, keys[0], true)
      case None => None
      case Some(sub) => Refilled(t, keys[0], OpenElement(sub, keys[1..]))
    else if !Contains(t, keys[0]) then Some(Insert(t, keys[0], TabArr([EMPTY_TABLE])))
    else
      match Get(t, keys[0])
      case TabArr(ts) => Some(Insert(t, keys[0], TabArr(ts + [EMPTY_TABLE])))
      case _ => None
  }

  function Opened(t: Table, keys: seq<string>, double: bool): Option<Table>
    requires keys != []
  {
    if double then OpenElement(t, keys) else OpenTable(t, keys)
  }

  // ----- walking is opening -------------------------------------------------------------------

  /** The tree after the table at the end of a walk has become `u`. */
  function Final(w: Walk, u: Table): Table
    requires w.Valid()
  {
    With(w.root, w.cur, u)
  }

  /** One component on the way. */
  lemma PartStep(mode: Mode, w: Walk, part: string, u: Table)
    requires w.Valid()
    ensures var into := Inner(w.Here(), part, mode != ForItem);
            HandlePart(mode, w, part, false).Ok? <==> into.Some? && (mode != ForItem ==> part != "")
    ensures HandlePart(mode, w, part, false).Ok? ==>
              var w' := HandlePart(mode, w, part, false).value;
              w'.Here() == Inner(w.Here(), part, mode != ForItem).value && w'.cur == w.cur + [part] &&
              w'.inserted == (w.inserted || !Contains(w.Here(), part)) &&
              Final(w', u) == Final(w, Refill(w.Here(), part, u))
  {
    hide With, At, HasPath, Insert, Get, Contains;
    var here := w.Here();
    PathMore(w.root, w.cur, part);
    if Contains(here, part) {
      if Inner(here, part, true).Some? {
        OnePath(here, part);
        WithMore(w.root, w.cur, part, u);
      }
    } else {
      OneEntryPath(part, Tab(EMPTY_TABLE));
      InsertThenFill(w.root, w.cur, part, Tab(EMPTY_TABLE), u);
    }
  }

  /** A path of one key. */
  lemma OnePath(t: Table, key: string)
    requires Contains(t, key) && Inner(t, key, true).Some?
    ensures HasPath(t, [key]) && At(t, [key]) == Inner(t, key, true).value
  {
    assert [key][1..] == [];
  }

  /** The components in front of the last one. */
  function Walked(mode: Mode, w: Walk, keys: seq<string>): (r: Parsed<Walk>)
    requires w.Valid()
    ensures r.Ok? ==> r.value.Valid()
    decreases |keys|
  {
    if keys == [] then Ok(w)
    else
      var w' :- HandlePart(mode, w, keys[0], false);
      Walked(mode, w', keys[1..])
  }

  function Front(keys: seq<string>): seq<string>
    requires keys != []
  {
    keys[..|keys| - 1]
  }

  function Last(keys: seq<string>): string
    requires keys != []
  {
    keys[|keys| - 1]
  }

  lemma FrontMore(keys: seq<string>)
    requires |keys| > 1
    ensures Front(keys) == [keys[0]] + Front(keys[1..]) && Last(keys[1..]) == Last(keys)
    ensures Front(keys) != [] && Front(keys)[0] == keys[0] && Front(keys)[1..] == Front(keys[1..])
  {
  }

  lemma {:induction false} KeyIsWalked(s: string, keys: seq<string>, mode: Mode, w: Walk)
    requires w.Valid() && KeysEnd(s, keys, KeyEnd(mode)).Some?
    ensures var walk := Walked(mode, w, Front(keys));
            ParseKey(s, mode, w) == if walk.Ok? then Ok((Last(keys), KeysEnd(s, keys, KeyEnd(mode)).value, walk.value))
                                    else Err(walk.error)
    decreases |keys|
  {
    hide HasPath, ParseSimpleKey, HandlePart, ConsumeWhitespace, ParseKey;
    var (key, rest) := ParseSimpleKey(s).value;
    KeyRound(s, key, rest, mode, w);
    if |keys| > 1 {
      FrontMore(keys);
      var r := HandlePart(mode, w, key, false);
      if r.Ok? {
        KeyIsWalked(ConsumeWhitespace(rest)[1..], keys[1..], mode, r.value);
      }
    }
  }

  /** Whatever parse_key accepts shows keys. */
  lemma {:induction false} KeysAreShown(s: string, mode: Mode, w: Walk) returns (keys: seq<string>)
    requires w.Valid() && ParseKey(s, mode, w).Ok?
    ensures KeysEnd(s, keys, KeyEnd(mode)) == Some(ParseKey(s, mode, w).value.1)
    decreases |s|
  {
    hide HasPath, ParseSimpleKey, HandlePart, ConsumeWhitespace;
    var (key, rest) := ParseSimpleKey(s).value;
    KeyRound(s, key, rest, mode, w);
    var t := ConsumeWhitespace(rest);
    if t == "" || t[0] == KeyEnd(mode) {
      keys := [key];
    } else {
      var more := KeysAreShown(t[1..], mode, HandlePart(mode, w, key, false).value);
      keys := [key] + more;
      assert keys[1..] == more;
    }
  }

  lemma {:induction false} PutIsWalked(w: Walk, keys: seq<string>, v: Value)
    requires w.Valid() && keys != []
    ensures var walk := Walked(ForItem, w, Front(keys));
            Put(w.Here(), keys, v).Some? <==> walk.Ok? && !Contains(walk.value.Here(), Last(keys))
    ensures Put(w.Here(), keys, v).Some? ==>
              var w' := Walked(ForItem, w, Front(keys)).value;
              Final(w', Insert(w'.Here(), Last(keys), Leaf(v))) == Final(w, Put(w.Here(), keys, v).value)
    decreases |keys|
  {
    hide HasPath, HandlePart, Final, At, Insert, Contains, Inner, Refill;
    if |keys| > 1 {
      FrontMore(keys);
      PartStep(ForItem, w, keys[0], EMPTY_TABLE);
      var r := HandlePart(ForItem, w, keys[0], false);
      if r.Ok? {
        PutIsWalked(r.value, keys[1..], v);
        var put := Put(r.value.Here(), keys[1..], v);
        if put.Some? {
          PartStep(ForItem, w, keys[0], put.value);
        }
      }
    }
  }

  /** The check of a header that finds its table there. */
  predicate MayOpen(w: Walk)
    requires w.Valid()
  {
    w.inserted || Reopens(w.Here())
  }

  lemma {:induction false} OpenIsWalked(w: Walk, keys: seq<string>)
    requires w.Valid() && keys != [] && (w.inserted ==> w.Here() == EMPTY_TABLE)
    ensures var walk := Walked(ForTable, w, Front(keys));
            OpenTable(w.Here(), keys).Some? <==>
              walk.Ok? && TablePart(walk.value, Last(keys)).Ok? && MayOpen(TablePart(walk.value, Last(keys)).value)
    ensures OpenTable(w.Here(), keys).Some? ==>
              var w' := TablePart(Walked(ForTable, w, Front(keys)).value, Last(keys)).value;
              w'.root == Final(w, OpenTable(w.Here(), keys).value) && w'.cur == w.cur + keys
    decreases |keys|
  {
    hide HasPath, HandlePart, Final, At, With, Insert, Inner, Refill, Reopens, TablePart;
    var key := keys[0];
    PartStep(ForTable, w, key, EMPTY_TABLE);
    var r := HandlePart(ForTable, w, key, false);
    if |keys| > 1 {
      FrontMore(keys);
      if r.Ok? {
        NothingInside(w.Here(), key);
        OpenIsWalked(r.value, keys[1..]);
        var open := OpenTable(r.value.Here(), keys[1..]);
        assert w.cur + [key] + keys[1..] == w.cur + keys;
        if open.Some? {
          PartStep(ForTable, w, key, open.value);
        }
      }
    } else {
      assert keys == [key];
      NothingInside(w.Here(), key);
      LastPart(w, key);
    }
  }

  lemma NothingInside(t: Table, key: string)
    ensures t == EMPTY_TABLE ==> !Contains(t, key)
    ensures !Contains(t, key) ==> Inner(t, key, true) == Some(EMPTY_TABLE)
  {
  }

  lemma LastPart(w: Walk, key: string)
    requires w.Valid()
    ensures TablePart(w, key).Ok? ==>
              var w' := TablePart(w, key).value;
              w'.root == Final(w, if Contains(w.Here(), key) then w.Here() else Insert(w.Here(), key, Tab(EMPTY_TABLE)))
    ensures HandlePart(ForTable, w, key, false) == TablePart(w, key)
  {
    hide HasPath, At, With, Insert;
    WithSame(w.root, w.cur);
  }

  lemma {:induction false} ElementIsWalked(w: Walk, keys: seq<string>)
    requires w.Valid() && keys != []
    ensures var walk := Walked(ForTableArray, w, Front(keys));
            OpenElement(w.Here(), keys).Some? <==> walk.Ok? && TableArrayPart(walk.value, Last(keys), true).Ok?
    ensures OpenElement(w.Here(), keys).Some? ==>
              var w' := TableArrayPart(Walked(ForTableArray, w, Front(keys)).value, Last(keys), true).value;
              w'.root == Final(w, OpenElement(w.Here(), keys).value) && w'.cur == w.cur + keys
    decreases |keys|
  {
    hide HasPath, HandlePart, Final, At, With, Insert, Inner, Refill, TableArrayPart;
    var key := keys[0];
    if |keys| > 1 {
      FrontMore(keys);
      PartStep(ForTableArray, w, key, EMPTY_TABLE);
      var r := HandlePart(ForTableArray, w, key, false);
      if r.Ok? {
        ElementIsWalked(r.value, keys[1..]);
        var open := OpenElement(r.value.Here(), keys[1..]);
        assert w.cur + [key] + keys[1..] == w.cur + keys;
        if open.Some? {
          PartStep(ForTableArray, w, key, open.value);
        }
      }
    } else {
      assert keys == [key];
      LastElement(w, key);
    }
  }

  lemma LastElement(w: Walk, key: string)
    requires w.Valid()
    ensures TableArrayPart(w, key, true).Ok? <==> OpenElement(w.Here(), [key]).Some?
    ensures TableArrayPart(w, key, true).Ok? ==>
              var w' := TableArrayPart(w, key, true).value;
              w'.root == Final(w, OpenElement(w.Here(), [key]).value) && w'.cur == w.cur + [key]
  {
    hide HasPath, At, With, Insert;
  }
  // ----- lines --------------------------------------------------------------------------------

  lemma SingleIsOpened(s: string, keys: seq<string>, root: Table)
    requires KeysEnd(s, keys, ']').Some?
    requires var end := KeysEnd(s, keys, ']').value; end != "" && EolOrComment(ConsumeWhitespace(end[1..]))
    ensures ParseSingleTable(s, root).Ok? <==> OpenTable(root, keys).Some?
    ensures ParseSingleTable(s, root).Ok? ==>
              ParseSingleTable(s, root).value.root == OpenTable(root, keys).value &&
              ParseSingleTable(s, root).value.cur == keys
  {
    hide ParseKey, ConsumeWhitespace, Walked, TablePart, OpenTable, Reopens, MayOpen, At, HasPath, With, Final;
    hide KeysEnd;
    StartsAnywhere(root);
    var w := Walk(root, [], false);
    KeysEndHead(s, keys, ']');
    KeyIsWalked(s, keys, ForTable, w);
    OpenIsWalked(w, keys);
    var walk := Walked(ForTable, w, Front(keys));
    if walk.Ok? && TablePart(walk.value, Last(keys)).Ok? {
      MayOpenIs(TablePart(walk.value, Last(keys)).value);
    }
  }

  lemma DoubleIsOpened(s: string, keys: seq<string>, root: Table)
    requires s != "" && KeysEnd(s[1..], keys, ']').Some?
    requires var end := KeysEnd(s[1..], keys, ']').value;
             |end| > 1 && end[1] == ']' && EolOrComment(ConsumeWhitespace(end[2..]))
    ensures ParseTableArray(s, root).Ok? <==> OpenElement(root, keys).Some?
    ensures ParseTableArray(s, root).Ok? ==>
              ParseTableArray(s, root).value.root == OpenElement(root, keys).value &&
              ParseTableArray(s, root).value.cur == keys
  {
    hide ParseKey, ConsumeWhitespace, Walked, TableArrayPart, OpenElement, At, HasPath, With, Final;
    hide KeysEnd;
    StartsAnywhere(root);
    var w := Walk(root, [], false);
    KeysEndHead(s[1..], keys, ']');
    KeyIsWalked(s[1..], keys, ForTableArray, w);
    ElementIsWalked(w, keys);
  }

  lemma KeysEndHead(s: string, keys: seq<string>, end: char)
    requires KeysEnd(s, keys, end).Some?
    ensures s != "" && s[0] != end && keys != []
  {
  }

  /** A header at the start of a line. */
  lemma HeadIsOpened(s: string, keys: seq<string>, double: bool, root: Table)
    requires HeadShown(s, keys, double)
    ensures keys != [] && s != ""
    ensures ParseTable(s, root).Ok? <==> Opened(root, keys, double).Some?
    ensures ParseTable(s, root).Ok? ==>
              ParseTable(s, root).value.root == Opened(root, keys, double).value &&
              ParseTable(s, root).value.cur == keys
  {
    hide KeysEnd, ConsumeWhitespace, ParseSingleTable, ParseTableArray, OpenTable, OpenElement;
    if double {
      assert s[1..][1..] == s[2..];
      DoubleIsOpened(s[1..], keys, root);
    } else {
      SingleIsOpened(s[1..], keys, root);
    }
  }

  lemma MayOpenIs(w: Walk)
    requires w.Valid()
    ensures MayOpen(w) <==>
              !(!w.inserted && (w.Here().entries == [] || exists e :: e in w.Here().entries && IsSingleValue(e.node)))
  {
    hide At, HasPath;
    var es := w.Here().entries;
    assert (exists e :: e in es && IsSingleValue(e.node)) <==> exists i :: 0 <= i < |es| && IsSingleValue(es[i].node);
  }

  /** A key and value at the start of a line. */
  lemma ItemIsPut(st: St, keys: seq<string>, v: Value, root: Table, cur: seq<string>)
    requires HasPath(root, cur) && ItemEnd(st, keys, v).Some?
    ensures keys != []
    ensures ParseKeyValue(st, root, cur).Ok? <==> Put(At(root, cur), keys, v).Some?
    ensures ParseKeyValue(st, root, cur).Ok? ==>
              var (root', st') := ParseKeyValue(st, root, cur).value;
              root' == With(root, cur, Put(At(root, cur), keys, v).value) && st'.inp == ItemEnd(st, keys, v).value &&
              EolOrComment(st'.s)
  {
    hide ParseKey, ParseValue, ConsumeWhitespace, Walked, Put, With, At, HasPath, Insert, Contains;
    var w := Walk(root, cur, false);
    KeyIsWalked(st.s, keys, ForItem, w);
    PutIsWalked(w, keys, v);
  }

  /** A header that is accepted is shown. */
  lemma HeadIsShown(s: string, root: Table) returns (keys: seq<string>, double: bool)
    requires s != "" && s[0] == '[' && ParseTable(s, root).Ok?
    ensures HeadShown(s, keys, double)
  {
    hide ParseKey, ConsumeWhitespace, KeysEnd, TablePart, TableArrayPart, At, HasPath;
    StartsAnywhere(root);
    var w := Walk(root, [], false);
    double := s[1] == '[';
    if double {
      assert s[1..][1..] == s[2..];
      keys := KeysAreShown(s[2..], ForTableArray, w);
    } else {
      keys := KeysAreShown(s[1..], ForTable, w);
    }
  }

  lemma StartsAnywhere(root: Table)
    ensures Walk(root, [], false).Valid() && Walk(root, [], false).Here() == root
    ensures forall u :: Final(Walk(root, [], false), u) == u
    ensures forall keys: seq<string> :: [] + keys == keys
  {
  }
  lemma ItemIsShown(st: St, root: Table, cur: seq<string>) returns (keys: seq<string>, v: Value)
    requires HasPath(root, cur) && ParseKeyValue(st, root, cur).Ok? && st.s[0] != '['
    requires EolOrComment(ConsumeWhitespace(ParseKeyValue(st, root, cur).value.1.s))
    ensures ItemEnd(st, keys, v) == Some(ParseKeyValue(st, root, cur).value.1.inp)
  {
    hide ParseKey, ParseValue, ConsumeWhitespace, KeysEnd, With, At, HasPath, Insert, Contains;
    var w := Walk(root, cur, false);
    keys := KeysAreShown(st.s, ForItem, w);
    var rest := KeysEnd(st.s, keys, '=').value;
    v := ParseValue(St(ConsumeWhitespace(rest[1..]), st.inp)).value.0;
    WhiteTwice(ParseValue(St(ConsumeWhitespace(rest[1..]), st.inp)).value.1.s);
  }

  lemma {:induction false} WhiteTwice(s: string)
    ensures ConsumeWhitespace(ConsumeWhitespace(s)) == ConsumeWhitespace(s)
  {
    if s != "" && IsBlank(s[0]) {
      WhiteTwice(s[1..]);
    }
  }
  // ----- where a header leads -----------------------------------------------------------------

  /** Through a table that has changed: the paths below it are those of its new content. */
  lemma RefillPath(t: Table, key: string, u: Table, rest: seq<string>)
    requires Inner(t, key, true).Some? && HasPath(u, rest)
    ensures HasPath(Refill(t, key, u), [key] + rest) && At(Refill(t, key, u), [key] + rest) == At(u, rest)
  {
    var n := if Contains(t, key) then NodeWith(Get(t, key), u) else Tab(u);
    InsertGet(t, key, n);
    assert ([key] + rest)[1..] == rest;
  }

  lemma InnerPath(t: Table, key: string, rest: seq<string>)
    ensures HasPath(t, [key] + rest) <==>
              Contains(t, key) && Inner(t, key, true).Some? && HasPath(Inner(t, key, true).value, rest)
    ensures HasPath(t, [key] + rest) ==> At(t, [key] + rest) == At(Inner(t, key, true).value, rest)
  {
    assert ([key] + rest)[1..] == rest;
  }

  /** A new table, or one that exists and may be opened again; then nothing changes. */
  lemma {:induction false} TableIsOpened(t: Table, keys: seq<string>)
    requires keys != [] && OpenTable(t, keys).Some?
    ensures var u := OpenTable(t, keys).value;
            HasPath(u, keys) && At(u, keys) == (if HasPath(t, keys) then At(t, keys) else EMPTY_TABLE) &&
            (HasPath(t, keys) ==> u == t && Reopens(At(t, keys)))
    decreases |keys|
  {
    hide HasPath, At, Insert, Contains, Get, Reopens;
    var key, rest := keys[0], keys[1..];
    assert keys == [key] + rest;
    InnerPath(t, key, rest);
    var sub := Inner(t, key, true).value;
    if |keys| > 1 {
      var u := OpenTable(sub, rest).value;
      TableIsOpened(sub, rest);
      RefillPath(t, key, u, rest);
      NothingThere(rest);
      if HasPath(t, keys) {
        RefillSame(t, key);
      }
    } else {
      assert rest == [];
      EmptyPath(EMPTY_TABLE);
      EmptyPath(sub);
      if !Contains(t, key) {
        RefillPath(t, key, EMPTY_TABLE, []);
      }
    }
  }

  lemma EmptyPath(t: Table)
    ensures HasPath(t, []) && At(t, []) == t
  {
  }

  lemma NothingThere(keys: seq<string>)
    requires keys != []
    ensures !HasPath(EMPTY_TABLE, keys)
  {
  }

  lemma RefillSame(t: Table, key: string)
    requires Contains(t, key) && Inner(t, key, true).Some?
    ensures Refill(t, key, Inner(t, key, true).value) == t
  {
    var i := Index(t.entries, key);
    assert t.entries[i] == Entry(key, Get(t, key));
    if Get(t, key).TabArr? {
      var ts := Get(t, key).tables;
      assert ts[|ts| - 1 := ts[|ts| - 1]] == ts;
    }
  }

  /** One more table at the end of the array, which is new if there was none. */
  lemma {:induction false} ElementIsOpened(t: Table, keys: seq<string>)
    requires keys != [] && OpenElement(t, keys).Some?
    ensures var u := OpenElement(t, keys).value;
            HasPath(u, keys) && At(u, keys) == EMPTY_TABLE && HasPath(u, Front(keys)) &&
            var here := At(u, Front(keys));
            Contains(here, Last(keys)) && Get(here, Last(keys)).TabArr? &&
            Get(here, Last(keys)).tables == TablesAt(t, keys) + [EMPTY_TABLE]
    decreases |keys|
  {
    hide HasPath, At, Insert, Contains, Get, TablesAt;
    var key, rest := keys[0], keys[1..];
    assert keys == [key] + rest;
    if |keys| > 1 {
      var sub := Inner(t, key, true).value;
      var u := OpenElement(sub, rest).value;
      ElementIsOpened(sub, rest);
      RefillPath(t, key, u, rest);
      FrontMore(keys);
      RefillPath(t, key, u, Front(rest));
      TablesBelow(t, keys);
    } else {
      assert keys == [key];
      ElementIsLast(t, key);
      assert Front(keys) == [];
      EmptyPath(OpenElement(t, keys).value);
    }
  }

  /** The tables of the array under the last key, if it is there. */
  function TablesAt(t: Table, keys: seq<string>): seq<Table>
    requires keys != []
  {
    if HasPath(t, Front(keys)) && Contains(At(t, Front(keys)), Last(keys)) then
      match Get(At(t, Front(keys)), Last(keys))
      case TabArr(ts) => ts
      case _ => []
    else []
  }

  lemma TablesBelow(t: Table, keys: seq<string>)
    requires |keys| > 1 && Inner(t, keys[0], true).Some?
    ensures TablesAt(t, keys) == TablesAt(Inner(t, keys[0], true).value, keys[1..])
  {
    hide HasPath, At, Contains, Get;
    FrontMore(keys);
    InnerPath(t, keys[0], Front(keys[1..]));
    NothingInside(t, keys[0]);
    if Front(keys[1..]) == [] {
      EmptyPath(EMPTY_TABLE);
    } else {
      NothingThere(Front(keys[1..]));
    }
    NothingInside(EMPTY_TABLE, Last(keys));
  }

  lemma ElementIsLast(t: Table, key: string)
    requires OpenElement(t, [key]).Some?
    ensures var u := OpenElement(t, [key]).value;
            HasPath(u, [key]) && At(u, [key]) == EMPTY_TABLE && Contains(u, key) && Get(u, key).TabArr? &&
            Get(u, key).tables == TablesAt(t, [key]) + [EMPTY_TABLE]
  {
    var n := if Contains(t, key) then TabArr(Get(t, key).tables + [EMPTY_TABLE]) else TabArr([EMPTY_TABLE]);
    InsertGet(t, key, n);
    assert [key][1..] == [] && [key][..0] == [];
    assert [] + [EMPTY_TABLE] == [EMPTY_TABLE];
  }

  lemma HeaderLeads(t: Table, keys: seq<string>, double: bool)
    requires keys != [] && Opened(t, keys, double).Some?
    ensures HasPath(Opened(t, keys, double).value, keys)
  {
    hide HasPath, At;
    if double {
      ElementIsOpened(t, keys);
    } else {
      TableIsOpened(t, keys);
    }
  }

  // ----- texts --------------------------------------------------------------------------------

  /** One statement: the tree, and the path of the table that the next keys go to. */
  function Act(root: Table, cur: seq<string>, stmt: Stmt): (r: Option<(Table, seq<string>)>)
    requires HasPath(root, cur)
    ensures r.Some? ==> HasPath(r.value.0, r.value.1)
  {
    hide HasPath, With, At, Put, Opened;
    if stmt.keys == [] then None
    else if stmt.Item? then
      var put := Put(At(root, cur), stmt.keys, stmt.v);
      if put.None? then None
      else
        WithAt(root, cur, put.value);
        Some((With(root, cur, put.value), cur))
    else
      var open := Opened(root, stmt.keys, stmt.double);
      if open.None? then None
      else
        HeaderLeads(root, stmt.keys, stmt.double);
        Some((open.value, stmt.keys))
  }

  function Run(root: Table, cur: seq<string>, stmts: seq<Stmt>): (r: Option<(Table, seq<string>)>)
    requires HasPath(root, cur)
    ensures r.Some? ==> HasPath(r.value.0, r.value.1)
    decreases |stmts|
  {
    hide HasPath, Act;
    if stmts == [] then Some((root, cur))
    else
      match Act(root, cur, stmts[0])
      case None => None
      case Some((t, path)) => Run(t, path, stmts[1..])
  }

  /** The lines of one statement. */
  lemma LineIsAct(s: string, inp: Input, root: Table, cur: seq<string>, stmt: Stmt)
    requires HasPath(root, cur) && s != "" && ConsumeWhitespace(s) == s && s[0] != '#'
    requires stmt.Head? ==> HeadShown(s, stmt.keys, stmt.double)
    requires stmt.Item? ==> ItemEnd(St(s, inp), stmt.keys, stmt.v).Some?
    ensures ParseLine(St(s, inp), root, cur).Ok? <==> Act(root, cur, stmt).Some?
    ensures ParseLine(St(s, inp), root, cur).Ok? ==>
              var (t, path, rest) := ParseLine(St(s, inp), root, cur).value;
              (t, path) == Act(root, cur, stmt).value &&
              rest == if stmt.Head? then inp else ItemEnd(St(s, inp), stmt.keys, stmt.v).value
  {
    hide ParseTable, ParseKeyValue, HasPath, With, At, Put, Opened, ConsumeWhitespace, KeysEnd;
    match stmt
    case Head(keys, double) => HeadIsOpened(s, keys, double, root);
    case Item(keys, v) =>
      ItemIsPut(St(s, inp), keys, v, root, cur);
      if ParseKeyValue(St(s, inp), root, cur).Ok? {
        EndStays(ParseKeyValue(St(s, inp), root, cur).value.1.s);
      }
  }

  lemma EndStays(s: string)
    requires EolOrComment(s)
    ensures EolOrComment(ConsumeWhitespace(s))
  {
  }

  function TreeOf(r: Option<(Table, seq<string>)>): Option<Table> {
    match r
    case Some((t, _)) => Some(t)
    case None => None
  }

  function TreeIfOk(r: Parsed<Table>): Option<Table> {
    match r
    case Ok(t) => Some(t)
    case Err(_) => None
  }

  /** Reading a text that shows these statements is running them. */
  lemma {:induction false} ShownIsRun(inp: Input, root: Table, cur: seq<string>, stmts: seq<Stmt>)
    requires HasPath(root, cur) && Shows(inp, stmts)
    ensures TreeIfOk(ParseLines(inp, root, cur)) == TreeOf(Run(root, cur, stmts))
    decreases InputLeft(inp)
  {
    hide ParseLine, Act, HasPath, GetLine, ConsumeWhitespace, HeadShown, ItemEnd;
    if GetLine(inp).Some? {
      GetLineShrinks(St("", inp));
      var (line, rest) := GetLine(inp).value;
      var s := ConsumeWhitespace(line);
      LineIsTrimmed(line, rest, root, cur);
      if EolOrComment(s) {
        ShownIsRun(rest, root, cur, stmts);
      } else {
        LineIsAct(s, rest, root, cur, stmts[0]);
        var act := Act(root, cur, stmts[0]);
        if act.Some? {
          ShownIsRun(ParseLine(St(s, rest), root, cur).value.2, act.value.0, act.value.1, stmts[1..]);
        }
      }
    }
  }

  /** Indentation does not matter, and blank lines and comments do nothing. */
  lemma LineIsTrimmed(line: string, rest: Input, root: Table, cur: seq<string>)
    requires HasPath(root, cur)
    ensures var s := ConsumeWhitespace(line);
            ConsumeWhitespace(s) == s && ParseLine(St(line, rest), root, cur) == ParseLine(St(s, rest), root, cur) &&
            (EolOrComment(s) ==> ParseLine(St(line, rest), root, cur) == Ok((root, cur, rest)))
  {
    hide ParseTable, ParseKeyValue, HasPath, ConsumeWhitespace;
    WhiteTwice(line);
  }

  /** A text that is accepted shows statements. */
  lemma {:induction false} LinesAreShown(inp: Input, root: Table, cur: seq<string>) returns (stmts: seq<Stmt>)
    requires HasPath(root, cur) && ParseLines(inp, root, cur).Ok?
    ensures Shows(inp, stmts)
    decreases InputLeft(inp)
  {
    hide ParseLine, HasPath, GetLine, ConsumeWhitespace, HeadShown, ItemEnd;
    if GetLine(inp).None? {
      stmts := [];
    } else {
      GetLineShrinks(St("", inp));
      var (line, rest) := GetLine(inp).value;
      var s := ConsumeWhitespace(line);
      var (t, path, inp') := ParseLine(St(line, rest), root, cur).value;
      LineIsTrimmed(line, rest, root, cur);
      var more := LinesAreShown(inp', t, path);
      if EolOrComment(s) {
        stmts := more;
      } else {
        var stmt := LineIsShown(s, rest, root, cur);
        stmts := [stmt] + more;
        assert stmts[0] == stmt && stmts[1..] == more;
      }
    }
  }

  lemma LineIsShown(s: string, inp: Input, root: Table, cur: seq<string>) returns (stmt: Stmt)
    requires HasPath(root, cur) && ConsumeWhitespace(s) == s && !EolOrComment(s) && ParseLine(St(s, inp), root, cur).Ok?
    ensures stmt.Head? ==> HeadShown(s, stmt.keys, stmt.double) && ParseLine(St(s, inp), root, cur).value.2 == inp
    ensures stmt.Item? ==> ItemEnd(St(s, inp), stmt.keys, stmt.v) == Some(ParseLine(St(s, inp), root, cur).value.2)
  {
    hide ParseTable, ParseKeyValue, HasPath, ConsumeWhitespace, HeadShown, ItemEnd;
    if s[0] == '[' {
      var keys, double := HeadIsShown(s, root);
      stmt := Head(keys, double);
    } else {
      var keys, v := ItemIsShown(St(s, inp), root, cur);
      stmt := Item(keys, v);
    }
  }

  predicate IsText(text: string, stmts: seq<Stmt>) {
    Shows(Input(text, false), stmts)
  }

  /** The tree of these statements, if they can stand together. */
  function Made(stmts: seq<Stmt>): Option<Table> {
    TreeOf(Run(EMPTY_TABLE, [], stmts))
  }

  /** parse() accepts a text if and only if it shows statements that can stand together; it returns their tree. */
  lemma TextIsMade(text: string, stmts: seq<Stmt>)
    requires IsText(text, stmts)
    ensures TreeIfOk(Parse(text)) == Made(stmts)
  {
    hide ParseLines, Run, Shows;
    ShownIsRun(Input(text, false), EMPTY_TABLE, [], stmts);
  }

  lemma TextIsShown(text: string) returns (stmts: seq<Stmt>)
    requires Parse(text).Ok?
    ensures IsText(text, stmts) && Made(stmts) == Some(Parse(text).value)
  {
    hide ParseLines, Run, Shows, Made;
    stmts := LinesAreShown(Input(text, false), EMPTY_TABLE, []);
    TextIsMade(text, stmts);
  }
}
