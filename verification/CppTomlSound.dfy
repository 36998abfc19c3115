/** What the parser of ssar/cpptoml.h returns for any text, printed by the writer or not: a sound tree, in which
    no line has taken back what an earlier one has put there. */
module CppTomlSound {
  import opened Wrappers
  import opened CppTomlText
  import opened CppTomlTree
  import opened CppTomlWriter
  import opened CppTomlParser
  import opened CppTomlDocument

  /** 64-bit integers, and arrays whose elements have one type. */
  predicate SoundValue(v: Value) {
    match v
    case Str(_) => true
    case Int(i) => IsInt64(i)
    case Bool(_) => true
    case Arr(elems) =>
      && (forall i, j :: 0 <= i < j < |elems| ==> KindOf(elems[i]) == KindOf(elems[j]))
      && (forall i :: 0 <= i < |elems| ==> SoundValue(elems[i]))
  }

  predicate SoundNode(n: Node) {
    match n
    case Leaf(v) => SoundValue(v)
    case Tab(t) => SoundTable(t)
    case TabArr(ts) => ts != [] && forall i :: 0 <= i < |ts| ==> SoundTable(ts[i])
  }

  /** Distinct keys, sound values, and no empty table arrays, at every depth. */
  predicate SoundTable(t: Table) {
    UniqueKeys(t.entries) && forall i :: 0 <= i < |t.entries| ==> SoundNode(t.entries[i].node)
  }

  /** Everything in `t` is still in `t'`: values as they were, tables and table arrays at most longer. */
  predicate Extends(t: Table, t': Table) {
    |t.entries| <= |t'.entries| &&
    forall i :: 0 <= i < |t.entries| ==>
      t.entries[i].key == t'.entries[i].key && NodeExtends(t.entries[i].node, t'.entries[i].node)
  }

  predicate NodeExtends(n: Node, n': Node) {
    match n
    case Leaf(_) => n' == n
    case Tab(t) => n'.Tab? && Extends(t, n'.table)
    case TabArr(ts) => n'.TabArr? && |ts| <= |n'.tables| && forall i :: 0 <= i < |ts| ==> Extends(ts[i], n'.tables[i])
  }

  lemma {:induction false} ExtendsSelf(t: Table)
    ensures Extends(t, t)
    decreases t
  {
    forall i | 0 <= i < |t.entries| ensures NodeExtends(t.entries[i].node, t.entries[i].node) {
      NodeExtendsSelf(t.entries[i].node);
    }
  }

  lemma {:induction false} NodeExtendsSelf(n: Node)
    ensures NodeExtends(n, n)
    decreases n
  {
    match n
    case Leaf(_) =>
    case Tab(t) => ExtendsSelf(t);
    case TabArr(ts) =>
      forall i | 0 <= i < |ts| ensures Extends(ts[i], ts[i]) {
        ExtendsSelf(ts[i]);
      }
  }

  lemma {:induction false} ExtendsTrans(t: Table, u: Table, v: Table)
    requires Extends(t, u) && Extends(u, v)
    ensures Extends(t, v)
    decreases t
  {
    forall i | 0 <= i < |t.entries| ensures NodeExtends(t.entries[i].node, v.entries[i].node) {
      NodeExtendsTrans(t.entries[i].node, u.entries[i].node, v.entries[i].node);
    }
  }

  lemma {:induction false} NodeExtendsTrans(n: Node, m: Node, k: Node)
    requires NodeExtends(n, m) && NodeExtends(m, k)
    ensures NodeExtends(n, k)
    decreases n
  {
    match n
    case Leaf(_) =>
    case Tab(t) => ExtendsTrans(t, m.table, k.table);
    case TabArr(ts) =>
      forall i | 0 <= i < |ts| ensures Extends(ts[i], k.tables[i]) {
        ExtendsTrans(ts[i], m.tables[i], k.tables[i]);
      }
  }

  /** Sound before, sound after, and nothing lost. */
  predicate Grows(t: Table, t': Table) {
    Extends(t, t') && (SoundTable(t) ==> SoundTable(t'))
  }

  lemma GrowsTrans(t: Table, u: Table, v: Table)
    requires Grows(t, u) && Grows(u, v)
    ensures Grows(t, v)
  {
    hide Extends, SoundTable;
    ExtendsTrans(t, u, v);
  }

  lemma GrowsSelf(t: Table)
    ensures Grows(t, t)
  {
    hide Extends, SoundTable;
    ExtendsSelf(t);
  }

  // ----- insertion ----------------------------------------------------------------------------

  lemma InsertExtends(t: Table, key: string, n: Node)
    requires Contains(t, key) ==> NodeExtends(Get(t, key), n)
    ensures Extends(t, Insert(t, key, n))
  {
    hide NodeExtends;
    forall i | 0 <= i < |t.entries| ensures NodeExtends(t.entries[i].node, t.entries[i].node) {
      NodeExtendsSelf(t.entries[i].node);
    }
  }

  lemma InsertSound(t: Table, key: string, n: Node)
    requires SoundTable(t) && SoundNode(n)
    ensures SoundTable(Insert(t, key, n))
  {
    hide SoundNode;
  }

  lemma InsertGrows(t: Table, key: string, n: Node)
    requires Contains(t, key) ==> NodeExtends(Get(t, key), n)
    requires SoundTable(t) ==> SoundNode(n)
    ensures Grows(t, Insert(t, key, n))
  {
    hide Extends, SoundTable, SoundNode, NodeExtends, Insert;
    InsertExtends(t, key, n);
    if SoundTable(t) {
      InsertSound(t, key, n);
    }
  }

  lemma GetSound(t: Table, key: string)
    requires SoundTable(t) && Contains(t, key)
    ensures SoundNode(Get(t, key))
  {
    hide SoundNode;
  }

  /** The last table of an array grows. */
  lemma LastGrows(ts: seq<Table>, u: Table)
    requires ts != [] && Grows(ts[|ts| - 1], u)
    ensures NodeExtends(TabArr(ts), TabArr(ts[|ts| - 1 := u]))
    ensures SoundNode(TabArr(ts)) ==> SoundNode(TabArr(ts[|ts| - 1 := u]))
  {
    hide Extends, SoundTable;
    forall i | 0 <= i < |ts| ensures Extends(ts[i], ts[i]) {
      ExtendsSelf(ts[i]);
    }
  }

  lemma TabGrows(t: Table, u: Table)
    requires Grows(t, u)
    ensures NodeExtends(Tab(t), Tab(u)) && (SoundNode(Tab(t)) ==> SoundNode(Tab(u)))
  {
  }

  /** The tree grows when the table at a path grows. */
  lemma {:induction false} WithGrows(t: Table, path: seq<string>, u: Table)
    requires HasPath(t, path) && Grows(At(t, path), u)
    ensures Grows(t, With(t, path, u))
    decreases |path|
  {
    hide Grows, SoundTable, SoundNode, NodeExtends, Insert;
    if path != [] {
      var n := Get(t, path[0]);
      if SoundTable(t) {
        GetSound(t, path[0]);
      }
      match n
      case Tab(sub) =>
        WithGrows(sub, path[1..], u);
        TabGrows(sub, With(sub, path[1..], u));
        InsertGrows(t, path[0], Tab(With(sub, path[1..], u)));
      case TabArr(ts) =>
        var last := ts[|ts| - 1];
        WithGrows(last, path[1..], u);
        LastGrows(ts, With(last, path[1..], u));
        InsertGrows(t, path[0], TabArr(ts[|ts| - 1 := With(last, path[1..], u)]));
    }
  }

  // ----- headers and keys ---------------------------------------------------------------------

  lemma EnteredGrows(w: Walk, key: string, node: Node)
    requires w.Valid() && HasPath(Table([Entry(key, node)]), [key])
    requires Contains(w.Here(), key) ==> NodeExtends(Get(w.Here(), key), node)
    requires SoundTable(w.Here()) ==> SoundNode(node)
    ensures Grows(w.root, w.InsertAndEnter(key, node).root)
  {
    hide Grows, SoundTable, SoundNode, NodeExtends, Insert, At, With;
    InsertGrows(w.Here(), key, node);
    WithGrows(w.root, w.cur, Insert(w.Here(), key, node));
  }

  lemma NewNodesAreSound()
    ensures SoundNode(Tab(EMPTY_TABLE)) && SoundNode(TabArr([EMPTY_TABLE]))
  {
  }

  /** One more table in a table array. */
  lemma OneMoreGrows(ts: seq<Table>)
    ensures NodeExtends(TabArr(ts), TabArr(ts + [EMPTY_TABLE]))
    ensures SoundNode(TabArr(ts)) ==> SoundNode(TabArr(ts + [EMPTY_TABLE]))
  {
    hide Extends;
    forall i | 0 <= i < |ts| ensures Extends(ts[i], ts[i]) {
      ExtendsSelf(ts[i]);
    }
  }

  /** Every key_part_handler only adds to the tree. */
  lemma HandlePartGrows(mode: Mode, w: Walk, part: string, last: bool)
    requires w.Valid() && HandlePart(mode, w, part, last).Ok?
    ensures Grows(w.root, HandlePart(mode, w, part, last).value.root)
  {
    hide Grows, SoundTable, SoundNode, NodeExtends, Insert, At, With, HasPath;
    GrowsSelf(w.root);
    NewNodesAreSound();
    if !Contains(w.Here(), part) {
      OneEntryPath(part, Tab(EMPTY_TABLE));
      EnteredGrows(w, part, Tab(EMPTY_TABLE));
      OneEntryPath(part, TabArr([EMPTY_TABLE]));
      EnteredGrows(w, part, TabArr([EMPTY_TABLE]));
    } else if mode == ForTableArray && last && Get(w.Here(), part).TabArr? {
      var ts := Get(w.Here(), part).tables;
      OneMoreGrows(ts);
      if SoundTable(w.Here()) {
        GetSound(w.Here(), part);
      }
      OneEntryPath(part, TabArr(ts + [EMPTY_TABLE]));
      EnteredGrows(w, part, TabArr(ts + [EMPTY_TABLE]));
    }
  }

  lemma {:induction false} ParseKeyGrows(s: string, mode: Mode, w: Walk)
    requires w.Valid() && ParseKey(s, mode, w).Ok?
    ensures Grows(w.root, ParseKey(s, mode, w).value.2.root)
    decreases |s|
  {
    hide Grows, HandlePart, ParseSimpleKey, ConsumeWhitespace, HasPath;
    GrowsSelf(w.root);
    var (part, rest) := ParseSimpleKey(s).value;
    var t := ConsumeWhitespace(rest);
    if !(t == "" || t[0] == KeyEnd(mode)) {
      var w' := HandlePart(mode, w, part, false).value;
      HandlePartGrows(mode, w, part, false);
      ParseKeyGrows(t[1..], mode, w');
      GrowsTrans(w.root, w'.root, ParseKey(t[1..], mode, w').value.2.root);
    }
  }

  lemma ParseSingleTableGrows(s: string, root: Table)
    requires ParseSingleTable(s, root).Ok?
    ensures Grows(root, ParseSingleTable(s, root).value.root)
  {
    hide Grows, TablePart, ParseKey, ConsumeWhitespace, At;
    var (part, rest, w) := ParseKey(s, ForTable, Walk(root, [], false)).value;
    ParseKeyGrows(s, ForTable, Walk(root, [], false));
    HandlePartGrows(ForTable, w, part, false);
    GrowsTrans(root, w.root, TablePart(w, part).value.root);
  }

  lemma ParseTableArrayGrows(s: string, root: Table)
    requires s != "" && ParseTableArray(s, root).Ok?
    ensures Grows(root, ParseTableArray(s, root).value.root)
  {
    hide Grows, TableArrayPart, ParseKey, ConsumeWhitespace, At;
    var (part, rest, w) := ParseKey(s[1..], ForTableArray, Walk(root, [], false)).value;
    var last := rest != "" && rest[0] == ']';
    ParseKeyGrows(s[1..], ForTableArray, Walk(root, [], false));
    HandlePartGrows(ForTableArray, w, part, last);
    GrowsTrans(root, w.root, TableArrayPart(w, part, last).value.root);
  }

  lemma ParseTableGrows(s: string, root: Table)
    requires s != "" && ParseTable(s, root).Ok?
    ensures Grows(root, ParseTable(s, root).value.root)
  {
    hide Grows, ParseTableArray, ParseSingleTable;
    if s[1..][0] == '[' {
      ParseTableArrayGrows(s[1..], root);
    } else {
      ParseSingleTableGrows(s[1..], root);
    }
  }

  // ----- values -------------------------------------------------------------------------------

  /** The elements of an array so far. */
  predicate SoundElems(elems: seq<Value>, kind: Kind) {
    forall i :: 0 <= i < |elems| ==> KindOf(elems[i]) == kind && SoundValue(elems[i])
  }

  lemma OneMoreElement(elems: seq<Value>, kind: Kind, v: Value)
    requires SoundElems(elems, kind) && KindOf(v) == kind && SoundValue(v)
    ensures SoundElems(elems + [v], kind)
  {
    hide SoundValue;
  }

  lemma ElemsMakeArray(elems: seq<Value>, kind: Kind)
    requires SoundElems(elems, kind)
    ensures SoundValue(Arr(elems))
  {
  }

  lemma ParseNumberSound(s: string)
    requires ParseNumber(s).Ok?
    ensures SoundValue(ParseNumber(s).value.0)
  {
    hide NumberEnd, EatDigits, OtherBase, LeadingZero, WithoutUnderscores, DigitsValue;
  }

  /** A value that is read is sound. */
  lemma {:induction false} ParseValueSound(st: St)
    requires ParseValue(st).Ok?
    ensures SoundValue(ParseValue(st).value.0)
    decreases Left(st), 2
  {
    hide SoundValue, ValueType, ParseNumber, ParseString, ParseBool, ParseArray;
    var kind := ValueType(st.s).value;
    match kind
    case TInt => ParseNumberSound(st.s);
    case TArray => ParseArraySound(st);
    case TString => PlainIsSound(ParseValue(st).value.0);
    case TBool => PlainIsSound(ParseValue(st).value.0);
    case _ =>
  }

  lemma PlainIsSound(v: Value)
    ensures v.Str? || v.Bool? || v == Arr([]) ==> SoundValue(v)
  {
  }

  lemma {:induction false} ParseArraySound(st: St)
    requires st.s != "" && ParseArray(st).Ok?
    ensures SoundValue(ParseArray(st).value.0)
    decreases Left(st), 1
  {
    hide SoundValue, ValueType, ParseValueArray, ParseArrayArray, SkipBlank, Span;
    var st1 := SkipBlank(St(st.s[1..], st.inp)).value;
    if st1.s[0] == ']' {
      PlainIsSound(Arr([]));
    } else {
      match ValueType(st1.s[..Span(st1.s, InElement)]).value
      case TString => ParseValueArraySound(st1, KStr, []);
      case TInt => ParseValueArraySound(st1, KInt, []);
      case TBool => ParseValueArraySound(st1, KBool, []);
      case TArray => ParseArrayArraySound(st1, []);
      case _ =>
    }
  }

  lemma {:induction false} ParseValueArraySound(st: St, kind: Kind, elems: seq<Value>)
    requires SoundElems(elems, kind) && ParseValueArray(st, kind, elems).Ok?
    ensures SoundValue(ParseValueArray(st, kind, elems).value.0)
    decreases Left(st), 3
  {
    hide SoundValue, SoundElems, ParseValue, SkipBlank;
    if st.s == "" || st.s[0] == ']' {
      ElemsMakeArray(elems, kind);
    } else {
      var (v, st1) := ParseValue(st).value;
      ParseValueSound(st);
      OneMoreElement(elems, kind, v);
      ElemsMakeArray(elems + [v], kind);
      var st2 := SkipBlank(st1).value;
      if st2.s[0] == ',' {
        ParseValueArraySound(SkipBlank(St(st2.s[1..], st2.inp)).value, kind, elems + [v]);
      }
    }
  }

  lemma {:induction false} ParseArrayArraySound(st: St, elems: seq<Value>)
    requires SoundElems(elems, KArr) && ParseArrayArray(st, elems).Ok?
    ensures SoundValue(ParseArrayArray(st, elems).value.0)
    decreases Left(st), 3
  {
    hide SoundValue, SoundElems, ParseArray, SkipBlank;
    if st.s[0] == ']' {
      ElemsMakeArray(elems, KArr);
    } else {
      var (v, st1) := ParseArray(st).value;
      ParseArraySound(st);
      OneMoreElement(elems, KArr, v);
      ElemsMakeArray(elems + [v], KArr);
      var st2 := SkipBlank(st1).value;
      if st2.s[0] == ',' {
        ParseArrayArraySound(SkipBlank(St(st2.s[1..], st2.inp)).value, elems + [v]);
      }
    }
  }

  // ----- lines and texts ----------------------------------------------------------------------

  lemma ParseKeyValueGrows(st: St, root: Table, cur: seq<string>)
    requires HasPath(root, cur) && ParseKeyValue(st, root, cur).Ok?
    ensures Grows(root, ParseKeyValue(st, root, cur).value.0)
  {
    hide Grows, SoundTable, SoundValue, ParseKey, ParseValue, ConsumeWhitespace, With, At, Insert, HasPath, Contains;
    var (key, rest, w) := ParseKey(st.s, ForItem, Walk(root, cur, false)).value;
    var st0 := St(ConsumeWhitespace(rest[1..]), st.inp);
    var v := ParseValue(st0).value.0;
    ParseKeyGrows(st.s, ForItem, Walk(root, cur, false));
    ParseValueSound(st0);
    InsertGrows(w.Here(), key, Leaf(v));
    WithGrows(w.root, w.cur, Insert(w.Here(), key, Leaf(v)));
    GrowsTrans(root, w.root, With(w.root, w.cur, Insert(w.Here(), key, Leaf(v))));
  }

  lemma ParseLineGrows(st: St, root: Table, cur: seq<string>)
    requires HasPath(root, cur) && ParseLine(st, root, cur).Ok?
    ensures Grows(root, ParseLine(st, root, cur).value.0)
  {
    hide Grows, ParseTable, ParseKeyValue, ConsumeWhitespace, HasPath;
    var s := ConsumeWhitespace(st.s);
    if s == "" || s[0] == '#' {
      GrowsSelf(root);
    } else if s[0] == '[' {
      ParseTableGrows(s, root);
    } else {
      ParseKeyValueGrows(St(s, st.inp), root, cur);
    }
  }

  /** From any line on, what has been read stays in the tree. */
  lemma {:induction false} ParseLinesGrows(inp: Input, root: Table, cur: seq<string>)
    requires HasPath(root, cur) && ParseLines(inp, root, cur).Ok?
    ensures Grows(root, ParseLines(inp, root, cur).value)
    decreases InputLeft(inp)
  {
    hide Grows, ParseLine, HasPath;
    match GetLine(inp)
    case None => GrowsSelf(root);
    case Some((line, rest)) =>
      GetLineShrinks(St("", inp));
      var (root', cur', inp') := ParseLine(St(line, rest), root, cur).value;
      ParseLineGrows(St(line, rest), root, cur);
      ParseLinesGrows(inp', root', cur');
      GrowsTrans(root, root', ParseLines(inp', root', cur').value);
  }

  /** Every tree that parse() returns is sound. */
  lemma ParsedIsSound(text: string)
    requires Parse(text).Ok?
    ensures SoundTable(Parse(text).value)
  {
    hide ParseLines;
    StartsSound();
    ParseLinesGrows(Input(text, false), EMPTY_TABLE, []);
  }

  lemma StartsSound()
    ensures SoundTable(EMPTY_TABLE) && HasPath(EMPTY_TABLE, [])
  {
  }

  // ----- printing what was read ---------------------------------------------------------------

  /** No control bytes other than \b \t \n \f \r in strings and keys, and no empty keys. */
  predicate CleanValue(v: Value) {
    match v
    case Str(s) => Clean(s)
    case Int(_) => true
    case Bool(_) => true
    case Arr(elems) => forall i :: 0 <= i < |elems| ==> CleanValue(elems[i])
  }

  predicate CleanNode(n: Node) {
    match n
    case Leaf(v) => CleanValue(v)
    case Tab(t) => CleanTable(t)
    case TabArr(ts) => forall i :: 0 <= i < |ts| ==> CleanTable(ts[i])
  }

  predicate CleanTable(t: Table) {
    forall i :: 0 <= i < |t.entries| ==> PrintableKey(t.entries[i].key) && CleanNode(t.entries[i].node)
  }

  lemma {:induction false} PrintableValueIff(v: Value)
    ensures PrintableValue(v) <==> SoundValue(v) && CleanValue(v)
    decreases v
  {
    if v.Arr? {
      forall i | 0 <= i < |v.elems|
        ensures PrintableValue(v.elems[i]) <==> SoundValue(v.elems[i]) && CleanValue(v.elems[i])
      {
        PrintableValueIff(v.elems[i]);
      }
    }
  }

  lemma {:induction false} PrintableNodeIff(n: Node)
    ensures PrintableNode(n) <==> SoundNode(n) && CleanNode(n)
    decreases n
  {
    hide PrintableTable, SoundTable, CleanTable;
    match n
    case Leaf(v) => PrintableValueIff(v);
    case Tab(t) => PrintableTableIff(t);
    case TabArr(ts) =>
      forall i | 0 <= i < |ts| ensures PrintableTable(ts[i]) <==> SoundTable(ts[i]) && CleanTable(ts[i]) {
        PrintableTableIff(ts[i]);
      }
  }

  /** What the writer can print are the sound trees with clean strings and keys. */
  lemma {:induction false} PrintableTableIff(t: Table)
    ensures PrintableTable(t) <==> SoundTable(t) && CleanTable(t)
    decreases t
  {
    hide PrintableNode, SoundNode, CleanNode;
    forall i | 0 <= i < |t.entries|
      ensures PrintableNode(t.entries[i].node) <==> SoundNode(t.entries[i].node) && CleanNode(t.entries[i].node)
    {
      PrintableNodeIff(t.entries[i].node);
    }
  }

  /** Any text that is read, from wherever it comes, can be printed and read again, and means the same: if its
      strings and keys are clean. */
  lemma ReprintKeepsMeaning(text: string, indent: string)
    requires Parse(text).Ok? && CleanTable(Parse(text).value) && AllBlank(indent)
    ensures var t := Parse(text).value;
            Parse(Written(t, indent)).Ok? && Meaning(Parse(Written(t, indent)).value) == Meaning(t)
  {
    hide Parse, Written, Meaning, SoundTable, CleanTable, PrintableTable;
    var t := Parse(text).value;
    ParsedIsSound(text);
    PrintableTableIff(t);
    RoundTrip(t, indent);
  }
}
