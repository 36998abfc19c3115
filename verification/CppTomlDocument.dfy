/** Whole documents: the lines the writer prints rebuild the tree in the parser. */
module CppTomlDocument {
  import opened Wrappers
  import opened CppTomlText
  import opened CppTomlTree
  import opened CppTomlWriter
  import opened CppTomlParser
  import opened CppTomlRoundTrip

  // ----- trees under construction ---------------------------------------------------------

  lemma InsertInsert(t: Table, key: string, a: Node, b: Node)
    ensures Insert(Insert(t, key, a), key, b) == Insert(t, key, b)
  {
    FirstIndexIs(t.entries, key);
    FirstIndex(Insert(t, key, a).entries, key, Index(t.entries, key));
  }

  lemma {:induction false} WithWith(t: Table, path: seq<string>, u: Table, v: Table)
    requires HasPath(t, path)
    ensures HasPath(With(t, path, u), path) && With(With(t, path, u), path, v) == With(t, path, v)
    decreases |path|
  {
    hide Insert, Get, Contains;
    WithAt(t, path, u);
    if path != [] {
      var key, rest := path[0], path[1..];
      match Get(t, key)
      case Tab(sub) =>
        WithWith(sub, rest, u, v);
        InsertGet(t, key, Tab(With(sub, rest, u)));
        InsertInsert(t, key, Tab(With(sub, rest, u)), Tab(With(sub, rest, v)));
      case TabArr(ts) =>
        var n := |ts| - 1;
        WithWith(ts[n], rest, u, v);
        InsertGet(t, key, TabArr(ts[n := With(ts[n], rest, u)]));
        InsertInsert(t, key, TabArr(ts[n := With(ts[n], rest, u)]), TabArr(ts[n := With(ts[n], rest, v)]));
        assert ts[n := With(ts[n], rest, u)][n := With(ts[n], rest, v)] == ts[n := With(ts[n], rest, v)];
    }
  }

  /** The node of `n` after its (last) table has become `u`. */
  function NodeWith(n: Node, u: Table): Node {
    match n
    case Leaf(_) => n
    case Tab(_) => Tab(u)
    case TabArr(ts) => if ts == [] then n else TabArr(ts[|ts| - 1 := u])
  }

  lemma {:induction false} WithMore(t: Table, path: seq<string>, key: string, u: Table)
    requires HasPath(t, path) && HasPath(t, path + [key])
    ensures Contains(At(t, path), key)
    ensures With(t, path + [key], u) == With(t, path, Insert(At(t, path), key, NodeWith(Get(At(t, path), key), u)))
    decreases |path|
  {
    PathMore(t, path, key);
    if path == [] {
      assert path + [key] == [key];
    } else {
      assert (path + [key])[1..] == path[1..] + [key];
      match Get(t, path[0])
      case Tab(sub) => WithMore(sub, path[1..], key, u);
      case TabArr(ts) => WithMore(ts[|ts| - 1], path[1..], key, u);
    }
  }

  /** Enter a node just inserted, and replace the empty table there. */
  lemma InsertThenFill(root: Table, path: seq<string>, key: string, n: Node, u: Table)
    requires HasPath(root, path)
    requires HasPath(Table([Entry(key, n)]), [key])
    ensures var root1 := With(root, path, Insert(At(root, path), key, n));
            HasPath(root1, path + [key]) &&
            At(root1, path + [key]) == (match n case Tab(t) => t case TabArr(ts) => ts[|ts| - 1]) &&
            With(root1, path + [key], u) == With(root, path, Insert(At(root, path), key, NodeWith(n, u)))
  {
    var here := Insert(At(root, path), key, n);
    var root1 := With(root, path, here);
    WithAt(root, path, here);
    InsertGet(At(root, path), key, n);
    assert HasPath(here, [key]) by {
      hide With;
    }
    PathMore(root1, path, key);
    AtOne(here, key);
    WithMore(root1, path, key, u);
    InsertInsert(At(root, path), key, n, NodeWith(n, u));
    WithWith(root, path, here, Insert(At(root, path), key, NodeWith(n, u)));
  }

  lemma AtOne(t: Table, key: string)
    requires HasPath(t, [key])
    ensures At(t, [key]) == (match Get(t, key) case Tab(sub) => sub case TabArr(ts) => ts[|ts| - 1])
  {
    assert [key][1..] == [];
  }

  // ----- lines without newlines -----------------------------------------------------------

  predicate OneLine(s: string) {
    forall i :: 0 <= i < |s| ==> s[i] != '\n' && s[i] != '\r'
  }

  lemma {:induction false} EscapeOneLine(s: string)
    ensures OneLine(EscapeString(s))
  {
    if s != "" {
      EscapeOneLine(s[1..]);
      EscapeCharOneLine(s[0]);
    }
  }

  lemma EscapeCharOneLine(c: char)
    ensures OneLine(EscapeChar(c))
  {
    if EscapeChar(c) == "\\u" + HexText(c as nat) {
      HexOneLine(c as nat);
    }
  }

  lemma {:induction false} HexOneLine(n: nat)
    ensures OneLine(HexText(n))
  {
    if n >= 16 {
      HexOneLine(n / 16);
    }
  }

  lemma KeyOneLine(key: string)
    ensures OneLine(KeyText(key))
  {
    EscapeOneLine(key);
  }

  lemma {:induction false} ValueOneLine(v: Value)
    ensures OneLine(ValueText(v))
    decreases v
  {
    match v
    case Str(s) => EscapeOneLine(s);
    case Int(i) => IntTextChars(i);
    case Bool(_) =>
    case Arr(elems) => ElemsOneLine(elems, false);
  }

  lemma {:induction false} ElemsOneLine(elems: seq<Value>, more: bool)
    ensures OneLine(ElemsText(elems, more))
    decreases elems
  {
    if elems != [] {
      ValueOneLine(elems[0]);
      ElemsOneLine(elems[1..], true);
    }
  }

  lemma {:induction false} PathOneLine(path: seq<string>, more: bool)
    ensures OneLine(PathText(path, more))
  {
    if path != [] {
      KeyOneLine(path[0]);
      PathOneLine(path[1..], true);
    }
  }

  predicate AllBlank(s: string) {
    forall i :: 0 <= i < |s| ==> IsBlank(s[i])
  }

  lemma {:induction false} RepeatBlank(s: string, n: nat)
    requires AllBlank(s)
    ensures AllBlank(Repeat(s, n))
  {
    if n > 0 {
      RepeatBlank(s, n - 1);
    }
  }

  lemma LineOneLine(l: Line, indent: string)
    requires AllBlank(indent)
    ensures OneLine(Renderer(indent)(l))
  {
    hide Repeat, PathText, KeyText, ValueText;
    match l
    case Header(path, inArray) =>
      if path != [] {
        RepeatBlank(indent, |path| - 1);
        PathOneLine(path, false);
      }
    case Item(depth, key, v) =>
      RepeatBlank(indent, depth);
      KeyOneLine(key);
      ValueOneLine(v);
  }

  lemma {:induction false} TakeOneLine(l: string, more: string)
    requires OneLine(l)
    ensures TakeLine(l + "\n" + more) == (l, more, true)
  {
    var s := l + "\n" + more;
    if l == "" {
      assert s == "\n" + more;
    } else {
      assert s[1..] == l[1..] + "\n" + more;
      TakeOneLine(l[1..], more);
      assert l == [l[0]] + l[1..];
    }
  }

  lemma {:induction false} SkipIndent(blank: string, s: string)
    requires AllBlank(blank) && s != "" && !IsBlank(s[0])
    ensures ConsumeWhitespace(blank + s) == s
  {
    if blank == "" {
      assert blank + s == s;
    } else {
      assert (blank + s)[1..] == blank[1..] + s;
      SkipIndent(blank[1..], s);
    }
  }

  // ----- one line -------------------------------------------------------------------------

  lemma BracketLine(blank: string, s: string, root: Table, cur: seq<string>, inp: Input)
    requires AllBlank(blank) && s != "" && s[0] == '[' && ParseTable(s, root).Ok? && HasPath(root, cur)
    ensures var w := ParseTable(s, root).value; ParseLine(St(blank + s, inp), root, cur) == Ok((w.root, w.cur, inp))
  {
    hide ParseTable;
    SkipIndent(blank, s);
  }

  lemma SingleStep(p: string, part: string, root: Table, w: Walk)
    requires p != "" && p[0] != ']' && p[0] != '[' && w.Valid()
    requires ParseKey(p + "]", ForTable, Walk(root, [], false)) == Ok((part, "]", w))
    requires TablePart(w, part).Ok? && TablePart(w, part).value.inserted
    ensures ParseTable("[" + p + "]", root) == TablePart(w, part)
  {
    hide ParseKey, TablePart;
    assert ("[" + p + "]")[1..] == p + "]";
    assert "]"[1..] == "";
  }

  lemma DoubleStep(p: string, part: string, root: Table, w: Walk)
    requires p != "" && p[0] != ']' && w.Valid()
    requires ParseKey(p + "]]", ForTableArray, Walk(root, [], false)) == Ok((part, "]]", w))
    requires TableArrayPart(w, part, true).Ok?
    ensures ParseTable("[[" + p + "]]", root) == TableArrayPart(w, part, true)
  {
    hide ParseKey, TableArrayPart;
    assert ("[[" + p + "]]")[1..] == "[" + p + "]]";
    assert ("[" + p + "]]")[1..] == p + "]]";
    assert "]]"[2..] == "";
  }

  /** A header of a table that does not exist yet. */
  lemma TableHeaderLine(blank: string, path: seq<string>, key: string, root: Table, cur: seq<string>, inp: Input)
    requires AllBlank(blank) && PrintablePath(path + [key])
    requires HasPath(root, cur) && HasPath(root, path) && !Contains(At(root, path), key)
    ensures ParseLine(St(blank + HeaderText(path + [key], false), inp), root, cur)
         == Ok((With(root, path, Insert(At(root, path), key, Tab(EMPTY_TABLE))), path + [key], inp))
  {
    hide PathText, ParseKey, With, At, ParseTable, ParseLine;
    var full := path + [key];
    var p := PathText(full, false);
    assert full[..|full| - 1] == path && [] + path == path;
    HeaderHead(full);
    assert PrintableKey(full[|full| - 1]);
    ParsePathText(full, "]", ForTable, Walk(root, [], false));
    SingleStep(p, key, root, Walk(root, path, false));
    BracketLine(blank, HeaderText(full, false), root, cur, inp);
  }

  /** A header of an element of a table array, new or not. */
  lemma ArrayHeaderLine(blank: string, path: seq<string>, key: string, ts: seq<Table>, root: Table,
                        cur: seq<string>, inp: Input)
    requires AllBlank(blank) && PrintablePath(path + [key])
    requires HasPath(root, cur) && HasPath(root, path)
    requires if ts == [] then !Contains(At(root, path), key)
             else Contains(At(root, path), key) && Get(At(root, path), key) == TabArr(ts)
    ensures ParseLine(St(blank + HeaderText(path + [key], true), inp), root, cur)
         == Ok((With(root, path, Insert(At(root, path), key, TabArr(ts + [EMPTY_TABLE]))), path + [key], inp))
  {
    hide PathText, ParseKey, With, At, ParseTable, ParseLine;
    var full := path + [key];
    var p := PathText(full, false);
    assert full[..|full| - 1] == path && [] + path == path;
    HeaderHead(full);
    assert PrintableKey(full[|full| - 1]);
    ParsePathText(full, "]]", ForTableArray, Walk(root, [], false));
    assert [] + [EMPTY_TABLE] == [EMPTY_TABLE];
    DoubleStep(p, key, root, Walk(root, path, false));
    BracketLine(blank, HeaderText(full, true), root, cur, inp);
  }

  lemma HeaderHead(path: seq<string>)
    requires path != [] && PrintablePath(path)
    ensures var s := PathText(path, false); s != "" && s[0] != ']' && s[0] != '['
  {
    hide KeyText, EscapeString;
    var k, p := KeyText(path[0]), PathText(path[1..], true);
    assert PathText(path, false) == k + p by {
      assert "" + k + p == k + p;
    }
    KeyTextHead(path[0], p);
  }

  /** A value under a key that does not exist yet. */
  lemma ItemLine(blank: string, key: string, v: Value, root: Table, cur: seq<string>, inp: Input)
    requires AllBlank(blank) && PrintableKey(key) && PrintableValue(v)
    requires HasPath(root, cur) && !Contains(At(root, cur), key)
    ensures ParseLine(St(blank + ItemText(key, v), inp), root, cur)
         == Ok((With(root, cur, Insert(At(root, cur), key, Leaf(v))), cur, inp))
  {
    hide KeyText, ValueText, ParseKey, ParseSimpleKey, ParseValue, With, At, ConsumeWhitespace, PrintableValue;
    var k, text := KeyText(key), ValueText(v);
    var s, rest := ItemText(key, v), "= " + text;
    assert s == k + " " + rest;
    assert s == k + (" " + rest);
    KeyTextHead(key, " " + rest);
    SkipIndent(blank, s);
    SimpleKeyText(key, " ", rest);
    LastKeyStep(s, rest, key, ForItem, Walk(root, cur, false));
    assert rest[1..] == " " + text;
    ValueTextHead(v, "");
    assert text + "" == text;
    SkipIndent(" ", text);
    ParseValueText(v, "", inp);
    assert ConsumeWhitespace("") == "";
  }

  /** A key that the current table has already is an error, whatever is behind it. */
  lemma RepeatedItemLine(blank: string, key: string, rest: string, root: Table, cur: seq<string>, inp: Input)
    requires AllBlank(blank) && PrintableKey(key)
    requires HasPath(root, cur) && Contains(At(root, cur), key)
    ensures ParseLine(St(blank + KeyText(key) + " = " + rest, inp), root, cur) == Err(KeyAlreadyPresent)
  {
    hide KeyText, ParseKey, ParseSimpleKey, ParseValue, With, At, ConsumeWhitespace;
    var k, tail := KeyText(key), "= " + rest;
    var s := k + " " + tail;
    assert blank + k + " = " + rest == blank + s;
    assert s == k + (" " + tail);
    KeyTextHead(key, " " + tail);
    SkipIndent(blank, s);
    SimpleKeyText(key, " ", tail);
    LastKeyStep(s, tail, key, ForItem, Walk(root, cur, false));
  }

  // ----- texts ----------------------------------------------------------------------------

  /** Where the parser stands between two lines. */
  datatype Place = Place(root: Table, cur: seq<string>) {
    predicate Valid() {
      HasPath(root, cur)
    }
  }

  function From(text: string, p: Place): Parsed<Table>
    requires p.Valid()
  {
    ParseLines(Input(text, false), p.root, p.cur)
  }

  /** Reading `text`, whatever follows it, takes the parser from `p` to `q`. */
  ghost predicate Reads(text: string, p: Place, q: Place) {
    p.Valid() && q.Valid() && forall more :: From(text + more, p) == From(more, q)
  }

  lemma ReadsThen(a: string, b: string, p: Place, q: Place, r: Place)
    requires Reads(a, p, q) && Reads(b, q, r)
    ensures Reads(a + b, p, r)
  {
    hide From;
    forall more ensures From(a + b + more, p) == From(more, r) {
      assert a + b + more == a + (b + more);
    }
  }

  lemma ReadsNothing(p: Place)
    requires p.Valid()
    ensures Reads("", p, p)
  {
    hide From;
    forall more ensures From("" + more, p) == From(more, p) {
      assert "" + more == more;
    }
  }

  lemma ReadsLine(l: string, p: Place, q: Place)
    requires OneLine(l) && p.Valid() && q.Valid()
    requires forall inp :: ParseLine(St(l, inp), p.root, p.cur) == Ok((q.root, q.cur, inp))
    ensures Reads(l + "\n", p, q)
  {
    hide ParseLine, HasPath;
    forall more ensures From(l + "\n" + more, p) == From(more, q) {
      TakeOneLine(l, more);
      assert ParseLine(St(l, Input(more, false)), p.root, p.cur) == Ok((q.root, q.cur, Input(more, false)));
    }
  }

  lemma TextOne(l: Line, render: Line -> string)
    ensures Text([l], render) == render(l) + "\n"
  {
    assert [l][1..] == [];
    assert Text([l][1..], render) == "";
  }

  // ----- the values of a table ------------------------------------------------------------

  lemma NewKey(done: seq<Entry>, key: string, n: Node)
    requires forall i :: 0 <= i < |done| ==> done[i].key != key
    ensures !Contains(Table(done), key)
    ensures Insert(Table(done), key, n) == Table(done + [Entry(key, n)])
  {
  }

  predicate Apart(done: seq<Entry>, es: seq<Entry>) {
    forall i, j :: 0 <= i < |done| && 0 <= j < |es| ==> done[i].key != es[j].key
  }

  lemma {:induction false} ItemsRead(es: seq<Entry>, indent: string, root: Table, path: seq<string>, done: seq<Entry>)
    requires AllBlank(indent) && PrintableEntries(es) && UniqueKeys(es) && Apart(done, es)
    requires HasPath(root, path) && At(root, path) == Table(done)
    ensures HasPath(With(root, path, Table(done + Leaves(es))), path)
    ensures Reads(Text(ItemLines(es, |path|), Renderer(indent)), Place(root, path),
                  Place(With(root, path, Table(done + Leaves(es))), path))
    decreases |es|
  {
    hide Reads, With, At, HasPath, Renderer, PrintableNode;
    WithAt(root, path, Table(done + Leaves(es)));
    if es == [] {
      assert done + Leaves(es) == done;
      WithSame(root, path);
      ReadsNothing(Place(root, path));
    } else {
      var e, rest := es[0], es[1..];
      if e.node.Leaf? {
        var done' := done + [e];
        var root' := ItemReads(e, indent, root, path, done);
        assert Apart(done', rest);
        ItemsRead(rest, indent, root', path, done');
        assert done + Leaves(es) == done' + Leaves(rest);
        WithWith(root, path, Table(done'), Table(done + Leaves(es)));
        var l := Item(|path|, e.key, e.node.v);
        TextAppend([l], ItemLines(rest, |path|), Renderer(indent));
        ReadsThen(Text([l], Renderer(indent)), Text(ItemLines(rest, |path|), Renderer(indent)), Place(root, path),
                  Place(root', path), Place(With(root, path, Table(done + Leaves(es))), path));
      } else {
        ItemsRead(rest, indent, root, path, done);
      }
    }
  }

  lemma {:induction false} WithSame(root: Table, path: seq<string>)
    requires HasPath(root, path)
    ensures With(root, path, At(root, path)) == root
    decreases |path|
  {
    if path != [] {
      var i := Index(root.entries, path[0]);
      assert root.entries[i] == Entry(path[0], Get(root, path[0]));
      match Get(root, path[0])
      case Tab(sub) => WithSame(sub, path[1..]);
      case TabArr(ts) =>
        WithSame(ts[|ts| - 1], path[1..]);
        assert ts[|ts| - 1 := ts[|ts| - 1]] == ts;
    }
  }

  lemma ItemReads(e: Entry, indent: string, root: Table, path: seq<string>, done: seq<Entry>) returns (root': Table)
    requires AllBlank(indent) && e.node.Leaf? && PrintableKey(e.key) && PrintableNode(e.node)
    requires forall i :: 0 <= i < |done| ==> done[i].key != e.key
    requires HasPath(root, path) && At(root, path) == Table(done)
    ensures root' == With(root, path, Table(done + [e])) && HasPath(root', path) && At(root', path) == Table(done + [e])
    ensures Reads(Text([Item(|path|, e.key, e.node.v)], Renderer(indent)), Place(root, path), Place(root', path))
  {
    hide Reads, With, At, HasPath, ParseLine, ItemText, ConsumeWhitespace, PrintableValue;
    var l := Item(|path|, e.key, e.node.v);
    var text := Renderer(indent)(l);
    root' := With(root, path, Table(done + [e]));
    WithAt(root, path, Table(done + [e]));
    NewKey(done, e.key, e.node);
    RepeatBlank(indent, |path|);
    forall inp ensures ParseLine(St(text, inp), root, path) == Ok((root', path, inp)) {
      ItemLine(Repeat(indent, |path|), e.key, e.node.v, root, path, inp);
    }
    LineOneLine(l, indent);
    ReadsLine(text, Place(root, path), Place(root', path));
    TextOne(l, Renderer(indent));
  }

  // ----- tables ---------------------------------------------------------------------------

  /** A header line takes the parser to a new empty table under `key`, or at the end of the array there. */
  lemma HeaderReads(indent: string, p: Place, path: seq<string>, key: string, n: Node, inArray: bool) returns (q: Place)
    requires AllBlank(indent) && PrintablePath(path + [key]) && p.Valid() && HasPath(p.root, path)
    requires if !inArray then n == Tab(EMPTY_TABLE) && !Contains(At(p.root, path), key)
             else n.TabArr? && n.tables != [] && n.tables[|n.tables| - 1] == EMPTY_TABLE &&
                  if |n.tables| == 1 then !Contains(At(p.root, path), key)
                  else Contains(At(p.root, path), key) &&
                       Get(At(p.root, path), key) == TabArr(n.tables[..|n.tables| - 1])
    ensures q == Place(With(p.root, path, Insert(At(p.root, path), key, n)), path + [key]) && q.Valid()
    ensures At(q.root, q.cur) == EMPTY_TABLE
    ensures Reads(Text([Header(path + [key], inArray)], Renderer(indent)), p, q)
  {
    hide Reads, With, At, ParseLine, HeaderText, Insert, Get, Contains;
    var l := Header(path + [key], inArray);
    var blank := Repeat(indent, |path|);
    var text := Renderer(indent)(l);
    assert text == blank + HeaderText(path + [key], inArray);
    RepeatBlank(indent, |path|);
    q := Place(With(p.root, path, Insert(At(p.root, path), key, n)), path + [key]);
    OneEntryPath(key, n);
    InsertThenFill(p.root, path, key, n, EMPTY_TABLE);
    forall inp ensures ParseLine(St(text, inp), p.root, p.cur) == Ok((q.root, q.cur, inp)) {
      if inArray {
        var ts := n.tables[..|n.tables| - 1];
        assert ts + [EMPTY_TABLE] == n.tables;
        ArrayHeaderLine(blank, path, key, ts, p.root, p.cur, inp);
      } else {
        TableHeaderLine(blank, path, key, p.root, p.cur, inp);
      }
    }
    LineOneLine(l, indent);
    ReadsLine(text, p, q);
    TextOne(l, Renderer(indent));
  }

  lemma OneEntryPath(key: string, n: Node)
    requires n.Tab? || (n.TabArr? && n.tables != [])
    ensures HasPath(Table([Entry(key, n)]), [key])
  {
    var t := Table([Entry(key, n)]);
    assert Index(t.entries, key) == 0;
    assert [key][1..] == [];
  }

  /** The lines of a table's values and sub-tables fill the empty table at `p.cur`. */
  lemma {:induction false} BodyReads(t: Table, indent: string, p: Place) returns (q: Place)
    requires AllBlank(indent) && PrintableTable(t) && PrintablePath(p.cur)
    requires p.Valid() && At(p.root, p.cur) == EMPTY_TABLE
    ensures q.Valid() && q.root == With(p.root, p.cur, Sorted(t))
    ensures Reads(Text(BodyLines(t, p.cur), Renderer(indent)), p, q)
    decreases t, 2, 0
  {
    hide Reads, With, At, HasPath, Renderer, PrintableNode;
    var es, path, leaves := t.entries, p.cur, Table(Leaves(t.entries));
    ItemsRead(es, indent, p.root, path, []);
    assert [] + Leaves(es) == Leaves(es);
    var p1 := Place(With(p.root, path, leaves), path);
    WithAt(p.root, path, leaves);
    LeavesApart(es, 0);
    assert es[0..] == es;
    q := SubsRead(t, 0, indent, p1, path, Leaves(es));
    WithWith(p.root, path, leaves, Sorted(t));
    TextAppend(ItemLines(es, |path|), SubLines(es, path), Renderer(indent));
    ReadsThen(Text(ItemLines(es, |path|), Renderer(indent)), Text(SubLines(es, path), Renderer(indent)), p, p1, q);
  }

  predicate ApartFromSubs(done: seq<Entry>, es: seq<Entry>) {
    forall i, j :: 0 <= i < |done| && 0 <= j < |es| && !es[j].node.Leaf? ==> done[i].key != es[j].key
  }

  lemma {:induction false} LeafIsEntry(es: seq<Entry>, k: nat) returns (j: nat)
    requires k < |Leaves(es)|
    ensures j < |es| && es[j] == Leaves(es)[k] && es[j].node.Leaf?
  {
    if es[0].node.Leaf? {
      if k == 0 {
        j := 0;
      } else {
        j := LeafIsEntry(es[1..], k - 1);
        j := j + 1;
      }
    } else {
      j := LeafIsEntry(es[1..], k);
      j := j + 1;
    }
  }

  lemma LeavesApart(es: seq<Entry>, p: nat)
    requires UniqueKeys(es) && p <= |es|
    ensures ApartFromSubs(Leaves(es), es[p..])
  {
    forall i, j | 0 <= i < |Leaves(es)| && 0 <= j < |es[p..]| && !es[p..][j].node.Leaf?
      ensures Leaves(es)[i].key != es[p..][j].key
    {
      var k := LeafIsEntry(es, i);
      assert es[p..][j] == es[p + j];
    }
  }

  /** The tables of `t` from entry `i` on. */
  lemma {:induction false} SubsRead(t: Table, i: nat, indent: string, p: Place, path: seq<string>, done: seq<Entry>)
    returns (q: Place)
    requires AllBlank(indent) && PrintableTable(t) && PrintablePath(path) && i <= |t.entries|
    requires ApartFromSubs(done, t.entries[i..])
    requires p.Valid() && HasPath(p.root, path) && At(p.root, path) == Table(done)
    ensures q.Valid() && q.root == With(p.root, path, Table(done + SortedSubs(t.entries[i..])))
    ensures Reads(Text(SubLines(t.entries[i..], path), Renderer(indent)), p, q)
    decreases t, 1, |t.entries| - i
  {
    hide Reads, With, At, HasPath, Renderer, PrintableNode, NodeLines, SortedNode;
    var es := t.entries[i..];
    if es == [] {
      q := p;
      assert done + SortedSubs(es) == done;
      WithSame(p.root, path);
      ReadsNothing(p);
    } else {
      var e, rest := es[0], t.entries[i + 1..];
      assert es[1..] == rest && e == t.entries[i];
      var p1 := p;
      var done' := done;
      if e.node.Leaf? {
        LeafHasNoLines(e.node, path + [e.key]);
        ReadsNothing(p);
        WithSame(p.root, path);
        assert Text([], Renderer(indent)) == "";
      } else {
        p1 := NodeReads(t, i, indent, p, path, done);
        done' := done + [Entry(e.key, SortedNode(e.node))];
        WithAt(p.root, path, Table(done'));
      }
      assert ApartFromSubs(done', rest) by {
        KeysStayApart(t, i, done, done');
      }
      q := SubsRead(t, i + 1, indent, p1, path, done');
      assert done + SortedSubs(es) == done' + SortedSubs(rest);
      WithWith(p.root, path, Table(done'), Table(done + SortedSubs(es)));
      TextAppend(NodeLines(e.node, path + [e.key]), SubLines(rest, path), Renderer(indent));
      ReadsThen(Text(NodeLines(e.node, path + [e.key]), Renderer(indent)), Text(SubLines(rest, path), Renderer(indent)),
                p, p1, q);
    }
  }

  lemma LeafHasNoLines(n: Node, path: seq<string>)
    requires n.Leaf?
    ensures NodeLines(n, path) == []
  {
  }

  lemma KeysStayApart(t: Table, i: nat, done: seq<Entry>, done': seq<Entry>)
    requires UniqueKeys(t.entries) && i < |t.entries| && ApartFromSubs(done, t.entries[i..])
    requires done' == done ||
             (|done'| == |done| + 1 && done'[..|done|] == done && done'[|done|].key == t.entries[i].key)
    ensures ApartFromSubs(done', t.entries[i + 1..])
  {
    var rest := t.entries[i + 1..];
    forall a, b | 0 <= a < |done'| && 0 <= b < |rest| && !rest[b].node.Leaf?
      ensures done'[a].key != rest[b].key
    {
      assert rest[b] == t.entries[i..][b + 1] == t.entries[i + 1 + b];
      if a < |done| {
        assert done'[a] == done'[..|done|][a];
      }
    }
  }

  /** Entry `i` of `t`, a table or table array. */
  lemma {:induction false} NodeReads(t: Table, i: nat, indent: string, p: Place, path: seq<string>, done: seq<Entry>)
    returns (q: Place)
    requires AllBlank(indent) && PrintableTable(t) && PrintablePath(path)
    requires i < |t.entries| && !t.entries[i].node.Leaf?
    requires ApartFromSubs(done, t.entries[i..])
    requires p.Valid() && HasPath(p.root, path) && At(p.root, path) == Table(done)
    ensures var e := t.entries[i];
            q.Valid() && q.root == With(p.root, path, Table(done + [Entry(e.key, SortedNode(e.node))])) &&
            Reads(Text(NodeLines(e.node, path + [e.key]), Renderer(indent)), p, q)
    decreases t, 0, 0
  {
    hide Reads, With, At, HasPath, Renderer, PrintableTable;
    var e := t.entries[i];
    assert t.entries[i..][0] == e;
    assert PrintableNode(e.node) && PrintableKey(e.key) by {
      PrintableEntry(t, i);
    }
    assert PrintablePath(path + [e.key]);
    NewKey(done, e.key, SortedNode(e.node));
    match e.node
    case Tab(sub) =>
      q := TabReads(sub, indent, p, path, e.key);
    case TabArr(ts) =>
      q := ArrayReads(ts, indent, p, path, e.key, []);
      assert [] + SortedAll(ts) == SortedAll(ts);
  }

  lemma PrintableEntry(t: Table, i: nat)
    requires PrintableTable(t) && i < |t.entries|
    ensures PrintableKey(t.entries[i].key) && PrintableNode(t.entries[i].node)
  {
  }

  lemma {:induction false} TabReads(t: Table, indent: string, p: Place, path: seq<string>, key: string)
    returns (q: Place)
    requires AllBlank(indent) && PrintableTable(t) && PrintablePath(path + [key])
    requires p.Valid() && HasPath(p.root, path) && !Contains(At(p.root, path), key)
    ensures q.Valid() && q.root == With(p.root, path, Insert(At(p.root, path), key, Tab(Sorted(t))))
    ensures Reads(Text([Header(path + [key], false)] + BodyLines(t, path + [key]), Renderer(indent)), p, q)
    decreases t, 3, 0
  {
    hide Reads, With, At, HasPath, Renderer, PrintableTable, Insert, Contains, Sorted;
    var p1 := HeaderReads(indent, p, path, key, Tab(EMPTY_TABLE), false);
    q := BodyReads(t, indent, p1);
    OneEntryPath(key, Tab(EMPTY_TABLE));
    InsertThenFill(p.root, path, key, Tab(EMPTY_TABLE), Sorted(t));
    TextAppend([Header(path + [key], false)], BodyLines(t, path + [key]), Renderer(indent));
    ReadsThen(Text([Header(path + [key], false)], Renderer(indent)),
              Text(BodyLines(t, path + [key]), Renderer(indent)), p, p1, q);
  }

  /** What is under `key` before the next element of its table array. */
  predicate HoldsArray(t: Table, key: string, done: seq<Table>) {
    if done == [] then !Contains(t, key) else Contains(t, key) && Get(t, key) == TabArr(done)
  }

  lemma {:induction false} ElementReads(t: Table, indent: string, p: Place, path: seq<string>, key: string,
                                        done: seq<Table>) returns (q: Place)
    requires AllBlank(indent) && PrintablePath(path + [key]) && PrintableTable(t)
    requires p.Valid() && HasPath(p.root, path) && HoldsArray(At(p.root, path), key, done)
    ensures q.Valid() && q.root == With(p.root, path, Insert(At(p.root, path), key, TabArr(done + [Sorted(t)])))
    ensures Reads(Text([Header(path + [key], true)] + BodyLines(t, path + [key]), Renderer(indent)), p, q)
    decreases t, 3, 0
  {
    hide Reads, With, At, HasPath, Renderer, PrintableTable, Insert, Contains, Get, Sorted, BodyLines;
    var full := path + [key];
    var n, n' := TabArr(done + [EMPTY_TABLE]), TabArr(done + [Sorted(t)]);
    assert n.tables[..|n.tables| - 1] == done;
    var p1 := HeaderReads(indent, p, path, key, n, true);
    q := BodyReads(t, indent, p1);
    OneEntryPath(key, n);
    InsertThenFill(p.root, path, key, n, Sorted(t));
    assert n.tables[|n.tables| - 1 := Sorted(t)] == n'.tables;
    TextAppend([Header(full, true)], BodyLines(t, full), Renderer(indent));
    ReadsThen(Text([Header(full, true)], Renderer(indent)), Text(BodyLines(t, full), Renderer(indent)), p, p1, q);
  }

  lemma ArrayGrows(root: Table, path: seq<string>, key: string, ts: seq<Table>, all: seq<Table>)
    requires HasPath(root, path) && ts != []
    ensures var root' := With(root, path, Insert(At(root, path), key, TabArr(ts)));
            HasPath(root', path) && HoldsArray(At(root', path), key, ts) &&
            With(root', path, Insert(At(root', path), key, TabArr(all)))
              == With(root, path, Insert(At(root, path), key, TabArr(all)))
  {
    hide With, At, HasPath, Insert, Contains, Get;
    var here := At(root, path);
    WithAt(root, path, Insert(here, key, TabArr(ts)));
    InsertGet(here, key, TabArr(ts));
    InsertInsert(here, key, TabArr(ts), TabArr(all));
    WithWith(root, path, Insert(here, key, TabArr(ts)), Insert(here, key, TabArr(all)));
  }

  lemma ArrayStep(ts: seq<Table>, path: seq<string>, done: seq<Table>)
    requires ts != []
    ensures var first := [Header(path, true)] + BodyLines(ts[0], path);
            ArrayLines(ts, path) == first + ArrayLines(ts[1..], path) &&
            (ts[1..] == [] ==> ArrayLines(ts, path) == first)
    ensures done + SortedAll(ts) == done + [Sorted(ts[0])] + SortedAll(ts[1..])
    ensures ts[1..] == [] ==> done + SortedAll(ts) == done + [Sorted(ts[0])]
  {
    hide BodyLines, Sorted;
  }

  /** The elements of a table array, behind those in `done`. */
  lemma {:induction false} ArrayReads(ts: seq<Table>, indent: string, p: Place, path: seq<string>, key: string,
                                      done: seq<Table>) returns (q: Place)
    requires AllBlank(indent) && PrintablePath(path + [key]) && ts != []
    requires forall i :: 0 <= i < |ts| ==> PrintableTable(ts[i])
    requires p.Valid() && HasPath(p.root, path) && HoldsArray(At(p.root, path), key, done)
    ensures q.Valid() && q.root == With(p.root, path, Insert(At(p.root, path), key, TabArr(done + SortedAll(ts))))
    ensures Reads(Text(ArrayLines(ts, path + [key]), Renderer(indent)), p, q)
    decreases ts, 3, 0
  {
    hide Reads, With, At, HasPath, Renderer, PrintableTable, Insert, Contains, Get, Sorted, BodyLines, HoldsArray, Text;
    hide AllBlank, PrintablePath, ArrayLines, SortedAll;
    var full, rest := path + [key], ts[1..];
    var done' := done + [Sorted(ts[0])];
    var p2 := ElementReads(ts[0], indent, p, path, key, done);
    var first := [Header(full, true)] + BodyLines(ts[0], full);
    ArrayStep(ts, full, done);
    if rest == [] {
      q := p2;
    } else {
      ArrayGrows(p.root, path, key, done', done' + SortedAll(rest));
      q := ArrayReads(rest, indent, p2, path, key, done');
      TextAppend(first, ArrayLines(rest, full), Renderer(indent));
      ReadsThen(Text(first, Renderer(indent)), Text(ArrayLines(rest, full), Renderer(indent)), p, p2, q);
    }
  }

  // ----- documents ------------------------------------------------------------------------

  lemma NothingLeft(p: Place)
    requires p.Valid()
    ensures From("", p) == Ok(p.root) && From("\n", p) == Ok(p.root)
  {
    hide HasPath;
    assert TakeLine("\n") == ("", "", true);
    assert ParseLine(St("", Input("", true)), p.root, p.cur) == Ok((p.root, p.cur, Input("", true)));
    assert ParseLine(St("", Input("", false)), p.root, p.cur) == Ok((p.root, p.cur, Input("", false)));
  }

  /** Parsing what the writer prints gives back the tree, with the values of each table before its tables. */
  lemma ParseWritten(t: Table, indent: string)
    requires AllBlank(indent) && PrintableTable(t)
    ensures Parse(Written(t, indent)) == Ok(Sorted(t))
  {
    hide BodyLines, ParseLines, From;
    var p := Place(EMPTY_TABLE, []);
    WrittenIsLines(t, indent);
    assert Parse(Written(t, indent)) == From(Written(t, indent), p) by {
      ParseIsFrom(Written(t, indent));
    }
    if t.entries == [] {
      assert Sorted(t).entries == [];
      NothingLeft(p);
    } else {
      var text := Text(BodyLines(t, []), Renderer(indent));
      var q := BodyReads(t, indent, p);
      assert text + "" == text;
      assert From(text + "", p) == From("", q);
      NothingLeft(q);
    }
  }

  lemma ParseIsFrom(text: string)
    ensures Parse(text) == From(text, Place(EMPTY_TABLE, []))
  {
  }

  /** Printing a table and parsing the text is the identity on the map the table stands for. */
  lemma RoundTrip(t: Table, indent: string)
    requires AllBlank(indent) && PrintableTable(t)
    ensures Parse(Written(t, indent)).Ok? && Meaning(Parse(Written(t, indent)).value) == Meaning(t)
  {
    hide Parse, Written, Meaning, Sorted;
    ParseWritten(t, indent);
    SortedMeaning(t);
  }
}
