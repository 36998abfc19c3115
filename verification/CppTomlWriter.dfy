/** toml_writer of ssar/cpptoml.h: what it streams, as a function, and the writer object. */
module CppTomlWriter {
  import opened CppTomlText
  import opened CppTomlTree

  // ----- the pieces of a line -------------------------------------------------------------

  predicate IsBareChar(c: char) {
    'A' <= c <= 'Z' || 'a' <= c <= 'z' || '0' <= c <= '9' || c == '_' || c == '-'
  }

  predicate IsBare(key: string) {
    forall i :: 0 <= i < |key| ==> IsBareChar(key[i])
  }

  function KeyText(key: string): string {
    if IsBare(key) then key else "\"" + EscapeString(key) + "\""
  }

  /** Exactly the keys of letters, digits, underscores and hyphens are written without quotes. */
  lemma KeyIsWrittenBareIff(key: string)
    ensures KeyText(key) == key <==>
              forall i :: 0 <= i < |key| ==>
                'A' <= key[i] <= 'Z' || 'a' <= key[i] <= 'z' || '0' <= key[i] <= '9' || key[i] == '_' || key[i] == '-'
  {
    if !IsBare(key) {
      EscapeIsLonger(key);
    }
  }

  lemma {:induction false} EscapeIsLonger(s: string)
    ensures |EscapeString(s)| >= |s|
  {
    if s != "" {
      EscapeIsLonger(s[1..]);
    }
  }

  /** The components of a path, each but the first behind a dot. */
  function PathText(path: seq<string>, more: bool): string {
    if path == [] then "" else (if more then "." else "") + KeyText(path[0]) + PathText(path[1..], true)
  }

  function Repeat(s: string, n: nat): string {
    if n == 0 then "" else s + Repeat(s, n - 1)
  }

  function ValueText(v: Value): (s: string)
    ensures s != ""
  {
    match v
    case Str(s) => "\"" + EscapeString(s) + "\""
    case Int(i) => IntText(i)
    case Bool(b) => if b then "true" else "false"
    case Arr(elems) => "[" + ElemsText(elems, false) + "]"
  }

  /** The elements of an array, each but the first behind a comma. */
  function ElemsText(elems: seq<Value>, more: bool): string {
    if elems == [] then "" else (if more then ", " else "") + ValueText(elems[0]) + ElemsText(elems[1..], true)
  }

  function HeaderText(path: seq<string>, inArray: bool): string
    requires path != []
  {
    if inArray then "[[" + PathText(path, false) + "]]" else "[" + PathText(path, false) + "]"
  }

  function ItemText(key: string, v: Value): string {
    KeyText(key) + " = " + ValueText(v)
  }

  // ----- what the writer streams ----------------------------------------------------------

  /** The stream and has_naked_endline_. */
  datatype Out = Out(text: string, naked: bool) {
    function Put(s: string): Out {
      Out(text + s, false)
    }

    function Endline(): Out {
      if naked then this else Out(text + "\n", true)
    }
  }

  function LeafKeys(es: seq<Entry>): (ks: seq<string>)
    ensures forall i :: 0 <= i < |ks| ==> Index(es, ks[i]) < |es|
  {
    if es == [] then [] else if es[0].node.Leaf? then [es[0].key] + LeafKeys(es[1..]) else LeafKeys(es[1..])
  }

  function SubKeys(es: seq<Entry>): (ks: seq<string>)
    ensures forall i :: 0 <= i < |ks| ==> Index(es, ks[i]) < |es|
  {
    if es == [] then [] else if es[0].node.Leaf? then SubKeys(es[1..]) else [es[0].key] + SubKeys(es[1..])
  }

  predicate HasAll(t: Table, ks: seq<string>) {
    forall i :: 0 <= i < |ks| ==> Contains(t, ks[i])
  }

  function WriteHeader(o: Out, indent: string, path: seq<string>, inArray: bool): Out {
    if path == [] then o else o.Put(Repeat(indent, |path| - 1) + HeaderText(path, inArray)).Endline()
  }

  function WriteTable(o: Out, indent: string, t: Table, path: seq<string>, inArray: bool): Out
    decreases t, 1, 0
  {
    var values, tables := LeafKeys(t.entries), SubKeys(t.entries);
    var o1 := WriteHeader(o, indent, path, inArray);
    var o2 := WriteValues(o1, indent, t, values, true, path);
    WriteSubs(o2, indent, t, tables, values != [], path).Endline()
  }

  function WriteValues(o: Out, indent: string, t: Table, ks: seq<string>, first: bool, path: seq<string>): Out
    requires HasAll(t, ks)
    decreases |ks|
  {
    if ks == [] then o
    else
      var o1 := if first then o else o.Endline();
      var o2 := match Get(t, ks[0])
        case Leaf(v) => o1.Put(Repeat(indent, |path|) + ItemText(ks[0], v))
        case _ => o1;
      WriteValues(o2, indent, t, ks[1..], false, path)
  }

  function WriteSubs(o: Out, indent: string, t: Table, ks: seq<string>, separate: bool, path: seq<string>): Out
    requires HasAll(t, ks)
    decreases t, 0, |ks|
  {
    if ks == [] then o
    else
      var o1 := if separate then o.Endline() else o;
      WriteSubs(WriteNode(o1, indent, Get(t, ks[0]), path + [ks[0]]), indent, t, ks[1..], true, path)
  }

  /** accept() of a table or table array. */
  function WriteNode(o: Out, indent: string, n: Node, path: seq<string>): Out
    decreases n, 0, 0
  {
    match n
    case Leaf(v) => o
    case Tab(sub) => WriteTable(o, indent, sub, path, false)
    case TabArr(subs) => WriteTableArray(o, indent, subs, true, path).Endline()
  }

  function WriteTableArray(o: Out, indent: string, ts: seq<Table>, first: bool, path: seq<string>): Out
    decreases ts, 0, 0
  {
    if ts == [] then o
    else
      var o1 := if first then o else o.Endline();
      WriteTableArray(WriteTable(o1, indent, ts[0], path, true), indent, ts[1..], false, path)
  }

  /** `stream << t` on a fresh writer. */
  function Written(t: Table, indent: string): string {
    WriteTable(Out("", false), indent, t, [], false).text
  }

  // ----- the lines of a document ----------------------------------------------------------

  datatype Line =
    | Header(path: seq<string>, inArray: bool)
    | Item(depth: nat, key: string, v: Value)

  function LineText(l: Line, indent: string): string {
    match l
    case Header(path, inArray) => if path == [] then "" else Repeat(indent, |path| - 1) + HeaderText(path, inArray)
    case Item(depth, key, v) => Repeat(indent, depth) + ItemText(key, v)
  }

  /** Each line, ended once. */
  function Text(ls: seq<Line>, render: Line -> string): string {
    if ls == [] then "" else render(ls[0]) + "\n" + Text(ls[1..], render)
  }

  function Renderer(indent: string): Line -> string {
    l => LineText(l, indent)
  }

  function ItemLines(es: seq<Entry>, depth: nat): seq<Line> {
    if es == [] then []
    else
      match es[0].node
      case Leaf(v) => [Item(depth, es[0].key, v)] + ItemLines(es[1..], depth)
      case _ => ItemLines(es[1..], depth)
  }

  /** The lines of a table's own values and of its sub-tables, without its header. */
  function BodyLines(t: Table, path: seq<string>): seq<Line>
    decreases t, 1
  {
    ItemLines(t.entries, |path|) + SubLines(t.entries, path)
  }

  function SubLines(es: seq<Entry>, path: seq<string>): seq<Line>
    decreases es, 0
  {
    if es == [] then [] else NodeLines(es[0].node, path + [es[0].key]) + SubLines(es[1..], path)
  }

  function NodeLines(n: Node, path: seq<string>): seq<Line>
    decreases n, 0
  {
    match n
    case Leaf(_) => []
    case Tab(t) => [Header(path, false)] + BodyLines(t, path)
    case TabArr(ts) => ArrayLines(ts, path)
  }

  function ArrayLines(ts: seq<Table>, path: seq<string>): seq<Line>
    decreases ts, 0
  {
    if ts == [] then [] else [Header(path, true)] + BodyLines(ts[0], path) + ArrayLines(ts[1..], path)
  }

  lemma TextStep(ls: seq<Line>, render: Line -> string)
    requires ls != []
    ensures Text(ls, render) == render(ls[0]) + "\n" + Text(ls[1..], render)
  {
  }

  lemma Regroup(a: string, b: string, c: string)
    ensures a + (b + c) == a + b + c
  {
  }

  lemma {:induction false} TextAppend(a: seq<Line>, b: seq<Line>, render: Line -> string)
    ensures Text(a + b, render) == Text(a, render) + Text(b, render)
  {
    if a == [] {
      assert a + b == b;
    } else {
      hide Text;
      TextAppend(a[1..], b, render);
      assert (a + b)[0] == a[0] && (a + b)[1..] == a[1..] + b;
      TextStep(a, render);
      TextStep(a + b, render);
      Regroup(render(a[0]) + "\n", Text(a[1..], render), Text(b, render));
    }
  }

  // ----- the writer prints those lines ----------------------------------------------------

  /** `o` after whole lines. */
  function Then(o: Out, ls: seq<Line>, render: Line -> string): Out {
    Out(o.text + Text(ls, render), true)
  }

  lemma ThenThen(o: Out, a: seq<Line>, b: seq<Line>, render: Line -> string)
    ensures Then(Then(o, a, render), b, render) == Then(o, a + b, render)
  {
    hide Text;
    TextAppend(a, b, render);
    Regroup(o.text, Text(a, render), Text(b, render));
  }

  lemma ThenOne(o: Out, l: Line, render: Line -> string)
    ensures o.Put(render(l)).Endline() == Then(o, [l], render)
  {
    assert [l][1..] == [];
    assert Text([l], render) == render(l) + "\n";
    assert o.text + render(l) + "\n" == o.text + (render(l) + "\n");
  }

  lemma ThenNone(o: Out, ls: seq<Line>, render: Line -> string)
    ensures Then(o, ls, render).Endline() == Then(o, ls, render)
    ensures ls + [] == ls == [] + ls
  {
  }

  lemma GetAt(t: Table, i: nat)
    requires UniqueKeys(t.entries) && i < |t.entries|
    ensures Contains(t, t.entries[i].key) && Get(t, t.entries[i].key) == t.entries[i].node
  {
  }

  /** The loop over the values, from entry `p` on. */
  lemma {:induction false} ValuesPrintLines(o: Out, indent: string, t: Table, p: nat, first: bool, path: seq<string>)
    requires UniqueKeys(t.entries) && p <= |t.entries|
    requires HasAll(t, LeafKeys(t.entries[p..]))
    ensures var ks, ls := LeafKeys(t.entries[p..]), ItemLines(t.entries[p..], |path|);
            var start := if first then o else o.Endline();
            (ls == [] <==> ks == []) &&
            (if ks == [] then WriteValues(o, indent, t, ks, first, path) == o
             else WriteValues(o, indent, t, ks, first, path).Endline() == Then(start, ls, Renderer(indent)))
    decreases |t.entries| - p
  {
    if p < |t.entries| {
      var es, start := t.entries[p..], if first then o else o.Endline();
      var e := es[0];
      assert es[1..] == t.entries[p + 1..];
      if e.node.Leaf? {
        GetAt(t, p);
        var ks := LeafKeys(es);
        assert ks[1..] == LeafKeys(es[1..]);
        assert forall i :: 0 <= i < |ks[1..]| ==> ks[1..][i] == ks[i + 1];
        var l := Item(|path|, e.key, e.node.v);
        assert Renderer(indent)(l) == Repeat(indent, |path|) + ItemText(e.key, e.node.v);
        var o' := start.Put(Renderer(indent)(l));
        ThenOne(start, l, Renderer(indent));
        ValuesPrintLines(o', indent, t, p + 1, false, path);
        ThenThen(start, [l], ItemLines(es[1..], |path|), Renderer(indent));
      } else {
        ValuesPrintLines(o, indent, t, p + 1, first, path);
      }
    }
  }

  lemma HeaderPrintsLine(o: Out, indent: string, path: seq<string>, inArray: bool)
    requires path != []
    ensures WriteHeader(o, indent, path, inArray) == Then(o, [Header(path, inArray)], Renderer(indent))
  {
    var l := Header(path, inArray);
    assert Renderer(indent)(l) == Repeat(indent, |path| - 1) + HeaderText(path, inArray);
    ThenOne(o, l, Renderer(indent));
  }

  function HeaderLines(path: seq<string>, inArray: bool): seq<Line> {
    if path == [] then [] else [Header(path, inArray)]
  }

  /** A table that has a header or any entry is streamed as its lines. */
  lemma {:induction false} TablePrintsLines(o: Out, indent: string, t: Table, path: seq<string>, inArray: bool)
    requires PrintableTable(t)
    requires path != [] || t.entries != []
    ensures WriteTable(o, indent, t, path, inArray)
         == Then(o, HeaderLines(path, inArray) + BodyLines(t, path), Renderer(indent))
    decreases t, 1, 0
  {
    var es := t.entries;
    var values, tables := LeafKeys(es), SubKeys(es);
    var o1 := WriteHeader(o, indent, path, inArray);
    if path != [] {
      HeaderPrintsLine(o, indent, path, inArray);
    }
    assert es[0..] == es;
    ValuesPrintLines(o1, indent, t, 0, true, path);
    var o2 := WriteValues(o1, indent, t, values, true, path);
    SubsPrintLines(o2, indent, t, 0, values != [], path);
    var o3 := WriteSubs(o2, indent, t, tables, values != [], path);
    if tables == [] {
      NoSubsNoLines(es, path);
    }
    TableOut(o, o1, o2, o3, HeaderLines(path, inArray), ItemLines(es, |path|), SubLines(es, path), Renderer(indent));
  }

  /** How the three parts of a table's output join. */
  lemma TableOut(o: Out, o1: Out, o2: Out, o3: Out, head: seq<Line>, items: seq<Line>, subs: seq<Line>,
                 render: Line -> string)
    requires if head == [] then o1 == o else o1 == Then(o, head, render)
    requires if items == [] then o2 == o1 else o2.Endline() == Then(o1, items, render)
    requires if subs == [] then o3 == o2 else o3 == Then(if items == [] then o2 else o2.Endline(), subs, render)
    requires head + items + subs != []
    ensures o3.Endline() == Then(o, head + (items + subs), render)
  {
    ThenNone(o, head, render);
    ThenNone(o1, items, render);
    ThenNone(o1, subs, render);
    ThenThen(o1, items, subs, render);
    ThenThen(o, head, items + subs, render);
    ThenThen(o, head, subs, render);
    ThenThen(o, head, items, render);
  }

  lemma {:induction false} NoSubsNoLines(es: seq<Entry>, path: seq<string>)
    requires SubKeys(es) == []
    ensures SubLines(es, path) == []
    ensures es != [] ==> LeafKeys(es) != []
  {
    if es != [] {
      NoSubsNoLines(es[1..], path);
    }
  }

  lemma NodeHasLines(n: Node, path: seq<string>)
    requires PrintableNode(n)
    ensures NodeLines(n, path) == [] <==> n.Leaf?
  {
    match n
    case Leaf(_) =>
    case Tab(t) =>
    case TabArr(ts) => assert ArrayLines(ts, path)[0] == Header(path, true);
  }

  lemma {:induction false} SubsHaveLines(es: seq<Entry>, path: seq<string>)
    requires PrintableEntries(es)
    ensures SubLines(es, path) == [] <==> SubKeys(es) == []
  {
    if es != [] {
      SubsHaveLines(es[1..], path);
      NodeHasLines(es[0].node, path + [es[0].key]);
    }
  }

  lemma {:induction false} NodePrintsLines(o: Out, indent: string, n: Node, path: seq<string>)
    requires PrintableNode(n) && !n.Leaf? && path != []
    ensures WriteNode(o, indent, n, path) == Then(o, NodeLines(n, path), Renderer(indent))
    decreases n, 0, 0
  {
    match n
    case Tab(sub) =>
      TablePrintsLines(o, indent, sub, path, false);
    case TabArr(subs) =>
      ArrayPrintsLines(o, indent, subs, true, path);
      ThenNone(o, ArrayLines(subs, path), Renderer(indent));
  }

  /** The loop over the tables, from entry `p` on. */
  lemma {:induction false} SubsPrintLines(o: Out, indent: string, t: Table, p: nat, separate: bool, path: seq<string>)
    requires PrintableTable(t) && p <= |t.entries|
    requires HasAll(t, SubKeys(t.entries[p..]))
    ensures var ks, ls := SubKeys(t.entries[p..]), SubLines(t.entries[p..], path);
            (ls == [] <==> ks == []) &&
            (ks == [] ==> WriteSubs(o, indent, t, ks, separate, path) == o) &&
            (ks != [] ==>
              WriteSubs(o, indent, t, ks, separate, path)
                == Then(if separate then o.Endline() else o, ls, Renderer(indent)))
    decreases t, 0, |t.entries| - p
  {
    var es, start := t.entries[p..], if separate then o.Endline() else o;
    SubsHaveLines(es, path);
    if es != [] {
      var e, rest := es[0], t.entries[p + 1..];
      assert es[1..] == rest;
      var ls := NodeLines(e.node, path + [e.key]);
      if e.node.Leaf? {
        SubsPrintLines(o, indent, t, p + 1, separate, path);
        assert [] + SubLines(rest, path) == SubLines(rest, path);
      } else {
        GetAt(t, p);
        SubKeysStep(t, p);
        NodePrintsLines(start, indent, e.node, path + [e.key]);
        var o2 := Then(start, ls, Renderer(indent));
        SubsPrintLines(o2, indent, t, p + 1, true, path);
        ThenNone(start, ls, Renderer(indent));
        ThenThen(start, ls, SubLines(rest, path), Renderer(indent));
        assert WriteSubs(o, indent, t, SubKeys(es), separate, path)
            == WriteSubs(o2, indent, t, SubKeys(rest), true, path);
      }
    }
  }

  lemma SubKeysStep(t: Table, p: nat)
    requires p < |t.entries| && !t.entries[p].node.Leaf?
    requires HasAll(t, SubKeys(t.entries[p..]))
    ensures SubKeys(t.entries[p..])[0] == t.entries[p].key
    ensures SubKeys(t.entries[p..])[1..] == SubKeys(t.entries[p + 1..])
    ensures HasAll(t, SubKeys(t.entries[p + 1..]))
  {
    var ks := SubKeys(t.entries[p..]);
    assert t.entries[p..][1..] == t.entries[p + 1..];
    assert forall i :: 0 <= i < |ks[1..]| ==> ks[1..][i] == ks[i + 1];
  }

  lemma {:induction false} ArrayPrintsLines(o: Out, indent: string, ts: seq<Table>, first: bool, path: seq<string>)
    requires forall i :: 0 <= i < |ts| ==> PrintableTable(ts[i])
    requires path != [] && ts != []
    ensures WriteTableArray(o, indent, ts, first, path)
         == Then(if first then o else o.Endline(), ArrayLines(ts, path), Renderer(indent))
    decreases ts, 0, 0
  {
    var start := if first then o else o.Endline();
    var ls := [Header(path, true)] + BodyLines(ts[0], path);
    TablePrintsLines(start, indent, ts[0], path, true);
    var o2 := Then(start, ls, Renderer(indent));
    ThenNone(start, ls, Renderer(indent));
    if |ts| == 1 {
      assert ts[1..] == [];
    } else {
      ArrayPrintsLines(o2, indent, ts[1..], false, path);
      ThenThen(start, ls, ArrayLines(ts[1..], path), Renderer(indent));
    }
  }

  /** The whole document is its lines, each ended once: has_naked_endline_ suppresses every other newline. */
  lemma WrittenIsLines(t: Table, indent: string)
    requires PrintableTable(t)
    ensures Written(t, indent) == if t.entries == [] then "\n" else Text(BodyLines(t, []), Renderer(indent))
  {
    if t.entries != [] {
      TablePrintsLines(Out("", false), indent, t, [], false);
      assert HeaderLines([], false) + BodyLines(t, []) == BodyLines(t, []);
    }
  }
}
