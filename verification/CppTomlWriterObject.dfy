/** The toml_writer object of ssar/cpptoml.h: it pushes and pops its path, and keeps
    has_naked_endline_, while it streams. */
module CppTomlWriterObject {
  import opened CppTomlText
  import opened CppTomlTree
  import opened CppTomlWriter

  class TomlWriter {
    var stream: string
    const indentText: string
    var path: seq<string>
    var hasNakedEndline: bool

    constructor (indentSpace: string)
      ensures stream == "" && path == [] && !hasNakedEndline && indentText == indentSpace
    {
      stream, path, hasNakedEndline := "", [], false;
      indentText := indentSpace;
    }

    function Now(): Out
      reads this
    {
      Out(stream, hasNakedEndline)
    }

    method Write(s: string)
      modifies this`stream, this`hasNakedEndline
      ensures Now() == old(Now()).Put(s)
    {
      stream := stream + s;
      hasNakedEndline := false;
    }

    method Endline()
      modifies this`stream, this`hasNakedEndline
      ensures Now() == old(Now()).Endline()
    {
      if !hasNakedEndline {
        stream := stream + "\n";
        hasNakedEndline := true;
      }
    }

    /** One indentation for each component of the path but the first. */
    method Indent()
      modifies this`stream, this`hasNakedEndline
      ensures stream == old(stream) + Repeat(indentText, if path == [] then 0 else |path| - 1)
    {
      var i := 1;
      while i < |path|
        invariant 1 <= i && (path == [] ==> i == 1) && (path != [] ==> i <= |path|)
        invariant stream == old(stream) + Repeat(indentText, i - 1)
      {
        RepeatMore(indentText, i - 1);
        PutTwo(Out(old(stream), false), Repeat(indentText, i - 1), indentText);
        Write(indentText);
        i := i + 1;
      }
    }

    method WriteQuoted(s: string)
      modifies this`stream, this`hasNakedEndline
      ensures Now() == old(Now()).Put("\"" + EscapeString(s) + "\"")
    {
      ghost var o := Now();
      var escaped := EscapeStringLoop(s);
      Write("\"");
      Write(escaped);
      Write("\"");
      PutThree(o, "\"", escaped, "\"");
    }

    method WriteKey(key: string)
      modifies this`stream, this`hasNakedEndline
      ensures Now() == old(Now()).Put(KeyText(key))
    {
      if IsBare(key) {
        Write(key);
      } else {
        WriteQuoted(key);
      }
    }

    /** The components of the path, with dots between. */
    method WritePath()
      requires path != []
      modifies this`stream, this`hasNakedEndline
      ensures Now() == old(Now()).Put(PathText(path, false))
    {
      assert path[0..] == path;
      var i := 0;
      while i < |path|
        invariant 0 <= i <= |path|
        invariant stream + PathText(path[i..], i > 0) == old(stream) + PathText(path, false)
        invariant i > 0 ==> !hasNakedEndline
      {
        ghost var before, rest := stream, path[i + 1..];
        ghost var dot := if i > 0 then "." else "";
        assert path[i..][0] == path[i] && path[i..][1..] == rest;
        Joined(before, dot, KeyText(path[i]), PathText(rest, true));
        if i > 0 {
          Write(".");
        }
        WriteKey(path[i]);
        assert i == 0 ==> before + dot == before;
        i := i + 1;
      }
    }

    /** The path in the brackets of a table or of a table array. */
    method WriteBracketed(inArray: bool)
      requires path != []
      modifies this`stream, this`hasNakedEndline
      ensures Now() == old(Now()).Put(HeaderText(path, inArray))
    {
      ghost var o, p := Now(), PathText(path, false);
      Write("[");
      if inArray {
        Write("[");
      }
      WritePath();
      if inArray {
        Write("]");
      }
      Write("]");
      if inArray {
        PutFive(o, "[", "[", p, "]", "]");
        assert "[" + "[" == "[[" && "]" + "]" == "]]";
      } else {
        PutThree(o, "[", p, "]");
      }
    }

    /** write_table_header. */
    method WriteTableHeader(inArray: bool)
      modifies this`stream, this`hasNakedEndline
      ensures Now() == WriteHeader(old(Now()), indentText, path, inArray)
    {
      if path != [] {
        ghost var o := Now();
        Indent();
        WriteBracketed(inArray);
        PutTwo(o, Repeat(indentText, |path| - 1), HeaderText(path, inArray));
        Endline();
      }
    }

    /** visit(value) and visit(array). */
    method VisitValue(v: Value)
      modifies this`stream, this`hasNakedEndline
      ensures Now() == old(Now()).Put(ValueText(v))
      decreases v
    {
      match v
      case Str(s) =>
        WriteQuoted(s);
      case Int(i) =>
        Write(IntText(i));
      case Bool(b) =>
        Write(if b then "true" else "false");
      case Arr(elems) =>
        ghost var o := Now();
        Write("[");
        VisitElems(elems);
        Write("]");
        PutThree(o, "[", ElemsText(elems, false), "]");
    }

    method VisitElems(elems: seq<Value>)
      requires !hasNakedEndline
      modifies this`stream, this`hasNakedEndline
      ensures Now() == old(Now()).Put(ElemsText(elems, false))
      decreases elems
    {
      assert elems[0..] == elems;
      var i := 0;
      while i < |elems|
        invariant 0 <= i <= |elems|
        invariant stream + ElemsText(elems[i..], i > 0) == old(stream) + ElemsText(elems, false)
        invariant !hasNakedEndline
      {
        ghost var before, rest := stream, elems[i + 1..];
        ghost var comma := if i > 0 then ", " else "";
        assert elems[i..][0] == elems[i] && elems[i..][1..] == rest;
        Joined(before, comma, ValueText(elems[i]), ElemsText(rest, true));
        if i > 0 {
          Write(", ");
        }
        VisitValue(elems[i]);
        assert i == 0 ==> before + comma == before;
        i := i + 1;
      }
    }

    /** write_table_item_header and the value, for a value entry. */
    method WriteItem(v: Value)
      requires path != []
      modifies this`stream, this`hasNakedEndline
      ensures Now() == old(Now()).Put(Repeat(indentText, |path| - 1) + ItemText(path[|path| - 1], v))
    {
      var key := path[|path| - 1];
      ghost var o := Now();
      Indent();
      WriteKey(key);
      Write(" = ");
      VisitValue(v);
      PutThree(Now1(o, indentText, path), KeyText(key), " = ", ValueText(v));
      PutTwo(o, Repeat(indentText, |path| - 1), ItemText(key, v));
    }

    /** visit(table). */
    method VisitTable(t: Table, inArray: bool)
      requires UniqueKeys(t.entries)
      requires WellKeyed(t)
      modifies this
      ensures path == old(path)
      ensures Now() == WriteTable(old(Now()), indentText, t, path, inArray)
      decreases t, 1
    {
      WriteTableHeader(inArray);
      var values, tables := SplitKeys(t);
      VisitValues(t, values);
      VisitTables(t, tables, values != []);
      Endline();
    }

    /** The keys of the values and those of the tables, in iteration order. */
    method SplitKeys(t: Table) returns (values: seq<string>, tables: seq<string>)
      ensures values == LeafKeys(t.entries) && tables == SubKeys(t.entries)
    {
      values, tables := [], [];
      for i := 0 to |t.entries|
        invariant values + LeafKeys(t.entries[i..]) == LeafKeys(t.entries)
        invariant tables + SubKeys(t.entries[i..]) == SubKeys(t.entries)
      {
        hide LeafKeys, SubKeys, Index;
        SplitRound(t.entries, i, values, tables);
        if t.entries[i].node.Leaf? {
          values := values + [t.entries[i].key];
        } else {
          tables := tables + [t.entries[i].key];
        }
      }
    }

    method VisitValues(t: Table, values: seq<string>)
      requires HasAll(t, values)
      modifies this
      ensures path == old(path)
      ensures Now() == WriteValues(old(Now()), indentText, t, values, true, path)
    {
      var i := 0;
      while i < |values|
        invariant 0 <= i <= |values|
        invariant path == old(path)
        invariant WriteValues(Now(), indentText, t, values[i..], i == 0, path)
               == WriteValues(old(Now()), indentText, t, values, true, path)
      {
        hide WriteValues, Index, WellKeyedNode, WellKeyed;
        ghost var outer, before := path, Now();
        ValuesRound(before, indentText, t, values, i, outer);
        path := path + [values[i]];
        if i > 0 {
          Endline();
        }
        var node := Get(t, values[i]);
        if node.Leaf? {
          WriteItem(node.v);
        }
        path := path[..|path| - 1];
        assert path == outer;
        i := i + 1;
      }
    }

    method VisitTables(t: Table, tables: seq<string>, separate: bool)
      requires HasAll(t, tables)
      requires WellKeyed(t)
      modifies this
      ensures path == old(path)
      ensures Now() == WriteSubs(old(Now()), indentText, t, tables, separate, path)
      decreases t, 0
    {
      var i := 0;
      while i < |tables|
        invariant 0 <= i <= |tables|
        invariant path == old(path)
        invariant WriteSubs(Now(), indentText, t, tables[i..], separate || i > 0, path)
               == WriteSubs(old(Now()), indentText, t, tables, separate, path)
      {
        assert tables[i..][1..] == tables[i + 1..];
        ghost var outer := path;
        path := path + [tables[i]];
        if separate || i > 0 {
          Endline();
        }
        VisitNode(Get(t, tables[i]));
        path := path[..|path| - 1];
        assert path == outer;
        i := i + 1;
      }
    }

    /** accept(): the visit of a table or of a table array. */
    method VisitNode(n: Node)
      requires WellKeyedNode(n)
      modifies this
      ensures path == old(path)
      ensures Now() == WriteNode(old(Now()), indentText, n, path)
      decreases n, 2
    {
      match n {
        case Leaf(_) =>
        case Tab(sub) => VisitTable(sub, false);
        case TabArr(subs) => VisitTableArray(subs);
      }
    }

    /** visit(table_array). */
    method VisitTableArray(ts: seq<Table>)
      requires forall j :: 0 <= j < |ts| ==> UniqueKeys(ts[j].entries) && WellKeyed(ts[j])
      modifies this
      ensures path == old(path)
      ensures Now() == WriteTableArray(old(Now()), indentText, ts, true, path).Endline()
      decreases ts, 2
    {
      var j := 0;
      while j < |ts|
        invariant 0 <= j <= |ts|
        invariant path == old(path)
        invariant WriteTableArray(Now(), indentText, ts[j..], j == 0, path)
               == WriteTableArray(old(Now()), indentText, ts, true, path)
      {
        assert ts[j..][1..] == ts[j + 1..];
        if j > 0 {
          Endline();
        }
        VisitTable(ts[j], true);
        j := j + 1;
      }
      Endline();
    }
  }

  /** The stream after the indentation of a line. */
  ghost function Now1(o: Out, indent: string, path: seq<string>): Out
    requires path != []
  {
    o.Put(Repeat(indent, |path| - 1))
  }

  /** One round of the loop that writes the values. */
  lemma ValuesRound(o: Out, indent: string, t: Table, values: seq<string>, i: nat, path: seq<string>)
    requires HasAll(t, values) && i < |values|
    ensures HasAll(t, values[i..]) && HasAll(t, values[i + 1..]) && Contains(t, values[i])
    ensures var o1 := if i == 0 then o else o.Endline();
            var o2 := if Get(t, values[i]).Leaf?
                      then o1.Put(Repeat(indent, |path|) + ItemText(values[i], Get(t, values[i]).v)) else o1;
            WriteValues(o, indent, t, values[i..], i == 0, path)
            == WriteValues(o2, indent, t, values[i + 1..], false, path)
  {
    hide Index, Repeat, ItemText;
    assert values[i..][0] == values[i] && values[i..][1..] == values[i + 1..];
  }

  /** One round of the loop that splits the keys. */
  lemma SplitRound(es: seq<Entry>, i: nat, vs: seq<string>, ts: seq<string>)
    requires i < |es|
    ensures var rest, k := es[i + 1..], [es[i].key];
            if es[i].node.Leaf?
            then vs + k + LeafKeys(rest) == vs + LeafKeys(es[i..]) && SubKeys(rest) == SubKeys(es[i..])
            else ts + k + SubKeys(rest) == ts + SubKeys(es[i..]) && LeafKeys(rest) == LeafKeys(es[i..])
  {
    hide Index;
    var rest, k := es[i + 1..], [es[i].key];
    assert es[i..][0] == es[i] && es[i..][1..] == rest;
    assert vs + (k + LeafKeys(rest)) == vs + k + LeafKeys(rest);
    assert ts + (k + SubKeys(rest)) == ts + k + SubKeys(rest);
  }

  lemma PutTwo(o: Out, a: string, b: string)
    ensures o.Put(a).Put(b) == o.Put(a + b)
  {
    assert o.text + a + b == o.text + (a + b);
  }

  lemma PutThree(o: Out, a: string, b: string, c: string)
    ensures o.Put(a).Put(b).Put(c) == o.Put(a + b + c)
  {
    PutTwo(o, a, b);
    PutTwo(o, a + b, c);
  }

  lemma PutFive(o: Out, a: string, b: string, c: string, d: string, e: string)
    ensures o.Put(a).Put(b).Put(c).Put(d).Put(e) == o.Put((a + b) + c + (d + e))
  {
    PutTwo(o, a, b);
    PutTwo(o.Put(a).Put(b).Put(c), d, e);
    PutThree(o, a + b, c, d + e);
  }

  lemma Joined(s: string, a: string, b: string, c: string)
    ensures s + (a + b + c) == s + a + b + c
  {
  }

  lemma {:induction false} RepeatMore(s: string, n: nat)
    ensures Repeat(s, n + 1) == Repeat(s, n) + s
  {
    if n > 0 {
      RepeatMore(s, n - 1);
      assert s + (Repeat(s, n - 1) + s) == s + Repeat(s, n - 1) + s;
    } else {
      assert Repeat(s, 1) == s + "";
    }
  }

  /** Distinct keys in every table below `t`. */
  predicate WellKeyed(t: Table) {
    forall i :: 0 <= i < |t.entries| ==> WellKeyedNode(t.entries[i].node)
  }

  predicate WellKeyedNode(n: Node) {
    match n
    case Leaf(_) => true
    case Tab(t) => UniqueKeys(t.entries) && WellKeyed(t)
    case TabArr(ts) => forall j :: 0 <= j < |ts| ==> UniqueKeys(ts[j].entries) && WellKeyed(ts[j])
  }

  /** `stream << t` with a fresh writer. */
  method Print(t: Table, indentSpace: string) returns (text: string)
    requires UniqueKeys(t.entries) && WellKeyed(t)
    ensures text == Written(t, indentSpace)
  {
    var writer := new TomlWriter(indentSpace);
    writer.VisitTable(t, false);
    text := writer.stream;
  }
}
