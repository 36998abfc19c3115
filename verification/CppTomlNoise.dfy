/** What does not matter to the parser of ssar/cpptoml.h: blank lines, lines of comments, indentation and the kind
    of line ends, anywhere in a text, inside arrays too. */
module CppTomlNoise {
  import opened Wrappers
  import opened CppTomlText
  import opened CppTomlTree
  import opened CppTomlWriter
  import opened CppTomlParser
  import opened CppTomlDocument

  // ----- the lines that matter ----------------------------------------------------------------

  predicate IsNoise(line: string) {
    EolOrComment(ConsumeWhitespace(line))
  }

  /** The lines still to come, without noise and indentation. */
  function Significant(inp: Input): seq<string>
    decreases InputLeft(inp)
  {
    match GetLine(inp)
    case None => []
    case Some((line, rest)) =>
      GetLineShrinks(St("", inp));
      (if IsNoise(line) then [] else [ConsumeWhitespace(line)]) + Significant(rest)
  }

  lemma SignificantStep(inp: Input)
    ensures GetLine(inp).Some? ==>
              var (line, rest) := GetLine(inp).value;
              Significant(inp)
                == if IsNoise(line) then Significant(rest) else [ConsumeWhitespace(line)] + Significant(rest)
    ensures GetLine(inp).None? ==> Significant(inp) == []
  {
    hide IsNoise, ConsumeWhitespace, GetLine;
  }

  /** skip_whitespace_and_comments goes to the next character that matters, over line ends. */
  lemma {:induction false} SkipBlankIs(st: St)
    ensures var s, more := ConsumeWhitespace(st.s), Significant(st.inp);
            if !EolOrComment(s) then SkipBlank(st) == Ok(St(s, st.inp))
            else if more == [] then SkipBlank(st) == Err(UnclosedArray)
            else SkipBlank(st).Ok? && SkipBlank(st).value.s == more[0] &&
                 Significant(SkipBlank(st).value.inp) == more[1..]
    decreases Left(st)
  {
    hide ConsumeWhitespace, GetLine, Significant;
    SignificantStep(st.inp);
    if EolOrComment(ConsumeWhitespace(st.s)) && GetLine(st.inp).Some? {
      var (line, inp) := GetLine(st.inp).value;
      GetLineShrinks(st);
      SkipBlankIs(St(line, inp));
    }
  }

  /** The same rest of the line, and then the same lines that matter. */
  predicate Alike(a: St, b: St) {
    a.s == b.s && Significant(a.inp) == Significant(b.inp)
  }

  predicate AlikeValues(a: Parsed<(Value, St)>, b: Parsed<(Value, St)>) {
    match (a, b)
    case (Ok((v, st)), Ok((w, st'))) => v == w && Alike(st, st')
    case (Err(e), Err(e')) => e == e'
    case _ => false
  }

  lemma SkipAlike(a: St, b: St)
    requires Alike(a, b)
    ensures match (SkipBlank(a), SkipBlank(b))
            case (Ok(st), Ok(st')) => Alike(st, st')
            case (Err(e), Err(e')) => e == e'
            case _ => false
  {
    hide SkipBlank, Significant;
    SkipBlankIs(a);
    SkipBlankIs(b);
  }

  lemma {:induction false} ValueAlike(a: St, b: St)
    requires Alike(a, b)
    ensures AlikeValues(ParseValue(a), ParseValue(b))
    decreases Left(a), 2
  {
    hide Significant, ValueType, ParseString, ParseNumber, ParseBool, ParseArray;
    if ValueType(a.s) == Ok(TArray) {
      ArrayAlike(a, b);
    }
  }

  lemma {:induction false} ArrayAlike(a: St, b: St)
    requires Alike(a, b) && a.s != ""
    ensures AlikeValues(ParseArray(a), ParseArray(b))
    decreases Left(a), 1
  {
    hide Significant, ValueType, SkipBlank, ParseValueArray, ParseArrayArray, Span;
    SkipAlike(St(a.s[1..], a.inp), St(b.s[1..], b.inp));
    var r := SkipBlank(St(a.s[1..], a.inp));
    if r.Ok? {
      var st, st' := r.value, SkipBlank(St(b.s[1..], b.inp)).value;
      ValueArrayAlike(st, st', KStr, []);
      ValueArrayAlike(st, st', KInt, []);
      ValueArrayAlike(st, st', KBool, []);
      ArrayArrayAlike(st, st', []);
    }
  }

  lemma {:induction false} ValueArrayAlike(a: St, b: St, kind: Kind, elems: seq<Value>)
    requires Alike(a, b)
    ensures AlikeValues(ParseValueArray(a, kind, elems), ParseValueArray(b, kind, elems))
    decreases Left(a), 3
  {
    hide Significant, SkipBlank, ParseValue;
    if a.s != "" && a.s[0] != ']' {
      ValueAlike(a, b);
      if ParseValue(a).Ok? {
        var (v, st) := ParseValue(a).value;
        var (_, st') := ParseValue(b).value;
        SkipAlike(st, st');
        if SkipBlank(st).Ok? {
          var st1, st1' := SkipBlank(st).value, SkipBlank(st').value;
          SkipAlike(St(st1.s[1..], st1.inp), St(st1'.s[1..], st1'.inp));
          var r := SkipBlank(St(st1.s[1..], st1.inp));
          if r.Ok? {
            ValueArrayAlike(r.value, SkipBlank(St(st1'.s[1..], st1'.inp)).value, kind, elems + [v]);
          }
        }
      }
    }
  }

  lemma {:induction false} ArrayArrayAlike(a: St, b: St, elems: seq<Value>)
    requires Alike(a, b)
    ensures AlikeValues(ParseArrayArray(a, elems), ParseArrayArray(b, elems))
    decreases Left(a), 3
  {
    hide Significant, SkipBlank, ParseArray;
    if a.s != "" && a.s[0] == '[' {
      ArrayAlike(a, b);
      if ParseArray(a).Ok? {
        var (v, st) := ParseArray(a).value;
        var (_, st') := ParseArray(b).value;
        SkipAlike(st, st');
        if SkipBlank(st).Ok? {
          var st1, st1' := SkipBlank(st).value, SkipBlank(st').value;
          SkipAlike(St(st1.s[1..], st1.inp), St(st1'.s[1..], st1'.inp));
          var r := SkipBlank(St(st1.s[1..], st1.inp));
          if r.Ok? {
            ArrayArrayAlike(r.value, SkipBlank(St(st1'.s[1..], st1'.inp)).value, elems + [v]);
          }
        }
      }
    }
  }

  lemma KeyValueAlike(a: St, b: St, root: Table, cur: seq<string>)
    requires Alike(a, b) && HasPath(root, cur)
    ensures match (ParseKeyValue(a, root, cur), ParseKeyValue(b, root, cur))
            case (Ok((t, st)), Ok((t', st'))) => t == t' && Alike(st, st')
            case (Err(e), Err(e')) => e == e'
            case _ => false
  {
    hide Significant, ParseKey, ParseValue, With, At, HasPath, ConsumeWhitespace, Insert, Contains;
    var r := ParseKey(a.s, ForItem, Walk(root, cur, false));
    if r.Ok? && r.value.1 != "" {
      var s := ConsumeWhitespace(r.value.1[1..]);
      ValueAlike(St(s, a.inp), St(s, b.inp));
    }
  }

  lemma LineAlike(a: St, b: St, root: Table, cur: seq<string>)
    requires ConsumeWhitespace(a.s) == ConsumeWhitespace(b.s) && Significant(a.inp) == Significant(b.inp)
    requires HasPath(root, cur)
    ensures match (ParseLine(a, root, cur), ParseLine(b, root, cur))
            case (Ok((t, path, inp)), Ok((t', path', inp'))) =>
              t == t' && path == path' && Significant(inp) == Significant(inp')
            case (Err(e), Err(e')) => e == e'
            case _ => false
  {
    hide Significant, ParseKeyValue, ParseTable, HasPath, ConsumeWhitespace;
    var s := ConsumeWhitespace(a.s);
    KeyValueAlike(St(s, a.inp), St(s, b.inp), root, cur);
  }

  lemma NoiseStep(inp: Input, root: Table, cur: seq<string>)
    requires HasPath(root, cur) && GetLine(inp).Some? && IsNoise(GetLine(inp).value.0)
    ensures var rest := GetLine(inp).value.1;
            ParseLines(inp, root, cur) == ParseLines(rest, root, cur) && Significant(inp) == Significant(rest) &&
            InputLeft(rest) < InputLeft(inp)
  {
    hide HasPath, ConsumeWhitespace, GetLine, Significant;
    GetLineShrinks(St("", inp));
    SignificantStep(inp);
  }

  lemma {:induction false} LinesAlike(a: Input, b: Input, root: Table, cur: seq<string>)
    requires Significant(a) == Significant(b) && HasPath(root, cur)
    ensures ParseLines(a, root, cur) == ParseLines(b, root, cur)
    decreases InputLeft(a) + InputLeft(b)
  {
    hide ParseLine, HasPath, ConsumeWhitespace, GetLine, IsNoise, Significant;
    SignificantStep(a);
    SignificantStep(b);
    if GetLine(a).Some? && IsNoise(GetLine(a).value.0) {
      NoiseStep(a, root, cur);
      LinesAlike(GetLine(a).value.1, b, root, cur);
    } else if GetLine(b).Some? && IsNoise(GetLine(b).value.0) {
      NoiseStep(b, root, cur);
      LinesAlike(a, GetLine(b).value.1, root, cur);
    } else if GetLine(a).Some? && GetLine(b).Some? {
      var (line, rest) := GetLine(a).value;
      var (line', rest') := GetLine(b).value;
      GetLineShrinks(St("", a));
      GetLineShrinks(St("", b));
      assert Significant(a)[1..] == Significant(rest) && Significant(b)[1..] == Significant(rest');
      assert Significant(a)[0] == ConsumeWhitespace(line) && Significant(b)[0] == ConsumeWhitespace(line');
      LineAlike(St(line, rest), St(line', rest'), root, cur);
      var r, r' := ParseLine(St(line, rest), root, cur), ParseLine(St(line', rest'), root, cur);
      if r.Ok? {
        LinesAlike(r.value.2, r'.value.2, r.value.0, r.value.1);
      }
    }
  }

  // ----- texts --------------------------------------------------------------------------------

  function SignificantOf(text: string): seq<string> {
    Significant(Input(text, false))
  }

  /** What a text means depends only on the lines that matter, in their order. */
  lemma SignificantDecides(a: string, b: string)
    requires SignificantOf(a) == SignificantOf(b)
    ensures Parse(a) == Parse(b)
  {
    hide ParseLines, Significant;
    LinesAlike(Input(a, false), Input(b, false), EMPTY_TABLE, []);
  }

  /** Nothing, or lines up to the end of the last one. */
  predicate Whole(text: string) {
    text == "" || text[|text| - 1] == '\n'
  }

  lemma {:induction false} TakeInFront(a: string, b: string)
    requires a != "" && Whole(a)
    ensures var (line, rest, ended) := TakeLine(a);
            ended && Whole(rest) && TakeLine(a + b) == (line, rest + b, true)
  {
    assert (a + b)[0] == a[0] && (a + b)[1..] == a[1..] + b;
    if a[0] == '\r' && |a| > 1 && a[1] == '\n' {
      assert (a + b)[2..] == a[2..] + b;
    } else if a[0] != '\n' {
      assert |a| > 1;
      TakeInFront(a[1..], b);
    }
  }

  lemma {:induction false} SignificantAppend(a: string, b: string)
    requires Whole(a)
    ensures SignificantOf(a + b) == SignificantOf(a) + SignificantOf(b)
    decreases |a|
  {
    hide IsNoise, ConsumeWhitespace, TakeLine;
    if a == "" {
      NothingSignificant();
      assert a + b == b;
    } else {
      TakeInFront(a, b);
      var (line, rest, _) := TakeLine(a);
      SignificantAppend(rest, b);
    }
  }

  lemma NothingSignificant()
    ensures SignificantOf("") == []
  {
    assert GetLine(Input("", false)) == Some(("", Input("", true)));
    assert IsNoise("");
  }

  function LineEnd(crlf: bool): (s: string)
    ensures Whole(s)
  {
    if crlf then "\r\n" else "\n"
  }

  /** A line ends at the first newline, without a carriage return right in front of that; other carriage returns are
      characters of the line. */
  lemma {:induction false} LineIsTaken(l: string, crlf: bool, more: string)
    requires '\n' !in l && (crlf || l == "" || l[|l| - 1] != '\r')
    ensures TakeLine(l + LineEnd(crlf) + more) == (l, more, true)
  {
    var s := l + LineEnd(crlf) + more;
    if l != "" {
      assert s[0] == l[0] && s[1..] == l[1..] + LineEnd(crlf) + more;
      assert s[1] == if |l| > 1 then l[1] else LineEnd(crlf)[0];
      LineIsTaken(l[1..], crlf, more);
      assert [l[0]] + l[1..] == l;
    } else if crlf {
      assert s[1] == '\n' && s[2..] == more;
    } else {
      assert s[1..] == more;
    }
  }

  lemma TakeEnded(l: string, crlf: bool, more: string)
    requires OneLine(l)
    ensures TakeLine(l + LineEnd(crlf) + more) == (l, more, true)
  {
    hide TakeLine;
    LineIsTaken(l, crlf, more);
  }

  /** One line in front of a text. */
  lemma SignificantLine(l: string, crlf: bool, more: string)
    requires OneLine(l)
    ensures SignificantOf(l + LineEnd(crlf) + more)
         == (if IsNoise(l) then [] else [ConsumeWhitespace(l)]) + SignificantOf(more)
  {
    hide IsNoise, ConsumeWhitespace, TakeLine;
    TakeEnded(l, crlf, more);
  }

  /** A blank line, or blanks and a comment, anywhere between the lines of any text: it leaves no trace. */
  lemma NoiseChangesNothing(a: string, noise: string, crlf: bool, b: string)
    requires Whole(a) && OneLine(noise) && IsNoise(noise)
    ensures Parse(a + noise + LineEnd(crlf) + b) == Parse(a + b)
  {
    hide Parse, IsNoise, SignificantOf, OneLine;
    assert a + noise + LineEnd(crlf) + b == a + (noise + LineEnd(crlf) + b);
    SignificantAppend(a, noise + LineEnd(crlf) + b);
    SignificantLine(noise, crlf, b);
    SignificantAppend(a, b);
    SignificantDecides(a + noise + LineEnd(crlf) + b, a + b);
  }

  /** Indentation, and whether a line ends in \r\n or \n, make no difference either. */
  lemma LineFormIsFree(a: string, blank: string, blank': string, l: string, crlf: bool, crlf': bool, b: string)
    requires Whole(a) && OneLine(l) && AllBlank(blank) && AllBlank(blank')
    ensures Parse(a + blank + l + LineEnd(crlf) + b) == Parse(a + blank' + l + LineEnd(crlf') + b)
  {
    hide Parse, SignificantOf, OneLine, AllBlank, ConsumeWhitespace;
    SignificantForm(a, blank, l, crlf, b);
    SignificantForm(a, blank', l, crlf', b);
    SignificantDecides(a + blank + l + LineEnd(crlf) + b, a + blank' + l + LineEnd(crlf') + b);
  }

  lemma SignificantForm(a: string, blank: string, l: string, crlf: bool, b: string)
    requires Whole(a) && OneLine(l) && AllBlank(blank)
    ensures SignificantOf(a + blank + l + LineEnd(crlf) + b)
         == SignificantOf(a) + (if IsNoise(l) then [] else [ConsumeWhitespace(l)]) + SignificantOf(b)
  {
    hide SignificantOf, ConsumeWhitespace;
    var s := blank + l;
    assert OneLine(s) by {
      BlankOneLine(blank);
    }
    assert a + blank + l + LineEnd(crlf) + b == a + (s + LineEnd(crlf) + b);
    SignificantAppend(a, s + LineEnd(crlf) + b);
    SignificantLine(s, crlf, b);
    SkipMore(blank, l);
  }

  lemma BlankOneLine(blank: string)
    requires AllBlank(blank)
    ensures OneLine(blank)
  {
  }

  lemma {:induction false} SkipMore(blank: string, s: string)
    requires AllBlank(blank)
    ensures ConsumeWhitespace(blank + s) == ConsumeWhitespace(s)
  {
    if blank == "" {
      assert blank + s == s;
    } else {
      assert (blank + s)[1..] == blank[1..] + s;
      SkipMore(blank[1..], s);
    }
  }

  // ----- documents with comments --------------------------------------------------------------

  function Lines(ls: seq<string>): string {
    if ls == [] then "" else ls[0] + "\n" + Lines(ls[1..])
  }

  function Kept(ls: seq<string>): seq<string> {
    if ls == [] then [] else if IsNoise(ls[0]) then Kept(ls[1..]) else [ls[0]] + Kept(ls[1..])
  }

  predicate AllOneLine(ls: seq<string>) {
    forall i :: 0 <= i < |ls| ==> OneLine(ls[i])
  }

  /** A text reads as what is left of it without the lines that are noise. */
  lemma {:induction false} KeptIsSignificant(ls: seq<string>)
    requires AllOneLine(ls)
    ensures AllOneLine(Kept(ls)) && SignificantOf(Lines(ls)) == SignificantOf(Lines(Kept(ls)))
  {
    hide IsNoise, SignificantOf, OneLine, Lines;
    if ls != [] {
      KeptIsSignificant(ls[1..]);
      SignificantLine(ls[0], false, Lines(ls[1..]));
      SignificantLine(ls[0], false, Lines(Kept(ls[1..])));
      LinesStep(ls[0], ls[1..]);
      LinesStep(ls[0], Kept(ls[1..]));
      assert [ls[0]] + ls[1..] == ls;
    }
  }

  lemma LinesStep(l: string, ls: seq<string>)
    ensures Lines([l] + ls) == l + LineEnd(false) + Lines(ls)
  {
    assert ([l] + ls)[1..] == ls;
  }

  /** The lines that the writer prints. */
  function Rendered(ls: seq<Line>, indent: string): seq<string> {
    seq(|ls|, i requires 0 <= i < |ls| => Renderer(indent)(ls[i]))
  }

  lemma {:induction false} RenderedIsText(ls: seq<Line>, indent: string)
    requires AllBlank(indent)
    ensures AllOneLine(Rendered(ls, indent)) && Lines(Rendered(ls, indent)) == Text(ls, Renderer(indent))
  {
    hide Renderer, OneLine, Lines;
    if ls == [] {
      assert Lines([]) == "" by {
        NoLines();
      }
    } else {
      RenderedIsText(ls[1..], indent);
      LineOneLine(ls[0], indent);
      LinesStep(Renderer(indent)(ls[0]), Rendered(ls[1..], indent));
      assert Rendered(ls, indent) == [Renderer(indent)(ls[0])] + Rendered(ls[1..], indent);
    }
  }

  lemma NoLines()
    ensures Lines([]) == "" && SignificantOf("\n") == []
  {
    assert GetLine(Input("\n", false)) == Some(("", Input("", false)));
    assert GetLine(Input("", false)) == Some(("", Input("", true)));
    assert IsNoise("");
  }

  /** The round trip with comments and blank lines added anywhere: the lines that are left when noise is taken out
      are those that the writer prints. */
  lemma ParseCommented(t: Table, indent: string, ls: seq<string>)
    requires AllBlank(indent) && PrintableTable(t) && AllOneLine(ls)
    requires Kept(ls) == Kept(Rendered(BodyLines(t, []), indent))
    ensures Parse(Lines(ls)) == Ok(Sorted(t))
  {
    hide Parse, Lines, Kept, Written, SignificantOf, Rendered, BodyLines;
    var printed := Rendered(BodyLines(t, []), indent);
    RenderedIsText(BodyLines(t, []), indent);
    KeptIsSignificant(ls);
    KeptIsSignificant(printed);
    WrittenIsLines(t, indent);
    NoLines();
    if t.entries == [] {
      NoBody(t);
      NothingSignificant();
    }
    SignificantDecides(Lines(ls), Written(t, indent));
    ParseWritten(t, indent);
  }

  lemma NoBody(t: Table)
    requires t.entries == []
    ensures BodyLines(t, []) == []
  {
  }
}
