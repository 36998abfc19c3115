/** Arrays of any layout in a text for ssar/cpptoml.h, and the items that hold values of any layout. */
module CppTomlArrays {
  import opened Wrappers
  import opened CppTomlText
  import opened CppTomlTree
  import opened CppTomlParser
  import opened CppTomlRoundTrip
  import opened CppTomlDocument
  import opened CppTomlNoise
  import opened CppTomlMeaning
  import opened CppTomlSpelling
  import opened CppTomlNumbers
  import opened CppTomlLayout

  /** An element, its text, and the gaps around it. */
  datatype Elem = Elem(before: Gap, text: string, v: Value, behind: Gap)

  /** Elements of one kind, each in a text that is read as it. */
  ghost predicate AllReadable(es: seq<Elem>, kind: Kind) {
    forall i :: 0 <= i < |es| ==>
      AllGap(es[i].before) && AllGap(es[i].behind) && Readable(es[i].text, es[i].v) && KindOf(es[i].v) == kind
  }

  function Elements(es: seq<Elem>): (vs: seq<Value>)
    ensures |vs| == |es|
  {
    if es == [] then [] else [es[0].v] + Elements(es[1..])
  }

  /** From the first element on, or the bracket if there is none; with a comma behind the last one if `trail`. */
  function Now(es: seq<Elem>, trail: bool, end: Gap): (s: string)
    ensures es == [] ==> s == "]"
    decreases |es|, 0
  {
    if es == [] then "]"
    else es[0].text + (GapText(es[0].behind) + Separated(es, trail, end))
  }

  /** Behind the first element. */
  function Separated(es: seq<Elem>, trail: bool, end: Gap): (s: string)
    requires es != []
    ensures s != "" && s[0] == if |es| == 1 && !trail then ']' else ','
    decreases |es| - 1, 2
  {
    if |es| == 1 && !trail then "]" else "," + Coming(es[1..], trail, end)
  }

  /** The gap in front of the first element, or of the bracket, and what is behind. */
  function Coming(es: seq<Elem>, trail: bool, end: Gap): string
    decreases |es|, 1
  {
    GapText(if es == [] then end else es[0].before) + Now(es, trail, end)
  }

  function ArrayText(es: seq<Elem>, trail: bool, end: Gap): string {
    "[" + Coming(es, trail, end)
  }

  // ----- steps --------------------------------------------------------------------------------

  lemma ReadableHead(text: string, v: Value)
    requires Readable(text, v)
    ensures text != "" && Matters(text[0]) && text[0] != ']' && (v.Arr? ==> text[0] == '[')
  {
    hide ValueType, ParseValue;
    assert EndsPlain(Opening("").s) by {
      assert Opening("").s == "";
    }
    assert ReadsTo(text, v, "");
    TypeOfArray(Opening(text + "").s);
    OpenHead(text);
  }

  lemma TypeOfArray(s: string)
    ensures ValueType(s[..Span(s, InElement)]) == Ok(TArray) ==> s != "" && s[0] == '['
  {
    hide ValueType;
    assert ValueType(s[..Span(s, InElement)]) == Ok(TArray) ==> s[..Span(s, InElement)][0] == '[';
  }

  lemma OpenHead(text: string)
    requires text != "" && !IsLineEnd(text[0])
    ensures Opening(text + "").s != "" && Opening(text + "").s[0] == text[0]
  {
    OpenMore(text[..1], text[1..]);
    assert text + "" == text[..1] + text[1..];
  }

  lemma {:induction false} GapEnds(g: Gap, sep: string)
    requires AllGap(g) && sep != "" && (sep[0] == ',' || sep[0] == ']')
    ensures EndsPlain(Opening(GapText(g) + sep).s)
    decreases |g|
  {
    hide Opening, TakeLine;
    if g == [] {
      assert GapText(g) + sep == sep;
      NothingToSkip(sep);
    } else {
      var more := GapText(g[1..]) + sep;
      assert GapText(g) + sep == g[0].Text() + more;
      match g[0]
      case Blank(c) =>
        GapEnds(g[1..], sep);
        OpenMore([c], more);
        assert ([c] + Opening(more).s)[1..] == Opening(more).s;
      case Break(comment, crlf) =>
        OpenLine(comment, crlf, more);
    }
  }

  /** An element and the gap behind it. */
  lemma ElemIsRead(e: Elem, sep: string)
    requires AllGap(e.behind) && Readable(e.text, e.v) && sep != "" && (sep[0] == ',' || sep[0] == ']')
    ensures var st := Opening(e.text + (GapText(e.behind) + sep));
            ParseValue(st).Ok? && ParseValue(st).value.0 == e.v &&
            SkipBlank(ParseValue(st).value.1) == Ok(Opening(sep)) &&
            ValueType(st.s[..Span(st.s, InElement)]) == Ok(TypeOf(e.v))
  {
    hide Opening, SkipBlank, ParseValue, ValueType, ConsumeWhitespace, EndsPlain, AllGap, GapText, Span;
    var rest := GapText(e.behind) + sep;
    GapEnds(e.behind, sep);
    assert ReadsTo(e.text, e.v, rest);
    SkipSame(ParseValue(Opening(e.text + rest)).value.1, Opening(rest));
    GapIsSkipped(e.behind, sep);
  }

  /** Behind a comma or the opening bracket. */
  lemma NextIsFound(es: seq<Elem>, trail: bool, end: Gap, kind: Kind, c: char, rest: string)
    requires AllReadable(es, kind) && AllGap(end) && (c == ',' || c == '[')
    ensures var st := Opening([c] + Coming(es, trail, end) + rest);
            st.s != "" && st.s[0] == c && SkipBlank(St(st.s[1..], st.inp)) == Ok(Opening(Now(es, trail, end) + rest))
    ensures var st := Opening(Now(es, trail, end) + rest);
            st.s != "" && (es == [] ==> st.s[0] == ']') &&
            (es != [] ==> st.s[0] != ']' && (kind == KArr ==> st.s[0] == '['))
  {
    hide Opening, SkipBlank, Readable, AllGap, GapText;
    var now := Now(es, trail, end) + rest;
    var g := if es == [] then end else es[0].before;
    if es != [] {
      ReadableHead(es[0].text, es[0].v);
      assert now[0] == es[0].text[0];
    } else {
      assert now[0] == ']';
    }
    NothingToSkip(now);
    assert [c] + Coming(es, trail, end) + rest == [c] + (GapText(g) + now);
    OpenMore([c], GapText(g) + now);
    assert ([c] + Opening(GapText(g) + now).s)[1..] == Opening(GapText(g) + now).s;
    GapIsSkipped(g, now);
  }

  lemma Close(rest: string)
    ensures Opening("]" + rest).s != "" && Opening("]" + rest).s[0] == ']' &&
            St(Opening("]" + rest).s[1..], Opening("]" + rest).inp) == Opening(rest)
  {
    OpenMore("]", rest);
    assert ("]" + Opening(rest).s)[1..] == Opening(rest).s;
  }

  // ----- loops --------------------------------------------------------------------------------

  lemma {:induction false} ValuesAreRead(es: seq<Elem>, trail: bool, end: Gap, kind: Kind, done: seq<Value>,
                                         rest: string)
    requires AllReadable(es, kind) && AllGap(end)
    ensures ParseValueArray(Opening(Now(es, trail, end) + rest), kind, done)
         == Ok((Arr(done + Elements(es)), Opening(rest)))
    decreases |es|
  {
    hide Opening, Readable, AllGap, Now, ParseValueArray;
    if es == [] {
      assert done + [] == done;
      Close(rest);
      NowNothing(trail, end);
      ValuesEnd(Opening("]" + rest), kind, done);
    } else {
      ValuesRound(es, trail, end, kind, done, rest);
      assert done + Elements(es) == done + [es[0].v] + Elements(es[1..]);
      if |es| > 1 || trail {
        ValuesAreRead(es[1..], trail, end, kind, done + [es[0].v], rest);
      } else {
        assert done + [es[0].v] + [] == done + [es[0].v];
      }
    }
  }

  lemma NowNothing(trail: bool, end: Gap)
    ensures Now([], trail, end) == "]"
  {
  }

  /** One element. */
  lemma ValuesRound(es: seq<Elem>, trail: bool, end: Gap, kind: Kind, done: seq<Value>, rest: string)
    requires AllReadable(es, kind) && AllGap(end) && es != []
    ensures ParseValueArray(Opening(Now(es, trail, end) + rest), kind, done)
         == if |es| == 1 && !trail then Ok((Arr(done + [es[0].v]), Opening(rest)))
            else ParseValueArray(Opening(Now(es[1..], trail, end) + rest), kind, done + [es[0].v])
  {
    hide Opening, SkipBlank, ParseValue, Readable, AllGap, GapText, Now, Coming, Separated, ParseValueArray, ValueType;
    hide Span, InElement, IsLineEnd, Matters;
    NextIsFound(es, trail, end, kind, ',', rest);
    NowSplits(es, trail, end, rest);
    SeparatedIs(es, trail, end, rest);
    ElemIsRead(es[0], Separated(es, trail, end) + rest);
    ValuesStep(Opening(Now(es, trail, end) + rest), kind, done);
    if |es| == 1 && !trail {
      Close(rest);
    } else {
      NextIsFound(es[1..], trail, end, kind, ',', rest);
    }
  }

  lemma NowSplits(es: seq<Elem>, trail: bool, end: Gap, rest: string)
    requires es != []
    ensures Now(es, trail, end) + rest == es[0].text + (GapText(es[0].behind) + (Separated(es, trail, end) + rest))
  {
    hide GapText, Separated;
    var a, b, c := es[0].text, GapText(es[0].behind), Separated(es, trail, end);
    assert a + (b + c) + rest == a + (b + (c + rest));
  }

  lemma SeparatedIs(es: seq<Elem>, trail: bool, end: Gap, rest: string)
    requires es != []
    ensures var sep := Separated(es, trail, end) + rest;
            sep != "" && sep[0] == (if |es| == 1 && !trail then ']' else ',') && Opening(sep).s != "" &&
            Opening(sep).s[0] == sep[0] &&
            sep == if |es| == 1 && !trail then "]" + rest else [','] + Coming(es[1..], trail, end) + rest
  {
    hide Coming, Opening;
    var sep := Separated(es, trail, end) + rest;
    assert sep[0] == Separated(es, trail, end)[0];
    NothingToSkip(sep);
  }

  lemma ValuesEnd(st: St, kind: Kind, done: seq<Value>)
    requires st.s != "" && st.s[0] == ']'
    ensures ParseValueArray(st, kind, done) == Ok((Arr(done), St(st.s[1..], st.inp)))
  {
  }

  lemma ValuesStep(st: St, kind: Kind, done: seq<Value>)
    requires st.s != "" && st.s[0] != ']' && ParseValue(st).Ok? && KindOf(ParseValue(st).value.0) == kind
    requires SkipBlank(ParseValue(st).value.1).Ok?
    ensures var (v, st1) := ParseValue(st).value;
            var st2 := SkipBlank(st1).value;
            ParseValueArray(st, kind, done)
            == if st2.s[0] != ',' then Ok((Arr(done + [v]), St(st2.s[1..], st2.inp)))
               else match SkipBlank(St(st2.s[1..], st2.inp))
                    case Ok(st3) => ParseValueArray(st3, kind, done + [v])
                    case Err(e) => Err(e)
  {
    hide SkipBlank, ParseValue;
  }

  lemma {:induction false} ArraysAreRead(es: seq<Elem>, trail: bool, end: Gap, done: seq<Value>, rest: string)
    requires AllReadable(es, KArr) && AllGap(end)
    ensures ParseArrayArray(Opening(Now(es, trail, end) + rest), done) == Ok((Arr(done + Elements(es)), Opening(rest)))
    decreases |es|
  {
    hide Opening, Readable, AllGap, Now, ParseArrayArray;
    if es == [] {
      assert done + [] == done;
      Close(rest);
      NowNothing(trail, end);
      ArraysEnd(Opening("]" + rest), done);
    } else {
      ArraysRound(es, trail, end, done, rest);
      assert done + Elements(es) == done + [es[0].v] + Elements(es[1..]);
      if |es| > 1 || trail {
        ArraysAreRead(es[1..], trail, end, done + [es[0].v], rest);
      } else {
        assert done + [es[0].v] + [] == done + [es[0].v];
      }
    }
  }

  lemma ArraysRound(es: seq<Elem>, trail: bool, end: Gap, done: seq<Value>, rest: string)
    requires AllReadable(es, KArr) && AllGap(end) && es != []
    ensures ParseArrayArray(Opening(Now(es, trail, end) + rest), done)
         == if |es| == 1 && !trail then Ok((Arr(done + [es[0].v]), Opening(rest)))
            else ParseArrayArray(Opening(Now(es[1..], trail, end) + rest), done + [es[0].v])
  {
    hide Opening, SkipBlank, ParseValue, Readable, AllGap, GapText, Now, Coming, Separated, ParseArrayArray, ValueType;
    hide Span, InElement, IsLineEnd, Matters, ParseArray;
    NextIsFound(es, trail, end, KArr, ',', rest);
    NowSplits(es, trail, end, rest);
    SeparatedIs(es, trail, end, rest);
    ElemIsRead(es[0], Separated(es, trail, end) + rest);
    ValueIsArray(Opening(Now(es, trail, end) + rest));
    ArraysStep(Opening(Now(es, trail, end) + rest), done);
    if |es| == 1 && !trail {
      Close(rest);
    } else {
      NextIsFound(es[1..], trail, end, KArr, ',', rest);
    }
  }

  /** A value that starts with a bracket is read by parse_array. */
  lemma ValueIsArray(st: St)
    requires st.s != "" && st.s[0] == '['
    ensures ParseValue(st) == ParseArray(st)
  {
    hide ParseArray;
    TypeOfHead(st.s);
  }

  lemma ArraysEnd(st: St, done: seq<Value>)
    requires st.s != "" && st.s[0] == ']'
    ensures ParseArrayArray(st, done) == Ok((Arr(done), St(st.s[1..], st.inp)))
  {
  }

  lemma ArraysStep(st: St, done: seq<Value>)
    requires st.s != "" && st.s[0] == '[' && ParseArray(st).Ok? && SkipBlank(ParseArray(st).value.1).Ok?
    requires SkipBlank(ParseArray(st).value.1).value.s[0] in {',', ']'}
    ensures var (v, st1) := ParseArray(st).value;
            var st2 := SkipBlank(st1).value;
            ParseArrayArray(st, done)
            == if st2.s[0] != ',' then Ok((Arr(done + [v]), St(st2.s[1..], st2.inp)))
               else match SkipBlank(St(st2.s[1..], st2.inp))
                    case Ok(st3) => ParseArrayArray(st3, done + [v])
                    case Err(e) => Err(e)
  {
    hide SkipBlank, ParseArray;
  }

  // ----- arrays -------------------------------------------------------------------------------

  /** An array is the sequence of its elements, whatever gaps it has: blanks, line ends, comments, and a comma behind
      the last element.  Its text is one of a value again, so arrays can be nested. */
  lemma ArrayIsReadable(es: seq<Elem>, trail: bool, end: Gap, kind: Kind)
    requires AllReadable(es, kind) && AllGap(end)
    ensures Readable(ArrayText(es, trail, end), Arr(Elements(es)))
  {
    hide Opening, EndsPlain, AllReadable, AllGap, Coming, ReadsTo;
    forall rest | EndsPlain(Opening(rest).s) ensures ReadsTo(ArrayText(es, trail, end), Arr(Elements(es)), rest) {
      ArrayReadsTo(es, trail, end, kind, rest);
    }
  }

  lemma ArrayReadsTo(es: seq<Elem>, trail: bool, end: Gap, kind: Kind, rest: string)
    requires AllReadable(es, kind) && AllGap(end)
    ensures ReadsTo(ArrayText(es, trail, end), Arr(Elements(es)), rest)
  {
    hide Opening, Readable, AllGap, AllReadable, Coming, Span, InElement, ConsumeWhitespace, ValueType, ParseArray;
    var st := Opening(ArrayText(es, trail, end) + rest);
    assert ArrayText(es, trail, end) == ['['] + Coming(es, trail, end);
    NextIsFound(es, trail, end, kind, '[', rest);
    BracketType(st.s);
    ValueIsArray(st);
    ArrayIsParsed(es, trail, end, kind, rest);
  }

  lemma ArrayIsParsed(es: seq<Elem>, trail: bool, end: Gap, kind: Kind, rest: string)
    requires AllReadable(es, kind) && AllGap(end)
    ensures var st := Opening(['['] + Coming(es, trail, end) + rest);
            st.s != "" && ParseArray(st) == Ok((Arr(Elements(es)), Opening(rest)))
  {
    hide Opening, Readable, AllGap, Coming, Now, ParseValueArray, ParseArrayArray, SkipBlank, Span, GapText, ParseArray;
    hide InElement, ConsumeWhitespace, ValueType, IsLineEnd, Matters, Separated, ParseValue;
    var st := Opening(['['] + Coming(es, trail, end) + rest);
    NextIsFound(es, trail, end, kind, '[', rest);
    if es == [] {
      Close(rest);
      NowNothing(trail, end);
      ArrayEnds(st);
    } else {
      NowSplits(es, trail, end, rest);
      SeparatedIs(es, trail, end, rest);
      ElemIsRead(es[0], Separated(es, trail, end) + rest);
      ArrayLoops(st, TypeOf(es[0].v));
      assert [] + Elements(es) == Elements(es);
      if kind == KArr {
        ArraysAreRead(es, trail, end, [], rest);
      } else {
        ValuesAreRead(es, trail, end, kind, [], rest);
      }
    }
  }

  lemma BracketType(s: string)
    requires s != "" && s[0] == '['
    ensures ValueType(s[..Span(s, InElement)]) == Ok(TArray)
  {
    assert Span(s, InElement) > 0;
    assert s[..Span(s, InElement)][0] == '[';
    TypeOfHead(s[..Span(s, InElement)]);
  }

  lemma ArrayEnds(st: St)
    requires st.s != "" && SkipBlank(St(st.s[1..], st.inp)).Ok? && SkipBlank(St(st.s[1..], st.inp)).value.s[0] == ']'
    ensures var st1 := SkipBlank(St(st.s[1..], st.inp)).value; ParseArray(st) == Ok((Arr([]), St(st1.s[1..], st1.inp)))
  {
    hide SkipBlank;
  }

  lemma ArrayLoops(st: St, kind: Type)
    requires st.s != "" && SkipBlank(St(st.s[1..], st.inp)).Ok? && SkipBlank(St(st.s[1..], st.inp)).value.s[0] != ']'
    requires var s := SkipBlank(St(st.s[1..], st.inp)).value.s; ValueType(s[..Span(s, InElement)]) == Ok(kind)
    ensures var st1 := SkipBlank(St(st.s[1..], st.inp)).value;
            (kind == TString ==> ParseArray(st) == ParseValueArray(st1, KStr, [])) &&
            (kind == TInt ==> ParseArray(st) == ParseValueArray(st1, KInt, [])) &&
            (kind == TBool ==> ParseArray(st) == ParseValueArray(st1, KBool, [])) &&
            (kind == TArray ==> ParseArray(st) == ParseArrayArray(st1, []))
  {
    hide SkipBlank, ParseValueArray, ParseArrayArray, ValueType;
  }

  // ----- items --------------------------------------------------------------------------------

  /** A dotted key, the equals sign and a value of any layout, with blanks between them and a comment behind. */
  lemma ItemIsShownAs(ps: seq<Part>, blank: string, text: string, v: Value, behind: string, crlf: bool, more: string)
    requires ps != [] && AllParts(ps) && AllBlank(blank) && Readable(text, v) && IsNoise(behind) && OneLine(behind)
    requires OneLine(DottedText(ps))
    ensures ItemEnd(Opening(DottedText(ps) + "=" + blank + text + behind + LineEnd(crlf) + more), Names(ps), v)
         == Some(Input(more, false))
  {
    hide Opening, KeysEnd, DottedText, Names, ParseValue, ConsumeWhitespace, EndsPlain, OneLine, AllBlank;
    var rest := behind + LineEnd(crlf) + more;
    OpenLine(behind, crlf, more);
    NoiseEnds(behind);
    assert ReadsTo(text, v, rest);
    var after := Opening(text + rest);
    var front := DottedText(ps) + "=" + blank;
    assert DottedText(ps) + "=" + blank + text + behind + LineEnd(crlf) + more == front + (text + rest);
    FrontOneLine(DottedText(ps), blank);
    OpenMore(front, text + rest);
    ReadableHead(text, v);
    OpenFirst(text, rest);
    var tail := "=" + (blank + after.s);
    assert front + after.s == DottedText(ps) + tail;
    DottedIsRead(ps, tail, '=');
    DottedHead(ps, tail);
    assert tail[1..] == blank + after.s;
    SkipMore(blank, after.s);
    WhiteNone(after.s);
  }

  lemma WhiteNone(s: string)
    requires s != "" && !IsBlank(s[0])
    ensures ConsumeWhitespace(s) == s
  {
  }

  lemma OpenFirst(text: string, rest: string)
    requires text != "" && Matters(text[0])
    ensures Opening(text + rest).s != "" && !IsBlank(Opening(text + rest).s[0])
  {
    NothingToSkip(text + rest);
  }

  lemma NoiseEnds(behind: string)
    requires IsNoise(behind)
    ensures EndsPlain(behind)
  {
  }

  lemma FrontOneLine(d: string, blank: string)
    requires OneLine(d) && AllBlank(blank)
    ensures OneLine(d + "=" + blank)
  {
    BlankOneLine(blank);
  }
  // ----- the lines of a text ------------------------------------------------------------------

  /** A line of noise shows nothing. */
  lemma NoiseShows(noise: string, crlf: bool, more: string, stmts: seq<Stmt>)
    requires OneLine(noise) && IsNoise(noise)
    ensures Shows(Input(noise + LineEnd(crlf) + more, false), stmts) <==> Shows(Input(more, false), stmts)
  {
    hide ConsumeWhitespace, HeadShown, ItemEnd, Opening;
    var text := noise + LineEnd(crlf) + more;
    OpenLine(noise, crlf, more);
    NextLine(text);
  }

  /** A header, with blanks in front of it and blanks and a comment behind it. */
  lemma HeadShows(blank: string, ps: seq<Part>, double: bool, behind: string, crlf: bool, more: string,
                  stmts: seq<Stmt>)
    requires AllBlank(blank) && ps != [] && AllParts(ps) && IsNoise(behind) && Shows(Input(more, false), stmts)
    requires OneLine(DottedText(ps)) && OneLine(behind)
    ensures var header := if double then "[[" + DottedText(ps) + "]]" else "[" + DottedText(ps) + "]";
            Shows(Input(blank + header + behind + LineEnd(crlf) + more, false), [Head(Names(ps), double)] + stmts)
  {
    hide ConsumeWhitespace, HeadShown, ItemEnd, Opening, DottedText, OneLine, IsNoise, AllBlank;
    var header := if double then "[[" + DottedText(ps) + "]]" else "[" + DottedText(ps) + "]";
    var l := blank + header + behind;
    HeaderIsShown(ps, double, behind);
    BlankOneLine(blank);
    HeaderOneLine(blank, DottedText(ps), double, behind);
    SkipIndent(blank, header + behind);
    assert blank + (header + behind) == l;
    OpenLine(l, crlf, more);
    NextLine(l + LineEnd(crlf) + more);
    ShowsHead(l, Input(more, false), Input(l + LineEnd(crlf) + more, false), Head(Names(ps), double), stmts);
  }

  lemma HeaderOneLine(blank: string, d: string, double: bool, behind: string)
    requires OneLine(blank) && OneLine(d) && OneLine(behind)
    ensures OneLine(blank + (if double then "[[" + d + "]]" else "[" + d + "]") + behind)
  {
  }

  lemma ShowsHead(l: string, rest: Input, inp: Input, stmt: Stmt, stmts: seq<Stmt>)
    requires GetLine(inp) == Some((l, rest)) && stmt.Head? && HeadShown(ConsumeWhitespace(l), stmt.keys, stmt.double)
    requires Shows(rest, stmts)
    ensures Shows(inp, [stmt] + stmts)
  {
    hide ConsumeWhitespace, ItemEnd, GetLine, KeysEnd;
    assert ([stmt] + stmts)[1..] == stmts;
  }

  lemma ShowsItem(l: string, rest: Input, inp: Input, stmt: Stmt, stmts: seq<Stmt>)
    requires GetLine(inp) == Some((l, rest)) && stmt.Item? && !EolOrComment(ConsumeWhitespace(l))
    requires ItemEnd(St(ConsumeWhitespace(l), rest), stmt.keys, stmt.v).Some?
    requires Shows(ItemEnd(St(ConsumeWhitespace(l), rest), stmt.keys, stmt.v).value, stmts)
    ensures Shows(inp, [stmt] + stmts)
  {
    hide ConsumeWhitespace, ItemEnd, GetLine, HeadShown;
    assert ([stmt] + stmts)[1..] == stmts;
  }

  /** An item, with blanks in front of it and blanks and a comment behind its value. */
  lemma ItemShows(blank: string, ps: seq<Part>, between: string, text: string, v: Value, behind: string, crlf: bool,
                  more: string, stmts: seq<Stmt>)
    requires AllBlank(blank) && ps != [] && AllParts(ps) && ps[0].before == "" && AllBlank(between)
    requires Readable(text, v) && IsNoise(behind) && OneLine(behind) && OneLine(DottedText(ps))
    requires Shows(Input(more, false), stmts)
    ensures var item := DottedText(ps) + "=" + between + text;
            Shows(Input(blank + (item + behind + LineEnd(crlf) + more), false), [Item(Names(ps), v)] + stmts)
  {
    hide ConsumeWhitespace, HeadShown, ItemEnd, Opening, DottedText, OneLine, IsNoise, AllBlank, Readable;
    var all := DottedText(ps) + "=" + between + text + behind + LineEnd(crlf) + more;
    ItemIsShownAs(ps, between, text, v, behind, crlf, more);
    BlankOneLine(blank);
    OpenMore(blank, all);
    ItemHead(ps, "=" + between + text + behind + LineEnd(crlf) + more);
    assert all == DottedText(ps) + ("=" + between + text + behind + LineEnd(crlf) + more);
    NothingToSkip(all);
    SkipIndent(blank, Opening(all).s);
    NextLine(blank + all);
    ShowsItem(blank + Opening(all).s, Opening(all).inp, Input(blank + all, false), Item(Names(ps), v), stmts);
  }

  lemma ItemHead(ps: seq<Part>, tail: string)
    requires ps != [] && AllParts(ps) && ps[0].before == "" && OneLine(DottedText(ps))
    ensures var s := DottedText(ps) + tail; s != "" && Matters(s[0]) && s[0] != '['
  {
    DottedHead(ps, tail);
    var d := DottedText(ps);
    assert d[0] == ps[0].key.Text()[0];
  }
}
