/** How values may be laid out in a text for ssar/cpptoml.h: arrays over several lines, with comments, blank lines
    and commas behind the last element, and items with any of these values. */
module CppTomlLayout {
  import opened Wrappers
  import opened CppTomlText
  import opened CppTomlTree
  import opened CppTomlParser
  import opened CppTomlRoundTrip
  import opened CppTomlDocument
  import opened CppTomlNoise
  import opened CppTomlMeaning
  import opened CppTomlSpelling
  import opened CppTomlNumbers

  // ----- gaps ---------------------------------------------------------------------------------

  /** A blank, or the end of a line with a comment in front of it. */
  datatype GapPiece = Blank(c: char) | Break(comment: string, crlf: bool) {
    predicate Valid() {
      match this
      case Blank(c) => IsBlank(c)
      case Break(comment, _) => OneLine(comment) && EolOrComment(comment)
    }

    function Text(): string {
      match this
      case Blank(c) => [c]
      case Break(comment, crlf) => comment + LineEnd(crlf)
    }
  }

  type Gap = seq<GapPiece>

  predicate AllGap(g: Gap) {
    forall i :: 0 <= i < |g| ==> g[i].Valid()
  }

  function GapText(g: Gap): string {
    if g == [] then "" else g[0].Text() + GapText(g[1..])
  }

  /** The first line of a text, and the lines behind it. */
  function Opening(text: string): St {
    var (line, rest, _) := TakeLine(text);
    St(line, Input(rest, false))
  }

  predicate IsLineEnd(c: char) {
    c == '\n' || c == '\r'
  }

  lemma {:induction false} OpenMore(s: string, rest: string)
    requires OneLine(s)
    ensures Opening(s + rest) == St(s + Opening(rest).s, Opening(rest).inp)
  {
    if s == "" {
      assert s + rest == rest;
    } else {
      assert (s + rest)[0] == s[0] && (s + rest)[1..] == s[1..] + rest;
      OpenMore(s[1..], rest);
      assert [s[0]] + (s[1..] + Opening(rest).s) == s + Opening(rest).s;
    }
  }

  lemma {:induction false} NotEnded(text: string)
    requires !TakeLine(text).2
    ensures TakeLine(text) == (text, "", false)
  {
    if text != "" {
      NotEnded(text[1..]);
      assert [text[0]] + text[1..] == text;
    }
  }

  lemma NextLine(text: string)
    requires text != ""
    ensures GetLine(Input(text, false)) == Some((Opening(text).s, Opening(text).inp))
  {
    hide TakeLine;
    if !TakeLine(text).2 {
      NotEnded(text);
    }
  }

  /** A character that is neither blank nor the start of a comment nor of a line end. */
  predicate Matters(c: char) {
    !IsBlank(c) && c != '#' && !IsLineEnd(c)
  }

  /** skip_whitespace_and_comments skips a gap, over line ends. */
  lemma {:induction false} GapIsSkipped(g: Gap, rest: string)
    requires AllGap(g) && rest != "" && Matters(rest[0])
    ensures SkipBlank(Opening(GapText(g) + rest)) == Ok(Opening(rest))
    decreases |g|
  {
    hide SkipBlank, Opening, ConsumeWhitespace;
    if g == [] {
      assert GapText(g) + rest == rest;
      NothingToSkip(rest);
    } else {
      var more := GapText(g[1..]) + rest;
      assert GapText(g) + rest == g[0].Text() + more;
      GapIsSkipped(g[1..], rest);
      PieceIsSkipped(g[0], more);
    }
  }

  lemma NothingToSkip(rest: string)
    requires rest != "" && Matters(rest[0])
    ensures Opening(rest).s != "" && Opening(rest).s[0] == rest[0] && SkipBlank(Opening(rest)) == Ok(Opening(rest))
  {
    OpenMore(rest[..1], rest[1..]);
    assert rest[..1] + rest[1..] == rest;
  }

  lemma PieceIsSkipped(p: GapPiece, more: string)
    requires p.Valid() && more != ""
    ensures SkipBlank(Opening(p.Text() + more)) == SkipBlank(Opening(more))
  {
    hide Opening, TakeLine;
    match p
    case Blank(c) =>
      OpenMore([c], more);
      assert ([c] + Opening(more).s)[1..] == Opening(more).s;
      SkipSame(Opening([c] + more), Opening(more));
    case Break(comment, crlf) =>
      OpenLine(comment, crlf, more);
      NextLine(more);
  }

  lemma OpenLine(l: string, crlf: bool, more: string)
    requires OneLine(l)
    ensures Opening(l + LineEnd(crlf) + more) == St(l, Input(more, false))
  {
    hide TakeLine;
    TakeEnded(l, crlf, more);
  }

  /** Blanks in front make no difference to what is skipped. */
  lemma SkipSame(a: St, b: St)
    requires ConsumeWhitespace(a.s) == ConsumeWhitespace(b.s) && a.inp == b.inp
    ensures SkipBlank(a) == SkipBlank(b)
  {
    hide ConsumeWhitespace;
  }

  // ----- values -------------------------------------------------------------------------------

  /** In front of `rest`, the text is read as the value, and as an array element it has the value's type. */
  predicate ReadsTo(text: string, v: Value, rest: string) {
    var st := Opening(text + rest);
    var r := ParseValue(st);
    text != "" && Matters(text[0]) && text[0] != ']' &&
    ValueType(st.s[..Span(st.s, InElement)]) == Ok(TypeOf(v)) &&
    r.Ok? && r.value.0 == v && r.value.1.inp == Opening(rest).inp &&
    ConsumeWhitespace(r.value.1.s) == ConsumeWhitespace(Opening(rest).s)
  }

  /** The text of a value, in front of anything that can follow one. */
  ghost predicate Readable(text: string, v: Value) {
    forall rest :: EndsPlain(Opening(rest).s) ==> ReadsTo(text, v, rest)
  }

  /** A value on one line. */
  lemma LineReadsTo(text: string, v: Value, rest: string, t: string)
    requires OneLine(text) && text != "" && Matters(text[0]) && text[0] != ']'
    requires var s := text + Opening(rest).s;
             ValueType(s[..Span(s, InElement)]) == Ok(TypeOf(v)) &&
             ParseValue(St(s, Opening(rest).inp)) == Ok((v, St(t, Opening(rest).inp)))
    requires ConsumeWhitespace(t) == ConsumeWhitespace(Opening(rest).s)
    ensures ReadsTo(text, v, rest)
  {
    hide Opening, ValueType, ParseValue, Span, ConsumeWhitespace, Matters;
    OpenMore(text, rest);
  }

  lemma BoolIsReadable(b: bool)
    ensures Readable(BoolText(b), Bool(b))
  {
    hide Opening, ReadsTo, EndsPlain, ConsumeWhitespace, ValueType, ParseValue, Span, InElement;
    var text := BoolText(b);
    forall rest | EndsPlain(Opening(rest).s) ensures ReadsTo(text, Bool(b), rest) {
      BoolIsRead(b, Opening(rest).s, Opening(rest).inp);
      LineReadsTo(text, Bool(b), rest, Opening(rest).s);
    }
  }

  function BoolText(b: bool): (s: string)
    ensures OneLine(s) && s != "" && Matters(s[0]) && s[0] != ']' && (s[0] == 't' || s[0] == 'f')
    ensures forall i :: 0 <= i < |s| ==> InElement(s[i])
  {
    if b then "true" else "false"
  }

  lemma BoolIsRead(b: bool, tail: string, inp: Input)
    ensures var s := BoolText(b) + tail;
            ValueType(s[..Span(s, InElement)]) == Ok(TBool) && ParseValue(St(s, inp)) == Ok((Bool(b), St(tail, inp)))
  {
    hide ValueType, BoolText, ParseBool, Span, InElement, ParseArray;
    var s := BoolText(b) + tail;
    SpanPast(BoolText(b), tail, InElement);
    var first := s[..Span(s, InElement)];
    assert s[0] == BoolText(b)[0] && first[0] == s[0];
    TypeOfHead(s);
    TypeOfHead(first);
    BoolIsParsed(b, tail);
  }

  lemma BoolIsParsed(b: bool, tail: string)
    ensures ParseBool(BoolText(b) + tail) == Ok((Bool(b), tail))
  {
    var s := BoolText(b) + tail;
    assert s[|BoolText(b)|..] == tail;
  }

  lemma {:induction false} SpanPast(a: string, b: string, p: char -> bool)
    requires forall i :: 0 <= i < |a| ==> p(a[i])
    ensures Span(a + b, p) == |a| + Span(b, p) && (a + b)[..|a| + Span(b, p)] == a + b[..Span(b, p)]
  {
    if a == "" {
      assert a + b == b;
    } else {
      assert (a + b)[1..] == a[1..] + b;
      SpanPast(a[1..], b, p);
    }
  }

  /** Signs, digits and underscores. */
  lemma NumberIsReadable(sign: string, groups: seq<string>)
    requires IsSign(sign) && AllGroups(groups) && groups != []
    requires var d := Joined(groups); d[0] == '0' ==> |d| == 1
    requires IsInt64(Signed(sign, DigitsValue(Concat(groups))))
    ensures Readable(sign + Joined(groups), Int(Signed(sign, DigitsValue(Concat(groups)))))
  {
    hide TakeLine, Opening, ParseNumber, DigitsValue, EndsPlain, AllGroups, Joined, Concat, IsInt64, ValueType;
    var text, v := sign + Joined(groups), Int(Signed(sign, DigitsValue(Concat(groups))));
    JoinedChars(groups);
    NumberChars(sign, Joined(groups));
    forall rest | EndsPlain(Opening(rest).s) ensures ReadsTo(text, v, rest) {
      var tail := Opening(rest).s;
      NumberIsRead(sign, groups, tail);
      SpanPast(text, tail, InElement);
      CutTail(tail);
      NumberIsRead(sign, groups, tail[..Span(tail, InElement)]);
      NumberValue(text + tail, Opening(rest).inp);
      LineReadsTo(text, v, rest, tail);
    }
  }

  lemma NumberValue(s: string, inp: Input)
    requires ValueType(s) == Ok(TInt) && ParseNumber(s).Ok?
    ensures ParseValue(St(s, inp)) == Ok((ParseNumber(s).value.0, St(ParseNumber(s).value.1, inp)))
  {
    hide ValueType, ParseNumber;
  }

  lemma NumberChars(sign: string, d: string)
    requires IsSign(sign) && d != "" && forall i :: 0 <= i < |d| ==> IsDigitOrScore(d[i])
    ensures var text := sign + d;
            OneLine(text) && text != "" && Matters(text[0]) && text[0] != ']' &&
            forall i :: 0 <= i < |text| ==> InElement(text[i])
  {
    assert sign != "" ==> (sign + d)[0] == sign[0];
    assert sign == "" ==> (sign + d)[0] == d[0];
  }

  /** What is in front of the next comma, bracket or comment is blank. */
  lemma CutTail(tail: string)
    requires EndsPlain(tail)
    ensures EndsPlain(tail[..Span(tail, InElement)])
  {
    var n := Span(tail, InElement);
    BlanksOnly(tail);
  }

  lemma {:induction false} BlanksOnly(tail: string)
    requires EndsPlain(tail)
    ensures ConsumeWhitespace(tail[..Span(tail, InElement)]) == ""
  {
    if tail != "" && IsBlank(tail[0]) {
      BlanksOnly(tail[1..]);
      var n := Span(tail, InElement);
      assert tail[..n][1..] == tail[1..][..n - 1];
    }
  }

  /** Strings in single or double quotes. */
  lemma StringIsReadable(k: Spelling)
    requires k.Valid() && !k.Bare? && OneLine(k.Text())
    ensures Readable(k.Text(), Str(k.Key()))
  {
    hide Opening, OneLine, ParseString, Spelling.Valid, Spelling.Text, Spelling.Key, ReadsTo, EndsPlain, ValueType;
    hide ConsumeWhitespace;
    forall rest | EndsPlain(Opening(rest).s) ensures ReadsTo(k.Text(), Str(k.Key()), rest) {
      var tail := Opening(rest).s;
      StringIsRead(k, tail, Opening(rest).inp);
      WhiteTwice(tail);
      QuotesApart(k);
      LineReadsTo(k.Text(), Str(k.Key()), rest, ConsumeWhitespace(tail));
    }
  }

  /** Nothing but an empty string starts with two quotes. */
  lemma QuotesApart(k: Spelling)
    requires k.Valid() && !k.Bare?
    ensures var t := k.Text(); |t| >= 2 && (t[0] == '\"' || t[0] == '\'') && (|t| == 2 || t[1] != t[0])
  {
    match k
    case Single(key) => assert key != "" ==> k.Text()[1] == key[0];
    case Double(ps) =>
      if ps != [] {
        assert k.Text()[1] == Sources(ps)[0] == Source(ps[0])[0];
      } else {
        assert Sources(ps) == "";
      }
  }

  lemma StringIsRead(k: Spelling, tail: string, inp: Input)
    requires k.Valid() && !k.Bare? && EndsPlain(tail)
    ensures var s := k.Text() + tail;
            ValueType(s[..Span(s, InElement)]) == Ok(TString) &&
            ParseValue(St(s, inp)) == Ok((Str(k.Key()), St(ConsumeWhitespace(tail), inp)))
  {
    hide StringLiteral, ConsumeWhitespace, Sources, Values, EndsPlain, IsTime, IsDate;
    var s := k.Text() + tail;
    QuotesApart(k);
    TailStops(tail);
    assert s[0] == k.Text()[0] && s[1] == k.Text()[1];
    assert |s| > 2 ==> s[2] == if |k.Text()| > 2 then k.Text()[2] else tail[0];
    assert Span(s, InElement) > 0 && s[..Span(s, InElement)][0] == s[0];
    match k
    case Single(key) => SingleIsRead(key, tail);
    case Double(ps) => DoubleIsRead(ps, tail);
  }
}
