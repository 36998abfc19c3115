/** Comments behind a header or an item of a text for ssar/cpptoml.h: what is read on a line does not change when
    blanks and a comment follow. */
module CppTomlTails {
  import opened Wrappers
  import opened CppTomlText
  import opened CppTomlTree
  import opened CppTomlParser
  import opened CppTomlDocument
  import opened CppTomlNoise

  /** `s'` is `s` with blanks, and possibly a comment, behind it. */
  predicate Tailed(s: string, s': string) {
    s <= s' && IsNoise(s'[|s|..])
  }

  // ----- scanning -----------------------------------------------------------------------------

  lemma {:induction false} WhiteTailed(s: string, s': string)
    requires Tailed(s, s')
    ensures Tailed(ConsumeWhitespace(s), ConsumeWhitespace(s'))
    ensures ConsumeWhitespace(s) == "" ==> EolOrComment(ConsumeWhitespace(s'))
  {
    if s == "" {
      assert s'[0..] == s';
      assert ConsumeWhitespace(ConsumeWhitespace(s')) == ConsumeWhitespace(s');
      assert ConsumeWhitespace(s')[0..] == ConsumeWhitespace(s');
    } else if IsBlank(s[0]) {
      assert s'[1..][|s| - 1..] == s'[|s|..];
      WhiteTailed(s[1..], s'[1..]);
    }
  }

  lemma RestTailed(s: string, s': string, n: nat)
    requires Tailed(s, s') && n <= |s|
    ensures n <= |s'| && Tailed(s[n..], s'[n..]) && s'[..n] == s[..n]
  {
    assert s'[n..][|s[n..]|..] == s'[|s|..];
  }

  /** What comes behind is blank or starts a comment. */
  lemma TailHead(s: string, s': string)
    requires Tailed(s, s') && |s| < |s'|
    ensures IsBlank(s'[|s|]) || s'[|s|] == '#'
    ensures |s| + 1 < |s'| && IsBlank(s'[|s|]) ==> IsBlank(s'[|s| + 1]) || s'[|s| + 1] == '#'
  {
    var c := s'[|s|..];
    assert c[0] == s'[|s|];
    if |c| > 1 && IsBlank(c[0]) {
      assert c[1] == s'[|s| + 1] && c[1..][0] == c[1];
    }
  }

  predicate StopsAtTail(p: char -> bool) {
    !p(' ') && !p('\t') && !p('#')
  }

  lemma {:induction false} SpanTailed(s: string, s': string, p: char -> bool)
    requires Tailed(s, s') && StopsAtTail(p)
    ensures Span(s', p) == Span(s, p)
  {
    if s == "" {
      if s' != "" {
        TailHead(s, s');
      }
    } else if p(s[0]) {
      RestTailed(s, s', 1);
      SpanTailed(s[1..], s'[1..], p);
    }
  }

  /** A span that ends inside the line ends there whatever follows. */
  lemma {:induction false} SpanStops(s: string, s': string, p: char -> bool)
    requires s <= s' && Span(s, p) < |s|
    ensures Span(s', p) == Span(s, p)
  {
    if p(s[0]) {
      SpanStops(s[1..], s'[1..], p);
    }
  }

  // ----- strings and keys ---------------------------------------------------------------------

  lemma {:induction false} HexTailed(s: string, s': string, digits: nat, acc: nat)
    requires Tailed(s, s') && ParseHex(s, digits, acc).Ok?
    ensures ParseHex(s', digits, acc) == Ok((ParseHex(s, digits, acc).value.0, s'[digits..]))
    decreases digits
  {
    if digits > 0 {
      RestTailed(s, s', 1);
      HexTailed(s[1..], s'[1..], digits - 1, 16 * acc + HexValue(s[0]));
      assert s'[1..][digits - 1..] == s'[digits..];
    } else {
      assert s'[0..] == s';
    }
  }

  /** The same value, and more of a tail. */
  predicate SameRead<T(==)>(r: Parsed<(T, string)>, r': Parsed<(T, string)>) {
    r.Ok? && r'.Ok? && r'.value.0 == r.value.0 && Tailed(r.value.1, r'.value.1)
  }

  lemma EscapeTailed(s: string, s': string)
    requires s != "" && Tailed(s, s') && ParseEscapeCode(s).Ok?
    ensures SameRead(ParseEscapeCode(s), ParseEscapeCode(s'))
  {
    hide Tailed, UnicodeBytes, ParseHex;
    RestTailed(s, s', 1);
    var t, t' := s[1..], s'[1..];
    RestTailed(t, t', 1);
    TailedHead(t, t');
    if t[0] == 'u' || t[0] == 'U' {
      var digits := if t[0] == 'U' then 8 else 4;
      HexTailed(t[1..], t'[1..], digits, 0);
      RestTailed(t[1..], t'[1..], digits);
    }
  }

  lemma TailedHead(s: string, s': string)
    requires s != "" && Tailed(s, s')
    ensures s' != "" && s'[0] == s[0] && s <= s'
  {
  }

  lemma {:induction false} LiteralTailed(s: string, s': string, delim: char, val: string)
    requires Tailed(s, s') && LiteralBody(s, delim, val).Ok?
    ensures SameRead(LiteralBody(s, delim, val), LiteralBody(s', delim, val))
    decreases |s|
  {
    hide Tailed, ParseEscapeCode, ConsumeWhitespace;
    TailedHead(s, s');
    RestTailed(s, s', 1);
    if delim == '\"' && s[0] == '\\' {
      EscapeTailed(s, s');
      var (c, rest) := ParseEscapeCode(s).value;
      LiteralTailed(rest, ParseEscapeCode(s').value.1, delim, val + c);
    } else if s[0] == delim {
      WhiteTailed(s[1..], s'[1..]);
    } else {
      LiteralTailed(s[1..], s'[1..], delim, val + [s[0]]);
    }
  }

  lemma SimpleKeyTailed(s: string, s': string)
    requires Tailed(s, s') && ParseSimpleKey(s).Ok? && ParseSimpleKey(s).value.1 != ""
    ensures SameRead(ParseSimpleKey(s), ParseSimpleKey(s'))
  {
    hide Tailed, LiteralBody, ConsumeWhitespace, Span, InKey;
    WhiteTailed(s, s');
    var t, t' := ConsumeWhitespace(s), ConsumeWhitespace(s');
    TailedHead(t, t');
    if t[0] == '\"' || t[0] == '\'' {
      RestTailed(t, t', 1);
      LiteralTailed(t[1..], t'[1..], t[0], "");
    } else {
      var n := Span(t, InKey);
      SpanStops(t, t', InKey);
      RestTailed(t, t', n);
    }
  }
  lemma {:induction false} KeyTailed(s: string, s': string, mode: Mode, w: Walk)
    requires w.Valid() && Tailed(s, s') && ParseKey(s, mode, w).Ok? && ParseKey(s, mode, w).value.1 != ""
    ensures ParseKey(s', mode, w).Ok?
    ensures var ((part, rest, w1), (part', rest', w1')) := (ParseKey(s, mode, w).value, ParseKey(s', mode, w).value);
            part' == part && w1' == w1 && Tailed(rest, rest')
    decreases |s|
  {
    hide Tailed, HasPath, ParseSimpleKey, HandlePart, ConsumeWhitespace, ParseKey;
    KeyParts(s, mode, w);
    var (part, rest) := ParseSimpleKey(s).value;
    TailedHead(s, s');
    SimpleKeyTailed(s, s');
    var rest' := ParseSimpleKey(s').value.1;
    KeyRound(s, part, rest, mode, w);
    KeyRound(s', part, rest', mode, w);
    WhiteTailed(rest, rest');
    var t, t' := ConsumeWhitespace(rest), ConsumeWhitespace(rest');
    TailedHead(t, t');
    if t[0] != KeyEnd(mode) {
      RestTailed(t, t', 1);
      KeyTailed(t[1..], t'[1..], mode, HandlePart(mode, w, part, false).value);
    }
  }

  lemma KeyParts(s: string, mode: Mode, w: Walk)
    requires w.Valid() && ParseKey(s, mode, w).Ok? && ParseKey(s, mode, w).value.1 != ""
    ensures s != "" && s[0] != KeyEnd(mode) && ParseSimpleKey(s).Ok?
    ensures var t := ConsumeWhitespace(ParseSimpleKey(s).value.1);
            t != "" && ParseSimpleKey(s).value.1 != "" &&
            (t[0] != KeyEnd(mode) ==> t[0] == '.' && HandlePart(mode, w, ParseSimpleKey(s).value.0, false).Ok?)
  {
    hide HasPath, ParseSimpleKey, HandlePart;
  }

  // ----- headers ------------------------------------------------------------------------------

  lemma StartsValid(root: Table)
    ensures Walk(root, [], false).Valid()
  {
  }

  lemma SingleTableTailed(s: string, s': string, root: Table)
    requires Tailed(s, s') && ParseSingleTable(s, root).Ok?
    ensures ParseSingleTable(s', root) == ParseSingleTable(s, root)
  {
    hide Tailed, HasPath, ParseKey, TablePart, At, ConsumeWhitespace;
    TailedHead(s, s');
    StartsValid(root);
    KeyTailed(s, s', ForTable, Walk(root, [], false));
    var rest, rest' := ParseKey(s, ForTable, Walk(root, [], false)).value.1,
                       ParseKey(s', ForTable, Walk(root, [], false)).value.1;
    TailedHead(rest, rest');
    RestTailed(rest, rest', 1);
    EndTailed(rest[1..], rest'[1..]);
  }

  /** The end of a line, or a comment, is still the end with a tail. */
  lemma EndTailed(s: string, s': string)
    requires Tailed(s, s') && EolOrComment(ConsumeWhitespace(s))
    ensures EolOrComment(ConsumeWhitespace(s'))
  {
    hide ConsumeWhitespace;
    WhiteTailed(s, s');
  }

  lemma TableArrayTailed(s: string, s': string, root: Table)
    requires s != "" && Tailed(s, s') && ParseTableArray(s, root).Ok?
    ensures s' != "" && ParseTableArray(s', root) == ParseTableArray(s, root)
  {
    hide Tailed, HasPath, ParseKey, TableArrayPart, ConsumeWhitespace;
    TailedHead(s, s');
    RestTailed(s, s', 1);
    var t, t' := s[1..], s'[1..];
    TailedHead(t, t');
    StartsValid(root);
    KeyTailed(t, t', ForTableArray, Walk(root, [], false));
    var rest, rest' := ParseKey(t, ForTableArray, Walk(root, [], false)).value.1,
                       ParseKey(t', ForTableArray, Walk(root, [], false)).value.1;
    TailedHead(rest, rest');
    RestTailed(rest, rest', 2);
    assert rest'[1] == rest'[..2][1];
    EndTailed(rest[2..], rest'[2..]);
  }

  lemma TableTailed(s: string, s': string, root: Table)
    requires s != "" && Tailed(s, s') && ParseTable(s, root).Ok?
    ensures s' != "" && ParseTable(s', root) == ParseTable(s, root)
  {
    hide Tailed, ParseSingleTable, ParseTableArray;
    TailedHead(s, s');
    RestTailed(s, s', 1);
    TailedHead(s[1..], s'[1..]);
    if s[1] == '[' {
      TableArrayTailed(s[1..], s'[1..], root);
    } else {
      SingleTableTailed(s[1..], s'[1..], root);
    }
  }

  // ----- values without parts -------------------------------------------------------------------

  lemma TimeTailed(s: string, s': string)
    requires Tailed(s, s')
    ensures IsTime(s') == IsTime(s)
  {
    SpanTailed(s, s', IsTimeChar);
  }

  lemma DateEndTailed(s: string, s': string)
    requires Tailed(s, s')
    ensures DateEnd(s') == DateEnd(s)
  {
    hide Tailed, IsDateChar, IsDateTailChar, Span, IsNumber;
    StopsDates();
    SpanTailed(s, s', IsDateChar);
    var n := Span(s, IsDateChar);
    TimeBehind(s, s', n);
    var m := if n + 1 < |s| && s[n] == ' ' && IsNumber(s[n + 1]) then n + 1 else n;
    RestTailed(s, s', m);
    SpanTailed(s[m..], s'[m..], IsDateTailChar);
  }

  lemma StopsDates()
    ensures StopsAtTail(IsDateChar) && StopsAtTail(IsDateTailChar)
  {
  }

  /** A blank and a digit behind a date are there with the tail if they were there without it. */
  lemma TimeBehind(s: string, s': string, n: nat)
    requires Tailed(s, s') && n <= |s|
    ensures (n + 1 < |s'| && s'[n] == ' ' && IsNumber(s'[n + 1])) <==>
            (n + 1 < |s| && s[n] == ' ' && IsNumber(s[n + 1]))
  {
    hide Tailed;
    TailedPrefix(s, s');
    if n + 1 >= |s| && n + 1 < |s'| {
      TailHead(s, s');
    }
  }

  lemma TailedPrefix(s: string, s': string)
    requires Tailed(s, s')
    ensures s <= s'
  {
  }

  lemma DateTailed(s: string, s': string)
    requires Tailed(s, s')
    ensures IsDate(s') == IsDate(s)
  {
    hide Tailed, DateEnd, IsTime;
    DateEndTailed(s, s');
    TailedPrefix(s, s');
    var n := DateEnd(s);
    if n >= 19 {
      assert s'[11..n] == s[11..n];
    }
  }

  lemma InfOrNanTailed(s: string, s': string)
    requires Tailed(s, s')
    ensures IsInfOrNan(s') == IsInfOrNan(s)
  {
    hide IsNoise;
    if |s| < 3 <= |s'| {
      TailHead(s, s');
    }
  }

  lemma NumberTypeTailed(s: string, s': string)
    requires s != "" && Tailed(s, s') && NumberType(s).Ok?
    ensures s' != "" && NumberType(s') == NumberType(s)
  {
    hide Tailed;
    TailedHead(s, s');
    RestTailed(s, s', 1);
    var t, t' := if s[0] == '-' || s[0] == '+' then s[1..] else s, if s[0] == '-' || s[0] == '+' then s'[1..] else s';
    TailedHead(t, t');
    SpanTailed(t, t', IsNumber);
    if Span(t, IsNumber) == |t| < |t'| {
      TailHead(t, t');
    }
  }

  lemma TypeTailed(s: string, s': string)
    requires Tailed(s, s') && ValueType(s).Ok?
    ensures ValueType(s') == ValueType(s)
  {
    hide Tailed, IsTime, IsDate, NumberType, IsInfOrNan;
    TailedHead(s, s');
    TimeTailed(s, s');
    DateTailed(s, s');
    InfOrNanTailed(s, s');
    if NumberType(s).Ok? {
      NumberTypeTailed(s, s');
    }
  }

  lemma StringTailed(s: string, s': string)
    requires s != "" && (s[0] == '\"' || s[0] == '\'') && Tailed(s, s') && ParseString(s).Ok?
    ensures s' != "" && SameRead(ParseString(s), ParseString(s'))
  {
    hide Tailed, LiteralBody;
    TailedHead(s, s');
    RestTailed(s, s', 1);
    LiteralTailed(s[1..], s'[1..], s[0], "");
    if |s| < |s'| {
      TailHead(s, s');
    }
    TailedPrefix(s, s');
  }

  lemma {:induction false} EatTailed(s: string, s': string, any: bool)
    requires Tailed(s, s') && EatDigits(s, any).Ok?
    ensures EatDigits(s', any).Ok? && Tailed(EatDigits(s, any).value, EatDigits(s', any).value)
    ensures |s'| - |EatDigits(s', any).value| == |s| - |EatDigits(s, any).value|
    decreases |s|
  {
    hide Tailed;
    TailedPrefix(s, s');
    if |s| < |s'| {
      TailHead(s, s');
    }
    if s != "" && IsNumber(s[0]) {
      if |s| > 1 && s[1] == '_' {
        RestTailed(s, s', 2);
        EatTailed(s[2..], s'[2..], true);
      } else {
        RestTailed(s, s', 1);
        EatTailed(s[1..], s'[1..], true);
      }
    }
  }
  lemma NumberEndTailed(s: string, s': string)
    requires Tailed(s, s')
    ensures NumberEnd(s') == NumberEnd(s)
  {
    hide Tailed, IsInfOrNan;
    SpanTailed(s, s', IsNumberPart);
    var n := Span(s, IsNumberPart);
    RestTailed(s, s', n);
    InfOrNanTailed(s[n..], s'[n..]);
  }

  /** A number that ends the line is all of the rest, so a zero in front of a tail does not count as leading. */
  lemma ZeroTailed(s: string, s': string)
    requires s != "" && Tailed(s, s') && AfterSign(s) != ""
    ensures var end, t, t' := NumberEnd(s), AfterSign(s), AfterSign(s');
            Tailed(t, t') && |s'| - |t'| == |s| - |t| && OtherBase(s', end) == OtherBase(s, end) &&
            LeadingZero(t', end - (|s| - |t|)) == LeadingZero(t, end - (|s| - |t|))
  {
    hide Tailed, IsInfOrNan;
    TailedHead(s, s');
    RestTailed(s, s', 1);
    var t, t' := AfterSign(s), AfterSign(s');
    TailedPrefix(t, t');
    if |t| < |t'| {
      TailHead(t, t');
    }
    if t == "0" {
      var n := Span(s, IsNumberPart);
      assert n == |s|;
      assert s[n..] == "";
      ShortIsNeither("");
    }
  }

  lemma ShortIsNeither(s: string)
    requires |s| < 3
    ensures !IsInfOrNan(s)
  {
  }

  lemma NumberTailed(s: string, s': string)
    requires Tailed(s, s') && ParseNumber(s).Ok?
    ensures SameRead(ParseNumber(s), ParseNumber(s'))
  {
    hide Tailed, IsInfOrNan, NumberEnd, EatDigits, OtherBase, LeadingZero, Stoll, WithoutUnderscores;
    var t, t' := AfterSign(s), AfterSign(s');
    SomeDigits(s);
    NumberEndTailed(s, s');
    ZeroTailed(s, s');
    InfOrNanTailed(t, t');
    EatTailed(t, t', false);
    var rest, rest' := EatDigits(t, false).value, EatDigits(t', false).value;
    TailedPrefix(rest, rest');
    if |rest| < |rest'| {
      TailHead(rest, rest');
    }
    RestTailed(s, s', |s| - |rest|);
  }

  lemma SomeDigits(s: string)
    requires ParseNumber(s).Ok?
    ensures s != "" && AfterSign(s) != ""
  {
    hide IsInfOrNan, NumberEnd, OtherBase, LeadingZero, ParseInt;
  }

  lemma BoolTailed(s: string, s': string)
    requires Tailed(s, s') && ParseBool(s).Ok?
    ensures SameRead(ParseBool(s), ParseBool(s'))
  {
    hide IsNoise;
    RestTailed(s, s', 4);
    if s[0] == 'f' {
      RestTailed(s, s', 5);
    }
  }

  // ----- arrays on one line -----------------------------------------------------------------------

  /** A value, the rest of the same line, and the input behind that line, as it was. */
  predicate OnLine(r: Parsed<(Value, St)>, inp: Input) {
    r.Ok? && r.value.1.inp == inp
  }

  predicate SameValue(r: Parsed<(Value, St)>, r': Parsed<(Value, St)>, inp: Input) {
    OnLine(r, inp) && OnLine(r', inp) && r'.value.0 == r.value.0 && Tailed(r.value.1.s, r'.value.1.s)
  }

  /** The input is as it was, or there is less of it. */
  predicate Further(inp: Input, inp': Input) {
    inp' == inp || InputLeft(inp') < InputLeft(inp)
  }

  lemma {:induction false} SkipFurther(st: St)
    requires SkipBlank(st).Ok?
    ensures Further(st.inp, SkipBlank(st).value.inp)
    ensures SkipBlank(st).value.inp == st.inp ==>
              SkipBlank(st).value.s == ConsumeWhitespace(st.s) && !EolOrComment(ConsumeWhitespace(st.s))
    decreases Left(st)
  {
    hide ConsumeWhitespace, GetLine;
    if EolOrComment(ConsumeWhitespace(st.s)) {
      var (line, inp) := GetLine(st.inp).value;
      GetLineShrinks(st);
      SkipFurther(St(line, inp));
    }
  }

  lemma SkipTailed(s: string, s': string, inp: Input)
    requires Tailed(s, s') && SkipBlank(St(s, inp)).Ok? && SkipBlank(St(s, inp)).value.inp == inp
    ensures SkipBlank(St(s', inp)).Ok? && SkipBlank(St(s', inp)).value.inp == inp
    ensures Tailed(SkipBlank(St(s, inp)).value.s, SkipBlank(St(s', inp)).value.s)
  {
    hide ConsumeWhitespace, Tailed;
    SkipFurther(St(s, inp));
    WhiteTailed(s, s');
    TailedHead(ConsumeWhitespace(s), ConsumeWhitespace(s'));
  }

  lemma {:induction false} ValueFurther(st: St)
    requires ParseValue(st).Ok?
    ensures Further(st.inp, ParseValue(st).value.1.inp)
    decreases Left(st), 2
  {
    hide ValueType, ParseString, ParseNumber, ParseBool, ParseArray;
    if ValueType(st.s) == Ok(TArray) {
      ArrayFurther(st);
    }
  }

  lemma {:induction false} ArrayFurther(st: St)
    requires st.s != "" && ParseArray(st).Ok?
    ensures Further(st.inp, ParseArray(st).value.1.inp)
    decreases Left(st), 1
  {
    hide ValueType, SkipBlank, ParseValueArray, ParseArrayArray, Span, InElement;
    var st0 := St(st.s[1..], st.inp);
    SkipFurther(st0);
    var st1 := SkipBlank(st0).value;
    if st1.s[0] != ']' {
      match ValueType(st1.s[..Span(st1.s, InElement)]).value
      case TString => ValueArrayFurther(st1, KStr, []);
      case TInt => ValueArrayFurther(st1, KInt, []);
      case TBool => ValueArrayFurther(st1, KBool, []);
      case TArray => ArrayArrayFurther(st1, []);
    }
  }

  lemma {:induction false} ValueArrayFurther(st: St, kind: Kind, elems: seq<Value>)
    requires ParseValueArray(st, kind, elems).Ok?
    ensures Further(st.inp, ParseValueArray(st, kind, elems).value.1.inp)
    decreases Left(st), 3
  {
    hide SkipBlank, ParseValue;
    if st.s != "" && st.s[0] != ']' {
      ValueFurther(st);
      var (v, st1) := ParseValue(st).value;
      SkipFurther(st1);
      var st2 := SkipBlank(st1).value;
      if st2.s[0] == ',' {
        SkipFurther(St(st2.s[1..], st2.inp));
        ValueArrayFurther(SkipBlank(St(st2.s[1..], st2.inp)).value, kind, elems + [v]);
      }
    }
  }

  lemma {:induction false} ArrayArrayFurther(st: St, elems: seq<Value>)
    requires ParseArrayArray(st, elems).Ok?
    ensures Further(st.inp, ParseArrayArray(st, elems).value.1.inp)
    decreases Left(st), 3
  {
    hide SkipBlank, ParseArray;
    if st.s[0] != ']' {
      ArrayFurther(st);
      var (v, st1) := ParseArray(st).value;
      SkipFurther(st1);
      var st2 := SkipBlank(st1).value;
      if st2.s[0] == ',' {
        SkipFurther(St(st2.s[1..], st2.inp));
        ArrayArrayFurther(SkipBlank(St(st2.s[1..], st2.inp)).value, elems + [v]);
      }
    }
  }
  lemma {:induction false} ValueTailed(s: string, s': string, inp: Input)
    requires Tailed(s, s') && OnLine(ParseValue(St(s, inp)), inp)
    ensures SameValue(ParseValue(St(s, inp)), ParseValue(St(s', inp)), inp)
    decreases Left(St(s, inp)), 2
  {
    hide ValueType, ParseString, ParseNumber, ParseBool, ParseArray, Tailed;
    TypeTailed(s, s');
    match ValueType(s).value
    case TString =>
      QuoteFirst(s);
      StringTailed(s, s');
    case TInt => NumberTailed(s, s');
    case TBool => BoolTailed(s, s');
    case TArray => ArrayTailed(s, s', inp);
  }

  lemma QuoteFirst(s: string)
    requires ValueType(s) == Ok(TString)
    ensures s != "" && (s[0] == '\"' || s[0] == '\'')
  {
    hide IsTime, IsDate;
  }

  /** The text up to the next comma, bracket or comment, from which the type of an array is taken. */
  lemma ElementTailed(s: string, s': string)
    requires Tailed(s, s')
    ensures Tailed(s[..Span(s, InElement)], s'[..Span(s', InElement)])
  {
    hide ConsumeWhitespace;
    TailedPrefix(s, s');
    var n, n' := Span(s, InElement), Span(s', InElement);
    if n < |s| {
      SpanStops(s, s', InElement);
      NoTail(s[..n]);
    } else {
      SpanGoesOn(s, s', InElement);
      BlankPrefix(s'[|s|..], n' - |s|);
      assert s'[..n'][|s|..] == s'[|s|..][..n' - |s|];
    }
  }

  lemma NoTail(s: string)
    ensures Tailed(s, s)
  {
    assert s[|s|..] == "";
  }

  lemma {:induction false} SpanGoesOn(s: string, s': string, p: char -> bool)
    requires s <= s' && Span(s, p) == |s|
    ensures Span(s', p) >= |s|
  {
    if s != "" {
      assert s'[1..][..|s| - 1] == s[1..];
      SpanGoesOn(s[1..], s'[1..], p);
    }
  }

  /** What comes before the comment in a tail is a tail. */
  lemma {:induction false} BlankPrefix(c: string, n: nat)
    requires IsNoise(c) && n <= |c| && '#' !in c[..n]
    ensures IsNoise(c[..n])
  {
    if n > 0 {
      assert c[0] == c[..n][0];
      assert c[..n][1..] == c[1..][..n - 1];
      BlankPrefix(c[1..], n - 1);
    }
  }

  lemma {:induction false} ArrayTailed(s: string, s': string, inp: Input)
    requires s != "" && Tailed(s, s') && OnLine(ParseArray(St(s, inp)), inp)
    ensures s' != "" && SameValue(ParseArray(St(s, inp)), ParseArray(St(s', inp)), inp)
    decreases Left(St(s, inp)), 1
  {
    hide ValueType, SkipBlank, ParseValueArray, ParseArrayArray, Span, InElement, Tailed, InputLeft;
    TailedHead(s, s');
    RestTailed(s, s', 1);
    ArrayStarts(St(s, inp));
    SkipTailed(s[1..], s'[1..], inp);
    var t, t' := SkipBlank(St(s[1..], inp)).value.s, SkipBlank(St(s'[1..], inp)).value.s;
    TailedHead(t, t');
    RestTailed(t, t', 1);
    if t[0] != ']' {
      ElementTailed(t, t');
      TypeTailed(t[..Span(t, InElement)], t'[..Span(t', InElement)]);
      match ValueType(t[..Span(t, InElement)]).value
      case TString => ValueArrayTailed(t, t', inp, KStr, []);
      case TInt => ValueArrayTailed(t, t', inp, KInt, []);
      case TBool => ValueArrayTailed(t, t', inp, KBool, []);
      case TArray => ArrayArrayTailed(t, t', inp, []);
    }
  }

  /** An array on one line starts on that line. */
  lemma ArrayStarts(st: St)
    requires st.s != "" && OnLine(ParseArray(st), st.inp)
    ensures SkipBlank(St(st.s[1..], st.inp)).Ok? && SkipBlank(St(st.s[1..], st.inp)).value.inp == st.inp
  {
    hide ValueType, SkipBlank, ParseValueArray, ParseArrayArray, Span, InElement;
    var st0 := St(st.s[1..], st.inp);
    SkipFurther(st0);
    var st1 := SkipBlank(st0).value;
    if st1.s[0] != ']' {
      match ValueType(st1.s[..Span(st1.s, InElement)]).value
      case TString => ValueArrayFurther(st1, KStr, []);
      case TInt => ValueArrayFurther(st1, KInt, []);
      case TBool => ValueArrayFurther(st1, KBool, []);
      case TArray => ArrayArrayFurther(st1, []);
    }
  }

  lemma {:induction false} ValueArrayTailed(s: string, s': string, inp: Input, kind: Kind, elems: seq<Value>)
    requires s != "" && Tailed(s, s') && OnLine(ParseValueArray(St(s, inp), kind, elems), inp)
    ensures SameValue(ParseValueArray(St(s, inp), kind, elems), ParseValueArray(St(s', inp), kind, elems), inp)
    decreases Left(St(s, inp)), 3
  {
    hide SkipBlank, ParseValue, Tailed, InputLeft;
    TailedHead(s, s');
    RestTailed(s, s', 1);
    if s[0] != ']' {
      ValueArrayStays(St(s, inp), kind, elems);
      ValueTailed(s, s', inp);
      var (v, st1) := ParseValue(St(s, inp)).value;
      var st1' := ParseValue(St(s', inp)).value.1;
      SkipTailed(st1.s, st1'.s, inp);
      var t, t' := SkipBlank(st1).value.s, SkipBlank(st1').value.s;
      TailedHead(t, t');
      RestTailed(t, t', 1);
      if t[0] == ',' {
        SkipTailed(t[1..], t'[1..], inp);
        var u, u' := SkipBlank(St(t[1..], inp)).value.s, SkipBlank(St(t'[1..], inp)).value.s;
        ValueArrayTailed(u, u', inp, kind, elems + [v]);
      }
    }
  }

  /** One round of the loop on one line. */
  lemma ValueArrayStays(st: St, kind: Kind, elems: seq<Value>)
    requires st.s != "" && st.s[0] != ']' && OnLine(ParseValueArray(st, kind, elems), st.inp)
    ensures OnLine(ParseValue(st), st.inp)
    ensures var st1 := ParseValue(st).value.1;
            SkipBlank(st1).Ok? && SkipBlank(st1).value.inp == st.inp &&
            var t := SkipBlank(st1).value.s;
            t[0] == ',' ==> SkipBlank(St(t[1..], st.inp)).Ok? && SkipBlank(St(t[1..], st.inp)).value.inp == st.inp
  {
    hide SkipBlank, ParseValue;
    ValueFurther(st);
    var (v, st1) := ParseValue(st).value;
    SkipFurther(st1);
    var st2 := SkipBlank(st1).value;
    if st2.s[0] == ',' {
      SkipFurther(St(st2.s[1..], st2.inp));
      ValueArrayFurther(SkipBlank(St(st2.s[1..], st2.inp)).value, kind, elems + [v]);
    }
  }

  lemma {:induction false} ArrayArrayTailed(s: string, s': string, inp: Input, elems: seq<Value>)
    requires s != "" && Tailed(s, s') && OnLine(ParseArrayArray(St(s, inp), elems), inp)
    ensures SameValue(ParseArrayArray(St(s, inp), elems), ParseArrayArray(St(s', inp), elems), inp)
    decreases Left(St(s, inp)), 3
  {
    hide SkipBlank, ParseArray, Tailed, InputLeft;
    TailedHead(s, s');
    RestTailed(s, s', 1);
    if s[0] != ']' {
      ArrayArrayStays(St(s, inp), elems);
      ArrayTailed(s, s', inp);
      var (v, st1) := ParseArray(St(s, inp)).value;
      var st1' := ParseArray(St(s', inp)).value.1;
      SkipTailed(st1.s, st1'.s, inp);
      var t, t' := SkipBlank(st1).value.s, SkipBlank(st1').value.s;
      TailedHead(t, t');
      RestTailed(t, t', 1);
      if t[0] == ',' {
        SkipTailed(t[1..], t'[1..], inp);
        ArrayArrayTailed(SkipBlank(St(t[1..], inp)).value.s, SkipBlank(St(t'[1..], inp)).value.s, inp, elems + [v]);
      }
    }
  }

  lemma ArrayArrayStays(st: St, elems: seq<Value>)
    requires st.s != "" && st.s[0] != ']' && OnLine(ParseArrayArray(st, elems), st.inp)
    ensures st.s[0] == '[' && OnLine(ParseArray(st), st.inp)
    ensures var st1 := ParseArray(st).value.1;
            SkipBlank(st1).Ok? && SkipBlank(st1).value.inp == st.inp &&
            var t := SkipBlank(st1).value.s;
            t[0] == ',' ==> SkipBlank(St(t[1..], st.inp)).Ok? && SkipBlank(St(t[1..], st.inp)).value.inp == st.inp
  {
    hide SkipBlank, ParseArray;
    ArrayFurther(st);
    var (v, st1) := ParseArray(st).value;
    SkipFurther(st1);
    var st2 := SkipBlank(st1).value;
    if st2.s[0] == ',' {
      SkipFurther(St(st2.s[1..], st2.inp));
      ArrayArrayFurther(SkipBlank(St(st2.s[1..], st2.inp)).value, elems + [v]);
    }
  }

  // ----- lines ------------------------------------------------------------------------------------

  lemma KeyValueTailed(s: string, s': string, inp: Input, root: Table, cur: seq<string>)
    requires HasPath(root, cur) && Tailed(s, s')
    requires ParseKeyValue(St(s, inp), root, cur).Ok? && ParseKeyValue(St(s, inp), root, cur).value.1.inp == inp
    ensures ParseKeyValue(St(s', inp), root, cur).Ok?
    ensures var (t, st) := ParseKeyValue(St(s, inp), root, cur).value;
            var (t', st') := ParseKeyValue(St(s', inp), root, cur).value;
            t' == t && st'.inp == inp && Tailed(st.s, st'.s)
  {
    hide Tailed, HasPath, ParseKey, ParseValue, With, At, ConsumeWhitespace, Insert, Contains;
    var w := Walk(root, cur, false);
    KeyTailed(s, s', ForItem, w);
    var rest, rest' := ParseKey(s, ForItem, w).value.1, ParseKey(s', ForItem, w).value.1;
    TailedHead(rest, rest');
    RestTailed(rest, rest', 1);
    WhiteTailed(rest[1..], rest'[1..]);
    ValueTailed(ConsumeWhitespace(rest[1..]), ConsumeWhitespace(rest'[1..]), inp);
    WhiteTailed(ParseValue(St(ConsumeWhitespace(rest[1..]), inp)).value.1.s,
                ParseValue(St(ConsumeWhitespace(rest'[1..]), inp)).value.1.s);
  }

  /** A header, or an item that ends on its line, is read alike with blanks and a comment behind it. */
  lemma LineTailed(s: string, s': string, inp: Input, root: Table, cur: seq<string>)
    requires HasPath(root, cur) && Tailed(s, s')
    requires ParseLine(St(s, inp), root, cur).Ok? && ParseLine(St(s, inp), root, cur).value.2 == inp
    ensures ParseLine(St(s', inp), root, cur) == ParseLine(St(s, inp), root, cur)
  {
    hide Tailed, HasPath, ParseTable, ParseKeyValue, ConsumeWhitespace;
    WhiteTailed(s, s');
    var t, t' := ConsumeWhitespace(s), ConsumeWhitespace(s');
    if t != "" {
      TailedHead(t, t');
      if t[0] == '[' {
        TableTailed(t, t', root);
      } else if t[0] != '#' {
        KeyValueTailed(t, t', inp, root, cur);
        EndTailed(ParseKeyValue(St(t, inp), root, cur).value.1.s, ParseKeyValue(St(t', inp), root, cur).value.1.s);
      }
    }
  }

  /** In a text: behind anything that leads to a place between two lines, a line that is read by itself there means
      the same with blanks and a comment behind it. */
  lemma CommentBehind(a: string, q: Place, l: string, comment: string, crlf: bool, b: string)
    requires Reads(a, Place(EMPTY_TABLE, []), q) && OneLine(l) && OneLine(comment) && IsNoise(comment)
    requires var inp := Input(b, false);
             ParseLine(St(l, inp), q.root, q.cur).Ok? && ParseLine(St(l, inp), q.root, q.cur).value.2 == inp
    ensures Parse(a + l + comment + LineEnd(crlf) + b) == Parse(a + l + LineEnd(crlf) + b)
  {
    hide Parse, From, ParseLine, IsNoise, HasPath, LineEnd;
    var s := l + comment;
    var more, more' := l + LineEnd(crlf) + b, s + LineEnd(crlf) + b;
    assert Tailed(l, s) by {
      assert s[|l|..] == comment;
    }
    LineTailed(l, s, Input(b, false), q.root, q.cur);
    ParseIsFrom(a + more);
    ParseIsFrom(a + more');
    assert a + l + comment + LineEnd(crlf) + b == a + more';
    assert a + l + LineEnd(crlf) + b == a + more;
    assert From(a + more, Place(EMPTY_TABLE, [])) == From(more, q);
    assert From(a + more', Place(EMPTY_TABLE, [])) == From(more', q);
    TakeEnded(l, crlf, b);
    TakeEnded(s, crlf, b);
    FromLine(more, q, l, b);
    FromLine(more', q, s, b);
  }

  /** One line more. */
  lemma FromLine(text: string, q: Place, l: string, b: string)
    requires q.Valid() && TakeLine(text) == (l, b, true)
    ensures var r := ParseLine(St(l, Input(b, false)), q.root, q.cur);
            From(text, q) == if r.Ok? then ParseLines(r.value.2, r.value.0, r.value.1) else Err(r.error)
  {
    hide HasPath, ParseLine;
  }
}
