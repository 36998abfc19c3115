/** Parsing what toml_writer prints gives the tree back. */
module CppTomlRoundTrip {
  import opened Wrappers
  import opened CppTomlText
  import opened CppTomlTree
  import opened CppTomlWriter
  import opened CppTomlParser

  // ----- scanning ahead -------------------------------------------------------------------

  lemma {:induction false} SpanOf(a: string, b: string, p: char -> bool)
    requires forall i :: 0 <= i < |a| ==> p(a[i])
    requires b == "" || !p(b[0])
    ensures Span(a + b, p) == |a|
  {
    if a == "" {
      assert a + b == b;
    } else {
      assert (a + b)[1..] == a[1..] + b;
      SpanOf(a[1..], b, p);
    }
  }

  /** What follows a value: the end of the line, or the next element, or the end of an array. */
  predicate EndsValue(tail: string) {
    tail == "" || tail[0] == ',' || tail[0] == ']'
  }

  // ----- integers -------------------------------------------------------------------------

  lemma IntTextChars(i: int)
    ensures var t := IntText(i);
            (t[0] == '-' <==> i < 0) && (forall k :: 1 <= k < |t| ==> IsNumber(t[k])) &&
            (i >= 0 ==> IsNumber(t[0])) && (i < 0 ==> |t| > 1)
  {
  }

  lemma IntIsInt(i: int, tail: string)
    requires EndsValue(tail)
    ensures ValueType(IntText(i) + tail) == Ok(TInt)
  {
    var t := IntText(i);
    var s := t + tail;
    IntTextChars(i);
    IntIsNoTime(i, tail);
    IntIsNoDate(i, tail);
    hide IsTime, IsDate, NatText;
    assert s[0] == t[0];
    IntIsNumber(i, tail);
  }

  lemma IntIsNumber(i: int, tail: string)
    requires EndsValue(tail)
    ensures NumberType(IntText(i) + tail) == Ok(TInt)
  {
    var s := IntText(i) + tail;
    IntTextChars(i);
    var u := if i < 0 then NatText(-i) else NatText(i);
    assert s == if i < 0 then "-" + (u + tail) else u + tail;
    SpanOf(u, tail, IsNumber);
    assert (u + tail)[0] == u[0] && IsNumber(u[0]);
    if i < 0 {
      assert s[1..] == u + tail;
    }
  }

  lemma IntIsNoTime(i: int, tail: string)
    requires EndsValue(tail)
    ensures !IsTime(IntText(i) + tail)
  {
    var t := IntText(i);
    IntTextChars(i);
    if i < 0 {
      SpanOf("", t + tail, IsTimeChar);
      assert "" + (t + tail) == t + tail;
    } else {
      SpanOf(t, tail, IsTimeChar);
    }
  }

  lemma IntIsNoDate(i: int, tail: string)
    requires EndsValue(tail)
    ensures !IsDate(IntText(i) + tail)
  {
    var t := IntText(i);
    IntTextChars(i);
    SpanOf(t, tail, IsDateChar);
    assert (t + tail)[|t|..] == tail;
    SpanOf("", tail, IsDateTailChar);
    assert "" + tail == tail;
    assert DateEnd(t + tail) == |t|;
  }

  lemma IntNumberEnd(i: int, tail: string)
    requires EndsValue(tail)
    ensures NumberEnd(IntText(i) + tail) == |IntText(i)|
  {
    var t := IntText(i);
    IntTextChars(i);
    SpanOf(t, tail, IsNumberPart);
    assert (t + tail)[|t|..] == tail;
  }

  lemma {:induction false} EatAllDigits(d: string, tail: string, any: bool)
    requires AllDigits(d) && EndsValue(tail) && (d != "" || any)
    ensures EatDigits(d + tail, any) == Ok(tail)
    decreases |d|
  {
    if d == "" {
      assert d + tail == tail;
    } else {
      assert (d + tail)[1..] == d[1..] + tail;
      EatAllDigits(d[1..], tail, true);
      assert |d + tail| > 1 ==> (d + tail)[1] == if |d| > 1 then d[1] else tail[0];
    }
  }

  lemma {:induction false} NoUnderscores(s: string)
    requires forall i :: 0 <= i < |s| ==> s[i] != '_'
    ensures WithoutUnderscores(s) == s
  {
    if s != "" {
      NoUnderscores(s[1..]);
      assert s == [s[0]] + s[1..];
    }
  }

  function Magnitude(i: int): (u: string)
    ensures u != "" && AllDigits(u)
  {
    if i < 0 then NatText(-i) else NatText(i)
  }

  lemma IntAfterSign(i: int, tail: string)
    ensures AfterSign(IntText(i) + tail) == Magnitude(i) + tail
  {
    IntTextChars(i);
    var u := Magnitude(i);
    if i < 0 {
      assert ("-" + u + tail)[1..] == u + tail;
    } else {
      assert (u + tail)[0] == u[0];
    }
  }

  lemma IntNoLeadingZero(i: int, tail: string)
    requires EndsValue(tail)
    ensures !LeadingZero(Magnitude(i) + tail, |Magnitude(i)|)
    ensures !OtherBase(IntText(i) + tail, |IntText(i)|)
    ensures !IsInfOrNan(Magnitude(i) + tail)
  {
    DigitsValueOfNatText(if i < 0 then -i else i);
    IntTextChars(i);
    assert (Magnitude(i) + tail)[0] == Magnitude(i)[0];
    assert (IntText(i) + tail)[0] == IntText(i)[0];
  }

  lemma ParseIntText(i: int, tail: string)
    requires IsInt64(i) && EndsValue(tail)
    ensures ParseNumber(IntText(i) + tail) == Ok((Int(i), tail))
  {
    var t := IntText(i);
    var s := t + tail;
    IntNumberEnd(i, tail);
    IntAfterSign(i, tail);
    IntNoLeadingZero(i, tail);
    EatAllDigits(Magnitude(i), tail, false);
    IntTextChars(i);
    NoUnderscores(t);
    StollOfIntText(i);
    assert s[..|s| - |tail|] == t;
    NumberStep(s, Magnitude(i) + tail, tail);
  }

  lemma NumberStep(s: string, t: string, rest: string)
    requires AfterSign(s) == t && !OtherBase(s, NumberEnd(s)) && !LeadingZero(t, NumberEnd(s) - (|s| - |t|))
    requires !IsInfOrNan(t)
    requires EatDigits(t, false) == Ok(rest) && EndsValue(rest)
    ensures |rest| <= |s| && ParseNumber(s) == ParseInt(s, rest)
  {
  }

  // ----- values ---------------------------------------------------------------------------

  lemma EscapeHead(v: string)
    ensures if v == "" then EscapeString(v) == "" else EscapeString(v) != "" && EscapeString(v)[0] != '\"'
  {
    if v != "" {
      assert EscapeString(v)[0] == EscapeChar(v[0])[0];
    }
  }

  lemma StringStep(s: string, q: string, v: string, rest: string)
    requires s == "\"" + q && q != "" && (q[0] == '\"' && |q| > 1 ==> q[1] != '\"')
    requires LiteralBody(q, '\"', "") == Ok((v, rest))
    ensures ParseString(s) == Ok((Str(v), rest))
  {
    assert s[1..] == q;
  }

  lemma ParseStringText(v: string, tail: string)
    requires Clean(v) && EndsValue(tail)
    ensures ParseString(ValueText(Str(v)) + tail) == Ok((Str(v), tail))
  {
    hide EscapeString, LiteralBody, ParseString;
    var e := EscapeString(v);
    var q := e + "\"" + tail;
    assert ValueText(Str(v)) + tail == "\"" + q;
    LiteralUndoesEscape(v, tail, "");
    assert "" + v == v;
    EscapeHead(v);
    if v == "" {
      assert q == "\"" + tail;
    } else {
      assert q[0] == e[0];
    }
    StringStep("\"" + q, q, v, tail);
  }

  lemma ValueTextHead(v: Value, tail: string)
    ensures var c := (ValueText(v) + tail)[0];
            match v
            case Str(_) => c == '\"'
            case Int(_) => c == '-' || IsNumber(c)
            case Bool(_) => c == 't' || c == 'f'
            case Arr(_) => c == '['
    ensures var c := (ValueText(v) + tail)[0]; !IsBlank(c) && c != '#' && c != ']'
  {
    match v
    case Int(i) => IntTextChars(i);
    case _ =>
  }

  function TypeOf(v: Value): Type {
    match v
    case Str(_) => TString
    case Int(_) => TInt
    case Bool(_) => TBool
    case Arr(_) => TArray
  }

  lemma NeitherTimeNorDate(s: string)
    requires s != "" && !IsTimeChar(s[0]) && !IsDateChar(s[0]) && !IsDateTailChar(s[0]) && s[0] != ' '
    ensures !IsTime(s) && !IsDate(s)
  {
    assert s[0..] == s;
    assert Span(s, IsTimeChar) == 0 && Span(s, IsDateChar) == 0 && Span(s, IsDateTailChar) == 0;
  }

  lemma TypeOfHead(s: string)
    requires s != "" && s[0] in {'t', 'f', '[', '\"'}
    ensures ValueType(s) == Ok(if s[0] == '[' then TArray else if s[0] == '\"' then TString else TBool)
  {
    NeitherTimeNorDate(s);
  }

  lemma TypeOfText(v: Value, tail: string)
    requires v.Int? ==> EndsValue(tail)
    ensures ValueType(ValueText(v) + tail) == Ok(TypeOf(v))
  {
    ValueTextHead(v, tail);
    match v
    case Int(i) => IntIsInt(i, tail);
    case _ => TypeOfHead(ValueText(v) + tail);
  }

  lemma SkipNothing(s: string, inp: Input)
    requires s != "" && !IsBlank(s[0]) && s[0] != '#'
    ensures SkipBlank(St(s, inp)) == Ok(St(s, inp))
    ensures SkipBlank(St(" " + s, inp)) == Ok(St(s, inp))
  {
    assert (" " + s)[1..] == s;
    assert ConsumeWhitespace(" " + s) == s;
  }

  // ----- arrays ---------------------------------------------------------------------------

  /** The elements still to come, the closing bracket and what follows the array. */
  function Coming(elems: seq<Value>, more: bool, tail: string): string {
    ElemsText(elems, more) + "]" + tail
  }

  lemma Bracketed(v: string, e: string, tail: string)
    ensures "" + v + e + "]" + tail == v + (e + "]" + tail)
    ensures ", " + v + e + "]" + tail == "," + (" " + ("" + v + e + "]" + tail))
  {
    assert "" + v + e == v + e;
  }

  lemma ComingFirst(elems: seq<Value>, tail: string)
    requires elems != []
    ensures Coming(elems, false, tail) == ValueText(elems[0]) + Coming(elems[1..], true, tail)
    ensures Coming(elems, true, tail) == "," + (" " + Coming(elems, false, tail))
  {
    hide ValueText;
    Bracketed(ValueText(elems[0]), ElemsText(elems[1..], true), tail);
  }

  lemma ComingEndsValue(elems: seq<Value>, tail: string)
    ensures EndsValue(Coming(elems, true, tail)) && Coming(elems, true, tail) != ""
    ensures elems == [] ==> Coming(elems, true, tail) == Coming(elems, false, tail) == "]" + tail
  {
    if elems != [] {
      ComingFirst(elems, tail);
    } else {
      assert "" + "]" + tail == "]" + tail;
    }
  }

  lemma ComingHead(elems: seq<Value>, tail: string)
    ensures var s := Coming(elems, false, tail); s != "" && !IsBlank(s[0]) && s[0] != '#'
    ensures elems != [] ==> Coming(elems, false, tail)[0] != ']'
  {
    if elems != [] {
      ComingFirst(elems, tail);
      ValueTextHead(elems[0], Coming(elems[1..], true, tail));
    } else {
      ComingEndsValue(elems, tail);
    }
  }

  /** The first element decides the type of the array. */
  lemma FirstElementType(elems: seq<Value>, tail: string)
    requires elems != []
    ensures var s := Coming(elems, false, tail); ValueType(s[..Span(s, InElement)]) == Ok(TypeOf(elems[0]))
  {
    hide Coming, ValueType, ValueText;
    var v, rest := elems[0], Coming(elems[1..], true, tail);
    var s := Coming(elems, false, tail);
    var n := Span(s, InElement);
    ComingFirst(elems, tail);
    ComingEndsValue(elems[1..], tail);
    ValueTextHead(v, rest);
    if v.Str? || v.Arr? {
      assert s[0] == '\"' || s[0] == '[';
      assert n > 0;
      TypeOfHead(s[..n]);
    } else {
      SimpleTextHasNoStop(v);
      SpanOf(ValueText(v), rest, InElement);
      assert s[..n] == ValueText(v) + "";
      TypeOfText(v, "");
    }
  }

  lemma SimpleTextHasNoStop(v: Value)
    requires v.Int? || v.Bool?
    ensures forall k :: 0 <= k < |ValueText(v)| ==> InElement(ValueText(v)[k])
  {
    match v
    case Int(i) => IntTextChars(i);
    case Bool(b) =>
  }

  predicate AllOfKind(elems: seq<Value>, kind: Kind) {
    forall i :: 0 <= i < |elems| ==> KindOf(elems[i]) == kind && PrintableValue(elems[i])
  }

  /** Every printable value reads back, up to what follows it. */
  lemma {:induction false} ParseValueText(v: Value, tail: string, inp: Input)
    requires PrintableValue(v) && EndsValue(tail)
    ensures ParseValue(St(ValueText(v) + tail, inp)) == Ok((v, St(tail, inp)))
    decreases v, 1, 0
  {
    hide ValueType, ParseString, ParseNumber, ParseArray, IntText;
    TypeOfText(v, tail);
    match v
    case Str(s) => ParseStringText(s, tail);
    case Int(i) => ParseIntText(i, tail);
    case Bool(b) =>
      assert (ValueText(v) + tail)[|ValueText(v)|..] == tail;
    case Arr(elems) => ParseArrayText(elems, tail, inp);
  }

  lemma ArrayStep(s: string, c: string, kind: Type, inp: Input)
    requires s != "" && c != "" && SkipBlank(St(s[1..], inp)) == Ok(St(c, inp)) && c[0] != ']'
    requires ValueType(c[..Span(c, InElement)]) == Ok(kind)
    ensures kind == TString ==> ParseArray(St(s, inp)) == ParseValueArray(St(c, inp), KStr, [])
    ensures kind == TInt ==> ParseArray(St(s, inp)) == ParseValueArray(St(c, inp), KInt, [])
    ensures kind == TBool ==> ParseArray(St(s, inp)) == ParseValueArray(St(c, inp), KBool, [])
    ensures kind == TArray ==> ParseArray(St(s, inp)) == ParseArrayArray(St(c, inp), [])
  {
  }

  /** One round of the loop of parse_value_array. */
  lemma ValueArrayStep(s: string, v: Value, c: string, done: seq<Value>, inp: Input)
    requires s != "" && s[0] != ']' && c != ""
    requires ParseValue(St(s, inp)) == Ok((v, St(c, inp))) && SkipBlank(St(c, inp)) == Ok(St(c, inp))
    ensures c[0] != ',' ==>
              ParseValueArray(St(s, inp), KindOf(v), done) == Ok((Arr(done + [v]), St(c[1..], inp)))
    ensures c[0] == ',' && SkipBlank(St(c[1..], inp)).Ok? ==>
              ParseValueArray(St(s, inp), KindOf(v), done)
                == ParseValueArray(SkipBlank(St(c[1..], inp)).value, KindOf(v), done + [v])
  {
  }

  /** One round of the loop of parse_object_array. */
  lemma ArrayArrayStep(s: string, v: Value, c: string, done: seq<Value>, inp: Input)
    requires s != "" && s[0] == '[' && c != "" && (c[0] == ',' || c[0] == ']')
    requires ParseArray(St(s, inp)) == Ok((v, St(c, inp))) && SkipBlank(St(c, inp)) == Ok(St(c, inp))
    ensures c[0] != ',' ==> ParseArrayArray(St(s, inp), done) == Ok((Arr(done + [v]), St(c[1..], inp)))
    ensures c[0] == ',' && SkipBlank(St(c[1..], inp)).Ok? ==>
              ParseArrayArray(St(s, inp), done) == ParseArrayArray(SkipBlank(St(c[1..], inp)).value, done + [v])
  {
  }

  lemma ArrayTextIs(elems: seq<Value>, tail: string)
    ensures ValueText(Arr(elems)) + tail == "[" + Coming(elems, false, tail)
  {
    var e := ElemsText(elems, false);
    assert "[" + e + "]" + tail == "[" + (e + "]" + tail);
  }

  lemma {:induction false} ParseArrayText(elems: seq<Value>, tail: string, inp: Input)
    requires PrintableValue(Arr(elems)) && EndsValue(tail)
    ensures ParseArray(St(ValueText(Arr(elems)) + tail, inp)) == Ok((Arr(elems), St(tail, inp)))
    decreases elems, 2, 0
  {
    var c := Coming(elems, false, tail);
    var s := "[" + c;
    ArrayTextIs(elems, tail);
    ComingHead(elems, tail);
    assert s[1..] == c;
    SkipNothing(c, inp);
    if elems == [] {
      ComingEndsValue(elems, tail);
      EmptyArrayStep(s, c, inp);
      assert c[1..] == tail;
    } else {
      FirstElementType(elems, tail);
      ArrayStep(s, c, TypeOf(elems[0]), inp);
      ParseElems(elems, tail, inp);
    }
  }

  lemma EmptyArrayStep(s: string, c: string, inp: Input)
    requires s != "" && c != "" && SkipBlank(St(s[1..], inp)) == Ok(St(c, inp)) && c[0] == ']'
    ensures ParseArray(St(s, inp)) == Ok((Arr([]), St(c[1..], inp)))
  {
  }

  lemma KindsAgree(elems: seq<Value>)
    requires PrintableValue(Arr(elems)) && elems != []
    ensures AllOfKind(elems, KindOf(elems[0]))
  {
  }

  lemma {:induction false} ParseElems(elems: seq<Value>, tail: string, inp: Input)
    requires PrintableValue(Arr(elems)) && elems != []
    ensures var st, r := St(Coming(elems, false, tail), inp), Ok((Arr(elems), St(tail, inp)));
            match TypeOf(elems[0])
            case TArray => ParseArrayArray(st, []) == r
            case TString => ParseValueArray(st, KStr, []) == r
            case TInt => ParseValueArray(st, KInt, []) == r
            case _ => ParseValueArray(st, KBool, []) == r
    decreases elems, 1, 1
  {
    KindsAgree(elems);
    if elems[0].Arr? {
      ParseArrayElems(elems, tail, inp);
    } else {
      ParseSimpleElems(elems, KindOf(elems[0]), tail, inp);
    }
  }

  /** Round `j` of a loop takes element `j`; the last round ends it. */
  ghost predicate TakesOne<S, R>(elems: seq<Value>, j: nat, d: seq<Value>, at: nat -> S,
                                 loop: (S, seq<Value>) -> R, end: seq<Value> -> R)
    requires j < |elems|
  {
    loop(at(j), d) == if j + 1 == |elems| then end(d + [elems[j]]) else loop(at(j + 1), d + [elems[j]])
  }

  lemma {:induction false} LoopTakesAll<S, R>(elems: seq<Value>, i: nat, done: seq<Value>, at: nat -> S,
                                             loop: (S, seq<Value>) -> R, end: seq<Value> -> R)
    requires i < |elems|
    requires forall j: nat, d :: j < |elems| ==> TakesOne(elems, j, d, at, loop, end)
    ensures loop(at(i), done) == end(done + elems[i..])
    decreases |elems| - i
  {
    assert TakesOne(elems, i, done, at, loop, end);
    if i + 1 == |elems| {
      assert elems[i..] == [elems[i]];
    } else {
      LoopTakesAll(elems, i + 1, done + [elems[i]], at, loop, end);
      assert done + [elems[i]] + elems[i + 1..] == done + elems[i..];
    }
  }

  lemma {:induction false} ParseSimpleElems(elems: seq<Value>, kind: Kind, tail: string, inp: Input)
    requires AllOfKind(elems, kind) && kind != KArr && elems != []
    ensures ParseValueArray(St(Coming(elems, false, tail), inp), kind, []) == Ok((Arr(elems), St(tail, inp)))
    decreases elems, 1, 0
  {
    var at := (j: nat) => if j < |elems| then St(Coming(elems[j..], false, tail), inp) else St("", inp);
    var loop := (st: St, d: seq<Value>) => ParseValueArray(st, kind, d);
    var end := (d: seq<Value>) => Parsed<(Value, St)>.Ok((Arr(d), St(tail, inp)));
    forall j: nat, d: seq<Value> | j < |elems|
      ensures TakesOne(elems, j, d, at, loop, end)
    {
      ParseElement(elems, j, tail, inp);
      SimpleRound(elems[j..], d, tail, inp);
      assert elems[j..][1..] == elems[j + 1..];
    }
    LoopTakesAll(elems, 0, [], at, loop, end);
    assert elems[0..] == elems && [] + elems == elems;
  }

  lemma {:induction false} ParseElement(elems: seq<Value>, j: nat, tail: string, inp: Input)
    requires j < |elems| && PrintableValue(elems[j])
    ensures ParseValue(St(Coming(elems[j..], false, tail), inp))
         == Ok((elems[j], St(Coming(elems[j..][1..], true, tail), inp)))
    decreases elems[j], 2, 0
  {
    ComingFirst(elems[j..], tail);
    ComingEndsValue(elems[j..][1..], tail);
    ParseValueText(elems[j], Coming(elems[j..][1..], true, tail), inp);
  }

  lemma SimpleRound(elems: seq<Value>, done: seq<Value>, tail: string, inp: Input)
    requires elems != []
    requires ParseValue(St(Coming(elems, false, tail), inp)) == Ok((elems[0], St(Coming(elems[1..], true, tail), inp)))
    ensures ParseValueArray(St(Coming(elems, false, tail), inp), KindOf(elems[0]), done)
         == if |elems| == 1 then Ok((Arr(done + [elems[0]]), St(tail, inp)))
            else ParseValueArray(St(Coming(elems[1..], false, tail), inp), KindOf(elems[0]), done + [elems[0]])
  {
    var rest := elems[1..];
    var c := Coming(rest, true, tail);
    ComingHead(elems, tail);
    ComingEndsValue(rest, tail);
    SkipNothing(c, inp);
    ValueArrayStep(Coming(elems, false, tail), elems[0], c, done, inp);
    if rest == [] {
      assert c[1..] == tail;
    } else {
      NextElement(rest, tail, inp);
    }
  }

  /** Past the comma and the space. */
  lemma NextElement(rest: seq<Value>, tail: string, inp: Input)
    requires rest != []
    ensures var c := Coming(rest, true, tail);
            c[0] == ',' && SkipBlank(St(c[1..], inp)) == Ok(St(Coming(rest, false, tail), inp))
  {
    ComingFirst(rest, tail);
    ComingHead(rest, tail);
    SkipNothing(Coming(rest, false, tail), inp);
  }

  lemma {:induction false} ParseArrayElems(elems: seq<Value>, tail: string, inp: Input)
    requires AllOfKind(elems, KArr) && elems != []
    ensures ParseArrayArray(St(Coming(elems, false, tail), inp), []) == Ok((Arr(elems), St(tail, inp)))
    decreases elems, 1, 0
  {
    var at := (j: nat) => if j < |elems| then St(Coming(elems[j..], false, tail), inp) else St("", inp);
    var loop := (st: St, d: seq<Value>) => ParseArrayArray(st, d);
    var end := (d: seq<Value>) => Parsed<(Value, St)>.Ok((Arr(d), St(tail, inp)));
    forall j: nat, d: seq<Value> | j < |elems|
      ensures TakesOne(elems, j, d, at, loop, end)
    {
      ParseArrayElement(elems, j, tail, inp);
      ArrayRound(elems[j..], d, tail, inp);
      assert elems[j..][1..] == elems[j + 1..];
    }
    LoopTakesAll(elems, 0, [], at, loop, end);
    assert elems[0..] == elems && [] + elems == elems;
  }

  lemma {:induction false} ParseArrayElement(elems: seq<Value>, j: nat, tail: string, inp: Input)
    requires j < |elems| && elems[j].Arr? && PrintableValue(elems[j])
    ensures ParseArray(St(Coming(elems[j..], false, tail), inp))
         == Ok((elems[j], St(Coming(elems[j..][1..], true, tail), inp)))
    decreases elems[j], 2, 0
  {
    ComingFirst(elems[j..], tail);
    ComingEndsValue(elems[j..][1..], tail);
    assert elems[j] == Arr(elems[j].elems);
    ParseArrayText(elems[j].elems, Coming(elems[j..][1..], true, tail), inp);
  }

  lemma ArrayRound(elems: seq<Value>, done: seq<Value>, tail: string, inp: Input)
    requires elems != [] && elems[0].Arr?
    requires ParseArray(St(Coming(elems, false, tail), inp)) == Ok((elems[0], St(Coming(elems[1..], true, tail), inp)))
    ensures ParseArrayArray(St(Coming(elems, false, tail), inp), done)
         == if |elems| == 1 then Ok((Arr(done + [elems[0]]), St(tail, inp)))
            else ParseArrayArray(St(Coming(elems[1..], false, tail), inp), done + [elems[0]])
  {
    var rest := elems[1..];
    var c := Coming(rest, true, tail);
    ComingFirst(elems, tail);
    ValueTextHead(elems[0], c);
    ComingEndsValue(rest, tail);
    SkipNothing(c, inp);
    ArrayArrayStep(Coming(elems, false, tail), elems[0], c, done, inp);
    if rest == [] {
      assert c[1..] == tail;
    } else {
      NextElement(rest, tail, inp);
    }
  }

  // ----- keys -----------------------------------------------------------------------------

  /** A key is followed by a dot, a bracket, or (behind one blank) an equals sign. */
  predicate EndsKey(blank: string, rest: string) {
    (blank == "" || blank == " ") && rest != "" && !InKey(rest[0])
  }

  lemma BareKeyText(key: string, blank: string, rest: string)
    requires key != "" && IsBare(key) && EndsKey(blank, rest)
    ensures ParseSimpleKey(key + blank + rest) == Ok((key, rest))
  {
    var s := key + blank + rest;
    assert s[0] == key[0] && IsBareChar(key[0]);
    SpanOf(key + blank, rest, InKey);
    var n := |key + blank|;
    assert s[..n] == key + blank && s[n..] == rest;
    assert TrimBack(key + blank) == key by {
      if blank == " " {
        assert (key + blank)[..n - 1] == key;
        assert key[|key| - 1] in key;
      } else {
        assert key + blank == key;
      }
    }
  }

  lemma QuotedKeyText(key: string, blank: string, rest: string)
    requires Clean(key) && EndsKey(blank, rest)
    ensures ParseSimpleKey("\"" + EscapeString(key) + "\"" + blank + rest) == Ok((key, rest))
  {
    hide EscapeString, LiteralBody;
    var q := EscapeString(key) + "\"" + (blank + rest);
    var s := "\"" + EscapeString(key) + "\"" + blank + rest;
    assert s == "\"" + q;
    assert s[1..] == q;
    LiteralUndoesEscape(key, blank + rest, "");
    assert "" + key == key;
    assert ConsumeWhitespace(blank + rest) == rest by {
      if blank == " " {
        assert (blank + rest)[1..] == rest;
      } else {
        assert blank + rest == rest;
      }
    }
  }

  lemma SimpleKeyText(key: string, blank: string, rest: string)
    requires PrintableKey(key) && EndsKey(blank, rest)
    ensures ParseSimpleKey(KeyText(key) + blank + rest) == Ok((key, rest))
  {
    if IsBare(key) {
      BareKeyText(key, blank, rest);
    } else {
      QuotedKeyText(key, blank, rest);
    }
  }

  lemma KeyTextHead(key: string, rest: string)
    requires PrintableKey(key)
    ensures var s := KeyText(key) + rest;
            s != "" && s[0] != '=' && s[0] != ']' && s[0] != '[' && s[0] != '#' && !IsBlank(s[0])
  {
    assert (KeyText(key) + rest)[0] == KeyText(key)[0];
    if IsBare(key) {
      assert IsBareChar(key[0]);
    }
  }

  // ----- headers --------------------------------------------------------------------------

  predicate PrintablePath(path: seq<string>) {
    forall i :: 0 <= i < |path| ==> PrintableKey(path[i])
  }

  /** A component that exists is entered, in either kind of header. */
  lemma EnterExisting(mode: Mode, w: Walk, part: string)
    requires w.Valid() && part != "" && mode != ForItem
    requires HasPath(w.root, w.cur + [part])
    ensures HandlePart(mode, w, part, false) == Ok(w.(cur := w.cur + [part]))
  {
    PathMore(w.root, w.cur, part);
  }

  /** One component and its dot. */
  lemma KeyStep(s: string, rest: string, part: string, mode: Mode, w: Walk)
    requires w.Valid() && s != "" && s[0] != KeyEnd(mode)
    requires rest != "" && rest[0] == '.' && ParseSimpleKey(s) == Ok((part, rest))
    requires HandlePart(mode, w, part, false).Ok?
    ensures ParseKey(s, mode, w) == ParseKey(rest[1..], mode, HandlePart(mode, w, part, false).value)
  {
    KeyRound(s, part, rest, mode, w);
  }

  lemma LastKeyStep(s: string, rest: string, part: string, mode: Mode, w: Walk)
    requires w.Valid() && s != "" && s[0] != KeyEnd(mode)
    requires rest != "" && rest[0] == KeyEnd(mode) && ParseSimpleKey(s) == Ok((part, rest))
    ensures ParseKey(s, mode, w) == Ok((part, rest, w))
  {
    KeyRound(s, part, rest, mode, w);
  }

  /** Reading the path of a header walks down the tables that exist and stops at the last component. */
  lemma {:induction false} ParsePathText(path: seq<string>, tail: string, mode: Mode, w: Walk)
    requires PrintablePath(path) && path != [] && mode != ForItem && w.Valid()
    requires HasPath(w.root, w.cur + path[..|path| - 1])
    requires tail != "" && tail[0] == ']'
    ensures ParseKey(PathText(path, false) + tail, mode, w)
         == Ok((path[|path| - 1], tail, w.(cur := w.cur + path[..|path| - 1])))
    decreases |path|
  {
    hide KeyText, ParseKey, ParseSimpleKey, HandlePart, PathText;
    var key, rest := path[0], path[1..];
    var k := KeyText(key);
    if |path| == 1 {
      PathTextOne(path, tail);
      SimpleKeyText(key, "", tail);
      KeyTextHead(key, "" + tail);
      LastKeyStep(k + "" + tail, tail, key, mode, w);
      assert w.cur + path[..0] == w.cur;
    } else {
      var t := "." + (PathText(rest, false) + tail);
      PathTextSplit(path, tail);
      SimpleKeyText(key, "", t);
      KeyTextHead(key, "" + t);
      assert w.cur + path[..|path| - 1] == w.cur + [key] + rest[..|rest| - 1];
      PathPrefix(w.root, w.cur + [key], w.cur + path[..|path| - 1]);
      EnterExisting(mode, w, key);
      KeyStep(k + "" + t, t, key, mode, w);
      assert t[1..] == PathText(rest, false) + tail;
      var w' := w.(cur := w.cur + [key]);
      ParsePathText(rest, tail, mode, w');
    }
  }

  lemma PathTextOne(path: seq<string>, tail: string)
    requires |path| == 1
    ensures PathText(path, false) + tail == KeyText(path[0]) + "" + tail
  {
    hide KeyText;
    assert PathText(path[1..], true) == "";
  }

  lemma PathTextSplit(path: seq<string>, tail: string)
    requires |path| > 1
    ensures PathText(path, false) + tail == KeyText(path[0]) + "" + ("." + (PathText(path[1..], false) + tail))
  {
    hide KeyText;
    var k, rest := KeyText(path[0]), path[1..];
    var r, p := KeyText(rest[0]), PathText(rest[1..], true);
    assert PathText(path, false) == "" + k + PathText(rest, true);
    assert PathText(rest, true) == "." + r + p;
    assert PathText(rest, false) == "" + r + p;
    Dotted(k, r, p, tail);
  }

  lemma Dotted(k: string, r: string, p: string, tail: string)
    ensures "" + k + ("." + r + p) + tail == k + "" + ("." + ("" + r + p + tail))
  {
  }
}
