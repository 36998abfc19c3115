/** The parser of ssar/cpptoml.h, as functions on the rest of the current line and of the input.

    `curr_table` is a pointer into the tree under construction.  It is always reached from the
    root by keys, through tables and through the last element of table arrays, and nothing is
    pushed to a table array on that way while the pointer lives; so it is a path of keys. */
module CppTomlParser {
  import opened Wrappers
  import opened CppTomlText
  import opened CppTomlTree

  // ----- reading lines --------------------------------------------------------------------

  /** What is left of the stream, and its eofbit. */
  datatype Input = Input(text: string, eof: bool)

  /** The characters before the next newline (or carriage return and newline), what follows, and whether
      there was one. */
  function TakeLine(text: string): (r: (string, string, bool))
    ensures |r.0| + |r.1| <= |text|
    ensures r.2 ==> |r.0| + |r.1| < |text|
    ensures !r.2 ==> r.1 == ""
  {
    if text == "" then ("", "", false)
    else if text[0] == '\n' then ("", text[1..], true)
    else if text[0] == '\r' && |text| > 1 && text[1] == '\n' then ("", text[2..], true)
    else
      var (line, rest, ended) := TakeLine(text[1..]);
      ([text[0]] + line, rest, ended)
  }

  /** detail::getline: `None` when the stream had ended before. */
  function GetLine(inp: Input): Option<(string, Input)> {
    if inp.eof then None
    else
      var (line, rest, ended) := TakeLine(inp.text);
      Some((line, Input(rest, !ended && line == "")))
  }

  /** The rest of the current line and of the input. */
  datatype St = St(s: string, inp: Input)

  /** What is left to read; it bounds every loop and recursion of the parser. */
  function Left(st: St): nat {
    |st.s| + InputLeft(st.inp)
  }

  function InputLeft(inp: Input): nat {
    2 * |inp.text| + if inp.eof then 0 else 1
  }

  lemma GetLineShrinks(st: St)
    requires GetLine(st.inp).Some?
    ensures var (line, inp) := GetLine(st.inp).value; Left(St(line, inp)) < InputLeft(st.inp)
  {
  }

  /** skip_whitespace_and_comments. */
  function SkipBlank(st: St): (r: Parsed<St>)
    ensures r.Ok? ==> Left(r.value) <= Left(st) && r.value.s != ""
    decreases Left(st)
  {
    var s := ConsumeWhitespace(st.s);
    if s != "" && s[0] != '#' then Ok(St(s, st.inp))
    else
      match GetLine(st.inp)
      case None => Err(UnclosedArray)
      case Some((line, inp)) =>
        GetLineShrinks(st);
        SkipBlank(St(line, inp))
  }

  // ----- the kind of a value --------------------------------------------------------------

  datatype Type = TString | TTime | TDate | TInt | TFloat | TBool | TArray | TInlineTable

  predicate IsTimeChar(c: char) {
    IsNumber(c) || c == ':' || c == '.'
  }

  predicate IsDateChar(c: char) {
    IsNumber(c) || c == '-'
  }

  predicate IsDateTailChar(c: char) {
    IsNumber(c) || c == 'T' || c == 'Z' || c == ':' || c == '-' || c == '+' || c == '.'
  }

  predicate IsTime(s: string) {
    var n := Span(s, IsTimeChar);
    n >= 8 && s[2] == ':' && s[5] == ':' && (n > 8 ==> s[8] == '.' && n > 9)
  }

  function DateEnd(s: string): (n: nat)
    ensures n <= |s|
  {
    var n := Span(s, IsDateChar);
    var m := if n + 1 < |s| && s[n] == ' ' && IsNumber(s[n + 1]) then n + 1 else n;
    m + Span(s[m..], IsDateTailChar)
  }

  /** date_type, of which only "some date" matters here. */
  predicate IsDate(s: string) {
    var n := DateEnd(s);
    n >= 10 && s[4] == '-' && s[7] == '-' &&
    (n == 10 || (n >= 19 && (s[10] == 'T' || s[10] == ' ') && IsTime(s[11..n])))
  }

  /** The three characters of `inf` or `nan` come next. */
  predicate IsInfOrNan(s: string) {
    |s| >= 3 && ((s[0] == 'i' && s[1] == 'n' && s[2] == 'f') || (s[0] == 'n' && s[1] == 'a' && s[2] == 'n'))
  }

  function NumberType(s: string): Parsed<Type>
    requires s != ""
  {
    var t := if s[0] == '-' || s[0] == '+' then s[1..] else s;
    if t == "" then Err(MalformedNumber)
    else if t[0] == 'i' || t[0] == 'n' then Ok(TFloat)
    else
      var n := Span(t, IsNumber);
      Ok(if n < |t| && t[n] == '.' then TFloat else TInt)
  }

  /** determine_value_type. */
  function ValueType(s: string): (r: Parsed<Type>)
    ensures r.Ok? ==> s != ""
    ensures r == Ok(TString) ==> s[0] == '\"' || s[0] == '\''
    ensures r == Ok(TArray) ==> s[0] == '['
  {
    if s == "" then Err(UnknownValueType)
    else if s[0] == '\"' || s[0] == '\'' then Ok(TString)
    else if IsTime(s) then Ok(TTime)
    else if IsDate(s) then Ok(TDate)
    else if IsNumber(s[0]) || s[0] == '-' || s[0] == '+' || IsInfOrNan(s) then
      NumberType(s)
    else if s[0] == 't' || s[0] == 'f' then Ok(TBool)
    else if s[0] == '[' then Ok(TArray)
    else if s[0] == '{' then Ok(TInlineTable)
    else Err(UnknownValueType)
  }

  // ----- values without parts -------------------------------------------------------------

  /** eat_digits over decimal digits with single underscores between them. */
  function EatDigits(s: string, any: bool): (r: Parsed<string>)
    ensures r.Ok? ==> |r.value| <= |s| && (!any ==> |r.value| < |s|)
  {
    if s == "" || !IsNumber(s[0]) then (if any then Ok(s) else Err(MalformedNumber))
    else if |s| > 1 && s[1] == '_' then
      if |s| == 2 || !IsNumber(s[2]) then Err(MalformedNumber) else EatDigits(s[2..], true)
    else EatDigits(s[1..], true)
  }

  predicate IsNumberPart(c: char) {
    IsNumber(c) || c == '_' || c == '.' || c == 'e' || c == 'E' || c == '-' || c == '+' || c == 'x' || c == 'o' ||
    c == 'b'
  }

  /** find_end_of_number, as the length up to it. */
  function NumberEnd(s: string): (n: nat)
    ensures n <= |s|
  {
    var n := Span(s, IsNumberPart);
    if IsInfOrNan(s[n..]) then n + 3 else n
  }

  function WithoutUnderscores(s: string): string {
    if s == "" then "" else (if s[0] == '_' then "" else [s[0]]) + WithoutUnderscores(s[1..])
  }

  function AfterSign(s: string): (t: string)
    ensures |t| <= |s|
  {
    if s != "" && (s[0] == '-' || s[0] == '+') then s[1..] else s
  }

  /** check_no_leading_zero, `rest` characters before the end of the number. */
  predicate LeadingZero(t: string, rest: int) {
    t != "" && t[0] == '0' && rest != 1 && |t| > 1 && t[1] != '.'
  }

  predicate OtherBase(s: string, end: int) {
    s != "" && s[0] == '0' && end != 1 && |s| > 1 && (s[1] == 'x' || s[1] == 'o' || s[1] == 'b')
  }

  /** parse_int on the characters of `s` before `rest`. */
  function ParseInt(s: string, rest: string): (r: Parsed<(Value, string)>)
    requires |rest| <= |s|
    ensures r.Ok? ==> r.value.1 == rest && r.value.0.Int?
  {
    var i :- Stoll(WithoutUnderscores(s[..|s| - |rest|]));
    Ok((Int(i), rest))
  }

  /** parse_number; other bases and floats are `Unsupported`. */
  function ParseNumber(s: string): (r: Parsed<(Value, string)>)
    ensures r.Ok? ==> |r.value.1| < |s| && r.value.0.Int?
  {
    var end := NumberEnd(s);
    var t := AfterSign(s);
    if OtherBase(s, end) then Err(Unsupported)
    else if LeadingZero(t, end - (|s| - |t|)) then Err(MalformedNumber)
    else if IsInfOrNan(t) then Err(Unsupported)
    else
      var rest :- EatDigits(t, false);
      if rest != "" && (rest[0] == '.' || rest[0] == 'e' || rest[0] == 'E') then Err(Unsupported)
      else ParseInt(s, rest)
  }

  /** parse_bool. */
  function ParseBool(s: string): (r: Parsed<(Value, string)>)
    ensures r.Ok? ==> |r.value.1| < |s| && r.value.0.Bool?
  {
    if |s| >= 4 && s[0] == 't' && s[1] == 'r' && s[2] == 'u' && s[3] == 'e' then Ok((Bool(true), s[4..]))
    else if |s| >= 5 && s[0] == 'f' && s[1] == 'a' && s[2] == 'l' && s[3] == 's' && s[4] == 'e' then
      Ok((Bool(false), s[5..]))
    else Err(InvalidBoolean)
  }

  /** parse_string; a triple quote is `Unsupported`. */
  function ParseString(s: string): (r: Parsed<(Value, string)>)
    requires s != ""
    ensures r.Ok? ==> |r.value.1| < |s| && r.value.0.Str?
  {
    if |s| >= 3 && s[1] == s[0] && s[2] == s[0] then Err(Unsupported)
    else
      var (v, rest) :- StringLiteral(s, s[0]);
      Ok((Str(v), rest))
  }

  // ----- values with parts ----------------------------------------------------------------

  predicate InElement(c: char) {
    c != ',' && c != ']' && c != '#'
  }

  /** parse_value. */
  function ParseValue(st: St): (r: Parsed<(Value, St)>)
    ensures r.Ok? ==> Left(r.value.1) < Left(st)
    decreases Left(st), 2
  {
    var kind :- ValueType(st.s);
    match kind
    case TString =>
      var (v, rest) :- ParseString(st.s);
      Ok((v, St(rest, st.inp)))
    case TInt =>
      var (v, rest) :- ParseNumber(st.s);
      Ok((v, St(rest, st.inp)))
    case TBool =>
      var (v, rest) :- ParseBool(st.s);
      Ok((v, St(rest, st.inp)))
    case TArray => ParseArray(st)
    case _ => Err(Unsupported)
  }

  /** parse_array, at the bracket. */
  function ParseArray(st: St): (r: Parsed<(Value, St)>)
    requires st.s != ""
    ensures r.Ok? ==> Left(r.value.1) < Left(st) && r.value.0.Arr?
    decreases Left(st), 1
  {
    var st1 :- SkipBlank(St(st.s[1..], st.inp));
    if st1.s[0] == ']' then Ok((Arr([]), St(st1.s[1..], st1.inp)))
    else
      var kind :- ValueType(st1.s[..Span(st1.s, InElement)]);
      match kind
      case TString => ParseValueArray(st1, KStr, [])
      case TInt => ParseValueArray(st1, KInt, [])
      case TBool => ParseValueArray(st1, KBool, [])
      case TArray => ParseArrayArray(st1, [])
      case _ => Err(Unsupported)
  }

  /** The loop of parse_value_array, with `elems` read so far. */
  function ParseValueArray(st: St, kind: Kind, elems: seq<Value>): (r: Parsed<(Value, St)>)
    ensures r.Ok? ==> Left(r.value.1) <= Left(st) && r.value.0.Arr?
    decreases Left(st), 3
  {
    if st.s == "" || st.s[0] == ']' then Ok((Arr(elems), AfterBracket(st)))
    else
      var (v, st1) :- ParseValue(st);
      if KindOf(v) != kind then Err(NotHomogeneous)
      else
        var st2 :- SkipBlank(st1);
        if st2.s[0] != ',' then Ok((Arr(elems + [v]), AfterBracket(st2)))
        else
          var st3 :- SkipBlank(St(st2.s[1..], st2.inp));
          ParseValueArray(st3, kind, elems + [v])
  }

  /** The loop ends at any character; the code does not check that it is the bracket. */
  function AfterBracket(st: St): (r: St)
    ensures Left(r) <= Left(st)
  {
    if st.s == "" then st else St(st.s[1..], st.inp)
  }

  /** The loop of parse_object_array for arrays. */
  function ParseArrayArray(st: St, elems: seq<Value>): (r: Parsed<(Value, St)>)
    ensures r.Ok? ==> Left(r.value.1) < Left(st) && r.value.0.Arr?
    decreases Left(st), 3
  {
    if st.s == "" then Err(UnterminatedArray)
    else if st.s[0] == ']' then Ok((Arr(elems), St(st.s[1..], st.inp)))
    else if st.s[0] != '[' then Err(UnexpectedCharacterInArray)
    else
      var (v, st1) :- ParseArray(st);
      var st2 :- SkipBlank(st1);
      if st2.s[0] != ',' then
        if st2.s[0] != ']' then Err(UnterminatedArray) else Ok((Arr(elems + [v]), St(st2.s[1..], st2.inp)))
      else
        var st3 :- SkipBlank(St(st2.s[1..], st2.inp));
        ParseArrayArray(st3, elems + [v])
  }

  // ----- keys -----------------------------------------------------------------------------

  predicate InKey(c: char) {
    c != '.' && c != '=' && c != ']'
  }

  /** consume_backwards_whitespace from the last character; the first one always stays. */
  function TrimBack(s: string): (r: string)
    requires s != ""
    ensures r != "" && r <= s
  {
    if |s| > 1 && IsBlank(s[|s| - 1]) then TrimBack(s[..|s| - 1]) else s
  }

  /** parse_bare_key, where `end` is the length up to the first of `.`, `=` and `]`. */
  function ParseBareKey(s: string, end: nat): (r: Parsed<(string, string)>)
    requires end <= |s|
    ensures r.Ok? ==> |r.value.1| < |s|
  {
    if end == 0 then Err(BadBareKey)
    else
      var key := TrimBack(s[..end]);
      if '#' in key || ' ' in key || '\t' in key || '[' in key || ']' in key then Err(BadBareKey)
      else Ok((key, s[end..]))
  }

  /** parse_simple_key. */
  function ParseSimpleKey(s: string): (r: Parsed<(string, string)>)
    ensures r.Ok? ==> |r.value.1| < |s|
  {
    var t := ConsumeWhitespace(s);
    if t == "" then Err(UnexpectedEndOfKey)
    else if t[0] == '\"' || t[0] == '\'' then StringLiteral(t, t[0])
    else ParseBareKey(t, Span(t, InKey))
  }

  // ----- the tree under construction ------------------------------------------------------

  /** `path` leads from `t` through tables and last elements of table arrays. */
  predicate HasPath(t: Table, path: seq<string>)
    decreases |path|
  {
    path == [] ||
    (Contains(t, path[0]) &&
     match Get(t, path[0])
     case Leaf(_) => false
     case Tab(sub) => HasPath(sub, path[1..])
     case TabArr(ts) => ts != [] && HasPath(ts[|ts| - 1], path[1..]))
  }

  /** The table a path leads to. */
  function At(t: Table, path: seq<string>): Table
    requires HasPath(t, path)
    decreases |path|
  {
    if path == [] then t
    else
      match Get(t, path[0])
      case Tab(sub) => At(sub, path[1..])
      case TabArr(ts) => At(ts[|ts| - 1], path[1..])
  }

  /** The tree after the table at `path` has become `u`. */
  function With(t: Table, path: seq<string>, u: Table): Table
    requires HasPath(t, path)
    decreases |path|
  {
    if path == [] then u
    else
      match Get(t, path[0])
      case Tab(sub) => Insert(t, path[0], Tab(With(sub, path[1..], u)))
      case TabArr(ts) => Insert(t, path[0], TabArr(ts[|ts| - 1 := With(ts[|ts| - 1], path[1..], u)]))
  }

  lemma InsertGet(t: Table, key: string, n: Node)
    ensures Contains(Insert(t, key, n), key) && Get(Insert(t, key, n), key) == n
    ensures forall k :: k != key && Contains(t, k) ==>
              Contains(Insert(t, key, n), k) && Get(Insert(t, key, n), k) == Get(t, k)
  {
    var i, es := Index(t.entries, key), Insert(t, key, n).entries;
    FirstIndexIs(t.entries, key);
    FirstIndex(es, key, i);
    forall k | k != key && Contains(t, k)
      ensures Contains(Insert(t, key, n), k) && Get(Insert(t, key, n), k) == Get(t, k)
    {
      FirstIndexIs(t.entries, k);
      FirstIndex(es, k, Index(t.entries, k));
    }
  }

  lemma {:induction false} FirstIndexIs(es: seq<Entry>, key: string)
    ensures forall j :: 0 <= j < Index(es, key) ==> es[j].key != key
  {
    if es != [] && es[0].key != key {
      FirstIndexIs(es[1..], key);
    }
  }

  lemma {:induction false} FirstIndex(es: seq<Entry>, key: string, i: nat)
    requires i < |es| && es[i].key == key && forall j :: 0 <= j < i ==> es[j].key != key
    ensures Index(es, key) == i
  {
    if i > 0 {
      FirstIndex(es[1..], key, i - 1);
    }
  }

  lemma {:induction false} WithAt(t: Table, path: seq<string>, u: Table)
    requires HasPath(t, path)
    ensures HasPath(With(t, path, u), path) && At(With(t, path, u), path) == u
    decreases |path|
  {
    if path != [] {
      match Get(t, path[0])
      case Tab(sub) =>
        WithAt(sub, path[1..], u);
        InsertGet(t, path[0], Tab(With(sub, path[1..], u)));
      case TabArr(ts) =>
        WithAt(ts[|ts| - 1], path[1..], u);
        InsertGet(t, path[0], TabArr(ts[|ts| - 1 := With(ts[|ts| - 1], path[1..], u)]));
    }
  }

  /** One more key after a path. */
  lemma {:induction false} PathMore(t: Table, path: seq<string>, key: string)
    requires HasPath(t, path)
    ensures HasPath(t, path + [key]) <==> HasPath(At(t, path), [key])
    ensures HasPath(t, path + [key]) ==> At(t, path + [key]) == At(At(t, path), [key])
    decreases |path|
  {
    if path == [] {
      assert path + [key] == [key];
    } else {
      assert (path + [key])[1..] == path[1..] + [key];
      match Get(t, path[0])
      case Tab(sub) => PathMore(sub, path[1..], key);
      case TabArr(ts) => PathMore(ts[|ts| - 1], path[1..], key);
    }
  }

  lemma {:induction false} PathPrefix(t: Table, p: seq<string>, q: seq<string>)
    requires p <= q && HasPath(t, q)
    ensures HasPath(t, p)
    decreases |p|
  {
    if p != [] {
      assert p[1..] <= q[1..];
      match Get(t, p[0])
      case Tab(sub) => PathPrefix(sub, p[1..], q[1..]);
      case TabArr(ts) => PathPrefix(ts[|ts| - 1], p[1..], q[1..]);
    }
  }

  // ----- one component of a header or key -------------------------------------------------

  /** What a header or a dotted key is for. */
  datatype Mode = ForTable | ForTableArray | ForItem

  /** The root, the path of curr_table, and whether a table has been inserted on the way. */
  datatype Walk = Walk(root: Table, cur: seq<string>, inserted: bool) {
    predicate Valid() {
      HasPath(root, cur)
    }

    function Here(): Table
      requires Valid()
    {
      At(root, cur)
    }

    /** Insert `node` under `key` here, and move to its table. */
    function InsertAndEnter(key: string, node: Node): (w: Walk)
      requires Valid()
      requires HasPath(Table([Entry(key, node)]), [key])
      ensures w.Valid() && cur <= w.cur
    {
      var here := Insert(Here(), key, node);
      WithAt(root, cur, here);
      PathMore(With(root, cur, here), cur, key);
      InsertGet(Here(), key, node);
      Walk(With(root, cur, here), cur + [key], true)
    }
  }

  const EMPTY_TABLE := Table([])

  /** Move into the table or last table under a key that exists. */
  function Enter(w: Walk, part: string): (r: Parsed<Walk>)
    requires w.Valid() && Contains(w.Here(), part)
    ensures r.Ok? ==> r.value.Valid() && w.cur <= r.value.cur
  {
    PathMore(w.root, w.cur, part);
    match Get(w.Here(), part)
    case Tab(_) => Ok(w.(cur := w.cur + [part]))
    case TabArr(ts) => if ts == [] then Err(BackOfEmptyArray) else Ok(w.(cur := w.cur + [part]))
    case Leaf(_) => Err(ExistsAsValue(part))
  }

  /** key_part_handler of parse_single_table. */
  function TablePart(w: Walk, part: string): (r: Parsed<Walk>)
    requires w.Valid()
    ensures r.Ok? ==> r.value.Valid() && w.cur <= r.value.cur
  {
    if part == "" then Err(EmptyNameComponent)
    else if Contains(w.Here(), part) then Enter(w, part)
    else Ok(w.InsertAndEnter(part, Tab(EMPTY_TABLE)))
  }

  /** key_part_handler of parse_table_array; `last` when the name ends here. */
  function TableArrayPart(w: Walk, part: string, last: bool): (r: Parsed<Walk>)
    requires w.Valid()
    ensures r.Ok? ==> r.value.Valid() && w.cur <= r.value.cur
  {
    if part == "" then Err(EmptyNameComponent)
    else if Contains(w.Here(), part) then
      if last then
        match Get(w.Here(), part)
        case TabArr(ts) => Ok(w.InsertAndEnter(part, TabArr(ts + [EMPTY_TABLE])))
        case _ => Err(NotATableArray)
      else Enter(w, part)
    else if last then Ok(w.InsertAndEnter(part, TabArr([EMPTY_TABLE])))
    else Ok(w.InsertAndEnter(part, Tab(EMPTY_TABLE)))
  }

  /** key_part_handler of parse_key_value. */
  function ItemPart(w: Walk, part: string): (r: Parsed<Walk>)
    requires w.Valid()
    ensures r.Ok? ==> r.value.Valid() && w.cur <= r.value.cur
  {
    if Contains(w.Here(), part) then
      if Get(w.Here(), part).Tab? then Enter(w, part) else Err(ExistsAsValue(part))
    else Ok(w.InsertAndEnter(part, Tab(EMPTY_TABLE)))
  }

  function HandlePart(mode: Mode, w: Walk, part: string, last: bool): (r: Parsed<Walk>)
    requires w.Valid()
    ensures r.Ok? ==> r.value.Valid() && w.cur <= r.value.cur
  {
    match mode
    case ForTable => TablePart(w, part)
    case ForTableArray => TableArrayPart(w, part, last)
    case ForItem => ItemPart(w, part)
  }

  function KeyEnd(mode: Mode): char {
    if mode == ForItem then '=' else ']'
  }

  /** parse_key: the last component and the rest of the line; the other components are handled on the way. */
  function ParseKey(s: string, mode: Mode, w: Walk): (r: Parsed<(string, string, Walk)>)
    requires w.Valid()
    ensures r.Ok? ==> r.value.2.Valid() && |r.value.1| < |s| && w.cur <= r.value.2.cur
    decreases |s|
  {
    if s == "" || s[0] == KeyEnd(mode) then Err(UnexpectedEndOfKey)
    else
      var (part, rest) :- ParseSimpleKey(s);
      var t := ConsumeWhitespace(rest);
      if t == "" || t[0] == KeyEnd(mode) then Ok((part, t, w))
      else if t[0] != '.' then Err(UnexpectedCharacterInKey)
      else
        var w' :- HandlePart(mode, w, part, false);
        ParseKey(t[1..], mode, w')
  }

  /** One round of the loop of parse_key. */
  lemma KeyRound(s: string, part: string, rest: string, mode: Mode, w: Walk)
    requires w.Valid() && s != "" && s[0] != KeyEnd(mode) && ParseSimpleKey(s) == Ok((part, rest))
    ensures var t := ConsumeWhitespace(rest);
            if t == "" || t[0] == KeyEnd(mode) then ParseKey(s, mode, w) == Ok((part, t, w))
            else if t[0] != '.' then ParseKey(s, mode, w) == Err(UnexpectedCharacterInKey)
            else match HandlePart(mode, w, part, false)
                 case Ok(w') => ParseKey(s, mode, w) == ParseKey(t[1..], mode, w')
                 case Err(e) => ParseKey(s, mode, w) == Err(e)
  {
    hide HandlePart, ParseSimpleKey, ConsumeWhitespace, HasPath;
  }

  // ----- lines ----------------------------------------------------------------------------

  predicate EolOrComment(s: string) {
    s == "" || s[0] == '#'
  }

  /** base::is_value holds for single values, not for arrays. */
  predicate IsSingleValue(n: Node) {
    n.Leaf? && !n.v.Arr?
  }

  /** parse_single_table, behind the bracket; `root` is where curr_table starts. */
  function ParseSingleTable(s: string, root: Table): (r: Parsed<Walk>)
    ensures r.Ok? ==> r.value.Valid()
  {
    if s == "" || s[0] == ']' then Err(EmptyTableName)
    else
      var (part, rest, w) :- ParseKey(s, ForTable, Walk(root, [], false));
      var w' :- TablePart(w, part);
      if rest == "" || rest[0] != ']' then Err(UnterminatedTable)
      else if !w'.inserted &&
              (w'.Here().entries == [] || exists e :: e in w'.Here().entries && IsSingleValue(e.node)) then
        Err(RedefinitionOfTable)
      else if !EolOrComment(ConsumeWhitespace(rest[1..])) then Err(TrailingCharacter)
      else Ok(w')
  }

  /** parse_table_array, at the second bracket. */
  function ParseTableArray(s: string, root: Table): (r: Parsed<Walk>)
    requires s != ""
    ensures r.Ok? ==> r.value.Valid()
  {
    var t := s[1..];
    if t == "" || t[0] == ']' then Err(EmptyTableName)
    else
      var (part, rest, w) :- ParseKey(t, ForTableArray, Walk(root, [], false));
      var w' :- TableArrayPart(w, part, rest != "" && rest[0] == ']');
      if !(|rest| >= 2 && rest[0] == ']' && rest[1] == ']') then Err(UnterminatedTable)
      else if !EolOrComment(ConsumeWhitespace(rest[2..])) then Err(TrailingCharacter)
      else Ok(w')
  }

  /** parse_table, at the first bracket. */
  function ParseTable(s: string, root: Table): (r: Parsed<Walk>)
    requires s != ""
    ensures r.Ok? ==> r.value.Valid()
  {
    var t := s[1..];
    if t == "" then Err(UnexpectedEndOfTable)
    else if t[0] == '[' then ParseTableArray(t, root)
    else ParseSingleTable(t, root)
  }

  /** parse_key_value: the new root and what is left of the line and input. */
  function ParseKeyValue(st: St, root: Table, cur: seq<string>): (r: Parsed<(Table, St)>)
    requires HasPath(root, cur)
    ensures r.Ok? ==> Left(r.value.1) < Left(st) && HasPath(r.value.0, cur)
  {
    var (key, rest, w) :- ParseKey(st.s, ForItem, Walk(root, cur, false));
    if Contains(w.Here(), key) then Err(KeyAlreadyPresent)
    else if rest == "" || rest[0] != '=' then Err(MissingEquals)
    else
      var (v, st1) :- ParseValue(St(ConsumeWhitespace(rest[1..]), st.inp));
      WithAt(w.root, w.cur, Insert(w.Here(), key, Leaf(v)));
      PathPrefix(With(w.root, w.cur, Insert(w.Here(), key, Leaf(v))), cur, w.cur);
      Ok((With(w.root, w.cur, Insert(w.Here(), key, Leaf(v))), St(ConsumeWhitespace(st1.s), st1.inp)))
  }

  /** One line of the loop of parse(): the root, the path of curr_table and the input after it. */
  function ParseLine(st: St, root: Table, cur: seq<string>): (r: Parsed<(Table, seq<string>, Input)>)
    requires HasPath(root, cur)
    ensures r.Ok? ==> HasPath(r.value.0, r.value.1) && InputLeft(r.value.2) <= Left(st)
  {
    var s := ConsumeWhitespace(st.s);
    if s == "" || s[0] == '#' then Ok((root, cur, st.inp))
    else if s[0] == '[' then
      var w :- ParseTable(s, root);
      Ok((w.root, w.cur, st.inp))
    else
      var (root', st') :- ParseKeyValue(St(s, st.inp), root, cur);
      if !EolOrComment(ConsumeWhitespace(st'.s)) then Err(TrailingCharacter) else Ok((root', cur, st'.inp))
  }

  /** The loop of parse(). */
  function ParseLines(inp: Input, root: Table, cur: seq<string>): Parsed<Table>
    requires HasPath(root, cur)
    decreases InputLeft(inp)
  {
    match GetLine(inp)
    case None => Ok(root)
    case Some((line, rest)) =>
      GetLineShrinks(St("", inp));
      var (root', cur', inp') :- ParseLine(St(line, rest), root, cur);
      ParseLines(inp', root', cur')
  }

  /** parse() on a whole text. */
  function Parse(text: string): Parsed<Table> {
    ParseLines(Input(text, false), EMPTY_TABLE, [])
  }
}
