/** The tokenizer of sresar/toml.c: next_token and scan_string, over positions of the text. */
module CTomlScan {
  import opened Wrappers

  /** A C string, up to its terminating NUL. */
  type CString = s: string | '\0' !in s witness ""

  /** `*p`: the terminating NUL stands at `|text|`. */
  function Ch(text: CString, p: nat): (c: char)
    requires p <= |text|
    ensures c == '\0' <==> p == |text|
  {
    if p < |text| then text[p] else '\0'
  }

  datatype Kind = Dot | Comma | Equal | LBrace | RBrace | Newline | LBracket | RBracket | Str

  /** token_t: `ptr` is a position of the text. */
  datatype Token = Token(kind: Kind, lineno: nat, ptr: nat, len: nat, eof: bool) {
    function End(): nat {
      ptr + len
    }
  }

  /** The syntax errors of the scanner.  `Overrun` is an unquoted timestamp that reaches the end of the
      text: the original goes on reading behind the terminating NUL, so nothing is said about it. */
  datatype ScanError =
    | UnterminatedTripleSQuote
    | UnterminatedTripleQuote
    | UnterminatedSQuote
    | UnterminatedQuote
    | BadEscapeChar
    | ExpectHexChar
    | Overrun

  type Scanned<T> = Result<T, ScanError>

  predicate IsDigit(c: char) {
    '0' <= c <= '9'
  }

  predicate IsUpperHex(c: char) {
    IsDigit(c) || 'A' <= c <= 'F'
  }

  predicate IsBlank(c: char) {
    c == ' ' || c == '\t' || c == '\r'
  }

  /** The characters after a backslash that stand for one character. */
  predicate IsSimpleEscape(c: char) {
    c == 'b' || c == 't' || c == 'n' || c == 'f' || c == 'r' || c == '\"' || c == '\\'
  }

  predicate Triple(text: CString, p: nat, c: char) {
    p + 3 <= |text| && text[p] == c && text[p + 1] == c && text[p + 2] == c
  }

  // ----- strings --------------------------------------------------------------------------

  /** strstr(p, "'''"). */
  function FindTriple(text: CString, p: nat): (r: Option<nat>)
    requires p <= |text|
    ensures r.Some? ==> p <= r.value && r.value + 3 <= |text|
    decreases |text| - p
  {
    if Triple(text, p, '\'') then Some(p)
    else if p == |text| then None
    else FindTriple(text, p + 1)
  }

  /** p + strspn(p, " \t\r"). */
  function SkipBlanks(text: CString, p: nat): (q: nat)
    requires p <= |text|
    ensures p <= q <= |text|
    decreases |text| - p
  {
    if p < |text| && IsBlank(text[p]) then SkipBlanks(text, p + 1) else p
  }

  /** The loop over a """ string: the position after it. */
  function TripleLoop(text: CString, p: nat, escape: bool, hexreq: nat, qcnt: nat): (r: Scanned<nat>)
    requires p <= |text|
    ensures r.Ok? ==> p <= r.value <= |text|
    decreases |text| - p
  {
    if p == |text| || qcnt >= 3 then
      if qcnt != 3 then Err(UnterminatedTripleQuote) else Ok(p)
    else
      var c := text[p];
      if escape then
        if IsSimpleEscape(c) then TripleLoop(text, p + 1, false, hexreq, qcnt)
        else if c == 'u' then TripleLoop(text, p + 1, false, 4, qcnt)
        else if c == 'U' then TripleLoop(text, p + 1, false, 8, qcnt)
        else if Ch(text, SkipBlanks(text, p)) == '\n' then TripleLoop(text, p + 1, false, hexreq, qcnt)
        else Err(BadEscapeChar)
      else if hexreq > 0 then
        if IsUpperHex(c) then TripleLoop(text, p + 1, false, hexreq - 1, qcnt) else Err(ExpectHexChar)
      else if c == '\\' then TripleLoop(text, p + 1, true, 0, qcnt)
      else TripleLoop(text, p + 1, false, 0, if c == '\"' then qcnt + 1 else 0)
  }

  /** The loop over a '...' string: the position where it stops. */
  function SingleLoop(text: CString, p: nat): (q: nat)
    requires p <= |text|
    ensures p <= q <= |text|
    decreases |text| - p
  {
    if p < |text| && text[p] != '\n' && text[p] != '\'' then SingleLoop(text, p + 1) else p
  }

  /** The loop over a "..." string: the position where it stops. */
  function BasicLoop(text: CString, p: nat, escape: bool, hexreq: nat): (r: Scanned<nat>)
    requires p <= |text|
    ensures r.Ok? ==> p <= r.value <= |text|
    decreases |text| - p
  {
    if p == |text| then Ok(p)
    else
      var c := text[p];
      if escape then
        if IsSimpleEscape(c) then BasicLoop(text, p + 1, false, hexreq)
        else if c == 'u' then BasicLoop(text, p + 1, false, 4)
        else if c == 'U' then BasicLoop(text, p + 1, false, 8)
        else Err(BadEscapeChar)
      else if hexreq > 0 then
        if IsUpperHex(c) then BasicLoop(text, p + 1, false, hexreq - 1) else Err(ExpectHexChar)
      else if c == '\\' then BasicLoop(text, p + 1, true, 0)
      else if c == '\n' || c == '\"' then Ok(p)
      else BasicLoop(text, p + 1, false, 0)
  }

  // ----- unquoted timestamps and literals ----------------------------------------------------

  /** scan_digits succeeds on `n` characters. */
  predicate Digits(text: CString, p: nat, n: nat) {
    p + n <= |text| && forall i :: p <= i < p + n ==> IsDigit(text[i])
  }

  predicate IsDate(text: CString, p: nat) {
    Digits(text, p, 4) && p + 4 < |text| && text[p + 4] == '-' && Digits(text, p + 5, 2) &&
    p + 7 < |text| && text[p + 7] == '-' && Digits(text, p + 8, 2)
  }

  predicate IsTime(text: CString, p: nat) {
    Digits(text, p, 2) && p + 2 < |text| && text[p + 2] == ':' && Digits(text, p + 3, 2) &&
    p + 5 < |text| && text[p + 5] == ':' && Digits(text, p + 6, 2)
  }

  predicate IsTimestampChar(c: char) {
    IsDigit(c) || c == '.' || c == ':' || c == '+' || c == '-' || c == 'T' || c == 't' || c == ' ' || c == 'Z' ||
    c == 'z'
  }

  /** Forward through the timestamp. */
  function TimestampLoop(text: CString, p: nat): (q: nat)
    requires p <= |text|
    ensures p <= q <= |text|
    decreases |text| - p
  {
    if p < |text| && IsTimestampChar(text[p]) then TimestampLoop(text, p + 1) else p
  }

  /** Squeeze out spaces at the end, back to `p` at most. */
  function SqueezeLoop(text: CString, p: nat, q: nat): (r: nat)
    requires p <= q <= |text|
    ensures p <= r <= q
  {
    if q > p && text[q - 1] == ' ' then SqueezeLoop(text, p, q - 1) else q
  }

  predicate IsLiteralChar(c: char) {
    'A' <= c <= 'Z' || 'a' <= c <= 'z' || IsDigit(c) || c == '+' || c == '-' || c == '_' || c == '.'
  }

  function LiteralLoop(text: CString, p: nat, dot: bool): (q: nat)
    requires p <= |text|
    ensures p <= q <= |text|
    decreases |text| - p
  {
    if p < |text| && !(text[p] == '.' && dot) && IsLiteralChar(text[p]) then LiteralLoop(text, p + 1, dot) else p
  }

  /** scan_string: the end of the string, timestamp or literal at `p`.  A literal can be empty. */
  function ScanEnd(text: CString, p: nat, dot: bool): (r: Scanned<nat>)
    requires p < |text|
    ensures r.Ok? ==> p <= r.value <= |text|
  {
    if Triple(text, p, '\'') then
      match FindTriple(text, p + 3)
      case None => Err(UnterminatedTripleSQuote)
      case Some(q) => Ok(q + 3)
    else if Triple(text, p, '\"') then TripleLoop(text, p + 3, false, 0, 0)
    else if text[p] == '\'' then
      var q := SingleLoop(text, p + 1);
      if Ch(text, q) != '\'' then Err(UnterminatedSQuote) else Ok(q + 1)
    else if text[p] == '\"' then
      match BasicLoop(text, p + 1, false, 0)
      case Err(e) => Err(e)
      case Ok(q) => if Ch(text, q) != '\"' then Err(UnterminatedQuote) else Ok(q + 1)
    else if IsDate(text, p) || IsTime(text, p) then
      var q := TimestampLoop(text, p);
      if q == |text| then Err(Overrun) else Ok(SqueezeLoop(text, p, q))
    else Ok(LiteralLoop(text, p, dot))
  }

  /** A '...' string ends at the first quote behind its start, which has to come before any line end. */
  lemma {:induction false} SingleLoopStops(text: CString, p: nat)
    requires p <= |text|
    ensures var q := SingleLoop(text, p);
            (forall i :: p <= i < q ==> text[i] != '\'' && text[i] != '\n') &&
            (q < |text| ==> text[q] == '\'' || text[q] == '\n')
    decreases |text| - p
  {
    if p < |text| && text[p] != '\n' && text[p] != '\'' {
      SingleLoopStops(text, p + 1);
    }
  }

  /** A '''...''' string ends with the first three quotes behind its start. */
  lemma {:induction false} FindTripleFirst(text: CString, p: nat)
    requires p <= |text|
    ensures match FindTriple(text, p)
            case Some(q) => Triple(text, q, '\'') && forall i :: p <= i < q ==> !Triple(text, i, '\'')
            case None => forall i :: p <= i <= |text| ==> !Triple(text, i, '\'')
    decreases |text| - p
  {
    if !Triple(text, p, '\'') && p < |text| {
      FindTripleFirst(text, p + 1);
    }
  }

  /** A literal is the longest run of literal characters, up to a dot where that is special. */
  lemma {:induction false} LiteralIsLongestRun(text: CString, p: nat, dot: bool)
    requires p <= |text|
    ensures var q := LiteralLoop(text, p, dot);
            (forall i :: p <= i < q ==> IsLiteralChar(text[i]) && !(text[i] == '.' && dot)) &&
            (q < |text| ==> !IsLiteralChar(text[q]) || (text[q] == '.' && dot))
    decreases |text| - p
  {
    hide IsLiteralChar;
    if LiteralLoop(text, p, dot) > p {
      LiteralIsLongestRun(text, p + 1, dot);
    }
  }

  // ----- next_token ---------------------------------------------------------------------------

  function Newlines(s: string): nat {
    if s == "" then 0 else (if s[0] == '\n' then 1 else 0) + Newlines(s[1..])
  }

  /** The end of the comment at `p`, just before its newline. */
  function SkipComment(text: CString, p: nat): (q: nat)
    requires p <= |text|
    ensures p <= q <= |text|
    decreases |text| - p
  {
    if p < |text| && text[p] != '\n' then SkipComment(text, p + 1) else p
  }

  /** Past comments and white space. */
  function SkipGap(text: CString, p: nat): (q: nat)
    requires p <= |text|
    ensures p <= q <= |text|
    decreases |text| - p
  {
    if p == |text| then p
    else if text[p] == '#' then SkipGap(text, SkipComment(text, p + 1))
    else if IsBlank(text[p]) then SkipGap(text, p + 1)
    else p
  }

  /** The kind of the token that starts with `c`; strings and literals are `Str`. */
  function KindOf(c: char, dot: bool): Kind {
    if dot && c == '.' then Dot
    else if c == ',' then Comma
    else if c == '=' then Equal
    else if c == '{' then LBrace
    else if c == '}' then RBrace
    else if c == '[' then LBracket
    else if c == ']' then RBracket
    else if c == '\n' then Newline
    else Str
  }

  /** The artificial newline in front of the text. */
  const START := Token(Newline, 1, 0, 0, false)

  function NextToken(text: CString, tok: Token, dot: bool): (r: Scanned<Token>)
    requires tok.End() <= |text|
    ensures r.Ok? ==> tok.End() <= r.value.ptr && r.value.End() <= |text|
  {
    var lineno := tok.lineno + Newlines(text[tok.ptr..tok.End()]);
    var p := SkipGap(text, tok.End());
    if p == |text| then Ok(Token(Newline, lineno, |text|, 0, true))
    else if KindOf(text[p], dot) != Str then Ok(Token(KindOf(text[p], dot), lineno, p, 1, false))
    else
      match ScanEnd(text, p, dot)
      case Err(e) => Err(e)
      case Ok(q) => Ok(Token(Str, lineno, p, q - p, false))
  }

  // ----- spans and line numbers -----------------------------------------------------------

  /** Blanks, tabs and carriage returns, and possibly a comment up to the end of a line. */
  predicate IsGap(s: string)
    decreases |s|
  {
    s == "" || (if s[0] == '#' then '\n' !in s else IsBlank(s[0]) && IsGap(s[1..]))
  }

  /** A token with the right line number, inside the text. */
  predicate Placed(text: CString, tok: Token) {
    tok.End() <= |text| && tok.lineno == 1 + Newlines(text[..tok.ptr])
  }

  lemma {:induction false} NewlinesAppend(a: string, b: string)
    ensures Newlines(a + b) == Newlines(a) + Newlines(b)
  {
    if a == "" {
      assert a + b == b;
    } else {
      assert (a + b)[1..] == a[1..] + b;
      NewlinesAppend(a[1..], b);
    }
  }

  lemma {:induction false} SkipCommentGap(text: CString, p: nat)
    requires p <= |text|
    ensures '\n' !in text[p..SkipComment(text, p)]
    ensures SkipComment(text, p) < |text| ==> text[SkipComment(text, p)] == '\n'
    decreases |text| - p
  {
    if p < |text| && text[p] != '\n' {
      SkipCommentGap(text, p + 1);
      assert text[p..SkipComment(text, p)] == [text[p]] + text[p + 1..SkipComment(text, p)];
    }
  }

  /** What is skipped is a gap; after a comment comes the end of the line. */
  lemma {:induction false} SkipGapIsGap(text: CString, p: nat)
    requires p <= |text|
    ensures var q := SkipGap(text, p);
            IsGap(text[p..q]) && ('#' in text[p..q] && q < |text| ==> text[q] == '\n') &&
            (q < |text| ==> !IsBlank(text[q]) && text[q] != '#')
    decreases |text| - p
  {
    var q := SkipGap(text, p);
    if p < |text| && text[p] == '#' {
      var e := SkipComment(text, p + 1);
      SkipCommentGap(text, p + 1);
      assert SkipGap(text, e) == e;
      assert text[p..q] == ['#'] + text[p + 1..e];
    } else if p < |text| && IsBlank(text[p]) {
      SkipGapIsGap(text, p + 1);
      assert text[p..q] == [text[p]] + text[p + 1..q];
    }
  }

  lemma {:induction false} GapHasNoNewline(s: string)
    requires IsGap(s)
    ensures Newlines(s) == 0
    decreases |s|
  {
    if s != "" {
      if s[0] == '#' {
        NoNewline(s);
      } else {
        GapHasNoNewline(s[1..]);
      }
    }
  }

  lemma {:induction false} NoNewline(s: string)
    requires '\n' !in s
    ensures Newlines(s) == 0
  {
    if s != "" {
      assert forall c :: c in s[1..] ==> c in s;
      NoNewline(s[1..]);
    }
  }

  /** The next token lies behind the last one, only a gap lies between, and its line number is right. */
  lemma NextTokenPlaced(text: CString, tok: Token, dot: bool)
    requires Placed(text, tok) && NextToken(text, tok, dot).Ok?
    ensures var t := NextToken(text, tok, dot).value;
            Placed(text, t) && tok.End() <= t.ptr && IsGap(text[tok.End()..t.ptr]) &&
            (t.eof <==> t.ptr == |text|) && (t.eof ==> t.kind == Newline && t.len == 0) &&
            (!t.eof ==> t.kind == KindOf(text[t.ptr], dot) && (t.kind != Str ==> t.len == 1)) &&
            ('#' in text[tok.End()..t.ptr] && !t.eof ==> t.kind == Newline)
  {
    hide SkipGap, ScanEnd, IsGap, Newlines, IsBlank;
    var t := NextToken(text, tok, dot).value;
    SkipGapIsGap(text, tok.End());
    GapHasNoNewline(text[tok.End()..t.ptr]);
    NewlinesAppend(text[..tok.ptr], text[tok.ptr..tok.End()]);
    NewlinesAppend(text[..tok.End()], text[tok.End()..t.ptr]);
    assert text[..tok.End()] == text[..tok.ptr] + text[tok.ptr..tok.End()];
    assert text[..t.ptr] == text[..tok.End()] + text[tok.End()..t.ptr];
  }

  /** A run of the tokenizer from `first`, with any choice of the flag at each step. */
  predicate IsRun(text: CString, toks: seq<Token>, dots: seq<bool>) {
    |toks| == |dots| + 1 && toks[0].End() <= |text| &&
    forall i :: 0 <= i < |dots| ==> IsNext(text, toks[i], dots[i], toks[i + 1])
  }

  predicate IsNext(text: CString, tok: Token, dot: bool, next: Token) {
    tok.End() <= |text| && NextToken(text, tok, dot) == Ok(next)
  }

  /** The spans of a run are ordered and disjoint, only gaps lie between them, and all line numbers are right. */
  lemma {:induction false} RunIsTiled(text: CString, toks: seq<Token>, dots: seq<bool>, i: nat, j: nat)
    requires IsRun(text, toks, dots) && toks[0] == START && i <= j < |toks|
    ensures Placed(text, toks[i]) && Placed(text, toks[j])
    ensures i < j ==> toks[i].End() <= toks[j].ptr
    ensures i + 1 == j ==> IsGap(text[toks[i].End()..toks[j].ptr])
    decreases j
  {
    hide NextToken, IsGap;
    assert j > 0 ==> IsNext(text, toks[j - 1], dots[j - 1], toks[j - 1 + 1]);
    if j == 0 {
      assert text[..0] == "";
    } else if i == j {
      RunIsTiled(text, toks, dots, j - 1, j - 1);
      NextTokenPlaced(text, toks[j - 1], dots[j - 1]);
    } else {
      RunIsTiled(text, toks, dots, i, j - 1);
      NextTokenPlaced(text, toks[j - 1], dots[j - 1]);
    }
  }

  /** Only an empty literal makes no progress: the same token comes again. */
  lemma StuckLiteral(text: CString, tok: Token, dot: bool, dot': bool)
    requires tok.End() <= |text| && NextToken(text, tok, dot).Ok?
    ensures var t := NextToken(text, tok, dot).value;
            !t.eof && t.len == 0 ==> t.kind == Str && NextToken(text, t, dot') == Ok(t)
  {
    var t := NextToken(text, tok, dot).value;
    if !t.eof && t.len == 0 {
      SkipGapIsGap(text, tok.End());
      EmptyLiteral(text, t.ptr, dot, dot');
      assert text[t.ptr..t.End()] == "";
    }
  }

  lemma EmptyLiteral(text: CString, p: nat, dot: bool, dot': bool)
    requires p < |text| && !IsBlank(text[p]) && text[p] != '#'
    requires KindOf(text[p], dot) == Str && ScanEnd(text, p, dot) == Ok(p)
    ensures SkipGap(text, p) == p && KindOf(text[p], dot') == Str && ScanEnd(text, p, dot') == Ok(p)
  {
    if IsDate(text, p) || IsTime(text, p) {
      SqueezeStops(text, p, TimestampLoop(text, p));
    }
  }

  /** A timestamp starts with a digit, so squeezing leaves it. */
  lemma {:induction false} SqueezeStops(text: CString, p: nat, q: nat)
    requires p < q <= |text| && text[p] != ' '
    ensures SqueezeLoop(text, p, q) > p
  {
    if q > p + 1 {
      SqueezeStops(text, p, q - 1);
    }
  }

  lemma {:induction false} TimestampRunsOutIff(text: CString, p: nat)
    requires p <= |text|
    ensures TimestampLoop(text, p) == |text| <==> forall i :: p <= i < |text| ==> IsTimestampChar(text[i])
    decreases |text| - p
  {
    if p < |text| && IsTimestampChar(text[p]) {
      TimestampRunsOutIff(text, p + 1);
    }
  }

  /** The scan reads beyond the end of the text if and only if an unquoted date or time comes next whose timestamp
      characters go on to the end. */
  lemma OverrunIff(text: CString, tok: Token, dot: bool)
    requires tok.End() <= |text|
    ensures var p := SkipGap(text, tok.End());
            NextToken(text, tok, dot) == Err(Overrun) <==>
              p < |text| && (IsDate(text, p) || IsTime(text, p)) &&
              forall i :: p <= i < |text| ==> IsTimestampChar(text[i])
  {
    hide IsTimestampChar, TimestampLoop, TripleLoop, BasicLoop, SqueezeLoop, IsDate, IsTime;
    var p := SkipGap(text, tok.End());
    if p < |text| {
      TimestampRunsOutIff(text, p);
      TripleNeverOverruns(text, p);
      if IsDate(text, p) || IsTime(text, p) {
        StartsWithDigit(text, p);
      }
    }
  }

  lemma StartsWithDigit(text: CString, p: nat)
    requires IsDate(text, p) || IsTime(text, p)
    ensures p < |text| && IsDigit(text[p])
  {
  }

  /** In particular, a text whose last character cannot stand in a timestamp, such as a line end, is never read
      beyond its end. */
  lemma NoOverrun(text: CString, tok: Token, dot: bool)
    requires tok.End() <= |text| && text != "" && !IsTimestampChar(text[|text| - 1])
    ensures NextToken(text, tok, dot) != Err(Overrun)
  {
    hide NextToken;
    OverrunIff(text, tok, dot);
  }

  lemma TripleNeverOverruns(text: CString, p: nat)
    requires p < |text|
    ensures p + 3 <= |text| ==> TripleLoop(text, p + 3, false, 0, 0) != Err(Overrun)
    ensures BasicLoop(text, p + 1, false, 0) != Err(Overrun)
  {
    if p + 3 <= |text| {
      TripleErrors(text, p + 3, false, 0, 0);
    }
    BasicErrors(text, p + 1, false, 0);
  }

  lemma TripleErrors(text: CString, p: nat, escape: bool, hexreq: nat, qcnt: nat)
    requires p <= |text|
    ensures TripleLoop(text, p, escape, hexreq, qcnt) != Err(Overrun)
    decreases |text| - p
  {
  }

  lemma BasicErrors(text: CString, p: nat, escape: bool, hexreq: nat)
    requires p <= |text|
    ensures BasicLoop(text, p, escape, hexreq) != Err(Overrun)
    decreases |text| - p
  {
  }
}
