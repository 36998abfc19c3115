/** Texts for sresar/toml.c in lines, as configuration files are: headers, keys with plain values, blank lines and
    comments, with blanks anywhere.  Which statements they show, and where their values are found. */
module CTomlLines {
  import opened Wrappers
  import opened CTomlScan
  import opened CTomlTree
  import opened CTomlParser
  import opened CTomlGrammar
  import opened CTomlMeaning
  import opened CTomlWords

  // ----- tokens -------------------------------------------------------------------------------

  predicate AllBlanks(s: string) {
    forall i :: 0 <= i < |s| ==> IsBlank(s[i])
  }

  /** Blanks, and possibly a comment. */
  predicate Ends(g: string) {
    IsGap(g) && '\n' !in g
  }

  lemma {:induction false} GapGoes(text: CString, p: nat, g: string, more: string)
    requires p <= |text| && Ends(g) && text[p..] == g + more
    requires more != "" ==> !IsBlank(more[0]) && more[0] != '#' && ('#' in g ==> more[0] == '\n')
    ensures SkipGap(text, p) == p + |g|
    decreases |g|
  {
    if g != "" {
      assert text[p] == text[p..][0] == g[0];
      if g[0] == '#' {
        CommentGoes(text, p + 1, g[1..], more);
        assert text[p + 1..] == text[p..][1..];
      } else {
        assert text[p + 1..] == g[1..] + more;
        GapGoes(text, p + 1, g[1..], more);
      }
    } else if more != "" {
      assert text[p] == text[p..][0] == more[0];
    }
  }

  lemma {:induction false} CommentGoes(text: CString, p: nat, g: string, more: string)
    requires p <= |text| && '\n' !in g && text[p..] == g + more && (more != "" ==> more[0] == '\n')
    ensures SkipComment(text, p) == p + |g| && SkipGap(text, p + |g|) == p + |g|
    decreases |g|
  {
    if g != "" {
      assert text[p] == text[p..][0] == g[0];
      assert text[p + 1..] == g[1..] + more;
      CommentGoes(text, p + 1, g[1..], more);
    } else if more != "" {
      assert text[p] == text[p..][0] == more[0];
    }
  }

  /** A token with this text of that kind, behind a gap; `more` is what follows it. */
  predicate IsNextThere(text: CString, tok: Token, dot: bool, kind: Kind, s: string, more: string) {
    Inside(text, tok) && Next(text, tok, dot).Ok? &&
    var t := Next(text, tok, dot).value;
    Inside(text, t) && t.kind == kind && !t.eof && text[t.ptr..t.End()] == s && text[t.End()..] == more
  }

  /** Where the parts of a text are. */
  lemma Slices(text: string, p: nat, g: string, s: string, more: string)
    requires p <= |text| && text[p..] == g + s + more
    ensures p + |g| + |s| <= |text| && text[p..] == g + (s + more) && text[p + |g|..p + |g| + |s|] == s
    ensures text[p + |g| + |s|..] == more && (s != "" ==> text[p + |g|] == s[0])
  {
    assert text[p..][|g|..|g| + |s|] == s;
    assert s != "" ==> text[p..][|g|] == s[0];
  }

  lemma MarkIsNext(text: CString, tok: Token, g: string, c: char, more: string, dot: bool)
    requires Inside(text, tok) && Ends(g) && text[tok.End()..] == g + [c] + more
    requires KindOf(c, dot) != Str && ('#' in g ==> c == '\n')
    ensures IsNextThere(text, tok, dot, KindOf(c, dot), [c], more)
  {
    hide SkipGap, ScanEnd, Ends, KindOf, IsBlank;
    NotGap(c, dot);
    Slices(text, tok.End(), g, [c], more);
    GapGoes(text, tok.End(), g, [c] + more);
  }

  lemma NotGap(c: char, dot: bool)
    requires KindOf(c, dot) != Str
    ensures !IsBlank(c) && c != '#'
  {
  }

  lemma WordIsNext(text: CString, tok: Token, g: string, w: Word, more: string, dot: bool)
    requires Inside(text, tok) && AllBlanks(g) && text[tok.End()..] == g + WordText(w) + more
    requires IsWord(w, dot) && Follows(w, more, dot)
    ensures IsNextThere(text, tok, dot, Str, WordText(w), more)
  {
    hide SkipGap, ScanEnd, IsWord, WordText, Follows, Ends, KindOf, IsBlank, AllBlanks, Next;
    var s := WordText(w);
    WordHead(w, dot);
    BlanksEnd(g);
    Slices(text, tok.End(), g, s, more);
    Slices(text, tok.End(), "", g, s + more);
    GapGoes(text, tok.End(), g, s + more);
    WordEnds(text, tok.End() + |g|, w, more, dot);
    WordToken(text, tok, tok.End() + |g|, |s|, dot);
  }

  lemma WordToken(text: CString, tok: Token, p: nat, n: nat, dot: bool)
    requires Inside(text, tok) && SkipGap(text, tok.End()) == p && p + n <= |text| && p < |text|
    requires KindOf(text[p], dot) == Str && ScanEnd(text, p, dot) == Ok(p + n)
    ensures Next(text, tok, dot).Ok? && Inside(text, Next(text, tok, dot).value)
    ensures var t := Next(text, tok, dot).value; t.kind == Str && t.ptr == p && t.len == n && !t.eof
  {
    hide SkipGap, ScanEnd, KindOf;
  }

  lemma WordHead(w: Word, dot: bool)
    requires IsWord(w, dot)
    ensures var s := WordText(w); s != "" && KindOf(s[0], dot) == Str && !IsBlank(s[0]) && s[0] != '#'
  {
    hide LooksTimed, StopsAtThree, AllParts;
    match w
    case Stamp(s) => StampHead(s);
    case _ =>
  }

  lemma StampHead(s: string)
    requires LooksTimed(s)
    ensures s != "" && IsDigit(s[0])
  {
    TimedStays(s, 0, s);
  }

  lemma {:induction false} BlanksEnd(g: string)
    requires AllBlanks(g)
    ensures Ends(g) && '#' !in g
  {
    if g != "" {
      BlanksEnd(g[1..]);
      assert g == [g[0]] + g[1..];
    }
  }

  /** Nothing but a gap is left. */
  lemma EndIsNext(text: CString, tok: Token, g: string, dot: bool)
    requires Inside(text, tok) && Ends(g) && text[tok.End()..] == g
    ensures Next(text, tok, dot).Ok? && Next(text, tok, dot).value.eof
  {
    hide SkipGap, ScanEnd;
    assert text[tok.End()..] == g + "";
    GapGoes(text, tok.End(), g, "");
  }

  // ----- lines --------------------------------------------------------------------------------

  /** The lines of a text, with the blanks in them; `rest` is what stands in front of the line end. */
  datatype Line =
    | Nothing(rest: string)
    | Section(a: string, name: Word, b: string, double: bool, c: string, rest: string)
    | Entry(a: string, key: Word, b: string, c: string, value: Word, rest: string)

  predicate IsLine(l: Line) {
    Ends(l.rest) &&
    match l
    case Nothing(_) => true
    case Section(a, name, b, _, c, _) =>
      AllBlanks(a) && AllBlanks(b) && AllBlanks(c) && IsWord(name, true) && !name.Stamp? && KeyOf(name, true).Ok?
    case Entry(a, key, b, c, value, _) =>
      AllBlanks(a) && AllBlanks(b) && AllBlanks(c) && IsWord(key, true) && !key.Stamp? && KeyOf(key, true).Ok? &&
      IsWord(value, false)
  }

  predicate AllLines(ls: seq<Line>) {
    forall i :: 0 <= i < |ls| ==> IsLine(ls[i])
  }

  function LineText(l: Line): string {
    (match l
     case Nothing(_) => ""
     case Section(a, name, b, double, c, _) =>
       a + (if double then "[[" else "[") + b + WordText(name) + c + (if double then "]]" else "]")
     case Entry(a, key, b, c, value, _) => a + WordText(key) + b + "=" + c + WordText(value)) + l.rest + "\n"
  }

  function LinesText(ls: seq<Line>): string {
    if ls == [] then "" else LineText(ls[0]) + LinesText(ls[1..])
  }

  function StmtsOf(l: Line): seq<Stmt>
    requires IsLine(l)
  {
    match l
    case Nothing(_) => []
    case Section(_, name, _, double, _, _) => [Head([KeyOf(name, true).value], double)]
    case Entry(_, key, _, _, value, _) => [Item(Pair([KeyOf(key, true).value], Plain(WordText(value))))]
  }

  function AllStmts(ls: seq<Line>): seq<Stmt>
    requires AllLines(ls)
  {
    if ls == [] then [] else StmtsOf(ls[0]) + AllStmts(ls[1..])
  }

  lemma {:induction false} RestEndsStamp(g: string, more: string)
    requires Ends(g) && more != "" && more[0] == '\n'
    ensures EndsStamp(g + more)
    decreases |g|
  {
    if g == "" {
      assert g + more == more;
    } else if g[0] == ' ' {
      assert (g + more)[1..] == g[1..] + more;
      RestEndsStamp(g[1..], more);
    }
  }

  /** A value is followed by the rest of its line. */
  lemma RestFollows(w: Word, g: string, more: string, dot: bool)
    requires Ends(g) && more != "" && more[0] == '\n'
    ensures Follows(w, g + more, dot)
  {
    RestEndsStamp(g, more);
    assert (g + more)[0] == if g == "" then more[0] else g[0];
  }

  lemma BlanksFollow(w: Word, g: string, more: string, dot: bool)
    requires !w.Stamp? && AllBlanks(g) && more != "" && more[0] in {'=', ']'}
    ensures Follows(w, g + more, dot)
  {
    assert (g + more)[0] == if g == "" then more[0] else g[0];
  }

  /** The key of an entry and the equals sign behind it. */
  lemma KeyIsShown(text: CString, tok: Token, a: string, key: Word, b: string, more: string)
    requires Inside(text, tok) && AllBlanks(a) && AllBlanks(b) && IsWord(key, true) && !key.Stamp?
    requires text[tok.End()..] == a + (WordText(key) + (b + ("=" + more)))
    ensures IsNextThere(text, tok, true, Str, WordText(key), b + ("=" + more))
    ensures var t := Next(text, tok, true).value;
            NormalizeKey(text, t) == KeyOf(key, true) && IsNextThere(text, t, true, Equal, "=", more)
  {
    hide Next, NormalizeKey, IsWord, WordText, Follows, AllBlanks, Ends, KeyOf;
    BlanksFollow(key, b, "=" + more, true);
    assert a + (WordText(key) + (b + ("=" + more))) == a + WordText(key) + (b + ("=" + more));
    WordIsNext(text, tok, a, key, b + ("=" + more), true);
    var t := Next(text, tok, true).value;
    KeyIsNormalised(text, t, key, true);
    BlanksEnd(b);
    assert b + ("=" + more) == b + ['='] + more;
    MarkIsNext(text, t, b, '=', more, true);
  }

  /** The value of an entry and the rest of its line. */
  lemma ValueIsShown(text: CString, tok: Token, c: string, value: Word, rest: string, more: string)
    requires Inside(text, tok) && AllBlanks(c) && Ends(rest) && IsWord(value, false)
    requires text[tok.End()..] == c + (WordText(value) + (rest + ("\n" + more)))
    ensures IsNextThere(text, tok, false, Str, WordText(value), rest + ("\n" + more))
    ensures IsNextThere(text, Next(text, tok, false).value, true, Newline, "\n", more)
  {
    hide Next, IsWord, WordText, Follows, AllBlanks, Ends;
    RestFollows(value, rest, "\n" + more, false);
    assert c + (WordText(value) + (rest + ("\n" + more))) == c + WordText(value) + (rest + ("\n" + more));
    WordIsNext(text, tok, c, value, rest + ("\n" + more), false);
    assert rest + ("\n" + more) == rest + ['\n'] + more;
    MarkIsNext(text, Next(text, tok, false).value, rest, '\n', more, true);
  }

  /** A key and a plain value. */
  lemma EntryIsShown(text: CString, tok: Token, l: Line, more: string)
    requires IsLine(l) && l.Entry? && Inside(text, tok) && text[tok.End()..] == LineText(l) + more
    ensures Next(text, tok, true).Ok? && Inside(text, Next(text, tok, true).value)
    ensures var t := Next(text, tok, true).value;
            var end := PairEnd(text, t, [KeyOf(l.key, true).value], Plain(WordText(l.value)));
            t.kind == Str && !t.eof && end.Some? && end.value.kind == Newline && !end.value.eof &&
            text[end.value.End()..] == more
  {
    hide Next, NormalizeKey, IsWord, WordText, AllBlanks, Ends, KeyOf;
    var k, v := WordText(l.key), WordText(l.value);
    var after := l.c + (v + (l.rest + ("\n" + more)));
    Regroup(l.a, k, l.b, "=", l.c, v, l.rest, more);
    KeyIsShown(text, tok, l.a, l.key, l.b, after);
    var t := Next(text, tok, true).value;
    ValueIsShown(text, Next(text, t, true).value, l.c, l.value, l.rest, more);
  }

  /** The brackets in front of a name, and the name. */
  lemma OpenIsShown(text: CString, tok: Token, a: string, double: bool, b: string, w: Word, more: string)
    requires Inside(text, tok) && AllBlanks(a) && AllBlanks(b) && IsWord(w, true) && Follows(w, more, true)
    requires text[tok.End()..] == a + ((if double then "[[" else "[") + (b + (WordText(w) + more)))
    ensures IsNextThere(text, tok, true, LBracket, "[", (if double then "[" else "") + (b + (WordText(w) + more)))
    ensures var t := Next(text, tok, true).value;
            var name := Brackets(text, t, LBracket, double);
            CharBehind(text, t, '[') == double && name.Some? && name.value.kind == Str &&
            text[name.value.ptr..name.value.End()] == WordText(w) && text[name.value.End()..] == more
  {
    hide Next, AllBlanks, Ends, IsWord, WordText, Follows;
    var after := b + (WordText(w) + more);
    var after' := (if double then "[" else "") + after;
    WordStarts(w, b, more);
    BlanksEnd(a);
    assert text[tok.End()..] == a + ['['] + after';
    MarkIsNext(text, tok, a, '[', after', true);
    var t := Next(text, tok, true).value;
    assert text[t.ptr + 1] == text[t.End()..][0] == after'[0];
    assert after == b + WordText(w) + more;
    if double {
      SecondOpens(text, t, b, w, more);
    } else {
      assert after' == after;
      WordIsNext(text, t, b, w, more, true);
    }
  }

  lemma SecondOpens(text: CString, t: Token, b: string, w: Word, more: string)
    requires Inside(text, t) && AllBlanks(b) && IsWord(w, true) && Follows(w, more, true)
    requires text[t.End()..] == "[" + (b + (WordText(w) + more))
    ensures IsNextThere(text, t, true, LBracket, "[", b + (WordText(w) + more))
    ensures IsNextThere(text, Next(text, t, true).value, true, Str, WordText(w), more)
  {
    hide Next, AllBlanks, Ends, IsWord, WordText, Follows;
    var after := b + (WordText(w) + more);
    EmptyEnds();
    assert "[" + after == "" + ['['] + after;
    MarkIsNext(text, t, "", '[', after, true);
    assert after == b + WordText(w) + more;
    WordIsNext(text, Next(text, t, true).value, b, w, more, true);
  }

  /** A name never starts with a bracket. */
  lemma WordStarts(w: Word, b: string, more: string)
    requires IsWord(w, true) && AllBlanks(b)
    ensures var s := b + (WordText(w) + more); s != "" && s[0] != '['
  {
    hide IsWord, WordText;
    WordHead(w, true);
    var s := b + (WordText(w) + more);
    assert s[0] == if b == "" then WordText(w)[0] else b[0];
  }

  /** The brackets behind a name, and the rest of the line. */
  lemma CloseIsShown(text: CString, tok: Token, c: string, double: bool, rest: string, more: string)
    requires Inside(text, tok) && AllBlanks(c) && Ends(rest)
    requires text[tok.End()..] == c + ((if double then "]]" else "]") + (rest + ("\n" + more)))
    ensures IsNextThere(text, tok, true, RBracket, "]", (if double then "]" else "") + (rest + ("\n" + more)))
    ensures var t := Next(text, tok, true).value;
            var end := Brackets(text, t, RBracket, double);
            (double ==> CharBehind(text, t, ']')) && end.Some? && end.value.kind == Newline && !end.value.eof &&
            text[end.value.End()..] == more
  {
    hide Next, AllBlanks, Ends;
    var after := rest + ("\n" + more);
    var after' := (if double then "]" else "") + after;
    BlanksEnd(c);
    assert text[tok.End()..] == c + [']'] + after';
    MarkIsNext(text, tok, c, ']', after', true);
    var t := Next(text, tok, true).value;
    assert after == rest + ['\n'] + more;
    if double {
      assert text[t.ptr + 1] == text[t.End()..][0] == after'[0];
      EmptyEnds();
      assert after' == "" + [']'] + after;
      MarkIsNext(text, t, "", ']', after, true);
      MarkIsNext(text, Next(text, t, true).value, rest, '\n', more, true);
    } else {
      assert after' == after;
      MarkIsNext(text, t, rest, '\n', more, true);
    }
  }

  lemma EmptyEnds()
    ensures Ends("")
  {
  }

  /** A header. */
  lemma HeaderIsShown(text: CString, tok: Token, l: Line, more: string)
    requires IsLine(l) && l.Section? && Inside(text, tok) && text[tok.End()..] == LineText(l) + more
    ensures Next(text, tok, true).Ok? && Inside(text, Next(text, tok, true).value)
    ensures var t := Next(text, tok, true).value;
            var end := HeadEnd(text, t, [KeyOf(l.name, true).value], l.double);
            t.kind == LBracket && !t.eof && end.Some? && end.value.kind == Newline && !end.value.eof &&
            text[end.value.End()..] == more
  {
    hide Next, NormalizeKey, IsWord, WordText, Follows, AllBlanks, Ends, KeyOf, Brackets, CharBehind;
    var close := if l.double then "]]" else "]";
    var after2 := l.c + (close + (l.rest + ("\n" + more)));
    Regroup(l.a, if l.double then "[[" else "[", l.b, WordText(l.name), l.c, close, l.rest, more);
    assert close + (l.rest + ("\n" + more)) != "" && (close + (l.rest + ("\n" + more)))[0] == ']';
    BlanksFollow(l.name, l.c, close + (l.rest + ("\n" + more)), true);
    OpenIsShown(text, tok, l.a, l.double, l.b, l.name, after2);
    var name := Brackets(text, Next(text, tok, true).value, LBracket, l.double).value;
    KeyIsNormalised(text, name, l.name, true);
    CloseIsShown(text, name, l.c, l.double, l.rest, more);
  }

  lemma Regroup(a: string, b: string, c: string, d: string, e: string, f: string, g: string, more: string)
    ensures a + b + c + d + e + f + g + "\n" + more == a + (b + (c + (d + (e + (f + (g + ("\n" + more)))))))
  {
  }
  lemma BehindNewline(text: CString, tok: Token, stmts: seq<Stmt>)
    requires Inside(text, tok) && tok.kind == Newline && !tok.eof && Shows(text, tok, stmts)
    ensures Behind(text, tok, Newline, true).Some? && Shows(text, Behind(text, tok, Newline, true).value, stmts)
  {
    hide Next, PairEnd, HeadEnd;
  }

  lemma NextShows(text: CString, tok: Token, stmts: seq<Stmt>)
    requires Inside(text, tok) && tok.kind == Newline && !tok.eof && Next(text, tok, true).Ok?
    requires if Next(text, tok, true).value.eof then stmts == [] else Shows(text, Next(text, tok, true).value, stmts)
    ensures Shows(text, tok, stmts)
  {
    hide Next, PairEnd, HeadEnd;
  }

  lemma ItemShows(text: CString, tok: Token, pair: Pair, stmts: seq<Stmt>)
    requires Inside(text, tok) && tok.kind == Str && !tok.eof && PairEnd(text, tok, pair.keys, pair.val).Some?
    requires var end := PairEnd(text, tok, pair.keys, pair.val).value;
             Behind(text, end, Newline, true).Some? && Shows(text, Behind(text, end, Newline, true).value, stmts)
    ensures Shows(text, tok, [Item(pair)] + stmts)
  {
    hide Next, PairEnd, HeadEnd;
    assert ([Item(pair)] + stmts)[1..] == stmts;
  }

  lemma HeadShows(text: CString, tok: Token, keys: seq<string>, double: bool, stmts: seq<Stmt>)
    requires Inside(text, tok) && tok.kind == LBracket && !tok.eof && HeadEnd(text, tok, keys, double).Some?
    requires Shows(text, HeadEnd(text, tok, keys, double).value, stmts)
    ensures Shows(text, tok, [Head(keys, double)] + stmts)
  {
    hide Next, PairEnd, HeadEnd;
    assert ([Head(keys, double)] + stmts)[1..] == stmts;
  }

  lemma {:induction false} LinesAreShown(text: CString, tok: Token, ls: seq<Line>)
    requires AllLines(ls) && Inside(text, tok) && tok.kind == Newline && !tok.eof && text[tok.End()..] == LinesText(ls)
    ensures Shows(text, tok, AllStmts(ls))
    decreases |ls|
  {
    hide Next, PairEnd, HeadEnd, Shows, IsLine, LineText, Brackets;
    if ls == [] {
      EmptyEnds();
      EndIsNext(text, tok, "", true);
    } else {
      var more := LinesText(ls[1..]);
      match ls[0]
      case Nothing(rest) =>
        NothingIsShown(text, tok, ls[0], more);
        assert AllStmts(ls) == AllStmts(ls[1..]);
        LinesAreShown(text, Next(text, tok, true).value, ls[1..]);
      case Section(_, name, _, double, _, _) =>
        LineParts(ls[0]);
        HeaderIsShown(text, tok, ls[0], more);
        var t := Next(text, tok, true).value;
        var keys := [KeyOf(name, true).value];
        LinesAreShown(text, HeadEnd(text, t, keys, double).value, ls[1..]);
        HeadShows(text, t, keys, double, AllStmts(ls[1..]));
      case Entry(_, key, _, _, value, _) =>
        LineParts(ls[0]);
        EntryIsShown(text, tok, ls[0], more);
        var t := Next(text, tok, true).value;
        var pair := Pair([KeyOf(key, true).value], Plain(WordText(value)));
        var end := PairEnd(text, t, pair.keys, pair.val).value;
        LinesAreShown(text, end, ls[1..]);
        BehindNewline(text, end, AllStmts(ls[1..]));
        ItemShows(text, t, pair, AllStmts(ls[1..]));
    }
    NextShows(text, tok, AllStmts(ls));
  }

  lemma LineParts(l: Line)
    requires IsLine(l)
    ensures l.Section? ==> IsWord(l.name, true) && KeyOf(l.name, true).Ok?
    ensures l.Entry? ==> IsWord(l.key, true) && KeyOf(l.key, true).Ok?
  {
    hide IsWord, KeyOf, AllBlanks, Ends;
  }

  lemma NothingIsShown(text: CString, tok: Token, l: Line, more: string)
    requires IsLine(l) && l.Nothing? && Inside(text, tok) && text[tok.End()..] == LineText(l) + more
    ensures IsNextThere(text, tok, true, Newline, "\n", more) && StmtsOf(l) == []
  {
    hide Next, Ends;
    assert LineText(l) + more == l.rest + ['\n'] + more;
    MarkIsNext(text, tok, l.rest, '\n', more, true);
  }

  /** A text of such lines shows the headers and keys of its lines. */
  lemma TextShows(text: CString, ls: seq<Line>)
    requires AllLines(ls) && text == LinesText(ls)
    ensures IsText(text, AllStmts(ls))
  {
    hide *;
    StartsInFront(text);
    assert text[0..] == text;
    LinesAreShown(text, START, ls);
    IsShown(text, AllStmts(ls));
  }

  lemma StartsInFront(text: CString)
    ensures START.End() == 0 && Inside(text, START) && START.kind == Newline && !START.eof
  {
    StartsAtRoot(text);
  }

  lemma IsShown(text: CString, stmts: seq<Stmt>)
    requires Inside(text, START) && Shows(text, START, stmts)
    ensures IsText(text, stmts)
  {
    hide Shows;
  }
}
