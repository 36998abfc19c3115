/** The words of a text for sresar/toml.c: literals, timestamps and the four kinds of quoted strings, where each of
    them ends, and what it is as a key. */
module CTomlWords {
  import opened Wrappers
  import opened CTomlUtf8
  import opened CTomlScan
  import opened CTomlNorm
  import opened CTomlParser

  /** The part of a multi-line basic string; a `Fold` is a backslash and white space up to the end of its line. */
  datatype Part = Char(c: char) | Esc(c: char) | Hex(hex: string) | Fold(ws: string)

  datatype Word =
    | Literal(s: string)
    | Stamp(s: string)
    | Single(s: string)
    | Basic(pieces: seq<Piece>)
    | TripleSingle(s: string)
    | TripleBasic(parts: seq<Part>)

  // ----- multi-line basic strings -------------------------------------------------------------

  predicate IsPart(p: Part) {
    match p
    case Char(c) => c != '\\' && c != '\0'
    case Esc(c) => IsSimpleEscape(c)
    case Hex(hex) => (|hex| == 4 || |hex| == 8) && AllUpperHex(hex)
    case Fold(ws) => ws != "" && ws[|ws| - 1] == '\n' && forall i :: 0 <= i < |ws| - 1 ==> IsBlank(ws[i])
  }

  predicate AllParts(ps: seq<Part>) {
    forall i :: 0 <= i < |ps| ==> IsPart(ps[i])
  }

  function PartText(p: Part): (s: string)
    ensures s != ""
  {
    match p
    case Char(c) => [c]
    case Esc(c) => ['\\', c]
    case Hex(hex) => ['\\', if |hex| == 4 then 'u' else 'U'] + hex
    case Fold(ws) => "\\" + ws
  }

  function PartsText(ps: seq<Part>): string {
    if ps == [] then "" else PartText(ps[0]) + PartsText(ps[1..])
  }

  /** How many quotes stand side by side behind a part; an escape does not count as standing between. */
  function Quotes(q: nat, p: Part): nat {
    match p
    case Char(c) => if c == '\"' then q + 1 else 0
    case Fold(ws) => if |ws| == 1 then q else 0
    case _ => q
  }

  /** The third quote in a row comes last. */
  predicate StopsAtThree(ps: seq<Part>, q: nat) {
    if q >= 3 then ps == [] else ps != [] && StopsAtThree(ps[1..], Quotes(q, ps[0]))
  }

  /** The scanner stops behind the first three quotes in a row. */
  lemma {:induction false} TripleIsScanned(text: CString, p: nat, ps: seq<Part>, q: nat, more: string)
    requires p <= |text| && AllParts(ps) && StopsAtThree(ps, q) && q <= 3 && text[p..] == PartsText(ps) + more
    ensures TripleLoop(text, p, false, 0, q) == Ok(p + |PartsText(ps)|)
    decreases |ps|
  {
    hide PartText, IsPart, TripleLoop;
    if q == 3 {
      LoopEnds(text, p);
    } else {
      var s := PartText(ps[0]);
      var rest := PartsText(ps[1..]) + more;
      assert text[p..] == s + rest;
      assert text[p + |s|..] == rest;
      PartIsScanned(text, p, ps[0], q, rest);
      TripleIsScanned(text, p + |s|, ps[1..], Quotes(q, ps[0]), more);
    }
  }

  lemma LoopEnds(text: CString, p: nat)
    requires p <= |text|
    ensures TripleLoop(text, p, false, 0, 3) == Ok(p)
  {
  }

  lemma PartIsScanned(text: CString, p: nat, part: Part, q: nat, rest: string)
    requires p <= |text| && IsPart(part) && q < 3 && text[p..] == PartText(part) + rest
    ensures p + |PartText(part)| <= |text| && Quotes(q, part) <= 3
    ensures TripleLoop(text, p, false, 0, q) == TripleLoop(text, p + |PartText(part)|, false, 0, Quotes(q, part))
  {
    var s := PartText(part);
    Standing(text, p, s, rest);
    match part
    case Char(_) =>
    case Esc(c) =>
      EscapeStarts(text, p, q);
    case Hex(hex) =>
      EscapeStarts(text, p, q);
      CodeStarts(text, p + 1, |hex|, q);
      HexIsScannedThere(text, p + 2, |hex|, q);
    case Fold(ws) =>
      EscapeStarts(text, p, q);
      FoldIsScanned(text, p + 1, |ws|, q);
  }

  lemma Standing(text: CString, p: nat, s: string, rest: string)
    requires p <= |text| && text[p..] == s + rest
    ensures p + |s| <= |text| && forall i :: p <= i < p + |s| ==> text[i] == s[i - p]
  {
    assert forall i :: p <= i < p + |s| ==> text[i] == text[p..][i - p];
  }

  lemma EscapeStarts(text: CString, p: nat, q: nat)
    requires p < |text| && text[p] == '\\' && q < 3
    ensures TripleLoop(text, p, false, 0, q) == TripleLoop(text, p + 1, true, 0, q)
  {
  }

  lemma CodeStarts(text: CString, p: nat, n: nat, q: nat)
    requires p < |text| && q < 3 && (n == 4 || n == 8) && text[p] == if n == 4 then 'u' else 'U'
    ensures TripleLoop(text, p, true, 0, q) == TripleLoop(text, p + 1, false, n, q)
  {
  }

  lemma {:induction false} HexIsScannedThere(text: CString, p: nat, k: nat, q: nat)
    requires p + k <= |text| && q < 3 && forall i :: p <= i < p + k ==> IsUpperHex(text[i])
    ensures TripleLoop(text, p, false, k, q) == TripleLoop(text, p + k, false, 0, q)
    decreases k
  {
    if k > 0 {
      HexIsScannedThere(text, p + 1, k - 1, q);
    }
  }

  /** The white space behind a backslash up to the end of its line: one character is skipped, the others are read. */
  lemma FoldIsScanned(text: CString, p: nat, n: nat, q: nat)
    requires 1 <= n && p + n <= |text| && q < 3 && text[p + n - 1] == '\n'
    requires forall i :: p <= i < p + n - 1 ==> IsBlank(text[i])
    ensures TripleLoop(text, p, true, 0, q) == TripleLoop(text, p + n, false, 0, if n == 1 then q else 0)
  {
    BlanksEnd(text, p, n - 1);
    assert TripleLoop(text, p, true, 0, q) == TripleLoop(text, p + 1, false, 0, q);
    if n > 1 {
      WhiteIsRead(text, p + 1, n - 1, q);
    }
  }

  lemma {:induction false} BlanksEnd(text: CString, p: nat, n: nat)
    requires p + n < |text| && text[p + n] == '\n' && forall i :: p <= i < p + n ==> IsBlank(text[i])
    ensures SkipBlanks(text, p) == p + n
    decreases n
  {
    if n > 0 {
      BlanksEnd(text, p + 1, n - 1);
    }
  }

  lemma {:induction false} WhiteIsRead(text: CString, p: nat, n: nat, q: nat)
    requires 1 <= n && p + n <= |text| && q < 3
    requires forall i :: p <= i < p + n ==> IsBlank(text[i]) || text[i] == '\n'
    ensures TripleLoop(text, p, false, 0, q) == TripleLoop(text, p + n, false, 0, 0)
    decreases n
  {
    assert TripleLoop(text, p, false, 0, q) == TripleLoop(text, p + 1, false, 0, 0);
    if n > 1 {
      WhiteIsRead(text, p + 1, n - 1, 0);
    }
  }

  // ----- what a multi-line basic string stands for --------------------------------------------

  predicate IsWhite(c: char) {
    IsBlank(c) || c == '\n'
  }

  predicate CanExpress(p: Part)
    requires IsPart(p)
  {
    match p
    case Char(c) => !IsControl(c) || c == '\r' || c == '\n'
    case Hex(hex) => Legal(HexCode(hex, 0))
    case _ => true
  }

  predicate AllCanExpress(ps: seq<Part>)
    requires AllParts(ps)
  {
    forall i :: 0 <= i < |ps| ==> CanExpress(ps[i])
  }

  /** What a part stands for by itself. */
  function Alone(p: Part): string
    requires IsPart(p) && CanExpress(p)
  {
    match p
    case Char(c) => [c]
    case Esc(c) => [Unescaped(c)]
    case Hex(hex) => Encode(HexCode(hex, 0)).value
    case Fold(_) => ""
  }

  /** Line ends stay as they are; behind a fold all white space is dropped. */
  function Meant(ps: seq<Part>, folded: bool): string
    requires AllParts(ps) && AllCanExpress(ps)
  {
    if ps == [] then ""
    else if ps[0].Fold? || (folded && ps[0].Char? && IsWhite(ps[0].c)) then Meant(ps[1..], true)
    else Alone(ps[0]) + Meant(ps[1..], false)
  }

  /** The parts behind the white space in front. */
  function DropWhite(ps: seq<Part>): (r: seq<Part>)
    requires AllParts(ps)
    ensures AllParts(r) && |r| <= |ps|
    ensures AllCanExpress(ps) <==> AllCanExpress(r)
  {
    if ps != [] && ps[0].Char? && IsWhite(ps[0].c) then
      assert ps == [ps[0]] + ps[1..];
      DropWhite(ps[1..])
    else ps
  }

  lemma {:induction false} MeantDropped(ps: seq<Part>)
    requires AllParts(ps) && AllCanExpress(ps)
    ensures Meant(ps, true) == Meant(DropWhite(ps), false)
  {
    if ps != [] && ps[0].Char? && IsWhite(ps[0].c) {
      MeantDropped(ps[1..]);
    }
  }

  lemma SpanStep(s: string)
    ensures s[SpanBlank(s, true)..] == if s != "" && IsWhite(s[0]) then s[1..][SpanBlank(s[1..], true)..] else s
  {
  }

  lemma {:induction false} SpanDropped(ps: seq<Part>)
    requires AllParts(ps)
    ensures var s := PartsText(ps); s[SpanBlank(s, true)..] == PartsText(DropWhite(ps))
  {
    hide SpanBlank;
    var s := PartsText(ps);
    SpanStep(s);
    if ps != [] {
      assert s[0] == PartText(ps[0])[0];
      if ps[0].Char? && IsWhite(ps[0].c) {
        assert s[1..] == PartsText(ps[1..]);
        SpanDropped(ps[1..]);
      }
    }
  }

  /** The normaliser gives what the parts stand for, and fails exactly if one cannot be expressed. */
  lemma {:induction false} NormOfParts(ps: seq<Part>)
    requires AllParts(ps)
    ensures Norm(PartsText(ps), true) == if AllCanExpress(ps) then Some(Meant(ps, false)) else None
    decreases |ps|
  {
    hide Norm, PartText, Encode, HexCode, IsPart, CanExpress, IsControl;
    if ps == [] {
      NormRound("", true);
    } else {
      var rest := PartsText(ps[1..]);
      assert ps == [ps[0]] + ps[1..];
      NormOfPart(ps[0], rest);
      if ps[0].Fold? {
        NormOfParts(DropWhite(ps[1..]));
        SpanDropped(ps[1..]);
        if AllCanExpress(ps[1..]) {
          MeantDropped(ps[1..]);
        }
      } else {
        NormOfParts(ps[1..]);
      }
      Expressed(ps);
    }
  }

  lemma Expressed(ps: seq<Part>)
    requires AllParts(ps) && ps != []
    ensures AllCanExpress(ps) <==> CanExpress(ps[0]) && AllCanExpress(ps[1..])
    ensures ps[0].Fold? || ps[0].Esc? ==> CanExpress(ps[0])
  {
    assert ps == [ps[0]] + ps[1..];
  }

  lemma NormOfPart(p: Part, rest: string)
    requires IsPart(p)
    ensures Norm(PartText(p) + rest, true)
         == if p.Fold? then Norm(rest[SpanBlank(rest, true)..], true)
            else if CanExpress(p) then Prepend(Alone(p), Norm(rest, true)) else None
  {
    hide Norm, Encode, HexCode, SpanBlank, Prepend, EndsLine, IsPart, Unescaped;
    match p
    case Char(c) => NormOfChar(c, rest);
    case Esc(c) => NormOfEscape(c, rest);
    case Hex(hex) => NormOfHex(hex, rest);
    case Fold(ws) => NormOfFold(ws, rest);
  }

  lemma NormOfChar(c: char, rest: string)
    requires IsPart(Char(c))
    ensures Norm([c] + rest, true) == if CanExpress(Char(c)) then Prepend([c], Norm(rest, true)) else None
  {
    hide Norm, Prepend, EndsLine, SpanBlank;
    NormRound([c] + rest, true);
    assert ([c] + rest)[1..] == rest;
  }

  lemma NormOfEscape(c: char, rest: string)
    requires IsPart(Esc(c))
    ensures Norm(['\\', c] + rest, true) == Prepend([Unescaped(c)], Norm(rest, true))
  {
    hide Norm, Prepend, EndsLine, SpanBlank, Unescaped;
    var s := ['\\', c] + rest;
    NormRound(s, true);
    NotEndOfLine(s[1..]);
    assert s[2..] == rest;
  }

  lemma NormOfFold(ws: string, rest: string)
    requires IsPart(Fold(ws))
    ensures Norm("\\" + ws + rest, true) == Norm(rest[SpanBlank(rest, true)..], true)
  {
    hide Norm, Prepend, EndsLine, SpanBlank;
    var s := "\\" + ws + rest;
    NormRound(s, true);
    assert s[1..] == ws + rest;
    FoldEndsLine(ws, rest);
  }

  lemma NormOfHex(hex: string, rest: string)
    requires IsPart(Hex(hex))
    ensures Norm(PartText(Hex(hex)) + rest, true)
         == if CanExpress(Hex(hex)) then Prepend(Alone(Hex(hex)), Norm(rest, true)) else None
  {
    hide Norm, Encode, HexCode, Prepend, EndsLine, SpanBlank;
    var s := PartText(Hex(hex)) + rest;
    NormRound(s, true);
    NotEndOfLine(s[1..]);
    assert s[2..2 + |hex|] == hex && s[2 + |hex|..] == rest;
  }

  lemma NotEndOfLine(s: string)
    requires s != "" && !IsWhite(s[0])
    ensures !EndsLine(s)
  {
  }

  lemma {:induction false} FoldEndsLine(ws: string, rest: string)
    requires IsPart(Fold(ws))
    ensures EndsLine(ws + rest)
    ensures (ws + rest)[SpanBlank(ws + rest, true)..] == rest[SpanBlank(rest, true)..]
  {
    var s := ws + rest;
    assert s[0] == ws[0] && s[1..] == ws[1..] + rest;
    FoldStep(s);
    hide SpanBlank;
    SpanStep(s);
    if |ws| > 1 {
      FoldEndsLine(ws[1..], rest);
    } else {
      assert ws[1..] + rest == rest;
    }
  }

  lemma FoldStep(s: string)
    requires s != ""
    ensures s[0] == '\n' ==> EndsLine(s)
    ensures IsBlank(s[0]) ==> EndsLine(s) == EndsLine(s[1..])
  {
  }
  // ----- words --------------------------------------------------------------------------------

  /** What may stand behind a word: an end, a blank, a comment or punctuation. */
  predicate EndsWord(more: string, dot: bool) {
    more == "" || IsBlank(more[0]) || more[0] in {'\n', '#', ',', '=', '[', ']', '{', '}'} || (dot && more[0] == '.')
  }

  /** Spaces, and then something that cannot stand in a timestamp. */
  predicate EndsStamp(more: string) {
    more != "" && if more[0] == ' ' then EndsStamp(more[1..]) else !IsTimestampChar(more[0])
  }

  /** A date or a time comes first. */
  predicate LooksTimed(s: string) {
    '\0' !in s && (IsDate(s, 0) || IsTime(s, 0))
  }

  predicate IsWord(w: Word, dot: bool) {
    match w
    case Literal(s) =>
      s != "" && !LooksTimed(s) && forall i :: 0 <= i < |s| ==> IsLiteralChar(s[i]) && !(dot && s[i] == '.')
    case Stamp(s) => LooksTimed(s) && s[|s| - 1] != ' ' && forall i :: 0 <= i < |s| ==> IsTimestampChar(s[i])
    case Single(s) => '\'' !in s && '\n' !in s && '\0' !in s
    case Basic(ps) => AllWellFormed(ps)
    case TripleSingle(s) => '\0' !in s && forall i :: 0 <= i < |s| ==> !Triple(s + "'''", i, '\'')
    case TripleBasic(ps) => AllParts(ps) && StopsAtThree(ps + [Char('\"'), Char('\"'), Char('\"')], 0)
  }

  function WordText(w: Word): string {
    match w
    case Literal(s) => s
    case Stamp(s) => s
    case Single(s) => "'" + s + "'"
    case Basic(ps) => "\"" + Sources(ps) + "\""
    case TripleSingle(s) => "'''" + s + "'''"
    case TripleBasic(ps) => "\"\"\"" + PartsText(ps) + "\"\"\""
  }

  predicate Follows(w: Word, more: string, dot: bool) {
    if w.Stamp? then EndsStamp(more) else EndsWord(more, dot)
  }

  lemma {:induction false} LiteralRuns(text: CString, p: nat, n: nat, dot: bool)
    requires p + n <= |text|
    requires forall i :: p <= i < p + n ==> IsLiteralChar(text[i]) && !(text[i] == '.' && dot)
    requires p + n < |text| ==> !IsLiteralChar(text[p + n]) || (text[p + n] == '.' && dot)
    ensures LiteralLoop(text, p, dot) == p + n
    decreases n
  {
    hide IsLiteralChar;
    if n > 0 {
      LiteralRuns(text, p + 1, n - 1, dot);
    }
  }

  /** The ten characters of a date, or the eight of a time, are those of a word in front of its end. */
  lemma TimedThere(text: CString, p: nat, s: CString, more: string)
    requires p <= |text| && text[p..] == s + more
    requires more != "" ==> !IsDigit(more[0]) && more[0] != '-' && more[0] != ':'
    ensures (IsDate(text, p) || IsTime(text, p)) <==> (IsDate(s, 0) || IsTime(s, 0))
  {
    Standing(text, p, s, more);
    assert |text| > p + |s| ==> text[p + |s|] == text[p..][|s|] == more[0];
    SameDate(text, p, s);
    SameTime(text, p, s);
  }

  lemma SameDate(text: CString, p: nat, s: CString)
    requires p + |s| <= |text| && forall i :: p <= i < p + |s| ==> text[i] == s[i - p]
    requires p + |s| < |text| ==> !IsDigit(text[p + |s|]) && text[p + |s|] != '-'
    ensures IsDate(text, p) == IsDate(s, 0)
  {
    if IsDate(text, p) {
      assert forall i :: p <= i < p + 10 ==> IsDigit(text[i]) || text[i] == '-';
      assert |s| >= 10;
      assert forall i :: 0 <= i < 10 ==> s[i] == text[p + i];
    }
  }

  lemma SameTime(text: CString, p: nat, s: CString)
    requires p + |s| <= |text| && forall i :: p <= i < p + |s| ==> text[i] == s[i - p]
    requires p + |s| < |text| ==> !IsDigit(text[p + |s|]) && text[p + |s|] != ':'
    ensures IsTime(text, p) == IsTime(s, 0)
  {
    if IsTime(text, p) {
      assert forall i :: p <= i < p + 8 ==> IsDigit(text[i]) || text[i] == ':';
      assert |s| >= 8;
      assert forall i :: 0 <= i < 8 ==> s[i] == text[p + i];
    }
  }

  lemma LiteralEnds(text: CString, p: nat, s: string, more: string, dot: bool)
    requires p <= |text| && IsWord(Literal(s), dot) && EndsWord(more, dot) && text[p..] == s + more
    ensures p < |text| && ScanEnd(text, p, dot) == Ok(p + |s|)
  {
    hide IsDate, IsTime;
    Standing(text, p, s, more);
    assert more != "" ==> text[p + |s|] == text[p..][|s|] == more[0];
    NoNul(s);
    TimedThere(text, p, s, more);
    LiteralRuns(text, p, |s|, dot);
  }

  lemma NoNul(s: string)
    requires forall i :: 0 <= i < |s| ==> IsLiteralChar(s[i])
    ensures '\0' !in s
  {
  }

  /** An unquoted date or time goes on as far as its characters do, without the spaces at its end. */
  lemma StampEnds(text: CString, p: nat, s: string, more: string, dot: bool)
    requires p <= |text| && IsWord(Stamp(s), dot) && EndsStamp(more) && text[p..] == s + more
    ensures p < |text| && ScanEnd(text, p, dot) == Ok(p + |s|)
  {
    hide IsTimestampChar;
    Standing(text, p, s, more);
    assert s[0] == text[p];
    TimedStays(text, p, s);
    assert text[p + |s|..] == more;
    var q := StampRuns(text, p, |s|);
    SpacesGo(text, p, p + |s|, q);
  }

  lemma TimedStays(text: CString, p: nat, s: CString)
    requires p + |s| <= |text| && (forall i :: p <= i < p + |s| ==> text[i] == s[i - p]) && LooksTimed(s)
    ensures IsDate(text, p) || IsTime(text, p)
    ensures s != "" && IsDigit(s[0])
  {
    assert IsDate(s, 0) ==> forall i :: 0 <= i < 10 ==> text[p + i] == s[i];
    assert IsTime(s, 0) ==> forall i :: 0 <= i < 8 ==> text[p + i] == s[i];
  }

  lemma {:induction false} StampRuns(text: CString, p: nat, n: nat) returns (q: nat)
    requires p + n <= |text| && EndsStamp(text[p + n..]) && forall i :: p <= i < p + n ==> IsTimestampChar(text[i])
    ensures p + n <= q < |text| && TimestampLoop(text, p) == q && forall i :: p + n <= i < q ==> text[i] == ' '
    decreases |text| - p
  {
    if n > 0 {
      q := StampRuns(text, p + 1, n - 1);
    } else {
      assert text[p..][0] == text[p] && text[p..][1..] == text[p + 1..];
      if text[p] == ' ' {
        q := StampRuns(text, p + 1, 0);
      } else {
        q := p;
      }
    }
  }

  lemma {:induction false} SpacesGo(text: CString, p: nat, e: nat, q: nat)
    requires p < e <= q <= |text| && text[e - 1] != ' ' && forall i :: e <= i < q ==> text[i] == ' '
    ensures SqueezeLoop(text, p, q) == e
  {
    if q > e {
      SpacesGo(text, p, e, q - 1);
    }
  }

  /** What the squeezed run of timestamp characters is in any text. */
  lemma StampIsTrimmedRun(text: CString, p: nat)
    requires p <= |text|
    ensures var q := TimestampLoop(text, p);
            var e := SqueezeLoop(text, p, q);
            (forall i :: p <= i < q ==> IsTimestampChar(text[i])) && (q < |text| ==> !IsTimestampChar(text[q])) &&
            (forall i :: e <= i < q ==> text[i] == ' ') && (e > p ==> text[e - 1] != ' ')
  {
    hide IsTimestampChar;
    RunIsLongest(text, p);
    SqueezeIsAll(text, p, TimestampLoop(text, p));
  }

  lemma {:induction false} RunIsLongest(text: CString, p: nat)
    requires p <= |text|
    ensures var q := TimestampLoop(text, p);
            (forall i :: p <= i < q ==> IsTimestampChar(text[i])) && (q < |text| ==> !IsTimestampChar(text[q]))
    decreases |text| - p
  {
    hide IsTimestampChar;
    if p < |text| && IsTimestampChar(text[p]) {
      RunIsLongest(text, p + 1);
    }
  }

  lemma {:induction false} SqueezeIsAll(text: CString, p: nat, q: nat)
    requires p <= q <= |text|
    ensures var e := SqueezeLoop(text, p, q);
            (forall i :: e <= i < q ==> text[i] == ' ') && (e > p ==> text[e - 1] != ' ')
    decreases q
  {
    if q > p && text[q - 1] == ' ' {
      SqueezeIsAll(text, p, q - 1);
    }
  }

  lemma {:induction false} SingleRuns(text: CString, p: nat, n: nat)
    requires p + n < |text| && text[p + n] == '\'' && forall i :: p <= i < p + n ==> text[i] != '\'' && text[i] != '\n'
    ensures SingleLoop(text, p) == p + n
    decreases n
  {
    if n > 0 {
      SingleRuns(text, p + 1, n - 1);
    }
  }

  lemma SingleEnds(text: CString, p: nat, s: string, more: string, dot: bool)
    requires p <= |text| && IsWord(Single(s), dot) && EndsWord(more, dot) && text[p..] == WordText(Single(s)) + more
    ensures p < |text| && ScanEnd(text, p, dot) == Ok(p + |WordText(Single(s))|)
  {
    var w := WordText(Single(s));
    Standing(text, p, w, more);
    assert |w| == |s| + 2 && w[0] == '\'' && w[|s| + 1] == '\'' && forall i :: 1 <= i <= |s| ==> w[i] == s[i - 1];
    assert more != "" ==> text[p + |w|] == text[p..][|w|] == more[0];
    assert forall i :: p + 1 <= i < p + 1 + |s| ==> text[i] == s[i - p - 1];
    SingleRuns(text, p + 1, |s|);
  }

  lemma BasicEnds(text: CString, p: nat, ps: seq<Piece>, more: string, dot: bool)
    requires p <= |text| && IsWord(Basic(ps), dot) && EndsWord(more, dot) && text[p..] == WordText(Basic(ps)) + more
    ensures p < |text| && ScanEnd(text, p, dot) == Ok(p + |WordText(Basic(ps))|)
  {
    hide BasicLoop, Sources;
    var w, n := WordText(Basic(ps)), |Sources(ps)|;
    Standing(text, p, w, more);
    assert w[0] == '\"' && w[n + 1] == '\"' && text[p + n + 1] == '\"';
    assert more != "" ==> text[p + |w|] == text[p..][|w|] == more[0];
    assert text[p + 1..] == text[p..][1..] == Sources(ps) + "\"" + more;
    PiecesAreScanned(text, p + 1, ps, more);
    SourcesHead(ps);
    assert n > 0 ==> text[p + 1] == w[1] == Sources(ps)[0];
  }

  lemma SourcesHead(ps: seq<Piece>)
    requires AllWellFormed(ps)
    ensures Sources(ps) != "" ==> Sources(ps)[0] != '\"'
  {
    if ps != [] {
      assert Sources(ps)[0] == Source(ps[0])[0];
    }
  }

  lemma {:induction false} FirstTriple(text: CString, p: nat, n: nat)
    requires p + n <= |text| && Triple(text, p + n, '\'') && forall i :: p <= i < p + n ==> !Triple(text, i, '\'')
    ensures FindTriple(text, p) == Some(p + n)
    decreases n
  {
    if n > 0 {
      FirstTriple(text, p + 1, n - 1);
    }
  }

  lemma TripleSingleEnds(text: CString, p: nat, s: string, more: string, dot: bool)
    requires p <= |text| && IsWord(TripleSingle(s), dot) && text[p..] == WordText(TripleSingle(s)) + more
    ensures p < |text| && ScanEnd(text, p, dot) == Ok(p + |WordText(TripleSingle(s))|)
  {
    var w, n := WordText(TripleSingle(s)), |s|;
    Standing(text, p, w, more);
    assert w[0] == '\'' && w[1] == '\'' && w[2] == '\'';
    var body := s + "'''";
    assert forall i :: 0 <= i < |body| ==> w[3 + i] == body[i];
    assert forall i :: 0 <= i < |body| ==> text[p + 3 + i] == body[i];
    forall i | p + 3 <= i < p + 3 + n ensures !Triple(text, i, '\'') {
      assert !Triple(body, i - p - 3, '\'');
    }
    assert body[n] == '\'' && body[n + 1] == '\'' && body[n + 2] == '\'';
    FirstTriple(text, p + 3, n);
  }

  lemma TripleBasicEnds(text: CString, p: nat, ps: seq<Part>, more: string, dot: bool)
    requires p <= |text| && IsWord(TripleBasic(ps), dot) && text[p..] == WordText(TripleBasic(ps)) + more
    ensures p < |text| && ScanEnd(text, p, dot) == Ok(p + |WordText(TripleBasic(ps))|)
  {
    hide TripleLoop, StopsAtThree, PartsText;
    var w, all := WordText(TripleBasic(ps)), ps + [Char('\"'), Char('\"'), Char('\"')];
    Standing(text, p, w, more);
    assert w[0] == '\"' && w[1] == '\"' && w[2] == '\"';
    WithQuotes(ps);
    assert text[p + 3..] == text[p..][3..] == PartsText(all) + more;
    TripleIsScanned(text, p + 3, all, 0, more);
  }

  lemma {:induction false} WithQuotes(ps: seq<Part>)
    ensures PartsText(ps + [Char('\"'), Char('\"'), Char('\"')]) == PartsText(ps) + "\"\"\""
  {
    hide PartText;
    var quotes := [Char('\"'), Char('\"'), Char('\"')];
    if ps == [] {
      assert ps + quotes == quotes && quotes[1..] == [Char('\"'), Char('\"')];
      assert quotes[1..][1..] == [Char('\"')] && quotes[1..][1..][1..] == [];
      assert PartText(Char('\"')) == "\"" by {
        QuotePart();
      }
      assert PartsText(quotes) == "\"" + ("\"" + ("\"" + ""));
    } else {
      assert (ps + quotes)[0] == ps[0] && (ps + quotes)[1..] == ps[1..] + quotes;
      WithQuotes(ps[1..]);
    }
  }

  lemma QuotePart()
    ensures PartText(Char('\"')) == "\""
  {
  }

  /** Every word ends where it should. */
  lemma WordEnds(text: CString, p: nat, w: Word, more: string, dot: bool)
    requires p <= |text| && IsWord(w, dot) && Follows(w, more, dot) && text[p..] == WordText(w) + more
    ensures p < |text| && ScanEnd(text, p, dot) == Ok(p + |WordText(w)|)
  {
    hide ScanEnd, IsWord, EndsWord, EndsStamp;
    match w
    case Literal(s) => LiteralEnds(text, p, s, more, dot);
    case Stamp(s) => StampEnds(text, p, s, more, dot);
    case Single(s) => SingleEnds(text, p, s, more, dot);
    case Basic(ps) => BasicEnds(text, p, ps, more, dot);
    case TripleSingle(s) => TripleSingleEnds(text, p, s, more, dot);
    case TripleBasic(ps) => TripleBasicEnds(text, p, ps, more, dot);
  }
  // ----- keys ---------------------------------------------------------------------------------

  lemma {:induction false} UpToNulIs(a: string, b: string)
    requires '\0' !in a
    ensures UpToNul(a) == a && UpToNul(a + "\0" + b) == a
  {
    var s := a + "\0" + b;
    if a != "" {
      assert s[0] == a[0] && s[1..] == a[1..] + "\0" + b;
      UpToNulIs(a[1..], b);
      assert [a[0]] + a[1..] == a;
    } else {
      assert s[0] == '\0';
    }
  }

  /** A key ends at its first NUL, and must not hold a line end before it. */
  function KeyOrBad(s: string): Parsed<string> {
    if '\n' in UpToNul(s) then Err(BadKey) else Ok(UpToNul(s))
  }

  predicate IsBareKey(s: string) {
    forall i :: 0 <= i < |s| ==> IsBareKeyChar(s[i])
  }

  /** What a word is as a key. */
  function KeyOf(w: Word, dot: bool): Parsed<string>
    requires IsWord(w, dot)
  {
    match w
    case Literal(s) => if IsBareKey(s) then Ok(s) else Err(BadKey)
    case Stamp(s) => if IsBareKey(s) then Ok(s) else Err(BadKey)
    case Single(s) => Ok(s)
    case Basic(ps) => if AllExpressible(ps) then KeyOrBad(Values(ps)) else Err(BadString)
    case TripleSingle(s) => if '\n' in s then Err(BadKey) else Ok(s)
    case TripleBasic(ps) => if AllCanExpress(ps) then KeyOrBad(Meant(ps, false)) else Err(BadString)
  }

  /** normalize_key on every word. */
  lemma KeyIsNormalised(text: CString, tok: Token, w: Word, dot: bool)
    requires Inside(text, tok) && IsWord(w, dot) && text[tok.ptr..tok.End()] == WordText(w)
    ensures NormalizeKey(text, tok) == KeyOf(w, dot)
  {
    hide Norm, Sources, Values, PartsText, Meant, AllExpressible, AllCanExpress, UpToNul, StopsAtThree, NormalizeKey;
    match w
    case Literal(s) =>
      NotQuoted(s);
      PlainKey(text, tok, s);
    case Stamp(s) =>
      NotQuoted(s);
      PlainKey(text, tok, s);
    case Single(key) =>
      UpToNulIs(key, "");
      assert key != "" ==> WordText(w)[1] == key[0];
      QuotedKey(text, tok, '\'', key, false);
    case Basic(ps) =>
      SourcesHead(ps);
      assert Sources(ps) != "" ==> WordText(w)[1] == Sources(ps)[0];
      NormOfPieces(ps);
      QuotedKey(text, tok, '\"', Sources(ps), false);
    case TripleSingle(key) =>
      UpToNulIs(key, "");
      QuotedKey(text, tok, '\'', key, true);
    case TripleBasic(ps) =>
      NormOfParts(ps);
      QuotedKey(text, tok, '\"', PartsText(ps), true);
  }

  lemma PlainKey(text: CString, tok: Token, s: string)
    requires Inside(text, tok) && text[tok.ptr..tok.End()] == s && s != "" && s[0] != '\'' && s[0] != '\"'
    ensures NormalizeKey(text, tok) == if IsBareKey(s) then Ok(s) else Err(BadKey)
  {
    hide Norm, UpToNul;
  }

  /** One quote or three on both sides of the body. */
  lemma QuotedKey(text: CString, tok: Token, quote: char, body: string, triple: bool)
    requires Inside(text, tok) && (quote == '\'' || quote == '\"') && (!triple && body != "" ==> body[0] != quote)
    requires var q := if triple then [quote, quote, quote] else [quote]; text[tok.ptr..tok.End()] == q + body + q
    ensures var key := if quote == '\'' then Some(body) else Norm(body, triple);
            NormalizeKey(text, tok) == if key.None? then Err(BadString) else KeyOrBad(key.value)
  {
    hide Norm, UpToNul;
    var s := text[tok.ptr..tok.End()];
    assert s[0] == quote;
    if triple {
      assert s[3..|s| - 3] == body && s[1] == quote && s[2] == quote;
    } else {
      assert s[1..|s| - 1] == body;
      assert body != "" ==> s[1] == body[0];
    }
  }

  lemma NotQuoted(s: string)
    requires s != "" && (IsLiteralChar(s[0]) || IsTimestampChar(s[0]))
    ensures s[0] != '\'' && s[0] != '\"'
  {
  }

  // ----- line ends ----------------------------------------------------------------------------

  /** skip_newlines goes over line ends only, to the first token that is none, or the end of the text. */
  lemma {:induction false} SkipsNewlines(text: CString, tok: Token, dot: bool) returns (toks: seq<Token>)
    requires Inside(text, tok) && SkipNewlines(text, tok, dot).Ok?
    ensures toks != [] && toks[0] == tok && toks[|toks| - 1] == SkipNewlines(text, tok, dot).value
    ensures forall i :: 0 <= i < |toks| - 1 ==>
              toks[i].kind == Newline && Inside(text, toks[i]) && Next(text, toks[i], dot) == Ok(toks[i + 1])
    ensures toks[|toks| - 1].kind != Newline || toks[|toks| - 1].eof
    decreases |text| - tok.ptr, if tok.kind == Newline && tok.len == 0 then 1 else 0
  {
    hide Next;
    if tok.kind != Newline {
      toks := [tok];
    } else {
      var t := Next(text, tok, dot).value;
      if t.eof || t.kind != Newline {
        toks := [tok, t];
      } else {
        var more := SkipsNewlines(text, t, dot);
        toks := [tok] + more;
      }
    }
  }
}
