/** norm_basic_str of sresar/toml.c, and how it agrees with the scanner of basic strings. */
module CTomlNorm {
  import opened Wrappers
  import opened CTomlUtf8
  import opened CTomlScan

  /** Characters that a basic string may not hold as they are. */
  predicate IsControl(c: char) {
    c as int <= 0x08 || 0x0a <= c as int <= 0x1f || c as int == 0x7f
  }

  function HexDigitValue(c: char): (v: nat)
    requires IsUpperHex(c)
    ensures v < 16
  {
    if IsDigit(c) then (c - '0') as nat else (c - 'A') as nat + 10
  }

  predicate AllUpperHex(s: string) {
    forall i :: 0 <= i < |s| ==> IsUpperHex(s[i])
  }

  /** The code of hexadecimal digits, behind `acc`. */
  function HexCode(s: string, acc: nat): nat
    requires AllUpperHex(s)
  {
    if s == "" then acc else HexCode(s[1..], 16 * acc + HexDigitValue(s[0]))
  }

  /** Digits weigh sixteen times as much as those behind them. */
  lemma {:induction false} HexCodeSnoc(s: string, c: char, acc: nat)
    requires AllUpperHex(s) && IsUpperHex(c)
    ensures AllUpperHex(s + [c]) && HexCode(s + [c], acc) == 16 * HexCode(s, acc) + HexDigitValue(c)
    decreases |s|
  {
    var t := s + [c];
    if s == "" {
      assert t[1..] == "";
    } else {
      assert t[0] == s[0] && t[1..] == s[1..] + [c];
      HexCodeSnoc(s[1..], c, 16 * acc + HexDigitValue(s[0]));
    }
  }

  /** The character a one-letter escape stands for. */
  function Unescaped(c: char): char {
    match c
    case 'b' => '\U{08}'
    case 't' => '\t'
    case 'n' => '\n'
    case 'f' => '\U{0C}'
    case 'r' => '\r'
    case _ => c
  }

  function Prepend(a: string, r: Option<string>): Option<string> {
    match r
    case None => None
    case Some(b) => Some(a + b)
  }

  /** strspn of white space, with newlines if `lines`. */
  function SpanBlank(s: string, lines: bool): (n: nat)
    ensures n <= |s|
  {
    if s != "" && (IsBlank(s[0]) || (lines && s[0] == '\n')) then 1 + SpanBlank(s[1..], lines) else 0
  }

  /** Only white space between a backslash and its line end. */
  predicate EndsLine(s: string) {
    SpanBlank(s, false) < |s| && s[SpanBlank(s, false)] == '\n'
  }

  /** norm_basic_str: the text without escapes, before its NUL; `None` for its errors. */
  function Norm(s: string, multiline: bool): Option<string>
    decreases |s|
  {
    if s == "" then Some("")
    else if s[0] != '\\' then
      if IsControl(s[0]) && !(multiline && (s[0] == '\r' || s[0] == '\n')) then None
      else Prepend([s[0]], Norm(s[1..], multiline))
    else if |s| == 1 then None
    else if multiline && EndsLine(s[1..]) then Norm(s[1..][SpanBlank(s[1..], true)..], multiline)
    else if s[1] == 'u' || s[1] == 'U' then
      var n := if s[1] == 'u' then 4 else 8;
      if |s| < 2 + n || !AllUpperHex(s[2..2 + n]) then None
      else
        match Encode(HexCode(s[2..2 + n], 0))
        case None => None
        case Some(octets) => Prepend(octets, Norm(s[2 + n..], multiline))
    else if IsSimpleEscape(s[1]) then Prepend([Unescaped(s[1])], Norm(s[2..], multiline))
    else None
  }

  // ----- the loop over a growing buffer -------------------------------------------------------

  /** The digits after \u or \U; the position behind them. */
  method ReadHex(src: string, from: nat, nhex: nat) returns (code: Option<nat>, sp: nat)
    requires from <= |src|
    ensures if |src| < from + nhex || !AllUpperHex(src[from..from + nhex]) then code == None
            else code == Some(HexCode(src[from..from + nhex], 0)) && sp == from + nhex
  {
    sp := from;
    var ucs: nat := 0;
    var i := 0;
    while i < nhex
      invariant 0 <= i <= nhex && sp == from + i <= |src| && AllUpperHex(src[from..sp])
      invariant from + nhex <= |src| && AllUpperHex(src[from..from + nhex]) ==>
                  HexCode(src[sp..from + nhex], ucs) == HexCode(src[from..from + nhex], 0)
    {
      if sp >= |src| || !IsUpperHex(src[sp]) {
        assert from + nhex <= |src| ==> src[from..from + nhex][i] == src[sp];
        return None, sp;
      }
      assert from + nhex <= |src| ==> src[sp..from + nhex][1..] == src[sp + 1..from + nhex];
      assert src[from..sp + 1] == src[from..sp] + [src[sp]];
      ucs := 16 * ucs + HexDigitValue(src[sp]);
      sp := sp + 1;
      i := i + 1;
    }
    code := Some(ucs);
  }

  /** realloc() of `dst` to `max` characters, of which the first `off` are in use. */
  method Grow(dst: array<char>, off: nat, max: nat) returns (x: array<char>)
    requires off <= dst.Length && off <= max
    ensures fresh(x) && x.Length == max && x[..off] == dst[..off]
  {
    x := new char[max];
    forall i | 0 <= i < off {
      x[i] := dst[i];
    }
  }

  /** One round of the loop, which writes at most six characters: what it adds to `dst`, or its failure. */
  method NormStep(src: string, from: nat, multiline: bool, dst: array<char>, off: nat)
    returns (ok: bool, sp: nat, end: nat, ghost chunk: string)
    requires from < |src| && off + 6 <= dst.Length
    modifies dst
    ensures !ok ==> Norm(src[from..], multiline) == None
    ensures ok ==> from < sp <= |src| && end == off + |chunk| <= off + 6
    ensures ok ==> Norm(src[from..], multiline) == Prepend(chunk, Norm(src[sp..], multiline))
    ensures ok ==> dst[..end] == old(dst[..off]) + chunk
  {
    hide Norm, Encode, EndsLine, HexCode, SpanBlank;
    ghost var rest, done := src[from..], dst[..off];
    var ch := src[from];
    assert rest[0] == ch && rest[1..] == src[from + 1..];
    NormRound(rest, multiline);
    ok, sp, end, chunk := false, from + 1, off, "";
    if ch != '\\' {
      if IsControl(ch) && !(multiline && (ch == '\r' || ch == '\n')) {
        return;
      }
      dst[off] := ch;
      ok, end, chunk := true, off + 1, [ch];
      return;
    }
    if sp >= |src| {
      assert rest == "\\";
      return;
    }
    if multiline && EndsLine(src[sp..]) {
      var blanks := SpanBlank(src[sp..], true);
      assert src[sp..][blanks..] == src[sp + blanks..];
      sp := sp + blanks;
      PrependNothing(Norm(src[sp..], multiline));
      ok := true;
      return;
    }
    ch := src[sp];
    assert rest[1] == ch && rest[2..] == src[sp + 1..];
    sp := sp + 1;
    if ch == 'u' || ch == 'U' {
      ok, sp, end, chunk := CodeStep(src, sp, if ch == 'u' then 4 else 8, multiline, dst, off);
      assert src[from..] == rest;
      assert NormCode(rest, if ch == 'u' then 4 else 8, multiline) == Norm(rest, multiline);
      return;
    }
    if !IsSimpleEscape(ch) {
      return;
    }
    dst[off] := Unescaped(ch);
    ok, end, chunk := true, off + 1, [Unescaped(ch)];
  }

  /** \u or \U with its digits, from behind the letter on. */
  method CodeStep(src: string, from: nat, nhex: nat, multiline: bool, dst: array<char>, off: nat)
    returns (ok: bool, sp: nat, end: nat, ghost chunk: string)
    requires 2 <= from <= |src| && off + 6 <= dst.Length
    modifies dst
    ensures !ok ==> NormCode(src[from - 2..], nhex, multiline) == None
    ensures ok ==> from <= sp <= |src| && end == off + |chunk| <= off + 6
    ensures ok ==> NormCode(src[from - 2..], nhex, multiline) == Prepend(chunk, Norm(src[sp..], multiline))
    ensures ok ==> dst[..end] == old(dst[..off]) + chunk
  {
    hide Norm, Encode, HexCode;
    ghost var rest := src[from - 2..];
    assert from + nhex <= |src| ==>
      rest[2..2 + nhex] == src[from..from + nhex] && rest[2 + nhex..] == src[from + nhex..];
    ok, end, chunk := false, off, "";
    var code, next := ReadHex(src, from, nhex);
    sp := next;
    if code.None? {
      return;
    }
    var n := UcsToUtf8(code.value, dst, off);
    if n == -1 {
      return;
    }
    chunk := Encode(code.value).value;
    ok, end := true, off + n;
    assert dst[..end] == dst[..off] + dst[off..end];
  }

  /** norm_basic_str with its writes to `dst`, which keeps some slack: ten characters before each round. */
  method NormBasicStr(src: string, multiline: bool) returns (ok: bool, dst: array<char>, off: nat)
    ensures ok == Norm(src, multiline).Some?
    ensures ok ==> off < dst.Length && dst[..off] == Norm(src, multiline).value && dst[off] == '\0'
  {
    hide Norm;
    dst := new char[0];
    off := 0;
    var max, sp := 0, 0;
    assert dst[..0] == "" && src[0..] == src;
    PrependNothing(Norm(src, multiline));
    while true
      invariant sp <= |src| && fresh(dst)
      invariant dst.Length == max && (off + 4 <= max || off == max == 0)
      invariant Prepend(dst[..off], Norm(src[sp..], multiline)) == Norm(src, multiline)
      decreases |src| - sp
    {
      if off >= max - 10 {
        max := max + 50;
        dst := Grow(dst, off, max);
      }
      if sp >= |src| {
        break;
      }
      ghost var done := dst[..off];
      var good, next, end, chunk := NormStep(src, sp, multiline, dst, off);
      if !good {
        return false, dst, off;
      }
      PrependTwo(done, chunk, Norm(src[next..], multiline));
      sp, off := next, end;
    }
    assert src[sp..] == "";
    NormRound("", multiline);
    assert dst[..off] + "" == dst[..off];
    dst[off] := '\0';
    ok := true;
  }

  lemma PrependNothing(r: Option<string>)
    ensures Prepend("", r) == r
  {
    match r
    case None =>
    case Some(b) => assert "" + b == b;
  }

  lemma PrependTwo(a: string, b: string, r: Option<string>)
    ensures Prepend(a, Prepend(b, r)) == Prepend(a + b, r)
  {
    match r
    case None =>
    case Some(c) => assert a + (b + c) == a + b + c;
  }

  /** One round of the loop. */
  lemma NormRound(s: string, multiline: bool)
    ensures s == "" ==> Norm(s, multiline) == Some("")
    ensures s != "" && s[0] != '\\' ==>
              Norm(s, multiline) == if IsControl(s[0]) && !(multiline && (s[0] == '\r' || s[0] == '\n')) then None
                                    else Prepend([s[0]], Norm(s[1..], multiline))
    ensures s == "\\" ==> Norm(s, multiline) == None
    ensures |s| > 1 && s[0] == '\\' ==>
              Norm(s, multiline)
                == if multiline && EndsLine(s[1..]) then Norm(s[1..][SpanBlank(s[1..], true)..], multiline)
                   else if s[1] == 'u' || s[1] == 'U' then NormCode(s, if s[1] == 'u' then 4 else 8, multiline)
                   else if IsSimpleEscape(s[1]) then Prepend([Unescaped(s[1])], Norm(s[2..], multiline))
                   else None
  {
    hide EndsLine, Encode, HexCode, Prepend;
  }

  function NormCode(s: string, n: nat, multiline: bool): Option<string> {
    if |s| < 2 + n || !AllUpperHex(s[2..2 + n]) then None
    else
      match Encode(HexCode(s[2..2 + n], 0))
      case None => None
      case Some(octets) => Prepend(octets, Norm(s[2 + n..], multiline))
  }

  // ----- the pieces of a single-line basic string ---------------------------------------------

  datatype Piece =
    | Plain(c: char)
    | Escape(c: char)
    | Code(hex: string)

  /** What the scanner lets through. */
  predicate WellFormed(p: Piece) {
    match p
    case Plain(c) => c != '\"' && c != '\\' && c != '\n' && c != '\0'
    case Escape(c) => IsSimpleEscape(c)
    case Code(hex) => (|hex| == 4 || |hex| == 8) && AllUpperHex(hex)
  }

  function Source(p: Piece): (s: string)
    ensures s != ""
  {
    match p
    case Plain(c) => [c]
    case Escape(c) => ['\\', c]
    case Code(hex) => ['\\', if |hex| == 4 then 'u' else 'U'] + hex
  }

  /** No raw control character, and only codes that have an encoding. */
  predicate Expressible(p: Piece)
    requires WellFormed(p)
  {
    match p
    case Plain(c) => !IsControl(c)
    case Escape(_) => true
    case Code(hex) => Legal(HexCode(hex, 0))
  }

  /** What a piece stands for. */
  function Value(p: Piece): string
    requires WellFormed(p) && Expressible(p)
  {
    match p
    case Plain(c) => [c]
    case Escape(c) => [Unescaped(c)]
    case Code(hex) => Encode(HexCode(hex, 0)).value
  }

  predicate AllWellFormed(ps: seq<Piece>) {
    forall i :: 0 <= i < |ps| ==> WellFormed(ps[i])
  }

  predicate AllExpressible(ps: seq<Piece>)
    requires AllWellFormed(ps)
  {
    forall i :: 0 <= i < |ps| ==> Expressible(ps[i])
  }

  function Sources(ps: seq<Piece>): string {
    if ps == [] then "" else Source(ps[0]) + Sources(ps[1..])
  }

  function Values(ps: seq<Piece>): string
    requires AllWellFormed(ps) && AllExpressible(ps)
  {
    if ps == [] then "" else Value(ps[0]) + Values(ps[1..])
  }

  /** The body of an accepted string is a sequence of well-formed pieces. */
  lemma {:induction false} ScannedBodyHasPieces(text: CString, p: nat, q: nat) returns (ps: seq<Piece>)
    requires p <= q < |text| && BasicLoop(text, p, false, 0) == Ok(q) && text[q] == '\"'
    ensures AllWellFormed(ps) && Sources(ps) == text[p..q]
    decreases |text| - p
  {
    hide BasicLoop, Source;
    if p == q {
      ps := [];
      assert text[p..q] == "";
    } else {
      var piece, n := FirstPiece(text, p, q);
      var rest := ScannedBodyHasPieces(text, p + n, q);
      ps := [piece] + rest;
      assert text[p..q] == text[p..p + n] + text[p + n..q];
      assert ps[1..] == rest;
    }
  }

  lemma FirstPiece(text: CString, p: nat, q: nat) returns (piece: Piece, n: nat)
    requires p < q < |text| && BasicLoop(text, p, false, 0) == Ok(q) && text[q] == '\"'
    ensures n > 0 && p + n <= q && WellFormed(piece) && Source(piece) == text[p..p + n]
    ensures BasicLoop(text, p + n, false, 0) == Ok(q)
  {
    var c := text[p];
    if c == '\\' {
      assert BasicLoop(text, p + 1, true, 0) == Ok(q);
      EscapeIsKnown(text, p + 1, q);
      var e := text[p + 1];
      if e == 'u' || e == 'U' {
        var k := if e == 'u' then 4 else 8;
        assert BasicLoop(text, p + 2, false, k) == Ok(q);
        HexRun(text, p + 2, k, q);
        piece, n := Code(text[p + 2..p + 2 + k]), 2 + k;
        assert text[p..p + n] == ['\\', e] + text[p + 2..p + 2 + k];
      } else {
        assert BasicLoop(text, p + 2, false, 0) == Ok(q);
        piece, n := Escape(e), 2;
        assert text[p..p + 2] == ['\\', e];
      }
    } else {
      assert BasicLoop(text, p + 1, false, 0) == Ok(q);
      piece, n := Plain(c), 1;
      assert text[p..p + 1] == [c];
    }
  }

  lemma EscapeIsKnown(text: CString, p: nat, q: nat)
    requires p <= |text| && q < |text| && BasicLoop(text, p, true, 0) == Ok(q)
    ensures p < |text| && (IsSimpleEscape(text[p]) || text[p] == 'u' || text[p] == 'U')
  {
  }

  /** The digits the scanner demands are there. */
  lemma {:induction false} HexRun(text: CString, p: nat, k: nat, q: nat)
    requires p <= |text| && q < |text| && BasicLoop(text, p, false, k) == Ok(q)
    ensures p + k <= q && AllUpperHex(text[p..p + k]) && BasicLoop(text, p + k, false, 0) == Ok(q)
    decreases k
  {
    if k > 0 {
      HexRun(text, p + 1, k - 1, q);
      assert text[p..p + k] == [text[p]] + text[p + 1..p + k];
    }
  }

  /** Conversely, the scanner reads any sequence of well-formed pieces up to the quote that follows. */
  lemma {:induction false} PiecesAreScanned(text: CString, p: nat, ps: seq<Piece>, rest: string)
    requires p <= |text| && AllWellFormed(ps) && text[p..] == Sources(ps) + "\"" + rest
    ensures BasicLoop(text, p, false, 0) == Ok(p + |Sources(ps)|)
    decreases |ps|
  {
    hide Source;
    if ps == [] {
      assert text[p] == text[p..][0] == '\"';
    } else {
      var s := Source(ps[0]);
      var more := Sources(ps[1..]) + "\"" + rest;
      assert text[p..] == s + more;
      assert text[p + |s|..] == more;
      OnePieceIsScanned(text, p, ps[0], more);
      PiecesAreScanned(text, p + |s|, ps[1..], rest);
    }
  }

  lemma OnePieceIsScanned(text: CString, p: nat, piece: Piece, more: string)
    requires p <= |text| && WellFormed(piece) && text[p..] == Source(piece) + more
    ensures p + |Source(piece)| <= |text|
    ensures BasicLoop(text, p, false, 0) == BasicLoop(text, p + |Source(piece)|, false, 0)
  {
    assert text[p] == text[p..][0];
    match piece
    case Plain(_) =>
    case Escape(c) =>
      assert text[p + 1] == text[p..][1] == c;
    case Code(hex) =>
      assert text[p + 1] == text[p..][1];
      forall i | p + 2 <= i < p + 2 + |hex| ensures IsUpperHex(text[i]) {
        assert text[i] == text[p..][i - p] == hex[i - p - 2];
      }
      assert BasicLoop(text, p, false, 0) == BasicLoop(text, p + 1, true, 0);
      assert BasicLoop(text, p + 1, true, 0) == BasicLoop(text, p + 2, false, |hex|);
      HexIsScanned(text, p + 2, |hex|);
  }

  lemma {:induction false} HexIsScanned(text: CString, p: nat, k: nat)
    requires p + k <= |text| && forall i :: p <= i < p + k ==> IsUpperHex(text[i])
    ensures BasicLoop(text, p, false, k) == BasicLoop(text, p + k, false, 0)
    decreases k
  {
    if k > 0 {
      HexIsScanned(text, p + 1, k - 1);
    }
  }

  /** The normaliser fails exactly on a piece that is not expressible, and else gives what the pieces stand for. */
  lemma {:induction false} NormOfPieces(ps: seq<Piece>)
    requires AllWellFormed(ps)
    ensures Norm(Sources(ps), false) == if AllExpressible(ps) then Some(Values(ps)) else None
  {
    hide Norm, Source, Value, Expressible;
    if ps == [] {
      NormRound("", false);
    } else {
      NormOfPiece(ps[0], Sources(ps[1..]));
      NormOfPieces(ps[1..]);
      assert AllExpressible(ps) <==> Expressible(ps[0]) && AllExpressible(ps[1..]) by {
        assert ps == [ps[0]] + ps[1..];
      }
    }
  }

  lemma NormOfPiece(p: Piece, rest: string)
    requires WellFormed(p)
    ensures Norm(Source(p) + rest, false)
         == if Expressible(p) then Prepend(Value(p), Norm(rest, false)) else None
  {
    hide Norm, Encode, HexCode;
    var s := Source(p) + rest;
    NormRound(s, false);
    match p
    case Plain(c) =>
      assert s[1..] == rest;
    case Escape(c) =>
      assert s[2..] == rest;
    case Code(hex) =>
      var n := |hex|;
      assert s[2..2 + n] == hex && s[2 + n..] == rest;
  }

  lemma {:induction false} ValuesAreShort(ps: seq<Piece>)
    requires AllWellFormed(ps) && AllExpressible(ps)
    ensures |Values(ps)| <= |Sources(ps)|
  {
    if ps != [] {
      ValuesAreShort(ps[1..]);
      ValueIsShort(ps[0]);
    }
  }

  lemma ValueIsShort(p: Piece)
    requires WellFormed(p) && Expressible(p)
    ensures |Value(p)| <= |Source(p)|
  {
    match p
    case Plain(_) =>
    case Escape(_) =>
    case Code(hex) =>
      if |hex| == 4 {
        FourDigits(hex);
      }
  }

  /** Four digits make at most 0xffff, which takes at most three octets. */
  lemma FourDigits(s: string)
    requires |s| == 4 && AllUpperHex(s)
    ensures HexCode(s, 0) <= 0xffff
  {
    var d0, d1, d2, d3 := HexDigitValue(s[0]), HexDigitValue(s[1]), HexDigitValue(s[2]), HexDigitValue(s[3]);
    var s1, s2, s3 := s[1..], s[2..], s[3..];
    assert s1[1..] == s2 && s2[1..] == s3 && s3[1..] == "";
    assert HexCode(s, 0) == HexCode(s1, d0);
    assert HexCode(s1, d0) == HexCode(s2, 16 * d0 + d1);
    assert HexCode(s2, 16 * d0 + d1) == HexCode(s3, 16 * (16 * d0 + d1) + d2);
    assert HexCode(s3, 16 * (16 * d0 + d1) + d2) == HexCode("", 16 * (16 * (16 * d0 + d1) + d2) + d3);
  }

  predicate NoControl(s: string) {
    forall i :: 0 <= i < |s| ==> !IsControl(s[i])
  }

  /** No piece but a plain one can hold a control character. */
  lemma {:induction false} ControlsArePlain(ps: seq<Piece>)
    requires AllWellFormed(ps)
    ensures NoControl(Sources(ps)) <==> forall i :: 0 <= i < |ps| && ps[i].Plain? ==> Expressible(ps[i])
  {
    if ps != [] {
      ControlsArePlain(ps[1..]);
      var s, rest := Source(ps[0]), Sources(ps[1..]);
      assert NoControl(s) <==> (ps[0].Plain? ==> Expressible(ps[0])) by {
        SourceControl(ps[0]);
      }
      NoControlAppend(s, rest);
      assert forall i :: 0 <= i < |ps| - 1 ==> ps[1..][i] == ps[i + 1];
      assert (forall i :: 0 <= i < |ps| && ps[i].Plain? ==> Expressible(ps[i])) <==>
             ((ps[0].Plain? ==> Expressible(ps[0])) &&
              forall i :: 0 <= i < |ps[1..]| && ps[1..][i].Plain? ==> Expressible(ps[1..][i])) by {
        assert ps == [ps[0]] + ps[1..];
      }
    }
  }

  lemma NoControlAppend(a: string, b: string)
    ensures NoControl(a + b) <==> NoControl(a) && NoControl(b)
  {
    if NoControl(a + b) {
      forall i | 0 <= i < |a| ensures !IsControl(a[i]) {
        assert (a + b)[i] == a[i];
      }
      forall i | 0 <= i < |b| ensures !IsControl(b[i]) {
        assert (a + b)[|a| + i] == b[i];
      }
    }
  }

  lemma SourceControl(p: Piece)
    requires WellFormed(p)
    ensures NoControl(Source(p)) <==> (p.Plain? ==> Expressible(p))
  {
    match p
    case Plain(c) =>
      assert Source(p)[0] == c;
    case Escape(c) =>
    case Code(hex) =>
      assert forall i :: 0 <= i < |hex| ==> IsUpperHex(hex[i]);
  }

  /** For every single-line basic string the scanner accepts: its body is made of pieces, the normaliser
      succeeds exactly when the body has no raw control character and every code can be encoded, the result
      is what the pieces stand for, and it is no longer than the body. */
  lemma AcceptedStringNormalises(text: CString, p: nat, q: nat) returns (ps: seq<Piece>)
    requires p < q < |text| && text[p] == '\"' && text[q] == '\"' && BasicLoop(text, p + 1, false, 0) == Ok(q)
    ensures AllWellFormed(ps) && Sources(ps) == text[p + 1..q]
    ensures Norm(text[p + 1..q], false).Some? <==>
              NoControl(text[p + 1..q]) && forall i :: 0 <= i < |ps| && ps[i].Code? ==> Expressible(ps[i])
    ensures Norm(text[p + 1..q], false).Some? ==>
              AllExpressible(ps) && Norm(text[p + 1..q], false).value == Values(ps) &&
              |Norm(text[p + 1..q], false).value| <= q - p - 1
  {
    hide Norm, Sources, Expressible;
    ps := ScannedBodyHasPieces(text, p + 1, q);
    NormOfPieces(ps);
    ControlsArePlain(ps);
    EscapesAreExpressible(ps);
    if AllExpressible(ps) {
      ValuesAreShort(ps);
    }
  }

  lemma EscapesAreExpressible(ps: seq<Piece>)
    requires AllWellFormed(ps)
    ensures AllExpressible(ps) <==>
              (forall i :: 0 <= i < |ps| && ps[i].Plain? ==> Expressible(ps[i])) &&
              (forall i :: 0 <= i < |ps| && ps[i].Code? ==> Expressible(ps[i]))
  {
  }
}
