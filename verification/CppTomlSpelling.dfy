/** How keys and values may be spelled in a text for ssar/cpptoml.h, other than the writer spells them: literal
    strings, escapes and codes, dotted keys with white space, signs and underscores in numbers. */
module CppTomlSpelling {
  import opened Wrappers
  import opened CppTomlText
  import opened CppTomlWriter
  import opened CppTomlParser
  import opened CppTomlRoundTrip
  import opened CppTomlDocument
  import opened CppTomlNoise
  import opened CppTomlMeaning
  import CTomlUtf8

  // ----- literal strings ----------------------------------------------------------------------

  /** A '...' string is taken as it stands, up to the first quote; without one it does not end. */
  lemma {:induction false} LiteralIsTaken(s: string, tail: string, val: string)
    requires '\'' !in s
    ensures LiteralBody(s + "'" + tail, '\'', val) == Ok((val + s, ConsumeWhitespace(tail)))
    ensures LiteralBody(s, '\'', val) == Err(UnterminatedString)
  {
    hide ConsumeWhitespace, ParseEscapeCode;
    var text := s + "'" + tail;
    if s == "" {
      assert text[0] == '\'' && text[1..] == tail && val + s == val;
    } else {
      assert text[0] == s[0] && text[1..] == s[1..] + "'" + tail && s[0] != '\'';
      LiteralIsTaken(s[1..], tail, val + [s[0]]);
      assert val + [s[0]] + s[1..] == val + s;
    }
  }

  // ----- basic strings ------------------------------------------------------------------------

  datatype Piece = Plain(c: char) | Escape(c: char) | Code(hex: string)

  predicate AllHex(s: string) {
    forall i :: 0 <= i < |s| ==> IsHex(s[i])
  }

  predicate WellFormed(p: Piece) {
    match p
    case Plain(c) => c != '\"' && c != '\\'
    case Escape(c) => c in {'b', 't', 'n', 'f', 'r', '\"', '\\'}
    case Code(hex) => (|hex| == 4 || |hex| == 8) && AllHex(hex)
  }

  function Source(p: Piece): (s: string)
    ensures s != ""
  {
    match p
    case Plain(c) => [c]
    case Escape(c) => ['\\', c]
    case Code(hex) => ['\\', if |hex| == 4 then 'u' else 'U'] + hex
  }

  function HexNumber(s: string, acc: nat): nat
    requires AllHex(s)
  {
    if s == "" then acc else HexNumber(s[1..], 16 * acc + HexValue(s[0]))
  }

  /** A Unicode scalar value. */
  predicate IsScalar(code: nat) {
    code <= 0x10ffff && !(0xd800 <= code <= 0xdfff)
  }

  predicate Expressible(p: Piece)
    requires WellFormed(p)
  {
    p.Code? ==> IsScalar(HexNumber(p.hex, 0))
  }

  function Value(p: Piece): string
    requires WellFormed(p) && Expressible(p)
  {
    match p
    case Plain(c) => [c]
    case Escape(c) =>
      [match c case 'b' => '\U{08}' case 't' => '\t' case 'n' => '\n' case 'f' => '\U{0C}' case 'r' => '\r' case _ => c]
    case Code(hex) => UnicodeBytes(HexNumber(hex, 0))
  }

  predicate AllWellFormed(ps: seq<Piece>) {
    forall i :: 0 <= i < |ps| ==> WellFormed(ps[i])
  }

  predicate AllExpressible(ps: seq<Piece>)
    requires AllWellFormed(ps)
  {
    forall i :: 0 <= i < |ps| ==> Expressible(ps[i])
  }

  function Sources(ps: seq<Piece>): string {
    if ps == [] then "" else Source(ps[0]) + Sources(ps[1..])
  }

  function Values(ps: seq<Piece>): string
    requires AllWellFormed(ps) && AllExpressible(ps)
  {
    if ps == [] then "" else Value(ps[0]) + Values(ps[1..])
  }

  lemma {:induction false} HexIsRead(hex: string, tail: string, acc: nat)
    requires AllHex(hex)
    ensures ParseHex(hex + tail, |hex|, acc) == Ok((HexNumber(hex, acc), tail))
    decreases |hex|
  {
    if hex == "" {
      assert hex + tail == tail;
    } else {
      assert (hex + tail)[0] == hex[0] && (hex + tail)[1..] == hex[1..] + tail;
      HexIsRead(hex[1..], tail, 16 * acc + HexValue(hex[0]));
    }
  }

  lemma PieceIsRead(p: Piece, tail: string, val: string)
    requires WellFormed(p)
    ensures LiteralBody(Source(p) + tail, '\"', val)
         == if Expressible(p) then LiteralBody(tail, '\"', val + Value(p)) else Err(InvalidUnicode)
  {
    hide UnicodeBytes, HexNumber, ParseHex, ParseUnicode;
    var s := Source(p) + tail;
    match p
    case Plain(_) => assert s[1..] == tail;
    case Escape(_) => assert s[1..][1..] == tail;
    case Code(hex) =>
      CodeIsRead(hex, tail);
      assert s[1..] == [if |hex| == 4 then 'u' else 'U'] + hex + tail;
  }

  lemma CodeIsRead(hex: string, tail: string)
    requires WellFormed(Code(hex))
    ensures ParseUnicode([if |hex| == 4 then 'u' else 'U'] + hex + tail)
         == if Expressible(Code(hex)) then Ok((Value(Code(hex)), tail)) else Err(InvalidUnicode)
  {
    hide UnicodeBytes, HexNumber, ParseHex;
    assert ([if |hex| == 4 then 'u' else 'U'] + hex + tail)[1..] == hex + tail;
    HexIsRead(hex, tail, 0);
  }

  /** A "..." string is what its pieces stand for, or an error if a code is no scalar value. */
  lemma {:induction false} PiecesAreRead(ps: seq<Piece>, tail: string, val: string)
    requires AllWellFormed(ps)
    ensures LiteralBody(Sources(ps) + "\"" + tail, '\"', val)
         == if AllExpressible(ps) then Ok((val + Values(ps), ConsumeWhitespace(tail))) else Err(InvalidUnicode)
    decreases |ps|
  {
    hide LiteralBody, Source, Value, Expressible, ConsumeWhitespace;
    if ps == [] {
      NothingEscaped(tail, val);
      assert Sources(ps) + "\"" + tail == EscapeString("") + "\"" + tail;
      assert val + Values(ps) == val;
    } else {
      var more := Sources(ps[1..]) + "\"" + tail;
      assert Sources(ps) + "\"" + tail == Source(ps[0]) + more;
      PieceIsRead(ps[0], more, val);
      assert AllExpressible(ps) <==> Expressible(ps[0]) && AllExpressible(ps[1..]) by {
        assert ps == [ps[0]] + ps[1..];
      }
      if Expressible(ps[0]) {
        PiecesAreRead(ps[1..], tail, val + Value(ps[0]));
        if AllExpressible(ps) {
          assert val + Value(ps[0]) + Values(ps[1..]) == val + Values(ps);
        }
      }
    }
  }

  /** Conversely, a "..." string that is accepted is made of such pieces. */
  lemma {:induction false} ReadBodyHasPieces(s: string, val: string) returns (ps: seq<Piece>, rest: string)
    requires LiteralBody(s, '\"', val).Ok?
    ensures AllWellFormed(ps) && AllExpressible(ps) && s == Sources(ps) + "\"" + rest
    ensures LiteralBody(s, '\"', val) == Ok((val + Values(ps), ConsumeWhitespace(rest)))
    decreases |s|
  {
    hide LiteralBody, Source, Value, Expressible, ConsumeWhitespace, WellFormed;
    if s != "" && s[0] == '\"' {
      ps, rest := [], s[1..];
      assert s == "\"" + rest;
      PiecesAreRead([], rest, val);
      assert Sources([]) + "\"" + rest == s;
    } else {
      var p, tail := FirstPiece(s, val);
      PieceIsRead(p, tail, val);
      var more;
      more, rest := ReadBodyHasPieces(tail, val + Value(p));
      ps := [p] + more;
      assert ps[1..] == more;
      assert s == Sources(ps) + "\"" + rest;
      PiecesAreRead(ps, rest, val);
    }
  }

  lemma FirstPiece(s: string, val: string) returns (p: Piece, tail: string)
    requires LiteralBody(s, '\"', val).Ok? && (s == "" || s[0] != '\"')
    ensures WellFormed(p) && Expressible(p) && s == Source(p) + tail
    ensures LiteralBody(tail, '\"', val + Value(p)).Ok?
  {
    hide ParseEscapeCode, Expressible, Value;
    if s[0] != '\\' {
      p, tail := Plain(s[0]), s[1..];
      PlainValue(s[0]);
    } else {
      tail := ParseEscapeCode(s).value.1;
      p := EscapePiece(s);
    }
  }

  lemma PlainValue(c: char)
    requires WellFormed(Plain(c))
    ensures Expressible(Plain(c)) && Value(Plain(c)) == [c]
  {
  }

  lemma EscapePiece(s: string) returns (p: Piece)
    requires s != "" && s[0] == '\\' && ParseEscapeCode(s).Ok?
    ensures WellFormed(p) && Expressible(p) && Value(p) == ParseEscapeCode(s).value.0
    ensures s == Source(p) + ParseEscapeCode(s).value.1
  {
    hide ParseUnicode, UnicodeBytes, HexNumber;
    var t := s[1..];
    assert s == ['\\', t[0]] + t[1..];
    if t[0] == 'u' || t[0] == 'U' {
      p := CodePiece(t);
      assert ['\\', t[0]] + (p.hex + ParseUnicode(t).value.1) == Source(p) + ParseUnicode(t).value.1;
    } else {
      p := Escape(t[0]);
    }
  }

  lemma CodePiece(t: string) returns (p: Piece)
    requires t != "" && (t[0] == 'u' || t[0] == 'U') && ParseUnicode(t).Ok?
    ensures p.Code? && |p.hex| == (if t[0] == 'u' then 4 else 8) && t[1..] == p.hex + ParseUnicode(t).value.1
    ensures WellFormed(p) && Expressible(p) && Value(p) == ParseUnicode(t).value.0
  {
    hide UnicodeBytes, HexNumber, ParseHex;
    var n := if t[0] == 'U' then 8 else 4;
    var (code, rest) := ParseHex(t[1..], n, 0).value;
    p := Code(t[1..][..n]);
    assert t[1..] == p.hex + rest;
    HexIsRead(p.hex, rest, 0);
  }

  /** A code becomes its UTF-8 encoding, except for three-byte codes with bit 11 set, whose middle byte loses it. */
  lemma UnicodeBytesAreUtf8Iff(code: nat)
    requires IsScalar(code) && CTomlUtf8.Legal(code)
    ensures UnicodeBytes(code) == CTomlUtf8.Encode(code).value <==>
              !(0x800 <= code <= 0xffff && code / 0x40 % 0x40 >= 0x20)
  {
    hide CTomlUtf8.Encode;
    CTomlUtf8.WrittenIsEncoded(code);
    if 0x800 <= code <= 0xffff {
      ThreeBytes(code);
    } else if code > 0xffff {
      assert code / 0x40000 % 8 == code / 0x40000;
    }
  }

  lemma ThreeBytes(code: nat)
    requires 0x800 <= code <= 0xffff
    ensures UnicodeBytes(code) == CTomlUtf8.Written(code) <==> code / 0x40 % 0x40 < 0x20
  {
    var f := code / 0x40;
    var u, v := UnicodeBytes(code), CTomlUtf8.Written(code);
    assert |u| == |v| == 3 && u[0] == v[0] && u[2] == v[2];
    assert u[1] as int == 0x80 + f % 0x20 && v[1] as int == 0x80 + f % 0x40;
    assert f % 0x20 == f % 0x40 <==> f % 0x40 < 0x20;
    assert u == v <==> u[1] == v[1];
  }

  /** The text of U+0800 that comes out is not UTF-8 for it: the middle byte is 0x80 in place of 0xa0. */
  lemma BrokenCode()
    ensures UnicodeBytes(0x800) == ['\U{e0}', '\U{80}', '\U{80}']
    ensures CTomlUtf8.Encode(0x800) == Some(['\U{e0}', '\U{a0}', '\U{80}'])
  {
    hide CTomlUtf8.Encode;
    CTomlUtf8.WrittenIsEncoded(0x800);
  }
  // ----- keys ---------------------------------------------------------------------------------

  /** A key as it may stand in a text: bare, in single quotes, or in double quotes with escapes. */
  datatype Spelling = Bare(key: string) | Single(key: string) | Double(pieces: seq<Piece>) {
    predicate Valid() {
      match this
      case Bare(key) => key != "" && forall i :: 0 <= i < |key| ==> InBareKey(key[i])
      case Single(key) => '\'' !in key
      case Double(ps) => AllWellFormed(ps) && AllExpressible(ps)
    }

    function Text(): string {
      match this
      case Bare(key) => key
      case Single(key) => "'" + key + "'"
      case Double(ps) => "\"" + Sources(ps) + "\""
    }

    function Key(): string
      requires Valid()
    {
      match this
      case Bare(key) => key
      case Single(key) => key
      case Double(ps) => Values(ps)
    }
  }

  predicate InBareKey(c: char) {
    InKey(c) && c != '#' && !IsBlank(c) && c != '[' && c != '\"' && c != '\''
  }

  /** One part of a key, with blanks around it, in front of a dot, an equals sign or a bracket. */
  lemma KeyIsRead(a: string, k: Spelling, b: string, rest: string)
    requires AllBlank(a) && k.Valid() && AllBlank(b) && rest != "" && !InKey(rest[0])
    ensures ParseSimpleKey(a + k.Text() + b + rest) == Ok((k.Key(), rest))
  {
    hide LiteralBody, Sources, Values, ParseBareKey, AllBlank, ConsumeWhitespace, Span, InKey;
    var t := k.Text() + (b + rest);
    assert a + k.Text() + b + rest == a + t;
    SkipMore(a, t);
    BlankHead(b, rest);
    SkipMore(b, rest);
    match k
    case Bare(key) => BareIsRead(key, b, rest);
    case Single(key) => SingleIsRead(key, b + rest);
    case Double(ps) => DoubleIsRead(ps, b + rest);
  }

  lemma SingleIsRead(key: string, tail: string)
    requires '\'' !in key
    ensures var t := "'" + key + "'" + tail;
            ConsumeWhitespace(t) == t && StringLiteral(t, '\'') == Ok((key, ConsumeWhitespace(tail)))
  {
    hide LiteralBody;
    var t := "'" + key + "'" + tail;
    assert t[1..] == key + "'" + tail;
    LiteralIsTaken(key, tail, "");
    assert "" + key == key;
  }

  lemma DoubleIsRead(ps: seq<Piece>, tail: string)
    requires AllWellFormed(ps) && AllExpressible(ps)
    ensures var t := "\"" + Sources(ps) + "\"" + tail;
            ConsumeWhitespace(t) == t && StringLiteral(t, '\"') == Ok((Values(ps), ConsumeWhitespace(tail)))
  {
    hide LiteralBody, Sources, Values;
    var t := "\"" + Sources(ps) + "\"" + tail;
    assert t[1..] == Sources(ps) + "\"" + tail;
    PiecesAreRead(ps, tail, "");
    assert "" + Values(ps) == Values(ps);
  }

  lemma BlankHead(b: string, rest: string)
    requires AllBlank(b) && rest != "" && !InKey(rest[0])
    ensures ConsumeWhitespace(rest) == rest
  {
  }

  lemma BareIsRead(key: string, b: string, rest: string)
    requires Bare(key).Valid() && AllBlank(b) && rest != "" && !InKey(rest[0])
    ensures var t := key + (b + rest);
            ConsumeWhitespace(t) == t && t[0] != '\"' && t[0] != '\'' &&
            ParseBareKey(t, Span(t, InKey)) == Ok((key, rest))
  {
    var t := key + (b + rest);
    assert t == key + b + rest && t[0] == key[0];
    assert forall i :: 0 <= i < |key + b| ==> InKey((key + b)[i]);
    SpanOf(key + b, rest, InKey);
    assert t[..|key + b|] == key + b && t[|key + b|..] == rest;
    TrimBackBlank(key, b);
  }

  /** A bare key with any other character is an error. */
  lemma BareIsRefused(key: string, b: string, rest: string)
    requires key != "" && AllBlank(b) && !IsBlank(key[0]) && !IsBlank(key[|key| - 1])
    requires rest != "" && !InKey(rest[0]) && forall i :: 0 <= i < |key| ==> InKey(key[i])
    requires exists i :: 0 <= i < |key| && (key[i] == '#' || IsBlank(key[i]) || key[i] == '[')
    ensures var t := key + (b + rest); ParseBareKey(t, Span(t, InKey)) == Err(BadBareKey)
  {
    var t := key + (b + rest);
    assert t == key + b + rest;
    SpanOf(key + b, rest, InKey);
    assert t[..|key + b|] == key + b;
    TrimBackBlank(key, b);
  }

  lemma {:induction false} TrimBackBlank(key: string, b: string)
    requires key != "" && AllBlank(b) && !IsBlank(key[|key| - 1])
    ensures TrimBack(key + b) == key
  {
    var s := key + b;
    if b == "" {
      assert s == key;
    } else {
      assert s[|s| - 1] == b[|b| - 1] && s[..|s| - 1] == key + b[..|b| - 1];
      TrimBackBlank(key, b[..|b| - 1]);
    }
  }

  /** A part of a key with the blanks in front of it and behind it. */
  datatype Part = Part(before: string, key: Spelling, behind: string) {
    predicate Valid() {
      AllBlank(before) && key.Valid() && AllBlank(behind)
    }

    function Text(): string {
      before + key.Text() + behind
    }
  }

  predicate AllParts(ps: seq<Part>) {
    forall i :: 0 <= i < |ps| ==> ps[i].Valid()
  }

  function Names(ps: seq<Part>): (keys: seq<string>)
    requires AllParts(ps)
    ensures |keys| == |ps|
  {
    if ps == [] then [] else [ps[0].key.Key()] + Names(ps[1..])
  }

  /** The parts of a key, with dots between them. */
  function DottedText(ps: seq<Part>): string {
    if ps == [] then ""
    else ps[0].Text() + if |ps| == 1 then "" else "." + DottedText(ps[1..])
  }

  /** A dotted key is read as the names of its parts, however it is spelled. */
  lemma {:induction false} DottedIsRead(ps: seq<Part>, tail: string, end: char)
    requires ps != [] && AllParts(ps) && (end == '=' || end == ']') && tail != "" && tail[0] == end
    ensures KeysEnd(DottedText(ps) + tail, Names(ps), end) == Some(tail)
    decreases |ps|
  {
    hide KeysEnd, DottedText, Names;
    DottedStep(ps, tail);
    if |ps| == 1 {
      PartIsRead(ps[0], tail, end);
    } else {
      DottedIsRead(ps[1..], tail, end);
      PartIsRead(ps[0], "." + (DottedText(ps[1..]) + tail), end);
      assert ("." + (DottedText(ps[1..]) + tail))[1..] == DottedText(ps[1..]) + tail;
    }
  }

  lemma DottedStep(ps: seq<Part>, tail: string)
    requires ps != [] && AllParts(ps)
    ensures |ps| == 1 ==> DottedText(ps) + tail == ps[0].Text() + tail && Names(ps) == [ps[0].key.Key()]
    ensures |ps| > 1 ==> DottedText(ps) + tail == ps[0].Text() + ("." + (DottedText(ps[1..]) + tail)) &&
                         Names(ps) == [ps[0].key.Key()] + Names(ps[1..])
  {
    hide Part.Text, Spelling.Key;
    if |ps| == 1 {
      assert ps[0].Text() + "" == ps[0].Text();
      assert Names(ps[1..]) == [];
    } else {
      DotBetween(ps[0].Text(), DottedText(ps[1..]), tail);
    }
  }

  lemma DotBetween(a: string, b: string, tail: string)
    ensures a + ("." + b) + tail == a + ("." + (b + tail))
  {
  }

  /** One part, in front of the end or of a dot and more parts. */
  lemma PartIsRead(p: Part, more: string, end: char)
    requires p.Valid() && (end == '=' || end == ']') && more != "" && (more[0] == end || more[0] == '.')
    ensures var s := p.Text() + more;
            (more[0] == end ==> KeysEnd(s, [p.key.Key()], end) == Some(more)) &&
            (more[0] == '.' ==> forall keys: seq<string> :: keys != [] ==>
               KeysEnd(s, [p.key.Key()] + keys, end) == KeysEnd(more[1..], keys, end))
  {
    hide ParseSimpleKey, ConsumeWhitespace;
    var s := p.before + p.key.Text() + p.behind + more;
    KeyIsRead(p.before, p.key, p.behind, more);
    PartHead(p, more, end);
    BlankHead("", more);
    forall keys: seq<string> | keys != [] && more[0] == '.'
      ensures KeysEnd(s, [p.key.Key()] + keys, end) == KeysEnd(more[1..], keys, end)
    {
      assert ([p.key.Key()] + keys)[1..] == keys;
    }
  }

  /** A part of a key never starts with the end of a key. */
  lemma PartHead(p: Part, more: string, end: char)
    requires p.Valid() && (end == '=' || end == ']')
    ensures var s := p.before + p.key.Text() + p.behind + more; s != "" && s[0] != end
  {
    var s := p.before + p.key.Text() + p.behind + more;
    if p.before != "" {
      assert s[0] == p.before[0];
    } else {
      assert s[0] == p.key.Text()[0];
    }
  }

  // ----- lines --------------------------------------------------------------------------------

  /** A header with dotted keys, however they are spelled, and blanks and a comment behind it. */
  lemma HeaderIsShown(ps: seq<Part>, double: bool, behind: string)
    requires ps != [] && AllParts(ps) && IsNoise(behind)
    ensures var s := (if double then "[[" + DottedText(ps) + "]]" else "[" + DottedText(ps) + "]") + behind;
            HeadShown(s, Names(ps), double)
  {
    hide KeysEnd, DottedText;
    if double {
      var s := "[[" + DottedText(ps) + "]]" + behind;
      var tail := "]]" + behind;
      DottedIsRead(ps, tail, ']');
      assert s[2..] == DottedText(ps) + tail && tail[2..] == behind;
    } else {
      var s := "[" + DottedText(ps) + "]" + behind;
      var tail := "]" + behind;
      DottedIsRead(ps, tail, ']');
      assert s[1..] == DottedText(ps) + tail && tail[1..] == behind;
      DottedHead(ps, tail);
      assert s[1] == (DottedText(ps) + tail)[0];
    }
  }

  lemma DottedHead(ps: seq<Part>, tail: string)
    requires ps != [] && AllParts(ps)
    ensures var s := DottedText(ps) + tail; s != "" && s[0] != '[' && s[0] != '#'
  {
    var p, s := ps[0], DottedText(ps) + tail;
    if p.before != "" {
      assert s[0] == p.before[0];
    } else {
      assert s[0] == p.key.Text()[0];
    }
  }
}
