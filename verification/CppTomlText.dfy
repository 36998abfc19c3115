/** String escaping, string literals and decimal numbers of ssar/cpptoml.h.

    A C++ string is a sequence of bytes; it is a `string` here, and the code looks at no
    byte above 0x7f except to copy it.  An iterator `it` into a line is the rest of the line. */
module CppTomlText {
  import opened Wrappers

  /** The reasons for which the parser throws. */
  datatype ParseError =
    | UnexpectedEndOfTable
    | EmptyTableName
    | EmptyNameComponent
    | ExistsAsValue(part: string)
    | UnterminatedTable
    | RedefinitionOfTable
    | NotATableArray
    | BackOfEmptyArray
    | KeyAlreadyPresent
    | MissingEquals
    | UnexpectedEndOfKey
    | UnexpectedCharacterInKey
    | BadBareKey
    | UnterminatedString
    | InvalidEscape
    | InvalidUnicode
    | MalformedNumber
    | NumberOutOfRange
    | InvalidBoolean
    | UnknownValueType
    | NotHomogeneous
    | UnexpectedCharacterInArray
    | UnterminatedArray
    | UnclosedArray
    | TrailingCharacter
    | Unsupported

  type Parsed<T> = Result<T, ParseError>

  predicate IsBlank(c: char) {
    c == ' ' || c == '\t'
  }

  predicate IsNumber(c: char) {
    '0' <= c <= '9'
  }

  predicate IsHex(c: char) {
    IsNumber(c) || 'a' <= c <= 'f' || 'A' <= c <= 'F'
  }

  function ConsumeWhitespace(s: string): (r: string)
    ensures |r| <= |s|
    ensures r != "" ==> !IsBlank(r[0])
    ensures s != "" && !IsBlank(s[0]) ==> r == s
  {
    if s != "" && IsBlank(s[0]) then ConsumeWhitespace(s[1..]) else s
  }

  /** The number of leading characters that satisfy `p`. */
  function Span(s: string, p: char -> bool): (n: nat)
    ensures n <= |s|
    ensures forall i :: 0 <= i < n ==> p(s[i])
    ensures n < |s| ==> !p(s[n])
  {
    if s != "" && p(s[0]) then 1 + Span(s[1..], p) else 0
  }

  // ----- hexadecimal digits ---------------------------------------------------------------

  function HexDigit(d: nat): (c: char)
    requires d < 16
    ensures IsHex(c) && HexValue(c) == d
  {
    if d < 10 then '0' + d as char else 'a' + (d - 10) as char
  }

  function HexValue(c: char): (d: nat)
    requires IsHex(c)
    ensures d < 16
  {
    if IsNumber(c) then (c - '0') as nat
    else if 'a' <= c <= 'f' then 10 + (c - 'a') as nat
    else 10 + (c - 'A') as nat
  }

  /** `ss << std::hex << n`: lower case, no padding. */
  function HexText(n: nat): (s: string)
    ensures s != ""
  {
    if n < 16 then [HexDigit(n)] else HexText(n / 16) + [HexDigit(n % 16)]
  }

  // ----- escape_string --------------------------------------------------------------------

  function EscapeChar(c: char): (s: string)
    ensures s != ""
  {
    if c == '\U{08}' then "\\b"
    else if c == '\t' then "\\t"
    else if c == '\n' then "\\n"
    else if c == '\U{0C}' then "\\f"
    else if c == '\r' then "\\r"
    else if c == '\"' then "\\\""
    else if c == '\\' then "\\\\"
    else if c as int <= 0x1f then "\\u" + HexText(c as nat)
    else [c]
  }

  function EscapeString(s: string): string {
    if s == "" then "" else EscapeChar(s[0]) + EscapeString(s[1..])
  }

  /** The loop of `escape_string`. */
  method EscapeStringLoop(str: string) returns (res: string)
    ensures res == EscapeString(str)
  {
    res := "";
    for i := 0 to |str|
      invariant res + EscapeString(str[i..]) == EscapeString(str)
    {
      assert str[i..][0] == str[i] && str[i..][1..] == str[i + 1..];
      res := res + EscapeChar(str[i]);
    }
  }

  // ----- string_literal -------------------------------------------------------------------

  /** parse_hex over `digits` places, most significant first. */
  function ParseHex(s: string, digits: nat, acc: nat): (r: Parsed<(nat, string)>)
    ensures r.Ok? ==> |s| >= digits && r.value.1 == s[digits..]
    ensures r.Ok? ==> forall i :: 0 <= i < digits ==> IsHex(s[i])
    decreases digits
  {
    if digits == 0 then Ok((acc, s))
    else if s == "" || !IsHex(s[0]) then Err(InvalidUnicode)
    else ParseHex(s[1..], digits - 1, 16 * acc + HexValue(s[0]))
  }

  function Byte(n: nat): char
    requires n < 256
  {
    n as char
  }

  /** The bytes parse_unicode writes for a code point, with the mask 0x1f of its three-byte case. */
  function UnicodeBytes(code: nat): (s: string)
    requires code <= 0x10ffff
    ensures 1 <= |s| <= 4
    ensures code <= 0xffff ==> |s| <= 3
  {
    if code <= 0x7f then [Byte(code)]
    else if code <= 0x7ff then [Byte(0xc0 + code / 0x40), Byte(0x80 + code % 0x40)]
    else if code <= 0xffff then
      [Byte(0xe0 + code / 0x1000), Byte(0x80 + code / 0x40 % 0x20), Byte(0x80 + code % 0x40)]
    else
      [Byte(0xf0 + code / 0x40000 % 8), Byte(0x80 + code / 0x1000 % 0x40),
       Byte(0x80 + code / 0x40 % 0x40), Byte(0x80 + code % 0x40)]
  }

  /** parse_unicode, at the `u` or `U`. */
  function ParseUnicode(s: string): (r: Parsed<(string, string)>)
    requires s != ""
    ensures r.Ok? ==> |r.value.1| < |s|
  {
    var (code, rest) :- ParseHex(s[1..], if s[0] == 'U' then 8 else 4, 0);
    if 0xd7ff < code < 0xe000 || code > 0x10ffff then Err(InvalidUnicode)
    else Ok((UnicodeBytes(code), rest))
  }

  /** parse_escape_code, at the backslash. */
  function ParseEscapeCode(s: string): (r: Parsed<(string, string)>)
    requires s != ""
    ensures r.Ok? ==> |r.value.1| < |s|
  {
    var t := s[1..];
    if t == "" then Err(InvalidEscape)
    else if t[0] == 'b' then Ok(("\U{08}", t[1..]))
    else if t[0] == 't' then Ok(("\t", t[1..]))
    else if t[0] == 'n' then Ok(("\n", t[1..]))
    else if t[0] == 'f' then Ok(("\U{0C}", t[1..]))
    else if t[0] == 'r' then Ok(("\r", t[1..]))
    else if t[0] == '\"' then Ok(("\"", t[1..]))
    else if t[0] == '\\' then Ok(("\\", t[1..]))
    else if t[0] == 'u' || t[0] == 'U' then ParseUnicode(t)
    else Err(InvalidEscape)
  }

  /** The loop of string_literal, with `val` read so far. */
  function LiteralBody(s: string, delim: char, val: string): (r: Parsed<(string, string)>)
    ensures r.Ok? ==> |r.value.1| < |s|
    decreases |s|
  {
    if s == "" then Err(UnterminatedString)
    else if delim == '\"' && s[0] == '\\' then
      var (c, rest) :- ParseEscapeCode(s);
      LiteralBody(rest, delim, val + c)
    else if s[0] == delim then Ok((val, ConsumeWhitespace(s[1..])))
    else LiteralBody(s[1..], delim, val + [s[0]])
  }

  /** string_literal, at the opening delimiter. */
  function StringLiteral(s: string, delim: char): (r: Parsed<(string, string)>)
    requires s != ""
    ensures r.Ok? ==> |r.value.1| < |s|
  {
    LiteralBody(s[1..], delim, "")
  }

  // ----- escape_string against string_literal ---------------------------------------------

  /** Free of control bytes other than \b \t \n \f \r. */
  predicate Clean(s: string) {
    forall i :: 0 <= i < |s| ==> CleanChar(s[i])
  }

  predicate CleanChar(c: char) {
    c as int > 0x1f || c in {'\U{08}', '\t', '\n', '\U{0C}', '\r'}
  }

  /** One step of the literal loop undoes one escaped character. */
  lemma LiteralUndoesChar(c: char, tail: string, val: string)
    requires CleanChar(c)
    ensures LiteralBody(EscapeChar(c) + tail, '\"', val) == LiteralBody(tail, '\"', val + [c])
  {
    var e := EscapeChar(c);
    assert (e + tail)[|e|..] == tail;
    if |e| == 2 {
      assert (e + tail)[1..][1..] == tail;
    }
  }

  lemma EscapeStep(s: string, tail: string)
    requires s != ""
    ensures EscapeString(s) + "\"" + tail == EscapeChar(s[0]) + (EscapeString(s[1..]) + "\"" + tail)
  {
    hide EscapeChar;
  }

  lemma {:induction false} LiteralUndoesEscape(s: string, tail: string, val: string)
    requires Clean(s)
    ensures LiteralBody(EscapeString(s) + "\"" + tail, '\"', val) == Ok((val + s, ConsumeWhitespace(tail)))
  {
    hide LiteralBody, EscapeChar, EscapeString, ConsumeWhitespace, CleanChar;
    if s == "" {
      NothingEscaped(tail, val);
      assert val + s == val;
    } else {
      EscapeStep(s, tail);
      LiteralUndoesChar(s[0], EscapeString(s[1..]) + "\"" + tail, val);
      LiteralUndoesEscape(s[1..], tail, val + [s[0]]);
      Moved(val, s);
    }
  }

  lemma NothingEscaped(tail: string, val: string)
    ensures LiteralBody(EscapeString("") + "\"" + tail, '\"', val) == Ok((val, ConsumeWhitespace(tail)))
  {
    hide ConsumeWhitespace;
    assert EscapeString("") + "\"" + tail == "\"" + tail;
    assert ("\"" + tail)[1..] == tail;
  }

  lemma Moved(val: string, s: string)
    requires s != ""
    ensures val + [s[0]] + s[1..] == val + s
  {
  }

  /** No raw newline or carriage return, and no quote that is not behind a backslash. */
  predicate QuoteSafe(s: string) {
    if s == "" then true
    else if s[0] == '\\' then |s| >= 2 && s[1] != '\n' && s[1] != '\r' && QuoteSafe(s[2..])
    else s[0] != '\"' && s[0] != '\n' && s[0] != '\r' && QuoteSafe(s[1..])
  }

  lemma QuoteSafePair(c: char, d: char, s: string)
    ensures QuoteSafe([c, d] + s) <==>
              if c == '\\' then d != '\n' && d != '\r' && QuoteSafe(s) else QuoteSafe([c] + ([d] + s))
  {
    assert [c, d] + s == [c] + ([d] + s);
    assert ([c, d] + s)[2..] == s;
  }

  lemma QuoteSafeOne(c: char, s: string)
    ensures c != '\\' ==> (QuoteSafe([c] + s) <==> c != '\"' && c != '\n' && c != '\r' && QuoteSafe(s))
  {
    assert ([c] + s)[1..] == s;
  }

  lemma {:induction false} QuoteSafeAppend(a: string, b: string)
    requires QuoteSafe(a) && QuoteSafe(b)
    ensures QuoteSafe(a + b)
    decreases |a|
  {
    if a == "" {
      assert a + b == b;
    } else if a[0] == '\\' {
      QuoteSafeAppend(a[2..], b);
      hide QuoteSafe;
      QuoteSafePair(a[0], a[1], a[2..] + b);
      assert a + b == [a[0], a[1]] + (a[2..] + b);
    } else {
      QuoteSafeAppend(a[1..], b);
      hide QuoteSafe;
      QuoteSafeOne(a[0], a[1..] + b);
      assert a + b == [a[0]] + (a[1..] + b);
    }
  }

  lemma EscapeCharIsQuoteSafe(c: char)
    ensures QuoteSafe(EscapeChar(c))
  {
    var e := EscapeChar(c);
    if |e| > 1 {
      assert e[0] == '\\';
      if e[1] == 'u' {
        var n := c as nat;
        assert e[2..] == HexText(n);
        assert n < 16 || HexText(n) == [HexDigit(n / 16), HexDigit(n % 16)];
        assert forall i :: 0 <= i < |e[2..]| ==> IsHex(e[2..][i]);
        assert QuoteSafe(e[2..][|e[2..]|..]);
      } else {
        assert e[2..] == "";
      }
    }
  }

  lemma {:induction false} EscapeIsQuoteSafe(s: string)
    ensures QuoteSafe(EscapeString(s))
  {
    if s != "" {
      hide EscapeChar, QuoteSafe;
      EscapeIsQuoteSafe(s[1..]);
      EscapeCharIsQuoteSafe(s[0]);
      QuoteSafeAppend(EscapeChar(s[0]), EscapeString(s[1..]));
    }
  }

  /** Escaped text has no control characters. */
  lemma {:induction false} EscapeHasNoControls(s: string)
    ensures forall i :: 0 <= i < |EscapeString(s)| ==> EscapeString(s)[i] as int > 0x1f
  {
    if s != "" {
      hide EscapeChar;
      EscapeHasNoControls(s[1..]);
      EscapeCharHasNoControls(s[0]);
    }
  }

  lemma EscapeCharHasNoControls(c: char)
    ensures forall i :: 0 <= i < |EscapeChar(c)| ==> EscapeChar(c)[i] as int > 0x1f
  {
    if EscapeChar(c) == "\\u" + HexText(c as nat) {
      HexHasNoControls(c as nat);
    }
  }

  lemma {:induction false} HexHasNoControls(n: nat)
    ensures forall i :: 0 <= i < |HexText(n)| ==> HexText(n)[i] as int > 0x1f
  {
    if n >= 16 {
      HexHasNoControls(n / 16);
    }
  }

  // ----- why control bytes are excluded ---------------------------------------------------

  /** The escaped text of `s`, its closing quote and what follows. */
  function Quoted(s: string, tail: string): string {
    EscapeString(s) + "\"" + tail
  }

  lemma QuotedStep(s: string, tail: string)
    requires s != ""
    ensures Quoted(s, tail) == EscapeChar(s[0]) + Quoted(s[1..], tail)
  {
  }

  lemma EscapeCharHead(c: char)
    ensures IsHex(EscapeChar(c)[0]) ==> EscapeChar(c) == [c]
  {
  }

  /** A hex digit read from escaped text is a character of the original text. */
  lemma HexDigitIsPlain(s: string, tail: string)
    requires IsHex(Quoted(s, tail)[0])
    ensures s != "" && IsHex(s[0])
    ensures Quoted(s, tail) == [s[0]] + Quoted(s[1..], tail)
  {
    if s != "" {
      QuotedStep(s, tail);
      EscapeCharHead(s[0]);
    }
  }

  function Pow16(n: nat): (p: nat)
    ensures p > 0
  {
    if n == 0 then 1 else 16 * Pow16(n - 1)
  }

  /** Hex digits read from escaped text consume one original character each. */
  lemma {:induction false} HexConsumes(s: string, tail: string, digits: nat, acc: nat)
    requires ParseHex(Quoted(s, tail), digits, acc).Ok?
    ensures digits <= |s|
    ensures ParseHex(Quoted(s, tail), digits, acc).value.1 == Quoted(s[digits..], tail)
    ensures acc * Pow16(digits) <= ParseHex(Quoted(s, tail), digits, acc).value.0 < (acc + 1) * Pow16(digits)
    decreases digits
  {
    if digits > 0 {
      HexDigitIsPlain(s, tail);
      var d := HexValue(s[0]);
      assert Quoted(s, tail)[1..] == Quoted(s[1..], tail);
      HexConsumes(s[1..], tail, digits - 1, 16 * acc + d);
      assert s[1..][digits - 1..] == s[digits..];
      ScaleBounds(acc, d, Pow16(digits - 1));
    } else {
      assert s[0..] == s;
    }
  }

  lemma ScaleBounds(acc: nat, d: nat, p: nat)
    requires d < 16
    ensures acc * (16 * p) <= (16 * acc + d) * p
    ensures (16 * acc + d + 1) * p <= (acc + 1) * (16 * p)
  {
    assert (16 * acc + d) * p == 16 * (acc * p) + d * p;
    assert d * p <= 15 * p;
  }

  lemma ControlEscape(c: char)
    requires !CleanChar(c)
    ensures EscapeChar(c) == "\\u" + HexText(c as nat)
  {
  }

  /** How many characters the escape of a control byte makes the reader take. */
  function Swallowed(c: char): (k: nat)
    ensures k == 3 || k == 4
  {
    if c as int < 16 then 4 else 3
  }

  /** The four hex digits behind the escape of a control byte: its own and those of the next characters. */
  lemma ControlHex(c: char, s: string, tail: string)
    requires !CleanChar(c)
    requires ParseHex(HexText(c as nat) + Quoted(s, tail), 4, 0).Ok?
    ensures var k := Swallowed(c) - 1;
            |s| >= k &&
            var (code, rest) := ParseHex(HexText(c as nat) + Quoted(s, tail), 4, 0).value;
            rest == Quoted(s[k..], tail) && code <= 0xffff &&
            (c as int > 0 ==> code >= 0x1000) && (c as int == 0 ==> code < 0x1000)
  {
    hide Quoted;
    var n, q := c as nat, Quoted(s, tail);
    var h := HexText(n);
    assert Pow16(2) == 256 && Pow16(3) == 4096 by { assert Pow16(1) == 16; }
    if n < 16 {
      assert h == [HexDigit(n)];
      assert (h + q)[1..] == q;
      assert ParseHex(h + q, 4, 0) == ParseHex(q, 3, n);
      HexConsumes(s, tail, 3, n);
    } else {
      assert HexText(n / 16) == [HexDigit(1)];
      assert h == [HexDigit(1), HexDigit(n % 16)];
      assert (h + q)[1..] == [HexDigit(n % 16)] + q;
      assert ([HexDigit(n % 16)] + q)[1..] == q;
      assert ParseHex(h + q, 4, 0) == ParseHex([HexDigit(n % 16)] + q, 3, 1);
      assert ParseHex([HexDigit(n % 16)] + q, 3, 1) == ParseHex(q, 2, n);
      HexConsumes(s, tail, 2, n);
    }
  }

  /** What the literal loop does with the escape of a control byte: it fails, or it takes the two or three
      characters that follow as further digits. */
  lemma ControlSwallows(s: string, tail: string, val: string) returns (code: nat)
    requires s != "" && !CleanChar(s[0])
    requires LiteralBody(Quoted(s, tail), '\"', val).Ok?
    ensures |s| >= Swallowed(s[0]) && code <= 0xffff
    ensures s[0] as int > 0 ==> code >= 0x1000
    ensures s[0] as int == 0 ==> code < 0x1000
    ensures LiteralBody(Quoted(s, tail), '\"', val)
         == LiteralBody(Quoted(s[Swallowed(s[0])..], tail), '\"', val + UnicodeBytes(code))
  {
    hide Quoted, HexText, EscapeChar, EscapeString, ParseHex, UnicodeBytes;
    var h, q := HexText(s[0] as nat), Quoted(s[1..], tail);
    QuotedStep(s, tail);
    ControlEscape(s[0]);
    var text := Quoted(s, tail);
    assert text == ['\\', 'u'] + (h + q);
    assert text[1..] == ['u'] + (h + q);
    assert text[1..][1..] == h + q;
    assert ParseEscapeCode(text) == ParseUnicode(text[1..]);
    ControlHex(s[0], s[1..], tail);
    code := ParseHex(h + q, 4, 0).value.0;
    assert s[1..][Swallowed(s[0]) - 1..] == s[Swallowed(s[0])..];
  }

  lemma UnicodeBytesSize(code: nat)
    requires code <= 0xffff
    ensures |UnicodeBytes(code)| <= 3
    ensures code >= 0x1000 ==> UnicodeBytes(code)[0] as int >= 0xe0
  {
  }

  /** `r` extends `val` by at most `|s|` characters, and by `s` itself only if `s` is clean. */
  predicate ReadsAs(r: string, val: string, s: string) {
    |r| <= |val| + |s| && val <= r && (r == val + s ==> Clean(s))
  }

  lemma ReadsAsClean(r: string, val: string, s: string)
    requires s != "" && CleanChar(s[0])
    requires ReadsAs(r, val + [s[0]], s[1..])
    ensures ReadsAs(r, val, s)
  {
    assert val + [s[0]] + s[1..] == val + s;
    assert r[..|val|] == val;
  }

  lemma ReadsAsControl(r: string, val: string, s: string, code: nat)
    requires s != "" && !CleanChar(s[0]) && |s| >= Swallowed(s[0]) && code <= 0xffff
    requires s[0] as int > 0 ==> code >= 0x1000
    requires ReadsAs(r, val + UnicodeBytes(code), s[Swallowed(s[0])..])
    ensures ReadsAs(r, val, s)
  {
    UnicodeBytesSize(code);
    var u := UnicodeBytes(code);
    assert val <= val + u <= r;
    assert r[|val|] == (val + u)[|val|] == u[0];
    assert (val + s)[|val|] == s[0];
  }

  /** Reading back an escaped string never yields a longer one, and yields the same one only if it is clean. */
  lemma {:induction false} LiteralOfEscape(s: string, tail: string, val: string)
    requires LiteralBody(Quoted(s, tail), '\"', val).Ok?
    ensures ReadsAs(LiteralBody(Quoted(s, tail), '\"', val).value.0, val, s)
    decreases |s|
  {
    var r := LiteralBody(Quoted(s, tail), '\"', val).value.0;
    if s == "" {
      assert Quoted(s, tail) == "\"" + tail;
    } else if CleanChar(s[0]) {
      QuotedStep(s, tail);
      LiteralUndoesChar(s[0], Quoted(s[1..], tail), val);
      LiteralOfEscape(s[1..], tail, val + [s[0]]);
      ReadsAsClean(r, val, s);
    } else {
      var code := ControlSwallows(s, tail, val);
      LiteralOfEscape(s[Swallowed(s[0])..], tail, val + UnicodeBytes(code));
      ReadsAsControl(r, val, s, code);
    }
  }

  /** string_literal undoes escape_string exactly on the strings without other control bytes. */
  lemma StringLiteralUndoesEscapeIff(s: string)
    ensures StringLiteral("\"" + EscapeString(s) + "\"", '\"') == Ok((s, "")) <==> Clean(s)
  {
    var text := "\"" + EscapeString(s) + "\"";
    assert text[1..] == Quoted(s, "");
    assert "" + s == s;
    if Clean(s) {
      LiteralUndoesEscape(s, "", "");
    } else if StringLiteral(text, '\"').Ok? {
      LiteralOfEscape(s, "", "");
    }
  }

  // ----- integers -------------------------------------------------------------------------

  const INT64_MIN: int := -0x8000_0000_0000_0000
  const INT64_MAX: int := 0x7fff_ffff_ffff_ffff

  predicate IsInt64(i: int) {
    INT64_MIN <= i <= INT64_MAX
  }

  function DecimalDigit(d: nat): (c: char)
    requires d < 10
    ensures IsNumber(c) && (c - '0') as nat == d
  {
    '0' + d as char
  }

  function NatText(n: nat): (s: string)
    ensures s != "" && AllDigits(s)
  {
    if n < 10 then [DecimalDigit(n)] else NatText(n / 10) + [DecimalDigit(n % 10)]
  }

  predicate AllDigits(s: string) {
    forall i :: 0 <= i < |s| ==> IsNumber(s[i])
  }

  /** `stream << v` for an int64_t. */
  function IntText(i: int): (s: string)
    ensures s != ""
  {
    if i < 0 then "-" + NatText(-i) else NatText(i)
  }

  function DigitsValue(s: string): nat
    requires AllDigits(s)
  {
    if s == "" then 0 else 10 * DigitsValue(s[..|s| - 1]) + (s[|s| - 1] - '0') as nat
  }

  lemma {:induction false} DigitsValueOfNatText(n: nat)
    ensures DigitsValue(NatText(n)) == n
    ensures n > 0 ==> NatText(n)[0] != '0'
    ensures n == 0 ==> NatText(n) == "0"
  {
    var s := NatText(n);
    if n < 10 {
      assert s[..|s| - 1] == "";
    } else {
      DigitsValueOfNatText(n / 10);
      assert s[..|s| - 1] == NatText(n / 10);
    }
  }

  /** std::stoll in base 10 on an optional sign followed by digits. */
  function Stoll(v: string): Parsed<int>
  {
    var negative := v != "" && v[0] == '-';
    var digits := if v != "" && (v[0] == '-' || v[0] == '+') then v[1..] else v;
    if digits == "" || !AllDigits(digits) then Err(MalformedNumber)
    else
      var n: int := DigitsValue(digits);
      var i := if negative then -n else n;
      if IsInt64(i) then Ok(i) else Err(NumberOutOfRange)
  }

  lemma StollOfIntText(i: int)
    requires IsInt64(i)
    ensures Stoll(IntText(i)) == Ok(i)
  {
    DigitsValueOfNatText(if i < 0 then -i else i);
    if i < 0 {
      assert IntText(i)[1..] == NatText(-i);
    } else {
      assert IsNumber(IntText(i)[0]);
    }
  }
}
