/** The parser object of ssar/cpptoml.h: its stream, its current line, the iterator `it` into
    that line, and the tree it builds.  Every method is what the functions of CppTomlParser say. */
module CppTomlParserObject {
  import opened Wrappers
  import opened CppTomlText
  import opened CppTomlTree
  import opened CppTomlParser

  /** A value parsed and where the parser stands after it, as the specification gives them. */
  predicate Agrees<T(==)>(r: Parsed<T>, now: St, spec: Parsed<(T, St)>) {
    match spec
    case Ok((v, st)) => r == Ok(v) && now == st
    case Err(e) => r == Err(e)
  }

  /** The same for steps that stay in the current line. */
  predicate AgreesInLine<T(==)>(r: Parsed<T>, now: St, before: St, spec: Parsed<(T, string)>) {
    match spec
    case Ok((v, rest)) => r == Ok(v) && now == St(rest, before.inp)
    case Err(e) => r == Err(e)
  }

  /** `read` in front of what a line reader finds. */
  function Behind(read: string, r: (string, string, bool)): (string, string, bool) {
    (read + r.0, r.1, r.2)
  }

  class TomlParser {
    var input: string
    var eofbit: bool
    var line: string
    var it: nat
    var root: Table

    constructor (text: string)
      ensures Valid() && In() == Input(text, false) && root == EMPTY_TABLE && line == ""
    {
      input, eofbit, line, it, root := text, false, "", 0, EMPTY_TABLE;
    }

    predicate Valid()
      reads this
    {
      it <= |line|
    }

    function In(): Input
      reads this
    {
      Input(input, eofbit)
    }

    function Now(): St
      requires Valid()
      reads this
    {
      St(line[it..], In())
    }

    /** detail::getline into `line`, and `it` to its beginning. */
    method GetLine() returns (ok: bool)
      modifies this`input, this`eofbit, this`line, this`it
      ensures Valid() && it == 0
      ensures ok == CppTomlParser.GetLine(old(In())).Some?
      ensures ok ==> CppTomlParser.GetLine(old(In())).value == (line, In())
    {
      line, it, ok := "", 0, !eofbit;
      if ok {
        ghost var text := input;
        assert "" + TakeLine(text).0 == TakeLine(text).0;
        while true
          invariant TakeLine(text) == Behind(line, TakeLine(input))
          invariant it == 0 && !eofbit
          decreases |input|
        {
          if input == "" {
            assert line + "" == line;
            eofbit := line == "";
            return;
          }
          ghost var rest := input;
          var c := input[0];
          input := input[1..];
          if c == '\r' && input != "" && input[0] == '\n' {
            c := '\n';
            input := input[1..];
          }
          if c == '\n' {
            assert line + "" == line;
            return;
          }
          assert TakeLine(rest) == Behind([c], TakeLine(input));
          BehindMore(line, c, TakeLine(input));
          line := line + [c];
        }
      }
    }

    method ConsumeWs()
      requires Valid()
      modifies this`it
      ensures Valid() && Now() == St(ConsumeWhitespace(old(Now()).s), old(In()))
    {
      while it < |line| && IsBlank(line[it])
        invariant Valid() && ConsumeWhitespace(line[it..]) == ConsumeWhitespace(old(line[it..]))
      {
        assert line[it..][1..] == line[it + 1..];
        it := it + 1;
      }
    }

    /** skip_whitespace_and_comments. */
    method SkipBlanks() returns (ok: bool)
      requires Valid()
      modifies this`input, this`eofbit, this`line, this`it
      ensures Valid() && ok == SkipBlank(old(Now())).Ok?
      ensures ok ==> SkipBlank(old(Now())) == Ok(Now()) && it < |line|
      ensures !ok ==> SkipBlank(old(Now())) == Err(UnclosedArray)
    {
      ConsumeWs();
      ok := true;
      assert SkipBlank(Now()) == SkipBlank(old(Now())) by {
        WhitespaceOnce(old(line[it..]));
      }
      while it == |line| || line[it] == '#'
        invariant Valid() && SkipBlank(Now()) == SkipBlank(old(Now()))
        invariant ConsumeWhitespace(line[it..]) == line[it..]
        decreases Left(Now())
      {
        ghost var before := Now();
        ok := GetLine();
        if !ok {
          return;
        }
        GetLineShrinks(before);
        assert SkipBlank(before) == SkipBlank(Now());
        ghost var newLine := Now();
        ConsumeWs();
        WhitespaceOnce(newLine.s);
        assert SkipBlank(newLine) == SkipBlank(Now());
      }
    }

    // ----- values ---------------------------------------------------------------------------

    /** parse_hex. */
    method ParseHexDigits(digits: nat) returns (r: Parsed<nat>)
      requires Valid()
      modifies this`it
      ensures Valid() && AgreesInLine(r, Now(), old(Now()), ParseHex(old(line[it..]), digits, 0))
    {
      var value: nat, left: nat := 0, digits;
      while left > 0
        invariant Valid() && left <= digits
        invariant ParseHex(line[it..], left, value) == ParseHex(old(line[it..]), digits, 0)
      {
        ghost var rest := line[it..];
        assert ParseHex(rest, left, value) == if rest == "" || !IsHex(rest[0]) then Err(InvalidUnicode)
            else ParseHex(rest[1..], left - 1, 16 * value + HexValue(rest[0]));
        if it == |line| || !IsHex(line[it]) {
          return Err(InvalidUnicode);
        }
        assert rest[1..] == line[it + 1..];
        value := 16 * value + HexValue(line[it]);
        it := it + 1;
        left := left - 1;
      }
      assert ParseHex(line[it..], 0, value) == Ok((value, line[it..]));
      r := Ok(value);
    }

    /** parse_escape_code and parse_unicode, at the backslash. */
    method ParseEscape() returns (r: Parsed<string>)
      requires Valid() && it < |line|
      modifies this`it
      ensures Valid() && AgreesInLine(r, Now(), old(Now()), ParseEscapeCode(old(line[it..])))
    {
      ghost var t := line[it..][1..];
      it := it + 1;
      assert line[it..] == t;
      if it == |line| {
        return Err(InvalidEscape);
      }
      var c := line[it];
      it := it + 1;
      assert line[it..] == t[1..];
      if c == 'u' || c == 'U' {
        var code := ParseHexDigits(if c == 'U' then 8 else 4);
        if code.Err? {
          return Err(code.error);
        }
        if 0xd7ff < code.value < 0xe000 || code.value > 0x10ffff {
          return Err(InvalidUnicode);
        }
        return Ok(UnicodeBytes(code.value));
      }
      r := if c == 'b' then Ok("\U{08}") else if c == 't' then Ok("\t") else if c == 'n' then Ok("\n")
           else if c == 'f' then Ok("\U{0C}") else if c == 'r' then Ok("\r") else if c == '\"' then Ok("\"")
           else if c == '\\' then Ok("\\") else Err(InvalidEscape);
    }

    /** string_literal, at the opening delimiter. */
    method ReadLiteral(delim: char) returns (r: Parsed<string>)
      requires Valid() && it < |line|
      modifies this`it
      ensures Valid() && AgreesInLine(r, Now(), old(Now()), StringLiteral(old(line[it..]), delim))
    {
      hide ParseEscapeCode;
      assert line[it..][1..] == line[it + 1..];
      it := it + 1;
      var val := "";
      while it < |line|
        invariant Valid()
        invariant LiteralBody(line[it..], delim, val) == StringLiteral(old(line[it..]), delim)
        decreases |line| - it
      {
        ghost var rest := line[it..];
        assert rest[1..] == line[it + 1..];
        if delim == '\"' && line[it] == '\\' {
          var c := ParseEscape();
          if c.Err? {
            return Err(c.error);
          }
          val := val + c.value;
        } else if line[it] == delim {
          it := it + 1;
          ConsumeWs();
          return Ok(val);
        } else {
          val := val + [line[it]];
          it := it + 1;
        }
      }
      r := Err(UnterminatedString);
    }

    /** The digits of parse_number: the position behind them. */
    method EatNumbers(from: nat) returns (r: Parsed<nat>)
      requires from <= |line|
      ensures match EatDigits(line[from..], false)
              case Ok(rest) => r.Ok? && r.value <= |line| && rest == line[r.value..]
              case Err(e) => r == Err(e)
    {
      var check := from;
      while check < |line| && IsNumber(line[check])
        invariant from <= check <= |line|
        invariant EatDigits(line[check..], check > from) == EatDigits(line[from..], false)
      {
        assert line[check..][1..] == line[check + 1..];
        if check + 1 < |line| && line[check + 1] == '_' {
          assert line[check..][2..] == line[check + 2..];
          if check + 2 == |line| || !IsNumber(line[check + 2]) {
            return Err(MalformedNumber);
          }
          check := check + 2;
        } else {
          check := check + 1;
        }
      }
      r := if check == from then Err(MalformedNumber) else Ok(check);
    }

    method ReadNumber() returns (r: Parsed<Value>)
      requires Valid()
      modifies this`it
      ensures Valid() && AgreesInLine(r, Now(), old(Now()), ParseNumber(old(line[it..])))
    {
      hide NumberEnd, EatDigits, Stoll, WithoutUnderscores, OtherBase, LeadingZero, IsInfOrNan;
      ghost var s := line[it..];
      var end := NumberEnd(line[it..]);
      if OtherBase(line[it..], end) {
        return Err(Unsupported);
      }
      var check := if it < |line| && (line[it] == '-' || line[it] == '+') then it + 1 else it;
      assert line[check..] == AfterSign(s);
      if LeadingZero(line[check..], end - (check - it)) {
        return Err(MalformedNumber);
      }
      if IsInfOrNan(line[check..]) {
        return Err(Unsupported);
      }
      var after := EatNumbers(check);
      if after.Err? {
        return Err(after.error);
      }
      var stop := after.value;
      assert |line[stop..]| <= |AfterSign(s)|;
      if stop < |line| && (line[stop] == '.' || line[stop] == 'e' || line[stop] == 'E') {
        return Err(Unsupported);
      }
      assert |s| - |line[stop..]| == stop - it;
      assert line[it..stop] == s[..stop - it];
      var i := Stoll(WithoutUnderscores(line[it..stop]));
      if i.Err? {
        return Err(i.error);
      }
      it := stop;
      r := Ok(Int(i.value));
    }

    method ReadBool() returns (r: Parsed<Value>)
      requires Valid()
      modifies this`it
      ensures Valid() && AgreesInLine(r, Now(), old(Now()), ParseBool(old(line[it..])))
    {
      var b := ParseBool(line[it..]);
      if b.Err? {
        return Err(b.error);
      }
      var n := |b.value.1|;
      assert line[|line| - n..] == b.value.1;
      it := |line| - n;
      r := Ok(b.value.0);
    }

    method ReadString() returns (r: Parsed<Value>)
      requires Valid() && it < |line|
      modifies this`it
      ensures Valid() && AgreesInLine(r, Now(), old(Now()), ParseString(old(line[it..])))
    {
      hide StringLiteral;
      var delim := line[it];
      if it + 2 < |line| && line[it + 1] == delim && line[it + 2] == delim {
        return Err(Unsupported);
      }
      var s := ReadLiteral(delim);
      r := if s.Ok? then Ok(Str(s.value)) else Err(s.error);
    }

    /** parse_value. */
    method ReadValue() returns (r: Parsed<Value>)
      requires Valid()
      modifies this`input, this`eofbit, this`line, this`it
      ensures Valid() && Agrees(r, Now(), ParseValue(old(Now())))
      decreases Left(Now()), 2
    {
      hide ValueType, ParseString, ParseNumber, ParseBool, ParseArray;
      var kind := ValueType(line[it..]);
      if kind.Err? {
        return Err(kind.error);
      }
      assert it < |line| by {
        TypeNeedsText(line[it..]);
      }
      match kind.value {
        case TString => r := ReadString();
        case TInt => r := ReadNumber();
        case TBool => r := ReadBool();
        case TArray => r := ReadArray();
        case _ => r := Err(Unsupported);
      }
    }

    /** parse_array, at the bracket. */
    method ReadArray() returns (r: Parsed<Value>)
      requires Valid() && it < |line|
      modifies this`input, this`eofbit, this`line, this`it
      ensures Valid() && Agrees(r, Now(), ParseArray(old(Now())))
      decreases Left(Now()), 1
    {
      hide ValueType, SkipBlank, ParseValueArray, ParseArrayArray;
      assert line[it..][1..] == line[it + 1..];
      it := it + 1;
      var ok := SkipBlanks();
      if !ok {
        return Err(UnclosedArray);
      }
      if line[it] == ']' {
        assert line[it..][1..] == line[it + 1..];
        it := it + 1;
        return Ok(Arr([]));
      }
      var kind := ValueType(line[it..][..Span(line[it..], InElement)]);
      if kind.Err? {
        return Err(kind.error);
      }
      match kind.value {
        case TString => r := ReadValueArray(KStr);
        case TInt => r := ReadValueArray(KInt);
        case TBool => r := ReadValueArray(KBool);
        case TArray => r := ReadArrayArray();
        case _ => r := Err(Unsupported);
      }
    }

    /** parse_value_array. */
    method ReadValueArray(kind: Kind) returns (r: Parsed<Value>)
      requires Valid()
      modifies this`input, this`eofbit, this`line, this`it
      ensures Valid() && Agrees(r, Now(), ParseValueArray(old(Now()), kind, []))
      decreases Left(Now()), 3
    {
      hide ParseValue, SkipBlank;
      var elems := [];
      while it < |line| && line[it] != ']'
        invariant Valid() && Left(Now()) <= old(Left(Now()))
        invariant ParseValueArray(Now(), kind, elems) == ParseValueArray(old(Now()), kind, [])
        decreases Left(Now())
      {
        var v := ReadValue();
        if v.Err? {
          return Err(v.error);
        }
        if KindOf(v.value) != kind {
          return Err(NotHomogeneous);
        }
        var ok := SkipBlanks();
        if !ok {
          return Err(UnclosedArray);
        }
        assert line[it..][1..] == line[it + 1..];
        if line[it] != ',' {
          it := it + 1;
          return Ok(Arr(elems + [v.value]));
        }
        it := it + 1;
        ok := SkipBlanks();
        if !ok {
          return Err(UnclosedArray);
        }
        elems := elems + [v.value];
      }
      if it < |line| {
        assert line[it..][1..] == line[it + 1..];
        it := it + 1;
      }
      r := Ok(Arr(elems));
    }

    /** parse_object_array for arrays. */
    method ReadArrayArray() returns (r: Parsed<Value>)
      requires Valid()
      modifies this`input, this`eofbit, this`line, this`it
      ensures Valid() && Agrees(r, Now(), ParseArrayArray(old(Now()), []))
      decreases Left(Now()), 3
    {
      hide ParseArray, SkipBlank;
      var elems := [];
      while it < |line| && line[it] != ']'
        invariant Valid() && Left(Now()) <= old(Left(Now()))
        invariant ParseArrayArray(Now(), elems) == ParseArrayArray(old(Now()), [])
        decreases Left(Now())
      {
        if line[it] != '[' {
          return Err(UnexpectedCharacterInArray);
        }
        var v := ReadArray();
        if v.Err? {
          return Err(v.error);
        }
        var ok := SkipBlanks();
        if !ok {
          return Err(UnclosedArray);
        }
        assert line[it..][1..] == line[it + 1..];
        if line[it] != ',' {
          if line[it] != ']' {
            return Err(UnterminatedArray);
          }
          it := it + 1;
          return Ok(Arr(elems + [v.value]));
        }
        it := it + 1;
        ok := SkipBlanks();
        if !ok {
          return Err(UnclosedArray);
        }
        elems := elems + [v.value];
      }
      if it == |line| {
        return Err(UnterminatedArray);
      }
      assert line[it..][1..] == line[it + 1..];
      it := it + 1;
      r := Ok(Arr(elems));
    }

    // ----- keys -----------------------------------------------------------------------------

    /** consume_backwards_whitespace from the last character before `end`. */
    method BareKeyEnd(end: nat) returns (keyEnd: nat)
      requires Valid() && it < end <= |line|
      ensures it < keyEnd <= end && line[it..keyEnd] == TrimBack(line[it..end])
    {
      keyEnd := end;
      while keyEnd - 1 != it && IsBlank(line[keyEnd - 1])
        invariant it < keyEnd <= end && TrimBack(line[it..keyEnd]) == TrimBack(line[it..end])
      {
        assert line[it..keyEnd][..keyEnd - it - 1] == line[it..keyEnd - 1];
        keyEnd := keyEnd - 1;
      }
    }

    /** parse_simple_key and parse_bare_key. */
    method ReadSimpleKey() returns (r: Parsed<string>)
      requires Valid()
      modifies this`it
      ensures Valid() && AgreesInLine(r, Now(), old(Now()), ParseSimpleKey(old(line[it..])))
    {
      hide StringLiteral, ParseBareKey, ConsumeWhitespace;
      ConsumeWs();
      if it == |line| {
        return Err(UnexpectedEndOfKey);
      }
      if line[it] == '\"' || line[it] == '\'' {
        r := ReadLiteral(line[it]);
        return;
      }
      r := ReadBareKey();
    }

    /** parse_bare_key. */
    method ReadBareKey() returns (r: Parsed<string>)
      requires Valid()
      modifies this`it
      ensures Valid()
      ensures AgreesInLine(r, Now(), old(Now()), ParseBareKey(old(line[it..]), Span(old(line[it..]), InKey)))
    {
      hide TrimBack, Span;
      var end := it + Span(line[it..], InKey);
      if end == it {
        return Err(BadBareKey);
      }
      assert line[it..][..end - it] == line[it..end] && line[it..][end - it..] == line[end..];
      var keyEnd := BareKeyEnd(end);
      var key := line[it..keyEnd];
      if '#' in key || ' ' in key || '\t' in key || '[' in key || ']' in key {
        return Err(BadBareKey);
      }
      it := end;
      r := Ok(key);
    }

    /** parse_key from the table at `start`: the last component, and the table the others lead to. */
    method ReadKey(mode: Mode, start: seq<string>) returns (r: Parsed<string>, cur: seq<string>, inserted: bool)
      requires Valid() && HasPath(root, start)
      modifies this`it, this`root
      ensures Valid()
      ensures match ParseKey(old(line[it..]), mode, Walk(old(root), start, false))
              case Ok((key, rest, w)) => r == Ok(key) && rest == line[it..] && w == Walk(root, cur, inserted)
              case Err(e) => r == Err(e)
    {
      hide ParseSimpleKey, HandlePart, ConsumeWhitespace, HasPath, ParseKey;
      cur, inserted := start, false;
      while it < |line| && line[it] != KeyEnd(mode)
        invariant Valid() && HasPath(root, cur)
        invariant ParseKey(line[it..], mode, Walk(root, cur, inserted))
               == ParseKey(old(line[it..]), mode, Walk(old(root), start, false))
        decreases |line| - it
      {
        ghost var s, w0 := line[it..], Walk(root, cur, inserted);
        assert s[0] == line[it];
        var part := ReadSimpleKey();
        if part.Err? {
          BadKeyHere(s, mode, w0);
          return Err(part.error), cur, inserted;
        }
        ConsumeWs();
        ghost var t := line[it..];
        assert t != "" ==> t[0] == line[it];
        KeyRound(s, part.value, ParseSimpleKey(s).value.1, mode, w0);
        if it == |line| || line[it] == KeyEnd(mode) {
          return Ok(part.value), cur, inserted;
        }
        if line[it] != '.' {
          return Err(UnexpectedCharacterInKey), cur, inserted;
        }
        var w := HandlePart(mode, Walk(root, cur, inserted), part.value, false);
        if w.Err? {
          return Err(w.error), cur, inserted;
        }
        root, cur, inserted := w.value.root, w.value.cur, w.value.inserted;
        assert t[1..] == line[it + 1..];
        it := it + 1;
      }
      NoKeyHere(line[it..], mode, Walk(root, cur, inserted));
      r := Err(UnexpectedEndOfKey);
    }

    // ----- lines ----------------------------------------------------------------------------

    /** parse_single_table, behind the bracket; `cur` becomes curr_table. */
    method ReadSingleTable() returns (r: Parsed<()>, cur: seq<string>)
      requires Valid()
      modifies this`it, this`root
      ensures Valid()
      ensures match ParseSingleTable(old(line[it..]), old(root))
              case Ok(w) => r == Ok(()) && root == w.root && cur == w.cur
              case Err(e) => r == Err(e)
    {
      hide ParseKey, TablePart, ConsumeWhitespace, HasPath, At;
      cur := [];
      if it == |line| || line[it] == ']' {
        return Err(EmptyTableName), cur;
      }
      EmptyPath(root);
      var key, at, inserted := ReadKey(ForTable, []);
      if key.Err? {
        return Err(key.error), cur;
      }
      var w := TablePart(Walk(root, at, inserted), key.value);
      if w.Err? {
        return Err(w.error), cur;
      }
      root, cur := w.value.root, w.value.cur;
      if it == |line| || line[it] != ']' {
        return Err(UnterminatedTable), cur;
      }
      var here := w.value.Here();
      if !w.value.inserted && (here.entries == [] || exists e :: e in here.entries && IsSingleValue(e.node)) {
        return Err(RedefinitionOfTable), cur;
      }
      assert line[it..][1..] == line[it + 1..];
      it := it + 1;
      ConsumeWs();
      r := if EolOrComment(line[it..]) then Ok(()) else Err(TrailingCharacter);
    }

    /** parse_table_array, at the second bracket. */
    method ReadTableArray() returns (r: Parsed<()>, cur: seq<string>)
      requires Valid() && it < |line|
      modifies this`it, this`root
      ensures Valid()
      ensures match ParseTableArray(old(line[it..]), old(root))
              case Ok(w) => r == Ok(()) && root == w.root && cur == w.cur
              case Err(e) => r == Err(e)
    {
      hide ParseKey, TableArrayPart, ConsumeWhitespace, HasPath, At;
      cur := [];
      assert line[it..][1..] == line[it + 1..];
      it := it + 1;
      if it == |line| || line[it] == ']' {
        return Err(EmptyTableName), cur;
      }
      EmptyPath(root);
      var key, at, inserted := ReadKey(ForTableArray, []);
      if key.Err? {
        return Err(key.error), cur;
      }
      var w := TableArrayPart(Walk(root, at, inserted), key.value, it < |line| && line[it] == ']');
      if w.Err? {
        return Err(w.error), cur;
      }
      root, cur := w.value.root, w.value.cur;
      ghost var rest := line[it..];
      if it == |line| || line[it] != ']' {
        return Err(UnterminatedTable), cur;
      }
      it := it + 1;
      if it == |line| || line[it] != ']' {
        return Err(UnterminatedTable), cur;
      }
      assert rest[2..] == line[it + 1..];
      it := it + 1;
      ConsumeWs();
      r := if EolOrComment(line[it..]) then Ok(()) else Err(TrailingCharacter);
    }

    /** parse_table, at the first bracket. */
    method ReadHeader() returns (r: Parsed<()>, cur: seq<string>)
      requires Valid() && it < |line|
      modifies this`it, this`root
      ensures Valid()
      ensures match ParseTable(old(line[it..]), old(root))
              case Ok(w) => r == Ok(()) && root == w.root && cur == w.cur
              case Err(e) => r == Err(e)
    {
      hide ParseSingleTable, ParseTableArray;
      assert line[it..][1..] == line[it + 1..];
      it := it + 1;
      if it == |line| {
        return Err(UnexpectedEndOfTable), [];
      }
      if line[it] == '[' {
        r, cur := ReadTableArray();
      } else {
        r, cur := ReadSingleTable();
      }
    }

    /** parse_key_value into the table at `cur`. */
    method ReadKeyValue(cur: seq<string>) returns (r: Parsed<()>)
      requires Valid() && HasPath(root, cur)
      modifies this
      ensures Valid()
      ensures match ParseKeyValue(old(Now()), old(root), cur)
              case Ok((root', st)) => r == Ok(()) && root == root' && Now() == st
              case Err(e) => r == Err(e)
    {
      hide ParseKey, ParseValue, ConsumeWhitespace, HasPath, At, With, Contains, Insert;
      var key, at, inserted := ReadKey(ForItem, cur);
      if key.Err? {
        return Err(key.error);
      }
      if Contains(At(root, at), key.value) {
        return Err(KeyAlreadyPresent);
      }
      if it == |line| || line[it] != '=' {
        return Err(MissingEquals);
      }
      assert line[it..][1..] == line[it + 1..];
      it := it + 1;
      ConsumeWs();
      var v := ReadValue();
      if v.Err? {
        return Err(v.error);
      }
      root := With(root, at, Insert(At(root, at), key.value, Leaf(v.value)));
      ConsumeWs();
      r := Ok(());
    }

    /** One line of parse(). */
    method ReadLine(cur: seq<string>) returns (r: Parsed<seq<string>>)
      requires Valid() && HasPath(root, cur)
      modifies this
      ensures Valid()
      ensures match ParseLine(old(Now()), old(root), cur)
              case Ok((root', cur', inp)) => r == Ok(cur') && root == root' && In() == inp
              case Err(e) => r == Err(e)
    {
      hide ParseTable, ParseKeyValue, ConsumeWhitespace, HasPath;
      ConsumeWs();
      if it == |line| || line[it] == '#' {
        return Ok(cur);
      }
      if line[it] == '[' {
        var h, next := ReadHeader();
        return if h.Ok? then Ok(next) else Err(h.error);
      }
      var kv := ReadKeyValue(cur);
      if kv.Err? {
        return Err(kv.error);
      }
      ConsumeWs();
      r := if EolOrComment(line[it..]) then Ok(cur) else Err(TrailingCharacter);
    }

    /** parse(). */
    method ParseAll() returns (r: Parsed<Table>)
      requires Valid() && root == EMPTY_TABLE
      modifies this
      ensures r == ParseLines(old(In()), EMPTY_TABLE, [])
    {
      hide ParseLine, HasPath;
      var cur: seq<string> := [];
      EmptyPath(root);
      while true
        invariant Valid() && HasPath(root, cur)
        invariant ParseLines(In(), root, cur) == ParseLines(old(In()), EMPTY_TABLE, [])
        decreases InputLeft(In())
      {
        ghost var before := In();
        var ok := GetLine();
        if !ok {
          return Ok(root);
        }
        GetLineShrinks(St("", before));
        assert line[0..] == line;
        ghost var rootBefore, st := root, Now();
        var next := ReadLine(cur);
        if next.Err? {
          return Err(next.error);
        }
        assert ParseLine(st, rootBefore, cur) == Ok((root, next.value, In()));
        cur := next.value;
      }
    }
  }

  /** Parse a whole text with a new parser object. */
  method ParseText(text: string) returns (r: Parsed<Table>)
    ensures r == Parse(text)
  {
    var parser := new TomlParser(text);
    r := parser.ParseAll();
  }

  lemma BehindMore(line: string, c: char, r: (string, string, bool))
    ensures Behind(line, Behind([c], r)) == Behind(line + [c], r)
  {
    assert line + ([c] + r.0) == line + [c] + r.0;
  }

  lemma NoKeyHere(s: string, mode: Mode, w: Walk)
    requires w.Valid() && (s == "" || s[0] == KeyEnd(mode))
    ensures ParseKey(s, mode, w) == Err(UnexpectedEndOfKey)
  {
  }

  lemma BadKeyHere(s: string, mode: Mode, w: Walk)
    requires w.Valid() && s != "" && s[0] != KeyEnd(mode) && ParseSimpleKey(s).Err?
    ensures ParseKey(s, mode, w) == Err(ParseSimpleKey(s).error)
  {
    hide ParseSimpleKey, HandlePart, HasPath;
  }

  lemma EmptyPath(t: Table)
    ensures HasPath(t, [])
  {
  }

  lemma WhitespaceOnce(s: string)
    ensures ConsumeWhitespace(ConsumeWhitespace(s)) == ConsumeWhitespace(s)
  {
  }

  lemma TypeNeedsText(s: string)
    requires ValueType(s).Ok?
    ensures s != ""
  {
  }
}
