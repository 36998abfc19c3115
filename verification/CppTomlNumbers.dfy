/** Decimal integers in a text for ssar/cpptoml.h: a sign, digits, and single underscores between digits. */
module CppTomlNumbers {
  import opened Wrappers
  import opened CppTomlText
  import opened CppTomlTree
  import opened CppTomlParser
  import opened CppTomlRoundTrip

  /** What may stand behind a plain value: nothing, a comma, a bracket or a comment, with blanks in front of it. */
  predicate EndsPlain(tail: string) {
    var t := ConsumeWhitespace(tail);
    t == "" || t[0] == ',' || t[0] == ']' || t[0] == '#'
  }

  /** Groups of digits. */
  predicate AllGroups(groups: seq<string>) {
    forall i :: 0 <= i < |groups| ==> groups[i] != "" && AllDigits(groups[i])
  }

  /** The groups with underscores between them. */
  function Joined(groups: seq<string>): (d: string)
    requires AllGroups(groups)
    ensures groups != [] ==> d != "" && IsNumber(d[0])
  {
    if groups == [] then "" else groups[0] + if |groups| == 1 then "" else "_" + Joined(groups[1..])
  }

  function Concat(groups: seq<string>): (d: string)
    requires AllGroups(groups)
    ensures AllDigits(d) && (groups != [] ==> d != "")
  {
    if groups == [] then "" else groups[0] + Concat(groups[1..])
  }

  predicate IsDigitOrScore(c: char) {
    IsNumber(c) || c == '_'
  }

  lemma {:induction false} JoinedChars(groups: seq<string>)
    requires AllGroups(groups) && groups != []
    ensures var d := Joined(groups);
            d != "" && IsNumber(d[0]) && forall i :: 0 <= i < |d| ==> IsDigitOrScore(d[i])
  {
    if |groups| > 1 {
      JoinedChars(groups[1..]);
    }
  }

  lemma {:induction false} ScoresGo(groups: seq<string>)
    requires AllGroups(groups)
    ensures WithoutUnderscores(Joined(groups)) == Concat(groups)
  {
    if groups != [] {
      var rest := if |groups| == 1 then "" else "_" + Joined(groups[1..]);
      DigitsStay(groups[0], rest);
      hide WithoutUnderscores;
      if |groups| > 1 {
        ScoresGo(groups[1..]);
        OneScore(Joined(groups[1..]));
      } else {
        assert Concat(groups[1..]) == "";
        NoScore();
      }
    }
  }

  lemma OneScore(s: string)
    ensures WithoutUnderscores("_" + s) == WithoutUnderscores(s)
  {
    assert ("_" + s)[1..] == s;
  }

  lemma NoScore()
    ensures WithoutUnderscores("") == ""
  {
  }

  lemma {:induction false} DigitsStay(d: string, rest: string)
    requires forall i :: 0 <= i < |d| ==> d[i] != '_'
    ensures WithoutUnderscores(d + rest) == d + WithoutUnderscores(rest)
  {
    if d == "" {
      assert d + rest == rest;
    } else {
      assert (d + rest)[1..] == d[1..] + rest;
      DigitsStay(d[1..], rest);
    }
  }

  /** The digits of the groups are eaten up to what follows. */
  lemma {:induction false} GroupsAreEaten(groups: seq<string>, tail: string, any: bool)
    requires AllGroups(groups) && groups != [] && EndsPlain(tail)
    ensures EatDigits(Joined(groups) + tail, any) == Ok(tail)
    decreases |groups|
  {
    hide EatDigits;
    TailStops(tail);
    var rest := if |groups| == 1 then tail else "_" + (Joined(groups[1..]) + tail);
    assert Joined(groups) + tail == groups[0] + rest;
    if |groups| > 1 {
      JoinedChars(groups[1..]);
      GroupsAreEaten(groups[1..], tail, true);
      assert rest[1..] == Joined(groups[1..]) + tail;
      GroupIsEaten(groups[0], rest, any);
    } else {
      GroupIsEaten(groups[0], tail, any);
    }
  }

  lemma TailStops(tail: string)
    requires EndsPlain(tail)
    ensures tail != "" ==> tail[0] in {' ', '\t', ',', ']', '#'}
    ensures |tail| > 1 && tail[0] == ' ' ==> !IsNumber(tail[1])
  {
    if tail != "" && IsBlank(tail[0]) && |tail| > 1 {
      assert ConsumeWhitespace(tail) == ConsumeWhitespace(tail[1..]);
    }
  }

  /** One group: before a single underscore and a digit, or at the end. */
  lemma {:induction false} GroupIsEaten(d: string, rest: string, any: bool)
    requires d != "" && AllDigits(d)
    requires rest == "" || (!IsNumber(rest[0]) && rest[0] != '_') || (rest[0] == '_' && |rest| > 1 && IsNumber(rest[1]))
    ensures EatDigits(d + rest, any) == if rest != "" && rest[0] == '_' then EatDigits(rest[1..], true) else Ok(rest)
    decreases |d|
  {
    var s := d + rest;
    assert s[0] == d[0] && s[1..] == d[1..] + rest;
    if |d| == 1 {
      assert s[1..] == rest;
      if rest != "" && rest[0] == '_' {
        assert s[2..] == rest[1..] && s[2] == rest[1];
      } else {
        assert EatDigits(s, any) == EatDigits(rest, true);
      }
    } else {
      assert s[1] == d[1];
      GroupIsEaten(d[1..], rest, true);
    }
  }

  // ----- the number -----------------------------------------------------------------------------

  predicate IsSign(sign: string) {
    sign == "" || sign == "+" || sign == "-"
  }

  /** Digits and underscores, behind a sign. */
  predicate IsNumberText(sign: string, d: string) {
    IsSign(sign) && d != "" && IsNumber(d[0]) && forall i :: 0 <= i < |d| ==> IsDigitOrScore(d[i])
  }

  lemma NumberParts(sign: string, d: string, tail: string)
    requires IsNumberText(sign, d)
    ensures sign + d + tail == (sign + d) + tail && AfterSign(sign + d + tail) == d + tail
    ensures forall i :: 0 <= i < |sign + d| ==> IsNumberPart((sign + d)[i])
    ensures (sign + d)[|sign|..] == d && (sign != "" ==> (sign + d)[0] == sign[0])
  {
    var s := sign + d + tail;
    if sign == "" {
      assert s == d + tail && s[0] == d[0];
    } else {
      assert s[0] == sign[0] && s[1..] == d + tail;
    }
  }

  /** A sign and groups of digits, in front of something else. */
  lemma NumberEndsThere(sign: string, d: string, tail: string)
    requires IsNumberText(sign, d) && EndsPlain(tail)
    ensures NumberEnd(sign + d + tail) == |sign + d|
  {
    hide IsNumberText, AfterSign, EndsPlain, IsNumberPart;
    var s := (sign + d) + tail;
    NumberParts(sign, d, tail);
    TailStops(tail);
    NoPart(tail);
    SpanOf(sign + d, tail, IsNumberPart);
    assert s[|sign + d|..] == tail;
  }

  lemma NoPart(tail: string)
    requires tail != "" ==> tail[0] in {' ', '\t', ',', ']', '#'}
    ensures tail == "" || (!IsNumberPart(tail[0]) && !IsInfOrNan(tail))
  {
  }

  lemma NumberIsNoTime(sign: string, d: string, tail: string)
    requires IsNumberText(sign, d) && EndsPlain(tail)
    ensures !IsTime(sign + d + tail)
  {
    hide EndsPlain;
    var t, s := sign + d, sign + d + tail;
    TailStops(tail);
    SpanAtMost(t, tail, IsTimeChar);
    assert s == t + tail;
    assert |t| > 2 ==> s[2] == t[2];
  }

  lemma {:induction false} SpanAtMost(a: string, b: string, p: char -> bool)
    requires b == "" || !p(b[0])
    ensures Span(a + b, p) <= |a|
  {
    if a == "" {
      assert a + b == b;
    } else {
      assert (a + b)[1..] == a[1..] + b;
      SpanAtMost(a[1..], b, p);
    }
  }

  lemma NumberIsNoDate(sign: string, d: string, tail: string)
    requires IsNumberText(sign, d) && EndsPlain(tail)
    ensures !IsDate(sign + d + tail)
  {
    hide EndsPlain;
    var t, s := sign + d, sign + d + tail;
    assert s == t + tail;
    TailStops(tail);
    DateEndsThere(t, tail);
    assert |t| > 4 ==> s[4] == t[4];
  }

  lemma DateEndsThere(t: string, tail: string)
    requires ' ' !in t
    requires tail != "" ==> tail[0] in {' ', '\t', ',', ']', '#'}
    requires |tail| > 1 && tail[0] == ' ' ==> !IsNumber(tail[1])
    ensures DateEnd(t + tail) <= |t|
  {
    var s := t + tail;
    SpanAtMost(t, tail, IsDateChar);
    var n := Span(s, IsDateChar);
    assert n < |s| ==> s[n] == if n < |t| then t[n] else tail[0];
    assert |t| + 1 < |s| ==> s[|t| + 1] == tail[1];
    assert s[n..] == t[n..] + tail;
    SpanAtMost(t[n..], tail, IsDateTailChar);
  }

  lemma NumberIsInt(sign: string, d: string, tail: string)
    requires IsNumberText(sign, d) && EndsPlain(tail)
    ensures ValueType(sign + d + tail) == Ok(TInt)
  {
    hide IsTime, IsDate, EndsPlain;
    NumberIsNoTime(sign, d, tail);
    NumberIsNoDate(sign, d, tail);
    TailStops(tail);
    var s := sign + d + tail;
    var t := d + tail;
    SpanAtMost(d, tail, IsNumber);
    var n := Span(t, IsNumber);
    assert n < |t| ==> t[n] == if n < |d| then d[n] else tail[0];
    if sign == "" {
      assert s == t;
    } else {
      assert s[0] == sign[0] && s[1..] == t;
    }
    assert t[0] == d[0];
  }

  function Signed(sign: string, n: int): int {
    if sign == "-" then -n else n
  }

  /** A number is the integer of its digits, if that has 64 bits; a zero in front of other digits is an error. */
  lemma NumberIsRead(sign: string, groups: seq<string>, tail: string)
    requires IsSign(sign) && AllGroups(groups) && groups != [] && EndsPlain(tail)
    ensures ValueType(sign + Joined(groups) + tail) == Ok(TInt)
    ensures var d := Joined(groups);
            var i := Signed(sign, DigitsValue(Concat(groups)));
            ParseNumber(sign + d + tail)
            == if d[0] == '0' && |d| > 1 then Err(MalformedNumber)
               else if IsInt64(i) then Ok((Int(i), tail)) else Err(NumberOutOfRange)
  {
    hide EndsPlain, NumberEnd, EatDigits, Joined, Concat, Stoll, DigitsValue, WithoutUnderscores, IsSign, IsNumberText;
    hide OtherBase, LeadingZero, IsInfOrNan, AfterSign;
    var d := Joined(groups);
    var s := sign + d + tail;
    JoinedChars(groups);
    MakesNumber(sign, d);
    NumberIsInt(sign, d, tail);
    NumberEndsThere(sign, d, tail);
    NumberParts(sign, d, tail);
    NumberStarts(sign, d, tail);
    TailStops(tail);
    GroupsAreEaten(groups, tail, false);
    StollIs(sign, groups);
    assert s[..|s| - |tail|] == sign + d;
  }

  lemma MakesNumber(sign: string, d: string)
    requires IsSign(sign) && d != "" && IsNumber(d[0]) && forall i :: 0 <= i < |d| ==> IsDigitOrScore(d[i])
    ensures IsNumberText(sign, d)
  {
  }

  /** How a number starts: with no other base, and with a leading zero if there is one. */
  lemma NumberStarts(sign: string, d: string, tail: string)
    requires IsNumberText(sign, d)
    ensures var s := sign + d + tail;
            !OtherBase(s, |sign + d|) && !IsInfOrNan(d + tail) &&
            (LeadingZero(d + tail, |sign + d| - (|s| - |d + tail|)) <==> d[0] == '0' && |d| > 1)
  {
    var s, t := sign + d + tail, d + tail;
    assert s[0] == (sign + d)[0] && t[0] == d[0];
    assert |d| > 1 ==> t[1] == d[1];
    assert |sign + d| > 1 ==> s[1] == (sign + d)[1];
  }

  lemma StollIs(sign: string, groups: seq<string>)
    requires IsSign(sign) && AllGroups(groups) && groups != []
    ensures var i := Signed(sign, DigitsValue(Concat(groups)));
            Stoll(WithoutUnderscores(sign + Joined(groups))) == if IsInt64(i) then Ok(i) else Err(NumberOutOfRange)
  {
    hide Joined, Concat, DigitsValue, WithoutUnderscores;
    JoinedChars(groups);
    ScoresGo(groups);
    DigitsStay(sign, Joined(groups));
    var v := sign + Concat(groups);
    if sign == "" {
      assert v == Concat(groups);
    } else {
      assert v[0] == sign[0] && v[1..] == Concat(groups);
    }
  }
}
