/** What the lines of a configuration mean to ConfigBase::from_config of ssar/CLI11.hpp, as texts: headers, entries,
    flags and comments, with white space anywhere around their parts. */
module ConfigLines {
  import opened ConfigSections
  import opened ConfigReader

  predicate AllSpace(s: string) {
    forall i :: 0 <= i < |s| ==> IsSpace(s[i])
  }

  /** No white space at either end. */
  predicate IsTrimmed(s: string) {
    s == "" || (!IsSpace(s[0]) && !IsSpace(s[|s| - 1]))
  }

  lemma {:induction false} PaddingGoes(p: string, w: string, v: string)
    requires AllSpace(p) && IsTrimmed(w) && AllSpace(v)
    ensures Trim(p + w + v) == w
  {
    hide IsSpace;
    var s := p + w;
    if w != "" {
      assert s[|s| - 1] == w[|w| - 1];
      RightGoes(s, v);
      LeftGoes(p, w);
    } else {
      AllSpaceGoes(p + v);
      assert p + w + v == p + v;
    }
  }

  lemma {:induction false} RightGoes(s: string, v: string)
    requires AllSpace(v) && s != "" && !IsSpace(s[|s| - 1])
    ensures TrimRight(s + v) == s
  {
    hide IsSpace;
    if v == "" {
      assert s + v == s;
    } else {
      assert (s + v)[|s + v| - 1] == v[|v| - 1] && (s + v)[..|s + v| - 1] == s + v[..|v| - 1];
      RightGoes(s, v[..|v| - 1]);
    }
  }

  lemma {:induction false} LeftGoes(p: string, w: string)
    requires AllSpace(p) && w != "" && !IsSpace(w[0])
    ensures TrimLeft(p + w) == w
  {
    hide IsSpace;
    if p == "" {
      assert p + w == w;
    } else {
      assert (p + w)[0] == p[0] && (p + w)[1..] == p[1..] + w;
      LeftGoes(p[1..], w);
    }
  }

  lemma {:induction false} AllSpaceGoes(s: string)
    requires AllSpace(s)
    ensures Trim(s) == ""
    decreases |s|
  {
    hide IsSpace;
    if s != "" {
      AllSpaceGoes(s[..|s| - 1]);
    }
  }

  /** Every line is its trimmed text with white space around it. */
  lemma {:induction false} TrimParts(s: string) returns (p: string, v: string)
    ensures s == p + Trim(s) + v && AllSpace(p) && AllSpace(v) && IsTrimmed(Trim(s))
    decreases |s|
  {
    hide IsSpace;
    if s != "" && IsSpace(s[|s| - 1]) {
      p, v := TrimParts(s[..|s| - 1]);
      v := v + [s[|s| - 1]];
      assert s == s[..|s| - 1] + [s[|s| - 1]];
    } else {
      v := "";
      p := LeftParts(s);
      assert p + TrimLeft(s) + "" == p + TrimLeft(s);
    }
  }

  lemma {:induction false} LeftParts(s: string) returns (p: string)
    requires s != "" ==> !IsSpace(s[|s| - 1])
    ensures s == p + TrimLeft(s) && AllSpace(p) && IsTrimmed(TrimLeft(s))
  {
    hide IsSpace, TrimLeft, IsTrimmed;
    LeftStep(s);
    if s != "" && IsSpace(s[0]) {
      var q := LeftParts(s[1..]);
      p := [s[0]] + q;
      assert s == [s[0]] + s[1..];
    } else {
      p := "";
    }
  }

  lemma LeftStep(s: string)
    requires s != "" ==> !IsSpace(s[|s| - 1])
    ensures if s != "" && IsSpace(s[0]) then TrimLeft(s) == TrimLeft(s[1..])
            else TrimLeft(s) == s && IsTrimmed(s)
  {
    hide IsSpace;
  }

  lemma {:induction false} FindIsFirst(a: string, c: char, b: string)
    requires c !in a
    ensures Find(a + [c] + b, c) == |a| && Find(a, c) == |a|
  {
    var s := a + [c] + b;
    if a != "" {
      assert s[0] == a[0] && s[1..] == a[1..] + [c] + b && a[0] != c;
      assert c !in a[1..];
      FindIsFirst(a[1..], c, b);
    } else {
      assert s[0] == c;
    }
  }

  // ----- lines --------------------------------------------------------------------------------

  predicate InBrackets(s: string) {
    |s| > 1 && s[0] == '[' && s[|s| - 1] == ']'
  }

  predicate IsComment(s: string, f: Format) {
    s != "" && (s[0] == ';' || s[0] == '#' || s[0] == f.comment)
  }

  predicate InQuotes(s: string) {
    |s| > 1 && (s[0] == '\"' || s[0] == '\'') && s[0] == s[|s| - 1]
  }

  /** A name keeps its quotes if it has a dot; its parts then lose theirs. */
  predicate IsName(written: string, name: string) {
    if '.' !in written && InQuotes(written) then written == [written[0]] + name + [written[0]] else written == name
  }

  lemma NameIs(written: string, name: string)
    requires IsName(written, name)
    ensures (if '.' in written then written else RemoveQuotes(written)) == name
  {
  }

  /** [s] is the header of s, and so is [[s]]. */
  lemma HeaderIsRead(p: string, s: string, double: bool, v: string, f: Format)
    requires AllSpace(p) && AllSpace(v) && (!double ==> !InBrackets(s))
    ensures ReadLine(p + (if double then "[[" + s + "]]" else "[" + s + "]") + v, f) == Header(s)
  {
    hide Find, Trim;
    if double {
      PaddingGoes(p, "[[" + s + "]]", v);
      assert ("[[" + s + "]]")[1..|s| + 3] == "[" + s + "]";
      assert ("[" + s + "]")[1..|s| + 1] == s;
    } else {
      PaddingGoes(p, "[" + s + "]", v);
      assert ("[" + s + "]")[1..|s| + 1] == s;
    }
  }

  /** Empty lines and comments are skipped. */
  lemma BlankIsRead(p: string, s: string, v: string, f: Format)
    requires AllSpace(p) && AllSpace(v) && IsTrimmed(s)
    requires s == "" || (IsComment(s, f) && !InBrackets(s))
    ensures ReadLine(p + s + v, f) == Blank
  {
    hide Find, Trim;
    PaddingGoes(p, s, v);
  }

  /** The line of an entry, trimmed. */
  function EntryText(written: string, q: string, d: char, u: string, w: string): string {
    written + (if written == "" then "" else q) + [d] + (if w == "" then "" else u) + w
  }

  /** A name, the delimiter, and a text: white space around them does not matter. */
  lemma EntryIsRead(p: string, written: string, q: string, u: string, w: string, v: string, f: Format, name: string)
    requires AllSpace(p) && AllSpace(q) && AllSpace(u) && AllSpace(v) && IsTrimmed(written) && IsTrimmed(w)
    requires f.delimiter !in written && IsName(written, name)
    requires IsSpace(f.delimiter) ==> written != "" && w != ""
    requires var line := EntryText(written, q, f.delimiter, u, w); !InBrackets(line) && !IsComment(line, f)
    ensures ReadLine(p + written + q + [f.delimiter] + u + w + v, f) == Entry(name, f.values(w))
  {
    hide IsSpace, Find, Trim, InBrackets, IsComment, IsName, IsTrimmed, EntryText, AllSpace;
    EntryLine(p, written, q, f.delimiter, u, w, v);
    var n := SplitEntry(written, q, f.delimiter, u, w);
    NameIs(written, name);
    EntryFound(p + written + q + [f.delimiter] + u + w + v, EntryText(written, q, f.delimiter, u, w), n, f);
  }

  lemma SplitEntry(written: string, q: string, d: char, u: string, w: string) returns (n: nat)
    requires AllSpace(q) && AllSpace(u) && IsTrimmed(written) && IsTrimmed(w) && d !in written
    requires IsSpace(d) ==> written != "" && w != ""
    ensures var line := EntryText(written, q, d, u, w);
            n < |line| && Find(line, d) == n && Trim(line[..n]) == written && Trim(line[n + 1..]) == w
  {
    hide IsSpace, Find, Trim, IsTrimmed;
    var before, after := (if written == "" then "" else q), (if w == "" then "" else u);
    var a, b := FirstIn(before, d, after);
    assert EntryText(written, q, d, u, w) == written + (before + [d] + after) + w;
    assert written + a + [d] + b + w == written + (a + [d] + b) + w;
    SplitThere(written, a, d, b, w);
    n := |written| + |a|;
  }

  /** The two texts beside the first delimiter. */
  lemma SplitThere(written: string, a: string, d: char, b: string, w: string)
    requires AllSpace(a) && AllSpace(b) && IsTrimmed(written) && IsTrimmed(w) && d !in written && d !in a
    ensures var line, n := written + a + [d] + b + w, |written| + |a|;
            Find(line, d) == n && Trim(line[..n]) == written && Trim(line[n + 1..]) == w
  {
    hide IsSpace, Find, Trim, IsTrimmed;
    var line, n := written + a + [d] + b + w, |written| + |a|;
    assert line == (written + a) + [d] + (b + w);
    FindIsFirst(written + a, d, b + w);
    assert line[..n] == "" + written + a;
    assert line[n + 1..] == b + w + "";
    PaddingGoes("", written, a);
    PaddingGoes(b, w, "");
  }

  lemma EntryFound(raw: string, line: string, pos: nat, f: Format)
    requires Trim(raw) == line && !InBrackets(line) && !IsComment(line, f) && line != ""
    requires Find(line, f.delimiter) == pos < |line|
    ensures var name := Trim(line[..pos]);
            ReadLine(raw, f) == Entry(if '.' in name then name else RemoveQuotes(name), f.values(Trim(line[pos + 1..])))
  {
    hide Find, Trim;
  }

  /** Where the delimiter comes first in white space with the delimiter. */
  lemma FirstIn(before: string, d: char, after: string) returns (a: string, b: string)
    requires AllSpace(before) && AllSpace(after) && (!IsSpace(d) ==> d !in before)
    ensures before + [d] + after == a + [d] + b && d !in a && AllSpace(a) && AllSpace(b)
  {
    hide IsSpace;
    if d !in before {
      a, b := before, after;
    } else {
      var k := 0;
      while before[k] != d
        invariant k < |before| && d in before[k..] && d !in before[..k]
        decreases |before| - k
      {
        assert before[k..] == [before[k]] + before[k + 1..];
        assert before[..k + 1] == before[..k] + [before[k]];
        k := k + 1;
      }
      a, b := before[..k], before[k + 1..] + [d] + after;
      assert before == a + [d] + before[k + 1..];
    }
  }

  lemma EntryLine(p: string, written: string, q: string, d: char, u: string, w: string, v: string)
    requires AllSpace(p) && AllSpace(q) && AllSpace(u) && AllSpace(v) && IsTrimmed(written) && IsTrimmed(w)
    requires IsSpace(d) ==> written != "" && w != ""
    ensures Trim(p + written + q + [d] + u + w + v)
         == EntryText(written, q, d, u, w)
  {
    hide IsSpace;
    var front, back := (if written == "" then p + q else p), (if w == "" then u + v else v);
    var line := EntryText(written, q, d, u, w);
    assert p + written + q + [d] + u + w + v == front + line + back;
    assert line[0] == if written == "" then d else written[0];
    assert line[|line| - 1] == if w == "" then d else w[|w| - 1];
    PaddingGoes(front, line, back);
  }

  /** A name alone stands for true. */
  lemma FlagIsRead(p: string, written: string, v: string, f: Format, name: string)
    requires AllSpace(p) && AllSpace(v) && IsTrimmed(written) && written != ""
    requires f.delimiter !in written && IsName(written, name) && !InBrackets(written) && !IsComment(written, f)
    ensures ReadLine(p + written + v, f) == Entry(name, ["true"])
  {
    hide Find, Trim, IsName, IsSpace;
    PaddingGoes(p, written, v);
    assert "" + written + "" == written;
    PaddingGoes("", written, "");
    FindIsFirst(written, f.delimiter, "");
    NameIs(written, name);
  }

  /** The section `default`, in upper or lower case, is none. */
  lemma DefaultIff(section: string)
    ensures IsDefault(section) <==>
              |section| == 7 &&
              forall i :: 0 <= i < 7 ==> section[i] == "default"[i] || section[i] == "DEFAULT"[i]
  {
    var low := ToLower(section);
    assert IsDefault(section) <==> |low| == 7 && forall i :: 0 <= i < 7 ==> low[i] == "default"[i];
    if |section| == 7 {
      forall i | 0 <= i < 7
        ensures low[i] == "default"[i] <==> section[i] == "default"[i] || section[i] == "DEFAULT"[i]
      {
      }
    }
  }
  // ----- paths --------------------------------------------------------------------------------

  predicate AllNoDots(ps: seq<string>) {
    forall i :: 0 <= i < |ps| ==> NoDot(ps[i])
  }

  /** Splitting undoes joining, unless the last part is empty. */
  lemma {:induction false} SplitUndoesJoin(ps: seq<string>)
    requires ps != [] && AllNoDots(ps) && ps[|ps| - 1] != ""
    ensures Split(Join(ps)) == ps && Join(ps) != ""
    decreases |ps|
  {
    hide Split;
    var p := ps[0];
    if |ps| == 1 {
      PieceOf(p, "");
      assert p + "" == p;
      FirstPiece(p);
      assert Split("") == [] by {
        SplitNothing();
      }
    } else {
      var rest := Join(ps[1..]);
      SplitUndoesJoin(ps[1..]);
      PieceOf(p, "." + rest);
      assert Join(ps) == p + ("." + rest);
      FirstPiece(Join(ps));
      assert Join(ps)[..|p|] == p && Join(ps)[|p| + 1..] == rest;
      assert ps == [p] + ps[1..];
    }
  }

  lemma SplitNothing()
    ensures Split("") == []
  {
  }

  lemma {:induction false} PieceOf(p: string, rest: string)
    requires NoDot(p) && (rest == "" || rest[0] == '.')
    ensures Piece(p + rest) == |p|
  {
    if p == "" {
      assert p + rest == rest;
    } else {
      assert (p + rest)[0] == p[0] && (p + rest)[1..] == p[1..] + rest;
      PieceOf(p[1..], rest);
    }
  }

  /** The parts of a section or name, as written and without quotes. */
  predicate AreNames(written: seq<string>, names: seq<string>) {
    |written| == |names| > 0 && AllNoDots(written) && written[|written| - 1] != "" &&
    forall i :: 0 <= i < |names| ==> IsName(written[i], names[i])
  }

  lemma QuotesGo(written: seq<string>, names: seq<string>)
    requires AllNoDots(written) && |written| == |names| && forall i :: 0 <= i < |names| ==> IsName(written[i], names[i])
    ensures RemoveAllQuotes(written) == names
  {
    forall i | 0 <= i < |names| ensures RemoveQuotes(written[i]) == names[i] {
      NameIs(written[i], names[i]);
    }
  }

  lemma JoinHasDot(ps: seq<string>)
    requires ps != [] && AllNoDots(ps)
    ensures '.' in Join(ps) <==> |ps| > 1
  {
    if |ps| > 1 {
      assert Join(ps)[|ps[0]|] == '.';
    }
  }

  /** The path of a section is its parts, without the quotes around them. */
  lemma SectionPath(written: seq<string>, names: seq<string>)
    requires AreNames(written, names) && !IsDefault(Join(written))
    ensures Path(Join(written)) == names
  {
    hide Split, IsDefault, IsName;
    JoinHasDot(written);
    SplitUndoesJoin(written);
    QuotesGo(written, names);
    if |written| == 1 {
      assert written[0] + "" == written[0];
      assert [Join(written)] == written;
    }
  }

  /** A dotted name of an entry is the path of its leading parts and its last part, all without quotes. */
  lemma DottedName(section: string, written: seq<string>, names: seq<string>)
    requires AreNames(written, names) && |names| > 1
    ensures var n := |names| - 1;
            GenerateParents(section, Join(written)) == (Path(section) + names[..n], names[n])
  {
    hide Split, IsDefault, IsName, GenerateParents, Path;
    var n := |names| - 1;
    JoinHasDot(written);
    SplitUndoesJoin(written);
    QuotesGo(written[..n], names[..n]);
    QuotesGo(written[n..], names[n..]);
    assert RemoveAllQuotes(written[n..])[0] == RemoveQuotes(written[n]);
    PartsOfName(section, Join(written));
  }
}
