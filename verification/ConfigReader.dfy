/** ConfigBase::from_config and checkParentSegments of ssar/CLI11.hpp, which push to and pop from their output
    line by line. */
module ConfigReader {
  import opened ConfigSections

  /** The characters of a ConfigBase; `values` splits the text behind the delimiter and removes the quotes. */
  datatype Format = Format(comment: char, delimiter: char, values: string -> seq<string>)

  predicate IsSpace(c: char) {
    c == ' ' || '\t' <= c <= '\r'
  }

  function TrimLeft(s: string): string {
    if s != "" && IsSpace(s[0]) then TrimLeft(s[1..]) else s
  }

  function TrimRight(s: string): string {
    if s != "" && IsSpace(s[|s| - 1]) then TrimRight(s[..|s| - 1]) else s
  }

  function Trim(s: string): string {
    TrimLeft(TrimRight(s))
  }

  function Find(s: string, c: char): (n: nat)
    ensures n <= |s|
  {
    if s == "" || s[0] == c then 0 else 1 + Find(s[1..], c)
  }

  /** `s` without one pair of brackets around it. */
  function Bare(s: string): string {
    if |s| > 1 && s[0] == '[' && s[|s| - 1] == ']' then s[1..|s| - 1] else s
  }

  /** What a line of the text is. */
  function ReadLine(raw: string, f: Format): Line {
    var line := Trim(raw);
    if |line| > 1 && line[0] == '[' && line[|line| - 1] == ']' then Header(Bare(line[1..|line| - 1]))
    else if line == "" || line[0] == ';' || line[0] == '#' || line[0] == f.comment then Blank
    else
      var pos := Find(line, f.delimiter);
      var name := if pos < |line| then Trim(line[..pos]) else Trim(line);
      Entry(if '.' in name then name else RemoveQuotes(name),
            if pos < |line| then f.values(Trim(line[pos + 1..])) else ["true"])
  }

  function ReadLines(text: seq<string>, f: Format): (lines: seq<Line>)
    ensures |lines| == |text|
  {
    seq(|text|, i requires 0 <= i < |text| => ReadLine(text[i], f))
  }

  class Config {
    const format: Format
    var output: seq<ConfigItem>
    var section: string

    constructor (f: Format)
      ensures format == f && Now() == Reader([], "default")
    {
      format, output, section := f, [], "default";
    }

    function Now(): Reader
      reads this
    {
      Reader(output, section)
    }

    method Emplace(parents: seq<string>, name: string, inputs: seq<string>)
      modifies this`output
      ensures output == old(output) + [ConfigItem(parents, name, inputs)]
    {
      output := output + [ConfigItem(parents, name, inputs)];
    }

    /** The loops that repeat the last item with one parent fewer. */
    method CloseWhile(size: nat)
      requires output != [] && size >= 1
      modifies this`output
      ensures output == CloseDown(old(output), size)
    {
      while |Last(output).parents| >= size
        invariant output != [] && CloseDown(output, size) == CloseDown(old(output), size)
        decreases |Last(output).parents|
      {
        var back := Last(output);
        Emplace(back.parents[..|back.parents| - 1], back.name, back.inputs);
      }
    }

    /** The loops that open the parents of a section. */
    method OpenParents(parents: seq<string>, from: nat)
      requires parents != [] && from <= |parents| - 1
      modifies this`output
      ensures output == old(output) + Opens(parents, from, |parents| - 1)
    {
      var ii := from;
      while ii < |parents| - 1
        invariant from <= ii <= |parents| - 1
        invariant output + Opens(parents, ii, |parents| - 1) == old(output) + Opens(parents, from, |parents| - 1)
      {
        assert output + ([Open(parents[..ii + 1])] + Opens(parents, ii + 1, |parents| - 1))
            == output + [Open(parents[..ii + 1])] + Opens(parents, ii + 1, |parents| - 1);
        Emplace(parents[..ii + 1], "++", []);
        ii := ii + 1;
      }
      assert output + [] == output;
    }

    /** The leading parents that the closed path shares with the new one. */
    method CountCommon(a: seq<string>, b: seq<string>, mpair: nat) returns (common: nat)
      requires mpair <= |a| && mpair <= |b|
      ensures common == Common(a, b, mpair)
    {
      common := 0;
      while common < mpair && a[common] == b[common]
        invariant common <= mpair && a[..common] == b[..common]
      {
        assert a[..common + 1] == a[..common] + [a[common]] && b[..common + 1] == b[..common] + [b[common]];
        common := common + 1;
      }
      CommonIsUnique(a, b, mpair, common);
    }

    method CheckParentSegments(current: string)
      requires !IsDefault(current)
      modifies this`output
      ensures output == Entered(old(output), Path(current))
    {
      hide CloseDown, Opens, Path;
      var parents := Path(current);
      if output != [] && Last(output).name == "--" {
        var msize := if |parents| > 1 then |parents| else 2;
        CloseWhile(msize);
        if |parents| > 1 {
          var back := Last(output).parents;
          var mpair := if |back| < |parents| - 1 then |back| else |parents| - 1;
          var common := CountCommon(back, parents, mpair);
          if common == mpair {
            output := output[..|output| - 1];
          } else {
            CloseWhile(common + 2);
          }
          OpenParents(parents, common);
        }
      } else {
        OpenParents(parents, 0);
      }
      Emplace(parents, "++", []);
    }

    /** One line: a header, an entry or nothing. */
    method TakeLine(raw: string)
      requires section == "default" || !IsDefault(section)
      modifies this`output, this`section
      ensures Now() == Step(old(Now()), ReadLine(raw, format))
      ensures section == "default" || !IsDefault(section)
    {
      hide Entered, GenerateParents, Trim, Find, RemoveQuotes;
      match ReadLine(raw, format)
      case Blank =>
      case Header(name) =>
        if section != "default" {
          Emplace(Path(section), "--", []);
        }
        if IsDefault(name) {
          section := "default";
        } else {
          section := name;
          CheckParentSegments(section);
        }
      case Entry(raw, inputs) =>
        var (parents, name) := GenerateParents(section, raw);
        if output != [] && name == Last(output).name && parents == Last(output).parents {
          var back := Last(output);
          output := output[..|output| - 1] + [back.(inputs := back.inputs + inputs)];
        } else {
          Emplace(parents, name, inputs);
        }
    }

    /** from_config. */
    method Run(text: seq<string>)
      requires Now() == Reader([], "default")
      modifies this
      ensures output == FromConfig(ReadLines(text, format))
    {
      hide Step, Path, CloseDown, ReadLine;
      ghost var lines := ReadLines(text, format);
      assert lines[..0] == [];
      for i := 0 to |text|
        invariant section == "default" || !IsDefault(section)
        invariant Now() == Read(lines[..i])
      {
        assert lines[..i + 1][..i] == lines[..i];
        TakeLine(text[i]);
      }
      assert lines[..|text|] == lines;
      if section != "default" {
        Emplace(Path(section), "--", []);
        CloseWhile(2);
      }
    }
  }

  lemma CommonIsUnique(a: seq<string>, b: seq<string>, n: nat, c: nat)
    requires c <= n <= |a| && n <= |b| && a[..c] == b[..c] && (c < n ==> a[c] != b[c])
    ensures c == Common(a, b, n)
  {
    var d := Common(a, b, n);
    assert forall i :: 0 <= i < c ==> a[i] == a[..c][i] && b[i] == b[..c][i];
    assert forall i :: 0 <= i < d ==> a[i] == a[..d][i] && b[i] == b[..d][i];
  }
}
