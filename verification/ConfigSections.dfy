/** The section events of ssar/CLI11.hpp: the "++" and "--" items that ConfigBase::from_config emits, and
    when they replay as a well-nested stack. */
module ConfigSections {
  import opened Wrappers

  datatype ConfigItem = ConfigItem(parents: seq<string>, name: string, inputs: seq<string>)

  function Open(parents: seq<string>): ConfigItem {
    ConfigItem(parents, "++", [])
  }

  function Close(parents: seq<string>): ConfigItem {
    ConfigItem(parents, "--", [])
  }

  // ----- sections and names -------------------------------------------------------------------

  function ToLower(s: string): string {
    seq(|s|, i requires 0 <= i < |s| => if 'A' <= s[i] <= 'Z' then s[i] - 'A' + 'a' else s[i])
  }

  predicate IsDefault(section: string) {
    ToLower(section) == "default"
  }

  function Piece(s: string): (n: nat)
    ensures n <= |s| && (n < |s| ==> s[n] == '.')
  {
    if s == "" || s[0] == '.' then 0 else 1 + Piece(s[1..])
  }

  /** detail::split at dots, of a text that is not empty; what is empty behind the last dot is dropped. */
  function Split(s: string): (ps: seq<string>)
    ensures s != "" ==> ps != []
    decreases |s|
  {
    if s == "" then []
    else
      var n := Piece(s);
      [s[..n]] + if n < |s| then Split(s[n + 1..]) else []
  }

  function RemoveQuotes(s: string): string {
    if |s| > 1 && (s[0] == '\"' || s[0] == '\'') && s[0] == s[|s| - 1] then s[1..|s| - 1] else s
  }

  function RemoveAllQuotes(ps: seq<string>): (r: seq<string>)
    ensures |r| == |ps|
  {
    seq(|ps|, i requires 0 <= i < |ps| => RemoveQuotes(ps[i]))
  }

  /** generate_parents: the parents and the last part of the name. */
  function GenerateParents(section: string, name: string): (r: (seq<string>, string))
    ensures name == "" ==> r.1 == "" && (!IsDefault(section) ==> r.0 != [])
  {
    var ps := if IsDefault(section) then [] else if '.' in section then Split(section) else [section];
    if '.' in name then
      var plist := Split(name);
      (RemoveAllQuotes(ps + plist[..|plist| - 1]), RemoveQuotes(plist[|plist| - 1]))
    else (RemoveAllQuotes(ps), name)
  }

  /** The path of a section. */
  function Path(section: string): (p: seq<string>)
    ensures !IsDefault(section) ==> p != []
  {
    GenerateParents(section, "").0
  }

  function Join(ps: seq<string>): string {
    if ps == [] then "" else ps[0] + if |ps| == 1 then "" else "." + Join(ps[1..])
  }

  predicate NoDot(s: string) {
    '.' !in s
  }

  lemma {:induction false} PieceHasNoDot(s: string)
    ensures NoDot(s[..Piece(s)])
  {
    if s != "" && s[0] != '.' {
      PieceHasNoDot(s[1..]);
      assert s[..Piece(s)] == [s[0]] + s[1..][..Piece(s[1..])];
    }
  }

  /** The text without one dot at its end. */
  function WithoutLastDot(s: string): string {
    if s != "" && s[|s| - 1] == '.' then s[..|s| - 1] else s
  }

  lemma DotLast(a: string, rest: string)
    requires NoDot(a)
    ensures WithoutLastDot(a) == a
    ensures WithoutLastDot(a + "." + rest) == if rest == "" then a else a + "." + WithoutLastDot(rest)
  {
    if rest == "" {
      assert (a + ".")[..|a|] == a;
      assert a + "." + rest == a + ".";
    } else {
      var s := a + "." + rest;
      assert s[|s| - 1] == rest[|rest| - 1];
      assert s[..|s| - 1] == a + "." + rest[..|rest| - 1];
    }
  }

  lemma JoinCons(p: string, ps: seq<string>)
    ensures Join([p] + ps) == if ps == [] then p else p + "." + Join(ps)
  {
    assert ([p] + ps)[1..] == ps;
  }

  /** The parts of a text in front of its first dot and behind it. */
  lemma FirstPiece(s: string)
    requires s != ""
    ensures var n := Piece(s);
            var rest := if n < |s| then s[n + 1..] else "";
            |rest| < |s| && NoDot(s[..n]) && Split(s) == [s[..n]] + Split(rest) &&
            s == if n < |s| then s[..n] + "." + rest else s[..n]
  {
    hide NoDot;
    PieceHasNoDot(s);
    if Piece(s) < |s| {
      AtDot(s, Piece(s));
    }
  }

  lemma AtDot(s: string, n: nat)
    requires n < |s| && s[n] == '.'
    ensures s == s[..n] + "." + s[n + 1..]
  {
  }

  /** The pieces have no dots, and joined with dots they are the text, but for a dot at its end. */
  lemma {:induction false} SplitJoins(s: string)
    ensures forall p <- Split(s) :: NoDot(p)
    ensures Join(Split(s)) == WithoutLastDot(s)
    decreases |s|
  {
    if s != "" {
      hide NoDot, Join, WithoutLastDot, Split, Piece;
      var n := Piece(s);
      var rest := if n < |s| then s[n + 1..] else "";
      FirstPiece(s);
      SplitJoins(rest);
      JoinCons(s[..n], Split(rest));
      DotLast(s[..n], rest);
    }
  }

  // ----- reading ------------------------------------------------------------------------------

  /** A line: its header's section, or a name and values, or nothing. */
  datatype Line = Blank | Header(section: string) | Entry(name: string, inputs: seq<string>)

  /** The variables `output` and `section` of from_config. */
  datatype Reader = Reader(output: seq<ConfigItem>, section: string)

  function Last(items: seq<ConfigItem>): ConfigItem
    requires items != []
  {
    items[|items| - 1]
  }

  predicate EndsClosed(items: seq<ConfigItem>) {
    items != [] && Last(items).name == "--"
  }

  /** The last item again and again with one parent fewer, while it has `size` parents or more. */
  function CloseDown(items: seq<ConfigItem>, size: nat): (r: seq<ConfigItem>)
    requires items != [] && size >= 1
    ensures r != []
    decreases |Last(items).parents|
  {
    var item := Last(items);
    if |item.parents| < size then items
    else CloseDown(items + [item.(parents := item.parents[..|item.parents| - 1])], size)
  }

  /** The number of leading parents that are the same, `n` at most. */
  function Common(a: seq<string>, b: seq<string>, n: nat): (c: nat)
    requires n <= |a| && n <= |b|
    ensures c <= n && a[..c] == b[..c] && (c < n ==> a[c] != b[c])
  {
    if n == 0 || a[0] != b[0] then 0
    else
      var c := 1 + Common(a[1..], b[1..], n - 1);
      assert a[..c] == [a[0]] + a[1..][..c - 1] && b[..c] == [b[0]] + b[1..][..c - 1];
      c
  }

  /** Open events for the first `i + 1`, ..., `n` parents. */
  function Opens(parents: seq<string>, i: nat, n: nat): seq<ConfigItem>
    requires i <= n <= |parents|
    decreases n - i
  {
    if i == n then [] else [Open(parents[..i + 1])] + Opens(parents, i + 1, n)
  }

  /** checkParentSegments. */
  function Entered(items: seq<ConfigItem>, parents: seq<string>): seq<ConfigItem>
    requires parents != []
  {
    if EndsClosed(items) then
      var closed := CloseDown(items, if |parents| > 1 then |parents| else 2);
      (if |parents| > 1 then Rejoined(closed, parents) else closed) + [Open(parents)]
    else items + Opens(parents, 0, |parents| - 1) + [Open(parents)]
  }

  /** The part of checkParentSegments for more than one parent, behind closing events. */
  function Rejoined(closed: seq<ConfigItem>, parents: seq<string>): seq<ConfigItem>
    requires closed != [] && parents != []
  {
    var last := Last(closed).parents;
    var n := if |last| < |parents| - 1 then |last| else |parents| - 1;
    var common := Common(last, parents, n);
    (if common == n then closed[..|closed| - 1] else CloseDown(closed, common + 2))
    + Opens(parents, common, |parents| - 1)
  }

  /** One line of from_config. */
  function Step(r: Reader, line: Line): Reader {
    match line
    case Blank => r
    case Header(section) =>
      var out := if r.section != "default" then r.output + [Close(Path(r.section))] else r.output;
      if IsDefault(section) then Reader(out, "default") else Reader(Entered(out, Path(section)), section)
    case Entry(raw, inputs) =>
      var (parents, name) := GenerateParents(r.section, raw);
      if r.output != [] && Last(r.output).name == name && Last(r.output).parents == parents then
        var last := Last(r.output);
        Reader(r.output[..|r.output| - 1] + [last.(inputs := last.inputs + inputs)], r.section)
      else Reader(r.output + [ConfigItem(parents, name, inputs)], r.section)
  }

  function Read(lines: seq<Line>): Reader {
    if lines == [] then Reader([], "default") else Step(Read(lines[..|lines| - 1]), lines[|lines| - 1])
  }

  /** from_config. */
  function FromConfig(lines: seq<Line>): seq<ConfigItem> {
    var r := Read(lines);
    if r.section != "default" then CloseDown(r.output + [Close(Path(r.section))], 2) else r.output
  }

  // ----- replaying the events -----------------------------------------------------------------

  /** One item on a stack of open paths: an open event adds one part to the top, a close event removes the top. */
  function Apply(stack: Option<seq<seq<string>>>, item: ConfigItem): Option<seq<seq<string>>> {
    match stack
    case None => None
    case Some(st) =>
      if item.name == "++" then if Extends(st, item.parents) then Some(st + [item.parents]) else None
      else if item.name == "--" then
        if st != [] && st[|st| - 1] == item.parents then Some(st[..|st| - 1]) else None
      else stack
  }

  predicate Extends(st: seq<seq<string>>, p: seq<string>) {
    var top := if st == [] then [] else st[|st| - 1];
    |p| == |top| + 1 && p[..|top|] == top
  }

  /** The stack behind the items, or nothing if some event does not fit. */
  function Replay(items: seq<ConfigItem>): Option<seq<seq<string>>> {
    if items == [] then Some([]) else Apply(Replay(items[..|items| - 1]), Last(items))
  }

  /** All prefixes of a path. */
  function Prefixes(p: seq<string>): (st: seq<seq<string>>)
    ensures |st| == |p| && forall i :: 0 <= i < |p| ==> st[i] == p[..i + 1]
  {
    seq(|p|, i requires 0 <= i < |p| => p[..i + 1])
  }

  lemma ReplaySnoc(items: seq<ConfigItem>, item: ConfigItem)
    ensures Replay(items + [item]) == Apply(Replay(items), item)
  {
    assert (items + [item])[..|items|] == items;
  }

  lemma PrefixesSnoc(p: seq<string>)
    requires p != []
    ensures Prefixes(p) == Prefixes(p[..|p| - 1]) + [p]
    ensures Prefixes(p)[..|p| - 1] == Prefixes(p[..|p| - 1])
  {
    var front := p[..|p| - 1];
    forall i | 0 <= i < |p| ensures Prefixes(p)[i] == (Prefixes(front) + [p])[i] {
      if i < |front| {
        assert p[..i + 1] == front[..i + 1];
      } else {
        assert p[..i + 1] == p;
      }
    }
  }

  lemma OpenExtends(items: seq<ConfigItem>, p: seq<string>)
    requires p != [] && Replay(items) == Some(Prefixes(p[..|p| - 1]))
    ensures Replay(items + [Open(p)]) == Some(Prefixes(p))
  {
    var front := p[..|p| - 1];
    ReplaySnoc(items, Open(p));
    PrefixesSnoc(p);
    if front != [] {
      assert Prefixes(front)[|front| - 1] == front;
    }
  }

  lemma CloseRemoves(items: seq<ConfigItem>, item: ConfigItem)
    requires item.parents != [] && item.name == "--" && Replay(items) == Some(Prefixes(item.parents))
    ensures Replay(items + [item]) == Some(Prefixes(item.parents[..|item.parents| - 1]))
  {
    var p := item.parents;
    ReplaySnoc(items, item);
    PrefixesSnoc(p);
  }

  /** The items end with a close event that has left the prefixes of its parent path. */
  predicate Closed(items: seq<ConfigItem>) {
    EndsClosed(items) && Last(items).parents != [] &&
    var p := Last(items).parents;
    Replay(items) == Some(Prefixes(p[..|p| - 1]))
  }

  lemma {:induction false} CloseDownReplays(items: seq<ConfigItem>, size: nat)
    requires Closed(items) && size >= 2
    ensures var r := CloseDown(items, size);
            var p := Last(items).parents;
            Closed(r) && Last(r).parents == if |p| < size then p else p[..size - 1]
    decreases |Last(items).parents|
  {
    hide Replay, Prefixes;
    var item := Last(items);
    var p := item.parents;
    if |p| >= size {
      var next := item.(parents := p[..|p| - 1]);
      CloseRemoves(items, next);
      CloseDownReplays(items + [next], size);
      assert p[..|p| - 1][..size - 1] == p[..size - 1];
      assert p[..|p| - 1][..|p| - 2] == p[..|p| - 1][..|next.parents| - 1];
    }
  }

  /** Before its last close event, the closed path was still open. */
  lemma BeforeClose(items: seq<ConfigItem>)
    requires Closed(items)
    ensures Replay(items[..|items| - 1]) == Some(Prefixes(Last(items).parents))
  {
    var p := Last(items).parents;
    var st := Replay(items[..|items| - 1]).value;
    assert st == st[..|st| - 1] + [p];
    PrefixesSnoc(p);
  }

  lemma {:induction false} OpensReplay(items: seq<ConfigItem>, parents: seq<string>, i: nat, n: nat)
    requires i <= n <= |parents| && Replay(items) == Some(Prefixes(parents[..i]))
    ensures Replay(items + Opens(parents, i, n)) == Some(Prefixes(parents[..n]))
    decreases n - i
  {
    hide Replay, Prefixes;
    if i == n {
      assert items + [] == items;
    } else {
      var p := parents[..i + 1];
      assert p[..i] == parents[..i];
      OpenExtends(items, p);
      OpensReplay(items + [Open(p)], parents, i + 1, n);
      assert items + ([Open(p)] + Opens(parents, i + 1, n)) == items + [Open(p)] + Opens(parents, i + 1, n);
    }
  }

  lemma RejoinedReplays(closed: seq<ConfigItem>, parents: seq<string>)
    requires Closed(closed) && |parents| > 1 && |Last(closed).parents| <= |parents| - 1
    ensures Replay(Rejoined(closed, parents)) == Some(Prefixes(parents[..|parents| - 1]))
  {
    hide Replay, Prefixes, CloseDown, Opens;
    var last := Last(closed).parents;
    var common := Common(last, parents, |last|);
    if common == |last| {
      BeforeClose(closed);
      assert last == parents[..common];
      OpensReplay(closed[..|closed| - 1], parents, common, |parents| - 1);
    } else {
      CloseDownReplays(closed, common + 2);
      var r := CloseDown(closed, common + 2);
      assert last[..common + 1][..common] == last[..common] == parents[..common];
      OpensReplay(r, parents, common, |parents| - 1);
    }
  }

  /** Entering a section after a close event, whatever the two paths share. */
  lemma EnteredReplays(items: seq<ConfigItem>, parents: seq<string>)
    requires Closed(items) && parents != []
    ensures Replay(Entered(items, parents)) == Some(Prefixes(parents))
  {
    hide Replay, Prefixes, Rejoined, CloseDown;
    var size := if |parents| > 1 then |parents| else 2;
    var closed := CloseDown(items, size);
    CloseDownReplays(items, size);
    if |parents| > 1 {
      RejoinedReplays(closed, parents);
      OpenExtends(Rejoined(closed, parents), parents);
    } else {
      assert Last(closed).parents[..0] == parents[..0];
      OpenExtends(closed, parents);
    }
  }

  // ----- which texts nest well ----------------------------------------------------------------

  /** Where a text stands: in no section, in a section, or behind a header that has re-opened the default section
      from a section of several parts. */
  datatype Mode = AtTop | In(path: seq<string>) | Pending(path: seq<string>)

  /** The modes of a text, as long as no entry comes while one is pending. */
  function Scan(lines: seq<Line>): Option<Mode> {
    if lines == [] then Some(AtTop)
    else
      match Scan(lines[..|lines| - 1])
      case None => None
      case Some(mode) => ScanLine(mode, lines[|lines| - 1])
  }

  function ScanLine(mode: Mode, line: Line): Option<Mode> {
    match line
    case Blank => Some(mode)
    case Entry(_, _) => if mode.Pending? then None else Some(mode)
    case Header(section) =>
      if !IsDefault(section) then Some(In(Path(section)))
      else if mode.In? then Some(if |mode.path| > 1 then Pending(mode.path) else AtTop)
      else Some(mode)
  }

  /** Whenever the default section is re-opened from a section of several parts, the next line that is not blank
      is another header, and in the end one of a section. */
  predicate NeverStrands(lines: seq<Line>) {
    var mode := Scan(lines);
    mode.Some? && !mode.value.Pending?
  }

  /** No key is taken for an event. */
  predicate NoMarkers(lines: seq<Line>) {
    forall i :: 0 <= i < |lines| ==> NotMarker(lines[i])
  }

  predicate NotMarker(line: Line) {
    line.Entry? ==>
      !IsMarker(if '.' in line.name then RemoveQuotes(Split(line.name)[|Split(line.name)| - 1]) else line.name)
  }

  predicate IsMarker(name: string) {
    name == "++" || name == "--"
  }

  /** The output and the mode belong together. */
  predicate Fits(r: Reader, mode: Mode) {
    match mode
    case In(p) => !IsDefault(r.section) && p == Path(r.section) && Replay(r.output) == Some(Prefixes(p))
    case Pending(p) => r.section == "default" && |p| > 1 && Closed(r.output) && Last(r.output).parents == p
    case AtTop => r.section == "default" && Replay(r.output) == Some([]) && (EndsClosed(r.output) ==> Closed(r.output))
  }

  /** An entry has come while a section was still open: no event can follow that fits. */
  predicate Stranded(r: Reader) {
    r.section == "default" && !EndsClosed(r.output) && Replay(r.output).Some? && IsOpen(Replay(r.output).value)
  }

  /** Some section of at least one part is open. */
  predicate IsOpen(st: seq<seq<string>>) {
    st != [] && st[|st| - 1] != []
  }

  /** An open event has not fitted. */
  predicate Broken(items: seq<ConfigItem>) {
    exists k :: 0 < k <= |items| && BrokenAt(items, k)
  }

  predicate BrokenAt(items: seq<ConfigItem>, k: nat)
    requires 0 < k <= |items|
  {
    items[k - 1].name == "++" && Replay(items[..k]) == None
  }

  predicate Follows(r: Reader, mode: Option<Mode>) {
    match mode
    case Some(m) => Fits(r, m)
    case None => Stranded(r) || Broken(r.output)
  }

  lemma EntryStep(r: Reader, line: Line)
    requires line.Entry? && NotMarker(line)
    ensures var r' := Step(r, line);
            r'.section == r.section && Replay(r'.output) == Replay(r.output) && !EndsClosed(r'.output)
  {
    hide Split, RemoveQuotes, RemoveAllQuotes, IsDefault, Piece, Path;
    var (parents, name) := GenerateParents(r.section, line.name);
    var out := r.output;
    if out != [] && Last(out).name == name && Last(out).parents == parents {
      var last := Last(out);
      ReplaySnoc(out[..|out| - 1], last.(inputs := last.inputs + line.inputs));
    } else {
      ReplaySnoc(out, ConfigItem(parents, name, line.inputs));
    }
  }

  /** An entry is put last, under its section's path and then the leading parts of its own name; the entries of one
      name in one place are one item with all the values.  Everything before it stays. */
  lemma EntryLands(r: Reader, raw: string, inputs: seq<string>)
    ensures var r' := Step(r, Entry(raw, inputs));
            var path, parts := Path(r.section), if NoDot(raw) then [raw] else Split(raw);
            var parents := if NoDot(raw) then path else path + RemoveAllQuotes(parts[..|parts| - 1]);
            var name := if NoDot(raw) then raw else RemoveQuotes(parts[|parts| - 1]);
            var n := |r.output| - 1;
            r'.section == r.section &&
            r'.output == if n >= 0 && r.output[n].name == name && r.output[n].parents == parents
                         then r.output[..n] + [ConfigItem(parents, name, r.output[n].inputs + inputs)]
                         else r.output + [ConfigItem(parents, name, inputs)]
  {
    hide Split, RemoveQuotes, IsDefault, Path, GenerateParents, RemoveAllQuotes;
    PartsOfName(r.section, raw);
  }

  /** The parents and the name that generate_parents makes of a section and the name of an entry. */
  lemma PartsOfName(section: string, raw: string)
    ensures var (parents, name) := GenerateParents(section, raw);
            var parts := Split(raw);
            if NoDot(raw) then parents == Path(section) && name == raw
            else parents == Path(section) + RemoveAllQuotes(parts[..|parts| - 1]) &&
                 name == RemoveQuotes(parts[|parts| - 1])
  {
    hide Split, RemoveQuotes, IsDefault;
    if !NoDot(raw) {
      var ps := if IsDefault(section) then [] else if '.' in section then Split(section) else [section];
      var parts := Split(raw);
      assert RemoveAllQuotes(ps + parts[..|parts| - 1]) == RemoveAllQuotes(ps) + RemoveAllQuotes(parts[..|parts| - 1]);
    }
  }

  lemma HeaderStep(r: Reader, mode: Mode, section: string)
    requires Fits(r, mode)
    ensures Fits(Step(r, Header(section)), ScanLine(mode, Header(section)).value)
  {
    hide Replay, Prefixes, Entered, IsDefault, Path, Opens;
    var out := if r.section != "default" then r.output + [Close(Path(r.section))] else r.output;
    DefaultIsDefault();
    if mode.In? {
      CloseRemoves(r.output, Close(mode.path));
      if IsDefault(section) {
        PrefixesOfNone(mode.path);
      }
    }
    if !IsDefault(section) {
      EnterFrom(out, Path(section));
    }
  }

  lemma DefaultIsDefault()
    ensures IsDefault("default")
  {
  }

  lemma PrefixesOfNone(p: seq<string>)
    ensures |p| == 1 ==> Prefixes(p[..|p| - 1]) == []
  {
  }

  /** Entering a section behind a close event, or from the top. */
  lemma EnterFrom(items: seq<ConfigItem>, parents: seq<string>)
    requires parents != [] && (if EndsClosed(items) then Closed(items) else Replay(items) == Some([]))
    ensures Replay(Entered(items, parents)) == Some(Prefixes(parents))
  {
    hide Replay, Opens;
    if EndsClosed(items) {
      EnteredReplays(items, parents);
    } else {
      assert Prefixes(parents[..0]) == [];
      OpensReplay(items, parents, 0, |parents| - 1);
      OpenExtends(items + Opens(parents, 0, |parents| - 1), parents);
    }
  }

  lemma PrefixesAreOpen(p: seq<string>)
    requires p != []
    ensures IsOpen(Prefixes(p))
  {
  }

  // An open event that does not fit stays in the output for good.

  lemma BrokenMoves(items: seq<ConfigItem>, k: nat, items': seq<ConfigItem>)
    requires 0 < k <= |items| && BrokenAt(items, k) && k <= |items'| && items'[..k] == items[..k]
    ensures Broken(items')
  {
    assert items'[k - 1] == items'[..k][k - 1] == items[..k][k - 1];
    assert BrokenAt(items', k);
  }

  lemma BrokenGrows(items: seq<ConfigItem>, more: seq<ConfigItem>)
    requires Broken(items)
    ensures Broken(items + more)
  {
    hide BrokenAt;
    var k :| 0 < k <= |items| && BrokenAt(items, k);
    assert (items + more)[..k] == items[..k];
    BrokenMoves(items, k, items + more);
  }

  lemma BrokenDrops(items: seq<ConfigItem>)
    requires Broken(items) && Last(items).name != "++"
    ensures Broken(items[..|items| - 1])
  {
    var k :| 0 < k <= |items| && BrokenAt(items, k);
    assert items[..|items| - 1][..k] == items[..k];
    BrokenMoves(items, k, items[..|items| - 1]);
  }

  lemma {:induction false} BrokenFails(items: seq<ConfigItem>)
    requires Broken(items)
    ensures Replay(items) == None
    decreases |items|
  {
    var k :| 0 < k <= |items| && BrokenAt(items, k);
    if k < |items| {
      assert items[..|items| - 1][..k] == items[..k];
      BrokenMoves(items, k, items[..|items| - 1]);
      BrokenFails(items[..|items| - 1]);
    } else {
      assert items[..k] == items;
    }
  }

  lemma {:induction false} BrokenCloseDown(items: seq<ConfigItem>, size: nat)
    requires Broken(items) && items != [] && size >= 1
    ensures Broken(CloseDown(items, size)) && Last(CloseDown(items, size)).name == Last(items).name
    decreases |Last(items).parents|
  {
    hide Broken;
    var item := Last(items);
    if |item.parents| >= size {
      var next := item.(parents := item.parents[..|item.parents| - 1]);
      BrokenGrows(items, [next]);
      BrokenCloseDown(items + [next], size);
    }
  }

  lemma BrokenEntered(items: seq<ConfigItem>, parents: seq<string>)
    requires Broken(items) && parents != []
    ensures Broken(Entered(items, parents))
  {
    hide Broken, CloseDown, Opens;
    if EndsClosed(items) {
      var closed := CloseDown(items, if |parents| > 1 then |parents| else 2);
      BrokenCloseDown(items, if |parents| > 1 then |parents| else 2);
      if |parents| > 1 {
        BrokenRejoined(closed, parents);
        BrokenGrows(Rejoined(closed, parents), [Open(parents)]);
      } else {
        BrokenGrows(closed, [Open(parents)]);
      }
    } else {
      BrokenGrows(items, Opens(parents, 0, |parents| - 1));
      BrokenGrows(items + Opens(parents, 0, |parents| - 1), [Open(parents)]);
    }
  }

  lemma BrokenRejoined(closed: seq<ConfigItem>, parents: seq<string>)
    requires EndsClosed(closed) && Broken(closed) && |parents| > 1
    ensures Broken(Rejoined(closed, parents))
  {
    hide Broken, CloseDown, Opens;
    var last := Last(closed).parents;
    var n := if |last| < |parents| - 1 then |last| else |parents| - 1;
    var common := Common(last, parents, n);
    if common == n {
      BrokenDrops(closed);
      BrokenGrows(closed[..|closed| - 1], Opens(parents, common, |parents| - 1));
    } else {
      BrokenCloseDown(closed, common + 2);
      BrokenGrows(CloseDown(closed, common + 2), Opens(parents, common, |parents| - 1));
    }
  }

  lemma BrokenStep(r: Reader, line: Line)
    requires Broken(r.output) && NotMarker(line)
    ensures Broken(Step(r, line).output)
  {
    hide Broken, Entered, Path;
    match line
    case Blank =>
    case Header(section) =>
      if r.section != "default" {
        BrokenGrows(r.output, [Close(Path(r.section))]);
      }
      if !IsDefault(section) {
        BrokenEntered(if r.section != "default" then r.output + [Close(Path(r.section))] else r.output, Path(section));
      }
    case Entry(raw, inputs) =>
      var (parents, name) := GenerateParents(r.section, raw);
      var out := r.output;
      if out != [] && Last(out).name == name && Last(out).parents == parents {
        BrokenDrops(out);
        BrokenGrows(out[..|out| - 1], [Last(out).(inputs := Last(out).inputs + inputs)]);
      } else {
        BrokenGrows(out, [ConfigItem(parents, name, inputs)]);
      }
  }

  lemma StrandedStep(r: Reader, line: Line)
    requires Stranded(r) && NotMarker(line)
    ensures Stranded(Step(r, line)) || Broken(Step(r, line).output)
  {
    hide Replay, Opens, Path, Broken;
    match line
    case Blank =>
    case Entry(_, _) => EntryStep(r, line);
    case Header(section) =>
      if !IsDefault(section) {
        StrandedHeader(r.output, Path(section));
      }
  }

  /** With a section left open, the first event of a header does not fit. */
  lemma StrandedHeader(items: seq<ConfigItem>, parents: seq<string>)
    requires !EndsClosed(items) && Replay(items).Some? && IsOpen(Replay(items).value) && parents != []
    ensures Broken(Entered(items, parents))
  {
    hide Replay;
    var first := Open(parents[..1]);
    var all := items + Opens(parents, 0, |parents| - 1) + [Open(parents)];
    ReplaySnoc(items, first);
    assert parents[..|parents|] == parents;
    assert all[|items|] == first;
    assert all[..|items| + 1] == items + [first];
    assert BrokenAt(all, |items| + 1);
  }

  lemma LineStep(r: Reader, mode: Option<Mode>, line: Line)
    requires Follows(r, mode) && NotMarker(line)
    ensures Follows(Step(r, line), if mode.None? then None else ScanLine(mode.value, line))
  {
    hide Replay, Prefixes, Broken, Closed, Path;
    match mode
    case None =>
      if Broken(r.output) {
        BrokenStep(r, line);
      } else {
        StrandedStep(r, line);
      }
    case Some(m) =>
      match line
      case Blank =>
      case Header(section) => HeaderStep(r, m, section);
      case Entry(_, _) =>
        EntryStep(r, line);
        if m.Pending? {
          StrandedBy(r, m.path);
        }
  }

  lemma StrandedBy(r: Reader, p: seq<string>)
    requires Closed(r.output) && Last(r.output).parents == p && |p| > 1
    ensures Replay(r.output).Some? && IsOpen(Replay(r.output).value)
  {
    PrefixesAreOpen(p[..|p| - 1]);
  }

  /** Behind every text, the output and the scan of the text belong together. */
  lemma {:induction false} ReadFollows(lines: seq<Line>)
    requires NoMarkers(lines)
    ensures Follows(Read(lines), Scan(lines))
    decreases |lines|
  {
    hide Follows, Step;
    if lines == [] {
      StartFollows();
    } else {
      assert NotMarker(lines[|lines| - 1]);
      ReadFollows(lines[..|lines| - 1]);
      LineStep(Read(lines[..|lines| - 1]), Scan(lines[..|lines| - 1]), lines[|lines| - 1]);
    }
  }

  lemma StartFollows()
    ensures Follows(Reader([], "default"), Some(AtTop))
  {
  }

  // ----- the main results ---------------------------------------------------------------------

  /** Behind every text that is in a section, as long as no entry was stranded, the open paths are exactly the
      prefixes of the section's path: right behind its header, and after every entry in it. */
  lemma StackIsPrefixes(lines: seq<Line>)
    requires NoMarkers(lines) && Scan(lines).Some? && Scan(lines).value.In?
    ensures Replay(Read(lines).output) == Some(Prefixes(Scan(lines).value.path))
    ensures Path(Read(lines).section) == Scan(lines).value.path
  {
    hide Replay, Prefixes, Path;
    ReadFollows(lines);
  }

  /** The events of a text replay as a well-nested stack that is empty in the end if and only if the text never
      strands a section by re-opening the default section. */
  lemma NestsIff(lines: seq<Line>)
    requires NoMarkers(lines)
    ensures Replay(FromConfig(lines)) == Some([]) <==> NeverStrands(lines)
  {
    hide Replay, Prefixes, Path, Broken, CloseDown;
    ReadFollows(lines);
    var r := Read(lines);
    DefaultIsDefault();
    match Scan(lines)
    case None =>
      if Broken(r.output) {
        BrokenEnd(r);
      }
    case Some(In(p)) => SectionEnd(r.output, p);
    case Some(Pending(p)) => StrandedBy(r, p);
    case Some(AtTop) =>
  }

  lemma BrokenEnd(r: Reader)
    requires Broken(r.output)
    ensures Replay(if r.section != "default" then CloseDown(r.output + [Close(Path(r.section))], 2) else r.output)
         == None
  {
    hide Replay, Path, Broken, CloseDown;
    if r.section != "default" {
      BrokenGrows(r.output, [Close(Path(r.section))]);
      BrokenCloseDown(r.output + [Close(Path(r.section))], 2);
      BrokenFails(CloseDown(r.output + [Close(Path(r.section))], 2));
    } else {
      BrokenFails(r.output);
    }
  }

  lemma SectionEnd(items: seq<ConfigItem>, p: seq<string>)
    requires p != [] && Replay(items) == Some(Prefixes(p))
    ensures Replay(CloseDown(items + [Close(p)], 2)) == Some([])
  {
    hide Replay;
    CloseRemoves(items, Close(p));
    CloseDownReplays(items + [Close(p)], 2);
  }

  /** In particular, the events of a text that never re-opens the default section nest well. */
  lemma NoReopeningNests(lines: seq<Line>)
    requires NoMarkers(lines)
    requires forall i :: 0 <= i < |lines| && lines[i].Header? ==> !IsDefault(lines[i].section)
    ensures Replay(FromConfig(lines)) == Some([])
  {
    hide NoMarkers, FromConfig, Replay, IsDefault, NeverStrands;
    NoReopeningNeverStrands(lines);
    NestsIff(lines);
  }

  lemma {:induction false} NoReopeningNeverStrands(lines: seq<Line>)
    requires forall i :: 0 <= i < |lines| && lines[i].Header? ==> !IsDefault(lines[i].section)
    ensures NeverStrands(lines)
    decreases |lines|
  {
    if lines != [] {
      NoReopeningNeverStrands(lines[..|lines| - 1]);
    }
  }

  /** A text that does not: the default section is re-opened from [a.b], and an entry follows. */
  lemma StrandedText()
    ensures var lines := [Header("a.b"), Header("default"), Entry("x", ["1"])];
            NoMarkers(lines) && !NeverStrands(lines) && Replay(FromConfig(lines)) != Some([])
  {
    hide FromConfig, Replay;
    var lines := [Header("a.b"), Header("default"), Entry("x", ["1"])];
    assert lines[..2] == [Header("a.b"), Header("default")] && lines[..2][..1] == [Header("a.b")];
    assert lines[..2][..1][..0] == [];
    TwoParts();
    assert Scan(lines[..2][..1]) == Some(In(Path("a.b")));
    assert Scan(lines[..2]) == Some(Pending(Path("a.b")));
    assert Scan(lines) == None;
    NestsIff(lines);
  }

  lemma TwoParts()
    ensures !IsDefault("a.b") && |Path("a.b")| == 2 && IsDefault("default")
  {
    var s := "a.b";
    assert s[1] == '.' && Piece(s) == 1 by {
      assert s[1..][0] == '.';
    }
    assert s[..1] == "a" && s[2..] == "b" && Piece("b") == 1 && "b"[..1] == "b";
    assert Split("b") == ["b"];
    assert Split(s) == ["a"] + Split("b");
    assert |ToLower(s)| == 3;
  }
}
