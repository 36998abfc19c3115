/** Configuration files of sections for sresar/toml.c: [name] or [[name]] with keys and plain values under it.  The
    whole tree that they make, and the lookups in it. */
module CTomlSections {
  import opened Sequences
  import opened Wrappers
  import opened CTomlScan
  import opened CTomlTree
  import opened CTomlParser
  import opened CTomlGrammar
  import opened CTomlMeaning
  import opened CTomlContents
  import opened CTomlSound
  import opened CTomlHeaders
  import opened CTomlLookups
  import opened CTomlLines

  datatype Sec = Sec(name: string, double: bool, items: seq<KeyVal>)

  function ItemStmts(items: seq<KeyVal>): seq<Stmt> {
    if items == [] then [] else [Item(Pair([items[0].key], Plain(items[0].val)))] + ItemStmts(items[1..])
  }

  function SecStmts(s: Sec): seq<Stmt> {
    [Head([s.name], s.double)] + ItemStmts(s.items)
  }

  function AllSecs(ss: seq<Sec>): seq<Stmt> {
    if ss == [] then [] else AllSecs(ss[..|ss| - 1]) + SecStmts(ss[|ss| - 1])
  }

  function NamesOf(ss: seq<Sec>): (names: seq<string>)
    ensures |names| == |ss|
  {
    seq(|ss|, i requires 0 <= i < |ss| => ss[i].name)
  }

  /** Distinct names, and distinct keys in each section. */
  predicate AllApart(ss: seq<Sec>) {
    AllDistinct(NamesOf(ss)) && forall i :: 0 <= i < |ss| ==> AllDistinct(ValKeys(ss[i].items))
  }

  /** The table of a section. */
  function SecTab(s: Sec): Tab {
    NewTab(if s.double then "__anon__" else s.name, false).(kvals := s.items)
  }

  function WithSec(t: Tab, s: Sec): Tab {
    if s.double then t.(arrs := t.arrs + [NewArr(s.name, Tables).(tabs := [SecTab(s)])])
    else t.(tabs := t.tabs + [SecTab(s)])
  }

  /** The tree of all sections, each at its place. */
  function Tree(ss: seq<Sec>): Tab {
    if ss == [] then ROOT else WithSec(Tree(ss[..|ss| - 1]), ss[|ss| - 1])
  }

  function StepOf(s: Sec): Step {
    if s.double then InArr(s.name) else InTab(s.name)
  }

  // ----- one section --------------------------------------------------------------------------

  /** A section's table is the one at its step, and changing it changes its items. */
  lemma SecIsThere(t: Tab, s: Sec, items: seq<KeyVal>)
    requires s.name !in AllKeys(t)
    ensures HasPath(WithSec(t, s), [StepOf(s)]) && At(WithSec(t, s), [StepOf(s)]) == SecTab(s)
    ensures var s' := s.(items := items);
            With(WithSec(t, s), [StepOf(s)], SecTab(s')) == WithSec(t, s')
  {
    hide IndexOf, AllKeys;
    var t' := WithSec(t, s);
    var u := SecTab(s.(items := items));
    NotListed(t, s.name);
    if s.double {
      var a := NewArr(s.name, Tables);
      assert [SecTab(s)][0 := u] == [u];
      assert (t.arrs + [a.(tabs := [SecTab(s)])])[|t.arrs| := a.(tabs := [u])] == t.arrs + [a.(tabs := [u])];
      assert ArrKeys(t'.arrs) == ArrKeys(t.arrs) + [s.name];
      IndexOfAppend(ArrKeys(t.arrs), s.name, s.name);
    } else {
      assert (t.tabs + [SecTab(s)])[|t.tabs| := u] == t.tabs + [u];
      assert TabKeys(t'.tabs) == TabKeys(t.tabs) + [s.name];
      IndexOfAppend(TabKeys(t.tabs), s.name, s.name);
    }
    WithOne(t', StepOf(s), SecTab(s.(items := items)));
  }

  /** The header of a section. */
  lemma HeadOpens(t: Tab, name: string, double: bool)
    requires name !in AllKeys(t)
    ensures var s := Sec(name, double, []); OpenPath(t, [name], double) == Ok((WithSec(t, s), [StepOf(s)]))
  {
    hide IndexOf, AllKeys, HasPath, OpenTable;
    var s := Sec(name, double, []);
    assert [name][..0] == [];
    assert WalkPath(t, []) == Ok((t, []));
    OneOpens(t, name, double);
    assert [] + [StepOf(s)] == [StepOf(s)];
  }

  lemma OneOpens(t: Tab, name: string, double: bool)
    requires name !in AllKeys(t)
    ensures var s := Sec(name, double, []); OpenTable(t, name, double) == Ok((WithSec(t, s), StepOf(s)))
  {
    hide IndexOf, AllKeys;
    NotListed(t, name);
    CheckedOut(t, name);
    if double {
      assert ArrKeys(t.arrs + [NewArr(name, Tables)]) == ArrKeys(t.arrs) + [name];
      var arrs := t.arrs + [NewArr(name, Tables)];
      assert [] + [NewTab("__anon__", false)] == [NewTab("__anon__", false)];
      var a := NewArr(name, Tables).(tabs := [NewTab("__anon__", false)]);
      assert arrs[|t.arrs| := a] == t.arrs + [a];
    }
  }

  lemma CheckedOut(t: Tab, name: string)
    requires name !in AllKeys(t)
    ensures CheckKey(t, name) == NotFound
  {
    hide IndexOf;
    FoundIsListed(t, name);
  }

  /** The items of a section, behind those in `s` already. */
  lemma {:induction false} ItemsRun(vt: string -> char, t: Tab, s: Sec, items: seq<KeyVal>)
    requires s.name !in AllKeys(t) && AllDistinct(ValKeys(s.items + items)) && HasPath(WithSec(t, s), [StepOf(s)])
    ensures Run(vt, WithSec(t, s), [StepOf(s)], ItemStmts(items))
         == Ok((WithSec(t, s.(items := s.items + items)), [StepOf(s)]))
    decreases |items|
  {
    hide AllKeys, AllDistinct, ValKeys, HasPath, WithSec, SecTab, At, With, Put;
    if items == [] {
      assert s.items + items == s.items;
    } else {
      var kv := items[0];
      var s' := s.(items := s.items + [kv]);
      assert s.items + [kv] + items[1..] == s.items + items == s.items + ([kv] + items[1..]);
      SecIsThere(t, s, s'.items);
      SecIsThere(t, s', s'.items);
      ItemIsNew(s, kv, items[1..]);
      PutItem(vt, s, kv);
      RunItem(vt, WithSec(t, s), StepOf(s), kv, ItemStmts(items[1..]));
      ItemsRun(vt, t, s', items[1..]);
    }
  }

  lemma RunItem(vt: string -> char, t: Tab, step: Step, kv: KeyVal, stmts: seq<Stmt>)
    requires HasPath(t, [step]) && Put(vt, At(t, [step]), [kv.key], Plain(kv.val)).Ok?
    ensures var t' := With(t, [step], Put(vt, At(t, [step]), [kv.key], Plain(kv.val)).value);
            HasPath(t', [step]) &&
            Run(vt, t, [step], [Item(Pair([kv.key], Plain(kv.val)))] + stmts) == Run(vt, t', [step], stmts)
  {
    hide HasPath, At, With, Put;
    KeepPath(t, [step], Put(vt, At(t, [step]), [kv.key], Plain(kv.val)).value);
    assert ([Item(Pair([kv.key], Plain(kv.val)))] + stmts)[1..] == stmts;
  }

  lemma ItemIsNew(s: Sec, kv: KeyVal, rest: seq<KeyVal>)
    requires AllDistinct(ValKeys(s.items + ([kv] + rest)))
    ensures kv.key !in ValKeys(s.items)
  {
    var all := s.items + ([kv] + rest);
    assert ValKeys(all)[|s.items|] == kv.key;
    forall i | 0 <= i < |s.items| ensures ValKeys(s.items)[i] != kv.key {
      assert ValKeys(all)[i] == s.items[i].key;
    }
  }

  lemma PutItem(vt: string -> char, s: Sec, kv: KeyVal)
    requires kv.key !in ValKeys(s.items)
    ensures Put(vt, SecTab(s), [kv.key], Plain(kv.val)) == Ok(SecTab(s.(items := s.items + [kv])))
  {
    hide IndexOf;
    var t := SecTab(s);
    assert AllKeys(t) == ValKeys(s.items) + [] + [];
    assert kv.key !in AllKeys(t);
    CheckedOut(t, kv.key);
  }

  /** A section, whatever the table of the one before it. */
  lemma SecRuns(vt: string -> char, t: Tab, cur: seq<Step>, s: Sec)
    requires HasPath(t, cur) && s.name !in AllKeys(t) && AllDistinct(ValKeys(s.items))
    ensures Run(vt, t, cur, SecStmts(s)) == Ok((WithSec(t, s), [StepOf(s)]))
  {
    hide AllKeys, AllDistinct, ValKeys, HasPath, WithSec, OpenPath;
    var s0 := Sec(s.name, s.double, []);
    HeadOpens(t, s.name, s.double);
    assert SecStmts(s)[1..] == ItemStmts(s.items);
    assert [] + s.items == s.items;
    ItemsRun(vt, t, s0, s.items);
    assert s0.(items := s.items) == s;
  }

  // ----- all sections -------------------------------------------------------------------------

  lemma {:induction false} TreeKeys(ss: seq<Sec>, key: string)
    ensures key in AllKeys(Tree(ss)) ==> key in NamesOf(ss)
  {
    hide AllKeys, WithSec;
    if ss == [] {
      NoKeys();
    } else {
      var n := |ss| - 1;
      TreeKeys(ss[..n], key);
      if key in AllKeys(Tree(ss)) && key != ss[n].name {
        WithSecKeys(Tree(ss[..n]), ss[n], key);
      }
      assert NamesOf(ss) == NamesOf(ss[..n]) + [ss[n].name];
    }
  }

  lemma WithSecKeys(t: Tab, s: Sec, key: string)
    requires key in AllKeys(WithSec(t, s)) && key != s.name
    ensures key in AllKeys(t)
  {
    var t' := WithSec(t, s);
    assert ArrKeys(t'.arrs) == ArrKeys(t.arrs) + if s.double then [s.name] else [];
    assert TabKeys(t'.tabs) == TabKeys(t.tabs) + if s.double then [] else [s.name];
  }
  lemma NoKeys()
    ensures AllKeys(ROOT) == []
  {
  }

  lemma NameIsNew(ss: seq<Sec>)
    requires ss != [] && AllApart(ss)
    ensures var n := |ss| - 1;
            AllApart(ss[..n]) && AllDistinct(ValKeys(ss[n].items)) && ss[n].name !in NamesOf(ss[..n])
  {
    hide ValKeys;
    var n := |ss| - 1;
    var all, front := NamesOf(ss), NamesOf(ss[..n]);
    assert all == front + [ss[n].name];
    assert forall i :: 0 <= i < n ==> front[i] == all[i];
    assert forall i :: 0 <= i < n ==> all[i] != all[n];
  }

  /** Sections with distinct names and keys are accepted, and make this tree. */
  lemma {:induction false} SectionsRun(vt: string -> char, ss: seq<Sec>)
    requires AllApart(ss) && HasPath(ROOT, [])
    ensures Run(vt, ROOT, [], AllSecs(ss)).Ok? && Run(vt, ROOT, [], AllSecs(ss)).value.0 == Tree(ss)
    decreases |ss|
  {
    hide Run, HasPath, AllApart, NamesOf, SecStmts, WithSec, AllKeys;
    if ss == [] {
      RunsNothing(vt);
    } else {
      var n := |ss| - 1;
      NameIsNew(ss);
      SectionsRun(vt, ss[..n]);
      TreeKeys(ss[..n], ss[n].name);
      var (t, cur) := Run(vt, ROOT, [], AllSecs(ss[..n])).value;
      SecRuns(vt, t, cur, ss[n]);
      RunSnoc(vt, ROOT, [], AllSecs(ss[..n]), SecStmts(ss[n]));
    }
  }

  lemma RunsNothing(vt: string -> char)
    ensures HasPath(ROOT, []) && Run(vt, ROOT, [], []) == Ok((ROOT, []))
  {
  }

  /** The section's table, as the lookups find it: under its name, or first in the array under its name. */
  function SectionIn(t: Tab, s: Sec): Option<Tab> {
    if s.double then
      if ArrayIn(t, s.name).Some? && |ArrayIn(t, s.name).value.tabs| == 1 then Some(ArrayIn(t, s.name).value.tabs[0])
      else None
    else TableIn(t, s.name)
  }

  lemma {:induction false} SectionIsFound(ss: seq<Sec>, i: nat)
    requires AllApart(ss) && i < |ss|
    ensures SectionIn(Tree(ss), ss[i]) == Some(SecTab(ss[i]))
    decreases |ss|
  {
    hide AllApart, WithSec, SecTab, SectionIn, AllKeys;
    var n := |ss| - 1;
    NameIsNew(ss);
    TreeKeys(ss[..n], ss[n].name);
    if i < n {
      SectionIsFound(ss[..n], i);
      assert ss[i].name == NamesOf(ss[..n])[i];
      OthersStay(Tree(ss[..n]), ss[n], ss[i]);
    } else {
      LastIsFound(Tree(ss[..n]), ss[n]);
    }
  }

  lemma OthersStay(t: Tab, s: Sec, other: Sec)
    requires s.name !in AllKeys(t) && other.name != s.name
    ensures SectionIn(WithSec(t, s), other) == SectionIn(t, other)
  {
    hide AllKeys, TableIn, ArrayIn, SecTab;
    LastParts(t, s);
  }

  lemma LastParts(t: Tab, s: Sec)
    requires s.name !in AllKeys(t)
    ensures s.double ==> OnlyArray(t, WithSec(t, s), s.name) &&
                         ArrayIn(WithSec(t, s), s.name) == Some(NewArr(s.name, Tables).(tabs := [SecTab(s)]))
    ensures !s.double ==> OnlyTable(t, WithSec(t, s), s.name) && TableIn(WithSec(t, s), s.name) == Some(SecTab(s))
  {
    hide AllKeys, TableIn, ArrayIn, RawIn;
    NotListed(t, s.name);
    if s.double {
      AppendedArray(t, NewArr(s.name, Tables).(tabs := [SecTab(s)]));
    } else {
      AppendedTable(t, SecTab(s));
    }
  }

  lemma LastIsFound(t: Tab, s: Sec)
    requires s.name !in AllKeys(t)
    ensures SectionIn(WithSec(t, s), s) == Some(SecTab(s))
  {
    hide AllKeys, TableIn, ArrayIn, SecTab;
    LastParts(t, s);
  }

  lemma ItemIsFound(s: Sec, j: nat)
    requires AllDistinct(ValKeys(s.items)) && j < |s.items|
    ensures RawIn(SecTab(s), s.items[j].key) == Some(s.items[j].val)
  {
    hide IndexOf;
    IndexOfFirst(ValKeys(s.items), j);
  }

  predicate ItemIsThere(t: Tab, s: Sec, j: nat)
    requires j < |s.items|
  {
    SectionIn(t, s).Some? && RawIn(SectionIn(t, s).value, s.items[j].key) == Some(s.items[j].val)
  }

  /** A text in lines that makes sections with distinct names and distinct keys: it is accepted, its tree has just
      these sections, and each value is found under its key in the table under the name of its section. */
  lemma SectionsAreFound(text: CString, vt: string -> char, ls: seq<Line>, ss: seq<Sec>)
    requires AllLines(ls) && text == LinesText(ls) && AllStmts(ls) == AllSecs(ss) && AllApart(ss)
    ensures TomlParse(text, vt) == Ok(Tree(ss))
    ensures forall i, j :: 0 <= i < |ss| && 0 <= j < |ss[i].items| ==> ItemIsThere(Tree(ss), ss[i], j)
  {
    hide AllLines, LinesText, AllStmts, AllSecs, AllApart, TomlParse, Run, Tree, SecTab, SectionIn, RawIn, IsText;
    TextShows(text, ls);
    TextIsMade(text, vt, AllSecs(ss));
    RunsNothing(vt);
    SectionsRun(vt, ss);
    forall i, j | 0 <= i < |ss| && 0 <= j < |ss[i].items|
      ensures ItemIsThere(Tree(ss), ss[i], j)
    {
      SectionIsFound(ss, i);
      ApartItems(ss, i);
      ItemIsFound(ss[i], j);
    }
  }

  lemma ApartItems(ss: seq<Sec>, i: nat)
    requires AllApart(ss) && i < |ss|
    ensures AllDistinct(ValKeys(ss[i].items))
  {
  }
}
