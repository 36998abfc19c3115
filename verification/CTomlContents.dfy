/** What one key and value of sresar/toml.c changes, seen through the lookups of the interface, and the order of
    array elements. */
module CTomlContents {
  import opened Wrappers
  import opened CTomlScan
  import opened CTomlTree
  import opened CTomlParser
  import opened CTomlSound

  /** Every lookup but that of the table `key` gives the same in both tables. */
  ghost predicate OnlyTable(t: Tab, t': Tab, key: string) {
    forall k :: RawIn(t', k) == RawIn(t, k) && ArrayIn(t', k) == ArrayIn(t, k) &&
                (k != key ==> TableIn(t', k) == TableIn(t, k))
  }

  ghost predicate OnlyArray(t: Tab, t': Tab, key: string) {
    forall k :: RawIn(t', k) == RawIn(t, k) && TableIn(t', k) == TableIn(t, k) &&
                (k != key ==> ArrayIn(t', k) == ArrayIn(t, k))
  }

  lemma ReplacedTable(t: Tab, i: nat, u: Tab)
    requires i < |t.tabs| && IndexOf(TabKeys(t.tabs), t.tabs[i].key) == i && u.key == t.tabs[i].key
    ensures var t' := t.(tabs := t.tabs[i := u]);
            TableIn(t', u.key) == Some(u) && OnlyTable(t, t', u.key)
  {
    hide IndexOf;
    var t' := t.(tabs := t.tabs[i := u]);
    assert TabKeys(t'.tabs) == TabKeys(t.tabs);
  }

  lemma AppendedTable(t: Tab, u: Tab)
    requires IndexOf(TabKeys(t.tabs), u.key) == |t.tabs|
    ensures var t' := t.(tabs := t.tabs + [u]);
            TableIn(t', u.key) == Some(u) && OnlyTable(t, t', u.key) && IndexOf(TabKeys(t'.tabs), u.key) == |t.tabs|
  {
    hide IndexOf;
    var t' := t.(tabs := t.tabs + [u]);
    assert TabKeys(t'.tabs) == TabKeys(t.tabs) + [u.key];
    forall k ensures k != u.key ==> TableIn(t', k) == TableIn(t, k) {
      IndexOfAppend(TabKeys(t.tabs), u.key, k);
    }
    IndexOfAppend(TabKeys(t.tabs), u.key, u.key);
  }

  lemma AppendedArray(t: Tab, a: Arr)
    requires IndexOf(ArrKeys(t.arrs), a.key) == |t.arrs|
    ensures var t' := t.(arrs := t.arrs + [a]);
            ArrayIn(t', a.key) == Some(a) && OnlyArray(t, t', a.key)
  {
    hide IndexOf;
    var t' := t.(arrs := t.arrs + [a]);
    assert ArrKeys(t'.arrs) == ArrKeys(t.arrs) + [a.key];
    forall k ensures k != a.key ==> ArrayIn(t', k) == ArrayIn(t, k) {
      IndexOfAppend(ArrKeys(t.arrs), a.key, k);
    }
    IndexOfAppend(ArrKeys(t.arrs), a.key, a.key);
  }

  /** The sub-table that is there under the key, or a new one. */
  function SubOrNew(tab: Tab, key: string): (sub: Tab)
    ensures sub.key == key
  {
    if TableIn(tab, key).Some? then TableIn(tab, key).value else NewTab(key, false)
  }

  lemma SubTableIs(tab: Tab, key: string, u: Tab)
    requires SubTable(tab, key).Ok? && u.key == key
    ensures var (tab1, j) := SubTable(tab, key).value;
            tab1.tabs[j] == SubOrNew(tab, key) &&
            var tab2 := tab1.(tabs := tab1.tabs[j := u]);
            TableIn(tab2, key) == Some(u) && OnlyTable(tab, tab2, key)
  {
    hide AllKeys, OnlyTable;
    var i := IndexOf(TabKeys(tab.tabs), key);
    if i < |tab.tabs| {
      ReplacedTable(tab, i, u);
    } else {
      assert (tab.tabs + [NewTab(key, false)])[i := u] == tab.tabs + [u];
      AppendedTable(tab, u);
    }
  }

  /** `a.b = value` puts the rest into the table `a`, which is made if there is none, and changes nothing else. */
  lemma DottedIsLookedUp(text: CString, vt: string -> char, tok: Token, tab: Tab, t1: Token, key: string)
    requires Inside(text, tok) && Eat(text, tok, Str, true) == Ok(t1) && t1.kind == Dot
    requires NormalizeKey(text, tok) == Ok(key) && ParseKeyval(text, vt, tok, tab).Ok?
    ensures Next(text, t1, true).Ok?
    ensures var (t, tab') := ParseKeyval(text, vt, tok, tab).value;
            var rest := ParseKeyval(text, vt, Next(text, t1, true).value, SubOrNew(tab, key));
            rest.Ok? && rest.value.0 == t && TableIn(tab', key) == Some(rest.value.1) && OnlyTable(tab, tab', key)
  {
    hide Next, NormalizeKey, SubTable, TableIn, OnlyTable, SubOrNew, ParseArray, ParseTable;
    var (tab1, j) := SubTable(tab, key).value;
    var rest := ParseKeyval(text, vt, Next(text, t1, true).value, tab1.tabs[j]);
    SubTableIs(tab, key, NewTab(key, false));
    SubTableIs(tab, key, rest.value.1);
  }

  /** `key = [...]` puts the array under its key and changes nothing else. */
  lemma ArrayIsLookedUp(text: CString, vt: string -> char, tok: Token, tab: Tab, t1: Token, t2: Token, key: string)
    requires Inside(text, tok) && Eat(text, tok, Str, true) == Ok(t1) && t1.kind == Equal
    requires Next(text, t1, false) == Ok(t2) && t2.kind == LBracket && NormalizeKey(text, tok) == Ok(key)
    ensures var r := ParseKeyval(text, vt, tok, tab);
            var a := ParseArray(text, vt, t2, NewArr(key, NoKind));
            (r.Ok? <==> key !in AllKeys(tab) && a.Ok?) &&
            (r.Ok? ==> r.value.0 == a.value.0 && ArrayIn(r.value.1, key) == Some(a.value.1) &&
                       OnlyArray(tab, r.value.1, key))
  {
    hide Next, NormalizeKey, ParseArray, ParseTable, AllKeys, IndexOf, OnlyArray, ArrayIn;
    FoundIsListed(tab, key);
    if key !in AllKeys(tab) {
      NotAnArray(tab, key);
      var a := ParseArray(text, vt, t2, NewArr(key, NoKind));
      if a.Ok? {
        AppendedArray(tab, a.value.1);
      }
    }
  }

  lemma NotAnArray(t: Tab, key: string)
    requires key !in AllKeys(t)
    ensures IndexOf(ArrKeys(t.arrs), key) == |t.arrs|
  {
    forall j | 0 <= j < |t.arrs| ensures t.arrs[j].key != key {
      assert AllKeys(t)[|t.kvals| + j] == t.arrs[j].key;
    }
  }

  lemma CreatedTableIs(tab: Tab, key: string, u: Tab)
    requires CreateKeytable(tab, key).Ok? && u.key == key
    ensures var (tab1, j) := CreateKeytable(tab, key).value;
            tab1.tabs[j] == SubOrNew(tab, key).(implicit := false) &&
            var tab2 := tab1.(tabs := tab1.tabs[j := u]);
            TableIn(tab2, key) == Some(u) && OnlyTable(tab, tab2, key)
  {
    hide AllKeys, OnlyTable;
    var i := IndexOf(TabKeys(tab.tabs), key);
    if i < |tab.tabs| {
      var v := tab.tabs[i].(implicit := false);
      assert tab.tabs[i := v][i := u] == tab.tabs[i := u];
      ReplacedTable(tab, i, u);
    } else {
      assert (tab.tabs + [NewTab(key, false)])[i := u] == tab.tabs + [u];
      AppendedTable(tab, u);
    }
  }

  /** `key = {...}` reads into the table under the key, which is new or was only implied so far, and changes
      nothing else. */
  lemma InlineTableIsLookedUp(text: CString, vt: string -> char, tok: Token, tab: Tab, t1: Token, t2: Token,
                              key: string)
    requires Inside(text, tok) && Eat(text, tok, Str, true) == Ok(t1) && t1.kind == Equal
    requires Next(text, t1, false) == Ok(t2) && t2.kind == LBrace && NormalizeKey(text, tok) == Ok(key)
    requires ParseKeyval(text, vt, tok, tab).Ok?
    ensures var (t, tab') := ParseKeyval(text, vt, tok, tab).value;
            var sub := ParseTable(text, vt, t2, SubOrNew(tab, key).(implicit := false));
            sub.Ok? && sub.value.0 == t && TableIn(tab', key) == Some(sub.value.1) && OnlyTable(tab, tab', key) &&
            (TableIn(tab, key).Some? ==> TableIn(tab, key).value.implicit)
  {
    hide Next, NormalizeKey, CreateKeytable, TableIn, OnlyTable, SubOrNew, ParseArray, ParseTable;
    var (tab1, j) := CreateKeytable(tab, key).value;
    var sub := ParseTable(text, vt, t2, tab1.tabs[j]);
    CreatedTableIs(tab, key, NewTab(key, false));
    CreatedTableIs(tab, key, sub.value.1);
    OnlyImplied(tab, key);
  }

  lemma OnlyImplied(tab: Tab, key: string)
    requires CreateKeytable(tab, key).Ok?
    ensures TableIn(tab, key).Some? ==> TableIn(tab, key).value.implicit
  {
  }

  // ----- the order of elements ----------------------------------------------------------------

  /** `a'` has the elements of `a`, and behind them `n` more. */
  predicate Appended(a: Arr, a': Arr, n: nat) {
    a.vals <= a'.vals && a.arrs <= a'.arrs && a.tabs <= a'.tabs &&
    |a'.vals| + |a'.arrs| + |a'.tabs| == |a.vals| + |a.arrs| + |a.tabs| + n
  }

  /** An element is put behind those before it; a plain value is the text of its token. */
  lemma ElementIsAppended(text: CString, vt: string -> char, tok: Token, arr: Arr)
    requires Inside(text, tok) && ParseElement(text, vt, tok, arr).Ok?
    ensures var a := ParseElement(text, vt, tok, arr).value.1;
            Appended(arr, a, 1) && (tok.kind == Str ==> a.vals == arr.vals + [text[tok.ptr..tok.End()]])
  {
    hide Next, ParseArray, ParseTable;
  }

  /** The elements of an array stand in the order in which they are read. */
  lemma {:induction false} ElementsInOrder(text: CString, vt: string -> char, tok: Token, arr: Arr) returns (n: nat)
    requires Inside(text, tok) && ParseArrayLoop(text, vt, tok, arr).Ok?
    ensures Appended(arr, ParseArrayLoop(text, vt, tok, arr).value.1, n)
    ensures n == 0 <==> SkipNewlines(text, tok, false).value.kind == RBracket
    decreases |text| - tok.ptr
  {
    hide Next, SkipNewlines, ParseElement, CloseArray;
    var t1 := SkipNewlines(text, tok, false).value;
    n := 0;
    if t1.kind != RBracket {
      var (t2, arr1) := ParseElement(text, vt, t1, arr).value;
      ElementIsAppended(text, vt, t1, arr);
      var t3 := SkipNewlines(text, t2, false).value;
      if t3.kind == Comma {
        n := ElementsInOrder(text, vt, Next(text, t3, false).value, arr1);
      }
      n := n + 1;
    }
  }
}
