/** The tables and arrays of sresar/toml.c, and how entries are looked up and created in them. */
module CTomlTree {
  import opened Sequences
  import opened Wrappers

  /** A key and the raw text of its value. */
  datatype KeyVal = KeyVal(key: string, val: string)

  /** The element kind of an array; `NoKind` before its first element. */
  datatype ArrKind = NoKind | Values | Arrays | Tables

  /** The union of the original holds the elements of one kind; the other two are empty here. */
  datatype Arr = Arr(key: string, kind: ArrKind, valtype: char, vals: seq<string>, arrs: seq<Arr>, tabs: seq<Tab>)

  datatype Tab = Tab(key: string, implicit: bool, kvals: seq<KeyVal>, arrs: seq<Arr>, tabs: seq<Tab>)

  function NewTab(key: string, implicit: bool): Tab {
    Tab(key, implicit, [], [], [])
  }

  function NewArr(key: string, kind: ArrKind): Arr {
    Arr(key, kind, '\0', [], [], [])
  }

  function ValKeys(kvals: seq<KeyVal>): (ks: seq<string>)
    ensures |ks| == |kvals| && forall i :: 0 <= i < |ks| ==> ks[i] == kvals[i].key
  {
    seq(|kvals|, i requires 0 <= i < |kvals| => kvals[i].key)
  }

  function ArrKeys(arrs: seq<Arr>): (ks: seq<string>)
    ensures |ks| == |arrs| && forall i :: 0 <= i < |ks| ==> ks[i] == arrs[i].key
  {
    seq(|arrs|, i requires 0 <= i < |arrs| => arrs[i].key)
  }

  function TabKeys(tabs: seq<Tab>): (ks: seq<string>)
    ensures |ks| == |tabs| && forall i :: 0 <= i < |ks| ==> ks[i] == tabs[i].key
  {
    seq(|tabs|, i requires 0 <= i < |tabs| => tabs[i].key)
  }

  /** The keys of a table in the order of toml_key_in. */
  function AllKeys(t: Tab): (ks: seq<string>)
    ensures |ks| == |t.kvals| + |t.arrs| + |t.tabs|
  {
    ValKeys(t.kvals) + ArrKeys(t.arrs) + TabKeys(t.tabs)
  }

  /** The first index of `key`, or the length. */
  function IndexOf(ks: seq<string>, key: string): (i: nat)
    ensures i <= |ks|
    ensures i < |ks| ==> ks[i] == key
    ensures forall j :: 0 <= j < i ==> ks[j] != key
  {
    if ks == [] || ks[0] == key then 0 else 1 + IndexOf(ks[1..], key)
  }

  datatype Found = NotFound | AVal(v: nat) | AnArr(a: nat) | ATab(t: nat)

  /** check_key. */
  function CheckKey(t: Tab, key: string): (f: Found)
    ensures match f
            case NotFound => key !in AllKeys(t)
            case AVal(i) => i < |t.kvals| && t.kvals[i].key == key
            case AnArr(i) => i < |t.arrs| && t.arrs[i].key == key && IndexOf(ArrKeys(t.arrs), key) == i
            case ATab(i) => i < |t.tabs| && t.tabs[i].key == key && IndexOf(TabKeys(t.tabs), key) == i
  {
    var v, a, b := IndexOf(ValKeys(t.kvals), key), IndexOf(ArrKeys(t.arrs), key), IndexOf(TabKeys(t.tabs), key);
    if v < |t.kvals| then AVal(v)
    else if a < |t.arrs| then AnArr(a)
    else if b < |t.tabs| then ATab(b)
    else NotFound
  }

  // ----- lookups of the interface -------------------------------------------------------------

  /** toml_key_in. */
  function KeyIn(t: Tab, idx: nat): Option<string> {
    var i1 := idx - |t.kvals|;
    var i2 := i1 - |t.arrs|;
    if i1 < 0 then Some(t.kvals[idx].key)
    else if i2 < 0 then Some(t.arrs[i1].key)
    else if i2 < |t.tabs| then Some(t.tabs[i2].key)
    else None
  }

  /** toml_raw_in. */
  function RawIn(t: Tab, key: string): Option<string> {
    var i := IndexOf(ValKeys(t.kvals), key);
    if i < |t.kvals| then Some(t.kvals[i].val) else None
  }

  /** toml_array_in. */
  function ArrayIn(t: Tab, key: string): Option<Arr> {
    var i := IndexOf(ArrKeys(t.arrs), key);
    if i < |t.arrs| then Some(t.arrs[i]) else None
  }

  /** toml_table_in. */
  function TableIn(t: Tab, key: string): Option<Tab> {
    var i := IndexOf(TabKeys(t.tabs), key);
    if i < |t.tabs| then Some(t.tabs[i]) else None
  }

  /** toml_key_in lists the keys in order and then ends. */
  lemma KeyInLists(t: Tab, idx: nat)
    ensures KeyIn(t, idx) == if idx < |AllKeys(t)| then Some(AllKeys(t)[idx]) else None
  {
  }

  lemma KeyAtOneIndex(t: Tab, key: string)
    requires AllDistinct(AllKeys(t))
    ensures key in AllKeys(t) ==> exists i :: 0 <= i < |AllKeys(t)| && KeyIn(t, i) == Some(key)
    ensures forall i: nat, j: nat :: KeyIn(t, i) == Some(key) && KeyIn(t, j) == Some(key) ==> i == j
  {
    hide KeyIn, AllKeys;
    var ks := AllKeys(t);
    forall i: nat ensures KeyIn(t, i) == if i < |ks| then Some(ks[i]) else None {
      KeyInLists(t, i);
    }
    if key in ks {
      var i :| 0 <= i < |ks| && ks[i] == key;
      assert KeyIn(t, i) == Some(key);
    }
  }

  lemma KeysApart(t: Tab, i: nat, j: nat)
    requires AllDistinct(AllKeys(t)) && i < |AllKeys(t)| && j < |AllKeys(t)| && AllKeys(t)[i] == AllKeys(t)[j]
    ensures i == j
  {
    hide AllKeys;
  }

  lemma OneLookup(t: Tab, key: string)
    requires AllDistinct(AllKeys(t))
    ensures var found := (if RawIn(t, key).Some? then 1 else 0) + (if ArrayIn(t, key).Some? then 1 else 0)
                       + (if TableIn(t, key).Some? then 1 else 0);
            found == if key in AllKeys(t) then 1 else 0
  {
    hide AllDistinct, IndexOf;
    var ks, n, m := AllKeys(t), |t.kvals|, |t.kvals| + |t.arrs|;
    var v, a, b := IndexOf(ValKeys(t.kvals), key), IndexOf(ArrKeys(t.arrs), key), IndexOf(TabKeys(t.tabs), key);
    assert v < |t.kvals| ==> ks[v] == key;
    assert a < |t.arrs| ==> ks[n + a] == key;
    assert b < |t.tabs| ==> ks[m + b] == key;
    if v < |t.kvals| && a < |t.arrs| {
      KeysApart(t, v, n + a);
    }
    if v < |t.kvals| && b < |t.tabs| {
      KeysApart(t, v, m + b);
    }
    if a < |t.arrs| && b < |t.tabs| {
      KeysApart(t, n + a, m + b);
    }
    if CheckKey(t, key) == NotFound {
      assert key !in ks;
    }
  }

  /** In a table with distinct keys, toml_key_in over 0, 1, 2, ... gives each key exactly once, and exactly one
      of the three lookups finds it. */
  lemma EachKeyOnce(t: Tab, key: string)
    requires AllDistinct(AllKeys(t))
    ensures key in AllKeys(t) ==> exists i :: 0 <= i < |AllKeys(t)| && KeyIn(t, i) == Some(key)
    ensures forall i: nat, j: nat :: KeyIn(t, i) == Some(key) && KeyIn(t, j) == Some(key) ==> i == j
    ensures var found := (if RawIn(t, key).Some? then 1 else 0) + (if ArrayIn(t, key).Some? then 1 else 0)
                       + (if TableIn(t, key).Some? then 1 else 0);
            found == if key in AllKeys(t) then 1 else 0
  {
    hide KeyIn, AllKeys, RawIn, ArrayIn, TableIn, AllDistinct;
    KeyAtOneIndex(t, key);
    OneLookup(t, key);
  }

  // ----- trees as parsing leaves them ---------------------------------------------------------

  /** Distinct keys in every table, one kind of elements in every array, one value type in every value array. */
  predicate SoundTab(t: Tab, vt: string -> char) {
    AllDistinct(AllKeys(t)) &&
    (forall i :: 0 <= i < |t.arrs| ==> SoundArr(t.arrs[i], vt)) &&
    (forall i :: 0 <= i < |t.tabs| ==> SoundTab(t.tabs[i], vt))
  }

  predicate SoundArr(a: Arr, vt: string -> char) {
    match a.kind
    case NoKind => a.vals == [] && a.arrs == [] && a.tabs == []
    case Values =>
      a.vals != [] && a.arrs == [] && a.tabs == [] && forall i :: 0 <= i < |a.vals| ==> vt(a.vals[i]) == a.valtype
    case Arrays =>
      a.vals == [] && a.arrs != [] && a.tabs == [] && forall i :: 0 <= i < |a.arrs| ==> SoundArr(a.arrs[i], vt)
    case Tables =>
      a.vals == [] && a.arrs == [] && a.tabs != [] && forall i :: 0 <= i < |a.tabs| ==> SoundTab(a.tabs[i], vt)
  }

  /** Everything in `t` is still in `t'`: values as they were, arrays and tables at most longer. */
  predicate Extends(t: Tab, t': Tab) {
    t.key == t'.key && (t'.implicit ==> t.implicit) && t.kvals <= t'.kvals &&
    |t.arrs| <= |t'.arrs| && (forall i :: 0 <= i < |t.arrs| ==> ArrExtends(t.arrs[i], t'.arrs[i])) &&
    |t.tabs| <= |t'.tabs| && (forall i :: 0 <= i < |t.tabs| ==> Extends(t.tabs[i], t'.tabs[i]))
  }

  /** Only an array of tables can grow after it has been read. */
  predicate ArrExtends(a: Arr, a': Arr) {
    a.key == a'.key && a.kind == a'.kind && a.valtype == a'.valtype && a.vals == a'.vals && a.arrs == a'.arrs &&
    |a.tabs| <= |a'.tabs| && forall i :: 0 <= i < |a.tabs| ==> Extends(a.tabs[i], a'.tabs[i])
  }

  lemma {:induction false} ExtendsSelf(t: Tab)
    ensures Extends(t, t)
    decreases t
  {
    forall i | 0 <= i < |t.arrs| ensures ArrExtends(t.arrs[i], t.arrs[i]) {
      ArrExtendsSelf(t.arrs[i]);
    }
    forall i | 0 <= i < |t.tabs| ensures Extends(t.tabs[i], t.tabs[i]) {
      ExtendsSelf(t.tabs[i]);
    }
  }

  lemma {:induction false} ArrExtendsSelf(a: Arr)
    ensures ArrExtends(a, a)
    decreases a
  {
    forall i | 0 <= i < |a.tabs| ensures Extends(a.tabs[i], a.tabs[i]) {
      ExtendsSelf(a.tabs[i]);
    }
  }

  lemma {:induction false} ExtendsTrans(t: Tab, u: Tab, v: Tab)
    requires Extends(t, u) && Extends(u, v)
    ensures Extends(t, v)
    decreases t
  {
    forall i | 0 <= i < |t.arrs| ensures ArrExtends(t.arrs[i], v.arrs[i]) {
      ArrExtendsTrans(t.arrs[i], u.arrs[i], v.arrs[i]);
    }
    forall i | 0 <= i < |t.tabs| ensures Extends(t.tabs[i], v.tabs[i]) {
      ExtendsTrans(t.tabs[i], u.tabs[i], v.tabs[i]);
    }
  }

  lemma {:induction false} ArrExtendsTrans(a: Arr, b: Arr, c: Arr)
    requires ArrExtends(a, b) && ArrExtends(b, c)
    ensures ArrExtends(a, c)
    decreases a
  {
    forall i | 0 <= i < |a.tabs| ensures Extends(a.tabs[i], c.tabs[i]) {
      ExtendsTrans(a.tabs[i], b.tabs[i], c.tabs[i]);
    }
  }

  /** One step of construction: sound before, sound after, and nothing lost. */
  predicate Grows(t: Tab, t': Tab, vt: string -> char) {
    SoundTab(t, vt) ==> SoundTab(t', vt) && Extends(t, t')
  }

  lemma GrowsTrans(t: Tab, u: Tab, v: Tab, vt: string -> char)
    requires Grows(t, u, vt) && Grows(u, v, vt)
    ensures Grows(t, v, vt)
  {
    hide SoundTab, Extends;
    if SoundTab(t, vt) {
      ExtendsTrans(t, u, v);
    }
  }

  lemma GrowsSelf(t: Tab, vt: string -> char)
    ensures Grows(t, t, vt)
  {
    hide SoundTab, Extends;
    ExtendsSelf(t);
  }

  // ----- creating entries ---------------------------------------------------------------------

  lemma DistinctInsert(a: seq<string>, b: seq<string>, key: string)
    requires AllDistinct(a + b) && key !in a + b
    ensures AllDistinct(a + [key] + b)
  {
    var ks := a + [key] + b;
    forall i, j | 0 <= i < j < |ks| ensures ks[i] != ks[j] {
      assert forall k :: 0 <= k < |a| ==> ks[k] == (a + b)[k];
      assert forall k :: |a| < k < |ks| ==> ks[k] == (a + b)[k - 1];
    }
  }

  lemma KeysAfterVal(t: Tab, kv: KeyVal)
    requires AllDistinct(AllKeys(t)) && kv.key !in AllKeys(t)
    ensures AllDistinct(AllKeys(t.(kvals := t.kvals + [kv])))
  {
    hide AllDistinct;
    var a, b := ValKeys(t.kvals), ArrKeys(t.arrs) + TabKeys(t.tabs);
    assert AllKeys(t) == a + b;
    DistinctInsert(a, b, kv.key);
    assert ValKeys(t.kvals + [kv]) == a + [kv.key];
    assert AllKeys(t.(kvals := t.kvals + [kv])) == a + [kv.key] + b;
  }

  lemma KeysAfterArr(t: Tab, x: Arr)
    requires AllDistinct(AllKeys(t)) && x.key !in AllKeys(t)
    ensures AllDistinct(AllKeys(t.(arrs := t.arrs + [x])))
  {
    hide AllDistinct;
    var a, b := ValKeys(t.kvals) + ArrKeys(t.arrs), TabKeys(t.tabs);
    DistinctInsert(a, b, x.key);
    assert ArrKeys(t.arrs + [x]) == ArrKeys(t.arrs) + [x.key];
    assert AllKeys(t.(arrs := t.arrs + [x])) == a + [x.key] + b;
  }

  lemma KeysAfterTab(t: Tab, u: Tab)
    requires AllDistinct(AllKeys(t)) && u.key !in AllKeys(t)
    ensures AllDistinct(AllKeys(t.(tabs := t.tabs + [u])))
  {
    hide AllDistinct;
    DistinctInsert(AllKeys(t), [], u.key);
    assert AllKeys(t) + [] == AllKeys(t);
    assert TabKeys(t.tabs + [u]) == TabKeys(t.tabs) + [u.key];
    assert AllKeys(t.(tabs := t.tabs + [u])) == AllKeys(t) + [u.key] + [];
  }

  /** Append a key and value. */
  lemma AppendVal(t: Tab, kv: KeyVal, vt: string -> char)
    requires CheckKey(t, kv.key) == NotFound
    ensures Grows(t, t.(kvals := t.kvals + [kv]), vt)
  {
    hide SoundArr, ArrExtends, AllDistinct, AllKeys;
    if SoundTab(t, vt) {
      KeysAfterVal(t, kv);
      ExtendsSelf(t);
    }
  }

  /** Append an array. */
  lemma AppendArr(t: Tab, a: Arr, vt: string -> char)
    requires CheckKey(t, a.key) == NotFound && SoundArr(a, vt)
    ensures Grows(t, t.(arrs := t.arrs + [a]), vt)
  {
    hide SoundArr, ArrExtends, AllDistinct, AllKeys;
    if SoundTab(t, vt) {
      KeysAfterArr(t, a);
      ExtendsSelf(t);
    }
  }

  /** Append a table. */
  lemma AppendTab(t: Tab, u: Tab, vt: string -> char)
    requires CheckKey(t, u.key) == NotFound && SoundTab(u, vt)
    ensures Grows(t, t.(tabs := t.tabs + [u]), vt)
  {
    hide SoundTab, Extends, CheckKey, AllKeys;
    if SoundTab(t, vt) {
      AppendTabSound(t, u, vt);
      AppendTabExtends(t, u);
    }
  }

  lemma AppendTabSound(t: Tab, u: Tab, vt: string -> char)
    requires SoundTab(t, vt) && SoundTab(u, vt) && u.key !in AllKeys(t)
    ensures SoundTab(t.(tabs := t.tabs + [u]), vt)
  {
    hide SoundArr, AllDistinct, AllKeys;
    KeysAfterTab(t, u);
  }

  lemma AppendTabExtends(t: Tab, u: Tab)
    ensures Extends(t, t.(tabs := t.tabs + [u]))
  {
    hide ArrExtends;
    ExtendsSelf(t);
  }

  /** A sub-table grows. */
  lemma ReplaceTab(t: Tab, i: nat, u: Tab, vt: string -> char)
    requires i < |t.tabs| && Grows(t.tabs[i], u, vt)
    ensures Grows(t, t.(tabs := t.tabs[i := u]), vt)
  {
    hide SoundArr, ArrExtends;
    var t' := t.(tabs := t.tabs[i := u]);
    if SoundTab(t, vt) {
      assert AllKeys(t') == AllKeys(t) by {
        assert TabKeys(t'.tabs) == TabKeys(t.tabs);
      }
      ExtendsSelf(t);
    }
  }

  /** An array of tables grows. */
  lemma ReplaceArr(t: Tab, i: nat, a: Arr, vt: string -> char)
    requires i < |t.arrs| && (SoundArr(t.arrs[i], vt) ==> SoundArr(a, vt) && ArrExtends(t.arrs[i], a))
    ensures Grows(t, t.(arrs := t.arrs[i := a]), vt)
  {
    hide SoundArr;
    var t' := t.(arrs := t.arrs[i := a]);
    if SoundTab(t, vt) {
      assert AllKeys(t') == AllKeys(t) by {
        assert ArrKeys(t'.arrs) == ArrKeys(t.arrs);
      }
      ExtendsSelf(t);
    }
  }

  /** The last table of an array grows. */
  lemma ReplaceLast(a: Arr, u: Tab, vt: string -> char)
    requires a.kind == Tables && a.tabs != [] && Grows(a.tabs[|a.tabs| - 1], u, vt)
    ensures SoundArr(a, vt) ==> SoundArr(a.(tabs := a.tabs[|a.tabs| - 1 := u]), vt) &&
                                ArrExtends(a, a.(tabs := a.tabs[|a.tabs| - 1 := u]))
  {
    hide SoundTab, Extends;
    forall i | 0 <= i < |a.tabs| ensures Extends(a.tabs[i], a.tabs[i]) {
      ExtendsSelf(a.tabs[i]);
    }
  }

  /** One more table in an array of tables. */
  lemma PushTab(a: Arr, u: Tab, vt: string -> char)
    requires a.kind == Tables && SoundTab(u, vt)
    ensures SoundArr(a, vt) ==> SoundArr(a.(tabs := a.tabs + [u]), vt) && ArrExtends(a, a.(tabs := a.tabs + [u]))
  {
    hide SoundTab, Extends;
    forall i | 0 <= i < |a.tabs| ensures Extends(a.tabs[i], a.tabs[i]) {
      ExtendsSelf(a.tabs[i]);
    }
  }

  lemma NewTabSound(key: string, implicit: bool, vt: string -> char)
    ensures SoundTab(NewTab(key, implicit), vt)
  {
  }
}
