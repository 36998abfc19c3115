/** What the statements of a text for sresar/toml.c mean to the callers of its interface: which lookups find which
    values in the tree that toml_parse returns. */
module CTomlLookups {
  import opened Sequences
  import opened Wrappers
  import opened CTomlScan
  import opened CTomlTree
  import opened CTomlParser
  import opened CTomlGrammar
  import opened CTomlMeaning
  import opened CTomlSound
  import opened CTomlContents
  import opened CTomlHeaders

  // ----- what a value is, by lookups ----------------------------------------------------------

  /** Looking up the parts of a key, one after the other, leads to the value: a raw text, an array with just these
      elements in this order, or a table with all these pairs. */
  predicate Holds(t: Tab, keys: seq<string>, val: Val)
    decreases val, 1, |keys|
  {
    keys != [] &&
    if |keys| > 1 then TableIn(t, keys[0]).Some? && Holds(TableIn(t, keys[0]).value, keys[1..], val)
    else
      match val
      case Plain(raw) => RawIn(t, keys[0]) == Some(raw)
      case List(elems) => ArrayIn(t, keys[0]).Some? && HasElems(ArrayIn(t, keys[0]).value, elems)
      case Inline(pairs) => TableIn(t, keys[0]).Some? && HasPairs(TableIn(t, keys[0]).value, pairs)
  }

  predicate HasPairs(t: Tab, pairs: seq<Pair>)
    decreases pairs, 2, 0
  {
    forall i :: 0 <= i < |pairs| ==> Holds(t, pairs[i].keys, pairs[i].val)
  }

  /** The number of elements, of the kind that the array has. */
  function Size(a: Arr): nat {
    match a.kind
    case NoKind => 0
    case Values => |a.vals|
    case Arrays => |a.arrs|
    case Tables => |a.tabs|
  }

  /** The element at index `i`. */
  predicate ElemIs(a: Arr, i: nat, v: Val)
    decreases v, 0, 0
  {
    match v
    case Plain(raw) => a.kind == Values && i < |a.vals| && a.vals[i] == raw
    case List(elems) => a.kind == Arrays && i < |a.arrs| && HasElems(a.arrs[i], elems)
    case Inline(pairs) => a.kind == Tables && i < |a.tabs| && HasPairs(a.tabs[i], pairs)
  }

  /** These are the elements; only headers can add tables to an array of tables. */
  predicate HasElems(a: Arr, elems: seq<Val>)
    decreases elems, 2, 0
  {
    (forall i :: 0 <= i < |elems| ==> ElemIs(a, i, elems[i])) &&
    |elems| <= Size(a) && (a.kind != Tables ==> Size(a) == |elems|)
  }

  // ----- lookups in a tree that has grown -------------------------------------------------------

  lemma {:induction false} IndexInLonger(ks: seq<string>, ks': seq<string>, key: string)
    requires ks <= ks' && IndexOf(ks, key) < |ks|
    ensures IndexOf(ks', key) == IndexOf(ks, key)
  {
    if ks[0] != key {
      assert ks[1..] <= ks'[1..];
      IndexInLonger(ks[1..], ks'[1..], key);
    }
  }

  lemma RawStays(t: Tab, t': Tab, key: string)
    requires Extends(t, t') && RawIn(t, key).Some?
    ensures RawIn(t', key) == RawIn(t, key)
  {
    hide IndexOf, ArrExtends;
    assert ValKeys(t.kvals) <= ValKeys(t'.kvals);
    IndexInLonger(ValKeys(t.kvals), ValKeys(t'.kvals), key);
  }

  lemma ArrayStays(t: Tab, t': Tab, key: string)
    requires Extends(t, t') && ArrayIn(t, key).Some?
    ensures ArrayIn(t', key).Some? && ArrExtends(ArrayIn(t, key).value, ArrayIn(t', key).value)
  {
    hide IndexOf, Extends;
    ExtendedParts(t, t');
    assert ArrKeys(t.arrs) <= ArrKeys(t'.arrs);
    IndexInLonger(ArrKeys(t.arrs), ArrKeys(t'.arrs), key);
  }

  lemma TableStays(t: Tab, t': Tab, key: string)
    requires Extends(t, t') && TableIn(t, key).Some?
    ensures TableIn(t', key).Some? && Extends(TableIn(t, key).value, TableIn(t', key).value)
  {
    hide IndexOf, Extends;
    ExtendedParts(t, t');
    assert TabKeys(t.tabs) <= TabKeys(t'.tabs);
    IndexInLonger(TabKeys(t.tabs), TabKeys(t'.tabs), key);
  }

  lemma ExtendedParts(t: Tab, t': Tab)
    requires Extends(t, t')
    ensures t.key == t'.key && t.kvals <= t'.kvals && |t.arrs| <= |t'.arrs| && |t.tabs| <= |t'.tabs|
    ensures forall i :: 0 <= i < |t.arrs| ==> ArrExtends(t.arrs[i], t'.arrs[i]) && t.arrs[i].key == t'.arrs[i].key
    ensures forall i :: 0 <= i < |t.tabs| ==> Extends(t.tabs[i], t'.tabs[i]) && t.tabs[i].key == t'.tabs[i].key
  {
  }

  /** What a key leads to stays when the tree grows. */
  lemma {:induction false} HoldsOn(t: Tab, t': Tab, keys: seq<string>, val: Val)
    requires Extends(t, t') && Holds(t, keys, val)
    ensures Holds(t', keys, val)
    decreases val, 1, |keys|
  {
    hide Extends, ArrExtends, RawIn, ArrayIn, TableIn, HasElems, HasPairs;
    if |keys| > 1 {
      TableStays(t, t', keys[0]);
      HoldsOn(TableIn(t, keys[0]).value, TableIn(t', keys[0]).value, keys[1..], val);
    } else {
      match val
      case Plain(_) => RawStays(t, t', keys[0]);
      case List(elems) =>
        ArrayStays(t, t', keys[0]);
        ElemsHoldOn(ArrayIn(t, keys[0]).value, ArrayIn(t', keys[0]).value, elems);
      case Inline(pairs) =>
        TableStays(t, t', keys[0]);
        PairsHoldOn(TableIn(t, keys[0]).value, TableIn(t', keys[0]).value, pairs);
    }
  }

  lemma {:induction false} PairsHoldOn(t: Tab, t': Tab, pairs: seq<Pair>)
    requires Extends(t, t') && HasPairs(t, pairs)
    ensures HasPairs(t', pairs)
    decreases pairs, 2, 0
  {
    hide Extends, Holds;
    forall i | 0 <= i < |pairs| ensures Holds(t', pairs[i].keys, pairs[i].val) {
      HoldsOn(t, t', pairs[i].keys, pairs[i].val);
    }
  }

  lemma {:induction false} ElemsHoldOn(a: Arr, a': Arr, elems: seq<Val>)
    requires ArrExtends(a, a') && HasElems(a, elems)
    ensures HasElems(a', elems)
    decreases elems, 2, 0
  {
    hide Extends, ElemIs;
    forall i | 0 <= i < |elems| ensures ElemIs(a', i, elems[i]) {
      ElemHoldsOn(a, a', i, elems[i]);
    }
  }

  lemma {:induction false} ElemHoldsOn(a: Arr, a': Arr, i: nat, v: Val)
    requires ArrExtends(a, a') && ElemIs(a, i, v)
    ensures ElemIs(a', i, v)
    decreases v, 0, 0
  {
    hide Extends, HasElems, HasPairs;
    if v.Inline? {
      PairsHoldOn(a.tabs[i], a'.tabs[i], v.pairs);
    }
  }

  // ----- putting values -----------------------------------------------------------------------

  /** A key and value change nothing but what is under the first part of the key. */
  lemma PutIsLocal(vt: string -> char, tab: Tab, keys: seq<string>, val: Val, k: string)
    requires keys != [] && Put(vt, tab, keys, val).Ok? && k != keys[0]
    ensures var tab' := Put(vt, tab, keys, val).value;
            RawIn(tab', k) == RawIn(tab, k) && ArrayIn(tab', k) == ArrayIn(tab, k) &&
            TableIn(tab', k) == TableIn(tab, k)
  {
    hide RawIn, ArrayIn, TableIn, SubTable, CreateKeytable, PutElems, PutPairs, AllKeys, CheckKey;
    var key := keys[0];
    if |keys| > 1 {
      var (tab1, j) := SubTable(tab, key).value;
      SubTableIs(tab, key, NewTab(key, false));
      SubTableIs(tab, key, Put(vt, tab1.tabs[j], keys[1..], val).value);
    } else {
      match val
      case Plain(raw) => AppendedValue(tab, KeyVal(key, raw), k);
      case List(elems) =>
        NotAnArray(tab, key);
        AppendedArray(tab, PutElems(vt, NewArr(key, NoKind), elems).value);
      case Inline(pairs) =>
        var (tab1, j) := CreateKeytable(tab, key).value;
        CreatedTableIs(tab, key, PutPairs(vt, tab1.tabs[j], pairs).value);
    }
  }

  lemma AppendedValue(tab: Tab, kv: KeyVal, k: string)
    requires CheckKey(tab, kv.key) == NotFound
    ensures var tab' := tab.(kvals := tab.kvals + [kv]);
            RawIn(tab', k) == (if k == kv.key then Some(kv.val) else RawIn(tab, k)) &&
            ArrayIn(tab', k) == ArrayIn(tab, k) && TableIn(tab', k) == TableIn(tab, k)
  {
    hide RawIn;
    RawAfterAppend(tab, kv, k);
  }

  /** A value that has been put under a key is found there. */
  lemma {:induction false} PutHolds(vt: string -> char, tab: Tab, keys: seq<string>, val: Val)
    requires keys != [] && Put(vt, tab, keys, val).Ok? && SoundTab(tab, vt)
    ensures Holds(Put(vt, tab, keys, val).value, keys, val)
    decreases val, 1, |keys|
  {
    hide RawIn, ArrayIn, TableIn, SubTable, CreateKeytable, PutElems, PutPairs, AllKeys, CheckKey, SoundTab, Grows;
    hide HasElems, HasPairs, SubOrNew;
    var key := keys[0];
    if |keys| > 1 {
      var (tab1, j) := SubTable(tab, key).value;
      var sub := Put(vt, tab1.tabs[j], keys[1..], val).value;
      SubTableIs(tab, key, NewTab(key, false));
      SubTableIs(tab, key, sub);
      SubOrNewSound(tab, key, vt);
      PutHolds(vt, tab1.tabs[j], keys[1..], val);
    } else {
      match val
      case Plain(raw) => AppendedValue(tab, KeyVal(key, raw), key);
      case List(elems) =>
        NotAnArray(tab, key);
        NewArrSound(key, vt);
        PutElemsHold(vt, NewArr(key, NoKind), elems);
        AppendedArray(tab, PutElems(vt, NewArr(key, NoKind), elems).value);
        AllElems(NewArr(key, NoKind), PutElems(vt, NewArr(key, NoKind), elems).value, elems);
      case Inline(pairs) =>
        var (tab1, j) := CreateKeytable(tab, key).value;
        var sub := PutPairs(vt, tab1.tabs[j], pairs).value;
        CreatedTableIs(tab, key, sub);
        SubOrNewSound(tab, key, vt);
        PutPairsHold(vt, tab1.tabs[j], pairs);
    }
  }

  lemma SubOrNewSound(tab: Tab, key: string, vt: string -> char)
    requires SoundTab(tab, vt)
    ensures SoundTab(SubOrNew(tab, key), vt) && SoundTab(SubOrNew(tab, key).(implicit := false), vt)
  {
    hide AllKeys, AllDistinct, SoundArr, IndexOf;
    if TableIn(tab, key).None? {
      NewTabSound(key, false, vt);
    } else {
      NoLongerImplicit(TableIn(tab, key).value, vt);
    }
  }

  lemma {:induction false} PutPairsHold(vt: string -> char, tab: Tab, pairs: seq<Pair>)
    requires PutPairs(vt, tab, pairs).Ok? && SoundTab(tab, vt)
    ensures HasPairs(PutPairs(vt, tab, pairs).value, pairs)
    decreases pairs, 0, 0
  {
    hide Holds, Put, SoundTab, Extends, Grows;
    if pairs != [] {
      var p := pairs[0];
      var tab1 := Put(vt, tab, p.keys, p.val).value;
      var tab2 := PutPairs(vt, tab1, pairs[1..]).value;
      PutGrows(vt, tab, p.keys, p.val);
      GrowsSound(tab, tab1, vt);
      PutHolds(vt, tab, p.keys, p.val);
      PutPairsHold(vt, tab1, pairs[1..]);
      PutPairsGrows(vt, tab1, pairs[1..]);
      GrowsSound(tab1, tab2, vt);
      HoldsOn(tab1, tab2, p.keys, p.val);
      forall i | 0 <= i < |pairs| ensures Holds(tab2, pairs[i].keys, pairs[i].val) {
        if i > 0 {
          assert pairs[1..][i - 1] == pairs[i];
        }
      }
    }
  }

  /** The elements that an array has gained, behind those that it had. */
  predicate Gained(a: Arr, a': Arr, elems: seq<Val>) {
    a.vals <= a'.vals && a.arrs <= a'.arrs && a.tabs <= a'.tabs && (a.kind == NoKind || a'.kind == a.kind) &&
    Size(a') == Size(a) + |elems| && forall i :: 0 <= i < |elems| ==> ElemIs(a', Size(a) + i, elems[i])
  }

  lemma {:induction false} PutElemHolds(vt: string -> char, arr: Arr, v: Val)
    requires PutElem(vt, arr, v).Ok? && SoundArr(arr, vt)
    ensures Gained(arr, PutElem(vt, arr, v).value, [v])
    decreases v, 0, 0
  {
    hide SoundTab, PutElems, PutPairs, HasElems, HasPairs;
    match v
    case Plain(raw) =>
    case List(elems) =>
      var sub := PutElems(vt, NewArr("", NoKind), elems).value;
      NewArrSound("", vt);
      PutElemsHold(vt, NewArr("", NoKind), elems);
      AllElems(NewArr("", NoKind), sub, elems);
    case Inline(pairs) =>
      NewTabSound("", false, vt);
      PutPairsHold(vt, NewTab("", false), pairs);
  }

  lemma {:induction false} PutElemsHold(vt: string -> char, arr: Arr, elems: seq<Val>)
    requires PutElems(vt, arr, elems).Ok? && SoundArr(arr, vt)
    ensures Gained(arr, PutElems(vt, arr, elems).value, elems)
    decreases elems, 0, 0
  {
    hide SoundArr, PutElem, ElemIs;
    if elems != [] {
      var arr1 := PutElem(vt, arr, elems[0]).value;
      var arr2 := PutElems(vt, arr1, elems[1..]).value;
      PutElemHolds(vt, arr, elems[0]);
      PutElemSound(vt, arr, elems[0]);
      PutElemsHold(vt, arr1, elems[1..]);
      assert ElemIs(arr1, Size(arr) + 0, [elems[0]][0]);
      ElemStays(arr1, arr2, Size(arr), elems[0]);
      forall i | 0 <= i < |elems| ensures ElemIs(arr2, Size(arr) + i, elems[i]) {
        if i > 0 {
          assert ElemIs(arr2, Size(arr1) + (i - 1), elems[1..][i - 1]);
        }
      }
    }
  }

  lemma ElemStays(a: Arr, a': Arr, i: nat, v: Val)
    requires ElemIs(a, i, v) && a.vals <= a'.vals && a.arrs <= a'.arrs && a.tabs <= a'.tabs && a'.kind == a.kind
    ensures ElemIs(a', i, v)
  {
    hide HasElems, HasPairs;
  }

  lemma AllElems(a: Arr, a': Arr, elems: seq<Val>)
    requires Gained(a, a', elems) && Size(a) == 0
    ensures HasElems(a', elems)
  {
    hide ElemIs;
    forall i | 0 <= i < |elems| ensures ElemIs(a', i, elems[i]) {
      assert ElemIs(a', Size(a) + i, elems[i]);
    }
  }

  // ----- places that stay ---------------------------------------------------------------------

  /** A sub-table, or one of the tables of an array. */
  datatype Spot = Sub(key: string) | Elem(key: string, index: nat)

  function AtSpot(t: Tab, spots: seq<Spot>): Option<Tab>
    decreases |spots|
  {
    if spots == [] then Some(t)
    else
      match spots[0]
      case Sub(key) => if TableIn(t, key).Some? then AtSpot(TableIn(t, key).value, spots[1..]) else None
      case Elem(key, i) =>
        if ArrayIn(t, key).Some? && i < |ArrayIn(t, key).value.tabs|
        then AtSpot(ArrayIn(t, key).value.tabs[i], spots[1..]) else None
  }

  /** The place that `keys` lead to just now: through the last table of each array on the way. */
  function Locate(t: Tab, keys: seq<string>): Option<seq<Spot>>
    decreases |keys|
  {
    if keys == [] then Some([])
    else if TableIn(t, keys[0]).Some? then Further(Sub(keys[0]), Locate(TableIn(t, keys[0]).value, keys[1..]))
    else
      match ArrayIn(t, keys[0])
      case Some(a) =>
        if a.kind == Tables && a.tabs != []
        then Further(Elem(keys[0], |a.tabs| - 1), Locate(a.tabs[|a.tabs| - 1], keys[1..])) else None
      case None => None
  }

  function Further(spot: Spot, more: Option<seq<Spot>>): Option<seq<Spot>> {
    match more
    case Some(spots) => Some([spot] + spots)
    case None => None
  }

  lemma {:induction false} LocateReaches(t: Tab, keys: seq<string>)
    ensures Locate(t, keys).Some? <==> Reach(t, keys).Some?
    ensures Locate(t, keys).Some? ==> AtSpot(t, Locate(t, keys).value) == Reach(t, keys)
    decreases |keys|
  {
    hide TableIn, ArrayIn;
    if keys != [] {
      if TableIn(t, keys[0]).Some? {
        LocateReaches(TableIn(t, keys[0]).value, keys[1..]);
      } else if ArrayIn(t, keys[0]).Some? {
        var a := ArrayIn(t, keys[0]).value;
        if a.kind == Tables && a.tabs != [] {
          LocateReaches(a.tabs[|a.tabs| - 1], keys[1..]);
        }
      }
    }
  }

  /** A place stays when the tree grows, and what is there grows. */
  lemma {:induction false} SpotStays(t: Tab, t': Tab, spots: seq<Spot>)
    requires Extends(t, t') && AtSpot(t, spots).Some?
    ensures AtSpot(t', spots).Some? && Extends(AtSpot(t, spots).value, AtSpot(t', spots).value)
    decreases |spots|
  {
    hide TableIn, ArrayIn, Extends;
    if spots != [] {
      match spots[0]
      case Sub(key) =>
        TableStays(t, t', key);
        SpotStays(TableIn(t, key).value, TableIn(t', key).value, spots[1..]);
      case Elem(key, i) =>
        ArrayStays(t, t', key);
        SpotStays(ArrayIn(t, key).value.tabs[i], ArrayIn(t', key).value.tabs[i], spots[1..]);
    }
  }

  // ----- statements ---------------------------------------------------------------------------

  /** The keys of the last header. */
  function Section(stmts: seq<Stmt>): seq<string> {
    if stmts == [] then []
    else
      match stmts[|stmts| - 1]
      case Head(keys, _) => keys
      case Item(_) => Section(stmts[..|stmts| - 1])
  }

  lemma {:induction false} RunSnoc(vt: string -> char, root: Tab, cur: seq<Step>, stmts: seq<Stmt>, more: seq<Stmt>)
    requires HasPath(root, cur)
    ensures var r := Run(vt, root, cur, stmts);
            Run(vt, root, cur, stmts + more) == if r.Ok? then Run(vt, r.value.0, r.value.1, more) else r
    decreases |stmts|
  {
    hide Put, OpenPath, With, At, HasPath;
    if stmts == [] {
      assert stmts + more == more;
    } else {
      assert (stmts + more)[1..] == stmts[1..] + more;
      match stmts[0]
      case Item(pair) =>
        if pair.keys != [] && Put(vt, At(root, cur), pair.keys, pair.val).Ok? {
          var tab := Put(vt, At(root, cur), pair.keys, pair.val).value;
          KeepPath(root, cur, tab);
          RunSnoc(vt, With(root, cur, tab), cur, stmts[1..], more);
        }
      case Head(keys, double) =>
        if keys != [] && OpenPath(root, keys, double).Ok? {
          var (root1, cur1) := OpenPath(root, keys, double).value;
          RunSnoc(vt, root1, cur1, stmts[1..], more);
        }
    }
  }

  /** After any statements, the lookups along the last header lead to the table that the next key goes to. */
  lemma {:induction false} RunSection(vt: string -> char, stmts: seq<Stmt>)
    requires Run(vt, ROOT, [], stmts).Ok?
    ensures var (t, cur) := Run(vt, ROOT, [], stmts).value;
            SoundTab(t, vt) && Names(cur) == Section(stmts) && Reach(t, Section(stmts)) == Some(At(t, cur))
    decreases |stmts|
  {
    hide SoundTab, Put, OpenPath, With, At, HasPath, Reach, Names;
    RootReached();
    if stmts == [] {
      RootSound(vt);
    } else {
      var front, last := stmts[..|stmts| - 1], stmts[|stmts| - 1];
      assert stmts == front + [last];
      RunSnoc(vt, ROOT, [], front, [last]);
      RunSection(vt, front);
      var (t, cur) := Run(vt, ROOT, [], front).value;
      RunSound(vt, t, cur, last);
    }
  }

  lemma RootReached()
    ensures HasPath(ROOT, []) && Names([]) == [] && Reach(ROOT, []) == Some(At(ROOT, []))
  {
  }

  lemma RunSound(vt: string -> char, t: Tab, cur: seq<Step>, stmt: Stmt)
    requires HasPath(t, cur) && SoundTab(t, vt) && Run(vt, t, cur, [stmt]).Ok?
    ensures var (t', cur') := Run(vt, t, cur, [stmt]).value;
            SoundTab(t', vt) && Extends(t, t') && Reach(t', Names(cur')) == Some(At(t', cur')) &&
            Names(cur') == if stmt.Head? then stmt.keys else Names(cur)
  {
    hide SoundTab, Extends, Put, OpenPath, With, At, HasPath, Reach, Names, Grows;
    assert [stmt][1..] == [];
    RunGrows(vt, t, cur, [stmt]);
    var (t', cur') := Run(vt, t, cur, [stmt]).value;
    GrowsSound(t, t', vt);
    PathReaches(t', cur', vt);
    if stmt.Head? {
      OpenPathOpens(t, stmt.keys, stmt.double, vt);
    }
  }

  /** The state behind the first `k` statements. */
  lemma RunPrefix(vt: string -> char, stmts: seq<Stmt>, k: nat)
    requires k <= |stmts| && Made(vt, stmts).Ok?
    ensures Made(vt, stmts[..k]).Ok? && Run(vt, ROOT, [], stmts[..k]).Ok?
    ensures var (t, cur) := Run(vt, ROOT, [], stmts[..k]).value;
            t == Made(vt, stmts[..k]).value && Run(vt, t, cur, stmts[k..]) == Run(vt, ROOT, [], stmts) &&
            SoundTab(t, vt) && Extends(t, Made(vt, stmts).value)
  {
    hide Run, SoundTab, Extends, HasPath, Grows;
    RootReached();
    assert stmts[..k] + stmts[k..] == stmts;
    RunSnoc(vt, ROOT, [], stmts[..k], stmts[k..]);
    RunSection(vt, stmts[..k]);
    var (t, cur) := Run(vt, ROOT, [], stmts[..k]).value;
    RunGrows(vt, t, cur, stmts[k..]);
    GrowsSound(t, Made(vt, stmts).value, vt);
  }

  /** One more statement. */
  lemma RunNext(vt: string -> char, stmts: seq<Stmt>, k: nat)
    requires k < |stmts| && Made(vt, stmts).Ok?
    ensures Run(vt, ROOT, [], stmts[..k]).Ok? && Run(vt, ROOT, [], stmts[..k + 1]).Ok?
    ensures var (t, cur) := Run(vt, ROOT, [], stmts[..k]).value;
            Run(vt, ROOT, [], stmts[..k + 1]) == Run(vt, t, cur, [stmts[k]])
  {
    hide Run, HasPath;
    RootReached();
    RunPrefix(vt, stmts, k);
    RunPrefix(vt, stmts, k + 1);
    assert stmts[..k + 1] == stmts[..k] + [stmts[k]];
    RunSnoc(vt, ROOT, [], stmts[..k], [stmts[k]]);
  }

  /** Behind the header before it, a key's value is in the table that the lookups along that header lead to at that
      point, and the lookups of its parts find it there, in the tree at the end. */
  predicate KeyIsFound(vt: string -> char, stmts: seq<Stmt>, k: nat)
    requires k < |stmts| && stmts[k].Item?
  {
    Made(vt, stmts).Ok? && Made(vt, stmts[..k + 1]).Ok? &&
    var place := Locate(Made(vt, stmts[..k + 1]).value, Section(stmts[..k]));
    place.Some? &&
    var tab := AtSpot(Made(vt, stmts).value, place.value);
    tab.Some? && Holds(tab.value, stmts[k].pair.keys, stmts[k].pair.val)
  }

  lemma KeysAreFound(vt: string -> char, stmts: seq<Stmt>, k: nat)
    requires k < |stmts| && stmts[k].Item? && Made(vt, stmts).Ok?
    ensures KeyIsFound(vt, stmts, k)
  {
    hide Run, Made, SoundTab, Extends, HasPath, Reach, Holds, Locate, AtSpot, With, At, Names, Put, Section;
    var pair := stmts[k].pair;
    RootReached();
    RunPrefix(vt, stmts, k);
    RunPrefix(vt, stmts, k + 1);
    RunNext(vt, stmts, k);
    RunSection(vt, stmts[..k]);
    var (t, cur) := Run(vt, ROOT, [], stmts[..k]).value;
    var (t1, cur1) := Run(vt, ROOT, [], stmts[..k + 1]).value;
    ItemLands(vt, t, cur, pair);
    var keys := Section(stmts[..k]);
    LocateReaches(t1, keys);
    var place := Locate(t1, keys).value;
    var tab := AtSpot(t1, place).value;
    SpotStays(t1, Made(vt, stmts).value, place);
    HoldsOn(tab, AtSpot(Made(vt, stmts).value, place).value, pair.keys, pair.val);
  }

  /** Where one key and value go. */
  lemma ItemLands(vt: string -> char, t: Tab, cur: seq<Step>, pair: Pair)
    requires HasPath(t, cur) && SoundTab(t, vt) && Run(vt, t, cur, [Item(pair)]).Ok?
    ensures var t1 := Run(vt, t, cur, [Item(pair)]).value.0;
            Reach(t1, Names(cur)).Some? && Holds(Reach(t1, Names(cur)).value, pair.keys, pair.val)
  {
    hide SoundTab, Extends, HasPath, Reach, Holds, With, At, Names, Put;
    var stmts := [Item(pair)];
    assert stmts[1..] == [];
    RunSound(vt, t, cur, Item(pair));
    var tab := Put(vt, At(t, cur), pair.keys, pair.val).value;
    KeepPath(t, cur, tab);
    AtSound(t, cur, vt);
    PutHolds(vt, At(t, cur), pair.keys, pair.val);
  }

  lemma {:induction false} AtSound(t: Tab, path: seq<Step>, vt: string -> char)
    requires HasPath(t, path) && SoundTab(t, vt)
    ensures SoundTab(At(t, path), vt)
    decreases |path|
  {
    hide SoundTab, CanStep, StepTo;
    if path != [] {
      StepIsSound(t, path[0], vt);
      AtSound(StepTo(t, path[0]), path[1..], vt);
    }
  }

  /** A header: its table is found under its keys right behind it, empty and new, or with what was implied so far. */
  lemma HeadsAreOpened(vt: string -> char, stmts: seq<Stmt>, k: nat)
    requires k < |stmts| && stmts[k].Head? && Made(vt, stmts).Ok?
    ensures Made(vt, stmts[..k]).Ok? && Made(vt, stmts[..k + 1]).Ok? && stmts[k].keys != []
    ensures var (t, t1, keys) := (Made(vt, stmts[..k]).value, Made(vt, stmts[..k + 1]).value, stmts[k].keys);
            Extends(t, t1) &&
            Reach(t1, keys) == Some(if stmts[k].double then NewTab("__anon__", false)
                                    else if Reach(t, keys).Some? then Reach(t, keys).value.(implicit := false)
                                    else NewTab(keys[|keys| - 1], false))
  {
    hide Made, SoundTab, Extends, HasPath, Reach, With, At, Names, OpenPath;
    var keys, double := stmts[k].keys, stmts[k].double;
    RootReached();
    RunPrefix(vt, stmts, k);
    RunPrefix(vt, stmts, k + 1);
    RunNext(vt, stmts, k);
    var (t, cur) := Run(vt, ROOT, [], stmts[..k]).value;
    assert [stmts[k]][1..] == [];
    RunSound(vt, t, cur, stmts[k]);
    OpenPathOpens(t, keys, double, vt);
  }

  /** Every text that is accepted shows statements, and each of its keys is found. */
  lemma EveryKeyIsFound(text: CString, vt: string -> char) returns (stmts: seq<Stmt>)
    requires TomlParse(text, vt).Ok?
    ensures IsText(text, stmts) && TomlParse(text, vt) == Made(vt, stmts)
    ensures forall k :: 0 <= k < |stmts| && stmts[k].Item? ==> KeyIsFound(vt, stmts, k)
  {
    hide TomlParse, IsText, Made, KeyIsFound;
    stmts := TextIsShown(text, vt);
    TextIsMade(text, vt, stmts);
    forall k | 0 <= k < |stmts| && stmts[k].Item? ensures KeyIsFound(vt, stmts, k) {
      KeysAreFound(vt, stmts, k);
    }
  }
}
