/** Which statements sresar/toml.c carries out, and which it refuses. */
module CTomlAccepts {
  import opened Sequences
  import opened Wrappers
  import opened CTomlTree
  import opened CTomlParser
  import opened CTomlGrammar
  import opened CTomlMeaning
  import opened CTomlSound
  import opened CTomlContents
  import opened CTomlHeaders
  import opened CTomlLookups

  /** The pairs of an inline table change no lookups but those of their first parts. */
  lemma {:induction false} PairsAreLocal(vt: string -> char, tab: Tab, pairs: seq<Pair>, k: string)
    requires PutPairs(vt, tab, pairs).Ok?
    requires forall i :: 0 <= i < |pairs| && pairs[i].keys != [] ==> pairs[i].keys[0] != k
    ensures var tab' := PutPairs(vt, tab, pairs).value;
            RawIn(tab', k) == RawIn(tab, k) && ArrayIn(tab', k) == ArrayIn(tab, k) &&
            TableIn(tab', k) == TableIn(tab, k)
    decreases |pairs|
  {
    hide Put, RawIn, ArrayIn, TableIn;
    if pairs != [] {
      PutIsLocal(vt, tab, pairs[0].keys, pairs[0].val, k);
      PairsAreLocal(vt, Put(vt, tab, pairs[0].keys, pairs[0].val).value, pairs[1..], k);
    }
  }

  /** The first part of the key is free, or a table that more can be put into. */
  predicate IsOpenKey(tab: Tab, key: string, again: bool) {
    key !in AllKeys(tab) || (CheckKey(tab, key).ATab? && (again || tab.tabs[CheckKey(tab, key).t].implicit))
  }

  /** A value is accepted if and only if its key is not there; under a dotted key, if the first part is free or a
      table, and the rest is accepted in it; an inline table also where a header has only implied the table. */
  lemma PutAcceptedIff(vt: string -> char, tab: Tab, keys: seq<string>, val: Val)
    requires keys != []
    ensures Put(vt, tab, keys, val).Ok? <==>
              if |keys| > 1 then
                (TableIn(tab, keys[0]).Some? || keys[0] !in AllKeys(tab)) &&
                Put(vt, SubOrNew(tab, keys[0]), keys[1..], val).Ok?
              else
                match val
                case Plain(_) => keys[0] !in AllKeys(tab)
                case List(elems) => keys[0] !in AllKeys(tab) && PutElems(vt, NewArr(keys[0], NoKind), elems).Ok?
                case Inline(pairs) =>
                  IsOpenKey(tab, keys[0], false) &&
                  PutPairs(vt, SubOrNew(tab, keys[0]).(implicit := false), pairs).Ok?
  {
    hide AllKeys, PutElems, PutPairs, IndexOf, SubOrNew;
    FoundIsListed(tab, keys[0]);
    if |keys| > 1 {
      if SubTable(tab, keys[0]).Ok? {
        SubTableIs(tab, keys[0], NewTab(keys[0], false));
      }
    } else if val.Inline? && CreateKeytable(tab, keys[0]).Ok? {
      CreatedTableIs(tab, keys[0], NewTab(keys[0], false));
    }
  }

  /** The elements have one kind, plain ones one value type, and each list or table among them is accepted. */
  predicate Uniform(vt: string -> char, elems: seq<Val>)
    decreases elems, 2
  {
    forall i :: 0 <= i < |elems| ==> SameKind(vt, elems[0], elems[i]) && IsAccepted(vt, elems[i])
  }

  predicate SameKind(vt: string -> char, v: Val, w: Val) {
    match v
    case Plain(raw) => w.Plain? && vt(w.raw) == vt(raw)
    case List(_) => w.List?
    case Inline(_) => w.Inline?
  }

  predicate IsAccepted(vt: string -> char, v: Val)
    decreases v, 0
  {
    match v
    case Plain(_) => true
    case List(elems) => Uniform(vt, elems)
    case Inline(pairs) => PutPairs(vt, NewTab("", false), pairs).Ok?
  }

  /** What an array with elements still takes. */
  predicate Takes(vt: string -> char, arr: Arr, v: Val) {
    match v
    case Plain(raw) => arr.kind == NoKind || (arr.kind == Values && arr.valtype == vt(raw))
    case List(_) => arr.kind == NoKind || arr.kind == Arrays
    case Inline(_) => arr.kind == NoKind || arr.kind == Tables
  }

  lemma {:induction false} ElemAcceptedIff(vt: string -> char, arr: Arr, v: Val)
    requires SoundArr(arr, vt)
    ensures PutElem(vt, arr, v).Ok? <==> Takes(vt, arr, v) && IsAccepted(vt, v)
    ensures PutElem(vt, arr, v).Ok? ==>
              var arr1 := PutElem(vt, arr, v).value;
              SoundArr(arr1, vt) && forall w :: Takes(vt, arr1, w) <==> SameKind(vt, v, w)
    decreases v, 0
  {
    hide PutElems, PutPairs, Uniform, SoundTab;
    if v.List? {
      NewArrSound("", vt);
      ElemsAcceptedIff(vt, v.elems);
    }
    if PutElem(vt, arr, v).Ok? {
      PutElemSound(vt, arr, v);
    }
  }

  lemma {:induction false} ElemsFollow(vt: string -> char, arr: Arr, first: Val, elems: seq<Val>)
    requires SoundArr(arr, vt) && forall w :: Takes(vt, arr, w) <==> SameKind(vt, first, w)
    ensures PutElems(vt, arr, elems).Ok? <==>
              forall i :: 0 <= i < |elems| ==> SameKind(vt, first, elems[i]) && IsAccepted(vt, elems[i])
    decreases elems, 0
  {
    hide SoundArr, PutElem, SameKind, IsAccepted, Takes;
    if elems != [] {
      ElemAcceptedIff(vt, arr, elems[0]);
      if PutElem(vt, arr, elems[0]).Ok? {
        KindsChain(vt, first, elems[0]);
        ElemsFollow(vt, PutElem(vt, arr, elems[0]).value, first, elems[1..]);
        assert elems == [elems[0]] + elems[1..];
      }
    }
  }

  lemma KindsChain(vt: string -> char, v: Val, w: Val)
    requires SameKind(vt, v, w)
    ensures forall x :: SameKind(vt, w, x) <==> SameKind(vt, v, x)
  {
  }

  /** An array is accepted if and only if it is uniform. */
  lemma {:induction false} ElemsAcceptedIff(vt: string -> char, elems: seq<Val>)
    ensures forall key :: PutElems(vt, NewArr(key, NoKind), elems).Ok? <==> Uniform(vt, elems)
    decreases elems, 1
  {
    hide SoundArr, PutElem, SameKind, IsAccepted, Takes;
    forall key ensures PutElems(vt, NewArr(key, NoKind), elems).Ok? <==> Uniform(vt, elems) {
      if elems != [] {
        var arr := NewArr(key, NoKind);
        NewArrSound(key, vt);
        ElemAcceptedIff(vt, arr, elems[0]);
        NewTakes(vt, key, elems[0]);
        if PutElem(vt, arr, elems[0]).Ok? {
          ElemsFollow(vt, PutElem(vt, arr, elems[0]).value, elems[0], elems[1..]);
          assert elems == [elems[0]] + elems[1..];
        }
      }
    }
  }

  lemma NewTakes(vt: string -> char, key: string, v: Val)
    ensures Takes(vt, NewArr(key, NoKind), v) && SameKind(vt, v, v)
  {
  }

  // ----- headers ------------------------------------------------------------------------------

  /** Nothing but tables and arrays of tables is in the way. */
  predicate IsWay(t: Tab, keys: seq<string>)
    decreases |keys|
  {
    keys == [] ||
    if TableIn(t, keys[0]).Some? then IsWay(TableIn(t, keys[0]).value, keys[1..])
    else
      match ArrayIn(t, keys[0])
      case Some(a) => a.kind == Tables && a.tabs != [] && IsWay(a.tabs[|a.tabs| - 1], keys[1..])
      case None => RawIn(t, keys[0]).None?
  }

  lemma EnterAcceptedIff(t: Tab, key: string)
    requires AllDistinct(AllKeys(t))
    ensures Enter(t, key).Ok? <==>
              TableIn(t, key).Some? ||
              match ArrayIn(t, key)
              case Some(a) => a.kind == Tables && a.tabs != []
              case None => RawIn(t, key).None?
  {
    hide AllKeys, AllDistinct, RawIn, ArrayIn, TableIn, IndexOf;
    OneLookup(t, key);
    FoundIsListed(t, key);
    LookupsOfFound(t, key);
  }

  lemma LookupsOfFound(t: Tab, key: string)
    ensures RawIn(t, key).Some? <==> CheckKey(t, key).AVal?
    ensures match CheckKey(t, key)
            case NotFound => ArrayIn(t, key).None? && TableIn(t, key).None?
            case AVal(_) => true
            case AnArr(i) => ArrayIn(t, key) == Some(t.arrs[i])
            case ATab(i) => ArrayIn(t, key).None? && TableIn(t, key) == Some(t.tabs[i])
  {
    hide IndexOf;
  }

  lemma NothingInTheWay(key: string, keys: seq<string>)
    ensures IsWay(NewTab(key, true), keys)
  {
  }

  /** walk_tabpath goes through if and only if no value and no other array is in the way. */
  lemma {:induction false} WalkAcceptedIff(t: Tab, keys: seq<string>, vt: string -> char)
    requires SoundTab(t, vt)
    ensures WalkPath(t, keys).Ok? <==> IsWay(t, keys)
    decreases |keys|
  {
    if keys != [] {
      hide SoundTab, AllKeys, AllDistinct, WalkPath, Enter, StepTo, CanStep, HasPath, At, With, RawIn,
        ArrayIn, TableIn, Lift;
      SoundKeys(t, vt);
      WalkStep(t, keys);
      EnterAcceptedIff(t, keys[0]);
      if Enter(t, keys[0]).Ok? {
        var (t1, step) := Enter(t, keys[0]).value;
        EnteredIsSound(t, keys[0], vt);
        EnterIsLookup(t, keys[0]);
        WalkAcceptedIff(StepTo(t1, step), keys[1..], vt);
        NothingInTheWay(keys[0], keys[1..]);
        LiftOk(t1, [step], WalkPath(StepTo(t1, step), keys[1..]));
      }
    }
  }

  lemma SoundKeys(t: Tab, vt: string -> char)
    requires SoundTab(t, vt)
    ensures AllDistinct(AllKeys(t))
  {
  }

  lemma LiftOk(t: Tab, path: seq<Step>, r: Parsed<(Tab, seq<Step>)>)
    requires HasPath(t, path)
    ensures Lift(t, path, r).Ok? <==> r.Ok?
  {
    hide HasPath, With;
  }

  /** A header is accepted if and only if nothing is in the way of its keys but the last, and under the last key there
      is nothing, or for [x] a table that has only been implied, or for [[x]] an array of tables. */
  lemma HeadAcceptedIff(root: Tab, keys: seq<string>, double: bool, vt: string -> char)
    requires keys != [] && SoundTab(root, vt)
    ensures var front, key := keys[..|keys| - 1], keys[|keys| - 1];
            var here := Walked(root, front);
            OpenPath(root, keys, double).Ok? <==>
              IsWay(root, front) &&
              if double then
                key !in AllKeys(here) || (ArrayIn(here, key).Some? && ArrayIn(here, key).value.kind == Tables)
              else IsOpenKey(here, key, false)
  {
    hide SoundTab, AllKeys, WalkPath, HasPath, At, With, IsWay, Walked, IndexOf, CanStep;
    var front, key := keys[..|keys| - 1], keys[|keys| - 1];
    WalkAcceptedIff(root, front, vt);
    if WalkPath(root, front).Ok? {
      WalkReaches(root, front, vt);
      FoundIsListed(Walked(root, front), key);
    }
  }
}
