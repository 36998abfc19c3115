/** The TOML trees of ssar/cpptoml.h: values, tables and table arrays.

    A table is an unordered map in the original.  Here it is the sequence of its entries in
    the order in which an iteration meets them, with every key once; `Meaning` forgets the order. */
module CppTomlTree {
  import opened CppTomlText

  datatype Value =
    | Str(s: string)
    | Int(i: int)
    | Bool(b: bool)
    | Arr(elems: seq<Value>)

  datatype Node =
    | Leaf(v: Value)
    | Tab(table: Table)
    | TabArr(tables: seq<Table>)

  datatype Entry = Entry(key: string, node: Node)

  datatype Table = Table(entries: seq<Entry>)

  // ----- lookup and insertion -------------------------------------------------------------

  function Keys(es: seq<Entry>): set<string> {
    set e | e in es :: e.key
  }

  predicate UniqueKeys(es: seq<Entry>) {
    forall i, j :: 0 <= i < j < |es| ==> es[i].key != es[j].key
  }

  /** The index of `key`, or `|es|`. */
  function Index(es: seq<Entry>, key: string): (i: nat)
    ensures i <= |es|
    ensures i < |es| ==> es[i].key == key
    ensures i == |es| <==> forall j :: 0 <= j < |es| ==> es[j].key != key
  {
    if es == [] then 0 else if es[0].key == key then 0 else 1 + Index(es[1..], key)
  }

  predicate Contains(t: Table, key: string) {
    Index(t.entries, key) < |t.entries|
  }

  function Get(t: Table, key: string): Node
    requires Contains(t, key)
  {
    t.entries[Index(t.entries, key)].node
  }

  /** map_[key] = node. */
  function Insert(t: Table, key: string, node: Node): Table {
    var i := Index(t.entries, key);
    if i < |t.entries| then Table(t.entries[i := Entry(key, node)]) else Table(t.entries + [Entry(key, node)])
  }

  // ----- what the writer can print --------------------------------------------------------

  /** Which of the value types an array element has. */
  datatype Kind = KStr | KInt | KBool | KArr

  function KindOf(v: Value): Kind {
    match v
    case Str(_) => KStr
    case Int(_) => KInt
    case Bool(_) => KBool
    case Arr(_) => KArr
  }

  predicate PrintableValue(v: Value) {
    match v
    case Str(s) => Clean(s)
    case Int(i) => IsInt64(i)
    case Bool(_) => true
    case Arr(elems) =>
      && (forall i, j :: 0 <= i < j < |elems| ==> KindOf(elems[i]) == KindOf(elems[j]))
      && (forall i :: 0 <= i < |elems| ==> PrintableValue(elems[i]))
  }

  predicate PrintableKey(key: string) {
    key != "" && Clean(key)
  }

  predicate PrintableNode(n: Node) {
    match n
    case Leaf(v) => PrintableValue(v)
    case Tab(t) => PrintableTable(t)
    case TabArr(ts) => ts != [] && forall i :: 0 <= i < |ts| ==> PrintableTable(ts[i])
  }

  /** Strings, 64-bit integers, booleans, homogeneous arrays, tables and non-empty table arrays under
      distinct non-empty keys, without control bytes other than \b \t \n \f \r. */
  predicate PrintableTable(t: Table) {
    UniqueKeys(t.entries) && PrintableEntries(t.entries)
  }

  predicate PrintableEntries(es: seq<Entry>) {
    forall i :: 0 <= i < |es| ==> PrintableKey(es[i].key) && PrintableNode(es[i].node)
  }

  // ----- the map a table stands for -------------------------------------------------------

  datatype Denotation =
    | DLeaf(v: Value)
    | DTab(m: map<string, Denotation>)
    | DTabArr(ms: seq<map<string, Denotation>>)

  function MeaningOf(n: Node): Denotation {
    match n
    case Leaf(v) => DLeaf(v)
    case Tab(t) => DTab(Meaning(t))
    case TabArr(ts) => DTabArr(Meanings(ts))
  }

  function Meanings(ts: seq<Table>): (ms: seq<map<string, Denotation>>)
    ensures |ms| == |ts|
  {
    if ts == [] then [] else [Meaning(ts[0])] + Meanings(ts[1..])
  }

  function Meaning(t: Table): map<string, Denotation> {
    MeaningOfEntries(t.entries)
  }

  function MeaningOfEntries(es: seq<Entry>): (m: map<string, Denotation>)
    ensures m.Keys == Keys(es)
  {
    if es == [] then map[] else MeaningOfEntries(es[1..])[es[0].key := MeaningOf(es[0].node)]
  }

  // ----- values before tables -------------------------------------------------------------

  /** The entries that are values, in order. */
  function Leaves(es: seq<Entry>): seq<Entry> {
    if es == [] then []
    else if es[0].node.Leaf? then [es[0]] + Leaves(es[1..])
    else Leaves(es[1..])
  }

  /** The tables and table arrays, in order, each with its own values moved to the front. */
  function SortedSubs(es: seq<Entry>): seq<Entry> {
    if es == [] then []
    else if es[0].node.Leaf? then SortedSubs(es[1..])
    else [Entry(es[0].key, SortedNode(es[0].node))] + SortedSubs(es[1..])
  }

  function SortedNode(n: Node): Node {
    match n
    case Leaf(v) => n
    case Tab(t) => Tab(Sorted(t))
    case TabArr(ts) => TabArr(SortedAll(ts))
  }

  function SortedAll(ts: seq<Table>): (r: seq<Table>)
    ensures |r| == |ts|
  {
    if ts == [] then [] else [Sorted(ts[0])] + SortedAll(ts[1..])
  }

  /** The tree with the values of every table before its tables, as the writer visits them. */
  function Sorted(t: Table): Table {
    Table(Leaves(t.entries) + SortedSubs(t.entries))
  }

  lemma MeaningOfCons(e: Entry, es: seq<Entry>)
    ensures MeaningOfEntries([e] + es) == MeaningOfEntries(es)[e.key := MeaningOf(e.node)]
  {
    assert ([e] + es)[1..] == es;
  }

  lemma UpdatesCommute<K, V>(m: map<K, V>, k: K, v: V, k': K, v': V)
    requires k != k'
    ensures m[k := v][k' := v'] == m[k' := v'][k := v]
  {
  }

  /** Where an entry with a key of its own stands does not matter. */
  lemma {:induction false} MeaningOfInsert(a: seq<Entry>, e: Entry, b: seq<Entry>)
    requires forall i :: 0 <= i < |a| ==> a[i].key != e.key
    ensures MeaningOfEntries(a + ([e] + b)) == MeaningOfEntries(a + b)[e.key := MeaningOf(e.node)]
  {
    if a == [] {
      assert a + ([e] + b) == [e] + b && a + b == b;
      MeaningOfCons(e, b);
    } else {
      var x, rest := a[0], a[1..];
      MeaningOfInsert(rest, e, b);
      var ab, aeb := rest + b, rest + ([e] + b);
      assert a + ([e] + b) == [x] + aeb;
      assert a + b == [x] + ab;
      MeaningOfCons(x, aeb);
      MeaningOfCons(x, ab);
      UpdatesCommute(MeaningOfEntries(ab), e.key, MeaningOf(e.node), x.key, MeaningOf(x.node));
    }
  }

  lemma {:induction false} SortedMeaningEntries(es: seq<Entry>)
    requires UniqueKeys(es) && PrintableEntries(es)
    ensures MeaningOfEntries(Leaves(es) + SortedSubs(es)) == MeaningOfEntries(es)
    decreases es
  {
    if es != [] {
      hide MeaningOfEntries, MeaningOf, SortedNode, PrintableNode;
      var e, rest := es[0], es[1..];
      var leaves, subs := Leaves(rest), SortedSubs(rest);
      SortedMeaningEntries(rest);
      MeaningOfCons(e, rest);
      assert es == [e] + rest;
      if e.node.Leaf? {
        assert Leaves(es) + SortedSubs(es) == [e] + (leaves + subs);
        MeaningOfCons(e, leaves + subs);
      } else {
        SortedMeaningNode(e.node);
        LeavesAmong(rest, e.key);
        MeaningOfInsert(leaves, Entry(e.key, SortedNode(e.node)), subs);
      }
    }
  }

  lemma {:induction false} LeavesAmong(es: seq<Entry>, key: string)
    requires forall i :: 0 <= i < |es| ==> es[i].key != key
    ensures forall i :: 0 <= i < |Leaves(es)| ==> Leaves(es)[i].key != key
  {
    if es != [] {
      LeavesAmong(es[1..], key);
    }
  }

  lemma {:induction false} SortedMeaningNode(n: Node)
    requires PrintableNode(n)
    ensures MeaningOf(SortedNode(n)) == MeaningOf(n)
    decreases n
  {
    match n
    case Leaf(v) =>
    case Tab(t) => SortedMeaningEntries(t.entries);
    case TabArr(ts) => SortedMeaningAll(ts);
  }

  lemma {:induction false} SortedMeaningAll(ts: seq<Table>)
    requires forall i :: 0 <= i < |ts| ==> PrintableTable(ts[i])
    ensures Meanings(SortedAll(ts)) == Meanings(ts)
    decreases ts
  {
    if ts != [] {
      SortedMeaningEntries(ts[0].entries);
      SortedMeaningAll(ts[1..]);
      assert SortedAll(ts)[1..] == SortedAll(ts[1..]);
    }
  }

  /** Moving values to the front does not change the map a tree stands for. */
  lemma SortedMeaning(t: Table)
    requires PrintableTable(t)
    ensures Meaning(Sorted(t)) == Meaning(t)
  {
    SortedMeaningEntries(t.entries);
  }
}
