/** The ring of sresar/collection.c. */
module LoadRing {
  import opened Sequences

  class Node {
    var load5s_state: int
    var zoom_state: int
    var load5s: int
    var load1: real
    var next: Node?
    var prev: Node?
  }

  function After(i: nat, n: nat): nat
    requires i < n
  {
    if i + 1 < n then i + 1 else 0
  }

  function Before(i: nat, n: nat): nat
    requires i < n
  {
    if i > 0 then i - 1 else n - 1
  }

  /** `next` runs through the whole list and back to its start, and `prev` runs against it. */
  predicate IsRing(plist: seq<Node>)
    reads plist
  {
    AllDistinct(plist) &&
    forall i :: 0 <= i < |plist| ==>
      plist[i].next == plist[After(i, |plist|)] && plist[i].prev == plist[Before(i, |plist|)]
  }

  /** The assignments to one node. */
  method Link(node: Node, prev: Node, next: Node)
    modifies node`prev, node`next, node`load1
    ensures node.prev == prev && node.next == next && node.load1 == 0.0
  {
    node.prev := prev;
    node.next := next;
    node.load1 := 0.0;
  }

  /** circular_linkedlist_init: the pointer `current_node + 1` is the node at the next index. */
  method CircularLinkedlistInit(plist: seq<Node>)
    requires |plist| >= 2 && AllDistinct(plist)
    modifies plist`prev, plist`next, plist`load1
    ensures IsRing(plist)
    ensures forall i :: 0 <= i < |plist| ==> plist[i].load1 == 0.0
  {
    var prev: nat, current: nat, next: nat := 0, 0, 1;
    plist[current].next := plist[next];
    plist[current].load1 := 0.0;
    for i := 0 to |plist| - 2
      invariant current == i && next == i + 1
      invariant forall j :: 0 <= j <= i ==> plist[j].next == plist[j + 1] && plist[j].load1 == 0.0
      invariant forall j :: 1 <= j <= i ==> plist[j].prev == plist[j - 1]
    {
      prev := current;
      current := next;
      next := current + 1;
      Link(plist[current], plist[prev], plist[next]);
    }
    prev := current;
    current := next;
    Link(plist[current], plist[prev], plist[0]);
    plist[0].prev := plist[current];
  }

  /** `next` followed `k` times. */
  ghost function Forward(node: Node?, k: nat, plist: set<Node>): Node?
    reads plist
  {
    if k == 0 || node == null || node !in plist then node else Forward(node.next, k - 1, plist)
  }

  /** `prev` followed `k` times. */
  ghost function Back(node: Node?, k: nat, plist: set<Node>): Node?
    reads plist
  {
    if k == 0 || node == null || node !in plist then node else Back(node.prev, k - 1, plist)
  }

  function SetOf(plist: seq<Node>): set<Node> {
    set n <- plist
  }

  /** The index `m` places behind `i` in a ring of `n`. */
  function Behind(i: nat, m: nat, n: nat): (j: nat)
    requires i < n && m <= n
    ensures j < n
  {
    if m <= i then i - m else i - m + n
  }

  lemma {:induction false} BackIs(plist: seq<Node>, i: nat, m: nat)
    requires IsRing(plist) && i < |plist| && m <= |plist|
    ensures Back(plist[i], m, SetOf(plist)) == plist[Behind(i, m, |plist|)]
    decreases m
  {
    if m > 0 {
      BackIs(plist, Before(i, |plist|), m - 1);
    }
  }

  /** From its first node, `next` goes once around the whole list. */
  lemma {:induction false} OneCycle(plist: seq<Node>, i: nat, k: nat)
    requires IsRing(plist) && i + k <= |plist| && i < |plist|
    ensures Forward(plist[i], k, SetOf(plist)) == if i + k < |plist| then plist[i + k] else plist[0]
    decreases k
  {
    if k > 0 && i + 1 < |plist| {
      OneCycle(plist, i + 1, k - 1);
    }
  }

  /** `next` and `prev` undo each other. */
  lemma NextPrevInverse(plist: seq<Node>, node: Node)
    requires IsRing(plist) && node in plist
    ensures node.next != null && node.next in plist && node.next.prev == node
    ensures node.prev != null && node.prev in plist && node.prev.next == node
  {
    var i :| 0 <= i < |plist| && plist[i] == node;
    var n := |plist|;
    assert Before(After(i, n), n) == i && After(Before(i, n), n) == i;
  }
}
