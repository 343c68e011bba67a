/**
 * The circular doubly linked list (src/list.h) that the three lists of the controller are linked by.
 * A ring is given by the sequence of its nodes from some node on, usually the list head. Every operation
 * is proved to do to that sequence what its name says, and writes to no other node than it names.
 */
module RingList {
  import opened Lists

  /** struct list_head. A removed entry's pointers are poisoned; null stands for the poison. */
  class Node {
    var next: Node?
    var prev: Node?

    /** INIT_LIST_HEAD. */
    constructor ()
      ensures Ring([this])
    {
      next, prev := this, this;
    }
  }

  // ----- rings

  /** The node after position `i`, round the ring. */
  function After(s: seq<Node>, i: nat): Node
    requires i < |s|
  {
    if i + 1 < |s| then s[i + 1] else s[0]
  }

  ghost predicate Ring(s: seq<Node>)
    reads s
  {
    && s != [] && NoDup(s)
    && forall i :: 0 <= i < |s| ==> s[i].next == After(s, i) && After(s, i).prev == s[i]
  }

  ghost predicate Apart(s: seq<Node>, t: seq<Node>) {
    forall n :: n in s ==> n !in t
  }

  function Insert(s: seq<Node>, k: nat, n: Node): seq<Node>
    requires k <= |s|
  {
    s[..k] + [n] + s[k..]
  }

  lemma InsertNoDup(s: seq<Node>, k: nat, n: Node)
    requires NoDup(s) && k <= |s| && n !in s
    ensures NoDup(Insert(s, k, n))
  {
    var t := Insert(s, k, n);
    assert forall i :: 0 <= i < |t| ==> t[i] == if i < k then s[i] else if i == k then n else s[i - 1];
  }

  lemma AfterInsert(s: seq<Node>, k: nat, n: Node, i: nat)
    requires 0 < k <= |s| && i <= |s|
    ensures var t := Insert(s, k, n);
            && t[i] == (if i < k then s[i] else if i == k then n else s[i - 1])
            && After(t, i) == (if i + 1 < k then s[i + 1] else if i + 1 == k then n else After(s, i - 1))
  {
  }

  lemma AfterDiffers(s: seq<Node>, i: nat, j: nat)
    requires NoDup(s) && i < |s| && j < |s| && i != j
    ensures s[i] != s[j] && After(s, i) != After(s, j)
  {
  }

  // ----- __list_add and __list_del

  /** __list_add: `prev` is the node at `k - 1` and `next` the one after it. */
  method AddBetween(n: Node, prev: Node, next: Node, ghost s: seq<Node>, ghost k: nat)
    requires Ring(s) && 0 < k <= |s| && n !in s
    requires prev == s[k - 1] && next == After(s, k - 1)
    modifies n, prev, next
    ensures Ring(Insert(s, k, n))
  {
    next.prev := n;
    n.next := next;
    n.prev := prev;
    prev.next := n;
    ghost var t := Insert(s, k, n);
    InsertNoDup(s, k, n);
    forall i | 0 <= i < |t| ensures t[i].next == After(t, i) && After(t, i).prev == t[i] {
      AfterInsert(s, k, n, i);
      var j := if i < k then i else i - 1;
      if j != k - 1 { AfterDiffers(s, j, k - 1); }
    }
  }

  lemma AfterRemove(s: seq<Node>, k: nat, i: nat)
    requires k < |s| && i < |s| - 1
    ensures var t := RemoveAt(s, k);
            && t[i] == s[if i < k then i else i + 1]
            && After(t, i) == (if i + 1 == k || (i + 1 == |s| - 1 && k == 0) then After(s, k)
                               else if i < k then After(s, i) else After(s, i + 1))
  {
  }

  lemma RemoveNoDup(s: seq<Node>, k: nat)
    requires NoDup(s) && k < |s|
    ensures NoDup(RemoveAt(s, k)) && s[k] !in RemoveAt(s, k)
  {
    var t := RemoveAt(s, k);
    assert forall i :: 0 <= i < |t| ==> t[i] == s[if i < k then i else i + 1];
  }

  /** __list_del around the node at `k`, which keeps its own pointers. */
  method DelBetween(prev: Node, next: Node, ghost s: seq<Node>, ghost k: nat)
    requires Ring(s) && k < |s|
    requires prev == s[k].prev && next == s[k].next
    modifies prev, next
    ensures |s| > 1 ==> Ring(RemoveAt(s, k))
    ensures |s| == 1 ==> Ring(s)
  {
    ghost var before := if k == 0 then |s| - 1 else k - 1;
    assert After(s, before) == s[k] && prev == s[before];
    next.prev := prev;
    prev.next := next;
    ghost var t := RemoveAt(s, k);
    RemoveNoDup(s, k);
    forall i | 0 <= i < |t| && |s| > 1 ensures t[i].next == After(t, i) && After(t, i).prev == t[i] {
      AfterRemove(s, k, i);
      var j := if i < k then i else i + 1;
      if j != before { AfterDiffers(s, j, before); }
      AfterDiffers(s, j, k);
    }
  }

  // ----- the operations

  /** The neighbours of a node are nodes of its ring. */
  lemma Neighbours(s: seq<Node>, k: nat)
    requires Ring(s) && k < |s|
    ensures s[k].next != null && s[k].prev != null && s[k].next in s && s[k].prev in s
  {
    var before := if k == 0 then |s| - 1 else k - 1;
    assert After(s, before) == s[k];
    assert After(s, k) in s && s[before] in s;
  }

  lemma RemovedIsIn(s: seq<Node>, k: nat)
    requires k < |s|
    ensures forall n :: n in RemoveAt(s, k) ==> n in s
  {
  }

  /** list_add: right after the head. */
  method Add(n: Node, head: Node, ghost s: seq<Node>)
    requires Ring(s) && head == s[0] && n !in s
    modifies n, head, head.next
    ensures Ring([head, n] + s[1..])
  {
    assert After(s, 0) == head.next;
    AddBetween(n, head, head.next, s, 1);
    assert Insert(s, 1, n) == [head, n] + s[1..];
  }

  /** list_add_tail: right before the head. */
  method AddTail(n: Node, head: Node, ghost s: seq<Node>)
    requires Ring(s) && head == s[0] && n !in s
    modifies n, head, head.prev
    ensures Ring(s + [n])
  {
    assert After(s, |s| - 1) == head;
    AddBetween(n, head.prev, head, s, |s|);
    assert Insert(s, |s|, n) == s + [n];
  }

  /** list_del; an entry that is a ring of its own leaves none. */
  method Del(entry: Node, ghost s: seq<Node>, ghost k: nat)
    requires Ring(s) && k < |s| && entry == s[k]
    modifies entry, entry.prev, entry.next
    ensures |s| > 1 ==> Ring(RemoveAt(s, k))
    ensures entry !in RemoveAt(s, k) && entry.next == null && entry.prev == null
  {
    Neighbours(s, k);
    RemoveNoDup(s, k);
    DelBetween(entry.prev, entry.next, s, k);
    entry.next := null;
    entry.prev := null;
  }

  /** list_del_init: the entry becomes a ring of its own. */
  method DelInit(entry: Node, ghost s: seq<Node>, ghost k: nat)
    requires Ring(s) && k < |s| && entry == s[k]
    modifies entry, entry.prev, entry.next
    ensures |s| > 1 ==> Ring(RemoveAt(s, k))
    ensures entry !in RemoveAt(s, k) && Ring([entry])
  {
    Neighbours(s, k);
    RemoveNoDup(s, k);
    DelBetween(entry.prev, entry.next, s, k);
    entry.next := entry;
    entry.prev := entry;
  }

  /** list_move, within a ring: the entry goes right after the head. */
  method Move(entry: Node, head: Node, ghost s: seq<Node>, ghost k: nat)
    requires Ring(s) && head == s[0] && 0 < k < |s| && entry == s[k]
    modifies entry, entry.prev, entry.next, head, head.next
    ensures Ring([head, entry] + RemoveAt(s, k)[1..])
  {
    Neighbours(s, k);
    DelBetween(entry.prev, entry.next, s, k);
    RemoveNoDup(s, k);
    AfterRemove(s, k, 0);
    Add(entry, head, RemoveAt(s, k));
  }

  /** list_move, to another ring. */
  method MoveTo(entry: Node, head: Node, ghost s: seq<Node>, ghost k: nat, ghost t: seq<Node>)
    requires Ring(s) && |s| > 1 && k < |s| && entry == s[k]
    requires Ring(t) && head == t[0] && Apart(s, t)
    modifies entry, entry.prev, entry.next, head, head.next
    ensures Ring(RemoveAt(s, k)) && Ring([head, entry] + t[1..])
  {
    Neighbours(s, k);
    Neighbours(t, 0);
    RemovedIsIn(s, k);
    DelBetween(entry.prev, entry.next, s, k);
    RemoveNoDup(s, k);
    Add(entry, head, t);
  }

  /** list_move_tail, within a ring. */
  method MoveTail(entry: Node, head: Node, ghost s: seq<Node>, ghost k: nat)
    requires Ring(s) && head == s[0] && 0 < k < |s| && entry == s[k]
    modifies entry, entry.prev, entry.next, head, head.prev
    ensures Ring(RemoveAt(s, k) + [entry])
  {
    Neighbours(s, k);
    DelBetween(entry.prev, entry.next, s, k);
    RemoveNoDup(s, k);
    AfterRemove(s, k, |s| - 2);
    AddTail(entry, head, RemoveAt(s, k));
  }

  /** list_move_tail, to another ring. */
  method MoveTailTo(entry: Node, head: Node, ghost s: seq<Node>, ghost k: nat, ghost t: seq<Node>)
    requires Ring(s) && |s| > 1 && k < |s| && entry == s[k]
    requires Ring(t) && head == t[0] && Apart(s, t)
    modifies entry, entry.prev, entry.next, head, head.prev
    ensures Ring(RemoveAt(s, k)) && Ring(t + [entry])
  {
    Neighbours(s, k);
    Neighbours(t, 0);
    RemovedIsIn(s, k);
    DelBetween(entry.prev, entry.next, s, k);
    RemoveNoDup(s, k);
    AddTail(entry, head, t);
  }

  /** list_empty. */
  method Empty(head: Node, ghost s: seq<Node>) returns (empty: bool)
    requires Ring(s) && head == s[0]
    ensures empty == (s == [head])
  {
    assert After(s, 0) == head.next;
    empty := head.next == head;
  }

  /** __list_splice and list_splice: the entries of `list`, in order, go right after the head. */
  method Splice(list: Node, head: Node, ghost s: seq<Node>, ghost t: seq<Node>)
    requires Ring(s) && list == s[0] && Ring(t) && head == t[0] && Apart(s, t)
    modifies head, head.next, list.next, list.prev
    ensures Ring([head] + s[1..] + t[1..])
    ensures s == [list] ==> Ring(s)
    ensures |s| > 1 ==> list.next == old(list.next) && list.prev == old(list.prev)
  {
    var empty := Empty(list, s);
    if empty {
      assert [head] + s[1..] + t[1..] == t;
      return;
    }
    var first, last, at := list.next, list.prev, head.next;
    assert After(s, 0) == first && After(s, |s| - 1) == list && After(t, 0) == at;
    ApartAt(s, t);
    first.prev := head;
    head.next := first;
    last.next := at;
    at.prev := last;
    ghost var j := [head] + s[1..] + t[1..];
    Joined(s, t);
    forall i | 0 <= i < |j| ensures j[i].next == After(j, i) && After(j, i).prev == j[i] {
      JoinedAfter(s, t, i);
      if i > |s| - 1 { AfterDiffers(t, i - |s| + 1, 0); }
    }
  }

  lemma ApartAt(s: seq<Node>, t: seq<Node>)
    requires Apart(s, t)
    ensures forall a, b :: 0 <= a < |s| && 0 <= b < |t| ==> s[a] != t[b]
  {
    forall a, b | 0 <= a < |s| && 0 <= b < |t| ensures s[a] != t[b] {
      assert s[a] in s && t[b] in t;
    }
  }

  lemma Joined(s: seq<Node>, t: seq<Node>)
    requires s != [] && t != [] && NoDup(s) && NoDup(t) && Apart(s, t)
    ensures NoDup([t[0]] + s[1..] + t[1..])
  {
    var j := [t[0]] + s[1..] + t[1..];
    ApartAt(s, t);
    assert forall i :: 0 <= i < |j| ==> j[i] == if i == 0 then t[0] else if i < |s| then s[i] else t[i - |s| + 1];
  }

  lemma JoinedAfter(s: seq<Node>, t: seq<Node>, i: nat)
    requires |s| > 1 && t != [] && i < |s| + |t| - 1
    ensures var j := [t[0]] + s[1..] + t[1..];
            && j[i] == (if i == 0 then t[0] else if i < |s| then s[i] else t[i - |s| + 1])
            && After(j, i) == (if i < |s| - 1 then s[i + 1] else if i == |s| - 1 then After(t, 0)
                else After(t, i - |s| + 1))
  {
  }

  lemma LeftOut(s: seq<Node>, t: seq<Node>)
    requires s != [] && t != [] && NoDup(s) && Apart(s, t)
    ensures s[0] !in [t[0]] + s[1..] + t[1..]
  {
    var j := [t[0]] + s[1..] + t[1..];
    ApartAt(s, t);
    assert forall i :: 0 <= i < |j| ==> j[i] == if i == 0 then t[0] else if i < |s| then s[i] else t[i - |s| + 1];
  }

  /** list_splice_init: and the spliced list is left empty. */
  method SpliceInit(list: Node, head: Node, ghost s: seq<Node>, ghost t: seq<Node>)
    requires Ring(s) && list == s[0] && Ring(t) && head == t[0] && Apart(s, t)
    modifies list, head, head.next, list.next, list.prev
    ensures Ring([head] + s[1..] + t[1..]) && Ring([list])
  {
    var empty := Empty(list, s);
    if empty {
      assert s == [list] && [head] + s[1..] + t[1..] == t;
      return;
    }
    Splice(list, head, s, t);
    ghost var j := [head] + s[1..] + t[1..];
    LeftOut(s, t);
    list.next := list;
    list.prev := list;
  }

  /** list_for_each: the walk visits the entries after the head in ring order, each once. */
  method Traverse(head: Node, ghost s: seq<Node>) returns (visited: seq<Node>)
    requires Ring(s) && head == s[0]
    ensures visited == s[1..]
  {
    visited := [];
    assert After(s, 0) == head.next;
    var curr := head.next;
    while curr != head
      invariant |visited| < |s| && visited == s[1..|visited| + 1] && curr == After(s, |visited|)
      decreases |s| - |visited|
    {
      visited := visited + [curr];
      assert curr == s[|visited|];
      curr := curr.next;
    }
  }
}
