/**
 * The resource list (src/resource.c): one object whose node list the operations rewrite. The
 * field `nodes` is the list; every method says what becomes of it.
 */
module ResourceStore {
  import opened Lists
  import opened Entities
  import opened TopicMatch
  import opened TopicLookup
  import opened HookWalk
  import opened Locking
  import opened Registry

  class ResourceList {
    var nodes: seq<Resource>

    constructor ()
      ensures nodes == []
    {
      nodes := [];
    }

    method Lookup(name: Name) returns (i: nat)
      ensures i == FindResource(nodes, name)
    {
      i := 0;
      while i < |nodes|
        invariant 0 <= i <= |nodes|
        invariant forall j :: 0 <= j < i ==> nodes[j].name != name
      {
        if nodes[i].name == name { return; }
        i := i + 1;
      }
    }

    /** Where the node at `i` lists `c` first. */
    method FindSubscriber(i: nat, c: Name) returns (k: nat)
      requires i < |nodes|
      ensures k == FirstIndex(nodes[i].subscribers, c) <= |nodes[i].subscribers|
    {
      k := 0;
      while k < |nodes[i].subscribers| && nodes[i].subscribers[k] != c
        invariant 0 <= k <= |nodes[i].subscribers|
        invariant forall j :: 0 <= j < k ==> nodes[i].subscribers[j] != c
      {
        k := k + 1;
      }
      FirstIndexIs(nodes[i].subscribers, c, k);
    }

    method IsLocked(name: Name) returns (locked: bool)
      ensures locked == ResourceLocked(nodes, name)
    {
      var i := Lookup(name);
      locked := i < |nodes| && nodes[i].lock;
    }

    method IsAnyLockedByComponent(c: Name) returns (locked: bool)
      ensures locked == AnyLockedBySubscriber(nodes, c)
    {
      locked := false;
      var k := 0;
      while k < |nodes|
        invariant 0 <= k <= |nodes|
        invariant forall i :: 0 <= i < k ==> !(c in nodes[i].subscribers && nodes[i].lock)
      {
        var i := FindSubscriber(k, c);
        FirstIndexFacts(nodes[k].subscribers, c);
        if i < |nodes[k].subscribers| && nodes[k].lock { return true; }
        k := k + 1;
      }
    }

    method LockByName(name: Name) returns (rc: int)
      modifies this
      ensures (nodes, rc) == LockResource(old(nodes), name)
    {
      var i := Lookup(name);
      if i == |nodes| { return RC_NOT_FOUND; }
      if nodes[i].lock { return RC_LOCKED; }
      nodes := nodes[i := nodes[i].(lock := true)];
      rc := RC_SUCCESS;
    }

    method UnlockByName(name: Name) returns (rc: int)
      modifies this
      ensures (nodes, rc) == UnlockResource(old(nodes), name)
    {
      var i := Lookup(name);
      if i == |nodes| { return RC_NOT_FOUND; }
      nodes := nodes[i := nodes[i].(lock := false)];
      rc := RC_SUCCESS;
    }

    /** Appends `c` to the subscribers of `name`; the node is locked while its buffer grows. */
    method AppendComponent(name: Name, c: Name) returns (rc: int)
      modifies this
      ensures nodes == AppendSubscriber(old(nodes), name, c)
      ensures rc == if ResourceLocked(old(nodes), name) then RC_LOCKED else RC_SUCCESS
    {
      var i := Lookup(name);
      if i == |nodes| {
        nodes := nodes + [Resource(name, [c], false)];
        return RC_SUCCESS;
      }
      if nodes[i].lock { return RC_LOCKED; }
      nodes := nodes[i := nodes[i].(lock := true)];
      nodes := nodes[i := nodes[i].(subscribers := nodes[i].subscribers + [c])];
      nodes := nodes[i := nodes[i].(lock := false)];
      rc := RC_SUCCESS;
    }

    /** Takes the first `c` out of the subscribers of `name`; a node with one entry or none goes away. */
    method RemoveComponent(name: Name, c: Name) returns (rc: int)
      modifies this
      ensures (nodes, rc) == RemoveSubscriber(old(nodes), name, c)
    {
      var i := Lookup(name);
      if i == |nodes| { return RC_SUCCESS; }
      if nodes[i].lock { return RC_LOCKED; }
      nodes := nodes[i := nodes[i].(lock := true)];
      if |nodes[i].subscribers| <= 1 {
        nodes := RemoveAt(nodes, i);
        assert nodes == RemoveAt(old(nodes), i);
        return RC_SUCCESS;
      }
      var k := FindSubscriber(i, c);
      if k < |nodes[i].subscribers| {
        nodes := nodes[i := nodes[i].(subscribers := RemoveAt(nodes[i].subscribers, k))];
      }
      nodes := nodes[i := nodes[i].(lock := false)];
      assert nodes == old(nodes)[i := old(nodes)[i].(subscribers := RemoveFirst(old(nodes)[i].subscribers, c))];
      rc := RC_SUCCESS;
    }

    /** The names of the resources that list `c`. */
    method GetNamesByComponent(c: Name) returns (names: seq<Name>)
      ensures names == SubscribedBy(nodes, c)
    {
      names := [];
      var k := 0;
      while k < |nodes|
        invariant 0 <= k <= |nodes|
        invariant names == SubscribedBy(nodes[..k], c)
      {
        assert nodes[..k + 1][..k] == nodes[..k];
        var i := FindSubscriber(k, c);
        FirstIndexFacts(nodes[k].subscribers, c);
        if i < |nodes[k].subscribers| { names := names + [nodes[k].name]; }
        k := k + 1;
      }
      assert nodes[..|nodes|] == nodes;
    }

    /** The nodes whose pattern accepts the topic. */
    method LookupWildcard(topic: Name) returns (found: seq<Resource>)
      ensures found == WildcardNodes(nodes, topic)
    {
      found := [];
      var k := 0;
      while k < |nodes|
        invariant 0 <= k <= |nodes|
        invariant found == WildcardNodes(nodes[..k], topic)
      {
        assert nodes[..k + 1][..k] == nodes[..k];
        var accepted := WildcardMatches(nodes[k].name, CutQuery(topic));
        if accepted { found := found + [nodes[k]]; }
        k := k + 1;
      }
      assert nodes[..|nodes|] == nodes;
    }

    // ----- resource_remove_all_component_by_name

    /** The first phase: where the nodes are that list `c`, and where each lists it first. */
    method CollectListing(c: Name) returns (found: seq<nat>, at: seq<nat>)
      ensures found == Listing(nodes, c, 0) && |at| == |found|
      ensures forall i :: 0 <= i < |found| ==>
                            found[i] < |nodes| && at[i] == FirstIndex(nodes[found[i]].subscribers, c)
    {
      found, at := [], [];
      var k := 0;
      assert found + Listing(nodes, c, 0) == Listing(nodes, c, 0);
      while k < |nodes|
        invariant 0 <= k <= |nodes|
        invariant found + Listing(nodes, c, k) == Listing(nodes, c, 0) && |at| == |found|
        invariant forall i :: 0 <= i < |found| ==>
                                found[i] < k && at[i] == FirstIndex(nodes[found[i]].subscribers, c)
      {
        var i := FindSubscriber(k, c);
        FirstIndexFacts(nodes[k].subscribers, c);
        ghost var rest := Listing(nodes, c, k + 1);
        assert found + ([k] + rest) == (found + [k]) + rest && found + ([] + rest) == found + rest;
        if i < |nodes[k].subscribers| { found, at := found + [k], at + [i]; }
        k := k + 1;
      }
    }

    /** One node of the second phase: its count drops before its lock is looked at. */
    method RemoveFrom(k: nat, at: nat) returns (rc: int)
      requires k < |nodes| && at < |nodes[k].subscribers|
      modifies this
      ensures var node := old(nodes)[k];
              if node.lock then
                && rc == RC_LOCKED
                && nodes == old(nodes)[..k] + [node.(subscribers := node.subscribers[..|node.subscribers| - 1])]
                            + old(nodes)[k + 1..]
              else
                && rc == RC_SUCCESS
                && nodes == old(nodes)[..k] + WithoutAt(node, at) + old(nodes)[k + 1..]
    {
      var node := nodes[k];
      rc := RC_SUCCESS;
      if node.lock {
        nodes := nodes[k := node.(subscribers := node.subscribers[..|node.subscribers| - 1])];
        rc := RC_LOCKED;
      } else if |node.subscribers| == 1 {
        nodes := RemoveAt(nodes, k);
        assert nodes == old(nodes)[..k] + [] + old(nodes)[k + 1..];
      } else {
        nodes := nodes[k := node.(subscribers := RemoveAt(node.subscribers, at))];
      }
    }

    /**
     * Takes `c` out of all resources: the nodes are collected first and then changed one by one.
     * A node that goes away moves the later ones up.
     */
    method RemoveAllComponent(c: Name) returns (rc: int)
      modifies this
      ensures (nodes, rc) == RemoveFromAll(old(nodes), c)
    {
      hide Made, Listing, RemoveFromAll, WithoutAt, WithoutAll, AnyLockedBySubscriber, FirstIndex;
      ghost var rs := nodes;
      var found, at := CollectListing(c);
      var i, gone := 0, 0;
      ghost var done: nat, left: seq<Resource> := 0, [];
      assert found[0..] == found;
      NothingMade(rs, c);
      while i < |found|
        invariant 0 <= i <= |found| && done <= |rs| && found[i..] == Listing(rs, c, done)
        invariant nodes == left + rs[done..] && Made(rs, left, done, c) && |left| + gone == done
      {
        var k, before := found[i] - gone, |nodes|;
        ghost var next := PassListed(nodes, rs, left, done, found, i, k, at[i], c);
        rc := RemoveFrom(k, at[i]);
        if rc != RC_SUCCESS { return; }
        left, done := next, found[i] + 1;
        gone := gone + (before - |nodes|);
        i := i + 1;
      }
      rc := RC_SUCCESS;
      ListingStarts(rs, c, done);
      NoneLeft(rs, left, done, c);
    }
  }

  // ----- the two phases take the same nodes

  /** A node without its entry at `at`; without any left it goes away. */
  ghost function WithoutAt(r: Resource, at: nat): seq<Resource>
    requires at < |r.subscribers|
  {
    if |r.subscribers| == 1 then [] else [r.(subscribers := RemoveAt(r.subscribers, at))]
  }

  lemma WithoutAtFirst(r: Resource, c: Name)
    requires c in r.subscribers
    ensures FirstIndex(r.subscribers, c) < |r.subscribers|
    ensures WithoutAt(r, FirstIndex(r.subscribers, c)) == Without(r, c)
  {
    FirstIndexFacts(r.subscribers, c);
  }

  /** The positions, from `done` on, of the nodes that list `c`. */
  ghost function Listing(rs: seq<Resource>, c: Name, done: nat): (r: seq<nat>)
    requires done <= |rs|
    decreases |rs| - done
  {
    if done == |rs| then []
    else (if c in rs[done].subscribers then [done] else []) + Listing(rs, c, done + 1)
  }

  lemma {:induction false} ListingStarts(rs: seq<Resource>, c: Name, done: nat)
    requires done <= |rs|
    ensures var l := Listing(rs, c, done);
            if l == [] then forall k :: done <= k < |rs| ==> c !in rs[k].subscribers
            else
              && done <= l[0] < |rs| && c in rs[l[0]].subscribers && l[1..] == Listing(rs, c, l[0] + 1)
              && forall k :: done <= k < l[0] ==> c !in rs[k].subscribers
    decreases |rs| - done
  {
    if done < |rs| {
      ListingStarts(rs, c, done + 1);
      assert [] + Listing(rs, c, done + 1) == Listing(rs, c, done + 1);
    }
  }

  lemma NextListed(rs: seq<Resource>, c: Name, done: nat, found: seq<nat>, i: nat)
    requires done <= |rs| && i < |found| && found[i..] == Listing(rs, c, done)
    ensures done <= found[i] < |rs| && c in rs[found[i]].subscribers && found[i + 1..] == Listing(rs, c, found[i] + 1)
    ensures forall k :: done <= k < found[i] ==> c !in rs[k].subscribers
  {
    ListingStarts(rs, c, done);
    assert found[i] == found[i..][0] && found[i..][1..] == found[i + 1..];
  }

  /** Where the node `p` of the original list is now. */
  lemma SplitAt(nodes: seq<Resource>, left: seq<Resource>, rs: seq<Resource>, done: nat, p: nat)
    requires done <= p < |rs| && nodes == left + rs[done..]
    ensures var k := |left| + p - done;
            && k < |nodes| && nodes[k] == rs[p]
            && nodes[..k] == left + rs[done..p] && nodes[k + 1..] == rs[p + 1..]
  {
  }

  /** The first `done` nodes were handled, none of them locked where it lists `c`. */
  ghost predicate Made(rs: seq<Resource>, left: seq<Resource>, done: nat, c: Name) {
    done <= |rs| && left == WithoutAll(rs[..done], c) && !AnyLockedBySubscriber(rs[..done], c)
  }

  lemma NothingMade(rs: seq<Resource>, c: Name)
    ensures Made(rs, [], 0, c)
  {
  }

  lemma {:induction false} SkipUnlisted(rs: seq<Resource>, a: nat, b: nat, c: Name)
    requires a <= b <= |rs| && forall k :: a <= k < b ==> c !in rs[k].subscribers
    ensures WithoutAll(rs[..b], c) == WithoutAll(rs[..a], c) + rs[a..b]
    decreases b
  {
    if a < b {
      SkipUnlisted(rs, a, b - 1, c);
      assert rs[..b][..b - 1] == rs[..b - 1];
      assert rs[a..b] == rs[a..b - 1] + [rs[b - 1]];
    }
  }

  lemma SkipUnblocked(rs: seq<Resource>, a: nat, b: nat, c: Name)
    requires a <= b <= |rs| && !AnyLockedBySubscriber(rs[..a], c)
    requires forall k :: a <= k < b ==> c !in rs[k].subscribers
    ensures !AnyLockedBySubscriber(rs[..b], c)
  {
    forall i | 0 <= i < b ensures !(c in rs[..b][i].subscribers && rs[..b][i].lock) {
      if i < a { assert rs[..a][i] == rs[..b][i]; }
    }
  }

  lemma StepThrough(rs: seq<Resource>, p: nat, c: Name)
    requires p < |rs| && c in rs[p].subscribers && !AnyLockedBySubscriber(rs[..p], c)
    ensures rs[p].lock ==> FirstBlocked(rs, c) == p
    ensures !rs[p].lock ==> !AnyLockedBySubscriber(rs[..p + 1], c)
    ensures WithoutAll(rs[..p + 1], c) == WithoutAll(rs[..p], c) + Without(rs[p], c)
  {
    assert rs[..p + 1][..p] == rs[..p];
    forall i | 0 <= i < p ensures !(c in rs[i].subscribers && rs[i].lock) { assert rs[..p][i] == rs[i]; }
  }

  /** What the loop does at the next listed node `p`. */
  lemma MadeStep(rs: seq<Resource>, left: seq<Resource>, done: nat, p: nat, c: Name)
    requires Made(rs, left, done, c) && done <= p < |rs| && c in rs[p].subscribers
    requires forall k :: done <= k < p ==> c !in rs[k].subscribers
    ensures var s := rs[p].subscribers;
            rs[p].lock ==>
              RemoveFromAll(rs, c)
                  == (left + rs[done..p] + [rs[p].(subscribers := s[..|s| - 1])] + rs[p + 1..], RC_LOCKED)
    ensures !rs[p].lock ==> Made(rs, left + rs[done..p] + Without(rs[p], c), p + 1, c)
  {
    SkipUnlisted(rs, done, p, c);
    SkipUnblocked(rs, done, p, c);
    StepThrough(rs, p, c);
  }

  /** One pass of the loop: what the list becomes when its listed node is locked, and when it is not. */
  lemma PassListed(nodes: seq<Resource>, rs: seq<Resource>, left: seq<Resource>, done: nat, found: seq<nat>, i: nat,
                   k: int, at: nat, c: Name)
    returns (next: seq<Resource>)
    requires Made(rs, left, done, c) && nodes == left + rs[done..]
    requires i < |found| && found[i..] == Listing(rs, c, done) && k == |left| + found[i] - done
    requires found[i] < |rs| ==> at == FirstIndex(rs[found[i]].subscribers, c)
    ensures done <= found[i] < |rs| && found[i + 1..] == Listing(rs, c, found[i] + 1)
    ensures 0 <= k < |nodes| && nodes[k] == rs[found[i]] && at < |nodes[k].subscribers|
    ensures nodes[k].lock ==>
              var s := nodes[k].subscribers;
              RemoveFromAll(rs, c) ==
              (nodes[..k] + [nodes[k].(subscribers := s[..|s| - 1])] + nodes[k + 1..], RC_LOCKED)
    ensures !nodes[k].lock ==>
              && Made(rs, next, found[i] + 1, c)
              && nodes[..k] + WithoutAt(nodes[k], at) + nodes[k + 1..] == next + rs[found[i] + 1..]
  {
    var p := found[i];
    NextListed(rs, c, done, found, i);
    MadeStep(rs, left, done, p, c);
    SplitAt(nodes, left, rs, done, p);
    WithoutAtFirst(rs[p], c);
    next := left + rs[done..p] + Without(rs[p], c);
  }

  lemma NoneLeft(rs: seq<Resource>, left: seq<Resource>, done: nat, c: Name)
    requires Made(rs, left, done, c)
    requires forall k :: done <= k < |rs| ==> c !in rs[k].subscribers
    ensures RemoveFromAll(rs, c) == (left + rs[done..], RC_SUCCESS)
  {
    SkipUnlisted(rs, done, |rs|, c);
    SkipUnblocked(rs, done, |rs|, c);
    assert rs[..|rs|] == rs;
    RemoveFromAllRuns(rs, c);
  }
}
