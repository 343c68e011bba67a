/**
 * The component list (src/component.c): one object whose node list the operations rewrite. The
 * methods compute the functions that Locking, Registry and HookWalk are about.
 */
module ComponentStore {
  import opened Lists
  import opened Entities
  import opened HookWalk
  import opened Locking
  import opened Registry

  const RC_DATA_ERROR := -1

  /** component_append_hook_by_name. */
  function AppendHook(cs: seq<Component>, n: Name, hook: Name): (seq<Component>, int) {
    var i := FindComponent(cs, n);
    if i == |cs| then (cs, RC_DATA_ERROR)
    else if cs[i].lock then (cs, RC_LOCKED)
    else (cs[i := cs[i].(hooks := cs[i].hooks + [hook])], RC_SUCCESS)
  }

  /** component_remove_hook_by_name: a component with one hook or none goes away, whatever hook is given. */
  function RemoveHook(cs: seq<Component>, n: Name, hook: Name): (seq<Component>, int) {
    var i := FindComponent(cs, n);
    if i == |cs| then (cs, RC_SUCCESS)
    else if cs[i].lock then (cs, RC_LOCKED)
    else if |cs[i].hooks| <= 1 then (RemoveAt(cs, i), RC_SUCCESS)
    else (cs[i := cs[i].(hooks := RemoveFirst(cs[i].hooks, hook))], RC_SUCCESS)
  }

  class ComponentList {
    var nodes: seq<Component>

    constructor ()
      ensures nodes == []
    {
      nodes := [];
    }

    method Lookup(name: Name) returns (i: nat)
      ensures i == FindComponent(nodes, name)
    {
      i := 0;
      while i < |nodes|
        invariant 0 <= i <= |nodes|
        invariant forall j :: 0 <= j < i ==> nodes[j].name != name
      {
        if nodes[i].name == name { return; }
        i := i + 1;
      }
    }

    method AddNode(c: Component)
      modifies this
      ensures nodes == old(nodes) + [c]
    {
      nodes := nodes + [c];
    }

    method DeleteFirstName(name: Name) returns (rc: int)
      modifies this
      ensures var (cs, i) := (old(nodes), FindComponent(old(nodes), name));
              if i == |cs| then nodes == cs && rc == RC_SUCCESS
              else if cs[i].lock then nodes == cs && rc == RC_LOCKED
              else nodes == RemoveAt(cs, i) && rc == RC_SUCCESS
    {
      var i := Lookup(name);
      if i == |nodes| { return RC_SUCCESS; }
      if nodes[i].lock { return RC_LOCKED; }
      nodes := RemoveAt(nodes, i);
      rc := RC_SUCCESS;
    }

    method IsLocked(name: Name) returns (locked: bool)
      ensures locked == ComponentLocked(nodes, name)
    {
      var i := Lookup(name);
      locked := i < |nodes| && nodes[i].lock;
    }

    method IsUniqueTunnel(tunnel: Name) returns (unique: bool)
      ensures unique == UniqueTunnel(nodes, tunnel)
    {
      var i := 0;
      while i < |nodes|
        invariant 0 <= i <= |nodes|
        invariant forall j :: 0 <= j < i ==> nodes[j].tunnel != tunnel
      {
        if nodes[i].tunnel == tunnel { return false; }
        i := i + 1;
      }
      unique := true;
    }

    method LockByName(name: Name) returns (rc: int)
      modifies this
      ensures (nodes, rc) == LockComponent(old(nodes), name)
    {
      var i := Lookup(name);
      if i == |nodes| { return RC_NOT_FOUND; }
      if nodes[i].lock { return RC_LOCKED; }
      nodes := nodes[i := nodes[i].(lock := true)];
      rc := RC_SUCCESS;
    }

    method UnlockByName(name: Name) returns (rc: int)
      modifies this
      ensures (nodes, rc) == UnlockComponent(old(nodes), name)
    {
      var i := Lookup(name);
      if i == |nodes| { return RC_NOT_FOUND; }
      nodes := nodes[i := nodes[i].(lock := false)];
      rc := RC_SUCCESS;
    }

    /** Where the node at `i` hooks `hook` first. */
    method FindHook(i: nat, hook: Name) returns (k: nat)
      requires i < |nodes|
      ensures k == FirstIndex(nodes[i].hooks, hook) <= |nodes[i].hooks|
    {
      k := 0;
      while k < |nodes[i].hooks| && nodes[i].hooks[k] != hook
        invariant 0 <= k <= |nodes[i].hooks|
        invariant forall j :: 0 <= j < k ==> nodes[i].hooks[j] != hook
      {
        k := k + 1;
      }
      FirstIndexIs(nodes[i].hooks, hook, k);
    }

    /** Appends a hook; the node is locked while its buffer grows. */
    method AppendHookByName(name: Name, hook: Name) returns (rc: int)
      modifies this
      ensures (nodes, rc) == AppendHook(old(nodes), name, hook)
    {
      var i := Lookup(name);
      if i == |nodes| { return RC_DATA_ERROR; }
      if nodes[i].lock { return RC_LOCKED; }
      nodes := nodes[i := nodes[i].(lock := true)];
      nodes := nodes[i := nodes[i].(hooks := nodes[i].hooks + [hook])];
      nodes := nodes[i := nodes[i].(lock := false)];
      rc := RC_SUCCESS;
      assert nodes == AppendHook(old(nodes), name, hook).0;
    }

    /** Takes the first `hook` out of the hooks of `name`. */
    method RemoveHookByName(name: Name, hook: Name) returns (rc: int)
      modifies this
      ensures (nodes, rc) == RemoveHook(old(nodes), name, hook)
    {
      var i := Lookup(name);
      if i == |nodes| { return RC_SUCCESS; }
      if nodes[i].lock { return RC_LOCKED; }
      nodes := nodes[i := nodes[i].(lock := true)];
      if |nodes[i].hooks| <= 1 {
        nodes := RemoveAt(nodes, i);
        assert nodes == RemoveAt(old(nodes), i);
        return RC_SUCCESS;
      }
      var k := FindHook(i, hook);
      if k < |nodes[i].hooks| {
        nodes := nodes[i := nodes[i].(hooks := RemoveAt(nodes[i].hooks, k))];
      }
      nodes := nodes[i := nodes[i].(lock := false)];
      assert nodes == old(nodes)[i := old(nodes)[i].(hooks := RemoveFirst(old(nodes)[i].hooks, hook))];
      rc := RC_SUCCESS;
    }

    /** The names of the components that hook `hook`. */
    method GetNamesByHook(hook: Name) returns (names: seq<Name>)
      ensures names == HookedBy(nodes, hook)
    {
      names := [];
      var k := 0;
      while k < |nodes|
        invariant 0 <= k <= |nodes|
        invariant names == HookedBy(nodes[..k], hook)
      {
        assert nodes[..k + 1][..k] == nodes[..k];
        var i := FindHook(k, hook);
        FirstIndexFacts(nodes[k].hooks, hook);
        if i < |nodes[k].hooks| { names := names + [nodes[k].name]; }
        k := k + 1;
      }
      assert nodes[..|nodes|] == nodes;
    }
  }

  // ----- what the two hook operations mean for the walk

  /** Appending a hook adds `n` to the components that hook `hook`, unless it is there, and changes no other answer. */
  lemma AppendHookLinks(cs: seq<Component>, n: Name, hook: Name, h: Name, m: Name)
    requires UniqueComponents(cs) && AppendHook(cs, n, hook).1 == RC_SUCCESS
    ensures m in HookedBy(AppendHook(cs, n, hook).0, h) <==> m in HookedBy(cs, h) || (m == n && h == hook)
  {
    var i, cs' := FindComponent(cs, n), AppendHook(cs, n, hook).0;
    HookedByMember(cs, h, m);
    HookedByMember(cs', h, m);
    assert forall j :: 0 <= j < |cs| ==> cs'[j].name == cs[j].name && (j != i ==> cs'[j] == cs[j]);
    assert h in cs'[i].hooks <==> h in cs[i].hooks || h == hook;
    if j :| 0 <= j < |cs| && cs[j].name == m && h in cs[j].hooks { assert cs'[j].name == m; }
    if j :| 0 <= j < |cs| && cs'[j].name == m && h in cs'[j].hooks { assert cs[j].name == cs'[j].name; }
  }

  /** Appending a hook and removing it again restores the list, if the component had another hook and not this one. */
  lemma AppendThenRemoveHook(cs: seq<Component>, n: Name, hook: Name)
    requires AppendHook(cs, n, hook).1 == RC_SUCCESS
    requires var c := cs[FindComponent(cs, n)]; hook !in c.hooks
    ensures var (cs', i) := (AppendHook(cs, n, hook).0, FindComponent(cs, n));
            if cs[i].hooks == [] then RemoveHook(cs', n, hook) == (RemoveAt(cs, i), RC_SUCCESS)
            else RemoveHook(cs', n, hook) == (cs, RC_SUCCESS)
  {
    var i, cs' := FindComponent(cs, n), AppendHook(cs, n, hook).0;
    assert cs'[i].name == n && FindComponent(cs', n) == i;
    LastIsFirst(cs[i].hooks, hook);
    assert RemoveAt(cs', i) == RemoveAt(cs, i);
    assert cs'[i := cs[i]] == cs;
  }

  /** The by-name removal drops a component with a single hook even when another hook is named. */
  lemma SingleHookDropsComponent(cs: seq<Component>, n: Name, hook: Name)
    requires HasComponent(cs, n) && !ComponentLocked(cs, n) && UniqueComponents(cs)
    ensures !HasComponent(RemoveHook(cs, n, hook).0, n) <==> |cs[FindComponent(cs, n)].hooks| <= 1
  {
    var i, cs' := FindComponent(cs, n), RemoveHook(cs, n, hook).0;
    if |cs[i].hooks| <= 1 {
      assert forall j :: 0 <= j < |cs'| ==> cs'[j] == cs[if j < i then j else j + 1];
    } else {
      assert cs'[i].name == n;
    }
  }

  /** Appending a hook: when it is refused, and that it touches the hooks of the one component only. */
  lemma AppendHookAnswer(cs: seq<Component>, n: Name, hook: Name)
    requires UniqueComponents(cs)
    ensures var (cs', rc) := AppendHook(cs, n, hook);
            && (rc == RC_DATA_ERROR <==> forall i :: 0 <= i < |cs| ==> cs[i].name != n)
            && (rc == RC_LOCKED <==> exists i :: 0 <= i < |cs| && cs[i].name == n && cs[i].lock)
            && (rc == RC_SUCCESS <==> exists i :: 0 <= i < |cs| && cs[i].name == n && !cs[i].lock)
            && |cs'| == |cs| && (rc != RC_SUCCESS ==> cs' == cs)
            && (rc == RC_SUCCESS ==> forall i :: 0 <= i < |cs| ==>
                  cs'[i] == if cs[i].name == n then cs[i].(hooks := cs[i].hooks + [hook]) else cs[i])
  {
    var k := FindComponent(cs, n);
    forall i | 0 <= i < |cs| && cs[i].name == n ensures i == k {}
  }

  /** Removing a hook: likewise; the component goes when it has no other hook. */
  lemma RemoveHookAnswer(cs: seq<Component>, n: Name, hook: Name)
    requires UniqueComponents(cs)
    ensures var (cs', rc) := RemoveHook(cs, n, hook);
            && (rc == RC_LOCKED <==> exists i :: 0 <= i < |cs| && cs[i].name == n && cs[i].lock)
            && (rc == RC_SUCCESS <==> forall i :: 0 <= i < |cs| && cs[i].name == n ==> !cs[i].lock)
            && (rc == RC_LOCKED || (forall i :: 0 <= i < |cs| ==> cs[i].name != n) ==> cs' == cs)
            && forall i :: (0 <= i < |cs| && cs[i].name == n && !cs[i].lock ==>
                 if |cs[i].hooks| <= 1 then cs' == cs[..i] + cs[i + 1..]
                 else |cs'| == |cs| && HookTaken(cs[i], cs'[i], hook)
                      && forall j :: 0 <= j < |cs| && j != i ==> cs'[j] == cs[j])
  {
    var k := FindComponent(cs, n);
    forall i | 0 <= i < |cs| && cs[i].name == n ensures i == k {}
    if k < |cs| { FirstIndexFacts(cs[k].hooks, hook); }
  }

  /** `c'` is `c` without its first `hook`, if it has one. */
  ghost predicate HookTaken(c: Component, c': Component, hook: Name) {
    && c' == c.(hooks := c'.hooks)
    && if hook !in c.hooks then c' == c
       else exists p :: 0 <= p < |c.hooks| && c.hooks[p] == hook && hook !in c.hooks[..p]
                        && c'.hooks == c.hooks[..p] + c.hooks[p + 1..]
  }
}
