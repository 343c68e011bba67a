/**
 * Locking by name (src/session.c, src/resource.c, src/component.c): the loops that lock or unlock
 * the resources and models of a session stop at the first name that cannot be handled. The lemmas
 * say what is left in the two lists when they stop.
 */
module Locking {
  import opened Lists
  import opened Entities

  // ----- one name

  function LockResource(rs: seq<Resource>, n: Name): (seq<Resource>, int) {
    var i := FindResource(rs, n);
    if i == |rs| then (rs, RC_NOT_FOUND)
    else if rs[i].lock then (rs, RC_LOCKED)
    else (rs[i := rs[i].(lock := true)], RC_SUCCESS)
  }

  function UnlockResource(rs: seq<Resource>, n: Name): (seq<Resource>, int) {
    var i := FindResource(rs, n);
    if i == |rs| then (rs, RC_NOT_FOUND) else (rs[i := rs[i].(lock := false)], RC_SUCCESS)
  }

  function LockComponent(cs: seq<Component>, n: Name): (seq<Component>, int) {
    var i := FindComponent(cs, n);
    if i == |cs| then (cs, RC_NOT_FOUND)
    else if cs[i].lock then (cs, RC_LOCKED)
    else (cs[i := cs[i].(lock := true)], RC_SUCCESS)
  }

  function UnlockComponent(cs: seq<Component>, n: Name): (seq<Component>, int) {
    var i := FindComponent(cs, n);
    if i == |cs| then (cs, RC_NOT_FOUND) else (cs[i := cs[i].(lock := false)], RC_SUCCESS)
  }

  // ----- all names of a list, until one fails

  function LockResources(rs: seq<Resource>, ns: seq<Name>): (seq<Resource>, int)
    decreases ns
  {
    if ns == [] then (rs, RC_SUCCESS)
    else
      var (rs', rc) := LockResource(rs, ns[0]);
      if rc != RC_SUCCESS then (rs', rc) else LockResources(rs', ns[1..])
  }

  function UnlockResources(rs: seq<Resource>, ns: seq<Name>): (seq<Resource>, int)
    decreases ns
  {
    if ns == [] then (rs, RC_SUCCESS)
    else
      var (rs', rc) := UnlockResource(rs, ns[0]);
      if rc != RC_SUCCESS then (rs', rc) else UnlockResources(rs', ns[1..])
  }

  function LockComponents(cs: seq<Component>, ns: seq<Name>): (seq<Component>, int)
    decreases ns
  {
    if ns == [] then (cs, RC_SUCCESS)
    else
      var (cs', rc) := LockComponent(cs, ns[0]);
      if rc != RC_SUCCESS then (cs', rc) else LockComponents(cs', ns[1..])
  }

  function UnlockComponents(cs: seq<Component>, ns: seq<Name>): (seq<Component>, int)
    decreases ns
  {
    if ns == [] then (cs, RC_SUCCESS)
    else
      var (cs', rc) := UnlockComponent(cs, ns[0]);
      if rc != RC_SUCCESS then (cs', rc) else UnlockComponents(cs', ns[1..])
  }

  // ----- a session: its resources first, then the models of all its steps

  datatype Locks = Locks(resources: seq<Resource>, components: seq<Component>, rc: int)

  function LockNames(rs: seq<Resource>, cs: seq<Component>, deps: seq<Name>, models: seq<Name>): Locks {
    var (rs', rc) := LockResources(rs, deps);
    if rc != RC_SUCCESS then Locks(rs', cs, rc)
    else
      var (cs', rc') := LockComponents(cs, models);
      Locks(rs', cs', rc')
  }

  function UnlockNames(rs: seq<Resource>, cs: seq<Component>, deps: seq<Name>, models: seq<Name>): Locks {
    var (rs', rc) := UnlockResources(rs, deps);
    if rc != RC_SUCCESS then Locks(rs', cs, rc)
    else
      var (cs', rc') := UnlockComponents(cs, models);
      Locks(rs', cs', rc')
  }

  // ----- what the loops leave behind

  /** `rs` with the lock of every resource named in `ns` set to `b`. */
  function MarkResources(rs: seq<Resource>, ns: seq<Name>, b: bool): (r: seq<Resource>)
    ensures |r| == |rs|
    ensures forall i :: 0 <= i < |r| ==> r[i] == if rs[i].name in ns then rs[i].(lock := b) else rs[i]
  {
    seq(|rs|, i requires 0 <= i < |rs| => if rs[i].name in ns then rs[i].(lock := b) else rs[i])
  }

  function MarkComponents(cs: seq<Component>, ns: seq<Name>, b: bool): (r: seq<Component>)
    ensures |r| == |cs|
    ensures forall i :: 0 <= i < |r| ==> r[i] == if cs[i].name in ns then cs[i].(lock := b) else cs[i]
  {
    seq(|cs|, i requires 0 <= i < |cs| => if cs[i].name in ns then cs[i].(lock := b) else cs[i])
  }

  ghost predicate AllResources(rs: seq<Resource>, ns: seq<Name>) {
    forall n :: n in ns ==> HasResource(rs, n)
  }

  ghost predicate AllComponents(cs: seq<Component>, ns: seq<Name>) {
    forall n :: n in ns ==> HasComponent(cs, n)
  }

  ghost predicate NoneResourceLocked(rs: seq<Resource>, ns: seq<Name>) {
    forall n :: n in ns ==> !ResourceLocked(rs, n)
  }

  ghost predicate NoneComponentLocked(cs: seq<Component>, ns: seq<Name>) {
    forall n :: n in ns ==> !ComponentLocked(cs, n)
  }

  /** Only locks of resources named in `ns` were set. */
  ghost predicate OnlyMarkedResources(rs: seq<Resource>, rs': seq<Resource>, ns: seq<Name>) {
    && |rs'| == |rs|
    && forall i :: 0 <= i < |rs| ==> rs'[i] == rs[i] || (rs[i].name in ns && rs'[i] == rs[i].(lock := true))
  }

  ghost predicate OnlyMarkedComponents(cs: seq<Component>, cs': seq<Component>, ns: seq<Name>) {
    && |cs'| == |cs|
    && forall i :: 0 <= i < |cs| ==> cs'[i] == cs[i] || (cs[i].name in ns && cs'[i] == cs[i].(lock := true))
  }

  /** Locking the first name, when it is free, leaves the others as they were. */
  lemma ResourceTakesLock(rs: seq<Resource>, ns: seq<Name>)
    requires UniqueResources(rs) && ns != [] && HasResource(rs, ns[0]) && AllResources(rs, ns)
        && !rs[FindResource(rs, ns[0])].lock
    ensures var i := FindResource(rs, ns[0]);
            var rs1 := rs[i := rs[i].(lock := true)];
            && UniqueResources(rs1) && AllResources(rs1, ns[1..])
            && (NoDup(ns) && NoneResourceLocked(rs, ns) <==> NoDup(ns[1..]) && NoneResourceLocked(rs1, ns[1..]))
  {
    var n, ns' := ns[0], ns[1..];
    assert n in ns && ns == [n] + ns';
    var i := FindResource(rs, n);
    var rs1 := rs[i := rs[i].(lock := true)];
    forall m | HasResource(rs, m) ensures FindResource(rs1, m) == FindResource(rs, m) {
      assert rs1[FindResource(rs, m)].name == m;
      assert rs[FindResource(rs1, m)].name == m;
    }
    NoDupCons(n, ns');
    if n in ns' {
      assert ResourceLocked(rs1, n);
    } else {
      forall m | m in ns' ensures ResourceLocked(rs1, m) == ResourceLocked(rs, m) {}
    }
  }

  lemma {:induction false} LockResourcesFacts(rs: seq<Resource>, ns: seq<Name>)
    requires UniqueResources(rs) && AllResources(rs, ns)
    ensures var (rs', rc) := LockResources(rs, ns);
            && (rc == RC_SUCCESS <==> NoDup(ns) && NoneResourceLocked(rs, ns))
            && (rc == RC_SUCCESS ==> rs' == MarkResources(rs, ns, true))
            && OnlyMarkedResources(rs, rs', ns)
    decreases ns
  {
    if ns != [] {
      assert ns[0] in ns;
      var i := FindResource(rs, ns[0]);
      if rs[i].lock {
        assert ResourceLocked(rs, ns[0]);
      } else {
        hide NoneResourceLocked, NoDup, UniqueResources, AllResources;
        ResourceTakesLock(rs, ns);
        LockResourcesFacts(rs[i := rs[i].(lock := true)], ns[1..]);
      }
    }
  }

  /** Locking the first name, when it is free, leaves the others as they were. */
  lemma ComponentTakesLock(cs: seq<Component>, ns: seq<Name>)
    requires UniqueComponents(cs) && ns != [] && HasComponent(cs, ns[0]) && AllComponents(cs, ns)
        && !cs[FindComponent(cs, ns[0])].lock
    ensures var i := FindComponent(cs, ns[0]);
            var cs1 := cs[i := cs[i].(lock := true)];
            && UniqueComponents(cs1) && AllComponents(cs1, ns[1..])
            && (NoDup(ns) && NoneComponentLocked(cs, ns) <==> NoDup(ns[1..]) && NoneComponentLocked(cs1, ns[1..]))
  {
    var n, ns' := ns[0], ns[1..];
    assert n in ns && ns == [n] + ns';
    var i := FindComponent(cs, n);
    var cs1 := cs[i := cs[i].(lock := true)];
    forall m | HasComponent(cs, m) ensures FindComponent(cs1, m) == FindComponent(cs, m) {
      assert cs1[FindComponent(cs, m)].name == m;
      assert cs[FindComponent(cs1, m)].name == m;
    }
    NoDupCons(n, ns');
    if n in ns' {
      assert ComponentLocked(cs1, n);
    } else {
      forall m | m in ns' ensures ComponentLocked(cs1, m) == ComponentLocked(cs, m) {}
    }
  }

  lemma {:induction false} LockComponentsFacts(cs: seq<Component>, ns: seq<Name>)
    requires UniqueComponents(cs) && AllComponents(cs, ns)
    ensures var (cs', rc) := LockComponents(cs, ns);
            && (rc == RC_SUCCESS <==> NoDup(ns) && NoneComponentLocked(cs, ns))
            && (rc == RC_SUCCESS ==> cs' == MarkComponents(cs, ns, true))
            && OnlyMarkedComponents(cs, cs', ns)
    decreases ns
  {
    if ns != [] {
      assert ns[0] in ns;
      var i := FindComponent(cs, ns[0]);
      if cs[i].lock {
        assert ComponentLocked(cs, ns[0]);
      } else {
        hide NoneComponentLocked, NoDup, UniqueComponents, AllComponents;
        ComponentTakesLock(cs, ns);
        LockComponentsFacts(cs[i := cs[i].(lock := true)], ns[1..]);
      }
    }
  }

  /** Unlocking registered names never stops early. */
  lemma {:induction false} UnlockResourcesFacts(rs: seq<Resource>, ns: seq<Name>)
    requires UniqueResources(rs) && AllResources(rs, ns)
    ensures UnlockResources(rs, ns) == (MarkResources(rs, ns, false), RC_SUCCESS)
    decreases ns
  {
    if ns == [] {
      assert MarkResources(rs, ns, false) == rs;
    } else {
      var n, ns' := ns[0], ns[1..];
      assert n in ns && ns == [n] + ns';
      var i := FindResource(rs, n);
      var rs1 := rs[i := rs[i].(lock := false)];
      forall m | HasResource(rs, m) ensures HasResource(rs1, m) {
        assert rs1[FindResource(rs, m)].name == m;
      }
      UnlockResourcesFacts(rs1, ns');
      assert MarkResources(rs1, ns', false) == MarkResources(rs, ns, false);
    }
  }

  lemma {:induction false} UnlockComponentsFacts(cs: seq<Component>, ns: seq<Name>)
    requires UniqueComponents(cs) && AllComponents(cs, ns)
    ensures UnlockComponents(cs, ns) == (MarkComponents(cs, ns, false), RC_SUCCESS)
    decreases ns
  {
    if ns == [] {
      assert MarkComponents(cs, ns, false) == cs;
    } else {
      var n, ns' := ns[0], ns[1..];
      assert n in ns && ns == [n] + ns';
      var i := FindComponent(cs, n);
      var cs1 := cs[i := cs[i].(lock := false)];
      forall m | HasComponent(cs, m) ensures HasComponent(cs1, m) {
        assert cs1[FindComponent(cs, m)].name == m;
      }
      UnlockComponentsFacts(cs1, ns');
      assert MarkComponents(cs1, ns', false) == MarkComponents(cs, ns, false);
    }
  }

  /**
   * Locking a session succeeds exactly when its models are pairwise distinct and nothing it needs
   * is locked; then its names are the ones newly locked.
   */
  lemma LockNamesIff(rs: seq<Resource>, cs: seq<Component>, deps: seq<Name>, models: seq<Name>)
    requires UniqueResources(rs) && UniqueComponents(cs)
    requires AllResources(rs, deps) && AllComponents(cs, models) && NoDup(deps)
    ensures var l := LockNames(rs, cs, deps, models);
            && (l.rc == RC_SUCCESS <==>
                NoDup(models) && NoneResourceLocked(rs, deps) && NoneComponentLocked(cs, models))
            && (l.rc == RC_SUCCESS ==>
                l.resources == MarkResources(rs, deps, true) && l.components == MarkComponents(cs, models, true))
  {
    LockResourcesFacts(rs, deps);
    LockComponentsFacts(cs, models);
  }

  /** The rollback after a failed lock clears every name of the chain, whoever had locked it. */
  lemma RollbackClears(rs: seq<Resource>, cs: seq<Component>, deps: seq<Name>, models: seq<Name>)
    requires UniqueResources(rs) && UniqueComponents(cs)
    requires AllResources(rs, deps) && AllComponents(cs, models)
    ensures var l := LockNames(rs, cs, deps, models);
            UnlockNames(l.resources, l.components, deps, models) ==
            Locks(MarkResources(rs, deps, false), MarkComponents(cs, models, false), RC_SUCCESS)
  {
    var l := LockNames(rs, cs, deps, models);
    LockResourcesFacts(rs, deps);
    LockComponentsFacts(cs, models);
    assert OnlyMarkedComponents(cs, l.components, models);
    forall n | n in deps ensures HasResource(l.resources, n) {
      assert l.resources[FindResource(rs, n)].name == n;
    }
    forall n | n in models ensures HasComponent(l.components, n) {
      assert l.components[FindComponent(cs, n)].name == n;
    }
    UnlockResourcesFacts(l.resources, deps);
    UnlockComponentsFacts(l.components, models);
    assert MarkResources(l.resources, deps, false) == MarkResources(rs, deps, false);
    assert MarkComponents(l.components, models, false) == MarkComponents(cs, models, false);
  }

  /** When nothing of the chain was locked, the rollback restores both lists. */
  lemma ClearingUnlockedIsIdentity(rs: seq<Resource>, cs: seq<Component>, deps: seq<Name>, models: seq<Name>)
    requires UniqueResources(rs) && UniqueComponents(cs)
    requires NoneResourceLocked(rs, deps) && NoneComponentLocked(cs, models)
    ensures MarkResources(rs, deps, false) == rs && MarkComponents(cs, models, false) == cs
  {
    forall i | 0 <= i < |rs| ensures MarkResources(rs, deps, false)[i] == rs[i] {
      assert FindResource(rs, rs[i].name) == i;
    }
    forall i | 0 <= i < |cs| ensures MarkComponents(cs, models, false)[i] == cs[i] {
      assert FindComponent(cs, cs[i].name) == i;
    }
  }
}
