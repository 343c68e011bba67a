/**
 * Registration (src/sanji_controller.c, register_create and register_delete): a component and the
 * resources that list it are two indexes that have to agree. The functions here say what the two
 * operations do to the two lists; the lemmas say when the indexes stay consistent and that
 * deregistering undoes registering.
 */
module Registry {
  import opened Lists
  import opened Entities

  // ----- resource_append_component_by_name

  function AppendSubscriber(rs: seq<Resource>, r: Name, c: Name): seq<Resource> {
    var i := FindResource(rs, r);
    if i == |rs| then rs + [Resource(r, [c], false)]
    else if rs[i].lock then rs
    else rs[i := rs[i].(subscribers := rs[i].subscribers + [c])]
  }

  /** The loop of register_create over the requested resources. */
  function AppendToAll(rs: seq<Resource>, ns: seq<Name>, c: Name): seq<Resource> {
    if ns == [] then rs else AppendSubscriber(AppendToAll(rs, ns[..|ns| - 1], c), ns[|ns| - 1], c)
  }

  // ----- resource_remove_all_component_by_name

  /** What becomes of one resource. */
  function Without(r: Resource, c: Name): seq<Resource> {
    if c !in r.subscribers then [r]
    else if |r.subscribers| == 1 then []
    else [r.(subscribers := RemoveFirst(r.subscribers, c))]
  }

  function WithoutAll(rs: seq<Resource>, c: Name): seq<Resource> {
    if rs == [] then [] else WithoutAll(rs[..|rs| - 1], c) + Without(rs[|rs| - 1], c)
  }

  /** The first locked resource that lists `c`, or the number of resources. */
  function FirstBlocked(rs: seq<Resource>, c: Name): (k: nat)
    ensures k <= |rs|
    ensures forall i :: 0 <= i < k ==> !(c in rs[i].subscribers && rs[i].lock)
    ensures k < |rs| ==> c in rs[k].subscribers && rs[k].lock
  {
    if rs == [] then 0
    else
      var n := |rs| - 1;
      var k := FirstBlocked(rs[..n], c);
      if k < n || (c in rs[n].subscribers && rs[n].lock) then k else n + 1
  }

  /**
   * Takes the first `c` out of every subscriber list, dropping a resource that is left without any.
   * A locked resource stops the loop with its count already decremented, which hides its last entry.
   */
  function RemoveFromAll(rs: seq<Resource>, c: Name): (seq<Resource>, int) {
    var k := FirstBlocked(rs, c);
    if k == |rs| then (WithoutAll(rs, c), RC_SUCCESS)
    else
      var hidden := rs[k].(subscribers := rs[k].subscribers[..|rs[k].subscribers| - 1]);
      (WithoutAll(rs[..k], c) + [hidden] + rs[k + 1..], RC_LOCKED)
  }

  /**
   * resource_remove_component_by_name, for one resource. A resource with one entry goes away,
   * whatever name is given.
   */
  function RemoveSubscriber(rs: seq<Resource>, n: Name, c: Name): (seq<Resource>, int) {
    var i := FindResource(rs, n);
    if i == |rs| then (rs, RC_SUCCESS)
    else if rs[i].lock then (rs, RC_LOCKED)
    else if |rs[i].subscribers| <= 1 then (RemoveAt(rs, i), RC_SUCCESS)
    else (rs[i := rs[i].(subscribers := RemoveFirst(rs[i].subscribers, c))], RC_SUCCESS)
  }

  // ----- register_create, register_delete

  predicate AnyResourceLocked(rs: seq<Resource>, ns: seq<Name>) {
    exists i :: 0 <= i < |ns| && ResourceLocked(rs, ns[i])
  }

  predicate AnyLockedBySubscriber(rs: seq<Resource>, c: Name) {
    exists i :: 0 <= i < |rs| && c in rs[i].subscribers && rs[i].lock
  }

  predicate UniqueTunnel(cs: seq<Component>, t: Name) {
    forall i :: 0 <= i < |cs| ==> cs[i].tunnel != t
  }

  datatype Outcome = Outcome(components: seq<Component>, resources: seq<Resource>, code: int)

  /** `c` is the new component, unlocked and with the tunnel that was drawn for it. */
  function Register(cs: seq<Component>, rs: seq<Resource>, c: Component, ns: seq<Name>): Outcome {
    if AnyResourceLocked(rs, ns) then Outcome(cs, rs, CODE_LOCKED)
    else if HasComponent(cs, c.name) then Outcome(cs, rs, CODE_FORBIDDEN)
    else Outcome(cs + [c], AppendToAll(rs, ns, c.name), CODE_OK)
  }

  function Deregister(cs: seq<Component>, rs: seq<Resource>, n: Name): Outcome {
    if !HasComponent(cs, n) then Outcome(cs, rs, CODE_OK)
    else if ComponentLocked(cs, n) || AnyLockedBySubscriber(rs, n) then Outcome(cs, rs, CODE_LOCKED)
    else Outcome(RemoveAt(cs, FindComponent(cs, n)), RemoveFromAll(rs, n).0, CODE_OK)
  }

  // ----- consistency of the two indexes

  /** The tunnels the controller draws are decimal numbers; a topic belongs to the built-in model it is named after. */
  predicate TunnelForm(c: Component) {
    && (c.tunnel == REGISTER_TOPIC ==> c.name == REGISTER_NAME)
    && (c.tunnel == DEPENDENCY_TOPIC ==> c.name == DEPENDENCY_NAME)
  }

  /** Names and tunnels identify the nodes. */
  ghost predicate Identified(cs: seq<Component>, rs: seq<Resource>) {
    && UniqueComponents(cs) && UniqueResources(rs)
    && (forall i, j :: 0 <= i < j < |cs| ==> cs[i].tunnel != cs[j].tunnel)
    && (forall i :: 0 <= i < |cs| ==> TunnelForm(cs[i]))
  }

  /** Every resource is subscribed, by registered components, each listed once. */
  ghost predicate Linked(cs: seq<Component>, rs: seq<Resource>) {
    forall i :: 0 <= i < |rs| ==> LinkedResource(cs, rs[i])
  }

  ghost predicate LinkedResource(cs: seq<Component>, r: Resource) {
    && r.subscribers != []
    && NoDup(r.subscribers)
    && forall c :: c in r.subscribers ==> HasComponent(cs, c)
  }

  // ----- what registering does to the resources

  /** The resource that a name leads to. */
  function Lookup(rs: seq<Resource>, n: Name): Option<Resource> {
    if HasResource(rs, n) then Some(rs[FindResource(rs, n)]) else None
  }

  ghost predicate AllUnlocked(rs: seq<Resource>, ns: seq<Name>) {
    forall n :: n in ns ==> !ResourceLocked(rs, n)
  }

  /** What a name leads to after `c` was appended to it `k` times. */
  function Appended(o: Option<Resource>, n: Name, c: Name, k: nat): Option<Resource> {
    if k == 0 then o
    else
      match o
      case None => Some(Resource(n, seq(k, _ => c), false))
      case Some(r) => Some(r.(subscribers := r.subscribers + seq(k, _ => c)))
  }

  lemma AppendSubscriberLookup(rs: seq<Resource>, r: Name, c: Name, n: Name)
    requires !ResourceLocked(rs, r)
    ensures Lookup(AppendSubscriber(rs, r, c), n) == if n == r then Appended(Lookup(rs, n), n, c, 1) else Lookup(rs, n)
  {
    var rs' := AppendSubscriber(rs, r, c);
    assert seq(1, _ => c) == [c];
    if HasResource(rs, n) {
      assert rs'[FindResource(rs, n)].name == n;
    } else if n == r {
      assert rs'[|rs|].name == n;
    }
  }

  lemma AppendSubscriberUnique(rs: seq<Resource>, r: Name, c: Name)
    requires UniqueResources(rs)
    ensures UniqueResources(AppendSubscriber(rs, r, c))
  {
  }

  lemma AppendedOnce(o: Option<Resource>, n: Name, c: Name, k: nat)
    ensures Appended(Appended(o, n, c, k), n, c, 1) == Appended(o, n, c, k + 1)
  {
    assert seq(k, _ => c) + seq(1, _ => c) == seq(k + 1, _ => c);
    if o.Some? {
      var s := o.value.subscribers;
      assert (s + seq(k, _ => c)) + seq(1, _ => c) == s + seq(k + 1, _ => c);
      assert k == 0 ==> s + seq(1, _ => c) == s + seq(k + 1, _ => c);
    }
  }

  /** Each requested resource lists the component once more for each time it was requested. */
  lemma {:induction false} AppendToAllLookup(rs: seq<Resource>, ns: seq<Name>, c: Name, n: Name)
    requires AllUnlocked(rs, ns)
    ensures Lookup(AppendToAll(rs, ns, c), n) == Appended(Lookup(rs, n), n, c, multiset(ns)[n])
    decreases ns
  {
    if ns != [] {
      var k := |ns| - 1;
      assert ns == ns[..k] + [ns[k]];
      var mid := AppendToAll(rs, ns[..k], c);
      AppendToAllLookup(rs, ns[..k], c, n);
      assert !ResourceLocked(mid, ns[k]) by {
        AppendToAllLookup(rs, ns[..k], c, ns[k]);
        assert ns[k] in ns && !ResourceLocked(rs, ns[k]);
      }
      AppendSubscriberLookup(mid, ns[k], c, n);
      AppendedOnce(Lookup(rs, n), n, c, multiset(ns[..k])[n]);
      assert multiset(ns)[n] == multiset(ns[..k])[n] + if n == ns[k] then 1 else 0;
    }
  }

  lemma {:induction false} AppendToAllUnique(rs: seq<Resource>, ns: seq<Name>, c: Name)
    requires UniqueResources(rs)
    ensures UniqueResources(AppendToAll(rs, ns, c))
  {
    if ns != [] {
      AppendToAllUnique(rs, ns[..|ns| - 1], c);
      AppendSubscriberUnique(AppendToAll(rs, ns[..|ns| - 1], c), ns[|ns| - 1], c);
    }
  }

  /** Names and tunnels keep identifying the nodes. */
  lemma RegisterKeepsIdentified(cs: seq<Component>, rs: seq<Resource>, c: Component, ns: seq<Name>)
    requires Identified(cs, rs) && UniqueTunnel(cs, c.tunnel) && TunnelForm(c)
    ensures var o := Register(cs, rs, c, ns); Identified(o.components, o.resources)
  {
    if Register(cs, rs, c, ns).code == CODE_OK {
      AppendToAllUnique(rs, ns, c.name);
    }
  }

  lemma NotAnyLocked(rs: seq<Resource>, ns: seq<Name>)
    requires !AnyResourceLocked(rs, ns)
    ensures AllUnlocked(rs, ns)
  {
  }

  /** One resource: it stays linked exactly when `c` was appended at most once. */
  lemma AppendedLinked(cs: seq<Component>, c: Component, r: Resource, o: Option<Resource>, k: nat)
    requires !HasComponent(cs, c.name)
    requires o.Some? ==> LinkedResource(cs, o.value)
    requires Appended(o, r.name, c.name, k) == Some(r)
    ensures LinkedResource(cs + [c], r) <==> k <= 1
  {
    assert (cs + [c])[|cs|].name == c.name;
    forall d | HasComponent(cs, d) ensures HasComponent(cs + [c], d) {
      assert (cs + [c])[FindComponent(cs, d)].name == d;
    }
    var s := if o.Some? then o.value.subscribers else [];
    if k > 0 {
      assert r.subscribers == s + seq(k, _ => c.name);
      if k > 1 { assert r.subscribers[|s|] == r.subscribers[|s| + 1]; }
    }
  }

  /**
   * From consistent indexes, an accepted registration leaves them consistent if and only if it
   * names each resource once.
   */
  lemma RegisterKeepsLinkedIff(cs: seq<Component>, rs: seq<Resource>, c: Component, ns: seq<Name>)
    requires Identified(cs, rs) && Linked(cs, rs)
    requires Register(cs, rs, c, ns).code == CODE_OK
    ensures var o := Register(cs, rs, c, ns); Linked(o.components, o.resources) <==> NoDup(ns)
  {
    var rs' := AppendToAll(rs, ns, c.name);
    NotAnyLocked(rs, ns);
    AppendToAllUnique(rs, ns, c.name);
    CountsDecideNoDup(ns);
    forall i | 0 <= i < |rs'| ensures LinkedResource(cs + [c], rs'[i]) <==> multiset(ns)[rs'[i].name] <= 1 {
      var n := rs'[i].name;
      assert Lookup(rs', n) == Some(rs'[i]);
      AppendToAllLookup(rs, ns, c.name, n);
      AppendedLinked(cs, c, rs'[i], Lookup(rs, n), multiset(ns)[n]);
    }
    if Linked(cs + [c], rs') {
      forall n ensures multiset(ns)[n] <= 1 {
        AppendToAllLookup(rs, ns, c.name, n);
      }
    }
  }

  // ----- what deregistering does to the resources

  /** Unless a locked resource lists `c`, the loop runs to its end. */
  lemma RemoveFromAllRuns(rs: seq<Resource>, c: Name)
    requires !AnyLockedBySubscriber(rs, c)
    ensures RemoveFromAll(rs, c) == (WithoutAll(rs, c), RC_SUCCESS)
  {
  }

  /** Every remaining resource stems from one of the list. */
  lemma {:induction false} WithoutAllOrigin(rs: seq<Resource>, c: Name, i: nat) returns (k: nat)
    requires i < |WithoutAll(rs, c)|
    ensures k < |rs| && Without(rs[k], c) == [WithoutAll(rs, c)[i]]
  {
    k := |rs| - 1;
    if i < |WithoutAll(rs[..k], c)| {
      k := WithoutAllOrigin(rs[..k], c, i);
    }
  }

  lemma {:induction false} WithoutAllKeeps(rs: seq<Resource>, c: Name, k: nat)
    requires k < |rs|
    ensures forall r :: r in Without(rs[k], c) ==> r in WithoutAll(rs, c)
  {
    if k < |rs| - 1 { WithoutAllKeeps(rs[..|rs| - 1], c, k); }
  }

  lemma {:induction false} WithoutAllUnique(rs: seq<Resource>, c: Name)
    requires UniqueResources(rs)
    ensures UniqueResources(WithoutAll(rs, c))
  {
    if rs != [] {
      var k := |rs| - 1;
      WithoutAllUnique(rs[..k], c);
      var before := WithoutAll(rs[..k], c);
      forall i | 0 <= i < |before| ensures before[i].name != rs[k].name {
        var m := WithoutAllOrigin(rs[..k], c, i);
      }
    }
  }

  lemma DeregisterKeepsIdentified(cs: seq<Component>, rs: seq<Resource>, n: Name)
    requires Identified(cs, rs)
    ensures var o := Deregister(cs, rs, n); Identified(o.components, o.resources)
  {
    if HasComponent(cs, n) && Deregister(cs, rs, n).code == CODE_OK {
      RemoveFromAllRuns(rs, n);
      WithoutAllUnique(rs, n);
    }
  }

  /** Deregistering keeps consistent indexes consistent. */
  lemma DeregisterKeepsLinked(cs: seq<Component>, rs: seq<Resource>, n: Name)
    requires Identified(cs, rs) && Linked(cs, rs)
    ensures var o := Deregister(cs, rs, n); Linked(o.components, o.resources)
  {
    if HasComponent(cs, n) && Deregister(cs, rs, n).code == CODE_OK {
      RemoveFromAllRuns(rs, n);
      var cs', rs' := RemoveAt(cs, FindComponent(cs, n)), WithoutAll(rs, n);
      forall d | d != n && HasComponent(cs, d) ensures HasComponent(cs', d) {
        var i, k := FindComponent(cs, d), FindComponent(cs, n);
        assert cs'[if i < k then i else i - 1].name == d;
      }
      forall i | 0 <= i < |rs'| ensures LinkedResource(cs', rs'[i]) {
        var k := WithoutAllOrigin(rs, n, i);
        var r := rs[k];
        assert LinkedResource(cs, r);
        if n in r.subscribers { RemoveFirstFacts(r.subscribers, n); }
      }
    }
  }

  /**
   * A resource that lists the component twice keeps it listed after the component is gone:
   * the two-phase removal takes out the first occurrence only.
   */
  lemma DuplicateDangles(cs: seq<Component>, rs: seq<Resource>, c: Component, ns: seq<Name>)
    requires Identified(cs, rs) && Linked(cs, rs) && !c.lock
    requires Register(cs, rs, c, ns).code == CODE_OK && !NoDup(ns)
    ensures var o := Register(cs, rs, c, ns);
            var o' := Deregister(o.components, o.resources, c.name);
            && o'.code == CODE_OK && !HasComponent(o'.components, c.name)
            && exists i :: 0 <= i < |o'.resources| && c.name in o'.resources[i].subscribers
  {
    hide AppendToAll, WithoutAll, FirstBlocked, RemoveFirst, FirstIndex;
    var rs' := AppendToAll(rs, ns, c.name);
    NotAnyLocked(rs, ns);
    RegisteredIsLast(cs, c);
    UnlockedWhereListed(cs, rs, c, ns);
    RemoveFromAllRuns(rs', c.name);
    CountsDecideNoDup(ns);
    var n :| multiset(ns)[n] > 1;
    AppendToAllLookup(rs, ns, c.name, n);
    var r := Lookup(rs', n).value;
    var k := multiset(ns)[n];
    assert multiset(seq(k, _ => c.name))[c.name] == k by { CountOfRepeats(c.name, k); }
    TwiceLeavesOne(r.subscribers, c.name);
    WithoutAllKeeps(rs', c.name, FindResource(rs', n));
    var r' := r.(subscribers := RemoveFirst(r.subscribers, c.name));
    assert r' in Without(r, c.name);
    assert r' in WithoutAll(rs', c.name);
  }

  lemma {:induction false} CountOfRepeats<T>(x: T, k: nat)
    ensures multiset(seq(k, _ => x))[x] == k
  {
    if k > 0 {
      CountOfRepeats(x, k - 1);
      assert seq(k, _ => x) == seq(k - 1, _ => x) + [x];
    }
  }

  lemma RegisteredIsLast(cs: seq<Component>, c: Component)
    requires !HasComponent(cs, c.name)
    ensures FindComponent(cs + [c], c.name) == |cs|
    ensures RemoveAt(cs + [c], |cs|) == cs
  {
  }

  /** After registering, only unlocked resources list the new component. */
  lemma UnlockedWhereListed(cs: seq<Component>, rs: seq<Resource>, c: Component, ns: seq<Name>)
    requires Identified(cs, rs) && Linked(cs, rs)
    requires Register(cs, rs, c, ns).code == CODE_OK
    ensures !AnyLockedBySubscriber(AppendToAll(rs, ns, c.name), c.name)
  {
    var rs' := AppendToAll(rs, ns, c.name);
    NotAnyLocked(rs, ns);
    AppendToAllUnique(rs, ns, c.name);
    forall i | 0 <= i < |rs'| && c.name in rs'[i].subscribers ensures !rs'[i].lock {
      var n := rs'[i].name;
      assert Lookup(rs', n) == Some(rs'[i]);
      AppendToAllLookup(rs, ns, c.name, n);
      if Lookup(rs, n).Some? { assert LinkedResource(cs, Lookup(rs, n).value); }
      assert n in ns;
    }
  }

  // ----- register, then deregister

  /**
   * From consistent indexes, registering a new component on distinct resources and deregistering it
   * restores the two lists: the same nodes in the same order, subscriber orders included.
   */
  lemma RegisterThenDeregister(cs: seq<Component>, rs: seq<Resource>, c: Component, ns: seq<Name>)
    requires Identified(cs, rs) && Linked(cs, rs) && !c.lock && NoDup(ns)
    requires Register(cs, rs, c, ns).code == CODE_OK
    ensures var o := Register(cs, rs, c, ns);
            Deregister(o.components, o.resources, c.name) == Outcome(cs, rs, CODE_OK)
  {
    RegisteredIsLast(cs, c);
    UnlockedWhereListed(cs, rs, c, ns);
    RemoveFromAllRuns(AppendToAll(rs, ns, c.name), c.name);
    NotAnyLocked(rs, ns);
    forall i | 0 <= i < |rs| ensures c.name !in rs[i].subscribers && rs[i].subscribers != [] {
      assert LinkedResource(cs, rs[i]);
    }
    AppendThenRemove(rs, ns, c.name);
  }

  lemma {:induction false} NothingToRemove(rs: seq<Resource>, c: Name)
    requires forall i :: 0 <= i < |rs| ==> c !in rs[i].subscribers
    ensures WithoutAll(rs, c) == rs
  {
    if rs != [] { NothingToRemove(rs[..|rs| - 1], c); }
  }

  lemma {:induction false} WithoutAllReplace(rs: seq<Resource>, i: nat, r: Resource, c: Name)
    requires i < |rs| && Without(rs[i], c) == Without(r, c)
    ensures WithoutAll(rs[i := r], c) == WithoutAll(rs, c)
  {
    var k := |rs| - 1;
    if i == k {
      assert rs[i := r][..k] == rs[..k];
    } else {
      assert rs[i := r][..k] == rs[..k][i := r];
      WithoutAllReplace(rs[..k], i, r, c);
    }
  }

  lemma {:induction false} AppendThenRemove(rs: seq<Resource>, ns: seq<Name>, c: Name)
    requires UniqueResources(rs) && AllUnlocked(rs, ns) && NoDup(ns)
    requires forall i :: 0 <= i < |rs| ==> c !in rs[i].subscribers && rs[i].subscribers != []
    ensures WithoutAll(AppendToAll(rs, ns, c), c) == rs
  {
    if ns == [] {
      NothingToRemove(rs, c);
    } else {
      var k := |ns| - 1;
      var n := ns[k];
      assert n in ns;
      AppendThenRemove(rs, ns[..k], c);
      var mid := AppendToAll(rs, ns[..k], c);
      assert n !in ns[..k];
      AppendToAllLookup(rs, ns[..k], c, n);
      assert !ResourceLocked(rs, n);
      var i := FindResource(mid, n);
      if i == |mid| {
        assert (mid + [Resource(n, [c], false)])[..|mid|] == mid;
        assert WithoutAll(mid, c) + [] == WithoutAll(mid, c);
      } else {
        assert Lookup(rs, n) == Some(mid[i]);
        LastIsFirst(mid[i].subscribers, c);
        WithoutAllReplace(mid, i, mid[i].(subscribers := mid[i].subscribers + [c]), c);
      }
    }
  }

  /** For one resource, by name: removing an appended subscriber restores the list, order included. */
  lemma AppendThenRemoveOne(rs: seq<Resource>, n: Name, c: Name)
    requires !ResourceLocked(rs, n)
    requires HasResource(rs, n) ==> var r := rs[FindResource(rs, n)]; r.subscribers != [] && c !in r.subscribers
    ensures RemoveSubscriber(AppendSubscriber(rs, n, c), n, c) == (rs, RC_SUCCESS)
  {
    var i, rs' := FindResource(rs, n), AppendSubscriber(rs, n, c);
    assert rs'[i].name == n && FindResource(rs', n) == i;
    if i == |rs| {
      assert RemoveAt(rs', i) == rs;
    } else {
      LastIsFirst(rs[i].subscribers, c);
      assert rs'[i := rs[i]] == rs;
    }
  }

  lemma LastIsFirst<T>(s: seq<T>, x: T)
    requires x !in s
    ensures RemoveFirst(s + [x], x) == s
  {
    FirstIndexIs(s + [x], x, |s|);
  }
}
