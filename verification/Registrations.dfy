/**
 * What registering, deregistering and connecting do to the two lists, node by node, and how they are
 * answered.
 */
module Registrations {
  import opened Lists
  import opened Entities
  import opened TopicMatch
  import opened HookWalk
  import opened Registry
  import opened Protocol
  import opened Soundness
  import opened ListOrder
  import opened Answers
  import opened Admitted

  // ----- registering

  function Repeated(c: Name, k: nat): (s: seq<Name>)
    ensures |s| == k && forall i :: 0 <= i < k ==> s[i] == c
  {
    seq(k, _ => c)
  }

  /**
   * Each resource of `rs` keeps its place and gains an entry at its end per time that `ns` names it;
   * the names that are new follow in the order in which `ns` first names them.
   */
  ghost predicate Gains(rs: seq<Resource>, rs': seq<Resource>, ns: seq<Name>, c: Name) {
    && |rs| <= |rs'|
    && (forall i :: 0 <= i < |rs| ==>
          rs'[i] == rs[i].(subscribers := rs[i].subscribers + Repeated(c, multiset(ns)[rs[i].name])))
    && (forall i :: |rs| <= i < |rs'| ==>
          && rs'[i] == Resource(rs'[i].name, Repeated(c, multiset(ns)[rs'[i].name]), false)
          && rs'[i].name in ns && forall j :: 0 <= j < |rs| ==> rs[j].name != rs'[i].name)
    && (forall i, j :: |rs| <= i < j < |rs'| ==> FirstIndex(ns, rs'[i].name) < FirstIndex(ns, rs'[j].name))
    && forall n :: n in ns ==> exists i :: 0 <= i < |rs'| && rs'[i].name == n
  }

  ghost predicate NamesLocked(rs: seq<Resource>, ns: seq<Name>) {
    exists i :: 0 <= i < |rs| && rs[i].lock && rs[i].name in ns
  }

  ghost predicate NameTaken(cs: seq<Component>, n: Name) {
    exists i :: 0 <= i < |cs| && cs[i].name == n
  }

  /** The places of names: old ones stay, new ones come in order. */
  ghost predicate Places(rs: seq<Resource>, rs': seq<Resource>, ns: seq<Name>) {
    && |rs| <= |rs'|
    && (forall i :: 0 <= i < |rs| ==> rs'[i].name == rs[i].name)
    && (forall i :: |rs| <= i < |rs'| ==> rs'[i].name in ns && !HasResource(rs, rs'[i].name))
    && (forall i, j :: |rs| <= i < j < |rs'| ==> FirstIndex(ns, rs'[i].name) < FirstIndex(ns, rs'[j].name))
    && forall n :: n in ns ==> HasResource(rs', n)
  }

  lemma FirstIndexPrefix(ns: seq<Name>, k: nat, n: Name)
    requires k <= |ns|
    ensures n in ns[..k] ==> FirstIndex(ns[..k], n) == FirstIndex(ns, n) < k
    ensures n !in ns[..k] && n in ns ==> FirstIndex(ns, n) >= k
  {
    FirstIndexFacts(ns, n);
    FirstIndexFacts(ns[..k], n);
    if n in ns[..k] {
      var i := FirstIndex(ns[..k], n);
      assert ns[i] == ns[..k][i] && forall j :: 0 <= j < i ==> ns[j] == ns[..k][j];
      FirstIndexIs(ns, n, i);
    }
  }

  lemma AppendOnePlaces(rs: seq<Resource>, mid: seq<Resource>, ns: seq<Name>, n: Name, c: Name)
    requires Places(rs, mid, ns)
    ensures Places(rs, AppendSubscriber(mid, n, c), ns + [n])
  {
    var all, rs' := ns + [n], AppendSubscriber(mid, n, c);
    assert all[..|ns|] == ns && n in all;
    forall x ensures x in ns ==> FirstIndex(all, x) == FirstIndex(ns, x) < |ns| { FirstIndexPrefix(all, |ns|, x); }
    FirstIndexPrefix(all, |ns|, n);
    assert forall i :: 0 <= i < |mid| ==> rs'[i].name == mid[i].name;
    hide FirstIndex;
    if FindResource(mid, n) == |mid| {
      assert n !in ns && rs'[|mid|].name == n;
      assert !HasResource(rs, n);
    }
    forall x | x in all ensures HasResource(rs', x) {
      if x in ns { assert rs'[FindResource(mid, x)].name == x; }
    }
  }

  lemma {:induction false} AppendAllPlaces(rs: seq<Resource>, ns: seq<Name>, c: Name)
    ensures Places(rs, AppendToAll(rs, ns, c), ns)
  {
    if ns != [] {
      var k := |ns| - 1;
      AppendAllPlaces(rs, ns[..k], c);
      AppendOnePlaces(rs, AppendToAll(rs, ns[..k], c), ns[..k], ns[k], c);
      assert ns[..k] + [ns[k]] == ns;
    }
  }

  lemma AppendAllGains(rs: seq<Resource>, ns: seq<Name>, c: Name)
    requires UniqueResources(rs) && AllUnlocked(rs, ns)
    ensures Gains(rs, AppendToAll(rs, ns, c), ns, c)
  {
    hide AppendToAll, FirstIndex;
    var rs' := AppendToAll(rs, ns, c);
    AppendAllPlaces(rs, ns, c);
    AppendToAllUnique(rs, ns, c);
    forall i | 0 <= i < |rs'|
      ensures Some(rs'[i]) == Appended(Lookup(rs, rs'[i].name), rs'[i].name, c, multiset(ns)[rs'[i].name])
    {
      AppendToAllLookup(rs, ns, c, rs'[i].name);
      assert FindResource(rs', rs'[i].name) == i;
    }
    forall i | 0 <= i < |rs|
      ensures rs'[i] == rs[i].(subscribers := rs[i].subscribers + Repeated(c, multiset(ns)[rs[i].name]))
    {
      assert FindResource(rs, rs[i].name) == i && rs'[i].name == rs[i].name;
      assert rs[i].subscribers + Repeated(c, 0) == rs[i].subscribers;
    }
    forall i | |rs| <= i < |rs'|
      ensures rs'[i] == Resource(rs'[i].name, Repeated(c, multiset(ns)[rs'[i].name]), false)
    {
      assert rs'[i].name in ns;
    }
    forall n | n in ns ensures exists i :: 0 <= i < |rs'| && rs'[i].name == n {
      assert rs'[FindResource(rs', n)].name == n;
    }
  }

  /**
   * Registering is answered 423 when a named resource is locked, else 403 when the name is taken, and
   * both leave everything as it was. Else the component is added, as it is, after the others, and the
   * resources gain it; sessions are not touched.
   */
  lemma RegisterAnswer(st: State, c: Component, ns: seq<Name>, code: int)
    requires Sound(st) && Code(st, RegisterEvent(c, ns)) == Some(code)
    ensures code == 423 <==> NamesLocked(st.resources, ns)
    ensures code == 403 <==> !NamesLocked(st.resources, ns) && NameTaken(st.components, c.name)
    ensures code == 200 <==> !NamesLocked(st.resources, ns) && !NameTaken(st.components, c.name)
    ensures code != 200 ==> Next(st, RegisterEvent(c, ns)) == st
    ensures code == 200 ==>
              var st' := Next(st, RegisterEvent(c, ns));
              && st'.components == st.components + [c] && st'.sessions == st.sessions
              && Gains(st.resources, st'.resources, ns, c.name)
  {
    var rs := st.resources;
    if i :| 0 <= i < |rs| && rs[i].lock && rs[i].name in ns {
      var k :| 0 <= k < |ns| && ns[k] == rs[i].name;
      assert FindResource(rs, ns[k]) == i;
    }
    if AnyResourceLocked(rs, ns) {
      var k :| 0 <= k < |ns| && ResourceLocked(rs, ns[k]);
      assert rs[FindResource(rs, ns[k])].name in ns;
    } else {
      NotAnyLocked(rs, ns);
      AppendAllGains(rs, ns, c.name);
    }
  }

  // ----- deregistering

  /** `r'` is `r` without the first entry of `n`. */
  ghost predicate OneLess(r: Resource, r': Resource, n: Name) {
    && r' == r.(subscribers := r'.subscribers)
    && if n !in r.subscribers then r' == r
       else exists p :: 0 <= p < |r.subscribers| && r.subscribers[p] == n && n !in r.subscribers[..p]
                        && r'.subscribers == r.subscribers[..p] + r.subscribers[p + 1..]
  }

  /** The resources that `n` alone subscribed to go; the others keep their order and lose one entry of `n`. */
  ghost predicate Loses(rs: seq<Resource>, rs': seq<Resource>, n: Name) {
    exists ks :: Increasing(ks) && KeptAt(rs, rs', n, ks)
  }

  ghost predicate KeptAt(rs: seq<Resource>, rs': seq<Resource>, n: Name, ks: seq<nat>) {
    && |ks| == |rs'|
    && (forall i {:trigger i in ks} :: i in ks <==> 0 <= i < |rs| && rs[i].subscribers != [n])
    && forall a :: 0 <= a < |ks| ==> ks[a] < |rs| && OneLess(rs[ks[a]], rs'[a], n)
  }

  lemma WithoutOne(r: Resource, n: Name)
    ensures r.subscribers == [n] ==> Without(r, n) == []
    ensures r.subscribers != [n] ==> |Without(r, n)| == 1 && OneLess(r, Without(r, n)[0], n)
  {
    FirstIndexFacts(r.subscribers, n);
    if n in r.subscribers && r.subscribers != [n] {
      var p := FirstIndex(r.subscribers, n);
      assert n !in r.subscribers[..p];
    }
  }

  /**
   * Removing a subscriber by the name of one resource: a locked one refuses; one with a single entry,
   * or none, goes whatever name is given; another loses the first entry of the name.
   */
  lemma RemoveSubscriberAnswer(rs: seq<Resource>, n: Name, c: Name)
    requires UniqueResources(rs)
    ensures var (rs', rc) := RemoveSubscriber(rs, n, c);
            && (rc == RC_LOCKED <==> exists i :: 0 <= i < |rs| && rs[i].name == n && rs[i].lock)
            && (rc == RC_SUCCESS <==> forall i :: 0 <= i < |rs| && rs[i].name == n ==> !rs[i].lock)
            && (rc == RC_LOCKED || (forall i :: 0 <= i < |rs| ==> rs[i].name != n) ==> rs' == rs)
            && forall i :: (0 <= i < |rs| && rs[i].name == n && !rs[i].lock ==>
                 if |rs[i].subscribers| <= 1 then rs' == rs[..i] + rs[i + 1..]
                 else |rs'| == |rs| && OneLess(rs[i], rs'[i], c)
                      && forall j :: 0 <= j < |rs| && j != i ==> rs'[j] == rs[j])
  {
    var k := FindResource(rs, n);
    forall i | 0 <= i < |rs| && rs[i].name == n ensures i == k {}
    if k < |rs| { FirstIndexFacts(rs[k].subscribers, c); }
  }

  lemma KeptNext(rs: seq<Resource>, rs': seq<Resource>, r: Resource, n: Name, ks: seq<nat>)
    requires Increasing(ks) && KeptAt(rs, rs', n, ks)
    ensures var next := if r.subscribers != [n] then ks + [|rs|] else ks;
            Increasing(next) && KeptAt(rs + [r], rs' + Without(r, n), n, next)
  {
    hide Without, OneLess;
    WithoutOne(r, n);
    var all, all' := rs + [r], rs' + Without(r, n);
    if r.subscribers == [n] {
      assert all' == rs';
      KeptPrefix(rs, rs', r, n, ks);
    } else {
      var next := ks + [|rs|];
      forall a | 0 <= a < |next| ensures next[a] < |all| && OneLess(all[next[a]], all'[a], n) {
        if a < |ks| { assert ks[a] < |rs| && all[ks[a]] == rs[ks[a]]; }
      }
      forall i ensures i in next <==> 0 <= i < |all| && all[i].subscribers != [n] {
        assert i in next <==> i in ks || i == |rs|;
      }
    }
  }

  lemma KeptPrefix(rs: seq<Resource>, rs': seq<Resource>, r: Resource, n: Name, ks: seq<nat>)
    requires KeptAt(rs, rs', n, ks) && r.subscribers == [n]
    ensures KeptAt(rs + [r], rs', n, ks)
  {
    hide OneLess;
    forall a | 0 <= a < |ks| ensures (rs + [r])[ks[a]] == rs[ks[a]] {}
  }

  lemma NoneKept(n: Name)
    ensures Increasing([]) && KeptAt([], [], n, [])
  {
  }

  lemma WithoutAllLoses(rs: seq<Resource>, n: Name)
    ensures Loses(rs, WithoutAll(rs, n), n)
  {
    hide Without, KeptAt, Increasing, OneLess;
    var ks: seq<nat> := [];
    NoneKept(n);
    assert rs[..0] == [];
    var k := 0;
    while k < |rs|
      invariant k <= |rs| && Increasing(ks) && KeptAt(rs[..k], WithoutAll(rs[..k], n), n, ks)
    {
      assert rs[..k + 1][..k] == rs[..k];
      assert rs[..k + 1] == rs[..k] + [rs[k]];
      KeptNext(rs[..k], WithoutAll(rs[..k], n), rs[k], n, ks);
      if rs[k].subscribers != [n] { ks := ks + [k]; }
      k := k + 1;
    }
    assert rs[..k] == rs;
  }

  /**
   * The removal from all resources stops at the first locked resource that lists the name: those
   * before it have lost the name, it has lost its last entry instead, and the rest are as they were.
   */
  lemma RemovalStopsAtLock(rs: seq<Resource>, n: Name, k: nat)
    requires k < |rs| && rs[k].lock && n in rs[k].subscribers
    requires forall i :: 0 <= i < k && rs[i].lock ==> n !in rs[i].subscribers
    ensures var (rs', rc) := RemoveFromAll(rs, n);
            && rc == RC_LOCKED
            && exists front ::
                 && Loses(rs[..k], front, n)
                 && rs' == front + [rs[k].(subscribers := rs[k].subscribers[..|rs[k].subscribers| - 1])] + rs[k + 1..]
  {
    assert FirstBlocked(rs, n) == k;
    WithoutAllLoses(rs[..k], n);
  }

  ghost predicate HeldFast(st: State, n: Name) {
    || (exists i :: 0 <= i < |st.components| && st.components[i].name == n && st.components[i].lock)
    || exists i :: 0 <= i < |st.resources| && st.resources[i].lock && n in st.resources[i].subscribers
  }

  /**
   * Deregistering is answered 423 when the component is registered and locked, or a locked resource
   * lists it; else 200. Only in the second case, and only when it is registered, does anything change:
   * the component goes, and the resources lose it.
   */
  lemma DeregisterAnswer(st: State, n: Name, code: int)
    requires Sound(st) && Code(st, DeregisterEvent(n)) == Some(code)
    ensures code == 423 <==> NameTaken(st.components, n) && HeldFast(st, n)
    ensures code == 200 <==> !(NameTaken(st.components, n) && HeldFast(st, n))
    ensures code == 423 || !NameTaken(st.components, n) ==> Next(st, DeregisterEvent(n)) == st
    ensures code == 200 && NameTaken(st.components, n) ==>
              var st' := Next(st, DeregisterEvent(n));
              && (exists k :: 0 <= k < |st.components| && st.components[k].name == n
                              && st'.components == st.components[..k] + st.components[k + 1..])
              && Loses(st.resources, st'.resources, n) && st'.sessions == st.sessions
  {
    hide WithoutAll, Loses;
    var cs, rs := st.components, st.resources;
    if i :| 0 <= i < |cs| && cs[i].name == n { assert FindComponent(cs, n) == i; }
    if HasComponent(cs, n) { assert cs[FindComponent(cs, n)].name == n; }
    if HasComponent(cs, n) && !AnyLockedBySubscriber(rs, n) {
      RemoveFromAllRuns(rs, n);
      WithoutAllLoses(rs, n);
    }
  }

  // ----- connecting

  lemma BuiltinNamesDiffer()
    ensures REGISTER_NAME != DEPENDENCY_NAME
    ensures NoDup([REGISTER_TOPIC, REGISTER_WILDCARD, DEPENDENCY_TOPIC, DEPENDENCY_WILDCARD])
  {
    assert |REGISTER_NAME| == 12 && |DEPENDENCY_NAME| == 10;
    assert |REGISTER_TOPIC| == 24 && |REGISTER_WILDCARD| == 26;
    assert |DEPENDENCY_TOPIC| == 31 && |DEPENDENCY_WILDCARD| == 33;
  }

  /** The first connect, from nothing, registers two models, each on its topic and one level below it. */
  lemma ConnectFromEmpty()
    ensures Next(Empty, Connect) ==
            State([Component("registration", "/controller/registration", "model", [], 10, false),
                   Component("dependency", "/controller/resource/dependency", "model", [], 10, false)],
                  [Resource("/controller/registration", ["registration"], false),
                   Resource("/controller/registration/+", ["registration"], false),
                   Resource("/controller/resource/dependency", ["dependency"], false),
                   Resource("/controller/resource/dependency/+", ["dependency"], false)], [])
  {
    BuiltinNamesDiffer();
    var r1 := Resource(REGISTER_TOPIC, [REGISTER_NAME], false);
    var r2 := Resource(REGISTER_WILDCARD, [REGISTER_NAME], false);
    var r3 := Resource(DEPENDENCY_TOPIC, [DEPENDENCY_NAME], false);
    NewResource([], REGISTER_TOPIC, REGISTER_NAME);
    NewResource([r1], REGISTER_WILDCARD, REGISTER_NAME);
    NewResource([r1, r2], DEPENDENCY_TOPIC, DEPENDENCY_NAME);
    NewResource([r1, r2, r3], DEPENDENCY_WILDCARD, DEPENDENCY_NAME);
    hide AppendSubscriber;
    assert [] + [r1] == [r1] && [r1] + [r2] == [r1, r2] && [r1, r2] + [r3] == [r1, r2, r3];
  }

  lemma NewResource(rs: seq<Resource>, n: Name, c: Name)
    requires forall i :: 0 <= i < |rs| ==> rs[i].name != n
    ensures AppendSubscriber(rs, n, c) == rs + [Resource(n, [c], false)]
  {
  }

  /** The resource that carries a name, before and after `c` subscribes to it. */
  ghost predicate Subscribed(rs: seq<Resource>, rs': seq<Resource>, n: Name, c: Name) {
    exists i :: 0 <= i < |rs'| && rs'[i].name == n && !rs'[i].lock &&
      if i < |rs| then rs'[i] == rs[i].(subscribers := rs[i].subscribers + [c])
      else rs'[i] == Resource(n, [c], false)
  }

  /** Resources with other names than `ns` keep their place and everything else. */
  ghost predicate OthersKept(rs: seq<Resource>, rs': seq<Resource>, ns: seq<Name>) {
    && |rs| <= |rs'|
    && (forall i :: 0 <= i < |rs| ==> rs'[i].name == rs[i].name && (rs[i].name !in ns ==> rs'[i] == rs[i]))
    && forall i :: |rs| <= i < |rs'| ==> rs'[i].name in ns
  }

  lemma OneSubscribes(rs: seq<Resource>, n: Name, c: Name)
    requires UniqueResources(rs)
    ensures var rs' := AppendSubscriber(rs, n, c);
            && UniqueResources(rs') && OthersKept(rs, rs', [n])
            && (!NamesLocked(rs, [n]) ==> Subscribed(rs, rs', n, c))
  {
    AppendSubscriberUnique(rs, n, c);
    var i := FindResource(rs, n);
    assert AppendSubscriber(rs, n, c)[i].name == n;
    assert n in [n];
  }

  /** Two steps in a row, the first of which concerns the names `ns` and the second `ms`. */
  lemma KeptThrough(a: seq<Resource>, b: seq<Resource>, c: seq<Resource>, ns: seq<Name>, ms: seq<Name>, n: Name,
      who: Name)
    requires OthersKept(a, b, ns) && OthersKept(b, c, ms)
    ensures OthersKept(a, c, ns + ms)
    ensures n !in ms && Subscribed(a, b, n, who) ==> Subscribed(a, c, n, who)
    ensures n !in ns && Subscribed(b, c, n, who) ==> Subscribed(a, c, n, who)
    ensures n !in ns && NamesLocked(b, [n]) ==> NamesLocked(a, [n])
  {
    if n !in ms && Subscribed(a, b, n, who) {
      var i :| 0 <= i < |b| && b[i].name == n && !b[i].lock &&
        if i < |a| then b[i] == a[i].(subscribers := a[i].subscribers + [who]) else b[i] == Resource(n, [who], false);
      assert c[i] == b[i];
    }
    if n !in ns && Subscribed(b, c, n, who) {
      var i :| 0 <= i < |c| && c[i].name == n && !c[i].lock &&
        if i < |b| then c[i] == b[i].(subscribers := b[i].subscribers + [who]) else c[i] == Resource(n, [who], false);
      assert i < |b| ==> i < |a|;
    }
    if n !in ns && NamesLocked(b, [n]) {
      var i :| 0 <= i < |b| && b[i].lock && b[i].name in [n];
      assert i < |a| && a[i] == b[i];
    }
  }

  lemma BuiltinAdds(st: State, name: Name, topic: Name, wildcard: Name)
    requires UniqueResources(st.resources) && topic != wildcard && !NameTaken(st.components, name)
    ensures var st' := WithBuiltin(st, name, topic, wildcard);
            && st'.components == st.components + [Component(name, topic, "model", [], 10, false)]
            && st'.sessions == st.sessions && UniqueResources(st'.resources)
            && OthersKept(st.resources, st'.resources, [topic, wildcard])
            && (!NamesLocked(st.resources, [topic]) ==> Subscribed(st.resources, st'.resources, topic, name))
            && (!NamesLocked(st.resources, [wildcard]) ==> Subscribed(st.resources, st'.resources, wildcard, name))
  {
    var rs := st.resources;
    var mid := AppendSubscriber(rs, topic, name);
    OneSubscribes(rs, topic, name);
    OneSubscribes(mid, wildcard, name);
    hide AppendSubscriber, OthersKept, Subscribed, NamesLocked;
    KeptThrough(rs, mid, AppendSubscriber(mid, wildcard, name), [topic], [wildcard], topic, name);
    KeptThrough(rs, mid, AppendSubscriber(mid, wildcard, name), [topic], [wildcard], wildcard, name);
    assert [topic] + [wildcard] == [topic, wildcard];
  }

  /** What connecting does for one built-in model that is not registered. */
  ghost predicate BuiltinAdded(st: State, st': State, name: Name, topic: Name, wildcard: Name) {
    && Component(name, topic, "model", [], 10, false) in st'.components
    && (!NamesLocked(st.resources, [topic]) ==> Subscribed(st.resources, st'.resources, topic, name))
    && (!NamesLocked(st.resources, [wildcard]) ==> Subscribed(st.resources, st'.resources, wildcard, name))
  }

  ghost function Builtin(cs: seq<Component>, name: Name, topic: Name): seq<Component> {
    if NameTaken(cs, name) then [] else [Component(name, topic, "model", [], 10, false)]
  }

  lemma BuiltinOrNot(st: State, name: Name, topic: Name, wildcard: Name)
    requires UniqueResources(st.resources) && topic != wildcard
    ensures var st' := WithBuiltin(st, name, topic, wildcard);
            && st'.components == st.components + Builtin(st.components, name, topic)
            && st'.sessions == st.sessions && UniqueResources(st'.resources)
            && OthersKept(st.resources, st'.resources, [topic, wildcard])
            && (!NameTaken(st.components, name) ==> BuiltinAdded(st, st', name, topic, wildcard))
  {
    hide OthersKept, Subscribed, NamesLocked;
    if NameTaken(st.components, name) {
      NothingGained(st.resources, [topic, wildcard]);
    } else {
      BuiltinAdds(st, name, topic, wildcard);
    }
  }

  lemma NothingGained(rs: seq<Resource>, ns: seq<Name>)
    ensures OthersKept(rs, rs, ns)
  {
  }

  /**
   * Connecting adds each built-in model that is not registered, after the other components, and
   * subscribes it last to its topic and to its wildcard unless they are locked. It does nothing else.
   */
  lemma ConnectAdds(st: State)
    requires Sound(st)
    ensures var st' := Next(st, Connect);
            && st'.components == st.components
                + Builtin(st.components, "registration", "/controller/registration")
                + Builtin(st.components, "dependency", "/controller/resource/dependency")
            && st'.sessions == st.sessions
            && OthersKept(st.resources, st'.resources,
                 ["/controller/registration", "/controller/registration/+",
                  "/controller/resource/dependency", "/controller/resource/dependency/+"])
            && (!NameTaken(st.components, "registration") ==>
                  BuiltinAdded(st, st', "registration", "/controller/registration", "/controller/registration/+"))
            && (!NameTaken(st.components, "dependency") ==>
                  BuiltinAdded(st, st', "dependency", "/controller/resource/dependency",
                               "/controller/resource/dependency/+"))
  {
    BuiltinNamesDiffer();
    TopicsApart();
    hide WithBuiltin, NamesLocked, Subscribed, OthersKept, Identified, BuiltinAdded;
    var one := WithBuiltin(st, REGISTER_NAME, REGISTER_TOPIC, REGISTER_WILDCARD);
    var two := WithBuiltin(one, DEPENDENCY_NAME, DEPENDENCY_TOPIC, DEPENDENCY_WILDCARD);
    var ns, ms := [REGISTER_TOPIC, REGISTER_WILDCARD], [DEPENDENCY_TOPIC, DEPENDENCY_WILDCARD];
    SoundNames(st);
    BuiltinOrNot(st, REGISTER_NAME, REGISTER_TOPIC, REGISTER_WILDCARD);
    BuiltinOrNot(one, DEPENDENCY_NAME, DEPENDENCY_TOPIC, DEPENDENCY_WILDCARD);
    StillTaken(st.components, REGISTER_NAME, REGISTER_TOPIC, DEPENDENCY_NAME);
    KeptThrough(st.resources, one.resources, two.resources, ns, ms, REGISTER_TOPIC, REGISTER_NAME);
    assert ns + ms == [REGISTER_TOPIC, REGISTER_WILDCARD, DEPENDENCY_TOPIC, DEPENDENCY_WILDCARD];
    if !NameTaken(st.components, REGISTER_NAME) {
      FirstAdded(st, one, two, ms, REGISTER_NAME, REGISTER_TOPIC, REGISTER_WILDCARD);
    }
    if !NameTaken(st.components, DEPENDENCY_NAME) {
      SecondAdded(st, one, two, ns, DEPENDENCY_NAME, DEPENDENCY_TOPIC, DEPENDENCY_WILDCARD);
    }
  }

  lemma TopicsApart()
    ensures REGISTER_TOPIC !in [DEPENDENCY_TOPIC, DEPENDENCY_WILDCARD]
    ensures REGISTER_WILDCARD !in [DEPENDENCY_TOPIC, DEPENDENCY_WILDCARD]
    ensures DEPENDENCY_TOPIC !in [REGISTER_TOPIC, REGISTER_WILDCARD]
    ensures DEPENDENCY_WILDCARD !in [REGISTER_TOPIC, REGISTER_WILDCARD]
    ensures REGISTER_TOPIC != REGISTER_WILDCARD && DEPENDENCY_TOPIC != DEPENDENCY_WILDCARD
  {
    assert |REGISTER_TOPIC| == 24 && |REGISTER_WILDCARD| == 26;
    assert |DEPENDENCY_TOPIC| == 31 && |DEPENDENCY_WILDCARD| == 33;
  }

  lemma SoundNames(st: State)
    requires Sound(st)
    ensures UniqueResources(st.resources) && UniqueComponents(st.components)
  {
  }

  lemma StillTaken(cs: seq<Component>, name: Name, topic: Name, n: Name)
    requires n != name
    ensures NameTaken(cs + Builtin(cs, name, topic), n) <==> NameTaken(cs, n)
  {
    var cs' := cs + Builtin(cs, name, topic);
    if i :| 0 <= i < |cs| && cs[i].name == n { assert cs'[i].name == n; }
    if i :| 0 <= i < |cs'| && cs'[i].name == n { assert i < |cs| && cs[i].name == n; }
  }

  lemma FirstAdded(st: State, one: State, two: State, ms: seq<Name>, name: Name, topic: Name, wildcard: Name)
    requires BuiltinAdded(st, one, name, topic, wildcard) && topic !in ms && wildcard !in ms
    requires OthersKept(st.resources, one.resources, [topic, wildcard])
    requires OthersKept(one.resources, two.resources, ms)
    requires forall c :: c in one.components ==> c in two.components
    ensures BuiltinAdded(st, two, name, topic, wildcard)
  {
    hide OthersKept, Subscribed, NamesLocked;
    KeptThrough(st.resources, one.resources, two.resources, [topic, wildcard], ms, topic, name);
    KeptThrough(st.resources, one.resources, two.resources, [topic, wildcard], ms, wildcard, name);
  }

  lemma SecondAdded(st: State, one: State, two: State, ns: seq<Name>, name: Name, topic: Name, wildcard: Name)
    requires BuiltinAdded(one, two, name, topic, wildcard) && topic !in ns && wildcard !in ns
    requires OthersKept(st.resources, one.resources, ns)
    requires OthersKept(one.resources, two.resources, [topic, wildcard])
    ensures BuiltinAdded(st, two, name, topic, wildcard)
  {
    hide OthersKept, Subscribed, NamesLocked;
    KeptThrough(st.resources, one.resources, two.resources, ns, [topic, wildcard], topic, name);
    KeptThrough(st.resources, one.resources, two.resources, ns, [topic, wildcard], wildcard, name);
  }

  // ----- requests to the built-in models

  /** The topic of a request is one level below `base`. */
  ghost predicate OneBelow(topic: Name, base: Name, x: Name) {
    CutQuery(topic) == base + "/" + x && x != "" && '/' !in x
  }

  lemma WildcardAccepts(topic: Name, base: Name, x: Name)
    requires '+' !in base && '#' !in base
    ensures CutQuery(topic) == base + "/" + x ==>
              (Accepts(base + "/+", CutQuery(topic)) <==> OneBelow(topic, base, x))
  {
    if CutQuery(topic) == base + "/" + x {
      assert base + "/+" == (base + "/") + "+";
      PlainPrefix(base + "/", "+", x);
      PlusAcceptsLevel(x);
    }
  }

  /** A component that a wildcard resource lists is one that a topic below it leads to. */
  lemma BelowLeads(st: State, rs: seq<Resource>, topic: Name, base: Name, x: Name, c: Name) returns (p: (nat, nat))
    requires OneBelow(topic, base, x) && '+' !in base && '#' !in base
    requires Subscribed(rs, st.resources, base + "/+", c)
    ensures IsStart(st, topic, p) && st.resources[p.0].subscribers[p.1] == c
  {
    WildcardAccepts(topic, base, x);
    var i :| 0 <= i < |st.resources| && st.resources[i].name == base + "/+" && !st.resources[i].lock &&
      if i < |rs| then st.resources[i] == rs[i].(subscribers := rs[i].subscribers + [c])
      else st.resources[i] == Resource(base + "/+", [c], false);
    p := (i, |st.resources[i].subscribers| - 1);
  }

  /**
   * After a connect that registered a built-in model, every topic one level below the model's own
   * leads to it, whatever else is registered, unless the wildcard resource was locked.
   */
  lemma ConnectLeads(st: State, topic: Name, base: Name, x: Name, name: Name) returns (p: (nat, nat))
    requires Sound(st) && OneBelow(topic, base, x) && !NameTaken(st.components, name)
    requires (name, base) == ("registration", "/controller/registration")
             || (name, base) == ("dependency", "/controller/resource/dependency")
    requires !NamesLocked(st.resources, [base + "/+"])
    ensures var st' := Next(st, Connect);
            && IsStart(st', topic, p) && st'.resources[p.0].subscribers[p.1] == name
            && IsModel(st'.components, name)
  {
    hide Next, OneBelow, NamesLocked, Subscribed, OthersKept, Sound;
    ConnectAdds(st);
    assert REGISTER_TOPIC + "/+" == REGISTER_WILDCARD && DEPENDENCY_TOPIC + "/+" == DEPENDENCY_WILDCARD;
    var st' := Next(st, Connect);
    BasesPlain();
    p := BelowLeads(st', st.resources, topic, base, x, name);
    ConnectSound(st);
    SoundNames(st');
    var c := Component(name, base, "model", [], 10, false);
    var i :| 0 <= i < |st'.components| && st'.components[i] == c;
    assert FindComponent(st'.components, name) == i;
  }

  lemma BasesPlain()
    ensures '+' !in REGISTER_TOPIC && '#' !in REGISTER_TOPIC
    ensures '+' !in DEPENDENCY_TOPIC && '#' !in DEPENDENCY_TOPIC
  {
  }

  lemma ConnectSound(st: State)
    requires Sound(st)
    ensures Sound(Next(st, Connect))
  {
    NextSound(st, Connect);
  }

  lemma OtherNamesReject(q: Name, x: Name)
    requires q == REGISTER_TOPIC + "/" + x
    ensures forall n :: n in [REGISTER_TOPIC, DEPENDENCY_TOPIC, DEPENDENCY_WILDCARD] ==> n != q && !Accepts(n, q)
  {
    hide Accepts;
    var front, rest := REGISTER_TOPIC[..14], REGISTER_TOPIC[14..] + "/" + x;
    assert q == front + rest;
    BasesPlain();
    assert DEPENDENCY_TOPIC[..14] == front && DEPENDENCY_WILDCARD[..14] == front;
    DifferentNext(front, DEPENDENCY_TOPIC, q);
    DifferentNext(front, DEPENDENCY_WILDCARD, q);
    PlainNameMatchesItself(REGISTER_TOPIC, q);
  }

  lemma DifferentNext(front: Name, n: Name, q: Name)
    requires '+' !in front && '#' !in front && |front| < |n| && |front| < |q|
    requires n[..|front|] == front == q[..|front|]
    requires n[|front|] != q[|front|] && n[|front|] != '+' && n[|front|] != '#'
    ensures n != q && !Accepts(n, q)
  {
    PlainPrefix(front, n[|front|..], q[|front|..]);
    assert n == front + n[|front|..] && q == front + q[|front|..];
  }

  lemma ConnectedNames(i: nat)
    requires i < 4
    ensures var rs := Next(Empty, Connect).resources;
            && |rs| == 4
            && (i == 1 ==> rs[i].name == REGISTER_TOPIC + "/+")
            && (i != 1 ==> rs[i].name in [REGISTER_TOPIC, DEPENDENCY_TOPIC, DEPENDENCY_WILDCARD])
  {
    ConnectFromEmpty();
    hide Next;
    var names := [REGISTER_TOPIC, DEPENDENCY_TOPIC, DEPENDENCY_WILDCARD];
    assert names[0] in names && names[1] in names && names[2] in names;
    assert REGISTER_WILDCARD == REGISTER_TOPIC + "/+";
  }

  /** Only its own wildcard resource is concerned by a topic below the registration model's. */
  lemma OnlyWildcardConcerned(topic: Name, x: Name, i: nat)
    requires OneBelow(topic, REGISTER_TOPIC, x) && i < 4
    ensures |Next(Empty, Connect).resources| == 4
    ensures Concerned(Next(Empty, Connect).resources[i], topic) <==> i == 1
  {
    hide Accepts, Next;
    ConnectedNames(i);
    BasesPlain();
    OtherNamesReject(CutQuery(topic), x);
    WildcardAccepts(topic, REGISTER_TOPIC, x);
  }

  lemma {:induction false} OnlyRoute(topic: Name, x: Name, r: Route)
    requires OneBelow(topic, REGISTER_TOPIC, x)
    ensures var st := Next(Empty, Connect);
            && (IsRoute(st, topic, r) <==> r == Route(1, 0, []))
            && (IsRoute(st, topic, r) ==> Destination(st, topic, r) == "registration")
    decreases |r.hops|
  {
    ConnectFromEmpty();
    hide Next, OneBelow, Concerned;
    if r.hops == [] {
      if r.resource < 4 { OnlyWildcardConcerned(topic, x, r.resource); }
    } else {
      OnlyRoute(topic, x, r.(hops := r.hops[..|r.hops| - 1]));
    }
  }

  lemma EmptySound()
    ensures Sound(Empty)
  {
  }

  /** Right after the first connect, with one route for the topic. */
  ghost predicate OneRoute(st: State, topic: Name) {
    && st == Next(Empty, Connect) && Sound(st)
    && (forall r :: IsRoute(st, topic, r) <==> r == Route(1, 0, []))
    && Destination(st, topic, Route(1, 0, [])) == "registration"
  }

  lemma OneRouteBelow(topic: Name, x: Name)
    requires OneBelow(topic, REGISTER_TOPIC, x)
    ensures OneRoute(Next(Empty, Connect), topic)
  {
    EmptySound();
    ConnectSound(Empty);
    hide Next, OneBelow, Sound, IsRoute;
    var st := Next(Empty, Connect);
    forall r ensures IsRoute(st, topic, r) <==> r == Route(1, 0, []) { OnlyRoute(topic, x, r); }
    OnlyRoute(topic, x, Route(1, 0, []));
  }

  lemma FirstAnswered(st: State, id: nat, verb: int, topic: Name)
    requires OneRoute(st, topic)
    ensures Answered(st, id, verb, topic)
  {
    hide Next, IsRoute, StartsAre, Front, ReachesWalk, RequestSubscribers;
    SoundNames(st);
    var ps := Starts(st, topic);
    ArrivesIff(st, topic, ps, 1);
    assert Front(st.components, RequestSubscribers(st, topic), 1) == [];
  }

  lemma FirstClear(st: State, id: nat, verb: int, topic: Name)
    requires OneRoute(st, topic)
    ensures Clear(st, id, verb, topic)
  {
    ConnectFromEmpty();
    hide Next, Sound, Concerned;
    var r := Route(1, 0, []);
    assert IsRoute(st, topic, r) && Concerned(st.resources[1], topic);
    assert st.components[0].name == "registration" && FindComponent(st.components, "registration") == 0;
    hide IsRoute, Destination, FindComponent;
    assert !Unknown(st, topic) && !NobodyListed(st, topic);
    assert !IdInFlight(st, id) && !ResourceBusy(st, topic);
    assert ModelRoute(st, topic, METHOD_READ, r);
    assert !ModelBusy(st, topic, verb);
  }

  lemma FirstCode(st: State, id: nat, verb: int, topic: Name, tunnel: Name)
    requires OneRoute(st, topic) && Answered(st, id, verb, topic)
    ensures Code(st, Request(id, verb, topic, tunnel)) == Some(200)
  {
    hide Next, Answered, Sound, Clear, NeedsLocked;
    FirstClear(st, id, verb, topic);
    NothingLocked(topic, verb);
    RequestCode(st, id, verb, topic, tunnel, Code(st, Request(id, verb, topic, tunnel)).value);
    hide IsRoute, Destination;
    assert OneRouteEach(st, topic, verb);
  }

  lemma NothingLocked(topic: Name, verb: int)
    ensures !NeedsLocked(Next(Empty, Connect), topic, verb)
  {
    ConnectFromEmpty();
    hide Next;
  }

  lemma FirstChain(st: State, id: nat, verb: int, topic: Name, tunnel: Name, s: Session)
    requires OneRoute(st, topic) && SessionFits(st, id, verb, topic, tunnel, s)
    ensures s.chain == [Level(["registration"], [10])] && s.wait == 1 && s.tunnel == tunnel
  {
    ConnectFromEmpty();
    hide Next, Sound, IsRoute, Destination, IsStart, RouteBefore, FindComponent;
    var r := Route(1, 0, []);
    assert !Arrives(st, topic, 1);
    assert LevelFits(st, topic, verb, 0, s.chain[0]);
    var rs :| RoutesAre(st, topic, verb, 0, rs) && Awaits(st, topic, s.chain[0], rs);
    assert st.components[0].name == "registration" && FindComponent(st.components, "registration") == 0;
    assert r in rs;
    forall a | 0 <= a < |rs| ensures rs[a] == r { assert rs[a] in rs; }
    if |rs| > 1 {
      assert RouteBefore(st, topic, rs[0], rs[1]);
      NotBeforeItself(st, topic, r);
      assert false;
    }
    assert |rs| == 1 && rs[0] == r;
    assert s.chain[0].models == ["registration"] && s.chain[0].ttls == [10];
    assert |s.chain| == 1 && s.chain == [s.chain[0]];
  }

  lemma NotBeforeItself(st: State, topic: Name, r: Route)
    requires IsStart(st, topic, (r.resource, r.position))
    ensures !RouteBefore(st, topic, r, r)
  {
    LexIrreflexive(r.hops);
  }

  /**
   * The first request below the registration model's topic, of whatever kind, is admitted, and its
   * session waits for that model alone.
   */
  lemma FirstRequest(id: nat, verb: int, topic: Name, tunnel: Name, x: Name)
    requires OneBelow(topic, REGISTER_TOPIC, x)
    ensures var st := Next(Empty, Connect);
            var st' := Next(st, Request(id, verb, topic, tunnel));
            && Answered(st, id, verb, topic)
            && Code(st, Request(id, verb, topic, tunnel)) == Some(200)
            && |st'.sessions| == 1 && st'.sessions[0].chain == [Level(["registration"], [10])]
            && st'.sessions[0].wait == 1 && st'.sessions[0].tunnel == tunnel
  {
    var st := Next(Empty, Connect);
    var st' := Next(st, Request(id, verb, topic, tunnel));
    ConnectFromEmpty();
    OneRouteBelow(topic, x);
    hide Next, OneBelow, Answered, Code, IsRoute, SessionFits, Sound, Destination;
    FirstAnswered(st, id, verb, topic);
    FirstCode(st, id, verb, topic, tunnel);
    RequestState(st, id, verb, topic, tunnel, 200);
    assert st'.sessions[0] == st'.sessions[|st.sessions|];
    FirstChain(st, id, verb, topic, tunnel, st'.sessions[0]);
  }
}
