/**
 * Lock ownership over whole runs: every lock bit that is set belongs to exactly one write session
 * in flight, and such a session has all its names locked. One event breaks this, and the lemmas
 * say exactly when: a write request whose chain needs a resource that another session holds.
 */
module Ownership {
  import opened Lists
  import opened Entities
  import opened TopicLookup
  import opened HookWalk
  import opened Locking
  import opened Registry
  import opened Protocol
  import opened Soundness

  ghost predicate HoldsResource(s: Session, n: Name) { WriteLike(s.verb) && n in s.dependency }

  ghost predicate HoldsModel(s: Session, n: Name) { WriteLike(s.verb) && n in ChainModels(s.chain) }

  /** Some session of `ss` holds the resource `n`. */
  ghost predicate HeldResource(ss: seq<Session>, n: Name) {
    exists i :: 0 <= i < |ss| && HoldsResource(ss[i], n)
  }

  ghost predicate HeldModel(ss: seq<Session>, n: Name) {
    exists i :: 0 <= i < |ss| && HoldsModel(ss[i], n)
  }

  /** What is locked is what the sessions in flight hold, each name held by one of them. */
  ghost predicate Owned(st: State) {
    && ResourcesOwned(st.resources, st.sessions)
    && ModelsOwned(st.components, st.sessions)
    && Apart(st.sessions)
  }

  ghost predicate ResourcesOwned(rs: seq<Resource>, ss: seq<Session>) {
    forall n :: ResourceLocked(rs, n) <==> HeldResource(ss, n)
  }

  ghost predicate ModelsOwned(cs: seq<Component>, ss: seq<Session>) {
    forall n :: ComponentLocked(cs, n) <==> HeldModel(ss, n)
  }

  /** No two sessions hold the same name, and none waits for a model twice. */
  ghost predicate Apart(ss: seq<Session>) {
    && (forall i, j, n :: 0 <= i < j < |ss| && HoldsResource(ss[i], n) ==> !HoldsResource(ss[j], n))
    && ModelsApart(ss)
  }

  ghost predicate ModelsApart(ss: seq<Session>) {
    && (forall i, j, n :: 0 <= i < j < |ss| && HoldsModel(ss[i], n) ==> !HoldsModel(ss[j], n))
    && (forall i :: 0 <= i < |ss| && WriteLike(ss[i].verb) ==> NoDup(ChainModels(ss[i].chain)))
  }

  // ----- the lock bit of a name in unique lists

  lemma ResourceLockedIff(rs: seq<Resource>, n: Name)
    requires UniqueResources(rs)
    ensures ResourceLocked(rs, n) <==> exists i :: 0 <= i < |rs| && rs[i].name == n && rs[i].lock
  {
    if i :| 0 <= i < |rs| && rs[i].name == n && rs[i].lock { assert FindResource(rs, n) == i; }
  }

  lemma ComponentLockedIff(cs: seq<Component>, n: Name)
    requires UniqueComponents(cs)
    ensures ComponentLocked(cs, n) <==> exists i :: 0 <= i < |cs| && cs[i].name == n && cs[i].lock
  {
    if i :| 0 <= i < |cs| && cs[i].name == n && cs[i].lock { assert FindComponent(cs, n) == i; }
  }

  lemma MarkedResourceLocked(rs: seq<Resource>, ns: seq<Name>, b: bool, n: Name)
    requires UniqueResources(rs)
    ensures ResourceLocked(MarkResources(rs, ns, b), n) <==>
              if HasResource(rs, n) && n in ns then b else ResourceLocked(rs, n)
  {
    var rs' := MarkResources(rs, ns, b);
    assert forall i :: 0 <= i < |rs| ==> rs'[i].name == rs[i].name;
    assert FindResource(rs', n) == FindResource(rs, n);
  }

  lemma MarkedComponentLocked(cs: seq<Component>, ns: seq<Name>, b: bool, n: Name)
    requires UniqueComponents(cs)
    ensures ComponentLocked(MarkComponents(cs, ns, b), n) <==>
              if HasComponent(cs, n) && n in ns then b else ComponentLocked(cs, n)
  {
    var cs' := MarkComponents(cs, ns, b);
    assert forall i :: 0 <= i < |cs| ==> cs'[i].name == cs[i].name;
    assert FindComponent(cs', n) == FindComponent(cs, n);
  }

  // ----- sessions that hold the same names

  ghost predicate SameHolds(s: Session, t: Session) {
    s.verb == t.verb && s.dependency == t.dependency && ChainModels(s.chain) == ChainModels(t.chain)
  }

  lemma SameHoldsHeld(ss0: seq<Session>, ss: seq<Session>)
    requires |ss| == |ss0| && forall i :: 0 <= i < |ss| ==> SameHolds(ss0[i], ss[i])
    ensures forall i, n :: 0 <= i < |ss| ==> HoldsResource(ss[i], n) == HoldsResource(ss0[i], n)
    ensures forall i, n :: 0 <= i < |ss| ==> HoldsModel(ss[i], n) == HoldsModel(ss0[i], n)
    ensures forall n :: HeldResource(ss, n) == HeldResource(ss0, n) && HeldModel(ss, n) == HeldModel(ss0, n)
    ensures ModelsApart(ss0) ==> ModelsApart(ss)
  {
    hide ChainModels;
    forall i, n | 0 <= i < |ss|
      ensures HoldsResource(ss[i], n) == HoldsResource(ss0[i], n) && HoldsModel(ss[i], n) == HoldsModel(ss0[i], n)
    {
      assert SameHolds(ss0[i], ss[i]);
    }
    forall n ensures HeldResource(ss, n) == HeldResource(ss0, n) && HeldModel(ss, n) == HeldModel(ss0, n) {
      if i :| 0 <= i < |ss| && HoldsResource(ss[i], n) { assert HoldsResource(ss0[i], n); }
      if i :| 0 <= i < |ss| && HoldsModel(ss[i], n) { assert HoldsModel(ss0[i], n); }
      if i :| 0 <= i < |ss| && HoldsResource(ss0[i], n) { assert HoldsResource(ss[i], n); }
      if i :| 0 <= i < |ss| && HoldsModel(ss0[i], n) { assert HoldsModel(ss[i], n); }
    }
    forall i | 0 <= i < |ss| && ModelsApart(ss0) && WriteLike(ss[i].verb) ensures NoDup(ChainModels(ss[i].chain)) {
      assert SameHolds(ss0[i], ss[i]);
    }
  }

  lemma SameHoldsOwned(st: State, ss: seq<Session>)
    requires Owned(st) && |ss| == |st.sessions|
    requires forall i :: 0 <= i < |ss| ==> SameHolds(st.sessions[i], ss[i])
    ensures Owned(st.(sessions := ss))
  {
    hide HoldsResource, HoldsModel, ModelsApart, HeldResource, HeldModel;
    SameHoldsHeld(st.sessions, ss);
  }

  // ----- a session ends

  /** The unlock loops of a session whose names are registered run to their end. */
  lemma ReleaseRuns(rs: seq<Resource>, cs: seq<Component>, s: Session)
    requires UniqueResources(rs) && UniqueComponents(cs)
    requires AllResources(rs, s.dependency) && AllComponents(cs, ChainModels(s.chain))
    ensures UnlockNames(rs, cs, s.dependency, ChainModels(s.chain))
         == Locks(MarkResources(rs, s.dependency, false), MarkComponents(cs, ChainModels(s.chain), false), RC_SUCCESS)
  {
    UnlockResourcesFacts(rs, s.dependency);
    UnlockComponentsFacts(cs, ChainModels(s.chain));
  }

  /** What is locked is registered. */
  lemma OwnedAreRegistered(st: State, i: nat)
    requires Owned(st) && i < |st.sessions| && WriteLike(st.sessions[i].verb)
    ensures AllResources(st.resources, st.sessions[i].dependency)
    ensures AllComponents(st.components, ChainModels(st.sessions[i].chain))
  {
    hide ChainModels;
    var s := st.sessions[i];
    forall n | n in s.dependency ensures HasResource(st.resources, n) {
      assert HoldsResource(st.sessions[i], n);
      assert HeldResource(st.sessions, n);
    }
    forall n | n in ChainModels(s.chain) ensures HasComponent(st.components, n) {
      assert HoldsModel(st.sessions[i], n);
      assert HeldModel(st.sessions, n);
    }
  }

  lemma RemovedSession(ss: seq<Session>, i: nat, n: Name)
    requires i < |ss|
    ensures HeldResource(RemoveAt(ss, i), n) ==> HeldResource(ss, n)
    ensures HeldResource(ss, n) && !HoldsResource(ss[i], n) ==> HeldResource(RemoveAt(ss, i), n)
    ensures Apart(ss) && HoldsResource(ss[i], n) ==> !HeldResource(RemoveAt(ss, i), n)
    ensures ModelsApart(ss) ==> (HeldModel(RemoveAt(ss, i), n) <==> HeldModel(ss, n) && !HoldsModel(ss[i], n))
  {
    hide HoldsResource, HoldsModel;
    var t := RemoveAt(ss, i);
    assert forall k :: 0 <= k < |t| ==> t[k] == ss[if k < i then k else k + 1];
    if k :| 0 <= k < |ss| && k != i && HoldsResource(ss[k], n) {
      assert HoldsResource(t[if k < i then k else k - 1], n);
    }
    if k :| 0 <= k < |ss| && k != i && HoldsModel(ss[k], n) {
      assert HoldsModel(t[if k < i then k else k - 1], n);
    }
    if k :| 0 <= k < |t| && HoldsResource(t[k], n) { assert HoldsResource(ss[if k < i then k else k + 1], n); }
    if k :| 0 <= k < |t| && HoldsModel(t[k], n) { assert HoldsModel(ss[if k < i then k else k + 1], n); }
  }

  /** The session's own locks go, and no other's. */
  lemma StopLocks(st: State, i: nat, n: Name)
    requires Identified(st.components, st.resources) && UniqueIds(st.sessions) && i < |st.sessions|
    requires WriteLike(st.sessions[i].verb) ==>
               && AllResources(st.resources, st.sessions[i].dependency)
               && AllComponents(st.components, ChainModels(st.sessions[i].chain))
    ensures Stop(st, i).sessions == RemoveAt(st.sessions, i)
    ensures var (s, st') := (st.sessions[i], Stop(st, i));
            && (ResourceLocked(st'.resources, n) <==> ResourceLocked(st.resources, n) && !HoldsResource(s, n))
            && (ComponentLocked(st'.components, n) <==> ComponentLocked(st.components, n) && !HoldsModel(s, n))
  {
    hide ChainModels, ResourceLocked, ComponentLocked, MarkResources, MarkComponents, UnlockNames;
    var s := st.sessions[i];
    assert FindSession(st.sessions, s.id) == i;
    if WriteLike(s.verb) {
      ReleaseRuns(st.resources, st.components, s);
      MarkedResourceLocked(st.resources, s.dependency, false, n);
      MarkedComponentLocked(st.components, ChainModels(s.chain), false, n);
    }
  }

  lemma StopOwned(st: State, i: nat)
    requires Identified(st.components, st.resources) && UniqueIds(st.sessions) && Owned(st)
    requires i < |st.sessions|
    ensures Owned(Stop(st, i))
    ensures forall n :: HoldsResource(st.sessions[i], n) ==> !ResourceLocked(Stop(st, i).resources, n)
    ensures forall n :: HoldsModel(st.sessions[i], n) ==> !ComponentLocked(Stop(st, i).components, n)
  {
    hide ChainModels, Stop, Apart, HoldsModel, HoldsResource, HeldModel, HeldResource, ResourceLocked, ComponentLocked;
    var s, st' := st.sessions[i], Stop(st, i);
    if WriteLike(s.verb) { OwnedAreRegistered(st, i); }
    StopLocks(st, i, "");
    forall n
      ensures ResourceLocked(st'.resources, n) <==> ResourceLocked(st.resources, n) && !HoldsResource(s, n)
      ensures ComponentLocked(st'.components, n) <==> ComponentLocked(st.components, n) && !HoldsModel(s, n)
      ensures HeldResource(st'.sessions, n) <==> HeldResource(st.sessions, n) && !HoldsResource(s, n)
      ensures HeldModel(st'.sessions, n) <==> HeldModel(st.sessions, n) && !HoldsModel(s, n)
    {
      StopLocks(st, i, n);
      ApartModels(st.sessions);
      RemovedSession(st.sessions, i, n);
    }
    RemovedApart(st.sessions, i);
  }

  lemma ApartModels(ss: seq<Session>)
    requires Apart(ss)
    ensures ModelsApart(ss)
  {
  }

  lemma RemovedApart(ss: seq<Session>, i: nat)
    requires i < |ss| && Apart(ss)
    ensures Apart(RemoveAt(ss, i))
  {
    var t := RemoveAt(ss, i);
    assert forall k :: 0 <= k < |t| ==> t[k] == ss[if k < i then k else k + 1];
  }

  lemma SessionReplaced(st: State, i: nat, s: Session)
    requires i < |st.sessions| && Owned(st) && UniqueIds(st.sessions)
    requires SameHolds(st.sessions[i], s) && s.id == st.sessions[i].id
    ensures Owned(st.(sessions := st.sessions[i := s])) && UniqueIds(st.sessions[i := s])
  {
    SameHoldsOwned(st, st.sessions[i := s]);
  }

  lemma AdvanceOwned(st: State, i: nat)
    requires Identified(st.components, st.resources) && UniqueIds(st.sessions) && Owned(st)
    requires i < |st.sessions|
    ensures Owned(Advance(st, i))
  {
    hide Owned, Stop, ChainModels;
    var s := st.sessions[i];
    if s.step + 1 > |s.chain| {
      var s' := s.(step := s.step + 1);
      SessionReplaced(st, i, s');
      StopOwned(st.(sessions := st.sessions[i := s']), i);
    } else {
      SessionReplaced(st, i, s.(step := s.step + 1, wait := |s.chain[s.step].models|));
    }
  }

  lemma ReplyOwned(st: State, id: nat, code: int)
    requires Sound(st) && Owned(st)
    ensures Owned(HandleReply(st, id, code))
  {
    var i := FindSession(st.sessions, id);
    if i < |st.sessions| {
      var s := st.sessions[i].(results := st.sessions[i].results + [code]);
      var s' := s.(wait := DecUint32(s.wait));
      SessionReplaced(st, i, s);
      SessionReplaced(st, i, s');
      StopOwned(st.(sessions := st.sessions[i := s]), i);
      AdvanceOwned(st.(sessions := st.sessions[i := s']), i);
    }
  }

  lemma {:induction false} StopAllOwned(st: State, ids: seq<nat>)
    requires Sound(st) && Owned(st)
    ensures Owned(StopAll(st, ids))
    decreases ids
  {
    if ids != [] {
      var i := FindSession(st.sessions, ids[0]);
      if i < |st.sessions| {
        StopSound(st, i);
        StopOwned(st, i);
        var st' := Stop(st, i);
        SameNodesIdentified(st.components, st.resources, st'.components, st'.resources);
        StopAllOwned(st', ids[1..]);
      } else {
        StopAllOwned(st, ids[1..]);
      }
    }
  }

  lemma AgedHolds(s: Session, seconds: nat)
    ensures SameHolds(s, AgedSession(s, seconds))
  {
    assert LevelModels(AgedSession(s, seconds).chain) == LevelModels(s.chain);
  }

  lemma TickOwned(st: State, seconds: nat)
    requires Sound(st) && Owned(st)
    ensures Owned(HandleTick(st, seconds))
  {
    var ss := AgedSessions(st.sessions, seconds);
    forall i | 0 <= i < |ss| ensures SameHolds(st.sessions[i], ss[i]) && WellShaped(ss[i])
        && ss[i].id == st.sessions[i].id {
      AgedHolds(st.sessions[i], seconds);
      assert WellShaped(st.sessions[i]);
    }
    SameHoldsOwned(st, ss);
    StopAllOwned(st.(sessions := ss), ExpiredIds(st.sessions, seconds));
  }

  // ----- registration leaves the lock bits alone

  lemma RegisterKeepsLocks(cs: seq<Component>, rs: seq<Resource>, c: Component, ns: seq<Name>, n: Name)
    requires !c.lock
    ensures var o := Register(cs, rs, c, ns);
            ResourceLocked(o.resources, n) == ResourceLocked(rs, n)
                && ComponentLocked(o.components, n) == ComponentLocked(cs, n)
  {
    var o := Register(cs, rs, c, ns);
    if o.code == CODE_OK {
      NotAnyLocked(rs, ns);
      AppendToAllLookup(rs, ns, c.name, n);
      assert ResourceLocked(o.resources, n) <==> Lookup(o.resources, n).Some? && Lookup(o.resources, n).value.lock;
      if HasComponent(cs, n) { assert o.components[FindComponent(cs, n)].name == n; }
    }
  }

  lemma BuiltinKeepsLocks(st: State, name: Name, topic: Name, wildcard: Name, n: Name)
    ensures var st' := WithBuiltin(st, name, topic, wildcard);
            && ResourceLocked(st'.resources, n) == ResourceLocked(st.resources, n)
            && ComponentLocked(st'.components, n) == ComponentLocked(st.components, n)
  {
    var st' := WithBuiltin(st, name, topic, wildcard);
    if !HasComponent(st.components, name) {
      AppendKeepsLock(st.resources, topic, name, n);
      AppendKeepsLock(AppendSubscriber(st.resources, topic, name), wildcard, name, n);
      if HasComponent(st.components, n) { assert st'.components[FindComponent(st.components, n)].name == n; }
    }
  }

  lemma RegisterOwned(st: State, c: Component, ns: seq<Name>)
    requires Owned(st) && !c.lock
    ensures var o := Register(st.components, st.resources, c, ns);
            Owned(State(o.components, o.resources, st.sessions))
  {
    hide Register, ResourceLocked, ComponentLocked;
    forall n { RegisterKeepsLocks(st.components, st.resources, c, ns, n); }
  }

  lemma BuiltinOwned(st: State, name: Name, topic: Name, wildcard: Name)
    requires Owned(st)
    ensures Owned(WithBuiltin(st, name, topic, wildcard))
  {
    hide ResourceLocked, ComponentLocked;
    forall n { BuiltinKeepsLocks(st, name, topic, wildcard, n); }
  }

  lemma AppendKeepsLock(rs: seq<Resource>, r: Name, c: Name, n: Name)
    ensures ResourceLocked(AppendSubscriber(rs, r, c), n) == ResourceLocked(rs, n)
  {
    if !ResourceLocked(rs, r) {
      AppendSubscriberLookup(rs, r, c, n);
      var rs' := AppendSubscriber(rs, r, c);
      assert ResourceLocked(rs', n) <==> Lookup(rs', n).Some? && Lookup(rs', n).value.lock;
    }
  }

  lemma RemovalKeepsComponentLocks(cs: seq<Component>, k: nat, m: Name)
    requires UniqueComponents(cs) && k < |cs| && !cs[k].lock
    ensures UniqueComponents(RemoveAt(cs, k))
    ensures ComponentLocked(RemoveAt(cs, k), m) == ComponentLocked(cs, m)
  {
    hide ComponentLocked;
    var cs' := RemoveAt(cs, k);
    assert forall i :: 0 <= i < |cs'| ==> cs'[i] == cs[if i < k then i else i + 1];
    ComponentLockedIff(cs, m);
    ComponentLockedIff(cs', m);
    if i :| 0 <= i < |cs| && cs[i].name == m && cs[i].lock {
      assert cs'[if i < k then i else i - 1] == cs[i];
    }
  }

  lemma DeregisterKeepsLocks(cs: seq<Component>, rs: seq<Resource>, n: Name, m: Name)
    requires UniqueComponents(cs) && UniqueResources(rs)
    ensures var o := Deregister(cs, rs, n);
            ResourceLocked(o.resources, m) == ResourceLocked(rs, m)
                && ComponentLocked(o.components, m) == ComponentLocked(cs, m)
  {
    if HasComponent(cs, n) && Deregister(cs, rs, n).code == CODE_OK {
      RemoveFromAllRuns(rs, n);
      RemovalKeepsLocks(rs, n, m);
      RemovalKeepsComponentLocks(cs, FindComponent(cs, n), m);
    }
  }

  lemma DeregisterOwned(st: State, n: Name)
    requires Sound(st) && Owned(st)
    ensures var o := Deregister(st.components, st.resources, n);
            Owned(State(o.components, o.resources, st.sessions))
  {
    hide Deregister, ResourceLocked, ComponentLocked;
    forall m { DeregisterKeepsLocks(st.components, st.resources, n, m); }
  }

  /** Only unlocked resources lose a subscriber or disappear. */
  lemma RemovalKeepsLocks(rs: seq<Resource>, c: Name, m: Name)
    requires UniqueResources(rs) && !AnyLockedBySubscriber(rs, c)
    ensures ResourceLocked(WithoutAll(rs, c), m) == ResourceLocked(rs, m)
  {
    var rs' := WithoutAll(rs, c);
    WithoutAllUnique(rs, c);
    ResourceLockedIff(rs, m);
    ResourceLockedIff(rs', m);
    if i :| 0 <= i < |rs| && rs[i].name == m && rs[i].lock {
      WithoutAllKeeps(rs, c, i);
      assert rs[i] in Without(rs[i], c);
      assert rs[i] in rs';
    }
    if i :| 0 <= i < |rs'| && rs'[i].name == m && rs'[i].lock {
      var k := WithoutAllOrigin(rs, c, i);
      assert rs[k].name == m && rs[k].lock;
    }
  }

  // ----- a request

  lemma ChainModelsMember(cs: seq<Component>, subs: seq<Name>, d: nat, n: Name)
    ensures n in ChainModels(Levels(cs, subs, d)) <==> exists k :: 0 <= k < d && n in Models(cs, Front(cs, subs, k))
  {
    var ls := Levels(cs, subs, d);
    ConcatMember(LevelModels(ls), n);
    if k :| 0 <= k < d && n in Models(cs, Front(cs, subs, k)) {
      LevelsAt(cs, subs, d, k);
      assert n in LevelModels(ls)[k];
    }
    if k :| 0 <= k < |LevelModels(ls)| && n in LevelModels(ls)[k] {
      LevelsAt(cs, subs, d, k);
      assert n in Models(cs, Front(cs, subs, k));
    }
  }

  /** What a new session would lock: registered models, none locked, and distinct registered resources. */
  lemma NewSessionNames(st: State, id: nat, verb: int, topic: Name, tunnel: Name)
    requires UniqueResources(st.resources)
    requires Refusal(st, id, verb, topic) == CODE_OK
    ensures var s := NewSession(st, id, verb, tunnel, RequestSubscribers(st, topic));
            && AllComponents(st.components, ChainModels(s.chain))
            && NoneComponentLocked(st.components, ChainModels(s.chain))
            && AllResources(st.resources, s.dependency)
            && NoDup(s.dependency)
  {
    hide ChainModels, Levels, Dependencies, WalkViews, Front, Depth, MatchedNodes;
    var cs, rs, subs := st.components, st.resources, RequestSubscribers(st, topic);
    var s := NewSession(st, id, verb, tunnel, subs);
    var d := LevelsToWalk(cs, subs, verb);
    forall n | n in ChainModels(s.chain) ensures HasComponent(cs, n) && !ComponentLocked(cs, n) {
      ChainModelsMember(cs, subs, d, n);
      var k :| 0 <= k < d && n in Models(cs, Front(cs, subs, k));
      ModelsMember(cs, Front(cs, subs, k), n);
      assert !AnyBusy(cs, Front(cs, subs, k));
    }
    if WriteLike(verb) {
      DependenciesFacts(cs, rs, subs, d, "");
      forall n | n in s.dependency ensures HasResource(rs, n) {
        DependenciesFacts(cs, rs, subs, d, n);
        var k :| 0 <= k < d && NeededBy(cs, rs, Front(cs, subs, k), n);
        var m :| m in Models(cs, Front(cs, subs, k)) && SubscribesTo(rs, m, n);
      }
    }
  }

  /**
   * Write admission: a write request that got past the checks becomes a session exactly when the
   * models of its chain are pairwise distinct and unlocked and its resources are unlocked. When only
   * a repeated model is in the way, the refusal changes nothing.
   */
  lemma AdmissionIff(st: State, id: nat, verb: int, topic: Name, tunnel: Name)
    requires Identified(st.components, st.resources)
    requires Refusal(st, id, verb, topic) == CODE_OK && WriteLike(verb)
    ensures var s := NewSession(st, id, verb, tunnel, RequestSubscribers(st, topic));
            var (st', code) := HandleRequest(st, id, verb, topic, tunnel);
            && (code == CODE_OK <==>
            && NoDup(ChainModels(s.chain)) && NoneComponentLocked(st.components, ChainModels(s.chain))
            && NoneResourceLocked(st.resources, s.dependency))
            && (code == CODE_OK <==> |st'.sessions| == |st.sessions| + 1)
            && (code != CODE_OK && NoneResourceLocked(st.resources, s.dependency) ==> st' == st)
  {
    var s := NewSession(st, id, verb, tunnel, RequestSubscribers(st, topic));
    NewSessionNames(st, id, verb, topic, tunnel);
    LockNamesIff(st.resources, st.components, s.dependency, ChainModels(s.chain));
    RollbackClears(st.resources, st.components, s.dependency, ChainModels(s.chain));
    if NoneResourceLocked(st.resources, s.dependency) {
      ClearingUnlockedIsIdentity(st.resources, st.components, s.dependency, ChainModels(s.chain));
    }
  }

  /** A session whose names are distinct and free takes them over. */
  lemma TakeOwned(st: State, s: Session)
    requires Identified(st.components, st.resources) && Owned(st) && WriteLike(s.verb)
    requires AllResources(st.resources, s.dependency) && AllComponents(st.components, ChainModels(s.chain))
    requires NoneResourceLocked(st.resources, s.dependency)
    requires NoneComponentLocked(st.components, ChainModels(s.chain)) && NoDup(ChainModels(s.chain))
    ensures Owned(State(MarkComponents(st.components, ChainModels(s.chain), true),
                        MarkResources(st.resources, s.dependency, true), st.sessions + [s]))
  {
    var ss := st.sessions + [s];
    var rs', cs' := MarkResources(st.resources, s.dependency, true), MarkComponents(st.components,
        ChainModels(s.chain), true);
    forall n
      ensures ResourceLocked(rs', n) <==> HeldResource(ss, n)
      ensures ComponentLocked(cs', n) <==> HeldModel(ss, n)
    {
      MarkedResourceLocked(st.resources, s.dependency, true, n);
      MarkedComponentLocked(st.components, ChainModels(s.chain), true, n);
      LastSession(st.sessions, s, n);
    }
    forall i, n | 0 <= i < |st.sessions|
      ensures HoldsResource(ss[i], n) ==> !HoldsResource(s, n)
      ensures HoldsModel(ss[i], n) ==> !HoldsModel(s, n)
    {
      assert ss[i] == st.sessions[i];
      if HoldsResource(st.sessions[i], n) { assert HeldResource(st.sessions, n); }
      if HoldsModel(st.sessions[i], n) { assert HeldModel(st.sessions, n); }
    }
  }

  lemma LastSession(ss: seq<Session>, s: Session, n: Name)
    ensures HeldResource(ss + [s], n) <==> HeldResource(ss, n) || HoldsResource(s, n)
    ensures HeldModel(ss + [s], n) <==> HeldModel(ss, n) || HoldsModel(s, n)
  {
    var t := ss + [s];
    assert t[|ss|] == s;
    if i :| 0 <= i < |ss| && HoldsResource(ss[i], n) { assert HoldsResource(t[i], n); }
    if i :| 0 <= i < |ss| && HoldsModel(ss[i], n) { assert HoldsModel(t[i], n); }
    if HoldsResource(s, n) { assert HoldsResource(t[|ss|], n); }
    if HoldsModel(s, n) { assert HoldsModel(t[|ss|], n); }
  }

  /** The request reaches the lock loop needing a resource that is locked. */
  ghost predicate Collides(st: State, e: Event) {
    && e.Request? && WriteLike(e.verb)
    && Refusal(st, e.id, e.verb, e.topic) == CODE_OK
    && !NoneResourceLocked(st.resources, NewSession(st, e.id, e.verb, e.tunnel, RequestSubscribers(st,
        e.topic)).dependency)
  }

  /** A read session holds nothing. */
  lemma ReadOwned(st: State, s: Session)
    requires Owned(st) && !WriteLike(s.verb)
    ensures Owned(st.(sessions := st.sessions + [s]))
  {
    forall n
      ensures HeldResource(st.sessions + [s], n) == HeldResource(st.sessions, n)
      ensures HeldModel(st.sessions + [s], n) == HeldModel(st.sessions, n)
    {
      LastSession(st.sessions, s, n);
    }
  }

  lemma RequestOwned(st: State, e: Event)
    requires Sound(st) && Owned(st) && e.Request? && !Collides(st, e)
    ensures Owned(Next(st, e))
  {
    if Refusal(st, e.id, e.verb, e.topic) == CODE_OK {
      var s := NewSession(st, e.id, e.verb, e.tunnel, RequestSubscribers(st, e.topic));
      assert UniqueIds(st.sessions + [s]);
      if !WriteLike(e.verb) {
        ReadOwned(st, s);
        AdvanceOwned(st.(sessions := st.sessions + [s]), |st.sessions|);
      } else {
        WriteOwned(st, e, s);
      }
    }
  }

  lemma WriteOwned(st: State, e: Event, s: Session)
    requires Sound(st) && Owned(st) && e.Request? && !Collides(st, e) && WriteLike(e.verb)
    requires Refusal(st, e.id, e.verb, e.topic) == CODE_OK
    requires s == NewSession(st, e.id, e.verb, e.tunnel, RequestSubscribers(st, e.topic))
    requires UniqueIds(st.sessions + [s])
    ensures Owned(Next(st, e))
  {
    AdmissionIff(st, e.id, e.verb, e.topic, e.tunnel);
    NewSessionNames(st, e.id, e.verb, e.topic, e.tunnel);
    LockNamesIff(st.resources, st.components, s.dependency, ChainModels(s.chain));
    var l := LockNames(st.resources, st.components, s.dependency, ChainModels(s.chain));
    if l.rc == RC_SUCCESS {
      TakeOwned(st, s);
      LocksSame(st.resources, st.components, s.dependency, ChainModels(s.chain));
      SameNodesIdentified(st.components, st.resources, l.components, l.resources);
      AdvanceOwned(State(l.components, l.resources, st.sessions + [s]), |st.sessions|);
    }
  }

  /**
   * Every event keeps ownership except a request that needs a resource another session holds; its
   * rollback clears that lock while the other session is in flight, and ownership is lost.
   */
  lemma NextOwnedIff(st: State, e: Event)
    requires Sound(st) && Enabled(st, e) && Owned(st)
    ensures Owned(Next(st, e)) <==> !Collides(st, e)
  {
    match e
    case Connect =>
      TopicsDiffer();
      BuiltinSound(st, REGISTER_NAME, REGISTER_TOPIC, REGISTER_WILDCARD);
      BuiltinOwned(st, REGISTER_NAME, REGISTER_TOPIC, REGISTER_WILDCARD);
      BuiltinOwned(WithBuiltin(st, REGISTER_NAME, REGISTER_TOPIC, REGISTER_WILDCARD),
                   DEPENDENCY_NAME, DEPENDENCY_TOPIC, DEPENDENCY_WILDCARD);
    case RegisterEvent(c, ns) => RegisterOwned(st, c, ns);
    case DeregisterEvent(n) => DeregisterOwned(st, n);
    case Request(_, _, _, _) => if Collides(st, e) {
        CollisionLosesLock(st, e);
        var i, n :| 0 <= i < |st.sessions| && HoldsResource(st.sessions[i], n)
            && !ResourceLocked(Next(st, e).resources, n);
        assert HeldResource(Next(st, e).sessions, n);
      } else { RequestOwned(st, e); }
    case Reply(id, code) => ReplyOwned(st, id, code);
    case Tick(seconds) => TickOwned(st, seconds);
  }

  lemma CollisionLosesLock(st: State, e: Event)
    requires Sound(st) && Owned(st) && Collides(st, e)
    ensures Next(st, e).sessions == st.sessions
    ensures exists i, n :: 0 <= i < |st.sessions| && HoldsResource(st.sessions[i], n)
                           && !ResourceLocked(Next(st, e).resources, n)
  {
    hide ChainModels, NewSession, Refusal, RequestSubscribers, LockNames;
    var s := NewSession(st, e.id, e.verb, e.tunnel, RequestSubscribers(st, e.topic));
    NewSessionNames(st, e.id, e.verb, e.topic, e.tunnel);
    AdmissionIff(st, e.id, e.verb, e.topic, e.tunnel);
    LockNamesIff(st.resources, st.components, s.dependency, ChainModels(s.chain));
    RollbackClears(st.resources, st.components, s.dependency, ChainModels(s.chain));
    var n :| n in s.dependency && ResourceLocked(st.resources, n);
    assert HeldResource(st.sessions, n);
    var i :| 0 <= i < |st.sessions| && HoldsResource(st.sessions[i], n);
    MarkedResourceLocked(st.resources, s.dependency, false, n);
    assert !ResourceLocked(Next(st, e).resources, n);
  }

  // ----- over runs

  ghost predicate NoCollision(es: seq<Event>) {
    forall k :: 0 <= k < |es| ==> !Collides(Run(Empty, es[..k]), es[k])
  }

  /** All states of the run are owned. */
  ghost predicate OwnedThroughout(es: seq<Event>) {
    forall k :: 0 <= k <= |es| ==> Owned(Run(Empty, es[..k]))
  }

  lemma OwnedThroughoutPrefix(es: seq<Event>)
    requires es != []
    ensures OwnedThroughout(es) <==> OwnedThroughout(es[..|es| - 1]) && Owned(Run(Empty, es))
  {
    hide Run, Owned;
    var fs := es[..|es| - 1];
    assert es[..|es|] == es;
    assert forall k :: 0 <= k <= |fs| ==> fs[..k] == es[..k];
    if OwnedThroughout(es) {
      assert Owned(Run(Empty, es[..|es|]));
      forall k | 0 <= k <= |fs| ensures Owned(Run(Empty, fs[..k])) { assert Owned(Run(Empty, es[..k])); }
    }
    if OwnedThroughout(fs) && Owned(Run(Empty, es)) {
      forall k | 0 <= k <= |es| ensures Owned(Run(Empty, es[..k])) {
        if k < |es| { assert Owned(Run(Empty, fs[..k])); }
      }
    }
  }

  lemma NoCollisionPrefix(es: seq<Event>)
    requires es != []
    ensures NoCollision(es)
       <==> NoCollision(es[..|es| - 1]) && !Collides(Run(Empty, es[..|es| - 1]), es[|es| - 1])
  {
    hide Run, Collides;
    var fs := es[..|es| - 1];
    assert forall k :: 0 <= k <= |fs| ==> fs[..k] == es[..k];
    if NoCollision(es) {
      forall k | 0 <= k < |fs| ensures !Collides(Run(Empty, fs[..k]), fs[k]) {
        assert !Collides(Run(Empty, es[..k]), es[k]);
      }
    }
    if NoCollision(fs) && !Collides(Run(Empty, fs), es[|es| - 1]) {
      forall k | 0 <= k < |es| ensures !Collides(Run(Empty, es[..k]), es[k]) {
        if k < |fs| { assert !Collides(Run(Empty, fs[..k]), fs[k]); }
      }
    }
  }

  /** Ownership holds in every state of a run if and only if none of its requests collides. */
  lemma {:induction false} RunOwnedIff(es: seq<Event>)
    requires EnabledRun(Empty, es)
    ensures OwnedThroughout(es) <==> NoCollision(es)
  {
    hide Next, Collides, Sound, Enabled;
    if es == [] {
      assert Owned(Empty) && NoCollision(es);
    } else {
      var fs, e := es[..|es| - 1], es[|es| - 1];
      assert Run(Empty, es) == Next(Run(Empty, fs), e);
      RunPrefix(Empty, es);
      OwnedThroughoutPrefix(es);
      NoCollisionPrefix(es);
      RunOwnedIff(fs);
      RunSound(fs);
      if OwnedThroughout(fs) {
        assert Owned(Run(Empty, fs[..|fs|])) && fs[..|fs|] == fs;
        NextOwnedIff(Run(Empty, fs), e);
      }
    }
  }

  // ----- the dependency query

  lemma {:induction false} QueryWalkIsDependencies(cs: seq<Component>, rs: seq<Resource>, subs: seq<Name>, k: nat,
      n: nat)
    ensures QueryWalk(cs, rs, Front(cs, subs, k), Dependencies(cs, rs, subs, k), n) == Dependencies(cs, rs, subs, k + n)
    decreases n
  {
    hide NextLevel, AddDependencies;
    if n > 0 {
      assert NextLevel(cs, Front(cs, subs, k)) == Front(cs, subs, k + 1);
      QueryWalkIsDependencies(cs, rs, subs, k + 1, n - 1);
    }
  }

  /** Whatever is locked, the answer is the dependency list that a write request on the topic builds. */
  lemma QueryIsDependencyList(st: State, id: nat, verb: int, topic: Name, tunnel: Name)
    requires WriteLike(verb) && RequestSubscribers(st, topic) != []
    requires Ends(st.components, RequestSubscribers(st, topic))
    ensures DependencyAnswer(st.components, st.resources, topic)
         == (NewSession(st, id, verb, tunnel, RequestSubscribers(st, topic)).dependency, CODE_OK)
  {
    var subs := RequestSubscribers(st, topic);
    QueryWalkIsDependencies(st.components, st.resources, subs, 0, Depth(st.components, subs));
  }

  /**
   * The dependency query predicts the lock set: a write request on the topic that is admitted has
   * exactly the answered resources, in the answered order, as its dependency list, and they are the
   * resources it newly locks.
   */
  lemma QueryPredictsLocks(st: State, id: nat, verb: int, topic: Name, tunnel: Name)
    requires Sound(st) && WriteLike(verb) && Answered(st, id, verb, topic)
    requires HandleRequest(st, id, verb, topic, tunnel).1 == CODE_OK
    ensures Ends(st.components, RequestSubscribers(st, topic))
    ensures var (answer, code) := DependencyAnswer(st.components, st.resources, topic);
            var st' := HandleRequest(st, id, verb, topic, tunnel).0;
            && code == CODE_OK
            && |st'.sessions| == |st.sessions| + 1 && st'.sessions[|st.sessions|].dependency == answer
            && forall n :: ResourceLocked(st'.resources, n) && !ResourceLocked(st.resources, n) <==> n in answer
  {
    var subs := RequestSubscribers(st, topic);
    LockMetEarly(st.components, subs);
    QueryIsDependencyList(st, id, verb, topic, tunnel);
    var s := NewSession(st, id, verb, tunnel, subs);
    NewSessionNames(st, id, verb, topic, tunnel);
    AdmissionIff(st, id, verb, topic, tunnel);
    LockNamesIff(st.resources, st.components, s.dependency, ChainModels(s.chain));
    forall n
      ensures ResourceLocked(MarkResources(st.resources, s.dependency, true), n) && !ResourceLocked(st.resources, n)
              <==> n in s.dependency
    {
      MarkedResourceLocked(st.resources, s.dependency, true, n);
    }
  }
}
