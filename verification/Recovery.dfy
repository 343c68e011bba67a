/**
 * What holds over every run, collisions of requests included. A collision can cost a session the lock
 * of a resource but never that of a model: the walk has refused locked models before. And a resource
 * that a session holds lists one of the session's models, which is locked and so cannot be
 * deregistered. Hence releases are complete, and with the last write session the last lock goes.
 */
module Recovery {
  import opened Lists
  import opened Entities
  import opened HookWalk
  import opened Locking
  import opened Registry
  import opened Protocol
  import opened Soundness
  import opened Ownership

  /** Some model that the session holds subscribes to `n`. */
  ghost predicate AnchoredBy(rs: seq<Resource>, s: Session, n: Name) {
    exists m :: HoldsModel(s, m) && SubscribesTo(rs, m, n)
  }

  ghost predicate Anchored(rs: seq<Resource>, ss: seq<Session>) {
    forall i, n :: 0 <= i < |ss| && HoldsResource(ss[i], n) ==> AnchoredBy(rs, ss[i], n)
  }

  /** A locked resource is held by some session. */
  ghost predicate NoStrayLock(rs: seq<Resource>, ss: seq<Session>) {
    forall n :: ResourceLocked(rs, n) ==> HeldResource(ss, n)
  }

  /** Each model lock belongs to exactly one session, no resource lock is stray, held resources are anchored. */
  ghost predicate Secured(st: State) {
    && ModelsOwned(st.components, st.sessions) && ModelsApart(st.sessions)
    && NoStrayLock(st.resources, st.sessions)
    && Anchored(st.resources, st.sessions)
  }

  // ----- held names are registered

  lemma HeldAreRegistered(st: State, i: nat)
    requires Secured(st) && i < |st.sessions| && WriteLike(st.sessions[i].verb)
    ensures AllResources(st.resources, st.sessions[i].dependency)
    ensures AllComponents(st.components, ChainModels(st.sessions[i].chain))
  {
    hide ChainModels;
    var s := st.sessions[i];
    forall n | n in s.dependency ensures HasResource(st.resources, n) {
      assert HoldsResource(st.sessions[i], n);
      var m :| HoldsModel(s, m) && SubscribesTo(st.resources, m, n);
    }
    forall n | n in ChainModels(s.chain) ensures HasComponent(st.components, n) {
      assert HoldsModel(st.sessions[i], n);
      assert HeldModel(st.sessions, n);
    }
  }

  // ----- sessions move and end

  lemma SameHoldsSecured(st: State, ss: seq<Session>)
    requires Secured(st) && |ss| == |st.sessions|
    requires forall i :: 0 <= i < |ss| ==> SameHolds(st.sessions[i], ss[i])
    ensures Secured(st.(sessions := ss))
  {
    hide HoldsResource, HoldsModel, ModelsApart, HeldResource, HeldModel, SubscribesTo;
    SameHoldsHeld(st.sessions, ss);
    forall i, n | 0 <= i < |ss| && HoldsResource(ss[i], n) ensures AnchoredBy(st.resources, ss[i], n) {
      assert AnchoredBy(st.resources, st.sessions[i], n);
      var m :| HoldsModel(st.sessions[i], m) && SubscribesTo(st.resources, m, n);
      assert HoldsModel(ss[i], m);
    }
  }

  /** Locks aside, equal nodes are subscribed alike. */
  lemma SameSubscribers(rs: seq<Resource>, rs': seq<Resource>, m: Name, n: Name)
    requires |rs'| == |rs| && forall i :: 0 <= i < |rs| ==> rs'[i] == rs[i].(lock := rs'[i].lock)
    requires SubscribesTo(rs, m, n)
    ensures SubscribesTo(rs', m, n)
  {
    var i :| 0 <= i < |rs| && rs[i].name == n && m in rs[i].subscribers;
    assert rs'[i].name == n && m in rs'[i].subscribers;
  }

  lemma KeptAnchors(rs: seq<Resource>, rs': seq<Resource>, ss: seq<Session>)
    requires Anchored(rs, ss)
    requires forall i, m, n :: 0 <= i < |ss| && HoldsModel(ss[i], m) && SubscribesTo(rs, m, n) ==>
                         SubscribesTo(rs', m, n)
    ensures Anchored(rs', ss)
  {
    hide HoldsResource, HoldsModel, SubscribesTo;
    forall i, n | 0 <= i < |ss| && HoldsResource(ss[i], n) ensures AnchoredBy(rs', ss[i], n) {
      assert AnchoredBy(rs, ss[i], n);
      var m :| HoldsModel(ss[i], m) && SubscribesTo(rs, m, n);
      assert SubscribesTo(rs', m, n);
    }
  }

  lemma StopAnchored(st: State, i: nat)
    requires i < |st.sessions| && Anchored(st.resources, st.sessions)
    ensures Anchored(Stop(st, i).resources, RemoveAt(st.sessions, i))
  {
    hide ChainModels, SubscribesTo, HoldsModel, HoldsResource;
    var s, rs, rs' := st.sessions[i], st.resources, Stop(st, i).resources;
    LocksSame(rs, st.components, s.dependency, ChainModels(s.chain));
    hide Stop;
    forall k, m, n | 0 <= k < |st.sessions| && HoldsModel(st.sessions[k], m) && SubscribesTo(rs, m, n)
      ensures SubscribesTo(rs', m, n)
    {
      SameSubscribers(rs, rs', m, n);
    }
    KeptAnchors(rs, rs', st.sessions);
    var ss := RemoveAt(st.sessions, i);
    assert forall k :: 0 <= k < |ss| ==> ss[k] == st.sessions[if k < i then k else k + 1];
  }

  lemma StopSecured(st: State, i: nat)
    requires Identified(st.components, st.resources) && UniqueIds(st.sessions) && Secured(st)
    requires i < |st.sessions|
    ensures Secured(Stop(st, i))
  {
    hide ChainModels, Stop, Anchored, ModelsApart, HoldsModel, HoldsResource, HeldModel, HeldResource,
        ResourceLocked, ComponentLocked;
    if WriteLike(st.sessions[i].verb) { HeldAreRegistered(st, i); }
    StopLocks(st, i, "");
    var ss, st' := st.sessions, Stop(st, i);
    forall n
      ensures ComponentLocked(st'.components, n) <==> HeldModel(st'.sessions, n)
      ensures ResourceLocked(st'.resources, n) ==> HeldResource(st'.sessions, n)
    {
      StopLocks(st, i, n);
      RemovedSession(ss, i, n);
      assert ComponentLocked(st.components, n) <==> HeldModel(ss, n);
    }
    RemovedModelsApart(st.sessions, i);
    StopAnchored(st, i);
  }

  lemma RemovedModelsApart(ss: seq<Session>, i: nat)
    requires i < |ss| && ModelsApart(ss)
    ensures ModelsApart(RemoveAt(ss, i))
  {
    hide HoldsModel, ChainModels;
    var t := RemoveAt(ss, i);
    assert forall k :: 0 <= k < |t| ==> t[k] == ss[if k < i then k else k + 1];
  }

  lemma SessionReplacedSecured(st: State, i: nat, s: Session)
    requires i < |st.sessions| && Secured(st) && UniqueIds(st.sessions)
    requires SameHolds(st.sessions[i], s) && s.id == st.sessions[i].id
    ensures Secured(st.(sessions := st.sessions[i := s])) && UniqueIds(st.sessions[i := s])
  {
    hide Secured, ChainModels;
    SameHoldsSecured(st, st.sessions[i := s]);
  }

  lemma AdvanceSecured(st: State, i: nat)
    requires Identified(st.components, st.resources) && UniqueIds(st.sessions) && Secured(st)
    requires i < |st.sessions|
    ensures Secured(Advance(st, i))
  {
    hide Secured, Stop, ChainModels;
    var s := st.sessions[i];
    if s.step + 1 > |s.chain| {
      var s' := s.(step := s.step + 1);
      SessionReplacedSecured(st, i, s');
      StopSecured(st.(sessions := st.sessions[i := s']), i);
    } else {
      SessionReplacedSecured(st, i, s.(step := s.step + 1, wait := |s.chain[s.step].models|));
    }
  }

  lemma ReplySecured(st: State, id: nat, code: int)
    requires Sound(st) && Secured(st)
    ensures Secured(HandleReply(st, id, code))
  {
    hide Secured, Stop, ChainModels, Advance;
    var i := FindSession(st.sessions, id);
    if i < |st.sessions| {
      var s := st.sessions[i].(results := st.sessions[i].results + [code]);
      var s' := s.(wait := DecUint32(s.wait));
      SessionReplacedSecured(st, i, s);
      SessionReplacedSecured(st, i, s');
      StopSecured(st.(sessions := st.sessions[i := s]), i);
      AdvanceSecured(st.(sessions := st.sessions[i := s']), i);
    }
  }

  lemma {:induction false} StopAllSecured(st: State, ids: seq<nat>)
    requires Sound(st) && Secured(st)
    ensures Secured(StopAll(st, ids))
    decreases ids
  {
    hide Secured, Stop;
    if ids != [] {
      var i := FindSession(st.sessions, ids[0]);
      if i < |st.sessions| {
        StopSound(st, i);
        StopSecured(st, i);
        var st' := Stop(st, i);
        SameNodesIdentified(st.components, st.resources, st'.components, st'.resources);
        StopAllSecured(st', ids[1..]);
      } else {
        StopAllSecured(st, ids[1..]);
      }
    }
  }

  lemma TickSecured(st: State, seconds: nat)
    requires Sound(st) && Secured(st)
    ensures Secured(HandleTick(st, seconds))
  {
    hide Secured, StopAll, ExpiredIds;
    var ss := AgedSessions(st.sessions, seconds);
    forall i | 0 <= i < |ss| ensures SameHolds(st.sessions[i], ss[i]) && WellShaped(ss[i])
        && ss[i].id == st.sessions[i].id {
      AgedHolds(st.sessions[i], seconds);
      assert WellShaped(st.sessions[i]);
    }
    SameHoldsSecured(st, ss);
    StopAllSecured(st.(sessions := ss), ExpiredIds(st.sessions, seconds));
  }

  // ----- registration

  /** A change of the lists that keeps all locks, and what the locked models subscribe to. */
  lemma QuietSecured(st: State, cs: seq<Component>, rs: seq<Resource>)
    requires Secured(st)
    requires forall n :: ComponentLocked(cs, n) == ComponentLocked(st.components, n)
    requires forall n :: ResourceLocked(rs, n) == ResourceLocked(st.resources, n)
    requires forall m, n :: ComponentLocked(st.components, m) && SubscribesTo(st.resources, m, n) ==>
                         SubscribesTo(rs, m, n)
    ensures Secured(State(cs, rs, st.sessions))
  {
    hide ComponentLocked, ResourceLocked, SubscribesTo, HoldsModel, HoldsResource, ModelsApart;
    forall i, m, n | 0 <= i < |st.sessions| && HoldsModel(st.sessions[i], m) && SubscribesTo(st.resources, m, n)
      ensures SubscribesTo(rs, m, n)
    {
      assert HeldModel(st.sessions, m);
    }
    KeptAnchors(st.resources, rs, st.sessions);
  }

  lemma AppendKeepsSubscribers(rs: seq<Resource>, r: Name, c: Name, m: Name, n: Name)
    requires SubscribesTo(rs, m, n)
    ensures SubscribesTo(AppendSubscriber(rs, r, c), m, n)
  {
    var i :| 0 <= i < |rs| && rs[i].name == n && m in rs[i].subscribers;
    var rs' := AppendSubscriber(rs, r, c);
    assert rs'[i].name == n && m in rs'[i].subscribers;
  }

  lemma {:induction false} AppendAllKeepsSubscribers(rs: seq<Resource>, ns: seq<Name>, c: Name, m: Name, n: Name)
    requires SubscribesTo(rs, m, n)
    ensures SubscribesTo(AppendToAll(rs, ns, c), m, n)
  {
    hide SubscribesTo, AppendSubscriber;
    if ns != [] {
      AppendAllKeepsSubscribers(rs, ns[..|ns| - 1], c, m, n);
      AppendKeepsSubscribers(AppendToAll(rs, ns[..|ns| - 1], c), ns[|ns| - 1], c, m, n);
    }
  }

  lemma RemoveFirstKeeps<T>(s: seq<T>, x: T, y: T)
    requires y in s && y != x
    ensures y in RemoveFirst(s, x)
  {
    hide FirstIndex;
    var k := FirstIndex(s, x);
    FirstIndexFacts(s, x);
    var j :| 0 <= j < |s| && s[j] == y;
    if k < |s| { assert (s[..k] + s[k + 1..])[if j < k then j else j - 1] == y; }
  }

  lemma RemovalKeepsSubscribers(rs: seq<Resource>, c: Name, m: Name, n: Name)
    requires SubscribesTo(rs, m, n) && m != c
    ensures SubscribesTo(WithoutAll(rs, c), m, n)
  {
    var i :| 0 <= i < |rs| && rs[i].name == n && m in rs[i].subscribers;
    var s := rs[i].subscribers;
    WithoutAllKeeps(rs, c, i);
    RemoveFirstKeeps(s, c, m);
    hide WithoutAll, RemoveFirst;
    var left := Without(rs[i], c)[0];
    assert left in Without(rs[i], c) && left in WithoutAll(rs, c);
  }

  lemma RegisterSecured(st: State, c: Component, ns: seq<Name>)
    requires Secured(st) && !c.lock
    ensures var o := Register(st.components, st.resources, c, ns);
            Secured(State(o.components, o.resources, st.sessions))
  {
    hide Secured, ComponentLocked, ResourceLocked, SubscribesTo;
    var o := Register(st.components, st.resources, c, ns);
    forall m, n | SubscribesTo(st.resources, m, n) ensures SubscribesTo(o.resources, m, n) {
      AppendAllKeepsSubscribers(st.resources, ns, c.name, m, n);
    }
    hide Register;
    forall n { RegisterKeepsLocks(st.components, st.resources, c, ns, n); }
    QuietSecured(st, o.components, o.resources);
  }

  lemma BuiltinSecured(st: State, name: Name, topic: Name, wildcard: Name)
    requires Secured(st)
    ensures Secured(WithBuiltin(st, name, topic, wildcard))
  {
    hide Secured, ComponentLocked, ResourceLocked, SubscribesTo, AppendSubscriber;
    var st' := WithBuiltin(st, name, topic, wildcard);
    forall m, n | SubscribesTo(st.resources, m, n) ensures SubscribesTo(st'.resources, m, n) {
      AppendKeepsSubscribers(st.resources, topic, name, m, n);
      AppendKeepsSubscribers(AppendSubscriber(st.resources, topic, name), wildcard, name, m, n);
    }
    forall n { BuiltinKeepsLocks(st, name, topic, wildcard, n); }
    QuietSecured(st, st'.components, st'.resources);
  }

  lemma DeregisterSecured(st: State, c: Name)
    requires Sound(st) && Secured(st)
    ensures var o := Deregister(st.components, st.resources, c);
            Secured(State(o.components, o.resources, st.sessions))
  {
    hide Secured, SubscribesTo, WithoutAll, HasComponent;
    var cs, rs := st.components, st.resources;
    var o := Deregister(cs, rs, c);
    if HasComponent(cs, c) && o.code == CODE_OK { RemoveFromAllRuns(rs, c); }
    forall m, n | ComponentLocked(cs, m) && SubscribesTo(rs, m, n) ensures SubscribesTo(o.resources, m, n) {
      if m != c { RemovalKeepsSubscribers(rs, c, m, n); }
    }
    hide Deregister, ComponentLocked, ResourceLocked;
    forall n { DeregisterKeepsLocks(cs, rs, c, n); }
    QuietSecured(st, o.components, o.resources);
  }

  // ----- requests

  /** Every resource that a new session needs is one that a model of its chain subscribes to. */
  lemma NewSessionAnchored(st: State, id: nat, verb: int, subs: seq<Name>, tunnel: Name, n: Name)
    requires n in NewSession(st, id, verb, tunnel, subs).dependency
    ensures AnchoredBy(st.resources, NewSession(st, id, verb, tunnel, subs), n)
  {
    hide ChainModels, Dependencies, Levels, Front, Depth, WalkViews, SubscribesTo, Models, NeededBy;
    var cs, rs, d := st.components, st.resources, LevelsToWalk(st.components, subs, verb);
    var s := NewSession(st, id, verb, tunnel, subs);
    assert WriteLike(verb) && s.chain == Levels(cs, subs, d);
    DependenciesFacts(cs, rs, subs, d, n);
    var k :| 0 <= k < d && NeededBy(cs, rs, Front(cs, subs, k), n);
    var m := NeededModel(cs, rs, Front(cs, subs, k), n);
    assert m in Models(cs, Front(cs, subs, k));
    assert exists j :: 0 <= j < d && m in Models(cs, Front(cs, subs, j));
    ChainModelsMember(cs, subs, d, m);
    assert m in ChainModels(Levels(cs, subs, d));
    assert HoldsModel(s, m);
  }

  /** A session whose models are distinct and free joins the others. */
  lemma TakeSecured(st: State, s: Session, cs: seq<Component>, rs: seq<Resource>)
    requires Identified(st.components, st.resources) && Secured(st) && WriteLike(s.verb)
    requires NoDup(ChainModels(s.chain)) && AllComponents(st.components, ChainModels(s.chain))
    requires NoneComponentLocked(st.components, ChainModels(s.chain))
    requires forall n :: n in s.dependency ==> AnchoredBy(st.resources, s, n)
    requires cs == MarkComponents(st.components, ChainModels(s.chain), true)
    requires rs == MarkResources(st.resources, s.dependency, true)
    ensures Secured(State(cs, rs, st.sessions + [s]))
  {
    hide ChainModels, SubscribesTo, NoDup;
    var ss := st.sessions + [s];
    forall n
      ensures ResourceLocked(rs, n) ==> HeldResource(ss, n)
      ensures ComponentLocked(cs, n) <==> HeldModel(ss, n)
    {
      MarkedResourceLocked(st.resources, s.dependency, true, n);
      MarkedComponentLocked(st.components, ChainModels(s.chain), true, n);
      LastSession(st.sessions, s, n);
    }
    hide ResourceLocked, ComponentLocked;
    forall i, n | 0 <= i < |st.sessions| ensures HoldsModel(ss[i], n) ==> !HoldsModel(s, n) {
      assert ss[i] == st.sessions[i];
      if HoldsModel(st.sessions[i], n) { assert HeldModel(st.sessions, n); }
    }
    assert ModelsApart(ss);
    hide MarkResources;
    JoinedAnchors(st, s, rs);
  }

  lemma JoinedAnchors(st: State, s: Session, rs: seq<Resource>)
    requires Anchored(st.resources, st.sessions)
    requires forall n :: n in s.dependency ==> AnchoredBy(st.resources, s, n)
    requires |rs| == |st.resources| && forall i :: 0 <= i < |rs| ==> rs[i] == st.resources[i].(lock := rs[i].lock)
    ensures Anchored(rs, st.sessions + [s])
  {
    hide ChainModels, SubscribesTo, HoldsModel;
    var ss := st.sessions + [s];
    forall i, n | 0 <= i < |ss| && HoldsResource(ss[i], n) ensures AnchoredBy(rs, ss[i], n) {
      assert AnchoredBy(st.resources, ss[i], n);
      var m :| HoldsModel(ss[i], m) && SubscribesTo(st.resources, m, n);
      SameSubscribers(st.resources, rs, m, n);
    }
  }

  /** The rollback clears resource locks, but the models of the chain were not locked before. */
  lemma RollbackSecured(st: State, deps: seq<Name>, models: seq<Name>)
    requires Identified(st.components, st.resources) && Secured(st)
    requires NoneComponentLocked(st.components, models)
    ensures MarkComponents(st.components, models, false) == st.components
    ensures Secured(State(st.components, MarkResources(st.resources, deps, false), st.sessions))
  {
    hide SubscribesTo, HoldsModel, HoldsResource, ModelsApart;
    var rs := MarkResources(st.resources, deps, false);
    ClearingUnlockedIsIdentity([], st.components, [], models);
    forall n ensures ResourceLocked(rs, n) ==> ResourceLocked(st.resources, n) {
      MarkedResourceLocked(st.resources, deps, false, n);
    }
    forall i, m, n | 0 <= i < |st.sessions| && HoldsModel(st.sessions[i], m) && SubscribesTo(st.resources, m, n)
      ensures SubscribesTo(rs, m, n)
    {
      SameSubscribers(st.resources, rs, m, n);
    }
    KeptAnchors(st.resources, rs, st.sessions);
  }

  /** A read session holds nothing. */
  lemma ReadSecured(st: State, s: Session)
    requires Secured(st) && !WriteLike(s.verb)
    ensures Secured(st.(sessions := st.sessions + [s]))
  {
    hide ChainModels, SubscribesTo, ResourceLocked, ComponentLocked;
    forall n
      ensures HeldResource(st.sessions + [s], n) == HeldResource(st.sessions, n)
      ensures HeldModel(st.sessions + [s], n) == HeldModel(st.sessions, n)
    {
      LastSession(st.sessions, s, n);
    }
  }

  lemma WriteSecured(st: State, id: nat, verb: int, topic: Name, tunnel: Name)
    requires Sound(st) && Secured(st) && WriteLike(verb)
    requires Refusal(st, id, verb, topic) == CODE_OK
    ensures Secured(HandleRequest(st, id, verb, topic, tunnel).0)
  {
    var s := NewSession(st, id, verb, tunnel, RequestSubscribers(st, topic));
    NewSessionNames(st, id, verb, topic, tunnel);
    forall n | n in s.dependency ensures AnchoredBy(st.resources, s, n) {
      NewSessionAnchored(st, id, verb, RequestSubscribers(st, topic), tunnel, n);
    }
    assert UniqueIds(st.sessions + [s]);
    hide Refusal, NewSession, ChainModels, LockNames, UnlockNames, RequestSubscribers, Secured, AnchoredBy, Advance,
        NoDup;
    LockNamesIff(st.resources, st.components, s.dependency, ChainModels(s.chain));
    RollbackClears(st.resources, st.components, s.dependency, ChainModels(s.chain));
    RollbackSecured(st, s.dependency, ChainModels(s.chain));
    var l := LockNames(st.resources, st.components, s.dependency, ChainModels(s.chain));
    if l.rc == RC_SUCCESS {
      TakeSecured(st, s, l.components, l.resources);
      LocksSame(st.resources, st.components, s.dependency, ChainModels(s.chain));
      SameNodesIdentified(st.components, st.resources, l.components, l.resources);
      AdvanceSecured(State(l.components, l.resources, st.sessions + [s]), |st.sessions|);
    }
  }

  lemma RequestSecured(st: State, id: nat, verb: int, topic: Name, tunnel: Name)
    requires Sound(st) && Secured(st)
    ensures Secured(HandleRequest(st, id, verb, topic, tunnel).0)
  {
    hide Secured, ChainModels, LockNames, UnlockNames, Advance;
    if Refusal(st, id, verb, topic) == CODE_OK {
      if WriteLike(verb) {
        WriteSecured(st, id, verb, topic, tunnel);
      } else {
        var s := NewSession(st, id, verb, tunnel, RequestSubscribers(st, topic));
        assert UniqueIds(st.sessions + [s]);
        ReadSecured(st, s);
        AdvanceSecured(st.(sessions := st.sessions + [s]), |st.sessions|);
      }
    }
  }

  // ----- every event, every run

  /** Every event keeps the locks secured, a collision too. */
  lemma NextSecured(st: State, e: Event)
    requires Sound(st) && Enabled(st, e) && Secured(st)
    ensures Secured(Next(st, e))
  {
    hide Secured, HandleRequest, HandleReply, HandleTick, Register, Deregister, WithBuiltin, Identified, Answered;
    match e
    case Connect =>
      BuiltinSecured(st, REGISTER_NAME, REGISTER_TOPIC, REGISTER_WILDCARD);
      BuiltinSecured(WithBuiltin(st, REGISTER_NAME, REGISTER_TOPIC, REGISTER_WILDCARD),
                     DEPENDENCY_NAME, DEPENDENCY_TOPIC, DEPENDENCY_WILDCARD);
    case RegisterEvent(c, ns) => RegisterSecured(st, c, ns);
    case DeregisterEvent(n) => DeregisterSecured(st, n);
    case Request(id, verb, topic, tunnel) => RequestSecured(st, id, verb, topic, tunnel);
    case Reply(id, code) => ReplySecured(st, id, code);
    case Tick(seconds) => TickSecured(st, seconds);
  }

  lemma {:induction false} RunSecured(es: seq<Event>)
    requires EnabledRun(Empty, es)
    ensures Sound(Run(Empty, es)) && Secured(Run(Empty, es))
  {
    hide Next, Enabled, Sound;
    RunSound(es);
    if es != [] {
      var fs := es[..|es| - 1];
      RunPrefix(Empty, es);
      RunSecured(fs);
      NextSecured(Run(Empty, fs), es[|es| - 1]);
    }
  }

  // ----- what follows

  /** Over all runs a model is locked if and only if a write session in flight holds it, and then just one does. */
  lemma ModelLocksHaveOneOwner(es: seq<Event>, n: Name)
    requires EnabledRun(Empty, es)
    ensures var st := Run(Empty, es);
            && (ComponentLocked(st.components, n)
                <==> exists i :: 0 <= i < |st.sessions| && HoldsModel(st.sessions[i], n))
            && forall i, j :: 0 <= i < j < |st.sessions| && HoldsModel(st.sessions[i], n)
                ==> !HoldsModel(st.sessions[j], n)
  {
    hide Run, ComponentLocked, HoldsModel, Sound;
    RunSecured(es);
    assert ComponentLocked(Run(Empty, es).components, n) <==> HeldModel(Run(Empty, es).sessions, n);
  }

  /** In every reachable state the release of a session's names runs to its end and clears them all. */
  lemma ReleaseIsComplete(es: seq<Event>, i: nat)
    requires EnabledRun(Empty, es)
    requires i < |Run(Empty, es).sessions| && WriteLike(Run(Empty, es).sessions[i].verb)
    ensures var st := Run(Empty, es);
            var s := st.sessions[i];
            UnlockNames(st.resources, st.components, s.dependency, ChainModels(s.chain))
            == Locks(MarkResources(st.resources, s.dependency, false),
                     MarkComponents(st.components, ChainModels(s.chain), false), RC_SUCCESS)
  {
    hide Run, Secured, UnlockNames, MarkResources, MarkComponents, ChainModels;
    var st := Run(Empty, es);
    RunSecured(es);
    HeldAreRegistered(st, i);
    ReleaseRuns(st.resources, st.components, st.sessions[i]);
  }

  /** In every reachable state the names that sessions in flight hold are registered. */
  lemma HeldStayRegistered(es: seq<Event>, i: nat, n: Name)
    requires EnabledRun(Empty, es) && i < |Run(Empty, es).sessions|
    ensures var st := Run(Empty, es);
            && (HoldsResource(st.sessions[i], n) ==> HasResource(st.resources, n))
            && (HoldsModel(st.sessions[i], n) ==> HasComponent(st.components, n))
  {
    hide Run, Secured, ChainModels, HasResource, HasComponent;
    RunSecured(es);
    if WriteLike(Run(Empty, es).sessions[i].verb) { HeldAreRegistered(Run(Empty, es), i); }
  }

  /** In every reachable state without a write session in flight, every lock bit is clear: locks recover. */
  lemma AllReleased(es: seq<Event>)
    requires EnabledRun(Empty, es)
    requires forall i :: 0 <= i < |Run(Empty, es).sessions| ==> !WriteLike(Run(Empty, es).sessions[i].verb)
    ensures var st := Run(Empty, es);
            && (forall i :: 0 <= i < |st.components| ==> !st.components[i].lock)
            && (forall i :: 0 <= i < |st.resources| ==> !st.resources[i].lock)
            && Owned(st)
  {
    hide Run;
    var st := Run(Empty, es);
    RunSecured(es);
    forall i | 0 <= i < |st.components| ensures !st.components[i].lock {
      assert FindComponent(st.components, st.components[i].name) == i;
      assert !HeldModel(st.sessions, st.components[i].name);
    }
    forall i | 0 <= i < |st.resources| ensures !st.resources[i].lock {
      assert FindResource(st.resources, st.resources[i].name) == i;
      assert !HeldResource(st.sessions, st.resources[i].name);
    }
  }

  /** In every reachable state each step of a write session reaches each of its models, on a tunnel of its own. */
  lemma StepReachesEveryModel(es: seq<Event>, i: nat, k: nat)
    requires EnabledRun(Empty, es)
    requires i < |Run(Empty, es).sessions| && WriteLike(Run(Empty, es).sessions[i].verb)
    requires k < |Run(Empty, es).sessions[i].chain|
    ensures var st := Run(Empty, es);
            var ts := StepTunnels(st.components, st.sessions[i].chain[k].models);
            NoDup(ts) && None !in ts
  {
    hide Run;
    var st := Run(Empty, es);
    var s, cs := st.sessions[i], st.components;
    var ms := s.chain[k].models;
    RunSecured(es);
    HeldAreRegistered(st, i);
    assert LevelModels(s.chain)[k] == ms;
    forall a | 0 <= a < |ms| ensures HasComponent(cs, ms[a]) { ConcatMember(LevelModels(s.chain), ms[a]); }
    LevelOfDistinct(LevelModels(s.chain), k);
    forall a, b | 0 <= a < b < |ms| ensures StepTunnels(cs, ms)[a] != StepTunnels(cs, ms)[b] {
      assert ms[a] != ms[b];
      var x, y := FindComponent(cs, ms[a]), FindComponent(cs, ms[b]);
      assert cs[x].tunnel != cs[y].tunnel;
    }
  }

  lemma {:induction false} LevelOfDistinct<T>(ss: seq<seq<T>>, k: nat)
    requires NoDup(Concat(ss)) && k < |ss|
    ensures NoDup(ss[k])
  {
    var n := |ss| - 1;
    var before := Concat(ss[..n]);
    assert Concat(ss) == before + ss[n];
    if k == n {
      forall i, j | 0 <= i < j < |ss[n]| ensures ss[n][i] != ss[n][j] {
        assert Concat(ss)[|before| + i] == ss[n][i] && Concat(ss)[|before| + j] == ss[n][j];
      }
    } else {
      forall i, j | 0 <= i < j < |before| ensures before[i] != before[j] {
        assert Concat(ss)[i] == before[i] && Concat(ss)[j] == before[j];
      }
      LevelOfDistinct(ss[..n], k);
    }
  }
}
