/**
 * What every event keeps: names, tunnels and ids identify the nodes of the three lists, and every
 * session waits at one of its levels.
 */
module Soundness {
  import opened Lists
  import opened Entities
  import opened TopicLookup
  import opened HookWalk
  import opened Locking
  import opened Registry
  import opened Protocol

  // ----- names, tunnels and ids identify

  ghost predicate UniqueIds(ss: seq<Session>) {
    forall i, j :: 0 <= i < j < |ss| ==> ss[i].id != ss[j].id
  }

  ghost predicate WellShaped(s: Session) {
    && AtLevel(s)
    && forall k :: 0 <= k < |s.chain| ==> |s.chain[k].ttls| == |s.chain[k].models|
  }

  /** Names, tunnels and ids are unique, and every session waits at one of its levels. */
  ghost predicate Sound(st: State) {
    && Identified(st.components, st.resources)
    && UniqueIds(st.sessions)
    && forall i :: 0 <= i < |st.sessions| ==> WellShaped(st.sessions[i])
  }

  /** Two states whose nodes differ in nothing but their locks. */
  ghost predicate SameNodes(cs: seq<Component>, rs: seq<Resource>, cs': seq<Component>, rs': seq<Resource>) {
    && |cs'| == |cs| && |rs'| == |rs|
    && (forall i :: 0 <= i < |cs| ==> cs'[i] == cs[i].(lock := cs'[i].lock))
    && (forall i :: 0 <= i < |rs| ==> rs'[i] == rs[i].(lock := rs'[i].lock))
  }

  lemma SameNodesIdentified(cs: seq<Component>, rs: seq<Resource>, cs': seq<Component>, rs': seq<Resource>)
    requires SameNodes(cs, rs, cs', rs')
    ensures Identified(cs, rs) ==> Identified(cs', rs')
    ensures Linked(cs, rs) ==> Linked(cs', rs')
    ensures forall n :: FindComponent(cs', n) == FindComponent(cs, n)
    ensures forall n :: FindResource(rs', n) == FindResource(rs, n)
  {
    forall n ensures FindComponent(cs', n) == FindComponent(cs, n) {
      assert forall i :: 0 <= i < |cs| ==> cs'[i].name == cs[i].name;
    }
    forall n ensures FindResource(rs', n) == FindResource(rs, n) {
      assert forall i :: 0 <= i < |rs| ==> rs'[i].name == rs[i].name;
    }
    if Identified(cs, rs) {
      forall i | 0 <= i < |cs'| ensures TunnelForm(cs'[i]) { assert TunnelForm(cs[i]); }
    }
    if Linked(cs, rs) {
      forall i | 0 <= i < |rs'| ensures LinkedResource(cs', rs'[i]) { assert LinkedResource(cs, rs[i]); }
    }
  }

  lemma {:induction false} UnlockResourcesSame(rs: seq<Resource>, ns: seq<Name>)
    ensures SameNodes([], rs, [], UnlockResources(rs, ns).0)
    decreases ns
  {
    if ns != [] && UnlockResource(rs, ns[0]).1 == RC_SUCCESS {
      UnlockResourcesSame(UnlockResource(rs, ns[0]).0, ns[1..]);
    }
  }

  lemma {:induction false} UnlockComponentsSame(cs: seq<Component>, ns: seq<Name>)
    ensures SameNodes(cs, [], UnlockComponents(cs, ns).0, [])
    decreases ns
  {
    if ns != [] && UnlockComponent(cs, ns[0]).1 == RC_SUCCESS {
      UnlockComponentsSame(UnlockComponent(cs, ns[0]).0, ns[1..]);
    }
  }

  lemma {:induction false} LockResourcesSame(rs: seq<Resource>, ns: seq<Name>)
    ensures SameNodes([], rs, [], LockResources(rs, ns).0)
    decreases ns
  {
    if ns != [] && LockResource(rs, ns[0]).1 == RC_SUCCESS {
      LockResourcesSame(LockResource(rs, ns[0]).0, ns[1..]);
    }
  }

  lemma {:induction false} LockComponentsSame(cs: seq<Component>, ns: seq<Name>)
    ensures SameNodes(cs, [], LockComponents(cs, ns).0, [])
    decreases ns
  {
    if ns != [] && LockComponent(cs, ns[0]).1 == RC_SUCCESS {
      LockComponentsSame(LockComponent(cs, ns[0]).0, ns[1..]);
    }
  }

  lemma LocksSame(rs: seq<Resource>, cs: seq<Component>, deps: seq<Name>, models: seq<Name>)
    ensures var l := LockNames(rs, cs, deps, models); SameNodes(cs, rs, l.components, l.resources)
    ensures var l := UnlockNames(rs, cs, deps, models); SameNodes(cs, rs, l.components, l.resources)
  {
    LockResourcesSame(rs, deps);
    UnlockResourcesSame(rs, deps);
    LockComponentsSame(cs, models);
    UnlockComponentsSame(cs, models);
  }

  /** The nodes keep everything but their locks, and the sessions left are sound. */
  ghost predicate SoundStep(st: State, st': State) {
    && SameNodes(st.components, st.resources, st'.components, st'.resources)
    && UniqueIds(st'.sessions)
    && forall i :: 0 <= i < |st'.sessions| ==> WellShaped(st'.sessions[i])
  }

  ghost predicate ShapedButStep(s: Session) {
    && 1 <= s.step && forall k :: 0 <= k < |s.chain| ==> |s.chain[k].ttls| == |s.chain[k].models|
  }

  lemma StopSound(st: State, i: nat)
    requires i < |st.sessions| && UniqueIds(st.sessions)
    requires forall j :: 0 <= j < |st.sessions| && j != i ==> WellShaped(st.sessions[j])
    ensures SoundStep(st, Stop(st, i))
    ensures FindSession(st.sessions, st.sessions[i].id) == i
    ensures Stop(st, i).sessions == RemoveAt(st.sessions, i)
  {
    var s := st.sessions[i];
    LocksSame(st.resources, st.components, s.dependency, ChainModels(s.chain));
    assert FindSession(st.sessions, s.id) == i;
  }

  lemma AdvanceSound(st: State, i: nat)
    requires i < |st.sessions| && UniqueIds(st.sessions)
    requires forall j :: 0 <= j < |st.sessions| && j != i ==> WellShaped(st.sessions[j])
    requires ShapedButStep(st.sessions[i].(step := st.sessions[i].step + 1))
    ensures SoundStep(st, Advance(st, i))
  {
    var s := st.sessions[i];
    if s.step + 1 > |s.chain| { StopSound(st.(sessions := st.sessions[i := s.(step := s.step + 1)]), i); }
  }

  lemma {:induction false} StopAllSound(st: State, ids: seq<nat>)
    requires UniqueIds(st.sessions)
    requires forall j :: 0 <= j < |st.sessions| ==> WellShaped(st.sessions[j])
    ensures SoundStep(st, StopAll(st, ids))
    decreases ids
  {
    if ids != [] {
      var i := FindSession(st.sessions, ids[0]);
      if i < |st.sessions| {
        StopSound(st, i);
        StopAllSound(Stop(st, i), ids[1..]);
      } else {
        StopAllSound(st, ids[1..]);
      }
    }
  }

  lemma {:induction false} LevelsShaped(cs: seq<Component>, subs: seq<Name>, d: nat)
    ensures forall k :: 0 <= k < d ==> |Levels(cs, subs, d)[k].ttls| == |Levels(cs, subs, d)[k].models|
  {
    if d > 0 { LevelsShaped(cs, subs, d - 1); }
  }

  lemma RequestSound(st: State, id: nat, verb: int, topic: Name, tunnel: Name)
    requires Sound(st)
    ensures SoundStep(st, HandleRequest(st, id, verb, topic, tunnel).0)
  {
    hide LockNames, UnlockNames, Advance, Depth, Levels, ChainModels, Dependencies, WalkViews, MatchedNodes;
    if Refusal(st, id, verb, topic) == CODE_OK {
      var subs := RequestSubscribers(st, topic);
      var s := NewSession(st, id, verb, tunnel, subs);
      LevelsShaped(st.components, subs, LevelsToWalk(st.components, subs, verb));
      LocksSame(st.resources, st.components, s.dependency, ChainModels(s.chain));
      var l := LockNames(st.resources, st.components, s.dependency, ChainModels(s.chain));
      LocksSame(l.resources, l.components, s.dependency, ChainModels(s.chain));
      var st1 := State(l.components, l.resources, st.sessions + [s]);
      AdvanceSound(st1, |st.sessions|);
      AdvanceSound(st.(sessions := st.sessions + [s]), |st.sessions|);
    }
  }

  lemma ReplySound(st: State, id: nat, code: int)
    requires Sound(st)
    ensures SoundStep(st, HandleReply(st, id, code))
  {
    var i := FindSession(st.sessions, id);
    if i < |st.sessions| {
      var s := st.sessions[i].(results := st.sessions[i].results + [code]);
      assert WellShaped(st.sessions[i]);
      var s' := s.(wait := DecUint32(s.wait));
      AdvanceSound(st.(sessions := st.sessions[i := s']), i);
      StopSound(st.(sessions := st.sessions[i := s]), i);
    }
  }

  lemma TickSound(st: State, seconds: nat)
    requires Sound(st)
    ensures SoundStep(st, HandleTick(st, seconds))
  {
    var st1 := st.(sessions := AgedSessions(st.sessions, seconds));
    forall i | 0 <= i < |st.sessions| ensures WellShaped(st1.sessions[i]) && st1.sessions[i].id == st.sessions[i].id {
      assert WellShaped(st.sessions[i]);
    }
    StopAllSound(st1, ExpiredIds(st.sessions, seconds));
  }

  lemma BuiltinSound(st: State, name: Name, topic: Name, wildcard: Name)
    requires Identified(st.components, st.resources)
    requires TunnelForm(Component(name, topic, ROLE_MODEL, [], BUILTIN_TTL, false))
    requires forall c: Component :: TunnelForm(c) && c.tunnel == topic ==> c.name == name
    ensures var st' := WithBuiltin(st, name, topic, wildcard); Identified(st'.components, st'.resources)
  {
    if !HasComponent(st.components, name) {
      AppendSubscriberUnique(st.resources, topic, name);
      AppendSubscriberUnique(AppendSubscriber(st.resources, topic, name), wildcard, name);
      forall i | 0 <= i < |st.components| ensures st.components[i].tunnel != topic {
        assert TunnelForm(st.components[i]);
      }
    }
  }

  lemma TopicsDiffer()
    ensures REGISTER_TOPIC != DEPENDENCY_TOPIC && REGISTER_NAME != DEPENDENCY_NAME
    ensures REGISTER_TOPIC != "" && REGISTER_TOPIC[0] == '/' && DEPENDENCY_TOPIC != "" && DEPENDENCY_TOPIC[0] == '/'
  {
    assert REGISTER_TOPIC[12] == 'r' && DEPENDENCY_TOPIC[12] == 'r';
    assert |REGISTER_TOPIC| == 24 && |DEPENDENCY_TOPIC| == 31;
    assert |REGISTER_NAME| == 12 && |DEPENDENCY_NAME| == 10;
  }

  /** Every event keeps names, tunnels and ids unique and every session at a level. */
  lemma NextSound(st: State, e: Event)
    requires Sound(st) && Enabled(st, e)
    ensures Sound(Next(st, e))
  {
    TopicsDiffer();
    match e
    case Connect =>
      BuiltinSound(st, REGISTER_NAME, REGISTER_TOPIC, REGISTER_WILDCARD);
      BuiltinSound(WithBuiltin(st, REGISTER_NAME, REGISTER_TOPIC, REGISTER_WILDCARD),
                   DEPENDENCY_NAME, DEPENDENCY_TOPIC, DEPENDENCY_WILDCARD);
    case RegisterEvent(c, ns) =>
      if Register(st.components, st.resources, c, ns).code == CODE_OK {
        RegisterKeepsIdentified(st.components, st.resources, c, ns);
      }
    case DeregisterEvent(n) => DeregisterKeepsIdentified(st.components, st.resources, n);
    case Request(id, verb, topic, tunnel) =>
      RequestSound(st, id, verb, topic, tunnel);
      SameNodesIdentified(st.components, st.resources, Next(st, e).components, Next(st, e).resources);
    case Reply(id, code) =>
      ReplySound(st, id, code);
      SameNodesIdentified(st.components, st.resources, Next(st, e).components, Next(st, e).resources);
    case Tick(seconds) =>
      TickSound(st, seconds);
      SameNodesIdentified(st.components, st.resources, Next(st, e).components, Next(st, e).resources);
  }

  /** Connecting again changes nothing: the built-in models are registered once. */
  lemma ReconnectIsHarmless(st: State)
    ensures HandleConnect(HandleConnect(st)) == HandleConnect(st)
  {
    var one := WithBuiltin(st, REGISTER_NAME, REGISTER_TOPIC, REGISTER_WILDCARD);
    BuiltinIsThere(st, REGISTER_NAME, REGISTER_TOPIC, REGISTER_WILDCARD, REGISTER_NAME);
    BuiltinIsThere(one, DEPENDENCY_NAME, DEPENDENCY_TOPIC, DEPENDENCY_WILDCARD, REGISTER_NAME);
    BuiltinIsThere(one, DEPENDENCY_NAME, DEPENDENCY_TOPIC, DEPENDENCY_WILDCARD, DEPENDENCY_NAME);
  }

  lemma BuiltinIsThere(st: State, name: Name, topic: Name, wildcard: Name, n: Name)
    ensures HasComponent(WithBuiltin(st, name, topic, wildcard).components, n)
        <==> n == name || HasComponent(st.components, n)
  {
    var cs, cs' := st.components, WithBuiltin(st, name, topic, wildcard).components;
    if !HasComponent(cs, name) {
      assert cs'[|cs|].name == name;
      if HasComponent(cs, n) { assert cs'[FindComponent(cs, n)].name == n; }
      if HasComponent(cs', n) { assert FindComponent(cs', n) < |cs| ==> cs[FindComponent(cs', n)].name == n; }
    }
  }

  lemma {:induction false} RunSound(es: seq<Event>)
    requires EnabledRun(Empty, es)
    ensures Sound(Run(Empty, es))
  {
    if es != [] {
      RunPrefix(Empty, es);
      RunSound(es[..|es| - 1]);
      NextSound(Run(Empty, es[..|es| - 1]), es[|es| - 1]);
    }
  }
}
