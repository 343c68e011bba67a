/**
 * Four events after which a session is stuck. A component that is not a model hooks a model; a write to
 * the model's resource builds a chain whose second level is empty; the model's good reply takes the
 * session there.
 */
module StuckSession {
  import opened Lists
  import opened Entities
  import opened TopicLookup
  import opened HookWalk
  import opened Locking
  import opened Registry
  import opened Protocol
  import opened Soundness
  import opened Progress
  import opened Endings
  import opened Witness

  /** A model `m` on the resource `t`, and another component `v`, on `u`, that hooks it. */
  datatype Hooked = Hooked(m: Component, v: Component, t: Name, u: Name) {
    ghost predicate Valid() {
      && t != u && Plain(t) && Plain(u)
      && m.name != v.name && m.tunnel != v.tunnel
      && m.role == ROLE_MODEL && m.hooks == [] && v.role != ROLE_MODEL && v.hooks == [m.name]
      && forall c :: c in [m, v] ==> !c.lock && GeneratedTunnel(c.tunnel)
    }

    function Components(locked: bool): seq<Component> { [m.(lock := locked), v] }

    function Resources(locked: bool): seq<Resource> { [Resource(t, [m.name], locked), Resource(u, [v.name], false)] }

    function Chain(): seq<Level> { [Level([m.name], [m.ttl]), Level([], [])] }

    function Asked(verb: int): Session {
      Session(1, verb, "", [t], Chain(), if v.role == ROLE_VIEW then [v.name] else [], [], 0, 0)
    }

    function InFlight(verb: int): Session { Asked(verb).(step := 1, wait := 1) }

    function First(): State { State([m], [Resource(t, [m.name], false)], []) }

    function Idle(): State { State(Components(false), Resources(false), []) }

    function Writing(verb: int): State { State(Components(true), Resources(true), [InFlight(verb)]) }

    function Events(verb: int): seq<Event> {
      [RegisterEvent(m, [t]), RegisterEvent(v, [u]), Request(1, verb, t, ""), Reply(1, CODE_OK)]
    }
  }

  lemma AppendOne(rs: seq<Resource>, x: Name, c: Name)
    requires forall j :: 0 <= j < |rs| ==> rs[j].name != x
    ensures AppendToAll(rs, [x], c) == rs + [Resource(x, [c], false)]
  {
    assert [x][..0] == [];
    assert AppendToAll(rs, [], c) == rs;
    AppendNewName(rs, x, c);
  }

  lemma Registrations(s: Hooked)
    requires s.Valid()
    ensures Next(Empty, s.Events(1)[0]) == s.First() && Next(s.First(), s.Events(1)[1]) == s.Idle()
    ensures Enabled(Empty, s.Events(1)[0]) && Enabled(s.First(), s.Events(1)[1])
  {
    hide AppendToAll;
    assert s.m in [s.m, s.v] && s.v in [s.m, s.v];
    AppendOne([], s.t, s.m.name);
    AppendOne(s.First().resources, s.u, s.v.name);
    FindsComponent([s.m], 1, s.v.name);
    assert !AnyResourceLocked([], [s.t]) && !AnyResourceLocked(s.First().resources, [s.u]);
  }

  // ----- the walk: the model, then a level without any

  lemma Rounds(s: Hooked)
    requires s.Valid()
    ensures var (cs, m, v) := (s.Components(false), [s.m.name], [s.v.name]);
            && Models(cs, m) == m && Ttls(cs, m) == [s.m.ttl] && Views(cs, m) == [] && NextLevel(cs, m) == v
            && Models(cs, v) == [] && Ttls(cs, v) == [] && NextLevel(cs, v) == []
            && Views(cs, v) == (if s.v.role == ROLE_VIEW then v else [])
            && !AnyBusy(cs, m) && !AnyBusy(cs, v)
  {
    var cs, m, v := s.Components(false), [s.m.name], [s.v.name];
    RolesDiffer();
    FindsComponent(cs, 0, s.m.name);
    FindsComponent(cs, 1, s.v.name);
    assert m[..0] == [] && v[..0] == [];
    assert Models(cs, []) == Views(cs, []) == NextLevel(cs, []) == [] && Ttls(cs, []) == [];
    assert cs[..1][..0] == [] && HookedBy([], s.m.name) == [];
    assert HookedBy(cs[..1], s.m.name) == [] && HookedBy(cs, s.m.name) == v;
  }

  lemma Walk(s: Hooked)
    requires s.Valid()
    ensures var (cs, rs, m) := (s.Components(false), s.Resources(false), [s.m.name]);
            && Ends(cs, m) && Depth(cs, m) == 2 && Levels(cs, m, 2) == s.Chain()
            && WalkViews(cs, m, 2) == (if s.v.role == ROLE_VIEW then [s.v.name] else [])
            && Dependencies(cs, rs, m, 2) == [s.t] && !MeetsLockWithin(cs, m, 2)
  {
    hide Models, Ttls, Views, NextLevel, AnyBusy, AddDependencies;
    var cs, rs, m, v := s.Components(false), s.Resources(false), [s.m.name], [s.v.name];
    Rounds(s);
    WalkNeeds(s);
    assert Front(cs, m, 0) == m;
    assert Front(cs, m, 1) == v && Front(cs, m, 2) == [];
    assert Levels(cs, m, 0) == [] && WalkViews(cs, m, 0) == [] && Dependencies(cs, rs, m, 0) == [];
    assert Levels(cs, m, 1) == [Level(m, [s.m.ttl])] && WalkViews(cs, m, 1) == []
        && Dependencies(cs, rs, m, 1) == [s.t];
  }

  lemma WalkNeeds(s: Hooked)
    requires s.Valid()
    ensures var (cs, rs) := (s.Components(false), s.Resources(false));
            && AddDependencies(cs, rs, [s.m.name], []) == [s.t]
            && AddDependencies(cs, rs, [s.v.name], [s.t]) == [s.t]
  {
    var cs, rs, c := s.Components(false), s.Resources(false), s.m.name;
    FindsComponent(cs, 0, s.m.name);
    FindsComponent(cs, 1, s.v.name);
    assert rs[..1][..0] == [] && [s.t][..0] == [] && [s.m.name][..0] == [] && [s.v.name][..0] == [];
    assert SubscribedBy([], c) == [] && SubscribedBy(rs[..1], c) == [s.t] && SubscribedBy(rs, c) == [s.t];
    assert AppendNew([], [s.t]) == [s.t];
    assert AddDependencies(cs, rs, [], []) == [] && AddDependencies(cs, rs, [], [s.t]) == [s.t];
  }

  // ----- the write

  lemma Asks(s: Hooked, verb: int)
    requires s.Valid() && WriteLike(verb)
    ensures NewSession(s.Idle(), 1, verb, "", RequestSubscribers(s.Idle(), s.t)) == s.Asked(verb)
    ensures Refusal(s.Idle(), 1, verb, s.t) == CODE_OK && Answered(s.Idle(), 1, verb, s.t)
  {
    hide MatchedNodes, SubscribersOf, Front, Depth, Levels, WalkViews, Dependencies, MeetsLockWithin;
    var rs := s.Resources(false);
    MatchedOne(rs, 0, s.t);
    SubscribersOfOne(rs[0]);
    Walk(s);
    Rounds(s);
    assert FindSession([], 1) == 0;
  }

  lemma TakesLocks(s: Hooked)
    requires s.Valid()
    ensures ChainModels(s.Chain()) == [s.m.name]
    ensures LockNames(s.Resources(false), s.Components(false), [s.t], [s.m.name])
         == Locks(s.Resources(true), s.Components(true), RC_SUCCESS)
  {
    hide LockComponents;
    var rs, cs := s.Resources(false), s.Components(false);
    var ms := LevelModels(s.Chain());
    assert ms == [[s.m.name], []] && ms[..1] == [[s.m.name]] && ms[..1][..0] == [];
    assert Concat(ms[..1]) == Concat(ms[..1][..0]) + [s.m.name] && Concat(ms) == Concat(ms[..1]) + [];
    assert s.m in [s.m, s.v];
    FindsResource(rs, 0, s.t);
    FindsComponent(cs, 0, s.m.name);
    OneComponent(cs, s.m.name);
    assert [s.t][1..] == [] && rs[0 := rs[0].(lock := true)] == s.Resources(true);
    assert cs[0 := cs[0].(lock := true)] == s.Components(true);
    assert LockResources(s.Resources(true), []) == (s.Resources(true), RC_SUCCESS);
  }

  lemma Writes(s: Hooked, verb: int)
    requires s.Valid() && WriteLike(verb)
    ensures HandleRequest(s.Idle(), 1, verb, s.t, "") == (s.Writing(verb), CODE_OK)
  {
    hide NewSession, Refusal, LockNames, ChainModels, RequestSubscribers, Answered;
    Asks(s, verb);
    TakesLocks(s);
    assert s.Idle().sessions + [s.Asked(verb)] == [s.Asked(verb)];
    assert [s.Asked(verb)][0 := s.InFlight(verb)] == [s.InFlight(verb)];
  }

  lemma Happens(s: Hooked, verb: int)
    requires s.Valid() && WriteLike(verb)
    ensures EnabledRun(Empty, s.Events(verb)) && Sound(s.Writing(verb))
    ensures Run(Empty, s.Events(verb)) == HandleReply(s.Writing(verb), 1, CODE_OK)
  {
    hide HandleRequest, HandleReply, Run, Register, Sound, Answered, Refusal, NewSession, RequestSubscribers;
    var es, st, end := s.Events(verb), s.Writing(verb), HandleReply(s.Writing(verb), 1, CODE_OK);
    Registrations(s);
    Asks(s, verb);
    Writes(s, verb);
    RunSteps(es, [Empty, s.First(), s.Idle(), st, end]);
    assert es[..4] == es && es[..|es| - 1] == es[..3];
    RunPrefix(Empty, es);
    RunSound(es[..3]);
  }

  /**
   * In every such setting the four events can happen, and then the session is stuck: it waits at its
   * second level, for no model at all. No bound holds for the replies and ticks that it outlives.
   */
  lemma SessionGetsStuck(s: Hooked, verb: int)
    requires s.Valid() && WriteLike(verb)
    ensures EnabledRun(Empty, s.Events(verb))
    ensures StuckAt(Run(Empty, s.Events(verb)), 1, 2, s.Chain(), 0)
    ensures forall n :: !EndsWithin(s.Writing(verb), 1, n)
  {
    hide HandleReply, Run, Sound, StuckAt, EnabledRun, EndsWithin;
    var st := s.Writing(verb);
    Happens(s, verb);
    assert FindSession(st.sessions, 1) == 0;
    EmptyLevelReached(st, 1);
    forall n: nat ensures !EndsWithin(st, 1, n) { EmptyAheadNeverEnds(st, 1, 1, n); }
  }
}
