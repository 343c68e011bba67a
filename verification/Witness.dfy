/**
 * Four events after which a lock is lost. Two models subscribe a common resource, each next to one
 * of its own. A write to the first one's resource is in flight when a write to the second one's
 * arrives: that one is refused at the common resource, and its rollback unlocks it under the first.
 */
module Witness {
  import opened Lists
  import opened Entities
  import opened TopicMatch
  import opened TopicLookup
  import opened HookWalk
  import opened Locking
  import opened Registry
  import opened Protocol
  import opened Ownership

  /** Two models `m` and `n`, their own resources `a` and `b`, and the common one `r`. */
  datatype Setting = Setting(m: Component, n: Component, a: Name, b: Name, r: Name) {
    ghost predicate Valid() {
      && a != b && a != r && b != r
      && Plain(a) && Plain(b) && Plain(r)
      && m.name != n.name && m.tunnel != n.tunnel
      && (forall c :: c in [m, n] ==> c.role == ROLE_MODEL && c.hooks == [] && !c.lock && GeneratedTunnel(c.tunnel))
    }

    function Components(locked: bool): seq<Component> { [m.(lock := locked), n] }

    function Resources(la: bool, lr: bool, lb: bool): seq<Resource> {
      [Resource(a, [m.name], la), Resource(r, [m.name, n.name], lr), Resource(b, [n.name], lb)]
    }

    function AfterFirst(): seq<Resource> { [Resource(a, [m.name], false), Resource(r, [m.name], false)] }

    function Idle(): State { State(Components(false), Resources(false, false, false), []) }

    function Writing(verb: int): State { State(Components(true), Resources(true, true, false), [InFlight(verb)]) }

    function RolledBack(verb: int): State { State(Components(true), Resources(true, false, false), [InFlight(verb)]) }

    function Both(verb: int): State {
      State([m.(lock := true), n.(lock := true)], Resources(true, true, true), [InFlight(verb), Retried(verb)])
    }

    /** Two registrations, a write to each model's own resource, and the second write once more. */
    function Events(verb: int): seq<Event> {
      [RegisterEvent(m, [a, r]), RegisterEvent(n, [b, r]),
       Request(1, verb, a, ""), Request(2, verb, b, ""), Request(2, verb, b, "")]
    }

    /** The first write, waiting for `m`. */
    function InFlight(verb: int): Session {
      Session(1, verb, "", [a, r], [Level([m.name], [m.ttl])], [], [], 1, 1)
    }

    /** The second write, once it is admitted. */
    function Retried(verb: int): Session {
      Session(2, verb, "", [r, b], [Level([n.name], [n.ttl])], [], [], 1, 1)
    }
  }

  /** A topic without wildcards and queries. */
  predicate Plain(t: Name) { '+' !in t && '#' !in t && '?' !in t }

  lemma Registered(s: Setting)
    requires s.Valid()
    ensures AppendToAll([], [s.a, s.r], s.m.name) == s.AfterFirst()
    ensures AppendToAll(s.AfterFirst(), [s.b, s.r], s.n.name) == s.Resources(false, false, false)
  {
    var c, d, first := s.m.name, s.n.name, s.AfterFirst();
    AppendTwo([], s.a, s.r, c);
    AppendTwo(first, s.b, s.r, d);
    AppendNewName([], s.a, c);
    AppendNewName([Resource(s.a, [c], false)], s.r, c);
    AppendNewName(first, s.b, d);
    FindsResource(first + [Resource(s.b, [d], false)], 1, s.r);
    assert [c] + [d] == [c, d];
  }

  lemma AppendNewName(rs: seq<Resource>, x: Name, c: Name)
    requires forall j :: 0 <= j < |rs| ==> rs[j].name != x
    ensures AppendSubscriber(rs, x, c) == rs + [Resource(x, [c], false)]
  {
  }

  lemma AppendTwo(rs: seq<Resource>, x: Name, y: Name, c: Name)
    ensures AppendToAll(rs, [x, y], c) == AppendSubscriber(AppendSubscriber(rs, x, c), y, c)
  {
    assert [x, y][..1] == [x] && [x][..0] == [];
    assert AppendToAll(rs, [x], c) == AppendSubscriber(AppendToAll(rs, [], c), x, c);
  }

  lemma FindsResource(rs: seq<Resource>, i: nat, n: Name)
    requires i <= |rs| && (i < |rs| ==> rs[i].name == n) && forall j :: 0 <= j < i ==> rs[j].name != n
    ensures FindResource(rs, n) == i
  {
  }

  lemma FindsComponent(cs: seq<Component>, i: nat, n: Name)
    requires i <= |cs| && (i < |cs| ==> cs[i].name == n) && forall j :: 0 <= j < i ==> cs[j].name != n
    ensures FindComponent(cs, n) == i
  {
  }

  /** Among resources named by plain topics a plain topic finds its own. */
  lemma MatchedOne(rs: seq<Resource>, i: nat, t: Name)
    requires Plain(t) && i < |rs| && rs[i].name == t
    requires forall j :: 0 <= j < |rs| ==> Plain(rs[j].name) && (j != i ==> rs[j].name != t)
    ensures MatchedNodes(rs, t) == [rs[i]]
  {
    WildcardOne(rs, t);
    FindsResource(rs, i, t);
    assert [rs[i]][0].name == t;
  }

  lemma {:induction false} WildcardOne(rs: seq<Resource>, t: Name)
    requires Plain(t) && forall j :: 0 <= j < |rs| ==> Plain(rs[j].name)
    requires forall j, k :: 0 <= j < k < |rs| ==> rs[j].name != t || rs[k].name != t
    ensures WildcardNodes(rs, t) == if HasResource(rs, t) then [rs[FindResource(rs, t)]] else []
  {
    if rs != [] {
      var n := |rs| - 1;
      WildcardOne(rs[..n], t);
      PlainNameMatchesItself(rs[n].name, t);
    }
  }

  lemma SubscribersOfOne(r: Resource)
    ensures SubscribersOf([r]) == r.subscribers
  {
    assert [r][..0] == [];
    assert SubscribersOf([]) == [];
  }

  lemma Subscribed(s: Setting, rs: seq<Resource>)
    requires s.Valid() && |rs| == 3 && rs == s.Resources(rs[0].lock, rs[1].lock, rs[2].lock)
    ensures SubscribedBy(rs, s.m.name) == [s.a, s.r] && SubscribedBy(rs, s.n.name) == [s.r, s.b]
  {
    var two, one := rs[..2], rs[..1];
    assert two[..1] == one && one[..0] == [];
    forall c | c in [s.m.name, s.n.name]
      ensures SubscribedBy(rs, c) == SubscribedBy(two, c) + (if c in rs[2].subscribers then [rs[2].name] else [])
      ensures SubscribedBy(two, c) == SubscribedBy(one, c) + (if c in rs[1].subscribers then [rs[1].name] else [])
      ensures SubscribedBy(one, c) == if c in rs[0].subscribers then [rs[0].name] else []
    {
      assert SubscribedBy(one[..0], c) == [];
    }
    assert s.m.name in [s.m.name, s.n.name] && s.n.name in [s.m.name, s.n.name];
  }

  /** One round of the walk on one model. */
  lemma OneModel(cs: seq<Component>, n: Name)
    requires IsModel(cs, n)
    ensures Models(cs, [n]) == [n] && Ttls(cs, [n]) == [cs[FindComponent(cs, n)].ttl] && Views(cs, [n]) == []
    ensures NextLevel(cs, [n]) == HookedBy(cs, n) && (AnyBusy(cs, [n]) <==> ComponentLocked(cs, n))
  {
    hide HookedBy, FindComponent;
    RolesDiffer();
    assert [n][..0] == [] && [n][0] == n;
    assert Models(cs, []) == Views(cs, []) == NextLevel(cs, []) == [] && Ttls(cs, []) == [];
  }

  lemma {:induction false} NobodyHooks(cs: seq<Component>, n: Name)
    requires forall i :: 0 <= i < |cs| ==> n !in cs[i].hooks
    ensures HookedBy(cs, n) == []
  {
    if cs != [] { NobodyHooks(cs[..|cs| - 1], n); }
  }

  /** The walk from one of the two models is the model alone. */
  lemma OneLevel(s: Setting, locked: bool, i: nat)
    requires s.Valid() && i < 2
    ensures var (cs, c) := (s.Components(locked), s.Components(locked)[i]);
            && FindComponent(cs, c.name) == i && Models(cs, [c.name]) == [c.name] && Ttls(cs, [c.name]) == [c.ttl]
            && Views(cs, [c.name]) == [] && NextLevel(cs, [c.name]) == []
            && (AnyBusy(cs, [c.name]) <==> c.lock)
  {
    hide HookedBy, Models, Ttls, Views, NextLevel, AnyBusy;
    var cs, c := s.Components(locked), s.Components(locked)[i];
    assert s.m in [s.m, s.n] && s.n in [s.m, s.n];
    FindsComponent(cs, i, c.name);
    OneModel(cs, c.name);
    NobodyHooks(cs, c.name);
  }

  lemma RolesDiffer()
    ensures ROLE_MODEL != ROLE_VIEW
  {
    assert ROLE_MODEL[0] == 'm' && ROLE_VIEW[0] == 'v';
  }

  lemma OneLevelWalk(s: Setting, rs: seq<Resource>, locked: bool, i: nat)
    requires s.Valid() && i < 2
    ensures var (cs, c) := (s.Components(locked), s.Components(locked)[i]);
            && Ends(cs, [c.name]) && Depth(cs, [c.name]) == 1
            && Levels(cs, [c.name], 1) == [Level([c.name], [c.ttl])] && WalkViews(cs, [c.name], 1) == []
            && Dependencies(cs, rs, [c.name], 1) == AppendNew([], SubscribedBy(rs, c.name))
            && (MeetsLockWithin(cs, [c.name], 1) <==> c.lock)
  {
    var cs, c := s.Components(locked), s.Components(locked)[i];
    var subs := [c.name];
    OneLevel(s, locked, i);
    assert Front(cs, subs, 0) == subs && Front(cs, subs, 1) == [];
    assert Levels(cs, subs, 0) == [] && WalkViews(cs, subs, 0) == [] && Dependencies(cs, rs, subs, 0) == [];
    assert AddDependencies(cs, rs, subs[..0], []) == [];
  }

  lemma TwoNames(x: Name, y: Name)
    requires x != y
    ensures AppendNew([], [x, y]) == [x, y]
  {
    assert [x, y][..1] == [x] && [x][..0] == [];
    assert AppendNew([], [x]) == [x];
  }

  lemma TwoResources(rs: seq<Resource>, x: Name, y: Name)
    ensures var (rs1, rc1) := LockResource(rs, x);
            LockResources(rs, [x, y]) == if rc1 == RC_SUCCESS then LockResource(rs1, y) else (rs1, rc1)
    ensures var (rs1, rc1) := UnlockResource(rs, x);
            UnlockResources(rs, [x, y]) == if rc1 == RC_SUCCESS then UnlockResource(rs1, y) else (rs1, rc1)
  {
    assert [x, y][1..] == [y] && [y][1..] == [];
    forall rs1: seq<Resource>
      ensures LockResources(rs1, [y]) == LockResource(rs1, y) && UnlockResources(rs1, [y]) == UnlockResource(rs1, y)
    {
      assert LockResources(LockResource(rs1, y).0, []) == (LockResource(rs1, y).0, RC_SUCCESS);
      assert UnlockResources(UnlockResource(rs1, y).0, []) == (UnlockResource(rs1, y).0, RC_SUCCESS);
    }
  }

  lemma OneComponent(cs: seq<Component>, x: Name)
    ensures LockComponents(cs, [x]) == LockComponent(cs, x) && UnlockComponents(cs, [x]) == UnlockComponent(cs, x)
  {
    assert [x][1..] == [];
    assert LockComponents(LockComponent(cs, x).0, []) == (LockComponent(cs, x).0, RC_SUCCESS);
    assert UnlockComponents(UnlockComponent(cs, x).0, []) == (UnlockComponent(cs, x).0, RC_SUCCESS);
  }

  lemma OneChain(n: Name, ttl: int)
    ensures ChainModels([Level([n], [ttl])]) == [n]
  {
    var ms := LevelModels([Level([n], [ttl])]);
    assert ms == [[n]] && ms[..0] == [];
    assert Concat(ms) == Concat(ms[..0]) + [n];
  }

  /** A state of the setting, whatever is locked. */
  ghost predicate Of(s: Setting, st: State) {
    && st.components in [s.Components(false), s.Components(true)]
    && |st.resources| == 3
    && st.resources == s.Resources(st.resources[0].lock, st.resources[1].lock, st.resources[2].lock)
  }

  function Topic(s: Setting, i: nat): Name { if i == 0 then s.a else s.b }

  function Needed(s: Setting, i: nat): seq<Name> { if i == 0 then [s.a, s.r] else [s.r, s.b] }

  lemma AskedSubscribers(s: Setting, st: State, i: nat)
    requires s.Valid() && Of(s, st) && i < 2
    ensures MatchedNodes(st.resources, Topic(s, i)) == [st.resources[2 * i]]
    ensures RequestSubscribers(st, Topic(s, i)) == [st.components[i].name]
  {
    hide MatchedNodes, SubscribersOf;
    MatchedOne(st.resources, 2 * i, Topic(s, i));
    SubscribersOfOne(st.resources[2 * i]);
  }

  lemma AskedWalk(s: Setting, st: State, i: nat)
    requires s.Valid() && Of(s, st) && i < 2
    ensures var (cs, c) := (st.components, st.components[i]);
            && Ends(cs, [c.name]) && Depth(cs, [c.name]) == 1 && Models(cs, [c.name]) == [c.name]
            && Levels(cs, [c.name], 1) == [Level([c.name], [c.ttl])] && WalkViews(cs, [c.name], 1) == []
            && Dependencies(cs, st.resources, [c.name], 1) == Needed(s, i)
            && (MeetsLockWithin(cs, [c.name], 1) <==> c.lock)
  {
    hide Front, Depth, Models, Levels, WalkViews, Dependencies, MeetsLockWithin, AppendNew, SubscribedBy;
    var l := st.components == s.Components(true);
    Subscribed(s, st.resources);
    OneLevel(s, l, i);
    OneLevelWalk(s, st.resources, l, i);
    TwoNames(s.a, s.r);
    TwoNames(s.r, s.b);
  }

  /** What a request on `a` (`i` 0) or `b` (`i` 1) asks for. */
  lemma Asked(s: Setting, st: State, id: nat, verb: int, i: nat)
    requires s.Valid() && WriteLike(verb) && Of(s, st) && i < 2
    ensures var c := st.components[i];
            && Answered(st, id, verb, Topic(s, i))
            && NewSession(st, id, verb, "", RequestSubscribers(st, Topic(s, i))) ==
               Session(id, verb, "", Needed(s, i), [Level([c.name], [c.ttl])], [], [], 0, 0)
            && (FindSession(st.sessions, id) == |st.sessions| && !st.resources[2 * i].lock && !c.lock ==>
                Refusal(st, id, verb, Topic(s, i)) == CODE_OK)
  {
    hide MatchedNodes, RequestSubscribers, SubscribersOf, Front, Depth, Models, Levels, WalkViews, Dependencies,
        MeetsLockWithin;
    AskedSubscribers(s, st, i);
    AskedWalk(s, st, i);
    SubscribersOfOne(st.resources[2 * i]);
  }

  lemma FirstLocks(s: Setting)
    requires s.Valid()
    ensures LockNames(s.Resources(false, false, false), s.Components(false), [s.a, s.r], [s.m.name])
         == Locks(s.Resources(true, true, false), s.Components(true), RC_SUCCESS)
  {
    hide LockResources, LockComponents;
    var rs, cs := s.Resources(false, false, false), s.Components(false);
    assert s.m in [s.m, s.n];
    TwoResources(rs, s.a, s.r);
    FindsResource(rs, 0, s.a);
    FindsResource(s.Resources(true, false, false), 1, s.r);
    OneComponent(cs, s.m.name);
    FindsComponent(cs, 0, s.m.name);
    assert rs[0 := rs[0].(lock := true)] == s.Resources(true, false, false);
    assert cs[0 := s.m.(lock := true)] == s.Components(true);
    assert s.Resources(true, false, false)[1 := Resource(s.r, [s.m.name, s.n.name], true)]
        == s.Resources(true, true, false);
  }

  lemma SecondLocks(s: Setting)
    requires s.Valid()
    ensures var (rs, cs) := (s.Resources(true, true, false), s.Components(true));
            && LockNames(rs, cs, [s.r, s.b], [s.n.name]) == Locks(rs, cs, RC_LOCKED)
            && UnlockNames(rs, cs, [s.r, s.b], [s.n.name]) == Locks(s.Resources(true, false, false), cs, RC_SUCCESS)
  {
    hide LockResources, UnlockResources, UnlockComponents;
    var rs, cs := s.Resources(true, true, false), s.Components(true);
    assert s.n in [s.m, s.n];
    TwoResources(rs, s.r, s.b);
    FindsResource(rs, 1, s.r);
    FindsResource(s.Resources(true, false, false), 2, s.b);
    OneComponent(cs, s.n.name);
    FindsComponent(cs, 1, s.n.name);
    assert rs[1 := rs[1].(lock := false)] == s.Resources(true, false, false);
    assert s.Resources(true, false, false)[2 := Resource(s.b, [s.n.name], false)] == s.Resources(true, false, false);
    assert cs[1 := s.n] == cs;
  }

  lemma RetryLocks(s: Setting)
    requires s.Valid()
    ensures LockNames(s.Resources(true, false, false), s.Components(true), [s.r, s.b], [s.n.name])
         == Locks(s.Resources(true, true, true), [s.m.(lock := true), s.n.(lock := true)], RC_SUCCESS)
  {
    hide LockResources, LockComponents;
    var rs, cs := s.Resources(true, false, false), s.Components(true);
    assert s.n in [s.m, s.n];
    TwoResources(rs, s.r, s.b);
    FindsResource(rs, 1, s.r);
    FindsResource(s.Resources(true, true, false), 2, s.b);
    OneComponent(cs, s.n.name);
    FindsComponent(cs, 1, s.n.name);
    assert rs[1 := rs[1].(lock := true)] == s.Resources(true, true, false);
    assert s.Resources(true, true, false)[2 := Resource(s.b, [s.n.name], true)] == s.Resources(true, true, true);
    assert cs[1 := s.n.(lock := true)] == [s.m.(lock := true), s.n.(lock := true)];
  }

  lemma FirstWrite(s: Setting, verb: int)
    requires s.Valid() && WriteLike(verb)
    ensures HandleRequest(s.Idle(), 1, verb, s.a, "") == (s.Writing(verb), CODE_OK)
  {
    hide NewSession, Refusal, LockNames, ChainModels, RequestSubscribers;
    assert s.m in [s.m, s.n] && FindSession(s.Idle().sessions, 1) == 0;
    Asked(s, s.Idle(), 1, verb, 0);
    FirstLocks(s);
    OneChain(s.m.name, s.m.ttl);
    var n := Session(1, verb, "", [s.a, s.r], [Level([s.m.name], [s.m.ttl])], [], [], 0, 0);
    assert NewSession(s.Idle(), 1, verb, "", RequestSubscribers(s.Idle(), s.a)) == n;
    assert s.Idle().sessions + [n] == [n] && [n][0 := s.InFlight(verb)] == [s.InFlight(verb)];
  }

  lemma SecondWrite(s: Setting, verb: int)
    requires s.Valid() && WriteLike(verb)
    ensures HandleRequest(s.Writing(verb), 2, verb, s.b, "") == (s.RolledBack(verb), CODE_SERVICE_UNAVAILABLE)
  {
    hide NewSession, Refusal, LockNames, UnlockNames, ChainModels, RequestSubscribers;
    assert s.n in [s.m, s.n];
    Asked(s, s.Writing(verb), 2, verb, 1);
    SecondLocks(s);
    OneChain(s.n.name, s.n.ttl);
  }

  lemma RetriedWrite(s: Setting, verb: int)
    requires s.Valid() && WriteLike(verb)
    ensures HandleRequest(s.RolledBack(verb), 2, verb, s.b, "") == (s.Both(verb), CODE_OK)
  {
    hide NewSession, Refusal, LockNames, ChainModels, RequestSubscribers;
    var st := s.RolledBack(verb);
    assert s.n in [s.m, s.n] && FindSession(st.sessions, 2) == 1 by { OtherId(s.InFlight(verb), 2); }
    Asked(s, st, 2, verb, 1);
    RetryLocks(s);
    OneChain(s.n.name, s.n.ttl);
    var n := Session(2, verb, "", [s.r, s.b], [Level([s.n.name], [s.n.ttl])], [], [], 0, 0);
    assert NewSession(st, 2, verb, "", RequestSubscribers(st, s.b)) == n;
    assert (st.sessions + [n])[1 := s.Retried(verb)] == [s.InFlight(verb), s.Retried(verb)];
  }

  lemma OtherId(s: Session, id: nat)
    requires s.id != id
    ensures FindSession([s], id) == 1
  {
    assert [s][..0] == [];
  }

  lemma RegisteredStates(s: Setting)
    requires s.Valid()
    ensures Next(Empty, RegisterEvent(s.m, [s.a, s.r])) == State([s.m], s.AfterFirst(), [])
    ensures Next(State([s.m], s.AfterFirst(), []), RegisterEvent(s.n, [s.b, s.r])) == s.Idle()
  {
    hide AppendToAll;
    Registered(s);
    assert s.m in [s.m, s.n];
    assert !AnyResourceLocked([], [s.a, s.r]) && !AnyResourceLocked(s.AfterFirst(), [s.b, s.r]);
    FindsComponent([s.m], 1, s.n.name);
  }

  lemma EventsEnabled(s: Setting, verb: int)
    requires s.Valid() && WriteLike(verb)
    ensures Enabled(Empty, s.Events(verb)[0]) && Enabled(State([s.m], s.AfterFirst(), []), s.Events(verb)[1])
    ensures Enabled(s.Idle(), s.Events(verb)[2]) && Enabled(s.Writing(verb), s.Events(verb)[3])
    ensures Enabled(s.RolledBack(verb), s.Events(verb)[4])
  {
    hide Register, Answered, NewSession, Refusal, RequestSubscribers;
    assert s.m in [s.m, s.n] && s.n in [s.m, s.n];
    Asked(s, s.Idle(), 1, verb, 0);
    Asked(s, s.Writing(verb), 2, verb, 1);
    Asked(s, s.RolledBack(verb), 2, verb, 1);
  }

  /** A run of known states. */
  ghost predicate Steps(es: seq<Event>, sts: seq<State>) {
    |sts| == |es| + 1 && forall k :: 0 <= k < |es| ==> Enabled(sts[k], es[k]) && sts[k + 1] == Next(sts[k], es[k])
  }

  lemma {:induction false} RunSteps(es: seq<Event>, sts: seq<State>)
    requires Steps(es, sts) && sts[0] == Empty
    ensures EnabledRun(Empty, es) && forall k :: 0 <= k <= |es| ==> Run(Empty, es[..k]) == sts[k]
  {
    hide Next, Enabled;
    assert es[..|es|] == es;
    if es != [] {
      var n := |es| - 1;
      RunSteps(es[..n], sts[..n + 1]);
      assert forall k :: 0 <= k <= n ==> es[..n][..k] == es[..k];
    }
  }

  /**
   * In every such setting the five events can happen. The second write is refused, and then the first
   * session is still in flight while the common resource it holds is unlocked. So the retry of the
   * refused write is admitted: two write sessions in flight hold the common resource.
   */
  lemma LockLost(s: Setting, verb: int)
    requires s.Valid() && WriteLike(verb)
    ensures EnabledRun(Empty, s.Events(verb))
    ensures var (before, after) := (Run(Empty, s.Events(verb)[..3]), Run(Empty, s.Events(verb)[..4]));
            && before.sessions == after.sessions == [s.InFlight(verb)] && HoldsResource(s.InFlight(verb), s.r)
            && ResourceLocked(before.resources, s.r) && !ResourceLocked(after.resources, s.r)
            && Collides(before, s.Events(verb)[3])
    ensures var retried := Run(Empty, s.Events(verb));
            && retried.sessions == [s.InFlight(verb), s.Retried(verb)]
            && HoldsResource(s.InFlight(verb), s.r) && HoldsResource(s.Retried(verb), s.r)
  {
    hide HandleRequest, Enabled, Register, Run, Collides;
    RegisteredStates(s);
    FirstWrite(s, verb);
    SecondWrite(s, verb);
    RetriedWrite(s, verb);
    EventsEnabled(s, verb);
    var es := s.Events(verb);
    RunSteps(es, [Empty, State([s.m], s.AfterFirst(), []), s.Idle(), s.Writing(verb), s.RolledBack(verb),
        s.Both(verb)]);
    assert es[..5] == es;
    FindsResource(s.Writing(verb).resources, 1, s.r);
    FindsResource(s.RolledBack(verb).resources, 1, s.r);
    SecondCollides(s, verb);
  }

  lemma SecondCollides(s: Setting, verb: int)
    requires s.Valid() && WriteLike(verb)
    ensures Collides(s.Writing(verb), s.Events(verb)[3])
  {
    hide NewSession, Refusal, RequestSubscribers, Answered;
    assert s.n in [s.m, s.n] && s.r in [s.r, s.b];
    Asked(s, s.Writing(verb), 2, verb, 1);
    FindsResource(s.Writing(verb).resources, 1, s.r);
    assert ResourceLocked(s.Writing(verb).resources, s.r);
  }

  // ----- an endless walk

  lemma {:induction false} SelfHookStays(cs: seq<Component>, subs: seq<Name>, n: Name, k: nat)
    requires IsModel(cs, n) && n in HookedBy(cs, n) && n in subs
    ensures n in Front(cs, subs, k)
  {
    if k > 0 {
      SelfHookStays(cs, subs, n, k - 1);
      NextLevelMember(cs, Front(cs, subs, k - 1), n);
    }
  }

  /** A topic named in an accepted registration leads to the new component. */
  lemma RegisteredIsSubscribed(st: State, c: Component, ns: seq<Name>, t: Name)
    requires UniqueResources(st.resources) && t in ns && '?' !in t
    requires Register(st.components, st.resources, c, ns).code == CODE_OK
    ensures c.name in RequestSubscribers(Next(st, RegisterEvent(c, ns)), t)
  {
    hide MatchedNodes, SubscribersOf, Accepts;
    var rs := AppendToAll(st.resources, ns, c.name);
    NotAnyLocked(st.resources, ns);
    AppendToAllUnique(st.resources, ns, c.name);
    AppendToAllLookup(st.resources, ns, c.name, t);
    assert Lookup(rs, t).Some? by { assert multiset(ns)[t] > 0; }
    var r := Lookup(rs, t).value;
    assert r.subscribers[|r.subscribers| - 1] == c.name;
    assert r in rs && r.name == t;
    MatchedExactly(rs, t, r);
    SubscribersOfMember(MatchedNodes(rs, t), c.name);
  }

  /**
   * Nothing stops a model from registering a hook on itself. A write on one of its topics then has no
   * answer if and only if nothing refuses it before its chain is built and no locked model is met: the
   * loop that builds the chain goes on for ever.
   */
  lemma SelfHookHangsIff(st: State, c: Component, ns: seq<Name>, id: nat, verb: int, t: Name)
    requires UniqueResources(st.resources) && t in ns && '?' !in t && WriteLike(verb)
    requires c.role == ROLE_MODEL && c.name in c.hooks
    requires Register(st.components, st.resources, c, ns).code == CODE_OK
    ensures var st' := Next(st, RegisterEvent(c, ns));
            && !Ends(st'.components, RequestSubscribers(st', t))
            && (!Answered(st', id, verb, t) <==>
                 && FindSession(st.sessions, id) == |st.sessions|
                 && (forall r :: r in MatchedNodes(st'.resources, t) ==> !r.lock)
                 && !MeetsLock(st'.components, RequestSubscribers(st', t)))
  {
    var st' := Next(st, RegisterEvent(c, ns));
    var cs, subs := st'.components, RequestSubscribers(st', t);
    FindsComponent(cs, |st.components|, c.name);
    HookedByMember(cs, c.name, c.name);
    assert cs[|st.components|] == c;
    RegisteredIsSubscribed(st, c, ns, t);
    hide MatchedNodes, SubscribersOf, Front, HookedBy, AppendToAll;
    forall k: nat ensures Front(cs, subs, k) != [] { SelfHookStays(cs, subs, c.name, k); }
    SubscribersOfMember(MatchedNodes(st'.resources, t), c.name);
  }

  /** From the very start: one registration, and the first write on the topic is never answered. */
  lemma SelfHookHangs(c: Component, t: Name, id: nat, verb: int)
    requires '?' !in t && WriteLike(verb) && !c.lock
    requires c.role == ROLE_MODEL && c.name in c.hooks
    ensures !Answered(Next(Empty, RegisterEvent(c, [t])), id, verb, t)
  {
    hide MatchedNodes, SubscribersOf, Front, HookedBy, Accepts;
    var st' := Next(Empty, RegisterEvent(c, [t]));
    assert AppendToAll([], [t], c.name) == [Resource(t, [c.name], false)] by {
      assert [t][..0] == [];
      AppendNewName([], t, c.name);
    }
    assert st'.components == [c];
    hide Next;
    SelfHookHangsIff(Empty, c, [t], id, verb, t);
    hide Answered, Register, RequestSubscribers, IsModel;
    forall r | r in MatchedNodes(st'.resources, t) ensures !r.lock { MatchedExactly(st'.resources, t, r); }
    assert !MeetsLock(st'.components, RequestSubscribers(st', t));
  }
}
