/**
 * The handlers of the controller (src/sanji_controller.c) over its three lists. Each computes what
 * module Protocol says of its event, so that what is proved there of every run holds of this object.
 */
module Controller {
  import opened Lists
  import opened Entities
  import opened TopicMatch
  import opened TopicLookup
  import opened HookWalk
  import opened Locking
  import opened Registry
  import opened Protocol
  import opened Soundness
  import opened Ownership
  import opened ResourceStore
  import opened ComponentStore
  import opened SessionStore

  // ----- the steps of the chain-building loop

  /** The duplicate-removing loops over one model's resources. */
  method AppendMissing(found: seq<Name>, names: seq<Name>) returns (all: seq<Name>)
    ensures all == AppendNew(found, names)
  {
    all := found;
    var j := 0;
    while j < |names|
      invariant 0 <= j <= |names|
      invariant all == AppendNew(found, names[..j])
    {
      assert names[..j + 1][..j] == names[..j];
      var k := 0;
      while k < |all| && all[k] != names[j]
        invariant 0 <= k <= |all| && names[j] !in all[..k]
      {
        k := k + 1;
      }
      if k == |all| {
        assert all[..k] == all;
        all := all + [names[j]];
      }
      j := j + 1;
    }
    assert names[..j] == names;
  }

  /** One round of routing_req: the level's models, or that one of them is locked. */
  method WalkLevel(rl: ResourceList, cl: ComponentList, subs: seq<Name>, deps: seq<Name>, write: bool)
    returns (busy: bool, level: Level, views: seq<Name>, next: seq<Name>, deps': seq<Name>)
    ensures busy == AnyBusy(cl.nodes, subs)
    ensures !busy ==>
              && level == Level(Models(cl.nodes, subs), Ttls(cl.nodes, subs)) && views == Views(cl.nodes, subs)
              && next == (if write then NextLevel(cl.nodes, subs) else [])
              && deps' == (if write then AddDependencies(cl.nodes, rl.nodes, subs, deps) else deps)
  {
    busy, level, views, next, deps' := false, Level([], []), [], [], deps;
    ghost var cs, rs := cl.nodes, rl.nodes;
    var i := 0;
    while i < |subs|
      invariant 0 <= i <= |subs| && !AnyBusy(cs, subs[..i])
      invariant level == Level(Models(cs, subs[..i]), Ttls(cs, subs[..i])) && views == Views(cs, subs[..i])
      invariant next == (if write then NextLevel(cs, subs[..i]) else [])
      invariant deps' == (if write then AddDependencies(cs, rs, subs[..i], deps) else deps)
    {
      assert subs[..i + 1][..i] == subs[..i] && subs[..i + 1][i] == subs[i];
      BusyUpTo(cs, subs, i);
      var c := cl.Lookup(subs[i]);
      if c < |cl.nodes| {
        var node := cl.nodes[c];
        if node.role == ROLE_MODEL {
          if node.lock {
            busy := true;
            return;
          }
          level := Level(level.models + [node.name], level.ttls + [node.ttl]);
          if write {
            var names := rl.GetNamesByComponent(node.name);
            deps' := AppendMissing(deps', names);
            var hooked := cl.GetNamesByHook(node.name);
            next := next + hooked;
          }
        }
        if node.role == ROLE_VIEW { views := views + [node.name]; }
      }
      i := i + 1;
    }
    assert subs[..i] == subs;
  }

  lemma BusyUpTo(cs: seq<Component>, subs: seq<Name>, i: nat)
    requires i < |subs| && !AnyBusy(cs, subs[..i])
    ensures AnyBusy(cs, subs[..i + 1]) <==> IsModel(cs, subs[i]) && ComponentLocked(cs, subs[i])
    ensures AnyBusy(cs, subs[..i + 1]) ==> AnyBusy(cs, subs)
  {
    forall k | 0 <= k < i ensures !(IsModel(cs, subs[k]) && ComponentLocked(cs, subs[k])) {
      assert subs[..i][k] == subs[k];
    }
    assert subs[..i + 1][i] == subs[i];
  }

  /** One round of dependency_read, which does not look at locks. */
  method QueryLevel(rl: ResourceList, cl: ComponentList, subs: seq<Name>, found: seq<Name>)
    returns (next: seq<Name>, found': seq<Name>)
    ensures next == NextLevel(cl.nodes, subs)
    ensures found' == AddDependencies(cl.nodes, rl.nodes, subs, found)
  {
    next, found' := [], found;
    ghost var cs, rs := cl.nodes, rl.nodes;
    var i := 0;
    while i < |subs|
      invariant 0 <= i <= |subs|
      invariant next == NextLevel(cs, subs[..i]) && found' == AddDependencies(cs, rs, subs[..i], found)
    {
      assert subs[..i + 1][..i] == subs[..i] && subs[..i + 1][i] == subs[i];
      var c := cl.Lookup(subs[i]);
      if c < |cl.nodes| && cl.nodes[c].role == ROLE_MODEL {
        var names := rl.GetNamesByComponent(subs[i]);
        found' := AppendMissing(found', names);
        var hooked := cl.GetNamesByHook(subs[i]);
        next := next + hooked;
      }
      i := i + 1;
    }
    assert subs[..i] == subs;
  }

  // ----- the loop around them

  /** The components that round `k` looks at: a request that only reads makes one round. */
  function Before(cs: seq<Component>, subs: seq<Name>, write: bool, k: nat): seq<Name> {
    if write || k == 0 then Front(cs, subs, k) else []
  }

  /** The dependency list before round `k`. */
  function Collected(cs: seq<Component>, rs: seq<Resource>, subs: seq<Name>, write: bool, k: nat): seq<Name> {
    if write then Dependencies(cs, rs, subs, k) else []
  }

  function Rounds(cs: seq<Component>, subs: seq<Name>, write: bool): nat { if write then Depth(cs, subs) else 1 }

  /** `k` rounds were made: each led to a next one, and (if locks are looked at) none met a locked model. */
  ghost predicate Walked(cs: seq<Component>, subs: seq<Name>, write: bool, locks: bool, k: nat) {
    && (forall j :: 1 <= j < k ==> Before(cs, subs, write, j) != [])
    && (locks ==> forall j :: 0 <= j < k ==> !AnyBusy(cs, Front(cs, subs, j)))
  }

  /** The loop ends: the walk does, or it meets a lock that it looks at. */
  ghost predicate Walkable(cs: seq<Component>, subs: seq<Name>, write: bool, locks: bool) {
    write ==> Ends(cs, subs) || (locks && MeetsLock(cs, subs))
  }

  lemma WalkStarts(cs: seq<Component>, rs: seq<Resource>, subs: seq<Name>, write: bool, locks: bool)
    ensures Walked(cs, subs, write, locks, 0) && Before(cs, subs, write, 0) == subs
    ensures Collected(cs, rs, subs, write, 0) == WalkViews(cs, subs, 0) == [] && Levels(cs, subs, 0) == []
  {
  }

  /** Round `k`. */
  lemma WalkRound(cs: seq<Component>, rs: seq<Resource>, subs: seq<Name>, write: bool, locks: bool, k: nat)
    requires Walkable(cs, subs, write, locks) && Walked(cs, subs, write, locks, k)
    requires k > 0 ==> Before(cs, subs, write, k) != []
    ensures k < Rounds(cs, subs, write)
    ensures var f := Before(cs, subs, write, k);
            && (locks && AnyBusy(cs, f) ==> MeetsLockWithin(cs, subs, Rounds(cs, subs, write)))
            && (!(locks && AnyBusy(cs, f)) ==> Walked(cs, subs, write, locks, k + 1))
            && Before(cs, subs, write, k + 1) == (if write then NextLevel(cs, f) else [])
            && Collected(cs, rs, subs, write, k + 1) ==
               (if write then AddDependencies(cs, rs, f, Collected(cs, rs, subs, write, k))
                else Collected(cs, rs, subs, write, k))
            && WalkViews(cs, subs, k + 1) == WalkViews(cs, subs, k) + Views(cs, f)
            && Levels(cs, subs, k + 1) == Levels(cs, subs, k) + [Level(Models(cs, f), Ttls(cs, f))]
  {
    if write {
      if Ends(cs, subs) {
        WalkEndsIff(cs, subs);
        assert Before(cs, subs, write, Depth(cs, subs)) == [];
      } else {
        LockMetEarly(cs, subs);
        var e :| 0 <= e < Depth(cs, subs) && AnyBusy(cs, Front(cs, subs, e));
        assert k <= e;
      }
      assert k < Depth(cs, subs);
    }
    assert Before(cs, subs, write, k) == Front(cs, subs, k);
  }

  /** After the last round. */
  lemma WalkStops(cs: seq<Component>, subs: seq<Name>, write: bool, locks: bool, k: nat)
    requires Walkable(cs, subs, write, locks) && Walked(cs, subs, write, locks, k)
    requires k > 0 && Before(cs, subs, write, k) == []
    ensures k == Rounds(cs, subs, write)
    ensures locks ==> !MeetsLockWithin(cs, subs, k)
  {
    if write {
      if Ends(cs, subs) {
        WalkEndsIff(cs, subs);
        assert Before(cs, subs, write, Depth(cs, subs)) == [];
      } else {
        LockMetEarly(cs, subs);
      }
    } else {
      assert Before(cs, subs, write, 1) == [];
    }
  }

  /** Drawing number `n` gives a tunnel that no component has. */
  ghost predicate Unused(cs: seq<Component>, draw: nat -> Name, n: nat) { UniqueTunnel(cs, draw(n)) }

  ghost predicate SomeUnused(cs: seq<Component>, draw: nat -> Name) { exists n: nat :: Unused(cs, draw, n) }

  ghost predicate FirstUnused(cs: seq<Component>, draw: nat -> Name, n: nat) {
    Unused(cs, draw, n) && forall m: nat :: m < n ==> !Unused(cs, draw, m)
  }

  class Controller {
    const rl: ResourceList
    const cl: ComponentList
    const sl: SessionList

    constructor ()
      ensures fresh(rl) && fresh(cl) && fresh(sl) && State() == Empty
    {
      rl := new ResourceList();
      cl := new ComponentList();
      sl := new SessionList();
    }

    ghost function State(): State
      reads rl, cl, sl
    {
      Entities.State(cl.nodes, rl.nodes, sl.nodes)
    }

    // ----- from a topic to its subscribers

    method MatchResourceList(topic: Name) returns (matched: seq<Resource>)
      ensures matched == MatchedNodes(rl.nodes, topic)
    {
      var i := rl.Lookup(CutQuery(topic));
      matched := rl.LookupWildcard(topic);
      if i < |rl.nodes| {
        var k := 0;
        while k < |matched| && matched[k].name != rl.nodes[i].name
          invariant 0 <= k <= |matched|
          invariant forall j :: 0 <= j < k ==> matched[j].name != rl.nodes[i].name
        {
          k := k + 1;
        }
        if k == |matched| { matched := matched + [rl.nodes[i]]; }
      }
    }

    method GetSubscribed(matched: seq<Resource>) returns (subs: seq<Name>)
      ensures subs == SubscribersOf(matched)
    {
      subs := [];
      var i := 0;
      while i < |matched|
        invariant 0 <= i <= |matched|
        invariant subs == SubscribersOf(matched[..i])
      {
        assert matched[..i + 1][..i] == matched[..i];
        subs := subs + matched[i].subscribers;
        i := i + 1;
      }
      assert matched[..i] == matched;
    }

    // ----- dependency_read

    method DependencyRead(topic: Name) returns (found: seq<Name>, code: int)
      requires Ends(cl.nodes, RequestSubscribers(State(), topic))
      ensures (found, code) == DependencyAnswer(cl.nodes, rl.nodes, topic)
    {
      found := [];
      var matched := MatchResourceList(topic);
      if matched == [] { return found, CODE_NOT_FOUND; }
      var subs := GetSubscribed(matched);
      if subs == [] { return found, CODE_NOT_IMPLEMENTED; }
      QueryWalkIsDependencies(cl.nodes, rl.nodes, subs, 0, Depth(cl.nodes, subs));
      found := QueryAll(subs);
      code := CODE_OK;
    }

    /** Its loop. */
    method QueryAll(start: seq<Name>) returns (found: seq<Name>)
      requires Walkable(cl.nodes, start, true, false)
      ensures found == Collected(cl.nodes, rl.nodes, start, true, Rounds(cl.nodes, start, true))
    {
      hide Front, Depth, Before, Collected, Rounds, Walked, Walkable, Dependencies, Levels, WalkViews;
      ghost var cs, rs, k: nat := cl.nodes, rl.nodes, 0;
      var subs, again := start, true;
      found := [];
      WalkStarts(cs, rs, start, true, false);
      while again
        invariant subs == Before(cs, start, true, k) && found == Collected(cs, rs, start, true, k)
        invariant Walked(cs, start, true, false, k) && again == (k == 0 || subs != [])
        decreases Rounds(cs, start, true) - k
      {
        WalkRound(cs, rs, start, true, false, k);
        subs, found := QueryLevel(rl, cl, subs, found);
        k := k + 1;
        again := subs != [];
      }
      WalkStops(cs, start, true, false, k);
    }

    // ----- routing_req

    /** The chain-building loop: the levels, views and dependencies, unless a locked model is met. */
    method BuildChain(subs: seq<Name>, write: bool)
      returns (busy: bool, chain: seq<Level>, views: seq<Name>, deps: seq<Name>)
      requires Walkable(cl.nodes, subs, write, true)
      ensures busy == MeetsLockWithin(cl.nodes, subs, Rounds(cl.nodes, subs, write))
      ensures !busy ==>
                var d := Rounds(cl.nodes, subs, write);
                && chain == Levels(cl.nodes, subs, d) && views == WalkViews(cl.nodes, subs, d)
                && deps == Collected(cl.nodes, rl.nodes, subs, write, d)
    {
      hide Front, Depth, Before, Collected, Rounds, Walked, Walkable, Dependencies, Levels, WalkViews, MeetsLockWithin;
      ghost var cs, rs, k: nat := cl.nodes, rl.nodes, 0;
      var front, again := subs, true;
      busy, chain, views, deps := false, [], [], [];
      WalkStarts(cs, rs, subs, write, true);
      while again
        invariant Walked(cs, subs, write, true, k) && again == (k == 0 || front != []) && !busy
        invariant front == Before(cs, subs, write, k) && deps == Collected(cs, rs, subs, write, k)
        invariant chain == Levels(cs, subs, k) && views == WalkViews(cs, subs, k)
        decreases Rounds(cs, subs, write) - k
      {
        WalkRound(cs, rs, subs, write, true, k);
        var level: Level, found: seq<Name>;
        busy, level, found, front, deps := WalkLevel(rl, cl, front, deps, write);
        if busy { return; }
        chain, views := chain + [level], views + found;
        k := k + 1;
        again := front != [];
      }
      WalkStops(cs, subs, write, true, k);
    }

    method RoutingReq(id: nat, verb: int, topic: Name, tunnel: Name) returns (code: int, sent: seq<Option<Name>>)
      requires Answered(State(), id, verb, topic)
      modifies rl, cl, sl
      ensures (State(), code) == HandleRequest(old(State()), id, verb, topic, tunnel)
      ensures sent == Published(old(State()), Request(id, verb, topic, tunnel))
    {
      hide HandleRequest, Published, Admit, StepTunnels, Front, Depth, Dependencies, WalkViews, Levels, MeetsLockWithin,
        MatchedNodes, SubscribersOf;
      RequestCases(State(), id, verb, topic, tunnel);
      sent := [];
      var matched := MatchResourceList(topic);
      if matched == [] { return CODE_NOT_FOUND, sent; }
      var inflight := sl.Lookup(id);
      if inflight < |sl.nodes| { return CODE_FORBIDDEN, sent; }
      var i := 0;
      while i < |matched|
        invariant 0 <= i <= |matched|
        invariant forall j :: 0 <= j < i ==> !matched[j].lock
      {
        if matched[i].lock { return CODE_LOCKED, sent; }
        i := i + 1;
      }
      var subs := GetSubscribed(matched);
      if subs == [] { return CODE_NOT_IMPLEMENTED, sent; }
      var busy, chain, views, deps := BuildChain(subs, WriteLike(verb));
      if busy { return CODE_LOCKED, sent; }
      FirstLevelIs(cl.nodes, subs, LevelsToWalk(cl.nodes, subs, verb));
      if chain[0].models == [] { return CODE_FORBIDDEN, sent; }
      var s := Session(id, verb, tunnel, deps, chain, views, [], 0, 0);
      assert Refusal(State(), id, verb, topic) == CODE_OK;
      assert s == NewSession(State(), id, verb, tunnel, RequestSubscribers(State(), topic));
      code, sent := Start(s);
    }

    /** Its end: lock, link the session and take its first step. */
    method Start(s: Session) returns (code: int, sent: seq<Option<Name>>)
      requires s.step == 0 < |s.chain|
      modifies rl, cl, sl
      ensures (State(), code) == Admit(old(State()), s)
      ensures sent == if code == CODE_OK then StepTunnels(old(cl.nodes), s.chain[0].models) else []
    {
      hide LockNames, UnlockNames, Advance, StepTunnels;
      sent := [];
      LocksSame(rl.nodes, cl.nodes, s.dependency, ChainModels(s.chain));
      if WriteLike(s.verb) {
        var rc := LockByStep(s, rl, cl, 0);
        if rc != RC_SUCCESS {
          rc := UnlockByStep(s, rl, cl, 0);
          return CODE_SERVICE_UNAVAILABLE, sent;
        }
      }
      SameTunnels(old(cl.nodes), cl.nodes, s.chain[0].models);
      sl.Add(s);
      sent := sl.Step(|sl.nodes| - 1, rl, cl);
      code := CODE_OK;
    }

    // ----- routing_res, sanji_refresh_session

    method RoutingRes(id: nat, code: int) returns (sent: seq<Option<Name>>)
      modifies rl, cl, sl
      ensures State() == HandleReply(old(State()), id, code)
      ensures sent == Published(old(State()), Reply(id, code))
    {
      sent := [];
      var i := sl.Lookup(id);
      if i < |sl.nodes| {
        sent := sl.StepUpdate(i, rl, cl, code);
      }
    }

    method RefreshSession(seconds: nat)
      requires forall i :: 0 <= i < |sl.nodes| ==> WellShaped(sl.nodes[i])
      requires seconds > 0
      modifies rl, cl, sl
      ensures State() == HandleTick(old(State()), seconds)
    {
      sl.DecrefTtl(rl, cl, seconds);
    }

    // ----- register_create, register_delete

    /**
     * `draw` are the tunnels that the random numbers print; some draw is not in use. The first such
     * one is the new component's tunnel.
     */
    method RegisterCreate(c: Component, resources: seq<Name>, draw: nat -> Name) returns (tunnel: Name, code: int)
      requires Register(cl.nodes, rl.nodes, c, resources).code == CODE_OK ==> SomeUnused(cl.nodes, draw)
      requires !c.lock
      modifies rl, cl
      ensures var o := Register(old(cl.nodes), old(rl.nodes), c.(tunnel := tunnel), resources);
              Outcome(cl.nodes, rl.nodes, code) == o
      ensures code == CODE_OK ==>
                exists n: nat :: tunnel == draw(n) && FirstUnused(old(cl.nodes), draw, n)
    {
      tunnel := "";
      var isLocked := CountLocked(resources);
      if isLocked > 0 { return tunnel, CODE_LOCKED; }
      var k := cl.Lookup(c.name);
      if k < |cl.nodes| { return tunnel, CODE_FORBIDDEN; }

      var n := DrawTunnel(draw);
      tunnel := draw(n);
      cl.AddNode(c.(tunnel := tunnel));
      AppendAll(resources, c.name);
      code := CODE_OK;
    }

    /** The loop that adds up the locks of the requested resources. */
    method CountLocked(resources: seq<Name>) returns (isLocked: nat)
      ensures isLocked > 0 <==> AnyResourceLocked(rl.nodes, resources)
    {
      var i := 0;
      isLocked := 0;
      while i < |resources|
        invariant 0 <= i <= |resources|
        invariant isLocked > 0 <==> AnyResourceLocked(rl.nodes, resources[..i])
      {
        LockedUpTo(rl.nodes, resources, i);
        var locked := rl.IsLocked(resources[i]);
        isLocked := isLocked + (if locked then 1 else 0);
        i := i + 1;
      }
      assert resources[..i] == resources;
    }

    /** The loop that draws tunnels until one is not in use. */
    method DrawTunnel(draw: nat -> Name) returns (n: nat)
      requires SomeUnused(cl.nodes, draw)
      ensures FirstUnused(cl.nodes, draw, n)
    {
      ghost var bound: nat :| Unused(cl.nodes, draw, bound);
      n := 0;
      var unique := cl.IsUniqueTunnel(draw(0));
      while !unique
        invariant n <= bound && unique == Unused(cl.nodes, draw, n)
        invariant forall m: nat :: m < n ==> !Unused(cl.nodes, draw, m)
        decreases bound - n
      {
        n := n + 1;
        unique := cl.IsUniqueTunnel(draw(n));
      }
    }

    method AppendAll(resources: seq<Name>, c: Name)
      modifies rl
      ensures rl.nodes == AppendToAll(old(rl.nodes), resources, c)
    {
      var i := 0;
      while i < |resources|
        invariant 0 <= i <= |resources|
        invariant rl.nodes == AppendToAll(old(rl.nodes), resources[..i], c)
      {
        assert resources[..i + 1][..i] == resources[..i];
        var rc := rl.AppendComponent(resources[i], c);
        i := i + 1;
      }
      assert resources[..i] == resources;
    }

    method RegisterDelete(name: Name) returns (code: int)
      modifies rl, cl
      ensures Outcome(cl.nodes, rl.nodes, code) == Deregister(old(cl.nodes), old(rl.nodes), name)
    {
      var i := cl.Lookup(name);
      if i == |cl.nodes| { return CODE_OK; }
      var locked := cl.IsLocked(name);
      var anyLocked := rl.IsAnyLockedByComponent(name);
      if locked || anyLocked { return CODE_LOCKED; }
      var rc := cl.DeleteFirstName(name);
      rc := rl.RemoveAllComponent(name);
      code := CODE_OK;
    }

    // ----- sanji_connect_callback

    method RegisterBuiltin(name: Name, topic: Name, wildcard: Name)
      modifies rl, cl
      ensures State() == WithBuiltin(old(State()), name, topic, wildcard)
    {
      var i := cl.Lookup(name);
      if i == |cl.nodes| {
        cl.AddNode(Component(name, topic, ROLE_MODEL, [], BUILTIN_TTL, false));
        var rc := rl.AppendComponent(topic, name);
        rc := rl.AppendComponent(wildcard, name);
      }
    }

    method Connected()
      modifies rl, cl
      ensures State() == HandleConnect(old(State()))
    {
      RegisterBuiltin(REGISTER_NAME, REGISTER_TOPIC, REGISTER_WILDCARD);
      RegisterBuiltin(DEPENDENCY_NAME, DEPENDENCY_TOPIC, DEPENDENCY_WILDCARD);
    }

    // ----- one event, and whole runs

    method Handle(e: Event) returns (answer: Option<int>, sent: seq<Option<Name>>)
      requires Sound(State()) && Enabled(State(), e)
      modifies rl, cl, sl
      ensures State() == Next(old(State()), e)
      ensures answer == Code(old(State()), e) && sent == Published(old(State()), e)
    {
      answer, sent := None, [];
      match e
      case Connect => Connected();
      case RegisterEvent(c, ns) =>
        var draw := _ => c.tunnel;
        assert UniqueTunnel(cl.nodes, c.tunnel) ==> Unused(cl.nodes, draw, 0);
        var tunnel, code := RegisterCreate(c, ns, draw);
        answer := Some(code);
      case DeregisterEvent(n) =>
        var code := RegisterDelete(n);
        answer := Some(code);
      case Request(id, verb, topic, tunnel) =>
        var code: int;
        code, sent := RoutingReq(id, verb, topic, tunnel);
        answer := Some(code);
      case Reply(id, code) => sent := RoutingRes(id, code);
      case Tick(seconds) => RefreshSession(seconds);
    }

    /** A whole run from a new controller, with its answers and what it published, event by event. */
    method HandleAll(es: seq<Event>) returns (answers: seq<Option<int>>, sent: seq<seq<Option<Name>>>)
      requires State() == Empty && EnabledRun(Empty, es)
      modifies rl, cl, sl
      ensures State() == Run(Empty, es)
      ensures |answers| == |sent| == |es| && Recorded(es, answers, sent)
    {
      hide Next, Enabled, Sound, Recorded, Run;
      RunStarts(es);
      answers, sent := [], [];
      for i := 0 to |es|
        invariant State() == Run(Empty, es[..i])
        invariant |answers| == |sent| == i && Recorded(es, answers, sent)
      {
        RunGoesOn(es, i);
        PrefixEnabled(Empty, es, i);
        RunSound(es[..i]);
        var answer, tunnels := Handle(es[i]);
        RecordedNext(es, answers, sent, answer, tunnels);
        answers, sent := answers + [answer], sent + [tunnels];
      }
      assert es[..|es|] == es;
    }
  }

  /** The answers and the messages so far are those that the states of the run call for. */
  ghost predicate Recorded(es: seq<Event>, answers: seq<Option<int>>, sent: seq<seq<Option<Name>>>) {
    && |answers| == |sent| <= |es|
    && forall k :: 0 <= k < |answers| ==>
         && answers[k] == Code(Run(Empty, es[..k]), es[k])
         && sent[k] == Published(Run(Empty, es[..k]), es[k])
  }

  lemma RecordedNext(es: seq<Event>, answers: seq<Option<int>>, sent: seq<seq<Option<Name>>>, answer: Option<int>,
      tunnels: seq<Option<Name>>)
    requires Recorded(es, answers, sent) && |answers| < |es|
    requires var st := Run(Empty, es[..|answers|]);
             answer == Code(st, es[|answers|]) && tunnels == Published(st, es[|answers|])
    ensures Recorded(es, answers + [answer], sent + [tunnels])
  {
    hide Run, Code, Published;
  }

  lemma RunStarts(es: seq<Event>)
    ensures Run(Empty, es[..0]) == Empty && Recorded(es, [], [])
  {
  }

  lemma RunGoesOn(es: seq<Event>, i: nat)
    requires i < |es|
    ensures Run(Empty, es[..i + 1]) == Next(Run(Empty, es[..i]), es[i])
  {
    assert es[..i + 1][..i] == es[..i] && es[..i + 1][i] == es[i];
  }

  lemma FirstLevelIs(cs: seq<Component>, subs: seq<Name>, d: nat)
    requires d > 0
    ensures Levels(cs, subs, d)[0].models == Models(cs, subs)
  {
    LevelsAt(cs, subs, d, 0);
  }

  lemma RequestCases(st: State, id: nat, verb: int, topic: Name, tunnel: Name)
    ensures var refused := Refusal(st, id, verb, topic);
            var s := NewSession(st, id, verb, tunnel, RequestSubscribers(st, topic));
            var r := HandleRequest(st, id, verb, topic, tunnel);
            && r == (if refused != CODE_OK then (st, refused) else Admit(st, s))
            && Published(st, Request(id, verb, topic, tunnel))
            == if r.1 == CODE_OK then StepTunnels(st.components, s.chain[0].models) else []
  {
  }

  lemma PrefixEnabled(st: State, es: seq<Event>, i: nat)
    requires EnabledRun(st, es) && i <= |es|
    ensures EnabledRun(st, es[..i])
    ensures i < |es| ==> Enabled(Run(st, es[..i]), es[i])
  {
    assert forall k :: 0 <= k < i ==> es[..i][..k] == es[..k];
  }

  lemma LockedUpTo(rs: seq<Resource>, ns: seq<Name>, i: nat)
    requires i < |ns|
    ensures AnyResourceLocked(rs, ns[..i + 1]) <==> AnyResourceLocked(rs, ns[..i]) || ResourceLocked(rs, ns[i])
  {
    var before, after := ns[..i], ns[..i + 1];
    assert after == before + [ns[i]];
    if k :| 0 <= k < |after| && ResourceLocked(rs, after[k]) {
      if k < i { assert before[k] == after[k]; }
    }
    if k :| 0 <= k < |before| && ResourceLocked(rs, before[k]) { assert after[k] == before[k]; }
    if ResourceLocked(rs, ns[i]) { assert after[i] == ns[i]; }
  }
}
