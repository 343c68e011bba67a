/**
 * What the answer to a request does to the state: nothing when a check refuses it, the loss of some
 * resource locks when the lock loop fails, and one new session otherwise. The session is described by
 * the routes from the topic: which models it waits for, in which order, and what it holds.
 */
module Admitted {
  import opened Lists
  import opened Entities
  import opened HookWalk
  import opened Locking
  import opened Protocol
  import opened Soundness
  import opened Ownership
  import opened ListOrder
  import opened Answers

  // ----- the order of routes

  /** An earlier start first; from one start, the components hooked by position at each hop. */
  ghost predicate RouteBefore(st: State, topic: Name, r: Route, q: Route)
    requires IsStart(st, topic, (r.resource, r.position)) && IsStart(st, topic, (q.resource, q.position))
  {
    if (r.resource, r.position) == (q.resource, q.position) then LexLess(r.hops, q.hops)
    else StartBefore(st, topic, (r.resource, r.position), (q.resource, q.position))
  }

  /** `rs` are the routes of `k` hops that lead the request to models, each once, in order. */
  ghost predicate RoutesAre(st: State, topic: Name, verb: int, k: nat, rs: seq<Route>) {
    && (forall r {:trigger r in rs} :: r in rs <==> ModelRoute(st, topic, verb, r) && |r.hops| == k)
    && (forall a :: 0 <= a < |rs| ==> IsStart(st, topic, (rs[a].resource, rs[a].position)))
    && forall a, b :: 0 <= a < b < |rs| ==> RouteBefore(st, topic, rs[a], rs[b])
  }

  /** The level waits for the destinations of the routes `rs`, with the times to live they registered. */
  ghost predicate Awaits(st: State, topic: Name, level: Level, rs: seq<Route>) {
    && |level.models| == |level.ttls| == |rs|
    && forall a :: 0 <= a < |rs| ==>
         && IsRoute(st, topic, rs[a]) && level.models[a] == Destination(st, topic, rs[a])
         && HasComponent(st.components, level.models[a])
         && level.ttls[a] == st.components[FindComponent(st.components, level.models[a])].ttl
  }

  lemma TracesOrdered(st: State, topic: Name, ps: seq<(nat, nat)>, t: seq<nat>, u: seq<nat>)
    requires StartsAre(st, topic, ps) && t != [] && u != [] && t[0] < |ps| && u[0] < |ps|
    requires LexLess(t, u)
    ensures RouteBefore(st, topic, RouteOf(ps, t), RouteOf(ps, u))
  {
    var p :| 0 <= p < |t| && p < |u| && t[..p] == u[..p] && t[p] < u[p];
    if p > 0 {
      assert t[..p][0] == u[..p][0];
      assert t[..p][1..] == t[1..][..p - 1] && u[..p][1..] == u[1..][..p - 1];
      assert LexLess(t[1..], u[1..]);
    }
  }

  /** The levels of the chain wait for exactly the models reached, level by level in the order of the routes. */
  lemma LevelRoutes(st: State, topic: Name, verb: int, k: nat) returns (rs: seq<Route>)
    requires UniqueResources(st.resources) && WholeWalk(st, topic, verb) && k < WalkedLevels(st, topic, verb)
    ensures RoutesAre(st, topic, verb, k, rs) && Awaits(st, topic, ChainOf(st, topic, verb)[k], rs)
  {
    hide Levels, RequestSubscribers, IsModel, Concerned, WalkedLevels, IsRoute, IsTrace, ModelTrace, LexLess, StartsAre,
      WholeWalk, IsStart, RouteBefore;
    var ps := Starts(st, topic);
    var cs, subs, d := st.components, RequestSubscribers(st, topic), WalkedLevels(st, topic, verb);
    var ts := LevelInOrder(cs, subs, d, k);
    forall a | 0 <= a < |ts|
      ensures ts[a] != [] && ts[a][0] < |ps| && |ts[a]| == k + 1
      ensures ModelRoute(st, topic, verb, RouteOf(ps, ts[a]))
      ensures ChainOf(st, topic, verb)[k].models[a] == Destination(st, topic, RouteOf(ps, ts[a]))
    {
      var r := EntryHasRoute(st, topic, verb, ps, k, ts, a);
    }
    rs := seq(|ts|, a requires 0 <= a < |ts| => RouteOf(ps, ts[a]));
    forall r ensures r in rs <==> ModelRoute(st, topic, verb, r) && |r.hops| == k {
      if ModelRoute(st, topic, verb, r) && |r.hops| == k {
        var j, t := RouteHasEntry(st, topic, verb, ps, r);
        assert t in ts;
        var a :| 0 <= a < |ts| && ts[a] == t;
        assert rs[a] == r;
      }
    }
    forall a | 0 <= a < |rs| ensures IsStart(st, topic, (rs[a].resource, rs[a].position)) {
      RouteStarts(st, topic, rs[a]);
    }
    forall a, b | 0 <= a < b < |rs| ensures RouteBefore(st, topic, rs[a], rs[b]) {
      TracesOrdered(st, topic, ps, ts[a], ts[b]);
    }
    TtlsOfLevel(cs, subs, d, k);
  }

  lemma TtlsOfLevel(cs: seq<Component>, subs: seq<Name>, d: nat, k: nat)
    requires k < d
    ensures var l := Levels(cs, subs, d)[k];
            && |l.ttls| == |l.models|
            && forall a :: 0 <= a < |l.models| ==>
                 && HasComponent(cs, l.models[a]) && l.ttls[a] == cs[FindComponent(cs, l.models[a])].ttl
  {
    hide Levels, Models, Ttls, Front;
    LevelsAt(cs, subs, d, k);
    var f := Front(cs, subs, k);
    forall a | 0 <= a < |Models(cs, f)|
      ensures var m := Models(cs, f)[a]; HasComponent(cs, m) && Ttls(cs, f)[a] == cs[FindComponent(cs, m)].ttl
    {
      TtlsAreTheModels(cs, f, a);
    }
  }

  // ----- the new session

  /** Some route of `k` hops leads anywhere. */
  ghost predicate Arrives(st: State, topic: Name, k: nat) {
    exists r :: IsRoute(st, topic, r) && |r.hops| == k
  }

  /** Level `k` of the session. */
  ghost predicate LevelFits(st: State, topic: Name, verb: int, k: nat, level: Level) {
    exists rs :: RoutesAre(st, topic, verb, k, rs) && Awaits(st, topic, level, rs)
  }

  /** The number of levels: one to read; to write, as many as routes are long, the first one always. */
  ghost predicate DepthFits(st: State, topic: Name, verb: int, d: nat) {
    if !WriteLike(verb) then d == 1
    else d >= 1 && !Arrives(st, topic, d) && forall k: nat :: 1 <= k < d ==> Arrives(st, topic, k)
  }

  /** A view on a route that the request takes. */
  ghost predicate ViewMet(st: State, topic: Name, verb: int, v: Name) {
    && HasRole(st.components, v, ROLE_VIEW)
    && exists r :: IsRoute(st, topic, r) && (WriteLike(verb) || r.hops == []) && Destination(st, topic, r) == v
  }

  /** The session that an admitted request becomes. */
  ghost predicate SessionFits(st: State, id: nat, verb: int, topic: Name, tunnel: Name, s: Session) {
    && s.id == id && s.verb == verb && s.tunnel == tunnel && s.results == []
    && DepthFits(st, topic, verb, |s.chain|)
    && (forall k :: 0 <= k < |s.chain| ==> LevelFits(st, topic, verb, k, s.chain[k]))
    && s.step == 1 && |s.chain| >= 1 && s.wait == |s.chain[0].models|
    && NoDup(s.dependency)
    && (forall n :: n in s.dependency <==> WriteLike(verb) && Needed(st, topic, verb, n))
    && InFirstOrder(Subscriptions(st.resources, ChainModels(s.chain)), s.dependency)
    && forall v :: v in s.views <==> ViewMet(st, topic, verb, v)
  }

  lemma ArrivesIff(st: State, topic: Name, ps: seq<(nat, nat)>, k: nat)
    requires StartsAre(st, topic, ps)
    ensures Front(st.components, RequestSubscribers(st, topic), k) != [] <==> Arrives(st, topic, k)
  {
    hide RequestSubscribers, Concerned, IsModel, IsTrace, IsRoute, Front, LexSorted, StartsAre;
    var cs, subs := st.components, RequestSubscribers(st, topic);
    var ts := FrontInOrder(cs, subs, k);
    StartCount(st, topic, ps);
    if ts != [] {
      assert ts[0] in ts;
      TraceStart(cs, subs, ts[0]);
      TraceIsRoute(st, topic, ps, ts[0]);
      assert IsRoute(st, topic, RouteOf(ps, ts[0]));
    }
    if r :| IsRoute(st, topic, r) && |r.hops| == k {
      var t := RouteTrace(st, topic, ps, r);
      TraceIsRoute(st, topic, ps, t);
      assert t in ts;
    }
  }

  lemma DepthOfRoutes(st: State, topic: Name, verb: int)
    requires UniqueResources(st.resources) && WholeWalk(st, topic, verb)
    ensures DepthFits(st, topic, verb, WalkedLevels(st, topic, verb))
  {
    hide RequestSubscribers, Front, IsRoute, StartsAre, Arrives, LevelsToWalk;
    var cs, subs := st.components, RequestSubscribers(st, topic);
    var ps := Starts(st, topic);
    WalkedIs(cs, subs, verb);
    if WriteLike(verb) {
      WalkEndsIff(cs, subs);
      ArrivesIff(st, topic, ps, Depth(cs, subs));
      forall k: nat | 1 <= k < Depth(cs, subs) ensures Arrives(st, topic, k) { ArrivesIff(st, topic, ps, k); }
    }
  }

  lemma MetIff(st: State, topic: Name, ps: seq<(nat, nat)>, k: nat, n: Name)
    requires StartsAre(st, topic, ps)
    ensures n in Front(st.components, RequestSubscribers(st, topic), k)
       <==> exists r :: IsRoute(st, topic, r) && |r.hops| == k && Destination(st, topic, r) == n
  {
    hide RequestSubscribers, Concerned, IsModel, IsTrace, IsRoute, Front, LexSorted, StartsAre;
    var cs, subs := st.components, RequestSubscribers(st, topic);
    var f := Front(cs, subs, k);
    var ts := FrontInOrder(cs, subs, k);
    StartCount(st, topic, ps);
    if a :| 0 <= a < |f| && f[a] == n {
      assert ts[a] in ts;
      TraceStart(cs, subs, ts[a]);
      TraceIsRoute(st, topic, ps, ts[a]);
      assert IsRoute(st, topic, RouteOf(ps, ts[a]));
    }
    if r :| IsRoute(st, topic, r) && |r.hops| == k && Destination(st, topic, r) == n {
      var t := RouteTrace(st, topic, ps, r);
      TraceIsRoute(st, topic, ps, t);
      assert t in ts;
      var a :| 0 <= a < |ts| && ts[a] == t;
      assert f[a] == n;
    }
  }

  lemma ViewsOfRoutes(st: State, topic: Name, verb: int, v: Name)
    requires UniqueResources(st.resources) && WholeWalk(st, topic, verb)
    ensures v in WalkViews(st.components, RequestSubscribers(st, topic), WalkedLevels(st, topic, verb))
       <==> ViewMet(st, topic, verb, v)
  {
    hide RequestSubscribers, Front, IsRoute, IsTrace, StartsAre, WalkViews, WholeWalk, WalkedLevels, HasRole;
    var cs, subs, d := st.components, RequestSubscribers(st, topic), WalkedLevels(st, topic, verb);
    var ps := Starts(st, topic);
    WalkViewsMember(cs, subs, d, v);
    if j :| 0 <= j < d && v in Front(cs, subs, j) && HasRole(cs, v, ROLE_VIEW) {
      MetIff(st, topic, ps, j, v);
      OneLevelToRead(st, topic, verb);
    }
    if ViewMet(st, topic, verb, v) {
      var r :| IsRoute(st, topic, r) && (WriteLike(verb) || r.hops == []) && Destination(st, topic, r) == v;
      var t := RouteTrace(st, topic, ps, r);
      TraceIsRoute(st, topic, ps, t);
      TraceWithin(st, topic, verb, t);
      MetIff(st, topic, ps, |r.hops|, v);
    }
  }

  lemma OneLevelToRead(st: State, topic: Name, verb: int)
    ensures !WriteLike(verb) ==> WalkedLevels(st, topic, verb) == 1
  {
  }

  /** The session as it is before its first step. */
  lemma NewSessionFits(st: State, id: nat, verb: int, topic: Name, tunnel: Name)
    requires Sound(st) && WholeWalk(st, topic, verb)
    ensures var s := NewSession(st, id, verb, tunnel, RequestSubscribers(st, topic));
            |s.chain| >= 1
            && SessionFits(st, id, verb, topic, tunnel, s.(step := 1, wait := |s.chain[0].models|))
  {
    hide RequestSubscribers, Levels, WalkViews, Dependencies, RoutesAre, Awaits, Needed, ViewMet, DepthFits, WholeWalk,
      LevelsToWalk, Subscriptions, ChainModels;
    var cs, rs, subs, d := st.components, st.resources, RequestSubscribers(st, topic), WalkedLevels(st, topic, verb);
    var s := NewSession(st, id, verb, tunnel, subs);
    assert s.chain == ChainOf(st, topic, verb) && s.views == WalkViews(cs, subs, d);
    DepthOfRoutes(st, topic, verb);
    DependenciesInOrder(cs, rs, subs, d);
    forall k | 0 <= k < |s.chain| ensures LevelFits(st, topic, verb, k, s.chain[k]) {
      var routes := LevelRoutes(st, topic, verb, k);
    }
    forall n ensures n in s.dependency <==> WriteLike(verb) && Needed(st, topic, verb, n) {
      DependenciesHold(st, topic, verb, n);
    }
    forall v ensures v in s.views <==> ViewMet(st, topic, verb, v) { ViewsOfRoutes(st, topic, verb, v); }
  }

  // ----- the three outcomes

  ghost predicate SetLocks(st: State, st': State, topic: Name, verb: int) {
    && |st'.components| == |st.components| && |st'.resources| == |st.resources|
    && (forall i :: 0 <= i < |st.components| ==>
          var c := st.components[i];
          st'.components[i] == c.(lock := c.lock || (WriteLike(verb) && Reached(st, topic, verb, c.name))))
    && forall i :: 0 <= i < |st.resources| ==>
         var r := st.resources[i];
         st'.resources[i] == r.(lock := r.lock || (WriteLike(verb) && Needed(st, topic, verb, r.name)))
  }

  ghost predicate ClearedLocks(st: State, st': State, topic: Name, verb: int) {
    && st'.components == st.components && |st'.resources| == |st.resources|
    && forall i :: 0 <= i < |st.resources| ==>
         var r := st.resources[i]; st'.resources[i] == r.(lock := r.lock && !Needed(st, topic, verb, r.name))
  }

  /**
   * A request that a check refuses changes nothing. One that fails in the lock loop leaves the
   * resources it needs unlocked, whoever had locked them, and all else as it was. An admitted one adds
   * its session at the end and, to write, locks the models it reaches and the resources they need.
   */
  lemma RequestState(st: State, id: nat, verb: int, topic: Name, tunnel: Name, code: int)
    requires Sound(st) && Answered(st, id, verb, topic)
    requires Code(st, Request(id, verb, topic, tunnel)) == Some(code)
    ensures code != 200 && code != 503 ==> Next(st, Request(id, verb, topic, tunnel)) == st
    ensures code == 503 ==>
              var st' := Next(st, Request(id, verb, topic, tunnel));
              st'.sessions == st.sessions && ClearedLocks(st, st', topic, verb)
    ensures code == 200 ==>
              var st' := Next(st, Request(id, verb, topic, tunnel));
              && |st'.sessions| == |st.sessions| + 1 && st'.sessions[..|st.sessions|] == st.sessions
              && SessionFits(st, id, verb, topic, tunnel, st'.sessions[|st.sessions|])
              && SetLocks(st, st', topic, verb)
  {
    hide Refusal, NewSession, SetLocks, ClearedLocks, SessionFits, Unknown, IdInFlight, ResourceBusy, NobodyListed,
      ModelBusy, NoModel, LockNames, UnlockNames, ChainModels, Advance, OneRouteEach, NeedsLocked, WholeWalk;
    RequestCode(st, id, verb, topic, tunnel, code);
    if code == 200 || code == 503 {
      ClearEnds(st, id, verb, topic);
      NewSessionFits(st, id, verb, topic, tunnel);
      FirstStep(st, id, verb, topic, tunnel);
      if WriteLike(verb) { WriteState(st, id, verb, topic, tunnel); } else { ReadLocks(st, topic, verb); }
    }
  }

  /** The first step of an admitted session. */
  lemma FirstStep(st: State, id: nat, verb: int, topic: Name, tunnel: Name)
    requires Sound(st) && Refusal(st, id, verb, topic) == CODE_OK
    ensures var s := NewSession(st, id, verb, tunnel, RequestSubscribers(st, topic));
            var t := s.(step := 1, wait := |s.chain[0].models|);
            && s.id == id && s.verb == verb
            && (forall cs, rs :: Advance(State(cs, rs, st.sessions + [s]), |st.sessions|)
                                 == State(cs, rs, st.sessions + [t]))
  {
    hide Levels, WalkViews, Dependencies, Refusal, Depth;
    var s := NewSession(st, id, verb, tunnel, RequestSubscribers(st, topic));
    var t := s.(step := 1, wait := |s.chain[0].models|);
    assert (st.sessions + [s])[|st.sessions| := t] == st.sessions + [t];
  }

  lemma ReadLocks(st: State, topic: Name, verb: int)
    requires !WriteLike(verb)
    ensures forall ss :: SetLocks(st, st.(sessions := ss), topic, verb)
  {
  }

  lemma WriteState(st: State, id: nat, verb: int, topic: Name, tunnel: Name)
    requires Sound(st) && WriteLike(verb) && Refusal(st, id, verb, topic) == CODE_OK && WholeWalk(st, topic, verb)
    ensures var s := NewSession(st, id, verb, tunnel, RequestSubscribers(st, topic));
            var l := LockNames(st.resources, st.components, s.dependency, ChainModels(s.chain));
            if l.rc == RC_SUCCESS then forall ss :: SetLocks(st, State(l.components, l.resources, ss), topic, verb)
            else
              var u := UnlockNames(l.resources, l.components, s.dependency, ChainModels(s.chain));
              ClearedLocks(st, State(u.components, u.resources, st.sessions), topic, verb)
  {
    hide Refusal, WholeWalk, ChainModels, Reached, Needed, OneRouteEach, LockNames, UnlockNames, NeedsLocked, NoDup,
      NewSession;
    var s := NewSession(st, id, verb, tunnel, RequestSubscribers(st, topic));
    var ms := ChainModels(s.chain);
    NewSessionNames(st, id, verb, topic, tunnel);
    WriteNames(st, id, verb, topic, tunnel);
    LockNamesIff(st.resources, st.components, s.dependency, ms);
    RollbackClears(st.resources, st.components, s.dependency, ms);
    ClearingUnlockedIsIdentity([], st.components, [], ms);
  }
}
