/**
 * How a request is answered, said in terms of the registered components and resources alone: by the
 * routes that lead from the topic over subscriptions and hooks to models.
 */
module Answers {
  import opened Lists
  import opened Entities
  import opened TopicMatch
  import opened TopicLookup
  import opened HookWalk
  import opened Locking
  import opened Protocol
  import opened Soundness
  import opened Ownership
  import opened ListOrder

  // ----- routes

  /**
   * A route starts at an entry in the subscriber list of a resource that the topic concerns and goes,
   * hop by hop, to a component that hooks the model where it is. All are given by their positions.
   */
  datatype Route = Route(resource: nat, position: nat, hops: seq<nat>)

  ghost predicate IsRoute(st: State, topic: Name, r: Route)
    decreases |r.hops|, 0
  {
    if r.hops == [] then
      r.resource < |st.resources| && Concerned(st.resources[r.resource], topic)
      && r.position < |st.resources[r.resource].subscribers|
    else
      var before, c := r.(hops := r.hops[..|r.hops| - 1]), r.hops[|r.hops| - 1];
      && IsRoute(st, topic, before) && IsModel(st.components, Destination(st, topic, before))
      && c < |st.components| && Destination(st, topic, before) in st.components[c].hooks
  }

  ghost function Destination(st: State, topic: Name, r: Route): Name
    requires IsRoute(st, topic, r)
    decreases |r.hops|, 1
  {
    if r.hops == [] then
      assert IsRoute(st, topic, r);
      st.resources[r.resource].subscribers[r.position]
    else st.components[r.hops[|r.hops| - 1]].name
  }

  /** The route leads the request to a model; one that only reads goes no further than the subscribers. */
  ghost predicate ModelRoute(st: State, topic: Name, verb: int, r: Route) {
    && IsRoute(st, topic, r) && IsModel(st.components, Destination(st, topic, r))
    && (WriteLike(verb) || r.hops == [])
  }

  // ----- what stands in the way of a request

  ghost predicate Unknown(st: State, topic: Name) {
    forall i :: 0 <= i < |st.resources| ==> !Concerned(st.resources[i], topic)
  }

  ghost predicate IdInFlight(st: State, id: nat) {
    exists i :: 0 <= i < |st.sessions| && st.sessions[i].id == id
  }

  ghost predicate ResourceBusy(st: State, topic: Name) {
    exists i :: 0 <= i < |st.resources| && Concerned(st.resources[i], topic) && st.resources[i].lock
  }

  ghost predicate NobodyListed(st: State, topic: Name) {
    forall i :: 0 <= i < |st.resources| && Concerned(st.resources[i], topic) ==> st.resources[i].subscribers == []
  }

  ghost predicate ModelBusy(st: State, topic: Name, verb: int) {
    exists r :: ModelRoute(st, topic, verb, r) && ComponentLocked(st.components, Destination(st, topic, r))
  }

  ghost predicate NoModel(st: State, topic: Name) {
    forall r :: !ModelRoute(st, topic, METHOD_READ, r)
  }

  /** No model is reached on two routes. */
  ghost predicate OneRouteEach(st: State, topic: Name, verb: int) {
    forall r, q :: (ModelRoute(st, topic, verb, r) && ModelRoute(st, topic, verb, q)
                    && Destination(st, topic, r) == Destination(st, topic, q)) ==> r == q
  }

  /** The request leads to the model `n`. */
  ghost predicate Reached(st: State, topic: Name, verb: int, n: Name) {
    exists r :: ModelRoute(st, topic, verb, r) && Destination(st, topic, r) == n
  }

  /** The request leads to a model that subscribes to the resource `n`. */
  ghost predicate Needed(st: State, topic: Name, verb: int, n: Name) {
    exists m :: Reached(st, topic, verb, m) && SubscribesTo(st.resources, m, n)
  }

  ghost predicate NeedsLocked(st: State, topic: Name, verb: int) {
    exists n :: Needed(st, topic, verb, n) && ResourceLocked(st.resources, n)
  }

  // ----- where routes start

  /** `p` names a resource that the topic concerns and a place in its subscriber list. */
  ghost predicate IsStart(st: State, topic: Name, p: (nat, nat)) {
    IsRoute(st, topic, Route(p.0, p.1, []))
  }

  /** The resource carries the topic as its name but does not accept it. */
  ghost predicate OnlyNamed(st: State, topic: Name, i: nat)
    requires i < |st.resources|
  {
    !Accepts(st.resources[i].name, CutQuery(topic))
  }

  /** Resources come in list order, except that one which is only named like the topic comes last. */
  ghost predicate StartBefore(st: State, topic: Name, p: (nat, nat), q: (nat, nat))
    requires IsStart(st, topic, p) && IsStart(st, topic, q)
  {
    if p.0 == q.0 then p.1 < q.1
    else if OnlyNamed(st, topic, p.0) == OnlyNamed(st, topic, q.0) then p.0 < q.0
    else OnlyNamed(st, topic, q.0)
  }

  /** `ps` are the starts, in the order of the components that the request is led to. */
  ghost predicate StartsAre(st: State, topic: Name, ps: seq<(nat, nat)>) {
    && NoDup(ps) && |ps| == |RequestSubscribers(st, topic)|
    && (forall p {:trigger p in ps} :: p in ps <==> IsStart(st, topic, p))
    && (forall a :: 0 <= a < |ps| ==>
          && IsStart(st, topic, ps[a])
          && RequestSubscribers(st, topic)[a] == st.resources[ps[a].0].subscribers[ps[a].1])
    && forall a, b :: 0 <= a < b < |ps| ==> StartBefore(st, topic, ps[a], ps[b])
  }

  lemma Starts(st: State, topic: Name) returns (ps: seq<(nat, nat)>)
    requires UniqueResources(st.resources)
    ensures StartsAre(st, topic, ps)
  {
    hide Concerned, MatchedNodes, SubscribersOf, LexLess;
    var matched := MatchedNodes(st.resources, topic);
    var ks := MatchedInOrder(st.resources, topic);
    var qs := SubscribersInOrder(matched);
    LexSortedNoDup(qs);
    assert forall a, b :: 0 <= a < b < |qs| ==> LexLess(qs[a], qs[b]);
    hide LexSorted;
    ps := seq(|qs|, a requires 0 <= a < |qs| => (ks[qs[a][0]], qs[a][1]));
    forall p ensures p in ps <==> IsStart(st, topic, p) { StartMember(st, topic, matched, ks, qs, ps, p); }
    forall a | 0 <= a < |ps| ensures IsStart(st, topic, ps[a]) { assert ps[a] in ps; }
    forall a, b | 0 <= a < b < |ps| ensures ps[a] != ps[b] {
      assert qs[a] == [qs[a][0], qs[a][1]] && qs[b] == [qs[b][0], qs[b][1]];
    }
    hide Accepts, CutQuery, IsEntry, NoDup;
    forall a, b | 0 <= a < b < |ps| ensures StartBefore(st, topic, ps[a], ps[b]) {
      assert ps[a] in ps && ps[b] in ps;
      EntryOrder(qs[a], qs[b]);
    }
  }

  lemma EntryOrder(p: seq<nat>, q: seq<nat>)
    requires |p| == |q| == 2
    ensures LexLess(p, q) <==> p[0] < q[0] || (p[0] == q[0] && p[1] < q[1])
  {
    if LexLess(p, q) {
      var k :| 0 <= k < 2 && p[..k] == q[..k] && p[k] < q[k];
      if k == 1 { assert p[..1][0] == q[..1][0]; }
    }
    if p[0] < q[0] { assert p[..0] == q[..0]; }
    if p[0] == q[0] && p[1] < q[1] { assert p[..1] == q[..1]; }
  }

  lemma StartMember(st: State, topic: Name, matched: seq<Resource>, ks: seq<nat>, qs: seq<seq<nat>>,
      ps: seq<(nat, nat)>, p: (nat, nat))
    requires |ks| == |matched| && |ps| == |qs|
    requires forall i {:trigger i in ks} :: i in ks <==> 0 <= i < |st.resources| && Concerned(st.resources[i], topic)
    requires forall a :: 0 <= a < |ks| ==> ks[a] < |st.resources| && matched[a] == st.resources[ks[a]]
    requires forall q {:trigger q in qs} :: q in qs <==> IsEntry(matched, q)
    requires forall a :: 0 <= a < |qs| ==> IsEntry(matched, qs[a]) && ps[a] == (ks[qs[a][0]], qs[a][1])
    ensures p in ps <==> IsStart(st, topic, p)
  {
    hide Concerned;
    if p in ps {
      var a :| 0 <= a < |ps| && ps[a] == p;
      assert ks[qs[a][0]] in ks;
    }
    if IsStart(st, topic, p) {
      assert p.0 in ks;
      var i :| 0 <= i < |ks| && ks[i] == p.0;
      assert [i, p.1] in qs;
      var a :| 0 <= a < |qs| && qs[a] == [i, p.1];
      assert ps[a] == p;
    }
  }

  // ----- routes and traces

  /** The route that a trace from the subscribers of the topic stands for. */
  ghost function RouteOf(ps: seq<(nat, nat)>, t: seq<nat>): Route
    requires t != [] && t[0] < |ps|
  {
    Route(ps[t[0]].0, ps[t[0]].1, t[1..])
  }

  lemma {:induction false} TraceIsRoute(st: State, topic: Name, ps: seq<(nat, nat)>, t: seq<nat>)
    requires StartsAre(st, topic, ps) && t != [] && t[0] < |ps|
    ensures var (cs, subs) := (st.components, RequestSubscribers(st, topic));
            && (IsTrace(cs, subs, t) <==> IsRoute(st, topic, RouteOf(ps, t)))
            && (IsTrace(cs, subs, t) ==> EndOf(cs, subs, t) == Destination(st, topic, RouteOf(ps, t)))
    decreases |t|
  {
    hide Concerned, RequestSubscribers, IsModel;
    if |t| == 1 {
      assert t[1..] == [] && ps[t[0]] in ps;
    } else {
      var k := |t| - 1;
      TraceIsRoute(st, topic, ps, t[..k]);
      assert t[1..][..k - 1] == t[..k][1..];
    }
  }

  /** Every route has its trace. */
  lemma RouteTrace(st: State, topic: Name, ps: seq<(nat, nat)>, r: Route) returns (t: seq<nat>)
    requires StartsAre(st, topic, ps) && IsRoute(st, topic, r)
    ensures t != [] && t[0] < |ps| && RouteOf(ps, t) == r && |t| == |r.hops| + 1
  {
    hide Concerned, RequestSubscribers, IsModel;
    RouteStarts(st, topic, r);
    assert (r.resource, r.position) in ps;
    var a :| 0 <= a < |ps| && ps[a] == (r.resource, r.position);
    t := [a] + r.hops;
  }

  lemma {:induction false} RouteStarts(st: State, topic: Name, r: Route)
    requires IsRoute(st, topic, r)
    ensures IsStart(st, topic, (r.resource, r.position))
    decreases |r.hops|
  {
    if r.hops != [] { RouteStarts(st, topic, r.(hops := r.hops[..|r.hops| - 1])); }
  }

  lemma RouteOfInjective(ps: seq<(nat, nat)>, t: seq<nat>, u: seq<nat>)
    requires NoDup(ps) && t != [] && u != [] && t[0] < |ps| && u[0] < |ps|
    requires RouteOf(ps, t) == RouteOf(ps, u)
    ensures t == u
  {
    assert t == [t[0]] + t[1..] && u == [u[0]] + u[1..];
    if t[0] < u[0] { assert false; }
    if u[0] < t[0] { assert false; }
  }

  // ----- what the levels of the walk hold, by routes

  /** The levels that the request has walked are all there are. */
  ghost predicate WholeWalk(st: State, topic: Name, verb: int) {
    WriteLike(verb) ==> Ends(st.components, RequestSubscribers(st, topic))
  }

  ghost function WalkedLevels(st: State, topic: Name, verb: int): nat {
    LevelsToWalk(st.components, RequestSubscribers(st, topic), verb)
  }

  ghost function ChainOf(st: State, topic: Name, verb: int): seq<Level> {
    Levels(st.components, RequestSubscribers(st, topic), WalkedLevels(st, topic, verb))
  }

  /** A trace to a model is short enough for one of the levels. */
  lemma TraceWithin(st: State, topic: Name, verb: int, t: seq<nat>)
    requires WholeWalk(st, topic, verb) && (WriteLike(verb) || |t| == 1)
    requires IsTrace(st.components, RequestSubscribers(st, topic), t)
    ensures t != [] && |t| - 1 < WalkedLevels(st, topic, verb)
  {
    hide RequestSubscribers, Depth, Front, IsTrace, LevelsToWalk;
    var cs, subs := st.components, RequestSubscribers(st, topic);
    TraceStart(cs, subs, t);
    WalkedIs(cs, subs, verb);
    if WriteLike(verb) {
      WalkEndsIff(cs, subs);
      TraceBefore(cs, subs, t, Depth(cs, subs));
    }
  }

  lemma WalkedIs(cs: seq<Component>, subs: seq<Name>, verb: int)
    ensures LevelsToWalk(cs, subs, verb) == if WriteLike(verb) then Depth(cs, subs) else 1
  {
  }

  lemma TraceBefore(cs: seq<Component>, subs: seq<Name>, t: seq<nat>, d: nat)
    requires IsTrace(cs, subs, t) && Front(cs, subs, d) == []
    ensures |t| - 1 < d
  {
    hide IsTrace, Front;
    TraceInFront(cs, subs, t);
    if |t| - 1 >= d { EmptyStaysEmpty(cs, subs, d, |t| - 1); }
  }

  lemma TraceInFront(cs: seq<Component>, subs: seq<Name>, t: seq<nat>)
    requires IsTrace(cs, subs, t)
    ensures t != [] && Front(cs, subs, |t| - 1) != []
  {
    TraceStart(cs, subs, t);
    var k: nat := |t| - 1;
    hide IsTrace, EndOf, Front, LexSorted;
    var ts := FrontInOrder(cs, subs, k);
    assert t in ts;
  }

  /** Model `n` is in level `k` at place `a`, and a route of `k` hops leads to it. */
  lemma EntryHasRoute(st: State, topic: Name, verb: int, ps: seq<(nat, nat)>, k: nat, ts: seq<seq<nat>>, a: nat)
    returns (r: Route)
    requires StartsAre(st, topic, ps) && k < WalkedLevels(st, topic, verb)
    requires LeadTo(st.components, RequestSubscribers(st, topic), ts, ChainOf(st, topic, verb)[k].models)
    requires forall t {:trigger t in ts} ::
               t in ts <==> ModelTrace(st.components, RequestSubscribers(st, topic), t, k)
    requires a < |ts|
    ensures ts[a] != [] && ts[a][0] < |ps| && r == RouteOf(ps, ts[a]) && |r.hops| == k
    ensures ModelRoute(st, topic, verb, r) && Destination(st, topic, r) == ChainOf(st, topic, verb)[k].models[a]
  {
    var t, cs, subs := ts[a], st.components, RequestSubscribers(st, topic);
    assert t in ts && ModelTrace(cs, subs, t, k);
    TraceStart(cs, subs, t);
    TraceIsRoute(st, topic, ps, t);
    r := RouteOf(ps, t);
  }

  lemma {:induction false} TraceStart(cs: seq<Component>, subs: seq<Name>, t: seq<nat>)
    requires IsTrace(cs, subs, t)
    ensures t != [] && t[0] < |subs|
    decreases |t|
  {
    if |t| > 1 { TraceStart(cs, subs, t[..|t| - 1]); }
  }

  /** And each route to a model is that of a place in a level. */
  lemma RouteHasEntry(st: State, topic: Name, verb: int, ps: seq<(nat, nat)>, r: Route)
    returns (k: nat, t: seq<nat>)
    requires StartsAre(st, topic, ps) && WholeWalk(st, topic, verb) && ModelRoute(st, topic, verb, r)
    ensures k == |r.hops| < WalkedLevels(st, topic, verb) && t != [] && t[0] < |ps| && RouteOf(ps, t) == r
    ensures ModelTrace(st.components, RequestSubscribers(st, topic), t, k)
    ensures EndOf(st.components, RequestSubscribers(st, topic), t) == Destination(st, topic, r)
  {
    hide Concerned, RequestSubscribers, IsModel;
    t := RouteTrace(st, topic, ps, r);
    TraceIsRoute(st, topic, ps, t);
    TraceWithin(st, topic, verb, t);
    k := |r.hops|;
  }

  /** The chain holds exactly the models that are reached. */
  lemma ChainHolds(st: State, topic: Name, verb: int, n: Name)
    requires UniqueResources(st.resources) && WholeWalk(st, topic, verb)
    ensures n in ChainModels(ChainOf(st, topic, verb)) <==> Reached(st, topic, verb, n)
  {
    hide Levels, LexSorted, RequestSubscribers, IsModel, Concerned, WholeWalk, WalkedLevels, IsRoute, IsTrace, Front;
    var ps := Starts(st, topic);
    var chain := ChainOf(st, topic, verb);
    var cs, subs, d := st.components, RequestSubscribers(st, topic), WalkedLevels(st, topic, verb);
    ConcatMember(LevelModels(chain), n);
    if k :| 0 <= k < |chain| && n in LevelModels(chain)[k] {
      var ts := LevelInOrder(cs, subs, d, k);
      var a :| 0 <= a < |chain[k].models| && chain[k].models[a] == n;
      var r := EntryHasRoute(st, topic, verb, ps, k, ts, a);
    }
    if Reached(st, topic, verb, n) {
      var r :| ModelRoute(st, topic, verb, r) && Destination(st, topic, r) == n;
      var k, t := RouteHasEntry(st, topic, verb, ps, r);
      var ts := LevelInOrder(cs, subs, d, k);
      assert t in ts;
      var a :| 0 <= a < |ts| && ts[a] == t;
      assert chain[k].models[a] == n && LevelModels(chain)[k] == chain[k].models;
    }
  }

  /** The models of the chain are pairwise distinct exactly when no model is reached on two routes. */
  lemma ChainDistinctIff(st: State, topic: Name, verb: int)
    requires UniqueResources(st.resources) && WholeWalk(st, topic, verb)
    ensures NoDup(ChainModels(ChainOf(st, topic, verb))) <==> OneRouteEach(st, topic, verb)
  {
    hide ChainOf, ModelRoute, WholeWalk, OnePlaceEach, OneRouteEach, LevelModels, StartsAre;
    var ps := Starts(st, topic);
    ConcatNoDup(LevelModels(ChainOf(st, topic, verb)));
    if OneRouteEach(st, topic, verb) { PlacesFromRoutes(st, topic, verb, ps); }
    if OnePlaceEach(LevelModels(ChainOf(st, topic, verb))) { RoutesFromPlaces(st, topic, verb, ps); }
  }

  lemma PlacesFromRoutes(st: State, topic: Name, verb: int, ps: seq<(nat, nat)>)
    requires StartsAre(st, topic, ps) && OneRouteEach(st, topic, verb)
    ensures OnePlaceEach(LevelModels(ChainOf(st, topic, verb)))
  {
    hide Levels, LexSorted, RequestSubscribers, IsModel, Concerned, WalkedLevels, IsRoute, IsTrace, ModelRoute,
      ModelTrace, StartsAre;
    var chain := ChainOf(st, topic, verb);
    var cs, subs, d := st.components, RequestSubscribers(st, topic), WalkedLevels(st, topic, verb);
    var ms := LevelModels(chain);
    forall j, a, k, b | 0 <= j < |ms| && 0 <= a < |ms[j]| && 0 <= k < |ms| && 0 <= b < |ms[k]| && ms[j][a] == ms[k][b]
      ensures j == k && a == b
    {
      var ts := LevelInOrder(cs, subs, d, j);
      var us := ts;
      if k != j { us := LevelInOrder(cs, subs, d, k); }
      var r := EntryHasRoute(st, topic, verb, ps, j, ts, a);
      var q := EntryHasRoute(st, topic, verb, ps, k, us, b);
      assert r == q;
      StartsDistinct(st, topic, ps);
      RouteOfInjective(ps, ts[a], us[b]);
      LexSortedNoDup(ts);
    }
  }

  lemma StartsDistinct(st: State, topic: Name, ps: seq<(nat, nat)>)
    requires StartsAre(st, topic, ps)
    ensures NoDup(ps)
  {
  }

  lemma RoutesFromPlaces(st: State, topic: Name, verb: int, ps: seq<(nat, nat)>)
    requires StartsAre(st, topic, ps) && WholeWalk(st, topic, verb)
    requires OnePlaceEach(LevelModels(ChainOf(st, topic, verb)))
    ensures OneRouteEach(st, topic, verb)
  {
    hide Levels, LexSorted, RequestSubscribers, IsModel, Concerned, WalkedLevels, IsRoute, IsTrace, ModelTrace;
    hide StartsAre, WholeWalk;
    var ms := LevelModels(ChainOf(st, topic, verb));
    var cs, subs, d := st.components, RequestSubscribers(st, topic), WalkedLevels(st, topic, verb);
    forall r, q | ModelRoute(st, topic, verb, r) && ModelRoute(st, topic, verb, q)
        && Destination(st, topic, r) == Destination(st, topic, q)
      ensures r == q
    {
      var j, t := RouteHasEntry(st, topic, verb, ps, r);
      var k, u := RouteHasEntry(st, topic, verb, ps, q);
      var ts := LevelInOrder(cs, subs, d, j);
      var us := ts;
      if k != j { us := LevelInOrder(cs, subs, d, k); }
      assert t in ts && u in us;
      var a :| 0 <= a < |ts| && ts[a] == t;
      var b :| 0 <= b < |us| && us[b] == u;
      assert ms[j][a] == ms[k][b];
    }
  }

  // ----- the checks of routing_req, said by routes

  lemma MatchedReasons(st: State, topic: Name)
    requires UniqueResources(st.resources)
    ensures MatchedNodes(st.resources, topic) == [] <==> Unknown(st, topic)
    ensures var matched := MatchedNodes(st.resources, topic);
            (exists i :: 0 <= i < |matched| && matched[i].lock) <==> ResourceBusy(st, topic)
  {
    hide MatchedNodes, Concerned, Accepts;
    var matched := MatchedNodes(st.resources, topic);
    var ks := MatchedInOrder(st.resources, topic);
    if matched != [] { assert ks[0] in ks; }
    forall i | 0 <= i < |st.resources| && Concerned(st.resources[i], topic) ensures st.resources[i] in matched {
      assert i in ks;
      var a :| 0 <= a < |ks| && ks[a] == i;
      assert matched[a] == st.resources[i];
    }
    if i :| 0 <= i < |matched| && matched[i].lock { assert ks[i] in ks; }
  }

  lemma NobodyIff(st: State, topic: Name)
    requires UniqueResources(st.resources)
    ensures RequestSubscribers(st, topic) == [] <==> NobodyListed(st, topic)
  {
    hide RequestSubscribers, Concerned;
    var ps := Starts(st, topic);
    if !NobodyListed(st, topic) {
      var i :| 0 <= i < |st.resources| && Concerned(st.resources[i], topic) && st.resources[i].subscribers != [];
      assert IsStart(st, topic, (i, 0));
      assert (i, 0) in ps;
    }
    if ps != [] { assert IsStart(st, topic, ps[0]); }
  }

  lemma NoModelIff(st: State, topic: Name)
    requires UniqueResources(st.resources)
    ensures Models(st.components, RequestSubscribers(st, topic)) == [] <==> NoModel(st, topic)
  {
    hide RequestSubscribers, Concerned, IsModel, Models;
    var cs, subs := st.components, RequestSubscribers(st, topic);
    var ps := Starts(st, topic);
    var ks := ModelsInOrder(cs, subs);
    if ks != [] {
      assert ks[0] in ks;
      assert ModelRoute(st, topic, METHOD_READ, Route(ps[ks[0]].0, ps[ks[0]].1, []));
    }
    if !NoModel(st, topic) {
      var r :| ModelRoute(st, topic, METHOD_READ, r);
      assert IsStart(st, topic, (r.resource, r.position));
      assert (r.resource, r.position) in ps;
      var a :| 0 <= a < |ps| && ps[a] == (r.resource, r.position);
      assert a in ks;
    }
  }

  /** Level `k` of the walk meets a locked model exactly when a route of `k` hops leads to one. */
  lemma BusyAtIff(st: State, topic: Name, ps: seq<(nat, nat)>, k: nat)
    requires StartsAre(st, topic, ps)
    ensures AnyBusy(st.components, Front(st.components, RequestSubscribers(st, topic), k))
       <==> exists r :: BusyRoute(st, topic, r, k)
  {
    hide RequestSubscribers, Concerned, IsModel, ComponentLocked, IsTrace, IsRoute, Front, LexSorted, StartsAre;
    var cs, subs := st.components, RequestSubscribers(st, topic);
    var f := Front(cs, subs, k);
    var ts := FrontInOrder(cs, subs, k);
    if a :| 0 <= a < |f| && IsModel(cs, f[a]) && ComponentLocked(cs, f[a]) {
      assert ts[a] in ts;
      StartCount(st, topic, ps);
      TraceStart(cs, subs, ts[a]);
      TraceIsRoute(st, topic, ps, ts[a]);
      assert BusyRoute(st, topic, RouteOf(ps, ts[a]), k);
    }
    if r :| BusyRoute(st, topic, r, k) {
      var t := RouteTrace(st, topic, ps, r);
      TraceIsRoute(st, topic, ps, t);
      assert t in ts;
      var a :| 0 <= a < |ts| && ts[a] == t;
      assert f[a] == Destination(st, topic, r);
    }
  }

  lemma StartCount(st: State, topic: Name, ps: seq<(nat, nat)>)
    requires StartsAre(st, topic, ps)
    ensures |ps| == |RequestSubscribers(st, topic)|
  {
  }

  ghost predicate BusyRoute(st: State, topic: Name, r: Route, k: nat) {
    && |r.hops| == k && IsRoute(st, topic, r)
    && IsModel(st.components, Destination(st, topic, r)) && ComponentLocked(st.components, Destination(st, topic, r))
  }

  lemma ModelBusyIff(st: State, topic: Name, verb: int)
    requires UniqueResources(st.resources)
    ensures MeetsLockWithin(st.components, RequestSubscribers(st, topic), WalkedLevels(st, topic, verb))
       <==> ModelBusy(st, topic, verb)
  {
    hide RequestSubscribers, IsModel, ComponentLocked, IsRoute, Front, StartsAre, LevelsToWalk, AnyBusy;
    var cs, subs := st.components, RequestSubscribers(st, topic);
    var ps := Starts(st, topic);
    WalkedIs(cs, subs, verb);
    LockMetEarly(cs, subs);
    if MeetsLockWithin(cs, subs, WalkedLevels(st, topic, verb)) {
      var k :| 0 <= k < WalkedLevels(st, topic, verb) && AnyBusy(cs, Front(cs, subs, k));
      BusyAtIff(st, topic, ps, k);
      var r :| BusyRoute(st, topic, r, k);
      assert ModelRoute(st, topic, verb, r);
    }
    if ModelBusy(st, topic, verb) {
      var r :| ModelRoute(st, topic, verb, r) && ComponentLocked(cs, Destination(st, topic, r));
      assert BusyRoute(st, topic, r, |r.hops|);
      BusyAtIff(st, topic, ps, |r.hops|);
      assert AnyBusy(cs, Front(cs, subs, |r.hops|));
      assert WriteLike(verb) ==> MeetsLock(cs, subs);
    }
  }

  /** Model `m` of some level is what makes the walk collect the resource `n`. */
  lemma CollectedIff(cs: seq<Component>, rs: seq<Resource>, subs: seq<Name>, d: nat, n: Name)
    ensures n in Dependencies(cs, rs, subs, d)
       <==> exists m :: m in ChainModels(Levels(cs, subs, d)) && SubscribesTo(rs, m, n)
  {
    hide SubscribesTo, ChainModels, NeededBy, Levels, Models;
    DependenciesFacts(cs, rs, subs, d, n);
    if n in Dependencies(cs, rs, subs, d) {
      var k :| 0 <= k < d && NeededBy(cs, rs, Front(cs, subs, k), n);
      var m := NeededModel(cs, rs, Front(cs, subs, k), n);
      InChain(cs, subs, d, k, m);
    }
    if m :| m in ChainModels(Levels(cs, subs, d)) && SubscribesTo(rs, m, n) {
      var k := LevelOf(cs, subs, d, m);
      NeededVia(cs, rs, Front(cs, subs, k), m, n);
    }
  }

  lemma InChain(cs: seq<Component>, subs: seq<Name>, d: nat, k: nat, m: Name)
    requires k < d && m in Models(cs, Front(cs, subs, k))
    ensures m in ChainModels(Levels(cs, subs, d))
  {
    ChainModelsMember(cs, subs, d, m);
  }

  lemma LevelOf(cs: seq<Component>, subs: seq<Name>, d: nat, m: Name) returns (k: nat)
    requires m in ChainModels(Levels(cs, subs, d))
    ensures k < d && m in Models(cs, Front(cs, subs, k))
  {
    ChainModelsMember(cs, subs, d, m);
    k :| 0 <= k < d && m in Models(cs, Front(cs, subs, k));
  }

  /** The dependency list of a write holds exactly the resources that the request needs. */
  lemma DependenciesHold(st: State, topic: Name, verb: int, n: Name)
    requires UniqueResources(st.resources) && WholeWalk(st, topic, verb)
    ensures n in Dependencies(st.components, st.resources, RequestSubscribers(st, topic), WalkedLevels(st, topic, verb))
       <==> Needed(st, topic, verb, n)
  {
    hide RequestSubscribers, WalkedLevels, WholeWalk, Reached, SubscribesTo, ChainModels, Dependencies;
    CollectedIff(st.components, st.resources, RequestSubscribers(st, topic), WalkedLevels(st, topic, verb), n);
    forall m ensures m in ChainModels(ChainOf(st, topic, verb)) <==> Reached(st, topic, verb, m) {
      ChainHolds(st, topic, verb, m);
    }
  }

  lemma NeededVia(cs: seq<Component>, rs: seq<Resource>, f: seq<Name>, m: Name, n: Name)
    requires m in Models(cs, f) && SubscribesTo(rs, m, n)
    ensures NeededBy(cs, rs, f, n)
  {
  }

  // ----- the code of a request

  /** None of the checks before the lock loop refuses the request. */
  ghost predicate Clear(st: State, id: nat, verb: int, topic: Name) {
    && !Unknown(st, topic) && !IdInFlight(st, id) && !ResourceBusy(st, topic)
    && !NobodyListed(st, topic) && !ModelBusy(st, topic, verb) && !NoModel(st, topic)
  }

  lemma RefusalReasons(st: State, id: nat, verb: int, topic: Name)
    requires UniqueResources(st.resources)
    ensures Refusal(st, id, verb, topic) ==
            if Unknown(st, topic) then 404
            else if IdInFlight(st, id) then 403
            else if ResourceBusy(st, topic) then 423
            else if NobodyListed(st, topic) then 501
            else if ModelBusy(st, topic, verb) then 423
            else if NoModel(st, topic) then 403
            else 200
  {
    hide MatchedNodes, Models, MeetsLockWithin, LevelsToWalk;
    MatchedReasons(st, topic);
    NobodyIff(st, topic);
    ModelBusyIff(st, topic, verb);
    NoModelIff(st, topic);
    hide Unknown, ResourceBusy, NobodyListed, ModelBusy, NoModel;
  }

  /** A walk that is answered and meets no locked model ends. */
  lemma ClearEnds(st: State, id: nat, verb: int, topic: Name)
    requires UniqueResources(st.resources) && Answered(st, id, verb, topic) && Clear(st, id, verb, topic)
    ensures WholeWalk(st, topic, verb) && Refusal(st, id, verb, topic) == CODE_OK
  {
    hide Unknown, ResourceBusy, NobodyListed, ModelBusy, NoModel, MatchedNodes, Models, Depth, Front;
    RefusalReasons(st, id, verb, topic);
    LockMetEarly(st.components, RequestSubscribers(st, topic));
  }

  /**
   * The code of every request that is answered. 404: no resource carries the topic or accepts it.
   * Else 403: the id is in flight. Else 423: a concerned resource is locked, or the routes lead to a
   * locked model. 501: no concerned resource lists anybody. 403 again: no subscriber is a model. A
   * request that only reads is then admitted; any other one if and only if no model is reached on
   * two routes and no model reached subscribes to a locked resource; else its answer is 503.
   */
  lemma RequestCode(st: State, id: nat, verb: int, topic: Name, tunnel: Name, code: int)
    requires Sound(st) && Answered(st, id, verb, topic)
    requires Code(st, Request(id, verb, topic, tunnel)) == Some(code)
    ensures code == 404 <==> Unknown(st, topic)
    ensures code == 403 <==>
              && !Unknown(st, topic)
              && (IdInFlight(st, id) ||
                  (&& !ResourceBusy(st, topic) && !NobodyListed(st, topic) && !ModelBusy(st, topic, verb)
                   && NoModel(st, topic)))
    ensures code == 423 <==>
              && !Unknown(st, topic) && !IdInFlight(st, id)
              && (ResourceBusy(st, topic) || ModelBusy(st, topic, verb))
    ensures code == 501 <==>
              !Unknown(st, topic) && !IdInFlight(st, id) && !ResourceBusy(st, topic) && NobodyListed(st, topic)
    ensures code == 503 <==>
              && Clear(st, id, verb, topic) && WriteLike(verb)
              && !(OneRouteEach(st, topic, verb) && !NeedsLocked(st, topic, verb))
    ensures code == 200 <==>
              && Clear(st, id, verb, topic)
              && (WriteLike(verb) ==> OneRouteEach(st, topic, verb) && !NeedsLocked(st, topic, verb))
  {
    hide Unknown, ResourceBusy, NobodyListed, ModelBusy, NoModel, OneRouteEach, NeedsLocked, Refusal, IdInFlight;
    RefusalReasons(st, id, verb, topic);
    if ModelBusy(st, topic, verb) { BusyIsListed(st, topic, verb); }
    if Clear(st, id, verb, topic) {
      ClearEnds(st, id, verb, topic);
      if WriteLike(verb) { WriteCode(st, id, verb, topic, tunnel); }
    }
  }

  lemma BusyIsListed(st: State, topic: Name, verb: int)
    requires ModelBusy(st, topic, verb)
    ensures !NobodyListed(st, topic)
  {
    var r :| ModelRoute(st, topic, verb, r) && ComponentLocked(st.components, Destination(st, topic, r));
    RouteStarts(st, topic, r);
  }

  /** What a write would lock, by routes. */
  lemma WriteNames(st: State, id: nat, verb: int, topic: Name, tunnel: Name)
    requires Sound(st) && WriteLike(verb) && Refusal(st, id, verb, topic) == CODE_OK && WholeWalk(st, topic, verb)
    ensures var s := NewSession(st, id, verb, tunnel, RequestSubscribers(st, topic));
            && (forall n :: n in ChainModels(s.chain) <==> Reached(st, topic, verb, n))
            && (forall n :: n in s.dependency <==> Needed(st, topic, verb, n))
            && (NoDup(ChainModels(s.chain)) <==> OneRouteEach(st, topic, verb))
            && NoneComponentLocked(st.components, ChainModels(s.chain))
            && (NoneResourceLocked(st.resources, s.dependency) <==> !NeedsLocked(st, topic, verb))
  {
    hide Refusal, WholeWalk, ChainModels, Levels, Dependencies, OneRouteEach, Needed, Reached, LevelsToWalk, WalkViews;
    var s := NewSession(st, id, verb, tunnel, RequestSubscribers(st, topic));
    assert s.chain == ChainOf(st, topic, verb);
    NewSessionNames(st, id, verb, topic, tunnel);
    ChainDistinctIff(st, topic, verb);
    forall n ensures n in ChainModels(s.chain) <==> Reached(st, topic, verb, n) { ChainHolds(st, topic, verb, n); }
    forall n ensures n in s.dependency <==> Needed(st, topic, verb, n) { DependenciesHold(st, topic, verb, n); }
  }

  lemma WriteCode(st: State, id: nat, verb: int, topic: Name, tunnel: Name)
    requires Sound(st) && WriteLike(verb) && Refusal(st, id, verb, topic) == CODE_OK && WholeWalk(st, topic, verb)
    ensures var code := HandleRequest(st, id, verb, topic, tunnel).1;
            && (code == CODE_OK || code == CODE_SERVICE_UNAVAILABLE)
            && (code == CODE_OK <==> OneRouteEach(st, topic, verb) && !NeedsLocked(st, topic, verb))
  {
    AdmissionIff(st, id, verb, topic, tunnel);
    WriteNames(st, id, verb, topic, tunnel);
  }

  /**
   * A write is answered 503 when two entries of subscriber lists lead it to the same model: nothing
   * merges them, and the second lock of the model fails.
   */
  lemma TwiceListedIsRefused(st: State, id: nat, verb: int, topic: Name, tunnel: Name, p: (nat, nat), q: (nat, nat))
    requires Sound(st) && Answered(st, id, verb, topic) && WriteLike(verb) && Clear(st, id, verb, topic)
    requires p != q && IsStart(st, topic, p) && IsStart(st, topic, q)
    requires var m := st.resources[p.0].subscribers[p.1];
             m == st.resources[q.0].subscribers[q.1] && IsModel(st.components, m)
    ensures Code(st, Request(id, verb, topic, tunnel)) == Some(503)
  {
    var code := Code(st, Request(id, verb, topic, tunnel)).value;
    hide Clear, NeedsLocked;
    RequestCode(st, id, verb, topic, tunnel, code);
    var r, r' := Route(p.0, p.1, []), Route(q.0, q.1, []);
    assert ModelRoute(st, topic, verb, r) && ModelRoute(st, topic, verb, r');
  }

  // ----- the dependency query

  /**
   * The dependency query is answered 404 when the topic concerns no resource, 501 when it concerns
   * some and none lists anybody, and else 200 with the resources that a write on the topic needs.
   */
  lemma QueryAnswer(st: State, topic: Name, verb: int)
    requires Sound(st) && WriteLike(verb) && Ends(st.components, RequestSubscribers(st, topic))
    ensures var (names, code) := DependencyAnswer(st.components, st.resources, topic);
            && (code == 404 <==> Unknown(st, topic))
            && (code == 501 <==> !Unknown(st, topic) && NobodyListed(st, topic))
            && (code == 200 <==> !Unknown(st, topic) && !NobodyListed(st, topic))
            && (code != 200 ==> names == [])
            && (code == 200 ==> NoDup(names) && forall n :: n in names <==> Needed(st, topic, verb, n))
  {
    hide MatchedNodes, Levels, Dependencies, WalkViews, Needed, Unknown, NobodyListed, QueryWalk, LevelsToWalk;
    MatchedReasons(st, topic);
    NobodyIff(st, topic);
    var subs := RequestSubscribers(st, topic);
    if subs != [] {
      QueryIsDependencyList(st, 0, verb, topic, "");
      var d := LevelsToWalk(st.components, subs, verb);
      DependenciesFacts(st.components, st.resources, subs, d, "");
      forall n ensures n in DependencyAnswer(st.components, st.resources, topic).0 <==> Needed(st, topic, verb, n) {
        DependenciesHold(st, topic, verb, n);
      }
    }
  }
}
