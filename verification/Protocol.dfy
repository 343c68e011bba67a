/**
 * The controller as a transition system: its state is the three lists, and every message, timer
 * tick or reconnect is one event. `Next` says what each event does (src/sanji_controller.c,
 * routing_req, routing_res, register_create, register_delete; src/session.c). The methods of
 * module Controller are proved to compute it on the heap.
 */
module Protocol {
  import opened Lists
  import opened Entities
  import opened TopicLookup
  import opened HookWalk
  import opened Locking
  import opened Registry

  const Empty := State([], [], [])

  datatype Event =
    | Connect
    | RegisterEvent(component: Component, resources: seq<Name>)
    | DeregisterEvent(name: Name)
    | Request(id: nat, verb: int, topic: Name, tunnel: Name)
    | Reply(id: nat, code: int)
    | Tick(seconds: nat)

  // ----- session_step_stop and session_step

  /** Releases what the session at `i` locked and drops the first session with its id. */
  function Stop(st: State, i: nat): State
    requires i < |st.sessions|
  {
    var s := st.sessions[i];
    var l := if WriteLike(s.verb) then UnlockNames(st.resources, st.components, s.dependency, ChainModels(s.chain))
             else Locks(st.resources, st.components, RC_SUCCESS);
    State(l.components, l.resources, RemoveAt(st.sessions, FindSession(st.sessions, s.id)))
  }

  /** Moves the session at `i` to its next step, or ends it after the last one. */
  function Advance(st: State, i: nat): State
    requires i < |st.sessions|
  {
    var s := st.sessions[i];
    if s.step + 1 > |s.chain| then
      Stop(st.(sessions := st.sessions[i := s.(step := s.step + 1)]), i)
    else
      st.(sessions := st.sessions[i := s.(step := s.step + 1, wait := |s.chain[s.step].models|)])
  }

  // ----- the publishes of session_step

  /** The tunnels that session_step publishes to, one for each model of the level. */
  function StepTunnels(cs: seq<Component>, models: seq<Name>): (r: seq<Option<Name>>)
    ensures |r| == |models|
    ensures forall i :: 0 <= i < |r| ==>
                          r[i] == if HasComponent(cs, models[i]) then Some(cs[FindComponent(cs,
                              models[i])].tunnel) else None
  {
    seq(|models|, i requires 0 <= i < |models| =>
      if HasComponent(cs, models[i]) then Some(cs[FindComponent(cs, models[i])].tunnel) else None)
  }

  // ----- dependency_read

  /** dependency_read: the resources that go with a topic, found by a walk of its own. */
  function DependencyAnswer(cs: seq<Component>, rs: seq<Resource>, topic: Name): (seq<Name>, int) {
    var matched := MatchedNodes(rs, topic);
    var subs := SubscribersOf(matched);
    if matched == [] then ([], CODE_NOT_FOUND)
    else if subs == [] then ([], CODE_NOT_IMPLEMENTED)
    else (QueryWalk(cs, rs, subs, [], Depth(cs, subs)), CODE_OK)
  }

  /** `n` rounds of its loop from the components `subs`, with `found` collected so far. */
  function QueryWalk(cs: seq<Component>, rs: seq<Resource>, subs: seq<Name>, found: seq<Name>, n: nat): seq<Name>
    decreases n
  {
    if n == 0 then found
    else QueryWalk(cs, rs, NextLevel(cs, subs), AddDependencies(cs, rs, subs, found), n - 1)
  }

  // ----- routing_req

  function LevelsToWalk(cs: seq<Component>, subs: seq<Name>, verb: int): (d: nat)
    ensures 1 <= d
  {
    if WriteLike(verb) then Depth(cs, subs) else 1
  }

  predicate MeetsLockWithin(cs: seq<Component>, subs: seq<Name>, d: nat) {
    exists k :: 0 <= k < d && AnyBusy(cs, Front(cs, subs, k))
  }

  /** The session that a request asks for. */
  function NewSession(st: State, id: nat, verb: int, tunnel: Name, subs: seq<Name>): Session {
    var d := LevelsToWalk(st.components, subs, verb);
    Session(id, verb, tunnel,
            if WriteLike(verb) then Dependencies(st.components, st.resources, subs, d) else [],
            Levels(st.components, subs, d), WalkViews(st.components, subs, d), [], 0, 0)
  }

  /** The code with which a request is refused before its session exists, or 200. */
  function Refusal(st: State, id: nat, verb: int, topic: Name): int {
    var matched := MatchedNodes(st.resources, topic);
    var subs := SubscribersOf(matched);
    if matched == [] then CODE_NOT_FOUND
    else if FindSession(st.sessions, id) < |st.sessions| then CODE_FORBIDDEN
    else if exists i :: 0 <= i < |matched| && matched[i].lock then CODE_LOCKED
    else if subs == [] then CODE_NOT_IMPLEMENTED
    else if MeetsLockWithin(st.components, subs, LevelsToWalk(st.components, subs, verb)) then CODE_LOCKED
    else if Models(st.components, subs) == [] then CODE_FORBIDDEN
    else CODE_OK
  }

  function RequestSubscribers(st: State, topic: Name): seq<Name> {
    SubscribersOf(MatchedNodes(st.resources, topic))
  }

  /** The session with its locks taken, or the rollback when they cannot be. */
  function Admit(st: State, s: Session): (State, int) {
    if !WriteLike(s.verb) then (Advance(st.(sessions := st.sessions + [s]), |st.sessions|), CODE_OK)
    else
      var l := LockNames(st.resources, st.components, s.dependency, ChainModels(s.chain));
      if l.rc != RC_SUCCESS then
        var u := UnlockNames(l.resources, l.components, s.dependency, ChainModels(s.chain));
        (State(u.components, u.resources, st.sessions), CODE_SERVICE_UNAVAILABLE)
      else
        (Advance(State(l.components, l.resources, st.sessions + [s]), |st.sessions|), CODE_OK)
  }

  function HandleRequest(st: State, id: nat, verb: int, topic: Name, tunnel: Name): (State, int) {
    var code := Refusal(st, id, verb, topic);
    if code != CODE_OK then (st, code)
    else Admit(st, NewSession(st, id, verb, tunnel, RequestSubscribers(st, topic)))
  }

  /** Nothing refuses the request before its chain is built. */
  predicate ReachesWalk(st: State, id: nat, topic: Name) {
    var matched := MatchedNodes(st.resources, topic);
    && matched != [] && SubscribersOf(matched) != []
    && FindSession(st.sessions, id) == |st.sessions|
    && forall i :: 0 <= i < |matched| ==> !matched[i].lock
  }

  /** The request is answered: routing_req would otherwise follow a cycle of hooks for ever. */
  ghost predicate Answered(st: State, id: nat, verb: int, topic: Name) {
    var subs := RequestSubscribers(st, topic);
    WriteLike(verb) && ReachesWalk(st, id, topic) ==> Ends(st.components, subs) || MeetsLock(st.components, subs)
  }

  // ----- routing_res

  function HandleReply(st: State, id: nat, code: int): State {
    var i := FindSession(st.sessions, id);
    if i == |st.sessions| then st
    else
      var s := st.sessions[i].(results := st.sessions[i].results + [code]);
      if code == CODE_OK then
        var s' := s.(wait := DecUint32(s.wait));
        var st' := st.(sessions := st.sessions[i := s']);
        if s'.wait == 0 then Advance(st', i) else st'
      else
        Stop(st.(sessions := st.sessions[i := s]), i)
  }

  // ----- session_decref_ttl

  /** The position of the first time to live that runs out, or the number of them. */
  function FirstExpired(ttls: seq<int>, seconds: nat): (e: nat)
    ensures e <= |ttls|
    ensures forall j :: 0 <= j < e ==> ToInt32(ttls[j] - seconds) > 0
    ensures e < |ttls| ==> ToInt32(ttls[e] - seconds) <= 0
  {
    if ttls == [] then 0
    else if ToInt32(ttls[0] - seconds) <= 0 then 0
    else 1 + FirstExpired(ttls[1..], seconds)
  }

  /** The times to live up to the first that runs out are decremented; the rest are left alone. */
  function Aged(ttls: seq<int>, seconds: nat): (r: seq<int>)
    ensures |r| == |ttls|
  {
    var e := FirstExpired(ttls, seconds);
    seq(|ttls|, j requires 0 <= j < |ttls| => if j <= e then ToInt32(ttls[j] - seconds) else ttls[j])
  }

  /** The level a session waits at. */
  predicate AtLevel(s: Session) { 1 <= s.step <= |s.chain| }

  function CurrentLevel(s: Session): Level
    requires AtLevel(s)
  {
    s.chain[s.step - 1]
  }

  predicate Expires(s: Session, seconds: nat) {
    AtLevel(s) && FirstExpired(CurrentLevel(s).ttls, seconds) < |CurrentLevel(s).ttls|
  }

  function AgedSession(s: Session, seconds: nat): Session {
    if !AtLevel(s) then s
    else
      var l := CurrentLevel(s);
      s.(chain := s.chain[s.step - 1 := l.(ttls := Aged(l.ttls, seconds))])
  }

  function AgedSessions(ss: seq<Session>, seconds: nat): (r: seq<Session>)
    ensures |r| == |ss|
    ensures forall i :: 0 <= i < |ss| ==> r[i] == AgedSession(ss[i], seconds)
  {
    seq(|ss|, i requires 0 <= i < |ss| => AgedSession(ss[i], seconds))
  }

  function ExpiredIds(ss: seq<Session>, seconds: nat): seq<nat> {
    if ss == [] then []
    else
      var last := ss[|ss| - 1];
      ExpiredIds(ss[..|ss| - 1], seconds) + (if Expires(last, seconds) then [last.id] else [])
  }

  function StopAll(st: State, ids: seq<nat>): State
    decreases ids
  {
    if ids == [] then st
    else
      var i := FindSession(st.sessions, ids[0]);
      StopAll(if i < |st.sessions| then Stop(st, i) else st, ids[1..])
  }

  function HandleTick(st: State, seconds: nat): State {
    StopAll(st.(sessions := AgedSessions(st.sessions, seconds)), ExpiredIds(st.sessions, seconds))
  }

  // ----- sanji_connect_callback

  function WithBuiltin(st: State, name: Name, topic: Name, wildcard: Name): State {
    if HasComponent(st.components, name) then st
    else State(st.components + [Component(name, topic, ROLE_MODEL, [], BUILTIN_TTL, false)],
               AppendSubscriber(AppendSubscriber(st.resources, topic, name), wildcard, name), st.sessions)
  }

  function HandleConnect(st: State): State {
    WithBuiltin(WithBuiltin(st, REGISTER_NAME, REGISTER_TOPIC, REGISTER_WILDCARD),
                DEPENDENCY_NAME, DEPENDENCY_TOPIC, DEPENDENCY_WILDCARD)
  }

  // ----- one event

  function Next(st: State, e: Event): State {
    match e
    case Connect => HandleConnect(st)
    case RegisterEvent(c, ns) =>
      var o := Register(st.components, st.resources, c, ns);
      State(o.components, o.resources, st.sessions)
    case DeregisterEvent(n) =>
      var o := Deregister(st.components, st.resources, n);
      State(o.components, o.resources, st.sessions)
    case Request(id, verb, topic, tunnel) => HandleRequest(st, id, verb, topic, tunnel).0
    case Reply(id, code) => HandleReply(st, id, code)
    case Tick(seconds) => HandleTick(st, seconds)
  }

  /** The code that the sender of a message gets at once, if any. */
  function Code(st: State, e: Event): Option<int> {
    match e
    case RegisterEvent(c, ns) => Some(Register(st.components, st.resources, c, ns).code)
    case DeregisterEvent(n) => Some(Deregister(st.components, st.resources, n).code)
    case Request(id, verb, topic, tunnel) => Some(HandleRequest(st, id, verb, topic, tunnel).1)
    case Connect => None
    case Reply(_, _) => None
    case Tick(_) => None
  }

  /** The tunnels that the event makes the controller publish requests to. */
  function Published(st: State, e: Event): seq<Option<Name>> {
    match e
    case Request(id, verb, topic, tunnel) =>
      if HandleRequest(st, id, verb, topic, tunnel).1 != CODE_OK then []
      else
        var s := NewSession(st, id, verb, tunnel, RequestSubscribers(st, topic));
        StepTunnels(st.components, s.chain[0].models)
    case Reply(id, code) =>
      var i := FindSession(st.sessions, id);
      if i == |st.sessions| || code != CODE_OK || DecUint32(st.sessions[i].wait) != 0 then []
      else NextTunnels(st, i)
    case Connect => []
    case RegisterEvent(_, _) => []
    case DeregisterEvent(_) => []
    case Tick(_) => []
  }

  /** Those of the next step of a session, if it has one. */
  function NextTunnels(st: State, i: nat): seq<Option<Name>>
    requires i < |st.sessions|
  {
    var s := st.sessions[i];
    if s.step < |s.chain| then StepTunnels(st.components, s.chain[s.step].models) else []
  }

  lemma SameTunnels(cs: seq<Component>, cs': seq<Component>, models: seq<Name>)
    requires |cs'| == |cs| && forall i :: 0 <= i < |cs| ==> cs'[i] == cs[i].(lock := cs'[i].lock)
    ensures StepTunnels(cs', models) == StepTunnels(cs, models)
  {
    forall n ensures FindComponent(cs', n) == FindComponent(cs, n) {
      assert forall i :: 0 <= i < |cs| ==> cs'[i].name == cs[i].name;
    }
  }

  /** What the callers and the random tunnel loop guarantee of an event; a request has to be answered. */
  ghost predicate Enabled(st: State, e: Event) {
    match e
    case Connect => true
    case RegisterEvent(c, ns) =>
      && !c.lock && GeneratedTunnel(c.tunnel)
      && (Register(st.components, st.resources, c, ns).code == CODE_OK ==> UniqueTunnel(st.components, c.tunnel))
    case DeregisterEvent(_) => true
    case Request(id, verb, topic, _) => id != 0 && Answered(st, id, verb, topic)
    case Reply(id, _) => id != 0
    case Tick(seconds) => 0 < seconds < TWO32
  }

  /** A drawn tunnel is a printed number. */
  predicate GeneratedTunnel(t: Name) { t != "" && t[0] != '/' }

  // ----- runs

  function Run(st: State, es: seq<Event>): State {
    if es == [] then st else Next(Run(st, es[..|es| - 1]), es[|es| - 1])
  }

  ghost predicate EnabledRun(st: State, es: seq<Event>) {
    forall k :: 0 <= k < |es| ==> Enabled(Run(st, es[..k]), es[k])
  }

  lemma RunPrefix(st: State, es: seq<Event>)
    requires es != [] && EnabledRun(st, es)
    ensures EnabledRun(st, es[..|es| - 1])
    ensures Enabled(Run(st, es[..|es| - 1]), es[|es| - 1])
  {
    var fs := es[..|es| - 1];
    forall k | 0 <= k < |fs| ensures Enabled(Run(st, fs[..k]), fs[k]) {
      assert fs[..k] == es[..k];
    }
  }
}
