/**
 * What a reply does, counted in models and replies; what is published and to whom; and what the end
 * of a session, by a reply or by time, gives back.
 */
module Replies {
  import opened Lists
  import opened Entities
  import opened HookWalk
  import opened Locking
  import opened Registry
  import opened Protocol
  import opened Soundness
  import opened Ownership
  import opened Recovery
  import opened Progress
  import opened Lifetimes

  // ----- what is published

  /** One message for each of the models, in order, to the tunnel that the model registered. */
  ghost predicate SentTo(cs: seq<Component>, sent: seq<Option<Name>>, models: seq<Name>) {
    && |sent| == |models|
    && forall a :: 0 <= a < |models| ==>
         if exists i :: 0 <= i < |cs| && cs[i].name == models[a]
         then exists i :: 0 <= i < |cs| && cs[i].name == models[a] && sent[a] == Some(cs[i].tunnel)
         else sent[a] == None
  }

  lemma TunnelsSentTo(cs: seq<Component>, models: seq<Name>)
    ensures SentTo(cs, StepTunnels(cs, models), models)
  {
    var sent := StepTunnels(cs, models);
    forall a | 0 <= a < |models|
      ensures if exists i :: 0 <= i < |cs| && cs[i].name == models[a]
              then exists i :: 0 <= i < |cs| && cs[i].name == models[a] && sent[a] == Some(cs[i].tunnel)
              else sent[a] == None
    {
      var i := FindComponent(cs, models[a]);
      if i < |cs| { assert cs[i].name == models[a] && sent[a] == Some(cs[i].tunnel); }
    }
  }

  /** An admitted request goes at once to the models of its first level; no other request goes anywhere. */
  lemma RequestPublishes(st: State, id: nat, verb: int, topic: Name, tunnel: Name, code: int)
    requires Sound(st) && Answered(st, id, verb, topic)
    requires Code(st, Request(id, verb, topic, tunnel)) == Some(code)
    ensures code != 200 ==> Published(st, Request(id, verb, topic, tunnel)) == []
    ensures code == 200 ==>
              var (ss, sent) := (Next(st, Request(id, verb, topic, tunnel)).sessions,
                                 Published(st, Request(id, verb, topic, tunnel)));
              ss != [] && ss[|ss| - 1].chain != [] && SentTo(st.components, sent, ss[|ss| - 1].chain[0].models)
  {
    hide Answered, StepTunnels, Levels, WalkViews, Dependencies, SentTo;
    var s := NewSession(st, id, verb, tunnel, RequestSubscribers(st, topic));
    RequestSessions(st, id, verb, topic, tunnel);
    if code == 200 {
      RequestAdds(st, id, verb, topic, tunnel);
      TunnelsSentTo(st.components, s.chain[0].models);
    }
  }

  // ----- replies

  /** `ss'` is `ss` without the session at `i`. */
  ghost predicate Dropped(ss: seq<Session>, ss': seq<Session>, i: nat)
    requires i < |ss|
  {
    ss' == ss[..i] + ss[i + 1..]
  }

  /** The lock bits of what `s` holds are cleared; nothing else changes in the two lists. */
  ghost predicate Released(st: State, st': State, s: Session) {
    && |st'.components| == |st.components| && |st'.resources| == |st.resources|
    && (forall k :: 0 <= k < |st.components| ==>
          var c := st.components[k]; st'.components[k] == c.(lock := c.lock && !HoldsModel(s, c.name)))
    && forall k :: 0 <= k < |st.resources| ==>
         var r := st.resources[k]; st'.resources[k] == r.(lock := r.lock && !HoldsResource(s, r.name))
  }

  /** The replies that the session has with this one complete the levels it has begun. */
  ghost predicate Completes(s: Session)
    requires AtLevel(s)
  {
    |s.results| + 1 == Awaited(s, s.step)
  }

  lemma StopReleases(st: State, i: nat, s: Session)
    requires Identified(st.components, st.resources) && UniqueIds(st.sessions) && Secured(st)
    requires i < |st.sessions| && SameHolds(st.sessions[i], s) && s.id == st.sessions[i].id
    ensures var st' := Stop(st.(sessions := st.sessions[i := s]), i);
            Dropped(st.sessions, st'.sessions, i) && Released(st, st', st.sessions[i])
  {
    hide ChainModels, Secured, UnlockNames;
    var st1 := st.(sessions := st.sessions[i := s]);
    StopSessions(st, i, s);
    if WriteLike(s.verb) {
      HeldAreRegistered(st, i);
      ReleaseRuns(st.resources, st.components, s);
    }
  }

  lemma StopSessions(st: State, i: nat, s: Session)
    requires UniqueIds(st.sessions) && i < |st.sessions| && s.id == st.sessions[i].id
    ensures Dropped(st.sessions, Stop(st.(sessions := st.sessions[i := s]), i).sessions, i)
  {
    var ss := st.sessions[i := s];
    assert ss[i].id == s.id && forall k :: 0 <= k < i ==> ss[k].id != s.id;
    assert FindSession(ss, s.id) == i;
    assert ss[..i] == st.sessions[..i] && ss[i + 1..] == st.sessions[i + 1..];
    assert RemoveAt(ss, i) == st.sessions[..i] + st.sessions[i + 1..];
  }

  /** A reply with an id that no session has does nothing. */
  lemma StrayReply(st: State, id: nat, code: int)
    requires forall i :: 0 <= i < |st.sessions| ==> st.sessions[i].id != id
    ensures Next(st, Reply(id, code)) == st && Published(st, Reply(id, code)) == []
  {
  }

  /**
   * A good reply that does not complete the level is noted, and the session waits for one less. The
   * one that does sends the request on to the models of the next level, for which the session then
   * waits; with the last level it ends the session. So does an error reply at any time. An end gives
   * back what the session held; until then no lock changes.
   */
  lemma ReplyAnswer(st: State, i: nat, code: int)
    requires Sound(st) && Secured(st) && AllCounted(st) && i < |st.sessions| && BegunNotEmpty(st.sessions[i])
    ensures var s := st.sessions[i];
            var (st', sent) := (Next(st, Reply(s.id, code)), Published(st, Reply(s.id, code)));
            && (code == 200 && !Completes(s) ==>
                  && st' == st.(sessions := st.sessions[i := s.(results := s.results + [200], wait := s.wait - 1)])
                  && sent == [])
            && (code == 200 && Completes(s) && s.step < |s.chain| ==>
                  var t := s.(results := s.results + [200], step := s.step + 1, wait := |s.chain[s.step].models|);
                  st' == st.(sessions := st.sessions[i := t]) && SentTo(st.components, sent, s.chain[s.step].models))
            && (code != 200 || (Completes(s) && s.step == |s.chain|) ==>
                  Dropped(st.sessions, st'.sessions, i) && Released(st, st', s) && sent == [])
  {
    hide Stop, Secured, Released, Identified, SentTo, StepTunnels, Sum, Dropped;
    var s := st.sessions[i];
    assert FindSession(st.sessions, s.id) == i && WellShaped(s) && Counted(s);
    assert Completes(s) <==> s.wait == 1;
    var r := s.(results := s.results + [code]);
    var t := r.(wait := DecUint32(s.wait));
    if code != 200 {
      StopReleases(st, i, r);
    } else if !Completes(s) {
      assert st.sessions[i := r][i := t] == st.sessions[i := t];
    } else if s.step < |s.chain| {
      TunnelsSentTo(st.components, s.chain[s.step].models);
    } else {
      var u := t.(step := s.step + 1);
      assert st.sessions[i := t][i := u] == st.sessions[i := u];
      StopReleases(st, i, u);
    }
  }

  // ----- ticks

  /** What a write session would unlock is registered. */
  ghost predicate HeldRegistered(st: State) {
    forall i :: 0 <= i < |st.sessions| && WriteLike(st.sessions[i].verb) ==>
                  && AllResources(st.resources, st.sessions[i].dependency)
                  && AllComponents(st.components, ChainModels(st.sessions[i].chain))
  }

  /** One of the sessions named in `ids` holds the resource, or the model, `n`. */
  ghost predicate AmongHoldsResource(ss: seq<Session>, ids: seq<nat>, n: Name) {
    exists i :: 0 <= i < |ss| && ss[i].id in ids && HoldsResource(ss[i], n)
  }

  ghost predicate AmongHoldsModel(ss: seq<Session>, ids: seq<nat>, n: Name) {
    exists i :: 0 <= i < |ss| && ss[i].id in ids && HoldsModel(ss[i], n)
  }

  lemma AmongFirst(ss: seq<Session>, ids: seq<nat>, n: Name)
    requires UniqueIds(ss) && ids != []
    ensures var i := FindSession(ss, ids[0]);
            var rest := if i < |ss| then RemoveAt(ss, i) else ss;
            && (AmongHoldsResource(ss, ids, n)
                <==> (i < |ss| && HoldsResource(ss[i], n)) || AmongHoldsResource(rest, ids[1..], n))
            && (AmongHoldsModel(ss, ids, n)
                <==> (i < |ss| && HoldsModel(ss[i], n)) || AmongHoldsModel(rest, ids[1..], n))
  {
    hide HoldsResource, HoldsModel;
    var i := FindSession(ss, ids[0]);
    var rest := if i < |ss| then RemoveAt(ss, i) else ss;
    if k :| 0 <= k < |ss| && ss[k].id in ids && HoldsResource(ss[k], n) { OtherKept(ss, ids, k); }
    if k :| 0 <= k < |ss| && ss[k].id in ids && HoldsModel(ss[k], n) { OtherKept(ss, ids, k); }
    if k :| 0 <= k < |rest| && rest[k].id in ids[1..] && HoldsResource(rest[k], n) { KeptWas(ss, ids, k); }
    if k :| 0 <= k < |rest| && rest[k].id in ids[1..] && HoldsModel(rest[k], n) { KeptWas(ss, ids, k); }
  }

  /** Any other session of those named first is still there. */
  lemma OtherKept(ss: seq<Session>, ids: seq<nat>, k: nat)
    requires UniqueIds(ss) && ids != [] && k < |ss| && ss[k].id in ids
    ensures var i := FindSession(ss, ids[0]);
            k == i || (var rest := if i < |ss| then RemoveAt(ss, i) else ss;
                       exists j :: 0 <= j < |rest| && rest[j] == ss[k] && rest[j].id in ids[1..])
  {
    var i := FindSession(ss, ids[0]);
    assert ids == [ids[0]] + ids[1..];
    if k != i {
      var rest := if i < |ss| then RemoveAt(ss, i) else ss;
      assert rest[if k < i then k else k - 1] == ss[k];
    }
  }

  lemma KeptWas(ss: seq<Session>, ids: seq<nat>, k: nat)
    requires ids != []
    requires var i := FindSession(ss, ids[0]);
             var rest := if i < |ss| then RemoveAt(ss, i) else ss;
             k < |rest| && rest[k].id in ids[1..]
    ensures var i := FindSession(ss, ids[0]);
            var rest := if i < |ss| then RemoveAt(ss, i) else ss;
            exists j :: 0 <= j < |ss| && ss[j] == rest[k] && ss[j].id in ids
  {
    var i := FindSession(ss, ids[0]);
    var rest := if i < |ss| then RemoveAt(ss, i) else ss;
    assert ids == [ids[0]] + ids[1..];
    assert rest[k] == ss[if k < i then k else k + 1];
  }

  lemma {:induction false} StopAllLocks(st: State, ids: seq<nat>, n: Name)
    requires Identified(st.components, st.resources) && UniqueIds(st.sessions) && HeldRegistered(st)
    ensures var st' := StopAll(st, ids);
            && (ResourceLocked(st'.resources, n) <==>
                  ResourceLocked(st.resources, n) && !AmongHoldsResource(st.sessions, ids, n))
            && (ComponentLocked(st'.components, n) <==>
                  ComponentLocked(st.components, n) && !AmongHoldsModel(st.sessions, ids, n))
    decreases ids
  {
    if ids != [] {
      hide ResourceLocked, ComponentLocked, HoldsResource, HoldsModel, AmongHoldsResource, AmongHoldsModel, ChainModels,
        Identified;
      var i := FindSession(st.sessions, ids[0]);
      AmongFirst(st.sessions, ids, n);
      if i < |st.sessions| {
        StopLocks(st, i, n);
        StopRegistered(st, i);
        hide Stop, HeldRegistered, UniqueIds;
        StopAllLocks(Stop(st, i), ids[1..], n);
      } else {
        hide HeldRegistered, UniqueIds;
        StopAllLocks(st, ids[1..], n);
      }
    }
  }

  lemma StopRegistered(st: State, i: nat)
    requires Identified(st.components, st.resources) && UniqueIds(st.sessions) && HeldRegistered(st)
    requires i < |st.sessions|
    ensures var st' := Stop(st, i);
            Identified(st'.components, st'.resources) && UniqueIds(st'.sessions) && HeldRegistered(st')
  {
    hide ChainModels, Identified;
    var s, st' := st.sessions[i], Stop(st, i);
    StopLeavesOthers(st, i);
    LocksSame(st.resources, st.components, s.dependency, ChainModels(s.chain));
    SameNodesIdentified(st.components, st.resources, st'.components, st'.resources);
    hide Stop, UnlockNames;
    assert forall n :: HasResource(st'.resources, n) == HasResource(st.resources, n);
    assert forall n :: HasComponent(st'.components, n) == HasComponent(st.components, n);
  }

  /** A session that the tick ends holds the resource, or the model, `n`. */
  ghost predicate EndedHoldsResource(ss: seq<Session>, seconds: nat, n: Name) {
    exists i :: 0 <= i < |ss| && AtLevel(ss[i]) && UsedUp(ss[i], seconds) && HoldsResource(ss[i], n)
  }

  ghost predicate EndedHoldsModel(ss: seq<Session>, seconds: nat, n: Name) {
    exists i :: 0 <= i < |ss| && AtLevel(ss[i]) && UsedUp(ss[i], seconds) && HoldsModel(ss[i], n)
  }

  lemma AgedAmong(ss: seq<Session>, seconds: nat, n: Name)
    requires UniqueIds(ss) && forall i :: 0 <= i < |ss| ==> AtLevel(ss[i])
    ensures var (aged, ids) := (AgedSessions(ss, seconds), ExpiredIds(ss, seconds));
            && (AmongHoldsResource(aged, ids, n) <==> EndedHoldsResource(ss, seconds, n))
            && (AmongHoldsModel(aged, ids, n) <==> EndedHoldsModel(ss, seconds, n))
  {
    hide ExpiredIds, Expires, UsedUp, HoldsResource, HoldsModel, AgedSession, AgedSessions;
    var aged, ids := AgedSessions(ss, seconds), ExpiredIds(ss, seconds);
    AgingKeepsIds(ss, seconds);
    forall i | 0 <= i < |ss|
      ensures aged[i].id in ids <==> UsedUp(ss[i], seconds)
      ensures HoldsResource(aged[i], n) == HoldsResource(ss[i], n) && HoldsModel(aged[i], n) == HoldsModel(ss[i], n)
    {
      ExpiredIdsMember(ss, seconds, ss[i].id);
      ExpiresIff(ss[i], seconds);
      AgedHolds(ss[i], seconds);
      SameHoldsName(ss[i], aged[i], n);
    }
  }

  lemma SameHoldsName(s: Session, t: Session, n: Name)
    requires SameHolds(s, t)
    ensures HoldsResource(s, n) == HoldsResource(t, n) && HoldsModel(s, n) == HoldsModel(t, n)
  {
  }

  /**
   * A tick gives back what the sessions that it ends held, and changes nothing else in the two lists.
   */
  lemma TickReleases(st: State, seconds: nat, n: Name)
    requires Sound(st) && Secured(st)
    ensures var st' := Next(st, Tick(seconds));
            && SameNodes(st.components, st.resources, st'.components, st'.resources)
            && (ResourceLocked(st'.resources, n) <==>
                  ResourceLocked(st.resources, n) && !EndedHoldsResource(st.sessions, seconds, n))
            && (ComponentLocked(st'.components, n) <==>
                  ComponentLocked(st.components, n) && !EndedHoldsModel(st.sessions, seconds, n))
  {
    TickSound(st, seconds);
    hide ExpiredIds, AgedSession, EndedHoldsResource, EndedHoldsModel, AmongHoldsResource, AmongHoldsModel, StopAll,
      ResourceLocked, ComponentLocked, Secured, ChainModels, Identified;
    var aged := AgedSessions(st.sessions, seconds);
    AgingKeepsIds(st.sessions, seconds);
    forall i | 0 <= i < |st.sessions| ensures AtLevel(st.sessions[i]) { assert WellShaped(st.sessions[i]); }
    forall i | 0 <= i < |aged| && WriteLike(aged[i].verb)
      ensures AllResources(st.resources, aged[i].dependency) && AllComponents(st.components, ChainModels(aged[i].chain))
    {
      AgedHolds(st.sessions[i], seconds);
      HeldAreRegistered(st, i);
    }
    AgedAmong(st.sessions, seconds, n);
    StopAllLocks(st.(sessions := aged), ExpiredIds(st.sessions, seconds), n);
  }
}
