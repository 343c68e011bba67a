/**
 * The session list (src/session.c): one object whose session records the operations rewrite, and
 * the locks they take and give back in the two other lists. The methods compute the functions of
 * module Protocol; records that the source reaches by pointer are named by their position here.
 */
module SessionStore {
  import opened Lists
  import opened Entities
  import opened Locking
  import opened Protocol
  import opened Soundness
  import opened ResourceStore
  import opened ComponentStore

  // ----- session_node_lock_by_step, session_node_unlock_by_step

  /** What the two loops leave, for all steps (`step` 0) or for one. */
  function LockStep(rs: seq<Resource>, cs: seq<Component>, s: Session, step: nat): Locks {
    if step == 0 then LockNames(rs, cs, s.dependency, ChainModels(s.chain))
    else if step <= |s.chain| then
      var (cs', rc) := LockComponents(cs, s.chain[step - 1].models);
      Locks(rs, cs', rc)
    else Locks(rs, cs, RC_SUCCESS)
  }

  function UnlockStep(rs: seq<Resource>, cs: seq<Component>, s: Session, step: nat): Locks {
    if step == 0 then UnlockNames(rs, cs, s.dependency, ChainModels(s.chain))
    else if step <= |s.chain| then
      var (cs', rc) := UnlockComponents(cs, s.chain[step - 1].models);
      Locks(rs, cs', rc)
    else Locks(rs, cs, RC_SUCCESS)
  }

  lemma {:induction false} LockComponentsJoin(cs: seq<Component>, a: seq<Name>, b: seq<Name>)
    ensures var (cs', rc) := LockComponents(cs, a);
            LockComponents(cs, a + b) == if rc == RC_SUCCESS then LockComponents(cs', b) else (cs', rc)
    decreases a
  {
    if a == [] {
      assert a + b == b;
    } else {
      assert (a + b)[1..] == a[1..] + b;
      LockComponentsJoin(LockComponent(cs, a[0]).0, a[1..], b);
    }
  }

  lemma {:induction false} UnlockComponentsJoin(cs: seq<Component>, a: seq<Name>, b: seq<Name>)
    ensures var (cs', rc) := UnlockComponents(cs, a);
            UnlockComponents(cs, a + b) == if rc == RC_SUCCESS then UnlockComponents(cs', b) else (cs', rc)
    decreases a
  {
    if a == [] {
      assert a + b == b;
    } else {
      assert (a + b)[1..] == a[1..] + b;
      UnlockComponentsJoin(UnlockComponent(cs, a[0]).0, a[1..], b);
    }
  }

  lemma ChainModelsFrom(chain: seq<Level>, i: nat)
    requires i < |chain|
    ensures ChainModels(chain[i..]) == chain[i].models + ChainModels(chain[i + 1..])
  {
    ConcatAppend([chain[i].models], LevelModels(chain[i + 1..]));
    assert Concat([chain[i].models]) == Concat([]) + chain[i].models;
    assert LevelModels(chain[i..]) == [chain[i].models] + LevelModels(chain[i + 1..]);
  }

  method LockModels(cl: ComponentList, models: seq<Name>) returns (rc: int)
    modifies cl
    ensures (cl.nodes, rc) == LockComponents(old(cl.nodes), models)
  {
    var j := 0;
    rc := RC_SUCCESS;
    while j < |models|
      invariant 0 <= j <= |models|
      invariant LockComponents(old(cl.nodes), models) == LockComponents(cl.nodes, models[j..])
    {
      assert models[j..][1..] == models[j + 1..];
      rc := cl.LockByName(models[j]);
      if rc != RC_SUCCESS { return; }
      j := j + 1;
    }
    rc := RC_SUCCESS;
  }

  method UnlockModels(cl: ComponentList, models: seq<Name>) returns (rc: int)
    modifies cl
    ensures (cl.nodes, rc) == UnlockComponents(old(cl.nodes), models)
  {
    var j := 0;
    while j < |models|
      invariant 0 <= j <= |models|
      invariant UnlockComponents(old(cl.nodes), models) == UnlockComponents(cl.nodes, models[j..])
    {
      assert models[j..][1..] == models[j + 1..];
      rc := cl.UnlockByName(models[j]);
      if rc != RC_SUCCESS { return; }
      j := j + 1;
    }
    rc := RC_SUCCESS;
  }

  method LockDependencies(rl: ResourceList, names: seq<Name>) returns (rc: int)
    modifies rl
    ensures (rl.nodes, rc) == LockResources(old(rl.nodes), names)
  {
    var i := 0;
    while i < |names|
      invariant 0 <= i <= |names|
      invariant LockResources(old(rl.nodes), names) == LockResources(rl.nodes, names[i..])
    {
      assert names[i..][1..] == names[i + 1..];
      rc := rl.LockByName(names[i]);
      if rc != RC_SUCCESS { return; }
      i := i + 1;
    }
    rc := RC_SUCCESS;
  }

  method UnlockDependencies(rl: ResourceList, names: seq<Name>) returns (rc: int)
    modifies rl
    ensures (rl.nodes, rc) == UnlockResources(old(rl.nodes), names)
  {
    var i := 0;
    while i < |names|
      invariant 0 <= i <= |names|
      invariant UnlockResources(old(rl.nodes), names) == UnlockResources(rl.nodes, names[i..])
    {
      assert names[i..][1..] == names[i + 1..];
      rc := rl.UnlockByName(names[i]);
      if rc != RC_SUCCESS { return; }
      i := i + 1;
    }
    rc := RC_SUCCESS;
  }

  method LockByStep(node: Session, rl: ResourceList, cl: ComponentList, step: nat) returns (rc: int)
    modifies rl, cl
    ensures Locks(rl.nodes, cl.nodes, rc) == LockStep(old(rl.nodes), old(cl.nodes), node, step)
  {
    rc := RC_SUCCESS;
    if step == 0 {
      rc := LockDependencies(rl, node.dependency);
      if rc != RC_SUCCESS { return; }
      var i := 0;
      assert node.chain[0..] == node.chain;
      while i < |node.chain|
        invariant 0 <= i <= |node.chain|
        invariant LockComponents(old(cl.nodes), ChainModels(node.chain))
            == LockComponents(cl.nodes, ChainModels(node.chain[i..]))
        invariant (rl.nodes, RC_SUCCESS) == LockResources(old(rl.nodes), node.dependency)
      {
        ChainModelsFrom(node.chain, i);
        LockComponentsJoin(cl.nodes, node.chain[i].models, ChainModels(node.chain[i + 1..]));
        rc := LockModels(cl, node.chain[i].models);
        if rc != RC_SUCCESS { return; }
        i := i + 1;
      }
      rc := RC_SUCCESS;
    } else if step <= |node.chain| {
      rc := LockModels(cl, node.chain[step - 1].models);
    }
  }

  method UnlockByStep(node: Session, rl: ResourceList, cl: ComponentList, step: nat) returns (rc: int)
    modifies rl, cl
    ensures Locks(rl.nodes, cl.nodes, rc) == UnlockStep(old(rl.nodes), old(cl.nodes), node, step)
  {
    rc := RC_SUCCESS;
    if step == 0 {
      rc := UnlockDependencies(rl, node.dependency);
      if rc != RC_SUCCESS { return; }
      var i := 0;
      assert node.chain[0..] == node.chain;
      while i < |node.chain|
        invariant 0 <= i <= |node.chain|
        invariant UnlockComponents(old(cl.nodes), ChainModels(node.chain))
            == UnlockComponents(cl.nodes, ChainModels(node.chain[i..]))
        invariant (rl.nodes, RC_SUCCESS) == UnlockResources(old(rl.nodes), node.dependency)
      {
        ChainModelsFrom(node.chain, i);
        UnlockComponentsJoin(cl.nodes, node.chain[i].models, ChainModels(node.chain[i + 1..]));
        rc := UnlockModels(cl, node.chain[i].models);
        if rc != RC_SUCCESS { return; }
        i := i + 1;
      }
      rc := RC_SUCCESS;
    } else if step <= |node.chain| {
      rc := UnlockModels(cl, node.chain[step - 1].models);
    }
  }

  /** The publish loop of session_step. */
  method Publish(cl: ComponentList, models: seq<Name>) returns (sent: seq<Option<Name>>)
    ensures sent == StepTunnels(cl.nodes, models)
  {
    sent := [];
    var k := 0;
    while k < |models|
      invariant 0 <= k <= |models|
      invariant sent == StepTunnels(cl.nodes, models[..k])
    {
      var c := cl.Lookup(models[k]);
      sent := sent + [if c < |cl.nodes| then Some(cl.nodes[c].tunnel) else None];
      k := k + 1;
    }
    assert models[..k] == models;
  }

  // ----- the list

  class SessionList {
    var nodes: seq<Session>

    constructor ()
      ensures nodes == []
    {
      nodes := [];
    }

    /** session_lookup_node_by_id, session_is_inflight. */
    method Lookup(id: nat) returns (i: nat)
      ensures i == FindSession(nodes, id)
    {
      i := 0;
      while i < |nodes|
        invariant 0 <= i <= |nodes|
        invariant forall j :: 0 <= j < i ==> nodes[j].id != id
      {
        if nodes[i].id == id { return; }
        i := i + 1;
      }
    }

    method Add(s: Session)
      modifies this
      ensures nodes == old(nodes) + [s]
    {
      nodes := nodes + [s];
    }

    method DeleteFirstId(id: nat) returns (found: bool)
      modifies this
      ensures var (ss, i) := (old(nodes), FindSession(old(nodes), id));
              found == (i < |ss|) && nodes == if i < |ss| then RemoveAt(ss, i) else ss
    {
      var i := Lookup(id);
      found := i < |nodes|;
      if found { nodes := RemoveAt(nodes, i); }
    }

    ghost function State(rl: ResourceList, cl: ComponentList): State
      reads this, rl, cl
    {
      Entities.State(cl.nodes, rl.nodes, nodes)
    }

    /** session_step_stop, without the response it publishes. */
    method Stop(i: nat, rl: ResourceList, cl: ComponentList)
      requires i < |nodes|
      modifies this, rl, cl
      ensures State(rl, cl) == Protocol.Stop(old(State(rl, cl)), i)
    {
      if WriteLike(nodes[i].verb) {
        var rc := UnlockByStep(nodes[i], rl, cl, 0);
      }
      var found := DeleteFirstId(nodes[i].id);
    }

    method UpdateWait(i: nat)
      requires i < |nodes| && AtLevel(nodes[i])
      modifies this
      ensures nodes == old(nodes)[i := old(nodes)[i].(wait := |CurrentLevel(old(nodes)[i]).models|)]
    {
      var s := nodes[i];
      nodes := nodes[i := s.(wait := |s.chain[s.step - 1].models|)];
    }

    /** session_step: `sent` are the tunnels it publishes to. */
    method Step(i: nat, rl: ResourceList, cl: ComponentList) returns (sent: seq<Option<Name>>)
      requires i < |nodes|
      modifies this, rl, cl
      ensures State(rl, cl) == Advance(old(State(rl, cl)), i)
      ensures var s := old(nodes)[i];
              sent == if s.step < |s.chain| then StepTunnels(old(cl.nodes), s.chain[s.step].models) else []
    {
      nodes := nodes[i := nodes[i].(step := nodes[i].step + 1)];
      sent := [];
      if nodes[i].step > |nodes[i].chain| {
        Stop(i, rl, cl);
        return;
      }
      UpdateWait(i);
      var s := nodes[i];
      sent := Publish(cl, s.chain[s.step - 1].models[..s.wait]);
      assert s.chain[s.step - 1].models[..s.wait] == s.chain[s.step - 1].models;
    }

    method DecrefWait(i: nat, rl: ResourceList, cl: ComponentList) returns (sent: seq<Option<Name>>)
      requires i < |nodes|
      modifies this, rl, cl
      ensures var (st, s) := (old(State(rl, cl)), old(nodes)[i]);
              var st' := st.(sessions := st.sessions[i := s.(wait := DecUint32(s.wait))]);
              && State(rl, cl) == (if DecUint32(s.wait) == 0 then Advance(st', i) else st')
              && sent == (if DecUint32(s.wait) == 0 then NextTunnels(st, i) else [])
    {
      nodes := nodes[i := nodes[i].(wait := DecUint32(nodes[i].wait))];
      sent := [];
      if nodes[i].wait <= 0 { sent := Step(i, rl, cl); }
    }

    /** session_step_update, for the session that routing_res found. */
    method StepUpdate(i: nat, rl: ResourceList, cl: ComponentList, code: int) returns (sent: seq<Option<Name>>)
      requires i < |nodes| && i == FindSession(nodes, nodes[i].id)
      modifies this, rl, cl
      ensures State(rl, cl) == HandleReply(old(State(rl, cl)), old(nodes)[i].id, code)
      ensures sent == Published(old(State(rl, cl)), Reply(old(nodes)[i].id, code))
    {
      nodes := nodes[i := nodes[i].(results := nodes[i].results + [code])];
      sent := [];
      if code == CODE_OK {
        ghost var st, s := State(rl, cl), nodes[i];
        assert old(nodes)[i := s][i := s.(wait := DecUint32(s.wait))] == old(nodes)[i := s.(wait := DecUint32(s.wait))];
        sent := DecrefWait(i, rl, cl);
      } else {
        Stop(i, rl, cl);
      }
    }

    /** The inner loop of session_decref_ttl: stops at the first time to live that runs out. */
    method AgeLevel(i: nat, seconds: nat) returns (expired: bool)
      requires i < |nodes| && WellShaped(nodes[i])
      modifies this
      ensures nodes == old(nodes)[i := AgedSession(old(nodes)[i], seconds)]
      ensures expired == Expires(old(nodes)[i], seconds)
    {
      var s := nodes[i];
      var level := s.chain[s.step - 1];
      var ttls, j := level.ttls, 0;
      expired := false;
      while j < |level.models| && !expired
        invariant 0 <= j <= |level.models| && |ttls| == |level.ttls|
        invariant forall k :: 0 <= k < |ttls| ==>
                              ttls[k] == if k < j then ToInt32(level.ttls[k] - seconds) else level.ttls[k]
        invariant forall k :: 0 <= k < j - 1 ==> ttls[k] > 0
        invariant expired <==> j > 0 && ttls[j - 1] <= 0
        decreases |level.models| - j
      {
        ttls := ttls[j := ToInt32(ttls[j] - seconds)];
        expired := ttls[j] <= 0;
        j := j + 1;
      }
      ghost var e := FirstExpired(level.ttls, seconds);
      assert expired ==> e == j - 1;
      assert !expired ==> e == j;
      assert ttls == Aged(level.ttls, seconds);
      nodes := nodes[i := s.(chain := s.chain[s.step - 1 := level.(ttls := ttls)])];
    }

    /** The first loop of session_decref_ttl. */
    method CollectExpired(seconds: nat) returns (flush: seq<nat>)
      requires forall i :: 0 <= i < |nodes| ==> WellShaped(nodes[i])
      modifies this
      ensures nodes == AgedSessions(old(nodes), seconds) && flush == ExpiredIds(old(nodes), seconds)
    {
      var i := 0;
      flush := [];
      while i < |nodes|
        invariant 0 <= i <= |nodes| == |old(nodes)|
        invariant forall k :: 0 <= k < |nodes| ==>
                                nodes[k] == if k < i then AgedSession(old(nodes)[k], seconds) else old(nodes)[k]
        invariant flush == ExpiredIds(old(nodes)[..i], seconds)
      {
        assert old(nodes)[..i + 1][..i] == old(nodes)[..i];
        var expired := AgeLevel(i, seconds);
        if expired { flush := flush + [nodes[i].id]; }
        i := i + 1;
      }
      assert old(nodes)[..i] == old(nodes);
    }

    /** session_decref_ttl: the expired sessions are collected first and then stopped one by one. */
    method DecrefTtl(rl: ResourceList, cl: ComponentList, seconds: nat)
      requires forall i :: 0 <= i < |nodes| ==> WellShaped(nodes[i])
      modifies this, rl, cl
      ensures State(rl, cl) == HandleTick(old(State(rl, cl)), seconds)
    {
      var flush := CollectExpired(seconds);
      ghost var st := State(rl, cl);
      var i := 0;
      while i < |flush|
        invariant 0 <= i <= |flush|
        invariant StopAll(st, flush) == StopAll(State(rl, cl), flush[i..])
      {
        assert flush[i..][1..] == flush[i + 1..];
        var k := Lookup(flush[i]);
        if k < |nodes| { Stop(k, rl, cl); }
        i := i + 1;
      }
    }
  }

  /** Locking a single step: it succeeds exactly when the level's models are distinct and unlocked. */
  lemma LockOneStep(rs: seq<Resource>, cs: seq<Component>, s: Session, step: nat)
    requires UniqueComponents(cs) && step > 0
    requires step <= |s.chain| ==> AllComponents(cs, s.chain[step - 1].models)
    ensures var l := LockStep(rs, cs, s, step);
            && l.resources == rs
            && (step > |s.chain| ==> l.components == cs && l.rc == RC_SUCCESS)
            && (step <= |s.chain| ==>
                  var ms := s.chain[step - 1].models;
                  && (l.rc == RC_SUCCESS <==> NoDup(ms) && NoneComponentLocked(cs, ms))
                  && (l.rc == RC_SUCCESS ==> l.components == MarkComponents(cs, ms, true)))
  {
    if step <= |s.chain| { LockComponentsFacts(cs, s.chain[step - 1].models); }
  }

  /** Unlocking a single step clears the level's models and touches nothing else. */
  lemma UnlockOneStep(rs: seq<Resource>, cs: seq<Component>, s: Session, step: nat)
    requires UniqueComponents(cs) && step > 0
    requires step <= |s.chain| ==> AllComponents(cs, s.chain[step - 1].models)
    ensures var l := UnlockStep(rs, cs, s, step);
            && l.resources == rs && l.rc == RC_SUCCESS
            && l.components == if step <= |s.chain| then MarkComponents(cs, s.chain[step - 1].models, false) else cs
  {
    if step <= |s.chain| { UnlockComponentsFacts(cs, s.chain[step - 1].models); }
  }
}
