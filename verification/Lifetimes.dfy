/**
 * Times to live: what ticks do to the sessions, in seconds. A session ends by time exactly when the
 * seconds since it came to its level have used up the time to live of one of the level's models.
 */
module Lifetimes {
  import opened Lists
  import opened Entities
  import opened Protocol
  import opened Soundness
  import opened Progress

  // ----- one tick

  /** `x` is what 32 bits make of `t - seconds`. */
  ghost predicate Lowered(t: int, seconds: nat, x: int) {
    -TWO31 <= x < TWO31 && (t - seconds - x) % TWO32 == 0
  }

  lemma ToInt32Lowers(t: int, seconds: nat, x: int)
    ensures Lowered(t, seconds, x) <==> x == ToInt32(t - seconds)
  {
    var y := t - seconds;
    assert y % TWO32 == (y - x + x) % TWO32;
    if Lowered(t, seconds, x) {
      var k := (y - x) / TWO32;
      assert y == x + k * TWO32;
    }
  }

  /** `t` is `s` some seconds later: nothing but the times to live of the level it waits at has changed. */
  ghost predicate Older(s: Session, seconds: nat, t: Session)
    requires AtLevel(s)
  {
    && t == s.(chain := t.chain) && |t.chain| == |s.chain|
    && (forall k :: 0 <= k < |s.chain| && k != s.step - 1 ==> t.chain[k] == s.chain[k])
    && t.chain[s.step - 1].models == CurrentLevel(s).models
    && |t.chain[s.step - 1].ttls| == |CurrentLevel(s).ttls|
    && forall j :: 0 <= j < |CurrentLevel(s).ttls| ==>
         Lowered(CurrentLevel(s).ttls[j], seconds, t.chain[s.step - 1].ttls[j])
  }

  /** Some time to live of the level is used up by the tick. */
  ghost predicate UsedUp(s: Session, seconds: nat)
    requires AtLevel(s)
  {
    exists j, x :: 0 <= j < |CurrentLevel(s).ttls| && Lowered(CurrentLevel(s).ttls[j], seconds, x) && x <= 0
  }

  /**
   * A tick ends a session exactly when it uses up a time to live of its level; else it takes the
   * seconds off each of them and leaves the rest of the session alone.
   */
  lemma TickTakesSeconds(st: State, id: nat, seconds: nat)
    requires Sound(st) && InFlight(st, id)
    ensures AtLevel(SessionOf(st, id))
    ensures InFlight(Next(st, Tick(seconds)), id) <==> !UsedUp(SessionOf(st, id), seconds)
    ensures InFlight(Next(st, Tick(seconds)), id) ==>
              Older(SessionOf(st, id), seconds, SessionOf(Next(st, Tick(seconds)), id))
  {
    hide HandleTick, ToInt32, Lowered, Expires;
    var s := SessionOf(st, id);
    assert WellShaped(s);
    TickEndsExpired(st, id, seconds);
    ExpiresIff(s, seconds);
    var ttls := CurrentLevel(s).ttls;
    forall j | 0 <= j < |ttls| ensures Lowered(ttls[j], seconds, ToInt32(ttls[j] - seconds)) {
      ToInt32Lowers(ttls[j], seconds, ToInt32(ttls[j] - seconds));
    }
    if InFlight(Next(st, Tick(seconds)), id) { NoneExpired(s, seconds); }
  }

  lemma ExpiresIff(s: Session, seconds: nat)
    requires AtLevel(s)
    ensures Expires(s, seconds) <==> UsedUp(s, seconds)
  {
    hide ToInt32, Lowered;
    var ttls := CurrentLevel(s).ttls;
    forall j | 0 <= j < |ttls| ensures Lowered(ttls[j], seconds, ToInt32(ttls[j] - seconds)) {
      ToInt32Lowers(ttls[j], seconds, ToInt32(ttls[j] - seconds));
    }
    if UsedUp(s, seconds) {
      var j, x :| 0 <= j < |ttls| && Lowered(ttls[j], seconds, x) && x <= 0;
      ToInt32Lowers(ttls[j], seconds, x);
    }
  }

  lemma NoneExpired(s: Session, seconds: nat)
    requires AtLevel(s) && !Expires(s, seconds)
    ensures FirstExpired(CurrentLevel(s).ttls, seconds) == |CurrentLevel(s).ttls|
  {
  }

  // ----- over a run

  /** The seconds that have gone by. */
  function Elapsed(es: seq<Event>): nat {
    if es == [] then 0 else Elapsed(es[..|es| - 1]) + (if es[|es| - 1].Tick? then es[|es| - 1].seconds else 0)
  }

  /** The session is in flight all along, at one level. */
  ghost predicate StaysAt(st: State, es: seq<Event>, id: nat, step: nat) {
    forall k :: 0 <= k <= |es| ==> InFlight(Run(st, es[..k]), id) && SessionOf(Run(st, es[..k]), id).step == step
  }

  ghost predicate CurrentInRange(s: Session) {
    AtLevel(s) && forall j :: 0 <= j < |CurrentLevel(s).ttls| ==> 0 <= CurrentLevel(s).ttls[j] < TWO31
  }

  /** `t` is `s` with the seconds taken off the times to live of its level, none of which is used up. */
  ghost predicate SecondsOff(s: Session, seconds: nat, t: Session)
    requires AtLevel(s)
  {
    && t.step == s.step && |t.chain| == |s.chain|
    && (forall k :: 0 <= k < |s.chain| && k != s.step - 1 ==> t.chain[k] == s.chain[k])
    && t.chain[s.step - 1].models == CurrentLevel(s).models
    && |t.chain[s.step - 1].ttls| == |CurrentLevel(s).ttls|
    && forall j :: 0 <= j < |CurrentLevel(s).ttls| ==>
         && t.chain[s.step - 1].ttls[j] == CurrentLevel(s).ttls[j] - seconds
         && (seconds > 0 ==> t.chain[s.step - 1].ttls[j] > 0)
  }

  lemma LoweredInRange(t: int, seconds: nat, x: int)
    requires 0 <= t < TWO31 && seconds < TWO31
    ensures Lowered(t, seconds, x) <==> x == t - seconds
  {
    ToInt32Lowers(t, seconds, x);
  }

  lemma OffInRange(s: Session, before: nat, t: Session, j: nat)
    requires CurrentInRange(s) && SecondsOff(s, before, t) && j < |CurrentLevel(s).ttls|
    ensures 0 <= t.chain[s.step - 1].ttls[j] == CurrentLevel(s).ttls[j] - before < TWO31
  {
    assert 0 <= CurrentLevel(s).ttls[j] < TWO31;
    assert t.chain[s.step - 1].ttls[j] == CurrentLevel(s).ttls[j] - before;
  }

  lemma TickOff(s: Session, before: nat, t: Session, seconds: nat, u: Session)
    requires CurrentInRange(s) && 0 < seconds < TWO31
    requires SecondsOff(s, before, t) && Older(t, seconds, u) && !UsedUp(t, seconds)
    ensures SecondsOff(s, before + seconds, u)
  {
    hide Lowered;
    var k := s.step - 1;
    forall j | 0 <= j < |CurrentLevel(s).ttls|
      ensures u.chain[k].ttls[j] == CurrentLevel(s).ttls[j] - (before + seconds) > 0
    {
      OffInRange(s, before, t, j);
      assert Lowered(t.chain[k].ttls[j], seconds, u.chain[k].ttls[j]);
      LoweredInRange(t.chain[k].ttls[j], seconds, u.chain[k].ttls[j]);
    }
  }

  /** What a reply leaves of the times to live, while the session stays at its level. */
  lemma ReplyKeepsTtls(st: State, id: nat, code: int)
    requires Sound(st) && InFlight(st, id) && InFlight(HandleReply(st, id, code), id)
    requires SessionOf(HandleReply(st, id, code), id).step == SessionOf(st, id).step
    ensures SessionOf(HandleReply(st, id, code), id).chain == SessionOf(st, id).chain
  {
    ReplySession(st, id, code);
  }

  /**
   * While a session stays at a level, each time to live of the level is what it was on arrival less
   * the seconds of the ticks since, whatever else happens; those of other levels are as they were.
   */
  lemma {:induction false} TtlOverRun(st: State, es: seq<Event>, id: nat)
    requires Sound(st) && EnabledRun(st, es) && ShortTicks(es) && InFlight(st, id)
    requires StaysAt(st, es, id, SessionOf(st, id).step) && CurrentInRange(SessionOf(st, id))
    ensures Sound(Run(st, es)) && InFlight(Run(st, es), id)
    ensures SecondsOff(SessionOf(st, id), Elapsed(es), SessionOf(Run(st, es), id))
  {
    hide Next, Sound, Enabled, EnabledRun, SecondsOff, SessionOf, InFlight, CurrentInRange;
    SoundAtLevel(st, id);
    assert es[..|es|] == es;
    assert InFlight(Run(st, es[..|es|]), id);
    if es == [] {
      NothingOff(SessionOf(st, id));
    } else {
      var fs, e := es[..|es| - 1], es[|es| - 1];
      RunPrefix(st, es);
      assert Run(st, es) == Next(Run(st, fs), e);
      forall k | 0 <= k <= |fs|
        ensures InFlight(Run(st, fs[..k]), id) && SessionOf(Run(st, fs[..k]), id).step == SessionOf(st, id).step
      {
        assert fs[..k] == es[..k];
      }
      TtlOverRun(st, fs, id);
      assert SessionOf(Run(st, es[..|es|]), id).step == SessionOf(st, id).step;
      assert SessionOf(Run(st, fs[..|fs|]), id).step == SessionOf(st, id).step && fs[..|fs|] == fs;
      TtlStep(st, Run(st, fs), e, id, Elapsed(fs));
    }
  }

  lemma SoundAtLevel(st: State, id: nat)
    requires Sound(st) && InFlight(st, id)
    ensures AtLevel(SessionOf(st, id))
  {
    assert WellShaped(SessionOf(st, id));
  }

  lemma NothingOff(s: Session)
    requires AtLevel(s)
    ensures SecondsOff(s, 0, s)
  {
  }

  lemma TtlStep(st0: State, st: State, e: Event, id: nat, before: nat)
    requires Sound(st) && Enabled(st, e) && InFlight(st, id) && InFlight(Next(st, e), id) && InFlight(st0, id)
    requires e.Tick? ==> e.seconds < TWO31
    requires CurrentInRange(SessionOf(st0, id)) && SecondsOff(SessionOf(st0, id), before, SessionOf(st, id))
    requires SessionOf(Next(st, e), id).step == SessionOf(st, id).step
    ensures Sound(Next(st, e))
    ensures SecondsOff(SessionOf(st0, id), before + (if e.Tick? then e.seconds else 0), SessionOf(Next(st, e), id))
  {
    NextSound(st, e);
    hide Sound, SecondsOff, CurrentInRange, Older, UsedUp;
    if e.Tick? {
      assert 0 < e.seconds;
      hide Next, Enabled;
      TickTakesSeconds(st, id, e.seconds);
      TickOff(SessionOf(st0, id), before, SessionOf(st, id), e.seconds, SessionOf(Next(st, e), id));
    } else if e.Reply? && e.id == id {
      ReplyKeepsTtls(st, id, e.code);
      SameChainOff(SessionOf(st0, id), before, SessionOf(st, id), SessionOf(Next(st, e), id));
    } else {
      OtherEvents(st, e, id);
    }
  }

  lemma SameChainOff(s: Session, before: nat, t: Session, u: Session)
    requires CurrentInRange(s) && SecondsOff(s, before, t) && u.step == t.step && u.chain == t.chain
    ensures SecondsOff(s, before, u)
  {
  }

  /**
   * So a tick ends a session exactly when the seconds since it came to its level have reached the
   * time to live of one of the level's models: never earlier, and never later.
   */
  lemma EndsAtTickIff(st: State, es: seq<Event>, id: nat, seconds: nat)
    requires Sound(st) && EnabledRun(st, es) && ShortTicks(es) && InFlight(st, id)
    requires StaysAt(st, es, id, SessionOf(st, id).step) && CurrentInRange(SessionOf(st, id))
    requires 0 < seconds < TWO31
    ensures var ttls := CurrentLevel(SessionOf(st, id)).ttls;
            !InFlight(Next(Run(st, es), Tick(seconds)), id)
            <==> exists j :: 0 <= j < |ttls| && ttls[j] <= Elapsed(es) + seconds
  {
    hide Run, Sound, EnabledRun, StaysAt, Elapsed, Next, Lowered, ShortTicks;
    TtlOverRun(st, es, id);
    TickTakesSeconds(Run(st, es), id, seconds);
    var s, t, k := SessionOf(st, id), SessionOf(Run(st, es), id), SessionOf(st, id).step - 1;
    var ttls := CurrentLevel(s).ttls;
    forall j, x | 0 <= j < |ttls|
      ensures Lowered(t.chain[k].ttls[j], seconds, x) <==> x == ttls[j] - Elapsed(es) - seconds
    {
      OffInRange(s, Elapsed(es), t, j);
      LoweredInRange(t.chain[k].ttls[j], seconds, x);
    }
    if j :| 0 <= j < |ttls| && ttls[j] <= Elapsed(es) + seconds {
      assert Lowered(t.chain[k].ttls[j], seconds, ttls[j] - Elapsed(es) - seconds);
    }
  }

  // ----- the whole list

  /** The sessions of `t` stand in `s` in the same order. */
  ghost predicate InOrderOf(s: seq<Session>, t: seq<Session>) {
    && (forall a :: 0 <= a < |t| ==> FindSession(s, t[a].id) < |s|)
    && forall a, b :: 0 <= a < b < |t| ==> FindSession(s, t[a].id) < FindSession(s, t[b].id)
  }

  lemma RemovalKeepsOrder(s: seq<Session>, i: nat, x: nat, y: nat)
    requires UniqueIds(s) && i < |s|
    requires FindSession(RemoveAt(s, i), x) < FindSession(RemoveAt(s, i), y) < |s| - 1
    ensures FindSession(s, x) < FindSession(s, y) < |s|
  {
    var t := RemoveAt(s, i);
    assert forall k :: 0 <= k < |t| ==> t[k] == s[if k < i then k else k + 1];
    forall z | FindSession(t, z) < |t|
      ensures FindSession(s, z) == if FindSession(t, z) < i then FindSession(t, z) else FindSession(t, z) + 1
    {
      var k := if FindSession(t, z) < i then FindSession(t, z) else FindSession(t, z) + 1;
      assert s[k].id == z;
    }
  }

  lemma {:induction false} StopAllKeepsOrder(st: State, ids: seq<nat>)
    requires UniqueIds(st.sessions)
    ensures InOrderOf(st.sessions, StopAll(st, ids).sessions)
    decreases ids
  {
    if ids != [] {
      var i := FindSession(st.sessions, ids[0]);
      if i < |st.sessions| {
        StopLeavesOthers(st, i);
        StopAllLeavesOthers(st, ids);
        StopAllKeepsOrder(Stop(st, i), ids[1..]);
        hide Stop, UniqueIds, StopAll;
        var ss := StopAll(st, ids).sessions;
        forall a, b | 0 <= a < b < |ss|
          ensures FindSession(st.sessions, ss[a].id) < FindSession(st.sessions, ss[b].id)
        {
          RemovalKeepsOrder(st.sessions, i, ss[a].id, ss[b].id);
        }
      } else {
        StopAllKeepsOrder(st, ids[1..]);
      }
    } else {
      Itself(st.sessions);
    }
  }

  lemma Itself(s: seq<Session>)
    requires UniqueIds(s)
    ensures InOrderOf(s, s)
  {
    forall a | 0 <= a < |s| ensures FindSession(s, s[a].id) == a {}
  }

  lemma TickKeepsOrder(st: State, seconds: nat)
    requires Sound(st)
    ensures InOrderOf(st.sessions, Next(st, Tick(seconds)).sessions)
  {
    var aged := AgedSessions(st.sessions, seconds);
    AgingKeepsIds(st.sessions, seconds);
    hide AgedSession, StopAll, ExpiredIds;
    StopAllKeepsOrder(st.(sessions := aged), ExpiredIds(st.sessions, seconds));
    forall z ensures FindSession(aged, z) == FindSession(st.sessions, z) {
      assert forall i :: 0 <= i < |aged| ==> aged[i].id == st.sessions[i].id;
    }
  }
}
