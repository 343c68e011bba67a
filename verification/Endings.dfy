/**
 * When a session is sure to end: exactly when none of its levels is empty. With an empty level ahead,
 * good replies lead there, and from then on the ticks can go on for ever.
 */
module Endings {
  import opened Lists
  import opened Entities
  import opened Protocol
  import opened Soundness
  import opened Progress

  // ----- runs in two parts

  lemma {:induction false} RunJoin(st: State, a: seq<Event>, b: seq<Event>)
    ensures Run(st, a + b) == Run(Run(st, a), b)
    decreases |b|
  {
    hide Next;
    if b == [] {
      assert a + b == a;
    } else {
      var n := |b| - 1;
      assert (a + b)[..|a + b| - 1] == a + b[..n];
      RunJoin(st, a, b[..n]);
    }
  }

  /** A run that can happen, with ticks below 2^31 seconds, through all of which `id` is in flight. */
  ghost predicate Through(st: State, es: seq<Event>, id: nat) {
    EnabledRun(st, es) && ShortTicks(es) && InFlightThroughout(st, es, id)
  }

  lemma ThroughJoin(st: State, a: seq<Event>, b: seq<Event>, id: nat)
    requires Through(st, a, id) && Through(Run(st, a), b, id)
    ensures Through(st, a + b, id)
  {
    hide Run, Enabled, InFlight;
    var es := a + b;
    forall k | 0 <= k <= |es|
      ensures k <= |a| ==> es[..k] == a[..k]
      ensures k > |a| ==> Run(st, es[..k]) == Run(Run(st, a), b[..k - |a|])
    {
      if k <= |a| {
        assert es[..k] == a[..k];
      } else {
        assert es[..k] == a + b[..k - |a|];
        RunJoin(st, a, b[..k - |a|]);
      }
    }
    assert b[..0] == [] && a[..|a|] == a && Run(Run(st, a), []) == Run(st, a) by { RunNothing(Run(st, a)); }
    forall k | 0 <= k < |es| ensures Enabled(Run(st, es[..k]), es[k]) {
      if k > |a| { assert es[k] == b[k - |a|]; }
    }
  }

  lemma RunNothing(st: State)
    ensures Run(st, []) == st
  {
  }

  lemma {:induction false} ConcerningJoin(a: seq<Event>, b: seq<Event>, id: nat)
    ensures Concerning(a + b, id) == Concerning(a, id) + Concerning(b, id)
    decreases |b|
  {
    if b == [] {
      assert a + b == a;
    } else {
      var n := |b| - 1;
      assert (a + b)[..|a + b| - 1] == a + b[..n];
      ConcerningJoin(a, b[..n], id);
    }
  }

  // ----- towards an empty level

  /** The first empty level, `e`, lies ahead. */
  ghost predicate EmptyAhead(s: Session, e: nat) {
    && 1 <= s.step <= e < |s.chain| && s.chain[e].models == [] && 1 <= s.wait
    && forall k :: 0 <= k < e ==> s.chain[k].models != []
  }

  lemma OneReply(st: State, id: nat)
    requires Sound(st) && InFlight(st, id) && id != 0
    requires AfterReply(SessionOf(st, id), CODE_OK).Some?
    ensures var es := [Reply(id, CODE_OK)];
            && Through(st, es, id) && Concerning(es, id) == 1
            && Sound(Run(st, es)) && InFlight(Run(st, es), id)
            && SessionOf(Run(st, es), id) == AfterReply(SessionOf(st, id), CODE_OK).value
  {
    var e := Reply(id, CODE_OK);
    var es := [e];
    assert es[..0] == [] && es[..1] == es;
    assert Run(st, es) == Next(st, e);
    assert Concerning(es[..0], id) == 0;
    ReplySession(st, id, CODE_OK);
    NextSound(st, e);
  }

  /** From anywhere before it, good replies take the session to the first empty level. */
  lemma {:induction false} EmptyLevelIsReached(st: State, id: nat, e: nat) returns (es: seq<Event>)
    requires Sound(st) && InFlight(st, id) && id != 0 && EmptyAhead(SessionOf(st, id), e)
    ensures forall k :: 0 <= k < |es| ==> es[k] == Reply(id, CODE_OK)
    ensures Through(st, es, id) && Sound(Run(st, es))
    ensures StuckAt(Run(st, es), id, e + 1, SessionOf(st, id).chain, 0)
    decreases e - SessionOf(st, id).step, SessionOf(st, id).wait
  {
    hide Through, Run, Sound;
    var s := SessionOf(st, id);
    OneReply(st, id);
    es := [Reply(id, CODE_OK)];
    var t := SessionOf(Run(st, es), id);
    InFlightAfter(st, es, id);
    if s.wait != 1 || s.step != e {
      var rest := EmptyLevelIsReached(Run(st, es), id, e);
      ThroughJoin(st, es, rest, id);
      RunJoin(st, es, rest);
      es := es + rest;
    }
  }

  lemma InFlightAfter(st: State, es: seq<Event>, id: nat)
    requires Through(st, es, id)
    ensures InFlight(Run(st, es), id)
  {
    assert es[..|es|] == es;
  }

  // ----- ticks at an empty level

  function Ticks(n: nat): seq<Event> { seq(n, _ => Tick(1)) }

  lemma {:induction false} TicksConcern(n: nat, id: nat)
    ensures Concerning(Ticks(n), id) == n && OkReplies(Ticks(n), id) == 0
  {
    if n > 0 {
      assert Ticks(n)[..n - 1] == Ticks(n - 1);
      TicksConcern(n - 1, id);
    }
  }

  lemma {:induction false} TicksEnabled(st: State, n: nat)
    ensures EnabledRun(st, Ticks(n))
  {
  }

  /** No number of ticks ends a session at an empty level. */
  lemma TicksGoOn(st: State, id: nat, step: nat, chain: seq<Level>, n: nat)
    requires Sound(st) && StuckAt(st, id, step, chain, 0)
    ensures Through(st, Ticks(n), id)
  {
    var es := Ticks(n);
    TicksEnabled(st, n);
    forall k | 0 <= k <= n ensures InFlight(Run(st, es[..k]), id) {
      assert es[..k] == Ticks(k);
      TicksConcern(k, id);
      TicksEnabled(st, k);
      EmptyLevelStays(st, Ticks(k), id, step, chain);
    }
  }

  // ----- the exact condition

  /** However the run goes on, fewer than `n` replies and ticks go by before the session ends. */
  ghost predicate EndsWithin(st: State, id: nat, n: nat) {
    forall es :: Through(st, es, id) ==> Concerning(es, id) < n
  }

  /** With an empty level ahead there is a run of any length. */
  lemma EmptyAheadNeverEnds(st: State, id: nat, e: nat, n: nat)
    requires Sound(st) && InFlight(st, id) && id != 0 && EmptyAhead(SessionOf(st, id), e)
    ensures !EndsWithin(st, id, n)
  {
    hide Through, Run, Sound, StuckAt;
    var es := EmptyLevelIsReached(st, id, e);
    var ts := Ticks(n);
    TicksGoOn(Run(st, es), id, e + 1, SessionOf(st, id).chain, n);
    ThroughJoin(st, es, ts, id);
    ConcerningJoin(es, ts, id);
    TicksConcern(n, id);
    assert Concerning(es + ts, id) >= n;
  }

  lemma {:induction false} FirstEmpty(chain: seq<Level>, n: nat) returns (e: nat)
    requires n < |chain| && chain[n].models == []
    ensures e <= n && chain[e].models == [] && forall k :: 0 <= k < e ==> chain[k].models != []
  {
    e := n;
    if k :| 0 <= k < n && chain[k].models == [] { e := FirstEmpty(chain, k); }
  }

  /**
   * A session whose levels begun hold models, and whose times to live are in range, is sure to end if
   * and only if none of its levels is empty. Then its budget bounds the replies and ticks to come; else
   * nothing does.
   */
  lemma SessionEndsIff(st: State, id: nat)
    requires Sound(st) && InFlight(st, id) && id != 0
    requires var s := SessionOf(st, id); BegunNotEmpty(s) && Counted(s) && TtlsInRange(s.chain)
    ensures var s := SessionOf(st, id);
            && (NoEmptyLevel(s.chain) <==> EndsWithin(st, id, Budget(s)))
            && (NoEmptyLevel(s.chain) <==> exists n :: EndsWithin(st, id, n))
  {
    hide Run, EnabledRun, ShortTicks, Concerning, Budget;
    var s := SessionOf(st, id);
    if NoEmptyLevel(s.chain) {
      assert WellShaped(s);
      forall es | Through(st, es, id) ensures Concerning(es, id) < Budget(s) { SessionEnds(st, es, id); }
    } else {
      var k :| 0 <= k < |s.chain| && s.chain[k].models == [];
      var e := FirstEmpty(s.chain, k);
      forall n: nat ensures !EndsWithin(st, id, n) { EmptyAheadNeverEnds(st, id, e, n); }
    }
  }

  /**
   * For an admitted request, with registered times to live in range: its session is sure to end if and
   * only if every level of the chain that was built holds a model. Its budget is then the bound.
   */
  lemma AdmittedEndsIff(st: State, id: nat, verb: int, topic: Name, tunnel: Name)
    requires Sound(st) && AllCounted(st) && id != 0
    requires forall i :: 0 <= i < |st.components| ==> 0 <= st.components[i].ttl < TWO31
    requires HandleRequest(st, id, verb, topic, tunnel).1 == CODE_OK
    ensures var st' := HandleRequest(st, id, verb, topic, tunnel).0;
            var chain := NewSession(st, id, verb, tunnel, RequestSubscribers(st, topic)).chain;
            && InFlight(st', id) && AtLevel(SessionOf(st', id))
            && (NoEmptyLevel(chain) <==> EndsWithin(st', id, TotalModels(chain) + Sum(LeastTtls(chain))))
            && (NoEmptyLevel(chain) <==> exists n :: EndsWithin(st', id, n))
  {
    BudgetAtStart(st, id, verb, topic, tunnel);
    AdmittedInRange(st, id, verb, topic, tunnel);
    hide HandleRequest, NewSession, EndsWithin, TotalModels, Sum, LeastTtls, RequestSubscribers;
    SessionEndsIff(HandleRequest(st, id, verb, topic, tunnel).0, id);
  }
}
