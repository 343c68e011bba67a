/**
 * The life of a session: replies are conserved, success takes exactly one reply per model, and a
 * session whose levels all hold a model ends within a bound that can be read off when it starts.
 * A session that reaches a level without models does not.
 */
module Progress {
  import opened Lists
  import opened Entities
  import opened HookWalk
  import opened Registry
  import opened Protocol
  import opened Soundness

  // ----- conservation of replies

  /** How many models the first `k` levels hold. */
  function Awaited(s: Session, k: nat): nat
    requires k <= |s.chain|
  {
    Sum(LevelCounts(s.chain)[..k])
  }

  /** The levels that the session has begun all hold a model. */
  ghost predicate BegunNotEmpty(s: Session) {
    AtLevel(s) && forall k :: 0 <= k < s.step ==> s.chain[k].models != []
  }

  /**
   * Between messages: the session waits for one to all of the current level's models, and the
   * replies stored and the replies awaited add up to the models of the levels begun.
   */
  ghost predicate Counted(s: Session) {
    BegunNotEmpty(s) ==>
      && 1 <= s.wait <= |CurrentLevel(s).models|
      && |s.results| + s.wait == Awaited(s, s.step)
  }

  ghost predicate AllCounted(st: State) {
    forall i :: 0 <= i < |st.sessions| ==> Counted(st.sessions[i])
  }

  lemma {:induction false} SumSplit(s: seq<nat>, k: nat)
    requires k < |s|
    ensures Sum(s[..k + 1]) == Sum(s[..k]) + s[k]
    ensures Sum(s) == Sum(s[..k + 1]) + Sum(s[k + 1..])
  {
    assert s[..k + 1][..k] == s[..k];
    SumAppend(s[..k + 1], s[k + 1..]);
    assert s == s[..k + 1] + s[k + 1..];
  }

  lemma StopLeavesOthers(st: State, i: nat)
    requires i < |st.sessions| && UniqueIds(st.sessions)
    ensures Stop(st, i).sessions == RemoveAt(st.sessions, i)
    ensures forall k :: 0 <= k < |Stop(st, i).sessions| ==>
                          Stop(st, i).sessions[k] == st.sessions[if k < i then k else k + 1]
  {
    assert FindSession(st.sessions, st.sessions[i].id) == i;
  }

  predicate InFlight(st: State, id: nat) { FindSession(st.sessions, id) < |st.sessions| }

  function SessionOf(st: State, id: nat): (s: Session)
    requires InFlight(st, id)
    ensures s.id == id && s in st.sessions
  {
    st.sessions[FindSession(st.sessions, id)]
  }

  lemma OnlySession(st: State, s: Session)
    requires UniqueIds(st.sessions) && s in st.sessions
    ensures InFlight(st, s.id) && SessionOf(st, s.id) == s
  {
  }

  /** What a reply makes of the session it answers; nothing is left of one that ends. */
  function AfterReply(s: Session, code: int): Option<Session> {
    var t := s.(results := s.results + [code], wait := DecUint32(s.wait));
    if code != CODE_OK then None
    else if t.wait != 0 then Some(t)
    else if s.step + 1 > |s.chain| then None
    else Some(t.(step := s.step + 1, wait := |s.chain[s.step].models|))
  }

  /** A reply changes the session with its id and no other. */
  lemma ReplyEffect(st: State, id: nat, code: int)
    requires UniqueIds(st.sessions) && InFlight(st, id)
    ensures var i := FindSession(st.sessions, id);
            HandleReply(st, id, code).sessions ==
            match AfterReply(st.sessions[i], code)
            case None => RemoveAt(st.sessions, i)
            case Some(t) => st.sessions[i := t]
  {
    var i := FindSession(st.sessions, id);
    var s := st.sessions[i];
    var r := s.(results := s.results + [code]);
    var r' := r.(wait := DecUint32(s.wait));
    if code != CODE_OK {
      StopLeavesOthers(st.(sessions := st.sessions[i := r]), i);
      assert RemoveAt(st.sessions[i := r], i) == RemoveAt(st.sessions, i);
    } else if r'.wait == 0 {
      var ss := st.sessions[i := r'];
      if s.step + 1 > |s.chain| {
        var ss' := ss[i := r'.(step := s.step + 1)];
        StopLeavesOthers(st.(sessions := ss'), i);
        assert RemoveAt(ss', i) == RemoveAt(st.sessions, i);
      }
    }
  }

  lemma ReplySession(st: State, id: nat, code: int)
    requires UniqueIds(st.sessions) && InFlight(st, id)
    ensures var st' := HandleReply(st, id, code);
            && (InFlight(st', id) <==> AfterReply(SessionOf(st, id), code).Some?)
            && (InFlight(st', id) ==> SessionOf(st', id) == AfterReply(SessionOf(st, id), code).value)
  {
    ReplyEffect(st, id, code);
    var i := FindSession(st.sessions, id);
    match AfterReply(SessionOf(st, id), code)
    case None =>
    case Some(t) =>
      assert st.sessions[i := t][i] == t;
      OnlySession(st.(sessions := st.sessions[i := t]), t);
  }

  /** A level is complete, so the session moves on. */
  lemma AdvanceCounted(st: State, i: nat)
    requires i < |st.sessions| && UniqueIds(st.sessions) && st.sessions[i].step <= |st.sessions[i].chain|
    requires forall j :: 0 <= j < |st.sessions| && j != i ==> Counted(st.sessions[j])
    requires var s := st.sessions[i];
             (forall k :: 0 <= k < s.step ==> s.chain[k].models != []) ==> |s.results| == Awaited(s, s.step)
    ensures AllCounted(Advance(st, i))
  {
    hide Sum;
    var s := st.sessions[i];
    if s.step + 1 > |s.chain| {
      StopLeavesOthers(st.(sessions := st.sessions[i := s.(step := s.step + 1)]), i);
    } else {
      SumSplit(LevelCounts(s.chain), s.step);
    }
  }

  lemma ReplyCounted(st: State, id: nat, code: int)
    requires Sound(st) && AllCounted(st)
    ensures AllCounted(HandleReply(st, id, code))
  {
    var i := FindSession(st.sessions, id);
    if i < |st.sessions| {
      assert WellShaped(st.sessions[i]) && Counted(st.sessions[i]);
      var s := st.sessions[i].(results := st.sessions[i].results + [code]);
      var s' := s.(wait := DecUint32(s.wait));
      if code != CODE_OK {
        StopLeavesOthers(st.(sessions := st.sessions[i := s]), i);
      } else if s'.wait == 0 {
        AdvanceCounted(st.(sessions := st.sessions[i := s']), i);
      }
    }
  }

  lemma AgedCounted(s: Session, seconds: nat)
    requires WellShaped(s) && Counted(s)
    ensures Counted(AgedSession(s, seconds)) && WellShaped(AgedSession(s, seconds))
  {
    var t := AgedSession(s, seconds);
    assert LevelCounts(t.chain) == LevelCounts(s.chain);
    assert forall k :: 0 <= k < |s.chain| ==> t.chain[k].models == s.chain[k].models;
    if NoEmptyLevel(t.chain) {
      forall k | 0 <= k < |s.chain| ensures s.chain[k].models != [] { assert t.chain[k].models != []; }
    }
  }

  /** Stopping sessions keeps the others as they are. */
  lemma {:induction false} StopAllLeavesOthers(st: State, ids: seq<nat>)
    requires UniqueIds(st.sessions)
    ensures var ss := StopAll(st, ids).sessions;
            && UniqueIds(ss)
            && forall k :: 0 <= k < |ss| ==> ss[k] in st.sessions && ss[k].id !in ids
    decreases ids
  {
    if ids != [] {
      var i := FindSession(st.sessions, ids[0]);
      var st' := if i < |st.sessions| then Stop(st, i) else st;
      if i < |st.sessions| { StopLeavesOthers(st, i); }
      assert forall k :: 0 <= k < |st'.sessions| ==> st'.sessions[k] in st.sessions && st'.sessions[k].id != ids[0];
      hide Stop, FindSession, UniqueIds;
      StopAllLeavesOthers(st', ids[1..]);
      assert ids == [ids[0]] + ids[1..];
    }
  }

  lemma TickCounted(st: State, seconds: nat)
    requires Sound(st) && AllCounted(st)
    ensures AllCounted(HandleTick(st, seconds))
  {
    var ss := AgedSessions(st.sessions, seconds);
    forall i | 0 <= i < |ss| ensures Counted(ss[i]) && ss[i].id == st.sessions[i].id {
      assert WellShaped(st.sessions[i]) && Counted(st.sessions[i]);
      AgedCounted(st.sessions[i], seconds);
    }
    StopAllLeavesOthers(st.(sessions := ss), ExpiredIds(st.sessions, seconds));
  }

  /** A request adds at most one session, at its first level. */
  lemma RequestSessions(st: State, id: nat, verb: int, topic: Name, tunnel: Name)
    requires Sound(st)
    ensures var st' := HandleRequest(st, id, verb, topic, tunnel).0;
            var s := NewSession(st, id, verb, tunnel, RequestSubscribers(st, topic));
            || st'.sessions == st.sessions
            || (&& FindSession(st.sessions, id) == |st.sessions|
                && Refusal(st, id, verb, topic) == CODE_OK
                && st'.sessions == st.sessions + [s.(step := 1, wait := |s.chain[0].models|)])
  {
  }

  lemma RequestCounted(st: State, id: nat, verb: int, topic: Name, tunnel: Name)
    requires Sound(st) && AllCounted(st)
    ensures AllCounted(HandleRequest(st, id, verb, topic, tunnel).0)
  {
    RequestSessions(st, id, verb, topic, tunnel);
    var s := NewSession(st, id, verb, tunnel, RequestSubscribers(st, topic));
    SumSplit(LevelCounts(s.chain), 0);
  }

  /** Every event keeps the counters in step with the replies. */
  lemma NextCounted(st: State, e: Event)
    requires Sound(st) && AllCounted(st)
    ensures AllCounted(Next(st, e))
  {
    match e
    case Connect =>
    case RegisterEvent(_, _) =>
    case DeregisterEvent(_) =>
    case Request(id, verb, topic, tunnel) => RequestCounted(st, id, verb, topic, tunnel);
    case Reply(id, code) => ReplyCounted(st, id, code);
    case Tick(seconds) => TickCounted(st, seconds);
  }

  lemma {:induction false} RunCounted(es: seq<Event>)
    requires EnabledRun(Empty, es)
    ensures AllCounted(Run(Empty, es))
  {
    if es != [] {
      RunPrefix(Empty, es);
      RunCounted(es[..|es| - 1]);
      RunSound(es[..|es| - 1]);
      NextCounted(Run(Empty, es[..|es| - 1]), es[|es| - 1]);
    }
  }

  lemma {:induction false} SumPositive(s: seq<nat>)
    requires forall k :: 0 <= k < |s| ==> s[k] > 0
    ensures Sum(s) >= |s|
  {
    if s != [] { SumPositive(s[..|s| - 1]); }
  }

  /**
   * The reply with which a session succeeds is the one that makes as many replies as it has models; a
   * session with a level to come that holds none does not succeed.
   */
  lemma SuccessIff(st: State, i: nat)
    requires Sound(st) && AllCounted(st) && i < |st.sessions| && BegunNotEmpty(st.sessions[i])
    ensures var s := st.sessions[i];
            |HandleReply(st, s.id, CODE_OK).sessions| < |st.sessions| <==>
              NoEmptyLevel(s.chain) && |s.results| + 1 == TotalModels(s.chain)
  {
    hide Sum;
    var s := st.sessions[i];
    assert WellShaped(s) && Counted(s);
    var counts := LevelCounts(s.chain);
    SumSplit(counts, s.step - 1);
    if NoEmptyLevel(s.chain) { SumPositive(counts[s.step..]); }
    if s.step == |s.chain| { NothingLeft(counts); }
    OnlySession(st, s);
    ReplyEffect(st, s.id, CODE_OK);
  }

  lemma NothingLeft(counts: seq<nat>)
    ensures counts[|counts|..] == [] && Sum([]) == 0
  {
  }

  // ----- every session ends

  function AtLeastZero(t: int): nat { if t > 0 then t else 0 }

  function LeastTtl(ttls: seq<int>): nat {
    if ttls == [] then 0
    else if |ttls| == 1 then AtLeastZero(ttls[0])
    else
      var t, m := AtLeastZero(ttls[|ttls| - 1]), LeastTtl(ttls[..|ttls| - 1]);
      if t < m then t else m
  }

  function LeastTtls(chain: seq<Level>): (r: seq<nat>)
    ensures |r| == |chain|
    ensures forall k :: 0 <= k < |r| ==> r[k] == LeastTtl(chain[k].ttls)
  {
    seq(|chain|, k requires 0 <= k < |chain| => LeastTtl(chain[k].ttls))
  }

  /** Replies still to come, and the least time to live of the levels not finished. */
  function Budget(s: Session): nat
    requires AtLevel(s)
  {
    s.wait + Sum(LevelCounts(s.chain)[s.step..]) + Sum(LeastTtls(s.chain)[s.step - 1..])
  }

  ghost predicate TtlsInRange(chain: seq<Level>) {
    forall k, j :: 0 <= k < |chain| && 0 <= j < |chain[k].ttls| ==> 0 <= chain[k].ttls[j] < TWO31
  }

  /** A session the bound applies to: no empty level, and times to live that are not negative. */
  ghost predicate Bounded(s: Session) {
    WellShaped(s) && Counted(s) && NoEmptyLevel(s.chain) && TtlsInRange(s.chain)
  }

  predicate Concerns(e: Event, id: nat) { (e.Reply? && e.id == id) || e.Tick? }

  lemma {:induction false} LeastTtlBounds(ttls: seq<int>) returns (j: nat)
    requires ttls != []
    ensures j < |ttls| && LeastTtl(ttls) == AtLeastZero(ttls[j])
    ensures forall i :: 0 <= i < |ttls| ==> LeastTtl(ttls) <= AtLeastZero(ttls[i])
  {
    j := |ttls| - 1;
    if |ttls| > 1 {
      var k := LeastTtlBounds(ttls[..|ttls| - 1]);
      forall i | 0 <= i < |ttls| - 1 ensures ttls[i] == ttls[..|ttls| - 1][i] {}
      if LeastTtl(ttls) != AtLeastZero(ttls[j]) { j := k; }
    }
  }

  /** A level that does not run out loses at least a second of its least time to live. */
  lemma AgingShortens(ttls: seq<int>, seconds: nat)
    requires 0 < seconds < TWO31 && ttls != []
    requires forall j :: 0 <= j < |ttls| ==> 0 <= ttls[j] < TWO31
    requires FirstExpired(ttls, seconds) == |ttls|
    ensures LeastTtl(Aged(ttls, seconds)) < LeastTtl(ttls)
    ensures forall j :: 0 <= j < |ttls| ==> 0 < Aged(ttls, seconds)[j] < ttls[j]
  {
    hide ToInt32, FirstExpired, LeastTtl;
    var j := LeastTtlBounds(ttls);
    var k := LeastTtlBounds(Aged(ttls, seconds));
    forall i | 0 <= i < |ttls| ensures Aged(ttls, seconds)[i] == ttls[i] - seconds > 0 { NoWrap(ttls[i], seconds); }
    assert LeastTtl(Aged(ttls, seconds)) <= Aged(ttls, seconds)[j];
  }

  lemma NoWrap(ttl: int, seconds: nat)
    requires 0 <= ttl < TWO31 && 0 < seconds < TWO31
    ensures ToInt32(ttl - seconds) == ttl - seconds
  {
  }

  lemma AgedInRange(s: Session, seconds: nat)
    requires Bounded(s) && 0 < seconds < TWO31 && !Expires(s, seconds)
    ensures Bounded(AgedSession(s, seconds))
  {
    var t := AgedSession(s, seconds);
    AgedCounted(s, seconds);
    AgingShortens(s.chain[s.step - 1].ttls, seconds);
    forall m, j | 0 <= m < |t.chain| && 0 <= j < |t.chain[m].ttls| ensures 0 <= t.chain[m].ttls[j] < TWO31 {
      if m != s.step - 1 { assert t.chain[m] == s.chain[m]; }
    }
    assert forall m :: 0 <= m < |t.chain| ==> t.chain[m].models == s.chain[m].models;
  }

  lemma AgedBudget(s: Session, seconds: nat)
    requires Bounded(s) && 0 < seconds < TWO31 && !Expires(s, seconds)
    ensures Bounded(AgedSession(s, seconds)) && Budget(AgedSession(s, seconds)) < Budget(s)
  {
    hide Counted, Sum, LeastTtl;
    var t := AgedSession(s, seconds);
    var k := s.step - 1;
    AgedInRange(s, seconds);
    AgingShortens(s.chain[k].ttls, seconds);
    assert LevelCounts(t.chain) == LevelCounts(s.chain);
    assert LeastTtls(t.chain) == LeastTtls(s.chain)[k := LeastTtl(t.chain[k].ttls)];
    SumOfSuffixFalls(LeastTtls(s.chain), k, LeastTtl(t.chain[k].ttls));
  }

  lemma SumOfSuffixFalls(a: seq<nat>, k: nat, v: nat)
    requires k < |a| && v < a[k]
    ensures Sum(a[k := v][k..]) < Sum(a[k..])
  {
    SumFront(a[k..]);
    SumFront(a[k := v][k..]);
    assert a[k..][1..] == a[k := v][k..][1..];
  }

  lemma SumFront(s: seq<nat>)
    requires s != []
    ensures Sum(s) == s[0] + Sum(s[1..])
  {
    SumSplit(s, 0);
    assert s[..0] == [];
  }

  lemma {:induction false} ExpiredIdsMember(ss: seq<Session>, seconds: nat, id: nat)
    ensures id in ExpiredIds(ss, seconds) <==> exists i :: 0 <= i < |ss| && ss[i].id == id && Expires(ss[i], seconds)
  {
    if ss != [] {
      var k := |ss| - 1;
      ExpiredIdsMember(ss[..k], seconds, id);
      if i :| 0 <= i < |ss| && ss[i].id == id && Expires(ss[i], seconds) {
        if i < k { assert ss[..k][i] == ss[i]; }
      }
      if i :| 0 <= i < k && ss[..k][i].id == id && Expires(ss[..k][i], seconds) { assert ss[i] == ss[..k][i]; }
    }
  }

  /** A tick ends exactly the sessions that expire, and only ages the others. */
  lemma TickEndsExpired(st: State, id: nat, seconds: nat)
    requires Sound(st) && InFlight(st, id)
    ensures var st' := HandleTick(st, seconds);
            && (InFlight(st', id) <==> !Expires(SessionOf(st, id), seconds))
            && (InFlight(st', id) ==> SessionOf(st', id) == AgedSession(SessionOf(st, id), seconds))
  {
    hide StopAll, ExpiredIds, Expires, AgedSession;
    var s := SessionOf(st, id);
    var aged := AgedSession(s, seconds);
    var st1, ids := st.(sessions := AgedSessions(st.sessions, seconds)), ExpiredIds(st.sessions, seconds);
    assert WellShaped(s);
    AgingKeepsIds(st.sessions, seconds);
    assert st1.sessions[FindSession(st.sessions, id)] == aged;
    ExpiredIdsMember(st.sessions, seconds, id);
    StopAllLeavesOthers(st1, ids);
    if !Expires(s, seconds) {
      StopAllKeeps(st1, ids, aged);
      OnlySession(HandleTick(st, seconds), aged);
    }
  }

  lemma AgingKeepsIds(ss: seq<Session>, seconds: nat)
    ensures forall i :: 0 <= i < |ss| ==> AgedSession(ss[i], seconds).id == ss[i].id
    ensures UniqueIds(ss) ==> UniqueIds(AgedSessions(ss, seconds))
  {
  }

  lemma TickBudget(st: State, id: nat, seconds: nat)
    requires Sound(st) && InFlight(st, id) && Bounded(SessionOf(st, id)) && 0 < seconds < TWO31
    requires InFlight(HandleTick(st, seconds), id)
    ensures var s := SessionOf(HandleTick(st, seconds), id);
            s == AgedSession(SessionOf(st, id), seconds) && Bounded(s) && Budget(s) < Budget(SessionOf(st, id))
  {
    var st1 := st.(sessions := AgedSessions(st.sessions, seconds));
    assert forall i :: 0 <= i < |st.sessions| ==> st1.sessions[i].id == st.sessions[i].id;
    StopAllLeavesOthers(st1, ExpiredIds(st.sessions, seconds));
    var i := FindSession(st.sessions, id);
    ExpiredIdsMember(st.sessions, seconds, id);
    OnlySession(st1, SessionOf(HandleTick(st, seconds), id));
    OnlySession(st1, st1.sessions[i]);
    AgedBudget(st.sessions[i], seconds);
  }

  /** Moving to the next level trades the finished level's time to live for its count. */
  lemma MovedBudget(s: Session)
    requires Bounded(s) && s.wait == 1 && s.step < |s.chain|
    ensures var t := s.(results := s.results + [CODE_OK], step := s.step + 1, wait := |s.chain[s.step].models|);
            Bounded(t) && Budget(t) < Budget(s)
  {
    var counts, least := LevelCounts(s.chain), LeastTtls(s.chain);
    SumSplit(counts, s.step);
    SumFront(counts[s.step..]);
    SumFront(least[s.step - 1..]);
    assert counts[s.step..][1..] == counts[s.step + 1..];
    assert least[s.step - 1..][1..] == least[s.step..];
  }

  lemma ReplyBudget(st: State, id: nat, code: int)
    requires Sound(st) && InFlight(st, id) && Bounded(SessionOf(st, id))
    requires InFlight(HandleReply(st, id, code), id)
    ensures var s := SessionOf(HandleReply(st, id, code), id); Bounded(s) && Budget(s) < Budget(SessionOf(st, id))
  {
    ReplySession(st, id, code);
    var s := SessionOf(st, id);
    if s.wait == 1 { MovedBudget(s); }
  }

  /** What an event does to a session it does not concern: nothing. */
  lemma OtherEvents(st: State, e: Event, id: nat)
    requires Sound(st) && InFlight(st, id) && !Concerns(e, id)
    ensures InFlight(Next(st, e), id) && SessionOf(Next(st, e), id) == SessionOf(st, id)
  {
    match e
    case Connect =>
    case RegisterEvent(_, _) =>
    case DeregisterEvent(_) =>
    case Tick(_) =>
    case Request(rid, verb, topic, tunnel) =>
      RequestSessions(st, rid, verb, topic, tunnel);
      RequestSound(st, rid, verb, topic, tunnel);
      OnlySession(Next(st, e), SessionOf(st, id));
    case Reply(rid, code) => OtherReply(st, rid, code, id);
  }

  lemma OtherReply(st: State, rid: nat, code: int, id: nat)
    requires Sound(st) && InFlight(st, id) && rid != id
    ensures var st' := HandleReply(st, rid, code); InFlight(st', id) && SessionOf(st', id) == SessionOf(st, id)
  {
    ReplySound(st, rid, code);
    var i, j := FindSession(st.sessions, id), FindSession(st.sessions, rid);
    var st' := HandleReply(st, rid, code);
    if j < |st.sessions| {
      ReplyEffect(st, rid, code);
      StillThere(st.sessions, i, j);
      match AfterReply(st.sessions[j], code)
      case None =>
      case Some(t) => assert st.sessions[j := t][i] == st.sessions[i];
    }
    OnlySession(st', SessionOf(st, id));
  }

  lemma StillThere(ss: seq<Session>, i: nat, j: nat)
    requires i < |ss| && j < |ss| && i != j
    ensures ss[i] in RemoveAt(ss, j)
  {
    assert RemoveAt(ss, j)[if i < j then i else i - 1] == ss[i];
  }

  /** Each event that concerns a session and leaves it in flight uses up some of its budget. */
  lemma EventBudget(st: State, e: Event, id: nat)
    requires Sound(st) && Enabled(st, e) && (e.Tick? ==> e.seconds < TWO31)
    requires InFlight(st, id) && Bounded(SessionOf(st, id)) && InFlight(Next(st, e), id)
    ensures var s := SessionOf(Next(st, e), id);
            Bounded(s) && Budget(s) + (if Concerns(e, id) then 1 else 0) <= Budget(SessionOf(st, id))
  {
    if !Concerns(e, id) { OtherEvents(st, e, id); }
    else if e.Tick? { TickBudget(st, id, e.seconds); }
    else { ReplyBudget(st, id, e.code); }
  }

  /** How many events of a run concern the session. */
  function Concerning(es: seq<Event>, id: nat): nat {
    if es == [] then 0
    else Concerning(es[..|es| - 1], id) + (if Concerns(es[|es| - 1], id) then 1 else 0)
  }

  ghost predicate InFlightThroughout(st: State, es: seq<Event>, id: nat) {
    forall k :: 0 <= k <= |es| ==> InFlight(Run(st, es[..k]), id)
  }

  /** No tick is longer than half the range of an unsigned counter. */
  predicate ShortTicks(es: seq<Event>) {
    forall k :: 0 <= k < |es| && es[k].Tick? ==> es[k].seconds < TWO31
  }

  /**
   * Every session ends: as long as it is in flight, fewer replies and ticks have gone by than its
   * budget was, whatever else happens in between.
   */
  lemma {:induction false} SessionEnds(st: State, es: seq<Event>, id: nat)
    requires Sound(st) && EnabledRun(st, es) && ShortTicks(es)
    requires InFlightThroughout(st, es, id) && Bounded(SessionBefore(st, id))
    ensures Sound(Run(st, es)) && Bounded(SessionBefore(Run(st, es), id))
    ensures Concerning(es, id) + Budget(SessionBefore(Run(st, es), id)) <= Budget(SessionBefore(st, id))
    ensures Concerning(es, id) < Budget(SessionBefore(st, id))
  {
    assert es[..|es|] == es;
    if es != [] {
      var fs := es[..|es| - 1];
      RunPrefix(st, es);
      forall k | 0 <= k <= |fs| ensures InFlight(Run(st, fs[..k]), id) { assert fs[..k] == es[..k]; }
      SessionEnds(st, fs, id);
      hide Budget, Bounded, Enabled, EnabledRun, Next, Sound;
      NextSound(Run(st, fs), es[|es| - 1]);
      EventBudget(Run(st, fs), es[|es| - 1], id);
    }
    BudgetIsPositive(SessionBefore(Run(st, es), id));
  }

  lemma BudgetIsPositive(s: Session)
    requires Bounded(s)
    ensures AtLevel(s) && Budget(s) > 0
  {
  }

  /** The session with the id, or any session when there is none. */
  ghost function SessionBefore(st: State, id: nat): Session {
    if InFlight(st, id) then SessionOf(st, id) else Session(id, 0, "", [], [], [], [], 0, 0)
  }

  lemma RequestStaysSound(st: State, id: nat, verb: int, topic: Name, tunnel: Name)
    requires Sound(st)
    ensures Sound(HandleRequest(st, id, verb, topic, tunnel).0)
  {
    hide HandleRequest;
    var st' := HandleRequest(st, id, verb, topic, tunnel).0;
    RequestSound(st, id, verb, topic, tunnel);
    SameNodesIdentified(st.components, st.resources, st'.components, st'.resources);
  }

  /** The admitted session itself. */
  lemma SessionAdded(st: State, id: nat, verb: int, topic: Name, tunnel: Name)
    requires Sound(st)
    requires HandleRequest(st, id, verb, topic, tunnel).1 == CODE_OK
    ensures var st' := HandleRequest(st, id, verb, topic, tunnel).0;
            var s0 := NewSession(st, id, verb, tunnel, RequestSubscribers(st, topic));
            InFlight(st', id) && SessionOf(st', id) == s0.(step := 1, wait := |s0.chain[0].models|)
  {
    hide Levels, Front, Depth, Dependencies, WalkViews, ChainModels;
    RequestStaysSound(st, id, verb, topic, tunnel);
    RequestSessions(st, id, verb, topic, tunnel);
    RequestAdds(st, id, verb, topic, tunnel);
    hide HandleRequest;
    var st' := HandleRequest(st, id, verb, topic, tunnel).0;
    OnlySession(st', st'.sessions[|st.sessions|]);
  }

  /** At the start the budget is the number of models plus the least time to live of each level. */
  lemma BudgetAtStart(st: State, id: nat, verb: int, topic: Name, tunnel: Name)
    requires Sound(st)
    requires HandleRequest(st, id, verb, topic, tunnel).1 == CODE_OK
    ensures var st' := HandleRequest(st, id, verb, topic, tunnel).0;
            InFlight(st', id) && AtLevel(SessionOf(st', id)) &&
            var s := SessionOf(st', id);
            && Budget(s) == TotalModels(s.chain) + Sum(LeastTtls(s.chain))
            && s.chain == NewSession(st, id, verb, tunnel, RequestSubscribers(st, topic)).chain
  {
    hide HandleRequest, Levels, Budget, Sum;
    SessionAdded(st, id, verb, topic, tunnel);
    FreshBudget(SessionOf(HandleRequest(st, id, verb, topic, tunnel).0, id));
  }

  lemma RequestAdds(st: State, id: nat, verb: int, topic: Name, tunnel: Name)
    requires HandleRequest(st, id, verb, topic, tunnel).1 == CODE_OK
    ensures |HandleRequest(st, id, verb, topic, tunnel).0.sessions| == |st.sessions| + 1
  {
  }

  lemma FreshBudget(s: Session)
    requires s.step == 1 && |s.chain| > 0 && s.wait == |s.chain[0].models|
    ensures Budget(s) == TotalModels(s.chain) + Sum(LeastTtls(s.chain))
  {
    SumFront(LevelCounts(s.chain));
    assert LeastTtls(s.chain)[0..] == LeastTtls(s.chain);
  }

  lemma {:induction false} TtlsComeFromComponents(cs: seq<Component>, subs: seq<Name>, j: nat)
    requires j < |Ttls(cs, subs)|
    ensures exists i :: 0 <= i < |cs| && cs[i].ttl == Ttls(cs, subs)[j]
  {
    var k := |subs| - 1;
    if j < |Ttls(cs, subs[..k])| {
      TtlsComeFromComponents(cs, subs[..k], j);
    } else {
      assert cs[FindComponent(cs, subs[k])].ttl == Ttls(cs, subs)[j];
    }
  }

  lemma LevelsInRange(cs: seq<Component>, subs: seq<Name>, d: nat)
    requires forall i :: 0 <= i < |cs| ==> 0 <= cs[i].ttl < TWO31
    ensures TtlsInRange(Levels(cs, subs, d))
  {
    hide Front, Levels, Ttls;
    var chain := Levels(cs, subs, d);
    forall k, j | 0 <= k < d && 0 <= j < |chain[k].ttls| ensures 0 <= chain[k].ttls[j] < TWO31 {
      LevelsAt(cs, subs, d, k);
      TtlsComeFromComponents(cs, Front(cs, subs, k), j);
    }
  }

  lemma FirstLevelNotEmpty(st: State, id: nat, verb: int, topic: Name, tunnel: Name)
    requires Refusal(st, id, verb, topic) == CODE_OK
    ensures NewSession(st, id, verb, tunnel, RequestSubscribers(st, topic)).chain[0].models != []
  {
    hide Depth, Levels, Dependencies, WalkViews, MeetsLockWithin;
    var subs := RequestSubscribers(st, topic);
    LevelsAt(st.components, subs, LevelsToWalk(st.components, subs, verb), 0);
  }

  /** An admitted session is counted, begins with a level that holds models, and has times to live in range. */
  lemma AdmittedInRange(st: State, id: nat, verb: int, topic: Name, tunnel: Name)
    requires Sound(st) && AllCounted(st)
    requires forall i :: 0 <= i < |st.components| ==> 0 <= st.components[i].ttl < TWO31
    requires HandleRequest(st, id, verb, topic, tunnel).1 == CODE_OK
    ensures var st' := HandleRequest(st, id, verb, topic, tunnel).0;
            && Sound(st') && InFlight(st', id)
            && var s := SessionOf(st', id);
               WellShaped(s) && BegunNotEmpty(s) && Counted(s) && TtlsInRange(s.chain)
  {
    hide HandleRequest, Levels, Counted, TtlsInRange, Depth, Identified, Refusal;
    var cs, subs := st.components, RequestSubscribers(st, topic);
    SessionAdded(st, id, verb, topic, tunnel);
    RequestStaysSound(st, id, verb, topic, tunnel);
    RequestCounted(st, id, verb, topic, tunnel);
    NotRefused(st, id, verb, topic, tunnel);
    FirstLevelNotEmpty(st, id, verb, topic, tunnel);
    LevelsInRange(cs, subs, LevelsToWalk(cs, subs, verb));
    SoundAndCounted(HandleRequest(st, id, verb, topic, tunnel).0, id);
  }

  lemma NotRefused(st: State, id: nat, verb: int, topic: Name, tunnel: Name)
    requires HandleRequest(st, id, verb, topic, tunnel).1 == CODE_OK
    ensures Refusal(st, id, verb, topic) == CODE_OK
  {
  }

  lemma SoundAndCounted(st: State, id: nat)
    requires Sound(st) && AllCounted(st) && InFlight(st, id)
    ensures WellShaped(SessionOf(st, id)) && Counted(SessionOf(st, id))
  {
  }

  /**
   * When only models hook others and no registered time to live is negative, every session that is
   * admitted is one the bound applies to.
   */
  lemma AdmittedIsBounded(st: State, id: nat, verb: int, topic: Name, tunnel: Name)
    requires Sound(st) && AllCounted(st) && OnlyModelsHook(st.components)
    requires forall i :: 0 <= i < |st.components| ==> 0 <= st.components[i].ttl < TWO31
    requires HandleRequest(st, id, verb, topic, tunnel).1 == CODE_OK
    ensures var st' := HandleRequest(st, id, verb, topic, tunnel).0;
            InFlight(st', id) && Bounded(SessionOf(st', id))
  {
    hide Levels, Front, Depth, Dependencies, WalkViews, ChainModels;
    var cs, subs := st.components, RequestSubscribers(st, topic);
    AdmittedInRange(st, id, verb, topic, tunnel);
    SessionAdded(st, id, verb, topic, tunnel);
    NotRefused(st, id, verb, topic, tunnel);
    FirstLevelNotEmpty(st, id, verb, topic, tunnel);
    if WriteLike(verb) { LevelsNotEmpty(cs, subs); }
  }

  // ----- empty levels

  function OkReplies(es: seq<Event>, id: nat): nat {
    if es == [] then 0
    else
      var e := es[|es| - 1];
      OkReplies(es[..|es| - 1], id) + (if e.Reply? && e.id == id then 1 else 0)
  }

  /** `id` waits at a level without models, after `n` replies since it arrived there. */
  ghost predicate StuckAt(st: State, id: nat, step: nat, chain: seq<Level>, n: nat) {
    && InFlight(st, id)
    && var s := SessionOf(st, id);
       && AtLevel(s) && s.step == step && s.chain == chain && CurrentLevel(s).models == []
       && s.wait == if n == 0 then 0 else TWO32 - n
  }

  /**
   * A session that has arrived at a level without models stays there: no tick expires it, and the
   * first reply wraps its counter, so that only an error reply or the 2^32-th reply moves it.
   */
  lemma {:induction false} EmptyLevelStays(st: State, es: seq<Event>, id: nat, step: nat, chain: seq<Level>)
    requires Sound(st) && EnabledRun(st, es) && StuckAt(st, id, step, chain, 0)
    requires forall k :: 0 <= k < |es| && es[k].Reply? && es[k].id == id ==> es[k].code == CODE_OK
    requires OkReplies(es, id) < TWO32
    ensures Sound(Run(st, es)) && StuckAt(Run(st, es), id, step, chain, OkReplies(es, id))
  {
    if es != [] {
      var fs := es[..|es| - 1];
      RunPrefix(st, es);
      EmptyLevelStays(st, fs, id, step, chain);
      EmptyLevelStep(Run(st, fs), es[|es| - 1], id, step, chain, OkReplies(fs, id));
    }
  }

  /** The last awaited reply before a level without models takes the session there. */
  lemma EmptyLevelReached(st: State, id: nat)
    requires Sound(st) && InFlight(st, id)
    requires var s := SessionOf(st, id);
             s.wait == 1 && s.step < |s.chain| && s.chain[s.step].models == []
    ensures var s := SessionOf(st, id);
            StuckAt(HandleReply(st, id, CODE_OK), id, s.step + 1, s.chain, 0)
  {
    ReplySession(st, id, CODE_OK);
  }

  lemma EmptyLevelStep(st: State, e: Event, id: nat, step: nat, chain: seq<Level>, n: nat)
    requires Sound(st) && Enabled(st, e) && StuckAt(st, id, step, chain, n) && n < TWO32
    requires e.Reply? && e.id == id ==> e.code == CODE_OK && n + 1 < TWO32
    ensures Sound(Next(st, e))
    ensures StuckAt(Next(st, e), id, step, chain, if e.Reply? && e.id == id then n + 1 else n)
  {
    NextSound(st, e);
    if e.Tick? {
      EmptyLevelTick(st, id, e.seconds);
    } else if e.Reply? && e.id == id {
      ReplySession(st, id, e.code);
    } else {
      OtherEvents(st, e, id);
    }
  }

  lemma EmptyLevelTick(st: State, id: nat, seconds: nat)
    requires Sound(st) && InFlight(st, id)
    requires AtLevel(SessionOf(st, id)) && CurrentLevel(SessionOf(st, id)).models == []
    ensures InFlight(HandleTick(st, seconds), id) && SessionOf(HandleTick(st, seconds), id) == SessionOf(st, id)
  {
    hide StopAll, ExpiredIds, FirstExpired;
    var s := SessionOf(st, id);
    assert WellShaped(s);
    var st1 := st.(sessions := AgedSessions(st.sessions, seconds));
    var i := FindSession(st.sessions, id);
    assert AgedSession(s, seconds).chain == s.chain;
    assert st1.sessions[i] == s;
    assert forall k :: 0 <= k < |st.sessions| ==> st1.sessions[k].id == st.sessions[k].id;
    ExpiredIdsMember(st.sessions, seconds, id);
    StopAllKeeps(st1, ExpiredIds(st.sessions, seconds), s);
    StopAllLeavesOthers(st1, ExpiredIds(st.sessions, seconds));
    OnlySession(HandleTick(st, seconds), s);
  }

  lemma {:induction false} StopAllKeeps(st: State, ids: seq<nat>, s: Session)
    requires UniqueIds(st.sessions) && s in st.sessions && s.id !in ids
    ensures s in StopAll(st, ids).sessions
    decreases ids
  {
    if ids != [] {
      var j := FindSession(st.sessions, ids[0]);
      if j < |st.sessions| {
        StopLeavesOthers(st, j);
        var i :| 0 <= i < |st.sessions| && st.sessions[i] == s;
        assert ids[0] in ids;
        StillThere(st.sessions, i, j);
        hide Stop, UniqueIds;
        StopAllKeeps(Stop(st, j), ids[1..], s);
      } else {
        StopAllKeeps(st, ids[1..], s);
      }
    }
  }

  // ----- long ticks

  /** A tick shortens a time to live exactly when it does not wrap the counter. */
  lemma TickShortensIff(ttl: int, seconds: nat)
    requires 0 <= ttl < TWO31 && 0 < seconds < TWO32
    ensures ToInt32(ttl - seconds) < ttl <==> seconds <= ttl + TWO31
  {
  }
}
