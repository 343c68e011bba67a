/**
 * In which order lists are built. The lookups and the walk are described here by the positions that
 * their entries come from: all positions of a kind, each once, in order.
 */
module ListOrder {
  import opened Lists
  import opened Entities
  import opened TopicMatch
  import opened TopicLookup
  import opened HookWalk

  // ----- positions in order

  ghost predicate Increasing(ks: seq<nat>) {
    forall a, b :: 0 <= a < b < |ks| ==> ks[a] < ks[b]
  }

  /** `a` comes before `b` at the first place where they differ. */
  ghost predicate LexLess(a: seq<nat>, b: seq<nat>) {
    exists p :: 0 <= p < |a| && p < |b| && a[..p] == b[..p] && a[p] < b[p]
  }

  ghost predicate LexSorted(ts: seq<seq<nat>>) {
    forall a, b :: 0 <= a < b < |ts| ==> LexLess(ts[a], ts[b])
  }

  lemma LexExtend(a: seq<nat>, b: seq<nat>, x: seq<nat>, y: seq<nat>)
    requires LexLess(a, b)
    ensures LexLess(a + x, b + y)
  {
    var p :| 0 <= p < |a| && p < |b| && a[..p] == b[..p] && a[p] < b[p];
    assert (a + x)[..p] == a[..p] && (b + y)[..p] == b[..p];
  }

  lemma LexLast(a: seq<nat>, x: nat, y: nat)
    requires x < y
    ensures LexLess(a + [x], a + [y])
  {
    var p := |a|;
    assert (a + [x])[..p] == (a + [y])[..p];
  }

  lemma LexJoin(ts: seq<seq<nat>>, us: seq<seq<nat>>)
    requires LexSorted(ts) && LexSorted(us)
    requires forall t, u :: t in ts && u in us ==> LexLess(t, u)
    ensures LexSorted(ts + us)
  {
    hide LexLess;
    var all := ts + us;
    forall a, b | 0 <= a < b < |all| ensures LexLess(all[a], all[b]) {
      if a < |ts| <= b { assert all[a] in ts && all[b] in us; }
    }
  }

  lemma LexIrreflexive(t: seq<nat>)
    ensures !LexLess(t, t)
  {
  }

  lemma LexSortedNoDup(ts: seq<seq<nat>>)
    requires LexSorted(ts)
    ensures NoDup(ts)
  {
    forall a, b | 0 <= a < b < |ts| ensures ts[a] != ts[b] { LexIrreflexive(ts[a]); }
  }

  /** `t` prolonged by each of the positions `ks`. */
  ghost function Prolongations(t: seq<nat>, ks: seq<nat>): (us: seq<seq<nat>>)
    ensures |us| == |ks|
    ensures forall a :: 0 <= a < |us| ==> us[a] == t + [ks[a]]
  {
    seq(|ks|, a requires 0 <= a < |ks| => t + [ks[a]])
  }

  lemma ProlongationsFacts(t: seq<nat>, ks: seq<nat>)
    requires Increasing(ks)
    ensures LexSorted(Prolongations(t, ks))
    ensures forall u {:trigger u in Prolongations(t, ks)} ::
              u in Prolongations(t, ks) <==> |u| == |t| + 1 && u[..|t|] == t && u[|t|] in ks
  {
    var us := Prolongations(t, ks);
    forall a, b | 0 <= a < b < |us| ensures LexLess(us[a], us[b]) { LexLast(t, ks[a], ks[b]); }
    forall u | |u| == |t| + 1 && u[..|t|] == t && u[|t|] in ks ensures u in us {
      var a :| 0 <= a < |ks| && ks[a] == u[|t|];
      assert us[a] == u;
    }
  }

  /** The group of the last parent comes after those of the parents before it. */
  lemma LexGroups(ts: seq<seq<nat>>, us: seq<seq<nat>>, t: seq<nat>, ks: seq<nat>)
    requires LexSorted(ts + [t]) && LexSorted(us) && Increasing(ks)
    requires forall u :: u in us ==> u != [] && u[..|u| - 1] in ts
    ensures LexSorted(us + Prolongations(t, ks))
  {
    ProlongationsFacts(t, ks);
    forall u, v | u in us && v in Prolongations(t, ks) ensures LexLess(u, v) {
      var p := u[..|u| - 1];
      var a :| 0 <= a < |ts| && ts[a] == p;
      assert (ts + [t])[a] == p && (ts + [t])[|ts|] == t;
      LexExtend(p, t, [u[|u| - 1]], [v[|t|]]);
      assert p + [u[|u| - 1]] == u && t + [v[|t|]] == v;
    }
    LexJoin(us, Prolongations(t, ks));
  }

  // ----- the lookups

  lemma HookedByInOrder(cs: seq<Component>, n: Name) returns (ks: seq<nat>)
    ensures Increasing(ks) && |ks| == |HookedBy(cs, n)|
    ensures forall i {:trigger i in ks} :: i in ks <==> 0 <= i < |cs| && n in cs[i].hooks
    ensures forall a :: 0 <= a < |ks| ==> ks[a] < |cs| && HookedBy(cs, n)[a] == cs[ks[a]].name
  {
    ks := [];
    var k := 0;
    while k < |cs|
      invariant k <= |cs| && Increasing(ks) && |ks| == |HookedBy(cs[..k], n)|
      invariant forall i {:trigger i in ks} :: i in ks <==> 0 <= i < k && n in cs[i].hooks
      invariant forall a :: 0 <= a < |ks| ==> ks[a] < k && HookedBy(cs[..k], n)[a] == cs[ks[a]].name
    {
      assert cs[..k + 1][..k] == cs[..k];
      if n in cs[k].hooks { ks := ks + [k]; }
      k := k + 1;
    }
    assert cs[..k] == cs;
  }

  lemma SubscribedByInOrder(rs: seq<Resource>, n: Name) returns (ks: seq<nat>)
    ensures Increasing(ks) && |ks| == |SubscribedBy(rs, n)|
    ensures forall i {:trigger i in ks} :: i in ks <==> 0 <= i < |rs| && n in rs[i].subscribers
    ensures forall a :: 0 <= a < |ks| ==> ks[a] < |rs| && SubscribedBy(rs, n)[a] == rs[ks[a]].name
  {
    ks := [];
    var k := 0;
    while k < |rs|
      invariant k <= |rs| && Increasing(ks) && |ks| == |SubscribedBy(rs[..k], n)|
      invariant forall i {:trigger i in ks} :: i in ks <==> 0 <= i < k && n in rs[i].subscribers
      invariant forall a :: 0 <= a < |ks| ==> ks[a] < k && SubscribedBy(rs[..k], n)[a] == rs[ks[a]].name
    {
      assert rs[..k + 1][..k] == rs[..k];
      if n in rs[k].subscribers { ks := ks + [k]; }
      k := k + 1;
    }
    assert rs[..k] == rs;
  }

  lemma ModelsInOrder(cs: seq<Component>, subs: seq<Name>) returns (ks: seq<nat>)
    ensures Increasing(ks) && |ks| == |Models(cs, subs)|
    ensures forall i {:trigger i in ks} :: i in ks <==> 0 <= i < |subs| && IsModel(cs, subs[i])
    ensures forall a :: 0 <= a < |ks| ==> ks[a] < |subs| && Models(cs, subs)[a] == subs[ks[a]]
  {
    hide IsModel;
    ks := [];
    var k := 0;
    while k < |subs|
      invariant k <= |subs| && Increasing(ks) && |ks| == |Models(cs, subs[..k])|
      invariant forall i {:trigger i in ks} :: i in ks <==> 0 <= i < k && IsModel(cs, subs[i])
      invariant forall a :: 0 <= a < |ks| ==> ks[a] < k && Models(cs, subs[..k])[a] == subs[ks[a]]
    {
      assert subs[..k + 1][..k] == subs[..k];
      if IsModel(cs, subs[k]) { ks := ks + [k]; }
      k := k + 1;
    }
    assert subs[..k] == subs;
  }

  lemma ViewsInOrder(cs: seq<Component>, subs: seq<Name>) returns (ks: seq<nat>)
    ensures Increasing(ks) && |ks| == |Views(cs, subs)|
    ensures forall i {:trigger i in ks} :: i in ks <==> 0 <= i < |subs| && HasRole(cs, subs[i], ROLE_VIEW)
    ensures forall a :: 0 <= a < |ks| ==> ks[a] < |subs| && Views(cs, subs)[a] == subs[ks[a]]
  {
    hide HasRole;
    ks := [];
    var k := 0;
    while k < |subs|
      invariant k <= |subs| && Increasing(ks) && |ks| == |Views(cs, subs[..k])|
      invariant forall i {:trigger i in ks} :: i in ks <==> 0 <= i < k && HasRole(cs, subs[i], ROLE_VIEW)
      invariant forall a :: 0 <= a < |ks| ==> ks[a] < k && Views(cs, subs[..k])[a] == subs[ks[a]]
    {
      assert subs[..k + 1][..k] == subs[..k];
      if HasRole(cs, subs[k], ROLE_VIEW) { ks := ks + [k]; }
      k := k + 1;
    }
    assert subs[..k] == subs;
  }

  lemma WildcardNodesInOrder(rs: seq<Resource>, topic: Name) returns (ks: seq<nat>)
    ensures Increasing(ks) && |ks| == |WildcardNodes(rs, topic)|
    ensures forall i {:trigger i in ks} :: i in ks <==> 0 <= i < |rs| && Accepts(rs[i].name, CutQuery(topic))
    ensures forall a :: 0 <= a < |ks| ==> ks[a] < |rs| && WildcardNodes(rs, topic)[a] == rs[ks[a]]
  {
    hide Accepts, CutQuery;
    ks := [];
    var k := 0;
    while k < |rs|
      invariant k <= |rs| && Increasing(ks) && |ks| == |WildcardNodes(rs[..k], topic)|
      invariant forall i {:trigger i in ks} :: i in ks <==> 0 <= i < k && Accepts(rs[i].name, CutQuery(topic))
      invariant forall a :: 0 <= a < |ks| ==> ks[a] < k && WildcardNodes(rs[..k], topic)[a] == rs[ks[a]]
    {
      assert rs[..k + 1][..k] == rs[..k];
      if Accepts(rs[k].name, CutQuery(topic)) { ks := ks + [k]; }
      k := k + 1;
    }
    assert rs[..k] == rs;
  }

  /** The resource is one that the topic concerns. */
  ghost predicate Concerned(r: Resource, topic: Name) {
    r.name == CutQuery(topic) || Accepts(r.name, CutQuery(topic))
  }

  /**
   * The concerned resources, each once: those that accept the topic in list order, then the one that
   * carries it as a name and rejects it, if there is one.
   */
  lemma MatchedInOrder(rs: seq<Resource>, topic: Name) returns (ks: seq<nat>)
    requires UniqueResources(rs)
    ensures NoDup(ks) && |ks| == |MatchedNodes(rs, topic)|
    ensures forall i {:trigger i in ks} :: i in ks <==> 0 <= i < |rs| && Concerned(rs[i], topic)
    ensures forall a :: 0 <= a < |ks| ==> ks[a] < |rs| && MatchedNodes(rs, topic)[a] == rs[ks[a]]
    ensures forall a :: 0 <= a < |ks| - 1 ==> Accepts(rs[ks[a]].name, CutQuery(topic))
    ensures forall a, b :: 0 <= a < b < |ks| && Accepts(rs[ks[b]].name, CutQuery(topic)) ==> ks[a] < ks[b]
  {
    hide Accepts, CutQuery, WildcardNodes;
    ks := WildcardNodesInOrder(rs, topic);
    var ws, i := WildcardNodes(rs, topic), FindResource(rs, CutQuery(topic));
    assert forall j :: 0 <= j < |rs| && rs[j].name == CutQuery(topic) ==> j == i;
    forall a | 0 <= a < |ks| ensures Accepts(rs[ks[a]].name, CutQuery(topic)) { assert ks[a] in ks; }
    if i < |rs| {
      if i in ks {
        var a :| 0 <= a < |ks| && ks[a] == i;
        assert ws[a].name == rs[i].name;
      } else {
        forall a | 0 <= a < |ws| ensures ws[a].name != rs[i].name { assert ks[a] != i; }
        ks := ks + [i];
      }
    }
  }

  // ----- the subscribers of a list of resources

  /** `p` is the position of a subscriber: which resource, and where in its list. */
  ghost predicate IsEntry(rs: seq<Resource>, p: seq<nat>) {
    |p| == 2 && p[0] < |rs| && p[1] < |rs[p[0]].subscribers|
  }

  ghost function EntryAt(rs: seq<Resource>, p: seq<nat>): Name
    requires IsEntry(rs, p)
  {
    rs[p[0]].subscribers[p[1]]
  }

  ghost function Upto(n: nat): (ks: seq<nat>)
    ensures |ks| == n && forall i :: 0 <= i < n ==> ks[i] == i
  {
    seq(n, i => i)
  }

  lemma UptoMember(n: nat, i: nat)
    ensures i in Upto(n) <==> i < n
  {
    if i < n { assert Upto(n)[i] == i; }
  }

  /** All subscribers of all the resources, resource by resource, repetitions kept. */
  lemma {:induction false} SubscribersInOrder(rs: seq<Resource>) returns (ps: seq<seq<nat>>)
    ensures LexSorted(ps) && |ps| == |SubscribersOf(rs)|
    ensures forall p {:trigger p in ps} :: p in ps <==> IsEntry(rs, p)
    ensures forall a :: 0 <= a < |ps| ==> IsEntry(rs, ps[a]) && SubscribersOf(rs)[a] == EntryAt(rs, ps[a])
  {
    ps := [];
    if rs != [] {
      var k := |rs| - 1;
      var before := SubscribersInOrder(rs[..k]);
      var ks := Upto(|rs[k].subscribers|);
      ProlongationsFacts([k], ks);
      forall i: nat { UptoMember(|ks|, i); }
      forall p, q | p in before && q in Prolongations([k], ks) ensures LexLess(p, q) {
        assert p[..0] == q[..0] && q[..1][0] == k;
      }
      LexJoin(before, Prolongations([k], ks));
      ps := before + Prolongations([k], ks);
      forall p ensures p in ps <==> IsEntry(rs, p) {
        if IsEntry(rs, p) && p[0] == k { assert p[..1] == [k]; }
        if p in Prolongations([k], ks) { assert p[0] == p[..1][0]; }
      }
      forall a | 0 <= a < |ps| ensures IsEntry(rs, ps[a]) && SubscribersOf(rs)[a] == EntryAt(rs, ps[a]) {
        assert ps[a] in ps;
      }
    }
  }

  // ----- the walk

  /**
   * A trace: the position of a first component in `subs`, then at each step the position in the list
   * of a component that hooks the model before it.
   */
  ghost predicate IsTrace(cs: seq<Component>, subs: seq<Name>, t: seq<nat>)
    decreases |t|, 0
  {
    && t != []
    && var last := |t| - 1;
       if last == 0 then t[0] < |subs|
       else
         && IsTrace(cs, subs, t[..last])
         && t[last] < |cs| && IsModel(cs, EndOf(cs, subs, t[..last]))
         && EndOf(cs, subs, t[..last]) in cs[t[last]].hooks
  }

  /** The component that a trace leads to. */
  ghost function EndOf(cs: seq<Component>, subs: seq<Name>, t: seq<nat>): Name
    requires IsTrace(cs, subs, t)
    decreases |t|, 1
  {
    if |t| == 1 then subs[t[0]] else cs[t[|t| - 1]].name
  }

  /** `t` is a trace to one of the components in front, and `u` one step longer. */
  ghost predicate StepFrom(cs: seq<Component>, subs: seq<Name>, ts: seq<seq<nat>>, u: seq<nat>) {
    u != [] && u[..|u| - 1] in ts && IsTrace(cs, subs, u)
  }

  /** `ts` are traces to the components `f`, one by one. */
  ghost predicate LeadTo(cs: seq<Component>, subs: seq<Name>, ts: seq<seq<nat>>, f: seq<Name>) {
    |ts| == |f| && forall a :: 0 <= a < |ts| ==> IsTrace(cs, subs, ts[a]) && f[a] == EndOf(cs, subs, ts[a])
  }

  lemma LeadJoin(cs: seq<Component>, subs: seq<Name>, ts: seq<seq<nat>>, f: seq<Name>, us: seq<seq<nat>>, g: seq<Name>)
    requires LeadTo(cs, subs, ts, f) && LeadTo(cs, subs, us, g)
    ensures LeadTo(cs, subs, ts + us, f + g)
  {
    hide IsTrace, EndOf;
  }

  lemma LeadPart(cs: seq<Component>, subs: seq<Name>, ts: seq<seq<nat>>, f: seq<Name>)
    requires LeadTo(cs, subs, ts, f) && LexSorted(ts) && f != []
    ensures LeadTo(cs, subs, ts[..|f| - 1], f[..|f| - 1]) && LexSorted(ts[..|f| - 1])
    ensures IsTrace(cs, subs, ts[|f| - 1]) && f[|f| - 1] == EndOf(cs, subs, ts[|f| - 1])
    ensures ts == ts[..|f| - 1] + [ts[|f| - 1]]
  {
    hide IsTrace, EndOf;
  }

  /** What follows one trace. */
  lemma StepGroup(cs: seq<Component>, subs: seq<Name>, t: seq<nat>) returns (ks: seq<nat>)
    requires IsTrace(cs, subs, t)
    ensures Increasing(ks)
    ensures forall u {:trigger u in Prolongations(t, ks)} ::
              u in Prolongations(t, ks) <==> u != [] && u[..|u| - 1] == t && IsTrace(cs, subs, u)
    ensures var n := EndOf(cs, subs, t);
            LeadTo(cs, subs, Prolongations(t, ks), if IsModel(cs, n) then HookedBy(cs, n) else [])
  {
    hide IsTrace, EndOf;
    var n := EndOf(cs, subs, t);
    var names := if IsModel(cs, n) then HookedBy(cs, n) else [];
    ks := [];
    if IsModel(cs, n) { ks := HookedByInOrder(cs, n); }
    hide HookedBy, Prolongations, IsModel;
    forall u ensures u in Prolongations(t, ks) <==> u != [] && u[..|u| - 1] == t && IsTrace(cs, subs, u) {
      GroupMember(cs, subs, t, ks, u);
    }
    var us := Prolongations(t, ks);
    forall a | 0 <= a < |us| ensures IsTrace(cs, subs, us[a]) && names[a] == EndOf(cs, subs, us[a]) {
      assert us[a] in us && us[a][..|us[a]| - 1] == t;
      TraceStep(cs, subs, us[a]);
    }
  }

  lemma GroupMember(cs: seq<Component>, subs: seq<Name>, t: seq<nat>, ks: seq<nat>, u: seq<nat>)
    requires IsTrace(cs, subs, t) && Increasing(ks)
    requires var n := EndOf(cs, subs, t);
             forall i {:trigger i in ks} :: i in ks <==> 0 <= i < |cs| && IsModel(cs, n) && n in cs[i].hooks
    ensures u in Prolongations(t, ks) <==> u != [] && u[..|u| - 1] == t && IsTrace(cs, subs, u)
  {
    assert t != [];
    hide IsTrace, EndOf, IsModel;
    ProlongationsFacts(t, ks);
    if u != [] && u[..|u| - 1] == t { TraceStep(cs, subs, u); }
  }

  lemma TraceStep(cs: seq<Component>, subs: seq<Name>, u: seq<nat>)
    requires u != [] && IsTrace(cs, subs, u[..|u| - 1])
    ensures var (n, c) := (EndOf(cs, subs, u[..|u| - 1]), u[|u| - 1]);
            && (IsTrace(cs, subs, u) <==> c < |cs| && IsModel(cs, n) && n in cs[c].hooks)
            && (IsTrace(cs, subs, u) ==> EndOf(cs, subs, u) == cs[c].name)
  {
  }

  lemma StepMember(cs: seq<Component>, subs: seq<Name>, ts: seq<seq<nat>>, t: seq<nat>, before: seq<seq<nat>>,
      group: seq<seq<nat>>, u: seq<nat>)
    requires u in before <==> StepFrom(cs, subs, ts, u)
    requires u in group <==> u != [] && u[..|u| - 1] == t && IsTrace(cs, subs, u)
    ensures u in before + group <==> StepFrom(cs, subs, ts + [t], u)
  {
    hide IsTrace;
  }

  lemma {:induction false} StepInOrder(cs: seq<Component>, subs: seq<Name>, f: seq<Name>, ts: seq<seq<nat>>)
    returns (us: seq<seq<nat>>)
    requires LeadTo(cs, subs, ts, f) && LexSorted(ts)
    ensures LeadTo(cs, subs, us, NextLevel(cs, f)) && LexSorted(us)
    ensures forall u {:trigger u in us} :: u in us <==> StepFrom(cs, subs, ts, u)
  {
    us := [];
    if f != [] {
      hide IsModel, HookedBy, IsTrace, EndOf, LexLess, LexSorted, Prolongations, LeadTo;
      var k := |f| - 1;
      LeadPart(cs, subs, ts, f);
      var before := StepInOrder(cs, subs, f[..k], ts[..k]);
      var ks := StepGroup(cs, subs, ts[k]);
      us := before + Prolongations(ts[k], ks);
      LexGroups(ts[..k], before, ts[k], ks);
      LeadJoin(cs, subs, before, NextLevel(cs, f[..k]), Prolongations(ts[k], ks),
               if IsModel(cs, f[k]) then HookedBy(cs, f[k]) else []);
      forall u ensures u in us <==> StepFrom(cs, subs, ts, u) {
        StepMember(cs, subs, ts[..k], ts[k], before, Prolongations(ts[k], ks), u);
      }
    }
  }

  /**
   * Level `k` of the walk: the ends of all traces of `k` steps, each once, those of an earlier first
   * component first, and so on step by step.
   */
  lemma {:induction false} FrontInOrder(cs: seq<Component>, subs: seq<Name>, k: nat) returns (ts: seq<seq<nat>>)
    ensures LexSorted(ts) && LeadTo(cs, subs, ts, Front(cs, subs, k))
    ensures forall t {:trigger t in ts} :: t in ts <==> |t| == k + 1 && IsTrace(cs, subs, t)
  {
    hide IsModel, NextLevel, LexLess, LexSorted, LeadTo;
    if k == 0 {
      ts := FirstInOrder(cs, subs);
    } else {
      var before := FrontInOrder(cs, subs, k - 1);
      ts := StepInOrder(cs, subs, Front(cs, subs, k - 1), before);
      hide EndOf;
      forall t ensures t in ts <==> |t| == k + 1 && IsTrace(cs, subs, t) {
        if |t| == k + 1 && IsTrace(cs, subs, t) { assert IsTrace(cs, subs, t[..k]); }
      }
    }
  }

  lemma FirstInOrder(cs: seq<Component>, subs: seq<Name>) returns (ts: seq<seq<nat>>)
    ensures LexSorted(ts) && LeadTo(cs, subs, ts, subs)
    ensures forall t {:trigger t in ts} :: t in ts <==> |t| == 1 && IsTrace(cs, subs, t)
  {
    ts := Prolongations([], Upto(|subs|));
    ProlongationsFacts([], Upto(|subs|));
    forall t ensures t in ts <==> |t| == 1 && IsTrace(cs, subs, t) {
      if |t| == 1 { UptoMember(|subs|, t[0]); }
    }
    forall a | 0 <= a < |ts| ensures IsTrace(cs, subs, ts[a]) && ts[a] == [a] { assert ts[a] == [] + [a]; }
  }

  /** The trace leads to a model, at level `k`. */
  ghost predicate ModelTrace(cs: seq<Component>, subs: seq<Name>, t: seq<nat>, k: nat) {
    |t| == k + 1 && IsTrace(cs, subs, t) && IsModel(cs, EndOf(cs, subs, t))
  }

  /** The models of level `k`, likewise. */
  lemma LevelInOrder(cs: seq<Component>, subs: seq<Name>, d: nat, k: nat) returns (ts: seq<seq<nat>>)
    requires k < d
    ensures LexSorted(ts) && LeadTo(cs, subs, ts, Levels(cs, subs, d)[k].models)
    ensures forall t {:trigger t in ts} :: t in ts <==> ModelTrace(cs, subs, t, k)
  {
    hide Levels, IsModel, LexLess, Models, Front, IsTrace, EndOf;
    LevelsAt(cs, subs, d, k);
    var all := FrontInOrder(cs, subs, k);
    var f := Front(cs, subs, k);
    var ks := ModelsInOrder(cs, f);
    ts := seq(|ks|, a requires 0 <= a < |ks| => all[ks[a]]);
    forall t ensures t in ts <==> ModelTrace(cs, subs, t, k) {
      LevelMember(cs, subs, k, f, all, ks, ts, t);
    }
  }

  lemma LevelMember(cs: seq<Component>, subs: seq<Name>, k: nat, f: seq<Name>, all: seq<seq<nat>>, ks: seq<nat>,
      ts: seq<seq<nat>>, t: seq<nat>)
    requires LeadTo(cs, subs, all, f) && (t in all <==> |t| == k + 1 && IsTrace(cs, subs, t))
    requires forall i {:trigger i in ks} :: i in ks <==> 0 <= i < |f| && IsModel(cs, f[i])
    requires |ts| == |ks| && forall a :: 0 <= a < |ks| ==> ks[a] < |all| && ts[a] == all[ks[a]]
    ensures t in ts <==> ModelTrace(cs, subs, t, k)
  {
    hide IsModel, IsTrace, EndOf;
    if t in ts {
      var a :| 0 <= a < |ts| && ts[a] == t;
      assert ks[a] in ks;
    }
    if ModelTrace(cs, subs, t, k) {
      var i :| 0 <= i < |all| && all[i] == t;
      assert i in ks;
      var a :| 0 <= a < |ks| && ks[a] == i;
      assert ts[a] == t;
    }
  }

  // ----- the resources to lock

  /** What the models `ms` subscribe to, one after the other, repetitions kept. */
  ghost function Subscriptions(rs: seq<Resource>, ms: seq<Name>): seq<Name> {
    if ms == [] then [] else Subscriptions(rs, ms[..|ms| - 1]) + SubscribedBy(rs, ms[|ms| - 1])
  }

  lemma {:induction false} SubscriptionsJoin(rs: seq<Resource>, a: seq<Name>, b: seq<Name>)
    ensures Subscriptions(rs, a + b) == Subscriptions(rs, a) + Subscriptions(rs, b)
  {
    hide SubscribedBy;
    if b == [] {
      assert a + b == a;
    } else {
      var n := |b| - 1;
      assert (a + b)[..|a + b| - 1] == a + b[..n] && (a + b)[|a + b| - 1] == b[n];
      SubscriptionsJoin(rs, a, b[..n]);
    }
  }

  lemma {:induction false} AppendNewJoin(base: seq<Name>, a: seq<Name>, b: seq<Name>)
    ensures AppendNew(base, a + b) == AppendNew(AppendNew(base, a), b)
  {
    if b == [] {
      assert a + b == a;
    } else {
      var n := |b| - 1;
      assert (a + b)[..|a + b| - 1] == a + b[..n] && (a + b)[|a + b| - 1] == b[n];
      AppendNewJoin(base, a, b[..n]);
    }
  }

  lemma {:induction false} AddedAreSubscriptions(cs: seq<Component>, rs: seq<Resource>, f: seq<Name>, deps: seq<Name>)
    ensures AddDependencies(cs, rs, f, deps) == AppendNew(deps, Subscriptions(rs, Models(cs, f)))
  {
    hide SubscribedBy, IsModel;
    if f == [] {
      NothingNew(deps);
    } else {
      var k := |f| - 1;
      AddedAreSubscriptions(cs, rs, f[..k], deps);
      if IsModel(cs, f[k]) {
        var before := Models(cs, f[..k]);
        assert Models(cs, f) == before + [f[k]];
        assert (before + [f[k]])[..|before|] == before && (before + [f[k]])[|before|] == f[k];
        AppendNewJoin(deps, Subscriptions(rs, before), SubscribedBy(rs, f[k]));
        assert Subscriptions(rs, Models(cs, f)) == Subscriptions(rs, before) + SubscribedBy(rs, f[k]);
      } else {
        assert Models(cs, f) == Models(cs, f[..k]);
        assert AddDependencies(cs, rs, f, deps) == AddDependencies(cs, rs, f[..k], deps);
      }
    }
  }

  lemma NothingNew(base: seq<Name>)
    ensures AppendNew(base, []) == base
  {
  }

  /** The resources to lock are those that the models of the chain subscribe to, taken in chain order. */
  lemma {:induction false} DependenciesAreSubscriptions(cs: seq<Component>, rs: seq<Resource>, subs: seq<Name>, k: nat)
    ensures Dependencies(cs, rs, subs, k) == AppendNew([], Subscriptions(rs, ChainModels(Levels(cs, subs, k))))
  {
    hide AppendNew, Front, AddDependencies, Models, Ttls, ChainModels;
    ChainGrows(cs, subs, k);
    if k == 0 {
      NothingNew([]);
    } else {
      var f, before := Front(cs, subs, k - 1), ChainModels(Levels(cs, subs, k - 1));
      DependenciesAreSubscriptions(cs, rs, subs, k - 1);
      AddedAreSubscriptions(cs, rs, f, Dependencies(cs, rs, subs, k - 1));
      SubscriptionsJoin(rs, before, Models(cs, f));
      AppendNewJoin([], Subscriptions(rs, before), Subscriptions(rs, Models(cs, f)));
    }
  }

  lemma ChainGrows(cs: seq<Component>, subs: seq<Name>, k: nat)
    ensures k == 0 ==> ChainModels(Levels(cs, subs, k)) == []
    ensures k > 0 ==>
              ChainModels(Levels(cs, subs, k)) ==
              ChainModels(Levels(cs, subs, k - 1)) + Models(cs, Front(cs, subs, k - 1))
  {
    hide Front, Models, Ttls;
    var ms := LevelModels(Levels(cs, subs, k));
    if k > 0 {
      assert ms[..k - 1] == LevelModels(Levels(cs, subs, k - 1));
      assert ms[k - 1] == Models(cs, Front(cs, subs, k - 1));
    }
  }

  /** The entries of `r` are in the order in which they first come in `xs`. */
  ghost predicate InFirstOrder(xs: seq<Name>, r: seq<Name>) {
    forall a, b :: 0 <= a < b < |r| ==> FirstIndex(xs, r[a]) < FirstIndex(xs, r[b])
  }

  /** Merging keeps the order in which names come first. */
  lemma {:induction false} AppendNewOrder(xs: seq<Name>)
    ensures InFirstOrder(xs, AppendNew([], xs))
  {
    if xs != [] {
      var k := |xs| - 1;
      var before, r := AppendNew([], xs[..k]), AppendNew([], xs);
      AppendNewOrder(xs[..k]);
      AppendNewFacts([], xs[..k]);
      assert xs == xs[..k] + [xs[k]];
      assert r == if xs[k] in before then before else before + [xs[k]];
      forall a, b | 0 <= a < b < |r| ensures FirstIndex(xs, r[a]) < FirstIndex(xs, r[b]) {
        assert r[a] == before[a] && before[a] in xs[..k];
        FirstInPrefix(xs, k, r[a]);
        if b < |before| {
          assert before[b] in xs[..k] && r[b] == before[b];
          FirstInPrefix(xs, k, before[b]);
        } else {
          FirstIndexIs(xs, xs[k], k);
        }
      }
    }
  }

  lemma FirstInPrefix(xs: seq<Name>, k: nat, n: Name)
    requires k <= |xs| && n in xs[..k]
    ensures FirstIndex(xs, n) == FirstIndex(xs[..k], n) < k
  {
    FirstIndexFacts(xs[..k], n);
    var i := FirstIndex(xs[..k], n);
    assert xs[i] == xs[..k][i] && forall j :: 0 <= j < i ==> xs[j] == xs[..k][j];
    FirstIndexIs(xs, n, i);
  }

  /**
   * The resources to lock: each that a model of the chain subscribes to, once, in the order in which
   * the models of the chain, one after the other, subscribe to them.
   */
  lemma DependenciesInOrder(cs: seq<Component>, rs: seq<Resource>, subs: seq<Name>, k: nat)
    ensures var all := Subscriptions(rs, ChainModels(Levels(cs, subs, k)));
            var deps := Dependencies(cs, rs, subs, k);
            NoDup(deps) && (forall n :: n in deps <==> n in all) && InFirstOrder(all, deps)
  {
    hide ChainModels, Levels, Dependencies, Subscriptions, FirstIndex, AppendNew;
    var all := Subscriptions(rs, ChainModels(Levels(cs, subs, k)));
    DependenciesAreSubscriptions(cs, rs, subs, k);
    AppendNewFacts([], all);
    AppendNewOrder(all);
  }
}
