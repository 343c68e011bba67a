/**
 * Chain building (src/sanji_controller.c, routing_req and dependency_read): from the components
 * subscribed to a topic the controller goes, level by level, to the components that hook the
 * models found. This module gives the walk as functions of the two lists and proves what the
 * levels and the list of resources to lock hold, and when the walk ends.
 */
module HookWalk {
  import opened Lists
  import opened Entities

  // ----- the two inverted indexes

  /** The components that hook `n`, in list order. */
  function HookedBy(cs: seq<Component>, n: Name): seq<Name> {
    if cs == [] then []
    else
      var last := cs[|cs| - 1];
      HookedBy(cs[..|cs| - 1], n) + (if n in last.hooks then [last.name] else [])
  }

  /** The resources that `n` subscribes to, in list order. */
  function SubscribedBy(rs: seq<Resource>, n: Name): seq<Name> {
    if rs == [] then []
    else
      var last := rs[|rs| - 1];
      SubscribedBy(rs[..|rs| - 1], n) + (if n in last.subscribers then [last.name] else [])
  }

  // ----- one level

  /** The models among `subs`, repetitions kept. */
  function Models(cs: seq<Component>, subs: seq<Name>): seq<Name> {
    if subs == [] then []
    else
      var n := subs[|subs| - 1];
      Models(cs, subs[..|subs| - 1]) + (if IsModel(cs, n) then [n] else [])
  }

  /** Their times to live. */
  function Ttls(cs: seq<Component>, subs: seq<Name>): (r: seq<int>)
    ensures |r| == |Models(cs, subs)|
  {
    if subs == [] then []
    else
      var n := subs[|subs| - 1];
      Ttls(cs, subs[..|subs| - 1]) + (if IsModel(cs, n) then [cs[FindComponent(cs, n)].ttl] else [])
  }

  function Views(cs: seq<Component>, subs: seq<Name>): seq<Name> {
    if subs == [] then []
    else
      var n := subs[|subs| - 1];
      Views(cs, subs[..|subs| - 1]) + (if HasRole(cs, n, ROLE_VIEW) then [n] else [])
  }

  /** The components of the next level. */
  function NextLevel(cs: seq<Component>, subs: seq<Name>): seq<Name> {
    if subs == [] then []
    else
      var n := subs[|subs| - 1];
      NextLevel(cs, subs[..|subs| - 1]) + (if IsModel(cs, n) then HookedBy(cs, n) else [])
  }

  /** `deps` with the resources of the level's models that it misses. */
  function AddDependencies(cs: seq<Component>, rs: seq<Resource>, subs: seq<Name>, deps: seq<Name>): seq<Name> {
    if subs == [] then deps
    else
      var n := subs[|subs| - 1];
      var d := AddDependencies(cs, rs, subs[..|subs| - 1], deps);
      if IsModel(cs, n) then AppendNew(d, SubscribedBy(rs, n)) else d
  }

  predicate AnyBusy(cs: seq<Component>, subs: seq<Name>) {
    exists i :: 0 <= i < |subs| && IsModel(cs, subs[i]) && ComponentLocked(cs, subs[i])
  }

  // ----- the walk

  /** The components reached at level `k`. */
  function Front(cs: seq<Component>, subs: seq<Name>, k: nat): seq<Name> {
    if k == 0 then subs else NextLevel(cs, Front(cs, subs, k - 1))
  }

  /** The levels before level `k`, as the session keeps them. */
  function Levels(cs: seq<Component>, subs: seq<Name>, k: nat): (r: seq<Level>)
    ensures |r| == k
  {
    if k == 0 then []
    else
      var f := Front(cs, subs, k - 1);
      Levels(cs, subs, k - 1) + [Level(Models(cs, f), Ttls(cs, f))]
  }

  /** The resources to lock for the levels before level `k`. */
  function Dependencies(cs: seq<Component>, rs: seq<Resource>, subs: seq<Name>, k: nat): seq<Name> {
    if k == 0 then []
    else AddDependencies(cs, rs, Front(cs, subs, k - 1), Dependencies(cs, rs, subs, k - 1))
  }

  function WalkViews(cs: seq<Component>, subs: seq<Name>, k: nat): seq<Name> {
    if k == 0 then [] else WalkViews(cs, subs, k - 1) + Views(cs, Front(cs, subs, k - 1))
  }

  /** The walk runs out of components. */
  ghost predicate Ends(cs: seq<Component>, subs: seq<Name>) {
    exists k: nat :: Front(cs, subs, k) == []
  }

  /** The number of levels: the walk always takes the first one, then stops before an empty one. */
  function Depth(cs: seq<Component>, subs: seq<Name>): (d: nat)
    ensures 1 <= d <= |cs| + 2
    ensures forall k :: 1 <= k < d ==> Front(cs, subs, k) != []
    ensures d < |cs| + 2 ==> Front(cs, subs, d) == []
  {
    DepthFrom(cs, subs, 1)
  }

  function DepthFrom(cs: seq<Component>, subs: seq<Name>, k: nat): (d: nat)
    requires 1 <= k <= |cs| + 2
    requires forall j :: 1 <= j < k ==> Front(cs, subs, j) != []
    ensures k <= d <= |cs| + 2
    ensures forall j :: 1 <= j < d ==> Front(cs, subs, j) != []
    ensures d < |cs| + 2 ==> Front(cs, subs, d) == []
    decreases |cs| + 2 - k
  {
    if k == |cs| + 2 || Front(cs, subs, k) == [] then k else DepthFrom(cs, subs, k + 1)
  }

  // ----- what the indexes and levels hold

  lemma {:induction false} HookedByMember(cs: seq<Component>, n: Name, m: Name)
    ensures m in HookedBy(cs, n) <==> exists i :: 0 <= i < |cs| && cs[i].name == m && n in cs[i].hooks
  {
    if cs != [] {
      var k := |cs| - 1;
      HookedByMember(cs[..k], n, m);
      if i :| 0 <= i < |cs| && cs[i].name == m && n in cs[i].hooks {
        if i < k { assert cs[..k][i].name == m; }
      }
      if i :| 0 <= i < |cs[..k]| && cs[..k][i].name == m && n in cs[..k][i].hooks {
        assert cs[i].name == m;
      }
    }
  }

  lemma {:induction false} HookedByNoDup(cs: seq<Component>, n: Name)
    requires UniqueComponents(cs)
    ensures NoDup(HookedBy(cs, n))
  {
    if cs != [] {
      var k := |cs| - 1;
      HookedByNoDup(cs[..k], n);
      HookedByMember(cs[..k], n, cs[k].name);
    }
  }

  /** Resource `r` is registered and lists `m` as a subscriber. */
  ghost predicate SubscribesTo(rs: seq<Resource>, m: Name, r: Name) {
    exists i :: 0 <= i < |rs| && rs[i].name == r && m in rs[i].subscribers
  }

  lemma {:induction false} SubscribedByMember(rs: seq<Resource>, n: Name, m: Name)
    ensures m in SubscribedBy(rs, n) <==> SubscribesTo(rs, n, m)
  {
    if rs != [] {
      var k := |rs| - 1;
      SubscribedByMember(rs[..k], n, m);
      if i :| 0 <= i < |rs| && rs[i].name == m && n in rs[i].subscribers {
        if i < k { assert rs[..k][i].name == m; }
      }
      if i :| 0 <= i < |rs[..k]| && rs[..k][i].name == m && n in rs[..k][i].subscribers {
        assert rs[i].name == m;
      }
    }
  }

  lemma {:induction false} ModelsMember(cs: seq<Component>, subs: seq<Name>, m: Name)
    ensures m in Models(cs, subs) <==> m in subs && IsModel(cs, m)
  {
    if subs != [] {
      var k := |subs| - 1;
      ModelsMember(cs, subs[..k], m);
      assert subs == subs[..k] + [subs[k]];
    }
  }

  lemma {:induction false} NextLevelMember(cs: seq<Component>, subs: seq<Name>, m: Name)
    ensures m in NextLevel(cs, subs)
        <==> exists i :: 0 <= i < |subs| && IsModel(cs, subs[i]) && m in HookedBy(cs, subs[i])
  {
    hide HookedBy, IsModel;
    if subs != [] {
      var k := |subs| - 1;
      NextLevelMember(cs, subs[..k], m);
      if i :| 0 <= i < |subs| && IsModel(cs, subs[i]) && m in HookedBy(cs, subs[i]) {
        if i < k { assert subs[..k][i] == subs[i]; }
      }
      if i :| 0 <= i < |subs[..k]| && IsModel(cs, subs[..k][i]) && m in HookedBy(cs, subs[..k][i]) {
        assert subs[i] == subs[..k][i];
      }
    }
  }

  /** The times to live of a level are those of its models, one by one. */
  lemma {:induction false} TtlsAreTheModels(cs: seq<Component>, subs: seq<Name>, i: nat)
    requires i < |Models(cs, subs)|
    ensures var m := Models(cs, subs)[i]; HasComponent(cs, m) && Ttls(cs, subs)[i] == cs[FindComponent(cs, m)].ttl
  {
    var k := |subs| - 1;
    if i < |Models(cs, subs[..k])| { TtlsAreTheModels(cs, subs[..k], i); }
  }

  lemma {:induction false} ViewsMember(cs: seq<Component>, subs: seq<Name>, v: Name)
    ensures v in Views(cs, subs) <==> v in subs && HasRole(cs, v, ROLE_VIEW)
  {
    if subs != [] {
      var k := |subs| - 1;
      ViewsMember(cs, subs[..k], v);
      assert subs == subs[..k] + [subs[k]];
    }
  }

  /** A session answers to exactly the views that its walk meets. */
  lemma {:induction false} WalkViewsMember(cs: seq<Component>, subs: seq<Name>, k: nat, v: Name)
    ensures v in WalkViews(cs, subs, k)
        <==> exists j :: 0 <= j < k && v in Front(cs, subs, j) && HasRole(cs, v, ROLE_VIEW)
  {
    hide Front, Views;
    if k > 0 {
      WalkViewsMember(cs, subs, k - 1, v);
      ViewsMember(cs, Front(cs, subs, k - 1), v);
      if j :| 0 <= j < k && v in Front(cs, subs, j) && HasRole(cs, v, ROLE_VIEW) {
        if j == k - 1 { assert v in Views(cs, Front(cs, subs, k - 1)); }
      }
      var last := k - 1;
      if v in Views(cs, Front(cs, subs, last)) {
        assert exists j :: 0 <= j < k && v in Front(cs, subs, j) && HasRole(cs, v, ROLE_VIEW);
      }
    }
  }

  /** Some model among `subs` subscribes to `r`. */
  ghost predicate NeededBy(cs: seq<Component>, rs: seq<Resource>, subs: seq<Name>, r: Name) {
    exists m :: m in Models(cs, subs) && SubscribesTo(rs, m, r)
  }

  lemma NeededModel(cs: seq<Component>, rs: seq<Resource>, subs: seq<Name>, n: Name) returns (m: Name)
    requires NeededBy(cs, rs, subs, n)
    ensures m in Models(cs, subs) && SubscribesTo(rs, m, n)
  {
    m :| m in Models(cs, subs) && SubscribesTo(rs, m, n);
  }

  lemma {:induction false} AddDependenciesFacts(cs: seq<Component>, rs: seq<Resource>, subs: seq<Name>,
      deps: seq<Name>, r: Name)
    requires NoDup(deps)
    ensures NoDup(AddDependencies(cs, rs, subs, deps))
    ensures r in AddDependencies(cs, rs, subs, deps) <==> r in deps || NeededBy(cs, rs, subs, r)
  {
    hide SubscribedBy, AppendNew, IsModel;
    if subs != [] {
      var k := |subs| - 1;
      var n := subs[k];
      AddDependenciesFacts(cs, rs, subs[..k], deps, r);
      if IsModel(cs, n) {
        AppendNewFacts(AddDependencies(cs, rs, subs[..k], deps), SubscribedBy(rs, n));
        SubscribedByMember(rs, n, r);
        assert Models(cs, subs) == Models(cs, subs[..k]) + [n];
        assert n in Models(cs, subs);
      }
    }
  }

  /**
   * The dependency list has no repetition and is exactly the resources that some model of the
   * chain subscribes to.
   */
  lemma {:induction false} DependenciesFacts(cs: seq<Component>, rs: seq<Resource>, subs: seq<Name>, k: nat, r: Name)
    ensures NoDup(Dependencies(cs, rs, subs, k))
    ensures r in Dependencies(cs, rs, subs, k) <==>
              exists j :: 0 <= j < k && NeededBy(cs, rs, Front(cs, subs, j), r)
  {
    hide Front, AddDependencies, NeededBy;
    if k > 0 {
      DependenciesFacts(cs, rs, subs, k - 1, r);
      AddDependenciesFacts(cs, rs, Front(cs, subs, k - 1), Dependencies(cs, rs, subs, k - 1), r);
      var last := k - 1;
      if NeededBy(cs, rs, Front(cs, subs, last), r) {
        assert exists j :: 0 <= j < k && NeededBy(cs, rs, Front(cs, subs, j), r);
      }
    }
  }

  lemma {:induction false} LevelsAt(cs: seq<Component>, subs: seq<Name>, k: nat, j: nat)
    requires j < k
    ensures Levels(cs, subs, k)[j] == Level(Models(cs, Front(cs, subs, j)), Ttls(cs, Front(cs, subs, j)))
  {
    hide Front, Models, Ttls;
    if j < k - 1 { LevelsAt(cs, subs, k - 1, j); }
  }

  // ----- hook walks

  /** A walk along hooks: which entry of the subscriber list it starts at, and the names it visits. */
  datatype Walk = Walk(start: nat, path: seq<Name>)

  function End(w: Walk): Name
    requires w.path != []
  {
    w.path[|w.path| - 1]
  }

  /** `w` takes `k` hook steps from a matched subscriber, each from a registered model to a component that hooks it. */
  ghost predicate IsHookWalk(cs: seq<Component>, subs: seq<Name>, w: Walk, k: nat) {
    && |w.path| == k + 1
    && w.start < |subs| && w.path[0] == subs[w.start]
    && forall j :: 0 <= j < k ==> IsModel(cs, w.path[j]) && Hooks(cs, w.path[j + 1], w.path[j])
  }

  ghost predicate Hooks(cs: seq<Component>, c: Name, n: Name) {
    exists i :: 0 <= i < |cs| && cs[i].name == c && n in cs[i].hooks
  }

  /** `w` prolonged by each component of `ns`. */
  function Prolong(w: Walk, ns: seq<Name>): (r: seq<Walk>)
    ensures |r| == |ns|
    ensures forall i :: 0 <= i < |r| ==> r[i] == Walk(w.start, w.path + [ns[i]])
  {
    seq(|ns|, i requires 0 <= i < |ns| => Walk(w.start, w.path + [ns[i]]))
  }

  function ProlongAll(cs: seq<Component>, ws: seq<Walk>): seq<Walk>
    requires forall i :: 0 <= i < |ws| ==> ws[i].path != []
  {
    if ws == [] then []
    else
      var w := ws[|ws| - 1];
      ProlongAll(cs, ws[..|ws| - 1]) + (if IsModel(cs, End(w)) then Prolong(w, HookedBy(cs, End(w))) else [])
  }

  /** `v` is `w` and one hook more. */
  ghost predicate Extends(cs: seq<Component>, w: Walk, v: Walk) {
    && w.path != [] && IsModel(cs, End(w))
    && v.start == w.start
    && v.path != [] && v.path[..|v.path| - 1] == w.path && End(v) in HookedBy(cs, End(w))
  }

  lemma ProlongMember(cs: seq<Component>, w: Walk, v: Walk)
    requires w.path != [] && IsModel(cs, End(w))
    ensures v in Prolong(w, HookedBy(cs, End(w))) <==> Extends(cs, w, v)
  {
    var ns := HookedBy(cs, End(w));
    if Extends(cs, w, v) {
      var i :| 0 <= i < |ns| && ns[i] == End(v);
      assert v.path == w.path + [ns[i]];
      assert Prolong(w, ns)[i] == v;
    }
    if v in Prolong(w, ns) {
      var i :| 0 <= i < |ns| && Prolong(w, ns)[i] == v;
      assert v.path == w.path + [ns[i]];
    }
  }

  lemma {:induction false} ProlongAllMember(cs: seq<Component>, ws: seq<Walk>, v: Walk)
    requires forall i :: 0 <= i < |ws| ==> ws[i].path != []
    ensures v in ProlongAll(cs, ws) <==> exists i :: 0 <= i < |ws| && Extends(cs, ws[i], v)
  {
    hide HookedBy, Prolong, IsModel;
    if ws != [] {
      var k := |ws| - 1;
      ProlongAllMember(cs, ws[..k], v);
      if IsModel(cs, End(ws[k])) { ProlongMember(cs, ws[k], v); }
      assert v in ProlongAll(cs, ws) <==> v in ProlongAll(cs, ws[..k]) || Extends(cs, ws[k], v);
      hide Extends, ProlongAll, End;
      if i :| 0 <= i < |ws| && Extends(cs, ws[i], v) {
        if i < k { assert ws[..k][i] == ws[i]; }
      }
      if i :| 0 <= i < |ws[..k]| && Extends(cs, ws[..k][i], v) {
        assert ws[..k][i] == ws[i];
      }
    }
  }

  lemma {:induction false} ProlongAllNoDup(cs: seq<Component>, ws: seq<Walk>)
    requires UniqueComponents(cs) && NoDup(ws)
    requires forall i :: 0 <= i < |ws| ==> ws[i].path != []
    ensures NoDup(ProlongAll(cs, ws))
  {
    if ws != [] {
      var k := |ws| - 1;
      var w := ws[k];
      ProlongAllNoDup(cs, ws[..k]);
      if IsModel(cs, End(w)) {
        HookedByNoDup(cs, End(w));
        var added := Prolong(w, HookedBy(cs, End(w)));
        forall i, j | 0 <= i < j < |added| ensures added[i] != added[j] {
          assert added[i].path[|w.path|] != added[j].path[|w.path|];
        }
        forall v | v in added ensures v !in ProlongAll(cs, ws[..k]) {
          ProlongMember(cs, w, v);
          ProlongAllMember(cs, ws[..k], v);
          assert forall i :: 0 <= i < k ==> ws[..k][i] != w;
        }
        NoDupJoin(ProlongAll(cs, ws[..k]), added);
      }
    }
  }

  /** All walks of `k` steps, in the order in which the controller meets their last components. */
  function Walks(cs: seq<Component>, subs: seq<Name>, k: nat): (ws: seq<Walk>)
    ensures forall i :: 0 <= i < |ws| ==> |ws[i].path| == k + 1
  {
    if k == 0 then seq(|subs|, i requires 0 <= i < |subs| => Walk(i, [subs[i]]))
    else
      var ws := Walks(cs, subs, k - 1);
      WalksProlonged(cs, ws, k - 1);
      ProlongAll(cs, ws)
  }

  lemma WalksProlonged(cs: seq<Component>, ws: seq<Walk>, k: nat)
    requires forall i :: 0 <= i < |ws| ==> |ws[i].path| == k + 1
    ensures forall i :: 0 <= i < |ProlongAll(cs, ws)| ==> |ProlongAll(cs, ws)[i].path| == k + 2
  {
    forall i | 0 <= i < |ProlongAll(cs, ws)| ensures |ProlongAll(cs, ws)[i].path| == k + 2 {
      ProlongAllMember(cs, ws, ProlongAll(cs, ws)[i]);
    }
  }

  /** A walk and one hook more is a walk. */
  lemma ExtendedWalk(cs: seq<Component>, subs: seq<Name>, w: Walk, v: Walk, k: nat)
    requires Extends(cs, w, v) && IsHookWalk(cs, subs, w, k)
    ensures IsHookWalk(cs, subs, v, k + 1)
  {
    HookedByMember(cs, End(w), End(v));
    forall j | 0 <= j <= k ensures v.path[j] == w.path[j] { assert v.path[..k + 1][j] == v.path[j]; }
  }

  /** A walk of some length is a shorter one and one hook more. */
  lemma ShortenedWalk(cs: seq<Component>, subs: seq<Name>, v: Walk, k: nat) returns (w: Walk)
    requires IsHookWalk(cs, subs, v, k + 1)
    ensures Extends(cs, w, v) && IsHookWalk(cs, subs, w, k)
  {
    w := Walk(v.start, v.path[..k + 1]);
    assert Hooks(cs, v.path[k + 1], v.path[k]);
    HookedByMember(cs, v.path[k], v.path[k + 1]);
  }

  /** `Walks` lists exactly the hook walks of `k` steps. */
  lemma {:induction false} WalksMember(cs: seq<Component>, subs: seq<Name>, k: nat, v: Walk)
    ensures v in Walks(cs, subs, k) <==> IsHookWalk(cs, subs, v, k)
    decreases k
  {
    hide ProlongAll, HookedBy, IsModel;
    if k == 0 {
      if IsHookWalk(cs, subs, v, 0) {
        assert v.path == [subs[v.start]];
        assert Walks(cs, subs, 0)[v.start] == v;
      }
    } else {
      var ws := Walks(cs, subs, k - 1);
      ProlongAllMember(cs, ws, v);
      if v in Walks(cs, subs, k) {
        var i :| 0 <= i < |ws| && Extends(cs, ws[i], v);
        WalksMember(cs, subs, k - 1, ws[i]);
        ExtendedWalk(cs, subs, ws[i], v, k - 1);
      }
      if IsHookWalk(cs, subs, v, k) {
        var w := ShortenedWalk(cs, subs, v, k - 1);
        WalksMember(cs, subs, k - 1, w);
      }
    }
  }

  lemma {:induction false} WalksNoDup(cs: seq<Component>, subs: seq<Name>, k: nat)
    requires UniqueComponents(cs)
    ensures NoDup(Walks(cs, subs, k))
  {
    if k > 0 {
      WalksNoDup(cs, subs, k - 1);
      ProlongAllNoDup(cs, Walks(cs, subs, k - 1));
    }
  }

  /** Entry `i` of level `k` is where the `i`-th walk ends. */
  lemma {:induction false} FrontIsWalkEnds(cs: seq<Component>, subs: seq<Name>, k: nat)
    ensures |Front(cs, subs, k)| == |Walks(cs, subs, k)|
    ensures forall i :: 0 <= i < |Front(cs, subs, k)| ==> Front(cs, subs, k)[i] == End(Walks(cs, subs, k)[i])
  {
    if k > 0 {
      FrontIsWalkEnds(cs, subs, k - 1);
      NextLevelIsProlonged(cs, Front(cs, subs, k - 1), Walks(cs, subs, k - 1));
    }
  }

  lemma {:induction false} NextLevelIsProlonged(cs: seq<Component>, f: seq<Name>, ws: seq<Walk>)
    requires |f| == |ws|
    requires forall i :: 0 <= i < |ws| ==> ws[i].path != [] && f[i] == End(ws[i])
    ensures |NextLevel(cs, f)| == |ProlongAll(cs, ws)|
    ensures forall i :: 0 <= i < |ProlongAll(cs, ws)| ==>
                          ProlongAll(cs, ws)[i].path != [] && NextLevel(cs, f)[i] == End(ProlongAll(cs, ws)[i])
  {
    if f != [] {
      NextLevelIsProlonged(cs, f[..|f| - 1], ws[..|ws| - 1]);
    }
  }

  /** The walks among `ws` that end at `m`. */
  ghost function EndingAt(ws: seq<Walk>, m: Name): set<Walk>
    requires forall i :: 0 <= i < |ws| ==> ws[i].path != []
  {
    set w | w in ws && End(w) == m
  }

  lemma LastWalk(ws: seq<Walk>, k: nat)
    requires NoDup(ws) && |ws| == k + 1
    ensures forall w :: w in ws <==> w in ws[..k] || w == ws[k]
    ensures ws[k] !in ws[..k]
  {
    assert ws == ws[..k] + [ws[k]];
  }

  lemma {:induction false} CountEnds(ws: seq<Walk>, f: seq<Name>, m: Name)
    requires NoDup(ws) && |f| == |ws|
    requires forall i :: 0 <= i < |ws| ==> ws[i].path != [] && f[i] == End(ws[i])
    ensures multiset(f)[m] == |EndingAt(ws, m)|
  {
    if ws == [] {
      assert EndingAt(ws, m) == {};
    } else {
      var k := |ws| - 1;
      CountEnds(ws[..k], f[..k], m);
      LastWalk(ws, k);
      assert f == f[..k] + [f[k]];
      if f[k] == m {
        assert EndingAt(ws, m) == EndingAt(ws[..k], m) + {ws[k]};
      } else {
        assert EndingAt(ws, m) == EndingAt(ws[..k], m);
      }
    }
  }

  lemma {:induction false} ModelsCount(cs: seq<Component>, subs: seq<Name>, m: Name)
    ensures multiset(Models(cs, subs))[m] == if IsModel(cs, m) then multiset(subs)[m] else 0
  {
    if subs != [] {
      var k := |subs| - 1;
      ModelsCount(cs, subs[..k], m);
      assert subs == subs[..k] + [subs[k]];
      assert Models(cs, subs) == Models(cs, subs[..k]) + (if IsModel(cs, subs[k]) then [subs[k]] else []);
    }
  }

  /**
   * Level `k` of the chain holds each model exactly as many times as there are hook walks of
   * `k` steps from the matched subscribers to it.
   */
  lemma LevelCountsWalks(cs: seq<Component>, subs: seq<Name>, depth: nat, k: nat, m: Name)
    requires UniqueComponents(cs) && k < depth
    ensures forall w :: w in EndingAt(Walks(cs, subs, k), m) <==> IsHookWalk(cs, subs, w, k) && End(w) == m
    ensures multiset(Levels(cs, subs, depth)[k].models)[m]
         == if IsModel(cs, m) then |EndingAt(Walks(cs, subs, k), m)| else 0
  {
    forall w ensures w in Walks(cs, subs, k) <==> IsHookWalk(cs, subs, w, k) { WalksMember(cs, subs, k, w); }
    WalksNoDup(cs, subs, k);
    FrontIsWalkEnds(cs, subs, k);
    CountEnds(Walks(cs, subs, k), Front(cs, subs, k), m);
    ModelsCount(cs, Front(cs, subs, k), m);
    LevelsAt(cs, subs, depth, k);
  }

  // ----- when the walk ends

  lemma {:induction false} EmptyStaysEmpty(cs: seq<Component>, subs: seq<Name>, k: nat, j: nat)
    requires k <= j && Front(cs, subs, k) == []
    ensures Front(cs, subs, j) == []
  {
    if k < j { EmptyStaysEmpty(cs, subs, k, j - 1); }
  }

  /** No hook walk visits the same model twice before its last component. */
  ghost predicate NoRevisit(cs: seq<Component>, subs: seq<Name>) {
    forall w, k: nat :: IsHookWalk(cs, subs, w, k) ==> NoDup(w.path[..k])
  }

  lemma {:induction false} ComponentNames(cs: seq<Component>) returns (names: set<Name>)
    ensures |names| <= |cs|
    ensures forall n :: HasComponent(cs, n) ==> n in names
  {
    names := {};
    if cs != [] {
      var k := |cs| - 1;
      var before := ComponentNames(cs[..k]);
      names := before + {cs[k].name};
    }
  }

  /** Walking on round a cycle: some name of the path is met at every level. */
  lemma {:induction false} CycleReaches(cs: seq<Component>, subs: seq<Name>, w: Walk, i: nat, j: nat, k: nat,
      depth: nat)
    returns (p: nat)
    requires IsHookWalk(cs, subs, w, k) && i < j < k && w.path[i] == w.path[j]
    ensures p < j && w.path[p] in Front(cs, subs, depth)
  {
    if depth == 0 {
      p := 0;
      assert subs[w.start] in subs;
    } else {
      var q := CycleReaches(cs, subs, w, i, j, k, depth - 1);
      var f := Front(cs, subs, depth - 1);
      var x :| 0 <= x < |f| && f[x] == w.path[q];
      HookedByMember(cs, w.path[q], w.path[q + 1]);
      NextLevelMember(cs, f, w.path[q + 1]);
      p := if q + 1 < j then q + 1 else i;
    }
  }

  /**
   * The walk ends if and only if no hook walk from the subscribers revisits a model, and then it
   * has at most one level more than there are components.
   */
  lemma WalkEndsIff(cs: seq<Component>, subs: seq<Name>)
    ensures Ends(cs, subs) <==> NoRevisit(cs, subs)
    ensures Ends(cs, subs) <==> Front(cs, subs, |cs| + 1) == []
    ensures Ends(cs, subs) ==> Depth(cs, subs) <= |cs| + 1
  {
    var n := |cs| + 1;
    if Ends(cs, subs) && !NoRevisit(cs, subs) {
      var w, k: nat :| IsHookWalk(cs, subs, w, k) && !NoDup(w.path[..k]);
      var i, j :| 0 <= i < j < |w.path[..k]| && w.path[..k][i] == w.path[..k][j];
      var d: nat :| Front(cs, subs, d) == [];
      var p := CycleReaches(cs, subs, w, i, j, k, d);
      assert false;
    }
    if NoRevisit(cs, subs) && Front(cs, subs, n) != [] {
      FrontIsWalkEnds(cs, subs, n);
      var w := Walks(cs, subs, n)[0];
      WalksMember(cs, subs, n, w);
      assert NoDup(w.path[..n]);
      var names := ComponentNames(cs);
      forall x | x in w.path[..n] ensures x in names {
        var j :| 0 <= j < n && w.path[..n][j] == x;
        assert IsModel(cs, w.path[j]);
      }
      Pigeonhole(w.path[..n], names);
      assert false;
    }
  }

  /** A walk that comes back to a model can leave the round out. */
  lemma Shortcut(cs: seq<Component>, subs: seq<Name>, w: Walk, i: nat, j: nat, k: nat) returns (v: Walk)
    requires IsHookWalk(cs, subs, w, k) && i < j <= k && w.path[i] == w.path[j]
    ensures IsHookWalk(cs, subs, v, k - (j - i)) && End(v) == End(w)
  {
    v := Walk(w.start, w.path[..i] + w.path[j..]);
    forall x | 0 <= x < k - (j - i) ensures IsModel(cs, v.path[x]) && Hooks(cs, v.path[x + 1], v.path[x]) {
      var y := if x < i then x else x + (j - i);
      assert v.path[x] == w.path[y] && v.path[x + 1] == w.path[y + 1];
    }
  }

  /** Whatever the walk reaches, it reaches within as many levels as there are components. */
  lemma {:induction false} ReachedEarly(cs: seq<Component>, subs: seq<Name>, n: Name, k: nat) returns (e: nat)
    requires n in Front(cs, subs, k)
    ensures e <= |cs| && n in Front(cs, subs, e)
    decreases k
  {
    e := k;
    if k > |cs| {
      FrontIsWalkEnds(cs, subs, k);
      var x :| 0 <= x < |Front(cs, subs, k)| && Front(cs, subs, k)[x] == n;
      var w := Walks(cs, subs, k)[x];
      WalksMember(cs, subs, k, w);
      if NoDup(w.path[..k]) {
        var names := ComponentNames(cs);
        forall x | x in w.path[..k] ensures x in names {
          var j :| 0 <= j < k && w.path[..k][j] == x;
          assert IsModel(cs, w.path[j]);
        }
        Pigeonhole(w.path[..k], names);
        assert false;
      }
      var i, j :| 0 <= i < j < |w.path[..k]| && w.path[..k][i] == w.path[..k][j];
      var v := Shortcut(cs, subs, w, i, j, k);
      var k' := k - (j - i);
      WalksMember(cs, subs, k', v);
      FrontIsWalkEnds(cs, subs, k');
      e := ReachedEarly(cs, subs, n, k');
    }
  }

  /** Some level of the walk holds a locked model; the request is then refused at the first one. */
  ghost predicate MeetsLock(cs: seq<Component>, subs: seq<Name>) {
    exists k: nat :: AnyBusy(cs, Front(cs, subs, k))
  }

  /** A locked model is met before the walk ends, or within as many levels as there are components. */
  lemma LockMetEarly(cs: seq<Component>, subs: seq<Name>)
    ensures MeetsLock(cs, subs) <==> exists k :: 0 <= k < Depth(cs, subs) && AnyBusy(cs, Front(cs, subs, k))
  {
    if MeetsLock(cs, subs) {
      var k: nat :| AnyBusy(cs, Front(cs, subs, k));
      var f := Front(cs, subs, k);
      var i :| 0 <= i < |f| && IsModel(cs, f[i]) && ComponentLocked(cs, f[i]);
      var e := ReachedEarly(cs, subs, f[i], k);
      if e >= Depth(cs, subs) {
        EmptyStaysEmpty(cs, subs, Depth(cs, subs), e);
        assert false;
      }
      var x :| 0 <= x < |Front(cs, subs, e)| && Front(cs, subs, e)[x] == f[i];
      assert AnyBusy(cs, Front(cs, subs, e));
    }
  }

  /** With hooks that lead down a rank the walk ends, in no more levels than the highest rank. */
  lemma RankedHooksEnd(cs: seq<Component>, subs: seq<Name>, rank: Name -> nat, bound: nat)
    requires forall i, h :: 0 <= i < |cs| && h in cs[i].hooks ==> rank(cs[i].name) < rank(h)
    requires forall n :: n in subs ==> rank(n) < bound
    ensures Front(cs, subs, bound) == [] && Ends(cs, subs)
  {
    RanksFall(cs, subs, rank, bound, bound);
    if Front(cs, subs, bound) != [] { assert Front(cs, subs, bound)[0] in Front(cs, subs, bound); }
  }

  lemma {:induction false} RanksFall(cs: seq<Component>, subs: seq<Name>, rank: Name -> nat, bound: nat, k: nat)
    requires forall i, h :: 0 <= i < |cs| && h in cs[i].hooks ==> rank(cs[i].name) < rank(h)
    requires forall n :: n in subs ==> rank(n) < bound
    ensures forall n :: n in Front(cs, subs, k) ==> rank(n) + k < bound
  {
    if k > 0 {
      RanksFall(cs, subs, rank, bound, k - 1);
      forall n | n in Front(cs, subs, k) ensures rank(n) + k < bound {
        var f := Front(cs, subs, k - 1);
        NextLevelMember(cs, f, n);
        var i :| 0 <= i < |f| && IsModel(cs, f[i]) && n in HookedBy(cs, f[i]);
        HookedByMember(cs, f[i], n);
        assert f[i] in f;
      }
    }
  }

  // ----- empty levels

  /** Only models hook others. */
  ghost predicate OnlyModelsHook(cs: seq<Component>) {
    forall i :: 0 <= i < |cs| && cs[i].hooks != [] ==> cs[i].role == ROLE_MODEL
  }

  /** Then every level after the first holds a model. */
  lemma LevelsNotEmpty(cs: seq<Component>, subs: seq<Name>)
    requires UniqueComponents(cs) && OnlyModelsHook(cs)
    requires Models(cs, subs) != []
    ensures NoEmptyLevel(Levels(cs, subs, Depth(cs, subs)))
  {
    hide Levels, Models, Ttls, NextLevel, HookedBy;
    var d := Depth(cs, subs);
    forall k | 0 <= k < d ensures Levels(cs, subs, d)[k].models != [] {
      LevelsAt(cs, subs, d, k);
      if k > 0 {
        var f, g := Front(cs, subs, k), Front(cs, subs, k - 1);
        assert f[0] in f;
        NextLevelMember(cs, g, f[0]);
        var i :| 0 <= i < |g| && IsModel(cs, g[i]) && f[0] in HookedBy(cs, g[i]);
        HookedByMember(cs, g[i], f[0]);
        var c :| 0 <= c < |cs| && cs[c].name == f[0] && g[i] in cs[c].hooks;
        assert FindComponent(cs, f[0]) == c;
        ModelsMember(cs, f, f[0]);
      }
    }
  }
}
