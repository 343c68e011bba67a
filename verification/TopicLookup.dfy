/**
 * From the topic of a message to the resources it concerns and the components subscribed to them
 * (src/sanji_controller.c, sanji_match_resource_list and sanji_get_subscribed_component).
 */
module TopicLookup {
  import opened Entities
  import opened TopicMatch

  /** The resources whose pattern the wildcard loop accepts, in list order. */
  function WildcardNodes(rs: seq<Resource>, topic: Name): seq<Resource> {
    if rs == [] then []
    else
      var last := rs[|rs| - 1];
      WildcardNodes(rs[..|rs| - 1], topic) + (if Accepts(last.name, CutQuery(topic)) then [last] else [])
  }

  /** Those, and the one named like the topic unless it is among them. */
  function MatchedNodes(rs: seq<Resource>, topic: Name): seq<Resource> {
    var ws := WildcardNodes(rs, topic);
    var i := FindResource(rs, CutQuery(topic));
    if i < |rs| && forall k :: 0 <= k < |ws| ==> ws[k].name != rs[i].name then ws + [rs[i]] else ws
  }

  /** The subscribers of the matched resources, one list after the other. */
  function SubscribersOf(rs: seq<Resource>): seq<Name> {
    if rs == [] then [] else SubscribersOf(rs[..|rs| - 1]) + rs[|rs| - 1].subscribers
  }

  lemma {:induction false} WildcardNodesFacts(rs: seq<Resource>, topic: Name, r: Resource)
    ensures r in WildcardNodes(rs, topic) <==> r in rs && Accepts(r.name, CutQuery(topic))
    ensures UniqueResources(rs) ==> UniqueResources(WildcardNodes(rs, topic))
  {
    if rs != [] {
      var k := |rs| - 1;
      WildcardNodesFacts(rs[..k], topic, r);
      assert rs == rs[..k] + [rs[k]];
      if UniqueResources(rs) {
        var before := WildcardNodes(rs[..k], topic);
        forall i | 0 <= i < |before| ensures before[i].name != rs[k].name {
          WildcardNodesFacts(rs[..k], topic, before[i]);
          var j :| 0 <= j < k && rs[..k][j] == before[i];
          assert rs[j].name != rs[k].name;
        }
      }
    }
  }

  /**
   * The combined list holds each resource at most once, and exactly the registered ones whose name
   * is the cut topic or whose pattern accepts it.
   */
  lemma MatchedExactly(rs: seq<Resource>, topic: Name, r: Resource)
    requires UniqueResources(rs)
    ensures UniqueResources(MatchedNodes(rs, topic))
    ensures r in MatchedNodes(rs, topic) <==>
              r in rs && (r.name == CutQuery(topic) || Accepts(r.name, CutQuery(topic)))
  {
    WildcardNodesFacts(rs, topic, r);
    var ws, i := WildcardNodes(rs, topic), FindResource(rs, CutQuery(topic));
    if r in rs && r.name == CutQuery(topic) {
      var j :| 0 <= j < |rs| && rs[j] == r;
      assert j == i;
      if k :| 0 <= k < |ws| && ws[k].name == r.name {
        WildcardNodesFacts(rs, topic, ws[k]);
        var m :| 0 <= m < |rs| && rs[m] == ws[k];
        assert m == i;
      }
    }
  }

  /**
   * The lookup by exact name adds a resource exactly when one carries the cut topic as its name and
   * the wildcard loop rejects that name for itself; with wildcards that fill whole levels, or without
   * any, it never does.
   */
  lemma ExactLookupAddsIff(rs: seq<Resource>, topic: Name)
    requires UniqueResources(rs)
    ensures MatchedNodes(rs, topic) != WildcardNodes(rs, topic) <==>
              HasResource(rs, CutQuery(topic)) && !Accepts(CutQuery(topic), CutQuery(topic))
    ensures WellFormed(Split(CutQuery(topic))) ==> MatchedNodes(rs, topic) == WildcardNodes(rs, topic)
    ensures '+' !in CutQuery(topic) && '#' !in CutQuery(topic) ==> MatchedNodes(rs, topic) == WildcardNodes(rs, topic)
  {
    var t := CutQuery(topic);
    var ws, i := WildcardNodes(rs, topic), FindResource(rs, t);
    if i < |rs| {
      WildcardNodesFacts(rs, topic, rs[i]);
      if k :| 0 <= k < |ws| && ws[k].name == t {
        WildcardNodesFacts(rs, topic, ws[k]);
        var m :| 0 <= m < |rs| && rs[m] == ws[k];
        assert m == i;
      }
    }
    if WellFormed(Split(t)) {
      LevelsMatchThemselves(Split(t));
      CharLoopIsLevelMatch(t, t);
    }
    if '+' !in t && '#' !in t { PlainNameMatchesItself(t, t); }
  }

  /** A '+' inside a level swallows the rest of it, so such a name does not match itself. */
  lemma PlusInsideALevel()
    ensures !Accepts("a+b", "a+b")
  {
    assert "a+b"[1..] == "+b" && "+b"[1..] == "b";
    LevelEnds("+b", 2);
    assert "+b"[2..] == "";
  }

  lemma {:induction false} SubscribersOfMember(rs: seq<Resource>, c: Name)
    ensures c in SubscribersOf(rs) <==> exists i :: 0 <= i < |rs| && c in rs[i].subscribers
  {
    if rs != [] {
      var k := |rs| - 1;
      SubscribersOfMember(rs[..k], c);
      if i :| 0 <= i < |rs| && c in rs[i].subscribers {
        if i < k { assert c in rs[..k][i].subscribers; }
      }
      if i :| 0 <= i < |rs[..k]| && c in rs[..k][i].subscribers { assert c in rs[i].subscribers; }
    }
  }
}
