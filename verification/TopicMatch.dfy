/**
 * The wildcard matcher of src/resource.c: a greedy loop over characters, compared with a
 * matcher that works level by level and with the MQTT reading of '+' and '#'.
 */
module TopicMatch {
  // ----- the character loop

  /** The length of the text before the first '/'. */
  function LevelLength(s: string): (n: nat)
    ensures n <= |s|
    ensures '/' !in s[..n]
    ensures n < |s| ==> s[n] == '/'
  {
    if s == [] || s[0] == '/' then 0
    else
      var k := LevelLength(s[1..]);
      assert s[..k + 1] == [s[0]] + s[1..][..k];
      k + 1
  }

  /** What the loop decides when the pattern has `p` left and the topic `q`. */
  predicate Accepts(p: string, q: string)
    decreases |p|
  {
    if p == [] || q == [] then p == q
    else if p[0] == '#' then true
    else if p[0] == '+' then q[0] != '/' && Accepts(p[1..], q[LevelLength(q)..])
    else p[0] == q[0] && Accepts(p[1..], q[1..])
  }

  lemma LevelEnds(s: string, n: nat)
    requires n <= |s| && '/' !in s[..n]
    requires n < |s| ==> s[n] == '/'
    ensures LevelLength(s) == n
  {
  }

  /** The loop itself, with the two string pointers as positions. */
  method WildcardMatches(name: string, topic: string) returns (accepted: bool)
    ensures accepted == Accepts(name, topic)
    ensures WellFormed(Split(name)) ==> (accepted <==> LevelMatch(Split(name), Split(topic)))
  {
    hide WellFormed, Split, LevelMatch, LevelLength;
    var p, q := 0, 0;
    while p < |name| && q < |topic|
      invariant 0 <= p <= |name| && 0 <= q <= |topic|
      invariant Accepts(name, topic) == Accepts(name[p..], topic[q..])
    {
      if name[p] == '#' {
        break;
      } else if name[p] == '+' {
        if topic[q] == '/' { break; }
        ghost var q0 := q;
        p := p + 1;
        while q < |topic| && topic[q] != '/'
          invariant q0 <= q <= |topic|
          invariant '/' !in topic[q0..q]
        {
          q := q + 1;
        }
        PlusTaken(name, topic, p, q0, q);
      } else {
        if name[p] != topic[q] { break; }
        SameTaken(name, topic, p, q);
        p, q := p + 1, q + 1;
      }
    }
    accepted := (p < |name| && name[p] == '#' && q < |topic|) || (p == |name| && q == |topic|);
    if WellFormed(Split(name)) { CharLoopIsLevelMatch(name, topic); }
  }

  lemma PlusTaken(name: string, topic: string, p: nat, q0: nat, q: nat)
    requires 0 < p <= |name| && name[p - 1] == '+' && q0 <= q <= |topic| && q0 < |topic| && topic[q0] != '/'
    requires '/' !in topic[q0..q] && (q < |topic| ==> topic[q] == '/')
    ensures Accepts(name[p - 1..], topic[q0..]) == Accepts(name[p..], topic[q..])
  {
    assert topic[q0..][..q - q0] == topic[q0..q];
    LevelEnds(topic[q0..], q - q0);
    assert topic[q0..][q - q0..] == topic[q..];
    assert name[p - 1..][1..] == name[p..];
  }

  lemma SameTaken(name: string, topic: string, p: nat, q: nat)
    requires p < |name| && q < |topic| && name[p] == topic[q] && name[p] !in "#+"
    ensures Accepts(name[p..], topic[q..]) == Accepts(name[p + 1..], topic[q + 1..])
  {
    assert name[p..][1..] == name[p + 1..] && topic[q..][1..] == topic[q + 1..];
  }

  // ----- levels

  /** The levels of a name: the texts between its '/' characters, empty ones included. */
  function Split(s: string): (ls: seq<string>)
    ensures ls != []
    decreases |s|
  {
    var n := LevelLength(s);
    if n == |s| then [s] else [s[..n]] + Split(s[n + 1..])
  }

  /** '+' and '#' each fill a whole level, and '#' only the last one. */
  ghost predicate WellFormed(ls: seq<string>) {
    forall k :: 0 <= k < |ls| ==>
      && ('+' in ls[k] ==> ls[k] == "+")
      && ('#' in ls[k] ==> ls[k] == "#" && k == |ls| - 1)
  }

  /** Level by level: equal text, '+' for one non-empty level, '#' for any non-empty rest. */
  predicate LevelMatch(ps: seq<string>, qs: seq<string>) {
    if ps == [] || qs == [] then ps == qs
    else if ps[0] == "#" then qs != [""]
    else if ps[0] == "+" then qs[0] != "" && LevelMatch(ps[1..], qs[1..])
    else ps[0] == qs[0] && LevelMatch(ps[1..], qs[1..])
  }

  /** The reading of sections 4.7.1.2 and 4.7.1.3 of MQTT 3.1.1, topics starting with '$' aside. */
  predicate MqttMatch(ps: seq<string>, qs: seq<string>) {
    if ps == [] then qs == []
    else if ps[0] == "#" then true
    else qs != [] && (ps[0] == "+" || ps[0] == qs[0]) && MqttMatch(ps[1..], qs[1..])
  }

  /** No wildcard stands for an empty text. */
  ghost predicate NothingEmpty(ps: seq<string>, qs: seq<string>) {
    && (forall k :: 0 <= k < |ps| && k < |qs| && ps[k] == "+" ==> qs[k] != "")
    && (forall k :: 0 <= k < |ps| && ps[k] == "#" ==> k < |qs| && qs[k..] != [""])
  }

  /** A level without wildcards is compared as a whole. */
  lemma {:induction false} LiteralLevel(a: string, p: string, b: string, q: string)
    requires '/' !in a && '+' !in a && '#' !in a && '/' !in b
    requires p == [] || p[0] == '/'
    requires q == [] || q[0] == '/'
    ensures Accepts(a + p, b + q) <==> a == b && Accepts(p, q)
  {
    if a == [] {
      assert a + p == p;
      if b == [] { assert b + q == q; } else { assert (b + q)[0] == b[0] && b[0] in b; }
    } else if b == [] {
      assert b + q == q && (a + p)[0] == a[0] && a[0] in a;
    } else {
      assert (a + p)[0] == a[0] && a[0] in a && (b + q)[0] == b[0];
      if a[0] == b[0] {
        assert (a + p)[1..] == a[1..] + p && (b + q)[1..] == b[1..] + q;
        LiteralLevel(a[1..], p, b[1..], q);
        assert a == [a[0]] + a[1..] && b == [b[0]] + b[1..];
      }
    }
  }

  /** The levels after the first keep the form. */
  lemma WellFormedTail(ls: seq<string>)
    requires ls != [] && WellFormed(ls)
    ensures WellFormed(ls[1..])
  {
    forall k | 0 <= k < |ls[1..]|
      ensures ('+' in ls[1..][k] ==> ls[1..][k] == "+")
      ensures ('#' in ls[1..][k] ==> ls[1..][k] == "#" && k == |ls[1..]| - 1)
    {
      assert ls[1..][k] == ls[k + 1];
    }
  }

  /** Past the first level the loop compares what is left after it. */
  lemma SplitHead(s: string)
    ensures Split(s)[0] == s[..LevelLength(s)]
  {
  }

  lemma PlusStep(p: string, q: string)
    requires p != [] && p[0] == '+'
    ensures Accepts(p, q) <==> q != [] && q[0] != '/' && Accepts(p[1..], q[LevelLength(q)..])
  {
  }

  lemma FirstLevel(p: string, q: string)
    requires WellFormed(Split(p)) && Split(p)[0] != "#"
    ensures Accepts(p, q) <==>
              && (if Split(p)[0] == "+" then Split(q)[0] != "" else Split(p)[0] == Split(q)[0])
              && Accepts(p[LevelLength(p)..], q[LevelLength(q)..])
  {
    hide Accepts, Split;
    var n, m := LevelLength(p), LevelLength(q);
    SplitHead(p);
    SplitHead(q);
    assert p == p[..n] + p[n..] && q == q[..m] + q[m..];
    if p[..n] == "+" {
      assert n == 1 && p[0] == '+';
      assert m == 0 <==> q == [] || q[0] == '/';
      PlusStep(p, q);
    } else {
      LiteralLevel(p[..n], p[n..], q[..m], q[m..]);
    }
  }

  /** The character loop and the level-wise matcher agree on every topic. */
  lemma {:induction false} CharLoopIsLevelMatch(p: string, q: string)
    requires WellFormed(Split(p))
    ensures Accepts(p, q) <==> LevelMatch(Split(p), Split(q))
    decreases |p|
  {
    hide LevelLength;
    var n, m := LevelLength(p), LevelLength(q);
    if Split(p)[0] == "#" {
      assert p[..n] == "#" && n == |p|;
      assert Split(q) == [""] <==> q == [];
    } else {
      FirstLevel(p, q);
      if n < |p| {
        assert Split(p)[1..] == Split(p[n + 1..]);
        WellFormedTail(Split(p));
        assert p[n..][1..] == p[n + 1..];
        if m < |q| {
          assert Split(q)[1..] == Split(q[m + 1..]);
          assert q[m..][1..] == q[m + 1..];
          CharLoopIsLevelMatch(p[n + 1..], q[m + 1..]);
        } else {
          assert Split(q)[1..] == [];
        }
      } else {
        assert Split(p)[1..] == [];
      }
    }
  }

  /** Against MQTT the controller differs in one way: it never lets a wildcard match nothing. */
  lemma {:induction false} LevelMatchAgainstMqtt(ps: seq<string>, qs: seq<string>)
    requires WellFormed(ps)
    ensures LevelMatch(ps, qs) <==> MqttMatch(ps, qs) && NothingEmpty(ps, qs)
  {
    if ps != [] {
      if ps[0] == "#" {
        assert |ps| == 1;
        assert qs[0..] == qs;
      } else if qs != [] {
        var ps', qs' := ps[1..], qs[1..];
        forall k | 0 <= k < |ps'| ensures ps'[k] == ps[k + 1] {}
        LevelMatchAgainstMqtt(ps', qs');
        if NothingEmpty(ps, qs) {
          forall k | 0 <= k < |ps'| && ps'[k] == "#" ensures k < |qs'| && qs'[k..] != [""] {
            assert ps[k + 1] == "#" && qs'[k..] == qs[k + 1..];
          }
          forall k | 0 <= k < |ps'| && k < |qs'| && ps'[k] == "+" ensures qs'[k] != "" {
            assert ps[k + 1] == "+";
          }
        }
        if NothingEmpty(ps', qs') && (ps[0] == "+" ==> qs[0] != "") {
          forall k | 0 <= k < |ps| && ps[k] == "#" ensures k < |qs| && qs[k..] != [""] {
            assert ps'[k - 1] == "#" && qs'[k - 1..] == qs[k..];
          }
          forall k | 0 <= k < |ps| && k < |qs| && ps[k] == "+" ensures qs[k] != "" {
            if k > 0 { assert ps'[k - 1] == "+"; }
          }
        }
      } else {
        if MqttMatch(ps, qs) { assert false; }
      }
    }
  }

  /** A name without wildcard characters matches itself and nothing else. */
  lemma {:induction false} PlainNameMatchesItself(p: string, q: string)
    requires '+' !in p && '#' !in p
    ensures Accepts(p, q) <==> p == q
  {
    if p != [] && q != [] {
      assert p[0] in p;
      assert p == [p[0]] + p[1..] && q == [q[0]] + q[1..];
      PlainNameMatchesItself(p[1..], q[1..]);
    }
  }

  /** Common text in front, without wildcard characters, decides nothing. */
  lemma {:induction false} PlainPrefix(a: string, p: string, q: string)
    requires '+' !in a && '#' !in a
    ensures Accepts(a + p, a + q) <==> Accepts(p, q)
  {
    if a == [] {
      assert a + p == p && a + q == q;
    } else {
      assert a[0] in a && a == [a[0]] + a[1..];
      assert (a + p)[1..] == a[1..] + p && (a + q)[1..] == a[1..] + q;
      PlainPrefix(a[1..], p, q);
    }
  }

  /** A '+' alone accepts one level of text, and not none. */
  lemma PlusAcceptsLevel(q: string)
    ensures Accepts("+", q) <==> q != [] && '/' !in q
  {
    if q != [] && q[0] != '/' {
      var k := LevelLength(q);
      assert q[k..] == [] <==> k == |q|;
      assert q[..|q|] == q;
      if '/' !in q { LevelEnds(q, |q|); }
    }
  }

  /** A '+' takes one level's text, at least a character of it; what follows it meets what follows the level. */
  lemma PlusTakesLevel(p: string, level: string, rest: string)
    requires '/' !in level && (rest != "" ==> rest[0] == '/')
    ensures Accepts("+" + p, level + rest) <==> level != "" && Accepts(p, rest)
  {
    var q := level + rest;
    assert ("+" + p)[1..] == p;
    if level == "" {
      assert q == rest;
    } else {
      assert q[..|level|] == level && q[|level|..] == rest && q[0] == level[0];
      LevelEnds(q, |level|);
    }
  }

  /** A '#' takes all that is left, but not nothing, whatever follows it in the name. */
  lemma HashTakesAll(p: string, q: string)
    ensures Accepts("#" + p, q) <==> q != ""
  {
  }

  lemma {:induction false} LevelsMatchThemselves(ps: seq<string>)
    requires WellFormed(ps)
    ensures LevelMatch(ps, ps)
  {
    if ps != [] && ps[0] != "#" {
      forall k | 0 <= k < |ps[1..]| ensures ps[1..][k] == ps[k + 1] {}
      LevelsMatchThemselves(ps[1..]);
    }
  }

  // ----- the topic of a request

  /** The topic cut at its last '?'. */
  function CutQuery(topic: string): (r: string)
    ensures r <= topic
    ensures '?' !in topic ==> r == topic
    ensures '?' in topic ==> |r| < |topic| && topic[|r|] == '?' && '?' !in topic[|r| + 1..]
  {
    if topic == [] then topic
    else if topic[|topic| - 1] == '?' then topic[..|topic| - 1]
    else
      var t := topic[..|topic| - 1];
      var r := CutQuery(t);
      if '?' in t then
        assert topic[|r| + 1..] == t[|r| + 1..] + [topic[|topic| - 1]];
        r
      else
        assert topic == t + [topic[|topic| - 1]];
        topic
  }
}
