/** Facts about finite sequences that the other modules share. */
module Lists {

  datatype Option<+T> = None | Some(value: T)

  ghost predicate NoDup<T>(s: seq<T>) {
    forall i, j :: 0 <= i < j < |s| ==> s[i] != s[j]
  }

  /** The position of the first `x`, or `|s|` when there is none. */
  function FirstIndex<T(==)>(s: seq<T>, x: T): nat {
    if s == [] || s[0] == x then 0 else 1 + FirstIndex(s[1..], x)
  }

  lemma {:induction false} FirstIndexFacts<T>(s: seq<T>, x: T)
    ensures FirstIndex(s, x) <= |s|
    ensures x in s <==> FirstIndex(s, x) < |s|
    ensures FirstIndex(s, x) < |s| ==> s[FirstIndex(s, x)] == x
    ensures forall j :: 0 <= j < FirstIndex(s, x) && j < |s| ==> s[j] != x
  {
    if s != [] && s[0] != x {
      FirstIndexFacts(s[1..], x);
      assert s == [s[0]] + s[1..];
    }
  }

  lemma FirstIndexIs<T>(s: seq<T>, x: T, k: nat)
    requires k <= |s| && (k < |s| ==> s[k] == x)
    requires forall j :: 0 <= j < k ==> s[j] != x
    ensures FirstIndex(s, x) == k
  {
    FirstIndexFacts(s, x);
  }

  /** `s` without its element at `i`. */
  function RemoveAt<T>(s: seq<T>, i: nat): (r: seq<T>)
    requires i < |s|
    ensures |r| == |s| - 1
  {
    s[..i] + s[i + 1..]
  }

  /** `s` without its first `x`; `s` itself when `x` does not occur. */
  function RemoveFirst<T(==)>(s: seq<T>, x: T): seq<T> {
    if FirstIndex(s, x) < |s| then RemoveAt(s, FirstIndex(s, x)) else s
  }

  function Concat<T>(ss: seq<seq<T>>): seq<T> {
    if ss == [] then [] else Concat(ss[..|ss| - 1]) + ss[|ss| - 1]
  }

  function Sum(s: seq<nat>): nat {
    if s == [] then 0 else Sum(s[..|s| - 1]) + s[|s| - 1]
  }

  /** `base` followed by those of `xs` it does not hold yet, each once. */
  function AppendNew<T(==)>(base: seq<T>, xs: seq<T>): seq<T> {
    if xs == [] then base
    else
      var r := AppendNew(base, xs[..|xs| - 1]);
      if xs[|xs| - 1] in r then r else r + [xs[|xs| - 1]]
  }

  lemma {:induction false} AppendNewFacts<T>(base: seq<T>, xs: seq<T>)
    requires NoDup(base)
    ensures NoDup(AppendNew(base, xs))
    ensures forall x :: x in AppendNew(base, xs) <==> x in base || x in xs
  {
    if xs != [] {
      AppendNewFacts(base, xs[..|xs| - 1]);
      assert xs == xs[..|xs| - 1] + [xs[|xs| - 1]];
    }
  }

  lemma NoDupJoin<T>(s: seq<T>, t: seq<T>)
    requires NoDup(s) && NoDup(t)
    requires forall x :: x in t ==> x !in s
    ensures NoDup(s + t)
  {
    forall i, j | 0 <= i < j < |s + t| ensures (s + t)[i] != (s + t)[j] {
      if i < |s| <= j { assert t[j - |s|] in t; }
    }
  }

  lemma NoDupCons<T>(x: T, s: seq<T>)
    ensures NoDup([x] + s) <==> NoDup(s) && x !in s
  {
    var t := [x] + s;
    if NoDup(t) {
      forall i, j | 0 <= i < j < |s| ensures s[i] != s[j] { assert t[i + 1] != t[j + 1]; }
      forall i | 0 <= i < |s| ensures s[i] != x { assert t[0] != t[i + 1]; }
    }
    if NoDup(s) && x !in s {
      forall i, j | 0 <= i < j < |t| ensures t[i] != t[j] {
        if i > 0 { assert s[i - 1] != s[j - 1]; } else { assert s[j - 1] in s; }
      }
    }
  }

  lemma {:induction false} ConcatAppend<T>(ss: seq<seq<T>>, tt: seq<seq<T>>)
    ensures Concat(ss + tt) == Concat(ss) + Concat(tt)
  {
    if tt == [] {
      assert ss + tt == ss;
    } else {
      var n := |tt| - 1;
      assert (ss + tt)[..|ss + tt| - 1] == ss + tt[..n];
      ConcatAppend(ss, tt[..n]);
    }
  }

  lemma {:induction false} ConcatMember<T>(ss: seq<seq<T>>, x: T)
    ensures x in Concat(ss) <==> exists k :: 0 <= k < |ss| && x in ss[k]
  {
    if ss != [] {
      var n := |ss| - 1;
      ConcatMember(ss[..n], x);
      if x in Concat(ss[..n]) {
        var k :| 0 <= k < n && x in ss[..n][k];
        assert x in ss[k];
      }
      if k :| 0 <= k < |ss| && x in ss[k] {
        if k < n { assert x in ss[..n][k]; }
      }
    }
  }

  /** Equal entries of `ss` stand at the same place. */
  ghost predicate OnePlaceEach<T(!new)>(ss: seq<seq<T>>) {
    forall j, a, k, b :: (0 <= j < |ss| && 0 <= a < |ss[j]| && 0 <= k < |ss| && 0 <= b < |ss[k]|
                          && ss[j][a] == ss[k][b]) ==> j == k && a == b
  }

  lemma {:induction false} ConcatNoDup<T(!new)>(ss: seq<seq<T>>)
    ensures NoDup(Concat(ss)) <==> OnePlaceEach(ss)
  {
    if ss != [] {
      var n := |ss| - 1;
      var before, last := Concat(ss[..n]), ss[n];
      ConcatNoDup(ss[..n]);
      if NoDup(before + last) {
        NoDupParts(before, last);
        forall j, a, b | 0 <= j < n && 0 <= a < |ss[j]| && 0 <= b < |last| ensures ss[j][a] != last[b] {
          ConcatMember(ss[..n], ss[j][a]);
          assert ss[j][a] in ss[..n][j];
        }
        forall j, a, k, b | 0 <= j < |ss| && 0 <= a < |ss[j]| && 0 <= k < |ss| && 0 <= b < |ss[k]|
            && ss[j][a] == ss[k][b]
          ensures j == k && a == b
        {
          if j < n && k < n { assert ss[..n][j][a] == ss[..n][k][b]; }
        }
      }
      if OnePlaceEach(ss) {
        forall j, a, k, b | 0 <= j < n && 0 <= a < |ss[..n][j]| && 0 <= k < n && 0 <= b < |ss[..n][k]|
            && ss[..n][j][a] == ss[..n][k][b]
          ensures j == k && a == b
        {
          assert ss[j][a] == ss[k][b];
        }
        forall x | x in last ensures x !in before {
          ConcatMember(ss[..n], x);
          var b :| 0 <= b < |last| && last[b] == x;
          if x in before {
            assert false;
          }
        }
        NoDupJoin(before, last);
      }
    }
  }

  lemma NoDupParts<T>(s: seq<T>, t: seq<T>)
    requires NoDup(s + t)
    ensures NoDup(s) && NoDup(t) && forall x :: x in t ==> x !in s
  {
    var r := s + t;
    forall i, j | 0 <= i < j < |s| ensures s[i] != s[j] { assert r[i] != r[j]; }
    forall i, j | 0 <= i < j < |t| ensures t[i] != t[j] { assert r[|s| + i] != r[|s| + j]; }
    forall x | x in t ensures x !in s {
      var j :| 0 <= j < |t| && t[j] == x;
      assert r[|s| + j] == x;
      forall i | 0 <= i < |s| ensures s[i] != x { assert r[i] != r[|s| + j]; }
    }
  }

  lemma {:induction false} SumAppend(s: seq<nat>, t: seq<nat>)
    ensures Sum(s + t) == Sum(s) + Sum(t)
  {
    if t == [] {
      assert s + t == s;
    } else {
      var n := |t| - 1;
      assert (s + t)[..|s + t| - 1] == s + t[..n];
      SumAppend(s, t[..n]);
    }
  }

  /** Elements drawn from a finite set without repetition are no more than the set. */
  lemma {:induction false} Pigeonhole<T>(s: seq<T>, u: set<T>)
    requires NoDup(s)
    requires forall x :: x in s ==> x in u
    ensures |s| <= |u|
  {
    if s != [] {
      var n := |s| - 1;
      forall x | x in s[..n] ensures x in u - {s[n]} {
        var i :| 0 <= i < n && s[..n][i] == x;
        assert s[i] != s[n];
      }
      Pigeonhole(s[..n], u - {s[n]});
    }
  }

  lemma {:induction false} CountsDecideNoDup<T>(s: seq<T>)
    ensures NoDup(s) <==> forall x :: multiset(s)[x] <= 1
  {
    if s != [] {
      var k := |s| - 1;
      CountsDecideNoDup(s[..k]);
      assert s == s[..k] + [s[k]];
      if NoDup(s) {
        forall x ensures multiset(s)[x] <= 1 {
          assert multiset(s)[x] == multiset(s[..k])[x] + (if x == s[k] then 1 else 0);
          if x == s[k] && x in s[..k] { assert false; }
        }
      }
      if forall x :: multiset(s)[x] <= 1 {
        forall x ensures multiset(s[..k])[x] <= 1 {
          assert multiset(s)[x] == multiset(s[..k])[x] + (if x == s[k] then 1 else 0);
        }
      }
    }
  }

  lemma RemoveFirstFacts<T>(s: seq<T>, x: T)
    requires NoDup(s) && x in s
    ensures NoDup(RemoveFirst(s, x))
    ensures forall y :: y in RemoveFirst(s, x) <==> y in s && y != x
    ensures |RemoveFirst(s, x)| == |s| - 1
  {
    var i := FirstIndex(s, x);
    FirstIndexFacts(s, x);
    var r := RemoveFirst(s, x);
    assert forall k :: 0 <= k < |r| ==> r[k] == s[if k < i then k else k + 1];
    forall y ensures y in r <==> y in s && y != x {
      if y in s && y != x {
        var k :| 0 <= k < |s| && s[k] == y;
        assert r[if k < i then k else k - 1] == y;
      }
    }
  }

  lemma TwiceLeavesOne<T>(s: seq<T>, x: T)
    requires multiset(s)[x] >= 2
    ensures |s| >= 2 && x in s && x in RemoveFirst(s, x)
  {
    var i := FirstIndex(s, x);
    FirstIndexFacts(s, x);
    assert s == s[..i] + [s[i]] + s[i + 1..];
    assert multiset(s) == multiset(s[..i]) + multiset([s[i]]) + multiset(s[i + 1..]);
  }
}
