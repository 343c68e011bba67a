/**
 * The reply data of a session (src/session.c). A stored result shares the `data` object of the reply it
 * came with, so merging into the message that goes on to the next step also changes the newest stored
 * result; the success response is merged on a deep copy instead. JSON objects are heap references here,
 * and the library's object update is taken as known: it sets every member of the one in the other.
 */
module JsonMerge {
  import opened Lists

  /** The members of a JSON object, with their values as text. */
  type Data = map<string, string>

  class JsonObject {
    var fields: Data

    constructor (d: Data)
      ensures fields == d
    {
      fields := d;
    }
  }

  /** json_object_update, which refuses a missing object on either side. */
  method Update(into: JsonObject?, from: JsonObject?)
    modifies into
    ensures into != null ==> into.fields == old(into.fields) + (if from == null then map[] else old(from.fields))
  {
    if into != null && from != null { into.fields := into.fields + from.fields; }
  }

  // ----- maps laid over each other

  /** `base` overridden by the maps of `ms` in order; a result without data changes nothing. */
  function Override(base: Data, ms: seq<Option<Data>>): Data {
    if ms == [] then base
    else
      var d := Override(base, ms[..|ms| - 1]);
      match ms[|ms| - 1]
      case None => d
      case Some(m) => d + m
  }

  ghost predicate Has(m: Option<Data>, k: string) { m.Some? && k in m.value }

  /** The last map that holds a key gives its value, and the base where none does; no key is lost. */
  lemma {:induction false} OverrideFacts(base: Data, ms: seq<Option<Data>>, k: string)
    ensures k in Override(base, ms) <==> k in base || exists i :: 0 <= i < |ms| && Has(ms[i], k)
    ensures forall i :: 0 <= i < |ms| && Has(ms[i], k) && (forall j :: i < j < |ms| ==> !Has(ms[j], k))
                        ==> Override(base, ms)[k] == ms[i].value[k]
    ensures k in base && (forall i :: 0 <= i < |ms| ==> !Has(ms[i], k)) ==> Override(base, ms)[k] == base[k]
  {
    if ms != [] {
      var n := |ms| - 1;
      OverrideFacts(base, ms[..n], k);
      assert Override(base, ms) == Override(base, ms[..n]) + (if ms[n] == None then map[] else ms[n].value);
      hide Override;
      assert forall i :: 0 <= i < n ==> ms[..n][i] == ms[i];
      if i :| 0 <= i < |ms| && Has(ms[i], k) { if i < n { assert Has(ms[..n][i], k); } }
      if i :| 0 <= i < |ms[..n]| && Has(ms[..n][i], k) { assert Has(ms[i], k); }
      forall i | 0 <= i < |ms| && Has(ms[i], k) && forall j :: i < j < |ms| ==> !Has(ms[j], k)
        ensures Override(base, ms)[k] == ms[i].value[k]
      {
        if i < n { assert Has(ms[..n][i], k) && !Has(ms[n], k); }
      }
      if k in base && forall i :: 0 <= i < |ms| ==> !Has(ms[i], k) { assert !Has(ms[n], k); }
    }
  }

  lemma OverrideNext(base: Data, ms: seq<Option<Data>>, i: nat)
    requires i < |ms|
    ensures Override(base, ms[..i + 1]) == Override(base, ms[..i]) + (if ms[i] == None then map[] else ms[i].value)
  {
    assert ms[..i + 1][..i] == ms[..i];
  }

  lemma {:induction false} OverrideJoin(base: Data, a: seq<Option<Data>>, b: seq<Option<Data>>)
    ensures Override(base, a + b) == Override(Override(base, a), b)
  {
    if b == [] {
      assert a + b == a;
    } else {
      var n := |b| - 1;
      assert (a + b)[..|a + b| - 1] == a + b[..n];
      OverrideJoin(base, a, b[..n]);
    }
  }

  /** Overriding does not depend on what lies below, but for what it leaves visible. */
  lemma {:induction false} OverrideBase(base: Data, ms: seq<Option<Data>>)
    ensures Override(base, ms) == base + Override(map[], ms)
  {
    if ms != [] { OverrideBase(base, ms[..|ms| - 1]); }
  }

  // ----- the replies of a session

  /** The data of the replies of one step: the last one to arrive is the one that goes on. */
  datatype Replies = Replies(others: seq<Data>, last: Data)

  /** The objects that carry them. */
  datatype ReplyObjects = ReplyObjects(others: seq<JsonObject>, last: JsonObject)

  ghost predicate InReplies(x: JsonObject?, o: ReplyObjects) { x in o.others || x == o.last }

  /** Every reply that goes on comes with an object of its own. */
  ghost predicate Separate(steps: seq<ReplyObjects>) {
    && (forall i :: 0 <= i < |steps| ==> steps[i].last !in steps[i].others)
    && forall i, j :: 0 <= i < |steps| && 0 <= j < |steps| && i != j ==> !InReplies(steps[i].last, steps[j])
  }

  ghost predicate Carries(o: ReplyObjects, v: Replies)
    reads o.others, o.last
  {
    && |o.others| == |v.others| && o.last.fields == v.last
    && forall j :: 0 <= j < |o.others| ==> o.others[j].fields == v.others[j]
  }

  ghost function FieldsOf(os: seq<JsonObject>): (r: seq<Option<Data>>)
    reads os
  {
    seq(|os|, i requires 0 <= i < |os| reads os => Some(os[i].fields))
  }

  // ----- the result chain of a session

  class ResultChain {
    var chain: seq<JsonObject?>

    constructor ()
      ensures chain == []
    {
      chain := [];
    }

    /** What each stored result holds; a reply without a data object stores none. */
    ghost function Maps(): (r: seq<Option<Data>>)
      reads this, chain
    {
      seq(|chain|, i requires 0 <= i < |chain| reads this, chain =>
        if chain[i] == null then None else Some(chain[i].fields))
    }

    /** session_step_update: the stored result shares the reply's object. */
    method Store(data: JsonObject?)
      modifies this
      ensures chain == old(chain) + [data]
      ensures Maps() == old(Maps()) + [if data == null then None else Some(data.fields)]
    {
      chain := chain + [data];
    }

    /**
     * session_step: the results, the newest included, are merged into the data of the reply that goes
     * on. The newest result is that same object, so its turn changes nothing and it ends up merged too.
     */
    method Forward(root: JsonObject?)
      requires chain != [] && root == chain[|chain| - 1]
      requires root != null ==> root !in chain[..|chain| - 1]
      modifies root
      ensures root != null ==>
                var stored := old(Maps())[..|chain| - 1];
                && root.fields == Override(old(root.fields), stored)
                && Maps() == stored + [Some(Override(old(root.fields), stored))]
      ensures root == null ==> Maps() == old(Maps())
    {
      var n := |chain| - 1;
      ghost var ms := Maps();
      var i := 0;
      while i <= n
        invariant 0 <= i <= n + 1
        invariant root != null ==> root.fields == Override(old(root.fields), ms[..if i < n then i else n])
        invariant forall j :: 0 <= j < n ==> Maps()[j] == ms[j]
      {
        if i < n && root != null {
          assert Maps()[i] == ms[i];
          OverrideNext(old(root.fields), ms, i);
        }
        Update(root, chain[i]);
        i := i + 1;
      }
      assert root != null ==> Maps() == ms[..n] + [Some(root.fields)];
    }

    /** session_step_stop after the last step: the response is built on a deep copy. */
    method Respond(root: JsonObject?) returns (response: JsonObject?)
      ensures response == null <==> root == null
      ensures response != null ==> fresh(response) && response.fields == Override(root.fields, Maps())
    {
      if root == null { return null; }
      response := new JsonObject(root.fields);
      ghost var ms := Maps();
      var i := 0;
      while i < |chain|
        invariant 0 <= i <= |chain| && fresh(response) && response !in chain && Maps() == ms
        invariant response.fields == Override(root.fields, ms[..i])
      {
        assert ms[..i + 1][..i] == ms[..i];
        Update(response, chain[i]);
        i := i + 1;
      }
      assert ms[..i] == ms;
    }

    // ----- a whole session, when every reply carries data

    /** The replies of a step but the last: they are only stored. */
    method StoreAll(others: seq<JsonObject>)
      modifies this
      ensures chain == old(chain) + others
      ensures Maps() == old(Maps()) + FieldsOf(others)
    {
      var i := 0;
      while i < |others|
        invariant 0 <= i <= |others| && chain == old(chain) + others[..i]
      {
        assert others[..i + 1] == others[..i] + [others[i]];
        Store(others[i]);
        i := i + 1;
      }
    }

    /** One step: its replies are stored as they come, and the last one is merged and goes on. */
    method Step(o: ReplyObjects, ghost v: Replies, ghost before: seq<Replies>)
      requires Maps() == Chain(before) && Carries(o, v)
      requires o.last !in chain && o.last !in o.others
      modifies this, o.last
      ensures chain == old(chain) + o.others + [o.last]
      ensures Maps() == Chain(before + [v]) && o.last.fields == Forwarded(before + [v])
    {
      StoreAll(o.others);
      assert FieldsOf(o.others) == Stored(v.others);
      assert Maps() == Before(before, v.others);
      Store(o.last);
      assert chain[..|chain| - 1] == old(chain) + o.others;
      assert Maps()[..|chain| - 1] == Before(before, v.others);
      Forward(o.last);
      ForwardedAfter(before, v);
      assert (before + [v])[..|before|] == before;
    }

    /** The steps before the last, each with reply objects of its own. */
    method Steps(steps: seq<ReplyObjects>, ghost vs: seq<Replies>)
      requires chain == [] && Separate(steps)
      requires |steps| == |vs| && forall i :: 0 <= i < |steps| ==> Carries(steps[i], vs[i])
      modifies this, set i | 0 <= i < |steps| :: steps[i].last
      ensures Maps() == Chain(vs) && FromSteps(chain, steps, |steps|)
      ensures steps != [] ==> steps[|steps| - 1].last.fields == Forwarded(vs)
      ensures steps != [] ==> forall k :: k in steps[|steps| - 1].last.fields <==> Mentioned(vs, k)
    {
      hide Chain, Forwarded, Carries, FromSteps, Mentioned;
      var i := 0;
      NoStepsYet(steps);
      assert Maps() == [];
      while i < |steps|
        invariant 0 <= i <= |steps|
        invariant Maps() == Chain(vs[..i]) && FromSteps(chain, steps, i)
        invariant forall j :: i <= j < |steps| ==> Carries(steps[j], vs[j])
        invariant i > 0 ==> steps[i - 1].last.fields == Forwarded(vs[..i])
      {
        assert vs[..i + 1] == vs[..i] + [vs[i]];
        OwnObjects(chain, steps, i);
        FromStepsGrows(chain, steps, i);
        Step(steps[i], vs[i], vs[..i]);
        forall j | i < j < |steps| ensures Carries(steps[j], vs[j]) { Untouched(steps, i, j); }
        i := i + 1;
      }
      assert vs[..i] == vs;
      forall k ensures k in Forwarded(vs) <==> Mentioned(vs, k) { NoKeyLost(vs, k); }
    }

    /** A session that succeeds: its steps, the replies of the last one, and the response. */
    method Succeed(steps: seq<ReplyObjects>, end: ReplyObjects, ghost vs: seq<Replies>, ghost v: Replies)
      returns (response: JsonObject?)
      requires chain == [] && Separate(steps + [end])
      requires |steps| == |vs| && Carries(end, v) && forall i :: 0 <= i < |steps| ==> Carries(steps[i], vs[i])
      modifies this, set i | 0 <= i < |steps| :: steps[i].last
      ensures response != null && fresh(response)
      ensures response.fields == Forwarded(vs) + Override(map[], Stored(v.others)) + v.last
      ensures forall k :: k in response.fields <==> Mentioned(vs + [v], k)
    {
      hide Chain, Forwarded, Override, FromSteps, Mentioned;
      SeparateEnd(steps, end);
      Steps(steps, vs);
      assert Carries(end, v);
      StoreAll(end.others);
      Store(end.last);
      assert FieldsOf(end.others) == Stored(v.others);
      assert Maps() == Before(vs, v.others) + [Some(v.last)];
      response := Respond(end.last);
      ResponseAfter(vs, v);
      forall k ensures k in response.fields <==> Mentioned(vs + [v], k) { ResponseKeys(vs, v, k); }
    }
  }

  /** Every stored result came with one of the first `n` steps. */
  ghost predicate FromSteps(chain: seq<JsonObject?>, steps: seq<ReplyObjects>, n: nat)
    requires n <= |steps|
  {
    forall x :: x in chain ==> exists j :: 0 <= j < n && InReplies(x, steps[j])
  }

  lemma NoStepsYet(steps: seq<ReplyObjects>)
    ensures Chain([]) == [] && FromSteps([], steps, 0)
  {
  }

  lemma OwnObjects(chain: seq<JsonObject?>, steps: seq<ReplyObjects>, i: nat)
    requires i < |steps| && Separate(steps) && FromSteps(chain, steps, i)
    ensures steps[i].last !in chain && steps[i].last !in steps[i].others
  {
    assert forall j :: 0 <= j < i ==> !InReplies(steps[i].last, steps[j]);
  }

  lemma FromStepsGrows(chain: seq<JsonObject?>, steps: seq<ReplyObjects>, i: nat)
    requires i < |steps| && FromSteps(chain, steps, i)
    ensures FromSteps(chain + steps[i].others + [steps[i].last], steps, i + 1)
  {
    forall x | x in chain + steps[i].others + [steps[i].last]
      ensures exists j :: 0 <= j < i + 1 && InReplies(x, steps[j])
    {
      if x in chain {
        var j :| 0 <= j < i && InReplies(x, steps[j]);
      } else {
        assert InReplies(x, steps[i]);
      }
    }
  }

  /** What step `i` writes to carries nothing of step `j`. */
  lemma Untouched(steps: seq<ReplyObjects>, i: nat, j: nat)
    requires Separate(steps) && i < |steps| && j < |steps| && i != j
    ensures steps[i].last !in steps[j].others && steps[i].last != steps[j].last
  {
    assert !InReplies(steps[i].last, steps[j]);
  }

  lemma SeparateEnd(steps: seq<ReplyObjects>, end: ReplyObjects)
    requires Separate(steps + [end])
    ensures Separate(steps)
    ensures forall i :: 0 <= i < |steps| ==> steps[i].last !in end.others && steps[i].last != end.last
  {
    var all := steps + [end];
    assert all[|steps|] == end && forall i :: 0 <= i < |steps| ==> all[i] == steps[i];
    forall i | 0 <= i < |steps| ensures steps[i].last !in end.others && steps[i].last != end.last {
      Untouched(all, i, |steps|);
    }
    forall i | 0 <= i < |steps| ensures steps[i].last !in steps[i].others { assert all[i].last !in all[i].others; }
    forall i, j | 0 <= i < |steps| && 0 <= j < |steps| && i != j ensures !InReplies(steps[i].last, steps[j]) {
      assert !InReplies(all[i].last, all[j]);
    }
  }

  // ----- a whole run, when every reply carries data

  function Stored(ds: seq<Data>): (r: seq<Option<Data>>)
    ensures |r| == |ds| && forall i :: 0 <= i < |r| ==> r[i] == Some(ds[i])
  {
    seq(|ds|, i requires 0 <= i < |ds| => Some(ds[i]))
  }

  /** The stored results when the last reply of a step arrives. */
  function Before(steps: seq<Replies>, others: seq<Data>): seq<Option<Data>>
    decreases |steps|, 1
  {
    Chain(steps) + Stored(others)
  }

  /** The stored results after the steps, as Forward leaves them. */
  function Chain(steps: seq<Replies>): seq<Option<Data>>
    decreases |steps|, 0
  {
    if steps == [] then []
    else
      var n := |steps| - 1;
      var s := steps[n];
      Before(steps[..n], s.others) + [Some(Override(s.last, Before(steps[..n], s.others)))]
  }

  /** The data that goes on after the steps. */
  function Forwarded(steps: seq<Replies>): Data {
    if steps == [] then map[]
    else
      var s := steps[|steps| - 1];
      s.last + Forwarded(steps[..|steps| - 1]) + Override(map[], Stored(s.others))
  }

  /** Laid over anything, the stored results of whole steps look like the data forwarded last. */
  lemma {:induction false} ChainIsForwarded(steps: seq<Replies>, base: Data)
    ensures Override(base, Chain(steps)) == base + Forwarded(steps)
    decreases |steps|, 0
  {
    if steps == [] {
      assert base + map[] == base;
    } else {
      var n := |steps| - 1;
      var s := steps[n];
      var before, others := Before(steps[..n], s.others), Override(map[], Stored(s.others));
      ForwardedAfter(steps[..n], s);
      OverrideJoin(base, before, [Some(Forwarded(steps))]);
      SingleOverride(Override(base, before), Forwarded(steps));
      OverrideJoin(base, Chain(steps[..n]), Stored(s.others));
      ChainIsForwarded(steps[..n], base);
      OverrideBase(base + Forwarded(steps[..n]), Stored(s.others));
      Covered(base, s.last, Forwarded(steps[..n]), others);
      assert steps == steps[..n] + [s];
    }
  }

  lemma SingleOverride(base: Data, m: Data)
    ensures Override(base, [Some(m)]) == base + m
  {
    assert [Some(m)][..0] == [];
    assert Override(base, []) == base;
  }

  lemma Covered(base: Data, last: Data, a: Data, b: Data)
    ensures base + a + b + (last + a + b) == base + (last + a + b)
  {
  }

  /**
   * What goes on after a step is the last reply overridden by what went on before and by the step's
   * other replies, in order: the older value wins over the reply that carries the message on.
   */
  lemma ForwardedAfter(steps: seq<Replies>, s: Replies)
    ensures Override(s.last, Before(steps, s.others)) == Forwarded(steps + [s])
    decreases |steps|, 1
  {
    assert (steps + [s])[..|steps|] == steps;
    OverrideJoin(s.last, Chain(steps), Stored(s.others));
    ChainIsForwarded(steps, s.last);
    OverrideBase(s.last + Forwarded(steps), Stored(s.others));
  }

  /** The success response: there the last reply wins. */
  lemma ResponseAfter(steps: seq<Replies>, s: Replies)
    ensures Override(s.last, Before(steps, s.others) + [Some(s.last)])
         == Forwarded(steps) + Override(map[], Stored(s.others)) + s.last
  {
    hide Override, Chain, Forwarded;
    var others := Override(map[], Stored(s.others));
    OverrideJoin(s.last, Before(steps, s.others), [Some(s.last)]);
    SingleOverride(Override(s.last, Before(steps, s.others)), s.last);
    OverrideJoin(s.last, Chain(steps), Stored(s.others));
    ChainIsForwarded(steps, s.last);
    OverrideBase(s.last + Forwarded(steps), Stored(s.others));
    LastWins(s.last, Forwarded(steps), others);
  }

  lemma LastWins(last: Data, a: Data, b: Data)
    ensures last + a + b + last == a + b + last
  {
  }

  /** Some reply of the steps holds the key. */
  ghost predicate Mentioned(steps: seq<Replies>, k: string) {
    exists i :: 0 <= i < |steps| && InStep(steps[i], k)
  }

  ghost predicate InStep(s: Replies, k: string) {
    k in s.last || exists j :: 0 <= j < |s.others| && k in s.others[j]
  }

  /** Forwarded data and response hold exactly the keys of all replies. */
  lemma {:induction false} NoKeyLost(steps: seq<Replies>, k: string)
    ensures k in Forwarded(steps) <==> Mentioned(steps, k)
  {
    if steps != [] {
      var n := |steps| - 1;
      var s := steps[n];
      NoKeyLost(steps[..n], k);
      OverrideFacts(map[], Stored(s.others), k);
      assert forall i :: 0 <= i < n ==> steps[..n][i] == steps[i];
      if j :| 0 <= j < |s.others| && k in s.others[j] { assert Has(Stored(s.others)[j], k); }
      if i :| 0 <= i < |Stored(s.others)| && Has(Stored(s.others)[i], k) { assert k in s.others[i]; }
      if i :| 0 <= i < |steps| && InStep(steps[i], k) { if i < n { assert InStep(steps[..n][i], k); } }
      if i :| 0 <= i < |steps[..n]| && InStep(steps[..n][i], k) { assert InStep(steps[i], k); }
    }
  }

  lemma ResponseKeys(steps: seq<Replies>, s: Replies, k: string)
    ensures k in Override(s.last, Before(steps, s.others) + [Some(s.last)]) <==> Mentioned(steps + [s], k)
  {
    hide Mentioned;
    ResponseAfter(steps, s);
    NoKeyLost(steps + [s], k);
    assert (steps + [s])[..|steps|] == steps;
  }

  /** When each step has one model, what goes on keeps the first value that any step gave a key. */
  lemma {:induction false} FirstValueStays(steps: seq<Replies>, i: nat, k: string)
    requires forall j :: 0 <= j < |steps| ==> steps[j].others == []
    requires i < |steps| && k in steps[i].last && forall j :: 0 <= j < i ==> k !in steps[j].last
    ensures k in Forwarded(steps) && Forwarded(steps)[k] == steps[i].last[k]
  {
    var n := |steps| - 1;
    assert Stored(steps[n].others) == [];
    NoKeyLost(steps[..n], k);
    if i < n {
      FirstValueStays(steps[..n], i, k);
    } else {
      forall j | 0 <= j < n ensures !InStep(steps[..n][j], k) { assert steps[..n][j] == steps[j]; }
    }
  }
}
