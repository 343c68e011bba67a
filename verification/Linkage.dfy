/**
 * The two indexes over whole runs: every subscriber a resource lists is a registered component,
 * listed once, and no resource is without subscribers. The one event that breaks this is a
 * registration that names a resource twice.
 */
module Linkage {
  import opened Lists
  import opened Entities
  import opened Protocol
  import opened Registry
  import opened Soundness

  ghost predicate LinkedState(st: State) { Linked(st.components, st.resources) }

  /** Appending a registered component to a resource that does not list it. */
  lemma AppendSubscriberLinked(cs: seq<Component>, rs: seq<Resource>, r: Name, c: Name)
    requires Linked(cs, rs) && UniqueResources(rs) && HasComponent(cs, c)
    requires Lookup(rs, r).Some? ==> c !in Lookup(rs, r).value.subscribers
    ensures Linked(cs, AppendSubscriber(rs, r, c))
  {
    var i, rs' := FindResource(rs, r), AppendSubscriber(rs, r, c);
    forall k | 0 <= k < |rs'| ensures LinkedResource(cs, rs'[k]) {
      if k < |rs| { assert LinkedResource(cs, rs[k]); }
    }
  }

  lemma BuiltinLinked(st: State, name: Name, topic: Name, wildcard: Name)
    requires Identified(st.components, st.resources) && LinkedState(st) && topic != wildcard
    ensures LinkedState(WithBuiltin(st, name, topic, wildcard))
  {
    if !HasComponent(st.components, name) {
      var st' := WithBuiltin(st, name, topic, wildcard);
      var cs', rs := st'.components, st.resources;
      assert cs'[|st.components|].name == name;
      forall d | HasComponent(st.components, d) ensures HasComponent(cs', d) {
        assert cs'[FindComponent(st.components, d)].name == d;
      }
      forall k | 0 <= k < |rs| ensures LinkedResource(cs', rs[k]) && name !in rs[k].subscribers {
        assert LinkedResource(st.components, rs[k]);
      }
      AppendSubscriberLinked(cs', rs, topic, name);
      AppendSubscriberUnique(rs, topic, name);
      if !ResourceLocked(rs, topic) { AppendSubscriberLookup(rs, topic, name, wildcard); }
      AppendSubscriberLinked(cs', AppendSubscriber(rs, topic, name), wildcard, name);
    }
  }

  /** An accepted registration that names some resource more than once. */
  ghost predicate RepeatsResource(st: State, e: Event) {
    e.RegisterEvent? && Register(st.components, st.resources, e.component, e.resources).code == CODE_OK
        && !NoDup(e.resources)
  }

  lemma NextLinkedIff(st: State, e: Event)
    requires Sound(st) && Enabled(st, e) && LinkedState(st)
    ensures LinkedState(Next(st, e)) <==> !RepeatsResource(st, e)
  {
    match e
    case Connect =>
      WildcardsDiffer();
      TopicsDiffer();
      BuiltinLinked(st, REGISTER_NAME, REGISTER_TOPIC, REGISTER_WILDCARD);
      BuiltinSound(st, REGISTER_NAME, REGISTER_TOPIC, REGISTER_WILDCARD);
      BuiltinLinked(WithBuiltin(st, REGISTER_NAME, REGISTER_TOPIC, REGISTER_WILDCARD),
                    DEPENDENCY_NAME, DEPENDENCY_TOPIC, DEPENDENCY_WILDCARD);
    case RegisterEvent(c, ns) =>
      if Register(st.components, st.resources, c, ns).code == CODE_OK {
        RegisterKeepsLinkedIff(st.components, st.resources, c, ns);
      }
    case DeregisterEvent(n) => DeregisterKeepsLinked(st.components, st.resources, n);
    case Request(id, verb, topic, tunnel) =>
      RequestSound(st, id, verb, topic, tunnel);
      SameNodesIdentified(st.components, st.resources, Next(st, e).components, Next(st, e).resources);
    case Reply(id, code) =>
      ReplySound(st, id, code);
      SameNodesIdentified(st.components, st.resources, Next(st, e).components, Next(st, e).resources);
    case Tick(seconds) =>
      TickSound(st, seconds);
      SameNodesIdentified(st.components, st.resources, Next(st, e).components, Next(st, e).resources);
  }

  lemma WildcardsDiffer()
    ensures REGISTER_TOPIC != REGISTER_WILDCARD && DEPENDENCY_TOPIC != DEPENDENCY_WILDCARD
  {
    assert |REGISTER_TOPIC| == 24 && |REGISTER_WILDCARD| == 26;
    assert |DEPENDENCY_TOPIC| == 31 && |DEPENDENCY_WILDCARD| == 33;
  }

  ghost predicate DistinctRegistrations(es: seq<Event>) {
    forall k :: 0 <= k < |es| && es[k].RegisterEvent? ==> NoDup(es[k].resources)
  }

  /** Whatever the order of events, the indexes stay consistent while registrations name distinct resources. */
  lemma {:induction false} RunLinked(es: seq<Event>)
    requires EnabledRun(Empty, es) && DistinctRegistrations(es)
    ensures LinkedState(Run(Empty, es))
  {
    if es != [] {
      var fs := es[..|es| - 1];
      RunPrefix(Empty, es);
      RunSound(fs);
      RunLinked(fs);
      NextLinkedIff(Run(Empty, fs), es[|es| - 1]);
    }
  }
}
