# Sanji Controller: a verified model

Sanji Controller sits beside a message broker. Components register with the resources they serve and the
components they hook. A write request is turned into a session: the models subscribed to the topic, then the
components that hook them, and so on, level by level. The session locks all these models and their resources,
sends the request to one level after the other, waits for all replies of a level, merges the reply data, and
unlocks at the end, on an error reply, or when a time to live runs out.

This project models that behaviour and proves what it keeps and where it fails.

## How it is built

- `Entities`, `Lists`: the records of the three lists, the constants, integer widths, and facts on sequences.
- `TopicMatch`, `TopicLookup`: from a topic to resources and subscribers.
- `HookWalk`: the chain-building walk and the list of resources to lock.
- `Locking`, `Registry`: lock loops and rollback; registration and its two cross-referenced indexes.
- `Protocol`: the controller as a transition system. `Next` is one event; `Run` is a sequence of events.
- `ListOrder`, `Answers`, `Admitted`, `Registrations`, `Replies`, `Lifetimes`: what each operation answers and
  does, said of nodes, positions, routes and seconds rather than by the functions that compute it.
- `Soundness`, `Linkage`, `Ownership`, `Recovery`, `Progress`, `Endings`: the theorems over runs.
- `Witness`, `StuckSession`: concrete runs on which a desirable property fails.
- `ResourceStore`, `ComponentStore`, `SessionStore`, `Controller`: the same operations as classes whose methods
  change the lists with the loops of the source. Each method is proved to compute the functions above, up to
  `Controller.Handle`, which computes `Next`, and `Controller.HandleAll`, which computes `Run`; the theorems over
  runs are thereby theorems about the object.
- `JsonMerge`: reply data as heap references, because aliasing decides the result of merging.
- `RingList`, `FlatSlots`: the memory level, i.e. the intrusive ring that links the nodes and the flat slots that
  hold names in a node. They justify the sequences that the store classes keep: a ring is traversed in the
  order of its sequence, and slot operations are append and remove-first on names.
- `Crc16`, `IniTable`: the checksum and the hashed key table.

`dafny verify dfyconfig.toml` checks everything.

## What was found

The code is modelled as written. Where a desirable property fails, the exact condition is proved.

- The rollback after a failed lock (src/sanji_controller.c:1947-1951) unlocks the whole chain, including names
  another session has locked. Ownership of locks survives an event if and only if the event is not such a
  collision (`Ownership.NextOwnedIff`, over runs `Ownership.RunOwnedIff`). `Witness.LockLost` gives five events
  after which two write sessions in flight hold the same resource.
- The controller recovers: a collision touches no model lock, every release is complete, and when the last write
  session has ended all locks are clear, over every run (`Recovery.ModelLocksHaveOneOwner`,
  `Recovery.ReleaseIsComplete`, `Recovery.AllReleased`).
- Only the first level of a chain is checked for models (src/sanji_controller.c:1911), but a view that hooks a
  model makes a later level empty. A session that reaches it is stuck: ticks never expire it and the first reply
  wraps its counter (`StuckSession.SessionGetsStuck`, `Progress.EmptyLevelStays`). An admitted session is sure to
  end if and only if every level holds a model (`Endings.AdmittedEndsIff`), as when only models hook others
  (`Progress.AdmittedIsBounded`).
- The chain loop ends if and only if no hook walk revisits a model (`HookWalk.WalkEndsIff`); nothing stops a
  model from hooking itself, and a write on its topic then has no answer (`Witness.SelfHookHangsIff`).
- Naming a resource twice in one registration breaks the indexes, and deregistering then leaves the component
  listed (`Registry.RegisterKeepsLinkedIff`, `Registry.DuplicateDangles`).
- A tick of more than ttl + 2^31 seconds lengthens a time to live (`Progress.TickShortensIff`).
- The exact topic lookup adds a resource only for names that do not match themselves, with a '+' inside a level
  (`TopicLookup.ExactLookupAddsIff`).
- A model that two subscriptions match is not merged into one entry: a write is answered 503, a read is sent to it
  twice (`Answers.TwiceListedIsRefused`, `Admitted.LevelRoutes`).
- The forwarded data and the success response resolve clashes in opposite ways (`JsonMerge.ForwardedAfter`,
  `JsonMerge.ResponseAfter`).

## Reading the model

- The events are: connecting (which registers the two built-in models), register, deregister, request, reply and
  tick. A request is enabled when it is refused before its chain is built, or its walk ends or meets a locked
  model, since the source answers no other; ids are not zero, since zero marks an event message; ticks are
  positive and below 2^32.
- Drawn tunnels are decimal numbers not in use; the drawing loop is a function from attempts to names that gives
  some unused one.
- Names are character sequences compared as a whole; `FlatSlots` shows what 32-character slots make of them.
- `char` is taken as unsigned, as on the ARM targets the controller is packaged for.
- A session is found by its position or its id where the source keeps a pointer to it; ids are unique.
- `hide` statements only keep definitions out of proofs that do not need them.

## Model

| member | source | states |
|---|---|---|
| `Ownership.NextOwnedIff` | src/sanji_controller.c:1946-1960 | one event keeps ownership (a lock bit is set if and only if exactly one write session in flight holds that name; sessions hold disjoint names) if and only if it is not a write request that reaches the lock loop needing a resource another session holds |
| `Ownership.RunOwnedIff` | src/session.c:293-373 | ownership holds in every state of an enabled run from the empty controller if and only if none of its requests collides |
| `Ownership.CollisionLosesLock` | src/sanji_controller.c:1947-1951 | every colliding request leaves some session in flight holding a resource whose lock its rollback has cleared |
| `Witness.LockLost` | src/sanji_controller.c:1946-1960 | for any two models sharing a resource, five concrete events from the empty controller: after the fourth, a collision, the shared resource is unlocked while the first session holds it; the fifth, a retry, is admitted, and two write sessions in flight hold that resource |
| `Ownership.StopOwned` | src/session.c:516-522 | ending a session clears the locks of that session and of no other |
| `Ownership.AdmissionIff` | src/sanji_controller.c:1946-1960 | a write request that passed the checks becomes a session if and only if all models of all levels are pairwise distinct and unlocked and all dependency resources are unlocked; when no dependency is locked a refusal leaves the state as it was |
| `Ownership.NewSessionNames` | src/sanji_controller.c:1757-1905 | the names a new session would lock are registered, its models are unlocked and its dependency list is duplicate-free |
| `Locking.LockNamesIff` | src/session.c:334-373 | the lock loops succeed if and only if the models are distinct and nothing is locked, and then set exactly the named lock bits |
| `Locking.RollbackClears` | src/sanji_controller.c:1948-1951 | after a failed lock, at whatever name it failed, the rollback clears the lock bit of every name of the chain, whoever had set it |
| `Locking.ClearingUnlockedIsIdentity` | src/sanji_controller.c:1948-1951 | the rollback restores both lists when nothing of the chain had been locked |
| `Recovery.NextSecured` | src/sanji_controller.c:1946-1960 | every enabled event, collisions included, keeps: each model lock belongs to exactly one session, a locked resource is held by some session, and a held resource lists a model of the session that holds it |
| `Recovery.ModelLocksHaveOneOwner` | src/sanji_controller.c:1757-1768 | over all enabled runs a model is locked if and only if a write session in flight holds it, and then just one does |
| `Recovery.ReleaseIsComplete` | src/session.c:305-320 | in every reachable state the early returns of the unlock loop are not taken at the end of a session: all its names, and only those, are unlocked |
| `Recovery.AllReleased` | src/session.c:516-522 | in every reachable state, after collisions too, with no write session in flight every lock bit of both lists is clear and ownership holds again |
| `Recovery.HeldStayRegistered` | src/sanji_controller.c:831-855 | in every reachable state the components and resources that sessions in flight hold are registered: no deregistration has removed one |
| `Recovery.StepReachesEveryModel` | src/session.c:590-598 | in every reachable state each step of a write session is published to one distinct tunnel per model and to no missing one |
| `Answers.RequestCode` | src/sanji_controller.c:1640-1960 | every code of every answered request, as an if-and-only-if over the registered nodes and the routes from the topic to models: 404 no resource carries or accepts the topic; else 403 the id is in flight; 423 a concerned resource or a model on a route is locked; 501 nobody is listed; 403 no subscriber is a model; else a read is admitted, and a write if and only if no model is reached on two routes and no resource needed is locked, else 503 |
| `Answers.TwiceListedIsRefused` | src/sanji_controller.c:622-653 | a write that two entries of subscriber lists lead to one model, nothing being locked, is answered 503 |
| `Answers.QueryAnswer` | src/sanji_controller.c:1260-1385 | the dependency query: 404 if and only if the topic concerns no resource, 501 if and only if it does and nobody is listed, else the resources that a write on the topic needs, each once |
| `Admitted.RequestState` | src/sanji_controller.c:1905-1981 | what a request does to the state: nothing when a check refuses it; with 503 the locks of the resources it needs go, whoever had set them; with 200 one session is added at the end, described by routes, and exactly the models reached and the resources needed are locked by a write |
| `Admitted.LevelRoutes` | src/sanji_controller.c:1744-1905 | level k waits for the ends of exactly the routes of k hops to models, in the order of resource, subscriber and hooking component, with their times to live |
| `Admitted.DepthOfRoutes` | src/sanji_controller.c:1715-1905 | a read has one level; a write has as many as there are lengths of routes, the first one always |
| `ListOrder.SubscribersInOrder` | src/sanji_controller.c:622-653 | entry by entry, the subscribers are those of all the matched resources, resource by resource in list order, repetitions kept |
| `ListOrder.MatchedInOrder` | src/sanji_controller.c:569-620 | the matched resources are exactly the concerned ones, in list order, one that is only named like the topic last |
| `ListOrder.HookedByInOrder` | src/component.c:347-378 | position by position, the components that hook a name, in list order |
| `ListOrder.FrontInOrder` | src/sanji_controller.c:1844-1905 | entry by entry, level k of the walk is the ends of all traces of k hooks, in lexicographic order of positions |
| `ListOrder.DependenciesInOrder` | src/sanji_controller.c:1805-1842 | the resources to lock come in the order in which the models of the chain, one after the other, subscribe to them |
| `HookWalk.LevelCountsWalks` | src/sanji_controller.c:1715-1905 | level k of the chain holds each model exactly as many times as there are hook walks of k steps from the matched subscribers to it |
| `HookWalk.DependenciesFacts` | src/sanji_controller.c:1805-1842 | the dependency chain has no repetition and is exactly the set of resources that some model of the chain subscribes to |
| `HookWalk.TtlsAreTheModels` | src/sanji_controller.c:1790-1804 | entry i of a level's times to live is that of its model i |
| `HookWalk.WalkViewsMember` | src/sanji_controller.c:1870-1893 | the view list holds exactly the views that some level of the walk meets |
| `HookWalk.WalkEndsIff` | src/sanji_controller.c:1715-1905 | the do-while loop runs out of components if and only if no hook walk revisits a model, and then after at most one round more than there are components |
| `HookWalk.RankedHooksEnd` | src/sanji_controller.c:1715-1905 | with a rank function on the hooks the walk ends within the highest rank |
| `HookWalk.LockMetEarly` | src/sanji_controller.c:1757-1768 | a locked model anywhere on an endless or ending walk is met within a bound, so such a request is refused |
| `HookWalk.LevelsNotEmpty` | src/sanji_controller.c:1911-1919 | when only models hook others, a chain whose first level holds a model has no empty level |
| `Witness.SelfHookHangsIff` | src/sanji_controller.c:1844-1905 | after the registration of a model that hooks itself, a write on a topic it named is never answered if and only if its id is free, no matched resource is locked and no locked model is met |
| `Witness.SelfHookHangs` | src/sanji_controller.c:1844-1905 | from the empty controller one such registration suffices: no write on the topic is answered |
| `Ownership.QueryIsDependencyList` | src/sanji_controller.c:1292-1378 | when the walk from the topic ends, dependency_read returns, element by element, the dependency list that a write request on the topic builds, whatever is locked |
| `Ownership.QueryPredictsLocks` | src/sanji_controller.c:1292-1378 | when a write request is admitted, its walk ends, and the resources it newly locks are exactly the answered ones |
| `Registrations.RegisterAnswer` | src/sanji_controller.c:738-806 | 423 if and only if a named resource is locked, else 403 if and only if the name is taken, and both change nothing; else the component is added as it is after the others, each resource gains it once per time it was named, and new resources come in the order named |
| `Registrations.DeregisterAnswer` | src/sanji_controller.c:808-863 | 423 if and only if the registered component or a resource that lists it is locked; else 200, and the component goes, resources it alone subscribed to go, and the others lose its first entry and keep their order |
| `Registrations.RemovalStopsAtLock` | src/resource.c:423-510 | the removal stops at the first locked resource that lists the name, which loses its last entry instead |
| `Registrations.RemoveSubscriberAnswer` | src/resource.c:337-421 | the codes of removing a subscriber from one resource by name, and what becomes of every resource |
| `Registrations.ConnectFromEmpty` | src/sanji_controller.c:2316-2333 | the first connect yields two literal models and four literal resources |
| `Registrations.ConnectAdds` | src/sanji_controller.c:2316-2333 | from any reachable state connecting adds exactly the built-in models that are not registered, and subscribes each last to its topic and its wildcard unless they are locked |
| `Registrations.ConnectLeads` | src/sanji_controller.c:2326-2332 | every topic one level below a built-in model's own then leads to that model |
| `Registrations.FirstRequest` | src/sanji_controller.c:2326-2332 | after the first connect a request of any kind on such a topic is admitted and waits for the registration model alone |
| `Registry.RegisterThenDeregister` | src/sanji_controller.c:738-863 | from consistent indexes, registering on distinct resources and deregistering restores both lists as the same sequences, subscriber orders included |
| `Registry.RegisterKeepsLinkedIff` | src/sanji_controller.c:766-798 | an accepted registration keeps the two indexes consistent if and only if it names each resource once |
| `Registry.DuplicateDangles` | src/resource.c:437-503 | with a repeated resource name, deregistering leaves the removed component listed: the two-phase delete takes out the first occurrence only |
| `Registry.DeregisterKeepsLinked` | src/sanji_controller.c:808-863 | deregistering keeps the indexes consistent |
| `Registry.RegisterKeepsIdentified` | src/sanji_controller.c:766-798 | registering keeps component names, resource names and tunnels unique |
| `Registry.AppendThenRemoveOne` | src/resource.c:337-421 | by name, removing an appended subscriber from an unlocked resource restores the list, order included, and drops a node that was created for it |
| `Registry.AppendToAllLookup` | src/resource.c:289-335 | after a registration each resource has exactly one entry more per time it was named, at its end, and is created when missing |
| `Linkage.NextLinkedIff` | src/sanji_controller.c:738-863 | one event keeps the indexes consistent if and only if it is not an accepted registration that repeats a resource |
| `Linkage.RunLinked` | src/sanji_controller.c:738-863 | over every run with distinct resource names per registration, every subscriber is a registered component, listed once, and no resource has zero subscribers |
| `Soundness.NextSound` | src/sanji_controller.c:766-798 | every event keeps names, tunnels and session ids unique and every session waiting at one of its levels |
| `Soundness.ReconnectIsHarmless` | src/sanji_controller.c:2316-2333 | connecting a second time changes nothing |
| `Soundness.RunSound` | src/sanji_controller.c:1690-1701 | the same over every run from the empty controller |
| `Progress.RunCounted` | src/session.c:375-396 | in every reachable state, for a session whose levels begun hold models: 1 <= wait <= models of the level, and stored plus awaited replies equal the models of the levels begun, so the unsigned counter has not wrapped |
| `Progress.SuccessIff` | src/session.c:605-629 | a 200 reply ends a session, which is its success, if and only if no level of the chain is empty and the reply makes as many replies as the chain has models |
| `Progress.ReplyEffect` | src/session.c:605-629 | a reply changes the session with its id, as counted, and no other |
| `Progress.SessionEnds` | src/session.c:631-660 | while a bounded session is in flight, fewer replies and ticks have gone by than its budget, under any interleaving with other events |
| `Progress.BudgetAtStart` | src/session.c:532-563 | the budget of a new session is the number of its models plus the sum over levels of the least time to live |
| `Progress.AdmittedIsBounded` | src/sanji_controller.c:1911-1919 | when only models hook others and no time to live is negative, every admitted session is one the bound applies to |
| `Endings.EmptyLevelIsReached` | src/session.c:385-396 | from any earlier level a run of 200 replies takes a session to its first empty level, waiting for nothing |
| `Endings.SessionEndsIff` | src/session.c:631-660 | a session whose levels begun hold models ends within its budget of replies and short ticks on every enabled run if and only if no level is empty; otherwise no bound holds |
| `Endings.AdmittedEndsIff` | src/sanji_controller.c:1911-1919 | for every admitted request with times to live in range: the session is sure to end, within models plus least times to live, if and only if every level of the chain built holds a model |
| `StuckSession.SessionGetsStuck` | src/sanji_controller.c:1911-1919 | registering a model, registering a view that hooks it, a write on its topic and one 200 reply leave the session stuck at an empty level, and no bound holds for it |
| `Progress.EmptyLevelStays` | src/session.c:385-396 | a session at an empty level stays there through any run of ticks and fewer than 2^32 successful replies |
| `Lifetimes.TickTakesSeconds` | src/session.c:636-660 | a tick ends exactly the sessions one of whose current times to live, less the seconds in 32 bits, is not positive, and else leaves that difference in each of them and all else alone |
| `Lifetimes.TtlOverRun` | src/session.c:641-653 | while a session stays at a level, over any run, each time to live of the level is its value on arrival less the seconds of the ticks since; the other levels keep theirs |
| `Lifetimes.EndsAtTickIff` | src/session.c:641-660 | a tick ends a session if and only if the seconds since it came to its level have reached the time to live of a model of the level: never earlier, never later |
| `Lifetimes.TickKeepsOrder` | src/session.c:655-660 | the sessions left by a tick stand in their old order |
| `Replies.TickReleases` | src/session.c:516-522 | in a reachable state a tick clears exactly the locks that the sessions it ends hold, and changes nothing else in the two lists |
| `Replies.ReplyAnswer` | src/session.c:605-629 | a good reply short of the level's models is noted; the one that completes the level sends the request to every model of the next one, or with the last level ends the session; an error reply ends it; an end clears exactly what the session holds |
| `Replies.RequestPublishes` | src/session.c:590-598 | an admitted request goes at once to the tunnels of the models of its first level, in order; a refused one goes nowhere |
| `Progress.TickShortensIff` | src/session.c:644-646 | a tick lowers a time to live if and only if it is at most ttl + 2^31 seconds, else the counter wraps |
| `SessionStore.LockByStep` | src/session.c:334-373 | the nested lock loops with their early returns leave the two lists as LockStep says, for all steps or one |
| `SessionStore.UnlockByStep` | src/session.c:293-332 | the same for unlocking |
| `SessionStore.LockOneStep` | src/session.c:359-369 | locking one level succeeds if and only if its models are distinct and unlocked, and touches no resource |
| `SessionStore.UnlockOneStep` | src/session.c:321-329 | unlocking one level clears its models and touches nothing else |
| `SessionStore.SessionList.Lookup` | src/session.c:104-115 | the position of the first session with the id |
| `SessionStore.SessionList.DeleteFirstId` | src/session.c:251-273 | the first session with the id goes, the others keep their order |
| `SessionStore.SessionList.Stop` | src/session.c:398-530 | the new state of all three lists when a session ends |
| `SessionStore.SessionList.Step` | src/session.c:532-603 | the new state of all three lists, and the tunnels published to |
| `SessionStore.SessionList.DecrefWait` | src/session.c:385-396 | the unsigned decrement, and the next step when it reaches zero, with the tunnels it publishes to |
| `SessionStore.SessionList.StepUpdate` | src/session.c:605-629 | a reply is stored and handled as HandleReply says, with the tunnels published to |
| `SessionStore.SessionList.AgeLevel` | src/session.c:641-653 | the loop over the times to live of a level computes AgedSession and Expires, which `Lifetimes.TickTakesSeconds` describes |
| `SessionStore.SessionList.DecrefTtl` | src/session.c:631-660 | the two loops of a tick compute HandleTick |
| `ComponentStore.ComponentList.Lookup` | src/component.c:324-335 | the first node with the name |
| `ComponentStore.ComponentList.DeleteFirstName` | src/component.c:102-125 | the first node with the name goes unless it is locked |
| `ComponentStore.ComponentList.IsUniqueTunnel` | src/component.c:181-192 | true if and only if no component has the tunnel |
| `ComponentStore.ComponentList.AppendHookByName` | src/component.c:194-238 | appends to an unlocked component's hooks, with the error codes |
| `ComponentStore.ComponentList.RemoveHookByName` | src/component.c:240-322 | takes out the first occurrence; a component with one hook or none goes, whatever hook is named |
| `ComponentStore.ComponentList.GetNamesByHook` | src/component.c:347-378 | the names of the components that hook a name, in list order |
| `ComponentStore.ComponentList.LockByName` | src/component.c:407-422 | the lock bit and the three return codes |
| `ComponentStore.AppendHookAnswer` | src/component.c:194-238 | the three codes of appending a hook, and that only the hooks of the one component change |
| `ComponentStore.RemoveHookAnswer` | src/component.c:240-322 | the codes of removing a hook, and what becomes of every component |
| `ComponentStore.AppendHookLinks` | src/component.c:194-238 | appending a hook changes the inverted index in exactly one place |
| `ComponentStore.AppendThenRemoveHook` | src/component.c:240-322 | removing an appended hook restores the list, unless it was the only hook |
| `ComponentStore.SingleHookDropsComponent` | src/component.c:267-274 | the by-name removal drops the component if and only if it has at most one hook |
| `ResourceStore.ResourceList.Lookup` | src/resource.c:512-523 | the first node with the name |
| `ResourceStore.ResourceList.AppendComponent` | src/resource.c:289-335 | appends a subscriber or creates the node, and leaves a locked node alone |
| `ResourceStore.ResourceList.RemoveComponent` | src/resource.c:337-421 | takes out the first occurrence; a node with one entry or none goes, whatever name is given |
| `ResourceStore.ResourceList.RemoveAllComponent` | src/resource.c:423-510 | the two-phase removal over the whole list, with its stop at a locked node whose count was already lowered |
| `ResourceStore.ResourceList.GetNamesByComponent` | src/resource.c:652-683 | the names of the resources that list a component, in list order |
| `ResourceStore.ResourceList.IsAnyLockedByComponent` | src/resource.c:262-287 | true if and only if some locked resource lists the component |
| `ResourceStore.ResourceList.LookupWildcard` | src/resource.c:526-577 | the nodes whose pattern accepts the topic, in list order |
| `Controller.Controller.RoutingReq` | src/sanji_controller.c:1617-1981 | state, code and tunnels published to equal those of HandleRequest and Published, which `Answers.RequestCode`, `Admitted.RequestState` and `Replies.RequestPublishes` describe, for every request that the chain loop answers |
| `Controller.Controller.BuildChain` | src/sanji_controller.c:1715-1905 | the do-while loop builds the levels, views and dependencies of the walk, or stops at a locked model; it ends |
| `Controller.WalkLevel` | src/sanji_controller.c:1744-1893 | one round of the loop: models, times to live, views, next level and dependencies, or the first locked model |
| `Controller.Controller.DependencyRead` | src/sanji_controller.c:1238-1385 | the second copy of the loop computes the answer of the walk |
| `Controller.AppendMissing` | src/sanji_controller.c:1811-1842 | the duplicate-removing loops append the missing names, each once, in order |
| `Controller.Controller.MatchResourceList` | src/sanji_controller.c:569-620 | wildcard matches, then the exact match unless it is among them |
| `Controller.Controller.GetSubscribed` | src/sanji_controller.c:622-653 | the subscribers of the matched resources, one list after the other, as `ListOrder.SubscribersInOrder` describes |
| `Controller.Controller.RoutingRes` | src/sanji_controller.c:1983-2000 | state and tunnels equal those of HandleReply and Published, which `Replies.ReplyAnswer` describes |
| `Controller.Controller.RefreshSession` | src/sanji_controller.c:2212-2229 | state equals that of HandleTick, which `Lifetimes.EndsAtTickIff` and `Replies.TickReleases` describe |
| `Controller.Controller.RegisterCreate` | src/sanji_controller.c:738-806 | lists and code equal those of Register, which `Registrations.RegisterAnswer` describes, with the first drawn tunnel that is not in use |
| `Controller.Controller.RegisterDelete` | src/sanji_controller.c:808-863 | lists and code equal those of Deregister, which `Registrations.DeregisterAnswer` describes |
| `Controller.Controller.Connected` | src/sanji_controller.c:2316-2333 | the state equals that of HandleConnect, which `Registrations.ConnectAdds` describes |
| `Controller.Controller.Handle` | src/sanji_controller.c:2192-2209 | every enabled event takes the object from its state to Next of it, with its answer and the tunnels published to, so the theorems over runs hold of the object |
| `Controller.Controller.HandleAll` | src/sanji_controller.c:2136-2210 | the loop over any enabled sequence of events takes a new controller object to Run(Empty, es), the state of the theorems over runs, with every answer and every publish on the way |
| `TopicMatch.WildcardMatches` | src/resource.c:548-571 | the greedy two-pointer loop; for names whose wildcards fill whole levels it accepts if and only if the level-wise matcher does |
| `TopicMatch.CharLoopIsLevelMatch` | src/resource.c:548-568 | equality of the character loop and the level-wise matcher on every topic, by induction on the name |
| `TopicMatch.LevelMatchAgainstMqtt` | src/resource.c:548-568 | against sections 4.7.1.2 and 4.7.1.3 of MQTT 3.1.1: the same matches less those in which a wildcard stands for nothing |
| `TopicMatch.PlusTakesLevel` | src/resource.c:554-560 | for every name, malformed ones included, a '+' takes the whole of a level that is not empty |
| `TopicMatch.PlainPrefix` | src/resource.c:561-567 | for every name, common text without wildcards decides nothing |
| `TopicMatch.PlainNameMatchesItself` | src/resource.c:548-568 | a name without wildcards accepts exactly the equal topic |
| `TopicLookup.MatchedExactly` | src/sanji_controller.c:569-620 | the combined list holds each resource at most once, and exactly those named like the cut topic or whose pattern accepts it |
| `TopicLookup.ExactLookupAddsIff` | src/sanji_controller.c:582-609 | the exact lookup adds something if and only if a resource carries the cut topic as a name that does not match itself; never for names without wildcards or with whole-level ones |
| `TopicLookup.PlusInsideALevel` | src/resource.c:554-560 | a name for which it does: '+' inside a level |
| `JsonMerge.ResultChain.Store` | src/session.c:617-621 | the stored result shares the reply's data object |
| `JsonMerge.ResultChain.Forward` | src/session.c:566-580 | in-place merge under aliasing: the reply's data, overridden by the older results in order, becomes both the forwarded data and the newest stored result |
| `JsonMerge.ResultChain.Respond` | src/session.c:427-438 | the success response is a fresh object in which the latest stored result wins, and no stored result changes |
| `JsonMerge.ResultChain.Steps` | src/session.c:532-580 | storing the replies of step after step, each with its own objects, and merging at each: stored results, forwarded data and its keys are those of the fold over all steps |
| `JsonMerge.ResultChain.Succeed` | src/session.c:398-438 | a whole session on the heap: the response is a fresh object with what went on, overridden by the last step's replies, the last one winning; its keys are those of all replies |
| `JsonMerge.OverrideFacts` | src/session.c:566-580 | the last map that holds a key gives its value, the base where none does, and the key set is the union |
| `JsonMerge.ForwardedAfter` | src/session.c:566-580 | over a whole session: what goes on after a step is its last reply overridden by what went on before and by the step's other replies |
| `JsonMerge.ResponseAfter` | src/session.c:427-438 | over a whole session: the response is what went on before, overridden by the last step's replies, the last one winning |
| `JsonMerge.NoKeyLost` | src/session.c:566-580 | the forwarded data hold exactly the keys of all replies |
| `JsonMerge.ResponseKeys` | src/session.c:427-438 | so does the response |
| `JsonMerge.FirstValueStays` | src/session.c:566-580 | with one model per step, the first value a key was given is forwarded for ever |
| `RingList.AddBetween` | src/list.h:81-89 | links a node in between two consecutive ones: insertion at that place of the ring |
| `RingList.Add` | src/list.h:99-102 | the node comes right after the head |
| `RingList.AddTail` | src/list.h:112-115 | the node comes right before the head |
| `RingList.Del` | src/list.h:137-142 | exactly the entry leaves its ring, which may hold nothing else, and its pointers are poisoned |
| `RingList.DelInit` | src/list.h:150-154 | exactly the entry leaves its ring, which may hold nothing else, and is a ring of its own |
| `RingList.Move` | src/list.h:161-165 | the entry goes to the front of its ring |
| `RingList.MoveTo` | src/list.h:161-165 | the entry leaves one ring for the front of a disjoint one |
| `RingList.MoveTail` | src/list.h:172-177 | the entry goes to the end of its ring |
| `RingList.MoveTailTo` | src/list.h:172-177 | the entry leaves one ring for the end of a disjoint one |
| `RingList.Splice` | src/list.h:188-211 | the entries of one ring, in order, come right after the head of a disjoint one; the spliced head keeps its stale pointers |
| `RingList.SpliceInit` | src/list.h:220-227 | the same, and the spliced head is an empty ring |
| `RingList.Traverse` | src/list.h:244-246 | walking along next visits the entries in ring order, each once |
| `FlatSlots.SlotList.Remove` | src/resource.c:364-413 | on the 32-character slots: the first slot with the name is taken out of the list of names; with one slot or none the node is to be dropped, whatever the name |
| `FlatSlots.SlotList.Cut` | src/resource.c:388-410 | the memcpy cases yield s[..i] + s[i+1..] for every index, all copies in bounds, and the branch index == count + 1 is unreachable |
| `FlatSlots.SlotList.Append` | src/resource.c:312-326 | the grown buffer holds the old names and the new one cut to 31 characters |
| `FlatSlots.SlotList.SameName` | src/resource.c:373-382 | strncmp over 32 characters decides equality of the decoded slot with the clipped name |
| `FlatSlots.SlotList.Find` | src/component.c:276-283 | the first slot with the name, or the count |
| `Crc16.DoCrc16` | src/lib/crc16.c:51-59 | for every initial value and message the table loop leaves the remainder of the message times x^16, with the initial value added to its leading bits, on division by x^16 + x^12 + x^5 + 1 |
| `Crc16.GetCrc16` | src/lib/crc16.c:67-71 | the same with the initial value 0xFFFF |
| `Crc16.DivisionIsFeeding` | src/lib/crc16.c:51-59 | feeding bits to a register is schoolbook long division |
| `Crc16.TableBits` | src/lib/crc16.c:9-42 | all sixteen bits of each of the 256 table entries |
| `Crc16.ByteAtOnce` | src/lib/crc16.c:54-55 | one table step is eight steps of the bitwise register |
| `Crc16.Composes` | src/lib/crc16.c:51-59 | the checksum of a concatenation is that of the second part preset with the first's |
| `Crc16.ResidueIsZero` | src/lib/crc16.c:51-59 | a message followed by the high and the low byte of its checksum leaves zero |
| `Crc16.DetectsBurst` | src/lib/crc16.c:51-59 | two messages that differ in a burst of at most 16 bits have different checksums |
| `IniTable.Ini.Set` | src/ini.c:145-184 | the table as a map is updated at the key; the count grows for a new key only, the size by 64 when it was full; the occupied slots stay the first ones and the keys distinct |
| `IniTable.Ini.Get` | src/ini.c:197-217 | the value of the key in the map, or none |
| `IniTable.Ini.Find` | src/ini.c:109-131 | the slot of the key if and only if it is there: the hash comparison hides none |
| `IniTable.Ini.Alloc` | src/ini.c:46-76 | growth by 64 keeps the contents |
| `IniTable.Load` | src/ini.c:283-338 | a new table that takes a history of settings ends as the map built by updating key after key: growth, slot search and hashing lose nothing |
| `IniTable.LoadAndGet` | src/ini.c:197-217 | after any history of settings the table reads back, for each key, the value set last, and nothing for a key never set |

## Left out

- Pointers to list nodes: the nodes of the three lists are values in a sequence field of the list object, so aliasing of node pointers is modelled only in `RingList`.
- MQTT connection, publishing, callbacks, the main loop, signals, files, clocks and random numbers: I/O. The tunnels that a step publishes to are an out-parameter; the texts of responses are not modelled.
- JSON parsing and printing, the validation of message fields and the controller's error responses: library calls and plumbing. `sanji_parse_context` yields the fields of an event.
- Event messages to views: they change no state.
- Out-of-memory branches, freeing, and truncation of over-long topics, tunnels and roles.
- A component's description and the session's copy of the topic: no decision depends on them.
- The reply data inside `Protocol`: a session there keeps the codes of its results, and `JsonMerge` treats their data.
- Deletion of resources by name and of sessions by topic: unused by the controller.
- Whole sessions with replies that carry no data object: each single merge covers them; `ResultChain.Steps`, `ResultChain.Succeed` and the lemmas over all steps of a session are for replies that all carry data, in distinct objects.
- The ini line parser, configuration loading and the display functions.
- The method-name tables, byte swapping, date and text utilities, and the hlist part of the list header: small facts only.
