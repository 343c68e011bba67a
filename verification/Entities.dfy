/**
 * The records the controller keeps in its three lists, as values, and the constants
 * that go with them. The list classes of the store modules keep sequences of them.
 */
module Entities {
  import opened Lists

  type Name = string

  // ----- constants (src/http.h, src/resource.h, src/error.h, src/session.h)

  const METHOD_READ := 0

  const RC_SUCCESS := 0
  const RC_LOCKED := 1
  const RC_NOT_FOUND := 2

  const CODE_OK := 200
  const CODE_FORBIDDEN := 403
  const CODE_NOT_FOUND := 404
  const CODE_LOCKED := 423
  const CODE_NOT_IMPLEMENTED := 501
  const CODE_SERVICE_UNAVAILABLE := 503

  const ROLE_MODEL: Name := "model"
  const ROLE_VIEW: Name := "view"

  const REGISTER_NAME: Name := "registration"
  const REGISTER_TOPIC: Name := "/controller/registration"
  const REGISTER_WILDCARD: Name := "/controller/registration/+"
  const DEPENDENCY_NAME: Name := "dependency"
  const DEPENDENCY_TOPIC: Name := "/controller/resource/dependency"
  const DEPENDENCY_WILDCARD: Name := "/controller/resource/dependency/+"
  const BUILTIN_TTL := 10

  // ----- records

  datatype Component = Component(name: Name, tunnel: Name, role: Name, hooks: seq<Name>, ttl: int, lock: bool)

  datatype Resource = Resource(name: Name, subscribers: seq<Name>, lock: bool)

  /** One step of a session: the models waited for, and their remaining time to live. */
  datatype Level = Level(models: seq<Name>, ttls: seq<int>)

  datatype Session = Session(id: nat, verb: int, tunnel: Name, dependency: seq<Name>, chain: seq<Level>,
                             views: seq<Name>, results: seq<int>, step: nat, wait: nat)

  datatype State = State(components: seq<Component>, resources: seq<Resource>, sessions: seq<Session>)

  /** Every method but READ locks what it touches, the unknown ones included. */
  predicate WriteLike(verb: int) { verb != METHOD_READ }

  // ----- C integer widths

  const TWO32 := 0x1_0000_0000
  const TWO31 := 0x8000_0000

  /** An `int` that `unsigned int` arithmetic was done on, back as an `int`. */
  function ToInt32(x: int): (r: int)
    ensures -TWO31 <= r < TWO31
    ensures -TWO31 <= x < TWO31 ==> r == x
  {
    var m := x % TWO32;
    if m < TWO31 then m else m - TWO32
  }

  /** `unsigned int` decrement. */
  function DecUint32(x: nat): (r: nat)
    ensures 0 < x ==> r == x - 1
    ensures x == 0 ==> r == TWO32 - 1
  {
    if x == 0 then TWO32 - 1 else x - 1
  }

  // ----- lookup by name: the first node that carries it

  function FindComponent(cs: seq<Component>, n: Name): (i: nat)
    ensures i <= |cs|
    ensures i < |cs| ==> cs[i].name == n
    ensures forall j :: 0 <= j < i ==> cs[j].name != n
  {
    if cs == [] then 0
    else
      var i := FindComponent(cs[..|cs| - 1], n);
      if i < |cs| - 1 then i
      else if cs[|cs| - 1].name == n then |cs| - 1 else |cs|
  }

  function FindResource(rs: seq<Resource>, n: Name): (i: nat)
    ensures i <= |rs|
    ensures i < |rs| ==> rs[i].name == n
    ensures forall j :: 0 <= j < i ==> rs[j].name != n
  {
    if rs == [] then 0
    else
      var i := FindResource(rs[..|rs| - 1], n);
      if i < |rs| - 1 then i
      else if rs[|rs| - 1].name == n then |rs| - 1 else |rs|
  }

  function FindSession(ss: seq<Session>, id: nat): (i: nat)
    ensures i <= |ss|
    ensures i < |ss| ==> ss[i].id == id
    ensures forall j :: 0 <= j < i ==> ss[j].id != id
  {
    if ss == [] then 0
    else
      var i := FindSession(ss[..|ss| - 1], id);
      if i < |ss| - 1 then i
      else if ss[|ss| - 1].id == id then |ss| - 1 else |ss|
  }

  predicate HasComponent(cs: seq<Component>, n: Name) { FindComponent(cs, n) < |cs| }

  predicate HasResource(rs: seq<Resource>, n: Name) { FindResource(rs, n) < |rs| }

  predicate HasRole(cs: seq<Component>, n: Name, role: Name) {
    HasComponent(cs, n) && cs[FindComponent(cs, n)].role == role
  }

  predicate IsModel(cs: seq<Component>, n: Name) { HasRole(cs, n, ROLE_MODEL) }

  predicate ComponentLocked(cs: seq<Component>, n: Name) {
    HasComponent(cs, n) && cs[FindComponent(cs, n)].lock
  }

  predicate ResourceLocked(rs: seq<Resource>, n: Name) {
    HasResource(rs, n) && rs[FindResource(rs, n)].lock
  }

  ghost predicate UniqueComponents(cs: seq<Component>) {
    forall i, j :: 0 <= i < j < |cs| ==> cs[i].name != cs[j].name
  }

  ghost predicate UniqueResources(rs: seq<Resource>) {
    forall i, j :: 0 <= i < j < |rs| ==> rs[i].name != rs[j].name
  }

  // ----- a session's names

  function LevelModels(chain: seq<Level>): seq<seq<Name>> {
    seq(|chain|, i requires 0 <= i < |chain| => chain[i].models)
  }

  /** All models of all steps, in step order. */
  function ChainModels(chain: seq<Level>): seq<Name> { Concat(LevelModels(chain)) }

  function LevelCounts(chain: seq<Level>): seq<nat> {
    seq(|chain|, i requires 0 <= i < |chain| => |chain[i].models|)
  }

  /** The number of replies a successful session collects. */
  function TotalModels(chain: seq<Level>): nat { Sum(LevelCounts(chain)) }

  ghost predicate NoEmptyLevel(chain: seq<Level>) {
    forall k :: 0 <= k < |chain| ==> chain[k].models != []
  }
}
