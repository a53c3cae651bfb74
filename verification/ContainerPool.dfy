// A provider family of the container pool
// (service/base/services/provider_container_pool.go): its replicas, their
// registry entries, leasing, adopting and scaling down.  Docker is an oracle.
module Containers {
  import opened Ordering
  import opened ReplicaNames
  import opened ServiceRegistry

  datatype Settings = Settings(
    prefix: string, hostPrefix: string, port: nat, language: string,
    warm: nat, max: nat, idleScaleDown: int)
  {
    // What loading the configuration guarantees.
    predicate Valid() { warm <= max && 1 <= max <= MAX_INT }
  }

  // lastIdleAt == 0 is the zero time.
  datatype Child = Child(
    endpoint: string, managed: bool, busy: bool, healthy: bool, stopping: bool, lastIdleAt: nat)

  datatype FamilyState = FamilyState(
    children: map<string, Child>, next: nat, operations: seq<string>, stopped: bool, services: map<string, Service>)

  predicate InFamily(prefix: string, name: string) {
    name == prefix || prefix + "-" <= name
  }

  function Endpoint(st: Settings, index: int): string {
    "http://" + Format(st.hostPrefix, index) + (":" + Digits(st.port))
  }

  // How a family names its replicas, and where a name is served.
  datatype Naming = Naming(name: nat -> string, endpoint: string -> string, family: string -> bool)

  function NamingOf(st: Settings): Naming {
    Naming(i => Format(st.prefix, i), n => Endpoint(st, ParseIndex(n)), n => InFamily(st.prefix, n))
  }

  function AddressesOf(st: Settings): nat -> (string, string) {
    i => (Format(st.prefix, i), Endpoint(st, ParseIndex(Format(st.prefix, i))))
  }

  // Different indexes have different names, all in the family.
  ghost predicate Distinguishes(nm: Naming) {
    && (forall i, j :: 1 <= i < j ==> nm.name(i) != nm.name(j))
    && (forall i: nat :: nm.family(nm.name(i)))
  }

  lemma NamingDistinguishes(st: Settings)
    ensures Distinguishes(NamingOf(st))
  {
    forall i, j | 1 <= i < j ensures Format(st.prefix, i) != Format(st.prefix, j) {
      FormatIsInjective(st.prefix, i, st.prefix, j);
    }
    forall i: nat ensures InFamily(st.prefix, Format(st.prefix, i)) {
      assert Format(st.prefix, i) == (st.prefix + "-") + Padded(AtLeastOne(i));
    }
  }

  // ----- the invariant

  // The family's names in the registry are the children, at their endpoints.
  ghost predicate Agrees(v: FamilyState, nm: Naming) {
    && WellNamed(v.services)
    && (forall n :: n in v.children ==> nm.family(n) && n in v.services
                                        && v.services[n].endpoint == v.children[n].endpoint)
    && (forall n :: n in v.services && nm.family(n) ==> n in v.children)
  }

  // A name the family has handed out.
  ghost predicate Issued(nm: Naming, next: nat, name: string) {
    exists i :: 1 <= i < next && name == nm.name(i)
  }

  ghost predicate Sound(child: Child) {
    child.healthy && (child.busy <==> child.lastIdleAt == 0)
  }

  ghost predicate Consistent(v: FamilyState, nm: Naming) {
    && Agrees(v, nm) && v.next >= 1
    && (forall n :: n in v.children ==>
          Issued(nm, v.next, n) && v.children[n].endpoint == nm.endpoint(n) && Sound(v.children[n]))
    && (v.stopped ==> forall n :: n in v.children ==> v.children[n].stopping)
  }

  lemma MiddleIsInjective(head: string, x: string, y: string, tail: string)
    requires head + x + tail == head + y + tail
    ensures x == y
  {
    assert (head + x + tail)[|head|..|head| + |x|] == x && (head + y + tail)[|head|..|head| + |y|] == y;
  }

  lemma EndpointIsInjective(st: Settings, i: nat, j: nat)
    requires 1 <= i && 1 <= j && Endpoint(st, i) == Endpoint(st, j)
    ensures i == j
  {
    MiddleIsInjective("http://", Format(st.hostPrefix, i), Format(st.hostPrefix, j), ":" + Digits(st.port));
    FormatIsInjective(st.hostPrefix, i, st.hostPrefix, j);
  }

  // Where a replica is served: its padded index behind the host prefix, and the port.
  lemma EndpointIsPrinted(st: Settings, index: nat) returns (digits: string, port: string)
    ensures Endpoint(st, index) == "http://" + st.hostPrefix + "-" + digits + ":" + port
    ensures Value(digits) == (if index == 0 then 1 else index) && |digits| >= 3 && Value(port) == st.port
  {
    digits := FormatIsPadded(st.hostPrefix, index);
    port := Digits(st.port);
    DigitsValue(st.port);
    assert "http://" + (st.hostPrefix + "-" + digits) + (":" + port) == "http://" + st.hostPrefix + "-" + digits + ":" + port;
  }

  // Children never share an endpoint (while indexes fit the source's int).
  lemma EndpointsAreDistinct(v: FamilyState, st: Settings, a: string, b: string)
    ensures Consistent(v, NamingOf(st)) && v.next <= MAX_INT + 1 && a in v.children && b in v.children && a != b ==>
              v.children[a].endpoint != v.children[b].endpoint
  {
    if Consistent(v, NamingOf(st)) && v.next <= MAX_INT + 1 && a in v.children && b in v.children {
      var i := IndexOf(st, v.next, a);
      var j := IndexOf(st, v.next, b);
      if v.children[a].endpoint == v.children[b].endpoint { EndpointIsInjective(st, i, j); }
    }
  }

  lemma IndexOf(st: Settings, next: nat, name: string) returns (i: nat)
    requires Issued(NamingOf(st), next, name) && next <= MAX_INT + 1
    ensures 1 <= i < next && name == Format(st.prefix, i) && NamingOf(st).endpoint(name) == Endpoint(st, i)
  {
    i :| 1 <= i < next && name == NamingOf(st).name(i);
    ParseOfFormat(st.prefix, i);
  }

  // ----- the steps, each of which holds the lock throughout

  function ActiveNames(children: map<string, Child>): set<string> {
    set n | n in children && !children[n].stopping
  }

  function Active(children: map<string, Child>): nat { |ActiveNames(children)| }

  function Prune(v: FamilyState, exited: set<string>): FamilyState {
    v.(children := v.children - exited, services := v.services - (exited * v.children.Keys))
  }

  predicate Idle(child: Child) { !child.busy && !child.stopping && child.healthy }

  // An idle child that no idle child has been idle longer than.
  ghost predicate FirstIdle(children: map<string, Child>, name: string) {
    && name in children && Idle(children[name])
    && forall n :: n in children && Idle(children[n]) ==> children[name].lastIdleAt <= children[n].lastIdleAt
  }

  ghost predicate NoIdle(children: map<string, Child>) {
    forall n :: n in children ==> !Idle(children[n])
  }

  function MarkBusy(v: FamilyState, name: string): FamilyState {
    if name !in v.children then v
    else v.(children := v.children[name := v.children[name].(busy := true, lastIdleAt := 0)])
  }

  function Release(v: FamilyState, name: string, now: nat): FamilyState {
    if name !in v.children then v
    else v.(children := v.children[name := v.children[name].(busy := false, lastIdleAt := now)])
  }

  function Learn(operations: seq<string>, learnt: seq<string>): seq<string> {
    if learnt == [] then operations else learnt
  }

  function Enter(v: FamilyState, nm: Naming, language: string, name: string, managed: bool, now: nat): FamilyState {
    v.(children := v.children[name := Child(nm.endpoint(name), managed, false, true, false, now)],
       services := v.services[name := NewService(name, language, nm.endpoint(name), true, v.operations)])
  }

  // A spawned (or, on a name conflict, adopted) container becomes a child unless
  // the pool was stopped meanwhile.
  function Register(v: FamilyState, nm: Naming, language: string, name: string, learnt: seq<string>, now: nat): FamilyState {
    var w := v.(operations := Learn(v.operations, learnt));
    if v.stopped then w else Enter(w, nm, language, name, true, now)
  }

  function StopAll(v: FamilyState): FamilyState {
    v.(stopped := true, children := map n | n in v.children :: v.children[n].(stopping := true))
  }

  // ----- every step keeps the invariant

  // Taking children away together with their registry entries, or changing
  // nothing but their lease, keeps the invariant.
  lemma FewerKeepsValid(v: FamilyState, w: FamilyState, nm: Naming)
    requires Consistent(v, nm) && w.next == v.next && WellNamed(w.services) && (w.stopped ==> v.stopped)
    requires forall n :: n in w.children ==>
               n in v.children && w.children[n].endpoint == v.children[n].endpoint && Sound(w.children[n])
               && (v.children[n].stopping ==> w.children[n].stopping)
    requires forall n :: n in w.services ==> n in v.services && w.services[n].endpoint == v.services[n].endpoint
    requires forall n :: n in v.children ==> (n in w.children <==> n in w.services)
    ensures Consistent(w, nm) && Active(w.children) <= Active(v.children)
  {
    SubsetIsSmaller(ActiveNames(w.children), ActiveNames(v.children));
  }

  lemma PruneKeepsValid(v: FamilyState, nm: Naming, exited: set<string>)
    requires Consistent(v, nm)
    ensures Consistent(Prune(v, exited), nm) && Active(Prune(v, exited).children) <= Active(v.children)
  {
    FewerKeepsValid(v, Prune(v, exited), nm);
  }

  lemma MarkBusyKeepsValid(v: FamilyState, nm: Naming, name: string)
    requires Consistent(v, nm)
    ensures Consistent(MarkBusy(v, name), nm) && Active(MarkBusy(v, name).children) == Active(v.children)
  {
    FewerKeepsValid(v, MarkBusy(v, name), nm);
    assert ActiveNames(MarkBusy(v, name).children) == ActiveNames(v.children);
  }

  lemma ReleaseKeepsValid(v: FamilyState, nm: Naming, name: string, now: nat)
    requires Consistent(v, nm) && now > 0
    ensures Consistent(Release(v, name, now), nm) && Active(Release(v, name, now).children) == Active(v.children)
  {
    FewerKeepsValid(v, Release(v, name, now), nm);
    assert ActiveNames(Release(v, name, now).children) == ActiveNames(v.children);
  }

  // Registering an issued name that no child has adds exactly one child, or none
  // once the pool is stopped.
  lemma EnterKeepsValid(v: FamilyState, nm: Naming, language: string, name: string, managed: bool, now: nat)
    requires Consistent(v, nm) && Distinguishes(nm) && now > 0 && !v.stopped && Issued(nm, v.next, name)
    requires name !in v.children
    ensures var w := Enter(v, nm, language, name, managed, now);
            Consistent(w, nm) && Active(w.children) == Active(v.children) + 1
  {
    var w := Enter(v, nm, language, name, managed, now);
    EnterAddsOne(v, nm, language, name, managed, now);
    EnterKeepsAgreement(v, nm, language, name, managed, now);
    forall n | n in w.children ensures Issued(nm, w.next, n) && w.children[n].endpoint == nm.endpoint(n) && Sound(w.children[n]) {
      assert n == name || n in v.children;
    }
  }

  lemma EnterAddsOne(v: FamilyState, nm: Naming, language: string, name: string, managed: bool, now: nat)
    requires name !in v.children
    ensures Active(Enter(v, nm, language, name, managed, now).children) == Active(v.children) + 1
  {
    assert ActiveNames(Enter(v, nm, language, name, managed, now).children) == ActiveNames(v.children) + {name};
  }

  lemma EnterKeepsAgreement(v: FamilyState, nm: Naming, language: string, name: string, managed: bool, now: nat)
    requires Agrees(v, nm) && Distinguishes(nm) && Issued(nm, v.next, name)
    ensures Agrees(Enter(v, nm, language, name, managed, now), nm)
  {
    var i :| 1 <= i < v.next && name == nm.name(i);
    assert nm.family(name);
  }

  lemma RegisterKeepsValid(v: FamilyState, nm: Naming, language: string, name: string, learnt: seq<string>, now: nat)
    requires Consistent(v, nm) && Distinguishes(nm) && now > 0 && Issued(nm, v.next, name) && name !in v.children
    ensures var w := Register(v, nm, language, name, learnt, now);
            Consistent(w, nm) && Active(w.children) == Active(v.children) + if v.stopped then 0 else 1
  {
    var w := v.(operations := Learn(v.operations, learnt));
    assert Consistent(w, nm);
    if !v.stopped { EnterKeepsValid(w, nm, language, name, true, now); }
  }

  lemma StopAllKeepsValid(v: FamilyState, nm: Naming)
    requires Consistent(v, nm)
    ensures Consistent(StopAll(v), nm) && Active(StopAll(v).children) == 0
  {
    FewerKeepsValid(v.(stopped := false), StopAll(v).(stopped := false), nm);
    assert ActiveNames(StopAll(v).children) == {};
  }

  // Refreshing health or capabilities and enabling or disabling never break the
  // agreement: they change no name and no endpoint.
  lemma RefreshKeepsValid(v: FamilyState, nm: Naming, services: map<string, Service>)
    requires Consistent(v, nm) && WellNamed(services) && SameAddresses(services, v.services)
    ensures Consistent(v.(services := services), nm)
  {
    assert forall n :: n in services <==> n in v.services.Keys;
    FewerKeepsValid(v, v.(services := services), nm);
  }

  // ----- reserving a name

  // The search for the next unused name ends at its first candidate, which is
  // new: no child has it and it was never issued before.
  lemma ReserveKeepsValid(v: FamilyState, nm: Naming)
    requires Consistent(v, nm) && Distinguishes(nm)
    ensures nm.name(v.next) !in v.children && !Issued(nm, v.next, nm.name(v.next))
    ensures Consistent(v.(next := v.next + 1), nm) && Issued(nm, v.next + 1, nm.name(v.next))
    ensures forall n :: Issued(nm, v.next, n) ==> Issued(nm, v.next + 1, n)
  {
    assert nm.name(v.next) == nm.name(v.next);
  }

  lemma SearchEndsAtOnce(v: FamilyState, st: Settings)
    requires Consistent(v, NamingOf(st))
    ensures FreeIndex(v.children.Keys, st.prefix, v.next) == v.next
  {
    NamingDistinguishes(st);
    ReserveKeepsValid(v, NamingOf(st));
    assert Format(st.prefix, v.next) == NamingOf(st).name(v.next);
  }

  // ----- scaling down

  predicate Expired(st: Settings, child: Child, now: nat) {
    !child.busy && !child.stopping && child.lastIdleAt != 0 && now - child.lastIdleAt >= st.idleScaleDown
  }

  // Names of children idle for too long, managed or not.
  function IsExpired(children: map<string, Child>, st: Settings, now: nat): string -> bool {
    n => n in children && Expired(st, children[n], now)
  }

  function IsManaged(children: map<string, Child>): string -> bool {
    n => n in children && children[n].managed
  }

  function Age(children: map<string, Child>, n: string): nat {
    if n in children then children[n].lastIdleAt else 0
  }

  // Managed children first, then those idle longest.
  function StopsFirst(children: map<string, Child>): (string, string) -> bool {
    (a, b) =>
      var m, n := IsManaged(children)(a), IsManaged(children)(b);
      if m != n then m else Age(children, a) <= Age(children, b)
  }

  lemma StopsFirstIsTotal(children: map<string, Child>)
    ensures TotalPreorder(StopsFirst(children))
  {
  }

  // The first `budget` managed ones.
  function TakeManaged(children: map<string, Child>, names: seq<string>, budget: nat): seq<string> {
    if names == [] then []
    else
      var before, last := TakeManaged(children, names[..|names| - 1], budget), names[|names| - 1];
      if |before| < budget && IsManaged(children)(last) then before + [last] else before
  }

  lemma {:induction false} TakeManagedIsPrefix(children: map<string, Child>, names: seq<string>, budget: nat)
    ensures TakeManaged(children, names, budget)
            == Filter(names, IsManaged(children))[..Min(budget, Count(names, IsManaged(children)))]
  {
    if names != [] { TakeManagedIsPrefix(children, names[..|names| - 1], budget); }
  }

  lemma {:induction false} TakenAreNamed(children: map<string, Child>, names: seq<string>, budget: nat, n: string)
    requires n in TakeManaged(children, names, budget)
    ensures n in names
  {
    var before := names[..|names| - 1];
    if n in TakeManaged(children, before, budget) { TakenAreNamed(children, before, budget, n); }
  }

  function Budget(v: FamilyState, st: Settings): nat {
    if st.idleScaleDown <= 0 || Active(v.children) <= st.warm then 0 else Active(v.children) - st.warm
  }

  // What scaling down stops when the children are visited in the given order.
  function Victims(v: FamilyState, st: Settings, order: seq<string>, now: nat): seq<string> {
    TakeManaged(v.children, Sort(Filter(order, IsExpired(v.children, st, now)), StopsFirst(v.children)), Budget(v, st))
  }

  function Without(v: FamilyState, names: seq<string>): FamilyState {
    v.(children := v.children - (set n | n in names), services := v.services - (set n | n in names))
  }

  // `order` visits every child once.
  ghost predicate Visits(order: seq<string>, children: map<string, Child>) {
    NoDuplicates(order) && forall n :: n in order <==> n in children
  }

  ghost predicate Stoppable(v: FamilyState, st: Settings, now: nat, n: string) {
    n in v.children && Expired(st, v.children[n], now) && v.children[n].managed
  }

  ghost function StoppableNames(v: FamilyState, st: Settings, now: nat): set<string> {
    set n | n in v.children && Stoppable(v, st, now, n)
  }

  lemma {:induction false} FilterIsOrdered(names: seq<string>, keep: string -> bool, le: (string, string) -> bool)
    requires InOrder(names, le) && NoDuplicates(names)
    ensures InOrder(Filter(names, keep), le) && NoDuplicates(Filter(names, keep))
  {
    if names != [] {
      var before, last := names[..|names| - 1], names[|names| - 1];
      FilterIsOrdered(before, keep, le);
      forall n | n in Filter(before, keep) ensures n != last && le(n, last) { assert n in before; }
    }
  }

  lemma FilterHasNoDuplicates(names: seq<string>, keep: string -> bool)
    requires NoDuplicates(names)
    ensures NoDuplicates(Filter(names, keep))
  {
    FilterIsOrdered(names, keep, (a, b) => true);
  }

  // The children that may be stopped, in the order in which they are.
  function StopOrder(v: FamilyState, st: Settings, order: seq<string>, now: nat): seq<string> {
    Filter(Sort(Filter(order, IsExpired(v.children, st, now)), StopsFirst(v.children)), IsManaged(v.children))
  }

  lemma StopOrderMembers(v: FamilyState, st: Settings, order: seq<string>, now: nat)
    requires Visits(order, v.children)
    ensures NoDuplicates(StopOrder(v, st, order, now))
    ensures forall n :: n in StopOrder(v, st, order, now) <==> Stoppable(v, st, now, n)
  {
    var expired := Filter(order, IsExpired(v.children, st, now));
    var sorted := Sort(expired, StopsFirst(v.children));
    FilterHasNoDuplicates(order, IsExpired(v.children, st, now));
    PermutationHasNoDuplicates(expired, sorted);
    FilterHasNoDuplicates(sorted, IsManaged(v.children));
    forall n ensures n in StopOrder(v, st, order, now) <==> Stoppable(v, st, now, n) {
      assert n in sorted <==> n in multiset(sorted);
      assert n in expired <==> n in multiset(expired);
    }
  }

  lemma StopOrderIsOldestFirst(v: FamilyState, st: Settings, order: seq<string>, now: nat)
    requires Visits(order, v.children)
    ensures InOrder(StopOrder(v, st, order, now), StopsFirst(v.children))
  {
    var expired := Filter(order, IsExpired(v.children, st, now));
    var sorted := Sort(expired, StopsFirst(v.children));
    FilterHasNoDuplicates(order, IsExpired(v.children, st, now));
    PermutationHasNoDuplicates(expired, sorted);
    StopsFirstIsTotal(v.children);
    SortOrders(expired, StopsFirst(v.children));
    FilterIsOrdered(sorted, IsManaged(v.children), StopsFirst(v.children));
  }

  lemma VictimsAreFirst(v: FamilyState, st: Settings, order: seq<string>, now: nat)
    requires Visits(order, v.children)
    ensures var k := Min(|StoppableNames(v, st, now)|, Budget(v, st));
            0 <= k <= |StopOrder(v, st, order, now)| && Victims(v, st, order, now) == StopOrder(v, st, order, now)[..k]
  {
    var all := StopOrder(v, st, order, now);
    StopOrderMembers(v, st, order, now);
    TakeManagedIsPrefix(v.children, Sort(Filter(order, IsExpired(v.children, st, now)), StopsFirst(v.children)), Budget(v, st));
    NoDuplicatesCardinality(all);
    assert (set n | n in all) == StoppableNames(v, st, now);
  }

  // Scaling down stops exactly min(idle for too long and managed, active - warm)
  // children: managed ones that are not busy, the longest idle first, whatever
  // the order in which the children are visited.
  lemma ScaleDownIsExact(v: FamilyState, st: Settings, order: seq<string>, now: nat)
    requires Visits(order, v.children)
    ensures var victims := Victims(v, st, order, now);
            && NoDuplicates(victims)
            && |victims| == Min(|StoppableNames(v, st, now)|, Budget(v, st))
            && (forall n :: n in victims ==> Stoppable(v, st, now, n) && !v.children[n].busy)
            && (forall n, m :: n in victims && Stoppable(v, st, now, m) && m !in victims ==>
                  v.children[n].lastIdleAt <= v.children[m].lastIdleAt)
  {
    var all, victims := StopOrder(v, st, order, now), Victims(v, st, order, now);
    VictimsAreFirst(v, st, order, now);
    StopOrderMembers(v, st, order, now);
    forall n | n in victims ensures n in all {}
    forall n, m | n in victims && Stoppable(v, st, now, m) && m !in victims
      ensures v.children[n].lastIdleAt <= v.children[m].lastIdleAt
    {
      OldestFirst(v, st, order, now, n, m);
    }
  }

  lemma OldestFirst(v: FamilyState, st: Settings, order: seq<string>, now: nat, n: string, m: string)
    requires Visits(order, v.children) && Stoppable(v, st, now, n) && Stoppable(v, st, now, m)
    requires n in Victims(v, st, order, now) && m !in Victims(v, st, order, now)
    ensures v.children[n].lastIdleAt <= v.children[m].lastIdleAt
  {
    var all, victims := StopOrder(v, st, order, now), Victims(v, st, order, now);
    VictimsAreFirst(v, st, order, now);
    StopOrderMembers(v, st, order, now);
    StopOrderIsOldestFirst(v, st, order, now);
    var i :| 0 <= i < |victims| && victims[i] == n;
    var j :| 0 <= j < |all| && all[j] == m;
    assert forall k :: 0 <= k < |victims| ==> all[k] == victims[k] && victims[k] in victims;
    assert StopsFirst(v.children)(all[i], all[j]);
  }

  lemma {:induction false} NoDuplicatesCardinality(names: seq<string>)
    requires NoDuplicates(names)
    ensures |set n | n in names| == |names|
  {
    if names == [] {
      assert (set n | n in names) == {};
    } else {
      var before, last := names[..|names| - 1], names[|names| - 1];
      NoDuplicatesCardinality(before);
      assert last !in before && names == before + [last];
      assert (set n | n in names) == (set n | n in before) + {last};
    }
  }

  // Scaling down keeps the invariant and never leaves fewer than the warm replicas.
  lemma ScaleDownKeepsValid(v: FamilyState, nm: Naming, st: Settings, order: seq<string>, now: nat)
    requires Consistent(v, nm) && Visits(order, v.children)
    ensures var victims := Victims(v, st, order, now);
            var w := Without(v, victims);
            && Consistent(w, nm) && Active(w.children) == Active(v.children) - |victims|
            && (victims != [] ==> Active(w.children) >= st.warm)
  {
    var victims := Victims(v, st, order, now);
    ScaleDownIsExact(v, st, order, now);
    var gone := set n | n in victims;
    NoDuplicatesCardinality(victims);
    FewerKeepsValid(v, Without(v, victims), nm);
    WithoutCounts(v, gone);
  }

  lemma WithoutCounts(v: FamilyState, gone: set<string>)
    requires gone <= ActiveNames(v.children)
    ensures Active(v.children - gone) == Active(v.children) - |gone|
  {
    assert ActiveNames(v.children - gone) == ActiveNames(v.children) - gone;
  }

  // ----- adopting containers left from an earlier run

  // What inspecting the container of one index shows.
  datatype Inspection =
    | Missing
    | Unreachable
    | NotRunning
    | Outdated
    | Running(managed: bool, responds: bool, learnt: seq<string>)

  // The counter moves past a running container before it is known to respond.
  function AdoptOne(v: FamilyState, nm: Naming, language: string, index: nat, found: Inspection, now: nat): FamilyState {
    if !found.Running? then v
    else
      var w := v.(next := if index >= v.next then index + 1 else v.next);
      if !found.responds then w
      else Enter(w.(operations := Learn(w.operations, found.learnt)), nm, language, nm.name(index), found.managed, now)
  }

  function AdoptThrough(v: FamilyState, nm: Naming, language: string, count: nat, inspect: nat -> Inspection, now: nat)
    : FamilyState
  {
    if count == 0 then v
    else AdoptOne(AdoptThrough(v, nm, language, count - 1, inspect, now), nm, language, count, inspect(count), now)
  }

  lemma AdoptOneKeepsValid(v: FamilyState, nm: Naming, language: string, index: nat, found: Inspection, now: nat)
    requires Consistent(v, nm) && Distinguishes(nm) && now > 0 && !v.stopped && index >= 1 && nm.name(index) !in v.children
    ensures var w := AdoptOne(v, nm, language, index, found, now);
            && Consistent(w, nm) && w.next <= Max(v.next, index + 1) && !w.stopped
            && (forall n :: n in w.children <==>
                  n in v.children || (found.Running? && found.responds && n == nm.name(index)))
            && Active(w.children) == Active(v.children) + if found.Running? && found.responds then 1 else 0
    ensures var w := AdoptOne(v, nm, language, index, found, now);
            && (forall n :: n in v.children ==> n in w.children && w.children[n] == v.children[n])
            && (found.Running? && found.responds ==>
                  w.children[nm.name(index)] == AsFound(nm, nm.name(index), found.managed, now))
            && w.next >= v.next && (found.Running? ==> Issued(nm, w.next, nm.name(index)))
  {
    if found.Running? {
      var w := v.(next := if index >= v.next then index + 1 else v.next);
      RaisingKeepsValid(v, nm, w.next, Learn(v.operations, found.learnt));
      assert Issued(nm, w.next, nm.name(index));
      if found.responds {
        EnterKeepsValid(w.(operations := Learn(v.operations, found.learnt)), nm, language, nm.name(index), found.managed, now);
      }
    }
  }

  // Issued names stay issued as the counter rises.
  lemma RaisingKeepsValid(v: FamilyState, nm: Naming, next: nat, operations: seq<string>)
    requires Consistent(v, nm) && next >= v.next
    ensures Consistent(v.(next := next), nm) && Consistent(v.(next := next, operations := operations), nm)
  {
    assert forall n :: Issued(nm, v.next, n) ==> Issued(nm, next, n);
  }

  // A replica as it is found or started: idle from then on.
  function AsFound(nm: Naming, name: string, managed: bool, now: nat): Child {
    Child(nm.endpoint(name), managed, false, true, false, now)
  }

  // The child is that of one of the first `count` containers, managed iff inspecting the
  // container said so.
  ghost predicate AdoptedFrom(nm: Naming, inspect: nat -> Inspection, count: nat, now: nat, name: string, child: Child) {
    exists i :: 1 <= i <= count && name == nm.name(i) && inspect(i).Running? && inspect(i).responds
                && child == AsFound(nm, name, inspect(i).managed, now)
  }

  // What adopting leaves: the running containers that respond, as they were found, and
  // the names of all running ones given out.
  ghost predicate Adopted(v: FamilyState, nm: Naming, inspect: nat -> Inspection, count: nat, now: nat) {
    && (forall n :: n in v.children <==> Responds(nm, inspect, count, n))
    && (forall n :: n in v.children ==> AdoptedFrom(nm, inspect, count, now, n, v.children[n]))
    && (forall i :: 1 <= i <= count && inspect(i).Running? ==> Issued(nm, v.next, nm.name(i)))
  }

  // The name is that of one of the first `count` containers, which runs and responds.
  ghost predicate Responds(nm: Naming, inspect: nat -> Inspection, count: nat, name: string) {
    exists i :: 1 <= i <= count && name == nm.name(i) && inspect(i).Running? && inspect(i).responds
  }

  lemma RespondsToOneMore(nm: Naming, inspect: nat -> Inspection, count: nat, name: string)
    requires count >= 1
    ensures Responds(nm, inspect, count, name) <==>
            Responds(nm, inspect, count - 1, name)
            || (inspect(count).Running? && inspect(count).responds && name == nm.name(count))
  {
  }

  // From an empty family, adopting registers exactly the running containers that
  // respond, never more than were looked at, and their names stay reserved.
  lemma {:induction false} AdoptingIsExact(v: FamilyState, nm: Naming, language: string, count: nat,
                                           inspect: nat -> Inspection, now: nat)
    requires Consistent(v, nm) && Distinguishes(nm) && now > 0 && !v.stopped && v.children == map[]
    ensures var w := AdoptThrough(v, nm, language, count, inspect, now);
            && Consistent(w, nm) && w.next <= Max(v.next, count + 1) && !w.stopped
            && (forall n :: n in w.children <==> Responds(nm, inspect, count, n))
            && Active(w.children) <= count
    ensures Adopted(AdoptThrough(v, nm, language, count, inspect, now), nm, inspect, count, now)
  {
    if count == 0 {
      assert ActiveNames(v.children) == {};
    } else {
      AdoptingIsExact(v, nm, language, count - 1, inspect, now);
      var before := AdoptThrough(v, nm, language, count - 1, inspect, now);
      assert !Responds(nm, inspect, count - 1, nm.name(count));
      AdoptOneKeepsValid(before, nm, language, count, inspect(count), now);
      forall n { RespondsToOneMore(nm, inspect, count, n); }
      AdoptedOneMore(before, AdoptThrough(v, nm, language, count, inspect, now), nm, inspect, count, now);
    }
  }

  lemma AdoptedOneMore(v: FamilyState, w: FamilyState, nm: Naming, inspect: nat -> Inspection, count: nat, now: nat)
    requires count >= 1 && Adopted(v, nm, inspect, count - 1, now) && w.next >= v.next
    requires forall n :: n in w.children <==> Responds(nm, inspect, count, n)
    requires forall n :: n in w.children && n !in v.children ==>
               n == nm.name(count) && inspect(count).Running? && inspect(count).responds
    requires forall n :: n in v.children ==> n in w.children && w.children[n] == v.children[n]
    requires inspect(count).Running? && inspect(count).responds ==>
               nm.name(count) in w.children
               && w.children[nm.name(count)] == AsFound(nm, nm.name(count), inspect(count).managed, now)
    requires inspect(count).Running? ==> Issued(nm, w.next, nm.name(count))
    ensures Adopted(w, nm, inspect, count, now)
  {
    forall n | n in w.children ensures AdoptedFrom(nm, inspect, count, now, n, w.children[n]) {
      if n in v.children { assert AdoptedFrom(nm, inspect, count - 1, now, n, v.children[n]); }
    }
    forall i | 1 <= i <= count && inspect(i).Running? ensures Issued(nm, w.next, nm.name(i)) {
      if i < count { assert Issued(nm, v.next, nm.name(i)); }
    }
  }

  // ----- the pool object

  datatype Acquired = Stopped | Leased(name: string) | Grow | Full

  // The outcome of a spawn after its name was reserved.
  datatype Launch = LaunchFailed | Launched(learnt: seq<string>)

  // An uninterrupted spawn: the next name is used up, and unless the launch fails or
  // the pool is stopped the child is registered under it.
  function AfterSpawn(v: FamilyState, nm: Naming, language: string, launch: Launch, now: nat): FamilyState {
    var reserved := v.(next := v.next + 1);
    if launch.LaunchFailed? then reserved else Register(reserved, nm, language, nm.name(v.next), launch.learnt, now)
  }

  // The same with the new child leased to the caller.
  function AfterGrowth(v: FamilyState, nm: Naming, language: string, launch: Launch, now: nat): FamilyState {
    var spawned := AfterSpawn(v, nm, language, launch, now);
    if launch.LaunchFailed? then spawned else MarkBusy(spawned, nm.name(v.next))
  }

  // The first `count` launches, one after the other.
  function AfterSpawns(v: FamilyState, nm: Naming, language: string, launches: nat -> Launch, count: nat, now: nat)
    : FamilyState
  {
    if count == 0 then v
    else AfterSpawn(AfterSpawns(v, nm, language, launches, count - 1, now), nm, language, launches(count - 1), now)
  }

  // Spawning leaves every child as it is and adds managed ones, idle from then on.
  ghost predicate SpawnedOnto(v: FamilyState, w: FamilyState, nm: Naming, now: nat) {
    && (forall n :: n in v.children ==> n in w.children && w.children[n] == v.children[n])
    && (forall n :: n in w.children && n !in v.children ==> w.children[n] == AsFound(nm, n, true, now))
  }

  lemma RegisterAdds(v: FamilyState, w: FamilyState, nm: Naming, language: string, name: string, learnt: seq<string>, now: nat)
    requires name !in v.children && w == Register(v.(next := v.next + 1), nm, language, name, learnt, now)
    ensures w.stopped == v.stopped && SpawnedOnto(v, w, nm, now)
  {
  }

  lemma AfterSpawnAdds(v: FamilyState, nm: Naming, language: string, launch: Launch, now: nat)
    requires Consistent(v, nm) && Distinguishes(nm) && now > 0
    ensures var w := AfterSpawn(v, nm, language, launch, now);
            Consistent(w, nm) && w.stopped == v.stopped && SpawnedOnto(v, w, nm, now)
  {
    ReserveKeepsValid(v, nm);
    if launch.Launched? {
      RegisterKeepsValid(v.(next := v.next + 1), nm, language, nm.name(v.next), launch.learnt, now);
      RegisterAdds(v, AfterSpawn(v, nm, language, launch, now), nm, language, nm.name(v.next), launch.learnt, now);
    }
  }

  lemma {:induction false} AfterSpawnsAdd(v: FamilyState, nm: Naming, language: string, launches: nat -> Launch, count: nat,
                                          now: nat)
    requires Consistent(v, nm) && Distinguishes(nm) && now > 0
    ensures var w := AfterSpawns(v, nm, language, launches, count, now);
            Consistent(w, nm) && SpawnedOnto(v, w, nm, now)
  {
    if count > 0 {
      AfterSpawnsAdd(v, nm, language, launches, count - 1, now);
      AfterSpawnAdds(AfterSpawns(v, nm, language, launches, count - 1, now), nm, language, launches(count - 1), now);
    }
  }

  // What a start leaves: the adopted children as they were found, and started ones.
  ghost predicate StartedFrom(v: FamilyState, nm: Naming, inspect: nat -> Inspection, count: nat, now: nat) {
    && (forall n :: Responds(nm, inspect, count, n) ==> n in v.children)
    && (forall n :: n in v.children ==>
          if Responds(nm, inspect, count, n) then AdoptedFrom(nm, inspect, count, now, n, v.children[n])
          else v.children[n] == AsFound(nm, n, true, now))
  }

  // Of the first `count` launches all succeeded but, if not ok, the last.
  ghost predicate OnlyLastMayFail(launches: nat -> Launch, count: nat, ok: bool) {
    forall k: nat :: k < count ==> (launches(k).LaunchFailed? <==> !ok && k == count - 1)
  }

  lemma OneMoreLaunch(launches: nat -> Launch, count: nat, ok: bool)
    requires OnlyLastMayFail(launches, count, true) && (ok <==> launches(count).Launched?)
    ensures OnlyLastMayFail(launches, count + 1, ok)
  {
  }

  class Family {
    const st: Settings
    const registry: Registry
    ghost const names: Naming
    var children: map<string, Child>
    var nextReplicaIndex: nat
    var supportedOps: seq<string>
    var stopped: bool

    ghost function View(): FamilyState
      reads this, registry
    {
      FamilyState(children, nextReplicaIndex, supportedOps, stopped, registry.services)
    }

    ghost predicate Valid()
      reads this, registry
    {
      Consistent(View(), names)
    }

    // Names and endpoints are printed from the settings.
    ghost predicate Configured() {
      st.Valid() && names == NamingOf(st)
    }

    constructor (st: Settings, registry: Registry, supportedOps: seq<string>)
      requires st.Valid() && registry.Valid()
      requires forall n :: n in registry.services ==> !InFamily(st.prefix, n)
      ensures Valid() && Configured() && this.st == st && this.registry == registry
      ensures View() == FamilyState(map[], 1, supportedOps, false, registry.services)
    {
      this.st, this.registry, this.supportedOps, names := st, registry, supportedOps, NamingOf(st);
      children, nextReplicaIndex, stopped := map[], 1, false;
    }

    method ActiveCount() returns (count: nat)
      ensures count == Active(children)
    {
      count := 0;
      var todo := children.Keys;
      ghost var seen: set<string> := {};
      while todo != {}
        invariant todo <= children.Keys && count == |seen|
        invariant seen == set n | n in children && n !in todo && !children[n].stopping
        decreases todo
      {
        var name :| name in todo;
        todo := todo - {name};
        if !children[name].stopping {
          count := count + 1;
          seen := seen + {name};
        }
      }
      assert seen == ActiveNames(children);
    }

    // Drop the children whose containers are gone or not running.
    method PruneExited(exited: set<string>)
      requires Valid()
      modifies this`children, registry
      ensures Valid() && View() == Prune(old(View()), exited)
    {
      ghost var start, done: set<string> := View(), {};
      var todo := children.Keys;
      PruneNothing(start);
      while todo != {}
        invariant todo !! done && todo + done == start.children.Keys
        invariant registry.Valid() && View() == Prune(start, exited * done)
        decreases todo
      {
        var name :| name in todo;
        todo := todo - {name};
        PruneOneMore(start, exited, done, name);
        done := done + {name};
        if name in exited {
          children := children - {name};
          var _ := registry.Remove(name);
        }
      }
      PruneAll(start, exited, done);
      PruneKeepsValid(start, names, exited);
    }

    method FirstIdleChild() returns (chosen: Option<string>)
      ensures match chosen case Some(name) => FirstIdle(children, name) case None => NoIdle(children)
    {
      chosen := None;
      var todo := children.Keys;
      while todo != {}
        invariant todo <= children.Keys
        invariant chosen.Some? ==> chosen.value in children && Idle(children[chosen.value])
        invariant forall n :: n in children && n !in todo && Idle(children[n]) ==>
                    chosen.Some? && children[chosen.value].lastIdleAt <= children[n].lastIdleAt
        decreases todo
      {
        var name :| name in todo;
        todo := todo - {name};
        var child := children[name];
        if child.busy || child.stopping || !child.healthy {
          continue;
        }
        if chosen.None? || child.lastIdleAt < children[chosen.value].lastIdleAt {
          chosen := Some(name);
        }
      }
    }

    // One pass of the acquire loop under the lock.
    method TryAcquire(exited: set<string>) returns (outcome: Acquired)
      requires Valid()
      modifies this`children, registry
      ensures Valid()
      ensures outcome.Stopped? <==> old(stopped)
      ensures var pruned := Prune(old(View()), exited);
              match outcome
              case Stopped => View() == old(View())
              case Leased(name) => FirstIdle(pruned.children, name) && View() == MarkBusy(pruned, name)
              case Grow => NoIdle(pruned.children) && Active(pruned.children) < st.max && View() == pruned
              case Full => NoIdle(pruned.children) && Active(pruned.children) >= st.max && View() == pruned
    {
      if stopped {
        return Stopped;
      }
      PruneExited(exited);
      var chosen := FirstIdleChild();
      if chosen.Some? {
        MarkBusyKeepsValid(View(), names, chosen.value);
        children := children[chosen.value := children[chosen.value].(busy := true, lastIdleAt := 0)];
        return Leased(chosen.value);
      }
      var active := ActiveCount();
      outcome := if active < st.max then Grow else Full;
    }

    // The name loop has no visible bound.  It ends, whatever the children are
    // called, because every taken name it passes leaves fewer ahead of it.
    method NextServiceName() returns (name: string)
      requires nextReplicaIndex >= 1
      modifies this`nextReplicaIndex
      ensures name == Format(st.prefix, FreeIndex(children.Keys, st.prefix, old(nextReplicaIndex)))
      ensures nextReplicaIndex == FreeIndex(children.Keys, st.prefix, old(nextReplicaIndex)) + 1
    {
      ghost var index := FreeIndex(children.Keys, st.prefix, nextReplicaIndex);
      while true
        invariant nextReplicaIndex >= 1 && FreeIndex(children.Keys, st.prefix, nextReplicaIndex) == index
        decreases Ahead(children.Keys, nextReplicaIndex)
      {
        name := Format(st.prefix, nextReplicaIndex);
        nextReplicaIndex := nextReplicaIndex + 1;
        if name !in children {
          break;
        }
        PassingShrinks(children.Keys, st.prefix, nextReplicaIndex - 1);
      }
    }

    method RegisterChild(name: string, endpoint: string, learnt: seq<string>, now: nat) returns (entered: bool)
      requires Valid() && Distinguishes(names) && endpoint == names.endpoint(name)
      requires now > 0 && Issued(names, nextReplicaIndex, name) && name !in children
      modifies this`children, this`supportedOps, registry
      ensures Valid() && View() == Register(old(View()), names, st.language, name, learnt, now)
      ensures entered <==> !stopped
    {
      RegisterKeepsValid(View(), names, st.language, name, learnt, now);
      if learnt != [] {
        supportedOps := learnt;
      }
      if stopped {
        return false;
      }
      EnterChild(name, endpoint, true, now);
      return true;
    }

    method EnterChild(name: string, endpoint: string, managed: bool, now: nat)
      requires registry.Valid() && endpoint == names.endpoint(name)
      modifies this`children, registry
      ensures View() == Enter(old(View()), names, st.language, name, managed, now) && registry.Valid()
    {
      children := children[name := Child(endpoint, managed, false, true, false, now)];
      registry.Register(NewService(name, st.language, endpoint, true, supportedOps));
    }

    method ReserveName() returns (name: string, endpoint: string)
      requires Valid() && Configured()
      modifies this`nextReplicaIndex
      ensures Valid() && nextReplicaIndex == old(nextReplicaIndex) + 1 && Distinguishes(names)
      ensures name == names.name(old(nextReplicaIndex)) && endpoint == names.endpoint(name)
    {
      NamingDistinguishes(st);
      ReserveKeepsValid(View(), names);
      SearchEndsAtOnce(View(), st);
      name := NextServiceName();
      endpoint := Endpoint(st, ParseIndex(name));
    }

    // Spawn one replica with nothing else running in between.
    method SpawnChild(launch: Launch, now: nat) returns (name: Option<string>)
      requires Valid() && Configured() && now > 0
      modifies this`children, this`nextReplicaIndex, this`supportedOps, registry
      ensures Valid() && stopped == old(stopped)
      ensures name == if launch.Launched? && !stopped then Some(names.name(old(nextReplicaIndex))) else None
      ensures Active(children) == old(Active(children)) + if name.Some? then 1 else 0
      ensures View() == AfterSpawn(old(View()), names, st.language, launch, now)
    {
      ghost var start := View();
      var next, endpoint := ReserveName();
      if launch.LaunchFailed? {
        return None;
      }
      name := Finish(start, next, endpoint, launch.learnt, now);
    }

    method Finish(ghost start: FamilyState, next: string, endpoint: string, learnt: seq<string>, now: nat)
      returns (name: Option<string>)
      requires Valid() && Distinguishes(names) && now > 0 && Consistent(start, names)
      requires View() == start.(next := start.next + 1) && next == names.name(start.next) && endpoint == names.endpoint(next)
      modifies this`children, this`supportedOps, registry
      ensures Valid() && View() == Register(start.(next := start.next + 1), names, st.language, next, learnt, now)
      ensures name == if stopped then None else Some(next)
      ensures Active(children) == Active(start.children) + if name.Some? then 1 else 0
    {
      ReserveKeepsValid(start, names);
      RegisterKeepsValid(View(), names, st.language, next, learnt, now);
      var entered := RegisterChild(next, endpoint, learnt, now);
      name := if entered then Some(next) else None;
    }

    method MarkLeased(name: string)
      requires Valid()
      modifies this`children
      ensures Valid() && View() == MarkBusy(old(View()), name)
    {
      MarkBusyKeepsValid(View(), names, name);
      if name in children {
        children := children[name := children[name].(busy := true, lastIdleAt := 0)];
      }
    }

    method ReleaseLease(name: string, now: nat)
      requires Valid() && now > 0
      modifies this`children
      ensures Valid() && View() == Release(old(View()), name, now)
      ensures name in children ==> children[name] == old(children)[name].(busy := false, lastIdleAt := now)
    {
      ReleaseKeepsValid(View(), names, name, now);
      if name !in children {
        return;
      }
      children := children[name := children[name].(busy := false, lastIdleAt := now)];
    }

    // An acquire call that nothing else interrupts: the lease is exclusive and the
    // family stays within its maximum.
    method Acquire(exited: set<string>, launch: Launch, now: nat) returns (outcome: Acquired, leased: Option<string>)
      requires Valid() && Configured() && now > 0
      modifies this`children, this`nextReplicaIndex, this`supportedOps, registry
      ensures Valid()
      ensures var pruned := Prune(old(View()), exited);
              match outcome
              case Stopped => leased.None? && View() == old(View())
              case Leased(name) =>
                leased == Some(name) && FirstIdle(pruned.children, name) && View() == MarkBusy(pruned, name)
              case Full => leased.None? && NoIdle(pruned.children) && View() == pruned
              case Grow =>
                var name := names.name(pruned.next);
                && NoIdle(pruned.children) && Active(pruned.children) < st.max
                && leased == (if launch.Launched? then Some(name) else None)
                && View() == AfterGrowth(pruned, names, st.language, launch, now)
      ensures old(Active(children)) <= st.max ==> Active(children) <= st.max
      ensures leased.Some? ==> leased.value in children && children[leased.value].busy
      ensures leased.Some? && leased.value in old(children) ==> Idle(old(children)[leased.value])
      ensures leased.None? ==> outcome.Stopped? || outcome.Full? || (outcome.Grow? && launch.LaunchFailed?)
    {
      PruneKeepsValid(View(), names, exited);
      ghost var start := View();
      outcome := TryAcquire(exited);
      leased := None;
      match outcome {
        case Leased(name) =>
          MarkBusyKeepsValid(Prune(start, exited), names, name);
          leased := Some(name);
        case Grow =>
          leased := GrowAndLease(launch, now);
          NewNameWasFree(start, names, exited);
        case _ =>
      }
    }

    method GrowAndLease(launch: Launch, now: nat) returns (leased: Option<string>)
      requires Valid() && Configured() && now > 0 && !stopped
      modifies this`children, this`nextReplicaIndex, this`supportedOps, registry
      ensures Valid() && Active(children) <= old(Active(children)) + 1
      ensures leased == if launch.Launched? then Some(names.name(old(nextReplicaIndex))) else None
      ensures leased.Some? ==> leased.value in children && children[leased.value].busy
      ensures Distinguishes(names) && View() == AfterGrowth(old(View()), names, st.language, launch, now)
    {
      NamingDistinguishes(st);
      leased := SpawnChild(launch, now);
      if leased.Some? {
        MarkBusyKeepsValid(View(), names, leased.value);
        MarkLeased(leased.value);
      }
    }

    // Adopt, then spawn up to the warm replicas: as many as are missing, unless
    // adopting or one of the launches fails.
    method Start(inspect: nat -> Inspection, launches: nat -> Launch, now: nat)
      returns (ok: bool, ghost reached: nat, ghost spawned: nat)
      requires Valid() && Configured() && now > 0 && children == map[] && !stopped
      modifies this`children, this`nextReplicaIndex, this`supportedOps, registry
      ensures Valid() && Active(children) <= st.max
      ensures reached <= st.max && (reached < st.max ==> !ok && spawned == 0 && inspect(reached + 1).Unreachable?)
      ensures var adopted := AdoptThrough(old(View()), names, st.language, reached, inspect, now);
              && View() == AfterSpawns(adopted, names, st.language, launches, spawned, now)
              && (ok ==> Active(children) == Max(Active(adopted.children), st.warm))
      ensures OnlyLastMayFail(launches, spawned, ok)
      ensures reached == st.max && !ok ==> spawned > 0
      ensures StartedFrom(View(), names, inspect, reached, now)
    {
      ok, reached := AdoptExisting(inspect, now);
      spawned := 0;
      NamingDistinguishes(st);
      ghost var adopted := View();
      if ok {
        ok, spawned := SpawnWarm(View(), launches, now);
        AfterSpawnsAdd(adopted, names, st.language, launches, spawned, now);
      }
    }

    method SpawnWarm(ghost start: FamilyState, launches: nat -> Launch, now: nat) returns (ok: bool, ghost spawned: nat)
      requires Configured() && Warming(start, launches, 0, now, Active(children)) && Active(children) <= st.max
      modifies this`children, this`nextReplicaIndex, this`supportedOps, registry
      ensures Valid() && Active(children) <= st.max
      ensures View() == AfterSpawns(start, names, st.language, launches, spawned, now)
      ensures ok ==> Active(children) == Max(Active(start.children), st.warm)
      ensures OnlyLastMayFail(launches, spawned, ok)
      ensures !ok ==> spawned > 0
    {
      spawned := 0;
      var active := ActiveCount();
      var k := 0;
      while active < st.warm
        invariant Warming(start, launches, k, now, active) && spawned == k
        invariant active <= st.max && (k > 0 ==> active <= st.warm)
      {
        ok, active := WarmOne(start, launches, k, now, active);
        k, spawned := k + 1, k + 1;
        if !ok {
          return;
        }
      }
      ok := true;
    }

    // k launches have succeeded since the start.
    ghost predicate Warming(start: FamilyState, launches: nat -> Launch, k: nat, now: nat, active: nat)
      reads this, registry
    {
      && Valid() && !stopped && now > 0
      && active == Active(children) == Active(start.children) + k
      && View() == AfterSpawns(start, names, st.language, launches, k, now)
      && OnlyLastMayFail(launches, k, true)
    }

    method WarmOne(ghost start: FamilyState, launches: nat -> Launch, k: nat, now: nat, ghost active: nat)
      returns (ok: bool, count: nat)
      requires Configured() && Warming(start, launches, k, now, active)
      modifies this`children, this`nextReplicaIndex, this`supportedOps, registry
      ensures Valid() && View() == AfterSpawns(start, names, st.language, launches, k + 1, now)
      ensures OnlyLastMayFail(launches, k + 1, ok)
      ensures Active(children) == count == active + if ok then 1 else 0
      ensures ok ==> Warming(start, launches, k + 1, now, count)
    {
      var child := SpawnChild(launches(k), now);
      ok := child.Some?;
      count := ActiveCount();
      OneMoreLaunch(launches, k, ok);
    }

    method AdoptExisting(inspect: nat -> Inspection, now: nat) returns (ok: bool, ghost reached: nat)
      requires Valid() && Configured() && now > 0 && children == map[] && !stopped
      modifies this`children, this`nextReplicaIndex, this`supportedOps, registry
      ensures Valid() && !stopped && Active(children) <= st.max
      ensures reached <= st.max && View() == AdoptThrough(old(View()), names, st.language, reached, inspect, now)
      ensures forall i :: 1 <= i <= reached ==> !inspect(i).Unreachable?
      ensures if ok then reached == st.max else reached < st.max && inspect(reached + 1).Unreachable?
      ensures Adopted(View(), names, inspect, reached, now)
    {
      NamingDistinguishes(st);
      ghost var start := View();
      ok, reached := AdoptInTurn(AddressesOf(st), inspect, now);
      AdoptingIsExact(start, names, st.language, reached, inspect, now);
    }

    // `addresses` prints the service name and the endpoint of an index.
    method AdoptInTurn(addresses: nat -> (string, string), inspect: nat -> Inspection, now: nat)
      returns (ok: bool, ghost reached: nat)
      requires registry.Valid()
      requires forall i :: addresses(i) == (names.name(i), names.endpoint(names.name(i)))
      modifies this`children, this`nextReplicaIndex, this`supportedOps, registry
      ensures reached <= st.max && View() == AdoptThrough(old(View()), names, st.language, reached, inspect, now)
      ensures forall i :: 1 <= i <= reached ==> !inspect(i).Unreachable?
      ensures if ok then reached == st.max else reached < st.max && inspect(reached + 1).Unreachable?
    {
      reached := 0;
      for index := 1 to st.max + 1
        invariant reached == index - 1 && registry.Valid()
        invariant View() == AdoptThrough(old(View()), names, st.language, reached, inspect, now)
        invariant forall i :: 1 <= i < index ==> !inspect(i).Unreachable?
      {
        var found := inspect(index);
        if found.Unreachable? {
          return false, reached;
        }
        AdoptIndex(index, addresses(index).0, addresses(index).1, found, now);
        reached := index;
      }
      return true, reached;
    }

    method AdoptIndex(index: nat, name: string, endpoint: string, found: Inspection, now: nat)
      requires registry.Valid() && name == names.name(index) && endpoint == names.endpoint(name)
      modifies this`children, this`nextReplicaIndex, this`supportedOps, registry
      ensures View() == AdoptOne(old(View()), names, st.language, index, found, now) && registry.Valid()
    {
      if !found.Running? {
        return;
      }
      if index >= nextReplicaIndex {
        nextReplicaIndex := index + 1;
      }
      if !found.responds {
        return;
      }
      if found.learnt != [] {
        supportedOps := found.learnt;
      }
      EnterChild(name, endpoint, found.managed, now);
    }

    // The scale-down region of the reconcile loop.
    method ScaleDown(now: nat) returns (stopping: seq<string>, ghost order: seq<string>)
      requires Valid()
      modifies this`children, registry
      ensures Valid() && Visits(order, old(children))
      ensures stopping == Victims(old(View()), st, order, now) && View() == Without(old(View()), stopping)
    {
      var candidates;
      candidates, order := CollectExpired(now);
      ScaleDownKeepsValid(View(), names, st, order, now);
      if st.idleScaleDown > 0 {
        var activeCount := ActiveCount();
        if activeCount > st.warm {
          stopping := StopExpired(candidates, activeCount, order, now);
          return;
        }
      }
      stopping := [];
      NoVictims(View(), st, order, now);
    }

    method StopExpired(candidates: seq<string>, activeCount: nat, ghost order: seq<string>, now: nat)
      returns (stopping: seq<string>)
      requires registry.Valid() && Visits(order, children)
      requires candidates == Filter(order, IsExpired(children, st, now))
      requires activeCount > st.warm && activeCount - st.warm == Budget(View(), st)
      modifies this`children, registry
      ensures stopping == Victims(old(View()), st, order, now) && View() == Without(old(View()), stopping)
    {
      ghost var start := View();
      var sorted := Sort(candidates, StopsFirst(children));
      ghost var victims := Victims(start, st, order, now);
      StopPlan(start, st, order, now, candidates, sorted);
      stopping := StopOldest(sorted, activeCount, victims);
    }

    method CollectExpired(now: nat) returns (candidates: seq<string>, ghost order: seq<string>)
      ensures Visits(order, children) && candidates == Filter(order, IsExpired(children, st, now))
    {
      candidates, order := [], [];
      var todo := children.Keys;
      while todo != {}
        invariant todo <= children.Keys && NoDuplicates(order)
        invariant forall n :: n in order <==> n in children && n !in todo
        invariant candidates == Filter(order, IsExpired(children, st, now))
        decreases todo
      {
        var name :| name in todo;
        todo := todo - {name};
        FilterSnoc(order, name, IsExpired(children, st, now));
        order := order + [name];
        var child := children[name];
        if child.busy || child.stopping || child.lastIdleAt == 0 {
          continue;
        }
        if now - child.lastIdleAt < st.idleScaleDown {
          continue;
        }
        candidates := candidates + [name];
      }
    }

    method StopOne(name: string)
      requires registry.Valid()
      modifies this`children, registry
      ensures registry.Valid()
      ensures View() == old(View()).(children := old(children) - {name}, services := old(registry.services) - {name})
    {
      children := children - {name};
      var _ := registry.Remove(name);
    }

    method StopOldest(sorted: seq<string>, active: nat, ghost victims: seq<string>) returns (stopping: seq<string>)
      requires registry.Valid() && active > st.warm
      requires victims == TakeManaged(children, sorted, active - st.warm)
      requires NoDuplicates(sorted) && forall n :: n in sorted ==> n in children
      modifies this`children, registry
      ensures stopping == victims && View() == Without(old(View()), victims)
    {
      stopping := [];
      var activeCount := active;
      ghost var start := View();
      StopNothing(start);
      for i := 0 to |sorted|
        invariant stopping == TakeManaged(start.children, sorted[..i], active - st.warm)
        invariant activeCount == active - |stopping| >= st.warm
        invariant View() == Without(start, stopping) && registry.Valid()
      {
        var name := sorted[i];
        TakeNext(start, sorted, i, active - st.warm);
        if activeCount <= st.warm || !children[name].managed {
          continue;
        }
        StopOneMore(start, stopping, name);
        StopOne(name);
        stopping := stopping + [name];
        activeCount := activeCount - 1;
      }
      assert sorted[..|sorted|] == sorted;
    }

    method Close() returns (toStop: set<string>)
      requires Valid()
      modifies this`children, this`stopped
      ensures Valid() && View() == if old(stopped) then old(View()) else StopAll(old(View()))
      ensures toStop == if old(stopped) then {} else set n | n in children && children[n].managed
    {
      if stopped {
        return {};
      }
      StopAllKeepsValid(View(), names);
      stopped := true;
      children := map n | n in children :: children[n].(stopping := true);
      toStop := set n | n in children && children[n].managed;
    }
  }

  // The next name was no child's, before pruning or after.
  lemma NewNameWasFree(v: FamilyState, nm: Naming, exited: set<string>)
    requires Consistent(v, nm) && Distinguishes(nm)
    ensures nm.name(v.next) !in v.children && Prune(v, exited).next == v.next
  {
    ReserveKeepsValid(v, nm);
  }

  // ----- one turn of the pruning and stopping loops

  lemma PruneNothing(v: FamilyState)
    ensures forall exited :: Prune(v, exited * {}) == v
  {
    forall exited ensures Prune(v, exited * {}) == v {
      assert v.children - (exited * {}) == v.children && v.services - ((exited * {}) * v.children.Keys) == v.services;
    }
  }

  lemma PruneOneMore(v: FamilyState, exited: set<string>, done: set<string>, name: string)
    requires name in v.children
    ensures var before := Prune(v, exited * done);
            Prune(v, exited * (done + {name})) ==
            if name in exited then before.(children := before.children - {name}, services := before.services - {name})
            else before
  {
    var before, later := Prune(v, exited * done), Prune(v, exited * (done + {name}));
    if name in exited {
      assert later.children == before.children - {name};
      assert later.services == before.services - {name};
    } else {
      assert exited * (done + {name}) == exited * done;
    }
  }

  lemma PruneAll(v: FamilyState, exited: set<string>, done: set<string>)
    requires done == v.children.Keys
    ensures Prune(v, exited * done) == Prune(v, exited)
  {
    assert v.children - (exited * done) == v.children - exited;
    assert exited * done * v.children.Keys == exited * v.children.Keys;
  }

  // What the stopping loop does with the next name, which is still a child's.
  lemma TakeNext(v: FamilyState, names: seq<string>, i: nat, budget: nat)
    requires i < |names| && NoDuplicates(names) && names[i] in v.children
    ensures var taken, name := TakeManaged(v.children, names[..i], budget), names[i];
            && name in Without(v, taken).children && Without(v, taken).children[name] == v.children[name]
            && TakeManaged(v.children, names[..i + 1], budget)
               == if |taken| < budget && v.children[name].managed then taken + [name] else taken
  {
    assert names[..i + 1][..i] == names[..i];
    if names[i] in TakeManaged(v.children, names[..i], budget) {
      TakenAreNamed(v.children, names[..i], budget, names[i]);
    }
  }

  // The sorted candidates are children, and stopping takes them from the front.
  lemma StopPlan(v: FamilyState, st: Settings, order: seq<string>, now: nat, candidates: seq<string>, sorted: seq<string>)
    requires Visits(order, v.children) && candidates == Filter(order, IsExpired(v.children, st, now))
    requires sorted == Sort(candidates, StopsFirst(v.children))
    ensures NoDuplicates(sorted) && forall n :: n in sorted ==> n in v.children
    ensures Victims(v, st, order, now) == TakeManaged(v.children, sorted, Budget(v, st))
  {
    FilterHasNoDuplicates(order, IsExpired(v.children, st, now));
    PermutationHasNoDuplicates(candidates, sorted);
    forall n | n in sorted ensures n in v.children { assert n in multiset(candidates); }
  }

  lemma StopNothing(v: FamilyState)
    ensures Without(v, []) == v
  {
    var none: seq<string> := [];
    assert v.children - (set n | n in none) == v.children && v.services - (set n | n in none) == v.services;
  }

  lemma NoVictims(v: FamilyState, st: Settings, order: seq<string>, now: nat)
    requires Visits(order, v.children) && Budget(v, st) == 0
    ensures Victims(v, st, order, now) == [] && Without(v, []) == v
  {
    VictimsAreFirst(v, st, order, now);
    StopNothing(v);
  }

  lemma StopOneMore(v: FamilyState, stopping: seq<string>, name: string)
    ensures var before := Without(v, stopping);
            Without(v, stopping + [name])
            == before.(children := before.children - {name}, services := before.services - {name})
  {
    assert (set n | n in stopping + [name]) == (set n | n in stopping) + {name};
    var before, later := Without(v, stopping), Without(v, stopping + [name]);
    assert later.children == before.children - {name};
    assert later.services == before.services - {name};
  }
}
