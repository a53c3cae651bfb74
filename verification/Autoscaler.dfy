// The container pool under interleaving.  Acquire and the reconcile loop give up
// the lock while they spawn (service/base/services/provider_container_pool.go),
// so every region that holds it is one step here, and the steps of any number
// of overlapping calls mix freely with releases, exits, refreshes and closing.
module Autoscaler {
  import opened Ordering
  import opened Containers
  import opened ServiceRegistry

  // An acquire call: it decided to grow, it has a name and is spawning, or its
  // child is registered but not yet marked busy.
  datatype Slot = Free | Deciding | Spawning(name: string) | Marking(name: string)

  // The reconcile loop, with the active count it works from.
  datatype Keeper = Resting | Growing(count: nat) | Launching(count: nat, name: string)

  // `clients` is how many acquire calls may overlap.
  datatype Config = Config(st: Settings, nm: Naming, clients: nat)
  {
    ghost predicate Valid() { st.Valid() && Distinguishes(nm) && clients >= 1 }
  }

  // `leases` holds a name once for every caller that holds a lease on it.
  datatype State = State(v: FamilyState, slots: seq<Slot>, keeper: Keeper, leases: multiset<string>)

  datatype Action =
    | TryAcquire(slot: nat, exited: set<string>, choice: string)
    | ReserveName(slot: nat)
    | SpawnFails(slot: nat)
    | SpawnEnds(slot: nat, learnt: seq<string>, now: nat)
    | MarkLease(slot: nat)
    | ReleaseLease(name: string, now: nat)
    | Reconcile(exited: set<string>)
    | KeeperReserves
    | KeeperFails
    | KeeperSpawns(learnt: seq<string>, now: nat)
    | KeeperScales(order: seq<string>, now: nat)
    | Refresh(services: map<string, Service>)
    | CloseAll

  // ----- steps; a step that is not enabled changes nothing

  ghost function Acquire(cfg: Config, s: State, slot: nat, exited: set<string>, choice: string): State
    requires slot < |s.slots|
  {
    var pruned := Prune(s.v, exited);
    if FirstIdle(pruned.children, choice) then
      s.(v := MarkBusy(pruned, choice), leases := s.leases + multiset{choice})
    else if !NoIdle(pruned.children) then s
    else if Active(pruned.children) < cfg.st.max then s.(v := pruned, slots := s.slots[slot := Deciding])
    else s.(v := pruned)
  }

  function ReserveFor(cfg: Config, s: State, slot: nat): State
    requires slot < |s.slots|
  {
    s.(v := s.v.(next := s.v.next + 1), slots := s.slots[slot := Spawning(cfg.nm.name(s.v.next))])
  }

  function EndSpawn(cfg: Config, s: State, slot: nat, learnt: seq<string>, now: nat): State
    requires slot < |s.slots| && s.slots[slot].Spawning?
  {
    var name := s.slots[slot].name;
    s.(v := Register(s.v, cfg.nm, cfg.st.language, name, learnt, now),
       slots := s.slots[slot := if s.v.stopped then Free else Marking(name)])
  }

  function Mark(s: State, slot: nat): State
    requires slot < |s.slots| && s.slots[slot].Marking?
  {
    var name := s.slots[slot].name;
    s.(v := MarkBusy(s.v, name), slots := s.slots[slot := Free], leases := s.leases + multiset{name})
  }

  function KeeperRegister(cfg: Config, s: State, learnt: seq<string>, now: nat): State
    requires s.keeper.Launching?
  {
    s.(v := Register(s.v, cfg.nm, cfg.st.language, s.keeper.name, learnt, now),
       keeper := if s.v.stopped then Resting else Growing(s.keeper.count + 1))
  }

  predicate InPhase(s: State, slot: nat, phase: Slot -> bool) {
    slot < |s.slots| && phase(s.slots[slot])
  }

  ghost function Next(cfg: Config, s: State, a: Action): State {
    match a
    case TryAcquire(i, exited, choice) =>
      if i < |s.slots| && s.slots[i].Free? && !s.v.stopped then Acquire(cfg, s, i, exited, choice) else s
    case ReserveName(i) => if i < |s.slots| && s.slots[i].Deciding? then ReserveFor(cfg, s, i) else s
    case SpawnFails(i) => if i < |s.slots| && s.slots[i].Spawning? then s.(slots := s.slots[i := Free]) else s
    case SpawnEnds(i, learnt, now) =>
      if i < |s.slots| && s.slots[i].Spawning? && now > 0 then EndSpawn(cfg, s, i, learnt, now) else s
    case MarkLease(i) => if i < |s.slots| && s.slots[i].Marking? then Mark(s, i) else s
    case ReleaseLease(name, now) =>
      if name in s.leases && now > 0 then s.(v := Release(s.v, name, now), leases := s.leases - multiset{name}) else s
    case Reconcile(exited) =>
      if s.keeper.Resting? && !s.v.stopped then
        s.(v := Prune(s.v, exited), keeper := Growing(Active(Prune(s.v, exited).children)))
      else s
    case KeeperReserves =>
      if s.keeper.Growing? && s.keeper.count < cfg.st.warm then
        s.(v := s.v.(next := s.v.next + 1), keeper := Launching(s.keeper.count, cfg.nm.name(s.v.next)))
      else s
    case KeeperFails => if s.keeper.Launching? then s.(keeper := Resting) else s
    case KeeperSpawns(learnt, now) => if s.keeper.Launching? && now > 0 then KeeperRegister(cfg, s, learnt, now) else s
    case KeeperScales(order, now) =>
      if s.keeper.Growing? && s.keeper.count >= cfg.st.warm && Visits(order, s.v.children) then
        s.(v := Without(s.v, Victims(s.v, cfg.st, order, now)), keeper := Resting)
      else s
    case Refresh(services) =>
      if WellNamed(services) && SameAddresses(services, s.v.services) then s.(v := s.v.(services := services)) else s
    case CloseAll => s.(v := StopAll(s.v))
  }

  // ----- counting calls by phase

  function Grows(): Slot -> bool { (x: Slot) => x.Deciding? || x.Spawning? }

  function Spawns(name: string): Slot -> bool { (x: Slot) => x == Spawning(name) }

  function Marks(name: string): Slot -> bool { (x: Slot) => x == Marking(name) }

  lemma {:induction false} CountAfterUpdate(slots: seq<Slot>, i: nat, x: Slot, phase: Slot -> bool)
    requires i < |slots|
    ensures Count(slots[i := x], phase) + (if phase(slots[i]) then 1 else 0)
            == Count(slots, phase) + (if phase(x) then 1 else 0)
  {
    var n := |slots| - 1;
    if i == n {
      assert slots[i := x][..n] == slots[..n];
    } else {
      assert slots[i := x][..n] == slots[..n][i := x];
      CountAfterUpdate(slots[..n], i, x, phase);
    }
  }

  // Someone who is in another phase is not counted.
  lemma CountLeavesOut(slots: seq<Slot>, i: nat, phase: Slot -> bool)
    requires i < |slots| && !phase(slots[i])
    ensures Count(slots, phase) < |slots|
  {
    var rest := TakeOut(slots, slots[i], phase);
  }

  lemma {:induction false} CountFinds(slots: seq<Slot>, i: nat, phase: Slot -> bool)
    requires i < |slots| && phase(slots[i])
    ensures Count(slots, phase) > 0
  {
    if i < |slots| - 1 { CountFinds(slots[..|slots| - 1], i, phase); }
  }

  lemma {:induction false} CountOfNone(slots: seq<Slot>, phase: Slot -> bool)
    requires forall i :: 0 <= i < |slots| ==> !phase(slots[i])
    ensures Count(slots, phase) == 0
  {
    if slots != [] { CountOfNone(slots[..|slots| - 1], phase); }
  }

  // ----- the invariant, name by name

  // Spawns under way for the name.
  function Flying(s: State, name: string): nat {
    Count(s.slots, Spawns(name)) + if s.keeper.Launching? && s.keeper.name == name then 1 else 0
  }

  // Those who hold a lease on the name or are about to.
  function Holders(s: State, name: string): nat {
    s.leases[name] + Count(s.slots, Marks(name))
  }

  predicate Unleased(s: State, name: string) {
    name in s.v.children && !s.v.children[name].busy
  }

  ghost predicate NameInv(cfg: Config, s: State, name: string) {
    && Flying(s, name) + (if name in s.v.children then 1 else 0) <= 1
    && (Flying(s, name) > 0 ==> Issued(cfg.nm, s.v.next, name) && Holders(s, name) == 0)
    && (!Issued(cfg.nm, s.v.next, name) ==> Holders(s, name) == 0)
    && Holders(s, name) <= if Unleased(s, name) then 1 else 2
  }

  ghost predicate Inv(cfg: Config, s: State) {
    && |s.slots| == cfg.clients
    && Consistent(s.v, cfg.nm)
    && (s.keeper.Launching? ==> s.keeper.count < cfg.st.warm)
    && forall name :: NameInv(cfg, s, name)
  }

  // What a successful start leaves behind: between the warm replicas and the maximum
  // are active, and nothing is leased.
  ghost predicate Initial(cfg: Config, s: State) {
    && Consistent(s.v, cfg.nm) && !s.v.stopped && cfg.st.warm <= Active(s.v.children) <= cfg.st.max
    && |s.slots| == cfg.clients && (forall i :: 0 <= i < |s.slots| ==> s.slots[i].Free?)
    && s.keeper.Resting? && s.leases == multiset{}
  }

  lemma InitialInv(cfg: Config, s: State)
    requires Initial(cfg, s)
    ensures Inv(cfg, s)
  {
    forall name ensures NameInv(cfg, s, name) {
      CountOfNone(s.slots, Spawns(name));
      CountOfNone(s.slots, Marks(name));
    }
  }

  // ----- every step keeps the invariant

  // How a call's change of phase shows in the counts of a name.
  lemma PhaseChange(s: State, t: State, i: nat, x: Slot, name: string)
    requires i < |s.slots| && t.slots == s.slots[i := x]
    ensures Count(t.slots, Spawns(name)) + (if s.slots[i] == Spawning(name) then 1 else 0)
            == Count(s.slots, Spawns(name)) + (if x == Spawning(name) then 1 else 0)
    ensures Count(t.slots, Marks(name)) + (if s.slots[i] == Marking(name) then 1 else 0)
            == Count(s.slots, Marks(name)) + (if x == Marking(name) then 1 else 0)
  {
    CountAfterUpdate(s.slots, i, x, Spawns(name));
    CountAfterUpdate(s.slots, i, x, Marks(name));
  }

  // Steps that leave the calls and leases alone: children may only disappear or
  // stay as they are.
  lemma QuietStepKeepsInv(cfg: Config, s: State, t: State)
    requires Inv(cfg, s) && Consistent(t.v, cfg.nm)
    requires t.slots == s.slots && t.leases == s.leases && t.v.next == s.v.next
    requires t.keeper == s.keeper || !t.keeper.Launching?
    requires forall n :: n in t.v.children ==> n in s.v.children && t.v.children[n].busy == s.v.children[n].busy
    ensures Inv(cfg, t)
  {
    forall name ensures NameInv(cfg, t, name) { assert NameInv(cfg, s, name); }
  }

  lemma LeaseKeepsInv(cfg: Config, s: State, choice: string)
    requires Inv(cfg, s) && FirstIdle(s.v.children, choice)
    ensures Inv(cfg, s.(v := MarkBusy(s.v, choice), leases := s.leases + multiset{choice}))
  {
    var t := s.(v := MarkBusy(s.v, choice), leases := s.leases + multiset{choice});
    MarkBusyKeepsValid(s.v, cfg.nm, choice);
    forall name ensures NameInv(cfg, t, name) { assert NameInv(cfg, s, name); }
  }

  lemma DecideKeepsInv(cfg: Config, s: State, i: nat)
    requires Inv(cfg, s) && i < |s.slots| && s.slots[i].Free?
    ensures Inv(cfg, s.(slots := s.slots[i := Deciding]))
  {
    var t := s.(slots := s.slots[i := Deciding]);
    forall name ensures NameInv(cfg, t, name) {
      assert NameInv(cfg, s, name);
      PhaseChange(s, t, i, Deciding, name);
    }
  }

  lemma AcquireKeepsInv(cfg: Config, s: State, i: nat, exited: set<string>, choice: string)
    requires Inv(cfg, s) && i < |s.slots| && s.slots[i].Free?
    ensures Inv(cfg, Acquire(cfg, s, i, exited, choice))
  {
    var pruned := s.(v := Prune(s.v, exited));
    PruneKeepsValid(s.v, cfg.nm, exited);
    QuietStepKeepsInv(cfg, s, pruned);
    if FirstIdle(pruned.v.children, choice) {
      LeaseKeepsInv(cfg, pruned, choice);
    } else {
      DecideKeepsInv(cfg, pruned, i);
    }
  }

  lemma ReserveForKeepsInv(cfg: Config, s: State, i: nat)
    requires Inv(cfg, s) && cfg.Valid() && i < |s.slots| && s.slots[i].Deciding?
    ensures Inv(cfg, ReserveFor(cfg, s, i))
  {
    var t := ReserveFor(cfg, s, i);
    ReserveKeepsValid(s.v, cfg.nm);
    forall name ensures NameInv(cfg, t, name) {
      assert NameInv(cfg, s, name);
      PhaseChange(s, t, i, Spawning(cfg.nm.name(s.v.next)), name);
    }
  }

  lemma SpawnFailsKeepsInv(cfg: Config, s: State, i: nat)
    requires Inv(cfg, s) && i < |s.slots| && s.slots[i].Spawning?
    ensures Inv(cfg, s.(slots := s.slots[i := Free]))
  {
    var t := s.(slots := s.slots[i := Free]);
    forall name ensures NameInv(cfg, t, name) {
      assert NameInv(cfg, s, name);
      PhaseChange(s, t, i, Free, name);
    }
  }

  // A name being spawned is issued and new.
  lemma SpawnedNameIsNew(cfg: Config, s: State, name: string)
    requires Inv(cfg, s) && Flying(s, name) > 0
    ensures Issued(cfg.nm, s.v.next, name) && name !in s.v.children
  {
    assert NameInv(cfg, s, name);
  }

  lemma EndSpawnKeepsInv(cfg: Config, s: State, i: nat, learnt: seq<string>, now: nat)
    requires Inv(cfg, s) && cfg.Valid() && i < |s.slots| && s.slots[i].Spawning? && now > 0
    ensures Inv(cfg, EndSpawn(cfg, s, i, learnt, now))
  {
    var t, spawned := EndSpawn(cfg, s, i, learnt, now), s.slots[i].name;
    CountFinds(s.slots, i, Spawns(spawned));
    SpawnedNameIsNew(cfg, s, spawned);
    RegisterKeepsValid(s.v, cfg.nm, cfg.st.language, spawned, learnt, now);
    forall name ensures NameInv(cfg, t, name) {
      assert NameInv(cfg, s, name);
      PhaseChange(s, t, i, t.slots[i], name);
    }
  }

  lemma MarkKeepsInv(cfg: Config, s: State, i: nat)
    requires Inv(cfg, s) && i < |s.slots| && s.slots[i].Marking?
    ensures Inv(cfg, Mark(s, i))
  {
    var t, marked := Mark(s, i), s.slots[i].name;
    MarkBusyKeepsValid(s.v, cfg.nm, marked);
    forall name ensures NameInv(cfg, t, name) {
      assert NameInv(cfg, s, name);
      PhaseChange(s, t, i, Free, name);
    }
  }

  lemma ReleaseKeepsInv(cfg: Config, s: State, released: string, now: nat)
    requires Inv(cfg, s) && released in s.leases && now > 0
    ensures Inv(cfg, s.(v := Release(s.v, released, now), leases := s.leases - multiset{released}))
  {
    var t := s.(v := Release(s.v, released, now), leases := s.leases - multiset{released});
    Containers.ReleaseKeepsValid(s.v, cfg.nm, released, now);
    forall name ensures NameInv(cfg, t, name) {
      assert NameInv(cfg, s, name);
    }
  }

  lemma KeeperRegisterKeepsInv(cfg: Config, s: State, learnt: seq<string>, now: nat)
    requires Inv(cfg, s) && cfg.Valid() && s.keeper.Launching? && now > 0
    ensures Inv(cfg, KeeperRegister(cfg, s, learnt, now))
  {
    var t, spawned := KeeperRegister(cfg, s, learnt, now), s.keeper.name;
    SpawnedNameIsNew(cfg, s, spawned);
    RegisterKeepsValid(s.v, cfg.nm, cfg.st.language, spawned, learnt, now);
    forall name ensures NameInv(cfg, t, name) { assert NameInv(cfg, s, name); }
  }

  lemma KeeperReservesKeepsInv(cfg: Config, s: State)
    requires Inv(cfg, s) && cfg.Valid() && s.keeper.Growing? && s.keeper.count < cfg.st.warm
    ensures Inv(cfg, Next(cfg, s, KeeperReserves))
  {
    ReserveKeepsValid(s.v, cfg.nm);
    forall name ensures NameInv(cfg, Next(cfg, s, KeeperReserves), name) { assert NameInv(cfg, s, name); }
  }

  lemma QuietActionKeepsInv(cfg: Config, s: State, a: Action)
    requires Inv(cfg, s)
    requires a.Reconcile? || a.KeeperFails? || a.KeeperScales? || a.Refresh? || a.CloseAll?
    ensures Inv(cfg, Next(cfg, s, a))
  {
    var t := Next(cfg, s, a);
    if t != s {
      match a {
        case Reconcile(exited) => PruneKeepsValid(s.v, cfg.nm, exited);
        case KeeperScales(order, now) => ScaleDownKeepsValid(s.v, cfg.nm, cfg.st, order, now);
        case Refresh(services) => RefreshKeepsValid(s.v, cfg.nm, services);
        case CloseAll => StopAllKeepsValid(s.v, cfg.nm);
        case _ =>
      }
      QuietStepKeepsInv(cfg, s, t);
    }
  }

  lemma StepKeepsInv(cfg: Config, s: State, a: Action)
    requires Inv(cfg, s) && cfg.Valid()
    ensures Inv(cfg, Next(cfg, s, a))
  {
    if Next(cfg, s, a) != s {
      match a
      case TryAcquire(i, exited, choice) => AcquireKeepsInv(cfg, s, i, exited, choice);
      case ReserveName(i) => ReserveForKeepsInv(cfg, s, i);
      case SpawnFails(i) => SpawnFailsKeepsInv(cfg, s, i);
      case SpawnEnds(i, learnt, now) => EndSpawnKeepsInv(cfg, s, i, learnt, now);
      case MarkLease(i) => MarkKeepsInv(cfg, s, i);
      case ReleaseLease(name, now) => ReleaseKeepsInv(cfg, s, name, now);
      case KeeperReserves => KeeperReservesKeepsInv(cfg, s);
      case KeeperSpawns(learnt, now) => KeeperRegisterKeepsInv(cfg, s, learnt, now);
      case _ => QuietActionKeepsInv(cfg, s, a);
    }
  }

  // ----- how far the family can grow

  // Spawns the reconcile loop still owes by the count it read.
  function Owes(cfg: Config, keeper: Keeper): nat {
    if keeper.Resting? || keeper.count >= cfg.st.warm then 0 else cfg.st.warm - keeper.count
  }

  // Active children, and those already decided on.
  function Potential(cfg: Config, s: State): nat {
    Active(s.v.children) + Count(s.slots, Grows()) + Owes(cfg, s.keeper)
  }

  // Children in the making: names reserved by a spawn that has not ended.
  function InFlight(s: State): nat {
    Count(s.slots, (x: Slot) => x.Spawning?) + if s.keeper.Launching? then 1 else 0
  }

  lemma {:induction false} SpawningGrows(slots: seq<Slot>)
    ensures Count(slots, (x: Slot) => x.Spawning?) <= Count(slots, Grows())
  {
    if slots != [] { SpawningGrows(slots[..|slots| - 1]); }
  }

  lemma DecidePotential(cfg: Config, s: State, i: nat)
    requires i < |s.slots| && s.slots[i].Free? && Active(s.v.children) < cfg.st.max
    ensures Potential(cfg, s.(slots := s.slots[i := Deciding]))
            <= cfg.st.max + Count(s.slots, Grows()) + Owes(cfg, s.keeper)
  {
    CountAfterUpdate(s.slots, i, Deciding, Grows());
  }

  lemma AcquirePotential(cfg: Config, s: State, i: nat, exited: set<string>, choice: string)
    requires Consistent(s.v, cfg.nm) && i < |s.slots| == cfg.clients && s.slots[i].Free?
    ensures var t := Acquire(cfg, s, i, exited, choice);
            Potential(cfg, t) <= Max(Potential(cfg, s), cfg.st.max + Count(s.slots, Grows()) + Owes(cfg, s.keeper))
    ensures Count(s.slots, Grows()) < cfg.clients
  {
    var pruned := s.(v := Prune(s.v, exited));
    PruneKeepsValid(s.v, cfg.nm, exited);
    CountLeavesOut(s.slots, i, Grows());
    if FirstIdle(pruned.v.children, choice) {
      MarkBusyKeepsValid(pruned.v, cfg.nm, choice);
    } else if NoIdle(pruned.v.children) && Active(pruned.v.children) < cfg.st.max {
      DecidePotential(cfg, pruned, i);
    }
  }

  lemma CallPotential(cfg: Config, s: State, a: Action)
    requires Inv(cfg, s) && cfg.Valid()
    requires a.ReserveName? || a.SpawnFails? || a.SpawnEnds? || a.MarkLease? || a.ReleaseLease?
    ensures Potential(cfg, Next(cfg, s, a)) <= Potential(cfg, s)
  {
    if Next(cfg, s, a) != s {
      match a
      case ReserveName(i) => CountAfterUpdate(s.slots, i, Spawning(cfg.nm.name(s.v.next)), Grows());
      case SpawnFails(i) => CountAfterUpdate(s.slots, i, Free, Grows());
      case SpawnEnds(i, learnt, now) => EndSpawnPotential(cfg, s, i, learnt, now);
      case MarkLease(i) =>
        MarkBusyKeepsValid(s.v, cfg.nm, s.slots[i].name);
        CountAfterUpdate(s.slots, i, Free, Grows());
      case ReleaseLease(name, now) => Containers.ReleaseKeepsValid(s.v, cfg.nm, name, now);
    }
  }

  lemma KeeperPotential(cfg: Config, s: State, a: Action)
    requires Inv(cfg, s) && cfg.Valid()
    requires a.KeeperReserves? || a.KeeperFails? || a.KeeperSpawns? || a.KeeperScales? || a.Refresh? || a.CloseAll?
    ensures Potential(cfg, Next(cfg, s, a)) <= Potential(cfg, s)
  {
    if Next(cfg, s, a) != s {
      match a
      case KeeperSpawns(learnt, now) =>
        SpawnedNameIsNew(cfg, s, s.keeper.name);
        RegisterKeepsValid(s.v, cfg.nm, cfg.st.language, s.keeper.name, learnt, now);
      case KeeperScales(order, now) => ScaleDownKeepsValid(s.v, cfg.nm, cfg.st, order, now);
      case CloseAll => StopAllKeepsValid(s.v, cfg.nm);
      case _ =>
    }
  }

  // Only a decision to grow and a reconcile turn can raise the potential: the
  // one up to the maximum and the other up to the warm replicas, each on top of
  // what others have already decided.
  lemma StepPotential(cfg: Config, s: State, a: Action)
    requires Inv(cfg, s) && cfg.Valid()
    ensures var t := Next(cfg, s, a);
            Potential(cfg, t) <= Potential(cfg, s)
            || (a.TryAcquire? && InPhase(s, a.slot, (x: Slot) => x.Free?) && Count(s.slots, Grows()) < cfg.clients
                && Potential(cfg, t) <= cfg.st.max + Count(s.slots, Grows()) + Owes(cfg, s.keeper))
            || (a.Reconcile? && s.keeper.Resting?
                && Potential(cfg, t) <= Max(Active(s.v.children), cfg.st.warm) + Count(s.slots, Grows()))
  {
    match a
    case TryAcquire(i, exited, choice) =>
      if Next(cfg, s, a) != s { AcquirePotential(cfg, s, i, exited, choice); }
    case Reconcile(exited) => PruneKeepsValid(s.v, cfg.nm, exited);
    case _ =>
      if a.ReserveName? || a.SpawnFails? || a.SpawnEnds? || a.MarkLease? || a.ReleaseLease? {
        CallPotential(cfg, s, a);
      } else {
        KeeperPotential(cfg, s, a);
      }
  }

  lemma EndSpawnPotential(cfg: Config, s: State, i: nat, learnt: seq<string>, now: nat)
    requires Inv(cfg, s) && cfg.Valid() && i < |s.slots| && s.slots[i].Spawning? && now > 0
    ensures Potential(cfg, EndSpawn(cfg, s, i, learnt, now)) <= Potential(cfg, s)
  {
    var spawned := s.slots[i].name;
    CountFinds(s.slots, i, Spawns(spawned));
    SpawnedNameIsNew(cfg, s, spawned);
    RegisterKeepsValid(s.v, cfg.nm, cfg.st.language, spawned, learnt, now);
    CountAfterUpdate(s.slots, i, if s.v.stopped then Free else Marking(spawned), Grows());
  }

  // ----- runs

  ghost function Run(cfg: Config, s: State, actions: seq<Action>): State {
    if actions == [] then s else Next(cfg, Run(cfg, s, actions[..|actions| - 1]), actions[|actions| - 1])
  }

  ghost predicate Reachable(cfg: Config, s: State) {
    exists origin, actions :: Initial(cfg, origin) && s == Run(cfg, origin, actions)
  }

  lemma {:induction false} RunKeepsInv(cfg: Config, origin: State, actions: seq<Action>)
    requires Initial(cfg, origin) && cfg.Valid()
    ensures Inv(cfg, Run(cfg, origin, actions))
  {
    if actions == [] {
      InitialInv(cfg, origin);
    } else {
      RunKeepsInv(cfg, origin, actions[..|actions| - 1]);
      StepKeepsInv(cfg, Run(cfg, origin, actions[..|actions| - 1]), actions[|actions| - 1]);
    }
  }

  // After any run the family's names in the registry are exactly its children, at
  // equal endpoints, and no child shares a name with a spawn under way.
  lemma RegistryAgrees(cfg: Config, origin: State, actions: seq<Action>)
    requires Initial(cfg, origin) && cfg.Valid()
    ensures var s := Run(cfg, origin, actions);
            && Agrees(s.v, cfg.nm)
            && forall name :: Flying(s, name) + (if name in s.v.children then 1 else 0) <= 1
  {
    var s := Run(cfg, origin, actions);
    RunKeepsInv(cfg, origin, actions);
    forall name ensures Flying(s, name) + (if name in s.v.children then 1 else 0) <= 1 {
      assert NameInv(cfg, s, name);
    }
  }

  lemma StepStaysBounded(cfg: Config, s: State, a: Action)
    requires Inv(cfg, s) && cfg.Valid() && Potential(cfg, s) <= cfg.st.max - 1 + cfg.clients + cfg.st.warm
    ensures Potential(cfg, Next(cfg, s, a)) <= cfg.st.max - 1 + cfg.clients + cfg.st.warm
  {
    StepPotential(cfg, s, a);
    assert Owes(cfg, s.keeper) <= cfg.st.warm;
  }

  lemma {:induction false} PotentialIsBounded(cfg: Config, origin: State, actions: seq<Action>)
    requires Initial(cfg, origin) && cfg.Valid()
    ensures Potential(cfg, Run(cfg, origin, actions)) <= cfg.st.max - 1 + cfg.clients + cfg.st.warm
  {
    if actions == [] {
      CountOfNone(origin.slots, Grows());
    } else {
      var before, a := actions[..|actions| - 1], actions[|actions| - 1];
      PotentialIsBounded(cfg, origin, before);
      RunKeepsInv(cfg, origin, before);
      StepStaysBounded(cfg, Run(cfg, origin, before), a);
    }
  }

  lemma FlightsAreOwed(cfg: Config, s: State)
    requires Inv(cfg, s)
    ensures Active(s.v.children) + InFlight(s) <= Potential(cfg, s)
  {
    SpawningGrows(s.slots);
  }

  // Overshoot: active children and spawns under way never exceed
  // max - 1 + overlapping acquires + warm.
  lemma OvershootIsBounded(cfg: Config, origin: State, actions: seq<Action>)
    requires Initial(cfg, origin) && cfg.Valid()
    ensures var s := Run(cfg, origin, actions);
            Active(s.v.children) + InFlight(s) <= cfg.st.max - 1 + cfg.clients + cfg.st.warm
  {
    PotentialIsBounded(cfg, origin, actions);
    RunKeepsInv(cfg, origin, actions);
    FlightsAreOwed(cfg, Run(cfg, origin, actions));
  }

  // At most two callers ever share a child, whatever the number of overlapping calls.
  lemma AtMostTwoHolders(cfg: Config, origin: State, actions: seq<Action>, name: string)
    requires Initial(cfg, origin) && cfg.Valid()
    ensures Run(cfg, origin, actions).leases[name] <= 2
  {
    RunKeepsInv(cfg, origin, actions);
    assert NameInv(cfg, Run(cfg, origin, actions), name);
  }

  // ----- when calls do not overlap

  predicate Alone(s: State) {
    s.keeper.Resting? && forall i :: 0 <= i < |s.slots| ==> s.slots[i].Free?
  }

  // Every acquire and every reconcile turn starts when no other is under way.
  ghost predicate Sequential(cfg: Config, origin: State, actions: seq<Action>) {
    forall i :: 0 <= i < |actions| && (actions[i].TryAcquire? || actions[i].Reconcile?) ==>
      Alone(Run(cfg, origin, actions[..i]))
  }

  ghost predicate Exclusive(s: State, name: string) {
    Holders(s, name) <= 1 && (Unleased(s, name) ==> s.leases[name] == 0)
  }

  lemma AcquireKeepsExclusive(cfg: Config, s: State, i: nat, exited: set<string>, choice: string, name: string)
    requires Exclusive(s, name) && i < |s.slots| && s.slots[i].Free?
    requires forall j :: 0 <= j < |s.slots| ==> !s.slots[j].Marking?
    ensures Exclusive(Acquire(cfg, s, i, exited, choice), name)
  {
    CountOfNone(s.slots, Marks(name));
    CountAfterUpdate(s.slots, i, Deciding, Marks(name));
    var pruned := Prune(s.v, exited);
    if FirstIdle(pruned.children, choice) { assert Unleased(s, choice); }
  }

  lemma EndSpawnKeepsExclusive(cfg: Config, s: State, i: nat, learnt: seq<string>, now: nat, name: string)
    requires NameInv(cfg, s, name) && Exclusive(s, name) && i < |s.slots| && s.slots[i].Spawning?
    ensures Exclusive(EndSpawn(cfg, s, i, learnt, now), name)
  {
    CountFinds(s.slots, i, Spawns(s.slots[i].name));
    CountAfterUpdate(s.slots, i, if s.v.stopped then Free else Marking(s.slots[i].name), Marks(name));
  }

  lemma PhaseKeepsExclusive(s: State, t: State, i: nat, x: Slot, name: string)
    requires Exclusive(s, name) && i < |s.slots| && !s.slots[i].Marking? && !x.Marking?
    requires t.slots == s.slots[i := x] && t.v.children == s.v.children && t.leases == s.leases
    ensures Exclusive(t, name)
  {
    CountAfterUpdate(s.slots, i, x, Marks(name));
  }

  lemma MarkKeepsExclusive(s: State, i: nat, name: string)
    requires Exclusive(s, name) && i < |s.slots| && s.slots[i].Marking?
    ensures Exclusive(Mark(s, i), name)
  {
    CountAfterUpdate(s.slots, i, Free, Marks(name));
  }

  lemma StepKeepsExclusive(cfg: Config, s: State, a: Action, name: string)
    requires Inv(cfg, s) && cfg.Valid() && Exclusive(s, name)
    requires a.TryAcquire? ==> forall i :: 0 <= i < |s.slots| ==> !s.slots[i].Marking?
    ensures Exclusive(Next(cfg, s, a), name)
  {
    assert NameInv(cfg, s, name);
    if Next(cfg, s, a) != s {
      match a
      case TryAcquire(i, exited, choice) => AcquireKeepsExclusive(cfg, s, i, exited, choice, name);
      case ReserveName(i) => PhaseKeepsExclusive(s, ReserveFor(cfg, s, i), i, Spawning(cfg.nm.name(s.v.next)), name);
      case SpawnFails(i) => PhaseKeepsExclusive(s, s.(slots := s.slots[i := Free]), i, Free, name);
      case SpawnEnds(i, learnt, now) => EndSpawnKeepsExclusive(cfg, s, i, learnt, now, name);
      case MarkLease(i) => MarkKeepsExclusive(s, i, name);
      case _ =>
    }
  }

  // Runs whose acquires and reconcile turns do not overlap stay within the
  // maximum, and every lease is exclusive.
  lemma {:induction false} SequentialRunsAreSafe(cfg: Config, origin: State, actions: seq<Action>)
    requires Initial(cfg, origin) && cfg.Valid() && Sequential(cfg, origin, actions)
    ensures var s := Run(cfg, origin, actions);
            Potential(cfg, s) <= cfg.st.max && forall name :: Exclusive(s, name)
  {
    if actions == [] {
      CountOfNone(origin.slots, Grows());
      forall name ensures Exclusive(origin, name) { CountOfNone(origin.slots, Marks(name)); }
    } else {
      var before, a := actions[..|actions| - 1], actions[|actions| - 1];
      var s := Run(cfg, origin, before);
      forall i | 0 <= i < |before| ensures actions[..i] == before[..i] && actions[i] == before[i] {}
      SequentialRunsAreSafe(cfg, origin, before);
      RunKeepsInv(cfg, origin, before);
      StepPotential(cfg, s, a);
      if Alone(s) { CountOfNone(s.slots, Grows()); }
      forall name ensures Exclusive(Next(cfg, s, a), name) {
        StepKeepsExclusive(cfg, s, a, name);
      }
    }
  }

  // ----- the bounds are exact

  // Reserving and registering the next name adds one idle child.
  function Grown(cfg: Config, v: FamilyState): FamilyState {
    Register(v.(next := v.next + 1), cfg.nm, cfg.st.language, cfg.nm.name(v.next), [], 1)
  }

  lemma GrownByOne(cfg: Config, v: FamilyState)
    requires cfg.Valid() && Consistent(v, cfg.nm) && !v.stopped
    ensures var name := cfg.nm.name(v.next);
            && name !in v.children && Grown(cfg, v).children == v.children[name := NewChild(cfg, name)]
            && !Grown(cfg, v).stopped && Active(Grown(cfg, v).children) == Active(v.children) + 1
    ensures Consistent(Grown(cfg, v), cfg.nm)
  {
    ReserveKeepsValid(v, cfg.nm);
    RegisterKeepsValid(v.(next := v.next + 1), cfg.nm, cfg.st.language, cfg.nm.name(v.next), [], 1);
  }

  function NewChild(cfg: Config, name: string): Child {
    Child(cfg.nm.endpoint(name), true, false, true, false, 1)
  }

  const NO_FAMILY := FamilyState(map[], 1, [], false, map[])

  lemma NoFamilyIsConsistent(nm: Naming)
    ensures Consistent(NO_FAMILY, nm) && !NO_FAMILY.stopped && Active(NO_FAMILY.children) == 0
  {
    assert ActiveNames(NO_FAMILY.children) == {};
  }

  // A start that adopts nothing and spawns the warm replicas.
  lemma {:induction false} WarmFamily(cfg: Config, count: nat) returns (v: FamilyState)
    requires cfg.Valid()
    ensures Consistent(v, cfg.nm) && !v.stopped && Active(v.children) == count
  {
    if count == 0 {
      NoFamilyIsConsistent(cfg.nm);
      v := NO_FAMILY;
    } else {
      var smaller := WarmFamily(cfg, count - 1);
      GrownByOne(cfg, smaller);
      v := Grown(cfg, smaller);
    }
  }

  lemma Started(cfg: Config) returns (s: State)
    requires cfg.Valid()
    ensures Initial(cfg, s) && Reachable(cfg, s)
  {
    var v := WarmFamily(cfg, cfg.st.warm);
    s := State(v, seq(cfg.clients, _ => Free), Resting, multiset{});
    assert Run(cfg, s, []) == s;
  }

  // A set of states that steps never leave.
  ghost predicate Closed(cfg: Config, reached: State -> bool) {
    && (forall s, a :: reached(s) ==> reached(Next(cfg, s, a)))
    && (forall s :: reached(s) ==> Consistent(s.v, cfg.nm) && |s.slots| == cfg.clients)
  }

  ghost function ReachedBy(cfg: Config): State -> bool { s => Reachable(cfg, s) }

  lemma RunOneMore(cfg: Config, origin: State, actions: seq<Action>, a: Action)
    ensures Run(cfg, origin, actions + [a]) == Next(cfg, Run(cfg, origin, actions), a)
  {
    assert (actions + [a])[..|actions|] == actions;
  }

  lemma ReachableIsClosed(cfg: Config)
    requires cfg.Valid()
    ensures Closed(cfg, ReachedBy(cfg))
  {
    forall s, a | ReachedBy(cfg)(s) ensures ReachedBy(cfg)(Next(cfg, s, a)) {
      var origin, actions :| Initial(cfg, origin) && s == Run(cfg, origin, actions);
      RunOneMore(cfg, origin, actions, a);
    }
    forall s | ReachedBy(cfg)(s) ensures Consistent(s.v, cfg.nm) && |s.slots| == cfg.clients {
      var origin, actions :| Initial(cfg, origin) && s == Run(cfg, origin, actions);
      RunKeepsInv(cfg, origin, actions);
    }
  }

  lemma Step(cfg: Config, reached: State -> bool, s: State, a: Action, t: State)
    requires Closed(cfg, reached) && reached(s) && t == Next(cfg, s, a)
    ensures reached(t)
  {
  }

  lemma PruneOfNone(v: FamilyState)
    ensures Prune(v, {}) == v
  {
    assert v.children - {} == v.children && v.services - ({} * v.children.Keys) == v.services;
  }

  // A call that finds nothing idle below the maximum decides to grow.
  lemma Decide(cfg: Config, reached: State -> bool, s: State, i: nat) returns (t: State)
    requires Closed(cfg, reached) && reached(s) && !s.v.stopped && i < |s.slots| && s.slots[i].Free?
    requires NoIdle(s.v.children) && Active(s.v.children) < cfg.st.max
    ensures reached(t) && t == s.(slots := s.slots[i := Deciding])
  {
    t := s.(slots := s.slots[i := Deciding]);
    PruneOfNone(s.v);
    Step(cfg, reached, s, TryAcquire(i, {}, ""), t);
  }

  // A call that decided to grow registers an idle child.
  lemma Spawn(cfg: Config, reached: State -> bool, s: State, i: nat) returns (t: State)
    requires Closed(cfg, reached) && reached(s) && !s.v.stopped && i < |s.slots| && s.slots[i].Deciding?
    ensures reached(t) && t == s.(v := Grown(cfg, s.v), slots := s.slots[i := Marking(cfg.nm.name(s.v.next))])
  {
    var reserved := ReserveFor(cfg, s, i);
    Step(cfg, reached, s, ReserveName(i), reserved);
    t := EndSpawn(cfg, reserved, i, [], 1);
    Step(cfg, reached, reserved, SpawnEnds(i, [], 1), t);
    assert reserved.slots[i := Marking(cfg.nm.name(s.v.next))] == s.slots[i := Marking(cfg.nm.name(s.v.next))];
  }

  // A caller that takes its new child leaves nothing idle behind.
  lemma TakeNew(cfg: Config, v: FamilyState, w: FamilyState, name: string)
    requires NoIdle(v.children) && w.children == v.children[name := NewChild(cfg, name)] && name !in v.children
    ensures NoIdle(MarkBusy(w, name).children) && Active(MarkBusy(w, name).children) == Active(w.children)
    ensures FirstIdle(w.children, name)
  {
    assert ActiveNames(MarkBusy(w, name).children) == ActiveNames(w.children);
  }

  // A caller that finds nothing idle ends up with a lease on a new child.
  lemma GrowAndTake(cfg: Config, reached: State -> bool, s: State) returns (t: State)
    requires cfg.Valid() && Closed(cfg, reached) && reached(s) && !s.v.stopped && |s.slots| > 0 && s.slots[0].Free?
    requires NoIdle(s.v.children) && Active(s.v.children) < cfg.st.max
    ensures reached(t) && !t.v.stopped && t.slots == s.slots && t.keeper == s.keeper
    ensures NoIdle(t.v.children) && Active(t.v.children) == Active(s.v.children) + 1
  {
    var name := cfg.nm.name(s.v.next);
    var deciding := Decide(cfg, reached, s, 0);
    GrownByOne(cfg, s.v);
    var spawned := Spawn(cfg, reached, deciding, 0);
    TakeNew(cfg, s.v, spawned.v, name);
    t := Mark(spawned, 0);
    Step(cfg, reached, spawned, MarkLease(0), t);
    assert t.slots == s.slots;
  }

  // One caller after the other, every child stays leased.
  lemma {:induction false} Fill(cfg: Config, reached: State -> bool, s: State, count: nat) returns (t: State)
    requires cfg.Valid() && Closed(cfg, reached) && reached(s) && !s.v.stopped && |s.slots| > 0 && s.slots[0].Free?
    requires s.v.children == map[] && count < cfg.st.max
    ensures reached(t) && !t.v.stopped && t.slots == s.slots && t.keeper == s.keeper
    ensures NoIdle(t.v.children) && Active(t.v.children) == count
  {
    if count == 0 {
      t := s;
      assert ActiveNames(t.v.children) == {};
    } else {
      t := Fill(cfg, reached, s, count - 1);
      t := GrowAndTake(cfg, reached, t);
    }
  }

  // Then every call decides to grow before any of them spawns.
  lemma {:induction false} DecideAll(cfg: Config, reached: State -> bool, s: State, count: nat) returns (t: State)
    requires Closed(cfg, reached) && reached(s) && !s.v.stopped && count <= |s.slots|
    requires forall i :: 0 <= i < |s.slots| ==> s.slots[i].Free?
    requires NoIdle(s.v.children) && Active(s.v.children) < cfg.st.max
    ensures reached(t) && t == s.(slots := t.slots) && |t.slots| == |s.slots|
    ensures forall i :: 0 <= i < |s.slots| ==> t.slots[i] == if i < count then Deciding else Free
  {
    if count == 0 {
      t := s;
    } else {
      var before := DecideAll(cfg, reached, s, count - 1);
      t := Decide(cfg, reached, before, count - 1);
    }
  }

  lemma {:induction false} SpawnAll(cfg: Config, reached: State -> bool, s: State, count: nat) returns (t: State)
    requires cfg.Valid() && Closed(cfg, reached) && reached(s) && !s.v.stopped && count <= |s.slots|
    requires forall i :: 0 <= i < |s.slots| ==> s.slots[i].Deciding?
    ensures reached(t) && !t.v.stopped && t.keeper == s.keeper && |t.slots| == |s.slots|
    ensures forall i :: count <= i < |s.slots| ==> t.slots[i].Deciding?
    ensures Active(t.v.children) == Active(s.v.children) + count
  {
    if count == 0 {
      t := s;
    } else {
      var before := SpawnAll(cfg, reached, s, count - 1);
      GrownByOne(cfg, before.v);
      t := Spawn(cfg, reached, before, count - 1);
    }
  }

  lemma KeepOne(cfg: Config, reached: State -> bool, s: State) returns (t: State)
    requires Closed(cfg, reached) && reached(s) && !s.v.stopped && s.keeper.Growing? && s.keeper.count < cfg.st.warm
    ensures reached(t) && t == s.(v := Grown(cfg, s.v), keeper := Growing(s.keeper.count + 1))
  {
    var reserved := s.(v := s.v.(next := s.v.next + 1), keeper := Launching(s.keeper.count, cfg.nm.name(s.v.next)));
    Step(cfg, reached, s, KeeperReserves, reserved);
    t := KeeperRegister(cfg, reserved, [], 1);
    Step(cfg, reached, reserved, KeeperSpawns([], 1), t);
  }

  // Last, the reconcile loop spawns by a count it read when there was nothing.
  lemma {:induction false} KeepAll(cfg: Config, reached: State -> bool, s: State, count: nat) returns (t: State)
    requires cfg.Valid() && Closed(cfg, reached) && reached(s) && !s.v.stopped
    requires s.keeper == Growing(0) && count <= cfg.st.warm
    ensures reached(t) && !t.v.stopped && t.keeper == Growing(count)
    ensures Active(t.v.children) == Active(s.v.children) + count
  {
    if count == 0 {
      t := s;
    } else {
      var before := KeepAll(cfg, reached, s, count - 1);
      GrownByOne(cfg, before.v);
      t := KeepOne(cfg, reached, before);
    }
  }

  lemma PruneOfAll(v: FamilyState, exited: set<string>)
    requires exited == v.children.Keys
    ensures Prune(v, exited).children == map[] && Active(Prune(v, exited).children) == 0
  {
    assert ActiveNames(Prune(v, exited).children) == {};
  }

  // When every child a start left has exited, a reconcile turn finds nothing.
  lemma Emptied(cfg: Config, reached: State -> bool, s: State) returns (t: State)
    requires Initial(cfg, s) && Closed(cfg, reached) && reached(s)
    ensures reached(t) && !t.v.stopped && t.v.children == map[] && t.keeper == Growing(0)
    ensures Active(t.v.children) == 0 && t.leases == multiset{}
    ensures |t.slots| == cfg.clients && forall i :: 0 <= i < |t.slots| ==> t.slots[i].Free?
  {
    var exited := s.v.children.Keys;
    PruneOfAll(s.v, exited);
    t := s.(v := Prune(s.v, exited), keeper := Growing(0));
    Step(cfg, reached, s, Reconcile(exited), t);
  }

  lemma WorstCase(cfg: Config, reached: State -> bool, origin: State) returns (s: State)
    requires cfg.Valid() && Closed(cfg, reached) && Initial(cfg, origin) && reached(origin)
    ensures reached(s) && Active(s.v.children) == cfg.st.max - 1 + cfg.clients + cfg.st.warm
  {
    s := Emptied(cfg, reached, origin);
    s := Fill(cfg, reached, s, cfg.st.max - 1);
    s := DecideAll(cfg, reached, s, cfg.clients);
    s := SpawnAll(cfg, reached, s, cfg.clients);
    s := KeepAll(cfg, reached, s, cfg.st.warm);
  }

  // Every configuration can reach the bound of OvershootIsBounded.
  lemma OvershootIsReached(cfg: Config)
    requires cfg.Valid()
    ensures exists s :: Reachable(cfg, s) && Active(s.v.children) == cfg.st.max - 1 + cfg.clients + cfg.st.warm
  {
    var origin := Started(cfg);
    ReachableIsClosed(cfg);
    var s := WorstCase(cfg, ReachedBy(cfg), origin);
  }

  // The maximum is kept by every run exactly when acquires cannot overlap and
  // the reconcile loop never spawns.
  lemma CapHoldsIff(cfg: Config)
    requires cfg.Valid()
    ensures (forall s :: Reachable(cfg, s) ==> Active(s.v.children) <= cfg.st.max) <==> cfg.clients == 1 && cfg.st.warm == 0
  {
    OvershootIsReached(cfg);
    forall s | Reachable(cfg, s) && cfg.clients == 1 && cfg.st.warm == 0 ensures Active(s.v.children) <= cfg.st.max {
      var origin, actions :| Initial(cfg, origin) && s == Run(cfg, origin, actions);
      OvershootIsBounded(cfg, origin, actions);
    }
  }

  lemma ShareIdle(cfg: Config, reached: State -> bool, s: State, name: string) returns (t: State)
    requires Closed(cfg, reached) && reached(s) && !s.v.stopped && |s.slots| >= 2
    requires s.slots[0] == Marking(name) && s.slots[1].Free? && FirstIdle(s.v.children, name)
    ensures reached(t) && t.leases[name] == s.leases[name] + 2
  {
    PruneOfNone(s.v);
    var shared := s.(v := MarkBusy(s.v, name), leases := s.leases + multiset{name});
    Step(cfg, reached, s, TryAcquire(1, {}, name), shared);
    t := Mark(shared, 0);
    Step(cfg, reached, shared, MarkLease(0), t);
  }

  // A caller that finds nothing idle is about to lease a new child that is idle still.
  lemma SpawnIdle(cfg: Config, reached: State -> bool, s: State, name: string) returns (t: State)
    requires cfg.Valid() && Closed(cfg, reached) && reached(s) && !s.v.stopped && |s.slots| > 0 && s.slots[0].Free?
    requires NoIdle(s.v.children) && Active(s.v.children) < cfg.st.max && name == cfg.nm.name(s.v.next)
    ensures reached(t) && !t.v.stopped && t.slots == s.slots[0 := Marking(name)] && t.leases == s.leases
    ensures FirstIdle(t.v.children, name)
  {
    var deciding := Decide(cfg, reached, s, 0);
    GrownByOne(cfg, s.v);
    t := Spawn(cfg, reached, deciding, 0);
    TakeNew(cfg, s.v, t.v, name);
    assert t.slots == s.slots[0 := Marking(name)];
  }

  lemma ShareNew(cfg: Config, reached: State -> bool, origin: State) returns (s: State, name: string)
    requires cfg.Valid() && cfg.clients >= 2 && Closed(cfg, reached) && Initial(cfg, origin) && reached(origin)
    ensures reached(s) && s.leases[name] == 2
  {
    var empty := Emptied(cfg, reached, origin);
    name := cfg.nm.name(empty.v.next);
    s := SpawnIdle(cfg, reached, empty, name);
    s := ShareIdle(cfg, reached, s, name);
  }

  // With two overlapping calls the second finds the first one's new child still
  // idle and leases it too.
  lemma TwoCallersShare(cfg: Config)
    requires cfg.Valid() && cfg.clients >= 2
    ensures exists s, name :: Reachable(cfg, s) && s.leases[name] == 2
  {
    var origin := Started(cfg);
    ReachableIsClosed(cfg);
    var s, name := ShareNew(cfg, ReachedBy(cfg), origin);
  }

  lemma OneClientStep(cfg: Config, s: State, a: Action, name: string)
    requires Inv(cfg, s) && cfg.Valid() && cfg.clients == 1 && Exclusive(s, name)
    ensures Exclusive(Next(cfg, s, a), name)
  {
    if Next(cfg, s, a) != s { StepKeepsExclusive(cfg, s, a, name); }
  }

  lemma {:induction false} OneClientExcludes(cfg: Config, origin: State, actions: seq<Action>, name: string)
    requires Initial(cfg, origin) && cfg.Valid() && cfg.clients == 1
    ensures Exclusive(Run(cfg, origin, actions), name)
  {
    if actions == [] {
      CountOfNone(origin.slots, Marks(name));
    } else {
      var before, a := actions[..|actions| - 1], actions[|actions| - 1];
      OneClientExcludes(cfg, origin, before, name);
      RunKeepsInv(cfg, origin, before);
      OneClientStep(cfg, Run(cfg, origin, before), a, name);
    }
  }

  // Leases are exclusive in every run exactly when acquires cannot overlap.
  lemma ExclusiveIff(cfg: Config)
    requires cfg.Valid()
    ensures (forall s, name :: Reachable(cfg, s) ==> s.leases[name] <= 1) <==> cfg.clients == 1
  {
    if cfg.clients >= 2 {
      TwoCallersShare(cfg);
    } else {
      forall s, name | Reachable(cfg, s) ensures s.leases[name] <= 1 {
        var origin, actions :| Initial(cfg, origin) && s == Run(cfg, origin, actions);
        OneClientExcludes(cfg, origin, actions, name);
      }
    }
  }
}
