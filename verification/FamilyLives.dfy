// What single turns of the container pool do to its replicas, how long a released
// replica stays, and which replicas are never stopped: laws over the steps and runs of
// Autoscaler, told by the children before and after.
module FamilyLives {
  import opened Ordering
  import opened Text
  import opened Containers
  import opened ServiceRegistry
  import opened Autoscaler

  type Children = map<string, Child>

  // Every child of p but n is in q as it was.
  ghost predicate OthersStay(p: Children, q: Children, n: string) {
    forall m :: m in p && m != n ==> m in q && q[m] == p[m]
  }

  // ----- single turns

  // A call that finds an idle replica leases the one idle longest; a call that finds
  // none decides to grow iff fewer than the maximum are active.  Exited ones go first.
  lemma AcquireTurn(cfg: Config, s: State, i: nat, exited: set<string>, choice: string, t: State)
    requires i < |s.slots| && s.slots[i].Free? && !s.v.stopped && t == Next(cfg, s, TryAcquire(i, exited, choice)) && t != s
    ensures var p, q := s.v.children, t.v.children;
            && q.Keys == p.Keys - exited
            && (forall n :: n in t.v.services <==> n in s.v.services && !(n in p && n in exited))
            && (forall n :: n in t.v.services ==> t.v.services[n] == s.v.services[n])
            && (if t.leases == s.leases then
                  && (forall n :: n in q ==> q[n] == p[n] && (q[n].busy || q[n].stopping || !q[n].healthy))
                  && (Active(q) < cfg.st.max ==> t.slots == s.slots[i := Deciding])
                  && (Active(q) >= cfg.st.max ==> t.slots == s.slots)
                else
                  && t.leases == s.leases + multiset{choice} && t.slots == s.slots
                  && choice in q && !p[choice].busy && !p[choice].stopping && p[choice].healthy
                  && q[choice] == p[choice].(busy := true, lastIdleAt := 0)
                  && (forall n :: n in q && n != choice ==> q[n] == p[n])
                  && (forall n :: n in q && !p[n].busy && !p[n].stopping && p[n].healthy ==>
                        p[choice].lastIdleAt <= p[n].lastIdleAt))
  {
    var pruned := Prune(s.v, exited);
    if FirstIdle(pruned.children, choice) {
      assert t.leases[choice] == s.leases[choice] + 1;
    } else {
      assert t.leases == s.leases;
    }
  }

  // A released replica is idle from then on, and no other is touched.
  lemma ReleaseTurn(cfg: Config, s: State, n: string, now: nat, t: State)
    requires n in s.leases && now > 0 && t == Next(cfg, s, ReleaseLease(n, now))
    ensures t.leases == s.leases - multiset{n} && t.v.services == s.v.services && t.v.children.Keys == s.v.children.Keys
    ensures OthersStay(s.v.children, t.v.children, n)
    ensures n in s.v.children ==> t.v.children[n] == s.v.children[n].(busy := false, lastIdleAt := now)
  {
  }

  // A spawn that ends, of a call or of the reconcile loop: unless the pool was stopped
  // there is one more managed, idle replica, open for what was learnt.
  ghost predicate Spawned(cfg: Config, v: FamilyState, w: FamilyState, n: string, learnt: seq<string>, now: nat) {
    var operations := if learnt == [] then v.operations else learnt;
    && w.operations == operations && w.next == v.next && w.stopped == v.stopped
    && (if v.stopped then w.children == v.children && w.services == v.services
        else
          && w.children == v.children[n := Child(cfg.nm.endpoint(n), true, false, true, false, now)]
          && w.services == v.services[n := Service(n, cfg.st.language, cfg.nm.endpoint(n), true, false, true, "", 0,
                                                   set op | op in NormalizedList(operations))])
  }

  lemma SpawnTurn(cfg: Config, s: State, i: nat, learnt: seq<string>, now: nat, t: State)
    requires i < |s.slots| && s.slots[i].Spawning? && now > 0 && t == Next(cfg, s, SpawnEnds(i, learnt, now))
    ensures Spawned(cfg, s.v, t.v, s.slots[i].name, learnt, now)
    ensures t.slots == s.slots[i := if s.v.stopped then Free else Marking(s.slots[i].name)]
  {
  }

  lemma KeeperSpawnTurn(cfg: Config, s: State, learnt: seq<string>, now: nat, t: State)
    requires s.keeper.Launching? && now > 0 && t == Next(cfg, s, KeeperSpawns(learnt, now))
    ensures Spawned(cfg, s.v, t.v, s.keeper.name, learnt, now)
    ensures t.keeper == if s.v.stopped then Resting else Growing(s.keeper.count + 1)
  {
  }

  // May be stopped: managed, idle since a known time and for long enough.
  ghost predicate LongIdle(st: Settings, child: Child, now: nat) {
    child.managed && !child.busy && !child.stopping && child.lastIdleAt != 0 && now - child.lastIdleAt >= st.idleScaleDown
  }

  // The scale-down turn stops only such replicas, the longest idle first, and never below
  // the warm ones; while more are active none of those stays.
  lemma ScaleTurn(cfg: Config, s: State, order: seq<string>, now: nat, t: State)
    requires Consistent(s.v, cfg.nm) && s.keeper.Growing? && s.keeper.count >= cfg.st.warm && Visits(order, s.v.children)
    requires t == Next(cfg, s, KeeperScales(order, now))
    ensures ScaledDown(cfg.st, s.v, t.v, now) && t.keeper == Resting && t.leases == s.leases && t.slots == s.slots
  {
    FamilyScalesDown(s.v, cfg.nm, cfg.st, order, now, Victims(s.v, cfg.st, order, now));
  }

  lemma FamilyScalesDown(v: FamilyState, nm: Naming, st: Settings, order: seq<string>, now: nat, victims: seq<string>)
    requires Consistent(v, nm) && Visits(order, v.children) && victims == Victims(v, st, order, now)
    ensures ScaledDown(st, v, Without(v, victims), now)
  {
    ScaleDownIsExact(v, st, order, now);
    ScaleDownCounts(v, nm, st, order, now);
    VictimsScaleDown(st, v, victims, now);
  }

  lemma ScaleDownCounts(v: FamilyState, nm: Naming, st: Settings, order: seq<string>, now: nat)
    requires Consistent(v, nm) && Visits(order, v.children)
    ensures var victims := Victims(v, st, order, now);
            && Active(Without(v, victims).children) == Active(v.children) - |victims|
            && (victims != [] ==> Active(Without(v, victims).children) >= st.warm)
  {
    ScaleDownKeepsValid(v, nm, st, order, now);
  }

  lemma VictimsScaleDown(st: Settings, v: FamilyState, victims: seq<string>, now: nat)
    requires NoDuplicates(victims) && |victims| == Min(|StoppableNames(v, st, now)|, Budget(v, st))
    requires forall n :: n in victims ==> Stoppable(v, st, now, n)
    requires forall n, m :: n in victims && n in v.children && Stoppable(v, st, now, m) && m !in victims ==>
               v.children[n].lastIdleAt <= v.children[m].lastIdleAt
    requires Active(Without(v, victims).children) == Active(v.children) - |victims|
    requires victims != [] ==> Active(Without(v, victims).children) >= st.warm
    ensures ScaledDown(st, v, Without(v, victims), now)
  {
    forall m ensures Stoppable(v, st, now, m) <==> m in v.children && LongIdle(st, v.children[m], now) {}
    if st.idleScaleDown > 0 && Active(Without(v, victims).children) > st.warm { AllGo(st, v, victims, now); }
  }

  ghost predicate ScaledDown(st: Settings, v: FamilyState, w: FamilyState, now: nat) {
    var p, q := v.children, w.children;
    && (forall n :: n in q ==> n in p && q[n] == p[n])
    && (forall n :: n in p && n !in q ==> st.idleScaleDown > 0 && LongIdle(st, p[n], now) && Active(q) >= st.warm)
    && (forall n, m :: n in p && n !in q && m in q && LongIdle(st, q[m], now) ==> p[n].lastIdleAt <= q[m].lastIdleAt)
    && (st.idleScaleDown > 0 && Active(q) > st.warm ==> forall m :: m in q ==> !LongIdle(st, q[m], now))
    && (forall n :: n in w.services <==> n in v.services && !(n in p && n !in q))
    && (forall n :: n in w.services ==> w.services[n] == v.services[n])
  }

  // If more than the warm ones are left, the budget was not used up.
  lemma AllGo(st: Settings, v: FamilyState, victims: seq<string>, now: nat)
    requires NoDuplicates(victims) && |victims| == Min(|StoppableNames(v, st, now)|, Budget(v, st))
    requires forall n :: n in victims ==> n in StoppableNames(v, st, now)
    requires st.idleScaleDown > 0 && Active(Without(v, victims).children) > st.warm
    requires Active(Without(v, victims).children) == Active(v.children) - |victims|
    ensures forall m :: m in StoppableNames(v, st, now) ==> m in victims
  {
    var gone, all := (set n | n in victims), StoppableNames(v, st, now);
    NoDuplicatesCardinality(victims);
    assert |gone| == |all|;
    assert all == gone + (all - gone);
  }

  // Taking a new child: it is busy from then on.
  lemma MarkTurn(cfg: Config, s: State, i: nat, t: State)
    requires i < |s.slots| && s.slots[i].Marking? && t == Next(cfg, s, MarkLease(i))
    ensures var n := s.slots[i].name;
            && t.leases == s.leases + multiset{n} && t.slots == s.slots[i := Free] && t.v.services == s.v.services
            && t.v.children.Keys == s.v.children.Keys && OthersStay(s.v.children, t.v.children, n)
            && (n in s.v.children ==> t.v.children[n] == s.v.children[n].(busy := true, lastIdleAt := 0))
  {
  }

  // ----- runs

  // The states a run goes through, one before each action and one at the end.
  ghost function History(cfg: Config, origin: State, actions: seq<Action>): nat -> State {
    (i: nat) => Run(cfg, origin, if i <= |actions| then actions[..i] else actions)
  }

  ghost predicate Follows(cfg: Config, states: nat -> State, actions: seq<Action>) {
    forall i: nat :: i < |actions| ==> FollowsAt(cfg, states, actions[i], i)
  }

  ghost predicate FollowsAt(cfg: Config, states: nat -> State, a: Action, i: nat) {
    Inv(cfg, states(i)) && states(i + 1) == Next(cfg, states(i), a)
  }

  lemma HistoryFollows(cfg: Config, origin: State, actions: seq<Action>)
    requires cfg.Valid() && Initial(cfg, origin)
    ensures Follows(cfg, History(cfg, origin, actions), actions)
    ensures History(cfg, origin, actions)(0) == origin
    ensures History(cfg, origin, actions)(|actions|) == Run(cfg, origin, actions)
  {
    assert actions[..|actions|] == actions && actions[..0] == [];
    forall i: nat | i < |actions| ensures FollowsAt(cfg, History(cfg, origin, actions), actions[i], i) {
      assert actions[..i + 1][..i] == actions[..i];
      RunKeepsInv(cfg, origin, actions[..i]);
    }
  }

  // ----- how long a released replica stays

  // The action does not lease, release or give up the replica, nor close the pool, and
  // does not scale down at `until` or later.
  ghost predicate LeavesAlone(s: State, a: Action, n: string, until: int) {
    match a
    case TryAcquire(_, exited, choice) => n !in exited && choice != n
    case MarkLease(i) => i < |s.slots| ==> s.slots[i] != Marking(n)
    case ReleaseLease(released, _) => released != n
    case Reconcile(exited) => n !in exited
    case KeeperScales(_, now) => now < until
    case CloseAll => false
    case _ => true
  }

  ghost predicate Rests(s: State, n: string, child: Child) {
    n in s.v.children && s.v.children[n] == child
  }

  lemma SpawnTakesNewName(cfg: Config, s: State, n: string)
    requires Inv(cfg, s) && n in s.v.children
    ensures s.keeper.Launching? ==> s.keeper.name != n
    ensures forall i :: 0 <= i < |s.slots| && s.slots[i].Spawning? ==> s.slots[i].name != n
  {
    assert NameInv(cfg, s, n);
    forall i | 0 <= i < |s.slots| && s.slots[i].Spawning? ensures s.slots[i].name != n {
      if s.slots[i].name == n { CountFinds(s.slots, i, Spawns(n)); }
    }
  }

  lemma RestsInCall(cfg: Config, s: State, a: Action, n: string, child: Child, t: State)
    requires t == Next(cfg, s, a) && t != s && Rests(s, n, child) && LeavesAlone(s, a, n, child.lastIdleAt + cfg.st.idleScaleDown)
    requires forall i :: 0 <= i < |s.slots| && s.slots[i].Spawning? ==> s.slots[i].name != n
    requires a.TryAcquire? || a.ReserveName? || a.SpawnFails? || a.SpawnEnds? || a.MarkLease? || a.ReleaseLease?
    ensures Rests(t, n, child)
  {
    match a
    case TryAcquire(i, exited, choice) => AcquireTurn(cfg, s, i, exited, choice, t);
    case SpawnEnds(i, learnt, now) => SpawnTurn(cfg, s, i, learnt, now, t);
    case MarkLease(i) => MarkTurn(cfg, s, i, t);
    case ReleaseLease(released, now) => ReleaseTurn(cfg, s, released, now, t);
    case _ =>
  }

  // A scale-down stops neither an unmanaged replica nor one not idle for long enough.
  lemma ScaleSpares(cfg: Config, s: State, order: seq<string>, now: nat, n: string, t: State)
    requires Consistent(s.v, cfg.nm) && t == Next(cfg, s, KeeperScales(order, now)) && t != s
    requires n in s.v.children && !LongIdle(cfg.st, s.v.children[n], now)
    ensures Rests(t, n, s.v.children[n])
  {
    ScaleTurn(cfg, s, order, now, t);
  }

  lemma RestsInKeeper(cfg: Config, s: State, a: Action, n: string, child: Child, t: State)
    requires t == Next(cfg, s, a) && t != s && Rests(s, n, child) && LeavesAlone(s, a, n, child.lastIdleAt + cfg.st.idleScaleDown)
    requires s.keeper.Launching? ==> s.keeper.name != n
    requires a.Reconcile? || a.KeeperReserves? || a.KeeperFails? || a.KeeperSpawns? || a.Refresh?
    ensures Rests(t, n, child)
  {
    if a.KeeperSpawns? { KeeperSpawnTurn(cfg, s, a.learnt, a.now, t); }
  }

  lemma RestsOneMore(cfg: Config, s: State, a: Action, n: string, child: Child, t: State)
    requires Inv(cfg, s) && t == Next(cfg, s, a) && Rests(s, n, child)
    requires LeavesAlone(s, a, n, child.lastIdleAt + cfg.st.idleScaleDown)
    ensures Rests(t, n, child)
  {
    SpawnTakesNewName(cfg, s, n);
    if t != s {
      if a.KeeperScales? {
        ScaleSpares(cfg, s, a.order, a.now, n, t);
      } else if a.Reconcile? || a.KeeperReserves? || a.KeeperFails? || a.KeeperSpawns? || a.Refresh? {
        RestsInKeeper(cfg, s, a, n, child, t);
      } else {
        RestsInCall(cfg, s, a, n, child, t);
      }
    }
  }

  lemma {:induction false} RestingStays(states: nat -> State, from: nat, m: nat, n: string, child: Child)
    requires from <= m && Rests(states(from), n, child)
    requires forall i: nat :: from <= i < m && Rests(states(i), n, child) ==> Rests(states(i + 1), n, child)
    ensures Rests(states(m), n, child)
  {
    if from < m { RestingStays(states, from, m - 1, n, child); }
  }

  // A replica released at `at` stays registered, idle since `at`, until it exits, is leased
  // or released again, the pool is closed, or a scale-down comes at `at` plus the
  // scale-down time or later.
  lemma ReleasedReplicaStays(cfg: Config, origin: State, actions: seq<Action>, k: nat, n: string, at: nat)
    requires cfg.Valid() && Initial(cfg, origin) && k < |actions| && actions[k] == ReleaseLease(n, at) && at > 0
    requires var states := History(cfg, origin, actions);
             && n in states(k).leases && n in states(k).v.children
             && forall i: nat :: k < i < |actions| ==> LeavesAlone(states(i), actions[i], n, at + cfg.st.idleScaleDown)
    ensures var p, q := History(cfg, origin, actions)(k).v.children, Run(cfg, origin, actions).v.children;
            n in q && q[n] == p[n].(busy := false, lastIdleAt := at)
  {
    HistoryFollows(cfg, origin, actions);
    ReleasedRests(cfg, History(cfg, origin, actions), actions, k, n, at);
  }

  lemma ReleasedRests(cfg: Config, states: nat -> State, actions: seq<Action>, k: nat, n: string, at: nat)
    requires Follows(cfg, states, actions) && k < |actions| && actions[k] == ReleaseLease(n, at) && at > 0
    requires n in states(k).leases && n in states(k).v.children
    requires forall i: nat :: k < i < |actions| ==> LeavesAlone(states(i), actions[i], n, at + cfg.st.idleScaleDown)
    ensures Rests(states(|actions|), n, states(k).v.children[n].(busy := false, lastIdleAt := at))
  {
    var child := states(k).v.children[n].(busy := false, lastIdleAt := at);
    assert FollowsAt(cfg, states, actions[k], k);
    ReleaseTurn(cfg, states(k), n, at, states(k + 1));
    forall i: nat | k + 1 <= i < |actions| && Rests(states(i), n, child) ensures Rests(states(i + 1), n, child) {
      assert FollowsAt(cfg, states, actions[i], i);
      RestsOneMore(cfg, states(i), actions[i], n, child, states(i + 1));
    }
    RestingStays(states, k + 1, |actions|, n, child);
  }

  // The converse: a scale-down that finds a managed replica idle for the scale-down time
  // stops it, unless no more than the warm ones are left.
  lemma LongIdleReplicaGoes(cfg: Config, s: State, order: seq<string>, now: nat, n: string)
    requires Inv(cfg, s) && s.keeper.Growing? && s.keeper.count >= cfg.st.warm && Visits(order, s.v.children)
    requires cfg.st.idleScaleDown > 0 && n in s.v.children
    requires var child := s.v.children[n];
             child.managed && !child.busy && !child.stopping && now >= child.lastIdleAt + cfg.st.idleScaleDown
    ensures var q := Next(cfg, s, KeeperScales(order, now)).v.children;
            n !in q || Active(q) <= cfg.st.warm
  {
    ScaleTurn(cfg, s, order, now, Next(cfg, s, KeeperScales(order, now)));
  }

  // ----- replicas the pool did not start

  // The name is given out and not being spawned, and if it is a child's, an unmanaged one's.
  ghost predicate Foreign(cfg: Config, s: State, n: string) {
    && Issued(cfg.nm, s.v.next, n) && Flying(s, n) == 0
    && (n in s.v.children ==> !s.v.children[n].managed)
  }

  // The action finds the replica's container gone.
  ghost predicate FindsExited(a: Action, n: string) {
    (a.TryAcquire? && n in a.exited) || (a.Reconcile? && n in a.exited)
  }

  lemma ForeignCall(cfg: Config, s: State, i: nat, x: Slot, n: string, t: State)
    requires Inv(cfg, s) && i < |s.slots| && t.slots == s.slots[i := x] && (x.Spawning? ==> x.name != n)
    requires Flying(s, n) == 0 && (t.keeper == s.keeper || !t.keeper.Launching?)
    ensures Flying(t, n) == 0
  {
    CountAfterUpdate(s.slots, i, x, Spawns(n));
  }

  lemma ForeignAcquire(cfg: Config, s: State, i: nat, exited: set<string>, choice: string, n: string, t: State)
    requires Inv(cfg, s) && Foreign(cfg, s, n) && t == Next(cfg, s, TryAcquire(i, exited, choice)) && t != s
    ensures Foreign(cfg, t, n) && (n in s.v.children && n !in exited ==> n in t.v.children)
  {
    AcquireTurn(cfg, s, i, exited, choice, t);
    CountAfterUpdate(s.slots, i, Deciding, Spawns(n));
  }

  lemma ForeignSpawn(cfg: Config, s: State, a: Action, n: string, t: State)
    requires cfg.Valid() && Inv(cfg, s) && Foreign(cfg, s, n) && t == Next(cfg, s, a) && t != s
    requires a.ReserveName? || a.SpawnFails? || a.SpawnEnds? || a.MarkLease?
    ensures Foreign(cfg, t, n) && (n in s.v.children ==> n in t.v.children)
  {
    ReserveKeepsValid(s.v, cfg.nm);
    if a.SpawnEnds? {
      CountFinds(s.slots, a.slot, Spawns(s.slots[a.slot].name));
      SpawnTurn(cfg, s, a.slot, a.learnt, a.now, t);
    }
    ForeignCall(cfg, s, a.slot, t.slots[a.slot], n, t);
  }

  lemma ForeignKeeper(cfg: Config, s: State, a: Action, n: string, t: State)
    requires cfg.Valid() && Consistent(s.v, cfg.nm) && Foreign(cfg, s, n) && t == Next(cfg, s, a) && t != s
    requires a.KeeperReserves? || a.KeeperSpawns? || a.KeeperFails?
    ensures Foreign(cfg, t, n) && (n in s.v.children ==> n in t.v.children)
  {
    ReserveKeepsValid(s.v, cfg.nm);
    if a.KeeperSpawns? { KeeperSpawnTurn(cfg, s, a.learnt, a.now, t); }
  }

  lemma ForeignScale(cfg: Config, s: State, order: seq<string>, now: nat, n: string, t: State)
    requires Consistent(s.v, cfg.nm) && Foreign(cfg, s, n) && t == Next(cfg, s, KeeperScales(order, now)) && t != s
    ensures Foreign(cfg, t, n) && (n in s.v.children ==> n in t.v.children)
  {
    if n in s.v.children { ScaleSpares(cfg, s, order, now, n, t); }
  }

  lemma ForeignElse(cfg: Config, s: State, a: Action, n: string, t: State)
    requires Foreign(cfg, s, n) && t == Next(cfg, s, a) && t != s
    requires a.ReleaseLease? || a.Reconcile? || a.Refresh? || a.CloseAll?
    ensures Foreign(cfg, t, n) && (n in s.v.children && !FindsExited(a, n) ==> n in t.v.children)
  {
    if a.ReleaseLease? { ReleaseTurn(cfg, s, a.name, a.now, t); }
  }

  lemma ForeignStep(cfg: Config, s: State, a: Action, n: string, t: State)
    requires cfg.Valid() && Inv(cfg, s) && Foreign(cfg, s, n) && t == Next(cfg, s, a)
    ensures Foreign(cfg, t, n)
    ensures n in s.v.children && !FindsExited(a, n) ==> n in t.v.children
  {
    if t != s {
      if a.TryAcquire? {
        ForeignAcquire(cfg, s, a.slot, a.exited, a.choice, n, t);
      } else if a.KeeperScales? {
        ForeignScale(cfg, s, a.order, a.now, n, t);
      } else if a.KeeperReserves? || a.KeeperSpawns? || a.KeeperFails? {
        ForeignKeeper(cfg, s, a, n, t);
      } else if a.ReleaseLease? || a.Reconcile? || a.Refresh? || a.CloseAll? {
        ForeignElse(cfg, s, a, n, t);
      } else {
        ForeignSpawn(cfg, s, a, n, t);
      }
    }
  }

  lemma {:induction false} ForeignStays(cfg: Config, states: nat -> State, actions: seq<Action>, k: nat, n: string)
    requires cfg.Valid() && Follows(cfg, states, actions) && k <= |actions| && Foreign(cfg, states(0), n)
    ensures Foreign(cfg, states(k), n)
  {
    if k > 0 {
      ForeignStays(cfg, states, actions, k - 1, n);
      assert FollowsAt(cfg, states, actions[k - 1], k - 1);
      ForeignStep(cfg, states(k - 1), actions[k - 1], n, states(k));
    }
  }

  // No run ever stops a replica whose container did not carry the managed label when it
  // was adopted: it never reads as managed, and it leaves only in a step that finds its
  // container gone.
  lemma ForeignIsNeverStopped(cfg: Config, origin: State, actions: seq<Action>, k: nat, n: string)
    requires cfg.Valid() && Initial(cfg, origin) && n in origin.v.children && !origin.v.children[n].managed
    requires k < |actions|
    ensures var states := History(cfg, origin, actions);
            n in states(k).v.children ==>
              !states(k).v.children[n].managed && (n in states(k + 1).v.children || FindsExited(actions[k], n))
  {
    HistoryFollows(cfg, origin, actions);
    InitialInv(cfg, origin);
    assert NameInv(cfg, origin, n);
    ForeignStays(cfg, History(cfg, origin, actions), actions, k, n);
    assert FollowsAt(cfg, History(cfg, origin, actions), actions[k], k);
    ForeignStep(cfg, History(cfg, origin, actions)(k), actions[k], n, History(cfg, origin, actions)(k + 1));
  }

  // After a start, no run ever stops a replica whose container was inspected as running
  // without the managed label.
  lemma UnlabelledIsNeverStopped(cfg: Config, origin: State, inspect: nat -> Inspection, count: nat, now: nat, i: nat,
                                 actions: seq<Action>, k: nat)
    requires cfg.Valid() && Initial(cfg, origin) && StartedFrom(origin.v, cfg.nm, inspect, count, now)
    requires 1 <= i <= count && inspect(i).Running? && inspect(i).responds && !inspect(i).managed
    requires k < |actions|
    ensures var n, states := cfg.nm.name(i), History(cfg, origin, actions);
            && n in origin.v.children
            && (n in states(k).v.children ==>
                  !states(k).v.children[n].managed && (n in states(k + 1).v.children || FindsExited(actions[k], n)))
  {
    var n := cfg.nm.name(i);
    assert Responds(cfg.nm, inspect, count, n);
    assert AdoptedFrom(cfg.nm, inspect, count, now, n, origin.v.children[n]);
    ForeignIsNeverStopped(cfg, origin, actions, k, n);
  }
}
