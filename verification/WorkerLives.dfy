// What single steps of the pool do to its workers, how many tasks a worker is
// charged with, and how long a released worker stays: laws over the steps and runs
// of WorkerProtocol, told by the tables before and after.
module WorkerLives {
  import opened Ordering
  import opened WorkerPool
  import opened WorkerProtocol

  type Table = map<WorkerId, Handle>

  ghost predicate Lives(s: State, w: WorkerId) {
    w in s.links && !s.links[w].process.Exited?
  }

  // The registered workers whose process runs.
  ghost function Living(s: State): set<WorkerId> {
    set w | w in s.pool.workers && Lives(s, w)
  }

  // Whatever is in q but not in p is a new worker that has done nothing yet.
  ghost predicate OnlyFresh(p: Table, q: Table, next: WorkerId, now: nat) {
    forall w :: w in q && w !in p ==> w >= next && q[w] == Handle(w, false, 0, now)
  }

  // Every worker of p but w is in q as it was.
  ghost predicate OthersStay(p: Table, q: Table, w: WorkerId) {
    forall u :: u in p && u != w ==> u in q && q[u] == p[u]
  }

  lemma SameSize(a: Table, b: Table)
    requires a.Keys == b.Keys
    ensures |a| == |b|
  {
    SubTableSize(a, b);
    SubTableSize(b, a);
  }

  // ----- single steps

  // What a release leaves of the table p.
  ghost predicate Freed(cfg: Settings, p: Pool, q: Table, w: WorkerId, retire: bool, now: nat) {
    && (w in p.workers ==> (w !in q <==> retire && |p.workers| > cfg.minWarm))
    && (w in q ==> w in p.workers && q[w] == p.workers[w].(busy := false, lastUsedAt := now))
    && OthersStay(p.workers, q, w) && OnlyFresh(p.workers, q, p.nextId, now)
    && (if w !in p.workers then q == p.workers
        else |q| == Max(if w in q then |p.workers| else |p.workers| - 1, cfg.minWarm))
  }

  lemma ReleaseFrees(cfg: Settings, p: Pool, w: WorkerId, retire: bool, now: nat)
    requires p.WellFormed() && w < p.nextId
    ensures Freed(cfg, p, Release(cfg, p, w, retire, now).workers, w, retire, now)
  {
    if w in p.workers {
      var released := p.(workers := p.workers[w := p.workers[w].(busy := false, lastUsedAt := now)]);
      assert released.workers.Keys == p.workers.Keys;
      SameSize(released.workers, p.workers);
      WithoutSize(released, w);
      WarmGrows(cfg, if retire && |released.workers| > cfg.minWarm then Without(released, w) else released, now);
    }
  }

  // A call in its finally block: its worker goes idle and is stamped with the time
  // of the release, or leaves if it is retired and the pool is above its floor.
  lemma FinishIsExact(cfg: Settings, s: State, c: CallId, now: nat, t: State)
    requires s.pool.WellFormed() && c in s.calls && s.calls[c].Finishing? && s.calls[c].worker < s.pool.nextId
    requires t == Next(cfg, s, Finish(c, now))
    ensures t.calls == s.calls - {c}
    ensures Freed(cfg, s.pool, t.pool.workers, s.calls[c].worker, s.calls[c].retire, now)
  {
    ReleaseFrees(cfg, s.pool, s.calls[c].worker, s.calls[c].retire, now);
  }

  lemma DropOnTable(cfg: Settings, p: Pool, w: WorkerId, now: nat)
    requires p.WellFormed() && w < p.nextId
    ensures var q := Drop(cfg, p, w, now).workers;
            && w !in q && OthersStay(p.workers, q, w) && OnlyFresh(p.workers, q, p.nextId, now)
            && |q| == Max(if w in p.workers then |p.workers| - 1 else |p.workers|, cfg.minWarm)
  {
    WithoutSize(p, w);
    WarmGrows(cfg, Without(p, w), now);
  }

  // A failed call drops its worker and no other.
  lemma DropIsExact(cfg: Settings, s: State, c: CallId, now: nat, t: State)
    requires s.pool.WellFormed() && c in s.calls && s.calls[c].Failing? && s.calls[c].worker < s.pool.nextId
    requires t == Next(cfg, s, DropBroken(c, now))
    ensures var p, q, w := s.pool.workers, t.pool.workers, s.calls[c].worker;
            && t.calls == s.calls[c := Finishing(w, false)]
            && w !in q && OthersStay(p, q, w) && OnlyFresh(p, q, s.pool.nextId, now)
            && |q| == Max(if w in p then |p| - 1 else |p|, cfg.minWarm)
  {
    DropOnTable(cfg, s.pool, s.calls[c].worker, now);
  }

  // A counted reply: one more task, and retirement iff the quota is used up.
  lemma RecordIsExact(cfg: Settings, s: State, c: CallId, t: State)
    requires s.pool.WellFormed() && c in s.calls && s.calls[c].Answered? && t == Next(cfg, s, Record(c))
    ensures var p, q, w := s.pool.workers, t.pool.workers, s.calls[c].worker;
            && q.Keys == p.Keys && OthersStay(p, q, w)
            && (w in p ==> q[w] == p[w].(tasksCompleted := p[w].tasksCompleted + 1))
            && t.calls == s.calls[c := Finishing(w, w in p && p[w].tasksCompleted + 1 >= cfg.maxTasks)]
  {
  }

  // The worker w is leased in q: the first living idle one of p, or a new one when
  // every living one is busy and there is room.
  ghost predicate Leases(cfg: Settings, p: Pool, living: set<WorkerId>, q: Table, w: WorkerId, now: nat)
    requires living <= p.workers.Keys
  {
    w in q &&
    if w in living then
      !p.workers[w].busy && q[w] == p.workers[w].(busy := true) && forall u :: u in living && !p.workers[u].busy ==> w <= u
    else
      && w == p.nextId && q[w] == Handle(w, true, 0, now)
      && |living| < cfg.maxWorkers && forall u :: u in living ==> p.workers[u].busy
  }

  // What an acquire pass leaves of an open pool whose living workers are given.
  ghost predicate Passed(cfg: Settings, p: Pool, living: set<WorkerId>, q: Table, outcome: Outcome, now: nat)
    requires living <= p.workers.Keys
  {
    if outcome.Acquired? then
      && q.Keys == living + {outcome.worker} && Leases(cfg, p, living, q, outcome.worker, now)
      && forall u :: u in living && u != outcome.worker ==> q[u] == p.workers[u]
    else
      && q.Keys == living && |living| >= cfg.maxWorkers
      && forall u :: u in living ==> q[u] == p.workers[u] && p.workers[u].busy
  }

  lemma PassLeases(cfg: Settings, p: Pool, left: Pool, w: WorkerId, now: nat)
    requires left == p.(workers := left.workers) && left.workers.Keys <= p.workers.Keys
    requires forall u :: u in left.workers ==> left.workers[u] == p.workers[u]
    requires w in left.workers && !left.workers[w].busy && forall u :: u in left.workers && u < w ==> left.workers[u].busy
    ensures Passed(cfg, p, left.workers.Keys, Lease(left, w).workers, Acquired(w), now)
  {
    assert Lease(left, w).workers.Keys == left.workers.Keys + {w};
  }

  lemma PassGrows(cfg: Settings, p: Pool, left: Pool, outcome: Outcome, now: nat)
    requires p.WellFormed() && left == p.(workers := left.workers) && left.workers.Keys <= p.workers.Keys
    requires forall u :: u in left.workers ==> left.workers[u] == p.workers[u] && p.workers[u].busy
    ensures |left.workers| < cfg.maxWorkers ==>
              Passed(cfg, p, left.workers.Keys, Lease(Spawn(left, now), p.nextId).workers, Acquired(p.nextId), now)
    ensures |left.workers| >= cfg.maxWorkers && !outcome.Acquired? ==>
              Passed(cfg, p, left.workers.Keys, left.workers, outcome, now)
  {
    assert p.nextId !in left.workers;
    assert |left.workers.Keys| == |left.workers|;
    assert Lease(Spawn(left, now), p.nextId).workers.Keys == left.workers.Keys + {p.nextId};
  }

  // The first idle worker in the order of ids, if there is one.
  ghost predicate Found(workers: Table, found: Option<WorkerId>) {
    match found
    case Some(w) => w in workers && !workers[w].busy && forall u :: u in workers && u < w ==> workers[u].busy
    case None => forall u :: u in workers ==> workers[u].busy
  }

  lemma FirstIdleIsFound(p: Pool)
    requires p.WellFormed()
    ensures Found(p.workers, FirstIdle(p.workers, 0, p.nextId))
  {
  }

  lemma PassByFound(cfg: Settings, p: Pool, left: Pool, found: Option<WorkerId>, expired: bool, now: nat)
    requires p.WellFormed() && left == p.(workers := left.workers) && left.workers.Keys <= p.workers.Keys
    requires forall u :: u in left.workers ==> left.workers[u] == p.workers[u]
    requires Found(left.workers, found)
    ensures match found
            case Some(w) => Passed(cfg, p, left.workers.Keys, Lease(left, w).workers, Acquired(w), now)
            case None =>
              if |left.workers| < cfg.maxWorkers then
                Passed(cfg, p, left.workers.Keys, Lease(Spawn(left, now), left.nextId).workers, Acquired(left.nextId), now)
              else Passed(cfg, p, left.workers.Keys, left.workers, if expired then TimedOut else Waiting, now)
  {
    match found
    case Some(w) => PassLeases(cfg, p, left, w, now);
    case None => PassGrows(cfg, p, left, if expired then TimedOut else Waiting, now);
  }

  lemma PassOnTable(cfg: Settings, p: Pool, alive: set<WorkerId>, living: set<WorkerId>, expired: bool, now: nat)
    requires p.WellFormed() && !p.closed && living == alive * p.workers.Keys
    ensures var (q, outcome) := AcquirePass(cfg, p, alive, expired, now);
            Passed(cfg, p, living, q.workers, outcome, now)
  {
    var left := Prune(p, alive);
    assert left.workers.Keys == living;
    FirstIdleIsFound(left);
    PassByFound(cfg, p, left, FirstIdle(left.workers, 0, left.nextId), expired, now);
  }

  // An acquire pass of an open pool forgets dead workers, leases at most one, and
  // leases none iff every living worker is busy and the pool is full.
  lemma AcquireIsExact(cfg: Settings, s: State, c: CallId, expired: bool, now: nat, t: State)
    requires s.pool.WellFormed() && c !in s.calls && !s.pool.closed && t == Next(cfg, s, Acquire(c, expired, now))
    ensures if c in t.calls then
              && t.calls[c].Leased? && t.calls == s.calls[c := t.calls[c]]
              && Passed(cfg, s.pool, Living(s), t.pool.workers, Acquired(t.calls[c].worker), now)
            else
              t.calls == s.calls && Passed(cfg, s.pool, Living(s), t.pool.workers, Waiting, now)
  {
    assert Living(s) == Alive(s) * s.pool.workers.Keys;
    PassOnTable(cfg, s.pool, Alive(s), Living(s), expired, now);
  }

  // What a tick leaves of the table p when `living` are the workers that live: dead
  // ones go; a living one goes only if it has been idle for the timeout, the longest
  // idle first; and while the pool is above its floor none of those stays.
  ghost predicate Ticked(cfg: Settings, p: Pool, living: set<WorkerId>, q: Table, now: nat)
    requires living <= p.workers.Keys
  {
    && OnlyFresh(p.workers, q, p.nextId, now) && |q| >= cfg.minWarm
    && (forall u :: u in p.workers && u in q ==> u in living && q[u] == p.workers[u])
    && (forall u :: u in living && u !in q ==>
          !p.workers[u].busy && now - p.workers[u].lastUsedAt >= cfg.idleTimeout > 0)
    && (forall u, v :: u in living && u !in q && v in p.workers && v in q && !p.workers[v].busy
                       && now - p.workers[v].lastUsedAt >= cfg.idleTimeout ==>
          p.workers[u].lastUsedAt <= p.workers[v].lastUsedAt)
    && (cfg.idleTimeout > 0 && |q| > cfg.minWarm ==>
          forall u :: u in q && !q[u].busy ==> now - q[u].lastUsedAt < cfg.idleTimeout)
  }

  lemma ShrinkTicks(cfg: Settings, p: Pool, now: nat)
    requires p.WellFormed() && cfg.idleTimeout > 0
    ensures var q := Shrink(cfg, p, now).workers;
            && (forall u :: u in q ==> u in p.workers && q[u] == p.workers[u])
            && (forall u :: u in p.workers && u !in q ==>
                  !p.workers[u].busy && now - p.workers[u].lastUsedAt >= cfg.idleTimeout)
            && (forall u, v :: u in p.workers && u !in q && v in q && !p.workers[v].busy
                               && now - p.workers[v].lastUsedAt >= cfg.idleTimeout ==>
                  p.workers[u].lastUsedAt <= p.workers[v].lastUsedAt)
            && (|q| > cfg.minWarm ==>
                  forall u :: u in q && !q[u].busy ==> now - q[u].lastUsedAt < cfg.idleTimeout)
  {
    ShrinkIsExact(cfg, p, now);
    var q, expired := Shrink(cfg, p, now).workers, ExpiredIds(cfg, p, now);
    var removed := p.workers.Keys - q.Keys;
    forall u | u in p.workers && u !in q ensures u in expired { assert u in removed; }
    forall u, v | u in p.workers && u !in q && v in q && !p.workers[v].busy
                  && now - p.workers[v].lastUsedAt >= cfg.idleTimeout
      ensures p.workers[u].lastUsedAt <= p.workers[v].lastUsedAt
    {
      assert u in removed && v in expired - removed;
    }
    if |q| > cfg.minWarm { AllExpiredGo(p.workers, q, expired, removed, cfg.minWarm); }
  }

  lemma AllExpiredGo(p: Table, q: Table, expired: set<WorkerId>, removed: set<WorkerId>, floor: nat)
    requires q.Keys <= p.Keys && removed == p.Keys - q.Keys && removed <= expired
    requires |removed| == Min(|expired|, Max(0, |p| - floor)) && |q| > floor
    ensures expired == removed
  {
    assert p.Keys == removed + q.Keys;
    assert |p.Keys| == |removed| + |q.Keys|;
    assert expired == removed + (expired - removed);
  }

  lemma ReapTicks(cfg: Settings, p: Pool, alive: set<WorkerId>, living: set<WorkerId>, now: nat)
    requires p.WellFormed() && !p.closed && living == alive * p.workers.Keys
    ensures Ticked(cfg, p, living, Reap(cfg, p, alive, now).workers, now)
  {
    var left := Prune(p, alive);
    assert left.workers.Keys == living;
    ShrinkKeepsWellFormed(cfg, left, now);
    WarmGrows(cfg, Shrink(cfg, left, now), now);
    if cfg.idleTimeout > 0 { ShrinkTicks(cfg, left, now); }
  }

  lemma TickIsExact(cfg: Settings, s: State, now: nat, t: State)
    requires s.pool.WellFormed() && !s.pool.closed && t == Next(cfg, s, ReaperTick(now))
    ensures t.calls == s.calls && Ticked(cfg, s.pool, Living(s), t.pool.workers, now)
  {
    assert Living(s) == Alive(s) * s.pool.workers.Keys;
    ReapTicks(cfg, s.pool, Alive(s), Living(s), now);
  }

  // Closing forgets every worker, once.
  lemma CloseIsExact(cfg: Settings, s: State)
    requires s.pool.WellFormed()
    ensures var t := Next(cfg, s, ClosePool);
            t.pool.closed && t.calls == s.calls && (if s.pool.closed then t == s else t.pool.workers == map[])
  {
  }

  // ----- how many tasks a worker is charged with

  // How often a reply of the worker was counted while it was registered.
  ghost function Counted(cfg: Settings, start: nat, actions: seq<Action>, w: WorkerId): nat
    requires cfg.Valid()
  {
    if actions == [] then 0
    else
      var before, a := actions[..|actions| - 1], actions[|actions| - 1];
      Counted(cfg, start, before, w) + if Counts(Run(cfg, start, before), a, w) then 1 else 0
  }

  ghost predicate Counts(s: State, a: Action, w: WorkerId) {
    a.Record? && a.call in s.calls && s.calls[a.call] == Answered(w) && w in s.pool.workers
  }

  // What the invariant says about the workers of calls.
  lemma CallFacts(cfg: Settings, s: State)
    requires Inv(cfg, s)
    ensures s.pool.WellFormed() && forall c :: c in s.calls ==> s.calls[c].worker < s.pool.nextId
    ensures forall w, c :: w in s.pool.workers && !s.pool.workers[w].busy && c in s.calls ==> s.calls[c].worker != w
  {
    forall w, c | w in s.pool.workers && !s.pool.workers[w].busy && c in s.calls ensures s.calls[c].worker != w {
      assert s.calls[c].worker == w ==> Held(s.calls, w);
    }
  }

  // Counts go from p to q: old workers keep theirs, new ones start at zero.
  ghost predicate CountsKept(p: Pool, q: Pool) {
    && q.nextId >= p.nextId && (forall w :: w in q.workers && w !in p.workers ==> w >= p.nextId)
    && (forall w :: w in q.workers ==>
          q.workers[w].tasksCompleted == if w in p.workers then p.workers[w].tasksCompleted else 0)
  }

  lemma PassKeepsCounts(cfg: Settings, p: Pool, alive: set<WorkerId>, expired: bool, now: nat)
    requires p.WellFormed()
    ensures CountsKept(p, AcquirePass(cfg, p, alive, expired, now).0)
  {
  }

  lemma WarmKeepsCounts(cfg: Settings, p: Pool, q: Pool, now: nat)
    requires q.WellFormed() && q.nextId == p.nextId
    requires forall w :: w in q.workers ==> w in p.workers && q.workers[w].tasksCompleted == p.workers[w].tasksCompleted
    requires forall w :: w in p.workers ==> w < p.nextId
    ensures CountsKept(p, Warm(cfg, q, now))
  {
    WarmGrows(cfg, q, now);
  }

  lemma ReapKeepsCounts(cfg: Settings, p: Pool, alive: set<WorkerId>, now: nat)
    requires p.WellFormed()
    ensures CountsKept(p, Reap(cfg, p, alive, now))
  {
    ShrinkKeepsWellFormed(cfg, Prune(p, alive), now);
    WarmKeepsCounts(cfg, p, Shrink(cfg, Prune(p, alive), now), now);
  }

  lemma DropKeepsCounts(cfg: Settings, s: State, c: CallId, now: nat, t: State)
    requires s.pool.WellFormed() && c in s.calls && t == Next(cfg, s, DropBroken(c, now))
    ensures CountsKept(s.pool, t.pool)
  {
    WarmKeepsCounts(cfg, s.pool, Without(s.pool, s.calls[c].worker), now);
  }

  lemma FinishKeepsCounts(cfg: Settings, s: State, c: CallId, now: nat, t: State)
    requires s.pool.WellFormed() && c in s.calls && t == Next(cfg, s, Finish(c, now))
    ensures CountsKept(s.pool, t.pool)
  {
    if s.calls[c].Finishing? {
      WarmKeepsCounts(cfg, s.pool, Returned(cfg, s.pool, s.calls[c].worker, s.calls[c].retire, now), now);
    }
  }

  lemma StepKeepsCounts(cfg: Settings, s: State, a: Action, t: State)
    requires s.pool.WellFormed() && !a.Record? && t == Next(cfg, s, a)
    ensures CountsKept(s.pool, t.pool)
  {
    match a
    case Acquire(c, expired, now) => PassKeepsCounts(cfg, s.pool, Alive(s), expired, now);
    case DropBroken(c, now) => if c in s.calls { DropKeepsCounts(cfg, s, c, now, t); }
    case Finish(c, now) => if c in s.calls { FinishKeepsCounts(cfg, s, c, now, t); }
    case ReaperTick(now) => ReapKeepsCounts(cfg, s.pool, Alive(s), now);
    case _ =>
  }

  lemma RecordCounts(cfg: Settings, s: State, a: Action, w: WorkerId, t: State)
    requires s.pool.WellFormed() && a.Record? && t == Next(cfg, s, a)
    ensures t.pool.nextId == s.pool.nextId && (w in t.pool.workers <==> w in s.pool.workers)
    ensures w in s.pool.workers ==>
              t.pool.workers[w].tasksCompleted == s.pool.workers[w].tasksCompleted + if Counts(s, a, w) then 1 else 0
  {
  }

  lemma RunOneMore(cfg: Settings, start: nat, actions: seq<Action>)
    requires cfg.Valid() && actions != []
    ensures var before := Run(cfg, start, actions[..|actions| - 1]);
            before.pool.WellFormed() && Run(cfg, start, actions) == Next(cfg, before, actions[|actions| - 1])
  {
  }

  lemma {:induction false} CountsAreRight(cfg: Settings, start: nat, actions: seq<Action>, w: WorkerId)
    requires cfg.Valid()
    ensures var p := Run(cfg, start, actions).pool;
            && (w >= p.nextId ==> Counted(cfg, start, actions, w) == 0)
            && (w in p.workers ==> p.workers[w].tasksCompleted == Counted(cfg, start, actions, w))
  {
    if actions == [] {
      WarmGrows(cfg, Pool(map[], false, 0), start);
    } else {
      var before, a := actions[..|actions| - 1], actions[|actions| - 1];
      var s := Run(cfg, start, before);
      CountsAreRight(cfg, start, before, w);
      RunOneMore(cfg, start, actions);
      if a.Record? {
        RecordCounts(cfg, s, a, w, Next(cfg, s, a));
      } else {
        StepKeepsCounts(cfg, s, a, Next(cfg, s, a));
      }
    }
  }

  // After every run a registered worker is charged with exactly the replies that
  // were counted for it.
  lemma TasksAreCounted(cfg: Settings, start: nat, actions: seq<Action>, w: WorkerId)
    requires cfg.Valid()
    ensures var p := Run(cfg, start, actions).pool.workers;
            w in p ==> p[w].tasksCompleted == Counted(cfg, start, actions, w)
  {
    CountsAreRight(cfg, start, actions, w);
  }

  // ----- how long a released worker stays

  // The worker is idle and as before, or it was leased.
  ghost predicate RestsOrWorks(p: Table, t: State, w: WorkerId) {
    && w in p && w in t.pool.workers
    && (t.pool.workers[w] == p[w] || (exists c :: c in t.calls && t.calls[c].worker == w))
  }

  // Nothing but closing, its own death, a lease and a late enough tick touches an
  // idle worker.
  lemma {:induction false} IdleStays(cfg: Settings, s: State, a: Action, w: WorkerId, t: State)
    requires s.pool.WellFormed() && t == Next(cfg, s, a)
    requires w in s.pool.workers && !s.pool.workers[w].busy && Lives(s, w)
    requires forall c :: c in s.calls ==> s.calls[c].worker != w && s.calls[c].worker < s.pool.nextId
    requires a != ClosePool && (a.ReaperTick? ==> a.now < s.pool.workers[w].lastUsedAt + cfg.idleTimeout)
    ensures RestsOrWorks(s.pool.workers, t, w)
  {
    assert w in Living(s);
    match a
    case Acquire(c, expired, now) =>
      if c !in s.calls && !s.pool.closed {
        AcquireIsExact(cfg, s, c, expired, now, t);
        assert c in t.calls && t.calls[c].worker == w ==> RestsOrWorks(s.pool.workers, t, w);
      }
    case Record(c) => if c in s.calls && s.calls[c].Answered? { RecordIsExact(cfg, s, c, t); }
    case DropBroken(c, now) => if c in s.calls && s.calls[c].Failing? { DropIsExact(cfg, s, c, now, t); }
    case Finish(c, now) => if c in s.calls && s.calls[c].Finishing? { FinishIsExact(cfg, s, c, now, t); }
    case ReaperTick(now) => if !s.pool.closed { TickIsExact(cfg, s, now, t); }
    case _ =>
  }

  // The worker lives and no call holds it.
  ghost predicate Alone(s: State, w: WorkerId) {
    Lives(s, w) && forall c :: c in s.calls ==> s.calls[c].worker != w
  }

  // The states a run goes through, one before each action and one at the end.
  ghost function History(cfg: Settings, start: nat, actions: seq<Action>): nat -> State
    requires cfg.Valid()
  {
    (i: nat) => Run(cfg, start, if i <= |actions| then actions[..i] else actions)
  }

  ghost predicate Follows(cfg: Settings, states: nat -> State, actions: seq<Action>) {
    forall i: nat :: i < |actions| ==> FollowsAt(cfg, states, actions[i], i)
  }

  ghost predicate FollowsAt(cfg: Settings, states: nat -> State, a: Action, i: nat) {
    var s := states(i);
    && s.pool.WellFormed() && states(i + 1) == Next(cfg, s, a)
    && (forall c :: c in s.calls ==> s.calls[c].worker < s.pool.nextId)
  }

  lemma HistoryFollows(cfg: Settings, start: nat, actions: seq<Action>)
    requires cfg.Valid()
    ensures Follows(cfg, History(cfg, start, actions), actions)
    ensures History(cfg, start, actions)(|actions|) == Run(cfg, start, actions)
  {
    assert actions[..|actions|] == actions;
    forall i: nat | i < |actions| ensures FollowsAt(cfg, History(cfg, start, actions), actions[i], i) {
      assert actions[..i + 1][..i] == actions[..i];
      RunOneMore(cfg, start, actions[..i + 1]);
      CallFacts(cfg, Run(cfg, start, actions[..i]));
    }
  }

  // From step `from` on the worker is alone, the pool is not closed, and no tick comes
  // `idleTimeout` after its release at time `at`.
  ghost predicate LeftAlone(cfg: Settings, states: nat -> State, actions: seq<Action>, from: nat, w: WorkerId, at: nat) {
    && (forall i: nat :: from <= i <= |actions| ==> Alone(states(i), w))
    && (forall i: nat :: from <= i < |actions| ==>
          actions[i] != ClosePool && (actions[i].ReaperTick? ==> actions[i].now < at + cfg.idleTimeout))
  }

  ghost predicate Rests(s: State, w: WorkerId, h: Handle) {
    w in s.pool.workers && s.pool.workers[w] == h && !h.busy
  }

  lemma RestsOneMore(cfg: Settings, states: nat -> State, a: Action, i: nat, w: WorkerId, h: Handle)
    requires FollowsAt(cfg, states, a, i) && Rests(states(i), w, h) && Alone(states(i), w) && Alone(states(i + 1), w)
    requires a != ClosePool && (a.ReaperTick? ==> a.now < h.lastUsedAt + cfg.idleTimeout)
    ensures Rests(states(i + 1), w, h)
  {
    IdleStays(cfg, states(i), a, w, states(i + 1));
  }

  lemma {:induction false} RestingStays(states: nat -> State, from: nat, n: nat, w: WorkerId, h: Handle)
    requires from <= n && Rests(states(from), w, h)
    requires forall i: nat :: from <= i < n && Rests(states(i), w, h) ==> Rests(states(i + 1), w, h)
    ensures Rests(states(n), w, h)
  {
    if from < n { RestingStays(states, from, n - 1, w, h); }
  }

  // A worker released at `at` that is still registered after the release reads idle
  // since `at` with its count of tasks, and stays so, whatever else happens, until
  // it dies, is leased again, the pool is closed, or a tick comes at `at` plus the
  // idle timeout or later.
  lemma ReleasedWorkerStays(cfg: Settings, start: nat, actions: seq<Action>, k: nat, c: CallId, w: WorkerId, at: nat)
    requires cfg.Valid() && k < |actions| && actions[k] == Finish(c, at)
    requires var states := History(cfg, start, actions);
             && c in states(k).calls && states(k).calls[c].Finishing? && states(k).calls[c].worker == w
             && w in states(k + 1).pool.workers
             && LeftAlone(cfg, states, actions, k + 1, w, at)
    ensures var p, q := History(cfg, start, actions)(k).pool.workers, Run(cfg, start, actions).pool.workers;
            w in p && w in q && q[w] == p[w].(busy := false, lastUsedAt := at)
  {
    HistoryFollows(cfg, start, actions);
    ReleasedRests(cfg, History(cfg, start, actions), actions, k, c, w, at);
  }

  lemma FinishRests(cfg: Settings, s: State, c: CallId, w: WorkerId, at: nat, t: State)
    requires s.pool.WellFormed() && c in s.calls && s.calls[c].Finishing? && s.calls[c].worker == w < s.pool.nextId
    requires t == Next(cfg, s, Finish(c, at)) && w in t.pool.workers
    ensures w in s.pool.workers && Rests(t, w, s.pool.workers[w].(busy := false, lastUsedAt := at))
  {
    FinishIsExact(cfg, s, c, at, t);
  }

  lemma LaterRests(cfg: Settings, states: nat -> State, actions: seq<Action>, from: nat, w: WorkerId, h: Handle)
    requires Follows(cfg, states, actions) && from <= |actions| && Rests(states(from), w, h)
    requires LeftAlone(cfg, states, actions, from, w, h.lastUsedAt)
    ensures Rests(states(|actions|), w, h)
  {
    forall i: nat | from <= i < |actions| && Rests(states(i), w, h) ensures Rests(states(i + 1), w, h) {
      RestsOneMore(cfg, states, actions[i], i, w, h);
    }
    RestingStays(states, from, |actions|, w, h);
  }

  lemma ReleasedRests(cfg: Settings, states: nat -> State, actions: seq<Action>, k: nat, c: CallId, w: WorkerId, at: nat)
    requires Follows(cfg, states, actions) && k < |actions| && actions[k] == Finish(c, at)
    requires c in states(k).calls && states(k).calls[c].Finishing? && states(k).calls[c].worker == w
    requires w in states(k + 1).pool.workers && LeftAlone(cfg, states, actions, k + 1, w, at)
    ensures w in states(k).pool.workers
            && Rests(states(|actions|), w, states(k).pool.workers[w].(busy := false, lastUsedAt := at))
  {
    assert FollowsAt(cfg, states, actions[k], k);
    FinishRests(cfg, states(k), c, w, at, states(k + 1));
    LaterRests(cfg, states, actions, k + 1, w, states(k).pool.workers[w].(busy := false, lastUsedAt := at));
  }

  // The converse: a tick that finds an idle worker not used for the timeout removes
  // it, unless it leaves the pool no larger than its warm floor.
  lemma {:induction false} LongIdleWorkerGoes(cfg: Settings, start: nat, actions: seq<Action>, w: WorkerId, now: nat)
    requires cfg.Valid() && cfg.idleTimeout > 0
    requires var p := Run(cfg, start, actions).pool;
             !p.closed && w in p.workers && !p.workers[w].busy && now >= p.workers[w].lastUsedAt + cfg.idleTimeout
    ensures var q := Run(cfg, start, actions + [ReaperTick(now)]).pool.workers;
            w !in q || |q| <= cfg.minWarm
  {
    var all := actions + [ReaperTick(now)];
    assert all[..|all| - 1] == actions && all[|all| - 1] == ReaperTick(now);
    RunOneMore(cfg, start, all);
    TickIsExact(cfg, Run(cfg, start, actions), now, Run(cfg, start, all));
  }

  // ----- a task's way through a worker

  // Sent, taken, answered and read: the call gets the reply to its own task and the
  // worker is left as it was.
  lemma TaskRoundTrip(cfg: Settings, s: State, c: CallId, w: WorkerId, read: State)
    requires s.pool.WellFormed() && c in s.calls && s.calls[c] == Leased(w) && w in s.links && s.links[w] == FRESH_LINK
    requires read == Next(cfg, Next(cfg, Next(cfg, Next(cfg, s, Send(c)), Work(w, TakeTask)), Work(w, PutReply)), Receive(c))
    ensures read == s.(calls := s.calls[c := Answered(w)], nextTask := s.nextTask + 1)
  {
    var id := s.nextTask;
    var sent := Next(cfg, s, Send(c));
    assert sent.links[w] == Link(Idle, [Task(id)], []) && sent.calls[c] == Awaiting(w, id);
    var taken := Next(cfg, sent, Work(w, TakeTask));
    assert taken.links[w] == Link(Running(id), [], []);
    var replied := Next(cfg, taken, Work(w, PutReply));
    assert replied.links[w] == Link(Idle, [], [id]) && replied.calls == sent.calls;
    assert replied.links[w].results[1..] == [];
    assert read.links == s.links && read.calls == s.calls[c := Answered(w)];
  }

  // A removed worker that is idle ends once it is sent the sentinel.
  lemma RemovedWorkerStops(cfg: Settings, s: State, w: WorkerId)
    requires s.pool.WellFormed() && w in s.links && w !in s.pool.workers && s.links[w].process.Idle? && s.links[w].tasks == []
    ensures Next(cfg, Next(cfg, s, Work(w, SendStop)), Work(w, TakeTask)).links[w].process == Exited
  {
    assert Next(cfg, s, Work(w, SendStop)).links[w].tasks == [Stop];
  }
}
