// The Python step-execution pool (providers/python/src/worker_pool.py): the
// worker table and every region the source runs while it holds the pool lock.
// Each region is a method of StepExecutionPool proved equal to a function on
// the value `Pool`; WorkerProtocol interleaves those functions.
module WorkerPool {
  import opened Ordering

  // Worker ids are fresh; drawing them from a counter also makes the insertion
  // order of the source's dict the order of the ids.
  type WorkerId = nat

  datatype Settings = Settings(minWarm: nat, maxWorkers: nat, idleTimeout: nat, maxTasks: nat) {
    ghost predicate Valid() {
      minWarm <= maxWorkers && 1 <= maxWorkers && 1 <= maxTasks
    }
  }

  // None is an unset or unparsable environment variable.
  function IntFromEnv(raw: Option<int>, default: int, minimum: int): int {
    match raw
    case Some(n) => Max(minimum, n)
    case None => Max(minimum, default)
  }

  function FromEnv(minWarm: Option<int>, maxWorkers: Option<int>, idleTimeout: Option<int>, maxTasks: Option<int>)
    : (s: Settings)
    ensures s.Valid() && s.idleTimeout > 0
    ensures forall m, n :: minWarm == Some(m) && maxWorkers == Some(n) && 0 <= m <= n && 1 <= n ==>
              s.minWarm == m && s.maxWorkers == n
    // unset or unparsable
    ensures minWarm.None? ==> s.minWarm == 1
    ensures maxWorkers.None? ==> s.maxWorkers == 6
    ensures idleTimeout.None? ==> s.idleTimeout == 600
    ensures maxTasks.None? ==> s.maxTasks == 50
    // out of range
    ensures minWarm.Some? && minWarm.value < 0 ==> s.minWarm == 0
    ensures minWarm.Some? && minWarm.value > s.maxWorkers ==> s.minWarm == s.maxWorkers
    ensures maxWorkers.Some? && maxWorkers.value < 1 ==> s.maxWorkers == 1
    ensures idleTimeout.Some? ==> s.idleTimeout == Max(5, idleTimeout.value)
    ensures maxTasks.Some? ==> s.maxTasks == Max(1, maxTasks.value)
  {
    var workers := IntFromEnv(maxWorkers, 6, 1);
    Settings(Min(IntFromEnv(minWarm, 1, 0), workers), workers,
             IntFromEnv(idleTimeout, 600, 5), IntFromEnv(maxTasks, 50, 1))
  }

  datatype Handle = Handle(workerId: WorkerId, busy: bool, tasksCompleted: nat, lastUsedAt: nat)

  datatype Pool = Pool(workers: map<WorkerId, Handle>, closed: bool, nextId: WorkerId) {
    ghost predicate WellFormed() {
      forall w :: w in workers ==> w < nextId && workers[w].workerId == w
    }
  }

  datatype Outcome = PoolClosed | Acquired(worker: WorkerId) | TimedOut | Waiting

  // ----- the lock-held regions as functions

  function Spawn(p: Pool, now: nat): Pool {
    p.(workers := p.workers[p.nextId := Handle(p.nextId, false, 0, now)], nextId := p.nextId + 1)
  }

  function Warm(cfg: Settings, p: Pool, now: nat): Pool
    requires p.WellFormed()
    decreases cfg.minWarm - |p.workers|
  {
    if |p.workers| < cfg.minWarm then
      assert p.nextId !in p.workers;
      Warm(cfg, Spawn(p, now), now)
    else p
  }

  function Prune(p: Pool, alive: set<WorkerId>): Pool {
    p.(workers := map w | w in p.workers && w in alive :: p.workers[w])
  }

  function Without(p: Pool, w: WorkerId): Pool {
    p.(workers := p.workers - {w})
  }

  // The first idle worker in dict order among the ids in [lo, hi).
  function FirstIdle(workers: map<WorkerId, Handle>, lo: nat, hi: nat): (r: Option<WorkerId>)
    requires lo <= hi
    ensures match r
            case Some(w) => lo <= w < hi && w in workers && !workers[w].busy
                            && forall v :: lo <= v < w && v in workers ==> workers[v].busy
            case None => forall v :: lo <= v < hi && v in workers ==> workers[v].busy
    decreases hi - lo
  {
    if lo == hi then None
    else if lo in workers && !workers[lo].busy then Some(lo)
    else FirstIdle(workers, lo + 1, hi)
  }

  function Lease(p: Pool, w: WorkerId): Pool
    requires w in p.workers
  {
    p.(workers := p.workers[w := p.workers[w].(busy := true)])
  }

  // One pass of the acquire loop; `expired` says that the deadline has passed.
  function AcquirePass(cfg: Settings, p: Pool, alive: set<WorkerId>, expired: bool, now: nat): (r: (Pool, Outcome))
    ensures r.1.Acquired? ==> r.1.worker in r.0.workers && r.0.workers[r.1.worker].busy
  {
    if p.closed then (p, PoolClosed)
    else
      var q := Prune(p, alive);
      match FirstIdle(q.workers, 0, q.nextId)
      case Some(w) => (Lease(q, w), Acquired(w))
      case None =>
        if |q.workers| < cfg.maxWorkers then (Lease(Spawn(q, now), q.nextId), Acquired(q.nextId))
        else (q, if expired then TimedOut else Waiting)
  }

  function Release(cfg: Settings, p: Pool, w: WorkerId, retire: bool, now: nat): Pool
    requires p.WellFormed()
  {
    if w !in p.workers then p
    else
      var q := p.(workers := p.workers[w := p.workers[w].(busy := false, lastUsedAt := now)]);
      Warm(cfg, if retire && |q.workers| > cfg.minWarm then Without(q, w) else q, now)
  }

  function RecordCompletion(cfg: Settings, p: Pool, w: WorkerId): (Pool, bool) {
    if w !in p.workers then (p, false)
    else
      var h := p.workers[w].(tasksCompleted := p.workers[w].tasksCompleted + 1);
      (p.(workers := p.workers[w := h]), h.tasksCompleted >= cfg.maxTasks)
  }

  function Drop(cfg: Settings, p: Pool, w: WorkerId, now: nat): Pool
    requires p.WellFormed()
  {
    Warm(cfg, Without(p, w), now)
  }

  predicate Expired(cfg: Settings, h: Handle, now: nat) {
    !h.busy && now - h.lastUsedAt >= cfg.idleTimeout
  }

  // The expired idle handles with id below n, in dict order.
  function ExpiredBelow(cfg: Settings, workers: map<WorkerId, Handle>, now: nat, n: nat): seq<Handle> {
    if n == 0 then []
    else ExpiredBelow(cfg, workers, now, n - 1)
         + if n - 1 in workers && Expired(cfg, workers[n - 1], now) then [workers[n - 1]] else []
  }

  predicate OlderFirst(a: Handle, b: Handle) { a.lastUsedAt <= b.lastUsedAt }

  // The sorted list the shrink loop works through.
  function ShrinkQueue(cfg: Settings, p: Pool, now: nat): seq<Handle> {
    Sort(ExpiredBelow(cfg, p.workers, now, p.nextId), OlderFirst)
  }

  function RemoveInTurn(cfg: Settings, p: Pool, queue: seq<Handle>): Pool
    decreases |queue|
  {
    if |p.workers| > cfg.minWarm && queue != [] then
      RemoveInTurn(cfg, Without(p, queue[0].workerId), queue[1..])
    else p
  }

  function Shrink(cfg: Settings, p: Pool, now: nat): Pool {
    if cfg.idleTimeout <= 0 then p
    else RemoveInTurn(cfg, p, ShrinkQueue(cfg, p, now))
  }

  function Reap(cfg: Settings, p: Pool, alive: set<WorkerId>, now: nat): Pool
    requires p.WellFormed()
  {
    if p.closed then p
    else
      ShrinkKeepsWellFormed(cfg, Prune(p, alive), now);
      Warm(cfg, Shrink(cfg, Prune(p, alive), now), now)
  }

  function Close(p: Pool): Pool {
    if p.closed then p else p.(workers := map[], closed := true)
  }

  // ----- what the regions do to the table

  lemma WithoutSize(p: Pool, w: WorkerId)
    ensures |Without(p, w).workers| == |p.workers| - (if w in p.workers then 1 else 0)
  {
    var q := Without(p, w);
    if w in p.workers {
      assert p.workers.Keys == q.workers.Keys + {w};
    } else {
      assert q.workers == p.workers;
    }
  }

  lemma SubTableSize(small: map<WorkerId, Handle>, big: map<WorkerId, Handle>)
    requires small.Keys <= big.Keys
    ensures |small| <= |big|
  {
    assert big.Keys == small.Keys + (big.Keys - small.Keys);
  }

  // `q` has exactly some of the workers of `p`, each unchanged.
  ghost predicate SubPool(q: Pool, p: Pool) {
    && q.closed == p.closed && q.nextId == p.nextId
    && forall w :: w in q.workers ==> w in p.workers && q.workers[w] == p.workers[w]
  }

  // `q` is `p` with fresh idle workers added.
  ghost predicate Grown(q: Pool, p: Pool, now: nat) {
    && q.closed == p.closed && p.nextId <= q.nextId
    && (forall w :: w in p.workers ==> w in q.workers && q.workers[w] == p.workers[w])
    && (forall w :: w in q.workers && w !in p.workers ==>
          p.nextId <= w < q.nextId && q.workers[w] == Handle(w, false, 0, now))
  }

  // Warming up adds exactly the missing workers and touches no other.
  lemma {:induction false} WarmGrows(cfg: Settings, p: Pool, now: nat)
    requires p.WellFormed()
    ensures var q := Warm(cfg, p, now);
            q.WellFormed() && Grown(q, p, now) && |q.workers| == Max(|p.workers|, cfg.minWarm)
    decreases cfg.minWarm - |p.workers|
  {
    if |p.workers| < cfg.minWarm {
      assert p.nextId !in p.workers;
      WarmGrows(cfg, Spawn(p, now), now);
    }
  }

  lemma WithoutMissing(p: Pool, w: WorkerId)
    requires w !in p.workers
    ensures Without(p, w) == p
  {
    assert p.workers - {w} == p.workers;
  }

  lemma RemoveOne(cfg: Settings, p: Pool, queue: seq<Handle>)
    requires |p.workers| > cfg.minWarm && queue != []
    ensures RemoveInTurn(cfg, p, queue) == RemoveInTurn(cfg, Without(p, queue[0].workerId), queue[1..])
  {
  }

  lemma {:induction false} RemoveInTurnIsSubPool(cfg: Settings, p: Pool, queue: seq<Handle>)
    ensures SubPool(RemoveInTurn(cfg, p, queue), p)
    decreases |queue|
  {
    if |p.workers| > cfg.minWarm && queue != [] {
      RemoveInTurnIsSubPool(cfg, Without(p, queue[0].workerId), queue[1..]);
    }
  }

  lemma ShrinkKeepsWellFormed(cfg: Settings, p: Pool, now: nat)
    requires p.WellFormed()
    ensures SubPool(Shrink(cfg, p, now), p) && Shrink(cfg, p, now).WellFormed()
  {
    RemoveInTurnIsSubPool(cfg, p, ShrinkQueue(cfg, p, now));
  }

  // An acquire times out only when the pool is full and every worker is busy.
  lemma TimeoutMeansAllBusy(cfg: Settings, p: Pool, alive: set<WorkerId>, expired: bool, now: nat)
    requires cfg.Valid() && p.WellFormed() && |p.workers| <= cfg.maxWorkers
    ensures var left := Prune(p, alive).workers;
            AcquirePass(cfg, p, alive, expired, now).1 == TimedOut <==>
            !p.closed && expired && |left| == cfg.maxWorkers && forall w :: w in left ==> left[w].busy
    ensures AcquirePass(cfg, p, alive, expired, now).1 == TimedOut ==>
              AcquirePass(cfg, p, alive, expired, now).0 == Prune(p, alive)
  {
    var pruned := Prune(p, alive);
    SubTableSize(pruned.workers, p.workers);
  }

  // ----- scale-down is exact

  function Ids(queue: seq<Handle>): (ids: set<WorkerId>)
    ensures forall h :: h in queue ==> h.workerId in ids
    ensures forall w :: w in ids ==> exists h :: h in queue && h.workerId == w
  {
    if queue == [] then {}
    else
      assert forall h :: h in queue ==> h == queue[0] || h in queue[1..];
      {queue[0].workerId} + Ids(queue[1..])
  }

  function WithoutAll(p: Pool, ids: set<WorkerId>): Pool {
    p.(workers := p.workers - ids)
  }

  lemma {:induction false} ExpiredBelowIsExact(cfg: Settings, p: Pool, now: nat, n: nat)
    requires p.WellFormed()
    ensures var e := ExpiredBelow(cfg, p.workers, now, n);
            && (forall h :: h in e <==> h.workerId < n && h.workerId in p.workers
                                        && p.workers[h.workerId] == h && Expired(cfg, h, now))
            && NoDuplicates(e)
  {
    if n > 0 {
      ExpiredBelowIsExact(cfg, p, now, n - 1);
      var d := ExpiredBelow(cfg, p.workers, now, n - 1);
      forall h | h in d ensures h.workerId != n - 1 {}
    }
  }

  lemma SortKeepsDistinct(s: seq<Handle>)
    requires NoDuplicates(s)
    ensures NoDuplicates(Sort(s, OlderFirst))
    ensures forall h :: h in Sort(s, OlderFirst) <==> h in s
  {
    PermutationHasNoDuplicates(s, Sort(s, OlderFirst));
    forall h ensures h in Sort(s, OlderFirst) <==> h in s {
      assert h in multiset(Sort(s, OlderFirst)) <==> h in multiset(s);
    }
  }

  lemma {:induction false} IdsOfConcat(a: seq<Handle>, b: seq<Handle>)
    ensures Ids(a + b) == Ids(a) + Ids(b)
  {
    if a == [] {
      assert a + b == b;
    } else {
      assert (a + b)[1..] == a[1..] + b;
      IdsOfConcat(a[1..], b);
    }
  }

  // The queue holds handles that are in the table, once each.
  ghost predicate QueueOf(p: Pool, queue: seq<Handle>) {
    && NoDuplicates(queue)
    && forall h :: h in queue ==> h.workerId in p.workers && p.workers[h.workerId] == h
  }

  function SurplusIn(cfg: Settings, p: Pool, queue: seq<Handle>): nat {
    Min(|queue|, Max(0, |p.workers| - cfg.minWarm))
  }

  lemma QueueTail(p: Pool, queue: seq<Handle>)
    requires QueueOf(p, queue) && queue != []
    ensures QueueOf(Without(p, queue[0].workerId), queue[1..])
  {
    forall h | h in queue[1..] ensures h in queue && h != queue[0] {}
  }

  // Exactly the queue's first workers go, as many as the warm floor allows.
  lemma {:induction false} RemovesAPrefix(cfg: Settings, p: Pool, queue: seq<Handle>)
    requires QueueOf(p, queue)
    ensures var k := SurplusIn(cfg, p, queue);
            && RemoveInTurn(cfg, p, queue) == WithoutAll(p, Ids(queue[..k]))
            && |RemoveInTurn(cfg, p, queue).workers| == |p.workers| - k
    decreases |queue|
  {
    var k := SurplusIn(cfg, p, queue);
    if |p.workers| > cfg.minWarm && queue != [] {
      var w, rest := queue[0].workerId, queue[1..];
      WithoutSize(p, w);
      QueueTail(p, queue);
      RemovesAPrefix(cfg, Without(p, w), rest);
      IdsOfHead(queue, k);
      WithoutInTwoSteps(p, w, Ids(rest[..k - 1]));
    } else {
      assert queue[..k] == [] && WithoutAll(p, {}) == p;
    }
  }

  lemma IdsOfHead(queue: seq<Handle>, k: nat)
    requires 1 <= k <= |queue|
    ensures Ids(queue[..k]) == {queue[0].workerId} + Ids(queue[1..][..k - 1])
  {
    assert queue[..k][1..] == queue[1..][..k - 1];
  }

  lemma WithoutInTwoSteps(p: Pool, w: WorkerId, ids: set<WorkerId>)
    ensures WithoutAll(Without(p, w), ids) == WithoutAll(p, {w} + ids)
  {
    assert p.workers - {w} - ids == p.workers - ({w} + ids);
  }

  function ExpiredIds(cfg: Settings, p: Pool, now: nat): set<WorkerId> {
    set w | w in p.workers && Expired(cfg, p.workers[w], now)
  }

  lemma ShrinkQueueIsExact(cfg: Settings, p: Pool, now: nat)
    requires p.WellFormed()
    ensures var queue := ShrinkQueue(cfg, p, now);
            && QueueOf(p, queue) && InOrder(queue, OlderFirst)
            && Ids(queue) == ExpiredIds(cfg, p, now) && |queue| == |ExpiredIds(cfg, p, now)|
  {
    var list := ExpiredBelow(cfg, p.workers, now, p.nextId);
    var queue := ShrinkQueue(cfg, p, now);
    ExpiredBelowIsExact(cfg, p, now, p.nextId);
    SortKeepsDistinct(list);
    SortOrders(list, OlderFirst);
    forall w | w in ExpiredIds(cfg, p, now) ensures w in Ids(queue) {
      assert p.workers[w] in queue;
    }
    DistinctIds(queue);
  }

  function Victims(cfg: Settings, p: Pool, now: nat): set<WorkerId> {
    var queue := ShrinkQueue(cfg, p, now);
    Ids(queue[..SurplusIn(cfg, p, queue)])
  }

  lemma ShrinkRemovesVictims(cfg: Settings, p: Pool, now: nat)
    requires p.WellFormed() && cfg.idleTimeout > 0
    ensures Shrink(cfg, p, now) == WithoutAll(p, Victims(cfg, p, now))
    ensures |Victims(cfg, p, now)| == Min(|ExpiredIds(cfg, p, now)|, Max(0, |p.workers| - cfg.minWarm))
  {
    var queue := ShrinkQueue(cfg, p, now);
    ShrinkQueueIsExact(cfg, p, now);
    RemovesAPrefix(cfg, p, queue);
    HeadIsDistinct(queue, SurplusIn(cfg, p, queue));
  }

  lemma HeadIsWithin(queue: seq<Handle>, k: nat)
    requires k <= |queue|
    ensures Ids(queue[..k]) <= Ids(queue)
  {
    assert queue == queue[..k] + queue[k..];
    IdsOfConcat(queue[..k], queue[k..]);
  }

  lemma VictimsAreOldest(cfg: Settings, p: Pool, now: nat)
    requires p.WellFormed()
    ensures Victims(cfg, p, now) <= ExpiredIds(cfg, p, now)
    ensures forall r, v :: r in Victims(cfg, p, now) && v in ExpiredIds(cfg, p, now) - Victims(cfg, p, now) ==>
              p.workers[r].lastUsedAt <= p.workers[v].lastUsedAt
  {
    var queue := ShrinkQueue(cfg, p, now);
    ShrinkQueueIsExact(cfg, p, now);
    var k := SurplusIn(cfg, p, queue);
    HeadIsWithin(queue, k);
    forall r, v | r in Victims(cfg, p, now) && v in ExpiredIds(cfg, p, now) - Victims(cfg, p, now)
      ensures p.workers[r].lastUsedAt <= p.workers[v].lastUsedAt
    {
      HeadIsOlder(p, queue, k, r, v);
    }
  }

  // Scale-down removes min(expired idle, surplus over the warm floor) workers,
  // each one idle and expired, and none of them was used later than an expired
  // idle worker that stays.
  lemma ShrinkIsExact(cfg: Settings, p: Pool, now: nat)
    requires p.WellFormed() && cfg.idleTimeout > 0
    ensures SubPool(Shrink(cfg, p, now), p)
    ensures var expired := ExpiredIds(cfg, p, now);
            var removed := p.workers.Keys - Shrink(cfg, p, now).workers.Keys;
            && |removed| == Min(|expired|, Max(0, |p.workers| - cfg.minWarm))
            && removed <= expired
            && (forall r, k :: r in removed && k in expired - removed ==>
                  p.workers[r].lastUsedAt <= p.workers[k].lastUsedAt)
  {
    ShrinkRemovesVictims(cfg, p, now);
    VictimsAreOldest(cfg, p, now);
    RemovedKeys(p, Victims(cfg, p, now));
  }

  lemma RemovedKeys(p: Pool, ids: set<WorkerId>)
    requires ids <= p.workers.Keys
    ensures p.workers.Keys - WithoutAll(p, ids).workers.Keys == ids
    ensures SubPool(WithoutAll(p, ids), p)
  {
  }

  lemma HeadIsDistinct(queue: seq<Handle>, k: nat)
    requires k <= |queue| && NoDuplicates(queue)
    requires forall g, h :: g in queue && h in queue && g.workerId == h.workerId ==> g == h
    ensures |Ids(queue[..k])| == k
  {
    forall h | h in queue[..k] ensures h in queue {}
    DistinctIds(queue[..k]);
  }

  lemma HeadIsOlder(p: Pool, queue: seq<Handle>, k: nat, r: WorkerId, v: WorkerId)
    requires k <= |queue| && QueueOf(p, queue) && InOrder(queue, OlderFirst)
    requires r in Ids(queue[..k]) && v in Ids(queue) && v !in Ids(queue[..k])
    ensures p.workers[r].lastUsedAt <= p.workers[v].lastUsedAt
  {
    var g :| g in queue[..k] && g.workerId == r;
    var h :| h in queue && h.workerId == v;
    var i :| 0 <= i < k && queue[i] == g;
    var j :| 0 <= j < |queue| && queue[j] == h;
    assert k <= j;
    assert queue[i] in queue && OlderFirst(queue[i], queue[j]);
  }

  lemma {:induction false} DistinctIds(queue: seq<Handle>)
    requires NoDuplicates(queue)
    requires forall g, h :: g in queue && h in queue && g.workerId == h.workerId ==> g == h
    ensures |Ids(queue)| == |queue|
  {
    if queue != [] {
      var front, last := queue[..|queue| - 1], queue[|queue| - 1];
      assert queue == front + [last];
      forall g | g in front ensures g in queue {}
      DistinctIds(front);
      assert last !in front;
      assert last.workerId !in Ids(front);
      IdsOfConcat(front, [last]);
    }
  }

  // ----- the pool object

  class StepExecutionPool {
    const settings: Settings
    var workers: map<WorkerId, Handle>
    var closed: bool
    var nextId: WorkerId

    ghost function View(): Pool
      reads this
    {
      Pool(workers, closed, nextId)
    }

    ghost predicate Valid()
      reads this
    {
      settings.Valid() && View().WellFormed() && |workers| <= settings.maxWorkers
    }

    constructor (settings: Settings, now: nat)
      requires settings.Valid()
      ensures Valid() && this.settings == settings
      ensures View() == Warm(settings, Pool(map[], false, 0), now)
    {
      this.settings := settings;
      workers, closed, nextId := map[], false, 0;
      new;
      EnsureMinWarm(now);
    }

    method SpawnWorker(now: nat) returns (w: WorkerId)
      requires View().WellFormed()
      modifies this
      ensures View() == Spawn(old(View()), now) && w == old(nextId) && View().WellFormed()
    {
      w := nextId;
      nextId := nextId + 1;
      workers := workers[w := Handle(w, false, 0, now)];
    }

    method EnsureMinWarm(now: nat)
      requires settings.Valid() && View().WellFormed() && |workers| <= settings.maxWorkers
      modifies this
      ensures Valid() && View() == Warm(settings, old(View()), now)
    {
      WarmGrows(settings, View(), now);
      while |workers| < settings.minWarm
        invariant View().WellFormed() && |workers| <= settings.maxWorkers
        invariant Warm(settings, View(), now) == Warm(settings, old(View()), now)
        decreases settings.minWarm - |workers|
      {
        var w := SpawnWorker(now);
      }
    }

    method PruneDeadWorkers(alive: set<WorkerId>)
      requires Valid()
      modifies this
      ensures Valid() && View() == Prune(old(View()), alive)
    {
      ghost var before := workers;
      var items := workers.Keys;
      while items != {}
        invariant View() == old(View()).(workers := workers)
        invariant items <= workers.Keys <= before.Keys
        invariant forall w :: w in before ==>
                    (w in workers <==> w in items || w in alive)
        invariant forall w :: w in workers ==> workers[w] == before[w]
        decreases items
      {
        var w :| w in items;
        items := items - {w};
        if w !in alive {
          workers := workers - {w};
        }
      }
      SubTableSize(workers, before);
      assert workers == Prune(old(View()), alive).workers;
    }

    // One pass of the acquire loop between two waits on the condition.
    method TryAcquire(alive: set<WorkerId>, expired: bool, now: nat) returns (outcome: Outcome)
      requires Valid()
      modifies this
      ensures Valid()
      ensures (View(), outcome) == AcquirePass(settings, old(View()), alive, expired, now)
    {
      if closed {
        return PoolClosed;
      }
      PruneDeadWorkers(alive);
      var w := 0;
      while w < nextId
        invariant 0 <= w <= nextId
        invariant FirstIdle(workers, w, nextId) == FirstIdle(workers, 0, nextId)
      {
        if w in workers && !workers[w].busy {
          workers := workers[w := workers[w].(busy := true)];
          return Acquired(w);
        }
        w := w + 1;
      }
      if |workers| < settings.maxWorkers {
        var spawned := SpawnWorker(now);
        workers := workers[spawned := workers[spawned].(busy := true)];
        return Acquired(spawned);
      }
      return if expired then TimedOut else Waiting;
    }

    method ReleaseWorker(w: WorkerId, retireAfter: bool, now: nat) returns (shouldStop: bool)
      requires Valid()
      modifies this
      ensures Valid() && View() == Release(settings, old(View()), w, retireAfter, now)
      ensures shouldStop <==> w in old(workers) && w !in workers
      ensures w in old(workers) && w in workers ==>
                workers[w] == old(workers)[w].(busy := false, lastUsedAt := now)
    {
      shouldStop := false;
      if w !in workers {
        return;
      }
      workers := workers[w := workers[w].(busy := false, lastUsedAt := now)];
      if retireAfter && |workers| > settings.minWarm {
        WithoutSize(View(), w);
        workers := workers - {w};
        shouldStop := true;
      }
      WarmGrows(settings, View(), now);
      EnsureMinWarm(now);
    }

    method RecordTaskCompletion(w: WorkerId) returns (retire: bool)
      requires Valid()
      modifies this
      ensures Valid() && (View(), retire) == RecordCompletion(settings, old(View()), w)
    {
      if w !in workers {
        return false;
      }
      var h := workers[w];
      workers := workers[w := h.(tasksCompleted := h.tasksCompleted + 1)];
      retire := workers[w].tasksCompleted >= settings.maxTasks;
    }

    method DropWorker(w: WorkerId, now: nat) returns (removed: bool)
      requires Valid()
      modifies this
      ensures Valid() && View() == Drop(settings, old(View()), w, now)
      ensures removed <==> w in old(workers)
    {
      removed := false;
      WithoutSize(View(), w);
      if w in workers {
        workers := workers - {w};
        removed := true;
      } else {
        assert workers - {w} == workers;
      }
      EnsureMinWarm(now);
    }

    method ShrinkIdleWorkers(now: nat)
      requires Valid()
      modifies this
      ensures Valid() && View() == Shrink(settings, old(View()), now)
    {
      if settings.idleTimeout <= 0 {
        return;
      }
      ghost var before := View();
      var idle: seq<Handle> := [];
      var w := 0;
      while w < nextId
        invariant 0 <= w <= nextId && View() == before
        invariant idle == ExpiredBelow(settings, workers, now, w)
      {
        if w in workers && Expired(settings, workers[w], now) {
          idle := idle + [workers[w]];
        }
        w := w + 1;
      }
      RemoveOldest(Sort(idle, OlderFirst));
    }

    // The loop that stops the longest idle workers down to the warm floor.
    method RemoveOldest(queue: seq<Handle>)
      requires Valid()
      modifies this
      ensures Valid() && View() == RemoveInTurn(settings, old(View()), queue)
    {
      var idle := queue;
      ghost var start, goal := View(), RemoveInTurn(settings, View(), queue);
      while |workers| > settings.minWarm && idle != []
        invariant View() == start.(workers := workers) && RemoveInTurn(settings, start.(workers := workers), idle) == goal
        decreases |idle|
      {
        var oldest := idle[0];
        RemoveOne(settings, start.(workers := workers), idle);
        idle := idle[1..];
        if oldest.workerId !in workers {
          WithoutMissing(start.(workers := workers), oldest.workerId);
          continue;
        }
        workers := workers - {oldest.workerId};
      }
      RemoveInTurnIsSubPool(settings, start, queue);
      SubTableSize(workers, start.workers);
    }

    method ReaperTick(alive: set<WorkerId>, now: nat)
      requires Valid()
      modifies this
      ensures Valid() && View() == Reap(settings, old(View()), alive, now)
    {
      if closed {
        return;
      }
      PruneDeadWorkers(alive);
      ShrinkIdleWorkers(now);
      EnsureMinWarm(now);
    }

    method Shutdown()
      requires Valid()
      modifies this
      ensures Valid() && View() == Close(old(View()))
    {
      if closed {
        return;
      }
      closed := true;
      workers := map[];
    }
  }
}
