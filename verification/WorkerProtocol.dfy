// Interleaving of everything that runs around the step-execution pool: calls of
// execute_step, the worker processes, spontaneous process deaths, the stop
// sentinels sent to removed workers, the reaper, snapshots and close.  Each
// lock-held region of WorkerPool is one step; queue operations and process
// progress are steps of their own.
module WorkerProtocol {
  import opened Ordering
  import opened WorkerPool

  type CallId = nat
  type TaskId = nat

  datatype Process = Idle | Running(task: TaskId) | Exited
  datatype Message = Task(id: TaskId) | Stop

  // A worker process with its two queues, each of capacity one.
  datatype Link = Link(process: Process, tasks: seq<Message>, results: seq<TaskId>)

  // Where a call of execute_step stands; a call that returned is in no phase.
  datatype Phase =
    | Leased(worker: WorkerId)                     // holds a worker, nothing sent yet
    | Awaiting(worker: WorkerId, task: TaskId)     // task sent, polling for its reply
    | Answered(worker: WorkerId)                   // reply carried the call's own task id
    | Mismatched(worker: WorkerId)                 // reply carried another task id
    | Failing(worker: WorkerId)                    // an exception is on its way to the drop
    | Finishing(worker: WorkerId, retire: bool)    // in the finally block

  datatype State = State(pool: Pool, links: map<WorkerId, Link>, calls: map<CallId, Phase>, nextTask: TaskId)

  datatype Action =
    | Acquire(call: CallId, expired: bool, now: nat)
    | Send(call: CallId)
    | Receive(call: CallId)
    | GiveUp(call: CallId)               // send failure, timeout, dead process, unreadable queue
    | Record(call: CallId)
    | DropBroken(call: CallId, now: nat)
    | Finish(call: CallId, now: nat)
    | Work(worker: WorkerId, event: Event)
    | ReaperTick(now: nat)
    | Snapshot
    | ClosePool

  // What happens at one worker, independently of the pool lock.
  datatype Event =
    | TakeTask
    | PutReply
    | LoseReply                          // the reply could not be pickled
    | Die
    | SendStop                           // the sentinel for a worker that was removed

  const FRESH_LINK := Link(Idle, [], [])

  function Alive(s: State): set<WorkerId> {
    set w | w in s.links && !s.links[w].process.Exited?
  }

  // The state after a pool region; workers it spawned get their queues.
  function WithPool(s: State, p: Pool): State {
    s.(pool := p,
       links := map w | w in s.links.Keys + p.workers.Keys :: if w in s.links then s.links[w] else FRESH_LINK)
  }

  function SetPhase(s: State, c: CallId, phase: Phase): State {
    s.(calls := s.calls[c := phase])
  }

  function SetLink(s: State, w: WorkerId, link: Link): State {
    s.(links := s.links[w := link])
  }

  function Initial(cfg: Settings, now: nat): State {
    var empty := Pool(map[], false, 0);
    WithPool(State(empty, map[], map[], 0), Warm(cfg, empty, now))
  }

  // One step; an action that is not enabled changes nothing.
  function Next(cfg: Settings, s: State, a: Action): State
    requires s.pool.WellFormed()
  {
    match a
    case Acquire(c, expired, now) => if c in s.calls then s else TryLease(cfg, s, c, expired, now)
    case Send(c) => if c in s.calls && s.calls[c].Leased? then SendTask(s, c) else s
    case Receive(c) => if c in s.calls && s.calls[c].Awaiting? then ReadReply(s, c) else s
    case GiveUp(c) =>
      if c in s.calls && (s.calls[c].Leased? || s.calls[c].Awaiting? || s.calls[c].Mismatched?) then
        SetPhase(s, c, Failing(s.calls[c].worker))
      else s
    case Record(c) => if c in s.calls && s.calls[c].Answered? then RecordDone(cfg, s, c) else s
    case DropBroken(c, now) => if c in s.calls && s.calls[c].Failing? then DropHeld(cfg, s, c, now) else s
    case Finish(c, now) => if c in s.calls && s.calls[c].Finishing? then ReleaseHeld(cfg, s, c, now) else s
    case Work(w, event) =>
      if w in s.links then SetLink(s, w, LinkStep(s.links[w], w in s.pool.workers, event)) else s
    case ReaperTick(now) => WithPool(s, Reap(cfg, s.pool, Alive(s), now))
    case Snapshot => s.(pool := Prune(s.pool, Alive(s)))
    case ClosePool => s.(pool := Close(s.pool))
  }

  // One pass of the acquire loop; only a pass that leases starts the call.
  function TryLease(cfg: Settings, s: State, c: CallId, expired: bool, now: nat): State {
    var (p, outcome) := AcquirePass(cfg, s.pool, Alive(s), expired, now);
    var t := WithPool(s, p);
    if outcome.Acquired? then SetPhase(t, c, Leased(outcome.worker)) else t
  }

  function RecordDone(cfg: Settings, s: State, c: CallId): State
    requires c in s.calls
  {
    var (p, retire) := RecordCompletion(cfg, s.pool, s.calls[c].worker);
    SetPhase(s.(pool := p), c, Finishing(s.calls[c].worker, retire))
  }

  function DropHeld(cfg: Settings, s: State, c: CallId, now: nat): State
    requires s.pool.WellFormed() && c in s.calls
  {
    var w := s.calls[c].worker;
    SetPhase(WithPool(s, Drop(cfg, s.pool, w, now)), c, Finishing(w, false))
  }

  function ReleaseHeld(cfg: Settings, s: State, c: CallId, now: nat): State
    requires s.pool.WellFormed() && c in s.calls && s.calls[c].Finishing?
  {
    var t := WithPool(s, Release(cfg, s.pool, s.calls[c].worker, s.calls[c].retire, now));
    t.(calls := t.calls - {c})
  }

  // Put a task with a fresh id on the worker's queue, if there is room.
  function SendTask(s: State, c: CallId): State
    requires c in s.calls && s.calls[c].Leased?
  {
    var w := s.calls[c].worker;
    if w in s.links && s.links[w].tasks == [] then
      SetPhase(SetLink(s, w, s.links[w].(tasks := [Task(s.nextTask)])), c, Awaiting(w, s.nextTask))
        .(nextTask := s.nextTask + 1)
    else s
  }

  // Take a reply off the worker's queue and compare its task id.
  function ReadReply(s: State, c: CallId): State
    requires c in s.calls && s.calls[c].Awaiting?
  {
    var w := s.calls[c].worker;
    if w in s.links && s.links[w].results != [] then
      var link := s.links[w];
      SetPhase(SetLink(s, w, link.(results := link.results[1..])), c,
               if link.results[0] == s.calls[c].task then Answered(w) else Mismatched(w))
    else s
  }

  function LinkStep(link: Link, registered: bool, event: Event): Link {
    match event
    case TakeTask =>
      if link.process.Idle? && link.tasks != [] then
        Link(if link.tasks[0].Task? then Running(link.tasks[0].id) else Exited, link.tasks[1..], link.results)
      else link
    case PutReply =>
      if link.process.Running? && link.results == [] then Link(Idle, link.tasks, [link.process.task]) else link
    case LoseReply => if link.process.Running? then link.(process := Idle) else link
    case Die => link.(process := Exited)
    case SendStop => if !registered && link.tasks == [] then link.(tasks := [Stop]) else link
  }

  // ----- the invariant

  function Queued(tasks: seq<Message>): seq<TaskId> {
    if tasks == [] then []
    else (if tasks[0].Task? then [tasks[0].id] else []) + Queued(tasks[1..])
  }

  // Every task a worker has been given and whose reply nobody has read.
  function Pending(link: Link): seq<TaskId> {
    Queued(link.tasks) + (if link.process.Running? then [link.process.task] else []) + link.results
  }

  ghost predicate Held(calls: map<CallId, Phase>, w: WorkerId) {
    exists c :: c in calls && calls[c].worker == w
  }

  ghost predicate PoolInv(cfg: Settings, s: State) {
    && s.pool.WellFormed() && |s.pool.workers| <= cfg.maxWorkers
    && (forall w :: w in s.links ==> w < s.pool.nextId)
    && s.pool.workers.Keys <= s.links.Keys
    && |WornIdle(cfg, s.pool)| <= cfg.minWarm
  }

  ghost predicate Exclusive(calls: map<CallId, Phase>) {
    forall c, d :: c in calls && d in calls && calls[c].worker == calls[d].worker ==> c == d
  }

  ghost predicate BusyIffHeld(workers: map<WorkerId, Handle>, calls: map<CallId, Phase>) {
    forall w :: w in workers ==> (workers[w].busy <==> Held(calls, w))
  }

  // A call in its finally block retires its worker iff the quota is reached.
  ghost predicate RetiresAtQuota(cfg: Settings, workers: map<WorkerId, Handle>, calls: map<CallId, Phase>) {
    forall c :: c in calls && calls[c].Finishing? && calls[c].worker in workers ==>
      (calls[c].retire <==> workers[calls[c].worker].tasksCompleted >= cfg.maxTasks)
  }

  ghost predicate CallsLinked(s: State) {
    forall c :: c in s.calls ==> s.calls[c].worker in s.links
  }

  ghost predicate LeaseInv(cfg: Settings, s: State) {
    && CallsLinked(s)
    && Exclusive(s.calls)
    && BusyIffHeld(s.pool.workers, s.calls)
    && RetiresAtQuota(cfg, s.pool.workers, s.calls)
    && (s.pool.closed ==> forall w :: w in s.pool.workers ==> !s.pool.workers[w].busy)
  }

  // What a worker may still owe while a call in this phase holds it.
  predicate Owes(phase: Phase, registered: bool, pending: seq<TaskId>) {
    match phase
    case Leased(_) => pending == []
    case Awaiting(_, id) => pending == [] || pending == [id]
    case Answered(_) => pending == []
    case Mismatched(_) => false
    case Failing(_) => true
    case Finishing(_, _) => registered ==> pending == []
  }

  // A worker has at most one task outstanding, and a registered worker that
  // nobody holds has none.
  ghost predicate WorkersSettled(s: State)
    requires s.pool.workers.Keys <= s.links.Keys
  {
    && (forall w :: w in s.links ==> |s.links[w].tasks| <= 1 && |Pending(s.links[w])| <= 1)
    && (forall w :: w in s.pool.workers ==> Stop !in s.links[w].tasks)
    && (forall w :: w in s.pool.workers && !s.pool.workers[w].busy ==> Pending(s.links[w]) == [])
  }

  ghost predicate CallsServed(s: State)
    requires CallsLinked(s)
  {
    forall c :: c in s.calls ==>
      Owes(s.calls[c], s.calls[c].worker in s.pool.workers, Pending(s.links[s.calls[c].worker]))
  }

  ghost predicate Inv(cfg: Settings, s: State) {
    PoolInv(cfg, s) && LeaseInv(cfg, s) && WorkersSettled(s) && CallsServed(s)
  }

  // Idle workers that have used up their task quota.
  function WornIdle(cfg: Settings, p: Pool): set<WorkerId> {
    set w | w in p.workers && !p.workers[w].busy && p.workers[w].tasksCompleted >= cfg.maxTasks
  }

  // ----- steps that change only the pool

  // `p` keeps some workers as they were and adds fresh idle ones.
  ghost predicate Reshaped(cfg: Settings, before: Pool, p: Pool) {
    && p.WellFormed() && |p.workers| <= cfg.maxWorkers && before.nextId <= p.nextId
    && (p.closed == before.closed || p.workers == map[])
    && (forall w :: w in p.workers ==>
          if w in before.workers then p.workers[w] == before.workers[w]
          else before.nextId <= w && !p.workers[w].busy && p.workers[w].tasksCompleted == 0)
  }

  lemma ReshapeKeepsPoolInv(cfg: Settings, s: State, p: Pool)
    requires cfg.Valid() && PoolInv(cfg, s) && Reshaped(cfg, s.pool, p)
    ensures PoolInv(cfg, WithPool(s, p))
  {
    SubsetIsSmaller(WornIdle(cfg, p), WornIdle(cfg, s.pool));
  }

  lemma ReshapeKeepsLeases(cfg: Settings, s: State, p: Pool)
    requires PoolInv(cfg, s) && LeaseInv(cfg, s) && Reshaped(cfg, s.pool, p)
    ensures LeaseInv(cfg, WithPool(s, p))
  {
    assert CallsLinked(WithPool(s, p));
    forall w | w in p.workers ensures p.workers[w].busy <==> Held(s.calls, w) {
      if w !in s.pool.workers { assert w !in s.links; }
    }
    forall c | c in s.calls && s.calls[c].worker in p.workers
      ensures s.calls[c].worker in s.pool.workers
    {
      assert s.calls[c].worker in s.links;
    }
  }

  lemma ReshapeKeepsSettled(cfg: Settings, s: State, p: Pool)
    requires PoolInv(cfg, s) && WorkersSettled(s) && Reshaped(cfg, s.pool, p)
    ensures WorkersSettled(WithPool(s, p))
  {
    assert Pending(FRESH_LINK) == [];
  }

  lemma ReshapeKeepsServed(cfg: Settings, s: State, p: Pool)
    requires PoolInv(cfg, s) && CallsLinked(s) && CallsServed(s) && Reshaped(cfg, s.pool, p)
    requires CallsLinked(WithPool(s, p))
    ensures CallsServed(WithPool(s, p))
  {
    var t := WithPool(s, p);
    forall c | c in s.calls
      ensures Owes(s.calls[c], s.calls[c].worker in p.workers, Pending(t.links[s.calls[c].worker]))
    {
      var w := s.calls[c].worker;
      assert w in s.links && t.links[w] == s.links[w];
      assert w in p.workers ==> w in s.pool.workers;
    }
  }

  lemma ReshapeKeepsInv(cfg: Settings, s: State, p: Pool)
    requires cfg.Valid() && Inv(cfg, s) && Reshaped(cfg, s.pool, p)
    ensures Inv(cfg, WithPool(s, p))
  {
    ReshapeKeepsPoolInv(cfg, s, p);
    ReshapeKeepsLeases(cfg, s, p);
    ReshapeKeepsSettled(cfg, s, p);
    ReshapeKeepsServed(cfg, s, p);
  }

  // ----- steps of a worker process and its queues

  // A worker never owes more than it did.
  lemma LinkStepIsSafe(link: Link, registered: bool, event: Event)
    requires |link.tasks| <= 1 && |Pending(link)| <= 1 && (registered ==> Stop !in link.tasks)
    ensures var after := LinkStep(link, registered, event);
            && |after.tasks| <= 1 && (registered ==> Stop !in after.tasks)
            && (Pending(after) == [] || Pending(after) == Pending(link))
  {
    if link.process.Running? {
      assert Queued(link.tasks) == [] && link.results == [];
    }
    if link.tasks != [] { assert link.tasks[1..] == []; }
  }

  lemma WorkKeepsSettled(s: State, w: WorkerId, link: Link)
    requires s.pool.workers.Keys <= s.links.Keys && WorkersSettled(s) && w in s.links
    requires |link.tasks| <= 1 && |Pending(link)| <= 1 && (w in s.pool.workers ==> Stop !in link.tasks)
    requires Pending(link) == [] || Pending(link) == Pending(s.links[w])
    ensures s.pool.workers.Keys <= SetLink(s, w, link).links.Keys && WorkersSettled(SetLink(s, w, link))
  {
  }

  lemma WorkKeepsServed(s: State, w: WorkerId, link: Link)
    requires CallsLinked(s) && CallsServed(s) && w in s.links
    requires Pending(link) == [] || Pending(link) == Pending(s.links[w])
    ensures CallsLinked(SetLink(s, w, link)) && CallsServed(SetLink(s, w, link))
  {
  }

  lemma WorkKeepsInv(cfg: Settings, s: State, w: WorkerId, event: Event)
    requires Inv(cfg, s) && w in s.links
    ensures Inv(cfg, SetLink(s, w, LinkStep(s.links[w], w in s.pool.workers, event)))
  {
    var link := LinkStep(s.links[w], w in s.pool.workers, event);
    LinkStepIsSafe(s.links[w], w in s.pool.workers, event);
    WorkKeepsSettled(s, w, link);
    WorkKeepsServed(s, w, link);
  }

  // ----- steps of a call

  ghost predicate QuotaNoted(cfg: Settings, p: Pool, phase: Phase) {
    phase.Finishing? && phase.worker in p.workers ==>
      (phase.retire <==> p.workers[phase.worker].tasksCompleted >= cfg.maxTasks)
  }

  lemma CallStepKeepsLeases(cfg: Settings, s: State, c: CallId, phase: Phase)
    requires LeaseInv(cfg, s) && c in s.calls && phase.worker == s.calls[c].worker && QuotaNoted(cfg, s.pool, phase)
    ensures LeaseInv(cfg, SetPhase(s, c, phase))
  {
    HeldFrame(s.calls, c, phase);
  }

  lemma CallStepKeepsServed(s: State, c: CallId, phase: Phase, link: Link)
    requires CallsLinked(s) && CallsServed(s) && Exclusive(s.calls)
    requires c in s.calls && phase.worker == s.calls[c].worker
    requires Owes(phase, phase.worker in s.pool.workers, Pending(link))
    ensures var t := SetPhase(SetLink(s, phase.worker, link), c, phase);
            CallsLinked(t) && CallsServed(t)
  {
    var t := SetPhase(SetLink(s, phase.worker, link), c, phase);
    forall d | d in t.calls
      ensures t.calls[d].worker in t.links
      ensures Owes(t.calls[d], t.calls[d].worker in t.pool.workers, Pending(t.links[t.calls[d].worker]))
    {
      if d != c { assert s.calls[d].worker != phase.worker; }
    }
  }

  // A call moves on, with its worker's queues, without touching the pool.
  lemma CallStepKeepsInv(cfg: Settings, s: State, c: CallId, phase: Phase, link: Link)
    requires Inv(cfg, s) && c in s.calls && phase.worker == s.calls[c].worker && QuotaNoted(cfg, s.pool, phase)
    requires |link.tasks| <= 1 && |Pending(link)| <= 1
    requires phase.worker in s.pool.workers ==> Stop !in link.tasks
    requires Owes(phase, phase.worker in s.pool.workers, Pending(link))
    ensures Inv(cfg, SetPhase(SetLink(s, phase.worker, link), c, phase))
  {
    var t := SetPhase(SetLink(s, phase.worker, link), c, phase);
    assert t.links.Keys == s.links.Keys;
    CallStepKeepsLeases(cfg, s, c, phase);
    CallStepKeepsSettled(s, c, link);
    CallStepKeepsServed(s, c, phase, link);
    assert PoolInv(cfg, t);
  }

  lemma CallStepKeepsSettled(s: State, c: CallId, link: Link)
    requires s.pool.workers.Keys <= s.links.Keys && WorkersSettled(s)
    requires BusyIffHeld(s.pool.workers, s.calls) && c in s.calls && s.calls[c].worker in s.links
    requires |link.tasks| <= 1 && |Pending(link)| <= 1
    requires s.calls[c].worker in s.pool.workers ==> Stop !in link.tasks
    ensures s.pool.workers.Keys <= SetLink(s, s.calls[c].worker, link).links.Keys
    ensures WorkersSettled(SetLink(s, s.calls[c].worker, link))
  {
    if s.calls[c].worker in s.pool.workers { HolderIsBusy(s, c); }
  }

  lemma HolderIsBusy(s: State, c: CallId)
    requires BusyIffHeld(s.pool.workers, s.calls) && c in s.calls && s.calls[c].worker in s.pool.workers
    ensures s.pool.workers[s.calls[c].worker].busy
  {
    assert Held(s.calls, s.calls[c].worker);
  }

  lemma HeldFrame(calls: map<CallId, Phase>, c: CallId, phase: Phase)
    requires c in calls && phase.worker == calls[c].worker
    ensures forall w :: Held(calls[c := phase], w) <==> Held(calls, w)
  {
    var after := calls[c := phase];
    forall w | Held(calls, w) ensures Held(after, w) {
      var d :| d in calls && calls[d].worker == w;
      assert d in after && after[d].worker == w;
    }
    forall w | Held(after, w) ensures Held(calls, w) {
      var d :| d in after && after[d].worker == w;
      assert d in calls && calls[d].worker == w;
    }
  }

  lemma SendKeepsInv(cfg: Settings, s: State, c: CallId)
    requires Inv(cfg, s) && c in s.calls && s.calls[c].Leased?
    ensures Inv(cfg, SendTask(s, c))
  {
    var w := s.calls[c].worker;
    var link := s.links[w].(tasks := [Task(s.nextTask)]);
    if s.links[w].tasks == [] {
      assert Pending(s.links[w]) == [];
      assert Pending(link) == [s.nextTask] by {
        assert link.tasks[1..] == [];
      }
      CallStepKeepsInv(cfg, s, c, Awaiting(w, s.nextTask), link);
      TaskCounterIsFree(cfg, SetPhase(SetLink(s, w, link), c, Awaiting(w, s.nextTask)), s.nextTask + 1);
    }
  }

  lemma TaskCounterIsFree(cfg: Settings, s: State, n: TaskId)
    requires Inv(cfg, s)
    ensures Inv(cfg, s.(nextTask := n))
  {
  }

  // The reply a waiting call finds is always its own.
  lemma ReplyIsOwn(cfg: Settings, s: State, c: CallId)
    requires Inv(cfg, s) && c in s.calls && s.calls[c].Awaiting?
    requires s.links[s.calls[c].worker].results != []
    ensures var link := s.links[s.calls[c].worker];
            link.results == [s.calls[c].task] && Pending(link.(results := [])) == []
  {
    var link := s.links[s.calls[c].worker];
    assert |Pending(link)| == 1 && link.results == Pending(link);
  }

  lemma ReceiveKeepsInv(cfg: Settings, s: State, c: CallId)
    requires Inv(cfg, s) && c in s.calls && s.calls[c].Awaiting?
    ensures Inv(cfg, ReadReply(s, c))
  {
    var w := s.calls[c].worker;
    if s.links[w].results != [] {
      ReplyIsOwn(cfg, s, c);
      assert s.links[w].results[1..] == [];
      CallStepKeepsInv(cfg, s, c, Answered(w), s.links[w].(results := []));
    }
  }

  lemma GiveUpKeepsInv(cfg: Settings, s: State, c: CallId)
    requires Inv(cfg, s) && c in s.calls && !s.calls[c].Finishing?
    ensures Inv(cfg, SetPhase(s, c, Failing(s.calls[c].worker)))
  {
    PhaseStepKeepsInv(cfg, s, c, Failing(s.calls[c].worker));
  }

  // ----- pool regions

  lemma SubPoolReshapes(cfg: Settings, before: Pool, p: Pool)
    requires before.WellFormed() && |before.workers| <= cfg.maxWorkers && SubPool(p, before)
    ensures Reshaped(cfg, before, p)
  {
    SubTableSize(p.workers, before.workers);
  }

  lemma WarmReshapes(cfg: Settings, before: Pool, p: Pool, now: nat)
    requires cfg.Valid() && before.WellFormed() && Reshaped(cfg, before, p) && p.closed == before.closed
    ensures Reshaped(cfg, before, Warm(cfg, p, now))
  {
    WarmGrows(cfg, p, now);
  }

  lemma ReapReshapes(cfg: Settings, p: Pool, alive: set<WorkerId>, now: nat)
    requires cfg.Valid() && p.WellFormed() && |p.workers| <= cfg.maxWorkers
    ensures Reshaped(cfg, p, Reap(cfg, p, alive, now))
  {
    var q := Prune(p, alive);
    SubPoolReshapes(cfg, p, q);
    if !p.closed {
      ShrinkKeepsWellFormed(cfg, q, now);
      SubPoolReshapes(cfg, p, Shrink(cfg, q, now));
      WarmReshapes(cfg, p, Shrink(cfg, q, now), now);
    }
  }

  lemma DropReshapes(cfg: Settings, p: Pool, w: WorkerId, now: nat)
    requires cfg.Valid() && p.WellFormed() && |p.workers| <= cfg.maxWorkers
    ensures Reshaped(cfg, p, Drop(cfg, p, w, now))
    ensures w < p.nextId ==> w !in Drop(cfg, p, w, now).workers
  {
    SubPoolReshapes(cfg, p, Without(p, w));
    WarmReshapes(cfg, p, Without(p, w), now);
    WarmGrows(cfg, Without(p, w), now);
  }

  lemma LeaseKeepsPoolInv(cfg: Settings, s: State, w: WorkerId)
    requires PoolInv(cfg, s) && w in s.pool.workers
    ensures PoolInv(cfg, s.(pool := Lease(s.pool, w)))
  {
    var p := Lease(s.pool, w);
    assert p.workers.Keys == s.pool.workers.Keys;
    SubTableSize(p.workers, s.pool.workers);
    SubsetIsSmaller(WornIdle(cfg, p), WornIdle(cfg, s.pool));
  }

  lemma LeaseKeepsLeases(cfg: Settings, s: State, c: CallId, w: WorkerId)
    requires LeaseInv(cfg, s) && c !in s.calls && !s.pool.closed
    requires w in s.pool.workers && !s.pool.workers[w].busy && w in s.links
    ensures LeaseInv(cfg, SetPhase(s.(pool := Lease(s.pool, w)), c, Leased(w)))
  {
    HeldByNewCall(s.calls, c, Leased(w));
    assert !Held(s.calls, w);
  }

  lemma LeaseKeepsInv(cfg: Settings, s: State, c: CallId, w: WorkerId)
    requires Inv(cfg, s) && c !in s.calls && !s.pool.closed
    requires w in s.pool.workers && !s.pool.workers[w].busy
    ensures Inv(cfg, SetPhase(s.(pool := Lease(s.pool, w)), c, Leased(w)))
  {
    var t := SetPhase(s.(pool := Lease(s.pool, w)), c, Leased(w));
    LeaseKeepsPoolInv(cfg, s, w);
    LeaseKeepsLeases(cfg, s, c, w);
    LeaseKeepsQueues(cfg, s, c, w);
    assert PoolInv(cfg, t);
  }

  lemma LeaseKeepsQueues(cfg: Settings, s: State, c: CallId, w: WorkerId)
    requires PoolInv(cfg, s) && CallsLinked(s) && WorkersSettled(s) && CallsServed(s)
    requires w in s.pool.workers && !s.pool.workers[w].busy
    ensures var t := SetPhase(s.(pool := Lease(s.pool, w)), c, Leased(w));
            && t.pool.workers.Keys <= t.links.Keys && WorkersSettled(t)
            && CallsLinked(t) && CallsServed(t)
  {
    var t := SetPhase(s.(pool := Lease(s.pool, w)), c, Leased(w));
    assert t.pool.workers.Keys == s.pool.workers.Keys;
    assert Pending(s.links[w]) == [];
  }

  lemma HeldByNewCall(calls: map<CallId, Phase>, c: CallId, phase: Phase)
    requires c !in calls
    ensures forall w :: Held(calls[c := phase], w) <==> Held(calls, w) || w == phase.worker
  {
    var after := calls[c := phase];
    assert c in after && after[c].worker == phase.worker;
    forall w | Held(calls, w) ensures Held(after, w) {
      var d :| d in calls && calls[d].worker == w;
      assert d in after && after[d].worker == w;
    }
    forall w | Held(after, w) && w != phase.worker ensures Held(calls, w) {
      var d :| d in after && after[d].worker == w;
      assert d in calls && calls[d].worker == w;
    }
  }

  // An acquire pass prunes and perhaps spawns, and then perhaps leases.
  lemma AcquireInTwoParts(cfg: Settings, p: Pool, alive: set<WorkerId>, expired: bool, now: nat) returns (free: Pool)
    requires cfg.Valid() && p.WellFormed() && |p.workers| <= cfg.maxWorkers
    ensures Reshaped(cfg, p, free)
    ensures var (q, outcome) := AcquirePass(cfg, p, alive, expired, now);
            if outcome.Acquired? then
              !free.closed && outcome.worker in free.workers && !free.workers[outcome.worker].busy
              && q == Lease(free, outcome.worker)
            else q == free
  {
    var q := Prune(p, alive);
    SubPoolReshapes(cfg, p, p);
    SubPoolReshapes(cfg, p, q);
    if p.closed {
      free := p;
    } else if FirstIdle(q.workers, 0, q.nextId).None? && |q.workers| < cfg.maxWorkers {
      free := Spawn(q, now);
    } else {
      free := q;
    }
  }

  lemma LeaseKeepsLinks(s: State, p: Pool, w: WorkerId)
    requires w in p.workers
    ensures WithPool(s, Lease(p, w)) == WithPool(s, p).(pool := Lease(p, w))
  {
    assert Lease(p, w).workers.Keys == p.workers.Keys;
  }

  lemma AcquireKeepsInv(cfg: Settings, s: State, c: CallId, expired: bool, now: nat)
    requires cfg.Valid() && Inv(cfg, s) && c !in s.calls
    ensures Inv(cfg, TryLease(cfg, s, c, expired, now))
  {
    var free := AcquireInTwoParts(cfg, s.pool, Alive(s), expired, now);
    var (q, outcome) := AcquirePass(cfg, s.pool, Alive(s), expired, now);
    ReshapeKeepsInv(cfg, s, free);
    if outcome.Acquired? {
      LeaseKeepsInv(cfg, WithPool(s, free), c, outcome.worker);
      LeaseKeepsLinks(s, free, outcome.worker);
    }
  }

  lemma RecordKeepsInv(cfg: Settings, s: State, c: CallId)
    requires Inv(cfg, s) && c in s.calls && s.calls[c].Answered?
    ensures Inv(cfg, RecordDone(cfg, s, c))
  {
    var w := s.calls[c].worker;
    var (p, retire) := RecordCompletion(cfg, s.pool, w);
    var t := s.(pool := p);
    if w in s.pool.workers {
      HolderIsBusy(s, c);
      CountKeepsInv(cfg, s, c, p);
    }
    PhaseStepKeepsInv(cfg, t, c, Finishing(w, retire));
  }

  lemma PhaseStepKeepsInv(cfg: Settings, s: State, c: CallId, phase: Phase)
    requires Inv(cfg, s) && c in s.calls && phase.worker == s.calls[c].worker && QuotaNoted(cfg, s.pool, phase)
    requires Owes(phase, phase.worker in s.pool.workers, Pending(s.links[phase.worker]))
    ensures Inv(cfg, SetPhase(s, c, phase))
  {
    assert SetLink(s, phase.worker, s.links[phase.worker]) == s;
    CallStepKeepsInv(cfg, s, c, phase, s.links[phase.worker]);
  }

  // Only the completions of the busy worker w may differ.
  ghost predicate Counted(before: Pool, p: Pool, w: WorkerId) {
    && w in before.workers && before.workers[w].busy && p == before.(workers := p.workers)
    && p.workers.Keys == before.workers.Keys
    && (forall u :: u in p.workers && u != w ==> p.workers[u] == before.workers[u])
    && p.workers[w] == before.workers[w].(tasksCompleted := p.workers[w].tasksCompleted)
  }

  lemma CountKeepsPoolInv(cfg: Settings, s: State, p: Pool, w: WorkerId)
    requires PoolInv(cfg, s) && Counted(s.pool, p, w)
    ensures PoolInv(cfg, s.(pool := p))
  {
    SubTableSize(p.workers, s.pool.workers);
    SubsetIsSmaller(WornIdle(cfg, p), WornIdle(cfg, s.pool));
  }

  lemma CountKeepsLeases(cfg: Settings, s: State, p: Pool, c: CallId)
    requires LeaseInv(cfg, s) && c in s.calls && s.calls[c].Answered? && Counted(s.pool, p, s.calls[c].worker)
    ensures LeaseInv(cfg, s.(pool := p))
  {
  }

  lemma CountKeepsQueues(s: State, p: Pool, w: WorkerId)
    requires s.pool.workers.Keys <= s.links.Keys && WorkersSettled(s) && CallsLinked(s) && CallsServed(s)
    requires Counted(s.pool, p, w)
    ensures WorkersSettled(s.(pool := p)) && CallsServed(s.(pool := p))
  {
  }

  // Counting a completion of a busy worker.
  lemma CountKeepsInv(cfg: Settings, s: State, c: CallId, p: Pool)
    requires Inv(cfg, s) && c in s.calls && s.calls[c].Answered?
    requires s.calls[c].worker in s.pool.workers && s.pool.workers[s.calls[c].worker].busy
    requires p == RecordCompletion(cfg, s.pool, s.calls[c].worker).0
    ensures Inv(cfg, s.(pool := p))
  {
    var w := s.calls[c].worker;
    CountKeepsPoolInv(cfg, s, p, w);
    CountKeepsLeases(cfg, s, p, c);
    CountKeepsQueues(s, p, w);
  }

  lemma DropKeepsInv(cfg: Settings, s: State, c: CallId, now: nat)
    requires cfg.Valid() && Inv(cfg, s) && c in s.calls && s.calls[c].Failing?
    ensures Inv(cfg, DropHeld(cfg, s, c, now))
  {
    var w := s.calls[c].worker;
    DropReshapes(cfg, s.pool, w, now);
    ReshapeKeepsInv(cfg, s, Drop(cfg, s.pool, w, now));
    PhaseStepKeepsInv(cfg, WithPool(s, Drop(cfg, s.pool, w, now)), c, Finishing(w, false));
  }

  lemma HeldAfterReturn(calls: map<CallId, Phase>, c: CallId)
    requires c in calls && Exclusive(calls)
    ensures forall w :: Held(calls - {c}, w) <==> Held(calls, w) && w != calls[c].worker
  {
    var after := calls - {c};
    forall w | Held(calls, w) && w != calls[c].worker ensures Held(after, w) {
      var d :| d in calls && calls[d].worker == w;
      assert d in after && after[d].worker == w;
    }
    forall w | Held(after, w) ensures Held(calls, w) && w != calls[c].worker {
      var d :| d in after && after[d].worker == w;
      assert d in calls && calls[d].worker == w;
    }
  }

  // The table after a release, before the pool is warmed up again.
  function Returned(cfg: Settings, p: Pool, w: WorkerId, retire: bool, now: nat): Pool {
    if w !in p.workers then p
    else
      var q := p.(workers := p.workers[w := p.workers[w].(busy := false, lastUsedAt := now)]);
      if retire && |q.workers| > cfg.minWarm then Without(q, w) else q
  }

  // A returned worker either leaves, or stays below its quota, or stays because
  // the pool is no larger than the warm floor.
  lemma ReturnKeepsPoolInv(cfg: Settings, s: State, w: WorkerId, retire: bool, now: nat)
    requires PoolInv(cfg, s)
    requires w in s.pool.workers ==> (retire <==> s.pool.workers[w].tasksCompleted >= cfg.maxTasks)
    ensures PoolInv(cfg, s.(pool := Returned(cfg, s.pool, w, retire, now)))
  {
    var p := Returned(cfg, s.pool, w, retire, now);
    if w in s.pool.workers {
      SubTableSize(p.workers, s.pool.workers);
      if w in p.workers && retire {
        SubsetIsSmaller(WornIdle(cfg, p), p.workers.Keys);
      } else {
        SubsetIsSmaller(WornIdle(cfg, p), WornIdle(cfg, s.pool));
      }
    }
  }

  lemma ReturnKeepsLeases(cfg: Settings, s: State, c: CallId, now: nat)
    requires LeaseInv(cfg, s) && c in s.calls && s.calls[c].Finishing?
    ensures var p := Returned(cfg, s.pool, s.calls[c].worker, s.calls[c].retire, now);
            LeaseInv(cfg, s.(pool := p, calls := s.calls - {c}))
  {
    HeldAfterReturn(s.calls, c);
  }

  lemma ReturnKeepsQueues(cfg: Settings, s: State, c: CallId, now: nat)
    requires Inv(cfg, s) && c in s.calls && s.calls[c].Finishing?
    ensures var p := Returned(cfg, s.pool, s.calls[c].worker, s.calls[c].retire, now);
            var t := s.(pool := p, calls := s.calls - {c});
            && t.pool.workers.Keys <= t.links.Keys && WorkersSettled(t)
            && CallsLinked(t) && CallsServed(t)
  {
    var w := s.calls[c].worker;
    var p := Returned(cfg, s.pool, w, s.calls[c].retire, now);
    assert w in s.pool.workers ==> Pending(s.links[w]) == [];
    assert p.workers.Keys <= s.pool.workers.Keys;
  }

  lemma FinishKeepsInv(cfg: Settings, s: State, c: CallId, now: nat)
    requires cfg.Valid() && Inv(cfg, s) && c in s.calls && s.calls[c].Finishing?
    ensures Inv(cfg, ReleaseHeld(cfg, s, c, now))
  {
    var w, retire := s.calls[c].worker, s.calls[c].retire;
    var p := Returned(cfg, s.pool, w, retire, now);
    var t := s.(pool := p, calls := s.calls - {c});
    ReturnKeepsPoolInv(cfg, s, w, retire, now);
    ReturnKeepsLeases(cfg, s, c, now);
    ReturnKeepsQueues(cfg, s, c, now);
    assert Inv(cfg, t);
    SubPoolReshapes(cfg, p, p);
    if w in s.pool.workers {
      WarmReshapes(cfg, p, p, now);
      ReshapeKeepsInv(cfg, t, Warm(cfg, p, now));
    } else {
      ReshapeKeepsInv(cfg, t, p);
    }
  }

  // ----- every run

  lemma InitialInv(cfg: Settings, now: nat)
    requires cfg.Valid()
    ensures Inv(cfg, Initial(cfg, now))
  {
    var empty := Pool(map[], false, 0);
    var s := State(empty, map[], map[], 0);
    assert WornIdle(cfg, empty) == {};
    assert Inv(cfg, s);
    SubPoolReshapes(cfg, empty, empty);
    WarmReshapes(cfg, empty, empty, now);
    ReshapeKeepsInv(cfg, s, Warm(cfg, empty, now));
  }

  lemma SnapshotKeepsInv(cfg: Settings, s: State)
    requires cfg.Valid() && Inv(cfg, s)
    ensures Inv(cfg, s.(pool := Prune(s.pool, Alive(s))))
  {
    var p := Prune(s.pool, Alive(s));
    SubPoolReshapes(cfg, s.pool, p);
    ReshapeKeepsInv(cfg, s, p);
    NothingSpawned(s, p);
  }

  lemma CloseReshapes(cfg: Settings, p: Pool)
    requires p.WellFormed() && |p.workers| <= cfg.maxWorkers
    ensures Reshaped(cfg, p, Close(p))
  {
  }

  lemma CloseKeepsInv(cfg: Settings, s: State)
    requires cfg.Valid() && Inv(cfg, s)
    ensures Inv(cfg, s.(pool := Close(s.pool)))
  {
    CloseReshapes(cfg, s.pool);
    ReshapeKeepsInv(cfg, s, Close(s.pool));
    NothingSpawned(s, Close(s.pool));
  }

  lemma NothingSpawned(s: State, p: Pool)
    requires p.workers.Keys <= s.links.Keys
    ensures WithPool(s, p) == s.(pool := p)
  {
    assert s.links.Keys + p.workers.Keys == s.links.Keys;
  }

  lemma StepKeepsInv(cfg: Settings, s: State, a: Action)
    requires cfg.Valid() && Inv(cfg, s)
    ensures Inv(cfg, Next(cfg, s, a))
  {
    match a
    case Acquire(c, expired, now) => if c !in s.calls { AcquireKeepsInv(cfg, s, c, expired, now); }
    case Send(c) => if c in s.calls && s.calls[c].Leased? { SendKeepsInv(cfg, s, c); }
    case Receive(c) => if c in s.calls && s.calls[c].Awaiting? { ReceiveKeepsInv(cfg, s, c); }
    case GiveUp(c) => if c in s.calls && !s.calls[c].Finishing? { GiveUpKeepsInv(cfg, s, c); }
    case Record(c) => if c in s.calls && s.calls[c].Answered? { RecordKeepsInv(cfg, s, c); }
    case DropBroken(c, now) => if c in s.calls && s.calls[c].Failing? { DropKeepsInv(cfg, s, c, now); }
    case Finish(c, now) => if c in s.calls && s.calls[c].Finishing? { FinishKeepsInv(cfg, s, c, now); }
    case Work(w, event) => if w in s.links { WorkKeepsInv(cfg, s, w, event); }
    case ReaperTick(now) =>
      ReapReshapes(cfg, s.pool, Alive(s), now);
      ReshapeKeepsInv(cfg, s, Reap(cfg, s.pool, Alive(s), now));
    case Snapshot => SnapshotKeepsInv(cfg, s);
    case ClosePool => CloseKeepsInv(cfg, s);
  }

  // The state after a run of any actions in any order.
  ghost function Run(cfg: Settings, now: nat, actions: seq<Action>): (s: State)
    requires cfg.Valid()
    ensures Inv(cfg, s)
  {
    if actions == [] then
      InitialInv(cfg, now);
      Initial(cfg, now)
    else
      var before := Run(cfg, now, actions[..|actions| - 1]);
      StepKeepsInv(cfg, before, actions[|actions| - 1]);
      Next(cfg, before, actions[|actions| - 1])
  }

  function Holders(calls: map<CallId, Phase>, w: WorkerId): set<CallId> {
    set c | c in calls && calls[c].worker == w
  }

  lemma HoldersOf(calls: map<CallId, Phase>, w: WorkerId)
    requires Exclusive(calls)
    ensures |Holders(calls, w)| == if Held(calls, w) then 1 else 0
  {
    if c :| c in calls && calls[c].worker == w {
      assert Holders(calls, w) == {c};
    } else {
      assert Holders(calls, w) == {};
    }
  }

  // Leases are exclusive: after any run a registered worker is busy iff exactly
  // one call holds it, and even a removed worker has at most one holder.
  lemma LeasesAreExclusive(cfg: Settings, now: nat, actions: seq<Action>, w: WorkerId)
    requires cfg.Valid()
    ensures var s := Run(cfg, now, actions);
            && |Holders(s.calls, w)| <= 1
            && (w in s.pool.workers ==> |Holders(s.calls, w)| == if s.pool.workers[w].busy then 1 else 0)
  {
    HoldersOf(Run(cfg, now, actions).calls, w);
  }

  lemma NothingPending(link: Link)
    requires Pending(link) == []
    ensures link.results == [] && !link.process.Running?
    ensures |link.tasks| <= 1 && Stop !in link.tasks ==> link.tasks == []
  {
    assert Queued(link.tasks) == [];
  }

  // An idle registered worker has empty queues and no task in progress, so the
  // task put on a worker that was just leased is the only one it can answer.
  lemma IdleWorkersAreQuiet(cfg: Settings, now: nat, actions: seq<Action>, w: WorkerId)
    requires cfg.Valid()
    ensures var s := Run(cfg, now, actions);
            w in s.pool.workers && !s.pool.workers[w].busy ==>
              w in s.links && s.links[w].tasks == [] && s.links[w].results == [] && !s.links[w].process.Running?
  {
    var s := Run(cfg, now, actions);
    if w in s.pool.workers && !s.pool.workers[w].busy { NothingPending(s.links[w]); }
  }

  // The task-id mismatch error is unreachable, also for workers that were
  // removed from the pool while a call was waiting for them.
  lemma MismatchIsUnreachable(cfg: Settings, now: nat, actions: seq<Action>, c: CallId)
    requires cfg.Valid()
    ensures var s := Run(cfg, now, actions);
            c in s.calls ==>
              && !s.calls[c].Mismatched? && s.calls[c].worker in s.links
              && (s.calls[c].Awaiting? ==>
                    forall r :: r in s.links[s.calls[c].worker].results ==> r == s.calls[c].task)
  {
    var s := Run(cfg, now, actions);
    if c in s.calls && s.calls[c].Awaiting? && s.links[s.calls[c].worker].results != [] {
      ReplyIsOwn(cfg, s, c);
    }
  }

  // A worker never blocks on its one-slot result queue, and a call that has just
  // leased a worker that is still registered finds the task queue empty.
  lemma QueuesNeverBlock(cfg: Settings, now: nat, actions: seq<Action>)
    requires cfg.Valid()
    ensures var s := Run(cfg, now, actions);
            && (forall w :: w in s.links && s.links[w].process.Running? ==> s.links[w].results == [])
            && (forall c :: c in s.calls && s.calls[c].Leased? && s.calls[c].worker in s.pool.workers ==>
                  s.calls[c].worker in s.links && s.links[s.calls[c].worker].tasks == [])
  {
    var s := Run(cfg, now, actions);
    forall w | w in s.links && s.links[w].process.Running? ensures s.links[w].results == [] {
      assert |Pending(s.links[w])| <= 1;
    }
    forall c | c in s.calls && s.calls[c].Leased? && s.calls[c].worker in s.pool.workers
      ensures s.links[s.calls[c].worker].tasks == []
    {
      NothingPending(s.links[s.calls[c].worker]);
    }
  }

  // The pool never exceeds its maximum, at most minWarm idle workers have used
  // up their quota (none when minWarm is 0), and a closed pool leases nothing.
  lemma PoolStaysInBounds(cfg: Settings, now: nat, actions: seq<Action>)
    requires cfg.Valid()
    ensures var s := Run(cfg, now, actions);
            && |s.pool.workers| <= cfg.maxWorkers
            && |WornIdle(cfg, s.pool)| <= cfg.minWarm
            && (s.pool.closed ==> forall c :: c in s.calls ==> s.calls[c].worker !in s.pool.workers)
  {
    var s := Run(cfg, now, actions);
    forall c | s.pool.closed && c in s.calls ensures s.calls[c].worker !in s.pool.workers {
      if s.calls[c].worker in s.pool.workers { HolderIsBusy(s, c); }
    }
  }

  // Reaper ticks of an open pool, drops, and releases of a registered worker
  // leave at least minWarm workers.
  lemma WarmFloorIsRestored(cfg: Settings, p: Pool, alive: set<WorkerId>, w: WorkerId, retire: bool, now: nat)
    requires p.WellFormed()
    ensures !p.closed ==> |Reap(cfg, p, alive, now).workers| >= cfg.minWarm
    ensures |Drop(cfg, p, w, now).workers| >= cfg.minWarm
    ensures w in p.workers ==> |Release(cfg, p, w, retire, now).workers| >= cfg.minWarm
  {
    ShrinkKeepsWellFormed(cfg, Prune(p, alive), now);
    WarmGrows(cfg, Shrink(cfg, Prune(p, alive), now), now);
    WarmGrows(cfg, Without(p, w), now);
    WarmGrows(cfg, Returned(cfg, p, w, retire, now), now);
  }

  lemma ClosedRegionsAddNothing(cfg: Settings, s: State, c: CallId, now: nat)
    requires Inv(cfg, s) && s.pool.closed && c in s.calls
    ensures s.calls[c].Answered? ==> RecordDone(cfg, s, c).pool == s.pool
    ensures s.calls[c].Finishing? ==> ReleaseHeld(cfg, s, c, now).pool == s.pool
    ensures Drop(cfg, s.pool, s.calls[c].worker, now) == Warm(cfg, s.pool, now)
  {
    if s.calls[c].worker in s.pool.workers { HolderIsBusy(s, c); }
    assert Without(s.pool, s.calls[c].worker) == s.pool;
  }

  ghost predicate Refills(cfg: Settings, s: State, a: Action) {
    a.DropBroken? && a.call in s.calls && s.calls[a.call].Failing? && |s.pool.workers| < cfg.minWarm
  }

  lemma ClosedCallStep(cfg: Settings, s: State, a: Action)
    requires cfg.Valid() && Inv(cfg, s) && s.pool.closed && (a.DropBroken? || a.Finish? || a.Record?)
    ensures var p := Next(cfg, s, a).pool;
            p.closed && (if Refills(cfg, s, a) then |p.workers| == cfg.minWarm else p == s.pool)
  {
    if a.call in s.calls {
      ClosedRegionsAddNothing(cfg, s, a.call, if a.Record? then 0 else a.now);
      WarmGrows(cfg, s.pool, if a.Record? then 0 else a.now);
    }
  }

  lemma ClosedOtherStep(cfg: Settings, s: State, a: Action)
    requires s.pool.WellFormed() && s.pool.closed && !(a.DropBroken? || a.Finish? || a.Record?)
    ensures Next(cfg, s, a).pool.closed && |Next(cfg, s, a).pool.workers| <= |s.pool.workers|
  {
    if a.Snapshot? { SubTableSize(Prune(s.pool, Alive(s)).workers, s.pool.workers); }
  }

  // Closing empties the pool, and afterwards a step registers workers iff it is
  // a drop that finds the pool below its warm floor: the drop ignores the flag.
  lemma ClosedPoolGrowsOnlyByDrops(cfg: Settings, now: nat, actions: seq<Action>, a: Action)
    requires cfg.Valid()
    ensures var s := Run(cfg, now, actions);
            s.pool.closed ==>
              && Next(cfg, s, a).pool.closed
              && (|Next(cfg, s, a).pool.workers| > |s.pool.workers| <==> Refills(cfg, s, a))
  {
    var s := Run(cfg, now, actions);
    if s.pool.closed {
      if a.DropBroken? || a.Finish? || a.Record? {
        ClosedCallStep(cfg, s, a);
      } else {
        ClosedOtherStep(cfg, s, a);
      }
    }
  }

  // No region under the lock but close touches the closed flag.
  lemma DropKeepsFlag(cfg: Settings, p: Pool, w: WorkerId, now: nat)
    requires p.WellFormed()
    ensures Drop(cfg, p, w, now).closed == p.closed
  {
    WarmGrows(cfg, Without(p, w), now);
  }

  lemma ReleaseKeepsFlag(cfg: Settings, p: Pool, w: WorkerId, retire: bool, now: nat)
    requires p.WellFormed()
    ensures Release(cfg, p, w, retire, now).closed == p.closed
  {
    WarmGrows(cfg, Returned(cfg, p, w, retire, now), now);
  }

  lemma ReapKeepsFlag(cfg: Settings, p: Pool, alive: set<WorkerId>, now: nat)
    requires p.WellFormed()
    ensures Reap(cfg, p, alive, now).closed == p.closed
  {
    ShrinkKeepsWellFormed(cfg, Prune(p, alive), now);
    WarmGrows(cfg, Shrink(cfg, Prune(p, alive), now), now);
  }

  lemma CallStepKeepsFlag(cfg: Settings, s: State, a: Action)
    requires s.pool.WellFormed() && (a.DropBroken? || a.Finish?)
    ensures Next(cfg, s, a).pool.closed == s.pool.closed
  {
    if a.call in s.calls {
      var phase := s.calls[a.call];
      DropKeepsFlag(cfg, s.pool, phase.worker, a.now);
      if phase.Finishing? { ReleaseKeepsFlag(cfg, s.pool, phase.worker, phase.retire, a.now); }
    }
  }

  lemma TickKeepsFlag(cfg: Settings, s: State, now: nat)
    requires s.pool.WellFormed()
    ensures Next(cfg, s, ReaperTick(now)).pool.closed == s.pool.closed
  {
    ReapKeepsFlag(cfg, s.pool, Alive(s), now);
  }

  lemma OtherStepKeepsFlag(cfg: Settings, s: State, a: Action)
    requires s.pool.WellFormed() && !(a.DropBroken? || a.Finish? || a.ReaperTick? || a.ClosePool?)
    ensures Next(cfg, s, a).pool.closed == s.pool.closed
  {
  }

  lemma OnlyCloseCloses(cfg: Settings, s: State, a: Action)
    requires s.pool.WellFormed() && !s.pool.closed && Next(cfg, s, a).pool.closed
    ensures Next(cfg, s, a).pool.workers == map[]
  {
    if a.DropBroken? || a.Finish? {
      CallStepKeepsFlag(cfg, s, a);
    } else if a.ReaperTick? {
      TickKeepsFlag(cfg, s, a.now);
    } else if !a.ClosePool? {
      OtherStepKeepsFlag(cfg, s, a);
    }
  }

  lemma {:induction false} WithoutWarmClosedIsEmpty(cfg: Settings, now: nat, actions: seq<Action>)
    requires cfg.Valid() && cfg.minWarm == 0
    ensures Run(cfg, now, actions).pool.closed ==> Run(cfg, now, actions).pool.workers == map[]
  {
    if actions == [] {
      WarmGrows(cfg, Pool(map[], false, 0), now);
    } else {
      var before, a := actions[..|actions| - 1], actions[|actions| - 1];
      WithoutWarmClosedIsEmpty(cfg, now, before);
      ClosedPoolGrowsOnlyByDrops(cfg, now, before, a);
      if !Run(cfg, now, before).pool.closed && Run(cfg, now, actions).pool.closed {
        OnlyCloseCloses(cfg, Run(cfg, now, before), a);
      }
    }
  }

  lemma AcquiresIdle(cfg: Settings, p: Pool, alive: set<WorkerId>, w: WorkerId, expired: bool, now: nat)
    requires p.WellFormed() && !p.closed && w in p.workers && w in alive && !p.workers[w].busy
    ensures var (q, outcome) := AcquirePass(cfg, p, alive, expired, now);
            outcome.Acquired? && q.WellFormed() && !q.closed
  {
    assert w in Prune(p, alive).workers;
  }

  lemma FirstCallLeases(cfg: Settings, now: nat)
    requires cfg.Valid() && cfg.minWarm >= 1
    ensures var s := TryLease(cfg, Initial(cfg, now), 0, false, now);
            s.pool.WellFormed() && !s.pool.closed && s.calls.Keys == {0} && s.calls[0].Leased?
  {
    var empty := Pool(map[], false, 0);
    WarmGrows(cfg, empty, now);
    var s := Initial(cfg, now);
    var w :| w in s.pool.workers;
    AcquiresIdle(cfg, s.pool, Alive(s), w, false, now);
  }

  lemma DropAfterClose(cfg: Settings, s: State, now: nat)
    requires s.pool.WellFormed() && s.pool.closed && s.pool.workers == map[] && 0 in s.calls
    ensures var p := DropHeld(cfg, s, 0, now).pool;
            p.closed && |p.workers| == cfg.minWarm
  {
    WarmGrows(cfg, Without(s.pool, s.calls[0].worker), now);
  }

  // Steps never leave these states.
  ghost predicate Closed(cfg: Settings, reached: State -> bool) {
    && (forall s :: reached(s) ==> s.pool.WellFormed())
    && (forall s, a :: reached(s) ==> reached(Next(cfg, s, a)))
  }

  lemma Step(cfg: Settings, reached: State -> bool, s: State, a: Action, t: State)
    requires Closed(cfg, reached) && reached(s) && t == Next(cfg, s, a)
    ensures reached(t)
  {
  }

  lemma CloseDuringCall(cfg: Settings, now: nat, reached: State -> bool) returns (t: State)
    requires cfg.Valid() && cfg.minWarm >= 1 && Closed(cfg, reached) && reached(Initial(cfg, now))
    ensures reached(t) && t.pool.closed && |t.pool.workers| == cfg.minWarm
  {
    var s := TryLease(cfg, Initial(cfg, now), 0, false, now);
    FirstCallLeases(cfg, now);
    Step(cfg, reached, Initial(cfg, now), Acquire(0, false, now), s);
    t := LeaseCloseDrop(cfg, now, reached, s);
  }

  lemma LeaseCloseDrop(cfg: Settings, now: nat, reached: State -> bool, s: State) returns (t: State)
    requires Closed(cfg, reached) && reached(s) && !s.pool.closed && 0 in s.calls && s.calls[0].Leased?
    ensures reached(t) && t.pool.closed && |t.pool.workers| == cfg.minWarm
  {
    var closed := s.(pool := Close(s.pool));
    Step(cfg, reached, s, ClosePool, closed);
    var failing := SetPhase(closed, 0, Failing(closed.calls[0].worker));
    Step(cfg, reached, closed, GiveUp(0), failing);
    t := DropHeld(cfg, failing, 0, now);
    Step(cfg, reached, failing, DropBroken(0, now), t);
    DropAfterClose(cfg, failing, now);
  }

  ghost function ReachedFrom(cfg: Settings, now: nat): State -> bool
    requires cfg.Valid()
  {
    s => exists actions :: s == Run(cfg, now, actions)
  }

  lemma RunOneMore(cfg: Settings, now: nat, actions: seq<Action>, a: Action)
    requires cfg.Valid()
    ensures Run(cfg, now, actions + [a]) == Next(cfg, Run(cfg, now, actions), a)
  {
    var all := actions + [a];
    assert all[..|all| - 1] == actions && all[|all| - 1] == a;
  }

  lemma RunIsReached(cfg: Settings, now: nat, actions: seq<Action>, s: State)
    requires cfg.Valid() && s == Run(cfg, now, actions)
    ensures s.pool.WellFormed() && ReachedFrom(cfg, now)(s)
  {
  }

  lemma StepIsReached(cfg: Settings, now: nat, s: State, a: Action)
    requires cfg.Valid() && ReachedFrom(cfg, now)(s)
    ensures s.pool.WellFormed() && ReachedFrom(cfg, now)(Next(cfg, s, a))
  {
    var actions :| s == Run(cfg, now, actions);
    RunOneMore(cfg, now, actions, a);
    RunIsReached(cfg, now, actions + [a], Next(cfg, s, a));
  }

  lemma StartIsReached(cfg: Settings, now: nat)
    requires cfg.Valid()
    ensures ReachedFrom(cfg, now)(Initial(cfg, now))
  {
    assert Run(cfg, now, []) == Initial(cfg, now);
  }

  lemma RunsAreClosed(cfg: Settings, now: nat)
    requires cfg.Valid()
    ensures Closed(cfg, ReachedFrom(cfg, now))
  {
    forall s, a | ReachedFrom(cfg, now)(s) ensures s.pool.WellFormed() && ReachedFrom(cfg, now)(Next(cfg, s, a)) {
      StepIsReached(cfg, now, s, a);
    }
    forall s | ReachedFrom(cfg, now)(s) ensures s.pool.WellFormed() { StepIsReached(cfg, now, s, ClosePool); }
  }

  // A call leases a worker, the pool is closed, the call fails and drops its worker:
  // a closed pool with workers.
  lemma ClosedPoolRefills(cfg: Settings, now: nat)
    requires cfg.Valid() && cfg.minWarm >= 1
    ensures exists actions :: Run(cfg, now, actions).pool.closed && |Run(cfg, now, actions).pool.workers| == cfg.minWarm
  {
    RunsAreClosed(cfg, now);
    StartIsReached(cfg, now);
    var t := CloseDuringCall(cfg, now, ReachedFrom(cfg, now));
    var actions :| t == Run(cfg, now, actions);
  }

  // A closed pool stays empty in every run iff no warm workers are configured.
  lemma ClosedStaysEmptyIff(cfg: Settings, now: nat)
    requires cfg.Valid()
    ensures (forall actions :: Run(cfg, now, actions).pool.closed ==> Run(cfg, now, actions).pool.workers == map[])
            <==> cfg.minWarm == 0
  {
    if cfg.minWarm >= 1 {
      ClosedPoolRefills(cfg, now);
    } else {
      forall actions ensures Run(cfg, now, actions).pool.closed ==> Run(cfg, now, actions).pool.workers == map[] {
        WithoutWarmClosedIsEmpty(cfg, now, actions);
      }
    }
  }
}
