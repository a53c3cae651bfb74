// Request statistics (service/base/stats/stats.go): three tables of counters
// that are updated together, and what they mean for the calls they count.
module Stats {
  import opened Ordering

  datatype ServiceStats = ServiceStats(success: nat, failure: nat, cooldown: nat, active: nat, lastError: string)
  datatype OperationStats =
    OperationStats(success: nat, failure: nat, active: nat, lastService: string, lastError: string)

  const NO_SERVICE := ServiceStats(0, 0, 0, 0, "")
  const NO_OPERATION := OperationStats(0, 0, 0, "", "")

  // Rows of `runs` are the source's ServiceOperationStats, by service and operation.
  datatype Tables = Tables(
    services: map<string, ServiceStats>,
    operations: map<string, OperationStats>,
    runs: map<string, map<string, ServiceStats>>)

  const EMPTY := Tables(map[], map[], map[])

  datatype Entry =
    | Began(service: string, operation: string)
    | Succeeded(service: string, operation: string)
    | Failed(service: string, operation: string, category: string)
    | Unresolved(operation: string, category: string)
    | CooledDown(service: string, operation: string)
    | ClearedAll
    | ClearedService(service: string)

  // ----- one entry, table by table

  function ServiceAfter(row: ServiceStats, e: Entry): ServiceStats {
    match e
    case Began(_, _) => row.(active := row.active + 1)
    case Succeeded(_, _) => row.(active := Decrement(row.active), success := row.success + 1)
    case Failed(_, _, c) => row.(active := Decrement(row.active), failure := row.failure + 1, lastError := c)
    case CooledDown(_, _) => row.(cooldown := row.cooldown + 1)
    case _ => row
  }

  function OperationAfter(row: OperationStats, e: Entry): OperationStats {
    match e
    case Began(s, _) => row.(active := row.active + 1, lastService := s)
    case Succeeded(s, _) => row.(active := Decrement(row.active), success := row.success + 1, lastService := s)
    case Failed(s, _, c) =>
      row.(active := Decrement(row.active), failure := row.failure + 1, lastService := s, lastError := c)
    case Unresolved(_, c) => row.(failure := row.failure + 1, lastError := c)
    case _ => row
  }

  function Decrement(n: nat): nat { if n > 0 then n - 1 else n }

  function ServiceRow(t: Tables, s: string): ServiceStats {
    if s in t.services then t.services[s] else NO_SERVICE
  }

  function OperationRow(t: Tables, o: string): OperationStats {
    if o in t.operations then t.operations[o] else NO_OPERATION
  }

  function RunRow(t: Tables, s: string, o: string): ServiceStats {
    if s in t.runs && o in t.runs[s] then t.runs[s][o] else NO_SERVICE
  }

  function WithService(t: Tables, s: string, e: Entry): Tables {
    t.(services := t.services[s := ServiceAfter(ServiceRow(t, s), e)])
  }

  function WithOperation(t: Tables, o: string, e: Entry): Tables {
    t.(operations := t.operations[o := OperationAfter(OperationRow(t, o), e)])
  }

  function WithRun(t: Tables, s: string, o: string, e: Entry): Tables {
    var rows := if s in t.runs then t.runs[s] else map[];
    t.(runs := t.runs[s := rows[o := ServiceAfter(RunRow(t, s, o), e)]])
  }

  function Apply(t: Tables, e: Entry): Tables {
    match e
    case Unresolved(o, _) => if o == "" then t else WithOperation(t, o, e)
    case CooledDown(s, o) => if o == "" then WithService(t, s, e) else WithRun(WithService(t, s, e), s, o, e)
    case ClearedAll => EMPTY
    case ClearedService(s) => t.(services := t.services - {s}, runs := t.runs - {s})
    case _ =>
      if e.operation == "" then WithService(t, e.service, e)
      else WithRun(WithOperation(WithService(t, e.service, e), e.operation, e), e.service, e.operation, e)
  }

  function Replay(log: seq<Entry>): Tables {
    if log == [] then EMPTY else Apply(Replay(log[..|log| - 1]), log[|log| - 1])
  }

  // ----- reading a counter

  // A row of one of the three tables.
  datatype Row = OfService(s: string) | OfOperation(o: string) | OfRun(s: string, o: string)
  datatype Counter = Successes | Failures | Cooldowns

  function Active(t: Tables, row: Row): nat {
    match row
    case OfService(s) => ServiceRow(t, s).active
    case OfOperation(o) => OperationRow(t, o).active
    case OfRun(s, o) => RunRow(t, s, o).active
  }

  function Read(t: Tables, counter: Counter, row: Row): nat {
    match row
    case OfService(s) => Pick(ServiceRow(t, s), counter)
    case OfOperation(o) =>
      (match counter
       case Successes => OperationRow(t, o).success
       case Failures => OperationRow(t, o).failure
       case Cooldowns => 0)
    case OfRun(s, o) => Pick(RunRow(t, s, o), counter)
  }

  function Pick(row: ServiceStats, counter: Counter): nat {
    match counter
    case Successes => row.success
    case Failures => row.failure
    case Cooldowns => row.cooldown
  }

  // ----- the counters are counts over the log

  predicate Covers(row: Row, s: string, o: string) {
    match row
    case OfService(t) => t == s
    case OfOperation(p) => p == o && o != ""
    case OfRun(t, p) => t == s && p == o && o != ""
  }

  predicate Counts(counter: Counter, row: Row, e: Entry) {
    match e
    case Succeeded(s, o) => counter.Successes? && Covers(row, s, o)
    case Failed(s, o, _) => counter.Failures? && Covers(row, s, o)
    case CooledDown(s, o) => counter.Cooldowns? && !row.OfOperation? && Covers(row, s, o)
    case Unresolved(o, _) => counter.Failures? && o != "" && row == OfOperation(o)
    case _ => false
  }

  predicate Clears(row: Row, e: Entry) {
    match e
    case ClearedAll => true
    case ClearedService(s) => !row.OfOperation? && row.s == s
    case _ => false
  }

  predicate Touches(row: Row, e: Entry) {
    match e
    case Unresolved(o, _) => o != "" && row == OfOperation(o)
    case CooledDown(s, o) => !row.OfOperation? && Covers(row, s, o)
    case ClearedAll => false
    case ClearedService(_) => false
    case _ => Covers(row, e.service, e.operation)
  }

  // An entry reaches exactly the rows it covers.
  lemma ServiceRowAfter(t: Tables, e: Entry, s: string)
    ensures ServiceRow(Apply(t, e), s) ==
            if Clears(OfService(s), e) then NO_SERVICE
            else if Touches(OfService(s), e) then ServiceAfter(ServiceRow(t, s), e)
            else ServiceRow(t, s)
  {
  }

  lemma OperationRowAfter(t: Tables, e: Entry, o: string)
    ensures OperationRow(Apply(t, e), o) ==
            if Clears(OfOperation(o), e) then NO_OPERATION
            else if Touches(OfOperation(o), e) then OperationAfter(OperationRow(t, o), e)
            else OperationRow(t, o)
  {
  }

  lemma RunRowWritten(t: Tables, e: Entry, at: string, operation: string, s: string, o: string)
    ensures RunRow(WithRun(t, at, operation, e), s, o)
            == if s == at && o == operation then ServiceAfter(RunRow(t, s, o), e) else RunRow(t, s, o)
  {
  }

  lemma RunRowAfter(t: Tables, e: Entry, s: string, o: string)
    ensures RunRow(Apply(t, e), s, o) ==
            if Clears(OfRun(s, o), e) then NO_SERVICE
            else if Touches(OfRun(s, o), e) then ServiceAfter(RunRow(t, s, o), e)
            else RunRow(t, s, o)
  {
    match e
    case Unresolved(_, _) =>
    case ClearedAll =>
    case ClearedService(_) =>
    case CooledDown(at, operation) => RunRowWritten(WithService(t, at, e), e, at, operation, s, o);
    case _ => RunRowWritten(WithOperation(WithService(t, e.service, e), e.operation, e), e, e.service, e.operation, s, o);
  }

  lemma RowAfter(t: Tables, e: Entry, row: Row)
    ensures forall counter ::
              Read(Apply(t, e), counter, row) ==
              if Clears(row, e) then 0 else Read(t, counter, row) + if Counts(counter, row, e) then 1 else 0
    ensures Active(Apply(t, e), row) ==
            if Clears(row, e) then 0
            else if !Touches(row, e) then Active(t, row)
            else if e.Began? then Active(t, row) + 1
            else if e.Succeeded? || e.Failed? then Decrement(Active(t, row))
            else Active(t, row)
  {
    match row
    case OfService(s) => ServiceRowAfter(t, e, s);
    case OfOperation(o) => OperationRowAfter(t, e, o);
    case OfRun(s, o) => RunRowAfter(t, e, s, o);
  }

  // Entries that count for the row since it was last cleared.
  function Count(log: seq<Entry>, counter: Counter, row: Row): nat {
    if log == [] then 0
    else
      var e := log[|log| - 1];
      if Clears(row, e) then 0
      else Count(log[..|log| - 1], counter, row) + if Counts(counter, row, e) then 1 else 0
  }

  // In every run, resets included, each counter of each table is a count over
  // the history since the reset that last cleared the row; only operation
  // failures also count requests that could not be resolved.
  lemma {:induction false} CountersAreCounts(log: seq<Entry>, counter: Counter, row: Row)
    ensures Read(Replay(log), counter, row) == Count(log, counter, row)
  {
    if log != [] {
      CountersAreCounts(log[..|log| - 1], counter, row);
      RowAfter(Replay(log[..|log| - 1]), log[|log| - 1], row);
    }
  }

  // The error a row shows, and the service an operation shows.
  function ShownError(t: Tables, row: Row): string {
    match row
    case OfService(s) => ServiceRow(t, s).lastError
    case OfOperation(o) => OperationRow(t, o).lastError
    case OfRun(s, o) => RunRow(t, s, o).lastError
  }

  predicate FailsIn(row: Row, e: Entry) {
    match e
    case Failed(s, o, _) => Covers(row, s, o)
    case Unresolved(o, _) => o != "" && row == OfOperation(o)
    case _ => false
  }

  // The category of the last failure of the row since it was last cleared.
  function LastError(log: seq<Entry>, row: Row): string {
    if log == [] then ""
    else
      var e := log[|log| - 1];
      if Clears(row, e) then "" else if FailsIn(row, e) then e.category else LastError(log[..|log| - 1], row)
  }

  // The service that the last call of the operation since all was cleared went to.
  function LastService(log: seq<Entry>, o: string): string {
    if log == [] then ""
    else
      var e := log[|log| - 1];
      if e.ClearedAll? then ""
      else if (e.Began? || e.Succeeded? || e.Failed?) && e.operation == o then e.service
      else LastService(log[..|log| - 1], o)
  }

  lemma {:induction false} ErrorsMatchHistory(log: seq<Entry>, row: Row)
    ensures ShownError(Replay(log), row) == LastError(log, row)
  {
    if log != [] {
      var before, e := Replay(log[..|log| - 1]), log[|log| - 1];
      ErrorsMatchHistory(log[..|log| - 1], row);
      match row
      case OfService(s) => ServiceRowAfter(before, e, s);
      case OfOperation(o) => OperationRowAfter(before, e, o);
      case OfRun(s, o) => RunRowAfter(before, e, s, o);
    }
  }

  lemma {:induction false} ServicesMatchHistory(log: seq<Entry>, o: string)
    requires o != ""
    ensures OperationRow(Replay(log), o).lastService == LastService(log, o)
  {
    if log != [] {
      ServicesMatchHistory(log[..|log| - 1], o);
      OperationRowAfter(Replay(log[..|log| - 1]), log[|log| - 1], o);
    }
  }

  function Sum(f: string -> nat, names: seq<string>): nat {
    if names == [] then 0 else f(names[0]) + Sum(f, names[1..])
  }

  function RunsOfService(log: seq<Entry>, counter: Counter, s: string): string -> nat {
    o => Count(log, counter, OfRun(s, o))
  }

  function RunsOfOperation(log: seq<Entry>, counter: Counter, o: string): string -> nat {
    s => Count(log, counter, OfRun(s, o))
  }

  // f and g differ by one at `at` and agree elsewhere.
  lemma {:induction false} SumAddsOne(f: string -> nat, g: string -> nat, names: seq<string>, at: string)
    requires NoDuplicates(names)
    requires forall n :: g(n) == f(n) + if n == at then 1 else 0
    ensures Sum(g, names) == Sum(f, names) + if at in names then 1 else 0
  {
    if names != [] {
      SumAddsOne(f, g, names[1..], at);
    }
  }

  lemma {:induction false} SumSame(f: string -> nat, g: string -> nat, names: seq<string>)
    requires forall n :: g(n) == f(n)
    ensures Sum(g, names) == Sum(f, names)
  {
    if names != [] { SumSame(f, g, names[1..]); }
  }

  lemma {:induction false} SumZero(f: string -> nat, names: seq<string>)
    requires forall n :: f(n) == 0
    ensures Sum(f, names) == 0
  {
    if names != [] { SumZero(f, names[1..]); }
  }

  // The operation of the entry, blank or not, is one of `names`.
  predicate OperationIn(e: Entry, names: seq<string>) {
    e.ClearedAll? || e.ClearedService? || e.operation in names
  }

  predicate ServiceIn(e: Entry, names: seq<string>) {
    e.ClearedAll? || e.ClearedService? || e.Unresolved? || e.service in names
  }

  // Entries without an operation that count for the service since it was last cleared.
  function Blanks(log: seq<Entry>, counter: Counter, s: string): nat {
    if log == [] then 0
    else
      var e := log[|log| - 1];
      if Clears(OfService(s), e) then 0
      else
        Blanks(log[..|log| - 1], counter, s) + if Counts(counter, OfService(s), e) && e.operation == "" then 1 else 0
  }

  // Rows add up: in every run, resets included, a service's counter is the sum of
  // its counters over the operations it ran, plus the entries without an operation.
  lemma {:induction false} RowsAddUp(log: seq<Entry>, counter: Counter, s: string, operations: seq<string>)
    requires NoDuplicates(operations) && forall e :: e in log ==> OperationIn(e, operations)
    ensures Sum(RunsOfService(log, counter, s), operations) + Blanks(log, counter, s) == Count(log, counter, OfService(s))
  {
    var f := RunsOfService(log, counter, s);
    if log == [] {
      SumZero(f, operations);
    } else {
      var before, e := log[..|log| - 1], log[|log| - 1];
      assert e in log;
      forall d | d in before ensures d in log {}
      RowsAddUp(before, counter, s, operations);
      var g := RunsOfService(before, counter, s);
      if Clears(OfService(s), e) {
        SumZero(f, operations);
      } else if Counts(counter, OfService(s), e) && e.operation != "" {
        SumAddsOne(g, f, operations, e.operation);
      } else {
        SumSame(g, f, operations);
      }
    }
  }

  // f and g agree but at `at`, where f is zero.
  lemma {:induction false} SumDrops(f: string -> nat, g: string -> nat, names: seq<string>, at: string)
    requires NoDuplicates(names)
    requires forall n :: f(n) == if n == at then 0 else g(n)
    ensures Sum(g, names) == Sum(f, names) + if at in names then g(at) else 0
  {
    if names != [] {
      SumDrops(f, g, names[1..], at);
    }
  }

  // What resets of single services took from the runs of an operation since all was
  // cleared: the counts of the service that each of them cleared.
  function Erased(log: seq<Entry>, counter: Counter, o: string): nat {
    if log == [] then 0
    else
      var before, e := log[..|log| - 1], log[|log| - 1];
      if e.ClearedAll? then 0
      else Erased(before, counter, o) + if e.ClearedService? then Count(before, counter, OfRun(e.service, o)) else 0
  }

  lemma {:induction false} AbsentCountsNothing(log: seq<Entry>, counter: Counter, s: string, o: string, services: seq<string>)
    requires s !in services && forall e :: e in log ==> ServiceIn(e, services)
    ensures Count(log, counter, OfRun(s, o)) == 0
  {
    if log != [] {
      assert log[|log| - 1] in log;
      forall d | d in log[..|log| - 1] ensures d in log {}
      AbsentCountsNothing(log[..|log| - 1], counter, s, o, services);
    }
  }

  // Columns: in every run, resets included, an operation's counter is the sum over
  // services, plus, for failures, the requests that could not be resolved, plus
  // what resets of single services erased (they leave the operation table alone).
  lemma {:induction false} ColumnsAddUp(log: seq<Entry>, counter: Counter, o: string, services: seq<string>)
    requires o != "" && NoDuplicates(services) && !counter.Cooldowns?
    requires forall e :: e in log ==> ServiceIn(e, services)
    ensures Sum(RunsOfOperation(log, counter, o), services) + Erased(log, counter, o)
            + (if counter.Failures? then Unresolveds(log, o) else 0) == Count(log, counter, OfOperation(o))
  {
    var f := RunsOfOperation(log, counter, o);
    if log == [] {
      SumZero(f, services);
    } else {
      var before, e := log[..|log| - 1], log[|log| - 1];
      assert e in log;
      forall d | d in before ensures d in log {}
      ColumnsAddUp(before, counter, o, services);
      var g := RunsOfOperation(before, counter, o);
      if e.ClearedAll? {
        SumZero(f, services);
      } else if e.ClearedService? {
        SumDrops(f, g, services, e.service);
        if e.service !in services { AbsentCountsNothing(before, counter, e.service, o, services); }
      } else if !e.Unresolved? && Counts(counter, OfOperation(o), e) {
        SumAddsOne(g, f, services, e.service);
      } else {
        SumSame(g, f, services);
      }
    }
  }

  // The i-th entry resets a single service whose run of the operation had counted
  // something, and the tables were not cleared since.
  ghost predicate Loses(log: seq<Entry>, counter: Counter, o: string, i: nat)
    requires i < |log|
  {
    && log[i].ClearedService? && Count(log[..i], counter, OfRun(log[i].service, o)) > 0
    && forall j :: i < j < |log| ==> !log[j].ClearedAll?
  }

  lemma LosesBefore(log: seq<Entry>, counter: Counter, o: string, i: nat)
    requires i < |log| - 1
    ensures var n := |log| - 1;
            Loses(log, counter, o, i) <==> !log[n].ClearedAll? && Loses(log[..n], counter, o, i)
  {
    var n := |log| - 1;
    var before := log[..n];
    assert log[..i] == before[..i];
    forall j | i <= j < n ensures log[j] == before[j] {}
  }

  lemma {:induction false} ErasedByLosses(log: seq<Entry>, counter: Counter, o: string)
    ensures Erased(log, counter, o) > 0 <==> exists i: nat :: i < |log| && Loses(log, counter, o, i)
  {
    if log != [] {
      var n := |log| - 1;
      var before := log[..n];
      ErasedByLosses(before, counter, o);
      if Erased(before, counter, o) > 0 && !log[n].ClearedAll? {
        var i: nat :| i < n && Loses(before, counter, o, i);
        LosesBefore(log, counter, o, i);
      }
      if log[n].ClearedService? && Count(before, counter, OfRun(log[n].service, o)) > 0 {
        assert Loses(log, counter, o, n);
      }
      if i: nat :| i < n && Loses(log, counter, o, i) {
        LosesBefore(log, counter, o, i);
      }
    }
  }

  // An operation's counter is the sum over services iff no reset of a single service
  // hit a run that had counted.
  lemma ColumnsAddUpIff(log: seq<Entry>, counter: Counter, o: string, services: seq<string>)
    requires o != "" && NoDuplicates(services) && !counter.Cooldowns?
    requires forall e :: e in log ==> ServiceIn(e, services)
    ensures Sum(RunsOfOperation(log, counter, o), services) + (if counter.Failures? then Unresolveds(log, o) else 0)
            == Count(log, counter, OfOperation(o))
            <==> forall i: nat :: i < |log| ==> !Loses(log, counter, o, i)
  {
    ColumnsAddUp(log, counter, o, services);
    ErasedByLosses(log, counter, o);
  }

  // One success and one reset are enough to set the operation apart from the sum.
  lemma ResetBreaksColumn()
    ensures var log := [Succeeded("s", "o"), ClearedService("s")];
            Sum(RunsOfOperation(log, Successes, "o"), ["s"]) == 0 && Count(log, Successes, OfOperation("o")) == 1
  {
    var log := [Succeeded("s", "o"), ClearedService("s")];
    assert log[..1] == [Succeeded("s", "o")] && [Succeeded("s", "o")][..0] == [];
    assert Sum(RunsOfOperation(log, Successes, "o"), []) == 0;
  }

  function Unresolveds(log: seq<Entry>, o: string): nat {
    if log == [] then 0
    else
      var e := log[|log| - 1];
      if e.ClearedAll? then 0
      else Unresolveds(log[..|log| - 1], o) + if e.Unresolved? && e.operation == o then 1 else 0
  }

  // ----- active requests against the calls really in flight

  type CallId = nat

  // Overlapping calls and resets; `log` records what reached the manager.
  datatype World = World(log: seq<Entry>, open: map<CallId, (string, string)>)

  datatype Action =
    | Start(call: CallId, service: string, operation: string)
    | Succeed(call: CallId)
    | Fail(call: CallId, category: string)
    | Resolve(operation: string, category: string)
    | CoolDown(service: string, operation: string)
    | ResetAll
    | ResetService(service: string)

  // One call into the manager; an action on a call that is not in the right
  // state changes nothing.
  function Next(w: World, a: Action): World {
    match a
    case Start(c, s, o) => if c in w.open then w else World(w.log + [Began(s, o)], w.open[c := (s, o)])
    case Succeed(c) => if c !in w.open then w else Ended(w, c, Succeeded(w.open[c].0, w.open[c].1))
    case Fail(c, cat) => if c !in w.open then w else Ended(w, c, Failed(w.open[c].0, w.open[c].1, cat))
    case Resolve(o, cat) => w.(log := w.log + [Unresolved(o, cat)])
    case CoolDown(s, o) => w.(log := w.log + [CooledDown(s, o)])
    case ResetAll => w.(log := w.log + [ClearedAll])
    case ResetService(s) => w.(log := w.log + [ClearedService(s)])
  }

  function Ended(w: World, c: CallId, e: Entry): World {
    World(w.log + [e], w.open - {c})
  }

  function RunWorld(actions: seq<Action>): World {
    if actions == [] then World([], map[])
    else Next(RunWorld(actions[..|actions| - 1]), actions[|actions| - 1])
  }

  function Open(open: map<CallId, (string, string)>, row: Row): set<CallId> {
    set c | c in open && Covers(row, open[c].0, open[c].1)
  }

  function Begins(log: seq<Entry>, row: Row): nat {
    if log == [] then 0
    else
      var e := log[|log| - 1];
      Begins(log[..|log| - 1], row) + if e.Began? && Covers(row, e.service, e.operation) then 1 else 0
  }

  predicate Cleared(log: seq<Entry>, row: Row) {
    exists e :: e in log && Clears(row, e)
  }

  lemma OpenAfterStart(open: map<CallId, (string, string)>, c: CallId, s: string, o: string, row: Row)
    requires c !in open
    ensures |Open(open[c := (s, o)], row)| == |Open(open, row)| + if Covers(row, s, o) then 1 else 0
  {
    assert Open(open[c := (s, o)], row) == Open(open, row) + if Covers(row, s, o) then {c} else {};
  }

  lemma OpenAfterEnd(open: map<CallId, (string, string)>, c: CallId, row: Row)
    requires c in open
    ensures |Open(open - {c}, row)| == |Open(open, row)| - if Covers(row, open[c].0, open[c].1) then 1 else 0
  {
    assert Open(open - {c}, row) == Open(open, row) - {c};
  }

  // The action clears the row.
  predicate Wipes(row: Row, a: Action) {
    a.ResetAll? || (a.ResetService? && Clears(row, ClearedService(a.service)))
  }

  function InFlight(actions: seq<Action>, row: Row): nat { |Open(RunWorld(actions).open, row)| }

  // The fewest calls of the row that were in flight at any moment since the row was
  // last cleared, or since the start, when there were none.
  function Slack(actions: seq<Action>, row: Row): nat {
    if actions == [] then 0
    else if Wipes(row, actions[|actions| - 1]) then InFlight(actions, row)
    else Min(Slack(actions[..|actions| - 1], row), InFlight(actions, row))
  }

  // In every interleaving of calls and resets a row shows the calls really in
  // flight, less the fewest there were at any moment since it was last cleared.
  lemma {:induction false} ActiveIsInFlight(actions: seq<Action>, row: Row)
    ensures Active(Replay(RunWorld(actions).log), row) + Slack(actions, row) == InFlight(actions, row)
  {
    if actions == [] {
      assert Open(map[], row) == {};
    } else {
      var before, a := actions[..|actions| - 1], actions[|actions| - 1];
      ActiveIsInFlight(before, row);
      ActiveStep(RunWorld(before), a, row, Slack(before, row));
    }
  }

  // After its first k actions the run had no call of the row in flight, and the row
  // was not cleared later.
  ghost predicate Quiet(actions: seq<Action>, row: Row, k: nat)
    requires k <= |actions|
  {
    InFlight(actions[..k], row) == 0 && forall j :: k <= j < |actions| ==> !Wipes(row, actions[j])
  }

  lemma QuietBefore(actions: seq<Action>, row: Row, k: nat)
    requires k < |actions|
    ensures Quiet(actions, row, k) <==> !Wipes(row, actions[|actions| - 1]) && Quiet(actions[..|actions| - 1], row, k)
  {
    var before := actions[..|actions| - 1];
    assert actions[..k] == before[..k];
    forall j | k <= j < |before| ensures actions[j] == before[j] {}
  }

  lemma {:induction false} SlackOfQuiet(actions: seq<Action>, row: Row)
    ensures Slack(actions, row) == 0 <==> exists k: nat :: k <= |actions| && Quiet(actions, row, k)
  {
    var n := |actions|;
    assert actions[..n] == actions;
    if n == 0 {
      assert Open(map[], row) == {};
      assert Quiet(actions, row, 0);
    } else {
      var before := actions[..n - 1];
      SlackOfQuiet(before, row);
      forall k: nat | k < n { QuietBefore(actions, row, k); }
      assert Quiet(actions, row, n) <==> InFlight(actions, row) == 0;
      if !Wipes(row, actions[n - 1]) {
        if k: nat :| k < n && Quiet(before, row, k) { assert Quiet(actions, row, k); }
      }
      if k: nat :| k < n && Quiet(actions, row, k) { assert Quiet(before, row, k); }
    }
  }

  // A row shows exactly the calls in flight iff since it was last cleared there was
  // a moment with none, which the start of the run is.
  lemma ActiveIsExactIff(actions: seq<Action>, row: Row)
    ensures Active(Replay(RunWorld(actions).log), row) == InFlight(actions, row)
            <==> exists k: nat :: k <= |actions| && Quiet(actions, row, k)
  {
    ActiveIsInFlight(actions, row);
    SlackOfQuiet(actions, row);
  }

  // A reset during a call hides it.
  lemma ResetHidesCall()
    ensures var actions := [Start(0, "s", "o"), ResetService("s")];
            && Active(Replay(RunWorld(actions).log), OfService("s")) == 0 && InFlight(actions, OfService("s")) == 1
  {
    var actions, row := [Start(0, "s", "o"), ResetService("s")], OfService("s");
    var before := [Start(0, "s", "o")];
    assert actions[..1] == before && before[..0] == [];
    var w := RunWorld(before);
    assert w == Next(RunWorld([]), Start(0, "s", "o"));
    assert w.open == map[0 := ("s", "o")] && RunWorld(actions) == Next(w, ResetService("s"));
    assert Open(map[0 := ("s", "o")], row) == {0};
    assert Slack(actions, row) == InFlight(actions, row) == 1;
    ActiveIsInFlight(actions, row);
  }

  lemma ClearedLast(log: seq<Entry>, e: Entry, row: Row)
    ensures Cleared(log + [e], row) <==> Cleared(log, row) || Clears(row, e)
  {
    if Cleared(log, row) {
      var d :| d in log && Clears(row, d);
      assert d in log + [e];
    }
    assert e in log + [e];
  }

  // What one action appends, and how it changes the calls in flight.
  lemma ActionEffect(w: World, a: Action, row: Row)
    ensures var v := Next(w, a);
            v == w ||
            (&& v.log != [] && v.log == w.log + [v.log[|v.log| - 1]]
             && var e := v.log[|v.log| - 1];
                && Replay(v.log) == Apply(Replay(w.log), e)
                && (Cleared(v.log, row) <==> Cleared(w.log, row) || Clears(row, e))
                && |Open(v.open, row)| == |Open(w.open, row)| + Change(row, e)
                && ((e.Succeeded? || e.Failed?) && Touches(row, e) ==> |Open(w.open, row)| >= 1))
  {
    var v := Next(w, a);
    if v != w {
      var e := v.log[|v.log| - 1];
      assert v.log == w.log + [e];
      assert v.log[..|w.log|] == w.log;
      ClearedLast(w.log, e, row);
      match a
      case Start(c, s, o) => OpenAfterStart(w.open, c, s, o, row);
      case Succeed(c) => OpenAfterEnd(w.open, c, row);
      case Fail(c, _) => OpenAfterEnd(w.open, c, row);
      case _ =>
    }
  }

  // Exactly the actions that wipe a row append an entry that clears it.
  lemma WipesAreClears(w: World, a: Action, row: Row)
    ensures var v := Next(w, a);
            if v == w then !Wipes(row, a) else v.log != [] && (Clears(row, v.log[|v.log| - 1]) <==> Wipes(row, a))
  {
  }

  function Change(row: Row, e: Entry): int {
    if !Touches(row, e) then 0
    else if e.Began? then 1
    else if e.Succeeded? || e.Failed? then -1
    else 0
  }

  lemma ActiveStep(w: World, a: Action, row: Row, slack: nat)
    requires Active(Replay(w.log), row) + slack == |Open(w.open, row)|
    ensures var v := Next(w, a);
            Active(Replay(v.log), row)
            + (if Wipes(row, a) then |Open(v.open, row)| else Min(slack, |Open(v.open, row)|)) == |Open(v.open, row)|
  {
    ActionEffect(w, a, row);
    WipesAreClears(w, a, row);
    var v := Next(w, a);
    if v != w {
      var e := v.log[|v.log| - 1];
      RowAfter(Replay(w.log), e, row);
    }
  }

  ghost predicate NoResets(actions: seq<Action>) {
    forall a :: a in actions ==> !a.ResetAll? && !a.ResetService?
  }

  lemma NoResetsNoSlack(actions: seq<Action>, row: Row)
    requires NoResets(actions)
    ensures Slack(actions, row) == 0
  {
    assert Open(map[], row) == {} && actions[..0] == [];
    forall j | 0 <= j < |actions| ensures !Wipes(row, actions[j]) { assert actions[j] in actions; }
    assert Quiet(actions, row, 0);
    SlackOfQuiet(actions, row);
  }

  // ----- active rows and columns add up, too

  function OpenOfService(open: map<CallId, (string, string)>, s: string): string -> nat {
    o => |Open(open, OfRun(s, o))|
  }

  function OpenOfOperation(open: map<CallId, (string, string)>, o: string): string -> nat {
    s => |Open(open, OfRun(s, o))|
  }

  // Calls of the service in flight that carry no operation.
  function Unnamed(open: map<CallId, (string, string)>, s: string): set<CallId> {
    set c | c in open && open[c] == (s, "")
  }

  lemma UnnamedAfterEnd(open: map<CallId, (string, string)>, c: CallId, s: string)
    requires c in open
    ensures |Unnamed(open - {c}, s)| == |Unnamed(open, s)| - if open[c] == (s, "") then 1 else 0
  {
    assert Unnamed(open - {c}, s) == Unnamed(open, s) - {c};
  }

  // How one call shows in the sum over operations, and in the sum over services.
  lemma EndInRows(open: map<CallId, (string, string)>, c: CallId, s: string, operations: seq<string>)
    requires c in open && NoDuplicates(operations) && open[c].1 in operations
    ensures Sum(OpenOfService(open, s), operations)
            == Sum(OpenOfService(open - {c}, s), operations) + if open[c].0 == s && open[c].1 != "" then 1 else 0
  {
    forall o { OpenAfterEnd(open, c, OfRun(s, o)); }
    if open[c].0 == s && open[c].1 != "" {
      SumAddsOne(OpenOfService(open - {c}, s), OpenOfService(open, s), operations, open[c].1);
    } else {
      SumSame(OpenOfService(open - {c}, s), OpenOfService(open, s), operations);
    }
  }

  lemma EndInColumns(open: map<CallId, (string, string)>, c: CallId, o: string, services: seq<string>)
    requires o != "" && c in open && NoDuplicates(services) && open[c].0 in services
    ensures Sum(OpenOfOperation(open, o), services)
            == Sum(OpenOfOperation(open - {c}, o), services) + if open[c].1 == o then 1 else 0
  {
    forall s { OpenAfterEnd(open, c, OfRun(s, o)); }
    if open[c].1 == o {
      SumAddsOne(OpenOfOperation(open - {c}, o), OpenOfOperation(open, o), services, open[c].0);
    } else {
      SumSame(OpenOfOperation(open - {c}, o), OpenOfOperation(open, o), services);
    }
  }

  lemma NothingOpen(row: Row)
    ensures |Open(map[], row)| == 0
  {
    assert Open(map[], row) == {};
  }

  lemma {:induction false} OpenRowsAddUp(open: map<CallId, (string, string)>, s: string, services: seq<string>,
                                         operations: seq<string>)
    requires NoDuplicates(operations) && AllAmong(open, services, operations)
    ensures Sum(OpenOfService(open, s), operations) + |Unnamed(open, s)| == |Open(open, OfService(s))|
    decreases |open|
  {
    if open == map[] {
      forall row { NothingOpen(row); }
      SumZero(OpenOfService(open, s), operations);
      assert Unnamed(open, s) == {};
    } else {
      var c :| c in open;
      OpenRowsAddUp(open - {c}, s, services, operations);
      OpenAfterEnd(open, c, OfService(s));
      UnnamedAfterEnd(open, c, s);
      EndInRows(open, c, s, operations);
    }
  }

  lemma {:induction false} OpenColumnsAddUp(open: map<CallId, (string, string)>, o: string, services: seq<string>,
                                            operations: seq<string>)
    requires o != "" && NoDuplicates(services) && AllAmong(open, services, operations)
    ensures Sum(OpenOfOperation(open, o), services) == |Open(open, OfOperation(o))|
    decreases |open|
  {
    if open == map[] {
      forall row { NothingOpen(row); }
      SumZero(OpenOfOperation(open, o), services);
    } else {
      var c :| c in open;
      OpenColumnsAddUp(open - {c}, o, services, operations);
      OpenAfterEnd(open, c, OfOperation(o));
      EndInColumns(open, c, o, services);
    }
  }

  lemma {:induction false} SumOfTwo(f: string -> nat, g: string -> nat, h: string -> nat, names: seq<string>)
    requires forall n :: h(n) == f(n) + g(n)
    ensures Sum(h, names) == Sum(f, names) + Sum(g, names)
  {
    if names != [] { SumOfTwo(f, g, h, names[1..]); }
  }

  ghost predicate AllAmong(open: map<CallId, (string, string)>, services: seq<string>, operations: seq<string>) {
    forall c :: c in open ==> open[c].0 in services && open[c].1 in operations
  }

  // Calls in flight come from starts.
  lemma {:induction false} OpenWasStarted(actions: seq<Action>, services: seq<string>, operations: seq<string>)
    requires forall a :: a in actions && a.Start? ==> a.service in services && a.operation in operations
    ensures AllAmong(RunWorld(actions).open, services, operations)
  {
    if actions != [] {
      var before, a := actions[..|actions| - 1], actions[|actions| - 1];
      assert a in actions;
      forall b | b in before ensures b in actions {}
      OpenWasStarted(before, services, operations);
      assert RunWorld(actions) == Next(RunWorld(before), a);
    }
  }

  function ActiveAfter(actions: seq<Action>, row: Row): nat { Active(Replay(RunWorld(actions).log), row) }

  function ActiveOfService(actions: seq<Action>, s: string): string -> nat { o => ActiveAfter(actions, OfRun(s, o)) }

  function SlackOfService(actions: seq<Action>, s: string): string -> nat { o => Slack(actions, OfRun(s, o)) }

  function ActiveOfOperation(actions: seq<Action>, o: string): string -> nat { s => ActiveAfter(actions, OfRun(s, o)) }

  function SlackOfOperation(actions: seq<Action>, o: string): string -> nat { s => Slack(actions, OfRun(s, o)) }

  // In every run, resets included: over the operations of a service, active counts
  // and what the rows fail to show sum to those of the service, less its calls in
  // flight without an operation.
  lemma ActiveRowsAddUp(actions: seq<Action>, s: string, services: seq<string>, operations: seq<string>)
    requires NoDuplicates(operations)
    requires forall a :: a in actions && a.Start? ==> a.service in services && a.operation in operations
    ensures var unnamed := |Unnamed(RunWorld(actions).open, s)|;
            && Sum(ActiveOfService(actions, s), operations) + Sum(SlackOfService(actions, s), operations) + unnamed
               == ActiveAfter(actions, OfService(s)) + Slack(actions, OfService(s))
            && (NoResets(actions) ==>
                  Sum(ActiveOfService(actions, s), operations) + unnamed == ActiveAfter(actions, OfService(s)))
  {
    var open := RunWorld(actions).open;
    OpenWasStarted(actions, services, operations);
    OpenRowsAddUp(open, s, services, operations);
    ActiveIsInFlight(actions, OfService(s));
    forall o ensures OpenOfService(open, s)(o) == ActiveOfService(actions, s)(o) + SlackOfService(actions, s)(o) {
      ActiveIsInFlight(actions, OfRun(s, o));
    }
    SumOfTwo(ActiveOfService(actions, s), SlackOfService(actions, s), OpenOfService(open, s), operations);
    if NoResets(actions) {
      forall row ensures Slack(actions, row) == 0 { NoResetsNoSlack(actions, row); }
      SumZero(SlackOfService(actions, s), operations);
    }
  }

  // The same over the services of an operation.
  lemma ActiveColumnsAddUp(actions: seq<Action>, o: string, services: seq<string>, operations: seq<string>)
    requires NoDuplicates(services) && o != ""
    requires forall a :: a in actions && a.Start? ==> a.service in services && a.operation in operations
    ensures Sum(ActiveOfOperation(actions, o), services) + Sum(SlackOfOperation(actions, o), services)
            == ActiveAfter(actions, OfOperation(o)) + Slack(actions, OfOperation(o))
    ensures NoResets(actions) ==> Sum(ActiveOfOperation(actions, o), services) == ActiveAfter(actions, OfOperation(o))
  {
    var open := RunWorld(actions).open;
    OpenWasStarted(actions, services, operations);
    OpenColumnsAddUp(open, o, services, operations);
    ActiveIsInFlight(actions, OfOperation(o));
    forall s ensures OpenOfOperation(open, o)(s) == ActiveOfOperation(actions, o)(s) + SlackOfOperation(actions, o)(s) {
      ActiveIsInFlight(actions, OfRun(s, o));
    }
    SumOfTwo(ActiveOfOperation(actions, o), SlackOfOperation(actions, o), OpenOfOperation(open, o), services);
    if NoResets(actions) {
      forall row ensures Slack(actions, row) == 0 { NoResetsNoSlack(actions, row); }
      SumZero(SlackOfOperation(actions, o), services);
    }
  }

  ghost predicate Conserved(w: World, row: Row) {
    var t := Replay(w.log);
    && !Cleared(w.log, row)
    && Begins(w.log, row) + (if row.OfOperation? && row.o != "" then Unresolveds(w.log, row.o) else 0)
       == Read(t, Successes, row) + Read(t, Failures, row) + Active(t, row)
  }

  lemma StepConserves(w: World, a: Action, row: Row)
    requires Conserved(w, row) && !a.ResetAll? && !a.ResetService?
    requires Active(Replay(w.log), row) == |Open(w.open, row)|
    ensures Conserved(Next(w, a), row)
  {
    ActionEffect(w, a, row);
    WipesAreClears(w, a, row);
    var v := Next(w, a);
    if v != w { EntryConserves(w, v, v.log[|v.log| - 1], row); }
  }

  lemma EntryConserves(w: World, v: World, e: Entry, row: Row)
    requires Conserved(w, row) && !Cleared(v.log, row) && !e.ClearedAll?
    requires v.log == w.log + [e] && !Clears(row, e)
    requires (e.Succeeded? || e.Failed?) && Touches(row, e) ==> Active(Replay(w.log), row) >= 1
    ensures Conserved(v, row)
  {
    assert v.log[..|v.log| - 1] == w.log;
    RowAfter(Replay(w.log), e, row);
  }

  // Without resets nothing is lost: what began has succeeded, failed or is active.
  lemma {:induction false} CallsAreConserved(actions: seq<Action>, row: Row)
    requires NoResets(actions)
    ensures var w := RunWorld(actions);
            var t := Replay(w.log);
            && !Cleared(w.log, row)
            && Begins(w.log, row) + (if row.OfOperation? && row.o != "" then Unresolveds(w.log, row.o) else 0)
               == Read(t, Successes, row) + Read(t, Failures, row) + Active(t, row)
  {
    if actions == [] {
      assert Conserved(RunWorld(actions), row);
    } else {
      var before, a := actions[..|actions| - 1], actions[|actions| - 1];
      assert a in actions;
      forall b | b in before ensures b in actions {}
      CallsAreConserved(before, row);
      ActiveIsInFlight(before, row);
      NoResetsNoSlack(before, row);
      StepConserves(RunWorld(before), a, row);
    }
  }

  // ----- the manager object

  class Manager {
    var entries: map<string, ServiceStats>
    var operationEntries: map<string, OperationStats>
    var serviceOperationRuns: map<string, map<string, ServiceStats>>

    ghost function View(): Tables
      reads this
    {
      Tables(entries, operationEntries, serviceOperationRuns)
    }

    constructor ()
      ensures View() == EMPTY
    {
      entries, operationEntries, serviceOperationRuns := map[], map[], map[];
    }

    method Begin(service: string, operation: string)
      modifies this
      ensures View() == Apply(old(View()), Began(service, operation))
    {
      var entry := if service in entries then entries[service] else NO_SERVICE;
      entries := entries[service := entry.(active := entry.active + 1)];
      if operation != "" {
        var op := if operation in operationEntries then operationEntries[operation] else NO_OPERATION;
        operationEntries := operationEntries[operation := op.(active := op.active + 1, lastService := service)];
        var rows := if service in serviceOperationRuns then serviceOperationRuns[service] else map[];
        var run := if operation in rows then rows[operation] else NO_SERVICE;
        serviceOperationRuns := serviceOperationRuns[service := rows[operation := run.(active := run.active + 1)]];
      }
    }

    method EndSuccess(service: string, operation: string)
      modifies this
      ensures View() == Apply(old(View()), Succeeded(service, operation))
    {
      var entry := if service in entries then entries[service] else NO_SERVICE;
      if entry.active > 0 {
        entry := entry.(active := entry.active - 1);
      }
      entries := entries[service := entry.(success := entry.success + 1)];
      ghost var e := Succeeded(service, operation);
      assert entries == WithService(old(View()), service, e).services;
      if operation != "" {
        var op := if operation in operationEntries then operationEntries[operation] else NO_OPERATION;
        if op.active > 0 {
          op := op.(active := op.active - 1);
        }
        operationEntries := operationEntries[operation := op.(success := op.success + 1, lastService := service)];
        assert operationEntries == WithOperation(old(View()), operation, e).operations;
        var rows := if service in serviceOperationRuns then serviceOperationRuns[service] else map[];
        var run := if operation in rows then rows[operation] else NO_SERVICE;
        if run.active > 0 {
          run := run.(active := run.active - 1);
        }
        serviceOperationRuns :=
          serviceOperationRuns[service := rows[operation := run.(success := run.success + 1)]];
        assert serviceOperationRuns == WithRun(old(View()), service, operation, e).runs;
      }
    }

    method EndFailure(service: string, operation: string, category: string)
      modifies this
      ensures View() == Apply(old(View()), Failed(service, operation, category))
    {
      var entry := if service in entries then entries[service] else NO_SERVICE;
      if entry.active > 0 {
        entry := entry.(active := entry.active - 1);
      }
      entries := entries[service := entry.(failure := entry.failure + 1, lastError := category)];
      ghost var e := Failed(service, operation, category);
      assert entries == WithService(old(View()), service, e).services;
      if operation != "" {
        var op := if operation in operationEntries then operationEntries[operation] else NO_OPERATION;
        if op.active > 0 {
          op := op.(active := op.active - 1);
        }
        operationEntries := operationEntries[operation :=
          op.(failure := op.failure + 1, lastService := service, lastError := category)];
        assert operationEntries == WithOperation(old(View()), operation, e).operations;
        var rows := if service in serviceOperationRuns then serviceOperationRuns[service] else map[];
        var run := if operation in rows then rows[operation] else NO_SERVICE;
        if run.active > 0 {
          run := run.(active := run.active - 1);
        }
        serviceOperationRuns := serviceOperationRuns[service :=
          rows[operation := run.(failure := run.failure + 1, lastError := category)]];
        assert serviceOperationRuns == WithRun(old(View()), service, operation, e).runs;
      }
    }

    method RecordResolutionFailure(operation: string, category: string)
      modifies this
      ensures View() == Apply(old(View()), Unresolved(operation, category))
    {
      if operation == "" {
        return;
      }
      var op := if operation in operationEntries then operationEntries[operation] else NO_OPERATION;
      operationEntries := operationEntries[operation := op.(failure := op.failure + 1, lastError := category)];
    }

    method RecordCooldown(service: string, operation: string)
      modifies this
      ensures View() == Apply(old(View()), CooledDown(service, operation))
    {
      var entry := if service in entries then entries[service] else NO_SERVICE;
      entries := entries[service := entry.(cooldown := entry.cooldown + 1)];
      if operation != "" {
        var rows := if service in serviceOperationRuns then serviceOperationRuns[service] else map[];
        var run := if operation in rows then rows[operation] else NO_SERVICE;
        serviceOperationRuns :=
          serviceOperationRuns[service := rows[operation := run.(cooldown := run.cooldown + 1)]];
      }
    }

    method ActiveRequests(service: string) returns (active: nat)
      ensures active == ServiceRow(View(), service).active
    {
      active := if service in entries then entries[service].active else 0;
    }

    method Reset()
      modifies this
      ensures View() == Apply(old(View()), ClearedAll)
    {
      entries, operationEntries, serviceOperationRuns := map[], map[], map[];
    }

    method ResetService(service: string)
      modifies this
      ensures View() == Apply(old(View()), ClearedService(service))
    {
      entries := entries - {service};
      serviceOperationRuns := serviceOperationRuns - {service};
    }
  }
}
