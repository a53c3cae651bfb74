// The audit log (service/base/services/audit_log.go): a bounded list in memory,
// newest first, and an append-only file, oldest first, that a restart reloads.
module AuditLog {
  import opened Ordering
  import opened Text

  datatype Record = Record(id: string, action: string, targetType: string, target: string, createdAt: nat)

  datatype Filtering = Filtering(action: string, targetType: string, target: string, limit: int)

  // ----- the store as a value; `file` is the log on disk, if it exists

  datatype Store = Store(enabled: bool, path: string, limit: nat, records: seq<Record>, file: Option<seq<Record>>)

  function Lines(file: Option<seq<Record>>): seq<Record> {
    if file.Some? then file.value else []
  }

  predicate Persists(s: Store) { s.enabled && s.path != "" }

  function Reverse(s: seq<Record>): (r: seq<Record>)
    ensures |r| == |s|
  {
    if s == [] then [] else [s[|s| - 1]] + Reverse(s[..|s| - 1])
  }

  lemma {:induction false} ReverseAt(s: seq<Record>, k: nat)
    requires k < |s|
    ensures Reverse(s)[k] == s[|s| - 1 - k]
  {
    if k > 0 { ReverseAt(s[..|s| - 1], k - 1); }
  }

  lemma {:induction false} ReverseOldest(s: seq<Record>)
    requires s != []
    ensures Reverse(s) == Reverse(s[1..]) + [s[0]]
  {
    if |s| > 1 {
      ReverseOldest(s[..|s| - 1]);
      assert s[..|s| - 1][1..] == s[1..][..|s| - 2];
    }
  }

  lemma {:induction false} ReverseTwice(s: seq<Record>)
    ensures Reverse(Reverse(s)) == s
  {
    if s != [] {
      ReverseTwice(s[..|s| - 1]);
      ReverseOldest(Reverse(s));
      assert Reverse(s)[1..] == Reverse(s[..|s| - 1]);
    }
  }

  // b is s with its first and last `left` records exchanged, outermost first.
  ghost predicate Mirrored(b: seq<Record>, s: seq<Record>, left: nat) {
    |b| == |s| && forall k :: 0 <= k < |s| ==> b[k] == if left <= k < |s| - left then s[k] else Reverse(s)[k]
  }

  lemma {:induction false} MirroredFurther(b: seq<Record>, s: seq<Record>, left: nat, right: nat)
    requires Mirrored(b, s, left) && left < right && left + right == |s| - 1
    ensures Mirrored(b[left := b[right]][right := b[left]], s, left + 1)
  {
    ReverseAt(s, left);
    ReverseAt(s, right);
  }

  lemma {:induction false} MirroredIsReversed(b: seq<Record>, s: seq<Record>, left: nat)
    requires Mirrored(b, s, left) && |s| <= 2 * left + 1
    ensures b == Reverse(s)
  {
    if |s| == 2 * left + 1 { ReverseAt(s, left); }
  }

  // What a reload keeps of the file: its last lines, newest first.
  function Recall(lines: seq<Record>, limit: nat): seq<Record> {
    Reverse(lines[|lines| - Min(limit, |lines|)..])
  }

  function Loaded(s: Store): Store {
    if !Persists(s) || s.file.None? then s else s.(records := Recall(s.file.value, s.limit))
  }

  function Recorded(s: Store, r: Record): Store {
    if !s.enabled then s
    else
      var all := [r] + s.records;
      s.(records := all[..Min(s.limit, |all|)],
         file := if s.path != "" then Some(Lines(s.file) + [r]) else s.file)
  }

  function Pruned(s: Store, keep: int): Store {
    var kept := s.records[..Min(Max(keep, 0), |s.records|)];
    s.(records := kept, file := if Persists(s) then Some(Reverse(kept)) else s.file)
  }

  function Limit(limit: int): (r: nat)
  {
    if limit <= 0 then 500 else limit
  }

  // A new store over the file, before and after it is loaded.
  function Fresh(enabled: bool, path: string, limit: nat, file: Option<seq<Record>>): Store {
    Store(enabled, path, limit, [], file)
  }

  function Restarted(s: Store): Store {
    Loaded(Fresh(s.enabled, s.path, s.limit, s.file))
  }

  // ----- memory and file agree in every run

  datatype Operation = Append(r: Record) | Prune(keep: int) | Reload

  function Step(s: Store, op: Operation): Store {
    match op
    case Append(r) => Recorded(s, r)
    case Prune(keep) => Pruned(s, keep)
    case Reload => Loaded(s)
  }

  function Run(s: Store, ops: seq<Operation>): Store {
    if ops == [] then s else Step(Run(s, ops[..|ops| - 1]), ops[|ops| - 1])
  }

  ghost predicate InStep(s: Store) {
    && |s.records| <= s.limit
    && (Persists(s) ==> s.records == Recall(Lines(s.file), s.limit))
    && (!s.enabled ==> s.records == [])
  }

  lemma FreshIsInStep(enabled: bool, path: string, limit: nat, file: Option<seq<Record>>)
    ensures InStep(Loaded(Fresh(enabled, path, limit, file)))
  {
  }

  // Appending a line brings its record to the front and drops the oldest beyond
  // the limit.
  lemma {:induction false} RecallOfAppended(lines: seq<Record>, limit: nat, r: Record)
    ensures var all := [r] + Recall(lines, limit);
            Recall(lines + [r], limit) == all[..Min(limit, |all|)]
  {
    var longer, n := lines + [r], |lines|;
    if n < limit {
      assert longer[0..] == longer && longer[..n] == lines && lines[0..] == lines;
    } else if limit > 0 {
      var kept := lines[n - limit..];
      var shifted := longer[n + 1 - limit..];
      assert shifted[..limit - 1] == kept[1..];
      ReverseOldest(kept);
    }
  }

  // A file rewritten from memory gives memory back.
  lemma {:induction false} RecallOfRewritten(records: seq<Record>, limit: nat)
    requires |records| <= limit
    ensures Recall(Reverse(records), limit) == records
  {
    assert Reverse(records)[0..] == Reverse(records);
    ReverseTwice(records);
  }

  lemma StepKeepsInStep(s: Store, op: Operation)
    requires InStep(s)
    ensures InStep(Step(s, op))
  {
    match op
    case Append(r) => RecallOfAppended(Lines(s.file), s.limit, r);
    case Prune(keep) => RecallOfRewritten(Pruned(s, keep).records, s.limit);
    case Reload =>
  }

  lemma {:induction false} RunKeepsInStep(s: Store, ops: seq<Operation>)
    requires InStep(s)
    ensures InStep(Run(s, ops))
  {
    if ops != [] {
      var before := Run(s, ops[..|ops| - 1]);
      RunKeepsInStep(s, ops[..|ops| - 1]);
      StepKeepsInStep(before, ops[|ops| - 1]);
    }
  }

  lemma {:induction false} RunKeepsSettings(s: Store, ops: seq<Operation>)
    ensures var t := Run(s, ops); t.enabled == s.enabled && t.path == s.path && t.limit == s.limit
  {
    if ops != [] { RunKeepsSettings(s, ops[..|ops| - 1]); }
  }

  // The i-th operation records something, and no later one prunes everything.
  ghost predicate Keeps(ops: seq<Operation>, i: nat)
    requires i < |ops|
  {
    ops[i].Append? && forall j :: i < j < |ops| && ops[j].Prune? ==> ops[j].keep > 0
  }

  ghost predicate Retains(ops: seq<Operation>) {
    exists i: nat :: i < |ops| && Keeps(ops, i)
  }

  lemma KeepsBefore(ops: seq<Operation>, i: nat)
    requires i < |ops| - 1
    ensures var n := |ops| - 1;
            Keeps(ops, i) <==> (ops[n].Prune? ==> ops[n].keep > 0) && Keeps(ops[..n], i)
  {
    forall j | i <= j < |ops| - 1 ensures ops[j] == ops[..|ops| - 1][j] {}
  }

  // Memory alone holds something iff something was recorded and not pruned away.
  lemma {:induction false} MemoryHolds(s: Store, ops: seq<Operation>)
    requires s.enabled && s.path == "" && s.limit > 0 && s.records == []
    ensures Run(s, ops).records != [] <==> Retains(ops)
  {
    if ops != [] {
      var n := |ops| - 1;
      MemoryHolds(s, ops[..n]);
      RunKeepsSettings(s, ops[..n]);
      if Run(s, ops[..n]).records != [] {
        var i: nat :| i < n && Keeps(ops[..n], i);
        KeepsBefore(ops, i);
      }
      if i: nat :| i < n && Keeps(ops, i) { KeepsBefore(ops, i); }
      if ops[n].Append? { assert Keeps(ops, n); }
    }
  }

  lemma {:induction false} RestartReadsFile(s: Store)
    requires InStep(s)
    ensures Restarted(s).records == if s.enabled && s.path == "" then [] else s.records
  {
  }

  // After a run a restart finds exactly the records in memory, if and only if the
  // log is disabled, or is kept in a file, or nothing was recorded since it was
  // last pruned away.
  lemma {:induction false} RestartEquality(enabled: bool, path: string, limit: int, file: Option<seq<Record>>,
                                           ops: seq<Operation>)
    ensures var s := Run(Loaded(Fresh(enabled, path, Limit(limit), file)), ops);
            Restarted(s).records == s.records
            <==> !enabled || path != "" || !Retains(ops)
  {
    var start := Loaded(Fresh(enabled, path, Limit(limit), file));
    FreshIsInStep(enabled, path, Limit(limit), file);
    RunKeepsInStep(start, ops);
    RunKeepsSettings(start, ops);
    RestartReadsFile(Run(start, ops));
    if enabled && path == "" { MemoryHolds(start, ops); }
  }

  function Appended(ops: seq<Operation>): seq<Record> {
    if ops == [] then []
    else Appended(ops[..|ops| - 1]) + if ops[|ops| - 1].Append? then [ops[|ops| - 1].r] else []
  }

  // How many records are held: each one recorded adds one up to the limit, and a prune
  // keeps so many.
  function Held(limit: nat, start: nat, ops: seq<Operation>): int {
    if ops == [] then Min(limit, start)
    else
      var n := Held(limit, start, ops[..|ops| - 1]);
      match ops[|ops| - 1]
      case Append(_) => Min(limit, n + 1)
      case Prune(keep) => Min(n, if keep < 0 then 0 else keep)
      case Reload => n
  }

  // The first n are the last n of all, newest first.
  ghost predicate Newest(records: seq<Record>, all: seq<Record>, n: int) {
    |records| == n <= |all| && forall k :: 0 <= k < n ==> records[k] == all[|all| - 1 - k]
  }

  lemma StepKeepsNewest(s: Store, op: Operation, all: seq<Record>, n: int)
    requires s.enabled && InStep(s) && Newest(s.records, all, n)
    ensures var t := Step(s, op);
            match op
            case Append(r) => Newest(t.records, all + [r], Min(s.limit, n + 1))
            case Prune(keep) => Newest(t.records, all, Min(n, if keep < 0 then 0 else keep))
            case Reload => Newest(t.records, all, n)
  {
  }

  ghost predicate NewestAfter(s: Store, loaded: seq<Record>, ops: seq<Operation>) {
    Newest(s.records, loaded + Appended(ops), Held(s.limit, |loaded|, ops))
  }

  lemma {:induction false} OneMoreKeepsNewest(s: Store, loaded: seq<Record>, ops: seq<Operation>)
    requires s.enabled && InStep(s) && ops != [] && NewestAfter(s, loaded, ops[..|ops| - 1])
    ensures NewestAfter(Step(s, ops[|ops| - 1]), loaded, ops)
  {
    var before, op := ops[..|ops| - 1], ops[|ops| - 1];
    StepKeepsNewest(s, op, loaded + Appended(before), Held(s.limit, |loaded|, before));
    assert loaded + Appended(ops) == if op.Append? then (loaded + Appended(before)) + [op.r] else loaded + Appended(before);
  }

  // After any run of an enabled log memory holds the newest of what was loaded at the
  // start and recorded since, newest first, and as many as the limit and the prunes left.
  lemma {:induction false} MemoryIsNewest(path: string, limit: nat, file: Option<seq<Record>>, ops: seq<Operation>)
    ensures var loaded := if path != "" then Lines(file) else [];
            var s := Run(Loaded(Fresh(true, path, limit, file)), ops);
            s.limit == limit && Newest(s.records, loaded + Appended(ops), Held(limit, |loaded|, ops))
  {
    var start, loaded := Loaded(Fresh(true, path, limit, file)), if path != "" then Lines(file) else [];
    if ops == [] {
      assert loaded + Appended(ops) == loaded;
      LoadedIsNewest(loaded, limit);
    } else {
      var before := ops[..|ops| - 1];
      MemoryIsNewest(path, limit, file, before);
      FreshIsInStep(true, path, limit, file);
      RunKeepsInStep(start, before);
      RunKeepsSettings(start, before);
      OneMoreKeepsNewest(Run(start, before), loaded, ops);
    }
  }

  lemma LoadedIsNewest(lines: seq<Record>, limit: nat)
    ensures Newest(Recall(lines, limit), lines, Min(limit, |lines|))
  {
    var kept := lines[|lines| - Min(limit, |lines|)..];
    forall k | 0 <= k < |kept| ensures Reverse(kept)[k] == lines[|lines| - 1 - k] { ReverseAt(kept, k); }
  }

  // ----- listing

  predicate Matches(f: Filtering, r: Record) {
    && (Trim(f.action) == "" || r.action == Trim(f.action))
    && (Trim(f.targetType) == "" || r.targetType == Trim(f.targetType))
    && (Trim(f.target) == "" || r.target == Trim(f.target))
  }

  function Matching(f: Filtering): Record -> bool { (r: Record) => Matches(f, r) }

  // The newest records to keep, no more than a positive limit.
  function FirstOf(records: seq<Record>, keep: Record -> bool, limit: int): seq<Record> {
    var all := Filter(records, keep);
    if limit > 0 then all[..Min(limit, |all|)] else all
  }

  function Listed(f: Filtering, records: seq<Record>): seq<Record> {
    FirstOf(records, Matching(f), f.limit)
  }

  lemma {:induction false} FilterGrows(records: seq<Record>, i: nat, keep: Record -> bool)
    requires i <= |records|
    ensures Filter(records[..i], keep) <= Filter(records, keep)
  {
    if i < |records| {
      FilterGrows(records[..|records| - 1], i, keep);
      assert records[..|records| - 1][..i] == records[..i];
    } else {
      assert records[..i] == records;
    }
  }

  lemma {:induction false} FilterNext(records: seq<Record>, i: nat, keep: Record -> bool)
    requires i < |records|
    ensures Filter(records[..i + 1], keep)
            == if keep(records[i]) then Filter(records[..i], keep) + [records[i]] else Filter(records[..i], keep)
  {
    assert records[..i + 1][..i] == records[..i];
  }

  lemma {:induction false} EnoughCollected(records: seq<Record>, i: nat, keep: Record -> bool, limit: int)
    requires i <= |records| && limit == |Filter(records[..i], keep)| > 0
    ensures FirstOf(records, keep, limit) == Filter(records[..i], keep)
  {
    FilterGrows(records, i, keep);
  }

  // What a filter lets through: every field that it names, trimmed, must be equal.
  predicate Fits(f: Filtering, r: Record) {
    && Trim(f.action) in ["", r.action]
    && Trim(f.targetType) in ["", r.targetType]
    && Trim(f.target) in ["", r.target]
  }

  // The places of the kept records, in order.
  function Places(records: seq<Record>, keep: Record -> bool): (places: seq<nat>)
    ensures forall p :: p in places ==> p < |records|
  {
    if records == [] then []
    else
      var n := |records| - 1;
      Places(records[..n], keep) + if keep(records[n]) then [n] else []
  }

  lemma {:induction false} PlacesIncrease(records: seq<Record>, keep: Record -> bool, a: nat, b: nat)
    requires a < b < |Places(records, keep)|
    ensures Places(records, keep)[a] < Places(records, keep)[b]
  {
    var n := |records| - 1;
    var before := Places(records[..n], keep);
    if b < |before| {
      PlacesIncrease(records[..n], keep, a, b);
    } else {
      assert before[a] in before;
    }
  }

  lemma {:induction false} PlacesHold(records: seq<Record>, keep: Record -> bool, j: nat)
    requires j < |records|
    ensures j in Places(records, keep) <==> keep(records[j])
  {
    var n := |records| - 1;
    if j < n { PlacesHold(records[..n], keep, j); }
  }

  lemma {:induction false} PlacesFilter(records: seq<Record>, keep: Record -> bool, a: nat)
    ensures |Places(records, keep)| == |Filter(records, keep)|
    ensures a < |Places(records, keep)| ==>
              Places(records, keep)[a] < |records| && Filter(records, keep)[a] == records[Places(records, keep)[a]]
  {
    if records != [] {
      var n := |records| - 1;
      PlacesFilter(records[..n], keep, a);
    }
  }

  // The places of a list: those of the records that fit, all or the first so many.
  function ListedPlaces(f: Filtering, records: seq<Record>): seq<nat> {
    var all := Places(records, (r: Record) => Fits(f, r));
    if f.limit > 0 then all[..Min(f.limit, |all|)] else all
  }

  // Listing gives the records that fit, in order, all of them or, with a positive limit,
  // so many of the first.
  lemma ListIsExact(f: Filtering, records: seq<Record>, a: nat)
    ensures var places, out := ListedPlaces(f, records), Listed(f, records);
            |out| == |places| && (a < |out| ==> places[a] < |records| && out[a] == records[places[a]])
  {
    var fits: Record -> bool := r => Fits(f, r);
    SameFilter(records, Matching(f), fits);
    PlacesFilter(records, fits, a);
  }

  lemma {:induction false} SameFilter(records: seq<Record>, keep: Record -> bool, other: Record -> bool)
    requires forall r :: keep(r) <==> other(r)
    ensures Filter(records, keep) == Filter(records, other)
  {
    if records != [] { SameFilter(records[..|records| - 1], keep, other); }
  }

  // ----- the store object

  class AuditStore {
    const enabled: bool
    const path: string
    const limit: nat
    var records: seq<Record>
    var file: Option<seq<Record>>

    ghost function View(): Store
      reads this
    {
      Store(enabled, path, limit, records, file)
    }

    constructor (enabled: bool, path: string, limit: int, file: Option<seq<Record>>)
      ensures View() == Fresh(enabled, path, if limit <= 0 then 500 else limit, file)
    {
      this.enabled, this.path, this.limit := enabled, path, Limit(limit);
      this.file := file;
      records := [];
    }

    method Load()
      modifies this`records
      ensures View() == Loaded(old(View()))
    {
      if !enabled || path == "" || file.None? {
        return;
      }
      var lines := file.value;
      if |lines| > limit {
        lines := lines[|lines| - limit..];
      }
      assert lines == file.value[|file.value| - Min(limit, |file.value|)..];
      records := NewestFirst(lines);
    }

    // Reverses in place with two indexes.
    static method NewestFirst(lines: seq<Record>) returns (reversed: seq<Record>)
      ensures reversed == Reverse(lines)
    {
      var n := |lines|;
      var buffer := new Record[n](i requires 0 <= i < n => lines[i]);
      var left, right := 0, n - 1;
      while left < right
        invariant 0 <= left && left + right == n - 1 && left <= right + 1
        invariant Mirrored(buffer[..], lines, left)
      {
        ghost var before := buffer[..];
        MirroredFurther(before, lines, left, right);
        buffer[left], buffer[right] := buffer[right], buffer[left];
        assert buffer[..] == before[left := before[right]][right := before[left]];
        left, right := left + 1, right - 1;
      }
      reversed := buffer[..];
      MirroredIsReversed(reversed, lines, left);
    }

    static method OldestFirst(records: seq<Record>) returns (lines: seq<Record>)
      ensures lines == Reverse(records)
    {
      lines := [];
      var idx := |records| - 1;
      while idx >= 0
        invariant -1 <= idx < |records| && lines == Reverse(records[idx + 1..])
      {
        ReverseOldest(records[idx..]);
        assert records[idx..][1..] == records[idx + 1..];
        lines := lines + [records[idx]];
        idx := idx - 1;
      }
      assert records[0..] == records;
    }

    method Append(record: Record)
      modifies this
      ensures View() == Recorded(old(View()), record)
    {
      if !enabled {
        return;
      }
      if path != "" {
        file := Some((if file.Some? then file.value else []) + [record]);
      }
      records := [record] + records;
      if |records| > limit {
        records := records[..limit];
      }
    }

    method Prune(keep: int) returns (prunedCount: nat)
      modifies this
      ensures View() == Pruned(old(View()), keep)
      ensures prunedCount == |old(records)| - |records|
    {
      var effectiveKeep := if keep < 0 then 0 else keep;
      var beforeCount := |records|;
      if effectiveKeep > beforeCount {
        effectiveKeep := beforeCount;
      }
      if effectiveKeep < beforeCount {
        records := records[..effectiveKeep];
      }
      assert records == old(records)[..Min(Max(keep, 0), |old(records)|)];
      prunedCount := beforeCount - |records|;
      if enabled && path != "" {
        var lines := OldestFirst(records);
        file := Some(lines);
      }
    }

    method List(filter: Filtering) returns (out: seq<Record>)
      ensures out == Listed(filter, records)
    {
      out := Collect(records, Matching(filter), filter.limit);
    }

    static method Collect(records: seq<Record>, keep: Record -> bool, limit: int) returns (out: seq<Record>)
      ensures out == FirstOf(records, keep, limit)
    {
      out := [];
      for i := 0 to |records|
        invariant out == Filter(records[..i], keep)
        invariant limit > 0 ==> |out| < limit
      {
        FilterNext(records, i, keep);
        if !keep(records[i]) {
          continue;
        }
        out := out + [records[i]];
        if limit > 0 && |out| >= limit {
          EnoughCollected(records, i + 1, keep, limit);
          return;
        }
      }
      assert records[..|records|] == records;
    }
  }
}
