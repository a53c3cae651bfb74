// The dispatcher's runtime policy (service/base/services/policy.go and
// policyForLocked in service/base/services/dispatcher.go): updates, snapshots,
// and rolling back to a snapshot.
module Policy {
  import opened Ordering
  import opened Text

  datatype OperationPolicy = OperationPolicy(fallbackMode: string, maxAttempts: int, retryable: seq<string>)

  const NO_POLICY := OperationPolicy("", 0, [])

  datatype Store = Store(
    allowFallback: bool,
    maxAttempts: int,
    retryable: seq<string>,
    preferred: map<string, seq<string>>,
    policies: map<string, OperationPolicy>)
  {
    // What configuration loading, updates and rollbacks all keep.
    ghost predicate Valid() {
      && maxAttempts > 0 && CleanList(retryable)
      && (forall op :: op in preferred ==> op != "" && Trimmed(op) && CleanList(preferred[op]))
      && (forall op :: op in policies ==> op != "" && Trimmed(op) && CleanPolicy(policies[op]))
    }
  }

  ghost predicate CleanPolicy(p: OperationPolicy) {
    Normalize(p.fallbackMode) == p.fallbackMode && CleanList(p.retryable)
  }

  datatype Effective = Effective(allowFallback: bool, maxAttempts: int, retryable: seq<string>)

  function PolicyFor(s: Store, operation: string): Effective {
    if operation !in s.policies then Effective(s.allowFallback, s.maxAttempts, s.retryable)
    else
      var p := s.policies[operation];
      var allow := if p.fallbackMode == "enabled" then true
                   else if p.fallbackMode == "disabled" then false
                   else s.allowFallback;
      Effective(allow,
                if !allow then 1 else if p.maxAttempts > 0 then p.maxAttempts else s.maxAttempts,
                if p.retryable != [] then p.retryable else s.retryable)
  }

  function PreferencesFor(s: Store, operation: string): seq<string> {
    if operation in s.preferred then s.preferred[operation] else []
  }

  // ----- updates

  datatype GlobalPatch = GlobalPatch(allowFallback: Option<bool>, maxAttempts: Option<int>, retryable: Option<seq<string>>)

  datatype OperationUpdate = OperationUpdate(
    operation: string,
    preferred: Option<seq<string>>, resetPreferred: bool,
    fallbackMode: Option<string>, maxAttempts: Option<int>, retryable: Option<seq<string>>, resetPolicy: bool)

  datatype Update = Update(patch: Option<GlobalPatch>, operations: seq<OperationUpdate>)

  function PatchGlobal(s: Store, g: GlobalPatch): Store {
    Store(if g.allowFallback.Some? then g.allowFallback.value else s.allowFallback,
          if g.maxAttempts.Some? && g.maxAttempts.value > 0 then g.maxAttempts.value else s.maxAttempts,
          if g.retryable.Some? then NormalizedList(g.retryable.value) else s.retryable,
          s.preferred, s.policies)
  }

  function PatchPreferred(preferred: map<string, seq<string>>, op: string, u: OperationUpdate)
    : map<string, seq<string>>
  {
    var kept := if u.resetPreferred then preferred - {op} else preferred;
    if u.preferred.None? then kept
    else if NormalizedList(u.preferred.value) == [] then kept - {op}
    else kept[op := NormalizedList(u.preferred.value)]
  }

  function PatchPolicies(policies: map<string, OperationPolicy>, op: string, u: OperationUpdate)
    : map<string, OperationPolicy>
  {
    var kept := if u.resetPolicy then policies - {op} else policies;
    if u.fallbackMode.None? && u.maxAttempts.None? && u.retryable.None? then kept
    else
      var p := if op in kept then kept[op] else NO_POLICY;
      kept[op := OperationPolicy(
        if u.fallbackMode.Some? then Normalize(u.fallbackMode.value) else p.fallbackMode,
        if u.maxAttempts.Some? then u.maxAttempts.value else p.maxAttempts,
        if u.retryable.Some? then NormalizedList(u.retryable.value) else p.retryable)]
  }

  function UpdateOne(s: Store, u: OperationUpdate): Store {
    var op := Trim(u.operation);
    if op == "" then s
    else s.(preferred := PatchPreferred(s.preferred, op, u), policies := PatchPolicies(s.policies, op, u))
  }

  function UpdateAll(s: Store, updates: seq<OperationUpdate>): Store {
    if updates == [] then s
    else UpdateOne(UpdateAll(s, updates[..|updates| - 1]), updates[|updates| - 1])
  }

  function Updated(s: Store, u: Update): Store {
    UpdateAll(if u.patch.Some? then PatchGlobal(s, u.patch.value) else s, u.operations)
  }

  lemma UpdateOneKeepsValid(s: Store, u: OperationUpdate)
    requires s.Valid()
    ensures UpdateOne(s, u).Valid()
  {
    TrimIsTrimmed(u.operation);
    if u.preferred.Some? { NormalizedListIsClean(u.preferred.value); }
    if u.retryable.Some? { NormalizedListIsClean(u.retryable.value); }
    if u.fallbackMode.Some? { NormalizeIsIdempotent(u.fallbackMode.value); }
    assert Normalize("") == "";
  }

  lemma {:induction false} UpdatesKeepValid(s: Store, updates: seq<OperationUpdate>)
    requires s.Valid()
    ensures UpdateAll(s, updates).Valid()
  {
    if updates != [] {
      UpdatesKeepValid(s, updates[..|updates| - 1]);
      UpdateOneKeepsValid(UpdateAll(s, updates[..|updates| - 1]), updates[|updates| - 1]);
    }
  }

  // Updates keep every list de-duplicated and every name trimmed.
  lemma UpdateKeepsValid(s: Store, u: Update)
    requires s.Valid()
    ensures Updated(s, u).Valid()
  {
    if u.patch.Some? && u.patch.value.retryable.Some? { NormalizedListIsClean(u.patch.value.retryable.value); }
    UpdatesKeepValid(if u.patch.Some? then PatchGlobal(s, u.patch.value) else s, u.operations);
  }

  lemma UpdateOfOneMore(s: Store, updates: seq<OperationUpdate>, u: OperationUpdate)
    ensures UpdateAll(s, updates + [u]) == UpdateOne(UpdateAll(s, updates), u)
  {
    assert (updates + [u])[..|updates|] == updates;
  }

  // The last entry of an update decides on its operation, field by field: what it gives
  // is stored trimmed and de-duplicated, what it resets is gone, and what it leaves
  // out, like every other operation, stays as the earlier entries left it.
  lemma LastEntryDecides(s: Store, updates: seq<OperationUpdate>, u: OperationUpdate)
    ensures var before, after, op := UpdateAll(s, updates), UpdateAll(s, updates + [u]), Trim(u.operation);
            && (op == "" ==> after == before)
            && (op != "" ==>
                  && PreferencesFor(after, op)
                     == (if u.preferred.Some? then NormalizedList(u.preferred.value)
                         else if u.resetPreferred then [] else PreferencesFor(before, op))
                  && Decided(u, if op in before.policies && !u.resetPolicy then Some(before.policies[op]) else None,
                             if op in after.policies then Some(after.policies[op]) else None))
            && (forall other :: other != op ==>
                  && PreferencesFor(after, other) == PreferencesFor(before, other)
                  && (other in after.policies <==> other in before.policies)
                  && (other in before.policies ==> after.policies[other] == before.policies[other]))
  {
    UpdateOfOneMore(s, updates, u);
  }

  // The policy after an entry, from the one that it did not reset.
  ghost predicate Decided(u: OperationUpdate, kept: Option<OperationPolicy>, after: Option<OperationPolicy>) {
    if u.fallbackMode.None? && u.maxAttempts.None? && u.retryable.None? then after == kept
    else
      && after.Some?
      && after.value.fallbackMode
         == (if u.fallbackMode.Some? then Normalize(u.fallbackMode.value) else if kept.Some? then kept.value.fallbackMode else "")
      && after.value.maxAttempts
         == (if u.maxAttempts.Some? then u.maxAttempts.value else if kept.Some? then kept.value.maxAttempts else 0)
      && after.value.retryable
         == (if u.retryable.Some? then NormalizedList(u.retryable.value) else if kept.Some? then kept.value.retryable else [])
  }

  lemma {:induction false} EntriesKeepGlobals(s: Store, updates: seq<OperationUpdate>)
    ensures var t := UpdateAll(s, updates);
            t.allowFallback == s.allowFallback && t.maxAttempts == s.maxAttempts && t.retryable == s.retryable
  {
    if updates != [] { EntriesKeepGlobals(s, updates[..|updates| - 1]); }
  }

  // The global part decides on the global settings alone; a budget that is not positive
  // is ignored.
  lemma GlobalPartDecides(s: Store, u: Update)
    ensures var t, g := Updated(s, u), if u.patch.Some? then u.patch.value else GlobalPatch(None, None, None);
            && t.allowFallback == (if g.allowFallback.Some? then g.allowFallback.value else s.allowFallback)
            && t.maxAttempts == (if g.maxAttempts.Some? && g.maxAttempts.value > 0 then g.maxAttempts.value else s.maxAttempts)
            && t.retryable == (if g.retryable.Some? then NormalizedList(g.retryable.value) else s.retryable)
            && (u.operations == [] ==> t.preferred == s.preferred && t.policies == s.policies)
  {
    EntriesKeepGlobals(if u.patch.Some? then PatchGlobal(s, u.patch.value) else s, u.operations);
  }

  // ----- snapshots

  datatype OperationState = OperationState(preferred: seq<string>, policy: OperationPolicy)

  // A nil list of retryable categories is None.
  datatype Snapshot = Snapshot(
    allowFallback: bool, maxAttempts: int, retryable: Option<seq<string>>,
    operations: map<string, OperationState>)

  function TakeSnapshot(s: Store): Snapshot {
    Snapshot(s.allowFallback, s.maxAttempts,
             if s.retryable == [] then None else Some(s.retryable),
             map op | op in s.preferred.Keys + s.policies.Keys ::
               OperationState(PreferencesFor(s, op), if op in s.policies then s.policies[op] else NO_POLICY))
  }

  function CleanedPolicy(p: OperationPolicy): OperationPolicy {
    OperationPolicy(Normalize(p.fallbackMode), p.maxAttempts, NormalizedList(p.retryable))
  }

  // An entry that says nothing; applying a snapshot drops such entries.
  predicate Blank(p: OperationPolicy) {
    p.fallbackMode == "" && p.maxAttempts <= 0 && p.retryable == []
  }

  // `after` is a store that applying the snapshot to `before` may produce: where
  // two names agree once trimmed, the source's map iteration picks either.
  ghost predicate Applied(before: Store, snap: Snapshot, after: Store) {
    && after.allowFallback == snap.allowFallback
    && after.maxAttempts == (if snap.maxAttempts > 0 then snap.maxAttempts else before.maxAttempts)
    && after.retryable == (if snap.retryable.Some? then NormalizedList(snap.retryable.value) else before.retryable)
    && PreferencesCome(snap.operations, snap.operations.Keys, after.preferred)
    && PoliciesCome(snap.operations, snap.operations.Keys, after.policies)
  }

  ghost predicate NamedIn(operations: map<string, OperationState>, names: set<string>, key: string, op: string) {
    key in names && key in operations && Trim(key) == op && op != ""
  }

  // The stored preferences of `op` come from the snapshot entry `key`.
  ghost predicate PreferencesFrom(operations: map<string, OperationState>, names: set<string>, key: string, op: string,
                                  stored: seq<string>)
  {
    NamedIn(operations, names, key, op) && operations[key].preferred != []
    && stored == NormalizedList(operations[key].preferred)
  }

  ghost predicate PolicyFrom(operations: map<string, OperationState>, names: set<string>, key: string, op: string,
                             stored: OperationPolicy)
  {
    NamedIn(operations, names, key, op) && !Blank(CleanedPolicy(operations[key].policy))
    && stored == CleanedPolicy(operations[key].policy)
  }

  ghost predicate PreferencesCome(operations: map<string, OperationState>, names: set<string>,
                                  preferred: map<string, seq<string>>)
  {
    && (forall op :: op in preferred ==> exists key :: PreferencesFrom(operations, names, key, op, preferred[op]))
    && (forall key, op :: NamedIn(operations, names, key, op) && operations[key].preferred != [] ==> op in preferred)
  }

  ghost predicate PoliciesCome(operations: map<string, OperationState>, names: set<string>,
                               policies: map<string, OperationPolicy>)
  {
    && (forall op :: op in policies ==> exists key :: PolicyFrom(operations, names, key, op, policies[op]))
    && (forall key, op :: NamedIn(operations, names, key, op) && !Blank(CleanedPolicy(operations[key].policy)) ==>
          op in policies)
  }

  // ----- rolling back

  lemma CleanPolicyStays(p: OperationPolicy)
    requires CleanPolicy(p)
    ensures CleanedPolicy(p) == p
  {
    CleanListStays(p.retryable);
  }

  // Applying a snapshot of a valid store: its preferences are back, and its
  // operation policies except the blank ones.
  lemma RollbackRestoresTables(origin: Store, before: Store, after: Store)
    requires origin.Valid() && Applied(before, TakeSnapshot(origin), after)
    ensures forall op :: PreferencesFor(after, op) == PreferencesFor(origin, op)
    ensures forall op :: op in after.policies <==> op in origin.policies && !Blank(origin.policies[op])
    ensures forall op :: op in after.policies ==> after.policies[op] == origin.policies[op]
  {
    var snap := TakeSnapshot(origin);
    var names := snap.operations.Keys;
    assert Blank(CleanedPolicy(NO_POLICY)) by { assert Normalize("") == "" && NormalizedList([]) == []; }
    forall op ensures PreferencesFor(after, op) == PreferencesFor(origin, op) {
      if op in names {
        TrimmedStays(op);
        assert NamedIn(snap.operations, names, op, op);
        CleanListStays(snap.operations[op].preferred);
      }
      if op in after.preferred { NameIsOwn(origin, op); }
    }
    forall op
      ensures op in after.policies <==> op in origin.policies && !Blank(origin.policies[op])
      ensures op in after.policies ==> after.policies[op] == origin.policies[op]
    {
      if op in origin.policies {
        TrimmedStays(op);
        assert NamedIn(snap.operations, names, op, op);
        CleanPolicyStays(origin.policies[op]);
      }
      if op in after.policies { NameIsOwn(origin, op); }
    }
  }

  // Names in the snapshot of a valid store are trimmed, so each stands for itself.
  lemma NameIsOwn(origin: Store, op: string)
    requires origin.Valid()
    ensures var snap := TakeSnapshot(origin);
            forall key :: NamedIn(snap.operations, snap.operations.Keys, key, op) ==> key == op
  {
    var snap := TakeSnapshot(origin);
    forall key | NamedIn(snap.operations, snap.operations.Keys, key, op) ensures key == op { TrimmedStays(key); }
  }

  // Two policies that agree in all that the dispatcher may look at.  That is enough
  // for it to attempt and retry alike, but more than it needs: with a budget of
  // one the categories do not matter.
  predicate SameRouting(p: Effective, q: Effective) {
    p.allowFallback == q.allowFallback
    && (p.allowFallback ==> p.maxAttempts == q.maxAttempts && p.retryable == q.retryable)
  }

  // The operation takes its retryable categories from the global list.
  predicate UsesGlobalCategories(s: Store, op: string) {
    op !in s.policies || s.policies[op].retryable == []
  }

  // Rolling back restores the preferences of every operation, and its policy iff
  // that does not hang on a global list that was empty when the snapshot was taken
  // and no longer is: an empty list is snapshot as nil and nil applies as "leave
  // unchanged".
  lemma RollbackRestoresRouting(origin: Store, before: Store, after: Store, op: string)
    requires origin.Valid() && before.Valid() && Applied(before, TakeSnapshot(origin), after)
    ensures PreferencesFor(after, op) == PreferencesFor(origin, op)
    ensures SameRouting(PolicyFor(after, op), PolicyFor(origin, op)) <==>
            !(origin.retryable == [] && before.retryable != []
              && PolicyFor(origin, op).allowFallback && UsesGlobalCategories(origin, op))
  {
    RollbackRestoresTables(origin, before, after);
    CleanListStays(origin.retryable);
  }

  // What is different when it does: only the categories, which stay the later ones.
  lemma CategoriesStayLater(origin: Store, before: Store, after: Store, op: string)
    requires origin.Valid() && before.Valid() && Applied(before, TakeSnapshot(origin), after)
    requires origin.retryable == [] && UsesGlobalCategories(origin, op) && PolicyFor(origin, op).allowFallback
    ensures var a, b := PolicyFor(after, op), PolicyFor(origin, op);
            && a.allowFallback && a.maxAttempts == b.maxAttempts
            && a.retryable == before.retryable && b.retryable == [] && "" !in a.retryable
  {
    RollbackRestoresTables(origin, before, after);
  }

  // A list that was set after the snapshot of an empty one stays.
  lemma EmptyListIsKept(category: string)
    requires CleanList([category])
    ensures var origin, before := Store(true, 2, [], map[], map[]), Store(true, 2, [category], map[], map[]);
            && before == Updated(origin, Update(Some(GlobalPatch(None, None, Some([category]))), []))
            && Applied(before, TakeSnapshot(origin), before)
  {
    CleanListStays([category]);
    assert TakeSnapshot(Store(true, 2, [], map[], map[])) == Snapshot(true, 2, None, map[]);
  }

  // Rolling back over any updates to a snapshot whose global list is not empty
  // restores routing for every operation.
  lemma RollbackUndoesUpdates(origin: Store, updates: seq<Update>, after: Store)
    requires origin.Valid() && origin.retryable != []
    requires Applied(AfterUpdates(origin, updates), TakeSnapshot(origin), after)
    ensures forall op :: PreferencesFor(after, op) == PreferencesFor(origin, op)
                         && SameRouting(PolicyFor(after, op), PolicyFor(origin, op))
  {
    AfterUpdatesIsValid(origin, updates);
    forall op
      ensures PreferencesFor(after, op) == PreferencesFor(origin, op)
              && SameRouting(PolicyFor(after, op), PolicyFor(origin, op))
    {
      RollbackRestoresRouting(origin, AfterUpdates(origin, updates), after, op);
    }
  }

  function AfterUpdates(s: Store, updates: seq<Update>): Store {
    if updates == [] then s else Updated(AfterUpdates(s, updates[..|updates| - 1]), updates[|updates| - 1])
  }

  lemma {:induction false} AfterUpdatesIsValid(s: Store, updates: seq<Update>)
    requires s.Valid()
    ensures AfterUpdates(s, updates).Valid()
  {
    if updates != [] {
      AfterUpdatesIsValid(s, updates[..|updates| - 1]);
      UpdateKeepsValid(AfterUpdates(s, updates[..|updates| - 1]), updates[|updates| - 1]);
    }
  }

  // The reported attempt budget, unlike routing, can change over a rollback: a
  // blank entry of an operation without fallback pins it to one, and is dropped.
  lemma RollbackReportsBudget(origin: Store, before: Store, after: Store, op: string)
    requires origin.Valid() && Applied(before, TakeSnapshot(origin), after)
    ensures PolicyFor(after, op).maxAttempts == PolicyFor(origin, op).maxAttempts <==>
            !(op in origin.policies && Blank(origin.policies[op]) && !origin.allowFallback && origin.maxAttempts != 1)
  {
    RollbackRestoresTables(origin, before, after);
  }

  // Such an entry: an update that sets only a blank fallback mode stores it.
  lemma BlankEntryChangesBudget()
    ensures var origin := Store(false, 2, ["t"], map[], map["op" := NO_POLICY]);
            var after := Store(false, 2, ["t"], map[], map[]);
            && origin.Valid() && Applied(origin, TakeSnapshot(origin), after)
            && PolicyFor(origin, "op").maxAttempts == 1 && PolicyFor(after, "op").maxAttempts == 2
  {
    var origin := Store(false, 2, ["t"], map[], map["op" := NO_POLICY]);
    var snap := TakeSnapshot(origin);
    assert CleanList(["t"]) && CleanList([]) && Trimmed("op") && Normalize("") == "";
    CleanListStays(["t"]);
    CleanPolicyStays(NO_POLICY);
    assert forall key :: key in snap.operations ==> key == "op";
  }

  // ----- the policy fields of the dispatcher

  class PolicyStore {
    var allowFallback: bool
    var maxAttempts: int
    var retryable: seq<string>
    var preferred: map<string, seq<string>>
    var policies: map<string, OperationPolicy>

    ghost function View(): Store
      reads this
    {
      Store(allowFallback, maxAttempts, retryable, preferred, policies)
    }

    constructor (s: Store)
      ensures View() == s
    {
      allowFallback, maxAttempts, retryable := s.allowFallback, s.maxAttempts, s.retryable;
      preferred, policies := s.preferred, s.policies;
    }

    method UpdatePolicies(u: Update)
      modifies this
      ensures View() == Updated(old(View()), u)
      ensures old(View()).Valid() ==> View().Valid()
    {
      if old(View()).Valid() { UpdateKeepsValid(old(View()), u); }
      if u.patch.Some? {
        var g := u.patch.value;
        if g.allowFallback.Some? {
          allowFallback := g.allowFallback.value;
        }
        if g.maxAttempts.Some? && g.maxAttempts.value > 0 {
          maxAttempts := g.maxAttempts.value;
        }
        if g.retryable.Some? {
          retryable := NormalizeStringList(g.retryable.value);
        }
      }
      ghost var patched := View();
      for i := 0 to |u.operations|
        invariant View() == UpdateAll(patched, u.operations[..i])
      {
        assert u.operations[..i + 1][..i] == u.operations[..i];
        UpdateOperation(u.operations[i]);
      }
      assert u.operations[..|u.operations|] == u.operations;
    }

    method UpdateOperation(u: OperationUpdate)
      modifies this
      ensures View() == UpdateOne(old(View()), u)
    {
      var operation := Trim(u.operation);
      if operation == "" {
        return;
      }
      if u.resetPreferred {
        preferred := preferred - {operation};
      }
      if u.preferred.Some? {
        var normalized := NormalizeStringList(u.preferred.value);
        if |normalized| == 0 {
          preferred := preferred - {operation};
        } else {
          preferred := preferred[operation := normalized];
        }
      }
      if u.resetPolicy {
        policies := policies - {operation};
      }
      if u.fallbackMode.Some? || u.maxAttempts.Some? || u.retryable.Some? {
        var policy := if operation in policies then policies[operation] else NO_POLICY;
        if u.fallbackMode.Some? {
          policy := policy.(fallbackMode := Normalize(u.fallbackMode.value));
        }
        if u.maxAttempts.Some? {
          policy := policy.(maxAttempts := u.maxAttempts.value);
        }
        if u.retryable.Some? {
          var categories := NormalizeStringList(u.retryable.value);
          policy := policy.(retryable := categories);
        }
        policies := policies[operation := policy];
      }
    }

    method ApplyState(state: Snapshot)
      modifies this
      ensures Applied(old(View()), state, View())
    {
      allowFallback := state.allowFallback;
      if state.maxAttempts > 0 {
        maxAttempts := state.maxAttempts;
      }
      if state.retryable.Some? {
        retryable := NormalizeStringList(state.retryable.value);
      }
      ghost var scalars := View();
      var newPreferred: map<string, seq<string>> := map[];
      var newPolicies: map<string, OperationPolicy> := map[];
      var todo := state.operations.Keys;
      while todo != {}
        invariant todo <= state.operations.Keys && View() == scalars
        invariant PreferencesCome(state.operations, state.operations.Keys - todo, newPreferred)
        invariant PoliciesCome(state.operations, state.operations.Keys - todo, newPolicies)
        decreases todo
      {
        var operation :| operation in todo;
        var item := state.operations[operation];
        var normalized := Trim(operation);
        var services := NormalizeStringList(item.preferred);
        var categories := NormalizeStringList(item.policy.retryable);
        var policy := OperationPolicy(Normalize(item.policy.fallbackMode), item.policy.maxAttempts, categories);
        PreferencesGrow(state.operations, state.operations.Keys - todo, newPreferred, operation);
        PoliciesGrow(state.operations, state.operations.Keys - todo, newPolicies, operation);
        assert state.operations.Keys - (todo - {operation}) == state.operations.Keys - todo + {operation};
        todo := todo - {operation};
        if normalized == "" {
          continue;
        }
        if item.preferred != [] {
          newPreferred := newPreferred[normalized := services];
        }
        if policy.fallbackMode != "" || policy.maxAttempts > 0 || |policy.retryable| > 0 {
          newPolicies := newPolicies[normalized := policy];
        }
      }
      assert state.operations.Keys - {} == state.operations.Keys;
      preferred, policies := newPreferred, newPolicies;
    }
  }

  function WithPreferences(preferred: map<string, seq<string>>, key: string, item: OperationState)
    : map<string, seq<string>>
  {
    if Trim(key) == "" || item.preferred == [] then preferred
    else preferred[Trim(key) := NormalizedList(item.preferred)]
  }

  function WithPolicy(policies: map<string, OperationPolicy>, key: string, item: OperationState)
    : map<string, OperationPolicy>
  {
    if Trim(key) == "" || Blank(CleanedPolicy(item.policy)) then policies
    else policies[Trim(key) := CleanedPolicy(item.policy)]
  }

  lemma PreferencesStay(operations: map<string, OperationState>, names: set<string>, key: string, op: string,
                        stored: seq<string>)
    requires exists k :: PreferencesFrom(operations, names, k, op, stored)
    ensures exists k :: PreferencesFrom(operations, names + {key}, k, op, stored)
  {
    var k :| PreferencesFrom(operations, names, k, op, stored);
    assert PreferencesFrom(operations, names + {key}, k, op, stored);
  }

  lemma PolicyStays(operations: map<string, OperationState>, names: set<string>, key: string, op: string,
                    stored: OperationPolicy)
    requires exists k :: PolicyFrom(operations, names, k, op, stored)
    ensures exists k :: PolicyFrom(operations, names + {key}, k, op, stored)
  {
    var k :| PolicyFrom(operations, names, k, op, stored);
    assert PolicyFrom(operations, names + {key}, k, op, stored);
  }

  lemma PreferencesCameFrom(operations: map<string, OperationState>, names: set<string>,
                            preferred: map<string, seq<string>>, key: string, op: string)
    requires key in operations && op in WithPreferences(preferred, key, operations[key])
    requires op in preferred ==> exists k :: PreferencesFrom(operations, names, k, op, preferred[op])
    ensures exists k ::
              PreferencesFrom(operations, names + {key}, k, op, WithPreferences(preferred, key, operations[key])[op])
  {
    var after := WithPreferences(preferred, key, operations[key]);
    if op == Trim(key) && op != "" && operations[key].preferred != [] {
      assert PreferencesFrom(operations, names + {key}, key, op, after[op]);
    } else {
      PreferencesStay(operations, names, key, op, preferred[op]);
    }
  }

  lemma PreferencesGrow(operations: map<string, OperationState>, names: set<string>,
                        preferred: map<string, seq<string>>, key: string)
    requires PreferencesCome(operations, names, preferred) && key in operations
    ensures PreferencesCome(operations, names + {key}, WithPreferences(preferred, key, operations[key]))
  {
    var after := WithPreferences(preferred, key, operations[key]);
    forall op | op in after ensures exists k :: PreferencesFrom(operations, names + {key}, k, op, after[op]) {
      PreferencesCameFrom(operations, names, preferred, key, op);
    }
    forall k, op | NamedIn(operations, names + {key}, k, op) && operations[k].preferred != [] ensures op in after {
      if k != key { assert NamedIn(operations, names, k, op); }
    }
  }

  lemma PoliciesGrow(operations: map<string, OperationState>, names: set<string>,
                     policies: map<string, OperationPolicy>, key: string)
    requires PoliciesCome(operations, names, policies) && key in operations
    ensures PoliciesCome(operations, names + {key}, WithPolicy(policies, key, operations[key]))
  {
    var after := WithPolicy(policies, key, operations[key]);
    forall op | op in after ensures exists k :: PolicyFrom(operations, names + {key}, k, op, after[op]) {
      PolicyComes(operations, names, policies, key, op);
    }
    forall k, op | NamedIn(operations, names + {key}, k, op) && !Blank(CleanedPolicy(operations[k].policy))
      ensures op in after
    {
      if k != key { assert NamedIn(operations, names, k, op); }
    }
  }

  lemma PolicyComes(operations: map<string, OperationState>, names: set<string>,
                    policies: map<string, OperationPolicy>, key: string, op: string)
    requires key in operations && op in WithPolicy(policies, key, operations[key])
    requires op in policies ==> exists k :: PolicyFrom(operations, names, k, op, policies[op])
    ensures exists k :: PolicyFrom(operations, names + {key}, k, op, WithPolicy(policies, key, operations[key])[op])
  {
    var after := WithPolicy(policies, key, operations[key]);
    if op == Trim(key) && op != "" && !Blank(CleanedPolicy(operations[key].policy)) {
      assert PolicyFrom(operations, names + {key}, key, op, after[op]);
    } else {
      PolicyStays(operations, names, key, op, policies[op]);
    }
  }
}
