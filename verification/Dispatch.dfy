// Request dispatch (service/base/services/dispatcher.go): resolving a route,
// trying its services under the operation's policy, and keeping statistics and
// cooling up to date.  The transport is an oracle from services to results.
module Dispatch {
  import opened Ordering
  import opened Text
  import opened ServiceRegistry
  import opened Routing
  import Selector
  import Cooling
  import Stats
  import Policy

  datatype CallResult = Answered | Failed(category: string)

  const DELEGATION_ERROR := "delegation_error"
  const TRANSPORT_ERROR := "transport_error"
  const TIMEOUT_ERROR := "timeout_error"

  predicate CountsTowardCooling(category: string) {
    category == DELEGATION_ERROR || category == TRANSPORT_ERROR || category == TIMEOUT_ERROR
  }

  // An error that names no category is a delegation error.
  function CategoryOf(result: CallResult): string
    requires result.Failed?
  {
    if result.category == "" then DELEGATION_ERROR else result.category
  }

  // ----- the attempt order and the retry test

  // The selected service, then the fallbacks, without blanks and repetitions.
  function Chain(selected: string, fallbacks: seq<string>): (chain: seq<string>)
    ensures NoDuplicates(chain) && "" !in chain
    ensures forall s :: s in chain ==> s == selected || s in fallbacks
  {
    if fallbacks == [] then (if selected == "" then [] else [selected])
    else
      var before, last := Chain(selected, fallbacks[..|fallbacks| - 1]), fallbacks[|fallbacks| - 1];
      if last == "" || last in before then before else before + [last]
  }

  function AttemptOrder(p: Preview, policy: Policy.Effective): seq<string> {
    var chain := Chain(p.selected, p.chain);
    if p.mode.Specified? || !policy.allowFallback then (if |chain| > 1 then chain[..1] else chain)
    else if policy.maxAttempts > 0 && |chain| > policy.maxAttempts then chain[..policy.maxAttempts]
    else chain
  }

  method AttemptServices(p: Preview, policy: Policy.Effective) returns (chain: seq<string>)
    ensures chain == AttemptOrder(p, policy)
  {
    chain := [];
    var seen: set<string> := {};
    if p.selected != "" {
      chain, seen := [p.selected], {p.selected};
    }
    for i := 0 to |p.chain|
      invariant chain == Chain(p.selected, p.chain[..i]) && seen == set s | s in chain
    {
      assert p.chain[..i + 1][..i] == p.chain[..i];
      var service := p.chain[i];
      if service == "" || service in seen {
        continue;
      }
      chain, seen := chain + [service], seen + {service};
    }
    assert p.chain[..|p.chain|] == p.chain;
    if p.mode.Specified? || !policy.allowFallback {
      if |chain| > 1 {
        chain := chain[..1];
      }
    } else if policy.maxAttempts > 0 && |chain| > policy.maxAttempts {
      chain := chain[..policy.maxAttempts];
    }
  }

  predicate ShouldRetry(p: Preview, policy: Policy.Effective, attemptIndex: nat, retryable: bool) {
    p.mode.Strategy? && policy.allowFallback && retryable
    && !(policy.maxAttempts > 0 && attemptIndex + 1 >= policy.maxAttempts)
    && attemptIndex + 1 < |p.chain|
  }

  // A failure is retryable when it is recorded under a listed category.
  predicate Retryable(recording: bool, result: CallResult, policy: Policy.Effective) {
    result.Failed? && recording && CategoryOf(result) in policy.retryable
  }

  lemma {:induction false} ChainLength(selected: string, fallbacks: seq<string>)
    requires NoDuplicates(fallbacks)
    ensures |Chain(selected, fallbacks)|
            == |fallbacks| + (if selected == "" || selected in fallbacks then 0 else 1) - (if "" in fallbacks then 1 else 0)
    ensures forall s :: s in Chain(selected, fallbacks) <==> s != "" && (s == selected || s in fallbacks)
  {
    if fallbacks != [] {
      var before, last := fallbacks[..|fallbacks| - 1], fallbacks[|fallbacks| - 1];
      assert fallbacks == before + [last];
      ChainLength(selected, before);
      assert last !in before;
    }
  }

  // No service is ever tried twice, whatever the preview looks like.
  lemma AttemptsAreDistinct(p: Preview, policy: Policy.Effective)
    ensures NoDuplicates(AttemptOrder(p, policy)) && "" !in AttemptOrder(p, policy)
  {
  }

  // What every route that was resolved provides.
  ghost predicate Routed(p: Preview) {
    NoDuplicates(p.chain) && p.selected in p.chain && (p.mode.Specified? ==> |p.chain| == 1)
  }

  // A retry the test still grants when the attempt order is at its end: the chain
  // holds a blank name, which the order leaves out and the test counts.
  predicate BeyondOrder(p: Preview, policy: Policy.Effective, attemptIndex: nat) {
    "" in p.chain && attemptIndex + 2 == |p.chain| && policy.allowFallback
    && !(policy.maxAttempts > 0 && attemptIndex + 1 >= policy.maxAttempts)
  }

  // The attempt budget is computed twice, as the length of the attempt order and
  // in the retry test.  On resolved routes they agree, a retryable failure being
  // retried iff the attempt order goes on and the mode is the strategy mode, except
  // when a blank name in the chain makes the test count one attempt too many.  Any
  // other mode name never retries.
  lemma BudgetsAgree(p: Preview, policy: Policy.Effective, attemptIndex: nat, retryable: bool)
    requires Routed(p)
    ensures (ShouldRetry(p, policy, attemptIndex, retryable) <==>
             p.mode.Strategy? && retryable && attemptIndex + 1 < |AttemptOrder(p, policy)|)
            <==> !(p.mode.Strategy? && retryable && BeyondOrder(p, policy, attemptIndex))
  {
    ChainLength(p.selected, p.chain);
  }

  lemma BlankNameIsCounted()
    ensures var p := Preview(Strategy, "a", NoReason, ["a", ""], [], None);
            var policy := Policy.Effective(true, 0, []);
            && Routed(p) && AttemptOrder(p, policy) == ["a"] && ShouldRetry(p, policy, 0, true)
  {
    assert ["a", ""][..1] == ["a"] && ["a"][..0] == [];
  }

  // No preview, failure or attempt tells the two policies apart.
  ghost predicate SameDecisions(a: Policy.Effective, b: Policy.Effective) {
    && (forall p :: AttemptOrder(p, a) == AttemptOrder(p, b))
    && (forall p, recording, result, i: nat ::
          ShouldRetry(p, a, i, Retryable(recording, result, a)) == ShouldRetry(p, b, i, Retryable(recording, result, b)))
  }

  // Policies that agree in all that may be looked at attempt and retry alike.
  lemma SameRoutingSameDecisions(a: Policy.Effective, b: Policy.Effective)
    requires Policy.SameRouting(a, b)
    ensures SameDecisions(a, b)
  {
  }

  // With a budget of one nothing is retried, so the categories are never asked for.
  lemma BudgetOfOneNeverRetries(a: Policy.Effective, b: Policy.Effective)
    requires a.allowFallback == b.allowFallback && a.maxAttempts == b.maxAttempts == 1
    ensures SameDecisions(a, b)
  {
  }

  const TWO_SERVICES := Preview(Strategy, "a", NoReason, ["a", "b"], [], None)

  // With room for a second attempt a category that only one of them lists shows.
  lemma CategoryTellsApart(a: Policy.Effective, b: Policy.Effective, category: string)
    requires a.allowFallback && a.maxAttempts != 1 && category != ""
    requires category in a.retryable && category !in b.retryable
    ensures !SameDecisions(a, b) && !SameDecisions(b, a)
  {
    var failure := Failed(category);
    assert ShouldRetry(TWO_SERVICES, a, 0, Retryable(true, failure, a));
    assert !ShouldRetry(TWO_SERVICES, b, 0, Retryable(true, failure, b));
  }

  // A rollback restores the attempts and retries of an operation iff they do not
  // hang on a global list that was empty when the snapshot was taken and no longer
  // is.  They hang on it when fallback is allowed, the budget leaves room for a
  // retry, and the operation has no list of its own.
  lemma RollbackIsExact(origin: Policy.Store, before: Policy.Store, after: Policy.Store, op: string)
    requires origin.Valid() && before.Valid() && Policy.Applied(before, Policy.TakeSnapshot(origin), after)
    ensures Policy.PreferencesFor(after, op) == Policy.PreferencesFor(origin, op)
    ensures SameDecisions(Policy.PolicyFor(after, op), Policy.PolicyFor(origin, op)) <==>
            !(origin.retryable == [] && before.retryable != []
              && Policy.PolicyFor(origin, op).allowFallback && Policy.PolicyFor(origin, op).maxAttempts != 1
              && Policy.UsesGlobalCategories(origin, op))
  {
    var a, b := Policy.PolicyFor(after, op), Policy.PolicyFor(origin, op);
    Policy.RollbackRestoresRouting(origin, before, after, op);
    if Policy.SameRouting(a, b) {
      SameRoutingSameDecisions(a, b);
    } else {
      Policy.CategoriesStayLater(origin, before, after, op);
      if b.maxAttempts == 1 {
        BudgetOfOneNeverRetries(a, b);
      } else {
        CategoryTellsApart(a, b, before.retryable[0]);
      }
    }
  }

  // One such rollback: a retryable category set after the snapshot outlives it.
  lemma EmptyListIsNotRestored()
    ensures var origin := Policy.Store(true, 2, [], map[], map[]);
            var before := Policy.Store(true, 2, ["t"], map[], map[]);
            && origin.Valid() && before.Valid()
            && before == Policy.Updated(origin, Policy.Update(Some(Policy.GlobalPatch(None, None, Some(["t"]))), []))
            && Policy.Applied(before, Policy.TakeSnapshot(origin), before)
            && !SameDecisions(Policy.PolicyFor(before, "op"), Policy.PolicyFor(origin, "op"))
  {
    var origin, before := Policy.Store(true, 2, [], map[], map[]), Policy.Store(true, 2, ["t"], map[], map[]);
    assert CleanList(["t"]) && CleanList([]);
    Policy.EmptyListIsKept("t");
    CategoryTellsApart(Policy.PolicyFor(before, "op"), Policy.PolicyFor(origin, "op"), "t");
  }

  // After any updates a rollback to a snapshot with a non-empty global list gives
  // back the preferences, attempts and retries of every operation.
  lemma RollbackRestoresDispatch(origin: Policy.Store, updates: seq<Policy.Update>, after: Policy.Store)
    requires origin.Valid() && origin.retryable != []
    requires Policy.Applied(Policy.AfterUpdates(origin, updates), Policy.TakeSnapshot(origin), after)
    ensures forall op :: Policy.PreferencesFor(after, op) == Policy.PreferencesFor(origin, op)
                         && SameDecisions(Policy.PolicyFor(after, op), Policy.PolicyFor(origin, op))
  {
    Policy.RollbackUndoesUpdates(origin, updates, after);
    forall op ensures SameDecisions(Policy.PolicyFor(after, op), Policy.PolicyFor(origin, op)) {
      SameRoutingSameDecisions(Policy.PolicyFor(after, op), Policy.PolicyFor(origin, op));
    }
  }

  // ----- which services get called

  // The oracle: what calling the service at its turn returns.
  type Transport = string -> CallResult

  // Calling stops at the first answer or failure that is not retryable.
  predicate Stops(transport: Transport, recording: bool, policy: Policy.Effective, service: string) {
    !Retryable(recording, transport(service), policy)
  }

  // `called` is the shortest prefix of `order` that ends in a stop or in the end.
  ghost predicate ShortestPrefix(called: seq<string>, order: seq<string>, transport: Transport, recording: bool,
                                 policy: Policy.Effective)
  {
    && called <= order && (called == [] ==> order == [])
    && (forall i :: 0 <= i < |called| - 1 ==> !Stops(transport, recording, policy, called[i]))
    && (called != [] && |called| < |order| ==> Stops(transport, recording, policy, called[|called| - 1]))
  }

  // No call so far was a reason to stop.
  ghost predicate Presses(called: seq<string>, transport: Transport, recording: bool, policy: Policy.Effective) {
    forall service :: service in called ==> !Stops(transport, recording, policy, service)
  }

  lemma OneMoreOf(called: seq<string>, service: string, order: seq<string>, transport: Transport, recording: bool,
                  policy: Policy.Effective)
    requires Presses(called, transport, recording, policy) && called + [service] <= order
    ensures ShortestPrefix(called + [service], order, transport, recording, policy)
            <==> Stops(transport, recording, policy, service) || |called| + 1 == |order|
    ensures !Stops(transport, recording, policy, service) ==>
              Presses(called + [service], transport, recording, policy)
  {
    forall i | 0 <= i < |called| ensures (called + [service])[i] in called {}
  }

  // Failures are retried up to the end of the budget.
  ghost predicate Budgeted(p: Preview, policy: Policy.Effective, order: seq<string>, budget: seq<string>) {
    && budget <= order && (order != [] ==> budget != [])
    && forall i: nat :: i + 1 < |order| ==> (ShouldRetry(p, policy, i, true) <==> i + 1 < |budget|)
  }

  // The loop has called these and goes on unless the order is at its end.
  ghost predicate Going(called: seq<string>, order: seq<string>, budget: seq<string>, transport: Transport,
                        recording: bool, policy: Policy.Effective)
  {
    && called <= budget && (|called| < |order| ==> |called| < |budget|)
    && Presses(called, transport, recording, policy)
    && (|called| == |order| ==> ShortestPrefix(called, budget, transport, recording, policy))
  }

  lemma AfterAttempt(p: Preview, policy: Policy.Effective, called: seq<string>, order: seq<string>, budget: seq<string>,
                     transport: Transport, recording: bool)
    requires Budgeted(p, policy, order, budget) && |called| < |order|
    requires Going(called, order, budget, transport, recording, policy)
    ensures var more := called + [order[|called|]];
            if ShouldRetry(p, policy, |called|, Retryable(recording, transport(order[|called|]), policy)) then
              Going(more, order, budget, transport, recording, policy)
            else ShortestPrefix(more, budget, transport, recording, policy)
  {
    OneMoreOf(called, order[|called|], budget, transport, recording, policy);
  }

  // The calls of a request whose route was resolved, under the policy stored for its
  // operation.
  ghost predicate CallsMade(store: Policy.Store, operation: string, p: Preview, called: seq<string>,
                            transport: Transport, recording: bool)
  {
    var policy := Policy.PolicyFor(store, operation);
    ShortestPrefix(called, Budget(p, policy), transport, recording, policy)
  }

  function CalledPrefix(order: seq<string>, transport: Transport, recording: bool, policy: Policy.Effective)
    : seq<string>
  {
    if order == [] then []
    else if Stops(transport, recording, policy, order[0]) then [order[0]]
    else [order[0]] + CalledPrefix(order[1..], transport, recording, policy)
  }

  // There is exactly one such prefix.
  lemma {:induction false} ShortestPrefixIsUnique(called: seq<string>, order: seq<string>, transport: Transport,
                                                  recording: bool, policy: Policy.Effective)
    ensures ShortestPrefix(called, order, transport, recording, policy)
            <==> called == CalledPrefix(order, transport, recording, policy)
    decreases |order|
  {
    if order != [] {
      var rest := CalledPrefix(order[1..], transport, recording, policy);
      ShortestPrefixIsUnique(rest, order[1..], transport, recording, policy);
      if called != [] {
        ShortestPrefixIsUnique(called[1..], order[1..], transport, recording, policy);
        assert called == [called[0]] + called[1..];
      }
    }
  }

  // The order as far as the request mode lets the dispatcher follow it.
  function Budget(p: Preview, policy: Policy.Effective): seq<string> {
    var order := AttemptOrder(p, policy);
    if p.mode.Strategy? || order == [] then order else order[..1]
  }

  // What one outcome does to a service's cooling state.
  function CooledBy(cfg: Cooling.Config, recording: bool, state: Cooling.State, result: CallResult, now: nat)
    : Cooling.State
  {
    match result
    case Answered => Cooling.Succeed(state, now)
    case Failed(_) =>
      Cooling.Fail(cfg, state, CategoryOf(result), recording && CountsTowardCooling(CategoryOf(result)), now)
  }

  // The cooling states after the calls, the i-th of them made at clock(i).
  function CooledAfter(cfg: Cooling.Config, recording: bool, states: map<string, Cooling.State>, called: seq<string>,
                       transport: Transport, clock: nat -> nat): map<string, Cooling.State>
  {
    if called == [] then states
    else
      var last := called[|called| - 1];
      var before := CooledAfter(cfg, recording, states, called[..|called| - 1], transport, clock);
      before[last := CooledBy(cfg, recording, Cooling.Cell(before, last), transport(last), clock(|called|))]
  }

  // The tables after one call: begun, ended by its outcome, and a cooldown noted if a
  // failure leaves the service cooled.
  function TablesAfterCall(t: Stats.Tables, service: string, operation: string, result: CallResult, cooled: bool)
    : Stats.Tables
  {
    var begun := Stats.Apply(t, Stats.Began(service, operation));
    match result
    case Answered => Stats.Apply(begun, Stats.Succeeded(service, operation))
    case Failed(_) =>
      var ended := Stats.Apply(begun, Stats.Failed(service, operation, CategoryOf(result)));
      if cooled then Stats.Apply(ended, Stats.CooledDown(service, operation)) else ended
  }

  function TablesAfter(t: Stats.Tables, cfg: Cooling.Config, recording: bool, states: map<string, Cooling.State>,
                       called: seq<string>, transport: Transport, clock: nat -> nat, operation: string): Stats.Tables
  {
    if called == [] then t
    else
      var last := called[|called| - 1];
      var before := TablesAfter(t, cfg, recording, states, called[..|called| - 1], transport, clock, operation);
      TablesAfterCall(before, last, operation, transport(last),
                      CooledAfter(cfg, recording, states, called, transport, clock)[last].cooled)
  }

  // How many of the called services that failed, or answered, a row covers.
  function Failures(called: seq<string>, transport: Transport, row: Stats.Row, operation: string): nat {
    if called == [] then 0
    else
      var last := called[|called| - 1];
      Failures(called[..|called| - 1], transport, row, operation)
      + if transport(last).Failed? && Stats.Covers(row, last, operation) then 1 else 0
  }

  function Answers(called: seq<string>, transport: Transport, row: Stats.Row, operation: string): nat {
    if called == [] then 0
    else
      var last := called[|called| - 1];
      Answers(called[..|called| - 1], transport, row, operation)
      + if transport(last).Answered? && Stats.Covers(row, last, operation) then 1 else 0
  }

  // How many of the calls failed and left their service cooled; operations have no
  // such counter.
  function Cooldowns(cfg: Cooling.Config, recording: bool, states: map<string, Cooling.State>, called: seq<string>,
                     transport: Transport, clock: nat -> nat, row: Stats.Row, operation: string): nat
  {
    if called == [] then 0
    else
      var last := called[|called| - 1];
      Cooldowns(cfg, recording, states, called[..|called| - 1], transport, clock, row, operation)
      + if transport(last).Failed? && CooledAfter(cfg, recording, states, called, transport, clock)[last].cooled
           && !row.OfOperation? && Stats.Covers(row, last, operation) then 1 else 0
  }

  // From t to u the row counts each call by its outcome, and no call stays active.
  ghost predicate RowAccounted(t: Stats.Tables, u: Stats.Tables, called: seq<string>, transport: Transport,
                               operation: string, cooldowns: nat, row: Stats.Row)
  {
    && Stats.Active(u, row) == Stats.Active(t, row)
    && Stats.Read(u, Stats.Successes, row)
       == Stats.Read(t, Stats.Successes, row) + Answers(called, transport, row, operation)
    && Stats.Read(u, Stats.Failures, row)
       == Stats.Read(t, Stats.Failures, row) + Failures(called, transport, row, operation)
    && Stats.Read(u, Stats.Cooldowns, row) == Stats.Read(t, Stats.Cooldowns, row) + cooldowns
  }

  ghost predicate Accounted(t: Stats.Tables, u: Stats.Tables, cfg: Cooling.Config, recording: bool,
                            states: map<string, Cooling.State>, called: seq<string>, transport: Transport,
                            clock: nat -> nat, operation: string)
  {
    forall row ::
      RowAccounted(t, u, called, transport, operation,
                   Cooldowns(cfg, recording, states, called, transport, clock, row, operation), row)
  }

  // The service a response names: the one called last, or the one that could not be resolved.
  function ReportedService(p: Preview, called: seq<string>): string {
    if called != [] then called[|called| - 1] else if p.error.Some? then p.error.value.service else ""
  }

  // Errors are reported only while failures are being recorded.
  function ReportedError(p: Preview, recording: bool, called: seq<string>, transport: Transport): string {
    if !recording then ""
    else if p.error.Some? then p.error.value.category
    else if called == [] || transport(called[|called| - 1]).Answered? then ""
    else CategoryOf(transport(called[|called| - 1]))
  }

  // ----- the dispatcher object

  datatype Response = Response(succeeded: bool, service: string, attempts: seq<string>, retried: bool, error: string)

  class Dispatcher {
    const registry: Registry
    const cooling: Cooling.Manager
    const stats: Stats.Manager
    const selector: Selector.Selector
    const policies: Policy.PolicyStore
    const recording: bool

    constructor (registry: Registry, cooling: Cooling.Manager, stats: Stats.Manager, selector: Selector.Selector,
                 policies: Policy.PolicyStore, recording: bool)
      ensures this.registry == registry && this.cooling == cooling && this.stats == stats
      ensures this.selector == selector && this.policies == policies && this.recording == recording
    {
      this.registry, this.cooling, this.stats := registry, cooling, stats;
      this.selector, this.policies, this.recording := selector, policies, recording;
    }

    ghost predicate Valid()
      reads this, registry, selector, policies, cooling
    {
      registry.Valid() && selector.counter < Selector.WRAP && policies.View().Valid() && cooling.cfg.Valid()
    }

    // One call: begin, call, and account for the outcome.
    method Attempt(service: string, operation: string, transport: Transport, now: nat)
      returns (result: CallResult, cooldown: bool)
      requires cooling.cfg.Valid()
      modifies cooling, stats
      ensures result == transport(service)
      ensures service in cooling.states
      ensures stats.View() == TablesAfterCall(old(stats.View()), service, operation, result, cooling.states[service].cooled)
      ensures cooldown <==> result.Failed? && recording && CountsTowardCooling(CategoryOf(result))
                            && cooling.states[service].cooled
      ensures cooling.states == old(cooling.states)
                [service := CooledBy(cooling.cfg, recording, Cooling.Cell(old(cooling.states), service), result, now)]
    {
      cooldown := false;
      stats.Begin(service, operation);
      result := transport(service);
      if result.Answered? {
        var state := cooling.RecordSuccess(service, now);
        stats.EndSuccess(service, operation);
        return;
      }
      cooldown := RecordTransportFailure(service, operation, CategoryOf(result), now);
    }

    method RecordTransportFailure(service: string, operation: string, category: string, now: nat) returns (cooldown: bool)
      requires cooling.cfg.Valid()
      modifies cooling, stats
      ensures var counts := recording && CountsTowardCooling(category);
              var state := Cooling.Fail(cooling.cfg, Cooling.Cell(old(cooling.states), service), category, counts, now);
              var ended := Stats.Apply(old(stats.View()), Stats.Failed(service, operation, category));
              && cooling.states == old(cooling.states)[service := state]
              && stats.View() == (if state.cooled then Stats.Apply(ended, Stats.CooledDown(service, operation)) else ended)
              && (cooldown <==> counts && state.cooled)
    {
      var counts := recording && CountsTowardCooling(category);
      var state := cooling.RecordFailure(service, category, counts, now);
      stats.EndFailure(service, operation, category);
      if state.cooled {
        stats.RecordCooldown(service, operation);
      }
      cooldown := false;
      if counts {
        cooldown := cooling.IsCooled(service, now);
      }
    }

    // Resolve the request, then try its services until one answers, a failure is
    // not retryable, or the budget is used up.
    method Dispatch(r: Request, clock: nat -> nat, draw: nat, transport: Transport)
      returns (response: Response, ghost p: Preview, ghost cs: seq<Candidate>, ghost services: seq<Service>,
               ghost looked: map<string, Cooling.State>)
      requires Valid()
      modifies cooling, stats, selector
      ensures Valid()
      // the route is that of the services registered at the start
      ensures Lists(services, registry.services)
      ensures Evaluated(cs, services, Trim(r.operation), old(cooling.states), old(stats.View()), clock(0))
      ensures RouteOf(p, cs, r, Policy.PreferencesFor(policies.View(), Trim(r.operation)))
      ensures Trim(r.operation) != "" && !r.mode.Specified? ==>
                LeftToSelector(p, cs, Trim(r.language), Policy.PreferencesFor(policies.View(), Trim(r.operation)),
                               selector.mode, old(selector.counter), draw)
      // the calls made
      ensures p.error.Some? ==> response.attempts == []
      ensures p.error.None? ==> CallsMade(policies.View(), r.operation, p, response.attempts, transport, recording)
      ensures NoDuplicates(response.attempts)
      ensures response.succeeded <==>
                response.attempts != [] && transport(response.attempts[|response.attempts| - 1]).Answered?
      ensures response.retried <==> |response.attempts| > 1
      ensures response.service == ReportedService(p, response.attempts)
      ensures response.error == ReportedError(p, recording, response.attempts, transport)
      // the accounting; resolving only looks at the cooling states
      ensures p.error.Some? ==>
                stats.View() == Stats.Apply(old(stats.View()), Stats.Unresolved(r.operation, p.error.value.category))
      ensures Cooling.Alike(looked, old(cooling.states), clock(0))
      ensures p.error.Some? ==> cooling.states == looked
      ensures p.error.None? ==>
                && Followed(old(stats.View()), looked, response.attempts, r.operation, clock, transport)
                && Accounted(old(stats.View()), stats.View(), cooling.cfg, recording, looked, response.attempts,
                             transport, clock, r.operation)
    {
      var preview;
      preview, cs, services := Resolved(r, clock(0), draw);
      p, looked := preview, cooling.states;
      if preview.error.None? {
        ResolvedIsRouted(p, cs, r, Policy.PreferencesFor(policies.View(), Trim(r.operation)));
      }
      var policy := CurrentPolicy(r.operation);
      response := Serve(preview, policy, r.operation, clock, transport);
      if preview.error.None? {
        CallsAreAccounted(old(stats.View()), cooling.cfg, recording, looked, response.attempts, transport, clock,
                          r.operation);
      }
    }

    // Account for a request that has no route; otherwise call its services.
    method Serve(p: Preview, policy: Policy.Effective, operation: string, clock: nat -> nat, transport: Transport)
      returns (response: Response)
      requires cooling.cfg.Valid() && (p.error.None? ==> Routed(p))
      modifies cooling, stats
      ensures p.error.Some? ==> response.attempts == []
      ensures p.error.None? ==> ShortestPrefix(response.attempts, Budget(p, policy), transport, recording, policy)
      ensures NoDuplicates(response.attempts)
      ensures response.succeeded <==>
                response.attempts != [] && transport(response.attempts[|response.attempts| - 1]).Answered?
      ensures response.retried <==> |response.attempts| > 1
      ensures response.service == ReportedService(p, response.attempts)
      ensures response.error == ReportedError(p, recording, response.attempts, transport)
      ensures p.error.Some? ==>
                stats.View() == Stats.Apply(old(stats.View()), Stats.Unresolved(operation, p.error.value.category))
      ensures p.error.Some? ==> cooling.states == old(cooling.states)
      ensures p.error.None? ==>
                Followed(old(stats.View()), old(cooling.states), response.attempts, operation, clock, transport)
    {
      if p.error.Some? {
        stats.RecordResolutionFailure(operation, p.error.value.category);
        return Response(false, p.error.value.service, [], false, if recording then p.error.value.category else "");
      }
      var called, succeeded, category := CallInTurn(p, policy, operation, clock, transport);
      response := Response(succeeded, if called == [] then "" else called[|called| - 1], called, |called| > 1, category);
    }

    method CurrentPolicy(operation: string) returns (policy: Policy.Effective)
      ensures policy == Policy.PolicyFor(policies.View(), operation)
    {
      policy := Policy.PolicyFor(Policy.Store(policies.allowFallback, policies.maxAttempts, policies.retryable,
                                              policies.preferred, policies.policies), operation);
    }

    method Resolved(r: Request, now: nat, draw: nat)
      returns (p: Preview, ghost cs: seq<Candidate>, ghost services: seq<Service>)
      requires Valid()
      modifies cooling, selector
      ensures Valid()
      ensures Lists(services, registry.services) && DistinctServices(cs)
      ensures NoDuplicates(Policy.PreferencesFor(policies.View(), Trim(r.operation)))
      ensures Evaluated(cs, services, Trim(r.operation), old(cooling.states), stats.View(), now)
      ensures Cooling.Alike(cooling.states, old(cooling.states), now)
      ensures p.mode == r.mode && RouteOf(p, cs, r, Policy.PreferencesFor(policies.View(), Trim(r.operation)))
      ensures Trim(r.operation) != "" && !r.mode.Specified? ==>
                LeftToSelector(p, cs, Trim(r.language), Policy.PreferencesFor(policies.View(), Trim(r.operation)),
                               selector.mode, old(selector.counter), draw)
    {
      var resolver := new Resolver(registry, cooling, selector, stats, policies.preferred);
      p, cs, services := resolver.Resolve(r, now, draw);
    }

    // Statistics and cooling states are as the calls leave them.
    ghost predicate Followed(start: Stats.Tables, states: map<string, Cooling.State>, called: seq<string>,
                             operation: string, clock: nat -> nat, transport: Transport)
      reads stats, cooling
    {
      && cooling.states == CooledAfter(cooling.cfg, recording, states, called, transport, clock)
      && stats.View() == TablesAfter(start, cooling.cfg, recording, states, called, transport, clock, operation)
    }

    method AttemptNext(ghost start: Stats.Tables, ghost states: map<string, Cooling.State>, called: seq<string>,
                       service: string, operation: string, clock: nat -> nat, transport: Transport)
      returns (result: CallResult)
      requires cooling.cfg.Valid() && Followed(start, states, called, operation, clock, transport)
      modifies cooling, stats
      ensures result == transport(service)
      ensures Followed(start, states, called + [service], operation, clock, transport)
    {
      assert (called + [service])[..|called|] == called;
      var cooldown;
      result, cooldown := Attempt(service, operation, transport, clock(|called| + 1));
    }

    // The attempt loop.
    method CallInTurn(p: Preview, policy: Policy.Effective, operation: string, clock: nat -> nat, transport: Transport)
      returns (called: seq<string>, succeeded: bool, category: string)
      requires Routed(p) && cooling.cfg.Valid()
      modifies cooling, stats
      ensures ShortestPrefix(called, Budget(p, policy), transport, recording, policy)
      ensures NoDuplicates(called)
      ensures succeeded <==> called != [] && transport(called[|called| - 1]).Answered?
      ensures p.error.None? ==> category == ReportedError(p, recording, called, transport)
      ensures Followed(old(stats.View()), old(cooling.states), called, operation, clock, transport)
    {
      var attemptServices := AttemptServices(p, policy);
      BudgetCovers(p, policy);
      called, succeeded, category := CallEach(p, policy, attemptServices, Budget(p, policy), operation, clock, transport);
    }

    // One turn of the loop: the next service of the order is called.
    method CallNext(p: Preview, policy: Policy.Effective, order: seq<string>, ghost budget: seq<string>,
                    operation: string, clock: nat -> nat, transport: Transport,
                    ghost start: Stats.Tables, ghost states: map<string, Cooling.State>, called: seq<string>)
      returns (more: seq<string>, succeeded: bool, category: string, done: bool)
      requires cooling.cfg.Valid() && Budgeted(p, policy, order, budget) && |called| < |order|
      requires Going(called, order, budget, transport, recording, policy)
      requires Followed(start, states, called, operation, clock, transport)
      modifies cooling, stats
      ensures more == called + [order[|called|]]
      ensures Followed(start, states, more, operation, clock, transport)
      ensures succeeded <==> transport(more[|called|]).Answered?
      ensures p.error.None? ==> category == ReportedError(p, recording, more, transport)
      ensures if done then ShortestPrefix(more, budget, transport, recording, policy)
              else !succeeded && Going(more, order, budget, transport, recording, policy)
    {
      var service := order[|called|];
      var result := AttemptNext(start, states, called, service, operation, clock, transport);
      AfterAttempt(p, policy, called, order, budget, transport, recording);
      more := called + [service];
      if result.Answered? {
        return more, true, "", true;
      }
      succeeded, category := false, if recording then CategoryOf(result) else "";
      done := !ShouldRetry(p, policy, |called|, Retryable(recording, result, policy));
    }

    // `budget` is how far into `order` retryable failures are retried.
    method CallEach(p: Preview, policy: Policy.Effective, order: seq<string>, ghost budget: seq<string>,
                    operation: string, clock: nat -> nat, transport: Transport)
      returns (called: seq<string>, succeeded: bool, category: string)
      requires cooling.cfg.Valid() && Budgeted(p, policy, order, budget)
      modifies cooling, stats
      ensures ShortestPrefix(called, budget, transport, recording, policy)
      ensures succeeded <==> called != [] && transport(called[|called| - 1]).Answered?
      ensures p.error.None? ==> category == ReportedError(p, recording, called, transport)
      ensures Followed(old(stats.View()), old(cooling.states), called, operation, clock, transport)
    {
      ghost var start, states := stats.View(), cooling.states;
      called, succeeded, category := [], false, "";
      for attemptIndex := 0 to |order|
        invariant |called| == attemptIndex && !succeeded
        invariant Going(called, order, budget, transport, recording, policy)
        invariant Followed(start, states, called, operation, clock, transport)
        invariant p.error.None? ==> category == ReportedError(p, recording, called, transport)
      {
        var done;
        called, succeeded, category, done :=
          CallNext(p, policy, order, budget, operation, clock, transport, start, states, called);
        if done {
          return;
        }
      }
      assert called != [] ==> called[|called| - 1] in called;
    }
  }

  // The route a request gets from the candidates.
  ghost predicate RouteOf(p: Preview, cs: seq<Candidate>, r: Request, preferences: seq<string>) {
    if Trim(r.operation) == "" then p.error == Some(RouteError(VALIDATION_ERROR, ""))
    else if r.mode.Specified? then SpecifiedRoute(p, cs, Trim(r.requested))
    else StrategyRoute(p, cs, Trim(r.language), preferences)
  }

  lemma CallAccounts(t: Stats.Tables, s: string, o: string, result: CallResult, cooled: bool, row: Stats.Row)
    ensures var u := TablesAfterCall(t, s, o, result, cooled);
            && Stats.Active(u, row) == Stats.Active(t, row)
            && Stats.Read(u, Stats.Successes, row) == Stats.Read(t, Stats.Successes, row)
                 + (if result.Answered? && Stats.Covers(row, s, o) then 1 else 0)
            && Stats.Read(u, Stats.Failures, row) == Stats.Read(t, Stats.Failures, row)
                 + (if result.Failed? && Stats.Covers(row, s, o) then 1 else 0)
            && Stats.Read(u, Stats.Cooldowns, row) == Stats.Read(t, Stats.Cooldowns, row)
                 + (if result.Failed? && cooled && !row.OfOperation? && Stats.Covers(row, s, o) then 1 else 0)
  {
    var begun := Stats.Apply(t, Stats.Began(s, o));
    Stats.RowAfter(t, Stats.Began(s, o), row);
    match result
    case Answered => Stats.RowAfter(begun, Stats.Succeeded(s, o), row);
    case Failed(_) =>
      var e := Stats.Failed(s, o, CategoryOf(result));
      Stats.RowAfter(begun, e, row);
      Stats.RowAfter(Stats.Apply(begun, e), Stats.CooledDown(s, o), row);
  }

  // After any calls each row has counted every call by its outcome and every failure
  // that left its service cooled, and shows as many active calls as before.
  lemma {:induction false} CallsAreAccounted(t: Stats.Tables, cfg: Cooling.Config, recording: bool,
                                             states: map<string, Cooling.State>, called: seq<string>,
                                             transport: Transport, clock: nat -> nat, operation: string)
    ensures Accounted(t, TablesAfter(t, cfg, recording, states, called, transport, clock, operation),
                      cfg, recording, states, called, transport, clock, operation)
  {
    if called != [] {
      var before, last := called[..|called| - 1], called[|called| - 1];
      CallsAreAccounted(t, cfg, recording, states, before, transport, clock, operation);
      var u := TablesAfter(t, cfg, recording, states, before, transport, clock, operation);
      var cooled := CooledAfter(cfg, recording, states, called, transport, clock)[last].cooled;
      forall row
        ensures RowAccounted(t, TablesAfterCall(u, last, operation, transport(last), cooled), called, transport, operation,
                             Cooldowns(cfg, recording, states, called, transport, clock, row, operation), row)
      {
        assert RowAccounted(t, u, before, transport, operation,
                            Cooldowns(cfg, recording, states, before, transport, clock, row, operation), row);
        CallAccounts(u, last, operation, transport(last), cooled, row);
      }
    }
  }

  // A request that cannot be routed counts one failure of its operation.
  lemma UnresolvedRows(t: Stats.Tables, o: string, category: string)
    ensures var after := Stats.Apply(t, Stats.Unresolved(o, category));
            && (forall row :: Stats.Active(after, row) == Stats.Active(t, row))
            && (forall row :: Stats.Read(after, Stats.Successes, row) == Stats.Read(t, Stats.Successes, row))
            && (forall row :: Stats.Read(after, Stats.Cooldowns, row) == Stats.Read(t, Stats.Cooldowns, row))
            && (forall row :: Stats.Read(after, Stats.Failures, row) == Stats.Read(t, Stats.Failures, row)
                 + (if o != "" && row == Stats.OfOperation(o) then 1 else 0))
  {
    var e := Stats.Unresolved(o, category);
    var after := Stats.Apply(t, e);
    forall row ensures Stats.Active(after, row) == Stats.Active(t, row) { Stats.RowAfter(t, e, row); }
    forall row ensures Stats.Read(after, Stats.Successes, row) == Stats.Read(t, Stats.Successes, row) {
      Stats.RowAfter(t, e, row);
    }
    forall row ensures Stats.Read(after, Stats.Cooldowns, row) == Stats.Read(t, Stats.Cooldowns, row) {
      Stats.RowAfter(t, e, row);
    }
    forall row ensures Stats.Read(after, Stats.Failures, row) == Stats.Read(t, Stats.Failures, row)
                       + (if o != "" && row == Stats.OfOperation(o) then 1 else 0) { Stats.RowAfter(t, e, row); }
  }

  // A request that was resolved has a usable route.
  lemma ResolvedIsRouted(p: Preview, cs: seq<Candidate>, r: Request, preferences: seq<string>)
    requires DistinctServices(cs) && NoDuplicates(preferences)
    ensures RouteOf(p, cs, r, preferences) && p.mode == r.mode && p.error.None? ==> Routed(p)
  {
    if Trim(r.operation) != "" && !r.mode.Specified? {
      ChainIsOrderedScope(cs, Trim(r.language), preferences);
    }
  }

  // On a usable route a retryable failure is retried exactly as far as the budget goes.
  lemma BudgetCovers(p: Preview, policy: Policy.Effective)
    requires Routed(p)
    ensures var order, budget := AttemptOrder(p, policy), Budget(p, policy);
            Budgeted(p, policy, order, budget) && NoDuplicates(order)
  {
    ChainLength(p.selected, p.chain);
  }
}
