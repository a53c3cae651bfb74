// Who is called, in what order, and what it does to later requests: laws over the
// candidates, the calls and the cooling history of a request, in the terms of
// service/base/routing/resolver.go and service/base/services/dispatcher.go.
module Serving {
  import opened Ordering
  import opened Text
  import opened ServiceRegistry
  import opened Routing
  import opened Dispatch
  import Cooling
  import Policy
  import Stats

  // ----- who is eligible

  // The first reason, in the order of the resolver, not to use the service.
  function FirstReason(s: Service, operation: string, cooled: bool): string {
    if operation == "" then "validation_error"
    else if !s.enabled then "service_disabled"
    else if Trim(operation) == "" || (s.operations != {} && operation !in s.operations) then "unsupported_operation"
    else if s.healthKnown && !s.healthy then "service_unavailable"
    else if cooled then "service_cooled"
    else ""
  }

  // What a listed service is as a candidate, told by the registry, the statistics and
  // the history of its cooling: it is eligible iff there is no reason against it, the
  // last of which is that a trigger since its last reset covers the present.
  lemma EligibleIff(cfg: Cooling.Config, events: seq<Cooling.Event>, cs: seq<Candidate>, services: seq<Service>,
                    operation: string, states: map<string, Cooling.State>, tables: Stats.Tables, now: nat, i: nat)
    requires cfg.Valid() && Cooling.Clocked(events, now) && Cooling.Alike(states, Cooling.Run(cfg, events), now)
    requires i < |services| && Evaluated(cs, services, operation, states, tables, now)
    ensures var s, c := services[i], cs[i];
            var reason := FirstReason(s, operation, Cooling.CooledBy(cfg, events, s.name, now));
            && c.exclusion == reason && (c.eligible <==> reason == "")
            && c.service == s.name && c.language == s.language && !c.inScope && !c.selected
            && c.activeRequests == Stats.Active(tables, Stats.OfService(s.name))
            && (c.cooled <==> operation != "" && Cooling.CooledBy(cfg, events, s.name, now))
  {
    Cooling.ManagerMatchesHistory(cfg, events, services[i].name, now);
    assert cs[i] == CandidateAt(services, i, operation, states, tables, now);
    assert IsCooledAt(states, services[i].name, now) == IsCooledAt(Cooling.Run(cfg, events), services[i].name, now);
  }

  // The scope: all eligible candidates, or, if a language is asked for that some of
  // them speak, those.
  lemma ScopeIsNarrowed(cs: seq<Candidate>, language: string, c: Candidate)
    ensures var spoken := language != "" && exists d :: d in cs && d.eligible && Lower(d.language) == Lower(language);
            c in Scope(cs, language) <==> c in cs && c.eligible && (spoken ==> Lower(c.language) == Lower(language))
  {
    var eligible := Filter(cs, IsEligible);
    var narrowed := Filter(eligible, Speaks(language));
    if d :| d in cs && d.eligible && Lower(d.language) == Lower(language) { assert d in narrowed; }
    if narrowed != [] { assert narrowed[0] in narrowed; }
  }

  // ----- who is called

  // The service may be used for the operation.
  ghost predicate Serves(s: Service, operation: string) {
    && s.enabled && operation != "" && (s.operations == {} || operation in s.operations)
    && (s.healthKnown ==> s.healthy)
  }

  lemma CalledAreRouted(store: Policy.Store, operation: string, p: Preview, called: seq<string>, transport: Transport,
                        recording: bool)
    requires CallsMade(store, operation, p, called, transport, recording)
    ensures forall name :: name in called ==> name == p.selected || name in p.chain
  {
    var policy := Policy.PolicyFor(store, operation);
    assert forall name :: name in AttemptOrder(p, policy) ==> name in Chain(p.selected, p.chain);
  }

  lemma RoutedAreEligible(p: Preview, cs: seq<Candidate>, r: Request, preferences: seq<string>, name: string)
    requires DistinctServices(cs) && NoDuplicates(preferences) && RouteOf(p, cs, r, preferences) && p.error.None?
    requires name == p.selected || name in p.chain
    ensures exists c :: c in cs && c.service == name && c.eligible
  {
    if r.mode.Specified? {
      var requested := Trim(r.requested);
      var c :| c in cs && c.service == requested;
    } else {
      ChainNamesEligible(cs, Trim(r.language), preferences);
    }
  }

  // Every service that a dispatch calls is registered and enabled, supports the
  // operation, is not known to be unhealthy, and is not cooled when the request comes.
  lemma CalledMayServe(cfg: Cooling.Config, events: seq<Cooling.Event>, registry: map<string, Service>,
                       cs: seq<Candidate>, services: seq<Service>, states: map<string, Cooling.State>,
                       tables: Stats.Tables, now: nat, r: Request, p: Preview, store: Policy.Store, called: seq<string>,
                       transport: Transport, recording: bool, name: string)
    requires cfg.Valid() && Cooling.Clocked(events, now) && Cooling.Alike(states, Cooling.Run(cfg, events), now)
    requires store.Valid() && Lists(services, registry)
    requires Evaluated(cs, services, Trim(r.operation), states, tables, now)
    requires p.error.None? && RouteOf(p, cs, r, Policy.PreferencesFor(store, Trim(r.operation)))
    requires CallsMade(store, r.operation, p, called, transport, recording) && name in called
    ensures name in registry && Serves(registry[name], Trim(r.operation)) && !Cooling.CooledBy(cfg, events, name, now)
  {
    var operation := Trim(r.operation);
    var preferences := Policy.PreferencesFor(store, operation);
    CandidatesAreDistinct(cs, services, registry, operation, states, tables, now);
    CalledAreRouted(store, r.operation, p, called, transport, recording);
    assert NoDuplicates(preferences);
    RoutedAreEligible(p, cs, r, preferences, name);
    var c :| c in cs && c.service == name && c.eligible;
    var i :| 0 <= i < |cs| && cs[i] == c;
    EligibleIff(cfg, events, cs, services, operation, states, tables, now, i);
    assert services[i] in services;
  }

  lemma CandidatesAreDistinct(cs: seq<Candidate>, services: seq<Service>, registry: map<string, Service>,
                              operation: string, states: map<string, Cooling.State>, tables: Stats.Tables, now: nat)
    requires Lists(services, registry) && Evaluated(cs, services, operation, states, tables, now)
    ensures DistinctServices(cs)
  {
    forall i, j | 0 <= i < j < |cs| ensures cs[i].service != cs[j].service {
      assert cs[i] == CandidateAt(services, i, operation, states, tables, now);
      assert cs[j] == CandidateAt(services, j, operation, states, tables, now);
    }
  }

  // ----- in which order

  // Each name after the first is the first of the chain that is not blank and did not
  // come before.
  lemma {:induction false} ChainIsGreedy(selected: string, fallbacks: seq<string>, i: nat)
    requires i < |Chain(selected, fallbacks)|
    ensures var chain := Chain(selected, fallbacks);
            && (i == 0 && selected != "" ==> chain[0] == selected)
            && (i > 0 || selected == "" ==> NextOf(fallbacks, chain[..i], chain[i]))
  {
    if fallbacks != [] {
      var n := |fallbacks| - 1;
      var before := Chain(selected, fallbacks[..n]);
      assert Chain(selected, fallbacks)[..i] == before[..i];
      StartsSelected(selected, fallbacks[..n]);
      if i < |before| {
        ChainIsGreedy(selected, fallbacks[..n], i);
        if k :| NextAt(fallbacks[..n], before[..i], before[i], k) { assert NextAt(fallbacks, before[..i], before[i], k); }
      } else {
        AllCome(selected, fallbacks[..n]);
        assert NextAt(fallbacks, before, fallbacks[n], n);
      }
    }
  }

  ghost predicate NextOf(fallbacks: seq<string>, earlier: seq<string>, name: string) {
    exists k :: NextAt(fallbacks, earlier, name, k)
  }

  ghost predicate NextAt(fallbacks: seq<string>, earlier: seq<string>, name: string, k: int) {
    && 0 <= k < |fallbacks| && fallbacks[k] == name && name != "" && name !in earlier
    && forall j :: 0 <= j < k ==> fallbacks[j] == "" || fallbacks[j] in earlier
  }

  lemma {:induction false} StartsSelected(selected: string, fallbacks: seq<string>)
    ensures selected != "" ==> Chain(selected, fallbacks) != [] && Chain(selected, fallbacks)[0] == selected
  {
    if fallbacks != [] { StartsSelected(selected, fallbacks[..|fallbacks| - 1]); }
  }

  lemma {:induction false} AllCome(selected: string, fallbacks: seq<string>)
    ensures forall j :: 0 <= j < |fallbacks| ==> fallbacks[j] == "" || fallbacks[j] in Chain(selected, fallbacks)
  {
    if fallbacks != [] { AllCome(selected, fallbacks[..|fallbacks| - 1]); }
  }

  // The selected service is called first, and each further call goes to the first
  // service of the chain that was not called yet.
  lemma CallsFollowChain(store: Policy.Store, operation: string, p: Preview, called: seq<string>, transport: Transport,
                         recording: bool, i: nat)
    requires CallsMade(store, operation, p, called, transport, recording) && i < |called|
    ensures i == 0 && p.selected != "" ==> called[0] == p.selected
    ensures i > 0 || p.selected == "" ==> NextOf(p.chain, called[..i], called[i])
  {
    var chain := Chain(p.selected, p.chain);
    var order := AttemptOrder(p, Policy.PolicyFor(store, operation));
    assert called[i] == order[i] == chain[i] && called[..i] == chain[..i];
    ChainIsGreedy(p.selected, p.chain, i);
  }

  // ----- how far a failure is followed

  // What the stored policies say for an operation: whether failures may be followed by
  // another call, how many calls there may be in all, and which failures count.
  ghost predicate Governs(store: Policy.Store, operation: string, fallback: bool, most: int, categories: seq<string>) {
    if operation in store.policies then
      var own := store.policies[operation];
      && fallback == (own.fallbackMode == "enabled" || (own.fallbackMode != "disabled" && store.allowFallback))
      && most == (if own.maxAttempts > 0 then own.maxAttempts else store.maxAttempts)
      && categories == (if own.retryable != [] then own.retryable else store.retryable)
    else
      fallback == store.allowFallback && most == store.maxAttempts && categories == store.retryable
  }

  // The category a failure is recorded under; a blank one stands for a failed delegation.
  function Recorded(result: CallResult): string
    requires result.Failed?
  {
    if result.category == "" then "delegation_error" else result.category
  }

  // How many services a route offers.
  function Offered(p: Preview): int { |p.chain| - if "" in p.chain then 1 else 0 }

  // A call is followed by another iff the request is in strategy mode, fallback is on
  // for the operation, the call failed under a recorded category that is listed for
  // it, and neither the route nor the number of calls allowed is used up.
  lemma NextCallIff(store: Policy.Store, operation: string, fallback: bool, most: int, categories: seq<string>,
                    p: Preview, called: seq<string>, transport: Transport, recording: bool, i: nat)
    requires CallsMade(store, operation, p, called, transport, recording) && Routed(p) && i < |called|
    requires Governs(store, operation, fallback, most, categories)
    ensures var result := transport(called[i]);
            i + 1 < |called| <==>
            && p.mode.Strategy? && fallback
            && result.Failed? && recording && Recorded(result) in categories
            && i + 1 < Offered(p) && (most > 0 ==> i + 1 < most)
  {
    ChainLength(p.selected, p.chain);
    var policy := Policy.PolicyFor(store, operation);
    var order := AttemptOrder(p, policy);
    assert called[i] == order[i];
  }

  // Without fallback, stored as "disabled" or by the global flag, at most one service
  // is called, and so in every mode but the strategy mode.
  lemma OneCallOnly(store: Policy.Store, operation: string, p: Preview, called: seq<string>, transport: Transport,
                    recording: bool)
    requires CallsMade(store, operation, p, called, transport, recording)
    requires !p.mode.Strategy?
             || (operation in store.policies && store.policies[operation].fallbackMode == "disabled")
             || (!store.allowFallback
                 && !(operation in store.policies && store.policies[operation].fallbackMode == "enabled"))
    ensures |called| <= 1
  {
  }

  // Stored as "enabled", a listed failure of the first service is followed by a call
  // of a second one even if the global flag is off.
  lemma EnabledReachesSecond(store: Policy.Store, operation: string, most: int, categories: seq<string>, p: Preview,
                             called: seq<string>, transport: Transport, recording: bool)
    requires CallsMade(store, operation, p, called, transport, recording) && Routed(p) && p.selected != ""
    requires operation in store.policies && store.policies[operation].fallbackMode == "enabled"
    requires Governs(store, operation, true, most, categories) && most != 1
    requires p.mode.Strategy? && Offered(p) >= 2 && recording
    requires transport(p.selected).Failed? && Recorded(transport(p.selected)) in categories
    ensures |called| >= 2 && called[0] == p.selected && called[1] in p.chain
  {
    ChainLength(p.selected, p.chain);
    NextCallIff(store, operation, true, most, categories, p, called, transport, recording, 0);
    CallsFollowChain(store, operation, p, called, transport, recording, 0);
    CallsFollowChain(store, operation, p, called, transport, recording, 1);
  }

  // ----- what calls do to later requests

  // The calls as the cooling manager sees them: only recorded failures of the three
  // categories that a service answers for count.
  function CallEvents(called: seq<string>, transport: Transport, recording: bool, clock: nat -> nat): seq<Cooling.Event> {
    if called == [] then []
    else
      var last := called[|called| - 1];
      CallEvents(called[..|called| - 1], transport, recording, clock)
      + [EventOf(last, transport(last), recording, clock(|called|))]
  }

  function EventOf(service: string, result: CallResult, recording: bool, at: nat): Cooling.Event {
    match result
    case Answered => Cooling.Success(service, at)
    case Failed(_) =>
      Cooling.Failure(service, Recorded(result),
                      recording && Recorded(result) in ["delegation_error", "transport_error", "timeout_error"], at)
  }

  ghost predicate GoesForward(clock: nat -> nat) {
    forall i: nat :: clock(i) <= clock(i + 1)
  }

  // Over any calls the cooling states develop as over that history, whichever looks at
  // them came in between.
  lemma {:induction false} CallsAreEvents(cfg: Cooling.Config, recording: bool, events: seq<Cooling.Event>,
                                          states: map<string, Cooling.State>, called: seq<string>,
                                          transport: Transport, clock: nat -> nat)
    requires GoesForward(clock) && Cooling.Alike(states, Cooling.Run(cfg, events), clock(0))
    ensures Cooling.Alike(CooledAfter(cfg, recording, states, called, transport, clock),
                          Cooling.Run(cfg, events + CallEvents(called, transport, recording, clock)), clock(|called|))
  {
    var history := CallEvents(called, transport, recording, clock);
    if called == [] {
      assert events + history == events;
    } else {
      var n := |called| - 1;
      var last := called[n];
      var before := CallEvents(called[..n], transport, recording, clock);
      var e := EventOf(last, transport(last), recording, clock(n + 1));
      CallsAreEvents(cfg, recording, events, states, called[..n], transport, clock);
      var reached := CooledAfter(cfg, recording, states, called[..n], transport, clock);
      CallIsEvent(cfg, recording, reached, last, transport(last), clock(n + 1));
      RunOfMore(cfg, events + before, e);
      assert events + history == (events + before) + [e];
      Cooling.ApplyKeepsAlike(cfg, reached, Cooling.Run(cfg, events + before), e, clock(n));
    }
  }

  lemma CallIsEvent(cfg: Cooling.Config, recording: bool, states: map<string, Cooling.State>, service: string,
                    result: CallResult, at: nat)
    ensures states[service := Dispatch.CooledBy(cfg, recording, Cooling.Cell(states, service), result, at)]
            == Cooling.Apply(cfg, states, EventOf(service, result, recording, at))
  {
  }

  lemma RunOfMore(cfg: Cooling.Config, events: seq<Cooling.Event>, e: Cooling.Event)
    ensures Cooling.Run(cfg, events + [e]) == Cooling.Apply(cfg, Cooling.Run(cfg, events), e)
  {
    assert (events + [e])[..|events|] == events;
  }

  // So a service is cooled for the next request iff a trigger among all failures, past
  // and new, since its last reset covers the time of that request.
  lemma CooledForNextIff(cfg: Cooling.Config, recording: bool, events: seq<Cooling.Event>,
                         states: map<string, Cooling.State>, called: seq<string>, transport: Transport,
                         clock: nat -> nat, service: string, later: nat)
    requires cfg.Valid() && GoesForward(clock) && Cooling.Alike(states, Cooling.Run(cfg, events), clock(0))
    requires Cooling.Clocked(events, clock(0)) && later >= clock(|called|)
    ensures IsCooledAt(CooledAfter(cfg, recording, states, called, transport, clock), service, later)
            <==> Cooling.CooledBy(cfg, events + CallEvents(called, transport, recording, clock), service, later)
  {
    CallsAreEvents(cfg, recording, events, states, called, transport, clock);
    CallsAreClocked(events, called, transport, recording, clock, later);
    Cooling.ManagerMatchesHistory(cfg, events + CallEvents(called, transport, recording, clock), service, later);
  }

  lemma {:induction false} CallsAreClocked(events: seq<Cooling.Event>, called: seq<string>, transport: Transport,
                                           recording: bool, clock: nat -> nat, later: nat)
    requires GoesForward(clock) && Cooling.Clocked(events, clock(0)) && later >= clock(|called|)
    ensures Cooling.Clocked(events + CallEvents(called, transport, recording, clock), later)
  {
    var history := CallEvents(called, transport, recording, clock);
    if called == [] {
      assert events + history == events;
    } else {
      var n := |called| - 1;
      var before := CallEvents(called[..n], transport, recording, clock);
      CallsAreClocked(events, called[..n], transport, recording, clock, clock(n));
      assert events + history == (events + before) + [history[|history| - 1]];
    }
  }
}
