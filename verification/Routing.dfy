// Route resolution (service/base/routing/resolver.go): which candidates are
// eligible, in which order they are tried, and which one is selected.
module Routing {
  import opened Ordering
  import opened Text
  import opened ServiceRegistry
  import Selector
  import Cooling
  import Stats

  type Choice = Selector.Candidate

  datatype RequestMode = Strategy | Specified | OtherMode(name: string)

  const VALIDATION_ERROR := "validation_error"
  const UNSUPPORTED := "unsupported_operation"
  const NO_SERVICE := "no_service_available"
  const NOT_FOUND := "service_not_found"
  const DISABLED := "service_disabled"
  const UNAVAILABLE := "service_unavailable"
  const COOLED := "service_cooled"

  datatype Candidate = Candidate(
    service: string, language: string, cooled: bool, activeRequests: int,
    eligible: bool, exclusion: string, inScope: bool, selected: bool)

  datatype Reason = NoReason | CallerSelected | BySelector | ByLanguage | ByPreference

  datatype RouteError = RouteError(category: string, service: string)

  datatype Preview = Preview(
    mode: RequestMode, selected: string, reason: Reason, chain: seq<string>,
    candidates: seq<Candidate>, error: Option<RouteError>)

  // ----- evaluating candidates

  function Evaluate(s: Service, operation: string, cooled: bool, active: int): Candidate {
    var exclusion :=
      if operation == "" then VALIDATION_ERROR
      else if !s.enabled then DISABLED
      else if !s.Supports(operation) then UNSUPPORTED
      else if s.healthKnown && !s.healthy then UNAVAILABLE
      else if cooled then COOLED
      else "";
    Candidate(s.name, s.language, operation != "" && cooled, active, exclusion == "", exclusion, false, false)
  }

  function IsCooledAt(states: map<string, Cooling.State>, service: string, now: nat): bool {
    Cooling.Current(Cooling.Cell(states, service), now).cooled
  }

  // The i-th listed service as a candidate.
  function CandidateAt(services: seq<Service>, i: nat, operation: string,
                       states: map<string, Cooling.State>, tables: Stats.Tables, now: nat): Candidate
    requires i < |services|
  {
    Evaluate(services[i], operation, IsCooledAt(states, services[i].name, now),
             Stats.ServiceRow(tables, services[i].name).active)
  }

  ghost predicate Evaluated(cs: seq<Candidate>, services: seq<Service>, operation: string,
                            states: map<string, Cooling.State>, tables: Stats.Tables, now: nat)
  {
    |cs| == |services| && forall i :: 0 <= i < |cs| ==> cs[i] == CandidateAt(services, i, operation, states, tables, now)
  }

  ghost predicate DistinctServices(cs: seq<Candidate>) {
    forall i, j :: 0 <= i < j < |cs| ==> cs[i].service != cs[j].service
  }

  // ----- the selection scope and its order

  predicate IsEligible(c: Candidate) { c.eligible }

  function Speaks(language: string): Candidate -> bool {
    (c: Candidate) => Lower(c.language) == Lower(language)
  }

  // Eligible candidates, narrowed to the preferred language if any speak it.
  function Scope(cs: seq<Candidate>, language: string): seq<Candidate> {
    var eligible := Filter(cs, IsEligible);
    var narrowed := Filter(eligible, Speaks(language));
    if language != "" && narrowed != [] then narrowed else eligible
  }

  function ToChoices(cs: seq<Candidate>): (r: seq<Choice>)
    ensures |r| == |cs|
    ensures forall i :: 0 <= i < |cs| ==> r[i] == Selector.Candidate(cs[i].service, cs[i].activeRequests)
  {
    if cs == [] then []
    else ToChoices(cs[..|cs| - 1])
         + [Selector.Candidate(cs[|cs| - 1].service, cs[|cs| - 1].activeRequests)]
  }

  function Names(cs: seq<Choice>): (names: seq<string>)
    ensures |names| == |cs|
    ensures forall i :: 0 <= i < |cs| ==> names[i] == cs[i].service
  {
    if cs == [] then [] else Names(cs[..|cs| - 1]) + [cs[|cs| - 1].service]
  }

  ghost predicate DistinctNames(cs: seq<Choice>) {
    forall i, j :: 0 <= i < j < |cs| ==> cs[i].service != cs[j].service
  }

  function ByName(cs: seq<Choice>): (m: map<string, Choice>)
    ensures forall n :: n in m ==> m[n] in cs && m[n].service == n
    ensures forall c :: c in cs ==> c.service in m
  {
    if cs == [] then map[]
    else
      assert cs == cs[..|cs| - 1] + [cs[|cs| - 1]];
      ByName(cs[..|cs| - 1])[cs[|cs| - 1].service := cs[|cs| - 1]]
  }

  // The candidates the preference list names, in its order.
  function Preferred(byName: map<string, Choice>, preferences: seq<string>): (r: seq<Choice>)
    ensures forall c :: c in r ==> exists p :: p in preferences && p in byName && byName[p] == c
    ensures forall p :: p in preferences && p in byName ==> byName[p] in r
  {
    if preferences == [] then []
    else
      var before, last := preferences[..|preferences| - 1], preferences[|preferences| - 1];
      assert preferences == before + [last];
      Preferred(byName, before) + if last in byName then [byName[last]] else []
  }

  function NotNamed(preferences: seq<string>): Choice -> bool {
    (c: Choice) => c.service !in preferences
  }

  function WithPreference(cs: seq<Choice>, preferences: seq<string>): seq<Choice> {
    if preferences == [] then cs
    else Preferred(ByName(cs), preferences) + Filter(cs, NotNamed(preferences))
  }

  function Ordered(scope: seq<Candidate>, language: string, preferences: seq<string>): seq<Choice> {
    var sorted := Selector.SortedCandidates(ToChoices(scope));
    if language == "" then WithPreference(sorted, preferences) else sorted
  }

  // c comes before d: preferred services first, in preference order, then by load and name.
  ghost predicate Precedes(c: Choice, d: Choice, preferences: seq<string>) {
    if c.service in preferences then
      d.service in preferences ==>
        exists i, j :: 0 <= i < j < |preferences| && preferences[i] == c.service && preferences[j] == d.service
    else d.service !in preferences && Selector.CandidateLe(c, d)
  }

  lemma DistinctStays(cs: seq<Choice>, ds: seq<Choice>)
    requires DistinctNames(cs) && multiset(cs) == multiset(ds)
    ensures DistinctNames(ds)
  {
    PermutationHasNoDuplicates(cs, ds);
    forall i, j | 0 <= i < j < |ds| ensures ds[i].service != ds[j].service {
      assert ds[i] in multiset(cs) && ds[j] in multiset(cs);
    }
  }

  lemma {:induction false} PreferredIsDistinct(byName: map<string, Choice>, preferences: seq<string>)
    requires forall n :: n in byName ==> byName[n].service == n && multiset(preferences)[n] <= 1
    ensures DistinctNames(Preferred(byName, preferences))
    ensures forall i, j :: 0 <= i < j < |Preferred(byName, preferences)| ==>
              Precedes(Preferred(byName, preferences)[i], Preferred(byName, preferences)[j], preferences)
  {
    if preferences != [] {
      var n := |preferences| - 1;
      var before, last := preferences[..n], preferences[n];
      assert preferences == before + [last];
      PreferredIsDistinct(byName, before);
      var r := Preferred(byName, preferences);
      assert last in byName ==> last !in before by {
        assert multiset(preferences)[last] == multiset(before)[last] + 1;
        assert last in before <==> last in multiset(before);
      }
      forall i, j | 0 <= i < j < |r|
        ensures r[i].service != r[j].service && Precedes(r[i], r[j], preferences)
      {
        var prefix := Preferred(byName, before);
        assert r[i] == prefix[i] && r[i] in prefix;
        if j < |prefix| {
          assert Precedes(prefix[i], prefix[j], before);
          assert prefix[j] in prefix;
          var a, b :| 0 <= a < b < |before| && before[a] == r[i].service && before[b] == r[j].service;
          assert preferences[a] == r[i].service && preferences[b] == r[j].service;
        } else {
          var a :| 0 <= a < |before| && before[a] == r[i].service;
          assert preferences[a] == r[i].service && preferences[n] == r[j].service;
        }
      }
    }
  }

  lemma {:induction false} FilterKeepsOrder(cs: seq<Choice>, keep: Choice -> bool)
    requires DistinctNames(cs) && InOrder(cs, Selector.CandidateLe)
    ensures DistinctNames(Filter(cs, keep)) && InOrder(Filter(cs, keep), Selector.CandidateLe)
  {
    if cs != [] {
      var before, last := cs[..|cs| - 1], cs[|cs| - 1];
      FilterKeepsOrder(before, keep);
      forall c | c in Filter(before, keep) ensures c.service != last.service && Selector.CandidateLe(c, last) {
        assert c in before;
      }
    }
  }

  lemma SameElements(a: seq<Choice>, b: seq<Choice>)
    requires DistinctNames(a) && DistinctNames(b)
    requires forall c :: c in a <==> c in b
    ensures multiset(a) == multiset(b)
  {
    forall c ensures multiset(a)[c] == multiset(b)[c] {
      OccursOnce(a, c);
      OccursOnce(b, c);
      assert c in multiset(a) <==> c in a;
      assert c in multiset(b) <==> c in b;
    }
  }

  // No candidate is named twice; the list may repeat other names.
  ghost predicate NamedOnce(cs: seq<Choice>, preferences: seq<string>) {
    forall c :: c in cs ==> multiset(preferences)[c.service] <= 1
  }

  lemma NoDuplicatesNameOnce(cs: seq<Choice>, preferences: seq<string>)
    requires NoDuplicates(preferences)
    ensures NamedOnce(cs, preferences)
  {
    forall c | c in cs ensures multiset(preferences)[c.service] <= 1 { OccursOnce(preferences, c.service); }
  }

  // With distinct names and no candidate named twice the chain is a permutation of
  // the scope, preferred services first in preference order and the rest by load
  // and name.
  lemma PreferenceOrdersPermutation(cs: seq<Choice>, preferences: seq<string>)
    requires DistinctNames(cs) && InOrder(cs, Selector.CandidateLe) && NamedOnce(cs, preferences)
    ensures var ordered := WithPreference(cs, preferences);
            && multiset(ordered) == multiset(cs)
            && DistinctNames(ordered)
            && forall i, j :: 0 <= i < j < |ordered| ==> Precedes(ordered[i], ordered[j], preferences)
  {
    if preferences != [] {
      var front, back := Preferred(ByName(cs), preferences), Filter(cs, NotNamed(preferences));
      PreferredIsDistinct(ByName(cs), preferences);
      FilterKeepsOrder(cs, NotNamed(preferences));
      var ordered := front + back;
      forall i, j | 0 <= i < j < |ordered|
        ensures ordered[i].service != ordered[j].service && Precedes(ordered[i], ordered[j], preferences)
      {
        if i < |front| { assert front[i] in front; }
        if j >= |front| { assert back[j - |front|] in back; }
        if i >= |front| { assert back[i - |front|] in back; }
      }
      forall c ensures c in ordered <==> c in cs {
        if c in cs && c.service in preferences {
          OnlyNamed(cs, c);
          assert ByName(cs)[c.service] in front;
        }
      }
      SameElements(ordered, cs);
    }
  }

  lemma OnlyNamed(cs: seq<Choice>, c: Choice)
    requires DistinctNames(cs) && c in cs
    ensures c.service in ByName(cs) && ByName(cs)[c.service] == c
  {
    var d := ByName(cs)[c.service];
    var i :| 0 <= i < |cs| && cs[i] == c;
    var j :| 0 <= j < |cs| && cs[j] == d;
  }

  lemma {:induction false} PreferredCount(byName: map<string, Choice>, preferences: seq<string>, c: Choice)
    requires forall n :: n in byName ==> byName[n].service == n
    requires c.service in byName && byName[c.service] == c
    ensures multiset(Preferred(byName, preferences))[c] == multiset(preferences)[c.service]
  {
    if preferences != [] {
      var before, last := preferences[..|preferences| - 1], preferences[|preferences| - 1];
      assert preferences == before + [last];
      PreferredCount(byName, before, c);
    }
  }

  lemma {:induction false} FilterCount(cs: seq<Choice>, keep: Choice -> bool, c: Choice)
    ensures multiset(Filter(cs, keep))[c] == if keep(c) then multiset(cs)[c] else 0
  {
    if cs != [] {
      assert cs == cs[..|cs| - 1] + [cs[|cs| - 1]];
      FilterCount(cs[..|cs| - 1], keep, c);
    }
  }

  // A candidate comes into the chain as often as the preference list names it, and
  // once if it does not.
  lemma PreferenceMultiplicity(cs: seq<Choice>, preferences: seq<string>, c: Choice)
    requires DistinctNames(cs) && c in cs
    ensures multiset(WithPreference(cs, preferences))[c] == Max(1, multiset(preferences)[c.service])
  {
    OccursOnce(cs, c);
    assert c in multiset(cs);
    if preferences != [] {
      OnlyNamed(cs, c);
      PreferredCount(ByName(cs), preferences, c);
      FilterCount(cs, NotNamed(preferences), c);
      assert c.service in preferences <==> c.service in multiset(preferences);
    }
  }

  // The chain is a permutation of the scope iff no candidate is named twice.
  lemma PermutationIff(cs: seq<Choice>, preferences: seq<string>)
    requires DistinctNames(cs)
    ensures multiset(WithPreference(cs, preferences)) == multiset(cs) <==> NamedOnce(cs, preferences)
  {
    var ordered := WithPreference(cs, preferences);
    forall c
      ensures multiset(ordered)[c] == if c in cs then Max(1, multiset(preferences)[c.service]) else 0
      ensures multiset(cs)[c] == if c in cs then 1 else 0
    {
      assert c in multiset(cs) <==> c in cs;
      assert c in multiset(ordered) <==> c in ordered;
      if c in cs {
        PreferenceMultiplicity(cs, preferences, c);
        OccursOnce(cs, c);
      }
    }
    if multiset(ordered) == multiset(cs) {
      forall c | c in cs ensures multiset(preferences)[c.service] <= 1 { assert multiset(ordered)[c] == 1; }
    }
  }

  // One candidate named twice is in the chain twice.
  lemma DuplicatePreferenceDuplicates()
    ensures var cs := [Selector.Candidate("a", 0)];
            DistinctNames(cs) && WithPreference(cs, ["a", "a"]) == cs + cs
  {
    var c := Selector.Candidate("a", 0);
    assert ["a", "a"][..1] == ["a"] && ["a"][..0] == [];
    assert [c][..0] == [];
    assert Filter([c], NotNamed(["a", "a"])) == [];
    assert ByName([c]) == map["a" := c];
  }

  // ----- what a preview promises

  // The candidates with the scope and the selection marked on them.
  ghost predicate Marked(marked: seq<Candidate>, cs: seq<Candidate>, chain: seq<string>, selected: string) {
    |marked| == |cs| && forall i :: 0 <= i < |cs| ==>
      marked[i] == cs[i].(inScope := cs[i].service in chain, selected := cs[i].service == selected)
  }

  // The outcome of resolving in strategy mode.
  ghost predicate StrategyRoute(p: Preview, cs: seq<Candidate>, language: string, preferences: seq<string>) {
    var ordered := Ordered(Scope(cs, language), language, preferences);
    if forall c :: c in cs ==> !c.eligible then
      p.error == Some(RouteError(NO_SERVICE, "")) && p.selected == "" && p.chain == [] && p.candidates == cs
    else
      && p.error.None?
      && p.chain == Names(ordered)
      && p.selected in p.chain
      && Marked(p.candidates, cs, p.chain, p.selected)
      && (p.reason.ByPreference? <==>
            language == "" && exists n :: n in p.chain && n in preferences)
      && (p.reason.ByLanguage? <==> Narrowed(cs, language))
      && (p.reason.ByPreference? || p.reason.ByLanguage? || p.reason.BySelector?)
      && (p.reason.ByPreference? ==> p.selected == p.chain[0])
  }

  // Some eligible candidate speaks the language asked for.
  predicate Narrowed(cs: seq<Candidate>, language: string) {
    language != "" && Filter(Filter(cs, IsEligible), Speaks(language)) != []
  }

  // Where no preference decides, the selected service is the selector's pick.
  ghost predicate LeftToSelector(p: Preview, cs: seq<Candidate>, language: string, preferences: seq<string>,
                                 mode: Selector.Mode, counter: nat, draw: nat)
  {
    p.error.None? && !p.reason.ByPreference? ==>
      Some(p.selected)
      == PickedName(Selector.PickBy(mode, Ordered(Scope(cs, language), language, preferences), counter, draw))
  }

  // The requested candidate is marked as the scope, and none as selected.
  ghost predicate Scoped(marked: seq<Candidate>, cs: seq<Candidate>, requested: string) {
    |marked| == |cs| && forall i :: 0 <= i < |cs| ==>
      marked[i] == cs[i].(inScope := cs[i].service == requested, selected := false)
  }

  // The outcome of resolving for a requested service.
  ghost predicate SpecifiedRoute(p: Preview, cs: seq<Candidate>, requested: string) {
    if requested == "" then
      p.error == Some(RouteError(VALIDATION_ERROR, "")) && p.selected == "" && p.chain == [] && p.candidates == cs
    else if forall c :: c in cs ==> c.service != requested then
      p.error == Some(RouteError(NOT_FOUND, requested)) && p.selected == "" && p.chain == [] && p.candidates == cs
    else
      && p.chain == [requested]
      && (forall c :: c in cs && c.service == requested ==>
            if c.eligible then
              && p.error.None? && p.selected == requested && p.reason.CallerSelected?
              && Marked(p.candidates, cs, [requested], requested)
            else
              && p.error == Some(RouteError(c.exclusion, requested)) && p.selected == ""
              && Scoped(p.candidates, cs, requested))
  }

  lemma ScopeIsEligible(cs: seq<Candidate>, language: string)
    ensures forall c :: c in Scope(cs, language) ==> c in cs && c.eligible
    ensures Scope(cs, language) == [] <==> forall c :: c in cs ==> !c.eligible
  {
    var eligible := Filter(cs, IsEligible);
    if eligible != [] { assert eligible[0] in eligible; }
    if Scope(cs, language) == [] {
      forall c | c in cs && c.eligible ensures c in eligible {}
    }
  }

  lemma {:induction false} FilterKeepsDistinct(cs: seq<Candidate>, keep: Candidate -> bool)
    requires DistinctServices(cs)
    ensures DistinctServices(Filter(cs, keep))
  {
    if cs != [] {
      var before, last := cs[..|cs| - 1], cs[|cs| - 1];
      FilterKeepsDistinct(before, keep);
      forall c | c in Filter(before, keep) ensures c.service != last.service { assert c in before; }
    }
  }

  lemma ScopeIsDistinct(cs: seq<Candidate>, language: string)
    requires DistinctServices(cs)
    ensures DistinctServices(Scope(cs, language))
  {
    FilterKeepsDistinct(cs, IsEligible);
    FilterKeepsDistinct(Filter(cs, IsEligible), Speaks(language));
  }

  // The chain of a scope: a permutation of it in the promised order.
  lemma ChainIsOrderedScope(cs: seq<Candidate>, language: string, preferences: seq<string>)
    requires DistinctServices(cs) && NoDuplicates(preferences)
    ensures var scope := Scope(cs, language);
            var ordered := Ordered(scope, language, preferences);
            && multiset(ordered) == multiset(ToChoices(scope))
            && DistinctNames(ordered) && NoDuplicates(Names(ordered))
            && (forall i, j :: 0 <= i < j < |ordered| ==>
                  Precedes(ordered[i], ordered[j], if language == "" then preferences else []))
  {
    ScopeIsDistinct(cs, language);
    OrderedIsPermutation(Scope(cs, language), language, preferences);
  }

  lemma OrderedIsPermutation(scope: seq<Candidate>, language: string, preferences: seq<string>)
    requires DistinctServices(scope) && NoDuplicates(preferences)
    ensures var ordered := Ordered(scope, language, preferences);
            && multiset(ordered) == multiset(ToChoices(scope))
            && DistinctNames(ordered) && NoDuplicates(Names(ordered))
            && (forall i, j :: 0 <= i < j < |ordered| ==>
                  Precedes(ordered[i], ordered[j], if language == "" then preferences else []))
  {
    var sorted := Selector.SortedCandidates(ToChoices(scope));
    DistinctStays(ToChoices(scope), sorted);
    Selector.SortedIsOrdered(ToChoices(scope));
    NoDuplicatesNameOnce(sorted, preferences);
    PreferenceOrdersPermutation(sorted, if language == "" then preferences else []);
  }

  // Every name in the chain is that of an eligible candidate.
  lemma ChainNamesEligible(cs: seq<Candidate>, language: string, preferences: seq<string>)
    requires DistinctServices(cs) && NoDuplicates(preferences)
    ensures forall name :: name in Names(Ordered(Scope(cs, language), language, preferences)) ==>
              exists c :: c in cs && c.service == name && c.eligible
  {
    var scope := Scope(cs, language);
    var ordered := Ordered(scope, language, preferences);
    ScopeIsEligible(cs, language);
    ChainIsOrderedScope(cs, language, preferences);
    forall name | name in Names(ordered) ensures exists c :: c in cs && c.service == name && c.eligible {
      var k :| 0 <= k < |ordered| && Names(ordered)[k] == name;
      assert ordered[k] in multiset(ToChoices(scope));
      var m :| 0 <= m < |scope| && ToChoices(scope)[m] == ordered[k];
      assert scope[m] in scope;
    }
  }

  // With distinct services exactly one candidate of a route is marked selected,
  // it is eligible, and it is in the chain.
  lemma ExactlyOneIsSelected(p: Preview, cs: seq<Candidate>, language: string, preferences: seq<string>)
    requires DistinctServices(cs) && NoDuplicates(preferences)
    ensures StrategyRoute(p, cs, language, preferences) && p.error.None? ==>
              exists i :: 0 <= i < |p.candidates| && p.candidates[i].selected && p.candidates[i].eligible
                          && p.candidates[i].inScope
                          && forall j :: 0 <= j < |p.candidates| && p.candidates[j].selected ==> j == i
  {
    if StrategyRoute(p, cs, language, preferences) && p.error.None? {
      ChainNamesEligible(cs, language, preferences);
      OneMarked(p.candidates, cs, p.chain, p.selected);
    }
  }

  lemma OneMarked(marked: seq<Candidate>, cs: seq<Candidate>, chain: seq<string>, selected: string)
    requires DistinctServices(cs) && Marked(marked, cs, chain, selected) && selected in chain
    requires exists c :: c in cs && c.service == selected && c.eligible
    ensures exists i :: 0 <= i < |marked| && marked[i].selected && marked[i].eligible && marked[i].inScope
                        && forall j :: 0 <= j < |marked| && marked[j].selected ==> j == i
  {
    var c :| c in cs && c.service == selected && c.eligible;
    var i :| 0 <= i < |cs| && cs[i] == c;
    assert marked[i].selected && marked[i].eligible && marked[i].inScope;
  }

  // ----- the loops of the resolver

  method EligibleCandidates(cs: seq<Candidate>) returns (eligible: seq<Candidate>)
    ensures eligible == Filter(cs, IsEligible)
  {
    eligible := [];
    for i := 0 to |cs|
      invariant eligible == Filter(cs[..i], IsEligible)
    {
      assert cs[..i + 1][..i] == cs[..i];
      if !cs[i].eligible {
        continue;
      }
      eligible := eligible + [cs[i]];
    }
    assert cs[..|cs|] == cs;
  }

  method NarrowByPreferredLanguage(cs: seq<Candidate>, language: string) returns (narrowed: seq<Candidate>)
    ensures narrowed == Filter(cs, Speaks(language))
  {
    narrowed := [];
    for i := 0 to |cs|
      invariant narrowed == Filter(cs[..i], Speaks(language))
    {
      assert cs[..i + 1][..i] == cs[..i];
      if Lower(cs[i].language) == Lower(language) {
        narrowed := narrowed + [cs[i]];
      }
    }
    assert cs[..|cs|] == cs;
  }

  method OrderWithPreference(cs: seq<Choice>, preferences: seq<string>) returns (ordered: seq<Choice>)
    ensures ordered == WithPreference(cs, preferences)
  {
    if preferences == [] {
      return cs;
    }
    var byName := IndexByName(cs);
    var seen: set<string>;
    ordered, seen := TakePreferred(byName, preferences);
    ghost var front := ordered;
    for i := 0 to |cs|
      invariant ordered == front + Filter(cs[..i], NotNamed(preferences))
    {
      assert cs[..i + 1][..i] == cs[..i];
      assert cs[i].service in byName;
      if cs[i].service in seen {
        continue;
      }
      ordered := ordered + [cs[i]];
    }
    assert cs[..|cs|] == cs;
  }

  method IndexByName(cs: seq<Choice>) returns (byName: map<string, Choice>)
    ensures byName == ByName(cs)
  {
    byName := map[];
    for i := 0 to |cs|
      invariant byName == ByName(cs[..i])
    {
      assert cs[..i + 1][..i] == cs[..i];
      byName := byName[cs[i].service := cs[i]];
    }
    assert cs[..|cs|] == cs;
  }

  method TakePreferred(byName: map<string, Choice>, preferences: seq<string>)
    returns (ordered: seq<Choice>, seen: set<string>)
    ensures ordered == Preferred(byName, preferences)
    ensures seen == set p | p in preferences && p in byName
  {
    ordered, seen := [], {};
    for i := 0 to |preferences|
      invariant ordered == Preferred(byName, preferences[..i])
      invariant seen == set p | p in preferences[..i] && p in byName
    {
      assert preferences[..i + 1] == preferences[..i] + [preferences[i]];
      if preferences[i] !in byName {
        continue;
      }
      ordered := ordered + [byName[preferences[i]]];
      seen := seen + {preferences[i]};
    }
    assert preferences[..|preferences|] == preferences;
  }

  method ContainsPreferred(cs: seq<Choice>, preferences: seq<string>) returns (found: bool)
    ensures found <==> exists n :: n in Names(cs) && n in preferences
  {
    for i := 0 to |cs|
      invariant forall k :: 0 <= k < i ==> cs[k].service !in preferences
    {
      if cs[i].service in preferences {
        assert Names(cs)[i] in preferences;
        return true;
      }
    }
    return false;
  }

  method MarkRoute(cs: seq<Candidate>, chain: seq<string>, selected: string) returns (marked: seq<Candidate>)
    requires DistinctServices(cs) && forall c :: c in cs ==> !c.inScope && !c.selected
    ensures Marked(marked, cs, chain, selected)
  {
    marked := cs;
    for i := 0 to |cs|
      invariant |marked| == |cs|
      invariant forall k :: 0 <= k < |cs| ==>
                  marked[k] == cs[k].(inScope := k < i && cs[k].service in chain)
    {
      assert cs[i] in cs;
      if marked[i].service in chain {
        marked := marked[i := marked[i].(inScope := true)];
      }
    }
    for i := 0 to |cs|
      invariant |marked| == |cs|
      invariant forall k :: 0 <= k < |cs| ==> marked[k] == cs[k].(inScope := cs[k].service in chain)
      invariant forall k :: 0 <= k < i ==> cs[k].service != selected
    {
      assert cs[i] in cs;
      if marked[i].service == selected {
        marked := marked[i := marked[i].(selected := true)];
        forall k | 0 <= k < |cs|
          ensures marked[k] == cs[k].(inScope := cs[k].service in chain, selected := cs[k].service == selected)
        {
          assert cs[k] in cs;
        }
        return;
      }
    }
    forall k | 0 <= k < |cs|
      ensures marked[k] == cs[k].(inScope := cs[k].service in chain, selected := cs[k].service == selected)
    {
      assert cs[k] in cs;
    }
  }

  // The ordered selection scope, and what decided the order.
  method OrderScope(cs: seq<Candidate>, language: string, preferred: seq<string>)
    returns (ordered: seq<Choice>, reason: Reason)
    ensures ordered == [] <==> forall c :: c in cs ==> !c.eligible
    ensures ordered != [] ==> ordered == Ordered(Scope(cs, language), language, preferred)
    ensures reason.ByPreference? <==> language == "" && exists n :: n in Names(ordered) && n in preferred
    ensures ordered != [] ==> (reason.ByLanguage? <==> Narrowed(cs, language))
    ensures ordered != [] ==> reason.ByPreference? || reason.ByLanguage? || reason.BySelector?
  {
    var eligible := EligibleCandidates(cs);
    ScopeIsEligible(cs, language);
    if eligible == [] {
      return [], NoReason;
    }
    var scope := eligible;
    reason := BySelector;
    if language != "" {
      var narrowed := NarrowByPreferredLanguage(eligible, language);
      if |narrowed| > 0 {
        scope, reason := narrowed, ByLanguage;
      }
    }
    ordered := Selector.SortedCandidates(ToChoices(scope));
    SomethingOrdered(scope, language, preferred);
    if language == "" && |preferred| > 0 {
      ordered := OrderWithPreference(ordered, preferred);
      var found := ContainsPreferred(ordered, preferred);
      if found {
        reason := ByPreference;
      }
    }
  }

  lemma SomethingOrdered(scope: seq<Candidate>, language: string, preferred: seq<string>)
    requires scope != []
    ensures Ordered(scope, language, preferred) != []
  {
    var sorted := Selector.SortedCandidates(ToChoices(scope));
    if language == "" && preferred != [] {
      assert sorted[0] in sorted;
      if sorted[0].service in preferred {
        assert ByName(sorted)[sorted[0].service] in Preferred(ByName(sorted), preferred);
      } else {
        assert sorted[0] in Filter(sorted, NotNamed(preferred));
      }
    }
  }

  // ----- the resolver

  datatype Request = Request(mode: RequestMode, operation: string, requested: string, language: string)

  class Resolver {
    const registry: Registry
    const cooling: Cooling.Manager
    const selector: Selector.Selector
    const stats: Stats.Manager
    const preferences: map<string, seq<string>>

    constructor (registry: Registry, cooling: Cooling.Manager, selector: Selector.Selector,
                 stats: Stats.Manager, preferences: map<string, seq<string>>)
      ensures this.registry == registry && this.cooling == cooling && this.selector == selector
      ensures this.stats == stats && this.preferences == preferences
    {
      this.registry, this.cooling, this.selector, this.stats := registry, cooling, selector, stats;
      this.preferences := preferences;
    }

    ghost predicate Valid()
      reads this, registry, selector
    {
      registry.Valid() && selector.counter < Selector.WRAP
    }

    function PreferencesOf(operation: string): seq<string>
    {
      if operation in preferences then preferences[operation] else []
    }

    // The registered services as candidates; looking at the cooling states
    // changes no later answer.
    method EvaluateCandidates(operation: string, now: nat) returns (cs: seq<Candidate>, ghost services: seq<Service>)
      requires Valid()
      modifies cooling
      ensures Lists(services, registry.services)
      ensures Evaluated(cs, services, operation, old(cooling.states), stats.View(), now)
      ensures Cooling.Alike(cooling.states, old(cooling.states), now)
      ensures DistinctServices(cs) && forall c :: c in cs ==> !c.inScope && !c.selected
    {
      var list := registry.List();
      services := list;
      cs := [];
      for i := 0 to |list|
        invariant |cs| == i && Cooling.Alike(cooling.states, old(cooling.states), now)
        invariant forall k :: 0 <= k < i ==>
                    cs[k] == CandidateAt(list, k, operation, old(cooling.states), stats.View(), now)
      {
        var service := list[i];
        var active := stats.ActiveRequests(service.name);
        var cooled := false;
        if operation != "" {
          ghost var before := cooling.states;
          cooled := cooling.IsCooled(service.name, now);
          Cooling.LookKeepsAlike(cooling.cfg, before, Cooling.Look(service.name, now));
        }
        cs := cs + [Evaluate(service, operation, cooled, active)];
      }
    }

    method PickService(ordered: seq<Choice>, draw: nat) returns (service: string)
      requires Valid() && ordered != []
      modifies selector
      ensures Valid() && service in Names(ordered)
      ensures Some(service) == PickedName(Selector.PickBy(selector.mode, ordered, old(selector.counter), draw))
    {
      var picked := selector.Select(ordered, draw);
      var k :| 0 <= k < |ordered| && ordered[k] == picked.value;
      service := picked.value.service;
      assert Names(ordered)[k] in Names(ordered);
    }

    method PreviewStrategy(mode: RequestMode, cs: seq<Candidate>, language: string, preferred: seq<string>, draw: nat)
      returns (p: Preview)
      requires Valid() && DistinctServices(cs) && forall c :: c in cs ==> !c.inScope && !c.selected
      modifies selector
      ensures Valid() && p.mode == mode && StrategyRoute(p, cs, language, preferred)
      ensures LeftToSelector(p, cs, language, preferred, selector.mode, old(selector.counter), draw)
    {
      var ordered, reason := OrderScope(cs, language, preferred);
      if ordered == [] {
        return Preview(mode, "", NoReason, [], cs, Some(RouteError(NO_SERVICE, "")));
      }
      var chain := Names(ordered);
      var selected := ordered[0].service;
      assert chain[0] in chain;
      if !reason.ByPreference? {
        selected := PickService(ordered, draw);
      }
      var marked := MarkRoute(cs, chain, selected);
      p := Preview(mode, selected, reason, chain, marked, None);
    }

    method PreviewSpecified(mode: RequestMode, cs: seq<Candidate>, requested: string) returns (p: Preview)
      requires DistinctServices(cs) && forall c :: c in cs ==> !c.inScope && !c.selected
      requires forall c :: c in cs && !c.eligible ==> c.exclusion != ""
      ensures p.mode == mode && SpecifiedRoute(p, cs, requested)
    {
      if requested == "" {
        return Preview(mode, "", NoReason, [], cs, Some(RouteError(VALIDATION_ERROR, "")));
      }
      for i := 0 to |cs|
        invariant forall k :: 0 <= k < i ==> cs[k].service != requested
      {
        if cs[i].service == requested {
          assert forall c :: c in cs && c.service == requested ==> c == cs[i];
          if !cs[i].eligible {
            var scoped := cs[i := cs[i].(inScope := true)];
            forall k | 0 <= k < |cs|
              ensures scoped[k] == cs[k].(inScope := cs[k].service == requested, selected := false)
            {
              assert cs[k] in cs;
            }
            return Preview(mode, "", NoReason, [requested], scoped, Some(RouteError(cs[i].exclusion, requested)));
          }
          var marked := MarkRoute(cs, [requested], requested);
          return Preview(mode, requested, CallerSelected, [requested], marked, None);
        }
      }
      p := Preview(mode, "", NoReason, [], cs, Some(RouteError(NOT_FOUND, requested)));
    }

    // The route of a request over the services registered now.
    method Resolve(r: Request, now: nat, draw: nat) returns (p: Preview, ghost cs: seq<Candidate>, ghost services: seq<Service>)
      requires Valid()
      modifies cooling, selector
      ensures Valid() && p.mode == r.mode
      ensures Lists(services, registry.services)
      ensures Evaluated(cs, services, Trim(r.operation), old(cooling.states), stats.View(), now)
      ensures DistinctServices(cs)
      ensures Cooling.Alike(cooling.states, old(cooling.states), now)
      ensures if Trim(r.operation) == "" then p.error == Some(RouteError(VALIDATION_ERROR, "")) && p.chain == []
              else if r.mode.Specified? then SpecifiedRoute(p, cs, Trim(r.requested))
              else
                && StrategyRoute(p, cs, Trim(r.language), PreferencesOf(Trim(r.operation)))
                && LeftToSelector(p, cs, Trim(r.language), PreferencesOf(Trim(r.operation)),
                                  selector.mode, old(selector.counter), draw)
    {
      var operation := Trim(r.operation);
      var found;
      found, services := EvaluateCandidates(operation, now);
      cs := found;
      if operation == "" {
        p := Preview(r.mode, "", NoReason, [], found, Some(RouteError(VALIDATION_ERROR, "")));
        return;
      }
      if r.mode.Specified? {
        p := PreviewSpecified(r.mode, found, Trim(r.requested));
      } else {
        p := PreviewStrategy(r.mode, found, Trim(r.language), PreferencesOf(operation), draw);
      }
    }
  }

  function PickedName(picked: Option<Choice>): Option<string> {
    match picked
    case None => None
    case Some(c) => Some(c.service)
  }
}
