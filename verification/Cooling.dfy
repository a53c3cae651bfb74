// Failure cooling (service/base/cooling/manager.go).  The manager expires a
// cooldown lazily, when some call happens to look at the service; the theorems
// show that the answers nevertheless are those of a plain history function.
module Cooling {
  import opened Ordering

  // Clock ticks; 0 is Go's zero time.
  type Time = nat

  datatype State = State(failureCount: nat, cooled: bool, cooledUntil: Time, lastErrorCategory: string)

  const NEW_STATE := State(0, false, 0, "")
  const DAY: nat := 86400

  datatype Config = Config(threshold: nat, duration: nat) {
    ghost predicate Valid() { threshold >= 1 && duration >= 1 }
  }

  function NewConfig(threshold: int, duration: int): (cfg: Config)
    ensures cfg.Valid()
    ensures cfg.threshold == if threshold > 0 then threshold else 3
    ensures cfg.duration == if duration > 0 then duration else 86400
  {
    Config(if threshold <= 0 then 3 else threshold, if duration <= 0 then DAY else duration)
  }

  function Current(state: State, now: Time): State {
    if state.cooled && state.cooledUntil != 0 && now > state.cooledUntil then
      state.(cooled := false, cooledUntil := 0)
    else state
  }

  function Fail(cfg: Config, state: State, category: string, counts: bool, now: Time): State {
    var s := Current(state, now).(lastErrorCategory := category);
    if !counts then s
    else if s.failureCount + 1 >= cfg.threshold then
      s.(failureCount := 0, cooled := true, cooledUntil := now + cfg.duration)
    else s.(failureCount := s.failureCount + 1)
  }

  function Succeed(state: State, now: Time): State {
    Current(state, now).(failureCount := 0)
  }

  datatype Event =
    | Failure(service: string, category: string, counts: bool, at: Time)
    | Success(service: string, at: Time)
    | Look(service: string, at: Time)          // Snapshot or IsCooled
    | LookAll(at: Time)                        // All
    | Reset(service: string)
    | ResetAll

  function Cell(states: map<string, State>, service: string): State {
    if service in states then states[service] else NEW_STATE
  }

  function Apply(cfg: Config, states: map<string, State>, e: Event): map<string, State> {
    match e
    case Failure(s, category, counts, now) => states[s := Fail(cfg, Cell(states, s), category, counts, now)]
    case Success(s, now) => states[s := Succeed(Cell(states, s), now)]
    case Look(s, now) => states[s := Current(Cell(states, s), now)]
    case LookAll(now) => map s | s in states :: Current(states[s], now)
    case Reset(s) => states - {s}
    case ResetAll => map[]
  }

  function Run(cfg: Config, events: seq<Event>): map<string, State> {
    if events == [] then map[]
    else Apply(cfg, Run(cfg, events[..|events| - 1]), events[|events| - 1])
  }

  // ----- the history the manager stands for

  predicate CountedFailure(e: Event, service: string) {
    e.Failure? && e.service == service && e.counts
  }

  predicate Resets(e: Event, service: string) {
    e.ResetAll? || (e.Reset? && e.service == service)
  }

  // Counted failures of the service since its last success, trigger or reset.
  function Failures(cfg: Config, events: seq<Event>, service: string): nat {
    if events == [] then 0
    else
      var n := Failures(cfg, events[..|events| - 1], service);
      var e := events[|events| - 1];
      if Resets(e, service) || (e.Success? && e.service == service) then 0
      else if CountedFailure(e, service) then (if n + 1 >= cfg.threshold then 0 else n + 1)
      else n
  }

  // The i-th event is a failure that reaches the threshold.
  predicate Triggers(cfg: Config, events: seq<Event>, service: string, i: nat)
    requires i < |events|
  {
    CountedFailure(events[i], service) && Failures(cfg, events[..i], service) + 1 >= cfg.threshold
  }

  // Some trigger since the last reset covers time t.
  ghost predicate CooledBy(cfg: Config, events: seq<Event>, service: string, t: Time) {
    exists i: nat :: i < |events| && Covers(cfg, events, service, i, t)
  }

  ghost predicate Covers(cfg: Config, events: seq<Event>, service: string, i: nat, t: Time)
    requires i < |events|
  {
    && Triggers(cfg, events, service, i)
    && (forall j :: i < j < |events| ==> !Resets(events[j], service))
    && t <= events[i].at + cfg.duration
  }

  predicate Timed(e: Event) { !e.Reset? && !e.ResetAll? }

  // Event times never decrease, and none is later than t.
  ghost predicate Clocked(events: seq<Event>, t: Time) {
    && (forall i :: 0 <= i < |events| && Timed(events[i]) ==> events[i].at <= t)
    && (forall i, j :: 0 <= i < j < |events| && Timed(events[i]) && Timed(events[j]) ==> events[i].at <= events[j].at)
  }

  // ----- lazy expiry refines the history

  lemma CooledByLast(cfg: Config, events: seq<Event>, service: string, t: Time)
    requires events != []
    ensures var n := |events| - 1;
            CooledBy(cfg, events, service, t) <==>
            !Resets(events[n], service)
            && (CooledBy(cfg, events[..n], service, t)
                || (Triggers(cfg, events, service, n) && t <= events[n].at + cfg.duration))
  {
    var n := |events| - 1;
    var before := events[..n];
    forall i: nat | i < n ensures before[..i] == events[..i] && before[i] == events[i] {}
    forall i: nat | i < n
      ensures Covers(cfg, events, service, i, t) <==>
              !Resets(events[n], service) && Covers(cfg, before, service, i, t)
    {
      assert Triggers(cfg, events, service, i) == Triggers(cfg, before, service, i);
    }
    if Covers(cfg, events, service, n, t) {
      assert CooledBy(cfg, events, service, t);
    }
    if CooledBy(cfg, before, service, t) && !Resets(events[n], service) {
      var i: nat :| i < |before| && Covers(cfg, before, service, i, t);
      assert Covers(cfg, events, service, i, t);
    }
  }

  // A trigger lies in the past, so it covers no later than a trigger now would.
  lemma CoveredSoon(cfg: Config, events: seq<Event>, service: string, now: Time, t: Time)
    requires Clocked(events, now) && CooledBy(cfg, events, service, t)
    ensures t <= now + cfg.duration
  {
    var i: nat :| i < |events| && Covers(cfg, events, service, i, t);
    assert Timed(events[i]);
  }

  lemma ClockedPrefix(events: seq<Event>, t: Time)
    requires events != [] && Clocked(events, t)
    ensures Clocked(events[..|events| - 1], t)
    ensures Timed(events[|events| - 1]) ==>
              events[|events| - 1].at <= t && Clocked(events[..|events| - 1], events[|events| - 1].at)
  {
  }

  // The stored state says at time t what the history says.
  ghost predicate Tells(cfg: Config, events: seq<Event>, service: string, t: Time) {
    var state := Cell(Run(cfg, events), service);
    && state.failureCount == Failures(cfg, events, service) < cfg.threshold
    && (state.cooled ==> state.cooledUntil != 0)
    && (Current(state, t).cooled <==> CooledBy(cfg, events, service, t))
  }

  // The last event changes the stored state of a service as it changes the history.
  lemma LastEventTells(cfg: Config, events: seq<Event>, service: string, t: Time)
    requires cfg.Valid() && events != [] && Clocked(events, t)
    requires var before, e := events[..|events| - 1], events[|events| - 1];
             Tells(cfg, before, service, t) && (Timed(e) ==> Tells(cfg, before, service, e.at))
    ensures Tells(cfg, events, service, t)
  {
    var before, e := events[..|events| - 1], events[|events| - 1];
    CooledByLast(cfg, events, service, t);
    ClockedPrefix(events, t);
    if CountedFailure(e, service) {
      if CooledBy(cfg, before, service, t) { CoveredSoon(cfg, before, service, e.at, t); }
    } else if e.LookAll? {
      assert service in Run(cfg, before) <==> service in Run(cfg, events);
    }
  }

  // After any run with a clock that never goes back, the stored count is the
  // history's count, stays below the threshold, and the service reads as cooled
  // at t iff a trigger since the last reset covers t.
  lemma {:induction false} ManagerMatchesHistory(cfg: Config, events: seq<Event>, service: string, t: Time)
    requires cfg.Valid() && Clocked(events, t)
    ensures var state := Cell(Run(cfg, events), service);
            && state.failureCount == Failures(cfg, events, service) < cfg.threshold
            && (state.cooled ==> state.cooledUntil != 0)
            && (Current(state, t).cooled <==> CooledBy(cfg, events, service, t))
  {
    if events != [] {
      var before, e := events[..|events| - 1], events[|events| - 1];
      ClockedPrefix(events, t);
      ManagerMatchesHistory(cfg, before, service, t);
      if Timed(e) { ManagerMatchesHistory(cfg, before, service, e.at); }
      LastEventTells(cfg, events, service, t);
    }
  }

  // The category of the last failure, counted or not, since the last reset.
  function LastCategory(events: seq<Event>, service: string): string {
    if events == [] then ""
    else
      var e := events[|events| - 1];
      if Resets(e, service) then ""
      else if e.Failure? && e.service == service then e.category
      else LastCategory(events[..|events| - 1], service)
  }

  // It is the error category the manager shows.
  lemma {:induction false} CategoryMatchesHistory(cfg: Config, events: seq<Event>, service: string, t: Time)
    ensures Current(Cell(Run(cfg, events), service), t).lastErrorCategory == LastCategory(events, service)
  {
    if events != [] {
      CategoryMatchesHistory(cfg, events[..|events| - 1], service, t);
      if events[|events| - 1].LookAll? {
        assert service in Run(cfg, events) <==> service in Run(cfg, events[..|events| - 1]);
      }
    }
  }

  // ----- looking changes no later answer

  function WithoutLooks(events: seq<Event>): seq<Event> {
    if events == [] then []
    else
      var e := events[|events| - 1];
      WithoutLooks(events[..|events| - 1]) + if e.Look? || e.LookAll? then [] else [e]
  }

  // The two tables answer alike for every service from time t on.
  ghost predicate Alike(a: map<string, State>, b: map<string, State>, t: Time) {
    forall service, now | now >= t :: Current(Cell(a, service), now) == Current(Cell(b, service), now)
  }

  lemma ApplyKeepsAlike(cfg: Config, a: map<string, State>, b: map<string, State>, e: Event, t: Time)
    requires Alike(a, b, t) && (Timed(e) ==> e.at >= t)
    ensures Alike(Apply(cfg, a, e), Apply(cfg, b, e), if Timed(e) then e.at else t)
  {
    var u := if Timed(e) then e.at else t;
    forall service, now | now >= u
      ensures Current(Cell(Apply(cfg, a, e), service), now) == Current(Cell(Apply(cfg, b, e), service), now)
    {
      assert Current(Cell(a, service), u) == Current(Cell(b, service), u);
      assert Current(Cell(a, service), now) == Current(Cell(b, service), now);
    }
  }

  lemma LookKeepsAlike(cfg: Config, a: map<string, State>, e: Event)
    requires e.Look? || e.LookAll?
    ensures Alike(Apply(cfg, a, e), a, e.at)
  {
  }

  // Extra Snapshot, IsCooled and All calls never change what any service reads later.
  lemma {:induction false} LooksAreInvisible(cfg: Config, events: seq<Event>, t: Time)
    requires Clocked(events, t)
    ensures Alike(Run(cfg, events), Run(cfg, WithoutLooks(events)), t)
  {
    if events != [] {
      var n := |events| - 1;
      var before, e := events[..n], events[n];
      var u := if Timed(e) then e.at else t;
      ClockedPrefix(events, t);
      LooksAreInvisible(cfg, before, u);
      if e.Look? || e.LookAll? {
        LookKeepsAlike(cfg, Run(cfg, before), e);
        assert WithoutLooks(events) == WithoutLooks(before);
      } else {
        ApplyKeepsAlike(cfg, Run(cfg, before), Run(cfg, WithoutLooks(before)), e, u);
        var kept := WithoutLooks(before) + [e];
        assert kept[..|kept| - 1] == WithoutLooks(before);
      }
    }
  }

  // ----- how often a service is cooled

  function CountFailures(events: seq<Event>, service: string): nat {
    if events == [] then 0
    else CountFailures(events[..|events| - 1], service)
         + if CountedFailure(events[|events| - 1], service) then 1 else 0
  }

  function CountTriggers(cfg: Config, events: seq<Event>, service: string): nat {
    if events == [] then 0
    else CountTriggers(cfg, events[..|events| - 1], service)
         + if Triggers(cfg, events, service, |events| - 1) then 1 else 0
  }

  // Without a success or reset the number of triggers is the number of counted
  // failures divided by the threshold, rounded down.
  lemma {:induction false} TriggersAreFloor(cfg: Config, events: seq<Event>, service: string)
    requires cfg.Valid()
    requires forall e :: e in events ==> !Resets(e, service) && !(e.Success? && e.service == service)
    ensures var triggers, failures := CountTriggers(cfg, events, service), CountFailures(events, service);
            && failures == cfg.threshold * triggers + Failures(cfg, events, service)
            && cfg.threshold * triggers <= failures < cfg.threshold * (triggers + 1)
  {
    FailuresStayBelow(cfg, events, service);
    if events != [] {
      var before, e := events[..|events| - 1], events[|events| - 1];
      assert e in events;
      forall f | f in before ensures f in events {}
      TriggersAreFloor(cfg, before, service);
      FailuresStayBelow(cfg, before, service);
      Distribute(cfg.threshold, CountTriggers(cfg, before, service));
    }
    Distribute(cfg.threshold, CountTriggers(cfg, events, service));
  }

  lemma Distribute(d: nat, n: nat)
    ensures d * (n + 1) == d * n + d
  {
  }

  lemma {:induction false} FailuresStayBelow(cfg: Config, events: seq<Event>, service: string)
    requires cfg.Valid()
    ensures Failures(cfg, events, service) < cfg.threshold
  {
    if events != [] { FailuresStayBelow(cfg, events[..|events| - 1], service); }
  }

  // ----- the manager object

  class Manager {
    const cfg: Config
    var states: map<string, State>

    constructor (threshold: int, duration: int)
      ensures cfg == NewConfig(threshold, duration) && states == Run(cfg, [])
    {
      cfg := NewConfig(threshold, duration);
      states := map[];
    }

    method Snapshot(service: string, now: Time) returns (state: State)
      modifies this
      ensures states == Apply(cfg, old(states), Look(service, now))
      ensures state == Current(Cell(old(states), service), now)
    {
      state := Current(Cell(states, service), now);
      states := states[service := state];
    }

    method IsCooled(service: string, now: Time) returns (cooled: bool)
      modifies this
      ensures states == Apply(cfg, old(states), Look(service, now))
      ensures cooled == Current(Cell(old(states), service), now).cooled
    {
      var state := Snapshot(service, now);
      cooled := state.cooled;
    }

    method RecordFailure(service: string, category: string, counts: bool, now: Time) returns (state: State)
      modifies this
      ensures states == Apply(cfg, old(states), Failure(service, category, counts, now))
      ensures state == Cell(states, service)
    {
      state := Current(Cell(states, service), now);
      state := state.(lastErrorCategory := category);
      if counts {
        state := state.(failureCount := state.failureCount + 1);
        if state.failureCount >= cfg.threshold {
          state := state.(failureCount := 0, cooled := true, cooledUntil := now + cfg.duration);
        }
      }
      states := states[service := state];
    }

    method RecordSuccess(service: string, now: Time) returns (state: State)
      modifies this
      ensures states == Apply(cfg, old(states), Success(service, now))
      ensures state == Cell(states, service)
    {
      state := Current(Cell(states, service), now).(failureCount := 0);
      states := states[service := state];
    }

    method Forget(service: string)
      modifies this
      ensures states == Apply(cfg, old(states), Reset(service))
    {
      states := states - {service};
    }

    method ForgetAll()
      modifies this
      ensures states == Apply(cfg, old(states), ResetAll)
    {
      states := map[];
    }
  }
}
