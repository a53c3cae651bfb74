// Planning which team seats to free (run_cleanup_team_seats_once in
// providers/python/src/new_protocol_register/magic.py): two greedy loops against
// two coupled limits, with owners filtered out and some members preserved.
module SeatPlanner {
  import opened Ordering
  import opened Text

  datatype Kind = Invite | User
  datatype Category = Chatgpt | Codex

  datatype Entry = Entry(kind: Kind, id: string, email: string, category: Category)

  // The limit constants as the module initialises them.
  datatype Limits = Limits(capacity: nat, chatgpt: nat, codex: nat, codexTypes: set<string>) {
    ghost predicate Valid() { capacity >= 1 && chatgpt <= capacity && codex <= capacity }
  }

  // None is an unset or blank environment variable.
  function LimitsFrom(capacity: Option<int>, chatgpt: Option<int>, codex: Option<int>, codexTypes: set<string>)
    : (l: Limits)
    ensures l.Valid() && l.codexTypes == codexTypes
    // in range
    ensures capacity.Some? && capacity.value >= 1 ==> l.capacity == capacity.value
    ensures chatgpt.Some? && 0 <= chatgpt.value <= l.capacity ==> l.chatgpt == chatgpt.value
    ensures codex.Some? && 0 <= codex.value <= l.capacity ==> l.codex == codex.value
    // out of range
    ensures capacity.Some? && capacity.value < 1 ==> l.capacity == 1
    ensures chatgpt.Some? && chatgpt.value < 0 ==> l.chatgpt == 0
    ensures chatgpt.Some? && chatgpt.value > l.capacity ==> l.chatgpt == l.capacity
    ensures codex.Some? && codex.value < 0 ==> l.codex == 0
    ensures codex.Some? && codex.value > l.capacity ==> l.codex == l.capacity
    // unset
    ensures capacity.None? ==> l.capacity == 9
    ensures chatgpt.None? ==> l.chatgpt == Min(4, l.capacity)
    ensures codex.None? ==> l.codex == l.capacity
  {
    var total := Max(1, if capacity.Some? then capacity.value else 9);
    Limits(total, Max(0, Min(total, if chatgpt.Some? then chatgpt.value else 4)),
           Max(0, Min(total, if codex.Some? then codex.value else total)), codexTypes)
  }

  // ----- from listed invites and users to entries

  datatype ListedInvite = ListedInvite(id: string, email: string, seatType: string)
  datatype ListedUser = ListedUser(id: string, email: string, seatType: string, role: string)

  predicate IsOwner(user: ListedUser, ownerEmail: string) {
    || (Normalize(user.email) != "" && Normalize(user.email) == Normalize(ownerEmail))
    || Normalize(user.role) == "account-owner" || Normalize(user.role) == "owner"
  }

  function CategoryOf(limits: Limits, seatType: string): Category {
    if Normalize(seatType) in limits.codexTypes then Codex else Chatgpt
  }

  function EntryOf(limits: Limits, kind: Kind, id: string, email: string, seatType: string): Option<Entry> {
    if Trim(id) == "" && Normalize(email) == "" then None
    else Some(Entry(kind, Trim(id), Normalize(email), CategoryOf(limits, seatType)))
  }

  // An entry that a removal by id or by email can find.
  predicate Identified(e: Entry) {
    Normalize(e.id) != "" || Normalize(e.email) != ""
  }

  ghost predicate AllIdentified(entries: seq<Entry>) {
    forall e :: e in entries ==> Identified(e)
  }

  lemma EntryIsIdentified(limits: Limits, kind: Kind, id: string, email: string, seatType: string)
    ensures EntryOf(limits, kind, id, email, seatType).Some? ==>
              Identified(EntryOf(limits, kind, id, email, seatType).value)
  {
    NormalizeIsIdempotent(id);
    NormalizeIsIdempotent(email);
  }

  function Present(entry: Option<Entry>): seq<Entry> {
    if entry.Some? then [entry.value] else []
  }

  function InviteEntries(limits: Limits, invites: seq<ListedInvite>): seq<Entry> {
    if invites == [] then []
    else
      var last := invites[|invites| - 1];
      InviteEntries(limits, invites[..|invites| - 1])
      + Present(EntryOf(limits, Invite, last.id, last.email, last.seatType))
  }

  function UserEntries(limits: Limits, users: seq<ListedUser>, ownerEmail: string): seq<Entry> {
    if users == [] then []
    else
      var last := users[|users| - 1];
      UserEntries(limits, users[..|users| - 1], ownerEmail)
      + if IsOwner(last, ownerEmail) then []
        else Present(EntryOf(limits, User, last.id, last.email, last.seatType))
  }

  function SeatEntries(limits: Limits, invites: seq<ListedInvite>, users: seq<ListedUser>, ownerEmail: string)
    : seq<Entry>
  {
    InviteEntries(limits, invites) + UserEntries(limits, users, ownerEmail)
  }

  ghost predicate FromUser(limits: Limits, e: Entry, user: ListedUser) {
    EntryOf(limits, User, user.id, user.email, user.seatType) == Some(e)
  }

  lemma {:induction false} InviteEntriesAreInvites(limits: Limits, invites: seq<ListedInvite>)
    ensures AllIdentified(InviteEntries(limits, invites))
    ensures forall e :: e in InviteEntries(limits, invites) ==> e.kind.Invite?
  {
    if invites != [] {
      var last := invites[|invites| - 1];
      InviteEntriesAreInvites(limits, invites[..|invites| - 1]);
      EntryIsIdentified(limits, Invite, last.id, last.email, last.seatType);
    }
  }

  // A user entry comes from a listed user that is not an owner.
  lemma {:induction false} UserEntriesSkipOwners(limits: Limits, users: seq<ListedUser>, ownerEmail: string)
    ensures AllIdentified(UserEntries(limits, users, ownerEmail))
    ensures forall e :: e in UserEntries(limits, users, ownerEmail) <==>
              exists u :: u in users && !IsOwner(u, ownerEmail) && FromUser(limits, e, u)
  {
    if users != [] {
      var before, last := users[..|users| - 1], users[|users| - 1];
      UserEntriesSkipOwners(limits, before, ownerEmail);
      EntryIsIdentified(limits, User, last.id, last.email, last.seatType);
      assert users == before + [last];
      forall e ensures e in UserEntries(limits, users, ownerEmail) <==>
                       exists u :: u in users && !IsOwner(u, ownerEmail) && FromUser(limits, e, u)
      {
        if u :| u in before && !IsOwner(u, ownerEmail) && FromUser(limits, e, u) { assert u in users; }
        if !IsOwner(last, ownerEmail) && FromUser(limits, e, last) { assert last in users; }
      }
    }
  }

  lemma {:induction false} NextUser(limits: Limits, users: seq<ListedUser>, ownerEmail: string, i: nat)
    requires i < |users|
    ensures UserEntries(limits, users[..i + 1], ownerEmail)
            == UserEntries(limits, users[..i], ownerEmail)
               + if IsOwner(users[i], ownerEmail) then []
                 else Present(EntryOf(limits, User, users[i].id, users[i].email, users[i].seatType))
  {
    assert users[..i + 1][..i] == users[..i];
  }

  // Entries for all invites, then for all users that are not owners.
  method CollectEntries(limits: Limits, invites: seq<ListedInvite>, users: seq<ListedUser>, ownerEmail: string)
    returns (entries: seq<Entry>)
    ensures entries == SeatEntries(limits, invites, users, ownerEmail)
  {
    entries := [];
    for i := 0 to |invites|
      invariant entries == InviteEntries(limits, invites[..i])
    {
      assert invites[..i + 1][..i] == invites[..i];
      var entry := EntryOf(limits, Invite, invites[i].id, invites[i].email, invites[i].seatType);
      if entry.Some? {
        entries := entries + [entry.value];
      }
    }
    assert invites[..|invites|] == invites;
    entries := WithUsers(limits, entries, users, ownerEmail);
  }

  method WithUsers(limits: Limits, invited: seq<Entry>, users: seq<ListedUser>, ownerEmail: string)
    returns (entries: seq<Entry>)
    ensures entries == invited + UserEntries(limits, users, ownerEmail)
  {
    entries := invited;
    for i := 0 to |users|
      invariant entries == invited + UserEntries(limits, users[..i], ownerEmail)
    {
      NextUser(limits, users, ownerEmail, i);
      if !IsOwner(users[i], ownerEmail) {
        var entry := EntryOf(limits, User, users[i].id, users[i].email, users[i].seatType);
        if entry.Some? {
          entries := entries + [entry.value];
        }
      }
    }
    assert users[..|users|] == users;
  }

  // ----- capacity

  predicate IsChatgpt(e: Entry) { e.category.Chatgpt? }
  predicate IsCodex(e: Entry) { e.category.Codex? }
  predicate IsSeat(e: Entry) { IsChatgpt(e) || IsCodex(e) }

  function UsedChatgpt(entries: seq<Entry>): nat { Count(entries, IsChatgpt) }

  function UsedTotal(entries: seq<Entry>): nat { Count(entries, IsChatgpt) + Count(entries, IsCodex) }

  lemma {:induction false} EverySeatIsUsed(entries: seq<Entry>)
    ensures UsedTotal(entries) == Count(entries, IsSeat) == |entries|
  {
    if entries != [] { EverySeatIsUsed(entries[..|entries| - 1]); }
  }

  datatype Summary = Summary(usedTotal: nat, usedChatgpt: nat, availableTotal: nat, availableChatgpt: nat,
                             availableCodex: nat)

  function Summarize(limits: Limits, entries: seq<Entry>): Summary {
    var total := Max(0, limits.capacity - UsedTotal(entries));
    Summary(UsedTotal(entries), UsedChatgpt(entries), total,
            Max(0, Min(limits.chatgpt - UsedChatgpt(entries), total)),
            Max(0, Min(limits.codex - Count(entries, IsCodex), total)))
  }

  // The early-exit test before planning.
  predicate EnoughCapacity(limits: Limits, entries: seq<Entry>, required: nat) {
    var s := Summarize(limits, entries);
    s.availableTotal >= required && s.availableChatgpt >= required
  }

  function TargetChatgpt(limits: Limits, required: nat): nat { Max(0, limits.chatgpt - required) }

  function TargetTotal(limits: Limits, required: nat): nat { Max(0, limits.capacity - required) }

  // The early-exit test holds exactly when both planning targets are met and the
  // request fits into the chatgpt limit at all.
  lemma EnoughCapacityIsTargetsMet(limits: Limits, entries: seq<Entry>, required: nat)
    requires limits.Valid()
    ensures EnoughCapacity(limits, entries, required) <==>
            required == 0 ||
            (required <= limits.chatgpt
             && UsedChatgpt(entries) <= TargetChatgpt(limits, required)
             && UsedTotal(entries) <= TargetTotal(limits, required))
  {
  }

  // ----- removing one entry

  datatype Removal = Removal(kind: Kind, id: string, email: string)

  predicate Matches(e: Entry, r: Removal) {
    e.kind == r.kind
    && ((Normalize(r.id) != "" && Normalize(e.id) == Normalize(r.id))
        || (Normalize(r.email) != "" && Normalize(e.email) == Normalize(r.email)))
  }

  function RemovalOf(e: Entry): Removal { Removal(e.kind, e.id, e.email) }

  // The list without its first matching entry.
  function RemoveMatching(entries: seq<Entry>, r: Removal): seq<Entry> {
    if entries == [] then []
    else if Matches(entries[0], r) then entries[1..]
    else [entries[0]] + RemoveMatching(entries[1..], r)
  }

  // Exactly one entry goes, one that matches, if there is any.
  lemma {:induction false} RemoveMatchingTakesOne(entries: seq<Entry>, r: Removal) returns (gone: Entry)
    requires exists e :: e in entries && Matches(e, r)
    ensures gone in entries && Matches(gone, r)
    ensures multiset(RemoveMatching(entries, r)) == multiset(entries) - multiset{gone}
    ensures |RemoveMatching(entries, r)| == |entries| - 1
    ensures forall e :: e in RemoveMatching(entries, r) ==> e in entries
    ensures forall keep: Entry -> bool ::
              Count(entries, keep) == Count(RemoveMatching(entries, r), keep) + if keep(gone) then 1 else 0
  {
    assert entries == [entries[0]] + entries[1..];
    if Matches(entries[0], r) {
      gone := entries[0];
      forall keep: Entry -> bool
        ensures Count(entries, keep) == Count(entries[1..], keep) + if keep(gone) then 1 else 0
      {
        CountConcat([gone], entries[1..], keep);
      }
    } else {
      gone := RemoveMatchingTakesOne(entries[1..], r);
      forall keep: Entry -> bool
        ensures Count(entries, keep) == Count(RemoveMatching(entries, r), keep) + if keep(gone) then 1 else 0
      {
        CountConcat([entries[0]], entries[1..], keep);
        CountConcat([entries[0]], RemoveMatching(entries[1..], r), keep);
      }
    }
  }

  // What the removing loop still has to go through.
  function Rest(entries: seq<Entry>, r: Removal, removed: bool): seq<Entry> {
    if removed then entries else RemoveMatching(entries, r)
  }

  lemma RestOfNext(entries: seq<Entry>, i: nat, r: Removal, removed: bool, filtered: seq<Entry>)
    requires i < |entries|
    ensures filtered + Rest(entries[i..], r, removed)
            == if Matches(entries[i], r) && !removed then filtered + Rest(entries[i + 1..], r, true)
               else (filtered + [entries[i]]) + Rest(entries[i + 1..], r, removed)
  {
    assert entries[i..][1..] == entries[i + 1..] && entries[i..] == [entries[i]] + entries[i + 1..];
    assert forall rest: seq<Entry> :: (filtered + [entries[i]]) + rest == filtered + ([entries[i]] + rest);
  }

  method RemoveMatchingEntry(entries: seq<Entry>, r: Removal) returns (filtered: seq<Entry>)
    ensures filtered == RemoveMatching(entries, r)
  {
    filtered := [];
    var removed := false;
    ghost var goal := RemoveMatching(entries, r);
    for i := 0 to |entries|
      invariant filtered + Rest(entries[i..], r, removed) == goal
    {
      RestOfNext(entries, i, r, removed, filtered);
      if Matches(entries[i], r) && !removed {
        removed := true;
        continue;
      }
      filtered := filtered + [entries[i]];
    }
  }

  // ----- the two planning loops

  function Unprotected(preserved: set<string>): Entry -> bool {
    (e: Entry) => Normalize(e.email) !in preserved
  }

  function UnprotectedChatgpt(preserved: set<string>): Entry -> bool {
    (e: Entry) => e.category.Chatgpt? && Normalize(e.email) !in preserved
  }

  function Rank(e: Entry, preferred: Category): (nat, nat) {
    (if e.category == preferred then 0 else 1, if e.kind.Invite? then 0 else 1)
  }

  // Preferred category first, then invites, then by email.
  predicate KeyLe(preferred: Category, a: Entry, b: Entry) {
    var (ac, ak) := Rank(a, preferred);
    var (bc, bk) := Rank(b, preferred);
    ac < bc || (ac == bc && (ak < bk || (ak == bk && LexLe(Normalize(a.email), Normalize(b.email)))))
  }

  function Order(preferred: Category): (Entry, Entry) -> bool {
    (a: Entry, b: Entry) => KeyLe(preferred, a, b)
  }

  // What a loop picks by, and the count it drives down to its target.
  datatype Goal = Goal(target: nat, counted: Entry -> bool, candidate: Entry -> bool, preferred: Category)

  function ChatgptGoal(target: nat, preserved: set<string>): Goal {
    Goal(target, IsChatgpt, UnprotectedChatgpt(preserved), Chatgpt)
  }

  function TotalGoal(target: nat, preserved: set<string>): Goal {
    Goal(target, IsSeat, Unprotected(preserved), Codex)
  }

  function Choice(entries: seq<Entry>, goal: Goal): (e: Entry)
    requires Filter(entries, goal.candidate) != []
    ensures e in entries && goal.candidate(e)
  {
    var sorted := Sort(Filter(entries, goal.candidate), Order(goal.preferred));
    assert sorted[0] in multiset(Filter(entries, goal.candidate));
    sorted[0]
  }

  // One loop: remove the first candidate while the count exceeds the target.
  function PlanFor(entries: seq<Entry>, goal: Goal): (seq<Entry>, seq<Entry>)
    requires AllIdentified(entries)
    decreases |entries|
  {
    if Count(entries, goal.counted) > goal.target && Filter(entries, goal.candidate) != [] then
      var e := Choice(entries, goal);
      ChoiceIsRemoved(entries, e);
      var (plan, rest) := PlanFor(RemoveMatching(entries, RemovalOf(e)), goal);
      ([e] + plan, rest)
    else ([], entries)
  }

  lemma ChoiceIsRemoved(entries: seq<Entry>, e: Entry)
    requires AllIdentified(entries) && e in entries
    ensures Matches(e, RemovalOf(e))
    ensures |RemoveMatching(entries, RemovalOf(e))| < |entries|
    ensures AllIdentified(RemoveMatching(entries, RemovalOf(e)))
  {
    var gone := RemoveMatchingTakesOne(entries, RemovalOf(e));
  }

  function FirstGoal(limits: Limits, required: nat, preserved: set<string>): Goal {
    ChatgptGoal(TargetChatgpt(limits, required), preserved)
  }

  function SecondGoal(limits: Limits, required: nat, preserved: set<string>): Goal {
    TotalGoal(TargetTotal(limits, required), preserved)
  }

  // Both loops: first the chatgpt seats, then all seats.
  function Plan(limits: Limits, entries: seq<Entry>, required: nat, preserved: set<string>)
    : (r: (seq<Entry>, seq<Entry>))
    requires AllIdentified(entries)
  {
    PlanKeepsIdentified(entries, FirstGoal(limits, required, preserved));
    var (first, middle) := PlanFor(entries, FirstGoal(limits, required, preserved));
    var (second, rest) := PlanFor(middle, SecondGoal(limits, required, preserved));
    (first + second, rest)
  }

  lemma {:induction false} PlanKeepsIdentified(entries: seq<Entry>, goal: Goal)
    requires AllIdentified(entries)
    ensures AllIdentified(PlanFor(entries, goal).1)
    decreases |entries|
  {
    if Count(entries, goal.counted) > goal.target && Filter(entries, goal.candidate) != [] {
      var e := Choice(entries, goal);
      ChoiceIsRemoved(entries, e);
      PlanKeepsIdentified(RemoveMatching(entries, RemovalOf(e)), goal);
    }
  }

  // Every planned entry was listed and is not protected; each planned removal
  // takes exactly one entry off the list.
  lemma {:induction false} PlanForTakesCandidates(entries: seq<Entry>, goal: Goal)
    requires AllIdentified(entries)
    ensures var (plan, rest) := PlanFor(entries, goal);
            && (forall e :: e in plan ==> e in entries && goal.candidate(e))
            && (forall e :: e in rest ==> e in entries)
            && multiset(rest) <= multiset(entries)
            && |plan| + |rest| == |entries|
    decreases |entries|
  {
    if Count(entries, goal.counted) > goal.target && Filter(entries, goal.candidate) != [] {
      var e := Choice(entries, goal);
      ChoiceIsRemoved(entries, e);
      var gone := RemoveMatchingTakesOne(entries, RemovalOf(e));
      PlanForTakesCandidates(RemoveMatching(entries, RemovalOf(e)), goal);
    }
  }

  // A loop stops only when its target is met or no candidate is left.
  lemma {:induction false} PlanForStops(entries: seq<Entry>, goal: Goal)
    requires AllIdentified(entries)
    ensures var rest := PlanFor(entries, goal).1;
            Count(rest, goal.counted) <= goal.target || Filter(rest, goal.candidate) == []
    decreases |entries|
  {
    if Count(entries, goal.counted) > goal.target && Filter(entries, goal.candidate) != [] {
      var e := Choice(entries, goal);
      ChoiceIsRemoved(entries, e);
      PlanForStops(RemoveMatching(entries, RemovalOf(e)), goal);
    }
  }

  method RunLoop(entries: seq<Entry>, goal: Goal, planned: seq<Entry>)
    returns (removals: seq<Entry>, remaining: seq<Entry>)
    requires AllIdentified(entries)
    ensures removals == planned + PlanFor(entries, goal).0
    ensures remaining == PlanFor(entries, goal).1
  {
    removals, remaining := planned, entries;
    while Count(remaining, goal.counted) > goal.target
      invariant AllIdentified(remaining)
      invariant removals + PlanFor(remaining, goal).0 == planned + PlanFor(entries, goal).0
      invariant PlanFor(remaining, goal).1 == PlanFor(entries, goal).1
      decreases |remaining|
    {
      var candidates := Filter(remaining, goal.candidate);
      if candidates == [] {
        break;
      }
      var candidate := Sort(candidates, Order(goal.preferred))[0];
      assert candidate == Choice(remaining, goal);
      ChoiceIsRemoved(remaining, candidate);
      removals := removals + [candidate];
      remaining := RemoveMatchingEntry(remaining, RemovalOf(candidate));
    }
  }

  method PlanRemovals(limits: Limits, entries: seq<Entry>, required: nat, preserved: set<string>)
    returns (plannedRemovals: seq<Entry>, plannedRemaining: seq<Entry>)
    requires AllIdentified(entries)
    ensures (plannedRemovals, plannedRemaining) == Plan(limits, entries, required, preserved)
  {
    var chatgptGoal := FirstGoal(limits, required, preserved);
    plannedRemovals, plannedRemaining := RunLoop(entries, chatgptGoal, []);
    assert plannedRemovals == PlanFor(entries, chatgptGoal).0;
    PlanKeepsIdentified(entries, chatgptGoal);
    plannedRemovals, plannedRemaining :=
      RunLoop(plannedRemaining, SecondGoal(limits, required, preserved), plannedRemovals);
  }

  // No protected entry is ever planned, and the plan accounts for every seat.
  lemma PlanIsSafe(limits: Limits, entries: seq<Entry>, required: nat, preserved: set<string>)
    requires AllIdentified(entries)
    ensures var (plan, rest) := Plan(limits, entries, required, preserved);
            && (forall e :: e in plan ==> e in entries && Normalize(e.email) !in preserved)
            && multiset(rest) <= multiset(entries)
            && |plan| + |rest| == |entries|
  {
    var first := FirstGoal(limits, required, preserved);
    PlanForTakesCandidates(entries, first);
    PlanKeepsIdentified(entries, first);
    PlanForTakesCandidates(PlanFor(entries, first).1, SecondGoal(limits, required, preserved));
  }

  lemma FilterOfFewer(a: seq<Entry>, b: seq<Entry>, keep: Entry -> bool)
    requires multiset(a) <= multiset(b) && Filter(b, keep) == []
    ensures Filter(a, keep) == []
  {
    CountOfFewer(a, b, keep);
  }

  // A loop that has stopped on `middle` stops at once on anything left of it.
  lemma StoppedStaysStopped(rest: seq<Entry>, middle: seq<Entry>, goal: Goal)
    requires AllIdentified(rest) && multiset(rest) <= multiset(middle)
    requires Count(middle, goal.counted) <= goal.target || Filter(middle, goal.candidate) == []
    ensures PlanFor(rest, goal) == ([], rest)
  {
    CountOfFewer(rest, middle, goal.counted);
    if Filter(middle, goal.candidate) == [] { FilterOfFewer(rest, middle, goal.candidate); }
  }

  // Two loops with any goals are done after one pass each.
  lemma TwoLoopsAreDone(entries: seq<Entry>, first: Goal, second: Goal)
    requires AllIdentified(entries)
    ensures var middle := PlanFor(entries, first).1;
            && AllIdentified(middle)
            && AllIdentified(PlanFor(middle, second).1)
            && PlanFor(PlanFor(middle, second).1, first) == ([], PlanFor(middle, second).1)
            && PlanFor(PlanFor(middle, second).1, second) == ([], PlanFor(middle, second).1)
  {
    var middle := PlanFor(entries, first).1;
    PlanKeepsIdentified(entries, first);
    PlanForStops(entries, first);
    var rest := PlanFor(middle, second).1;
    PlanKeepsIdentified(middle, second);
    PlanForStops(middle, second);
    PlanForTakesCandidates(middle, second);
    StoppedStaysStopped(rest, middle, first);
    StoppedStaysStopped(rest, rest, second);
  }

  // Planning is a fixpoint: planning again on what remains removes nothing.
  lemma PlanIsFixpoint(limits: Limits, entries: seq<Entry>, required: nat, preserved: set<string>)
    requires AllIdentified(entries)
    ensures AllIdentified(Plan(limits, entries, required, preserved).1)
    ensures var rest := Plan(limits, entries, required, preserved).1;
            Plan(limits, rest, required, preserved) == ([], rest)
  {
    TwoLoopsAreDone(entries, FirstGoal(limits, required, preserved), SecondGoal(limits, required, preserved));
  }

  // ----- seats that a removal can confuse

  // Entries one removal could confuse are alike in what the planner counts.
  ghost predicate Interchangeable(entries: seq<Entry>, preserved: set<string>) {
    forall e, f :: e in entries && f in entries && Matches(f, RemovalOf(e)) ==>
      e.category == f.category && (Normalize(e.email) in preserved <==> Normalize(f.email) in preserved)
  }

  // Distinct ids and distinct emails among the entries of a kind are enough.
  ghost predicate DistinctSeats(entries: seq<Entry>) {
    && (forall e, f :: e in entries && f in entries && e.kind == f.kind && e != f ==>
          (Normalize(e.id) == "" || Normalize(e.id) != Normalize(f.id))
          && (Normalize(e.email) == "" || Normalize(e.email) != Normalize(f.email)))
  }

  lemma DistinctSeatsAreInterchangeable(entries: seq<Entry>, preserved: set<string>)
    requires DistinctSeats(entries)
    ensures Interchangeable(entries, preserved)
  {
    forall e, f | e in entries && f in entries && Matches(f, RemovalOf(e)) ensures e == f {}
  }

  function IsProtected(preserved: set<string>): Entry -> bool {
    (e: Entry) => Normalize(e.email) in preserved
  }

  function IsProtectedChatgpt(preserved: set<string>): Entry -> bool {
    (e: Entry) => e.category.Chatgpt? && Normalize(e.email) in preserved
  }

  lemma {:induction false} ProtectedSplit(entries: seq<Entry>, preserved: set<string>)
    ensures Count(entries, Unprotected(preserved)) == |entries| - Count(entries, IsProtected(preserved))
    ensures Count(entries, UnprotectedChatgpt(preserved))
            == UsedChatgpt(entries) - Count(entries, IsProtectedChatgpt(preserved))
    ensures Count(entries, IsProtectedChatgpt(preserved)) <= Count(entries, IsProtected(preserved))
  {
    if entries != [] { ProtectedSplit(entries[..|entries| - 1], preserved); }
  }

  function Fixed(entries: seq<Entry>, preserved: set<string>): nat {
    Count(entries, IsProtected(preserved))
  }

  function FixedChatgpt(entries: seq<Entry>, preserved: set<string>): nat {
    Count(entries, IsProtectedChatgpt(preserved))
  }

  lemma SplitBounds(entries: seq<Entry>, preserved: set<string>)
    ensures FixedChatgpt(entries, preserved) <= UsedChatgpt(entries)
    ensures FixedChatgpt(entries, preserved) <= Fixed(entries, preserved) <= |entries| == UsedTotal(entries)
  {
    ProtectedSplit(entries, preserved);
    EverySeatIsUsed(entries);
  }

  // A loop plans nothing below its target and never goes below it.
  lemma {:induction false} LoopNeverOvershoots(entries: seq<Entry>, goal: Goal)
    requires AllIdentified(entries)
    ensures var (plan, rest) := PlanFor(entries, goal);
            if Count(entries, goal.counted) <= goal.target then plan == [] && rest == entries
            else Count(rest, goal.counted) >= goal.target
    decreases |entries|
  {
    if Count(entries, goal.counted) > goal.target && Filter(entries, goal.candidate) != [] {
      var e := Choice(entries, goal);
      ChoiceIsRemoved(entries, e);
      var gone := RemoveMatchingTakesOne(entries, RemovalOf(e));
      LoopNeverOvershoots(RemoveMatching(entries, RemovalOf(e)), goal);
    }
  }

  // Codex seats that removals planned for chatgpt seats take in the first loop.
  function Lost(limits: Limits, entries: seq<Entry>, required: nat, preserved: set<string>): nat
    requires AllIdentified(entries)
  {
    PlanForTakesCandidates(entries, FirstGoal(limits, required, preserved));
    var middle := PlanFor(entries, FirstGoal(limits, required, preserved)).1;
    CountOfFewer(middle, entries, IsCodex);
    Count(entries, IsCodex) - Count(middle, IsCodex)
  }

  ghost predicate TargetsMet(limits: Limits, entries: seq<Entry>, required: nat) {
    UsedChatgpt(entries) <= TargetChatgpt(limits, required) && UsedTotal(entries) <= TargetTotal(limits, required)
  }

  // The fewest seats whose removal meets both targets, by the counts alone.
  function Needed(limits: Limits, entries: seq<Entry>, required: nat): nat {
    Max(0, Max(UsedChatgpt(entries) - TargetChatgpt(limits, required), UsedTotal(entries) - TargetTotal(limits, required)))
  }

  // No choice of seats to keep meets the targets by removing fewer than needed.
  lemma NeededIsLeast(limits: Limits, entries: seq<Entry>, required: nat, kept: seq<Entry>)
    requires multiset(kept) <= multiset(entries) && TargetsMet(limits, kept, required)
    ensures Needed(limits, entries, required) <= |entries| - |kept|
  {
    CountOfFewer(kept, entries, IsCodex);
    EverySeatIsUsed(kept);
    EverySeatIsUsed(entries);
  }

  // For any seats: a plan that meets both targets has the length needed, where each
  // codex seat lost in the first loop counts as one more chatgpt seat to remove.
  lemma PlanLength(limits: Limits, entries: seq<Entry>, required: nat, preserved: set<string>)
    requires AllIdentified(entries)
    ensures var (plan, rest) := Plan(limits, entries, required, preserved);
            TargetsMet(limits, rest, required) ==>
              |plan| == Max(0, Max(UsedChatgpt(entries) - TargetChatgpt(limits, required)
                                   + Lost(limits, entries, required, preserved),
                                   UsedTotal(entries) - TargetTotal(limits, required)))
  {
    var first, second := FirstGoal(limits, required, preserved), SecondGoal(limits, required, preserved);
    PlanKeepsIdentified(entries, first);
    var (plan1, middle) := PlanFor(entries, first);
    var (plan2, rest) := PlanFor(middle, second);
    PlanForTakesCandidates(entries, first);
    PlanForTakesCandidates(middle, second);
    LoopNeverOvershoots(entries, first);
    LoopNeverOvershoots(middle, second);
    CountOfFewer(rest, middle, IsCodex);
    EverySeatIsUsed(entries);
    EverySeatIsUsed(middle);
    EverySeatIsUsed(rest);
  }

  // For any seats: the planned remaining seats miss a target only if the protected
  // ones among them miss it.
  lemma PlanStopsAtProtected(limits: Limits, entries: seq<Entry>, required: nat, preserved: set<string>)
    requires AllIdentified(entries)
    ensures var rest := Plan(limits, entries, required, preserved).1;
            && (UsedChatgpt(rest) <= TargetChatgpt(limits, required)
                <==> FixedChatgpt(rest, preserved) <= TargetChatgpt(limits, required))
            && (UsedTotal(rest) <= TargetTotal(limits, required)
                <==> Fixed(rest, preserved) <= TargetTotal(limits, required))
  {
    var first, second := FirstGoal(limits, required, preserved), SecondGoal(limits, required, preserved);
    TwoLoopsAreDone(entries, first, second);
    var rest := Plan(limits, entries, required, preserved).1;
    PlanForStops(rest, first);
    PlanForStops(rest, second);
    EverySeatIsUsed(rest);
    ProtectedSplit(rest, preserved);
    SplitBounds(rest, preserved);
  }

  // ----- what a removal may take instead of its own seat

  // Somewhere a seat of one sort stands before a seat of the other sort whose removal
  // would match it first.
  ghost predicate Takes(entries: seq<Entry>, sort: Entry -> bool, planned: Entry -> bool) {
    exists i, j :: TakesAt(entries, sort, planned, i, j)
  }

  ghost predicate TakesAt(entries: seq<Entry>, sort: Entry -> bool, planned: Entry -> bool, i: int, j: int) {
    0 <= i < j < |entries| && sort(entries[i]) && planned(entries[j]) && Matches(entries[i], RemovalOf(entries[j]))
  }

  // A codex seat stands before an unprotected chatgpt seat with its id or email.
  ghost predicate Confusable(entries: seq<Entry>, preserved: set<string>) {
    Takes(entries, IsCodex, UnprotectedChatgpt(preserved))
  }

  // A protected seat stands before an unprotected one with its id.
  ghost predicate Exposed(entries: seq<Entry>, preserved: set<string>) {
    Takes(entries, IsProtected(preserved), Unprotected(preserved))
  }

  // No two seats of a kind have the same id.
  ghost predicate DistinctIds(entries: seq<Entry>) {
    forall i, j :: 0 <= i < j < |entries| && entries[i].kind == entries[j].kind && Normalize(entries[i].id) != "" ==>
      Normalize(entries[i].id) != Normalize(entries[j].id)
  }

  lemma InterchangeableIsClear(entries: seq<Entry>, preserved: set<string>)
    requires Interchangeable(entries, preserved)
    ensures !Confusable(entries, preserved) && !Exposed(entries, preserved)
  {
    forall i, j
      ensures !TakesAt(entries, IsCodex, UnprotectedChatgpt(preserved), i, j)
      ensures !TakesAt(entries, IsProtected(preserved), Unprotected(preserved), i, j)
    {
      if 0 <= i < j < |entries| { assert entries[i] in entries && entries[j] in entries; }
    }
  }

  function Dropped(entries: seq<Entry>, k: nat): seq<Entry>
    requires k < |entries|
  {
    entries[..k] + entries[k + 1..]
  }

  lemma {:induction false} FirstMatch(entries: seq<Entry>, r: Removal) returns (k: nat)
    requires exists e :: e in entries && Matches(e, r)
    ensures k < |entries| && Matches(entries[k], r) && forall i :: 0 <= i < k ==> !Matches(entries[i], r)
    ensures RemoveMatching(entries, r) == Dropped(entries, k)
  {
    if Matches(entries[0], r) {
      k := 0;
    } else {
      assert entries == [entries[0]] + entries[1..];
      var m := FirstMatch(entries[1..], r);
      k := m + 1;
      assert Dropped(entries, k) == [entries[0]] + Dropped(entries[1..], m);
    }
  }

  lemma {:induction false} CountDropped(entries: seq<Entry>, k: nat, keep: Entry -> bool)
    requires k < |entries|
    ensures Count(entries, keep) == Count(Dropped(entries, k), keep) + if keep(entries[k]) then 1 else 0
  {
    assert entries == entries[..k] + [entries[k]] + entries[k + 1..];
    CountConcat(entries[..k], [entries[k]], keep);
    CountConcat(entries[..k] + [entries[k]], entries[k + 1..], keep);
    CountConcat(entries[..k], entries[k + 1..], keep);
    assert [entries[k]][..0] == [];
  }

  // The seat a loop takes: the first that the removal of its choice matches.
  lemma TakenSeat(entries: seq<Entry>, goal: Goal) returns (k: nat, m: nat)
    requires AllIdentified(entries) && Filter(entries, goal.candidate) != []
    ensures k <= m < |entries| && entries[m] == Choice(entries, goal) && goal.candidate(entries[m])
    ensures Matches(entries[k], RemovalOf(entries[m])) && forall i :: 0 <= i < k ==> !Matches(entries[i], RemovalOf(entries[m]))
    ensures RemoveMatching(entries, RemovalOf(Choice(entries, goal))) == Dropped(entries, k)
    ensures AllIdentified(Dropped(entries, k))
  {
    var e := Choice(entries, goal);
    ChoiceIsRemoved(entries, e);
    m :| 0 <= m < |entries| && entries[m] == e;
    k := FirstMatch(entries, RemovalOf(e));
  }

  lemma DroppedTakesLess(entries: seq<Entry>, k: nat, sort: Entry -> bool, planned: Entry -> bool)
    requires k < |entries| && !Takes(entries, sort, planned)
    ensures !Takes(Dropped(entries, k), sort, planned)
  {
    var rest := Dropped(entries, k);
    forall i, j ensures !TakesAt(rest, sort, planned, i, j) {
      if TakesAt(rest, sort, planned, i, j) {
        assert TakesAt(entries, sort, planned, if i < k then i else i + 1, if j < k then j else j + 1);
      }
    }
  }

  // A loop takes no seat of a sort that stands before none of its candidates.
  lemma {:induction false} NoneTaken(entries: seq<Entry>, goal: Goal, sort: Entry -> bool)
    requires AllIdentified(entries) && !Takes(entries, sort, goal.candidate)
    requires forall e :: sort(e) ==> !goal.candidate(e)
    ensures Count(PlanFor(entries, goal).1, sort) == Count(entries, sort)
    decreases |entries|
  {
    if Count(entries, goal.counted) > goal.target && Filter(entries, goal.candidate) != [] {
      var k, m := TakenSeat(entries, goal);
      assert !TakesAt(entries, sort, goal.candidate, k, m);
      CountDropped(entries, k, sort);
      DroppedTakesLess(entries, k, sort, goal.candidate);
      NoneTaken(Dropped(entries, k), goal, sort);
    }
  }

  lemma {:induction false} LoopKeepsClear(entries: seq<Entry>, goal: Goal, sort: Entry -> bool, planned: Entry -> bool)
    requires AllIdentified(entries) && !Takes(entries, sort, planned)
    ensures !Takes(PlanFor(entries, goal).1, sort, planned)
    decreases |entries|
  {
    if Count(entries, goal.counted) > goal.target && Filter(entries, goal.candidate) != [] {
      var k, m := TakenSeat(entries, goal);
      DroppedTakesLess(entries, k, sort, planned);
      LoopKeepsClear(Dropped(entries, k), goal, sort, planned);
    }
  }

  // ----- the exact length

  // How far `used` lies above its target and above what is fixed.
  function Excess(used: nat, target: nat, fixed: nat): nat { Max(0, used - Max(target, fixed)) }

  // Without exposed seats no loop takes a protected one.
  lemma ProtectedStay(limits: Limits, entries: seq<Entry>, required: nat, preserved: set<string>)
    requires AllIdentified(entries) && !Exposed(entries, preserved)
    ensures var middle := PlanFor(entries, FirstGoal(limits, required, preserved)).1;
            var rest := Plan(limits, entries, required, preserved).1;
            && Fixed(middle, preserved) == Fixed(rest, preserved) == Fixed(entries, preserved)
            && FixedChatgpt(middle, preserved) == FixedChatgpt(rest, preserved) == FixedChatgpt(entries, preserved)
  {
    var first, second := FirstGoal(limits, required, preserved), SecondGoal(limits, required, preserved);
    PlanKeepsIdentified(entries, first);
    LoopKeepsProtected(entries, first, preserved);
    LoopKeepsClear(entries, first, IsProtected(preserved), Unprotected(preserved));
    LoopKeepsProtected(PlanFor(entries, first).1, second, preserved);
  }

  lemma LoopKeepsProtected(entries: seq<Entry>, goal: Goal, preserved: set<string>)
    requires AllIdentified(entries) && !Exposed(entries, preserved)
    requires forall e :: goal.candidate(e) ==> Normalize(e.email) !in preserved
    ensures Fixed(PlanFor(entries, goal).1, preserved) == Fixed(entries, preserved)
    ensures FixedChatgpt(PlanFor(entries, goal).1, preserved) == FixedChatgpt(entries, preserved)
  {
    forall i, j
      ensures !TakesAt(entries, IsProtected(preserved), goal.candidate, i, j)
      ensures !TakesAt(entries, IsProtectedChatgpt(preserved), goal.candidate, i, j)
    {
      assert !TakesAt(entries, IsProtected(preserved), Unprotected(preserved), i, j);
    }
    NoneTaken(entries, goal, IsProtected(preserved));
    NoneTaken(entries, goal, IsProtectedChatgpt(preserved));
  }

  // Where the first loop takes no codex seat and no protected one, it brings the
  // chatgpt seats down to the target or to what is protected.
  lemma {:induction false} FirstLoopLength(limits: Limits, entries: seq<Entry>, required: nat, preserved: set<string>)
    requires AllIdentified(entries) && !Confusable(entries, preserved) && !Exposed(entries, preserved)
    ensures var (plan, middle) := PlanFor(entries, FirstGoal(limits, required, preserved));
            && |plan| == Excess(UsedChatgpt(entries), TargetChatgpt(limits, required), FixedChatgpt(entries, preserved))
            && |middle| == |entries| - |plan|
  {
    var goal := FirstGoal(limits, required, preserved);
    var middle := PlanFor(entries, goal).1;
    NoneTaken(entries, goal, IsCodex);
    ProtectedStay(limits, entries, required, preserved);
    PlanForTakesCandidates(entries, goal);
    LoopNeverOvershoots(entries, goal);
    PlanForStops(entries, goal);
    EverySeatIsUsed(entries);
    EverySeatIsUsed(middle);
    SplitBounds(entries, preserved);
    ProtectedSplit(middle, preserved);
  }

  lemma {:induction false} SecondLoopLength(limits: Limits, entries: seq<Entry>, required: nat, preserved: set<string>)
    requires AllIdentified(entries) && !Exposed(entries, preserved)
    ensures var middle := PlanFor(entries, FirstGoal(limits, required, preserved)).1;
            && AllIdentified(middle)
            && |PlanFor(middle, SecondGoal(limits, required, preserved)).0|
               == Excess(|middle|, TargetTotal(limits, required), Fixed(entries, preserved))
  {
    var goal := SecondGoal(limits, required, preserved);
    PlanKeepsIdentified(entries, FirstGoal(limits, required, preserved));
    var middle := PlanFor(entries, FirstGoal(limits, required, preserved)).1;
    var rest := PlanFor(middle, goal).1;
    ProtectedStay(limits, entries, required, preserved);
    PlanForTakesCandidates(middle, goal);
    LoopNeverOvershoots(middle, goal);
    PlanForStops(middle, goal);
    EverySeatIsUsed(middle);
    EverySeatIsUsed(rest);
    SplitBounds(middle, preserved);
    ProtectedSplit(rest, preserved);
  }

  // The plan's length is max(0, used chatgpt - target, used total - target), each
  // target raised to what is protected, and a target is met iff the protected
  // entries alone meet it.
  lemma PlanIsExact(limits: Limits, entries: seq<Entry>, required: nat, preserved: set<string>)
    requires AllIdentified(entries) && !Confusable(entries, preserved) && !Exposed(entries, preserved)
    ensures var (plan, rest) := Plan(limits, entries, required, preserved);
            var targetChatgpt, targetTotal := TargetChatgpt(limits, required), TargetTotal(limits, required);
            && |plan| == Max(Excess(UsedChatgpt(entries), targetChatgpt, FixedChatgpt(entries, preserved)),
                             Excess(UsedTotal(entries), targetTotal, Fixed(entries, preserved)))
            && (UsedChatgpt(rest) <= targetChatgpt <==> FixedChatgpt(entries, preserved) <= targetChatgpt)
            && (UsedTotal(rest) <= targetTotal <==> Fixed(entries, preserved) <= targetTotal)
  {
    FirstLoopLength(limits, entries, required, preserved);
    SecondLoopLength(limits, entries, required, preserved);
    ProtectedStay(limits, entries, required, preserved);
    PlanStopsAtProtected(limits, entries, required, preserved);
    EverySeatIsUsed(entries);
    SplitBounds(entries, preserved);
  }

  // After the plan the early-exit test succeeds iff nothing is required, or the
  // request fits the chatgpt limit and the protected entries that remain meet both
  // targets; without exposed seats these are all protected entries.
  lemma PlanMakesRoom(limits: Limits, entries: seq<Entry>, required: nat, preserved: set<string>)
    requires limits.Valid() && AllIdentified(entries)
    ensures var rest := Plan(limits, entries, required, preserved).1;
            EnoughCapacity(limits, rest, required) <==>
            required == 0 ||
            (required <= limits.chatgpt
             && FixedChatgpt(rest, preserved) <= TargetChatgpt(limits, required)
             && Fixed(rest, preserved) <= TargetTotal(limits, required))
    ensures !Exposed(entries, preserved) ==>
              var rest := Plan(limits, entries, required, preserved).1;
              Fixed(rest, preserved) == Fixed(entries, preserved)
              && FixedChatgpt(rest, preserved) == FixedChatgpt(entries, preserved)
  {
    PlanStopsAtProtected(limits, entries, required, preserved);
    EnoughCapacityIsTargetsMet(limits, Plan(limits, entries, required, preserved).1, required);
    if !Exposed(entries, preserved) { ProtectedStay(limits, entries, required, preserved); }
  }

  // ----- minimality

  // The targets are met whenever the protected entries alone meet them.
  lemma ReachableIsReached(limits: Limits, entries: seq<Entry>, required: nat, preserved: set<string>)
    requires AllIdentified(entries)
    requires FixedChatgpt(entries, preserved) <= TargetChatgpt(limits, required)
    requires Fixed(entries, preserved) <= TargetTotal(limits, required)
    ensures TargetsMet(limits, Plan(limits, entries, required, preserved).1, required)
  {
    var rest := Plan(limits, entries, required, preserved).1;
    PlanStopsAtProtected(limits, entries, required, preserved);
    PlanIsSafe(limits, entries, required, preserved);
    CountOfFewer(rest, entries, IsProtected(preserved));
    CountOfFewer(rest, entries, IsProtectedChatgpt(preserved));
  }

  // The plan is minimal: without a confusable pair, when the protected entries meet
  // both targets, it removes exactly what is needed, and no choice of entries to
  // keep meets both targets by removing fewer.
  lemma PlanIsMinimal(limits: Limits, entries: seq<Entry>, required: nat, preserved: set<string>, kept: seq<Entry>)
    requires AllIdentified(entries) && !Confusable(entries, preserved)
    requires FixedChatgpt(entries, preserved) <= TargetChatgpt(limits, required)
    requires Fixed(entries, preserved) <= TargetTotal(limits, required)
    requires multiset(kept) <= multiset(entries) && TargetsMet(limits, kept, required)
    ensures var (plan, rest) := Plan(limits, entries, required, preserved);
            && TargetsMet(limits, rest, required)
            && |plan| == Max(0, Max(UsedChatgpt(entries) - TargetChatgpt(limits, required),
                                    UsedTotal(entries) - TargetTotal(limits, required)))
            && |plan| <= |entries| - |kept|
  {
    ReachableIsReached(limits, entries, required, preserved);
    NoneTaken(entries, FirstGoal(limits, required, preserved), IsCodex);
    PlanLength(limits, entries, required, preserved);
    NeededIsLeast(limits, entries, required, kept);
  }

  // Whenever a plan for these entries meets both targets, it is as short as possible.
  ghost predicate AlwaysMinimal(entries: seq<Entry>, preserved: set<string>)
    requires AllIdentified(entries)
  {
    forall limits: Limits, required: nat | limits.Valid() :: MinimalFor(limits, entries, required, preserved)
  }

  ghost predicate MinimalFor(limits: Limits, entries: seq<Entry>, required: nat, preserved: set<string>)
    requires AllIdentified(entries)
  {
    var (plan, rest) := Plan(limits, entries, required, preserved);
    TargetsMet(limits, rest, required) ==> |plan| == Needed(limits, entries, required)
  }

  lemma DroppedIdsStayDistinct(entries: seq<Entry>, k: nat)
    requires k < |entries| && DistinctIds(entries)
    ensures DistinctIds(Dropped(entries, k))
  {
    var rest := Dropped(entries, k);
    forall i, j | 0 <= i < j < |rest| && rest[i].kind == rest[j].kind && Normalize(rest[i].id) != ""
      ensures Normalize(rest[i].id) != Normalize(rest[j].id)
    {
      assert rest[i] == entries[if i < k then i else i + 1] && rest[j] == entries[if j < k then j else j + 1];
    }
  }

  // With distinct ids a removal can match an earlier seat only by its email.
  lemma MatchesByEmail(entries: seq<Entry>, i: nat, j: nat)
    requires DistinctIds(entries) && i < j < |entries| && Matches(entries[i], RemovalOf(entries[j]))
    ensures entries[i].kind == entries[j].kind && Normalize(entries[j].email) != ""
    ensures Normalize(entries[i].email) == Normalize(entries[j].email)
  {
  }

  // The first seat that a removal matches has no such seat before it.
  lemma FirstIsNotConfused(entries: seq<Entry>, i: nat, k: nat, m: nat)
    requires DistinctIds(entries) && i < k <= m < |entries|
    requires Matches(entries[k], RemovalOf(entries[m])) && !Matches(entries[i], RemovalOf(entries[m]))
    ensures !Matches(entries[i], RemovalOf(entries[k]))
  {
    if Matches(entries[i], RemovalOf(entries[k])) {
      MatchesByEmail(entries, i, k);
      if k < m { MatchesByEmail(entries, k, m); }
      assert false;
    }
  }

  // If the first loop takes a chatgpt seat, a confusable pair stays one.
  lemma {:induction false} PairSurvives(entries: seq<Entry>, preserved: set<string>, i: nat, j: nat, k: nat, m: nat)
    requires DistinctIds(entries) && TakesAt(entries, IsCodex, UnprotectedChatgpt(preserved), i, j)
    requires k <= m < |entries| && Matches(entries[k], RemovalOf(entries[m])) && entries[k].category.Chatgpt?
    requires forall h :: 0 <= h < k ==> !Matches(entries[h], RemovalOf(entries[m]))
    ensures Confusable(Dropped(entries, k), preserved)
  {
    if k == j { FirstIsNotConfused(entries, i, k, m); }
    var rest, x, y := Dropped(entries, k), if i < k then i else i - 1, if j < k then j else j - 1;
    assert i != k && rest[x] == entries[i] && rest[y] == entries[j];
    assert TakesAt(rest, IsCodex, UnprotectedChatgpt(preserved), x, y);
  }

  lemma PairIsCandidate(entries: seq<Entry>, preserved: set<string>)
    requires Confusable(entries, preserved)
    ensures Filter(entries, UnprotectedChatgpt(preserved)) != []
    ensures UsedChatgpt(entries) > FixedChatgpt(entries, preserved)
  {
    var i, j :| TakesAt(entries, IsCodex, UnprotectedChatgpt(preserved), i, j);
    assert entries[j] in Filter(entries, UnprotectedChatgpt(preserved));
    ProtectedSplit(entries, preserved);
  }

  // Taking an unprotected chatgpt seat leaves the rest as confusable as before.
  lemma TakenChatgpt(entries: seq<Entry>, preserved: set<string>, k: nat, m: nat)
    requires DistinctIds(entries) && Confusable(entries, preserved)
    requires k <= m < |entries| && UnprotectedChatgpt(preserved)(entries[m]) && entries[k].category.Chatgpt?
    requires Matches(entries[k], RemovalOf(entries[m])) && forall h :: 0 <= h < k ==> !Matches(entries[h], RemovalOf(entries[m]))
    ensures DistinctIds(Dropped(entries, k)) && Confusable(Dropped(entries, k), preserved)
    ensures FixedChatgpt(Dropped(entries, k), preserved) == FixedChatgpt(entries, preserved)
  {
    var i, j :| TakesAt(entries, IsCodex, UnprotectedChatgpt(preserved), i, j);
    if k < m { MatchesByEmail(entries, k, m); }
    CountDropped(entries, k, IsProtectedChatgpt(preserved));
    PairSurvives(entries, preserved, i, j, k, m);
    DroppedIdsStayDistinct(entries, k);
  }

  lemma LoopLosesNoCodexBack(entries: seq<Entry>, k: nat, goal: Goal)
    requires k < |entries| && AllIdentified(Dropped(entries, k))
    ensures Count(PlanFor(Dropped(entries, k), goal).1, IsCodex)
            <= Count(entries, IsCodex) - if entries[k].category.Codex? then 1 else 0
  {
    var rest := Dropped(entries, k);
    CountDropped(entries, k, IsCodex);
    PlanForTakesCandidates(rest, goal);
    CountOfFewer(PlanFor(rest, goal).1, rest, IsCodex);
  }

  // A loop down to the protected chatgpt seats meets every confusable pair.
  lemma {:induction false} ConfusableLoses(entries: seq<Entry>, preserved: set<string>)
    requires AllIdentified(entries) && DistinctIds(entries) && Confusable(entries, preserved)
    ensures var goal := ChatgptGoal(FixedChatgpt(entries, preserved), preserved);
            Count(PlanFor(entries, goal).1, IsCodex) < Count(entries, IsCodex)
    decreases |entries|
  {
    var goal := ChatgptGoal(FixedChatgpt(entries, preserved), preserved);
    PairIsCandidate(entries, preserved);
    var k, m := TakenSeat(entries, goal);
    LoopLosesNoCodexBack(entries, k, goal);
    assert PlanFor(entries, goal).1 == PlanFor(Dropped(entries, k), goal).1;
    if entries[k].category.Chatgpt? {
      TakenChatgpt(entries, preserved, k, m);
      CountDropped(entries, k, IsCodex);
      ConfusableLoses(Dropped(entries, k), preserved);
    }
  }

  lemma ClearIsMinimal(limits: Limits, entries: seq<Entry>, required: nat, preserved: set<string>)
    requires AllIdentified(entries) && !Confusable(entries, preserved)
    ensures MinimalFor(limits, entries, required, preserved)
  {
    NoneTaken(entries, FirstGoal(limits, required, preserved), IsCodex);
    PlanLength(limits, entries, required, preserved);
  }

  // Limits under which every unprotected chatgpt seat has to go, and nothing else.
  function TightLimits(entries: seq<Entry>, preserved: set<string>): Limits {
    var fixed := FixedChatgpt(entries, preserved);
    Limits(fixed + |entries| + 1, fixed + 1, 0, {})
  }

  lemma {:induction false} ConfusableIsLonger(entries: seq<Entry>, preserved: set<string>)
    requires AllIdentified(entries) && DistinctIds(entries) && Confusable(entries, preserved)
    ensures !MinimalFor(TightLimits(entries, preserved), entries, 1, preserved)
  {
    var limits := TightLimits(entries, preserved);
    ConfusableLoses(entries, preserved);
    PairIsCandidate(entries, preserved);
    SplitBounds(entries, preserved);
    ReachableIsReached(limits, entries, 1, preserved);
    PlanLength(limits, entries, 1, preserved);
    assert FirstGoal(limits, 1, preserved) == ChatgptGoal(FixedChatgpt(entries, preserved), preserved);
  }

  // For seats with distinct ids: plans are minimal, whatever the limits and the seats
  // required, iff no codex seat stands before an unprotected chatgpt seat that its
  // removal would confuse it with.  Without a confusable pair they are minimal for
  // any ids.
  lemma PlanIsMinimalIff(entries: seq<Entry>, preserved: set<string>)
    requires AllIdentified(entries)
    ensures !Confusable(entries, preserved) ==> AlwaysMinimal(entries, preserved)
    ensures DistinctIds(entries) ==> (AlwaysMinimal(entries, preserved) <==> !Confusable(entries, preserved))
  {
    if !Confusable(entries, preserved) {
      forall limits: Limits, required: nat | limits.Valid() ensures MinimalFor(limits, entries, required, preserved) {
        ClearIsMinimal(limits, entries, required, preserved);
      }
    } else if DistinctIds(entries) {
      ConfusableIsLonger(entries, preserved);
      assert TightLimits(entries, preserved).Valid();
    }
  }

  const CODEX_SEAT := Entry(Invite, "a", "x", Codex)
  const CHATGPT_SEAT := Entry(Invite, "b", "x", Chatgpt)

  lemma SingleChatgptSeat()
    ensures Identified(CODEX_SEAT) && Identified(CHATGPT_SEAT) && Normalize("x") == "x"
    ensures RemoveMatching([CHATGPT_SEAT], RemovalOf(CHATGPT_SEAT)) == []
    ensures PlanFor([CHATGPT_SEAT], ChatgptGoal(0, {})) == ([CHATGPT_SEAT], [])
  {
    assert Trim("x") == "x";
    var goal := ChatgptGoal(0, {});
    assert [CHATGPT_SEAT][..0] == [];
    assert Filter([CHATGPT_SEAT], goal.candidate) == [CHATGPT_SEAT];
    assert Choice([CHATGPT_SEAT], goal) == CHATGPT_SEAT;
    assert Count([], goal.counted) == 0;
    assert PlanFor([], goal) == ([], []);
    assert Count([CHATGPT_SEAT], goal.counted) == 1;
    assert AllIdentified([CHATGPT_SEAT]);
    assert [CHATGPT_SEAT] + [] == [CHATGPT_SEAT];
  }

  lemma NothingLeftToPlan(goal: Goal)
    ensures PlanFor([], goal) == ([], [])
  {
    assert Filter([], goal.candidate) == [];
  }

  lemma SeatsAreConfusable()
    ensures var entries := [CODEX_SEAT, CHATGPT_SEAT];
            AllIdentified(entries) && DistinctIds(entries) && Confusable(entries, {})
  {
    var entries := [CODEX_SEAT, CHATGPT_SEAT];
    SingleChatgptSeat();
    assert TakesAt(entries, IsCodex, UnprotectedChatgpt({}), 0, 1);
    assert Normalize("a") == "a" && Normalize("b") == "b" by { assert Trim("a") == "a" && Trim("b") == "b"; }
  }

  // With a confusable pair the plan can be too long: the removal planned for
  // the chatgpt invite "b" takes the codex invite that shares its email, and the
  // invite itself has to be planned again.  With the default limits and four seats
  // required one removal would do.
  lemma SharedEmailMissesTarget()
    ensures var limits, entries := Limits(9, 4, 9, {}), [CODEX_SEAT, CHATGPT_SEAT];
            && limits.Valid() && AllIdentified(entries) && DistinctIds(entries) && Confusable(entries, {})
            && Plan(limits, entries, 4, {}) == ([CHATGPT_SEAT, CHATGPT_SEAT], [])
            && UsedChatgpt([CODEX_SEAT]) <= TargetChatgpt(limits, 4) && UsedTotal([CODEX_SEAT]) <= TargetTotal(limits, 4)
  {
    SingleChatgptSeat();
    var limits, entries, goal := Limits(9, 4, 9, {}), [CODEX_SEAT, CHATGPT_SEAT], ChatgptGoal(0, {});
    assert FirstGoal(limits, 4, {}) == goal;
    assert entries[..1] == [CODEX_SEAT] && [CODEX_SEAT][..0] == [];
    assert CODEX_SEAT in entries && CHATGPT_SEAT in entries;
    assert Matches(CODEX_SEAT, RemovalOf(CHATGPT_SEAT));
    assert Filter([CODEX_SEAT], goal.candidate) == [];
    assert Filter(entries, goal.candidate) == [CHATGPT_SEAT];
    assert Choice(entries, goal) == CHATGPT_SEAT;
    assert RemoveMatching(entries, RemovalOf(CHATGPT_SEAT)) == [CHATGPT_SEAT];
    assert Count([CODEX_SEAT], IsChatgpt) == 0;
    assert Count(entries, IsChatgpt) == 1 && goal.counted == IsChatgpt;
    assert PlanFor(entries, goal) == ([CHATGPT_SEAT] + [CHATGPT_SEAT], []);
    NothingLeftToPlan(SecondGoal(limits, 4, {}));
    assert [CHATGPT_SEAT] + [CHATGPT_SEAT] + [] == [CHATGPT_SEAT, CHATGPT_SEAT];
    EverySeatIsUsed([CODEX_SEAT]);
    SeatsAreConfusable();
  }

  // ----- carrying the plan out

  // The outcome of one removal call; a user that is already gone counts as removed.
  datatype Outcome = Done | NotFound | Failed

  predicate Frees(e: Entry, outcome: Outcome) {
    outcome.Done? || (outcome.NotFound? && e.kind.User?)
  }

  // The operation as it is recorded for the projected snapshot.
  function Operation(e: Entry): Removal {
    Removal(e.kind, Trim(e.id), Normalize(e.email))
  }

  method CarryOut(entries: seq<Entry>, plan: seq<Entry>, outcomes: seq<Outcome>)
    returns (actual: seq<Entry>, failures: nat)
    requires |outcomes| == |plan|
    ensures actual == Projected(entries, plan, outcomes)
    ensures failures == 0 <==> forall i :: 0 <= i < |plan| ==> Frees(plan[i], outcomes[i])
  {
    actual, failures := entries, 0;
    for i := 0 to |plan|
      invariant Projected(actual, plan[i..], outcomes[i..]) == Projected(entries, plan, outcomes)
      invariant failures == 0 <==> forall k :: 0 <= k < i ==> Frees(plan[k], outcomes[k])
    {
      if Frees(plan[i], outcomes[i]) {
        actual := RemoveMatchingEntry(actual, Operation(plan[i]));
      } else {
        failures := failures + 1;
      }
    }
  }

  function Projected(entries: seq<Entry>, plan: seq<Entry>, outcomes: seq<Outcome>): seq<Entry>
    requires |outcomes| == |plan|
    decreases |plan|
  {
    if plan == [] then entries
    else Projected(if Frees(plan[0], outcomes[0]) then RemoveMatching(entries, Operation(plan[0])) else entries,
                   plan[1..], outcomes[1..])
  }

  lemma {:induction false} OperationRemovesTheSame(entries: seq<Entry>, e: Entry)
    ensures RemoveMatching(entries, Operation(e)) == RemoveMatching(entries, RemovalOf(e))
  {
    NormalizeIsIdempotent(e.id);
    NormalizeIsIdempotent(e.email);
    if entries != [] { OperationRemovesTheSame(entries[1..], e); }
  }

  lemma {:induction false} ProjectedInParts(entries: seq<Entry>, a: seq<Entry>, b: seq<Entry>,
                                            oa: seq<Outcome>, ob: seq<Outcome>)
    requires |oa| == |a| && |ob| == |b|
    decreases |a|
    ensures Projected(entries, a + b, oa + ob) == Projected(Projected(entries, a, oa), b, ob)
  {
    if a == [] {
      assert a + b == b && oa + ob == ob;
    } else {
      assert (a + b)[1..] == a[1..] + b && (oa + ob)[1..] == oa[1..] + ob;
      ProjectedInParts(if Frees(a[0], oa[0]) then RemoveMatching(entries, Operation(a[0])) else entries,
                       a[1..], b, oa[1..], ob);
    }
  }

  // A call that fails, or does not find its invite, leaves the projected seats alone.
  lemma {:induction false} UnfreedSeatsStay(entries: seq<Entry>, plan: seq<Entry>, outcomes: seq<Outcome>)
    requires |outcomes| == |plan|
    requires forall i :: 0 <= i < |plan| ==> outcomes[i].Failed? || (outcomes[i].NotFound? && plan[i].kind.Invite?)
    ensures Projected(entries, plan, outcomes) == entries
    decreases |plan|
  {
    if plan != [] { UnfreedSeatsStay(entries, plan[1..], outcomes[1..]); }
  }

  // Every call removes its seat or finds that its user is already gone.
  ghost predicate AllFree(plan: seq<Entry>, outcomes: seq<Outcome>) {
    |outcomes| == |plan|
    && forall i :: 0 <= i < |plan| ==> outcomes[i].Done? || (outcomes[i].NotFound? && plan[i].kind.User?)
  }

  // What a loop that goes on plans first.
  lemma {:induction false} PlanForTakes(entries: seq<Entry>, goal: Goal) returns (e: Entry, rest: seq<Entry>)
    requires AllIdentified(entries) && Count(entries, goal.counted) > goal.target && Filter(entries, goal.candidate) != []
    ensures rest == RemoveMatching(entries, RemovalOf(e)) && AllIdentified(rest) && |rest| < |entries|
    ensures PlanFor(entries, goal) == ([e] + PlanFor(rest, goal).0, PlanFor(rest, goal).1)
  {
    e := Choice(entries, goal);
    ChoiceIsRemoved(entries, e);
    rest := RemoveMatching(entries, RemovalOf(e));
  }

  lemma {:induction false} LoopReplays(entries: seq<Entry>, goal: Goal, outcomes: seq<Outcome>)
    requires AllIdentified(entries) && AllFree(PlanFor(entries, goal).0, outcomes)
    ensures Projected(entries, PlanFor(entries, goal).0, outcomes) == PlanFor(entries, goal).1
    decreases |entries|
  {
    if Count(entries, goal.counted) > goal.target && Filter(entries, goal.candidate) != [] {
      var e, rest := PlanForTakes(entries, goal);
      OperationRemovesTheSame(entries, e);
      var plan := PlanFor(rest, goal).0;
      assert ([e] + plan)[0] == e && ([e] + plan)[1..] == plan;
      LoopReplays(rest, goal, outcomes[1..]);
    }
  }

  lemma AllFreeInParts(a: seq<Entry>, b: seq<Entry>, outcomes: seq<Outcome>)
    requires AllFree(a + b, outcomes)
    ensures AllFree(a, outcomes[..|a|]) && AllFree(b, outcomes[|a|..])
    ensures outcomes == outcomes[..|a|] + outcomes[|a|..]
  {
    forall i | 0 <= i < |a| ensures a[i] == (a + b)[i] {}
    forall i | 0 <= i < |b| ensures b[i] == (a + b)[|a| + i] {}
  }

  // If every call frees its seat, the projected snapshot is the planned one, for
  // any list of entries.
  lemma FullSuccessIsAsPlanned(limits: Limits, entries: seq<Entry>, required: nat, preserved: set<string>,
                               outcomes: seq<Outcome>)
    requires AllIdentified(entries) && AllFree(Plan(limits, entries, required, preserved).0, outcomes)
    ensures var (plan, rest) := Plan(limits, entries, required, preserved);
            Projected(entries, plan, outcomes) == rest
  {
    var first, second := FirstGoal(limits, required, preserved), SecondGoal(limits, required, preserved);
    PlanKeepsIdentified(entries, first);
    var (plan1, middle) := PlanFor(entries, first);
    var plan2 := PlanFor(middle, second).0;
    AllFreeInParts(plan1, plan2, outcomes);
    LoopReplays(entries, first, outcomes[..|plan1|]);
    LoopReplays(middle, second, outcomes[|plan1|..]);
    ProjectedInParts(entries, plan1, plan2, outcomes[..|plan1|], outcomes[|plan1|..]);
  }

  // ----- the whole decision

  datatype Decision =
    | NoSeats
    | CapacityAvailable
    | Planned(removals: seq<Entry>, remaining: seq<Entry>)

  // The seats the caller wants back; None asks for the configured default.
  function RequiredSeats(requested: Option<int>, default: int): nat {
    Max(0, if requested.Some? then requested.value else default)
  }

  function PreservedEmails(emails: seq<string>): set<string> {
    set e | e in emails && Normalize(e) != "" :: Normalize(e)
  }

  // No preserved member and no owner is among the removals.
  ghost predicate Spares(limits: Limits, users: seq<ListedUser>, ownerEmail: string, preserve: seq<string>,
                         removals: seq<Entry>)
  {
    && (forall e, p :: e in removals && p in preserve && Normalize(p) != "" ==> Normalize(e.email) != Normalize(p))
    && (forall e :: e in removals && e.kind.User? ==> exists u :: u in users && MayLose(limits, u, ownerEmail, e))
  }

  // e is the seat of a user who is neither an owner nor the owner of the account.
  ghost predicate MayLose(limits: Limits, u: ListedUser, ownerEmail: string, e: Entry) {
    && FromUser(limits, e, u)
    && Normalize(u.role) !in ["owner", "account-owner"]
    && (Normalize(u.email) == "" || Normalize(u.email) != Normalize(ownerEmail))
  }

  lemma {:induction false} PlanSpares(limits: Limits, invites: seq<ListedInvite>, users: seq<ListedUser>,
                                      ownerEmail: string, required: nat, preserve: seq<string>)
    requires AllIdentified(SeatEntries(limits, invites, users, ownerEmail))
    ensures var entries := SeatEntries(limits, invites, users, ownerEmail);
            Spares(limits, users, ownerEmail, preserve, Plan(limits, entries, required, PreservedEmails(preserve)).0)
  {
    var entries, preserved := SeatEntries(limits, invites, users, ownerEmail), PreservedEmails(preserve);
    PlanIsSafe(limits, entries, required, preserved);
    InviteEntriesAreInvites(limits, invites);
    UserEntriesMayGo(limits, users, ownerEmail);
    UnpreservedAreSpared(limits, users, ownerEmail, preserve, InviteEntries(limits, invites),
                         UserEntries(limits, users, ownerEmail), Plan(limits, entries, required, preserved).0);
  }

  lemma {:induction false} UserEntriesMayGo(limits: Limits, users: seq<ListedUser>, ownerEmail: string)
    ensures forall e :: e in UserEntries(limits, users, ownerEmail) ==>
              exists u :: u in users && MayLose(limits, u, ownerEmail, e)
  {
    UserEntriesSkipOwners(limits, users, ownerEmail);
    forall e | e in UserEntries(limits, users, ownerEmail) ensures exists u :: u in users && MayLose(limits, u, ownerEmail, e) {
      var u :| u in users && !IsOwner(u, ownerEmail) && FromUser(limits, e, u);
      assert MayLose(limits, u, ownerEmail, e);
    }
  }

  lemma UnpreservedAreSpared(limits: Limits, users: seq<ListedUser>, ownerEmail: string, preserve: seq<string>,
                             invited: seq<Entry>, listed: seq<Entry>, removals: seq<Entry>)
    requires forall e :: e in invited ==> e.kind.Invite?
    requires forall e :: e in listed ==> exists u :: u in users && MayLose(limits, u, ownerEmail, e)
    requires forall e :: e in removals ==> e in invited + listed && Normalize(e.email) !in PreservedEmails(preserve)
    ensures Spares(limits, users, ownerEmail, preserve, removals)
  {
    assert forall p :: p in preserve && Normalize(p) != "" ==> Normalize(p) in PreservedEmails(preserve);
    forall e | e in removals && e.kind.User? ensures exists u :: u in users && MayLose(limits, u, ownerEmail, e) {
      assert e in listed;
    }
  }

  // Owners and preserved members are never planned for removal, and nothing is
  // planned when there are no seats or the capacity is there already.
  method DecideCleanup(limits: Limits, invites: seq<ListedInvite>, users: seq<ListedUser>, ownerEmail: string,
                       preserve: seq<string>, requested: Option<int>, default: int)
    returns (decision: Decision)
    ensures var entries := SeatEntries(limits, invites, users, ownerEmail);
            var required: nat := Max(0, if requested.Some? then requested.value else default);
            && (decision.NoSeats? <==> invites == [] && forall u :: u in users ==> IsOwner(u, ownerEmail))
            && (decision.CapacityAvailable? <==> !decision.NoSeats? && EnoughCapacity(limits, entries, required))
            && (decision.Planned? ==>
                  && AllIdentified(entries)
                  && (decision.removals, decision.remaining)
                     == Plan(limits, entries, required, PreservedEmails(preserve)))
    ensures decision.Planned? ==> Spares(limits, users, ownerEmail, preserve, decision.removals)
  {
    var removable := Filter(users, (u: ListedUser) => !IsOwner(u, ownerEmail));
    if invites == [] && removable == [] {
      assert forall u :: u in users && !IsOwner(u, ownerEmail) ==> u in removable;
      return NoSeats;
    }
    if removable != [] {
      assert removable[0] in removable;
    }
    var entries := CollectEntries(limits, invites, users, ownerEmail);
    InviteEntriesAreInvites(limits, invites);
    UserEntriesSkipOwners(limits, users, ownerEmail);
    var required := RequiredSeats(requested, default);
    if EnoughCapacity(limits, entries, required) {
      return CapacityAvailable;
    }
    var preserved := PreservedEmails(preserve);
    PlanSpares(limits, invites, users, ownerEmail, required, preserve);
    var removals, remaining := PlanRemovals(limits, entries, required, preserved);
    decision := Planned(removals, remaining);
  }
}
