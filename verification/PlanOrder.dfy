// Which seat the planner removes next (providers/python/src/new_protocol_register/magic.py),
// told by the seats that are left before each removal, and which seat a removal takes.
module PlanOrder {
  import opened Ordering
  import opened Text
  import opened SeatPlanner

  // ----- whose seats there are

  // The entry of an invite or user with an id or an email.
  ghost predicate Stands(limits: Limits, kind: Kind, id: string, email: string, seatType: string, e: Entry) {
    && (Trim(id) != "" || Normalize(email) != "")
    && e == Entry(kind, Trim(id), Normalize(email), if Normalize(seatType) in limits.codexTypes then Codex else Chatgpt)
  }

  ghost predicate Owns(u: ListedUser, ownerEmail: string) {
    || Normalize(u.role) == "owner" || Normalize(u.role) == "account-owner"
    || (Normalize(u.email) != "" && Normalize(u.email) == Normalize(ownerEmail))
  }

  lemma {:induction false} InvitesAreListed(limits: Limits, invites: seq<ListedInvite>, e: Entry)
    ensures e in InviteEntries(limits, invites)
            <==> exists i :: i in invites && Stands(limits, Invite, i.id, i.email, i.seatType, e)
  {
    if invites != [] {
      var before, last := invites[..|invites| - 1], invites[|invites| - 1];
      InvitesAreListed(limits, before, e);
      assert invites == before + [last];
      if i :| i in before && Stands(limits, Invite, i.id, i.email, i.seatType, e) { assert i in invites; }
      if Stands(limits, Invite, last.id, last.email, last.seatType, e) { assert last in invites; }
    }
  }

  // The seats are those of the invites and of the users that are no owners, each codex iff
  // its type is one of the codex types.
  lemma EntriesAreListed(limits: Limits, invites: seq<ListedInvite>, users: seq<ListedUser>, ownerEmail: string, e: Entry)
    ensures e in SeatEntries(limits, invites, users, ownerEmail)
            <==> || (exists i :: i in invites && Stands(limits, Invite, i.id, i.email, i.seatType, e))
                 || (exists u :: u in users && !Owns(u, ownerEmail) && Stands(limits, User, u.id, u.email, u.seatType, e))
  {
    InvitesAreListed(limits, invites, e);
    UserEntriesSkipOwners(limits, users, ownerEmail);
    forall u: ListedUser
      ensures FromUser(limits, e, u) <==> Stands(limits, User, u.id, u.email, u.seatType, e)
      ensures IsOwner(u, ownerEmail) <==> Owns(u, ownerEmail)
    {
    }
  }

  // ----- which seat a removal takes

  // An entry of the planned kind with its id or its email.
  ghost predicate Same(e: Entry, planned: Entry) {
    && e.kind == planned.kind
    && ((Normalize(planned.id) != "" && Normalize(e.id) == Normalize(planned.id))
        || (Normalize(planned.email) != "" && Normalize(e.email) == Normalize(planned.email)))
  }

  // A planned removal takes the first entry of its kind with its id or its email, and
  // leaves all others in their order.
  lemma RemovalTakesFirst(entries: seq<Entry>, planned: Entry) returns (k: nat)
    requires exists e :: e in entries && Same(e, planned)
    ensures k < |entries| && Same(entries[k], planned) && forall i :: 0 <= i < k ==> !Same(entries[i], planned)
    ensures RemoveMatching(entries, RemovalOf(planned)) == entries[..k] + entries[k + 1..]
  {
    var r := RemovalOf(planned);
    forall e ensures Same(e, planned) <==> Matches(e, r) {}
    var e :| e in entries && Same(e, planned);
    assert Matches(e, r);
    k := FirstMatch(entries, r);
  }

  // ----- which seat is planned next

  // The seats left once the planned ones were taken off the list.
  function Left(entries: seq<Entry>, plan: seq<Entry>): seq<Entry>
    decreases |plan|
  {
    if plan == [] then entries else Left(RemoveMatching(entries, RemovalOf(plan[0])), plan[1..])
  }

  // e is among the seats that may be taken, and of those it has the preferred category
  // if any has, then is an invite if any of its category is, then has the smallest email.
  ghost predicate ComesFirst(left: seq<Entry>, may: Entry -> bool, preferred: Category, e: Entry) {
    && e in left && may(e)
    && forall f :: f in left && may(f) ==> Yields(f, e, preferred)
  }

  ghost predicate Yields(f: Entry, e: Entry, preferred: Category) {
    && (f.category == preferred ==> e.category == preferred)
    && (f.category == e.category && f.kind.Invite? ==> e.kind.Invite?)
    && (f.category == e.category && f.kind == e.kind ==> LexLe(Normalize(e.email), Normalize(f.email)))
  }

  lemma KeyOrders(preferred: Category)
    ensures TotalPreorder(Order(preferred))
  {
    var le := Order(preferred);
    forall a, b ensures le(a, b) || le(b, a) { LexTotal(Normalize(a.email), Normalize(b.email)); }
    forall a, b, c | le(a, b) && le(b, c) ensures le(a, c) { KeyIsTransitive(preferred, a, b, c); }
  }

  lemma KeyIsTransitive(preferred: Category, a: Entry, b: Entry, c: Entry)
    requires KeyLe(preferred, a, b) && KeyLe(preferred, b, c)
    ensures KeyLe(preferred, a, c)
  {
    var x, y, z := Normalize(a.email), Normalize(b.email), Normalize(c.email);
    if LexLe(x, y) && LexLe(y, z) { LexTransitive(x, y, z); }
  }

  // A loop plans the seat that comes first.
  lemma ChoiceComesFirst(entries: seq<Entry>, goal: Goal)
    requires Filter(entries, goal.candidate) != []
    ensures ComesFirst(entries, goal.candidate, goal.preferred, Choice(entries, goal))
  {
    var candidates, le := Filter(entries, goal.candidate), Order(goal.preferred);
    var sorted := Sort(candidates, le);
    KeyOrders(goal.preferred);
    SortOrders(candidates, le);
    forall f | f in entries && goal.candidate(f) ensures Yields(f, sorted[0], goal.preferred) {
      assert f in multiset(candidates);
      var j :| 0 <= j < |sorted| && sorted[j] == f;
      assert le(sorted[0], f) by { if j == 0 { assert le(f, f) || le(f, f); } }
    }
  }

  lemma {:induction false} LeftInParts(entries: seq<Entry>, a: seq<Entry>, b: seq<Entry>)
    ensures Left(entries, a + b) == Left(Left(entries, a), b)
    decreases |a|
  {
    if a == [] {
      assert a + b == b;
    } else {
      assert (a + b)[1..] == a[1..] + b;
      LeftInParts(RemoveMatching(entries, RemovalOf(a[0])), a[1..], b);
    }
  }

  // What a loop that goes on plans, and what it goes on with.
  lemma {:induction false} LoopTakes(entries: seq<Entry>, goal: Goal, plan: seq<Entry>, rest: seq<Entry>)
    returns (fewer: seq<Entry>)
    requires AllIdentified(entries) && (plan, rest) == PlanFor(entries, goal) && plan != []
    ensures Count(entries, goal.counted) > goal.target && ComesFirst(entries, goal.candidate, goal.preferred, plan[0])
    ensures AllIdentified(fewer) && |fewer| < |entries| && multiset(fewer) <= multiset(entries)
    ensures fewer == RemoveMatching(entries, RemovalOf(plan[0])) && (plan[1..], rest) == PlanFor(fewer, goal)
  {
    var e := Choice(entries, goal);
    fewer := RemoveMatching(entries, RemovalOf(e));
    assert plan == [e] + plan[1..];
    ChoiceIsRemoved(entries, e);
    ChoiceComesFirst(entries, goal);
    var gone := RemoveMatchingTakesOne(entries, RemovalOf(e));
  }

  // Before its n-th removal the loop is above its target and plans the seat that comes
  // first; after the last one the seats it leaves are left.
  ghost predicate InTurn(entries: seq<Entry>, goal: Goal, plan: seq<Entry>, rest: seq<Entry>, n: nat)
    requires n <= |plan|
  {
    var left := Left(entries, plan[..n]);
    && multiset(left) <= multiset(entries)
    && (n == |plan| ==> left == rest)
    && (n < |plan| ==>
          Count(left, goal.counted) > goal.target && ComesFirst(left, goal.candidate, goal.preferred, plan[n]))
  }

  lemma {:induction false} InTurnLater(entries: seq<Entry>, fewer: seq<Entry>, goal: Goal, plan: seq<Entry>,
                                       rest: seq<Entry>, n: nat)
    requires plan != [] && fewer == RemoveMatching(entries, RemovalOf(plan[0])) && multiset(fewer) <= multiset(entries)
    requires n < |plan| && InTurn(fewer, goal, plan[1..], rest, n)
    ensures InTurn(entries, goal, plan, rest, n + 1)
  {
    var first := plan[..n + 1];
    assert first[0] == plan[0] && first[1..] == plan[1..][..n];
  }

  lemma {:induction false} LoopInTurn(entries: seq<Entry>, goal: Goal, plan: seq<Entry>, rest: seq<Entry>, n: nat)
    requires AllIdentified(entries) && (plan, rest) == PlanFor(entries, goal) && n <= |plan|
    ensures InTurn(entries, goal, plan, rest, n)
    decreases |entries|
  {
    if plan == [] {
      LoopEnds(entries, goal);
    } else {
      var fewer := LoopTakes(entries, goal, plan, rest);
      if n > 0 {
        LoopInTurn(fewer, goal, plan[1..], rest, n - 1);
        InTurnLater(entries, fewer, goal, plan, rest, n - 1);
      }
    }
  }

  lemma LoopEnds(entries: seq<Entry>, goal: Goal)
    requires AllIdentified(entries) && PlanFor(entries, goal).0 == []
    ensures PlanFor(entries, goal).1 == entries
  {
  }

  function MayTake(preserved: set<string>, chatgptOnly: bool): Entry -> bool {
    (e: Entry) => Normalize(e.email) !in preserved && (chatgptOnly ==> e.category.Chatgpt?)
  }

  // There are still too many chatgpt seats, and one of them may go.
  ghost predicate TooManyChatgpt(limits: Limits, left: seq<Entry>, required: nat, preserved: set<string>) {
    && UsedChatgpt(left) > limits.chatgpt - required
    && exists f :: f in left && f.category.Chatgpt? && Normalize(f.email) !in preserved
  }

  // The plan in order: while there are too many chatgpt seats the first of those that
  // may go is planned, and then, while there are too many seats, the first of all that
  // may go, codex seats before chatgpt seats.
  lemma {:induction false} PlanIsInOrder(limits: Limits, entries: seq<Entry>, required: nat, preserved: set<string>, i: nat)
    requires AllIdentified(entries) && i < |Plan(limits, entries, required, preserved).0|
    ensures PlannedAt(limits, entries, required, preserved, Plan(limits, entries, required, preserved).0, i)
  {
    var a, middle, b, rest := TwoLoops(limits, entries, required, preserved);
    FirstLoopInOrder(limits, entries, required, preserved, a, middle, a + b);
    SecondLoopInOrder(limits, entries, required, preserved, a, middle, b, rest, a + b);
  }

  // The i-th removal of the plan is the one due for the seats left before it.
  ghost predicate PlannedAt(limits: Limits, entries: seq<Entry>, required: nat, preserved: set<string>,
                            plan: seq<Entry>, i: nat)
    requires i < |plan|
  {
    PlannedNext(limits, Left(entries, plan[..i]), required, preserved, plan[i])
  }

  lemma {:induction false} FirstLoopInOrder(limits: Limits, entries: seq<Entry>, required: nat, preserved: set<string>,
                                            a: seq<Entry>, middle: seq<Entry>, plan: seq<Entry>)
    requires AllIdentified(entries) && (a, middle) == PlanFor(entries, FirstGoal(limits, required, preserved)) && a <= plan
    ensures forall i: nat :: i < |a| ==> PlannedAt(limits, entries, required, preserved, plan, i)
  {
    forall i: nat | i < |a| ensures PlannedAt(limits, entries, required, preserved, plan, i) {
      LoopInTurn(entries, FirstGoal(limits, required, preserved), a, middle, i);
      assert plan[..i] == a[..i];
      FirstLoopPlans(limits, Left(entries, a[..i]), required, preserved, a[i]);
    }
  }

  lemma {:induction false} PlannedInSecond(limits: Limits, entries: seq<Entry>, required: nat, preserved: set<string>,
                                           a: seq<Entry>, middle: seq<Entry>, b: seq<Entry>, plan: seq<Entry>, i: nat)
    requires plan == a + b && |a| <= i < |plan|
    requires Left(entries, a + b[..i - |a|]) == Left(middle, b[..i - |a|])
    requires PlannedNext(limits, Left(middle, b[..i - |a|]), required, preserved, b[i - |a|])
    ensures PlannedAt(limits, entries, required, preserved, plan, i)
  {
    assert plan[..i] == a + b[..i - |a|];
  }

  lemma {:induction false} SecondLoopInOrder(limits: Limits, entries: seq<Entry>, required: nat, preserved: set<string>,
                                             a: seq<Entry>, middle: seq<Entry>, b: seq<Entry>, rest: seq<Entry>,
                                             plan: seq<Entry>)
    requires AllIdentified(entries) && AllIdentified(middle) && plan == a + b
    requires (a, middle) == PlanFor(entries, FirstGoal(limits, required, preserved))
    requires (b, rest) == PlanFor(middle, SecondGoal(limits, required, preserved))
    requires UsedChatgpt(middle) <= TargetChatgpt(limits, required) || Filter(middle, UnprotectedChatgpt(preserved)) == []
    ensures forall i: nat :: |a| <= i < |plan| ==> PlannedAt(limits, entries, required, preserved, plan, i)
  {
    forall i: nat | |a| <= i < |plan| ensures PlannedAt(limits, entries, required, preserved, plan, i) {
      SecondInTurn(limits, entries, required, preserved, a, middle, b, rest, i - |a|);
      PlannedInSecond(limits, entries, required, preserved, a, middle, b, plan, i);
    }
  }

  lemma {:induction false} TwoLoops(limits: Limits, entries: seq<Entry>, required: nat, preserved: set<string>)
    returns (a: seq<Entry>, middle: seq<Entry>, b: seq<Entry>, rest: seq<Entry>)
    requires AllIdentified(entries)
    ensures AllIdentified(middle) && (a, middle) == PlanFor(entries, FirstGoal(limits, required, preserved))
    ensures (b, rest) == PlanFor(middle, SecondGoal(limits, required, preserved))
    ensures Plan(limits, entries, required, preserved) == (a + b, rest)
    ensures UsedChatgpt(middle) <= TargetChatgpt(limits, required) || Filter(middle, UnprotectedChatgpt(preserved)) == []
    ensures Count(rest, IsSeat) <= TargetTotal(limits, required) || Filter(rest, Unprotected(preserved)) == []
  {
    var first, second := FirstGoal(limits, required, preserved), SecondGoal(limits, required, preserved);
    PlanKeepsIdentified(entries, first);
    a, middle := PlanFor(entries, first).0, PlanFor(entries, first).1;
    b, rest := PlanFor(middle, second).0, PlanFor(middle, second).1;
    PlanForStops(entries, first);
    PlanForStops(middle, second);
  }

  // What is left in the second loop, and which seat it plans.
  lemma {:induction false} SecondInTurn(limits: Limits, entries: seq<Entry>, required: nat, preserved: set<string>,
                     a: seq<Entry>, middle: seq<Entry>, b: seq<Entry>, rest: seq<Entry>, n: nat)
    requires AllIdentified(entries) && AllIdentified(middle) && n <= |b|
    requires (a, middle) == PlanFor(entries, FirstGoal(limits, required, preserved))
    requires (b, rest) == PlanFor(middle, SecondGoal(limits, required, preserved))
    requires UsedChatgpt(middle) <= TargetChatgpt(limits, required) || Filter(middle, UnprotectedChatgpt(preserved)) == []
    ensures Left(entries, a + b[..n]) == Left(middle, b[..n]) && (n == |b| ==> Left(middle, b[..n]) == rest)
    ensures !TooManyChatgpt(limits, Left(middle, b[..n]), required, preserved)
    ensures n < |b| ==> PlannedNext(limits, Left(middle, b[..n]), required, preserved, b[n])
  {
    LoopInTurn(entries, FirstGoal(limits, required, preserved), a, middle, |a|);
    assert a[..|a|] == a;
    LeftInParts(entries, a, b[..n]);
    LoopInTurn(middle, SecondGoal(limits, required, preserved), b, rest, n);
    var left := Left(middle, b[..n]);
    FewChatgptStay(limits, middle, left, required, preserved);
    if n < |b| { SecondLoopPlans(limits, middle, left, required, preserved, b[n]); }
  }

  ghost predicate PlannedNext(limits: Limits, left: seq<Entry>, required: nat, preserved: set<string>, e: Entry) {
    if TooManyChatgpt(limits, left, required, preserved) then
      ComesFirst(left, MayTake(preserved, true), Chatgpt, e)
    else
      UsedTotal(left) > limits.capacity - required && ComesFirst(left, MayTake(preserved, false), Codex, e)
  }

  lemma FirstLoopPlans(limits: Limits, left: seq<Entry>, required: nat, preserved: set<string>, e: Entry)
    requires Count(left, IsChatgpt) > TargetChatgpt(limits, required)
    requires ComesFirst(left, UnprotectedChatgpt(preserved), Chatgpt, e)
    ensures PlannedNext(limits, left, required, preserved, e)
  {
    assert TooManyChatgpt(limits, left, required, preserved);
  }

  lemma SecondLoopPlans(limits: Limits, middle: seq<Entry>, left: seq<Entry>, required: nat, preserved: set<string>, e: Entry)
    requires multiset(left) <= multiset(middle) && Count(left, IsSeat) > TargetTotal(limits, required)
    requires UsedChatgpt(middle) <= TargetChatgpt(limits, required) || Filter(middle, UnprotectedChatgpt(preserved)) == []
    requires ComesFirst(left, Unprotected(preserved), Codex, e)
    ensures PlannedNext(limits, left, required, preserved, e)
  {
    FewChatgptStay(limits, middle, left, required, preserved);
    EverySeatIsUsed(left);
  }

  lemma FewChatgptStay(limits: Limits, middle: seq<Entry>, left: seq<Entry>, required: nat, preserved: set<string>)
    requires multiset(left) <= multiset(middle)
    requires UsedChatgpt(middle) <= TargetChatgpt(limits, required) || Filter(middle, UnprotectedChatgpt(preserved)) == []
    ensures !TooManyChatgpt(limits, left, required, preserved)
  {
    CountOfFewer(left, middle, IsChatgpt);
    forall f | f in left && f.category.Chatgpt? && Normalize(f.email) !in preserved
      ensures UsedChatgpt(left) <= limits.chatgpt - required
    {
      assert f in multiset(middle);
      assert f in Filter(middle, UnprotectedChatgpt(preserved)) && f in Filter(left, IsChatgpt);
    }
  }

  // Nothing more is planned once there is nothing left to plan in either way.
  lemma {:induction false} PlanEndsInOrder(limits: Limits, entries: seq<Entry>, required: nat, preserved: set<string>)
    requires AllIdentified(entries)
    ensures var (plan, rest) := Plan(limits, entries, required, preserved);
            && rest == Left(entries, plan)
            && !TooManyChatgpt(limits, rest, required, preserved)
            && (UsedTotal(rest) > limits.capacity - required ==> forall f :: f in rest ==> Normalize(f.email) in preserved)
  {
    var a, middle, b, rest := TwoLoops(limits, entries, required, preserved);
    SecondInTurn(limits, entries, required, preserved, a, middle, b, rest, |b|);
    assert b[..|b|] == b;
    NobodyLeft(limits, rest, required, preserved);
  }

  lemma NobodyLeft(limits: Limits, rest: seq<Entry>, required: nat, preserved: set<string>)
    requires Count(rest, IsSeat) <= TargetTotal(limits, required) || Filter(rest, Unprotected(preserved)) == []
    ensures UsedTotal(rest) > limits.capacity - required ==> forall f :: f in rest ==> Normalize(f.email) in preserved
  {
    EverySeatIsUsed(rest);
    forall f | f in rest && UsedTotal(rest) > limits.capacity - required ensures Normalize(f.email) in preserved {
      assert f in Filter(rest, Unprotected(preserved)) <==> Normalize(f.email) !in preserved;
    }
  }
}
