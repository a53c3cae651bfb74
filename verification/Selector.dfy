// Service selection (service/base/strategy/selector.go): the candidate order and
// the two rotating selectors with their 64-bit counters.
module Selector {
  import opened Ordering

  datatype Candidate = Candidate(service: string, activeRequests: int)

  // The atomic counter is a uint64.
  const WRAP: nat := 0x1_0000_0000_0000_0000

  // By load, then by name.
  predicate CandidateLe(a: Candidate, b: Candidate) {
    a.activeRequests < b.activeRequests
    || (a.activeRequests == b.activeRequests && LexLe(a.service, b.service))
  }

  lemma CandidateLeIsTotal()
    ensures TotalPreorder(CandidateLe) && Antisymmetric(CandidateLe)
  {
    forall a, b ensures CandidateLe(a, b) || CandidateLe(b, a) { LexTotal(a.service, b.service); }
    forall a, b, c | CandidateLe(a, b) && CandidateLe(b, c) ensures CandidateLe(a, c) {
      if a.activeRequests == b.activeRequests == c.activeRequests {
        LexTransitive(a.service, b.service, c.service);
      }
    }
    forall a, b | CandidateLe(a, b) && CandidateLe(b, a) ensures a == b {
      LexAntisymmetric(a.service, b.service);
    }
  }

  function SortedCandidates(cs: seq<Candidate>): (ordered: seq<Candidate>)
    ensures multiset(ordered) == multiset(cs) && |ordered| == |cs|
  {
    Sort(cs, CandidateLe)
  }

  lemma SortedIsOrdered(cs: seq<Candidate>)
    ensures InOrder(SortedCandidates(cs), CandidateLe)
    ensures forall x :: x in SortedCandidates(cs) <==> x in cs
  {
    CandidateLeIsTotal();
    SortOrders(cs, CandidateLe);
    forall x ensures x in SortedCandidates(cs) <==> x in cs {
      assert x in multiset(SortedCandidates(cs)) <==> x in multiset(cs);
    }
  }

  // Less loaded candidates come first, and of equally loaded ones the smaller name.
  lemma SortedByLoadThenName(cs: seq<Candidate>, i: nat, j: nat)
    requires i < j < |cs|
    ensures var a, b := SortedCandidates(cs)[i], SortedCandidates(cs)[j];
            a.activeRequests <= b.activeRequests
            && (a.activeRequests == b.activeRequests ==> LexLe(a.service, b.service))
  {
    SortedIsOrdered(cs);
  }

  // The order of the candidates does not depend on the order they come in.
  lemma SortIgnoresInputOrder(a: seq<Candidate>, b: seq<Candidate>)
    requires multiset(a) == multiset(b)
    ensures SortedCandidates(a) == SortedCandidates(b)
  {
    CandidateLeIsTotal();
    SortOrders(a, CandidateLe);
    SortOrders(b, CandidateLe);
    OrderedIsUnique(SortedCandidates(a), SortedCandidates(b), CandidateLe);
  }

  ghost predicate LeastLoaded(cs: seq<Candidate>, x: Candidate) {
    x in cs && forall y :: y in cs ==> x.activeRequests <= y.activeRequests
  }

  // How many of the ordered candidates carry the least load.
  function TieCount(ordered: seq<Candidate>, from: nat): (n: nat)
    requires from <= |ordered|
    decreases |ordered| - from
  {
    if from < |ordered| && ordered[from].activeRequests == ordered[0].activeRequests then
      TieCount(ordered, from + 1)
    else from
  }

  lemma {:induction false} TieCountIsExact(ordered: seq<Candidate>, from: nat)
    requires InOrder(ordered, CandidateLe) && from <= |ordered|
    requires forall i :: 0 <= i < from ==> ordered[i].activeRequests == ordered[0].activeRequests
    ensures from <= TieCount(ordered, from) <= |ordered|
    ensures forall i :: 0 <= i < |ordered| ==>
              (i < TieCount(ordered, from) <==> LeastLoaded(ordered, ordered[i]))
    decreases |ordered| - from
  {
    if from < |ordered| && ordered[from].activeRequests == ordered[0].activeRequests {
      TieCountIsExact(ordered, from + 1);
    } else {
      forall i | 0 <= i < |ordered| ensures i < from <==> LeastLoaded(ordered, ordered[i]) {
        if i >= from { assert CandidateLe(ordered[0], ordered[from]); assert i > from ==> CandidateLe(ordered[from], ordered[i]); }
        forall y | y in ordered ensures ordered[0].activeRequests <= y.activeRequests {
          var k :| 0 <= k < |ordered| && ordered[k] == y;
          assert k > 0 ==> CandidateLe(ordered[0], ordered[k]);
        }
        assert ordered[0] in ordered;
      }
    }
  }

  // ----- the rotation

  // The pick of a selector that rotates over the first m ordered candidates.
  function Pick(ordered: seq<Candidate>, m: nat, counter: nat): Candidate
    requires 1 <= m <= |ordered|
  {
    ordered[counter % m]
  }

  function BalancePick(cs: seq<Candidate>, counter: nat): Option<Candidate> {
    if cs == [] then None
    else
      var ordered := SortedCandidates(cs);
      TieCountBounds(cs);
      Some(Pick(ordered, TieCount(ordered, 1), counter))
  }

  lemma TieCountBounds(cs: seq<Candidate>)
    requires cs != []
    ensures var ordered := SortedCandidates(cs); 1 <= TieCount(ordered, 1) <= |ordered|
  {
    SortedIsOrdered(cs);
    TieCountIsExact(SortedCandidates(cs), 1);
  }

  // Every balance pick is a candidate of least load; no candidates, no pick.
  lemma BalancePickIsLeastLoaded(cs: seq<Candidate>, counter: nat)
    ensures BalancePick(cs, counter).None? <==> cs == []
    ensures cs != [] ==> LeastLoaded(cs, BalancePick(cs, counter).value)
  {
    if cs != [] {
      var ordered := SortedCandidates(cs);
      SortedIsOrdered(cs);
      TieCountIsExact(ordered, 1);
      var m := TieCount(ordered, 1);
      assert LeastLoaded(ordered, ordered[counter % m]);
    }
  }

  // ----- fairness

  // How often index j comes up in n picks when the counter starts at c.
  function Hits(c: nat, n: nat, m: nat, j: nat): nat
    requires m >= 1
  {
    if n == 0 then 0
    else Hits(c, n - 1, m, j) + if ((c + n - 1) % WRAP) % m == j then 1 else 0
  }

  // Hits is n/m rounded down or up.
  predicate Fair(c: nat, n: nat, m: nat, j: nat)
    requires m >= 1
  {
    n - m < m * Hits(c, n, m, j) < n + m
  }

  lemma ModUnique(x: nat, m: nat, q: int, r: nat)
    requires m >= 1 && r < m && x == m * q + r
    ensures x % m == r
  {
    var d := x / m - q;
    assert m * d == r - x % m by {
      assert x == m * (x / m) + x % m;
      assert m * d == m * (x / m) - m * q;
    }
    if d >= 1 { MulAtLeast(m, d); }
    if d <= -1 { MulAtLeast(m, -d); }
  }

  lemma MulAtLeast(m: nat, d: int)
    requires d >= 1
    ensures m * d >= m
  {
  }

  lemma ModNext(x: nat, m: nat)
    requires m >= 1
    ensures (x + 1) % m == if x % m + 1 == m then 0 else x % m + 1
  {
    var q, r := x / m, x % m;
    assert x == m * q + r;
    if r + 1 == m {
      assert m * (q + 1) == m * q + m;
      ModUnique(x + 1, m, q + 1, 0);
    } else {
      ModUnique(x + 1, m, q, r + 1);
    }
  }

  // The counter's residue, as long as the wrap is not visible.
  lemma ResidueIgnoresWrap(x: nat, m: nat)
    requires m >= 1 && (x < WRAP || WRAP % m == 0)
    ensures (x % WRAP) % m == x % m
  {
    if x < WRAP {
      ModUnique(x, WRAP, 0, x);
    } else {
      var y := x % WRAP;
      var k, q := WRAP / m, x / WRAP;
      assert WRAP == m * k;
      assert x == WRAP * q + y;
      assert y == m * (y / m) + y % m;
      assert WRAP * q == m * (k * q) by { MulAssociates(m, k, q); }
      assert x == m * (k * q + y / m) + y % m by { MulDistributes(m, k * q, y / m); }
      ModUnique(x, m, k * q + y / m, y % m);
    }
  }

  lemma MulAssociates(a: int, b: int, c: int)
    ensures (a * b) * c == a * (b * c)
  {
  }

  lemma MulDistributes(a: int, b: int, c: int)
    ensures a * (b + c) == a * b + a * c
  {
  }

  // m times the hits of j among the counters below x, minus x.
  function Drift(x: nat, m: nat, j: nat): int
    requires m >= 1
  {
    if x % m > j then m - x % m else -(x % m)
  }

  lemma {:induction false} HitsFollowDrift(c: nat, n: nat, m: nat, j: nat)
    requires m >= 1 && j < m && (c + n <= WRAP || WRAP % m == 0)
    ensures m * Hits(c, n, m, j) == n + Drift(c + n, m, j) - Drift(c, m, j)
  {
    if n > 0 {
      HitsFollowDrift(c, n - 1, m, j);
      ResidueIgnoresWrap(c + n - 1, m);
      ModNext(c + n - 1, m);
      MulDistributes(m, Hits(c, n - 1, m, j), 1);
    }
  }

  lemma RotationIsFair(c: nat, n: nat, m: nat, j: nat)
    requires m >= 1 && j < m && (c + n <= WRAP || WRAP % m == 0)
    ensures Fair(c, n, m, j)
  {
    HitsFollowDrift(c, n, m, j);
  }

  // Across the wrap of the counter index 0 comes up twice in too short a window.
  lemma WrapIsUnfair(m: nat)
    requires 1 <= m < WRAP && WRAP % m != 0
    ensures var r := WRAP % m; !Fair(WRAP - r, r + 1, m, 0)
  {
    var r := WRAP % m;
    var c := WRAP - r;
    var k := WRAP / m;
    assert c == m * k + 0;
    ModUnique(c, m, k, 0);
    HitsFollowDrift(c, r, m, 0);
    ModUnique(r, m, 0, r);
    assert c + r == WRAP && Drift(c + r, m, 0) == m - r && Drift(c, m, 0) == 0;
    assert m * Hits(c, r, m, 0) == m;
    ModUnique(WRAP, WRAP, 1, 0);
    ModUnique(0, m, 0, 0);
    assert (c + (r + 1) - 1) % WRAP == 0;
    assert Hits(c, r + 1, m, 0) == Hits(c, r, m, 0) + 1;
    MulDistributes(m, Hits(c, r, m, 0), 1);
  }

  // A rotation over m candidates is fair in every window from every counter
  // value iff m divides the counter's range.
  lemma FairnessIsExact(m: nat)
    requires 1 <= m < WRAP
    ensures (forall c: nat, n: nat, j: nat | c < WRAP && j < m :: Fair(c, n, m, j)) <==> WRAP % m == 0
  {
    if WRAP % m == 0 {
      forall c: nat, n: nat, j: nat | c < WRAP && j < m ensures Fair(c, n, m, j) { RotationIsFair(c, n, m, j); }
    } else {
      WrapIsUnfair(m);
      var r := WRAP % m;
      assert !Fair(WRAP - r, r + 1, m, 0);
    }
  }

  datatype Mode = Sequential | Random | Balance

  // What a selector in the given mode returns; `draw` is the random source.
  function PickBy(mode: Mode, cs: seq<Candidate>, counter: nat, draw: nat): (r: Option<Candidate>)
    ensures r.Some? ==> r.value in cs
    ensures r.None? <==> cs == []
  {
    SortedIsOrdered(cs);
    if cs == [] then None
    else if mode.Sequential? then Some(Pick(SortedCandidates(cs), |cs|, counter))
    else if mode.Random? then Some(Pick(SortedCandidates(cs), |cs|, draw))
    else
      BalancePickIsLeastLoaded(cs, counter);
      BalancePick(cs, counter)
  }

  // n consecutive picks on an unchanged candidate list, with the counter starting at c.
  function Picks(pick: nat -> Candidate, c: nat, n: nat): seq<Candidate> {
    if n == 0 then [] else Picks(pick, c, n - 1) + [pick((c + n - 1) % WRAP)]
  }

  function PickOf(mode: Mode, cs: seq<Candidate>): nat -> Candidate
    requires cs != []
  {
    (counter: nat) => PickBy(mode, cs, counter, 0).value
  }

  // Picks that take x exactly when the counter leaves j take it as often as j is hit.
  lemma {:induction false} PicksAreHits(pick: nat -> Candidate, c: nat, n: nat, m: nat, j: nat, x: Candidate)
    requires m >= 1 && forall k: nat :: pick(k) == x <==> k % m == j
    ensures multiset(Picks(pick, c, n))[x] == Hits(c, n, m, j)
  {
    if n > 0 { PicksAreHits(pick, c, n - 1, m, j, x); }
  }

  lemma BalancePickIsHit(cs: seq<Candidate>, counter: nat, j: nat)
    requires cs != [] && NoDuplicates(SortedCandidates(cs))
    requires j < TieCount(SortedCandidates(cs), 1) <= |cs|
    ensures PickOf(Balance, cs)(counter) == SortedCandidates(cs)[j] <==> counter % TieCount(SortedCandidates(cs), 1) == j
  {
    var ordered, m := SortedCandidates(cs), TieCount(SortedCandidates(cs), 1);
    assert ordered[counter % m] == ordered[j] <==> counter % m == j;
  }

  // Balance is fair: with m least-loaded services, n consecutive picks take each
  // of them n/m times, rounded down or up, from any counter value, unless the
  // window crosses the wrap of the counter and m does not divide its range.
  lemma BalanceIsFair(cs: seq<Candidate>, c: nat, n: nat, x: Candidate)
    requires NoDuplicates(cs) && LeastLoaded(cs, x)
    ensures var m := TieCount(SortedCandidates(cs), 1);
            && 1 <= m
            && (c + n <= WRAP || WRAP % m == 0 ==>
                  n - m < m * multiset(Picks(PickOf(Balance, cs), c, n))[x] < n + m)
  {
    var ordered, m := SortedCandidates(cs), TieCount(SortedCandidates(cs), 1);
    SortedIsOrdered(cs);
    TieCountIsExact(ordered, 1);
    PermutationHasNoDuplicates(cs, ordered);
    var j :| 0 <= j < |ordered| && ordered[j] == x;
    assert LeastLoaded(ordered, x);
    forall k: nat { BalancePickIsHit(cs, k, j); }
    PicksAreHits(PickOf(Balance, cs), c, n, m, j, x);
    if c + n <= WRAP || WRAP % m == 0 {
      RotationIsFair(c, n, m, j);
    }
  }

  lemma SequentialPickIsHit(cs: seq<Candidate>, counter: nat, j: nat)
    requires cs != [] && NoDuplicates(SortedCandidates(cs)) && j < |cs|
    ensures PickOf(Sequential, cs)(counter) == SortedCandidates(cs)[j] <==> counter % |cs| == j
  {
    var ordered := SortedCandidates(cs);
    assert ordered[counter % |cs|] == ordered[j] <==> counter % |cs| == j;
  }

  // Sequential selection rotates: n consecutive picks on an unchanged list take each of
  // its m services n/m times, rounded down or up, and m picks each of them once, from
  // any counter value, with the same exception.
  lemma SequentialRotates(cs: seq<Candidate>, c: nat, n: nat, x: Candidate)
    requires NoDuplicates(cs) && x in cs
    ensures c + n <= WRAP || WRAP % |cs| == 0 ==>
              var taken := multiset(Picks(PickOf(Sequential, cs), c, n))[x];
              n - |cs| < |cs| * taken < n + |cs| && (n == |cs| ==> taken == 1)
  {
    SortedIsOrdered(cs);
    PermutationHasNoDuplicates(cs, SortedCandidates(cs));
    var j :| 0 <= j < |cs| && SortedCandidates(cs)[j] == x;
    forall k: nat { SequentialPickIsHit(cs, k, j); }
    PicksAreHits(PickOf(Sequential, cs), c, n, |cs|, j, x);
    if c + n <= WRAP || WRAP % |cs| == 0 {
      RotationIsFair(c, n, |cs|, j);
      OnceEach(|cs|, Hits(c, n, |cs|, j));
    }
  }

  lemma OnceEach(m: nat, k: nat)
    requires m >= 1
    ensures 0 < m * k < m + m ==> k == 1
  {
    if k >= 2 { MulAtLeast(m, k - 1); MulDistributes(m, k - 1, 1); }
  }

  // ----- the selectors

  // The source steps the counter first and then subtracts one, both modulo 2^64.
  lemma StepBack(counter: nat)
    requires counter < WRAP
    ensures ((counter + 1) % WRAP + WRAP - 1) % WRAP == counter
  {
  }

  // The three selectors of the source, told apart by their mode.
  class Selector {
    const mode: Mode
    var counter: nat

    constructor (mode: Mode)
      ensures this.mode == mode && counter == 0
    {
      this.mode := mode;
      counter := 0;
    }

    method Select(candidates: seq<Candidate>, draw: nat) returns (picked: Option<Candidate>)
      requires counter < WRAP
      modifies this
      ensures picked == PickBy(mode, candidates, old(counter), draw)
      ensures counter == (if candidates == [] || mode.Random? then old(counter) else (old(counter) + 1) % WRAP) < WRAP
    {
      if candidates == [] {
        return None;
      }
      var ordered := SortedCandidates(candidates);
      if mode.Random? {
        return Some(ordered[draw % |ordered|]);
      }
      var choices := |ordered|;
      if mode.Balance? {
        TieCountBounds(candidates);
        choices := LeastLoadedCount(ordered);
      }
      StepBack(counter);
      counter := (counter + 1) % WRAP;
      var index := ((counter + WRAP - 1) % WRAP) % choices;
      picked := Some(ordered[index]);
    }

    method LeastLoadedCount(ordered: seq<Candidate>) returns (leastLoadedCount: nat)
      requires ordered != []
      ensures leastLoadedCount == TieCount(ordered, 1)
    {
      var minActive := ordered[0].activeRequests;
      leastLoadedCount := 1;
      while leastLoadedCount < |ordered| && ordered[leastLoadedCount].activeRequests == minActive
        invariant 1 <= leastLoadedCount <= |ordered|
        invariant TieCount(ordered, leastLoadedCount) == TieCount(ordered, 1)
      {
        leastLoadedCount := leastLoadedCount + 1;
      }
    }
  }
}
