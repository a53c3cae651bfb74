// Names of replicas (service/base/services/provider_container_pool.go and its
// twin for processes): printing and reading the replica index, and the search
// for the next unused name.
module ReplicaNames {
  import opened Ordering
  import opened Text

  // The largest value of the source's 64-bit int.
  const MAX_INT := 0x7fff_ffff_ffff_ffff

  // ----- printing

  predicate IsDigit(c: char) { '0' <= c <= '9' }

  ghost predicate AllDigits(s: string) { forall i :: 0 <= i < |s| ==> IsDigit(s[i]) }

  function Digits(n: nat): (s: string)
    ensures s != [] && AllDigits(s)
  {
    if n < 10 then ['0' + n as char] else Digits(n / 10) + ['0' + (n % 10) as char]
  }

  // Zero-padded to three digits, as "%03d".
  function Padded(n: nat): (s: string)
    ensures |s| >= 3 && AllDigits(s)
  {
    var s := Digits(n);
    if |s| == 1 then "00" + s else if |s| == 2 then "0" + s else s
  }

  function AtLeastOne(index: int): (r: nat)
  {
    if index <= 0 then 1 else index
  }

  function Format(prefix: string, index: int): string {
    prefix + "-" + Padded(AtLeastOne(index))
  }

  // ----- reading

  function LastDash(s: string): (i: int)
    ensures -1 <= i < |s|
    ensures i >= 0 ==> s[i] == '-'
    ensures forall j :: i < j < |s| ==> s[j] != '-'
  {
    if s == [] then -1
    else if s[|s| - 1] == '-' then |s| - 1
    else LastDash(s[..|s| - 1])
  }

  function LeadingDigits(s: string): string {
    if s == [] || !IsDigit(s[0]) then [] else [s[0]] + LeadingDigits(s[1..])
  }

  function Value(s: string): nat {
    if s == [] then 0
    else Value(s[..|s| - 1]) * 10 + if IsDigit(s[|s| - 1]) then (s[|s| - 1] - '0') as nat else 0
  }

  // Spaces are skipped, a line break is not.
  function SkipSpaces(s: string): string {
    if s != [] && IsSpace(s[0]) && s[0] != '\n' then SkipSpaces(s[1..]) else s
  }

  // Scanning "%d": spaces, an optional sign, digits; what follows is ignored.
  function ScanInt(text: string): Option<int> {
    var s := SkipSpaces(text);
    var signed := s != [] && (s[0] == '-' || s[0] == '+');
    var digits := LeadingDigits(if signed then s[1..] else s);
    var value := if signed && s[0] == '-' then 0 - Value(digits) as int else Value(digits);
    if digits == [] || value > MAX_INT || value < -MAX_INT - 1 then None else Some(value)
  }

  function ParseIndex(name: string): (index: nat)
    ensures 1 <= index <= MAX_INT
  {
    var dash := LastDash(name);
    if dash < 0 then 1
    else
      match ScanInt(name[dash + 1..])
      case None => 1
      case Some(i) => if i <= 0 then 1 else i
  }

  // ----- printing and reading are inverse

  lemma {:induction false} DigitsValue(n: nat)
    ensures Value(Digits(n)) == n
  {
    if n >= 10 {
      DigitsValue(n / 10);
      var s := Digits(n);
      assert s[..|s| - 1] == Digits(n / 10);
    }
  }

  lemma {:induction false} LeadingZero(s: string)
    ensures Value("0" + s) == Value(s)
  {
    if s == [] {
      assert "0"[..0] == [];
    } else {
      assert ("0" + s)[..|s|] == "0" + s[..|s| - 1];
      LeadingZero(s[..|s| - 1]);
    }
  }

  lemma PaddedValue(n: nat)
    ensures Value(Padded(n)) == n
  {
    var s := Digits(n);
    DigitsValue(n);
    LeadingZero(s);
    LeadingZero("0" + s);
    assert "00" + s == "0" + ("0" + s);
  }

  lemma {:induction false} OnlyDigitsLead(s: string)
    requires AllDigits(s)
    ensures LeadingDigits(s) == s
  {
    if s != [] {
      OnlyDigitsLead(s[1..]);
      assert s == [s[0]] + s[1..];
    }
  }

  lemma SuffixOfFormat(prefix: string, index: int)
    ensures var name := Format(prefix, index);
            LastDash(name) == |prefix| && name[|prefix| + 1..] == Padded(AtLeastOne(index)) && name[..|prefix|] == prefix
  {
    var name, digits := Format(prefix, index), Padded(AtLeastOne(index));
    assert name[|prefix|] == '-';
    forall j | |prefix| < j < |name| ensures name[j] != '-' {
      assert name[j] == digits[j - |prefix| - 1];
    }
  }

  // Reading a printed index gives it back exactly for the positive 64-bit ones.
  lemma ParseOfFormat(prefix: string, index: int)
    ensures ParseIndex(Format(prefix, index)) == index <==> 1 <= index <= MAX_INT
  {
    var digits := Padded(AtLeastOne(index));
    SuffixOfFormat(prefix, index);
    PaddedValue(AtLeastOne(index));
    OnlyDigitsLead(digits);
    assert SkipSpaces(digits) == digits;
  }

  // Different prefixes or different positive indexes give different names.
  lemma FormatIsInjective(p: string, i: nat, q: string, j: nat)
    requires i >= 1 && j >= 1
    ensures Format(p, i) == Format(q, j) <==> p == q && i == j
  {
    SuffixOfFormat(p, i);
    SuffixOfFormat(q, j);
    PaddedValue(i);
    PaddedValue(j);
  }

  // The printed form: the prefix, a dash and the index in decimal digits, with leading
  // zeros only to make them three.
  lemma FormatIsPadded(prefix: string, index: int) returns (digits: string)
    ensures Format(prefix, index) == prefix + "-" + digits
    ensures AllDigits(digits) && |digits| >= 3 && (|digits| > 3 ==> digits[0] != '0')
    ensures Value(digits) == if index <= 0 then 1 else index
  {
    digits := Padded(AtLeastOne(index));
    PaddedValue(AtLeastOne(index));
    NoLeadingZero(AtLeastOne(index));
  }

  lemma {:induction false} NoLeadingZero(n: nat)
    ensures n > 0 ==> Digits(n)[0] != '0'
  {
    if n >= 10 { NoLeadingZero(n / 10); }
  }

  // ----- the search for an unused name

  // The number after the last dash, of any size.
  function Number(name: string): nat {
    Value(name[LastDash(name) + 1..])
  }

  // What is left of `taken` for a search that has reached `next`.
  function Ahead(taken: set<string>, next: nat): set<string> {
    set name | name in taken && Number(name) >= next
  }

  // Every taken name that the search passes leaves fewer ahead of it.
  lemma PassingShrinks(taken: set<string>, prefix: string, next: nat)
    requires next >= 1 && Format(prefix, next) in taken
    ensures Ahead(taken, next + 1) < Ahead(taken, next)
  {
    SuffixOfFormat(prefix, next);
    PaddedValue(next);
    assert Format(prefix, next) in Ahead(taken, next);
  }

  // The first index from `next` on whose name is not taken.
  function FreeIndex(taken: set<string>, prefix: string, next: nat): (index: nat)
    requires next >= 1
    ensures index >= next && Format(prefix, index) !in taken
    decreases Ahead(taken, next)
  {
    if Format(prefix, next) !in taken then next
    else
      PassingShrinks(taken, prefix, next);
      FreeIndex(taken, prefix, next + 1)
  }

  lemma {:induction false} FreeIndexIsFirst(taken: set<string>, prefix: string, next: nat, i: nat)
    requires 1 <= next <= i < FreeIndex(taken, prefix, next)
    ensures Format(prefix, i) in taken
    decreases i - next
  {
    if i > next {
      FreeIndexIsFirst(taken, prefix, next + 1, i);
    }
  }

  // ----- reservations over a run

  // A spawn reserves a name while `taken` names are in use; adopting a replica
  // only raises the counter.
  datatype Move = Reserve(taken: set<string>) | Adopt(index: nat)

  function NextAfter(prefix: string, next: nat, move: Move): (r: nat)
    requires next >= 1
    ensures r >= next
  {
    match move
    case Reserve(taken) => FreeIndex(taken, prefix, next) + 1
    case Adopt(index) => if index >= next then index + 1 else next
  }

  function CounterAfter(prefix: string, moves: seq<Move>): (r: nat)
    ensures r >= 1
  {
    if moves == [] then 1 else NextAfter(prefix, CounterAfter(prefix, moves[..|moves| - 1]), moves[|moves| - 1])
  }

  function Reserved(prefix: string, moves: seq<Move>): seq<string> {
    if moves == [] then []
    else
      var before, move := moves[..|moves| - 1], moves[|moves| - 1];
      match move
      case Reserve(taken) => Reserved(prefix, before) + [Format(prefix, FreeIndex(taken, prefix, CounterAfter(prefix, before)))]
      case Adopt(_) => Reserved(prefix, before)
  }

  lemma {:induction false} ReservedAreBelow(prefix: string, moves: seq<Move>, name: string) returns (index: nat)
    requires name in Reserved(prefix, moves)
    ensures 1 <= index < CounterAfter(prefix, moves) && name == Format(prefix, index)
  {
    var before, move := moves[..|moves| - 1], moves[|moves| - 1];
    if name in Reserved(prefix, before) {
      index := ReservedAreBelow(prefix, before, name);
    } else {
      index := FreeIndex(move.taken, prefix, CounterAfter(prefix, before));
    }
  }

  // Whatever names are in use at each spawn, no run reserves a name twice.
  lemma {:induction false} ReservationsAreDistinct(prefix: string, moves: seq<Move>)
    ensures NoDuplicates(Reserved(prefix, moves))
  {
    if moves != [] {
      var before, move := moves[..|moves| - 1], moves[|moves| - 1];
      ReservationsAreDistinct(prefix, before);
      if move.Reserve? {
        var index := FreeIndex(move.taken, prefix, CounterAfter(prefix, before));
        if Format(prefix, index) in Reserved(prefix, before) {
          var earlier := ReservedAreBelow(prefix, before, Format(prefix, index));
          FormatIsInjective(prefix, earlier, prefix, index);
        }
      }
    }
  }
}
