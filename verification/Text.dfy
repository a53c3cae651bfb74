// String normalisation shared by the policy store, the registry and the seat
// planner: trimming, lower-casing and de-duplicated lists of trimmed names.
module Text {
  import opened Ordering

  predicate IsSpace(c: char) {
    c == ' ' || c == '\t' || c == '\n' || c == '\r' || c == '\U{0B}' || c == '\U{0C}'
  }

  function TrimLeft(s: string): string {
    if s != [] && IsSpace(s[0]) then TrimLeft(s[1..]) else s
  }

  function TrimRight(s: string): string {
    if s != [] && IsSpace(s[|s| - 1]) then TrimRight(s[..|s| - 1]) else s
  }

  function Trim(s: string): string {
    TrimRight(TrimLeft(s))
  }

  // Neither end is a space.
  predicate Trimmed(s: string) {
    s == [] || (!IsSpace(s[0]) && !IsSpace(s[|s| - 1]))
  }

  function LowerChar(c: char): char {
    if 'A' <= c <= 'Z' then c - 'A' + 'a' else c
  }

  function Lower(s: string): (r: string)
    ensures |r| == |s|
    ensures forall i :: 0 <= i < |s| ==> r[i] == LowerChar(s[i])
  {
    if s == [] then [] else [LowerChar(s[0])] + Lower(s[1..])
  }

  // Trimmed and lower-cased, as emails, roles and modes are compared.
  function Normalize(s: string): string {
    Lower(Trim(s))
  }

  lemma {:induction false} TrimRightKeepsHead(s: string)
    requires s != [] && !IsSpace(s[0])
    ensures TrimRight(s) != [] && TrimRight(s)[0] == s[0]
    ensures !IsSpace(TrimRight(s)[|TrimRight(s)| - 1])
  {
    if IsSpace(s[|s| - 1]) {
      TrimRightKeepsHead(s[..|s| - 1]);
    }
  }

  lemma {:induction false} TrimLeftDropsSpaces(s: string)
    ensures TrimLeft(s) == [] || !IsSpace(TrimLeft(s)[0])
  {
    if s != [] && IsSpace(s[0]) { TrimLeftDropsSpaces(s[1..]); }
  }

  lemma TrimIsTrimmed(s: string)
    ensures Trimmed(Trim(s))
  {
    TrimLeftDropsSpaces(s);
    if TrimLeft(s) != [] { TrimRightKeepsHead(TrimLeft(s)); }
  }

  ghost predicate Blank(s: string) { forall c :: c in s ==> IsSpace(c) }

  lemma {:induction false} TrimLeftSplits(s: string) returns (front: string)
    ensures s == front + TrimLeft(s) && Blank(front)
  {
    if s != [] && IsSpace(s[0]) {
      front := TrimLeftSplits(s[1..]);
      front := [s[0]] + front;
      assert s == [s[0]] + s[1..];
    } else {
      front := [];
    }
  }

  lemma {:induction false} TrimRightSplits(s: string) returns (back: string)
    ensures s == TrimRight(s) + back && Blank(back)
  {
    if s != [] && IsSpace(s[|s| - 1]) {
      back := TrimRightSplits(s[..|s| - 1]);
      back := back + [s[|s| - 1]];
      assert s == s[..|s| - 1] + [s[|s| - 1]];
    } else {
      back := [];
    }
  }

  // Trimming takes the spaces at both ends and nothing else.
  lemma TrimIsExact(s: string) returns (front: string, back: string)
    ensures s == front + Trim(s) + back && Blank(front) && Blank(back) && Trimmed(Trim(s))
  {
    front := TrimLeftSplits(s);
    back := TrimRightSplits(TrimLeft(s));
    TrimIsTrimmed(s);
  }

  lemma TrimmedStays(s: string)
    requires Trimmed(s)
    ensures Trim(s) == s
  {
  }

  // Normalising a second time changes nothing.
  lemma NormalizeIsIdempotent(s: string)
    ensures Trim(Trim(s)) == Trim(s)
    ensures Trimmed(Normalize(s)) && Normalize(Normalize(s)) == Normalize(s)
  {
    TrimIsTrimmed(s);
    TrimmedStays(Trim(s));
    LowerKeepsTrimmed(Trim(s));
    TrimmedStays(Normalize(s));
  }

  lemma LowerKeepsTrimmed(s: string)
    ensures Trimmed(s) ==> Trimmed(Lower(s))
    ensures Lower(Lower(s)) == Lower(s)
  {
    var r := Lower(s);
    forall i | 0 <= i < |s| ensures Lower(r)[i] == r[i] && (IsSpace(r[i]) <==> IsSpace(s[i])) {
      LowerCharOnce(s[i]);
    }
  }

  lemma LowerCharOnce(c: char)
    ensures LowerChar(LowerChar(c)) == LowerChar(c)
    ensures IsSpace(LowerChar(c)) <==> IsSpace(c)
  {
  }

  // The trimmed, non-blank items in order of first appearance.
  function NormalizedList(items: seq<string>): seq<string> {
    if items == [] then []
    else
      var before, item := NormalizedList(items[..|items| - 1]), Trim(items[|items| - 1]);
      if item == "" || item in before then before else before + [item]
  }

  // What every stored list looks like.
  ghost predicate CleanList(items: seq<string>) {
    NoDuplicates(items) && forall i :: i in items ==> i != "" && Trimmed(i)
  }

  lemma {:induction false} NormalizedListIsClean(items: seq<string>)
    ensures CleanList(NormalizedList(items))
  {
    if items != [] {
      var before, last := items[..|items| - 1], items[|items| - 1];
      NormalizedListIsClean(before);
      TrimIsTrimmed(last);
    }
  }

  // A normalised list holds the trimmed items that are not blank, in the order in which
  // they first come.
  lemma {:induction false} NormalizedListHolds(items: seq<string>)
    ensures forall x :: x in NormalizedList(items) <==> x != "" && exists i :: i in items && Trim(i) == x
    ensures forall m :: 0 <= m <= |items| ==> NormalizedList(items[..m]) <= NormalizedList(items)
  {
    if items == [] {
      assert items[..0] == items;
    } else {
      var before, last := items[..|items| - 1], items[|items| - 1];
      NormalizedListHolds(before);
      assert items == before + [last];
      forall x ensures x in NormalizedList(items) <==> x != "" && exists i :: i in items && Trim(i) == x {
        if i :| i in before && Trim(i) == x { assert i in items; }
        if x == Trim(last) { assert last in items; }
      }
      forall m | 0 <= m <= |items| ensures NormalizedList(items[..m]) <= NormalizedList(items) {
        if m < |items| { assert items[..m] == before[..m]; } else { assert items[..m] == items; }
      }
    }
  }

  lemma {:induction false} CleanListStays(items: seq<string>)
    requires CleanList(items)
    ensures NormalizedList(items) == items
  {
    if items != [] {
      var before, last := items[..|items| - 1], items[|items| - 1];
      assert items == before + [last];
      forall i | i in before ensures i in items {}
      CleanListStays(before);
      assert last in items;
      TrimmedStays(last);
      assert last !in before;
    }
  }

  method NormalizeStringList(items: seq<string>) returns (out: seq<string>)
    ensures out == NormalizedList(items)
    ensures CleanList(out)
  {
    out := [];
    var seen: set<string> := {};
    for k := 0 to |items|
      invariant out == NormalizedList(items[..k])
      invariant seen == set i | i in out
    {
      assert items[..k + 1][..k] == items[..k];
      var normalized := Trim(items[k]);
      if normalized == "" {
        continue;
      }
      if normalized in seen {
        continue;
      }
      seen := seen + {normalized};
      out := out + [normalized];
    }
    assert items[..|items|] == items;
    NormalizedListIsClean(items);
  }
}
