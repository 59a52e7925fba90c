// The radix sort that orders the symbols by frequency, four bits at a time, stopping as soon as
// a pass finds them in order. Its result is the stable sort.

module RadixSort {
  import opened Arithmetic
  import opened CanonicalCodes
  import opened HuffmanTree

  const RADIX: nat := 16

  // The frequency shifted right by p digits.
  function Shifted(f: nat, p: nat): nat {
    if p == 0 then f else Shifted(f, p - 1) / RADIX
  }

  function Digit(f: nat, p: nat): (d: nat)
    ensures d < RADIX
  {
    Shifted(f, p) % RADIX
  }

  // f is not above g as far as the p low digits tell.
  predicate NotAbove(f: nat, g: nat, p: nat) {
    p == 0 || Digit(f, p - 1) < Digit(g, p - 1) ||
    (Digit(f, p - 1) == Digit(g, p - 1) && NotAbove(f, g, p - 1))
  }

  lemma {:induction false} ShiftedMono(f: nat, g: nat, p: nat)
    requires f <= g
    ensures Shifted(f, p) <= Shifted(g, p)
  {
    if p > 0 { ShiftedMono(f, g, p - 1); }
  }

  lemma {:induction false} DigitsDecide(f: nat, g: nat, p: nat)
    requires NotAbove(f, g, p) && Shifted(f, p) == Shifted(g, p)
    ensures f <= g
  {
    if p > 0 {
      if Digit(f, p - 1) == Digit(g, p - 1) {
        DigitsDecide(f, g, p - 1);
      } else if g < f {
        ShiftedMono(g, f, p - 1);
        assert false;
      }
    }
  }

  lemma {:induction false} ShiftedOut(f: nat, p: nat)
    requires f < Pow2(4 * p)
    ensures Shifted(f, p) == 0
  {
    ShiftedBelow(f, p, 0);
    assert Pow2(0) == 1;
  }

  lemma {:induction false} ShiftedBelow(f: nat, p: nat, e: nat)
    requires f < Pow2(4 * p + e)
    ensures Shifted(f, p) < Pow2(e)
  {
    if p > 0 {
      ShiftedBelow(f, p - 1, e + 4);
      assert Pow2(e + 4) == 2 * Pow2(e + 3);
      assert Pow2(e + 2) == 2 * Pow2(e + 1);
    }
  }

  // ---------- The stable sort, as a relation ----------

  ghost predicate SortedTo(s: seq<Symbol>, p: nat) {
    forall i, j :: 0 <= i < j < |s| ==> NotAbove(s[i].frequency, s[j].frequency, p)
  }

  ghost predicate Sorted(s: seq<Symbol>) {
    forall i, j :: 0 <= i < j < |s| ==> s[i].frequency <= s[j].frequency
  }

  // The symbols of frequency f, in order.
  function OfFrequency(s: seq<Symbol>, f: nat): seq<Symbol> {
    if s == [] then []
    else OfFrequency(s[..|s| - 1], f) + (if s[|s| - 1].frequency == f then [s[|s| - 1]] else [])
  }

  // r holds the same symbols as s, those of equal frequency in the same order.
  ghost predicate Stable(s: seq<Symbol>, r: seq<Symbol>) {
    multiset(r) == multiset(s) && forall f :: OfFrequency(r, f) == OfFrequency(s, f)
  }

  // ---------- One pass ----------

  // The symbols whose digit p is d, in order.
  function WithDigit(s: seq<Symbol>, p: nat, d: nat): seq<Symbol> {
    if s == [] then []
    else WithDigit(s[..|s| - 1], p, d) + (if Digit(s[|s| - 1].frequency, p) == d then [s[|s| - 1]] else [])
  }

  // The symbols whose digit p is below d, by digit.
  function Bucketed(s: seq<Symbol>, p: nat, d: nat): seq<Symbol> {
    if d == 0 then [] else Bucketed(s, p, d - 1) + WithDigit(s, p, d - 1)
  }

  lemma {:induction false} WithDigitDigits(s: seq<Symbol>, p: nat, d: nat)
    ensures forall i :: 0 <= i < |WithDigit(s, p, d)| ==> Digit(WithDigit(s, p, d)[i].frequency, p) == d
    decreases |s|
  {
    if s != [] { WithDigitDigits(s[..|s| - 1], p, d); }
  }

  lemma {:induction false} BucketedDigits(s: seq<Symbol>, p: nat, d: nat)
    ensures forall i :: 0 <= i < |Bucketed(s, p, d)| ==> Digit(Bucketed(s, p, d)[i].frequency, p) < d
  {
    if d > 0 {
      BucketedDigits(s, p, d - 1);
      WithDigitDigits(s, p, d - 1);
    }
  }

  lemma {:induction false} WithDigitMembers(s: seq<Symbol>, p: nat, d: nat)
    ensures forall x :: x in WithDigit(s, p, d) ==> x in s
    decreases |s|
  {
    if s != [] {
      WithDigitMembers(s[..|s| - 1], p, d);
      assert forall x :: x in s[..|s| - 1] ==> x in s;
    }
  }

  lemma {:induction false} WithDigitSorted(s: seq<Symbol>, p: nat, d: nat)
    requires SortedTo(s, p)
    ensures SortedTo(WithDigit(s, p, d), p + 1)
    decreases |s|
  {
    if s != [] {
      var q := s[..|s| - 1];
      var last := s[|s| - 1];
      WithDigitSorted(q, p, d);
      if Digit(last.frequency, p) == d {
        var r := WithDigit(q, p, d);
        WithDigitDigits(q, p, d);
        WithDigitMembers(q, p, d);
        forall i | 0 <= i < |r| ensures NotAbove(r[i].frequency, last.frequency, p + 1) {
          assert r[i] in q;
        }
      }
    }
  }

  lemma {:induction false} BucketedSorted(s: seq<Symbol>, p: nat, d: nat)
    requires SortedTo(s, p)
    ensures SortedTo(Bucketed(s, p, d), p + 1)
  {
    if d > 0 {
      BucketedSorted(s, p, d - 1);
      WithDigitSorted(s, p, d - 1);
      BucketedDigits(s, p, d - 1);
      WithDigitDigits(s, p, d - 1);
    }
  }

  lemma {:induction false} OfFrequencyConcat(a: seq<Symbol>, b: seq<Symbol>, f: nat)
    ensures OfFrequency(a + b, f) == OfFrequency(a, f) + OfFrequency(b, f)
    decreases |b|
  {
    if b == [] {
      assert a + b == a;
    } else {
      OfFrequencyConcat(a, b[..|b| - 1], f);
      assert (a + b)[..|a + b| - 1] == a + b[..|b| - 1];
    }
  }

  lemma OfFrequencySingle(x: Symbol, f: nat)
    ensures OfFrequency([x], f) == if x.frequency == f then [x] else []
  {
    assert [x][..0] == [];
  }

  lemma {:induction false} OfFrequencyInDigit(s: seq<Symbol>, p: nat, d: nat, f: nat)
    ensures OfFrequency(WithDigit(s, p, d), f) == if Digit(f, p) == d then OfFrequency(s, f) else []
    decreases |s|
  {
    if s != [] {
      var q := s[..|s| - 1];
      var x := s[|s| - 1];
      OfFrequencyInDigit(q, p, d, f);
      OfFrequencyConcat(WithDigit(q, p, d), [x], f);
      OfFrequencySingle(x, f);
      assert WithDigit(q, p, d) + [] == WithDigit(q, p, d) && OfFrequency(q, f) + [] == OfFrequency(q, f);
    }
  }

  lemma {:induction false} OfFrequencyBucketed(s: seq<Symbol>, p: nat, d: nat, f: nat)
    ensures OfFrequency(Bucketed(s, p, d), f) == if Digit(f, p) < d then OfFrequency(s, f) else []
  {
    hide *;
    BucketedUnfold(s, p, d);
    if d == 0 {
      NoneOfFrequency(f);
    } else {
      OfFrequencyBucketed(s, p, d - 1, f);
      OfFrequencyInDigit(s, p, d - 1, f);
      OfFrequencyConcat(Bucketed(s, p, d - 1), WithDigit(s, p, d - 1), f);
      Either(OfFrequency(s, f), Digit(f, p), d - 1);
    }
  }

  lemma NoneOfFrequency(f: nat)
    ensures OfFrequency([], f) == []
  {
  }

  lemma Either(x: seq<Symbol>, e: nat, d: nat)
    ensures (if e < d then x else []) + (if e == d then x else []) == if e < d + 1 then x else []
  {
  }

  lemma StableTrans(a: seq<Symbol>, b: seq<Symbol>, c: seq<Symbol>)
    requires Stable(a, b) && Stable(b, c)
    ensures Stable(a, c)
  {
    hide OfFrequency;
    forall f ensures OfFrequency(c, f) == OfFrequency(a, f) {
      assert OfFrequency(b, f) == OfFrequency(a, f);
    }
  }

  lemma {:induction false} BucketedMultiset(s: seq<Symbol>, p: nat)
    ensures multiset(Bucketed(s, p, RADIX)) == multiset(s)
    decreases |s|
  {
    hide *;
    if s == [] {
      NothingBucketed(p, RADIX);
    } else {
      var q, x := s[..|s| - 1], s[|s| - 1];
      BucketedMultiset(q, p);
      BucketedOneMore(s, p, RADIX);
      JustDigit(x, p);
      assert s == q + [x];
    }
  }

  lemma JustDigit(x: Symbol, p: nat)
    ensures Just(x, Digit(x.frequency, p) < RADIX) == [x]
  {
  }

  function Just(x: Symbol, c: bool): seq<Symbol> { if c then [x] else [] }

  lemma {:induction false} BucketedOneMore(s: seq<Symbol>, p: nat, d: nat)
    requires s != []
    ensures var x := s[|s| - 1];
            multiset(Bucketed(s, p, d)) == multiset(Bucketed(s[..|s| - 1], p, d)) + multiset(Just(x, Digit(x.frequency, p) < d))
  {
    hide *;
    var q, x := s[..|s| - 1], s[|s| - 1];
    var e := Digit(x.frequency, p);
    BucketedUnfold(s, p, d);
    BucketedUnfold(q, p, d);
    JustSplits(x, e, d);
    if d > 0 {
      BucketedOneMore(s, p, d - 1);
      LastWithDigit(s, p, d - 1);
      JoinOneMore(Bucketed(s, p, d - 1), Bucketed(q, p, d - 1), WithDigit(q, p, d - 1), Just(x, e < d - 1), Just(x, e == d - 1),
                  Bucketed(s, p, d), Bucketed(q, p, d), Just(x, e < d));
    }
  }

  lemma JustSplits(x: Symbol, e: nat, d: nat)
    ensures d == 0 ==> Just(x, e < d) == []
    ensures d > 0 ==> Just(x, e < d) == Just(x, e < d - 1) + Just(x, e == d - 1)
  {
  }

  lemma BucketedUnfold(s: seq<Symbol>, p: nat, d: nat)
    ensures Bucketed(s, p, d) == if d == 0 then [] else Bucketed(s, p, d - 1) + WithDigit(s, p, d - 1)
  {
  }

  lemma LastWithDigit(s: seq<Symbol>, p: nat, d: nat)
    requires s != []
    ensures WithDigit(s, p, d) == WithDigit(s[..|s| - 1], p, d) + Just(s[|s| - 1], Digit(s[|s| - 1].frequency, p) == d)
  {
  }

  lemma JoinOneMore(a': seq<Symbol>, a: seq<Symbol>, b: seq<Symbol>, u: seq<Symbol>, v: seq<Symbol>,
                    s: seq<Symbol>, q: seq<Symbol>, w: seq<Symbol>)
    requires multiset(a') == multiset(a) + multiset(u) && s == a' + (b + v) && q == a + b && w == u + v
    ensures multiset(s) == multiset(q) + multiset(w)
  {
    assert multiset(a' + (b + v)) == multiset(a') + multiset(b + v);
    assert multiset(b + v) == multiset(b) + multiset(v);
    assert multiset(u + v) == multiset(u) + multiset(v);
    assert multiset(a + b) == multiset(a) + multiset(b);
  }

  lemma PassIsStable(s: seq<Symbol>, p: nat)
    requires SortedTo(s, p)
    ensures SortedTo(Bucketed(s, p, RADIX), p + 1) && Stable(s, Bucketed(s, p, RADIX))
  {
    BucketedSorted(s, p, RADIX);
    BucketedMultiset(s, p);
    forall f ensures OfFrequency(Bucketed(s, p, RADIX), f) == OfFrequency(s, f) {
      OfFrequencyBucketed(s, p, RADIX, f);
    }
  }

  // ---------- The counting pass in place ----------

  // Where the bucket of digit d starts.
  function Start(s: seq<Symbol>, p: nat, d: nat): nat {
    |Bucketed(s, p, d)|
  }

  lemma {:induction false} StartMono(s: seq<Symbol>, p: nat, d: nat, e: nat)
    requires d <= e
    ensures Bucketed(s, p, d) <= Bucketed(s, p, e)
  {
    if d < e { StartMono(s, p, d, e - 1); }
  }

  lemma {:induction false} WithDigitGrows(s: seq<Symbol>, p: nat, d: nat, j: nat)
    requires j <= |s|
    ensures WithDigit(s[..j], p, d) <= WithDigit(s, p, d)
    decreases |s|
  {
    if j < |s| {
      WithDigitGrows(s[..|s| - 1], p, d, j);
      assert s[..|s| - 1][..j] == s[..j];
    } else {
      assert s[..j] == s;
    }
  }

  lemma {:induction false} AllBucketed(s: seq<Symbol>, p: nat)
    ensures |Bucketed(s, p, RADIX)| == |s|
    decreases |s|
  {
    if s == [] {
      NothingBucketed(p, RADIX);
    } else {
      AllBucketed(s[..|s| - 1], p);
      BucketedMore(s, p, RADIX);
    }
  }

  lemma {:induction false} NothingBucketed(p: nat, d: nat)
    ensures Bucketed([], p, d) == []
  {
    if d > 0 { NothingBucketed(p, d - 1); }
  }

  lemma {:induction false} BucketedMore(s: seq<Symbol>, p: nat, d: nat)
    requires s != []
    ensures |Bucketed(s, p, d)| == |Bucketed(s[..|s| - 1], p, d)| + if Digit(s[|s| - 1].frequency, p) < d then 1 else 0
  {
    if d > 0 { BucketedMore(s, p, d - 1); }
  }

  ghost predicate Digits(s: seq<Symbol>, p: nat, digits: seq<nat>) {
    |digits| == |s| && forall j :: 0 <= j < |s| ==> digits[j] == Digit(s[j].frequency, p)
  }

  // After j symbols of s have been placed, bucket d holds the ones that belong there.
  ghost predicate InBucket(s: seq<Symbol>, p: nat, j: nat, heap: seq<Symbol>, next: nat, d: nat)
    requires j <= |s| <= |heap|
  {
    && next == Start(s, p, d) + |WithDigit(s[..j], p, d)| <= Start(s, p, d + 1) <= |s|
    && heap[Start(s, p, d)..next] == WithDigit(s[..j], p, d)
  }

  ghost predicate Placed(s: seq<Symbol>, p: nat, j: nat, heap: seq<Symbol>, location: seq<nat>) {
    && j <= |s| <= |heap| && |location| == RADIX
    && forall d :: 0 <= d < RADIX ==> InBucket(s, p, j, heap, location[d], d)
  }

  lemma BucketsFit(s: seq<Symbol>, p: nat, j: nat, d: nat)
    requires j <= |s| && d < RADIX
    ensures Start(s, p, d) + |WithDigit(s[..j], p, d)| <= Start(s, p, d + 1) <= |s|
  {
    WithDigitGrows(s, p, d, j);
    StartMono(s, p, d + 1, RADIX);
    AllBucketed(s, p);
  }

  lemma WithDigitNext(s: seq<Symbol>, p: nat, j: nat, d: nat)
    requires j < |s|
    ensures WithDigit(s[..j + 1], p, d) == WithDigit(s[..j], p, d) + (if Digit(s[j].frequency, p) == d then [s[j]] else [])
  {
    assert s[..j + 1][..j] == s[..j];
  }

  lemma SameBucket(s: seq<Symbol>, p: nat, j: nat, heap: seq<Symbol>, next: nat, d: nat)
    requires j < |s| <= |heap| && InBucket(s, p, j, heap, next, d) && Digit(s[j].frequency, p) == d < RADIX
    ensures next < |s| && InBucket(s, p, j + 1, heap[next := s[j]], next + 1, d)
  {
    hide Digit, Bucketed;
    WithDigitNext(s, p, j, d);
    BucketsFit(s, p, j + 1, d);
    hide WithDigit;
    var heap' := heap[next := s[j]];
    assert heap'[Start(s, p, d)..next + 1] == heap[Start(s, p, d)..next] + [s[j]];
  }

  lemma OtherBucket(s: seq<Symbol>, p: nat, j: nat, heap: seq<Symbol>, at: nat, c: nat, next: nat, d: nat)
    requires j < |s| <= |heap| && InBucket(s, p, j, heap, next, d) && InBucket(s, p, j, heap, at, c)
    requires Digit(s[j].frequency, p) == c != d && c < RADIX && d < RADIX && at < |s|
    requires at < Start(s, p, c + 1)
    ensures InBucket(s, p, j + 1, heap[at := s[j]], next, d)
  {
    hide Digit, Bucketed;
    WithDigitNext(s, p, j, d);
    hide WithDigit;
    if d < c { StartMono(s, p, d + 1, c); } else { StartMono(s, p, c + 1, d); }
    assert heap[at := s[j]][Start(s, p, d)..next] == heap[Start(s, p, d)..next];
  }

  lemma PlacedStep(s: seq<Symbol>, p: nat, j: nat, heap: seq<Symbol>, location: seq<nat>, digits: seq<nat>)
    requires Placed(s, p, j, heap, location) && j < |s| && Digits(s, p, digits)
    ensures j < |digits| && digits[j] < |location| && location[digits[j]] < |s| <= |heap|
    ensures var c := digits[j]; Placed(s, p, j + 1, heap[location[c] := s[j]], location[c := location[c] + 1])
  {
    hide InBucket, Digit, Start, WithDigit, Bucketed;
    var c := Digit(s[j].frequency, p);
    assert InBucket(s, p, j, heap, location[c], c);
    SameBucket(s, p, j, heap, location[c], c);
    RoomLeft(s, p, j, heap, location[c], c);
    var heap', location' := heap[location[c] := s[j]], location[c := location[c] + 1];
    forall d | 0 <= d < RADIX ensures InBucket(s, p, j + 1, heap', location'[d], d) {
      assert InBucket(s, p, j, heap, location[d], d);
      if d != c { OtherBucket(s, p, j, heap, location[c], c, location[d], d); }
    }
  }

  lemma RoomLeft(s: seq<Symbol>, p: nat, j: nat, heap: seq<Symbol>, next: nat, d: nat)
    requires j < |s| <= |heap| && InBucket(s, p, j, heap, next, d) && Digit(s[j].frequency, p) == d < RADIX
    ensures next < Start(s, p, d + 1)
  {
    WithDigitNext(s, p, j, d);
    BucketsFit(s, p, j + 1, d);
  }

  lemma {:induction false} PlacedAll(s: seq<Symbol>, p: nat, heap: seq<Symbol>, location: seq<nat>, d: nat)
    requires Placed(s, p, |s|, heap, location) && d <= RADIX
    ensures Start(s, p, d) <= |s| && heap[..Start(s, p, d)] == Bucketed(s, p, d)
  {
    if d > 0 {
      PlacedAll(s, p, heap, location, d - 1);
      assert InBucket(s, p, |s|, heap, location[d - 1], d - 1);
      hide Placed, WithDigit;
      assert s[..|s|] == s;
      assert Bucketed(s, p, d) == Bucketed(s, p, d - 1) + WithDigit(s, p, d - 1);
      hide Bucketed;
      assert location[d - 1] == Start(s, p, d);
      PrefixJoin(heap, Start(s, p, d - 1), Start(s, p, d));
    }
  }

  lemma PrefixJoin(heap: seq<Symbol>, a: nat, b: nat)
    requires a <= b <= |heap|
    ensures heap[..b] == heap[..a] + heap[a..b]
  {
  }

  // ---------- radixSort ----------

  // The digits, their histogram, a copy of the symbols, and whether some symbol is out of order.
  method ComputeHistogram(heap: array<Symbol>, n: nat, ghost p: nat, shift: nat)
    returns (prevSorting: seq<Symbol>, currentDigit: seq<nat>, histogram: array<nat>, notSorted: bool)
    requires n <= heap.Length && heap.Length > 0 && shift == 4 * p
    ensures fresh(histogram) && histogram.Length == RADIX
    ensures prevSorting == heap[..n] && Digits(prevSorting, p, currentDigit)
    ensures forall d :: 0 <= d < RADIX ==> histogram[d] == |WithDigit(heap[..n], p, d)|
    ensures notSorted <==> !Sorted(heap[..n])
  {
    hide Digit, Sorted, WithDigit, DigitOf;
    ComputeInitially(p);
    prevSorting, currentDigit := [], [];
    histogram := new nat[RADIX](_ => 0);
    var prevFreq := heap[0].frequency;
    notSorted := false;
    var j := 0;
    while j < n
      invariant 0 <= j <= n && prevSorting == heap[..j] && Digits(prevSorting, p, currentDigit)
      invariant forall d :: 0 <= d < RADIX ==> histogram[d] == |WithDigit(prevSorting, p, d)|
      invariant notSorted <==> !Sorted(prevSorting)
      invariant prevFreq == if j == 0 then heap[0].frequency else heap[j - 1].frequency
    {
      var val := heap[j];
      var digit := DigitOf(val.frequency, p, shift);
      currentDigit := currentDigit + [digit];
      prevSorting := prevSorting + [val];
      HistogramNext(prevSorting, p);
      assert prevSorting[..j] == heap[..j];
      histogram[digit] := histogram[digit] + 1;
      SortedNext(prevSorting);
      if prevFreq > val.frequency { notSorted := true; }
      prevFreq := val.frequency;
      j := j + 1;
    }
  }

  lemma ComputeInitially(p: nat)
    ensures Sorted([]) && forall d :: WithDigit([], p, d) == []
  {
  }

  // The digit the source reads with a shift and a mask.
  function DigitOf(f: nat, ghost p: nat, shift: nat): (d: nat)
    requires shift == 4 * p
    ensures d == Digit(f, p)
  {
    ShiftIsDivision(f, p);
    ShiftRight(f, shift) % RADIX
  }

  lemma {:induction false} ShiftIsDivision(f: nat, p: nat)
    ensures ShiftRight(f, 4 * p) == Shifted(f, p)
  {
    if p > 0 {
      var n := 4 * p;
      assert ShiftRight(f, n) == ShiftRight(f / 2, n - 1) == ShiftRight(f / 2 / 2, n - 2);
      assert ShiftRight(f / 2 / 2, n - 2) == ShiftRight(f / 2 / 2 / 2, n - 3) == ShiftRight(f / 2 / 2 / 2 / 2, n - 4);
      ShiftIsDivision(f / RADIX, p - 1);
      ShiftedFront(f, p);
    }
  }

  lemma {:induction false} ShiftedFront(f: nat, p: nat)
    requires p > 0
    ensures Shifted(f, p) == Shifted(f / RADIX, p - 1)
  {
    if p > 1 { ShiftedFront(f, p - 1); }
  }

  lemma HistogramNext(s: seq<Symbol>, p: nat)
    requires s != []
    ensures forall d :: |WithDigit(s, p, d)| == |WithDigit(s[..|s| - 1], p, d)| + if Digit(s[|s| - 1].frequency, p) == d then 1 else 0
  {
  }

  lemma SortedNext(s: seq<Symbol>)
    requires s != []
    ensures Sorted(s) <==> Sorted(s[..|s| - 1]) && (|s| >= 2 ==> s[|s| - 2].frequency <= s[|s| - 1].frequency)
  {
    var q := s[..|s| - 1];
    if Sorted(q) && (|s| >= 2 ==> s[|s| - 2].frequency <= s[|s| - 1].frequency) {
      assert forall i :: 0 <= i < |q| ==> q[i].frequency <= q[|q| - 1].frequency;
    }
  }

  method FindDigitLocation(histogram: array<nat>, ghost s: seq<Symbol>, ghost p: nat) returns (location: array<nat>)
    requires histogram.Length == RADIX && forall d :: 0 <= d < RADIX ==> histogram[d] == |WithDigit(s, p, d)|
    ensures fresh(location) && location.Length == RADIX
    ensures forall d :: 0 <= d < RADIX ==> location[d] == Start(s, p, d)
  {
    location := new nat[RADIX];
    location[0] := 0;
    var i := 0;
    while i < RADIX - 1
      invariant 0 <= i <= RADIX - 1
      invariant forall d :: 0 <= d <= i ==> location[d] == Start(s, p, d)
    {
      location[i + 1] := location[i] + histogram[i];
      i := i + 1;
    }
  }

  // One step of the re-sort: x goes to the next free place of its bucket.
  method Place(heap: array<Symbol>, location: array<nat>, digit: nat, x: Symbol)
    requires digit < location.Length && location[digit] < heap.Length
    modifies heap, location
    ensures heap[..] == old(heap[..])[old(location[digit]) := x]
    ensures location[..] == old(location[..])[digit := old(location[digit]) + 1]
  {
    heap[location[digit]] := x;
    location[digit] := location[digit] + 1;
  }

  method ReSort(heap: array<Symbol>, s: seq<Symbol>, currentDigit: seq<nat>, location: array<nat>, ghost p: nat)
    requires |s| <= heap.Length && location.Length == RADIX && Digits(s, p, currentDigit)
    requires forall d :: 0 <= d < RADIX ==> location[d] == Start(s, p, d)
    modifies heap, location
    ensures |Bucketed(s, p, RADIX)| == |s| && heap[..|s|] == Bucketed(s, p, RADIX)
    ensures heap[|s|..] == old(heap[|s|..])
  {
    PlacedInitially(s, p, heap[..], location[..]);
    hide *;
    ghost var rest := heap[|s|..];
    var j := 0;
    while j < |s|
      invariant 0 <= j <= |s|
      invariant heap[|s|..] == rest
      invariant Placed(s, p, j, heap[..], location[..])
    {
      ghost var h0, l0 := heap[..], location[..];
      PlacedStep(s, p, j, h0, l0, currentDigit);
      assert l0[currentDigit[j]] == location[currentDigit[j]];
      Place(heap, location, currentDigit[j], s[j]);
      j := j + 1;
    }
    PlacedDone(s, p, heap[..], location[..]);
  }

  lemma PlacedDone(s: seq<Symbol>, p: nat, heap: seq<Symbol>, location: seq<nat>)
    requires Placed(s, p, |s|, heap, location)
    ensures |Bucketed(s, p, RADIX)| == |s| && heap[..|s|] == Bucketed(s, p, RADIX)
  {
    AllBucketed(s, p);
    PlacedAll(s, p, heap, location, RADIX);
  }

  lemma PlacedInitially(s: seq<Symbol>, p: nat, heap: seq<Symbol>, location: seq<nat>)
    requires |s| <= |heap| && |location| == RADIX && forall d :: 0 <= d < RADIX ==> location[d] == Start(s, p, d)
    ensures Placed(s, p, 0, heap, location)
  {
    forall d | 0 <= d < RADIX ensures InBucket(s, p, 0, heap, location[d], d) {
      BucketsFit(s, p, 0, d);
      assert s[..0] == [];
    }
  }

  method RadixSort(heap: array<Symbol>, n: nat, width: nat)
    requires n <= heap.Length && heap.Length > 0
    requires forall k :: 0 <= k < n ==> heap[k].frequency < Pow2(width)
    modifies heap
    ensures Sorted(heap[..n]) && Stable(old(heap[..n]), heap[..n])
    ensures heap[n..] == old(heap[n..])
  {
    hide Sorted, Stable, SortedTo, Digit, Pow2;
    ghost var s0 := heap[..n];
    StableRefl(s0);
    var notSorted := true;
    var shift := 0;
    ghost var p := 0;
    while shift < width && notSorted
      invariant shift == 4 * p && Stable(s0, heap[..n])
      invariant heap[n..] == old(heap[n..])
      invariant if notSorted then SortedTo(heap[..n], p) else Sorted(heap[..n])
      decreases width - shift
    {
      var prevSorting, currentDigit, histogram;
      prevSorting, currentDigit, histogram, notSorted := ComputeHistogram(heap, n, p, shift);
      if notSorted {
        ghost var s := heap[..n];
        var location := FindDigitLocation(histogram, s, p);
        ReSort(heap, prevSorting, currentDigit, location, p);
        PassIsStable(s, p);
        StableTrans(s0, s, heap[..n]);
      }
      shift := shift + 4;
      p := p + 1;
    }
    if notSorted { AllDigits(s0, heap[..n], p, width); }
  }

  lemma StableRefl(s: seq<Symbol>)
    ensures Stable(s, s) && SortedTo(s, 0)
  {
  }

  // A stable rearrangement has the same members.
  lemma StableMember(s: seq<Symbol>, r: seq<Symbol>, k: nat)
    requires Stable(s, r) && k < |r|
    ensures r[k] in s
  {
    assert r[k] in multiset(r);
  }

  lemma AllDigits(s: seq<Symbol>, r: seq<Symbol>, p: nat, width: nat)
    requires Stable(s, r) && SortedTo(r, p) && 4 * p >= width
    requires forall k :: 0 <= k < |s| ==> s[k].frequency < Pow2(width)
    ensures Sorted(r)
  {
    forall i, j | 0 <= i < j < |r| ensures r[i].frequency <= r[j].frequency {
      StableMember(s, r, i);
      StableMember(s, r, j);
      Pow2Mono(width, 4 * p);
      ShiftedOut(r[i].frequency, p);
      ShiftedOut(r[j].frequency, p);
      DigitsDecide(r[i].frequency, r[j].frequency, p);
    }
  }
}
