// The whole construction: frequencies in, canonical codes out.

module HuffmanConstruct {
  import opened Arithmetic
  import opened HuffmanOptimality
  import opened HuffmanTree
  import opened HuffmanHeight
  import opened HuffmanLengths
  import opened HuffmanLimit
  import opened HuffmanAssign
  import opened CanonicalCodes
  import opened HuffmanCodec
  import opened RadixSort

  const END_OF_BLOCK := 256

  // ---------- filter ----------

  // The frequency a symbol takes part with: the end-of-block symbol always does, once.
  function Effective(freqs: seq<nat>, n: nat): nat
    requires n < |freqs|
  {
    if n == END_OF_BLOCK then 1 else freqs[n]
  }

  function Total(freqs: seq<nat>, n: nat): nat
    requires n <= |freqs|
  {
    if n == 0 then 0 else Total(freqs, n - 1) + Effective(freqs, n - 1)
  }

  // The symbols that occur among the first n, in order of their values.
  function Occurring(freqs: seq<nat>, n: nat): seq<Symbol>
    requires n <= |freqs|
  {
    if n == 0 then []
    else Occurring(freqs, n - 1) +
         (if Effective(freqs, n - 1) != 0 then [Symbol(n - 1, Effective(freqs, n - 1))] else [])
  }

  // maxCode is the last of the first n symbols in use, or 0.
  ghost predicate LastInUse(freqs: seq<nat>, n: nat, maxCode: nat)
    requires n <= |freqs|
  {
    && (forall v :: maxCode < v < n ==> Effective(freqs, v) == 0)
    && (maxCode > 0 ==> maxCode < n && Effective(freqs, maxCode) != 0)
  }

  method Filter(freqs: seq<nat>, heap: array<Symbol>) returns (heapLength: nat, maxCode: nat)
    requires |freqs| <= heap.Length
    modifies heap
    ensures heapLength <= |freqs| && heap[..heapLength] == Occurring(freqs, |freqs|)
    ensures LastInUse(freqs, |freqs|, maxCode)
  {
    heapLength, maxCode := 0, 0;
    var n := 0;
    while n < |freqs|
      invariant 0 <= heapLength <= n <= |freqs|
      invariant heap[..heapLength] == Occurring(freqs, n)
      invariant LastInUse(freqs, n, maxCode)
    {
      var cf := freqs[n];
      if n == END_OF_BLOCK {
        heap[heapLength] := Symbol(n, 1);
        maxCode := n;
        heapLength := heapLength + 1;
      } else if cf != 0 {
        heap[heapLength] := Symbol(n, cf);
        maxCode := n;
        heapLength := heapLength + 1;
      }
      n := n + 1;
    }
  }

  lemma {:induction false} OccurringFacts(freqs: seq<nat>, n: nat)
    requires n <= |freqs|
    ensures var h := Occurring(freqs, n);
            && |h| <= n && Sum(Weights(h)) == Total(freqs, n)
            && (forall i :: 0 <= i < |h| ==> h[i].value < n && h[i].frequency == Effective(freqs, h[i].value) >= 1)
            && (forall i, j :: 0 <= i < j < |h| ==> h[i].value < h[j].value)
  {
    if n > 0 {
      OccurringFacts(freqs, n - 1);
      var g, e := Occurring(freqs, n - 1), Effective(freqs, n - 1);
      if e != 0 {
        assert Weights(Occurring(freqs, n)) == Weights(g) + [e];
        SumAppend(Weights(g), e);
      } else {
        assert Occurring(freqs, n) == g;
      }
    } else {
      assert Weights([]) == [];
    }
  }

  // ---------- Counted symbols ----------

  // Each frequency is the number of occurrences.
  ghost predicate Frequencies(freqs: seq<nat>, size: nat, symbols: seq<nat>) {
    |freqs| == size && forall x :: 0 <= x < size ==> freqs[x] == Count(symbols, x)
  }

  // How many symbols lie below n.
  function Under(s: seq<nat>, n: nat): (c: nat)
    ensures c <= |s|
  {
    if s == [] then 0 else (if s[0] < n then 1 else 0) + Under(s[1..], n)
  }

  lemma {:induction false} UnderNext(s: seq<nat>, n: nat)
    ensures Under(s, n + 1) == Under(s, n) + Count(s, n)
  {
    if s != [] { UnderNext(s[1..], n); }
  }

  // All frequencies together are the number of symbols, and the end of the block.
  lemma {:induction false} TotalOfCounts(freqs: seq<nat>, size: nat, symbols: seq<nat>, n: nat)
    requires Frequencies(freqs, size, symbols) && n <= size
    ensures Total(freqs, n) <= Under(symbols, n) + if n > 256 then 1 else 0
  {
    if n > 0 {
      TotalOfCounts(freqs, size, symbols, n - 1);
      UnderNext(symbols, n - 1);
    } else {
      assert Total(freqs, 0) == 0;
    }
  }

  // ---------- Sorting keeps what the tree builder needs ----------

  // Numbers in ascending order.
  function SortUp(l: seq<nat>): (r: seq<nat>)
    ensures |r| == |l|
  {
    if l == [] then [] else Insert(l[0], SortUp(l[1..]))
  }

  lemma {:induction false} InsertCounts(x: nat, s: seq<nat>, y: nat)
    ensures Count(Insert(x, s), y) == Count(s, y) + if x == y then 1 else 0
    ensures Sum(Insert(x, s)) == x + Sum(s)
  {
    if s == [] || x < s[0] {
      assert ([x] + s)[1..] == s;
    } else {
      InsertCounts(x, s[1..], y);
      assert Insert(x, s)[1..] == Insert(x, s[1..]);
    }
  }

  lemma {:induction false} SortUpFacts(l: seq<nat>, y: nat)
    ensures Count(SortUp(l), y) == Count(l, y) && Sum(SortUp(l)) == Sum(l) && Ascending(SortUp(l))
  {
    if l != [] {
      SortUpFacts(l[1..], y);
      InsertCounts(l[0], SortUp(l[1..]), y);
      InsertAscending(l[0], SortUp(l[1..]));
    }
  }

  lemma {:induction false} AscendingUnique(a: seq<nat>, b: seq<nat>)
    requires Ascending(a) && Ascending(b)
    requires forall x :: Count(a, x) == Count(b, x)
    ensures a == b
  {
    if a == [] {
      if b != [] {
        CountOfHead(b);
        assert false;
      }
    } else {
      assert Count(a, a[0]) == Count(b, a[0]);
      CountPositive(b, a[0]);
      AscendingFromHead(a);
      AscendingFromHead(b);
      assert Count(b, b[0]) == Count(a, b[0]);
      CountPositive(a, b[0]);
      assert a[0] == b[0];
      forall x ensures Count(a[1..], x) == Count(b[1..], x) {
        assert Count(a, x) == Count(b, x);
      }
      AscendingUnique(a[1..], b[1..]);
    }
  }

  lemma WeightsConcat(a: seq<Symbol>, b: seq<Symbol>)
    ensures Weights(a + b) == Weights(a) + Weights(b)
  {
  }

  lemma CountOfMove(b: seq<Symbol>, i: nat, x: nat)
    requires i < |b|
    ensures var r := [b[i]] + (b[..i] + b[i + 1..]);
            multiset(r) == multiset(b) && Count(Weights(r), x) == Count(Weights(b), x)
  {
    var p, c, q := b[..i], [b[i]], b[i + 1..];
    assert b == p + (c + q);
    WeightsConcat(p, c + q);
    WeightsConcat(c, q);
    WeightsConcat(c, p + q);
    WeightsConcat(p, q);
    CountConcat(Weights(p), Weights(c) + Weights(q), x);
    CountConcat(Weights(c), Weights(q), x);
    CountConcat(Weights(c), Weights(p) + Weights(q), x);
    CountConcat(Weights(p), Weights(q), x);
  }

  lemma {:induction false} CountOfMultiset(a: seq<Symbol>, b: seq<Symbol>, x: nat)
    requires multiset(a) == multiset(b)
    ensures Count(Weights(a), x) == Count(Weights(b), x)
    decreases |a|
  {
    assert |multiset(a)| == |a| && |multiset(b)| == |b|;
    if a != [] {
      assert a[0] in multiset(b);
      var i :| 0 <= i < |b| && b[i] == a[0];
      CountOfMove(b, i, x);
      var c, t, u := [a[0]], a[1..], b[..i] + b[i + 1..];
      assert a == c + t;
      HeadsCancel(a[0], t, u);
      CountOfMultiset(t, u, x);
      WeightsConcat(c, t);
      WeightsConcat(c, u);
      CountConcat(Weights(c), Weights(t), x);
      CountConcat(Weights(c), Weights(u), x);
    }
  }

  // The order in which equal weights are sorted does not show in the weights.
  lemma SortedWeights(h: seq<Symbol>, sorted: seq<Symbol>)
    requires multiset(h) == multiset(sorted) && Ascending(Weights(sorted))
    ensures Weights(sorted) == SortUp(Weights(h)) && Sum(Weights(sorted)) == Sum(Weights(h))
  {
    forall x ensures Count(Weights(sorted), x) == Count(SortUp(Weights(h)), x) {
      CountOfMultiset(h, sorted, x);
      SortUpFacts(Weights(h), x);
    }
    SortUpFacts(Weights(h), 0);
    hide Weights, SortUp, Count, Sum, Ascending;
    AscendingUnique(Weights(sorted), SortUp(Weights(h)));
  }

  // The weights the tree is built from: every frequency in use, in ascending order.
  function Ranked(freqs: seq<nat>): seq<nat> {
    SortUp(Weights(Occurring(freqs, |freqs|)))
  }

  lemma HeadsCancel(x: Symbol, t: seq<Symbol>, u: seq<Symbol>)
    requires multiset([x] + t) == multiset([x] + u)
    ensures multiset(t) == multiset(u)
  {
    assert multiset([x] + t) == multiset{x} + multiset(t);
    assert multiset([x] + u) == multiset{x} + multiset(u);
    assert multiset(t) == multiset([x] + t) - multiset{x};
    assert multiset(u) == multiset([x] + u) - multiset{x};
  }

  ghost predicate DistinctSymbols(s: seq<Symbol>) {
    forall i, j :: 0 <= i < j < |s| ==> s[i].value != s[j].value
  }

  // ---------- Which frequencies fit the histogram ----------

  // Few symbols in all keep the tree low.
  lemma SmallTotalFits(freqs: seq<nat>, size: nat)
    requires Total(freqs, |freqs|) < Fib(size + 2) && size > 0
    ensures TreeHeight(Ranked(freqs)) < size
  {
    var w := Weights(Occurring(freqs, |freqs|));
    OccurringFacts(freqs, |freqs|);
    SortUpFacts(w, 0);
    RankedPositive(w);
    if w != [] { HeightBound(SortUp(w), size); }
  }

  lemma RankedPositive(w: seq<nat>)
    requires AtLeast(w, 1)
    ensures AtLeast(SortUp(w), 1)
  {
    var r := SortUp(w);
    forall i | 0 <= i < |r| ensures r[i] >= 1 {
      SortUpFacts(w, r[i]);
      CountOfMember(r, i);
      CountPositive(w, r[i]);
    }
  }

  lemma {:induction false} AllOccur(freqs: seq<nat>, n: nat)
    requires n <= |freqs| && n <= END_OF_BLOCK && forall v :: 0 <= v < n ==> freqs[v] > 0
    ensures Weights(Occurring(freqs, n)) == freqs[..n]
  {
    if n > 0 {
      AllOccur(freqs, n - 1);
      var x := [Symbol(n - 1, freqs[n - 1])];
      WeightsConcat(Occurring(freqs, n - 1), x);
      assert Weights(x) == [freqs[n - 1]];
    }
  }

  lemma {:induction false} NoneOccurs(freqs: seq<nat>, n: nat, m: nat)
    requires n <= m <= |freqs| && forall v :: n <= v < m ==> Effective(freqs, v) == 0
    ensures Occurring(freqs, m) == Occurring(freqs, n)
  {
    if n < m { NoneOccurs(freqs, n, m - 1); }
  }

  // 18 literals that occur 1, 1, 3, 4, 7, 11, ... times and the end symbol are too much for 18 entries.
  lemma SteepFrequencies(freqs: seq<nat>)
    requires |freqs| == 286 && freqs[..18] == [1, 1] + LucasRun(2, 18)
    requires forall v :: 18 <= v < 286 && v != END_OF_BLOCK ==> freqs[v] == 0
    ensures Ranked(freqs) == Steep(18) && TreeHeight(Ranked(freqs)) == 18
    ensures Sum(Ranked(freqs)) == 9348
  {
    hide TreeHeight, Sum, Steep, LucasRun, Effective, Occurring, Ascending, SortUp, Weights, Count;
    TooHigh();
    SteepHeight(18);
    SteepOccurring(freqs);
    var x := freqs[..18];
    forall y ensures Count(SortUp(x + [1]), y) == Count(Steep(18), y) {
      SortUpFacts(x + [1], y);
      CountConcat(x, [1], y);
      CountConcat([1], x, y);
      SteepIs();
    }
    SortUpFacts(x + [1], 0);
    AscendingUnique(SortUp(x + [1]), Steep(18));
  }

  lemma SteepIs()
    ensures Steep(18) == [1] + ([1, 1] + LucasRun(2, 18))
  {
    hide Lucas;
    LucasGrows(1);
    assert LucasRun(1, 18) == [Lucas(1)] + LucasRun(2, 18);
    assert Lucas(1) == 1 by { LucasOne(); }
  }

  lemma LucasOne()
    ensures Lucas(1) == 1
  {
  }

  lemma SteepOccurring(freqs: seq<nat>)
    requires |freqs| == 286 && freqs[..18] == [1, 1] + LucasRun(2, 18)
    requires forall v :: 18 <= v < 286 && v != END_OF_BLOCK ==> freqs[v] == 0
    ensures Weights(Occurring(freqs, 286)) == freqs[..18] + [1]
  {
    hide *;
    SteepPositive(freqs, LucasRun(2, 18));
    SteepZeros(freqs);
    AllOccur(freqs, 18);
    NoneOccurs(freqs, 18, 256);
    NextOccurs(freqs);
    NoneOccurs(freqs, 257, 286);
    var x := [Symbol(256, 1)];
    WeightsConcat(Occurring(freqs, 18), x);
    WeightOfOne(256, 1);
  }

  lemma WeightOfOne(v: nat, f: nat)
    ensures Weights([Symbol(v, f)]) == [f]
  {
  }

  lemma SteepPositive(freqs: seq<nat>, run: seq<nat>)
    requires |freqs| == 286 && run == LucasRun(2, 18) && freqs[..18] == [1, 1] + run
    ensures 18 < END_OF_BLOCK == 256 && forall v :: 0 <= v < 18 ==> freqs[v] > 0
  {
    LucasAscending(2, 18);
    hide LucasRun, Ascending;
    forall v | 0 <= v < 18 ensures freqs[v] > 0 {
      assert freqs[v] == freqs[..18][v] == ([1, 1] + run)[v];
      if v >= 2 { assert ([1, 1] + run)[v] == run[v - 2]; }
    }
  }

  lemma SteepZeros(freqs: seq<nat>)
    requires |freqs| == 286 && forall v :: 18 <= v < 286 && v != END_OF_BLOCK ==> freqs[v] == 0
    ensures forall v :: 18 <= v < 286 && v != 256 ==> Effective(freqs, v) == 0
  {
  }

  lemma NextOccurs(freqs: seq<nat>)
    requires |freqs| > END_OF_BLOCK
    ensures Occurring(freqs, 257) == Occurring(freqs, 256) + [Symbol(256, 1)]
  {
  }

  lemma OccursTwice(s: seq<Symbol>, i: nat, j: nat)
    requires i < j < |s| && s[i] == s[j]
    ensures multiset(s)[s[i]] >= 2
  {
    assert s == s[..j] + s[j..];
    assert s[i] == s[..j][i] && s[..j][i] in multiset(s[..j]);
    assert s[j] == s[j..][0] && s[j..][0] in multiset(s[j..]);
    assert multiset(s) == multiset(s[..j]) + multiset(s[j..]);
  }

  lemma {:induction false} OccursOnce(s: seq<Symbol>, x: Symbol)
    requires DistinctSymbols(s)
    ensures multiset(s)[x] <= 1
    decreases |s|
  {
    if s != [] {
      var q := s[..|s| - 1];
      OccursOnce(q, x);
      assert s == q + [s[|s| - 1]];
      if s[|s| - 1] == x {
        assert x !in q;
        assert x !in multiset(q);
      }
    }
  }

  lemma DistinctAfterSort(s: seq<Symbol>, r: seq<Symbol>)
    requires multiset(s) == multiset(r) && DistinctSymbols(s)
    ensures DistinctSymbols(r)
  {
    forall i, j | 0 <= i < j < |r| ensures r[i].value != r[j].value {
      if r[i].value == r[j].value {
        assert r[i] in multiset(s) && r[j] in multiset(s);
        var a :| 0 <= a < |s| && s[a] == r[i];
        var b :| 0 <= b < |s| && s[b] == r[j];
        OccursTwiceIfEqual(s, r, a, b, i, j);
        assert false;
      }
    }
  }

  lemma OccursTwiceIfEqual(s: seq<Symbol>, r: seq<Symbol>, a: nat, b: nat, i: nat, j: nat)
    requires multiset(s) == multiset(r) && DistinctSymbols(s)
    requires i < j < |r| && a < |s| && b < |s| && s[a] == r[i] && s[b] == r[j]
    ensures r[i].value != r[j].value
  {
    if r[i] == r[j] {
      OccursTwice(r, i, j);
      OccursOnce(s, r[i]);
      assert false;
    } else if a == b {
      assert false;
    }
  }

  lemma {:induction false} SortedIsAscending(s: seq<Symbol>)
    requires Sorted(s)
    ensures Ascending(Weights(s))
  {
    if |s| >= 2 {
      SortedIsAscending(s[1..]);
      assert Weights(s)[1..] == Weights(s[1..]);
    }
  }

  // ---------- From the histogram back to the lengths ----------

  // Symbols without a code have length 0; the others have what the list says.
  lemma {:induction false} CountAssigned(sorted: seq<Symbol>, k: nat, l: seq<nat>, bits: seq<nat>, zeros: seq<nat>, x: nat)
    requires DistinctSymbols(sorted) && Assigned(sorted, k, l, bits, zeros) && x >= 1
    requires forall v :: 0 <= v < |zeros| ==> zeros[v] == 0
    ensures Count(bits, x) == Count(l[..k], x)
  {
    if k == 0 {
      assert bits == zeros;
      CountOfZeros(zeros, x);
    } else {
      var v := sorted[k - 1].value;
      var bits' := bits[v := 0];
      assert Assigned(sorted, k - 1, l, bits', zeros);
      CountAssigned(sorted, k - 1, l, bits', zeros, x);
      CountUpdate(bits', v, l[k - 1], x);
      assert bits'[v := l[k - 1]] == bits;
      assert l[..k] == l[..k - 1] + [l[k - 1]];
      CountConcat(l[..k - 1], [l[k - 1]], x);
      CountOfOne(l[k - 1], x);
    }
  }

  lemma {:induction false} CountOfZeros(s: seq<nat>, x: nat)
    requires x >= 1 && forall v :: 0 <= v < |s| ==> s[v] == 0
    ensures Count(s, x) == 0
  {
    if s != [] { CountOfZeros(s[1..], x); }
  }

  lemma CountUpdate(s: seq<nat>, v: nat, y: nat, x: nat)
    requires v < |s| && s[v] == 0 && x >= 1
    ensures Count(s[v := y], x) == Count(s, x) + if y == x then 1 else 0
  {
    var a, b := s[..v], s[v + 1..];
    assert s == a + ([0] + b) && s[v := y] == a + ([y] + b);
    CountConcat(a, [0] + b, x);
    CountConcat(a, [y] + b, x);
    CountConcat([0], b, x);
    CountConcat([y], b, x);
    CountOfOne(0, x);
    CountOfOne(y, x);
  }

  // A tree with two leaves or more has none at the root.
  lemma {:induction false} RootLeafWeighs(h: seq<nat>)
    requires h != []
    ensures Filled(h) + h[0] >= Shift(h[0], |h| - 1) + Sum(h)
    decreases |h|
  {
    SumLast(h);
    if |h| > 1 {
      RootLeafWeighs(h[..|h| - 1]);
      ShiftAtLeast(h[0], |h| - 2);
    } else {
      assert h[..0] == [];
    }
  }

  lemma NoRootLeaf(h: seq<nat>)
    requires h != [] && Filled(h) == Pow2(|h| - 1) && Sum(h) >= 2
    ensures h[0] == 0
  {
    RootLeafWeighs(h);
    SumPositive(h, 0);
    ShiftOne(|h| - 1);
    ShiftTwice(1, |h| - 1);
    ShiftMono(if h[0] < 2 then h[0] else 2, h[0], |h| - 1);
  }

  lemma {:induction false} FilledExtend(h: seq<nat>, m: nat)
    requires m < |h| && forall k :: m < k < |h| ==> h[k] == 0
    ensures Filled(h) == Shift(Filled(h[..m + 1]), |h| - 1 - m)
    decreases |h|
  {
    if m == |h| - 1 {
      assert h[..m + 1] == h;
    } else {
      FilledExtend(h[..|h| - 1], m);
      assert h[..|h| - 1][..m + 1] == h[..m + 1];
    }
  }

  lemma {:induction false} ListDownPrefix(h: seq<nat>, m: nat)
    requires m < |h| && forall k :: m < k < |h| ==> h[k] == 0
    ensures ListDown(h) == ListDown(h[..m + 1])
    decreases |h|
  {
    if m == |h| - 1 {
      assert h[..m + 1] == h;
    } else {
      ListDownPrefix(h[..|h| - 1], m);
      assert h[..|h| - 1][..m + 1] == h[..m + 1];
    }
  }

  // The histogram as the truncation leaves it, for two symbols or more.
  ghost predicate Leveled(h: seq<nat>, n: nat, m: nat) {
    n >= 2 && FullTo(h, m) && Sum(h) == n
  }

  lemma LeveledFacts(h: seq<nat>, n: nat, m: nat)
    requires Leveled(h, n, m)
    ensures Filled(h) == Pow2(|h| - 1) && h[0] == 0
    ensures |ListDown(h)| == n && AtMost(ListDown(h), m)
    ensures Kraft(ListDown(h), m) == Pow2(m)
    ensures forall k :: 0 <= k < n ==> ListDown(h)[k] >= 1
  {
    var p := h[..m + 1];
    SumOfPrefix(h, m + 1);
    FilledExtend(h, m);
    ShiftPow2(m, |h| - 1 - m);
    NoRootLeaf(h);
    ListDownLength(h);
    ListDownPrefix(h, m);
    ListDownDescending(p);
    DescendingFromHead(ListDown(p));
    ListDownKraft(p, m);
    NoZeros(h);
  }

  lemma NoZeros(h: seq<nat>)
    requires h != [] && h[0] == 0
    ensures forall k :: 0 <= k < |ListDown(h)| ==> ListDown(h)[k] >= 1
  {
    ListDownCount(h, 0);
    forall k | 0 <= k < |ListDown(h)| ensures ListDown(h)[k] >= 1 {
      if ListDown(h)[k] == 0 {
        CountOfMember(ListDown(h), k);
        assert false;
      }
    }
  }

  lemma {:induction false} CountOfMember(s: seq<nat>, k: nat)
    requires k < |s|
    ensures Count(s, s[k]) > 0
  {
    if k > 0 { CountOfMember(s[1..], k - 1); }
  }

  // The lengths of the symbols, from the rarest symbol on.
  function LengthsOf(sorted: seq<Symbol>, lens: seq<nat>): (l: seq<nat>)
    requires forall i :: 0 <= i < |sorted| ==> sorted[i].value < |lens|
    ensures |l| == |sorted| && forall i :: 0 <= i < |sorted| ==> l[i] == lens[sorted[i].value]
  {
    seq(|sorted|, i requires 0 <= i < |sorted| => lens[sorted[i].value])
  }

  // What the encoder and both decoders need from the lengths: codes exist and fit.
  ghost predicate GoodLengths(sorted: seq<Symbol>, lens: seq<nat>, h: seq<nat>, m: nat) {
    && AtMost(lens, m) && Counts(h, lens) && Feasible(lens, |h| - 1)
    && (forall i :: 0 <= i < |sorted| ==> sorted[i].value < |lens| && lens[sorted[i].value] >= 1)
    && (forall v :: 0 <= v < |lens| && (forall i :: 0 <= i < |sorted| ==> sorted[i].value != v) ==> lens[v] == 0)
  }

  lemma AssignedLengths(sorted: seq<Symbol>, h: seq<nat>, m: nat, lens: seq<nat>, zeros: seq<nat>)
    requires DistinctSymbols(sorted) && Leveled(h, |sorted|, m)
    requires forall v :: 0 <= v < |zeros| ==> zeros[v] == 0
    requires Assigned(sorted, |sorted|, ListDown(h), lens, zeros)
    ensures GoodLengths(sorted, lens, h, m)
    ensures LengthsOf(sorted, lens) == ListDown(h)
  {
    LeveledFacts(h, |sorted|, m);
    AssignedAtMost(sorted, ListDown(h), m, lens, zeros);
    forall x | 1 <= x < |h| ensures h[x] == Count(lens, x) {
      CountAssigned(sorted, |sorted|, ListDown(h), lens, zeros, x);
      assert ListDown(h)[..|sorted|] == ListDown(h);
      ListDownCount(h, x);
    }
    TreeLengthsFeasible(h, lens);
  }

  lemma AssignedAtMost(sorted: seq<Symbol>, l: seq<nat>, m: nat, lens: seq<nat>, zeros: seq<nat>)
    requires Assigned(sorted, |sorted|, l, lens, zeros) && AtMost(l, m)
    requires forall v :: 0 <= v < |zeros| ==> zeros[v] == 0
    ensures AtMost(lens, m)
  {
    forall v | 0 <= v < |lens| ensures lens[v] <= m {
      if exists i :: 0 <= i < |sorted| && sorted[i].value == v {
        var i :| 0 <= i < |sorted| && sorted[i].value == v;
        assert lens[v] == l[i];
      }
    }
  }

  // ---------- A single symbol ----------

  lemma SingleHistogram(h: seq<nat>)
    requires Histogram(h, [1, 1]) && |h| >= 2
    ensures FullTree(h) && Sum(h) == 2 && h[0] == 0 && h[1] == 2 && forall k :: 2 <= k < |h| ==> h[k] == 0
    ensures ListDown(h) == [1, 1]
  {
    hide Filled, Kraft, SortDown, ListDown, Sum, Pow2, Count;
    forall x: nat ensures Count([1, 1], x) == if x == 1 then 2 else 0 {
      assert [1, 1] == [1] + [1];
      CountConcat([1], [1], x);
      CountOfOne(1, x);
    }
    assert AtMost([1, 1], |h| - 1);
    ListDownSorts(h, [1, 1]);
    SortedOnes();
    ListDownLength(h);
    ListDownKraft(h, |h| - 1);
    OnesKraft(|h| - 1);
    NoShift(Filled(h));
  }

  lemma NoShift(a: nat)
    ensures Shift(a, 0) == a
  {
  }

  lemma SortedOnes()
    ensures SortDown([1, 1]) == [1, 1]
  {
    assert [1, 1][1..] == [1] && [1][1..] == [];
    assert SortDown([1]) == [1] by { assert SortDown([]) == []; }
  }

  lemma OnesKraft(d: nat)
    requires d >= 1
    ensures Kraft([1, 1], d) == Pow2(d)
  {
    assert [1, 1][1..] == [1] && [1][1..] == [];
    assert Kraft([1, 1], d) == Pow2(d - 1) + Kraft([1], d);
    assert Kraft([1], d) == Pow2(d - 1) + Kraft([], d);
  }

  lemma SingleLengths(sorted: seq<Symbol>, h: seq<nat>, m: nat, lens: seq<nat>, zeros: seq<nat>)
    requires |sorted| == 1 && Histogram(h, [1, 1]) && 1 <= m < |h|
    requires forall v :: 0 <= v < |zeros| ==> zeros[v] == 0
    requires Assigned(sorted, 1, ListDown(h), lens, zeros)
    ensures GoodLengths(sorted, lens, h, m)
  {
    SingleHistogram(h);
    AssignedAtMost(sorted, ListDown(h), 1, lens, zeros);
    forall n | 1 <= n <= |h| - 1 ensures First(lens, n) + Count(lens, n) <= Pow2(n) {
      SingleFirst(sorted, ListDown(h), lens, zeros, n);
    }
  }

  lemma {:induction false} SingleFirst(sorted: seq<Symbol>, l: seq<nat>, lens: seq<nat>, zeros: seq<nat>, n: nat)
    requires |sorted| == 1 && l == [1, 1] && n >= 1
    requires forall v :: 0 <= v < |zeros| ==> zeros[v] == 0
    requires Assigned(sorted, 1, l, lens, zeros)
    ensures First(lens, n) + Count(lens, n) <= Pow2(n) && (n >= 2 ==> Count(lens, n) == 0)
  {
    CountAssigned(sorted, 1, l, lens, zeros, n);
    assert l[..1] == [1];
    CountOfOne(1, n);
    if n > 1 {
      SingleFirst(sorted, l, lens, zeros, n - 1);
    } else {
      assert Pow2(1) == 2;
    }
  }

  // ---------- The construction ----------

  // The height of the tree; a single symbol has a code of one bit as well.
  function Deepest(w: seq<nat>): (n: nat)
    ensures n >= 1 && n >= TreeHeight(w)
  {
    if TreeHeight(w) == 0 then 1 else TreeHeight(w)
  }

  // No prefix code for these symbols has a smaller weighted length.
  ghost predicate Optimal(sorted: seq<Symbol>, l: seq<nat>) {
    && |l| == |sorted|
    && forall c: seq<Word> :: |c| == |sorted| && PrefixFree(c) ==> Dot(Weights(sorted), l) <= Dot(Weights(sorted), Lengths(c))
  }

  lemma CostMakesOptimal(sorted: seq<Symbol>, l: seq<nat>)
    requires |l| == |sorted| >= 1 && Ascending(Weights(sorted))
    requires Dot(Weights(sorted), l) == HuffmanCost(Weights(sorted))
    ensures Optimal(sorted, l)
  {
    forall c: seq<Word> | |c| == |sorted| && PrefixFree(c)
      ensures Dot(Weights(sorted), l) <= Dot(Weights(sorted), Lengths(c))
    {
      EveryPrefixCodeCostsAtLeast(Weights(sorted), c);
    }
  }

  // The symbols as the tree builder receives them.
  ghost predicate Prepared(freqs: seq<nat>, sorted: seq<Symbol>) {
    && Stable(Occurring(freqs, |freqs|), sorted) && Sorted(sorted)
    && |sorted| <= |freqs| && DistinctSymbols(sorted) && Weights(sorted) == Ranked(freqs)
    && Ascending(Weights(sorted)) && AtLeast(Weights(sorted), 1) && Sum(Weights(sorted)) == Total(freqs, |freqs|)
    && (forall i :: 0 <= i < |sorted| ==> sorted[i].value < |freqs|)
    && (forall v :: 0 <= v < |freqs| && Effective(freqs, v) != 0 ==> exists i :: 0 <= i < |sorted| && sorted[i].value == v)
    && (forall i :: 0 <= i < |sorted| ==> sorted[i].value < |freqs| && sorted[i].frequency == Effective(freqs, sorted[i].value))
  }

  lemma {:induction false} OccursIfEffective(freqs: seq<nat>, n: nat, v: nat)
    requires v < n <= |freqs| && Effective(freqs, v) != 0
    ensures Symbol(v, Effective(freqs, v)) in Occurring(freqs, n)
  {
    if v < n - 1 { OccursIfEffective(freqs, n - 1, v); }
  }

  lemma SortPrepares(freqs: seq<nat>, sorted: seq<Symbol>)
    requires Stable(Occurring(freqs, |freqs|), sorted) && Sorted(sorted)
    ensures Prepared(freqs, sorted)
  {
    var h := Occurring(freqs, |freqs|);
    OccurringDistinct(freqs);
    SortedIsAscending(sorted);
    SortSums(h, sorted);
    SortedMembers(freqs, h, sorted);
    hide Occurring, Effective, Sum, Ascending, Total, Sorted, Stable, DistinctSymbols, Weights;
    WeightsAtLeast(freqs, sorted);
  }

  lemma OccurringDistinct(freqs: seq<nat>)
    ensures var h := Occurring(freqs, |freqs|);
            DistinctSymbols(h) && |h| <= |freqs| && Sum(Weights(h)) == Total(freqs, |freqs|)
  {
    OccurringFacts(freqs, |freqs|);
  }

  lemma SortSums(h: seq<Symbol>, sorted: seq<Symbol>)
    requires multiset(h) == multiset(sorted) && DistinctSymbols(h) && Ascending(Weights(sorted))
    ensures |h| == |sorted| && DistinctSymbols(sorted)
    ensures Weights(sorted) == SortUp(Weights(h)) && Sum(Weights(sorted)) == Sum(Weights(h))
  {
    assert |multiset(h)| == |h| && |multiset(sorted)| == |sorted|;
    DistinctAfterSort(h, sorted);
    SortedWeights(h, sorted);
  }

  lemma WeightsAtLeast(freqs: seq<nat>, sorted: seq<Symbol>)
    requires forall i :: 0 <= i < |sorted| ==> sorted[i].value < |freqs| && sorted[i].frequency >= 1
    ensures AtLeast(Weights(sorted), 1)
  {
  }

  lemma SortedMembers(freqs: seq<nat>, h: seq<Symbol>, sorted: seq<Symbol>)
    requires h == Occurring(freqs, |freqs|) && multiset(h) == multiset(sorted)
    ensures forall i :: 0 <= i < |sorted| ==>
              sorted[i].value < |freqs| && sorted[i].frequency == Effective(freqs, sorted[i].value) >= 1
    ensures forall v :: 0 <= v < |freqs| && Effective(freqs, v) != 0 ==> exists i :: 0 <= i < |sorted| && sorted[i].value == v
  {
    OccurringFacts(freqs, |freqs|);
    hide Occurring, Effective, Weights, Sum, Total;
    forall i | 0 <= i < |sorted|
      ensures sorted[i].value < |freqs| && sorted[i].frequency == Effective(freqs, sorted[i].value) >= 1
    {
      var k := SameMember(sorted, h, i);
    }
    forall v | 0 <= v < |freqs| && Effective(freqs, v) != 0
      ensures exists i :: 0 <= i < |sorted| && sorted[i].value == v
    {
      OccursIfEffective(freqs, |freqs|, v);
      var k :| 0 <= k < |h| && h[k] == Symbol(v, Effective(freqs, v));
      var i := SameMember(h, sorted, k);
      assert sorted[i].value == v;
    }
  }

  lemma SameMember(a: seq<Symbol>, b: seq<Symbol>, i: nat) returns (k: nat)
    requires multiset(a) == multiset(b) && i < |a|
    ensures k < |b| && b[k] == a[i]
  {
    assert a[i] in multiset(b);
    k :| 0 <= k < |b| && b[k] == a[i];
  }

  // The histogram is that of the Huffman tree, cut off at the limit from below.
  ghost predicate CutOff(w: seq<nat>, h: seq<nat>, m: nat) {
    exists t: Trace, h0: seq<nat> :: Grown(w, t, h0) && PaidFromBelow(h0, h, m)
  }

  // What the construction promises: codes for a full tree, and the best ones unless the tree had to
  // be cut.
  ghost predicate Constructed(freqs: seq<nat>, sorted: seq<Symbol>, lens: seq<nat>, codes: seq<Codeword>,
                              h: seq<nat>, m: nat)
  {
    && Prepared(freqs, sorted) && |lens| == |codes| == |freqs|
    && (sorted == [] ==> forall k :: 0 <= k < |codes| ==> codes[k] == Codeword(0, if k == 0 then 1 else 0))
    && (sorted != [] ==> h != [] && GoodLengths(sorted, lens, h, m) && CodeTable(lens, codes, |codes|))
    && (sorted != [] && TreeHeight(Ranked(freqs)) <= m ==> AtMost(lens, Deepest(Ranked(freqs))))
    && (|sorted| >= 2 ==>
          && CutOff(Ranked(freqs), h, m) && LengthsOf(sorted, lens) == ListDown(h)
          && Kraft(LengthsOf(sorted, lens), m) == Pow2(m)
          && (TreeHeight(Ranked(freqs)) <= m ==> Optimal(sorted, LengthsOf(sorted, lens))))
  }

  method SortSymbols(freqs: seq<nat>, width: nat) returns (heap: array<Symbol>, n: nat, maxCode: nat)
    requires |freqs| >= 3 && Total(freqs, |freqs|) < Pow2(width)
    ensures fresh(heap) && heap.Length == |freqs| && n <= |freqs| && Prepared(freqs, heap[..n])
    ensures LastInUse(freqs, |freqs|, maxCode)
  {
    hide Prepared, Sorted, Stable, LastInUse;
    heap := new Symbol[|freqs|](_ => Symbol(0, 0));
    n, maxCode := Filter(freqs, heap);
    ghost var h := heap[..n];
    FrequenciesFit(freqs, width);
    assert forall k :: 0 <= k < n ==> heap[k] == h[k];
    RadixSort.RadixSort(heap, n, width);
    SortPrepares(freqs, heap[..n]);
  }

  lemma FrequenciesFit(freqs: seq<nat>, width: nat)
    requires Total(freqs, |freqs|) < Pow2(width)
    ensures var h := Occurring(freqs, |freqs|); forall k :: 0 <= k < |h| ==> h[k].frequency < Pow2(width)
  {
    OccurringFacts(freqs, |freqs|);
    var h := Occurring(freqs, |freqs|);
    hide Occurring, Total, Pow2;
    forall k | 0 <= k < |h| ensures h[k].frequency < Pow2(width) {
      SumPositive(Weights(h), k);
    }
  }

  // The histogram of the unlimited tree.
  method TreeHistogram(heap: seq<Symbol>, n: nat, size: nat, width: nat, junk: nat)
    returns (hist: array<nat>, ghost t: Trace)
    requires 3 <= |heap| && n <= |heap| && n + 2 < HISTOGRAM_WRAP && size >= 2
    requires Ascending(Weights(heap[..n])) && AtLeast(Weights(heap[..n]), 1)
    requires Sum(Weights(heap[..n])) < Pow2(width) && TreeHeight(Weights(heap[..n])) < size
    ensures fresh(hist) && hist.Length == size
    ensures n == 0 ==> Histogram(hist[..], [])
    ensures n == 1 ==> Histogram(hist[..], [1, 1])
    ensures n >= 2 ==> Grown(Weights(heap[..n]), t, hist[..])
  {
    hide Ascending, AtLeast, Sum, Pow2, TreeHeight, TreeBuilt, LengthsRead, Grown, Weights;
    ghost var w := Weights(heap[..n]);
    var parent, temp := new nat[|heap|](_ => 0), new nat[|heap|](_ => 0);
    var left, right;
    left, right, t := CreateTree(heap, n, parent, temp, width, junk);
    hist := new nat[size](_ => 0);
    WeightsLength(heap[..n]);
    EmptyHistogram(hist[..]);
    ComputeBitLength(parent, left, right, n, hist, temp, w, t);
    LengthsGrown(n, w, t, parent[..], left, right, hist[..], temp[..]);
  }

  lemma WeightsLength(s: seq<Symbol>)
    ensures |Weights(s)| == |s|
  {
  }

  lemma EmptyHistogram(h: seq<nat>)
    requires forall x :: 0 <= x < |h| ==> h[x] == 0
    ensures Histogram(h, [])
  {
  }

  ghost predicate Grown(w: seq<nat>, t: Trace, h: seq<nat>) {
    && Finished(w, t) && |t.freq| == |w| - 1 && Sum(t.freq) == HuffmanCost(w)
    && Histogram(h, CodeLengths(w, t)) && t.ht[|t.freq| - 1] < |h|
    && t.ht[|t.freq| - 1] == TreeHeight(w)
  }

  lemma LengthsGrown(n: nat, w: seq<nat>, t: Trace, parent: seq<nat>, left: set<nat>, right: set<nat>, h: seq<nat>, depth: seq<nat>)
    requires |w| == n && LengthsRead(n, w, t, h, depth)
    requires n >= 2 ==> TreeBuilt(w, t, parent, left, right) && TreeHeight(w) < |h|
    ensures n == 0 ==> Histogram(h, [])
    ensures n == 1 ==> Histogram(h, [1, 1])
    ensures n >= 2 ==> Grown(w, t, h)
  {
    if n >= 2 {
      hide Stage, Histogram, Sum, TreeHeight, CodeLengths;
    }
  }

  // The histogram after truncation, and what it still says about the tree.
  lemma TruncationKeeps(w: seq<nat>, t: Trace, h0: seq<nat>, h: seq<nat>, m: nat)
    requires Grown(w, t, h0) && Ascending(w) && |w| >= 2 && m < |h0| == |h|
    requires FullTo(h, m) && Sum(h) == Sum(h0)
    requires (forall k :: m < k < |h| ==> h0[k] == 0) ==> h == h0
    ensures Leveled(h, |w|, m)
    ensures TreeHeight(w) <= m ==> |ListDown(h)| == |w| && Dot(w, ListDown(h)) == HuffmanCost(w)
    ensures TreeHeight(w) <= m ==> forall k :: Deepest(w) < k < |h| ==> h[k] == 0
  {
    AssignmentIsOptimal(w, t, h0);
    if TreeHeight(w) <= m {
      CodeLengthsOfTree(w, t, |h| - 1);
      forall k | TreeHeight(w) < k < |h| ensures h0[k] == 0 {
        CountBeyond(CodeLengths(w, t), TreeHeight(w), k);
      }
    }
  }

  lemma GrownIsFull(w: seq<nat>, t: Trace, h: seq<nat>)
    requires Grown(w, t, h) && Ascending(w)
    ensures FullTree(h) && Sum(h) == |w|
  {
    AssignmentIsOptimal(w, t, h);
  }

  // Limits the histogram and hands the lengths out.
  method AssignLengths(heap: seq<Symbol>, n: nat, hist: array<nat>, symbols: nat, m: nat, ghost t: Trace)
    returns (bits: array<nat>)
    requires n <= |heap| && n <= Pow2(m) && 1 <= m < hist.Length
    requires DistinctSymbols(heap[..n]) && forall i :: 0 <= i < n ==> heap[i].value < symbols
    requires Ascending(Weights(heap[..n]))
    requires n == 0 ==> Histogram(hist[..], [])
    requires n == 1 ==> Histogram(hist[..], [1, 1])
    requires n >= 2 ==> Grown(Weights(heap[..n]), t, hist[..])
    modifies hist
    ensures fresh(bits) && bits.Length == symbols
    ensures n == 0 ==> forall v :: 0 <= v < symbols ==> bits[v] == 0
    ensures n >= 1 ==> GoodLengths(heap[..n], bits[..], hist[..], m)
    ensures n >= 2 ==> PaidFromBelow(old(hist[..]), hist[..], m) && LengthsOf(heap[..n], bits[..]) == ListDown(hist[..])
    ensures n >= 2 ==> Kraft(LengthsOf(heap[..n], bits[..]), m) == Pow2(m)
    ensures n >= 2 && TreeHeight(Weights(heap[..n])) <= m ==> Optimal(heap[..n], LengthsOf(heap[..n], bits[..]))
    ensures n >= 1 && TreeHeight(Weights(heap[..n])) <= m ==> AtMost(bits[..], Deepest(Weights(heap[..n])))
  {
    hide *;
    ghost var sorted, h0 := heap[..n], hist[..];
    FullBefore(sorted, h0, m, t);
    TruncateTree(hist, hist.Length, m);
    ghost var h := hist[..];
    bits := new nat[symbols](_ => 0);
    ghost var zeros := bits[..];
    DistinctIn(heap, n);
    CanonizeTree(heap, n, hist, bits, hist.Length);
    AssignedPrefix(heap, n, ListDown(h), bits[..], zeros);
    LengthsAssigned(sorted, h0, h, m, t, bits[..], zeros);
  }

  lemma DistinctIn(heap: seq<Symbol>, n: nat)
    requires n <= |heap| && DistinctSymbols(heap[..n])
    ensures DistinctValues(heap, n)
  {
    forall i, j | 0 <= i < j < n ensures heap[i].value != heap[j].value {
      assert heap[..n][i].value != heap[..n][j].value;
    }
  }

  lemma AssignedPrefix(heap: seq<Symbol>, n: nat, l: seq<nat>, bits: seq<nat>, bits0: seq<nat>)
    requires Assigned(heap, n, l, bits, bits0)
    ensures n <= |heap| && Assigned(heap[..n], n, l, bits, bits0)
  {
  }

  lemma FullBefore(sorted: seq<Symbol>, h: seq<nat>, m: nat, t: Trace)
    requires |sorted| <= Pow2(m) && 1 <= m < |h| && Ascending(Weights(sorted))
    requires |sorted| == 0 ==> Histogram(h, [])
    requires |sorted| == 1 ==> Histogram(h, [1, 1])
    requires |sorted| >= 2 ==> Grown(Weights(sorted), t, h)
    ensures FullTree(h) && |sorted| <= Sum(h) <= Pow2(m)
  {
    if |sorted| == 0 {
      ListDownSorts(h, []);
      ListDownLength(h);
    } else if |sorted| == 1 {
      SingleHistogram(h);
      Pow2Mono(1, m);
      assert Pow2(1) == 2;
    } else {
      GrownIsFull(Weights(sorted), t, h);
    }
  }

  lemma ShallowDown(h: seq<nat>, n: nat)
    requires n < |h| && forall k :: n < k < |h| ==> h[k] == 0
    ensures AtMost(ListDown(h), n)
  {
    ListDownPrefix(h, n);
    ListDownDescending(h[..n + 1]);
    if ListDown(h) != [] { DescendingFromHead(ListDown(h)); }
  }

  lemma LengthsAssigned(sorted: seq<Symbol>, h0: seq<nat>, h: seq<nat>, m: nat, t: Trace, bits: seq<nat>, zeros: seq<nat>)
    requires 1 <= m < |h0| == |h| && DistinctSymbols(sorted) && Ascending(Weights(sorted))
    requires |sorted| == 0 ==> Histogram(h0, [])
    requires |sorted| == 1 ==> Histogram(h0, [1, 1])
    requires |sorted| >= 2 ==> Grown(Weights(sorted), t, h0)
    requires FullTo(h, m) && Sum(h) == Sum(h0)
    requires (forall k :: m < k < |h| ==> h0[k] == 0) ==> h == h0
    requires forall v :: 0 <= v < |zeros| ==> zeros[v] == 0
    requires Assigned(sorted, |sorted|, ListDown(h), bits, zeros)
    ensures |sorted| == 0 ==> forall v :: 0 <= v < |bits| ==> bits[v] == 0
    ensures |sorted| >= 1 ==> GoodLengths(sorted, bits, h, m)
    ensures |sorted| >= 2 ==> LengthsOf(sorted, bits) == ListDown(h) && Kraft(LengthsOf(sorted, bits), m) == Pow2(m)
    ensures |sorted| >= 2 && TreeHeight(Weights(sorted)) <= m ==> Optimal(sorted, LengthsOf(sorted, bits))
    ensures |sorted| >= 1 && TreeHeight(Weights(sorted)) <= m ==> AtMost(bits, Deepest(Weights(sorted)))
  {
    if |sorted| == 1 {
      SingleHistogram(h0);
      SingleLengths(sorted, h, m, bits, zeros);
      AssignedAtMost(sorted, ListDown(h), Deepest(Weights(sorted)), bits, zeros);
    } else if |sorted| >= 2 {
      var w := Weights(sorted);
      TruncationKeeps(w, t, h0, h, m);
      AssignedLengths(sorted, h, m, bits, zeros);
      LeveledFacts(h, |sorted|, m);
      if TreeHeight(w) <= m {
        CostMakesOptimal(sorted, ListDown(h));
        ShallowDown(h, Deepest(w));
        AssignedAtMost(sorted, ListDown(h), Deepest(w), bits, zeros);
      }
    }
  }

  lemma PreparedFacts(freqs: seq<nat>, sorted: seq<Symbol>)
    requires Prepared(freqs, sorted)
    ensures |sorted| <= |freqs| && DistinctSymbols(sorted)
    ensures forall i :: 0 <= i < |sorted| ==> sorted[i].value < |freqs|
    ensures Ascending(Weights(sorted)) && AtLeast(Weights(sorted), 1) && Sum(Weights(sorted)) == Total(freqs, |freqs|)
    ensures Weights(sorted) == Ranked(freqs)
  {
  }

  // What createCodeword needs.
  lemma ReadyForCodes(n: nat, sorted: seq<Symbol>, bits: seq<nat>, h: seq<nat>, m: nat)
    requires n == 0 ==> forall v :: 0 <= v < |bits| ==> bits[v] == 0
    requires n >= 1 ==> GoodLengths(sorted, bits, h, m)
    ensures AtMost(bits, m)
    ensures n >= 1 ==> Counts(h, bits) && Feasible(bits, |h| - 1)
  {
  }

  lemma ConstructedFrom(freqs: seq<nat>, sorted: seq<Symbol>, lens: seq<nat>, codes: seq<Codeword>, h: seq<nat>, m: nat)
    requires Prepared(freqs, sorted) && |lens| == |codes| == |freqs| && h != []
    requires sorted == [] ==> forall k :: 0 <= k < |codes| ==> codes[k] == Codeword(0, if k == 0 then 1 else 0)
    requires |sorted| >= 1 ==> GoodLengths(sorted, lens, h, m) && CodeTable(lens, codes, |codes|)
    requires |sorted| >= 2 ==> CutOff(Ranked(freqs), h, m) && LengthsOf(sorted, lens) == ListDown(h)
    requires |sorted| >= 2 ==> Kraft(LengthsOf(sorted, lens), m) == Pow2(m)
    requires |sorted| >= 2 && TreeHeight(Ranked(freqs)) <= m ==> Optimal(sorted, LengthsOf(sorted, lens))
    requires |sorted| >= 1 && TreeHeight(Ranked(freqs)) <= m ==> AtMost(lens, Deepest(Ranked(freqs)))
    ensures Constructed(freqs, sorted, lens, codes, h, m)
  {
  }

  lemma IsCutOff(w: seq<nat>, t: Trace, h0: seq<nat>, h: seq<nat>, m: nat)
    requires Grown(w, t, h0) && PaidFromBelow(h0, h, m)
    ensures CutOff(w, h, m)
  {
  }

  // From frequencies to codes, as one block of the tree generator does it.
  method HuffConstructTree(freqs: seq<nat>, size: nat, maxBits: nat, width: nat, junk: nat)
    returns (codes: seq<Codeword>, maxCode: nat, ghost lens: seq<nat>, ghost sorted: seq<Symbol>, ghost hist: seq<nat>)
    requires 3 <= |freqs| && |freqs| + 2 < HISTOGRAM_WRAP && |freqs| <= Pow2(maxBits)
    requires 1 <= maxBits <= MAX_LEN && maxBits < size
    requires Total(freqs, |freqs|) < Pow2(width) && TreeHeight(Ranked(freqs)) < size
    ensures Constructed(freqs, sorted, lens, codes, hist, maxBits) && LastInUse(freqs, |freqs|, maxCode)
  {
    hide *;
    var heap, n;
    heap, n, maxCode := SortSymbols(freqs, width);
    sorted := heap[..n];
    PreparedFacts(freqs, sorted);
    ghost var prepared := sorted;
    assert heap[..][..n] == sorted;
    var h: array<nat>;
    ghost var t;
    h, t := TreeHistogram(heap[..], n, size, width, junk);
    assert forall i :: 0 <= i < n ==> heap[..][i] == sorted[i];
    ghost var h0 := h[..];
    var bits := AssignLengths(heap[..], n, h, |freqs|, maxBits, t);
    lens, hist := bits[..], h[..];
    if n >= 2 { IsCutOff(Ranked(freqs), t, h0, hist, maxBits); }
    ReadyForCodes(n, sorted, lens, hist, maxBits);
    codes := CreateCodeword(bits, h[..], |freqs|, maxBits, n);
    ConstructedFrom(freqs, sorted, lens, codes, hist, maxBits);
  }
}
