// How high a tree gets before its code lengths are limited: no higher than the Fibonacci numbers
// allow, and as high as that for weights growing like the Lucas numbers.

module HuffmanHeight {
  import opened Arithmetic
  import opened HuffmanOptimality
  import opened HuffmanTree

  // A small total weight keeps the tree low.
  lemma HeightBound(w: seq<nat>, size: nat)
    requires Ascending(w) && AtLeast(w, 1)
    requires Sum(w) < Fib(size + 2)
    ensures w != [] ==> TreeHeight(w) < size
  {
    hide Ascending, AtLeast, TreeHeight, Sum;
    if w != [] {
      HeightNeedsWeight(w);
      if TreeHeight(w) >= size {
        FibMono(size + 2, TreeHeight(w) + 2);
        assert false;
      }
    }
  }

  // The totals that are safe for the histograms of 18 entries (blocks) and 15 entries (the lengths
  // of a block, 286 + 30 of them).
  lemma SafeTotals()
    ensures Fib(18 + 2) == 6765 && Fib(15 + 2) == 1597 && 286 + 30 < Fib(15 + 2)
  {
    assert Fib(8) == 21 && Fib(9) == 34;
    assert Fib(10) == 55 && Fib(11) == 89;
    assert Fib(12) == 144 && Fib(13) == 233;
    assert Fib(14) == 377 && Fib(15) == 610;
    assert Fib(16) == 987 && Fib(17) == 1597;
    assert Fib(18) == 2584 && Fib(19) == 4181;
  }

  // ---------- The steepest trees ----------

  function Lucas(n: nat): nat {
    if n == 0 then 2 else if n == 1 then 1 else Lucas(n - 1) + Lucas(n - 2)
  }

  // The Lucas numbers k, ..., m - 1.
  function LucasRun(k: nat, m: nat): (r: seq<nat>)
    requires k <= m
    ensures |r| == m - k
    decreases m - k
  {
    if k == m then [] else [Lucas(k)] + LucasRun(k + 1, m)
  }

  // The weights 1, 1, 1, 3, 4, 7, 11, ...
  function Steep(m: nat): seq<nat>
    requires m >= 1
  {
    [1, 1] + LucasRun(1, m)
  }

  lemma {:induction false} LucasGrows(n: nat)
    requires n >= 1
    ensures 1 <= Lucas(n) < Lucas(n + 1)
  {
    if n > 1 { LucasGrows(n - 1); }
  }

  // One node is waiting, lighter than the second symbol in line by just enough: every round takes
  // the next symbol and that node, and the tree grows by one level.
  lemma {:induction false} SteepRun(k: nat, m: nat, v: nat, h: nat)
    requires 1 <= k <= m && v + 1 == Lucas(k + 1)
    ensures QueueHeight(LucasRun(k, m), [v], [h]) == h + m - k
    decreases m - k
  {
    hide QueueHeight, Lucas;
    if k == m {
      NodeLeft(v, h);
    } else {
      LucasGrows(k);
      LucasGrows(k + 1);
      SteepRound(Lucas(k), LucasRun(k + 1, m), v, h);
      LucasNext(k);
      SteepRun(k + 1, m, Lucas(k) + v, h + 1);
    }
  }

  lemma NodeLeft(v: nat, h: nat)
    ensures QueueHeight([], [v], [h]) == h
  {
  }

  lemma LucasNext(k: nat)
    ensures Lucas(k + 2) == Lucas(k) + Lucas(k + 1)
  {
  }

  lemma SteepRound(x: nat, a: seq<nat>, v: nat, h: nat)
    requires x <= v && (a == [] || v < a[0])
    ensures QueueHeight([x] + a, [v], [h]) == QueueHeight(a, [x + v], [h + 1])
  {
    hide QueueHeight;
    HeightOfPicks([x] + a, [v], [h], false, x, 0, a, [v], [h], true, v, h, a, [], []);
    assert [] + [x + v] == [x + v];
    var s: seq<nat> := [1 + Higher(0, h)];
    assert [] + s == [h + 1];
  }

  lemma SteepStart(a: seq<nat>)
    requires a != [] && a[0] == 1
    ensures QueueHeight([1, 1] + a, [], []) == QueueHeight(a, [2], [1])
  {
    hide QueueHeight;
    var w := [1, 1] + a;
    assert w[1..] == [1] + a && ([1] + a)[1..] == a;
    HeightOfPicks(w, [], [], false, 1, 0, [1] + a, [], [], false, 1, 0, a, [], []);
    var s: seq<nat> := [1 + 1];
    assert [] + s == [2];
    var h: seq<nat> := [1 + Higher(0, 0)];
    assert [] + h == [1];
  }

  lemma {:induction false} LucasTotal(k: nat, m: nat)
    requires 1 <= k <= m
    ensures Sum(LucasRun(k, m)) + Lucas(k + 1) == Lucas(m + 1)
    decreases m - k
  {
    if k < m {
      LucasTotal(k + 1, m);
      assert LucasRun(k, m)[1..] == LucasRun(k + 1, m);
    }
  }

  lemma {:induction false} LucasAscending(k: nat, m: nat)
    requires 1 <= k <= m
    ensures Ascending(LucasRun(k, m)) && AtLeast(LucasRun(k, m), 1)
    decreases m - k
  {
    if k < m {
      LucasAscending(k + 1, m);
      LucasGrows(k);
      assert LucasRun(k, m)[1..] == LucasRun(k + 1, m);
    }
  }

  // With one symbol more than levels, the tree is a chain.
  lemma SteepHeight(m: nat)
    requires m >= 2
    ensures |Steep(m)| == m + 1 && TreeHeight(Steep(m)) == m
    ensures Sum(Steep(m)) + 1 == Lucas(m + 1)
    ensures Ascending(Steep(m)) && AtLeast(Steep(m), 1)
  {
    var a := LucasRun(1, m);
    assert a[0] == 1;
    SteepStart(a);
    SteepRun(1, m, 2, 1);
    LucasTotal(1, m);
    LucasAscending(1, m);
    SteepSums(a);
  }

  lemma SteepSums(a: seq<nat>)
    requires a != [] && a[0] == 1 && Ascending(a)
    ensures Sum([1, 1] + a) == 2 + Sum(a) && Ascending([1, 1] + a)
  {
    var w := [1, 1] + a;
    assert w[1..][1..] == a && w[1..][0] == 1;
  }

  // 19 symbols, 9348 in all, give a tree of height 18: the 18 entries of the histogram end at 17.
  lemma TooHigh()
    ensures |Steep(18)| == 19 && Sum(Steep(18)) == 9348 && TreeHeight(Steep(18)) == 18
  {
    SteepHeight(18);
    LucasNumbers();
    hide Lucas, Steep, TreeHeight, Sum;
  }

  lemma LucasNumbers()
    ensures Lucas(19) == 9349
  {
    assert Lucas(8) == 47 && Lucas(9) == 76;
    assert Lucas(10) == 123 && Lucas(11) == 199;
    assert Lucas(12) == 322 && Lucas(13) == 521;
    assert Lucas(14) == 843 && Lucas(15) == 1364;
    assert Lucas(16) == 2207 && Lucas(17) == 3571;
  }
}
