// Powers of two, sums and weighted sums over sequences of natural numbers: the vocabulary in
// which Kraft sums, histograms and coding costs are stated.

module Arithmetic {

  function Pow2(n: nat): (p: nat)
    ensures p >= 1
  {
    if n == 0 then 1 else 2 * Pow2(n - 1)
  }

  lemma {:induction false} Pow2Add(a: nat, b: nat)
    ensures Pow2(a + b) == Pow2(a) * Pow2(b)
  {
    if a > 0 {
      Pow2Add(a - 1, b);
      assert Pow2(a + b) == 2 * Pow2(a - 1 + b);
    }
  }

  lemma {:induction false} Pow2Mono(a: nat, b: nat)
    requires a <= b
    ensures Pow2(a) <= Pow2(b)
  {
    if a < b { Pow2Mono(a, b - 1); }
  }

  function Sum(s: seq<nat>): nat {
    if s == [] then 0 else s[0] + Sum(s[1..])
  }

  lemma {:induction false} SumConcat(a: seq<nat>, b: seq<nat>)
    ensures Sum(a + b) == Sum(a) + Sum(b)
  {
    if a == [] {
      assert a + b == b;
    } else {
      assert (a + b)[1..] == a[1..] + b;
      SumConcat(a[1..], b);
    }
  }

  lemma SumAppend(a: seq<nat>, x: nat)
    ensures Sum(a + [x]) == Sum(a) + x
  {
    SumConcat(a, [x]);
    assert [x][1..] == [];
  }

  // The product a * n as repeated addition, so that proofs about costs stay linear.
  function Times(a: nat, n: nat): nat {
    if n == 0 then 0 else a + Times(a, n - 1)
  }

  lemma {:induction false} TimesIsProduct(a: nat, n: nat)
    ensures Times(a, n) == a * n
  {
    if n > 0 { TimesIsProduct(a, n - 1); }
  }

  lemma {:induction false} TimesAdd(a: nat, b: nat, n: nat)
    ensures Times(a + b, n) == Times(a, n) + Times(b, n)
  {
    if n > 0 { TimesAdd(a, b, n - 1); }
  }

  // The coding cost: every weight times its code length.
  function Dot(w: seq<nat>, l: seq<nat>): nat
    requires |w| == |l|
  {
    if w == [] then 0 else Times(w[0], l[0]) + Dot(w[1..], l[1..])
  }

  lemma {:induction false} DotConcat(w: seq<nat>, l: seq<nat>, w': seq<nat>, l': seq<nat>)
    requires |w| == |l| && |w'| == |l'|
    ensures Dot(w + w', l + l') == Dot(w, l) + Dot(w', l')
  {
    if w == [] {
      assert w + w' == w' && l + l' == l';
    } else {
      assert (w + w')[1..] == w[1..] + w' && (l + l')[1..] == l[1..] + l';
      DotConcat(w[1..], l[1..], w', l');
    }
  }

  // How often x occurs in s.
  function Count(s: seq<nat>, x: nat): nat {
    if s == [] then 0 else (if s[0] == x then 1 else 0) + Count(s[1..], x)
  }

  lemma {:induction false} CountConcat(a: seq<nat>, b: seq<nat>, x: nat)
    ensures Count(a + b, x) == Count(a, x) + Count(b, x)
  {
    if a == [] {
      assert a + b == b;
    } else {
      assert (a + b)[1..] == a[1..] + b;
      CountConcat(a[1..], b, x);
    }
  }

  lemma {:induction false} CountAtMost(l: seq<nat>, x: nat)
    ensures Count(l, x) <= |l|
  {
    if l != [] { CountAtMost(l[1..], x); }
  }

  predicate AtMost(l: seq<nat>, d: nat) {
    forall i :: 0 <= i < |l| ==> l[i] <= d
  }

  lemma {:induction false} CountBeyond(l: seq<nat>, d: nat, y: nat)
    requires AtMost(l, d) && y > d
    ensures Count(l, y) == 0
  {
    if l != [] { CountBeyond(l[1..], d, y); }
  }

  // The Kraft sum of a list of code lengths, scaled by 2^d to stay integral.
  function Kraft(l: seq<nat>, d: nat): nat {
    if l == [] then 0 else (if l[0] <= d then Pow2(d - l[0]) else 0) + Kraft(l[1..], d)
  }

  lemma {:induction false} KraftConcat(a: seq<nat>, b: seq<nat>, d: nat)
    ensures Kraft(a + b, d) == Kraft(a, d) + Kraft(b, d)
  {
    if a == [] {
      assert a + b == b;
    } else {
      assert (a + b)[1..] == a[1..] + b;
      KraftConcat(a[1..], b, d);
    }
  }

  // One more bit of scale doubles the sum.
  lemma {:induction false} KraftScale(l: seq<nat>, d: nat)
    requires AtMost(l, d)
    ensures Kraft(l, d + 1) == 2 * Kraft(l, d)
  {
    if l != [] { KraftScale(l[1..], d); }
  }

  lemma {:induction false} KraftEven(l: seq<nat>, d: nat)
    requires d > 0 && AtMost(l, d - 1)
    ensures Kraft(l, d) % 2 == 0
  {
    KraftScale(l, d - 1);
  }

  function Fib(n: nat): nat {
    if n < 2 then n else Fib(n - 1) + Fib(n - 2)
  }

  lemma {:induction false} FibMono(a: nat, b: nat)
    requires 1 <= a <= b
    ensures 1 <= Fib(a) <= Fib(b)
  {
    if a == b {
      if a > 2 { FibMono(a - 1, a - 1); }
    } else {
      FibMono(a, b - 1);
    }
  }
}
