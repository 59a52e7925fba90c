// Canonical prefix codes (RFC 1951, section 3.2.2): the codes are determined by their lengths
// alone. What the encoder assigns, what the comparator decoder reads back, and why no code is a
// prefix of another.

module CanonicalCodes {
  import opened Arithmetic
  import opened HuffmanLimit

  // ---------- Bit strings ----------

  type Bit = b: nat | b < 2

  // The value of a bit string read with its first bit most significant.
  function Value(s: seq<Bit>): nat {
    if s == [] then 0 else 2 * Value(s[..|s| - 1]) + s[|s| - 1]
  }

  // The n low bits of v, lowest first: the order in which bits enter the stream.
  function LowBits(v: nat, n: nat): (s: seq<Bit>)
    ensures |s| == n
  {
    if n == 0 then [] else [v % 2] + LowBits(v / 2, n - 1)
  }

  // The n low bits of c in opposite order.
  function Reverse(c: nat, n: nat): nat
    requires c < Pow2(n)
  {
    if n == 0 then 0
    else if c < Pow2(n - 1) then 2 * Reverse(c, n - 1)
    else 1 + 2 * Reverse(c - Pow2(n - 1), n - 1)
  }

  function ShiftRight(v: nat, n: nat): nat {
    if n == 0 then v else ShiftRight(v / 2, n - 1)
  }

  lemma {:induction false} ValueFront(b: Bit, s: seq<Bit>)
    ensures Value([b] + s) == (if b == 0 then 0 else Pow2(|s|)) + Value(s)
    decreases |s|
  {
    if s == [] {
      assert ([b] + s)[..0] == [];
    } else {
      ValueFront(b, s[..|s| - 1]);
      assert ([b] + s)[..|s|] == [b] + s[..|s| - 1];
    }
  }

  // Sending a reversed code lowest bit first sends the code itself highest bit first.
  lemma {:induction false} ReversedInStream(c: nat, n: nat)
    requires c < Pow2(n)
    ensures Value(LowBits(Reverse(c, n), n)) == c
  {
    if n > 0 {
      var h := c >= Pow2(n - 1);
      var d := if h then c - Pow2(n - 1) else c;
      ReversedInStream(d, n - 1);
      assert LowBits(Reverse(c, n), n) == [if h then 1 else 0] + LowBits(Reverse(d, n - 1), n - 1);
      ValueFront(if h then 1 else 0, LowBits(Reverse(d, n - 1), n - 1));
    }
  }

  // Reversing a short code in a wide register leaves it at the top of the register.
  lemma {:induction false} ReverseWide(c: nat, n: nat, w: nat)
    requires n <= w && c < Pow2(n)
    ensures c < Pow2(w) && ShiftRight(Reverse(c, w), w - n) == Reverse(c, n)
  {
    Pow2Mono(n, w);
    if n < w {
      Pow2Mono(n, w - 1);
      ReverseWide(c, n, w - 1);
      assert Reverse(c, w) == 2 * Reverse(c, w - 1);
    }
  }

  lemma {:induction false} ValueBound(s: seq<Bit>)
    ensures Value(s) < Pow2(|s|)
    decreases |s|
  {
    if s != [] { ValueBound(s[..|s| - 1]); }
  }

  // ---------- Canonical codes ----------

  // The first code of length n.
  function First(lens: seq<nat>, n: nat): nat {
    if n < 2 then 0 else 2 * (First(lens, n - 1) + Count(lens, n - 1))
  }

  function Code(lens: seq<nat>, k: nat): nat
    requires k < |lens|
  {
    First(lens, lens[k]) + Count(lens[..k], lens[k])
  }

  // There is room for all codes up to length d.
  predicate Feasible(lens: seq<nat>, d: nat) {
    AtMost(lens, d) && forall n :: 1 <= n <= d ==> First(lens, n) + Count(lens, n) <= Pow2(n)
  }

  lemma {:induction false} CountSplit(lens: seq<nat>, k: nat)
    requires k < |lens|
    ensures Count(lens[..k], lens[k]) < Count(lens, lens[k])
  {
    assert lens == lens[..k] + ([lens[k]] + lens[k + 1..]);
    CountConcat(lens[..k], [lens[k]] + lens[k + 1..], lens[k]);
  }

  lemma CodeBounds(lens: seq<nat>, k: nat, d: nat)
    requires k < |lens| && Feasible(lens, d) && lens[k] > 0
    ensures First(lens, lens[k]) <= Code(lens, k) < First(lens, lens[k]) + Count(lens, lens[k]) <= Pow2(lens[k])
  {
    CountSplit(lens, k);
  }

  // Whatever bits follow, a value below the codes of some length stays below the first code of
  // every greater length.
  lemma {:induction false} StaysBelow(lens: seq<nat>, s: seq<Bit>, n: nat, m: nat)
    requires 1 <= n < m <= |s|
    requires Value(s[..n]) < First(lens, n) + Count(lens, n)
    ensures Value(s[..m]) < First(lens, m)
    decreases m
  {
    assert s[..m][..m - 1] == s[..m - 1];
    if m - 1 > n { StaysBelow(lens, s, n, m - 1); }
  }

  // The stream s starts with the code of symbol k.
  ghost predicate StartsWith(s: seq<Bit>, lens: seq<nat>, k: nat)
    requires k < |lens|
  {
    lens[k] <= |s| && Value(s[..lens[k]]) == Code(lens, k)
  }

  // The bits behind the code do not matter.
  lemma PrefixStarts(lens: seq<nat>, k: nat, s: seq<Bit>, t: seq<Bit>)
    requires k < |lens| && StartsWith(s, lens, k) && t <= s && lens[k] <= |t|
    ensures StartsWith(t, lens, k)
  {
    hide Code, Value;
    assert t[..lens[k]] == s[..lens[k]];
  }

  // No stream starts with the codes of two symbols.
  lemma UniqueStart(lens: seq<nat>, d: nat, s: seq<Bit>, j: nat, k: nat)
    requires Feasible(lens, d) && j < |lens| && k < |lens| && lens[j] > 0 && lens[k] > 0
    requires StartsWith(s, lens, j) && StartsWith(s, lens, k)
    ensures j == k
  {
    CodeBounds(lens, j, d);
    CodeBounds(lens, k, d);
    if lens[j] < lens[k] {
      StaysBelow(lens, s, lens[j], lens[k]);
    } else if lens[k] < lens[j] {
      StaysBelow(lens, s, lens[k], lens[j]);
    } else if j < k {
      RankGrows(lens, j, k);
    } else if k < j {
      RankGrows(lens, k, j);
    }
  }

  lemma RankGrows(lens: seq<nat>, j: nat, k: nat)
    requires j < k < |lens| && lens[j] == lens[k]
    ensures Count(lens[..j], lens[k]) < Count(lens[..k], lens[k])
  {
    CountSplit(lens[..k], j);
    assert lens[..k][..j] == lens[..j];
  }

  // The two rules of section 3.2.2 of RFC 1951: codes of the same length are consecutive values in the
  // order of their symbols, and shorter codes come before longer ones.
  lemma CodesInOrder(lens: seq<nat>, d: nat, j: nat, k: nat)
    requires Feasible(lens, d) && j < |lens| && k < |lens| && lens[j] > 0
    ensures j < k && lens[j] == lens[k] ==> Code(lens, k) == Code(lens, j) + Count(lens[j..k], lens[j])
    ensures lens[j] < lens[k] ==> Shift(Code(lens, j) + 1, lens[k] - lens[j]) <= Code(lens, k)
  {
    hide Feasible, First, Count, Shift;
    if j < k && lens[j] == lens[k] {
      assert lens[..k] == lens[..j] + lens[j..k];
      CountConcat(lens[..j], lens[j..k], lens[j]);
    } else if lens[j] < lens[k] {
      CodeBounds(lens, j, d);
      FirstBehind(lens, lens[j], lens[k], Code(lens, j) + 1);
    }
  }

  lemma {:induction false} FirstBehind(lens: seq<nat>, n: nat, m: nat, c: nat)
    requires 1 <= n < m && c <= First(lens, n) + Count(lens, n)
    ensures Shift(c, m - n) <= First(lens, m)
    decreases m
  {
    if m - 1 > n {
      FirstBehind(lens, n, m - 1, c);
    } else {
      assert Shift(c, 1) == 2 * c;
    }
  }

  // The bits sent for a symbol.
  function CodeBits(lens: seq<nat>, k: nat): (s: seq<Bit>)
    requires k < |lens| && Code(lens, k) < Pow2(lens[k])
    ensures |s| == lens[k]
  {
    LowBits(Reverse(Code(lens, k), lens[k]), lens[k])
  }

  lemma CodeBitsStart(lens: seq<nat>, k: nat, d: nat, rest: seq<Bit>)
    requires k < |lens| && Feasible(lens, d) && lens[k] > 0
    ensures Code(lens, k) < Pow2(lens[k])
    ensures StartsWith(CodeBits(lens, k) + rest, lens, k)
  {
    CodeBounds(lens, k, d);
    ReversedInStream(Code(lens, k), lens[k]);
    assert (CodeBits(lens, k) + rest)[..lens[k]] == CodeBits(lens, k);
  }

  // No code is a prefix of another.
  lemma PrefixFreeCodes(lens: seq<nat>, d: nat, j: nat, k: nat)
    requires Feasible(lens, d) && j < |lens| && k < |lens| && lens[j] > 0 && lens[k] > 0 && j != k
    ensures Code(lens, j) < Pow2(lens[j]) && Code(lens, k) < Pow2(lens[k])
    ensures !(CodeBits(lens, j) <= CodeBits(lens, k))
  {
    hide Feasible, Code, StartsWith, CodeBits, Pow2;
    CodeBitsStart(lens, j, d, []);
    CodeBitsStart(lens, k, d, []);
    var s := CodeBits(lens, k);
    if CodeBits(lens, j) <= s {
      assert s == CodeBits(lens, j) + s[lens[j]..];
      CodeBitsStart(lens, j, d, s[lens[j]..]);
      assert s == s + [];
      UniqueStart(lens, d, s, j, k);
      assert false;
    }
  }

  // ---------- From a full tree's histogram to feasible lengths ----------

  lemma {:induction false} FilledPrefix(h: seq<nat>, n: nat)
    requires 1 <= n <= |h|
    ensures Shift(Filled(h[..n]), |h| - n) <= Filled(h)
    decreases |h|
  {
    if n < |h| {
      FilledPrefix(h[..|h| - 1], n);
      assert h[..|h| - 1][..n] == h[..n];
    } else {
      assert h[..n] == h;
    }
  }

  lemma {:induction false} ShiftReflects(a: nat, m: nat, e: nat)
    requires Shift(a, e) <= Pow2(m + e)
    ensures a <= Pow2(m)
  {
    if e > 0 {
      assert Pow2(m + e) == 2 * Pow2(m + e - 1);
      ShiftReflects(a, m, e - 1);
    }
  }

  lemma FilledBound(h: seq<nat>, n: nat)
    requires 1 <= n <= |h| && Filled(h) <= Pow2(|h| - 1)
    ensures Filled(h[..n]) <= Pow2(n - 1)
  {
    FilledPrefix(h, n);
    ShiftReflects(Filled(h[..n]), n - 1, |h| - n);
  }

  // The first codes computed from a histogram.
  function FirstOf(h: seq<nat>, n: nat): nat
    requires n <= |h|
  {
    if n == 0 then 0 else 2 * (FirstOf(h, n - 1) + h[n - 1])
  }

  lemma {:induction false} FirstOfFilled(h: seq<nat>, n: nat)
    requires n <= |h|
    ensures FirstOf(h, n) == 2 * Filled(h[..n])
  {
    if n > 0 {
      FirstOfFilled(h, n - 1);
      assert h[..n][..n - 1] == h[..n - 1];
    }
  }

  // The histogram agrees with the lengths on every level above the deepest one in use.
  ghost predicate Counts(h: seq<nat>, lens: seq<nat>) {
    && h != [] && h[0] == 0 && AtMost(lens, |h| - 1)
    && forall k, x :: 0 <= k < |lens| && 1 <= x < lens[k] ==> h[x] == Count(lens, x)
  }

  lemma {:induction false} FirstAgrees(h: seq<nat>, lens: seq<nat>, k: nat, n: nat)
    requires Counts(h, lens) && k < |lens| && n <= lens[k]
    ensures FirstOf(h, n) == First(lens, n)
  {
    if n >= 1 {
      FirstAgrees(h, lens, k, n - 1);
      if n == 1 { assert FirstOf(h, 0) == 0; }
    }
  }

  lemma {:induction false} FirstOfCounts(h: seq<nat>, lens: seq<nat>, n: nat)
    requires n <= |h| && h != [] && h[0] == 0 && forall x :: 1 <= x < |h| ==> h[x] == Count(lens, x)
    ensures FirstOf(h, n) == First(lens, n)
  {
    if n >= 1 { FirstOfCounts(h, lens, n - 1); }
  }

  // Lengths counted by the histogram of a tree are feasible.
  lemma TreeLengthsFeasible(h: seq<nat>, lens: seq<nat>)
    requires h != [] && h[0] == 0 && (forall x :: 1 <= x < |h| ==> h[x] == Count(lens, x))
    requires Filled(h) <= Pow2(|h| - 1) && AtMost(lens, |h| - 1)
    ensures Feasible(lens, |h| - 1)
  {
    forall n | 1 <= n <= |h| - 1 ensures First(lens, n) + Count(lens, n) <= Pow2(n) {
      FirstOfCounts(h, lens, n);
      FirstOfFilled(h, n);
      assert h[..n + 1][..n] == h[..n];
      FilledBound(h, n + 1);
    }
  }
}
