// Numbers as bit strings, lowest bit first: masks, shifts, and counting in opposite bit order.

module BitStrings {
  import opened Arithmetic
  import opened HuffmanLimit
  import opened CanonicalCodes

  // The n low bits of v as a number.
  function KeepLow(v: nat, n: nat): (r: nat)
    ensures r < Pow2(n)
  {
    if n == 0 then 0 else v % 2 + 2 * KeepLow(v / 2, n - 1)
  }

  lemma {:induction false} LowBitsSplit(v: nat, a: nat, b: nat)
    ensures LowBits(v, a + b) == LowBits(v, a) + LowBits(ShiftRight(v, a), b)
    decreases a
  {
    if a > 0 { LowBitsSplit(v / 2, a - 1, b); }
  }

  lemma LowBitsPrefix(v: nat, m: nat, n: nat)
    requires m <= n
    ensures LowBits(v, n)[..m] == LowBits(v, m)
  {
    LowBitsSplit(v, m, n - m);
  }

  lemma {:induction false} KeptBits(v: nat, m: nat, n: nat)
    requires m <= n
    ensures LowBits(KeepLow(v, n), m) == LowBits(v, m)
    decreases m
  {
    if m > 0 { KeptBits(v / 2, m - 1, n - 1); }
  }

  lemma {:induction false} SameBits(v: nat, w: nat, n: nat)
    requires LowBits(v, n) == LowBits(w, n) && v < Pow2(n) && w < Pow2(n)
    ensures v == w
  {
    if n > 0 {
      assert LowBits(v, n)[0] == LowBits(w, n)[0];
      assert LowBits(v, n)[1..] == LowBits(v / 2, n - 1) && LowBits(w, n)[1..] == LowBits(w / 2, n - 1);
      SameBits(v / 2, w / 2, n - 1);
    }
  }

  lemma SameKept(v: nat, w: nat, n: nat)
    ensures KeepLow(v, n) == KeepLow(w, n) <==> LowBits(v, n) == LowBits(w, n)
  {
    KeptBits(v, n, n);
    KeptBits(w, n, n);
    if LowBits(v, n) == LowBits(w, n) { SameBits(KeepLow(v, n), KeepLow(w, n), n); }
  }

  lemma SmallKept(v: nat, n: nat)
    requires v < Pow2(n)
    ensures KeepLow(v, n) == v
  {
    KeptBits(v, n, n);
    SameBits(KeepLow(v, n), v, n);
  }

  lemma {:induction false} ValueInjective(a: seq<Bit>, b: seq<Bit>)
    requires |a| == |b| && Value(a) == Value(b)
    ensures a == b
    decreases |a|
  {
    if a != [] {
      var n := |a| - 1;
      ValueInjective(a[..n], b[..n]);
      assert a == a[..n] + [a[n]] && b == b[..n] + [b[n]];
    }
  }

  lemma {:induction false} ShiftedSmall(v: nat, a: nat, b: nat)
    requires v < Pow2(a + b)
    ensures ShiftRight(v, a) < Pow2(b)
    decreases a
  {
    if a > 0 { ShiftedSmall(v / 2, a - 1, b); }
  }

  // ---------- Numbers with the same low bits ----------

  lemma {:induction false} NextWithSameBits(x: nat, n: nat)
    ensures LowBits(x + Pow2(n), n) == LowBits(x, n)
  {
    if n > 0 {
      assert (x + Pow2(n)) / 2 == x / 2 + Pow2(n - 1) && (x + Pow2(n)) % 2 == x % 2;
      NextWithSameBits(x / 2, n - 1);
    }
  }

  lemma {:induction false} SameBitsApart(x: nat, y: nat, n: nat)
    requires x < y && LowBits(x, n) == LowBits(y, n)
    ensures y - x >= Pow2(n)
  {
    if n > 0 {
      assert LowBits(x, n)[0] == LowBits(y, n)[0];
      assert LowBits(x, n)[1..] == LowBits(x / 2, n - 1) && LowBits(y, n)[1..] == LowBits(y / 2, n - 1);
      SameBitsApart(x / 2, y / 2, n - 1);
    }
  }

  // ---------- Zeros behind, and counting up ----------

  function Same(b: Bit, n: nat): (s: seq<Bit>)
    ensures |s| == n
  {
    if n == 0 then [] else Same(b, n - 1) + [b]
  }

  lemma {:induction false} ZeroBits(n: nat)
    ensures LowBits(0, n) == Same(0, n)
  {
    if n > 0 {
      ZeroBits(n - 1);
      SameFront(0, n - 1);
    }
  }

  lemma {:induction false} SameFront(b: Bit, n: nat)
    ensures [b] + Same(b, n) == Same(b, n + 1)
  {
    if n > 0 {
      SameFront(b, n - 1);
      assert [b] + Same(b, n) == [b] + Same(b, n - 1) + [b];
    }
  }

  lemma {:induction false} ShiftedOut(v: nat, n: nat)
    requires v < Pow2(n)
    ensures ShiftRight(v, n) == 0
  {
    if n > 0 { ShiftedOut(v / 2, n - 1); }
  }

  lemma Widened(v: nat, n: nat, m: nat)
    requires v < Pow2(n)
    ensures LowBits(v, n + m) == LowBits(v, n) + Same(0, m)
  {
    LowBitsSplit(v, n, m);
    ShiftedOut(v, n);
    ZeroBits(m);
  }

  lemma {:induction false} ValueShifted(s: seq<Bit>, m: nat)
    ensures Value(s + Same(0, m)) == Shift(Value(s), m)
  {
    if m == 0 {
      assert s + [] == s;
    } else {
      assert (s + Same(0, m))[..|s| + m - 1] == s + Same(0, m - 1);
      ValueShifted(s, m - 1);
    }
  }

  // A carry through m ones.
  lemma {:induction false} Carry(s: seq<Bit>, m: nat)
    ensures Value(s + [0] + Same(1, m)) + 1 == Value(s + [1] + Same(0, m))
  {
    if m == 0 {
      assert s + [0] + [] == s + [0] && s + [1] + [] == s + [1];
      assert (s + [0])[..|s|] == s && (s + [1])[..|s|] == s;
    } else {
      assert (s + [0] + Same(1, m))[..|s| + m] == s + [0] + Same(1, m - 1);
      assert (s + [1] + Same(0, m))[..|s| + m] == s + [1] + Same(0, m - 1);
      Carry(s, m - 1);
    }
  }

  lemma {:induction false} BitSet(a: nat, e: nat, m: nat)
    requires a < Pow2(e)
    ensures LowBits(a + Pow2(e), e + 1 + m) == LowBits(a, e) + [1] + Same(0, m)
    decreases e
  {
    if e == 0 {
      ZeroBits(m);
      assert LowBits(1, 1 + m) == [1] + LowBits(0, m);
    } else {
      assert (a + Pow2(e)) / 2 == a / 2 + Pow2(e - 1) && (a + Pow2(e)) % 2 == a % 2;
      BitSet(a / 2, e - 1, m);
    }
  }

  lemma {:induction false} BitAt(v: nat, e: nat, n: nat)
    requires e < n
    ensures LowBits(v, n)[e] == ShiftRight(v, e) % 2
    decreases e
  {
    if e > 0 { BitAt(v / 2, e - 1, n - 1); }
  }

  predicate BitIsSet(v: nat, e: nat) {
    ShiftRight(v, e) % 2 == 1
  }

  // Bits from to n - 1 of h are ones.
  ghost predicate Ones(h: nat, n: nat, from: nat) {
    from <= n && LowBits(h, n)[from..] == Same(1, n - from)
  }

  // The next code, in opposite bit order: clear the ones at the end, set the zero before them.
  lemma NextReversed(h: nat, n: nat, e: nat)
    requires e < n && !BitIsSet(h, e) && Ones(h, n, e + 1)
    ensures KeepLow(h, e) + Pow2(e) < Pow2(n)
    ensures Value(LowBits(KeepLow(h, e) + Pow2(e), n)) == Value(LowBits(h, n)) + 1
  {
    hide *;
    var m := n - e - 1;
    BitsAround(h, n, e);
    BitSet(KeepLow(h, e), e, m);
    KeptBits(h, e, e);
    assert e + 1 + m == n;
    Carry(LowBits(h, e), m);
    SetBound(KeepLow(h, e), e, n);
  }

  lemma SetBound(a: nat, e: nat, n: nat)
    requires a < Pow2(e) && e < n
    ensures a + Pow2(e) < Pow2(n)
  {
    Pow2Mono(e + 1, n);
  }

  lemma BitsAround(h: nat, n: nat, e: nat)
    requires e < n && !BitIsSet(h, e) && Ones(h, n, e + 1)
    ensures LowBits(h, n) == LowBits(h, e) + [0] + Same(1, n - e - 1)
  {
    hide LowBits, Same;
    BitAt(h, e, n);
    LowBitsPrefix(h, e, n);
    assert LowBits(h, n) == LowBits(h, n)[..e] + [LowBits(h, n)[e]] + LowBits(h, n)[e + 1..];
  }

  lemma OnesGrow(h: nat, n: nat, e: nat)
    requires e < n && BitIsSet(h, e) && Ones(h, n, e + 1)
    ensures Ones(h, n, e)
  {
    BitAt(h, e, n);
    SameFront(1, n - e - 1);
    assert LowBits(h, n)[e..] == [LowBits(h, n)[e]] + LowBits(h, n)[e + 1..];
  }

  lemma NoOnes(h: nat, n: nat)
    ensures Ones(h, n, n)
  {
  }

  lemma AllOnes(h: nat, n: nat)
    requires Ones(h, n, 0)
    ensures Value(LowBits(h, n)) + 1 == Pow2(n)
  {
    assert LowBits(h, n)[0..] == LowBits(h, n);
    ValueOfOnes(n);
  }

  // The bit `incr` moves down from the last of the code to the first that is zero.
  method NextHuff(huff: nat, len: nat) returns (next: nat)
    requires len > 0 && huff < Pow2(len)
    ensures next < Pow2(len)
    ensures Value(LowBits(huff, len)) + 1 < Pow2(len) ==> Value(LowBits(next, len)) == Value(LowBits(huff, len)) + 1
  {
    hide *;
    NoOnes(huff, len);
    var above := len;   // incr is the bit below this position, if there is one
    while above > 0 && BitIsSet(huff, above - 1)
      invariant 0 <= above <= len && Ones(huff, len, above)
    {
      OnesGrow(huff, len, above - 1);
      above := above - 1;
    }
    if above > 0 {
      NextReversed(huff, len, above - 1);
      next := KeepLow(huff, above - 1) + Pow2(above - 1);
    } else {
      next := 0;
      AllOnes(huff, len);
    }
  }

  lemma {:induction false} ValueOfOnes(n: nat)
    ensures Value(Same(1, n)) + 1 == Pow2(n)
  {
    if n > 0 {
      ValueOfOnes(n - 1);
      assert Same(1, n)[..n - 1] == Same(1, n - 1);
    }
  }
}
