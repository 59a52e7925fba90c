// A code the comparator has no room for: a complete code of 265 symbols, 258 of them of 9 bits, and
// the bits of a symbol that are read as another one.

module CrowdedCode {
  import opened Arithmetic
  import opened HuffmanOptimality
  import opened HuffmanLimit
  import opened HuffmanAssign
  import opened CanonicalCodes
  import opened HuffmanCodec
  import opened DeflateTrees

  // How many codes there are of each length: one each of 2 to 8 bits and 258 of 9 bits.
  function Crowd(n: nat): (h: seq<nat>)
    requires n <= 10
    ensures |h| == n && forall k :: 0 <= k < n ==> h[k] == if k < 2 then 0 else if k < 9 then 1 else 258
  {
    if n == 0 then [] else Crowd(n - 1) + [if n - 1 < 2 then 0 else if n - 1 < 9 then 1 else 258]
  }

  lemma {:induction false} CrowdFills(n: nat)
    requires n <= 10
    ensures Filled(Crowd(n)) == if n <= 2 then 0 else if n == 10 then 512 else Pow2(n - 2) - 1
    ensures Sum(Crowd(n)) == if n <= 2 then 0 else if n == 10 then 265 else n - 2
  {
    if n > 0 {
      CrowdFills(n - 1);
      assert Crowd(n)[..n - 1] == Crowd(n - 1);
      SumAppend(Crowd(n - 1), Crowd(n)[n - 1]);
      assert Crowd(n) == Crowd(n - 1) + [Crowd(n)[n - 1]];
      assert Pow2(7) == 128 && Pow2(3) == 8;
    }
  }

  // Such a code is complete, its 265 symbols fit the literal alphabet, and two of them share an entry.
  lemma Crowded()
    ensures var lens := ListDown(Crowd(10));
            && |lens| == 265 && Kraft(lens, 9) == Pow2(9)
            && Feasible(lens, MAX_LEN) && !Indexable(lens) && !OwnSlots(lens)
  {
    var h := Crowd(10);
    var lens := ListDown(h);
    CrowdFills(10);
    assert Pow2(5) == 32;
    assert Pow2(9) == 512;
    ListDownLength(h);
    ListDownKraft(h, 9);
    ListDownDescending(h);
    hide Filled, Crowd, ListDown, Pow2, Kraft, Sum, OwnSlots, Descending;
    if lens != [] { DescendingFromHead(lens); }
    CrowdCounted(h);
    TreeLengthsFeasible(h, lens);
    FeasibleToo(lens, 9, MAX_LEN);
    IndexableExactly(lens);
  }

  lemma CrowdStarts()
    ensures var lens := ListDown(Crowd(10)); |lens| == 265 && First(lens, 9) == 254
  {
    hide *;
    Crowded();
    var h := Crowd(10);
    var lens := ListDown(h);
    CrowdFills(9);
    CrowdCounted(h);
    FirstOfCounts(h, lens, 9);
    FirstOfFilled(h, 9);
    CrowdFront();
    SevenBits();
  }

  lemma CrowdCounted(h: seq<nat>)
    requires |h| == 10
    ensures forall x :: 1 <= x < 10 ==> h[x] == Count(ListDown(h), x)
  {
    hide ListDown, Count;
    forall x | 1 <= x < 10 ensures h[x] == Count(ListDown(h), x) { ListDownCount(h, x); }
  }

  lemma SevenBits()
    ensures Pow2(7) == 128
  {
    assert Pow2(3) == 8;
  }

  // The 9-bit codes start at 254 with symbol 0, and symbol 256 comes 256 codes later.
  lemma CrowdedFirst()
    ensures var lens := ListDown(Crowd(10));
            && |lens| == 265 && (forall k :: 0 <= k < 265 ==> (lens[k] == 9 <==> k < 258))
            && (forall k :: 0 <= k < 258 ==> Code(lens, k) == 254 + k)
  {
    var lens, less := ListDown(Crowd(10)), ListDown(Crowd(9));
    CrowdStarts();
    CrowdFront();
    hide Crowd, ListDown, First, Count;
    NineBitsFirst(Crowd(10), lens, less);
    forall k | 0 <= k < 258 ensures Code(lens, k) == 254 + k {
      RankInRun(lens, less, k);
      CodeIs(lens, k);
    }
  }

  lemma CodeIs(lens: seq<nat>, k: nat)
    requires k < |lens|
    ensures Code(lens, k) == First(lens, lens[k]) + Count(lens[..k], lens[k])
  {
  }

  lemma RankInRun(lens: seq<nat>, less: seq<nat>, k: nat)
    requires lens == Run(258, 9) + less && k < 258
    ensures Count(lens[..k], 9) == k
  {
    hide Run, Count;
    assert lens[..k] == Run(258, 9)[..k];
    RunAt(258, 9, k);
  }

  lemma {:induction false} RunAt(n: nat, x: nat, k: nat)
    requires k <= n
    ensures Count(Run(n, x)[..k], x) == k && forall i :: 0 <= i < n ==> Run(n, x)[i] == x
  {
    if k > 0 {
      assert Run(n, x)[..k][1..] == Run(n - 1, x)[..k - 1];
      RunAt(n - 1, x, k - 1);
    } else if n > 0 {
      RunAt(n - 1, x, 0);
    }
  }

  lemma CrowdFront()
    ensures Crowd(10)[9] == 258 && Crowd(10)[..9] == Crowd(9)
  {
  }

  lemma NineBitsFirst(h: seq<nat>, lens: seq<nat>, less: seq<nat>)
    requires |h| == 10 && h[9] == 258 && lens == ListDown(h) && less == ListDown(h[..9]) && |lens| == 265
    ensures lens == Run(258, 9) + less && forall k :: 0 <= k < 265 ==> (lens[k] == 9 <==> k < 258)
  {
    ListDownDescending(h[..9]);
    RunAt(258, 9, 0);
    hide Run, Descending;
    if less != [] { DescendingFromHead(less); }
  }

  // So every stream that starts with the code of symbol 0 is read as symbol 256.
  lemma CrowdedReadAs()
    ensures |ListDown(Crowd(10))| == 265 && ReadAs(ListDown(Crowd(10)), 0) == 256
  {
    CrowdedFirst();
    hide ListDown, Crowd, Code, LastIn, ReadAs;
    var lens := ListDown(Crowd(10));
    LastAtLeast(lens, 265, 256);
    ReadAsIs(lens, 0);
    SlotsOfTwo();
    var r := ReadAs(lens, 0);
    assert lens[r] == 9 && Code(lens, r) == 254 + r;
    assert r == 256 || r == 257;
  }

  lemma SlotsOfTwo()
    ensures 254 % SLOTS == 254 == 510 % SLOTS && 511 % SLOTS == 255
  {
  }

  // The bits 0 1111 1110 and whatever follows, which the encoder sends for symbol 0.
  method MisreadStream(rest: seq<Bit>) returns (currentBits: nat, symbol: nat)
    requires |rest| >= 6
    ensures StartsWith([0, 1, 1, 1, 1, 1, 1, 1, 0] + rest, ListDown(Crowd(10)), 0)
    ensures currentBits == 9 && symbol == 256
  {
    Crowded();
    CrowdedFirst();
    CrowdedReadAs();
    var lens := ListDown(Crowd(10));
    var s := [0, 1, 1, 1, 1, 1, 1, 1, 0] + rest;
    SymbolZero(lens, rest);
    hide *;
    FifteenBits();
    var codeOffsets, tables := BuildComparator(lens);
    BoundedBy15(lens);
    currentBits, symbol := Compare(s, 15, codeOffsets, tables, lens);
  }

  lemma FifteenBits()
    ensures MAX_LEN == 15
  {
  }

  lemma BoundedBy15(lens: seq<nat>)
    requires Feasible(lens, MAX_LEN)
    ensures AtMost(lens, 15)
  {
  }

  lemma SymbolZero(lens: seq<nat>, rest: seq<Bit>)
    requires |lens| > 0 && lens[0] == 9 && Code(lens, 0) == 254
    ensures StartsWith([0, 1, 1, 1, 1, 1, 1, 1, 0] + rest, lens, 0)
  {
    hide Code;
    var b: seq<Bit> := [0, 1, 1, 1, 1, 1, 1, 1, 0];
    assert (b + rest)[..9] == b;
    ValueOf254();
  }

  lemma ValueOf254()
    ensures Value([0, 1, 1, 1, 1, 1, 1, 1, 0]) == 254
  {
    hide Value;
    NoValue();
    var v: seq<Bit>, n: nat := [0], 0;
    ValueNext([], 0);
    assert [] + [0] == v;
    while n < 7
      invariant n <= 7 && |v| == n + 1 && v[0] == 0 && (forall i :: 1 <= i <= n ==> v[i] == 1)
      invariant Value(v) + 1 == if n == 0 then 1 else if n == 1 then 2 else if n == 2 then 4 else if n == 3 then 8
                                else if n == 4 then 16 else if n == 5 then 32 else if n == 6 then 64 else 128
    {
      ValueNext(v, 1);
      v, n := v + [1], n + 1;
    }
    ValueNext(v, 0);
    assert v + [0] == [0, 1, 1, 1, 1, 1, 1, 1, 0];
  }

  lemma NoValue()
    ensures Value([]) == 0
  {
  }

  lemma ValueNext(s: seq<Bit>, b: Bit)
    ensures Value(s + [b]) == 2 * Value(s) + b
  {
    assert (s + [b])[..|s|] == s;
  }
}
