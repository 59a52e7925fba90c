// The encoder's code table and the comparator decoder's tables, each built from the code lengths
// alone, and their agreement.

module HuffmanCodec {
  import opened Arithmetic
  import opened CanonicalCodes

  const MAX_LEN := 15
  const WRAP := 32768   // registers for codes have 15 bits

  datatype Codeword = Codeword(codeword: nat, bitlength: nat)

  // ---------- createCodeword ----------

  // Where the next code of each length stands after the first k symbols.
  ghost predicate NextCodes(next: seq<nat>, h: seq<nat>, lens: seq<nat>, k: nat, maxBits: nat) {
    && |next| == MAX_LEN + 1 && maxBits < |h| && maxBits <= MAX_LEN && k <= |lens|
    && forall x :: 1 <= x <= maxBits ==> next[x] == (FirstOf(h, x) + Count(lens[..k], x)) % WRAP
  }

  lemma NextCodesStep(next: seq<nat>, h: seq<nat>, lens: seq<nat>, k: nat, maxBits: nat)
    requires NextCodes(next, h, lens, k, maxBits) && k < |lens| && lens[k] <= maxBits
    ensures NextCodes(next[lens[k] := (next[lens[k]] + 1) % WRAP], h, lens, k + 1, maxBits)
  {
    hide FirstOf;
    var n := lens[k];
    assert lens[..k + 1] == lens[..k] + [n];
    forall x | 1 <= x <= maxBits
      ensures next[n := (next[n] + 1) % WRAP][x] == (FirstOf(h, x) + Count(lens[..k + 1], x)) % WRAP
    {
      CountConcat(lens[..k], [n], x);
      CountOfOne(n, x);
    }
  }

  lemma CountOfOne(n: nat, x: nat)
    ensures Count([n], x) == if n == x then 1 else 0
  {
    assert [n][1..] == [];
  }

  lemma NextIsCode(next: seq<nat>, h: seq<nat>, lens: seq<nat>, k: nat, maxBits: nat)
    requires NextCodes(next, h, lens, k, maxBits) && k < |lens| && 1 <= lens[k] <= maxBits
    requires Counts(h, lens) && Feasible(lens, |h| - 1)
    ensures next[lens[k]] == Code(lens, k) < Pow2(lens[k])
  {
    hide FirstOf;
    CodeBounds(lens, k, |h| - 1);
    FirstAgrees(h, lens, k, lens[k]);
    Pow2Mono(lens[k], MAX_LEN);
    Pow2Of15();
  }

  lemma Pow2Of15()
    ensures Pow2(MAX_LEN) == WRAP
  {
    assert Pow2(5) == 32;
    assert Pow2(10) == 1024;
    assert Pow2(15) == 32768;
  }

  // What the encoder is given for a symbol.
  ghost function CodewordOf(lens: seq<nat>, k: nat): Codeword
    requires k < |lens|
    requires lens[k] > 0 ==> Code(lens, k) < Pow2(lens[k])
  {
    if lens[k] == 0 then Codeword(0, 0) else Codeword(Reverse(Code(lens, k), lens[k]), lens[k])
  }

  ghost predicate CodeTable(lens: seq<nat>, codes: seq<Codeword>, n: nat) {
    && n <= |lens| && n <= |codes|
    && forall k :: 0 <= k < n ==>
         (lens[k] > 0 ==> Code(lens, k) < Pow2(lens[k])) && codes[k] == CodewordOf(lens, k)
  }

  method FirstCodewords(hist: seq<nat>, maxBits: nat) returns (first: array<nat>)
    requires maxBits < |hist| && maxBits <= MAX_LEN
    ensures fresh(first) && first.Length == MAX_LEN + 1
    ensures NextCodes(first[..], hist, [], 0, maxBits)
    ensures forall x :: 0 <= x <= maxBits ==> first[x] < WRAP
  {
    first := new nat[MAX_LEN + 1];
    first[0] := 0;
    var i := 1;
    while i <= maxBits
      invariant 1 <= i <= maxBits + 1
      invariant forall x :: 0 <= x < i ==> first[x] == FirstOf(hist, x) % WRAP
    {
      FirstDoubles(hist, i, first[i - 1]);
      first[i] := ((first[i - 1] + hist[i - 1]) * 2) % WRAP;
      i := i + 1;
    }
  }

  lemma FirstDoubles(h: seq<nat>, i: nat, f: nat)
    requires 1 <= i <= |h| && f == FirstOf(h, i - 1) % WRAP
    ensures ((f + h[i - 1]) * 2) % WRAP == FirstOf(h, i) % WRAP
  {
  }

  // The code of the next symbol, of the length given, and the step to the code behind it.
  method NextCodeword(firstCodeword: array<nat>, bitLength: nat, symCnt: nat, k: nat) returns (code: Codeword)
    requires bitLength <= MAX_LEN && firstCodeword.Length == MAX_LEN + 1 && firstCodeword[bitLength] < WRAP
    modifies firstCodeword
    ensures symCnt == 0 ==> code == Codeword(0, if k == 0 then 1 else 0)
    ensures symCnt != 0 ==> code == Codeword(if bitLength == 0 then 0 else OutReversed(old(firstCodeword[bitLength]), bitLength), bitLength)
    ensures symCnt != 0 ==> firstCodeword[..] == old(firstCodeword[..])[bitLength := (old(firstCodeword[bitLength]) + 1) % WRAP]
    ensures forall x :: 0 <= x <= MAX_LEN && old(firstCodeword[x]) < WRAP ==> firstCodeword[x] < WRAP
  {
    hide OutReversed;
    var codeword := OutReversed(firstCodeword[bitLength], bitLength);
    codeword := if bitLength == 0 || symCnt == 0 then 0 else codeword;
    var length := if symCnt == 0 then 0 else bitLength;
    code := Codeword(codeword, if symCnt == 0 && k == 0 then 1 else length);
    firstCodeword[length] := (firstCodeword[length] + 1) % WRAP;
  }

  // The codes of all symbols; with no symbol at all, symbol 0 gets an empty code of length 1.
  // The lengths are cleared for the next block.
  method CreateCodeword(bits: array<nat>, hist: seq<nat>, symSize: nat, maxBits: nat, symCnt: nat)
    returns (codes: seq<Codeword>)
    requires bits.Length == symSize && maxBits < |hist| && maxBits <= MAX_LEN
    requires AtMost(bits[..], maxBits)
    requires symCnt != 0 ==> Counts(hist, bits[..]) && Feasible(bits[..], |hist| - 1)
    modifies bits
    ensures |codes| == symSize
    ensures symCnt != 0 ==> CodeTable(old(bits[..]), codes, symSize)
    ensures symCnt == 0 ==> forall k :: 0 <= k < symSize ==> codes[k] == Codeword(0, if k == 0 then 1 else 0)
    ensures forall k :: 0 <= k < symSize ==> bits[k] == 0
  {
    ghost var lens := bits[..];
    var firstCodeword := FirstCodewords(hist, maxBits);
    codes := [];
    var k: nat := 0;
    NextCodesStart(firstCodeword[..], hist, lens, maxBits);
    TableStart(lens);
    Moduli();
    hide *;
    while k < symSize
      invariant 0 <= k <= symSize == |lens| && |codes| == k
      invariant bits[k..] == lens[k..]
      invariant symCnt != 0 ==> NextCodes(firstCodeword[..], hist, lens, k, maxBits)
      invariant symCnt != 0 ==> CodeTable(lens, codes, k)
      invariant symCnt == 0 ==> NoCodes(codes)
      invariant forall j :: 0 <= j < k ==> bits[j] == 0
      invariant forall x :: 0 <= x <= maxBits ==> firstCodeword[x] < WRAP
    {
      assert bits[k] == bits[k..][0] == lens[k];
      LengthIs(lens, k, maxBits);
      ghost var codes0, first := codes, firstCodeword[..];
      var code := NextCodeword(firstCodeword, bits[k], symCnt, k);
      codes := codes + [code];
      assert codes[..k] == codes0;
      NoCodesStep(codes0);
      if symCnt != 0 { CodeTableStep(first, hist, lens, codes, k, maxBits); }
      bits[k] := 0;
      k := k + 1;
    }
    NoCodesAre(codes);
  }

  // What is sent when no symbol occurs.
  ghost predicate NoCodes(codes: seq<Codeword>) {
    forall j :: 0 <= j < |codes| ==> codes[j] == Codeword(0, if j == 0 then 1 else 0)
  }

  lemma NoCodesStep(codes: seq<Codeword>)
    ensures NoCodes([])
    ensures NoCodes(codes) ==> NoCodes(codes + [Codeword(0, if |codes| == 0 then 1 else 0)])
  {
  }

  lemma NoCodesAre(codes: seq<Codeword>)
    ensures NoCodes(codes) ==> forall j :: 0 <= j < |codes| ==> codes[j] == Codeword(0, if j == 0 then 1 else 0)
  {
  }

  lemma TableStart(lens: seq<nat>)
    ensures CodeTable(lens, [], 0) && NoCodes([])
  {
  }

  lemma LengthIs(lens: seq<nat>, k: nat, maxBits: nat)
    requires AtMost(lens, maxBits) && k < |lens|
    ensures lens[k] <= maxBits
  {
  }

  // The register reversed, then shifted down to the length of the code.
  function OutReversed(code: nat, length: nat): nat
    requires code < WRAP && length <= MAX_LEN
  {
    Pow2Of15();
    ShiftRight(Reverse(code, MAX_LEN), MAX_LEN - length)
  }

  lemma NextCodesStart(next: seq<nat>, h: seq<nat>, lens: seq<nat>, maxBits: nat)
    requires NextCodes(next, h, [], 0, maxBits)
    ensures NextCodes(next, h, lens, 0, maxBits)
  {
    assert lens[..0] == [];
  }

  lemma CodeTableStep(next: seq<nat>, h: seq<nat>, lens: seq<nat>, codes: seq<Codeword>, k: nat, maxBits: nat)
    requires NextCodes(next, h, lens, k, maxBits) && k < |lens| && lens[k] <= maxBits
    requires Counts(h, lens) && Feasible(lens, |h| - 1)
    requires |codes| == k + 1 && CodeTable(lens, codes[..k], k) && next[lens[k]] < WRAP
    requires codes[k] == Codeword(if lens[k] == 0 then 0 else OutReversed(next[lens[k]], lens[k]), lens[k])
    ensures CodeTable(lens, codes, k + 1)
    ensures NextCodes(next[lens[k] := (next[lens[k]] + 1) % WRAP], h, lens, k + 1, maxBits)
  {
    NextCodesStep(next, h, lens, k, maxBits);
    if lens[k] > 0 {
      NextIsCode(next, h, lens, k, maxBits);
      Pow2Of15();
      ReverseWide(Code(lens, k), lens[k], MAX_LEN);
    }
  }

  // What the encoder sends for a symbol starts every stream it starts.
  lemma SentCodeStarts(lens: seq<nat>, codes: seq<Codeword>, k: nat, d: nat, rest: seq<Bit>)
    requires CodeTable(lens, codes, |lens|) && Feasible(lens, d) && k < |lens| && lens[k] > 0
    ensures StartsWith(LowBits(codes[k].codeword, codes[k].bitlength) + rest, lens, k)
  {
    CodeBitsStart(lens, k, d, rest);
  }

  // ---------- code_generator_array_dyn_new ----------

  const SLOTS := 256   // every table of codes of one length has at most 256 entries

  // Codes of more than 8 bits are told apart by their low 8 bits, so there may be 256 of a length.
  predicate Indexable(lens: seq<nat>) {
    Feasible(lens, MAX_LEN) && forall n :: 9 <= n <= MAX_LEN ==> Count(lens, n) <= SLOTS
  }

  // The symbol filed last, of the first k, in a slot of the table for codes of n bits; -1 if none is.
  ghost function LastIn(lens: seq<nat>, k: nat, n: nat, slot: nat): (r: int)
    requires k <= |lens|
    ensures -1 <= r < k && (r >= 0 ==> lens[r] == n && Code(lens, r) % SLOTS == slot)
  {
    if k == 0 then -1
    else if lens[k - 1] == n && Code(lens, k - 1) % SLOTS == slot then k - 1
    else LastIn(lens, k - 1, n, slot)
  }

  // The tables after the first k symbols: a later symbol has overwritten an earlier one in its slot.
  ghost predicate Filed(lens: seq<nat>, k: nat, tables: array2<nat>)
    reads tables
  {
    && k <= |lens| && AtMost(lens, MAX_LEN) && tables.Length0 == MAX_LEN + 1 && tables.Length1 == SLOTS
    && forall n, slot :: 1 <= n <= MAX_LEN && 0 <= slot < SLOTS && LastIn(lens, k, n, slot) >= 0
         ==> tables[n, slot] == LastIn(lens, k, n, slot)
  }

  lemma {:induction false} LastAtLeast(lens: seq<nat>, m: nat, j: nat)
    requires j < m <= |lens|
    ensures LastIn(lens, m, lens[j], Code(lens, j) % SLOTS) >= j
  {
    hide Code;
    if j < m - 1 { LastAtLeast(lens, m - 1, j); }
  }

  // What the tables hold where the code of symbol k points.
  ghost function ReadAs(lens: seq<nat>, k: nat): (r: nat)
    requires k < |lens|
    ensures k <= r < |lens| && lens[r] == lens[k] && Code(lens, r) % SLOTS == Code(lens, k) % SLOTS
  {
    LastAtLeast(lens, |lens|, k);
    LastIn(lens, |lens|, lens[k], Code(lens, k) % SLOTS)
  }

  lemma CodesApart(lens: seq<nat>, j: nat, k: nat)
    requires Indexable(lens) && j < k < |lens| && lens[j] == lens[k] > 0
    ensures Code(lens, j) % SLOTS != Code(lens, k) % SLOTS
  {
    CodeBounds(lens, j, MAX_LEN);
    CodeBounds(lens, k, MAX_LEN);
    RankGrows(lens, j, k);
    ShortTable(lens[k]);
    hide First, Pow2;
    ModApart(Code(lens, j), Code(lens, k));
  }

  lemma ShortTable(n: nat)
    ensures n <= 8 ==> Pow2(n) <= SLOTS
  {
    assert Pow2(4) == 16;
    assert Pow2(8) == 256;
    if n <= 8 { Pow2Mono(n, 8); }
  }

  lemma ModApart(a: nat, b: nat)
    requires a < b < a + SLOTS
    ensures a % SLOTS != b % SLOTS
  {
  }

  lemma {:induction false} SymbolOfRank(lens: seq<nat>, n: nat, r: nat) returns (k: nat)
    requires r < Count(lens, n)
    ensures k < |lens| && lens[k] == n && Count(lens[..k], n) == r
    decreases |lens|
  {
    var m := |lens| - 1;
    assert lens == lens[..m] + [lens[m]];
    CountConcat(lens[..m], [lens[m]], n);
    CountOfOne(lens[m], n);
    if r < Count(lens[..m], n) {
      k := SymbolOfRank(lens[..m], n, r);
      assert lens[..m][..k] == lens[..k];
    } else {
      k := m;
    }
  }

  // With more codes of one length than a table has entries, two of them share an entry.
  lemma CodesCollide(lens: seq<nat>, n: nat) returns (j: nat, k: nat)
    requires Count(lens, n) > SLOTS
    ensures j < |lens| && k < |lens| && j != k && lens[j] == lens[k] == n
    ensures Code(lens, j) % SLOTS == Code(lens, k) % SLOTS
  {
    j := SymbolOfRank(lens, n, 0);
    k := SymbolOfRank(lens, n, SLOTS);
    hide First, Count;
    assert Code(lens, k) == Code(lens, j) + SLOTS;
  }

  // Every code has a table entry of its own.
  ghost predicate OwnSlots(lens: seq<nat>) {
    forall j, k :: 0 <= j < k < |lens| && lens[j] == lens[k] > 0 ==> Code(lens, j) % SLOTS != Code(lens, k) % SLOTS
  }

  // Room in the tables is just what keeps the codes apart.
  lemma IndexableExactly(lens: seq<nat>)
    requires Feasible(lens, MAX_LEN)
    ensures Indexable(lens) <==> OwnSlots(lens)
  {
    hide Feasible, Code, Count, First;
    if Indexable(lens) {
      forall j, k | 0 <= j < k < |lens| && lens[j] == lens[k] > 0 ensures Code(lens, j) % SLOTS != Code(lens, k) % SLOTS {
        CodesApart(lens, j, k);
      }
    }
    if OwnSlots(lens) {
      forall n | 9 <= n <= MAX_LEN ensures Count(lens, n) <= SLOTS {
        if Count(lens, n) > SLOTS {
          var j, k := CodesCollide(lens, n);
          assert false;
        }
      }
    }
  }

  lemma CountFrom(lens: seq<nat>, k: nat, n: nat)
    requires k <= |lens|
    ensures Count(lens, n) == Count(lens[..k], n) + Count(lens[k..], n)
  {
    assert lens == lens[..k] + lens[k..];
    CountConcat(lens[..k], lens[k..], n);
  }

  // A symbol is read right exactly if it is one of the last 256 of its length.
  lemma ReadRight(lens: seq<nat>, k: nat)
    requires k < |lens| && lens[k] > 0
    ensures ReadAs(lens, k) == k <==> Count(lens[k..], lens[k]) <= SLOTS
  {
    var n, r := lens[k], ReadAs(lens, k);
    CountFrom(lens, k, n);
    hide First, Count, ReadAs;
    if r > k {
      RankGrows(lens, k, r);
      CountSplit(lens, r);
      ApartBySlots(Code(lens, k), Code(lens, r));
    } else if Count(lens[k..], n) > SLOTS {
      var j := SymbolOfRank(lens, n, Count(lens[..k], n) + SLOTS);
      SameSlot(Code(lens, k));
      if j < k {
        RankGrows(lens, j, k);
        assert false;
      }
      LastAtLeast(lens, |lens|, j);
      ReadAsIs(lens, k);
      assert false;
    }
  }

  lemma ReadAsIs(lens: seq<nat>, k: nat)
    requires k < |lens|
    ensures ReadAs(lens, k) == LastIn(lens, |lens|, lens[k], Code(lens, k) % SLOTS)
  {
  }

  lemma ApartBySlots(a: nat, b: nat)
    requires a < b && a % SLOTS == b % SLOTS
    ensures b >= a + SLOTS
  {
  }

  lemma SameSlot(a: nat)
    ensures (a + SLOTS) % SLOTS == a % SLOTS
  {
  }

  // Every symbol with a code is read right exactly if no length above 8 has more than 256 codes.
  lemma ReadsExactly(lens: seq<nat>)
    requires Feasible(lens, MAX_LEN)
    ensures Indexable(lens) <==> forall k :: 0 <= k < |lens| && lens[k] > 0 ==> ReadAs(lens, k) == k
  {
    hide ReadAs, First, Count;
    if Indexable(lens) {
      forall k | 0 <= k < |lens| && lens[k] > 0 ensures ReadAs(lens, k) == k {
        ReadRight(lens, k);
        CountFrom(lens, k, lens[k]);
        ShortTable(lens[k]);
      }
    }
    if forall k :: 0 <= k < |lens| && lens[k] > 0 ==> ReadAs(lens, k) == k {
      forall n | 9 <= n <= MAX_LEN ensures Count(lens, n) <= SLOTS {
        if Count(lens, n) > SLOTS {
          var k := SymbolOfRank(lens, n, 0);
          CountFrom(lens, k, n);
          ReadRight(lens, k);
          assert false;
        }
      }
    }
  }

  // With at most 256 symbols all are read right.
  lemma FewReadRight(lens: seq<nat>, k: nat)
    requires k < |lens| <= SLOTS && lens[k] > 0
    ensures ReadAs(lens, k) == k
  {
    ReadRight(lens, k);
    CountAtMost(lens[k..], lens[k]);
  }

  ghost predicate NextFree(first: seq<nat>, lens: seq<nat>, k: nat) {
    && |first| == MAX_LEN && k <= |lens|
    && forall x :: 1 <= x <= MAX_LEN ==> first[x - 1] == (First(lens, x) + Count(lens[..k], x)) % WRAP
  }

  lemma NextFreeIsCode(first: seq<nat>, lens: seq<nat>, k: nat)
    requires NextFree(first, lens, k) && k < |lens| && 1 <= lens[k] <= MAX_LEN
    requires Feasible(lens, MAX_LEN)
    ensures first[lens[k] - 1] == Code(lens, k)
  {
    hide First;
    CodeFits(lens, k);
    var n := lens[k];
    assert first[n - 1] == (First(lens, n) + Count(lens[..k], n)) % WRAP;
  }

  lemma CodeFits(lens: seq<nat>, k: nat)
    requires k < |lens| && lens[k] >= 1 && Feasible(lens, MAX_LEN)
    ensures Code(lens, k) < WRAP
  {
    CodeBounds(lens, k, MAX_LEN);
    Pow2Mono(lens[k], MAX_LEN);
    Pow2Of15();
  }

  lemma NextFreeStep(first: seq<nat>, lens: seq<nat>, k: nat)
    requires NextFree(first, lens, k) && k < |lens| && 1 <= lens[k] <= MAX_LEN
    ensures NextFree(first[lens[k] - 1 := (first[lens[k] - 1] + 1) % WRAP], lens, k + 1)
  {
    hide First;
    var n := lens[k];
    assert lens[..k + 1] == lens[..k] + [n];
    forall x | 1 <= x <= MAX_LEN
      ensures first[n - 1 := (first[n - 1] + 1) % WRAP][x - 1] == (First(lens, x) + Count(lens[..k + 1], x)) % WRAP
    {
      CountConcat(lens[..k], [n], x);
      CountOfOne(n, x);
    }
  }

  lemma NextFreeSkip(first: seq<nat>, lens: seq<nat>, k: nat)
    requires NextFree(first, lens, k) && k < |lens| && lens[k] == 0
    ensures NextFree(first, lens, k + 1)
  {
    hide First;
    assert lens[..k + 1] == lens[..k] + [0];
    forall x | 1 <= x <= MAX_LEN ensures Count(lens[..k + 1], x) == Count(lens[..k], x) {
      CountConcat(lens[..k], [0], x);
      CountOfOne(0, x);
    }
  }

  method CountLengths(lens: seq<nat>) returns (count: array<nat>)
    requires AtMost(lens, MAX_LEN)
    ensures fresh(count) && count.Length == MAX_LEN + 1
    ensures count[0] == 0 && forall x :: 1 <= x <= MAX_LEN ==> count[x] == Count(lens, x)
  {
    count := new nat[MAX_LEN + 1](_ => 0);
    var i := 0;
    while i < |lens|
      invariant 0 <= i <= |lens|
      invariant forall x :: 0 <= x <= MAX_LEN ==> count[x] == Count(lens[..i], x)
    {
      var val := lens[i];
      CountNext(lens, i);
      count[val] := count[val] + 1;
      i := i + 1;
    }
    assert lens[..|lens|] == lens;
    count[0] := 0;
  }

  lemma CountNext(lens: seq<nat>, i: nat)
    requires i < |lens|
    ensures forall x :: Count(lens[..i + 1], x) == Count(lens[..i], x) + if x == lens[i] then 1 else 0
  {
    assert lens[..i + 1] == lens[..i] + [lens[i]];
    forall x: nat ensures Count(lens[..i + 1], x) == Count(lens[..i], x) + if x == lens[i] then 1 else 0 {
      CountConcat(lens[..i], [lens[i]], x);
      CountOfOne(lens[i], x);
    }
  }

  ghost predicate Offsets(lens: seq<nat>, offsets: seq<nat>, n: nat) {
    n <= MAX_LEN == |offsets| && forall x :: 1 <= x <= n ==> offsets[x - 1] == First(lens, x)
  }

  method FirstCodes(lens: seq<nat>) returns (codeOffsets: array<nat>, firstCode: array<nat>)
    requires Feasible(lens, MAX_LEN)
    ensures fresh(codeOffsets) && fresh(firstCode) && codeOffsets != firstCode
    ensures Offsets(lens, codeOffsets[..], MAX_LEN) && NextFree(firstCode[..], lens, 0)
  {
    hide First;
    var count := CountLengths(lens);
    hide Feasible;
    codeOffsets := new nat[MAX_LEN];
    firstCode := new nat[MAX_LEN];
    var code := 0;
    var i := 1;
    FirstOfZero(lens);
    while i <= MAX_LEN
      invariant 1 <= i <= MAX_LEN + 1 && code == First(lens, i - 1)
      invariant count[0] == 0 && forall x :: 1 <= x <= MAX_LEN ==> count[x] == Count(lens, x)
      invariant Offsets(lens, codeOffsets[..], i - 1)
      invariant forall x :: 1 <= x < i ==> firstCode[x - 1] == First(lens, x) % WRAP
    {
      FirstNext(lens, i, count[i - 1]);
      code := ((code + count[i - 1]) * 2) % (2 * WRAP);
      codeOffsets[i - 1] := code;
      firstCode[i - 1] := code % WRAP;
      i := i + 1;
    }
    assert lens[..0] == [];
  }

  lemma FirstOfZero(lens: seq<nat>)
    ensures First(lens, 0) == 0
  {
  }

  lemma FirstNext(lens: seq<nat>, i: nat, c: nat)
    requires Feasible(lens, MAX_LEN) && 1 <= i <= MAX_LEN
    requires c == if i == 1 then 0 else Count(lens, i - 1)
    ensures ((First(lens, i - 1) + c) * 2) % (2 * WRAP) == First(lens, i)
  {
    FirstFits(lens, i);
    FirstStep(lens, i, c);
    hide First, Count, Feasible;
  }

  lemma FirstStep(lens: seq<nat>, i: nat, c: nat)
    requires 1 <= i && c == if i == 1 then 0 else Count(lens, i - 1)
    ensures (First(lens, i - 1) + c) * 2 == First(lens, i)
  {
    hide Count;
  }

  // The next symbol goes to its slot, whatever was there.
  method File(tables: array2<nat>, lens: seq<nat>, k: nat, slot: nat)
    requires Filed(lens, k, tables) && k < |lens| && lens[k] > 0 && slot == Code(lens, k) % SLOTS
    modifies tables
    ensures Filed(lens, k + 1, tables)
  {
    hide Code;
    tables[lens[k], slot] := k;
  }

  lemma LengthKnown(lens: seq<nat>, k: nat, first: seq<nat>)
    requires Feasible(lens, MAX_LEN) && NextFree(first, lens, k) && k < |lens|
    ensures |first| == MAX_LEN && lens[k] <= MAX_LEN
  {
    hide First, Count;
  }

  lemma NothingFiled(lens: seq<nat>, tables: array2<nat>)
    requires Feasible(lens, MAX_LEN) && tables.Length0 == MAX_LEN + 1 && tables.Length1 == SLOTS
    ensures Filed(lens, 0, tables)
  {
    hide First, Count;
  }

  lemma Moduli()
    ensures WRAP > 0 && SLOTS > 0 && MAX_LEN == 15
  {
  }

  lemma FiledSkip(tables: array2<nat>, lens: seq<nat>, k: nat)
    requires Filed(lens, k, tables) && k < |lens| && lens[k] == 0
    ensures Filed(lens, k + 1, tables)
  {
    hide Code;
  }

  // One symbol of the list of lengths.
  method FileNext(tables: array2<nat>, firstCode: array<nat>, lens: seq<nat>, k: nat)
    requires Feasible(lens, MAX_LEN) && k < |lens| && NextFree(firstCode[..], lens, k) && Filed(lens, k, tables)
    modifies tables, firstCode
    ensures NextFree(firstCode[..], lens, k + 1) && Filed(lens, k + 1, tables)
  {
    hide *;
    Moduli();
    var blen := lens[k];
    LengthKnown(lens, k, firstCode[..]);
    if blen != 0 {
      NextFreeIsCode(firstCode[..], lens, k);
      NextFreeStep(firstCode[..], lens, k);
      File(tables, lens, k, firstCode[blen - 1] % SLOTS);
      firstCode[blen - 1] := (firstCode[blen - 1] + 1) % WRAP;
    } else {
      NextFreeSkip(firstCode[..], lens, k);
      FiledSkip(tables, lens, k);
    }
  }

  // The tables for every list of lengths that leaves room for its codes.
  method BuildComparator(lens: seq<nat>) returns (codeOffsets: array<nat>, tables: array2<nat>)
    requires Feasible(lens, MAX_LEN)
    ensures Offsets(lens, codeOffsets[..], MAX_LEN) && Filed(lens, |lens|, tables)
  {
    hide *;
    Moduli();
    var firstCode: array<nat>;
    codeOffsets, firstCode := FirstCodes(lens);
    tables := new nat[MAX_LEN + 1, SLOTS];
    NothingFiled(lens, tables);
    ghost var offsets := codeOffsets[..];
    var k := 0;
    while k < |lens|
      invariant 0 <= k <= |lens|
      invariant codeOffsets[..] == offsets
      invariant NextFree(firstCode[..], lens, k) && Filed(lens, k, tables)
    {
      FileNext(tables, firstCode, lens, k);
      k := k + 1;
    }
  }

  lemma FirstFits(lens: seq<nat>, i: nat)
    requires Feasible(lens, MAX_LEN) && 1 <= i <= MAX_LEN
    ensures First(lens, i) <= WRAP
  {
    Pow2Mono(i, MAX_LEN);
    Pow2Of15();
  }

  // ---------- The comparator decoder ----------

  // Where the comparisons of a stream's first bits with the first codes turn around.
  lemma ComparisonsTurn(lens: seq<nat>, s: seq<Bit>, k: nat, d: nat, n: nat)
    requires Feasible(lens, MAX_LEN) && AtMost(lens, d) && d <= |s| && d <= MAX_LEN
    requires k < |lens| && lens[k] > 0 && StartsWith(s, lens, k)
    requires lens[k] <= n <= d
    ensures (Value(s[..n]) >= First(lens, n)) <==> n == lens[k]
  {
    CodeBounds(lens, k, MAX_LEN);
    if n > lens[k] { StaysBelow(lens, s, lens[k], n); }
  }

  // The longest length whose first code does not exceed the bits read is the length of the code,
  // and the table of that length holds the symbol last filed there, whatever bits follow. On any
  // other stream it finds some length.
  method Compare(s: seq<Bit>, d: nat, codeOffsets: array<nat>, tables: array2<nat>, ghost lens: seq<nat>)
    returns (currentBits: nat, symbol: nat)
    requires Feasible(lens, MAX_LEN) && AtMost(lens, d) && 1 <= d <= MAX_LEN && d <= |s|
    requires Offsets(lens, codeOffsets[..], MAX_LEN) && Filed(lens, |lens|, tables)
    ensures forall k :: 0 <= k < |lens| && lens[k] > 0 && StartsWith(s, lens, k) ==> currentBits == lens[k] && symbol == ReadAs(lens, k)
    ensures 1 <= currentBits <= d
  {
    hide Feasible, First, Value, Code, ReadAs;
    FirstOfOne(lens);
    currentBits := 0;
    var i := 1;
    while i <= d
      invariant 1 <= i <= d + 1 && currentBits < i && (i > 1 ==> currentBits > 0)
      invariant forall k :: 0 <= k < |lens| && 0 < lens[k] < i && StartsWith(s, lens, k) ==> currentBits == lens[k]
    {
      forall k | 0 <= k < |lens| && 0 < lens[k] <= i && StartsWith(s, lens, k)
        ensures (Value(s[..i]) >= First(lens, i)) <==> i == lens[k]
      {
        ComparisonsTurn(lens, s, k, d, i);
      }
      if Value(s[..i]) >= codeOffsets[..][i - 1] { currentBits := i; }
      i := i + 1;
    }
    symbol := tables[currentBits, Value(s[..currentBits]) % SLOTS];
    forall k | 0 <= k < |lens| && lens[k] > 0 && StartsWith(s, lens, k) ensures symbol == ReadAs(lens, k) {
      ReadAsIs(lens, k);
    }
  }

  lemma FirstOfOne(lens: seq<nat>)
    ensures First(lens, 1) == 0
  {
  }
}
