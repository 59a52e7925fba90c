// From the frequencies of a block to its codes: encoder and decoder agree on them, every symbol that
// occurs has one, and which blocks the comparator's tables read right.

module DeflateTrees {
  import opened Arithmetic
  import opened HuffmanOptimality
  import opened HuffmanTree
  import opened HuffmanLengths
  import opened CanonicalCodes
  import opened HuffmanCodec
  import opened HuffmanConstruct
  import opened DeflateBlock
  import opened DeflateEncode
  import opened DeflateRoundTrip

  // The lengths, as the decoder is told them.
  function LengthsSent(codes: seq<Codeword>): (l: seq<nat>)
    ensures |l| == |codes| && forall k :: 0 <= k < |l| ==> l[k] == codes[k].bitlength
  {
    seq(|codes|, k requires 0 <= k < |codes| => codes[k].bitlength)
  }

  // Codes that encoder and decoder agree on.
  ghost predicate Agreed(codes: seq<Codeword>) {
    CodeTable(LengthsSent(codes), codes, |codes|) && Feasible(LengthsSent(codes), MAX_LEN)
  }

  // Beyond the depth of a tree no codes are left, but there is room.
  lemma {:induction false} RoomBelow(lens: seq<nat>, d: nat, n: nat)
    requires Feasible(lens, d) && 1 <= d <= n
    ensures First(lens, n) + Count(lens, n) <= Pow2(n)
  {
    if n > d {
      RoomBelow(lens, d, n - 1);
      CountBeyond(lens, d, n);
      hide Count, Feasible;
    }
  }

  lemma FeasibleToo(lens: seq<nat>, d: nat, e: nat)
    requires Feasible(lens, d) && AtMost(lens, e) && 1 <= d
    ensures Feasible(lens, e)
  {
    forall n | 1 <= n <= e ensures First(lens, n) + Count(lens, n) <= Pow2(n) {
      if n > d { RoomBelow(lens, d, n); }
    }
  }

  // Without any symbol, the first one gets a code of length 1.
  lemma {:induction false} LoneCount(lens: seq<nat>, n: nat)
    requires lens != [] && lens[0] == 1 && (forall k :: 1 <= k < |lens| ==> lens[k] == 0) && n >= 1
    ensures Count(lens, n) == if n == 1 then 1 else 0
  {
    ZerosCount(lens[1..], n);
  }

  lemma {:induction false} ZerosCount(s: seq<nat>, n: nat)
    requires n >= 1 && forall k :: 0 <= k < |s| ==> s[k] == 0
    ensures Count(s, n) == 0
  {
    if s != [] { ZerosCount(s[1..], n); }
  }

  lemma {:induction false} LoneFirst(lens: seq<nat>, n: nat)
    requires lens != [] && lens[0] == 1 && (forall k :: 1 <= k < |lens| ==> lens[k] == 0) && n >= 1
    ensures First(lens, n) + Count(lens, n) <= Pow2(n)
    ensures n == 1 ==> First(lens, n) == 0
  {
    LoneCount(lens, n);
    if n > 1 { LoneFirst(lens, n - 1); }
  }

  lemma LoneAgreed(codes: seq<Codeword>)
    requires codes != [] && forall k :: 0 <= k < |codes| ==> codes[k] == Codeword(0, if k == 0 then 1 else 0)
    ensures Agreed(codes)
  {
    var lens := LengthsSent(codes);
    forall n | 1 <= n <= MAX_LEN ensures First(lens, n) + Count(lens, n) <= Pow2(n) { LoneFirst(lens, n); }
    LoneFirst(lens, 1);
    assert lens[..0] == [];
    assert Code(lens, 0) == 0 && Pow2(1) == 2;
    assert Reverse(0, 1) == 0;
  }

  // What the construction gives can be decoded.
  lemma ConstructedAgreed(freqs: seq<nat>, sorted: seq<Symbol>, lens: seq<nat>, codes: seq<Codeword>, h: seq<nat>, m: nat)
    requires Constructed(freqs, sorted, lens, codes, h, m) && m <= MAX_LEN && freqs != []
    ensures |codes| == |freqs| && Agreed(codes)
    ensures sorted != [] ==> LengthsSent(codes) == lens
  {
    hide Prepared, Optimal, Kraft;
    if sorted == [] {
      LoneAgreed(codes);
    } else {
      SameLengths(lens, codes);
      GoodIsFeasible(sorted, lens, h, m);
    }
  }

  lemma SameLengths(lens: seq<nat>, codes: seq<Codeword>)
    requires |lens| == |codes| && CodeTable(lens, codes, |codes|)
    ensures LengthsSent(codes) == lens
  {
    hide Code, Pow2, Reverse;
  }

  lemma GoodIsFeasible(sorted: seq<Symbol>, lens: seq<nat>, h: seq<nat>, m: nat)
    requires GoodLengths(sorted, lens, h, m) && sorted != [] && m <= MAX_LEN
    ensures Feasible(lens, MAX_LEN)
  {
    var v := sorted[0].value;
    assert 1 <= lens[v] <= |h| - 1;
    FeasibleToo(lens, |h| - 1, MAX_LEN);
  }

  // ---------- Symbols with codes ----------

  lemma OccurringHasCode(freqs: seq<nat>, sorted: seq<Symbol>, lens: seq<nat>, codes: seq<Codeword>, h: seq<nat>, m: nat, v: nat)
    requires Constructed(freqs, sorted, lens, codes, h, m) && m <= MAX_LEN && v < |freqs| && Effective(freqs, v) != 0
    ensures HasCode(LengthsSent(codes), v)
  {
    var i := IsSorted(freqs, sorted, v);
    assert sorted != [];
    ConstructedAgreed(freqs, sorted, lens, codes, h, m);
    LongEnough(freqs, sorted, lens, codes, h, m, i);
    hide Constructed, Code, Effective;
    AgreedHasCode(codes, v);
  }

  lemma IsSorted(freqs: seq<nat>, sorted: seq<Symbol>, v: nat) returns (i: nat)
    requires Prepared(freqs, sorted) && v < |freqs| && Effective(freqs, v) != 0
    ensures i < |sorted| && sorted[i].value == v
  {
    hide Effective, Occurring, DistinctSymbols, Ascending, AtLeast, Sum, Total, Weights;
    i :| 0 <= i < |sorted| && sorted[i].value == v;
  }

  lemma LongEnough(freqs: seq<nat>, sorted: seq<Symbol>, lens: seq<nat>, codes: seq<Codeword>, h: seq<nat>, m: nat, i: nat)
    requires Constructed(freqs, sorted, lens, codes, h, m) && i < |sorted|
    ensures sorted[i].value < |lens| && lens[sorted[i].value] >= 1
  {
    hide Prepared, Optimal, Kraft, CodeTable, Counts, Feasible;
  }

  lemma AgreedHasCode(codes: seq<Codeword>, v: nat)
    requires Agreed(codes) && v < |codes| && LengthsSent(codes)[v] >= 1
    ensures HasCode(LengthsSent(codes), v)
  {
    CodeBounds(LengthsSent(codes), v, MAX_LEN);
  }

  // A symbol with a code occurs, so of each length there are no more codes than symbols.
  lemma {:induction false} NoMoreCodes(freqs: seq<nat>, lens: seq<nat>, n: nat, x: nat)
    requires |lens| == |freqs| && n <= |lens| && x >= 1
    requires forall v :: 0 <= v < |lens| && lens[v] > 0 ==> Effective(freqs, v) != 0
    ensures Count(lens[..n], x) <= |Occurring(freqs, n)|
  {
    if n > 0 {
      NoMoreCodes(freqs, lens, n - 1, x);
      CountNext(lens, n - 1);
      hide Effective, Count;
    } else {
      assert lens[..0] == [];
    }
  }

  lemma CodedOccurs(freqs: seq<nat>, sorted: seq<Symbol>, lens: seq<nat>, codes: seq<Codeword>, h: seq<nat>, m: nat)
    requires Constructed(freqs, sorted, lens, codes, h, m) && sorted != []
    ensures |lens| == |freqs| && forall v :: 0 <= v < |lens| && lens[v] > 0 ==> Effective(freqs, v) != 0
  {
    PreparedOccurs(freqs, sorted);
    OnlySorted(freqs, sorted, lens, codes, h, m);
    hide Constructed, Effective;
  }

  lemma PreparedOccurs(freqs: seq<nat>, sorted: seq<Symbol>)
    requires Prepared(freqs, sorted)
    ensures forall i :: 0 <= i < |sorted| ==> sorted[i].value < |freqs| && Effective(freqs, sorted[i].value) != 0
  {
    hide Effective, Occurring, DistinctSymbols, Sum, Total;
    forall i | 0 <= i < |sorted| ensures sorted[i].value < |freqs| && Effective(freqs, sorted[i].value) != 0 {
      assert Weights(sorted)[i] >= 1;
    }
  }

  lemma OnlySorted(freqs: seq<nat>, sorted: seq<Symbol>, lens: seq<nat>, codes: seq<Codeword>, h: seq<nat>, m: nat)
    requires Constructed(freqs, sorted, lens, codes, h, m) && sorted != []
    ensures |lens| == |freqs|
    ensures forall v :: 0 <= v < |lens| && lens[v] > 0 ==> exists i :: 0 <= i < |sorted| && sorted[i].value == v
  {
    hide Prepared, Optimal, Kraft, CodeTable, Counts, Feasible;
  }

  // With 256 symbols or fewer in use, the comparator's tables have room.
  lemma FewIndexable(freqs: seq<nat>, sorted: seq<Symbol>, lens: seq<nat>, codes: seq<Codeword>, h: seq<nat>, m: nat)
    requires Constructed(freqs, sorted, lens, codes, h, m) && m <= MAX_LEN && freqs != [] && |Occurring(freqs, |freqs|)| <= 256
    ensures Indexable(LengthsSent(codes))
  {
    ConstructedAgreed(freqs, sorted, lens, codes, h, m);
    forall n | 9 <= n <= MAX_LEN ensures Count(LengthsSent(codes), n) <= SLOTS {
      if sorted == [] {
        EmptyCodes(freqs, sorted, lens, codes, h, m);
        LoneCount(LengthsSent(codes), n);
      } else {
        CodedOccurs(freqs, sorted, lens, codes, h, m);
        NoMoreCodes(freqs, lens, |lens|, n);
        assert lens[..|lens|] == lens;
      }
    }
    hide Constructed, Count, Feasible, Occurring;
  }

  lemma EmptyCodes(freqs: seq<nat>, sorted: seq<Symbol>, lens: seq<nat>, codes: seq<Codeword>, h: seq<nat>, m: nat)
    requires Constructed(freqs, sorted, lens, codes, h, m) && sorted == [] && freqs != []
    ensures |codes| == |freqs| && LengthsSent(codes)[0] == 1 && forall k :: 1 <= k < |codes| ==> LengthsSent(codes)[k] == 0
  {
    hide Prepared;
  }

  // ---------- Which blocks are read right ----------

  // The symbol is one of the last 256 of its length, so no later one has overwritten it.
  predicate OneOfLast(lens: seq<nat>, k: nat) {
    k < |lens| && Count(lens[k..], lens[k]) <= SLOTS
  }

  // That holds of every literal, length and end symbol of the block.
  ghost predicate Roomy(lens: seq<nat>, parts: seq<Part>) {
    forall i :: 0 <= i < |parts| && (parts[i].Lit? || parts[i].Len? || parts[i].End?) ==> OneOfLast(lens, SymbolOf(parts[i]))
  }

  lemma PartReads(c: Codes, p: Part)
    requires Sendable(c, p) && |c.dist| <= SLOTS
    ensures ReadsPart(c, p) <==> (p.Lit? || p.Len? || p.End? ==> OneOfLast(c.lit, SymbolOf(p)))
  {
    hide ReadAs, Count, Code, Pow2;
    if p.Dist? {
      FewReadRight(c.dist, p.d);
    } else if p.Lit? || p.Len? || p.End? {
      ReadRight(c.lit, SymbolOf(p));
    }
  }

  lemma RoomyExactly(c: Codes, parts: seq<Part>)
    requires AllSendable(c, parts) && |c.dist| <= SLOTS
    ensures ReadsAll(c, parts, |parts|) <==> Roomy(c.lit, parts)
  {
    hide Sendable, ReadsPart, OneOfLast;
    forall i | 0 <= i < |parts|
      ensures ReadsPart(c, parts[i]) <==> (parts[i].Lit? || parts[i].Len? || parts[i].End? ==> OneOfLast(c.lit, SymbolOf(parts[i])))
    {
      PartReads(c, parts[i]);
    }
  }

  // With room for all codes there is room for the block.
  lemma IndexableIsRoomy(c: Codes, parts: seq<Part>)
    requires AllSendable(c, parts) && Indexable(c.lit)
    ensures Roomy(c.lit, parts)
  {
    hide Count, Code, Pow2;
    ReadsExactly(c.lit);
    forall i | 0 <= i < |parts| && (parts[i].Lit? || parts[i].Len? || parts[i].End?) ensures OneOfLast(c.lit, SymbolOf(parts[i])) {
      assert Sendable(c, parts[i]);
      ReadRight(c.lit, SymbolOf(parts[i]));
    }
  }

  // ---------- From frequencies to codes ----------

  // The frequencies have counted every symbol of the block.
  ghost predicate CountedIn(litFreqs: seq<nat>, distFreqs: seq<nat>, u: LookUps, t: Item)
    requires u.Sound() && Valid(t) && |litFreqs| == 286 && |distFreqs| == 30
  {
    if t.len == 0 then litFreqs[t.ch] > 0
    else LengthFits(u.LengthCode(t.len), t.len) && DistFits(u.DistCode(t.offset), t.offset)
         && litFreqs[257 + u.LengthCode(t.len)] > 0 && distFreqs[u.DistCode(t.offset)] > 0
  }

  ghost predicate AllCounted(litFreqs: seq<nat>, distFreqs: seq<nat>, u: LookUps, tokens: seq<Item>)
    requires u.Sound() && AllValid(tokens) && |litFreqs| == 286 && |distFreqs| == 30
  {
    forall i :: 0 <= i < |tokens| ==> CountedIn(litFreqs, distFreqs, u, tokens[i])
  }

  // Every symbol that occurs has a code.
  ghost predicate CodesFor(freqs: seq<nat>, codes: seq<Codeword>) {
    |codes| == |freqs| && Agreed(codes) && forall v :: 0 <= v < |freqs| && Effective(freqs, v) != 0 ==> HasCode(LengthsSent(codes), v)
  }

  lemma CountedCoded(litFreqs: seq<nat>, distFreqs: seq<nat>, u: LookUps, t: Item, lit: seq<Codeword>, dist: seq<Codeword>)
    requires u.Sound() && Valid(t) && |litFreqs| == 286 && |distFreqs| == 30 && CountedIn(litFreqs, distFreqs, u, t)
    requires CodesFor(litFreqs, lit) && CodesFor(distFreqs, dist)
    ensures Coded(Codes(LengthsSent(lit), LengthsSent(dist)), u, t)
  {
    SoundIsSized(u);
    hide HasCode, Agreed, DeflateEncode.LookUps.Sound, Pow2, LengthBits, DistanceBits;
    if t.len == 0 {
      assert Effective(litFreqs, t.ch) != 0;
    } else {
      assert Effective(litFreqs, 257 + u.LengthCode(t.len)) != 0;
      assert Effective(distFreqs, u.DistCode(t.offset)) != 0;
    }
  }

  lemma AllCountedCoded(litFreqs: seq<nat>, distFreqs: seq<nat>, u: LookUps, tokens: seq<Item>, lit: seq<Codeword>, dist: seq<Codeword>)
    requires u.Sound() && AllValid(tokens) && |litFreqs| == 286 && |distFreqs| == 30 && AllCounted(litFreqs, distFreqs, u, tokens)
    requires CodesFor(litFreqs, lit) && CodesFor(distFreqs, dist)
    ensures AllCoded(Codes(LengthsSent(lit), LengthsSent(dist)), u, tokens)
  {
    hide HasCode, Agreed, Coded, CountedIn, DeflateEncode.LookUps.Sound;
    assert Effective(litFreqs, 256) != 0;
    forall i | 0 <= i < |tokens| ensures Coded(Codes(LengthsSent(lit), LengthsSent(dist)), u, tokens[i]) {
      CountedCoded(litFreqs, distFreqs, u, tokens[i], lit, dist);
    }
  }

  lemma AgreedTrees(lit: seq<Codeword>, dist: seq<Codeword>)
    requires Agreed(lit) && Agreed(dist) && |lit| == 286 && |dist| == 30
    ensures Trees(Codes(LengthsSent(lit), LengthsSent(dist)), lit, dist)
  {
    hide CodeTable, Feasible;
  }

  lemma ConstructedCodes(freqs: seq<nat>, sorted: seq<Symbol>, lens: seq<nat>, codes: seq<Codeword>, h: seq<nat>, m: nat)
    requires Constructed(freqs, sorted, lens, codes, h, m) && m <= MAX_LEN && freqs != []
    ensures CodesFor(freqs, codes)
  {
    ConstructedAgreed(freqs, sorted, lens, codes, h, m);
    forall v | 0 <= v < |freqs| && Effective(freqs, v) != 0 ensures HasCode(LengthsSent(codes), v) {
      OccurringHasCode(freqs, sorted, lens, codes, h, m, v);
    }
    hide Constructed, Agreed, HasCode, Effective;
  }

  // And no other symbol has one.
  ghost predicate OnlyFor(freqs: seq<nat>, codes: seq<Codeword>) {
    |codes| == |freqs| && forall v :: 0 <= v < |freqs| && LengthsSent(codes)[v] > 0 ==> Effective(freqs, v) != 0
  }

  lemma ConstructedOnly(freqs: seq<nat>, sorted: seq<Symbol>, lens: seq<nat>, codes: seq<Codeword>, h: seq<nat>, m: nat)
    requires Constructed(freqs, sorted, lens, codes, h, m) && m <= MAX_LEN && |freqs| > END_OF_BLOCK
    ensures OnlyFor(freqs, codes)
  {
    ConstructedAgreed(freqs, sorted, lens, codes, h, m);
    var i := IsSorted(freqs, sorted, END_OF_BLOCK);
    CodedOccurs(freqs, sorted, lens, codes, h, m);
    hide Constructed, Effective;
  }

  // The last symbol with a code.
  ghost predicate LastCoded(lens: seq<nat>, maxCode: nat) {
    maxCode < |lens| && lens[maxCode] > 0 && forall v :: maxCode < v < |lens| ==> lens[v] == 0
  }

  lemma ConstructedLast(freqs: seq<nat>, sorted: seq<Symbol>, lens: seq<nat>, codes: seq<Codeword>, h: seq<nat>, m: nat, maxCode: nat)
    requires Constructed(freqs, sorted, lens, codes, h, m) && m <= MAX_LEN && freqs != [] && LastInUse(freqs, |freqs|, maxCode)
    ensures LastCoded(LengthsSent(codes), maxCode)
    ensures |freqs| > END_OF_BLOCK ==> maxCode >= END_OF_BLOCK
  {
    ConstructedAgreed(freqs, sorted, lens, codes, h, m);
    if |freqs| > END_OF_BLOCK { assert Effective(freqs, END_OF_BLOCK) != 0; }
    hide Effective;
    if sorted == [] {
      EmptyCodes(freqs, sorted, lens, codes, h, m);
      if maxCode > 0 {
        var i := IsSorted(freqs, sorted, maxCode);
        assert false;
      }
    } else {
      CodedOccurs(freqs, sorted, lens, codes, h, m);
      FirstInUse(freqs, sorted, maxCode);
      OccurringHasCode(freqs, sorted, lens, codes, h, m, maxCode);
      hide Constructed, Code, Pow2;
    }
  }

  // No code is longer than the tree is high, as long as nothing is cut.
  lemma ConstructedDepth(freqs: seq<nat>, sorted: seq<Symbol>, lens: seq<nat>, codes: seq<Codeword>, h: seq<nat>, m: nat)
    requires Constructed(freqs, sorted, lens, codes, h, m) && m <= MAX_LEN && freqs != [] && TreeHeight(Ranked(freqs)) <= m
    ensures AtMost(LengthsSent(codes), Deepest(Ranked(freqs)))
  {
    ConstructedAgreed(freqs, sorted, lens, codes, h, m);
    hide Prepared, Optimal, Kraft, CodeTable, GoodLengths, TreeHeight, Ranked;
  }

  lemma FirstInUse(freqs: seq<nat>, sorted: seq<Symbol>, maxCode: nat)
    requires Prepared(freqs, sorted) && sorted != [] && LastInUse(freqs, |freqs|, maxCode)
    ensures maxCode < |freqs| && Effective(freqs, maxCode) != 0
  {
    PreparedOccurs(freqs, sorted);
    hide Prepared, Effective;
    var v := sorted[0].value;
    assert v < |freqs| && Effective(freqs, v) != 0;
  }

  // The trees for a block of literals and matches.
  method BuildTree(freqs: seq<nat>, size: nat, maxBits: nat, width: nat, junk: nat) returns (codes: seq<Codeword>, maxCode: nat)
    requires 3 <= |freqs| && |freqs| + 2 < HISTOGRAM_WRAP && |freqs| <= Pow2(maxBits)
    requires 1 <= maxBits <= MAX_LEN && maxBits < size
    requires Total(freqs, |freqs|) < Pow2(width) && TreeHeight(Ranked(freqs)) < size
    ensures CodesFor(freqs, codes) && |codes| == |freqs| && LastCoded(LengthsSent(codes), maxCode)
    ensures |freqs| > END_OF_BLOCK ==> OnlyFor(freqs, codes) && maxCode >= END_OF_BLOCK
    ensures |Occurring(freqs, |freqs|)| <= 256 ==> Indexable(LengthsSent(codes))
    ensures TreeHeight(Ranked(freqs)) <= maxBits ==> AtMost(LengthsSent(codes), Deepest(Ranked(freqs)))
  {
    ghost var lens, sorted, hist;
    codes, maxCode, lens, sorted, hist := HuffConstructTree(freqs, size, maxBits, width, junk);
    hide *;
    ConstructedLast(freqs, sorted, lens, codes, hist, maxBits, maxCode);
    ConstructedCodes(freqs, sorted, lens, codes, hist, maxBits);
    if |freqs| > END_OF_BLOCK { ConstructedOnly(freqs, sorted, lens, codes, hist, maxBits); }
    if |Occurring(freqs, |freqs|)| <= 256 { FewIndexable(freqs, sorted, lens, codes, hist, maxBits); }
    if TreeHeight(Ranked(freqs)) <= maxBits { ConstructedDepth(freqs, sorted, lens, codes, hist, maxBits); }
    CodesForLength(freqs, codes);
  }

  lemma CodesForLength(freqs: seq<nat>, codes: seq<Codeword>)
    requires CodesFor(freqs, codes)
    ensures |codes| == |freqs| && Agreed(codes)
  {
    hide Agreed, HasCode;
  }

  lemma Sizable()
    ensures 286 <= Pow2(15) && 15 <= MAX_LEN && 288 < HISTOGRAM_WRAP && END_OF_BLOCK == 256 && SLOTS == 256
  {
    Pow2Mono(9, 15);
    assert Pow2(5) == 32;
    assert Pow2(9) == 512;
  }
}
