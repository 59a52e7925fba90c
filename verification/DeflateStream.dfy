// A whole block in one bit stream: trees from frequencies, codes from trees, header and body as bits,
// and one bit buffer from which the decoder reads the lengths first and then, with the tables built
// from them, the block.

module DeflateStream {
  import opened Arithmetic
  import opened HuffmanTree
  import opened CanonicalCodes
  import opened HuffmanCodec
  import opened HuffmanConstruct
  import opened LzCore
  import opened BitReading
  import opened DeflateBlock
  import opened DeflateEncode
  import opened DeflateRoundTrip
  import opened DeflateTrees
  import opened CodeLengthWay
  import opened DeflateHeader

  // ---------- Lists cut behind the last code ----------

  lemma ZerosBehind(lens: seq<nat>, m: nat, x: nat)
    requires m <= |lens| && x >= 1 && forall v :: m <= v < |lens| ==> lens[v] == 0
    ensures Count(lens[..m], x) == Count(lens, x)
  {
    assert lens == lens[..m] + lens[m..];
    CountConcat(lens[..m], lens[m..], x);
    ZerosCount(lens[m..], x);
  }

  lemma {:induction false} SameFirst(a: seq<nat>, b: seq<nat>, n: nat)
    requires forall x :: x >= 1 ==> Count(a, x) == Count(b, x)
    ensures First(a, n) == First(b, n)
  {
    if n >= 2 { SameFirst(a, b, n - 1); }
  }

  // Cutting off zeros changes no code.
  lemma CutCodes(lens: seq<nat>, m: nat)
    requires m <= |lens| && forall v :: m <= v < |lens| ==> lens[v] == 0
    ensures forall n :: First(lens[..m], n) == First(lens, n)
    ensures forall k :: 0 <= k < m && lens[k] > 0 ==> Code(lens[..m], k) == Code(lens, k)
    ensures Feasible(lens, MAX_LEN) ==> Feasible(lens[..m], MAX_LEN)
  {
    var cut := lens[..m];
    forall x | x >= 1 ensures Count(cut, x) == Count(lens, x) { ZerosBehind(lens, m, x); }
    forall n ensures First(cut, n) == First(lens, n) { if n >= 0 { SameFirst(cut, lens, n); } }
    forall k | 0 <= k < m && lens[k] > 0 ensures Code(cut, k) == Code(lens, k) {
      assert cut[..k] == lens[..k];
    }
    if Feasible(lens, MAX_LEN) {
      assert AtMost(cut, MAX_LEN);
      forall n | 1 <= n <= MAX_LEN ensures First(cut, n) + Count(cut, n) <= Pow2(n) {
        assert First(lens, n) + Count(lens, n) <= Pow2(n);
      }
    }
  }

  lemma {:induction false} CutLast(lens: seq<nat>, m: nat, k: nat, n: nat, slot: nat)
    requires m <= |lens| && k <= |lens| && n >= 1 && forall v :: m <= v < |lens| ==> lens[v] == 0
    requires forall j :: 0 <= j < m && lens[j] > 0 ==> Code(lens[..m], j) == Code(lens, j)
    ensures LastIn(lens[..m], if k < m then k else m, n, slot) == LastIn(lens, k, n, slot)
  {
    hide Code;
    if k > 0 { CutLast(lens, m, k - 1, n, slot); }
  }

  // The tables built from the list that was sent serve the whole code.
  lemma CutServes(lens: seq<nat>, m: nat, codeOffsets: array<nat>, tables: array2<nat>)
    requires m <= |lens| && Feasible(lens, MAX_LEN) && forall v :: m <= v < |lens| ==> lens[v] == 0
    requires Offsets(lens[..m], codeOffsets[..], MAX_LEN) && Filed(lens[..m], m, tables)
    ensures Served(lens, codeOffsets, tables)
  {
    CutCodes(lens, m);
    hide Code, First, LastIn;
    forall n, slot | 1 <= n <= MAX_LEN && 0 <= slot < SLOTS && LastIn(lens, |lens|, n, slot) >= 0
      ensures tables[n, slot] == LastIn(lens, |lens|, n, slot)
    {
      CutLast(lens, m, |lens|, n, slot);
      assert LastIn(lens[..m], m, n, slot) >= 0;
    }
  }

  // ---------- The codes of a block ----------

  // The codes of a block, the last symbols in use, and the code for the lengths.
  datatype BlockCodes = BlockCodes(lit: seq<Codeword>, maxLit: nat, dist: seq<Codeword>, maxDist: nat, bl: seq<Codeword>)
  {
    ghost predicate Valid() {
      && |lit| == 286 && Agreed(lit) && LastCoded(LengthsSent(lit), maxLit) && maxLit >= 256
      && |dist| == 30 && Agreed(dist) && LastCoded(LengthsSent(dist), maxDist)
      && |bl| == 19 && Agreed(bl) && AtMost(LengthsSent(bl), 7)
    }

    function LitLens(): seq<nat> {
      LengthsSent(lit)
    }

    function DistLens(): seq<nat> {
      LengthsSent(dist)
    }

    // The lengths that are sent.
    function LitSent(): seq<nat> {
      if maxLit < |lit| then LengthsSent(lit)[..maxLit + 1] else []
    }

    function DistSent(): seq<nat> {
      if maxDist < |dist| then LengthsSent(dist)[..maxDist + 1] else []
    }
  }

  lemma CutSendable(codes: seq<Codeword>, maxCode: nat)
    requires Agreed(codes) && LastCoded(LengthsSent(codes), maxCode)
    ensures maxCode < |codes| && CodeLengthWay.Sendable(LengthsSent(codes)[..maxCode + 1])
  {
    hide CodeTable, First;
  }

  lemma SentLists(b: BlockCodes)
    requires b.Valid()
    ensures CodeLengthWay.Sendable(b.LitSent()) && 257 <= |b.LitSent()| <= 286
    ensures CodeLengthWay.Sendable(b.DistSent()) && |b.DistSent()| <= 30
    ensures |b.bl| == 19 && Agreed(b.bl) && AtMost(LengthsSent(b.bl), 7)
  {
    hide Agreed, CodeLengthWay.Sendable;
    CutSendable(b.lit, b.maxLit);
    CutSendable(b.dist, b.maxDist);
  }

  // The header can be sent exactly if what the counting pass loses is counted elsewhere.
  ghost predicate Headable(b: BlockCodes) {
    AllHaveCodes(SentTokens(b.LitSent(), b.DistSent()), LengthsSent(b.bl)) <==> LengthsKept(b.LitSent(), b.DistSent())
  }

  // Both trees, and the one for their lengths.
  method BuildBlock(litFreqs: seq<nat>, distFreqs: seq<nat>, size: nat, width: nat, junk: nat) returns (b: BlockCodes)
    requires |litFreqs| == 286 && |distFreqs| == 30 && 15 < size && width >= 9
    requires Total(litFreqs, 286) < Pow2(width) && TreeHeight(Ranked(litFreqs)) < size
    requires Total(distFreqs, 30) < Pow2(width) && TreeHeight(Ranked(distFreqs)) < size
    ensures b.Valid() && Headable(b) && CodesFor(litFreqs, b.lit) && OnlyFor(litFreqs, b.lit) && CodesFor(distFreqs, b.dist)
    ensures |Occurring(litFreqs, 286)| <= 256 ==> Indexable(b.LitLens())
    ensures TreeHeight(Ranked(litFreqs)) < 15 && TreeHeight(Ranked(distFreqs)) < 15 ==> LengthsKept(b.LitSent(), b.DistSent())
  {
    Sizable();
    hide *;
    var lit, maxLit := BuildTree(litFreqs, size, 15, width, junk);
    var dist, maxDist := BuildTree(distFreqs, size, 15, width, junk);
    CodesForLength(litFreqs, lit);
    CodesForLength(distFreqs, dist);
    CutSendable(lit, maxLit);
    CutSendable(dist, maxDist);
    var bl := LengthTree(LengthsSent(lit)[..maxLit + 1], LengthsSent(dist)[..maxDist + 1], width, junk);
    b := BlockCodes(lit, maxLit, dist, maxDist, bl);
    ValidFrom(b);
    if TreeHeight(Ranked(litFreqs)) < 15 && TreeHeight(Ranked(distFreqs)) < 15 {
      DeepestIs(Ranked(litFreqs));
      DeepestIs(Ranked(distFreqs));
      ShortKept(lit, maxLit, dist, maxDist, Deepest(Ranked(litFreqs)), Deepest(Ranked(distFreqs)));
    }
  }

  lemma DeepestIs(w: seq<nat>)
    ensures TreeHeight(w) < 15 ==> Deepest(w) < 15
  {
    hide TreeHeight;
  }

  // Without a length of 15 the counting pass loses nothing.
  lemma ShortKept(lit: seq<Codeword>, maxLit: nat, dist: seq<Codeword>, maxDist: nat, d: nat, e: nat)
    requires maxLit < |lit| && AtMost(LengthsSent(lit), d) && d < 15 && maxDist < |dist| && AtMost(LengthsSent(dist), e) && e < 15
    ensures LengthsKept(LengthsSent(lit)[..maxLit + 1], LengthsSent(dist)[..maxDist + 1])
  {
    hide CountedTokens;
  }

  lemma ValidFrom(b: BlockCodes)
    requires |b.lit| == 286 && Agreed(b.lit) && LastCoded(LengthsSent(b.lit), b.maxLit) && 256 <= b.maxLit < 286
    requires |b.dist| == 30 && Agreed(b.dist) && LastCoded(LengthsSent(b.dist), b.maxDist) && b.maxDist < 30
    requires |b.bl| == LENGTH_SYMBOLS && Agreed(b.bl) && AtMost(LengthsSent(b.bl), LENGTH_BITS)
    ensures b.Valid() && b.LitLens() == LengthsSent(b.lit)
    ensures b.LitSent() == LengthsSent(b.lit)[..b.maxLit + 1] && b.DistSent() == LengthsSent(b.dist)[..b.maxDist + 1]
    ensures Headable(b) <==>
      (AllHaveCodes(SentTokens(b.LitSent(), b.DistSent()), LengthsSent(b.bl)) <==> LengthsKept(b.LitSent(), b.DistSent()))
  {
    hide Agreed, LastCoded, AllHaveCodes, LengthsKept, SentTokens;
  }

  // ---------- There and back ----------

  // One bit stream: from the header the lengths come back, and with the tables built from them the
  // decoder hands out the words of the block exactly if its literal tables have room for the symbols
  // the block uses.
  method BlockThereAndBack(u: LookUps, tokens: seq<Item>, b: BlockCodes, ghost litFreqs: seq<nat>, ghost distFreqs: seq<nat>,
                           junk: Byte, stale: nat)
    returns (last: nat, lens: seq<nat>, out: seq<nat>, finished: bool)
    requires u.Sound() && AllValid(tokens) && tokens != [] && b.Valid() && Headable(b)
    requires |litFreqs| == 286 && |distFreqs| == 30 && AllCounted(litFreqs, distFreqs, u, tokens)
    requires CodesFor(litFreqs, b.lit) && CodesFor(distFreqs, b.dist)
    requires LengthsKept(b.LitSent(), b.DistSent())
    ensures last == 0 && lens == b.LitSent() + b.DistSent()
    ensures finished && Told(out, Block(u, tokens), 0xFE) <==> Roomy(b.LitLens(), Block(u, tokens))
    ensures Indexable(b.LitLens()) ==> Roomy(b.LitLens(), Block(u, tokens))
    ensures finished && Told(out, Block(u, tokens), 0xFE) ==> Meant(out[..|out| - 1]) == AllPlain(tokens)
  {
    hide *;
    ghost var c := Codes(b.LitLens(), b.DistLens());
    ghost var parts := Block(u, tokens);
    CodedBlock(u, tokens, b, litFreqs, distFreqs);
    SentLists(b);
    HeadableIs(b);
    HeadedFrom(b.LitSent(), b.DistSent(), b.bl);
    var header := SendTrees(b.LitSent(), b.DistSent(), b.bl);
    HeaderSizes(b.LitSent(), b.DistSent(), b.bl);
    var words;
    ghost var rest;
    words, rest := SendBlock(u, tokens, b.lit, b.dist, header, junk, c);
    var r := new BitReader(words);
    var kind, nlen, ndist;
    last, kind, nlen, ndist, lens := ReadTrees(r, b.LitSent(), b.DistSent(), b.bl, BodyBits(c, parts) + rest);
    SplitLists(b, lens, nlen);
    var litOffsets, litTables := BuildComparator(lens[..nlen]);
    var distOffsets, distTables := BuildComparator(lens[nlen..nlen + ndist]);
    BothServed(b, litOffsets, litTables, distOffsets, distTables);
    var ignoreValue := if last == 1 then 0xFD else 0xFE;
    out, finished := ReadBlock(r, litOffsets, litTables, distOffsets, distTables, ignoreValue, stale, c, u, tokens, rest);
    RoomyExactly(c, parts);
    if Indexable(b.LitLens()) { IndexableIsRoomy(c, parts); }
  }

  lemma HeadableIs(b: BlockCodes)
    ensures Headable(b) <==>
      (AllHaveCodes(SentTokens(b.LitSent(), b.DistSent()), LengthsSent(b.bl)) <==> LengthsKept(b.LitSent(), b.DistSent()))
  {
    hide AllHaveCodes, SentTokens, LengthsKept, BlockCodes.LitSent, BlockCodes.DistSent;
  }

  lemma CodedBlock(u: LookUps, tokens: seq<Item>, b: BlockCodes, litFreqs: seq<nat>, distFreqs: seq<nat>)
    requires u.Sound() && AllValid(tokens) && b.Valid()
    requires |litFreqs| == 286 && |distFreqs| == 30 && AllCounted(litFreqs, distFreqs, u, tokens)
    requires CodesFor(litFreqs, b.lit) && CodesFor(distFreqs, b.dist)
    ensures var c := Codes(b.LitLens(), b.DistLens());
            && Trees(c, b.lit, b.dist) && AllCoded(c, u, tokens) && |c.lit| <= 288 && |c.dist| <= 32 && |c.dist| <= SLOTS
            && c.lit == b.LitLens() && c.dist == b.DistLens()
  {
    hide Agreed, CodesFor, AllCoded, LookUps.Sound, AllValid, AllCounted, LastCoded, Trees;
    AllCountedCoded(litFreqs, distFreqs, u, tokens, b.lit, b.dist);
    AgreedTrees(b.lit, b.dist);
  }

  // The lists read are the lists sent, and tables can be built from them.
  lemma SplitLists(b: BlockCodes, lens: seq<nat>, nlen: nat)
    requires b.Valid() && lens == b.LitSent() + b.DistSent() && nlen == |b.LitSent()|
    ensures nlen <= nlen + |b.DistSent()| == |lens|
    ensures lens[..nlen] == b.LitSent() && lens[nlen..nlen + |b.DistSent()|] == b.DistSent()
    ensures Feasible(b.LitSent(), MAX_LEN) && Feasible(b.DistSent(), MAX_LEN)
  {
    CutFeasible(b.lit, b.maxLit);
    CutFeasible(b.dist, b.maxDist);
    hide Agreed, LastCoded, Feasible;
  }

  lemma CutFeasible(codes: seq<Codeword>, maxCode: nat)
    requires Agreed(codes) && LastCoded(LengthsSent(codes), maxCode)
    ensures maxCode < |codes| && Feasible(LengthsSent(codes)[..maxCode + 1], MAX_LEN)
  {
    CutCodes(LengthsSent(codes), maxCode + 1);
    hide Code, First, Feasible, CodeTable;
  }

  lemma BothServed(b: BlockCodes, litOffsets: array<nat>, litTables: array2<nat>, distOffsets: array<nat>, distTables: array2<nat>)
    requires b.Valid()
    requires Offsets(b.LitSent(), litOffsets[..], MAX_LEN) && Filed(b.LitSent(), |b.LitSent()|, litTables)
    requires Offsets(b.DistSent(), distOffsets[..], MAX_LEN) && Filed(b.DistSent(), |b.DistSent()|, distTables)
    ensures Served(b.LitLens(), litOffsets, litTables) && Served(b.DistLens(), distOffsets, distTables)
  {
    hide Code, First, Feasible, CodeTable, Offsets, Filed, Served;
    CutServes(b.LitLens(), b.maxLit + 1, litOffsets, litTables);
    CutServes(b.DistLens(), b.maxDist + 1, distOffsets, distTables);
  }
}
