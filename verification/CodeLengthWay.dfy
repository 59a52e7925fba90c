// The code for the lengths of both trees: the tokens are counted, a tree of their own is built, and
// its codes serve what is sent.

module CodeLengthWay {
  import opened Arithmetic
  import HuffmanHeight
  import HuffmanLengths
  import HuffmanTree
  import opened CanonicalCodes
  import opened HuffmanCodec
  import opened HuffmanConstruct
  import opened CodeLengthRuns
  import opened CodeLengthCoding
  import opened DeflateTrees

  const LENGTH_SYMBOLS := 19
  const LENGTH_HISTOGRAM := 15   // the histogram entries of the tree for the lengths
  const LENGTH_BITS := 7         // its longest codes

  function CountedTokens(lit: seq<nat>, dist: seq<nat>): seq<Token> {
    Tokens(lit, SENTINEL) + Tokens(dist, SENTINEL)
  }

  function SentTokens(lit: seq<nat>, dist: seq<nat>): seq<Token> {
    Tokens(lit, PADDING) + Tokens(dist, PADDING)
  }

  // The lengths of a tree as they are sent: up to the last symbol that has a code.
  predicate Sendable(lens: seq<nat>) {
    lens != [] && AtMost(lens, 15) && lens[|lens| - 1] != PADDING
  }

  // ---------- The tree for the lengths fits its histogram ----------

  lemma SentWellFormed(lens: seq<nat>)
    requires AtMost(lens, 15)
    ensures AllWellFormed(Tokens(lens, PADDING)) && Codable(Tokens(lens, PADDING))
  {
    ScanWellFormed(lens, 0, 0, -1, FirstLongest(lens), FirstShortest(lens));
    ScanCodable(lens, 0, 0, -1, FirstLongest(lens), FirstShortest(lens), PADDING);
  }

  // No more tokens are counted than there are lengths.
  lemma FewTokens(lens: seq<nat>)
    requires Sendable(lens)
    ensures |Tokens(lens, SENTINEL)| <= |lens|
  {
    hide Tokens, Lost, Expand;
    SentWellFormed(lens);
    TokensMean(lens, PADDING, 0);
    ExpandGrows(Tokens(lens, PADDING), 0);
    SentAndLost(lens);
  }

  // 286 and 30 lengths cannot make a tree as high as the histogram.
  lemma LengthTreeFits(lit: seq<nat>, dist: seq<nat>, freq: seq<nat>)
    requires Sendable(lit) && Sendable(dist) && |lit| <= 286 && |dist| <= 30
    requires Frequencies(freq, LENGTH_SYMBOLS, Symbols(CountedTokens(lit, dist)))
    ensures |freq| == LENGTH_SYMBOLS && Total(freq, |freq|) <= 316
    ensures HuffmanTree.TreeHeight(Ranked(freq)) < LENGTH_HISTOGRAM
  {
    FewTokens(lit);
    FewTokens(dist);
    TotalOfCounts(freq, LENGTH_SYMBOLS, Symbols(CountedTokens(lit, dist)), LENGTH_SYMBOLS);
    HuffmanHeight.SafeTotals();
    hide Tokens, Symbols, Total, Ranked, HuffmanTree.TreeHeight, Fib, Under;
    SmallTotalFits(freq, LENGTH_HISTOGRAM);
  }

  // ---------- The codes serve the tokens ----------

  lemma CodesLimited(freqs: seq<nat>, sorted: seq<HuffmanTree.Symbol>, lens: seq<nat>, codes: seq<Codeword>, h: seq<nat>, m: nat)
    requires Constructed(freqs, sorted, lens, codes, h, m) && 1 <= m <= MAX_LEN && freqs != []
    ensures AtMost(LengthsSent(codes), m)
  {
    ConstructedAgreed(freqs, sorted, lens, codes, h, m);
    hide Prepared, Optimal, Kraft, CodeTable, Counts, Feasible;
  }

  ghost predicate AllHaveCodes(toks: seq<Token>, blens: seq<nat>) {
    forall k :: 0 <= k < |toks| ==> Symbol(toks[k]) < |blens| && blens[Symbol(toks[k])] > 0
  }

  // A symbol that has been counted has a code.
  lemma ServedHaveCodes(toks: seq<Token>, counted: seq<Token>, freq: seq<nat>, codes: seq<Codeword>)
    requires Codable(toks) && Serves(counted, toks) && Frequencies(freq, LENGTH_SYMBOLS, Symbols(counted)) && CodesFor(freq, codes)
    ensures AllHaveCodes(toks, LengthsSent(codes))
  {
    hide Symbol, Symbols, Count, Agreed;
    forall k | 0 <= k < |toks| ensures Symbol(toks[k]) < |codes| && LengthsSent(codes)[Symbol(toks[k])] > 0 {
      var x := Symbol(toks[k]);
      assert Uses(counted, x) > 0;
      assert Effective(freq, x) != 0;
    }
  }

  // And only such symbols have codes, as long as anything was counted.
  lemma CodesOnlyServed(toks: seq<Token>, counted: seq<Token>, freq: seq<nat>, sorted: seq<HuffmanTree.Symbol>, lens: seq<nat>,
                        codes: seq<Codeword>, h: seq<nat>)
    requires Frequencies(freq, LENGTH_SYMBOLS, Symbols(counted)) && Constructed(freq, sorted, lens, codes, h, LENGTH_BITS)
    requires sorted != [] && AllHaveCodes(toks, LengthsSent(codes))
    ensures Serves(counted, toks)
  {
    ConstructedAgreed(freq, sorted, lens, codes, h, LENGTH_BITS);
    CodedOccurs(freq, sorted, lens, codes, h, LENGTH_BITS);
    hide Constructed, Symbol, Symbols, Count, Agreed;
    forall k | 0 <= k < |toks| ensures Uses(counted, Symbol(toks[k])) > 0 {
      var x := Symbol(toks[k]);
      assert lens[x] > 0;
    }
  }

  // If nothing was counted, both lists are short runs of 15s.
  lemma NothingCounted(lens: seq<nat>)
    requires Sendable(lens) && Tokens(lens, SENTINEL) == []
    ensures Tokens(lens, PADDING) != [] && Symbol(Tokens(lens, PADDING)[0]) == 15
  {
    SentAndLost(lens);
    TokensMean(lens, PADDING, 0);
    hide Tokens, Lost;
    LostIs(lens);
    TrailingBound(lens);
    var t := TrailingRun(lens);
    hide TrailingRun;
    if lens[|lens| - 1] == SENTINEL && t >= 7 {
      LongRunServes(lens);
      assert false;
    }
    if lens[|lens| - 1] == SENTINEL { FirstOfRun(t); }
  }

  lemma {:induction false} FirstOfRun(t: nat)
    requires 1 <= t < 7
    ensures LostOf(t) != [] && LostOf(t)[0] == Len(15)
  {
    if t < 4 { FirstSingle(t); }
  }

  lemma {:induction false} FirstSingle(t: nat)
    requires t >= 1
    ensures Singles(15, t)[0] == Len(15)
  {
    if t > 1 { FirstSingle(t - 1); }
  }

  lemma NoneSorted(freq: seq<nat>, sorted: seq<HuffmanTree.Symbol>, lens: seq<nat>, codes: seq<Codeword>, h: seq<nat>,
                   lit: seq<nat>, dist: seq<nat>)
    requires Sendable(lit) && Frequencies(freq, LENGTH_SYMBOLS, Symbols(CountedTokens(lit, dist)))
    requires Constructed(freq, sorted, lens, codes, h, LENGTH_BITS) && sorted == []
    requires Codable(Tokens(lit, SENTINEL))
    ensures !AllHaveCodes(SentTokens(lit, dist), LengthsSent(codes))
  {
    hide *;
    NothingFrom(freq, sorted, lens, codes, h, lit, dist);
    NothingCounted(lit);
    FirstUnserved(lit, dist, codes);
  }

  lemma FirstUnserved(lit: seq<nat>, dist: seq<nat>, codes: seq<Codeword>)
    requires Tokens(lit, PADDING) != [] && Symbol(Tokens(lit, PADDING)[0]) == 15
    requires forall k :: 1 <= k < |codes| ==> LengthsSent(codes)[k] == 0
    ensures !AllHaveCodes(SentTokens(lit, dist), LengthsSent(codes))
  {
    hide Tokens, Symbol;
    assert SentTokens(lit, dist)[0] == Tokens(lit, PADDING)[0];
  }

  lemma NothingFrom(freq: seq<nat>, sorted: seq<HuffmanTree.Symbol>, lens: seq<nat>, codes: seq<Codeword>, h: seq<nat>,
                    lit: seq<nat>, dist: seq<nat>)
    requires Frequencies(freq, LENGTH_SYMBOLS, Symbols(CountedTokens(lit, dist)))
    requires Constructed(freq, sorted, lens, codes, h, LENGTH_BITS) && sorted == []
    requires Codable(Tokens(lit, SENTINEL))
    ensures Tokens(lit, SENTINEL) == [] && forall k :: 1 <= k < |codes| ==> LengthsSent(codes)[k] == 0
  {
    EmptyCodes(freq, sorted, lens, codes, h, LENGTH_BITS);
    if Tokens(lit, SENTINEL) != [] {
      hide Scan, Symbols, Count, Prepared;
      var counted := CountedTokens(lit, dist);
      assert counted[0] == Tokens(lit, SENTINEL)[0];
      SentAreCounted(counted, 0);
      var i := IsSorted(freq, sorted, Symbol(counted[0]));
      assert false;
    }
  }

  // What the counting pass loses of either list is counted elsewhere in the two.
  predicate LengthsKept(lit: seq<nat>, dist: seq<nat>) {
    Kept(lit, CountedTokens(lit, dist)) && Kept(dist, CountedTokens(lit, dist))
  }

  // Every token sent gets a code exactly if what the counting pass loses is counted elsewhere.
  lemma CodedExactly(lit: seq<nat>, dist: seq<nat>, freq: seq<nat>, sorted: seq<HuffmanTree.Symbol>, lens: seq<nat>,
                     codes: seq<Codeword>, h: seq<nat>)
    requires Sendable(lit) && Sendable(dist)
    requires Frequencies(freq, LENGTH_SYMBOLS, Symbols(CountedTokens(lit, dist)))
    requires Constructed(freq, sorted, lens, codes, h, LENGTH_BITS)
    ensures AllHaveCodes(SentTokens(lit, dist), LengthsSent(codes)) <==> LengthsKept(lit, dist)
    ensures Counted(lit) && Counted(dist) ==> AllHaveCodes(SentTokens(lit, dist), LengthsSent(codes))
  {
    if Counted(lit) && Counted(dist) {
      CountedIsKept(lit, CountedTokens(lit, dist));
      CountedIsKept(dist, CountedTokens(lit, dist));
    }
    var counted, sent := CountedTokens(lit, dist), SentTokens(lit, dist);
    SentServed(lit, dist);
    SentWellFormed(lit);
    SentWellFormed(dist);
    ConstructedCodes(freq, sorted, lens, codes, h, LENGTH_BITS);
    ScanCodable(lit, 0, 0, -1, FirstLongest(lit), FirstShortest(lit), SENTINEL);
    hide Scan, Counted, Constructed, Serves, AllHaveCodes, Kept, CodesFor, Symbols;
    if Serves(counted, sent) {
      CodableConcat(Tokens(lit, PADDING), Tokens(dist, PADDING));
      ServedHaveCodes(sent, counted, freq, codes);
    }
    if AllHaveCodes(sent, LengthsSent(codes)) {
      if sorted == [] {
        NoneSorted(freq, sorted, lens, codes, h, lit, dist);
        assert false;
      }
      CodesOnlyServed(sent, counted, freq, sorted, lens, codes, h);
    }
  }

  // ---------- The tree for the lengths ----------

  lemma DecodableWith(lit: seq<nat>, dist: seq<nat>, codes: seq<Codeword>)
    requires Sendable(lit) && Sendable(dist) && |codes| == LENGTH_SYMBOLS && Agreed(codes) && AtMost(LengthsSent(codes), LENGTH_BITS)
    requires AllHaveCodes(SentTokens(lit, dist), LengthsSent(codes))
    ensures Decodable(Tokens(lit, PADDING) + Tokens(dist, PADDING), LengthsSent(codes), codes)
  {
    SentWellFormed(lit);
    SentWellFormed(dist);
    hide Tokens, Symbol, WellFormed, CodeTable, Feasible;
  }

  lemma FrequenciesAre(lit: seq<nat>, dist: seq<nat>, freq: seq<nat>)
    requires |freq| == 19 && forall x :: 0 <= x < 19 ==> freq[x] == Uses(Tokens(lit, SENTINEL) + Tokens(dist, SENTINEL), x)
    ensures Frequencies(freq, LENGTH_SYMBOLS, Symbols(CountedTokens(lit, dist)))
  {
    hide Tokens, Symbols, Count;
  }

  // What the construction for the lengths needs and gives.
  lemma Sizes(width: nat)
    requires width >= 9
    ensures LENGTH_SYMBOLS == 19 && LENGTH_BITS == 7 && LENGTH_HISTOGRAM == 15 && 7 <= MAX_LEN && 21 < HuffmanLengths.HISTOGRAM_WRAP
    ensures 19 <= Pow2(7) && 316 < Pow2(width)
  {
    Pow2Mono(9, width);
    assert Pow2(4) == 16;
    assert Pow2(7) == 128;
    assert Pow2(9) == 512;
  }

  // The codes for the lengths of both trees. They serve what is sent if what the counting pass loses
  // is counted elsewhere.
  method LengthTree(lit: seq<nat>, dist: seq<nat>, width: nat, junk: nat) returns (codes: seq<Codeword>)
    requires Sendable(lit) && Sendable(dist) && |lit| <= 286 && |dist| <= 30 && width >= 9
    ensures |codes| == LENGTH_SYMBOLS && Agreed(codes) && AtMost(LengthsSent(codes), LENGTH_BITS)
    ensures AllHaveCodes(SentTokens(lit, dist), LengthsSent(codes)) <==> LengthsKept(lit, dist)
  {
    hide *;
    Sizes(width);
    SendableIs(lit);
    SendableIs(dist);
    var freq := GenBitLenFreq(lit, dist);
    FrequenciesAre(lit, dist, freq);
    LengthTreeFits(lit, dist, freq);
    ghost var blens, sorted, hist;
    var maxCode;
    codes, maxCode, blens, sorted, hist := HuffConstructTree(freq, LENGTH_HISTOGRAM, LENGTH_BITS, width, junk);
    ConstructedAgreed(freq, sorted, blens, codes, hist, LENGTH_BITS);
    CodesLimited(freq, sorted, blens, codes, hist, LENGTH_BITS);
    CodedExactly(lit, dist, freq, sorted, blens, codes, hist);
  }

  lemma SentIs(lit: seq<nat>, dist: seq<nat>)
    ensures SentTokens(lit, dist) == Tokens(lit, PADDING) + Tokens(dist, PADDING)
  {
    hide Tokens;
  }

  lemma SendableIs(lens: seq<nat>)
    requires Sendable(lens)
    ensures lens != [] && AtMost(lens, 15) && lens[|lens| - 1] != PADDING
  {
  }
}
