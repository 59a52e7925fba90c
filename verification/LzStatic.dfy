// Static mode: a later call of the match finder neither flushes its dictionary nor finds it defined.
// Such a call may report a match that is none.

module LzStatic {
  import opened LzCore
  import opened LzCompress
  import opened LzSearch

  function Times(b: Byte, n: nat): (s: seq<Byte>)
    ensures |s| == n && forall k :: 0 <= k < n ==> s[k] == b
  {
    if n == 0 then [] else Times(b, n - 1) + [b]
  }

  // Every slot claims that a run of ones lies at index `base`.
  function StaleDict(base: nat, p: Params): (dict: seq<seq<Entry>>)
    ensures |dict| == DICT_SIZE
  {
    seq(DICT_SIZE, _ => seq(p.level, _ => Entry(Times(1, p.matchLen), base)))
  }

  // But the block starts with zeros.
  function StaleBlock(p: Params): seq<Byte> {
    Times(0, p.minOffset + 1) + Times(1, p.matchLen + p.leftBytes)
  }

  lemma StaleShaped(base: nat, p: Params)
    ensures ShapedDict(StaleDict(base, p), p)
  {
    var dict := StaleDict(base, p);
    forall h | 0 <= h < |dict| ensures Shaped(dict[h], p) {
    }
  }

  // No window with a zero in front falls into the slot of the ones.
  lemma HashesApart(w: seq<Byte>, ones: seq<Byte>, minMatch: nat)
    requires |w| >= 4 && |ones| >= 4 && w[0] == 0 && (forall k :: 0 <= k < 4 ==> w[k] <= 1 && ones[k] == 1)
    ensures Hash(w, minMatch) != Hash(ones, minMatch)
  {
    var b: bv12 := if w[1] == 0 then 0 else 1;
    var c: bv12 := if w[2] == 0 then 0 else 1;
    var d: bv12 := if w[3] == 0 then 0 else 1;
    assert w[0] as bv12 == 0 && w[1] as bv12 == b && w[2] as bv12 == c && w[3] as bv12 == d;
    assert ones[0] as bv12 == 1 && ones[1] as bv12 == 1 && ones[2] as bv12 == 1 && ones[3] as bv12 == 1;
  }

  lemma StaleWindow(p: Params, i: nat)
    requires p.Valid() && i <= p.minOffset + 1
    ensures i + p.matchLen <= |StaleBlock(p)|
    ensures var w := WindowAt(StaleBlock(p), i, p);
            if i == p.minOffset + 1 then w == Times(1, p.matchLen) else w[0] == 0 && forall k :: 0 <= k < 4 ==> w[k] <= 1
  {
    var block := StaleBlock(p);
    var w := WindowAt(block, i, p);
    forall k | 0 <= k < p.matchLen ensures w[k] == if i + k < p.minOffset + 1 then 0 else 1 {
    }
  }

  lemma {:induction false} StaleStays(base: nat, p: Params, n: nat)
    requires p.Valid() && n <= p.minOffset + 1 && ShapedDict(StaleDict(base, p), p)
    requires n > 0 ==> n - 1 + p.matchLen <= |StaleBlock(p)|
    ensures var h := Hash(Times(1, p.matchLen), p.minMatch);
            DictAt(StaleBlock(p), StaleDict(base, p), n, base, p)[h] == StaleDict(base, p)[h]
  {
    hide *;
    LongWindow(p);
    if n > 0 {
      StaleStays(base, p, n - 1);
      StaleWindow(p, n - 1);
      DictNext(StaleBlock(p), StaleDict(base, p), n - 1, base, p);
      HashesApart(WindowAt(StaleBlock(p), n - 1, p), Times(1, p.matchLen), p.minMatch);
    } else {
      NoPositions(StaleBlock(p), StaleDict(base, p), base, p);
    }
  }

  lemma NoPositions(block: seq<Byte>, d0: seq<seq<Entry>>, base: nat, p: Params)
    requires p.Valid() && ShapedDict(d0, p)
    ensures DictAt(block, d0, 0, base, p) == d0
  {
    hide ShapedDict;
  }

  lemma {:induction false} AllOfOneWorth(w: seq<Byte>, entries: seq<Entry>, e: Entry, currIdx: nat, base: nat, p: Params)
    requires entries != [] && |e.bytes| == |w| && forall l :: 0 <= l < |entries| ==> entries[l] == e
    requires Worth(w, e, currIdx, base, p) > 0 && e.index < currIdx
    ensures BestOf(w, entries, currIdx, base, p) == (Worth(w, e, currIdx, base, p), currIdx - e.index - 1)
  {
    hide Worth;
    if |entries| > 1 { AllOfOneWorth(w, entries[..|entries| - 1], e, currIdx, base, p); }
  }

  lemma {:induction false} AllCommon(a: seq<Byte>)
    ensures Common(a, a) == |a|
  {
    if a != [] { AllCommon(a[1..]); }
  }

  lemma StaleWorth(base: nat, p: Params)
    requires p.Valid() && p.minOffset + 1 < p.maxOffset
    ensures var e := Entry(Times(1, p.matchLen), base);
            Worth(Times(1, p.matchLen), e, base + p.minOffset + 1, base, p) == p.matchLen
  {
    AllCommon(Times(1, p.matchLen));
    hide Common, Times;
  }

  // The first window of ones is reported as a repetition of the zeros.
  lemma StaleMatch(base: nat, p: Params)
    requires p.Valid() && p.level >= 1 && p.minOffset + 1 < p.maxOffset && ShapedDict(StaleDict(base, p), p)
    ensures !GoodTokens(StaleBlock(p), Tokens(StaleBlock(p), StaleDict(base, p), |StaleBlock(p)|, base, p), p)
  {
    hide *;
    LongWindow(p);
    var i: nat, block, dict := p.minOffset + 1, StaleBlock(p), StaleDict(base, p);
    StaleSizes(base, p, Hash(Times(1, p.matchLen), p.minMatch));
    StaleWindow(p, i);
    StaleStays(base, p, i);
    StaleWorth(base, p);
    TokensAt(block, dict, |block|, i, base, p);
    var w, slot, best := TokenIs(block, dict, i, base, p);
    AllOfOneWorth(w, slot, Entry(Times(1, p.matchLen), base), base + i, base, p);
    NotRepeated(p, Tokens(block, dict, |block|, base, p));
  }

  lemma StaleSizes(base: nat, p: Params, h: nat)
    requires h < DICT_SIZE
    ensures |StaleBlock(p)| == p.minOffset + 1 + p.matchLen + p.leftBytes
    ensures |StaleDict(base, p)[h]| == p.level && forall l :: 0 <= l < p.level ==> StaleDict(base, p)[h][l] == Entry(Times(1, p.matchLen), base)
  {
    hide Times;
  }

  lemma NotRepeated(p: Params, toks: seq<Token>)
    requires p.Valid() && |toks| == |StaleBlock(p)|
    requires toks[p.minOffset + 1] == Token(StaleBlock(p)[p.minOffset + 1], p.matchLen, p.minOffset)
    ensures !GoodTokens(StaleBlock(p), toks, p)
  {
    var i, block := p.minOffset + 1, StaleBlock(p);
    assert block[i] == 1 && block[0] == 0;
    if GoodTokens(block, toks, p) {
      GoodRepeats(block, toks, i, p);
      assert false;
    }
  }

  lemma GoodRepeats(block: seq<Byte>, toks: seq<Token>, i: nat, p: Params)
    requires GoodTokens(block, toks, p) && i < |toks| && toks[i].len > 0
    ensures toks[i].offset + 1 <= i < |block| && block[i] == block[i - (toks[i].offset + 1)]
  {
    assert GoodToken(block, i, toks[i], p);
  }

  // So a call finds only genuine matches, whatever its dictionary holds, exactly if it flushes first.
  lemma SafeExactly(resetDictFlag: bool, base: nat, maxInput: nat, p: Params)
    requires p.Valid() && p.level >= 1 && p.minOffset + 1 < p.maxOffset
    requires p.minOffset + 1 + p.matchLen + p.leftBytes <= maxInput && maxInput <= RESET_INDEX
    ensures resetDictFlag <==>
            forall dict, block :: ShapedDict(dict, p) && p.leftBytes + p.matchLen - 1 <= |block| <= maxInput
              ==> GoodTokens(block, FirstTokens(resetDictFlag, dict, block, base, p), p)
  {
    hide Tokens, GoodTokens, ShapedDict, Harmless, FlushedDict;
    if resetDictFlag {
      forall dict, block | ShapedDict(dict, p) && p.leftBytes + p.matchLen - 1 <= |block| <= maxInput
        ensures GoodTokens(block, FirstTokens(true, dict, block, base, p), p)
      {
        AfterFlush(dict, p, 0);
        TokensGood(block, FlushedDict(p), 0, p);
      }
    } else {
      StaleShaped(base, p);
      StaleMatch(base, p);
      var dict, block := StaleDict(base, p), StaleBlock(p);
      assert !GoodTokens(block, FirstTokens(false, dict, block, base, p), p);
      assert |block| == p.minOffset + 1 + p.matchLen + p.leftBytes;
    }
  }
}
