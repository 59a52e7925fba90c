// The header of a compressed block with codes of its own: the counts, the lengths of the code for the
// lengths in their odd order, and the lengths of both trees (RFC 1951, section 3.2.7); sent by the
// tree generator and read back from the bit buffer.

module DeflateHeader {
  import opened Arithmetic
  import opened CanonicalCodes
  import opened BitStrings
  import opened HuffmanCodec
  import LzCore
  import opened CodeLengthRuns
  import opened CodeLengthCoding
  import opened BitPacking
  import opened BitReading
  import opened DeflateRoundTrip
  import opened DeflateTrees
  import opened CodeLengthWay

  // ---------- The order of the lengths ----------

  // The order of RFC 1951, section 3.2.7: the repetitions, 0, and then from 8 outwards, the ranks
  // from 4 on alternately up and down.
  function Order(rank: nat): (k: nat)
    requires rank < 19
    ensures k < 19
  {
    if rank < 3 then 16 + rank else if rank == 3 then 0
    else if rank % 2 == 0 then 8 + (rank - 4) / 2 else 8 - (rank - 3) / 2
  }

  // The rank of a symbol.
  function Place(k: nat): (rank: nat)
    requires k < 19
    ensures rank < 19 && Order(rank) == k
  {
    if k >= 16 then k - 16 else if k == 0 then 3 else if k >= 8 then 4 + 2 * (k - 8) else 3 + 2 * (8 - k)
  }

  lemma PlaceOfOrder(rank: nat)
    requires rank < 19
    ensures Place(Order(rank)) == rank
  {
  }

  // The writer's table and the reader's, each as its source has it.
  const BITLEN_VALS: seq<nat> := [16, 17, 18, 0, 8, 7, 9, 6, 10, 5, 11, 4, 12, 3, 13, 2, 14, 1, 15]
  const ORDER: seq<nat> := [16, 17, 18, 0, 8, 7, 9, 6, 10, 5, 11, 4, 12, 3, 13, 2, 14, 1, 15]

  lemma TablesAgree()
    ensures |BITLEN_VALS| == 19 && forall rank :: 0 <= rank < 19 ==> BITLEN_VALS[rank] == Order(rank)
    ensures |ORDER| == 19 && forall rank :: 0 <= rank < 19 ==> ORDER[rank] == Order(rank)
  {
  }

  // The last rank, at least 3, of a symbol with a code, going down from rank n.
  function LastRankOf(bl: seq<Codeword>, n: nat): (m: nat)
    requires |bl| == 19 && n < 19
    ensures 3 <= m < 19 && forall i :: m < i <= n ==> bl[Order(i)].bitlength == 0
  {
    if n < 3 then 3 else if bl[Order(n)].bitlength != 0 then n else LastRankOf(bl, n - 1)
  }

  method LastRank(bl: seq<Codeword>) returns (m: nat)
    requires |bl| == 19
    ensures m == LastRankOf(bl, 18)
  {
    TablesAgree();
    hide BITLEN_VALS, ORDER;
    var blMxc: nat, goOn := 18, true;
    while blMxc >= 3 && goOn
      invariant 2 <= blMxc <= 18
      invariant LastRankOf(bl, 18) == if goOn then LastRankOf(bl, blMxc) else blMxc + 1
      decreases blMxc
    {
      goOn := bl[BITLEN_VALS[blMxc]].bitlength == 0;
      blMxc := blMxc - 1;
    }
    m := blMxc + 1;
  }

  // ---------- The fields ----------

  // The lengths from one rank to another, in three bits each.
  function LengthFields(bl: seq<Codeword>, i: nat, n: nat): seq<Codeword>
    requires |bl| == 19 && i <= n <= 19
    decreases n - i
  {
    if i == n then [] else [Codeword(bl[Order(i)].bitlength, 3)] + LengthFields(bl, i + 1, n)
  }

  // The kind of the block, and how many lengths there are of each of the three codes.
  function CountFields(nlen: nat, ndist: nat, ncode: nat): seq<Codeword>
    requires nlen >= 257 && ndist >= 1 && ncode >= 4
  {
    [Codeword(4, 3), Codeword(nlen - 257, 5), Codeword(ndist - 1, 5), Codeword(ncode - 4, 4)]
  }

  // The lengths of both trees, and a code that serves them.
  ghost predicate Headed(lit: seq<nat>, dist: seq<nat>, bl: seq<Codeword>) {
    && CodeLengthWay.Sendable(lit) && 257 <= |lit| <= 286 && CodeLengthWay.Sendable(dist) && |dist| <= 30
    && |bl| == 19 && Agreed(bl) && AtMost(LengthsSent(bl), 7) && AllHaveCodes(SentTokens(lit, dist), LengthsSent(bl))
    && Codable(SentTokens(lit, dist))
  }

  ghost function Header(lit: seq<nat>, dist: seq<nat>, bl: seq<Codeword>): seq<Codeword>
    requires Headed(lit, dist, bl)
  {
    var n := LastRankOf(bl, 18) + 1;
    CountFields(|lit|, |dist|, n) + LengthFields(bl, 0, n) + AllFields(SentTokens(lit, dist), bl)
  }

  lemma HeadedIs(lit: seq<nat>, dist: seq<nat>, bl: seq<Codeword>)
    requires Headed(lit, dist, bl)
    ensures 257 <= |lit| <= 286 && 1 <= |dist| <= 30 && |bl| == 19 && AtMost(lit, 15) && AtMost(dist, 15)
    ensures lit[|lit| - 1] != PADDING && dist[|dist| - 1] != PADDING && Codable(SentTokens(lit, dist))
    ensures CodeLengthWay.Sendable(lit) && CodeLengthWay.Sendable(dist)
    ensures Feasible(LengthsSent(bl), MAX_LEN) && Decodable(SentTokens(lit, dist), LengthsSent(bl), bl)
  {
    DecodableWith(lit, dist, bl);
    hide AllHaveCodes, Tokens, Decodable, CodeTable, Feasible, LengthsSent;
  }

  lemma HeaderIs(lit: seq<nat>, dist: seq<nat>, bl: seq<Codeword>)
    requires Headed(lit, dist, bl)
    ensures 257 <= |lit| && 1 <= |dist| && |bl| == 19 && Codable(SentTokens(lit, dist))
    ensures var n := LastRankOf(bl, 18) + 1;
            Header(lit, dist, bl) == CountFields(|lit|, |dist|, n) + LengthFields(bl, 0, n) + AllFields(SentTokens(lit, dist), bl)
  {
    hide AllHaveCodes, Codable, LengthFields, AllFields, SentTokens, LastRankOf, Agreed;
  }

  // ---------- sendTrees ----------

  lemma FirstLength(bl: seq<Codeword>, i: nat, n: nat)
    requires |bl| == 19 && i < n <= 19
    ensures LengthFields(bl, i, n) == [Codeword(bl[Order(i)].bitlength, 3)] + LengthFields(bl, i + 1, n)
  {
  }

  lemma NoLengths(bl: seq<Codeword>, n: nat)
    requires |bl| == 19 && n <= 19
    ensures LengthFields(bl, n, n) == []
  {
  }

  // The lists of lengths go up to the last symbol with a code; behind it lies a length of zero.
  method SendTrees(lit: seq<nat>, dist: seq<nat>, bl: seq<Codeword>) returns (out: seq<Codeword>)
    requires Headed(lit, dist, bl)
    ensures out == Header(lit, dist, bl)
  {
    hide *;
    HeadedIs(lit, dist, bl);
    HeaderIs(lit, dist, bl);
    var maxBl := LastRank(bl);
    out := [Codeword(4, 3)];
    out := out + [Codeword(|lit| - 257, 5), Codeword(|dist| - 1, 5), Codeword(maxBl + 1 - 4, 4)];
    ghost var counts := out;
    CountsAre(out, |lit|, |dist|, maxBl + 1);
    ghost var lengths := LengthFields(bl, 0, maxBl + 1);
    TablesAgree();
    var rank := 0;
    while rank < maxBl + 1
      invariant 0 <= rank <= maxBl + 1
      invariant out + LengthFields(bl, rank, maxBl + 1) == counts + lengths
    {
      FirstLength(bl, rank, maxBl + 1);
      out := out + [Codeword(bl[BITLEN_VALS[rank]].bitlength, 3)];
      rank := rank + 1;
    }
    NoLengths(bl, rank);
    SentIs(lit, dist);
    var trees := SendLengths(lit, dist, bl);
    out := out + trees;
  }

  lemma CountsAre(out: seq<Codeword>, nlen: nat, ndist: nat, ncode: nat)
    requires nlen >= 257 && ndist >= 1 && ncode >= 4
    requires out == [Codeword(4, 3)] + [Codeword(nlen - 257, 5), Codeword(ndist - 1, 5), Codeword(ncode - 4, 4)]
    ensures out == CountFields(nlen, ndist, ncode)
  {
  }

  // ---------- Every field can be packed ----------

  lemma {:induction false} LengthFieldSizes(bl: seq<Codeword>, i: nat, n: nat)
    requires |bl| == 19 && i <= n <= 19
    ensures FieldSizes(LengthFields(bl, i, n))
    decreases n - i
  {
    if i < n { LengthFieldSizes(bl, i + 1, n); }
  }

  lemma CountFieldSizes(nlen: nat, ndist: nat, ncode: nat)
    requires nlen >= 257 && ndist >= 1 && ncode >= 4
    ensures FieldSizes(CountFields(nlen, ndist, ncode))
  {
  }

  lemma {:induction false} TokenFieldSizes(toks: seq<Token>, bl: seq<Codeword>)
    requires |bl| == 19 && Codable(toks) && forall k :: 0 <= k < |toks| ==> 1 <= bl[Symbol(toks[k])].bitlength <= 15
    ensures FieldSizes(AllFields(toks, bl))
  {
    if toks != [] {
      CodableTail(toks);
      assert forall k :: 0 <= k < |toks[1..]| ==> toks[1..][k] == toks[k + 1];
      TokenFieldSizes(toks[1..], bl);
      OneTokenSizes(toks[0], bl);
      BothSized(CodeLengthCoding.FieldsOf(toks[0], bl), AllFields(toks[1..], bl));
      hide FieldSizes, CodeLengthCoding.FieldsOf, Symbol;
    }
  }

  lemma OneTokenSizes(t: Token, bl: seq<Codeword>)
    requires |bl| == 19 && Symbol(t) < 19 && 1 <= bl[Symbol(t)].bitlength <= 15
    ensures FieldSizes(CodeLengthCoding.FieldsOf(t, bl))
  {
  }

  lemma HeaderSizes(lit: seq<nat>, dist: seq<nat>, bl: seq<Codeword>)
    requires Headed(lit, dist, bl)
    ensures FieldSizes(Header(lit, dist, bl)) && Header(lit, dist, bl) != []
  {
    HeadedIs(lit, dist, bl);
    HeaderIs(lit, dist, bl);
    var n, toks := LastRankOf(bl, 18) + 1, SentTokens(lit, dist);
    TokensCoded(toks, bl);
    hide *;
    TokenFieldSizes(toks, bl);
    CountFieldSizes(|lit|, |dist|, n);
    LengthFieldSizes(bl, 0, n);
    BothSized(CountFields(|lit|, |dist|, n), LengthFields(bl, 0, n));
    BothSized(CountFields(|lit|, |dist|, n) + LengthFields(bl, 0, n), AllFields(toks, bl));
    FourCounts(|lit|, |dist|, n);
  }

  lemma FourCounts(nlen: nat, ndist: nat, ncode: nat)
    requires nlen >= 257 && ndist >= 1 && ncode >= 4
    ensures |CountFields(nlen, ndist, ncode)| == 4
  {
  }

  lemma TokensCoded(toks: seq<Token>, bl: seq<Codeword>)
    requires Decodable(toks, LengthsSent(bl), bl)
    ensures |bl| == 19 && Codable(toks) && forall k :: 0 <= k < |toks| ==> 1 <= bl[Symbol(toks[k])].bitlength <= 15
  {
    hide WellFormed, CodeTable, Feasible, Symbol;
  }

  // ---------- Reading ----------

  // A value of known width is next, and it fits the width.
  method TakeValue(r: BitReader, n: nat, ghost v: nat, ghost more: seq<Bit>) returns (x: nat)
    requires r.Valid() && n <= r.bitsCntr && v < Pow2(n) && r.Ahead() == LowBits(v, n) + more
    modifies r
    ensures r.Valid() && r.Ahead() == more && x == v && r.bitsCntr == old(r.bitsCntr) - n
  {
    hide *;
    x := r.Take(n);
    SameBits(x, v, n);
  }

  // The bits of the counts, as they are read, and what follows them.
  function CountBits(nlen: nat, ndist: nat, ncode: nat, more: seq<Bit>): seq<Bit>
    requires nlen >= 257 && ndist >= 1 && ncode >= 4
  {
    LowBits(0, 1) + (LowBits(2, 2) + (LowBits(nlen - 257, 5) + (LowBits(ndist - 1, 5) + (LowBits(ncode - 4, 4) + more))))
  }

  lemma CountsFit(nlen: nat, ndist: nat, ncode: nat)
    requires 257 <= nlen <= 288 && 1 <= ndist <= 32 && 4 <= ncode <= 19
    ensures 0 < Pow2(1) && 2 < Pow2(2) && nlen - 257 < Pow2(5) && ndist - 1 < Pow2(5) && ncode - 4 < Pow2(4)
  {
    assert Pow2(2) == 4 && Pow2(4) == 16;
    assert Pow2(5) == 32;
  }

  // One field, and the bits behind it.
  lemma FieldAhead(f: Codeword, fields: seq<Codeword>, more: seq<Bit>)
    ensures FieldBits([f] + fields) + more == LowBits(f.codeword, f.bitlength) + (FieldBits(fields) + more)
  {
    hide *;
    FieldBitsConcat([f], fields);
    OneFieldBits(f);
    Joins(LowBits(f.codeword, f.bitlength), FieldBits(fields), more);
  }

  lemma ThreeAhead(a: Codeword, b: Codeword, c: Codeword, more: seq<Bit>)
    ensures FieldBits([a, b, c]) + more
         == LowBits(a.codeword, a.bitlength) + (LowBits(b.codeword, b.bitlength) + (LowBits(c.codeword, c.bitlength) + more))
  {
    hide *;
    assert [b, c] == [b] + [c] && [a, b, c] == [a] + [b, c];
    OneFieldBits(c);
    FieldAhead(b, [c], more);
    FieldAhead(a, [b, c], more);
  }

  lemma CountsAhead(nlen: nat, ndist: nat, ncode: nat, more: seq<Bit>)
    requires nlen >= 257 && ndist >= 1 && ncode >= 4
    ensures FieldBits(CountFields(nlen, ndist, ncode)) + more == CountBits(nlen, ndist, ncode, more)
  {
    hide *;
    var a, b, c, d := Codeword(4, 3), Codeword(nlen - 257, 5), Codeword(ndist - 1, 5), Codeword(ncode - 4, 4);
    KindBits();
    CountsAre([a] + [b, c, d], nlen, ndist, ncode);
    CountBitsAre(nlen, ndist, ncode, more);
    ThreeAhead(b, c, d, more);
    FieldAhead(a, [b, c, d], more);
    Joins(LowBits(0, 1), LowBits(2, 2), FieldBits([b, c, d]) + more);
  }

  // The same bits by section 3.2.7 of RFC 1951, with numbers lowest bit first: not the last block, kind
  // 2, and how many lengths there are, counted from 257, from 1 and from 4.
  lemma CountsReadBack(nlen: nat, ndist: nat, ncode: nat, more: seq<Bit>)
    requires 257 <= nlen <= 288 && 1 <= ndist <= 32 && 4 <= ncode <= 19
    ensures var s := FieldBits(CountFields(nlen, ndist, ncode)) + more;
            && |s| == 17 + |more| && NumberOf(s[0..1]) == 0 && NumberOf(s[1..3]) == 2
            && NumberOf(s[3..8]) + 257 == nlen && NumberOf(s[8..13]) + 1 == ndist && NumberOf(s[13..17]) + 4 == ncode
            && s[17..] == more
  {
    hide *;
    CountsAhead(nlen, ndist, ncode, more);
    CountBitsAre(nlen, ndist, ncode, more);
    CountsFit(nlen, ndist, ncode);
    NumberOfBits(0, 1);
    NumberOfBits(2, 2);
    NumberOfBits(nlen - 257, 5);
    NumberOfBits(ndist - 1, 5);
    NumberOfBits(ncode - 4, 4);
    FivePieces(LowBits(0, 1), LowBits(2, 2), LowBits(nlen - 257, 5), LowBits(ndist - 1, 5), LowBits(ncode - 4, 4), more);
  }

  lemma FivePieces(a: seq<Bit>, b: seq<Bit>, c: seq<Bit>, d: seq<Bit>, e: seq<Bit>, more: seq<Bit>)
    requires |a| == 1 && |b| == 2 && |c| == 5 && |d| == 5 && |e| == 4
    ensures var s := a + (b + (c + (d + (e + more))));
            |s| == 17 + |more| && s[0..1] == a && s[1..3] == b && s[3..8] == c && s[8..13] == d && s[13..17] == e && s[17..] == more
  {
    var s := a + (b + (c + (d + (e + more))));
    assert s[1..] == b + (c + (d + (e + more)));
    assert s[3..] == c + (d + (e + more));
    assert s[8..] == d + (e + more);
    assert s[13..] == e + more;
    assert s[1..3] == s[1..][..2] && s[3..8] == s[3..][..5] && s[8..13] == s[8..][..5] && s[13..17] == s[13..][..4];
  }

  lemma Joins(a: seq<Bit>, b: seq<Bit>, c: seq<Bit>)
    ensures a + b + c == a + (b + c)
  {
  }

  lemma NoFieldBits(more: seq<Bit>)
    ensures FieldBits([]) + more == more
  {
    assert [] + more == more;
  }

  lemma KindBits()
    ensures LowBits(4, 3) == LowBits(0, 1) + LowBits(2, 2)
  {
    assert LowBits(2, 2) == [0] + LowBits(1, 1);
    assert LowBits(4, 3) == [0] + LowBits(2, 2);
    assert LowBits(0, 1) == [0] + LowBits(0, 0);
  }

  // The bits of the header, and where its parts end.
  lemma HeaderBits(lit: seq<nat>, dist: seq<nat>, bl: seq<Codeword>, rest: seq<Bit>)
    requires Headed(lit, dist, bl)
    ensures |bl| == 19 && Codable(SentTokens(lit, dist)) && 257 <= |lit| <= 286 && 1 <= |dist| <= 30
    ensures var n := LastRankOf(bl, 18) + 1;
            FieldBits(Header(lit, dist, bl)) + rest
            == CountBits(|lit|, |dist|, n, FieldBits(LengthFields(bl, 0, n)) + (TreeBits(SentTokens(lit, dist), bl) + rest))
  {
    hide *;
    HeadedIs(lit, dist, bl);
    HeaderIs(lit, dist, bl);
    var n := LastRankOf(bl, 18) + 1;
    var a, b, c := CountFields(|lit|, |dist|, n), LengthFields(bl, 0, n), AllFields(SentTokens(lit, dist), bl);
    FieldBitsConcat(a + b, c);
    FieldBitsConcat(a, b);
    TreeBitsAre(SentTokens(lit, dist), bl);
    CountsAhead(|lit|, |dist|, n, FieldBits(b) + (FieldBits(c) + rest));
    Joins(FieldBits(a) + FieldBits(b), FieldBits(c), rest);
    Joins(FieldBits(a), FieldBits(b), FieldBits(c) + rest);
  }

  lemma TreeBitsAre(toks: seq<Token>, codes: seq<Codeword>)
    requires |codes| == 19 && Codable(toks)
    ensures TreeBits(toks, codes) == FieldBits(AllFields(toks, codes))
  {
  }

  // The three bits that say what follows, and the counts.
  method ReadCounts(r: BitReader, ghost nlen0: nat, ghost ndist0: nat, ghost ncode0: nat, ghost more: seq<Bit>)
    returns (last: nat, kind: nat, nlen: nat, ndist: nat, ncode: nat)
    requires r.Valid() && 257 <= nlen0 <= 286 && 1 <= ndist0 <= 30 && 4 <= ncode0 <= 19
    requires r.Ahead() == CountBits(nlen0, ndist0, ncode0, more)
    modifies r
    ensures r.Valid() && r.Ahead() == more
    ensures last == 0 && kind == 2 && nlen == nlen0 && ndist == ndist0 && ncode == ncode0
  {
    hide *;
    CountsFit(nlen0, ndist0, ncode0);
    CountBitsAre(nlen0, ndist0, ncode0, more);
    ghost var tail := LowBits(nlen0 - 257, 5) + (LowBits(ndist0 - 1, 5) + (LowBits(ncode0 - 4, 4) + more));
    r.Load();
    Enough(r, 3);
    last := TakeValue(r, 1, 0, LowBits(2, 2) + tail);
    kind := TakeValue(r, 2, 2, tail);
    r.Load();
    Enough(r, 14);
    nlen := TakeValue(r, 5, nlen0 - 257, LowBits(ndist0 - 1, 5) + (LowBits(ncode0 - 4, 4) + more));
    nlen := nlen + 257;
    ndist := TakeValue(r, 5, ndist0 - 1, LowBits(ncode0 - 4, 4) + more);
    ndist := ndist + 1;
    ncode := TakeValue(r, 4, ncode0 - 4, more);
    ncode := ncode + 4;
  }

  lemma CountBitsAre(nlen: nat, ndist: nat, ncode: nat, more: seq<Bit>)
    requires nlen >= 257 && ndist >= 1 && ncode >= 4
    ensures CountBits(nlen, ndist, ncode, more)
         == LowBits(0, 1) + (LowBits(2, 2) + (LowBits(nlen - 257, 5) + (LowBits(ndist - 1, 5) + (LowBits(ncode - 4, 4) + more))))
  {
    hide LowBits;
  }

  // The lengths of the first ranks are in their places.
  ghost predicate Placed(lens: seq<nat>, bl: seq<Codeword>, n: nat) {
    |lens| == 19 == |bl| && forall k :: 0 <= k < 19 && Place(k) < n ==> lens[k] == bl[k].bitlength
  }

  lemma PlacedNext(lens: seq<nat>, bl: seq<Codeword>, n: nat)
    requires Placed(lens, bl, n) && n < 19
    ensures Placed(lens[Order(n) := bl[Order(n)].bitlength], bl, n + 1)
  {
    hide Order, Place;
    PlaceOfOrder(n);
  }

  lemma AllPlaced(lens: seq<nat>, bl: seq<Codeword>)
    requires Placed(lens, bl, 19)
    ensures lens == LengthsSent(bl)
  {
    hide Order, Place;
  }

  lemma NonePlaced(lens: seq<nat>, bl: seq<Codeword>)
    requires |lens| == 19 == |bl|
    ensures Placed(lens, bl, 0)
  {
  }

  // The next length is one of three bits.
  lemma NextLength(bl: seq<Codeword>, i: nat, n: nat, more: seq<Bit>)
    requires |bl| == 19 && i < n <= 19 && AtMost(LengthsSent(bl), 7)
    ensures bl[Order(i)].bitlength < Pow2(3)
    ensures FieldBits(LengthFields(bl, i, n)) + more
         == LowBits(bl[Order(i)].bitlength, 3) + (FieldBits(LengthFields(bl, i + 1, n)) + more)
  {
    assert Pow2(3) == 8;
    assert LengthsSent(bl)[Order(i)] == bl[Order(i)].bitlength;
    hide *;
    FirstLength(bl, i, n);
    FieldBitsConcat([Codeword(bl[Order(i)].bitlength, 3)], LengthFields(bl, i + 1, n));
    OneFieldBits(Codeword(bl[Order(i)].bitlength, 3));
    Joins(LowBits(bl[Order(i)].bitlength, 3), FieldBits(LengthFields(bl, i + 1, n)), more);
  }

  // The lengths of the code for the lengths, put in their places; those not sent are zero.
  method ReadLengths(r: BitReader, ncode: nat, ghost bl: seq<Codeword>, ghost more: seq<Bit>) returns (lens: seq<nat>)
    requires r.Valid() && |bl| == 19 && AtMost(LengthsSent(bl), 7) && ncode == LastRankOf(bl, 18) + 1
    requires r.Ahead() == FieldBits(LengthFields(bl, 0, ncode)) + more
    modifies r
    ensures r.Valid() && r.Ahead() == more && lens == LengthsSent(bl)
  {
    hide *;
    TablesAgree();
    var dynamicLens := new nat[19];
    NonePlaced(dynamicLens[..], bl);
    var size := 0;
    while size < ncode
      invariant 0 <= size <= ncode && r.Valid() && Placed(dynamicLens[..], bl, size)
      invariant r.Ahead() == FieldBits(LengthFields(bl, size, ncode)) + more
    {
      r.Load();
      NextLength(bl, size, ncode, more);
      Enough(r, 3);
      var v := TakeValue(r, 3, bl[Order(size)].bitlength, FieldBits(LengthFields(bl, size + 1, ncode)) + more);
      PlacedNext(dynamicLens[..], bl, size);
      Put(dynamicLens, ORDER[size], v);
      size := size + 1;
    }
    NoLengths(bl, ncode);
    NoFieldBits(more);
    while size < 19
      invariant ncode <= size <= 19 && r.Valid() && r.Ahead() == more && Placed(dynamicLens[..], bl, size)
    {
      PlacedNext(dynamicLens[..], bl, size);
      Put(dynamicLens, ORDER[size], 0);
      size := size + 1;
    }
    lens := dynamicLens[..];
    AllPlaced(lens, bl);
  }

  method Put(a: array<nat>, k: nat, v: nat)
    requires k < a.Length
    modifies a
    ensures a[..] == old(a[..])[k := v]
  {
    a[k] := v;
  }

  // The whole header: the kind of the block, the counts, and the lengths of both trees, whatever
  // follows.
  method ReadTrees(r: BitReader, ghost lit: seq<nat>, ghost dist: seq<nat>, ghost bl: seq<Codeword>, ghost rest: seq<Bit>)
    returns (last: nat, kind: nat, nlen: nat, ndist: nat, lens: seq<nat>)
    requires Headed(lit, dist, bl) && r.Valid() && r.Ahead() == FieldBits(Header(lit, dist, bl)) + rest
    modifies r
    ensures r.Valid() && r.Ahead() == rest
    ensures last == 0 && kind == 2 && nlen == |lit| && ndist == |dist| && lens == lit + dist
  {
    hide *;
    HeaderBits(lit, dist, bl, rest);
    HeadedIs(lit, dist, bl);
    LimitIs(bl, lit, dist);
    ghost var toks, n := SentTokens(lit, dist), LastRankOf(bl, 18) + 1;
    ghost var behind := TreeBits(toks, bl) + rest;
    var ncode;
    last, kind, nlen, ndist, ncode := ReadCounts(r, |lit|, |dist|, n, FieldBits(LengthFields(bl, 0, n)) + behind);
    var blens := ReadLengths(r, ncode, bl, behind);
    var codeOffsets, tables := BuildComparator(blens);
    SentIs(lit, dist);
    BothMean(lit, dist);
    LengthsAre(bl);
    lens := ByteGen(r, nlen + ndist, codeOffsets, tables, toks, blens, bl, rest);
  }

  lemma LengthsAre(bl: seq<Codeword>)
    ensures |LengthsSent(bl)| == |bl|
  {
  }

  lemma LimitIs(bl: seq<Codeword>, lit: seq<nat>, dist: seq<nat>)
    requires Headed(lit, dist, bl)
    ensures AtMost(LengthsSent(bl), 7)
  {
    hide Agreed, AllHaveCodes, Codable, CodeLengthWay.Sendable;
  }

  lemma HeadedFrom(lit: seq<nat>, dist: seq<nat>, bl: seq<Codeword>)
    requires CodeLengthWay.Sendable(lit) && 257 <= |lit| <= 286 && CodeLengthWay.Sendable(dist) && |dist| <= 30
    requires |bl| == 19 && Agreed(bl) && AtMost(LengthsSent(bl), 7) && AllHaveCodes(SentTokens(lit, dist), LengthsSent(bl))
    ensures Headed(lit, dist, bl)
  {
    SentWellFormed(lit);
    SentWellFormed(dist);
    hide AllHaveCodes, Tokens, Codable, AllWellFormed, Agreed, LengthsSent;
    CodableConcat(Tokens(lit, PADDING), Tokens(dist, PADDING));
  }

  // Counted, coded by a code of their own, sent behind the counts, packed and read back: the lengths
  // of both trees return, whatever they are, if what the counting pass loses is counted elsewhere.
  method LengthsThereAndBack(lit: seq<nat>, dist: seq<nat>, width: nat, junk: nat, pad: LzCore.Byte)
    returns (bl: seq<Codeword>, nlen: nat, ndist: nat, lens: seq<nat>, r: BitReader)
    requires CodeLengthWay.Sendable(lit) && 257 <= |lit| <= 286 && CodeLengthWay.Sendable(dist) && |dist| <= 30 && width >= 9
    requires LengthsKept(lit, dist)
    ensures |bl| == LENGTH_SYMBOLS && AtMost(LengthsSent(bl), LENGTH_BITS)
    ensures nlen == |lit| && ndist == |dist| && lens == lit + dist
    ensures r.Valid() && Headed(lit, dist, bl) && EmptyBlock(|FieldBits(Header(lit, dist, bl))|) <= r.Ahead()
  {
    bl := LengthTree(lit, dist, width, junk);
    HeadedFrom(lit, dist, bl);
    hide *;
    var fields := SendTrees(lit, dist, bl);
    HeaderSizes(lit, dist, bl);
    SizedFields(fields);
    var bytes := BitPackingStream(fields);
    BytesInWords(bytes, pad);
    NotEmpty(bytes, FieldBits(fields));
    var words := BitReading.WordsOf(bytes, pad);
    ghost var rest := Rest(WordBits(words), FieldBits(fields), EmptyBlock(|FieldBits(fields)|));
    r := new BitReader(words);
    var last, kind;
    last, kind, nlen, ndist, lens := ReadTrees(r, lit, dist, bl, rest);
  }
}
