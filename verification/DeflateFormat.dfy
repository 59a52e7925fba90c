// The length and distance codes of section 3.2.5 of RFC 1951, by the rule behind its tables, and the
// tables of encoder and decoders against it.

module DeflateFormat {
  import opened Arithmetic
  import opened DeflateBlock
  import opened DeflateEncode
  import opened DeflateRoundTrip
  import opened DeflateTables
  import opened TableDecoder

  // The number of extra bits of length symbol 257 + c: none for the first eight, then four symbols
  // for every number of bits, and none for the last symbol.
  function LengthExtra(c: nat): nat {
    if c < 8 || c >= 28 then 0 else c / 4 - 1
  }

  // The least length of symbol 257 + c. Each symbol starts where the one before ends, except that the
  // last one has the greatest length for itself.
  function LengthFrom(c: nat): nat {
    if c == 0 then 3 else if c >= 28 then 258 else LengthFrom(c - 1) + Pow2(LengthExtra(c - 1))
  }

  // The number of extra bits of distance symbol d: none for the first four, then two symbols each.
  function DistanceExtra(d: nat): nat {
    if d < 4 then 0 else d / 2 - 1
  }

  function DistanceFrom(d: nat): nat {
    if d == 0 then 1 else DistanceFrom(d - 1) + Pow2(DistanceExtra(d - 1))
  }

  lemma ExtraOfLength(c: nat)
    requires c <= 28
    ensures |EXTRA_LBITS| == 29 && |LEXT| == |LENGTH_EXTRA| == 32
    ensures EXTRA_LBITS[c] == LEXT[c + 1] == LengthExtra(c) && LENGTH_EXTRA[c] == 16 + LengthExtra(c)
  {
  }

  lemma ExtraOfDistance(d: nat)
    requires d <= 29
    ensures |EXTRA_DBITS| == 30 && |DEXT| == |DIST_EXTRA| == 32
    ensures EXTRA_DBITS[d] == DEXT[d] == DistanceExtra(d) && DIST_EXTRA[d] == 16 + DistanceExtra(d)
  {
  }

  lemma SameLengthBase(c: nat)
    requires c <= 28
    ensures |LBASE| == |LENGTH_BASE| == 32 && LBASE[c + 1] == LENGTH_BASE[c] && LBASE[1] == 3 && LBASE[29] == 258
  {
  }

  lemma SameDistanceBase(d: nat)
    requires d <= 29
    ensures |DBASE| == |DIST_BASE| == 32 && DBASE[d] == DIST_BASE[d] && DBASE[0] == 1
  {
  }

  // All tables say of a length symbol what the format says.
  lemma {:induction false} LengthsByFormat(c: nat)
    requires c <= 28
    ensures |LBASE| == |LEXT| == |LENGTH_BASE| == |LENGTH_EXTRA| == 32 && |BASE_LENGTH| == |EXTRA_LBITS| == 29
    ensures LBASE[c + 1] == LENGTH_BASE[c] == LengthFrom(c) && (c < 28 ==> BASE_LENGTH[c] + 3 == LengthFrom(c))
    ensures EXTRA_LBITS[c] == LEXT[c + 1] == LengthExtra(c) && LENGTH_EXTRA[c] == 16 + LengthExtra(c)
  {
    ExtraOfLength(c);
    SameLengthBase(c);
    LengthTableSize();
    if c < 28 { LengthBases(c); }
    if 0 < c < 28 {
      LengthsByFormat(c - 1);
      LengthSteps(c - 1);
      LengthBitsIs(c);
    }
    hide Pow2, LengthExtra, LengthBits, LBASE, LENGTH_BASE, BASE_LENGTH, EXTRA_LBITS, LEXT, LENGTH_EXTRA;
  }

  lemma LengthTableSize()
    ensures |BASE_LENGTH| == 29
  {
  }

  lemma LengthBitsIs(l: nat)
    requires l < |LEXT|
    ensures LengthBits(l) == LEXT[l]
  {
    hide LEXT;
  }

  // And of a distance symbol.
  lemma {:induction false} DistancesByFormat(d: nat)
    requires d <= 29
    ensures |DBASE| == |DEXT| == |DIST_BASE| == |DIST_EXTRA| == 32 && |BASE_DIST| == |EXTRA_DBITS| == 30
    ensures DBASE[d] == DIST_BASE[d] == BASE_DIST[d] + 1 == DistanceFrom(d)
    ensures EXTRA_DBITS[d] == DEXT[d] == DistanceExtra(d) && DIST_EXTRA[d] == 16 + DistanceExtra(d)
  {
    ExtraOfDistance(d);
    SameDistanceBase(d);
    DistanceBases(d);
    if d > 0 {
      DistancesByFormat(d - 1);
      DistSteps(d - 1);
      DistanceBitsIs(d - 1);
    }
    hide Pow2, DistanceExtra, DistanceBits, DBASE, DIST_BASE, BASE_DIST, EXTRA_DBITS, DEXT, DIST_EXTRA;
  }

  lemma DistanceBitsIs(d: nat)
    requires d < |DEXT|
    ensures DistanceBits(d) == DEXT[d]
  {
    hide DEXT;
  }
}
