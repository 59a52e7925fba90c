// A block's literals and matches, encoded, packed, unpacked and decoded: they come back.

module DeflateRoundTrip {
  import opened Arithmetic
  import opened CanonicalCodes
  import opened BitStrings
  import opened HuffmanCodec
  import opened LzCore
  import opened BitPacking
  import opened BitReading
  import opened DeflateBlock
  import opened DeflateEncode

  // ---------- Fields carry the bits of their parts ----------

  // Trees as the encoder gets them, and the lengths they come from.
  ghost predicate Trees(c: Codes, lit: seq<Codeword>, dist: seq<Codeword>) {
    |c.lit| == |lit| == 286 && |c.dist| == |dist| == 30 && CodeTable(c.lit, lit, 286) && CodeTable(c.dist, dist, 30)
    && Feasible(c.lit, MAX_LEN) && Feasible(c.dist, MAX_LEN)
  }

  // Extra bits are sent only where there are some.
  predicate Wide(p: Part) {
    (p.LenExtra? ==> LengthBits(p.l) > 0) && (p.DistExtra? ==> DistanceBits(p.d) > 0)
  }

  lemma TableEntry(lens: seq<nat>, codes: seq<Codeword>, n: nat, k: nat)
    requires CodeTable(lens, codes, n) && HasCode(lens, k) && k < n && Feasible(lens, MAX_LEN)
    ensures k < |codes| && LowBits(codes[k].codeword, codes[k].bitlength) == CodeBits(lens, k)
    ensures 1 <= codes[k].bitlength <= 15
  {
    FeasibleAtMost(lens, k);
    hide Feasible, LowBits, Reverse, Code, Pow2;
  }

  lemma PartField(c: Codes, lit: seq<Codeword>, dist: seq<Codeword>, p: Part)
    requires Trees(c, lit, dist) && Sendable(c, p) && Wide(p)
    ensures |lit| == 286 && |dist| == 30
    ensures LowBits(FieldOf(lit, dist, p).codeword, FieldOf(lit, dist, p).bitlength) == PartBits(c, p)
    ensures 1 <= FieldOf(lit, dist, p).bitlength <= 15
  {
    match p
    case Lit(b) => TableEntry(c.lit, lit, 286, b);
    case Len(l) => TableEntry(c.lit, lit, 286, 256 + l);
    case LenExtra(l, v) => LengthBitsFew(l);
    case Dist(d) => TableEntry(c.dist, dist, 30, d);
    case DistExtra(d, v) => DistanceBitsFew(d);
    case End => TableEntry(c.lit, lit, 286, 256);
    hide LowBits, CodeBits, CodeTable, Feasible, HasCode, LengthBits, DistanceBits, Pow2;
  }

  lemma {:induction false} BodyAppend(c: Codes, parts: seq<Part>, p: Part)
    requires AllSendable(c, parts) && Sendable(c, p)
    ensures AllSendable(c, parts + [p]) && BodyBits(c, parts + [p]) == BodyBits(c, parts) + PartBits(c, p)
  {
    hide Sendable, PartBits;
    if parts == [] {
      assert [] + [p] == [p] && [p][1..] == [];
      assert PartBits(c, p) + [] == [] + PartBits(c, p);
    } else {
      BodyAppend(c, parts[1..], p);
      assert (parts + [p])[1..] == parts[1..] + [p];
      assert PartBits(c, parts[0]) + (BodyBits(c, parts[1..]) + PartBits(c, p))
          == PartBits(c, parts[0]) + BodyBits(c, parts[1..]) + PartBits(c, p);
    }
  }

  ghost predicate AllWide(parts: seq<Part>) {
    forall i :: 0 <= i < |parts| ==> Wide(parts[i])
  }

  ghost predicate FieldSizes(fields: seq<Codeword>) {
    forall i :: 0 <= i < |fields| ==> 1 <= fields[i].bitlength <= 15
  }

  lemma {:induction false} FieldsCarry(c: Codes, lit: seq<Codeword>, dist: seq<Codeword>, parts: seq<Part>)
    requires Trees(c, lit, dist) && AllSendable(c, parts) && AllWide(parts)
    ensures |lit| == 286 && |dist| == 30 && FieldSizes(FieldsOf(lit, dist, parts))
    ensures FieldBits(FieldsOf(lit, dist, parts)) == BodyBits(c, parts)
  {
    if parts != [] {
      var front, p := parts[..|parts| - 1], parts[|parts| - 1];
      FieldsCarry(c, lit, dist, front);
      assert Sendable(c, p) && Wide(p);
      PartField(c, lit, dist, p);
      FieldBitsConcat(FieldsOf(lit, dist, front), [FieldOf(lit, dist, p)]);
      OneField(FieldOf(lit, dist, p));
      assert parts == front + [p];
      BodyAppend(c, front, p);
      hide Sendable, Wide, Trees, FieldBits, BodyBits, PartBits, FieldOf, LowBits;
    }
  }

  lemma OneField(f: Codeword)
    ensures FieldBits([f]) == LowBits(f.codeword, f.bitlength)
  {
    assert [f][1..] == [];
    hide LowBits;
    assert LowBits(f.codeword, f.bitlength) + [] == LowBits(f.codeword, f.bitlength);
  }

  // ---------- Every token can be sent ----------

  // The symbols of a token have codes.
  ghost predicate Coded(c: Codes, u: LookUps, t: Item)
    requires u.Sound() && Valid(t)
  {
    if t.len == 0 then HasCode(c.lit, t.ch)
    else HasCode(c.lit, 257 + u.LengthCode(t.len)) && HasCode(c.dist, u.DistCode(t.offset))
  }

  ghost predicate AllCoded(c: Codes, u: LookUps, tokens: seq<Item>)
    requires u.Sound() && AllValid(tokens)
  {
    HasCode(c.lit, 256) && forall i :: 0 <= i < |tokens| ==> Coded(c, u, tokens[i])
  }

  lemma TokenSendable(c: Codes, u: LookUps, t: Item)
    requires u.Sound() && Valid(t) && Coded(c, u, t)
    ensures AllSendable(c, Parts(u, t)) && AllWide(Parts(u, t))
  {
    PlainIs(u, t);
    if t.len == 0 {
      LiteralSendable(c, t.ch);
      hide *;
    } else {
      LengthSendable(c, u.LengthCode(t.len), t.len);
      DistSendable(c, u.DistCode(t.offset), t.offset);
      hide *;
      BothSendable(c, LengthPart(u.LengthCode(t.len), t.len), DistPart(u.DistCode(t.offset), t.offset));
    }
  }

  lemma LiteralSendable(c: Codes, ch: nat)
    requires HasCode(c.lit, ch) && ch < 256
    ensures AllSendable(c, [Lit(ch)]) && AllWide([Lit(ch)])
  {
    hide HasCode;
  }

  lemma LengthSendable(c: Codes, lcode: nat, len: nat)
    requires LengthFits(lcode, len) && HasCode(c.lit, 257 + lcode)
    ensures AllSendable(c, LengthPart(lcode, len)) && AllWide(LengthPart(lcode, len))
  {
    hide HasCode, LengthBits, Pow2;
  }

  lemma DistSendable(c: Codes, dcode: nat, offset: nat)
    requires DistFits(dcode, offset) && HasCode(c.dist, dcode)
    ensures AllSendable(c, DistPart(dcode, offset)) && AllWide(DistPart(dcode, offset))
  {
    hide HasCode, DistanceBits, Pow2;
  }

  lemma BothSendable(c: Codes, a: seq<Part>, b: seq<Part>)
    requires AllSendable(c, a) && AllWide(a) && AllSendable(c, b) && AllWide(b)
    ensures AllSendable(c, a + b) && AllWide(a + b)
  {
    hide Sendable, Wide;
  }

  lemma {:induction false} TokensSendable(c: Codes, u: LookUps, tokens: seq<Item>)
    requires u.Sound() && AllValid(tokens) && AllCoded(c, u, tokens)
    ensures AllSendable(c, AllParts(u, tokens)) && AllWide(AllParts(u, tokens))
  {
    if tokens != [] {
      var front, t := tokens[..|tokens| - 1], tokens[|tokens| - 1];
      assert AllCoded(c, u, front) by { assert forall i :: 0 <= i < |front| ==> front[i] == tokens[i]; }
      TokensSendable(c, u, front);
      TokenSendable(c, u, t);
      BothSendable(c, AllParts(u, front), Parts(u, t));
      hide Parts, AllSendable, AllWide, Coded;
    }
  }

  lemma BlockSendable(c: Codes, u: LookUps, tokens: seq<Item>)
    requires u.Sound() && AllValid(tokens) && AllCoded(c, u, tokens)
    ensures AllSendable(c, Block(u, tokens)) && AllWide(Block(u, tokens))
  {
    TokensSendable(c, u, tokens);
    assert Sendable(c, End) && Wide(End);
    hide AllParts, Sendable, Wide;
    assert AllSendable(c, [End]) && AllWide([End]);
    BothSendable(c, AllParts(u, tokens), [End]);
  }

  // ---------- Back to tokens ----------

  // The tables of the inflater. Its offsets count from 1, those of the items from 0.
  const LBASE: seq<nat> := [0, 3, 4, 5, 6, 7, 8, 9, 10, 11, 13, 15, 17, 19, 23, 27,
                            31, 35, 43, 51, 59, 67, 83, 99, 115, 131, 163, 195, 227, 258, 0, 0]
  const DBASE: seq<nat> := [1, 2, 3, 4, 5, 7, 9, 13, 17, 25, 33, 49, 65, 97, 129, 193, 257, 385, 513, 769, 1025, 1537,
                            2049, 3073, 4097, 6145, 8193, 12289, 16385, 24577, 0, 0]

  // What the decoder's output means (section 3.2.5 of RFC 1951).
  function Meant(out: seq<nat>): seq<Item>
    decreases |out|
  {
    if out == [] then []
    else if out[0] >= 0xf000 then [Item(out[0] - 0xf000, 0, 0)] + Meant(out[1..])
    else
      var l, i := out[0], if out[0] >= 9 then 2 else 1;
      if l < 1 || l > 29 || |out| <= i then [] else
      var d, j := out[i], if out[i] >= 4 then i + 2 else i + 1;
      if d > 29 || |out| < j then [] else
      [Item(0, LBASE[l] + (if l >= 9 then out[1] else 0), DBASE[d] - 1 + if d >= 4 then out[i + 1] else 0)] + Meant(out[j..])
  }

  // A literal has no offset, a match no character.
  function Plain(t: Item): Item {
    if t.len == 0 then Item(t.ch, 0, 0) else Item(0, t.len, t.offset)
  }

  function AllPlain(tokens: seq<Item>): seq<Item> {
    if tokens == [] then [] else [Plain(tokens[0])] + AllPlain(tokens[1..])
  }

  lemma {:induction false} BodyOutConcat(a: seq<Part>, b: seq<Part>)
    ensures BodyOut(a + b) == BodyOut(a) + BodyOut(b)
  {
    if b == [] {
      assert a + b == a;
    } else {
      BodyOutConcat(a, b[..|b| - 1]);
      assert (a + b)[..|a + b| - 1] == a + b[..|b| - 1];
      hide PartOut;
    }
  }

  lemma BodyOutOne(p: Part)
    ensures BodyOut([p]) == [PartOut(p)]
  {
    assert [p][..0] == [];
  }

  lemma BodyOutTwo(p: Part, q: Part)
    ensures BodyOut([p, q]) == [PartOut(p), PartOut(q)]
  {
    assert [p, q][..1] == [p];
    BodyOutOne(p);
  }

  lemma {:induction false} AllPartsFront(u: LookUps, tokens: seq<Item>)
    requires u.Sound() && AllValid(tokens) && tokens != []
    ensures AllParts(u, tokens) == Parts(u, tokens[0]) + AllParts(u, tokens[1..])
  {
    hide Parts, Valid, LookUps.Sound;
    if |tokens| > 1 {
      AllPartsFront(u, tokens[..|tokens| - 1]);
      assert tokens[..|tokens| - 1][1..] == tokens[1..][..|tokens| - 2];
    } else {
      assert tokens[..0] == [] && tokens[1..] == [];
    }
  }

  // The outputs of one match.
  function MatchOut(l: nat, le: nat, d: nat, de: nat): seq<nat> {
    (if l >= 9 then [l, le] else [l]) + (if d >= 4 then [d, de] else [d])
  }

  lemma BaseSizes()
    ensures |BASE_LENGTH| == 29 && |BASE_DIST| == 30
  {
  }

  // The encoder's tables against the inflater's.
  lemma LengthBases(c: nat)
    requires c < 28
    ensures |BASE_LENGTH| == 29 && |LBASE| == 32 && LBASE[c + 1] == BASE_LENGTH[c] + 3
  {
    if c < 14 { LowLengthBases(c); } else { HighLengthBases(c); }
    hide BASE_LENGTH, LBASE;
  }

  lemma LowLengthBases(c: nat)
    requires c < 14
    ensures |BASE_LENGTH| == 29 && |LBASE| == 32 && LBASE[c + 1] == BASE_LENGTH[c] + 3
  {
  }

  lemma HighLengthBases(c: nat)
    requires 14 <= c < 28
    ensures |BASE_LENGTH| == 29 && |LBASE| == 32 && LBASE[c + 1] == BASE_LENGTH[c] + 3
  {
  }

  lemma DistanceBases(d: nat)
    requires d < 30
    ensures |BASE_DIST| == 30 && |DBASE| == 32 && DBASE[d] == BASE_DIST[d] + 1
  {
  }

  lemma MatchOutIs(l: nat, le: nat, d: nat, de: nat)
    ensures MatchOut(l, le, d, de) == (if l >= 9 then [l, le] else [l]) + (if d >= 4 then [d, de] else [d])
  {
  }

  lemma MeantMatch(l: nat, le: nat, d: nat, de: nat, rest: seq<nat>)
    requires 1 <= l <= 28 && d <= 29
    ensures Meant(MatchOut(l, le, d, de) + rest)
         == [Item(0, BASE_LENGTH[l - 1] + 3 + (if l >= 9 then le else 0), BASE_DIST[d] + if d >= 4 then de else 0)] + Meant(rest)
  {
    hide BASE_LENGTH, BASE_DIST, LBASE, DBASE;
    LengthBases(l - 1);
    DistanceBases(d);
    var s := MatchOut(l, le, d, de) + rest;
    var i := if l >= 9 then 2 else 1;
    var j := if d >= 4 then i + 2 else i + 1;
    assert s[0] == l && s[i] == d && |MatchOut(l, le, d, de)| == j;
    assert s[j..] == rest;
    assert l >= 9 ==> s[1] == le;
    assert d >= 4 ==> s[i + 1] == de;
  }

  lemma LengthOut(lcode: nat, len: nat)
    requires LengthFits(lcode, len)
    ensures lcode <= 27 && BASE_LENGTH[lcode] + 3 <= len
    ensures BodyOut(LengthPart(lcode, len)) == if lcode + 1 >= 9 then [lcode + 1, len - 3 - BASE_LENGTH[lcode]] else [lcode + 1]
    ensures lcode + 1 < 9 ==> len == BASE_LENGTH[lcode] + 3
  {
    ExtraFrom(lcode + 1, 0);
    NoExtraLength(lcode, len);
    BodyOutOne(Len(lcode + 1));
    BodyOutTwo(Len(lcode + 1), LenExtra(lcode + 1, len - 3 - BASE_LENGTH[lcode]));
    hide BodyOut, LengthBits, DistanceBits, Pow2;
  }

  lemma DistOut(dcode: nat, offset: nat)
    requires DistFits(dcode, offset)
    ensures dcode <= 29 && BASE_DIST[dcode] <= offset
    ensures BodyOut(DistPart(dcode, offset)) == if dcode >= 4 then [dcode, offset - BASE_DIST[dcode]] else [dcode]
    ensures dcode < 4 ==> offset == BASE_DIST[dcode]
  {
    ExtraFrom(0, dcode);
    NoExtraDistance(dcode, offset);
    BodyOutOne(Dist(dcode));
    BodyOutTwo(Dist(dcode), DistExtra(dcode, offset - BASE_DIST[dcode]));
    hide BodyOut, LengthBits, DistanceBits, Pow2;
  }

  lemma MeantToken(u: LookUps, t: Item, rest: seq<nat>)
    requires u.Sound() && Valid(t)
    ensures Meant(BodyOut(Parts(u, t)) + rest) == [Plain(t)] + Meant(rest)
  {
    hide *;
    PlainIs(u, t);
    if t.len == 0 {
      BodyOutOne(Lit(t.ch));
      MeantLiteral(t.ch, rest);
    } else {
      var lcode, dcode := u.LengthCode(t.len), u.DistCode(t.offset);
      LengthOut(lcode, t.len);
      DistOut(dcode, t.offset);
      BodyOutConcat(LengthPart(lcode, t.len), DistPart(dcode, t.offset));
      MatchMeans(lcode, t.len, dcode, t.offset, rest);
    }
  }

  lemma PlainIs(u: LookUps, t: Item)
    requires u.Sound() && Valid(t)
    ensures t.len < 256 && t.offset < 0x8000 && u.Sized()
    ensures t.len == 0 ==> Plain(t) == Item(t.ch, 0, 0) && Parts(u, t) == [Lit(t.ch)]
    ensures t.len > 0 ==> LengthFits(u.LengthCode(t.len), t.len) && DistFits(u.DistCode(t.offset), t.offset)
    ensures t.len > 0 ==> Plain(t) == Item(0, t.len, t.offset)
    ensures t.len > 0 ==> Parts(u, t) == LengthPart(u.LengthCode(t.len), t.len) + DistPart(u.DistCode(t.offset), t.offset)
  {
    hide LengthFits, DistFits, LengthPart, DistPart;
  }

  lemma MeantLiteral(ch: nat, rest: seq<nat>)
    ensures Meant([PartOut(Lit(ch))] + rest) == [Item(ch, 0, 0)] + Meant(rest)
  {
    assert ([0xf000 + ch] + rest)[1..] == rest;
  }

  lemma MatchMeans(lcode: nat, len: nat, dcode: nat, offset: nat, rest: seq<nat>)
    requires lcode <= 27 && BASE_LENGTH[lcode] + 3 <= len && dcode <= 29 && BASE_DIST[dcode] <= offset
    requires lcode + 1 < 9 ==> len == BASE_LENGTH[lcode] + 3
    requires dcode < 4 ==> offset == BASE_DIST[dcode]
    ensures Meant((if lcode + 1 >= 9 then [lcode + 1, len - 3 - BASE_LENGTH[lcode]] else [lcode + 1])
                  + (if dcode >= 4 then [dcode, offset - BASE_DIST[dcode]] else [dcode]) + rest)
         == [Item(0, len, offset)] + Meant(rest)
  {
    hide *;
    BaseSizes();
    MeantMatch(lcode + 1, len - 3 - BASE_LENGTH[lcode], dcode, offset - BASE_DIST[dcode], rest);
    MatchOutIs(lcode + 1, len - 3 - BASE_LENGTH[lcode], dcode, offset - BASE_DIST[dcode]);
  }

  lemma NoExtraLength(lcode: nat, len: nat)
    requires LengthFits(lcode, len)
    ensures LengthBits(lcode + 1) == 0 ==> len == BASE_LENGTH[lcode] + 3
  {
    hide LengthBits;
    assert Pow2(0) == 1;
  }

  lemma NoExtraDistance(dcode: nat, offset: nat)
    requires DistFits(dcode, offset)
    ensures DistanceBits(dcode) == 0 ==> offset == BASE_DIST[dcode]
  {
    hide DistanceBits;
    assert Pow2(0) == 1;
  }

  lemma {:induction false} MeantAll(u: LookUps, tokens: seq<Item>)
    requires u.Sound() && AllValid(tokens)
    ensures Meant(BodyOut(AllParts(u, tokens))) == AllPlain(tokens)
  {
    if tokens == [] {
      assert BodyOut([]) == [];
    } else {
      var rest := tokens[1..];
      MeantAll(u, rest);
      AllPartsFront(u, tokens);
      BodyOutConcat(Parts(u, tokens[0]), AllParts(u, rest));
      MeantToken(u, tokens[0], BodyOut(AllParts(u, rest)));
      hide Meant, BodyOut, AllParts, Parts, Plain;
    }
  }

  // ---------- There and back ----------

  // Fields for the header, the body and the end of the block, as bits.
  lemma BlockBits(c: Codes, u: LookUps, tokens: seq<Item>, lit: seq<Codeword>, dist: seq<Codeword>, preamble: seq<Codeword>)
    requires u.Sound() && AllValid(tokens) && Trees(c, lit, dist) && AllCoded(c, u, tokens) && FieldSizes(preamble)
    ensures |lit| == 286 && |dist| == 30 && AllSendable(c, Block(u, tokens)) && Linked(Block(u, tokens))
    ensures FieldSizes(preamble + FieldsOf(lit, dist, Block(u, tokens)))
    ensures FieldBits(preamble + FieldsOf(lit, dist, Block(u, tokens))) == FieldBits(preamble) + BodyBits(c, Block(u, tokens))
  {
    BlockSendable(c, u, tokens);
    BlockLinked(u, tokens);
    FieldsCarry(c, lit, dist, Block(u, tokens));
    FieldBitsConcat(preamble, FieldsOf(lit, dist, Block(u, tokens)));
    BothSized(preamble, FieldsOf(lit, dist, Block(u, tokens)));
    hide *;
  }

  lemma BothSized(a: seq<Codeword>, b: seq<Codeword>)
    requires FieldSizes(a) && FieldSizes(b)
    ensures FieldSizes(a + b)
  {
  }

  lemma SizedFields(fields: seq<Codeword>)
    requires FieldSizes(fields)
    ensures forall k :: 0 <= k < |fields| ==> 1 <= fields[k].bitlength <= 15
    ensures |Sizes(fields)| == |fields| && forall k :: 0 <= k < |fields| ==> Sizes(fields)[k] <= 16
  {
  }

  lemma ComesNext(c: Codes, parts: seq<Part>, rest: seq<Bit>)
    requires AllSendable(c, parts)
    ensures ToCome(BodyBits(c, parts) + rest, c, parts, 0, rest)
  {
    assert parts[0..] == parts;
  }

  lemma Serves(lens: seq<nat>, codeOffsets: array<nat>, tables: array2<nat>)
    requires Feasible(lens, MAX_LEN) && Offsets(lens, codeOffsets[..], MAX_LEN) && Filed(lens, |lens|, tables)
    ensures Served(lens, codeOffsets, tables)
  {
  }

  lemma Around(a: seq<Bit>, b: seq<Bit>, all: seq<Bit>, n: nat) returns (rest: seq<Bit>)
    requires a + b + EmptyBlock(n) <= all
    ensures all == a + (b + rest) && EmptyBlock(n) <= rest && |rest| >= 32
  {
    EmptyBlockLong(n);
    hide EmptyBlock;
    rest := Rest(all, a + b, EmptyBlock(n));
    assert a + b + rest == a + (b + rest);
  }

  lemma EmptyBlockLong(n: nat)
    ensures |EmptyBlock(n)| >= 35
  {
    hide Same;
  }

  // Header fields and block as the words the decoder gets.
  method SendBlock(u: LookUps, tokens: seq<Item>, lit: seq<Codeword>, dist: seq<Codeword>, header: seq<Codeword>, junk: Byte, ghost c: Codes)
    returns (words: seq<BitReading.Word>, ghost rest: seq<Bit>)
    requires u.Sound() && AllValid(tokens) && tokens != [] && FieldSizes(header)
    requires Trees(c, lit, dist) && AllCoded(c, u, tokens)
    ensures AllSendable(c, Block(u, tokens)) && words != []
    ensures WordBits(words) == FieldBits(header) + (BodyBits(c, Block(u, tokens)) + rest)
    ensures EmptyBlock(|FieldBits(header) + BodyBits(c, Block(u, tokens))|) <= rest && |rest| >= 32
  {
    hide *;
    BlockBits(c, u, tokens, lit, dist, header);
    TreesAre(c, lit, dist);
    var fields := HuffmanEncoderStream(u, tokens, lit, dist, header);
    SizedFields(fields);
    EndIsThere(u, tokens, lit, dist, header);
    var bytes := BitPackingStream(fields);
    BytesInWords(bytes, junk);
    NotEmpty(bytes, FieldBits(fields));
    words := BitReading.WordsOf(bytes, junk);
    rest := Around(FieldBits(header), BodyBits(c, Block(u, tokens)), WordBits(words), |FieldBits(fields)|);
  }

  // The decoder hands out the words of the block, and sees its end, exactly if the tables read every
  // symbol the block uses right; and then these words mean what the encoder was given.
  method ReadBlock(r: BitReader, litOffsets: array<nat>, litTables: array2<nat>, distOffsets: array<nat>, distTables: array2<nat>,
                   ignoreValue: nat, stale: nat, ghost c: Codes, ghost u: LookUps, ghost tokens: seq<Item>, ghost rest: seq<Bit>)
    returns (out: seq<nat>, finished: bool)
    requires u.Sound() && AllValid(tokens) && AllCoded(c, u, tokens) && |c.lit| <= 288 && |c.dist| <= 32
    requires Served(c.lit, litOffsets, litTables) && Served(c.dist, distOffsets, distTables)
    requires r.Valid() && AllSendable(c, Block(u, tokens)) && r.Ahead() == BodyBits(c, Block(u, tokens)) + rest && |rest| >= 32
    modifies r
    ensures r.Valid() && (finished && Told(out, Block(u, tokens), ignoreValue) <==> ReadsAll(c, Block(u, tokens), |Block(u, tokens)|))
    ensures finished && Told(out, Block(u, tokens), ignoreValue) ==> Meant(out[..|out| - 1]) == AllPlain(tokens) && r.Ahead() == rest
  {
    hide *;
    ghost var parts := Block(u, tokens);
    BlockLinked(u, tokens);
    ComesNext(c, parts, rest);
    EnoughAhead(r, c, parts, 0, rest);
    FillUp(r);
    out, finished := HuffmanBytegenLL(r, litOffsets, litTables, distOffsets, distTables, ignoreValue, stale, c, parts, rest);
    MeantBlock(u, tokens);
    ToldIs(out, parts, ignoreValue);
  }

  lemma TreesAre(c: Codes, lit: seq<Codeword>, dist: seq<Codeword>)
    requires Trees(c, lit, dist)
    ensures |c.lit| <= 288 && |c.dist| <= 32 && Feasible(c.lit, MAX_LEN) && Feasible(c.dist, MAX_LEN)
  {
    hide Feasible, CodeTable;
  }

  lemma ToldIs(out: seq<nat>, parts: seq<Part>, ignoreValue: nat)
    ensures Told(out, parts, ignoreValue) ==> |out| > 0 && |parts| > 0 && out[..|out| - 1] == BodyOut(parts[..|parts| - 1])
  {
    hide BodyOut;
  }

  lemma EndIsThere(u: LookUps, tokens: seq<Item>, lit: seq<Codeword>, dist: seq<Codeword>, preamble: seq<Codeword>)
    requires u.Sound() && AllValid(tokens) && |lit| == 286 && |dist| == 30
    ensures preamble + FieldsOf(lit, dist, Block(u, tokens)) != []
  {
    FieldsAppend(lit, dist, AllParts(u, tokens), End);
    hide AllParts, FieldsOf;
  }

  lemma MeantBlock(u: LookUps, tokens: seq<Item>)
    requires u.Sound() && AllValid(tokens)
    ensures |Block(u, tokens)| > 0
    ensures Meant(BodyOut(Block(u, tokens)[..|Block(u, tokens)| - 1])) == AllPlain(tokens)
  {
    MeantAll(u, tokens);
    hide AllParts, Meant, BodyOut, AllPlain;
    assert Block(u, tokens)[..|Block(u, tokens)| - 1] == AllParts(u, tokens);
  }
}
