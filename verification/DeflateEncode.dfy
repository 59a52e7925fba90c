// From literals and matches to fields: the encoder's state machine, and the way back from the
// fields to the literals and matches through the bit buffer and the comparator decoder.

module DeflateEncode {
  import opened Arithmetic
  import opened HuffmanCodec
  import opened DeflateBlock

  // A literal, or a match when its length is not zero.
  datatype Item = Item(ch: nat, len: nat, offset: nat)

  predicate Valid(t: Item) {
    t.ch < 256 && (t.len == 0 || 3 <= t.len <= 255) && t.offset < 0x8000
  }

  const BASE_LENGTH: seq<nat> := [0, 1, 2, 3, 4, 5, 6, 7, 8, 10, 12, 14, 16, 20, 24, 28, 32, 40, 48, 56, 64, 80, 96, 112, 128, 160, 192, 224, 0]
  const BASE_DIST: seq<nat> := [0, 1, 2, 3, 4, 6, 8, 12, 16, 24, 32, 48, 64, 96, 128, 192, 256, 384, 512, 768,
    1024, 1536, 2048, 3072, 4096, 6144, 8192, 12288, 16384, 24576]

  // The tables that give the code of a length and of a distance.
  datatype LookUps = LookUps(lengthCode: seq<nat>, distCode: seq<nat>) {
    predicate Sized() {
      |lengthCode| == 259 && |distCode| == 512
    }

    function LengthCode(len: nat): nat
      requires Sized() && len < 256
    {
      lengthCode[len]
    }

    function DistCode(offset: nat): nat
      requires Sized() && offset < 0x8000
    {
      if offset < 256 then distCode[offset] else distCode[256 + offset / 128]
    }

    // Base value and extra bits reach the value.
    ghost predicate Sound() {
      Sized()
      && (forall len {:trigger LengthCode(len)} :: 3 <= len <= 255 ==> LengthFits(LengthCode(len), len))
      && (forall offset {:trigger DistCode(offset)} :: 0 <= offset < 0x8000 ==> DistFits(DistCode(offset), offset))
    }
  }

  predicate LengthFits(lcode: nat, len: nat) {
    lcode <= 27 && BASE_LENGTH[lcode] + 3 <= len < BASE_LENGTH[lcode] + 3 + Pow2(LengthBits(lcode + 1))
  }

  predicate DistFits(dcode: nat, offset: nat) {
    dcode <= 29 && BASE_DIST[dcode] <= offset < BASE_DIST[dcode] + Pow2(DistanceBits(dcode))
  }

  // ---------- Parts of a token ----------

  function LengthPart(lcode: nat, len: nat): seq<Part>
    requires LengthFits(lcode, len)
  {
    if LengthBits(lcode + 1) > 0 then [Len(lcode + 1), LenExtra(lcode + 1, len - 3 - BASE_LENGTH[lcode])] else [Len(lcode + 1)]
  }

  function DistPart(dcode: nat, offset: nat): seq<Part>
    requires DistFits(dcode, offset)
  {
    if DistanceBits(dcode) > 0 then [Dist(dcode), DistExtra(dcode, offset - BASE_DIST[dcode])] else [Dist(dcode)]
  }

  ghost function Parts(u: LookUps, t: Item): seq<Part>
    requires u.Sound() && Valid(t)
  {
    if t.len == 0 then [Lit(t.ch)]
    else LengthPart(u.LengthCode(t.len), t.len) + DistPart(u.DistCode(t.offset), t.offset)
  }

  ghost predicate AllValid(tokens: seq<Item>) {
    forall i :: 0 <= i < |tokens| ==> Valid(tokens[i])
  }

  ghost function AllParts(u: LookUps, tokens: seq<Item>): seq<Part>
    requires u.Sound() && AllValid(tokens)
  {
    if tokens == [] then [] else AllParts(u, tokens[..|tokens| - 1]) + Parts(u, tokens[|tokens| - 1])
  }

  ghost function Block(u: LookUps, tokens: seq<Item>): seq<Part>
    requires u.Sound() && AllValid(tokens)
  {
    AllParts(u, tokens) + [End]
  }

  // Extra bits are there just for the symbols the decoder expects them for.
  lemma ExtraFrom(l: nat, d: nat)
    ensures 1 <= l <= 28 ==> (LengthBits(l) > 0 <==> l >= 9)
    ensures d <= 29 ==> (DistanceBits(d) > 0 <==> d >= 4)
  {
    if 1 <= l <= 28 { LengthExtraFrom(l - 1); }
    if d <= 29 { DistanceExtraFrom(d); }
    hide LengthBits, DistanceBits;
  }

  lemma LengthExtraFrom(i: nat)
    requires i < 28
    ensures LengthBits(i + 1) > 0 <==> i >= 8
  {
    assert LEXT[i + 1] == EXTRA_LBITS[i];
    assert EXTRA_LBITS[i] > 0 <==> i >= 8;
  }

  lemma DistanceExtraFrom(i: nat)
    requires i < 30
    ensures DistanceBits(i) > 0 <==> i >= 4
  {
    assert DEXT[i] == EXTRA_DBITS[i];
    assert EXTRA_DBITS[i] > 0 <==> i >= 4;
  }

  // Parts that may follow each other, ending where the next token may start.
  ghost predicate Chained(parts: seq<Part>) {
    && (parts != [] ==> Starts(parts[0]) && forall next :: Starts(next) ==> Fits(parts[|parts| - 1], next))
    && forall i :: 0 <= i < |parts| - 1 ==> Fits(parts[i], parts[i + 1])
  }

  lemma TokenChained(u: LookUps, t: Item)
    requires u.Sound() && Valid(t)
    ensures Chained(Parts(u, t)) && Parts(u, t) != []
  {
    if t.len > 0 {
      var lcode, dcode := u.LengthCode(t.len), u.DistCode(t.offset);
      assert LengthFits(lcode, t.len) && DistFits(dcode, t.offset);
      ExtraFrom(lcode + 1, dcode);
      hide LengthBits, DistanceBits, Pow2;
      MatchChained(LengthPart(lcode, t.len), DistPart(dcode, t.offset), lcode + 1, dcode);
    }
  }

  lemma MatchChained(a: seq<Part>, b: seq<Part>, l: nat, d: nat)
    requires if l >= 9 then |a| == 2 && a[0] == Len(l) && a[1].LenExtra? && a[1].l == l else a == [Len(l)]
    requires if d >= 4 then |b| == 2 && b[0] == Dist(d) && b[1].DistExtra? && b[1].d == d else b == [Dist(d)]
    ensures Chained(a + b)
  {
    var s := a + b;
    forall i | 0 <= i < |s| - 1 ensures Fits(s[i], s[i + 1]) {
      if l >= 9 {
        assert i == 0 || i == 1 || i == 2;
      } else {
        assert i == 0 || i == 1;
      }
    }
  }

  lemma ChainedConcat(a: seq<Part>, b: seq<Part>)
    requires Chained(a) && Chained(b)
    ensures Chained(a + b)
  {
    hide Fits, Starts;
    if a == [] {
      assert a + b == b;
    } else if b == [] {
      assert a + b == a;
    } else {
      var s := a + b;
      forall i | 0 <= i < |s| - 1 ensures Fits(s[i], s[i + 1]) {
        if i + 1 < |a| {
          assert s[i] == a[i] && s[i + 1] == a[i + 1];
        } else if i + 1 == |a| {
          assert s[i] == a[|a| - 1] && s[i + 1] == b[0];
        } else {
          assert s[i] == b[i - |a|] && s[i + 1] == b[i - |a| + 1];
        }
      }
      assert s[|s| - 1] == b[|b| - 1];
    }
  }

  lemma {:induction false} AllChained(u: LookUps, tokens: seq<Item>)
    requires u.Sound() && AllValid(tokens)
    ensures Chained(AllParts(u, tokens))
  {
    if tokens != [] {
      AllChained(u, tokens[..|tokens| - 1]);
      TokenChained(u, tokens[|tokens| - 1]);
      ChainedConcat(AllParts(u, tokens[..|tokens| - 1]), Parts(u, tokens[|tokens| - 1]));
    }
  }

  lemma BlockLinked(u: LookUps, tokens: seq<Item>)
    requires u.Sound() && AllValid(tokens)
    ensures Linked(Block(u, tokens))
  {
    AllChained(u, tokens);
    hide AllParts, Fits;
    var a := AllParts(u, tokens);
    var s := a + [End];
    assert Starts(End);
    forall i | 0 <= i < |s| - 1 ensures Fits(s[i], s[i + 1]) {
      if i + 1 < |a| { assert s[i] == a[i] && s[i + 1] == a[i + 1]; } else { assert s[i] == a[|a| - 1]; }
    }
  }

  // ---------- Fields ----------

  function FieldOf(lit: seq<Codeword>, dist: seq<Codeword>, p: Part): Codeword
    requires |lit| == 286 && |dist| == 30
  {
    match p
    case Lit(b) => if b < 286 then lit[b] else Codeword(0, 0)
    case Len(l) => if l < 30 then lit[256 + l] else Codeword(0, 0)
    case LenExtra(l, v) => Codeword(v, LengthBits(l))
    case Dist(d) => if d < 30 then dist[d] else Codeword(0, 0)
    case DistExtra(d, v) => Codeword(v, DistanceBits(d))
    case End => lit[256]
  }

  function FieldsOf(lit: seq<Codeword>, dist: seq<Codeword>, parts: seq<Part>): seq<Codeword>
    requires |lit| == 286 && |dist| == 30
  {
    if parts == [] then [] else FieldsOf(lit, dist, parts[..|parts| - 1]) + [FieldOf(lit, dist, parts[|parts| - 1])]
  }

  lemma FieldsAppend(lit: seq<Codeword>, dist: seq<Codeword>, parts: seq<Part>, p: Part)
    requires |lit| == 286 && |dist| == 30
    ensures FieldsOf(lit, dist, parts + [p]) == FieldsOf(lit, dist, parts) + [FieldOf(lit, dist, p)]
  {
    assert (parts + [p])[..|parts|] == parts;
  }

  // ---------- huffmanEncoderStream ----------

  datatype State = WriteToken | MlDistRep | MlExtra | DistRep | DistExtraBits

  function Rank(s: State): nat {
    match s
    case WriteToken => 0
    case MlDistRep => 4
    case MlExtra => 3
    case DistRep => 2
    case DistExtraBits => 1
  }

  // Parts of a match sent before a state.
  ghost function SoFar(u: LookUps, t: Item, s: State): seq<Part>
    requires u.Sound() && Valid(t) && t.len > 0
  {
    match s
    case WriteToken => Parts(u, t)
    case MlDistRep => []
    case MlExtra => [Len(u.LengthCode(t.len) + 1)]
    case DistRep => LengthPart(u.LengthCode(t.len), t.len)
    case DistExtraBits => LengthPart(u.LengthCode(t.len), t.len) + [Dist(u.DistCode(t.offset))]
  }

  lemma MatchParts(u: LookUps, t: Item)
    requires u.Sound() && Valid(t) && t.len > 0
    ensures var lcode := u.LengthCode(t.len); lcode <= 27 && BASE_LENGTH[lcode] + 3 <= t.len && EXTRA_LBITS[lcode] == LengthBits(lcode + 1)
    ensures var dcode := u.DistCode(t.offset); dcode <= 29 && BASE_DIST[dcode] <= t.offset && EXTRA_DBITS[dcode] == DistanceBits(dcode)
  {
    assert LengthFits(u.LengthCode(t.len), t.len) && DistFits(u.DistCode(t.offset), t.offset);
    SameExtra();
    hide Pow2;
  }

  lemma SameExtra()
    ensures forall i :: 0 <= i < 29 ==> EXTRA_LBITS[i] == LengthBits(i + 1)
    ensures forall i :: 0 <= i < 30 ==> EXTRA_DBITS[i] == DistanceBits(i)
  {
    assert |LEXT| == 32 && |DEXT| == 32;
  }

  lemma Ranks()
    ensures Rank(WriteToken) < Rank(DistExtraBits) < Rank(DistRep) < Rank(MlExtra) < Rank(MlDistRep)
  {
  }

  // What each state sends, and the state it leads to.
  lemma SendsLength(u: LookUps, t: Item)
    requires u.Sound() && Valid(t) && t.len > 0
    ensures var lcode := u.LengthCode(t.len);
      SoFar(u, t, MlDistRep) + [Len(lcode + 1)] == SoFar(u, t, if LengthBits(lcode + 1) > 0 then MlExtra else DistRep)
  {
    assert LengthFits(u.LengthCode(t.len), t.len);
  }

  lemma SendsLengthExtra(u: LookUps, t: Item)
    requires u.Sound() && Valid(t) && t.len > 0 && LengthBits(u.LengthCode(t.len) + 1) > 0
    ensures var lcode := u.LengthCode(t.len);
      lcode <= 27 && BASE_LENGTH[lcode] + 3 <= t.len
      && SoFar(u, t, MlExtra) + [LenExtra(lcode + 1, t.len - 3 - BASE_LENGTH[lcode])] == SoFar(u, t, DistRep)
  {
    assert LengthFits(u.LengthCode(t.len), t.len);
  }

  lemma SendsDistance(u: LookUps, t: Item)
    requires u.Sound() && Valid(t) && t.len > 0
    ensures var dcode := u.DistCode(t.offset);
      SoFar(u, t, DistRep) + [Dist(dcode)] == SoFar(u, t, if DistanceBits(dcode) > 0 then DistExtraBits else WriteToken)
  {
    assert LengthFits(u.LengthCode(t.len), t.len) && DistFits(u.DistCode(t.offset), t.offset);
    hide LengthPart;
  }

  lemma SendsDistanceExtra(u: LookUps, t: Item)
    requires u.Sound() && Valid(t) && t.len > 0 && DistanceBits(u.DistCode(t.offset)) > 0
    ensures var dcode := u.DistCode(t.offset);
      dcode <= 29 && BASE_DIST[dcode] <= t.offset
      && SoFar(u, t, DistExtraBits) + [DistExtra(dcode, t.offset - BASE_DIST[dcode])] == SoFar(u, t, WriteToken)
  {
    assert LengthFits(u.LengthCode(t.len), t.len) && DistFits(u.DistCode(t.offset), t.offset);
    var a := LengthPart(u.LengthCode(t.len), t.len);
    hide LengthPart;
    var d, e := Dist(u.DistCode(t.offset)), DistExtra(u.DistCode(t.offset), t.offset - BASE_DIST[u.DistCode(t.offset)]);
    assert a + [d] + [e] == a + [d, e];
  }

  // The fields sent: those passed through, then those of some parts.
  ghost predicate Emitted(fields: seq<Codeword>, preamble: seq<Codeword>, lit: seq<Codeword>, dist: seq<Codeword>, parts: seq<Part>) {
    |lit| == 286 && |dist| == 30 && fields == preamble + FieldsOf(lit, dist, parts)
  }

  lemma Emit(fields: seq<Codeword>, preamble: seq<Codeword>, lit: seq<Codeword>, dist: seq<Codeword>,
             before: seq<Part>, parts: seq<Part>, p: Part)
    requires Emitted(fields, preamble, lit, dist, before + parts)
    ensures Emitted(fields + [FieldOf(lit, dist, p)], preamble, lit, dist, before + (parts + [p]))
  {
    FieldsAppend(lit, dist, before + parts, p);
    hide FieldsOf, FieldOf;
    assert before + (parts + [p]) == before + parts + [p];
  }

  // Tokens read so far, the last perhaps not yet done.
  ghost predicate Underway(u: LookUps, tokens: seq<Item>, i: nat, s: State, fields: seq<Codeword>, preamble: seq<Codeword>,
                           lit: seq<Codeword>, dist: seq<Codeword>)
    requires u.Sound() && AllValid(tokens)
  {
    i <= |tokens|
    && if s.WriteToken? then Emitted(fields, preamble, lit, dist, AllParts(u, tokens[..i]) + [])
       else i > 0 && Valid(tokens[i - 1]) && tokens[i - 1].len > 0
            && Emitted(fields, preamble, lit, dist, AllParts(u, tokens[..i - 1]) + SoFar(u, tokens[i - 1], s))
  }

  // One field more, and the state after it.
  lemma SendsField(u: LookUps, tokens: seq<Item>, i: nat, s: State, fields: seq<Codeword>, preamble: seq<Codeword>,
                   lit: seq<Codeword>, dist: seq<Codeword>, p: Part, next: State)
    requires u.Sound() && AllValid(tokens) && Underway(u, tokens, i, s, fields, preamble, lit, dist)
    requires !s.WriteToken? && SoFar(u, tokens[i - 1], s) + [p] == SoFar(u, tokens[i - 1], next)
    ensures |lit| == 286 && |dist| == 30 && Underway(u, tokens, i, next, fields + [FieldOf(lit, dist, p)], preamble, lit, dist)
  {
    Emit(fields, preamble, lit, dist, AllParts(u, tokens[..i - 1]), SoFar(u, tokens[i - 1], s), p);
    if next.WriteToken? { PartsOfNext(u, tokens, i - 1); }
    hide AllParts, SoFar, Emitted, FieldOf;
  }

  lemma PartsOfNext(u: LookUps, tokens: seq<Item>, i: nat)
    requires u.Sound() && AllValid(tokens) && i < |tokens|
    ensures AllParts(u, tokens[..i]) + Parts(u, tokens[i]) == AllParts(u, tokens[..i + 1]) + []
  {
    assert tokens[..i + 1][..i] == tokens[..i];
    hide Parts;
  }

  // The next token is read: a literal is sent at once.
  lemma StartsToken(u: LookUps, tokens: seq<Item>, i: nat, fields: seq<Codeword>, preamble: seq<Codeword>,
                    lit: seq<Codeword>, dist: seq<Codeword>)
    requires u.Sound() && AllValid(tokens) && Underway(u, tokens, i, WriteToken, fields, preamble, lit, dist) && i < |tokens|
    ensures Valid(tokens[i]) && |lit| == 286 && |dist| == 30
    ensures tokens[i].len > 0 ==> Underway(u, tokens, i + 1, MlDistRep, fields, preamble, lit, dist)
    ensures tokens[i].len == 0 ==>
      Underway(u, tokens, i + 1, WriteToken, fields + [FieldOf(lit, dist, Lit(tokens[i].ch))], preamble, lit, dist)
  {
    if tokens[i].len == 0 {
      Emit(fields, preamble, lit, dist, AllParts(u, tokens[..i]), [], Lit(tokens[i].ch));
      assert [] + [Lit(tokens[i].ch)] == Parts(u, tokens[i]);
      PartsOfNext(u, tokens, i);
    }
    hide AllParts, Emitted, FieldOf;
  }

  lemma Underway0(u: LookUps, tokens: seq<Item>, preamble: seq<Codeword>, lit: seq<Codeword>, dist: seq<Codeword>)
    requires u.Sound() && AllValid(tokens) && |lit| == 286 && |dist| == 30
    ensures Underway(u, tokens, 0, WriteToken, preamble, preamble, lit, dist)
  {
    assert preamble + [] == preamble;
  }

  lemma AllSent(u: LookUps, tokens: seq<Item>, fields: seq<Codeword>, preamble: seq<Codeword>, lit: seq<Codeword>, dist: seq<Codeword>)
    requires u.Sound() && AllValid(tokens) && Underway(u, tokens, |tokens|, WriteToken, fields, preamble, lit, dist)
    ensures |lit| == 286 && |dist| == 30 && fields + [lit[256]] == preamble + FieldsOf(lit, dist, Block(u, tokens))
  {
    hide *;
    assert tokens[..|tokens|] == tokens;
    LastEmitted(u, tokens, fields, preamble, lit, dist);
    var parts := AllParts(u, tokens);
    FieldsAppend(lit, dist, parts, End);
    EndField(u, tokens, lit, dist);
    assert preamble + (FieldsOf(lit, dist, parts) + [lit[256]]) == preamble + FieldsOf(lit, dist, parts) + [lit[256]];
  }

  lemma LastEmitted(u: LookUps, tokens: seq<Item>, fields: seq<Codeword>, preamble: seq<Codeword>, lit: seq<Codeword>, dist: seq<Codeword>)
    requires u.Sound() && AllValid(tokens) && tokens[..|tokens|] == tokens
    requires Underway(u, tokens, |tokens|, WriteToken, fields, preamble, lit, dist)
    ensures |lit| == 286 && |dist| == 30 && fields == preamble + FieldsOf(lit, dist, AllParts(u, tokens))
  {
    hide AllParts, FieldsOf, AllValid, Valid, LookUps.Sound, Parts, SoFar;
    assert AllParts(u, tokens) + [] == AllParts(u, tokens);
  }

  lemma EndField(u: LookUps, tokens: seq<Item>, lit: seq<Codeword>, dist: seq<Codeword>)
    requires u.Sound() && AllValid(tokens) && |lit| == 286 && |dist| == 30
    ensures Block(u, tokens) == AllParts(u, tokens) + [End] && FieldOf(lit, dist, End) == lit[256]
  {
  }

  // The codes come from the trees, the extra bits from the values; the end of the block comes last.
  method HuffmanEncoderStream(u: LookUps, tokens: seq<Item>, lit: seq<Codeword>, dist: seq<Codeword>, preamble: seq<Codeword>)
    returns (fields: seq<Codeword>)
    requires u.Sound() && AllValid(tokens) && tokens != [] && |lit| == 286 && |dist| == 30
    ensures fields == preamble + FieldsOf(lit, dist, Block(u, tokens))
  {
    hide *;
    fields := preamble;
    Underway0(u, tokens, preamble, lit, dist);
    SoundIsSized(u);
    Ranks();
    var nextState, done, i: nat := WriteToken, false, 0;
    var tLen: nat, tOffset: nat, lcode: nat, dcode: nat := 0, 0, 0, 0;
    while true
      invariant i <= |tokens| && (done <==> i == |tokens|) && Underway(u, tokens, i, nextState, fields, preamble, lit, dist)
      invariant !nextState.WriteToken? ==> i > 0 && Valid(tokens[i - 1]) && Match(u, tokens[i - 1], lcode, dcode, tLen, tOffset)
      invariant nextState.MlExtra? ==> LengthBits(lcode + 1) > 0
      invariant nextState.DistExtraBits? ==> DistanceBits(dcode) > 0
      decreases |tokens| - i, Rank(nextState)
    {
      match nextState {
        case WriteToken =>
          if done { break; }
          StartsToken(u, tokens, i, fields, preamble, lit, dist);
          var t := tokens[i];
          i := i + 1;
          if i == |tokens| { done := true; }
          TokenIs(u, t);
          tLen, tOffset := t.len, t.offset;
          dcode := u.DistCode(tOffset);
          lcode := u.LengthCode(tLen);
          if tLen > 0 {
            nextState := MlDistRep;
          } else {
            FieldIs(lit, dist, t.ch, 0, 0, 0);
            fields := fields + [lit[t.ch]];
          }
        case MlDistRep =>
          MatchOpens(u, tokens[i - 1], lcode, dcode, tLen, tOffset);
          SendsLength(u, tokens[i - 1]);
          FieldIs(lit, dist, 0, lcode, dcode, 0);
          var next := if EXTRA_LBITS[lcode] > 0 then MlExtra else DistRep;
          SendsField(u, tokens, i, nextState, fields, preamble, lit, dist, Len(lcode + 1), next);
          fields := fields + [lit[lcode + 257]];
          nextState := next;
        case DistRep =>
          MatchOpens(u, tokens[i - 1], lcode, dcode, tLen, tOffset);
          SendsDistance(u, tokens[i - 1]);
          FieldIs(lit, dist, 0, lcode, dcode, 0);
          var next := if EXTRA_DBITS[dcode] > 0 then DistExtraBits else WriteToken;
          SendsField(u, tokens, i, nextState, fields, preamble, lit, dist, Dist(dcode), next);
          fields := fields + [dist[dcode]];
          nextState := next;
        case MlExtra =>
          MatchOpens(u, tokens[i - 1], lcode, dcode, tLen, tOffset);
          SendsLengthExtra(u, tokens[i - 1]);
          FieldIs(lit, dist, 0, lcode, dcode, tLen - 3 - BASE_LENGTH[lcode]);
          SendsField(u, tokens, i, nextState, fields, preamble, lit, dist, LenExtra(lcode + 1, tLen - 3 - BASE_LENGTH[lcode]), DistRep);
          fields := fields + [Codeword((tLen - (BASE_LENGTH[lcode] + 3)) % 256, EXTRA_LBITS[lcode])];
          nextState := DistRep;
        case DistExtraBits =>
          MatchOpens(u, tokens[i - 1], lcode, dcode, tLen, tOffset);
          SendsDistanceExtra(u, tokens[i - 1]);
          FieldIs(lit, dist, 0, lcode, dcode, tOffset - BASE_DIST[dcode]);
          SendsField(u, tokens, i, nextState, fields, preamble, lit, dist, DistExtra(dcode, tOffset - BASE_DIST[dcode]), WriteToken);
          fields := fields + [Codeword((tOffset - BASE_DIST[dcode]) % 0x1_0000, EXTRA_DBITS[dcode])];
          nextState := WriteToken;
      }
    }
    AllSent(u, tokens, fields, preamble, lit, dist);
    fields := fields + [lit[256]];
  }

  // The registers hold the match being sent.
  ghost predicate Match(u: LookUps, t: Item, lcode: nat, dcode: nat, tLen: nat, tOffset: nat) {
    u.Sound() && Valid(t) && t.len > 0 && tLen == t.len && tOffset == t.offset && lcode == u.LengthCode(t.len) && dcode == u.DistCode(t.offset)
  }

  lemma MatchOpens(u: LookUps, t: Item, lcode: nat, dcode: nat, tLen: nat, tOffset: nat)
    requires Match(u, t, lcode, dcode, tLen, tOffset)
    ensures u.Sound() && Valid(t) && t.len > 0 && tLen == t.len < 256 && tOffset == t.offset < 0x8000
    ensures u.Sized() && lcode == u.LengthCode(t.len) && dcode == u.DistCode(t.offset)
    ensures lcode <= 27 && |BASE_LENGTH| == |EXTRA_LBITS| == 29 && BASE_LENGTH[lcode] + 3 <= tLen && EXTRA_LBITS[lcode] == LengthBits(lcode + 1)
    ensures dcode <= 29 && |BASE_DIST| == |EXTRA_DBITS| == 30 && BASE_DIST[dcode] <= tOffset && EXTRA_DBITS[dcode] == DistanceBits(dcode)
  {
    MatchParts(u, t);
  }

  lemma SoundIsSized(u: LookUps)
    requires u.Sound()
    ensures u.Sized()
  {
  }

  lemma TokenIs(u: LookUps, t: Item)
    requires u.Sound() && Valid(t)
    ensures u.Sized() && t.ch < 256 && t.len < 256 && t.offset < 0x8000
    ensures t.len > 0 ==> Match(u, t, u.LengthCode(t.len), u.DistCode(t.offset), t.len, t.offset)
  {
  }

  lemma FieldIs(lit: seq<Codeword>, dist: seq<Codeword>, b: nat, lcode: nat, dcode: nat, v: nat)
    requires |lit| == 286 && |dist| == 30 && b < 256 && lcode <= 27 && dcode <= 29
    ensures FieldOf(lit, dist, Lit(b)) == lit[b] && FieldOf(lit, dist, Len(lcode + 1)) == lit[lcode + 257]
    ensures FieldOf(lit, dist, LenExtra(lcode + 1, v)) == Codeword(v, LengthBits(lcode + 1))
    ensures FieldOf(lit, dist, Dist(dcode)) == dist[dcode] && FieldOf(lit, dist, DistExtra(dcode, v)) == Codeword(v, DistanceBits(dcode))
  {
    hide LengthBits, DistanceBits;
  }
}
