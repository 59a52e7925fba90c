// The body of a compressed block: what the encoder sends for literals and matches, and the
// low-latency decoder that takes one code or one run of extra bits from the bit buffer per step.

module DeflateBlock {
  import opened Arithmetic
  import opened CanonicalCodes
  import opened BitStrings
  import opened HuffmanCodec
  import opened BitReading

  // Extra bits by length code and by distance code.
  const EXTRA_LBITS: seq<nat> := [0, 0, 0, 0, 0, 0, 0, 0, 1, 1, 1, 1, 2, 2, 2, 2, 3, 3, 3, 3, 4, 4, 4, 4, 5, 5, 5, 5, 0]
  const EXTRA_DBITS: seq<nat> := [0, 0, 0, 0, 1, 1, 2, 2, 3, 3, 4, 4, 5, 5, 6, 6, 7, 7, 8, 8, 9, 9, 10, 10, 11, 11, 12, 12, 13, 13]

  // The decoder's tables count length symbols from 256.
  const LEXT: seq<nat> := [0, 0, 0, 0, 0, 0, 0, 0, 0, 1, 1, 1, 1, 2, 2, 2, 2, 3, 3, 3, 3, 4, 4, 4, 4, 5, 5, 5, 5, 0, 13, 10]
  const DEXT: seq<nat> := [0, 0, 0, 0, 1, 1, 2, 2, 3, 3, 4, 4, 5, 5, 6, 6, 7, 7, 8, 8, 9, 9, 10, 10, 11, 11, 12, 12, 13, 13, 0, 0]

  function LengthBits(l: nat): nat {
    if l < |LEXT| then LEXT[l] else 0
  }

  function DistanceBits(d: nat): nat {
    if d < |DEXT| then DEXT[d] else 0
  }

  lemma LengthBitsFew(l: nat)
    ensures LengthBits(l) <= 13
  {
    assert forall i :: 0 <= i < |LEXT| ==> LEXT[i] <= 13;
  }

  lemma DistanceBitsFew(d: nat)
    ensures DistanceBits(d) <= 13
  {
    assert forall i :: 0 <= i < |DEXT| ==> DEXT[i] <= 13;
  }

  // ---------- What a block consists of ----------

  // l counts length symbols from 256: symbol 257 is l == 1.
  datatype Part = Lit(b: nat) | Len(l: nat) | LenExtra(l: nat, v: nat) | Dist(d: nat) | DistExtra(d: nat, v: nat) | End

  // Which part may follow which. Length symbols from 265 on, and distance symbols from 4 on, are
  // followed by extra bits, perhaps none.
  predicate Fits(prev: Part, next: Part) {
    match prev
    case Len(l) => if l >= 9 then next.LenExtra? && next.l == l else next.Dist?
    case LenExtra(l, _) => next.Dist?
    case Dist(d) => if d >= 4 then next.DistExtra? && next.d == d else Starts(next)
    case End => false
    case _ => Starts(next)
  }

  predicate Starts(p: Part) {
    p.Lit? || p.Len? || p.End?
  }

  predicate Linked(parts: seq<Part>) {
    parts != [] && Starts(parts[0]) && parts[|parts| - 1] == End
    && forall i :: 0 <= i < |parts| - 1 ==> Fits(parts[i], parts[i + 1])
  }

  // ---------- Bits ----------

  // The two codes of a block.
  datatype Codes = Codes(lit: seq<nat>, dist: seq<nat>)

  ghost predicate HasCode(lens: seq<nat>, k: nat) {
    k < |lens| && lens[k] > 0 && Code(lens, k) < Pow2(lens[k])
  }

  ghost predicate Sendable(c: Codes, p: Part) {
    match p
    case Lit(b) => b < 256 && HasCode(c.lit, b)
    case Len(l) => 1 <= l <= 29 && HasCode(c.lit, 256 + l)
    case LenExtra(l, v) => v < Pow2(LengthBits(l))
    case Dist(d) => d <= 29 && HasCode(c.dist, d)
    case DistExtra(d, v) => v < Pow2(DistanceBits(d))
    case End => HasCode(c.lit, 256)
  }

  ghost predicate AllSendable(c: Codes, parts: seq<Part>) {
    forall i :: 0 <= i < |parts| ==> Sendable(c, parts[i])
  }

  ghost function PartBits(c: Codes, p: Part): seq<Bit>
    requires Sendable(c, p)
  {
    match p
    case Lit(b) => CodeBits(c.lit, b)
    case Len(l) => CodeBits(c.lit, 256 + l)
    case LenExtra(l, v) => LowBits(v, LengthBits(l))
    case Dist(d) => CodeBits(c.dist, d)
    case DistExtra(d, v) => LowBits(v, DistanceBits(d))
    case End => CodeBits(c.lit, 256)
  }

  ghost function BodyBits(c: Codes, parts: seq<Part>): seq<Bit>
    requires AllSendable(c, parts)
  {
    if parts == [] then [] else PartBits(c, parts[0]) + BodyBits(c, parts[1..])
  }

  // ---------- The decoder's output ----------

  // A literal is marked in the high byte; lengths and distances come as symbol and extra bits.
  function PartOut(p: Part): nat {
    match p
    case Lit(b) => 0xf000 + b
    case Len(l) => l
    case LenExtra(_, v) => v
    case Dist(d) => d
    case DistExtra(_, v) => v
    case End => 0
  }

  function BodyOut(parts: seq<Part>): seq<nat> {
    if parts == [] then [] else BodyOut(parts[..|parts| - 1]) + [PartOut(parts[|parts| - 1])]
  }

  lemma BodyOutStep(parts: seq<Part>, i: nat)
    requires i < |parts|
    ensures BodyOut(parts[..i + 1]) == BodyOut(parts[..i]) + [PartOut(parts[i])]
  {
    assert parts[..i + 1][..i] == parts[..i];
  }

  // ---------- Tables ----------

  // The comparator's tables for one code.
  ghost predicate Served(lens: seq<nat>, codeOffsets: array<nat>, tables: array2<nat>)
    reads codeOffsets, tables
  {
    Feasible(lens, MAX_LEN) && Offsets(lens, codeOffsets[..], MAX_LEN) && Filed(lens, |lens|, tables)
  }

  lemma ServedOpens(lens: seq<nat>, codeOffsets: array<nat>, tables: array2<nat>)
    requires Served(lens, codeOffsets, tables)
    ensures Feasible(lens, MAX_LEN) && AtMost(lens, MAX_LEN) && Offsets(lens, codeOffsets[..], MAX_LEN) && Filed(lens, |lens|, tables)
  {
    hide Offsets, Filed, First, AtMost;
  }

  // What the buffer shows begins with the code, so the comparator finds symbol and length.
  lemma ShownStarts(lens: seq<nat>, k: nat, v: nat, n: nat, words: seq<BitReading.Word>, more: seq<Bit>)
    requires HasCode(lens, k) && Feasible(lens, MAX_LEN) && n >= 16
    requires LowBits(v, n) + WordBits(words) == CodeBits(lens, k) + more
    ensures lens[k] <= 15 && StartsWith(LowBits(v, 15), lens, k)
  {
    CodeBitsStart(lens, k, MAX_LEN, more);
    LowBitsPrefix(v, 15, n);
    FeasibleAtMost(lens, k);
    PrefixStarts(lens, k, LowBits(v, n) + WordBits(words), LowBits(v, n)[..15]);
  }

  lemma FeasibleAtMost(lens: seq<nat>, k: nat)
    requires Feasible(lens, MAX_LEN) && k < |lens|
    ensures lens[k] <= 15
  {
  }

  // Look without taking. If a code comes next, its length is found, and the symbol its slot holds.
  method Peek(r: BitReader, codeOffsets: array<nat>, tables: array2<nat>, ghost lens: seq<nat>,
              ghost known: bool, ghost k: nat, ghost more: seq<Bit>)
    returns (currentBits: nat, symbol: nat)
    requires r.Valid() && r.bitsCntr >= 16 && Served(lens, codeOffsets, tables)
    requires known ==> HasCode(lens, k) && r.Ahead() == CodeBits(lens, k) + more
    ensures 1 <= currentBits <= 15
    ensures known ==> k < |lens| && currentBits == lens[k] && symbol == ReadAs(lens, k)
  {
    hide *;
    Opened(r);
    ServedOpens(lens, codeOffsets, tables);
    MaxIs();
    if known {
      ShownStarts(lens, k, r.bitbuffer, r.bitsCntr, r.words, more);
      HasCodeIs(lens, k);
    }
    currentBits, symbol := Compare(LowBits(r.bitbuffer, 15), 15, codeOffsets, tables, lens);
  }

  lemma HasCodeIs(lens: seq<nat>, k: nat)
    requires HasCode(lens, k)
    ensures k < |lens| && lens[k] > 0 && Code(lens, k) < Pow2(lens[k]) && |CodeBits(lens, k)| == lens[k]
  {
    hide Code, Pow2;
  }

  lemma MaxIs()
    ensures MAX_LEN == 15
  {
  }

  // ---------- huffmanBytegenLL ----------

  // What the flags say about the part decoded last, and so about the next one.
  predicate At(parts: seq<Part>, i: nat, isDistance: bool, isExtra: bool, val0: nat, val1: nat)
    requires i <= |parts|
  {
    if i == 0 then !isDistance && !isExtra else
      match parts[i - 1]
      case Len(l) => isDistance && (isExtra <==> l >= 9) && val0 == l
      case LenExtra(_, _) => isDistance && !isExtra
      case Dist(d) => !isDistance && (isExtra <==> d >= 4) && val1 == d
      case _ => !isDistance && !isExtra
  }

  lemma NextPart(parts: seq<Part>, i: nat, isDistance: bool, isExtra: bool, val0: nat, val1: nat)
    requires Linked(parts) && i < |parts| && At(parts, i, isDistance, isExtra, val0, val1)
    ensures isExtra && isDistance ==> parts[i].LenExtra? && parts[i].l == val0
    ensures isExtra && !isDistance ==> parts[i].DistExtra? && parts[i].d == val1
    ensures !isExtra && isDistance ==> parts[i].Dist?
    ensures !isExtra && !isDistance ==> parts[i].Lit? || parts[i].Len? || parts[i].End?
    ensures parts[i].End? <==> i + 1 == |parts|
  {
    if i > 0 { assert Fits(parts[i - 1], parts[i]); }
    if i + 1 < |parts| { assert Fits(parts[i], parts[i + 1]); }
  }

  // What is still to come: the rest of the block and what is behind it.
  ghost predicate ToCome(ahead: seq<Bit>, c: Codes, parts: seq<Part>, i: nat, rest: seq<Bit>) {
    i <= |parts| && AllSendable(c, parts[i..]) && ahead == BodyBits(c, parts[i..]) + rest
  }

  lemma ComesFirst(ahead: seq<Bit>, c: Codes, parts: seq<Part>, i: nat, rest: seq<Bit>) returns (more: seq<Bit>)
    requires ToCome(ahead, c, parts, i, rest) && i < |parts|
    ensures Sendable(c, parts[i]) && ahead == PartBits(c, parts[i]) + more
    ensures ToCome(more, c, parts, i + 1, rest) && |more| >= |rest|
  {
    hide Sendable, PartBits;
    var later := parts[i + 1..];
    assert parts[i..][0] == parts[i] && parts[i..][1..] == later;
    forall j | 0 <= j < |later| ensures Sendable(c, later[j]) { assert parts[i..][j + 1] == later[j]; }
    more := BodyBits(c, parts[i + 1..]) + rest;
    assert PartBits(c, parts[i]) + BodyBits(c, parts[i + 1..]) + rest == PartBits(c, parts[i]) + more;
  }

  lemma NothingComes(ahead: seq<Bit>, c: Codes, parts: seq<Part>, rest: seq<Bit>)
    requires ToCome(ahead, c, parts, |parts|, rest)
    ensures ahead == rest
  {
    assert parts[|parts|..] == [] && [] + rest == rest;
  }

  lemma DropFront(a: seq<Bit>, b: seq<Bit>)
    ensures (a + b)[|a|..] == b && (a + b)[..|a|] == a
  {
  }

  // Extra bits are taken from the buffer.
  method TakeExtra(r: BitReader, n: nat, ghost known: bool, ghost v: nat, ghost more: seq<Bit>) returns (x: nat)
    requires r.Valid() && r.bitsCntr >= 16 && n <= 13
    requires known ==> v < Pow2(n) && r.Ahead() == LowBits(v, n) + more
    modifies r
    ensures r.Valid() && |r.Ahead()| <= |old(r.Ahead())| && r.done == old(r.done)
    ensures known ==> r.Ahead() == more && x == v
  {
    hide *;
    Opened(r);
    x := r.Take(n);
    if known {
      DropFront(LowBits(v, n), more);
      SameBits(x, v, n);
    }
    SameDone(r);
  }

  lemma Discarded(r: BitReader, n: nat)
    requires r.Valid() && n <= r.bitsCntr
    ensures n <= |r.Ahead()| && |r.Ahead()[n..]| == |r.Ahead()| - n && (r.done <==> r.words == [])
  {
    hide LowBits, Pow2;
  }

  lemma SameDone(r: BitReader)
    requires r.Valid()
    ensures r.done <==> r.words == []
  {
    hide LowBits, Pow2;
  }

  // The buffer is filled up again; with 32 bits or more to come it then holds at least 16.
  method FillUp(r: BitReader)
    requires r.Valid() && |r.Ahead()| >= 32
    modifies r
    ensures r.Valid() && r.Ahead() == old(r.Ahead()) && r.bitsCntr >= 16 && !r.done
  {
    hide *;
    r.Load();
    IsFull(r);
    StillWords(r);
  }

  lemma StillWords(r: BitReader)
    requires r.Valid() && |r.Ahead()| >= 32
    ensures !r.done && |r.Ahead()| > r.bitsCntr
  {
    hide LowBits, Pow2;
  }

  // Whether the tables hold the symbol itself where its code points.
  ghost predicate ReadsPart(c: Codes, p: Part)
    requires Sendable(c, p)
  {
    match p
    case Dist(d) => ReadAs(c.dist, d) == d
    case LenExtra(_, _) => true
    case DistExtra(_, _) => true
    case _ => ReadAs(c.lit, SymbolOf(p)) == SymbolOf(p)
  }

  ghost predicate ReadsAll(c: Codes, parts: seq<Part>, n: nat)
    requires AllSendable(c, parts) && n <= |parts|
  {
    forall i :: 0 <= i < n ==> ReadsPart(c, parts[i])
  }

  // What the decoder hands out for a block.
  predicate Told(out: seq<nat>, parts: seq<Part>, ignoreValue: nat) {
    && |out| == |parts| > 0 && out[..|out| - 1] == BodyOut(parts[..|parts| - 1])
    && out[|out| - 1] / 256 == ignoreValue
  }

  // The decoder's registers between two steps.
  datatype Regs = Regs(isDistance: bool, isExtra: bool, val0: nat, val1: nat, tmpVal: nat, finished: bool)

  // The registers expect the part p.
  predicate Expects(g: Regs, p: Part) {
    && g.isExtra == (p.LenExtra? || p.DistExtra?) && g.isDistance == (p.LenExtra? || p.Dist?)
    && (p.LenExtra? ==> p.l == g.val0) && (p.DistExtra? ==> p.d == g.val1)
  }

  // The registers after p has been read right.
  predicate HasRead(g: Regs, p: Part, ignoreValue: nat) {
    && g.finished == p.End?
    && (p.End? ==> g.tmpVal / 256 == ignoreValue)
    && (!p.End? ==> g.tmpVal == PartOut(p))
    && match p
       case Len(l) => g.isDistance && (g.isExtra <==> l >= 9) && g.val0 == l
       case LenExtra(_, _) => g.isDistance && !g.isExtra
       case Dist(d) => !g.isDistance && (g.isExtra <==> d >= 4) && g.val1 == d
       case _ => !g.isDistance && !g.isExtra
  }

  // The registers after p has been read as something else: the end is missed or comes too early, or
  // the value handed out is another one.
  predicate HasMisread(g: Regs, p: Part) {
    if p.End? then !g.finished else g.finished || g.tmpVal != PartOut(p)
  }

  predicate Small(g: Regs) {
    g.val0 < 32 && g.val1 < 32
  }

  // The part to come, if it is known.
  ghost predicate Comes(r: BitReader, c: Codes, p: Part, more: seq<Bit>)
    reads r
  {
    Sendable(c, p) && r.Ahead() == PartBits(c, p) + more
  }

  // A code for a literal, a length or the end.
  method ReadLitCode(r: BitReader, g0: Regs, litOffsets: array<nat>, litTables: array2<nat>, ignoreValue: nat,
                     ghost c: Codes, ghost known: bool, ghost p: Part, ghost more: seq<Bit>)
    returns (g: Regs)
    requires r.Valid() && r.bitsCntr >= 16 && Served(c.lit, litOffsets, litTables) && |c.lit| <= 288 && Small(g0)
    requires !g0.isExtra && !g0.isDistance && !g0.finished && (known ==> Comes(r, c, p, more) && Expects(g0, p))
    modifies r
    ensures r.Valid() && |r.Ahead()| < |old(r.Ahead())| && r.done == old(r.done) && Small(g)
    ensures known ==> r.Ahead() == more && (if ReadsPart(c, p) then HasRead(g, p, ignoreValue) else HasMisread(g, p))
  {
    hide *;
    ghost var k: nat := 0;
    if known {
      k := SymbolOf(p);
      CodeComes(r, c, p, more, g0);
    }
    var bits, symbol := Peek(r, litOffsets, litTables, c.lit, known, k, more);
    g := LitStep(g0, symbol, ignoreValue);
    LitStepIs(g0, symbol, ignoreValue);
    if known {
      LitStepReads(g0, c, p, ignoreValue, symbol);
      CodeTaken(c.lit, k, more);
    }
    Discarded(r, bits);
    r.Discard(bits);
    SameDone(r);
  }

  function LitStep(g: Regs, symbol: nat, ignoreValue: nat): Regs {
    if symbol < 256 then g.(tmpVal := 0xf000 + symbol, isExtra := false)
    else if symbol == 256 then g.(finished := true, tmpVal := 256 * ignoreValue + g.tmpVal % 256)
    else g.(isDistance := true, val0 := symbol % 32, isExtra := symbol % 32 >= 9, tmpVal := symbol % 32)
  }

  lemma LitStepIs(g: Regs, symbol: nat, ignoreValue: nat)
    requires Small(g)
    ensures Small(LitStep(g, symbol, ignoreValue))
  {
  }

  lemma LitStepReads(g: Regs, c: Codes, p: Part, ignoreValue: nat, symbol: nat)
    requires Sendable(c, p) && Expects(g, p) && !g.isExtra && !g.isDistance && !g.finished && |c.lit| <= 288
    requires SymbolOf(p) < |c.lit| && symbol == ReadAs(c.lit, SymbolOf(p))
    ensures var g' := LitStep(g, symbol, ignoreValue);
            if ReadsPart(c, p) then HasRead(g', p, ignoreValue) else HasMisread(g', p)
  {
    hide HasCode, ReadAs;
    assert symbol < |c.lit|;
  }

  lemma CodeComes(r: BitReader, c: Codes, p: Part, more: seq<Bit>, g: Regs)
    requires Comes(r, c, p, more) && Expects(g, p) && !g.isExtra
    ensures Sendable(c, p)
    ensures !g.isDistance ==> HasCode(c.lit, SymbolOf(p)) && SymbolOf(p) < |c.lit| && r.Ahead() == CodeBits(c.lit, SymbolOf(p)) + more
    ensures g.isDistance ==> p.Dist? && HasCode(c.dist, p.d) && p.d < |c.dist| && r.Ahead() == CodeBits(c.dist, p.d) + more
  {
    hide CodeBits, LowBits, Pow2;
  }

  lemma CodeTaken(lens: seq<nat>, k: nat, more: seq<Bit>)
    requires HasCode(lens, k)
    ensures k < |lens| && (CodeBits(lens, k) + more)[lens[k]..] == more
  {
    HasCodeIs(lens, k);
    hide CodeBits, HasCode;
  }

  // A code for a distance.
  method ReadDistCode(r: BitReader, g0: Regs, distOffsets: array<nat>, distTables: array2<nat>,
                      ghost c: Codes, ghost known: bool, ghost p: Part, ghost more: seq<Bit>, ghost ignoreValue: nat)
    returns (g: Regs)
    requires r.Valid() && r.bitsCntr >= 16 && Served(c.dist, distOffsets, distTables) && |c.dist| <= 32 && Small(g0)
    requires !g0.isExtra && g0.isDistance && !g0.finished && (known ==> Comes(r, c, p, more) && Expects(g0, p))
    modifies r
    ensures r.Valid() && |r.Ahead()| < |old(r.Ahead())| && r.done == old(r.done) && Small(g)
    ensures known ==> r.Ahead() == more && (if ReadsPart(c, p) then HasRead(g, p, ignoreValue) else HasMisread(g, p))
  {
    hide *;
    ghost var k: nat := 0;
    if known {
      CodeComes(r, c, p, more, g0);
      k := p.d;
    }
    var bits, symbol := Peek(r, distOffsets, distTables, c.dist, known, k, more);
    g := DistStep(g0, symbol);
    DistStepIs(g0, symbol);
    if known {
      DistStepReads(g0, c, p, symbol, ignoreValue);
      CodeTaken(c.dist, k, more);
    }
    Discarded(r, bits);
    r.Discard(bits);
    SameDone(r);
  }

  function DistStep(g: Regs, symbol: nat): Regs {
    g.(isDistance := false, val1 := symbol % 32, isExtra := symbol % 32 >= 4, tmpVal := symbol % 32)
  }

  lemma DistStepIs(g: Regs, symbol: nat)
    requires Small(g)
    ensures Small(DistStep(g, symbol))
  {
  }

  lemma DistStepReads(g: Regs, c: Codes, p: Part, symbol: nat, ignoreValue: nat)
    requires Sendable(c, p) && p.Dist? && !g.finished && |c.dist| <= 32 && p.d < |c.dist| && symbol == ReadAs(c.dist, p.d)
    ensures if ReadsPart(c, p) then HasRead(DistStep(g, symbol), p, ignoreValue) else HasMisread(DistStep(g, symbol), p)
  {
    hide HasCode, ReadAs;
    assert symbol < |c.dist|;
  }

  // Extra bits behind a length or a distance.
  method ReadExtra(r: BitReader, g0: Regs, ghost c: Codes, ghost known: bool, ghost p: Part, ghost more: seq<Bit>, ghost ignoreValue: nat)
    returns (g: Regs)
    requires r.Valid() && r.bitsCntr >= 16 && Small(g0)
    requires g0.isExtra && !g0.finished && (known ==> Comes(r, c, p, more) && Expects(g0, p))
    modifies r
    ensures r.Valid() && |r.Ahead()| <= |old(r.Ahead())| && r.done == old(r.done) && Small(g) && !g.isExtra
    ensures known ==> r.Ahead() == more && ReadsPart(c, p) && HasRead(g, p, ignoreValue)
  {
    hide *;
    ghost var v: nat := 0;
    if known {
      ExtraComes(r, c, p, more, g0);
      v := p.v;
    }
    LengthBitsFew(g0.val0);
    DistanceBitsFew(g0.val1);
    var x := TakeExtra(r, if g0.isDistance then LengthBits(g0.val0) else DistanceBits(g0.val1), known, v, more);
    g := g0.(isExtra := false, tmpVal := x);
    StaysSmall(g0, g);
    if known { ExtraRead(g0, c, p, x, ignoreValue); }
  }

  lemma StaysSmall(g: Regs, g': Regs)
    requires Small(g) && g'.val0 == g.val0 && g'.val1 == g.val1
    ensures Small(g')
  {
  }

  lemma ExtraComes(r: BitReader, c: Codes, p: Part, more: seq<Bit>, g: Regs)
    requires Comes(r, c, p, more) && Expects(g, p) && g.isExtra
    ensures Sendable(c, p) && (p.LenExtra? || p.DistExtra?)
    ensures var n := if g.isDistance then LengthBits(g.val0) else DistanceBits(g.val1);
            p.v < Pow2(n) && r.Ahead() == LowBits(p.v, n) + more
  {
    hide LowBits, Pow2, LengthBits, DistanceBits;
  }

  lemma ExtraRead(g: Regs, c: Codes, p: Part, x: nat, ignoreValue: nat)
    requires Sendable(c, p) && Expects(g, p) && g.isExtra && !g.finished && (p.LenExtra? || p.DistExtra?) && x == p.v
    ensures ReadsPart(c, p) && HasRead(g.(isExtra := false, tmpVal := x), p, ignoreValue)
  {
    hide LengthBits, DistanceBits, Pow2;
  }

  // The words handed out can no longer become those of the block.
  ghost predicate Astray(out: seq<nat>, parts: seq<Part>, finished: bool) {
    || |out| > |parts| || (|out| == |parts| && !finished) || (finished && |out| < |parts|)
    || exists j :: 0 <= j < |out| && j + 1 < |parts| && out[j] != PartOut(parts[j])
  }

  lemma StaysAstray(out: seq<nat>, parts: seq<Part>, v: nat, finished: bool)
    requires Astray(out, parts, false)
    ensures Astray(out + [v], parts, finished)
  {
    hide PartOut;
    if exists j :: 0 <= j < |out| && j + 1 < |parts| && out[j] != PartOut(parts[j]) {
      var j :| 0 <= j < |out| && j + 1 < |parts| && out[j] != PartOut(parts[j]);
      assert (out + [v])[j] == out[j];
    }
  }

  lemma GoesAstray(out: seq<nat>, parts: seq<Part>, i: nat, g: Regs)
    requires i < |parts| && |out| == i && HasMisread(g, parts[i]) && (parts[i].End? <==> i + 1 == |parts|)
    ensures Astray(out + [g.tmpVal], parts, g.finished)
  {
    hide PartOut;
    assert (out + [g.tmpVal])[i] == g.tmpVal;
  }

  lemma {:induction false} BodyOutAt(parts: seq<Part>, j: nat)
    requires j < |parts|
    ensures |BodyOut(parts)| == |parts| && BodyOut(parts)[j] == PartOut(parts[j])
  {
    hide PartOut;
    var z := |parts| - 1;
    if z > 0 { BodyOutAt(parts[..z], if j < z then j else 0); }
  }

  lemma AstrayNotTold(out: seq<nat>, parts: seq<Part>, finished: bool, ignoreValue: nat)
    requires Astray(out, parts, finished)
    ensures !(finished && Told(out, parts, ignoreValue))
  {
    hide PartOut, BodyOut;
    if finished && Told(out, parts, ignoreValue) {
      var j :| 0 <= j < |out| && j + 1 < |parts| && out[j] != PartOut(parts[j]);
      ToldAt(out, parts, ignoreValue, j);
      assert false;
    }
  }

  lemma ToldAt(out: seq<nat>, parts: seq<Part>, ignoreValue: nat, j: nat)
    requires Told(out, parts, ignoreValue) && j + 1 < |parts|
    ensures out[j] == PartOut(parts[j])
  {
    hide PartOut, BodyOut;
    var n := |parts| - 1;
    BodyOutAt(parts[..n], j);
    assert out[..n][j] == out[j] && parts[..n][j] == parts[j];
  }

  // The first i parts have been read right, and part i comes next.
  ghost predicate OnCourse(ahead: seq<Bit>, g: Regs, out: seq<nat>, c: Codes, parts: seq<Part>, i: nat, rest: seq<Bit>, ignoreValue: nat)
    requires AllSendable(c, parts)
  {
    && i <= |parts| && (g.finished <==> i == |parts|) && ToCome(ahead, c, parts, i, rest)
    && ReadsAll(c, parts, i) && |out| == i
    && (if g.finished then Told(out, parts, ignoreValue)
        else out == BodyOut(parts[..i]) && At(parts, i, g.isDistance, g.isExtra, g.val0, g.val1))
  }

  lemma CourseNext(r: BitReader, g: Regs, out: seq<nat>, c: Codes, parts: seq<Part>, i: nat, rest: seq<Bit>, ignoreValue: nat)
    returns (more: seq<Bit>)
    requires Linked(parts) && AllSendable(c, parts) && OnCourse(r.Ahead(), g, out, c, parts, i, rest, ignoreValue) && !g.finished
    ensures i < |parts| && |out| == i && Comes(r, c, parts[i], more) && Expects(g, parts[i]) && (parts[i].End? <==> i + 1 == |parts|)
    ensures ToCome(more, c, parts, i + 1, rest)
    ensures Sendable(c, parts[i]) && ReadsAll(c, parts, i) && out == BodyOut(parts[..i])
  {
    hide Linked, Fits, Sendable, PartBits, BodyOut, ReadsPart, ToCome;
    NextPart(parts, i, g.isDistance, g.isExtra, g.val0, g.val1);
    more := ComesFirst(r.Ahead(), c, parts, i, rest);
  }

  lemma CourseKept(r: BitReader, g: Regs, out: seq<nat>, c: Codes, parts: seq<Part>, i: nat, rest: seq<Bit>, ignoreValue: nat)
    requires AllSendable(c, parts) && i < |parts| && (parts[i].End? <==> i + 1 == |parts|)
    requires ToCome(r.Ahead(), c, parts, i + 1, rest) && ReadsAll(c, parts, i) && Sendable(c, parts[i]) && ReadsPart(c, parts[i])
    requires |out| == i && out == BodyOut(parts[..i]) && HasRead(g, parts[i], ignoreValue)
    ensures OnCourse(r.Ahead(), g, out + [g.tmpVal], c, parts, i + 1, rest, ignoreValue)
  {
    hide Sendable, ReadsPart, BodyOut, ToCome, PartOut;
    BodyOutStep(parts, i);
    if i + 1 == |parts| {
      assert (out + [g.tmpVal])[..i] == out;
    }
  }

  lemma CourseEnds(r: BitReader, g: Regs, out: seq<nat>, c: Codes, parts: seq<Part>, i: nat, rest: seq<Bit>, ignoreValue: nat)
    requires AllSendable(c, parts) && OnCourse(r.Ahead(), g, out, c, parts, i, rest, ignoreValue)
    ensures g.finished ==> i == |parts| && r.Ahead() == rest && ReadsAll(c, parts, |parts|) && Told(out, parts, ignoreValue)
  {
    hide AllSendable, ReadsAll, Told, BodyOut;
    if g.finished { NothingComes(r.Ahead(), c, parts, rest); }
  }

  // Refilled, the register holds 16 bits again, unless the last word was in it already.
  method Refilled(r: BitReader)
    requires r.Valid() && !r.done
    modifies r
    ensures r.Valid() && r.Ahead() == old(r.Ahead()) && r.bitsCntr >= 16
    ensures |r.Ahead()| >= 32 ==> !r.done
  {
    hide *;
    r.Load();
    Opened(r);
    if |r.Ahead()| >= 32 { StillWords(r); }
  }

  // One step of the decoder.
  method DecodePart(r: BitReader, g0: Regs, litOffsets: array<nat>, litTables: array2<nat>, distOffsets: array<nat>, distTables: array2<nat>,
                    ignoreValue: nat, ghost c: Codes, ghost known: bool, ghost p: Part, ghost more: seq<Bit>)
    returns (g: Regs)
    requires r.Valid() && r.bitsCntr >= 16 && Served(c.lit, litOffsets, litTables) && Served(c.dist, distOffsets, distTables)
    requires |c.lit| <= 288 && |c.dist| <= 32 && Small(g0) && !g0.finished && (known ==> Comes(r, c, p, more) && Expects(g0, p))
    modifies r
    ensures r.Valid() && r.done == old(r.done) && Small(g)
    ensures |r.Ahead()| < |old(r.Ahead())| || (|r.Ahead()| == |old(r.Ahead())| && g0.isExtra && !g.isExtra)
    ensures known ==> r.Ahead() == more && Sendable(c, p)
    ensures known ==> if ReadsPart(c, p) then HasRead(g, p, ignoreValue) else HasMisread(g, p)
  {
    hide *;
    if known { ComesSendable(r, c, p, more); }
    if g0.isExtra {
      g := ReadExtra(r, g0, c, known, p, more, ignoreValue);
    } else if g0.isDistance {
      g := ReadDistCode(r, g0, distOffsets, distTables, c, known, p, more, ignoreValue);
    } else {
      g := ReadLitCode(r, g0, litOffsets, litTables, ignoreValue, c, known, p, more);
    }
  }

  lemma ComesSendable(r: BitReader, c: Codes, p: Part, more: seq<Bit>)
    requires Comes(r, c, p, more)
    ensures Sendable(c, p)
  {
    hide Sendable;
  }

  // On the bits of a block, whatever follows: the words handed out are those of the block, and its
  // end is seen, exactly if the tables read every symbol of the block right. Then only the block's
  // bits are taken. In any case the loop ends.
  method HuffmanBytegenLL(r: BitReader, litOffsets: array<nat>, litTables: array2<nat>, distOffsets: array<nat>, distTables: array2<nat>,
                          ignoreValue: nat, junk: nat, ghost c: Codes, ghost parts: seq<Part>, ghost rest: seq<Bit>)
    returns (out: seq<nat>, finished: bool)
    requires r.Valid() && r.bitsCntr >= 16 && Served(c.lit, litOffsets, litTables) && Served(c.dist, distOffsets, distTables)
    requires |c.lit| <= 288 && |c.dist| <= 32 && AllSendable(c, parts)
    requires Linked(parts) && ToCome(r.Ahead(), c, parts, 0, rest) && |rest| >= 32
    modifies r
    ensures r.Valid()
    ensures finished && Told(out, parts, ignoreValue) <==> ReadsAll(c, parts, |parts|)
    ensures ReadsAll(c, parts, |parts|) ==> r.Ahead() == rest
  {
    hide *;
    out := [];
    var g := Regs(false, false, 0, 0, junk, false);
    ghost var i: nat, lost: bool := 0, false;
    CourseStarts(r, g, c, parts, rest, ignoreValue);
    while !g.finished && !r.done
      invariant r.Valid() && Small(g) && (!r.done ==> r.bitsCntr >= 16)
      invariant !lost ==> !r.done && OnCourse(r.Ahead(), g, out, c, parts, i, rest, ignoreValue)
      invariant lost ==> Astray(out, parts, g.finished) && !ReadsAll(c, parts, |parts|)
      decreases |r.Ahead()|, g.isExtra
    {
      ghost var p, more := End, [];
      if !lost {
        more := CourseNext(r, g, out, c, parts, i, rest, ignoreValue);
        p := parts[i];
      }
      g := DecodePart(r, g, litOffsets, litTables, distOffsets, distTables, ignoreValue, c, !lost, p, more);
      if lost {
        StaysAstray(out, parts, g.tmpVal, g.finished);
      } else if ReadsPart(c, p) {
        CourseKept(r, g, out, c, parts, i, rest, ignoreValue);
        EnoughAhead(r, c, parts, i + 1, rest);
      } else {
        GoesAstray(out, parts, i, g);
        NotAllRead(c, parts, i);
        lost := true;
      }
      out := out + [g.tmpVal];
      i := i + 1;
      Refilled(r);
    }
    finished := g.finished;
    if lost {
      AstrayNotTold(out, parts, finished, ignoreValue);
    } else {
      CourseEnds(r, g, out, c, parts, i, rest, ignoreValue);
    }
  }

  // The literal or length symbol of a part.
  function SymbolOf(p: Part): nat {
    match p
    case Lit(b) => b
    case Len(l) => 256 + l
    case _ => 256
  }

  lemma CourseStarts(r: BitReader, g: Regs, c: Codes, parts: seq<Part>, rest: seq<Bit>, ignoreValue: nat)
    requires Linked(parts) && AllSendable(c, parts) && r.Valid() && ToCome(r.Ahead(), c, parts, 0, rest) && |rest| >= 32
    requires !g.isDistance && !g.isExtra && !g.finished && g.val0 == 0 == g.val1
    ensures OnCourse(r.Ahead(), g, [], c, parts, 0, rest, ignoreValue) && Small(g) && !r.done
  {
    hide ToCome, BodyBits, PartBits, Sendable;
    EnoughAhead(r, c, parts, 0, rest);
    StillWords(r);
    assert BodyOut(parts[..0]) == [];
  }

  lemma NotAllRead(c: Codes, parts: seq<Part>, i: nat)
    requires AllSendable(c, parts) && i < |parts| && !ReadsPart(c, parts[i])
    ensures !ReadsAll(c, parts, |parts|)
  {
  }

  lemma EnoughAhead(r: BitReader, c: Codes, parts: seq<Part>, i: nat, rest: seq<Bit>)
    requires ToCome(r.Ahead(), c, parts, i, rest) && |rest| >= 32
    ensures |r.Ahead()| >= 32
  {
    hide BodyBits;
  }
}
