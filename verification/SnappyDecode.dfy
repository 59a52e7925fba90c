// The Snappy decoder: a state machine that looks at one byte per cycle, and at a copy tag twice.

module SnappyDecode {
  import opened LzCore
  import opened Lz4Format
  import opened SnappyFormat

  datatype State = ReadToken | ReadLiteral | ReadLitLen60 | ReadLitLen61 | ReadLitLen61Cont
                 | ReadOffset | ReadOffsetC01 | ReadOffsetC10 | ReadOffsetC10Cont | Stuck

  datatype Registers = Registers(next: State, litLen: nat, matchLen: nat, offset: nat)

  datatype Outcome = Outcome(regs: Registers, words: seq<Word>, reread: bool)

  function CopyOf(offset: nat, len: nat): Word {
    Word((offset + 0xFFFF) % 0x1_0000, len % 0x1_0000)
  }

  function Cycle(r: Registers, b: Byte): Outcome {
    match r.next
    case ReadToken =>
      if b % 4 != 0 then Outcome(r.(next := ReadOffset), [], true)
      else
        var lit := b / 4;
        if lit < 60 then Outcome(r.(litLen := lit + 1, next := ReadLiteral), [], false)
        else if lit == 60 then Outcome(r.(litLen := lit, next := ReadLitLen60), [], false)
        else if lit == 61 then Outcome(r.(litLen := lit, next := ReadLitLen61), [], false)
        else Outcome(r.(litLen := lit), [], false)
    case ReadLiteral =>
      var left := if r.litLen > 0 then r.litLen - 1 else 0xFFFF_FFFF;
      Outcome(r.(litLen := left, next := if left == 0 then ReadToken else ReadLiteral), [Word(b, 0)], false)
    case ReadLitLen60 => Outcome(r.(litLen := b + 1, next := ReadLiteral), [], false)
    case ReadLitLen61 => Outcome(r.(litLen := r.litLen / 256 * 256 + b, next := ReadLitLen61Cont), [], false)
    case ReadLitLen61Cont => Outcome(r.(litLen := r.litLen % 256 + b * 256 + 1, next := ReadLiteral), [], false)
    case ReadOffset =>
      if b % 4 == 1 then Outcome(r.(matchLen := b / 4 % 8, offset := b / 32 * 256, next := ReadOffsetC01), [], false)
      else if b % 4 == 2 then Outcome(r.(matchLen := b / 4, offset := 0, next := ReadOffsetC10), [], false)
      else Outcome(r.(offset := 0, next := ReadToken), [], true)
    case ReadOffsetC01 =>
      var offset := r.offset / 256 * 256 + b;
      Outcome(r.(offset := offset, next := ReadToken), [CopyOf(offset, r.matchLen + 3)], false)
    case ReadOffsetC10 => Outcome(r.(offset := r.offset / 256 * 256 + b, next := ReadOffsetC10Cont), [], false)
    case ReadOffsetC10Cont =>
      var offset := r.offset % 256 + b * 256;
      Outcome(r.(offset := offset, next := ReadToken), [CopyOf(offset, r.matchLen)], false)
    case Stuck => Outcome(r, [], false)
  }

  // All cycles that look at the byte, if more bytes follow. A tag with both low bits set is then
  // looked at for ever.
  function Step(r: Registers, b: Byte): Outcome {
    var c := Cycle(r, b);
    if !c.reread then c
    else
      var d := Cycle(c.regs, b);
      if d.reread then Outcome(d.regs.(next := Stuck), [], false) else Outcome(d.regs, c.words + d.words, false)
  }

  function Run(r: Registers, bytes: seq<Byte>): Outcome
    decreases |bytes|
  {
    if bytes == [] then Outcome(r, [], false)
    else
      var o := Step(r, bytes[0]);
      var rest := Run(o.regs, bytes[1..]);
      Outcome(rest.regs, o.words + rest.words, false)
  }

  lemma {:induction false} RunConcat(r: Registers, a: seq<Byte>, b: seq<Byte>)
    ensures Run(r, a + b).regs == Run(Run(r, a).regs, b).regs
    ensures Run(r, a + b).words == Run(r, a).words + Run(Run(r, a).regs, b).words
    decreases |a|
  {
    hide Step;
    if a == [] {
      assert a + b == b;
      assert [] + Run(r, b).words == Run(r, b).words;
    } else {
      assert (a + b)[0] == a[0] && (a + b)[1..] == a[1..] + b;
      RunConcat(Step(r, a[0]).regs, a[1..], b);
    }
  }

  lemma RunOne(r: Registers, b: Byte)
    ensures Run(r, [b]).regs == Step(r, b).regs && Run(r, [b]).words == Step(r, b).words
  {
    hide Step;
    assert [b][1..] == [];
    assert Step(r, b).words + [] == Step(r, b).words;
  }

  lemma RunNothing(r: Registers)
    ensures Run(r, []).regs == r && Run(r, []).words == []
  {
  }

  lemma StepSticks(r: Registers, b: Byte)
    requires !r.next.Stuck? && !r.next.ReadOffset?
    ensures Step(r, b).regs.next.Stuck? <==> r.next.ReadToken? && b % 4 == 3
    ensures !Step(r, b).regs.next.ReadOffset?
  {
  }

  // ---------- One section ----------

  lemma {:induction false} RunLiterals(r: Registers, lits: seq<Byte>)
    requires r.next.ReadLiteral? && r.litLen == |lits| > 0
    ensures Run(r, lits).regs == r.(litLen := 0, next := ReadToken) && Run(r, lits).words == LiteralWords(lits)
    decreases |lits|
  {
    if |lits| == 1 {
      RunOne(r, lits[0]);
      assert lits == [lits[0]] && lits[1..] == [];
    } else {
      RunLiterals(r.(litLen := r.litLen - 1), lits[1..]);
    }
  }

  lemma RunShortTag(r: Registers, lit: nat)
    requires r.next.ReadToken? && 0 < lit <= 60
    ensures Run(r, LitTag(lit)).words == [] && Run(r, LitTag(lit)).regs == r.(litLen := lit, next := ReadLiteral)
  {
    assert LitTag(lit) == [(lit - 1) * 4];
    RunOne(r, (lit - 1) * 4);
  }

  lemma RunTag60(r: Registers, lit: nat)
    requires r.next.ReadToken? && 60 < lit < 256
    ensures Run(r, LitTag(lit)).words == [] && Run(r, LitTag(lit)).regs == r.(litLen := lit, next := ReadLiteral)
  {
    var r1 := r.(litLen := 60, next := ReadLitLen60);
    assert Step(r, 240) == Outcome(r1, [], false);
    assert Step(r1, lit - 1) == Outcome(r1.(litLen := lit, next := ReadLiteral), [], false);
    hide Step;
    RunTwo(r, 240, r1, lit - 1);
  }

  lemma RunTwo(r: Registers, a: Byte, r1: Registers, b: Byte)
    requires Step(r, a).regs == r1
    ensures Run(r, [a, b]).regs == Step(r1, b).regs && Run(r, [a, b]).words == Step(r, a).words + Step(r1, b).words
  {
    hide Step;
    assert [a, b] == [a] + [b];
    RunConcat(r, [a], [b]);
    RunOne(r, a);
    RunOne(r1, b);
  }

  lemma RunTag61(r: Registers, lit: nat)
    requires r.next.ReadToken? && 256 <= lit < 0x1_0000
    ensures Run(r, LitTag(lit)).words == [] && Run(r, LitTag(lit)).regs == r.(litLen := lit, next := ReadLiteral)
  {
    var m := lit - 1;
    var lo: Byte, hi: Byte := m % 256, m / 256 % 256;
    var r1 := r.(litLen := 61, next := ReadLitLen61);
    var r2 := r1.(litLen := lo, next := ReadLitLen61Cont);
    var r3 := r2.(litLen := lit, next := ReadLiteral);
    assert Step(r, 244) == Outcome(r1, [], false);
    assert Step(r1, lo) == Outcome(r2, [], false);
    assert lo + hi * 256 == m;
    assert Step(r2, hi) == Outcome(r3, [], false);
    hide Step;
    RunTwo(r, 244, r1, lo);
    assert [244, lo, hi] == [244, lo] + [hi];
    RunConcat(r, [244, lo], [hi]);
    RunOne(r2, hi);
  }

  lemma RunTag(r: Registers, lit: nat)
    requires r.next.ReadToken? && 0 < lit < 0x1_0000
    ensures Run(r, LitTag(lit)).words == [] && Run(r, LitTag(lit)).regs == r.(litLen := lit, next := ReadLiteral)
  {
    hide Run, LitTag;
    if lit <= 60 { RunShortTag(r, lit); } else if lit < 256 { RunTag60(r, lit); } else { RunTag61(r, lit); }
  }

  // The first bytes of a section: its literals.
  lemma RunLead(r: Registers, lits: seq<Byte>)
    requires r.next.ReadToken? && |lits| < 0x1_0000
    ensures Run(r, LitTag(|lits|) + lits).words == LiteralWords(lits) && Run(r, LitTag(|lits|) + lits).regs.next.ReadToken?
  {
    if |lits| == 0 {
      assert LitTag(0) + lits == [];
    } else {
      hide Run, LitTag;
      RunTag(r, |lits|);
      RunLiterals(r.(litLen := |lits|, next := ReadLiteral), lits);
      RunConcat(r, LitTag(|lits|), lits);
      assert [] + LiteralWords(lits) == LiteralWords(lits);
    }
  }

  lemma StepC01(r: Registers, len: nat, off: nat)
    requires r.next.ReadToken? && 4 <= len <= 11 && 1 <= off <= 2047
    ensures Step(r, 1 + (len - 4) * 4 + off / 256 % 8 * 32)
         == Outcome(r.(matchLen := len - 4, offset := off / 256 * 256, next := ReadOffsetC01), [], false)
  {
    var b: Byte := 1 + (len - 4) * 4 + off / 256 % 8 * 32;
    assert b % 4 == 1 && b / 4 % 8 == len - 4 && b / 32 == off / 256;
  }

  lemma StepC10(r: Registers, len: nat)
    requires r.next.ReadToken? && 4 <= len <= 64
    ensures Step(r, 2 + (len - 1) * 4) == Outcome(r.(matchLen := len - 1, offset := 0, next := ReadOffsetC10), [], false)
  {
    var b: Byte := 2 + (len - 1) * 4;
    assert b % 4 == 2 && b / 4 == len - 1;
  }

  lemma OffsetBack(off: nat)
    requires 1 <= off < 0x1_0000
    ensures off / 256 * 256 / 256 * 256 + off % 256 == off && (off + 0xFFFF) % 0x1_0000 == off - 1
    ensures off % 256 % 256 + off / 256 % 256 * 256 == off
  {
  }

  lemma RunShortCopy(r: Registers, len: nat, off: nat)
    requires r.next.ReadToken? && 4 <= len <= 11 && 1 <= off <= 2047
    ensures Run(r, CopyBytes(len, off)).words == [Word(off - 1, len - 1)] && Run(r, CopyBytes(len, off)).regs.next.ReadToken?
  {
    var tag: Byte := 1 + (len - 4) * 4 + off / 256 % 8 * 32;
    var r1 := r.(matchLen := len - 4, offset := off / 256 * 256, next := ReadOffsetC01);
    StepC01(r, len, off);
    OffsetBack(off);
    assert Step(r1, off % 256).words == [Word(off - 1, len - 1)] && Step(r1, off % 256).regs.next.ReadToken?;
    hide Step, Run;
    RunTwo(r, tag, r1, off % 256);
  }

  lemma RunLongCopy(r: Registers, len: nat, off: nat)
    requires r.next.ReadToken? && 4 <= len <= 64 && 1 <= off < 0x1_0000 && !(len <= 11 && off <= 2047)
    ensures Run(r, CopyBytes(len, off)).words == [Word(off - 1, len - 1)] && Run(r, CopyBytes(len, off)).regs.next.ReadToken?
  {
    var tag: Byte := 2 + (len - 1) * 4;
    var lo: Byte, hi: Byte := off % 256, off / 256 % 256;
    var r1 := r.(matchLen := len - 1, offset := 0, next := ReadOffsetC10);
    var r2 := r1.(offset := lo, next := ReadOffsetC10Cont);
    StepC10(r, len);
    OffsetBack(off);
    assert Step(r1, lo) == Outcome(r2, [], false);
    assert Step(r2, hi).words == [Word(off - 1, len - 1)] && Step(r2, hi).regs.next.ReadToken?;
    hide Step, Run;
    RunTwo(r, tag, r1, lo);
    assert [tag, lo, hi] == [tag, lo] + [hi];
    RunConcat(r, [tag, lo], [hi]);
    RunOne(r2, hi);
  }

  lemma RunSection(r: Registers, e: Entry, lits: seq<Byte>)
    requires r.next.ReadToken? && Proper(e) && |lits| == e.lit
    ensures Run(r, Section(e, lits)).words == SectionWords(e, lits) && Run(r, Section(e, lits)).regs.next.ReadToken?
  {
    hide Step, Run, LitTag, LiteralWords, CopyBytes;
    var lead := LitTag(e.lit) + lits;
    RunLead(r, lits);
    var r1 := Run(r, lead).regs;
    if NoCopy(e) {
      assert lead + [] == lead;
      assert LiteralWords(lits) + [] == LiteralWords(lits);
    } else {
      RunConcat(r, lead, CopyBytes(e.mlen, e.off));
      if e.mlen <= 11 && e.off <= 2047 { RunShortCopy(r1, e.mlen, e.off); } else { RunLongCopy(r1, e.mlen, e.off); }
    }
  }

  // The decoder returns exactly the words the sections stand for.
  lemma {:induction false} DecodesSections(r: Registers, es: seq<Entry>, lits: seq<Byte>)
    requires r.next.ReadToken? && LitTotal(es) == |lits| && AllProper(es)
    ensures Run(r, Sections(es, lits)).words == Conveyed(es, lits) && Run(r, Sections(es, lits)).regs.next.ReadToken?
    decreases |es|
  {
    if es == [] {
      RunNothing(r);
    } else {
      hide Step, Run, Section, SectionWords;
      var l, rest := lits[..es[0].lit], lits[es[0].lit..];
      RunSection(r, es[0], l);
      RunConcat(r, Section(es[0], l), Sections(es[1..], rest));
      DecodesSections(Run(r, Section(es[0], l)).regs, es[1..], rest);
    }
  }

  // ---------- The preamble ----------

  // How many bytes the length takes, if they are all there.
  function PreambleLength(input: seq<Byte>): nat
    requires input != []
  {
    if input[0] < 128 then 1 else if |input| > 1 && input[1] >= 128 then 3 else 2
  }

  // The length the decoder reads, at most 21 bits of it.
  function PreambleValue(input: seq<Byte>): nat
    requires input != [] && PreambleLength(input) <= |input|
  {
    if input[0] < 128 then input[0]
    else SevenBits(input[0]) + 128 * SevenBits(input[1]) + if input[1] < 128 then 0 else 0x4000 * SevenBits(input[2])
  }

  function SevenBits(b: nat): nat {
    b % 128
  }

  // A length of up to three bytes is read as the format says.
  lemma ValueByFormat(input: seq<Byte>)
    requires input != [] && PreambleLength(input) <= |input|
    requires PreambleLength(input) == 3 ==> input[2] < 128
    ensures LengthAt(input) == (PreambleValue(input), PreambleLength(input))
  {
    if input[0] >= 128 {
      LengthNext(input);
      if input[1] >= 128 { LengthNext(input[1..]); }
    }
  }

  lemma LengthNext(s: seq<Byte>)
    requires |s| > 1 && s[0] >= 128
    ensures LengthAt(s) == (s[0] - 128 + 128 * LengthAt(s[1..]).0, 1 + LengthAt(s[1..]).1)
    ensures s[1] < 128 ==> LengthAt(s[1..]) == (s[1], 1)
  {
  }

  // The length written is the length read, by the format and by the decoder, and what follows is next.
  lemma PreambleReadBack(size: nat, rest: seq<Byte>)
    requires size < 0x20_0000
    ensures LengthAt(Preamble(size) + rest) == (size, |Preamble(size)|)
    ensures PreambleLength(Preamble(size) + rest) == |Preamble(size)| && PreambleValue(Preamble(size) + rest) == size
    ensures (Preamble(size) + rest)[|Preamble(size)|..] == rest
  {
    hide LengthAt;
    var s := Preamble(size) + rest;
    ValueByFormat(s);
  }

  const START := Registers(ReadToken, 0, 0, 0)

  // Byte k is read as a tag, and both its low bits are set: the copy with a four-byte offset.
  ghost predicate BadTag(bytes: seq<Byte>, k: nat) {
    k < |bytes| && Run(START, bytes[..k]).regs.next.ReadToken? && bytes[k] % 4 == 3
  }

  // No such tag before the last byte.
  ghost predicate Passable(bytes: seq<Byte>) {
    forall k :: 0 <= k < |bytes| - 1 ==> !BadTag(bytes, k)
  }

  // The bytes are sections that can be read, behind a preamble that is all there.
  ghost predicate Readable(input: seq<Byte>) {
    input == [] || (PreambleLength(input) <= |input| && Passable(input[PreambleLength(input)..]))
  }

  // The states are stuck just after such a tag.
  lemma {:induction false} StuckIffBadTag(bytes: seq<Byte>)
    ensures Run(START, bytes).regs.next.Stuck? <==> exists k :: 0 <= k < |bytes| && BadTag(bytes, k)
    ensures !Run(START, bytes).regs.next.ReadOffset?
    decreases |bytes|
  {
    if bytes != [] {
      var z := |bytes| - 1;
      var front := bytes[..z];
      StuckIffBadTag(front);
      assert front + [bytes[z]] == bytes;
      RunAppend(START, front, bytes[z]);
      forall k | 0 <= k < z ensures BadTag(bytes, k) <==> BadTag(front, k) { assert front[..k] == bytes[..k]; }
      StuckNext(bytes, z);
    }
  }

  lemma StuckNext(bytes: seq<Byte>, z: nat)
    requires |bytes| == z + 1 && !Run(START, bytes[..z]).regs.next.ReadOffset?
    requires Run(START, bytes).regs == Step(Run(START, bytes[..z]).regs, bytes[z]).regs
    ensures Run(START, bytes).regs.next.Stuck? <==> Run(START, bytes[..z]).regs.next.Stuck? || BadTag(bytes, z)
    ensures !Run(START, bytes).regs.next.ReadOffset?
  {
    var r := Run(START, bytes[..z]).regs;
    hide Run;
    if !r.next.Stuck? { StepSticks(r, bytes[z]); }
  }

  lemma NotStuckReadable(bytes: seq<Byte>)
    requires !Run(START, bytes).regs.next.Stuck?
    ensures Passable(bytes)
  {
    StuckIffBadTag(bytes);
    hide Run, BadTag;
  }

  // Before the last byte nothing is stuck.
  lemma PassableFront(bytes: seq<Byte>, n: nat)
    requires Passable(bytes) && n < |bytes|
    ensures !Run(START, bytes[..n]).regs.next.Stuck?
  {
    StuckIffBadTag(bytes[..n]);
    forall k | 0 <= k < n ensures !BadTag(bytes[..n], k) {
      assert bytes[..n][..k] == bytes[..k];
      assert !BadTag(bytes, k);
    }
  }

  method ReadPreamble(input: seq<Byte>) returns (pos: nat, inBlkSize: nat)
    requires input != [] && PreambleLength(input) <= |input|
    ensures pos == PreambleLength(input) && inBlkSize == PreambleValue(input)
  {
    var inValue := input[0];
    pos := 1;
    if inValue / 128 == 1 {
      inBlkSize := SevenBits(inValue);
      inValue := input[1];
      pos := 2;
      inBlkSize := inBlkSize + 128 * SevenBits(inValue);
      if inValue / 128 == 1 {
        inValue := input[2];
        pos := 3;
        inBlkSize := inBlkSize + 0x4000 * SevenBits(inValue);
      }
    } else {
      inBlkSize := inValue;
    }
  }

  // The cycle that looks at the tag for the first time sends nothing.
  lemma RereadSilent(r: Registers, b: Byte)
    ensures Cycle(r, b).reread ==> Cycle(r, b).words == []
  {
  }

  lemma StepOf(r: Registers, b: Byte)
    ensures !Cycle(r, b).reread ==> Step(r, b) == Cycle(r, b)
    ensures Cycle(r, b).reread && !Cycle(Cycle(r, b).regs, b).reread ==>
              Step(r, b).regs == Cycle(Cycle(r, b).regs, b).regs && Step(r, b).words == Cycle(Cycle(r, b).regs, b).words
    ensures Cycle(r, b).reread && Cycle(Cycle(r, b).regs, b).reread ==> Step(r, b).regs.next.Stuck?
  {
    if Cycle(r, b).reread {
      RereadSilent(r, b);
      assert [] + Cycle(Cycle(r, b).regs, b).words == Cycle(Cycle(r, b).regs, b).words;
    }
  }

  lemma RunAppend(r: Registers, bytes: seq<Byte>, b: Byte)
    ensures Run(r, bytes + [b]).regs == Step(Run(r, bytes).regs, b).regs
    ensures Run(r, bytes + [b]).words == Run(r, bytes).words + Step(Run(r, bytes).regs, b).words
  {
    hide Step;
    RunConcat(r, bytes, [b]);
    RunOne(Run(r, bytes).regs, b);
  }

  // All bytes of `done` are dealt with, or the last one is to be looked at again.
  ghost predicate Decoding(r: Registers, out: seq<Word>, again: bool, done: seq<Byte>) {
    if again then
      done != [] &&
      var before := Run(START, done[..|done| - 1]);
      var c := Cycle(before.regs, done[|done| - 1]);
      c.reread && r == c.regs && out == before.words
    else r == Run(START, done).regs && out == Run(START, done).words
  }

  lemma DecodingRead(r: Registers, out: seq<Word>, done: seq<Byte>, b: Byte)
    requires Decoding(r, out, false, done)
    ensures Decoding(Cycle(r, b).regs, out + Cycle(r, b).words, Cycle(r, b).reread, done + [b])
  {
    hide Run;
    RunAppend(START, done, b);
    StepOf(r, b);
    RereadSilent(r, b);
    hide Cycle, Step;
    assert (done + [b])[..|done|] == done;
    assert out + [] == out;
  }

  lemma DecodingAgain(r: Registers, out: seq<Word>, done: seq<Byte>, b: Byte)
    requires Decoding(r, out, true, done) && b == done[|done| - 1] && !Run(START, done).regs.next.Stuck?
    ensures !Cycle(r, b).reread && Decoding(Cycle(r, b).regs, out + Cycle(r, b).words, false, done)
  {
    hide Run;
    var before := done[..|done| - 1];
    RunAppend(START, before, b);
    assert before + [b] == done;
    StepOf(Run(START, before).regs, b);
    hide Cycle, Step;
  }

  lemma DecodingDone(r: Registers, out: seq<Word>, again: bool, done: seq<Byte>)
    requires Decoding(r, out, again, done)
    ensures out == Run(START, done).words
  {
    if again {
      hide Run;
      var before, b := done[..|done| - 1], done[|done| - 1];
      RunAppend(START, before, b);
      assert before + [b] == done;
      StepSilent(Run(START, before).regs, b);
      hide Cycle, Step;
      assert out + [] == out;
    }
  }

  // A byte looked at twice sends nothing.
  lemma StepSilent(r: Registers, b: Byte)
    ensures Cycle(r, b).reread ==> Step(r, b).words == []
  {
  }

  lemma DecodingStarts()
    ensures Decoding(START, [], false, [])
  {
  }

  method SnappyDecompress(input: seq<Byte>) returns (out: seq<Word>, inBlkSize: nat)
    requires Readable(input)
    ensures out == if input == [] then [] else Run(START, input[PreambleLength(input)..]).words
    ensures inBlkSize == if input == [] then 0 else PreambleValue(input)
  {
    out, inBlkSize := [], 0;
    if |input| == 0 { return; }
    var pos: nat;
    pos, inBlkSize := ReadPreamble(input);
    ghost var p := pos;
    ghost var bytes := input[p..];
    assert Passable(bytes);
    DecodingStarts();
    hide *;
    var r := START;
    var inValue: Byte, readInstream := 0, true;
    var inCntrIdx := pos;
    assert input[p..p] == [];
    while inCntrIdx < |input|
      invariant p <= pos == inCntrIdx <= |input|
      invariant Decoding(r, out, !readInstream, input[p..pos])
      invariant !readInstream ==> pos > p && inValue == input[pos - 1]
      decreases |input| - pos, !readInstream
    {
      PassableFront(bytes, pos - p);
      assert bytes[..pos - p] == input[p..pos];
      if readInstream {
        inValue := input[pos];
        pos := pos + 1;
        DecodingRead(r, out, input[p..pos - 1], inValue);
        assert input[p..pos - 1] + [inValue] == input[p..pos];
      } else {
        inCntrIdx := inCntrIdx - 1;
        assert input[p..pos][|input[p..pos]| - 1] == inValue;
        DecodingAgain(r, out, input[p..pos], inValue);
      }
      var words;
      r, words, readInstream := OneCycle(r, inValue);
      out := out + words;
      inCntrIdx := inCntrIdx + 1;
    }
    assert input[p..pos] == bytes;
    DecodingDone(r, out, !readInstream, bytes);
  }

  method OneCycle(r0: Registers, inValue: Byte) returns (r: Registers, words: seq<Word>, readInstream: bool)
    ensures Cycle(r0, inValue) == Outcome(r, words, !readInstream)
  {
    r, words, readInstream := r0, [], true;
    match r0.next {
      case ReadToken =>
        if inValue % 4 != 0 {
          r := r.(next := ReadOffset);
          readInstream := false;
        } else {
          r := r.(litLen := inValue / 4);
          if r.litLen < 60 {
            r := r.(litLen := r.litLen + 1, next := ReadLiteral);
          } else if r.litLen == 60 {
            r := r.(next := ReadLitLen60);
          } else if r.litLen == 61 {
            r := r.(next := ReadLitLen61);
          }
        }
      case ReadLiteral =>
        words := [Word(inValue, 0)];
        r := r.(litLen := if r.litLen > 0 then r.litLen - 1 else 0xFFFF_FFFF);
        if r.litLen == 0 { r := r.(next := ReadToken); }
      case ReadLitLen60 =>
        r := r.(litLen := inValue + 1, next := ReadLiteral);
      case ReadLitLen61 =>
        r := r.(litLen := r.litLen / 256 * 256 + inValue, next := ReadLitLen61Cont);
      case ReadLitLen61Cont =>
        r := r.(litLen := r.litLen % 256 + inValue * 256);
        r := r.(litLen := r.litLen + 1, next := ReadLiteral);
      case ReadOffset =>
        r := r.(offset := 0);
        if inValue % 4 == 1 {
          r := r.(matchLen := inValue / 4 % 8, offset := inValue / 32 * 256, next := ReadOffsetC01);
        } else if inValue % 4 == 2 {
          r := r.(matchLen := inValue / 4, next := ReadOffsetC10);
        } else {
          r := r.(next := ReadToken);
          readInstream := false;
        }
      case ReadOffsetC01 =>
        r := r.(offset := r.offset / 256 * 256 + inValue);
        words := [CopyOf(r.offset, r.matchLen + 3)];
        r := r.(next := ReadToken);
      case ReadOffsetC10 =>
        r := r.(offset := r.offset / 256 * 256 + inValue, next := ReadOffsetC10Cont);
      case ReadOffsetC10Cont =>
        r := r.(offset := r.offset % 256 + inValue * 256);
        words := [CopyOf(r.offset, r.matchLen)];
        r := r.(next := ReadToken);
      case Stuck =>
    }
  }
}
