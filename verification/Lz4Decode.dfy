// The LZ4 decoder: a state machine that takes one byte per step and sends words.

module Lz4Decode {
  import opened LzCore
  import opened Lz4Format

  datatype State = ReadToken | ReadLitLen | ReadLiteral | ReadOffset0 | ReadOffset1 | ReadMatchLen

  datatype Registers = Registers(next: State, litLen: nat, matchLen: nat, offset: nat)

  datatype Outcome = Outcome(regs: Registers, words: seq<Word>)

  // The 16-bit fields of a match word.
  function MatchWord(offset: nat, matchLen: nat): Word {
    Word((offset + 0xFFFF) % 0x1_0000, (matchLen + 3) % 0x1_0000)
  }

  function Step(r: Registers, b: Byte): Outcome {
    match r.next
    case ReadToken =>
      var lit := b / 16;
      Outcome(Registers(if lit == 15 then ReadLitLen else if lit > 0 then ReadLiteral else ReadOffset0, lit, b % 16, r.offset), [])
    case ReadLitLen => Outcome(r.(litLen := r.litLen + b, next := if b != 255 then ReadLiteral else ReadLitLen), [])
    case ReadLiteral =>
      var left := if r.litLen > 0 then r.litLen - 1 else 0xFFFF_FFFF;
      Outcome(r.(litLen := left, next := if left == 0 then ReadOffset0 else ReadLiteral), [Word(b, 0)])
    case ReadOffset0 => Outcome(r.(offset := r.offset / 256 * 256 + b, next := ReadOffset1), [])
    case ReadOffset1 =>
      var offset := r.offset % 256 + b * 256;
      if r.matchLen == 15 then Outcome(r.(offset := offset, next := ReadMatchLen), [])
      else Outcome(r.(offset := offset, next := ReadToken), [MatchWord(offset, r.matchLen)])
    case ReadMatchLen =>
      var len := r.matchLen + b;
      if b == 255 then Outcome(r.(matchLen := len), [])
      else Outcome(r.(matchLen := len, next := ReadToken), [MatchWord(r.offset, len)])
  }

  function Run(r: Registers, bytes: seq<Byte>): Outcome
    decreases |bytes|
  {
    if bytes == [] then Outcome(r, [])
    else
      var o := Step(r, bytes[0]);
      var rest := Run(o.regs, bytes[1..]);
      Outcome(rest.regs, o.words + rest.words)
  }

  lemma {:induction false} RunConcat(r: Registers, a: seq<Byte>, b: seq<Byte>)
    ensures Run(r, a + b) == Outcome(Run(Run(r, a).regs, b).regs, Run(r, a).words + Run(Run(r, a).regs, b).words)
    decreases |a|
  {
    hide Step;
    if a == [] {
      assert a + b == b;
      assert [] + Run(r, b).words == Run(r, b).words;
    } else {
      assert (a + b)[0] == a[0] && (a + b)[1..] == a[1..] + b;
      RunConcat(Step(r, a[0]).regs, a[1..], b);
    }
  }

  lemma RunOne(r: Registers, b: Byte)
    ensures Run(r, [b]) == Step(r, b)
  {
    hide Step;
    assert [b][1..] == [];
    assert Step(r, b).words + [] == Step(r, b).words;
  }

  lemma {:induction false} RunLitLen(r: Registers, n: nat)
    requires r.next.ReadLitLen?
    ensures Run(r, Extension(n)) == Outcome(r.(litLen := r.litLen + n, next := ReadLiteral), [])
    decreases n
  {
    if n >= 255 {
      RunConcat(r, [255], Extension(n - 255));
      RunOne(r, 255);
      RunLitLen(r.(litLen := r.litLen + 255), n - 255);
    } else {
      RunOne(r, n);
    }
  }

  lemma {:induction false} RunMatchLen(r: Registers, n: nat)
    requires r.next.ReadMatchLen?
    ensures Run(r, Extension(n)) == Outcome(r.(matchLen := r.matchLen + n, next := ReadToken), [MatchWord(r.offset, r.matchLen + n)])
    decreases n
  {
    hide MatchWord;
    if n >= 255 {
      RunConcat(r, [255], Extension(n - 255));
      RunOne(r, 255);
      RunMatchLen(r.(matchLen := r.matchLen + 255), n - 255);
    } else {
      RunOne(r, n);
    }
  }

  lemma {:induction false} RunLiterals(r: Registers, lits: seq<Byte>)
    requires r.next.ReadLiteral? && r.litLen == |lits| > 0
    ensures Run(r, lits) == Outcome(r.(litLen := 0, next := ReadOffset0), LiteralWords(lits))
    decreases |lits|
  {
    if |lits| == 1 {
      RunOne(r, lits[0]);
      assert lits == [lits[0]] && lits[1..] == [];
    } else {
      RunLiterals(r.(litLen := r.litLen - 1), lits[1..]);
    }
  }

  // ---------- One entry ----------

  // The token byte and the further bytes of the literal length.
  lemma RunHead(r: Registers, e: Entry)
    requires r.next.ReadToken?
    ensures Run(r, [TokenByte(e)] + More(e.lit))
         == Outcome(Registers(if e.lit == 0 then ReadOffset0 else ReadLiteral, e.lit, Nibble(e.mlen), r.offset), [])
  {
    RunConcat(r, [TokenByte(e)], More(e.lit));
    RunOne(r, TokenByte(e));
    if e.lit >= 15 {
      RunLitLen(Registers(ReadLitLen, 15, Nibble(e.mlen), r.offset), e.lit - 15);
    }
  }

  lemma OffsetReadBack(off: nat, old0: nat)
    requires off < 0x1_0000
    ensures ((old0 / 256 * 256 + Low(off + 1)) % 256 + High(off + 1) * 256 + 0xFFFF) % 0x1_0000 == off
  {
    assert (old0 / 256 * 256 + Low(off + 1)) % 256 == Low(off + 1);
    if off < 0xFFFF {
      assert High(off + 1) == (off + 1) / 256;
    }
  }

  lemma RunOffset(r: Registers, off: nat) returns (offset: nat)
    requires r.next.ReadOffset0? && off < 0x1_0000
    ensures (offset + 0xFFFF) % 0x1_0000 == off
    ensures Run(r, OffsetBytes(off)) ==
            if r.matchLen == 15 then Outcome(r.(offset := offset, next := ReadMatchLen), [])
            else Outcome(r.(offset := offset, next := ReadToken), [MatchWord(offset, r.matchLen)])
  {
    hide Low, High, MatchWord;
    OffsetReadBack(off, r.offset);
    var first := r.offset / 256 * 256 + Low(off + 1);
    offset := first % 256 + High(off + 1) * 256;
    RunConcat(r, [Low(off + 1)], [High(off + 1)]);
    RunOne(r, Low(off + 1));
    RunOne(r.(offset := first, next := ReadOffset1), High(off + 1));
  }

  // The offset and the further bytes of the match length.
  lemma RunMatch(r: Registers, e: Entry)
    requires r.next.ReadOffset0? && r.matchLen == Nibble(e.mlen) && !Ending(e) && e.off < 0x1_0000 && e.mlen < 0xFFFD
    ensures Run(r, MatchBytes(e)).words == [Word(e.off, e.mlen + 3)] && Run(r, MatchBytes(e)).regs.next.ReadToken?
  {
    hide OffsetBytes, Step, Run;
    var offset := RunOffset(r, e.off);
    RunConcat(r, OffsetBytes(e.off), More(e.mlen));
    if e.mlen >= 15 {
      RunMatchLen(r.(offset := offset, next := ReadMatchLen), e.mlen - 15);
    } else {
      RunNothing(r.(offset := offset, next := ReadToken));
    }
  }

  lemma RunBody(r: Registers, e: Entry, lits: seq<Byte>)
    requires |lits| == e.lit == r.litLen && r.matchLen == Nibble(e.mlen)
    requires r.next == if e.lit == 0 then ReadOffset0 else ReadLiteral
    ensures Run(r, lits) == Outcome(r.(litLen := 0, next := ReadOffset0), LiteralWords(lits))
  {
    hide Step, Nibble;
    if e.lit > 0 { RunLiterals(r, lits); }
  }

  lemma RunEntry(r: Registers, e: Entry, lits: seq<Byte>)
    requires r.next.ReadToken? && |lits| == e.lit && e.off < 0x1_0000 && e.mlen < 0xFFFD
    ensures Run(r, EntryBytes(e, lits)).words == EntryWords(e, lits)
    ensures !Ending(e) ==> Run(r, EntryBytes(e, lits)).regs.next.ReadToken?
  {
    hide Step, Run, More, TokenByte, Nibble, LiteralWords;
    var head := [TokenByte(e)] + More(e.lit);
    var r1 := Registers(if e.lit == 0 then ReadOffset0 else ReadLiteral, e.lit, Nibble(e.mlen), r.offset);
    RunHead(r, e);
    RunConcat(r, head + lits, MatchBytes(e));
    RunConcat(r, head, lits);
    RunBody(r1, e, lits);
    var r2 := r1.(litLen := 0, next := ReadOffset0);
    assert [] + LiteralWords(lits) == LiteralWords(lits);
    if Ending(e) {
      RunNothing(r2);
      assert LiteralWords(lits) + [] == LiteralWords(lits);
    } else {
      RunMatch(r2, e);
    }
  }

  lemma RunNothing(r: Registers)
    ensures Run(r, []) == Outcome(r, [])
  {
  }

  // ---------- A whole block ----------

  ghost predicate Decodable(es: seq<Entry>) {
    forall k :: 0 <= k < |es| ==> es[k].mlen < 0xFFFD && es[k].off < 0x1_0000 && (Ending(es[k]) ==> k == |es| - 1)
  }

  // The decoder returns exactly the words the block stands for.
  lemma {:induction false} DecodesEncoded(r: Registers, es: seq<Entry>, lits: seq<Byte>)
    requires r.next.ReadToken? && LitTotal(es) == |lits| && Decodable(es)
    ensures Run(r, Encoded(es, lits)).words == Carried(es, lits)
    decreases |es|
  {
    if es != [] {
      hide Step, Run, EntryBytes, EntryWords, Ending;
      var l, rest := lits[..es[0].lit], lits[es[0].lit..];
      RunEntry(r, es[0], l);
      RunConcat(r, EntryBytes(es[0], l), Encoded(es[1..], rest));
      var r' := Run(r, EntryBytes(es[0], l)).regs;
      if |es| == 1 {
        assert es[1..] == [];
        RunNothing(r');
      } else {
        DecodesEncoded(r', es[1..], rest);
      }
    }
  }

  lemma CoveringDecodable(es: seq<Entry>, size: nat)
    requires Covers(es, size)
    ensures Decodable(es)
  {
    forall k | 0 <= k < |es| ensures es[k].mlen < 0xFFFD && es[k].off < 0x1_0000 && (Ending(es[k]) ==> k == |es| - 1) {
      assert Usable(es, k, size);
    }
  }

  const START := Registers(ReadToken, 0, 0, 0)

  lemma {:induction false} RunAppend(r: Registers, bytes: seq<Byte>, b: Byte)
    ensures Run(r, bytes + [b]) == Outcome(Step(Run(r, bytes).regs, b).regs, Run(r, bytes).words + Step(Run(r, bytes).regs, b).words)
  {
    hide Step;
    RunConcat(r, bytes, [b]);
    RunOne(Run(r, bytes).regs, b);
  }

  method Lz4Decompress(input: seq<Byte>) returns (out: seq<Word>)
    ensures out == Run(START, input).words
  {
    out := [];
    var r := START;
    var i := 0;
    while i < |input|
      invariant 0 <= i <= |input|
      invariant Outcome(r, out) == Run(START, input[..i])
    {
      hide Step, Run;
      RunAppend(START, input[..i], input[i]);
      assert input[..i] + [input[i]] == input[..i + 1];
      var sent;
      r, sent := TakeByte(r, input[i]);
      out := out + sent;
      i := i + 1;
    }
    assert input[..i] == input;
  }

  method TakeByte(r0: Registers, inValue: Byte) returns (r: Registers, sent: seq<Word>)
    ensures Outcome(r, sent) == Step(r0, inValue)
  {
    r, sent := r0, [];
    match r0.next {
      case ReadToken =>
        r := r.(litLen := inValue / 16, matchLen := inValue % 16);
        if r.litLen == 15 {
          r := r.(next := ReadLitLen);
        } else if r.litLen > 0 {
          r := r.(next := ReadLiteral);
        } else {
          r := r.(next := ReadOffset0);
        }
      case ReadLitLen =>
        r := r.(litLen := r.litLen + inValue);
        if inValue != 255 { r := r.(next := ReadLiteral); }
      case ReadLiteral =>
        sent := [Word(inValue, 0)];
        r := r.(litLen := if r.litLen > 0 then r.litLen - 1 else 0xFFFF_FFFF);
        if r.litLen == 0 { r := r.(next := ReadOffset0); }
      case ReadOffset0 =>
        r := r.(offset := r.offset / 256 * 256 + inValue, next := ReadOffset1);
      case ReadOffset1 =>
        r := r.(offset := r.offset % 256 + inValue * 256);
        if r.matchLen == 15 {
          r := r.(next := ReadMatchLen);
        } else {
          r := r.(next := ReadToken);
          sent := [MatchWord(r.offset, r.matchLen)];
        }
      case ReadMatchLen =>
        r := r.(matchLen := r.matchLen + inValue);
        if inValue != 255 {
          sent := [MatchWord(r.offset, r.matchLen)];
          r := r.(next := ReadToken);
        }
    }
  }
}
