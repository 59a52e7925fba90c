// The second half of the LZ4 encoder: a state machine that writes one byte per step.

module Lz4Encode {
  import opened LzCore
  import opened Lz4Format

  datatype State = WriteToken | WriteLitLen | WriteMatchLen | WriteLiteral | WriteOffset0 | WriteOffset1

  datatype Registers = Registers(next: State, litLen: nat, matchLen: nat, offset: nat, writeLit: nat,
                                 ending: bool, extra: bool, readNext: bool)

  function MatchMore(r: Registers): seq<Byte> {
    if r.extra then Extension(r.matchLen) else []
  }

  function Tail(r: Registers): seq<Byte> {
    if r.ending then [] else OffsetBytes(r.offset) + MatchMore(r)
  }

  // What is still to be written of the current entry; its literals are the next of `lits`.
  function Pending(r: Registers, lits: seq<Byte>): seq<Byte>
    requires r.writeLit <= |lits|
  {
    match r.next
    case WriteToken => []
    case WriteLitLen => Extension(r.litLen) + lits[..r.writeLit] + Tail(r)
    case WriteLiteral => lits[..r.writeLit] + Tail(r)
    case WriteOffset0 => OffsetBytes(r.offset) + MatchMore(r)
    case WriteOffset1 => [High(r.offset)] + MatchMore(r)
    case WriteMatchLen => Extension(r.matchLen)
  }

  predicate InStep(r: Registers) {
    && (r.readNext <==> r.next.WriteToken?)
    && (r.writeLit > 0 <==> r.next.WriteLitLen? || r.next.WriteLiteral?)
    && r.offset < 0x1_0000
  }

  method StartEntry(r0: Registers, e: Entry, inIdx0: nat, inputSize: nat, ghost lits: seq<Byte>)
    returns (r: Registers, outValue: Byte, inIdx: nat)
    requires e.lit <= |lits| && e.off < 0x1_0000 && (Ending(e) ==> e.lit > 0) && !r0.ending
    ensures InStep(r) && !r.readNext && r.writeLit == e.lit && (r.ending <==> Ending(e))
    ensures [outValue] + Pending(r, lits) == EntryBytes(e, lits[..e.lit])
    ensures inIdx == if e.mlen == LIMIT && e.off == LIMIT then inputSize else inIdx0 + e.mlen + e.lit + 4
  {
    hide Pending, EntryBytes;
    r := r0.(litLen := e.lit, matchLen := e.mlen, offset := e.off, writeLit := e.lit, readNext := false);
    inIdx := inIdx0 + e.mlen + e.lit + 4;
    if e.mlen == LIMIT && e.off == LIMIT {
      inIdx := inputSize;
      r := r.(ending := true);
    }
    if e.off == 0 && e.mlen == 0 {
      r := r.(ending := true);
    }
    var upper, lower;
    if r.litLen >= 15 {
      upper := 15;
      r := r.(litLen := r.litLen - 15, next := WriteLitLen);
    } else if r.litLen > 0 {
      upper := r.litLen;
      r := r.(litLen := 0, next := WriteLiteral);
    } else {
      upper := 0;
      r := r.(next := WriteOffset0);
    }
    if r.matchLen >= 15 {
      lower := 15;
      r := r.(matchLen := r.matchLen - 15, extra := true);
    } else {
      lower := r.matchLen;
      r := r.(matchLen := 0, extra := false);
    }
    outValue := upper * 16 + lower;
    StartedEntry(r, e, lits);
  }

  lemma StartedEntry(r: Registers, e: Entry, lits: seq<Byte>)
    requires e.lit <= |lits| && r.writeLit == e.lit && r.offset == e.off && (r.ending <==> Ending(e)) && (Ending(e) ==> e.lit > 0)
    requires if e.lit >= 15 then r.next.WriteLitLen? && r.litLen == e.lit - 15
             else if e.lit > 0 then r.next.WriteLiteral? else r.next.WriteOffset0?
    requires if e.mlen >= 15 then r.extra && r.matchLen == e.mlen - 15 else !r.extra
    ensures [TokenByte(e)] + Pending(r, lits) == EntryBytes(e, lits[..e.lit])
  {
    hide Extension, OffsetBytes, TokenByte;
    var l := lits[..e.lit];
    assert Tail(r) == MatchBytes(e);
    if e.lit >= 15 {
      assert [TokenByte(e)] + (More(e.lit) + l + MatchBytes(e)) == [TokenByte(e)] + More(e.lit) + l + MatchBytes(e);
    } else if e.lit > 0 {
      assert [TokenByte(e)] + (l + MatchBytes(e)) == [TokenByte(e)] + [] + l + MatchBytes(e);
    } else {
      assert [TokenByte(e)] + MatchBytes(e) == [TokenByte(e)] + [] + l + MatchBytes(e);
    }
  }

  // Any other step writes the next byte of the current entry.
  method ContinueEntry(r0: Registers, lits0: seq<Byte>) returns (r: Registers, outValue: Byte, lits: seq<Byte>)
    requires InStep(r0) && !r0.readNext && r0.writeLit <= |lits0|
    ensures InStep(r) && r.writeLit <= |lits| && lits[r.writeLit..] == lits0[r0.writeLit..] && r.ending == r0.ending
    ensures [outValue] + Pending(r, lits) == Pending(r0, lits0)
  {
    lits := lits0;
    match r0.next {
      case WriteLitLen => r, outValue := ContinueLength(r0, lits);
      case WriteLiteral => r, outValue, lits := ContinueLiteral(r0, lits0);
      case WriteOffset0 =>
        r := r0.(offset := (r0.offset + 1) % 0x1_0000);
        outValue := r.offset % 256;
        r := r.(next := WriteOffset1);
        OffsetStep(r0.offset);
        assert [outValue] + ([High(r.offset)] + MatchMore(r)) == OffsetBytes(r0.offset) + MatchMore(r);
      case WriteOffset1 =>
        outValue := r0.offset / 256 % 256;
        if r0.extra {
          r := r0.(next := WriteMatchLen);
        } else {
          r := r0.(next := WriteToken, readNext := true);
        }
      case WriteMatchLen =>
        if r0.matchLen >= 255 {
          outValue := 255;
          r := r0.(matchLen := r0.matchLen - 255);
        } else {
          outValue := r0.matchLen;
          r := r0.(next := WriteToken, readNext := true);
        }
    }
  }

  lemma OffsetStep(off: nat)
    requires off < 0x1_0000
    ensures (off + 1) % 0x1_0000 % 256 == (off + 1) % 256
    ensures (off + 1) % 0x1_0000 / 256 % 256 == (off + 1) / 256 % 256
  {
    if off == 0xFFFF {} else {}
  }

  method ContinueLength(r0: Registers, ghost lits: seq<Byte>) returns (r: Registers, outValue: Byte)
    requires InStep(r0) && r0.next.WriteLitLen? && r0.writeLit <= |lits|
    ensures InStep(r) && r.writeLit == r0.writeLit && r.ending == r0.ending
    ensures [outValue] + Pending(r, lits) == Pending(r0, lits)
  {
    hide OffsetBytes;
    if r0.litLen >= 255 {
      outValue := 255;
      r := r0.(litLen := r0.litLen - 255);
      Associate(Extension(r0.litLen), outValue, Extension(r.litLen), lits[..r0.writeLit], Tail(r0));
    } else {
      outValue := r0.litLen;
      r := r0.(next := WriteLiteral);
      Associate(Extension(r0.litLen), outValue, [], lits[..r0.writeLit], Tail(r0));
      assert [] + lits[..r0.writeLit] == lits[..r0.writeLit];
    }
    assert Tail(r) == Tail(r0);
  }

  lemma Associate(e: seq<Byte>, b: Byte, e': seq<Byte>, l: seq<Byte>, t: seq<Byte>)
    requires e == [b] + e'
    ensures [b] + (e' + l + t) == e + l + t
  {
  }

  method ContinueLiteral(r0: Registers, lits0: seq<Byte>) returns (r: Registers, outValue: Byte, lits: seq<Byte>)
    requires InStep(r0) && r0.next.WriteLiteral? && r0.writeLit <= |lits0|
    ensures InStep(r) && r.writeLit <= |lits| && lits[r.writeLit..] == lits0[r0.writeLit..] && r.ending == r0.ending
    ensures [outValue] + Pending(r, lits) == Pending(r0, lits0)
  {
    hide OffsetBytes;
    outValue := lits0[0];
    lits := lits0[1..];
    r := r0.(writeLit := r0.writeLit - 1);
    assert [outValue] + lits[..r.writeLit] == lits0[..r0.writeLit];
    if r.writeLit == 0 {
      if r.ending {
        r := r.(next := WriteToken, readNext := true);
      } else {
        r := r.(next := WriteOffset0);
      }
      assert [outValue] + Tail(r) == [outValue] + lits[..0] + Tail(r);
    } else {
      assert [outValue] + (lits[..r.writeLit] + Tail(r)) == [outValue] + lits[..r.writeLit] + Tail(r);
    }
    assert Tail(r) == Tail(r0);
  }

  // ---------- The whole loop ----------

  // The output stops at the size of the input.
  function Cut(s: seq<Byte>, size: nat): (r: seq<Byte>)
    ensures r <= s && |r| <= size && (|s| <= size ==> r == s)
  {
    if |s| <= size then s else s[..size]
  }

  lemma CutNext(s: seq<Byte>, b: Byte, size: nat)
    ensures Cut(s + [b], size) == if |Cut(s, size)| < size then Cut(s, size) + [b] else Cut(s, size)
  {
  }

  // Bytes written, bytes pending and entries not read yet make up the block.
  ghost predicate Encoding(r: Registers, es: seq<Entry>, k: nat, lits: seq<Byte>, sent: seq<Byte>, all: seq<Byte>) {
    && InStep(r) && k <= |es| && r.writeLit <= |lits| && LitTotal(es[k..]) == |lits| - r.writeLit
    && sent + Pending(r, lits) + Encoded(es[k..], lits[r.writeLit..]) == all
    && (r.ending ==> k == |es|)
  }

  lemma EncodingStarts(es: seq<Entry>, lits: seq<Byte>, r: Registers)
    requires LitTotal(es) == |lits| && r == Registers(WriteToken, 0, 0, 0, 0, false, false, true)
    ensures Encoding(r, es, 0, lits, [], Encoded(es, lits))
  {
    assert es[0..] == es && lits[0..] == lits;
  }

  lemma FirstEntry(es: seq<Entry>, k: nat, lits: seq<Byte>)
    requires k < |es| && LitTotal(es[k..]) == |lits|
    ensures es[k].lit <= |lits| && LitTotal(es[k + 1..]) == |lits| - es[k].lit
    ensures Encoded(es[k..], lits) == EntryBytes(es[k], lits[..es[k].lit]) + Encoded(es[k + 1..], lits[es[k].lit..])
  {
    assert es[k..][1..] == es[k + 1..];
  }

  lemma EncodingReads(r: Registers, r': Registers, b: Byte, es: seq<Entry>, k: nat, lits: seq<Byte>, sent: seq<Byte>, all: seq<Byte>)
    requires Encoding(r, es, k, lits, sent, all) && r.next.WriteToken? && k < |es|
    requires InStep(r') && r'.writeLit == es[k].lit <= |lits| && (r'.ending ==> k + 1 == |es|)
    requires [b] + Pending(r', lits) == EntryBytes(es[k], lits[..es[k].lit])
    ensures Encoding(r', es, k + 1, lits, sent + [b], all)
  {
    hide EntryBytes, Encoded, LitTotal;
    assert lits[0..] == lits;
    FirstEntry(es, k, lits);
    var rest := Encoded(es[k + 1..], lits[es[k].lit..]);
    assert sent + [] == sent;
    assert (sent + [b]) + Pending(r', lits) + rest == sent + ([b] + Pending(r', lits) + rest);
  }

  lemma EncodingContinues(r: Registers, r': Registers, b: Byte, es: seq<Entry>, k: nat, lits: seq<Byte>, lits': seq<Byte>,
                          sent: seq<Byte>, all: seq<Byte>)
    requires Encoding(r, es, k, lits, sent, all)
    requires InStep(r') && r'.writeLit <= |lits'| && lits'[r'.writeLit..] == lits[r.writeLit..] && r'.ending == r.ending
    requires [b] + Pending(r', lits') == Pending(r, lits)
    ensures Encoding(r', es, k, lits', sent + [b], all)
  {
    hide Encoded, LitTotal, Pending;
    var rest := Encoded(es[k..], lits[r.writeLit..]);
    assert (sent + [b]) + Pending(r', lits') + rest == sent + ([b] + Pending(r', lits')) + rest;
  }

  lemma EncodingProceeds(r: Registers, es: seq<Entry>, k: nat, lits: seq<Byte>, sent: seq<Byte>, all: seq<Byte>)
    requires Encoding(r, es, k, lits, sent, all)
    ensures sent <= all && r.writeLit <= |lits| && InStep(r) && k <= |es|
    ensures r.readNext <==> r.next.WriteToken?
    ensures r.next.WriteToken? && k == |es| ==> sent == all
    ensures r.next.WriteToken? && k < |es| ==> es[k].lit <= |lits| && !r.ending
  {
    if r.next.WriteToken? && k < |es| {
      hide Encoded;
      assert es[k..][0] == es[k];
    }
    if r.next.WriteToken? && k == |es| {
      assert es[k..] == [];
    }
  }

  lemma NextUsable(es: seq<Entry>, k: nat, size: nat)
    requires Covers(es, size) && k <= |es|
    ensures Position(es[..k], size) < size <==> k < |es|
    ensures k < |es| ==> es[k].off < 0x1_0000 && (Ending(es[k]) ==> k + 1 == |es| && es[k].lit > 0)
    ensures k < |es| ==> Position(es[..k + 1], size) ==
                         if es[k].mlen == LIMIT && es[k].off == LIMIT then size else Position(es[..k], size) + es[k].mlen + es[k].lit + 4
  {
    if k < |es| {
      assert Usable(es, k, size);
      assert es[..k + 1][..k] == es[..k];
    } else {
      assert es[..k] == es;
    }
  }

  method WriteByte(r0: Registers, es: seq<Entry>, k0: nat, lits0: seq<Byte>, inIdx0: nat, inputSize: nat,
                   ghost sent: seq<Byte>, ghost all: seq<Byte>)
    returns (r: Registers, k: nat, lits: seq<Byte>, inIdx: nat, outValue: Byte)
    requires Encoding(r0, es, k0, lits0, sent, all) && Covers(es, inputSize) && k0 <= |es|
    requires inIdx0 == Position(es[..k0], inputSize) && (inIdx0 < inputSize || !r0.readNext)
    ensures Encoding(r, es, k, lits, sent + [outValue], all) && k <= |es|
    ensures inIdx == Position(es[..k], inputSize)
  {
    hide *;
    EncodingProceeds(r0, es, k0, lits0, sent, all);
    NextUsable(es, k0, inputSize);
    if r0.next.WriteToken? {
      k, lits := k0 + 1, lits0;
      r, outValue, inIdx := StartEntry(r0, es[k0], inIdx0, inputSize, lits0);
      EncodingReads(r0, r, outValue, es, k0, lits0, sent, all);
    } else {
      k, inIdx := k0, inIdx0;
      r, outValue, lits := ContinueEntry(r0, lits0);
      EncodingContinues(r0, r, outValue, es, k0, lits0, lits, sent, all);
    }
  }

  // The bytes written are the block, cut off at the size of the input.
  method Lz4CompressPart2(litStream: seq<Byte>, es: seq<Entry>, inputSize: nat) returns (out: seq<Byte>, compressedSize: nat)
    requires LitTotal(es) == |litStream| && Covers(es, inputSize)
    ensures out == Cut(Encoded(es, litStream), inputSize) && compressedSize == |out|
  {
    hide *;
    out, compressedSize := [], 0;
    var r := Registers(WriteToken, 0, 0, 0, 0, false, false, true);
    ghost var all, sent := Encoded(es, litStream), [];
    EncodingStarts(es, litStream, r);
    EncodingProceeds(r, es, 0, litStream, sent, all);
    NextUsable(es, 0, inputSize);
    CutShort(inputSize);
    var inIdx, k: nat, lits := 0, 0, litStream;
    NothingRead(es, inputSize);
    while inIdx < inputSize || !r.readNext
      invariant Encoding(r, es, k, lits, sent, all) && k <= |es|
      invariant inIdx == Position(es[..k], inputSize)
      invariant sent <= all
      invariant out == Cut(sent, inputSize) && compressedSize == |out|
      decreases |all| - |sent|
    {
      var outValue;
      r, k, lits, inIdx, outValue := WriteByte(r, es, k, lits, inIdx, inputSize, sent, all);
      CutNext(sent, outValue, inputSize);
      if compressedSize < inputSize {
        out := out + [outValue];
        compressedSize := compressedSize + 1;
      }
      sent := sent + [outValue];
      EncodingProceeds(r, es, k, lits, sent, all);
    }
    EncodingProceeds(r, es, k, lits, sent, all);
    NextUsable(es, k, inputSize);
  }

  lemma CutShort(size: nat)
    ensures Cut([], size) == []
  {
  }

  lemma NothingRead(es: seq<Entry>, size: nat)
    ensures Position(es[..0], size) == 0
  {
  }
}
