// The second half of the Snappy encoder: the preamble, then a state machine that writes at most
// one byte per step.

module SnappyEncode {
  import opened LzCore
  import opened Lz4Format
  import opened SnappyFormat
  import Lz4Encode

  datatype State = WriteToken | WriteOffset | WriteLiteral | WriteLitLen60 | WriteLitLen61 | WriteLitLen61B1
                 | WriteOffsetC01 | WriteOffsetC10 | WriteOffsetC10B1

  datatype Registers = Registers(next: State, litSecLength: nat, matchLen: nat, offset: nat, outLitLen: nat, ending: bool)

  function Tail(r: Registers): seq<Byte>
    requires InRange(r) && !r.next.WriteToken?
  {
    if r.ending then [] else CopyBytes(r.matchLen, r.offset)
  }

  predicate InRange(r: Registers) {
    r.offset < 0x1_0000 && r.litSecLength < 0x1_0000 && (r.next.WriteToken? || r.ending || 4 <= r.matchLen <= 64)
  }

  // What is still to be written of the current entry.
  function Pending(r: Registers, lits: seq<Byte>): seq<Byte>
    requires r.outLitLen <= |lits| && InRange(r)
  {
    match r.next
    case WriteToken => []
    case WriteOffset => Tail(r)
    case WriteLiteral => lits[..r.outLitLen] + Tail(r)
    case WriteLitLen60 => [r.litSecLength % 256] + lits[..r.outLitLen] + Tail(r)
    case WriteLitLen61 => [r.litSecLength % 256, r.litSecLength / 256 % 256] + lits[..r.outLitLen] + Tail(r)
    case WriteLitLen61B1 => [r.litSecLength / 256 % 256] + lits[..r.outLitLen] + Tail(r)
    case WriteOffsetC01 => [r.offset % 256]
    case WriteOffsetC10 => [r.offset % 256, r.offset / 256 % 256]
    case WriteOffsetC10B1 => [r.offset / 256 % 256]
  }

  predicate HasLiterals(s: State) {
    s.WriteLiteral? || s.WriteLitLen60? || s.WriteLitLen61? || s.WriteLitLen61B1?
  }

  predicate InStep(r: Registers) {
    InRange(r) && (r.outLitLen > 0 <==> HasLiterals(r.next)) && (r.ending ==> HasLiterals(r.next))
  }

  // `out` is the byte written, if there is one.
  method StartEntry(r0: Registers, e: Entry, large: bool, ghost lits: seq<Byte>) returns (r: Registers, out: seq<Byte>)
    requires Proper(e) && e.lit <= |lits| && (large || e.lit <= 60) && !r0.ending
    ensures InStep(r) && !r.next.WriteToken? && r.outLitLen == e.lit && |out| <= 1
    ensures out + Pending(r, lits) == Section(e, lits[..e.lit])
  {
    r := r0.(litSecLength := e.lit, matchLen := e.mlen, offset := e.off, outLitLen := e.lit);
    if e.off == 0 && e.mlen == 0 { r := r.(ending := true); }
    out := [];
    if e.lit == 0 {
      r := r.(next := WriteOffset);
    } else if e.lit <= 60 {
      out := [(e.lit - 1) * 4];
      r := r.(next := WriteLiteral);
    } else if e.lit < 256 {
      out := [60 * 4];
      r := r.(litSecLength := e.lit - 1, next := WriteLitLen60);
    } else {
      out := [61 * 4];
      r := r.(litSecLength := e.lit - 1, next := WriteLitLen61);
    }
    Started(r, e, lits, out);
  }

  lemma Started(r: Registers, e: Entry, lits: seq<Byte>, out: seq<Byte>)
    requires Proper(e) && e.lit <= |lits| && InRange(r) && r.outLitLen == e.lit && r.matchLen == e.mlen && r.offset == e.off
    requires r.ending <==> NoCopy(e)
    requires if e.lit == 0 then r.next.WriteOffset? && out == []
             else if e.lit <= 60 then r.next.WriteLiteral? && out == [(e.lit - 1) * 4]
             else if e.lit < 256 then r.next.WriteLitLen60? && out == [240] && r.litSecLength == e.lit - 1
             else r.next.WriteLitLen61? && out == [244] && r.litSecLength == e.lit - 1
    ensures out + Pending(r, lits) == Section(e, lits[..e.lit])
  {
    hide CopyBytes;
    var l, t := lits[..e.lit], Tail(r);
    if e.lit == 0 {
      assert [] + [] + t == [] + t;
    } else if e.lit <= 60 {
      Joined(out, [], l, t);
      assert [] + l == l && out + [] == out;
    } else if e.lit < 256 {
      Joined(out, [r.litSecLength % 256], l, t);
    } else {
      Joined(out, [r.litSecLength % 256, r.litSecLength / 256 % 256], l, t);
    }
  }

  lemma Joined(a: seq<Byte>, b: seq<Byte>, l: seq<Byte>, t: seq<Byte>)
    ensures a + (b + l + t) == a + b + l + t
    ensures a + (b + l + t) == (a + b) + l + t
  {
  }

  method ContinueEntry(r0: Registers, lits0: seq<Byte>) returns (r: Registers, outValue: Byte, lits: seq<Byte>)
    requires InStep(r0) && !r0.next.WriteToken? && r0.outLitLen <= |lits0|
    ensures InStep(r) && r.outLitLen <= |lits| && lits[r.outLitLen..] == lits0[r0.outLitLen..]
    ensures [outValue] + Pending(r, lits) == Pending(r0, lits0)
  {
    lits := lits0;
    if r0.next.WriteOffset? {
      r, outValue := ContinueOffset(r0);
    } else if r0.next.WriteLiteral? {
      r, outValue, lits := ContinueLiteral(r0, lits0);
    } else if HasLiterals(r0.next) {
      r, outValue := ContinueLength(r0, lits0);
    } else if r0.next.WriteOffsetC01? {
      outValue := r0.offset % 256;
      r := r0.(next := WriteToken);
    } else if r0.next.WriteOffsetC10? {
      outValue := r0.offset % 256;
      r := r0.(next := WriteOffsetC10B1);
    } else {
      outValue := r0.offset / 256 % 256;
      r := r0.(next := WriteToken);
    }
  }

  method ContinueOffset(r0: Registers) returns (r: Registers, outValue: Byte)
    requires InStep(r0) && r0.next.WriteOffset?
    ensures InStep(r) && r.outLitLen == 0
    ensures [outValue] + Pending(r, []) == Pending(r0, [])
    ensures !HasLiterals(r.next) && !r.next.WriteOffset?
  {
    if r0.matchLen <= 11 && r0.offset <= 2047 {
      outValue := 1 + (r0.matchLen - 4) * 4 + r0.offset / 256 % 8 * 32;
      r := r0.(next := WriteOffsetC01);
    } else {
      outValue := 2 + (r0.matchLen - 1) * 4;
      r := r0.(next := WriteOffsetC10);
    }
  }

  method ContinueLength(r0: Registers, ghost lits: seq<Byte>) returns (r: Registers, outValue: Byte)
    requires InStep(r0) && HasLiterals(r0.next) && !r0.next.WriteLiteral? && r0.outLitLen <= |lits|
    ensures InStep(r) && r.outLitLen == r0.outLitLen
    ensures [outValue] + Pending(r, lits) == Pending(r0, lits)
  {
    if r0.next.WriteLitLen60? {
      outValue := r0.litSecLength % 256;
      r := r0.(next := WriteLiteral);
    } else if r0.next.WriteLitLen61? {
      outValue := r0.litSecLength % 256;
      r := r0.(next := WriteLitLen61B1);
    } else {
      outValue := r0.litSecLength / 256 % 256;
      r := r0.(next := WriteLiteral);
    }
    LengthStep(r0, r, outValue, lits);
  }

  lemma LengthStep(r0: Registers, r: Registers, b: Byte, lits: seq<Byte>)
    requires InStep(r0) && HasLiterals(r0.next) && !r0.next.WriteLiteral? && r0.outLitLen <= |lits|
    requires r == r0.(next := if r0.next.WriteLitLen61? then WriteLitLen61B1 else WriteLiteral)
    requires b == if r0.next.WriteLitLen61B1? then r0.litSecLength / 256 % 256 else r0.litSecLength % 256
    ensures InStep(r) && [b] + Pending(r, lits) == Pending(r0, lits)
  {
    hide CopyBytes;
    var l, t := lits[..r0.outLitLen], Tail(r0);
    assert Tail(r) == t;
    hide Tail;
    if r0.next.WriteLitLen61? {
      Joined([b], [r0.litSecLength / 256 % 256], l, t);
    } else {
      Joined([b], [], l, t);
      assert [] + l == l && [b] + [] == [b];
    }
  }

  method ContinueLiteral(r0: Registers, lits0: seq<Byte>) returns (r: Registers, outValue: Byte, lits: seq<Byte>)
    requires InStep(r0) && r0.next.WriteLiteral? && r0.outLitLen <= |lits0|
    ensures InStep(r) && r.outLitLen <= |lits| && lits[r.outLitLen..] == lits0[r0.outLitLen..]
    ensures [outValue] + Pending(r, lits) == Pending(r0, lits0)
  {
    hide CopyBytes;
    outValue := lits0[0];
    lits := lits0[1..];
    r := r0.(outLitLen := r0.outLitLen - 1);
    assert [outValue] + lits[..r.outLitLen] == lits0[..r0.outLitLen];
    assert [outValue] + (lits[..r.outLitLen] + Tail(r0)) == lits0[..r0.outLitLen] + Tail(r0);
    if r.outLitLen == 0 {
      assert lits[..0] == [];
      if r.ending {
        r := r.(next := WriteToken, ending := false);
      } else {
        r := r.(next := WriteOffset);
        assert [] + Tail(r0) == Tail(r0);
      }
    }
  }

  // ---------- The whole loop ----------

  // Bytes written, bytes pending and entries not read yet make up the block.
  ghost predicate Encoding(r: Registers, es: seq<Entry>, k: nat, lits: seq<Byte>, sent: seq<Byte>, all: seq<Byte>) {
    && InStep(r) && k <= |es| && r.outLitLen <= |lits| && AllProper(es[k..]) && LitTotal(es[k..]) == |lits| - r.outLitLen
    && sent + Pending(r, lits) + Sections(es[k..], lits[r.outLitLen..]) == all
  }

  lemma EncodingStarts(es: seq<Entry>, lits: seq<Byte>, r: Registers)
    requires LitTotal(es) == |lits| && AllProper(es) && r == Registers(WriteToken, 0, 0, 0, 0, false)
    ensures Encoding(r, es, 0, lits, [], Sections(es, lits))
  {
    assert es[0..] == es && lits[0..] == lits;
  }

  lemma FirstSection(es: seq<Entry>, k: nat, lits: seq<Byte>)
    requires k < |es| && AllProper(es[k..]) && LitTotal(es[k..]) == |lits|
    ensures AllProper(es[k + 1..]) && Proper(es[k]) && es[k].lit <= |lits| && LitTotal(es[k + 1..]) == |lits| - es[k].lit
    ensures Sections(es[k..], lits) == Section(es[k], lits[..es[k].lit]) + Sections(es[k + 1..], lits[es[k].lit..])
  {
    assert es[k..][1..] == es[k + 1..] && es[k..][0] == es[k];
  }

  lemma EncodingOpens(r: Registers, es: seq<Entry>, k: nat, lits: seq<Byte>, sent: seq<Byte>, all: seq<Byte>)
    requires Encoding(r, es, k, lits, sent, all)
    ensures InStep(r) && k <= |es| && r.outLitLen <= |lits| && AllProper(es[k..]) && LitTotal(es[k..]) == |lits| - r.outLitLen
    ensures sent + Pending(r, lits) + Sections(es[k..], lits[r.outLitLen..]) == all && sent <= all
    ensures r.next.WriteToken? ==> r.outLitLen == 0 && lits[0..] == lits && Pending(r, lits) == [] && !r.ending
  {
    hide Sections, AllProper, LitTotal;
  }

  lemma EncodingReads(r: Registers, r': Registers, b: seq<Byte>, es: seq<Entry>, k: nat, lits: seq<Byte>, sent: seq<Byte>, all: seq<Byte>)
    requires Encoding(r, es, k, lits, sent, all) && r.next.WriteToken? && k < |es|
    requires InStep(r') && Proper(es[k]) && r'.outLitLen == es[k].lit <= |lits|
    requires b + Pending(r', lits) == Section(es[k], lits[..es[k].lit])
    ensures Encoding(r', es, k + 1, lits, sent + b, all)
  {
    hide Section, Sections, LitTotal, AllProper, Pending, InStep, Proper;
    EncodingOpens(r, es, k, lits, sent, all);
    InStepRange(r');
    FirstSection(es, k, lits);
    Associated(sent, b, Pending(r', lits), Sections(es[k + 1..], lits[es[k].lit..]));
  }

  lemma Associated(sent: seq<Byte>, b: seq<Byte>, p: seq<Byte>, rest: seq<Byte>)
    ensures (sent + b) + p + rest == sent + [] + (b + p + rest)
    ensures (sent + b) + p + rest == sent + (b + p) + rest
  {
  }

  lemma EncodingContinues(r: Registers, r': Registers, b: Byte, es: seq<Entry>, k: nat, lits: seq<Byte>, lits': seq<Byte>,
                          sent: seq<Byte>, all: seq<Byte>)
    requires Encoding(r, es, k, lits, sent, all)
    requires InStep(r') && r'.outLitLen <= |lits'| && lits'[r'.outLitLen..] == lits[r.outLitLen..]
    requires r.outLitLen <= |lits| && InRange(r) && [b] + Pending(r', lits') == Pending(r, lits)
    ensures Encoding(r', es, k, lits', sent + [b], all)
  {
    hide Sections, LitTotal, AllProper, Pending;
    Associated(sent, [b], Pending(r', lits'), Sections(es[k..], lits[r.outLitLen..]));
  }

  // Where the encoder counts itself: at the reach of the entries read.
  lemma NextEntry(es: seq<Entry>, k: nat, size: nat)
    requires AllProper(es) && Reach(es) == size && k <= |es|
    ensures Reach(es[..k]) < size <==> k < |es|
    ensures k < |es| ==> Proper(es[k]) && Reach(es[..k + 1]) == Reach(es[..k]) + es[k].mlen + es[k].lit
  {
    ReachPrefix(es, k);
    if k < |es| {
      assert es[..k + 1][..k] == es[..k];
    } else {
      assert es[..k] == es;
    }
  }

  method WriteStep(r0: Registers, es: seq<Entry>, k0: nat, lits0: seq<Byte>, large: bool, ghost sent: seq<Byte>, ghost all: seq<Byte>)
    returns (r: Registers, k: nat, lits: seq<Byte>, out: seq<Byte>)
    requires Encoding(r0, es, k0, lits0, sent, all) && k0 <= |es| && (r0.next.WriteToken? ==> k0 < |es| && Proper(es[k0]) && (large || es[k0].lit <= 60))
    ensures Encoding(r, es, k, lits, sent + out, all) && |out| <= 1
    ensures if r0.next.WriteToken? then k == k0 + 1 && !r.next.WriteToken? else k == k0 && |out| == 1
  {
    hide *;
    EncodingOpens(r0, es, k0, lits0, sent, all);
    if r0.next.WriteToken? {
      k, lits := k0 + 1, lits0;
      FirstSection(es, k0, lits0);
      r, out := StartEntry(r0, es[k0], large, lits0);
      EncodingReads(r0, r, out, es, k0, lits0, sent, all);
    } else {
      k := k0;
      var outValue;
      r, outValue, lits := ContinueEntry(r0, lits0);
      InStepRange(r0);
      EncodingContinues(r0, r, outValue, es, k0, lits0, lits, sent, all);
      out := [outValue];
    }
  }

  lemma InStepRange(r: Registers)
    requires InStep(r)
    ensures InRange(r)
  {
  }

  // Runs of more than 60 literals need the longer tags.
  ghost predicate Expressible(es: seq<Entry>, large: bool) {
    AllProper(es) && (large || forall k :: 0 <= k < |es| ==> es[k].lit <= 60)
  }

  lemma ExpressibleAt(es: seq<Entry>, large: bool, k: nat)
    requires Expressible(es, large)
    ensures AllProper(es) && (k < |es| ==> large || es[k].lit <= 60)
  {
  }

  method WritePreamble(inputSize: nat) returns (out: seq<Byte>)
    requires inputSize < 0x20_0000
    ensures out == Preamble(inputSize)
  {
    out := [];
    if inputSize >= 0x4000 {
      out := out + [inputSize % 128 + 128];
      out := out + [inputSize / 128 % 128 + 128];
      out := out + [inputSize / 0x4000 % 256];
    } else if inputSize >= 128 {
      out := out + [inputSize % 128 + 128];
      out := out + [inputSize / 128 % 256];
    } else {
      out := out + [inputSize % 256];
    }
  }

  lemma PreambleFits(size: nat)
    requires 0 < size < 0x20_0000
    ensures 1 <= |Preamble(size)| <= size
  {
  }

  // The preamble and the sections, cut off at the size of the input.
  method SnappyCompressPart2(litStream: seq<Byte>, es: seq<Entry>, inputSize: nat, large: bool) returns (out: seq<Byte>, compressedSize: nat)
    requires LitTotal(es) == |litStream| && Expressible(es, large) && Reach(es) == inputSize < 0x20_0000
    ensures AllProper(es) && compressedSize == |out|
    ensures out == if inputSize == 0 then [] else Preamble(inputSize) + Lz4Encode.Cut(Sections(es, litStream), inputSize - |Preamble(inputSize)|)
  {
    ExpressibleAt(es, large, 0);
    if inputSize == 0 {
      out, compressedSize := [], 0;
      return;
    }
    PreambleFits(inputSize);
    hide *;
    out := WritePreamble(inputSize);
    out := WriteSections(litStream, es, inputSize, large, out);
    compressedSize := |out|;
  }

  method WriteSections(litStream: seq<Byte>, es: seq<Entry>, inputSize: nat, large: bool, pre: seq<Byte>) returns (out: seq<Byte>)
    requires LitTotal(es) == |litStream| && Expressible(es, large) && AllProper(es) && Reach(es) == inputSize && |pre| <= inputSize
    ensures out == pre + Lz4Encode.Cut(Sections(es, litStream), inputSize - |pre|)
  {
    hide *;
    var room := inputSize - |pre|;
    var compressedSize := |pre|;
    var written: seq<Byte> := [];
    ghost var all, sent := Sections(es, litStream), [];
    var r := Registers(WriteToken, 0, 0, 0, 0, false);
    EncodingStarts(es, litStream, r);
    EncodingOpens(r, es, 0, litStream, sent, all);
    NothingCut(room);
    NothingReached(es);
    var inIdx: nat, k: nat, lits := 0, 0, litStream;
    while inIdx < inputSize || !r.next.WriteToken?
      invariant Encoding(r, es, k, lits, sent, all) && k <= |es| && inIdx == Reach(es[..k]) && sent <= all
      invariant written == Lz4Encode.Cut(sent, room) && compressedSize == |pre| + |written|
      decreases |all| - |sent|, r.next.WriteToken?
    {
      NextEntry(es, k, inputSize);
      ExpressibleAt(es, large, k);
      var value;
      ghost var r0, k0 := r, k;
      if r.next.WriteToken? { inIdx := inIdx + es[k].mlen + es[k].lit; }
      r, k, lits, value := WriteStep(r, es, k, lits, large, sent, all);
      if |value| == 1 {
        Lz4Encode.CutNext(sent, value[0], room);
        assert sent + value == sent + [value[0]];
        if compressedSize < inputSize {
          written := written + [value[0]];
          compressedSize := compressedSize + 1;
        }
      } else {
        assert sent + value == sent;
      }
      sent := sent + value;
      EncodingOpens(r, es, k, lits, sent, all);
    }
    NextEntry(es, k, inputSize);
    EncodingOpens(r, es, k, lits, sent, all);
    AllSent(es, k, lits, sent);
    out := pre + written;
  }

  lemma AllSent(es: seq<Entry>, k: nat, lits: seq<Byte>, sent: seq<Byte>)
    requires k == |es| && AllProper(es[k..]) && LitTotal(es[k..]) == |lits|
    ensures sent + [] + Sections(es[k..], lits) == sent
  {
    assert es[k..] == [];
  }

  lemma NothingReached(es: seq<Entry>)
    ensures Reach(es[..0]) == 0
  {
  }

  lemma NothingCut(size: nat)
    ensures Lz4Encode.Cut([], size) == []
  {
  }
}
