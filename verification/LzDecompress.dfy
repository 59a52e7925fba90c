// The byte-serial decompressor: near sources come from a shift register, far ones from a ring.

module LzDecompress {
  import opened LzCore
  import opened RingBuffer

  datatype State = ReadState | MatchState | LowOffsetState

  datatype Registers = Registers(next: State, offset: nat, matchLen: nat, outLen: nat, matchLoc: int)

  // prev[j] is the byte j + 1 positions back.
  ghost predicate Shifted(prev: seq<Byte>, out: seq<Byte>) {
    forall j :: 0 <= j < |prev| && j < |out| ==> prev[j] == out[|out| - 1 - j]
  }

  // Every match reaches back no further than the history.
  ghost predicate InHistory(words: seq<Word>, history: nat) {
    forall k :: 0 <= k < |words| && words[k].high16 > 0 ==> words[k].low16 + 1 <= history
  }

  lemma {:induction false} ProducedPrefix(words: seq<Word>, k: nat)
    requires AllSound(words) && k <= |words|
    ensures AllSound(words[..k]) && Produced(words[..k]) <= Produced(words)
    ensures |Produced(words[..k])| + (|words| - k) <= |Produced(words)|
    decreases |words|
  {
    if k < |words| {
      var z := |words| - 1;
      assert words[..z][..k] == words[..k];
      ProducedPrefix(words[..z], k);
      ApplyGrows(Produced(words[..z]), words[z]);
    } else {
      assert words[..k] == words;
    }
  }

  lemma ApplyGrows(out: seq<Byte>, w: Word)
    requires Sound(out, w)
    ensures out <= Apply(out, w) && |Apply(out, w)| == |out| + (if w.high16 == 0 then 1 else w.high16 + 1)
  {
    if w.high16 > 0 { CopyPrefix(out, w.low16 + 1, w.high16 + 1); }
  }

  lemma ProducedNext(words: seq<Word>, k: nat)
    requires AllSound(words) && k < |words|
    ensures AllSound(words[..k]) && Sound(Produced(words[..k]), words[k]) && AllSound(words[..k + 1])
    ensures Produced(words[..k + 1]) == Apply(Produced(words[..k]), words[k])
  {
    ProducedPrefix(words, k + 1);
    ProducedPrefix(words, k);
    assert words[..k + 1][..k] == words[..k];
  }

  // k words are taken; of the last one, when it is a match under way, outLen bytes are out.
  ghost predicate Progress(r: Registers, words: seq<Word>, k: nat, out: seq<Byte>, low: nat) {
    && k <= |words| && AllSound(words) && AllSound(words[..k])
    && (r.next.ReadState? ==> out == Produced(words[..k]))
    && (r.next.LowOffsetState? ==> r.offset < low)
    && (!r.next.ReadState? ==>
          && k > 0 && words[k - 1].high16 > 0 && Underway(r, words[k - 1], words[..k - 1], out)
          && r.matchLen == words[k - 1].high16 + 1)
  }

  ghost predicate Underway(r: Registers, w: Word, before: seq<Word>, out: seq<Byte>) {
    && AllSound(before) && Sound(Produced(before), w) && w.high16 > 0
    && r.offset == w.low16 && 1 <= r.outLen < w.high16 + 1
    && out == Copy(Produced(before), w.low16 + 1, r.outLen)
    && r.matchLoc == |out| - r.offset - 1
  }

  lemma CopyNext(out: seq<Byte>, d: nat, n: nat)
    requires 1 <= d <= |out|
    ensures var c := Copy(out, d, n); Copy(out, d, n + 1) == c + [c[|c| - d]]
  {
    CopySplit(out, d, n, 1);
  }

  // The source byte of a copy is where both memories say it is.
  lemma Sources(prev: seq<Byte>, mem: seq<Byte>, out: seq<Byte>, offset: nat)
    requires Shifted(prev, out) && Ring(mem, out, |out|) && offset < |out|
    ensures offset < |prev| ==> prev[offset] == out[|out| - 1 - offset]
    ensures offset + 1 <= |mem| ==> mem[(|out| - offset - 1) % |mem|] == out[|out| - 1 - offset]
  {
  }

  method Remember(mem: array<Byte>, prev: array<Byte>, b: Byte, ghost out: seq<Byte>, i: nat)
    requires mem != prev && prev.Length > 0 && Shifted(prev[..], out) && Ring(mem[..], out, |out|) && i == |out|
    modifies mem, prev
    ensures Shifted(prev[..], out + [b]) && Ring(mem[..], out + [b], i + 1)
  {
    RingAppend(mem[..], out, b);
    ghost var m0, p0 := mem[..], prev[..];
    Put(mem, i % mem.Length, b);
    ShiftRegister(prev, b);
    ShiftedNext(p0, prev[..], out, b);
  }

  method Put(mem: array<Byte>, i: nat, b: Byte)
    requires i < mem.Length
    modifies mem
    ensures mem[..] == old(mem[..])[i := b]
  {
    mem[i] := b;
  }

  lemma ShiftedNext(p0: seq<Byte>, p: seq<Byte>, out: seq<Byte>, b: Byte)
    requires Shifted(p0, out) && |p| == |p0| > 0 && p == [b] + p0[..|p| - 1]
    ensures Shifted(p, out + [b])
  {
  }

  method ShiftRegister(prev: array<Byte>, b: Byte)
    requires prev.Length > 0
    modifies prev
    ensures prev[..] == [b] + old(prev[..prev.Length - 1])
  {
    var p := prev.Length - 1;
    while p > 0
      invariant 0 <= p < prev.Length
      invariant forall j :: 0 <= j <= p ==> prev[j] == old(prev[j])
      invariant forall j :: p < j < prev.Length ==> prev[j] == old(prev[j - 1])
    {
      prev[p] := prev[p - 1];
      p := p - 1;
    }
    prev[0] := b;
  }

  method ReadByte(words: seq<Word>, k0: nat, r0: Registers, prev: array<Byte>, mem: array<Byte>, ghost out: seq<Byte>, i: nat)
    returns (r: Registers, k: nat, outValue: Byte)
    requires Progress(r0, words, k0, out, prev.Length) && i == |out| < |Produced(words)| && InHistory(words, mem.Length)
    requires Shifted(prev[..], out) && Ring(mem[..], out, |out|) && mem.Length > 0
    ensures Progress(r, words, k, out + [outValue], prev.Length)
  {
    hide *;
    if r0.next.ReadState? {
      AtRead(r0, words, k0, out, prev.Length, mem.Length);
      k := k0 + 1;
      r, outValue := TakeWord(words, k0, r0, prev, mem, out, i);
    } else {
      k := k0;
      r, outValue := CopyOn(words, k0, r0, prev, mem, out, i);
    }
  }

  method TakeWord(words: seq<Word>, k: nat, r0: Registers, prev: array<Byte>, mem: array<Byte>, ghost out: seq<Byte>, i: nat)
    returns (r: Registers, outValue: Byte)
    requires Progress(r0, words, k, out, prev.Length) && r0.next.ReadState? && i == |out| && k < |words| && mem.Length > 0
    requires Shifted(prev[..], out) && Ring(mem[..], out, |out|)
    requires words[k].high16 > 0 ==> words[k].low16 < |out| && words[k].low16 + 1 <= mem.Length
    ensures Progress(r, words, k + 1, out + [outValue], prev.Length)
  {
    hide *;
    r := r0;
    var w := words[k];
    if w.high16 > 0 {
      Sources(prev[..], mem[..], out, w.low16);
      r := r.(offset := w.low16, matchLoc := i - w.low16 - 1, matchLen := w.high16 + 1, outLen := 1);
      if r.offset >= prev.Length {
        r := r.(next := MatchState);
        outValue := mem[r.matchLoc % mem.Length];
      } else {
        r := r.(next := LowOffsetState);
        outValue := prev[r.offset];
      }
      r := r.(matchLoc := r.matchLoc + 1);
      MatchBegins(r0, r, words, k, out, outValue, prev.Length);
    } else {
      outValue := w.low16 % 256;
      LiteralTaken(r, words, k, out, outValue, prev.Length);
    }
  }

  method CopyOn(ghost words: seq<Word>, ghost k: nat, r0: Registers, prev: array<Byte>, mem: array<Byte>, ghost out: seq<Byte>, i: nat)
    returns (r: Registers, outValue: Byte)
    requires Progress(r0, words, k, out, prev.Length) && !r0.next.ReadState? && i == |out| && InHistory(words, mem.Length)
    requires Shifted(prev[..], out) && Ring(mem[..], out, |out|) && mem.Length > 0
    ensures Progress(r, words, k, out + [outValue], prev.Length)
  {
    hide *;
    InMatch(r0, words, k, out, prev.Length, mem.Length);
    Sources(prev[..], mem[..], out, r0.offset);
    if r0.next.LowOffsetState? {
      outValue := prev[r0.offset];
    } else {
      outValue := mem[r0.matchLoc % mem.Length];
    }
    r := r0.(matchLoc := r0.matchLoc + 1, outLen := r0.outLen + 1);
    if r.outLen == r.matchLen { r := r.(next := ReadState); }
    MatchGoesOn(r0, r, words, k, out, outValue, prev.Length);
  }

  lemma AtRead(r: Registers, words: seq<Word>, k: nat, out: seq<Byte>, low: nat, history: nat)
    requires Progress(r, words, k, out, low) && r.next.ReadState? && |out| < |Produced(words)| && InHistory(words, history)
    ensures k < |words| && (words[k].high16 > 0 ==> words[k].low16 < |out| && words[k].low16 + 1 <= history)
  {
    assert words[..|words|] == words;
    if k < |words| { ProducedNext(words, k); }
  }

  lemma InMatch(r: Registers, words: seq<Word>, k: nat, out: seq<Byte>, low: nat, history: nat)
    requires Progress(r, words, k, out, low) && !r.next.ReadState? && InHistory(words, history)
    ensures r.offset < |out| && r.offset + 1 <= history && r.matchLoc == |out| - r.offset - 1
    ensures r.next.LowOffsetState? ==> r.offset < low
  {
    hide AllSound, Produced;
  }

  lemma LiteralTaken(r: Registers, words: seq<Word>, k: nat, out: seq<Byte>, b: Byte, low: nat)
    requires k < |words| && words[k].high16 == 0 && b == words[k].low16 % 256
    requires Progress(r, words, k, out, low) && r.next.ReadState?
    ensures Progress(r, words, k + 1, out + [b], low)
  {
    ProducedNext(words, k);
    hide AllSound, Produced, Underway;
  }

  lemma MatchBegins(r0: Registers, r: Registers, words: seq<Word>, k: nat, out: seq<Byte>, b: Byte, low: nat)
    requires k < |words| && words[k].high16 > 0 && Progress(r0, words, k, out, low) && r0.next.ReadState?
    requires !r.next.ReadState? && r.offset == words[k].low16 < |out| && r.outLen == 1 && r.matchLen == words[k].high16 + 1
    requires r.next.LowOffsetState? ==> r.offset < low
    requires r.matchLoc == |out| - r.offset && b == out[|out| - 1 - r.offset]
    ensures Progress(r, words, k + 1, out + [b], low)
  {
    ProducedNext(words, k);
    hide AllSound, Produced;
    var d := words[k].low16 + 1;
    assert Copy(out, d, 1) == Copy(out + [out[|out| - d]], d, 0);
    assert (k + 1) - 1 == k;
  }

  lemma MatchGoesOn(r: Registers, r': Registers, words: seq<Word>, k: nat, out: seq<Byte>, b: Byte, low: nat)
    requires Progress(r, words, k, out, low) && !r.next.ReadState? && r.offset < |out| && b == out[|out| - 1 - r.offset]
    requires r' == r.(matchLoc := r.matchLoc + 1, outLen := r.outLen + 1, next := if r.outLen + 1 == r.matchLen then ReadState else r.next)
    ensures Progress(r', words, k, out + [b], low)
  {
    ProducedNext(words, k - 1);
    hide AllSound, Produced;
    CopyNext(Produced(words[..k - 1]), r.offset + 1, r.outLen);
  }

  // The output is what the words stand for, as far as it is asked for.
  method LzDecompress(words: seq<Word>, originalSize: nat, history: nat, lowOffset: nat) returns (out: seq<Byte>)
    requires AllSound(words) && InHistory(words, history) && originalSize <= |Produced(words)| && history > 0 && lowOffset > 0
    ensures out == Produced(words)[..originalSize]
  {
    var mem := new Byte[history](_ => 0);
    var prev := new Byte[lowOffset](_ => 0);
    var r := Registers(ReadState, 0, 0, 0, 0);
    var k: nat := 0;
    out := [];
    assert words[..0] == [];
    assert Progress(r, words, 0, [], lowOffset);
    hide *;
    Remembering(prev[..], mem[..]);
    var i := 0;
    while i < originalSize
      invariant 0 <= i <= originalSize && |out| == i
      invariant Progress(r, words, k, out, lowOffset)
      invariant Shifted(prev[..], out) && Ring(mem[..], out, |out|)
    {
      var outValue;
      r, k, outValue := ReadByte(words, k, r, prev, mem, out, i);
      Remember(mem, prev, outValue, out, i);
      out := out + [outValue];
      i := i + 1;
    }
    ProgressIsPrefix(r, words, k, out, lowOffset);
  }

  lemma Remembering(prev: seq<Byte>, mem: seq<Byte>)
    requires |mem| > 0
    ensures Shifted(prev, []) && Ring(mem, [], 0)
  {
  }

  lemma ProgressIsPrefix(r: Registers, words: seq<Word>, k: nat, out: seq<Byte>, low: nat)
    requires Progress(r, words, k, out, low)
    ensures out <= Produced(words)
  {
    ProducedPrefix(words, k);
    if !r.next.ReadState? {
      ProducedNext(words, k - 1);
      var w, before := words[k - 1], Produced(words[..k - 1]);
      var rest := w.high16 + 1 - r.outLen;
      CopySplit(before, w.low16 + 1, r.outLen, rest);
      CopyPrefix(out, w.low16 + 1, rest);
    }
  }
}
