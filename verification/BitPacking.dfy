// Fields of 1 to 15 bits packed into bytes, lowest bit first, up to an empty stored block that
// makes the end byte-aligned (RFC 1951, section 3.2.4); and the bit buffer that reads them back.

module BitPacking {
  import opened Arithmetic
  import opened Modular
  import opened CanonicalCodes
  import opened BitStrings
  import opened HuffmanCodec
  import opened LzCore

  function FieldBits(fields: seq<Codeword>): seq<Bit> {
    if fields == [] then [] else LowBits(fields[0].codeword, fields[0].bitlength) + FieldBits(fields[1..])
  }

  lemma {:induction false} FieldBitsConcat(a: seq<Codeword>, b: seq<Codeword>)
    ensures FieldBits(a + b) == FieldBits(a) + FieldBits(b)
  {
    if a == [] {
      assert a + b == b;
    } else {
      assert (a + b)[1..] == a[1..] + b;
      FieldBitsConcat(a[1..], b);
      hide LowBits;
    }
  }

  // ---------- Registers of bits ----------

  // w in the bits above the n low bits, which hold v.
  function Joined(v: nat, n: nat, w: nat): nat {
    v + Pow2(n) * w
  }

  lemma {:induction false} BitsJoin(v: nat, n: nat, w: nat, m: nat)
    requires v < Pow2(n)
    ensures LowBits(Joined(v, n, w), n + m) == LowBits(v, n) + LowBits(w, m)
    decreases n
  {
    if n == 0 {
      assert Pow2(0) * w == w;
    } else {
      HalfJoin(v, n, w);
      BitsJoin(v / 2, n - 1, w, m);
    }
  }

  lemma HalfJoin(v: nat, n: nat, w: nat)
    requires n > 0
    ensures (v + Pow2(n) * w) % 2 == v % 2 && (v + Pow2(n) * w) / 2 == v / 2 + Pow2(n - 1) * w
  {
    var p := Pow2(n - 1) * w;
    assert Pow2(n) * w == 2 * p by { TwiceProduct(Pow2(n - 1), w); }
  }

  lemma TwiceProduct(p: nat, w: nat)
    ensures (2 * p) * w == 2 * (p * w)
  {
  }

  lemma JoinBound(v: nat, n: nat, w: nat, m: nat)
    requires v < Pow2(n) && w < Pow2(m)
    ensures Joined(v, n, w) < Pow2(n + m)
  {
    Pow2Add(n, m);
    Mono(Pow2(n), w + 1, Pow2(m));
    Distributed(Pow2(n), w);
  }

  lemma Distributed(p: nat, w: nat)
    ensures p * (w + 1) == p * w + p
  {
  }

  // ---------- Bytes ----------

  function ByteBits(bytes: seq<Byte>): seq<Bit> {
    if bytes == [] then [] else LowBits(bytes[0], 8) + ByteBits(bytes[1..])
  }

  lemma {:induction false} ByteBitsConcat(a: seq<Byte>, b: seq<Byte>)
    ensures ByteBits(a + b) == ByteBits(a) + ByteBits(b)
  {
    if a == [] {
      assert a + b == b;
    } else {
      assert (a + b)[1..] == a[1..] + b;
      ByteBitsConcat(a[1..], b);
      hide LowBits;
    }
  }

  lemma Pow2Of8()
    ensures Pow2(8) == 256
  {
    assert Pow2(4) == 16;
  }

  lemma ShiftedBy2(v: nat)
    ensures ShiftRight(v, 2) == v / 4
  {
    assert ShiftRight(v / 2, 1) == v / 2 / 2;
  }

  lemma ShiftedBy8(v: nat)
    ensures ShiftRight(v, 8) == v / 256
  {
    ShiftSplit(v, 4, 4);
    ShiftSplit(v, 2, 2);
    ShiftSplit(v / 16, 2, 2);
    ShiftedBy2(v);
    ShiftedBy2(v / 4);
    ShiftedBy2(v / 16);
    ShiftedBy2(v / 64);
    hide ShiftRight;
  }

  lemma {:induction false} ShiftSplit(v: nat, a: nat, b: nat)
    ensures ShiftRight(v, a + b) == ShiftRight(ShiftRight(v, a), b)
    decreases a
  {
    if a > 0 { ShiftSplit(v / 2, a - 1, b); }
  }

  lemma LowByte(v: nat)
    ensures LowBits(v % 256, 8) == LowBits(v, 8)
  {
    Pow2Of8();
    var q, r := v / 256, v % 256;
    BitsJoin(r, 8, q, 0);
    assert v == r + 256 * q;
    LowBitsSplit(v, 8, 0);
    assert LowBits(v, 8) + [] == LowBits(v, 8) && LowBits(r, 8) + [] == LowBits(r, 8);
  }

  // A 16-bit word goes out as two bytes.
  lemma WordBytes(v: nat)
    ensures ByteBits([v % 256, v / 256 % 256]) == LowBits(v, 16)
  {
    LowByte(v);
    LowByte(v / 256);
    LowBitsSplit(v, 8, 8);
    ShiftedBy8(v);
    var a: Byte, b: Byte := v % 256, v / 256 % 256;
    OneByte(v);
    OneByte(v / 256);
    hide ByteBits, LowBits, ShiftRight;
    assert [a, b] == [a] + [b];
    ByteBitsConcat([a], [b]);
  }

  lemma OneByte(v: nat)
    ensures ByteBits([v % 256]) == LowBits(v, 8)
  {
    LowByte(v);
    assert [v % 256][1..] == [];
    assert LowBits(v, 8) + [] == LowBits(v, 8);
  }

  // ---------- bitPackingStream ----------

  // The register holds these bits and nothing above them.
  ghost predicate Held(v: nat, n: nat, bits: seq<Bit>) {
    v < Pow2(n) && LowBits(v, n) == bits
  }

  lemma FieldHeld(v: nat, n: nat, bits: seq<Bit>, code: nat, size: nat)
    requires Held(v, n, bits)
    ensures Held(Joined(v, n, KeepLow(code, size)), n + size, bits + LowBits(code, size))
  {
    hide LowBits, KeepLow, Joined, Pow2;
    BitsJoin(v, n, KeepLow(code, size), size);
    JoinBound(v, n, KeepLow(code, size), size);
    KeptBits(code, size, size);
  }

  lemma ShiftedBy16(v: nat)
    ensures ShiftRight(v, 16) == v / 0x1_0000
  {
    ShiftSplit(v, 8, 8);
    ShiftedBy8(v);
    ShiftedBy8(v / 256);
  }

  lemma WordLeaves(v: nat, n: nat)
    requires v < Pow2(n) && n >= 16
    ensures v / 0x1_0000 < Pow2(n - 16)
    ensures LowBits(v, n) == LowBits(v, 16) + LowBits(v / 0x1_0000, n - 16)
  {
    hide *;
    ShiftedBy16(v);
    ShiftedSmall(v, 16, n - 16);
    LowBitsSplit(v, 16, n - 16);
    assert 16 + (n - 16) == n;
  }

  // Bytes out and bits in the register.
  ghost predicate Packed(out: seq<Byte>, v: nat, n: nat, bits: seq<Bit>) {
    v < Pow2(n) && ByteBits(out) + LowBits(v, n) == bits
  }

  lemma PackedField(out: seq<Byte>, v: nat, n: nat, bits: seq<Bit>, code: nat, size: nat)
    requires Packed(out, v, n, bits)
    ensures Packed(out, Joined(v, n, KeepLow(code, size)), n + size, bits + LowBits(code, size))
  {
    hide ByteBits, LowBits, KeepLow, Joined, Pow2;
    FieldHeld(v, n, LowBits(v, n), code, size);
    assert ByteBits(out) + (LowBits(v, n) + LowBits(code, size)) == bits + LowBits(code, size);
  }

  lemma PackedWord(out: seq<Byte>, v: nat, n: nat, bits: seq<Bit>)
    requires Packed(out, v, n, bits) && n >= 16
    ensures Packed(out + [v % 256, v / 256 % 256], v / 0x1_0000, n - 16, bits)
  {
    hide ByteBits, LowBits, Pow2;
    WordLeaves(v, n);
    WordBytes(v);
    ByteBitsConcat(out, [v % 256, v / 256 % 256]);
    assert ByteBits(out) + (LowBits(v, 16) + LowBits(v / 0x1_0000, n - 16))
        == ByteBits(out) + LowBits(v, 16) + LowBits(v / 0x1_0000, n - 16);
  }

  lemma PackedByte(out: seq<Byte>, v: nat, bits: seq<Bit>)
    requires Packed(out, v, 8, bits)
    ensures ByteBits(out + [v % 256]) == bits
  {
    hide ByteBits, LowBits, Pow2;
    OneByte(v);
    ByteBitsConcat(out, [v % 256]);
  }

  // The zero bits of the header and up to the next byte, after n bits.
  function Gap(n: nat): (z: nat)
    ensures (n + z) % 8 == 0 && 3 <= z <= 10
  {
    if (n + 3) % 8 == 0 then 3 else 11 - (n + 3) % 8
  }

  // An empty stored block: its header, a length of zero and its complement.
  function EmptyBlock(n: nat): seq<Bit> {
    Same(0, Gap(n)) + Same(0, 16) + Same(1, 16)
  }

  lemma {:induction false} OnesBits(n: nat)
    ensures LowBits(Pow2(n) - 1, n) == Same(1, n)
  {
    if n > 0 {
      OnesBits(n - 1);
      assert (Pow2(n) - 1) % 2 == 1 && (Pow2(n) - 1) / 2 == Pow2(n - 1) - 1;
      SameFront(1, n - 1);
    }
  }

  lemma Pow2Of16()
    ensures Pow2(16) == 0x1_0000
  {
    hide *;
    Pow2Of8();
    Pow2Add(8, 8);
  }

  // LEN and NLEN.
  lemma LengthFieldBits()
    ensures LowBits(0xffff_0000, 32) == Same(0, 16) + Same(1, 16)
  {
    hide *;
    Pow2Of16();
    OnesBits(16);
    ZeroBits(16);
    ZeroFits(16);
    BitsJoin(0, 16, 0xffff, 16);
    JoinedIs(0, 16, 0xffff);
  }

  lemma JoinedIs(v: nat, n: nat, w: nat)
    ensures Joined(v, n, w) == v + Pow2(n) * w
  {
  }

  lemma ZeroFits(n: nat)
    ensures 0 < Pow2(n)
  {
  }

  // A number from its bits, lowest first.
  function NumberOf(s: seq<Bit>): nat {
    if s == [] then 0 else s[0] + 2 * NumberOf(s[1..])
  }

  lemma {:induction false} NumberOfBits(v: nat, n: nat)
    requires v < Pow2(n)
    ensures NumberOf(LowBits(v, n)) == v
  {
    if n > 0 { NumberOfBits(v / 2, n - 1); }
  }

  // A stored block without data that is not the last one, n bits into a stream (RFC 1951, section
  // 3.2.4): three zero bits, up to the next byte, a length of zero and its complement.
  ghost predicate StoredNothing(s: seq<Bit>, n: nat) {
    var z := 3 + (8 - (n + 3) % 8) % 8;
    && |s| == z + 32 && (n + z) % 8 == 0 && s[0] == 0 && s[1] == 0 && s[2] == 0
    && NumberOf(s[z..z + 16]) == 0 && NumberOf(s[z..z + 16]) + NumberOf(s[z + 16..z + 32]) == 0xffff
  }

  lemma EmptyBlockReads(n: nat)
    ensures StoredNothing(EmptyBlock(n), n)
  {
    hide *;
    var z := Gap(n);
    GapIs(n);
    SixteenBits();
    AllSame(0, z);
    EmptyBlockParts(n);
    ThreePieces(Same(0, z), Same(0, 16), Same(1, 16));
    IsStoredNothing(EmptyBlock(n), n, z);
  }

  lemma GapIs(n: nat)
    ensures Gap(n) == 3 + (8 - (n + 3) % 8) % 8
  {
  }

  lemma SixteenBits()
    ensures NumberOf(Same(0, 16)) == 0 && NumberOf(Same(1, 16)) == 0xffff
  {
    hide *;
    Pow2Of16();
    ZeroBits(16);
    OnesBits(16);
    NumberOfBits(0, 16);
    NumberOfBits(0xffff, 16);
  }

  lemma EmptyBlockParts(n: nat)
    ensures EmptyBlock(n) == Same(0, Gap(n)) + Same(0, 16) + Same(1, 16)
  {
    hide Same, Gap;
  }

  lemma ThreePieces(a: seq<Bit>, b: seq<Bit>, c: seq<Bit>)
    ensures (a + b + c)[..|a|] == a && (a + b + c)[|a|..|a| + |b|] == b && (a + b + c)[|a| + |b|..|a| + |b| + |c|] == c
  {
  }

  lemma IsStoredNothing(s: seq<Bit>, n: nat, z: nat)
    requires z == 3 + (8 - (n + 3) % 8) % 8 && |s| == z + 32 && forall k :: 0 <= k < z ==> s[..z][k] == 0
    requires NumberOf(s[z..z + 16]) == 0 && NumberOf(s[z + 16..z + 32]) == 0xffff
    ensures StoredNothing(s, n)
  {
    hide NumberOf;
    assert s[0] == s[..z][0] && s[1] == s[..z][1] && s[2] == s[..z][2];
  }

  lemma {:induction false} AllSame(b: Bit, n: nat)
    ensures forall k :: 0 <= k < n ==> Same(b, n)[k] == b
  {
    if n > 0 { AllSame(b, n - 1); }
  }

  // Eight zero bits, then LEN and NLEN.
  lemma AlignedBits()
    ensures LowBits(0xff_ff00_0000, 40) == Same(0, 8) + (Same(0, 16) + Same(1, 16))
  {
    hide *;
    Pow2Of8();
    ZeroBits(8);
    LengthFieldBits();
    BitsJoin(0, 8, 0xffff_0000, 32);
    JoinedIs(0, 8, 0xffff_0000);
  }

  lemma PackedGap(out: seq<Byte>, v: nat, n: nat, m: nat, bits: seq<Bit>)
    requires Packed(out, v, n, bits) && n <= m
    ensures Packed(out, v, m, bits + Same(0, m - n))
  {
    hide ByteBits, LowBits, Same, Pow2;
    Widened(v, n, m - n);
    Pow2Mono(n, m);
    assert ByteBits(out) + (LowBits(v, n) + Same(0, m - n)) == bits + Same(0, m - n);
  }

  lemma PackedValue(out: seq<Byte>, v: nat, n: nat, bits: seq<Bit>, w: nat, m: nat)
    requires Packed(out, v, n, bits) && w < Pow2(m)
    ensures Packed(out, Joined(v, n, w), n + m, bits + LowBits(w, m))
  {
    hide *;
    SmallKept(w, m);
    PackedField(out, v, n, bits, w, m);
  }

  // The bytes so far end n bits into the stream.
  lemma {:induction false} ByteBitsLength(bytes: seq<Byte>)
    ensures |ByteBits(bytes)| == 8 * |bytes|
  {
    if bytes != [] {
      ByteBitsLength(bytes[1..]);
      hide LowBits;
    }
  }

  lemma Big(m: nat)
    requires m == 32 || m == 40
    ensures 0xffff_0000 < Pow2(32) && 0xff_ff00_0000 < Pow2(40)
  {
    hide *;
    Pow2Of8();
    Pow2Of16();
    Pow2Add(16, 16);
    Pow2Add(32, 8);
  }

  // The empty stored block is put behind the bits left over.
  method CloseBlock(out0: seq<Byte>, localBits: nat, localBitsIdx: nat, ghost bits: seq<Bit>) returns (packedBits: nat, idx: nat)
    requires Packed(out0, localBits, localBitsIdx, bits)
    ensures Packed(out0, packedBits, idx, bits + EmptyBlock(|bits|)) && idx % 8 == 0
  {
    hide *;
    ByteBitsLength(out0);
    PackedLength(out0, localBits, localBitsIdx, bits);
    GapAligns(|bits|, localBitsIdx, |out0|);
    Big(32);
    idx := localBitsIdx;
    if idx % 8 != 0 {
      idx := idx + 3;
      if idx % 8 != 0 { idx := idx + (8 - idx % 8); }
      PackedGap(out0, localBits, localBitsIdx, idx, bits);
      PackedValue(out0, localBits, idx, bits + Same(0, idx - localBitsIdx), 0xffff_0000, 32);
      LengthFieldBits();
      packedBits := Joined(localBits, idx, 0xffff_0000);
      EmptyBlockIs(bits, idx - localBitsIdx);
      idx := idx + 32;
    } else {
      PackedValue(out0, localBits, idx, bits, 0xff_ff00_0000, 40);
      AlignedBits();
      packedBits := Joined(localBits, idx, 0xff_ff00_0000);
      EmptyBlockIs(bits, 8);
      idx := idx + 40;
    }
  }

  lemma PackedLength(out: seq<Byte>, v: nat, n: nat, bits: seq<Bit>)
    requires Packed(out, v, n, bits)
    ensures |bits| == |ByteBits(out)| + n
  {
    hide ByteBits, LowBits;
  }

  lemma GapAligns(n: nat, idx: nat, bytes: nat)
    requires n == 8 * bytes + idx
    ensures idx % 8 == 0 ==> Gap(n) == 8
    ensures idx % 8 != 0 ==> Gap(n) == if (idx + 3) % 8 == 0 then 3 else 11 - (idx + 3) % 8
  {
  }

  lemma EmptyBlockIs(bits: seq<Bit>, z: nat)
    requires z == Gap(|bits|)
    ensures bits + Same(0, z) + (Same(0, 16) + Same(1, 16)) == bits + EmptyBlock(|bits|)
    ensures bits + (Same(0, z) + (Same(0, 16) + Same(1, 16))) == bits + EmptyBlock(|bits|)
  {
    hide Same, Gap;
  }

  method EmitRest(out0: seq<Byte>, packedBits0: nat, idx: nat, ghost bits: seq<Bit>) returns (out: seq<Byte>)
    requires Packed(out0, packedBits0, idx, bits) && idx % 8 == 0
    ensures ByteBits(out) == bits
  {
    out := out0;
    var packedBits := packedBits0;
    hide *;
    if idx == 0 { NothingPacked(out, packedBits, bits); }
    var left: nat := idx;
    while left > 0
      invariant left % 8 == 0 && if left > 0 then Packed(out, packedBits, left, bits) else ByteBits(out) == bits
      decreases left
    {
      if left < 9 {
        PackedByte(out, packedBits, bits);
        out := out + [packedBits % 256];
        left := 0;
      } else {
        PackedWord(out, packedBits, left, bits);
        out := out + [packedBits % 256, packedBits / 256 % 256];
        left := left - 16;
        if left == 0 { NothingPacked(out, packedBits / 0x1_0000, bits); }
      }
      packedBits := packedBits / 0x1_0000;
    }
  }

  lemma NothingPacked(out: seq<Byte>, v: nat, bits: seq<Bit>)
    ensures Packed(out, v, 0, bits) ==> ByteBits(out) == bits
  {
    assert LowBits(v, 0) == [];
    assert ByteBits(out) + [] == ByteBits(out);
  }

  // All fields in order, then the empty stored block.
  method BitPackingStream(fields: seq<Codeword>) returns (out: seq<Byte>)
    requires fields != [] && forall k :: 0 <= k < |fields| ==> 1 <= fields[k].bitlength <= 15
    ensures ByteBits(out) == FieldBits(fields) + EmptyBlock(|FieldBits(fields)|)
  {
    out := [];
    var localBits: nat, localBitsIdx: nat := 0, 0;
    assert fields[..0] == [];
    assert Packed([], 0, 0, FieldBits(fields[..0]));
    hide *;
    var i := 0;
    while i < |fields|
      invariant 0 <= i <= |fields| && localBitsIdx < 16
      invariant Packed(out, localBits, localBitsIdx, FieldBits(fields[..i]))
    {
      var val, size := fields[i].codeword, fields[i].bitlength;
      PackedField(out, localBits, localBitsIdx, FieldBits(fields[..i]), val, size);
      NextField(fields, i);
      localBits := Joined(localBits, localBitsIdx, KeepLow(val, size));
      localBitsIdx := localBitsIdx + size;
      if localBitsIdx >= 16 {
        PackedWord(out, localBits, localBitsIdx, FieldBits(fields[..i + 1]));
        out := out + [localBits % 256, localBits / 256 % 256];
        localBits := localBits / 0x1_0000;
        localBitsIdx := localBitsIdx - 16;
      }
      i := i + 1;
    }
    assert fields[..i] == fields;
    var packedBits, idx := CloseBlock(out, localBits, localBitsIdx, FieldBits(fields));
    out := EmitRest(out, packedBits, idx, FieldBits(fields) + EmptyBlock(|FieldBits(fields)|));
  }

  lemma NextField(fields: seq<Codeword>, i: nat)
    requires i < |fields|
    ensures FieldBits(fields[..i + 1]) == FieldBits(fields[..i]) + LowBits(fields[i].codeword, fields[i].bitlength)
  {
    var f := fields[i];
    assert fields[..i + 1] == fields[..i] + [f];
    FieldBitsConcat(fields[..i], [f]);
    assert [f][1..] == [];
    assert LowBits(f.codeword, f.bitlength) + [] == LowBits(f.codeword, f.bitlength);
  }
}
