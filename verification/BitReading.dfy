// The bit buffer of the decoder: a register refilled by 16-bit words whenever it holds fewer than
// 16 bits, and emptied from its low end. What was packed is read back field by field.

module BitReading {
  import opened Arithmetic
  import opened CanonicalCodes
  import opened BitStrings
  import opened HuffmanCodec
  import opened LzCore
  import opened BitPacking

  type Word = w: nat | w < 0x1_0000

  function WordBits(words: seq<Word>): seq<Bit> {
    if words == [] then [] else LowBits(words[0], 16) + WordBits(words[1..])
  }

  class BitReader {
    var bitbuffer: nat
    var bitsCntr: nat
    var words: seq<Word>
    var done: bool

    // The register holds bitsCntr bits; the end flag came with the last word.
    ghost predicate Valid()
      reads this
    {
      bitsCntr < 32 && bitbuffer < Pow2(bitsCntr) && (done <==> words == [])
    }

    // All bits not yet consumed.
    ghost function Ahead(): seq<Bit>
      reads this
    {
      LowBits(bitbuffer, bitsCntr) + WordBits(words)
    }

    // At least 16 bits, or all there are, are in the register.
    ghost predicate Full()
      reads this
    {
      bitsCntr >= 16 || |Ahead()| == bitsCntr
    }

    constructor (words: seq<Word>)
      requires words != []
      ensures Valid() && Ahead() == WordBits(words)
    {
      bitbuffer, bitsCntr, done := 0, 0, false;
      this.words := words;
      new;
      assert LowBits(0, 0) + WordBits(words) == WordBits(words);
    }

    // One more word, when there is room; the shifted word never passes the register's 32 bits.
    method Load()
      requires Valid()
      modifies this
      ensures Valid() && Ahead() == old(Ahead())
      ensures Full() && (bitsCntr >= 16 || old(done))
    {
      hide *;
      Opened(this);
      if bitsCntr < 16 && !done {
        Refill(bitbuffer, bitsCntr, words);
        bitbuffer := (bitbuffer + Pow2(bitsCntr) * words[0]) % 0x1_0000_0000;
        words := words[1..];
        done := words == [];
        bitsCntr := bitsCntr + 16;
      }
      Closed(this);
      IsFull(this);
    }

    method Discard(n: nat)
      requires Valid() && n <= bitsCntr
      modifies this
      ensures Valid() && Ahead() == old(Ahead())[n..]
      ensures bitsCntr == old(bitsCntr) - n && words == old(words)
    {
      hide *;
      Opened(this);
      Dropped(bitbuffer, bitsCntr, n, words);
      bitbuffer := ShiftRight(bitbuffer, n);
      bitsCntr := bitsCntr - n;
      Closed(this);
    }

    // The lowest bits of the register: look at them, then drop them.
    method Take(n: nat) returns (v: nat)
      requires Valid() && n <= bitsCntr
      modifies this
      ensures Valid() && Ahead() == old(Ahead())[n..] && bitsCntr == old(bitsCntr) - n && words == old(words)
      ensures n <= |old(Ahead())| && v < Pow2(n) && LowBits(v, n) == old(Ahead())[..n]
    {
      hide *;
      v := KeepLow(bitbuffer, n);
      LookedAt(bitbuffer, bitsCntr, n, words);
      Closed(this);
      Discard(n);
    }

    // The next field, with a refill before it.
    method ReadField(size: nat) returns (v: nat)
      requires Valid() && size <= 16 && size <= |Ahead()|
      modifies this
      ensures Valid() && Ahead() == old(Ahead())[size..]
      ensures v < Pow2(size) && LowBits(v, size) == old(Ahead())[..size]
    {
      hide *;
      Load();
      Enough(this, size);
      v := Take(size);
    }
  }

  lemma Opened(r: BitReader)
    requires r.Valid()
    ensures r.bitsCntr < 32 && r.bitbuffer < Pow2(r.bitsCntr) && (r.done <==> r.words == [])
    ensures r.Ahead() == LowBits(r.bitbuffer, r.bitsCntr) + WordBits(r.words)
  {
  }

  lemma Closed(r: BitReader)
    ensures r.bitsCntr < 32 && r.bitbuffer < Pow2(r.bitsCntr) && (r.done <==> r.words == []) ==> r.Valid()
    ensures r.Ahead() == LowBits(r.bitbuffer, r.bitsCntr) + WordBits(r.words)
    ensures r.words == [] ==> |r.Ahead()| == r.bitsCntr
  {
  }

  lemma IsFull(r: BitReader)
    ensures r.Full() <==> r.bitsCntr >= 16 || |r.Ahead()| == r.bitsCntr
  {
  }

  lemma Enough(r: BitReader, n: nat)
    requires r.Full() && n <= 16 && n <= |r.Ahead()|
    ensures n <= r.bitsCntr
  {
  }

  // What a full register shows are the bits to come, and zeros behind the last of them.
  lemma Shown(r: BitReader, n: nat)
    requires r.Valid() && r.Full() && n <= 16
    ensures LowBits(r.bitbuffer, n) <= r.Ahead() + Same(0, 16) && |LowBits(r.bitbuffer, n)| == n
  {
    hide *;
    Opened(r);
    IsFull(r);
    var v, c := r.bitbuffer, r.bitsCntr;
    if c >= 16 {
      LowBitsPrefix(v, n, c);
    } else {
      Widened(v, c, 16);
      LowBitsPrefix(v, n, c + 16);
      assert WordBits(r.words) == [];
    }
  }

  lemma Refill(v: nat, n: nat, words: seq<Word>)
    requires v < Pow2(n) && n < 16 && words != []
    ensures (v + Pow2(n) * words[0]) % 0x1_0000_0000 == v + Pow2(n) * words[0] < Pow2(n + 16)
    ensures LowBits(v + Pow2(n) * words[0], n + 16) + WordBits(words[1..]) == LowBits(v, n) + WordBits(words)
  {
    hide *;
    var w: nat := words[0];
    JoinedIs(v, n, w);
    Pow2Of16();
    JoinBound(v, n, w, 16);
    BitsJoin(v, n, w, 16);
    Pow2Mono(n + 16, 32);
    Pow2Add(16, 16);
    FirstWord(words);
    assert LowBits(v, n) + LowBits(w, 16) + WordBits(words[1..]) == LowBits(v, n) + (LowBits(w, 16) + WordBits(words[1..]));
  }

  lemma FirstWord(words: seq<Word>)
    requires words != []
    ensures WordBits(words) == LowBits(words[0], 16) + WordBits(words[1..])
  {
    hide LowBits;
  }

  lemma Dropped(v: nat, n: nat, m: nat, words: seq<Word>)
    requires v < Pow2(n) && m <= n
    ensures ShiftRight(v, m) < Pow2(n - m)
    ensures |LowBits(v, n)| == n
    ensures LowBits(ShiftRight(v, m), n - m) + WordBits(words) == (LowBits(v, n) + WordBits(words))[m..]
  {
    ShiftedSmall(v, m, n - m);
    LowBitsSplit(v, m, n - m);
    hide LowBits, WordBits, ShiftRight, Pow2;
    assert LowBits(v, n) == LowBits(v, m) + LowBits(ShiftRight(v, m), n - m);
  }

  lemma LookedAt(v: nat, n: nat, m: nat, words: seq<Word>)
    requires m <= n
    ensures KeepLow(v, m) < Pow2(m) && |LowBits(v, n)| == n
    ensures LowBits(KeepLow(v, m), m) == (LowBits(v, n) + WordBits(words))[..m]
  {
    KeptBits(v, m, m);
    LowBitsPrefix(v, m, n);
    hide LowBits, WordBits, KeepLow, Pow2;
  }

  // ---------- Reading back ----------

  function Sizes(fields: seq<Codeword>): seq<nat> {
    seq(|fields|, i requires 0 <= i < |fields| => fields[i].bitlength)
  }

  // What a field can be read back as: its bits, and nothing above them.
  function FieldValues(fields: seq<Codeword>): seq<nat> {
    seq(|fields|, i requires 0 <= i < |fields| => KeepLow(fields[i].codeword, fields[i].bitlength))
  }

  lemma {:induction false} FieldPrefix(fields: seq<Codeword>, i: nat)
    requires i < |fields|
    ensures FieldBits(fields[i..]) == LowBits(fields[i].codeword, fields[i].bitlength) + FieldBits(fields[i + 1..])
    ensures |LowBits(fields[i].codeword, fields[i].bitlength)| == fields[i].bitlength
  {
    assert fields[i..][1..] == fields[i + 1..];
    hide LowBits;
  }

  lemma FieldReadBack(v: nat, code: nat, size: nat)
    requires v < Pow2(size) && LowBits(v, size) == LowBits(code, size)
    ensures v == KeepLow(code, size)
  {
    KeptBits(code, size, size);
    SameBits(v, KeepLow(code, size), size);
  }

  // Given the sizes only, the reader returns the values that were packed.
  method ReadFields(r: BitReader, sizes: seq<nat>, ghost fields: seq<Codeword>, ghost rest: seq<Bit>) returns (values: seq<nat>)
    requires r.Valid() && r.Ahead() == FieldBits(fields) + rest
    requires sizes == Sizes(fields) && forall k :: 0 <= k < |sizes| ==> sizes[k] <= 16
    modifies r
    ensures values == FieldValues(fields)
    ensures r.Valid() && r.Ahead() == rest
  {
    values := [];
    var i: nat := 0;
    assert fields[0..] == fields;
    while i < |sizes|
      invariant i <= |sizes| == |fields| && r.Valid() && r.Ahead() == FieldBits(fields[i..]) + rest
      invariant |values| == i && forall k :: 0 <= k < i ==> values[k] == KeepLow(fields[k].codeword, fields[k].bitlength)
    {
      hide *;
      SizeOf(fields, i);
      FieldPrefix(fields, i);
      PrefixLook(fields[i], FieldBits(fields[i + 1..]), rest);
      var v := r.ReadField(sizes[i]);
      FieldReadBack(v, fields[i].codeword, fields[i].bitlength);
      values := values + [v];
      i := i + 1;
    }
    NothingLeft(fields, rest);
  }

  lemma SizeOf(fields: seq<Codeword>, i: nat)
    requires i < |fields|
    ensures |Sizes(fields)| == |fields| && Sizes(fields)[i] == fields[i].bitlength
  {
  }

  lemma PrefixLook(f: Codeword, a: seq<Bit>, b: seq<Bit>)
    requires |LowBits(f.codeword, f.bitlength)| == f.bitlength
    ensures f.bitlength <= |LowBits(f.codeword, f.bitlength) + a + b|
    ensures (LowBits(f.codeword, f.bitlength) + a + b)[..f.bitlength] == LowBits(f.codeword, f.bitlength)
    ensures (LowBits(f.codeword, f.bitlength) + a + b)[f.bitlength..] == a + b
  {
    hide LowBits;
  }

  lemma NothingLeft(fields: seq<Codeword>, rest: seq<Bit>)
    ensures FieldBits(fields[|fields|..]) + rest == rest
  {
    assert FieldBits([]) + rest == rest;
  }

  // ---------- Bytes as words ----------

  function Paired(low: nat, high: nat): nat {
    low + 256 * high
  }

  // Two bytes to a word; a byte left over is joined by an arbitrary one.
  function WordsOf(bytes: seq<Byte>, junk: Byte): seq<Word> {
    if bytes == [] then []
    else if |bytes| == 1 then [Paired(bytes[0], junk)]
    else [Paired(bytes[0], bytes[1])] + WordsOf(bytes[2..], junk)
  }

  lemma {:induction false} BytesInWords(bytes: seq<Byte>, junk: Byte)
    ensures ByteBits(bytes) <= WordBits(WordsOf(bytes, junk))
    ensures bytes != [] ==> WordsOf(bytes, junk) != []
    decreases |bytes|
  {
    if |bytes| == 1 {
      PairBits(bytes[0], junk);
      OneWord(Paired(bytes[0], junk));
      assert bytes == [bytes[0]];
      hide ByteBits, LowBits;
      ByteBitsConcat([bytes[0]], [junk]);
      assert [bytes[0]] + [junk] == [bytes[0], junk];
    } else if |bytes| > 1 {
      BytesInWords(bytes[2..], junk);
      PairBits(bytes[0], bytes[1]);
      FirstPair(bytes, junk);
    }
  }

  lemma FirstPair(bytes: seq<Byte>, junk: Byte)
    requires |bytes| > 1 && ByteBits(bytes[2..]) <= WordBits(WordsOf(bytes[2..], junk))
    requires LowBits(Paired(bytes[0], bytes[1]), 16) == ByteBits([bytes[0], bytes[1]])
    ensures ByteBits(bytes) <= WordBits(WordsOf(bytes, junk))
  {
    var w: Word := Paired(bytes[0], bytes[1]);
    FirstWord([w] + WordsOf(bytes[2..], junk));
    assert ([w] + WordsOf(bytes[2..], junk))[1..] == WordsOf(bytes[2..], junk);
    assert bytes == [bytes[0], bytes[1]] + bytes[2..];
    ByteBitsConcat([bytes[0], bytes[1]], bytes[2..]);
    hide ByteBits, LowBits, WordBits;
  }

  lemma OneWord(w: Word)
    ensures WordBits([w]) == LowBits(w, 16)
  {
    assert [w][1..] == [];
    FirstWord([w]);
    hide LowBits;
    assert LowBits(w, 16) + [] == LowBits(w, 16);
  }

  lemma PairBits(a: Byte, b: Byte)
    ensures LowBits(Paired(a, b), 16) == ByteBits([a, b])
  {
    hide ByteBits, LowBits;
    WordBytes(Paired(a, b));
  }

  // Packing and reading back return every field, and leave the empty stored block.
  method PackAndRead(fields: seq<Codeword>, junk: Byte) returns (values: seq<nat>, r: BitReader)
    requires fields != [] && forall k :: 0 <= k < |fields| ==> 1 <= fields[k].bitlength <= 15
    ensures values == FieldValues(fields)
    ensures r.Valid() && EmptyBlock(|FieldBits(fields)|) <= r.Ahead()
  {
    var out := BitPackingStream(fields);
    ghost var bits := FieldBits(fields);
    var sizes := Sizes(fields);
    BytesInWords(out, junk);
    hide *;
    NotEmpty(out, bits);
    var words := WordsOf(out, junk);
    r := new BitReader(words);
    ghost var all := WordBits(words);
    var rest := Rest(all, bits, EmptyBlock(|bits|));
    values := ReadFields(r, sizes, fields, rest);
  }

  lemma Rest(all: seq<Bit>, a: seq<Bit>, b: seq<Bit>) returns (rest: seq<Bit>)
    requires a + b <= all
    ensures all == a + rest && b <= rest
  {
    rest := all[|a|..];
    assert all[..|a|] == (a + b)[..|a|];
    assert all[|a|..|a| + |b|] == (a + b)[|a|..];
  }

  lemma NotEmpty(out: seq<Byte>, bits: seq<Bit>)
    requires ByteBits(out) == bits + EmptyBlock(|bits|)
    ensures out != []
  {
    assert |EmptyBlock(|bits|)| > 0;
  }
}
