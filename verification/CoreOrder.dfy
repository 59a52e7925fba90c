// The whole way of a file: dealt out to the cores, compressed block by block on each of them, and
// collected again. Whatever the cores make of their blocks, it comes out in the order of the input.

module CoreOrder {
  import opened LzCore
  import opened CoreStreams
  import opened CoreDistributor
  import opened CorePacker
  import opened BytePacking
  import opened StoredBlocks

  // ---------- One core ----------

  function FirstEnd(s: seq<Packet>): (e: nat)
    ensures e <= |s|
  {
    if s == [] || s[0].strobe == 0 then 0 else 1 + FirstEnd(s[1..])
  }

  // A core reads block after block; an empty block ends its work.
  function CoreOutput(s: seq<Packet>, f: seq<Packet> -> seq<Packet>): seq<Packet> {
    if FirstEnd(s) == 0 || FirstEnd(s) == |s| then [END]
    else f(s[..FirstEnd(s)]) + [END] + CoreOutput(s[FirstEnd(s) + 1..], f)
  }

  function MapBlocks(blocks: seq<seq<Packet>>, f: seq<Packet> -> seq<Packet>): seq<seq<Packet>> {
    if blocks == [] then [] else [f(blocks[0])] + MapBlocks(blocks[1..], f)
  }

  predicate ProperBlock(b: seq<Packet>) {
    b != [] && WithoutEnds(b)
  }

  ghost predicate ProperBlocks(blocks: seq<seq<Packet>>) {
    forall j :: 0 <= j < |blocks| ==> ProperBlock(blocks[j])
  }

  lemma {:induction false} EndAfter(b: seq<Packet>, rest: seq<Packet>)
    requires WithoutEnds(b)
    ensures FirstEnd(b + [END] + rest) == |b|
  {
    if b == [] {
      assert ([] + [END] + rest)[0] == END;
    } else {
      EndAfter(b[1..], rest);
      assert (b + [END] + rest)[1..] == b[1..] + [END] + rest;
    }
  }

  // A core keeps its blocks apart and in order.
  lemma {:induction false} CoreOnBlocks(blocks: seq<seq<Packet>>, f: seq<Packet> -> seq<Packet>)
    requires ProperBlocks(blocks)
    ensures CoreOutput(Framed(blocks) + [END], f) == Framed(MapBlocks(blocks, f)) + [END]
  {
    if blocks == [] {
      EndAfter([], []);
      assert Framed([]) + [END] == [] + [END] + [];
    } else {
      var b, rest := blocks[0], Framed(blocks[1..]) + [END];
      CoreOnBlocks(blocks[1..], f);
      assert ProperBlock(b);
      EndAfter(b, rest);
      FramedFirst(blocks);
      CoreStep(b, rest, f);
      MappedFirst(blocks, f);
    }
  }

  lemma FramedFirst(blocks: seq<seq<Packet>>)
    requires blocks != []
    ensures Framed(blocks) + [END] == blocks[0] + [END] + (Framed(blocks[1..]) + [END])
  {
  }

  lemma CoreStep(b: seq<Packet>, rest: seq<Packet>, f: seq<Packet> -> seq<Packet>)
    requires b != [] && FirstEnd(b + [END] + rest) == |b|
    ensures CoreOutput(b + [END] + rest, f) == f(b) + [END] + CoreOutput(rest, f)
  {
    hide FirstEnd;
    assert (b + [END] + rest)[..|b|] == b && (b + [END] + rest)[|b| + 1..] == rest;
  }

  lemma MappedFirst(blocks: seq<seq<Packet>>, f: seq<Packet> -> seq<Packet>)
    requires blocks != []
    ensures Framed(MapBlocks(blocks, f)) + [END] == f(blocks[0]) + [END] + (Framed(MapBlocks(blocks[1..], f)) + [END])
  {
    FramedFirst(MapBlocks(blocks, f));
    assert MapBlocks(blocks, f)[1..] == MapBlocks(blocks[1..], f);
  }

  // ---------- All cores ----------

  lemma {:induction false} MapLength(blocks: seq<seq<Packet>>, f: seq<Packet> -> seq<Packet>)
    ensures |MapBlocks(blocks, f)| == |blocks|
  {
    if blocks != [] { MapLength(blocks[1..], f); }
  }

  lemma {:induction false} ShareOfMap(blocks: seq<seq<Packet>>, f: seq<Packet> -> seq<Packet>, start: nat, cores: nat, i: nat)
    requires cores > 0
    ensures Share(MapBlocks(blocks, f), start, cores, i) == MapBlocks(Share(blocks, start, cores, i), f)
    decreases |blocks|
  {
    hide CoreOf;
    if blocks != [] {
      var rest := Share(blocks[1..], start + 1, cores, i);
      ShareOfMap(blocks[1..], f, start + 1, cores, i);
      assert MapBlocks(blocks, f)[1..] == MapBlocks(blocks[1..], f);
      assert ([blocks[0]] + rest)[1..] == rest;
      assert [] + rest == rest;
      assert [] + MapBlocks(rest, f) == MapBlocks(rest, f);
    }
  }

  lemma {:induction false} ShareProper(blocks: seq<seq<Packet>>, start: nat, cores: nat, i: nat)
    requires cores > 0 && ProperBlocks(blocks)
    ensures ProperBlocks(Share(blocks, start, cores, i))
    decreases |blocks|
  {
    hide CoreOf, ProperBlock;
    if blocks != [] { ShareProper(blocks[1..], start + 1, cores, i); }
  }

  // What the cores send on is dealt out in the same way as what they were sent.
  method RunCores(dist: seq<seq<Packet>>, f: seq<Packet> -> seq<Packet>, ghost blocks: seq<seq<Packet>>, ghost core0: nat)
    returns (out: seq<seq<Packet>>)
    requires |dist| > 0 && Dealt(dist, blocks, core0, |dist|) && ProperBlocks(blocks)
    ensures |out| == |dist| && Dealt(out, MapBlocks(blocks, f), core0, |dist|)
  {
    hide *;
    out := [];
    while |out| < |dist|
      invariant |out| <= |dist|
      invariant forall i :: 0 <= i < |out| ==> out[i] == Framed(Share(MapBlocks(blocks, f), core0, |dist|, i)) + [END]
    {
      OneCore(dist, f, blocks, core0, |out|);
      out := out + [CoreOutput(dist[|out|], f)];
    }
    MakesDealt(out, MapBlocks(blocks, f), core0);
  }

  lemma OneCore(dist: seq<seq<Packet>>, f: seq<Packet> -> seq<Packet>, blocks: seq<seq<Packet>>, core0: nat, i: nat)
    requires |dist| > 0 && Dealt(dist, blocks, core0, |dist|) && ProperBlocks(blocks) && i < |dist|
    ensures CoreOutput(dist[i], f) == Framed(Share(MapBlocks(blocks, f), core0, |dist|, i)) + [END]
  {
    ShareProper(blocks, core0, |dist|, i);
    CoreOnBlocks(Share(blocks, core0, |dist|, i), f);
    ShareOfMap(blocks, f, core0, |dist|, i);
    hide Share, Framed, CoreOutput, MapBlocks, ProperBlocks;
  }

  lemma MakesDealt(out: seq<seq<Packet>>, blocks: seq<seq<Packet>>, core0: nat)
    requires |out| > 0 && forall i :: 0 <= i < |out| ==> out[i] == Framed(Share(blocks, core0, |out|, i)) + [END]
    ensures Dealt(out, blocks, core0, |out|)
  {
  }

  // ---------- Blocks and tail ----------

  lemma {:induction false} PartsProper(blocks: seq<seq<Packet>>, stored: seq<Packet>)
    requires WithoutEnds(Flatten(blocks) + stored)
    ensures AllWithoutEnds(blocks) && WithoutEnds(stored)
  {
    if blocks == [] {
      assert [] + stored == stored;
    } else {
      var all, b, rest := Flatten(blocks) + stored, blocks[0], Flatten(blocks[1..]) + stored;
      assert all == b + rest;
      BothProper(b, rest);
      PartsProper(blocks[1..], stored);
      hide WithoutEnds, Flatten;
      assert forall j :: 0 < j < |blocks| ==> blocks[j] == blocks[1..][j - 1];
    }
  }

  lemma BothProper(a: seq<Packet>, b: seq<Packet>)
    requires WithoutEnds(a + b)
    ensures WithoutEnds(a) && WithoutEnds(b)
  {
    hide Proper;
    forall k | 0 <= k < |a| ensures Proper(a[k]) { assert (a + b)[k] == a[k]; }
    forall k | 0 <= k < |b| ensures Proper(b[k]) { assert (a + b)[|a| + k] == b[k]; }
  }

  // No byte of the input is lost or moved between the blocks and the stored tail.
  lemma {:induction false} BytesConserved(blocks: seq<seq<Packet>>, stored: seq<Packet>)
    requires WithoutEnds(Flatten(blocks) + stored)
    ensures AllWithoutEnds(blocks) && WithoutEnds(stored)
    ensures BlockBytes(blocks) + Bytes(stored) == Bytes(Flatten(blocks) + stored)
    decreases |blocks|
  {
    PartsProper(blocks, stored);
    if blocks == [] {
      assert [] + stored == stored;
      assert [] + Bytes(stored) == Bytes(stored);
    } else {
      var front, b := blocks[..|blocks| - 1], blocks[|blocks| - 1];
      assert blocks == front + [b];
      FlattenAppend(front, b);
      assert Flatten(blocks) + stored == Flatten(front) + (b + stored);
      BytesConserved(front, b + stored);
      assert WithoutEnds(b);
      BytesConcat(b, stored);
      LastBlockBytes(blocks);
      hide Bytes, BlockBytes, WithoutEnds, Flatten;
    }
  }

  lemma LastBlockBytes(blocks: seq<seq<Packet>>)
    requires AllWithoutEnds(blocks) && blocks != []
    ensures AllWithoutEnds(blocks[..|blocks| - 1]) && WithoutEnds(blocks[|blocks| - 1])
    ensures BlockBytes(blocks) == BlockBytes(blocks[..|blocks| - 1]) + Bytes(blocks[|blocks| - 1])
  {
    hide Bytes;
  }

  // Whole packets but for the last.
  ghost predicate FullButLast(s: seq<Packet>) {
    WithoutEnds(s) && forall k :: 0 <= k < |s| - 1 ==> s[k].strobe == 8
  }

  lemma {:induction false} DataFront(s: seq<Packet>)
    requires s != []
    ensures DataOf(s) == [s[0].data] + DataOf(s[1..])
  {
    if |s| > 1 {
      DataFront(s[..|s| - 1]);
      assert s[..|s| - 1][1..] == s[1..][..|s| - 2];
    } else {
      assert s[..0] == [] && s[1..] == [];
    }
  }

  // The bare words and the size stand for the bytes of the tail.
  lemma {:induction false} StoredWords(s: seq<Packet>)
    requires FullButLast(s)
    ensures WordsFor(DataOf(s), Size(s)) && Prefix(DataOf(s), Size(s)) == Bytes(s)
    decreases |s|
  {
    if s != [] {
      var p, rest := s[0], s[1..];
      RestFull(s);
      StoredWords(rest);
      DataFront(s);
      assert s == [p] + rest;
      SizeConcat([p], rest);
      OnePacket(p);
      BytesConcat([p], rest);
      FirstWord(p, rest, DataOf(rest));
      assert DataOf(s)[1..] == DataOf(rest);
    }
  }

  lemma RestFull(s: seq<Packet>)
    requires FullButLast(s) && s != []
    ensures FullButLast(s[1..]) && Proper(s[0]) && (|s| > 1 ==> s[0].strobe == 8 && Size(s[1..]) > 0)
    ensures WithoutEnds([s[0]]) && WithoutEnds(s[1..])
  {
    hide Proper, Size;
    if |s| > 1 {
      assert Proper(s[|s| - 1]);
      SomeSize(s[1..]);
    }
  }

  lemma SomeSize(s: seq<Packet>)
    requires s != [] && Proper(s[|s| - 1])
    ensures Size(s) > 0
  {
  }

  lemma OnePacket(p: Packet)
    requires Proper(p)
    ensures WithoutEnds([p]) && Bytes([p]) == p.data[..p.strobe] && Size([p]) == p.strobe
  {
    BytesAppend([], p);
    assert [] + [p] == [p];
    NoBytes();
    assert [] + p.data[..p.strobe] == p.data[..p.strobe];
    assert [p][..0] == [];
  }

  lemma FirstWord(p: Packet, rest: seq<Packet>, words: seq<seq<Byte>>)
    requires Proper(p) && (rest != [] ==> p.strobe == 8 && Size(rest) > 0) && (rest == [] ==> words == [] && Size(rest) == 0)
    requires WordsFor(words, Size(rest))
    ensures WordsFor([p.data] + words, p.strobe + Size(rest))
    ensures Prefix([p.data] + words, p.strobe + Size(rest)) == p.data[..p.strobe] + Prefix(words, Size(rest))
  {
    hide Size;
    assert ([p.data] + words)[1..] == words;
    if rest == [] {
      assert p.data[..p.strobe] + [] == p.data[..p.strobe];
    } else {
      assert p.data[..8] == p.data;
    }
  }

  // ---------- The whole way ----------

  // Packets as they come in: whole, but for the last, and the end.
  predicate InputStream(s: seq<Packet>) {
    s != [] && s[|s| - 1].strobe == 0 && Fed(s[..|s| - 1] + [END])
    && forall k :: 0 <= k < |s| ==> WellFormed(s[k])
  }

  lemma InputFull(s: seq<Packet>)
    requires InputStream(s)
    ensures FullButLast(s[..|s| - 1])
  {
    var data := s[..|s| - 1];
    forall k | 0 <= k < |data| ensures Proper(data[k]) { assert (data + [END])[k] == data[k] == s[k]; }
    forall k | 0 <= k < |data| - 1 ensures data[k].strobe == 8 { assert (data + [END])[k] == data[k]; }
  }

  lemma PartsOfInput(s: seq<Packet>, blocks: seq<seq<Packet>>, stored: seq<Packet>, blockLen: nat, queue: nat)
    requires InputStream(s) && 0 < queue <= blockLen && Division(s[..|s| - 1], blocks, stored, blockLen, queue)
    ensures ProperBlocks(blocks) && AllWithoutEnds(blocks) && FullButLast(stored) && WithoutEnds(stored) && WithoutEnds(s[..|s| - 1])
    ensures BlockBytes(blocks) + Bytes(stored) == Bytes(s[..|s| - 1])
    ensures |stored| < queue
  {
    InputFull(s);
    NoShortBlock(s[..|s| - 1], blocks, stored, blockLen, queue);
    DivisionWhole(s[..|s| - 1], blocks, stored, blockLen, queue);
    hide *;
    FullIsProper(s[..|s| - 1]);
    BytesConserved(blocks, stored);
    TailFull(Flatten(blocks), stored);
    NowProper(blocks, queue);
  }

  lemma DivisionWhole(data: seq<Packet>, blocks: seq<seq<Packet>>, stored: seq<Packet>, blockLen: nat, queue: nat)
    requires Division(data, blocks, stored, blockLen, queue)
    ensures Flatten(blocks) + stored == data
  {
  }

  lemma FullIsProper(s: seq<Packet>)
    requires FullButLast(s)
    ensures WithoutEnds(s)
  {
  }

  lemma TailFull(a: seq<Packet>, b: seq<Packet>)
    requires FullButLast(a + b)
    ensures FullButLast(b)
  {
    BothProper(a, b);
    hide WithoutEnds;
    forall k | 0 <= k < |b| - 1 ensures b[k].strobe == 8 { assert (a + b)[|a| + k] == b[k]; }
  }

  lemma NowProper(blocks: seq<seq<Packet>>, queue: nat)
    requires AllWithoutEnds(blocks) && 0 < queue && forall j :: 0 <= j < |blocks| ==> |blocks[j]| >= queue
    ensures ProperBlocks(blocks)
  {
    hide WithoutEnds;
    forall j | 0 <= j < |blocks| ensures ProperBlock(blocks[j]) { assert |blocks[j]| >= queue; }
  }

  lemma {:induction false} MappedProper(blocks: seq<seq<Packet>>, f: seq<Packet> -> seq<Packet>)
    requires forall b :: WithoutEnds(f(b))
    ensures AllWithoutEnds(MapBlocks(blocks, f))
  {
    if blocks != [] {
      MappedProper(blocks[1..], f);
      assert WithoutEnds(f(blocks[0]));
      hide WithoutEnds;
    }
  }

  // Header, what the cores made of the blocks, the stored tail and the trailer: for any number of
  // cores, any first core and any work on the blocks.
  method CompressInOrder(gzip: bool, inStream: seq<Packet>, cores: nat, blockSize: nat, minBlock: nat, core0: nat, checksum: nat,
                         f: seq<Packet> -> seq<Packet>)
    returns (out: seq<Packet>, core: nat, ghost blocks: seq<seq<Packet>>, ghost stored: seq<Packet>)
    requires InputStream(inStream) && 0 < cores <= 16 && blockSize % 8 == 0 && minBlock < blockSize && blockSize + minBlock + 16 < 0x1_0000
    requires forall b :: WithoutEnds(f(b))
    ensures Division(inStream[..|inStream| - 1], blocks, stored, blockSize / 8, (minBlock + 8) / 8)
    ensures AllWithoutEnds(blocks) && WithoutEnds(stored) && AllWithoutEnds(MapBlocks(blocks, f)) && WithoutEnds(inStream[..|inStream| - 1])
    ensures BlockBytes(blocks) + Bytes(stored) == Bytes(inStream[..|inStream| - 1])
    ensures Finished(out, Header(gzip) + BlockBytes(MapBlocks(blocks, f)) + StoredBlock(Bytes(stored))
                          + Trailer(gzip, checksum, SizeCounted(inStream)))
    ensures ReadsAs(gzip, Header(gzip) + BlockBytes(MapBlocks(blocks, f)) + StoredBlock(Bytes(stored)) + Trailer(gzip, checksum, SizeCounted(inStream)),
                    BlockBytes(MapBlocks(blocks, f)), Bytes(stored), checksum, Size(inStream))
  {
    MappedAll(f);
    hide *;
    InputIs(inStream);
    var dist, strd, strdSize, blckEos, fileSize;
    dist, strd, strdSize, blckEos, fileSize, core, blocks, stored := MulticoreDistributor(inStream, cores, blockSize, minBlock, core0);
    PartsOfInput(inStream, blocks, stored, blockSize / 8, (minBlock + 8) / 8);
    StoredWords(stored);
    SmallTail(stored, (minBlock + 8) / 8);
    MapLength(blocks, f);
    DealtLength(dist, blocks, core0, cores);
    var done := RunCores(dist, f, blocks, core0);
    var packed, left := GzipZlibPackerEngine(gzip, done, strd, strdSize, fileSize, checksum, core0, blckEos, MapBlocks(blocks, f));
    EndIs();
    SentIs(packed[..|packed| - 1], Header(gzip) + BlockBytes(MapBlocks(blocks, f)) + StoredBlock(Bytes(stored))
                                   + Trailer(gzip, checksum, SizeCounted(inStream)));
    out := BytePacker(packed);
    PrefixLength(strd, strdSize);
    StillReads(gzip, BlockBytes(MapBlocks(blocks, f)), Bytes(stored), checksum, inStream);
  }

  lemma StillReads(gzip: bool, body: seq<Byte>, tail: seq<Byte>, checksum: nat, inStream: seq<Packet>)
    requires |tail| <= 0xffff
    ensures ReadsAs(gzip, Header(gzip) + body + StoredBlock(tail) + Trailer(gzip, checksum, SizeCounted(inStream)),
                    body, tail, checksum, Size(inStream))
  {
    hide *;
    PackedReadBack(gzip, body, tail, checksum, SizeCounted(inStream));
    CountedTwice(inStream);
    SizeWraps(gzip, Header(gzip) + body + StoredBlock(tail) + Trailer(gzip, checksum, SizeCounted(inStream)),
              body, tail, checksum, SizeCounted(inStream), Size(inStream));
  }

  lemma CountedTwice(inStream: seq<Packet>)
    ensures SizeCounted(inStream) % 0x1_0000_0000 == Size(inStream) % 0x1_0000_0000
  {
    hide Size;
  }

  lemma MappedAll(f: seq<Packet> -> seq<Packet>)
    requires forall b :: WithoutEnds(f(b))
    ensures forall blocks :: AllWithoutEnds(MapBlocks(blocks, f))
  {
    hide AllWithoutEnds, WithoutEnds;
    forall blocks ensures AllWithoutEnds(MapBlocks(blocks, f)) { MappedProper(blocks, f); }
  }

  lemma InputIs(s: seq<Packet>)
    requires InputStream(s)
    ensures s != [] && s[|s| - 1].strobe == 0 && Fed(s[..|s| - 1] + [END])
  {
  }

  lemma SmallTail(stored: seq<Packet>, queue: nat)
    requires FullButLast(stored) && |stored| < queue
    ensures Size(stored) < 8 * queue
  {
    hide Size;
    FullIsProper(stored);
    ProperSize(stored);
  }

  lemma {:induction false} ProperSize(s: seq<Packet>)
    requires WithoutEnds(s)
    ensures Size(s) <= 8 * |s|
  {
    if s != [] {
      assert Proper(s[|s| - 1]);
      ProperSize(s[..|s| - 1]);
    }
  }

  lemma DealtLength(dist: seq<seq<Packet>>, blocks: seq<seq<Packet>>, core0: nat, cores: nat)
    requires cores > 0 && Dealt(dist, blocks, core0, cores)
    ensures |dist| == cores
  {
    hide Framed, Share;
  }

  lemma EndIs()
    ensures END.strobe == 0 && WellFormed(END)
  {
  }
}
