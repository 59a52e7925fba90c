// The compressed blocks of all cores collected in the order of the input, between the header and
// the trailer of a gzip or zlib stream, and packed into whole words.

module CorePacker {
  import opened LzCore
  import opened CoreStreams
  import opened CoreDistributor
  import opened StoredBlocks

  predicate Proper(p: Packet) {
    WellFormed(p) && p.strobe > 0
  }

  // Packets of a block: none of them ends it.
  predicate WithoutEnds(b: seq<Packet>) {
    forall k :: 0 <= k < |b| ==> Proper(b[k])
  }

  ghost predicate AllWithoutEnds(blocks: seq<seq<Packet>>) {
    forall j :: 0 <= j < |blocks| ==> WithoutEnds(blocks[j])
  }

  // ---------- Bytes of packets ----------

  // Bytes of a stream of proper packets.
  ghost function Bytes(s: seq<Packet>): seq<Byte>
    requires WithoutEnds(s)
  {
    PacketBytes(s)
  }

  lemma {:induction false} BytesConcat(a: seq<Packet>, b: seq<Packet>)
    requires WithoutEnds(a) && WithoutEnds(b)
    ensures WithoutEnds(a + b) && Bytes(a + b) == Bytes(a) + Bytes(b)
  {
    if b == [] {
      assert a + b == a;
    } else {
      var front, p := b[..|b| - 1], b[|b| - 1];
      BytesConcat(a, front);
      assert a + b == a + front + [p];
      BytesAppend(a + front, p);
      BytesAppend(front, p);
      assert b == front + [p];
      hide Bytes;
    }
  }

  lemma BytesAppend(s: seq<Packet>, p: Packet)
    requires WithoutEnds(s) && Proper(p)
    ensures WithoutEnds(s + [p]) && Bytes(s + [p]) == Bytes(s) + p.data[..p.strobe]
  {
    assert (s + [p])[..|s|] == s;
  }

  lemma NoBytes()
    ensures WithoutEnds([]) && Bytes([]) == []
  {
  }

  // ---------- Blocks in order ----------

  // What the cores still hold: their shares of the blocks from j on.
  ghost predicate Unread(streams: seq<seq<Packet>>, blocks: seq<seq<Packet>>, j: nat, start: nat, cores: nat)
    requires cores > 0
  {
    j <= |blocks| && Dealt(streams, blocks[j..], start + j, cores)
  }

  lemma NextShare(streams: seq<seq<Packet>>, blocks: seq<seq<Packet>>, j: nat, start: nat, cores: nat)
    requires cores > 0 && Unread(streams, blocks, j, start, cores) && j < |blocks|
    ensures |streams| == cores
    ensures streams[CoreOf(start + j, cores)]
         == blocks[j] + ([END] + (Framed(Share(blocks[j + 1..], start + j + 1, cores, CoreOf(start + j, cores))) + [END]))
  {
    hide CoreOf;
    var c := CoreOf(start + j, cores);
    assert blocks[j..][1..] == blocks[j + 1..];
    ShareNext(blocks[j..], start + j, cores, c);
    FirstFramed(blocks[j], Share(blocks[j + 1..], start + j + 1, cores, c));
  }

  lemma FirstFramed(b: seq<Packet>, rest: seq<seq<Packet>>)
    ensures Framed([b] + rest) + [END] == b + ([END] + (Framed(rest) + [END]))
  {
    assert ([b] + rest)[1..] == rest;
    hide Framed;
    assert b + [END] + Framed(rest) + [END] == b + ([END] + (Framed(rest) + [END]));
  }

  lemma OtherShare(streams: seq<seq<Packet>>, blocks: seq<seq<Packet>>, j: nat, start: nat, cores: nat, i: nat)
    requires cores > 0 && Unread(streams, blocks, j, start, cores) && j < |blocks| && i < cores && i != CoreOf(start + j, cores)
    ensures |streams| == cores && streams[i] == Framed(Share(blocks[j + 1..], start + j + 1, cores, i)) + [END]
  {
    hide CoreOf;
    assert blocks[j..][1..] == blocks[j + 1..];
    ShareNext(blocks[j..], start + j, cores, i);
    assert [] + Share(blocks[j + 1..], start + j + 1, cores, i) == Share(blocks[j + 1..], start + j + 1, cores, i);
  }

  // A block and its end have been read from the core that holds it.
  lemma BlockRead(streams: seq<seq<Packet>>, blocks: seq<seq<Packet>>, j: nat, start: nat, cores: nat, c: nat, rest: seq<Packet>)
    requires cores > 0 && Unread(streams, blocks, j, start, cores) && j < |blocks| && c == CoreOf(start + j, cores)
    requires streams[c] == blocks[j] + ([END] + rest)
    ensures c < |streams| && Unread(streams[c := rest], blocks, j + 1, start, cores)
  {
    hide *;
    NextShare(streams, blocks, j, start, cores);
    var want := Framed(Share(blocks[j + 1..], start + j + 1, cores, c)) + [END];
    SameRest(blocks[j], rest, want);
    forall i | 0 <= i < cores && i != c ensures streams[i] == Framed(Share(blocks[j + 1..], start + j + 1, cores, i)) + [END] {
      OtherShare(streams, blocks, j, start, cores, i);
    }
    NowUnread(streams[c := rest], blocks, j + 1, start, cores);
  }

  lemma SameRest(b: seq<Packet>, x: seq<Packet>, y: seq<Packet>)
    requires b + ([END] + x) == b + ([END] + y)
    ensures x == y
  {
    assert (b + ([END] + x))[|b| + 1..] == x;
    assert (b + ([END] + y))[|b| + 1..] == y;
  }

  lemma NowUnread(streams: seq<seq<Packet>>, blocks: seq<seq<Packet>>, j: nat, start: nat, cores: nat)
    requires cores > 0 && j <= |blocks| && |streams| == cores
    requires forall i :: 0 <= i < cores ==> streams[i] == Framed(Share(blocks[j..], start + j, cores, i)) + [END]
    ensures Unread(streams, blocks, j, start, cores)
  {
  }

  // One block, up to the packet that ends it.
  method ReadBlock(stream: seq<Packet>, ghost block: seq<Packet>, ghost rest: seq<Packet>) returns (packets: seq<Packet>, left: seq<Packet>)
    requires stream == block + ([END] + rest) && WithoutEnds(block)
    ensures packets == block && left == rest
  {
    packets, left := [], stream;
    var blockDone := false;
    while !blockDone
      invariant packets <= block
      invariant left == if blockDone then rest else block[|packets|..] + ([END] + rest)
      invariant blockDone ==> packets == block
      decreases !blockDone, |block| - |packets|
    {
      var inVal := left[0];
      left := left[1..];
      blockDone := inVal.strobe == 0;
      if blockDone { break; }
      packets := packets + [inVal];
    }
  }

  // ---------- Header, stored block and trailer ----------

  // A packet of these bytes; what lies above them in the word is never looked at.
  function Pack(bytes: seq<Byte>): (p: Packet)
    requires 0 < |bytes| <= 8
    ensures Proper(p) && p.data[..p.strobe] == bytes
  {
    Packet(bytes + Zeros(WIDTH - |bytes|), |bytes|)
  }

  function Zeros(n: nat): (z: seq<Byte>)
    ensures |z| == n
  {
    if n == 0 then [] else Zeros(n - 1) + [0]
  }

  function LittleEndian(x: nat, n: nat): (b: seq<Byte>)
    ensures |b| == n
  {
    if n == 0 then [] else [x % 256] + LittleEndian(x / 256, n - 1)
  }

  function BigEndian(x: nat, n: nat): (b: seq<Byte>)
    ensures |b| == n
  {
    if n == 0 then [] else BigEndian(x / 256, n - 1) + [x % 256]
  }

  function Header(gzip: bool): seq<Byte> {
    if gzip then [0x1f, 0x8b, 8, 8, 0, 0, 0, 0, 0, 3, 0x78, 0] else [0x78, 1]
  }

  function StoredHeader(size: nat): (h: seq<Byte>)
    ensures |h| == 5
  {
    [0] + LittleEndian(size, 2) + LittleEndian((0xffff - size) % 0x1_0000, 2)
  }

  // Stored, not final: its size, the complement of its size, and the bytes.
  function StoredBlock(data: seq<Byte>): seq<Byte> {
    if data == [] then [] else StoredHeader(|data|) + data
  }

  // An empty stored block, the last one, then the checksum and, for gzip, the size.
  function Trailer(gzip: bool, checksum: nat, fileSize: nat): seq<Byte> {
    [1, 0, 0, 0xff, 0xff] + if gzip then LittleEndian(checksum, 4) + LittleEndian(fileSize, 4) else BigEndian(checksum, 4)
  }

  // ---------- Reading them back ----------

  // 256^n
  function Range(n: nat): (r: nat)
    ensures r > 0
  {
    if n == 0 then 1 else 256 * Range(n - 1)
  }

  lemma Ranges()
    ensures Range(2) == 0x1_0000 && Range(4) == 0x1_0000_0000
  {
    assert Range(3) == 256 * Range(2);
  }

  lemma {:induction false} LittleReadBack(x: nat, n: nat)
    ensures LowestFirst(LittleEndian(x, n)) == x % Range(n)
  {
    if n > 0 {
      LittleReadBack(x / 256, n - 1);
      assert LittleEndian(x, n)[1..] == LittleEndian(x / 256, n - 1);
      RemainderSplit(x, Range(n - 1));
    }
  }

  lemma {:induction false} BigReadBack(x: nat, n: nat)
    ensures HighestFirst(BigEndian(x, n)) == x % Range(n)
  {
    if n > 0 {
      BigReadBack(x / 256, n - 1);
      assert BigEndian(x, n)[..n - 1] == BigEndian(x / 256, n - 1);
      RemainderSplit(x, Range(n - 1));
    }
  }

  lemma RemainderSplit(x: nat, p: nat)
    requires p > 0
    ensures x % (256 * p) == x % 256 + 256 * (x / 256 % p)
  {
    var q, r := x / 256, x % 256;
    var a, b := q / p, q % p;
    assert q == a * p + b;
    assert x == 256 * q + r;
    assert x == a * (256 * p) + (256 * b + r);
    RemainderIs(a, 256 * p, 256 * b + r);
  }

  lemma {:induction false} RemainderIs(a: nat, p: nat, b: nat)
    requires b < p
    ensures (a * p + b) % p == b
  {
    if a > 0 {
      RemainderIs(a - 1, p, b);
      assert a * p + b == (a - 1) * p + b + p;
      OnceMore((a - 1) * p + b, p);
    }
  }

  // The stored block reads as its data.
  lemma StoredReadBack(data: seq<Byte>, rest: seq<Byte>)
    requires 0 < |data| <= 0xffff
    ensures ReadStored(StoredBlock(data) + rest) == Some(Stored(false, data, rest))
  {
    hide *;
    var n := |data|;
    Ranges();
    LittleReadBack(n, 2);
    LittleReadBack((0xffff - n) % 0x1_0000, 2);
    SmallRemainders(n);
    StoredParts(data, rest, LittleEndian(n, 2), LittleEndian((0xffff - n) % 0x1_0000, 2));
    ReadsStored(StoredBlock(data) + rest, n);
  }

  lemma SmallRemainders(n: nat)
    requires n <= 0xffff
    ensures n % 0x1_0000 == n && (0xffff - n) % 0x1_0000 == 0xffff - n
  {
  }

  lemma StoredParts(data: seq<Byte>, rest: seq<Byte>, len: seq<Byte>, nlen: seq<Byte>)
    requires data != [] && len == LittleEndian(|data|, 2) && nlen == LittleEndian((0xffff - |data|) % 0x1_0000, 2)
    ensures var s := StoredBlock(data) + rest;
            && |s| == 5 + |data| + |rest| && s[0] == 0 && s[1..3] == len && s[3..5] == nlen
            && s[5..5 + |data|] == data && s[5 + |data|..] == rest
  {
    hide LittleEndian;
    var s := StoredBlock(data) + rest;
    assert s == [0] + len + nlen + data + rest;
  }

  lemma ReadsStored(s: seq<Byte>, n: nat)
    requires |s| >= 5 + n && s[0] == 0 && LowestFirst(s[1..3]) == n && LowestFirst(s[1..3]) + LowestFirst(s[3..5]) == 0xffff
    ensures ReadStored(s) == Some(Stored(false, s[5..5 + n], s[5 + n..]))
  {
    hide LowestFirst;
  }

  lemma FinalReadBack(rest: seq<Byte>)
    ensures ReadStored([1, 0, 0, 0xff, 0xff] + rest) == Some(Stored(true, [], rest))
  {
    var s := [1, 0, 0, 0xff, 0xff] + rest;
    assert s[1..3] == [0, 0] && s[3..5] == [0xff, 0xff] && s[5..] == rest;
    assert [0, 0][1..] == [0] && [0xff, 0xff][1..] == [0xff];
    assert LowestFirst([0]) == 0 && LowestFirst([0xff]) == 0xff;
  }

  lemma TrailerReadBack(gzip: bool, checksum: nat, fileSize: nat)
    ensures ReadTail(gzip, Trailer(gzip, checksum, fileSize))
         == Some(Tail([], checksum % 0x1_0000_0000, if gzip then fileSize % 0x1_0000_0000 else 0, []))
  {
    hide *;
    if gzip { GzipTrailer(checksum, fileSize); } else { ZlibTrailer(checksum, fileSize); }
  }

  lemma GzipTrailer(checksum: nat, fileSize: nat)
    ensures ReadTail(true, Trailer(true, checksum, fileSize))
         == Some(Tail([], checksum % 0x1_0000_0000, fileSize % 0x1_0000_0000, []))
  {
    hide *;
    Ranges();
    LittleReadBack(checksum, 4);
    LittleReadBack(fileSize, 4);
    var a, b := LittleEndian(checksum, 4), LittleEndian(fileSize, 4);
    TwoWords(a, b);
    FinalReadBack(a + b);
    TrailerParts(true, checksum, fileSize, a + b);
    ReadsFinal(true, Trailer(true, checksum, fileSize), a + b);
  }

  lemma ZlibTrailer(checksum: nat, fileSize: nat)
    ensures ReadTail(false, Trailer(false, checksum, fileSize)) == Some(Tail([], checksum % 0x1_0000_0000, 0, []))
  {
    hide *;
    Ranges();
    BigReadBack(checksum, 4);
    var a := BigEndian(checksum, 4);
    assert a[..4] == a && a[4..] == [];
    FinalReadBack(a);
    TrailerParts(false, checksum, fileSize, a);
    ReadsFinal(false, Trailer(false, checksum, fileSize), a);
  }

  lemma TwoWords(a: seq<Byte>, b: seq<Byte>)
    requires |a| == |b| == 4
    ensures (a + b)[..4] == a && (a + b)[4..8] == b && (a + b)[8..] == []
  {
  }

  lemma TrailerParts(gzip: bool, checksum: nat, fileSize: nat, rest: seq<Byte>)
    requires rest == if gzip then LittleEndian(checksum, 4) + LittleEndian(fileSize, 4) else BigEndian(checksum, 4)
    ensures Trailer(gzip, checksum, fileSize) == [1, 0, 0, 0xff, 0xff] + rest
  {
    hide LittleEndian, BigEndian;
  }

  lemma ReadsFinal(gzip: bool, s: seq<Byte>, rest: seq<Byte>)
    requires ReadStored(s) == Some(Stored(true, [], rest)) && |rest| == if gzip then 8 else 4
    ensures ReadTail(gzip, s) == Some(if gzip then Tail([], LowestFirst(rest[..4]), LowestFirst(rest[4..8]), rest[8..])
                                      else Tail([], HighestFirst(rest[..4]), 0, rest[4..]))
  {
    hide ReadStored, LowestFirst, HighestFirst;
  }

  lemma TailReadBack(gzip: bool, tail: seq<Byte>, checksum: nat, fileSize: nat)
    requires |tail| <= 0xffff
    ensures ReadTail(gzip, StoredBlock(tail) + Trailer(gzip, checksum, fileSize))
         == Some(Tail(tail, checksum % 0x1_0000_0000, if gzip then fileSize % 0x1_0000_0000 else 0, []))
  {
    TrailerReadBack(gzip, checksum, fileSize);
    if tail == [] {
      assert [] + Trailer(gzip, checksum, fileSize) == Trailer(gzip, checksum, fileSize);
    } else {
      StoredReadBack(tail, Trailer(gzip, checksum, fileSize));
      hide StoredBlock, Trailer, ReadStored;
      assert tail + [] == tail;
    }
  }

  lemma HeaderReadBack(gzip: bool, rest: seq<Byte>)
    ensures ReadHeader(gzip, Header(gzip) + rest) == Some(rest)
  {
    var s := Header(gzip) + rest;
    if gzip {
      assert s[10..] == [0x78, 0] + rest && s[10..][1..] == [0] + rest;
      assert s[10..][1..][1..] == rest;
      assert BehindName([0] + rest) == Some(rest);
    } else {
      assert s[2..] == rest;
    }
  }

  // Everything the packer puts around the blocks is read back.
  lemma PackedReadBack(gzip: bool, body: seq<Byte>, tail: seq<Byte>, checksum: nat, fileSize: nat)
    requires |tail| <= 0xffff
    ensures ReadsAs(gzip, Header(gzip) + body + StoredBlock(tail) + Trailer(gzip, checksum, fileSize), body, tail, checksum, fileSize)
  {
    hide *;
    var ahead := StoredBlock(tail) + Trailer(gzip, checksum, fileSize);
    TailReadBack(gzip, tail, checksum, fileSize);
    HeaderReadBack(gzip, body + ahead);
    assert Header(gzip) + body + StoredBlock(tail) + Trailer(gzip, checksum, fileSize) == Header(gzip) + (body + ahead);
    ReadAs(gzip, Header(gzip) + (body + ahead), body, ahead, tail, checksum, fileSize);
  }

  lemma ReadAs(gzip: bool, bytes: seq<Byte>, body: seq<Byte>, ahead: seq<Byte>, tail: seq<Byte>, checksum: nat, size: nat)
    requires ReadHeader(gzip, bytes) == Some(body + ahead)
    requires ReadTail(gzip, ahead) == Some(Tail(tail, checksum % 0x1_0000_0000, if gzip then size % 0x1_0000_0000 else 0, []))
    ensures ReadsAs(gzip, bytes, body, tail, checksum, size)
  {
    hide ReadHeader, ReadTail;
  }

  // The stored bytes: the first size bytes of the bare words.
  function Prefix(words: seq<seq<Byte>>, size: nat): seq<Byte> {
    if words == [] || size == 0 then []
    else if size <= |words[0]| then words[0][..size]
    else words[0] + Prefix(words[1..], size - |words[0]|)
  }

  // Just as many words as the size asks for.
  predicate WordsFor(words: seq<seq<Byte>>, size: nat) {
    if words == [] then size == 0
    else |words[0]| == WIDTH && size > 0 && if size <= WIDTH then |words| == 1 else WordsFor(words[1..], size - WIDTH)
  }

  // ---------- gzipZlibPackerEngine ----------

  // Everything sent so far, in packets that do not end the stream.
  ghost predicate SentBytes(packed: seq<Packet>, bytes: seq<Byte>) {
    WithoutEnds(packed) && Bytes(packed) == bytes
  }

  lemma SendPacket(packed: seq<Packet>, bytes: seq<Byte>, p: Packet)
    requires SentBytes(packed, bytes) && Proper(p)
    ensures SentBytes(packed + [p], bytes + p.data[..p.strobe])
  {
    BytesAppend(packed, p);
    hide Bytes;
  }

  lemma SendPack(packed: seq<Packet>, bytes: seq<Byte>, more: seq<Byte>)
    requires SentBytes(packed, bytes) && 0 < |more| <= 8
    ensures SentBytes(packed + [Pack(more)], bytes + more)
  {
    SendPacket(packed, bytes, Pack(more));
    hide Bytes, Pack;
  }

  lemma SendBlock(packed: seq<Packet>, bytes: seq<Byte>, block: seq<Packet>)
    requires SentBytes(packed, bytes) && WithoutEnds(block)
    ensures SentBytes(packed + block, bytes + Bytes(block))
  {
    BytesConcat(packed, block);
    hide Bytes;
  }

  // The bytes of all blocks, in order.
  ghost function BlockBytes(blocks: seq<seq<Packet>>): seq<Byte>
    requires AllWithoutEnds(blocks)
  {
    if blocks == [] then [] else BlockBytes(blocks[..|blocks| - 1]) + Bytes(blocks[|blocks| - 1])
  }

  lemma BlockBytesNext(blocks: seq<seq<Packet>>, j: nat)
    requires AllWithoutEnds(blocks) && j < |blocks|
    ensures AllWithoutEnds(blocks[..j]) && AllWithoutEnds(blocks[..j + 1]) && WithoutEnds(blocks[j])
    ensures BlockBytes(blocks[..j + 1]) == BlockBytes(blocks[..j]) + Bytes(blocks[j])
  {
    assert blocks[..j + 1][..j] == blocks[..j];
    hide Bytes;
  }

  // The header.
  method SendHeader(gzip: bool) returns (packed: seq<Packet>)
    ensures SentBytes(packed, Header(gzip))
  {
    packed := [];
    NoBytes();
    if gzip {
      SendPack(packed, [], [0x1f, 0x8b, 8, 8, 0, 0, 0, 0]);
      packed := packed + [Pack([0x1f, 0x8b, 8, 8, 0, 0, 0, 0])];
      SendPack(packed, [0x1f, 0x8b, 8, 8, 0, 0, 0, 0], [0, 3, 0x78, 0]);
      packed := packed + [Pack([0, 3, 0x78, 0])];
    } else {
      SendPack(packed, [], [0x78, 1]);
      packed := packed + [Pack([0x78, 1])];
    }
  }

  // The blocks, core after core.
  method SendAllBlocks(packed0: seq<Packet>, streams0: seq<seq<Packet>>, core0: nat, blckEos: seq<bool>,
                       ghost bytes: seq<Byte>, ghost blocks: seq<seq<Packet>>, ghost cores: nat)
    returns (packed: seq<Packet>, streams: seq<seq<Packet>>)
    requires 0 < cores <= 16 && |streams0| == cores && SentBytes(packed0, bytes) && AllWithoutEnds(blocks)
    requires Unread(streams0, blocks, 0, core0, cores) && blckEos == Continued(|blocks|) + [true]
    ensures SentBytes(packed, bytes + BlockBytes(blocks))
    ensures |streams| == cores && Unread(streams, blocks, |blocks|, core0, cores)
  {
    hide *;
    packed, streams := packed0, streams0;
    var core: nat := core0;
    var i: nat := 0;
    NoBlocks(blocks, bytes);
    Flags(|blocks|);
    while !blckEos[i]
      invariant i <= |blocks| < |blckEos| && |streams| == cores
      invariant AllWithoutEnds(blocks[..i]) && SentBytes(packed, bytes + BlockBytes(blocks[..i]))
      invariant Unread(streams, blocks, i, core0, cores)
      invariant CoreOf(core, cores) == CoreOf(core0 + i, cores)
      decreases |blocks| - i
    {
      FlagAt(|blocks|, i);
      core := CoreOf(core, |streams|);
      NextShare(streams, blocks, i, core0, cores);
      BlockBytesNext(blocks, i);
      ghost var rest := Framed(Share(blocks[i + 1..], core0 + i + 1, cores, core)) + [END];
      var packets, left := ReadBlock(streams[core], blocks[i], rest);
      SendBlock(packed, bytes + BlockBytes(blocks[..i]), blocks[i]);
      BlockRead(streams, blocks, i, core0, cores, core, rest);
      NextCore(core0 + i, core, cores);
      Reassociate(bytes, BlockBytes(blocks[..i]), Bytes(blocks[i]));
      packed := packed + packets;
      streams := streams[core := left];
      core := Advanced(core);
      i := i + 1;
    }
    FlagAt(|blocks|, i);
    assert blocks[..i] == blocks;
  }

  lemma Reassociate(a: seq<Byte>, b: seq<Byte>, c: seq<Byte>)
    ensures a + b + c == a + (b + c)
  {
  }

  lemma NoBlocks(blocks: seq<seq<Packet>>, bytes: seq<Byte>)
    ensures AllWithoutEnds(blocks[..0]) && BlockBytes(blocks[..0]) == [] && bytes + [] == bytes
  {
  }

  lemma {:induction false} Flags(n: nat)
    ensures |Continued(n)| == n
    ensures forall k :: 0 <= k < n ==> !Continued(n)[k]
  {
    if n > 0 { Flags(n - 1); }
  }

  lemma FlagAt(n: nat, i: nat)
    requires i <= n
    ensures |Continued(n) + [true]| == n + 1
    ensures (Continued(n) + [true])[i] <==> i == n
  {
    Flags(n);
    hide Continued;
  }

  // The stored block: its header, then word after word.
  method SendStoredBlock(packed0: seq<Packet>, strd: seq<seq<Byte>>, sizeVal: nat, ghost bytes: seq<Byte>) returns (packed: seq<Packet>)
    requires SentBytes(packed0, bytes) && WordsFor(strd, sizeVal) && sizeVal < 0xfff8
    ensures |Prefix(strd, sizeVal)| == sizeVal && SentBytes(packed, bytes + StoredBlock(Prefix(strd, sizeVal)))
  {
    hide *;
    packed := packed0;
    PrefixLength(strd, sizeVal);
    ghost var start := bytes;
    if sizeVal != 0 {
      var header := StoredHeader(sizeVal);
      SendPack(packed, bytes, header);
      packed := packed + [Pack(header)];
      start := bytes + header;
    }
    var size: nat, i: nat := 0, 0;
    ghost var done: seq<Byte> := [];
    Whole(strd, start, Prefix(strd, sizeVal));
    while size < sizeVal
      invariant size == 8 * i && i <= |strd| && WordsFor(strd[i..], Left(sizeVal, size))
      invariant SentBytes(packed, start + done) && done + Prefix(strd[i..], Left(sizeVal, size)) == Prefix(strd, sizeVal)
      invariant size < sizeVal + 8
      decreases sizeVal - size
    {
      var rSize: nat := if 8 + size > sizeVal then sizeVal - size else 8;
      NextWord(strd, sizeVal, size, i, rSize);
      var p := Packet(strd[i], rSize);
      SendPacket(packed, start + done, p);
      Reassociate(start, done, p.data[..p.strobe]);
      Reassociate(done, p.data[..p.strobe], Prefix(strd[i + 1..], Left(sizeVal, size + 8)));
      done := done + p.data[..p.strobe];
      packed := packed + [p];
      i := i + 1;
      size := (size + 8) % 0x1_0000;
    }
    NoneLeft(strd[i..], Left(sizeVal, size), done);
    StoredIs(Prefix(strd, sizeVal), bytes);
  }

  // Bytes still to come.
  function Left(sizeVal: nat, size: nat): nat {
    if size <= sizeVal then sizeVal - size else 0
  }

  lemma Whole(strd: seq<seq<Byte>>, start: seq<Byte>, prefix: seq<Byte>)
    ensures strd[0..] == strd && start + [] == start && [] + prefix == prefix
    ensures forall sizeVal: nat :: Left(sizeVal, 0) == sizeVal
  {
  }

  lemma NextWord(strd: seq<seq<Byte>>, sizeVal: nat, size: nat, i: nat, rSize: nat)
    requires i <= |strd| && size < sizeVal && WordsFor(strd[i..], Left(sizeVal, size))
    requires rSize == if 8 + size > sizeVal then sizeVal - size else 8
    ensures i < |strd| && rSize <= |strd[i]| && WordsFor(strd[i + 1..], Left(sizeVal, size + 8)) && Proper(Packet(strd[i], rSize))
    ensures Prefix(strd[i..], Left(sizeVal, size)) == strd[i][..rSize] + Prefix(strd[i + 1..], Left(sizeVal, size + 8))
  {
    assert strd[i..][1..] == strd[i + 1..];
  }

  lemma NoneLeft(words: seq<seq<Byte>>, left: nat, done: seq<Byte>)
    ensures left == 0 ==> done + Prefix(words, left) == done
    ensures forall sizeVal: nat, size: nat :: size >= sizeVal ==> Left(sizeVal, size) == 0
  {
  }

  lemma StoredIs(data: seq<Byte>, bytes: seq<Byte>)
    ensures data == [] ==> bytes + data == bytes + StoredBlock(data)
    ensures data != [] ==> bytes + StoredHeader(|data|) + data == bytes + StoredBlock(data)
  {
    hide LittleEndian;
  }

  lemma {:induction false} PrefixLength(words: seq<seq<Byte>>, size: nat)
    requires WordsFor(words, size)
    ensures |Prefix(words, size)| == size
  {
    if words != [] && size > WIDTH { PrefixLength(words[1..], size - WIDTH); }
  }

  // All streams but for the packets that end them have been read, and these are read last.
  method GzipZlibPackerEngine(gzip: bool, inStream: seq<seq<Packet>>, strd: seq<seq<Byte>>, strdSize: nat, fileSize: nat, checksum: nat,
                              coreIdx: nat, blckEos: seq<bool>, ghost blocks: seq<seq<Packet>>)
    returns (packed: seq<Packet>, left: seq<seq<Packet>>)
    requires 0 < |inStream| <= 16 && AllWithoutEnds(blocks) && Dealt(inStream, blocks, coreIdx, |inStream|)
    requires blckEos == Continued(|blocks|) + [true] && WordsFor(strd, strdSize) && strdSize < 0xfff8
    ensures packed != [] && packed[|packed| - 1] == END
    ensures SentBytes(packed[..|packed| - 1],
                      Header(gzip) + BlockBytes(blocks) + StoredBlock(Prefix(strd, strdSize)) + Trailer(gzip, checksum, fileSize))
    ensures ReadsAs(gzip, Bytes(packed[..|packed| - 1]), BlockBytes(blocks), Prefix(strd, strdSize), checksum, fileSize)
    ensures |left| == |inStream| && forall i :: 0 <= i < |left| ==> left[i] == []
  {
    hide *;
    AllUnread(inStream, blocks, coreIdx);
    packed := SendHeader(gzip);
    packed, left := SendAllBlocks(packed, inStream, coreIdx, blckEos, Header(gzip), blocks, |inStream|);
    ghost var soFar := Header(gzip) + BlockBytes(blocks);
    packed := SendStoredBlock(packed, strd, strdSize, soFar);
    soFar := soFar + StoredBlock(Prefix(strd, strdSize));
    packed := SendTrailer(gzip, packed, checksum, fileSize, soFar);
    ghost var sent := packed;
    packed := packed + [END];
    assert packed[..|packed| - 1] == sent;
    PrefixLength(strd, strdSize);
    PackedReadBack(gzip, BlockBytes(blocks), Prefix(strd, strdSize), checksum, fileSize);
    SentIs(sent, Header(gzip) + BlockBytes(blocks) + StoredBlock(Prefix(strd, strdSize)) + Trailer(gzip, checksum, fileSize));
    left := ReadEnds(left, blocks, coreIdx);
  }

  lemma SentIs(packed: seq<Packet>, bytes: seq<Byte>)
    requires SentBytes(packed, bytes)
    ensures WithoutEnds(packed) && Bytes(packed) == bytes
  {
    hide Bytes;
  }

  lemma AllUnread(streams: seq<seq<Packet>>, blocks: seq<seq<Packet>>, start: nat)
    requires |streams| > 0 && Dealt(streams, blocks, start, |streams|)
    ensures Unread(streams, blocks, 0, start, |streams|)
  {
    assert blocks[0..] == blocks;
  }

  method SendTrailer(gzip: bool, packed0: seq<Packet>, checksum: nat, fileSize: nat, ghost bytes: seq<Byte>) returns (packed: seq<Packet>)
    requires SentBytes(packed0, bytes)
    ensures SentBytes(packed, bytes + Trailer(gzip, checksum, fileSize))
  {
    hide *;
    packed := packed0 + [Pack([1, 0, 0, 0xff, 0xff])];
    SendPack(packed0, bytes, [1, 0, 0, 0xff, 0xff]);
    ghost var soFar := bytes + [1, 0, 0, 0xff, 0xff];
    var sum := if gzip then LittleEndian(checksum, 4) else BigEndian(checksum, 4);
    SendPack(packed, soFar, sum);
    packed := packed + [Pack(sum)];
    TrailerIs(gzip, checksum, fileSize, bytes);
    if gzip {
      SendPack(packed, soFar + sum, LittleEndian(fileSize, 4));
      packed := packed + [Pack(LittleEndian(fileSize, 4))];
    }
  }

  lemma TrailerIs(gzip: bool, checksum: nat, fileSize: nat, bytes: seq<Byte>)
    ensures bytes + Trailer(gzip, checksum, fileSize)
         == if gzip then bytes + [1, 0, 0, 0xff, 0xff] + LittleEndian(checksum, 4) + LittleEndian(fileSize, 4)
            else bytes + [1, 0, 0, 0xff, 0xff] + BigEndian(checksum, 4)
  {
    hide LittleEndian, BigEndian;
  }

  // One packet more is left on every stream.
  method ReadEnds(streams: seq<seq<Packet>>, ghost blocks: seq<seq<Packet>>, ghost start: nat) returns (left: seq<seq<Packet>>)
    requires |streams| > 0 && Unread(streams, blocks, |blocks|, start, |streams|)
    ensures |left| == |streams| && forall i :: 0 <= i < |left| ==> left[i] == []
  {
    left := streams;
    OnlyEnds(streams, blocks, start);
    hide *;
    var i: nat := 0;
    while i < |streams|
      invariant i <= |streams| == |left|
      invariant forall k :: 0 <= k < i ==> left[k] == []
      invariant forall k :: i <= k < |left| ==> left[k] == [END]
    {
      left := left[i := left[i][1..]];
      i := i + 1;
    }
  }

  lemma OnlyEnds(streams: seq<seq<Packet>>, blocks: seq<seq<Packet>>, start: nat)
    requires |streams| > 0 && Unread(streams, blocks, |blocks|, start, |streams|)
    ensures forall k :: 0 <= k < |streams| ==> streams[k] == [END]
  {
    assert blocks[|blocks|..] == [];
    assert Framed([]) + [END] == [END];
  }
}
