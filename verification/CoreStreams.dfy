// Packets of up to eight bytes, and blocks of packets shared out to a ring of cores.

module CoreStreams {
  import opened LzCore
  import opened Modular

  const WIDTH: nat := 8

  // A word of eight bytes, of which the first strobe count; a strobe of zero ends a block.
  datatype Packet = Packet(data: seq<Byte>, strobe: nat)

  predicate WellFormed(p: Packet) {
    |p.data| == WIDTH && p.strobe <= WIDTH
  }

  const END: Packet := Packet([0, 0, 0, 0, 0, 0, 0, 0], 0)

  function Size(s: seq<Packet>): nat {
    if s == [] then 0 else Size(s[..|s| - 1]) + s[|s| - 1].strobe
  }

  lemma {:induction false} SizeConcat(a: seq<Packet>, b: seq<Packet>)
    ensures Size(a + b) == Size(a) + Size(b)
  {
    if b == [] {
      assert a + b == a;
    } else {
      SizeConcat(a, b[..|b| - 1]);
      assert (a + b)[..|a + b| - 1] == a + b[..|b| - 1];
    }
  }

  // The bytes a stream of packets stands for.
  function PacketBytes(s: seq<Packet>): seq<Byte>
    requires forall k :: 0 <= k < |s| ==> WellFormed(s[k])
  {
    if s == [] then [] else assert WellFormed(s[|s| - 1]); PacketBytes(s[..|s| - 1]) + s[|s| - 1].data[..s[|s| - 1].strobe]
  }

  // ---------- Blocks on streams ----------

  function Flatten(blocks: seq<seq<Packet>>): seq<Packet> {
    if blocks == [] then [] else blocks[0] + Flatten(blocks[1..])
  }

  // Every block with the packet that ends it.
  function Framed(blocks: seq<seq<Packet>>): seq<Packet> {
    if blocks == [] then [] else blocks[0] + [END] + Framed(blocks[1..])
  }

  lemma {:induction false} FlattenAppend(blocks: seq<seq<Packet>>, b: seq<Packet>)
    ensures Flatten(blocks + [b]) == Flatten(blocks) + b
  {
    if blocks == [] {
      assert [] + [b] == [b] && [b][1..] == [];
      assert b + [] == b == [] + b;
    } else {
      assert (blocks + [b])[1..] == blocks[1..] + [b];
      FlattenAppend(blocks[1..], b);
      assert blocks[0] + (Flatten(blocks[1..]) + b) == blocks[0] + Flatten(blocks[1..]) + b;
    }
  }

  lemma {:induction false} FramedConcat(a: seq<seq<Packet>>, b: seq<seq<Packet>>)
    ensures Framed(a + b) == Framed(a) + Framed(b)
  {
    if a == [] {
      assert [] + b == b;
    } else {
      assert (a + b)[1..] == a[1..] + b;
      FramedConcat(a[1..], b);
      assert a[0] + [END] + (Framed(a[1..]) + Framed(b)) == a[0] + [END] + Framed(a[1..]) + Framed(b);
    }
  }

  lemma FramedOne(b: seq<Packet>)
    ensures Framed([b]) == b + [END]
  {
    assert [b][1..] == [] && b + [END] + [] == b + [END];
  }

  // Round the ring.
  function CoreOf(x: nat, cores: nat): (r: nat)
    requires cores > 0
    ensures r < cores
  {
    x % cores
  }

  // The blocks of core i, when block j goes to core start + j, round the ring.
  function Share(blocks: seq<seq<Packet>>, start: nat, cores: nat, i: nat): seq<seq<Packet>>
    requires cores > 0
    decreases |blocks|
  {
    if blocks == [] then []
    else (if CoreOf(start, cores) == i then [blocks[0]] else []) + Share(blocks[1..], start + 1, cores, i)
  }

  function FirstShare(b: seq<Packet>, core: nat, i: nat): seq<seq<Packet>> {
    if core == i then [b] else []
  }

  lemma {:induction false} ShareAppend(blocks: seq<seq<Packet>>, b: seq<Packet>, start: nat, cores: nat, i: nat)
    requires cores > 0
    ensures Share(blocks + [b], start, cores, i)
         == Share(blocks, start, cores, i) + FirstShare(b, CoreOf(start + |blocks|, cores), i)
    decreases |blocks|
  {
    hide CoreOf, FirstShare;
    if blocks == [] {
      assert [] + [b] == [b] && [b][1..] == [];
      ShareNext([b], start, cores, i);
    } else {
      assert (blocks + [b])[1..] == blocks[1..] + [b];
      ShareAppend(blocks[1..], b, start + 1, cores, i);
      ShareNext(blocks, start, cores, i);
      ShareNext(blocks + [b], start, cores, i);
      hide Share;
    }
  }

  lemma ShareNext(blocks: seq<seq<Packet>>, start: nat, cores: nat, i: nat)
    requires cores > 0 && blocks != []
    ensures Share(blocks, start, cores, i)
         == FirstShare(blocks[0], CoreOf(start, cores), i) + Share(blocks[1..], start + 1, cores, i)
  {
    hide CoreOf;
  }

  // ---------- The core counter ----------

  lemma CoreStays(core: nat, cores: nat)
    requires core < cores
    ensures CoreOf(core, cores) == core
  {
  }

  // A counter of four bits, reduced before use, goes round the ring.
  function Advanced(core: nat): nat {
    (core + 1) % 16
  }

  lemma NextCore(x: nat, core: nat, cores: nat)
    requires 0 < cores <= 16 && core == CoreOf(x, cores)
    ensures CoreOf(Advanced(core), cores) == CoreOf(x + 1, cores)
  {
    var q := x / cores;
    QuotientRemainder(x, cores);
    NextOf(q, core, cores);
  }

  lemma NextOf(q: nat, core: nat, cores: nat)
    requires 0 < cores <= 16 && core < cores
    ensures Advanced(core) % cores == (cores * q + core + 1) % cores
  {
    if core + 1 == cores {
      TimesNext(cores, q);
      SmallRemainder(cores, q + 1, 0);
      SmallRemainder(cores, 1, 0);
    } else {
      SmallRemainder(cores, q, core + 1);
      SmallRemainder(cores, 0, core + 1);
    }
  }

  lemma TimesNext(n: nat, q: nat)
    ensures n * (q + 1) == n * q + n
  {
  }

  lemma SmallRemainder(n: nat, q: nat, r: nat)
    requires r < n
    ensures (n * q + r) % n == r
  {
    ModUnique(n * q + r, q, r, n);
  }

  // ---------- Streams with one block open ----------

  ghost predicate Open(dist: seq<seq<Packet>>, blocks: seq<seq<Packet>>, cur: seq<Packet>, start: nat, cores: nat)
    requires cores > 0
  {
    |dist| == cores
    && forall i :: 0 <= i < cores ==>
         dist[i] == Framed(Share(blocks, start, cores, i)) + if i == CoreOf(start + |blocks|, cores) then cur else []
  }

  lemma NothingSent(dist: seq<seq<Packet>>, start: nat, cores: nat)
    requires cores > 0 && |dist| == cores && forall i :: 0 <= i < cores ==> dist[i] == []
    ensures Open(dist, [], [], start, cores)
  {
  }

  lemma SentOne(dist: seq<seq<Packet>>, blocks: seq<seq<Packet>>, cur: seq<Packet>, start: nat, cores: nat, core: nat, p: Packet)
    requires cores > 0 && Open(dist, blocks, cur, start, cores) && core == CoreOf(start + |blocks|, cores)
    ensures core < |dist| && Open(dist[core := dist[core] + [p]], blocks, cur + [p], start, cores)
  {
    hide Framed, Share;
    assert Framed(Share(blocks, start, cores, core)) + (cur + [p]) == Framed(Share(blocks, start, cores, core)) + cur + [p];
  }

  lemma SentEnd(dist: seq<seq<Packet>>, blocks: seq<seq<Packet>>, cur: seq<Packet>, start: nat, cores: nat, core: nat)
    requires cores > 0 && Open(dist, blocks, cur, start, cores) && core == CoreOf(start + |blocks|, cores)
    ensures core < |dist| && Open(dist[core := dist[core] + [END]], blocks + [cur], [], start, cores)
  {
    hide *;
    OpenAt(dist, blocks, cur, start, cores, core);
    var next := dist[core := dist[core] + [END]];
    forall i | 0 <= i < cores ensures next[i] == Framed(Share(blocks + [cur], start, cores, i)) + [] {
      OpenAt(dist, blocks, cur, start, cores, i);
      EndedShare(blocks, cur, start, cores, i);
    }
    OpensEmpty(next, blocks + [cur], start, cores);
  }

  lemma OpenAt(dist: seq<seq<Packet>>, blocks: seq<seq<Packet>>, cur: seq<Packet>, start: nat, cores: nat, i: nat)
    requires cores > 0 && Open(dist, blocks, cur, start, cores) && i < cores
    ensures |dist| == cores
    ensures dist[i] == Framed(Share(blocks, start, cores, i)) + if i == CoreOf(start + |blocks|, cores) then cur else []
  {
  }

  lemma OpensEmpty(dist: seq<seq<Packet>>, blocks: seq<seq<Packet>>, start: nat, cores: nat)
    requires cores > 0 && |dist| == cores
    requires forall i :: 0 <= i < cores ==> dist[i] == Framed(Share(blocks, start, cores, i)) + []
    ensures Open(dist, blocks, [], start, cores)
  {
    hide Framed, Share;
  }

  lemma EndedShare(blocks: seq<seq<Packet>>, cur: seq<Packet>, start: nat, cores: nat, i: nat)
    requires cores > 0
    ensures Framed(Share(blocks + [cur], start, cores, i)) + []
         == Framed(Share(blocks, start, cores, i)) + if i == CoreOf(start + |blocks|, cores) then cur + [END] else []
  {
    ShareAppend(blocks, cur, start, cores, i);
    FramedOne(cur);
    FramedConcat(Share(blocks, start, cores, i), [cur]);
    hide Framed, Share;
    assert Share(blocks, start, cores, i) + [] == Share(blocks, start, cores, i);
  }
}
