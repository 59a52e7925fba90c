// The literals of a block, split into one or four streams that go out backwards from a buffer a
// quarter of a block long: each stream is written while the one before it is read.

module LiteralSplit {
  import opened LzCore
  import opened SequenceReverse

  function StreamSize(litCnt: nat): nat
    requires litCnt > 0
  {
    if litCnt > 255 then 1 + (litCnt - 1) / 4 else litCnt
  }

  // Four streams of equal size, the last up to three bytes shorter.
  function Streams(lits: seq<Byte>): (r: seq<seq<Byte>>)
    requires lits != []
    ensures |r| == 1 || |r| == 4
  {
    if |lits| > 255 then
      var n := StreamSize(|lits|);
      [lits[..n], lits[n..2 * n], lits[2 * n..3 * n], lits[3 * n..]]
    else
      [lits]
  }

  lemma StreamsFit(lits: seq<Byte>, quarter: nat)
    requires 0 < |lits| <= 4 * quarter && quarter >= 255
    ensures forall k :: 0 <= k < |Streams(lits)| ==> 0 < |Streams(lits)[k]| <= StreamSize(|lits|) <= quarter
    ensures forall k :: 0 <= k < |Streams(lits)| - 1 ==> |Streams(lits)[k]| == StreamSize(|lits|)
    ensures StreamSize(|lits|) <= |Streams(lits)[|Streams(lits)| - 1]| + 3
  {
    QuarterSize(|lits|, quarter);
    hide StreamSize;
  }

  lemma QuarterSize(litCnt: nat, quarter: nat)
    requires 0 < litCnt <= 4 * quarter && quarter >= 255
    ensures 0 < StreamSize(litCnt) <= quarter
    ensures litCnt > 255 ==> 3 * StreamSize(litCnt) < litCnt <= 4 * StreamSize(litCnt) <= litCnt + 3
    ensures litCnt <= 255 ==> StreamSize(litCnt) == litCnt
  {
  }

  lemma StreamsJoin(lits: seq<Byte>)
    requires lits != []
    ensures var r := Streams(lits);
            lits == if |r| == 1 then r[0] else r[0] + r[1] + r[2] + r[3]
  {
  }

  function SizeBytes(n: nat): seq<Byte> { [n % 256, n / 256 % 256] }

  function Header(r: seq<seq<Byte>>): seq<Byte>
    requires |r| == 1 || |r| == 4
  {
    if |r| == 1 then [1] + SizeBytes(|r[0]|)
    else [4] + SizeBytes(|r[0]|) + SizeBytes(|r[1]|) + SizeBytes(|r[2]|) + SizeBytes(|r[3]|)
  }

  function AllBackwards(r: seq<seq<Byte>>): seq<Byte> {
    if r == [] then [] else AllBackwards(r[..|r| - 1]) + Backwards(r[|r| - 1])
  }

  // The first k streams are out, and the last t bytes of stream k.
  function Gone(r: seq<seq<Byte>>, k: nat, t: nat): seq<Byte>
    requires k < |r| && t <= |r[k]|
  {
    AllBackwards(r[..k]) + Backwards(r[k][|r[k]| - t..])
  }

  lemma GoneByte(r: seq<seq<Byte>>, k: nat, t: nat)
    requires k < |r| && t < |r[k]|
    ensures Gone(r, k, t + 1) == Gone(r, k, t) + [r[k][|r[k]| - 1 - t]]
  {
    var b, n := r[k], |r[k]|;
    var x, rest := b[n - 1 - t], b[n - t..];
    assert b[n - (t + 1)..] == [x] + rest && ([x] + rest)[1..] == rest;
  }

  lemma GoneStream(r: seq<seq<Byte>>, k: nat)
    requires k < |r|
    ensures Gone(r, k, |r[k]|) == AllBackwards(r[..k + 1])
    ensures k + 1 < |r| ==> Gone(r, k + 1, 0) == AllBackwards(r[..k + 1])
  {
    assert r[..k + 1][..k] == r[..k];
    assert r[k][|r[k]| - |r[k]|..] == r[k];
    if k + 1 < |r| {
      assert r[k + 1][|r[k + 1]| - 0..] == [];
      assert AllBackwards(r[..k + 1]) + [] == AllBackwards(r[..k + 1]);
    }
  }

  function Min(a: nat, b: nat): nat { if a < b then a else b }

  // t cycles into reading stream k and writing stream k + 1.
  ghost predicate Overlapping(buf: seq<Byte>, r: seq<seq<Byte>>, k: nat, t: nat, rIdx: int, wIdx: int) {
    && k + 1 < |r| && t <= |r[k]| <= |buf| && |r[k + 1]| <= |r[k]|
    && Stored(buf, r, k, |r[k]| - t) && Stored(buf, r, k + 1, Min(t, |r[k + 1]|))
    && rIdx == Place(k, |r[k]| - 1 - t, |buf|) && wIdx == Place(k + 1, Min(t, |r[k + 1]|), |buf|)
  }

  lemma OverlapReads(buf: seq<Byte>, r: seq<seq<Byte>>, k: nat, t: nat, rIdx: int, wIdx: int)
    requires Overlapping(buf, r, k, t, rIdx, wIdx) && t < |r[k]|
    ensures 0 <= rIdx < |buf| && buf[rIdx] == r[k][|r[k]| - 1 - t]
  {
  }

  lemma OverlapWrites(buf: seq<Byte>, r: seq<seq<Byte>>, k: nat, t: nat, rIdx: int, wIdx: int, inc: int)
    requires Overlapping(buf, r, k, t, rIdx, wIdx) && t < |r[k]| && inc == -Direction(k)
    ensures t < |r[k + 1]| ==> 0 <= wIdx < |buf|
    ensures t < |r[k + 1]| ==> Overlapping(buf[wIdx := r[k + 1][t]], r, k, t + 1, rIdx + inc, wIdx + inc)
    ensures t >= |r[k + 1]| ==> Overlapping(buf, r, k, t + 1, rIdx + inc, wIdx)
  {
    if t < |r[k + 1]| {
      WriteStores(buf, r, k + 1, t, r[k + 1][t]);
      WriteKeeps(buf, r, k + 1, t, k, |r[k]| - t - 1, r[k + 1][t]);
    }
    hide Stored;
    if t >= |r[k + 1]| { StoredLess(buf, r, k, |r[k]| - t); }
  }

  lemma StoredLess(buf: seq<Byte>, r: seq<seq<Byte>>, k: nat, n: nat)
    requires Stored(buf, r, k, n) && n > 0
    ensures Stored(buf, r, k, n - 1)
  {
  }

  method Overlap(input: seq<Byte>, pos0: nat, buf: array<Byte>, out0: seq<Byte>, size: nat, nextSize: nat, rIdx0: int, wIdx0: int, inc: int,
                 ghost r: seq<seq<Byte>>, ghost k: nat, ghost head: seq<Byte>)
    returns (pos: nat, out: seq<Byte>, rIdx: int, wIdx: int)
    requires k + 1 < |r| && Overlapping(buf[..], r, k, 0, rIdx0, wIdx0) && inc == -Direction(k)
    requires size == |r[k]| && nextSize == |r[k + 1]| && pos0 + nextSize <= |input| && input[pos0..pos0 + nextSize] == r[k + 1]
    requires out0 == head + Gone(r, k, 0)
    modifies buf
    ensures Overlapping(buf[..], r, k, size, rIdx, wIdx) && pos == pos0 + nextSize && out == head + Gone(r, k, size)
  {
    hide Overlapping, Gone;
    Sizes(buf[..], r, k, rIdx0, wIdx0);
    pos, out, rIdx, wIdx := pos0, out0, rIdx0, wIdx0;
    var litIdx := 0;
    while litIdx < size
      invariant 0 <= litIdx <= size && pos == pos0 + Min(litIdx, nextSize)
      invariant Overlapping(buf[..], r, k, litIdx, rIdx, wIdx) && out == head + Gone(r, k, litIdx)
    {
      ghost var m := buf[..];
      OverlapReads(m, r, k, litIdx, rIdx, wIdx);
      OverlapWrites(m, r, k, litIdx, rIdx, wIdx, inc);
      GoneByte(r, k, litIdx);
      out := out + [buf[rIdx]];
      rIdx := rIdx + inc;
      if litIdx < nextSize {
        assert input[pos] == input[pos0..pos0 + nextSize][litIdx];
        Put(buf, wIdx, input[pos]);
        pos := pos + 1;
        wIdx := wIdx + inc;
      }
      litIdx := litIdx + 1;
    }
  }

  lemma Sizes(buf: seq<Byte>, r: seq<seq<Byte>>, k: nat, rIdx: int, wIdx: int)
    requires Overlapping(buf, r, k, 0, rIdx, wIdx)
    ensures k + 1 < |r| && |r[k + 1]| <= |r[k]|
  {
  }

  method Put(buf: array<Byte>, i: int, x: Byte)
    requires 0 <= i < buf.Length
    modifies buf
    ensures buf[..] == old(buf[..])[i := x]
  {
    buf[i] := x;
  }

  // After the overlap the directions turn round.
  lemma Turns(buf: seq<Byte>, r: seq<seq<Byte>>, k: nat, rIdx: int, wIdx: int)
    requires k < |r| && Overlapping(buf, r, k, |r[k]|, rIdx, wIdx)
    ensures Stored(buf, r, k + 1, |r[k + 1]|)
    ensures wIdx + Direction(k) == Place(k + 1, |r[k + 1]| - 1, |buf|)
  {
  }

  lemma OverlapStarts(buf: seq<Byte>, r: seq<seq<Byte>>, k: nat, rIdx: int, wIdx: int)
    requires k + 1 < |r| && Stored(buf, r, k, |r[k]|) && |r[k + 1]| <= |r[k]|
    requires rIdx == Place(k, |r[k]| - 1, |buf|) && wIdx == Limit((k + 1) % 2, |buf|) + Direction(k + 1)
    ensures Overlapping(buf, r, k, 0, rIdx, wIdx)
  {
  }

  method FillFirst(input: seq<Byte>, buf: array<Byte>, size: nat, ghost r: seq<seq<Byte>>)
    requires |r| > 0 && 0 < size == |r[0]| <= buf.Length && size <= |input| && input[..size] == r[0]
    modifies buf
    ensures Stored(buf[..], r, 0, size)
  {
    var i := 0;
    while i < size
      invariant 0 <= i <= size && Stored(buf[..], r, 0, i)
    {
      assert input[i] == input[..size][i];
      WriteStores(buf[..], r, 0, i, input[i]);
      Put(buf, i, input[i]);
      i := i + 1;
    }
  }

  method Drain(buf: array<Byte>, out0: seq<Byte>, rIdx0: int, inc: int, size: nat, ghost r: seq<seq<Byte>>, ghost k: nat, ghost head: seq<Byte>)
    returns (out: seq<Byte>)
    requires k < |r| && size == |r[k]| && Stored(buf[..], r, k, size) && rIdx0 == Place(k, size - 1, buf.Length) && inc == -Direction(k)
    requires out0 == head + Gone(r, k, 0)
    ensures out == head + Gone(r, k, size)
  {
    hide Gone;
    out := out0;
    var rIdx, litIdx := rIdx0, 0;
    while litIdx < size
      invariant 0 <= litIdx <= size && rIdx == Place(k, size - 1 - litIdx, buf.Length) && out == head + Gone(r, k, litIdx)
    {
      GoneByte(r, k, litIdx);
      assert buf[..][Place(k, size - 1 - litIdx, buf.Length)] == r[k][size - 1 - litIdx];
      out := out + [buf[rIdx]];
      rIdx := rIdx + inc;
      litIdx := litIdx + 1;
    }
  }

  // One block: the number of streams, their sizes, and every stream backwards.
  method PreProcessLitBlock(lits: seq<Byte>, quarter: nat) returns (out: seq<Byte>)
    requires 0 < |lits| <= 4 * quarter && quarter >= 255
    ensures out == Header(Streams(lits)) + AllBackwards(Streams(lits))
  {
    var buf := new Byte[quarter](_ => 0);
    ghost var r := Streams(lits);
    StreamsFit(lits, quarter);
    var size := StreamSize(|lits|);
    var last := if |lits| > 255 then |lits| - 3 * size else |lits|;
    ghost var head := Header(r);
    if |lits| > 255 {
      out := [4] + SizeBytes(size) + SizeBytes(size) + SizeBytes(size) + SizeBytes(last);
    } else {
      out := [1] + SizeBytes(size);
    }
    assert out == head;
    NothingGone(r, head);
    FillFirst(lits, buf, size, r);
    if |lits| > 255 {
      out := FourStreams(lits, buf, out, size, last, r, head);
    } else {
      out := Drain(buf, out, size - 1, -1, last, r, 0, head);
      GoneStream(r, 0);
      assert r[..1] == r;
    }
  }

  lemma NothingGone(r: seq<seq<Byte>>, head: seq<Byte>)
    requires |r| > 0
    ensures head + Gone(r, 0, 0) == head
  {
    assert r[..0] == [] && r[0][|r[0]| - 0..] == [];
  }

  method FourStreams(lits: seq<Byte>, buf: array<Byte>, out0: seq<Byte>, size: nat, last: nat, ghost r: seq<seq<Byte>>, ghost head: seq<Byte>)
    returns (out: seq<Byte>)
    requires |r| == 4 && |r[0]| == |r[1]| == |r[2]| == size && |r[3]| == last <= size <= buf.Length
    requires |lits| == 3 * size + last && lits[size..2 * size] == r[1] && lits[2 * size..3 * size] == r[2] && lits[3 * size..] == r[3]
    requires Stored(buf[..], r, 0, size) && out0 == head + Gone(r, 0, 0)
    modifies buf
    ensures out == head + AllBackwards(r)
  {
    hide Stored, Gone, Overlapping, AllBackwards;
    var pos, rIdx, wIdx := size, size - 1, buf.Length - 1;
    OverlapStarts(buf[..], r, 0, rIdx, wIdx);
    out := out0;
    pos, out, rIdx, wIdx := Overlap(lits, pos, buf, out, size, size, rIdx, wIdx, -1, r, 0, head);
    Turns(buf[..], r, 0, rIdx, wIdx);
    GoneStream(r, 0);
    rIdx := wIdx + 1;
    wIdx := 0;
    OverlapStarts(buf[..], r, 1, rIdx, wIdx);
    pos, out, rIdx, wIdx := Overlap(lits, pos, buf, out, size, size, rIdx, wIdx, 1, r, 1, head);
    Turns(buf[..], r, 1, rIdx, wIdx);
    GoneStream(r, 1);
    rIdx := wIdx - 1;
    wIdx := buf.Length - 1;
    OverlapStarts(buf[..], r, 2, rIdx, wIdx);
    assert lits[pos..pos + last] == r[3];
    pos, out, rIdx, wIdx := Overlap(lits, pos, buf, out, size, last, rIdx, wIdx, -1, r, 2, head);
    Turns(buf[..], r, 2, rIdx, wIdx);
    GoneStream(r, 2);
    rIdx := wIdx + 1;
    out := Drain(buf, out, rIdx, 1, last, r, 3, head);
    GoneStream(r, 3);
    assert r[..4] == r;
  }

  // ---------- All blocks ----------

  function SentBlock(lits: seq<Byte>): seq<Byte>
    requires lits != []
  {
    Header(Streams(lits)) + AllBackwards(Streams(lits))
  }

  // The blocks up to the first empty one: a block without literals looks like the end of the data.
  function Taken(blocks: seq<seq<Byte>>): (t: seq<seq<Byte>>)
    ensures |t| <= |blocks| && (forall k :: 0 <= k < |t| ==> t[k] == blocks[k] != [])
    ensures |t| < |blocks| ==> blocks[|t|] == []
  {
    if blocks == [] || blocks[0] == [] then [] else [blocks[0]] + Taken(blocks[1..])
  }

  ghost predicate Sized(blocks: seq<seq<Byte>>, quarter: nat) {
    forall k :: 0 <= k < |blocks| ==> 0 < |blocks[k]| <= 4 * quarter
  }

  function SentBlocks(blocks: seq<seq<Byte>>): seq<Byte>
    requires forall k :: 0 <= k < |blocks| ==> blocks[k] != []
  {
    if blocks == [] then [] else SentBlocks(blocks[..|blocks| - 1]) + SentBlock(blocks[|blocks| - 1])
  }

  method PreProcessLitStream(blocks: seq<seq<Byte>>, quarter: nat) returns (out: seq<Byte>)
    requires quarter >= 255 && forall k :: 0 <= k < |blocks| ==> |blocks[k]| <= 4 * quarter
    ensures out == SentBlocks(Taken(blocks))
  {
    hide SentBlock;
    ghost var taken := Taken(blocks);
    out := [];
    var i := 0;
    while i < |blocks|
      invariant 0 <= i <= |taken| && out == SentBlocks(taken[..i])
    {
      if blocks[i] == [] { break; }
      var next := PreProcessLitBlock(blocks[i], quarter);
      BlockSent(blocks[i], next);
      assert taken[..i + 1][..i] == taken[..i];
      out := out + next;
      i := i + 1;
    }
    assert taken[..|taken|] == taken;
  }

  lemma BlockSent(lits: seq<Byte>, out: seq<Byte>)
    requires lits != [] && out == Header(Streams(lits)) + AllBackwards(Streams(lits))
    ensures out == SentBlock(lits)
  {
  }

  // ---------- Reading the blocks back ----------

  datatype Option<T> = Some(value: T) | None

  // The size at position k, its lowest byte first.
  function SizeAt(s: seq<Byte>, k: nat): nat
    requires k + 2 <= |s|
  {
    var low, high: nat := s[k], s[k + 1];
    low + 256 * high
  }

  // The sizes of n streams.
  function SizesAt(s: seq<Byte>, k: nat, n: nat): (sizes: seq<nat>)
    requires k + 2 * n <= |s|
    ensures |sizes| == n
    decreases n
  {
    if n == 0 then [] else [SizeAt(s, k)] + SizesAt(s, k + 2, n - 1)
  }

  // The streams of these sizes, each turned round, and what follows them.
  function ReadStreams(sizes: seq<nat>, s: seq<Byte>): (r: Option<(seq<Byte>, seq<Byte>)>)
    ensures r.Some? ==> |r.value.1| <= |s|
  {
    if sizes == [] then Some(([], s))
    else if sizes[0] > |s| then None
    else
      match ReadStreams(sizes[1..], s[sizes[0]..])
      case None => None
      case Some((lits, rest)) => Some((Backwards(s[..sizes[0]]) + lits, rest))
  }

  // A block: one or four streams behind their sizes.
  function ReadBlock(s: seq<Byte>): (r: Option<(seq<Byte>, seq<Byte>)>)
    ensures r.Some? ==> |r.value.1| < |s|
  {
    if s == [] || (s[0] != 1 && s[0] != 4) then None
    else
      var n: nat := s[0];
      if |s| < 1 + 2 * n then None else ReadStreams(SizesAt(s, 1, n), s[1 + 2 * n..])
  }

  function ReadBlocks(s: seq<Byte>): Option<seq<seq<Byte>>>
    decreases |s|
  {
    if s == [] then Some([])
    else
      match ReadBlock(s)
      case None => None
      case Some((lits, rest)) =>
        match ReadBlocks(rest)
        case None => None
        case Some(blocks) => Some([lits] + blocks)
  }

  lemma {:induction false} BackwardsTwice(s: seq<Byte>)
    ensures |Backwards(s)| == |s| && Backwards(Backwards(s)) == s
  {
    if s != [] {
      BackwardsTwice(s[1..]);
      BackwardsAppend(Backwards(s[1..]), s[0]);
    }
  }

  lemma {:induction false} BackwardsAppend(s: seq<Byte>, x: Byte)
    ensures Backwards(s + [x]) == [x] + Backwards(s)
  {
    if s == [] {
      assert s + [x] == [x] && [x][1..] == [];
    } else {
      BackwardsAppend(s[1..], x);
      assert (s + [x])[1..] == s[1..] + [x];
    }
  }

  function Lengths(r: seq<seq<Byte>>): (l: seq<nat>)
    ensures |l| == |r|
  {
    if r == [] then [] else [|r[0]|] + Lengths(r[1..])
  }

  // Streams one after the other.
  function Joined(r: seq<seq<Byte>>): seq<Byte> {
    if r == [] then [] else r[0] + Joined(r[1..])
  }

  lemma {:induction false} FirstBackwards(r: seq<seq<Byte>>)
    requires r != []
    ensures AllBackwards(r) == Backwards(r[0]) + AllBackwards(r[1..])
    decreases |r|
  {
    hide Backwards;
    var z := |r| - 1;
    if z == 0 {
      assert r[..0] == [] && r[1..] == [];
      assert [] + Backwards(r[0]) == Backwards(r[0]) + [];
    } else {
      FirstBackwards(r[..z]);
      assert r[..z][1..] == r[1..][..z - 1];
    }
  }

  // Given their sizes, the streams come back.
  lemma {:induction false} StreamsReadBack(r: seq<seq<Byte>>, rest: seq<Byte>)
    ensures ReadStreams(Lengths(r), AllBackwards(r) + rest) == Some((Joined(r), rest))
    decreases |r|
  {
    if r == [] {
      assert [] + rest == rest;
    } else {
      FirstBackwards(r);
      BackwardsTwice(r[0]);
      StreamsReadBack(r[1..], rest);
      hide Backwards, AllBackwards, Joined;
      var s := AllBackwards(r) + rest;
      FrontAndBack(Backwards(r[0]), AllBackwards(r[1..]), rest);
      assert Lengths(r)[1..] == Lengths(r[1..]);
      JoinedFirst(r);
    }
  }

  lemma FrontAndBack(a: seq<Byte>, b: seq<Byte>, c: seq<Byte>)
    ensures (a + b + c)[..|a|] == a && (a + b + c)[|a|..] == b + c
  {
  }

  lemma JoinedFirst(r: seq<seq<Byte>>)
    requires r != []
    ensures Joined(r) == r[0] + Joined(r[1..])
  {
  }

  // The size sent for a stream, read lowest byte first, is the size of the stream.
  lemma SizeReadBack(n: nat, before: seq<Byte>, rest: seq<Byte>)
    requires n < 65536
    ensures SizeAt(before + SizeBytes(n) + rest, |before|) == n
  {
    var s := before + SizeBytes(n) + rest;
    assert s[|before|] == n % 256 && s[|before| + 1] == n / 256 % 256;
  }

  ghost predicate SmallStreams(r: seq<seq<Byte>>) {
    (|r| == 1 || |r| == 4) && forall k :: 0 <= k < |r| ==> |r[k]| < 65536
  }

  // The sizes of the streams, one after the other.
  function AllSizes(r: seq<seq<Byte>>): (b: seq<Byte>)
    ensures |b| == 2 * |r|
  {
    if r == [] then [] else SizeBytes(|r[0]|) + AllSizes(r[1..])
  }

  lemma {:induction false} AllSizesReadBack(before: seq<Byte>, r: seq<seq<Byte>>, rest: seq<Byte>)
    requires forall k :: 0 <= k < |r| ==> |r[k]| < 65536
    ensures SizesAt(before + AllSizes(r) + rest, |before|, |r|) == Lengths(r)
    decreases |r|
  {
    if r != [] {
      var size, more := SizeBytes(|r[0]|), AllSizes(r[1..]);
      SizeReadBack(|r[0]|, before, more + rest);
      AllSizesReadBack(before + size, r[1..], rest);
      hide SizeBytes;
      assert before + (size + more) + rest == before + size + (more + rest) == before + size + more + rest;
    }
  }

  lemma HeaderIs(r: seq<seq<Byte>>)
    requires |r| == 1 || |r| == 4
    ensures Header(r) == [|r|] + AllSizes(r)
  {
    hide SizeBytes;
    if |r| == 1 {
      LastSize(r);
    } else {
      LastSize(r[3..]);
      assert r[2..][1..] == r[3..] && r[1..][1..] == r[2..];
      assert AllSizes(r[2..]) == SizeBytes(|r[2]|) + AllSizes(r[3..]);
      assert AllSizes(r[1..]) == SizeBytes(|r[1]|) + AllSizes(r[2..]);
      FourFold([4], SizeBytes(|r[0]|), SizeBytes(|r[1]|), SizeBytes(|r[2]|), SizeBytes(|r[3]|));
    }
  }

  lemma LastSize(r: seq<seq<Byte>>)
    requires |r| == 1
    ensures AllSizes(r) == SizeBytes(|r[0]|)
  {
    assert r[1..] == [];
    assert SizeBytes(|r[0]|) + [] == SizeBytes(|r[0]|);
  }

  lemma FourFold(a: seq<Byte>, b: seq<Byte>, c: seq<Byte>, d: seq<Byte>, e: seq<Byte>)
    ensures a + b + c + d + e == a + (b + (c + (d + e)))
  {
  }

  lemma SizesReadBack(r: seq<seq<Byte>>, rest: seq<Byte>)
    requires SmallStreams(r)
    ensures |Header(r)| == 1 + 2 * |r| && SizesAt(Header(r) + rest, 1, |r|) == Lengths(r)
  {
    HeaderIs(r);
    AllSizesReadBack([|r|], r, rest);
    hide Header, AllSizes, SizesAt, Lengths;
  }

  lemma StreamsAre(lits: seq<Byte>, quarter: nat)
    requires 0 < |lits| <= 4 * quarter && 255 <= quarter < 65536
    ensures SmallStreams(Streams(lits)) && Joined(Streams(lits)) == lits
  {
    StreamsFit(lits, quarter);
    StreamsJoin(lits);
    hide StreamSize;
    JoinedFour(Streams(lits));
  }

  lemma JoinedFour(r: seq<seq<Byte>>)
    requires |r| == 1 || |r| == 4
    ensures Joined(r) == if |r| == 1 then r[0] else r[0] + r[1] + r[2] + r[3]
  {
    if |r| == 4 {
      assert r[1..][1..] == [r[2], r[3]];
      assert [r[2], r[3]][1..] == [r[3]];
      assert Joined([r[3]]) == r[3];
      assert Joined([r[2], r[3]]) == r[2] + r[3];
      assert Joined(r[1..]) == r[1] + (r[2] + r[3]);
    }
  }

  // A block is read back, and what follows it is next.
  lemma BlockReadBack(lits: seq<Byte>, rest: seq<Byte>, quarter: nat)
    requires 0 < |lits| <= 4 * quarter && 255 <= quarter < 65536
    ensures ReadBlock(SentBlock(lits) + rest) == Some((lits, rest))
  {
    hide *;
    var r := Streams(lits);
    StreamsAre(lits, quarter);
    SentIs(lits, rest);
    SizesReadBack(r, AllBackwards(r) + rest);
    StreamsReadBack(r, rest);
    FirstByte(r, AllBackwards(r) + rest);
    FrontAndBack([], Header(r), AllBackwards(r) + rest);
    assert (Header(r) + (AllBackwards(r) + rest))[|Header(r)|..] == AllBackwards(r) + rest;
    ReadsBlock(Header(r) + (AllBackwards(r) + rest), |r|);
  }

  lemma SentIs(lits: seq<Byte>, rest: seq<Byte>)
    requires lits != []
    ensures SentBlock(lits) + rest == Header(Streams(lits)) + (AllBackwards(Streams(lits)) + rest)
  {
    hide Header, AllBackwards, Streams;
  }

  lemma FirstByte(r: seq<seq<Byte>>, rest: seq<Byte>)
    requires |r| == 1 || |r| == 4
    ensures Header(r) != [] && (Header(r) + rest)[0] == |r|
  {
    hide SizeBytes;
  }

  lemma ReadsBlock(s: seq<Byte>, n: nat)
    requires (n == 1 || n == 4) && |s| >= 1 + 2 * n && s[0] == n
    ensures ReadBlock(s) == ReadStreams(SizesAt(s, 1, n), s[1 + 2 * n..])
  {
    hide ReadStreams, SizesAt;
  }

  lemma {:induction false} FirstBlockSent(blocks: seq<seq<Byte>>)
    requires blocks != [] && forall k :: 0 <= k < |blocks| ==> blocks[k] != []
    ensures SentBlocks(blocks) == SentBlock(blocks[0]) + SentBlocks(blocks[1..])
    decreases |blocks|
  {
    hide *;
    var z := |blocks| - 1;
    LastBlockSent(blocks);
    if z == 0 {
      assert blocks[..0] == [] && blocks[1..] == [];
      NothingSent();
      assert [] + SentBlock(blocks[0]) == SentBlock(blocks[0]) + [];
    } else {
      FirstBlockSent(blocks[..z]);
      LastBlockSent(blocks[1..]);
      assert blocks[..z][1..] == blocks[1..][..z - 1];
      Regroup(SentBlock(blocks[0]), SentBlocks(blocks[1..][..z - 1]), SentBlock(blocks[z]));
    }
  }

  lemma LastBlockSent(blocks: seq<seq<Byte>>)
    requires blocks != [] && forall k :: 0 <= k < |blocks| ==> blocks[k] != []
    ensures SentBlocks(blocks) == SentBlocks(blocks[..|blocks| - 1]) + SentBlock(blocks[|blocks| - 1])
  {
    hide SentBlock;
  }

  lemma NothingSent()
    ensures SentBlocks([]) == []
  {
  }

  lemma Regroup(a: seq<Byte>, b: seq<Byte>, c: seq<Byte>)
    ensures a + b + c == a + (b + c)
  {
  }

  // So the blocks need no marks between them: what is sent is read back as just these blocks.
  lemma {:induction false} NoMarksNeeded(blocks: seq<seq<Byte>>, quarter: nat)
    requires Sized(blocks, quarter) && 255 <= quarter < 65536
    ensures ReadBlocks(SentBlocks(blocks)) == Some(blocks)
  {
    if blocks != [] {
      FirstBlockSent(blocks);
      BlockReadBack(blocks[0], SentBlocks(blocks[1..]), quarter);
      NoMarksNeeded(blocks[1..], quarter);
      hide SentBlock, SentBlocks, ReadBlock;
      ReadsFirst(SentBlocks(blocks), blocks[0], SentBlocks(blocks[1..]), blocks[1..]);
      assert blocks == [blocks[0]] + blocks[1..];
    }
  }

  lemma ReadsFirst(s: seq<Byte>, lits: seq<Byte>, rest: seq<Byte>, blocks: seq<seq<Byte>>)
    requires ReadBlock(s) == Some((lits, rest)) && ReadBlocks(rest) == Some(blocks)
    ensures ReadBlocks(s) == Some([lits] + blocks)
  {
    hide ReadBlock;
  }
}
