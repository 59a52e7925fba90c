// Reversing the sequences of each block in one memory shared by a writer and a reader: even
// blocks grow from the bottom, odd blocks from the top, and each is read back the way it came.

module SequenceReverse {

  // One beat of a stream; strobe false marks the end of a block, and twice in a row the end.
  datatype Beat<T> = Beat(strobe: bool, data: T)

  // ---------- What goes in and what should come out ----------

  // Where block k starts in the stream.
  function Start<T>(blocks: seq<seq<T>>, k: nat): nat
    requires k <= |blocks|
  {
    if k == 0 then 0 else Start(blocks, k - 1) + |blocks[k - 1]| + 1
  }

  ghost predicate Feeds<T>(input: seq<Beat<T>>, blocks: seq<seq<T>>) {
    && |input| == Start(blocks, |blocks|) + 1 && !input[|input| - 1].strobe
    && forall k :: 0 <= k < |blocks| ==> FeedsBlock(input, blocks, k)
  }

  ghost predicate FeedsBlock<T>(input: seq<Beat<T>>, blocks: seq<seq<T>>, k: nat)
    requires k < |blocks|
  {
    var s, n := Start(blocks, k), |blocks[k]|;
    && s + n < |input| && !input[s + n].strobe
    && forall i :: s <= i < s + n ==> input[i] == Beat(true, blocks[k][i - s])
  }

  function Backwards<T>(b: seq<T>): (r: seq<T>)
    ensures |r| == |b|
  {
    if b == [] then [] else Backwards(b[1..]) + [b[0]]
  }

  // The stream without its end marks' data: None ends a block.
  datatype Mark<T> = Item(data: T) | End

  function Items<T>(b: seq<T>): (r: seq<Mark<T>>)
    ensures |r| == |b|
  {
    if b == [] then [] else Items(b[..|b| - 1]) + [Item(b[|b| - 1])]
  }

  function ReversedBlocks<T>(blocks: seq<seq<T>>): seq<Mark<T>> {
    if blocks == [] then []
    else ReversedBlocks(blocks[..|blocks| - 1]) + Items(Backwards(blocks[|blocks| - 1])) + [End]
  }

  // ---------- The registers ----------

  datatype Control = Control(wIdx: int, rIdx: int, bufferMode: bool, streamMode: bool, done: bool, blockDone: bool,
                             wInc: int, rInc: int, wsi: nat, rsi: nat, begin0: int, begin1: int)

  function Begin(c: Control, i: nat): int { if i == 0 then c.begin0 else c.begin1 }

  function Limit(i: nat, m: nat): int { if i == 0 then -1 else m }

  function Direction(k: nat): int { if k % 2 == 0 then 1 else -1 }

  // Where entry i of block k lies in a memory of m entries.
  function Place(k: nat, i: int, m: nat): int { if k % 2 == 0 then i else m - 1 - i }

  function Length<T>(blocks: seq<seq<T>>, k: nat): nat {
    if k < |blocks| then |blocks[k]| else 0
  }

  // The first n entries of block k are in the memory.
  ghost predicate Stored<T>(buf: seq<T>, blocks: seq<seq<T>>, k: nat, n: nat) {
    n <= Length(blocks, k) && n <= |buf|
    && forall i :: 0 <= i < n ==> 0 <= Place(k, i, |buf|) < |buf| && buf[Place(k, i, |buf|)] == blocks[k][i]
  }

  // The writer is w entries into block wk, the reader r entries into block rk.
  datatype Spot = Spot(wk: nat, w: nat, rk: nat, r: nat)

  ghost predicate Steady<T>(c: Control, s: Spot, buf: seq<T>, blocks: seq<seq<T>>) {
    && c.wsi == s.wk % 2 && c.rsi == s.rk % 2 && c.wInc == Direction(s.wk) && c.rInc == Direction(s.rk)
    && s.w <= Length(blocks, s.wk) && c.wIdx == Place(s.wk, s.w, |buf|)
    && (c.blockDone <==> s.w == 0)
    && Stored(buf, blocks, s.wk, s.w)
  }

  ghost predicate Reading<T>(c: Control, s: Spot, buf: seq<T>, blocks: seq<seq<T>>) {
    && s.rk < |blocks| && s.r <= |blocks[s.rk]|
    && c.rIdx == Place(s.rk, |blocks[s.rk]| - 1 - s.r, |buf|)
    && Stored(buf, blocks, s.rk, |blocks[s.rk]| - s.r)
  }

  // `lead` is how far the writer is ahead of the reader when both are at work: 1 within a cycle.
  ghost predicate Consistent<T>(c: Control, s: Spot, buf: seq<T>, blocks: seq<seq<T>>, lead: nat) {
    && Steady(c, s, buf, blocks)
    && (if c.bufferMode then !c.done && s.wk <= |blocks| else true)
    && (c.bufferMode && !c.streamMode ==> s.rk == s.wk && s.r == 0)
    && (c.bufferMode && c.streamMode ==> s.wk == s.rk + 1 && s.w == s.r + lead && Reading(c, s, buf, blocks))
    && (!c.bufferMode && c.streamMode ==> s.wk == s.rk + 2 && s.w == 0 && Reading(c, s, buf, blocks) && Waiting(c, s, buf, blocks))
    && (!c.bufferMode && !c.streamMode ==> s.rk == |blocks| && s.r == 0)
  }

  // The block after the one being read is complete, or there is none.
  ghost predicate Waiting<T>(c: Control, s: Spot, buf: seq<T>, blocks: seq<seq<T>>) {
    if c.done then s.rk + 1 == |blocks|
    else s.rk + 1 < |blocks| && Stored(buf, blocks, s.rk + 1, |blocks[s.rk + 1]|)
         && Begin(c, (s.rk + 1) % 2) == Place(s.rk + 1, |blocks[s.rk + 1]| - 1, |buf|)
  }

  // Every block is shorter than the memory, and none is empty.
  ghost predicate Fitting<T>(blocks: seq<seq<T>>, m: nat) {
    0 < m < 0x8000 && forall k :: 0 <= k < |blocks| ==> 0 < |blocks[k]| < m
  }

  // ---------- Writing ----------

  // The writer's entry keeps clear of everything not read yet.
  lemma WriteKeeps<T>(buf: seq<T>, blocks: seq<seq<T>>, wk: nat, w: nat, rk: nat, left: nat, x: T)
    requires w <= Length(blocks, wk) && wk == rk + 1
    requires Stored(buf, blocks, rk, left) && w + left < |buf|
    ensures 0 <= Place(wk, w, |buf|) < |buf|
    ensures Stored(buf[Place(wk, w, |buf|) := x], blocks, rk, left)
  {
    assert wk % 2 != rk % 2;
  }

  lemma WriteStores<T>(buf: seq<T>, blocks: seq<seq<T>>, wk: nat, w: nat, x: T)
    requires Stored(buf, blocks, wk, w) && w < |buf|
    ensures 0 <= Place(wk, w, |buf|) < |buf|
    ensures Stored(buf[Place(wk, w, |buf|) := x], blocks, wk, w)
    ensures w < Length(blocks, wk) && x == blocks[wk][w] ==> Stored(buf[Place(wk, w, |buf|) := x], blocks, wk, w + 1)
  {
  }

  // The next beat for the writer.
  lemma NextBeat<T>(input: seq<Beat<T>>, blocks: seq<seq<T>>, k: nat, w: nat)
    requires Feeds(input, blocks) && k <= |blocks| && w <= Length(blocks, k)
    ensures Start(blocks, k) + w < |input|
    ensures input[Start(blocks, k) + w].strobe <==> w < Length(blocks, k)
    ensures w < Length(blocks, k) ==> input[Start(blocks, k) + w].data == blocks[k][w]
  {
    if k < |blocks| { assert FeedsBlock(input, blocks, k); }
  }

  // An entry of the block comes in.
  lemma EntryComesIn<T>(c: Control, s: Spot, buf: seq<T>, blocks: seq<seq<T>>, x: T)
    requires Fitting(blocks, |buf|) && Consistent(c, s, buf, blocks, 0) && c.bufferMode
    requires s.w < Length(blocks, s.wk) && x == blocks[s.wk][s.w]
    ensures 0 <= c.wIdx < |buf|
    ensures Consistent(c.(blockDone := false, wIdx := c.wIdx + c.wInc), s.(w := s.w + 1), buf[c.wIdx := x], blocks, 1)
  {
    WriteStores(buf, blocks, s.wk, s.w, x);
    if c.streamMode {
      WriteKeeps(buf, blocks, s.wk, s.w, s.rk, |blocks[s.rk]| - s.r, x);
    }
    hide Stored, Fitting;
  }

  // A block ends while nothing is being read: reading starts.
  lemma BlockEndsAlone<T>(c: Control, s: Spot, buf: seq<T>, blocks: seq<seq<T>>, x: T)
    requires Fitting(blocks, |buf|) && Consistent(c, s, buf, blocks, 0) && c.bufferMode && !c.streamMode && !c.blockDone
    requires s.w == Length(blocks, s.wk)
    ensures 0 <= c.wIdx < |buf| && (c.wsi + 1) % 2 != c.rsi
    ensures var c' := c.(blockDone := true, streamMode := true, rIdx := c.wIdx - c.wInc,
                         begin0 := if c.wsi == 0 then c.wIdx - c.wInc else c.begin0,
                         begin1 := if c.wsi == 0 then c.begin1 else c.wIdx - c.wInc,
                         wInc := -c.wInc, wsi := (c.wsi + 1) % 2, wIdx := Limit((c.wsi + 1) % 2, |buf|) - c.wInc);
            Consistent(c', Spot(s.wk + 1, 0, s.rk, 0), buf[c.wIdx := x], blocks, 0)
  {
    WriteStores(buf, blocks, s.wk, s.w, x);
    hide Fitting;
  }

  // A block ends before the one being read is out: writing pauses.
  lemma BlockEndsFirst<T>(c: Control, s: Spot, buf: seq<T>, blocks: seq<seq<T>>, x: T)
    requires Fitting(blocks, |buf|) && Consistent(c, s, buf, blocks, 0) && c.bufferMode && c.streamMode
    requires s.w == Length(blocks, s.wk)
    ensures 0 <= c.wIdx < |buf| && (c.wsi + 1) % 2 == c.rsi
    ensures var c' := c.(done := c.blockDone, blockDone := true, bufferMode := false,
                         begin0 := if c.wsi == 0 then c.wIdx - c.wInc else c.begin0,
                         begin1 := if c.wsi == 0 then c.begin1 else c.wIdx - c.wInc,
                         wInc := -c.wInc, wsi := (c.wsi + 1) % 2, wIdx := Limit((c.wsi + 1) % 2, |buf|) - c.wInc);
            Consistent(c', Spot(s.wk + 1, 0, s.rk, s.r), buf[c.wIdx := x], blocks, 0)
  {
    WriteStores(buf, blocks, s.wk, s.w, x);
    WriteKeeps(buf, blocks, s.wk, s.w, s.rk, |blocks[s.rk]| - s.r, x);
    assert s.wk < |blocks| ==> |blocks[s.wk]| > 0;
    hide Fitting;
  }

  // The input ends while nothing is being read.
  lemma InputEnds<T>(c: Control, s: Spot, buf: seq<T>, blocks: seq<seq<T>>, x: T)
    requires Fitting(blocks, |buf|) && Consistent(c, s, buf, blocks, 0) && c.bufferMode && !c.streamMode && c.blockDone
    requires s.w == Length(blocks, s.wk)
    ensures 0 <= c.wIdx < |buf|
    ensures var c' := c.(done := true, blockDone := true, bufferMode := false,
                         begin0 := if c.wsi == 0 then c.wIdx - c.wInc else c.begin0,
                         begin1 := if c.wsi == 0 then c.begin1 else c.wIdx - c.wInc,
                         wInc := -c.wInc, wsi := (c.wsi + 1) % 2, wIdx := Limit((c.wsi + 1) % 2, |buf|) - c.wInc);
            Consistent(c', Spot(s.wk + 1, 0, s.rk, 0), buf[c.wIdx := x], blocks, 0)
  {
    WriteStores(buf, blocks, s.wk, s.w, x);
    hide Fitting;
  }

  // ---------- Reading ----------

  // An entry goes out; it is the last one not read yet.
  lemma EntryGoesOut<T>(c: Control, s: Spot, buf: seq<T>, blocks: seq<seq<T>>, lead: nat)
    requires Consistent(c, s, buf, blocks, lead) && c.streamMode && c.rIdx != Limit(c.rsi, |buf|)
    requires lead == if c.bufferMode then 1 else 0
    ensures s.rk < |blocks| && s.r < |blocks[s.rk]| && 0 <= c.rIdx < |buf|
    ensures buf[c.rIdx] == blocks[s.rk][|blocks[s.rk]| - 1 - s.r]
    ensures Consistent(c.(rIdx := c.rIdx - c.rInc), s.(r := s.r + 1), buf, blocks, 0)
  {
  }

  // The block read is out: the next one that is complete follows, or reading pauses.
  lemma BlockIsOut<T>(c: Control, s: Spot, buf: seq<T>, blocks: seq<seq<T>>, lead: nat)
    requires Consistent(c, s, buf, blocks, lead) && c.streamMode && c.rIdx == Limit(c.rsi, |buf|)
    requires lead == if c.bufferMode then 1 else 0
    ensures s.rk < |blocks| && s.r == |blocks[s.rk]|
    ensures var c1 := c.(bufferMode := c.bufferMode || (c.wsi == c.rsi && !c.done), rsi := (c.rsi + 1) % 2,
                         rIdx := Begin(c, (c.rsi + 1) % 2), rInc := -c.rInc);
            var c' := c1.(streamMode := !(c1.done || c1.wsi == c1.rsi));
            Consistent(c', Spot(s.wk, s.w, s.rk + 1, 0), buf, blocks, 0)
  {
    hide Stored;
  }

  // ---------- What is out ----------

  // All blocks before rk, and the last r entries of block rk.
  function Emitted<T>(blocks: seq<seq<T>>, rk: nat, r: nat): seq<Mark<T>>
    requires rk <= |blocks| && r <= Length(blocks, rk)
  {
    if rk < |blocks| then ReversedBlocks(blocks[..rk]) + Items(Backwards(blocks[rk][|blocks[rk]| - r..]))
    else ReversedBlocks(blocks[..rk])
  }

  lemma EmittedEntry<T>(blocks: seq<seq<T>>, rk: nat, r: nat)
    requires rk < |blocks| && r < |blocks[rk]|
    ensures Emitted(blocks, rk, r + 1) == Emitted(blocks, rk, r) + [Item(blocks[rk][|blocks[rk]| - 1 - r])]
  {
    var b, n := blocks[rk], |blocks[rk]|;
    var x, rest := b[n - 1 - r], b[n - r..];
    assert b[n - (r + 1)..] == [x] + rest;
    assert ([x] + rest)[1..] == rest;
    assert (Backwards(rest) + [x])[..|rest|] == Backwards(rest);
    hide ReversedBlocks;
  }

  lemma EmittedBlock<T>(blocks: seq<seq<T>>, rk: nat)
    requires rk < |blocks|
    ensures Emitted(blocks, rk + 1, 0) == Emitted(blocks, rk, |blocks[rk]|) + [End]
  {
    assert blocks[..rk + 1][..rk] == blocks[..rk];
    assert blocks[rk][|blocks[rk]| - |blocks[rk]|..] == blocks[rk];
    if rk + 1 < |blocks| {
      assert blocks[rk + 1][|blocks[rk + 1]| - 0..] == [];
      assert Emitted(blocks, rk + 1, 0) == ReversedBlocks(blocks[..rk + 1]) + [];
    }
  }

  lemma {:induction false} EmittedLength<T>(blocks: seq<seq<T>>, rk: nat, r: nat)
    requires rk <= |blocks| && r <= Length(blocks, rk)
    ensures |Emitted(blocks, rk, r)| == Start(blocks, rk) + r <= Start(blocks, |blocks|)
    decreases rk
  {
    StartGrows(blocks, rk);
    if rk > 0 {
      EmittedLength(blocks, rk - 1, |blocks[rk - 1]|);
      EmittedBlock(blocks, rk - 1);
    }
    EmittedNothing(blocks, rk);
  }

  lemma EmittedNothing<T>(blocks: seq<seq<T>>, rk: nat)
    requires rk <= |blocks|
    ensures Emitted(blocks, rk, 0) == ReversedBlocks(blocks[..rk])
  {
    if rk < |blocks| {
      assert blocks[rk][|blocks[rk]| - 0..] == [];
      assert ReversedBlocks(blocks[..rk]) + [] == ReversedBlocks(blocks[..rk]);
    }
  }

  lemma {:induction false} StartGrows<T>(blocks: seq<seq<T>>, k: nat)
    requires k <= |blocks|
    ensures Start(blocks, k) + Length(blocks, k) <= Start(blocks, |blocks|)
    decreases |blocks| - k
  {
    if k < |blocks| { StartGrows(blocks, k + 1); }
  }

  // ---------- The loop ----------

  // Where the writer is in the stream.
  ghost predicate At<T>(pos: nat, s: Spot, input: seq<Beat<T>>, blocks: seq<seq<T>>) {
    if s.wk <= |blocks| then pos == Start(blocks, s.wk) + s.w else pos == |input|
  }

  lemma AtNext<T>(input: seq<Beat<T>>, blocks: seq<seq<T>>, wk: nat, w: nat)
    requires Feeds(input, blocks) && wk <= |blocks| && w <= Length(blocks, wk)
    ensures w < Length(blocks, wk) ==> At(Start(blocks, wk) + w + 1, Spot(wk, w + 1, 0, 0), input, blocks)
    ensures w == Length(blocks, wk) ==> At(Start(blocks, wk) + w + 1, Spot(wk + 1, 0, 0, 0), input, blocks)
  {
  }

  lemma AtAnyReader<T>(pos: nat, s: Spot, s': Spot, input: seq<Beat<T>>, blocks: seq<seq<T>>)
    requires At(pos, s, input, blocks) && s.wk == s'.wk && s.w == s'.w
    ensures At(pos, s', input, blocks)
  {
  }

  method BufferCycle<T>(input: seq<Beat<T>>, pos: nat, c0: Control, buf: array<T>, ghost s: Spot, ghost blocks: seq<seq<T>>)
    returns (c: Control, pos': nat, again: bool, ghost s': Spot)
    requires Feeds(input, blocks) && Fitting(blocks, buf.Length)
    requires Consistent(c0, s, buf[..], blocks, 0) && c0.bufferMode && At(pos, s, input, blocks)
    modifies buf
    ensures Consistent(c, s', buf[..], blocks, if again then 0 else 1) && At(pos', s', input, blocks) && pos' == pos + 1 <= |input|
    ensures s'.rk == s.rk && s'.r == s.r && (!again ==> c.bufferMode && c.streamMode == c0.streamMode)
  {
    hide Consistent, Fitting, Feeds, At;
    BufferFacts(c0, s, buf[..], blocks, pos, input);
    c, pos' := c0, pos + 1;
    var inSeq := input[pos];
    ghost var m := buf[..];
    buf[c.wIdx] := inSeq.data;
    assert buf[..] == m[c.wIdx := inSeq.data];
    if !inSeq.strobe {
      again := true;
      s' := Spot(s.wk + 1, 0, s.rk, s.r);
      c := c.(done := c.blockDone);
      c := c.(blockDone := true);
      if !c.streamMode && !c.done {
        c := c.(streamMode := true, rIdx := c.wIdx - c.wInc);
      }
      c := if c.wsi == 0 then c.(begin0 := c.wIdx - c.wInc) else c.(begin1 := c.wIdx - c.wInc);
      c := c.(wInc := -c.wInc);
      c := c.(wsi := (c.wsi + 1) % 2);
      if c.done || c.wsi == c.rsi { c := c.(bufferMode := false); }
      c := c.(wIdx := Limit(c.wsi, buf.Length) + c.wInc);
      if c0.streamMode {
        BlockEndsFirst(c0, s, m, blocks, inSeq.data);
      } else if c0.blockDone {
        InputEnds(c0, s, m, blocks, inSeq.data);
      } else {
        BlockEndsAlone(c0, s, m, blocks, inSeq.data);
      }
    } else {
      again := false;
      s' := s.(w := s.w + 1);
      c := c.(blockDone := false);
      c := c.(wIdx := c.wIdx + c.wInc);
      EntryComesIn(c0, s, m, blocks, inSeq.data);
    }
    AtAnyReader(pos', Spot(s'.wk, s'.w, 0, 0), s', input, blocks);
  }

  lemma BufferFacts<T>(c: Control, s: Spot, buf: seq<T>, blocks: seq<seq<T>>, pos: nat, input: seq<Beat<T>>)
    requires Feeds(input, blocks) && Fitting(blocks, |buf|) && Consistent(c, s, buf, blocks, 0) && c.bufferMode && At(pos, s, input, blocks)
    ensures pos < |input| && 0 <= c.wIdx < |buf| && s.w <= Length(blocks, s.wk) && (!c.streamMode ==> s.r == 0) && !c.done
    ensures input[pos].strobe <==> s.w < Length(blocks, s.wk)
    ensures input[pos].strobe ==> input[pos].data == blocks[s.wk][s.w]
    ensures At(pos + 1, if input[pos].strobe then Spot(s.wk, s.w + 1, 0, 0) else Spot(s.wk + 1, 0, 0, 0), input, blocks)
  {
    hide Feeds, Stored;
    NextBeat(input, blocks, s.wk, s.w);
    AtNext(input, blocks, s.wk, s.w);
  }

  method StreamCycle<T>(c0: Control, buf: array<T>, out: seq<Mark<T>>, ghost s: Spot, ghost blocks: seq<seq<T>>, ghost lead: nat)
    returns (c: Control, out': seq<Mark<T>>, ghost s': Spot)
    requires Consistent(c0, s, buf[..], blocks, lead) && c0.streamMode && lead == if c0.bufferMode then 1 else 0
    requires s.rk <= |blocks| && s.r <= Length(blocks, s.rk) && out == Emitted(blocks, s.rk, s.r)
    ensures Consistent(c, s', buf[..], blocks, 0) && s'.rk <= |blocks| && s'.r <= Length(blocks, s'.rk)
    ensures out' == Emitted(blocks, s'.rk, s'.r) && |out'| == |out| + 1 && s'.wk == s.wk && s'.w == s.w
  {
    hide Consistent, Emitted;
    c := c0;
    if c.rIdx == Limit(c.rsi, buf.Length) {
      BlockIsOut(c, s, buf[..], blocks, lead);
      EmittedBlock(blocks, s.rk);
      out' := out + [End];
      if !c.bufferMode { c := c.(bufferMode := c.wsi == c.rsi && !c.done); }
      c := c.(rsi := (c.rsi + 1) % 2);
      c := c.(rIdx := Begin(c, c.rsi));
      c := c.(rInc := -c.rInc);
      if c.done || c.wsi == c.rsi { c := c.(streamMode := false); }
      s' := Spot(s.wk, s.w, s.rk + 1, 0);
    } else {
      EntryGoesOut(c, s, buf[..], blocks, lead);
      EmittedEntry(blocks, s.rk, s.r);
      out' := out + [Item(buf[c.rIdx])];
      c := c.(rIdx := c.rIdx - c.rInc);
      s' := s.(r := s.r + 1);
    }
  }

  // Each block comes out reversed, in block order and with its end mark, and nothing is
  // overwritten before it is read.
  method ReverseSeqIntl<T>(input: seq<Beat<T>>, memSize: nat, fill: T, ghost blocks: seq<seq<T>>) returns (out: seq<Mark<T>>)
    requires Feeds(input, blocks) && Fitting(blocks, memSize)
    ensures out == ReversedBlocks(blocks) + [End]
  {
    var buf := new T[memSize](_ => fill);
    var c := Control(0, 0, true, false, false, true, 1, 1, 0, 0, 0, 0);
    ghost var s := Spot(0, 0, 0, 0);
    out := [];
    Starting(c, buf[..], input, blocks);
    hide *;
    var pos := 0;
    while c.bufferMode || c.streamMode
      invariant Consistent(c, s, buf[..], blocks, 0) && At(pos, s, input, blocks) && pos <= |input|
      invariant s.rk <= |blocks| && s.r <= Length(blocks, s.rk) && out == Emitted(blocks, s.rk, s.r)
      decreases |input| - pos + Start(blocks, |blocks|) - |out|
    {
      EmittedLength(blocks, s.rk, s.r);
      ghost var lead := 0;
      var again := false;
      if c.bufferMode {
        c, pos, again, s := BufferCycle(input, pos, c, buf, s, blocks);
        lead := 1;
      }
      if !again {
        if c.streamMode {
          ghost var s0 := s;
          c, out, s := StreamCycle(c, buf, out, s, blocks, lead);
          AtAnyReader(pos, s0, s, input, blocks);
          EmittedLength(blocks, s.rk, s.r);
        } else {
          NoReader(c, s, buf[..], blocks, lead);
        }
      }
    }
    Finished(c, s, buf[..], blocks);
    EmittedNothing(blocks, |blocks|);
    Whole(blocks);
    out := out + [End];
  }

  lemma Whole<T>(blocks: seq<seq<T>>)
    ensures blocks[..|blocks|] == blocks
  {
  }

  lemma Starting<T>(c: Control, buf: seq<T>, input: seq<Beat<T>>, blocks: seq<seq<T>>)
    requires c == Control(0, 0, true, false, false, true, 1, 1, 0, 0, 0, 0) && |buf| > 0
    ensures Consistent(c, Spot(0, 0, 0, 0), buf, blocks, 0) && At(0, Spot(0, 0, 0, 0), input, blocks)
    ensures Emitted(blocks, 0, 0) == []
  {
    EmittedNothing(blocks, 0);
  }

  lemma NoReader<T>(c: Control, s: Spot, buf: seq<T>, blocks: seq<seq<T>>, lead: nat)
    requires Consistent(c, s, buf, blocks, lead) && !c.streamMode
    ensures Consistent(c, s, buf, blocks, 0)
  {
  }

  lemma Finished<T>(c: Control, s: Spot, buf: seq<T>, blocks: seq<seq<T>>)
    requires Consistent(c, s, buf, blocks, 0) && !c.bufferMode && !c.streamMode
    ensures s.rk == |blocks| && s.r == 0
  {
  }
}
