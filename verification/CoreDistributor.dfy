// One stream of packets dealt out in blocks to a ring of cores. A short queue holds packets back,
// so that what is left behind the last block is known to be small; it is stored as it is.

module CoreDistributor {
  import opened Arithmetic
  import opened LzCore
  import opened CoreStreams
  import Modular

  // Full packets, at most one shorter packet, and the end.
  predicate Fed(input: seq<Packet>) {
    input != [] && input[|input| - 1] == END
    && (forall k :: 0 <= k < |input| - 1 ==> 1 <= input[k].strobe <= WIDTH)
    && (forall k :: 0 <= k < |input| - 2 ==> input[k].strobe == WIDTH)
  }

  // ---------- What a division into blocks is ----------

  // Length of the last block, when rest packets are left for it and for the stored tail.
  function LastLength(rest: nat, blockLen: nat, queue: nat): nat {
    if rest < blockLen || rest + 1 == blockLen + queue then rest else blockLen
  }

  // Whole blocks, a last one, and a stored tail, in the order of the input.
  ghost predicate Division(data: seq<Packet>, blocks: seq<seq<Packet>>, stored: seq<Packet>, blockLen: nat, queue: nat) {
    Flatten(blocks) + stored == data
    && if |data| < queue then blocks == [] else
         blocks != [] && AllLong(blocks[..|blocks| - 1], blockLen)
         && queue <= |data| - Times(blockLen, |blocks| - 1) < blockLen + queue
         && |blocks[|blocks| - 1]| == LastLength(|data| - Times(blockLen, |blocks| - 1), blockLen, queue)
  }

  ghost predicate AllLong(blocks: seq<seq<Packet>>, blockLen: nat) {
    forall j :: 0 <= j < |blocks| ==> |blocks[j]| == blockLen
  }

  lemma {:induction false} LongBlocks(blocks: seq<seq<Packet>>, blockLen: nat)
    requires AllLong(blocks, blockLen)
    ensures |Flatten(blocks)| == Times(blockLen, |blocks|)
  {
    if blocks != [] { LongBlocks(blocks[1..], blockLen); }
  }

  lemma {:induction false} TimesRemainder(k: nat, m: nat, r: nat)
    requires k > 0
    ensures (Times(k, m) + r) % k == r % k
  {
    if m > 0 {
      TimesRemainder(k, m - 1, r);
      OnceMore(Times(k, m - 1) + r, k);
    }
  }

  lemma OnceMore(x: nat, k: nat)
    requires k > 0
    ensures (x + k) % k == x % k
  {
    Modular.ModShift(x, 1, k);
  }

  // No core gets a block of fewer packets than the queue holds, and the tail is shorter than the queue.
  lemma NoShortBlock(data: seq<Packet>, blocks: seq<seq<Packet>>, stored: seq<Packet>, blockLen: nat, queue: nat)
    requires 0 < queue <= blockLen && Division(data, blocks, stored, blockLen, queue)
    ensures forall j :: 0 <= j < |blocks| ==> |blocks[j]| >= queue
    ensures |stored| < queue
  {
    DivisionLengths(data, blocks, stored, blockLen, queue);
    hide Division;
  }

  lemma DivisionLengths(data: seq<Packet>, blocks: seq<seq<Packet>>, stored: seq<Packet>, blockLen: nat, queue: nat)
    requires 0 < queue <= blockLen && Division(data, blocks, stored, blockLen, queue)
    ensures |data| < queue ==> blocks == [] && |stored| == |data|
    ensures |data| >= queue ==> blocks != []
    ensures |data| >= queue ==> AllLong(blocks[..|blocks| - 1], blockLen)
    ensures |data| >= queue ==> |stored| + |blocks[|blocks| - 1]| == |data| - Times(blockLen, |blocks| - 1)
    ensures |data| >= queue ==> |blocks[|blocks| - 1]| == LastLength(|stored| + |blocks[|blocks| - 1]|, blockLen, queue)
    ensures |data| >= queue ==> queue <= |stored| + |blocks[|blocks| - 1]| < blockLen + queue
    ensures forall j :: 0 <= j < |blocks| - 1 ==> |blocks[j]| == blockLen
  {
    if |data| >= queue {
      var front, last := blocks[..|blocks| - 1], blocks[|blocks| - 1];
      assert blocks == front + [last];
      FlattenAppend(front, last);
      LongBlocks(front, blockLen);
      hide Flatten;
      assert forall j :: 0 <= j < |blocks| - 1 ==> blocks[j] == front[j];
    }
  }

  // A block passes the block length just when the input leaves one packet less than the queue holds
  // behind its whole blocks: then these packets are put behind the last whole block.
  lemma LongBlockIff(data: seq<Packet>, blocks: seq<seq<Packet>>, stored: seq<Packet>, blockLen: nat, queue: nat)
    requires 1 < queue <= blockLen && Division(data, blocks, stored, blockLen, queue)
    ensures (exists j :: 0 <= j < |blocks| && |blocks[j]| > blockLen) <==> |data| >= blockLen && |data| % blockLen == queue - 1
  {
    DivisionLengths(data, blocks, stored, blockLen, queue);
    hide Division, Times;
    if |data| >= queue {
      var m := |blocks| - 1;
      var rest := |stored| + |blocks[m]|;
      TimesRemainder(blockLen, m, rest);
      assert |data| == Times(blockLen, m) + rest;
      RestRemainder(rest, blockLen, queue, m);
      assert |blocks[m]| > blockLen <==> rest + 1 == blockLen + queue;
    }
  }

  lemma RestRemainder(rest: nat, k: nat, queue: nat, m: nat)
    requires 1 < queue <= k && queue <= rest < k + queue
    ensures rest % k == queue - 1 <==> rest + 1 == k + queue
  {
    if rest >= k { OnceMore(rest - k, k); }
    if rest >= k && rest - k < k { Small(rest - k, k); } else if rest < k { Small(rest, k); }
  }

  lemma Small(x: nat, k: nat)
    requires x < k
    ensures x % k == x
  {
  }

  // With the default sizes: 32832 bytes make one block of 32832 bytes, not one of 32768.
  lemma LongBlockExample(data: seq<Packet>, blocks: seq<seq<Packet>>, stored: seq<Packet>)
    requires |data| == 4104 && Division(data, blocks, stored, 4096, 9)
    ensures exists j :: 0 <= j < |blocks| && |blocks[j]| > 4096
  {
    LongBlockIff(data, blocks, stored, 4096, 9);
  }

  // ---------- The queue ----------

  const SIZE_RANGE := 0x1_0000_0000   // the byte counters have 32 bits

  // What a counter shows.
  function Counter(n: int): nat {
    n % SIZE_RANGE
  }

  // The bytes of some packets, as a counter has them.
  function SizeCounted(input: seq<Packet>): nat {
    Counter(Size(input))
  }

  lemma CountsOn(a: nat, b: nat)
    ensures Counter(Counter(a) + b) == Counter(a + b)
  {
  }

  // What two counters are apart shows what is between them, as long as that is little.
  lemma CountsApart(a: nat, d: nat)
    requires d < 0x1_0000
    ensures Counter(a + d) == Counter(a) <==> d == 0
    ensures Counter(Counter(a + d) - Counter(a)) == d
  {
  }

  // Packets n to pos - 1 wait in the queue; the sizes count what came in and what went out.
  ghost predicate Waiting(input: seq<Packet>, n: nat, pos: nat, fifo: seq<Packet>, readSize: nat, writeSize: nat) {
    && n < pos <= |input| && 8 * (pos - n) < 0x1_0000 && fifo == input[n..pos]
    && readSize == SizeCounted(input[..pos]) && writeSize == SizeCounted(input[..n])
  }

  lemma {:induction false} SizeStep(input: seq<Packet>, n: nat)
    requires n < |input|
    ensures Size(input[..n + 1]) == Size(input[..n]) + input[n].strobe
    ensures SizeCounted(input[..n + 1]) == Counter(SizeCounted(input[..n]) + input[n].strobe)
  {
    assert input[..n + 1][..n] == input[..n];
    CountsOn(Size(input[..n]), input[n].strobe);
  }

  lemma EndsLast(input: seq<Packet>, n: nat)
    requires Fed(input) && n < |input|
    ensures input[n].strobe == 0 <==> n + 1 == |input|
    ensures input[n].strobe <= 8
    ensures n + 1 == |input| ==> input[n] == END
  {
  }

  // One packet in, the oldest one out.
  lemma QueueStep(input: seq<Packet>, n: nat, pos: nat, fifo: seq<Packet>, readSize: nat, writeSize: nat)
    requires Fed(input) && Waiting(input, n, pos, fifo, readSize, writeSize) && pos < |input|
    ensures fifo != [] && fifo[0] == input[n] && 1 <= input[n].strobe <= 8
    ensures input[pos].strobe == 0 <==> pos + 1 == |input|
    ensures Waiting(input, n + 1, pos + 1, fifo[1..] + [input[pos]], Counter(readSize + input[pos].strobe),
                    Counter(writeSize + input[n].strobe))
  {
    EndsLast(input, n);
    EndsLast(input, pos);
    SizeStep(input, n);
    SizeStep(input, pos);
    hide Fed, SizeCounted;
  }

  // The oldest packet out.
  lemma QueuePop(input: seq<Packet>, n: nat, fifo: seq<Packet>, readSize: nat, writeSize: nat)
    requires Fed(input) && Waiting(input, n, |input|, fifo, readSize, writeSize)
    ensures fifo != [] && fifo[0] == input[n] && input[n].strobe <= 8
    ensures n + 1 < |input| ==> input[n].strobe > 0 && Waiting(input, n + 1, |input|, fifo[1..], readSize, Counter(writeSize + input[n].strobe))
    ensures n + 1 == |input| ==> fifo[0] == END
  {
    EndsLast(input, n);
    SizeStep(input, n);
    hide Fed, SizeCounted;
  }

  // Everything has been written just when only the end is left in the queue.
  lemma AllWritten(input: seq<Packet>, n: nat, fifo: seq<Packet>, readSize: nat, writeSize: nat)
    requires Fed(input) && Waiting(input, n, |input|, fifo, readSize, writeSize)
    ensures writeSize == readSize <==> n + 1 == |input|
  {
    assert input == input[..|input|] == input[..n] + input[n..];
    SizeConcat(input[..n], input[n..]);
    SegmentSize(input, n, |input|);
    hide Size;
    CountsApart(Size(input[..n]), Size(input[n..]));
  }

  lemma {:induction false} SegmentSize(input: seq<Packet>, a: nat, b: nat)
    requires Fed(input) && a <= b <= |input|
    ensures b + 1 < |input| ==> Size(input[a..b]) == 8 * (b - a)
    ensures Size(input[a..b]) <= 8 * (b - a)
    ensures a < b < |input| ==> Size(input[a..b]) > 8 * (b - a - 1)
    ensures b == |input| ==> (Size(input[a..b]) == 0 <==> a + 1 >= b)
    decreases b
  {
    if a < b {
      SegmentSize(input, a, b - 1);
      assert input[a..b][..b - a - 1] == input[a..b - 1];
      assert input[a..b][b - a - 1] == input[b - 1];
    } else {
      assert input[a..b] == [];
    }
  }

  // ---------- The block being sent ----------

  ghost predicate Sent(input: seq<Packet>, n: nat, blocks: seq<seq<Packet>>, cur: seq<Packet>, dist: seq<seq<Packet>>,
                       start: nat, cores: nat, strdCntr: nat)
    requires cores > 0
  {
    n <= |input| && Flatten(blocks) + cur == input[..n] && Open(dist, blocks, cur, start, cores) && strdCntr == Size(cur)
  }

  lemma SentStep(input: seq<Packet>, n: nat, blocks: seq<seq<Packet>>, cur: seq<Packet>, dist: seq<seq<Packet>>,
                 start: nat, cores: nat, strdCntr: nat, core: nat)
    requires 0 < cores && Sent(input, n, blocks, cur, dist, start, cores, strdCntr)
    requires n < |input| && core == CoreOf(start + |blocks|, cores)
    ensures core < |dist|
    ensures Sent(input, n + 1, blocks, cur + [input[n]], dist[core := dist[core] + [input[n]]], start, cores, strdCntr + input[n].strobe)
  {
    SentOne(dist, blocks, cur, start, cores, core, input[n]);
    SizeAppend(cur, input[n]);
    NextPacket(input, n, Flatten(blocks), cur);
    hide Open, Size, Flatten, CoreOf;
  }

  lemma NextPacket(input: seq<Packet>, n: nat, before: seq<Packet>, cur: seq<Packet>)
    requires n < |input| && before + cur == input[..n]
    ensures before + (cur + [input[n]]) == input[..n + 1]
  {
    assert before + (cur + [input[n]]) == before + cur + [input[n]];
  }

  lemma SizeAppend(s: seq<Packet>, p: Packet)
    ensures Size(s + [p]) == Size(s) + p.strobe
  {
    assert (s + [p])[..|s|] == s;
  }

  lemma SentBlock(input: seq<Packet>, n: nat, blocks: seq<seq<Packet>>, cur: seq<Packet>, dist: seq<seq<Packet>>,
                  start: nat, cores: nat, strdCntr: nat, core: nat)
    requires 0 < cores && Sent(input, n, blocks, cur, dist, start, cores, strdCntr) && core == CoreOf(start + |blocks|, cores)
    ensures core < |dist| && Sent(input, n, blocks + [cur], [], dist[core := dist[core] + [END]], start, cores, 0)
  {
    SentEnd(dist, blocks, cur, start, cores, core);
    FlattenAppend(blocks, cur);
    hide Open, Flatten;
    assert Flatten(blocks + [cur]) + [] == Flatten(blocks + [cur]);
  }

  // Bytes in the block: whole packets but for the last of all.
  lemma SentSize(input: seq<Packet>, n: nat, blocks: seq<seq<Packet>>, cur: seq<Packet>, dist: seq<seq<Packet>>,
                 start: nat, cores: nat, strdCntr: nat)
    requires 0 < cores && Fed(input) && Sent(input, n, blocks, cur, dist, start, cores, strdCntr)
    ensures n + 1 < |input| ==> strdCntr == 8 * |cur|
    ensures n < |input| ==> strdCntr <= 8 * |cur|
    ensures n < |input| && cur != [] ==> strdCntr > 8 * (|cur| - 1)
  {
    hide Open, Flatten, Size, Fed;
    assert |cur| <= n;
    assert cur == input[..n][n - |cur|..] == input[n - |cur|..n];
    SegmentSize(input, n - |cur|, n);
  }

  // ---------- Whole blocks ----------

  // The queue is filled, or takes the whole input.
  method FillQueue(input: seq<Packet>, queue: nat) returns (pos: nat, fifo: seq<Packet>, readSize: nat, last: bool)
    requires Fed(input) && 0 < queue && 8 * queue < 0x1_0000
    ensures Waiting(input, 0, pos, fifo, readSize, 0) && (last <==> pos == |input|)
    ensures pos <= queue && (last || pos == queue)
  {
    hide *;
    NonEmpty(input);
    pos, fifo, readSize, last := 0, [], 0, false;
    while pos < queue && !last
      invariant pos <= queue && pos <= |input| && fifo == input[..pos] && readSize == SizeCounted(input[..pos])
      invariant last <==> pos == |input|
    {
      EndsLast(input, pos);
      SizeStep(input, pos);
      readSize := Counter(readSize + input[pos].strobe);
      last := input[pos].strobe == 0;
      fifo := fifo + [input[pos]];
      pos := pos + 1;
    }
    QueueFull(input, pos);
  }

  lemma NonEmpty(input: seq<Packet>)
    requires Fed(input)
    ensures 0 < |input| && SizeCounted(input[..0]) == 0
  {
  }

  lemma QueueFull(input: seq<Packet>, pos: nat)
    requires 0 < pos <= |input| && 8 * pos < 0x1_0000
    ensures Waiting(input, 0, pos, input[..pos], SizeCounted(input[..pos]), 0)
  {
    assert input[0..pos] == input[..pos] && input[..0] == [];
  }

  // Up to one block to one core.
  method SendBlock(input: seq<Packet>, blockSize: nat, core: nat, pos0: nat, fifo0: seq<Packet>, dist0: seq<seq<Packet>>,
                   readSize0: nat, writeSize0: nat, ghost n: nat, ghost blocks: seq<seq<Packet>>, ghost start: nat, ghost cores: nat)
    returns (pos: nat, fifo: seq<Packet>, dist: seq<seq<Packet>>, readSize: nat, writeSize: nat, strdCntr: nat, last: bool,
             ghost cur: seq<Packet>)
    requires Fed(input) && 0 < cores && core == CoreOf(start + |blocks|, cores) && 0 < blockSize < 0x1_0000 && blockSize % 8 == 0
    requires Waiting(input, n, pos0, fifo0, readSize0, writeSize0) && pos0 < |input|
    requires Sent(input, n, blocks, [], dist0, start, cores, 0)
    ensures Waiting(input, n + |cur|, pos, fifo, readSize, writeSize) && Sent(input, n + |cur|, blocks, cur, dist, start, cores, strdCntr)
    ensures pos == pos0 + |cur| && 0 < 8 * |cur| <= blockSize
    ensures (last <==> pos == |input|) && (last || 8 * |cur| == blockSize)
  {
    hide *;
    pos, fifo, dist, readSize, writeSize, strdCntr, last := pos0, fifo0, dist0, readSize0, writeSize0, 0, false;
    cur := [];
    var i: nat := 0;
    while i < blockSize && !last
      invariant i == 8 * |cur| <= blockSize && pos == pos0 + |cur| && (i == 0 ==> pos < |input|) && (last <==> pos == |input|)
      invariant pos <= |input|
      invariant Waiting(input, n + |cur|, pos, fifo, readSize, writeSize)
      invariant Sent(input, n + |cur|, blocks, cur, dist, start, cores, strdCntr)
    {
      var tmpVal := input[pos];
      QueueStep(input, n + |cur|, pos, fifo, readSize, writeSize);
      WaitingBound(input, n + |cur|, pos, fifo, readSize, writeSize);
      SentStep(input, n + |cur|, blocks, cur, dist, start, cores, strdCntr, core);
      SentSize(input, n + |cur|, blocks, cur, dist, start, cores, strdCntr);
      readSize := Counter(readSize + tmpVal.strobe);
      last := tmpVal.strobe == 0;
      var tmp := fifo[0];
      dist := dist[core := dist[core] + [tmp]];
      strdCntr := (strdCntr + tmp.strobe) % 0x1_0000;
      writeSize := Counter(writeSize + tmp.strobe);
      fifo := fifo[1..] + [tmpVal];
      cur := cur + [tmp];
      pos := pos + 1;
      i := i + 8;
    }
  }

  lemma WaitingBound(input: seq<Packet>, n: nat, pos: nat, fifo: seq<Packet>, readSize: nat, writeSize: nat)
    requires Waiting(input, n, pos, fifo, readSize, writeSize)
    ensures n < pos <= |input|
  {
  }

  // One flag for every block begun.
  function Continued(n: nat): seq<bool> {
    if n == 0 then [] else Continued(n - 1) + [false]
  }

  // Blocks begun, the last perhaps still open.
  function Begun(blocks: seq<seq<Packet>>, cur: seq<Packet>): seq<seq<Packet>> {
    if cur == [] then blocks else blocks + [cur]
  }

  // Whole blocks until the end of the input is seen; the last block stays open.
  method SendBlocks(input: seq<Packet>, blockSize: nat, cores: nat, core0: nat, pos0: nat, fifo0: seq<Packet>, readSize0: nat, last0: bool,
                    ghost blockLen: nat, ghost queue: nat)
    returns (fifo: seq<Packet>, dist: seq<seq<Packet>>, readSize: nat, writeSize: nat, strdCntr: nat, core: nat, blckEos: seq<bool>,
             ghost blocks: seq<seq<Packet>>, ghost cur: seq<Packet>, ghost n: nat)
    requires Fed(input) && 0 < cores <= 16 && 0 < blockSize < 0x1_0000 && blockSize == 8 * blockLen && 0 < queue
    requires Waiting(input, 0, pos0, fifo0, readSize0, 0) && (last0 <==> pos0 == |input|) && pos0 <= queue && (last0 || pos0 == queue)
    ensures Waiting(input, n, |input|, fifo, readSize, writeSize) && Sent(input, n, blocks, cur, dist, core0, cores, strdCntr)
    ensures AllLong(blocks, blockLen) && 8 * |cur| <= blockSize
    ensures |input| <= queue ==> blocks == [] && cur == [] && n == 0
    ensures |input| > queue ==> cur != [] && n + queue == |input|
    ensures CoreOf(core, cores) == CoreOf(core0 + |blocks|, cores) && (cur != [] ==> core == CoreOf(core0 + |blocks|, cores))
    ensures blckEos == Continued(|Begun(blocks, cur)|)
  {
    hide *;
    fifo, readSize, writeSize, strdCntr, core, blckEos := fifo0, readSize0, 0, 0, core0, [];
    dist := Streams(cores);
    blocks, cur, n := [], [], 0;
    NothingWritten(input, dist, core0, cores);
    var pos: nat, last := pos0, last0;
    WaitingBound(input, n, pos, fifo, readSize, writeSize);
    while !last
      invariant pos <= |input| && (last <==> pos == |input|) && (!last ==> cur == [])
      invariant pos == n + queue || (last && pos <= queue && n == 0 && blocks == [] && cur == [])
      invariant n > 0 && last ==> cur != []
      invariant n == 0 ==> blocks == [] && cur == []
      invariant Waiting(input, n, pos, fifo, readSize, writeSize) && Sent(input, n, blocks, cur, dist, core0, cores, strdCntr)
      invariant strdCntr == 0 || last
      invariant AllLong(blocks, blockLen) && 8 * |cur| <= blockSize
      invariant CoreOf(core, cores) == CoreOf(core0 + |blocks|, cores) && (cur != [] ==> core == CoreOf(core0 + |blocks|, cores))
      invariant blckEos == Continued(|Begun(blocks, cur)|)
      decreases |input| - pos
    {
      core := CoreOf(core, cores);
      blckEos := blckEos + [false];
      ghost var n0 := n;
      BlockBegun(blocks);
      pos, fifo, dist, readSize, writeSize, strdCntr, last, cur :=
        SendBlock(input, blockSize, core, pos, fifo, dist, readSize, writeSize, n, blocks, core0, cores);
      n := n + |cur|;
      WaitingBound(input, n, pos, fifo, readSize, writeSize);
      CoreStays(core, cores);
      BegunOpen(blocks, cur);
      if !last {
        SentBlock(input, n, blocks, cur, dist, core0, cores, strdCntr, core);
        LongAppend(blocks, cur, blockLen);
        NextCore(core0 + |blocks|, core, cores);
        dist := dist[core := dist[core] + [END]];
        strdCntr := 0;
        core := Advanced(core);
        blocks, cur := blocks + [cur], [];
        BegunClosed(blocks);
      }
    }
    WaitingBound(input, n, pos, fifo, readSize, writeSize);
  }

  // The streams to the cores, all empty.
  method Streams(cores: nat) returns (dist: seq<seq<Packet>>)
    ensures |dist| == cores && forall i :: 0 <= i < cores ==> dist[i] == []
  {
    dist := [];
    while |dist| < cores
      invariant |dist| <= cores && forall i :: 0 <= i < |dist| ==> dist[i] == []
    {
      dist := dist + [[]];
    }
  }

  lemma NothingWritten(input: seq<Packet>, dist: seq<seq<Packet>>, start: nat, cores: nat)
    requires cores > 0 && |dist| == cores && forall i :: 0 <= i < cores ==> dist[i] == []
    ensures Sent(input, 0, [], [], dist, start, cores, 0) && AllLong([], 0) && Continued(0) == []
    ensures forall k: nat :: AllLong([], k)
    ensures Begun([], []) == []
  {
    NothingSent(dist, start, cores);
    hide Open;
  }

  lemma BlockBegun(blocks: seq<seq<Packet>>)
    ensures Begun(blocks, []) == blocks && Continued(|blocks| + 1) == Continued(|blocks|) + [false]
  {
  }

  lemma BegunOpen(blocks: seq<seq<Packet>>, cur: seq<Packet>)
    requires cur != []
    ensures |Begun(blocks, cur)| == |blocks| + 1
  {
  }

  lemma BegunClosed(blocks: seq<seq<Packet>>)
    ensures Begun(blocks, []) == blocks
  {
  }

  lemma LongAppend(blocks: seq<seq<Packet>>, cur: seq<Packet>, blockLen: nat)
    requires AllLong(blocks, blockLen) && |cur| == blockLen
    ensures AllLong(blocks + [cur], blockLen)
  {
  }

  // ---------- The end of the input ----------

  // Lengths while the queue is emptied into the open block: over when the block was full already.
  ghost predicate Emptying(curLen: nat, left: nat, total: nat, blockLen: nat, over: bool, endBlck: bool, strdCntr: nat) {
    curLen + left == total
    && (if over then endBlck && curLen >= blockLen else curLen <= blockLen)
    && (endBlck ==> strdCntr <= 8 * curLen && (curLen > 0 ==> strdCntr > 8 * (curLen - 1)) && (left > 0 ==> strdCntr == 8 * curLen))
    && (!endBlck ==> strdCntr == 0 && curLen == blockLen)
    && (endBlck && !over && curLen == blockLen ==> left == 0)
  }

  lemma EmptyingStep(curLen: nat, left: nat, total: nat, blockLen: nat, over: bool, endBlck: bool, strdCntr: nat, next: nat)
    requires Emptying(curLen, left, total, blockLen, over, endBlck, strdCntr) && strdCntr != 0 && left > 0 && blockLen > 0
    requires next <= 8 * (curLen + 1) && next > 8 * curLen && (left > 1 ==> next == 8 * (curLen + 1))
    ensures if next == 8 * blockLen then Emptying(curLen + 1, left - 1, total, blockLen, over, false, 0)
            else Emptying(curLen + 1, left - 1, total, blockLen, over, endBlck, next)
  {
  }

  lemma Emptied(curLen: nat, left: nat, total: nat, blockLen: nat, over: bool, endBlck: bool, strdCntr: nat, queue: nat)
    requires Emptying(curLen, left, total, blockLen, over, endBlck, strdCntr) && (left == 0 || strdCntr == 0)
    requires 0 < queue <= blockLen && 0 < curLen && if over then total + 1 == blockLen + queue else queue <= total && total + 1 < blockLen + queue
    ensures curLen == LastLength(total, blockLen, queue)
    ensures !endBlck || strdCntr > 0
    ensures left == 0 || strdCntr == 0
  {
  }

  // The queue goes into the open block, until the block is full or nothing is left.
  method SendRest(input: seq<Packet>, blockSize: nat, cores: nat, core: nat, fifo0: seq<Packet>, dist0: seq<seq<Packet>>,
                  readSize: nat, writeSize0: nat, strdCntr0: nat,
                  ghost start: nat, ghost blocks: seq<seq<Packet>>, ghost cur0: seq<Packet>, ghost n0: nat, ghost blockLen: nat, ghost queue: nat)
    returns (fifo: seq<Packet>, dist: seq<seq<Packet>>, writeSize: nat, strdCntr: nat, endBlck: bool, ghost cur: seq<Packet>, ghost n: nat)
    requires Fed(input) && 0 < cores && blockSize == 8 * blockLen && 0 < queue <= blockLen && blockSize + 8 * queue < 0x1_0000
    requires Waiting(input, n0, |input|, fifo0, readSize, writeSize0) && Sent(input, n0, blocks, cur0, dist0, start, cores, strdCntr0)
    requires cur0 != [] && |cur0| <= blockLen && n0 + queue == |input| && core == CoreOf(start + |blocks|, cores)
    ensures Waiting(input, n, |input|, fifo, readSize, writeSize)
    ensures exists size: nat :: Sent(input, n, blocks, cur, dist, start, cores, size)
    ensures n0 <= n < |input| && |cur| == LastLength(|cur0| + queue - 1, blockLen, queue) && |cur| + (|input| - 1 - n) == |cur0| + queue - 1
    ensures (writeSize == readSize || strdCntr == 0) && (!endBlck || strdCntr > 0)
  {
    hide *;
    fifo, dist, writeSize, strdCntr, endBlck, cur, n := fifo0, dist0, writeSize0, strdCntr0, true, cur0, n0;
    ghost var total := |cur0| + queue - 1;
    ghost var over := |cur0| == blockLen;
    ghost var size: nat := strdCntr;
    SentSize(input, n, blocks, cur, dist, start, cores, size);
    EmptyingStarts(|cur|, queue - 1, blockLen, strdCntr);
    AllWritten(input, n, fifo, readSize, writeSize);
    while writeSize != readSize && strdCntr != 0
      invariant n0 <= n < |input| && Waiting(input, n, |input|, fifo, readSize, writeSize) && Sent(input, n, blocks, cur, dist, start, cores, size)
      invariant cur != [] && |cur| + (|input| - 1 - n) == total
      invariant Emptying(|cur|, |input| - 1 - n, total, blockLen, over, endBlck, strdCntr)
      invariant strdCntr != 0 ==> strdCntr == size
      invariant writeSize == readSize <==> n + 1 == |input|
      decreases |input| - n
    {
      QueuePop(input, n, fifo, readSize, writeSize);
      var tmpVal := fifo[0];
      SentStep(input, n, blocks, cur, dist, start, cores, size, core);
      size := size + tmpVal.strobe;
      dist := dist[core := dist[core] + [tmpVal]];
      SentSize(input, n + 1, blocks, cur + [tmpVal], dist, start, cores, size);
      EmptyingStep(|cur|, |input| - 1 - n, total, blockLen, over, endBlck, strdCntr, size);
      fifo := fifo[1..];
      strdCntr := (strdCntr + tmpVal.strobe) % 0x1_0000;
      writeSize := Counter(writeSize + tmpVal.strobe);
      cur := cur + [tmpVal];
      n := n + 1;
      AllWritten(input, n, fifo, readSize, writeSize);
      if strdCntr == blockSize {
        endBlck := false;
        strdCntr := 0;
      }
    }
    Emptied(|cur|, |input| - 1 - n, total, blockLen, over, endBlck, strdCntr, queue);
  }

  lemma EmptyingStarts(curLen: nat, left: nat, blockLen: nat, strdCntr: nat)
    requires 0 < curLen <= blockLen && strdCntr <= 8 * curLen && strdCntr > 8 * (curLen - 1) && (left > 0 ==> strdCntr == 8 * curLen)
    ensures Emptying(curLen, left, curLen + left, blockLen, curLen == blockLen, true, strdCntr)
  {
  }

  // ---------- The stored tail ----------

  function DataOf(s: seq<Packet>): seq<seq<Byte>> {
    if s == [] then [] else DataOf(s[..|s| - 1]) + [s[|s| - 1].data]
  }

  lemma DataStep(input: seq<Packet>, n: nat, m: nat)
    requires n <= m < |input|
    ensures DataOf(input[n..m + 1]) == DataOf(input[n..m]) + [input[m].data]
  {
    assert input[n..m + 1][..m - n] == input[n..m];
  }

  lemma NoData(input: seq<Packet>, n: nat)
    requires n <= |input|
    ensures DataOf(input[n..n]) == []
  {
  }

  lemma RestSize(input: seq<Packet>, n: nat, queue: nat)
    requires Fed(input) && n < |input| <= n + queue
    ensures Size(input) == Size(input[..n]) + Size(input[n..|input| - 1])
    ensures Size(input[n..|input| - 1]) <= 8 * (queue - 1)
    ensures 8 * queue < 0x1_0000 ==> Counter(SizeCounted(input) - SizeCounted(input[..n])) % 0x1_0000 == Size(input[n..|input| - 1])
  {
    hide *;
    var t := |input| - 1;
    SegmentSize(input, n, t);
    EndsLast(input, t);
    SizeStep(input, t);
    SizeConcat(input[..n], input[n..t]);
    Pieces(input, n, t);
    if 8 * queue < 0x1_0000 { CountedApart(input, input[..n], Size(input[n..t])); }
  }

  lemma CountedApart(a: seq<Packet>, b: seq<Packet>, d: nat)
    requires Size(a) == Size(b) + d && d < 0x1_0000
    ensures Counter(SizeCounted(a) - SizeCounted(b)) % 0x1_0000 == d
  {
    CountsApart(Size(b), d);
    hide Size;
  }

  lemma Pieces(input: seq<Packet>, n: nat, t: nat)
    requires n <= t < |input| && t + 1 == |input|
    ensures input[..t] == input[..n] + input[n..t] && input[..t + 1] == input
  {
  }

  // What is left is announced by its size and sent as bare words.
  method SendStored(input: seq<Packet>, fifo0: seq<Packet>, readSize: nat, writeSize0: nat, strdCntr: nat, ghost n: nat, ghost queue: nat)
    returns (strd: seq<seq<Byte>>, strdSize: nat, writeSize: nat)
    requires Fed(input) && n < |input| <= n + queue && 8 * queue < 0x1_0000
    requires readSize == SizeCounted(input) && writeSize0 == SizeCounted(input[..n])
    requires if n + 1 == |input| then writeSize0 == readSize else strdCntr == 0 && Waiting(input, n, |input|, fifo0, readSize, writeSize0)
    ensures strd == DataOf(input[n..|input| - 1]) && strdSize == Size(input[n..|input| - 1]) && writeSize == readSize
  {
    hide *;
    strd, strdSize, writeSize := [], 0, writeSize0;
    var fifo, onlyOnce := fifo0, true;
    ghost var m := n;
    RestSize(input, n, queue);
    NoData(input, n);
    if n + 1 < |input| { AllWritten(input, n, fifo, readSize, writeSize); }
    while (writeSize != readSize && strdCntr == 0) || onlyOnce
      invariant n <= m < |input| && strd == DataOf(input[n..m]) && (onlyOnce ==> m == n && writeSize == writeSize0)
      invariant !onlyOnce ==> strdSize == Size(input[n..|input| - 1])
      invariant writeSize == readSize <==> m + 1 == |input|
      invariant m + 1 < |input| ==> strdCntr == 0 && Waiting(input, m, |input|, fifo, readSize, writeSize)
      decreases |input| - m, onlyOnce
    {
      if onlyOnce {
        strdSize := Counter(readSize - writeSize) % 0x1_0000;
        onlyOnce := false;
        if readSize == writeSize { break; }
      }
      QueuePop(input, m, fifo, readSize, writeSize);
      DataStep(input, n, m);
      var tmpVal := fifo[0];
      fifo := fifo[1..];
      strd := strd + [tmpVal.data];
      writeSize := Counter(writeSize + tmpVal.strobe);
      m := m + 1;
      WaitingSizes(input, m, fifo, readSize, writeSize);
      if readSize == writeSize { fifo := fifo[1..]; }
    }
  }

  lemma WaitingSizes(input: seq<Packet>, m: nat, fifo: seq<Packet>, readSize: nat, writeSize: nat)
    requires Fed(input) && Waiting(input, m, |input|, fifo, readSize, writeSize)
    ensures writeSize == readSize <==> m + 1 == |input|
    ensures fifo != []
  {
    AllWritten(input, m, fifo, readSize, writeSize);
    hide Fed, Size;
  }

  // ---------- multicoreDistributor ----------

  lemma DivisionLast(input: seq<Packet>, n: nat, blocks: seq<seq<Packet>>, cur: seq<Packet>, curLen: nat, blockLen: nat, queue: nat)
    requires AllLong(blocks, blockLen) && n < |input| && Flatten(blocks + [cur]) == input[..n] && 0 < queue
    requires 1 <= curLen <= blockLen && |cur| + (|input| - 1 - n) == curLen + queue - 1
    requires |cur| == LastLength(curLen + queue - 1, blockLen, queue)
    ensures Division(input[..|input| - 1], blocks + [cur], input[n..|input| - 1], blockLen, queue)
  {
    LongBlocks(blocks, blockLen);
    FlattenAppend(blocks, cur);
    hide Flatten, Times, LastLength;
    var all := blocks + [cur];
    assert all[..|all| - 1] == blocks;
    assert input[..n] + input[n..|input| - 1] == input[..|input| - 1];
    assert |input| - 1 - Times(blockLen, |blocks|) == curLen + queue - 1;
  }

  lemma DivisionNone(input: seq<Packet>, n: nat, blocks: seq<seq<Packet>>, blockLen: nat, queue: nat)
    requires n == 0 && blocks == [] && 0 < |input| <= queue
    ensures Division(input[..|input| - 1], blocks, input[n..|input| - 1], blockLen, queue)
  {
    assert Flatten([]) + input[0..|input| - 1] == input[..|input| - 1];
  }

  lemma SentOpen(input: seq<Packet>, n: nat, blocks: seq<seq<Packet>>, dist: seq<seq<Packet>>, start: nat, cores: nat, strdCntr: nat)
    requires 0 < cores && Sent(input, n, blocks, [], dist, start, cores, strdCntr)
    ensures Open(dist, blocks, [], start, cores) && n <= |input| && Flatten(blocks) == input[..n] && strdCntr == 0
  {
    hide Open, Flatten;
    assert Flatten(blocks) + [] == Flatten(blocks);
  }

  lemma SameSize(inStream: seq<Packet>, input: seq<Packet>)
    requires inStream != [] && inStream[|inStream| - 1].strobe == 0 && input == inStream[..|inStream| - 1] + [END]
    ensures |input| == |inStream| && SizeCounted(input) == SizeCounted(inStream) && input[..|input| - 1] == inStream[..|inStream| - 1]
  {
  }

  // The block still open, if any, is the one whose bytes were counted.
  lemma BlockOpen(input: seq<Packet>, n: nat, blocks: seq<seq<Packet>>, cur: seq<Packet>, dist: seq<seq<Packet>>,
                  start: nat, cores: nat, strdCntr: nat, fifo: seq<Packet>, readSize: nat, writeSize: nat)
    requires 0 < cores && Fed(input) && Sent(input, n, blocks, cur, dist, start, cores, strdCntr)
    requires Waiting(input, n, |input|, fifo, readSize, writeSize)
    ensures strdCntr == 0 <==> cur == []
    ensures |Begun(blocks, cur)| == if cur == [] then |blocks| else |blocks| + 1
    ensures readSize == SizeCounted(input) && writeSize == SizeCounted(input[..n]) && n < |input|
    ensures writeSize == readSize <==> n + 1 == |input|
    ensures cur == [] ==> Open(dist, blocks, [], start, cores)
  {
    AllWritten(input, n, fifo, readSize, writeSize);
    SentSize(input, n, blocks, cur, dist, start, cores, strdCntr);
    WaitingAll(input, n, fifo, readSize, writeSize);
    hide Fed, Size, Open, Flatten, Waiting;
  }

  lemma WaitingAll(input: seq<Packet>, n: nat, fifo: seq<Packet>, readSize: nat, writeSize: nat)
    requires Waiting(input, n, |input|, fifo, readSize, writeSize)
    ensures readSize == SizeCounted(input) && writeSize == SizeCounted(input[..n]) && n < |input|
  {
    assert input[..|input|] == input;
    hide Size;
  }

  // The last block is filled from the queue and ended.
  method CloseLast(input: seq<Packet>, blockSize: nat, cores: nat, core0: nat, fifo0: seq<Packet>, dist0: seq<seq<Packet>>,
                   readSize: nat, writeSize0: nat, strdCntr0: nat,
                   ghost start: nat, ghost blocks0: seq<seq<Packet>>, ghost cur0: seq<Packet>, ghost n0: nat, ghost blockLen: nat, ghost queue: nat)
    returns (fifo: seq<Packet>, dist: seq<seq<Packet>>, writeSize: nat, core: nat, strdCntr: nat, ghost n: nat, ghost blocks: seq<seq<Packet>>)
    requires Fed(input) && 0 < cores <= 16 && blockSize == 8 * blockLen && 0 < queue <= blockLen && blockSize + 8 * queue < 0x1_0000
    requires Waiting(input, n0, |input|, fifo0, readSize, writeSize0) && Sent(input, n0, blocks0, cur0, dist0, start, cores, strdCntr0)
    requires cur0 != [] && |cur0| <= blockLen && n0 + queue == |input| && core0 == CoreOf(start + |blocks0|, cores) && AllLong(blocks0, blockLen)
    ensures Open(dist, blocks, [], start, cores) && |blocks| == |blocks0| + 1 && CoreOf(core, cores) == CoreOf(start + |blocks|, cores)
    ensures n < |input| <= n + queue && Division(input[..|input| - 1], blocks, input[n..|input| - 1], blockLen, queue)
    ensures readSize == SizeCounted(input) && writeSize == SizeCounted(input[..n])
    ensures if n + 1 == |input| then writeSize == readSize else strdCntr == 0 && Waiting(input, n, |input|, fifo, readSize, writeSize)
  {
    hide *;
    var endBlck: bool;
    ghost var cur: seq<Packet>;
    fifo, dist, writeSize, strdCntr, endBlck, cur, n :=
      SendRest(input, blockSize, cores, core0, fifo0, dist0, readSize, writeSize0, strdCntr0, start, blocks0, cur0, n0, blockLen, queue);
    ghost var size: nat :| Sent(input, n, blocks0, cur, dist, start, cores, size);
    AllWritten(input, n, fifo, readSize, writeSize);
    WaitingAll(input, n, fifo, readSize, writeSize);
    QueuePop(input, n, fifo, readSize, writeSize);
    SentBlock(input, n, blocks0, cur, dist, start, cores, size, core0);
    NextCore(start + |blocks0|, core0, cores);
    if !endBlck {
      if readSize == writeSize {
        dist := dist[core0 := dist[core0] + [fifo[0]]];
        fifo := fifo[1..];
      } else {
        dist := dist[core0 := dist[core0] + [END]];
      }
      core := Advanced(core0);
    } else if strdCntr > 0 {
      dist := dist[core0 := dist[core0] + [fifo[0]]];
      fifo := fifo[1..];
      core := Advanced(core0);
    } else {
      core := core0;
    }
    blocks := blocks0 + [cur];
    SentOpen(input, n, blocks, dist, start, cores, 0);
    DivisionLast(input, n, blocks0, cur, |cur0|, blockLen, queue);
  }

  // What goes to the cores: block j to core core0 + j, every stream ended by one more packet.
  ghost predicate Dealt(dist: seq<seq<Packet>>, blocks: seq<seq<Packet>>, core0: nat, cores: nat)
    requires cores > 0
  {
    |dist| == cores && forall i :: 0 <= i < cores ==> dist[i] == Framed(Share(blocks, core0, cores, i)) + [END]
  }

  method Terminate(dist0: seq<seq<Packet>>, cores: nat, ghost blocks: seq<seq<Packet>>, ghost core0: nat) returns (dist: seq<seq<Packet>>)
    requires 0 < cores && Open(dist0, blocks, [], core0, cores)
    ensures Dealt(dist, blocks, core0, cores)
  {
    hide Framed, Share, CoreOf;
    dist := dist0;
    var i: nat := 0;
    while i < cores
      invariant i <= cores == |dist|
      invariant forall k :: 0 <= k < i ==> dist[k] == Framed(Share(blocks, core0, cores, k)) + [END]
      invariant forall k :: i <= k < cores ==> dist[k] == dist0[k]
    {
      assert dist0[i] == Framed(Share(blocks, core0, cores, i));
      dist := dist[i := dist[i] + [END]];
      i := i + 1;
    }
  }

  method Distribute(input: seq<Packet>, cores: nat, blockSize: nat, queue: nat, core0: nat, ghost blockLen: nat)
    returns (dist: seq<seq<Packet>>, strd: seq<seq<Byte>>, strdSize: nat, blckEos: seq<bool>, fileSize: nat, core: nat,
             ghost blocks: seq<seq<Packet>>, ghost stored: seq<Packet>)
    requires Fed(input) && 0 < cores <= 16 && blockSize == 8 * blockLen && 0 < queue <= blockLen && blockSize + 8 * queue < 0x1_0000
    ensures |input| > 0 && Division(input[..|input| - 1], blocks, stored, blockLen, queue)
    ensures Dealt(dist, blocks, core0, cores)
    ensures blckEos == Continued(|blocks|) + [true]
    ensures strd == DataOf(stored) && strdSize == Size(stored)
    ensures fileSize == SizeCounted(input)
    ensures CoreOf(core, cores) == CoreOf(core0 + |blocks|, cores)
  {
    hide *;
    var pos, fifo, readSize, last := FillQueue(input, queue);
    var writeSize: nat, strdCntr: nat;
    ghost var cur: seq<Packet>, n: nat;
    fifo, dist, readSize, writeSize, strdCntr, core, blckEos, blocks, cur, n :=
      SendBlocks(input, blockSize, cores, core0, pos, fifo, readSize, last, blockLen, queue);
    blckEos := blckEos + [true];
    BlockOpen(input, n, blocks, cur, dist, core0, cores, strdCntr, fifo, readSize, writeSize);
    if strdCntr != 0 {
      fifo, dist, writeSize, core, strdCntr, n, blocks :=
        CloseLast(input, blockSize, cores, core, fifo, dist, readSize, writeSize, strdCntr, core0, blocks, cur, n, blockLen, queue);
    } else {
      DivisionNone(input, n, blocks, blockLen, queue);
    }
    strd, strdSize, writeSize := SendStored(input, fifo, readSize, writeSize, strdCntr, n, queue);
    stored := input[n..|input| - 1];
    dist := Terminate(dist, cores, blocks, core0);
    fileSize := writeSize;
  }

  // Every packet goes to one block or to the stored tail, in order, and the blocks go round the ring.
  method MulticoreDistributor(inStream: seq<Packet>, cores: nat, blockSize: nat, minBlock: nat, core0: nat)
    returns (dist: seq<seq<Packet>>, strd: seq<seq<Byte>>, strdSize: nat, blckEos: seq<bool>, fileSize: nat, core: nat,
             ghost blocks: seq<seq<Packet>>, ghost stored: seq<Packet>)
    requires inStream != [] && inStream[|inStream| - 1].strobe == 0 && Fed(inStream[..|inStream| - 1] + [END])
    requires 0 < cores <= 16 && blockSize % 8 == 0 && minBlock < blockSize && blockSize + minBlock + 8 < 0x1_0000
    ensures Division(inStream[..|inStream| - 1], blocks, stored, blockSize / 8, (minBlock + 8) / 8)
    ensures Dealt(dist, blocks, core0, cores)
    ensures blckEos == Continued(|blocks|) + [true]
    ensures strd == DataOf(stored) && strdSize == Size(stored)
    ensures fileSize == SizeCounted(inStream)
    ensures CoreOf(core, cores) == CoreOf(core0 + |blocks|, cores)
  {
    hide *;
    // Nothing ever reads the data of the packet that ends the input.
    var input := inStream[..|inStream| - 1] + [END];
    SameSize(inStream, input);
    var queue: nat := (minBlock + 8) / 8;
    dist, strd, strdSize, blckEos, fileSize, core, blocks, stored := Distribute(input, cores, blockSize, queue, core0, blockSize / 8);
  }
}
