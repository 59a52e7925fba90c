// Literal lengths travel through the reversal in eight bits: long ones are split into sequences
// of 255 literals before it and added up again after it.

module SequenceResize {
  import opened SequenceReverse

  datatype Sequence = Sequence(litlen: nat, matlen: int, offset: nat)

  const FILLER := Sequence(255, 0, 0)

  // ---------- Splitting ----------

  function Split(s: Sequence): (r: seq<Sequence>)
    ensures r != []
    decreases s.litlen
  {
    if s.litlen > 255 then [FILLER] + Split(s.(litlen := s.litlen - 255)) else [s]
  }

  function Down(b: seq<Sequence>): seq<Sequence> {
    if b == [] then [] else Split(b[0]) + Down(b[1..])
  }

  function DownAll(blocks: seq<seq<Sequence>>): (r: seq<seq<Sequence>>)
    ensures |r| == |blocks|
  {
    if blocks == [] then [] else DownAll(blocks[..|blocks| - 1]) + [Down(blocks[|blocks| - 1])]
  }

  lemma {:induction false} DownAllAt(blocks: seq<seq<Sequence>>, k: nat)
    requires k < |blocks|
    ensures DownAll(blocks)[k] == Down(blocks[k])
    decreases |blocks|
  {
    if k < |blocks| - 1 { DownAllAt(blocks[..|blocks| - 1], k); }
  }

  lemma {:induction false} DownAppend(b: seq<Sequence>, s: Sequence)
    ensures Down(b + [s]) == Down(b) + Split(s)
  {
    if b == [] {
      assert b + [s] == [s] && [s][1..] == [];
      assert Split(s) + [] == [] + Split(s);
    } else {
      assert (b + [s])[1..] == b[1..] + [s];
      DownAppend(b[1..], s);
    }
  }

  // ---------- Adding up ----------

  function Less(s: Sequence, minMatch: int): Sequence {
    s.(matlen := s.matlen - minMatch)
  }

  // The first sequence of a reversed block; all zero stands for no sequence.
  function First(s: Sequence, minMatch: int): Sequence {
    if s == Sequence(0, 0, 0) then s else Less(s, minMatch)
  }

  // `cur` is held back while fillers follow it.
  function Merge(cur: Sequence, rest: seq<Sequence>, minMatch: int): seq<Sequence>
    decreases |rest|
  {
    if rest == [] then [cur]
    else if rest[0].matlen == 0 && rest[0].offset == 0 then Merge(cur.(litlen := cur.litlen + rest[0].litlen), rest[1..], minMatch)
    else [cur] + Merge(Less(rest[0], minMatch), rest[1..], minMatch)
  }

  function Up(r: seq<Sequence>, minMatch: int): seq<Sequence> {
    if r == [] then [] else Merge(First(r[0], minMatch), r[1..], minMatch)
  }

  function Lessened(b: seq<Sequence>, minMatch: int): (r: seq<Sequence>)
    ensures |r| == |b|
  {
    if b == [] then [] else Lessened(b[..|b| - 1], minMatch) + [Less(b[|b| - 1], minMatch)]
  }

  // What a block looks like on its way to the sequence coder: every match is long enough, or the
  // block says that there are no sequences.
  ghost predicate Proper(b: seq<Sequence>, minMatch: int) {
    || b == [Sequence(0, 0, 0)]
    || (b != [] && minMatch > 0 && forall k :: 0 <= k < |b| ==> b[k].matlen >= minMatch)
  }

  // Plain reversal, with match lengths counted from the minimum.
  function Reversal(b: seq<Sequence>, minMatch: int): seq<Sequence> {
    if b == [Sequence(0, 0, 0)] then b else Backwards(Lessened(b, minMatch))
  }

  lemma {:induction false} BackwardsConcat<T>(a: seq<T>, b: seq<T>)
    ensures Backwards(a + b) == Backwards(b) + Backwards(a)
  {
    if a == [] {
      assert a + b == b;
      assert Backwards(b) + [] == Backwards(b);
    } else {
      assert (a + b)[1..] == a[1..] + b && (a + b)[0] == a[0];
      BackwardsConcat(a[1..], b);
      assert Backwards(b) + Backwards(a[1..]) + [a[0]] == Backwards(b) + (Backwards(a[1..]) + [a[0]]);
    }
  }

  lemma BackwardsOne<T>(x: T)
    ensures Backwards([x]) == [x]
  {
    assert [x][1..] == [];
  }

  // A split sequence, reversed, adds up to the sequence again.
  lemma {:induction false} MergeSplit(s: Sequence, rest: seq<Sequence>, minMatch: int)
    ensures var r := Backwards(Split(s)); r != [] && r[0].matlen == s.matlen && r[0].offset == s.offset
    ensures var r := Backwards(Split(s)); Merge(Less(r[0], minMatch), r[1..] + rest, minMatch) == Merge(Less(s, minMatch), rest, minMatch)
    decreases s.litlen
  {
    if s.litlen > 255 {
      var s' := s.(litlen := s.litlen - 255);
      var r' := Backwards(Split(s'));
      MergeSplit(s', [FILLER] + rest, minMatch);
      BackwardsConcat([FILLER], Split(s'));
      BackwardsOne(FILLER);
      var r := Backwards(Split(s));
      assert r == r' + [FILLER];
      assert r[1..] + rest == r'[1..] + ([FILLER] + rest);
      MergeFiller(Less(s', minMatch), rest, minMatch);
    } else {
      BackwardsOne(s);
      assert [s][1..] + rest == rest;
    }
  }

  lemma MergeFiller(cur: Sequence, rest: seq<Sequence>, minMatch: int)
    ensures Merge(cur, [FILLER] + rest, minMatch) == Merge(cur.(litlen := cur.litlen + 255), rest, minMatch)
  {
    assert ([FILLER] + rest)[1..] == rest;
  }

  lemma MergeRegular(cur: Sequence, rest: seq<Sequence>, minMatch: int)
    requires rest != [] && rest[0].matlen > 0
    ensures Merge(cur, rest, minMatch) == [cur] + Up(rest, minMatch)
  {
  }

  // Splitting, reversing and adding up is reversing.
  lemma {:induction false} UpOfReversedDown(b: seq<Sequence>, minMatch: int)
    requires b != [] && minMatch > 0 && forall k :: 0 <= k < |b| ==> b[k].matlen >= minMatch
    ensures Backwards(Down(b)) != [] && Backwards(Down(b))[0].matlen > 0
    ensures Up(Backwards(Down(b)), minMatch) == Backwards(Lessened(b, minMatch))
    decreases |b|
  {
    var z := |b| - 1;
    var s, before := b[z], b[..z];
    assert before + [s] == b;
    DownAppend(before, s);
    BackwardsConcat(Down(before), Split(s));
    var r, rest := Backwards(Split(s)), Backwards(Down(before));
    MergeSplit(s, rest, minMatch);
    assert (r + rest)[1..] == r[1..] + rest;
    BackwardsConcat(Lessened(before, minMatch), [Less(s, minMatch)]);
    BackwardsOne(Less(s, minMatch));
    if before == [] {
      assert rest == [];
    } else {
      UpOfReversedDown(before, minMatch);
      MergeRegular(Less(s, minMatch), rest, minMatch);
    }
  }

  lemma ResizedReversal(b: seq<Sequence>, minMatch: int)
    requires Proper(b, minMatch)
    ensures Up(Backwards(Down(b)), minMatch) == Reversal(b, minMatch)
    ensures Down(b) != []
  {
    if b == [Sequence(0, 0, 0)] {
      assert b[1..] == [];
      assert Down(b) == b + [] == b;
      BackwardsOne(b[0]);
    } else {
      assert b[0].matlen >= minMatch;
      UpOfReversedDown(b, minMatch);
    }
  }

  // ---------- downSizeLitlen ----------

  // The first k blocks and w entries of block k are out.
  ghost predicate Partly<T>(out: seq<Beat<T>>, blocks: seq<seq<T>>, k: nat, w: nat) {
    && k <= |blocks| && w <= Length(blocks, k) && |out| == Start(blocks, k) + w
    && (forall j :: 0 <= j < k ==> FeedsBlock(out, blocks, j))
    && (forall i :: Start(blocks, k) <= i < |out| ==> out[i] == Beat(true, blocks[k][i - Start(blocks, k)]))
  }

  lemma PartlyEntry<T>(out: seq<Beat<T>>, blocks: seq<seq<T>>, k: nat, w: nat)
    requires Partly(out, blocks, k, w) && w < Length(blocks, k)
    ensures Partly(out + [Beat(true, blocks[k][w])], blocks, k, w + 1)
  {
    forall j | 0 <= j < k ensures FeedsBlock(out + [Beat(true, blocks[k][w])], blocks, j) {
      assert FeedsBlock(out, blocks, j);
    }
  }

  lemma PartlyBlock<T>(out: seq<Beat<T>>, blocks: seq<seq<T>>, k: nat, x: T)
    requires Partly(out, blocks, k, Length(blocks, k)) && k < |blocks|
    ensures Partly(out + [Beat(false, x)], blocks, k + 1, 0)
  {
    var out' := out + [Beat(false, x)];
    forall j | 0 <= j < k + 1 ensures FeedsBlock(out', blocks, j) {
      if j < k { assert FeedsBlock(out, blocks, j); }
    }
  }

  lemma PartlyAll<T>(out: seq<Beat<T>>, blocks: seq<seq<T>>, x: T)
    requires Partly(out, blocks, |blocks|, 0)
    ensures Feeds(out + [Beat(false, x)], blocks)
  {
    var out' := out + [Beat(false, x)];
    forall j | 0 <= j < |blocks| ensures FeedsBlock(out', blocks, j) {
      assert FeedsBlock(out, blocks, j);
    }
  }

  // w entries of the split block are out, and the rest of it is `left`.
  ghost predicate Rest(block: seq<Sequence>, w: nat, left: seq<Sequence>) {
    w + |left| == |block| && block[w..] == left
  }

  lemma RestNext(block: seq<Sequence>, w: nat, x: Sequence, left: seq<Sequence>)
    requires Rest(block, w, [x] + left)
    ensures w < |block| && block[w] == x && Rest(block, w + 1, left)
  {
    assert block[w] == block[w..][0];
    assert block[w + 1..] == block[w..][1..];
  }

  lemma DownStep(b: seq<Sequence>, i: nat, litlen: nat)
    requires i < |b|
    ensures litlen > 255 ==> Split(b[i].(litlen := litlen)) + Down(b[i + 1..])
                             == [FILLER] + (Split(b[i].(litlen := litlen - 255)) + Down(b[i + 1..]))
    ensures litlen <= 255 ==> Split(b[i].(litlen := litlen)) + Down(b[i + 1..]) == [b[i].(litlen := litlen)] + Down(b[i + 1..])
    ensures i + 1 < |b| ==> Down(b[i + 1..]) == Split(b[i + 1].(litlen := b[i + 1].litlen)) + Down(b[i + 2..])
    ensures i + 1 == |b| ==> Down(b[i + 1..]) == []
  {
    if i + 1 < |b| { assert b[i + 1..][1..] == b[i + 2..] && b[i + 1].(litlen := b[i + 1].litlen) == b[i + 1]; }
    assert [FILLER] + Split(b[i].(litlen := if litlen > 255 then litlen - 255 else 0)) + Down(b[i + 1..])
        == [FILLER] + (Split(b[i].(litlen := if litlen > 255 then litlen - 255 else 0)) + Down(b[i + 1..]));
  }

  method DownSizeBlock(input: seq<Beat<Sequence>>, pos0: nat, out0: seq<Beat<Sequence>>, ghost blocks: seq<seq<Sequence>>, ghost k: nat)
    returns (pos: nat, out: seq<Beat<Sequence>>)
    requires Feeds(input, blocks) && k < |blocks| && blocks[k] != [] && pos0 == Start(blocks, k)
    requires Partly(out0, DownAll(blocks), k, 0)
    ensures Partly(out, DownAll(blocks), k + 1, 0) && pos == Start(blocks, k + 1) <= |input|
  {
    hide Feeds, Partly, Down, DownAll, Rest;
    NextBeat(input, blocks, k, 0);
    DownAllAt(blocks, k);
    DownFirst(blocks[k]);
    ghost var w, i, d, all := 0, 0, Down(blocks[k]), DownAll(blocks);
    pos, out := pos0, out0;
    var inSeq := input[pos];
    pos := pos + 1;
    var litLen := inSeq.data.litlen;
    var dszDone := !inSeq.strobe;
    while !dszDone
      invariant i <= |blocks[k]| && pos == Start(blocks, k) + i + 1 && (dszDone <==> i == |blocks[k]|)
      invariant !dszDone ==> inSeq.data == blocks[k][i]
      invariant Partly(out, all, k, w)
      invariant Rest(d, w, if dszDone then [] else Split(blocks[k][i].(litlen := litLen)) + Down(blocks[k][i + 1..]))
      decreases |blocks[k]| - i, litLen
    {
      DownStep(blocks[k], i, litLen);
      var outSeq;
      if litLen > 255 {
        outSeq := FILLER;
        RestNext(d, w, FILLER, Split(blocks[k][i].(litlen := litLen - 255)) + Down(blocks[k][i + 1..]));
        litLen := litLen - 255;
      } else {
        outSeq := Sequence(litLen, inSeq.data.matlen, inSeq.data.offset);
        RestNext(d, w, outSeq, Down(blocks[k][i + 1..]));
        NextBeat(input, blocks, k, i + 1);
        inSeq := input[pos];
        pos := pos + 1;
        litLen := inSeq.data.litlen;
        dszDone := !inSeq.strobe;
        i := i + 1;
      }
      PartlyEntry(out, all, k, w);
      out := out + [Beat(true, outSeq)];
      w := w + 1;
    }
    RestEmpty(d, w);
    PartlyBlock(out, all, k, FILLER);
    out := out + [Beat(false, FILLER)];
    StartGrows(blocks, k + 1);
    FeedLength(input, blocks);
  }

  lemma DownFirst(b: seq<Sequence>)
    requires b != []
    ensures Rest(Down(b), 0, Split(b[0].(litlen := b[0].litlen)) + Down(b[1..]))
  {
    assert b[0].(litlen := b[0].litlen) == b[0];
  }

  lemma RestEmpty(d: seq<Sequence>, w: nat)
    requires Rest(d, w, [])
    ensures w == |d|
  {
  }

  lemma FeedLength<T>(input: seq<Beat<T>>, blocks: seq<seq<T>>)
    requires Feeds(input, blocks)
    ensures |input| == Start(blocks, |blocks|) + 1
  {
  }

  lemma PartlyStarts<T>(blocks: seq<seq<T>>)
    ensures Partly([], blocks, 0, 0)
  {
  }

  method DownSizeLitlen(input: seq<Beat<Sequence>>, ghost blocks: seq<seq<Sequence>>) returns (out: seq<Beat<Sequence>>)
    requires Feeds(input, blocks) && forall k :: 0 <= k < |blocks| ==> blocks[k] != []
    ensures Feeds(out, DownAll(blocks))
  {
    hide Feeds, Partly, DownAll;
    out := [];
    var pos := 0;
    ghost var k := 0;
    PartlyStarts(DownAll(blocks));
    var done := false;
    while !done
      invariant k <= |blocks| && (done ==> k == |blocks|) && (!done ==> pos == Start(blocks, k))
      invariant Partly(out, DownAll(blocks), k, 0)
      decreases !done, |blocks| - k
    {
      NextBeat(input, blocks, k, 0);
      done := !input[pos].strobe;
      if !done {
        pos, out := DownSizeBlock(input, pos, out, blocks, k);
        k := k + 1;
      }
    }
    PartlyAll(out, DownAll(blocks), FILLER);
    out := out + [Beat(false, FILLER)];
  }

  // ---------- upSizeLitlen ----------

  function MarkedBlocks<T>(lists: seq<seq<T>>): seq<Mark<T>> {
    if lists == [] then [] else MarkedBlocks(lists[..|lists| - 1]) + Items(lists[|lists| - 1]) + [End]
  }

  lemma MarkedAppend<T>(lists: seq<seq<T>>, list: seq<T>)
    ensures MarkedBlocks(lists + [list]) == MarkedBlocks(lists) + Items(list) + [End]
  {
    assert (lists + [list])[..|lists|] == lists;
  }

  lemma {:induction false} ItemsAt<T>(b: seq<T>, i: nat)
    requires i < |b|
    ensures Items(b)[i] == Item(b[i])
    decreases |b|
  {
    if i < |b| - 1 { ItemsAt(b[..|b| - 1], i); }
  }

  // Entry i of block k in the reversed stream, and the end marks.
  lemma {:induction false} ReversedAt<T>(blocks: seq<seq<T>>, k: nat, i: nat)
    requires k < |blocks| && i <= |blocks[k]|
    ensures |ReversedBlocks(blocks)| == Start(blocks, |blocks|) && Start(blocks, k) + i < |ReversedBlocks(blocks)|
    ensures ReversedBlocks(blocks)[Start(blocks, k) + i] == if i < |blocks[k]| then Item(Backwards(blocks[k])[i]) else End
    decreases |blocks|
  {
    var z := |blocks| - 1;
    StartPrefix(blocks, z);
    ReversedLength(blocks[..z]);
    if k < z {
      StartPrefix(blocks[..z], k);
      StartPrefix(blocks, k);
      assert blocks[..z][..k] == blocks[..k];
      ReversedAt(blocks[..z], k, i);
    } else if i < |blocks[k]| {
      ItemsAt(Backwards(blocks[z]), i);
    }
  }

  lemma {:induction false} StartPrefix<T>(blocks: seq<seq<T>>, k: nat)
    requires k <= |blocks|
    ensures Start(blocks[..k], k) == Start(blocks, k)
    decreases k
  {
    if k > 0 {
      StartPrefix(blocks, k - 1);
      StartPrefix(blocks[..k], k - 1);
      assert blocks[..k][..k - 1] == blocks[..k - 1];
    }
  }

  lemma {:induction false} ReversedLength<T>(blocks: seq<seq<T>>)
    ensures |ReversedBlocks(blocks)| == Start(blocks, |blocks|)
    decreases |blocks|
  {
    if blocks != [] {
      ReversedLength(blocks[..|blocks| - 1]);
      StartPrefix(blocks, |blocks| - 1);
    }
  }

  // The reversed stream with its final end mark.
  ghost predicate Turned<T>(input: seq<Mark<T>>, blocks: seq<seq<T>>) {
    input == ReversedBlocks(blocks) + [End]
  }

  lemma NextMark<T>(input: seq<Mark<T>>, blocks: seq<seq<T>>, k: nat, i: nat)
    requires Turned(input, blocks) && k <= |blocks| && i <= Length(blocks, k)
    ensures Start(blocks, k) + i < |input|
    ensures input[Start(blocks, k) + i] == if i < Length(blocks, k) then Item(Backwards(blocks[k])[i]) else End
  {
    ReversedLength(blocks);
    if k < |blocks| { ReversedAt(blocks, k, i); }
  }

  lemma MergeStep(cur: Sequence, r: seq<Sequence>, i: nat, minMatch: int)
    requires i <= |r|
    ensures i == |r| ==> Merge(cur, r[i..], minMatch) == [cur]
    ensures i < |r| && r[i].matlen == 0 && r[i].offset == 0 ==>
              Merge(cur, r[i..], minMatch) == Merge(cur.(litlen := cur.litlen + r[i].litlen), r[i + 1..], minMatch)
    ensures i < |r| && !(r[i].matlen == 0 && r[i].offset == 0) ==>
              Merge(cur, r[i..], minMatch) == [cur] + Merge(Less(r[i], minMatch), r[i + 1..], minMatch)
  {
    if i < |r| { assert r[i..][1..] == r[i + 1..]; }
  }

  method UpSizeBlock(input: seq<Mark<Sequence>>, pos0: nat, minMatch: int, ghost downs: seq<seq<Sequence>>, ghost k: nat)
    returns (pos: nat, block: seq<Sequence>)
    requires Turned(input, downs) && k < |downs| && downs[k] != [] && pos0 == Start(downs, k)
    ensures block == Up(Backwards(downs[k]), minMatch) && pos == Start(downs, k + 1)
  {
    hide Turned, Merge, Backwards;
    ghost var r, i := Backwards(downs[k]), 1;
    NextMark(input, downs, k, 0);
    var inSeq := input[pos0].data;
    pos, block := pos0 + 1, [];
    var outSeq := if inSeq.litlen == 0 && inSeq.matlen == 0 && inSeq.offset == 0 then inSeq
                  else inSeq.(matlen := inSeq.matlen - minMatch);
    assert Up(r, minMatch) == [] + Merge(outSeq, r[1..], minMatch);
    var uszDone := false;
    while !uszDone
      invariant 1 <= i <= |r| && (!uszDone ==> pos == Start(downs, k) + i) && (uszDone ==> pos == Start(downs, k) + |r| + 1)
      invariant Up(r, minMatch) == if uszDone then block else block + Merge(outSeq, r[i..], minMatch)
      decreases !uszDone, |r| - i
    {
      MergeStep(outSeq, r, i, minMatch);
      NextMark(input, downs, k, i);
      uszDone := input[pos].End?;
      if !uszDone && input[pos].data.matlen == 0 && input[pos].data.offset == 0 {
        outSeq := outSeq.(litlen := outSeq.litlen + input[pos].data.litlen);
        i := i + 1;
      } else {
        block := block + [outSeq];
        if !uszDone {
          outSeq := Less(input[pos].data, minMatch);
          i := i + 1;
        }
      }
      pos := pos + 1;
    }
  }

  function UpAll(downs: seq<seq<Sequence>>, minMatch: int): seq<seq<Sequence>> {
    if downs == [] then [] else UpAll(downs[..|downs| - 1], minMatch) + [Up(Backwards(downs[|downs| - 1]), minMatch)]
  }

  lemma UpAllNext(downs: seq<seq<Sequence>>, k: nat, minMatch: int)
    requires k < |downs|
    ensures UpAll(downs[..k + 1], minMatch) == UpAll(downs[..k], minMatch) + [Up(Backwards(downs[k]), minMatch)]
  {
    assert downs[..k + 1][..k] == downs[..k];
  }

  method UpSizeLitlen(input: seq<Mark<Sequence>>, minMatch: int, ghost downs: seq<seq<Sequence>>) returns (out: seq<Mark<Sequence>>)
    requires Turned(input, downs) && forall k :: 0 <= k < |downs| ==> downs[k] != []
    ensures out == MarkedBlocks(UpAll(downs, minMatch)) + [End]
  {
    hide Turned, Up;
    out := [];
    var pos := 0;
    ghost var k := 0;
    assert downs[..0] == [];
    var done := false;
    while !done
      invariant k <= |downs| && (done ==> k == |downs|) && (!done ==> pos == Start(downs, k))
      invariant out == MarkedBlocks(UpAll(downs[..k], minMatch))
      decreases !done, |downs| - k
    {
      NextMark(input, downs, k, 0);
      done := input[pos].End?;
      if !done {
        var block;
        pos, block := UpSizeBlock(input, pos, minMatch, downs, k);
        UpAllNext(downs, k, minMatch);
        MarkedAppend(UpAll(downs[..k], minMatch), block);
        out := out + Items(block) + [End];
        k := k + 1;
      }
    }
    assert downs[..|downs|] == downs;
    out := out + [End];
  }

  // ---------- All three ----------

  function Reversals(blocks: seq<seq<Sequence>>, minMatch: int): seq<seq<Sequence>> {
    if blocks == [] then [] else Reversals(blocks[..|blocks| - 1], minMatch) + [Reversal(blocks[|blocks| - 1], minMatch)]
  }

  ghost predicate AllProper(blocks: seq<seq<Sequence>>, minMatch: int) {
    forall k :: 0 <= k < |blocks| ==> Proper(blocks[k], minMatch)
  }

  lemma {:induction false} ResizedReversals(blocks: seq<seq<Sequence>>, minMatch: int)
    requires AllProper(blocks, minMatch)
    ensures UpAll(DownAll(blocks), minMatch) == Reversals(blocks, minMatch)
    decreases |blocks|
  {
    if blocks != [] {
      hide Up, Down, Reversal, Proper;
      var z := |blocks| - 1;
      ResizedReversals(blocks[..z], minMatch);
      ResizedReversal(blocks[z], minMatch);
      assert DownAll(blocks)[..z] == DownAll(blocks[..z]);
    }
  }

  lemma ProperNotEmpty(blocks: seq<seq<Sequence>>, minMatch: int)
    requires AllProper(blocks, minMatch)
    ensures forall k :: 0 <= k < |blocks| ==> blocks[k] != []
    ensures forall k :: 0 <= k < |blocks| ==> DownAll(blocks)[k] != []
  {
    forall k | 0 <= k < |blocks| ensures blocks[k] != [] && DownAll(blocks)[k] != [] {
      assert Proper(blocks[k], minMatch);
      ResizedReversal(blocks[k], minMatch);
      DownAllAt(blocks, k);
    }
  }

  // Splitting, reversing and adding up is plain reversal, block by block, with match lengths
  // counted from the minimum.
  method ReverseSeq(input: seq<Beat<Sequence>>, memSize: nat, minMatch: int, ghost blocks: seq<seq<Sequence>>)
    returns (out: seq<Mark<Sequence>>)
    requires Feeds(input, blocks) && AllProper(blocks, minMatch) && Fitting(DownAll(blocks), memSize)
    ensures out == MarkedBlocks(Reversals(blocks, minMatch)) + [End]
  {
    hide *;
    ProperNotEmpty(blocks, minMatch);
    var split := DownSizeLitlen(input, blocks);
    var turned := ReverseSeqIntl(split, memSize, FILLER, DownAll(blocks));
    TurnedIs(turned, DownAll(blocks));
    out := UpSizeLitlen(turned, minMatch, DownAll(blocks));
    ResizedReversals(blocks, minMatch);
  }

  lemma TurnedIs<T>(input: seq<Mark<T>>, blocks: seq<seq<T>>)
    requires input == ReversedBlocks(blocks) + [End]
    ensures Turned(input, blocks)
  {
  }
}
