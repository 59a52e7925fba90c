// Packets of one to eight bytes packed without gaps into words of eight.

module BytePacking {
  import opened LzCore
  import opened CoreStreams
  import opened CorePacker

  // ---------- bytePacker ----------

  // Whole words, at most one shorter word, and the end.
  ghost predicate GapFree(out: seq<Packet>) {
    out != [] && out[|out| - 1].strobe == 0 && WithoutEnds(out[..|out| - 1])
    && forall k :: 0 <= k < |out| - 2 ==> out[k].strobe == 8
  }

  // Words already out, and the bytes below idx in the window.
  ghost predicate InWindow(out: seq<Packet>, window: seq<Byte>, idx: nat, bytes: seq<Byte>) {
    |window| == 16 && idx < 8 && WithoutEnds(out) && Bytes(out) + window[..idx] == bytes
    && forall k :: 0 <= k < |out| ==> out[k].strobe == 8
  }

  function Written(window: seq<Byte>, idx: nat, data: seq<Byte>): (w: seq<Byte>)
    requires |window| == 16 && idx + 8 <= 16 && |data| == 8
    ensures |w| == 16
  {
    window[..idx] + data + window[idx + 8..]
  }

  function Shifted(window: seq<Byte>): (w: seq<Byte>)
    requires |window| == 16
    ensures |w| == 16
  {
    window[8..] + Zeros(8)
  }

  lemma PackStep(out: seq<Packet>, window: seq<Byte>, idx: nat, bytes: seq<Byte>, p: Packet)
    requires InWindow(out, window, idx, bytes) && WellFormed(p)
    ensures |window| == 16 && idx < 8 && |p.data| == 8 && p.strobe <= 8
    ensures idx + p.strobe >= 8 ==>
      InWindow(out + [Packet(Written(window, idx, p.data)[..8], 8)], Shifted(Written(window, idx, p.data)), idx + p.strobe - 8,
               bytes + p.data[..p.strobe])
    ensures idx + p.strobe < 8 ==> InWindow(out, Written(window, idx, p.data), idx + p.strobe, bytes + p.data[..p.strobe])
  {
    WindowIs(out, window, idx, bytes);
    hide *;
    PacketIs(p);
    var w := Written(window, idx, p.data);
    WrittenBytes(window, idx, p.data, p.strobe);
    Together(Bytes(out), window[..idx], p.data[..p.strobe]);
    if idx + p.strobe >= 8 {
      SplitWindow(w, idx + p.strobe);
      EightMore(out, Packet(w[..8], 8));
      Together(Bytes(out), w[..8], w[8..idx + p.strobe]);
      MakesWindow(out + [Packet(w[..8], 8)], Shifted(w), idx + p.strobe - 8, bytes + p.data[..p.strobe]);
    } else {
      MakesWindow(out, w, idx + p.strobe, bytes + p.data[..p.strobe]);
    }
  }

  ghost predicate Eights(out: seq<Packet>) {
    forall k :: 0 <= k < |out| ==> out[k].strobe == 8
  }

  lemma WindowIs(out: seq<Packet>, window: seq<Byte>, idx: nat, bytes: seq<Byte>)
    requires InWindow(out, window, idx, bytes)
    ensures |window| == 16 && idx < 8 && WithoutEnds(out) && Bytes(out) + window[..idx] == bytes && Eights(out)
  {
    hide Bytes, WithoutEnds;
  }

  lemma MakesWindow(out: seq<Packet>, window: seq<Byte>, idx: nat, bytes: seq<Byte>)
    requires |window| == 16 && idx < 8 && WithoutEnds(out) && Bytes(out) + window[..idx] == bytes && Eights(out)
    ensures InWindow(out, window, idx, bytes)
  {
    hide Bytes, WithoutEnds;
  }

  lemma PacketIs(p: Packet)
    requires WellFormed(p)
    ensures |p.data| == 8 && p.strobe <= 8
  {
  }

  lemma Together(a: seq<Byte>, b: seq<Byte>, c: seq<Byte>)
    ensures a + b + c == a + (b + c)
  {
  }

  lemma WrittenBytes(window: seq<Byte>, idx: nat, data: seq<Byte>, n: nat)
    requires |window| == 16 && idx < 8 && |data| == 8 && n <= 8
    ensures Written(window, idx, data)[..idx + n] == window[..idx] + data[..n]
  {
  }

  lemma SplitWindow(w: seq<Byte>, n: nat)
    requires |w| == 16 && 8 <= n < 16
    ensures w[..n] == w[..8] + w[8..n] && Shifted(w)[..n - 8] == w[8..n]
  {
    hide Zeros;
  }

  lemma EightMore(out: seq<Packet>, p: Packet)
    requires WithoutEnds(out) && Eights(out) && |p.data| == 8 && p.strobe == 8
    ensures WithoutEnds(out + [p]) && Eights(out + [p]) && Bytes(out + [p]) == Bytes(out) + p.data
  {
    BytesAppend(out, p);
    hide Bytes, WithoutEnds;
    assert p.data[..8] == p.data;
  }

  // The same bytes, without gaps.
  method BytePacker(inStream: seq<Packet>) returns (out: seq<Packet>)
    requires inStream != [] && inStream[|inStream| - 1].strobe == 0 && WellFormed(inStream[|inStream| - 1])
    requires WithoutEnds(inStream[..|inStream| - 1])
    ensures Finished(out, Bytes(inStream[..|inStream| - 1]))
  {
    hide *;
    var window, inputIdx: nat, packerDone := Zeros(16), 0, false;
    out := [];
    var i: nat := 0;
    var last: nat := |inStream| - 1;
    NothingPacked(window, inStream);
    while !packerDone
      invariant i <= |inStream| && (packerDone <==> i == |inStream|)
      invariant |window| == 16 && WithoutEnds(inStream[..Least(i, last)])
      invariant InWindow(out, window, inputIdx, Bytes(inStream[..Least(i, last)]))
      decreases |inStream| - i
    {
      PacketAt(inStream, i);
      var inVal := inStream[i];
      PacketIs(inVal);
      PackStep(out, window, inputIdx, Bytes(inStream[..i]), inVal);
      packerDone := inVal.strobe == 0;
      window := Written(window, inputIdx, inVal.data);
      inputIdx := (inputIdx + inVal.strobe) % 16;
      if inputIdx >= 8 {
        out := out + [Packet(window[..8], 8)];
        window := Shifted(window);
        inputIdx := inputIdx - 8;
      }
      i := i + 1;
    }
    LeastIs(i, last);
    ghost var bytes := Bytes(inStream[..last]);
    LastWord(out, window, inputIdx, bytes);
    if inputIdx != 0 {
      out := out + [Packet(window[..8], inputIdx)];
    }
    out := out + [Packet(window[..8], 0)];
  }

  function Least(i: nat, n: nat): (m: nat)
    ensures m <= i && m <= n
  {
    if i <= n then i else n
  }

  lemma LeastIs(i: nat, n: nat)
    ensures i <= n ==> Least(i, n) == i
    ensures i >= n ==> Least(i, n) == n
  {
  }

  lemma NothingPacked(window: seq<Byte>, inStream: seq<Packet>)
    requires |window| == 16 && inStream != []
    ensures Least(0, |inStream| - 1) == 0 && WithoutEnds(inStream[..0]) && InWindow([], window, 0, Bytes(inStream[..0]))
  {
    assert inStream[..0] == [];
    NoBytes();
    assert Bytes([]) + window[..0] == [];
  }

  lemma PacketAt(inStream: seq<Packet>, i: nat)
    requires inStream != [] && inStream[|inStream| - 1].strobe == 0 && WellFormed(inStream[|inStream| - 1])
    requires WithoutEnds(inStream[..|inStream| - 1]) && i < |inStream|
    ensures Least(i, |inStream| - 1) == i && WellFormed(inStream[i]) && inStream[i].strobe <= 8
    ensures inStream[i].strobe == 0 <==> i + 1 == |inStream|
    ensures WithoutEnds(inStream[..i]) && WithoutEnds(inStream[..Least(i + 1, |inStream| - 1)])
    ensures Bytes(inStream[..i]) + inStream[i].data[..inStream[i].strobe] == Bytes(inStream[..Least(i + 1, |inStream| - 1)])
  {
    var front := inStream[..|inStream| - 1];
    assert inStream[..i] == front[..i];
    if i < |front| {
      assert Proper(front[i]);
      BytesAppend(front[..i], front[i]);
      hide Bytes;
      assert inStream[..i + 1] == front[..i] + [front[i]];
    } else {
      hide Bytes;
      assert inStream[i].data[..0] == [];
      assert Bytes(front) + [] == Bytes(front);
    }
  }

  lemma LastWord(out: seq<Packet>, window: seq<Byte>, idx: nat, bytes: seq<Byte>)
    requires InWindow(out, window, idx, bytes)
    ensures |window| == 16
    ensures idx != 0 ==> Finished(out + [Packet(window[..8], idx)] + [Packet(window[..8], 0)], bytes)
    ensures idx == 0 ==> Finished(out + [Packet(window[..8], 0)], bytes)
  {
    WindowIs(out, window, idx, bytes);
    hide *;
    if idx != 0 {
      ShorterWord(out, window, idx);
      Finish(out + [Packet(window[..8], idx)], Packet(window[..8], 0), bytes);
    } else {
      assert Bytes(out) + window[..0] == Bytes(out);
      EightsFront(out);
      Finish(out, Packet(window[..8], 0), bytes);
    }
  }

  ghost predicate Finished(all: seq<Packet>, bytes: seq<Byte>) {
    GapFree(all) && Bytes(all[..|all| - 1]) == bytes
  }

  // All but perhaps the last are whole words.
  ghost predicate FrontEights(front: seq<Packet>) {
    forall k :: 0 <= k < |front| - 1 ==> front[k].strobe == 8
  }

  lemma EightsFront(out: seq<Packet>)
    requires Eights(out)
    ensures FrontEights(out)
  {
  }

  lemma ShorterWord(out: seq<Packet>, window: seq<Byte>, idx: nat)
    requires WithoutEnds(out) && Eights(out) && |window| == 16 && 0 < idx < 8
    ensures WithoutEnds(out + [Packet(window[..8], idx)]) && FrontEights(out + [Packet(window[..8], idx)])
    ensures Bytes(out + [Packet(window[..8], idx)]) == Bytes(out) + window[..idx]
  {
    BytesAppend(out, Packet(window[..8], idx));
    hide Bytes, WithoutEnds;
    assert window[..8][..idx] == window[..idx];
  }

  lemma Finish(front: seq<Packet>, end: Packet, bytes: seq<Byte>)
    requires WithoutEnds(front) && FrontEights(front) && Bytes(front) == bytes && end.strobe == 0
    ensures Finished(front + [end], bytes)
  {
    hide Bytes, WithoutEnds;
    assert (front + [end])[..|front|] == front;
  }
}
