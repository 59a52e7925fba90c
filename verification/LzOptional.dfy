// Between match finder and encoder: dropping matches that a better one overlaps, and boosting the
// matches that remain.

module LzOptional {
  import opened LzCore
  import opened RingBuffer

  // ---------- lzBestMatchFilter ----------

  // The match j + 1 positions later is longer, even after the delay.
  predicate Overtakes(toks: seq<Token>, i: nat, j: nat)
    requires i + 1 + j < |toks|
  {
    toks[i].len + j < toks[i + 1 + j].len
  }

  // Some match starting up to n positions later is longer.
  predicate Beaten(toks: seq<Token>, i: nat, n: nat)
    requires i + n < |toks|
  {
    exists j :: 0 <= j < n && Overtakes(toks, i, j)
  }

  function Dropped(t: Token): Token { Token(t.ch, 0, 0) }

  ghost predicate Filtered(toks: seq<Token>, out: seq<Token>, n: nat) {
    && |out| <= |toks|
    && forall i :: 0 <= i < |out| ==> out[i] == if i + n < |toks| && Beaten(toks, i, n) then Dropped(toks[i]) else toks[i]
  }

  method LzBestMatchFilter(toks: seq<Token>, matchLen: nat) returns (out: seq<Token>)
    requires toks == [] || |toks| >= matchLen
    ensures |out| == |toks| && Filtered(toks, out, matchLen)
  {
    out := [];
    if |toks| == 0 { return; }
    hide Beaten;
    var window := toks[..matchLen];
    var i: nat := 0;
    while i + matchLen < |toks|
      invariant i + matchLen <= |toks| && |out| == i
      invariant window == toks[i..i + matchLen]
      invariant Filtered(toks, out, matchLen)
    {
      var outValue;
      outValue, window := PopPush(toks, i, i + matchLen, window, toks[i + matchLen]);
      var beaten := LookAhead(outValue, window, toks, i);
      if beaten { outValue := Dropped(outValue); }
      out := out + [outValue];
      i := i + 1;
    }
    out := out + window;
  }

  method LookAhead(t: Token, window: seq<Token>, ghost toks: seq<Token>, ghost i: nat) returns (beaten: bool)
    requires i + |window| < |toks| && t == toks[i] && window == toks[i + 1..i + 1 + |window|]
    ensures beaten <==> Beaten(toks, i, |window|)
  {
    var bestMatch := true;
    var j := 0;
    while j < |window|
      invariant 0 <= j <= |window|
      invariant bestMatch <==> forall m :: 0 <= m < j ==> !Overtakes(toks, i, m)
    {
      assert Overtakes(toks, i, j) <==> t.len + j < window[j].len;
      if t.len + j < window[j].len { bestMatch := false; }
      j := j + 1;
    }
    beaten := !bestMatch;
  }

  // The streaming version holds one token back and compares it with the next one only.
  method LzBestMatchFilterBlock(toks: seq<Token>) returns (out: seq<Token>)
    requires toks != []
    ensures |out| == |toks| && Filtered(toks, out, 1)
  {
    out := [];
    var compareWindow := toks[0];
    var next := 1;
    while next < |toks|
      invariant 1 <= next <= |toks| && |out| == next - 1 && compareWindow == toks[next - 1]
      invariant Filtered(toks, out, 1)
    {
      var outValue := compareWindow;
      compareWindow := toks[next];
      NextOnly(toks, next - 1);
      if outValue.len < compareWindow.len { outValue := Dropped(outValue); }
      out := out + [outValue];
      next := next + 1;
    }
    out := out + [compareWindow];
  }

  lemma NextOnly(toks: seq<Token>, i: nat)
    requires i + 1 < |toks|
    ensures Beaten(toks, i, 1) <==> toks[i].len < toks[i + 1].len
  {
    assert Overtakes(toks, i, 0) <==> toks[i].len < toks[i + 1].len;
  }

  // Block by block; a block without tokens looks like the end of the data.
  method LzBestMatchFilterStream(blocks: seq<seq<Token>>) returns (out: seq<seq<Token>>)
    ensures |out| <= |blocks| && (|out| < |blocks| ==> blocks[|out|] == [])
    ensures forall k :: 0 <= k < |out| ==> blocks[k] != [] && |out[k]| == |blocks[k]| && Filtered(blocks[k], out[k], 1)
  {
    hide Filtered;
    out := [];
    while |out| < |blocks| && blocks[|out|] != []
      invariant |out| <= |blocks|
      invariant forall k :: 0 <= k < |out| ==> blocks[k] != [] && |out[k]| == |blocks[k]| && Filtered(blocks[k], out[k], 1)
    {
      var toks := LzBestMatchFilterBlock(blocks[|out|]);
      out := out + [toks];
    }
  }

  // ---------- What the stages hand on ----------

  // What the template parameters allow a match to be.
  datatype Limits = Limits(minMatch: nat, maxMatch: nat, maxOffset: nat)

  // One token for every position, each telling the truth; matches end before the left-over bytes.
  ghost predicate Annotated(input: seq<Byte>, toks: seq<Token>, lim: Limits, left: nat) {
    && |toks| == |input|
    && forall i :: 0 <= i < |toks| ==>
         && Genuine(input, i, toks[i])
         && (toks[i].len == 0 ==> toks[i].offset == 0)
         && (toks[i].len > 0 ==> lim.minMatch <= toks[i].len <= lim.maxMatch && i + toks[i].len + left <= |input| && 1 <= toks[i].offset < lim.maxOffset)
  }

  lemma FilterKeepsTruth(input: seq<Byte>, toks: seq<Token>, out: seq<Token>, n: nat, lim: Limits, left: nat)
    requires Annotated(input, toks, lim, left) && |out| == |toks| && Filtered(toks, out, n)
    ensures Annotated(input, out, lim, left)
  {
    forall i | 0 <= i < |out| ensures Genuine(input, i, out[i]) {
      assert Genuine(input, i, toks[i]);
    }
  }

  // ---------- lzBooster ----------

  // The registers of the booster; `value` is the token waiting to be sent.
  datatype Boost = Boost(matchLoc: nat, matchLen: nat, value: Token, matchFlag: bool, skipLen: nat, nextMatchCh: Byte)

  // The token waiting started at position q, and i - q bytes of it have gone by. `first` is the
  // token as it came in.
  ghost predicate Waiting(b: Boost, input: seq<Byte>, i: nat, q: nat, first: Token, maxMatch: nat, window: nat) {
    && q < i <= |input| && Genuine(input, q, first)
    && b.value.ch == first.ch && b.value.offset == first.offset
    && (first.len == 0 ==> b.value == first && !b.matchFlag && b.skipLen == 0 && i == q + 1)
    && (first.len > 0 && !b.matchFlag ==> first.offset >= window && b.value == first && b.skipLen == q + first.len - i)
    && (first.len > 0 && b.matchFlag ==>
          && first.offset < window && b.skipLen == 0
          && b.matchLen == i - q <= maxMatch && Repeats(input, q, first.offset + 1, i - q)
          && b.value.len == (if i == q + 1 then first.len else i - q)
          && b.nextMatchCh == input[i - 1 - first.offset] && b.matchLoc == i - 1 - first.offset)
  }

  // The waiting token is complete: it covers exactly the bytes that have gone by.
  ghost predicate Complete(b: Boost, input: seq<Byte>, i: nat, q: nat, first: Token, lim: Limits) {
    && q < i <= |input| && q + Span(b.value) == i && Genuine(input, q, b.value)
    && (b.value.len > 0 ==> lim.minMatch <= b.value.len <= lim.maxMatch && b.value.offset == first.offset)
    && (first.len == 0 ==> b.value.len == 0)
  }

  // A waiting token is sent only once it is complete.
  lemma WaitingCompletes(b: Boost, input: seq<Byte>, i: nat, q: nat, first: Token, lim: Limits, window: nat)
    requires Waiting(b, input, i, q, first, lim.maxMatch, window)
    requires first.len > 0 ==> 2 <= lim.minMatch <= first.len <= lim.maxMatch && q + first.len <= |input|
    requires b.skipLen == 0
    requires b.matchFlag ==> i == |input| || q + first.len <= i || b.matchLen >= lim.maxMatch || input[i] != b.nextMatchCh
    ensures Complete(b, input, i, q, first, lim)
  {
    assert first.len > 0 ==> forall m :: q <= m < q + first.len ==> input[m] == input[m - (first.offset + 1)];
  }

  // What becomes of the token that came in for position q: a literal stays, a match beyond the
  // booster's memory stays, and any other match goes on until the limit, a mismatch or the end of
  // what is boosted.
  ghost predicate Kept(t: Token, first: Token, input: seq<Byte>, q: nat, end: nat, lim: Limits, window: nat) {
    && t.ch == first.ch && t.offset == first.offset && t.len >= first.len
    && (first.len == 0 || first.offset >= window ==> t == first)
    && (first.len > 0 && first.offset < window ==>
          && q + t.len <= end
          && (t.len == lim.maxMatch || q + t.len == end
              || (first.offset < q + t.len < |input| && input[q + t.len] != input[q + t.len - 1 - first.offset])))
  }

  // The tokens sent for the first q positions: each comes from the token of the position it starts at.
  ghost predicate Boosted(out: seq<Token>, input: seq<Byte>, toks: seq<Token>, q: nat, end: nat, lim: Limits, window: nat)
    decreases |out|
  {
    if out == [] then q == 0
    else
      var t := out[|out| - 1];
      && 0 <= q - Span(t) < |toks|
      && Boosted(out[..|out| - 1], input, toks, q - Span(t), end, lim, window)
      && Kept(t, toks[q - Span(t)], input, q - Span(t), end, lim, window)
  }

  lemma BoostedAppend(out: seq<Token>, input: seq<Byte>, toks: seq<Token>, q: nat, end: nat, lim: Limits, window: nat, t: Token)
    requires Boosted(out, input, toks, q, end, lim, window) && q < |toks| && Kept(t, toks[q], input, q, end, lim, window)
    ensures Boosted(out + [t], input, toks, q + Span(t), end, lim, window)
  {
    hide Kept;
    assert (out + [t])[..|out|] == out;
  }

  // A complete token is sent at the end, at the limit, or because the match does not go on.
  lemma CompleteIsKept(b: Boost, input: seq<Byte>, i: nat, q: nat, first: Token, end: nat, lim: Limits, window: nat)
    requires Waiting(b, input, i, q, first, lim.maxMatch, window) && Complete(b, input, i, q, first, lim) && b.skipLen == 0
    requires first.len <= lim.maxMatch && q + first.len <= end && i <= end <= |input|
    requires b.matchFlag ==> i == end || b.matchLen >= lim.maxMatch || input[i] != b.nextMatchCh
    requires first.len > 0 ==> 2 <= first.len
    ensures Kept(b.value, first, input, q, end, lim, window)
  {
    assert first.len > 0 ==> forall m :: q <= m < q + first.len ==> input[m] == input[m - (first.offset + 1)];
  }

  // One position of the booster's loop, as a relation: either the waiting match goes on, or it is
  // sent and a new token waits.
  ghost predicate Advanced(b: Boost, b': Boost, emitted: seq<Token>, mem': seq<Byte>, i: nat, t: Token, maxMatch: nat) {
    |mem'| > 0 && t.offset <= i &&
    if b.skipLen > 0 then
      emitted == [] && b' == b.(skipLen := b.skipLen - 1, nextMatchCh := mem'[b.matchLoc % |mem'|])
    else if b.matchFlag && b.matchLen < maxMatch && t.ch == b.nextMatchCh then
      emitted == [] && b' == b.(matchLen := b.matchLen + 1, matchLoc := b.matchLoc + 1,
                                value := b.value.(len := b.matchLen + 1), nextMatchCh := mem'[(b.matchLoc + 1) % |mem'|])
    else
      && emitted == (if i > 0 then [b.value] else [])
      && b' == Boost(i - t.offset, 1, t, t.len > 0 && t.offset < |mem'|,
                     if t.len > 0 && t.offset >= |mem'| then t.len - 1 else 0, mem'[(i - t.offset) % |mem'|])
  }

  // `emitted` is what is sent.
  method Advance(b: Boost, mem: array<Byte>, i: nat, inValue: Token, maxMatch: nat)
    returns (b': Boost, emitted: seq<Token>)
    requires mem.Length > 0 && (inValue.len == 0 ==> inValue.offset == 0) && inValue.offset <= i
    modifies mem
    ensures mem[..] == old(mem[..])[i % mem.Length := inValue.ch]
    ensures Advanced(b, b', emitted, mem[..], i, inValue, maxMatch)
  {
    b' := b;
    emitted := [];
    var boostFlag := inValue.offset < mem.Length;
    var matchCh := b.nextMatchCh;
    mem[i % mem.Length] := inValue.ch;
    if b.skipLen > 0 {
      b' := b'.(skipLen := b'.skipLen - 1);
    } else if b.matchFlag && b.matchLen < maxMatch && inValue.ch == matchCh {
      b' := b'.(matchLen := b'.matchLen + 1, matchLoc := b'.matchLoc + 1);
      b' := b'.(value := b'.value.(len := b'.matchLen));
    } else {
      b' := b'.(matchLen := 1, matchLoc := i - inValue.offset);
      if i > 0 { emitted := [b.value]; }
      b' := b'.(value := inValue);
      if inValue.len > 0 {
        if boostFlag {
          b' := b'.(matchFlag := true, skipLen := 0);
        } else {
          b' := b'.(matchFlag := false, skipLen := inValue.len - 1);
        }
      } else {
        b' := b'.(matchFlag := false);
      }
    }
    b' := b'.(nextMatchCh := mem[b'.matchLoc % mem.Length]);
  }

  // The tokens sent account for the first q bytes, and their matches are usable.
  ghost predicate Sent(out: seq<Token>, input: seq<Byte>, q: nat, lim: Limits) {
    && Parses(out, input, q)
    && forall k :: 0 <= k < |out| ==> out[k].len == 0 || (lim.minMatch <= out[k].len <= lim.maxMatch && 1 <= out[k].offset < lim.maxOffset)
  }

  ghost predicate Boosting(b: Boost, mem: seq<Byte>, input: seq<Byte>, toks: seq<Token>, i: nat, out: seq<Token>, q: nat,
                           lim: Limits)
  {
    && Ring(mem, input, i) && i <= |toks| == |input| && q <= i
    && Sent(out, input, q, lim)
    && (i == 0 ==> b.skipLen == 0 && !b.matchFlag)
    && (i > 0 ==> q < i && Waiting(b, input, i, q, toks[q], lim.maxMatch, |mem|))
  }

  // The match goes on: one more byte of it has gone by.
  lemma BoostContinues(b: Boost, b': Boost, mem: seq<Byte>, input: seq<Byte>, toks: seq<Token>, i: nat, out: seq<Token>, q: nat,
                       lim: Limits, left: nat)
    requires Boosting(b, mem, input, toks, i, out, q, lim) && i < |toks|
    requires Annotated(input, toks, lim, left) && lim.minMatch >= 2
    requires var mem' := mem[i % |mem| := toks[i].ch]; Advanced(b, b', [], mem', i, toks[i], lim.maxMatch)
    requires b.skipLen > 0 || (b.matchFlag && b.matchLen < lim.maxMatch && toks[i].ch == b.nextMatchCh)
    ensures Boosting(b', mem[i % |mem| := toks[i].ch], input, toks, i + 1, out, q, lim)
  {
    assert Genuine(input, i, toks[i]) && Genuine(input, q, toks[q]);
    RingNext(mem, input, i);
    hide Parses;
    var first := toks[q];
    if b.skipLen == 0 {
      assert input[i] == input[i - (first.offset + 1)];
    }
  }

  // A new token starts at i; the one that was waiting is complete and is sent.
  lemma BoostRestarts(b: Boost, b': Boost, emitted: seq<Token>, mem: seq<Byte>, input: seq<Byte>, toks: seq<Token>, i: nat,
                      out: seq<Token>, q: nat, lim: Limits, left: nat)
    requires Boosting(b, mem, input, toks, i, out, q, lim) && i < |toks|
    requires Annotated(input, toks, lim, left) && lim.minMatch >= 2
    requires var mem' := mem[i % |mem| := toks[i].ch]; Advanced(b, b', emitted, mem', i, toks[i], lim.maxMatch)
    requires b.skipLen == 0 && !(b.matchFlag && b.matchLen < lim.maxMatch && toks[i].ch == b.nextMatchCh)
    requires i + left <= |toks| && Boosted(out, input, toks, q, |toks| - left, lim, |mem|)
    ensures Boosting(b', mem[i % |mem| := toks[i].ch], input, toks, i + 1, out + emitted, i, lim)
    ensures Boosted(out + emitted, input, toks, i, |toks| - left, lim, |mem|)
  {
    hide Boosted, Kept;
    assert Genuine(input, i, toks[i]);
    RingNext(mem, input, i);
    if i > 0 {
      WaitingCompletes(b, input, i, q, toks[q], lim, |mem|);
      CompleteIsKept(b, input, i, q, toks[q], |toks| - left, lim, |mem|);
      BoostedAppend(out, input, toks, q, |toks| - left, lim, |mem|, b.value);
      SendComplete(b, input, i, q, toks, out, lim);
    } else {
      assert out + emitted == out;
    }
    hide Parses;
  }

  lemma SendComplete(b: Boost, input: seq<Byte>, i: nat, q: nat, toks: seq<Token>, out: seq<Token>, lim: Limits)
    requires q < |toks| && Complete(b, input, i, q, toks[q], lim)
    requires Sent(out, input, q, lim) && (toks[q].len > 0 ==> 1 <= toks[q].offset < lim.maxOffset)
    ensures Sent(out + [b.value], input, i, lim)
  {
    ParsesAppend(out, input, q, b.value);
  }

  // After the last boosted position, the waiting token is complete too.
  lemma BoostFinishes(b: Boost, mem: seq<Byte>, input: seq<Byte>, toks: seq<Token>, i: nat, out: seq<Token>, q: nat,
                      lim: Limits, left: nat)
    requires Boosting(b, mem, input, toks, i, out, q, lim) && i > 0 && i + left == |toks|
    requires Annotated(input, toks, lim, left) && lim.minMatch >= 2 && Boosted(out, input, toks, q, i, lim, |mem|)
    ensures Sent(out + [b.value], input, i, lim) && Boosted(out + [b.value], input, toks, i, i, lim, |mem|)
  {
    hide Parses, Boosted, Kept;
    assert Genuine(input, q, toks[q]);
    WaitingCompletes(b, input, i, q, toks[q], lim, |mem|);
    CompleteIsKept(b, input, i, q, toks[q], i, lim, |mem|);
    BoostedAppend(out, input, toks, q, i, lim, |mem|, b.value);
    SendComplete(b, input, i, q, toks, out, lim);
  }

  lemma SendLiteral(input: seq<Byte>, toks: seq<Token>, i: nat, out: seq<Token>, lim: Limits, left: nat)
    requires Annotated(input, toks, lim, left) && i < |toks| <= i + left
    requires Sent(out, input, i, lim)
    ensures toks[i].len == 0 && Sent(out + [toks[i]], input, i + 1, lim)
    ensures forall end: nat, window: nat :: Boosted(out, input, toks, i, end, lim, window) ==> Boosted(out + [toks[i]], input, toks, i + 1, end, lim, window)
  {
    assert Genuine(input, i, toks[i]);
    ParsesAppend(out, input, i, toks[i]);
    hide Boosted;
    forall end: nat, window: nat | Boosted(out, input, toks, i, end, lim, window)
      ensures Boosted(out + [toks[i]], input, toks, i + 1, end, lim, window)
    {
      BoostedAppend(out, input, toks, i, end, lim, window, toks[i]);
    }
  }

  // The sized version: the tokens sent account for the whole input, whatever was matched.
  method LzBooster(toks: seq<Token>, lim: Limits, window: nat, left: nat, ghost input: seq<Byte>)
    returns (out: seq<Token>)
    requires Annotated(input, toks, lim, left) && 2 <= lim.minMatch <= lim.maxMatch && window > 0
    requires toks == [] || |toks| > left
    ensures Sent(out, input, |input|, lim) && Boosted(out, input, toks, |input|, if toks == [] then 0 else |toks| - left, lim, window)
    ensures toks != [] && left > 0 ==> EndsWithLiteral(out)
  {
    out := [];
    assert |toks| == |input|;
    if |toks| == 0 { return; }
    hide *;
    var mem := new Byte[window](_ => 0);
    out := BoostPositions(toks, mem, lim, left, input);
    out := SendLeft(toks[|toks| - left..], out, toks, lim, left, input, |toks| - left, window);
  }

  const UNSTARTED := Boost(0, 0, Token(0, 0, 0), false, 0, 0)

  method BoostPositions(toks: seq<Token>, mem: array<Byte>, lim: Limits, left: nat, ghost input: seq<Byte>)
    returns (out: seq<Token>)
    requires Annotated(input, toks, lim, left) && 2 <= lim.minMatch <= lim.maxMatch && mem.Length > 0
    requires left < |toks| == |input|
    modifies mem
    ensures Sent(out, input, |toks| - left, lim) && Boosted(out, input, toks, |toks| - left, |toks| - left, lim, mem.Length)
  {
    hide *;
    out := [];
    var b := UNSTARTED;
    ghost var q: nat, end: nat := 0, |toks| - left;
    BoostStarts(mem[..], input, toks, lim, end);
    var i := 0;
    while i < |toks| - left
      invariant 0 <= i <= |toks| - left
      invariant Boosting(b, mem[..], input, toks, i, out, q, lim)
      invariant Boosted(out, input, toks, q, end, lim, mem.Length)
    {
      b, out, q := BoostOne(b, mem, i, toks[i], out, toks, q, lim, input, left);
      i := i + 1;
    }
    BoostFinishes(b, mem[..], input, toks, i, out, q, lim, left);
    out := out + [b.value];
  }

  method BoostOne(b: Boost, mem: array<Byte>, i: nat, inValue: Token, out: seq<Token>, ghost toks: seq<Token>, ghost q: nat, lim: Limits,
                  ghost input: seq<Byte>, ghost left: nat)
    returns (b': Boost, out': seq<Token>, ghost q': nat)
    requires Boosting(b, mem[..], input, toks, i, out, q, lim) && i < |toks| && inValue == toks[i]
    requires Annotated(input, toks, lim, left) && lim.minMatch >= 2 && mem.Length > 0
    requires i + left <= |toks| && Boosted(out, input, toks, q, |toks| - left, lim, mem.Length)
    modifies mem
    ensures Boosting(b', mem[..], input, toks, i + 1, out', q', lim) && Boosted(out', input, toks, q', |toks| - left, lim, mem.Length)
  {
    hide *;
    InRange(input, toks, i, lim, left);
    ghost var mem0 := mem[..];
    var emitted;
    b', emitted := Advance(b, mem, i, inValue, lim.maxMatch);
    q' := BoostStep(b, b', emitted, mem0, mem[..], input, toks, i, out, q, lim, left);
    out' := out + emitted;
  }

  // The left-over positions go out as they are: they are literals.
  method SendLeft(rest: seq<Token>, out0: seq<Token>, ghost toks: seq<Token>, ghost lim: Limits, ghost left: nat, ghost input: seq<Byte>,
                  ghost end: nat, ghost window: nat)
    returns (out: seq<Token>)
    requires Annotated(input, toks, lim, left) && |rest| <= |toks| == |input| && |rest| <= left && rest == toks[|toks| - |rest|..]
    requires Sent(out0, input, |toks| - |rest|, lim) && Boosted(out0, input, toks, |toks| - |rest|, end, lim, window)
    ensures Sent(out, input, |input|, lim) && Boosted(out, input, toks, |input|, end, lim, window)
    ensures |rest| > 0 ==> EndsWithLiteral(out)
  {
    hide *;
    out := out0;
    var i := 0;
    while i < |rest|
      invariant 0 <= i <= |rest|
      invariant Sent(out, input, |toks| - |rest| + i, lim) && Boosted(out, input, toks, |toks| - |rest| + i, end, lim, window)
      invariant i > 0 ==> EndsWithLiteral(out)
    {
      SendLiteral(input, toks, |toks| - |rest| + i, out, lim, left);
      LiteralLast(out, rest[i]);
      out := out + [rest[i]];
      i := i + 1;
    }
  }

  ghost predicate EndsWithLiteral(toks: seq<Token>) {
    toks != [] && toks[|toks| - 1].len == 0
  }

  lemma LiteralLast(toks: seq<Token>, t: Token)
    requires t.len == 0
    ensures EndsWithLiteral(toks + [t])
  {
  }

  // The streaming version, one block: the left-over tokens wait in a FIFO until the block ends.
  method LzBoosterBlock(toks: seq<Token>, lim: Limits, blockSize: nat, offsetWindow: nat, left: nat, ghost input: seq<Byte>)
    returns (out: seq<Token>)
    requires Annotated(input, toks, lim, left) && 2 <= lim.minMatch <= lim.maxMatch && blockSize > 0 && offsetWindow > 0
    requires |toks| > left
    ensures Sent(out, input, |input|, lim)
    ensures Boosted(out, input, toks, |input|, |toks| - left, lim, if blockSize < offsetWindow then blockSize else offsetWindow)
    ensures left > 0 ==> EndsWithLiteral(out)
  {
    assert |toks| == |input|;
    hide *;
    var window := if blockSize < offsetWindow then blockSize else offsetWindow;
    var mem := new Byte[window](_ => 0);
    var fifo := toks[..left];
    out, fifo := BoostBehind(toks, fifo, mem, lim, left, input);
    out := SendLeft(fifo, out, toks, lim, left, input, |toks| - left, window);
  }

  method BoostBehind(toks: seq<Token>, fifo0: seq<Token>, mem: array<Byte>, lim: Limits, left: nat, ghost input: seq<Byte>)
    returns (out: seq<Token>, fifo: seq<Token>)
    requires Annotated(input, toks, lim, left) && 2 <= lim.minMatch <= lim.maxMatch && mem.Length > 0
    requires left < |toks| == |input| && fifo0 == toks[..left]
    modifies mem
    ensures Sent(out, input, |toks| - left, lim) && fifo == toks[|toks| - left..]
    ensures Boosted(out, input, toks, |toks| - left, |toks| - left, lim, mem.Length)
  {
    hide *;
    out, fifo := [], fifo0;
    var b := UNSTARTED;
    ghost var q: nat, end: nat := 0, |toks| - left;
    BoostStarts(mem[..], input, toks, lim, end);
    var iIdx: nat, next: nat := 0, left;
    while next < |toks|
      invariant next == iIdx + left <= |toks|
      invariant fifo == toks[iIdx..next]
      invariant Boosting(b, mem[..], input, toks, iIdx, out, q, lim)
      invariant Boosted(out, input, toks, q, end, lim, mem.Length)
    {
      var inValue;
      inValue, fifo := PopPush(toks, iIdx, next, fifo, toks[next]);
      b, out, q := BoostOne(b, mem, iIdx, inValue, out, toks, q, lim, input, left);
      iIdx, next := iIdx + 1, next + 1;
    }
    assert iIdx == end;
    BoostFinishes(b, mem[..], input, toks, iIdx, out, q, lim, left);
    out := out + [b.value];
  }

  lemma BoostStarts(mem: seq<Byte>, input: seq<Byte>, toks: seq<Token>, lim: Limits, end: nat)
    requires |mem| > 0 && |toks| == |input|
    ensures Boosting(UNSTARTED, mem, input, toks, 0, [], 0, lim) && Boosted([], input, toks, 0, end, lim, |mem|)
  {
  }

  lemma InRange(input: seq<Byte>, toks: seq<Token>, i: nat, lim: Limits, left: nat)
    requires Annotated(input, toks, lim, left) && i < |toks|
    ensures (toks[i].len == 0 ==> toks[i].offset == 0) && toks[i].offset <= i
  {
    assert Genuine(input, i, toks[i]);
  }

  lemma BoostStep(b: Boost, b': Boost, emitted: seq<Token>, mem: seq<Byte>, mem': seq<Byte>, input: seq<Byte>, toks: seq<Token>,
                  i: nat, out: seq<Token>, q: nat, lim: Limits, left: nat) returns (q': nat)
    requires Boosting(b, mem, input, toks, i, out, q, lim) && i < |toks|
    requires Annotated(input, toks, lim, left) && lim.minMatch >= 2
    requires |mem| > 0 && mem' == mem[i % |mem| := toks[i].ch] && Advanced(b, b', emitted, mem', i, toks[i], lim.maxMatch)
    requires i + left <= |toks| && Boosted(out, input, toks, q, |toks| - left, lim, |mem|)
    ensures Boosting(b', mem', input, toks, i + 1, out + emitted, q', lim) && Boosted(out + emitted, input, toks, q', |toks| - left, lim, |mem|)
  {
    hide Boosting, Annotated, Boosted;
    if b.skipLen > 0 || (b.matchFlag && b.matchLen < lim.maxMatch && toks[i].ch == b.nextMatchCh) {
      BoostContinues(b, b', mem, input, toks, i, out, q, lim, left);
      assert out + emitted == out;
      q' := q;
    } else {
      BoostRestarts(b, b', emitted, mem, input, toks, i, out, q, lim, left);
      q' := i;
    }
  }

  // ---------- The filter and the booster determine what is sent ----------

  lemma OnlyFiltered(toks: seq<Token>, s: seq<Token>, t: seq<Token>, n: nat)
    requires Filtered(toks, s, n) && Filtered(toks, t, n) && |s| == |t|
    ensures s == t
  {
    hide Beaten;
    forall i | 0 <= i < |s| ensures s[i] == t[i] {}
  }

  lemma GoesOn(input: seq<Byte>, q: nat, t: Token, n: nat)
    requires Genuine(input, q, t) && n < t.len
    ensures t.offset < q + n < |input| && input[q + n] == input[q + n - 1 - t.offset]
  {
    assert input[q + n] == input[q + n - (t.offset + 1)];
  }

  // A match sent cannot stop at two places.
  lemma OneKept(s: Token, t: Token, first: Token, input: seq<Byte>, q: nat, end: nat, lim: Limits, window: nat)
    requires Kept(s, first, input, q, end, lim, window) && Genuine(input, q, s) && s.len <= lim.maxMatch
    requires Kept(t, first, input, q, end, lim, window) && Genuine(input, q, t) && t.len <= lim.maxMatch
    ensures s == t
  {
    hide Genuine;
    if s.len < t.len {
      GoesOn(input, q, t, s.len);
    } else if t.len < s.len {
      GoesOn(input, q, s, t.len);
    }
  }

  // The position at which token k starts.
  lemma {:induction false} BoostedAt(out: seq<Token>, input: seq<Byte>, toks: seq<Token>, q: nat, end: nat, lim: Limits, window: nat, k: nat)
    returns (at: nat)
    requires Boosted(out, input, toks, q, end, lim, window) && Parses(out, input, q) && k <= |out|
    ensures Parses(out[..k], input, at) && (k == |out| ==> at == q)
    ensures k < |out| ==> at + Span(out[k]) <= q && at < |toks| && Genuine(input, at, out[k]) && Kept(out[k], toks[at], input, at, end, lim, window)
    decreases |out|
  {
    hide Kept, Genuine;
    if k == |out| {
      at := q;
      assert out[..k] == out;
    } else {
      var n := |out| - 1;
      if k == n {
        at := q - Span(out[n]);
      } else {
        at := BoostedAt(out[..n], input, toks, q - Span(out[n]), end, lim, window, k);
        assert out[..n][..k] == out[..k] && out[..n][k] == out[k];
      }
    }
  }

  lemma {:induction false} OneEnd(out: seq<Token>, input: seq<Byte>, p: nat, q: nat)
    requires Parses(out, input, p) && Parses(out, input, q)
    ensures p == q
    decreases |out|
  {
    hide Genuine;
    if out != [] {
      var n := |out| - 1;
      OneEnd(out[..n], input, p - Span(out[n]), q - Span(out[n]));
    }
  }

  lemma {:induction false} SameStart(s: seq<Token>, t: seq<Token>, input: seq<Byte>, toks: seq<Token>, q: nat, end: nat, lim: Limits,
                                     window: nat, k: nat)
    requires Sent(s, input, q, lim) && Boosted(s, input, toks, q, end, lim, window)
    requires Sent(t, input, q, lim) && Boosted(t, input, toks, q, end, lim, window)
    requires k <= |s| && k <= |t|
    ensures s[..k] == t[..k]
    decreases k
  {
    hide Boosted, Parses, Kept, Genuine;
    if k > 0 {
      SameStart(s, t, input, toks, q, end, lim, window, k - 1);
      var a := BoostedAt(s, input, toks, q, end, lim, window, k - 1);
      var b := BoostedAt(t, input, toks, q, end, lim, window, k - 1);
      OneEnd(s[..k - 1], input, a, b);
      OneKept(s[k - 1], t[k - 1], toks[a], input, a, end, lim, window);
    }
  }

  // The tokens that came in determine the tokens sent.
  lemma OnlyBoosted(s: seq<Token>, t: seq<Token>, input: seq<Byte>, toks: seq<Token>, q: nat, end: nat, lim: Limits, window: nat)
    requires Sent(s, input, q, lim) && Boosted(s, input, toks, q, end, lim, window)
    requires Sent(t, input, q, lim) && Boosted(t, input, toks, q, end, lim, window)
    ensures s == t
  {
    hide Boosted, Parses, Kept, Genuine;
    if |s| <= |t| {
      SameStart(s, t, input, toks, q, end, lim, window, |s|);
      NoMore(s, t, input, toks, q, end, lim, window);
    } else {
      SameStart(t, s, input, toks, q, end, lim, window, |t|);
      NoMore(t, s, input, toks, q, end, lim, window);
    }
  }

  lemma NoMore(s: seq<Token>, t: seq<Token>, input: seq<Byte>, toks: seq<Token>, q: nat, end: nat, lim: Limits, window: nat)
    requires |s| <= |t| && s[..|s|] == t[..|s|] && Parses(s, input, q)
    requires Parses(t, input, q) && Boosted(t, input, toks, q, end, lim, window)
    ensures s == t
  {
    hide Boosted, Parses, Kept, Genuine;
    var at := BoostedAt(t, input, toks, q, end, lim, window, |s|);
    assert t[..|s|] == s;
    OneEnd(s, input, q, at);
  }
}
