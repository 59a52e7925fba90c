// The unit that cuts literal runs and matches into the steps of the wide decompressor.

module LzPreProcess {
  import opened LzCore
  import opened WideCopy
  import opened Modular

  // The word handed on: where the match starts, modulo the index width, and what to do.
  datatype Info = Info(matchLoc: nat, matchLen: nat, litLen: nat, state: nat, reg: bool)

  const LITERAL: nat := 0
  const MATCH: nat := 1
  const DONE: nat := 3

  datatype Triple = Triple(litLen: nat, matchLen: nat, offset: nat)

  function TripleOf(it: Item): Triple { Triple(|it.lits|, it.matchLen, it.offset) }

  function LowOffset(p: nat): nat { 6 * p }

  // The word for a step taken when `pos` bytes are out.
  function InfoOf(s: Step, pos: nat, p: nat, wrap: nat): Info
    requires wrap > 0 && (s.Mat? ==> s.d <= pos)
  {
    match s
    case Lit(bytes) => Info(0, 0, |bytes|, LITERAL, false)
    case Mat(d, n) => Info(Wrapped(pos - d, wrap), n, 0, MATCH, d < LowOffset(p))
  }

  function InfosOf(steps: seq<Step>, p: nat, wrap: nat): (r: seq<Info>)
    requires StepsSound(steps) && wrap > 0
    ensures |r| == |steps|
  {
    if steps == [] then []
    else
      var before := steps[..|steps| - 1];
      InfosOf(before, p, wrap) + [InfoOf(steps[|steps| - 1], |Perform(before)|, p, wrap)]
  }

  // Steps fit the decompressor: at most p bytes each, and never more than `far` back unless the
  // registers serve them.
  ghost predicate Fits(steps: seq<Step>, p: nat, far: nat) {
    forall k :: 0 <= k < |steps| ==> FitsOne(steps[k], p, far)
  }

  ghost predicate FitsOne(s: Step, p: nat, far: nat) {
    match s
    case Lit(bytes) => 0 < |bytes| <= p
    case Mat(d, n) => 0 < n <= p && (d < LowOffset(p) || d <= far)
  }

  // What is left of the current item: literals, match bytes, and the distance, doubled so far.
  datatype Rest = Rest(lits: seq<Byte>, matchLen: nat, offset: nat)

  // The steps so far and the rest of the current item make up the first k items.
  ghost predicate Cutting(items: seq<Item>, k: nat, steps: seq<Step>, r: Rest, p: nat, far: nat) {
    && k <= |items| && ItemsSound(items[..k]) && StepsSound(steps) && Fits(steps, p, far)
    && (r.matchLen > 0 ==> 1 <= r.offset <= |Perform(steps)| + |r.lits|)
    && Expand(items[..k]) == Extend(Perform(steps), r.lits, r.matchLen, r.offset)
    && (r.offset < LowOffset(p) || r.offset <= far || r.matchLen == 0)
  }

  // ---------- The steps ----------

  lemma CutLiterals(items: seq<Item>, k: nat, steps: seq<Step>, r: Rest, p: nat, far: nat, n: nat)
    requires Cutting(items, k, steps, r, p, far) && 0 < n <= |r.lits| && n <= p
    ensures Cutting(items, k, steps + [Lit(r.lits[..n])], r.(lits := r.lits[n..]), p, far)
    ensures |Perform(steps + [Lit(r.lits[..n])])| == |Perform(steps)| + n
  {
    hide Expand, ItemsSound;
    PerformAppend(steps, Lit(r.lits[..n]));
    hide Perform, StepsSound, Copy;
    var out := Perform(steps);
    assert out + r.lits[..n] + r.lits[n..] == out + r.lits;
    assert FitsOne(Lit(r.lits[..n]), p, far);
  }

  lemma CutMatch(items: seq<Item>, k: nat, steps: seq<Step>, r: Rest, p: nat, far: nat, c: nat)
    requires Cutting(items, k, steps, r, p, far) && r.lits == [] && r.matchLen > 0 && p > 0
    requires c == Chunk(r.offset, r.matchLen, p)
    ensures c <= r.matchLen && r.offset <= |Perform(steps)| && StepsSound(steps + [Mat(r.offset, c)])
    ensures Cutting(items, k, steps + [Mat(r.offset, c)], Rest([], r.matchLen - c, Doubled(r.offset, p)), p, far)
    ensures |Perform(steps + [Mat(r.offset, c)])| == |Perform(steps)| + c
  {
    hide Expand, ItemsSound, Copy, Chunk;
    var out := Perform(steps);
    assert out + [] == out;
    ChunkedCopy(out, r.offset, r.matchLen, p, c);
    PerformAppend(steps, Mat(r.offset, c));
    hide Perform, StepsSound;
    var out' := Do(out, Mat(r.offset, c));
    assert out' + [] == out';
    assert FitsOne(Mat(r.offset, c), p, far);
  }

  lemma InfosAppend(steps: seq<Step>, s: Step, p: nat, wrap: nat)
    requires StepsSound(steps + [s]) && wrap > 0
    ensures StepsSound(steps) && (s.Mat? ==> s.d <= |Perform(steps)|)
    ensures InfosOf(steps + [s], p, wrap) == InfosOf(steps, p, wrap) + [InfoOf(s, |Perform(steps)|, p, wrap)]
  {
    assert (steps + [s])[..|steps|] == steps;
  }

  // Between items.
  lemma TakeItem(items: seq<Item>, k: nat, steps: seq<Step>, r: Rest, p: nat, far: nat)
    requires Cutting(items, k, steps, r, p, far) && r.lits == [] && r.matchLen == 0 && k < |items| && ItemsSound(items)
    requires items[k].matchLen > 0 ==> items[k].offset < LowOffset(p) || items[k].offset <= far
    ensures Cutting(items, k + 1, steps, Rest(items[k].lits, items[k].matchLen, items[k].offset), p, far)
    ensures |Expand(items[..k])| == |Perform(steps)|
  {
    hide Copy;
    ItemsPrefix(items, k + 1);
    assert items[..k + 1] == items[..k] + [items[k]];
    ExpandAppend(items[..k], items[k]);
    assert Perform(steps) + [] == Perform(steps);
    hide Expand, Perform, ItemsSound;
  }

  lemma {:induction false} ItemsPrefix(items: seq<Item>, k: nat)
    requires ItemsSound(items) && k <= |items|
    ensures ItemsSound(items[..k])
    decreases |items|
  {
    if k < |items| {
      assert items[..|items| - 1][..k] == items[..k];
      ItemsPrefix(items[..|items| - 1], k);
    } else {
      assert items[..k] == items;
    }
  }

  // ---------- The literal words ----------

  // A run of literals takes whole words; only its last word may be short.
  function Chops(lits: seq<Byte>, p: nat): seq<seq<Byte>>
    requires p > 0
  {
    if lits == [] then []
    else if |lits| <= p then [lits]
    else [lits[..p]] + Chops(lits[p..], p)
  }

  function AllChops(items: seq<Item>, p: nat): seq<seq<Byte>>
    requires p > 0
  {
    if items == [] then [] else AllChops(items[..|items| - 1], p) + Chops(items[|items| - 1].lits, p)
  }

  function Literals(steps: seq<Step>): seq<seq<Byte>> {
    if steps == [] then []
    else
      var s := steps[|steps| - 1];
      Literals(steps[..|steps| - 1]) + (if s.Lit? then [s.bytes] else [])
  }

  ghost predicate Chopping(items: seq<Item>, k: nat, steps: seq<Step>, lits: seq<Byte>, p: nat) {
    p > 0 && k <= |items| && Literals(steps) + Chops(lits, p) == AllChops(items[..k], p)
  }

  lemma ChopLiterals(items: seq<Item>, k: nat, steps: seq<Step>, lits: seq<Byte>, p: nat, n: nat)
    requires Chopping(items, k, steps, lits, p) && 0 < |lits| && n == if |lits| > p then p else |lits|
    ensures Chopping(items, k, steps + [Lit(lits[..n])], lits[n..], p)
  {
    assert (steps + [Lit(lits[..n])])[..|steps|] == steps;
    hide AllChops, Literals;
    if |lits| <= p { assert lits[..n] == lits && lits[n..] == []; }
    assert Chops(lits, p) == [lits[..n]] + Chops(lits[n..], p);
    assert Literals(steps) + [lits[..n]] + Chops(lits[n..], p) == Literals(steps) + ([lits[..n]] + Chops(lits[n..], p));
    LiteralsAppend(steps, lits[..n]);
  }

  lemma LiteralsAppend(steps: seq<Step>, bytes: seq<Byte>)
    ensures Literals(steps + [Lit(bytes)]) == Literals(steps) + [bytes]
  {
    assert (steps + [Lit(bytes)])[..|steps|] == steps;
  }

  lemma ChopMatch(items: seq<Item>, k: nat, steps: seq<Step>, lits: seq<Byte>, p: nat, d: nat, n: nat)
    requires Chopping(items, k, steps, lits, p)
    ensures Chopping(items, k, steps + [Mat(d, n)], lits, p)
  {
    assert (steps + [Mat(d, n)])[..|steps|] == steps;
    assert Literals(steps) + [] == Literals(steps);
  }

  lemma ChopItem(items: seq<Item>, k: nat, steps: seq<Step>, p: nat)
    requires Chopping(items, k, steps, [], p) && k < |items|
    ensures Chopping(items, k + 1, steps, items[k].lits, p)
  {
    assert items[..k + 1][..k] == items[..k];
    assert Literals(steps) + [] == Literals(steps);
  }

  // ---------- The loop ----------

  // Every item does something.
  ghost predicate Usable(items: seq<Item>, p: nat, far: nat) {
    && ItemsSound(items)
    && forall k :: 0 <= k < |items| ==> UsableOne(items[k], p, far)
  }

  ghost predicate UsableOne(it: Item, p: nat, far: nat) {
    (|it.lits| > 0 || it.matchLen > 0) && (it.matchLen > 0 ==> it.offset < LowOffset(p) || it.offset <= far)
  }

  // The streams hold the items and then two zeros.
  ghost predicate Streams(input: seq<Triple>, items: seq<Item>) {
    && |input| == |items| + 1 && input[|items|].litLen == 0 && input[|items|].matchLen == 0
    && forall k :: 0 <= k < |items| ==> input[k] == TripleOf(items[k])
  }

  // The registers of the unit against the rest of the current item.
  ghost predicate InStep(items: seq<Item>, k: nat, steps: seq<Step>, r: Rest, t: Triple, litCount: nat, infos: seq<Info>, p: nat, far: nat, wrap: nat) {
    && wrap > 0 && Cutting(items, k, steps, r, p, far) && Chopping(items, k, steps, r.lits, p)
    && t == Triple(|r.lits|, r.matchLen, r.offset)
    && litCount == Wrapped(|Perform(steps)| + |r.lits|, wrap)
    && infos == InfosOf(steps, p, wrap)
  }

  method EmitLiterals(t: Triple, infos: seq<Info>, p: nat, litCount: nat,
                      ghost items: seq<Item>, ghost k: nat, ghost steps: seq<Step>, ghost r: Rest, ghost far: nat, ghost wrap: nat)
    returns (t': Triple, infos': seq<Info>, ghost steps': seq<Step>, ghost r': Rest)
    requires InStep(items, k, steps, r, t, litCount, infos, p, far, wrap) && t.litLen > 0 && p > 0
    ensures InStep(items, k, steps', r', t', litCount, infos', p, far, wrap)
    ensures t'.litLen < t.litLen && t'.matchLen == t.matchLen
  {
    var val := if t.litLen > p then p else t.litLen;
    t' := t.(litLen := t.litLen - val);
    infos' := infos + [Info(0, 0, val, LITERAL, false)];
    CutLiterals(items, k, steps, r, p, far, val);
    ChopLiterals(items, k, steps, r.lits, p, val);
    steps' := steps + [Lit(r.lits[..val])];
    r' := r.(lits := r.lits[val..]);
    InfosAppend(steps, Lit(r.lits[..val]), p, wrap);
    hide Cutting, Chopping, Perform, StepsSound, InfosOf;
  }

  method EmitMatch(t: Triple, infos: seq<Info>, p: nat, litCount: nat, wrap: nat,
                   ghost items: seq<Item>, ghost k: nat, ghost steps: seq<Step>, ghost r: Rest, ghost far: nat)
    returns (t': Triple, infos': seq<Info>, litCount': nat, ghost steps': seq<Step>, ghost r': Rest)
    requires InStep(items, k, steps, r, t, litCount, infos, p, far, wrap) && t.litLen == 0 && t.matchLen > 0 && p > 0
    ensures InStep(items, k, steps', r', t', litCount', infos', p, far, wrap)
    ensures t'.litLen == 0 && t'.matchLen < t.matchLen
  {
    assert wrap > 0 && r.matchLen == t.matchLen && r.offset == t.offset;
    var len := if t.offset > p then (if t.matchLen > p then p else t.matchLen)
               else if t.matchLen > t.offset then t.offset else t.matchLen;
    var reg := t.offset < LowOffset(p);
    var loc := Wrapped(litCount - t.offset, wrap);
    infos' := infos + [Info(loc, len, 0, MATCH, reg)];
    litCount' := Wrapped(litCount + len, wrap);
    t' := Triple(0, t.matchLen - len, if t.offset < p then 2 * t.offset else t.offset);
    steps' := steps + [Mat(r.offset, len)];
    r' := Rest([], r.matchLen - len, Doubled(r.offset, p));
    hide InStep, LowOffset;
    MatchEmitted(items, k, steps, r, t, litCount, infos, p, far, wrap, len);
  }

  lemma MatchEmitted(items: seq<Item>, k: nat, steps: seq<Step>, r: Rest, t: Triple, litCount: nat, infos: seq<Info>, p: nat, far: nat, wrap: nat, len: nat)
    requires InStep(items, k, steps, r, t, litCount, infos, p, far, wrap) && t.litLen == 0 && t.matchLen > 0 && p > 0
    requires len == Chunk(t.offset, t.matchLen, p)
    ensures 0 < len <= t.matchLen
    ensures InStep(items, k, steps + [Mat(r.offset, len)], Rest([], r.matchLen - len, Doubled(r.offset, p)),
                   Triple(0, t.matchLen - len, Doubled(t.offset, p)), Wrapped(litCount + len, wrap),
                   infos + [Info(Wrapped(litCount - t.offset, wrap), len, 0, MATCH, t.offset < LowOffset(p))], p, far, wrap)
  {
    hide *;
    InStepOpens(items, k, steps, r, t, litCount, infos, p, far, wrap);
    CutMatch(items, k, steps, r, p, far, len);
    ChopMatch(items, k, steps, r.lits, p, r.offset, len);
    WrappedAdd(|Perform(steps)|, 0 - t.offset, wrap);
    WrappedAdd(|Perform(steps)|, len, wrap);
    MatchInfo(t.offset, len, |Perform(steps)|, p, wrap);
    CutBounds(r.offset, r.matchLen, p);
    InfosAppend(steps, Mat(r.offset, len), p, wrap);
    InStepCloses(items, k, steps + [Mat(r.offset, len)], Rest([], r.matchLen - len, Doubled(r.offset, p)),
      Wrapped(litCount + len, wrap), infos + [InfoOf(Mat(t.offset, len), |Perform(steps)|, p, wrap)], p, far, wrap);
  }

  lemma MatchInfo(d: nat, n: nat, pos: nat, p: nat, wrap: nat)
    requires d <= pos && wrap > 0
    ensures InfoOf(Mat(d, n), pos, p, wrap) == Info(Wrapped(pos - d, wrap), n, 0, MATCH, d < LowOffset(p))
  {
  }

  lemma InStepOpens(items: seq<Item>, k: nat, steps: seq<Step>, r: Rest, t: Triple, litCount: nat, infos: seq<Info>, p: nat, far: nat, wrap: nat)
    requires InStep(items, k, steps, r, t, litCount, infos, p, far, wrap)
    ensures wrap > 0 && Cutting(items, k, steps, r, p, far) && Chopping(items, k, steps, r.lits, p) && StepsSound(steps)
    ensures t == Triple(|r.lits|, r.matchLen, r.offset) && (t.litLen == 0 ==> r.lits == [])
    ensures litCount == Wrapped(|Perform(steps)| + |r.lits|, wrap) && infos == InfosOf(steps, p, wrap)
    ensures t.litLen == 0 && t.matchLen > 0 ==> 0 < r.offset <= |Perform(steps)|
  {
    hide Expand, Perform, ItemsSound, StepsSound, InfosOf;
  }

  lemma InStepCloses(items: seq<Item>, k: nat, steps: seq<Step>, r: Rest, litCount: nat, infos: seq<Info>, p: nat, far: nat, wrap: nat)
    requires wrap > 0 && Cutting(items, k, steps, r, p, far) && Chopping(items, k, steps, r.lits, p) && StepsSound(steps)
    requires litCount == Wrapped(|Perform(steps)| + |r.lits|, wrap) && infos == InfosOf(steps, p, wrap)
    ensures InStep(items, k, steps, r, Triple(|r.lits|, r.matchLen, r.offset), litCount, infos, p, far, wrap)
  {
    hide Cutting, Chopping, Perform, StepsSound, InfosOf;
  }

  lemma CutBounds(d: nat, m: nat, p: nat)
    requires d > 0 && m > 0 && p > 0
    ensures Chunk(d, m, p) > 0
  {
  }

  method ReadItem(t: Triple, litCount: nat, infos: seq<Info>, p: nat, wrap: nat,
                  ghost items: seq<Item>, ghost k: nat, ghost steps: seq<Step>, ghost r: Rest, ghost far: nat)
    returns (litCount': nat, ghost r': Rest)
    requires k < |items| && t == TripleOf(items[k]) && Usable(items, p, far)
    requires InStep(items, k, steps, r, Triple(0, 0, r.offset), litCount, infos, p, far, wrap)
    ensures InStep(items, k + 1, steps, r', t, litCount', infos, p, far, wrap)
    ensures t.litLen > 0 || t.matchLen > 0
  {
    assert UsableOne(items[k], p, far);
    litCount' := Wrapped(litCount + t.litLen, wrap);
    assert r.lits == [];
    TakeItem(items, k, steps, r, p, far);
    ChopItem(items, k, steps, p);
    WrappedAdd(|Perform(steps)|, t.litLen, wrap);
    r' := Rest(items[k].lits, items[k].matchLen, items[k].offset);
    hide Cutting, Chopping, Perform, StepsSound, InfosOf;
  }

  // What the unit hands on: the words of steps that together do what the items say.
  ghost predicate HandsOn(infos: seq<Info>, steps: seq<Step>, items: seq<Item>, p: nat, far: nat, wrap: nat) {
    && wrap > 0 && StepsSound(steps) && Fits(steps, p, far) && ItemsSound(items) && Perform(steps) == Expand(items)
    && p > 0 && Literals(steps) == AllChops(items, p)
    && |infos| == |steps| + 1 && infos[..|steps|] == InfosOf(steps, p, wrap)
    && infos[|steps|].state == DONE && infos[|steps|].litLen == 0
  }

  lemma CutAll(items: seq<Item>, steps: seq<Step>, r: Rest, t: Triple, litCount: nat, infos: seq<Info>, last: Info, p: nat, far: nat, wrap: nat)
    requires InStep(items, |items|, steps, r, t, litCount, infos, p, far, wrap) && t.litLen == 0 && t.matchLen == 0
    requires last.state == DONE && last.litLen == 0
    ensures HandsOn(infos + [last], steps, items, p, far, wrap)
  {
    hide Copy;
    assert items[..|items|] == items;
    assert Perform(steps) + [] == Perform(steps);
    assert r.lits == [] && Literals(steps) + [] == Literals(steps);
    assert (infos + [last])[..|steps|] == infos;
  }

  lemma NothingCut(items: seq<Item>, p: nat, far: nat, wrap: nat)
    requires wrap > 0 && p > 0
    ensures InStep(items, 0, [], Rest([], 0, 0), Triple(0, 0, 0), 0, [], p, far, wrap)
  {
    assert items[..0] == [];
  }

  lemma FirstIsLiteral(items: seq<Item>, p: nat, far: nat)
    requires Usable(items, p, far) && items != []
    ensures |items[0].lits| > 0
  {
    ItemsPrefix(items, 1);
    assert UsableOne(items[0], p, far);
    assert items[..1][..0] == [];
  }

  lemma StreamAt(input: seq<Triple>, items: seq<Item>, k: nat, p: nat, far: nat)
    requires Streams(input, items) && k <= |items| && Usable(items, p, far)
    ensures k < |input| && (k < |items| ==> input[k] == TripleOf(items[k]))
    ensures input[k].litLen == 0 && input[k].matchLen == 0 <==> k == |items|
    ensures input[0].litLen == 0 <==> items == []
  {
    if k < |items| { assert UsableOne(items[k], p, far); }
    if items != [] { FirstIsLiteral(items, p, far); }
  }

  // Nothing is left of the current item, whatever the offset register holds.
  lemma Idle(items: seq<Item>, k: nat, steps: seq<Step>, r: Rest, t: Triple, litCount: nat, infos: seq<Info>, p: nat, far: nat, wrap: nat, x: nat)
    requires InStep(items, k, steps, r, t, litCount, infos, p, far, wrap) && t.litLen == 0 && t.matchLen == 0
    ensures t == Triple(0, 0, r.offset)
    ensures InStep(items, k, steps, Rest([], 0, x), Triple(0, 0, x), litCount, infos, p, far, wrap)
  {
    hide Copy, Expand, Perform, StepsSound, ItemsSound, InfosOf;
    assert r.lits == [];
  }

  lemma EndWord(info: Info)
    ensures [] + [info] == [info]
  {
  }

  function LastLoc(infos: seq<Info>): nat {
    if infos == [] then 0 else infos[|infos| - 1].matchLoc
  }

  // The words do what the items say, one byte at a time.
  method LzPreProcessingUnitLL(input: seq<Triple>, p: nat, wrap: nat, ghost items: seq<Item>, ghost far: nat)
    returns (infos: seq<Info>, ghost steps: seq<Step>)
    requires p > 0 && wrap > 0 && Usable(items, p, far) && Streams(input, items)
    ensures HandsOn(infos, steps, items, p, far, wrap)
  {
    NothingCut(items, p, far, wrap);
    StreamAt(input, items, 0, p, far);
    ghost var r := Rest([], 0, 0);
    infos, steps := [], [];
    ghost var k: nat := 0;
    var t := input[0];
    var next := 1;
    if t.litLen == 0 {
      CutAll(items, [], r, Triple(0, 0, 0), 0, [], Info(0, t.matchLen, t.litLen, DONE, false), p, far, wrap);
      infos := [Info(0, t.matchLen, t.litLen, DONE, false)];
      EndWord(infos[0]);
      return;
    }
    hide *;
    var litCount;
    litCount, r := ReadItem(t, 0, infos, p, wrap, items, 0, steps, r, far);
    k := 1;
    infos, steps := CutItems(input, t, litCount, p, wrap, items, steps, r, far);
  }

  method CutItems(input: seq<Triple>, t0: Triple, litCount0: nat, p: nat, wrap: nat, ghost items: seq<Item>,
                  ghost steps0: seq<Step>, ghost r0: Rest, ghost far: nat)
    returns (infos: seq<Info>, ghost steps: seq<Step>)
    requires p > 0 && wrap > 0 && Usable(items, p, far) && Streams(input, items) && 1 <= |items|
    requires InStep(items, 1, steps0, r0, t0, litCount0, [], p, far, wrap) && (t0.litLen > 0 || t0.matchLen > 0)
    ensures HandsOn(infos, steps, items, p, far, wrap)
  {
    hide *;
    var t, litCount, next: nat, done := t0, litCount0, 1, false;
    infos, steps := [], steps0;
    ghost var r, k: nat := r0, 1;
    while !done
      invariant k <= |items|
      invariant InStep(items, k, steps, r, t, litCount, infos, p, far, wrap)
      invariant done ==> k == |items| && t.litLen == 0 && t.matchLen == 0
      invariant !done ==> next == k && (t.litLen > 0 || t.matchLen > 0)
      decreases !done, |items| - k, t.litLen + t.matchLen
    {
      if t.litLen > 0 {
        t, infos, steps, r := EmitLiterals(t, infos, p, litCount, items, k, steps, r, far, wrap);
      } else {
        t, infos, litCount, steps, r := EmitMatch(t, infos, p, litCount, wrap, items, k, steps, r, far);
      }
      if t.litLen == 0 && t.matchLen == 0 {
        StreamAt(input, items, k, p, far);
        Idle(items, k, steps, r, t, litCount, infos, p, far, wrap, input[next].offset);
        t := input[next];
        if t.litLen == 0 && t.matchLen == 0 {
          r := Rest([], 0, t.offset);
          done := true;
        } else {
          litCount, r := ReadItem(t, litCount, infos, p, wrap, items, k, steps, r, far);
          next := next + 1;
          k := k + 1;
        }
      }
    }
    CutAll(items, steps, r, t, litCount, infos, Info(LastLoc(infos), t.matchLen, t.litLen, DONE, false), p, far, wrap);
    infos := infos + [Info(LastLoc(infos), t.matchLen, t.litLen, DONE, false)];
  }
}
