// The decoder's loop pass by pass: a byte that is to be looked at again steps the position back
// before the pass, so the position tells whether the loop gets on.

module SnappyLoop {
  import opened LzCore
  import opened SnappyDecode

  // The position, the registers, the byte in hand and whether the next pass reads a new one.
  datatype Loop = Loop(pos: nat, regs: Registers, inValue: Byte, readInstream: bool, out: seq<Word>)

  function Pass(input: seq<Byte>, s: Loop): (t: Loop)
    requires s.pos < |input|
    ensures t.pos <= |input|
  {
    var inValue := if s.readInstream then input[s.pos] else s.inValue;
    var o := Cycle(s.regs, inValue);
    Loop(if s.readInstream then s.pos + 1 else s.pos, o.regs, inValue, !o.reread, s.out + o.words)
  }

  // The state after n passes, or where the loop ended before.
  function After(input: seq<Byte>, s: Loop, n: nat): Loop
    decreases n
  {
    if n == 0 || s.pos >= |input| then s else After(input, Pass(input, s), n - 1)
  }

  function Begin(p: nat): Loop {
    Loop(p, START, 0, true, [])
  }

  lemma {:induction false} AfterSplit(input: seq<Byte>, s: Loop, a: nat, b: nat)
    ensures After(input, s, a + b) == After(input, After(input, s, a), b)
    decreases a
  {
    hide Pass;
    if a > 0 && s.pos < |input| { AfterSplit(input, Pass(input, s), a - 1, b); }
  }

  // With more bytes behind it, a byte takes one pass or two, unless it is a tag that gets stuck.
  lemma ByteDone(input: seq<Byte>, s: Loop)
    requires s.readInstream && s.pos + 1 < |input| && !Step(s.regs, input[s.pos]).regs.next.Stuck?
    ensures var n := if Cycle(s.regs, input[s.pos]).reread then 2 else 1;
      After(input, s, n) == Loop(s.pos + 1, Step(s.regs, input[s.pos]).regs, input[s.pos], true, s.out + Step(s.regs, input[s.pos]).words)
  {
    var b := input[s.pos];
    var t := Pass(input, s);
    StepOf(s.regs, b);
    RereadSilent(s.regs, b);
    hide Cycle, Step;
    assert s.out + [] == s.out;
    if t.readInstream {
      assert After(input, t, 0) == t;
    } else {
      assert After(input, t, 1) == After(input, Pass(input, t), 0) == Pass(input, t);
      assert After(input, s, 2) == After(input, t, 1);
    }
  }

  // Byte k is reached if no tag before it gets stuck.
  lemma {:induction false} Reaches(input: seq<Byte>, p: nat, k: nat) returns (n: nat, v: Byte)
    requires p + k < |input| && forall j :: 0 <= j < k ==> !BadTag(input[p..], j)
    ensures After(input, Begin(p), n)
         == Loop(p + k, Run(START, input[p..][..k]).regs, v, true, Run(START, input[p..][..k]).words)
    decreases k
  {
    n, v := 0, 0;
    var bytes := input[p..];
    if k == 0 {
      assert bytes[..0] == [];
      RunNothing(START);
    } else {
      var before := bytes[..k - 1];
      n, v := Reaches(input, p, k - 1);
      var s := After(input, Begin(p), n);
      assert bytes[..k] == before + [bytes[k - 1]];
      RunAppend(START, before, bytes[k - 1]);
      StepFree(bytes, k - 1);
      hide *;
      assert input[s.pos] == bytes[k - 1];
      ByteDone(input, s);
      var m := if Cycle(s.regs, input[s.pos]).reread then 2 else 1;
      AfterSplit(input, Begin(p), n, m);
      n, v := n + m, input[s.pos];
    }
  }

  lemma StepFree(bytes: seq<Byte>, k: nat)
    requires k < |bytes| && forall j :: 0 <= j <= k ==> !BadTag(bytes, j)
    ensures !Step(Run(START, bytes[..k]).regs, bytes[k]).regs.next.Stuck?
  {
    var front := bytes[..k + 1];
    assert front[..k] == bytes[..k] && bytes[..k] + [bytes[k]] == front;
    RunAppend(START, bytes[..k], bytes[k]);
    StuckIffBadTag(front);
    forall j | 0 <= j < k + 1 ensures !BadTag(front, j) {
      assert front[..j] == bytes[..j];
      assert !BadTag(bytes, j);
    }
    hide Run, Step, BadTag;
  }

  // A pass never leaves the last byte unread for good: the end is reached in one pass from there.
  lemma LastPass(input: seq<Byte>, s: Loop)
    requires s.readInstream && s.pos + 1 == |input|
    ensures After(input, s, 1).pos == |input| && After(input, s, 1).out == s.out + Step(s.regs, input[s.pos]).words
  {
    var b := input[s.pos];
    var t := Pass(input, s);
    StepOf(s.regs, b);
    RereadSilent(s.regs, b);
    StepSilent(s.regs, b);
    hide Cycle, Step;
    assert After(input, s, 1) == After(input, t, 0) == t;
  }

  // The byte in hand has both low bits set and is looked at again and again.
  ghost predicate Spinning(s: Loop) {
    !s.readInstream && s.inValue % 4 == 3 && (s.regs.next.ReadToken? || s.regs.next.ReadOffset?)
  }

  lemma {:induction false} SpinsOn(input: seq<Byte>, s: Loop, n: nat)
    requires Spinning(s)
    ensures After(input, s, n).pos == s.pos && Spinning(After(input, s, n))
    decreases n
  {
    if n > 0 && s.pos < |input| { SpinsOn(input, Pass(input, s), n - 1); }
  }

  lemma {:induction false} StaysAtEnd(input: seq<Byte>, s: Loop, n: nat)
    requires s.pos >= |input|
    ensures After(input, s, n) == s
  {
  }

  // Once at a bad tag that is not the last byte, the position never passes the byte behind it.
  lemma NeverPasses(input: seq<Byte>, p: nat, k: nat, n: nat)
    requires p + k + 1 < |input| && BadTag(input[p..], k) && forall j :: 0 <= j < k ==> !BadTag(input[p..], j)
    ensures After(input, Begin(p), n).pos <= p + k + 1
  {
    var m, v := Reaches(input, p, k);
    var s := After(input, Begin(p), m);
    BadIs(input[p..], k);
    assert input[p..][k] == input[p + k];
    if n <= m {
      AfterSplit(input, Begin(p), n, m - n);
      PositionGrows(input, After(input, Begin(p), n), m - n);
    } else {
      var t := Pass(input, s);
      AfterSplit(input, Begin(p), m, n - m);
      assert After(input, s, n - m) == After(input, t, n - m - 1);
      SpinsOn(input, t, n - m - 1);
    }
  }

  lemma BadIs(bytes: seq<Byte>, k: nat)
    requires BadTag(bytes, k)
    ensures k < |bytes| && Run(START, bytes[..k]).regs.next.ReadToken? && bytes[k] % 4 == 3
  {
  }

  lemma {:induction false} PositionGrows(input: seq<Byte>, s: Loop, n: nat)
    ensures s.pos <= After(input, s, n).pos
    decreases n
  {
    if n > 0 && s.pos < |input| { PositionGrows(input, Pass(input, s), n - 1); }
  }

  // The loop ends after n passes.
  ghost predicate EndsAfter(input: seq<Byte>, p: nat, n: nat) {
    After(input, Begin(p), n).pos == |input|
  }

  // The loop reaches the end of its input if and only if no byte before the last one is read as a
  // tag with both low bits set; then it has sent what the states make of the bytes.
  lemma EndsExactly(input: seq<Byte>, p: nat)
    requires p <= |input|
    ensures (exists n :: EndsAfter(input, p, n)) <==> Passable(input[p..])
    ensures forall n :: EndsAfter(input, p, n) ==> After(input, Begin(p), n).out == Run(START, input[p..]).words
  {
    if Passable(input[p..]) {
      EndsIfPassable(input, p);
    } else {
      forall n: nat ensures !EndsAfter(input, p, n) { NotPassable(input, p, n); }
    }
  }

  lemma NotPassable(input: seq<Byte>, p: nat, n: nat)
    requires p <= |input| && !Passable(input[p..])
    ensures !EndsAfter(input, p, n)
  {
    var k := FirstBad(input[p..]);
    NeverPasses(input, p, k, n);
  }

  lemma {:induction false} FirstBadUpTo(bytes: seq<Byte>, m: nat) returns (k: nat)
    requires BadTag(bytes, m)
    ensures k <= m && BadTag(bytes, k) && forall j :: 0 <= j < k ==> !BadTag(bytes, j)
    decreases m
  {
    if j: nat :| j < m && BadTag(bytes, j) { k := FirstBadUpTo(bytes, j); } else { k := m; }
  }

  lemma FirstBad(bytes: seq<Byte>) returns (k: nat)
    requires !Passable(bytes)
    ensures k + 1 < |bytes| && BadTag(bytes, k) && forall j :: 0 <= j < k ==> !BadTag(bytes, j)
  {
    var m: nat :| m < |bytes| - 1 && BadTag(bytes, m);
    k := FirstBadUpTo(bytes, m);
  }

  // How many passes the loop takes.
  lemma EndOf(input: seq<Byte>, p: nat) returns (n: nat)
    requires p <= |input| && Passable(input[p..])
    ensures EndsAfter(input, p, n) && After(input, Begin(p), n).out == Run(START, input[p..]).words
  {
    var bytes := input[p..];
    if bytes == [] {
      n := 0;
      RunNothing(START);
    } else {
      var k := |bytes| - 1;
      var v;
      n, v := Reaches(input, p, k);
      var s := After(input, Begin(p), n);
      assert bytes[..k] + [bytes[k]] == bytes && bytes[k] == input[p + k];
      RunAppend(START, bytes[..k], bytes[k]);
      hide Pass, Run, Step, Cycle;
      LastPass(input, s);
      AfterSplit(input, Begin(p), n, 1);
      n := n + 1;
    }
  }

  lemma SameEnd(input: seq<Byte>, p: nat, n: nat, m: nat)
    requires EndsAfter(input, p, n) && EndsAfter(input, p, m)
    ensures After(input, Begin(p), n) == After(input, Begin(p), m)
  {
    if n <= m {
      AfterSplit(input, Begin(p), n, m - n);
      StaysAtEnd(input, After(input, Begin(p), n), m - n);
    } else {
      AfterSplit(input, Begin(p), m, n - m);
      StaysAtEnd(input, After(input, Begin(p), m), n - m);
    }
    hide After;
  }

  lemma EndsIfPassable(input: seq<Byte>, p: nat)
    requires p <= |input| && Passable(input[p..])
    ensures exists n :: EndsAfter(input, p, n)
    ensures forall n :: EndsAfter(input, p, n) ==> After(input, Begin(p), n).out == Run(START, input[p..]).words
  {
    var m := EndOf(input, p);
    hide *;
    forall n: nat | EndsAfter(input, p, n) ensures After(input, Begin(p), n).out == Run(START, input[p..]).words {
      SameEnd(input, p, n, m);
    }
  }

  // One byte is announced and a four-byte-offset copy follows, with a byte behind it: the loop never
  // ends. Without that byte it does.
  lemma EndlessBlock(n: nat)
    ensures !EndsAfter([1, 3, 0], 1, n)
    ensures exists m :: EndsAfter([1, 3], 1, m)
  {
    assert [1, 3, 0][1..] == [3, 0] && [1, 3][1..] == [3];
    assert [3, 0][..0] == [];
    RunNothing(START);
    assert BadTag([3, 0], 0);
    NotPassable([1, 3, 0], 1, n);
    EndsExactly([1, 3], 1);
  }
}
