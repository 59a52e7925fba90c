// The steps the wide decompressor works in: up to P bytes at a time, no step reading what it
// writes. Overlapping copies are cut into such steps by doubling their period.

module WideCopy {
  import opened LzCore

  // Literals, then matchLen bytes from `offset` positions back.
  datatype Item = Item(lits: seq<Byte>, matchLen: nat, offset: nat)

  // The byte-serial meaning of an item, continuing `out`.
  function Extend(out: seq<Byte>, lits: seq<Byte>, matchLen: nat, offset: nat): (r: seq<Byte>)
    requires matchLen > 0 ==> 1 <= offset <= |out| + |lits|
    ensures |r| == |out| + |lits| + matchLen
  {
    if matchLen > 0 then Copy(out + lits, offset, matchLen) else out + lits
  }

  predicate ItemsSound(items: seq<Item>)
    decreases |items|, 0
  {
    items == [] ||
    var it := items[|items| - 1];
    && ItemsSound(items[..|items| - 1])
    && (it.matchLen > 0 ==> 1 <= it.offset <= |Expand(items[..|items| - 1])| + |it.lits|)
  }

  function Expand(items: seq<Item>): seq<Byte>
    requires ItemsSound(items)
    decreases |items|, 1
  {
    if items == [] then []
    else
      var it := items[|items| - 1];
      Extend(Expand(items[..|items| - 1]), it.lits, it.matchLen, it.offset)
  }

  // One step: literals, or n bytes that all lie d or less positions back, n <= d.
  datatype Step = Lit(bytes: seq<Byte>) | Mat(d: nat, n: nat)

  function Do(out: seq<Byte>, s: Step): seq<Byte>
    requires s.Mat? ==> s.n <= s.d <= |out|
  {
    match s
    case Lit(bytes) => out + bytes
    case Mat(d, n) => out + out[|out| - d..|out| - d + n]
  }

  predicate StepsSound(steps: seq<Step>)
    decreases |steps|, 0
  {
    steps == [] ||
    var s := steps[|steps| - 1];
    && StepsSound(steps[..|steps| - 1])
    && (s.Mat? ==> s.n <= s.d <= |Perform(steps[..|steps| - 1])|)
  }

  function Perform(steps: seq<Step>): seq<Byte>
    requires StepsSound(steps)
    decreases |steps|, 1
  {
    if steps == [] then [] else Do(Perform(steps[..|steps| - 1]), steps[|steps| - 1])
  }

  lemma PerformAppend(steps: seq<Step>, s: Step)
    requires StepsSound(steps) && (s.Mat? ==> s.n <= s.d <= |Perform(steps)|)
    ensures StepsSound(steps + [s]) && Perform(steps + [s]) == Do(Perform(steps), s)
  {
    assert (steps + [s])[..|steps|] == steps;
  }

  lemma {:induction false} PerformPrefix(steps: seq<Step>, k: nat)
    requires StepsSound(steps) && k <= |steps|
    ensures StepsSound(steps[..k])
    decreases |steps|
  {
    if k < |steps| {
      assert steps[..|steps| - 1][..k] == steps[..k];
      PerformPrefix(steps[..|steps| - 1], k);
    } else {
      assert steps[..k] == steps;
    }
  }

  lemma PerformNext(steps: seq<Step>, k: nat)
    requires StepsSound(steps) && k < |steps|
    ensures StepsSound(steps[..k]) && StepsSound(steps[..k + 1])
    ensures steps[k].Mat? ==> steps[k].n <= steps[k].d <= |Perform(steps[..k])|
    ensures Perform(steps[..k + 1]) == Do(Perform(steps[..k]), steps[k])
  {
    PerformPrefix(steps, k);
    PerformPrefix(steps, k + 1);
    assert steps[..k + 1][..k] == steps[..k];
  }

  lemma ExpandAppend(items: seq<Item>, it: Item)
    requires ItemsSound(items + [it])
    ensures ItemsSound(items) && (it.matchLen > 0 ==> 1 <= it.offset <= |Expand(items)| + |it.lits|)
    ensures Expand(items + [it]) == Extend(Expand(items), it.lits, it.matchLen, it.offset)
  {
    assert (items + [it])[..|items|] == items;
  }

  // ---------- Period doubling ----------

  // A copy no longer than its distance reads nothing it writes.
  lemma {:induction false} ShortCopy(out: seq<Byte>, d: nat, n: nat)
    requires n <= d && 1 <= d <= |out|
    ensures Copy(out, d, n) == out + out[|out| - d..|out| - d + n]
    decreases n
  {
    if n > 0 {
      ShortCopy(out, d, n - 1);
      CopySplit(out, d, n - 1, 1);
      var c := Copy(out, d, n - 1);
      assert Copy(c, d, 1) == Copy(c + [c[|c| - d]], d, 0) == c + [c[|c| - d]];
      assert c[|c| - d] == out[|out| - d + n - 1];
    } else {
      assert out + out[|out| - d..|out| - d] == out;
    }
  }

  // The last d bytes repeat the d before them.
  ghost predicate Periodic(out: seq<Byte>, d: nat) {
    1 <= d && 2 * d <= |out| && forall k :: |out| - d <= k < |out| ==> out[k] == out[k - d]
  }

  lemma {:induction false} DoubledCopy(out: seq<Byte>, d: nat, n: nat)
    requires Periodic(out, d)
    ensures Copy(out, d, n) == Copy(out, 2 * d, n)
    decreases n
  {
    if n > 0 {
      var b := out[|out| - d];
      assert out[|out| - 2 * d] == b;
      assert Periodic(out + [b], d);
      DoubledCopy(out + [b], d, n - 1);
    }
  }

  lemma CopyIsPeriodic(out: seq<Byte>, d: nat)
    requires 1 <= d <= |out|
    ensures Periodic(Copy(out, d, d), d)
  {
    ShortCopy(out, d, d);
  }

  function Chunk(d: nat, m: nat, p: nat): nat {
    if d > p then (if m > p then p else m) else (if m > d then d else m)
  }

  function Doubled(d: nat, p: nat): nat {
    if d < p then 2 * d else d
  }

  lemma ChunkBounds(d: nat, m: nat, p: nat)
    requires d > 0 && m > 0 && p > 0
    ensures var c := Chunk(d, m, p); 0 < c <= m && c <= d && c <= p
    ensures m > Chunk(d, m, p) && d < p ==> Chunk(d, m, p) == d
  {
  }

  // A copy is its first chunk, and the rest with the doubled distance.
  lemma ChunkedCopy(out: seq<Byte>, d: nat, m: nat, p: nat, c: nat)
    requires 1 <= d <= |out| && m > 0 && p > 0 && c == Chunk(d, m, p)
    ensures 0 < c <= m && c <= d && c <= p && (m > c ==> Doubled(d, p) <= |out| + c)
    ensures m > c ==> Copy(out, d, m) == Copy(Do(out, Mat(d, c)), Doubled(d, p), m - c)
    ensures m == c ==> Copy(out, d, m) == Do(out, Mat(d, c))
  {
    hide Copy, Periodic, Chunk;
    ChunkBounds(d, m, p);
    ShortCopy(out, d, c);
    if m > c {
      CopySplit(out, d, c, m - c);
      if d < p {
        CopyIsPeriodic(out, d);
        DoubledCopy(Copy(out, d, d), d, m - d);
      }
    }
  }
}
