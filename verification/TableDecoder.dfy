// The table decoder: a root table indexed by the next `root` bits, and for longer codes further
// tables behind links in it. Built by going through the codes in canonical order.

module TableDecoder {
  import opened Arithmetic
  import opened Modular
  import opened HuffmanLimit
  import opened CanonicalCodes
  import opened BitStrings
  import HuffmanCodec

  const MAX_BITS: nat := 15

  datatype Entry = Entry(op: nat, bits: nat, val: nat)

  // Operations with none of the bits 16 and 64 set, other than 0, lead to a further table.
  predicate IsLink(op: nat) {
    op != 0 && op / 16 % 2 == 0 && op / 64 % 2 == 0
  }

  // What the tables say about a symbol: below `match`, less one, the symbol itself; from `match`
  // on, a base value and an operation; in between, the end of the block.
  datatype Kind = Kind(match_: nat, base: seq<nat>, extra: seq<nat>) {
    function Op(sym: nat): nat {
      if sym + 1 < match_ then 0 else if sym >= match_ then (if sym - match_ < |extra| then extra[sym - match_] else 0) else 96
    }

    function Val(sym: nat): nat {
      if sym + 1 < match_ then sym else if sym >= match_ then (if sym - match_ < |base| then base[sym - match_] else 0) else 0
    }

    ghost predicate Valid() {
      |base| == |extra| && NoLinks(extra)
    }
  }

  lemma OpIsNoLink(kind: Kind, sym: nat)
    requires kind.Valid()
    ensures !IsLink(kind.Op(sym))
  {
  }

  const LENGTH_BASE: seq<nat> := [3, 4, 5, 6, 7, 8, 9, 10, 11, 13, 15, 17, 19, 23, 27, 31, 35, 43, 51, 59, 67, 83, 99, 115, 131, 163, 195, 227, 258, 0, 0, 0]
  const LENGTH_EXTRA: seq<nat> := [16, 16, 16, 16, 16, 16, 16, 16, 17, 17, 17, 17, 18, 18, 18, 18, 19, 19, 19, 19, 20, 20, 20, 20, 21, 21, 21, 21, 16, 77, 202, 0]
  const DIST_BASE: seq<nat> := [1, 2, 3, 4, 5, 7, 9, 13, 17, 25, 33, 49, 65, 97, 129, 193, 257, 385, 513, 769, 1025, 1537, 2049, 3073, 4097, 6145, 8193, 12289, 16385, 24577, 0, 0]
  const DIST_EXTRA: seq<nat> := [16, 16, 16, 16, 17, 17, 18, 18, 19, 19, 20, 20, 21, 21, 22, 22, 23, 23, 24, 24, 25, 25, 26, 26, 27, 27, 28, 28, 29, 29, 64, 64]

  const CODE_LENGTHS := Kind(20, [], [])
  const LITERALS_AND_LENGTHS := Kind(257, LENGTH_BASE, LENGTH_EXTRA)
  const DISTANCES := Kind(0, DIST_BASE, DIST_EXTRA)

  predicate NoLinks(ops: seq<nat>) {
    forall i :: 0 <= i < |ops| ==> !IsLink(ops[i])
  }

  lemma LengthOpsAreNoLinks()
    ensures NoLinks(LENGTH_EXTRA)
  {
    forall i | 0 <= i < |LENGTH_EXTRA| ensures !IsLink(LENGTH_EXTRA[i]) {
      assert LENGTH_EXTRA[i] in {16, 17, 18, 19, 20, 21, 77, 202, 0};
    }
  }

  lemma DistOpsAreNoLinks()
    ensures NoLinks(DIST_EXTRA)
  {
    forall i | 0 <= i < |DIST_EXTRA| ensures !IsLink(DIST_EXTRA[i]) {
      assert DIST_EXTRA[i] in {16, 17, 18, 19, 20, 21, 22, 23, 24, 25, 26, 27, 28, 29, 64};
    }
  }

  // No base table entry is mistaken for a link.
  lemma KindsAreValid()
    ensures CODE_LENGTHS.Valid() && LITERALS_AND_LENGTHS.Valid() && DISTANCES.Valid()
  {
    LengthOpsAreNoLinks();
    DistOpsAreNoLinks();
    hide IsLink;
  }

  // ---------- Looking up ----------

  datatype Answer = Answer(op: nat, val: nat, bits: nat)

  datatype Tables = Tables(table: seq<Entry>, extra: seq<Entry>)

  // The decoder's two steps: x holds the next bits, lowest first.
  function LookUp(t: Tables, root: nat, x: nat): Answer
    requires |t.table| == Pow2(root)
  {
    var e := t.table[KeepLow(x, root)];
    if IsLink(e.op) then
      var i := e.val + KeepLow(ShiftRight(x, root), e.op);
      if i < |t.extra| then Answer(t.extra[i].op, t.extra[i].val, e.bits + t.extra[i].bits) else Answer(0, 0, 0)
    else
      Answer(e.op, e.val, e.bits)
  }

  // The bits of x start with the code of symbol k.
  ghost predicate Match(x: nat, lens: seq<nat>, k: nat)
    requires k < |lens|
  {
    Value(LowBits(x, lens[k])) == Code(lens, k)
  }

  lemma MatchStarts(x: nat, lens: seq<nat>, k: nat, n: nat)
    requires k < |lens| && lens[k] <= n
    ensures Match(x, lens, k) <==> StartsWith(LowBits(x, n), lens, k)
  {
    LowBitsPrefix(x, lens[k], n);
  }

  lemma UniqueMatch(x: nat, lens: seq<nat>, j: nat, k: nat)
    requires Feasible(lens, MAX_BITS) && j < |lens| && k < |lens| && lens[j] > 0 && lens[k] > 0
    requires Match(x, lens, j) && Match(x, lens, k)
    ensures j == k
  {
    MatchStarts(x, lens, j, MAX_BITS);
    MatchStarts(x, lens, k, MAX_BITS);
    UniqueStart(lens, MAX_BITS, LowBits(x, MAX_BITS), j, k);
  }

  // ---------- The codes in order ----------

  // How many codes are shorter than n.
  function Below(lens: seq<nat>, n: nat): (c: nat)
    ensures c <= |lens|
  {
    if lens == [] then 0 else (if 1 <= lens[0] < n then 1 else 0) + Below(lens[1..], n)
  }

  lemma {:induction false} BelowNext(lens: seq<nat>, n: nat)
    requires n >= 1
    ensures Below(lens, n + 1) == Below(lens, n) + Count(lens, n)
  {
    if lens != [] { BelowNext(lens[1..], n); }
  }

  lemma {:induction false} BelowMono(lens: seq<nat>, n: nat, m: nat)
    requires n <= m
    ensures Below(lens, n) <= Below(lens, m)
  {
    if lens != [] { BelowMono(lens[1..], n, m); }
  }

  function Rank(lens: seq<nat>, k: nat): nat
    requires k < |lens|
  {
    Count(lens[..k], lens[k])
  }

  function Position(lens: seq<nat>, k: nat): nat
    requires k < |lens|
  {
    Below(lens, lens[k]) + Rank(lens, k)
  }

  lemma PositionFits(lens: seq<nat>, k: nat)
    requires k < |lens| && lens[k] > 0
    ensures Position(lens, k) < Below(lens, lens[k] + 1) <= |lens|
  {
    CountSplit(lens, k);
    BelowNext(lens, lens[k]);
  }

  lemma PositionsApart(lens: seq<nat>, j: nat, k: nat)
    requires j < k < |lens| && lens[j] > 0 && lens[k] > 0
    ensures Position(lens, j) != Position(lens, k)
  {
    PositionFits(lens, j);
    PositionFits(lens, k);
    if lens[j] == lens[k] {
      RankGrows(lens, j, k);
    } else if lens[j] < lens[k] {
      BelowMono(lens, lens[j] + 1, lens[k]);
    } else {
      BelowMono(lens, lens[k] + 1, lens[j]);
    }
  }

  // Symbol k stands at its position in the buffer.
  ghost predicate Ordered(buf: seq<nat>, lens: seq<nat>, n: nat) {
    && n <= |lens| == |buf|
    && forall k :: 0 <= k < n && lens[k] > 0 ==> Position(lens, k) < |buf| && buf[Position(lens, k)] == k
  }

  lemma {:induction false} FindRank(lens: seq<nat>, n: nat, r: nat) returns (k: nat)
    requires r < Count(lens, n)
    ensures k < |lens| && lens[k] == n && Rank(lens, k) == r
    decreases |lens|
  {
    var z := |lens| - 1;
    assert lens == lens[..z] + [lens[z]];
    CountConcat(lens[..z], [lens[z]], n);
    assert [lens[z]][1..] == [];
    if r < Count(lens[..z], n) {
      k := FindRank(lens[..z], n, r);
      assert lens[..z][..k] == lens[..k];
    } else {
      k := z;
    }
  }

  ghost predicate OffsetsAt(offs: seq<nat>, lens: seq<nat>, i: nat) {
    |offs| == MAX_BITS + 1 && i <= |lens|
    && forall x :: 1 <= x <= MAX_BITS ==> offs[x] == Below(lens, x) + Count(lens[..i], x)
  }

  lemma OffsetsNext(offs: seq<nat>, lens: seq<nat>, i: nat)
    requires OffsetsAt(offs, lens, i) && i < |lens| && lens[i] <= MAX_BITS
    ensures lens[i] > 0 ==> offs[lens[i]] == Position(lens, i) < |lens|
    ensures lens[i] > 0 ==> OffsetsAt(offs[lens[i] := offs[lens[i]] + 1], lens, i + 1)
    ensures lens[i] == 0 ==> OffsetsAt(offs, lens, i + 1)
  {
    HuffmanCodec.CountNext(lens, i);
    if lens[i] > 0 { PositionFits(lens, i); }
    hide Below, Count;
  }

  lemma OrderedNext(buf: seq<nat>, lens: seq<nat>, i: nat)
    requires Ordered(buf, lens, i) && i < |lens| && lens[i] > 0 && Position(lens, i) < |lens|
    ensures Ordered(buf[Position(lens, i) := i], lens, i + 1)
  {
    forall k | 0 <= k < i && lens[k] > 0 ensures Position(lens, k) != Position(lens, i) {
      PositionsApart(lens, k, i);
    }
    hide Position;
  }

  // offs[i + 1] = offs[i] + count[i], then every symbol in turn takes the next place of its length.
  method SortCodes(lens: seq<nat>, count: seq<nat>) returns (codeBuffer: seq<nat>)
    requires AtMost(lens, MAX_BITS) && |count| == MAX_BITS + 1
    requires forall x :: 1 <= x <= MAX_BITS ==> count[x] == Count(lens, x)
    ensures Ordered(codeBuffer, lens, |lens|)
  {
    var offs := StartOffsets(lens, count);
    var buf := new nat[|lens|](_ => 0);
    hide OffsetsAt, Ordered, Position;
    NothingOrdered(buf[..], lens);
    var i := 0;
    while i < |lens|
      invariant 0 <= i <= |lens| && OffsetsAt(offs[..], lens, i) && Ordered(buf[..], lens, i)
      invariant offs.Length == MAX_BITS + 1 && offs != buf
    {
      OffsetsNext(offs[..], lens, i);
      if lens[i] != 0 {
        OrderedNext(buf[..], lens, i);
        Place(buf, offs[lens[i]], i);
        Place(offs, lens[i], offs[lens[i]] + 1);
      }
      i := i + 1;
    }
    codeBuffer := buf[..];
  }

  lemma NothingOrdered(buf: seq<nat>, lens: seq<nat>)
    requires |buf| == |lens|
    ensures Ordered(buf, lens, 0)
  {
  }

  method Place(a: array<nat>, i: nat, x: nat)
    requires i < a.Length
    modifies a
    ensures a[..] == old(a[..])[i := x]
  {
    a[i] := x;
  }

  method StartOffsets(lens: seq<nat>, count: seq<nat>) returns (offs: array<nat>)
    requires |count| == MAX_BITS + 1 && forall x :: 1 <= x <= MAX_BITS ==> count[x] == Count(lens, x)
    ensures fresh(offs) && offs.Length == MAX_BITS + 1 && OffsetsAt(offs[..], lens, 0)
  {
    offs := new nat[MAX_BITS + 1](_ => 0);
    BelowOne(lens);
    var i := 1;
    while i < MAX_BITS
      invariant 1 <= i <= MAX_BITS && forall x :: 1 <= x <= i ==> offs[x] == Below(lens, x)
    {
      BelowNext(lens, i);
      offs[i + 1] := offs[i] + count[i];
      i := i + 1;
    }
    assert lens[..0] == [];
  }

  lemma {:induction false} BelowOne(lens: seq<nat>)
    ensures Below(lens, 1) == 0
  {
    if lens != [] { BelowOne(lens[1..]); }
  }

  // ---------- Filling ----------

  // Index i of the table starting at `off` has the n low bits of h.
  ghost predicate Hit(i: nat, off: nat, n: nat, h: nat) {
    off <= i && LowBits(i - off, n) == LowBits(h, n)
  }

  // The first idx entries of the table at `off` that are hit hold v; nothing else changed.
  ghost predicate FilledTo(a0: seq<Entry>, a: seq<Entry>, off: nat, n: nat, h: nat, idx: nat, v: Entry) {
    && |a| == |a0|
    && forall i :: 0 <= i < |a| ==> a[i] == if i < off + idx && Hit(i, off, n, h) then v else a0[i]
  }

  lemma FillStarts(a: seq<Entry>, off: nat, n: nat, h: nat, v: Entry)
    requires h < Pow2(n)
    ensures FilledTo(a, a, off, n, h, h, v)
  {
    forall i | 0 <= i < |a| ensures !(i < off + h && Hit(i, off, n, h)) {
      if i < off + h && Hit(i, off, n, h) { SameBitsApart(i - off, h, n); }
    }
  }

  lemma FillNext(a0: seq<Entry>, a: seq<Entry>, off: nat, n: nat, h: nat, idx: nat, v: Entry)
    requires FilledTo(a0, a, off, n, h, idx, v) && off + idx < |a| && LowBits(idx, n) == LowBits(h, n)
    ensures FilledTo(a0, a[off + idx := v], off, n, h, idx + Pow2(n), v) && LowBits(idx + Pow2(n), n) == LowBits(h, n)
  {
    NextWithSameBits(idx, n);
    assert Hit(off + idx, off, n, h);
    forall i | 0 <= i < |a| && off + idx < i && Hit(i, off, n, h) ensures i >= off + idx + Pow2(n) {
      SameBitsApart(idx, i - off, n);
    }
    hide Hit, LowBits;
  }

  lemma FillEnds(a0: seq<Entry>, a: seq<Entry>, off: nat, n: nat, h: nat, idx: nat, size: nat, v: Entry)
    requires FilledTo(a0, a, off, n, h, idx, v) && off + size == |a| && idx >= size
    ensures FilledTo(a0, a, off, n, h, size, v)
  {
  }

  // `times` indices, 2^n apart, fit below 2^curr.
  lemma FillFits(h: nat, n: nat, curr: nat, i: nat, idx: nat)
    requires n <= curr && h < Pow2(n) && idx == h + Times(Pow2(n), i)
    ensures i < Pow2(curr) / Pow2(n) ==> idx < Pow2(curr)
    ensures i == Pow2(curr) / Pow2(n) ==> idx >= Pow2(curr)
  {
    var times := Pow2(curr - n);
    Pow2Add(n, curr - n);
    ModUnique(Pow2(curr), times, 0, Pow2(n));
    TimesIsProduct(Pow2(n), times);
    if i < times { TimesGrows(Pow2(n), i, times); }
  }

  lemma {:induction false} TimesGrows(a: nat, i: nat, n: nat)
    requires i < n
    ensures Times(a, i) + a <= Times(a, n)
  {
    if i + 1 < n { TimesGrows(a, i, n - 1); }
  }

  lemma TimesNext(a: nat, i: nat)
    ensures Times(a, i + 1) == Times(a, i) + a
  {
  }

  method FillTable(a: array<Entry>, h: nat, n: nat, curr: nat, v: Entry)
    requires a.Length == Pow2(curr) && n <= curr && h < Pow2(n)
    modifies a
    ensures FilledTo(old(a[..]), a[..], 0, n, h, Pow2(curr), v)
  {
    hide *;
    ghost var a0 := a[..];
    FillStarts(a0, 0, n, h, v);
    var incr, times := Pow2(n), Pow2(curr) / Pow2(n);
    var idx, i := h, 0;
    NoTimes(incr);
    while i < times
      invariant 0 <= i <= times && idx == h + Times(incr, i) && LowBits(idx, n) == LowBits(h, n)
      invariant FilledTo(a0, a[..], 0, n, h, idx, v)
    {
      FillFits(h, n, curr, i, idx);
      FillNext(a0, a[..], 0, n, h, idx, v);
      TimesNext(incr, i);
      PutEntry(a, idx, v);
      idx := idx + incr;
      i := i + 1;
    }
    FillFits(h, n, curr, i, idx);
    FillEnds(a0, a[..], 0, n, h, idx, Pow2(curr), v);
  }

  lemma NoTimes(a: nat)
    ensures Times(a, 0) == 0
  {
  }

  method PutEntry(a: array<Entry>, i: nat, v: Entry)
    requires i < a.Length
    modifies a
    ensures a[..] == old(a[..])[i := v]
  {
    a[i] := v;
  }

  method FillExtra(a0: seq<Entry>, off: nat, h: nat, n: nat, curr: nat, v: Entry) returns (a: seq<Entry>)
    requires |a0| == off + Pow2(curr) && n <= curr && h < Pow2(n)
    ensures FilledTo(a0, a, off, n, h, Pow2(curr), v) && |a| == |a0|
  {
    hide *;
    a := a0;
    FillStarts(a0, off, n, h, v);
    var incr, times := Pow2(n), Pow2(curr) / Pow2(n);
    var idx, i := h, 0;
    NoTimes(incr);
    while i < times
      invariant 0 <= i <= times && idx == h + Times(incr, i) && LowBits(idx, n) == LowBits(h, n)
      invariant FilledTo(a0, a, off, n, h, idx, v) && |a| == |a0|
    {
      FillFits(h, n, curr, i, idx);
      FillNext(a0, a, off, n, h, idx, v);
      TimesNext(incr, i);
      a := a[off + idx := v];
      idx := idx + incr;
      i := i + 1;
    }
    FillFits(h, n, curr, i, idx);
    FillEnds(a0, a, off, n, h, idx, Pow2(curr), v);
  }

  // ---------- What is in the tables ----------

  // The table under way: which root entry leads to it, its width, and where it starts.
  datatype Sub = Sub(open: bool, low: nat, curr: nat, off: nat)

  ghost predicate ShortAt(t: Tables, root: nat, x: nat, v: Entry) {
    |t.table| == Pow2(root) && t.table[KeepLow(x, root)] == v
  }

  ghost predicate LongAt(t: Tables, root: nat, sub: Sub, x: nat, v: Entry) {
    && |t.table| == Pow2(root) && sub.open
    && var e := t.table[KeepLow(x, root)];
       && IsLink(e.op) && e.bits == root && e.val + Pow2(e.op) <= |t.extra|
       && (if KeepLow(x, root) == sub.low then e == Entry(sub.curr, root, sub.off) else e.val + Pow2(e.op) <= sub.off)
       && t.extra[e.val + KeepLow(ShiftRight(x, root), e.op)] == v
  }

  ghost predicate Done(t: Tables, root: nat, lens: seq<nat>, kind: Kind, sub: Sub, k: nat)
    requires k < |lens|
  {
    forall x :: Match(x, lens, k) ==>
      if lens[k] <= root then ShortAt(t, root, x, Entry(kind.Op(k), lens[k], kind.Val(k)))
      else LongAt(t, root, sub, x, Entry(kind.Op(k), lens[k] - root, kind.Val(k)))
  }

  // Symbol j comes before the code of length n and rank r.
  ghost predicate Before(lens: seq<nat>, j: nat, n: nat, r: nat)
    requires j < |lens|
  {
    lens[j] > 0 && (lens[j] < n || (lens[j] == n && Rank(lens, j) < r))
  }

  ghost predicate AllDone(t: Tables, root: nat, lens: seq<nat>, kind: Kind, sub: Sub, n: nat, r: nat) {
    forall j :: 0 <= j < |lens| && Before(lens, j, n, r) ==> Done(t, root, lens, kind, sub, j)
  }

  // k is the symbol whose code is in huff, in opposite bit order.
  ghost predicate Current(lens: seq<nat>, n: nat, r: nat, k: nat, huff: nat) {
    && k < |lens| && lens[k] == n > 0 && Rank(lens, k) == r
    && huff < Pow2(n) && Value(LowBits(huff, n)) == Code(lens, k)
  }

  lemma CurrentMatch(lens: seq<nat>, n: nat, r: nat, k: nat, huff: nat, x: nat)
    requires Current(lens, n, r, k, huff)
    ensures Match(x, lens, k) <==> LowBits(x, n) == LowBits(huff, n)
  {
    if Match(x, lens, k) { ValueInjective(LowBits(x, n), LowBits(huff, n)); }
  }

  // A symbol that is done is not the current one, so its bits never lead to the same entries.
  lemma DoneApart(lens: seq<nat>, n: nat, r: nat, k: nat, huff: nat, j: nat, x: nat)
    requires Feasible(lens, MAX_BITS) && Current(lens, n, r, k, huff) && j < |lens| && Before(lens, j, n, r) && Match(x, lens, j)
    ensures LowBits(x, n) != LowBits(huff, n)
  {
    if LowBits(x, n) == LowBits(huff, n) {
      CurrentMatch(lens, n, r, k, huff, x);
      UniqueMatch(x, lens, j, k);
    }
  }

  // Filling the root table for a short code.
  lemma ShortFilled(t: Tables, t': Tables, root: nat, lens: seq<nat>, kind: Kind, sub: Sub, n: nat, r: nat, k: nat, huff: nat)
    requires Feasible(lens, MAX_BITS) && Current(lens, n, r, k, huff) && n <= root && |t.table| == Pow2(root)
    requires AllDone(t, root, lens, kind, sub, n, r)
    requires FilledTo(t.table, t'.table, 0, n, huff, Pow2(root), Entry(kind.Op(k), n, kind.Val(k))) && t'.extra == t.extra
    ensures Done(t', root, lens, kind, sub, k) && AllDone(t', root, lens, kind, sub, n, r)
  {
    var v := Entry(kind.Op(k), n, kind.Val(k));
    forall x | Match(x, lens, k) ensures ShortAt(t', root, x, v) {
      CurrentMatch(lens, n, r, k, huff, x);
      RootHit(t, t', root, n, huff, x, v);
    }
    forall j | 0 <= j < |lens| && Before(lens, j, n, r) ensures Done(t', root, lens, kind, sub, j) {
      assert Done(t, root, lens, kind, sub, j);
      forall x | Match(x, lens, j) ensures ShortAt(t', root, x, Entry(kind.Op(j), lens[j], kind.Val(j))) {
        DoneApart(lens, n, r, k, huff, j, x);
        RootMiss(t, t', root, n, huff, x, v, Entry(kind.Op(j), lens[j], kind.Val(j)));
      }
    }
    hide Done, AllDone;
  }

  lemma RootHit(t: Tables, t': Tables, root: nat, n: nat, huff: nat, x: nat, v: Entry)
    requires n <= root && |t.table| == Pow2(root) && FilledTo(t.table, t'.table, 0, n, huff, Pow2(root), v)
    requires LowBits(x, n) == LowBits(huff, n)
    ensures ShortAt(t', root, x, v)
  {
    KeptBits(x, n, root);
    assert Hit(KeepLow(x, root), 0, n, huff);
  }

  lemma RootMiss(t: Tables, t': Tables, root: nat, n: nat, huff: nat, x: nat, v: Entry, w: Entry)
    requires n <= root && ShortAt(t, root, x, w) && FilledTo(t.table, t'.table, 0, n, huff, Pow2(root), v)
    requires LowBits(x, n) != LowBits(huff, n)
    ensures ShortAt(t', root, x, w)
  {
    KeptBits(x, n, root);
    assert !Hit(KeepLow(x, root), 0, n, huff);
  }

  // The table under way serves the current code.
  ghost predicate Opened(t: Tables, root: nat, sub: Sub, huff: nat) {
    && |t.table| == Pow2(root) && sub.open && sub.low == KeepLow(huff, root)
    && t.table[sub.low] == Entry(sub.curr, root, sub.off) && IsLink(sub.curr) && sub.off + Pow2(sub.curr) == |t.extra|
  }

  lemma SplitMatch(x: nat, huff: nat, root: nat, n: nat)
    requires root < n
    ensures LowBits(x, n) == LowBits(huff, n) <==>
            KeepLow(x, root) == KeepLow(huff, root) && LowBits(ShiftRight(x, root), n - root) == LowBits(ShiftRight(huff, root), n - root)
  {
    LowBitsSplit(x, root, n - root);
    LowBitsSplit(huff, root, n - root);
    SameKept(x, huff, root);
    var a, b, c, d := LowBits(x, root), LowBits(ShiftRight(x, root), n - root), LowBits(huff, root), LowBits(ShiftRight(huff, root), n - root);
    if a + b == c + d {
      assert a == (a + b)[..root] && c == (c + d)[..root] && b == (a + b)[root..] && d == (c + d)[root..];
    }
  }

  // Where a stream that leads to the table under way ends up in it.
  lemma ExtraIndex(x: nat, huff: nat, root: nat, n: nat, curr: nat, off: nat)
    requires root < n <= root + curr && KeepLow(x, root) == KeepLow(huff, root)
    ensures Hit(off + KeepLow(ShiftRight(x, root), curr), off, n - root, ShiftRight(huff, root)) <==> LowBits(x, n) == LowBits(huff, n)
  {
    hide *;
    SplitMatch(x, huff, root, n);
    KeptBits(ShiftRight(x, root), n - root, curr);
    HitAt(KeepLow(ShiftRight(x, root), curr), off, n - root, ShiftRight(huff, root));
  }

  lemma HitAt(y: nat, off: nat, n: nat, h: nat)
    ensures Hit(off + y, off, n, h) <==> LowBits(y, n) == LowBits(h, n)
  {
    hide LowBits;
    assert off + y - off == y;
  }

  // Filling the table under way for a long code.
  lemma LongFilled(t: Tables, t': Tables, root: nat, lens: seq<nat>, kind: Kind, sub: Sub, n: nat, r: nat, k: nat, huff: nat)
    requires Feasible(lens, MAX_BITS) && Current(lens, n, r, k, huff) && root < n <= root + sub.curr
    requires Opened(t, root, sub, huff) && AllDone(t, root, lens, kind, sub, n, r) && t'.table == t.table
    requires FilledTo(t.extra, t'.extra, sub.off, n - root, ShiftRight(huff, root), Pow2(sub.curr), Entry(kind.Op(k), n - root, kind.Val(k)))
    ensures Done(t', root, lens, kind, sub, k) && AllDone(t', root, lens, kind, sub, n, r) && Opened(t', root, sub, huff)
  {
    var v := Entry(kind.Op(k), n - root, kind.Val(k));
    forall x | Match(x, lens, k) ensures LongAt(t', root, sub, x, v) {
      LongFilledHit(t, t', root, lens, sub, n, r, k, huff, x, v);
    }
    forall j | 0 <= j < |lens| && Before(lens, j, n, r) ensures Done(t', root, lens, kind, sub, j) {
      assert Done(t, root, lens, kind, sub, j);
      forall x | Match(x, lens, j)
        ensures if lens[j] <= root then ShortAt(t', root, x, Entry(kind.Op(j), lens[j], kind.Val(j)))
                else LongAt(t', root, sub, x, Entry(kind.Op(j), lens[j] - root, kind.Val(j)))
      {
        if lens[j] > root {
          DoneApart(lens, n, r, k, huff, j, x);
          LongFilledMiss(t, t', root, sub, n, huff, x, v, Entry(kind.Op(j), lens[j] - root, kind.Val(j)));
        }
      }
    }
    hide Done, AllDone;
  }

  lemma LongFilledHit(t: Tables, t': Tables, root: nat, lens: seq<nat>, sub: Sub, n: nat, r: nat, k: nat, huff: nat, x: nat, v: Entry)
    requires Current(lens, n, r, k, huff) && root < n <= root + sub.curr && Opened(t, root, sub, huff) && t'.table == t.table
    requires FilledTo(t.extra, t'.extra, sub.off, n - root, ShiftRight(huff, root), Pow2(sub.curr), v) && Match(x, lens, k)
    ensures LongAt(t', root, sub, x, v)
  {
    CurrentMatch(lens, n, r, k, huff, x);
    SplitMatch(x, huff, root, n);
    ExtraIndex(x, huff, root, n, sub.curr, sub.off);
    hide Hit, Current, Match, LowBits, KeepLow;
  }

  lemma LongFilledMiss(t: Tables, t': Tables, root: nat, sub: Sub, n: nat, huff: nat, x: nat, v: Entry, w: Entry)
    requires root < n <= root + sub.curr && Opened(t, root, sub, huff) && t'.table == t.table
    requires FilledTo(t.extra, t'.extra, sub.off, n - root, ShiftRight(huff, root), Pow2(sub.curr), v)
    requires LowBits(x, n) != LowBits(huff, n) && LongAt(t, root, sub, x, w)
    ensures LongAt(t', root, sub, x, w)
  {
    hide *;
    if KeepLow(x, root) == sub.low {
      MissHere(t, t', root, sub, n, huff, x, v, w);
    } else {
      MissThere(t, t', root, sub, n, huff, x, v, w);
    }
  }

  lemma MissHere(t: Tables, t': Tables, root: nat, sub: Sub, n: nat, huff: nat, x: nat, v: Entry, w: Entry)
    requires root < n <= root + sub.curr && Opened(t, root, sub, huff) && t'.table == t.table && KeepLow(x, root) == sub.low
    requires FilledTo(t.extra, t'.extra, sub.off, n - root, ShiftRight(huff, root), Pow2(sub.curr), v)
    requires LowBits(x, n) != LowBits(huff, n) && LongAt(t, root, sub, x, w)
    ensures LongAt(t', root, sub, x, w)
  {
    hide *;
    LongHere(t, root, sub, huff, x, w);
    ExtraIndex(x, huff, root, n, sub.curr, sub.off);
    NotHit(t.extra, t'.extra, sub.off, n - root, ShiftRight(huff, root), Pow2(sub.curr), v,
           sub.off + KeepLow(ShiftRight(x, root), sub.curr));
    LongHereAgain(t', root, sub, x, w);
  }

  lemma LongHere(t: Tables, root: nat, sub: Sub, huff: nat, x: nat, w: Entry)
    requires Opened(t, root, sub, huff) && LongAt(t, root, sub, x, w) && KeepLow(x, root) == sub.low
    ensures KeepLow(x, root) == KeepLow(huff, root) && |t.table| == Pow2(root) && sub.open && sub.low < |t.table|
    ensures t.table[sub.low] == Entry(sub.curr, root, sub.off) && IsLink(sub.curr) && sub.off + Pow2(sub.curr) <= |t.extra|
    ensures var i := sub.off + KeepLow(ShiftRight(x, root), sub.curr); i < |t.extra| && t.extra[i] == w
  {
    hide IsLink, Pow2, ShiftRight;
  }

  lemma LongHereAgain(t: Tables, root: nat, sub: Sub, x: nat, w: Entry)
    requires KeepLow(x, root) == sub.low && |t.table| == Pow2(root) && sub.open && sub.low < |t.table|
    requires t.table[sub.low] == Entry(sub.curr, root, sub.off) && IsLink(sub.curr) && sub.off + Pow2(sub.curr) <= |t.extra|
    requires var i := sub.off + KeepLow(ShiftRight(x, root), sub.curr); i < |t.extra| && t.extra[i] == w
    ensures LongAt(t, root, sub, x, w)
  {
    hide IsLink, Pow2, ShiftRight;
  }

  lemma NotHit(a0: seq<Entry>, a: seq<Entry>, off: nat, n: nat, h: nat, idx: nat, v: Entry, i: nat)
    requires FilledTo(a0, a, off, n, h, idx, v) && !Hit(i, off, n, h)
    ensures |a| == |a0| && (i < |a| ==> a[i] == a0[i])
  {
    hide Hit;
  }

  lemma MissThere(t: Tables, t': Tables, root: nat, sub: Sub, n: nat, huff: nat, x: nat, v: Entry, w: Entry)
    requires root < n <= root + sub.curr && t'.table == t.table && KeepLow(x, root) != sub.low
    requires FilledTo(t.extra, t'.extra, sub.off, n - root, ShiftRight(huff, root), Pow2(sub.curr), v) && LongAt(t, root, sub, x, w)
    ensures LongAt(t', root, sub, x, w)
  {
    hide LowBits, KeepLow, ShiftRight, IsLink;
  }

  // ---------- A new table ----------

  lemma {:induction false} PrefixMono(a: seq<Bit>, b: seq<Bit>, m: nat)
    requires |a| == |b| && m <= |a| && Value(a) <= Value(b)
    ensures Value(a[..m]) <= Value(b[..m])
    decreases |a|
  {
    var n := |a|;
    if m < n {
      PrefixMono(a[..n - 1], b[..n - 1], m);
      assert a[..n - 1][..m] == a[..m] && b[..n - 1][..m] == b[..m];
    } else {
      assert a[..m] == a && b[..m] == b;
    }
  }

  // Later codes do not have smaller first bits.
  lemma PrefixOrder(lens: seq<nat>, j: nat, k: nat, x: nat, h: nat, root: nat)
    requires Feasible(lens, MAX_BITS) && j < |lens| && k < |lens| && lens[k] > 0 && Before(lens, j, lens[k], Rank(lens, k))
    requires Match(x, lens, j) && Match(h, lens, k) && root < lens[j]
    ensures Value(LowBits(x, root)) <= Value(LowBits(h, root))
  {
    var n := lens[j];
    CodeBounds(lens, j, MAX_BITS);
    CodeBounds(lens, k, MAX_BITS);
    if n < lens[k] {
      assert LowBits(h, lens[k])[..lens[k]] == LowBits(h, lens[k]);
      if Value(LowBits(h, lens[k])[..n]) < First(lens, n) + Count(lens, n) { StaysBelow(lens, LowBits(h, lens[k]), n, lens[k]); }
      LowBitsPrefix(h, n, lens[k]);
    }
    PrefixMono(LowBits(x, n), LowBits(h, n), root);
    LowBitsPrefix(x, root, n);
    LowBitsPrefix(h, root, n);
  }

  // Every code before the current one has other first bits than `low`, unless it is short.
  ghost predicate NewPrefix(lens: seq<nat>, n: nat, r: nat, root: nat, low: nat) {
    forall j, x :: 0 <= j < |lens| && Before(lens, j, n, r) && lens[j] > root && Match(x, lens, j) ==> KeepLow(x, root) != low
  }

  // The codes before the new current code are the old ones and the old current code.
  ghost predicate Follows(lens: seq<nat>, n: nat, r: nat, k: nat, n': nat, r': nat) {
    && n <= n' && k < |lens| && Before(lens, k, n', r')
    && forall j :: 0 <= j < |lens| && Before(lens, j, n', r') ==> Before(lens, j, n, r) || j == k
  }

  lemma PrefixIsNew(lens: seq<nat>, n: nat, r: nat, k: nat, huff: nat, n': nat, r': nat, k': nat, huff': nat, root: nat)
    requires Feasible(lens, MAX_BITS) && Current(lens, n, r, k, huff) && Current(lens, n', r', k', huff') && Follows(lens, n, r, k, n', r')
    requires n > root ==> KeepLow(huff, root) != KeepLow(huff', root)
    ensures NewPrefix(lens, n', r', root, KeepLow(huff', root))
  {
    var low := KeepLow(huff', root);
    forall j, x | 0 <= j < |lens| && Before(lens, j, n', r') && lens[j] > root && Match(x, lens, j) ensures KeepLow(x, root) != low {
      PrefixIsOther(lens, n, r, k, huff, n', r', k', huff', root, j, x);
    }
  }

  lemma PrefixIsOther(lens: seq<nat>, n: nat, r: nat, k: nat, huff: nat, n': nat, r': nat, k': nat, huff': nat, root: nat, j: nat, x: nat)
    requires Feasible(lens, MAX_BITS) && Current(lens, n, r, k, huff) && Current(lens, n', r', k', huff') && Follows(lens, n, r, k, n', r')
    requires n > root ==> KeepLow(huff, root) != KeepLow(huff', root)
    requires j < |lens| && Before(lens, j, n', r') && lens[j] > root && Match(x, lens, j)
    ensures KeepLow(x, root) != KeepLow(huff', root)
  {
    CurrentMatch(lens, n, r, k, huff, huff);
    CurrentMatch(lens, n', r', k', huff', huff');
    PrefixOrder(lens, k, k', huff, huff', root) by { assert n > root; }
    if j == k {
      CurrentMatch(lens, n, r, k, huff, x);
      SplitMatch(x, huff, root, n);
    } else {
      PrefixOrder(lens, j, k, x, huff, root);
      if KeepLow(x, root) == KeepLow(huff', root) {
        SameKept(x, huff', root);
        ValueInjective(LowBits(huff, root), LowBits(huff', root));
        SameKept(huff, huff', root);
      }
    }
  }

  function WithLink(t: Tables, low: nat, curr: nat, root: nat, room: seq<Entry>): Tables
    requires low < |t.table|
  {
    Tables(t.table[low := Entry(curr, root, |t.extra|)], t.extra + room)
  }

  // A link to a new table leaves everything that is done as it is.
  lemma LinkAdded(t: Tables, root: nat, lens: seq<nat>, kind: Kind, sub: Sub, n: nat, r: nat, k: nat, huff: nat, curr: nat, room: seq<Entry>)
    requires Feasible(lens, MAX_BITS) && Current(lens, n, r, k, huff) && root < n && |t.table| == Pow2(root)
    requires AllDone(t, root, lens, kind, sub, n, r) && NewPrefix(lens, n, r, root, KeepLow(huff, root))
    requires 0 < curr < 16 && |room| == Pow2(curr)
    ensures var t' := WithLink(t, KeepLow(huff, root), curr, root, room);
            var sub' := Sub(true, KeepLow(huff, root), curr, |t.extra|);
            AllDone(t', root, lens, kind, sub', n, r) && Opened(t', root, sub', huff)
  {
    var low := KeepLow(huff, root);
    var sub' := Sub(true, low, curr, |t.extra|);
    var t' := WithLink(t, low, curr, root, room);
    SmallLink(curr);
    forall j | 0 <= j < |lens| && Before(lens, j, n, r) ensures Done(t', root, lens, kind, sub', j) {
      LinkKeeps(t, root, lens, kind, sub, n, r, k, huff, curr, room, j);
    }
    hide Done, IsLink, NewPrefix;
  }

  lemma SmallLink(curr: nat)
    requires 0 < curr < 16
    ensures IsLink(curr)
  {
  }

  lemma LinkKeeps(t: Tables, root: nat, lens: seq<nat>, kind: Kind, sub: Sub, n: nat, r: nat, k: nat, huff: nat, curr: nat, room: seq<Entry>, j: nat)
    requires Feasible(lens, MAX_BITS) && Current(lens, n, r, k, huff) && root < n && |t.table| == Pow2(root)
    requires AllDone(t, root, lens, kind, sub, n, r) && NewPrefix(lens, n, r, root, KeepLow(huff, root))
    requires j < |lens| && Before(lens, j, n, r)
    ensures Done(WithLink(t, KeepLow(huff, root), curr, root, room), root, lens, kind, Sub(true, KeepLow(huff, root), curr, |t.extra|), j)
  {
    assert Done(t, root, lens, kind, sub, j);
    hide Feasible, Current, WithLink, Match;
    var low := KeepLow(huff, root);
    var t', sub' := WithLink(t, low, curr, root, room), Sub(true, low, curr, |t.extra|);
    forall x | Match(x, lens, j)
      ensures if lens[j] <= root then ShortAt(t', root, x, Entry(kind.Op(j), lens[j], kind.Val(j)))
              else LongAt(t', root, sub', x, Entry(kind.Op(j), lens[j] - root, kind.Val(j)))
    {
      if lens[j] <= root {
        ShortPrefix(lens, n, r, k, huff, root, j, x);
        LinkKeepsShort(t, root, low, curr, room, x, Entry(kind.Op(j), lens[j], kind.Val(j)));
      } else {
        LinkKeepsLong(t, root, sub, low, curr, room, x, Entry(kind.Op(j), lens[j] - root, kind.Val(j)));
      }
    }
  }

  lemma LinkKeepsShort(t: Tables, root: nat, low: nat, curr: nat, room: seq<Entry>, x: nat, v: Entry)
    requires low < |t.table| && ShortAt(t, root, x, v) && KeepLow(x, root) != low
    ensures ShortAt(WithLink(t, low, curr, root, room), root, x, v)
  {
  }

  lemma LinkKeepsLong(t: Tables, root: nat, sub: Sub, low: nat, curr: nat, room: seq<Entry>, x: nat, v: Entry)
    requires low < |t.table| && LongAt(t, root, sub, x, v) && KeepLow(x, root) != low
    ensures LongAt(WithLink(t, low, curr, root, room), root, Sub(true, low, curr, |t.extra|), x, v)
  {
    hide IsLink, KeepLow, ShiftRight;
  }

  lemma ShortPrefix(lens: seq<nat>, n: nat, r: nat, k: nat, huff: nat, root: nat, j: nat, x: nat)
    requires Feasible(lens, MAX_BITS) && Current(lens, n, r, k, huff) && root < n && j < |lens| && Before(lens, j, n, r)
    requires lens[j] <= root && Match(x, lens, j)
    ensures KeepLow(x, root) != KeepLow(huff, root)
  {
    if KeepLow(x, root) == KeepLow(huff, root) {
      SameKept(x, huff, root);
      LowBitsPrefix(x, lens[j], root);
      LowBitsPrefix(huff, lens[j], root);
      CurrentMatch(lens, n, r, k, huff, huff);
      UniqueMatch(huff, lens, j, k);
    }
  }

  // ---------- How wide a new table must be ----------

  // All codes with the first bits `low` fit a table of this width.
  ghost predicate WideEnough(lens: seq<nat>, root: nat, low: nat, curr: nat) {
    forall j, x :: 0 <= j < |lens| && lens[j] > root && Match(x, lens, j) && KeepLow(x, root) == low ==> lens[j] <= root + curr
  }

  lemma {:induction false} ShiftAddOne(a: nat, n: nat)
    ensures Shift(a + 1, n) == Shift(a, n) + Pow2(n)
  {
    if n > 0 {
      ShiftAddOne(a, n - 1);
    }
  }

  lemma {:induction false} ShiftMono(a: nat, b: nat, n: nat)
    requires a <= b
    ensures Shift(a, n) <= Shift(b, n)
    decreases n
  {
    if n > 0 { ShiftMono(a, b, n - 1); }
  }

  lemma {:induction false} ShiftTwice(a: nat, n: nat, m: nat)
    ensures Shift(Shift(a, n), m) == Shift(a, n + m)
  {
    if m > 0 { ShiftTwice(a, n, m - 1); }
  }

  // A string lies among those that start with its first bits.
  lemma {:induction false} ValueBetween(s: seq<Bit>, m: nat)
    requires m <= |s|
    ensures Shift(Value(s[..m]), |s| - m) <= Value(s) < Shift(Value(s[..m]) + 1, |s| - m)
    decreases |s|
  {
    if m < |s| {
      var z := |s| - 1;
      assert s[..z][..m] == s[..m];
      ValueBetween(s[..z], m);
    } else {
      assert s[..m] == s;
    }
  }

  lemma {:induction false} FirstAbove(lens: seq<nat>, n: nat, m: nat)
    requires 1 <= n < m
    ensures First(lens, m) >= Shift(First(lens, n) + Count(lens, n), m - n)
    decreases m
  {
    if n + 1 < m {
      FirstAbove(lens, n, m - 1);
    } else {
      assert Shift(First(lens, n) + Count(lens, n), 1) == 2 * (First(lens, n) + Count(lens, n));
    }
  }

  // Once the codes up to length n reach the end of the prefix, no longer code has it.
  lemma PrefixExhausted(lens: seq<nat>, root: nat, p: nat, n: nat, j: nat, x: nat)
    requires Feasible(lens, MAX_BITS) && 1 <= root <= n && j < |lens| && lens[j] > n && Match(x, lens, j)
    requires First(lens, n) + Count(lens, n) >= Shift(p + 1, n - root)
    ensures Value(LowBits(x, root)) != p
  {
    hide *;
    var m := lens[j];
    MatchAboveFirst(lens, j, x);
    FirstAbove(lens, n, m);
    ShiftMono(Shift(p + 1, n - root), First(lens, n) + Count(lens, n), m - n);
    ShiftTwice(p + 1, n - root, m - n);
    assert n - root + (m - n) == m - root;
    ValueBetween(LowBits(x, m), root);
    LowBitsPrefix(x, root, m);
  }

  lemma MatchAboveFirst(lens: seq<nat>, j: nat, x: nat)
    requires j < |lens| && Match(x, lens, j)
    ensures Value(LowBits(x, lens[j])) >= First(lens, lens[j])
  {
  }

  ghost predicate Counted(count: seq<nat>, lens: seq<nat>, n: nat, r: nat) {
    && |count| == MAX_BITS + 1 && 1 <= n <= MAX_BITS && r <= Count(lens, n)
    && forall x :: n <= x <= MAX_BITS ==> count[x] == Count(lens, x) - (if x == n then r else 0)
  }

  // The next code of length m, if no code of a length below m remained.
  function Upcoming(lens: seq<nat>, n: nat, r: nat, m: nat): nat {
    if m == n then First(lens, n) + r else First(lens, m)
  }

  ghost predicate Sizing(left: int, lens: seq<nat>, n: nat, r: nat, p: nat, root: nat, m: nat) {
    n <= m && root <= m && left == Shift(p + 1, m - root) - Upcoming(lens, n, r, m)
  }

  lemma SizingStarts(lens: seq<nat>, n: nat, r: nat, k: nat, huff: nat, root: nat)
    requires Current(lens, n, r, k, huff) && root < n
    requires First(lens, n) + r == Shift(Value(LowBits(huff, root)), n - root)
    ensures Sizing(Pow2(n - root), lens, n, r, Value(LowBits(huff, root)), root, n)
  {
    ShiftAddOne(Value(LowBits(huff, root)), n - root);
  }

  lemma SizingNext(left: int, count: seq<nat>, lens: seq<nat>, n: nat, r: nat, p: nat, root: nat, m: nat)
    requires Sizing(left, lens, n, r, p, root, m) && Counted(count, lens, n, r) && root < m < MAX_BITS
    ensures left - count[m] <= 0 <==> First(lens, m) + Count(lens, m) >= Shift(p + 1, m - root)
    ensures m == n ==> count[m] == Count(lens, n) - r
    ensures Sizing(2 * (left - count[m]), lens, n, r, p, root, m + 1)
  {
  }

  lemma SizedByCodes(lens: seq<nat>, root: nat, huff: nat, m: nat)
    requires Feasible(lens, MAX_BITS) && 1 <= root <= m
    requires First(lens, m) + Count(lens, m) >= Shift(Value(LowBits(huff, root)) + 1, m - root)
    ensures WideEnough(lens, root, KeepLow(huff, root), m - root)
  {
    hide Feasible, First, Count, Value, LowBits, KeepLow, Match, Shift;
    forall j, x | 0 <= j < |lens| && lens[j] > root && Match(x, lens, j) && KeepLow(x, root) == KeepLow(huff, root)
      ensures lens[j] <= root + (m - root)
    {
      SameKept(x, huff, root);
      if lens[j] > m { PrefixExhausted(lens, root, Value(LowBits(huff, root)), m, j, x); }
    }
  }

  // A table is no wider than its codes need: it holds only codes of length n, or the codes up to one
  // bit less than its width do not use up the prefix p.
  ghost predicate Snug(lens: seq<nat>, root: nat, max: nat, n: nat, r: nat, p: nat, curr: nat) {
    root < n <= root + curr &&
    if root + curr == n then n == max || Count(lens, n) - r >= Pow2(curr)
    else First(lens, root + curr - 1) + Count(lens, root + curr - 1) < Shift(p + 1, curr - 1)
  }

  method SizeTable(count: array<nat>, len: nat, root: nat, max: nat, ghost lens: seq<nat>, ghost r: nat, ghost k: nat, ghost huff: nat)
    returns (curr: nat)
    requires Feasible(lens, MAX_BITS) && Counted(count[..], lens, len, r) && Current(lens, len, r, k, huff)
    requires 1 <= root < len <= max <= MAX_BITS && AtMost(lens, max)
    requires First(lens, len) + r == Shift(Value(LowBits(huff, root)), len - root)
    ensures len <= root + curr <= max && WideEnough(lens, root, KeepLow(huff, root), curr)
    ensures Snug(lens, root, max, len, r, Value(LowBits(huff, root)), curr)
  {
    hide Feasible, Current, Counted, Sizing, WideEnough, AtMost, LowBits, Value, Shift, Match, First, Count;
    ghost var p := Value(LowBits(huff, root));
    SizingStarts(lens, len, r, k, huff, root);
    CountLength(count[..], lens, len, r);
    curr := len - root;
    var left: int := Pow2(curr);
    while curr + root < max
      invariant len <= root + curr <= max && Sizing(left, lens, len, r, p, root, root + curr)
      invariant root + curr == len ==> left == Pow2(curr)
      invariant root + curr > len ==> First(lens, root + curr - 1) + Count(lens, root + curr - 1) < Shift(p + 1, curr - 1)
      decreases max - curr
    {
      var sum := curr + root;
      SizingNext(left, count[..], lens, len, r, p, root, sum);
      left := left - count[..][sum];
      if left <= 0 {
        SizedByCodes(lens, root, huff, sum);
        return;
      }
      left := left * 2;
      curr := curr + 1;
    }
    SizedByMax(lens, root, KeepLow(huff, root), curr, max);
  }

  lemma CountLength(count: seq<nat>, lens: seq<nat>, n: nat, r: nat)
    requires Counted(count, lens, n, r)
    ensures |count| == MAX_BITS + 1
  {
  }

  lemma SizedByMax(lens: seq<nat>, root: nat, low: nat, curr: nat, max: nat)
    requires AtMost(lens, max) && root + curr == max
    ensures WideEnough(lens, root, low, curr)
  {
  }

  // ---------- From one code to the next ----------

  lemma {:induction false} FirstSkips(lens: seq<nat>, n: nat, m: nat)
    requires 1 <= n < m && forall x :: n < x < m ==> Count(lens, x) == 0
    ensures First(lens, m) == Shift(First(lens, n) + Count(lens, n), m - n)
    ensures Below(lens, m) == Below(lens, n) + Count(lens, n)
    decreases m
  {
    BelowNext(lens, m - 1);
    if n + 1 < m { FirstSkips(lens, n, m - 1); }
  }

  lemma {:induction false} ShiftReflectsLess(a: nat, n: nat, m: nat)
    requires Shift(a, m) < Pow2(n + m)
    ensures a < Pow2(n)
    decreases m
  {
    if m > 0 {
      ShiftReflectsLess(a, n, m - 1);
    }
  }

  lemma {:induction false} NextLength(lens: seq<nat>, n: nat, max: nat) returns (m: nat)
    requires n < max && Count(lens, max) > 0
    ensures n < m <= max && Count(lens, m) > 0 && forall x :: n < x < m ==> Count(lens, x) == 0
    decreases max - n
  {
    if Count(lens, n + 1) > 0 {
      m := n + 1;
    } else {
      m := NextLength(lens, n + 1, max);
    }
  }

  lemma SameLengthFollows(lens: seq<nat>, n: nat, r: nat, k: nat, huff: nat, next: nat) returns (k': nat)
    requires Feasible(lens, MAX_BITS) && Current(lens, n, r, k, huff) && r + 1 < Count(lens, n) && next < Pow2(n)
    requires Value(LowBits(huff, n)) + 1 < Pow2(n) ==> Value(LowBits(next, n)) == Value(LowBits(huff, n)) + 1
    ensures Current(lens, n, r + 1, k', next) && Follows(lens, n, r, k, n, r + 1) && Position(lens, k') == Position(lens, k) + 1
  {
    k' := FindRank(lens, n, r + 1);
    CodeBounds(lens, k', MAX_BITS);
    hide First, Value, LowBits;
    FollowsRank(lens, n, r, k);
  }

  lemma FollowsRank(lens: seq<nat>, n: nat, r: nat, k: nat)
    requires k < |lens| && lens[k] == n > 0 && Rank(lens, k) == r
    ensures Follows(lens, n, r, k, n, r + 1)
  {
    forall j | 0 <= j < |lens| && Before(lens, j, n, r + 1) ensures Before(lens, j, n, r) || j == k {
      if lens[j] == n && Rank(lens, j) == r && j < k { RankGrows(lens, j, k); }
      if lens[j] == n && Rank(lens, j) == r && k < j { RankGrows(lens, k, j); }
    }
  }

  lemma LongerFollows(lens: seq<nat>, n: nat, r: nat, k: nat, huff: nat, next: nat, max: nat) returns (n': nat, k': nat)
    requires Feasible(lens, MAX_BITS) && Current(lens, n, r, k, huff) && r + 1 == Count(lens, n) && next < Pow2(n)
    requires Value(LowBits(huff, n)) + 1 < Pow2(n) ==> Value(LowBits(next, n)) == Value(LowBits(huff, n)) + 1
    requires n < max <= MAX_BITS && Count(lens, max) > 0
    ensures n < n' <= max && Current(lens, n', 0, k', next) && Follows(lens, n, r, k, n', 0) && Position(lens, k') == Position(lens, k) + 1
    ensures Succeeds(lens, n, r, n', 0)
  {
    n' := NextLength(lens, n, max);
    k' := FindRank(lens, n', 0);
    FirstSkips(lens, n, n');
    LongerCode(lens, n, r, k, huff, next, n', k');
    LongerComes(lens, n, r, k, n');
  }

  lemma LongerCode(lens: seq<nat>, n: nat, r: nat, k: nat, huff: nat, next: nat, n': nat, k': nat)
    requires Feasible(lens, MAX_BITS) && Current(lens, n, r, k, huff) && r + 1 == Count(lens, n) && next < Pow2(n)
    requires Value(LowBits(huff, n)) + 1 < Pow2(n) ==> Value(LowBits(next, n)) == Value(LowBits(huff, n)) + 1
    requires n < n' && k' < |lens| && lens[k'] == n' && Rank(lens, k') == 0
    requires First(lens, n') == Shift(First(lens, n) + Count(lens, n), n' - n)
    ensures Current(lens, n', 0, k', next)
  {
    hide *;
    CurrentCode(lens, n, r, k, huff);
    NextFits(lens, n, n', k');
    Pow2Mono(n, n');
    Widened(next, n, n' - n);
    assert n + (n' - n) == n';
    ValueShifted(LowBits(next, n), n' - n);
    CurrentIs(lens, n', k', next);
  }

  lemma CurrentIs(lens: seq<nat>, n: nat, k: nat, huff: nat)
    requires k < |lens| && lens[k] == n > 0 && Rank(lens, k) == 0 && huff < Pow2(n) && Value(LowBits(huff, n)) == Code(lens, k)
    ensures Current(lens, n, 0, k, huff)
  {
  }

  lemma CurrentCode(lens: seq<nat>, n: nat, r: nat, k: nat, huff: nat)
    requires Current(lens, n, r, k, huff)
    ensures Value(LowBits(huff, n)) == First(lens, n) + r
  {
  }

  lemma NextFits(lens: seq<nat>, n: nat, n': nat, k': nat)
    requires Feasible(lens, MAX_BITS) && n < n' && k' < |lens| && lens[k'] == n' && Rank(lens, k') == 0
    requires First(lens, n') == Shift(First(lens, n) + Count(lens, n), n' - n)
    ensures First(lens, n) + Count(lens, n) < Pow2(n) && Code(lens, k') == First(lens, n')
  {
    hide *;
    FirstRank(lens, k');
    assert n + (n' - n) == n';
    ShiftReflectsLess(First(lens, n) + Count(lens, n), n, n' - n);
  }

  lemma FirstRank(lens: seq<nat>, k: nat)
    requires k < |lens| && lens[k] > 0 && Rank(lens, k) == 0 && Feasible(lens, MAX_BITS)
    ensures Code(lens, k) == First(lens, lens[k]) < Pow2(lens[k])
  {
    CodeBounds(lens, k, MAX_BITS);
    hide First, Count, Pow2;
  }

  lemma {:induction false} CountedLength(lens: seq<nat>, j: nat)
    requires j < |lens|
    ensures Count(lens, lens[j]) > 0
  {
    CountSplit(lens, j);
  }

  lemma LongerComes(lens: seq<nat>, n: nat, r: nat, k: nat, n': nat)
    requires k < |lens| && lens[k] == n > 0 && Rank(lens, k) == r && r + 1 == Count(lens, n) && n < n'
    requires forall x :: n < x < n' ==> Count(lens, x) == 0
    ensures Follows(lens, n, r, k, n', 0)
  {
    FollowsRank(lens, n, r, k);
    forall j | 0 <= j < |lens| && Before(lens, j, n', 0) ensures Before(lens, j, n, r) || j == k {
      CountedLength(lens, j);
      CountSplit(lens, j);
    }
  }

  // After the last code of the greatest length, all symbols are done.
  lemma LastFollows(lens: seq<nat>, n: nat, r: nat, k: nat)
    requires k < |lens| && lens[k] == n > 0 && Rank(lens, k) == r && r + 1 == Count(lens, n) && AtMost(lens, n)
    ensures forall j :: 0 <= j < |lens| && lens[j] > 0 ==> Before(lens, j, n, r) || j == k
  {
    FollowsRank(lens, n, r, k);
    forall j | 0 <= j < |lens| && lens[j] > 0 ensures Before(lens, j, n, r) || j == k {
      CountSplit(lens, j);
    }
  }

  // ---------- Building ----------

  // The tables serve all codes before the current one, and have a place for the current one.
  ghost predicate Building(t: Tables, root: nat, lens: seq<nat>, kind: Kind, sub: Sub, n: nat, r: nat, k: nat, huff: nat) {
    && Current(lens, n, r, k, huff) && Held(t, root, lens, kind, sub, n, r, huff)
    && (n > root ==> WideEnough(lens, root, sub.low, sub.curr))
  }

  ghost predicate Held(t: Tables, root: nat, lens: seq<nat>, kind: Kind, sub: Sub, n: nat, r: nat, huff: nat) {
    && |t.table| == Pow2(root) && AllDone(t, root, lens, kind, sub, n, r)
    && (n <= root ==> !sub.open && |t.extra| == 0 && sub.off == 0)
    && (n > root ==> Opened(t, root, sub, huff))
  }

  lemma CurrentFits(t: Tables, root: nat, lens: seq<nat>, kind: Kind, sub: Sub, n: nat, r: nat, k: nat, huff: nat)
    requires Building(t, root, lens, kind, sub, n, r, k, huff)
    ensures Current(lens, n, r, k, huff) && Held(t, root, lens, kind, sub, n, r, huff) && |t.table| == Pow2(root)
    ensures AllDone(t, root, lens, kind, sub, n, r) && huff < Pow2(n) && n > 0 && (sub.open <==> n > root)
    ensures n > root ==> n <= root + sub.curr && sub.off + Pow2(sub.curr) == |t.extra| && Opened(t, root, sub, huff)
    ensures n > root ==> ShiftRight(huff, root) < Pow2(n - root) && WideEnough(lens, root, sub.low, sub.curr)
    ensures n <= root ==> |t.extra| == 0 && sub.off == 0
  {
    CurrentMatch(lens, n, r, k, huff, huff);
    if n > root { ShiftedSmall(huff, root, n - root); }
    hide AllDone;
  }

  // The entries of the current code.
  method FillCurrent(table: array<Entry>, extra0: seq<Entry>, sub: Sub, root: nat, len: nat, huff: nat, k: nat, kind: Kind,
                     ghost lens: seq<nat>, ghost r: nat)
    returns (extra: seq<Entry>)
    requires Feasible(lens, MAX_BITS) && Building(Tables(table[..], extra0), root, lens, kind, sub, len, r, k, huff) && k < |lens|
    modifies table
    ensures Done(Tables(table[..], extra), root, lens, kind, sub, k) && Held(Tables(table[..], extra), root, lens, kind, sub, len, r, huff)
    ensures |extra| == |extra0|
  {
    hide *;
    ghost var t := Tables(table[..], extra0);
    CurrentFits(t, root, lens, kind, sub, len, r, k, huff);
    extra := extra0;
    var drop := if sub.open then root else 0;
    var codeVal := Entry(kind.Op(k), len - drop, kind.Val(k));
    if sub.open {
      extra := FillExtra(extra0, sub.off, ShiftRight(huff, drop), len - drop, sub.curr, codeVal);
      LongFilled(t, Tables(table[..], extra), root, lens, kind, sub, len, r, k, huff);
      HeldLong(Tables(table[..], extra), root, lens, kind, sub, len, r, huff);
    } else {
      NoShift(huff);
      FillTable(table, ShiftRight(huff, drop), len - drop, root, codeVal);
      ShortFilled(t, Tables(table[..], extra), root, lens, kind, sub, len, r, k, huff);
      HeldShort(Tables(table[..], extra), root, lens, kind, sub, len, r, huff);
    }
  }

  lemma NoShift(v: nat)
    ensures ShiftRight(v, 0) == v
  {
  }

  lemma HeldLong(t: Tables, root: nat, lens: seq<nat>, kind: Kind, sub: Sub, n: nat, r: nat, huff: nat)
    requires AllDone(t, root, lens, kind, sub, n, r) && Opened(t, root, sub, huff) && n > root
    ensures Held(t, root, lens, kind, sub, n, r, huff)
  {
    hide AllDone;
  }

  lemma HeldShort(t: Tables, root: nat, lens: seq<nat>, kind: Kind, sub: Sub, n: nat, r: nat, huff: nat)
    requires AllDone(t, root, lens, kind, sub, n, r) && n <= root && !sub.open && |t.extra| == 0 && sub.off == 0 && |t.table| == Pow2(root)
    ensures Held(t, root, lens, kind, sub, n, r, huff)
  {
    hide AllDone;
  }

  // ---------- Going on ----------

  lemma DoneFollows(t: Tables, root: nat, lens: seq<nat>, kind: Kind, sub: Sub, n: nat, r: nat, k: nat, n': nat, r': nat)
    requires AllDone(t, root, lens, kind, sub, n, r) && Follows(lens, n, r, k, n', r') && Done(t, root, lens, kind, sub, k)
    ensures AllDone(t, root, lens, kind, sub, n', r')
  {
    hide Done, Before;
  }

  lemma CountsDown(count: seq<nat>, lens: seq<nat>, n: nat, r: nat, k: nat)
    requires Counted(count, lens, n, r) && k < |lens| && lens[k] == n && Rank(lens, k) == r
    ensures count[n] == Count(lens, n) - r > 0 && Counted(count[n := count[n] - 1], lens, n, r + 1)
  {
    CountSplit(lens, k);
    hide Count;
  }

  lemma CountsAbove(count: seq<nat>, lens: seq<nat>, n: nat, r: nat, n': nat)
    requires Counted(count, lens, n, r) && n < n' <= MAX_BITS
    ensures Counted(count, lens, n', 0)
  {
    hide Count;
  }

  lemma CurrentRank(lens: seq<nat>, n: nat, r: nat, k: nat, huff: nat)
    requires Current(lens, n, r, k, huff)
    ensures k < |lens| && lens[k] == n > 0 && Rank(lens, k) == r && huff < Pow2(n)
  {
  }

  // Length and rank of the next code.
  ghost predicate Succeeds(lens: seq<nat>, n: nat, r: nat, n': nat, r': nat) {
    || (n' == n && r' == r + 1)
    || (n' > n && r' == 0 && r + 1 == Count(lens, n) && forall x :: n < x < n' ==> Count(lens, x) == 0)
  }

  lemma SucceedsInLength(lens: seq<nat>, n: nat, r: nat)
    ensures Succeeds(lens, n, r, n, r + 1)
  {
  }

  method NextCode(count: array<nat>, codeBuffer: seq<nat>, lens: seq<nat>, sym: nat, len: nat, huff: nat, max: nat, ghost r: nat, ghost k: nat)
    returns (sym': nat, len': nat, huff': nat, finished: bool, ghost r': nat, ghost k': nat)
    requires Feasible(lens, MAX_BITS) && Counted(count[..], lens, len, r) && Current(lens, len, r, k, huff) && k < |lens|
    requires Ordered(codeBuffer, lens, |lens|) && sym == Position(lens, k)
    requires AtMost(lens, max) && Count(lens, max) > 0 && len <= max <= MAX_BITS
    modifies count
    ensures sym' == sym + 1
    ensures finished ==> forall j :: 0 <= j < |lens| && lens[j] > 0 ==> Before(lens, j, len, r) || j == k
    ensures !finished ==> Current(lens, len', r', k', huff') && Counted(count[..], lens, len', r') && len <= len' <= max
    ensures !finished ==> k' < |lens| && sym' == Position(lens, k') && Follows(lens, len, r, k, len', r')
    ensures !finished ==> Succeeds(lens, len, r, len', r')
  {
    hide *;
    CurrentRank(lens, len, r, k, huff);
    CountsDown(count[..], lens, len, r, k);
    CountSize(count[..], lens, len, r);
    huff' := NextHuff(huff, len);
    sym', len', finished, r', k' := sym + 1, len, false, r, k;
    var left := count[len] - 1;
    Place(count, len, left);
    if left == 0 {
      if len == max {
        finished := true;
        LastFollows(lens, len, r, k);
      } else {
        len', k' := LongerNext(codeBuffer, lens, sym', len, huff, huff', max, r, k);
        r' := 0;
        BitLimit();
        CountsAbove(count[..], lens, len, r + 1, len');
      }
    } else {
      r' := r + 1;
      k' := SameLengthFollows(lens, len, r, k, huff, huff');
      SucceedsInLength(lens, len, r);
      CurrentRank(lens, len, r', k', huff');
    }
  }

  lemma CountSize(count: seq<nat>, lens: seq<nat>, n: nat, r: nat)
    requires Counted(count, lens, n, r)
    ensures |count| == MAX_BITS + 1 > n
  {
  }

  method LongerNext(codeBuffer: seq<nat>, lens: seq<nat>, sym: nat, len: nat, ghost huff: nat, ghost next: nat, ghost max: nat, ghost r: nat, ghost k: nat)
    returns (len': nat, ghost k': nat)
    requires Feasible(lens, MAX_BITS) && Current(lens, len, r, k, huff) && k < |lens| && r + 1 == Count(lens, len) && next < Pow2(len)
    requires Value(LowBits(huff, len)) + 1 < Pow2(len) ==> Value(LowBits(next, len)) == Value(LowBits(huff, len)) + 1
    requires Ordered(codeBuffer, lens, |lens|) && sym == Position(lens, k) + 1 && len < max <= MAX_BITS && Count(lens, max) > 0
    ensures len < len' <= max && Current(lens, len', 0, k', next) && Follows(lens, len, r, k, len', 0)
    ensures Succeeds(lens, len, r, len', 0)
    ensures k' < |lens| && sym == Position(lens, k')
  {
    hide *;
    ghost var n';
    n', k' := LongerFollows(lens, len, r, k, huff, next, max);
    CurrentRank(lens, n', 0, k', next);
    BufferAt(codeBuffer, lens, k');
    len' := lens[codeBuffer[sym]];
  }

  lemma BufferAt(buf: seq<nat>, lens: seq<nat>, k: nat)
    requires Ordered(buf, lens, |lens|) && k < |lens| && lens[k] > 0
    ensures Position(lens, k) < |buf| && buf[Position(lens, k)] == k
  {
    hide Position;
  }

  function Blank(n: nat): (s: seq<Entry>)
    ensures |s| == n
  {
    if n == 0 then [] else Blank(n - 1) + [Entry(0, 0, 0)]
  }

  // A code longer than the root with first bits not seen before gets a link and a new table.
  method OpenTable(table: array<Entry>, extra0: seq<Entry>, sub0: Sub, count: array<nat>, root: nat, len: nat, huff: nat, max: nat, kind: Kind,
                   ghost lens: seq<nat>, ghost r: nat, ghost k: nat)
    returns (extra: seq<Entry>, sub: Sub)
    requires Feasible(lens, MAX_BITS) && Current(lens, len, r, k, huff) && Counted(count[..], lens, len, r) && table.Length == Pow2(root)
    requires AllDone(Tables(table[..], extra0), root, lens, kind, sub0, len, r) && NewPrefix(lens, len, r, root, KeepLow(huff, root))
    requires 1 <= root < len <= max <= MAX_BITS && AtMost(lens, max)
    requires |extra0| == if sub0.open then sub0.off + Pow2(sub0.curr) else 0
    requires !sub0.open ==> sub0.off == 0
    requires First(lens, len) + r == Shift(Value(LowBits(huff, root)), len - root)
    modifies table
    ensures Building(Tables(table[..], extra), root, lens, kind, sub, len, r, k, huff)
    ensures sub.open && Snug(lens, root, max, len, r, Value(LowBits(huff, root)), sub.curr) && |extra| == |extra0| + Pow2(sub.curr)
    ensures root + sub.curr <= max
  {
    hide *;
    ghost var t := Tables(table[..], extra0);
    var min := if sub0.open then Pow2(sub0.curr) else 0;
    var extraIdx := sub0.off + min;
    var curr := SizeTable(count, len, root, max, lens, r, k, huff);
    var low := KeepLow(huff, root);
    var room := Blank(Pow2(curr));
    BitLimit();
    LinkAdded(t, root, lens, kind, sub0, len, r, k, huff, curr, room);
    LinkIs(t, low, curr, root, room);
    PutEntry(table, low, Entry(curr, root, extraIdx));
    extra := extra0 + room;
    sub := Sub(true, low, curr, extraIdx);
    HeldLong(Tables(table[..], extra), root, lens, kind, sub, len, r, huff);
    BuildingIs(Tables(table[..], extra), root, lens, kind, sub, len, r, k, huff);
  }

  lemma BitLimit()
    ensures MAX_BITS == 15
  {
  }

  lemma LinkIs(t: Tables, low: nat, curr: nat, root: nat, room: seq<Entry>)
    requires low < |t.table|
    ensures WithLink(t, low, curr, root, room) == Tables(t.table[low := Entry(curr, root, |t.extra|)], t.extra + room)
  {
  }

  lemma BuildingIs(t: Tables, root: nat, lens: seq<nat>, kind: Kind, sub: Sub, n: nat, r: nat, k: nat, huff: nat)
    requires Current(lens, n, r, k, huff) && Held(t, root, lens, kind, sub, n, r, huff)
    requires n > root ==> WideEnough(lens, root, sub.low, sub.curr)
    ensures Building(t, root, lens, kind, sub, n, r, k, huff)
  {
    hide Current, Held, WideEnough;
  }

  // ---------- The whole table ----------

  method GreatestLength(lens: seq<nat>) returns (max: nat)
    ensures AtMost(lens, max) && (max == 0 || exists k :: 0 <= k < |lens| && lens[k] == max)
  {
    max := 0;
    var i := 0;
    while i < |lens|
      invariant 0 <= i <= |lens| && forall j :: 0 <= j < i ==> lens[j] <= max
      invariant max == 0 || exists k :: 0 <= k < |lens| && lens[k] == max
    {
      if lens[i] > max { max := lens[i]; }
      i := i + 1;
    }
  }

  method LeastLength(count: seq<nat>, max: nat, ghost lens: seq<nat>) returns (min: nat)
    requires 1 <= max <= MAX_BITS && |count| == MAX_BITS + 1 && forall x :: 1 <= x <= MAX_BITS ==> count[x] == Count(lens, x)
    requires Count(lens, max) > 0
    ensures 1 <= min <= max && Count(lens, min) > 0 && forall x :: 1 <= x < min ==> Count(lens, x) == 0
  {
    min := 1;
    while min < max && count[min] == 0
      invariant 1 <= min <= max && forall x :: 1 <= x < min ==> Count(lens, x) == 0
    {
      min := min + 1;
    }
  }

  lemma {:induction false} FirstOfLeast(lens: seq<nat>, n: nat)
    requires n >= 1 && forall x :: 1 <= x < n ==> Count(lens, x) == 0
    ensures First(lens, n) == 0 && Below(lens, n) == 0
  {
    if n > 1 {
      FirstOfLeast(lens, n - 1);
      BelowNext(lens, n - 1);
    } else {
      BelowOne(lens);
    }
  }

  lemma {:induction false} ZeroValue(n: nat)
    ensures Value(LowBits(0, n)) == 0
  {
    ZeroBits(n);
    if n > 0 {
      ZeroValue(n - 1);
      ZeroBits(n - 1);
      assert Same(0, n)[..n - 1] == Same(0, n - 1);
    }
  }

  lemma FirstCurrent(lens: seq<nat>, n: nat) returns (k: nat)
    requires n >= 1 && Count(lens, n) > 0 && forall x :: 1 <= x < n ==> Count(lens, x) == 0
    ensures Current(lens, n, 0, k, 0) && Position(lens, k) == 0
    ensures forall j :: 0 <= j < |lens| ==> !Before(lens, j, n, 0)
  {
    k := FindRank(lens, n, 0);
    FirstOfLeast(lens, n);
    ZeroValue(n);
    forall j | 0 <= j < |lens| ensures !Before(lens, j, n, 0) {
      CountedLength(lens, j);
    }
  }

  lemma BuildingStarts(t: Tables, root: nat, lens: seq<nat>, kind: Kind, sub: Sub, n: nat, k: nat)
    requires |t.table| == Pow2(root) && |t.extra| == 0 && !sub.open && sub.off == 0 && n <= root && Current(lens, n, 0, k, 0)
    requires forall j :: 0 <= j < |lens| ==> !Before(lens, j, n, 0)
    ensures Building(t, root, lens, kind, sub, n, 0, k, 0)
  {
  }

  // Every stream that starts with the code of k is answered with k.
  ghost predicate Answers(t: Tables, root: nat, lens: seq<nat>, kind: Kind, k: nat)
    requires k < |lens| && |t.table| == Pow2(root)
  {
    forall x :: Match(x, lens, k) ==> LookUp(t, root, x) == Answer(kind.Op(k), kind.Val(k), lens[k])
  }

  lemma DoneAnswers(t: Tables, root: nat, lens: seq<nat>, kind: Kind, sub: Sub, k: nat)
    requires k < |lens| && |t.table| == Pow2(root) && Done(t, root, lens, kind, sub, k) && kind.Valid()
    ensures Answers(t, root, lens, kind, k)
  {
    OpIsNoLink(kind, k);
    hide Match, IsLink;
  }

  lemma AllAnswered(t: Tables, root: nat, lens: seq<nat>, kind: Kind, sub: Sub, n: nat, r: nat, k: nat)
    requires |t.table| == Pow2(root) && AllDone(t, root, lens, kind, sub, n, r) && k < |lens| && Done(t, root, lens, kind, sub, k)
    requires kind.Valid() && forall j :: 0 <= j < |lens| && lens[j] > 0 ==> Before(lens, j, n, r) || j == k
    ensures forall j :: 0 <= j < |lens| && lens[j] > 0 ==> Answers(t, root, lens, kind, j)
  {
    hide Done, Answers, Before;
    forall j | 0 <= j < |lens| && lens[j] > 0 ensures Answers(t, root, lens, kind, j) {
      DoneAnswers(t, root, lens, kind, sub, j);
    }
  }

  lemma HeldFacts(t: Tables, root: nat, lens: seq<nat>, kind: Kind, sub: Sub, n: nat, r: nat, huff: nat)
    requires Held(t, root, lens, kind, sub, n, r, huff)
    ensures |t.table| == Pow2(root) && AllDone(t, root, lens, kind, sub, n, r) && (sub.open <==> n > root)
    ensures |t.extra| == if sub.open then sub.off + Pow2(sub.curr) else 0
    ensures !sub.open ==> sub.off == 0
    ensures sub.open ==> sub.low == KeepLow(huff, root) && Opened(t, root, sub, huff)
  {
    hide AllDone;
  }

  lemma StaysOpen(t: Tables, root: nat, lens: seq<nat>, kind: Kind, sub: Sub, n: nat, r: nat, k: nat, huff: nat, huff0: nat)
    requires Current(lens, n, r, k, huff) && AllDone(t, root, lens, kind, sub, n, r) && n > root
    requires Opened(t, root, sub, huff0) && KeepLow(huff, root) == sub.low && WideEnough(lens, root, sub.low, sub.curr)
    ensures Building(t, root, lens, kind, sub, n, r, k, huff)
  {
    hide Current, AllDone, WideEnough;
  }

  lemma StaysShort(t: Tables, root: nat, lens: seq<nat>, kind: Kind, sub: Sub, n: nat, r: nat, k: nat, huff: nat)
    requires Current(lens, n, r, k, huff) && AllDone(t, root, lens, kind, sub, n, r) && n <= root
    requires !sub.open && |t.extra| == 0 && sub.off == 0 && |t.table| == Pow2(root)
    ensures Building(t, root, lens, kind, sub, n, r, k, huff)
  {
    hide Current, AllDone;
  }

  // After a code is done: go on with the table under way, or open the next one.
  method GoOn(table: array<Entry>, extra0: seq<Entry>, sub0: Sub, count: array<nat>, root: nat, len: nat, huff: nat, max: nat, kind: Kind,
              ghost lens: seq<nat>, ghost r: nat, ghost k: nat, ghost n0: nat, ghost r0: nat, ghost k0: nat, ghost huff0: nat,
              ghost o0: Opening)
    returns (extra: seq<Entry>, sub: Sub, ghost o: Opening)
    requires Feasible(lens, MAX_BITS) && Current(lens, n0, r0, k0, huff0) && Held(Tables(table[..], extra0), root, lens, kind, sub0, n0, r0, huff0)
    requires k0 < |lens| && Done(Tables(table[..], extra0), root, lens, kind, sub0, k0) && Follows(lens, n0, r0, k0, len, r)
    requires n0 > root ==> WideEnough(lens, root, sub0.low, sub0.curr)
    requires Current(lens, len, r, k, huff) && Counted(count[..], lens, len, r) && n0 <= len
    requires 1 <= root < MAX_BITS && len <= max <= MAX_BITS && AtMost(lens, max) && (!sub0.open ==> sub0.low == 0xFFFF)
    requires Succeeds(lens, n0, r0, len, r) && Lean(lens, root, max, sub0, o0, |extra0|, n0, r0)
    requires sub0.open ==> o0.p == Value(LowBits(huff0, root))
    modifies table
    ensures Building(Tables(table[..], extra), root, lens, kind, sub, len, r, k, huff) && (!sub.open ==> sub.low == 0xFFFF)
    ensures Lean(lens, root, max, sub, o, |extra|, len, r) && (sub.open ==> o.p == Value(LowBits(huff, root)))
  {
    hide *;
    ghost var t := Tables(table[..], extra0);
    HeldFacts(t, root, lens, kind, sub0, n0, r0, huff0);
    DoneFollows(t, root, lens, kind, sub0, n0, r0, k0, len, r);
    extra, sub, o := extra0, sub0, o0;
    LowIsSmall(huff, root);
    if len > root && KeepLow(huff, root) != sub.low {
      PrefixIsNew(lens, n0, r0, k0, huff0, len, r, k, huff, root);
      StartsPrefix(lens, root, n0, r0, k0, huff0, len, r, k, huff);
      extra, sub := OpenTable(table, extra0, sub0, count, root, len, huff, max, kind, lens, r, k);
      o := Opening(len, r, Value(LowBits(huff, root)));
      LeanOpened(lens, root, max, sub0, o0, |extra0|, n0, r0, k0, huff0, sub, o, |extra|, k, huff);
      CurrentFits(Tables(table[..], extra), root, lens, kind, sub, len, r, k, huff);
    } else if len > root {
      StaysOpen(t, root, lens, kind, sub, len, r, k, huff, huff0);
      SamePrefix(huff, huff0, root);
      LeanGoesOn(lens, root, max, sub0, o0, |extra0|, n0, r0, len, r);
    } else {
      StaysShort(t, root, lens, kind, sub, len, r, k, huff);
      LeanGoesOn(lens, root, max, sub0, o0, |extra0|, n0, r0, len, r);
    }
  }

  // ---------- How much room the second tables take ----------

  // The code with which the table under way was opened: its length, rank and first bits.
  datatype Opening = Opening(n: nat, r: nat, p: nat)

  // What a table opened by codes of a bits more than the root, and c bits wide, may add up to: a table
  // with room for longer codes is opened at most once for every width.
  ghost predicate Lean(lens: seq<nat>, root: nat, max: nat, sub: Sub, o: Opening, size: nat, n: nat, r: nat) {
    if !sub.open then size == 0
    else
      && 1 <= root && root + sub.curr <= max && Snug(lens, root, max, o.n, o.r, o.p, sub.curr)
      && (o.n < n || (o.n == n && o.r <= r)) && o.r < Count(lens, o.n)
      && First(lens, o.n) + o.r == Shift(o.p, o.n - root)
      && size + 4 <= Below(lens, o.n) + o.r + 2 * Pow2(o.n - root) + Pow2(sub.curr)
  }

  lemma LeanGoesOn(lens: seq<nat>, root: nat, max: nat, sub: Sub, o: Opening, size: nat, n: nat, r: nat, n': nat, r': nat)
    requires Lean(lens, root, max, sub, o, size, n, r) && Succeeds(lens, n, r, n', r')
    ensures Lean(lens, root, max, sub, o, size, n', r')
  {
    hide Snug, First, Count, Shift, Below, Pow2;
  }

  lemma SamePrefix(h: nat, g: nat, root: nat)
    requires KeepLow(h, root) == KeepLow(g, root)
    ensures Value(LowBits(h, root)) == Value(LowBits(g, root))
  {
    SameKept(h, g, root);
  }

  lemma OtherPrefix(h: nat, g: nat, root: nat)
    requires KeepLow(h, root) != KeepLow(g, root)
    ensures Value(LowBits(h, root)) != Value(LowBits(g, root))
  {
    SameKept(h, g, root);
    if Value(LowBits(h, root)) == Value(LowBits(g, root)) { ValueInjective(LowBits(h, root), LowBits(g, root)); }
  }

  lemma SucceedValue(lens: seq<nat>, n: nat, r: nat, n': nat, r': nat)
    requires Succeeds(lens, n, r, n', r') && n >= 1
    ensures n <= n' && First(lens, n') + r' == Shift(First(lens, n) + r + 1, n' - n)
  {
    if n' > n { FirstSkips(lens, n, n'); }
    hide First, Count;
  }

  // The current code lies among those with its first bits.
  lemma CurrentBetween(lens: seq<nat>, n: nat, r: nat, k: nat, huff: nat, root: nat)
    requires Current(lens, n, r, k, huff) && root <= n
    ensures Shift(Value(LowBits(huff, root)), n - root) <= First(lens, n) + r < Shift(Value(LowBits(huff, root)) + 1, n - root)
  {
    ValueBetween(LowBits(huff, n), root);
    LowBitsPrefix(huff, root, n);
  }

  lemma {:induction false} ShiftStrict(a: nat, b: nat, n: nat)
    requires Shift(a, n) < Shift(b + 1, n)
    ensures a <= b
  {
    if a > b { ShiftMono(b + 1, a, n); }
  }

  // The first code with new first bits ends in zeros.
  lemma StartsPrefix(lens: seq<nat>, root: nat, n: nat, r: nat, k: nat, huff: nat, n': nat, r': nat, k': nat, huff': nat)
    requires Current(lens, n, r, k, huff) && Current(lens, n', r', k', huff') && Succeeds(lens, n, r, n', r') && 1 <= root < n'
    requires n > root ==> KeepLow(huff, root) != KeepLow(huff', root)
    ensures First(lens, n') + r' == Shift(Value(LowBits(huff', root)), n' - root)
  {
    hide *;
    CurrentRank(lens, n, r, k, huff);
    var v, p' := First(lens, n) + r, Value(LowBits(huff', root));
    CurrentBetween(lens, n', r', k', huff', root);
    SucceedValue(lens, n, r, n', r');
    if n <= root {
      AfterShort(v + 1, root - n, n' - root, p');
      assert root - n + (n' - root) == n' - n;
    } else {
      OtherPrefix(huff, huff', root);
      CurrentBetween(lens, n, r, k, huff, root);
      assert n - root + (n' - n) == n' - root;
      AfterLong(v, Value(LowBits(huff, root)), n - root, n' - n, p');
    }
  }

  lemma AfterShort(q: nat, n: nat, m: nat, p: nat)
    requires Shift(p, m) <= Shift(q, n + m) < Shift(p + 1, m)
    ensures Shift(q, n + m) == Shift(p, m)
  {
    ShiftTwice(q, n, m);
    ShiftStrict(Shift(q, n), p, m);
    ShiftMono(Shift(q, n), p, m);
  }

  lemma AfterLong(v: nat, p: nat, n: nat, m: nat, p': nat)
    requires Shift(p, n) <= v < Shift(p + 1, n) && p != p'
    requires Shift(p', n + m) <= Shift(v + 1, m) < Shift(p' + 1, n + m)
    ensures Shift(v + 1, m) == Shift(p', n + m) && p < p'
  {
    ShiftTwice(p, n, m);
    ShiftTwice(p + 1, n, m);
    ShiftMono(v + 1, Shift(p + 1, n), m);
    ShiftMono(Shift(p, n), v + 1, m);
    ShiftStrict(p, p', n + m);
    ShiftMono(p + 1, p', n + m);
  }

  // Once the next prefix comes up, the codes of the table before have paid for it.
  lemma LeanCloses(lens: seq<nat>, root: nat, max: nat, sub: Sub, o: Opening, size: nat, n: nat, r: nat, p': nat)
    requires Lean(lens, root, max, sub, o, size, n, r) && sub.open && root < n <= max && r < Count(lens, n)
    requires Shift(p', n - root) <= First(lens, n) + r && o.p < p'
    ensures size + 4 <= Below(lens, n) + r + 2 * Pow2(n - root)
  {
    hide *;
    var a := o.n - root;
    LeanIs(lens, root, max, sub, o, size, n, r);
    if root + sub.curr == o.n {
      TablePaid(lens, root, max, sub.curr, o, n, r, p');
      Pow2Mono(sub.curr, n - root);
    } else {
      LongerThanTable(lens, root, max, sub.curr, o, n, r, p');
      Pow2Mono(a + 1, sub.curr);
      Pow2Mono(sub.curr, n - root);
      Pow2Next(a);
      PositionsGrow(lens, o.n, o.r, n, r);
    }
  }

  lemma Pow2Next(n: nat)
    ensures Pow2(n + 1) == 2 * Pow2(n)
  {
  }

  lemma LeanIs(lens: seq<nat>, root: nat, max: nat, sub: Sub, o: Opening, size: nat, n: nat, r: nat)
    requires Lean(lens, root, max, sub, o, size, n, r) && sub.open
    ensures 1 <= root < o.n <= root + sub.curr <= max && Snug(lens, root, max, o.n, o.r, o.p, sub.curr)
    ensures (o.n < n || (o.n == n && o.r <= r)) && o.r < Count(lens, o.n)
    ensures First(lens, o.n) + o.r == Shift(o.p, o.n - root)
    ensures size + 4 <= Below(lens, o.n) + o.r + 2 * Pow2(o.n - root) + Pow2(sub.curr)
  {
    hide First, Count, Shift, Below, Pow2;
  }

  lemma PositionsGrow(lens: seq<nat>, n: nat, r: nat, n': nat, r': nat)
    requires n >= 1 && r < Count(lens, n) && (n < n' || (n == n' && r <= r'))
    ensures Below(lens, n) + r <= Below(lens, n') + r'
  {
    hide Below, Count;
    if n < n' {
      BelowNext(lens, n);
      BelowMono(lens, n + 1, n');
    }
  }

  // A table as wide as its first code is full when the next prefix comes up.
  lemma TablePaid(lens: seq<nat>, root: nat, max: nat, curr: nat, o: Opening, n: nat, r: nat, p': nat)
    requires 1 <= root < o.n == root + curr && n <= max && Snug(lens, root, max, o.n, o.r, o.p, curr)
    requires o.n < n || (o.n == n && o.r <= r)
    requires First(lens, o.n) + o.r == Shift(o.p, curr) && Shift(p', n - root) <= First(lens, n) + r && o.p < p'
    ensures Below(lens, o.n) + o.r + Pow2(curr) <= Below(lens, n) + r
  {
    hide Below, Count, First, Shift, Pow2;
    if n == o.n {
      ShiftAddOne(o.p, curr);
      ShiftMono(o.p + 1, p', curr);
    } else {
      BelowNext(lens, o.n);
      BelowMono(lens, o.n + 1, n);
    }
  }

  // A wider table is left only by codes of its full width.
  lemma LongerThanTable(lens: seq<nat>, root: nat, max: nat, curr: nat, o: Opening, n: nat, r: nat, p': nat)
    requires 1 <= root < o.n < root + curr && Snug(lens, root, max, o.n, o.r, o.p, curr) && root < n && r < Count(lens, n)
    requires Shift(p', n - root) <= First(lens, n) + r && o.p < p'
    ensures n >= root + curr
  {
    var m := root + curr - 1;
    hide Below, Count, First, Shift, Pow2;
    if n <= m {
      assert n - root + (m - n) == curr - 1;
      UsedUpTo(lens, n, m);
      ShiftMono(o.p + 1, p', n - root);
      ShiftMono(Shift(o.p + 1, n - root), First(lens, n) + Count(lens, n), m - n);
      ShiftTwice(o.p + 1, n - root, m - n);
    }
  }

  lemma UsedUpTo(lens: seq<nat>, n: nat, m: nat)
    requires 1 <= n <= m
    ensures Shift(First(lens, n) + Count(lens, n), m - n) <= First(lens, m) + Count(lens, m)
  {
    if n < m { FirstAbove(lens, n, m); }
    hide First, Count;
  }

  lemma LeanOpened(lens: seq<nat>, root: nat, max: nat, sub0: Sub, o0: Opening, size0: nat, n0: nat, r0: nat, k0: nat, huff0: nat,
                   sub: Sub, o: Opening, size: nat, k: nat, huff: nat)
    requires Lean(lens, root, max, sub0, o0, size0, n0, r0) && Current(lens, n0, r0, k0, huff0) && Current(lens, o.n, o.r, k, huff)
    requires Succeeds(lens, n0, r0, o.n, o.r) && 1 <= root < o.n <= max && o.p == Value(LowBits(huff, root))
    requires sub0.open ==> n0 > root && o0.p == Value(LowBits(huff0, root)) && KeepLow(huff0, root) != KeepLow(huff, root)
    requires First(lens, o.n) + o.r == Shift(o.p, o.n - root)
    requires sub.open && Snug(lens, root, max, o.n, o.r, o.p, sub.curr) && root + sub.curr <= max && size == size0 + Pow2(sub.curr)
    ensures Lean(lens, root, max, sub, o, size, o.n, o.r)
  {
    hide *;
    CurrentCounted(lens, o.n, o.r, k, huff);
    TwoAtLeast(o.n - root);
    LeanEmpty(lens, root, max, sub0, o0, size0, n0, r0);
    SnugIs(lens, root, max, o.n, o.r, o.p, sub.curr);
    if sub0.open {
      OtherPrefix(huff0, huff, root);
      LaterPrefix(lens, root, n0, r0, k0, huff0, o.n, o.r, k, huff);
      LeanGoesOn(lens, root, max, sub0, o0, size0, n0, r0, o.n, o.r);
      CurrentBetween(lens, o.n, o.r, k, huff, root);
      LeanCloses(lens, root, max, sub0, o0, size0, o.n, o.r, o.p);
    }
    IsLean(lens, root, max, sub, o, size);
  }

  lemma TwoAtLeast(a: nat)
    requires a >= 1
    ensures Pow2(a) >= 2
  {
  }

  lemma LeanEmpty(lens: seq<nat>, root: nat, max: nat, sub: Sub, o: Opening, size: nat, n: nat, r: nat)
    requires Lean(lens, root, max, sub, o, size, n, r)
    ensures !sub.open ==> size == 0
  {
    hide Snug, First, Count, Shift, Below, Pow2;
  }

  lemma SnugIs(lens: seq<nat>, root: nat, max: nat, n: nat, r: nat, p: nat, curr: nat)
    requires Snug(lens, root, max, n, r, p, curr)
    ensures root < n <= root + curr
  {
    hide First, Count, Shift, Pow2;
  }

  lemma IsLean(lens: seq<nat>, root: nat, max: nat, sub: Sub, o: Opening, size: nat)
    requires sub.open && 1 <= root && root + sub.curr <= max && Snug(lens, root, max, o.n, o.r, o.p, sub.curr)
    requires root < o.n && o.r < Count(lens, o.n) && First(lens, o.n) + o.r == Shift(o.p, o.n - root)
    requires size + 4 <= Below(lens, o.n) + o.r + 2 * Pow2(o.n - root) + Pow2(sub.curr)
    ensures Lean(lens, root, max, sub, o, size, o.n, o.r)
  {
    hide Snug, First, Count, Shift, Below, Pow2;
  }

  lemma CurrentCounted(lens: seq<nat>, n: nat, r: nat, k: nat, huff: nat)
    requires Current(lens, n, r, k, huff)
    ensures r < Count(lens, n)
  {
    CountSplit(lens, k);
    hide Count;
  }

  lemma LaterPrefix(lens: seq<nat>, root: nat, n: nat, r: nat, k: nat, huff: nat, n': nat, r': nat, k': nat, huff': nat)
    requires Current(lens, n, r, k, huff) && Current(lens, n', r', k', huff') && Succeeds(lens, n, r, n', r') && 1 <= root < n
    requires Value(LowBits(huff, root)) != Value(LowBits(huff', root))
    ensures Value(LowBits(huff, root)) < Value(LowBits(huff', root))
  {
    hide *;
    CurrentBetween(lens, n, r, k, huff, root);
    SucceedValue(lens, n, r, n', r');
    CurrentBetween(lens, n', r', k', huff', root);
    assert n - root + (n' - n) == n' - root;
    AfterLong(First(lens, n) + r, Value(LowBits(huff, root)), n - root, n' - n, Value(LowBits(huff', root)));
  }

  lemma LeanStarts(lens: seq<nat>, root: nat, max: nat, sub: Sub, o: Opening, n: nat)
    requires !sub.open
    ensures Lean(lens, root, max, sub, o, 0, n, 0)
  {
  }

  // All second tables together have at most this many entries.
  lemma LeanBound(lens: seq<nat>, root: nat, max: nat, sub: Sub, o: Opening, size: nat, n: nat, r: nat)
    requires Lean(lens, root, max, sub, o, size, n, r) && max <= MAX_BITS && root <= MAX_BITS
    ensures size <= |lens| + 3 * Pow2(MAX_BITS - root) && (max <= root ==> size == 0)
  {
    if sub.open {
      BelowNext(lens, o.n);
      Pow2Mono(o.n - root, MAX_BITS - root);
      Pow2Mono(sub.curr, MAX_BITS - root);
    }
    hide First, Count, Shift, Below, Pow2;
  }

  const EXTRA_ENTRIES := 512   // the source's arrays for the second tables

  // So with a root of 9 bits the arrays are large enough for the literals' codes, and for the distances'.
  lemma RoomEnough(lens: seq<nat>, size: nat)
    requires |lens| <= 288 && size <= |lens| + 3 * Pow2(MAX_BITS - 9)
    ensures size <= EXTRA_ENTRIES
  {
    assert Pow2(6) == 64;
  }

  lemma LowIsSmall(huff: nat, root: nat)
    requires root < MAX_BITS
    ensures KeepLow(huff, root) != 0xFFFF
  {
    Pow2Mono(root, MAX_BITS);
    HuffmanCodec.Pow2Of15();
  }

  // Some code is no longer than the root.
  ghost predicate HasShortCode(lens: seq<nat>, root: nat) {
    exists k :: 0 <= k < |lens| && 0 < lens[k] <= root
  }

  // The tables answer every stream with the symbol whose code it starts with.
  method BuildTables(lens: seq<nat>, root: nat, kind: Kind) returns (table: array<Entry>, extra: seq<Entry>)
    requires Feasible(lens, MAX_BITS) && 1 <= root < MAX_BITS && HasShortCode(lens, root) && kind.Valid()
    ensures table.Length == Pow2(root)
    ensures forall j :: 0 <= j < |lens| && lens[j] > 0 ==> Answers(Tables(table[..], extra), root, lens, kind, j)
    ensures (root == 9 && |lens| <= 288) || AtMost(lens, root) ==> |extra| <= EXTRA_ENTRIES
  {
    assert AtMost(lens, MAX_BITS);
    var count := HuffmanCodec.CountLengths(lens);
    var max := GreatestLength(lens);
    ShortAndGreatest(lens, root, max);
    var min := LeastLength(count[..], max, lens);
    ShortIsLeast(lens, root, min);
    var codeBuffer := SortCodes(lens, count[..]);
    ghost var k := FirstCurrent(lens, min);
    assert Counted(count[..], lens, min, 0);
    table := new Entry[Pow2(root)](_ => Entry(0, 0, 0));
    var sub := Sub(false, 0xFFFF, root, 0);
    BuildingStarts(Tables(table[..], []), root, lens, kind, sub, min, k);
    hide *;
    extra := BuildAll(table, sub, count, codeBuffer, lens, root, kind, min, max, k);
    if root == 9 && |lens| <= 288 { RoomEnough(lens, |extra|); }
    if AtMost(lens, root) { NothingLonger(lens, root, max); }
  }

  lemma NothingLonger(lens: seq<nat>, root: nat, max: nat)
    requires AtMost(lens, root) && Count(lens, max) > 0
    ensures max <= root && 0 <= EXTRA_ENTRIES
  {
    if max > root { CountBeyond(lens, root, max); }
  }

  lemma ShortAndGreatest(lens: seq<nat>, root: nat, max: nat)
    requires HasShortCode(lens, root) && Feasible(lens, MAX_BITS) && AtMost(lens, max)
    requires max == 0 || exists k :: 0 <= k < |lens| && lens[k] == max
    ensures 1 <= max <= MAX_BITS && Count(lens, max) > 0
  {
    var k :| 0 <= k < |lens| && lens[k] == max;
    CountedLength(lens, k);
  }

  lemma ShortIsLeast(lens: seq<nat>, root: nat, min: nat)
    requires HasShortCode(lens, root) && forall x :: 1 <= x < min ==> Count(lens, x) == 0
    ensures min <= root
  {
    var k :| 0 <= k < |lens| && 0 < lens[k] <= root;
    CountedLength(lens, k);
  }

  method BuildAll(table: array<Entry>, sub0: Sub, count: array<nat>, codeBuffer: seq<nat>, lens: seq<nat>, root: nat, kind: Kind,
                  min: nat, max: nat, ghost k0: nat)
    returns (extra: seq<Entry>)
    requires Feasible(lens, MAX_BITS) && 1 <= root < MAX_BITS && kind.Valid() && Ordered(codeBuffer, lens, |lens|)
    requires min <= max <= MAX_BITS && AtMost(lens, max) && Count(lens, max) > 0 && Counted(count[..], lens, min, 0)
    requires Building(Tables(table[..], []), root, lens, kind, sub0, min, 0, k0, 0) && Position(lens, k0) == 0
    requires !sub0.open && sub0.low == 0xFFFF
    modifies table, count
    ensures table.Length == Pow2(root) && |extra| <= |lens| + 3 * Pow2(MAX_BITS - root) && (max <= root ==> |extra| == 0)
    ensures forall j :: 0 <= j < |lens| && lens[j] > 0 ==> Answers(Tables(table[..], extra), root, lens, kind, j)
  {
    hide *;
    extra := [];
    ghost var o := Opening(0, 0, 0);
    LeanStarts(lens, root, max, sub0, o, min);
    var sub, sym: nat, len: nat, huff: nat, finished := sub0, 0, min, 0, false;
    ghost var r: nat, k: nat := 0, k0;
    CurrentFits(Tables(table[..], extra), root, lens, kind, sub, len, r, k, huff);
    CurrentRank(lens, len, r, k, huff);
    while !finished
      invariant table.Length == Pow2(root)
      invariant finished ==> forall j :: 0 <= j < |lens| && lens[j] > 0 ==> Answers(Tables(table[..], extra), root, lens, kind, j)
      invariant !finished ==> Building(Tables(table[..], extra), root, lens, kind, sub, len, r, k, huff)
      invariant !finished ==> Counted(count[..], lens, len, r) && k < |lens| && sym == Position(lens, k)
      invariant !finished ==> len <= max && (!sub.open ==> sub.low == 0xFFFF)
      invariant !finished ==> Lean(lens, root, max, sub, o, |extra|, len, r) && (sub.open ==> o.p == Value(LowBits(huff, root)))
      invariant finished ==> |extra| <= |lens| + 3 * Pow2(MAX_BITS - root) && (max <= root ==> |extra| == 0)
      decreases !finished, |lens| - sym
    {
      extra, sub, sym, len, huff, finished, r, k, o :=
        OneCode(table, extra, sub, count, codeBuffer, lens, root, kind, sym, len, huff, max, r, k, o);
    }
  }

  method OneCode(table: array<Entry>, extra0: seq<Entry>, sub0: Sub, count: array<nat>, codeBuffer: seq<nat>, lens: seq<nat>, root: nat, kind: Kind,
                 sym0: nat, len0: nat, huff0: nat, max: nat, ghost r0: nat, ghost k0: nat, ghost o0: Opening)
    returns (extra: seq<Entry>, sub: Sub, sym: nat, len: nat, huff: nat, finished: bool, ghost r: nat, ghost k: nat, ghost o: Opening)
    requires Feasible(lens, MAX_BITS) && 1 <= root < MAX_BITS && kind.Valid() && Ordered(codeBuffer, lens, |lens|)
    requires len0 <= max <= MAX_BITS && AtMost(lens, max) && Count(lens, max) > 0 && Counted(count[..], lens, len0, r0)
    requires Building(Tables(table[..], extra0), root, lens, kind, sub0, len0, r0, k0, huff0) && k0 < |lens| && sym0 == Position(lens, k0)
    requires !sub0.open ==> sub0.low == 0xFFFF
    requires Lean(lens, root, max, sub0, o0, |extra0|, len0, r0) && (sub0.open ==> o0.p == Value(LowBits(huff0, root)))
    modifies table, count
    ensures table.Length == Pow2(root) && sym0 < |lens|
    ensures finished ==> |extra| <= |lens| + 3 * Pow2(MAX_BITS - root) && (max <= root ==> |extra| == 0)
    ensures !finished ==> Lean(lens, root, max, sub, o, |extra|, len, r) && (sub.open ==> o.p == Value(LowBits(huff, root)))
    ensures finished ==> forall j :: 0 <= j < |lens| && lens[j] > 0 ==> Answers(Tables(table[..], extra), root, lens, kind, j)
    ensures !finished ==> Building(Tables(table[..], extra), root, lens, kind, sub, len, r, k, huff) && (!sub.open ==> sub.low == 0xFFFF)
    ensures !finished ==> Counted(count[..], lens, len, r) && k < |lens| && sym0 < sym == Position(lens, k) && len <= max
  {
    hide *;
    CurrentFits(Tables(table[..], extra0), root, lens, kind, sub0, len0, r0, k0, huff0);
    CurrentRank(lens, len0, r0, k0, huff0);
    BufferAt(codeBuffer, lens, k0);
    PositionFits(lens, k0);
    extra := FillCurrent(table, extra0, sub0, root, len0, huff0, codeBuffer[sym0], kind, lens, r0);
    HeldFacts(Tables(table[..], extra), root, lens, kind, sub0, len0, r0, huff0);
    sub, o := sub0, o0;
    sym, len, huff, finished, r, k := NextCode(count, codeBuffer, lens, sym0, len0, huff0, max, r0, k0);
    if finished {
      AllAnswered(Tables(table[..], extra), root, lens, kind, sub0, len0, r0, k0);
      LeanBound(lens, root, max, sub0, o0, |extra|, len0, r0);
    } else {
      extra, sub, o := GoOn(table, extra, sub0, count, root, len, huff, max, kind, lens, r, k, len0, r0, k0, huff0, o0);
      CurrentFits(Tables(table[..], extra), root, lens, kind, sub, len, r, k, huff);
    }
  }

  // ---------- Complete codes ----------

  // The codes use up all bit strings.
  ghost predicate Complete(lens: seq<nat>) {
    Feasible(lens, MAX_BITS) && First(lens, MAX_BITS) + Count(lens, MAX_BITS) == Pow2(MAX_BITS)
  }

  // The bits up to length n are not all taken by shorter codes.
  lemma {:induction false} ReachesCode(lens: seq<nat>, x: nat, n: nat) returns (k: nat)
    requires Complete(lens) && 1 <= n <= MAX_BITS && Value(LowBits(x, n)) >= First(lens, n)
    ensures k < |lens| && lens[k] > 0 && Match(x, lens, k)
    decreases MAX_BITS - n
  {
    ValueBound(LowBits(x, n));
    if Value(LowBits(x, n)) < First(lens, n) + Count(lens, n) {
      k := FindRank(lens, n, Value(LowBits(x, n)) - First(lens, n));
    } else {
      LowBitsPrefix(x, n, n + 1);
      k := ReachesCode(lens, x, n + 1);
    }
  }

  // With a complete code every stream is answered, and with exactly one symbol.
  lemma CompleteAnswers(t: Tables, root: nat, lens: seq<nat>, kind: Kind, x: nat) returns (k: nat)
    requires Complete(lens) && |t.table| == Pow2(root)
    requires forall j :: 0 <= j < |lens| && lens[j] > 0 ==> Answers(t, root, lens, kind, j)
    ensures k < |lens| && lens[k] > 0 && StartsWith(LowBits(x, MAX_BITS), lens, k)
    ensures LookUp(t, root, x) == Answer(kind.Op(k), kind.Val(k), lens[k])
    ensures forall j :: 0 <= j < |lens| && lens[j] > 0 && StartsWith(LowBits(x, MAX_BITS), lens, j) ==> j == k
  {
    k := ReachesCode(lens, x, 1);
    hide Complete, LookUp, StartsWith;
    assert Answers(t, root, lens, kind, k);
    MatchStarts(x, lens, k, MAX_BITS);
    forall j | 0 <= j < |lens| && lens[j] > 0 && StartsWith(LowBits(x, MAX_BITS), lens, j) ensures j == k {
      CompleteFits(lens);
      UniqueStart(lens, MAX_BITS, LowBits(x, MAX_BITS), j, k);
    }
  }

  lemma CompleteFits(lens: seq<nat>)
    requires Complete(lens)
    ensures Feasible(lens, MAX_BITS)
  {
  }

  lemma {:induction false} SlotsUsed(lens: seq<nat>, m: nat)
    requires Complete(lens) && 1 <= m <= MAX_BITS
    ensures Pow2(m) - First(lens, m) <= Below(lens, MAX_BITS + 1) - Below(lens, m)
    decreases MAX_BITS - m
  {
    BelowNext(lens, m);
    if m < MAX_BITS {
      SlotsUsed(lens, m + 1);
      assert First(lens, m) + Count(lens, m) <= Pow2(m);
    }
  }

  // So few symbols cannot all have codes longer than the root.
  lemma CompleteHasShort(lens: seq<nat>, root: nat)
    requires Complete(lens) && 1 <= root < MAX_BITS && |lens| < Pow2(root + 1)
    ensures HasShortCode(lens, root)
  {
    if forall x :: 1 <= x < root + 1 ==> Count(lens, x) == 0 {
      FirstOfLeast(lens, root + 1);
      SlotsUsed(lens, root + 1);
    } else {
      var x :| 1 <= x < root + 1 && Count(lens, x) != 0;
      var k := FindRank(lens, x, 0);
    }
  }

  // What the encoder sends for a symbol is answered with the symbol, whatever follows.
  lemma SentIsAnswered(t: Tables, root: nat, lens: seq<nat>, kind: Kind, codes: seq<HuffmanCodec.Codeword>, k: nat, x: nat, n: nat, rest: seq<Bit>)
    requires Feasible(lens, MAX_BITS) && k < |lens| && lens[k] > 0 && |t.table| == Pow2(root) && Answers(t, root, lens, kind, k)
    requires HuffmanCodec.CodeTable(lens, codes, |lens|)
    requires n >= lens[k] && LowBits(x, n) == LowBits(codes[k].codeword, codes[k].bitlength) + rest
    ensures LookUp(t, root, x) == Answer(kind.Op(k), kind.Val(k), lens[k])
  {
    HuffmanCodec.SentCodeStarts(lens, codes, k, MAX_BITS, rest);
    MatchStarts(x, lens, k, n);
  }
}
