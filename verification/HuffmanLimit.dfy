// Limiting the depth of a Huffman tree, working on the histogram of code lengths alone.

module HuffmanLimit {
  import opened Arithmetic

  // The Kraft sum of a histogram, scaled so that its deepest level counts 1.
  function Filled(h: seq<nat>): nat {
    if h == [] then 0 else 2 * Filled(h[..|h| - 1]) + h[|h| - 1]
  }

  // s * 2^e
  function Shift(s: nat, e: nat): nat {
    if e == 0 then s else 2 * Shift(s, e - 1)
  }

  lemma {:induction false} ShiftPow2(m: nat, e: nat)
    ensures Shift(Pow2(m), e) == Pow2(m + e)
  {
    if e > 0 { ShiftPow2(m, e - 1); }
  }

  lemma {:induction false} ShiftMono(a: nat, b: nat, e: nat)
    requires a <= b
    ensures Shift(a, e) <= Shift(b, e)
  {
    if e > 0 { ShiftMono(a, b, e - 1); }
  }

  lemma {:induction false} ShiftAdd(a: nat, b: nat, e: nat)
    ensures Shift(a + b, e) == Shift(a, e) + Shift(b, e)
  {
    if e > 0 { ShiftAdd(a, b, e - 1); }
  }

  lemma {:induction false} ShiftAtLeast(a: nat, e: nat)
    ensures Shift(a, e) >= a
    ensures a > 0 && e > 0 ==> Shift(a, e) > a
  {
    if e > 0 { ShiftAtLeast(a, e - 1); }
  }

  // One more leaf on level k.
  function Inc(h: seq<nat>, k: nat): seq<nat>
    requires k < |h|
  {
    h[k := h[k] + 1]
  }

  lemma {:induction false} FilledInc(h: seq<nat>, k: nat)
    requires k < |h|
    ensures Filled(Inc(h, k)) == Filled(h) + Pow2(|h| - 1 - k)
    ensures Sum(Inc(h, k)) == Sum(h) + 1
    decreases |h|
  {
    var z := |h| - 1;
    var g := Inc(h, k);
    SumLast(h);
    SumLast(g);
    if k == z {
      assert g[..z] == h[..z];
    } else {
      FilledInc(h[..z], k);
      assert g[..z] == Inc(h[..z], k);
    }
  }

  lemma SumLast(h: seq<nat>)
    requires h != []
    ensures Sum(h) == Sum(h[..|h| - 1]) + h[|h| - 1]
  {
    assert h == h[..|h| - 1] + [h[|h| - 1]];
    SumAppend(h[..|h| - 1], h[|h| - 1]);
  }

  // The move at the heart of truncateTree: a leaf of level j becomes a node with two leaves,
  // and a pair of leaves of level i becomes one leaf of level i - 1.
  function Moved(h: seq<nat>, j: nat, i: nat): seq<nat>
    requires j + 1 < i < |h| && h[j] >= 1 && h[i] >= 2
  {
    var h1 := h[j := h[j] - 1];
    var h2 := h1[j + 1 := h1[j + 1] + 2];
    var h3 := h2[i - 1 := h2[i - 1] + 1];
    h3[i := h3[i] - 2]
  }

  lemma MovedKeeps(h: seq<nat>, j: nat, i: nat)
    requires j + 1 < i < |h| && h[j] >= 1 && h[i] >= 2
    ensures Filled(Moved(h, j, i)) == Filled(h) && Sum(Moved(h, j, i)) == Sum(h)
  {
    hide Filled, Sum;
    var h1 := h[j := h[j] - 1];
    var h2 := h1[j + 1 := h1[j + 1] + 2];
    var h3 := h2[i - 1 := h2[i - 1] + 1];
    var h4 := h3[i := h3[i] - 2];
    var d := |h| - 1;
    assert Inc(h1, j) == h;
    assert Inc(Inc(h1, j + 1), j + 1) == h2;
    assert Inc(h2, i - 1) == h3;
    assert Inc(Inc(h4, i), i) == h3;
    FilledInc(h1, j);
    FilledInc(h1, j + 1);
    FilledInc(Inc(h1, j + 1), j + 1);
    FilledInc(h2, i - 1);
    FilledInc(h4, i);
    FilledInc(Inc(h4, i), i);
    assert Pow2(d - j) == 2 * Pow2(d - (j + 1)) && Pow2(d - (i - 1)) == 2 * Pow2(d - i);
  }

  // With no leaf above level m, leaves below level m leave the tree unfilled.
  lemma {:induction false} FilledFromBelow(h: seq<nat>, m: nat)
    requires m < |h| && forall k :: 0 <= k < m ==> h[k] == 0
    ensures Filled(h) <= Shift(Sum(h), |h| - 1 - m)
    ensures h[|h| - 1] > 0 && |h| - 1 > m ==> Filled(h) < Shift(Sum(h), |h| - 1 - m)
    decreases |h|
  {
    var z := |h| - 1;
    SumLast(h);
    if z == m {
      FilledOfZeros(h[..z]);
    } else {
      FilledFromBelow(h[..z], m);
      ShiftAdd(Sum(h[..z]), h[z], z - m);
      ShiftAtLeast(h[z], z - m);
    }
  }

  lemma {:induction false} FilledOfZeros(h: seq<nat>)
    requires forall k :: 0 <= k < |h| ==> h[k] == 0
    ensures Filled(h) == 0
    decreases |h|
  {
    if h != [] { FilledOfZeros(h[..|h| - 1]); }
  }

  // While a level i below the limit m is occupied, some level above m has a leaf.
  lemma ShallowLeafExists(h: seq<nat>, m: nat)
    requires m + 1 < |h| && h[|h| - 1] > 0
    requires Filled(h) == Pow2(|h| - 1) && Sum(h) <= Pow2(m)
    ensures exists k :: 0 <= k < m && h[k] > 0
  {
    if forall k :: 0 <= k < m ==> h[k] == 0 {
      FilledFromBelow(h, m);
      ShiftMono(Sum(h), Pow2(m), |h| - 1 - m);
      ShiftPow2(m, |h| - 1 - m);
      assert false;
    }
  }

  // The deepest level is even.
  lemma DeepestEven(h: seq<nat>)
    requires |h| >= 2 && Filled(h) == Pow2(|h| - 1)
    ensures h[|h| - 1] % 2 == 0
  {
  }

  lemma {:induction false} SumOfPrefix(h: seq<nat>, i: nat)
    requires i <= |h| && forall k :: i <= k < |h| ==> h[k] == 0
    ensures Sum(h) == Sum(h[..i])
    decreases |h|
  {
    if i < |h| {
      SumLast(h);
      SumOfPrefix(h[..|h| - 1], i);
      assert h[..|h| - 1][..i] == h[..i];
    } else {
      assert h[..i] == h;
    }
  }

  // A full binary tree, or no tree at all.
  ghost predicate FullTree(h: seq<nat>) {
    h != [] && (Sum(h) == 0 || Filled(h) == Pow2(|h| - 1))
  }

  // All leaves lie on levels 0 .. i, and there they form a full tree.
  ghost predicate FullTo(h: seq<nat>, i: nat) {
    i < |h| && (forall k :: i < k < |h| ==> h[k] == 0) && FullTree(h[..i + 1])
  }

  lemma FullToUp(h: seq<nat>, i: nat)
    requires FullTo(h, i) && i > 0 && h[i] == 0
    ensures FullTo(h, i - 1)
  {
    var p := h[..i + 1];
    SumLast(p);
    assert p[..i] == h[..i];
  }

  lemma FullToMove(h: seq<nat>, j: nat, i: nat)
    requires FullTo(h, i) && j + 1 < i && h[j] >= 1 && h[i] >= 2
    ensures FullTo(Moved(h, j, i), i) && Sum(Moved(h, j, i)) == Sum(h)
  {
    hide Filled, Sum, Pow2;
    MovedAbove(h, j, i);
    MovedKeeps(h, j, i);
    MovedKeeps(h[..i + 1], j, i);
    hide Moved;
  }

  lemma MovedAbove(h: seq<nat>, j: nat, i: nat)
    requires j + 1 < i < |h| && h[j] >= 1 && h[i] >= 2
    ensures |Moved(h, j, i)| == |h| && Moved(h, j, i)[..i + 1] == Moved(h[..i + 1], j, i)
    ensures forall k :: i < k < |h| ==> Moved(h, j, i)[k] == h[k]
  {
  }

  lemma {:induction false} SumPositive(h: seq<nat>, k: nat)
    requires k < |h|
    ensures h[k] <= Sum(h)
  {
    if k > 0 { SumPositive(h[1..], k - 1); }
  }

  // What truncateTree finds at an occupied level i below the limit m.
  lemma OccupiedLevel(h: seq<nat>, i: nat, m: nat)
    requires FullTo(h, i) && m < i && h[i] > 0 && Sum(h) <= Pow2(m)
    ensures h[i] >= 2 && h[i] % 2 == 0
    ensures exists k :: 0 <= k < m && h[k] > 0
  {
    hide Filled, Sum, Pow2;
    var p := h[..i + 1];
    SumPositive(p, i);
    SumOfPrefix(h, i + 1);
    DeepestEven(p);
    ShallowLeafExists(p, m);
    var k :| 0 <= k < m && p[k] > 0;
    assert h[k] > 0;
  }

  // ---------- Which leaves pay ----------

  // How h comes from h0 above the limit m: up to level d - 1 nothing has changed, level d has lost
  // leaves, and below it only what the last leaf taken has left: one leaf on a level, and two only on
  // the deepest level in use.
  ghost predicate PaidTo(h0: seq<nat>, h: seq<nat>, m: nat, d: nat) {
    && |h0| == |h| > m >= d
    && (forall k :: 0 <= k < d ==> h[k] == h0[k])
    && (d < m ==> h[d] < h0[d])
    && (forall k :: d < k < m ==> h[k] <= 2 && (h[k] == 2 ==> forall l :: k < l < m ==> h[l] == 0))
  }

  // Leaves move down from the deepest level above the limit first.
  ghost predicate PaidFromBelow(h0: seq<nat>, h: seq<nat>, m: nat) {
    exists d :: 0 <= d <= m && PaidTo(h0, h, m, d)
  }

  // A level loses leaves only once the deeper ones are used up.
  lemma DeeperFirst(h0: seq<nat>, h: seq<nat>, m: nat, k: nat, l: nat)
    requires PaidFromBelow(h0, h, m) && k < l < m && h[k] < h0[k]
    ensures h[l] <= 2
  {
    var d :| 0 <= d <= m && PaidTo(h0, h, m, d);
  }

  // The same while the leaf at level j is being moved further down.
  ghost predicate Paying(h0: seq<nat>, h: seq<nat>, m: nat, d: nat, j: nat) {
    && |h0| == |h| > m && d <= m && j <= m
    && (forall k :: 0 <= k < d ==> h[k] == h0[k])
    && (d < m ==> h[d] < h0[d])
    && (forall k :: d < k < m ==> h[k] <= if k == j then 2 else 1)
    && (j < m ==> d < j && h[j] == 2 && forall l :: j < l < m ==> h[l] == 0)
  }

  lemma PayingStarts(h: seq<nat>, m: nat)
    requires m < |h|
    ensures Paying(h, h, m, m, m)
  {
  }

  // What the search goes over is empty.
  lemma PayingMoves(h0: seq<nat>, h: seq<nat>, m: nat, d: nat, j0: nat, j: nat, i: nat) returns (d': nat)
    requires Paying(h0, h, m, d, j0) && m < i < |h| && j < m && h[j] > 0 && h[i] >= 2
    requires if j0 < m then j == j0 else forall l :: j < l < m ==> h[l] == 0
    ensures Paying(h0, Moved(h, j, i), m, d', j + 1)
  {
    d' := if j < d then j else d;
  }

  lemma Paid(h0: seq<nat>, h: seq<nat>, m: nat, d: nat, j: nat)
    requires Paying(h0, h, m, d, j)
    ensures PaidFromBelow(h0, h, m)
  {
    assert PaidTo(h0, h, m, d);
  }

  // What the leaves from level k to level m - 1 save, each against leaves at level m.
  function Saved(h: seq<nat>, k: nat, m: nat): nat
    requires m <= |h|
    decreases m - k
  {
    if k >= m then 0 else h[k] * (Pow2(m - k) - 1) + Saved(h, k + 1, m)
  }

  lemma {:induction false} SavedLonger(h: seq<nat>, k: nat, m: nat)
    requires k <= m < |h|
    ensures Saved(h, k, m + 1) == 2 * Saved(h, k, m) + Sum(h[k..m + 1])
    decreases m - k
  {
    assert h[k..m + 1][1..] == h[k + 1..m + 1];
    if k == m {
      assert h[k + 1..m + 1] == [];
    } else {
      SavedLonger(h, k + 1, m);
      TwiceLess(h[k], Pow2(m - k));
    }
  }

  lemma TwiceLess(a: nat, p: nat)
    ensures a * (2 * p - 1) == 2 * (a * (p - 1)) + a
  {
  }

  // Leaves and savings make up the Kraft sum.
  lemma {:induction false} FilledIsSaved(h: seq<nat>, m: nat)
    requires m < |h|
    ensures Filled(h[..m + 1]) == Sum(h[..m + 1]) + Saved(h, 0, m)
  {
    var p := h[..m + 1];
    assert p[..m] == h[..m];
    SumLast(p);
    if m > 0 {
      FilledIsSaved(h, m - 1);
      SavedLonger(h, 0, m - 1);
      assert h[0..m] == h[..m];
    } else {
      assert h[..0] == [];
    }
  }

  // One leaf to a level, and two on the deepest level in use.
  ghost predicate Sparse(h: seq<nat>, k: nat, m: nat)
    requires m <= |h|
  {
    forall x :: k <= x < m ==> h[x] <= 2 && (h[x] == 2 ==> forall l :: x < l < m ==> h[l] == 0)
  }

  lemma {:induction false} NothingSaved(h: seq<nat>, k: nat, m: nat)
    requires m <= |h| && forall l :: k <= l < m ==> h[l] == 0
    ensures Saved(h, k, m) == 0
    decreases m - k
  {
    if k < m { NothingSaved(h, k + 1, m); }
  }

  // Such leaves save less than one more leaf on the level above them would.
  lemma {:induction false} SparseSaves(h: seq<nat>, k: nat, m: nat)
    requires k <= m <= |h| && Sparse(h, k, m)
    ensures Saved(h, k, m) <= 2 * Pow2(m - k) - 2
    decreases m - k
  {
    if k < m {
      SparseSaves(h, k + 1, m);
      if h[k] == 2 { NothingSaved(h, k + 1, m); }
      SmallTimes(h[k], Pow2(m - k) - 1);
    }
  }

  lemma SmallTimes(a: nat, x: nat)
    requires a <= 2
    ensures a * x == if a == 0 then 0 else if a == 1 then x else 2 * x
  {
  }

  // Where two results first differ, the one with fewer leaves saves less.
  lemma FewerSave(h0: seq<nat>, g: seq<nat>, h: seq<nat>, m: nat, a: nat, dg: nat, dh: nat)
    requires PaidTo(h0, g, m, dg) && PaidTo(h0, h, m, dh) && a < m && g[..a] == h[..a] && g[a] < h[a]
    ensures Saved(g, a, m) < Saved(h, a, m)
  {
    forall k | 0 <= k < a ensures g[k] == h[k] { assert g[k] == g[..a][k] == h[..a][k]; }
    assert a >= dg;
    assert Sparse(g, a + 1, m);
    SparseSaves(g, a + 1, m);
    MoreTimes(g[a], h[a], Pow2(m - a) - 1);
  }

  lemma MoreTimes(a: nat, b: nat, x: nat)
    requires a < b
    ensures b * x >= a * x + x
  {
    var d := b - a - 1;
    assert b * x == (a + 1 + d) * x == a * x + x + d * x;
  }

  lemma {:induction false} SameFrom(h0: seq<nat>, g: seq<nat>, h: seq<nat>, m: nat, a: nat, dg: nat, dh: nat)
    requires PaidTo(h0, g, m, dg) && PaidTo(h0, h, m, dh) && a <= m && g[..a] == h[..a] && Saved(g, a, m) == Saved(h, a, m)
    ensures g[..m] == h[..m]
    decreases m - a
  {
    if a < m {
      if g[a] < h[a] {
        FewerSave(h0, g, h, m, a, dg, dh);
      } else if h[a] < g[a] {
        FewerSave(h0, h, g, m, a, dh, dg);
      }
      hide PaidTo;
      assert g[..a + 1] == g[..a] + [g[a]] && h[..a + 1] == h[..a] + [h[a]];
      SameFrom(h0, g, h, m, a + 1, dg, dh);
    }
  }

  // So there is just one result: the leaves that pay, the leaf count and the full tree fix it.
  lemma OnlyOne(h0: seq<nat>, g: seq<nat>, h: seq<nat>, m: nat)
    requires FullTo(g, m) && FullTo(h, m) && Sum(g) == Sum(h)
    requires PaidFromBelow(h0, g, m) && PaidFromBelow(h0, h, m)
    ensures g == h
  {
    hide *;
    var dg := PaidBy(h0, g, m);
    var dh := PaidBy(h0, h, m);
    FullSaves(g, m);
    FullSaves(h, m);
    if Sum(g) == 0 {
      NoLeaves(g);
      NoLeaves(h);
    } else {
      SameAbove(h0, g, h, m, dg, dh);
      SamePrefix(g, h, m);
    }
  }

  lemma PaidBy(h0: seq<nat>, h: seq<nat>, m: nat) returns (d: nat)
    requires PaidFromBelow(h0, h, m)
    ensures d <= m && PaidTo(h0, h, m, d) && |h0| == |h| > m
  {
    d :| 0 <= d <= m && PaidTo(h0, h, m, d);
  }

  // What a full tree with leaves saves is fixed by their number.
  lemma FullSaves(h: seq<nat>, m: nat)
    requires FullTo(h, m)
    ensures |h| > m && Sum(h[..m + 1]) == Sum(h) && forall k :: m < k < |h| ==> h[k] == 0
    ensures Sum(h) > 0 ==> Sum(h) + Saved(h, 0, m) == Pow2(m)
  {
    SumOfPrefix(h, m + 1);
    FilledIsSaved(h, m);
    hide Filled, Sum, Saved, Pow2;
  }

  lemma SameAbove(h0: seq<nat>, g: seq<nat>, h: seq<nat>, m: nat, dg: nat, dh: nat)
    requires m < |g| == |h| && PaidTo(h0, g, m, dg) && PaidTo(h0, h, m, dh)
    requires Saved(g, 0, m) == Saved(h, 0, m) && Sum(g[..m + 1]) == Sum(h[..m + 1])
    ensures g[..m] == h[..m] && g[m] == h[m]
  {
    hide *;
    assert g[..0] == h[..0];
    SameFrom(h0, g, h, m, 0, dg, dh);
    SumLast(g[..m + 1]);
    SumLast(h[..m + 1]);
    assert g[..m + 1][..m] == g[..m] && h[..m + 1][..m] == h[..m];
  }

  lemma SamePrefix(g: seq<nat>, h: seq<nat>, m: nat)
    requires m < |g| == |h| && g[..m] == h[..m] && g[m] == h[m] && forall k :: m < k < |g| ==> g[k] == h[k]
    ensures g == h
  {
    forall k | 0 <= k < m ensures g[k] == h[k] { assert g[k] == g[..m][k] == h[..m][k]; }
  }

  lemma NoLeaves(h: seq<nat>)
    requires Sum(h) == 0
    ensures forall k :: 0 <= k < |h| ==> h[k] == 0
  {
    forall k | 0 <= k < |h| ensures h[k] == 0 { SumPositive(h, k); }
  }

  // ---------- truncateTree ----------

  // The deepest level above maxBits with a leaf.
  method DeepestLeaf(hist: array<nat>, maxBits: nat) returns (j: nat)
    requires maxBits < hist.Length && exists k :: 0 <= k < maxBits && hist[..][k] > 0
    ensures j < maxBits && hist[j] > 0 && forall l :: j < l < maxBits ==> hist[l] == 0
  {
    ghost var k :| 0 <= k < maxBits && hist[..][k] > 0;
    var i: int := maxBits;
    i := i - 1;
    while hist[i] == 0
      invariant k <= i < maxBits && hist[k] > 0
      invariant forall l :: i < l < maxBits ==> hist[l] == 0
      decreases i
    {
      i := i - 1;
    }
    j := i;
  }

  // Move a leaf of level i to level j + 1.
  method MoveLeaf(hist: array<nat>, j: nat, i: nat)
    requires j + 1 < i < hist.Length && hist[j] >= 1 && hist[i] >= 2
    modifies hist
    ensures hist[..] == Moved(old(hist[..]), j, i)
  {
    hist[j] := hist[j] - 1;
    hist[j + 1] := hist[j + 1] + 2;
    hist[i - 1] := hist[i - 1] + 1;
    hist[i] := hist[i] - 2;
  }

  // One leaf is found and moved, and a pair of leaves of level i joins one level up.
  method MoveOne(hist: array<nat>, j0: nat, i: nat, maxBits: nat, ghost h0: seq<nat>, ghost d0: nat) returns (j: nat, ghost d: nat)
    requires maxBits < i < hist.Length && FullTo(hist[..], i) && hist[i] > 0 && Sum(hist[..]) <= Pow2(maxBits)
    requires j0 <= maxBits && Paying(h0, hist[..], maxBits, d0, j0)
    modifies hist
    ensures FullTo(hist[..], i) && Sum(hist[..]) == old(Sum(hist[..])) && hist[i] + 2 == old(hist[i])
    ensures j <= maxBits && Paying(h0, hist[..], maxBits, d, j)
  {
    hide *;
    ghost var h := hist[..];
    OccupiedLevel(h, i, maxBits);
    PayingLeaf(h0, h, maxBits, d0, j0);
    j := j0;
    if j == maxBits { j := DeepestLeaf(hist, maxBits); }
    FullToMove(h, j, i);
    d := PayingMoves(h0, h, maxBits, d0, j0, j, i);
    MovedLess(h, j, i);
    MoveLeaf(hist, j, i);
    j := j + 1;
  }

  method TruncateTree(hist: array<nat>, treeDepth: nat, maxBits: nat)
    requires hist.Length == treeDepth && maxBits < treeDepth
    requires FullTree(hist[..]) && Sum(hist[..]) <= Pow2(maxBits)
    modifies hist
    ensures Sum(hist[..]) == old(Sum(hist[..]))
    ensures FullTo(hist[..], maxBits) && PaidFromBelow(old(hist[..]), hist[..], maxBits)
    ensures (forall k :: maxBits < k < treeDepth ==> old(hist[k]) == 0) ==> hist[..] == old(hist[..])
  {
    ghost var h0 := hist[..];
    PayingStarts(h0, maxBits);
    FullToAll(h0);
    hide *;
    ghost var n, d: nat := Sum(hist[..]), maxBits;
    var j: nat := maxBits;
    var i: int := treeDepth - 1;
    while i > maxBits
      invariant maxBits <= i < treeDepth && FullTo(hist[..], i) && Sum(hist[..]) == n
      invariant j <= maxBits && Paying(h0, hist[..], maxBits, d, j)
      invariant (forall k :: maxBits < k < treeDepth ==> h0[k] == 0) ==> hist[..] == h0
    {
      while hist[i] != 0
        invariant FullTo(hist[..], i) && Sum(hist[..]) == n
        invariant j <= maxBits && Paying(h0, hist[..], maxBits, d, j)
        invariant (forall k :: maxBits < k < treeDepth ==> h0[k] == 0) ==> hist[..] == h0
        decreases hist[i]
      {
        j, d := MoveOne(hist, j, i, maxBits, h0, d);
      }
      FullToUp(hist[..], i);
      i := i - 1;
    }
    Paid(h0, hist[..], maxBits, d, j);
  }

  lemma PayingLeaf(h0: seq<nat>, h: seq<nat>, m: nat, d: nat, j: nat)
    requires Paying(h0, h, m, d, j)
    ensures |h| > m && (j < m ==> h[j] > 0)
  {
  }

  lemma MovedLess(h: seq<nat>, j: nat, i: nat)
    requires j + 1 < i < |h| && h[j] >= 1 && h[i] >= 2
    ensures |Moved(h, j, i)| == |h| && Moved(h, j, i)[i] == h[i] - 2
  {
  }

  lemma FullToAll(h: seq<nat>)
    requires FullTree(h)
    ensures FullTo(h, |h| - 1)
  {
    assert h[..|h|] == h;
  }
}
