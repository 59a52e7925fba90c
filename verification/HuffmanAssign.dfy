// Handing out the lengths of a histogram to the sorted symbols, the longest to the rarest.

module HuffmanAssign {
  import opened Arithmetic
  import opened HuffmanOptimality
  import opened HuffmanTree
  import opened HuffmanLengths
  import opened HuffmanLimit

  function Run(k: nat, x: nat): (r: seq<nat>)
    ensures |r| == k
  {
    if k == 0 then [] else [x] + Run(k - 1, x)
  }

  // The lengths a histogram stands for, longest first.
  function ListDown(h: seq<nat>): seq<nat>
    decreases |h|
  {
    if h == [] then [] else Run(h[|h| - 1], |h| - 1) + ListDown(h[..|h| - 1])
  }

  lemma {:induction false} ListDownLength(h: seq<nat>)
    ensures |ListDown(h)| == Sum(h)
    decreases |h|
  {
    if h != [] {
      SumLast(h);
      ListDownLength(h[..|h| - 1]);
    }
  }

  lemma {:induction false} RunKraft(k: nat, x: nat, s: nat)
    requires x <= s
    ensures Kraft(Run(k, x), s) == Shift(k, s - x)
  {
    if k == 0 {
      ShiftZero(s - x);
    } else {
      RunKraft(k - 1, x, s);
      assert Run(k, x)[1..] == Run(k - 1, x);
      ShiftAdd(1, k - 1, s - x);
      ShiftOne(s - x);
    }
  }

  lemma {:induction false} ShiftZero(e: nat)
    ensures Shift(0, e) == 0
  {
    if e > 0 { ShiftZero(e - 1); }
  }

  lemma {:induction false} ShiftOne(e: nat)
    ensures Shift(1, e) == Pow2(e)
  {
    if e > 0 { ShiftOne(e - 1); }
  }

  lemma {:induction false} ShiftTwice(a: nat, e: nat)
    ensures Shift(2 * a, e) == Shift(a, e + 1)
  {
    if e > 0 { ShiftTwice(a, e - 1); }
  }

  // The Kraft sum of a histogram is the Kraft sum of its lengths.
  lemma {:induction false} ListDownKraft(h: seq<nat>, s: nat)
    requires |h| <= s + 1
    ensures Kraft(ListDown(h), s) == if h == [] then 0 else Shift(Filled(h), s + 1 - |h|)
    decreases |h|
  {
    hide *;
    if h == [] {
      NoRuns(s);
    } else {
      var z := |h| - 1;
      ListDownKraft(h[..z], s);
      LastRun(h);
      KraftConcat(Run(h[z], z), ListDown(h[..z]), s);
      RunKraft(h[z], z, s);
      ShiftAdd(2 * Filled(h[..z]), h[z], s - z);
      ShiftTwice(Filled(h[..z]), s - z);
      ShiftZero(s - z + 1);
    }
  }

  lemma NoRuns(s: nat)
    ensures Kraft(ListDown([]), s) == 0
  {
  }

  lemma LastRun(h: seq<nat>)
    requires h != []
    ensures var z := |h| - 1;
            ListDown(h) == Run(h[z], z) + ListDown(h[..z]) && Filled(h) == 2 * Filled(h[..z]) + h[z] && (z == 0 ==> Filled(h[..z]) == 0)
  {
  }

  // ---------- Descending lists are determined by their counts ----------

  lemma {:induction false} RunCount(k: nat, x: nat, y: nat)
    ensures Count(Run(k, x), y) == if x == y then k else 0
  {
    if k > 0 {
      RunCount(k - 1, x, y);
      assert Run(k, x)[1..] == Run(k - 1, x);
    }
  }

  lemma {:induction false} ListDownCount(h: seq<nat>, y: nat)
    ensures Count(ListDown(h), y) == if y < |h| then h[y] else 0
    decreases |h|
  {
    if h != [] {
      var z := |h| - 1;
      ListDownCount(h[..z], y);
      RunCount(h[z], z, y);
      CountConcat(Run(h[z], z), ListDown(h[..z]), y);
    }
  }

  lemma {:induction false} DescendingRun(k: nat, x: nat, s: seq<nat>)
    requires Descending(s) && (s != [] ==> s[0] <= x)
    ensures Descending(Run(k, x) + s)
  {
    if k == 0 {
      assert Run(0, x) + s == s;
    } else {
      DescendingRun(k - 1, x, s);
      assert (Run(k, x) + s)[1..] == Run(k - 1, x) + s;
    }
  }

  lemma {:induction false} ListDownDescending(h: seq<nat>)
    ensures Descending(ListDown(h))
    ensures ListDown(h) != [] ==> ListDown(h)[0] < |h|
    decreases |h|
  {
    if h != [] {
      var z := |h| - 1;
      ListDownDescending(h[..z]);
      DescendingRun(h[z], z, ListDown(h[..z]));
    }
  }

  lemma {:induction false} CountPositive(s: seq<nat>, x: nat)
    requires Count(s, x) > 0
    ensures exists i :: 0 <= i < |s| && s[i] == x
  {
    if s[0] == x {
      assert s[0] == x;
    } else {
      CountPositive(s[1..], x);
      var i :| 0 <= i < |s[1..]| && s[1..][i] == x;
      assert s[i + 1] == x;
    }
  }

  lemma CountOfHead(s: seq<nat>)
    requires s != []
    ensures Count(s, s[0]) > 0
  {
  }

  lemma {:induction false} DescendingUnique(a: seq<nat>, b: seq<nat>)
    requires Descending(a) && Descending(b)
    requires forall x :: Count(a, x) == Count(b, x)
    ensures a == b
  {
    if a == [] {
      if b != [] {
        CountOfHead(b);
        assert false;
      }
    } else {
      assert Count(a, a[0]) == Count(b, a[0]);
      CountPositive(b, a[0]);
      DescendingFromHead(a);
      DescendingFromHead(b);
      assert Count(b, b[0]) == Count(a, b[0]);
      CountPositive(a, b[0]);
      assert a[0] == b[0];
      forall x ensures Count(a[1..], x) == Count(b[1..], x) {
        assert Count(a, x) == Count(b, x);
      }
      DescendingUnique(a[1..], b[1..]);
    }
  }

  lemma {:induction false} InsertDownCount(x: nat, s: seq<nat>, y: nat)
    ensures Count(InsertDown(x, s), y) == Count(s, y) + if x == y then 1 else 0
  {
    if s == [] || x >= s[0] {
      assert ([x] + s)[1..] == s;
    } else {
      InsertDownCount(x, s[1..], y);
      assert InsertDown(x, s)[1..] == InsertDown(x, s[1..]);
    }
  }

  lemma {:induction false} SortDownCount(l: seq<nat>, y: nat)
    ensures Count(SortDown(l), y) == Count(l, y)
  {
    if l != [] {
      SortDownCount(l[1..], y);
      InsertDownCount(l[0], SortDown(l[1..]), y);
    }
  }

  // Reading the histogram downwards sorts the lengths it was counted from.
  lemma ListDownSorts(h: seq<nat>, l: seq<nat>)
    requires Histogram(h, l) && h != [] && AtMost(l, |h| - 1)
    ensures ListDown(h) == SortDown(l)
  {
    forall x: nat ensures Count(ListDown(h), x) == Count(SortDown(l), x) {
      ListDownCount(h, x);
      SortDownCount(l, x);
      if x >= |h| { CountBeyond(l, |h| - 1, x); }
    }
    ListDownDescending(h);
    SortDownDescending(l);
    DescendingUnique(ListDown(h), SortDown(l));
  }

  // ---------- Optimality ----------

  // The lengths of the tree, handed out longest first, cost exactly Huffman's merging cost.
  lemma AssignmentIsOptimal(w: seq<nat>, t: Trace, h: seq<nat>)
    requires Finished(w, t) && Sum(t.freq) == HuffmanCost(w) && Ascending(w)
    requires Histogram(h, CodeLengths(w, t)) && t.ht[|t.freq| - 1] < |h|
    ensures Sum(h) == |w| && |ListDown(h)| == |w|
    ensures Filled(h) == Pow2(|h| - 1)
    ensures Dot(w, ListDown(h)) == HuffmanCost(w)
  {
    var l := CodeLengths(w, t);
    var s := |h| - 1;
    CodeLengthsOfTree(w, t, s);
    assert AtMost(l, s);
    ListDownSorts(h, l);
    ListDownLength(h);
    SortDownCheaper(w, l);
    SortDownMultiset(l);
    KraftOfMultiset(l, SortDown(l), s);
    AtMostOfMultiset(l, SortDown(l), s);
    LowerBound(w, SortDown(l), s);
    ListDownKraft(h, s);
  }

  // ---------- canonizeTree ----------

  ghost predicate DistinctValues(sorted: seq<Symbol>, n: nat) {
    n <= |sorted| && forall i, j :: 0 <= i < j < n ==> sorted[i].value != sorted[j].value
  }

  // The first k symbols have got the first k lengths of the list, and nobody else is touched.
  ghost predicate Assigned(sorted: seq<Symbol>, k: nat, l: seq<nat>, bits: seq<nat>, bits0: seq<nat>) {
    && k <= |sorted| && k <= |l| && |bits| == |bits0|
    && (forall i :: 0 <= i < k ==> sorted[i].value < |bits| && bits[sorted[i].value] == l[i])
    && (forall v :: 0 <= v < |bits| && (forall i :: 0 <= i < k ==> sorted[i].value != v) ==> bits[v] == bits0[v])
  }

  lemma AssignedStep(sorted: seq<Symbol>, n: nat, k: nat, l: seq<nat>, bits: seq<nat>, bits0: seq<nat>)
    requires DistinctValues(sorted, n) && k < n && k < |l|
    requires Assigned(sorted, k, l, bits, bits0) && sorted[k].value < |bits|
    ensures Assigned(sorted, k + 1, l, bits[sorted[k].value := l[k]], bits0)
  {
  }

  // Still to be handed out: `count` times the length at hand, then everything shorter.
  ghost predicate Remaining(h: seq<nat>, k: nat, count: nat, length: nat) {
    && length <= |h| && k <= |ListDown(h)|
    && ListDown(h)[k..] == Run(count, length) + ListDown(h[..length])
  }

  lemma RemainingDown(h: seq<nat>, k: nat, length: nat)
    requires Remaining(h, k, 0, length) && k < |ListDown(h)|
    ensures length > 0 && Remaining(h, k, h[length - 1], length - 1)
  {
    assert ListDown(h)[k..] == ListDown(h[..length]);
    assert h[..length][..length - 1] == h[..length - 1];
  }

  lemma RemainingNext(h: seq<nat>, k: nat, count: nat, length: nat)
    requires Remaining(h, k, count, length) && count > 0
    ensures k < |ListDown(h)| && ListDown(h)[k] == length && Remaining(h, k + 1, count - 1, length)
  {
    var r := ListDown(h)[k..];
    assert r[0] == length;
    assert r[1..] == Run(count - 1, length) + ListDown(h[..length]);
    assert ListDown(h)[k + 1..] == r[1..];
  }

  method CanonizeTree(sorted: seq<Symbol>, n: nat, hist: array<nat>, bits: array<nat>, treeDepth: nat)
    requires hist != bits && hist.Length == treeDepth
    requires DistinctValues(sorted, n) && n <= Sum(hist[..])
    requires forall k :: 0 <= k < n ==> sorted[k].value < bits.Length
    modifies bits
    ensures n <= |ListDown(hist[..])|
    ensures Assigned(sorted, n, ListDown(hist[..]), bits[..], old(bits[..]))
  {
    hide ListDown, Assigned, Remaining, Sum, Run;
    ghost var h, bits0 := hist[..], bits[..];
    var length: int := treeDepth;
    var count := 0;
    CanonizeInitially(sorted, h, bits[..]);
    var k := 0;
    while k < n
      invariant k <= n <= |ListDown(h)| && 0 <= length <= treeDepth
      invariant Remaining(h, k, count, length)
      invariant Assigned(sorted, k, ListDown(h), bits[..], bits0)
    {
      if count == 0 {
        RemainingDown(h, k, length);
        length := length - 1;
        count := hist[length];
        while count == 0 && length >= 0
          invariant 0 <= length <= treeDepth
          invariant Remaining(h, k, count, length)
          invariant Assigned(sorted, k, ListDown(h), bits[..], bits0)
          decreases length
        {
          RemainingDown(h, k, length);
          length := length - 1;
          count := hist[length];
        }
      }
      if length < 0 { break; }
      RemainingNext(h, k, count, length);
      AssignedStep(sorted, n, k, ListDown(h), bits[..], bits0);
      bits[sorted[k].value] := length;
      count := count - 1;
      k := k + 1;
    }
  }

  lemma CanonizeInitially(sorted: seq<Symbol>, h: seq<nat>, bits: seq<nat>)
    ensures Remaining(h, 0, 0, |h|) && |ListDown(h)| == Sum(h)
    ensures Assigned(sorted, 0, ListDown(h), bits, bits)
  {
    ListDownLength(h);
    assert h[..|h|] == h;
  }
}
