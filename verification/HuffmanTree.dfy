// Building the Huffman tree in arrays with two queues (the sorted symbols and the internal nodes
// in creation order), then reading the code lengths off the parent links.

module HuffmanTree {
  import opened Arithmetic
  import opened HuffmanOptimality

  datatype Symbol = Symbol(value: nat, frequency: nat)

  function Weights(heap: seq<Symbol>): (w: seq<nat>)
    ensures |w| == |heap|
    ensures forall k :: 0 <= k < |heap| ==> w[k] == heap[k].frequency
  {
    seq(|heap|, k requires 0 <= k < |heap| => heap[k].frequency)
  }

  // ---------- What the builder records ----------

  // Before node i is made, inC[i] symbols and tc[i] nodes have found a parent. Node i weighs
  // freq[i], has height ht[i], and lft[i], rgt[i] say whether its children are nodes. par[j] is
  // the parent of node j.
  datatype Trace = Trace(inC: seq<nat>, tc: seq<nat>, ht: seq<nat>, freq: seq<nat>, par: seq<nat>,
                         lft: seq<bool>, rgt: seq<bool>)

  function One(b: bool): nat { if b then 1 else 0 }

  function Higher(x: nat, y: nat): nat { if x >= y then x else y }

  // Node i takes its children from the two queues in order and weighs as much as both.
  ghost predicate Stage(i: nat, w: seq<nat>, t: Trace)
    requires |t.inC| == |t.tc| > i + 1 && i < |t.ht| == |t.freq| == |t.lft| == |t.rgt|
  {
    var l, r, s, n := One(t.lft[i]), One(t.rgt[i]), t.inC[i], t.tc[i];
    && t.tc[i + 1] == n + l + r <= i && t.tc[i + 1] <= |t.par|
    && t.inC[i + 1] == s + 2 - l - r <= |w|
    && t.freq[i] == (if t.lft[i] then t.freq[n] else w[s]) + (if t.rgt[i] then t.freq[n + l] else w[s + 1 - l])
    && (forall j :: n <= j < t.tc[i + 1] ==> t.par[j] == i && t.ht[j] < t.ht[i])
    && t.ht[i] == 1 + Higher(if t.lft[i] then t.ht[n] else 0, if t.rgt[i] then t.ht[n + l] else 0)
    && t.freq[i] >= Fib(t.ht[i] + 2)
  }

  // m nodes have been made out of the symbol weights w.
  ghost predicate Built(m: nat, w: seq<nat>, t: Trace) {
    && |t.inC| == |t.tc| == m + 1 && |t.ht| == |t.freq| == |t.lft| == |t.rgt| == m
    && t.inC[0] == 0 && t.tc[0] == 0 && |t.par| == t.tc[m]
    && (forall i :: 0 <= i < m ==> Stage(i, w, t))
    && t.inC[m] + t.tc[m] == 2 * m && t.inC[m] <= |w|
  }

  function Extended(t: Trace, l: bool, r: bool, s: nat, h: nat): Trace
    requires t.inC != [] && t.tc != []
  {
    var m := |t.inC| - 1;
    var k := One(l) + One(r);
    Trace(t.inC + [t.inC[m] + 2 - k], t.tc + [t.tc[|t.tc| - 1] + k], t.ht + [h], t.freq + [s],
          t.par + seq(k, _ => m), t.lft + [l], t.rgt + [r])
  }

  lemma StageKept(i: nat, m: nat, w: seq<nat>, t: Trace, l: bool, r: bool, s: nat, h: nat)
    requires i < m && Built(m, w, t)
    ensures Stage(i, w, Extended(t, l, r, s, h))
  {
    assert Stage(i, w, t);
  }

  // The children picked for node m, k of which are nodes, weigh s together and are lower than h.
  ghost predicate Fits(m: nat, w: seq<nat>, t: Trace, l: bool, r: bool, s: nat, h: nat)
    requires Built(m, w, t)
  {
    var k := One(l) + One(r);
    && t.tc[m] + k <= m && t.inC[m] + 2 - k <= |w|
    && s == (if l then t.freq[t.tc[m]] else w[t.inC[m]])
          + (if r then t.freq[t.tc[m] + One(l)] else w[t.inC[m] + 1 - One(l)])
    && (forall j :: t.tc[m] <= j < t.tc[m] + k ==> t.ht[j] < h)
    && h == 1 + Higher(if l then t.ht[t.tc[m]] else 0, if r then t.ht[t.tc[m] + One(l)] else 0)
    && s >= Fib(h + 2)
  }

  lemma StageAdded(m: nat, w: seq<nat>, t: Trace, l: bool, r: bool, s: nat, h: nat)
    requires Built(m, w, t) && Fits(m, w, t, l, r, s, h)
    ensures Stage(m, w, Extended(t, l, r, s, h))
  {
  }

  lemma BuiltExtend(m: nat, w: seq<nat>, t: Trace, l: bool, r: bool, s: nat, h: nat)
    requires Built(m, w, t) && Fits(m, w, t, l, r, s, h)
    ensures Built(m + 1, w, Extended(t, l, r, s, h))
  {
    forall i | 0 <= i < m ensures Stage(i, w, Extended(t, l, r, s, h)) {
      StageKept(i, m, w, t, l, r, s, h);
    }
    StageAdded(m, w, t, l, r, s, h);
  }

  // ---------- Two queues behave like one sorted list ----------

  function MergeQueues(a: seq<nat>, b: seq<nat>): (r: seq<nat>)
    ensures |r| == |a| + |b|
  {
    if a == [] then b
    else if b == [] || a[0] <= b[0] then [a[0]] + MergeQueues(a[1..], b)
    else [b[0]] + MergeQueues(a, b[1..])
  }

  lemma {:induction false} MergeQueuesAppend(a: seq<nat>, b: seq<nat>, s: nat)
    requires AtMost(b, s)
    ensures MergeQueues(a, b + [s]) == Insert(s, MergeQueues(a, b))
    decreases |a| + |b|
  {
    if a == [] {
      InsertLast(b, s);
    } else if b == [] || a[0] <= b[0] {
      MergeQueuesAppend(a[1..], b, s);
      assert MergeQueues(a, b)[1..] == MergeQueues(a[1..], b);
      if b != [] { assert (b + [s])[0] == b[0]; }
    } else {
      MergeQueuesAppend(a, b[1..], s);
      assert (b + [s])[1..] == b[1..] + [s];
      assert MergeQueues(a, b)[1..] == MergeQueues(a, b[1..]);
    }
  }

  lemma {:induction false} InsertLast(b: seq<nat>, s: nat)
    requires AtMost(b, s)
    ensures Insert(s, b) == b + [s]
  {
    if b != [] { InsertLast(b[1..], s); }
  }

  // ---------- One greedy step ----------

  ghost predicate AtLeast(s: seq<nat>, v: nat) {
    forall i :: 0 <= i < |s| ==> s[i] >= v
  }

  lemma {:induction false} AscendingFromHead(s: seq<nat>)
    requires Ascending(s) && s != []
    ensures AtLeast(s, s[0])
  {
    if |s| >= 2 {
      AscendingFromHead(s[1..]);
      assert forall i :: 1 <= i < |s| ==> s[i] == s[1..][i - 1];
    }
  }

  lemma {:induction false} AscendingAppend(s: seq<nat>, x: nat)
    requires Ascending(s) && AtMost(s, x)
    ensures Ascending(s + [x])
  {
    if s != [] {
      assert forall i :: 0 <= i < |s[1..]| ==> s[1..][i] == s[i + 1];
      AscendingAppend(s[1..], x);
      assert (s + [x])[1..] == s[1..] + [x];
    }
  }

  // The next pick goes to the symbol queue a unless the node queue b has something lighter.
  predicate PicksSymbol(a: seq<nat>, b: seq<nat>) {
    a != [] && (b == [] || a[0] <= b[0])
  }

  function Picked(a: seq<nat>, b: seq<nat>): nat
    requires a != [] || b != []
  {
    if PicksSymbol(a, b) then a[0] else b[0]
  }

  function RestA(a: seq<nat>, b: seq<nat>): seq<nat> {
    if PicksSymbol(a, b) then a[1..] else a
  }

  function RestB<T>(a: seq<nat>, b: seq<nat>, s: seq<T>): seq<T>
    requires a != [] || b != []
    requires |s| == |b|
  {
    if PicksSymbol(a, b) then s else s[1..]
  }

  lemma PickIsLeast(a: seq<nat>, b: seq<nat>)
    requires a != [] || b != []
    requires Ascending(a) && Ascending(b)
    ensures AtLeast(a, Picked(a, b)) && AtLeast(b, Picked(a, b))
    ensures MergeQueues(a, b) == [Picked(a, b)] + MergeQueues(RestA(a, b), RestB(a, b, b))
    ensures Ascending(RestA(a, b)) && Ascending(RestB(a, b, b))
    ensures Sum(a) + Sum(b) == Picked(a, b) + Sum(RestA(a, b)) + Sum(RestB(a, b, b))
  {
    if a != [] { AscendingFromHead(a); }
    if b != [] { AscendingFromHead(b); }
  }

  // Before every merge: the queues are sorted, together they weigh as much as the symbols, and
  // the last node made is not heavier than any two items left.
  ghost predicate Ordered(total: nat, a: seq<nat>, b: seq<nat>, last: nat) {
    && Ascending(a) && Ascending(b) && AtMost(b, last)
    && AtLeast(a, (last + 1) / 2) && AtLeast(b, (last + 1) / 2)
    && Sum(a) + Sum(b) == total
  }

  // The same with one item, of weight x, already picked.
  ghost predicate OrderedInHand(total: nat, a: seq<nat>, b: seq<nat>, last: nat, x: nat) {
    && Ascending(a) && Ascending(b) && AtMost(b, last)
    && AtLeast(a, x) && AtLeast(b, x) && last <= 2 * x
    && x + Sum(a) + Sum(b) == total
  }

  lemma OrderedFirst(total: nat, a: seq<nat>, b: seq<nat>, last: nat)
    requires Ordered(total, a, b, last) && (a != [] || b != [])
    ensures OrderedInHand(total, RestA(a, b), RestB(a, b, b), last, Picked(a, b))
  {
    PickIsLeast(a, b);
  }

  lemma OrderedSecond(total: nat, a: seq<nat>, b: seq<nat>, last: nat, x: nat)
    requires OrderedInHand(total, a, b, last, x) && (a != [] || b != [])
    ensures last <= x + Picked(a, b) <= total
    ensures Ordered(total, RestA(a, b), RestB(a, b, b) + [x + Picked(a, b)], x + Picked(a, b))
  {
    var y, a', b' := Picked(a, b), RestA(a, b), RestB(a, b, b);
    PickIsLeast(a, b);
    assert AtLeast(a', y) && AtLeast(b', y) && AtMost(b', last);
    hide Ascending, Sum, AtLeast, AtMost, RestA, RestB, Picked;
    OrderedAppend(total, a', b', last, x, y);
  }

  lemma OrderedAppend(total: nat, a: seq<nat>, b: seq<nat>, last: nat, x: nat, y: nat)
    requires Ascending(a) && Ascending(b) && AtMost(b, last) && last <= 2 * x && x <= y
    requires AtLeast(a, y) && AtLeast(b, y) && x + y + Sum(a) + Sum(b) == total
    ensures Ordered(total, a, b + [x + y], x + y)
  {
    hide Ascending, Sum;
    AtLeastWeaken(a, y, (x + y + 1) / 2);
    AtLeastWeaken(b, y, (x + y + 1) / 2);
    AtMostAppend(b, last, x + y);
    AscendingAppend(b, x + y);
    SumAppend(b, x + y);
  }

  lemma AtLeastWeaken(s: seq<nat>, v: nat, v': nat)
    requires AtLeast(s, v) && v' <= v
    ensures AtLeast(s, v')
    ensures forall x :: x >= v' ==> AtLeast(s + [x], v')
  {
  }

  lemma AtMostAppend(s: seq<nat>, v: nat, x: nat)
    requires AtMost(s, v) && v <= x
    ensures AtMost(s, x) && AtMost(s + [x], x)
  {
  }

  // The optimal cost of what is left drops by exactly the weight of the node made.
  lemma CostOfMerge(a: seq<nat>, b: seq<nat>, x: nat, y: nat, m: seq<nat>)
    requires m == [x] + ([y] + MergeQueues(a, b)) && AtMost(b, x + y)
    ensures HuffmanCost(m) == x + y + HuffmanCost(MergeQueues(a, b + [x + y]))
  {
    MergeQueuesAppend(a, b, x + y);
    assert m[2..] == MergeQueues(a, b);
  }

  // Every item left outweighs the Fibonacci number of the height of every node made so far.
  ghost predicate Heavy(a: seq<nat>, b: seq<nat>, bh: seq<nat>, top: nat) {
    && |bh| == |b|
    && AtLeast(a, 1) && AtLeast(a, Fib(top + 1)) && AtLeast(b, Fib(top + 1))
    && AtMost(bh, top)
    && (forall k :: 0 <= k < |b| ==> b[k] >= Fib(bh[k] + 2))
  }

  // The height of the item picked next: 0 for a symbol.
  function PickedHeight(a: seq<nat>, b: seq<nat>, bh: seq<nat>): nat
    requires a != [] || b != []
    requires |bh| == |b|
  {
    if PicksSymbol(a, b) then 0 else bh[0]
  }

  lemma HeavyRest(a: seq<nat>, b: seq<nat>, bh: seq<nat>, top: nat)
    requires Heavy(a, b, bh, top) && (a != [] || b != [])
    ensures Heavy(RestA(a, b), RestB(a, b, b), RestB(a, b, bh), top)
    ensures var x, g := Picked(a, b), PickedHeight(a, b, bh);
            x >= 1 && x >= Fib(g + 2) && x >= Fib(top + 1) && g <= top
  {
    FibMono(top + 1, top + 1);
  }

  lemma HeavyAppend(a: seq<nat>, b: seq<nat>, bh: seq<nat>, top: nat, x: nat, y: nat, g: nat, g': nat)
    requires Heavy(a, b, bh, top) && AtLeast(a, y) && AtLeast(b, y)
    requires 1 <= x <= y && g <= top && g' <= top
    requires x >= Fib(g + 2) && y >= Fib(g' + 2) && x >= Fib(top + 1)
    ensures var h := 1 + Higher(g, g');
            x + y >= Fib(h + 2) && Heavy(a, b + [x + y], bh + [h], Higher(top, h))
  {
    HeavyForHeight(x, y, g, g', top);
  }

  lemma HeavyForHeight(x: nat, y: nat, g: nat, g': nat, top: nat)
    requires 1 <= x <= y && g <= top && g' <= top
    requires x >= Fib(g + 2) && y >= Fib(g' + 2)
    requires x >= Fib(top + 1)
    ensures x + y >= Fib(Higher(g, g') + 3)
    ensures y >= Fib(Higher(g, g') + 2)
  {
    var h := Higher(g, g');
    assert Fib(h + 3) == Fib(h + 2) + Fib(h + 1);
    FibMono(h + 1, top + 1);
  }

  // ---------- The height of the tree ----------

  // How high the two queues grow their tree: a holds the symbols, b the nodes, of heights bh.
  function QueueHeight(a: seq<nat>, b: seq<nat>, bh: seq<nat>): nat
    requires |bh| == |b|
    decreases |a| + |b|
  {
    if |a| + |b| < 2 then (if bh == [] then 0 else bh[0])
    else
      var a1, b1, h1 := RestA(a, b), RestB(a, b, b), RestB(a, b, bh);
      QueueHeight(RestA(a1, b1), RestB(a1, b1, b1) + [Picked(a, b) + Picked(a1, b1)],
                  RestB(a1, b1, h1) + [1 + Higher(PickedHeight(a, b, bh), PickedHeight(a1, b1, h1))])
  }

  // The depth of the rarest symbol's code, computed from the ascending weights alone.
  function TreeHeight(w: seq<nat>): nat {
    QueueHeight(w, [], [])
  }

  // ---------- createTree ----------

  // The loop makes one node more than the symbols need: the last node is a placeholder above
  // the root, which later gives the root's children the length 1.
  function Iterations(n: nat): nat { if n < 3 then n + 1 else n }

  // The head of the symbol queue; past the live heap the hardware reads an arbitrary value.
  function FreqAt(heap: seq<Symbol>, k: nat, junk: nat): nat {
    if k < |heap| then heap[k].frequency else junk
  }

  // How the arrays hold the trace.
  ghost predicate Recorded(t: Trace, parent: seq<nat>, frequency: seq<nat>, left: set<nat>, right: set<nat>) {
    && |t.freq| == |t.lft| == |t.rgt|
    && |t.par| <= |parent| && |t.freq| <= |frequency|
    && (forall j :: 0 <= j < |t.par| ==> parent[j] == t.par[j])
    && (forall j :: 0 <= j < |t.freq| ==> frequency[j] == t.freq[j])
    && (forall j :: 0 <= j < |t.freq| ==> (j in left <==> t.lft[j]) && (j in right <==> t.rgt[j]))
  }

  // The state of the greedy merge after making |t.freq| nodes.
  ghost predicate OnTrack(w: seq<nat>, t: Trace, last: nat, top: nat) {
    var m := |t.freq|;
    && Built(m, w, t) && t.tc[m] <= m
    && Ordered(Sum(w), QueueA(w, t), QueueB(t.freq, t), last)
    && Heavy(QueueA(w, t), QueueB(t.freq, t), QueueB(t.ht, t), top)
    && HuffmanCost(w) == Sum(t.freq) + HuffmanCost(MergeQueues(QueueA(w, t), QueueB(t.freq, t)))
    && TreeHeight(w) == QueueHeight(QueueA(w, t), QueueB(t.freq, t), QueueB(t.ht, t))
  }

  ghost predicate Shape(w: seq<nat>, t: Trace) {
    var m := |t.freq|;
    && |t.inC| == |t.tc| == m + 1 && |t.ht| == |t.lft| == |t.rgt| == m && |t.par| == t.tc[m]
    && t.inC[m] + t.tc[m] == 2 * m && t.inC[m] <= |w| && t.tc[m] <= m
  }

  lemma OnTrackShape(w: seq<nat>, t: Trace, last: nat, top: nat)
    requires OnTrack(w, t, last, top)
    ensures Shape(w, t)
  {
  }

  lemma OnTrackInitially(w: seq<nat>)
    requires Ascending(w) && AtLeast(w, 1)
    ensures OnTrack(w, Trace([0], [0], [], [], [], [], []), 0, 0)
  {
    hide Ordered, Heavy, HuffmanCost, Ascending, QueueHeight;
    var t := Trace([0], [0], [], [], [], [], []);
    assert QueueA(w, t) == w;
    OrderedInitially(w);
    MergeQueuesNil(w);
  }

  lemma OrderedInitially(w: seq<nat>)
    requires Ascending(w) && AtLeast(w, 1)
    ensures Ordered(Sum(w), w, [], 0) && Heavy(w, [], [], 0)
  {
    hide Ascending, Sum;
    assert Fib(1) == 1;
    EmptyQueue();
  }

  lemma EmptyQueue()
    ensures Ascending([]) && Sum([]) == 0
  {
  }

  lemma {:induction false} MergeQueuesNil(a: seq<nat>)
    ensures MergeQueues(a, []) == a
  {
    if a != [] { MergeQueuesNil(a[1..]); }
  }

  // What is left of the queues after one pick.
  ghost predicate Pick(a: seq<nat>, b: seq<nat>, bh: seq<nat>, node: bool, x: nat, g: nat,
                       a1: seq<nat>, b1: seq<nat>, h1: seq<nat>)
  {
    && |bh| == |b| && (a != [] || b != []) && node == !PicksSymbol(a, b)
    && (if node then x == b[0] && g == bh[0] && a1 == a && b1 == b[1..] && h1 == bh[1..]
        else x == a[0] && g == 0 && a1 == a[1..] && b1 == b && h1 == bh)
  }

  lemma SecondPickHeavy(total: nat, a: seq<nat>, b: seq<nat>, bh: seq<nat>, last: nat, top: nat, x: nat, g: nat,
                        r: bool, y: nat, g': nat, a2: seq<nat>, b2: seq<nat>, h2: seq<nat>)
    requires OrderedInHand(total, a, b, last, x) && Heavy(a, b, bh, top)
    requires x >= 1 && x >= Fib(g + 2) && x >= Fib(top + 1) && g <= top
    requires Pick(a, b, bh, r, y, g', a2, b2, h2)
    ensures var h := 1 + Higher(g, g');
            x + y >= Fib(h + 2) && Heavy(a2, b2 + [x + y], h2 + [h], Higher(top, h))
  {
    PickIsLeast(a, b);
    HeavyRest(a, b, bh, top);
    HeavyAppend(a2, b2, h2, top, x, y, g, g');
  }

  lemma SecondPickCost(total: nat, a: seq<nat>, b: seq<nat>, bh: seq<nat>, last: nat, x: nat,
                       r: bool, y: nat, g': nat, a2: seq<nat>, b2: seq<nat>, h2: seq<nat>)
    requires OrderedInHand(total, a, b, last, x)
    requires Pick(a, b, bh, r, y, g', a2, b2, h2)
    ensures HuffmanCost([x] + MergeQueues(a, b)) == x + y + HuffmanCost(MergeQueues(a2, b2 + [x + y]))
  {
    PickIsLeast(a, b);
    assert AtMost(b2, x + y);
    CostOfMerge(a2, b2, x, y, [x] + MergeQueues(a, b));
  }

  lemma OnePick(total: nat, a: seq<nat>, b: seq<nat>, bh: seq<nat>, last: nat, top: nat,
                l: bool, x: nat, g: nat, a1: seq<nat>, b1: seq<nat>, h1: seq<nat>)
    requires Ordered(total, a, b, last) && Heavy(a, b, bh, top) && Pick(a, b, bh, l, x, g, a1, b1, h1)
    ensures OrderedInHand(total, a1, b1, last, x) && Heavy(a1, b1, h1, top)
    ensures x >= 1 && x >= Fib(g + 2) && x >= Fib(top + 1) && g <= top
    ensures MergeQueues(a, b) == [x] + MergeQueues(a1, b1)
  {
    OrderedFirst(total, a, b, last);
    HeavyRest(a, b, bh, top);
    PickIsLeast(a, b);
  }

  lemma HeightOfPicks(a: seq<nat>, b: seq<nat>, bh: seq<nat>,
                      l: bool, x: nat, g: nat, a1: seq<nat>, b1: seq<nat>, h1: seq<nat>,
                      r: bool, y: nat, g': nat, a2: seq<nat>, b2: seq<nat>, h2: seq<nat>)
    requires Pick(a, b, bh, l, x, g, a1, b1, h1) && Pick(a1, b1, h1, r, y, g', a2, b2, h2)
    ensures |h2| == |b2| && QueueHeight(a, b, bh) == QueueHeight(a2, b2 + [x + y], h2 + [1 + Higher(g, g')])
  {
  }

  // Whatever the queues hold, a tree of height h weighs at least Fib(h + 2).
  lemma {:induction false} QueueHeightWeight(total: nat, a: seq<nat>, b: seq<nat>, bh: seq<nat>, last: nat, top: nat)
    requires Ordered(total, a, b, last) && Heavy(a, b, bh, top) && (a != [] || b != [])
    ensures Fib(QueueHeight(a, b, bh) + 2) <= total
    decreases |a| + |b|
  {
    hide *;
    HeavySizes(a, b, bh, top);
    if |a| + |b| < 2 {
      OneLeft(total, a, b, bh, last, top);
    } else {
      var l, x, g, a1, b1, h1 := PickFrom(a, b, bh);
      var r, y, g', a2, b2, h2 := PickFrom(a1, b1, h1);
      OnePick(total, a, b, bh, last, top, l, x, g, a1, b1, h1);
      SecondPickHeavy(total, a1, b1, h1, last, top, x, g, r, y, g', a2, b2, h2);
      SecondPickOrdered(total, a1, b1, h1, last, x, r, y, g', a2, b2, h2);
      HeightOfPicks(a, b, bh, l, x, g, a1, b1, h1, r, y, g', a2, b2, h2);
      QueueHeightWeight(total, a2, b2 + [x + y], h2 + [1 + Higher(g, g')], x + y, Higher(top, 1 + Higher(g, g')));
    }
  }

  lemma HeavySizes(a: seq<nat>, b: seq<nat>, bh: seq<nat>, top: nat)
    requires Heavy(a, b, bh, top)
    ensures |bh| == |b|
  {
  }

  lemma OneLeft(total: nat, a: seq<nat>, b: seq<nat>, bh: seq<nat>, last: nat, top: nat)
    requires Ordered(total, a, b, last) && Heavy(a, b, bh, top) && |a| + |b| == 1
    ensures Fib(QueueHeight(a, b, bh) + 2) <= total
  {
    if a == [] {
      assert b[1..] == [];
    } else {
      assert a[1..] == [] && Fib(2) == 1;
    }
  }

  lemma PickFrom(a: seq<nat>, b: seq<nat>, bh: seq<nat>)
    returns (node: bool, x: nat, g: nat, a1: seq<nat>, b1: seq<nat>, h1: seq<nat>)
    requires |bh| == |b| && (a != [] || b != [])
    ensures Pick(a, b, bh, node, x, g, a1, b1, h1) && |a1| + |b1| == |a| + |b| - 1 && |h1| == |b1|
  {
    node, x, g := !PicksSymbol(a, b), Picked(a, b), PickedHeight(a, b, bh);
    a1, b1, h1 := RestA(a, b), RestB(a, b, b), RestB(a, b, bh);
  }

  lemma SecondPickOrdered(total: nat, a: seq<nat>, b: seq<nat>, bh: seq<nat>, last: nat, x: nat,
                          r: bool, y: nat, g': nat, a2: seq<nat>, b2: seq<nat>, h2: seq<nat>)
    requires OrderedInHand(total, a, b, last, x) && Pick(a, b, bh, r, y, g', a2, b2, h2)
    ensures Ordered(total, a2, b2 + [x + y], x + y) && x + y <= total
  {
    hide Ordered, OrderedInHand;
    OrderedSecond(total, a, b, last, x);
  }

  // The higher the tree, the more its symbols must occur.
  lemma HeightNeedsWeight(w: seq<nat>)
    requires Ascending(w) && AtLeast(w, 1) && w != []
    ensures Fib(TreeHeight(w) + 2) <= Sum(w)
  {
    OrderedInitially(w);
    QueueHeightWeight(Sum(w), w, [], [], 0, 0);
  }

  // The three queues of the trace: the symbols left, the nodes left, and their heights.
  function QueueA(w: seq<nat>, t: Trace): seq<nat>
    requires t.inC != [] && t.inC[|t.inC| - 1] <= |w|
  {
    w[t.inC[|t.inC| - 1]..]
  }

  function QueueB(s: seq<nat>, t: Trace): seq<nat>
    requires t.tc != [] && t.tc[|t.tc| - 1] <= |s|
  {
    s[t.tc[|t.tc| - 1]..]
  }

  // Picking from the queues moves the trace's counters, and the node made joins the queue.
  lemma PicksFit(w: seq<nat>, t: Trace, m: nat, l: bool, x: nat, g: nat, a1: seq<nat>, b1: seq<nat>, h1: seq<nat>,
                 r: bool, y: nat, g': nat, a2: seq<nat>, b2: seq<nat>, h2: seq<nat>, h: nat)
    requires Built(m, w, t) && t.tc[m] <= m
    requires Pick(QueueA(w, t), QueueB(t.freq, t), QueueB(t.ht, t), l, x, g, a1, b1, h1)
    requires Pick(a1, b1, h1, r, y, g', a2, b2, h2)
    requires h == 1 + Higher(g, g') && x + y >= Fib(h + 2)
    ensures Fits(m, w, t, l, r, x + y, h)
  {
    hide Fib, Stage;
    var n := t.tc[m];
    assert l ==> g == t.ht[n];
    assert r ==> n + One(l) < m && g' == t.ht[n + One(l)];
  }

  lemma QueuesAfter(w: seq<nat>, t: Trace, m: nat, l: bool, x: nat, g: nat, a1: seq<nat>, b1: seq<nat>, h1: seq<nat>,
                    r: bool, y: nat, g': nat, a2: seq<nat>, b2: seq<nat>, h2: seq<nat>, h: nat)
    requires Built(m, w, t) && t.tc[m] <= m
    requires Pick(QueueA(w, t), QueueB(t.freq, t), QueueB(t.ht, t), l, x, g, a1, b1, h1)
    requires Pick(a1, b1, h1, r, y, g', a2, b2, h2)
    requires Fits(m, w, t, l, r, x + y, h)
    ensures var t' := Extended(t, l, r, x + y, h);
            && t'.inC[m + 1] <= |w| && t'.tc[m + 1] <= m + 1
            && QueueA(w, t') == a2 && QueueB(t'.freq, t') == b2 + [x + y] && QueueB(t'.ht, t') == h2 + [h]
  {
    hide Fib, Stage;
  }

  lemma OnTrackOpens(w: seq<nat>, t: Trace, last: nat, top: nat)
    requires OnTrack(w, t, last, top)
    ensures Shape(w, t) && Built(|t.freq|, w, t)
    ensures Ordered(Sum(w), QueueA(w, t), QueueB(t.freq, t), last)
    ensures Heavy(QueueA(w, t), QueueB(t.freq, t), QueueB(t.ht, t), top)
    ensures |QueueB(t.ht, t)| == |QueueB(t.freq, t)|
    ensures HuffmanCost(w) == Sum(t.freq) + HuffmanCost(MergeQueues(QueueA(w, t), QueueB(t.freq, t)))
    ensures TreeHeight(w) == QueueHeight(QueueA(w, t), QueueB(t.freq, t), QueueB(t.ht, t))
  {
    hide Stage, Ordered, HuffmanCost, MergeQueues, Sum, QueueHeight, TreeHeight, Fib;
  }

  lemma OnTrackCloses(w: seq<nat>, t: Trace, last: nat, top: nat, a: seq<nat>, b: seq<nat>, bh: seq<nat>)
    requires Shape(w, t) && Built(|t.freq|, w, t)
    requires a == QueueA(w, t) && b == QueueB(t.freq, t) && bh == QueueB(t.ht, t) && |b| == |bh|
    requires Ordered(Sum(w), a, b, last) && Heavy(a, b, bh, top)
    requires HuffmanCost(w) == Sum(t.freq) + HuffmanCost(MergeQueues(a, b))
    requires TreeHeight(w) == QueueHeight(a, b, bh)
    ensures OnTrack(w, t, last, top)
  {
    hide Stage, Ordered, Heavy, HuffmanCost, MergeQueues, Sum, QueueHeight, TreeHeight;
  }

  lemma ExtendedFits(w: seq<nat>, t: Trace, l: bool, r: bool, s: nat, h: nat)
    requires Shape(w, t) && Built(|t.freq|, w, t) && Fits(|t.freq|, w, t, l, r, s, h)
    ensures var t' := Extended(t, l, r, s, h);
            Shape(w, t') && Built(|t'.freq|, w, t') && |t'.freq| == |t.freq| + 1 && Sum(t'.freq) == Sum(t.freq) + s
  {
    hide Stage, Sum;
    BuiltExtend(|t.freq|, w, t, l, r, s, h);
    SumAppend(t.freq, s);
  }

  lemma OnTrackStep(w: seq<nat>, t: Trace, last: nat, top: nat,
                    l: bool, x: nat, g: nat, a1: seq<nat>, b1: seq<nat>, h1: seq<nat>,
                    r: bool, y: nat, g': nat, a2: seq<nat>, b2: seq<nat>, h2: seq<nat>)
    requires Shape(w, t) && OnTrack(w, t, last, top)
    requires Pick(QueueA(w, t), QueueB(t.freq, t), QueueB(t.ht, t), l, x, g, a1, b1, h1)
    requires Pick(a1, b1, h1, r, y, g', a2, b2, h2)
    ensures Built(|t.freq|, w, t)
    ensures var h := 1 + Higher(g, g');
            && Fits(|t.freq|, w, t, l, r, x + y, h)
            && OnTrack(w, Extended(t, l, r, x + y, h), x + y, Higher(top, h))
            && x + y <= Sum(w)
  {
    hide *;
    OnTrackOpens(w, t, last, top);
    ShapeSizes(w, t);
    var m, h: nat := |t.freq|, 1 + Higher(g, g');
    var a, b, bh := QueueA(w, t), QueueB(t.freq, t), QueueB(t.ht, t);
    OnePick(Sum(w), a, b, bh, last, top, l, x, g, a1, b1, h1);
    SecondPickHeavy(Sum(w), a1, b1, h1, last, top, x, g, r, y, g', a2, b2, h2);
    SecondPickCost(Sum(w), a1, b1, h1, last, x, r, y, g', a2, b2, h2);
    SecondPickOrdered(Sum(w), a1, b1, h1, last, x, r, y, g', a2, b2, h2);
    PicksFit(w, t, m, l, x, g, a1, b1, h1, r, y, g', a2, b2, h2, h);
    QueuesAfter(w, t, m, l, x, g, a1, b1, h1, r, y, g', a2, b2, h2, h);
    ExtendedFits(w, t, l, r, x + y, h);
    HeightOfPicks(a, b, bh, l, x, g, a1, b1, h1, r, y, g', a2, b2, h2);
    OnTrackCloses(w, Extended(t, l, r, x + y, h), x + y, Higher(top, h), a2, b2 + [x + y], h2 + [h]);
  }

  lemma ShapeSizes(w: seq<nat>, t: Trace)
    requires Shape(w, t)
    ensures |t.inC| == |t.tc| == |t.freq| + 1 && |t.ht| == |t.freq| && t.tc[|t.freq|] <= |t.freq| && t.inC[|t.freq|] <= |w|
  {
  }

  // Whether the next child is a node when `inC` symbols and `tc` of the m nodes are taken.
  predicate TakesNode(w: seq<nat>, freq: seq<nat>, inC: nat, tc: nat)
    requires tc <= |freq|
  {
    !(inC < |w| && (tc == |freq| || w[inC] <= freq[tc]))
  }

  function ChildWeight(w: seq<nat>, freq: seq<nat>, inC: nat, tc: nat, node: bool): nat
    requires if node then tc < |freq| else inC < |w|
  {
    if node then freq[tc] else w[inC]
  }

  lemma PickOf(w: seq<nat>, freq: seq<nat>, ht: seq<nat>, inC: nat, tc: nat)
    returns (g: nat, a1: seq<nat>, b1: seq<nat>, h1: seq<nat>)
    requires inC <= |w| && tc <= |freq| == |ht| && (inC < |w| || tc < |freq|)
    ensures var l := TakesNode(w, freq, inC, tc);
            && (if l then tc < |freq| else inC < |w|)
            && Pick(w[inC..], freq[tc..], ht[tc..], l, ChildWeight(w, freq, inC, tc, l), g, a1, b1, h1)
            && a1 == w[inC + 1 - One(l)..] && b1 == freq[tc + One(l)..] && h1 == ht[tc + One(l)..]
  {
    var l := TakesNode(w, freq, inC, tc);
    g := if l then ht[tc] else 0;
    a1, b1, h1 := w[inC + 1 - One(l)..], freq[tc + One(l)..], ht[tc + One(l)..];
  }

  lemma RealStage(w: seq<nat>, t: Trace, last: nat, top: nat) returns (h: nat, top': nat)
    requires OnTrack(w, t, last, top) && |t.freq| + 1 < |w|
    ensures var m := |t.freq|;
            var n, s := t.tc[m], t.inC[m];
            var l := TakesNode(w, t.freq, s, n);
            && (if l then n < m else s < |w|)
            && var r := TakesNode(w, t.freq, s + 1 - One(l), n + One(l));
            && (if r then n + One(l) < m else s + 1 - One(l) < |w|)
            && var v := ChildWeight(w, t.freq, s, n, l) + ChildWeight(w, t.freq, s + 1 - One(l), n + One(l), r);
            && v <= Sum(w)
            && OnTrack(w, Extended(t, l, r, v, h), v, top')
  {
    hide OnTrack, Built, Fits, Sum, Pick, Extended, Higher;
    OnTrackShape(w, t, last, top);
    var m := |t.freq|;
    var n, s := t.tc[m], t.inC[m];
    var l := TakesNode(w, t.freq, s, n);
    var g, a1, b1, h1 := PickOf(w, t.freq, t.ht, s, n);
    var r := TakesNode(w, t.freq, s + 1 - One(l), n + One(l));
    var g', a2, b2, h2 := PickOf(w, t.freq, t.ht, s + 1 - One(l), n + One(l));
    var x, y := ChildWeight(w, t.freq, s, n, l), ChildWeight(w, t.freq, s + 1 - One(l), n + One(l), r);
    OnTrackStep(w, t, last, top, l, x, g, a1, b1, h1, r, y, g', a2, b2, h2);
    h, top' := 1 + Higher(g, g'), Higher(top, 1 + Higher(g, g'));
  }

  // What the builder hands over for n >= 2 symbols of weights w.
  ghost predicate TreeBuilt(w: seq<nat>, t: Trace, parent: seq<nat>, left: set<nat>, right: set<nat>) {
    var n := |w|;
    && n >= 2 && Built(n - 1, w, t)
    && t.inC[n - 1] == n && t.tc[n - 1] == n - 2
    && Sum(t.freq) == HuffmanCost(w) && t.freq[n - 2] == Sum(w) && t.ht[n - 2] == TreeHeight(w)
    && |parent| >= n - 1 && parent[n - 2] == n - 1
    && (forall j :: 0 <= j < n - 2 ==> parent[j] == t.par[j])
    && (forall j :: 0 <= j < n - 1 ==> (j in left <==> t.lft[j]) && (j in right <==> t.rgt[j]))
  }

  // The merge is complete: one node is left, and it carries all the weight.
  lemma TraceComplete(w: seq<nat>, t: Trace, last: nat, top: nat)
    requires OnTrack(w, t, last, top) && |t.freq| + 1 == |w| >= 2
    ensures var n := |w|;
            && t.inC[n - 1] == n && t.tc[n - 1] == n - 2
            && Sum(t.freq) == HuffmanCost(w) && t.freq[n - 2] == Sum(w) && t.ht[n - 2] == TreeHeight(w)
  {
    var n := |w|;
    assert Stage(n - 2, w, t);
    var a, b := QueueA(w, t), QueueB(t.freq, t);
    assert |a| + |b| == 1;
    assert b == [t.freq[n - 2]] && a == [];
    assert b[1..] == [];
    assert |MergeQueues(a, b)| == 1;
  }

  // The choice the loop makes between the next symbol and the next node.
  predicate ChoosesNode(heap: seq<Symbol>, m: nat, i: nat, freq: seq<nat>, inCount: nat, treeCount: nat, junk: nat)
    requires treeCount < |freq|
  {
    !((inCount < m && FreqAt(heap, inCount, junk) <= freq[treeCount]) || treeCount == i)
  }

  function Chosen(heap: seq<Symbol>, freq: seq<nat>, inCount: nat, treeCount: nat, junk: nat, node: bool): nat
    requires treeCount < |freq|
  {
    if node then freq[treeCount] else FreqAt(heap, inCount, junk)
  }

  // One iteration of createTree: node i gets two children and its frequency.
  method MakeNode(heap: seq<Symbol>, m: nat, i: nat, inC: nat, tc: nat, left: set<nat>, right: set<nat>,
                  parent: array<nat>, frequency: array<nat>, width: nat, junk: nat)
    returns (inCount: nat, treeCount: nat, left': set<nat>, right': set<nat>, ghost l: bool, ghost r: bool)
    requires tc <= i < frequency.Length && i < parent.Length && parent != frequency
    modifies parent, frequency
    ensures l == ChoosesNode(heap, m, i, old(frequency[..]), inC, tc, junk)
    ensures tc + One(l) <= i && r == ChoosesNode(heap, m, i, old(frequency[..]), inC + 1 - One(l), tc + One(l), junk)
    ensures treeCount == tc + One(l) + One(r) <= i && inCount == inC + 2 - One(l) - One(r)
    ensures left' == (if l then left + {i} else left) && right' == (if r then right + {i} else right)
    ensures frequency[..] == old(frequency[..])[i := (Chosen(heap, old(frequency[..]), inC, tc, junk, l)
                             + Chosen(heap, old(frequency[..]), inC + 1 - One(l), tc + One(l), junk, r)) % Pow2(width)]
    ensures forall j :: 0 <= j < parent.Length ==> parent[j] == if tc <= j < treeCount then i else old(parent[j])
  {
    inCount, treeCount, left', right' := inC, tc, left, right;
    var nodeFreq: nat;
    var intermediateFreq := frequency[treeCount];
    var symFreq := FreqAt(heap, inCount, junk);
    l := !((inCount < m && symFreq <= intermediateFreq) || treeCount == i);
    if (inCount < m && symFreq <= intermediateFreq) || treeCount == i {
      nodeFreq := symFreq;
      inCount := inCount + 1;
    } else {
      left' := left' + {i};
      nodeFreq := intermediateFreq;
      parent[treeCount] := i;
      treeCount := treeCount + 1;
    }

    intermediateFreq := frequency[treeCount];
    symFreq := FreqAt(heap, inCount, junk);
    r := !((inCount < m && symFreq <= intermediateFreq) || treeCount == i);
    if (inCount < m && symFreq <= intermediateFreq) || treeCount == i {
      frequency[i] := (nodeFreq + symFreq) % Pow2(width);
      inCount := inCount + 1;
    } else {
      right' := right' + {i};
      frequency[i] := (nodeFreq + intermediateFreq) % Pow2(width);
      parent[treeCount] := i;
      treeCount := treeCount + 1;
    }
  }

  // While symbols and nodes are left to merge, the loop's choices are the greedy ones.
  lemma ChoicesAgree(heap: seq<Symbol>, n: nat, m: nat, w: seq<nat>, t: Trace, freq: seq<nat>, tc: nat, inC: nat, junk: nat)
    requires n <= |heap| && w == Weights(heap[..n]) && m == (if n < 3 then n + 1 else n)
    requires Shape(w, t) && |t.freq| + 1 < n && |t.freq| < |freq|
    requires forall j :: 0 <= j < |t.freq| ==> freq[j] == t.freq[j]
    requires tc <= |t.freq| && (inC + tc == 2 * |t.freq| || inC + tc == 2 * |t.freq| + 1)
    requires inC >= |t.freq|
    ensures ChoosesNode(heap, m, |t.freq|, freq, inC, tc, junk) == TakesNode(w, t.freq, inC, tc)
    ensures var node := TakesNode(w, t.freq, inC, tc);
            && (if node then tc < |t.freq| else inC < n)
            && Chosen(heap, freq, inC, tc, junk, node) == ChildWeight(w, t.freq, inC, tc, node)
  {
  }

  // After a greedy iteration the arrays hold the extended trace.
  lemma RecordedStep(w: seq<nat>, t: Trace, l: bool, r: bool, s: nat, h: nat,
                     parent: seq<nat>, parent': seq<nat>, frequency: seq<nat>,
                     left: set<nat>, left': set<nat>, right: set<nat>, right': set<nat>)
    requires Shape(w, t) && Recorded(t, parent, frequency, left, right)
    requires |t.freq| < |frequency| && |parent'| == |parent| > |t.freq| && t.tc[|t.freq|] + One(l) + One(r) <= |t.freq|
    requires left' == (if l then left + {|t.freq|} else left) && right' == (if r then right + {|t.freq|} else right)
    requires forall j :: 0 <= j < |parent| ==>
               parent'[j] == if |t.par| <= j < |t.par| + One(l) + One(r) then |t.freq| else parent[j]
    requires |t.freq| !in left && |t.freq| !in right
    ensures Recorded(Extended(t, l, r, s, h), parent', frequency[|t.freq| := s], left', right')
  {
  }

  // The arrays, counters and bit sets the loop of createTree works on.
  datatype Loop = Loop(inC: nat, tc: nat, left: set<nat>, right: set<nat>, parent: seq<nat>, freq: seq<nat>)

  // What one iteration does to them.
  ghost predicate Iteration(heap: seq<Symbol>, m: nat, i: nat, c: Loop, c': Loop, width: nat, junk: nat, l: bool, r: bool)
    requires c.tc <= i < |c.freq|
  {
    && l == ChoosesNode(heap, m, i, c.freq, c.inC, c.tc, junk)
    && c.tc + One(l) <= i
    && r == ChoosesNode(heap, m, i, c.freq, c.inC + 1 - One(l), c.tc + One(l), junk)
    && c'.tc == c.tc + One(l) + One(r) <= i && c'.inC == c.inC + 2 - One(l) - One(r)
    && c'.left == (if l then c.left + {i} else c.left) && c'.right == (if r then c.right + {i} else c.right)
    && c'.freq == c.freq[i := (Chosen(heap, c.freq, c.inC, c.tc, junk, l)
                               + Chosen(heap, c.freq, c.inC + 1 - One(l), c.tc + One(l), junk, r)) % Pow2(width)]
    && |c'.parent| == |c.parent|
    && (forall j :: 0 <= j < |c.parent| ==> c'.parent[j] == if c.tc <= j < c'.tc then i else c.parent[j])
  }

  ghost predicate Frame(n: nat, i: nat, c: Loop) {
    && c.tc <= i && |c.parent| >= Iterations(n) && |c.freq| >= Iterations(n)
    && forall j :: j in c.left || j in c.right ==> j < i
  }

  // While the n symbols are being merged: the arrays hold the trace of a greedy merge.
  ghost predicate Merging(n: nat, i: nat, w: seq<nat>, c: Loop, t: Trace, last: nat, top: nat) {
    && Frame(n, i, c) && |w| == n && |t.freq| == i < n
    && Shape(w, t) && OnTrack(w, t, last, top) && Recorded(t, c.parent, c.freq, c.left, c.right)
    && c.tc == t.tc[i] && c.inC == t.inC[i]
  }

  // The node made is the next one of the greedy merge.
  lemma MergedWeight(heap: seq<Symbol>, n: nat, i: nat, w: seq<nat>, c: Loop, c': Loop, t: Trace, last: nat, top: nat,
                     width: nat, junk: nat, l: bool, r: bool)
    returns (h: nat, top': nat)
    requires n <= |heap| && w == Weights(heap[..n]) && Sum(w) < Pow2(width)
    requires Merging(n, i, w, c, t, last, top) && i + 1 < n
    requires Iteration(heap, Iterations(n), i, c, c', width, junk, l, r)
    ensures t.inC != [] && t.tc != [] && OnTrack(w, Extended(t, l, r, c'.freq[i], h), c'.freq[i], top')
  {
    hide OnTrack, HuffmanCost, Sum, Built, Fits, Pow2, Weights, Extended;
    var m := Iterations(n);
    h, top' := RealStage(w, t, last, top);
    ChoicesAgree(heap, n, m, w, t, c.freq, c.tc, c.inC, junk);
    ChoicesAgree(heap, n, m, w, t, c.freq, c.tc + One(l), c.inC + 1 - One(l), junk);
    SmallMod(Chosen(heap, c.freq, c.inC, c.tc, junk, l)
             + Chosen(heap, c.freq, c.inC + 1 - One(l), c.tc + One(l), junk, r), Pow2(width));
  }

  lemma MergingStep(heap: seq<Symbol>, n: nat, i: nat, w: seq<nat>, c: Loop, c': Loop, t: Trace, last: nat, top: nat,
                    width: nat, junk: nat, l: bool, r: bool)
    returns (t': Trace, last': nat, top': nat)
    requires n <= |heap| && w == Weights(heap[..n]) && Sum(w) < Pow2(width)
    requires Merging(n, i, w, c, t, last, top) && i + 1 < n
    requires Iteration(heap, Iterations(n), i, c, c', width, junk, l, r)
    ensures Merging(n, i + 1, w, c', t', last', top')
  {
    hide OnTrack, HuffmanCost, Sum, Built, Fits, Pow2, Weights, ChoosesNode, Chosen;
    var h;
    h, top' := MergedWeight(heap, n, i, w, c, c', t, last, top, width, junk, l, r);
    last' := c'.freq[i];
    RecordedStep(w, t, l, r, last', h, c.parent, c'.parent, c.freq, c.left, c'.left, c.right, c'.right);
    t' := Extended(t, l, r, last', h);
    OnTrackShape(w, t', last', top');
  }

  lemma SmallMod(x: nat, d: nat)
    requires x < d
    ensures x % d == x
  {
  }

  // Once every symbol is merged, the placeholder node becomes the root's parent.
  ghost predicate Placed(n: nat, i: nat, w: seq<nat>, c: Loop, t: Trace) {
    && Frame(n, i, c) && |w| == n && i >= n && c.tc >= n - 1 && c.inC >= n
    && TreeBuilt(w, t, c.parent, c.left, c.right)
  }

  lemma PlacedFirst(heap: seq<Symbol>, n: nat, w: seq<nat>, c: Loop, c': Loop, t: Trace, last: nat, top: nat,
                    width: nat, junk: nat, l: bool, r: bool)
    requires n >= 2 && Merging(n, n - 1, w, c, t, last, top)
    requires Iteration(heap, Iterations(n), n - 1, c, c', width, junk, l, r)
    ensures Placed(n, n, w, c', t)
  {
    hide Ordered, Heavy, HuffmanCost, Sum, Stage, Pow2;
    TraceComplete(w, t, last, top);
  }

  lemma PlacedNext(heap: seq<Symbol>, n: nat, i: nat, w: seq<nat>, c: Loop, c': Loop, t: Trace,
                   width: nat, junk: nat, l: bool, r: bool)
    requires n >= 2 && Placed(n, i, w, c, t) && i < Iterations(n)
    requires Iteration(heap, Iterations(n), i, c, c', width, junk, l, r)
    ensures Placed(n, i + 1, w, c', t)
  {
    hide HuffmanCost, Sum, Built, Pow2;
  }

  // With a single symbol, node 0 has two symbol children (the second one phantom) and node 1 is
  // the placeholder above it.
  ghost predicate Single(i: nat, c: Loop) {
    && Frame(1, i, c) && 0 !in c.left && 0 !in c.right
    && (i == 0 ==> c.inC == 0 == c.tc)
    && (i == 1 ==> c.inC == 2 && c.tc == 0)
    && (i == 2 ==> c.parent[0] == 1)
  }

  lemma SingleStep(heap: seq<Symbol>, i: nat, c: Loop, c': Loop, width: nat, junk: nat, l: bool, r: bool)
    requires Single(i, c) && i < 2 && Iteration(heap, 2, i, c, c', width, junk, l, r)
    ensures Single(i + 1, c')
  {
    hide Pow2;
  }

  method CreateTree(heap: seq<Symbol>, n: nat, parent: array<nat>, frequency: array<nat>, width: nat, junk: nat)
    returns (left: set<nat>, right: set<nat>, ghost t: Trace)
    requires n <= |heap| && Iterations(n) <= parent.Length && Iterations(n) <= frequency.Length
    requires parent != frequency
    requires Ascending(Weights(heap[..n])) && AtLeast(Weights(heap[..n]), 1)
    requires Sum(Weights(heap[..n])) < Pow2(width)
    modifies parent, frequency
    ensures n == 1 ==> parent[0] == 1 && 0 !in left && 0 !in right
    ensures n >= 2 ==> TreeBuilt(Weights(heap[..n]), t, parent[..], left, right)
  {
    hide Ascending, AtLeast, Sum, Pow2, Weights, Iteration, Merging, Placed, Single, TreeBuilt;
    var m := n;
    if m < 3 { m := m + 1; }
    ghost var w := Weights(heap[..n]);
    ghost var last, top := 0, 0;
    var treeCount: nat, inCount: nat := 0, 0;
    left, right := {}, {};
    t := Trace([0], [0], [], [], [], [], []);
    ghost var c := Loop(0, 0, {}, {}, parent[..], frequency[..]);
    LoopInitially(n, w, c);
    var i := 0;
    while i < m
      invariant 0 <= i <= m && treeCount <= i
      invariant c == Loop(inCount, treeCount, left, right, parent[..], frequency[..])
      invariant n == 1 ==> Single(i, c)
      invariant n >= 2 && i < n ==> Merging(n, i, w, c, t, last, top)
      invariant n >= 2 && i >= n ==> Placed(n, i, w, c, t)
    {
      ghost var c0 := c;
      ghost var l, r;
      inCount, treeCount, left, right, l, r :=
        MakeNode(heap, m, i, inCount, treeCount, left, right, parent, frequency, width, junk);
      c := Loop(inCount, treeCount, left, right, parent[..], frequency[..]);
      IterationHolds(heap, m, i, c0, c, width, junk, l, r);
      if n == 1 {
        SingleStep(heap, i, c0, c, width, junk, l, r);
      } else if i + 1 < n {
        t, last, top := MergingStep(heap, n, i, w, c0, c, t, last, top, width, junk, l, r);
      } else if n >= 2 && i + 1 == n {
        PlacedFirst(heap, n, w, c0, c, t, last, top, width, junk, l, r);
      } else if n >= 2 {
        PlacedNext(heap, n, i, w, c0, c, t, width, junk, l, r);
      }
      i := i + 1;
    }
    LoopDone(n, i, w, c, t);
  }

  lemma LoopInitially(n: nat, w: seq<nat>, c: Loop)
    requires Ascending(w) && AtLeast(w, 1) && |w| == n
    requires c.inC == c.tc == 0 && c.left == c.right == {} && |c.parent| >= Iterations(n) && |c.freq| >= Iterations(n)
    ensures n >= 1 ==> Merging(n, 0, w, c, Trace([0], [0], [], [], [], [], []), 0, 0)
    ensures n == 1 ==> Single(0, c)
  {
    OnTrackInitially(w);
  }

  lemma IterationHolds(heap: seq<Symbol>, m: nat, i: nat, c: Loop, c': Loop, width: nat, junk: nat, l: bool, r: bool)
    requires c.tc <= i < |c.freq|
    requires l == ChoosesNode(heap, m, i, c.freq, c.inC, c.tc, junk)
    requires c.tc + One(l) <= i && r == ChoosesNode(heap, m, i, c.freq, c.inC + 1 - One(l), c.tc + One(l), junk)
    requires c'.tc == c.tc + One(l) + One(r) <= i && c'.inC == c.inC + 2 - One(l) - One(r)
    requires c'.left == (if l then c.left + {i} else c.left) && c'.right == (if r then c.right + {i} else c.right)
    requires c'.freq == c.freq[i := (Chosen(heap, c.freq, c.inC, c.tc, junk, l)
                              + Chosen(heap, c.freq, c.inC + 1 - One(l), c.tc + One(l), junk, r)) % Pow2(width)]
    requires |c'.parent| == |c.parent|
    requires forall j :: 0 <= j < |c.parent| ==> c'.parent[j] == if c.tc <= j < c'.tc then i else c.parent[j]
    ensures Iteration(heap, m, i, c, c', width, junk, l, r)
  {
  }

  lemma LoopDone(n: nat, i: nat, w: seq<nat>, c: Loop, t: Trace)
    requires i == Iterations(n)
    requires n == 1 ==> Single(i, c)
    requires n >= 2 ==> Placed(n, i, w, c, t)
    ensures n == 1 ==> |c.parent| > 0 && c.parent[0] == 1 && 0 !in c.left && 0 !in c.right
    ensures n >= 2 ==> TreeBuilt(w, t, c.parent, c.left, c.right)
  {
  }
}
