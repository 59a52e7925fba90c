// Reading code lengths off the finished tree: computeBitLength walks the nodes from the root
// down, and computeBitLengthLL does the same with a stall cycle whenever the parent changes.

module HuffmanLengths {
  import opened Arithmetic
  import opened HuffmanTree

  // A finished trace: every node but the root has a parent.
  ghost predicate Finished(w: seq<nat>, t: Trace) {
    var m := |t.freq|;
    m >= 1 && Built(m, w, t) && t.tc[m] == m - 1 && t.inC[m] == |w| == m + 1
  }

  ghost predicate Sized(w: seq<nat>, t: Trace) {
    var m := |t.freq|;
    m >= 1 && |t.inC| == |t.tc| == m + 1 && |t.ht| == |t.lft| == |t.rgt| == m && |w| == m + 1
  }

  lemma FinishedSized(w: seq<nat>, t: Trace)
    requires Finished(w, t)
    ensures Sized(w, t)
  {
  }

  // Up to two children, all at depth x.
  function Repeat(k: nat, x: nat): (r: seq<nat>)
    requires k <= 2
    ensures |r| == k
  {
    if k == 0 then [] else if k == 1 then [x] else [x, x]
  }

  // The depths in the tree of the items that were waiting before node k was made: the nodes
  // tc[k] .. k - 1 and the symbols inC[k] onwards.
  datatype Depths = Depths(nodes: seq<nat>, syms: seq<nat>)

  ghost function Down(w: seq<nat>, t: Trace, k: nat): (d: Depths)
    requires Finished(w, t) && k <= |t.freq|
    ensures t.tc[k] <= k && t.inC[k] <= |w|
    ensures |d.nodes| == k - t.tc[k] && |d.syms| == |w| - t.inC[k]
    decreases |t.freq| - k
  {
    if k == |t.freq| then Depths([0], [])
    else
      var d := Down(w, t, k + 1);
      assert Stage(k, w, t);
      Split(d, One(t.lft[k]) + One(t.rgt[k]))
  }

  // Node k, the youngest one waiting, is replaced by its two children one level down.
  function Split(d: Depths, nodeChildren: nat): Depths
    requires d.nodes != [] && nodeChildren <= 2
  {
    var z := |d.nodes| - 1;
    Depths(Repeat(nodeChildren, d.nodes[z] + 1) + d.nodes[..z], Repeat(2 - nodeChildren, d.nodes[z] + 1) + d.syms)
  }

  // The length of every symbol's code.
  ghost function CodeLengths(w: seq<nat>, t: Trace): (l: seq<nat>)
    requires Finished(w, t)
    ensures |l| == |w|
  {
    Down(w, t, 0).syms
  }

  // ---------- Kraft equality and cost ----------

  lemma KraftOfRepeat(c: nat, x: nat, d: nat)
    requires c <= 2 && x <= d
    ensures Kraft(Repeat(c, x), d) == (if c == 0 then 0 else if c == 1 then Pow2(d - x) else 2 * Pow2(d - x))
  {
    if c == 1 {
      assert Repeat(1, x) == [x];
      assert Kraft([x][1..], d) == 0;
    } else if c == 2 {
      assert Repeat(2, x)[1..] == [x];
      assert Kraft([x][1..], d) == 0;
    }
  }

  lemma ChildrenKraft(rest: seq<nat>, x: nat, syms: seq<nat>, c: nat, s: nat)
    requires c <= 2 && x < s
    ensures Kraft(Repeat(c, x + 1) + rest, s) + Kraft(Repeat(2 - c, x + 1) + syms, s) ==
            Kraft(rest + [x], s) + Kraft(syms, s)
  {
    hide Kraft, Pow2, Repeat;
    KraftConcat(rest, [x], s);
    KraftConcat(Repeat(c, x + 1), rest, s);
    KraftConcat(Repeat(2 - c, x + 1), syms, s);
    KraftOfRepeat(c, x + 1, s);
    KraftOfRepeat(2 - c, x + 1, s);
    KraftOfOne(x, s);
  }

  lemma KraftOfOne(x: nat, s: nat)
    requires x < s
    ensures Kraft([x], s) == Pow2(s - x) == 2 * Pow2(s - x - 1)
  {
    assert [x][1..] == [];
  }

  // The step from k + 1 to k, spelled out: node k, at depth x, has c node children.
  lemma DownUnfold(w: seq<nat>, t: Trace, k: nat) returns (c: nat, rest: seq<nat>, x: nat)
    requires Finished(w, t) && k < |t.freq|
    ensures c == One(t.lft[k]) + One(t.rgt[k]) <= 2
    ensures Down(w, t, k + 1).nodes == rest + [x]
    ensures Down(w, t, k).nodes == Repeat(c, x + 1) + rest
    ensures Down(w, t, k).syms == Repeat(2 - c, x + 1) + Down(w, t, k + 1).syms
    ensures t.tc[k + 1] == t.tc[k] + c && |rest| == k - t.tc[k + 1]
    ensures forall j :: t.tc[k] <= j < t.tc[k + 1] ==> t.ht[j] < t.ht[k]
  {
    StageFacts(w, t, k);
    DownIs(w, t, k);
    c := One(t.lft[k]) + One(t.rgt[k]);
    hide Repeat, Finished, Down;
    var d := Down(w, t, k + 1);
    rest, x := d.nodes[..|d.nodes| - 1], d.nodes[|d.nodes| - 1];
    LastAppended(d.nodes);
  }

  lemma DownIs(w: seq<nat>, t: Trace, k: nat)
    requires Finished(w, t) && k < |t.freq|
    ensures |t.lft| == |t.rgt| == |t.freq| && Down(w, t, k + 1).nodes != []
    ensures Down(w, t, k) == Split(Down(w, t, k + 1), One(t.lft[k]) + One(t.rgt[k]))
  {
    StageFacts(w, t, k);
    hide Finished, Split;
  }

  lemma StageFacts(w: seq<nat>, t: Trace, k: nat)
    requires Finished(w, t) && k < |t.freq|
    ensures |t.tc| == |t.freq| + 1 && |t.lft| == |t.rgt| == |t.ht| == |t.freq|
    ensures t.tc[k + 1] == t.tc[k] + One(t.lft[k]) + One(t.rgt[k]) <= k
    ensures forall j :: t.tc[k] <= j < t.tc[k + 1] ==> t.ht[j] < t.ht[k]
  {
    assert Stage(k, w, t);
    hide Fib;
  }

  lemma LastAppended(s: seq<nat>)
    requires s != []
    ensures s == s[..|s| - 1] + [s[|s| - 1]]
  {
  }

  // The nodes off, off + 1, ... lie at the given depths, and no leaf under them is deeper than top.
  ghost predicate Below(nodes: seq<nat>, ht: seq<nat>, off: nat, top: nat) {
    off + |nodes| <= |ht| && forall j :: 0 <= j < |nodes| ==> nodes[j] + ht[off + j] <= top
  }

  lemma BelowStep(rest: seq<nat>, x: nat, c: nat, ht: seq<nat>, off: nat, top: nat, syms: seq<nat>)
    requires c <= 2 && c <= off && Below(rest + [x], ht, off, top)
    requires forall j :: off - c <= j < off ==> ht[j] < ht[off + |rest|]
    requires AtMost(syms, top) && ht[off + |rest|] >= 1
    ensures AtMost(Repeat(2 - c, x + 1) + syms, top)
    ensures x + ht[off + |rest|] <= top
    ensures Below(Repeat(c, x + 1) + rest, ht, off - c, top)
  {
    var q := rest + [x];
    assert q[|rest|] == x;
    var e := Repeat(c, x + 1) + rest;
    forall j | 0 <= j < |e| ensures e[j] + ht[off - c + j] <= top {
      if j >= c { assert e[j] == q[j - c]; }
    }
  }

  lemma HeightStep(w: seq<nat>, t: Trace, k: nat)
    requires Finished(w, t) && k < |t.freq|
    requires Below(Down(w, t, k + 1).nodes, t.ht, t.tc[k + 1], t.ht[|t.freq| - 1])
    requires AtMost(Down(w, t, k + 1).syms, t.ht[|t.freq| - 1])
    ensures Below(Down(w, t, k).nodes, t.ht, t.tc[k], t.ht[|t.freq| - 1])
    ensures AtMost(Down(w, t, k).syms, t.ht[|t.freq| - 1])
  {
    FinishedSized(w, t);
    hide Down, Finished, Below, Repeat, AtMost;
    var c, rest, x := DownUnfold(w, t, k);
    HeightPositive(w, t, k);
    var off := t.tc[k + 1];
    assert off + |rest| == k && off - c == t.tc[k];
    BelowStep(rest, x, c, t.ht, off, t.ht[|t.freq| - 1], Down(w, t, k + 1).syms);
  }

  // No item lies deeper than the root is high.
  lemma {:induction false} DownHeight(w: seq<nat>, t: Trace, k: nat)
    requires Finished(w, t) && k <= |t.freq|
    ensures Below(Down(w, t, k).nodes, t.ht, t.tc[k], t.ht[|t.freq| - 1])
    ensures AtMost(Down(w, t, k).syms, t.ht[|t.freq| - 1])
    decreases |t.freq| - k
  {
    if k < |t.freq| {
      DownHeight(w, t, k + 1);
      HeightStep(w, t, k);
    }
  }

  lemma HeightPositive(w: seq<nat>, t: Trace, k: nat)
    requires Finished(w, t) && k < |t.freq|
    ensures t.ht[k] >= 1
  {
    assert Stage(k, w, t);
  }

  lemma DownStep(w: seq<nat>, t: Trace, k: nat) returns (c: nat, rest: seq<nat>, x: nat)
    requires Finished(w, t) && k < |t.freq|
    ensures c == One(t.lft[k]) + One(t.rgt[k]) <= 2 && x < t.ht[|t.freq| - 1]
    ensures Down(w, t, k + 1).nodes == rest + [x]
    ensures Down(w, t, k).nodes == Repeat(c, x + 1) + rest
    ensures Down(w, t, k).syms == Repeat(2 - c, x + 1) + Down(w, t, k + 1).syms
    ensures t.tc[k + 1] == t.tc[k] + c && |rest| == k - t.tc[k + 1]
  {
    hide Down, Finished, Below, Repeat;
    FinishedSized(w, t);
    c, rest, x := DownUnfold(w, t, k);
    DownHeight(w, t, k + 1);
    HeightPositive(w, t, k);
    BelowStep(rest, x, c, t.ht, t.tc[k + 1], t.ht[|t.freq| - 1], Down(w, t, k + 1).syms);
  }

  lemma {:induction false} DownKraft(w: seq<nat>, t: Trace, k: nat, s: nat)
    requires Finished(w, t) && k <= |t.freq| && s >= t.ht[|t.freq| - 1]
    ensures Kraft(Down(w, t, k).nodes, s) + Kraft(Down(w, t, k).syms, s) == Pow2(s)
    decreases |t.freq| - k
  {
    if k == |t.freq| {
      assert [0][1..] == [];
    } else {
      hide Finished, Kraft, Pow2, Down, Repeat;
      FinishedSized(w, t);
      DownKraft(w, t, k + 1, s);
      var c, rest, x := DownStep(w, t, k);
      ChildrenKraft(rest, x, Down(w, t, k + 1).syms, c, s);
    }
  }

  // ---------- Cost: the weighted lengths add up to the weights of all nodes ----------

  lemma DotOfRepeat(v: seq<nat>, x: nat)
    requires |v| <= 2
    ensures Dot(v, Repeat(|v|, x)) == Times(Sum(v), x)
  {
    if |v| == 0 {
      TimesIsProduct(0, x);
    } else if |v| == 1 {
      assert Repeat(1, x) == [x] && v == [v[0]] && v[1..] == [] && [x][1..] == [];
      assert Sum(v) == v[0];
    } else {
      SumOfTwo(v);
      TimesAdd(v[0], v[1], x);
      assert Repeat(2, x)[1..] == [x] && v[1..] == [v[1]];
      DotSingle(v[1], x);
    }
  }

  // wn and ws weigh the children of an item of weight p and depth x.
  lemma ChildrenCost(rest: seq<nat>, x: nat, symsL: seq<nat>, wn: seq<nat>, ws: seq<nat>, nodes: seq<nat>, syms: seq<nat>, p: nat)
    requires |rest| == |nodes| && |symsL| == |syms|
    requires |wn| <= 2 && |ws| == 2 - |wn| && Sum(wn) + Sum(ws) == p
    ensures Dot(wn + nodes, Repeat(|wn|, x + 1) + rest) + Dot(ws + syms, Repeat(|ws|, x + 1) + symsL)
            == p + Dot(nodes + [p], rest + [x]) + Dot(syms, symsL)
  {
    hide Dot, Times, Sum;
    DotConcat(nodes, rest, [p], [x]);
    ChildrenDot(wn, x + 1, nodes, rest);
    ChildrenDot(ws, x + 1, syms, symsL);
    TimesAdd(Sum(wn), Sum(ws), x + 1);
    DotSingle(p, x);
  }

  lemma ChildrenDot(v: seq<nat>, x: nat, w: seq<nat>, l: seq<nat>)
    requires |v| <= 2 && |w| == |l|
    ensures Dot(v + w, Repeat(|v|, x) + l) == Times(Sum(v), x) + Dot(w, l)
  {
    DotConcat(v, Repeat(|v|, x), w, l);
    DotOfRepeat(v, x);
  }

  lemma DotSingle(p: nat, x: nat)
    ensures Dot([p], [x]) == Times(p, x) && Times(p, x + 1) == p + Times(p, x)
  {
    assert [p][1..] == [] && [x][1..] == [];
  }

  // The weights of the items waiting before node k is made.
  ghost function NodesAt(w: seq<nat>, t: Trace, k: nat): seq<nat>
    requires Finished(w, t) && k <= |t.freq|
  {
    assert |Down(w, t, k).nodes| >= 0;
    t.freq[t.tc[k]..k]
  }

  ghost function SymsAt(w: seq<nat>, t: Trace, k: nat): seq<nat>
    requires Finished(w, t) && k <= |t.freq|
  {
    assert |Down(w, t, k).nodes| >= 0;
    w[t.inC[k]..]
  }

  lemma StageWeights(w: seq<nat>, t: Trace, k: nat) returns (wn: seq<nat>, ws: seq<nat>, rest: seq<nat>)
    requires Finished(w, t) && k < |t.freq|
    ensures |wn| == One(t.lft[k]) + One(t.rgt[k]) && |wn| + |ws| == 2 && Sum(wn) + Sum(ws) == t.freq[k]
    ensures NodesAt(w, t, k) == wn + rest && NodesAt(w, t, k + 1) == rest + [t.freq[k]]
    ensures SymsAt(w, t, k) == ws + SymsAt(w, t, k + 1)
  {
    hide Fib, Down, Sum;
    assert Stage(k, w, t);
    wn, ws, rest := t.freq[t.tc[k]..t.tc[k + 1]], w[t.inC[k]..t.inC[k + 1]], t.freq[t.tc[k + 1]..k];
    SumOfTwo(wn);
    SumOfTwo(ws);
  }

  lemma SumOfTwo(s: seq<nat>)
    requires |s| <= 2
    ensures Sum(s) == (if |s| == 0 then 0 else if |s| == 1 then s[0] else s[0] + s[1])
  {
    if |s| >= 1 { assert |s| == 1 ==> s[1..] == []; }
    if |s| == 2 { assert s[1..] == [s[1]] && s[1..][1..] == []; }
  }

  lemma {:induction false} DownCost(w: seq<nat>, t: Trace, k: nat)
    requires Finished(w, t) && k <= |t.freq|
    ensures |NodesAt(w, t, k)| == |Down(w, t, k).nodes| && |SymsAt(w, t, k)| == |Down(w, t, k).syms|
    ensures Dot(NodesAt(w, t, k), Down(w, t, k).nodes) + Dot(SymsAt(w, t, k), Down(w, t, k).syms) == Sum(t.freq[k..])
    decreases |t.freq| - k
  {
    if k == |t.freq| {
      assert t.freq[t.tc[k]..k] == [t.freq[k - 1]];
      DotSingle(t.freq[k - 1], 0);
      assert w[t.inC[k]..] == [] && t.freq[k..] == [];
    } else {
      hide Finished, Dot, Sum, Down, Repeat, NodesAt, SymsAt;
      FinishedSized(w, t);
      DownCost(w, t, k + 1);
      var c, rest, x := DownStep(w, t, k);
      var wn, ws, nodes := StageWeights(w, t, k);
      ChildrenCost(rest, x, Down(w, t, k + 1).syms, wn, ws, nodes, SymsAt(w, t, k + 1), t.freq[k]);
      SumFrom(t.freq, k);
    }
  }

  lemma SumFrom(s: seq<nat>, k: nat)
    requires k < |s|
    ensures Sum(s[k..]) == s[k] + Sum(s[k + 1..])
  {
    assert s[k..][1..] == s[k + 1..];
  }

  // The lengths of a finished tree satisfy Kraft's equality, and their cost is the sum of the
  // weights of all nodes.
  lemma CodeLengthsOfTree(w: seq<nat>, t: Trace, s: nat)
    requires Finished(w, t) && s >= t.ht[|t.freq| - 1]
    ensures var l := CodeLengths(w, t);
            && AtMost(l, t.ht[|t.freq| - 1])
            && Kraft(l, s) == Pow2(s)
            && Dot(w, l) == Sum(t.freq)
  {
    DownKraft(w, t, 0, s);
    DownCost(w, t, 0);
    DownHeight(w, t, 0);
    assert SymsAt(w, t, 0) == w && NodesAt(w, t, 0) == [] && t.freq[0..] == t.freq;
  }

  // A tree of height h weighs at least Fib(h + 2).
  lemma HeightWeight(w: seq<nat>, t: Trace)
    requires Finished(w, t)
    ensures Fib(t.ht[|t.freq| - 1] + 2) <= t.freq[|t.freq| - 1]
  {
    assert Stage(|t.freq| - 1, w, t);
  }

  // Some symbol's code is as long as the tree is high.
  ghost predicate Touches(d: Depths, ht: seq<nat>, off: nat, top: nat) {
    && off + |d.nodes| <= |ht|
    && ((exists j :: 0 <= j < |d.nodes| && d.nodes[j] + ht[off + j] == top) || top in d.syms)
  }

  lemma TouchesStep(rest: seq<nat>, x: nat, c: nat, ht: seq<nat>, off: nat, top: nat, syms: seq<nat>)
    requires c <= 2 && c <= off && Touches(Depths(rest + [x], syms), ht, off, top)
    requires (c == 0 && ht[off + |rest|] == 1) || exists j :: off - c <= j < off && ht[j] + 1 == ht[off + |rest|]
    ensures Touches(Depths(Repeat(c, x + 1) + rest, Repeat(2 - c, x + 1) + syms), ht, off - c, top)
  {
    var e, s := Repeat(c, x + 1) + rest, Repeat(2 - c, x + 1) + syms;
    if top in syms {
      assert top in s;
    } else {
      var j :| 0 <= j < |rest + [x]| && (rest + [x])[j] + ht[off + j] == top;
      if j < |rest| {
        assert e[c + j] + ht[off - c + (c + j)] == top;
      } else if c == 0 {
        assert s[0] == top;
      } else {
        var i :| off - c <= i < off && ht[i] + 1 == ht[off + |rest|];
        assert e[i - (off - c)] == x + 1;
        assert e[i - (off - c)] + ht[off - c + (i - (off - c))] == top;
      }
    }
  }

  // The higher child of node k is one lower than the node; without a node child, the node is low.
  lemma HigherChild(w: seq<nat>, t: Trace, k: nat)
    requires Finished(w, t) && k < |t.freq|
    ensures var c := One(t.lft[k]) + One(t.rgt[k]);
            && t.tc[k + 1] == t.tc[k] + c <= k
            && ((c == 0 && t.ht[k] == 1) || exists j :: t.tc[k + 1] - c <= j < t.tc[k + 1] && t.ht[j] + 1 == t.ht[k])
  {
    hide Fib;
    assert Stage(k, w, t);
    var n := t.tc[k];
    if t.lft[k] && t.rgt[k] {
      assert t.ht[if t.ht[n] >= t.ht[n + 1] then n else n + 1] + 1 == t.ht[k];
    } else if t.lft[k] || t.rgt[k] {
      assert t.ht[n] + 1 == t.ht[k];
    }
  }

  lemma {:induction false} DownTouches(w: seq<nat>, t: Trace, k: nat)
    requires Finished(w, t) && k <= |t.freq|
    ensures Touches(Down(w, t, k), t.ht, t.tc[k], t.ht[|t.freq| - 1])
    decreases |t.freq| - k
  {
    hide *;
    FinishedSized(w, t);
    SizedIs(w, t);
    if k == |t.freq| {
      RootTouches(w, t);
    } else {
      DownTouches(w, t, k + 1);
      var c, rest, x := DownStep(w, t, k);
      HigherChild(w, t, k);
      DepthsAre(Down(w, t, k));
      DepthsAre(Down(w, t, k + 1));
      TouchesStep(rest, x, c, t.ht, t.tc[k + 1], t.ht[|t.freq| - 1], Down(w, t, k + 1).syms);
    }
  }

  lemma RootTouches(w: seq<nat>, t: Trace)
    requires Finished(w, t)
    ensures Touches(Down(w, t, |t.freq|), t.ht, t.tc[|t.freq|], t.ht[|t.freq| - 1])
  {
    hide Stage;
    var d := Down(w, t, |t.freq|);
    assert d.nodes[0] + t.ht[t.tc[|t.freq|] + 0] == t.ht[|t.freq| - 1];
  }

  lemma SizedIs(w: seq<nat>, t: Trace)
    requires Sized(w, t)
    ensures |t.freq| >= 1 && |t.inC| == |t.tc| == |t.freq| + 1 && |t.ht| == |t.lft| == |t.rgt| == |t.freq| && |w| == |t.freq| + 1
  {
  }

  lemma DepthsAre(d: Depths)
    ensures d == Depths(d.nodes, d.syms)
  {
  }

  // Every index into the histogram is a code's length, and all of them stay below the size given
  // exactly if the tree is not as high as that.
  lemma IndicesInside(w: seq<nat>, t: Trace, parent: seq<nat>, left: set<nat>, right: set<nat>, size: nat)
    requires TreeBuilt(w, t, parent, left, right)
    ensures Finished(w, t)
    ensures (forall i :: 0 <= i < |w| ==> CodeLengths(w, t)[i] < size) <==> TreeHeight(w) < size
  {
    TreeIsFinished(w, t, parent, left, right);
    DownHeight(w, t, 0);
    DownTouches(w, t, 0);
    hide Stage, Down, QueueHeight, TreeHeight;
    assert t.ht[|t.freq| - 1] in CodeLengths(w, t);
  }

  // ---------- computeBitLength ----------

  lemma TreeIsFinished(w: seq<nat>, t: Trace, parent: seq<nat>, left: set<nat>, right: set<nat>)
    requires TreeBuilt(w, t, parent, left, right)
    ensures Finished(w, t) && |t.freq| == |w| - 1
  {
  }

  // The depth of node j below the placeholder: the length of the codes of its symbol children.
  ghost function NodeDepth(w: seq<nat>, t: Trace, j: nat): nat
    requires Finished(w, t) && j < |t.freq|
  {
    var d := Down(w, t, j + 1);
    assert Stage(j, w, t);
    d.nodes[|d.nodes| - 1] + 1
  }

  // How many of a node's children are symbols: a clear bit marks a symbol.
  function SymbolChildren(i: nat, left: set<nat>, right: set<nat>): nat {
    (if i in left then 0 else 1) + (if i in right then 0 else 1)
  }

  // The nodes off .. k - 1, at the given depths, find their depth at their parent.
  ghost predicate LinkedTo(nodes: seq<nat>, off: nat, k: nat, m: nat, parent: seq<nat>, depth: seq<nat>) {
    && off + |nodes| == k && |parent| >= k && |depth| > m
    && forall j :: off <= j < k ==> k <= parent[j] <= m && depth[parent[j]] == nodes[j - off]
  }

  lemma LinkedToStep(rest: seq<nat>, x: nat, c: nat, off: nat, k: nat, m: nat, parent: seq<nat>, depth: seq<nat>)
    requires c <= 2 && c <= off && LinkedTo(rest + [x], off, k + 1, m, parent, depth) && k < m
    requires forall j :: off - c <= j < off ==> parent[j] == k
    ensures k < |parent| && k < parent[k] <= m < |depth| && depth[parent[k]] == x
    ensures LinkedTo(Repeat(c, x + 1) + rest, off - c, k, m, parent, depth[k := x + 1])
  {
    var q, e := rest + [x], Repeat(c, x + 1) + rest;
    assert q[k - off] == x;
    forall j | off - c <= j < k ensures k <= parent[j] <= m && depth[k := x + 1][parent[j]] == e[j - (off - c)] {
      if j >= off { assert e[j - (off - c)] == q[j - off]; }
    }
  }

  ghost predicate Linked(w: seq<nat>, t: Trace, k: nat, parent: seq<nat>, depth: seq<nat>)
    requires Finished(w, t) && k <= |t.freq|
  {
    LinkedTo(Down(w, t, k).nodes, t.tc[k], k, |t.freq|, parent, depth)
  }

  lemma LinkedInitially(w: seq<nat>, t: Trace, parent: seq<nat>, left: set<nat>, right: set<nat>, depth: seq<nat>)
    requires TreeBuilt(w, t, parent, left, right)
    requires |depth| >= |w| && depth[|w| - 1] == 0
    ensures Finished(w, t) && |t.freq| == |w| - 1 && Linked(w, t, |w| - 1, parent, depth)
    ensures Down(w, t, |w| - 1).syms == []
  {
    hide Stage;
  }

  lemma NodeOfTree(w: seq<nat>, t: Trace, k: nat, parent: seq<nat>, left: set<nat>, right: set<nat>)
    requires TreeBuilt(w, t, parent, left, right) && k + 1 < |w|
    requires Finished(w, t) && |t.freq| == |w| - 1
    ensures t.tc[k] <= t.tc[k + 1] <= k
    ensures forall j :: t.tc[k] <= j < t.tc[k + 1] ==> parent[j] == k
    ensures (k in left <==> t.lft[k]) && (k in right <==> t.rgt[k])
  {
    hide Fib;
    assert Stage(k, w, t);
  }

  lemma NodeDepthIs(w: seq<nat>, t: Trace, k: nat, rest: seq<nat>, x: nat)
    requires Finished(w, t) && k < |t.freq| && Down(w, t, k + 1).nodes == rest + [x]
    ensures NodeDepth(w, t, k) == x + 1
  {
    hide Stage, Built, Down;
  }

  lemma LinkedStep(w: seq<nat>, t: Trace, k: nat, parent: seq<nat>, left: set<nat>, right: set<nat>, depth: seq<nat>)
    requires TreeBuilt(w, t, parent, left, right) && k + 1 < |w|
    requires Finished(w, t) && |t.freq| == |w| - 1 && Linked(w, t, k + 1, parent, depth)
    ensures k < |parent| && k < parent[k] <= |t.freq| < |depth|
    ensures depth[parent[k]] + 1 == NodeDepth(w, t, k) <= t.ht[|t.freq| - 1]
    ensures Linked(w, t, k, parent, depth[k := depth[parent[k]] + 1])
    ensures SymbolChildren(k, left, right) <= 2
    ensures Down(w, t, k).syms == Repeat(SymbolChildren(k, left, right), NodeDepth(w, t, k)) + Down(w, t, k + 1).syms
  {
    hide TreeBuilt, Finished, LinkedTo, Repeat, NodeDepth, Down;
    FinishedSized(w, t);
    NodeOfTree(w, t, k, parent, left, right);
    var c, rest, x := DownStep(w, t, k);
    NodeDepthIs(w, t, k, rest, x);
    LinkedToStep(rest, x, c, t.tc[k + 1], k, |t.freq|, parent, depth);
  }

  // hist counts the codes of each length.
  ghost predicate Histogram(hist: seq<nat>, l: seq<nat>) {
    forall x :: 0 <= x < |hist| ==> hist[x] == Count(l, x)
  }

  lemma HistogramStep(hist: seq<nat>, l: seq<nat>, c: nat, x: nat)
    requires Histogram(hist, l) && c <= 2 && x < |hist|
    ensures Histogram(hist[x := hist[x] + c], Repeat(c, x) + l)
    ensures hist[x] <= |l|
  {
    forall y | 0 <= y < |hist| ensures hist[x := hist[x] + c][y] == Count(Repeat(c, x) + l, y) {
      CountConcat(Repeat(c, x), l, y);
      CountOfRepeat(c, x, y);
    }
    CountAtMost(l, x);
  }

  lemma CountOfRepeat(c: nat, x: nat, y: nat)
    requires c <= 2
    ensures Count(Repeat(c, x), y) == if x == y then c else 0
  {
    assert [x][1..] == [] && Count([x], y) == if x == y then 1 else 0;
    if c == 2 { assert Repeat(c, x)[1..] == [x]; }
  }

  const HISTOGRAM_WRAP := 4096   // a histogram entry has 12 bits

  // The histogram entry for the leaves hanging from node i.
  method CountLeaves(i: nat, length: nat, left: set<nat>, right: set<nat>, hist: array<nat>)
    requires length < hist.Length && hist[length] + 2 < HISTOGRAM_WRAP
    modifies hist
    ensures hist[..] == old(hist[..])[length := old(hist[length]) + SymbolChildren(i, left, right)]
  {
    var isLeftSymbol := i !in left;
    var isRightSymbol := i !in right;
    if isLeftSymbol || isRightSymbol {
      var children := 1;
      if isLeftSymbol && isRightSymbol { children := 2; }
      hist[length] := (hist[length] + children) % HISTOGRAM_WRAP;
    }
  }

  // The result both versions must reach.
  ghost predicate LengthsRead(n: nat, w: seq<nat>, t: Trace, hist: seq<nat>, depth: seq<nat>) {
    && (n == 0 ==> Histogram(hist, []))
    && (n == 1 ==> Histogram(hist, [1, 1]))
    && (n >= 2 ==> Finished(w, t) && |t.freq| == n - 1 <= |depth| && Histogram(hist, CodeLengths(w, t))
                   && forall j :: 0 <= j < n - 1 ==> depth[j] == NodeDepth(w, t, j))
  }

  // What the tree builder promises about its arrays.
  ghost predicate TreeGiven(n: nat, w: seq<nat>, t: Trace, parent: seq<nat>, left: set<nat>, right: set<nat>, size: nat) {
    && |w| == n && size >= 2
    && (n == 1 ==> |parent| >= 1 && parent[0] == 1 && 0 !in left && 0 !in right)
    && (n >= 2 ==> TreeBuilt(w, t, parent, left, right) && TreeHeight(w) < size)
  }

  // What holds when the nodes k, k + 1, ... have been visited.
  ghost predicate Visited(n: nat, k: nat, w: seq<nat>, t: Trace, parent: seq<nat>, hist: seq<nat>, depth: seq<nat>) {
    && (n == 1 ==> k <= 1 && |depth| >= 2 && depth[1] == 0 && Histogram(hist, if k == 1 then [] else [1, 1]))
    && (n >= 2 ==> Finished(w, t) && k <= |t.freq| == n - 1 && Linked(w, t, k, parent, depth)
                   && Histogram(hist, Down(w, t, k).syms)
                   && forall j :: k <= j < n - 1 ==> depth[j] == NodeDepth(w, t, j))
  }

  lemma VisitedInitially(n: nat, w: seq<nat>, t: Trace, parent: seq<nat>, left: set<nat>, right: set<nat>, hist: seq<nat>, depth: seq<nat>)
    requires TreeGiven(n, w, t, parent, left, right, |hist|)
    requires Histogram(hist, [])
    requires var m := if n < 2 then n + 1 else n; |depth| >= m && depth[m - 1] == 0
    ensures Visited(n, if n == 0 then 0 else if n == 1 then 1 else n - 1, w, t, parent, hist, depth)
  {
    if n >= 2 { LinkedInitially(w, t, parent, left, right, depth); }
  }

  // Visiting node k: its depth is one more than its parent's, and its symbol children are counted.
  lemma VisitedStep(n: nat, k: nat, w: seq<nat>, t: Trace, parent: seq<nat>, left: set<nat>, right: set<nat>, hist: seq<nat>, depth: seq<nat>)
    requires n >= 1 && TreeGiven(n, w, t, parent, left, right, |hist|)
    requires Visited(n, k + 1, w, t, parent, hist, depth)
    requires k == 0 || k + 1 < n
    ensures k < |parent| && k < parent[k] < |depth|
    ensures var length := depth[parent[k]] + 1;
            && length < |hist| && hist[length] <= n
            && Visited(n, k, w, t, parent,
                       hist[length := hist[length] + SymbolChildren(k, left, right)], depth[k := length])
  {
    if n == 1 {
      HistogramStep(hist, [], 2, 1);
      assert Repeat(2, 1) + [] == [1, 1];
    } else {
      HeightFits(n, w, t, parent, left, right, |hist|);
      VisitedNode(n, k, w, t, parent, left, right, hist, depth);
    }
  }

  lemma VisitedNode(n: nat, k: nat, w: seq<nat>, t: Trace, parent: seq<nat>, left: set<nat>, right: set<nat>, hist: seq<nat>, depth: seq<nat>)
    requires n >= 2 && TreeBuilt(w, t, parent, left, right) && |w| == n
    requires Visited(n, k + 1, w, t, parent, hist, depth) && k + 1 < n
    requires Finished(w, t) && t.ht[|t.freq| - 1] < |hist|
    ensures k < |parent| && k < parent[k] < |depth|
    ensures var length := depth[parent[k]] + 1;
            && length < |hist| && hist[length] <= n
            && Visited(n, k, w, t, parent,
                       hist[length := hist[length] + SymbolChildren(k, left, right)], depth[k := length])
  {
    hide TreeBuilt, Finished, LinkedTo, Repeat, NodeDepth, Histogram, Down, Linked, SymbolChildren;
    FinishedSized(w, t);
    LinkedStep(w, t, k, parent, left, right, depth);
    SymsFit(w, t, k + 1);
    HistogramStep(hist, Down(w, t, k + 1).syms, SymbolChildren(k, left, right), NodeDepth(w, t, k));
  }

  lemma SymsFit(w: seq<nat>, t: Trace, k: nat)
    requires Finished(w, t) && k <= |t.freq|
    ensures |Down(w, t, k).syms| <= |w|
  {
  }

  lemma HeightFits(n: nat, w: seq<nat>, t: Trace, parent: seq<nat>, left: set<nat>, right: set<nat>, size: nat)
    requires n >= 2 && TreeGiven(n, w, t, parent, left, right, size)
    ensures Finished(w, t) && t.ht[|t.freq| - 1] < size
  {
    hide Stage, QueueHeight, TreeHeight;
  }

  method ComputeBitLength(parent: array<nat>, left: set<nat>, right: set<nat>, n: nat,
                          hist: array<nat>, childDepth: array<nat>, ghost w: seq<nat>, ghost t: Trace)
    requires parent != hist && parent != childDepth && hist != childDepth
    requires n + 2 < HISTOGRAM_WRAP && TreeGiven(n, w, t, parent[..], left, right, hist.Length)
    requires Histogram(hist[..], []) && childDepth.Length >= (if n < 2 then n + 1 else n)
    modifies hist, childDepth
    ensures LengthsRead(n, w, t, hist[..], childDepth[..])
  {
    hide TreeGiven, Visited, LengthsRead;
    var m: int := n;
    if m < 2 { m := m + 1; }
    childDepth[m - 1] := 0;
    VisitedInitially(n, w, t, parent[..], left, right, hist[..], childDepth[..]);
    var i: int := m - 2;
    while i >= 0
      invariant -1 <= i <= m - 2
      invariant n == 0 ==> Histogram(hist[..], [])
      invariant Visited(n, i + 1, w, t, parent[..], hist[..], childDepth[..])
    {
      VisitedStep(n, i, w, t, parent[..], left, right, hist[..], childDepth[..]);
      var length := childDepth[parent[i]] + 1;
      childDepth[i] := length;
      CountLeaves(i, length, left, right, hist);
      i := i - 1;
    }
    ReadAll(n, w, t, parent[..], hist[..], childDepth[..]);
  }

  lemma ReadAll(n: nat, w: seq<nat>, t: Trace, parent: seq<nat>, hist: seq<nat>, depth: seq<nat>)
    requires Visited(n, 0, w, t, parent, hist, depth) && (n == 0 ==> Histogram(hist, []))
    ensures LengthsRead(n, w, t, hist, depth)
  {
  }

  // ---------- computeBitLengthLL ----------

  // One step either visits node i or, when the parent differs from the previous node's, stalls
  // for a cycle to fetch the new parent's depth.
  method ComputeBitLengthLL(parent: array<nat>, left: set<nat>, right: set<nat>, n: nat,
                            hist: array<nat>, childDepth: array<nat>, ghost w: seq<nat>, ghost t: Trace)
    requires parent != hist && parent != childDepth && hist != childDepth
    requires n >= 1
    requires n + 2 < HISTOGRAM_WRAP && TreeGiven(n, w, t, parent[..], left, right, hist.Length)
    requires Histogram(hist[..], []) && childDepth.Length >= (if n < 2 then n + 1 else n)
    modifies hist, childDepth
    ensures LengthsRead(n, w, t, hist[..], childDepth[..])
  {
    hide TreeGiven, Visited, LengthsRead;
    var m: int := n;
    if m < 2 { m := m + 1; }
    childDepth[m - 1] := 0;
    VisitedInitially(n, w, t, parent[..], left, right, hist[..], childDepth[..]);
    VisitedStep(n, m - 2, w, t, parent[..], left, right, hist[..], childDepth[..]);
    var prevParent := parent[m - 2];
    var length := childDepth[prevParent];
    length := length + 1;
    var i: int := m - 2;
    while i >= 0
      invariant -1 <= i <= m - 2
      invariant Visited(n, i + 1, w, t, parent[..], hist[..], childDepth[..])
      invariant prevParent < childDepth.Length && length == childDepth[prevParent] + 1
      invariant i < prevParent
      invariant i == m - 2 ==> prevParent == parent[i]
      invariant 0 <= i < m - 2 && prevParent != parent[i] ==> childDepth[i + 1] == length
      decreases i + 1, if i >= 0 && parent[i] != prevParent then 1 else 0
    {
      VisitedStep(n, i, w, t, parent[..], left, right, hist[..], childDepth[..]);
      var pIdx := parent[i];
      if pIdx != prevParent {
        length := 1 + (if pIdx == i + 1 then length else childDepth[pIdx]);
        prevParent := pIdx;
      } else {
        childDepth[i] := length;
        CountLeaves(i, length, left, right, hist);
        i := i - 1;
      }
    }
    ReadAll(n, w, t, parent[..], hist[..], childDepth[..]);
  }
}
