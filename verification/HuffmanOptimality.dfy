// What "optimal" means for a code-length assignment, independently of the tree builder: no
// prefix code whatsoever has a smaller weighted length than Huffman's merging cost.

module HuffmanOptimality {
  import opened Arithmetic

  predicate Ascending(s: seq<nat>) {
    |s| < 2 || (s[0] <= s[1] && Ascending(s[1..]))
  }

  predicate Descending(s: seq<nat>) {
    |s| < 2 || (s[0] >= s[1] && Descending(s[1..]))
  }

  lemma {:induction false} DescendingFromHead(s: seq<nat>)
    requires Descending(s) && s != []
    ensures AtMost(s, s[0])
  {
    if |s| >= 2 {
      DescendingFromHead(s[1..]);
      assert forall i :: 1 <= i < |s| ==> s[i] == s[1..][i - 1];
    }
  }

  function Insert(x: nat, s: seq<nat>): (r: seq<nat>)
    ensures |r| == |s| + 1
  {
    if s == [] || x < s[0] then [x] + s else [s[0]] + Insert(x, s[1..])
  }

  lemma {:induction false} InsertAscending(x: nat, s: seq<nat>)
    requires Ascending(s)
    ensures Ascending(Insert(x, s))
  {
    if s == [] || x < s[0] {
      assert ([x] + s)[1..] == s;
    } else {
      InsertAscending(x, s[1..]);
      assert Insert(x, s)[1..] == Insert(x, s[1..]);
    }
  }

  // Huffman's merging cost: repeatedly replace the two smallest weights by their sum and add up
  // all the sums.
  function HuffmanCost(w: seq<nat>): nat
    decreases |w|
  {
    if |w| < 2 then 0 else w[0] + w[1] + HuffmanCost(Insert(w[0] + w[1], w[2..]))
  }

  // ---------- Kraft's inequality for prefix codes ----------

  type Word = seq<bool>

  predicate Incomparable(a: Word, b: Word) {
    !(a <= b) && !(b <= a)
  }

  ghost predicate PrefixFree(c: seq<Word>) {
    forall i, j :: 0 <= i < j < |c| ==> Incomparable(c[i], c[j])
  }

  function Lengths(c: seq<Word>): (l: seq<nat>)
    ensures |l| == |c|
    ensures forall i :: 0 <= i < |c| ==> l[i] == |c[i]|
  {
    if c == [] then [] else [|c[0]|] + Lengths(c[1..])
  }

  // The tails of the words that start with bit b.
  function Tails(c: seq<Word>, b: bool): seq<Word> {
    if c == [] then []
    else (if c[0] != [] && c[0][0] == b then [c[0][1..]] else []) + Tails(c[1..], b)
  }

  lemma IncomparableTails(b: bool, h: Word, t: Word)
    ensures Incomparable([b] + h, [b] + t) ==> Incomparable(h, t)
  {
    if h <= t { assert [b] + h <= [b] + t; }
    if t <= h { assert [b] + t <= [b] + h; }
  }

  lemma {:induction false} TailsFrom(c: seq<Word>, b: bool)
    ensures forall t :: t in Tails(c, b) ==> [b] + t in c
  {
    if c != [] {
      TailsFrom(c[1..], b);
      if c[0] != [] && c[0][0] == b { assert [b] + c[0][1..] == c[0]; }
    }
  }

  lemma {:induction false} TailsPrefixFree(c: seq<Word>, b: bool)
    requires PrefixFree(c)
    ensures PrefixFree(Tails(c, b))
  {
    if c != [] {
      TailsPrefixFree(c[1..], b);
      TailsFrom(c[1..], b);
      if c[0] != [] && c[0][0] == b {
        var h := c[0][1..];
        assert [b] + h == c[0];
        forall t | t in Tails(c[1..], b) ensures Incomparable(h, t) {
          assert [b] + t in c[1..];
          IncomparableTails(b, h, t);
        }
      } else {
        assert Tails(c, b) == Tails(c[1..], b);
      }
    }
  }

  lemma {:induction false} TailsLengths(c: seq<Word>, b: bool, d: nat)
    requires AtMost(Lengths(c), d + 1)
    ensures AtMost(Lengths(Tails(c, b)), d)
    ensures |Tails(c, b)| <= |c|
  {
    if c != [] {
      assert Lengths(c)[1..] == Lengths(c[1..]);
      TailsLengths(c[1..], b, d);
      if c[0] != [] && c[0][0] == b {
        assert |c[0]| == Lengths(c)[0];
        assert Tails(c, b) == [c[0][1..]] + Tails(c[1..], b);
        assert Tails(c, b)[1..] == Tails(c[1..], b);
      } else {
        assert Tails(c, b) == Tails(c[1..], b);
      }
    }
  }

  lemma {:induction false} KraftSplit(c: seq<Word>, d: nat)
    requires [] !in c
    ensures Kraft(Lengths(c), d + 1) ==
            Kraft(Lengths(Tails(c, false)), d) + Kraft(Lengths(Tails(c, true)), d)
  {
    if c != [] {
      KraftSplit(c[1..], d);
      assert c[0] in c;
      var b := c[0][0];
      assert Tails(c, b) == [c[0][1..]] + Tails(c[1..], b);
      assert Tails(c, b)[1..] == Tails(c[1..], b);
      assert Tails(c, !b) == Tails(c[1..], !b);
      assert Lengths(Tails(c, b))[1..] == Lengths(Tails(c[1..], b));
      assert Lengths(c)[1..] == Lengths(c[1..]);
    }
  }

  lemma EmptyWordIsAPrefix(c: seq<Word>)
    requires |c| >= 2 && [] in c
    ensures !PrefixFree(c)
  {
    var i :| 0 <= i < |c| && c[i] == [];
    var j := if i == 0 then 1 else 0;
    assert !Incomparable(c[i], c[j]) && !Incomparable(c[j], c[i]);
  }

  lemma WordTooLong(c: seq<Word>)
    requires c != [] && [] !in c
    ensures !AtMost(Lengths(c), 0)
  {
    assert |c[0]| == Lengths(c)[0];
    assert c[0] in c;
  }

  lemma {:induction false} KraftInequality(c: seq<Word>, d: nat)
    requires PrefixFree(c) && AtMost(Lengths(c), d)
    ensures Kraft(Lengths(c), d) <= Pow2(d)
    decreases d
  {
    hide PrefixFree, AtMost, Tails;
    if [] in c {
      if |c| >= 2 {
        EmptyWordIsAPrefix(c);
        assert false;
      }
      assert Lengths(c) == [0];
      assert Kraft(Lengths(c)[1..], d) == 0;
    } else if d == 0 {
      if c != [] {
        WordTooLong(c);
        assert false;
      }
    } else {
      KraftSplit(c, d - 1);
      forall b ensures Kraft(Lengths(Tails(c, b)), d - 1) <= Pow2(d - 1) {
        TailsPrefixFree(c, b);
        TailsLengths(c, b, d - 1);
        KraftInequality(Tails(c, b), d - 1);
      }
    }
  }

  // ---------- The rearrangement step: long codes to light weights ----------

  function InsertDown(x: nat, s: seq<nat>): (r: seq<nat>)
    ensures |r| == |s| + 1
  {
    if s == [] || x >= s[0] then [x] + s else [s[0]] + InsertDown(x, s[1..])
  }

  lemma {:induction false} InsertDownMultiset(x: nat, s: seq<nat>)
    ensures multiset(InsertDown(x, s)) == multiset(s) + multiset{x}
  {
    if s != [] && x < s[0] {
      InsertDownMultiset(x, s[1..]);
      assert s == [s[0]] + s[1..];
    }
  }

  function SortDown(l: seq<nat>): (r: seq<nat>)
    ensures |r| == |l|
  {
    if l == [] then [] else InsertDown(l[0], SortDown(l[1..]))
  }

  lemma {:induction false} SortDownMultiset(l: seq<nat>)
    ensures multiset(SortDown(l)) == multiset(l)
  {
    if l != [] {
      SortDownMultiset(l[1..]);
      InsertDownMultiset(l[0], SortDown(l[1..]));
      assert l == [l[0]] + l[1..];
    }
  }

  lemma {:induction false} InsertDownDescending(x: nat, s: seq<nat>)
    requires Descending(s)
    ensures Descending(InsertDown(x, s))
  {
    if s == [] || x >= s[0] {
      assert ([x] + s)[1..] == s;
    } else {
      InsertDownDescending(x, s[1..]);
      assert InsertDown(x, s)[1..] == InsertDown(x, s[1..]);
    }
  }

  lemma {:induction false} SortDownDescending(l: seq<nat>)
    ensures Descending(SortDown(l))
  {
    if l != [] {
      SortDownDescending(l[1..]);
      InsertDownDescending(l[0], SortDown(l[1..]));
    }
  }

  lemma {:induction false} Exchange(w0: nat, w1: nat, a: nat, b: nat)
    requires w0 <= w1 && a <= b
    ensures Times(w0, b) + Times(w1, a) <= Times(w0, a) + Times(w1, b)
  {
    if a < b { Exchange(w0, w1, a, b - 1); }
  }

  lemma {:induction false} InsertDownCheaper(w: seq<nat>, x: nat, s: seq<nat>)
    requires Ascending(w) && |w| == |s| + 1
    ensures Dot(w, InsertDown(x, s)) <= Times(w[0], x) + Dot(w[1..], s)
  {
    if s != [] && x < s[0] {
      InsertDownCheaper(w[1..], x, s[1..]);
      Exchange(w[0], w[1], x, s[0]);
      assert w[1..][1..] == w[2..];
      assert InsertDown(x, s)[1..] == InsertDown(x, s[1..]);
    }
  }

  lemma {:induction false} SortDownCheaper(w: seq<nat>, l: seq<nat>)
    requires Ascending(w) && |w| == |l|
    ensures Dot(w, SortDown(l)) <= Dot(w, l)
  {
    if w != [] {
      SortDownCheaper(w[1..], l[1..]);
      InsertDownCheaper(w, l[0], SortDown(l[1..]));
    }
  }

  // Kraft sum, total and bound survive moving one entry to the front...
  lemma KraftOfMove(b: seq<nat>, i: nat, d: nat)
    requires i < |b|
    ensures var r := [b[i]] + (b[..i] + b[i + 1..]);
            multiset(r) == multiset(b) && Kraft(r, d) == Kraft(b, d) && Sum(r) == Sum(b)
  {
    var p, q := b[..i], b[i + 1..];
    assert b == p + ([b[i]] + q);
    assert ([b[i]] + q)[1..] == q && ([b[i]] + (p + q))[1..] == p + q;
    KraftConcat(p, q, d);
    KraftConcat(p, [b[i]] + q, d);
    SumConcat(p, q);
    SumConcat(p, [b[i]] + q);
  }

  // ... hence any rearrangement.
  lemma {:induction false} KraftOfMultiset(a: seq<nat>, b: seq<nat>, d: nat)
    requires multiset(a) == multiset(b)
    ensures Kraft(a, d) == Kraft(b, d) && Sum(a) == Sum(b)
    decreases |a|, 1
  {
    assert |multiset(a)| == |a| && |multiset(b)| == |b|;
    if a != [] {
      assert a[0] in multiset(b);
      var i :| 0 <= i < |b| && b[i] == a[0];
      KraftOfMove(b, i, d);
      KraftOfSameHead(a[0], a[1..], b[..i] + b[i + 1..], a, d);
    }
  }

  lemma {:induction false} KraftOfSameHead(x: nat, a: seq<nat>, b: seq<nat>, xa: seq<nat>, d: nat)
    requires xa == [x] + a && multiset([x] + a) == multiset([x] + b)
    ensures Kraft([x] + a, d) == Kraft([x] + b, d) && Sum([x] + a) == Sum([x] + b)
    decreases |xa|, 0
  {
    assert multiset([x] + a) == multiset{x} + multiset(a);
    assert multiset([x] + b) == multiset{x} + multiset(b);
    assert multiset(a) == multiset([x] + a) - multiset{x} == multiset(b);
    KraftOfMultiset(a, b, d);
    assert ([x] + a)[1..] == a && ([x] + b)[1..] == b;
  }

  lemma AtMostOfMultiset(a: seq<nat>, b: seq<nat>, d: nat)
    requires multiset(a) == multiset(b) && AtMost(a, d)
    ensures AtMost(b, d)
  {
    forall i | 0 <= i < |b| ensures b[i] <= d {
      assert b[i] in multiset(a);
    }
  }

  // ---------- The lower bound ----------

  // The lengths that go with Insert(x, w): the length n travels to where the weight x goes.
  function InsertWith(x: nat, n: nat, w: seq<nat>, l: seq<nat>): (r: seq<nat>)
    requires |w| == |l|
    ensures |r| == |w| + 1
  {
    if w == [] || x < w[0] then [n] + l else [l[0]] + InsertWith(x, n, w[1..], l[1..])
  }

  lemma {:induction false} InsertWithMultiset(x: nat, n: nat, w: seq<nat>, l: seq<nat>)
    requires |w| == |l|
    ensures multiset(InsertWith(x, n, w, l)) == multiset(l) + multiset{n}
  {
    if w != [] && x >= w[0] {
      InsertWithMultiset(x, n, w[1..], l[1..]);
      assert l == [l[0]] + l[1..];
    }
  }

  lemma {:induction false} InsertWithDot(x: nat, n: nat, w: seq<nat>, l: seq<nat>)
    requires |w| == |l|
    ensures Dot(Insert(x, w), InsertWith(x, n, w, l)) == Times(x, n) + Dot(w, l)
  {
    if w == [] || x < w[0] {
      assert ([x] + w)[1..] == w && ([n] + l)[1..] == l;
    } else {
      InsertWithDot(x, n, w[1..], l[1..]);
      assert Insert(x, w)[1..] == Insert(x, w[1..]);
      assert InsertWith(x, n, w, l)[1..] == InsertWith(x, n, w[1..], l[1..]);
    }
  }

  // No assignment that satisfies Kraft's inequality beats Huffman's merging cost.
  lemma {:induction false} LowerBound(w: seq<nat>, l: seq<nat>, d: nat)
    requires |w| == |l| >= 1 && Ascending(w) && AtMost(l, d)
    requires Kraft(l, d) <= Pow2(d)
    ensures Dot(w, l) >= HuffmanCost(w)
    decreases |w|, Sum(l), d, 2
  {
    if |w| >= 2 {
      var s := SortDown(l);
      SortDownDescending(l);
      SortDownMultiset(l);
      SortDownCheaper(w, l);
      KraftOfMultiset(l, s, d);
      AtMostOfMultiset(l, s, d);
      LowerBoundSorted(w, s, d);
    }
  }

  lemma {:induction false} LowerBoundSorted(w: seq<nat>, l: seq<nat>, d: nat)
    requires |w| == |l| >= 2 && Ascending(w) && Descending(l) && AtMost(l, d)
    requires Kraft(l, d) <= Pow2(d)
    ensures Dot(w, l) >= HuffmanCost(w)
    decreases |w|, Sum(l), d, 1
  {
    DescendingFromHead(l);
    DescendingFromHead(l[1..]);
    assert AtMost(l[1..], l[1]);
    assert Kraft(l, d) == Pow2(d - l[0]) + (Pow2(d - l[1]) + Kraft(l[1..][1..], d));
    if d == 0 {
      assert false;
    } else if l[0] < d {
      KraftScale(l, d - 1);
      LowerBoundSorted(w, l, d - 1);
    } else if l[1] < d {
      PullUp(w, l, d);
      LowerBoundSorted(w, [d - 1] + l[1..], d);
    } else {
      MergeStep(w, l, d);
    }
  }

  // A leaf alone on the deepest level moves up one level for free.
  lemma PullUp(w: seq<nat>, l: seq<nat>, d: nat)
    requires |w| == |l| >= 2 && Descending(l) && l[0] == d > l[1]
    requires AtMost(l[1..], d - 1)
    requires Kraft(l, d) <= Pow2(d)
    ensures var l' := [d - 1] + l[1..];
            && Descending(l') && AtMost(l', d) && Sum(l') < Sum(l)
            && Kraft(l', d) <= Pow2(d) && Dot(w, l') <= Dot(w, l)
  {
    var l' := [d - 1] + l[1..];
    assert l'[1..] == l[1..];
    KraftEven(l[1..], d);
    assert Pow2(d) % 2 == 0;
    assert Pow2(d - l'[0]) == 2 && Pow2(d - l[0]) == 1;
  }

  // The two lightest weights share the deepest level: merging them saves exactly their sum.
  lemma {:induction false} MergeStep(w: seq<nat>, l: seq<nat>, d: nat)
    requires |w| == |l| >= 2 && Ascending(w)
    requires d >= 1 && l[0] == d && l[1] == d && AtMost(l, d)
    requires Kraft(l, d) <= Pow2(d)
    ensures Dot(w, l) >= HuffmanCost(w)
    decreases |w|, Sum(l), d, 0
  {
    var x := w[0] + w[1];
    var w', l' := Insert(x, w[2..]), InsertWith(x, d - 1, w[2..], l[2..]);
    InsertAscending(x, w[2..]);
    MergedKraft(x, w[2..], l[2..], d);
    assert Kraft(l', d) == Kraft(l, d) by {
      assert l[1..][1..] == l[2..];
      assert Kraft(l, d) == 1 + (1 + Kraft(l[2..], d));
    }
    LowerBound(w', l', d);
    MergedDot(w, l, d);
    assert HuffmanCost(w) == x + HuffmanCost(w');
  }

  lemma MergedDot(w: seq<nat>, l: seq<nat>, d: nat)
    requires |w| == |l| >= 2
    requires d >= 1 && l[0] == d && l[1] == d
    ensures Dot(w, l) == w[0] + w[1] +
            Dot(Insert(w[0] + w[1], w[2..]), InsertWith(w[0] + w[1], d - 1, w[2..], l[2..]))
  {
    assert w[1..][1..] == w[2..] && l[1..][1..] == l[2..];
    InsertWithDot(w[0] + w[1], d - 1, w[2..], l[2..]);
    TimesAdd(w[0], w[1], d - 1);
  }

  lemma MergedKraft(x: nat, w: seq<nat>, l: seq<nat>, d: nat)
    requires |w| == |l| && d >= 1
    requires AtMost(l, d)
    ensures var l' := InsertWith(x, d - 1, w, l);
            AtMost(l', d) && Kraft(l', d) == 2 + Kraft(l, d)
  {
    var m := [d - 1] + l;
    assert m[1..] == l;
    InsertWithMultiset(x, d - 1, w, l);
    KraftOfMultiset(m, InsertWith(x, d - 1, w, l), d);
    AtMostOfMultiset(m, InsertWith(x, d - 1, w, l), d);
    assert Pow2(d - m[0]) == 2 * Pow2(0);
  }

  function MaxOf(l: seq<nat>): (d: nat)
    ensures AtMost(l, d)
  {
    if l == [] then 0
    else
      var d := MaxOf(l[1..]);
      assert forall i :: 0 < i < |l| ==> l[i] == l[1..][i - 1];
      if l[0] > d then l[0] else d
  }

  // Huffman's cost bounds the weighted length of every prefix code from below.
  lemma EveryPrefixCodeCostsAtLeast(w: seq<nat>, c: seq<Word>)
    requires |w| == |c| >= 1 && Ascending(w) && PrefixFree(c)
    ensures Dot(w, Lengths(c)) >= HuffmanCost(w)
  {
    var d := MaxOf(Lengths(c));
    KraftInequality(c, d);
    LowerBound(w, Lengths(c), d);
  }
}
