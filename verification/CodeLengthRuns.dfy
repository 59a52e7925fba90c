// The lengths of the literal and distance codes, run-length coded (RFC 1951, section 3.2.7): how
// the tokens are counted, how they are sent, and how they are read back.

module CodeLengthRuns {
  import opened Arithmetic

  // A length as it is, 3 to 6 copies of the one before, 3 to 10 or 11 to 138 zeros.
  datatype Token = Len(l: nat) | Again(n: nat) | Zeros(n: nat) | ManyZeros(n: nat)

  const SENTINEL: nat := 15   // what the counting pass puts behind the last length
  const PADDING: nat := 0     // what the sending pass finds there

  function Copies(l: nat, n: nat): (r: seq<nat>)
    ensures |r| == n
  {
    if n == 0 then [] else Copies(l, n - 1) + [l]
  }

  // ---------- What tokens stand for ----------

  function Meaning(t: Token, prev: nat): seq<nat> {
    match t
    case Len(l) => [l]
    case Again(n) => Copies(prev, n)
    case Zeros(n) => Copies(0, n)
    case ManyZeros(n) => Copies(0, n)
  }

  function After(t: Token, prev: nat): nat {
    match t
    case Len(l) => l
    case Again(n) => prev
    case Zeros(n) => 0
    case ManyZeros(n) => 0
  }

  // The lengths; a repetition takes the length before it.
  function Expand(toks: seq<Token>, prev: nat): seq<nat>
    decreases |toks|
  {
    if toks == [] then [] else Meaning(toks[0], prev) + Expand(toks[1..], After(toks[0], prev))
  }

  function Last(toks: seq<Token>, prev: nat): nat
    decreases |toks|
  {
    if toks == [] then prev else Last(toks[1..], After(toks[0], prev))
  }

  lemma {:induction false} ExpandConcat(a: seq<Token>, b: seq<Token>, prev: nat)
    ensures Expand(a + b, prev) == Expand(a, prev) + Expand(b, Last(a, prev))
    ensures Last(a + b, prev) == Last(b, Last(a, prev))
    decreases |a|
  {
    if a == [] {
      assert a + b == b;
    } else {
      assert (a + b)[1..] == a[1..] + b;
      ExpandConcat(a[1..], b, After(a[0], prev));
      hide Meaning, After;
    }
  }

  lemma ExpandOne(t: Token, prev: nat)
    ensures Expand([t], prev) == Meaning(t, prev) && Last([t], prev) == After(t, prev)
  {
    assert [t][1..] == [];
    assert Meaning(t, prev) + [] == Meaning(t, prev);
  }

  // ---------- Scanning ----------

  function Longest(cur: nat, next: nat): nat {
    if next == 0 then 138 else if cur == next then 6 else 7
  }

  function Shortest(cur: nat, next: nat): nat {
    if next == 0 then 3 else if cur == next then 3 else 4
  }

  function Singles(l: nat, n: nat): (r: seq<Token>)
    ensures |r| == n
  {
    if n == 0 then [] else Singles(l, n - 1) + [Len(l)]
  }

  // The tokens for count copies of cur.
  function Flush(cur: nat, count: nat, prev: int, least: nat): seq<Token> {
    if count < least then Singles(cur, count)
    else if cur != 0 then
      if cur != prev then [Len(cur), Again(if count > 0 then count - 1 else 0)] else [Again(count)]
    else if count <= 10 then [Zeros(count)]
    else [ManyZeros(count)]
  }

  function Next(lens: seq<nat>, n: nat, sentinel: nat): nat {
    if n + 1 < |lens| then lens[n + 1] else sentinel
  }

  // From position n on, with `count` copies of lens[n] held back.
  function Scan(lens: seq<nat>, n: nat, count: nat, prev: int, most: nat, least: nat, sentinel: nat): seq<Token>
    requires n <= |lens|
    decreases |lens| - n
  {
    if n == |lens| then []
    else
      var cur, next := lens[n], Next(lens, n, sentinel);
      if count + 1 < most && cur == next then Scan(lens, n + 1, count + 1, prev, most, least, sentinel)
      else Flush(cur, count + 1, prev, least) + Scan(lens, n + 1, 0, cur, Longest(cur, next), Shortest(cur, next), sentinel)
  }

  function FirstLongest(lens: seq<nat>): nat {
    if lens != [] && lens[0] == 0 then 138 else 7
  }

  function FirstShortest(lens: seq<nat>): nat {
    if lens != [] && lens[0] == 0 then 3 else 4
  }

  // The tokens of one tree.
  function Tokens(lens: seq<nat>, sentinel: nat): seq<Token> {
    Scan(lens, 0, 0, -1, FirstLongest(lens), FirstShortest(lens), sentinel)
  }

  // The limits fit the run under way.
  ghost predicate Fitting(cur: nat, prev: int, most: nat, least: nat) {
    && (cur == 0 ==> most == 138 && least == 3)
    && (cur != 0 && cur == prev ==> most == 6 && least == 3)
    && (cur != 0 && cur != prev ==> most == 7 && least == 4)
  }

  ghost predicate HeldBack(lens: seq<nat>, n: nat, count: nat, prev: int, most: nat, least: nat) {
    && count <= n <= |lens|
    && (n == |lens| ==> count == 0)
    && (n < |lens| ==> Fitting(lens[n], prev, most, least) && count < most && lens[n - count..n] == Copies(lens[n], count))
  }

  lemma CopiesMore(l: nat, n: nat)
    ensures Copies(l, n) + [l] == Copies(l, n + 1)
  {
  }

  lemma {:induction false} CopiesJoin(l: nat, a: nat, b: nat)
    ensures Copies(l, a) + Copies(l, b) == Copies(l, a + b)
  {
    if b > 0 {
      CopiesJoin(l, a, b - 1);
      assert Copies(l, a) + (Copies(l, b - 1) + [l]) == Copies(l, a) + Copies(l, b - 1) + [l];
    } else {
      assert Copies(l, a) + [] == Copies(l, a);
    }
  }

  lemma {:induction false} SinglesMean(l: nat, n: nat, prev: nat)
    ensures Expand(Singles(l, n), prev) == Copies(l, n)
    ensures n > 0 ==> Last(Singles(l, n), prev) == l
  {
    if n > 0 {
      SinglesMean(l, n - 1, prev);
      ExpandConcat(Singles(l, n - 1), [Len(l)], prev);
      ExpandOne(Len(l), Last(Singles(l, n - 1), prev));
    }
  }

  // Each flush stands for exactly the copies held back.
  lemma FlushMeans(cur: nat, count: nat, prev: int, last: nat, most: nat, least: nat)
    requires Fitting(cur, prev, most, least) && 0 < count && (prev >= 0 ==> last == prev)
    ensures Expand(Flush(cur, count, prev, least), last) == Copies(cur, count)
    ensures Last(Flush(cur, count, prev, least), last) == cur
  {
    if count < least {
      SinglesMean(cur, count, last);
    } else if cur != 0 && cur != prev {
      var a, b := Len(cur), Again(count - 1);
      assert [a, b][1..] == [b];
      ExpandOne(b, cur);
      CopiesJoin(cur, 1, count - 1);
      assert Copies(cur, 1) == Copies(cur, 0) + [cur] == [cur];
    } else {
      ExpandOne(Flush(cur, count, prev, least)[0], last);
    }
  }

  // Whether position n goes on with the run under way.
  predicate GoesOn(lens: seq<nat>, n: nat, count: nat, most: nat, sentinel: nat)
    requires n < |lens|
  {
    count + 1 < most && lens[n] == Next(lens, n, sentinel)
  }

  lemma ScanOne(lens: seq<nat>, n: nat, count: nat, prev: int, most: nat, least: nat, sentinel: nat)
    requires n < |lens|
    ensures var cur, next := lens[n], Next(lens, n, sentinel);
            Scan(lens, n, count, prev, most, least, sentinel)
            == if GoesOn(lens, n, count, most, sentinel) then Scan(lens, n + 1, count + 1, prev, most, least, sentinel)
               else Flush(cur, count + 1, prev, least) + Scan(lens, n + 1, 0, cur, Longest(cur, next), Shortest(cur, next), sentinel)
  {
    hide Flush, Longest, Shortest;
  }

  lemma HeldOne(lens: seq<nat>, n: nat, count: nat, prev: int, most: nat, least: nat, sentinel: nat)
    requires HeldBack(lens, n, count, prev, most, least) && n < |lens| && GoesOn(lens, n, count, most, sentinel)
    requires lens[|lens| - 1] != sentinel
    ensures HeldBack(lens, n + 1, count + 1, prev, most, least)
  {
    CopiesMore(lens[n], count);
    hide Copies, Fitting;
    assert lens[n - count..n + 1] == lens[n - count..n] + [lens[n]];
  }

  lemma HeldNone(lens: seq<nat>, n: nat, sentinel: nat)
    requires n < |lens|
    ensures var cur, next := lens[n], Next(lens, n, sentinel);
            HeldBack(lens, n + 1, 0, cur, Longest(cur, next), Shortest(cur, next))
  {
    if n + 1 < |lens| { assert Copies(lens[n + 1], 0) == []; }
  }

  lemma HeldFacts(lens: seq<nat>, n: nat, count: nat, prev: int, most: nat, least: nat)
    requires HeldBack(lens, n, count, prev, most, least)
    ensures count <= n <= |lens| && (n == |lens| ==> count == 0)
    ensures n < |lens| ==> Fitting(lens[n], prev, most, least)
    ensures n < |lens| ==> lens[n - count..] == Copies(lens[n], count + 1) + lens[n + 1..]
  {
    if n < |lens| {
      hide Copies, Fitting;
      CopiesMore(lens[n], count);
      assert lens[n - count..] == lens[n - count..n] + [lens[n]] + lens[n + 1..];
    }
  }

  // The tokens stand for what is held back and what follows.
  lemma {:induction false} ScanMeans(lens: seq<nat>, n: nat, count: nat, prev: int, last: nat, most: nat, least: nat, sentinel: nat)
    requires HeldBack(lens, n, count, prev, most, least) && (prev >= 0 ==> last == prev) && count <= n <= |lens|
    requires lens == [] || lens[|lens| - 1] != sentinel
    ensures Expand(Scan(lens, n, count, prev, most, least, sentinel), last) == lens[n - count..]
    decreases |lens| - n
  {
    hide *;
    HeldFacts(lens, n, count, prev, most, least);
    if n < |lens| {
      var cur, next := lens[n], Next(lens, n, sentinel);
      ScanOne(lens, n, count, prev, most, least, sentinel);
      if GoesOn(lens, n, count, most, sentinel) {
        HeldOne(lens, n, count, prev, most, least, sentinel);
        ScanMeans(lens, n + 1, count + 1, prev, last, most, least, sentinel);
      } else {
        FlushMeans(cur, count + 1, prev, last, most, least);
        HeldNone(lens, n, sentinel);
        ScanMeans(lens, n + 1, 0, cur, cur, Longest(cur, next), Shortest(cur, next), sentinel);
        ExpandConcat(Flush(cur, count + 1, prev, least),
                     Scan(lens, n + 1, 0, cur, Longest(cur, next), Shortest(cur, next), sentinel), last);
      }
    } else {
      NothingLeft(lens, count, prev, last, most, least, sentinel);
    }
  }

  lemma NothingLeft(lens: seq<nat>, count: nat, prev: int, last: nat, most: nat, least: nat, sentinel: nat)
    ensures Expand(Scan(lens, |lens|, count, prev, most, least, sentinel), last) == lens[|lens|..]
  {
  }

  // The tokens stand for the lengths, unless the last length looks like what follows it.
  lemma TokensMean(lens: seq<nat>, sentinel: nat, prev: nat)
    requires lens == [] || lens[|lens| - 1] != sentinel
    ensures Expand(Tokens(lens, sentinel), prev) == lens
  {
    if lens != [] { assert lens[0..0] == Copies(lens[0], 0); }
    ScanMeans(lens, 0, 0, -1, prev, FirstLongest(lens), FirstShortest(lens), sentinel);
  }

  // ---------- The counting pass against the sending pass ----------

  // How many equal lengths end the list.
  function TrailingRun(lens: seq<nat>): nat {
    if lens == [] then 0
    else if |lens| >= 2 && lens[|lens| - 1] == lens[|lens| - 2] then TrailingRun(lens[..|lens| - 1]) + 1
    else 1
  }

  // A run of nonzero lengths leaves nothing held back: 7 of them, then 6 at a time.
  predicate RunsOut(t: nat) {
    t >= 7 && (t - 7) % 6 == 0
  }

  // What decides whether the last run of 15s is counted.
  predicate Counted(lens: seq<nat>) {
    lens == [] || lens[|lens| - 1] != SENTINEL || RunsOut(TrailingRun(lens))
  }

  // The same, seen from position n: if the last run covers all that is left, what is held back
  // belongs to it.
  predicate CountedFrom(lens: seq<nat>, n: nat, count: nat, most: nat)
    requires n <= |lens|
  {
    || lens == [] || lens[|lens| - 1] != SENTINEL || n == |lens|
    || (if TrailingRun(lens) < |lens| - n then RunsOut(TrailingRun(lens))
        else count + (|lens| - n) >= most && (count + (|lens| - n) - most) % 6 == 0)
  }

  lemma {:induction false} TrailingEqual(lens: seq<nat>, k: nat)
    requires k < |lens|
    ensures TrailingRun(lens) >= |lens| - k <==> forall i :: k <= i < |lens| ==> lens[i] == lens[|lens| - 1]
    decreases |lens|
  {
    if k < |lens| - 1 {
      var z := |lens| - 1;
      TrailingEqual(lens[..z], k);
      if lens[z] == lens[z - 1] {
        assert forall i :: k <= i < z ==> lens[..z][i] == lens[i];
      }
    }
  }

  lemma {:induction false} TrailingBound(lens: seq<nat>)
    ensures TrailingRun(lens) <= |lens| && (lens != [] ==> TrailingRun(lens) >= 1)
    decreases |lens|
  {
    if |lens| >= 2 { TrailingBound(lens[..|lens| - 1]); }
  }

  lemma CountedGoesOn(lens: seq<nat>, n: nat, count: nat, most: nat)
    requires n + 1 < |lens| && lens[n] == lens[n + 1]
    ensures CountedFrom(lens, n, count, most) <==> CountedFrom(lens, n + 1, count + 1, most)
  {
    TrailingEqual(lens, n);
    TrailingEqual(lens, n + 1);
    TrailingBound(lens);
    hide TrailingRun;
  }

  lemma CountedRestarts(lens: seq<nat>, n: nat, count: nat, most: nat)
    requires n + 1 < |lens| && (lens[n] == lens[n + 1] ==> count + 1 == most)
    ensures CountedFrom(lens, n, count, most) <==> CountedFrom(lens, n + 1, 0, Longest(lens[n], lens[n + 1]))
  {
    TrailingEqual(lens, n);
    TrailingEqual(lens, n + 1);
    TrailingBound(lens);
    hide TrailingRun;
    if lens[|lens| - 1] == SENTINEL && TrailingRun(lens) >= |lens| - n {
      assert lens[n] == lens[n + 1] == SENTINEL;
    }
  }

  lemma CountedAtEnd(lens: seq<nat>, n: nat, count: nat, most: nat)
    requires n + 1 == |lens| && count < most
    ensures CountedFrom(lens, n, count, most) <==> lens[n] != SENTINEL || count + 1 == most
  {
    TrailingBound(lens);
    hide TrailingRun;
  }

  lemma SameFront(a: seq<Token>, b: seq<Token>, c: seq<Token>)
    ensures a + b == a + c <==> b == c
  {
    if a + b == a + c { assert b == (a + b)[|a|..] == (a + c)[|a|..] == c; }
  }

  lemma FlushNotEmpty(cur: nat, count: nat, prev: int, least: nat)
    requires count > 0
    ensures Flush(cur, count, prev, least) != []
  {
  }

  lemma {:induction false} ScansAgree(lens: seq<nat>, n: nat, count: nat, prev: int, most: nat, least: nat)
    requires n <= |lens| && (n < |lens| ==> count < most) && (lens != [] ==> lens[|lens| - 1] != PADDING)
    ensures Scan(lens, n, count, prev, most, least, SENTINEL) == Scan(lens, n, count, prev, most, least, PADDING)
            <==> CountedFrom(lens, n, count, most)
    decreases |lens| - n
  {
    if n < |lens| {
      hide Flush, Scan, CountedFrom, Longest, Shortest;
      ScanOne(lens, n, count, prev, most, least, SENTINEL);
      ScanOne(lens, n, count, prev, most, least, PADDING);
      if n + 1 < |lens| {
        var cur, next := lens[n], lens[n + 1];
        if GoesOn(lens, n, count, most, PADDING) {
          ScansAgree(lens, n + 1, count + 1, prev, most, least);
          CountedGoesOn(lens, n, count, most);
        } else {
          LimitPositive(cur, next);
          ScansAgree(lens, n + 1, 0, cur, Longest(cur, next), Shortest(cur, next));
          CountedRestarts(lens, n, count, most);
          SameFront(Flush(cur, count + 1, prev, least), Scan(lens, n + 1, 0, cur, Longest(cur, next), Shortest(cur, next), SENTINEL),
                    Scan(lens, n + 1, 0, cur, Longest(cur, next), Shortest(cur, next), PADDING));
        }
      } else {
        CountedAtEnd(lens, n, count, most);
        FlushNotEmpty(lens[n], count + 1, prev, least);
        ScanAtEnd(lens);
      }
    }
  }

  lemma LimitPositive(cur: nat, next: nat)
    ensures Longest(cur, next) > 0
  {
  }

  lemma ScanAtEnd(lens: seq<nat>)
    ensures forall count, prev, most, least, sentinel :: Scan(lens, |lens|, count, prev, most, least, sentinel) == []
  {
  }

  // The tokens counted are the tokens sent exactly if the lengths do not end in a run of 15s that
  // leaves some of them held back.
  lemma CountedAreSent(lens: seq<nat>)
    requires lens != [] ==> lens[|lens| - 1] != PADDING
    ensures Tokens(lens, SENTINEL) == Tokens(lens, PADDING) <==> Counted(lens)
  {
    ScansAgree(lens, 0, 0, -1, FirstLongest(lens), FirstShortest(lens));
    TrailingBound(lens);
    if lens != [] { TrailingEqual(lens, 0); }
    hide Scan, TrailingRun;
  }

  // ---------- genBitLenFreq ----------

  function Symbol(t: Token): nat {
    match t
    case Len(l) => l
    case Again(n) => 16
    case Zeros(n) => 17
    case ManyZeros(n) => 18
  }

  function Symbols(toks: seq<Token>): (r: seq<nat>)
    ensures |r| == |toks|
  {
    if toks == [] then [] else [Symbol(toks[0])] + Symbols(toks[1..])
  }

  lemma {:induction false} SymbolsConcat(a: seq<Token>, b: seq<Token>)
    ensures Symbols(a + b) == Symbols(a) + Symbols(b)
  {
    if a == [] {
      assert a + b == b;
    } else {
      assert (a + b)[1..] == a[1..] + b;
      SymbolsConcat(a[1..], b);
      hide Symbol;
    }
  }

  // How often symbol x occurs among the tokens.
  function Uses(toks: seq<Token>, x: nat): nat {
    Count(Symbols(toks), x)
  }

  lemma UsesConcat(a: seq<Token>, b: seq<Token>, x: nat)
    ensures Uses(a + b, x) == Uses(a, x) + Uses(b, x)
  {
    SymbolsConcat(a, b);
    CountConcat(Symbols(a), Symbols(b), x);
  }

  lemma UsesOne(t: Token, x: nat)
    ensures Uses([t], x) == if Symbol(t) == x then 1 else 0
  {
    hide Symbol;
    assert [t][1..] == [] && Symbols([]) == [];
    var s := [Symbol(t)];
    assert Symbols([t]) == s && s[1..] == [];
    assert Count(s, x) == (if s[0] == x then 1 else 0) + Count([], x);
  }

  lemma {:induction false} UsesSingles(l: nat, n: nat, x: nat)
    ensures Uses(Singles(l, n), x) == if l == x then n else 0
  {
    if n > 0 {
      UsesSingles(l, n - 1, x);
      UsesConcat(Singles(l, n - 1), [Len(l)], x);
      UsesOne(Len(l), x);
    }
  }

  lemma UsesTwo(a: Token, b: Token, x: nat)
    ensures Uses([a, b], x) == (if Symbol(a) == x then 1 else 0) + (if Symbol(b) == x then 1 else 0)
  {
    assert [a, b] == [a] + [b];
    UsesConcat([a], [b], x);
    UsesOne(a, x);
    UsesOne(b, x);
  }

  // What a flush adds to the frequencies.
  function Added(cur: nat, count: nat, prev: int, least: nat, x: nat): nat {
    if count < least then (if x == cur then count else 0)
    else if cur != 0 then (if cur != prev && x == cur then 1 else 0) + (if x == 16 then 1 else 0)
    else if count <= 10 then (if x == 17 then 1 else 0)
    else (if x == 18 then 1 else 0)
  }

  lemma FlushUses(cur: nat, count: nat, prev: int, least: nat, x: nat)
    ensures Uses(Flush(cur, count, prev, least), x) == Added(cur, count, prev, least, x)
  {
    hide Uses, Symbols, Count;
    if count < least {
      UsesSingles(cur, count, x);
    } else if cur != 0 && cur != prev {
      UsesTwo(Len(cur), Again(if count > 0 then count - 1 else 0), x);
    } else {
      UsesOne(Flush(cur, count, prev, least)[0], x);
    }
  }

  datatype Freqs = Freqs(len: seq<nat>, again: nat, zeros: nat, manyZeros: nat)

  function Freq(f: Freqs, x: nat): nat
    requires |f.len| == 19
  {
    if x < 16 then f.len[x] else if x == 16 then f.again else if x == 17 then f.zeros else if x == 18 then f.manyZeros else 0
  }

  // Counted so far and still to be counted make up the whole.
  ghost predicate Counting(f: Freqs, rest: seq<Token>, total: seq<Token>, f0: Freqs) {
    |f.len| == |f0.len| == 19 && forall x :: 0 <= x < 19 ==> Freq(f, x) + Uses(rest, x) == Freq(f0, x) + Uses(total, x)
  }

  lemma CountingFlush(f: Freqs, f': Freqs, cur: nat, count: nat, prev: int, least: nat, rest: seq<Token>, total: seq<Token>, f0: Freqs)
    requires Counting(f, Flush(cur, count, prev, least) + rest, total, f0) && |f'.len| == 19
    requires forall x :: 0 <= x < 19 ==> Freq(f', x) == Freq(f, x) + Added(cur, count, prev, least, x)
    ensures Counting(f', rest, total, f0)
  {
    hide Freq, Added, Flush, Uses;
    forall x | 0 <= x < 19 ensures Freq(f', x) + Uses(rest, x) == Freq(f0, x) + Uses(total, x) {
      UsesConcat(Flush(cur, count, prev, least), rest, x);
      FlushUses(cur, count, prev, least, x);
    }
  }

  method AddFlush(f: Freqs, cur: nat, count: nat, prev: int, least: nat) returns (f': Freqs)
    requires |f.len| == 19 && cur < 16
    ensures |f'.len| == 19 && forall x :: 0 <= x < 19 ==> Freq(f', x) == Freq(f, x) + Added(cur, count, prev, least, x)
  {
    f' := f;
    if count < least {
      f' := f'.(len := f'.len[cur := f'.len[cur] + count]);
    } else if cur != 0 {
      if cur != prev { f' := f'.(len := f'.len[cur := f'.len[cur] + 1]); }
      f' := f'.(again := f'.again + 1);
    } else if count <= 10 {
      f' := f'.(zeros := f'.zeros + 1);
    } else {
      f' := f'.(manyZeros := f'.manyZeros + 1);
    }
  }

  method CountTree(lens: seq<nat>, f0: Freqs) returns (f: Freqs)
    requires |f0.len| == 19 && lens != [] && AtMost(lens, 15)
    ensures Counting(f, [], Tokens(lens, SENTINEL), f0)
  {
    f := f0;
    ghost var total := Tokens(lens, SENTINEL);
    hide Flush, Freq, Uses, Scan;
    var prevlen: int, count: nat, most: nat, least: nat := -1, 0, 7, 4;
    var nextlen := lens[0];
    if nextlen == 0 { most, least := 138, 3; }
    var n := 0;
    while n < |lens|
      invariant 0 <= n <= |lens| && (n < |lens| ==> nextlen == lens[n])
      invariant Counting(f, Scan(lens, n, count, prevlen, most, least, SENTINEL), total, f0)
    {
      ScanOne(lens, n, count, prevlen, most, least, SENTINEL);
      var curlen := nextlen;
      nextlen := if n + 1 == |lens| then SENTINEL else lens[n + 1];
      count := count + 1;
      if !(count < most && curlen == nextlen) {
        var f1 := f;
        f := AddFlush(f1, curlen, count, prevlen, least);
        CountingFlush(f1, f, curlen, count, prevlen, least,
                      Scan(lens, n + 1, 0, curlen, Longest(curlen, nextlen), Shortest(curlen, nextlen), SENTINEL), total, f0);
        count := 0;
        prevlen := curlen;
        if nextlen == 0 {
          most, least := 138, 3;
        } else if curlen == nextlen {
          most, least := 6, 3;
        } else {
          most, least := 7, 4;
        }
      }
      n := n + 1;
    }
    ScanAtEnd(lens);
  }

  // The frequencies of the code-length symbols: those of the tokens of both trees.
  method GenBitLenFreq(lit: seq<nat>, dist: seq<nat>) returns (freq: seq<nat>)
    requires lit != [] && dist != [] && AtMost(lit, 15) && AtMost(dist, 15)
    ensures |freq| == 19
    ensures forall x :: 0 <= x < 19 ==> freq[x] == Uses(Tokens(lit, SENTINEL) + Tokens(dist, SENTINEL), x)
  {
    var f0 := Freqs([0, 0, 0, 0, 0, 0, 0, 0, 0, 0, 0, 0, 0, 0, 0, 0, 0, 0, 0], 0, 0, 0);
    assert forall x :: 0 <= x < 19 ==> Freq(f0, x) == 0;
    var f1 := CountTree(lit, f0);
    var f2 := CountTree(dist, f1);
    hide Tokens;
    BothTrees(f0, f1, f2, Tokens(lit, SENTINEL), Tokens(dist, SENTINEL));
    hide Uses, Counting;
    freq := f2.len[16 := f2.again];
    freq := freq[17 := f2.zeros];
    freq := freq[18 := f2.manyZeros];
  }

  lemma BothTrees(f0: Freqs, f1: Freqs, f2: Freqs, a: seq<Token>, b: seq<Token>)
    requires Counting(f1, [], a, f0) && Counting(f2, [], b, f1) && forall x :: 0 <= x < 19 ==> Freq(f0, x) == 0
    ensures |f2.len| == 19 && forall x :: 0 <= x < 19 ==> Freq(f2, x) == Uses(a + b, x)
  {
    hide Freq;
    forall x | 0 <= x < 19 ensures Freq(f2, x) == Uses(a + b, x) {
      UsesConcat(a, b, x);
      assert Uses([], x) == 0;
    }
  }

  // So every token sent has been counted.
  lemma {:induction false} SentAreCounted(toks: seq<Token>, k: nat)
    requires k < |toks|
    ensures Uses(toks, Symbol(toks[k])) > 0
  {
    hide Symbol;
    if k > 0 {
      SentAreCounted(toks[1..], k - 1);
      assert Symbols(toks)[1..] == Symbols(toks[1..]);
    }
  }

  // ---------- What the counting pass loses ----------

  // The tokens for what the counting pass still holds back when the list ends.
  function HeldAtEnd(lens: seq<nat>, n: nat, count: nat, prev: int, most: nat, least: nat): seq<Token>
    requires n <= |lens|
    decreases |lens| - n
  {
    if n == |lens| then []
    else
      var cur, next := lens[n], Next(lens, n, SENTINEL);
      if !GoesOn(lens, n, count, most, SENTINEL) then HeldAtEnd(lens, n + 1, 0, cur, Longest(cur, next), Shortest(cur, next))
      else if n + 1 < |lens| then HeldAtEnd(lens, n + 1, count + 1, prev, most, least)
      else Flush(cur, count + 1, prev, least)
  }

  function Lost(lens: seq<nat>): seq<Token> {
    HeldAtEnd(lens, 0, 0, -1, FirstLongest(lens), FirstShortest(lens))
  }

  lemma {:induction false} ScanLoses(lens: seq<nat>, n: nat, count: nat, prev: int, most: nat, least: nat)
    requires n <= |lens| && (lens != [] ==> lens[|lens| - 1] != PADDING)
    ensures Scan(lens, n, count, prev, most, least, PADDING)
            == Scan(lens, n, count, prev, most, least, SENTINEL) + HeldAtEnd(lens, n, count, prev, most, least)
    decreases |lens| - n
  {
    if n < |lens| {
      hide Flush, Scan, Longest, Shortest;
      ScanOne(lens, n, count, prev, most, least, SENTINEL);
      ScanOne(lens, n, count, prev, most, least, PADDING);
      if n + 1 < |lens| {
        var cur, next := lens[n], lens[n + 1];
        if GoesOn(lens, n, count, most, PADDING) {
          ScanLoses(lens, n + 1, count + 1, prev, most, least);
        } else {
          ScanLoses(lens, n + 1, 0, cur, Longest(cur, next), Shortest(cur, next));
        }
      } else {
        ScanAtEnd(lens);
      }
    }
  }

  // The tokens sent are the tokens counted and the tokens lost.
  lemma SentAndLost(lens: seq<nat>)
    requires lens != [] ==> lens[|lens| - 1] != PADDING
    ensures Tokens(lens, PADDING) == Tokens(lens, SENTINEL) + Lost(lens)
  {
    ScanLoses(lens, 0, 0, -1, FirstLongest(lens), FirstShortest(lens));
  }

  ghost predicate AllFifteen(lens: seq<nat>, n: nat) {
    forall i :: n <= i < |lens| ==> lens[i] == SENTINEL
  }

  // Inside the last run, the copies counted off go out in one flush of most and then six at a time.
  lemma {:induction false} HeldInRun(lens: seq<nat>, n: nat, count: nat, prev: int, most: nat, least: nat)
    requires n < |lens| && AllFifteen(lens, n) && count < most
    ensures var c := count + (|lens| - n);
            HeldAtEnd(lens, n, count, prev, most, least)
            == if c < most then Flush(SENTINEL, c, prev, least)
               else if (c - most) % 6 == 0 then [] else Flush(SENTINEL, (c - most) % 6, SENTINEL, 3)
    decreases |lens| - n
  {
    hide Flush;
    if n + 1 < |lens| {
      if count + 1 < most {
        HeldInRun(lens, n + 1, count + 1, prev, most, least);
      } else {
        HeldInRun(lens, n + 1, 0, SENTINEL, 6, 3);
      }
    }
  }

  // What a last run of t lengths of 15 loses.
  function LostOf(t: nat): seq<Token> {
    if t < 7 then Flush(SENTINEL, t, -1, 4)
    else if RunsOut(t) then []
    else Flush(SENTINEL, (t - 7) % 6, SENTINEL, 3)
  }

  lemma OtherLast(t: nat, prev: int)
    requires prev != SENTINEL
    ensures Flush(SENTINEL, t, prev, 4) == Flush(SENTINEL, t, -1, 4)
  {
  }

  lemma {:induction false} HeldBefore(lens: seq<nat>, n: nat, count: nat, prev: int, most: nat, least: nat)
    requires lens != [] && lens[|lens| - 1] == SENTINEL && n + TrailingRun(lens) < |lens|
    ensures HeldAtEnd(lens, n, count, prev, most, least) == LostOf(TrailingRun(lens))
    decreases |lens| - n
  {
    TrailingBound(lens);
    var t := TrailingRun(lens);
    TrailingEqual(lens, n);
    TrailingEqual(lens, n + 1);
    hide TrailingRun, Flush;
    if n + 1 + t < |lens| {
      if GoesOn(lens, n, count, most, SENTINEL) {
        HeldBefore(lens, n + 1, count + 1, prev, most, least);
      } else {
        HeldBefore(lens, n + 1, 0, lens[n], Longest(lens[n], lens[n + 1]), Shortest(lens[n], lens[n + 1]));
      }
    } else {
      HeldInRun(lens, n + 1, 0, lens[n], 7, 4);
      OtherLast(t, lens[n]);
    }
  }

  lemma {:induction false} NothingHeld(lens: seq<nat>, n: nat, count: nat, prev: int, most: nat, least: nat)
    requires n <= |lens| && (lens != [] ==> lens[|lens| - 1] != SENTINEL)
    ensures HeldAtEnd(lens, n, count, prev, most, least) == []
    decreases |lens| - n
  {
    if n + 1 < |lens| {
      hide Flush;
      NothingHeld(lens, n + 1, count + 1, prev, most, least);
      NothingHeld(lens, n + 1, 0, lens[n], Longest(lens[n], lens[n + 1]), Shortest(lens[n], lens[n + 1]));
    }
  }

  lemma LostIs(lens: seq<nat>)
    ensures Lost(lens) == if lens == [] || lens[|lens| - 1] != SENTINEL then [] else LostOf(TrailingRun(lens))
  {
    hide HeldAtEnd, TrailingRun, Flush;
    if lens == [] || lens[|lens| - 1] != SENTINEL {
      NothingHeld(lens, 0, 0, -1, FirstLongest(lens), FirstShortest(lens));
    } else {
      TrailingBound(lens);
      TrailingEqual(lens, 0);
      if TrailingRun(lens) < |lens| {
        HeldBefore(lens, 0, 0, -1, FirstLongest(lens), FirstShortest(lens));
      } else {
        HeldInRun(lens, 0, 0, -1, 7, 4);
      }
    }
  }

  // ---------- Which tokens sent have been counted ----------

  ghost predicate Serves(counted: seq<Token>, toks: seq<Token>) {
    forall k :: 0 <= k < |toks| ==> Uses(counted, Symbol(toks[k])) > 0
  }

  lemma ServesConcat(counted: seq<Token>, a: seq<Token>, b: seq<Token>)
    ensures Serves(counted, a + b) <==> Serves(counted, a) && Serves(counted, b)
  {
    hide Uses, Symbol;
    if Serves(counted, a + b) {
      forall k | 0 <= k < |a| ensures Uses(counted, Symbol(a[k])) > 0 { assert (a + b)[k] == a[k]; }
      forall k | 0 <= k < |b| ensures Uses(counted, Symbol(b[k])) > 0 { assert (a + b)[|a| + k] == b[k]; }
    }
  }

  lemma ServesPart(a: seq<Token>, b: seq<Token>)
    ensures Serves(a + b, a) && Serves(a + b, b)
  {
    hide Uses, Symbol;
    forall k | 0 <= k < |a| ensures Uses(a + b, Symbol(a[k])) > 0 {
      SentAreCounted(a, k);
      UsesConcat(a, b, Symbol(a[k]));
    }
    forall k | 0 <= k < |b| ensures Uses(a + b, Symbol(b[k])) > 0 {
      SentAreCounted(b, k);
      UsesConcat(a, b, Symbol(b[k]));
    }
  }

  lemma {:induction false} ServesSingles(counted: seq<Token>, l: nat, n: nat)
    ensures Serves(counted, Singles(l, n)) <==> n == 0 || Uses(counted, l) > 0
  {
    if n > 0 {
      ServesSingles(counted, l, n - 1);
      ServesConcat(counted, Singles(l, n - 1), [Len(l)]);
      hide Uses;
      assert Serves(counted, [Len(l)]) <==> Uses(counted, l) > 0 by {
        assert [Len(l)][0] == Len(l);
      }
    }
  }

  lemma ServesFlush(counted: seq<Token>, count: nat, prev: int, least: nat)
    requires count > 0
    ensures Serves(counted, Flush(SENTINEL, count, prev, least))
            <==> ((count < least || prev != SENTINEL ==> Uses(counted, 15) > 0) && (count >= least ==> Uses(counted, 16) > 0))
  {
    ServesSingles(counted, SENTINEL, count);
    hide Uses, Singles;
    if count >= least {
      var f := Flush(SENTINEL, count, prev, least);
      assert prev != SENTINEL ==> Symbol(f[0]) == 15 && Symbol(f[1]) == 16;
      assert prev == SENTINEL ==> Symbol(f[0]) == 16;
    }
  }

  // A last run of seven or more counts its length and a repetition.
  lemma {:induction false} RunIsCounted(lens: seq<nat>, n: nat, count: nat, prev: int)
    requires n < |lens| && AllFifteen(lens, n) && count < 7 <= count + (|lens| - n) && prev != SENTINEL
    ensures var toks := Scan(lens, n, count, prev, 7, 4, SENTINEL); Uses(toks, 15) > 0 && Uses(toks, 16) > 0
    decreases |lens| - n
  {
    ScanOne(lens, n, count, prev, 7, 4, SENTINEL);
    hide Scan, Uses, Flush;
    if count + 1 < 7 {
      RunIsCounted(lens, n + 1, count + 1, prev);
    } else {
      var rest := Scan(lens, n + 1, 0, 15, 6, 3, SENTINEL);
      UsesConcat(Flush(15, 7, prev, 4), rest, 15);
      UsesConcat(Flush(15, 7, prev, 4), rest, 16);
      FlushUses(15, 7, prev, 4, 15);
      FlushUses(15, 7, prev, 4, 16);
    }
  }

  lemma {:induction false} LongRunCounted(lens: seq<nat>, n: nat, count: nat, prev: int, most: nat, least: nat)
    requires lens != [] && lens[|lens| - 1] == SENTINEL && n + TrailingRun(lens) < |lens| && TrailingRun(lens) >= 7
    ensures var toks := Scan(lens, n, count, prev, most, least, SENTINEL); Uses(toks, 15) > 0 && Uses(toks, 16) > 0
    decreases |lens| - n
  {
    TrailingEqual(lens, n);
    TrailingEqual(lens, n + 1);
    ScanOne(lens, n, count, prev, most, least, SENTINEL);
    var t, cur, next := TrailingRun(lens), lens[n], lens[n + 1];
    hide TrailingRun, Flush, Scan, Uses;
    if GoesOn(lens, n, count, most, SENTINEL) {
      LongRunCounted(lens, n + 1, count + 1, prev, most, least);
    } else {
      var rest := Scan(lens, n + 1, 0, cur, Longest(cur, next), Shortest(cur, next), SENTINEL);
      if n + 1 + t < |lens| {
        LongRunCounted(lens, n + 1, 0, cur, Longest(cur, next), Shortest(cur, next));
      } else {
        RunIsCounted(lens, n + 1, 0, cur);
      }
      UsesConcat(Flush(cur, count + 1, prev, least), rest, 15);
      UsesConcat(Flush(cur, count + 1, prev, least), rest, 16);
    }
  }

  lemma LongRunServes(lens: seq<nat>)
    requires lens != [] && lens[|lens| - 1] == SENTINEL && TrailingRun(lens) >= 7
    ensures Uses(Tokens(lens, SENTINEL), 15) > 0 && Uses(Tokens(lens, SENTINEL), 16) > 0
  {
    TrailingBound(lens);
    TrailingEqual(lens, 0);
    hide TrailingRun, Scan, Uses;
    if TrailingRun(lens) < |lens| {
      LongRunCounted(lens, 0, 0, -1, FirstLongest(lens), FirstShortest(lens));
    } else {
      RunIsCounted(lens, 0, 0, -1);
    }
  }

  // Whether the symbols of what is lost are counted somewhere: a last run of fewer than seven 15s
  // needs another 15, and from four on another repetition.
  predicate Kept(lens: seq<nat>, counted: seq<Token>) {
    || lens == [] || lens[|lens| - 1] != SENTINEL || TrailingRun(lens) >= 7
    || (Uses(counted, 15) > 0 && (TrailingRun(lens) >= 4 ==> Uses(counted, 16) > 0))
  }

  lemma CountedIsKept(lens: seq<nat>, counted: seq<Token>)
    requires Counted(lens)
    ensures Kept(lens, counted)
  {
    hide TrailingRun, Uses;
  }

  lemma KeptExactly(lens: seq<nat>, counted: seq<Token>)
    requires TrailingRun(lens) >= 7 && lens[|lens| - 1] == SENTINEL ==> Uses(counted, 15) > 0 && Uses(counted, 16) > 0
    ensures Serves(counted, Lost(lens)) <==> Kept(lens, counted)
  {
    LostIs(lens);
    TrailingBound(lens);
    hide Flush, Uses, Lost, TrailingRun;
    if lens != [] && lens[|lens| - 1] == SENTINEL {
      var t := TrailingRun(lens);
      if t < 7 {
        ServesFlush(counted, t, -1, 4);
      } else if !RunsOut(t) {
        ServesFlush(counted, (t - 7) % 6, SENTINEL, 3);
      }
    }
  }

  // Every token sent for the two trees has a symbol that was counted exactly if what either tree
  // loses is counted elsewhere.
  lemma SentServed(lit: seq<nat>, dist: seq<nat>)
    requires lit != [] ==> lit[|lit| - 1] != PADDING
    requires dist != [] ==> dist[|dist| - 1] != PADDING
    ensures var counted := Tokens(lit, SENTINEL) + Tokens(dist, SENTINEL);
            Serves(counted, Tokens(lit, PADDING) + Tokens(dist, PADDING)) <==> Kept(lit, counted) && Kept(dist, counted)
  {
    hide Scan, Serves, Lost, Tokens, Uses, TrailingRun, Kept;
    var a, b := Tokens(lit, SENTINEL), Tokens(dist, SENTINEL);
    SentAndLost(lit);
    SentAndLost(dist);
    ServesPart(a, b);
    ServesConcat(a + b, a, Lost(lit));
    ServesConcat(a + b, b, Lost(dist));
    ServesConcat(a + b, Tokens(lit, PADDING), Tokens(dist, PADDING));
    RunCountedToo(lit, a, b);
    RunCountedToo(dist, a, b);
    KeptExactly(lit, a + b);
    KeptExactly(dist, a + b);
  }

  lemma RunCountedToo(lens: seq<nat>, a: seq<Token>, b: seq<Token>)
    requires Tokens(lens, SENTINEL) == a || Tokens(lens, SENTINEL) == b
    ensures TrailingRun(lens) >= 7 && lens[|lens| - 1] == SENTINEL ==> Uses(a + b, 15) > 0 && Uses(a + b, 16) > 0
  {
    TrailingBound(lens);
    hide TrailingRun, Scan, Uses;
    if TrailingRun(lens) >= 7 && lens[|lens| - 1] == SENTINEL { LongRunServes(lens); }
    UsesConcat(a, b, 15);
    UsesConcat(a, b, 16);
  }

  // ---------- A distance tree whose longest codes are lost ----------

  // The lengths of a complete code in which every length occurs once and the longest twice.
  function Ladder(): seq<nat> {
    [1, 2, 3, 4, 5, 6, 7, 8, 9, 10, 11, 12, 13, 14, 15, 15]
  }

  lemma {:induction false} LadderScan(n: nat, prev: int)
    requires n <= 14
    ensures Uses(Scan(Ladder(), n, 0, prev, 7, 4, SENTINEL), 15) == 0
    decreases 14 - n
  {
    var l := Ladder();
    ScanOne(l, n, 0, prev, 7, 4, SENTINEL);
    if n < 14 {
      LadderRung(n);
      hide Scan, Uses, Flush, Ladder;
      LadderScan(n + 1, l[n]);
      UsesConcat(Flush(l[n], 1, prev, 4), Scan(l, n + 1, 0, l[n], 7, 4, SENTINEL), 15);
      FlushUses(l[n], 1, prev, 4, 15);
    } else {
      ScanOne(l, 15, 1, prev, 7, 4, SENTINEL);
      ScanAtEnd(l);
      hide Scan;
    }
  }

  lemma LadderRung(n: nat)
    requires n < 14
    ensures |Ladder()| == 16 && Ladder()[n] == n + 1 && Ladder()[n + 1] == n + 2
  {
  }

  lemma LadderTop()
    ensures Ladder()[15] == 15 && TrailingRun(Ladder()) == 2 && FirstLongest(Ladder()) == 7 && FirstShortest(Ladder()) == 4
  {
    TrailingEqual(Ladder(), 14);
    TrailingEqual(Ladder(), 13);
    hide TrailingRun;
  }

  // The two codes of 15 bits are sent and not counted, so unless the literal tree has one of that
  // length too, 15 is left without a code.
  lemma LostFifteen(lit: seq<nat>)
    requires Uses(Tokens(lit, SENTINEL), 15) == 0
    ensures Kraft(Ladder(), 15) == Pow2(15)
    ensures !Counted(Ladder()) && Tokens(Ladder(), PADDING) == Tokens(Ladder(), SENTINEL) + [Len(15), Len(15)]
    ensures Uses(Tokens(lit, SENTINEL) + Tokens(Ladder(), SENTINEL), 15) == 0
  {
    LadderTop();
    SentAndLost(Ladder());
    LostIs(Ladder());
    LadderScan(0, -1);
    TwoSingles();
    LadderKraft(0);
    assert Ladder()[0..] == Ladder();
    hide Ladder, Scan, Uses, TrailingRun, Lost;
    UsesConcat(Tokens(lit, SENTINEL), Tokens(Ladder(), SENTINEL), 15);
  }

  lemma TwoSingles()
    ensures LostOf(2) == [Len(15), Len(15)]
  {
    assert Singles(15, 2) == Singles(15, 1) + [Len(15)];
    assert Singles(15, 1) == Singles(15, 0) + [Len(15)];
  }

  lemma {:induction false} LadderKraft(n: nat)
    requires n <= 14
    ensures Kraft(Ladder()[n..], 15) == Pow2(15 - n)
    decreases 14 - n
  {
    var l := Ladder();
    assert l[n..][1..] == l[n + 1..];
    if n < 14 {
      LadderRung(n);
      hide Ladder;
      LadderKraft(n + 1);
    } else {
      assert l[15..] == [15] && [15][1..] == [];
      assert Pow2(1) == 2;
    }
  }
}
