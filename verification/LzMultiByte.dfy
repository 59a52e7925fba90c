// The wide decompressor: a whole word of literals or match bytes per step. The history lives in
// two banks of words, in a few registers for near sources and in memory for far ones.

module LzMultiByte {
  import opened LzCore
  import opened Modular
  import opened WideCopy
  import opened LzPreProcess

  type Wide = seq<Byte>   // p bytes, lowest first

  // p bytes per word; ramWords words per bank of the memory; the index width holds `wraps` turns.
  datatype Geometry = Geometry(p: nat, ramWords: nat, wraps: nat) {
    ghost predicate Valid() {
      1 <= p <= 8 && ramWords > 0 && ramWords % 4 == 0 && wraps > 0
    }

    function IndexWords(): nat { 2 * (ramWords * wraps) }

    function Wrap(): nat { p * IndexWords() }

    // The history less one word.
    ghost function Far(): nat
      requires Valid()
    {
      p * FarWords()
    }

    ghost function FarWords(): nat
      requires Valid()
    {
      2 * ramWords - 1
    }
  }

  const REG_WORDS: nat := 4

  // ---------- Words and bytes ----------

  ghost predicate AllWide(ws: seq<Wide>, p: nat) {
    forall k :: 0 <= k < |ws| ==> |ws[k]| == p
  }

  function Flat(ws: seq<Wide>): seq<Byte> {
    if ws == [] then [] else Flat(ws[..|ws| - 1]) + ws[|ws| - 1]
  }

  lemma FlatAppend(ws: seq<Wide>, w: Wide)
    ensures Flat(ws + [w]) == Flat(ws) + w
  {
    assert (ws + [w])[..|ws|] == ws;
  }

  lemma {:induction false} FlatLength(ws: seq<Wide>, p: nat)
    requires AllWide(ws, p)
    ensures |Flat(ws)| == p * |ws|
  {
    if ws != [] {
      FlatLength(ws[..|ws| - 1], p);
      OneMore(p, |ws|);
    }
  }

  lemma OneMore(p: nat, n: nat)
    requires n > 0
    ensures p * n == p * (n - 1) + p
  {
  }

  lemma {:induction false} FlatAt(ws: seq<Wide>, p: nat, x: nat, b: nat)
    requires AllWide(ws, p) && x < |ws| && b < p
    ensures p * x + b < |Flat(ws)| && Flat(ws)[p * x + b] == ws[x][b]
    decreases |ws|
  {
    var z := |ws| - 1;
    FlatLength(ws[..z], p);
    if x < z { FlatAt(ws[..z], p, x, b); }
  }

  // Byte b of word x, where the last word may be under way.
  lemma ByteAt(full: seq<Wide>, part: seq<Byte>, p: nat, x: nat, b: nat)
    requires AllWide(full, p) && x <= |full| && b < p && (x == |full| ==> b < |part|)
    ensures p * x + b < |Flat(full)| + |part|
    ensures (Flat(full) + part)[p * x + b] == if x < |full| then full[x][b] else part[b]
  {
    FlatLength(full, p);
    if x < |full| { FlatAt(full, p, x, b); }
  }

  // What a memory says about word x.
  ghost predicate Agrees(v: Wide, full: seq<Wide>, part: seq<Byte>, x: nat) {
    && (x < |full| ==> v == full[x])
    && (x == |full| ==> part <= v)
  }

  lemma PositionOfByte(full: seq<Wide>, part: seq<Byte>, p: nat, x: nat, b: nat)
    requires AllWide(full, p) && |part| < p && b < p && p * x + b < |Flat(full)| + |part|
    ensures x <= |full| && (x == |full| ==> b < |part|)
  {
    FlatLength(full, p);
    OneMore(p, |full| + 1);
    if x > |full| { Mono(p, |full| + 1, x); }
  }

  lemma NextWord(p: nat, x: nat)
    ensures p * (x + 1) == p * x + p
  {
  }

  // Two consecutive words give the source of a match.
  lemma SourceBytes(full: seq<Wide>, part: seq<Byte>, p: nat, x: nat, b: nat, n: nat, low: Wide, high: Wide)
    requires AllWide(full, p) && |part| < p && b < p && n <= p && |low| == p && |high| == p
    requires Agrees(low, full, part, x) && Agrees(high, full, part, x + 1)
    requires p * x + b + n <= |Flat(full)| + |part|
    ensures (low + high)[b..b + n] == (Flat(full) + part)[p * x + b..p * x + b + n]
  {
    hide Flat, Agrees, AllWide;
    var out, s := Flat(full) + part, p * x + b;
    forall k | 0 <= k < n ensures SameAt(low + high, b, out, s, k) {
      SourceByte(full, part, p, x, b + k, low, high);
    }
    SameSlices(low + high, b, out, s, n);
  }

  ghost predicate SameAt(u: seq<Byte>, i: nat, v: seq<Byte>, j: nat, k: nat) {
    i + k < |u| && j + k < |v| && u[i + k] == v[j + k]
  }

  lemma {:induction false} SameSlices(u: seq<Byte>, i: nat, v: seq<Byte>, j: nat, n: nat)
    requires forall k :: 0 <= k < n ==> SameAt(u, i, v, j, k)
    requires i + n <= |u| && j + n <= |v|
    ensures u[i..i + n] == v[j..j + n]
    decreases n
  {
    if n > 0 {
      SameSlices(u, i, v, j, n - 1);
      assert SameAt(u, i, v, j, n - 1);
      assert u[i..i + n] == u[i..i + n - 1] + [u[i + n - 1]];
      assert v[j..j + n] == v[j..j + n - 1] + [v[j + n - 1]];
    }
  }

  lemma SourceByte(full: seq<Wide>, part: seq<Byte>, p: nat, x: nat, c: nat, low: Wide, high: Wide)
    requires AllWide(full, p) && |part| < p && c < 2 * p && |low| == p && |high| == p
    requires Agrees(low, full, part, x) && Agrees(high, full, part, x + 1)
    requires p * x + c < |Flat(full)| + |part|
    ensures (low + high)[c] == (Flat(full) + part)[p * x + c]
  {
    if c < p {
      PositionOfByte(full, part, p, x, c);
      ByteAt(full, part, p, x, c);
    } else {
      NextWord(p, x);
      PositionOfByte(full, part, p, x + 1, c - p);
      ByteAt(full, part, p, x + 1, c - p);
    }
  }

  // ---------- Two banks ----------

  // Word x lies in the bank of its parity.
  function View(even: seq<Wide>, odd: seq<Wide>, x: nat): Wide
    requires |even| == |odd| > 0
  {
    if x % 2 == 0 then even[x / 2 % |even|] else odd[x / 2 % |odd|]
  }

  datatype Banks = Banks(even: seq<Wide>, odd: seq<Wide>)

  function Put(m: Banks, x: nat, w: Wide): (r: Banks)
    requires |m.even| == |m.odd| > 0
    ensures |r.even| == |r.odd| == |m.even|
  {
    if x % 2 == 0 then m.(even := m.even[x / 2 % |m.even| := w]) else m.(odd := m.odd[x / 2 % |m.odd| := w])
  }

  ghost predicate Shaped(m: Banks, n: nat, p: nat) {
    |m.even| == |m.odd| == n && AllWide(m.even, p) && AllWide(m.odd, p)
  }

  lemma PutShape(m: Banks, x: nat, w: Wide, n: nat, p: nat)
    requires Shaped(m, n, p) && n > 0 && |w| == p
    ensures Shaped(Put(m, x, w), n, p)
  {
  }

  lemma ViewWide(m: Banks, x: nat, n: nat, p: nat)
    requires Shaped(m, n, p) && n > 0
    ensures |View(m.even, m.odd, x)| == p
  {
  }

  lemma ViewPut(m: Banks, x: nat, w: Wide, y: nat)
    requires |m.even| == |m.odd| > 0 && y < x + 2 * |m.even| && x < y + 2 * |m.even|
    ensures View(Put(m, x, w).even, Put(m, x, w).odd, y) == if y == x then w else View(m.even, m.odd, y)
  {
    var n := |m.even|;
    if x % 2 == y % 2 {
      if x < y { SlotsApart(x / 2, y / 2, n); }
      if y < x { SlotsApart(y / 2, x / 2, n); }
    }
  }

  lemma SlotsApart(j: nat, i: nat, n: nat)
    requires n > 0 && j < i < j + n
    ensures j % n != i % n
  {
    QuotientRemainder(j, n);
    QuotientRemainder(i, n);
    MultiplesApart(n, j / n, i / n);
  }

  lemma ViewSame(m: Banks, x: nat, y: nat)
    requires |m.even| == |m.odd| > 0 && SameSlots(x, y, |m.even|)
    ensures View(m.even, m.odd, x) == View(m.even, m.odd, y)
    ensures View(m.even, m.odd, x + 1) == View(m.even, m.odd, y + 1)
  {
  }

  lemma PutSame(m: Banks, x: nat, y: nat, w: Wide)
    requires |m.even| == |m.odd| > 0 && SameSlots(x, y, |m.even|)
    ensures Put(m, x, w) == Put(m, y, w) && Put(m, x + 1, w) == Put(m, y + 1, w)
  {
  }

  // ---------- What the memories remember ----------

  // The registers hold the last six words, the word under way, and room for the one after it.
  ghost predicate RegHolds(m: Banks, full: seq<Wide>, part: seq<Byte>) {
    && |m.even| == |m.odd| == REG_WORDS
    && (forall x :: 0 <= x < |full| <= x + 6 ==> View(m.even, m.odd, x) == full[x])
    && (part != [] ==> part <= View(m.even, m.odd, |full|))
  }

  // The memory holds all the words it has room for, but one.
  ghost predicate RamHolds(m: Banks, full: seq<Wide>) {
    && |m.even| == |m.odd| > 0
    && forall x :: 0 <= x < |full| < x + 2 * |m.even| ==> View(m.even, m.odd, x) == full[x]
  }

  lemma RegKeeps(m: Banks, full: seq<Wide>, part: seq<Byte>, low: Wide, high: Wide, part': seq<Byte>)
    requires RegHolds(m, full, part) && part' <= low
    ensures RegHolds(Put(Put(m, |full|, low), |full| + 1, high), full, part')
  {
    hide View, Put;
    var m1 := Put(m, |full|, low);
    var m2 := Put(m1, |full| + 1, high);
    forall x | 0 <= x < |full| <= x + 6 ensures View(m2.even, m2.odd, x) == full[x] {
      ViewPut(m, |full|, low, x);
      ViewPut(m1, |full| + 1, high, x);
    }
    ViewPut(m, |full|, low, |full|);
    ViewPut(m1, |full| + 1, high, |full|);
  }

  lemma RegTurns(m: Banks, full: seq<Wide>, part: seq<Byte>, low: Wide, high: Wide, part': seq<Byte>)
    requires RegHolds(m, full, part) && part' <= high
    ensures RegHolds(Put(Put(m, |full|, low), |full| + 1, high), full + [low], part')
  {
    hide View, Put;
    var m1 := Put(m, |full|, low);
    var m2 := Put(m1, |full| + 1, high);
    var full' := full + [low];
    forall x | 0 <= x < |full'| <= x + 6 ensures View(m2.even, m2.odd, x) == full'[x] {
      ViewPut(m, |full|, low, x);
      ViewPut(m1, |full| + 1, high, x);
    }
    ViewPut(m1, |full| + 1, high, |full| + 1);
  }

  lemma RamKeeps(m: Banks, full: seq<Wide>, low: Wide)
    requires RamHolds(m, full)
    ensures RamHolds(Put(m, |full|, low), full)
    ensures RamHolds(Put(m, |full|, low), full + [low])
  {
    hide View, Put;
    var m1 := Put(m, |full|, low);
    var full' := full + [low];
    forall x | 0 <= x < |full'| < x + 1 + 2 * |m1.even| ensures View(m1.even, m1.odd, x) == full'[x] {
      ViewPut(m, |full|, low, x);
    }
  }

  // ---------- Reading back ----------

  lemma WordsOrder(p: nat, u: nat, v: nat)
    requires p > 0 && p * u < p * v + p
    ensures u <= v
  {
    OneMore(p, v + 1);
    if u > v { Mono(p, v + 1, u); }
  }

  lemma Distribute(p: nat, x: nat, y: nat)
    ensures p * (x + y) == p * x + p * y
  {
  }

  // A near source lies within the last six words or the word under way.
  lemma NearWords(p: nat, x: nat, b: nat, d: nat, whole: nat, rest: nat)
    requires p > 0 && b < p && p * x + b + d == p * whole + rest && d < LowOffset(p)
    ensures whole <= x + 6
  {
    Distribute(p, x, 6);
    WordsOrder(p, whole, x + 6);
  }

  // A far source lies in words that are complete and still in the memory.
  lemma FarWordsBetween(p: nat, x: nat, b: nat, d: nat, whole: nat, rest: nat, room: nat)
    requires p > 0 && b < p && rest < p && p * x + b + d == p * whole + rest && LowOffset(p) <= d <= p * room
    ensures x + 6 <= whole <= x + room
  {
    Distribute(p, x, 6);
    WordsOrder(p, x + 6, whole);
    Distribute(p, x, room);
    WordsOrder(p, whole, x + room);
  }

  ghost predicate Remembers(reg: Banks, ram: Banks, full: seq<Wide>, part: seq<Byte>, g: Geometry) {
    && g.Valid() && AllWide(full, g.p) && |part| < g.p
    && Shaped(reg, REG_WORDS, g.p) && Shaped(ram, g.ramWords, g.p) && RegHolds(reg, full, part) && RamHolds(ram, full)
  }

  lemma NearAgrees(reg: Banks, full: seq<Wide>, part: seq<Byte>, p: nat, x: nat, b: nat, d: nat)
    requires AllWide(full, p) && |part| < p && RegHolds(reg, full, part)
    requires b < p && 0 < d < LowOffset(p) && p * x + b + d == |Flat(full)| + |part|
    ensures Agrees(View(reg.even, reg.odd, x), full, part, x) && Agrees(View(reg.even, reg.odd, x + 1), full, part, x + 1)
  {
    hide View;
    FlatLength(full, p);
    PositionOfByte(full, part, p, x, b);
    NearWords(p, x, b, d, |full|, |part|);
  }

  lemma FarAgrees(ram: Banks, full: seq<Wide>, part: seq<Byte>, g: Geometry, x: nat, b: nat, d: nat)
    requires g.Valid() && AllWide(full, g.p) && |part| < g.p && RamHolds(ram, full) && |ram.even| == g.ramWords
    requires b < g.p && LowOffset(g.p) <= d <= g.Far() && g.p * x + b + d == |Flat(full)| + |part|
    ensures Agrees(View(ram.even, ram.odd, x), full, part, x) && Agrees(View(ram.even, ram.odd, x + 1), full, part, x + 1)
  {
    hide View, LowOffset;
    FlatLength(full, g.p);
    FarWordsBetween(g.p, x, b, d, |full|, |part|, g.FarWords());
  }

  lemma RegWraps(r: nat, w: nat)
    requires r % 4 == 0
    ensures 2 * (r * w) == 2 * (4 * (r / 4 * w))
  {
    var q := r / 4;
    assert r == 4 * q;
  }

  // The wrapped word index finds the same words in both memories.
  lemma IndexSlots(x: nat, g: Geometry)
    requires g.Valid()
    ensures g.IndexWords() > 0
    ensures SameSlots(Wrapped(x, g.IndexWords()), x, REG_WORDS) && SameSlots(Wrapped(x, g.IndexWords()), x, g.ramWords)
  {
    hide SameSlots;
    Positive(g.ramWords, g.wraps);
    WrappedSlot(x, g.ramWords, g.wraps, g.IndexWords());
    RegWraps(g.ramWords, g.wraps);
    WrappedSlot(x, REG_WORDS, g.ramWords / 4 * g.wraps, g.IndexWords());
  }

  lemma Positive(a: nat, b: nat)
    requires a > 0 && b > 0
    ensures a * b > 0
  {
  }

  // So does the wrapped word count.
  lemma CountSlots(x: nat, g: Geometry)
    requires g.Valid()
    ensures g.Wrap() > 0
    ensures SameSlots(Wrapped(x, g.Wrap()), x, REG_WORDS) && SameSlots(Wrapped(x, g.Wrap()), x, g.ramWords)
  {
    hide SameSlots;
    var k := g.wraps * g.p;
    Positive(g.ramWords, g.wraps);
    Positive(g.p, g.IndexWords());
    WrapForm(g.p, g.ramWords, g.wraps, k);
    WrappedSlot(x, g.ramWords, k, g.Wrap());
    RegWraps(g.ramWords, k);
    WrappedSlot(x, REG_WORDS, g.ramWords / 4 * k, g.Wrap());
  }

  lemma WrapForm(p: nat, r: nat, w: nat, k: nat)
    requires k == w * p
    ensures p * (2 * (r * w)) == 2 * (r * k)
  {
  }

  // Two words, shifted down by b bytes.
  function Shifted(low: Wide, high: Wide, b: nat, p: nat): Wide
    requires |low| == |high| == p && b < p
  {
    (low + high)[b..b + p]
  }

  lemma ShiftedPrefix(low: Wide, high: Wide, b: nat, p: nat, n: nat)
    requires |low| == |high| == p && b < p && n <= p
    ensures Shifted(low, high, b, p)[..n] == (low + high)[b..b + n]
  {
  }

  function Chosen(reg: Banks, ram: Banks, near: bool): Banks {
    if near then reg else ram
  }

  // A match starts in word y of the history, at byte c.
  ghost predicate StartsAt(loc: nat, p: nat, y: nat, c: nat) {
    p > 0 && y == loc / p && c == loc % p
  }

  // What is read back is the source of the match.
  lemma Recall(reg: Banks, ram: Banks, full: seq<Wide>, part: seq<Byte>, g: Geometry, d: nat, n: nat, loc: nat, y: nat, c: nat, near: bool)
    requires Remembers(reg, ram, full, part, g) && StartsAt(loc, g.p, y, c)
    requires 0 < n <= g.p && n <= d <= |Flat(full)| + |part| && near == (d < LowOffset(g.p)) && (near || d <= g.Far())
    requires g.Wrap() > 0 && loc == Wrapped(|Flat(full)| + |part| - d, g.Wrap())
    requires var m := Chosen(reg, ram, near); |m.even| == |m.odd| > 0
    ensures var m := Chosen(reg, ram, near);
            && |View(m.even, m.odd, y)| == |View(m.even, m.odd, y + 1)| == g.p && c < g.p
            && Shifted(View(m.even, m.odd, y), View(m.even, m.odd, y + 1), c, g.p)[..n]
               == (Flat(full) + part)[|Flat(full)| + |part| - d..|Flat(full)| + |part| - d + n]
  {
    hide *;
    RememberedWords(reg, ram, full, part, g);
    var total := |Flat(full)| + |part|;
    var x := Locate(g, total - d, loc, y, c);
    var m := Chosen(reg, ram, near);
    RecallWords(reg, ram, full, part, g, d, x, c, y, near);
    var low, high := View(m.even, m.odd, x), View(m.even, m.odd, x + 1);
    SourceBytes(full, part, g.p, x, c, n, low, high);
    ShiftedPrefix(low, high, c, g.p, n);
  }

  lemma RememberedWords(reg: Banks, ram: Banks, full: seq<Wide>, part: seq<Byte>, g: Geometry)
    requires Remembers(reg, ram, full, part, g)
    ensures g.Valid() && AllWide(full, g.p) && 0 < g.p && |part| < g.p
  {
    hide AllWide, Shaped, RegHolds, RamHolds;
  }

  lemma Locate(g: Geometry, s: nat, loc: nat, y: nat, c: nat) returns (x: nat)
    requires g.Valid() && g.Wrap() > 0 && loc == Wrapped(s, g.Wrap()) && StartsAt(loc, g.p, y, c)
    ensures g.p * x + c == s && c < g.p
    ensures SameSlots(y, x, REG_WORDS) && SameSlots(y, x, g.ramWords)
  {
    hide SameSlots;
    x := s / g.p;
    QuotientRemainder(s, g.p);
    IndexSlots(x, g);
    WrappedWord(s, g.p, g.IndexWords(), g.Wrap());
  }

  lemma RecallWords(reg: Banks, ram: Banks, full: seq<Wide>, part: seq<Byte>, g: Geometry, d: nat, x: nat, b: nat, y: nat, near: bool)
    requires Remembers(reg, ram, full, part, g) && b < g.p && g.p * x + b + d == |Flat(full)| + |part|
    requires 0 < d && near == (d < LowOffset(g.p)) && (near || d <= g.Far())
    requires SameSlots(y, x, REG_WORDS) && SameSlots(y, x, g.ramWords)
    ensures var m := Chosen(reg, ram, near);
            && |m.even| == |m.odd| > 0
            && |View(m.even, m.odd, x)| == |View(m.even, m.odd, x + 1)| == g.p
            && Agrees(View(m.even, m.odd, x), full, part, x) && Agrees(View(m.even, m.odd, x + 1), full, part, x + 1)
            && View(m.even, m.odd, y) == View(m.even, m.odd, x) && View(m.even, m.odd, y + 1) == View(m.even, m.odd, x + 1)
  {
    hide View, SameSlots, Agrees, RegHolds, RamHolds, AllWide, Flat, LowOffset;
    if near {
      NearAgrees(reg, full, part, g.p, x, b, d);
      ViewSame(reg, y, x);
      ViewWide(reg, x, REG_WORDS, g.p);
      ViewWide(reg, x + 1, REG_WORDS, g.p);
    } else {
      FarAgrees(ram, full, part, g, x, b, d);
      ViewSame(ram, y, x);
      ViewWide(ram, x, g.ramWords, g.p);
      ViewWide(ram, x + 1, g.ramWords, g.p);
    }
  }

  // ---------- One step ----------

  function Zeros(p: nat): (w: Wide)
    ensures |w| == p
  {
    if p == 0 then [] else [0] + Zeros(p - 1)
  }

  // A word sent, and how many of its low bytes the strobe marks.
  datatype Out = Out(word: Wide, keep: nat)

  predicate Strobed(outs: seq<Out>) {
    forall k :: 0 <= k < |outs| ==> outs[k].keep <= |outs[k].word|
  }

  function Joined(outs: seq<Out>): seq<Byte>
    requires Strobed(outs)
  {
    if outs == [] then [] else Joined(outs[..|outs| - 1]) + outs[|outs| - 1].word[..outs[|outs| - 1].keep]
  }

  ghost predicate SentWhole(outs: seq<Out>, full: seq<Wide>, p: nat) {
    |outs| == |full| && forall k :: 0 <= k < |outs| ==> outs[k] == Out(full[k], p)
  }

  lemma {:induction false} JoinedWhole(outs: seq<Out>, full: seq<Wide>, p: nat)
    requires SentWhole(outs, full, p) && AllWide(full, p)
    ensures Strobed(outs) && Joined(outs) == Flat(full)
  {
    if outs != [] {
      var z := |outs| - 1;
      JoinedWhole(outs[..z], full[..z], p);
      assert full[z][..p] == full[z];
    }
  }

  // j steps are done: complete words are out, the rest is at the bottom of the window, and the
  // memories know both.
  ghost predicate Running(reg: Banks, ram: Banks, window: Wide, writeIdx: nat, outs: seq<Out>,
                          full: seq<Wide>, part: seq<Byte>, g: Geometry, steps: seq<Step>, j: nat)
  {
    && Remembers(reg, ram, full, part, g)
    && StepsSound(steps) && j <= |steps| && StepsSound(steps[..j]) && Flat(full) + part == Perform(steps[..j])
    && |window| == 2 * g.p && part <= window
    && g.Wrap() > 0 && writeIdx == Wrapped(|full|, g.Wrap())
    && SentWhole(outs, full, g.p)
  }

  // outValue goes into the window behind the bytes waiting there.
  function Placed(window: Wide, index: nat, outValue: Wide, p: nat): (w: Wide)
    requires |window| == 2 * p && |outValue| == p && index < p
    ensures |w| == 2 * p
  {
    window[..index] + outValue + window[index + p..]
  }

  lemma PlacedBytes(window: Wide, part: seq<Byte>, outValue: Wide, incr: nat, p: nat)
    requires |window| == 2 * p && |outValue| == p && part <= window && |part| < p && incr <= p
    ensures part + outValue[..incr] <= Placed(window, |part|, outValue, p)
  {
  }

  // The bytes split into the words to keep and the bytes to wait.
  lemma SplitBytes(full: seq<Wide>, part: seq<Byte>, bytes: seq<Byte>, w: Wide, p: nat)
    requires AllWide(full, p) && |w| == 2 * p && part + bytes <= w && |part| < p && |bytes| <= p && p > 0
    ensures |part + bytes| >= p ==> AllWide(full + [w[..p]], p) && w[p..|part + bytes|] <= w[p..] && |w[p..|part + bytes|]| < p
    ensures |part + bytes| >= p ==> Flat(full + [w[..p]]) + w[p..|part + bytes|] == Flat(full) + part + bytes
    ensures |part + bytes| < p ==> part + bytes <= w[..p] && Flat(full) + (part + bytes) == Flat(full) + part + bytes
  {
    var n := |part + bytes|;
    if n >= p {
      FlatAppend(full, w[..p]);
      hide Flat;
      assert w[..p] + w[p..n] == w[..n] == part + bytes;
      assert Flat(full) + w[..p] + w[p..n] == Flat(full) + (w[..p] + w[p..n]);
      assert Flat(full) + (part + bytes) == Flat(full) + part + bytes;
    }
  }

  lemma RecordedKeeps(reg: Banks, ram: Banks, full: seq<Wide>, part: seq<Byte>, g: Geometry, low: Wide, high: Wide, part': seq<Byte>)
    requires Remembers(reg, ram, full, part, g) && |low| == |high| == g.p && part' <= low && |part'| < g.p
    ensures Remembers(Put(Put(reg, |full|, low), |full| + 1, high), Put(ram, |full|, low), full, part', g)
  {
    hide Put, RegHolds, RamHolds, AllWide;
    RecordedShape(reg, ram, |full|, g, low, high);
    RegKeeps(reg, full, part, low, high, part');
    RamKeeps(ram, full, low);
  }

  lemma RecordedTurns(reg: Banks, ram: Banks, full: seq<Wide>, part: seq<Byte>, g: Geometry, low: Wide, high: Wide, part': seq<Byte>)
    requires Remembers(reg, ram, full, part, g) && |low| == |high| == g.p && part' <= high && |part'| < g.p
    ensures Remembers(Put(Put(reg, |full|, low), |full| + 1, high), Put(ram, |full|, low), full + [low], part', g)
  {
    hide Put, RegHolds, RamHolds;
    RecordedShape(reg, ram, |full|, g, low, high);
    RegTurns(reg, full, part, low, high, part');
    RamKeeps(ram, full, low);
  }

  lemma RecordedShape(reg: Banks, ram: Banks, x: nat, g: Geometry, low: Wide, high: Wide)
    requires g.Valid() && Shaped(reg, REG_WORDS, g.p) && Shaped(ram, g.ramWords, g.p) && |low| == |high| == g.p
    ensures Shaped(Put(Put(reg, x, low), x + 1, high), REG_WORDS, g.p) && Shaped(Put(ram, x, low), g.ramWords, g.p)
  {
    PutShape(reg, x, low, REG_WORDS, g.p);
    PutShape(Put(reg, x, low), x + 1, high, REG_WORDS, g.p);
    PutShape(ram, x, low, g.ramWords, g.p);
  }

  // The wrapped counter writes the same slots as the word count.
  lemma RecordedAt(reg: Banks, ram: Banks, x: nat, g: Geometry, low: Wide, high: Wide)
    requires g.Valid() && Shaped(reg, REG_WORDS, g.p) && Shaped(ram, g.ramWords, g.p)
    ensures g.Wrap() > 0
    ensures var i := Wrapped(x, g.Wrap());
            Put(Put(reg, i, low), i + 1, high) == Put(Put(reg, x, low), x + 1, high) && Put(ram, i, low) == Put(ram, x, low)
  {
    CountSlots(x, g);
    hide Put, SameSlots;
    var i := Wrapped(x, g.Wrap());
    PutSame(reg, i, x, low);
    PutSame(Put(reg, x, low), i, x, high);
    PutSame(ram, i, x, low);
  }

  method Record(reg0: array<Wide>, reg1: array<Wide>, ram0: array<Wide>, ram1: array<Wide>, writeIdx: nat, low: Wide, high: Wide)
    requires Distinct(reg0, reg1, ram0, ram1) && reg0.Length == reg1.Length > 0 && ram0.Length == ram1.Length > 0
    modifies reg0, reg1, ram0, ram1
    ensures Banks(reg0[..], reg1[..]) == Put(Put(old(Banks(reg0[..], reg1[..])), writeIdx, low), writeIdx + 1, high)
    ensures Banks(ram0[..], ram1[..]) == Put(old(Banks(ram0[..], ram1[..])), writeIdx, low)
  {
    var wIdx := writeIdx / 2;
    if writeIdx % 2 == 1 {
      reg1[wIdx % reg1.Length] := low;
      reg0[(wIdx + 1) % reg0.Length] := high;
      ram1[wIdx % ram1.Length] := low;
      assert (writeIdx + 1) / 2 == wIdx + 1;
    } else {
      reg0[wIdx % reg0.Length] := low;
      reg1[wIdx % reg1.Length] := high;
      ram0[wIdx % ram0.Length] := low;
    }
  }

  ghost predicate Distinct(a: array<Wide>, b: array<Wide>, c: array<Wide>, d: array<Wide>) {
    a != b && a != c && a != d && b != c && b != d && c != d
  }

  // The step under way adds the first `incr` bytes of outValue.
  ghost predicate Adds(steps: seq<Step>, j: nat, outValue: Wide, incr: nat, p: nat) {
    && j < |steps| && StepsSound(steps[..j]) && StepsSound(steps[..j + 1]) && |outValue| == p && incr <= p
    && Perform(steps[..j + 1]) == Perform(steps[..j]) + outValue[..incr]
  }

  lemma StepTurns(reg: Banks, ram: Banks, window: Wide, writeIdx: nat, outs: seq<Out>, full: seq<Wide>, part: seq<Byte>, g: Geometry,
                  steps: seq<Step>, j: nat, outValue: Wide, incr: nat, w: Wide, n: nat)
    requires Running(reg, ram, window, writeIdx, outs, full, part, g, steps, j) && Adds(steps, j, outValue, incr, g.p)
    requires w == Placed(window, |part|, outValue, g.p) && n == |part| + incr >= g.p
    ensures Running(Put(Put(reg, writeIdx, w[..g.p]), writeIdx + 1, w[g.p..]), Put(ram, writeIdx, w[..g.p]), w[g.p..] + Zeros(g.p),
                    Wrapped(writeIdx + 1, g.Wrap()), outs + [Out(w[..g.p], g.p)], full + [w[..g.p]], w[g.p..n], g, steps, j + 1)
  {
    hide *;
    RunningShape(reg, ram, window, writeIdx, outs, full, part, g, steps, j);
    RememberedWords(reg, ram, full, part, g);
    RegSize();
    ContentTurns(window, full, part, steps, j, outValue, incr, w, n, g.p);
    var low, high, part' := w[..g.p], w[g.p..], w[g.p..n];
    RecordedAt(reg, ram, |full|, g, low, high);
    RecordedTurns(reg, ram, full, part, g, low, high, part');
    WrappedAdd(|full|, 1, g.Wrap());
    SentMore(outs, full, low, g.p);
    RunningGoesOn(Put(Put(reg, writeIdx, low), writeIdx + 1, high), Put(ram, writeIdx, low), high + Zeros(g.p), Wrapped(writeIdx + 1, g.Wrap()),
                  outs + [Out(low, g.p)], full + [low], part', g, steps, j + 1);
  }

  lemma ContentTurns(window: Wide, full: seq<Wide>, part: seq<Byte>, steps: seq<Step>, j: nat, outValue: Wide, incr: nat, w: Wide, n: nat, p: nat)
    requires Adds(steps, j, outValue, incr, p) && AllWide(full, p) && |part| < p && |window| == 2 * p && part <= window
    requires Flat(full) + part == Perform(steps[..j])
    requires w == Placed(window, |part|, outValue, p) && n == |part| + incr >= p
    ensures n < 2 * p == |w| && j + 1 <= |steps| && StepsSound(steps[..j + 1])
    ensures w[p..n] <= w[p..] && |w[p..n]| < p && Flat(full + [w[..p]]) + w[p..n] == Perform(steps[..j + 1])
  {
    hide Perform, StepsSound, Flat;
    PlacedBytes(window, part, outValue, incr, p);
    SplitBytes(full, part, outValue[..incr], w, p);
    assert |part + outValue[..incr]| == n;
  }

  lemma SentMore(outs: seq<Out>, full: seq<Wide>, low: Wide, p: nat)
    requires SentWhole(outs, full, p)
    ensures SentWhole(outs + [Out(low, p)], full + [low], p)
  {
  }

  lemma StepKeeps(reg: Banks, ram: Banks, window: Wide, writeIdx: nat, outs: seq<Out>, full: seq<Wide>, part: seq<Byte>, g: Geometry,
                  steps: seq<Step>, j: nat, outValue: Wide, incr: nat, w: Wide)
    requires Running(reg, ram, window, writeIdx, outs, full, part, g, steps, j) && Adds(steps, j, outValue, incr, g.p)
    requires w == Placed(window, |part|, outValue, g.p) && |part| + incr < g.p
    ensures Running(Put(Put(reg, writeIdx, w[..g.p]), writeIdx + 1, w[g.p..]), Put(ram, writeIdx, w[..g.p]), w,
                    writeIdx, outs, full, part + outValue[..incr], g, steps, j + 1)
  {
    hide *;
    RunningShape(reg, ram, window, writeIdx, outs, full, part, g, steps, j);
    RememberedWords(reg, ram, full, part, g);
    RegSize();
    ContentKeeps(window, full, part, steps, j, outValue, incr, w, g.p);
    var low, high, part' := w[..g.p], w[g.p..], part + outValue[..incr];
    RecordedAt(reg, ram, |full|, g, low, high);
    RecordedKeeps(reg, ram, full, part, g, low, high, part');
    RunningGoesOn(Put(Put(reg, writeIdx, low), writeIdx + 1, high), Put(ram, writeIdx, low), w, writeIdx, outs, full, part', g, steps, j + 1);
  }

  lemma ContentKeeps(window: Wide, full: seq<Wide>, part: seq<Byte>, steps: seq<Step>, j: nat, outValue: Wide, incr: nat, w: Wide, p: nat)
    requires Adds(steps, j, outValue, incr, p) && AllWide(full, p) && |part| < p && |window| == 2 * p && part <= window
    requires Flat(full) + part == Perform(steps[..j])
    requires w == Placed(window, |part|, outValue, p) && |part| + incr < p
    ensures |w| == 2 * p && j + 1 <= |steps| && incr <= |outValue| && StepsSound(steps[..j + 1])
    ensures var part' := part + outValue[..incr];
            part' <= w[..p] && part' <= w && |part'| < p && Flat(full) + part' == Perform(steps[..j + 1])
  {
    hide Perform, StepsSound, Flat;
    PlacedBytes(window, part, outValue, incr, p);
    SplitBytes(full, part, outValue[..incr], w, p);
  }

  lemma RunningGoesOn(reg: Banks, ram: Banks, window: Wide, writeIdx: nat, outs: seq<Out>, full: seq<Wide>, part: seq<Byte>, g: Geometry,
                      steps: seq<Step>, j: nat)
    requires Remembers(reg, ram, full, part, g) && g.Wrap() > 0 && writeIdx == Wrapped(|full|, g.Wrap()) && SentWhole(outs, full, g.p)
    requires StepsSound(steps) && j <= |steps| && StepsSound(steps[..j]) && Flat(full) + part == Perform(steps[..j])
    requires |window| == 2 * g.p && part <= window
    ensures Running(reg, ram, window, writeIdx, outs, full, part, g, steps, j)
  {
    hide Perform, StepsSound, Flat, Remembers, SentWhole, Wrapped;
  }

  lemma RunningShape(reg: Banks, ram: Banks, window: Wide, writeIdx: nat, outs: seq<Out>, full: seq<Wide>, part: seq<Byte>, g: Geometry,
                     steps: seq<Step>, j: nat)
    requires Running(reg, ram, window, writeIdx, outs, full, part, g, steps, j)
    ensures |window| == 2 * g.p && |part| < g.p && g.Wrap() > 0 && j <= |steps| && StepsSound(steps) && StepsSound(steps[..j])
    ensures |reg.even| == |reg.odd| == REG_WORDS && |ram.even| == |ram.odd| == g.ramWords > 0
    ensures Remembers(reg, ram, full, part, g) && Flat(full) + part == Perform(steps[..j])
    ensures part <= window && writeIdx == Wrapped(|full|, g.Wrap()) && SentWhole(outs, full, g.p)
    ensures Shaped(reg, REG_WORDS, g.p) && Shaped(ram, g.ramWords, g.p)
  {
    hide Perform, StepsSound, Flat, RegHolds, RamHolds, SentWhole;
  }

  method Write(reg0: array<Wide>, reg1: array<Wide>, ram0: array<Wide>, ram1: array<Wide>, window: Wide, index: nat, writeIdx: nat,
               outValue: Wide, incr: nat, outs: seq<Out>, g: Geometry,
               ghost full: seq<Wide>, ghost part: seq<Byte>, ghost steps: seq<Step>, ghost j: nat)
    returns (window': Wide, index': nat, writeIdx': nat, outs': seq<Out>, ghost full': seq<Wide>, ghost part': seq<Byte>)
    requires Distinct(reg0, reg1, ram0, ram1)
    requires Running(Banks(reg0[..], reg1[..]), Banks(ram0[..], ram1[..]), window, writeIdx, outs, full, part, g, steps, j)
    requires Adds(steps, j, outValue, incr, g.p) && |outValue| == g.p && incr <= g.p && index == |part|
    modifies reg0, reg1, ram0, ram1
    ensures Running(Banks(reg0[..], reg1[..]), Banks(ram0[..], ram1[..]), window', writeIdx', outs', full', part', g, steps, j + 1)
    ensures index' == |part'|
  {
    hide *;
    ghost var reg, ram := Banks(reg0[..], reg1[..]), Banks(ram0[..], ram1[..]);
    RunningShape(reg, ram, window, writeIdx, outs, full, part, g, steps, j);
    RegSize();
    var w := Placed(window, index, outValue, g.p);
    var low, high := w[..g.p], w[g.p..];
    Record(reg0, reg1, ram0, ram1, writeIdx, low, high);
    var n := index + incr;
    if n >= g.p {
      StepTurns(reg, ram, window, writeIdx, outs, full, part, g, steps, j, outValue, incr, w, n);
      outs' := outs + [Out(low, g.p)];
      writeIdx' := Wrapped(writeIdx + 1, g.Wrap());
      window' := w[g.p..] + Zeros(g.p);
      index' := n - g.p;
      full', part' := full + [low], w[g.p..n];
    } else {
      StepKeeps(reg, ram, window, writeIdx, outs, full, part, g, steps, j, outValue, incr, w);
      outs', writeIdx', window', index' := outs, writeIdx, w, n;
      full', part' := full, part + outValue[..incr];
    }
  }

  lemma RegSize()
    ensures REG_WORDS > 0
  {
  }

  method LookUp(reg0: array<Wide>, reg1: array<Wide>, ram0: array<Wide>, ram1: array<Wide>, readIdx: nat, near: bool)
    returns (low: Wide, high: Wide)
    requires reg0.Length == reg1.Length > 0 && ram0.Length == ram1.Length > 0
    ensures var m := Chosen(Banks(reg0[..], reg1[..]), Banks(ram0[..], ram1[..]), near);
            low == View(m.even, m.odd, readIdx) && high == View(m.even, m.odd, readIdx + 1)
  {
    var rIdx := readIdx / 2;
    var lowReg, highReg, lowRam, highRam;
    if readIdx % 2 == 1 {
      lowReg, highReg := reg1[rIdx % reg1.Length], reg0[(rIdx + 1) % reg0.Length];
      lowRam, highRam := ram1[rIdx % ram1.Length], ram0[(rIdx + 1) % ram0.Length];
      assert (readIdx + 1) / 2 == rIdx + 1;
    } else {
      lowReg, highReg := reg0[rIdx % reg0.Length], reg1[rIdx % reg1.Length];
      lowRam, highRam := ram0[rIdx % ram0.Length], ram1[rIdx % ram1.Length];
    }
    if near {
      low, high := lowReg, highReg;
    } else {
      low, high := lowRam, highRam;
    }
  }

  // ---------- The loop ----------

  function LitCount(steps: seq<Step>): nat {
    if steps == [] then 0 else LitCount(steps[..|steps| - 1]) + (if steps[|steps| - 1].Lit? then 1 else 0)
  }

  // The literal stream holds one word for every literal step; its lowest bytes are the literals.
  ghost predicate Supplies(litStream: seq<Wide>, steps: seq<Step>, p: nat) {
    forall j :: 0 <= j < |steps| ==> SuppliesOne(litStream, steps, j, p)
  }

  ghost predicate SuppliesOne(litStream: seq<Wide>, steps: seq<Step>, j: nat, p: nat)
    requires j < |steps|
  {
    steps[j].Lit? ==>
      var k := LitCount(steps[..j]);
      k < |litStream| && |litStream[k]| == p && steps[j].bytes <= litStream[k]
  }

  lemma {:induction false} InfoAt(steps: seq<Step>, j: nat, p: nat, wrap: nat)
    requires StepsSound(steps) && wrap > 0 && j < |steps|
    ensures StepsSound(steps[..j]) && (steps[j].Mat? ==> steps[j].d <= |Perform(steps[..j])|)
    ensures InfosOf(steps, p, wrap)[j] == InfoOf(steps[j], |Perform(steps[..j])|, p, wrap)
    decreases |steps|
  {
    PerformNext(steps, j);
    if j < |steps| - 1 {
      assert steps[..|steps| - 1][..j] == steps[..j];
      InfoAt(steps[..|steps| - 1], j, p, wrap);
    }
  }

  // The words handed on, read one by one.
  ghost predicate Informed(infos: seq<Info>, steps: seq<Step>, g: Geometry) {
    && g.Wrap() > 0 && StepsSound(steps) && Fits(steps, g.p, g.p * (2 * g.ramWords - 1))
    && |infos| == |steps| + 1 && infos[..|steps|] == InfosOf(steps, g.p, g.Wrap())
    && infos[|steps|].state == DONE && infos[|steps|].litLen == 0
  }

  // What the word of a step says.
  ghost predicate Tells(info: Info, steps: seq<Step>, j: nat, g: Geometry) {
    && j < |steps| && StepsSound(steps[..j]) && g.Valid() && g.Wrap() > 0 && FitsOne(steps[j], g.p, g.Far())
    && (steps[j].Mat? ==> steps[j].d <= |Perform(steps[..j])|)
    && info == InfoOf(steps[j], |Perform(steps[..j])|, g.p, g.Wrap())
  }

  lemma InfoTells(infos: seq<Info>, steps: seq<Step>, j: nat, g: Geometry)
    requires g.Valid() && Informed(infos, steps, g) && j <= |steps|
    ensures j < |infos| && (infos[j].state == DONE <==> j == |steps|)
    ensures j < |steps| ==> Tells(infos[j], steps, j, g)
    ensures j == |steps| ==> infos[j].litLen == 0
  {
    if j < |steps| {
      InfoAt(steps, j, g.p, g.Wrap());
      assert infos[..|steps|][j] == infos[j];
      assert FitsOne(steps[j], g.p, g.Far());
    }
  }

  // The first step is a literal, so the length of its word tells whether there are any steps.
  lemma FirstTells(info: Info, steps: seq<Step>, g: Geometry)
    requires Tells(info, steps, 0, g) && StepsSound(steps)
    ensures steps[0].Lit? && info.litLen > 0
  {
    PerformNext(steps, 0);
    assert steps[..0] == [];
  }

  lemma LiteralAdds(litStream: seq<Wide>, steps: seq<Step>, j: nat, g: Geometry, info: Info, k: nat)
    requires Supplies(litStream, steps, g.p) && Tells(info, steps, j, g) && steps[j].Lit? && k == LitCount(steps[..j])
    requires StepsSound(steps)
    ensures k < |litStream| && |litStream[k]| == g.p && Adds(steps, j, litStream[k], info.litLen, g.p)
  {
    assert SuppliesOne(litStream, steps, j, g.p);
    PerformNext(steps, j);
    hide Perform, StepsSound, LitCount;
    assert litStream[k][..info.litLen] == steps[j].bytes;
  }

  lemma MatchAdds(reg: Banks, ram: Banks, full: seq<Wide>, part: seq<Byte>, g: Geometry, steps: seq<Step>, j: nat, info: Info, y: nat, c: nat)
    requires Remembers(reg, ram, full, part, g) && StepsSound(steps) && Tells(info, steps, j, g) && steps[j].Mat?
    requires Flat(full) + part == Perform(steps[..j]) && StartsAt(info.matchLoc, g.p, y, c)
    requires var m := Chosen(reg, ram, info.reg); |m.even| == |m.odd| > 0
    ensures var m := Chosen(reg, ram, info.reg);
            && |View(m.even, m.odd, y)| == |View(m.even, m.odd, y + 1)| == g.p && c < g.p
            && Adds(steps, j, Shifted(View(m.even, m.odd, y), View(m.even, m.odd, y + 1), c, g.p), info.matchLen, g.p)
  {
    PerformNext(steps, j);
    var out, d, n := Perform(steps[..j]), steps[j].d, steps[j].n;
    assert |Flat(full) + part| == |out|;
    hide Perform, StepsSound, Flat, Remembers, View, StartsAt, Wrapped;
    Recall(reg, ram, full, part, g, d, n, info.matchLoc, y, c, info.reg);
  }

  method Take(reg0: array<Wide>, reg1: array<Wide>, ram0: array<Wide>, ram1: array<Wide>, g: Geometry, info: Info, literal: bool,
              readIdx: nat, byteLoc: nat, litStream: seq<Wide>, k: nat,
              ghost window: Wide, ghost writeIdx: nat, ghost outs: seq<Out>, ghost full: seq<Wide>, ghost part: seq<Byte>,
              ghost steps: seq<Step>, ghost j: nat)
    returns (outValue: Wide, incr: nat, k': nat)
    requires Running(Banks(reg0[..], reg1[..]), Banks(ram0[..], ram1[..]), window, writeIdx, outs, full, part, g, steps, j)
    requires Tells(info, steps, j, g) && Supplies(litStream, steps, g.p) && k == LitCount(steps[..j]) && literal == steps[j].Lit?
    requires literal || StartsAt(info.matchLoc, g.p, readIdx, byteLoc)
    ensures Adds(steps, j, outValue, incr, g.p) && |outValue| == g.p && incr <= g.p
    ensures j < |steps| && k' == LitCount(steps[..j + 1])
  {
    hide *;
    ghost var reg, ram := Banks(reg0[..], reg1[..]), Banks(ram0[..], ram1[..]);
    RunningShape(reg, ram, window, writeIdx, outs, full, part, g, steps, j);
    RegSize();
    TellsShape(info, steps, j, g);
    LitCountNext(steps, j);
    var low, high := LookUp(reg0, reg1, ram0, ram1, readIdx, info.reg);
    if literal {
      LiteralAdds(litStream, steps, j, g, info, k);
      outValue := litStream[k];
      incr := info.litLen;
      k' := k + 1;
    } else {
      ChosenShape(reg, ram, info.reg);
      MatchAdds(reg, ram, full, part, g, steps, j, info, readIdx, byteLoc);
      outValue := Shifted(low, high, byteLoc, g.p);
      incr := info.matchLen;
      k' := k;
    }
    AddsShape(steps, j, outValue, incr, g.p);
  }

  lemma TellsShape(info: Info, steps: seq<Step>, j: nat, g: Geometry)
    requires Tells(info, steps, j, g)
    ensures j < |steps| && g.Valid() && g.p > 0
    ensures steps[j].Lit? <==> info.state == LITERAL
    ensures steps[j].Lit? || steps[j].Mat?
  {
  }

  lemma LitCountNext(steps: seq<Step>, j: nat)
    requires j < |steps|
    ensures LitCount(steps[..j + 1]) == LitCount(steps[..j]) + (if steps[j].Lit? then 1 else 0)
  {
    assert steps[..j + 1][..j] == steps[..j];
  }

  lemma ChosenShape(reg: Banks, ram: Banks, near: bool)
    requires |reg.even| == |reg.odd| > 0 && |ram.even| == |ram.odd| > 0
    ensures |Chosen(reg, ram, near).even| == |Chosen(reg, ram, near).odd| > 0
  {
  }

  lemma AddsShape(steps: seq<Step>, j: nat, outValue: Wide, incr: nat, p: nat)
    requires Adds(steps, j, outValue, incr, p)
    ensures |outValue| == p && incr <= p
  {
  }

  method WordAndByte(loc: nat, p: nat, per: nat) returns (readIdx: nat, byteLoc: nat)
    requires p > 0 && per > 0
    ensures per == 1 ==> StartsAt(loc, p, readIdx, byteLoc)
  {
    readIdx, byteLoc := loc / (per * p), loc % p;
  }

  lemma Starts(reg: Banks, ram: Banks, window: Wide, g: Geometry, steps: seq<Step>)
    requires g.Valid() && StepsSound(steps) && Shaped(reg, REG_WORDS, g.p) && Shaped(ram, g.ramWords, g.p) && |window| == 2 * g.p
    ensures g.Wrap() > 0 && Running(reg, ram, window, 0, [], [], [], g, steps, 0) && LitCount(steps[..0]) == 0
  {
    CountSlots(0, g);
    assert steps[..0] == [];
  }

  ghost predicate Gapless(outs: seq<Out>, p: nat) {
    && (forall k :: 0 <= k < |outs| ==> 0 < outs[k].keep <= p == |outs[k].word|)
    && (forall k :: 0 <= k < |outs| - 1 ==> outs[k].keep == p)
  }

  // All but the last word are whole, and the bytes marked are what the steps say.
  ghost predicate Delivers(outs: seq<Out>, bytes: seq<Byte>, p: nat) {
    && Strobed(outs) && Gapless(outs, p) && Joined(outs) == bytes
  }

  lemma Delivered(reg: Banks, ram: Banks, window: Wide, writeIdx: nat, outs: seq<Out>, full: seq<Wide>, part: seq<Byte>, g: Geometry,
                  steps: seq<Step>, w: Wide)
    requires Running(reg, ram, window, writeIdx, outs, full, part, g, steps, |steps|) && w == window[..g.p]
    ensures Delivers(if |part| > 0 then outs + [Out(w, |part|)] else outs, Perform(steps), g.p)
  {
    hide *;
    RunningShape(reg, ram, window, writeIdx, outs, full, part, g, steps, |steps|);
    RememberedWords(reg, ram, full, part, g);
    JoinedWhole(outs, full, g.p);
    assert steps[..|steps|] == steps;
    assert part <= w && w[..|part|] == part;
    DeliveredWith(outs, full, part, w, g.p);
  }

  lemma DeliveredWith(outs: seq<Out>, full: seq<Wide>, part: seq<Byte>, w: Wide, p: nat)
    requires SentWhole(outs, full, p) && AllWide(full, p) && |part| < p == |w| && part <= w && w[..|part|] == part
    ensures Delivers(if |part| > 0 then outs + [Out(w, |part|)] else outs, Flat(full) + part, p)
  {
    JoinedWhole(outs, full, p);
    hide Flat, Joined;
    if |part| > 0 {
      JoinedAppend(outs, Out(w, |part|));
    } else {
      assert Flat(full) + part == Flat(full);
    }
    hide Strobed;
  }

  lemma JoinedAppend(outs: seq<Out>, o: Out)
    requires Strobed(outs) && o.keep <= |o.word|
    ensures Strobed(outs + [o]) && Joined(outs + [o]) == Joined(outs) + o.word[..o.keep]
  {
    assert (outs + [o])[..|outs|] == outs;
  }

  method LzMultiByteDecompressLL(litStream: seq<Wide>, infos: seq<Info>, g: Geometry, ghost steps: seq<Step>) returns (outs: seq<Out>)
    requires g.Valid() && Informed(infos, steps, g) && Supplies(litStream, steps, g.p)
    ensures Delivers(outs, Perform(steps), g.p)
  {
    var reg0, reg1 := new Wide[REG_WORDS](_ => Zeros(g.p)), new Wide[REG_WORDS](_ => Zeros(g.p));
    var ram0, ram1 := new Wide[g.ramWords](_ => Zeros(g.p)), new Wide[g.ramWords](_ => Zeros(g.p));
    var window := Zeros(2 * g.p);
    Starts(Banks(reg0[..], reg1[..]), Banks(ram0[..], ram1[..]), window, g, steps);
    assert Distinct(reg0, reg1, ram0, ram1);
    hide *;
    outs := RunSteps(litStream, infos, g, reg0, reg1, ram0, ram1, window, steps);
  }

  method RunSteps(litStream: seq<Wide>, infos: seq<Info>, g: Geometry,
                  reg0: array<Wide>, reg1: array<Wide>, ram0: array<Wide>, ram1: array<Wide>, window0: Wide, ghost steps: seq<Step>)
    returns (outs: seq<Out>)
    requires g.Valid() && Informed(infos, steps, g) && Supplies(litStream, steps, g.p) && StepsSound(steps)
    requires Distinct(reg0, reg1, ram0, ram1) && LitCount(steps[..0]) == 0
    requires Running(Banks(reg0[..], reg1[..]), Banks(ram0[..], ram1[..]), window0, 0, [], [], [], g, steps, 0)
    modifies reg0, reg1, ram0, ram1
    ensures Delivers(outs, Perform(steps), g.p)
  {
    hide *;
    outs := [];
    var window, index: nat, writeIdx: nat, k: nat := window0, 0, 0, 0;
    ghost var full, part, j: nat := [], [], 0;
    InfoTells(infos, steps, 0, g);
    var info := infos[0];
    var next := 1;
    if 0 < |steps| { FirstTells(info, steps, g); TellsShape(info, steps, 0, g); }
    var matchDone := info.litLen == 0;
    var literal := true;
    ValidSize(g);
    var readIdx, byteLoc := WordAndByte(info.matchLoc, g.p, 2);
    while !matchDone
      invariant Running(Banks(reg0[..], reg1[..]), Banks(ram0[..], ram1[..]), window, writeIdx, outs, full, part, g, steps, j)
      invariant j <= |steps| && index == |part| && k == LitCount(steps[..j]) && next == j + 1
      invariant matchDone <==> j == |steps|
      invariant j < |steps| ==> Tells(info, steps, j, g) && literal == steps[j].Lit?
      invariant j < |steps| ==> literal || StartsAt(info.matchLoc, g.p, readIdx, byteLoc)
      decreases |steps| - j
    {
      window, index, writeIdx, outs, k, full, part :=
        OneStep(reg0, reg1, ram0, ram1, g, info, literal, readIdx, byteLoc, litStream, k, window, index, writeIdx, outs, full, part, steps, j);
      j := j + 1;
      InfoTells(infos, steps, j, g);
      info := infos[next];
      next := next + 1;
      literal := info.state == LITERAL;
      if j < |steps| { TellsShape(info, steps, j, g); }
      if info.state == DONE { matchDone := true; }
      readIdx, byteLoc := WordAndByte(info.matchLoc, g.p, 1);
    }
    outs := Flush(window, index, outs, g, Banks(reg0[..], reg1[..]), Banks(ram0[..], ram1[..]), writeIdx, full, part, steps);
  }

  method Flush(window: Wide, index: nat, outs0: seq<Out>, g: Geometry, ghost reg: Banks, ghost ram: Banks, ghost writeIdx: nat,
               ghost full: seq<Wide>, ghost part: seq<Byte>, ghost steps: seq<Step>)
    returns (outs: seq<Out>)
    requires Running(reg, ram, window, writeIdx, outs0, full, part, g, steps, |steps|) && index == |part|
    ensures StepsSound(steps) && Delivers(outs, Perform(steps), g.p)
  {
    hide *;
    RunningShape(reg, ram, window, writeIdx, outs0, full, part, g, steps, |steps|);
    Delivered(reg, ram, window, writeIdx, outs0, full, part, g, steps, window[..g.p]);
    outs := outs0;
    if index > 0 {
      outs := outs + [Out(window[..g.p], index)];
    }
  }

  method OneStep(reg0: array<Wide>, reg1: array<Wide>, ram0: array<Wide>, ram1: array<Wide>, g: Geometry, info: Info, literal: bool,
                 readIdx: nat, byteLoc: nat, litStream: seq<Wide>, k: nat, window: Wide, index: nat, writeIdx: nat, outs: seq<Out>,
                 ghost full: seq<Wide>, ghost part: seq<Byte>, ghost steps: seq<Step>, ghost j: nat)
    returns (window': Wide, index': nat, writeIdx': nat, outs': seq<Out>, k': nat, ghost full': seq<Wide>, ghost part': seq<Byte>)
    requires Distinct(reg0, reg1, ram0, ram1) && index == |part|
    requires Running(Banks(reg0[..], reg1[..]), Banks(ram0[..], ram1[..]), window, writeIdx, outs, full, part, g, steps, j)
    requires Tells(info, steps, j, g) && Supplies(litStream, steps, g.p) && j < |steps| && k == LitCount(steps[..j]) && literal == steps[j].Lit?
    requires literal || StartsAt(info.matchLoc, g.p, readIdx, byteLoc)
    modifies reg0, reg1, ram0, ram1
    ensures Running(Banks(reg0[..], reg1[..]), Banks(ram0[..], ram1[..]), window', writeIdx', outs', full', part', g, steps, j + 1)
    ensures index' == |part'| && k' == LitCount(steps[..j + 1])
  {
    hide *;
    var outValue, incr;
    outValue, incr, k' := Take(reg0, reg1, ram0, ram1, g, info, literal, readIdx, byteLoc, litStream, k,
                               window, writeIdx, outs, full, part, steps, j);
    window', index', writeIdx', outs', full', part' :=
      Write(reg0, reg1, ram0, ram1, window, index, writeIdx, outValue, incr, outs, g, full, part, steps, j);
  }

  lemma ValidSize(g: Geometry)
    requires g.Valid()
    ensures g.p > 0
  {
  }

  // ---------- Both units together ----------

  // The literal words of the stream, for the items of the block.
  ghost predicate Fed(litStream: seq<Wide>, chops: seq<seq<Byte>>, p: nat) {
    |litStream| == |chops| && forall k :: 0 <= k < |chops| ==> |litStream[k]| == p && chops[k] <= litStream[k]
  }

  lemma {:induction false} LiteralsAt(steps: seq<Step>, j: nat)
    requires j < |steps| && steps[j].Lit?
    ensures LitCount(steps[..j]) < |Literals(steps)| && Literals(steps)[LitCount(steps[..j])] == steps[j].bytes
    decreases |steps|
  {
    var z := |steps| - 1;
    CountsLiterals(steps[..z]);
    if j < z {
      assert steps[..z][..j] == steps[..j];
      LiteralsAt(steps[..z], j);
    }
  }

  lemma {:induction false} CountsLiterals(steps: seq<Step>)
    ensures LitCount(steps) == |Literals(steps)|
  {
    if steps != [] { CountsLiterals(steps[..|steps| - 1]); }
  }

  lemma FedSupplies(litStream: seq<Wide>, steps: seq<Step>, p: nat)
    requires Fed(litStream, Literals(steps), p)
    ensures Supplies(litStream, steps, p)
  {
    forall j | 0 <= j < |steps| ensures SuppliesOne(litStream, steps, j, p) {
      if steps[j].Lit? { LiteralsAt(steps, j); }
    }
  }

  lemma HandsOnInforms(infos: seq<Info>, steps: seq<Step>, items: seq<Item>, g: Geometry)
    requires g.Valid() && g.Wrap() > 0 && HandsOn(infos, steps, items, g.p, g.Far(), g.Wrap())
    ensures Informed(infos, steps, g) && ItemsSound(items) && StepsSound(steps) && Perform(steps) == Expand(items)
    ensures g.p > 0 && Literals(steps) == AllChops(items, g.p)
  {
    hide Perform, Expand, StepsSound, ItemsSound, Literals, AllChops, InfosOf;
  }

  // The wide decompressor refines the copy of one byte at a time.
  method DecompressItems(input: seq<Triple>, litStream: seq<Wide>, g: Geometry, ghost items: seq<Item>) returns (outs: seq<Out>)
    requires g.Valid() && Usable(items, g.p, g.Far()) && Streams(input, items) && Fed(litStream, AllChops(items, g.p), g.p)
    ensures ItemsSound(items) && Delivers(outs, Expand(items), g.p)
  {
    CountSlots(0, g);
    hide *;
    ValidSize(g);
    var infos;
    ghost var steps;
    infos, steps := LzPreProcessingUnitLL(input, g.p, g.Wrap(), items, g.Far());
    HandsOnInforms(infos, steps, items, g);
    FedSupplies(litStream, steps, g.p);
    outs := LzMultiByteDecompressLL(litStream, infos, g, steps);
  }
}
