// The match finder: a hash dictionary whose slots remember the latest windows seen, with their
// positions, and the token stream it produces.

module LzCompress {
  import opened LzCore
  import opened LzSearch

  const RESET_INDEX := 0xFF_FFFF   // an index has 24 bits; all ones marks an empty slot

  datatype Entry = Entry(bytes: seq<Byte>, index: nat)

  // How many leading bytes agree.
  function Common(a: seq<Byte>, b: seq<Byte>): (n: nat)
    requires |a| == |b|
    ensures n <= |a| && a[..n] == b[..n]
  {
    if a == [] || a[0] != b[0] then 0
    else
      var n := 1 + Common(a[1..], b[1..]);
      assert a[..n] == [a[0]] + a[1..][..n - 1] && b[..n] == [b[0]] + b[1..][..n - 1];
      n
  }

  // The length a dictionary entry is worth at the current position; 0 if it does not qualify.
  // `base` is where the current block starts.
  function Worth(w: seq<Byte>, e: Entry, currIdx: nat, base: nat, p: Params): (n: nat)
    requires |w| == |e.bytes|
  {
    var len := Common(w, e.bytes);
    if len >= p.minMatch && currIdx > e.index && currIdx - e.index < p.maxOffset && currIdx - e.index - 1 >= p.minOffset
       && e.index >= base
    then (if len == 3 && currIdx - e.index - 1 > 4096 then 0 else len)
    else 0
  }

  method CountCommon(a: seq<Byte>, b: seq<Byte>) returns (len: nat)
    requires |a| == |b|
    ensures len == Common(a, b)
  {
    len := 0;
    var done := false;
    var m := 0;
    while m < |a|
      invariant 0 <= m <= |a| && len <= m
      invariant !done ==> len == m
      invariant if done then len == Common(a, b) else Common(a, b) == m + Common(a[m..], b[m..])
    {
      if a[m] == b[m] && !done {
        len := len + 1;
        assert a[m..][1..] == a[m + 1..] && b[m..][1..] == b[m + 1..];
      } else {
        done := true;
      }
      m := m + 1;
    }
  }

  // Entry l gives the longest match, and no earlier entry gives one as long.
  ghost predicate FirstBest(w: seq<Byte>, entries: seq<Entry>, currIdx: nat, base: nat, p: Params, l: nat, length: nat, offset: nat)
    requires forall k :: 0 <= k < |entries| ==> |entries[k].bytes| == |w|
  {
    && l < |entries| && Worth(w, entries[l], currIdx, base, p) == length > 0
    && offset == currIdx - entries[l].index - 1
    && forall k :: 0 <= k < l ==> Worth(w, entries[k], currIdx, base, p) < length
  }

  // Length and offset of the match reported, entry by entry.
  function BestOf(w: seq<Byte>, entries: seq<Entry>, currIdx: nat, base: nat, p: Params): (nat, nat)
    requires forall l :: 0 <= l < |entries| ==> |entries[l].bytes| == |w|
  {
    if entries == [] then (0, 0)
    else
      var e, best := entries[|entries| - 1], BestOf(w, entries[..|entries| - 1], currIdx, base, p);
      var len := Worth(w, e, currIdx, base, p);
      if len > best.0 then (len, currIdx - e.index - 1) else best
  }

  lemma NoBest(w: seq<Byte>, currIdx: nat, base: nat, p: Params)
    ensures BestOf(w, [], currIdx, base, p) == (0, 0)
  {
  }

  lemma BestNext(w: seq<Byte>, entries: seq<Entry>, l: nat, currIdx: nat, base: nat, p: Params)
    requires l < |entries| && forall k :: 0 <= k < |entries| ==> |entries[k].bytes| == |w|
    ensures var best, len := BestOf(w, entries[..l], currIdx, base, p), Worth(w, entries[l], currIdx, base, p);
            BestOf(w, entries[..l + 1], currIdx, base, p) == if len > best.0 then (len, currIdx - entries[l].index - 1) else best
  {
    hide Worth;
    assert entries[..l + 1][..l] == entries[..l];
  }

  // The longest qualifying match among the entries of a slot, the most recent one if several.
  method BestMatch(w: seq<Byte>, entries: seq<Entry>, currIdx: nat, base: nat, p: Params)
    returns (length: nat, offset: nat, ghost best: nat)
    requires forall l :: 0 <= l < |entries| ==> |entries[l].bytes| == |w|
    ensures forall l :: 0 <= l < |entries| ==> Worth(w, entries[l], currIdx, base, p) <= length
    ensures if length == 0 then offset == 0 else FirstBest(w, entries, currIdx, base, p, best, length, offset)
    ensures (length, offset) == BestOf(w, entries, currIdx, base, p)
  {
    hide BestOf, Common;
    NoBest(w, currIdx, base, p);
    length, offset, best := 0, 0, 0;
    var l := 0;
    while l < |entries|
      invariant 0 <= l <= |entries|
      invariant forall k :: 0 <= k < l ==> Worth(w, entries[k], currIdx, base, p) <= length
      invariant if length == 0 then offset == 0 else best < l && FirstBest(w, entries, currIdx, base, p, best, length, offset)
      invariant (length, offset) == BestOf(w, entries[..l], currIdx, base, p)
    {
      BestNext(w, entries, l, currIdx, base, p);
      var len := CountCommon(w, entries[l].bytes);
      var compareIdx := entries[l].index;
      if len >= p.minMatch && currIdx > compareIdx && currIdx - compareIdx < p.maxOffset
         && currIdx - compareIdx - 1 >= p.minOffset && compareIdx >= base {
        if len == 3 && currIdx - compareIdx - 1 > 4096 { len := 0; }
      } else {
        len := 0;
      }
      if len > length {
        length := len;
        offset := currIdx - compareIdx - 1;
        best := l;
      }
      l := l + 1;
    }
    assert entries[..|entries|] == entries;
  }

  // ---------- The dictionary ----------

  // Whatever it holds, an entry has a window and an index, and a slot has its levels.
  ghost predicate Shaped(slot: seq<Entry>, p: Params) {
    |slot| == p.level && forall l :: 0 <= l < |slot| ==> |slot[l].bytes| == p.matchLen
  }

  ghost predicate ShapedDict(dict: seq<seq<Entry>>, p: Params) {
    |dict| == DICT_SIZE && forall h :: 0 <= h < |dict| ==> Shaped(dict[h], p)
  }

  // For the block that starts at index `base`: an entry is empty, or too old to qualify, or holds the
  // block's bytes at its index, which lies before `cur`.
  ghost predicate TrueEntry(block: seq<Byte>, e: Entry, cur: nat, base: nat, p: Params) {
    && |e.bytes| == p.matchLen
    && (e.index == RESET_INDEX || e.index < base
        || (e.index < cur && e.index - base + p.matchLen <= |block| && e.bytes == WindowAt(block, e.index - base, p)))
  }

  ghost predicate TrueSlot(block: seq<Byte>, slot: seq<Entry>, cur: nat, base: nat, p: Params) {
    |slot| == p.level && forall l :: 0 <= l < |slot| ==> TrueEntry(block, slot[l], cur, base, p)
  }

  ghost predicate TrueDict(block: seq<Byte>, dict: seq<seq<Entry>>, cur: nat, base: nat, p: Params) {
    |dict| == DICT_SIZE && forall h :: 0 <= h < |dict| ==> TrueSlot(block, dict[h], cur, base, p)
  }

  // No entry claims an index from `base` on.
  ghost predicate Harmless(dict: seq<seq<Entry>>, base: nat, p: Params) {
    && ShapedDict(dict, p)
    && forall h, l :: 0 <= h < |dict| && 0 <= l < |dict[h]| ==> dict[h][l].index == RESET_INDEX || dict[h][l].index < base
  }

  lemma HarmlessIsTrue(block: seq<Byte>, dict: seq<seq<Entry>>, base: nat, p: Params)
    requires Harmless(dict, base, p)
    ensures TrueDict(block, dict, base, base, p)
  {
    forall h | 0 <= h < |dict| ensures TrueSlot(block, dict[h], base, base, p) {
      assert Shaped(dict[h], p);
    }
  }

  // Once a block has gone through, all entries lie before the next one.
  lemma TrueIsHarmless(block: seq<Byte>, dict: seq<seq<Entry>>, cur: nat, base: nat, base': nat, p: Params)
    requires TrueDict(block, dict, cur, base, p) && base <= base' && cur <= base'
    ensures Harmless(dict, base', p)
  {
    forall h | 0 <= h < |dict|
      ensures Shaped(dict[h], p) && forall l :: 0 <= l < |dict[h]| ==> dict[h][l].index == RESET_INDEX || dict[h][l].index < base'
    {
      assert TrueSlot(block, dict[h], cur, base, p);
      forall l | 0 <= l < |dict[h]|
        ensures |dict[h][l].bytes| == p.matchLen && (dict[h][l].index == RESET_INDEX || dict[h][l].index < base')
      {
        assert TrueEntry(block, dict[h][l], cur, base, p);
      }
    }
  }

  // A slot shifts up by one entry and takes the new window in front.
  function Pushed(slot: seq<Entry>, e: Entry): seq<Entry> {
    if slot == [] then [] else [e] + slot[..|slot| - 1]
  }

  lemma PushKeepsTruth(block: seq<Byte>, dict: seq<seq<Entry>>, cur: nat, base: nat, p: Params, h: nat, e: Entry)
    requires TrueDict(block, dict, cur, base, p) && h < DICT_SIZE && base <= cur
    requires e.index == cur && cur - base + p.matchLen <= |block| && e.bytes == WindowAt(block, cur - base, p)
    ensures TrueDict(block, dict[h := Pushed(dict[h], e)], cur + 1, base, p)
  {
    var dict' := dict[h := Pushed(dict[h], e)];
    forall k | 0 <= k < |dict'| ensures TrueSlot(block, dict'[k], cur + 1, base, p) {
      assert TrueSlot(block, dict[k], cur, base, p);
      forall l | 0 <= l < |dict'[k]| ensures TrueEntry(block, dict'[k][l], cur + 1, base, p) {
        if k != h {
          assert TrueEntry(block, dict[k][l], cur, base, p);
        } else if l > 0 {
          assert TrueEntry(block, dict[k][l - 1], cur, base, p);
        }
      }
    }
  }

  lemma PushKeepsShape(dict: seq<seq<Entry>>, p: Params, h: nat, e: Entry)
    requires ShapedDict(dict, p) && h < DICT_SIZE && |e.bytes| == p.matchLen
    ensures ShapedDict(dict[h := Pushed(dict[h], e)], p)
  {
    var dict' := dict[h := Pushed(dict[h], e)];
    forall k | 0 <= k < |dict'| ensures Shaped(dict'[k], p) {
      assert Shaped(dict[k], p);
    }
  }

  // The dictionary after n positions of a block.
  ghost function DictAt(block: seq<Byte>, dict: seq<seq<Entry>>, n: nat, base: nat, p: Params): (d: seq<seq<Entry>>)
    requires p.Valid() && ShapedDict(dict, p) && (n > 0 ==> n - 1 + p.matchLen <= |block|)
    ensures ShapedDict(d, p)
  {
    if n == 0 then dict
    else
      var d, w := DictAt(block, dict, n - 1, base, p), WindowAt(block, n - 1, p);
      PushKeepsShape(d, p, Hash(w, p.minMatch), Entry(w, base + n - 1));
      d[Hash(w, p.minMatch) := Pushed(d[Hash(w, p.minMatch)], Entry(w, base + n - 1))]
  }

  lemma DictNext(block: seq<Byte>, dict: seq<seq<Entry>>, i: nat, base: nat, p: Params)
    requires p.Valid() && ShapedDict(dict, p) && i + p.matchLen <= |block|
    ensures var d, w := DictAt(block, dict, i, base, p), WindowAt(block, i, p);
            && |d| == DICT_SIZE
            && DictAt(block, dict, i + 1, base, p) == d[Hash(w, p.minMatch) := Pushed(d[Hash(w, p.minMatch)], Entry(w, base + i))]
            && Shaped(d[Hash(w, p.minMatch)], p)
  {
    hide Hash, Pushed;
  }

  lemma DictAtStart(block: seq<Byte>, dict: seq<seq<Entry>>, base: nat, p: Params)
    requires p.Valid() && ShapedDict(dict, p)
    ensures DictAt(block, dict, 0, base, p) == dict
  {
    hide ShapedDict;
  }

  lemma HarmlessIsShaped(dict: seq<seq<Entry>>, base: nat, p: Params)
    requires Harmless(dict, base, p)
    ensures ShapedDict(dict, p) && |dict| == DICT_SIZE
  {
    hide Shaped;
  }

  lemma {:induction false} DictAtTrue(block: seq<Byte>, dict: seq<seq<Entry>>, n: nat, base: nat, p: Params)
    requires p.Valid() && Harmless(dict, base, p) && (n > 0 ==> n - 1 + p.matchLen <= |block|)
    ensures TrueDict(block, DictAt(block, dict, n, base, p), base + n, base, p)
  {
    hide *;
    HarmlessIsShaped(dict, base, p);
    if n == 0 {
      HarmlessIsTrue(block, dict, base, p);
      DictAtStart(block, dict, base, p);
    } else {
      DictAtTrue(block, dict, n - 1, base, p);
      LongWindow(p);
      var i: nat, cur: nat := n - 1, base + n - 1;
      var d, w := DictAt(block, dict, i, base, p), WindowAt(block, i, p);
      DictNext(block, dict, i, base, p);
      PushKeepsTruth(block, d, cur, base, p, Hash(w, p.minMatch), Entry(w, cur));
    }
  }

  // ---------- Tokens ----------

  // What is promised of the token for position i.
  ghost predicate GoodToken(input: seq<Byte>, i: nat, t: Token, p: Params) {
    && Genuine(input, i, t)
    && (t.len == 0 ==> t.offset == 0)
    && (t.len > 0 ==> p.minMatch <= t.len <= p.matchLen && i + p.matchLen + p.leftBytes <= |input|
                      && p.minOffset <= t.offset && t.offset + 1 < p.maxOffset)
  }

  ghost predicate GoodTokens(input: seq<Byte>, toks: seq<Token>, p: Params) {
    |toks| <= |input| && forall i :: 0 <= i < |toks| ==> GoodToken(input, i, toks[i], p)
  }

  // A qualifying entry is a genuine match inside the current block.
  lemma WorthIsGenuine(block: seq<Byte>, cur: nat, base: nat, e: Entry, p: Params)
    requires TrueEntry(block, e, cur, base, p) && p.Valid()
    requires base <= cur < RESET_INDEX && cur - base + p.matchLen + p.leftBytes <= |block|
    requires Worth(WindowAt(block, cur - base, p), e, cur, base, p) > 0
    ensures var n := Worth(WindowAt(block, cur - base, p), e, cur, base, p);
            base <= e.index < cur && GoodToken(block, cur - base, Token(block[cur - base], n, cur - e.index - 1), p)
  {
    var i := cur - base;
    var w := WindowAt(block, i, p);
    var n := Worth(w, e, cur, base, p);
    var d := cur - e.index;
    assert w[..n] == e.bytes[..n];
    forall m | i <= m < i + n ensures block[m] == block[m - d] {
      assert w[..n][m - i] == e.bytes[..n][m - i];
    }
  }

  // The token for position i: what the slot of its window offers.
  ghost function TokenAt(block: seq<Byte>, dict: seq<seq<Entry>>, i: nat, base: nat, p: Params): Token
    requires p.Valid() && ShapedDict(dict, p) && i + p.matchLen <= |block|
  {
    var w := WindowAt(block, i, p);
    var slot := DictAt(block, dict, i, base, p)[Hash(w, p.minMatch)];
    assert Shaped(slot, p);
    var best := BestOf(w, slot, base + i, base, p);
    Token(w[0], best.0, best.1)
  }

  // The first n tokens of a block; the bytes left over at its end are sent as literals.
  ghost function Tokens(block: seq<Byte>, dict: seq<seq<Entry>>, n: nat, base: nat, p: Params): (toks: seq<Token>)
    requires p.Valid() && ShapedDict(dict, p) && n <= |block|
    ensures |toks| == n
  {
    if n == 0 then []
    else Tokens(block, dict, n - 1, base, p)
         + [if n - 1 + p.matchLen + p.leftBytes <= |block| then TokenAt(block, dict, n - 1, base, p) else Token(block[n - 1], 0, 0)]
  }

  lemma {:induction false} TokensAt(block: seq<Byte>, dict: seq<seq<Entry>>, n: nat, i: nat, base: nat, p: Params)
    requires p.Valid() && ShapedDict(dict, p) && i < n <= |block|
    ensures Tokens(block, dict, n, base, p)[i]
            == if i + p.matchLen + p.leftBytes <= |block| then TokenAt(block, dict, i, base, p) else Token(block[i], 0, 0)
  {
    hide TokenAt, ShapedDict;
    if i < n - 1 { TokensAt(block, dict, n - 1, i, base, p); }
  }

  lemma {:induction false} BestIsFirst(w: seq<Byte>, entries: seq<Entry>, currIdx: nat, base: nat, p: Params) returns (l: nat)
    requires forall l :: 0 <= l < |entries| ==> |entries[l].bytes| == |w|
    ensures var best := BestOf(w, entries, currIdx, base, p);
            && (forall k :: 0 <= k < |entries| ==> Worth(w, entries[k], currIdx, base, p) <= best.0)
            && if best.0 == 0 then best.1 == 0 else FirstBest(w, entries, currIdx, base, p, l, best.0, best.1)
  {
    hide Worth;
    l := 0;
    if entries != [] {
      var z := |entries| - 1;
      l := BestIsFirst(w, entries[..z], currIdx, base, p);
      forall k | 0 <= k < z ensures entries[k] == entries[..z][k] {}
      if Worth(w, entries[z], currIdx, base, p) > BestOf(w, entries[..z], currIdx, base, p).0 { l := z; }
    }
  }

  lemma TokenIs(block: seq<Byte>, dict: seq<seq<Entry>>, i: nat, base: nat, p: Params) returns (w: seq<Byte>, slot: seq<Entry>, best: (nat, nat))
    requires p.Valid() && ShapedDict(dict, p) && i + p.matchLen <= |block|
    ensures w == WindowAt(block, i, p) && slot == DictAt(block, dict, i, base, p)[Hash(w, p.minMatch)]
    ensures (forall l :: 0 <= l < |slot| ==> |slot[l].bytes| == |w|) && best == BestOf(w, slot, base + i, base, p)
    ensures TokenAt(block, dict, i, base, p) == Token(block[i], best.0, best.1)
  {
    hide Hash, BestOf, DictAt;
    DictNext(block, dict, i, base, p);
    w := WindowAt(block, i, p);
    slot := DictAt(block, dict, i, base, p)[Hash(w, p.minMatch)];
    assert Shaped(slot, p);
    best := BestOf(w, slot, base + i, base, p);
  }

  lemma SlotTrue(block: seq<Byte>, d: seq<seq<Entry>>, h: nat, cur: nat, base: nat, p: Params)
    requires TrueDict(block, d, cur, base, p) && h < DICT_SIZE
    ensures |d| == DICT_SIZE && forall l :: 0 <= l < |d[h]| ==> TrueEntry(block, d[h][l], cur, base, p)
  {
    assert TrueSlot(block, d[h], cur, base, p);
  }

  lemma TokenAtGood(block: seq<Byte>, dict: seq<seq<Entry>>, i: nat, base: nat, p: Params)
    requires p.Valid() && ShapedDict(dict, p) && Harmless(dict, base, p)
    requires i + p.matchLen + p.leftBytes <= |block| && base + i < RESET_INDEX
    ensures GoodToken(block, i, TokenAt(block, dict, i, base, p), p)
  {
    hide *;
    DictAtTrue(block, dict, i, base, p);
    LongWindow(p);
    var w, slot, best := TokenIs(block, dict, i, base, p);
    SlotTrue(block, DictAt(block, dict, i, base, p), Hash(w, p.minMatch), base + i, base, p);
    var l := BestIsFirst(w, slot, base + i, base, p);
    if best.0 > 0 {
      FirstBestIs(w, slot, base + i, base, p, l, best.0, best.1);
      WorthIsGenuine(block, base + i, base, slot[l], p);
    } else {
      LiteralGood(block, i, p);
    }
  }

  lemma FirstBestIs(w: seq<Byte>, entries: seq<Entry>, currIdx: nat, base: nat, p: Params, l: nat, length: nat, offset: nat)
    requires forall k :: 0 <= k < |entries| ==> |entries[k].bytes| == |w|
    requires FirstBest(w, entries, currIdx, base, p, l, length, offset)
    ensures l < |entries| && Worth(w, entries[l], currIdx, base, p) == length > 0 && offset == currIdx - entries[l].index - 1
    ensures forall k :: 0 <= k < l ==> Worth(w, entries[k], currIdx, base, p) < length
  {
    hide Worth;
  }

  lemma LongWindow(p: Params)
    requires p.Valid()
    ensures p.matchLen >= 4
  {
  }

  // With a harmless dictionary every token is genuine.
  lemma TokensGood(block: seq<Byte>, dict: seq<seq<Entry>>, base: nat, p: Params)
    requires p.Valid() && Harmless(dict, base, p) && base + |block| <= RESET_INDEX
    ensures GoodTokens(block, Tokens(block, dict, |block|, base, p), p)
  {
    HarmlessIsShaped(dict, base, p);
    var toks := Tokens(block, dict, |block|, base, p);
    hide Tokens, GoodToken, TokenAt, Harmless, ShapedDict;
    forall i | 0 <= i < |toks| ensures GoodToken(block, i, toks[i], p) {
      TokensAt(block, dict, |block|, i, base, p);
      if i + p.matchLen + p.leftBytes <= |block| {
        TokenAtGood(block, dict, i, base, p);
      } else {
        LiteralGood(block, i, p);
      }
    }
  }

  lemma NoTokensGood(p: Params)
    ensures GoodTokens([], [], p) && AllBest([], [], p)
  {
  }

  lemma LiteralGood(block: seq<Byte>, i: nat, p: Params)
    requires i < |block|
    ensures GoodToken(block, i, Token(block[i], 0, 0), p)
  {
  }

  // ---------- What is found ----------

  lemma PushedAt(slot: seq<Entry>, e: Entry)
    requires slot != []
    ensures |Pushed(slot, e)| == |slot| && Pushed(slot, e)[0] == e
    ensures forall k :: 1 <= k < |slot| ==> Pushed(slot, e)[k] == slot[k - 1]
  {
  }

  lemma BusyNext(block: seq<Byte>, m: nat, i: nat, p: Params)
    requires p.Valid() && m < i && i + p.matchLen <= |block|
    ensures Busy(block, m, i + 1, p) == Busy(block, m, i, p) + if SameHash(block, m, i, p) then 1 else 0
  {
    hide SameHash;
  }

  lemma BusyStarts(block: seq<Byte>, i: nat, p: Params)
    requires p.Valid() && i + p.matchLen <= |block|
    ensures Busy(block, i, i + 1, p) == 0
  {
  }

  // The slot of position i before it is pushed, and after.
  lemma SlotNext(block: seq<Byte>, d0: seq<seq<Entry>>, i: nat, base: nat, p: Params, h: nat)
    requires p.Valid() && ShapedDict(d0, p) && i + p.matchLen <= |block| && h < DICT_SIZE
    ensures var d, d' := DictAt(block, d0, i, base, p), DictAt(block, d0, i + 1, base, p);
            && |d| == |d'| == DICT_SIZE && |d[h]| == |d'[h]| == p.level
            && (h != Hash(WindowAt(block, i, p), p.minMatch) ==> d'[h] == d[h])
            && (h == Hash(WindowAt(block, i, p), p.minMatch) && p.level > 0 ==>
                  d'[h][0] == Entry(WindowAt(block, i, p), base + i) && forall l :: 1 <= l < p.level ==> d'[h][l] == d[h][l - 1])
  {
    hide Hash, Pushed, DictAt;
    DictNext(block, d0, i, base, p);
    assert Shaped(DictAt(block, d0, i, base, p)[h], p) && Shaped(DictAt(block, d0, i + 1, base, p)[h], p);
    if p.level > 0 { PushedAt(DictAt(block, d0, i, base, p)[h], Entry(WindowAt(block, i, p), base + i)); }
  }

  lemma SameHashIs(block: seq<Byte>, m: nat, i: nat, p: Params)
    requires p.Valid() && m + p.matchLen <= |block| && i + p.matchLen <= |block|
    ensures SameHash(block, m, i, p) <==> Hash(WindowAt(block, m, p), p.minMatch) == Hash(WindowAt(block, i, p), p.minMatch)
  {
    hide Hash;
  }

  // A position stays in its slot until as many others of the same hash have come as there are levels.
  lemma {:induction false} SlotHolds(block: seq<Byte>, d0: seq<seq<Entry>>, m: nat, i: nat, base: nat, p: Params)
    requires p.Valid() && ShapedDict(d0, p) && m < i && i - 1 + p.matchLen <= |block| && Busy(block, m, i, p) < p.level
    ensures |WindowAt(block, m, p)| >= 4
    ensures var slot := DictAt(block, d0, i, base, p)[Hash(WindowAt(block, m, p), p.minMatch)];
            |slot| == p.level && slot[Busy(block, m, i, p)] == Entry(WindowAt(block, m, p), base + m)
    decreases i
  {
    hide *;
    LongWindow(p);
    var h := Hash(WindowAt(block, m, p), p.minMatch);
    SlotNext(block, d0, i - 1, base, p, h);
    if i == m + 1 {
      BusyStarts(block, m, p);
    } else {
      BusyNext(block, m, i - 1, p);
      SameHashIs(block, m, i - 1, p);
      SlotHolds(block, d0, m, i - 1, base, p);
    }
  }

  // And on a dictionary that was harmless, every entry that may qualify is such a position.
  lemma {:induction false} SlotFrom(block: seq<Byte>, d0: seq<seq<Entry>>, i: nat, base: nat, p: Params, h: nat, l: nat) returns (m: nat)
    requires p.Valid() && Harmless(d0, base, p) && ShapedDict(d0, p) && (i > 0 ==> i - 1 + p.matchLen <= |block|) && h < DICT_SIZE && l < p.level
    requires var d := DictAt(block, d0, i, base, p); |d| == DICT_SIZE && |d[h]| == p.level && base <= d[h][l].index != RESET_INDEX
    ensures m < i && m + p.matchLen <= |block| && |WindowAt(block, m, p)| >= 4
    ensures DictAt(block, d0, i, base, p)[h][l] == Entry(WindowAt(block, m, p), base + m)
    ensures Hash(WindowAt(block, m, p), p.minMatch) == h && Busy(block, m, i, p) == l
    decreases i
  {
    hide *;
    LongWindow(p);
    if i == 0 {
      NothingYet(block, d0, base, p, h, l);
      assert false;
    } else {
      SlotNext(block, d0, i - 1, base, p, h);
      var w := WindowAt(block, i - 1, p);
      if h == Hash(w, p.minMatch) && l == 0 {
        m := i - 1;
        BusyStarts(block, m, p);
      } else {
        m := SlotFrom(block, d0, i - 1, base, p, h, if h == Hash(w, p.minMatch) then l - 1 else l);
        BusyNext(block, m, i - 1, p);
        SameHashIs(block, m, i - 1, p);
      }
    }
  }

  lemma NothingYet(block: seq<Byte>, d0: seq<seq<Entry>>, base: nat, p: Params, h: nat, l: nat)
    requires p.Valid() && Harmless(d0, base, p) && ShapedDict(d0, p) && h < DICT_SIZE && l < p.level
    ensures var d := DictAt(block, d0, 0, base, p);
            |d| == DICT_SIZE && |d[h]| == p.level && (d[h][l].index == RESET_INDEX || d[h][l].index < base)
  {
    assert Shaped(d0[h], p);
  }

  lemma {:induction false} CommonAtLeast(a: seq<Byte>, b: seq<Byte>, n: nat)
    requires |a| == |b| && n <= |a| && a[..n] == b[..n]
    ensures Common(a, b) >= n
  {
    if n > 0 {
      assert a[0] == a[..n][0] == b[..n][0] == b[0];
      assert a[1..][..n - 1] == a[..n][1..] && b[1..][..n - 1] == b[..n][1..];
      CommonAtLeast(a[1..], b[1..], n - 1);
    }
  }

  // The windows agree in n bytes exactly if n bytes repeat.
  lemma CommonRepeats(block: seq<Byte>, m: nat, i: nat, n: nat, p: Params)
    requires m < i && i + p.matchLen <= |block| && n <= p.matchLen
    ensures Repeats(block, i, i - m, n) <==> Common(WindowAt(block, i, p), WindowAt(block, m, p)) >= n
  {
    var w, v := WindowAt(block, i, p), WindowAt(block, m, p);
    if Repeats(block, i, i - m, n) {
      forall k | 0 <= k < n ensures w[k] == v[k] { assert block[i + k] == block[i + k - (i - m)]; }
      assert w[..n] == v[..n];
      CommonAtLeast(w, v, n);
    }
    var c := Common(w, v);
    if c >= n {
      forall k | i <= k < i + n ensures block[k] == block[k - (i - m)] { assert w[..c][k - i] == v[..c][k - i]; }
    }
  }

  // What repeats is worth its length to the match finder, and what is worth something repeats.
  lemma WorthOfRepetition(block: seq<Byte>, m: nat, i: nat, n: nat, base: nat, p: Params)
    requires Findable(block, m, i, n, p)
    ensures Worth(WindowAt(block, i, p), Entry(WindowAt(block, m, p), base + m), base + i, base, p) >= n
  {
    CommonRepeats(block, m, i, n, p);
    CommonRepeats(block, m, i, 3, p);
    hide Common, SameHash, Busy, Repeats, WindowAt;
  }

  lemma RepetitionOfWorth(block: seq<Byte>, m: nat, i: nat, n: nat, base: nat, p: Params)
    requires p.Valid() && m < i && i + p.matchLen + p.leftBytes <= |block| && SameHash(block, m, i, p) && Busy(block, m, i, p) < p.level
    requires n == Worth(WindowAt(block, i, p), Entry(WindowAt(block, m, p), base + m), base + i, base, p) > 0
    ensures Findable(block, m, i, n, p)
  {
    CommonRepeats(block, m, i, n, p);
    CommonRepeats(block, m, i, 3, p);
    hide Common, SameHash, Busy, Repeats, WindowAt;
  }

  lemma FindableIs(block: seq<Byte>, m: nat, i: nat, n: nat, p: Params)
    requires Findable(block, m, i, n, p)
    ensures p.Valid() && m < i && i + p.matchLen + p.leftBytes <= |block| && n >= 1
    ensures SameHash(block, m, i, p) && Busy(block, m, i, p) < p.level
  {
    hide SameHash, Busy;
  }

  // Where the slot holds position m, the token is as long as what repeats from there.
  lemma TokenReaches(block: seq<Byte>, d0: seq<seq<Entry>>, m: nat, i: nat, n: nat, base: nat, p: Params, slot: seq<Entry>, w: seq<Byte>)
    requires Findable(block, m, i, n, p) && p.Valid() && ShapedDict(d0, p) && i + p.matchLen <= |block|
    requires w == WindowAt(block, i, p) && |w| >= 4 && slot == DictAt(block, d0, i, base, p)[Hash(w, p.minMatch)]
    ensures Busy(block, m, i, p) < |slot| && slot[Busy(block, m, i, p)] == Entry(WindowAt(block, m, p), base + m)
    ensures |w| == |slot[Busy(block, m, i, p)].bytes| && Worth(w, slot[Busy(block, m, i, p)], base + i, base, p) >= n
  {
    hide *;
    FindableIs(block, m, i, n, p);
    LongWindow(p);
    SlotHolds(block, d0, m, i, base, p);
    SameHashIs(block, m, i, p);
    WorthOfRepetition(block, m, i, n, base, p);
  }

  lemma TokenAtLongest(block: seq<Byte>, d0: seq<seq<Entry>>, i: nat, base: nat, p: Params)
    requires p.Valid() && ShapedDict(d0, p) && i + p.matchLen <= |block|
    ensures Longest(block, i, TokenAt(block, d0, i, base, p), p)
  {
    LongWindow(p);
    var w, slot, best := TokenIs(block, d0, i, base, p);
    var l := BestIsFirst(w, slot, base + i, base, p);
    hide Findable, TokenAt, DictAt, BestOf, Worth, Hash, Busy, FirstBest, ShapedDict, Params.Valid;
    forall m: nat, n: nat | Findable(block, m, i, n, p) ensures n <= TokenAt(block, d0, i, base, p).len {
      TokenReaches(block, d0, m, i, n, base, p, slot, w);
    }
  }

  // More windows of one hash have come since an earlier position than since a later one.
  lemma {:induction false} BusyOrder(block: seq<Byte>, m: nat, n: nat, i: nat, p: Params)
    requires p.Valid() && m < n < i && i - 1 + p.matchLen <= |block| && SameHash(block, m, n, p)
    ensures Busy(block, m, i, p) > Busy(block, n, i, p)
    decreases i
  {
    if i > n + 1 {
      BusyOrder(block, m, n, i - 1, p);
      hide Hash;
    }
  }

  // With a harmless dictionary the token is the best there is.
  lemma TokenAtBest(block: seq<Byte>, d0: seq<seq<Entry>>, i: nat, base: nat, p: Params)
    requires p.Valid() && ShapedDict(d0, p) && Harmless(d0, base, p)
    requires i + p.matchLen + p.leftBytes <= |block| && base + i < RESET_INDEX
    ensures Best(block, i, TokenAt(block, d0, i, base, p), p)
  {
    hide *;
    LongWindow(p);
    TokenAtLongest(block, d0, i, base, p);
    var w, slot, best := TokenIs(block, d0, i, base, p);
    var l := BestIsFirst(w, slot, base + i, base, p);
    if best.0 == 0 {
      IsBestLiteral(block, i, p);
    } else {
      FirstBestIs(w, slot, base + i, base, p, l, best.0, best.1);
      WorthSays(w, slot[l], base + i, base, p);
      SlotLevels(block, d0, i, base, p, Hash(w, p.minMatch));
      var m := SlotFrom(block, d0, i, base, p, Hash(w, p.minMatch), l);
      SameHashIs(block, m, i, p);
      RepetitionOfWorth(block, m, i, best.0, base, p);
      forall m': nat | Findable(block, m', i, best.0, p) ensures m' <= m {
        TokenReaches(block, d0, m', i, best.0, base, p, slot, w);
        FindableIs(block, m', i, best.0, p);
        SameHashIs(block, m', i, p);
        SameHashIs(block, m, m', p);
        if m' > m { BusyOrder(block, m, m', i, p); }
      }
      IsBest(block, i, Token(block[i], best.0, best.1), p);
    }
  }

  lemma SlotLevels(block: seq<Byte>, d0: seq<seq<Entry>>, i: nat, base: nat, p: Params, h: nat)
    requires p.Valid() && ShapedDict(d0, p) && (i > 0 ==> i - 1 + p.matchLen <= |block|) && h < DICT_SIZE
    ensures |DictAt(block, d0, i, base, p)| == DICT_SIZE && |DictAt(block, d0, i, base, p)[h]| == p.level
  {
    hide DictAt;
    assert Shaped(DictAt(block, d0, i, base, p)[h], p);
  }

  lemma WorthSays(w: seq<Byte>, e: Entry, currIdx: nat, base: nat, p: Params)
    requires |w| == |e.bytes| && Worth(w, e, currIdx, base, p) > 0 && currIdx < RESET_INDEX
    ensures base <= e.index < currIdx && e.index != RESET_INDEX
  {
    hide Common;
  }

  lemma IsBest(block: seq<Byte>, i: nat, t: Token, p: Params)
    requires i < |block| && t.ch == block[i] && t.len > 0 && t.offset < i && Findable(block, i - 1 - t.offset, i, t.len, p)
    requires Longest(block, i, t, p) && forall m: nat :: Findable(block, m, i, t.len, p) ==> m <= i - 1 - t.offset
    ensures Best(block, i, t, p)
  {
    hide Findable, Longest;
  }

  lemma IsBestLiteral(block: seq<Byte>, i: nat, p: Params)
    requires i < |block|
    ensures Longest(block, i, Token(block[i], 0, 0), p) ==> Best(block, i, Token(block[i], 0, 0), p)
    ensures i + p.matchLen + p.leftBytes > |block| ==> Best(block, i, Token(block[i], 0, 0), p)
    ensures Best(block, i, Token(block[i], 0, 0), p) ==> Longest(block, i, Token(block[i], 0, 0), p)
  {
    hide SameHash, Busy;
  }

  lemma TokensLongest(block: seq<Byte>, d0: seq<seq<Entry>>, base: nat, p: Params)
    requires p.Valid() && ShapedDict(d0, p)
    ensures AllLongest(block, Tokens(block, d0, |block|, base, p), p)
  {
    var toks := Tokens(block, d0, |block|, base, p);
    hide Tokens, TokenAt, ShapedDict, Longest, Params.Valid;
    forall i | 0 <= i < |toks| ensures Longest(block, i, toks[i], p) {
      TokensAt(block, d0, |block|, i, base, p);
      if i + p.matchLen + p.leftBytes <= |block| {
        TokenAtLongest(block, d0, i, base, p);
      } else {
        IsBestLiteral(block, i, p);
      }
    }
  }

  lemma TokensBest(block: seq<Byte>, d0: seq<seq<Entry>>, base: nat, p: Params)
    requires p.Valid() && Harmless(d0, base, p) && ShapedDict(d0, p) && base + |block| <= RESET_INDEX
    ensures AllBest(block, Tokens(block, d0, |block|, base, p), p)
  {
    var toks := Tokens(block, d0, |block|, base, p);
    hide Tokens, TokenAt, ShapedDict, Best, Harmless, Params.Valid;
    forall i | 0 <= i < |toks| ensures Best(block, i, toks[i], p) {
      TokensAt(block, d0, |block|, i, base, p);
      if i + p.matchLen + p.leftBytes <= |block| {
        TokenAtBest(block, d0, i, base, p);
      } else {
        IsBestLiteral(block, i, p);
      }
    }
  }

  // And then the dictionary is harmless for the next block.
  lemma DictAfterHarmless(block: seq<Byte>, dict: seq<seq<Entry>>, n: nat, base: nat, base': nat, p: Params)
    requires p.Valid() && Harmless(dict, base, p) && (n > 0 ==> n - 1 + p.matchLen <= |block|) && base + n <= base'
    ensures Harmless(DictAt(block, dict, n, base, p), base', p)
  {
    DictAtTrue(block, dict, n, base, p);
    TrueIsHarmless(block, DictAt(block, dict, n, base, p), base + n, base, base', p);
  }

  // One position of the main loop: shift the window, look its hash up, remember it, and report
  // the best match.
  method Step(window: array<Byte>, next: Byte, dict: array<seq<Entry>>, currIdx: nat, base: nat, p: Params,
              ghost block: seq<Byte>, ghost d0: seq<seq<Entry>>, ghost i: nat, ghost last: nat)
    returns (t: Token)
    requires p.Valid() && window.Length == p.matchLen && dict.Length == DICT_SIZE && ShapedDict(d0, p)
    requires currIdx == base + i < RESET_INDEX && last == i + p.matchLen - 1 < |block|
    requires dict[..] == DictAt(block, d0, i, base, p)
    requires window[1..] == block[i..last] && next == block[last]
    modifies window, dict
    ensures dict[..] == DictAt(block, d0, i + 1, base, p)
    ensures window[1..] == block[i + 1..last + 1]
    ensures t == TokenAt(block, d0, i, base, p)
  {
    hide *;
    ResetIs();
    LongWindow(p);
    WindowIs(block, i, p);
    ShiftWindow(window, next);
    assert window[1..] == window[..][1..];
    ghost var d := dict[..];
    var w := window[..];
    var hash := Hash(w, p.minMatch);
    var read := dict[hash];
    DictStep(block, d0, i, base, p, read);
    dict[hash] := Pushed(read, Entry(w, currIdx % (RESET_INDEX + 1)));
    assert dict[..] == d[hash := Pushed(d[hash], Entry(w, currIdx))];
    var length, offset;
    ghost var best;
    length, offset, best := BestMatch(w, read, currIdx, base, p);
    t := Token(w[0], length, offset);
    ghost var w', slot, best' := TokenIs(block, d0, i, base, p);
  }

  lemma ResetIs()
    ensures RESET_INDEX == 0xFF_FFFF && DICT_SIZE == 4096
  {
  }

  lemma WindowIs(block: seq<Byte>, i: nat, p: Params)
    requires p.matchLen >= 1 && i + p.matchLen <= |block|
    ensures block[i..i + p.matchLen - 1] + [block[i + p.matchLen - 1]] == WindowAt(block, i, p)
    ensures WindowAt(block, i, p)[0] == block[i] && WindowAt(block, i, p)[1..] == block[i + 1..i + p.matchLen]
  {
  }

  lemma DictStep(block: seq<Byte>, d0: seq<seq<Entry>>, i: nat, base: nat, p: Params, read: seq<Entry>)
    requires p.Valid() && ShapedDict(d0, p) && i + p.matchLen <= |block|
    requires read == DictAt(block, d0, i, base, p)[Hash(WindowAt(block, i, p), p.minMatch)]
    ensures var d, w := DictAt(block, d0, i, base, p), WindowAt(block, i, p);
            && |d| == DICT_SIZE
            && DictAt(block, d0, i + 1, base, p) == d[Hash(w, p.minMatch) := Pushed(read, Entry(w, base + i))]
    ensures forall l :: 0 <= l < |read| ==> |read[l].bytes| == p.matchLen
  {
    hide Hash, Pushed;
    assert Shaped(read, p);
  }

  method ShiftWindow(window: array<Byte>, next: Byte)
    requires window.Length >= 1
    modifies window
    ensures window[..] == old(window[1..]) + [next]
  {
    var m := 0;
    while m < window.Length - 1
      invariant 0 <= m <= window.Length - 1
      invariant forall k :: 0 <= k < m ==> window[k] == old(window[k + 1])
      invariant forall k :: m <= k < window.Length ==> window[k] == old(window[k])
    {
      window[m] := window[m + 1];
      m := m + 1;
    }
    window[window.Length - 1] := next;
  }

  // The flushed dictionary.
  function ResetSlot(p: Params): (slot: seq<Entry>)
    ensures |slot| == p.level
  {
    seq(p.level, _ => Entry(seq(p.matchLen, _ => 0), RESET_INDEX))
  }

  function FlushedDict(p: Params): (dict: seq<seq<Entry>>)
    ensures |dict| == DICT_SIZE
  {
    seq(DICT_SIZE, _ => ResetSlot(p))
  }

  lemma FlushedIsHarmless(base: nat, p: Params)
    ensures Harmless(FlushedDict(p), base, p)
  {
    var dict := FlushedDict(p);
    forall h | 0 <= h < |dict|
      ensures Shaped(dict[h], p) && forall l :: 0 <= l < |dict[h]| ==> dict[h][l].index == RESET_INDEX
    {
      assert dict[h] == ResetSlot(p);
    }
  }

  method FlushDict(dict: array<seq<Entry>>, p: Params)
    requires dict.Length == DICT_SIZE
    modifies dict
    ensures dict[..] == FlushedDict(p)
  {
    var i := 0;
    while i < DICT_SIZE
      invariant 0 <= i <= DICT_SIZE
      invariant forall h :: 0 <= h < i ==> dict[h] == ResetSlot(p)
    {
      dict[i] := ResetSlot(p);
      i := i + 1;
    }
  }

  method FillWindow(input: seq<Byte>, p: Params) returns (window: array<Byte>)
    requires p.Valid() && |input| >= p.matchLen - 1
    ensures fresh(window) && window.Length == p.matchLen && window[1..] == input[0..p.matchLen - 1]
  {
    window := new Byte[p.matchLen](_ => 0);
    var k := 1;
    while k < p.matchLen
      invariant 1 <= k <= p.matchLen && forall j :: 1 <= j < k ==> window[j] == input[j - 1]
    {
      window[k] := input[k - 1];
      k := k + 1;
    }
  }

  // The next token joins those before it.
  lemma TokensNext(block: seq<Byte>, d0: seq<seq<Entry>>, n: nat, base: nat, p: Params)
    requires p.Valid() && ShapedDict(d0, p) && n < |block|
    ensures Tokens(block, d0, n + 1, base, p) == Tokens(block, d0, n, base, p)
            + [if n + p.matchLen + p.leftBytes <= |block| then TokenAt(block, d0, n, base, p) else Token(block[n], 0, 0)]
    ensures Tokens(block, d0, 0, base, p) == []
  {
    hide TokenAt, ShapedDict;
  }

  lemma Remains(block: seq<Byte>, i: nat, j: nat)
    requires i <= j <= |block|
    ensures block[i..j] + block[j..] == block[i..] && block[j..|block|] == block[j..]
  {
  }

  // After n positions: the window lacks its last byte, at `last`.
  ghost predicate Going(block: seq<Byte>, d0: seq<seq<Entry>>, window: array<Byte>, dict: array<seq<Entry>>, toks: seq<Token>,
                        n: nat, last: nat, base: nat, p: Params)
    reads window, dict
  {
    && p.Valid() && ShapedDict(d0, p) && window.Length == p.matchLen && dict.Length == DICT_SIZE
    && last == n + p.matchLen - 1 && last <= |block| && window[1..] == block[n..last]
    && dict[..] == DictAt(block, d0, n, base, p) && toks == Tokens(block, d0, n, base, p)
  }

  lemma GoingStarts(block: seq<Byte>, d0: seq<seq<Entry>>, window: array<Byte>, dict: array<seq<Entry>>, base: nat, p: Params)
    requires p.Valid() && ShapedDict(d0, p) && window.Length == p.matchLen && dict.Length == DICT_SIZE && dict[..] == d0
    requires p.matchLen - 1 <= |block| && window[1..] == block[0..p.matchLen - 1]
    ensures Going(block, d0, window, dict, [], 0, p.matchLen - 1, base, p)
  {
    hide ShapedDict;
  }

  lemma GoingIs(block: seq<Byte>, d0: seq<seq<Entry>>, window: array<Byte>, dict: array<seq<Entry>>, toks: seq<Token>,
                n: nat, last: nat, base: nat, p: Params)
    requires Going(block, d0, window, dict, toks, n, last, base, p)
    ensures p.Valid() && ShapedDict(d0, p) && window.Length == p.matchLen >= 4 && dict.Length == DICT_SIZE
    ensures last == n + p.matchLen - 1 && last <= |block| && window[1..] == block[n..last]
    ensures dict[..] == DictAt(block, d0, n, base, p) && toks == Tokens(block, d0, n, base, p)
  {
    hide ShapedDict, DictAt, Tokens;
  }

  lemma IsGoing(block: seq<Byte>, d0: seq<seq<Entry>>, window: array<Byte>, dict: array<seq<Entry>>, toks: seq<Token>,
                n: nat, last: nat, base: nat, p: Params)
    requires p.Valid() && ShapedDict(d0, p) && window.Length == p.matchLen && dict.Length == DICT_SIZE
    requires last == n + p.matchLen - 1 && last <= |block| && window[1..] == block[n..last]
    requires dict[..] == DictAt(block, d0, n, base, p) && toks == Tokens(block, d0, n, base, p)
    ensures Going(block, d0, window, dict, toks, n, last, base, p)
  {
    hide ShapedDict, DictAt, Tokens;
  }

  // The token of one more position.
  method Advance(window: array<Byte>, next: Byte, dict: array<seq<Entry>>, currIdx: nat, toks0: seq<Token>, base: nat, p: Params,
                 ghost block: seq<Byte>, ghost d0: seq<seq<Entry>>, ghost n: nat, ghost last: nat)
    returns (toks: seq<Token>)
    requires Going(block, d0, window, dict, toks0, n, last, base, p)
    requires currIdx == base + n < RESET_INDEX && last + p.leftBytes < |block| && next == block[last]
    modifies window, dict
    ensures Going(block, d0, window, dict, toks, n + 1, last + 1, base, p)
  {
    hide *;
    GoingIs(block, d0, window, dict, toks0, n, last, base, p);
    TokensNext(block, d0, n, base, p);
    var t := Step(window, next, dict, currIdx, base, p, block, d0, n, last);
    toks := toks0 + [t];
    IsGoing(block, d0, window, dict, toks, n + 1, last + 1, base, p);
  }

  // ---------- The version for one sized block ----------

  method LzCompress(input: seq<Byte>, p: Params) returns (toks: seq<Token>)
    requires p.Valid() && (input == [] || |input| >= p.leftBytes + p.matchLen - 1) && |input| <= RESET_INDEX
    ensures |toks| == |input| && GoodTokens(input, toks, p) && AllBest(input, toks, p)
  {
    hide *;
    ResetIs();
    toks := [];
    NoTokensGood(p);
    if |input| == 0 { return; }
    var dict := new seq<Entry>[DICT_SIZE](_ => []);
    FlushDict(dict, p);
    ghost var d0 := dict[..];
    FlushedIsHarmless(0, p);
    TokensGood(input, d0, 0, p);
    HarmlessIsShaped(d0, 0, p);
    TokensBest(input, d0, 0, p);
    LongWindow(p);
    var window := FillWindow(input, p);
    GoingStarts(input, d0, window, dict, 0, p);
    var i := p.matchLen - 1;
    ghost var n: nat := 0;
    while i < |input| - p.leftBytes
      invariant i == n + p.matchLen - 1 && i <= |input| - p.leftBytes
      invariant Going(input, d0, window, dict, toks, n, i, 0, p)
    {
      toks := Advance(window, input[i], dict, i - p.matchLen + 1, toks, 0, p, input, d0, n, i);
      i, n := i + 1, n + 1;
    }
    GoingIs(input, d0, window, dict, toks, n, i, 0, p);
    Remains(input, n, i);
    toks := Leftover(input, toks, window[1..] + input[i..], p, d0, 0);
  }

  // The bytes left are sent as literals.
  method Leftover(block: seq<Byte>, toks0: seq<Token>, rest: seq<Byte>, p: Params, ghost d0: seq<seq<Entry>>, ghost base: nat)
    returns (toks: seq<Token>)
    requires p.Valid() && ShapedDict(d0, p) && |toks0| <= |block| && block[|toks0|..] == rest && |rest| < p.matchLen + p.leftBytes
    requires toks0 == Tokens(block, d0, |toks0|, base, p)
    ensures toks == Tokens(block, d0, |block|, base, p)
  {
    hide ShapedDict, Tokens, TokenAt;
    toks := toks0;
    var m := 0;
    while m < |rest|
      invariant 0 <= m <= |rest| && |toks| == |toks0| + m && toks == Tokens(block, d0, |toks0| + m, base, p)
    {
      assert block[|toks|] == rest[m];
      TokensNext(block, d0, |toks|, base, p);
      toks := toks + [Token(rest[m], 0, 0)];
      m := m + 1;
    }
  }

  // ---------- The streaming version: many blocks, one dictionary ----------

  const TOTAL_DICT_SIZE := 0x80_0000   // after 8 MB the dictionary is flushed

  // How many positions of a block the main loop visits.
  function Positions(block: seq<Byte>, p: Params): nat {
    if |block| >= p.leftBytes + p.matchLen - 1 then |block| - p.leftBytes - p.matchLen + 1 else 0
  }

  lemma IsPositions(block: seq<Byte>, p: Params)
    requires |block| >= p.leftBytes + p.matchLen - 1
    ensures Positions(block, p) == |block| - p.leftBytes - p.matchLen + 1
  {
  }

  // One block, placed at index `base`, whatever the dictionary holds. The left-over bytes wait in a
  // FIFO.
  method CompressBlock(block: seq<Byte>, base: nat, dict: array<seq<Entry>>, p: Params) returns (toks: seq<Token>)
    requires p.Valid() && |block| >= p.leftBytes + p.matchLen - 1 && base + |block| <= RESET_INDEX
    requires dict.Length == DICT_SIZE && ShapedDict(dict[..], p)
    modifies dict
    ensures toks == Tokens(block, old(dict[..]), |block|, base, p) && AllLongest(block, toks, p)
    ensures dict[..] == DictAt(block, old(dict[..]), Positions(block, p), base, p)
  {
    hide *;
    ghost var d0 := dict[..];
    LongWindow(p);
    IsPositions(block, p);
    toks := [];
    var window := FillWindow(block, p);
    GoingStarts(block, d0, window, dict, base, p);
    var iIdx := p.matchLen - 1;
    ghost var n: nat := 0;
    var fifo := block[iIdx..iIdx + p.leftBytes];
    var next := iIdx + p.leftBytes;
    while next < |block|
      invariant iIdx == n + p.matchLen - 1 && next == iIdx + p.leftBytes <= |block|
      invariant fifo == block[iIdx..next]
      invariant Going(block, d0, window, dict, toks, n, iIdx, base, p)
    {
      var currIdx := iIdx + base - p.matchLen + 1;
      var inValue;
      inValue, fifo := PopPush(block, iIdx, next, fifo, block[next]);
      toks := Advance(window, inValue, dict, currIdx, toks, base, p, block, d0, n, iIdx);
      next, iIdx, n := next + 1, iIdx + 1, n + 1;
    }
    GoingIs(block, d0, window, dict, toks, n, iIdx, base, p);
    Remains(block, n, iIdx);
    toks := Leftover(block, toks, window[1..] + fifo, p, d0, base);
    TokensLongest(block, d0, base, p);
  }

  // Where the indices of block n start.
  function Start(n: nat, maxInput: nat): nat {
    n * maxInput
  }

  lemma Rooms(n: nat, maxInput: nat)
    ensures Start(0, maxInput) == 0 && Start(1, maxInput) == maxInput
    ensures Start(n + 1, maxInput) == Start(n, maxInput) + maxInput
    ensures Start(n + 2, maxInput) == Start(n, maxInput) + 2 * maxInput
    ensures Start(n + 3, maxInput) == Start(n, maxInput) + 3 * maxInput
  {
  }

  // The static variables, which stay between the calls: whether the dictionary is to be flushed, and
  // how many blocks have gone through since. The dictionary itself is local to a call, so a call
  // finds it with arbitrary contents.
  class Compressor {
    const p: Params
    const maxInput: nat
    var resetDictFlag: bool
    var relativeNumBlocks: nat

    ghost predicate Valid()
    {
      p.Valid() && 2 * maxInput + TOTAL_DICT_SIZE <= RESET_INDEX
    }

    // The index of a block more stays below the mark of an empty slot.
    predicate Ready()
      reads this
    {
      resetDictFlag || Start(relativeNumBlocks + 2, maxInput) <= RESET_INDEX
    }

    constructor (p: Params, maxInput: nat)
      requires p.Valid() && 2 * maxInput + TOTAL_DICT_SIZE <= RESET_INDEX
      ensures Valid() && resetDictFlag && this.p == p && this.maxInput == maxInput
    {
      this.p, this.maxInput := p, maxInput;
      resetDictFlag, relativeNumBlocks := true, 0;
    }

    // The start of a round: the dictionary is flushed, or the next block follows the last one.
    method NextRound(dict: array<seq<Entry>>)
      requires Valid() && dict.Length == DICT_SIZE
      modifies this, dict
      ensures !resetDictFlag
      ensures if old(resetDictFlag) then relativeNumBlocks == 0 && dict[..] == FlushedDict(p)
              else relativeNumBlocks == old(relativeNumBlocks) + 1 && dict[..] == old(dict[..])
    {
      if resetDictFlag {
        FlushDict(dict, p);
        resetDictFlag := false;
        relativeNumBlocks := 0;
      } else {
        relativeNumBlocks := relativeNumBlocks + 1;
      }
    }

    // The block after the start of a round, and the decision whether to flush next.
    method OneBlock(block: seq<Byte>, dict: array<seq<Entry>>) returns (toks: seq<Token>)
      requires Valid() && !resetDictFlag && dict.Length == DICT_SIZE && ShapedDict(dict[..], p)
      requires Start(relativeNumBlocks + 1, maxInput) <= RESET_INDEX
      requires p.leftBytes + p.matchLen - 1 <= |block| <= maxInput
      modifies this, dict
      ensures toks == Tokens(block, old(dict[..]), |block|, Start(relativeNumBlocks, maxInput), p)
      ensures relativeNumBlocks == old(relativeNumBlocks) && ShapedDict(dict[..], p) && AllLongest(block, toks, p)
      ensures resetDictFlag <==> Start(relativeNumBlocks, maxInput) >= TOTAL_DICT_SIZE
      ensures Harmless(old(dict[..]), Start(relativeNumBlocks, maxInput), p) ==>
                GoodTokens(block, toks, p) && AllBest(block, toks, p) && Harmless(dict[..], Start(relativeNumBlocks + 1, maxInput), p)
    {
      hide ShapedDict, Harmless, GoodTokens, Tokens, DictAt, Start, AllLongest, AllBest;
      Rooms(relativeNumBlocks, maxInput);
      ghost var d0 := dict[..];
      var base := Start(relativeNumBlocks, maxInput);
      toks := CompressBlock(block, base, dict, p);
      if Harmless(d0, base, p) {
        TokensGood(block, d0, base, p);
        TokensBest(block, d0, base, p);
        DictAfterHarmless(block, d0, Positions(block, p), base, Start(relativeNumBlocks + 1, maxInput), p);
      }
      resetDictFlag := base >= TOTAL_DICT_SIZE;
    }

    // One call, over any number of blocks, entered with any dictionary. No repetition that is to be
    // found is missed. If the flag is up, or no entry
    // claims an index from the first block on, every match is genuine, and the dictionary left behind
    // would do for the next call, if that call found it. The round that finds the end of
    // the data counts too, so a call without blocks moves the counter on unchecked; after a block there
    // is room for another call.
    method Compress(dict: array<seq<Entry>>, blocks: seq<seq<Byte>>) returns (out: seq<seq<Token>>)
      requires Valid() && (blocks != [] ==> Ready()) && dict.Length == DICT_SIZE && ShapedDict(dict[..], p)
      requires forall k :: 0 <= k < |blocks| ==> p.leftBytes + p.matchLen - 1 <= |blocks[k]| <= maxInput
      modifies this, dict
      ensures !resetDictFlag && |out| == |blocks|
      ensures forall k :: 0 <= k < |blocks| ==> AllLongest(blocks[k], out[k], p)
      ensures old(resetDictFlag) || Harmless(old(dict[..]), Start(old(relativeNumBlocks) + 1, maxInput), p) ==>
                forall k :: 0 <= k < |blocks| ==> |out[k]| == |blocks[k]| && GoodTokens(blocks[k], out[k], p) && AllBest(blocks[k], out[k], p)
      ensures old(resetDictFlag) || Harmless(old(dict[..]), Start(old(relativeNumBlocks) + 1, maxInput), p) ==>
                Harmless(dict[..], Start(relativeNumBlocks + 1, maxInput), p)
      ensures blocks != [] ==> out[0] == FirstTokens(old(resetDictFlag), old(dict[..]), blocks[0], Start(old(relativeNumBlocks) + 1, maxInput), p)
      ensures blocks == [] ==> relativeNumBlocks == if old(resetDictFlag) then 0 else old(relativeNumBlocks) + 1
      ensures blocks != [] && 3 * maxInput + TOTAL_DICT_SIZE <= RESET_INDEX ==> Ready()
    {
      hide ShapedDict, Harmless, GoodTokens, Tokens, DictAt, FlushedDict, AllLongest, AllBest;
      AfterFlush(dict[..], p, 0);
      out := [];
      ghost var safe := resetDictFlag || Harmless(dict[..], Start(relativeNumBlocks + 1, maxInput), p);
      var k := 0;
      while true
        invariant 0 <= k <= |blocks| && |out| == k && ShapedDict(dict[..], p)
        invariant forall j :: 0 <= j < k ==> AllLongest(blocks[j], out[j], p)
        invariant safe ==> forall j :: 0 <= j < k ==> |out[j]| == |blocks[j]| && GoodTokens(blocks[j], out[j], p) && AllBest(blocks[j], out[j], p)
        invariant safe ==> resetDictFlag || Harmless(dict[..], Start(relativeNumBlocks + 1, maxInput), p)
        invariant k > 0 ==>
                    out[0] == FirstTokens(old(resetDictFlag), old(dict[..]), blocks[0], Start(old(relativeNumBlocks) + 1, maxInput), p)
        invariant k < |blocks| ==> Ready()
        invariant k == 0 ==> resetDictFlag == old(resetDictFlag) && relativeNumBlocks == old(relativeNumBlocks) && dict[..] == old(dict[..])
        invariant k > 0 && !resetDictFlag ==> Start(relativeNumBlocks, maxInput) < TOTAL_DICT_SIZE
        decreases |blocks| - k
      {
        Rooms(relativeNumBlocks, maxInput);
        NextRound(dict);
        AfterFlush(dict[..], p, Start(relativeNumBlocks, maxInput));
        if k == |blocks| {
          HarmlessLater(dict[..], Start(relativeNumBlocks, maxInput), Start(relativeNumBlocks + 1, maxInput), p);
          break;
        }
        Rooms(relativeNumBlocks, maxInput);
        var toks := OneBlock(blocks[k], dict);
        out := out + [toks];
        k := k + 1;
        Rooms(relativeNumBlocks, maxInput);
      }
    }
  }

  lemma HarmlessLater(dict: seq<seq<Entry>>, base: nat, base': nat, p: Params)
    ensures base <= base' && Harmless(dict, base, p) ==> Harmless(dict, base', p)
  {
    hide ShapedDict;
  }

  lemma AfterFlush(dict: seq<seq<Entry>>, p: Params, base: nat)
    ensures Harmless(FlushedDict(p), base, p) && ShapedDict(FlushedDict(p), p)
    ensures Harmless(dict, base, p) ==> ShapedDict(dict, p)
  {
    hide FlushedDict, ShapedDict;
    FlushedIsHarmless(base, p);
  }

  // What a call makes of its first block.
  ghost function FirstTokens(resetDictFlag: bool, dict: seq<seq<Entry>>, block: seq<Byte>, base: nat, p: Params): seq<Token>
    requires p.Valid() && ShapedDict(dict, p)
  {
    AfterFlush(dict, p, 0);
    if resetDictFlag then Tokens(block, FlushedDict(p), |block|, 0, p) else Tokens(block, dict, |block|, base, p)
  }

  // A single call. The indices never reach the mark of an empty slot before the dictionary is
  // flushed, and every token is the best one for its position in its block.
  method LzCompressStream(blocks: seq<seq<Byte>>, maxInput: nat, p: Params) returns (out: seq<seq<Token>>)
    requires p.Valid() && 2 * maxInput + TOTAL_DICT_SIZE <= RESET_INDEX
    requires forall k :: 0 <= k < |blocks| ==> p.leftBytes + p.matchLen - 1 <= |blocks[k]| <= maxInput
    ensures |out| == |blocks|
    ensures forall k :: 0 <= k < |blocks| ==> |out[k]| == |blocks[k]| && GoodTokens(blocks[k], out[k], p) && AllBest(blocks[k], out[k], p)
  {
    hide AllBest, AllLongest, GoodTokens;
    var c := new Compressor(p, maxInput);
    var dict := new seq<Entry>[DICT_SIZE](_ => ResetSlot(p));
    AfterFlush(dict[..], p, 0);
    assert dict[..] == FlushedDict(p);
    out := c.Compress(dict, blocks);
  }
}
