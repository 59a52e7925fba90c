// What the match finder is to find, said without its dictionary: the longest repetition among the
// latest positions whose windows hash alike.

module LzSearch {
  import opened LzCore
  import opened BitVectors

  const DICT_SIZE := 4096

  // The template parameters.
  datatype Params = Params(matchLen: nat, minMatch: nat, maxOffset: nat, level: nat, minOffset: nat, leftBytes: nat) {
    ghost predicate Valid() {
      && 4 <= matchLen < 256 && 1 <= minMatch <= matchLen && maxOffset <= 65536 && minOffset >= 1
    }
  }

  // A byte in a register of 12 bits.
  function Wide(x: Byte): bv12 {
    x as bv12
  }

  function HashBits(a: bv12, b: bv12, c: bv12, d: bv12, minMatch: nat): bv12 {
    if minMatch == 3 then (a << 4) ^ (b << 3) ^ (c << 2) ^ (a << 1) ^ b else (a << 4) ^ (b << 3) ^ (c << 2) ^ d
  }

  function Hash(w: seq<Byte>, minMatch: nat): (h: nat)
    requires |w| >= 4
    ensures h < DICT_SIZE
  {
    HashBits(Wide(w[0]), Wide(w[1]), Wide(w[2]), Wide(w[3]), minMatch) as nat
  }

  // The bytes at position i of a block.
  function WindowAt(block: seq<Byte>, i: nat, p: Params): (w: seq<Byte>)
    requires i + p.matchLen <= |block|
    ensures |w| == p.matchLen
  {
    block[i..i + p.matchLen]
  }

  // How many positions strictly between m and i have windows that hash like the one at m.
  function Busy(block: seq<Byte>, m: nat, i: nat, p: Params): (n: nat)
    requires p.Valid() && m < i && i - 1 + p.matchLen <= |block|
    ensures n < i - m
  {
    if i == m + 1 then 0
    else Busy(block, m, i - 1, p) + if SameHash(block, m, i - 1, p) then 1 else 0
  }

  predicate SameHash(block: seq<Byte>, m: nat, i: nat, p: Params)
    requires p.Valid() && m + p.matchLen <= |block| && i + p.matchLen <= |block|
  {
    Hash(WindowAt(block, m, p), p.minMatch) == Hash(WindowAt(block, i, p), p.minMatch)
  }

  // At position i, n bytes from position m on come again: within the limits of length and distance,
  // with fewer than `level` windows of the same hash in between, and not just three bytes far away.
  ghost predicate Findable(block: seq<Byte>, m: nat, i: nat, n: nat, p: Params) {
    && p.Valid() && m < i && i + p.matchLen + p.leftBytes <= |block|
    && p.minMatch <= n <= p.matchLen && Repeats(block, i, i - m, n)
    && p.minOffset < i - m < p.maxOffset && (i - m <= 4097 || n > 3 || (n < 3 && !Repeats(block, i, i - m, 3)))
    && SameHash(block, m, i, p) && Busy(block, m, i, p) < p.level
  }

  // Nothing longer could have been found.
  ghost predicate Longest(block: seq<Byte>, i: nat, t: Token, p: Params) {
    forall m: nat, n: nat :: Findable(block, m, i, n, p) ==> n <= t.len
  }

  // The token for position i: a literal if there is nothing to find, otherwise the longest repetition,
  // and of several the latest.
  ghost predicate Best(block: seq<Byte>, i: nat, t: Token, p: Params) {
    && i < |block| && t.ch == block[i] && (t.len == 0 ==> t.offset == 0)
    && (t.len > 0 ==> t.offset < i && Findable(block, i - 1 - t.offset, i, t.len, p))
    && Longest(block, i, t, p)
    && forall m: nat :: Findable(block, m, i, t.len, p) ==> m <= i - 1 - t.offset
  }

  ghost predicate AllLongest(block: seq<Byte>, toks: seq<Token>, p: Params) {
    |toks| == |block| && forall i :: 0 <= i < |toks| ==> Longest(block, i, toks[i], p)
  }

  ghost predicate AllBest(block: seq<Byte>, toks: seq<Token>, p: Params) {
    |toks| == |block| && forall i :: 0 <= i < |toks| ==> Best(block, i, toks[i], p)
  }

  // So the block alone determines its tokens.
  lemma OnlyBest(block: seq<Byte>, s: seq<Token>, t: seq<Token>, p: Params)
    requires p.Valid() && AllBest(block, s, p) && AllBest(block, t, p)
    ensures s == t
  {
    forall i | 0 <= i < |s| ensures s[i] == t[i] {
      OneBest(block, i, s[i], t[i], p);
    }
  }

  lemma OneBest(block: seq<Byte>, i: nat, s: Token, t: Token, p: Params)
    requires p.Valid() && Best(block, i, s, p) && Best(block, i, t, p)
    ensures s == t
  {
    hide Findable;
    if s.len > 0 { assert Findable(block, i - 1 - s.offset, i, s.len, p); }
    if t.len > 0 { assert Findable(block, i - 1 - t.offset, i, t.len, p); }
  }

  lemma HashIs(w: seq<Byte>, minMatch: nat)
    requires |w| >= 4
    ensures Hash(w, minMatch) == HashBits(Wide(w[0]), Wide(w[1]), Wide(w[2]), Wide(w[3]), minMatch) as nat
  {
    hide HashBits, Wide;
  }

  lemma FourthUnused(a: bv12, b: bv12, c: bv12, d: bv12, e: bv12)
    ensures HashBits(a, b, c, d, 3) == HashBits(a, b, c, e, 3)
  {
  }

  // Windows that begin with the same bytes hash alike.
  lemma HashByFront(v: seq<Byte>, w: seq<Byte>, minMatch: nat)
    requires |v| >= 4 && |w| >= 4 && v[0] == w[0] && v[1] == w[1] && v[2] == w[2] && (minMatch == 3 || v[3] == w[3])
    ensures Hash(v, minMatch) == Hash(w, minMatch)
  {
    hide *;
    HashIs(v, minMatch);
    HashIs(w, minMatch);
    FourthUnused(Wide(v[0]), Wide(v[1]), Wide(v[2]), Wide(v[3]), Wide(w[3]));
  }

  // Windows that differ in a single byte of those hashed do not.
  lemma HashSeparates(v: seq<Byte>, w: seq<Byte>, minMatch: nat, k: nat)
    requires |v| >= 4 && |w| >= 4 && k < (if minMatch == 3 then 3 else 4) && v[k] != w[k]
    requires forall j :: 0 <= j < 4 && j != k ==> v[j] == w[j]
    ensures Hash(v, minMatch) != Hash(w, minMatch)
  {
    hide *;
    WideApart(v[k], w[k]);
    WideSmall(v[k]);
    WideSmall(w[k]);
    HashIs(v, minMatch);
    HashIs(w, minMatch);
    BitsSeparate(Wide(v[0]), Wide(v[1]), Wide(v[2]), Wide(v[3]), Wide(v[k]), Wide(w[k]), minMatch, k);
    NumbersApart(HashBits(Wide(v[0]), Wide(v[1]), Wide(v[2]), Wide(v[3]), minMatch),
                 HashBits(Wide(w[0]), Wide(w[1]), Wide(w[2]), Wide(w[3]), minMatch));
  }

  lemma WideIs(x: Byte)
    ensures Wide(x) as int == x
  {
    SmallNumber(x);
  }

  lemma WideApart(x: Byte, y: Byte)
    requires x != y
    ensures Wide(x) != Wide(y)
  {
    hide Wide;
    WideIs(x);
    WideIs(y);
  }

  lemma WideSmall(x: Byte)
    ensures Wide(x) <= 255
  {
    hide Wide;
    WideIs(x);
    if Wide(x) > 255 { LargeBits(Wide(x)); }
  }

  // Exchanging one byte for another changes the hash.
  lemma BitsSeparate(a: bv12, b: bv12, c: bv12, d: bv12, x: bv12, y: bv12, minMatch: nat, k: nat)
    requires x <= 255 && y <= 255 && x != y && k < (if minMatch == 3 then 3 else 4)
    requires x == if k == 0 then a else if k == 1 then b else if k == 2 then c else d
    ensures HashBits(a, b, c, d, minMatch)
         != HashBits(if k == 0 then y else a, if k == 1 then y else b, if k == 2 then y else c, if k == 3 then y else d, minMatch)
  {
    if minMatch == 3 { ThreeSeparate(a, b, c, x, y); } else { FourSeparate(a, b, c, d, x, y); }
  }

  lemma FourSeparate(a: bv12, b: bv12, c: bv12, d: bv12, x: bv12, y: bv12)
    requires x <= 255 && y <= 255 && x != y
    ensures (x << 4) ^ (b << 3) ^ (c << 2) ^ d != (y << 4) ^ (b << 3) ^ (c << 2) ^ d
    ensures (a << 4) ^ (x << 3) ^ (c << 2) ^ d != (a << 4) ^ (y << 3) ^ (c << 2) ^ d
    ensures (a << 4) ^ (b << 3) ^ (x << 2) ^ d != (a << 4) ^ (b << 3) ^ (y << 2) ^ d
  {
  }

  lemma ThreeSeparate(a: bv12, b: bv12, c: bv12, x: bv12, y: bv12)
    requires x <= 255 && y <= 255 && x != y
    ensures (x << 4) ^ (b << 3) ^ (c << 2) ^ (x << 1) ^ b != (y << 4) ^ (b << 3) ^ (c << 2) ^ (y << 1) ^ b
    ensures (a << 4) ^ (x << 3) ^ (c << 2) ^ (a << 1) ^ x != (a << 4) ^ (y << 3) ^ (c << 2) ^ (a << 1) ^ y
    ensures (a << 4) ^ (b << 3) ^ (x << 2) ^ (a << 1) ^ b != (a << 4) ^ (b << 3) ^ (y << 2) ^ (a << 1) ^ b
  {
  }

  // In a run of equal bytes the full window is found, however short the history.
  lemma RunIsFound(block: seq<Byte>, i: nat, t: Token, p: Params)
    requires p.Valid() && p.minOffset < p.level && p.minOffset + 1 < p.maxOffset && p.minOffset < 4097
    requires p.minOffset < i && i + p.matchLen + p.leftBytes <= |block|
    requires (forall k :: i - p.minOffset - 1 <= k < i + p.matchLen ==> block[k] == block[i]) && Longest(block, i, t, p)
    ensures t.len >= p.matchLen
  {
    var m := i - p.minOffset - 1;
    assert WindowAt(block, m, p) == WindowAt(block, i, p);
    assert Findable(block, m, i, p.matchLen, p);
  }
}
