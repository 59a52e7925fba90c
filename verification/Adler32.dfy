// Adler-32 (RFC 1950, section 8.2), W bytes per step: the sums over one word are taken in 12 and
// 16 bits, and one table look-up brings W * s1 plus those sums back below the modulus.

module Adler32 {
  import opened LzCore
  import opened Modular

  const MODULUS: nat := 65521

  // Remainders by the largest prime below 2^16.
  function Mod(x: nat): (r: nat)
    ensures r < MODULUS
  {
    x % MODULUS
  }

  // The checksum one byte at a time.
  datatype Sums = Sums(s1: nat, s2: nat)

  function NextSums(s: Sums, b: Byte): Sums {
    var a := Mod(s.s1 + b);
    Sums(a, Mod(s.s2 + a))
  }

  function Adler(s: Sums, bytes: seq<Byte>): Sums {
    if bytes == [] then s else NextSums(Adler(s, bytes[..|bytes| - 1]), bytes[|bytes| - 1])
  }

  predicate Reduced(s: Sums) {
    s.s1 < MODULUS && s.s2 < MODULUS
  }

  lemma {:induction false} AdlerReduced(s: Sums, bytes: seq<Byte>)
    requires Reduced(s)
    ensures Reduced(Adler(s, bytes))
  {
    if bytes != [] { AdlerReduced(s, bytes[..|bytes| - 1]); }
  }

  lemma {:induction false} AdlerConcat(s: Sums, a: seq<Byte>, b: seq<Byte>)
    ensures Adler(s, a + b) == Adler(Adler(s, a), b)
  {
    if b == [] {
      assert a + b == a;
    } else {
      AdlerConcat(s, a, b[..|b| - 1]);
      assert (a + b)[..|a + b| - 1] == a + b[..|b| - 1];
      hide NextSums;
    }
  }

  // ---------- The sums over one word ----------

  function Total(bytes: seq<Byte>): nat {
    if bytes == [] then 0 else Total(bytes[..|bytes| - 1]) + bytes[|bytes| - 1]
  }

  // The total of every prefix, added up.
  function Prefixes(bytes: seq<Byte>): nat {
    if bytes == [] then 0 else Prefixes(bytes[..|bytes| - 1]) + Total(bytes)
  }

  function Unreduced(s: Sums, bytes: seq<Byte>): nat {
    s.s2 + s.s1 * |bytes| + Prefixes(bytes)
  }

  // Reducing once at the end is reducing after every byte.
  lemma {:induction false} ReducedOnce(s: Sums, bytes: seq<Byte>)
    requires Reduced(s)
    ensures Adler(s, bytes) == Sums(Mod(s.s1 + Total(bytes)), Mod(Unreduced(s, bytes)))
  {
    hide *;
    if bytes == [] {
      NoBytes(s);
    } else {
      var front, b := bytes[..|bytes| - 1], bytes[|bytes| - 1];
      ReducedOnce(s, front);
      LastByte(s, bytes);
      UnreducedStep(s, bytes);
      NextReduced(s.s1 + Total(front), Unreduced(s, front), b);
    }
  }

  lemma NoBytes(s: Sums)
    requires Reduced(s)
    ensures Adler(s, []) == s == Sums(Mod(s.s1 + Total([])), Mod(Unreduced(s, [])))
  {
    assert s.s1 * 0 == 0;
  }

  lemma LastByte(s: Sums, bytes: seq<Byte>)
    requires bytes != []
    ensures Adler(s, bytes) == NextSums(Adler(s, bytes[..|bytes| - 1]), bytes[|bytes| - 1])
    ensures Total(bytes) == Total(bytes[..|bytes| - 1]) + bytes[|bytes| - 1]
  {
    hide NextSums;
  }

  lemma NextReduced(x: nat, y: nat, b: Byte)
    ensures NextSums(Sums(Mod(x), Mod(y)), b) == Sums(Mod(x + b), Mod(y + (x + b)))
  {
    SumMod(b, x);
    SumMod(x + b, y);
    SumMod(Mod(y), x + b);
  }

  lemma UnreducedStep(s: Sums, bytes: seq<Byte>)
    requires bytes != []
    ensures Unreduced(s, bytes) == Unreduced(s, bytes[..|bytes| - 1]) + (s.s1 + Total(bytes))
  {
    OneMore(s.s1, |bytes|);
    hide Total;
  }

  lemma OneMore(a: nat, n: nat)
    requires n > 0
    ensures a * n == a * (n - 1) + a
  {
  }

  // ---------- adler32 ----------

  const BASE: seq<nat> := [65521, 131042, 196563, 262084, 327605, 393126, 458647, 524168, 589689, 655210, 720731, 786252, 851773,
    917294, 982815, 1048336, 1113857]

  lemma BaseAt(k: nat)
    requires k <= 16
    ensures k < |BASE| && BASE[k] == MODULUS * (k + 1)
  {
  }

  // The largest multiple in the table that fits is taken off.
  method Reduce(v: nat, width: nat) returns (r: nat)
    requires 1 <= width <= 16 && v < MODULUS * (width + 2)
    ensures r == Mod(v)
  {
    r := v;
    var j: nat := 0;
    while j <= width
      invariant j <= width + 1 && r == v < MODULUS * (width - j + 2)
    {
      BaseAt(width - j);
      if r >= BASE[width - j] {
        r := r - BASE[width - j];
        break;
      }
      j := j + 1;
    }
  }

  // Neither the 12-bit nor the 16-bit sum wraps.
  method WordSums(word: seq<Byte>) returns (sTmp0: nat, sTmp1: nat)
    requires 1 <= |word| <= 16
    ensures sTmp0 == Total(word) <= 255 * |word| && sTmp1 == Prefixes(word) <= 4080 * |word|
  {
    assert word[..1] == [word[0]];
    FirstSums(word[0]);
    sTmp0, sTmp1 := word[0], word[0];
    var i: nat := 1;
    while i < |word|
      invariant 1 <= i <= |word|
      invariant sTmp0 == Total(word[..i]) <= 255 * i && sTmp1 == Prefixes(word[..i]) <= 4080 * i
    {
      SumsStep(word, i);
      sTmp0 := (sTmp0 + word[i]) % 0x1000;
      sTmp1 := (sTmp1 + sTmp0) % 0x1_0000;
      i := i + 1;
    }
    assert word[..i] == word;
  }

  lemma FirstSums(b: Byte)
    ensures Total([b]) == b && Prefixes([b]) == b
  {
    assert [b][..0] == [];
  }

  lemma SumsStep(word: seq<Byte>, i: nat)
    requires i < |word|
    ensures Total(word[..i + 1]) == Total(word[..i]) + word[i]
    ensures Prefixes(word[..i + 1]) == Prefixes(word[..i]) + Total(word[..i + 1])
  {
    assert word[..i + 1][..i] == word[..i];
  }

  // One whole word.
  method FullStep(s1: nat, s2: nat, word: seq<Byte>) returns (t1: nat, t2: nat)
    requires Reduced(Sums(s1, s2)) && 1 <= |word| <= 16
    ensures Sums(t1, t2) == Adler(Sums(s1, s2), word)
  {
    hide *;
    var sTmp0, sTmp1 := WordSums(word);
    ReducedOnce(Sums(s1, s2), word);
    Whole(s1, s2, word);
    var sTmp2 := Reduce(Scaled(s1, |word|) + sTmp1, |word|);
    t2 := AddBelow(s2, sTmp2);
    t1 := AddBelow(s1, sTmp0);
    SumMod(s2, Scaled(s1, |word|) + sTmp1);
  }

  function Scaled(a: nat, n: nat): nat {
    a * n
  }

  // The sum, less the modulus when it does not fit.
  method AddBelow(a: nat, b: nat) returns (r: nat)
    requires a < MODULUS && b < MODULUS
    ensures r == Mod(a + b)
  {
    r := if a + b >= BASE[0] then a - (BASE[0] - b) else a + b;
  }

  lemma Whole(s1: nat, s2: nat, word: seq<Byte>)
    requires Reduced(Sums(s1, s2)) && |word| <= 16
    ensures s1 < MODULUS && s2 < MODULUS && 4080 < MODULUS && Scaled(s1, |word|) + 4080 * |word| < MODULUS * (|word| + 2)
    ensures Unreduced(Sums(s1, s2), word) == s2 + (Scaled(s1, |word|) + Prefixes(word))
  {
    Room(s1, |word|);
    hide Prefixes;
  }

  lemma OneSubtraction(a: nat, b: nat)
    requires a < MODULUS && b < MODULUS
    ensures Mod(a + b) == if a + b >= MODULUS then a + b - MODULUS else a + b
  {
  }

  lemma Room(s1: nat, width: nat)
    requires s1 < MODULUS && width <= 16
    ensures s1 * width + 4080 * width < MODULUS * (width + 2)
  {
    Mono(width, s1, 65520);
  }

  lemma SumMod(a: nat, b: nat)
    ensures Mod(a + b) == Mod(a + Mod(b))
  {
  }

  // The bytes of a shorter last word, one by one.
  method LastStep(s1: nat, s2: nat, word: seq<Byte>, len: nat) returns (t1: nat, t2: nat)
    requires Reduced(Sums(s1, s2)) && len <= |word|
    ensures Sums(t1, t2) == Adler(Sums(s1, s2), word[..len])
  {
    t1, t2 := s1, s2;
    hide *;
    AdlerOfNothing(Sums(s1, s2));
    BaseAt(0);
    var j: nat := 0;
    while j < len
      invariant j <= len && Reduced(Sums(t1, t2)) && Sums(t1, t2) == Adler(Sums(s1, s2), word[..j])
    {
      ByteStep(t1, t2, word[j]);
      NextByte(Sums(s1, s2), word, j);
      t1 := t1 + word[j];
      if t1 >= BASE[0] { t1 := t1 - BASE[0]; }
      t2 := t2 + t1;
      if t2 >= BASE[0] { t2 := t2 - BASE[0]; }
      j := j + 1;
    }
  }

  lemma ByteStep(t1: nat, t2: nat, b: Byte)
    requires Reduced(Sums(t1, t2))
    ensures var a := if t1 + b >= MODULUS then t1 + b - MODULUS else t1 + b;
      var c := if t2 + a >= MODULUS then t2 + a - MODULUS else t2 + a;
      t1 < MODULUS && t2 < MODULUS && NextSums(Sums(t1, t2), b) == Sums(a, c) && Reduced(Sums(a, c))
  {
    OneSubtraction(t1, b);
    OneSubtraction(t2, Mod(t1 + b));
  }

  lemma NextByte(s: Sums, word: seq<Byte>, j: nat)
    requires j < |word|
    ensures Adler(s, word[..j + 1]) == NextSums(Adler(s, word[..j]), word[j])
  {
    assert word[..j + 1][..j] == word[..j];
    hide NextSums;
  }

  // The lengths of one message: whole words, at most one shorter word, then zero.
  predicate Message(width: nat, lens: seq<nat>, words: seq<seq<Byte>>) {
    |lens| == |words| + 1 && lens[|words|] == 0
    && (forall k :: 0 <= k < |words| ==> |words[k]| == width && 0 < lens[k] <= width)
    && (forall k :: 0 <= k < |words| - 1 ==> lens[k] == width)
  }

  // The bytes of the first n words, as far as their lengths go.
  function MessageBytes(width: nat, lens: seq<nat>, words: seq<seq<Byte>>, n: nat): seq<Byte>
    requires Message(width, lens, words) && n <= |words|
  {
    if n == 0 then [] else MessageBytes(width, lens, words, n - 1) + words[n - 1][..lens[n - 1]]
  }

  method Checksum(width: nat, adler: nat, lens: seq<nat>, words: seq<seq<Byte>>) returns (res: nat)
    requires 1 <= width <= 16 && adler < 0x1_0000_0000 && Message(width, lens, words)
    requires Reduced(Sums(adler % 0x1_0000, adler / 0x1_0000))
    ensures res < 0x1_0000_0000
    ensures Sums(res % 0x1_0000, res / 0x1_0000)
         == Adler(Sums(adler % 0x1_0000, adler / 0x1_0000), MessageBytes(width, lens, words, |words|))
  {
    hide *;
    var s1: nat, s2: nat := adler % 0x1_0000, adler / 0x1_0000 % 0x1_0000;
    ghost var s := Sums(s1, s2);
    AdlerOfNothing(s);
    NoWords(width, lens, words);
    var i: nat := 0;
    while lens[i] == width
      invariant i <= |words| && |lens| == |words| + 1 && lens[|words|] == 0
      invariant Reduced(Sums(s1, s2)) && Sums(s1, s2) == Adler(s, MessageBytes(width, lens, words, i))
      decreases |words| - i
    {
      WordAt(width, lens, words, i);
      AdlerConcat(s, MessageBytes(width, lens, words, i), words[i]);
      AdlerReduced(Sums(s1, s2), words[i]);
      s1, s2 := FullStep(s1, s2, words[i]);
      i := i + 1;
    }
    if lens[i] != 0 {
      WordAt(width, lens, words, i);
      AdlerConcat(s, MessageBytes(width, lens, words, i), words[i][..lens[i]]);
      AdlerReduced(Sums(s1, s2), words[i][..lens[i]]);
      s1, s2 := LastStep(s1, s2, words[i], lens[i]);
      i := i + 1;
    } else {
      EndsHere(width, lens, words, i);
    }
    InHalves(s1, s2);
    res := s2 * 0x1_0000 + s1;
  }

  lemma AdlerOfNothing(s: Sums)
    ensures Adler(s, []) == s
  {
  }

  lemma NoWords(width: nat, lens: seq<nat>, words: seq<seq<Byte>>)
    requires Message(width, lens, words)
    ensures |lens| == |words| + 1 && lens[|words|] == 0 && MessageBytes(width, lens, words, 0) == []
  {
  }

  lemma WordAt(width: nat, lens: seq<nat>, words: seq<seq<Byte>>, i: nat)
    requires Message(width, lens, words) && i < |lens| && lens[i] != 0
    ensures i < |words| && lens[i] <= |words[i]| == width
    ensures MessageBytes(width, lens, words, i + 1) == MessageBytes(width, lens, words, i) + words[i][..lens[i]]
    ensures lens[i] == width ==> words[i][..lens[i]] == words[i]
    ensures lens[i] != width ==> i + 1 == |words|
  {
  }

  lemma EndsHere(width: nat, lens: seq<nat>, words: seq<seq<Byte>>, i: nat)
    requires Message(width, lens, words) && i < |lens| && lens[i] == 0
    ensures i == |words|
  {
  }

  lemma InHalves(s1: nat, s2: nat)
    requires Reduced(Sums(s1, s2))
    ensures (s2 * 0x1_0000 + s1) % 0x1_0000 == s1 && (s2 * 0x1_0000 + s1) / 0x1_0000 == s2 < 0x1_0000
  {
  }
}
