// From the bytes of a block to its compressed bits and back: match finding, the division into
// symbols with their frequencies, trees, header, codes, bits, decoding, and the copying of matches.

module DeflateWhole {
  import opened Arithmetic
  import Modular
  import opened HuffmanTree
  import opened HuffmanConstruct
  import opened HuffmanCodec
  import opened LzCore
  import LzCompress
  import opened LzSearch
  import opened LzOptional
  import opened LzPipeline
  import opened DeflateBlock
  import opened DeflateEncode
  import opened DeflateRoundTrip
  import opened DeflateTrees
  import opened CodeLengthWay
  import opened DeflateStream

  // ---------- Tokens as items ----------

  function ItemOf(t: LzCore.Token): Item {
    if t.len == 0 then Item(t.ch, 0, 0) else Item(0, t.len, t.offset)
  }

  function ItemsOf(toks: seq<LzCore.Token>): (items: seq<Item>)
    ensures |items| == |toks|
  {
    if toks == [] then [] else ItemsOf(toks[..|toks| - 1]) + [ItemOf(toks[|toks| - 1])]
  }

  lemma {:induction false} ItemAt(toks: seq<LzCore.Token>, k: nat)
    requires k < |toks|
    ensures ItemsOf(toks)[k] == ItemOf(toks[k])
    decreases |toks|
  {
    if k < |toks| - 1 { ItemAt(toks[..|toks| - 1], k); }
  }

  ghost predicate Divisible(toks: seq<LzCore.Token>) {
    forall k :: 0 <= k < |toks| ==> Valid(ItemOf(toks[k]))
  }

  lemma ItemsValid(toks: seq<LzCore.Token>)
    requires Divisible(toks)
    ensures AllValid(ItemsOf(toks))
  {
    hide Valid, ItemOf;
    forall k | 0 <= k < |toks| ensures Valid(ItemsOf(toks)[k]) { ItemAt(toks, k); }
  }

  // The words of a decoded block.
  function ItemWords(items: seq<Item>): seq<LzCore.Word> {
    if items == [] then [] else ItemWords(items[..|items| - 1]) + [ItemWord(items[|items| - 1])]
  }

  function ItemWord(i: Item): LzCore.Word {
    if i.len == 0 then LzCore.Word(i.ch, 0) else LzCore.Word(i.offset, i.len - 1)
  }

  lemma {:induction false} SameWords(toks: seq<LzCore.Token>)
    ensures ItemWords(ItemsOf(toks)) == LzCore.WordsOf(toks)
  {
    if toks != [] {
      SameWords(toks[..|toks| - 1]);
      assert ItemsOf(toks)[..|toks| - 1] == ItemsOf(toks[..|toks| - 1]);
    }
  }

  lemma {:induction false} PlainAlready(items: seq<Item>)
    requires forall k :: 0 <= k < |items| ==> Plain(items[k]) == items[k]
    ensures AllPlain(items) == items
  {
    if items != [] { PlainAlready(items[1..]); }
  }

  lemma ItemsPlain(toks: seq<LzCore.Token>)
    ensures AllPlain(ItemsOf(toks)) == ItemsOf(toks)
  {
    var items := ItemsOf(toks);
    forall k | 0 <= k < |items| ensures Plain(items[k]) == items[k] { ItemAt(toks, k); }
    PlainAlready(items);
  }

  // ---------- Symbols and their frequencies ----------

  function LitSymbol(u: LookUps, i: Item): nat
    requires u.Sized() && i.len < 256
  {
    if i.len == 0 then i.ch else u.LengthCode(i.len) + 257
  }

  ghost function LitSymbols(u: LookUps, toks: seq<LzCore.Token>): (s: seq<nat>)
    requires u.Sized() && Divisible(toks)
    ensures |s| == |toks|
  {
    if toks == [] then [] else LitSymbols(u, toks[..|toks| - 1]) + [LitSymbol(u, ItemOf(toks[|toks| - 1]))]
  }

  ghost function DistSymbols(u: LookUps, toks: seq<LzCore.Token>): (s: seq<nat>)
    requires u.Sized() && Divisible(toks)
    ensures |s| <= |toks|
  {
    if toks == [] then []
    else DistSymbols(u, toks[..|toks| - 1]) + if toks[|toks| - 1].len == 0 then [] else [u.DistCode(ItemOf(toks[|toks| - 1]).offset)]
  }

  lemma CountsOne(freqs: seq<nat>, size: nat, symbols: seq<nat>, x: nat)
    requires Frequencies(freqs, size, symbols) && x < size
    ensures Frequencies(freqs[x := freqs[x] + 1], size, symbols + [x]) && freqs[x] <= |symbols|
  {
    CountAtMost(symbols, x);
    var f := freqs[x := freqs[x] + 1];
    forall y | 0 <= y < size ensures f[y] == Count(symbols + [x], y) {
      CountConcat(symbols, [x], y);
      CountOfOne(x, y);
    }
  }

  // ---------- lz77DivideStream ----------

  // A token in words of nine bits: the flag marks the length of a match.
  function NineBits(i: Item): seq<nat> {
    if i.len == 0 then [i.ch] else [256 + i.len, i.offset % 256, i.offset / 256]
  }

  function Divided(toks: seq<LzCore.Token>): seq<nat> {
    if toks == [] then [] else NineBits(ItemOf(toks[0])) + Divided(toks[1..])
  }

  lemma {:induction false} DividedAppend(toks: seq<LzCore.Token>, t: LzCore.Token)
    ensures Divided(toks + [t]) == Divided(toks) + NineBits(ItemOf(t))
  {
    hide NineBits, ItemOf;
    if toks == [] {
      assert [] + [t] == [t] && [t][1..] == [];
      assert NineBits(ItemOf(t)) + [] == [] + NineBits(ItemOf(t));
    } else {
      DividedAppend(toks[1..], t);
      assert (toks + [t])[1..] == toks[1..] + [t];
      assert NineBits(ItemOf(toks[0])) + (Divided(toks[1..]) + NineBits(ItemOf(t)))
          == NineBits(ItemOf(toks[0])) + Divided(toks[1..]) + NineBits(ItemOf(t));
    }
  }

  datatype DivideState = WriteLiteral | WriteOffset0 | WriteOffset1

  function Left(s: DivideState): nat {
    match s
    case WriteLiteral => 0
    case WriteOffset0 => 2
    case WriteOffset1 => 1
  }

  // The words still missing of the last token read.
  function Missing(s: DivideState, i: Item): seq<nat> {
    match s
    case WriteLiteral => []
    case WriteOffset0 => [i.offset % 256, i.offset / 256]
    case WriteOffset1 => [i.offset / 256]
  }

  // n tokens have been read and counted, the last perhaps not sent in full.
  ghost predicate Dividing(u: LookUps, toks: seq<LzCore.Token>, n: nat, s: DivideState, out: seq<nat>, lit: seq<nat>, dist: seq<nat>)
    requires u.Sized() && Divisible(toks)
  {
    n <= |toks| && Divisible(toks[..n])
    && Frequencies(lit, 286, LitSymbols(u, toks[..n])) && Frequencies(dist, 30, DistSymbols(u, toks[..n]))
    && if s.WriteLiteral? then out == Divided(toks[..n]) else n > 0 && toks[n - 1].len > 0 && out + Missing(s, ItemOf(toks[n - 1])) == Divided(toks[..n])
  }

  lemma TokenSymbols(u: LookUps, i: Item)
    requires u.Sound() && Valid(i)
    ensures u.Sized() && i.len < 256 && i.offset < 0x8000 && LitSymbol(u, i) < 286 && LitSymbol(u, i) != 256
    ensures i.len > 0 ==> u.DistCode(i.offset) < 30 && LitSymbol(u, i) == u.LengthCode(i.len) + 257
  {
    if i.len > 0 {
      assert LengthFits(u.LengthCode(i.len), i.len) && DistFits(u.DistCode(i.offset), i.offset);
      hide Pow2, LengthBits, DistanceBits;
    }
  }

  lemma PrefixDivisible(toks: seq<LzCore.Token>, n: nat)
    requires Divisible(toks) && n <= |toks|
    ensures Divisible(toks[..n])
  {
    hide Valid, ItemOf;
  }

  lemma NextSymbols(u: LookUps, toks: seq<LzCore.Token>, n: nat)
    requires u.Sized() && Divisible(toks) && n < |toks|
    ensures Divisible(toks[..n]) && Divisible(toks[..n + 1]) && Valid(ItemOf(toks[n]))
    ensures ItemOf(toks[n]).len == toks[n].len && ItemOf(toks[n]).len < 256 && ItemOf(toks[n]).offset < 0x8000
    ensures LitSymbols(u, toks[..n + 1]) == LitSymbols(u, toks[..n]) + [LitSymbol(u, ItemOf(toks[n]))]
    ensures DistSymbols(u, toks[..n + 1]) == DistSymbols(u, toks[..n]) + if toks[n].len == 0 then [] else [u.DistCode(ItemOf(toks[n]).offset)]
    ensures Divided(toks[..n + 1]) == Divided(toks[..n]) + NineBits(ItemOf(toks[n]))
  {
    PrefixDivisible(toks, n);
    PrefixDivisible(toks, n + 1);
    assert toks[..n + 1][..n] == toks[..n] && toks[..n + 1] == toks[..n] + [toks[n]];
    DividedAppend(toks[..n], toks[n]);
    hide LitSymbol, NineBits, Divided;
  }

  // A token is read: its symbols are counted and its first word goes out.
  lemma DividesNext(u: LookUps, toks: seq<LzCore.Token>, n: nat, out: seq<nat>, lit: seq<nat>, dist: seq<nat>)
    requires u.Sound() && u.Sized() && Divisible(toks) && n < |toks| && Dividing(u, toks, n, WriteLiteral, out, lit, dist)
    ensures var i := ItemOf(toks[n]);
      Valid(i) && i.len == toks[n].len < 256 && i.offset < 0x8000 && |lit| == 286 && |dist| == 30
    ensures var i := ItemOf(toks[n]);
      LitSymbol(u, i) < 286 && lit[LitSymbol(u, i)] <= n && (i.len > 0 ==> u.DistCode(i.offset) < 30 && dist[u.DistCode(i.offset)] <= n)
    ensures var i := ItemOf(toks[n]);
      i.len == 0 ==> i.ch < 256 && Dividing(u, toks, n + 1, WriteLiteral, out + [i.ch], lit[i.ch := lit[i.ch] + 1], dist)
    ensures var i := ItemOf(toks[n]);
      i.len > 0 ==>
        Dividing(u, toks, n + 1, WriteOffset0, out + [256 + i.len], lit[LitSymbol(u, i) := lit[LitSymbol(u, i)] + 1],
                 dist[u.DistCode(i.offset) := dist[u.DistCode(i.offset)] + 1])
  {
    hide *;
    var i := ItemOf(toks[n]);
    NextSymbols(u, toks, n);
    TokenSymbols(u, i);
    DividingOpens(u, toks, n, out, lit, dist);
    ItemIs(toks[n]);
    CountsOne(lit, 286, LitSymbols(u, toks[..n]), LitSymbol(u, i));
    LiteralSymbol(u, i);
    if i.len > 0 {
      CountsOne(dist, 30, DistSymbols(u, toks[..n]), u.DistCode(i.offset));
      DividingMatch(u, toks, n + 1, out + [256 + i.len], lit[LitSymbol(u, i) := lit[LitSymbol(u, i)] + 1],
                    dist[u.DistCode(i.offset) := dist[u.DistCode(i.offset)] + 1], out);
    } else {
      DividingLiteral(u, toks, n + 1, out + [i.ch], lit[i.ch := lit[i.ch] + 1], dist);
    }
  }

  lemma LiteralSymbol(u: LookUps, i: Item)
    requires u.Sized() && Valid(i)
    ensures i.len < 256 && (i.len == 0 ==> LitSymbol(u, i) == i.ch < 256) && (i.len == 0 ==> NineBits(i) == [i.ch])
  {
  }

  lemma DividingOpens(u: LookUps, toks: seq<LzCore.Token>, n: nat, out: seq<nat>, lit: seq<nat>, dist: seq<nat>)
    requires u.Sized() && Divisible(toks) && Dividing(u, toks, n, WriteLiteral, out, lit, dist)
    ensures n <= |toks| && Divisible(toks[..n]) && out == Divided(toks[..n]) && |lit| == 286 && |dist| == 30
    ensures |LitSymbols(u, toks[..n])| == n && |DistSymbols(u, toks[..n])| <= n
    ensures Frequencies(lit, 286, LitSymbols(u, toks[..n])) && Frequencies(dist, 30, DistSymbols(u, toks[..n]))
    ensures DistSymbols(u, toks[..n]) + [] == DistSymbols(u, toks[..n])
  {
    hide LitSymbols, DistSymbols, Divided, Divisible;
  }

  lemma DividingLiteral(u: LookUps, toks: seq<LzCore.Token>, n: nat, out: seq<nat>, lit: seq<nat>, dist: seq<nat>)
    requires u.Sized() && Divisible(toks) && n <= |toks| && Divisible(toks[..n]) && out == Divided(toks[..n])
    requires Frequencies(lit, 286, LitSymbols(u, toks[..n])) && Frequencies(dist, 30, DistSymbols(u, toks[..n]))
    ensures Dividing(u, toks, n, WriteLiteral, out, lit, dist)
  {
    hide LitSymbols, DistSymbols, Divided, Divisible, Frequencies;
  }

  lemma DividingMatch(u: LookUps, toks: seq<LzCore.Token>, n: nat, out: seq<nat>, lit: seq<nat>, dist: seq<nat>, before: seq<nat>)
    requires u.Sized() && Divisible(toks) && 0 < n <= |toks| && Divisible(toks[..n]) && toks[n - 1].len > 0
    requires out == before + [256 + ItemOf(toks[n - 1]).len] && Divided(toks[..n]) == before + NineBits(ItemOf(toks[n - 1]))
    requires Frequencies(lit, 286, LitSymbols(u, toks[..n])) && Frequencies(dist, 30, DistSymbols(u, toks[..n]))
    ensures Dividing(u, toks, n, WriteOffset0, out, lit, dist)
  {
    ItemIs(toks[n - 1]);
    var i := ItemOf(toks[n - 1]);
    hide LitSymbols, DistSymbols, Divided, Divisible, Frequencies, ItemOf;
    assert out + [i.offset % 256, i.offset / 256] == before + [256 + i.len, i.offset % 256, i.offset / 256];
  }

  lemma DividesOffset(u: LookUps, toks: seq<LzCore.Token>, n: nat, s: DivideState, out: seq<nat>, lit: seq<nat>, dist: seq<nat>)
    requires u.Sized() && Divisible(toks) && !s.WriteLiteral? && Dividing(u, toks, n, s, out, lit, dist)
    ensures n > 0 && n <= |toks|
    ensures s.WriteOffset0? ==> Dividing(u, toks, n, WriteOffset1, out + [ItemOf(toks[n - 1]).offset % 256], lit, dist)
    ensures s.WriteOffset1? ==> Dividing(u, toks, n, WriteLiteral, out + [ItemOf(toks[n - 1]).offset / 256], lit, dist)
  {
    hide Frequencies, LitSymbols, DistSymbols, Divided, Divisible, ItemOf;
    var i := ItemOf(toks[n - 1]);
    assert out + [i.offset % 256] + [i.offset / 256] == out + [i.offset % 256, i.offset / 256];
  }

  // The stream of words and the frequencies of both trees.
  method Lz77DivideStream(u: LookUps, toks: seq<LzCore.Token>, wrap: nat) returns (out: seq<nat>, lit: seq<nat>, dist: seq<nat>)
    requires u.Sound() && Divisible(toks) && |toks| < wrap
    ensures u.Sized() && out == Divided(toks)
    ensures Frequencies(lit, 286, LitSymbols(u, toks)) && Frequencies(dist, 30, DistSymbols(u, toks))
  {
    hide *;
    SoundIsSized(u);
    out, lit, dist := [], Zeros(286), Zeros(30);
    NothingDivided(u, toks, lit, dist);
    var nextState: DivideState := WriteLiteral;
    var tOffset1: nat, tOffset2: nat, i: nat := 0, 0, 0;
    Lefts();
    while true
      invariant u.Sized() && i <= |toks| && Dividing(u, toks, i, nextState, out, lit, dist)
      invariant !nextState.WriteLiteral? ==> i > 0 && tOffset2 == ItemOf(toks[i - 1]).offset / 256
      invariant nextState.WriteOffset0? ==> i > 0 && tOffset1 == ItemOf(toks[i - 1]).offset % 256
      decreases |toks| - i, Left(nextState)
    {
      if nextState == WriteLiteral {
        if i == |toks| { break; }
        DividesNext(u, toks, i, out, lit, dist);
        var item := ItemOf(toks[i]);
        SymbolIs(u, item);
        tOffset1, tOffset2 := item.offset % 256, item.offset / 256;
        if item.len > 0 {
          var ltreeIdx, dtreeIdx := u.LengthCode(item.len) + 257, u.DistCode(item.offset);
          Modular.Unwrapped(lit[ltreeIdx] + 1, wrap);
          Modular.Unwrapped(dist[dtreeIdx] + 1, wrap);
          lit := lit[ltreeIdx := Modular.Wrapped(lit[ltreeIdx] + 1, wrap)];
          dist := dist[dtreeIdx := Modular.Wrapped(dist[dtreeIdx] + 1, wrap)];
          out := out + [256 + item.len];
          nextState := WriteOffset0;
        } else {
          Modular.Unwrapped(lit[item.ch] + 1, wrap);
          lit := lit[item.ch := Modular.Wrapped(lit[item.ch] + 1, wrap)];
          out := out + [item.ch];
        }
        i := i + 1;
      } else if nextState == WriteOffset0 {
        DividesOffset(u, toks, i, nextState, out, lit, dist);
        out := out + [tOffset1];
        nextState := WriteOffset1;
      } else {
        DividesOffset(u, toks, i, nextState, out, lit, dist);
        out := out + [tOffset2];
        nextState := WriteLiteral;
      }
    }
    AllDivided(u, toks, out, lit, dist);
  }

  function Zeros(n: nat): (z: seq<nat>)
    ensures |z| == n && forall k :: 0 <= k < n ==> z[k] == 0
  {
    if n == 0 then [] else Zeros(n - 1) + [0]
  }

  lemma Lefts()
    ensures Left(WriteLiteral) < Left(WriteOffset1) < Left(WriteOffset0)
  {
  }

  lemma NothingDivided(u: LookUps, toks: seq<LzCore.Token>, lit: seq<nat>, dist: seq<nat>)
    requires u.Sized() && Divisible(toks) && lit == Zeros(286) && dist == Zeros(30)
    ensures Dividing(u, toks, 0, WriteLiteral, [], lit, dist)
  {
    assert toks[..0] == [];
    hide Zeros;
    assert forall x :: Count([], x) == 0;
  }

  lemma SymbolIs(u: LookUps, i: Item)
    requires u.Sized() && i.len < 256
    ensures LitSymbol(u, i) == if i.len == 0 then i.ch else u.LengthCode(i.len) + 257
  {
  }

  lemma AllDivided(u: LookUps, toks: seq<LzCore.Token>, out: seq<nat>, lit: seq<nat>, dist: seq<nat>)
    requires u.Sized() && Divisible(toks) && Dividing(u, toks, |toks|, WriteLiteral, out, lit, dist)
    ensures out == Divided(toks) && Frequencies(lit, 286, LitSymbols(u, toks)) && Frequencies(dist, 30, DistSymbols(u, toks))
  {
    assert toks[..|toks|] == toks;
    hide Frequencies, LitSymbols, DistSymbols, Divided;
  }

  // ---------- huffmanProcessingUnit ----------

  // What is left of the words: perhaps the rest of one match, and those of the later tokens.
  ghost predicate Joining(left: seq<nat>, toks: seq<LzCore.Token>, n: nat, s: DivideState, out: seq<Item>) {
    n <= |toks| && out == ItemsOf(toks[..n])
    && if s.WriteLiteral? then left == Divided(toks[n..])
       else n < |toks| && toks[n].len > 0 && left == Missing(s, ItemOf(toks[n])) + Divided(toks[n + 1..])
  }

  lemma OneItemMore(toks: seq<LzCore.Token>, n: nat)
    requires n < |toks|
    ensures ItemsOf(toks[..n + 1]) == ItemsOf(toks[..n]) + [ItemOf(toks[n])]
    ensures Divided(toks[n..]) == NineBits(ItemOf(toks[n])) + Divided(toks[n + 1..])
  {
    assert toks[..n + 1][..n] == toks[..n] && toks[n..][1..] == toks[n + 1..];
    hide ItemOf, NineBits;
  }

  // The next word, and the state after it.
  lemma JoinsNext(left: seq<nat>, toks: seq<LzCore.Token>, n: nat, s: DivideState, out: seq<Item>)
    requires Joining(left, toks, n, s, out) && left != []
    ensures n < |toks|
    ensures s.WriteLiteral? && toks[n].len == 0 ==>
      left[0] == ItemOf(toks[n]).ch && Joining(left[1..], toks, n + 1, WriteLiteral, out + [ItemOf(toks[n])])
    ensures s.WriteLiteral? && toks[n].len > 0 ==>
      left[0] == 256 + ItemOf(toks[n]).len && Joining(left[1..], toks, n, WriteOffset0, out)
    ensures s.WriteOffset0? ==> left[0] == ItemOf(toks[n]).offset % 256 && Joining(left[1..], toks, n, WriteOffset1, out)
    ensures s.WriteOffset1? ==>
      left[0] == ItemOf(toks[n]).offset / 256 && Joining(left[1..], toks, n + 1, WriteLiteral, out + [ItemOf(toks[n])])
  {
    hide *;
    WordsLeft(left, toks, n, s, out);
    JoiningOpens(left, toks, n, s, out);
    OneItemMore(toks, n);
    ItemIs(toks[n]);
    var i, rest := ItemOf(toks[n]), Divided(toks[n + 1..]);
    WordsOfItem(i, rest);
    JoiningCloses(left[1..], toks, n, WriteOffset0, out);
    JoiningCloses(left[1..], toks, n, WriteOffset1, out);
    JoiningCloses(left[1..], toks, n + 1, WriteLiteral, out + [i]);
  }

  lemma JoiningOpens(left: seq<nat>, toks: seq<LzCore.Token>, n: nat, s: DivideState, out: seq<Item>)
    requires Joining(left, toks, n, s, out)
    ensures n <= |toks| && out == ItemsOf(toks[..n])
    ensures s.WriteLiteral? ==> left == Divided(toks[n..])
    ensures !s.WriteLiteral? ==> n < |toks| && toks[n].len > 0 && left == Missing(s, ItemOf(toks[n])) + Divided(toks[n + 1..])
  {
    hide ItemsOf, ItemOf, Divided, Missing;
  }

  lemma JoiningCloses(left: seq<nat>, toks: seq<LzCore.Token>, n: nat, s: DivideState, out: seq<Item>)
    ensures n <= |toks| && out == ItemsOf(toks[..n]) && s.WriteLiteral? && left == Divided(toks[n..]) ==> Joining(left, toks, n, s, out)
    ensures n < |toks| && out == ItemsOf(toks[..n]) && !s.WriteLiteral? && toks[n].len > 0 ==>
      left == Missing(s, ItemOf(toks[n])) + Divided(toks[n + 1..]) ==> Joining(left, toks, n, s, out)
  {
    hide ItemsOf, ItemOf, Divided, Missing;
  }

  // What one word less leaves.
  lemma WordsOfItem(i: Item, rest: seq<nat>)
    ensures i.len == 0 ==> NineBits(i) + rest != [] && (NineBits(i) + rest)[0] == i.ch && (NineBits(i) + rest)[1..] == rest
    ensures i.len > 0 ==> NineBits(i) + rest != [] && (NineBits(i) + rest)[0] == 256 + i.len
    ensures i.len > 0 ==> (NineBits(i) + rest)[1..] == Missing(WriteOffset0, i) + rest
    ensures |Missing(WriteOffset0, i)| == 2 && |Missing(WriteOffset1, i)| == 1
    ensures (Missing(WriteOffset0, i) + rest)[0] == i.offset % 256 && (Missing(WriteOffset0, i) + rest)[1..] == Missing(WriteOffset1, i) + rest
    ensures (Missing(WriteOffset1, i) + rest)[0] == i.offset / 256 && (Missing(WriteOffset1, i) + rest)[1..] == rest
  {
    var a, b := i.offset % 256, i.offset / 256;
    assert ([i.ch] + rest)[1..] == rest;
    assert ([256 + i.len, a, b] + rest)[1..] == [a, b] + rest;
    assert ([a, b] + rest)[1..] == [b] + rest;
    assert ([b] + rest)[1..] == rest;
  }

  lemma WordsLeft(left: seq<nat>, toks: seq<LzCore.Token>, n: nat, s: DivideState, out: seq<Item>)
    requires Joining(left, toks, n, s, out) && left != []
    ensures n < |toks|
  {
    hide ItemsOf, ItemOf, NineBits;
  }

  // The items of the words.
  method HuffmanProcessingUnit(input: seq<nat>, ghost toks: seq<LzCore.Token>) returns (out: seq<Item>)
    requires Divisible(toks) && input == Divided(toks)
    ensures out == ItemsOf(toks)
  {
    hide *;
    out := [];
    var nextState: DivideState := WriteLiteral;
    var len: nat, offset0: nat, left: seq<nat> := 0, 0, input;
    ghost var n: nat := 0;
    JoiningStarts(input, toks);
    while left != []
      invariant n <= |toks| && Joining(left, toks, n, nextState, out)
      invariant !nextState.WriteLiteral? ==> n < |toks| && toks[n].len > 0 && len == ItemOf(toks[n]).len
      invariant nextState.WriteOffset1? ==> n < |toks| && offset0 == ItemOf(toks[n]).offset % 256
      decreases |left|
    {
      JoinsNext(left, toks, n, nextState, out);
      ItemSmall(toks, n);
      ItemIs(toks[n]);
      var inValue := left[0];
      left := left[1..];
      if nextState == WriteLiteral {
        if inValue / 256 == 1 {
          len := inValue % 256;
          nextState := WriteOffset0;
        } else {
          out := out + [Item(inValue, 0, 0)];
          n := n + 1;
        }
      } else if nextState == WriteOffset0 {
        offset0 := inValue;
        nextState := WriteOffset1;
      } else {
        out := out + [Item(0, len, offset0 + 256 * inValue)];
        nextState := WriteLiteral;
        n := n + 1;
      }
    }
    AllJoined(toks, n, nextState, out);
  }

  lemma JoiningStarts(input: seq<nat>, toks: seq<LzCore.Token>)
    requires input == Divided(toks)
    ensures Joining(input, toks, 0, WriteLiteral, [])
  {
    assert toks[..0] == [] && toks[0..] == toks;
  }

  lemma ItemSmall(toks: seq<LzCore.Token>, n: nat)
    requires Divisible(toks) && n < |toks|
    ensures ItemOf(toks[n]).ch < 256 && ItemOf(toks[n]).len < 256
  {
    assert Valid(ItemOf(toks[n]));
  }

  lemma ItemIs(t: LzCore.Token)
    ensures t.len == 0 ==> ItemOf(t) == Item(t.ch, 0, 0)
    ensures t.len > 0 ==> ItemOf(t) == Item(0, t.len, t.offset)
  {
  }

  lemma MoreWords(toks: seq<LzCore.Token>, n: nat)
    requires n < |toks|
    ensures Divided(toks[n..]) != []
  {
    OneItemMore(toks, n);
    hide Divided;
    assert |NineBits(ItemOf(toks[n]))| > 0;
  }

  lemma AllJoined(toks: seq<LzCore.Token>, n: nat, s: DivideState, out: seq<Item>)
    requires Joining([], toks, n, s, out)
    ensures out == ItemsOf(toks)
  {
    if s.WriteLiteral? && n < |toks| {
      MoreWords(toks, n);
      assert false;
    }
    hide ItemOf, NineBits, ItemsOf;
    assert toks[..|toks|] == toks;
  }

  // ---------- Every symbol of the block is counted ----------

  lemma {:induction false} LitPresent(u: LookUps, toks: seq<LzCore.Token>, k: nat)
    requires u.Sized() && Divisible(toks) && k < |toks| && ItemOf(toks[k]).len < 256
    ensures Count(LitSymbols(u, toks), LitSymbol(u, ItemOf(toks[k]))) > 0
    decreases |toks|
  {
    var n := |toks| - 1;
    assert toks[..n + 1] == toks;
    NextSymbols(u, toks, n);
    var x := LitSymbol(u, ItemOf(toks[k]));
    CountConcat(LitSymbols(u, toks[..n]), [LitSymbol(u, ItemOf(toks[n]))], x);
    CountOfOne(LitSymbol(u, ItemOf(toks[n])), x);
    hide LitSymbols, LitSymbol, ItemOf, Count, Divisible;
    if k < n { LitPresent(u, toks[..n], k); }
  }

  lemma {:induction false} DistPresent(u: LookUps, toks: seq<LzCore.Token>, k: nat)
    requires u.Sized() && Divisible(toks) && k < |toks| && toks[k].len > 0 && ItemOf(toks[k]).offset < 0x8000
    ensures Count(DistSymbols(u, toks), u.DistCode(ItemOf(toks[k]).offset)) > 0
    decreases |toks|
  {
    var n := |toks| - 1;
    assert toks[..n + 1] == toks;
    NextSymbols(u, toks, n);
    var x, more := u.DistCode(ItemOf(toks[k]).offset), if toks[n].len == 0 then [] else [u.DistCode(ItemOf(toks[n]).offset)];
    CountConcat(DistSymbols(u, toks[..n]), more, x);
    if k < n {
      DistPresent(u, toks[..n], k);
      hide *;
    } else {
      CountOfOne(x, x);
      hide *;
    }
  }

  lemma ItemCounted(u: LookUps, toks: seq<LzCore.Token>, lit: seq<nat>, dist: seq<nat>, k: nat)
    requires u.Sound() && u.Sized() && Divisible(toks) && k < |toks|
    requires Frequencies(lit, 286, LitSymbols(u, toks)) && Frequencies(dist, 30, DistSymbols(u, toks))
    ensures Valid(ItemOf(toks[k])) && |lit| == 286 && |dist| == 30 && CountedIn(lit, dist, u, ItemOf(toks[k]))
  {
    var i := ItemOf(toks[k]);
    ItemIs(toks[k]);
    TokenSymbols(u, i);
    LiteralSymbol(u, i);
    SymbolIs(u, i);
    LitPresent(u, toks, k);
    if i.len > 0 {
      DistPresent(u, toks, k);
      assert LengthFits(u.LengthCode(i.len), i.len) && DistFits(u.DistCode(i.offset), i.offset);
    }
    hide LitSymbols, DistSymbols, Count, Divisible, ItemOf, LookUps.Sound, LengthFits, DistFits, LitSymbol;
  }

  lemma ItemsCounted(u: LookUps, toks: seq<LzCore.Token>, lit: seq<nat>, dist: seq<nat>)
    requires u.Sound() && u.Sized() && Divisible(toks)
    requires Frequencies(lit, 286, LitSymbols(u, toks)) && Frequencies(dist, 30, DistSymbols(u, toks))
    ensures AllValid(ItemsOf(toks)) && |lit| == 286 && |dist| == 30 && AllCounted(lit, dist, u, ItemsOf(toks))
  {
    ItemsValid(toks);
    hide Divisible, LookUps.Sound, Frequencies, Valid, CountedIn, ItemOf;
    FrequencySizes(u, toks, lit, dist);
    forall k | 0 <= k < |ItemsOf(toks)| ensures CountedIn(lit, dist, u, ItemsOf(toks)[k]) {
      ItemAt(toks, k);
      ItemCounted(u, toks, lit, dist, k);
    }
  }

  lemma FrequencySizes(u: LookUps, toks: seq<LzCore.Token>, lit: seq<nat>, dist: seq<nat>)
    requires u.Sized() && Divisible(toks)
    requires Frequencies(lit, 286, LitSymbols(u, toks)) && Frequencies(dist, 30, DistSymbols(u, toks))
    ensures |lit| == 286 && |dist| == 30
    ensures Total(lit, 286) <= |toks| + 1 && Total(dist, 30) <= |toks|
  {
    TotalOfCounts(lit, 286, LitSymbols(u, toks), 286);
    TotalOfCounts(dist, 30, DistSymbols(u, toks), 30);
    hide LitSymbols, DistSymbols, Divisible, Total, Count;
  }

  // ---------- The whole way ----------

  lemma {:induction false} TokensAreFew(toks: seq<LzCore.Token>, input: seq<Byte>, p: nat)
    requires Parses(toks, input, p)
    ensures |toks| <= p && (p > 0 ==> toks != [])
    decreases |toks|
  {
    if toks != [] { TokensAreFew(toks[..|toks| - 1], input, p - Span(toks[|toks| - 1])); }
  }

  // The sizes of the zlib pipeline: matches of 3 to 255 bytes within 32 KB.
  ghost predicate Suits(c: Config) {
    c.p.Valid() && 3 <= c.p.minMatch && c.p.matchLen <= c.maxMatch < 256 && c.p.leftBytes > 0 && c.window > 0 && 0 < c.p.maxOffset <= 0x8000
  }

  lemma CompressedIsTrue(input: seq<Byte>, toks: seq<LzCore.Token>, c: Config)
    requires Suits(c) && |toks| == |input| && LzCompress.GoodTokens(input, toks, c.p)
    ensures Annotated(input, toks, c.Lim(), c.p.leftBytes) && 2 <= c.Lim().minMatch <= c.Lim().maxMatch
  {
    forall i | 0 <= i < |toks| ensures LzCompress.GoodToken(input, i, toks[i], c.p) {}
  }

  // The streaming booster remembers no more than a block.
  function BlockWindow(c: Config, maxInput: nat): nat {
    if maxInput < c.window then maxInput else c.window
  }

  // The streaming versions of match finder, filter and booster, on one block.
  method FindBlockMatches(input: seq<Byte>, c: Config, maxInput: nat) returns (toks: seq<LzCore.Token>)
    requires Suits(c) && c.p.leftBytes + c.p.matchLen - 1 <= |input| <= maxInput
    requires 0 < maxInput && 2 * maxInput + LzCompress.TOTAL_DICT_SIZE <= LzCompress.RESET_INDEX
    ensures Sent(toks, input, |input|, c.Lim()) && Found(toks, input, c.p, 1, c.Lim(), BlockWindow(c, maxInput))
  {
    var blocks := [input];
    var found := LzCompress.LzCompressStream(blocks, maxInput, c.p);
    var compressd := found[0];
    assert |compressd| == |input| && LzCompress.GoodTokens(input, compressd, c.p) && AllBest(input, compressd, c.p) by {
      assert |found[0]| == |blocks[0]| && LzCompress.GoodTokens(blocks[0], found[0], c.p) && AllBest(blocks[0], found[0], c.p);
    }
    CompressedIsTrue(input, compressd, c);
    LongEnough(c);
    hide *;
    var filtered := LzBestMatchFilterStream([compressd]);
    OnlyBlock(compressd, filtered);
    var bestMatch := filtered[0];
    FilterKeepsTruth(input, compressd, bestMatch, 1, c.Lim(), c.p.leftBytes);
    toks := LzBoosterBlock(bestMatch, c.Lim(), maxInput, c.window, c.p.leftBytes, input);
    WindowIs(c, maxInput);
    FoundBy(compressd, bestMatch, toks, input, c.p, 1, c.Lim(), BlockWindow(c, maxInput), |input| - c.p.leftBytes);
  }

  lemma WindowIs(c: Config, maxInput: nat)
    ensures BlockWindow(c, maxInput) == if maxInput < c.window then maxInput else c.window
  {
  }

  // A single block with tokens comes out as a single block.
  lemma OnlyBlock(toks: seq<LzCore.Token>, filtered: seq<seq<LzCore.Token>>)
    requires toks != [] && |filtered| <= 1 && (|filtered| < 1 ==> [toks][|filtered|] == [])
    requires forall k :: 0 <= k < |filtered| ==> |filtered[k]| == |[toks][k]| && Filtered([toks][k], filtered[k], 1)
    ensures |filtered| == 1 && |filtered[0]| == |toks| && Filtered(toks, filtered[0], 1)
  {
    hide Filtered;
  }

  lemma LongEnough(c: Config)
    requires Suits(c)
    ensures 1 < c.p.matchLen && c.p.leftBytes > 0 && c.window > 0
  {
  }

  lemma SentIsDivisible(toks: seq<LzCore.Token>, input: seq<Byte>, c: Config)
    requires Suits(c) && Sent(toks, input, |input|, c.Lim()) && input != []
    ensures Divisible(toks) && NoSingles(toks) && toks != [] && |toks| <= |input|
  {
    TokensAreFew(toks, input, |input|);
    hide Parses;
    forall k | 0 <= k < |toks| ensures Valid(ItemOf(toks[k])) {
    }
  }

  lemma SentReproduces(toks: seq<LzCore.Token>, input: seq<Byte>, lim: Limits)
    requires Sent(toks, input, |input|, lim) && NoSingles(toks)
    ensures AllSound(LzCore.WordsOf(toks)) && Produced(LzCore.WordsOf(toks)) == input
  {
    ParsedWordsProduce(toks, input, |input|);
    hide Parses, LzCore.WordsOf, Produced, AllSound, NoSingles;
    assert input[..|input|] == input;
  }

  // ---------- Every code is used ----------

  lemma {:induction false} SymbolUsed(u: LookUps, toks: seq<LzCore.Token>, x: nat) returns (k: nat)
    requires u.Sized() && Divisible(toks) && Count(LitSymbols(u, toks), x) > 0
    ensures k < |toks| && ItemOf(toks[k]).len < 256 && LitSymbol(u, ItemOf(toks[k])) == x
    decreases |toks|
  {
    var n := |toks| - 1;
    assert toks[..n + 1] == toks;
    NextSymbols(u, toks, n);
    CountConcat(LitSymbols(u, toks[..n]), [LitSymbol(u, ItemOf(toks[n]))], x);
    CountOfOne(LitSymbol(u, ItemOf(toks[n])), x);
    hide LitSymbols, LitSymbol, ItemOf, Count, Divisible;
    if LitSymbol(u, ItemOf(toks[n])) == x {
      k := n;
    } else {
      k := SymbolUsed(u, toks[..n], x);
    }
  }

  lemma {:induction false} PartOfBlock(u: LookUps, items: seq<Item>, j: nat) returns (i: nat)
    requires u.Sound() && AllValid(items) && j < |items|
    ensures Parts(u, items[j]) != [] && i < |AllParts(u, items)| && AllParts(u, items)[i] == Parts(u, items[j])[0]
    decreases |items|
  {
    var z := |items| - 1;
    FirstOfParts(u, items[j]);
    hide Parts, Valid, LookUps.Sound;
    if j == z {
      i := |AllParts(u, items[..z])|;
    } else {
      i := PartOfBlock(u, items[..z], j);
    }
  }

  lemma FirstOfParts(u: LookUps, i: Item)
    requires u.Sound() && Valid(i)
    ensures Parts(u, i) != [] && u.Sized() && i.len < 256
    ensures var p := Parts(u, i)[0]; (p.Lit? || p.Len?) && SymbolOf(p) == LitSymbol(u, i)
  {
    if i.len > 0 {
      assert LengthFits(u.LengthCode(i.len), i.len) && DistFits(u.DistCode(i.offset), i.offset);
      hide Pow2, LengthBits, DistanceBits;
    }
  }

  // A literal, length or end symbol with a frequency is in the block.
  lemma UsedInBlock(u: LookUps, toks: seq<LzCore.Token>, lit: seq<nat>, x: nat) returns (i: nat)
    requires u.Sound() && u.Sized() && Divisible(toks) && Frequencies(lit, 286, LitSymbols(u, toks))
    requires x < 286 && |lit| == 286 && Effective(lit, x) != 0
    ensures AllValid(ItemsOf(toks))
    ensures var parts := Block(u, ItemsOf(toks));
            i < |parts| && (parts[i].Lit? || parts[i].Len? || parts[i].End?) && SymbolOf(parts[i]) == x
  {
    ItemsValid(toks);
    var items := ItemsOf(toks);
    if x == END_OF_BLOCK {
      i := |AllParts(u, items)|;
    } else {
      var j := SymbolUsed(u, toks, x);
      ItemAt(toks, j);
      i := PartOfBlock(u, items, j);
      FirstOfParts(u, items[j]);
      hide AllParts, Parts, LitSymbols, LitSymbol, LookUps.Sound, Valid, Divisible, ItemsOf, ItemOf;
      assert Block(u, items)[i] == AllParts(u, items)[i];
    }
  }

  // Since every symbol with a code is used, room for the block is room for all codes.
  lemma RoomForAll(u: LookUps, toks: seq<LzCore.Token>, lit: seq<nat>, codes: seq<Codeword>)
    requires u.Sound() && u.Sized() && Divisible(toks) && Frequencies(lit, 286, LitSymbols(u, toks)) && |lit| == 286
    requires CodesFor(lit, codes) && OnlyFor(lit, codes)
    requires AllValid(ItemsOf(toks)) && Roomy(LengthsSent(codes), Block(u, ItemsOf(toks)))
    ensures Indexable(LengthsSent(codes))
  {
    var lens := LengthsSent(codes);
    CodesForLength(lit, codes);
    hide Block, LookUps.Sound, Frequencies, Effective, Divisible, ItemsOf, ReadAs, Count, HasCode, CodeTable;
    forall k | 0 <= k < |lens| && lens[k] > 0 ensures ReadAs(lens, k) == k {
      var i := UsedInBlock(u, toks, lit, k);
      ReadRight(lens, k);
    }
    ReadsExactly(lens);
  }

  // Both trees stay inside the histogram of the code lengths.
  predicate TreesFit(lit: seq<nat>, dist: seq<nat>, size: nat) {
    TreeHeight(Ranked(lit)) < size && TreeHeight(Ranked(dist)) < size
  }

  lemma FitIs(lit: seq<nat>, dist: seq<nat>, size: nat)
    ensures TreesFit(lit, dist, size) <==> TreeHeight(Ranked(lit)) < size && TreeHeight(Ranked(dist)) < size
  {
    hide TreeHeight, Ranked;
  }

  // Without trees that fit there is nothing to send.
  function NoCodes(): BlockCodes {
    BlockCodes([], 0, [], 0, [])
  }

  // From a block of bytes to one bit stream and back. Where both trees fit the histogram and what the
  // counting pass loses is counted elsewhere, the header comes back, the decoder hands out the words
  // of the block exactly if no length above 8 has more than 256 literal codes, and then the block's
  // bytes come back from them.
  method DeflateAndInflate(input: seq<Byte>, c: Config, maxInput: nat, u: LookUps, size: nat, width: nat, wrap: nat,
                           junk: Byte, stale: nat)
    returns (lit: seq<nat>, dist: seq<nat>, items: seq<Item>, b: BlockCodes, lens: seq<nat>, out: seq<nat>, finished: bool,
             ghost toks: seq<LzCore.Token>)
    requires Suits(c) && c.p.leftBytes + c.p.matchLen - 1 <= |input| <= maxInput
    requires 0 < maxInput && 2 * maxInput + LzCompress.TOTAL_DICT_SIZE <= LzCompress.RESET_INDEX
    requires u.Sound() && 15 < size && |input| < wrap && |input| + 1 < Pow2(width) && width >= 9
    ensures Found(toks, input, c.p, 1, c.Lim(), BlockWindow(c, maxInput)) && items == ItemsOf(toks)
    ensures |lit| == 286 && |dist| == 30 && AllValid(items) && AllSound(ItemWords(items)) && Produced(ItemWords(items)) == input
    ensures |input| + 1 < Fib(size + 2) ==> TreesFit(lit, dist, size)
    ensures |input| + 1 < Fib(17) ==> TreesFit(lit, dist, size) && LengthsKept(b.LitSent(), b.DistSent())
    ensures TreesFit(lit, dist, size) ==> b.Valid() && CodesFor(lit, b.lit) && CodesFor(dist, b.dist)
    ensures TreesFit(lit, dist, size) && LengthsKept(b.LitSent(), b.DistSent()) ==>
              lens == b.LitSent() + b.DistSent() && (finished && Told(out, Block(u, items), 0xFE) <==> Indexable(b.LitLens()))
    ensures TreesFit(lit, dist, size) && LengthsKept(b.LitSent(), b.DistSent()) && Indexable(b.LitLens()) ==>
              AllSound(ItemWords(Meant(out[..|out| - 1]))) && Produced(ItemWords(Meant(out[..|out| - 1]))) == input
    ensures TreesFit(lit, dist, size) && |Occurring(lit, 286)| <= 256 ==> Indexable(b.LitLens())
  {
    hide *;
    LongEnough(c);
    var tokens := FindBlockMatches(input, c, maxInput);
    toks := tokens;
    SentIsDivisible(toks, input, c);
    SentReproduces(toks, input, c.Lim());
    var stream;
    stream, lit, dist := Lz77DivideStream(u, tokens, wrap);
    items := HuffmanProcessingUnit(stream, toks);
    FrequencySizes(u, toks, lit, dist);
    ItemsCounted(u, toks, lit, dist);
    ItemsPlain(toks);
    SameWords(toks);
    if |input| + 1 < Fib(size + 2) {
      SmallTotalFits(lit, size);
      SmallTotalFits(dist, size);
    }
    FitIs(lit, dist, size);
    if |input| + 1 < Fib(17) {
      SmallTotalFits(lit, 15);
      SmallTotalFits(dist, 15);
    }
    b, lens, out, finished := NoCodes(), [], [], false;
    if TreesFit(lit, dist, size) {
      b := BuildBlock(lit, dist, size, width, stale);
      if LengthsKept(b.LitSent(), b.DistSent()) {
        var last;
        last, lens, out, finished := BlockThereAndBack(u, items, b, lit, dist, junk, stale);
        LitLensIs(b);
        if Roomy(b.LitLens(), Block(u, items)) { RoomForAll(u, toks, lit, b.lit); }
        ToldIs(out, Block(u, items), 0xFE);
      }
    }
  }

  lemma LitLensIs(b: BlockCodes)
    ensures b.LitLens() == LengthsSent(b.lit)
  {
    hide LengthsSent;
  }
}
