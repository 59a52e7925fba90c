// The three stages before the encoders: match finder, filter, booster.

module LzPipeline {
  import opened LzCore
  import opened LzCompress
  import opened LzSearch
  import opened LzOptional
  import Lz4Divide
  import LzDecompress

  datatype Config = Config(p: Params, maxMatch: nat, window: nat) {
    ghost predicate Valid() {
      p.Valid() && 4 <= p.minMatch && p.matchLen <= maxMatch < 256 && p.leftBytes > 0 && window > 0 && p.maxOffset > 0
    }

    function Lim(): Limits { Limits(p.minMatch, maxMatch, if p.maxOffset > 0 then p.maxOffset - 1 else 0) }
  }

  // A block is empty or long enough for the window and the bytes left over.
  ghost predicate Sized(input: seq<Byte>, c: Config) {
    (input == [] || |input| >= c.p.leftBytes + c.p.matchLen - 1) && |input| <= RESET_INDEX
  }

  lemma CompressedIsAnnotated(input: seq<Byte>, toks: seq<Token>, c: Config)
    requires c.Valid() && |toks| == |input| && GoodTokens(input, toks, c.p)
    ensures Annotated(input, toks, c.Lim(), c.p.leftBytes)
  {
    forall i | 0 <= i < |toks| ensures GoodToken(input, i, toks[i], c.p) {}
  }

  // Tokens from the booster are what the encoders want.
  lemma SentIsBlock(toks: seq<Token>, input: seq<Byte>, c: Config)
    requires c.Valid() && Sent(toks, input, |input|, c.Lim()) && (input != [] ==> EndsWithLiteral(toks))
    ensures Lz4Divide.Block(toks, |input|) && NoSingles(toks)
  {
    hide Parses;
    Lz4Divide.ParsedTotal(toks, input, |input|);
    if input == [] { NoTokens(toks, input); }
  }

  lemma NoTokens(toks: seq<Token>, input: seq<Byte>)
    requires Parses(toks, input, 0)
    ensures toks == []
  {
  }

  // Their words reproduce the input and stay within the history.
  lemma SentDecompresses(toks: seq<Token>, input: seq<Byte>, c: Config, history: nat)
    requires c.Valid() && Sent(toks, input, |input|, c.Lim()) && NoSingles(toks) && c.p.maxOffset <= history + 1
    ensures AllSound(WordsOf(toks)) && Produced(WordsOf(toks)) == input
    ensures LzDecompress.InHistory(WordsOf(toks), history)
  {
    ParsedWordsProduce(toks, input, |input|);
    assert input[..|input|] == input;
    forall k | 0 <= k < |toks| ensures WordsOf(toks)[k] == WordOf(toks[k]) { WordAt(toks, k); }
  }

  lemma {:induction false} WordAt(toks: seq<Token>, k: nat)
    requires k < |toks|
    ensures WordsOf(toks)[k] == WordOf(toks[k])
    decreases |toks|
  {
    if k < |toks| - 1 { WordAt(toks[..|toks| - 1], k); }
  }

  // What the stages make of the block: the best token for every position, of those the ones no better
  // match overtakes, and of those the ones that follow each other, boosted.
  ghost predicate Stages(found: seq<Token>, kept: seq<Token>, toks: seq<Token>, input: seq<Byte>, p: Params, n: nat, lim: Limits,
                         window: nat)
  {
    && AllBest(input, found, p) && |kept| == |found| && Filtered(found, kept, n)
    && Sent(toks, input, |input|, lim)
    && Boosted(toks, input, kept, |input|, if |input| <= p.leftBytes then 0 else |input| - p.leftBytes, lim, window)
  }

  ghost predicate Found(toks: seq<Token>, input: seq<Byte>, p: Params, n: nat, lim: Limits, window: nat) {
    exists found: seq<Token>, kept: seq<Token> :: Stages(found, kept, toks, input, p, n, lim, window)
  }

  // So the block alone determines what is sent.
  lemma OnlyFound(s: seq<Token>, t: seq<Token>, input: seq<Byte>, p: Params, n: nat, lim: Limits, window: nat)
    requires p.Valid() && Found(s, input, p, n, lim, window) && Found(t, input, p, n, lim, window)
    ensures s == t
  {
    hide AllBest, Filtered, Boosted, Sent;
    var found, kept :| Stages(found, kept, s, input, p, n, lim, window);
    var found', kept' :| Stages(found', kept', t, input, p, n, lim, window);
    OnlyBest(input, found, found', p);
    OnlyFiltered(found, kept, kept', n);
    OnlyBoosted(s, t, input, kept, |input|, if |input| <= p.leftBytes then 0 else |input| - p.leftBytes, lim, window);
  }

  lemma FoundBy(found: seq<Token>, kept: seq<Token>, toks: seq<Token>, input: seq<Byte>, p: Params, n: nat, lim: Limits, window: nat,
                end: nat)
    requires AllBest(input, found, p) && |kept| == |found| && Filtered(found, kept, n)
    requires Sent(toks, input, |input|, lim) && Boosted(toks, input, kept, |input|, end, lim, window)
    requires end == (if |input| <= p.leftBytes then 0 else |input| - p.leftBytes)
    ensures Found(toks, input, p, n, lim, window)
  {
    hide AllBest, Filtered, Sent, Boosted;
    assert Stages(found, kept, toks, input, p, n, lim, window);
  }

  // The tokens account for the input, and the input determines them.
  method FindMatches(input: seq<Byte>, c: Config) returns (toks: seq<Token>)
    requires c.Valid() && Sized(input, c)
    ensures Sent(toks, input, |input|, c.Lim()) && (input != [] ==> EndsWithLiteral(toks))
    ensures Found(toks, input, c.p, c.p.matchLen, c.Lim(), c.window)
  {
    var compressd := LzCompress.LzCompress(input, c.p);
    CompressedIsAnnotated(input, compressd, c);
    hide Annotated, Sent, EndsWithLiteral, Filtered, GoodTokens, Genuine, AllBest, Boosted, Found;
    var bestMatch := LzBestMatchFilter(compressd, c.p.matchLen);
    FilterKeepsTruth(input, compressd, bestMatch, c.p.matchLen, c.Lim(), c.p.leftBytes);
    toks := LzBooster(bestMatch, c.Lim(), c.window, c.p.leftBytes, input);
    FoundBy(compressd, bestMatch, toks, input, c.p, c.p.matchLen, c.Lim(), c.window,
            if bestMatch == [] then 0 else |bestMatch| - c.p.leftBytes);
  }
}
