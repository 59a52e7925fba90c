// The Snappy pipeline from end to end.

module SnappyRoundTrip {
  import opened LzCore
  import opened LzOptional
  import opened Lz4Format
  import opened SnappyFormat
  import opened LzPipeline
  import Lz4Divide
  import Lz4Encode
  import LzDecompress
  import SnappyDivide
  import SnappyEncode
  import SnappyDecode

  lemma SentIsCopyable(toks: seq<Token>, input: seq<Byte>, c: Config)
    requires c.Valid() && Sent(toks, input, |input|, c.Lim()) && c.maxMatch <= 64 && Lz4Divide.Block(toks, |input|)
    ensures SnappyDivide.Copyable(toks)
  {
    hide Parses;
  }

  // Tokens from the booster are what the encoder wants, and their words give back the input.
  lemma SentIsReady(toks: seq<Token>, input: seq<Byte>, c: Config, history: nat)
    requires c.Valid() && Sent(toks, input, |input|, c.Lim()) && (input != [] ==> EndsWithLiteral(toks))
    requires c.maxMatch <= 64 && c.p.maxOffset <= history + 1
    ensures Lz4Divide.Block(toks, |input|) && NoSingles(toks) && SnappyDivide.Copyable(toks)
    ensures AllSound(WordsOf(toks)) && Produced(WordsOf(toks)) == input && LzDecompress.InHistory(WordsOf(toks), history)
  {
    hide *;
    SentIsBlock(toks, input, c);
    SentIsCopyable(toks, input, c);
    SentDecompresses(toks, input, c, history);
  }

  lemma LimitedIsExpressible(es: seq<Entry>, maxLit: nat, large: bool)
    requires SnappyDivide.Limited(es, maxLit) && (large || maxLit <= 60)
    ensures SnappyEncode.Expressible(es, large)
  {
    hide Proper;
  }

  // What the decompressor needs to give back the input.
  ghost predicate Restores(block: seq<Byte>, input: seq<Byte>, history: nat) {
    && SnappyDecode.Readable(block) && block != [] && SnappyDecode.PreambleValue(block) == |input|
    && var words := SnappyDecode.Run(SnappyDecode.START, block[SnappyDecode.PreambleLength(block)..]).words;
       AllSound(words) && Produced(words) == input && LzDecompress.InHistory(words, history)
  }

  lemma BlockRestores(size: nat, es: seq<Entry>, lits: seq<Byte>, words: seq<Word>, input: seq<Byte>, history: nat)
    requires 0 < size < 0x20_0000 && size == |input| && LitTotal(es) == |lits| && AllProper(es) && Conveyed(es, lits) == words
    requires AllSound(words) && Produced(words) == input && LzDecompress.InHistory(words, history)
    ensures Restores(Preamble(size) + Sections(es, lits), input, history)
  {
    hide AllSound, Produced, Sections, LzDecompress.InHistory, SnappyDecode.Run, Conveyed;
    SnappyDecode.PreambleReadBack(size, Sections(es, lits));
    SnappyEncode.PreambleFits(size);
    SnappyDecode.DecodesSections(SnappyDecode.START, es, lits);
    SnappyDecode.NotStuckReadable(Sections(es, lits));
    hide SnappyDecode.Passable;
  }

  // The block is the Snappy form of tokens that account for the input, cut off at the size of the
  // input; unless it was cut off, decoding it restores the input. The flag is never raised.
  method Compress(input: seq<Byte>, c: Config, maxLit: nat, large: bool, ghost history: nat)
    returns (out: seq<Byte>, compressedSize: nat, flag: bool, ghost toks: seq<Token>, ghost lits: seq<Byte>, ghost es: seq<Entry>)
    requires c.Valid() && Sized(input, c) && 0 < maxLit < 0x1_0000 && (large || maxLit <= 60) && c.maxMatch <= 64
    requires |input| < 0x20_0000 && c.p.maxOffset <= history + 1
    ensures Found(toks, input, c.p, c.p.matchLen, c.Lim(), c.window)
    ensures Sent(toks, input, |input|, c.Lim()) && SnappyDivide.Finished(toks, es, lits, |input|, maxLit)
    ensures LitTotal(es) == |lits| && AllProper(es) && compressedSize == |out| && !flag
    ensures out == if input == [] then [] else Preamble(|input|) + Lz4Encode.Cut(Sections(es, lits), |input| - |Preamble(|input|)|)
    ensures compressedSize < |input| ==> Restores(out, input, history)
  {
    hide *;
    var tokens := FindMatches(input, c);
    SentIsReady(tokens, input, c, history);
    var litStream, entries;
    litStream, entries, flag := SnappyDivide.SnappyCompressPart1(tokens, |input|, maxLit);
    toks, lits, es := tokens, litStream, entries;
    FinishedFacts(toks, es, lits, |input|, maxLit);
    LimitedIsExpressible(es, maxLit, large);
    out, compressedSize := SnappyEncode.SnappyCompressPart2(litStream, entries, |input|, large);
    if compressedSize < |input| { SmallerRestores(out, es, lits, WordsOf(toks), input, history); }
  }

  lemma SmallerRestores(out: seq<Byte>, es: seq<Entry>, lits: seq<Byte>, words: seq<Word>, input: seq<Byte>, history: nat)
    requires 0 < |input| < 0x20_0000 && LitTotal(es) == |lits| && AllProper(es) && Conveyed(es, lits) == words
    requires AllSound(words) && Produced(words) == input && LzDecompress.InHistory(words, history)
    requires |Preamble(|input|)| <= |input| ==>
               out == Preamble(|input|) + Lz4Encode.Cut(Sections(es, lits), |input| - |Preamble(|input|)|) && |out| < |input|
    ensures Restores(out, input, history)
  {
    hide *;
    SnappyEncode.PreambleFits(|input|);
    NotCut(Preamble(|input|), Sections(es, lits), |input|);
    BlockRestores(|input|, es, lits, words, input, history);
  }

  lemma FinishedFacts(toks: seq<Token>, es: seq<Entry>, lits: seq<Byte>, size: nat, maxLit: nat)
    requires SnappyDivide.Finished(toks, es, lits, size, maxLit)
    ensures LitTotal(es) == |lits| && SnappyDivide.Limited(es, maxLit) && Reach(es) == size && Conveyed(es, lits) == WordsOf(toks)
  {
    hide LitTotal, SnappyDivide.Limited, Reach, Conveyed;
  }

  lemma NotCut(pre: seq<Byte>, s: seq<Byte>, size: nat)
    requires |pre| <= size && |pre + Lz4Encode.Cut(s, size - |pre|)| < size
    ensures Lz4Encode.Cut(s, size - |pre|) == s
  {
  }

  method Decompress(block: seq<Byte>, originalSize: nat, history: nat, lowOffset: nat, ghost input: seq<Byte>)
    returns (out: seq<Byte>, inBlkSize: nat)
    requires Restores(block, input, history) && originalSize == |input| && history > 0 && lowOffset > 0
    ensures out == input && inBlkSize == |input|
  {
    var words;
    words, inBlkSize := SnappyDecode.SnappyDecompress(block);
    out := LzDecompress.LzDecompress(words, originalSize, history, lowOffset);
  }

  // The round trip: a block that got smaller decompresses to the input, and its length is read back.
  method RoundTrip(input: seq<Byte>, c: Config, maxLit: nat, large: bool, history: nat, lowOffset: nat)
    returns (block: seq<Byte>, out: seq<Byte>, inBlkSize: nat, ghost toks: seq<Token>, ghost lits: seq<Byte>, ghost es: seq<Entry>)
    requires c.Valid() && Sized(input, c) && 0 < maxLit < 0x1_0000 && (large || maxLit <= 60) && c.maxMatch <= 64
    requires |input| < 0x20_0000 && c.p.maxOffset <= history + 1 && history > 0 && lowOffset > 0
    ensures Found(toks, input, c.p, c.p.matchLen, c.Lim(), c.window)
    ensures Sent(toks, input, |input|, c.Lim()) && SnappyDivide.Finished(toks, es, lits, |input|, maxLit)
    ensures LitTotal(es) == |lits| && AllProper(es)
    ensures block == if input == [] then [] else Preamble(|input|) + Lz4Encode.Cut(Sections(es, lits), |input| - |Preamble(|input|)|)
    ensures |block| < |input| ==> out == input && inBlkSize == |input|
    ensures input != [] ==> LengthAt(block).0 == |input|
  {
    hide *;
    var compressedSize, flag;
    block, compressedSize, flag, toks, lits, es := Compress(input, c, maxLit, large, history);
    out, inBlkSize := [], 0;
    if input != [] { SnappyDecode.PreambleReadBack(|input|, Lz4Encode.Cut(Sections(es, lits), |input| - |Preamble(|input|)|)); }
    if compressedSize < |input| {
      out, inBlkSize := Decompress(block, |input|, history, lowOffset, input);
    }
  }
}
