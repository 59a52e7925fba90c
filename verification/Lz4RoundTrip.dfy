// The LZ4 pipeline from end to end: match finder, filter, booster, encoder, decoder, decompressor.

module Lz4RoundTrip {
  import opened LzCore
  import opened LzOptional
  import opened Lz4Format
  import opened LzPipeline
  import Lz4Divide
  import Lz4Encode
  import Lz4Decode
  import LzDecompress

  // The block is the LZ4 form of tokens that account for the input, cut off at the size of the
  // input. Unless a run of literals was too long or the block was cut off, decoding it restores
  // the input.
  method Compress(input: seq<Byte>, c: Config, maxLit: nat, ghost history: nat)
    returns (out: seq<Byte>, compressedSize: nat, flag: bool, ghost toks: seq<Token>, ghost lits: seq<Byte>, ghost es: seq<Entry>)
    requires c.Valid() && Sized(input, c) && 0 < maxLit < 0x1_0000 && c.p.maxOffset <= history + 1
    ensures Found(toks, input, c.p, c.p.matchLen, c.Lim(), c.window)
    ensures Sent(toks, input, |input|, c.Lim()) && (flag <==> Lz4Divide.ReachesLimit(toks, maxLit))
    ensures LitTotal(es) == |lits| && (!flag ==> Carried(es, lits) == WordsOf(toks))
    ensures out == Lz4Encode.Cut(Encoded(es, lits), |input|) && compressedSize == |out|
    ensures !flag && compressedSize < |input| ==> Restores(out, input, history)
  {
    var tokens := FindMatches(input, c);
    toks := tokens;
    hide *;
    SentIsBlock(toks, input, c);
    SentDecompresses(toks, input, c, history);
    var litStream, entries;
    ghost var kept;
    litStream, entries, flag, kept := Lz4Divide.Lz4CompressPart1(tokens, |input|, maxLit);
    lits, es := litStream, entries;
    out, compressedSize := Lz4Encode.Lz4CompressPart2(litStream, entries, |input|);
    CutFacts(Encoded(es, lits), |input|);
    if !flag {
      All(toks, kept);
      if compressedSize < |input| {
        Lz4Decode.CoveringDecodable(es, |input|);
        StartsAtToken();
        Lz4Decode.DecodesEncoded(Lz4Decode.START, es, lits);
        RestoresFrom(out, input, history, WordsOf(toks));
      }
    }
  }

  // What the decompressor needs to give back the input.
  ghost predicate Restores(block: seq<Byte>, input: seq<Byte>, history: nat) {
    var words := Lz4Decode.Run(Lz4Decode.START, block).words;
    AllSound(words) && Produced(words) == input && LzDecompress.InHistory(words, history)
  }

  lemma RestoresFrom(block: seq<Byte>, input: seq<Byte>, history: nat, words: seq<Word>)
    requires words == Lz4Decode.Run(Lz4Decode.START, block).words
    requires AllSound(words) && Produced(words) == input && LzDecompress.InHistory(words, history)
    ensures Restores(block, input, history)
  {
  }

  lemma StartsAtToken()
    ensures Lz4Decode.START.next.ReadToken?
  {
  }

  lemma All(toks: seq<Token>, kept: nat)
    requires kept == |toks|
    ensures toks[..kept] == toks
  {
  }

  lemma CutFacts(s: seq<Byte>, size: nat)
    ensures |Lz4Encode.Cut(s, size)| <= size
    ensures |Lz4Encode.Cut(s, size)| < size ==> Lz4Encode.Cut(s, size) == s
  {
  }

  method Decompress(block: seq<Byte>, originalSize: nat, history: nat, lowOffset: nat, ghost input: seq<Byte>) returns (out: seq<Byte>)
    requires Restores(block, input, history) && originalSize == |input| && history > 0 && lowOffset > 0
    ensures out == input
  {
    var words := Lz4Decode.Lz4Decompress(block);
    out := LzDecompress.LzDecompress(words, originalSize, history, lowOffset);
  }

  // The round trip: a block that is not flagged and got smaller decompresses to the input.
  method RoundTrip(input: seq<Byte>, c: Config, maxLit: nat, history: nat, lowOffset: nat)
    returns (block: seq<Byte>, flag: bool, out: seq<Byte>, ghost toks: seq<Token>, ghost lits: seq<Byte>, ghost es: seq<Entry>)
    requires c.Valid() && Sized(input, c) && 0 < maxLit < 0x1_0000
    requires c.p.maxOffset <= history + 1 && history > 0 && lowOffset > 0
    ensures Found(toks, input, c.p, c.p.matchLen, c.Lim(), c.window)
    ensures Sent(toks, input, |input|, c.Lim()) && (flag <==> Lz4Divide.ReachesLimit(toks, maxLit))
    ensures LitTotal(es) == |lits| && (!flag ==> Carried(es, lits) == WordsOf(toks))
    ensures block == Lz4Encode.Cut(Encoded(es, lits), |input|)
    ensures !flag && |block| < |input| ==> out == input
  {
    hide *;
    var compressedSize;
    block, compressedSize, flag, toks, lits, es := Compress(input, c, maxLit, history);
    out := [];
    if !flag && compressedSize < |input| {
      out := Decompress(block, |input|, history, lowOffset, input);
    }
  }
}
