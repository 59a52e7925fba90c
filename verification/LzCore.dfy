// Tokens of the LZ77 pipeline and what they mean, one byte at a time.

module LzCore {

  type Byte = b: nat | b < 256

  // The 32-bit word between the compression stages: a byte and, when len > 0, a match of len
  // bytes whose source starts offset + 1 positions back.
  datatype Token = Token(ch: Byte, len: nat, offset: nat)

  // The 32-bit word between the decompression stages: high16 == 0 is the literal low16, anything
  // else a match of high16 + 1 bytes from low16 + 1 positions back.
  datatype Word = Word(low16: nat, high16: nat)

  function Span(t: Token): (n: nat)
    ensures n >= 1
  {
    if t.len == 0 then 1 else t.len
  }

  // The byte-serial LZ77 copy: n times, append the byte d positions back.
  function Copy(out: seq<Byte>, d: nat, n: nat): (r: seq<Byte>)
    requires 1 <= d <= |out|
    ensures |r| == |out| + n
    decreases n
  {
    if n == 0 then out else Copy(out + [out[|out| - d]], d, n - 1)
  }

  lemma {:induction false} CopyPrefix(out: seq<Byte>, d: nat, n: nat)
    requires 1 <= d <= |out|
    ensures out <= Copy(out, d, n)
    decreases n
  {
    if n > 0 { CopyPrefix(out + [out[|out| - d]], d, n - 1); }
  }

  lemma {:induction false} CopySplit(out: seq<Byte>, d: nat, a: nat, b: nat)
    requires 1 <= d <= |out|
    ensures Copy(out, d, a + b) == Copy(Copy(out, d, a), d, b)
    decreases a
  {
    if a > 0 { CopySplit(out + [out[|out| - d]], d, a - 1, b); }
  }

  // ---------- Matches within the input ----------

  // From position p on, n bytes repeat those d positions before.
  ghost predicate Repeats(input: seq<Byte>, p: nat, d: nat, n: nat) {
    && 1 <= d <= p && p + n <= |input|
    && forall m :: p <= m < p + n ==> input[m] == input[m - d]
  }

  lemma {:induction false} RepeatsIsCopy(input: seq<Byte>, p: nat, d: nat, n: nat)
    requires Repeats(input, p, d, n)
    ensures Copy(input[..p], d, n) == input[..p + n]
    decreases n
  {
    if n > 0 {
      assert input[p] == input[p - d];
      assert input[..p] + [input[p - d]] == input[..p + 1];
      RepeatsIsCopy(input, p + 1, d, n - 1);
    }
  }

  // What a token says about the input at position p is true.
  ghost predicate Genuine(input: seq<Byte>, p: nat, t: Token) {
    && p < |input| && t.ch == input[p]
    && (t.len > 0 ==> Repeats(input, p, t.offset + 1, t.len))
  }

  // The tokens, one after the other, account for the first p bytes of the input.
  ghost predicate Parses(toks: seq<Token>, input: seq<Byte>, p: nat)
    decreases |toks|
  {
    if toks == [] then p == 0
    else
      var t := toks[|toks| - 1];
      && Span(t) <= p <= |input| && Genuine(input, p - Span(t), t)
      && Parses(toks[..|toks| - 1], input, p - Span(t))
  }

  lemma ParsesAppend(toks: seq<Token>, input: seq<Byte>, p: nat, t: Token)
    requires Parses(toks, input, p) && Genuine(input, p, t) && p + Span(t) <= |input|
    ensures Parses(toks + [t], input, p + Span(t))
  {
    assert (toks + [t])[..|toks|] == toks;
  }

  // ---------- What the words produce ----------

  function Apply(out: seq<Byte>, w: Word): seq<Byte>
    requires Sound(out, w)
  {
    if w.high16 == 0 then out + [w.low16] else Copy(out, w.low16 + 1, w.high16 + 1)
  }

  // A literal is a byte, and a match reaches back no further than the output so far.
  predicate Sound(out: seq<Byte>, w: Word) {
    if w.high16 == 0 then w.low16 < 256 else w.low16 + 1 <= |out|
  }

  predicate AllSound(words: seq<Word>)
    decreases |words|, 0
  {
    words == [] || (AllSound(words[..|words| - 1]) && Sound(Produced(words[..|words| - 1]), words[|words| - 1]))
  }

  // The bytes a sound list of words stands for.
  function Produced(words: seq<Word>): seq<Byte>
    requires AllSound(words)
    decreases |words|, 1
  {
    if words == [] then [] else Apply(Produced(words[..|words| - 1]), words[|words| - 1])
  }

  function WordOf(t: Token): Word {
    if t.len == 0 then Word(t.ch, 0) else Word(t.offset, t.len - 1)
  }

  function WordsOf(toks: seq<Token>): (w: seq<Word>)
    ensures |w| == |toks|
  {
    if toks == [] then [] else WordsOf(toks[..|toks| - 1]) + [WordOf(toks[|toks| - 1])]
  }

  // A match of a single byte cannot be written as a word.
  ghost predicate NoSingles(toks: seq<Token>) {
    forall k :: 0 <= k < |toks| ==> toks[k].len != 1
  }

  // Tokens that account for the whole input reproduce it.
  lemma {:induction false} ParsedWordsProduce(toks: seq<Token>, input: seq<Byte>, p: nat)
    requires Parses(toks, input, p) && NoSingles(toks)
    ensures p <= |input|
    ensures AllSound(WordsOf(toks)) && Produced(WordsOf(toks)) == input[..p]
    decreases |toks|
  {
    if toks != [] {
      var z := |toks| - 1;
      var t := toks[z];
      var q := p - Span(t);
      ParsedWordsProduce(toks[..z], input, q);
      var w := WordsOf(toks);
      assert w[..z] == WordsOf(toks[..z]) && w[z] == WordOf(t);
      if t.len == 0 {
        assert input[..q] + [t.ch] == input[..p];
      } else {
        RepeatsIsCopy(input, q, t.offset + 1, t.len);
      }
    }
  }

  // ---------- Items held back ----------

  // The oldest of the items held back leaves, the next one comes in.
  method PopPush<T>(ghost items: seq<T>, ghost i: nat, ghost j: nat, fifo0: seq<T>, next: T) returns (t: T, fifo: seq<T>)
    requires i <= j < |items| && fifo0 == items[i..j] && next == items[j]
    ensures t == items[i] && fifo == items[i + 1..j + 1]
  {
    fifo := fifo0 + [next];
    t := fifo[0];
    fifo := fifo[1..];
  }
}
