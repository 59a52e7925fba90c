// The first half of the Snappy encoder: tokens are divided into literals and copies, and long
// runs of literals into sections.

module SnappyDivide {
  import opened LzCore
  import opened Lz4Format
  import opened SnappyFormat
  import opened Lz4Divide

  // What the Snappy format can hold: copies of at most 64 bytes, offsets of 16 bits.
  ghost predicate Copyable(toks: seq<Token>) {
    forall k :: 0 <= k < |toks| && toks[k].len > 0 ==> toks[k].len <= 64 && toks[k].offset + 1 < 0x1_0000
  }

  // The entries and the run of literals under way convey the words.
  ghost predicate Told(es: seq<Entry>, lits: seq<Byte>, litCount: nat, words: seq<Word>) {
    && litCount <= |lits| && LitTotal(es) == |lits| - litCount
    && Conveyed(es, lits[..|lits| - litCount]) + LiteralWords(lits[|lits| - litCount..]) == words
  }

  lemma ToldEntry(es: seq<Entry>, lits: seq<Byte>, litCount: nat, words: seq<Word>, e: Entry)
    requires Told(es, lits, litCount, words) && e.lit == litCount
    ensures Told(es + [e], lits, 0, words + (if NoCopy(e) then [] else [CopyWord(e)]))
  {
    hide Conveyed, LiteralWords, LitTotal, CopyWord;
    var a, b := lits[..|lits| - litCount], lits[|lits| - litCount..];
    var c := if NoCopy(e) then [] else [CopyWord(e)];
    ConveyedAppend(es, a, e, b);
    assert a + b == lits && lits[..|lits| - 0] == lits && lits[|lits| - 0..] == [];
    NoLiterals();
    ThreeWords(Conveyed(es, a), LiteralWords(b), c);
  }

  lemma ThreeWords(a: seq<Word>, b: seq<Word>, c: seq<Word>)
    ensures a + (b + c) + [] == a + b + c
  {
  }

  lemma ToldLiteral(es: seq<Entry>, lits: seq<Byte>, litCount: nat, words: seq<Word>, ch: Byte)
    requires Told(es, lits, litCount, words)
    ensures Told(es, lits + [ch], litCount + 1, words + [Word(ch, 0)])
  {
    hide Conveyed, LiteralWords, LitTotal;
    var a, b := lits[..|lits| - litCount], lits[|lits| - litCount..];
    var lits' := lits + [ch];
    assert lits'[..|lits'| - (litCount + 1)] == a && lits'[|lits'| - (litCount + 1)..] == b + [ch];
    LiteralWordsAppend(b, [ch]);
    OneLiteral(ch);
    ThreeWords(Conveyed(es, a), LiteralWords(b), [Word(ch, 0)]);
  }

  lemma ToldAll(es: seq<Entry>, lits: seq<Byte>, words: seq<Word>)
    requires Told(es, lits, 0, words)
    ensures LitTotal(es) == |lits| && Conveyed(es, lits) == words
  {
    hide Conveyed, LiteralWords, LitTotal;
    assert lits[..|lits| - 0] == lits && lits[|lits| - 0..] == [];
    NoLiterals();
    assert Conveyed(es, lits) + [] == Conveyed(es, lits);
  }

  // Sections so far: their reach and their limits.
  ghost predicate Sectioned(toks: seq<Token>, k: nat, es: seq<Entry>, lits: seq<Byte>, litCount: nat, maxLit: nat) {
    && k <= |toks| && litCount < maxLit
    && Told(es, lits, litCount, WordsOf(toks[..k]))
    && Reach(es) + litCount == Total(toks[..k])
    && Limited(es, maxLit)
  }

  ghost predicate Limited(es: seq<Entry>, maxLit: nat) {
    AllProper(es) && forall k :: 0 <= k < |es| ==> es[k].lit <= maxLit
  }

  lemma LimitedAppend(es: seq<Entry>, e: Entry, maxLit: nat)
    requires Limited(es, maxLit) && Proper(e) && e.lit <= maxLit
    ensures Limited(es + [e], maxLit)
  {
    hide Proper;
  }

  lemma NextWord(toks: seq<Token>, k: nat)
    requires k < |toks|
    ensures WordsOf(toks[..k + 1]) == WordsOf(toks[..k]) + [WordOf(toks[k])]
    ensures Total(toks[..k + 1]) == Total(toks[..k]) + Span(toks[k])
  {
    assert toks[..k + 1][..k] == toks[..k];
  }

  lemma SectionMatch(toks: seq<Token>, k: nat, es: seq<Entry>, lits: seq<Byte>, litCount: nat, maxLit: nat)
    requires Sectioned(toks, k, es, lits, litCount, maxLit) && k < |toks| && 4 <= toks[k].len <= 64 && toks[k].offset + 1 < 0x1_0000
    requires maxLit < 0x1_0000
    ensures Sectioned(toks, k + 1, es + [Entry(litCount, toks[k].len, toks[k].offset + 1)], lits, 0, maxLit)
  {
    hide Told, WordsOf, Total, Reach, Limited;
    var e := Entry(litCount, toks[k].len, toks[k].offset + 1);
    ToldCopy(es, lits, litCount, WordsOf(toks[..k]), toks[k]);
    NextWord(toks, k);
    ReachAppend(es, e);
    LimitedAppend(es, e, maxLit);
  }

  lemma ToldCopy(es: seq<Entry>, lits: seq<Byte>, litCount: nat, words: seq<Word>, t: Token)
    requires Told(es, lits, litCount, words) && t.len > 1
    ensures Told(es + [Entry(litCount, t.len, t.offset + 1)], lits, 0, words + [WordOf(t)])
  {
    hide Told;
    ToldEntry(es, lits, litCount, words, Entry(litCount, t.len, t.offset + 1));
  }

  lemma SectionLiteral(toks: seq<Token>, k: nat, es: seq<Entry>, lits: seq<Byte>, litCount: nat, maxLit: nat)
    requires Sectioned(toks, k, es, lits, litCount, maxLit) && k < |toks| && toks[k].len == 0 && litCount + 1 < maxLit
    ensures Sectioned(toks, k + 1, es, lits + [toks[k].ch], litCount + 1, maxLit)
  {
    hide Told, WordsOf, Total, Reach, Limited;
    NextWord(toks, k);
    ToldLiteral(es, lits, litCount, WordsOf(toks[..k]), toks[k].ch);
  }

  // The run reaches the limit and becomes an entry of its own.
  lemma SectionFills(toks: seq<Token>, k: nat, es: seq<Entry>, lits: seq<Byte>, litCount: nat, maxLit: nat)
    requires Sectioned(toks, k, es, lits, litCount, maxLit) && k < |toks| && toks[k].len == 0 && litCount + 1 == maxLit < 0x1_0000
    ensures Sectioned(toks, k + 1, es + [Entry(litCount + 1, 0, 0)], lits + [toks[k].ch], 0, maxLit)
  {
    hide Told, WordsOf, Total, Reach, Limited;
    var e := Entry(litCount + 1, 0, 0);
    NextWord(toks, k);
    ToldLiteral(es, lits, litCount, WordsOf(toks[..k]), toks[k].ch);
    ToldEnd(es, lits + [toks[k].ch], litCount + 1, WordsOf(toks[..k + 1]));
    ReachAppend(es, e);
    LimitedAppend(es, e, maxLit);
  }

  lemma ToldEnd(es: seq<Entry>, lits: seq<Byte>, litCount: nat, words: seq<Word>)
    requires Told(es, lits, litCount, words)
    ensures Told(es + [Entry(litCount, 0, 0)], lits, 0, words)
  {
    hide Told;
    ToldEntry(es, lits, litCount, words, Entry(litCount, 0, 0));
    assert words + [] == words;
  }

  lemma SectionsStart(toks: seq<Token>, maxLit: nat)
    requires maxLit > 0
    ensures Sectioned(toks, 0, [], [], 0, maxLit)
  {
    assert toks[..0] == [];
  }

  // All entries made, the words of all tokens conveyed.
  ghost predicate Finished(toks: seq<Token>, es: seq<Entry>, lits: seq<Byte>, size: nat, maxLit: nat) {
    && LitTotal(es) == |lits| && Limited(es, maxLit) && Reach(es) == size && Conveyed(es, lits) == WordsOf(toks)
  }

  lemma SectionsEnd(toks: seq<Token>, es: seq<Entry>, lits: seq<Byte>, litCount: nat, size: nat, maxLit: nat)
    requires Sectioned(toks, |toks|, es, lits, litCount, maxLit) && Total(toks) == size && maxLit < 0x1_0000
    ensures litCount == 0 ==> Finished(toks, es, lits, size, maxLit)
    ensures litCount > 0 ==> Finished(toks, es + [Entry(litCount, 0, 0)], lits, size, maxLit)
  {
    assert toks[..|toks|] == toks;
    var words, e := WordsOf(toks), Entry(litCount, 0, 0);
    hide Told, WordsOf, Total, Reach, AllProper, Conveyed, LitTotal;
    ReachAppend(es, e);
    ToldEnd(es, lits, litCount, words);
    ToldAll(es + [e], lits, words);
    if litCount == 0 { ToldAll(es, lits, words); } else { LimitedAppend(es, e, maxLit); }
  }

  // No flag is ever raised: a run that reaches the limit is closed and a new one begins.
  method SnappyCompressPart1(toks: seq<Token>, inputSize: nat, maxLit: nat)
    returns (lits: seq<Byte>, es: seq<Entry>, flag: bool)
    requires Block(toks, inputSize) && Copyable(toks) && 0 < maxLit < 0x1_0000
    ensures Finished(toks, es, lits, inputSize, maxLit) && !flag
  {
    lits, es, flag := [], [], false;
    SectionsStart(toks, maxLit);
    ReadAhead(toks, 0, inputSize);
    assert toks[..0] == [];
    BlockTotal(toks, inputSize);
    if inputSize == 0 {
      SectionsEnd(toks, es, lits, 0, 0, maxLit);
      return;
    }
    var litCount: nat := 0;
    var next := toks[0];
    var rest := toks[1..];
    ghost var k := 0;
    var i := 0;
    hide *;
    while i < inputSize
      invariant k <= |toks| && i == Total(toks[..k])
      invariant Sectioned(toks, k, es, lits, litCount, maxLit) && litCount < maxLit
      invariant k < |toks| ==> next == toks[k] && rest == toks[k + 1..]
      decreases |toks| - k
    {
      ReadAhead(toks, k, inputSize);
      var t := next;
      if i < inputSize - 1 {
        next := rest[0];
        rest := rest[1..];
      }
      lits, es, litCount, i := OneToken(toks, k, t, lits, es, litCount, i, maxLit, inputSize);
      i := i + 1;
      k := k + 1;
    }
    ReadAhead(toks, k, inputSize);
    SectionsEnd(toks, es, lits, litCount, inputSize, maxLit);
    if litCount > 0 {
      if litCount == maxLit { flag := true; }
      es := es + [Entry(litCount, 0, 0)];
    }
  }

  method OneToken(ghost toks: seq<Token>, ghost k: nat, t: Token, lits0: seq<Byte>, es0: seq<Entry>, litCount0: nat, i0: nat, maxLit: nat, ghost size: nat)
    returns (lits: seq<Byte>, es: seq<Entry>, litCount: nat, i: nat)
    requires Block(toks, size) && Copyable(toks) && k < |toks| && t == toks[k] && 0 < maxLit < 0x1_0000
    requires Sectioned(toks, k, es0, lits0, litCount0, maxLit) && litCount0 < maxLit
    ensures Sectioned(toks, k + 1, es, lits, litCount, maxLit) && litCount < maxLit && i + 1 == i0 + Span(t)
  {
    hide *;
    SpanOf(t);
    CopyFits(toks, size, k);
    lits, es, litCount, i := lits0, es0, litCount0, i0;
    if t.len > 0 {
      SectionMatch(toks, k, es, lits, litCount, maxLit);
      es := es + [Entry(litCount, t.len, t.offset + 1)];
      i := i + (t.len - 1);
      litCount := 0;
    } else {
      if litCount + 1 < maxLit {
        SectionLiteral(toks, k, es, lits, litCount, maxLit);
      } else {
        SectionFills(toks, k, es, lits, litCount, maxLit);
      }
      lits := lits + [t.ch];
      litCount := litCount + 1;
      if litCount == maxLit {
        es := es + [Entry(litCount, 0, 0)];
        litCount := 0;
      }
    }
  }

  lemma BlockTotal(toks: seq<Token>, size: nat)
    requires Block(toks, size)
    ensures Total(toks) == size && (size == 0 ==> toks == [])
  {
  }

  lemma CopyFits(toks: seq<Token>, size: nat, k: nat)
    requires Block(toks, size) && Copyable(toks) && k < |toks|
    ensures toks[k].len > 0 ==> 4 <= toks[k].len <= 64 && toks[k].offset + 1 < 0x1_0000
  {
  }
}
