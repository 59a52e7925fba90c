// The first half of the LZ4 encoder: tokens are divided into literals and match entries.

module Lz4Divide {
  import opened LzCore
  import opened Lz4Format

  // The bytes the tokens cover.
  function Total(toks: seq<Token>): nat {
    if toks == [] then 0 else Total(toks[..|toks| - 1]) + Span(toks[|toks| - 1])
  }

  // The literals since the last match.
  function Trailing(toks: seq<Token>): nat {
    if toks == [] || toks[|toks| - 1].len > 0 then 0 else 1 + Trailing(toks[..|toks| - 1])
  }

  // Somewhere in the block a run of literals is as long as the limit.
  ghost predicate ReachesLimit(toks: seq<Token>, maxLit: nat) {
    exists k :: 0 <= k <= |toks| && Trailing(toks[..k]) >= maxLit
  }

  // What fits the 32-bit token and the LZ4 format.
  ghost predicate Packable(toks: seq<Token>) {
    forall k :: 0 <= k < |toks| ==> toks[k].len == 0 || (4 <= toks[k].len < 256 && 1 <= toks[k].offset < 0x1_0000)
  }

  // No more tokens are taken up after `kept`, where the limit was reached.
  ghost predicate Kept(toks: seq<Token>, k: nat, kept: nat, litCount: nat, maxLit: nat) {
    && kept <= k <= |toks| && litCount <= maxLit
    && litCount == Trailing(toks[..kept])
    && (kept < k ==> litCount == maxLit)
    && forall j :: 0 <= j < kept ==> Trailing(toks[..j]) < maxLit
  }

  ghost predicate MatchEntries(es: seq<Entry>) {
    forall k :: 0 <= k < |es| ==> es[k].lit < 0x1_0000 && es[k].mlen < 0xFFFD && es[k].off < 0x1_0000 && !Ending(es[k])
  }

  // The entries and the run of literals under way carry the first `kept` tokens.
  ghost predicate Divided(toks: seq<Token>, kept: nat, es: seq<Entry>, lits: seq<Byte>, litCount: nat, size: nat) {
    && kept <= |toks| && litCount <= |lits| && LitTotal(es) == |lits| - litCount
    && Carried(es, lits[..|lits| - litCount]) + LiteralWords(lits[|lits| - litCount..]) == WordsOf(toks[..kept])
    && Position(es, size) + litCount == Total(toks[..kept])
    && MatchEntries(es)
  }

  function EntryOf(t: Token, litCount: nat): Entry
    requires t.len >= 4
  {
    Entry(litCount, t.len - 4, t.offset)
  }

  lemma DivideMatch(toks: seq<Token>, kept: nat, es: seq<Entry>, lits: seq<Byte>, litCount: nat, size: nat)
    requires Divided(toks, kept, es, lits, litCount, size) && kept < |toks| && Packable(toks) && toks[kept].len > 0
    requires litCount < 0x1_0000
    ensures Divided(toks, kept + 1, es + [EntryOf(toks[kept], litCount)], lits, 0, size)
  {
    hide Carried, LiteralWords, LitTotal;
    var t := toks[kept];
    var e := EntryOf(t, litCount);
    var a, b := lits[..|lits| - litCount], lits[|lits| - litCount..];
    CarriedAppend(es, a, e, b);
    assert a + b == lits && lits[..|lits| - 0] == lits && lits[|lits| - 0..] == [];
    assert toks[..kept + 1][..kept] == toks[..kept];
    assert (es + [e])[..|es|] == es;
    NoLiterals();
    assert WordsOf(toks[..kept + 1]) == WordsOf(toks[..kept]) + [WordOf(t)];
    LitTotalAppend(es, e);
  }

  lemma NoLiterals()
    ensures LiteralWords([]) == []
  {
  }

  lemma DivideLiteral(toks: seq<Token>, kept: nat, es: seq<Entry>, lits: seq<Byte>, litCount: nat, size: nat)
    requires Divided(toks, kept, es, lits, litCount, size) && kept < |toks| && toks[kept].len == 0
    ensures Divided(toks, kept + 1, es, lits + [toks[kept].ch], litCount + 1, size)
  {
    hide Carried, LiteralWords, LitTotal, Position;
    var t := toks[kept];
    var a, b := lits[..|lits| - litCount], lits[|lits| - litCount..];
    var lits' := lits + [t.ch];
    assert lits'[..|lits'| - (litCount + 1)] == a && lits'[|lits'| - (litCount + 1)..] == b + [t.ch];
    LiteralWordsAppend(b, [t.ch]);
    OneLiteral(t.ch);
    assert toks[..kept + 1][..kept] == toks[..kept];
    assert WordsOf(toks[..kept + 1]) == WordsOf(toks[..kept]) + [WordOf(t)];
  }

  lemma OneLiteral(ch: Byte)
    ensures LiteralWords([ch]) == [Word(ch, 0)]
  {
    assert [ch][1..] == [];
  }

  lemma KeptStep(toks: seq<Token>, k: nat, kept: nat, litCount: nat, maxLit: nat)
    requires Kept(toks, k, kept, litCount, maxLit) && k < |toks|
    ensures litCount >= maxLit ==> Kept(toks, k + 1, kept, litCount, maxLit)
    ensures litCount < maxLit ==> kept == k && Kept(toks, k + 1, k + 1, if toks[k].len > 0 then 0 else litCount + 1, maxLit)
  {
    assert toks[..k + 1][..k] == toks[..k];
  }

  lemma KeptDecides(toks: seq<Token>, kept: nat, litCount: nat, maxLit: nat)
    requires Kept(toks, |toks|, kept, litCount, maxLit)
    ensures ReachesLimit(toks, maxLit) <==> litCount == maxLit
    ensures litCount < maxLit ==> kept == |toks|
  {
    if litCount < maxLit {
      forall k | 0 <= k <= |toks| ensures Trailing(toks[..k]) < maxLit {}
    } else {
      assert Trailing(toks[..kept]) >= maxLit;
    }
  }

  lemma {:induction false} TotalGrows(toks: seq<Token>, k: nat)
    requires k <= |toks|
    ensures Total(toks[..k]) + (|toks| - k) <= Total(toks)
    decreases |toks|
  {
    if k < |toks| {
      var z := |toks| - 1;
      assert toks[..z][..k] == toks[..k];
      TotalGrows(toks[..z], k);
    } else {
      assert toks[..k] == toks;
    }
  }

  lemma {:induction false} ParsedTotal(toks: seq<Token>, input: seq<Byte>, p: nat)
    requires Parses(toks, input, p)
    ensures Total(toks) == p
    decreases |toks|
  {
    if toks != [] {
      var z := |toks| - 1;
      ParsedTotal(toks[..z], input, p - Span(toks[z]));
    }
  }

  // The next token is read one step ahead, so the last token has to be a literal.
  ghost predicate Block(toks: seq<Token>, size: nat) {
    && Packable(toks) && Total(toks) == size && (toks != [] ==> toks[|toks| - 1].len == 0)
  }

  lemma ReadAhead(toks: seq<Token>, k: nat, size: nat)
    requires Block(toks, size) && k <= |toks|
    ensures Total(toks[..k]) < size <==> k < |toks|
    ensures Total(toks[..k]) < size - 1 <==> k + 1 < |toks|
    ensures k < |toks| ==> Total(toks[..k + 1]) == Total(toks[..k]) + Span(toks[k])
  {
    TotalGrows(toks, k);
    if k < |toks| {
      assert toks[..k + 1][..k] == toks[..k];
      if k + 1 == |toks| { assert toks[..k + 1] == toks; }
    } else {
      assert toks[..k] == toks;
    }
  }

  // A run of literals that ends the block.
  lemma DivideEnds(toks: seq<Token>, kept: nat, es: seq<Entry>, lits: seq<Byte>, litCount: nat, size: nat, e: Entry)
    requires Divided(toks, kept, es, lits, litCount, size) && Block(toks, size) && 0 < litCount < 0x1_0000
    requires e == Entry(litCount, 0, 0) || e == Entry(litCount, LIMIT, LIMIT)
    requires kept < |toks| ==> e.mlen == LIMIT
    ensures LitTotal(es + [e]) == |lits| && Covers(es + [e], size) && Carried(es + [e], lits) == WordsOf(toks[..kept])
  {
    var a, b := lits[..|lits| - litCount], lits[|lits| - litCount..];
    LastEntryCarries(es, a, e, b);
    assert a + b == lits;
    LastEntryCovers(toks, kept, es, lits, litCount, size, e);
  }

  lemma LastEntryCarries(es: seq<Entry>, a: seq<Byte>, e: Entry, b: seq<Byte>)
    requires LitTotal(es) == |a| && |b| == e.lit && Ending(e)
    ensures LitTotal(es + [e]) == |a + b| && Carried(es + [e], a + b) == Carried(es, a) + LiteralWords(b)
  {
    hide Carried, LiteralWords;
    CarriedAppend(es, a, e, b);
    assert LiteralWords(b) + [] == LiteralWords(b);
  }

  lemma LastEntryCovers(toks: seq<Token>, kept: nat, es: seq<Entry>, lits: seq<Byte>, litCount: nat, size: nat, e: Entry)
    requires Divided(toks, kept, es, lits, litCount, size) && Block(toks, size) && 0 < litCount < 0x1_0000
    requires e == Entry(litCount, 0, 0) || e == Entry(litCount, LIMIT, LIMIT)
    requires kept < |toks| ==> e.mlen == LIMIT
    ensures Covers(es + [e], size)
  {
    var es' := es + [e];
    assert es'[..|es|] == es;
    TotalGrows(toks, kept);
    if kept == |toks| { assert toks[..kept] == toks; }
    forall k | 0 <= k < |es'| ensures Usable(es', k, size) {
      if k < |es| {
        PositionGrows(es, k, size);
        assert es'[..k] == es[..k];
      }
    }
  }

  lemma {:induction false} PositionGrows(es: seq<Entry>, k: nat, size: nat)
    requires MatchEntries(es) && k <= |es|
    ensures Position(es[..k], size) + 4 * (|es| - k) <= Position(es, size)
    decreases |es|
  {
    if k < |es| {
      var z := |es| - 1;
      assert es[..z][..k] == es[..k];
      assert es[z] in es;
      PositionGrows(es[..z], k, size);
    } else {
      assert es[..k] == es;
    }
  }

  lemma DivideStarts(toks: seq<Token>, size: nat, maxLit: nat)
    requires maxLit > 0
    ensures Divided(toks, 0, [], [], 0, size) && Kept(toks, 0, 0, 0, maxLit)
  {
    assert toks[..0] == [];
  }

  lemma SpanOf(t: Token)
    ensures Span(t) == if t.len > 0 then t.len else 1
  {
  }

  lemma MatchFits(toks: seq<Token>, size: nat, k: nat)
    requires Block(toks, size) && k < |toks|
    ensures toks[k].len > 0 ==> 4 <= toks[k].len < 256
  {
  }

  method DivideOne(ghost toks: seq<Token>, ghost k: nat, t: Token, lits0: seq<Byte>, es0: seq<Entry>, litCount0: nat, flag0: bool,
                   ghost kept0: nat, maxLit: nat, ghost size: nat)
    returns (lits: seq<Byte>, es: seq<Entry>, litCount: nat, flag: bool, ghost kept: nat)
    requires Block(toks, size) && k < |toks| && t == toks[k] && maxLit < 0x1_0000
    requires Divided(toks, kept0, es0, lits0, litCount0, size) && Kept(toks, k, kept0, litCount0, maxLit) && kept0 <= k
    requires flag0 <==> kept0 < k
    ensures Divided(toks, kept, es, lits, litCount, size) && Kept(toks, k + 1, kept, litCount, maxLit) && kept <= k + 1
    ensures flag <==> kept < k + 1
  {
    hide *;
    KeptStep(toks, k, kept0, litCount0, maxLit);
    lits, es, litCount, flag, kept := lits0, es0, litCount0, flag0, kept0;
    if litCount >= maxLit {
      flag := true;
    } else if t.len > 0 {
      MatchFits(toks, size, k);
      BlockPacks(toks, size);
      DivideMatch(toks, k, es, lits, litCount, size);
      es := es + [EntryOf(t, litCount)];
      litCount := 0;
      kept := k + 1;
    } else {
      DivideLiteral(toks, k, es, lits, litCount, size);
      lits := lits + [t.ch];
      litCount := litCount + 1;
      kept := k + 1;
    }
  }

  lemma BlockPacks(toks: seq<Token>, size: nat)
    requires Block(toks, size)
    ensures Packable(toks)
  {
  }

  lemma NoRunLeft(toks: seq<Token>, kept: nat, es: seq<Entry>, lits: seq<Byte>, size: nat)
    requires Divided(toks, kept, es, lits, 0, size) && Block(toks, size) && kept == |toks|
    ensures LitTotal(es) == |lits| && Covers(es, size) && Carried(es, lits) == WordsOf(toks[..kept])
  {
    hide Carried, WordsOf, LitTotal, Total;
    assert lits[..|lits| - 0] == lits && lits[|lits| - 0..] == [];
    NoLiterals();
    assert Carried(es, lits) + [] == Carried(es, lits);
    assert toks[..kept] == toks;
    forall k | 0 <= k < |es| ensures Usable(es, k, size) {
      PositionGrows(es, k, size);
    }
  }

  method LastRun(ghost toks: seq<Token>, ghost kept: nat, es0: seq<Entry>, ghost lits: seq<Byte>, litCount: nat, flag0: bool,
                 maxLit: nat, ghost size: nat)
    returns (es: seq<Entry>, flag: bool)
    requires Divided(toks, kept, es0, lits, litCount, size) && Block(toks, size) && litCount <= maxLit < 0x1_0000 && 0 < maxLit
    requires litCount < maxLit ==> kept == |toks|
    requires flag0 <==> kept < |toks|
    ensures LitTotal(es) == |lits| && Covers(es, size) && kept <= |toks| && Carried(es, lits) == WordsOf(toks[..kept])
    ensures flag <==> litCount == maxLit
  {
    hide Covers, Carried, LitTotal, Block;
    es, flag := es0, flag0;
    if litCount > 0 {
      if litCount == maxLit {
        flag := true;
        DivideEnds(toks, kept, es, lits, litCount, size, Entry(litCount, LIMIT, LIMIT));
        es := es + [Entry(litCount, LIMIT, LIMIT)];
      } else {
        DivideEnds(toks, kept, es, lits, litCount, size, Entry(litCount, 0, 0));
        es := es + [Entry(litCount, 0, 0)];
      }
    } else {
      NoRunLeft(toks, kept, es, lits, size);
    }
  }

  // The literals and the entries carry the tokens, all of them unless a run of literals reaches
  // the limit, which is what the flag says.
  method Lz4CompressPart1(toks: seq<Token>, inputSize: nat, maxLit: nat)
    returns (lits: seq<Byte>, es: seq<Entry>, flag: bool, ghost kept: nat)
    requires Block(toks, inputSize) && 0 < maxLit < 0x1_0000
    ensures LitTotal(es) == |lits| && Covers(es, inputSize)
    ensures kept <= |toks| && Carried(es, lits) == WordsOf(toks[..kept])
    ensures flag <==> ReachesLimit(toks, maxLit)
    ensures !flag ==> kept == |toks|
  {
    lits, es, flag, kept := [], [], false, 0;
    DivideStarts(toks, inputSize, maxLit);
    ReadAhead(toks, 0, inputSize);
    assert toks[..0] == [];
    if inputSize == 0 { return; }
    var litCount := 0;
    var next := toks[0];
    ghost var k := 0;
    var rest := toks[1..];
    var i := 0;
    hide *;
    while i < inputSize
      invariant k <= |toks| && i == Total(toks[..k])
      invariant Divided(toks, kept, es, lits, litCount, inputSize)
      invariant Kept(toks, k, kept, litCount, maxLit)
      invariant k < |toks| ==> next == toks[k] && rest == toks[k + 1..]
      invariant flag <==> kept < k
      decreases |toks| - k
    {
      ReadAhead(toks, k, inputSize);
      var t := next;
      if i < inputSize - 1 {
        next := rest[0];
        rest := rest[1..];
      }
      KeptStep(toks, k, kept, litCount, maxLit);
      lits, es, litCount, flag, kept := DivideOne(toks, k, t, lits, es, litCount, flag, kept, maxLit, inputSize);
      i := i + (if t.len > 0 then t.len else 1);
      SpanOf(t);
      k := k + 1;
    }
    ReadAhead(toks, k, inputSize);
    KeptDecides(toks, kept, litCount, maxLit);
    es, flag := LastRun(toks, kept, es, lits, litCount, flag, maxLit, inputSize);
  }
}
