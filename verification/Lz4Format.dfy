// The LZ4 block format: sequences of a token byte, literals and a match, and the words they carry.

module Lz4Format {
  import opened LzCore

  // A run of literals and the match after it: its length less 4 and its offset less 1. The last
  // entry of a block has no match; `off` and `mlen` are then both 0, or both LIMIT when the run
  // reached the literal limit.
  datatype Entry = Entry(lit: nat, mlen: nat, off: nat)

  const LIMIT := 777

  predicate Ending(e: Entry) {
    (e.mlen == 0 && e.off == 0) || (e.mlen == LIMIT && e.off == LIMIT)
  }

  // Lengths of 15 and more go on in further bytes, 255 at a time.
  function Extension(n: nat): (b: seq<Byte>)
    ensures |b| >= 1
  {
    if n >= 255 then [255] + Extension(n - 255) else [n]
  }

  function Nibble(n: nat): (b: nat)
    ensures b < 16
  {
    if n >= 15 then 15 else n
  }

  function More(n: nat): seq<Byte> {
    if n >= 15 then Extension(n - 15) else []
  }

  function Low(n: nat): Byte { n % 256 }

  function High(n: nat): Byte { n / 256 % 256 }

  function OffsetBytes(off: nat): seq<Byte> { [Low(off + 1), High(off + 1)] }

  function MatchBytes(e: Entry): seq<Byte> {
    if Ending(e) then [] else OffsetBytes(e.off) + More(e.mlen)
  }

  function TokenByte(e: Entry): Byte { Nibble(e.lit) * 16 + Nibble(e.mlen) }

  function EntryBytes(e: Entry, lits: seq<Byte>): seq<Byte> {
    [TokenByte(e)] + More(e.lit) + lits + MatchBytes(e)
  }

  function LitTotal(es: seq<Entry>): nat {
    if es == [] then 0 else es[0].lit + LitTotal(es[1..])
  }

  // The block: each entry takes its literals from the front of `lits`.
  function Encoded(es: seq<Entry>, lits: seq<Byte>): seq<Byte>
    requires LitTotal(es) == |lits|
  {
    if es == [] then [] else EntryBytes(es[0], lits[..es[0].lit]) + Encoded(es[1..], lits[es[0].lit..])
  }

  function LiteralWords(lits: seq<Byte>): (w: seq<Word>)
    ensures |w| == |lits|
  {
    if lits == [] then [] else [Word(lits[0], 0)] + LiteralWords(lits[1..])
  }

  function EntryWords(e: Entry, lits: seq<Byte>): seq<Word> {
    LiteralWords(lits) + (if Ending(e) then [] else [Word(e.off, e.mlen + 3)])
  }

  // The words the block stands for.
  function Carried(es: seq<Entry>, lits: seq<Byte>): seq<Word>
    requires LitTotal(es) == |lits|
  {
    if es == [] then [] else EntryWords(es[0], lits[..es[0].lit]) + Carried(es[1..], lits[es[0].lit..])
  }

  // How far into the block the encoder counts itself after these entries.
  function Position(es: seq<Entry>, size: nat): nat {
    if es == [] then 0
    else
      var e := es[|es| - 1];
      if e.mlen == LIMIT && e.off == LIMIT then size else Position(es[..|es| - 1], size) + e.mlen + e.lit + 4
  }

  // The entries cover a block of the given size, and only the last one may lack a match.
  ghost predicate Covers(es: seq<Entry>, size: nat) {
    && (forall k :: 0 <= k < |es| ==> Usable(es, k, size))
    && Position(es, size) >= size
  }

  ghost predicate Usable(es: seq<Entry>, k: nat, size: nat)
    requires k < |es|
  {
    && Position(es[..k], size) < size && es[k].lit < 0x1_0000 && es[k].mlen < 0xFFFD && es[k].off < 0x1_0000
    && (Ending(es[k]) ==> k == |es| - 1 && es[k].lit > 0)
  }

  // ---------- Adding an entry at the end ----------

  lemma {:induction false} LitTotalAppend(es: seq<Entry>, e: Entry)
    ensures LitTotal(es + [e]) == LitTotal(es) + e.lit
  {
    if es == [] {
      assert es + [e] == [e] && [e][1..] == [];
    } else {
      assert (es + [e])[1..] == es[1..] + [e];
      LitTotalAppend(es[1..], e);
    }
  }

  lemma {:induction false} LiteralWordsAppend(a: seq<Byte>, b: seq<Byte>)
    ensures LiteralWords(a + b) == LiteralWords(a) + LiteralWords(b)
  {
    if a == [] {
      assert a + b == b;
    } else {
      assert (a + b)[1..] == a[1..] + b;
      LiteralWordsAppend(a[1..], b);
    }
  }

  lemma {:induction false} CarriedAppend(es: seq<Entry>, lits: seq<Byte>, e: Entry, l: seq<Byte>)
    requires LitTotal(es) == |lits| && |l| == e.lit
    ensures LitTotal(es + [e]) == |lits + l|
    ensures Carried(es + [e], lits + l) == Carried(es, lits) + EntryWords(e, l)
  {
    LitTotalAppend(es, e);
    if es == [] {
      CarriedOne(e, l);
      assert es + [e] == [e] && lits + l == l;
    } else {
      LitTotalAppend(es[1..], e);
      CarriedFirst(es, lits, e, l);
      CarriedAppend(es[1..], lits[es[0].lit..], e, l);
    }
  }

  lemma CarriedOne(e: Entry, l: seq<Byte>)
    requires |l| == e.lit
    ensures LitTotal([e]) == |l| && Carried([e], l) == EntryWords(e, l)
  {
    assert [e][1..] == [] && l[..e.lit] == l && l[e.lit..] == [];
  }

  lemma CarriedFirst(es: seq<Entry>, lits: seq<Byte>, e: Entry, l: seq<Byte>)
    requires es != [] && LitTotal(es) == |lits| && |l| == e.lit
    requires LitTotal(es + [e]) == |lits + l| && LitTotal(es[1..] + [e]) == |lits[es[0].lit..] + l|
    ensures Carried(es + [e], lits + l) == EntryWords(es[0], lits[..es[0].lit]) + Carried(es[1..] + [e], lits[es[0].lit..] + l)
  {
    hide EntryWords;
    var n := es[0].lit;
    assert (es + [e])[1..] == es[1..] + [e];
    assert (lits + l)[..n] == lits[..n] && (lits + l)[n..] == lits[n..] + l;
  }
}
