// The Snappy format: the length of the block, then literals and copies, each behind a tag byte.

module SnappyFormat {
  import opened LzCore
  import opened Lz4Format

  // A run of literals and the copy after it; an entry without a copy has length and offset 0.
  function CopyBytes(len: nat, off: nat): seq<Byte>
    requires 4 <= len <= 64
  {
    if len <= 11 && off <= 2047 then [1 + (len - 4) * 4 + off / 256 % 8 * 32, off % 256]
    else [2 + (len - 1) * 4, off % 256, off / 256 % 256]
  }

  function LitTag(lit: nat): seq<Byte> {
    if lit == 0 then []
    else if lit <= 60 then [(lit - 1) * 4]
    else if lit < 256 then [60 * 4, lit - 1]
    else [61 * 4, (lit - 1) % 256, (lit - 1) / 256 % 256]
  }

  predicate NoCopy(e: Entry) { e.mlen == 0 && e.off == 0 }

  predicate Proper(e: Entry) {
    e.lit < 0x1_0000 && (NoCopy(e) || (4 <= e.mlen <= 64 && 1 <= e.off < 0x1_0000)) && (NoCopy(e) ==> e.lit > 0)
  }

  function Section(e: Entry, lits: seq<Byte>): seq<Byte>
    requires Proper(e)
  {
    LitTag(e.lit) + lits + (if NoCopy(e) then [] else CopyBytes(e.mlen, e.off))
  }

  predicate AllProper(es: seq<Entry>) {
    forall k :: 0 <= k < |es| ==> Proper(es[k])
  }

  function Sections(es: seq<Entry>, lits: seq<Byte>): seq<Byte>
    requires LitTotal(es) == |lits| && AllProper(es)
  {
    if es == [] then [] else Section(es[0], lits[..es[0].lit]) + Sections(es[1..], lits[es[0].lit..])
  }

  function SectionWords(e: Entry, lits: seq<Byte>): seq<Word> {
    LiteralWords(lits) + (if NoCopy(e) then [] else [CopyWord(e)])
  }

  function CopyWord(e: Entry): Word {
    Word(if e.off > 0 then e.off - 1 else 0, if e.mlen > 0 then e.mlen - 1 else 0)
  }

  function Conveyed(es: seq<Entry>, lits: seq<Byte>): seq<Word>
    requires LitTotal(es) == |lits|
  {
    if es == [] then [] else SectionWords(es[0], lits[..es[0].lit]) + Conveyed(es[1..], lits[es[0].lit..])
  }

  // The length of the block, 7 bits to a byte, lowest first.
  function Preamble(size: nat): seq<Byte>
    requires size < 0x20_0000
  {
    if size >= 0x4000 then [128 + size % 128, 128 + size / 128 % 128, size / 0x4000]
    else if size >= 128 then [128 + size % 128, size / 128]
    else [size]
  }

  // What the format says a length is: seven bits from every byte, lowest first, until a byte below
  // 128; and how many bytes that takes.
  function LengthAt(s: seq<Byte>): (nat, nat) {
    if s == [] then (0, 0)
    else if s[0] < 128 then (s[0], 1)
    else (s[0] - 128 + 128 * LengthAt(s[1..]).0, 1 + LengthAt(s[1..]).1)
  }

  function Reach(es: seq<Entry>): nat {
    if es == [] then 0 else Reach(es[..|es| - 1]) + es[|es| - 1].lit + es[|es| - 1].mlen
  }

  lemma {:induction false} ConveyedAppend(es: seq<Entry>, lits: seq<Byte>, e: Entry, l: seq<Byte>)
    requires LitTotal(es) == |lits| && |l| == e.lit
    ensures LitTotal(es + [e]) == |lits + l|
    ensures Conveyed(es + [e], lits + l) == Conveyed(es, lits) + SectionWords(e, l)
  {
    LitTotalAppend(es, e);
    if es == [] {
      ConveyedOne(e, l);
      assert es + [e] == [e] && lits + l == l;
    } else {
      LitTotalAppend(es[1..], e);
      ConveyedFirst(es, lits, e, l);
      ConveyedAppend(es[1..], lits[es[0].lit..], e, l);
    }
  }

  lemma ConveyedOne(e: Entry, l: seq<Byte>)
    requires |l| == e.lit
    ensures LitTotal([e]) == |l| && Conveyed([e], l) == SectionWords(e, l)
  {
    assert [e][1..] == [] && l[..e.lit] == l && l[e.lit..] == [];
  }

  lemma ConveyedFirst(es: seq<Entry>, lits: seq<Byte>, e: Entry, l: seq<Byte>)
    requires es != [] && LitTotal(es) == |lits| && |l| == e.lit
    requires LitTotal(es + [e]) == |lits + l| && LitTotal(es[1..] + [e]) == |lits[es[0].lit..] + l|
    ensures Conveyed(es + [e], lits + l) == SectionWords(es[0], lits[..es[0].lit]) + Conveyed(es[1..] + [e], lits[es[0].lit..] + l)
  {
    hide SectionWords;
    var n := es[0].lit;
    assert (es + [e])[1..] == es[1..] + [e];
    assert (lits + l)[..n] == lits[..n] && (lits + l)[n..] == lits[n..] + l;
  }

  lemma ReachAppend(es: seq<Entry>, e: Entry)
    ensures Reach(es + [e]) == Reach(es) + e.lit + e.mlen
  {
    assert (es + [e])[..|es|] == es;
  }

  lemma {:induction false} ReachPrefix(es: seq<Entry>, k: nat)
    requires AllProper(es) && k <= |es|
    ensures Reach(es[..k]) + (|es| - k) <= Reach(es)
    decreases |es|
  {
    if k < |es| {
      var z := |es| - 1;
      assert es[..z][..k] == es[..k];
      assert Proper(es[z]);
      ReachPrefix(es[..z], k);
    } else {
      assert es[..k] == es;
    }
  }
}
