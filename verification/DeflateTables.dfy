// The look-up tables of the encoder, by search in the tables of base values: every length and every
// distance lies in the interval of just one code.

module DeflateTables {
  import opened Arithmetic
  import opened DeflateBlock
  import opened DeflateEncode

  // The last of the codes up to d whose base value is not beyond v.
  function LastBase(bases: seq<nat>, v: nat, d: nat): (c: nat)
    requires d < |bases| && bases[0] == 0
    ensures c <= d && bases[c] <= v && (c < d ==> v < bases[c + 1])
  {
    if bases[d] <= v then d else LastBase(bases, v, d - 1)
  }

  function LengthCodeOf(len: nat): (c: nat)
    ensures c <= 27
  {
    LastBase(BASE_LENGTH, if len < 3 then 0 else len - 3, 27)
  }

  function DistCodeOf(offset: nat): (c: nat)
    ensures c <= 29
  {
    LastBase(BASE_DIST, offset, 29)
  }

  lemma SmallPowers()
    ensures Pow2(0) == 1 && Pow2(1) == 2 && Pow2(2) == 4 && Pow2(3) == 8 && Pow2(4) == 16 && Pow2(5) == 32 && Pow2(6) == 64
    ensures Pow2(7) == 128 && Pow2(8) == 256 && Pow2(9) == 512 && Pow2(10) == 1024 && Pow2(11) == 2048 && Pow2(12) == 4096
    ensures Pow2(13) == 8192
  {
    assert Pow2(2) == 4 && Pow2(4) == 16;
    assert Pow2(6) == 64 && Pow2(8) == 256;
    assert Pow2(10) == 1024 && Pow2(12) == 4096;
  }

  // Where one code's interval ends, the next one's starts.
  lemma LengthSteps(c: nat)
    requires c <= 26
    ensures |BASE_LENGTH| == 29 && BASE_LENGTH[c] + Pow2(LengthBits(c + 1)) == BASE_LENGTH[c + 1]
  {
    SmallPowers();
    hide Pow2;
  }

  lemma DistSteps(c: nat)
    requires c <= 28
    ensures |BASE_DIST| == 30 && BASE_DIST[c] + Pow2(DistanceBits(c)) == BASE_DIST[c + 1]
  {
    SmallPowers();
    hide Pow2;
  }

  // From 256 on, the intervals of the distance codes start at multiples of 128.
  lemma DistBlocks(c: nat)
    requires 16 <= c <= 29
    ensures |BASE_DIST| == 30 && BASE_DIST[c] % 128 == 0
  {
  }

  lemma LengthCodeFits(len: nat)
    requires 3 <= len <= 255
    ensures LengthFits(LengthCodeOf(len), len)
  {
    var c := LengthCodeOf(len);
    LastLength();
    hide LengthBits, Pow2;
    if c < 27 { LengthSteps(c); }
  }

  lemma LastLength()
    ensures |BASE_LENGTH| == 29 && BASE_LENGTH[27] == 224 && Pow2(LengthBits(28)) == 32
  {
    SmallPowers();
    hide Pow2;
  }

  lemma LastDistance()
    ensures |BASE_DIST| == 30 && BASE_DIST[29] == 24576 && Pow2(DistanceBits(29)) == 8192 && BASE_DIST[16] == 256
  {
    SmallPowers();
    hide Pow2;
  }

  // Distances with the same quotient by 128 have the same code from 256 on.
  lemma DistCodeFits(offset: nat, near: nat)
    requires offset < 0x8000
    requires near == if offset < 256 then offset else 128 * (offset / 128)
    ensures DistFits(DistCodeOf(near), offset)
  {
    var c := DistCodeOf(near);
    LastDistance();
    hide DistanceBits, Pow2;
    if c < 29 {
      DistSteps(c);
      if offset >= 256 {
        FarCode(near, c);
        DistBlocks(c + 1);
        SameBlock(offset, near, BASE_DIST[c + 1]);
      }
    }
  }

  lemma FarCode(near: nat, c: nat)
    requires near >= 256 && c < 29 && |BASE_DIST| == 30 && near < BASE_DIST[c + 1]
    ensures c >= 16
  {
  }

  lemma SameBlock(offset: nat, near: nat, bound: nat)
    requires near == 128 * (offset / 128) && near < bound && bound % 128 == 0
    ensures near <= offset < bound
  {
  }

  function LengthTable(n: nat): (t: seq<nat>)
    ensures |t| == n && forall k :: 0 <= k < n ==> t[k] == LengthCodeOf(k)
  {
    if n == 0 then [] else LengthTable(n - 1) + [LengthCodeOf(n - 1)]
  }

  // Entry k stands for the distance k, and entry 256 + k for the distances from 128 * k on.
  function DistEntry(k: nat): nat {
    DistCodeOf(if k < 256 then k else 128 * (k - 256))
  }

  function DistTable(n: nat): (t: seq<nat>)
    ensures |t| == n && forall k :: 0 <= k < n ==> t[k] == DistEntry(k)
  {
    if n == 0 then []
    else
      hide DistEntry;
      DistTable(n - 1) + [DistEntry(n - 1)]
  }

  function SearchTables(): LookUps {
    LookUps(LengthTable(259), DistTable(512))
  }

  lemma LengthEntryFits(len: nat)
    requires 3 <= len <= 255
    ensures SearchTables().Sized() && LengthFits(SearchTables().LengthCode(len), len)
  {
    LengthCodeFits(len);
    hide LengthFits, LengthCodeOf, LengthTable, DistTable;
  }

  lemma DistEntryFits(offset: nat)
    requires offset < 0x8000
    ensures SearchTables().Sized() && DistFits(SearchTables().DistCode(offset), offset)
  {
    var near := if offset < 256 then offset else 128 * (offset / 128);
    DistCodeFits(offset, near);
    EntryIs(offset, near);
    hide DistFits, DistCodeOf, DistEntry, LengthTable, DistTable;
  }

  lemma EntryIs(offset: nat, near: nat)
    requires near == if offset < 256 then offset else 128 * (offset / 128)
    ensures DistEntry(if offset < 256 then offset else 256 + offset / 128) == DistCodeOf(near)
  {
    hide DistCodeOf;
  }

  // Such tables exist: the searched ones are sound.
  lemma TablesAreSound()
    ensures SearchTables().Sound()
  {
    hide LengthFits, DistFits, SearchTables;
    LengthEntryFits(3);
    forall len {:trigger SearchTables().LengthCode(len)} | 3 <= len <= 255 ensures LengthFits(SearchTables().LengthCode(len), len) {
      LengthEntryFits(len);
    }
    forall offset {:trigger SearchTables().DistCode(offset)} | 0 <= offset < 0x8000 ensures DistFits(SearchTables().DistCode(offset), offset) {
      DistEntryFits(offset);
    }
  }
}
