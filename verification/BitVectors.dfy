// Registers of 12 bits as numbers.

module BitVectors {
  lemma {:induction false} SmallNumber(x: int)
    requires 0 <= x < 4096
    ensures (x as bv12) as int == x
  {
    if x > 0 {
      SmallNumber(x - 1);
      Successor((x - 1) as bv12);
    }
  }

  lemma Successor(b: bv12)
    requires b < 4095
    ensures (b + 1) as int == b as int + 1
  {
  }

  lemma LargeBits(b: bv12)
    requires b > 255
    ensures b as int > 255
  {
  }

  lemma NumbersApart(x: bv12, y: bv12)
    requires x != y
    ensures x as nat != y as nat
  {
    if x as int == y as int {
      BackToBits(x);
      BackToBits(y);
    }
  }

  lemma BackToBits(x: bv12)
    ensures (x as int) as bv12 == x
  {
  }
}
