// Remainders: what the width of a counter register does and does not change.

module Modular {

  // A register of limited width.
  function Wrapped(x: int, wrap: nat): nat
    requires wrap > 0
  {
    x % wrap
  }

  lemma Unwrapped(x: nat, wrap: nat)
    requires x < wrap
    ensures Wrapped(x, wrap) == x
  {
  }

  lemma ModUnique(y: int, q: int, r: nat, n: nat)
    requires n > r && y == n * q + r
    ensures y % n == r && y / n == q
  {
    var q', r' := y / n, y % n;
    assert y == n * q' + r';
    assert n * (q - q') == r' - r;
    if q - q' >= 1 { Grows(n, q - q'); } else if q - q' <= -1 { Grows(n, q' - q); }
  }

  lemma Grows(n: int, k: int)
    requires k >= 1 && n >= 0
    ensures n * k >= n && n * -k <= -n
  {
  }

  // Multiples of n are equal or at least n apart.
  lemma MultiplesApart(n: nat, a: int, b: int)
    ensures n * b - n * a <= 0 || n * b - n * a >= n
  {
    assert n * b - n * a == n * (b - a);
    if b - a >= 1 {
      Grows(n, b - a);
    } else if a - b >= 1 {
      Grows(n, a - b);
    }
  }

  lemma QuotientRemainder(x: int, n: nat)
    requires n > 0
    ensures x == n * (x / n) + x % n
  {
  }

  lemma ModShift(x: int, q: int, n: nat)
    requires n > 0
    ensures (x + n * q) % n == x % n
  {
    var y := x + n * q;
    assert x == n * (x / n) + x % n;
    assert y == n * (x / n + q) + x % n;
    ModUnique(y, x / n + q, x % n, n);
  }

  lemma ModSub(a: int, d: int, n: nat)
    requires n > 0
    ensures (a % n - d) % n == (a - d) % n
  {
    var q := a / n;
    assert a == n * q + a % n;
    ModShift(a % n - d, q, n);
  }

  lemma WrappedAdd(x: int, d: int, wrap: nat)
    requires wrap > 0
    ensures Wrapped(Wrapped(x, wrap) + d, wrap) == Wrapped(x + d, wrap)
  {
    ModSub(x, 0 - d, wrap);
  }

  // A wrapped counter still finds word and byte, when the width is a whole number of words.
  lemma WrappedWord(s: nat, p: nat, m: nat, wrap: nat)
    requires p > 0 && m > 0 && wrap == p * m && wrap > 0
    ensures Wrapped(s, wrap) / p == Wrapped(s / p, m) && Wrapped(s, wrap) % p == s % p
  {
    var r, t := s % wrap, s / wrap;
    assert s == wrap * t + r;
    var q, b := r / p, r % p;
    assert r == p * q + b;
    assert s == p * (m * t + q) + b by { MulFact(p, m, t, q, b); }
    ModUnique(s, m * t + q, b, p);
    QuotientSmall(r, p, m);
    ModUnique(s / p, t, q, m);
  }

  lemma MulFact(p: nat, m: nat, t: nat, q: nat, b: nat)
    ensures (p * m) * t + (p * q + b) == p * (m * t + q) + b
  {
  }

  lemma QuotientSmall(r: nat, p: nat, m: nat)
    requires p > 0 && r < p * m
    ensures r / p < m
  {
    assert r == p * (r / p) + r % p;
    if r / p >= m { Mono(p, m, r / p); }
  }

  lemma Mono(p: nat, a: nat, b: nat)
    requires a <= b
    ensures p * a <= p * b
  {
  }

  // Words r and x, and the words after them, lie in the same bank and slot.
  ghost predicate SameSlots(r: nat, x: nat, n: nat)
    requires n > 0
  {
    r % 2 == x % 2 && (r / 2) % n == (x / 2) % n && (r + 1) % 2 == (x + 1) % 2 && ((r + 1) / 2) % n == ((x + 1) / 2) % n
  }

  // A wrapped counter still finds the bank and the slot of a word.
  lemma WrappedSlot(x: nat, n: nat, k: nat, wrap: nat)
    requires n > 0 && wrap == 2 * (n * k) && wrap > 0
    ensures SameSlots(Wrapped(x, wrap), x, n)
  {
    hide *;
    var t := Turns(x, wrap);
    var q := WholeTurns(x, n, k, wrap, t, Wrapped(x, wrap));
    SlotOf(x, Wrapped(x, wrap), n, q);
  }

  lemma Turns(x: nat, wrap: nat) returns (t: nat)
    requires wrap > 0
    ensures x == wrap * t + Wrapped(x, wrap)
  {
    t := x / wrap;
    QuotientRemainder(x, wrap);
  }

  lemma WholeTurns(x: nat, n: nat, k: nat, wrap: nat, t: nat, r: nat) returns (q: nat)
    requires wrap == 2 * (n * k) && x == wrap * t + r
    ensures x == 2 * (n * q) + r
  {
    q := k * t;
    SlotFact(n, k, t, q, wrap);
  }

  lemma SlotOf(x: nat, r: nat, n: nat, q: nat)
    requires n > 0 && x == 2 * (n * q) + r
    ensures SameSlots(r, x, n)
  {
    ModShift(r / 2, q, n);
    ModShift((r + 1) / 2, q, n);
    HalfFact(x, r, n * q);
  }

  lemma HalfFact(x: nat, r: nat, m: nat)
    requires x == 2 * m + r
    ensures x / 2 == r / 2 + m && (x + 1) / 2 == (r + 1) / 2 + m && r % 2 == x % 2 && (r + 1) % 2 == (x + 1) % 2
  {
  }

  lemma SlotFact(n: nat, k: nat, t: nat, q: nat, wrap: nat)
    requires q == k * t && wrap == 2 * (n * k)
    ensures wrap * t == 2 * (n * q)
  {
    calc {
      wrap * t;
      (2 * (n * k)) * t;
      2 * ((n * k) * t);
      2 * (n * (k * t));
    }
  }
}
