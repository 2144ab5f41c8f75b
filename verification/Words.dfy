/** Unsigned 32-bit words as integers: the operations the hash is made of, and what undoes each of them. */
module Words {
  import opened Prelude

  type Byte = b: int | 0 <= b < 256
  type Word = w: int | 0 <= w < WRAP

  function Pow2(k: nat): (p: nat)
    ensures p > 0
  {
    if k == 0 then 1 else 2 * Pow2(k - 1)
  }

  lemma {:induction false} Pow2Sum(j: nat, k: nat)
    ensures Pow2(j + k) == Pow2(j) * Pow2(k)
  {
    if j > 0 {
      Pow2Sum(j - 1, k);
      assert Pow2(j + k) == 2 * Pow2(j - 1 + k);
      assert 2 * (Pow2(j - 1) * Pow2(k)) == (2 * Pow2(j - 1)) * Pow2(k);
    }
  }

  lemma Pow2Values()
    ensures Pow2(8) == 0x100 && Pow2(16) == 0x1_0000 && Pow2(24) == 0x100_0000 && Pow2(32) == WRAP
  {
  }

  /* ---- Sums and products modulo 2^32 ---- */

  function Add(x: Word, y: Word): Word { (x + y) % WRAP }

  function Sub(x: Word, y: Word): Word { (x - y) % WRAP }

  function Mul(x: Word, y: Word): Word { (x * y) % WRAP }

  lemma SubAdd(x: Word, y: Word)
    ensures Sub(Add(x, y), y) == x
  {
  }

  lemma ModIs(n: int, q: int, r: Word)
    requires n == WRAP * q + r
    ensures n % WRAP == r
  {
  }

  /** An odd multiplier is undone by its inverse. */
  lemma MulInverse(x: Word, c: Word, d: Word)
    requires Mul(c, d) == 1
    ensures Mul(Mul(x, c), d) == x
  {
    var q, t := (x * c) / WRAP, (c * d) / WRAP;
    var r := Mul(x, c);
    calc {
      r * d;
      (x * c - WRAP * q) * d;
      x * (c * d) - WRAP * q * d;
      x * (WRAP * t + 1) - WRAP * q * d;
      WRAP * (x * t - q * d) + x;
    }
    ModIs(r * d, x * t - q * d, x);
  }

  /* ---- Shifts and rotations ---- */

  /** `x >> k` */
  function ShiftRight(x: nat, k: nat): (y: nat)
    ensures y <= x
  {
    if k == 0 then x else ShiftRight(x / 2, k - 1)
  }

  /** The bits that `x >> k` drops. */
  function LowBits(x: nat, k: nat): (low: nat)
    ensures low < Pow2(k)
  {
    if k == 0 then 0 else 2 * LowBits(x / 2, k - 1) + x % 2
  }

  lemma {:induction false} SplitAt(x: nat, k: nat)
    ensures x == ShiftRight(x, k) * Pow2(k) + LowBits(x, k)
  {
    if k > 0 {
      SplitAt(x / 2, k - 1);
      var high, low, p := ShiftRight(x / 2, k - 1), LowBits(x / 2, k - 1), Pow2(k - 1);
      assert ShiftRight(x, k) == high && LowBits(x, k) == 2 * low + x % 2 && Pow2(k) == 2 * p;
      hide ShiftRight, LowBits, Pow2;
      Doubled(x, high, low, p);
    }
  }

  lemma Doubled(x: nat, high: nat, low: nat, p: nat)
    requires x / 2 == high * p + low
    ensures x == high * (2 * p) + (2 * low + x % 2)
  {
    assert high * (2 * p) == 2 * (high * p);
  }

  lemma {:induction false} SplitIsUnique(high: nat, low: nat, k: nat)
    requires low < Pow2(k)
    ensures ShiftRight(high * Pow2(k) + low, k) == high
    ensures LowBits(high * Pow2(k) + low, k) == low
  {
    if k > 0 {
      Halved(high, low, Pow2(k - 1));
      SplitIsUnique(high, low / 2, k - 1);
    }
  }

  lemma Halved(high: nat, low: nat, p: nat)
    ensures var x := high * (2 * p) + low;
            x / 2 == high * p + low / 2 && x % 2 == low % 2
  {
    assert high * (2 * p) == 2 * (high * p);
  }

  lemma {:induction false} ShiftTwice(x: nat, j: nat, k: nat)
    ensures ShiftRight(ShiftRight(x, j), k) == ShiftRight(x, j + k)
  {
    if j > 0 { ShiftTwice(x / 2, j - 1, k); }
  }

  lemma ShiftOfZero(k: nat)
    ensures ShiftRight(0, k) == 0
  {
  }

  lemma ShiftedOut(x: Word, k: nat)
    requires k >= 32
    ensures ShiftRight(x, k) == 0
  {
    hide Pow2, ShiftRight, LowBits;
    Pow2Values();
    SplitIsUnique(0, x, 32);
    ShiftTwice(x, 32, k - 32);
    ShiftOfZero(k - 32);
  }

  /** `(x << r) | (x >> (32 - r))`: the two parts have no bit in common, so they add up. */
  function Rotl32(x: Word, r: nat): (y: Word)
    requires 0 < r < 32
  {
    RotateSwapsParts(x, r);
    (x * Pow2(r)) % WRAP + ShiftRight(x, 32 - r)
  }

  /** Rotation exchanges the high r and the low 32 - r bits. */
  lemma RotateSwapsParts(x: Word, r: nat)
    requires 0 < r < 32
    ensures var high, low := ShiftRight(x, 32 - r), LowBits(x, 32 - r);
            && high < Pow2(r)
            && (x * Pow2(r)) % WRAP + high == low * Pow2(r) + high < WRAP
  {
    Pow2Values();
    Pow2Sum(r, 32 - r);
    SplitAt(x, 32 - r);
    PartsInRange(x, ShiftRight(x, 32 - r), LowBits(x, 32 - r), Pow2(r), Pow2(32 - r));
  }

  lemma PartsInRange(x: Word, high: nat, low: nat, p: nat, q: nat)
    requires p * q == WRAP && low < q && x == high * q + low && p > 0
    ensures high < p
    ensures (x * p) % WRAP == low * p
    ensures low * p + high < WRAP
  {
    assert x * p == (high * q) * p + low * p;
    assert (high * q) * p == high * (q * p) == WRAP * high;
    assert (low + 1) * p <= q * p;
    ModIs(x * p, high, low * p);
  }

  lemma RotateBack(x: Word, r: nat)
    requires 0 < r < 32
    ensures Rotl32(Rotl32(x, r), 32 - r) == x
  {
    var high, low, y := ShiftRight(x, 32 - r), LowBits(x, 32 - r), Rotl32(x, r);
    RotateSwapsParts(x, r);
    RotateSwapsParts(y, 32 - r);
    SplitIsUnique(low, high, r);
    SplitAt(x, 32 - r);
  }

  /* ---- Exclusive or, bit by bit ---- */

  function Xor(a: nat, b: nat): nat
  {
    if a == 0 then b
    else if b == 0 then a
    else 2 * Xor(a / 2, b / 2) + (a + b) % 2
  }

  lemma XorStep(a: nat, b: nat)
    ensures Xor(a, b) / 2 == Xor(a / 2, b / 2)
    ensures Xor(a, b) % 2 == (a + b) % 2
  {
  }

  lemma XorZero(a: nat)
    ensures Xor(a, 0) == a == Xor(0, a)
  {
  }

  lemma {:induction false} XorSymmetric(a: nat, b: nat)
    ensures Xor(a, b) == Xor(b, a)
  {
    if a != 0 && b != 0 { XorSymmetric(a / 2, b / 2); }
  }

  lemma SameHalves(m: nat, n: nat)
    requires m / 2 == n / 2 && m % 2 == n % 2
    ensures m == n
  {
  }

  lemma {:induction false} XorAssociative(a: nat, b: nat, c: nat)
    ensures Xor(Xor(a, b), c) == Xor(a, Xor(b, c))
    decreases a
  {
    if a == 0 {
      XorZero(b);
      XorZero(Xor(b, c));
    } else {
      hide Xor;
      XorAssociative(a / 2, b / 2, c / 2);
      var ab, bc := Xor(a, b), Xor(b, c);
      XorStep(a, b);
      XorStep(b, c);
      XorStep(ab, c);
      XorStep(a, bc);
      Parity(ab, a, b, c);
      Parity(bc, b, c, a);
      assert Xor(ab, c) % 2 == Xor(a, bc) % 2;
      SameHalves(Xor(ab, c), Xor(a, bc));
    }
  }

  lemma Parity(p: nat, a: nat, b: nat, c: nat)
    requires p % 2 == (a + b) % 2
    ensures (p + c) % 2 == (c + p) % 2 == (a + b + c) % 2
  {
  }

  lemma {:induction false} XorSelf(a: nat)
    ensures Xor(a, a) == 0
  {
    if a != 0 { XorSelf(a / 2); }
  }

  lemma XorCancels(a: nat, b: nat)
    ensures Xor(Xor(a, b), b) == a && Xor(Xor(a, b), a) == b
  {
    hide Xor;
    XorAssociative(a, b, b);
    XorSelf(b);
    XorSymmetric(a, b);
    XorAssociative(b, a, a);
    XorSelf(a);
    XorZero(a);
    XorZero(b);
  }

  lemma {:induction false} XorBound(a: nat, b: nat, k: nat)
    requires a < Pow2(k) && b < Pow2(k)
    ensures Xor(a, b) < Pow2(k)
  {
    if a != 0 && b != 0 && k > 0 { XorBound(a / 2, b / 2, k - 1); }
  }

  function XorWord(a: Word, b: Word): Word
  {
    Pow2Values();
    XorBound(a, b, 32);
    Xor(a, b)
  }

  lemma DoubleDisjoint(n: nat, low: nat)
    requires Xor(n, low / 2) == n + low / 2
    ensures Xor(2 * n, low) == 2 * n + low
  {
    hide Xor;
    XorStep(2 * n, low);
    assert (2 * n) / 2 == n && (2 * n + low) % 2 == low % 2;
    SameHalves(Xor(2 * n, low), 2 * n + low);
  }

  lemma DoubleDisjointProduct(high: nat, low: nat, p: nat, q: nat)
    requires q == 2 * p && Xor(high * p, low / 2) == high * p + low / 2
    ensures Xor(high * q, low) == high * q + low
  {
    hide Xor;
    DoubleDisjoint(high * p, low);
    assert high * q == 2 * (high * p);
  }

  /** Bits that do not meet add up. */
  lemma {:induction false} XorDisjoint(high: nat, low: nat, k: nat)
    requires low < Pow2(k)
    ensures Xor(high * Pow2(k), low) == high * Pow2(k) + low
  {
    hide Xor;
    if k == 0 {
      XorZero(high * Pow2(k));
    } else {
      XorDisjoint(high, low / 2, k - 1);
      DoubleDisjointProduct(high, low, Pow2(k - 1), Pow2(k));
    }
  }

  /* ---- h ^= h >> k ---- */

  lemma {:induction false} ShiftOfXor(a: nat, b: nat, k: nat)
    ensures ShiftRight(Xor(a, b), k) == Xor(ShiftRight(a, k), ShiftRight(b, k))
  {
    if k > 0 {
      XorStep(a, b);
      ShiftOfXor(a / 2, b / 2, k - 1);
    }
  }

  /** `x ^ (x >> k)` */
  function FoldRight(x: Word, k: nat): Word
  {
    XorWord(x, ShiftRight(x, k))
  }

  /** Folding twice is one fold over twice the distance. */
  lemma FoldTwice(x: Word, k: nat)
    ensures FoldRight(FoldRight(x, k), k) == FoldRight(x, 2 * k)
  {
    hide Xor, ShiftRight;
    var y, z := ShiftRight(x, k), ShiftRight(x, 2 * k);
    ShiftTwice(x, k, k);
    ShiftOfXor(x, y, k);
    XorAssociative(x, y, Xor(y, z));
    XorAssociative(y, y, z);
    XorSelf(y);
    XorZero(z);
  }

  /** A fold is undone by folding on, with the distance doubled, until nothing is left to shift in. */
  lemma Unfold(x: Word)
    ensures FoldRight(FoldRight(x, 16), 16) == x
    ensures FoldRight(FoldRight(FoldRight(x, 13), 13), 26) == x
  {
    hide Xor, ShiftRight;
    FoldTwice(x, 16);
    FoldTwice(x, 13);
    FoldTwice(x, 26);
    ShiftedOut(x, 32);
    ShiftedOut(x, 52);
    XorZero(x);
  }
}
