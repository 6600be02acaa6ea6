/**
 Unsigned 32-bit machine words as naturals below 2^32, read bit by bit.
 Shifts are iterated halving and doubling, so that every fact about a bit is
 proved by following the shift.
 */
module Words {

  const WORD: nat := 0x1_0000_0000

  function Pow2(k: nat): (p: nat)
    ensures p >= 1
  {
    if k == 0 then 1 else 2 * Pow2(k - 1)
  }

  /** w >> k */
  function Shr(w: nat, k: nat): (r: nat)
    ensures r <= w
  {
    if k == 0 then w else Shr(w / 2, k - 1)
  }

  predicate Bit(w: nat, k: nat) {
    Shr(w, k) % 2 == 1
  }

  /** w << k, keeping 32 bits */
  function Shl(w: nat, k: nat): (r: nat)
    requires w < WORD
    ensures r < WORD
    decreases k
  {
    if k == 0 then w else Shl(w * 2 % WORD, k - 1)
  }

  function BitwiseOr(a: nat, b: nat): nat {
    if a == 0 then b
    else if b == 0 then a
    else 2 * BitwiseOr(a / 2, b / 2) + (if a % 2 + b % 2 > 0 then 1 else 0)
  }

  function BitwiseAnd(a: nat, b: nat): nat {
    if a == 0 || b == 0 then 0
    else 2 * BitwiseAnd(a / 2, b / 2) + (if a % 2 == 1 && b % 2 == 1 then 1 else 0)
  }

  function BitwiseXor(a: nat, b: nat): nat {
    if a == 0 then b
    else if b == 0 then a
    else 2 * BitwiseXor(a / 2, b / 2) + (if a % 2 == b % 2 then 0 else 1)
  }

  /** ~w */
  function Not(w: nat): nat
    requires w < WORD
  {
    WORD - 1 - w
  }

  /** -w in unsigned arithmetic */
  function Neg(w: nat): nat
    requires w < WORD
  {
    (WORD - w) % WORD
  }

  lemma {:induction false} Pow2Values()
    ensures Pow2(0) == 1 && Pow2(1) == 2 && Pow2(2) == 4 && Pow2(3) == 8 && Pow2(4) == 16 && Pow2(5) == 32
    ensures Pow2(6) == 64 && Pow2(7) == 128 && Pow2(8) == 256 && Pow2(9) == 512 && Pow2(10) == 1024
    ensures Pow2(11) == 0x800 && Pow2(12) == 0x1000 && Pow2(13) == 0x2000 && Pow2(14) == 0x4000
    ensures Pow2(15) == 0x8000 && Pow2(16) == 0x1_0000
  {
  }

  lemma {:induction false} Pow2Of32()
    ensures Pow2(31) == 0x8000_0000 && Pow2(32) == WORD
  {
    Pow2Values();
    assert Pow2(24) == 0x100_0000;
  }

  lemma DoublePow2(k: nat)
    ensures Pow2(k + 1) == 2 * Pow2(k)
  {
  }

  lemma {:induction false} Pow2Less(i: nat, j: nat)
    requires i < j
    ensures Pow2(i) < Pow2(j)
  {
    if i + 1 < j { Pow2Less(i, j - 1); }
  }

  lemma {:induction false} ShrStep(w: nat, k: nat)
    ensures Shr(w, k + 1) == Shr(w, k) / 2
  {
    if k > 0 { ShrStep(w / 2, k - 1); }
  }

  lemma {:induction false} ShrZero(k: nat)
    ensures Shr(0, k) == 0
  {
    if k > 0 { ShrZero(k - 1); }
  }

  lemma {:induction false} ShrMonotone(v: nat, w: nat, k: nat)
    requires v <= w
    ensures Shr(v, k) <= Shr(w, k)
  {
    if k > 0 { ShrMonotone(v / 2, w / 2, k - 1); }
  }

  /** Words that agree above bit k agree above every higher bit. */
  lemma {:induction false} ShrEqualAbove(v: nat, w: nat, k: nat, n: nat)
    requires k <= n && Shr(v, k) == Shr(w, k)
    ensures Shr(v, n) == Shr(w, n)
  {
    if k < n {
      ShrEqualAbove(v, w, k, n - 1);
      ShrStep(v, n - 1);
      ShrStep(w, n - 1);
    }
  }

  lemma {:induction false} ShrPow2(k: nat, i: nat)
    ensures Shr(Pow2(i), k) == if k <= i then Pow2(i - k) else 0
  {
    if k > 0 {
      if i > 0 { ShrPow2(k - 1, i - 1); } else { ShrZero(k - 1); }
    }
  }

  lemma BitPow2(i: nat, k: nat)
    ensures Bit(Pow2(i), k) <==> k == i
  {
    ShrPow2(k, i);
  }

  lemma {:induction false} BitOr(a: nat, b: nat, k: nat)
    ensures Bit(BitwiseOr(a, b), k) <==> Bit(a, k) || Bit(b, k)
  {
    if a == 0 || b == 0 {
      ShrZero(k);
    } else if k > 0 {
      BitOr(a / 2, b / 2, k - 1);
    }
  }

  lemma {:induction false} BitAnd(a: nat, b: nat, k: nat)
    ensures Bit(BitwiseAnd(a, b), k) <==> Bit(a, k) && Bit(b, k)
  {
    if a == 0 || b == 0 {
      ShrZero(k);
    } else if k > 0 {
      BitAnd(a / 2, b / 2, k - 1);
    }
  }

  lemma {:induction false} OrBound(a: nat, b: nat, n: nat)
    requires a < Pow2(n) && b < Pow2(n)
    ensures BitwiseOr(a, b) < Pow2(n)
  {
    if a != 0 && b != 0 { OrBound(a / 2, b / 2, n - 1); }
  }

  lemma {:induction false} AndBound(a: nat, b: nat)
    ensures BitwiseAnd(a, b) <= a && BitwiseAnd(a, b) <= b
  {
    if a != 0 && b != 0 { AndBound(a / 2, b / 2); }
  }

  lemma {:induction false} BitComplement(w: nat, n: nat, k: nat)
    requires w < Pow2(n) && k < n
    ensures Bit(Pow2(n) - 1 - w, k) <==> !Bit(w, k)
  {
    if k > 0 {
      BitComplement(w / 2, n - 1, k - 1);
      assert (Pow2(n) - 1 - w) / 2 == Pow2(n - 1) - 1 - w / 2;
    }
  }

  lemma BitNot(w: nat, k: nat)
    requires w < WORD && k < 32
    ensures Bit(Not(w), k) <==> !Bit(w, k)
  {
    Pow2Of32();
    BitComplement(w, 32, k);
  }

  /** -2^i has exactly the bits from i up. */
  lemma {:induction false} BitNegPow2(i: nat, n: nat, k: nat)
    requires i <= n && k < n
    ensures Pow2(i) <= Pow2(n)
    ensures Bit(Pow2(n) - Pow2(i), k) <==> i <= k
  {
    if i < n { Pow2Less(i, n); } else { ShrZero(k); }
    if i < n && k > 0 {
      if i > 0 {
        BitNegPow2(i - 1, n - 1, k - 1);
        assert (Pow2(n) - Pow2(i)) / 2 == Pow2(n - 1) - Pow2(i - 1);
      } else {
        BitNegPow2(0, n - 1, k - 1);
        assert (Pow2(n) - 1) / 2 == Pow2(n - 1) - 1;
      }
    }
  }

  lemma {:induction false} BitOfRemainder(w: nat, n: nat, k: nat)
    requires k < n
    ensures Bit(w % Pow2(n), k) <==> Bit(w, k)
  {
    HalveRemainder(w, Pow2(n - 1));
    if k > 0 { BitOfRemainder(w / 2, n - 1, k - 1); }
  }

  lemma HalveRemainder(w: nat, m: nat)
    requires m > 0
    ensures w % (2 * m) / 2 == w / 2 % m
    ensures w % (2 * m) % 2 == w % 2
    ensures w / (2 * m) == w / 2 / m
  {
    DoubleParts(w, m, w / 2 / m, w / 2 % m);
  }

  lemma DoubleParts(w: nat, m: nat, q: nat, r: nat)
    requires w / 2 == q * m + r && r < m
    ensures w % (2 * m) == 2 * r + w % 2 && w / (2 * m) == q
  {
    Doubling(q, m);
    Remainder(w, 2 * m, q, 2 * r + w % 2);
  }

  lemma HalveSum(w: nat, p: nat, r: nat)
    requires w == 2 * p + r
    ensures w / 2 == p + r / 2 && w % 2 == r % 2
  {
  }

  lemma Remainder(w: nat, m: nat, q: nat, r: nat)
    requires r < m && w == q * m + r
    ensures w % m == r && w / m == q
  {
    var p, s := w / m, w % m;
    assert w == p * m + s;
    NoMultipleInside(p - q, m, r - s);
  }

  lemma NoMultipleInside(x: int, m: int, y: int)
    requires x * m == y && -m < y < m
    ensures x == 0
  {
  }

  lemma {:induction false} ShrIsQuotient(w: nat, k: nat)
    ensures Shr(w, k) == w / Pow2(k)
  {
    if k > 0 {
      ShrIsQuotient(w / 2, k - 1);
      HalveRemainder(w, Pow2(k - 1));
    }
  }

  /** The sign bit of w << n is bit 31 - n of w. */
  lemma {:induction false} SignBitOfShl(w: nat, n: nat)
    requires w < WORD && n < 32
    ensures Shl(w, n) / 0x8000_0000 == 1 <==> Bit(w, 31 - n)
    ensures Shl(w, n) / 0x8000_0000 <= 1
    decreases n
  {
    if n == 0 {
      TopBit(w);
    } else {
      SignBitOfShl(w * 2 % WORD, n - 1);
      Pow2Of32();
      BitOfRemainder(w * 2, 32, 32 - n);
    }
  }

  lemma TopBit(w: nat)
    requires w < WORD
    ensures Bit(w, 31) <==> w / 0x8000_0000 == 1
  {
    ShrIsQuotient(w, 31);
    Pow2Of32();
  }

  lemma {:induction false} ShrAdd(w: nat, i: nat, j: nat)
    ensures Shr(w, i + j) == Shr(Shr(w, i), j)
  {
    if i > 0 { ShrAdd(w / 2, i - 1, j); }
  }

  lemma {:induction false} ShlExact(w: nat, k: nat)
    requires w < WORD && w * Pow2(k) < WORD
    ensures Shl(w, k) == w * Pow2(k)
    decreases k
  {
    hide Pow2;
    if k > 0 {
      var m := Pow2(k - 1);
      DoublePow2(k - 1);
      Regroup(w, m);
      MulAtLeast(w * 2, m);
      ShlExact(w * 2, k - 1);
    } else {
      Pow2Values();
    }
  }

  lemma Regroup(w: nat, m: nat)
    ensures w * (2 * m) == (w * 2) * m
  {
  }

  lemma MulAtLeast(a: nat, m: nat)
    requires m >= 1
    ensures a <= a * m
  {
  }

  lemma QuotientBounds(w: nat, m: nat)
    requires m > 0
    ensures w / m * m <= w < (w / m + 1) * m
  {
  }

  lemma {:induction false} ShlStep(w: nat, n: nat)
    requires w < WORD
    ensures Shl(w, n + 1) == Shl(w, n) * 2 % WORD
    decreases n
  {
    if n > 0 { ShlStep(w * 2 % WORD, n - 1); }
  }

  lemma {:induction false} BitOfMultiple(w: nat, k: nat, j: nat)
    ensures Bit(w * Pow2(k), j) <==> k <= j && Bit(w, j - k)
  {
    if k > 0 {
      var m := Pow2(k - 1);
      assert w * (2 * m) == 2 * (w * m);
      if j > 0 { BitOfMultiple(w, k - 1, j - 1); }
    }
  }

  lemma NoBitAbove(w: nat, j: nat)
    requires w < WORD && j >= 32
    ensures Shr(w, j) == 0
  {
    Pow2Of32();
    ShrIsQuotient(w, 32);
    ShrAdd(w, 32, j - 32);
    ShrZero(j - 32);
  }

  // ---- fields of a word ----

  lemma {:induction false} AndLow(w: nat, n: nat)
    ensures BitwiseAnd(w, Pow2(n) - 1) == w % Pow2(n)
  {
    hide BitwiseAnd;
    AndHalf(w, Pow2(n) - 1);
    if n > 0 {
      AndLow(w / 2, n - 1);
      HalveRemainder(w, Pow2(n - 1));
      HalveSum(Pow2(n) - 1, Pow2(n - 1) - 1, 1);
    } else {
      AndZero(w);
    }
  }

  lemma {:induction false} AndShifted(w: nat, m: nat, k: nat)
    ensures BitwiseAnd(w, m * Pow2(k)) == BitwiseAnd(Shr(w, k), m) * Pow2(k)
  {
    hide BitwiseAnd;
    if k > 0 {
      var p, c := Pow2(k - 1), BitwiseAnd(Shr(w, k), m);
      AndShifted(w / 2, m, k - 1);
      AndEven(w, m * p);
      assert m * Pow2(k) == 2 * (m * p) by { Doubling(m, p); }
      assert c * Pow2(k) == 2 * (c * p) by { Doubling(c, p); }
    } else {
      assert m * Pow2(0) == m;
    }
  }

  lemma Doubling(a: nat, p: nat)
    ensures a * (2 * p) == 2 * (a * p)
  {
  }

  lemma AndEven(w: nat, m: nat)
    ensures BitwiseAnd(w, 2 * m) == 2 * BitwiseAnd(w / 2, m)
  {
  }

  /** Clearing the bits of m subtracts the field they hold. */
  lemma {:induction false} AndNot(w: nat, m: nat, n: nat)
    requires w < Pow2(n) && m < Pow2(n)
    ensures BitwiseAnd(w, m) <= w
    ensures BitwiseAnd(w, Pow2(n) - 1 - m) == w - BitwiseAnd(w, m)
  {
    AndBound(w, m);
    if n > 0 {
      AndNot(w / 2, m / 2, n - 1);
      AndHalf(w, m);
      AndHalf(w, Pow2(n) - 1 - m);
      assert (Pow2(n) - 1 - m) / 2 == Pow2(n - 1) - 1 - m / 2;
    }
  }

  lemma AndZero(a: nat)
    ensures BitwiseAnd(a, 0) == BitwiseAnd(0, a) == 0
  {
  }

  lemma AndHalf(a: nat, b: nat)
    ensures BitwiseAnd(a, b) == 2 * BitwiseAnd(a / 2, b / 2) + if a % 2 == 1 && b % 2 == 1 then 1 else 0
  {
  }

  lemma OrHalf(a: nat, b: nat)
    ensures BitwiseOr(a, b) == 2 * BitwiseOr(a / 2, b / 2) + if a % 2 == 1 || b % 2 == 1 then 1 else 0
  {
  }

  lemma XorBits(a: nat, x: nat, b: nat, y: nat)
    requires x <= 1 && y <= 1
    ensures BitwiseXor(2 * a + x, 2 * b + y) == 2 * BitwiseXor(a, b) + if x == y then 0 else 1
    ensures BitwiseXor(a, 0) == a
  {
  }

  /** Words without a common bit are or-ed by adding them. */
  lemma {:induction false} OrDisjoint(a: nat, b: nat)
    requires BitwiseAnd(a, b) == 0
    ensures BitwiseOr(a, b) == a + b
  {
    if a != 0 && b != 0 {
      AndHalf(a, b);
      OrHalf(a, b);
      OrDisjoint(a / 2, b / 2);
    }
  }

  /** Fields under complementary masks have no common bit. */
  lemma {:induction false} MasksDisjoint(v: nat, w: nat, m: nat, n: nat)
    requires m < Pow2(n)
    ensures BitwiseAnd(BitwiseAnd(v, Pow2(n) - 1 - m), BitwiseAnd(w, m)) == 0
  {
    hide BitwiseAnd;
    var c := Pow2(n) - 1 - m;
    if n == 0 {
      AndZero(v);
      AndZero(BitwiseAnd(w, m));
    } else {
      MasksDisjoint(v / 2, w / 2, m / 2, n - 1);
      assert c / 2 == Pow2(n - 1) - 1 - m / 2;
      AndHalf(v, c);
      AndHalf(w, m);
      AndHalf(BitwiseAnd(v, c), BitwiseAnd(w, m));
    }
  }

  /** A field above bit k and one below it. */
  lemma {:induction false} OrLow(a: nat, b: nat, k: nat)
    requires b < Pow2(k)
    ensures BitwiseOr(a * Pow2(k), b) == a * Pow2(k) + b
  {
    hide BitwiseOr;
    if k > 0 {
      var p := Pow2(k - 1);
      Doubling(a, p);
      OrLow(a, b / 2, k - 1);
      OrHalf(2 * (a * p), b);
    } else {
      OrDisjoint(a, 0) by { AndZero(a); }
    }
  }
}
