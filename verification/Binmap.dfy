/**
 The bin bitmaps of dlmalloc and the arithmetic that turns a chunk size into a
 treebin index.
 */
module Binmap {
  import opened Words

  const NTREEBINS: nat := 32
  const MIN_LARGE_SIZE: nat := 256
  const MIN_CHUNK_SIZE: nat := 16

  predicate Marked(m: nat, i: nat) {
    Bit(m, i)
  }

  function Mark(m: nat, i: nat): nat {
    BitwiseOr(m, Pow2(i))
  }

  function Clear(m: nat, i: nat): nat
    requires i < 32
  {
    Pow2Of32();
    if i < 31 then Pow2Less(i, 31); BitwiseAnd(m, Not(Pow2(i))) else BitwiseAnd(m, Not(Pow2(i)))
  }

  function LeastBit(x: nat): nat
    requires x < WORD
  {
    BitwiseAnd(x, Neg(x))
  }

  function LeftBits(x: nat): nat
    requires x < WORD
  {
    BitwiseOr(Shl(x, 1), Neg(Shl(x, 1)))
  }

  /** compute_bit2idx, one halving of the word per stage: the index held in y = 2^i - 1. */
  function Stage1(y: nat): nat {
    var k := BitwiseAnd(Shr(y, 1), 1);
    k + Shr(y, k)
  }

  function Stage2(y: nat): nat {
    var k := BitwiseAnd(Shr(y, 1), 2);
    k + Stage1(Shr(y, k))
  }

  function Stage4(y: nat): nat {
    var k := BitwiseAnd(Shr(y, 2), 4);
    k + Stage2(Shr(y, k))
  }

  function Stage8(y: nat): nat {
    var k := BitwiseAnd(Shr(y, 5), 8);
    k + Stage4(Shr(y, k))
  }

  function BitToIndex(x: nat): nat
    requires x > 0
  {
    var y := x - 1;
    var k := BitwiseAnd(Shr(y, 12), 16);
    k + Stage8(Shr(y, k))
  }

  // ---- marking and clearing ----

  lemma MarkSpec(m: nat, i: nat, j: nat)
    ensures Marked(Mark(m, i), j) <==> i == j || Marked(m, j)
  {
    BitOr(m, Pow2(i), j);
    BitPow2(i, j);
  }

  lemma ClearSpec(m: nat, i: nat, j: nat)
    requires i < 32 && j < 32
    ensures Marked(Clear(m, i), j) <==> i != j && Marked(m, j)
  {
    Pow2Below(i);
    BitAnd(m, Not(Pow2(i)), j);
    BitNot(Pow2(i), j);
    BitPow2(i, j);
  }

  lemma Pow2Below(i: nat)
    requires i < 32
    ensures Pow2(i) < WORD
  {
    Pow2Of32();
    Pow2Less(i, 32);
  }

  lemma MarkBound(m: nat, i: nat)
    requires m < WORD && i < 32
    ensures Mark(m, i) < WORD && Clear(m, i) < WORD
  {
    Pow2Below(i);
    Pow2Of32();
    OrBound(m, Pow2(i), 32);
    AndBound(m, Not(Pow2(i)));
  }

  // ---- the least marked index ----

  /** The position of the lowest set bit. */
  ghost function LowestIndex(x: nat): (k: nat)
    requires x > 0
    ensures Bit(x, k)
    ensures forall j: nat :: j < k ==> !Bit(x, j)
  {
    if x % 2 == 1 then 0 else
      var k := LowestIndex(x / 2) + 1;
      assert forall j: nat :: 0 < j < k ==> Bit(x, j) == Bit(x / 2, j - 1);
      k
  }

  lemma {:induction false} AndComplement(a: nat, n: nat)
    requires a < Pow2(n)
    ensures BitwiseAnd(a, Pow2(n) - 1 - a) == 0
  {
    if n > 0 {
      AndComplement(a / 2, n - 1);
      assert (Pow2(n) - 1 - a) / 2 == Pow2(n - 1) - 1 - a / 2;
    }
  }

  lemma {:induction false} LeastBitIsPow2(x: nat, n: nat)
    requires 0 < x < Pow2(n)
    ensures BitwiseAnd(x, Pow2(n) - x) == Pow2(LowestIndex(x))
  {
    hide BitwiseAnd, Pow2, Bit;
    AndStep(x, Pow2(n) - x);
    Pow2Values();
    if n > 0 { DoublePow2(n - 1); }
    if x % 2 == 1 {
      AndComplement(x / 2, n - 1);
      assert (Pow2(n) - x) / 2 == Pow2(n - 1) - 1 - x / 2;
    } else {
      LeastBitIsPow2(x / 2, n - 1);
      DoublePow2(LowestIndex(x / 2));
      assert (Pow2(n) - x) / 2 == Pow2(n - 1) - x / 2;
    }
  }

  lemma AndStep(a: nat, b: nat)
    requires a > 0 && b > 0
    ensures BitwiseAnd(a, b) == 2 * BitwiseAnd(a / 2, b / 2) + if a % 2 == 1 && b % 2 == 1 then 1 else 0
  {
  }

  lemma {:induction false} LowestIndexBound(x: nat, n: nat)
    requires 0 < x < Pow2(n)
    ensures LowestIndex(x) < n
  {
    if x % 2 == 0 { LowestIndexBound(x / 2, n - 1); }
  }

  lemma {:induction false} ShrOnes(i: nat, k: nat)
    ensures Shr(Pow2(i) - 1, k) == if k <= i then Pow2(i - k) - 1 else 0
  {
    if i == 0 {
      ShrZero(k);
    } else if k > 0 {
      ShrOnes(i - 1, k - 1);
    }
  }

  lemma {:induction false} AndPow2(w: nat, m: nat)
    ensures BitwiseAnd(w, Pow2(m)) == if Bit(w, m) then Pow2(m) else 0
  {
    if w == 0 {
      ShrZero(m);
    } else if m > 0 {
      AndPow2(w / 2, m - 1);
    } else {
      assert Pow2(0) / 2 == 0;
    }
  }

  /** One halving step of compute_bit2idx: bit h of 2^i - 1 tells whether i > h. */
  lemma {:induction false} HalvingStep(i: nat, shift: nat, m: nat, h: nat)
    requires h == Pow2(m) && shift + m == h && i <= 2 * h
    ensures BitwiseAnd(Shr(Pow2(i) - 1, shift), h) == if i > h then h else 0
    ensures Shr(Pow2(i) - 1, if i > h then h else 0) == Pow2(if i > h then i - h else i) - 1
  {
    hide Shr, BitwiseAnd, Pow2;
    var y := Pow2(i) - 1;
    AndPow2(Shr(y, shift), m);
    ShrAdd(y, shift, m);
    ShrOnes(i, h);
    ShrOnes(i, 0);
    Pow2Values();
    if i > h { OddOnes(i - h); }
  }

  lemma OddOnes(i: nat)
    requires i > 0
    ensures (Pow2(i) - 1) % 2 == 1
  {
  }

  lemma {:induction false} Stage1Spec(i: nat)
    requires i <= 2
    ensures Stage1(Pow2(i) - 1) == i
  {
    hide BitwiseAnd, Shr, Pow2;
    Pow2Values();
    HalvingStep(i, 1, 0, 1);
  }

  lemma {:induction false} Stage2Spec(i: nat)
    requires i <= 4
    ensures Stage2(Pow2(i) - 1) == i
  {
    hide Stage1, BitwiseAnd, Shr, Pow2;
    Pow2Values();
    HalvingStep(i, 1, 1, 2);
    Stage1Spec(if i > 2 then i - 2 else i);
  }

  lemma {:induction false} Stage4Spec(i: nat)
    requires i <= 8
    ensures Stage4(Pow2(i) - 1) == i
  {
    hide Stage2, BitwiseAnd, Shr, Pow2;
    Pow2Values();
    HalvingStep(i, 2, 2, 4);
    Stage2Spec(if i > 4 then i - 4 else i);
  }

  lemma {:induction false} Stage8Spec(i: nat)
    requires i <= 16
    ensures Stage8(Pow2(i) - 1) == i
  {
    hide Stage4, BitwiseAnd, Shr, Pow2;
    Pow2Values();
    HalvingStep(i, 5, 3, 8);
    Stage4Spec(if i > 8 then i - 8 else i);
  }

  /** For a one-bit word the branch-free code returns that bit's position. */
  lemma {:induction false} BitToIndexOfPow2(i: nat)
    requires i < 32
    ensures 0 < Pow2(i) < WORD && BitToIndex(Pow2(i)) == i
  {
    hide Stage8, BitwiseAnd, Shr, Pow2;
    Pow2Below(i);
    Pow2Values();
    HalvingStep(i, 12, 4, 16);
    Stage8Spec(if i > 16 then i - 16 else i);
  }

  /** compute_bit2idx(least_bit(x)) is the least marked index of x. */
  lemma LeastMarked(x: nat)
    requires 0 < x < WORD
    ensures 0 < LeastBit(x) < WORD
    ensures var i := BitToIndex(LeastBit(x));
      i < 32 && Marked(x, i) && forall j: nat :: j < i ==> !Marked(x, j)
  {
    hide BitToIndex, BitwiseAnd, Shr, LowestIndex, Pow2;
    Pow2Of32();
    LeastBitIsPow2(x, 32);
    LowestIndexBound(x, 32);
    BitToIndexOfPow2(LowestIndex(x));
  }

  lemma {:induction false} NoBitsIsZero(x: nat, n: nat)
    requires x < Pow2(n)
    requires forall j: nat :: j < n ==> !Bit(x, j)
    ensures x == 0
  {
    if n > 0 {
      assert !Bit(x, 0);
      forall j: nat | j < n - 1
        ensures !Bit(x / 2, j)
      {
        assert !Bit(x, j + 1);
      }
      NoBitsIsZero(x / 2, n - 1);
    }
  }

  lemma ShlOfPow2(i: nat)
    requires i < 32
    ensures Pow2(i) < WORD
    ensures Shl(Pow2(i), 1) == if i == 31 then 0 else Pow2(i + 1)
  {
    Pow2Below(i);
    Pow2Of32();
    if i < 31 { Pow2Below(i + 1); }
    assert Shl(Pow2(i), 1) == Shl(Pow2(i) * 2 % WORD, 0);
  }

  lemma LeftBitsSpec(i: nat, j: nat)
    requires i < 32 && j < 32
    ensures Pow2(i) < WORD
    ensures LeftBits(Pow2(i)) < WORD
    ensures Marked(LeftBits(Pow2(i)), j) <==> i < j
  {
    ShlOfPow2(i);
    if i == 31 {
      assert LeftBits(Pow2(i)) == 0;
      ShrZero(j);
    } else {
      Pow2Below(i + 1);
      LeftBitsOfPow2(i + 1, j);
    }
  }

  lemma LeftBitsOfPow2(i: nat, j: nat)
    requires i < 32 && j < 32 && Pow2(i) < WORD
    ensures BitwiseOr(Pow2(i), Neg(Pow2(i))) < WORD
    ensures Bit(BitwiseOr(Pow2(i), Neg(Pow2(i))), j) <==> i <= j
  {
    hide BitwiseOr, Bit, Pow2;
    Pow2Of32();
    BitOr(Pow2(i), Neg(Pow2(i)), j);
    BitPow2(i, j);
    BitNegPow2(i, 32, j);
    OrBound(Pow2(i), Neg(Pow2(i)), 32);
  }

  /** left_bits(idx2bit(i)) & m selects exactly the marks above i. */
  lemma LeftMarks(m: nat, i: nat)
    requires m < WORD && i < 32
    ensures Pow2(i) < WORD
    ensures var left := BitwiseAnd(LeftBits(Pow2(i)), m);
      && left < WORD
      && (forall j: nat :: j < 32 ==> (Marked(left, j) <==> i < j && Marked(m, j)))
      && (left == 0 ==> forall j: nat :: i < j < 32 ==> !Marked(m, j))
  {
    Pow2Below(i);
    LeftBitsSpec(i, i);
    var left := BitwiseAnd(LeftBits(Pow2(i)), m);
    AndBound(LeftBits(Pow2(i)), m);
    forall j: nat | j < 32
      ensures Marked(left, j) <==> i < j && Marked(m, j)
    {
      BitAnd(LeftBits(Pow2(i)), m, j);
      LeftBitsSpec(i, j);
    }
    if left == 0 {
      forall j: nat | i < j < 32
        ensures !Marked(m, j)
      {
        ShrZero(j);
      }
    }
  }

  // ---- the smallbin tests of dlmalloc ----

  lemma LowBits(w: nat)
    ensures BitwiseAnd(w, 1) == w % 2
    ensures BitwiseAnd(w, 3) != 0 <==> Bit(w, 0) || Bit(w, 1)
  {
    if w > 0 { AndStep(w, 3); AndStep(w, 1); }
    if w / 2 > 0 { AndStep(w / 2, 1); }
  }

  /** (map >> i) & 3 tests bins i and i + 1, and adding ~(map >> i) & 1 selects the first marked one. */
  lemma FirstOfTwo(m: nat, i: nat)
    requires m < WORD && i < 32
    ensures var w := Shr(m, i);
      && w < WORD
      && (BitwiseAnd(w, 3) == 0 ==> !Marked(m, i) && !Marked(m, i + 1))
      && (BitwiseAnd(w, 3) != 0 ==>
            var j := i + BitwiseAnd(Not(w), 1); i <= j <= i + 1 && j < 32 && Marked(m, j) && (j > i ==> !Marked(m, i)))
  {
    hide BitwiseAnd, Shr;
    var w := Shr(m, i);
    LowBits(w);
    LowBits(Not(w));
    ShrAdd(m, i, 0);
    ShrAdd(m, i, 1);
    if i == 31 { NoBitAbove(m, 32); }
    assert Shr(w, 0) == w by { ShrIsQuotient(w, 0); Pow2Values(); }
  }

  /** ((map >> i) << i) & left_bits(idx2bit(i)) holds the marks above i. */
  lemma MarksAbove(m: nat, i: nat)
    requires m < WORD && i < 32 && Shr(m, i) != 0 && !Marked(m, i)
    ensures Pow2(i) < WORD && Shr(m, i) < WORD
    ensures var left := BitwiseAnd(Shl(Shr(m, i), i), LeftBits(Pow2(i)));
      && 0 < left < WORD
      && forall j: nat :: j < 32 ==> (Marked(left, j) <==> i < j && Marked(m, j))
  {
    hide BitwiseAnd, Shr, LeftBits, Shl, Pow2, Marked;
    Pow2Below(i);
    var w := Shr(m, i);
    ShrIsQuotient(m, i);
    QuotientBounds(m, Pow2(i));
    ShlExact(w, i);
    LeftBitsSpec(i, i);
    var left := BitwiseAnd(Shl(w, i), LeftBits(Pow2(i)));
    AndBound(Shl(w, i), LeftBits(Pow2(i)));
    forall j: nat | j < 32
      ensures Marked(left, j) <==> i < j && Marked(m, j)
    {
      MarkAbove(m, i, j);
    }
    if left == 0 {
      forall j: nat | j < 32
        ensures !Bit(w, j)
      {
        ZeroUnmarked(i + j);
        ShiftedBit(m, i, j);
      }
      Pow2Of32();
      NoBitsIsZero(w, 32);
    }
  }

  lemma ZeroUnmarked(j: nat)
    ensures !Marked(0, j)
  {
    ShrZero(j);
  }

  lemma ShiftedBit(m: nat, i: nat, j: nat)
    requires m < WORD
    ensures Bit(Shr(m, i), j) <==> Marked(m, i + j)
    ensures i + j >= 32 ==> !Marked(m, i + j)
  {
    ShrAdd(m, i, j);
    if i + j >= 32 { NoBitAbove(m, i + j); }
  }

  lemma MarkAbove(m: nat, i: nat, j: nat)
    requires m < WORD && i < 32 && j < 32 && Pow2(i) < WORD && Shr(m, i) < WORD
    requires Shl(Shr(m, i), i) == Shr(m, i) * Pow2(i)
    ensures Marked(BitwiseAnd(Shl(Shr(m, i), i), LeftBits(Pow2(i))), j) <==> i < j && Marked(m, j)
  {
    hide BitwiseAnd, Shr, LeftBits, Shl, Pow2;
    BitAnd(Shl(Shr(m, i), i), LeftBits(Pow2(i)), j);
    LeftBitsSpec(i, j);
    BitOfMultiple(Shr(m, i), i, j);
    if i <= j { ShiftedBit(m, i, j - i); }
  }

  // ---- sizes to treebins ----

  /** The bit inspected at the root of treebin i. */
  function BitForTreeIndex(i: nat): nat {
    if i == NTREEBINS - 1 then 31 else i / 2 + 6
  }

  function LeftShiftForTreeIndex(i: nat): (n: nat)
    requires i < NTREEBINS
    ensures n == 31 - BitForTreeIndex(i)
  {
    if i == NTREEBINS - 1 then 0 else 31 - (i / 2 + 8 - 2)
  }

  function MinSizeForTreeIndex(i: nat): nat
    requires i < NTREEBINS
  {
    BitwiseOr(Shl(1, i / 2 + 8), Shl(i % 2, i / 2 + 7))
  }

  /** The borrow of y - t in 32 bits, masked down to the shift count it selects. */
  function BorrowMask(y: nat, t: nat, m: nat): (k: nat)
    requires t <= WORD
    ensures k <= m
  {
    AndBound(Shr((y + WORD - t) % WORD, 16), m);
    BitwiseAnd(Shr((y + WORD - t) % WORD, 16), m)
  }

  /** The branch-free floor of the binary logarithm, for x in 1..0xffff. */
  function FloorLog(x: nat): nat
    requires 0 < x <= 0xffff
  {
    var n := BorrowMask(x, 0x100, 8);
    var y := Shl(x, n);
    var k := BorrowMask(y, 0x1000, 4);
    var z := Shl(y, k);
    var l := BorrowMask(z, 0x4000, 2);
    14 - (n + k + l) + Shr(Shl(z, l), 15)
  }

  lemma BorrowMaskSpec(y: nat, t: nat, m: nat)
    requires y < 0x1_0000 && t <= 0x1_0000 && 1 <= m <= 3
    ensures BorrowMask(y, t, Pow2(m)) == if y < t then Pow2(m) else 0
  {
    var b := (y + WORD - t) % WORD;
    Pow2Values();
    ShrIsQuotient(b, 16);
    assert b / 0x1_0000 == if y < t then 0xffff else 0;
    AndPow2(b / 0x1_0000, m);
    ShrOnes(16, m);
    ShrZero(m);
  }

  /** One normalising step: multiply by 2^n exactly when y is below t. */
  lemma NormalizeStep(y: nat, t: nat, m: nat)
    requires 0 < y < 0x1_0000 && 1 <= m <= 3
    requires t * Pow2(Pow2(m)) == 0x1_0000
    ensures var k := BorrowMask(y, t, Pow2(m));
      && k == (if y < t then Pow2(m) else 0)
      && Shl(y, k) == (if y < t then y * Pow2(Pow2(m)) else y)
      && Shl(y, k) < 0x1_0000
  {
    assert t <= t * Pow2(Pow2(m));
    BorrowMaskSpec(y, t, m);
    if y < t {
      assert y * Pow2(Pow2(m)) < t * Pow2(Pow2(m));
      ShlExact(y, Pow2(m));
    }
  }

  lemma FloorLogSpec(x: nat)
    requires 0 < x <= 0xffff
    ensures FloorLog(x) <= 15
    ensures Pow2(FloorLog(x)) <= x < Pow2(FloorLog(x) + 1)
  {
    hide BorrowMask, Shl, Shr, Pow2;
    Pow2Values();
    NormalizeStep(x, 0x100, 3);
    var y := if x < 0x100 then x * 0x100 else x;
    NormalizeStep(y, 0x1000, 2);
    var z := if y < 0x1000 then y * 0x10 else y;
    NormalizeStep(z, 0x4000, 1);
    var w := if z < 0x4000 then z * 4 else z;
    ShrIsQuotient(w, 15);
    var n := (if x < 0x100 then 8 else 0) + (if y < 0x1000 then 4 else 0) + (if z < 0x4000 then 2 else 0);
    assert FloorLog(x) == 14 - n + w / 0x8000;
    Normalized(x, n, w);
  }

  /** A number shifted up to lie in 0x4000..0xffff, read off its shift. */
  lemma Normalized(x: nat, n: nat, w: nat)
    requires 0 < x <= 0xffff && n <= 14 && n % 2 == 0
    requires w == x * Pow2(n) && 0x4000 <= w <= 0xffff
    ensures Pow2(14 - n + w / 0x8000) <= x < Pow2(14 - n + w / 0x8000 + 1)
  {
    hide Pow2;
    Pow2Values();
    match n
    case 0 =>
    case 2 =>
    case 4 =>
    case 6 =>
    case 8 =>
    case 10 =>
    case 12 =>
    case _ =>
  }

  /** The floor of the binary logarithm. */
  function Log2(x: nat): nat {
    if x < 2 then 0 else 1 + Log2(x / 2)
  }

  lemma {:induction false} Log2Spec(x: nat)
    requires 0 < x
    ensures Pow2(Log2(x)) <= x < Pow2(Log2(x) + 1)
  {
    if x > 1 { Log2Spec(x / 2); }
  }

  /** The branch-free code computes the logarithm. */
  lemma FloorLogIs(x: nat)
    requires 0 < x <= 0xffff
    ensures FloorLog(x) == Log2(x) <= 15
  {
    hide FloorLog, Log2, Pow2;
    FloorLogSpec(x);
    Log2Spec(x);
    if FloorLog(x) < Log2(x) { Pow2Mono(FloorLog(x) + 1, Log2(x)); }
    if Log2(x) < FloorLog(x) { Pow2Mono(Log2(x) + 1, FloorLog(x)); }
  }

  /** The treebin of a size: twice the logarithm of size / 256 plus the next bit, up to the last bin. */
  function TreeIndex(s: nat): (i: nat)
    requires s < WORD
  {
    var x := s / 0x100;
    if x == 0 then 0
    else if x > 0xffff then NTREEBINS - 1
    else var k := Log2(x); 2 * k + Shr(s, k + 7) % 2
  }

  /** compute_tree_index */
  method ComputeTreeIndex(s: nat) returns (i: nat)
    requires s < WORD
    ensures i == TreeIndex(s)
  {
    hide Shr, FloorLog, Log2;
    var x := s / 0x100;
    if x == 0 {
      i := 0;
    } else if x > 0xffff {
      i := NTREEBINS - 1;
    } else {
      FloorLogIs(x);
      var k := FloorLog(x);
      i := 2 * k + Shr(s, k + 7) % 2;
    }
  }

  /** The two leading bits of a size below 2^24 are at k + 8, where k is the logarithm of size / 256. */
  lemma LeadingBits(s: nat)
    requires MIN_LARGE_SIZE <= s < 0x100_0000
    ensures var k := Log2(s / 0x100);
      && k <= 15 && Shr(s, k + 8) == 1 && 2 <= Shr(s, k + 7) <= 3 && (Shr(s, 22) >= 2 <==> k == 15)
  {
    hide FloorLog, Log2, Shr, Pow2;
    var x := s / 0x100;
    var k := Log2(x);
    Pow2Values();
    Log2Spec(x);
    FloorLogIs(x);
    ShrIsQuotient(s, 8);
    ShrAdd(s, 8, k);
    ShrIsQuotient(x, k);
    DoublePow2(k);
    Remainder(x, Pow2(k), 1, x - Pow2(k));
    ShrStep(s, k + 7);
    ShrAdd(s, 8, 14);
    ShrIsQuotient(x, 14);
    if k < 15 { Pow2Mono(k + 1, 15); }
  }

  /** Below bin 31, a bin holds the sizes that begin with one given pair of bits. */
  lemma TreeIndexSpec(s: nat)
    requires MIN_LARGE_SIZE <= s < WORD
    ensures TreeIndex(s) < NTREEBINS
    ensures TreeIndex(s) < 31 ==> Shr(s, TreeIndex(s) / 2 + 7) == 2 + TreeIndex(s) % 2
    ensures TreeIndex(s) == 31 <==> Shr(s, 22) >= 3
  {
    hide Log2, Shr, Pow2;
    if s < 0x100_0000 {
      LeadingBits(s);
    } else {
      Pow2Values();
      ShrIsQuotient(s, 8);
      ShrAdd(s, 8, 14);
      ShrIsQuotient(s / 0x100, 14);
    }
  }

  lemma Pow2Mono(i: nat, j: nat)
    requires i <= j
    ensures Pow2(i) <= Pow2(j)
  {
    if i < j { Pow2Less(i, j); }
  }

  /** Sizes of one treebin agree above the bit inspected at its root. */
  lemma SameBinSamePrefix(s: nat, t: nat)
    requires MIN_LARGE_SIZE <= s < WORD && MIN_LARGE_SIZE <= t < WORD
    requires TreeIndex(s) == TreeIndex(t)
    ensures var u := BitForTreeIndex(TreeIndex(s)) + 1; Shr(s, u) == Shr(t, u)
  {
    hide TreeIndex, Shr;
    TreeIndexSpec(s);
    TreeIndexSpec(t);
    if TreeIndex(s) == 31 {
      ShrIsQuotient(s, 32);
      ShrIsQuotient(t, 32);
      Pow2Of32();
    }
  }

  lemma ShrSmall(a: nat, d: nat)
    requires a <= 3 && d > 0
    ensures Shr(a, d) <= 1
  {
  }

  /** Bins are ordered by size. */
  lemma TreeIndexMonotone(s: nat, t: nat)
    requires MIN_LARGE_SIZE <= s <= t < WORD
    ensures TreeIndex(s) <= TreeIndex(t)
  {
    hide TreeIndex, Shr;
    TreeIndexSpec(s);
    TreeIndexSpec(t);
    var i, j := TreeIndex(s), TreeIndex(t);
    ShrMonotone(s, t, 22);
    if j < 31 {
      ShrMonotone(s, t, j / 2 + 7);
      if j < i {
        var d := i / 2 - j / 2;
        ShrAdd(s, j / 2 + 7, d);
        if d > 0 { ShrSmall(Shr(s, j / 2 + 7), d); }
      }
    }
  }

  /** minsize_for_tree_index bounds each bin from below, and from above below the last. */
  lemma TreeIndexBySize(s: nat)
    requires MIN_LARGE_SIZE <= s < WORD
    ensures var i := TreeIndex(s);
      && i < NTREEBINS
      && MinSizeForTreeIndex(i) <= s
      && (i + 1 < NTREEBINS ==> s < MinSizeForTreeIndex(i + 1))
  {
    hide TreeIndex, MinSizeForTreeIndex, Shr, Pow2;
    TreeIndexSpec(s);
    var i := TreeIndex(s);
    MinSizeIs(i);
    var k := if i < 31 then i / 2 + 7 else 22;
    ShrIsQuotient(s, k);
    QuotientBounds(s, Pow2(k));
    if i < 31 {
      MinSizeIs(i + 1);
      assert Pow2(k + 1) == 2 * Pow2(k) by { DoublePow2(k); }
      assert s < (3 + i % 2) * Pow2(k);
    } else {
      assert s / Pow2(k) >= 3;
      assert s >= 3 * Pow2(k) by { MulMono(3, s / Pow2(k), Pow2(k)); }
    }
  }

  lemma {:induction false} MinSizeGrows(i: nat, j: nat)
    requires i <= j < NTREEBINS
    ensures MinSizeForTreeIndex(i) <= MinSizeForTreeIndex(j)
  {
    hide MinSizeForTreeIndex, Pow2;
    if i < j {
      MinSizeGrows(i, j - 1);
      MinSizeIs(j - 1);
      MinSizeIs(j);
      DoublePow2((j - 1) / 2 + 7);
    }
  }

  /** A size is in bin i or above exactly if it is at least minsize_for_tree_index(i). */
  lemma TreeIndexAtLeast(s: nat, i: nat)
    requires MIN_LARGE_SIZE <= s < WORD && i < NTREEBINS
    ensures TreeIndex(s) >= i <==> MinSizeForTreeIndex(i) <= s
  {
    hide TreeIndex, MinSizeForTreeIndex;
    TreeIndexBySize(s);
    var j := TreeIndex(s);
    if i <= j { MinSizeGrows(i, j); } else { MinSizeGrows(j + 1, i); }
  }

  lemma MulMono(a: nat, b: nat, m: nat)
    requires a <= b
    ensures a * m <= b * m
  {
  }

  lemma MinSizeIs(i: nat)
    requires i < NTREEBINS
    ensures MinSizeForTreeIndex(i) == (2 + i % 2) * Pow2(i / 2 + 7)
  {
    var k := i / 2 + 7;
    ShlOne(k);
    ShlOne(k + 1);
    ShlZero(k);
    DisjointOr(k);
  }

  lemma {:induction false} ShlZero(k: nat)
    ensures Shl(0, k) == 0
  {
    if k > 0 { ShlZero(k - 1); }
  }

  lemma {:induction false} ShlOne(k: nat)
    requires k < 32
    ensures Shl(1, k) == Pow2(k)
  {
    if k > 0 {
      ShlOne(k - 1);
      ShlStep(1, k - 1);
      Pow2Below(k);
    }
  }

  lemma {:induction false} DisjointOr(k: nat)
    ensures BitwiseOr(Pow2(k + 1), Pow2(k)) == 3 * Pow2(k)
    ensures BitwiseOr(Pow2(k + 1), 0) == 2 * Pow2(k)
  {
    hide BitwiseOr, Pow2;
    DoublePow2(k);
    OrStep(Pow2(k + 1), Pow2(k));
    OrZero(Pow2(k + 1));
    if k > 0 {
      DoublePow2(k - 1);
      DisjointOr(k - 1);
    } else {
      Pow2Values();
      OrZero(1);
    }
  }

  lemma OrStep(a: nat, b: nat)
    requires a > 0 && b > 0
    ensures BitwiseOr(a, b) == 2 * BitwiseOr(a / 2, b / 2) + if a % 2 + b % 2 > 0 then 1 else 0
  {
  }

  lemma OrZero(a: nat)
    ensures BitwiseOr(a, 0) == a
  {
  }
}
