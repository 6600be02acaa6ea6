/**
 The linker's buddy allocator for library address space.  A bitmap entry that
 heads a block holds the block's order and whether it is allocated; entries
 inside a block hold stale orders.
 */
module Buddy {
  import opened Words

  const MIN_ALLOC: nat := 0x10_0000

  // ---- dyadic blocks ----

  predicate Aligned(i: nat, k: nat) {
    k == 0 || (i % 2 == 0 && Aligned(i / 2, k - 1))
  }

  lemma {:induction false} BitIsLarge(i: nat, k: nat)
    requires Bit(i, k)
    ensures i >= Pow2(k)
  {
    if k > 0 { BitIsLarge(i / 2, k - 1); }
  }

  /** The other half of the block twice the size. */
  function BuddyOf(i: nat, k: nat): nat {
    if Bit(i, k) then BitIsLarge(i, k); i - Pow2(k) else i + Pow2(k)
  }

  lemma {:induction false} FlipBit(i: nat, k: nat)
    ensures BitwiseXor(i, Pow2(k)) == BuddyOf(i, k)
  {
    if k == 0 {
      XorBits(i / 2, i % 2, 0, 1);
    } else {
      FlipBit(i / 2, k - 1);
      XorBits(i / 2, i % 2, Pow2(k - 1), 0);
    }
  }

  /** The lower of a block and its buddy starts the block of the next order. */
  lemma {:induction false} PairAligned(i: nat, k: nat)
    requires Aligned(i, k)
    ensures var b := BuddyOf(i, k); var low := if b < i then b else i;
      Aligned(b, k) && Aligned(low, k + 1) && !Bit(low, k) && BuddyOf(b, k) == i
  {
    if k == 0 {
      assert Bit(i, 0) <==> i % 2 == 1;
      assert Aligned((if i % 2 == 1 then i - 1 else i) / 2, 0);
    } else {
      PairAligned(i / 2, k - 1);
      assert BuddyOf(i, k) == 2 * BuddyOf(i / 2, k - 1);
    }
  }

  lemma {:induction false} HalfAligned(i: nat, k: nat)
    requires Aligned(i, k + 1)
    ensures Aligned(i, k) && !Bit(i, k) && BuddyOf(i, k) == i + Pow2(k)
    ensures Aligned(i + Pow2(k), k) && Bit(i + Pow2(k), k)
  {
    if k > 0 {
      HalfAligned(i / 2, k - 1);
      assert (i + Pow2(k)) / 2 == i / 2 + Pow2(k - 1);
    }
  }

  /** Dyadic blocks that meet are nested. */
  lemma {:induction false} Nested(a: nat, i: nat, b: nat, j: nat)
    requires i <= j && Aligned(a, i) && Aligned(b, j)
    requires a < b + Pow2(j) && b < a + Pow2(i)
    ensures b <= a && a + Pow2(i) <= b + Pow2(j)
  {
    if i > 0 {
      Nested(a / 2, i - 1, b / 2, j - 1);
    }
  }

  /** n without its low k bits. */
  function RoundDown(n: nat, k: nat): nat {
    if k == 0 then n else 2 * RoundDown(n / 2, k - 1)
  }

  lemma {:induction false} RoundDownSpec(n: nat, k: nat)
    ensures Aligned(RoundDown(n, k), k)
    ensures RoundDown(n, k) <= n < RoundDown(n, k) + Pow2(k)
    ensures RoundDown(n, k) == RoundDown(n, k + 1) + if Bit(n, k) then Pow2(k) else 0
  {
    NextDigit(n, k);
    if k > 0 { RoundDownSpec(n / 2, k - 1); }
  }

  /** Clearing one more bit. */
  lemma {:induction false} NextDigit(n: nat, k: nat)
    ensures RoundDown(n, k) == RoundDown(n, k + 1) + if Bit(n, k) then Pow2(k) else 0
  {
    if k > 0 {
      NextDigit(n / 2, k - 1);
    } else {
      assert RoundDown(n, 1) == 2 * RoundDown(n / 2, 0);
    }
  }

  lemma {:induction false} AndPow2(n: nat, i: nat)
    ensures BitwiseAnd(n, Pow2(i)) != 0 <==> Bit(n, i)
  {
    if n == 0 {
      ShrZero(i);
    } else if i > 0 {
      AndPow2(n / 2, i - 1);
    }
  }

  // ---- layouts ----

  /** Block heads with their orders, and which heads are allocated. */
  datatype Space = Space(n: nat, order: map<nat, nat>, used: set<nat>)

  predicate Covers(s: Space, h: nat, x: nat) {
    h in s.order && h <= x < h + Pow2(s.order[h])
  }

  ghost predicate Covered(s: Space, x: nat) {
    exists h :: Covers(s, h, x)
  }

  predicate HeadOK(s: Space, h: nat)
    requires h in s.order
  {
    Aligned(h, s.order[h]) && h + Pow2(s.order[h]) <= s.n
  }

  predicate Apart(s: Space, g: nat, h: nat)
    requires g in s.order && h in s.order
  {
    g + Pow2(s.order[g]) <= h
  }

  /** The blocks are aligned to their own size and tile the space. */
  ghost predicate Tiled(s: Space) {
    && (forall h {:trigger HeadOK(s, h)} | h in s.order :: HeadOK(s, h))
    && (forall g, h {:trigger Apart(s, g, h)} | g in s.order && h in s.order && g < h :: Apart(s, g, h))
    && (forall x: nat {:trigger Covered(s, x)} | x < s.n :: Covered(s, x))
    && s.used <= s.order.Keys
  }

  predicate FreeHead(s: Space, h: nat) {
    h in s.order && h !in s.used
  }

  /** h and its buddy are both free and whole: they should have been merged. */
  predicate Mergeable(s: Space, h: nat) {
    && FreeHead(s, h)
    && var b := BuddyOf(h, s.order[h]);
       FreeHead(s, b) && s.order[b] == s.order[h]
  }

  /** No mergeable pair, other than one that has c in it. */
  ghost predicate CoalescedBut(s: Space, c: int) {
    forall h {:trigger Mergeable(s, h)} | h in s.order && h != c && BuddyOf(h, s.order[h]) != c :: !Mergeable(s, h)
  }

  ghost predicate SpaceOK(s: Space) {
    Tiled(s) && CoalescedBut(s, -1)
  }

  ghost predicate FreeEntry(s: Space, x: nat) {
    exists h :: FreeHead(s, h) && Covers(s, h, x)
  }

  ghost predicate FreeRun(s: Space, a: nat, k: nat) {
    Aligned(a, k) && forall x: nat {:trigger FreeEntry(s, x)} | a <= x < a + Pow2(k) :: FreeEntry(s, x)
  }

  /** Two blocks that share an entry are the same block. */
  lemma SameBlock(s: Space, g: nat, h: nat, x: nat)
    requires Tiled(s) && Covers(s, g, x) && Covers(s, h, x)
    ensures g == h
  {
    assert g < h ==> Apart(s, g, h);
    assert h < g ==> Apart(s, h, g);
  }

  lemma NextIsHead(s: Space, h: nat)
    requires Tiled(s) && h in s.order
    ensures var x := h + Pow2(s.order[h]); x == s.n || x in s.order
  {
    var x: nat := h + Pow2(s.order[h]);
    assert HeadOK(s, h);
    if x < s.n {
      assert Covered(s, x);
      var g: nat :| Covers(s, g, x);
      assert g < h ==> Apart(s, g, h);
      assert h < g ==> Apart(s, h, g);
    }
  }

  /** A buddy index inside the space is a block head, of no larger order. */
  lemma BuddyIsHead(s: Space, h: nat)
    requires Tiled(s) && h in s.order && BuddyOf(h, s.order[h]) < s.n
    ensures BuddyOf(h, s.order[h]) in s.order && s.order[BuddyOf(h, s.order[h])] <= s.order[h]
  {
    var k := s.order[h];
    var b := BuddyOf(h, k);
    assert HeadOK(s, h) && Covered(s, b);
    var g: nat :| Covers(s, g, b);
    var j := s.order[g];
    assert HeadOK(s, g);
    PairAligned(h, k);
    if k < j {
      var low := if b < h then b else h;
      Nested(low, k + 1, g, j);
      SameBlock(s, g, h, h);
    } else {
      Nested(g, j, b, k);
    }
  }

  /** A buddy index is outside the space exactly for the last block, when the space ends before its buddy begins. */
  lemma BuddyOutside(s: Space, h: nat)
    requires Tiled(s) && h in s.order
    ensures BuddyOf(h, s.order[h]) >= s.n <==> h + Pow2(s.order[h]) == s.n && !Bit(h, s.order[h])
    ensures BuddyOf(h, s.order[h]) <= s.n
  {
    assert HeadOK(s, h);
  }

  // ---- completeness ----

  /** A free aligned run lies inside one free block. */
  lemma {:induction false} RunInBlock(s: Space, a: nat, k: nat)
    requires SpaceOK(s) && FreeRun(s, a, k)
    ensures exists h :: FreeHead(s, h) && Covers(s, h, a) && s.order[h] >= k
    decreases k
  {
    assert FreeEntry(s, a);
    if k > 0 {
      var half := Pow2(k - 1);
      HalfAligned(a, k - 1);
      RunInBlock(s, a, k - 1);
      RunInBlock(s, a + half, k - 1);
      var g: nat :| FreeHead(s, g) && Covers(s, g, a) && s.order[g] >= k - 1;
      var h: nat :| FreeHead(s, h) && Covers(s, h, a + half) && s.order[h] >= k - 1;
      assert HeadOK(s, g) && HeadOK(s, h) && !Mergeable(s, g);
      if s.order[g] == k - 1 {
        if s.order[h] == k - 1 {
          Nested(a, k - 1, g, k - 1);
          Nested(a + half, k - 1, h, k - 1);
        } else {
          Nested(a, k, h, s.order[h]);
          assert Covers(s, h, a);
        }
      }
    }
  }

  /** A block at least that large holds an aligned run. */
  lemma BlockHoldsRun(s: Space, h: nat, k: nat)
    requires Tiled(s) && FreeHead(s, h) && k <= s.order[h]
    ensures FreeRun(s, h, k) && h + Pow2(k) <= s.n
  {
    assert HeadOK(s, h);
    if k < s.order[h] { Pow2Less(k, s.order[h]); }
    AlignedDown(h, k, s.order[h]);
    forall x: nat | h <= x < h + Pow2(k)
      ensures FreeEntry(s, x)
    {
      assert FreeHead(s, h) && Covers(s, h, x);
    }
  }

  lemma {:induction false} AlignedDown(i: nat, k: nat, j: nat)
    requires Aligned(i, j) && k <= j
    ensures Aligned(i, k)
  {
    if k > 0 { AlignedDown(i / 2, k - 1, j - 1); }
  }

  // ---- the layout is determined by the allocated blocks ----

  function Blocks(s: Space): map<nat, nat>
    requires s.used <= s.order.Keys
  {
    map h | h in s.used :: s.order[h]
  }

  /** Which entries are free depends on the allocated blocks alone. */
  lemma SameFreeEntry(s: Space, t: Space, x: nat)
    requires Tiled(s) && Tiled(t) && s.n == t.n && Blocks(s) == Blocks(t) && FreeEntry(s, x)
    ensures FreeEntry(t, x)
  {
    var h: nat :| FreeHead(s, h) && Covers(s, h, x);
    assert HeadOK(s, h);
    assert Covered(t, x);
    var g: nat :| Covers(t, g, x);
    if g in t.used {
      assert g in Blocks(t) && Blocks(t)[g] == t.order[g];
      assert g in Blocks(s) && Blocks(s)[g] == s.order[g];
      SameBlock(s, g, h, x);
    }
    assert FreeHead(t, g) && Covers(t, g, x);
  }

  /** A free block of one coalesced layout lies in a free block of the other. */
  lemma BlockWithin(s: Space, t: Space, h: nat)
    requires Tiled(s) && SpaceOK(t) && s.n == t.n && Blocks(s) == Blocks(t) && FreeHead(s, h)
    ensures exists g :: FreeHead(t, g) && Covers(t, g, h) && t.order[g] >= s.order[h]
  {
    var k := s.order[h];
    BlockHoldsRun(s, h, k);
    forall x: nat | h <= x < h + Pow2(k)
      ensures FreeEntry(t, x)
    {
      assert FreeEntry(s, x);
      SameFreeEntry(s, t, x);
    }
    RunInBlock(t, h, k);
  }

  lemma SameFreeHead(s: Space, t: Space, h: nat)
    requires SpaceOK(s) && SpaceOK(t) && s.n == t.n && Blocks(s) == Blocks(t) && FreeHead(s, h)
    ensures h in t.order && t.order[h] == s.order[h]
  {
    BlockWithin(s, t, h);
    var g: nat :| FreeHead(t, g) && Covers(t, g, h) && t.order[g] >= s.order[h];
    BlockWithin(t, s, g);
    var f: nat :| FreeHead(s, f) && Covers(s, f, g) && s.order[f] >= t.order[g];
    assert HeadOK(s, f) && HeadOK(s, h) && HeadOK(t, g);
    Nested(g, t.order[g], f, s.order[f]);
    SameBlock(s, f, h, h);
  }

  lemma SameHead(s: Space, t: Space, h: nat)
    requires SpaceOK(s) && SpaceOK(t) && s.n == t.n && Blocks(s) == Blocks(t) && h in s.order
    ensures h in t.order && t.order[h] == s.order[h]
  {
    if h in s.used {
      assert h in Blocks(s) && Blocks(s)[h] == s.order[h];
      assert h in Blocks(t) && Blocks(t)[h] == t.order[h];
    } else {
      SameFreeHead(s, t, h);
    }
  }

  /** Two coalesced layouts with the same allocated blocks are the same layout. */
  lemma LayoutUnique(s: Space, t: Space)
    requires SpaceOK(s) && SpaceOK(t) && s.n == t.n && Blocks(s) == Blocks(t)
    ensures s == t
  {
    forall h | h in s.order
      ensures h in t.order && t.order[h] == s.order[h]
    {
      SameHead(s, t, h);
    }
    forall h | h in t.order
      ensures h in s.order
    {
      SameHead(t, s, h);
    }
    assert s.used == Blocks(s).Keys && t.used == Blocks(t).Keys;
    assert s.order.Keys == t.order.Keys;
    assert s.order == t.order;
  }

  // ---- where merging ends ----

  /** x is free, or in the allocated block at index. */
  ghost predicate FreeOrAt(s: Space, index: nat, x: nat) {
    FreeEntry(s, x) || Covers(s, index, x)
  }

  /** With the block at index freed, the aligned run of order k around it is free, ends the space and is a lower half. */
  ghost predicate EndsSpace(s: Space, index: nat, k: nat) {
    var a := RoundDown(index, k);
    && a + Pow2(k) == s.n && !Bit(a, k)
    && forall x: nat {:trigger FreeOrAt(s, index, x)} | a <= x < s.n :: FreeOrAt(s, index, x)
  }

  /**
   Freeing the block at index makes a merging loop that does not bound the buddy look one past the last entry: the
   block it ends with would have its buddy there.
   */
  ghost predicate LooksPast(s: Space, index: nat) {
    exists k :: EndsSpace(s, index, k)
  }

  lemma RoundDownUnique(a: nat, i: nat, k: nat)
    requires Aligned(a, k) && a <= i < a + Pow2(k)
    ensures RoundDown(i, k) == a
  {
    RoundDownSpec(i, k);
    Nested(a, k, RoundDown(i, k), k);
    Nested(RoundDown(i, k), k, a, k);
  }

  /** In a coalesced space, the free block around index has its buddy outside exactly if its run ends the space. */
  lemma LastBlockIff(t: Space, index: nat, c: nat)
    requires SpaceOK(t) && FreeHead(t, c) && Covers(t, c, index)
    ensures BuddyOf(c, t.order[c]) >= t.n <==> exists k :: EndsSpace(t, index, k)
  {
    var j := t.order[c];
    assert HeadOK(t, c);
    if BuddyOf(c, j) >= t.n {
      RoundDownUnique(c, index, j);
      forall x: nat | c <= x < t.n
        ensures FreeOrAt(t, index, x)
      {
        assert FreeHead(t, c) && Covers(t, c, x);
      }
      assert EndsSpace(t, index, j);
    }
    if k :| EndsSpace(t, index, k) {
      LastBlock(t, index, c, k);
    }
  }

  lemma LastBlock(t: Space, index: nat, c: nat, k: nat)
    requires SpaceOK(t) && FreeHead(t, c) && Covers(t, c, index) && EndsSpace(t, index, k)
    ensures c == RoundDown(index, k) && t.order[c] == k && BuddyOf(c, k) == t.n
  {
    var a := RoundDown(index, k);
    RoundDownSpec(index, k);
    forall x: nat | a <= x < a + Pow2(k)
      ensures FreeEntry(t, x)
    {
      assert FreeOrAt(t, index, x);
      if Covers(t, index, x) { CoveredByFree(t, index, c, x); }
    }
    RunInBlock(t, a, k);
    var h: nat :| FreeHead(t, h) && Covers(t, h, a) && t.order[h] >= k;
    assert HeadOK(t, h);
    Nested(a, k, h, t.order[h]);
    SameBlock(t, h, c, index);
    PairAligned(a, k);
    if t.order[h] > k { Nested(a, k + 1, h, t.order[h]); DoublePow2(k); }
    Nested(h, k, a, k);
  }

  lemma CoveredByFree(t: Space, index: nat, c: nat, x: nat)
    requires Tiled(t) && FreeHead(t, c) && Covers(t, c, index) && Covers(t, index, x)
    ensures FreeEntry(t, x)
  {
    assert Covers(t, index, index);
    SameBlock(t, c, index, index);
  }

  /** What releasing the block at index frees. */
  lemma ReleasedEntry(s: Space, index: nat, x: nat)
    requires Tiled(s) && index in s.used
    ensures FreeEntry(s.(used := s.used - {index}), x) <==> FreeOrAt(s, index, x)
  {
    var t := s.(used := s.used - {index});
    if FreeEntry(t, x) {
      var h: nat :| FreeHead(t, h) && Covers(t, h, x);
      if h != index { assert FreeHead(s, h) && Covers(s, h, x); } else { assert Covers(s, index, x); }
    }
    if FreeEntry(s, x) {
      var h: nat :| FreeHead(s, h) && Covers(s, h, x);
      assert FreeHead(t, h) && Covers(t, h, x);
    }
    if Covers(s, index, x) {
      assert FreeHead(t, index) && Covers(t, index, x);
    }
  }

  /** After the block at index is freed and merged, the condition reads the same on the space before. */
  lemma LooksPastBefore(s: Space, t: Space, index: nat, c: nat)
    requires Tiled(s) && index in s.used && SpaceOK(t) && s.n == t.n && Blocks(t) == Blocks(s) - {index}
    requires FreeHead(t, c) && Covers(t, c, index)
    ensures LooksPast(s, index) <==> LooksPast(t, index)
  {
    forall x: nat
      ensures FreeOrAt(s, index, x) <==> FreeOrAt(t, index, x)
    {
      SameAfterRelease(s, t, index, c, x);
    }
    forall k: nat
      ensures EndsSpace(s, index, k) <==> EndsSpace(t, index, k)
    {
    }
  }

  lemma SameAfterRelease(s: Space, t: Space, index: nat, c: nat, x: nat)
    requires Tiled(s) && index in s.used && Tiled(t) && s.n == t.n && Blocks(t) == Blocks(s) - {index}
    requires FreeHead(t, c) && Covers(t, c, index)
    ensures FreeOrAt(s, index, x) <==> FreeOrAt(t, index, x)
  {
    var r := s.(used := s.used - {index});
    Retag(s, r.used);
    assert Blocks(r) == Blocks(t);
    ReleasedEntry(s, index, x);
    if FreeEntry(r, x) { SameFreeEntry(r, t, x); }
    if FreeEntry(t, x) { SameFreeEntry(t, r, x); }
    if Covers(t, index, x) { CoveredByFree(t, index, c, x); }
  }

  /** In a space of a power of two entries, such as the 256 of the linker, freeing the last allocated block looks past. */
  lemma LastFreeLooksPast(s: Space, index: nat, k: nat)
    requires Tiled(s) && s.used == {index} && s.n == Pow2(k)
    ensures LooksPast(s, index)
  {
    assert HeadOK(s, index);
    BlockAtZero(index, k);
    ShrZero(k);
    forall x: nat | x < s.n
      ensures FreeOrAt(s, index, x)
    {
      EntryOnce(s, x);
      if UsedEntry(s, x) { assert Covers(s, index, x); }
    }
    assert EndsSpace(s, index, k);
  }

  /** The smallest instance: one entry, allocated. */
  lemma OneEntryLooksPast()
    ensures var s := Space(1, map[0 := 0], {0}); SpaceOK(s) && LooksPast(s, 0)
  {
    var s := Space(1, map[0 := 0], {0});
    assert Covers(s, 0, 0);
    assert FreeOrAt(s, 0, 0);
    assert !Bit(0, 0);
    assert EndsSpace(s, 0, 0);
  }

  // ---- splitting, merging, taking and releasing ----

  function Split(s: Space, h: nat): Space
    requires h in s.order && s.order[h] > 0
  {
    var k := s.order[h] - 1;
    s.(order := s.order[h := k][h + Pow2(k) := k])
  }

  function Merge(s: Space, h: nat): Space
    requires h in s.order
  {
    var k := s.order[h];
    var b := BuddyOf(h, k);
    var low, high := if b < h then b else h, if b < h then h else b;
    s.(order := (s.order - {high})[low := k + 1])
  }

  /** Split halves one free block and leaves the rest of the tiling alone. */
  lemma SplitTiled(s: Space, h: nat)
    requires Tiled(s) && FreeHead(s, h) && s.order[h] > 0
    ensures Tiled(Split(s, h))
  {
    var k := s.order[h] - 1;
    var t, b := Split(s, h), h + Pow2(k);
    assert HeadOK(s, h);
    HalfAligned(h, k);
    NotInside(s, h, b);
    forall g | g in t.order
      ensures HeadOK(t, g)
    {
      assert g in s.order ==> HeadOK(s, g);
    }
    forall f, g | f in t.order && g in t.order && f < g
      ensures Apart(t, f, g)
    {
      SplitApart(s, h, f, g);
    }
    forall x: nat | x < t.n
      ensures Covered(t, x)
    {
      assert Covered(s, x);
      var g: nat :| Covers(s, g, x);
      if g != h { assert Covers(t, g, x); }
      else if x < b { assert Covers(t, h, x); }
      else { assert Covers(t, b, x); }
    }
  }

  /** An entry inside a block is not a head. */
  lemma NotInside(s: Space, h: nat, x: nat)
    requires Tiled(s) && h in s.order && h < x < h + Pow2(s.order[h])
    ensures x !in s.order
  {
    assert x in s.order ==> Apart(s, h, x);
  }

  lemma SplitApart(s: Space, h: nat, f: nat, g: nat)
    requires Tiled(s) && FreeHead(s, h) && s.order[h] > 0
    requires f in Split(s, h).order && g in Split(s, h).order && f < g
    ensures Apart(Split(s, h), f, g)
  {
    var b := h + Pow2(s.order[h] - 1);
    NotInside(s, h, b);
    var f0, g0 := if f == b then h else f, if g == b then h else g;
    assert f0 < g0 ==> Apart(s, f0, g0);
    assert g0 < f0 ==> Apart(s, g0, f0);
  }

  lemma SplitCoalesced(s: Space, h: nat)
    requires Tiled(s) && CoalescedBut(s, h) && FreeHead(s, h) && s.order[h] > 0
    ensures CoalescedBut(Split(s, h), h)
  {
    var k := s.order[h] - 1;
    var t, b := Split(s, h), h + Pow2(k);
    assert HeadOK(s, h);
    HalfAligned(h, k);
    PairAligned(h, k);
    NotInside(s, h, b);
    forall g | g in t.order && g != h && BuddyOf(g, t.order[g]) != h
      ensures !Mergeable(t, g)
    {
      assert g != b;
      var c := BuddyOf(g, t.order[g]);
      assert HeadOK(s, g);
      PairAligned(g, t.order[g]);
      assert !Mergeable(s, g);
    }
  }

  /** Merging two free buddies. */
  lemma MergeTiled(s: Space, h: nat)
    requires Tiled(s) && Mergeable(s, h)
    ensures Tiled(Merge(s, h))
  {
    var k := s.order[h];
    var b := BuddyOf(h, k);
    var low, high := if b < h then b else h, if b < h then h else b;
    var t := Merge(s, h);
    assert HeadOK(s, low) && HeadOK(s, high);
    PairAligned(h, k);
    DoublePow2(k);
    forall g | g in t.order
      ensures HeadOK(t, g)
    {
      assert HeadOK(s, g);
    }
    forall f, g | f in t.order && g in t.order && f < g
      ensures Apart(t, f, g)
    {
      MergeApart(s, h, f, g);
    }
    forall x: nat | x < t.n
      ensures Covered(t, x)
    {
      assert Covered(s, x);
      var g: nat :| Covers(s, g, x);
      if g == high || g == low { assert Covers(t, low, x); } else { assert Covers(t, g, x); }
    }
  }

  lemma MergeApart(s: Space, h: nat, f: nat, g: nat)
    requires Tiled(s) && Mergeable(s, h) && f in Merge(s, h).order && g in Merge(s, h).order && f < g
    ensures Apart(Merge(s, h), f, g)
  {
    var k := s.order[h];
    var b := BuddyOf(h, k);
    var low, high := if b < h then b else h, if b < h then h else b;
    DoublePow2(k);
    hide Pow2, Bit, Aligned;
    assert Apart(s, f, g) && Apart(s, low, high);
    assert low <= g < high ==> Apart(s, g, high);
    assert high < g ==> Apart(s, high, g);
  }

  lemma MergeCoalesced(s: Space, h: nat)
    requires Tiled(s) && CoalescedBut(s, h) && Mergeable(s, h)
    ensures var b := BuddyOf(h, s.order[h]); CoalescedBut(Merge(s, h), if b < h then b else h)
  {
    var k := s.order[h];
    var b := BuddyOf(h, k);
    var low, high := if b < h then b else h, if b < h then h else b;
    var t := Merge(s, h);
    assert HeadOK(s, h);
    PairAligned(h, k);
    forall g | g in t.order && g != low && BuddyOf(g, t.order[g]) != low
      ensures !Mergeable(t, g)
    {
      assert !Mergeable(s, g) || BuddyOf(g, s.order[g]) == h;
    }
  }

  /** Allocating or freeing a head keeps the tiling. */
  lemma Retag(s: Space, used: set<nat>)
    requires Tiled(s) && used <= s.order.Keys
    ensures Tiled(s.(used := used))
  {
    var t := s.(used := used);
    forall h | h in t.order
      ensures HeadOK(t, h)
    {
      assert HeadOK(s, h);
    }
    forall g, h | g in t.order && h in t.order && g < h
      ensures Apart(t, g, h)
    {
      assert Apart(s, g, h);
    }
    forall x: nat | x < t.n
      ensures Covered(t, x)
    {
      assert Covered(s, x);
      var h: nat :| Covers(s, h, x);
      assert Covers(t, h, x);
    }
  }

  lemma Take(s: Space, h: nat)
    requires Tiled(s) && CoalescedBut(s, h) && FreeHead(s, h)
    ensures SpaceOK(s.(used := s.used + {h}))
  {
    var t := s.(used := s.used + {h});
    Retag(s, t.used);
    forall g | g in t.order
      ensures !Mergeable(t, g)
    {
      assert Mergeable(t, g) ==> Mergeable(s, g);
    }
  }

  lemma Release(s: Space, h: nat)
    requires SpaceOK(s) && h in s.used
    ensures Tiled(s.(used := s.used - {h})) && CoalescedBut(s.(used := s.used - {h}), h)
  {
    var t := s.(used := s.used - {h});
    Retag(s, t.used);
    forall g | g in t.order && g != h && BuddyOf(g, t.order[g]) != h
      ensures !Mergeable(t, g)
    {
      assert Mergeable(t, g) ==> Mergeable(s, g);
    }
  }

  /** A free head that cannot be merged leaves nothing to merge. */
  lemma MergeDone(s: Space, h: nat)
    requires Tiled(s) && CoalescedBut(s, h) && h in s.order && !Mergeable(s, h)
    ensures SpaceOK(s)
  {
    assert HeadOK(s, h);
    forall g | g in s.order
      ensures !Mergeable(s, g)
    {
      if g != h && Mergeable(s, g) {
        assert HeadOK(s, g);
        PairAligned(g, s.order[g]);
      }
    }
  }

  // ---- the initial layout ----

  /** Adding a block at the end. */
  lemma AppendTiled(s: Space, k: nat)
    requires Tiled(s) && Aligned(s.n, k)
    ensures Tiled(Space(s.n + Pow2(k), s.order[s.n := k], s.used))
  {
    var t := Space(s.n + Pow2(k), s.order[s.n := k], s.used);
    hide Pow2, Aligned;
    forall h | h in t.order
      ensures HeadOK(t, h)
    {
      assert h in s.order ==> HeadOK(s, h);
    }
    forall g, h | g in t.order && h in t.order && g < h
      ensures Apart(t, g, h)
    {
      assert g in s.order ==> HeadOK(s, g);
      assert h in s.order ==> HeadOK(s, h);
      assert g in s.order && h in s.order ==> Apart(s, g, h);
    }
    forall x: nat | x < t.n
      ensures Covered(t, x)
    {
      if x < s.n {
        assert Covered(s, x);
        var h: nat :| Covers(s, h, x);
        assert HeadOK(s, h);
        assert Covers(t, h, x);
      } else {
        assert Covers(t, s.n, x);
      }
    }
  }

  /** With nothing allocated, every block is one of the binary digits of the space's length. */
  lemma AllFreeIsRoot(s: Space, h: nat)
    requires SpaceOK(s) && s.used == {} && h in s.order
    ensures Bit(s.n, s.order[h]) && h == RoundDown(s.n, s.order[h] + 1)
  {
    var k := s.order[h];
    assert HeadOK(s, h);
    PairAligned(h, k);
    DoublePow2(k);
    var b := BuddyOf(h, k);
    var low := if b < h then b else h;
    if low + Pow2(k + 1) <= s.n {
      forall x: nat | low <= x < low + Pow2(k + 1)
        ensures FreeEntry(s, x)
      {
        assert Covered(s, x);
        var g: nat :| Covers(s, g, x);
        assert FreeHead(s, g);
      }
      RunInBlock(s, low, k + 1);
      var g: nat :| FreeHead(s, g) && Covers(s, g, low) && s.order[g] >= k + 1;
      assert HeadOK(s, g);
      Nested(low, k + 1, g, s.order[g]);
      SameBlock(s, g, h, h);
    }
    RoundDownSpec(s.n, k + 1);
    RoundDownSpec(s.n, k);
    Nested(low, k + 1, RoundDown(s.n, k + 1), k + 1);
  }

  /** Freeing everything, in any order, restores the one layout with nothing allocated. */
  lemma AllFreeIsInitial(s: Space, t: Space)
    requires SpaceOK(s) && SpaceOK(t) && s.n == t.n && s.used == {} == t.used
    ensures s == t
  {
    assert Blocks(s) == map[] == Blocks(t);
    LayoutUnique(s, t);
  }

  /** Allocated blocks are aligned, inside the space and disjoint. */
  lemma UsedDisjoint(s: Space, g: nat, h: nat)
    requires SpaceOK(s) && g in s.used && h in s.used && g != h
    ensures Aligned(h, s.order[h]) && h + Pow2(s.order[h]) <= s.n
    ensures g + Pow2(s.order[g]) <= h || h + Pow2(s.order[h]) <= g
  {
    assert HeadOK(s, h);
    assert g < h ==> Apart(s, g, h);
    assert h < g ==> Apart(s, h, g);
  }

  ghost predicate UsedEntry(s: Space, x: nat) {
    exists h :: h in s.used && Covers(s, h, x)
  }

  /** Every entry is in exactly one block, so it is either free or allocated and never both. */
  lemma EntryOnce(s: Space, x: nat)
    requires Tiled(s) && x < s.n
    ensures exists h :: Covers(s, h, x) && forall g :: Covers(s, g, x) ==> g == h
    ensures FreeEntry(s, x) <==> !UsedEntry(s, x)
  {
    assert Covered(s, x);
    var h: nat :| Covers(s, h, x);
    forall g | Covers(s, g, x)
      ensures g == h
    {
      SameBlock(s, g, h, x);
    }
    assert h in s.used || FreeHead(s, h);
  }

  /** The bytes of two allocated blocks are disjoint and inside the space. */
  lemma UsedBytes(s: Space, g: nat, h: nat)
    requires SpaceOK(s) && g in s.used && h in s.used && g != h
    ensures h * MIN_ALLOC + Pow2(s.order[h]) * MIN_ALLOC <= s.n * MIN_ALLOC
    ensures g * MIN_ALLOC + Pow2(s.order[g]) * MIN_ALLOC <= h * MIN_ALLOC
         || h * MIN_ALLOC + Pow2(s.order[h]) * MIN_ALLOC <= g * MIN_ALLOC
  {
    UsedDisjoint(s, g, h);
  }

  // ---- the bitmap ----

  datatype Bits = Bits(taken: bool, order: nat)

  /** The bitmap m holds s: orders at heads, allocated bits exactly at allocated heads. */
  ghost predicate Holds(m: seq<Bits>, s: Space) {
    && |m| == s.n
    && (forall h {:trigger s.order[h]} | h in s.order :: h < |m| && m[h].order == s.order[h])
    && (forall i {:trigger m[i]} | 0 <= i < |m| :: m[i].taken <==> i in s.used)
  }

  /** The first free block of the least sufficient order. */
  ghost predicate BestFit(s: Space, k: nat, h: nat) {
    && FreeHead(s, h) && k <= s.order[h]
    && forall g | FreeHead(s, g) && k <= s.order[g] :: s.order[h] < s.order[g] || (s.order[h] == s.order[g] && h <= g)
  }

  function BitLength(w: nat): nat {
    if w == 0 then 0 else 1 + BitLength(w / 2)
  }

  /** The order asked for: MIN_ALLOC units, rounded up in 32-bit arithmetic. */
  function OrderOf(len: nat): nat
    requires len < WORD
  {
    BitLength(((len + MIN_ALLOC - 1) % WORD / MIN_ALLOC + WORD - 1) % WORD)
  }

  lemma {:induction false} BitLengthSpec(w: nat)
    ensures w < Pow2(BitLength(w))
    ensures w == 0 ==> BitLength(w) == 0
    ensures w > 0 ==> BitLength(w) > 0 && Pow2(BitLength(w) - 1) <= w
  {
    if w > 0 { BitLengthSpec(w / 2); }
  }

  /** The least power of two units that holds len; a length of zero or one that wraps asks for 2^32 units. */
  lemma OrderSpec(len: nat)
    requires len < WORD
    ensures var k := OrderOf(len);
      if 0 < len <= 0xfff0_0000 then
        && len <= Pow2(k) * 0x10_0000
        && (k > 0 ==> Pow2(k - 1) * 0x10_0000 < len)
      else k == 32
  {
    hide Pow2, BitLength;
    var w := ((len + MIN_ALLOC - 1) % WORD / MIN_ALLOC + WORD - 1) % WORD;
    UnitsLessOne(len);
    BitLengthSpec(w);
    FullWordLength();
  }

  lemma UnitsLessOne(len: nat)
    requires len < WORD
    ensures var w := ((len + MIN_ALLOC - 1) % WORD / MIN_ALLOC + WORD - 1) % WORD;
      if 0 < len <= WORD - MIN_ALLOC then w * MIN_ALLOC < len <= (w + 1) * MIN_ALLOC else w == WORD - 1
  {
    var x := len + MIN_ALLOC - 1;
    if 0 < len <= WORD - MIN_ALLOC {
      assert x % WORD == x;
      var u := x / MIN_ALLOC;
      assert 1 <= u < WORD;
      assert (u + WORD - 1) % WORD == u - 1;
    } else {
      assert x % WORD < MIN_ALLOC;
      assert x % WORD / MIN_ALLOC == 0;
    }
  }

  lemma FullWordLength()
    ensures BitLength(WORD - 1) == 32
  {
    var k := BitLength(WORD - 1);
    BitLengthSpec(WORD - 1);
    Pow2Of32();
    hide Pow2;
    if k < 32 { AtMostHalf(k); }
    if 33 < k { Pow2Less(32, k - 1); }
  }

  lemma {:induction false} BitLengthBound(w: nat, n: nat)
    requires w < Pow2(n)
    ensures BitLength(w) <= n
  {
    if w > 0 { BitLengthBound(w / 2, n - 1); }
  }

  lemma AtMostHalf(k: nat)
    requires k < 32
    ensures Pow2(k) < WORD - 1
  {
    Pow2Of32();
    if k < 31 { Pow2Less(k, 31); }
  }

  lemma {:induction false} ShrBitLength(w: nat, i: nat)
    ensures Shr(w, i) == 0 <==> BitLength(w) <= i
  {
    if w == 0 {
      ShrZero(i);
    } else if i > 0 {
      ShrBitLength(w / 2, i - 1);
    }
  }

  /** Between steps: a tiling with the allocated blocks B in which only the free block c may be mergeable. */
  ghost predicate Working(m: seq<Bits>, s: Space, n: nat, B: map<nat, nat>, c: nat) {
    Holds(m, s) && Tiled(s) && CoalescedBut(s, c) && FreeHead(s, c) && s.n == n && Blocks(s) == B
  }

  lemma BlocksKept(s: Space, t: Space)
    requires s.used == t.used && s.used <= s.order.Keys && s.used <= t.order.Keys
    requires forall h | h in s.used :: s.order[h] == t.order[h]
    ensures Blocks(s) == Blocks(t)
  {
  }

  lemma ReleaseStep(m: seq<Bits>, s: Space, h: nat)
    requires Holds(m, s) && SpaceOK(s) && h in s.used
    ensures h < |m| && Working(m[h := m[h].(taken := false)], s.(used := s.used - {h}), s.n, Blocks(s) - {h}, h)
  {
    Release(s, h);
    hide Tiled, CoalescedBut;
    assert Blocks(s.(used := s.used - {h})) == Blocks(s) - {h};
  }

  lemma TakeStep(m: seq<Bits>, s: Space, n: nat, B: map<nat, nat>, h: nat)
    requires Working(m, s, n, B, h)
    ensures h < |m| && Holds(m[h := m[h].(taken := true)], s.(used := s.used + {h}))
    ensures SpaceOK(s.(used := s.used + {h})) && Blocks(s.(used := s.used + {h})) == B[h := s.order[h]]
  {
    Take(s, h);
    hide Tiled, CoalescedBut;
  }

  /** What raising the orders of both buddies does to the layout. */
  lemma MergeStep(m: seq<Bits>, s: Space, n: nat, B: map<nat, nat>, h: nat, b: nat)
    requires Working(m, s, n, B, h) && Mergeable(s, h) && b == BuddyOf(h, s.order[h])
    ensures b < |m| && h < |m| && b != h
    ensures var k := s.order[h] + 1; var low := if b < h then b else h;
      && Working(m[b := m[b].(order := k)][h := m[h].(order := k)], Merge(s, h), n, B, low)
      && Pow2(s.order[h]) < Pow2(k) <= n && low in Merge(s, h).order && Merge(s, h).order[low] == k
  {
    MergeTiled(s, h);
    MergeCoalesced(s, h);
    DoublePow2(s.order[h]);
    var t := Merge(s, h);
    assert HeadOK(t, if b < h then b else h);
    hide Pow2, Bit, Tiled, CoalescedBut;
    BlocksKept(s, t);
  }

  /** What lowering the order of a block and writing it at its upper half does. */
  lemma SplitStep(m: seq<Bits>, s: Space, n: nat, B: map<nat, nat>, h: nat)
    requires Working(m, s, n, B, h) && s.order[h] > 0
    ensures var k := s.order[h] - 1; var b := BitwiseXor(h, Pow2(k));
      && h < b < |m|
      && Working(m[h := m[h].(order := k)][b := m[b].(order := k)], Split(s, h), n, B, h)
      && Split(s, h).order[h] == k
  {
    var k := s.order[h] - 1;
    SplitTiled(s, h);
    SplitCoalesced(s, h);
    assert HeadOK(s, h);
    HalfAligned(h, k);
    FlipBit(h, k);
    NotInside(s, h, h + Pow2(k));
    hide Pow2, Bit, Tiled, CoalescedBut;
    BlocksKept(s, Split(s, h));
  }

  lemma StartWork(m: seq<Bits>, s: Space, h: nat)
    requires Holds(m, s) && SpaceOK(s) && FreeHead(s, h)
    ensures Working(m, s, s.n, Blocks(s), h) && h < |m| && m[h].order == s.order[h]
  {
  }

  lemma WorkDone(m: seq<Bits>, s: Space, n: nat, B: map<nat, nat>, h: nat)
    requires Working(m, s, n, B, h)
    ensures h in s.order && h < |m| == n && m[h].order == s.order[h]
    ensures Pow2(s.order[h]) <= n && Tiled(s)
    ensures var b := BitwiseXor(h, Pow2(s.order[h]));
      && b == BuddyOf(h, s.order[h])
      && if b < n && !m[b].taken && m[b].order == m[h].order then Mergeable(s, h) else SpaceOK(s)
    ensures Holds(m, s) && s.n == n && Blocks(s) == B
  {
    assert HeadOK(s, h);
    FlipBit(h, s.order[h]);
    var b := BuddyOf(h, s.order[h]);
    if b < n { BuddyIsHead(s, h); }
    if !Mergeable(s, h) { MergeDone(s, h); }
  }

  /** ba_init before bit i: the blocks of the higher binary digits of n are laid out. */
  ghost predicate Laying(m: seq<Bits>, s: Space, n: nat, i: int) {
    && -1 <= i && |m| == n && Tiled(s) && s.n == RoundDown(n, i + 1) && s.used == {}
    && (forall h {:trigger s.order[h]} | h in s.order :: h < n && m[h].order == s.order[h] && s.order[h] > i)
    && (forall g, h {:trigger s.order[g], s.order[h]} | g in s.order && h in s.order && g < h :: s.order[g] > s.order[h])
    && (forall j | 0 <= j < n :: !m[j].taken)
  }

  lemma StartLaying(m: seq<Bits>, n: nat)
    requires |m| == n < WORD && forall j | 0 <= j < n :: !m[j].taken
    ensures Laying(m, Space(0, map[], {}), n, 31)
  {
    Pow2Of32();
    BlockAtZero(n, 32);
  }

  lemma LayOne(m: seq<Bits>, s: Space, n: nat, i: nat)
    requires Laying(m, s, n, i)
    ensures BitwiseAnd(n, Pow2(i)) == 0 ==> Laying(m, s, n, i - 1)
    ensures BitwiseAnd(n, Pow2(i)) != 0 ==>
      s.n < n && Laying(m[s.n := m[s.n].(order := i)], Space(s.n + Pow2(i), s.order[s.n := i], {}), n, i - 1)
  {
    AndPow2(n, i);
    RoundDownSpec(n, i);
    RoundDownSpec(n, i + 1);
    if BitwiseAnd(n, Pow2(i)) != 0 {
      HalfAligned(s.n, i);
      AppendTiled(s, i);
      forall h | h in s.order
        ensures h < s.n
      {
        assert HeadOK(s, h);
      }
      hide Tiled, Pow2, RoundDown, Bit, Aligned;
    }
  }

  lemma LaidOut(m: seq<Bits>, s: Space, n: nat)
    requires Laying(m, s, n, -1)
    ensures Holds(m, s) && SpaceOK(s) && s.n == n && s.used == {}
  {
    DistinctOrders(s);
  }

  /** Blocks of distinct orders have nothing to merge. */
  lemma DistinctOrders(s: Space)
    requires Tiled(s)
    requires forall g, h | g in s.order && h in s.order && g < h :: s.order[g] > s.order[h]
    ensures SpaceOK(s)
  {
  }

  class LibrarySpace {
    const bitmap: array<Bits>
    const base: nat
    ghost var space: Space

    ghost predicate Valid()
      reads this, bitmap
    {
      bitmap.Length < 0x8000_0000 && Holds(bitmap[..], space) && SpaceOK(space)
    }

    /** ba_init over a zeroed bitmap: one block for every binary digit of the length. */
    constructor (n: nat, base: nat)
      requires n < 0x8000_0000
      ensures Valid() && fresh(bitmap) && this.base == base
      ensures space.n == n && space.used == {}
    {
      this.base := base;
      bitmap := new Bits[n](_ => Bits(false, 0));
      space := Space(0, map[], {});
      new;
      StartLaying(bitmap[..], n);
      hide Pow2, RoundDown, Laying, SpaceOK, Holds;
      var i: int, index: nat := 31, 0;
      while i >= 0
        invariant -1 <= i <= 31
        invariant Laying(bitmap[..], space, n, i) && index == space.n
      {
        ghost var m := bitmap[..];
        LayOne(m, space, n, i);
        if BitwiseAnd(n, Pow2(i)) != 0 {
          bitmap[index] := bitmap[index].(order := i);
          assert bitmap[..] == m[index := m[index].(order := i)];
          space := Space(index + Pow2(i), space.order[index := i], {});
          index := index + Pow2(bitmap[index].order);
        }
        i := i - 1;
      }
      LaidOut(bitmap[..], space, n);
    }

    /** ba_order */
    method Order(len: nat) returns (i: nat)
      requires len < WORD
      ensures i == OrderOf(len)
    {
      var w := (len + MIN_ALLOC - 1) % WORD / MIN_ALLOC;
      w := (w + WORD - 1) % WORD;
      Pow2Of32();
      BitLengthBound(w, 32);
      hide Pow2;
      i := 0;
      while i < 32
        invariant i <= OrderOf(len)
      {
        ShrBitLength(w, i);
        if Shr(w, i) == 0 {
          break;
        }
        i := i + 1;
      }
    }

    /** The search of ba_allocate. */
    method FindFit(k: nat) returns (best: int)
      requires Valid()
      ensures best == -1 ==> forall h: nat | FreeHead(space, h) :: space.order[h] < k
      ensures best != -1 ==> best >= 0 && BestFit(space, k, best)
    {
      var curr := 0;
      best := -1;
      assert space.n > 0 ==> 0 in space.order by {
        if space.n > 0 {
          assert Covered(space, 0);
          var h: nat :| Covers(space, h, 0);
        }
      }
      while curr < bitmap.Length
        invariant curr == space.n || curr in space.order
        invariant forall h: nat | FreeHead(space, h) && h < curr :: space.order[h] != k
        invariant best == -1 ==> forall h: nat | FreeHead(space, h) && h < curr :: space.order[h] < k
        invariant best != -1 ==> 0 <= best < curr && FreeHead(space, best) && k < space.order[best]
        invariant best != -1 ==> forall h: nat | FreeHead(space, h) && h < curr && k <= space.order[h] ::
          space.order[best] < space.order[h] || (space.order[best] == space.order[h] && best <= h)
        decreases bitmap.Length - curr
      {
        if !bitmap[curr].taken {
          if bitmap[curr].order == k {
            best := curr;
            break;
          }
          if bitmap[curr].order > k && (best < 0 || bitmap[curr].order < bitmap[best].order) {
            best := curr;
          }
        }
        NextIsHead(space, curr);
        forall h | h in space.order && h != curr
          ensures h < curr + Pow2(space.order[curr]) ==> h < curr
        {
          assert curr < h ==> Apart(space, curr, h);
        }
        assert HeadOK(space, curr);
        curr := curr + Pow2(bitmap[curr].order);
      }
    }

    /** The partition of ba_allocate: halve a free block until it has the order asked for, and take it. */
    method Partition(best: nat, k: nat)
      requires Valid() && FreeHead(space, best) && k <= space.order[best]
      modifies this`space, bitmap
      ensures Valid() && space.n == old(space.n)
      ensures Blocks(space) == old(Blocks(space))[best := k]
    {
      ghost var n, blocks := space.n, Blocks(space);
      StartWork(bitmap[..], space, best);
      hide Working, Holds, SpaceOK, Blocks, Pow2;
      ghost var m;
      while bitmap[best].order > k
        invariant Working(bitmap[..], space, n, blocks, best)
        invariant best < bitmap.Length && best in space.order && k <= bitmap[best].order == space.order[best]
        decreases bitmap[best].order
      {
        m := bitmap[..];
        SplitStep(m, space, n, blocks, best);
        ghost var j := space.order[best] - 1;
        bitmap[best] := bitmap[best].(order := bitmap[best].order - 1);
        var buddy := BitwiseXor(best, Pow2(bitmap[best].order));
        bitmap[buddy] := bitmap[buddy].(order := bitmap[best].order);
        assert bitmap[..] == m[best := m[best].(order := j)][buddy := m[buddy].(order := j)];
        space := Split(space, best);
      }
      TakeStep(bitmap[..], space, n, blocks, best);
      m := bitmap[..];
      bitmap[best] := bitmap[best].(taken := true);
      assert bitmap[..] == m[best := m[best].(taken := true)];
      space := space.(used := space.used + {best});
    }

    /** ba_allocate: -1 exactly when no aligned run of free entries is large enough. */
    method Allocate(len: nat) returns (index: int)
      requires Valid() && len < WORD
      modifies this`space, bitmap
      ensures Valid() && space.n == old(space.n)
      ensures index == -1 <==> forall a: nat :: !FreeRun(old(space), a, OrderOf(len))
      ensures index == -1 ==> space == old(space)
      ensures index != -1 ==> index >= 0 && BestFit(old(space), OrderOf(len), index)
      ensures index != -1 ==> Blocks(space) == old(Blocks(space))[index := OrderOf(len)]
    {
      var order := Order(len);
      index := FindFit(order);
      if index < 0 {
        forall a: nat
          ensures !FreeRun(space, a, order)
        {
          if FreeRun(space, a, order) { RunInBlock(space, a, order); }
        }
        return;
      }
      BlockHoldsRun(space, index, order);
      Partition(index, order);
    }

    /** ba_start_addr */
    method StartAddr(index: nat) returns (a: nat)
      requires Valid() && index in space.used
      ensures a == base + index * 0x10_0000 && a + Pow2(space.order[index]) * 0x10_0000 <= base + space.n * 0x10_0000
    {
      assert HeadOK(space, index);
      a := index * MIN_ALLOC + base;
    }

    /** ba_len: enough for every length that asks for the block's order. */
    method Len(index: nat) returns (l: nat)
      requires Valid() && index in space.used
      ensures l == Pow2(space.order[index]) * 0x10_0000
      ensures forall len | 0 < len <= WORD - MIN_ALLOC && OrderOf(len) == space.order[index] :: len <= l
    {
      l := Pow2(bitmap[index].order) * MIN_ALLOC;
      forall len | 0 < len <= WORD - MIN_ALLOC && OrderOf(len) == space.order[index]
        ensures len <= l
      {
        OrderSpec(len);
      }
    }

    /**
     ba_free, its merging also stopped where the buddy would lie past the bitmap; past says whether it was, which is
     whether the original reads there.
     */
    method Free(index: nat) returns (ghost past: bool)
      requires Valid() && index in space.used
      modifies this`space, bitmap
      ensures Valid() && space.n == old(space.n)
      ensures Blocks(space) == old(Blocks(space)) - {index}
      ensures past <==> LooksPast(old(space), index)
    {
      ReleaseStep(bitmap[..], space, index);
      hide Working, Holds, SpaceOK, Blocks;
      ghost var m := bitmap[..];
      bitmap[index] := bitmap[index].(taken := false);
      assert bitmap[..] == m[index := m[index].(taken := false)];
      space := space.(used := space.used - {index});
      ghost var c;
      past, c := MergeUp(index, old(Blocks(space)) - {index});
      LooksPastBefore(old(space), space, index, c);
    }

    /** One merge: both orders are raised, and the lower half is the block. */
    method MergeOnce(curr: nat, buddy: nat, ghost x: nat, ghost n: nat, ghost blocks: map<nat, nat>) returns (low: nat)
      requires Working(bitmap[..], space, n, blocks, curr) && Mergeable(space, curr) && Covers(space, curr, x)
      requires buddy == BuddyOf(curr, space.order[curr])
      modifies this`space, bitmap
      ensures Working(bitmap[..], space, n, blocks, low) && Covers(space, low, x)
      ensures low < bitmap.Length && low in space.order && Pow2(old(space).order[curr]) < Pow2(space.order[low]) <= n
    {
      ghost var m := bitmap[..];
      WorkDone(m, space, n, blocks, curr);
      MergeStep(m, space, n, blocks, curr, buddy);
      MergeCovers(space, curr, x);
      hide *;
      ghost var k := space.order[curr] + 1;
      bitmap[buddy] := bitmap[buddy].(order := bitmap[buddy].order + 1);
      bitmap[curr] := bitmap[curr].(order := bitmap[curr].order + 1);
      assert bitmap[..] == m[buddy := m[buddy].(order := k)][curr := m[curr].(order := k)];
      space := Merge(space, curr);
      low := if buddy < curr then buddy else curr;
    }

    /** The loop of ba_free: merge the free block at index with its buddy for as long as that is free and whole. */
    method MergeUp(index: nat, ghost blocks: map<nat, nat>) returns (ghost past: bool, ghost c: nat)
      requires bitmap.Length < 0x8000_0000 && Working(bitmap[..], space, space.n, blocks, index)
      modifies this`space, bitmap
      ensures Valid() && space.n == old(space.n) && Blocks(space) == blocks
      ensures FreeHead(space, c) && Covers(space, c, index) && (past <==> LooksPast(space, index))
    {
      assert Covers(space, index, index);
      hide Working, Holds, SpaceOK, Blocks, Pow2, BitwiseXor, BuddyOf, Merge, Mergeable, Tiled, Covers, EndsSpace;
      ghost var n := space.n;
      var curr: nat := index;
      WorkDone(bitmap[..], space, n, blocks, curr);
      past := false;
      var merging := true;
      while merging
        invariant Working(bitmap[..], space, n, blocks, curr) && Covers(space, curr, index)
        invariant past ==> !merging
        invariant !merging ==> (past <==> BuddyOf(curr, space.order[curr]) >= n)
        invariant curr < bitmap.Length
        invariant curr in space.order && Pow2(space.order[curr]) <= n
        invariant !merging ==> SpaceOK(space)
        decreases n - Pow2(space.order[curr]), merging
      {
        ghost var m := bitmap[..];
        WorkDone(m, space, n, blocks, curr);
        var buddy := BitwiseXor(curr, Pow2(bitmap[curr].order));
        if buddy >= bitmap.Length {
          past := true;
          merging := false;
        } else if !bitmap[buddy].taken && bitmap[buddy].order == bitmap[curr].order {
          curr := MergeOnce(curr, buddy, index, n, blocks);
        } else {
          merging := false;
        }
      }
      WorkDone(bitmap[..], space, n, blocks, curr);
      c := curr;
      WorkIsFree(bitmap[..], space, n, blocks, curr);
      LastBlockIff(space, index, curr);
    }
  }

  lemma WorkIsFree(m: seq<Bits>, s: Space, n: nat, B: map<nat, nat>, c: nat)
    requires Working(m, s, n, B, c)
    ensures FreeHead(s, c) && s.n == n
  {
  }

  /** The merged block covers what its half covered. */
  lemma MergeCovers(s: Space, h: nat, x: nat)
    requires Tiled(s) && Mergeable(s, h) && Covers(s, h, x)
    ensures var b := BuddyOf(h, s.order[h]); Covers(Merge(s, h), if b < h then b else h, x)
  {
    DoublePow2(s.order[h]);
    hide Pow2;
  }

  lemma BlockAtZero(n: nat, k: nat)
    requires n < Pow2(k)
    ensures RoundDown(n, k) == 0
  {
    if k > 0 { BlockAtZero(n / 2, k - 1); }
  }
}
