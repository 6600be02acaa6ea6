/**
 SHA-1: the unrolled block transform, and hashing a message in pieces, against
 sections 3 to 7 of FIPS 180-1.
 */
module Sha1 {
  import opened Words

  // ---- FIPS 180-1 ----

  /** The circular left shift S^n of section 3. */
  function Rol(x: bv32, n: bv8): bv32
    requires n <= 32
  {
    (x << n) | (x >> (32 - n))
  }

  type Block = b: seq<bv8> | |b| == 64 witness seq(64, _ => 0)

  /** Four bytes as a word, most significant byte first. */
  function BigEndian(p: bv8, q: bv8, r: bv8, s: bv8): bv32 {
    ((p as bv32) << 24) | ((q as bv32) << 16) | ((r as bv32) << 8) | (s as bv32)
  }

  /** The message schedule: steps a and b of section 7. */
  function Schedule(m: Block, t: nat): bv32 {
    if t < 16 then BigEndian(m[4 * t], m[4 * t + 1], m[4 * t + 2], m[4 * t + 3])
    else Rol(Schedule(m, t - 3) ^ Schedule(m, t - 8) ^ Schedule(m, t - 14) ^ Schedule(m, t - 16), 1)
  }

  /** The functions of section 5. */
  function F(t: nat, b: bv32, c: bv32, d: bv32): bv32 {
    if t < 20 then Ch(b, c, d)
    else if t < 40 then Parity(b, c, d)
    else if t < 60 then Maj(b, c, d)
    else Parity(b, c, d)
  }

  function Ch(b: bv32, c: bv32, d: bv32): bv32 {
    (b & c) | (!b & d)
  }

  function Parity(b: bv32, c: bv32, d: bv32): bv32 {
    b ^ c ^ d
  }

  function Maj(b: bv32, c: bv32, d: bv32): bv32 {
    (b & c) | (b & d) | (c & d)
  }

  /** The constants of section 6. */
  function K(t: nat): bv32 {
    if t < 20 then 0x5A827999 else if t < 40 then 0x6ED9EBA1 else if t < 60 then 0x8F1BBCDC else 0xCA62C1D6
  }

  datatype Regs = Regs(a: bv32, b: bv32, c: bv32, d: bv32, e: bv32)

  /** Step d of section 7. */
  function Step(r: Regs, t: nat, w: bv32): Regs {
    Regs(Temp(Rol(r.a, 5), F(t, r.b, r.c, r.d), r.e, w, K(t)), r.a, Rol(r.b, 30), r.c, r.d)
  }

  function Temp(r: bv32, f: bv32, e: bv32, w: bv32, k: bv32): bv32 {
    r + f + e + w + k
  }

  function Add(x: bv32, y: bv32): bv32 {
    x + y
  }

  function Steps(r: Regs, m: Block, n: nat): Regs {
    if n == 0 then r else Step(Steps(r, m, n - 1), n - 1, Schedule(m, n - 1))
  }

  function Plus(r: Regs, s: Regs): Regs {
    Regs(Add(r.a, s.a), Add(r.b, s.b), Add(r.c, s.c), Add(r.d, s.d), Add(r.e, s.e))
  }

  /** A block's effect on the five words: steps c to e of section 7. */
  function Compress(h: Regs, m: Block): Regs {
    Plus(h, Steps(h, m, 80))
  }

  // ---- the transform ----

  /** Four bytes as a little-endian machine loads them. */
  function LittleEndian(p: bv8, q: bv8, r: bv8, s: bv8): bv32 {
    ((s as bv32) << 24) | ((r as bv32) << 16) | ((q as bv32) << 8) | (p as bv32)
  }

  /** blk0's byte swap. */
  function Swap(x: bv32): bv32 {
    (Rol(x, 24) & 0xFF00FF00) | (Rol(x, 8) & 0x00FF00FF)
  }

  lemma SwapLoads(p: bv8, q: bv8, r: bv8, s: bv8)
    ensures Swap(LittleEndian(p, q, r, s)) == BigEndian(p, q, r, s)
  {
  }

  /** What a round adds to z. */
  function Added(z: bv32, f: bv32, w: bv32, k: bv32, r: bv32): bv32 {
    z + (f + w + k + r)
  }

  /** The round functions as R0 to R4 write them. */
  function Choose(w: bv32, x: bv32, y: bv32): bv32 {
    (w & (x ^ y)) ^ y
  }

  function Majority(w: bv32, x: bv32, y: bv32): bv32 {
    ((w | x) & y) | (w & x)
  }

  lemma ChooseBits(w: bv32, x: bv32, y: bv32)
    ensures (w & (x ^ y)) ^ y == (w & x) | (!w & y)
  {
  }

  lemma ChooseIs(w: bv32, x: bv32, y: bv32)
    ensures Choose(w, x, y) == Ch(w, x, y)
  {
    ChooseBits(w, x, y);
  }

  lemma MajorityBits(w: bv32, x: bv32, y: bv32)
    ensures ((w | x) & y) | (w & x) == (w & x) | (w & y) | (x & y)
  {
  }

  lemma MajorityIs(w: bv32, x: bv32, y: bv32)
    ensures Majority(w, x, y) == Maj(w, x, y)
  {
    MajorityBits(w, x, y);
  }

  lemma SumOrder(z: bv32, f: bv32, w: bv32, k: bv32, r: bv32)
    ensures Added(z, f, w, k, r) == Temp(r, f, z, w, k)
  {
  }

  /** The circular workspace before round i: the last sixteen schedule words, or the unread words of the block. */
  ghost predicate Holds(l: seq<bv32>, m: Block, i: nat) {
    && |l| == 16
    && (forall t: nat {:trigger Schedule(m, t)} | t < i <= t + 16 :: l[t % 16] == Schedule(m, t))
    && (forall t: nat {:trigger m[4 * t]} | i <= t < 16 :: l[t] == LittleEndian(m[4 * t], m[4 * t + 1], m[4 * t + 2], m[4 * t + 3]))
  }

  lemma HoldsNext(l: seq<bv32>, m: Block, i: nat, w: bv32)
    requires Holds(l, m, i) && w == Schedule(m, i)
    ensures Holds(l[i % 16 := w], m, i + 1)
  {
    hide Schedule, LittleEndian;
  }

  /** Before round i the working variables hold the registers, in the order v, w, x, y, z. */
  ghost predicate At(l: seq<bv32>, h: Regs, m: Block, i: nat, v: bv32, w: bv32, x: bv32, y: bv32, z: bv32) {
    Holds(l, m, i) && Steps(h, m, i) == Regs(v, w, x, y, z)
  }

  /** One round turns z into the new first register and rotates w; the other three keep their variables. */
  lemma RoundIs(l: seq<bv32>, h: Regs, m: Block, i: nat, v: bv32, w: bv32, x: bv32, y: bv32, z: bv32, u: bv32)
    requires At(l, h, m, i, v, w, x, y, z) && u == Schedule(m, i)
    ensures At(l[i % 16 := u], h, m, i + 1, Added(z, F(i, w, x, y), u, K(i), Rol(v, 5)), v, Rol(w, 30), x, y)
  {
    HoldsNext(l, m, i, u);
    SumOrder(z, F(i, w, x, y), u, K(i), Rol(v, 5));
    hide F, K, Rol, Schedule, Holds, Added, Temp;
  }

  /** blk0: swap the bytes of word i in place. */
  method Blk0(l: array<bv32>, i: nat, ghost m: Block) returns (u: bv32)
    requires l.Length == 16 && i < 16 && Holds(l[..], m, i)
    modifies l
    ensures u == Schedule(m, i) && l[..] == old(l[..])[i % 16 := u]
  {
    SwapLoads(m[4 * i], m[4 * i + 1], m[4 * i + 2], m[4 * i + 3]);
    hide Swap, BigEndian, LittleEndian, Rol;
    u := Swap(l[i]);
    l[i] := u;
  }

  /** blk: the next schedule word, over the oldest of the sixteen. */
  method Blk(l: array<bv32>, i: nat, ghost m: Block) returns (u: bv32)
    requires l.Length == 16 && 16 <= i && Holds(l[..], m, i)
    modifies l
    ensures u == Schedule(m, i) && l[..] == old(l[..])[i % 16 := u]
  {
    ScheduleBack(l[..], m, i);
    hide Rol, Schedule;
    u := Rol(l[(i + 13) % 16] ^ l[(i + 8) % 16] ^ l[(i + 2) % 16] ^ l[i % 16], 1);
    l[i % 16] := u;
  }

  lemma ScheduleBack(l: seq<bv32>, m: Block, i: nat)
    requires 16 <= i && Holds(l, m, i)
    ensures Schedule(m, i) == Rol(l[(i + 13) % 16] ^ l[(i + 8) % 16] ^ l[(i + 2) % 16] ^ l[i % 16], 1)
  {
    hide Rol;
    assert (i - 3) % 16 == (i + 13) % 16 && (i - 8) % 16 == (i + 8) % 16 && (i - 14) % 16 == (i + 2) % 16 && (i - 16) % 16 == i % 16;
    assert l[(i - 3) % 16] == Schedule(m, i - 3);
    assert l[(i - 8) % 16] == Schedule(m, i - 8);
    assert l[(i - 14) % 16] == Schedule(m, i - 14);
    assert l[(i - 16) % 16] == Schedule(m, i - 16);
  }

  method R0(l: array<bv32>, v: bv32, w: bv32, x: bv32, y: bv32, z: bv32, i: nat, ghost h: Regs, ghost m: Block)
    returns (z': bv32, w': bv32)
    requires l.Length == 16 && i < 16 && At(l[..], h, m, i, v, w, x, y, z)
    modifies l
    ensures At(l[..], h, m, i + 1, z', v, w', x, y)
  {
    ChooseIs(w, x, y);
    hide Choose, Ch;
    assert F(i, w, x, y) == Choose(w, x, y);
    assert K(i) == 0x5A827999;
    hide *;
    var u := Blk0(l, i, m);
    RoundIs(old(l[..]), h, m, i, v, w, x, y, z, u);
    z', w' := Added(z, Choose(w, x, y), u, 0x5A827999, Rol(v, 5)), Rol(w, 30);
  }

  method R1(l: array<bv32>, v: bv32, w: bv32, x: bv32, y: bv32, z: bv32, i: nat, ghost h: Regs, ghost m: Block)
    returns (z': bv32, w': bv32)
    requires l.Length == 16 && 16 <= i < 20 && At(l[..], h, m, i, v, w, x, y, z)
    modifies l
    ensures At(l[..], h, m, i + 1, z', v, w', x, y)
  {
    ChooseIs(w, x, y);
    hide Choose, Ch;
    assert F(i, w, x, y) == Choose(w, x, y);
    assert K(i) == 0x5A827999;
    hide *;
    var u := Blk(l, i, m);
    RoundIs(old(l[..]), h, m, i, v, w, x, y, z, u);
    z', w' := Added(z, Choose(w, x, y), u, 0x5A827999, Rol(v, 5)), Rol(w, 30);
  }

  method R2(l: array<bv32>, v: bv32, w: bv32, x: bv32, y: bv32, z: bv32, i: nat, ghost h: Regs, ghost m: Block)
    returns (z': bv32, w': bv32)
    requires l.Length == 16 && 20 <= i < 40 && At(l[..], h, m, i, v, w, x, y, z)
    modifies l
    ensures At(l[..], h, m, i + 1, z', v, w', x, y)
  {
    hide Parity;
    assert F(i, w, x, y) == Parity(w, x, y);
    assert K(i) == 0x6ED9EBA1;
    hide *;
    var u := Blk(l, i, m);
    RoundIs(old(l[..]), h, m, i, v, w, x, y, z, u);
    z', w' := Added(z, Parity(w, x, y), u, 0x6ED9EBA1, Rol(v, 5)), Rol(w, 30);
  }

  method R3(l: array<bv32>, v: bv32, w: bv32, x: bv32, y: bv32, z: bv32, i: nat, ghost h: Regs, ghost m: Block)
    returns (z': bv32, w': bv32)
    requires l.Length == 16 && 40 <= i < 60 && At(l[..], h, m, i, v, w, x, y, z)
    modifies l
    ensures At(l[..], h, m, i + 1, z', v, w', x, y)
  {
    MajorityIs(w, x, y);
    hide Majority, Maj;
    assert F(i, w, x, y) == Majority(w, x, y);
    assert K(i) == 0x8F1BBCDC;
    hide *;
    var u := Blk(l, i, m);
    RoundIs(old(l[..]), h, m, i, v, w, x, y, z, u);
    z', w' := Added(z, Majority(w, x, y), u, 0x8F1BBCDC, Rol(v, 5)), Rol(w, 30);
  }

  method R4(l: array<bv32>, v: bv32, w: bv32, x: bv32, y: bv32, z: bv32, i: nat, ghost h: Regs, ghost m: Block)
    returns (z': bv32, w': bv32)
    requires l.Length == 16 && 60 <= i < 80 && At(l[..], h, m, i, v, w, x, y, z)
    modifies l
    ensures At(l[..], h, m, i + 1, z', v, w', x, y)
  {
    hide Parity;
    assert F(i, w, x, y) == Parity(w, x, y);
    assert K(i) == 0xCA62C1D6;
    hide *;
    var u := Blk(l, i, m);
    RoundIs(old(l[..]), h, m, i, v, w, x, y, z, u);
    z', w' := Added(z, Parity(w, x, y), u, 0xCA62C1D6, Rol(v, 5)), Rol(w, 30);
  }

  /** Rounds 0 to 19. */
  method DoR01(l: array<bv32>, a0: bv32, b0: bv32, c0: bv32, d0: bv32, e0: bv32, ghost h: Regs, ghost m: Block)
    returns (a: bv32, b: bv32, c: bv32, d: bv32, e: bv32)
    requires l.Length == 16 && At(l[..], h, m, 0, a0, b0, c0, d0, e0)
    modifies l
    ensures At(l[..], h, m, 20, a, b, c, d, e)
  {
    hide *;
    a, b, c, d, e := a0, b0, c0, d0, e0;
    e, b := R0(l, a, b, c, d, e, 0, h, m);
    d, a := R0(l, e, a, b, c, d, 1, h, m);
    c, e := R0(l, d, e, a, b, c, 2, h, m);
    b, d := R0(l, c, d, e, a, b, 3, h, m);
    a, c := R0(l, b, c, d, e, a, 4, h, m);
    e, b := R0(l, a, b, c, d, e, 5, h, m);
    d, a := R0(l, e, a, b, c, d, 6, h, m);
    c, e := R0(l, d, e, a, b, c, 7, h, m);
    b, d := R0(l, c, d, e, a, b, 8, h, m);
    a, c := R0(l, b, c, d, e, a, 9, h, m);
    e, b := R0(l, a, b, c, d, e, 10, h, m);
    d, a := R0(l, e, a, b, c, d, 11, h, m);
    c, e := R0(l, d, e, a, b, c, 12, h, m);
    b, d := R0(l, c, d, e, a, b, 13, h, m);
    a, c := R0(l, b, c, d, e, a, 14, h, m);
    e, b := R0(l, a, b, c, d, e, 15, h, m);
    d, a := R1(l, e, a, b, c, d, 16, h, m);
    c, e := R1(l, d, e, a, b, c, 17, h, m);
    b, d := R1(l, c, d, e, a, b, 18, h, m);
    a, c := R1(l, b, c, d, e, a, 19, h, m);
  }

  /** Rounds 20 to 39. */
  method DoR2(l: array<bv32>, a0: bv32, b0: bv32, c0: bv32, d0: bv32, e0: bv32, ghost h: Regs, ghost m: Block)
    returns (a: bv32, b: bv32, c: bv32, d: bv32, e: bv32)
    requires l.Length == 16 && At(l[..], h, m, 20, a0, b0, c0, d0, e0)
    modifies l
    ensures At(l[..], h, m, 40, a, b, c, d, e)
  {
    hide *;
    a, b, c, d, e := a0, b0, c0, d0, e0;
    e, b := R2(l, a, b, c, d, e, 20, h, m);
    d, a := R2(l, e, a, b, c, d, 21, h, m);
    c, e := R2(l, d, e, a, b, c, 22, h, m);
    b, d := R2(l, c, d, e, a, b, 23, h, m);
    a, c := R2(l, b, c, d, e, a, 24, h, m);
    e, b := R2(l, a, b, c, d, e, 25, h, m);
    d, a := R2(l, e, a, b, c, d, 26, h, m);
    c, e := R2(l, d, e, a, b, c, 27, h, m);
    b, d := R2(l, c, d, e, a, b, 28, h, m);
    a, c := R2(l, b, c, d, e, a, 29, h, m);
    e, b := R2(l, a, b, c, d, e, 30, h, m);
    d, a := R2(l, e, a, b, c, d, 31, h, m);
    c, e := R2(l, d, e, a, b, c, 32, h, m);
    b, d := R2(l, c, d, e, a, b, 33, h, m);
    a, c := R2(l, b, c, d, e, a, 34, h, m);
    e, b := R2(l, a, b, c, d, e, 35, h, m);
    d, a := R2(l, e, a, b, c, d, 36, h, m);
    c, e := R2(l, d, e, a, b, c, 37, h, m);
    b, d := R2(l, c, d, e, a, b, 38, h, m);
    a, c := R2(l, b, c, d, e, a, 39, h, m);
  }

  /** Rounds 40 to 59. */
  method DoR3(l: array<bv32>, a0: bv32, b0: bv32, c0: bv32, d0: bv32, e0: bv32, ghost h: Regs, ghost m: Block)
    returns (a: bv32, b: bv32, c: bv32, d: bv32, e: bv32)
    requires l.Length == 16 && At(l[..], h, m, 40, a0, b0, c0, d0, e0)
    modifies l
    ensures At(l[..], h, m, 60, a, b, c, d, e)
  {
    hide *;
    a, b, c, d, e := a0, b0, c0, d0, e0;
    e, b := R3(l, a, b, c, d, e, 40, h, m);
    d, a := R3(l, e, a, b, c, d, 41, h, m);
    c, e := R3(l, d, e, a, b, c, 42, h, m);
    b, d := R3(l, c, d, e, a, b, 43, h, m);
    a, c := R3(l, b, c, d, e, a, 44, h, m);
    e, b := R3(l, a, b, c, d, e, 45, h, m);
    d, a := R3(l, e, a, b, c, d, 46, h, m);
    c, e := R3(l, d, e, a, b, c, 47, h, m);
    b, d := R3(l, c, d, e, a, b, 48, h, m);
    a, c := R3(l, b, c, d, e, a, 49, h, m);
    e, b := R3(l, a, b, c, d, e, 50, h, m);
    d, a := R3(l, e, a, b, c, d, 51, h, m);
    c, e := R3(l, d, e, a, b, c, 52, h, m);
    b, d := R3(l, c, d, e, a, b, 53, h, m);
    a, c := R3(l, b, c, d, e, a, 54, h, m);
    e, b := R3(l, a, b, c, d, e, 55, h, m);
    d, a := R3(l, e, a, b, c, d, 56, h, m);
    c, e := R3(l, d, e, a, b, c, 57, h, m);
    b, d := R3(l, c, d, e, a, b, 58, h, m);
    a, c := R3(l, b, c, d, e, a, 59, h, m);
  }

  /** Rounds 60 to 79. */
  method DoR4(l: array<bv32>, a0: bv32, b0: bv32, c0: bv32, d0: bv32, e0: bv32, ghost h: Regs, ghost m: Block)
    returns (a: bv32, b: bv32, c: bv32, d: bv32, e: bv32)
    requires l.Length == 16 && At(l[..], h, m, 60, a0, b0, c0, d0, e0)
    modifies l
    ensures At(l[..], h, m, 80, a, b, c, d, e)
  {
    hide *;
    a, b, c, d, e := a0, b0, c0, d0, e0;
    e, b := R4(l, a, b, c, d, e, 60, h, m);
    d, a := R4(l, e, a, b, c, d, 61, h, m);
    c, e := R4(l, d, e, a, b, c, 62, h, m);
    b, d := R4(l, c, d, e, a, b, 63, h, m);
    a, c := R4(l, b, c, d, e, a, 64, h, m);
    e, b := R4(l, a, b, c, d, e, 65, h, m);
    d, a := R4(l, e, a, b, c, d, 66, h, m);
    c, e := R4(l, d, e, a, b, c, 67, h, m);
    b, d := R4(l, c, d, e, a, b, 68, h, m);
    a, c := R4(l, b, c, d, e, a, 69, h, m);
    e, b := R4(l, a, b, c, d, e, 70, h, m);
    d, a := R4(l, e, a, b, c, d, 71, h, m);
    c, e := R4(l, d, e, a, b, c, 72, h, m);
    b, d := R4(l, c, d, e, a, b, 73, h, m);
    a, c := R4(l, b, c, d, e, a, 74, h, m);
    e, b := R4(l, a, b, c, d, e, 75, h, m);
    d, a := R4(l, e, a, b, c, d, 76, h, m);
    c, e := R4(l, d, e, a, b, c, 77, h, m);
    b, d := R4(l, c, d, e, a, b, 78, h, m);
    a, c := R4(l, b, c, d, e, a, 79, h, m);
  }

  /** The block as little-endian words. */
  function Load(m: Block): seq<bv32> {
    seq(16, t requires 0 <= t < 16 => LittleEndian(m[4 * t], m[4 * t + 1], m[4 * t + 2], m[4 * t + 3]))
  }

  function RegsOf(s: seq<bv32>): Regs
    requires |s| == 5
  {
    Regs(s[0], s[1], s[2], s[3], s[4])
  }

  /** SHA1Transform: the compression of FIPS 180-1. */
  method Transform(state: array<bv32>, buffer: Block)
    requires state.Length == 5
    modifies state
    ensures RegsOf(state[..]) == Compress(old(RegsOf(state[..])), buffer)
  {
    ghost var h := RegsOf(state[..]);
    assert h == Regs(state[0], state[1], state[2], state[3], state[4]);
    var block := CopyBlock(buffer);
    var a, b, c, d, e := state[0], state[1], state[2], state[3], state[4];
    StartAt(block[..], h, buffer);
    hide *;
    a, b, c, d, e := DoR01(block, a, b, c, d, e, h, buffer);
    a, b, c, d, e := DoR2(block, a, b, c, d, e, h, buffer);
    a, b, c, d, e := DoR3(block, a, b, c, d, e, h, buffer);
    a, b, c, d, e := DoR4(block, a, b, c, d, e, h, buffer);
    RegsAt(block[..], h, buffer, 80, a, b, c, d, e);
    Finished(h, buffer, a, b, c, d, e);
    state[0] := Add(state[0], a);
    state[1] := Add(state[1], b);
    state[2] := Add(state[2], c);
    state[3] := Add(state[3], d);
    state[4] := Add(state[4], e);
  }

  /** The copy into the workspace. */
  method CopyBlock(m: Block) returns (l: array<bv32>)
    ensures fresh(l) && l[..] == Load(m)
  {
    hide LittleEndian;
    l := new bv32[16](t requires 0 <= t < 16 => LittleEndian(m[4 * t], m[4 * t + 1], m[4 * t + 2], m[4 * t + 3]));
  }

  lemma StartAt(l: seq<bv32>, h: Regs, m: Block)
    requires l == Load(m)
    ensures At(l, h, m, 0, h.a, h.b, h.c, h.d, h.e)
  {
    hide LittleEndian, Schedule;
  }

  lemma Finished(h: Regs, m: Block, a: bv32, b: bv32, c: bv32, d: bv32, e: bv32)
    requires Steps(h, m, 80) == Regs(a, b, c, d, e)
    ensures Compress(h, m) == Regs(Add(h.a, a), Add(h.b, b), Add(h.c, c), Add(h.d, d), Add(h.e, e))
  {
    hide Add, Steps;
  }

  lemma RegsAt(l: seq<bv32>, h: Regs, m: Block, i: nat, v: bv32, w: bv32, x: bv32, y: bv32, z: bv32)
    requires At(l, h, m, i, v, w, x, y, z)
    ensures Steps(h, m, i) == Regs(v, w, x, y, z)
  {
  }

  // ---- hashing a message ----

  const IV: Regs := Regs(0x67452301, 0xEFCDAB89, 0x98BADCFE, 0x10325476, 0xC3D2E1F0)

  /** The registers after the blocks of s. */
  function Fold(s: seq<bv8>): Regs
    requires |s| % 64 == 0
  {
    if s == [] then IV else Compress(Fold(s[..|s| - 64]), s[|s| - 64..])
  }

  lemma FoldNext(s: seq<bv8>, k: nat)
    requires k % 64 == 0 && k + 64 <= |s|
    ensures Fold(s[..k + 64]) == Compress(Fold(s[..k]), s[k..k + 64])
  {
    hide Compress;
    var t := s[..k + 64];
    assert t[..|t| - 64] == s[..k] && t[|t| - 64..] == s[k..k + 64];
  }

  function Zeros(n: nat): (z: seq<bv8>)
    ensures |z| == n
  {
    seq(n, _ => 0)
  }

  /** Byte k of a word, counted from the low end. */
  function ByteOf(w: nat, k: nat): bv8 {
    (Shr(w, 8 * k) % 256) as bv8
  }

  /** A 64-bit length, most significant byte first. */
  function LengthBytes(high: nat, low: nat): (z: seq<bv8>)
    ensures |z| == 8
  {
    seq(8, i requires 0 <= i < 8 => ByteOf(if i >= 4 then low else high, 3 - i % 4))
  }

  /** How many zeros follow the one bit: the fewest that leave room for the length. */
  function PadZeros(n: nat): (k: nat)
    ensures k < 64 && (n + 1 + k) % 64 == 56
  {
    (119 - n % 64) % 64
  }

  lemma PadLength(n: nat)
    ensures (n + 1 + PadZeros(n) + 8) % 64 == 0
  {
    var x := n + 1 + PadZeros(n);
    Remainder(x + 8, 64, x / 64 + 1, 0);
  }

  /** The message padded, with a given length field. */
  function PadWith(m: seq<bv8>, high: nat, low: nat): (p: seq<bv8>)
    ensures |p| % 64 == 0
  {
    PadLength(|m|);
    m + [0x80] + Zeros(PadZeros(|m|)) + LengthBytes(high, low)
  }

  /** The padding of section 4: the length field holds the length in bits. */
  function Pad(m: seq<bv8>): (p: seq<bv8>)
    ensures |p| % 64 == 0
  {
    PadWith(m, 8 * |m| / WORD % WORD, 8 * |m| % WORD)
  }

  /** Byte k of a word, counted from the high end. */
  function WordByte(w: bv32, k: nat): bv8
    requires k < 4
  {
    if k == 0 then ((w >> 24) & 0xFF) as bv8
    else if k == 1 then ((w >> 16) & 0xFF) as bv8
    else if k == 2 then ((w >> 8) & 0xFF) as bv8
    else (w & 0xFF) as bv8
  }

  function DigestOf(r: Regs): seq<bv8> {
    seq(20, i requires 0 <= i < 20 => WordByte([r.a, r.b, r.c, r.d, r.e][i / 4], i % 4))
  }

  /** The digest's bytes, read as words with the most significant byte first, are the registers. */
  lemma DigestReadsBack(r: Regs, i: nat)
    requires i < 5
    ensures var d := DigestOf(r); |d| == 20 && BigEndian(d[4 * i], d[4 * i + 1], d[4 * i + 2], d[4 * i + 3]) == [r.a, r.b, r.c, r.d, r.e][i]
  {
    var w := [r.a, r.b, r.c, r.d, r.e][i];
    WordBytes(w);
    DigestByte(r, i, 0);
    DigestByte(r, i, 1);
    DigestByte(r, i, 2);
    DigestByte(r, i, 3);
    hide WordByte, BigEndian, DigestOf;
  }

  lemma DigestByte(r: Regs, i: nat, k: nat)
    requires i < 5 && k < 4
    ensures |DigestOf(r)| == 20 && DigestOf(r)[4 * i + k] == WordByte([r.a, r.b, r.c, r.d, r.e][i], k)
  {
    hide WordByte;
    assert (4 * i + k) / 4 == i && (4 * i + k) % 4 == k;
  }

  /** The first i bytes of the digest of the registers s. */
  ghost predicate DigestSoFar(s: seq<bv32>, digest: seq<bv8>, i: nat) {
    |s| == 5 && i <= 20 && digest == DigestOf(RegsOf(s))[..i]
  }

  lemma StartDigest(s: seq<bv32>)
    requires |s| == 5
    ensures DigestSoFar(s, [], 0)
  {
    hide WordByte;
  }

  lemma NextByte(s: seq<bv32>, digest: seq<bv8>, i: nat)
    requires DigestSoFar(s, digest, i) && i < 20
    ensures DigestSoFar(s, digest + [WordByte(s[i / 4], i % 4)], i + 1)
  {
    hide WordByte;
    DigestByte(RegsOf(s), i / 4, i % 4);
    hide DigestOf;
  }

  lemma WholeDigest(s: seq<bv32>, digest: seq<bv8>)
    requires DigestSoFar(s, digest, 20)
    ensures digest == DigestOf(RegsOf(s))
  {
    hide WordByte;
  }

  lemma WordBits(w: bv32)
    ensures ((((w >> 24) & 0xFF) as bv8 as bv32) << 24) | ((((w >> 16) & 0xFF) as bv8 as bv32) << 16)
      | ((((w >> 8) & 0xFF) as bv8 as bv32) << 8) | ((w & 0xFF) as bv8 as bv32) == w
  {
  }

  lemma WordBytes(w: bv32)
    ensures BigEndian(WordByte(w, 0), WordByte(w, 1), WordByte(w, 2), WordByte(w, 3)) == w
  {
    WordBits(w);
  }

  // ---- the bit count ----

  /** What Update does to the two count words. */
  function CountLow(low: nat, len: nat): nat {
    (low + 8 * len % WORD) % WORD
  }

  function CountHigh(low: nat, high: nat, len: nat): nat {
    if CountLow(low, len) < low then (high + len / 0x2000_0000 + 1) % WORD else high
  }

  /**
   The 64-bit count of bits is exact exactly when the low word wraps or the piece is shorter than 2^29 bytes: the high
   bits of a longer piece are added only together with a carry.
   */
  lemma CountExactIff(low: nat, high: nat, len: nat)
    requires low < WORD && high < WORD && len < WORD
    ensures CountHigh(low, high, len) * WORD + CountLow(low, len) == (high * WORD + low + 8 * len) % (WORD * WORD)
      <==> CountLow(low, len) < low || len < 0x2000_0000
  {
    var q, r := len / 0x2000_0000, 8 * len % WORD;
    assert 8 * len == q * WORD + r;
    var c := if low + r < WORD then 0 else 1;
    assert CountLow(low, len) == low + r - c * WORD;
    assert c == 1 <==> CountLow(low, len) < low;
    var total := high + q + c;
    assert high * WORD + low + 8 * len == total * WORD + CountLow(low, len);
    SplitMod(total, CountLow(low, len));
    assert q < 8;
    if c == 0 { assert total % WORD == high <==> q == 0; }
  }

  lemma SplitMod(a: nat, b: nat)
    requires b < WORD
    ensures (a * WORD + b) % (WORD * WORD) == a % WORD * WORD + b
  {
  }

  /** For instance one piece of 2^29 bytes into a fresh context: 2^32 bits, counted as none. */
  lemma CountLost()
    ensures CountLow(0, 0x2000_0000) == 0 == CountHigh(0, 0, 0x2000_0000)
    ensures 8 * 0x2000_0000 % (WORD * WORD) == WORD
  {
  }

  /** The low word is always right. */
  lemma CountLowKept(n: nat, len: nat)
    ensures CountLow(8 * n % WORD, len) == 8 * (n + len) % WORD
  {
    var h, low, q, r := 8 * n / WORD, 8 * n % WORD, 8 * len / WORD, 8 * len % WORD;
    assert 8 * (n + len) == (h + q) * WORD + (low + r);
    if low + r < WORD {
      Remainder(8 * (n + len), WORD, h + q, low + r);
    } else {
      Remainder(8 * (n + len), WORD, h + q + 1, low + r - WORD);
    }
  }

  /** The high word, right before a piece, is right after it under the same condition. */
  lemma CountHighKept(n: nat, len: nat)
    requires len < WORD
    ensures var low, high := 8 * n % WORD, 8 * n / WORD % WORD;
      CountHigh(low, high, len) == 8 * (n + len) / WORD % WORD <==> CountLow(low, len) < low || len < 0x2000_0000
  {
    var low, high, x := 8 * n % WORD, 8 * n / WORD % WORD, 8 * (n + len);
    CountExactIff(low, high, len);
    CountLowKept(n, len);
    hide CountLow, CountHigh;
    SplitCount(8 * n, 8 * len);
    SplitMod(x / WORD, x % WORD);
  }

  lemma SplitCount(x: nat, y: nat)
    ensures (x / WORD % WORD * WORD + x % WORD + y) % (WORD * WORD) == (x + y) % (WORD * WORD)
  {
    var k := x / WORD / WORD;
    assert x == k * (WORD * WORD) + (x / WORD % WORD * WORD + x % WORD);
    var z := x / WORD % WORD * WORD + x % WORD + y;
    var q, r := z / (WORD * WORD), z % (WORD * WORD);
    assert x + y == (k + q) * (WORD * WORD) + r;
    Remainder(x + y, WORD * WORD, k + q, r);
  }

  lemma ByteIndex(n: nat)
    ensures BitwiseAnd(Shr(8 * n % WORD, 3), 63) == n % 64
    ensures BitwiseAnd(8 * n % WORD, 504) == 8 * (n % 64)
  {
    var w := 8 * n % WORD;
    Pow2Values();
    AndLow(Shr(w, 3), 6);
    ShrIsQuotient(w, 3);
    AndShifted(w, 63, 3);
    EighthMod(n);
    hide BitwiseAnd, Shr, Pow2;
  }

  lemma EighthMod(n: nat)
    ensures 8 * n % WORD / 8 % 64 == n % 64
  {
    var q, r := n / 0x2000_0000, n % 0x2000_0000;
    assert 8 * n == q * WORD + 8 * r;
    Remainder(8 * n, WORD, q, 8 * r);
    assert n == 64 * (0x80_0000 * q + r / 64) + r % 64;
    Remainder(n, 64, 0x80_0000 * q + r / 64, r % 64);
  }

  // ---- the context ----

  function Whole(n: nat): nat {
    n - n % 64
  }

  /** The registers and the buffer hold message m: its whole blocks folded, the rest in the buffer. */
  ghost predicate Hashed(state: seq<bv32>, buffer: seq<bv8>, m: seq<bv8>) {
    && |state| == 5 && |buffer| == 64
    && RegsOf(state) == Fold(m[..Whole(|m|)])
    && buffer[..|m| % 64] == m[Whole(|m|)..]
  }

  class Context {
    const state: array<bv32>
    const buffer: array<bv8>
    var count0: nat
    var count1: nat
    ghost var message: seq<bv8>

    ghost predicate Valid()
      reads this, state, buffer
    {
      && state.Length == 5 && buffer.Length == 64
      && count0 == 8 * |message| % WORD && count1 < WORD
      && Hashed(state[..], buffer[..], message)
    }

    /** The high word of the count is right too. */
    ghost predicate Exact()
      reads this
    {
      count1 == 8 * |message| / WORD % WORD
    }

    /** SHA1Init */
    constructor ()
      ensures Valid() && Exact() && fresh(state) && fresh(buffer) && message == []
    {
      state := new bv32[] [0x67452301, 0xEFCDAB89, 0x98BADCFE, 0x10325476, 0xC3D2E1F0];
      buffer := new bv8[64](_ => 0);
      count0, count1, message := 0, 0, [];
    }

    method CopyIn(j: nat, data: seq<bv8>)
      requires buffer.Length == 64 && j + |data| <= 64
      modifies buffer
      ensures buffer[..] == old(buffer[..])[..j] + data + old(buffer[..])[j + |data|..]
    {
      forall k | 0 <= k < |data| {
        buffer[j + k] := data[k];
      }
    }

    /**
     SHA1Update, for every piece whose length leaves room in the 32-bit index arithmetic: the context then holds the
     message with data appended, and its count stays exact exactly if the low word wraps or the piece is below 2^29 bytes.
     */
    method Update(data: seq<bv8>)
      requires Valid() && |data| <= WORD - 64
      modifies this`count0, this`count1, this`message, state, buffer
      ensures Valid() && message == old(message) + data
      ensures old(Exact()) ==> (Exact() <==> count0 < old(count0) || |data| < 0x2000_0000)
    {
      hide Hashed;
      var len := |data|;
      ghost var n, m := |message|, message + data;
      CountLowKept(n, len);
      CountHighKept(n, len);
      ByteIndex(n);
      var j := count0;
      count0 := (count0 + 8 * len % WORD) % WORD;
      if count0 < j {
        count1 := (count1 + len / 0x2000_0000 + 1) % WORD;
      }
      assert count0 == CountLow(old(count0), len) && count1 == CountHigh(old(count0), old(count1), len);
      j := BitwiseAnd(Shr(j, 3), 63);
      hide BitwiseAnd, Shr, CountLow, CountHigh;
      UpdateBlocks(j, data);
      message := m;
    }

    /** The buffering of SHA1Update, j bytes being in the buffer. */
    method UpdateBlocks(j: nat, data: seq<bv8>)
      requires state.Length == 5 && buffer.Length == 64
      requires Hashed(state[..], buffer[..], message) && j == |message| % 64
      modifies state, buffer
      ensures Hashed(state[..], buffer[..], message + data)
    {
      hide *;
      var i := 0;
      ghost var was, st := buffer[..], state[..];
      if j + |data| > 63 {
        i := 64 - j;
        CopyIn(j, data[..i]);
        FirstBlock(st, was, message, data, buffer[..], i);
        Transform(state, buffer[..]);
        i := WholeBlocks(data, i, message);
        CopyIn(0, data[i..]);
        LastPiece(state[..], buffer[..], message, data, i);
      } else {
        CopyIn(j, data);
        ShortPiece(st, was, message, data, buffer[..]);
      }
    }

    /** The loop of SHA1Update over the blocks inside data. */
    method WholeBlocks(data: seq<bv8>, start: nat, ghost before: seq<bv8>) returns (i: nat)
      requires state.Length == 5 && start <= |data| && (|before| + start) % 64 == 0
      requires RegsOf(state[..]) == Fold((before + data)[..|before| + start])
      modifies state
      ensures i <= |data| < i + 64 && (|before| + i) % 64 == 0
      ensures RegsOf(state[..]) == Fold((before + data)[..|before| + i])
    {
      hide RegsOf, Compress, Fold;
      ghost var n, m := |before|, before + data;
      i := start;
      while i + 63 < |data|
        invariant 0 <= i <= |data| && (n + i) % 64 == 0
        invariant RegsOf(state[..]) == Fold(m[..n + i])
      {
        FoldNext(m, n + i);
        assert data[i..i + 64] == m[n + i..n + i + 64];
        Transform(state, data[i..i + 64]);
        i := i + 64;
      }
    }

    /** The count as eight bytes, taken before the padding changes it. */
    method CountBytes() returns (finalcount: seq<bv8>)
      ensures finalcount == LengthBytes(count1, count0)
    {
      hide ByteOf;
      finalcount := [];
      var i := 0;
      while i < 8
        invariant 0 <= i == |finalcount| <= 8
        invariant forall k | 0 <= k < i :: finalcount[k] == LengthBytes(count1, count0)[k]
      {
        finalcount := finalcount + [ByteOf(if i >= 4 then count0 else count1, 3 - i % 4)];
        i := i + 1;
      }
    }

    /** SHA1Final: the digest of the padded message, whose length field is right if the count is. */
    method Final() returns (digest: seq<bv8>)
      requires Valid()
      modifies this`count0, this`count1, this`message, state, buffer
      ensures digest == DigestOf(Fold(PadWith(old(message), old(count1), old(count0))))
      ensures old(Exact()) ==> digest == DigestOf(Fold(Pad(old(message))))
    {
      hide Hashed, LengthBytes, Fold, Compress, PadWith;
      var finalcount := CountBytes();
      PaddedIs(message, count1, count0);
      PadWithZeros();
      Update(finalcount);
      AllHashed(state[..], buffer[..], message);
      digest := DigestBytes();
    }

    /** The registers as bytes, each most significant first. */
    method DigestBytes() returns (digest: seq<bv8>)
      requires state.Length == 5
      ensures digest == DigestOf(RegsOf(state[..]))
    {
      hide *;
      ghost var st := state[..];
      digest := [];
      var i := 0;
      StartDigest(st);
      while i < 20
        invariant 0 <= i <= 20 && DigestSoFar(st, digest, i)
      {
        NextByte(st, digest, i);
        digest := digest + [WordByte(state[i / 4], i % 4)];
        i := i + 1;
      }
      WholeDigest(st, digest);
    }

    /** The one bit and the zeros of the padding. */
    method PadWithZeros()
      requires Valid()
      modifies this`count0, this`count1, this`message, state, buffer
      ensures Valid() && message == old(message) + [0x80] + Zeros(PadZeros(|old(message)|))
    {
      hide Hashed, BitwiseAnd, Zeros, PadZeros;
      ghost var m, k := message, 0;
      Update([0x80]);
      ZeroMore(m, 0);
      PaddedEnough(|m|, 0);
      ByteIndex(|message|);
      while BitwiseAnd(count0, 504) != 448
        invariant Valid() && k <= PadZeros(|m|)
        invariant message == m + [0x80] + Zeros(k)
        invariant BitwiseAnd(count0, 504) == 448 <==> k == PadZeros(|m|)
        decreases PadZeros(|m|) - k
      {
        Update([0]);
        ZeroMore(m, k);
        k := k + 1;
        ByteIndex(|message|);
        PaddedEnough(|m|, k);
      }
    }
  }

  lemma ZeroMore(m: seq<bv8>, k: nat)
    ensures m + [0x80] + Zeros(k) + [0] == m + [0x80] + Zeros(k + 1)
    ensures m + [0x80] + Zeros(0) == m + [0x80]
  {
    assert Zeros(k) + [0] == Zeros(k + 1);
  }

  /** The padding loop stops exactly at the fewest zeros. */
  lemma PaddedEnough(n: nat, k: nat)
    requires k <= PadZeros(n)
    ensures (n + 1 + k) % 64 == 56 <==> k == PadZeros(n)
  {
  }

  lemma PaddedIs(m: seq<bv8>, high: nat, low: nat)
    ensures PadWith(m, high, low) == m + [0x80] + Zeros(PadZeros(|m|)) + LengthBytes(high, low)
  {
  }

  lemma AllHashed(state: seq<bv32>, buffer: seq<bv8>, m: seq<bv8>)
    requires Hashed(state, buffer, m) && |m| % 64 == 0
    ensures RegsOf(state) == Fold(m)
  {
    assert m[..|m|] == m;
    hide Fold, RegsOf;
  }

  lemma WholeSpec(n: nat)
    ensures Whole(n) % 64 == 0 && Whole(n) + n % 64 == n
  {
  }

  lemma WholeIs(n: nat, k: nat)
    requires k % 64 == 0 && k <= n < k + 64
    ensures Whole(n) == k && n % 64 == n - k
  {
    Remainder(n, 64, k / 64, n - k);
  }

  /** The first transform takes what was in the buffer and the first bytes of data: the next block of the message. */
  lemma FirstBlock(state: seq<bv32>, was: seq<bv8>, message: seq<bv8>, data: seq<bv8>, buffer: seq<bv8>, i: nat)
    requires Hashed(state, was, message) && i == 64 - |message| % 64 && i <= |data|
    requires buffer == was[..|message| % 64] + data[..i] + was[64..]
    ensures |buffer| == 64 && (|message| + i) % 64 == 0
    ensures Fold((message + data)[..|message| + i]) == Compress(RegsOf(state), buffer)
  {
    hide Fold, Compress, RegsOf;
    var m, k := message + data, Whole(|message|);
    WholeSpec(|message|);
    hide Whole;
    FoldNext(m, k);
    assert m[..k] == message[..k];
    assert m[k..k + 64] == message[k..] + data[..i];
    assert buffer == message[k..] + data[..i];
    assert |message| + i == k + 64;
  }

  lemma LastPiece(state: seq<bv32>, buffer: seq<bv8>, message: seq<bv8>, data: seq<bv8>, i: nat)
    requires |state| == 5 && |buffer| == 64 && i <= |data| < i + 64 && (|message| + i) % 64 == 0
    requires RegsOf(state) == Fold((message + data)[..|message| + i]) && buffer[..|data| - i] == data[i..]
    ensures Hashed(state, buffer, message + data)
  {
    hide Fold, RegsOf;
    var m := message + data;
    WholeIs(|m|, |message| + i);
    hide Whole;
    assert m[|message| + i..] == data[i..];
  }

  lemma ShortPiece(state: seq<bv32>, was: seq<bv8>, message: seq<bv8>, data: seq<bv8>, buffer: seq<bv8>)
    requires Hashed(state, was, message) && |message| % 64 + |data| <= 63
    requires var j := |message| % 64; buffer == was[..j] + data + was[j + |data|..]
    ensures Hashed(state, buffer, message + data)
  {
    hide Fold, RegsOf;
    var m, k, j := message + data, Whole(|message|), |message| % 64;
    WholeSpec(|message|);
    WholeIs(|m|, k);
    hide Whole;
    assert m[..k] == message[..k];
    assert m[k..] == message[k..] + data;
    assert buffer[..j + |data|] == was[..j] + data;
  }
}
