/**
 arc4random: the RC4 table, when it is stirred, and the reduction of 32-bit
 draws to a range without bias.
 */
module Arc4 {
  import opened Words

  // ---- the stream ----

  /** RC4's two indices and its table, all bytes. */
  datatype Stream = Stream(i: nat, j: nat, s: seq<nat>)

  /** The table is a permutation of 0..255. */
  ghost predicate Permutation(s: seq<nat>) {
    && |s| == 256
    && (forall k | 0 <= k < 256 :: s[k] < 256)
    && (forall k, l | 0 <= k < l < 256 :: s[k] != s[l])
  }

  ghost predicate StreamOK(t: Stream) {
    t.i < 256 && t.j < 256 && Permutation(t.s)
  }

  /** Byte arithmetic. */
  function Wrap(x: nat): (w: nat)
    ensures w < 256
  {
    x % 256
  }

  function Swap(s: seq<nat>, i: nat, j: nat): seq<nat>
    requires i < |s| && j < |s|
  {
    s[i := s[j]][j := s[i]]
  }

  lemma SwapKeeps(s: seq<nat>, i: nat, j: nat)
    requires Permutation(s) && i < 256 && j < 256
    ensures Permutation(Swap(s, i, j)) && Swap(Swap(s, i, j), i, j) == s
  {
  }

  /** One step of the stream; key is 0 when drawing and a byte of the key when stirring. */
  function Next(t: Stream, key: nat): (u: Stream)
    requires |t.s| == 256
    ensures |u.s| == 256
  {
    var i := Wrap(t.i + 1);
    var j := (t.j + t.s[i] + key) % 256;
    Stream(i, j, Swap(t.s, i, j))
  }

  function Previous(t: Stream, key: nat): Stream
    requires StreamOK(t)
  {
    var s := Swap(t.s, t.i, t.j);
    Stream((t.i + 255) % 256, (t.j - s[t.i] - key) % 256, s)
  }

  /** A step keeps the table a permutation and loses nothing: it can be undone. */
  lemma NextReversible(t: Stream, key: nat)
    requires StreamOK(t)
    ensures StreamOK(Next(t, key)) && Previous(Next(t, key), key) == t
  {
    var u := Next(t, key);
    SwapKeeps(t.s, u.i, u.j);
    Wrapped(t.j, t.s[u.i], key);
    assert (u.i + 255) % 256 == t.i;
  }

  lemma Wrapped(j: nat, a: nat, key: nat)
    requires j < 256
    ensures ((j + a + key) % 256 - a - key) % 256 == j
  {
    var x := j + a + key;
    var q := x / 256;
    assert x % 256 - a - key == j - 256 * q;
    Shifted(j, q);
  }

  lemma Shifted(j: nat, q: nat)
    requires j < 256
    ensures (j - 256 * q) % 256 == j
  {
  }

  /** The byte drawn after a step. */
  function Output(t: Stream): nat
    requires |t.s| == 256
  {
    t.s[(t.s[t.i % 256] + t.s[t.j % 256]) % 256]
  }

  lemma DrawOK(t: Stream)
    requires StreamOK(t)
    ensures StreamOK(Next(t, 0)) && Output(Next(t, 0)) < 256
  {
    NextReversible(t, 0);
  }

  /** The key byte of step n: the key is repeated. */
  function Key(dat: seq<nat>, n: nat): nat
    requires |dat| > 0
  {
    dat[n % |dat|]
  }

  /** n steps with the key repeated, as stirring takes them. */
  function Keyed(t: Stream, dat: seq<nat>, n: nat): (u: Stream)
    requires |t.s| == 256 && |dat| > 0
    ensures |u.s| == 256
  {
    if n == 0 then t else Next(Keyed(t, dat, n - 1), Key(dat, n - 1))
  }

  lemma {:induction false} KeyedOK(t: Stream, dat: seq<nat>, n: nat)
    requires StreamOK(t) && |dat| > 0
    ensures StreamOK(Keyed(t, dat, n))
  {
    if n > 0 {
      KeyedOK(t, dat, n - 1);
      NextOK(Keyed(t, dat, n - 1), Key(dat, n - 1));
      hide StreamOK, Next, Key;
    }
  }

  /** Each step moves the first index on by one. */
  lemma {:induction false} KeyedIndex(t: Stream, dat: seq<nat>, n: nat)
    requires |t.s| == 256 && t.i < 256 && |dat| > 0
    ensures Keyed(t, dat, n).i == Wrap(t.i + n)
  {
    hide Swap, Key;
    if n > 0 {
      KeyedIndex(t, dat, n - 1);
      WrapStep(t.i + n - 1);
      hide Wrap;
      assert Keyed(t, dat, n).i == Wrap(Keyed(t, dat, n - 1).i + 1);
    }
  }

  lemma NextOK(t: Stream, key: nat)
    requires StreamOK(t)
    ensures StreamOK(Next(t, key))
  {
    NextReversible(t, key);
  }

  lemma SameTable(t: Stream, u: Stream)
    requires StreamOK(t) && u.s == t.s && u.i < 256 && u.j < 256
    ensures StreamOK(u)
  {
  }

  lemma KeyedStep(t: Stream, dat: seq<nat>, n: nat)
    requires |t.s| == 256 && |dat| > 0
    ensures Keyed(t, dat, 0) == t && Keyed(t, dat, n + 1) == Next(Keyed(t, dat, n), Key(dat, n))
  {
    hide Next, Key;
  }

  lemma ZeroKey(n: nat)
    ensures Key([0], n) == 0
  {
  }

  lemma WrapStep(x: nat)
    ensures Wrap(Wrap(x) + 1) == Wrap(x + 1)
  {
  }

  /** The stream arc4_init starts from: the identity table. */
  function Identity(): (t: Stream)
    ensures |t.s| == 256
  {
    Stream(0, 0, seq(256, k => k))
  }

  /** What arc4_addrandom makes of a stream. */
  function Mixed(t: Stream, dat: seq<nat>): (u: Stream)
    requires |t.s| == 256 && |dat| > 0
    ensures |u.s| == 256
  {
    var u := Keyed(t.(i := Wrap(t.i + 255)), dat, 256);
    u.(j := u.i)
  }

  /** What arc4_stir makes of a stream: the entropy mixed in, 256 bytes thrown away. */
  function Stirred(t: Stream, dat: seq<nat>): (u: Stream)
    requires |t.s| == 256 && |dat| > 0
    ensures |u.s| == 256
  {
    Keyed(Mixed(t, dat), [0], 256)
  }

  /** The word the next four bytes make, the first most significant, and the stream after them. */
  function NextWord(t: Stream): (r: (nat, Stream))
    requires |t.s| == 256
    ensures |r.1.s| == 256
  {
    var t1 := Next(t, 0);
    var t2 := Next(t1, 0);
    var t3 := Next(t2, 0);
    var t4 := Next(t3, 0);
    (Output(t1) * 0x100_0000 + Output(t2) * 0x1_0000 + Output(t3) * 0x100 + Output(t4), t4)
  }

  class Generator {
    var i: nat
    var j: nat
    const s: array<nat>
    var initialized: bool
    var count: int
    var stirPid: int
    /** Bytes drawn since the last stirring. */
    ghost var drawn: int

    /** Once initialized the table is a permutation. */
    ghost predicate TableOK()
      reads this, s
    {
      s.Length == 256 && i < 256 && j < 256 && (initialized ==> StreamOK(Value()))
    }

    /** Between calls: no more than 1,600,003 bytes are drawn from one stirring. */
    ghost predicate Valid()
      reads this, s
    {
      TableOK() && (initialized ==> 1 <= count <= 1_600_000 && 0 <= drawn && drawn + count <= 1_600_004)
    }

    ghost function Value(): Stream
      reads this, s
    {
      Stream(i, j, s[..])
    }

    /** The stream a stirring would start from. */
    ghost function Current(): (t: Stream)
      requires s.Length == 256
      reads this, s
      ensures |t.s| == 256
    {
      if initialized then Value() else Identity()
    }

    constructor ()
      ensures Valid() && !initialized
    {
      i, j, initialized, count, stirPid, drawn := 0, 0, false, 0, 0, 0;
      s := new nat[256](_ => 0);
    }

    /** arc4_init: the identity table. */
    method Init()
      requires s.Length == 256
      modifies this`i, this`j, s
      ensures StreamOK(Value()) && Value() == Identity()
    {
      var n := 0;
      while n < 256
        invariant 0 <= n <= 256
        invariant forall k | 0 <= k < n :: s[k] == k
      {
        s[n] := n;
        n := n + 1;
      }
      i, j := 0, 0;
    }

    /** The loop body of arc4_addrandom. */
    method Mix(key: nat)
      requires s.Length == 256 && i < 256 && j < 256
      modifies this`i, this`j, s
      ensures Value() == Next(old(Value()), key) && i < 256 && j < 256
    {
      i := (i + 1) % 256;
      var si := s[i];
      j := (j + si + key) % 256;
      s[i] := s[j];
      s[j] := si;
      assert s[..] == Swap(old(s[..]), i, j);
    }

    /** arc4_addrandom: 256 keyed steps from the index before; the two indices then agree. */
    method AddRandom(dat: seq<nat>)
      requires s.Length == 256 && StreamOK(Value()) && |dat| > 0
      modifies this`i, this`j, s
      ensures StreamOK(Value()) && i == (old(i) + 255) % 256 && j == i
      ensures Value() == Mixed(old(Value()), dat)
    {
      i := (i + 255) % 256;
      ghost var start := Value();
      assert StreamOK(start);
      hide StreamOK, Keyed, Next, Key;
      MixAll(dat);
      KeyedOK(start, dat, 256);
      KeyedIndex(start, dat, 256);
      j := i;
      SameTable(Keyed(start, dat, 256), Value());
    }

    /** The loop of arc4_addrandom. */
    method MixAll(dat: seq<nat>)
      requires s.Length == 256 && i < 256 && j < 256 && |dat| > 0
      modifies this`i, this`j, s
      ensures i < 256 && j < 256 && Value() == Keyed(old(Value()), dat, 256)
    {
      hide Keyed, Next;
      ghost var start := Value();
      KeyedStep(start, dat, 0);
      var n := 0;
      while n < 256
        invariant 0 <= n <= 256 && i < 256 && j < 256
        invariant Value() == Keyed(start, dat, n)
      {
        KeyedStep(start, dat, n);
        Mix(dat[n % |dat|]);
        n := n + 1;
      }
    }

    /** arc4_getbyte: one step, then the byte the table gives. */
    method GetByte() returns (b: nat)
      requires s.Length == 256 && StreamOK(Value())
      modifies this`i, this`j, this`drawn, s
      ensures Value() == Next(old(Value()), 0) && StreamOK(Value())
      ensures b == Output(Value()) && b < 256 && drawn == old(drawn) + 1
      ensures i == (old(i) + 1) % 256 && j == (old(j) + old(s[(i + 1) % 256])) % 256
      ensures s[i] == old(s[..])[j] && s[j] == old(s[..])[i] && b == s[(s[i] + s[j]) % 256]
    {
      DrawOK(Value());
      b := DrawByte();
    }

    /** The same, said of the stream alone. */
    method NextByte() returns (b: nat)
      requires s.Length == 256 && StreamOK(Value())
      modifies this`i, this`j, this`drawn, s
      ensures Value() == Next(old(Value()), 0) && StreamOK(Value())
      ensures b == Output(Value()) && b < 256 && drawn == old(drawn) + 1
    {
      b := GetByte();
    }

    method DrawByte() returns (b: nat)
      requires s.Length == 256 && i < 256 && j < 256
      modifies this`i, this`j, this`drawn, s
      ensures Value() == Next(old(Value()), 0) && i < 256 && j < 256
      ensures b == Output(Value()) && drawn == old(drawn) + 1
      ensures i == (old(i) + 1) % 256 && j == (old(j) + old(s[(i + 1) % 256])) % 256
      ensures s[i] == old(s[..])[j] && s[j] == old(s[..])[i] && b == s[(s[i] + s[j]) % 256]
    {
      i := (i + 1) % 256;
      var si := s[i];
      j := (j + si) % 256;
      var sj := s[j];
      s[i] := sj;
      s[j] := si;
      drawn := drawn + 1;
      assert s[..] == Swap(old(s[..]), i, j);
      return s[(si + sj) % 256];
    }

    /** arc4_stir, the entropy read being dat. */
    method Stir(dat: seq<nat>, pid: int)
      requires TableOK() && |dat| > 0
      modifies this, s
      ensures Valid() && initialized && count == 1_600_000 && drawn == 0 && stirPid == pid
      ensures Value() == Stirred(old(Current()), dat)
    {
      hide Permutation, Next, Keyed, Output, Mixed, Identity;
      if !initialized {
        Init();
        initialized := true;
      }
      stirPid := pid;
      AddRandom(dat);
      ghost var mixed := Value();
      KeyedStep(mixed, [0], 0);
      var n := 0;
      while n < 256
        invariant 0 <= n <= 256 && StreamOK(Value()) && initialized && stirPid == pid
        invariant Value() == Keyed(mixed, [0], n)
      {
        KeyedStep(mixed, [0], n);
        ZeroKey(n);
        var _ := NextByte();
        n := n + 1;
      }
      count, drawn := 1_600_000, 0;
    }

    /** __arc4_getbyte */
    method Byte(dat: seq<nat>, pid: int) returns (b: nat)
      requires Valid() && |dat| > 0
      modifies this, s
      ensures Valid() && initialized && b < 256
      ensures var t := if old(count) == 1 || !old(initialized) then Stirred(old(Current()), dat) else old(Value());
        Value() == Next(t, 0) && b == Output(Next(t, 0))
      ensures if old(count) == 1 || !old(initialized) then count == 1_600_000 && stirPid == pid
        else count == old(count) - 1 && stirPid == old(stirPid)
    {
      hide Next, Keyed, Output, Stirred, Permutation;
      count := count - 1;
      if count == 0 || !initialized {
        Stir(dat, pid);
      }
      b := GetByte();
    }

    /** arc4_getword: four bytes, the first the most significant. */
    method GetWord() returns (val: nat)
      requires s.Length == 256 && StreamOK(Value())
      modifies this`i, this`j, this`drawn, s
      ensures StreamOK(Value()) && drawn == old(drawn) + 4 && val < WORD
      ensures (val, Value()) == NextWord(old(Value()))
    {
      hide Next, Output, StreamOK;
      var b0 := NextByte();
      var b1 := NextByte();
      var b2 := NextByte();
      var b3 := NextByte();
      assert b0 < 256 && b1 < 256 && b2 < 256 && b3 < 256;
      WordOfBytes(b0, b1, b2, b3);
      val := BitwiseOr(BitwiseOr(BitwiseOr(b0 * 0x100_0000, b1 * 0x1_0000), b2 * 0x100), b3);
    }

    /** arc4random */
    method Random(dat: seq<nat>, pid: int) returns (val: nat)
      requires Valid() && |dat| > 0
      modifies this, s
      ensures Valid() && initialized && val < WORD
      ensures var t := if old(count) <= 4 || !old(initialized) || old(stirPid) != pid then Stirred(old(Current()), dat) else old(Value());
        (val, Value()) == NextWord(t)
      ensures if old(count) <= 4 || !old(initialized) || old(stirPid) != pid then count == 1_600_000 && stirPid == pid
        else count == old(count) - 4 && stirPid == old(stirPid)
    {
      hide Next, Keyed, Output, Stirred, Permutation, NextWord;
      count := count - 4;
      if count <= 0 || !initialized || stirPid != pid {
        Stir(dat, pid);
      }
      val := GetWord();
    }
  }

  lemma WordOfBytes(b0: nat, b1: nat, b2: nat, b3: nat)
    requires b0 < 256 && b1 < 256 && b2 < 256 && b3 < 256
    ensures BitwiseOr(BitwiseOr(BitwiseOr(b0 * 0x100_0000, b1 * 0x1_0000), b2 * 0x100), b3)
      == b0 * 0x100_0000 + b1 * 0x1_0000 + b2 * 0x100 + b3
  {
    Pow2Values();
    assert Pow2(24) == 0x100_0000;
    OrLow(b0, b1 * 0x1_0000, 24);
    OrLow(b0 * 0x100 + b1, b2 * 0x100, 16);
    OrLow(b0 * 0x1_0000 + b1 * 0x100 + b2, b3, 8);
    hide BitwiseOr, Pow2;
  }

  // ---- arc4random_uniform ----

  /** 2^32 mod bound, in 32-bit arithmetic. */
  method LeastAccepted(bound: nat) returns (min: nat)
    requires 2 <= bound < WORD
    ensures min == WORD % bound
  {
    if bound > 0x8000_0000 {
      min := (1 + Not(bound)) % WORD;
      LargeBound(bound);
    } else {
      min := ((0xffff_ffff - bound * 2 % WORD) + 1) % WORD % bound;
      SameRemainder(bound);
    }
  }

  lemma LargeBound(bound: nat)
    requires 0x8000_0000 < bound < WORD
    ensures (1 + Not(bound)) % WORD == WORD % bound
  {
    Remainder(WORD, bound, 1, WORD - bound);
  }

  lemma SameRemainder(bound: nat)
    requires 2 <= bound <= 0x8000_0000
    ensures ((0xffff_ffff - bound * 2 % WORD) + 1) % WORD % bound == WORD % bound
  {
    if bound == 0x8000_0000 {
    } else {
      var x := WORD - 2 * bound;
      assert ((0xffff_ffff - bound * 2 % WORD) + 1) % WORD == x;
      var q, r := x / bound, x % bound;
      assert x == q * bound + r;
      assert WORD == (q + 2) * bound + r;
      Remainder(WORD, bound, q + 2, r);
    }
  }

  /** The draws that give residue v. */
  ghost function Accepted(bound: nat, v: nat): set<nat>
    requires 2 <= bound < WORD
  {
    set r: nat | r < WORD && WORD % bound <= r && r % bound == v
  }

  /** first, first + bound, ... : n of them. */
  ghost function Progression(first: nat, bound: nat, n: nat): set<nat> {
    if n == 0 then {} else Progression(first, bound, n - 1) + {first + (n - 1) * bound}
  }

  lemma {:induction false} ProgressionSpec(first: nat, bound: nat, n: nat)
    requires bound > 0
    ensures |Progression(first, bound, n)| == n
    ensures forall r: nat :: r in Progression(first, bound, n) <==> InProgression(first, bound, n, r)
  {
    if n > 0 {
      ProgressionSpec(first, bound, n - 1);
      var p, last := Progression(first, bound, n - 1), first + (n - 1) * bound;
      forall r: nat
        ensures InProgression(first, bound, n, r) <==> InProgression(first, bound, n - 1, r) || r == last
      {
        OneMore(first, bound, n, r);
      }
      assert !InProgression(first, bound, n - 1, last);
      assert last !in p;
    } else {
      assert forall r: nat :: !InProgression(first, bound, 0, r);
    }
  }

  predicate InProgression(first: nat, bound: nat, n: nat, r: nat)
    requires bound > 0
  {
    first <= r < first + n * bound && (r - first) % bound == 0
  }

  lemma OneMore(first: nat, bound: nat, n: nat, r: nat)
    requires bound > 0 && n > 0
    ensures InProgression(first, bound, n, r) <==> InProgression(first, bound, n - 1, r) || r == first + (n - 1) * bound
  {
    var last := first + (n - 1) * bound;
    assert first + n * bound == last + bound;
    if last <= r < last + bound { Remainder(r - first, bound, n - 1, r - last); }
  }

  /** Every residue below the bound comes from the same number of draws: no bias. */
  lemma Unbiased(bound: nat, v: nat)
    requires 2 <= bound < WORD && v < bound
    ensures |Accepted(bound, v)| == WORD / bound
  {
    var q, min := WORD / bound, WORD % bound;
    var first := if min <= v then v else v + bound;
    ProgressionSpec(first, bound, q);
    forall r: nat
      ensures r in Accepted(bound, v) <==> r in Progression(first, bound, q)
    {
      Member(bound, v, q, min, r);
    }
    hide Progression;
    assert Accepted(bound, v) == Progression(first, bound, q);
  }

  lemma Member(bound: nat, v: nat, q: nat, min: nat, r: nat)
    requires 2 <= bound < WORD && v < bound && q == WORD / bound && min == WORD % bound
    ensures r < WORD && min <= r && r % bound == v <==> InProgression(if min <= v then v else v + bound, bound, q, r)
  {
    DivMod(WORD, bound);
    DivMod(r, bound);
    MemberCore(bound, v, q, min, r, r / bound, r % bound);
  }

  lemma DivMod(x: nat, m: nat)
    requires m > 0
    ensures x == x / m * m + x % m && x % m < m
  {
  }

  lemma MemberCore(bound: nat, v: nat, q: nat, min: nat, r: nat, k: nat, u: nat)
    requires v < bound && min < bound && u < bound && r == k * bound + u
    ensures r < q * bound + min && min <= r && u == v <==> InProgression(if min <= v then v else v + bound, bound, q, r)
  {
    var first, f := if min <= v then v else v + bound, if min <= v then 0 else 1;
    assert first == f * bound + v;
    MemberRange(k, f, q, bound, v, min);
    if r >= first {
      Offset(r, k, u, f, v, bound);
    }
  }

  lemma MemberRange(k: nat, f: nat, q: nat, bound: nat, v: nat, min: nat)
    requires v < bound && min < bound && f == if min <= v then 0 else 1
    ensures k * bound + v < q * bound + min && min <= k * bound + v
      <==> f * bound + v <= k * bound + v < f * bound + v + q * bound
  {
    Distribute(f, q, bound);
    Compare(k, f, bound, v, v);
    Compare(k, q, bound, v, min);
    Compare(k, f + q, bound, v, v);
    Compare(k, 0, bound, v, min);
  }

  lemma Distribute(a: int, b: int, m: int)
    ensures (a + b) * m == a * m + b * m
  {
  }

  lemma MulOrder(k: nat, q: nat, m: nat)
    requires k < q
    ensures k * m + m <= q * m
  {
    Distribute(k, q - k, m);
    Distribute(1, q - k - 1, m);
    Product(q - k - 1, m);
  }

  lemma Product(a: nat, b: nat)
    ensures a * b >= 0
  {
  }

  /** r - first is a multiple of the bound exactly when r leaves the same remainder as first. */
  lemma Offset(r: nat, k: nat, u: nat, f: nat, v: nat, bound: nat)
    requires bound > 0 && u < bound && v < bound && r == k * bound + u && f * bound + v <= r
    ensures (r - (f * bound + v)) % bound == 0 <==> u == v
  {
    var d := r - (f * bound + v);
    Compare(k, f, bound, u, v);
    if u >= v {
      Distribute(f, k - f, bound);
      Remainder(d, bound, k - f, u - v);
    } else {
      Distribute(f, k - f - 1, bound);
      Distribute(k - 1, 1, bound);
      Remainder(d, bound, k - f - 1, bound + u - v);
    }
  }

  /** Numbers written as multiple and remainder are ordered by the multiple first. */
  lemma Compare(k: nat, q: nat, bound: nat, v: nat, w: nat)
    requires v < bound && w < bound
    ensures k * bound + v < q * bound + w <==> k < q || (k == q && v < w)
  {
    if k < q { MulOrder(k, q, bound); }
    if k > q { MulOrder(q, k, bound); }
  }

  /** More than half of all draws are accepted. */
  lemma MostAccepted(bound: nat)
    requires 2 <= bound < WORD
    ensures 2 * (WORD - WORD % bound) > WORD
  {
    if bound > 0x8000_0000 { Remainder(WORD, bound, 1, WORD - bound); }
  }

  datatype Draw = Again | Value(v: nat)

  /** arc4random_uniform over the draws it would make: the first accepted one, reduced. */
  method Uniform(bound: nat, draws: seq<nat>) returns (r: Draw, used: nat)
    requires bound < WORD && forall k | 0 <= k < |draws| :: draws[k] < WORD
    ensures bound < 2 ==> r == Value(0) && used == 0
    ensures bound >= 2 ==> used <= |draws|
    ensures bound >= 2 && r.Again? ==> used == |draws| && forall k | 0 <= k < |draws| :: draws[k] < WORD % bound
    ensures bound >= 2 && r.Value? ==> used > 0 && r.v < bound && draws[used - 1] in Accepted(bound, r.v)
    ensures bound >= 2 && r.Value? ==> forall k | 0 <= k < used - 1 :: draws[k] < WORD % bound
  {
    used := 0;
    if bound < 2 {
      return Value(0), 0;
    }
    var min := LeastAccepted(bound);
    while used < |draws|
      invariant used <= |draws| && forall k | 0 <= k < used :: draws[k] < min
    {
      used := used + 1;
      if draws[used - 1] >= min {
        return Value(draws[used - 1] % bound), used;
      }
    }
    return Again, used;
  }
}
