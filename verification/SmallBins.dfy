/**
 The smallbins of dlmalloc: one circular list per exact chunk size below 256,
 headed by a slot of malloc_state.  A bin is empty exactly when its bit of the
 map is clear; the header of an empty bin keeps stale links.
 */
module SmallBins {
  import opened Words
  import opened Binmap
  import opened Rings

  /** The address of the header of bin i, inside malloc_state. */
  function SmallbinAt(i: nat): Addr {
    -2000 - i
  }

  function SmallIndex(s: nat): nat {
    s / 8
  }

  function IndexToSize(i: nat): nat {
    i * 8
  }

  predicate IsSmallSize(s: nat) {
    MIN_CHUNK_SIZE <= s < MIN_LARGE_SIZE && s % 8 == 0
  }

  ghost predicate BinAt(smallmap: nat, fd: map<Addr, Addr>, bk: map<Addr, Addr>, bins: seq<seq<Addr>>, i: nat)
    requires i < |bins|
  {
    && (Marked(smallmap, i) <==> bins[i] != [])
    && (bins[i] != [] ==> Ring(fd, bk, [SmallbinAt(i)] + bins[i]))
    && Distinct([SmallbinAt(i)] + bins[i])
  }

  /** Bin i lists exactly the binned chunks of its size. */
  ghost predicate Filed(sz: map<Addr, nat>, bins: seq<seq<Addr>>, i: nat)
    requires i < |bins|
  {
    && (forall a | a in bins[i] :: a > 0 && a in sz && sz[a] == IndexToSize(i))
    && (forall a | a in sz && sz[a] == IndexToSize(i) :: a in bins[i])
  }

  ghost predicate SmallOK(smallmap: nat, fd: map<Addr, Addr>, bk: map<Addr, Addr>, bins: seq<seq<Addr>>, sz: map<Addr, nat>) {
    && |bins| == 32
    && smallmap < WORD
    && (forall i {:trigger BinAt(smallmap, fd, bk, bins, i)} | 0 <= i < 32 :: BinAt(smallmap, fd, bk, bins, i))
    && (forall i {:trigger Filed(sz, bins, i)} | 0 <= i < 32 :: Filed(sz, bins, i))
    && (forall a | a in sz :: a > 0 && IsSmallSize(sz[a]))
  }

  class Smallbins {
    var smallmap: nat
    var fd: map<Addr, Addr>
    var bk: map<Addr, Addr>
    ghost var bins: seq<seq<Addr>>
    ghost var sz: map<Addr, nat>

    ghost predicate Valid()
      reads this
    {
      SmallOK(smallmap, fd, bk, bins, sz)
    }

    constructor ()
      ensures Valid() && sz == map[]
    {
      smallmap := 0;
      fd := map i | 0 <= i < 32 :: SmallbinAt(i) := SmallbinAt(i);
      bk := map i | 0 <= i < 32 :: SmallbinAt(i) := SmallbinAt(i);
      bins := seq(32, _ => []);
      sz := map[];
      NoMarks();
    }

    /** insert_small_chunk: exactly the chunk p of size s joins, at the front of its bin. */
    method InsertSmall(p: Addr, s: nat)
      requires Valid() && IsSmallSize(s) && p > 0 && p !in sz
      modifies this
      ensures Valid() && sz == old(sz)[p := s]
    {
      hide SmallOK, Ring, Distinct, Marked, Mark, Get;
      var i := SmallIndex(s);
      var b := SmallbinAt(i);
      var f := b;
      InsertReady(smallmap, fd, bk, bins, sz, p, s);
      ghost var m0, fd0, bk0 := smallmap, fd, bk;
      if !Marked(smallmap, i) {
        smallmap := Mark(smallmap, i);
      } else {
        f := Get(fd, b);
      }
      fd := fd[b := p];
      bk := bk[f := p];
      fd := fd[p := f];
      bk := bk[p := b];
      SmallInsertOK(m0, fd0, bk0, bins, sz, p, s, smallmap, fd, bk);
      bins := bins[i := [p] + bins[i]];
      sz := sz[p := s];
    }

    /** unlink_small_chunk: exactly the chunk p leaves. */
    method UnlinkSmall(p: Addr, s: nat)
      requires Valid() && p in sz && sz[p] == s
      modifies this
      ensures Valid() && sz == old(sz) - {p}
    {
      hide SmallOK, Ring, Distinct, Marked, Clear, Get;
      var f := Get(fd, p);
      var b := Get(bk, p);
      var i := SmallIndex(s);
      ghost var j := PlaceOf(smallmap, fd, bk, bins, sz, p);
      ghost var r := [SmallbinAt(i)] + bins[i];
      NeighboursPointBack(fd, bk, r, j);
      assert Get(bk, f) == p && Get(fd, b) == p;
      LoneIff(fd, bk, r, j);
      ghost var m0, fd0, bk0 := smallmap, fd, bk;
      if f == b {
        smallmap := Clear(smallmap, i);
      } else {
        bk := bk[f := b];
        fd := fd[b := f];
      }
      SmallRemoveOK(m0, fd0, bk0, bins, sz, p, j, smallmap, fd, bk);
      bins := bins[i := bins[i][..j - 1] + bins[i][j..]];
      sz := sz - {p};
    }

    /** unlink_first_small_chunk, for a marked bin: its first chunk leaves. */
    method UnlinkFirst(i: nat) returns (p: Addr)
      requires Valid() && i < 32 && Marked(smallmap, i)
      modifies this
      ensures Valid() && p in old(sz) && old(sz)[p] == IndexToSize(i) && sz == old(sz) - {p}
    {
      hide SmallOK, Ring, Distinct, Marked, Clear, Get;
      var b := SmallbinAt(i);
      p := Get(fd, b);
      FirstOf(smallmap, fd, bk, bins, sz, i);
      var f := Get(fd, p);
      ghost var r := [SmallbinAt(i)] + bins[i];
      NeighboursPointBack(fd, bk, r, 1);
      assert Get(bk, f) == p && Get(fd, b) == p;
      LoneIff(fd, bk, r, 1);
      ghost var m0, fd0, bk0 := smallmap, fd, bk;
      if b == f {
        smallmap := Clear(smallmap, i);
      } else {
        fd := fd[b := f];
        bk := bk[f := b];
      }
      SmallRemoveOK(m0, fd0, bk0, bins, sz, p, 1, smallmap, fd, bk);
      bins := bins[i := bins[i][..0] + bins[i][1..]];
      sz := sz - {p};
    }
  }

  lemma NoMarks()
    ensures forall i: nat :: !Marked(0, i)
  {
    forall i: nat
      ensures !Marked(0, i)
    {
      ShrZero(i);
    }
  }

  lemma InsertReady(m: nat, fd: map<Addr, Addr>, bk: map<Addr, Addr>, bins: seq<seq<Addr>>, sz: map<Addr, nat>, p: Addr, s: nat)
    requires SmallOK(m, fd, bk, bins, sz) && IsSmallSize(s) && p !in sz
    ensures |bins| == 32 && BinAt(m, fd, bk, bins, SmallIndex(s)) && p !in bins[SmallIndex(s)]
  {
    hide Ring, Marked;
    assert BinAt(m, fd, bk, bins, SmallIndex(s));
    assert Filed(sz, bins, SmallIndex(s));
  }

  /** Another bin is untouched when only links of bin i and its header change. */
  lemma OtherBin(m: nat, fd: map<Addr, Addr>, bk: map<Addr, Addr>, bins: seq<seq<Addr>>, sz: map<Addr, nat>,
                 m': nat, fd': map<Addr, Addr>, bk': map<Addr, Addr>, bins': seq<seq<Addr>>, i: nat, k: nat)
    requires SmallOK(m, fd, bk, bins, sz) && i < 32 && k < 32 && i != k && |bins'| == 32
    requires Marked(m', k) <==> Marked(m, k)
    requires bins'[k] == bins[k]
    requires forall a | InBin(sz, k, a) :: Get(fd', a) == Get(fd, a) && Get(bk', a) == Get(bk, a)
    ensures BinAt(m', fd', bk', bins', k)
  {
    hide Ring, Marked, Get;
    assert BinAt(m, fd, bk, bins, k) && Filed(sz, bins, k);
    if bins[k] != [] { RingFrame(fd, bk, fd', bk', [SmallbinAt(k)] + bins[k]); }
  }

  /** The bin of the inserted chunk. */
  lemma InsertBin(m: nat, fd: map<Addr, Addr>, bk: map<Addr, Addr>, bins: seq<seq<Addr>>, i: nat, p: Addr,
                  m': nat, fd': map<Addr, Addr>, bk': map<Addr, Addr>)
    requires i < |bins| && BinAt(m, fd, bk, bins, i) && p !in bins[i] && p > 0
    requires Marked(m', i)
    requires var b := SmallbinAt(i); var f := if Marked(m, i) then Get(fd, b) else b;
      fd' == fd[b := p][p := f] && bk' == bk[f := p][p := b]
    ensures BinAt(m', fd', bk', bins[i := [p] + bins[i]], i)
  {
    hide Marked;
    var r := [SmallbinAt(i)] + bins[i];
    var r' := [SmallbinAt(i)] + ([p] + bins[i]);
    assert r' == [r[0], p] + r[1..];
    if bins[i] != [] {
      InsertOK(fd, bk, r, p);
    } else {
      assert Linked(fd', bk', r', 0) && Linked(fd', bk', r', 1);
    }
  }

  lemma SmallInsertOK(m: nat, fd: map<Addr, Addr>, bk: map<Addr, Addr>, bins: seq<seq<Addr>>, sz: map<Addr, nat>, p: Addr, s: nat,
                      m': nat, fd': map<Addr, Addr>, bk': map<Addr, Addr>)
    requires SmallOK(m, fd, bk, bins, sz) && IsSmallSize(s) && p > 0 && p !in sz
    requires m' == if Marked(m, SmallIndex(s)) then m else Mark(m, SmallIndex(s))
    requires var i := SmallIndex(s); var b := SmallbinAt(i); var f := if Marked(m, i) then Get(fd, b) else b;
      fd' == fd[b := p][p := f] && bk' == bk[f := p][p := b]
    ensures SmallOK(m', fd', bk', bins[SmallIndex(s) := [p] + bins[SmallIndex(s)]], sz[p := s])
  {
    hide Ring, Distinct, Marked, Mark, BinAt, Filed;
    var i := SmallIndex(s);
    var bins', sz' := bins[i := [p] + bins[i]], sz[p := s];
    MarkBound(m, i);
    InsertReady(m, fd, bk, bins, sz, p, s);
    NeighbourInBin(m, fd, bk, bins, sz, i);
    forall k | 0 <= k < 32
      ensures BinAt(m', fd', bk', bins', k)
    {
      MarkSpec(m, i, k);
      if k == i { InsertBin(m, fd, bk, bins, i, p, m', fd', bk'); }
      else { OtherBin(m, fd, bk, bins, sz, m', fd', bk', bins', i, k); }
    }
    forall k | 0 <= k < 32
      ensures Filed(sz', bins', k)
    {
      FiledInsert(sz, bins, p, s, k);
    }
  }

  lemma FiledInsert(sz: map<Addr, nat>, bins: seq<seq<Addr>>, p: Addr, s: nat, k: nat)
    requires |bins| == 32 && k < 32 && IsSmallSize(s) && p > 0 && p !in sz
    requires forall i {:trigger Filed(sz, bins, i)} | 0 <= i < 32 :: Filed(sz, bins, i)
    ensures Filed(sz[p := s], bins[SmallIndex(s) := [p] + bins[SmallIndex(s)]], k)
  {
    assert Filed(sz, bins, k);
  }

  /** The neighbour of a marked bin's header is in the bin. */
  lemma NeighbourInBin(m: nat, fd: map<Addr, Addr>, bk: map<Addr, Addr>, bins: seq<seq<Addr>>, sz: map<Addr, nat>, i: nat)
    requires SmallOK(m, fd, bk, bins, sz) && i < 32
    ensures Marked(m, i) ==> var f := Get(fd, SmallbinAt(i)); f in sz && sz[f] == IndexToSize(i)
  {
    hide Marked, Ring;
    assert BinAt(m, fd, bk, bins, i) && Filed(sz, bins, i);
    if Marked(m, i) { LinkedAt(fd, bk, [SmallbinAt(i)] + bins[i], 0); }
  }

  /** Where p stands in its bin, counting the header. */
  ghost function PlaceOf(m: nat, fd: map<Addr, Addr>, bk: map<Addr, Addr>, bins: seq<seq<Addr>>, sz: map<Addr, nat>, p: Addr): (j: nat)
    requires SmallOK(m, fd, bk, bins, sz) && p in sz
    ensures |bins| == 32 && IsSmallSize(sz[p])
    ensures var i := SmallIndex(sz[p]); var r := [SmallbinAt(i)] + bins[i];
      && 1 <= j < |r| && r[j] == p && Ring(fd, bk, r) && Distinct(r)
  {
    var i := SmallIndex(sz[p]);
    assert BinAt(m, fd, bk, bins, i) && Filed(sz, bins, i);
    var j :| 0 <= j < |bins[i]| && bins[i][j] == p;
    j + 1
  }

  lemma FirstOf(m: nat, fd: map<Addr, Addr>, bk: map<Addr, Addr>, bins: seq<seq<Addr>>, sz: map<Addr, nat>, i: nat)
    requires SmallOK(m, fd, bk, bins, sz) && i < 32 && Marked(m, i)
    ensures |bins| == 32 && bins[i] != []
    ensures var p := Get(fd, SmallbinAt(i)); var r := [SmallbinAt(i)] + bins[i];
      && r[1] == p && p in sz && sz[p] == IndexToSize(i) && IsSmallSize(sz[p]) && Ring(fd, bk, r) && Distinct(r)
      && Get(bk, p) == SmallbinAt(i)
  {
    hide Marked;
    assert BinAt(m, fd, bk, bins, i) && Filed(sz, bins, i);
    LinkedAt(fd, bk, [SmallbinAt(i)] + bins[i], 0);
    LinkedAt(fd, bk, [SmallbinAt(i)] + bins[i], 1);
  }

  /** The two neighbours coincide exactly for the only chunk of a bin. */
  lemma LoneIff(fd: map<Addr, Addr>, bk: map<Addr, Addr>, r: seq<Addr>, j: nat)
    requires Ring(fd, bk, r) && Distinct(r) && 1 <= j < |r|
    ensures Get(fd, r[j]) == Get(bk, r[j]) <==> |r| == 2
  {
    LinkedAt(fd, bk, r, j);
  }

  lemma RemoveBin(m: nat, fd: map<Addr, Addr>, bk: map<Addr, Addr>, bins: seq<seq<Addr>>, i: nat, j: nat,
                  m': nat, fd': map<Addr, Addr>, bk': map<Addr, Addr>)
    requires i < |bins| && BinAt(m, fd, bk, bins, i) && 1 <= j <= |bins[i]|
    requires Marked(m', i) <==> |bins[i]| >= 2
    requires |bins[i]| >= 2 ==>
      var p := bins[i][j - 1]; var f, b := Get(fd, p), Get(bk, p); fd' == fd[b := f] && bk' == bk[f := b]
    ensures BinAt(m', fd', bk', bins[i := bins[i][..j - 1] + bins[i][j..]], i)
  {
    hide Marked, Ring;
    var r := [SmallbinAt(i)] + bins[i];
    var c := bins[i][..j - 1] + bins[i][j..];
    WithoutMembers(r, j);
    assert Without(r, j) == [SmallbinAt(i)] + c;
    RemoveOK(fd, bk, r, j);
  }

  lemma FiledRemove(sz: map<Addr, nat>, bins: seq<seq<Addr>>, i: nat, j: nat, k: nat)
    requires |bins| == 32 && i < 32 && k < 32 && 1 <= j <= |bins[i]| && Distinct(bins[i])
    requires forall i {:trigger Filed(sz, bins, i)} | 0 <= i < 32 :: Filed(sz, bins, i)
    ensures Filed(sz - {bins[i][j - 1]}, bins[i := bins[i][..j - 1] + bins[i][j..]], k)
  {
    assert Filed(sz, bins, k) && Filed(sz, bins, i);
    var p, c := bins[i][j - 1], bins[i][..j - 1] + bins[i][j..];
    forall a | a in bins[i] && a != p
      ensures a in c
    {
      var n :| 0 <= n < |bins[i]| && bins[i][n] == a;
      assert c[if n < j - 1 then n else n - 1] == a;
    }
    assert p in bins[i];
  }

  lemma SmallRemoveOK(m: nat, fd: map<Addr, Addr>, bk: map<Addr, Addr>, bins: seq<seq<Addr>>, sz: map<Addr, nat>, p: Addr, j: nat,
                      m': nat, fd': map<Addr, Addr>, bk': map<Addr, Addr>)
    requires SmallOK(m, fd, bk, bins, sz) && p in sz && IsSmallSize(sz[p])
    requires 1 <= j <= |bins[SmallIndex(sz[p])]| && bins[SmallIndex(sz[p])][j - 1] == p
    requires var i := SmallIndex(sz[p]); var f, b := Get(fd, p), Get(bk, p);
      if |bins[i]| == 1 then m' == Clear(m, i) && fd' == fd && bk' == bk
      else m' == m && fd' == fd[b := f] && bk' == bk[f := b]
    ensures var i := SmallIndex(sz[p]);
      SmallOK(m', fd', bk', bins[i := bins[i][..j - 1] + bins[i][j..]], sz - {p})
  {
    hide Ring, Marked, Clear, BinAt, Filed;
    var i := SmallIndex(sz[p]);
    var bins', sz' := bins[i := bins[i][..j - 1] + bins[i][j..]], sz - {p};
    MarkBound(m, i);
    BinFacts(m, fd, bk, bins, sz, i, j);
    forall k | 0 <= k < 32
      ensures BinAt(m', fd', bk', bins', k)
    {
      ClearSpec(m, i, k);
      if k == i { RemoveBin(m, fd, bk, bins, i, j, m', fd', bk'); }
      else { OtherBin(m, fd, bk, bins, sz, m', fd', bk', bins', i, k); }
    }
    forall k | 0 <= k < 32
      ensures Filed(sz', bins', k)
    {
      FiledRemove(sz, bins, i, j, k);
    }
  }

  /** a is the header of bin i or a chunk of its size. */
  ghost predicate InBin(sz: map<Addr, nat>, i: nat, a: Addr) {
    a == SmallbinAt(i) || (a in sz && sz[a] == IndexToSize(i))
  }

  lemma BinFacts(m: nat, fd: map<Addr, Addr>, bk: map<Addr, Addr>, bins: seq<seq<Addr>>, sz: map<Addr, nat>, i: nat, j: nat)
    requires SmallOK(m, fd, bk, bins, sz) && i < 32 && 1 <= j <= |bins[i]|
    ensures BinAt(m, fd, bk, bins, i) && Distinct(bins[i]) && Marked(m, i)
    ensures var p := bins[i][j - 1]; InBin(sz, i, Get(fd, p)) && InBin(sz, i, Get(bk, p))
  {
    hide Marked, Ring;
    assert BinAt(m, fd, bk, bins, i) && Filed(sz, bins, i);
    var r := [SmallbinAt(i)] + bins[i];
    forall x, y | 0 <= x < y < |bins[i]|
      ensures bins[i][x] != bins[i][y]
    {
      assert r[x + 1] != r[y + 1];
    }
    LinkedAt(fd, bk, r, j);
  }
}
