/**
 Circular doubly linked lists threaded through memory by fd and bk fields, as
 dlmalloc uses them for smallbins and for chunks of one size in a treebin.
 A list is represented by the sequence of its members.
 */
module Rings {

  type Addr = int

  /** A word of memory that was never written reads as null. */
  function Get(m: map<Addr, int>, a: Addr): int {
    if a in m then m[a] else 0
  }

  function Next(n: nat, j: nat): (k: nat)
    requires j < n
    ensures k < n
  {
    if j + 1 == n then 0 else j + 1
  }

  function Prev(n: nat, j: nat): (k: nat)
    requires j < n
    ensures k < n
  {
    if j == 0 then n - 1 else j - 1
  }

  ghost predicate Linked(fd: map<Addr, Addr>, bk: map<Addr, Addr>, r: seq<Addr>, j: nat)
    requires j < |r|
  {
    Get(fd, r[j]) == r[Next(|r|, j)] && Get(bk, r[j]) == r[Prev(|r|, j)]
  }

  ghost predicate Ring(fd: map<Addr, Addr>, bk: map<Addr, Addr>, r: seq<Addr>) {
    forall j {:trigger Linked(fd, bk, r, j)} | 0 <= j < |r| :: Linked(fd, bk, r, j)
  }

  ghost predicate Distinct(r: seq<Addr>) {
    forall i, j | 0 <= i < j < |r| :: r[i] != r[j]
  }

  lemma LinkedAt(fd: map<Addr, Addr>, bk: map<Addr, Addr>, r: seq<Addr>, j: nat)
    requires Ring(fd, bk, r) && j < |r|
    ensures Get(fd, r[j]) == r[Next(|r|, j)] && Get(bk, r[j]) == r[Prev(|r|, j)]
  {
    assert Linked(fd, bk, r, j);
  }

  /** A member's neighbours point back at it: the list check of the unlink macros always passes. */
  lemma NeighboursPointBack(fd: map<Addr, Addr>, bk: map<Addr, Addr>, r: seq<Addr>, j: nat)
    requires Ring(fd, bk, r) && j < |r|
    ensures Get(bk, Get(fd, r[j])) == r[j] && Get(fd, Get(bk, r[j])) == r[j]
  {
    LinkedAt(fd, bk, r, j);
    LinkedAt(fd, bk, r, Next(|r|, j));
    LinkedAt(fd, bk, r, Prev(|r|, j));
  }

  lemma RingFrame(fd: map<Addr, Addr>, bk: map<Addr, Addr>, fd': map<Addr, Addr>, bk': map<Addr, Addr>, r: seq<Addr>)
    requires Ring(fd, bk, r)
    requires forall j | 0 <= j < |r| :: Get(fd', r[j]) == Get(fd, r[j]) && Get(bk', r[j]) == Get(bk, r[j])
    ensures Ring(fd', bk', r)
  {
    forall j | 0 <= j < |r|
      ensures Linked(fd', bk', r, j)
    {
      assert Linked(fd, bk, r, j);
    }
  }

  /** x is linked in behind the first member. */
  lemma InsertOK(fd: map<Addr, Addr>, bk: map<Addr, Addr>, r: seq<Addr>, x: Addr)
    requires r != [] && Ring(fd, bk, r) && Distinct(r) && x !in r
    ensures var f := Get(fd, r[0]);
      Ring(fd[r[0] := x][x := f], bk[f := x][x := r[0]], [r[0], x] + r[1..])
    ensures Distinct([r[0], x] + r[1..])
  {
    var f, r' := Get(fd, r[0]), [r[0], x] + r[1..];
    var fd', bk' := fd[r[0] := x][x := f], bk[f := x][x := r[0]];
    LinkedAt(fd, bk, r, 0);
    forall j | 0 <= j < |r'|
      ensures Linked(fd', bk', r', j)
    {
      if j != 1 { LinkedAt(fd, bk, r, if j == 0 then 0 else j - 1); }
    }
  }

  /** r without its member j, starting from the one before it when j is the first. */
  ghost function Without(r: seq<Addr>, j: nat): seq<Addr>
    requires j < |r| && |r| >= 2
  {
    if j == 0 then [r[|r| - 1]] + r[1..|r| - 1] else r[..j] + r[j + 1..]
  }

  /** Where member i of Without(r, j) was in r. */
  function Source(n: nat, j: nat, i: nat): nat
    requires n > 0
  {
    if j == 0 then (if i == 0 then n - 1 else i) else if i < j then i else i + 1
  }

  lemma WithoutMembers(r: seq<Addr>, j: nat)
    requires Distinct(r) && j < |r| && |r| >= 2
    ensures var r' := Without(r, j);
      && |r'| == |r| - 1
      && (forall i | 0 <= i < |r'| :: Source(|r|, j, i) < |r| && r'[i] == r[Source(|r|, j, i)])
      && Distinct(r')
      && (forall a | a in r && a != r[j] :: a in r')
      && (forall a | a in r' :: a in r && a != r[j])
  {
    var r' := Without(r, j);
    forall a | a in r && a != r[j]
      ensures a in r'
    {
      var i0 :| 0 <= i0 < |r| && r[i0] == a;
      assert r'[if j == 0 then (if i0 == |r| - 1 then 0 else i0) else if i0 < j then i0 else i0 - 1] == a;
    }
  }

  lemma SourceNeighbours(n: nat, j: nat, i: nat)
    requires j < n && i < n - 1
    ensures var i0 := Source(n, j, i);
      && i0 < n && i0 != j
      && (i > 0 ==> i0 > 0)
      && (i0 == Prev(n, j) <==> Next(n, i0) == j)
      && (i0 == Next(n, j) <==> Prev(n, i0) == j)
      && Source(n, j, Next(n - 1, i)) == (if Next(n, i0) == j then Next(n, j) else Next(n, i0))
      && Source(n, j, Prev(n - 1, i)) == (if Prev(n, i0) == j then Prev(n, j) else Prev(n, i0))
  {
  }

  lemma RemoveLinked(fd: map<Addr, Addr>, bk: map<Addr, Addr>, r: seq<Addr>, j: nat, i: nat)
    requires Ring(fd, bk, r) && Distinct(r) && j < |r| && |r| >= 2 && i < |r| - 1
    ensures |Without(r, j)| == |r| - 1
    ensures var f, b := Get(fd, r[j]), Get(bk, r[j]);
      Linked(fd[b := f], bk[f := b], Without(r, j), i)
  {
    hide Without, Source, Next, Prev;
    WithoutMembers(r, j);
    var n, i0 := |r|, Source(|r|, j, i);
    SourceNeighbours(n, j, i);
    LinkedAt(fd, bk, r, j);
    LinkedAt(fd, bk, r, i0);
    assert r[i0] == r[Prev(n, j)] <==> Next(n, i0) == j;
    assert r[i0] == r[Next(n, j)] <==> Prev(n, i0) == j;
  }

  /** Unlinking one member of a ring of several. */
  lemma RemoveOK(fd: map<Addr, Addr>, bk: map<Addr, Addr>, r: seq<Addr>, j: nat)
    requires Ring(fd, bk, r) && Distinct(r) && j < |r| && |r| >= 2
    ensures var f, b := Get(fd, r[j]), Get(bk, r[j]);
      Ring(fd[b := f], bk[f := b], Without(r, j))
  {
    hide Without, Linked;
    WithoutMembers(r, j);
    var f, b, r' := Get(fd, r[j]), Get(bk, r[j]), Without(r, j);
    var fd', bk' := fd[b := f], bk[f := b];
    forall i | 0 <= i < |r'|
      ensures Linked(fd', bk', r', i)
    {
      RemoveLinked(fd, bk, r, j, i);
    }
  }
}
