/**
 The boundary-tag layout of a dlmalloc segment: chunks tile it from its base up
 to the top chunk, every head word carries the in-use bits of its own chunk and
 of the one before it, and a free chunk's size is repeated just behind it.
 */
module Layout {
  import opened Words
  import opened Binmap
  import opened Rings

  const TOP_FOOT_SIZE: nat := 40

  /** The head word of a chunk, split into its size and its two flag bits. */
  datatype HeadWord = HeadWord(size: nat, pinuse: bool, cinuse: bool)

  /** A segment: its chunk starts (top included), the head and prev_foot fields, and top. */
  datatype Segment = Segment(
    base: Addr,
    starts: set<Addr>,
    head: map<Addr, HeadWord>,
    foot: map<Addr, int>,
    top: Addr,
    topsize: nat)

  ghost predicate Placed(y: Segment, c: Addr) {
    c in y.head && y.base <= c <= y.top && c % 8 == 0
  }

  /** A chunk below top: do_check_any_chunk, do_check_inuse_chunk and do_check_free_chunk. */
  ghost predicate ChunkOK(y: Segment, c: Addr)
    requires c in y.head
  {
    var h := y.head[c];
    var n := c + h.size;
    && MIN_CHUNK_SIZE <= h.size
    && h.size % 8 == 0
    && n in y.starts && n in y.head
    && (forall d | d in y.starts :: !(c < d < n))
    && (y.head[n].pinuse <==> h.cinuse)
    && (!h.cinuse ==> h.pinuse && Get(y.foot, n) == h.size)
  }

  ghost predicate LayoutOK(y: Segment) {
    && 0 < y.base && y.base in y.starts && y.top in y.starts && y.starts <= y.head.Keys
    && (forall c {:trigger Placed(y, c)} | c in y.starts :: Placed(y, c))
    && (forall c {:trigger ChunkOK(y, c)} | c in y.starts && c != y.top :: ChunkOK(y, c))
    && y.head[y.base].pinuse
    && y.head[y.top] == HeadWord(y.topsize, true, false)
    && 0 < y.topsize && y.topsize % 8 == 0
    && y.top + y.topsize + TOP_FOOT_SIZE <= WORD
  }

  ghost predicate IsFree(y: Segment, c: Addr) {
    c in y.starts && c in y.head && c != y.top && !y.head[c].cinuse
  }

  ghost predicate IsLive(y: Segment, c: Addr) {
    c in y.starts && c in y.head && c != y.top && y.head[c].cinuse
  }

  ghost function FreeChunks(y: Segment): map<Addr, nat> {
    map c | c in y.starts && IsFree(y, c) :: y.head[c].size
  }

  ghost function LiveChunks(y: Segment): map<Addr, nat> {
    map c | c in y.starts && IsLive(y, c) :: y.head[c].size
  }

  // ---- what a valid layout says about two chunks ----

  /** Two chunks never overlap. */
  lemma ChunksDisjoint(y: Segment, c: Addr, d: Addr)
    requires LayoutOK(y) && c in y.starts && d in y.starts && c < d
    ensures c != y.top && c + y.head[c].size <= d
  {
    assert Placed(y, d);
    assert ChunkOK(y, c);
  }

  lemma SizeBound(y: Segment, c: Addr)
    requires LayoutOK(y) && c in y.starts && c != y.top
    ensures c + y.head[c].size <= y.top && y.head[c].size < WORD && c > 0
  {
    assert ChunkOK(y, c) && Placed(y, c) && Placed(y, c + y.head[c].size);
  }

  /** The chunk whose end is d, if d is not the first. */
  lemma {:induction false} ChunkBefore(y: Segment, d: Addr, c: Addr) returns (p: Addr)
    requires LayoutOK(y) && d in y.starts && c in y.starts && c < d
    ensures p in y.starts && p != y.top && p + y.head[p].size == d
    decreases d - c
  {
    ChunksDisjoint(y, c, d);
    assert ChunkOK(y, c);
    var n := c + y.head[c].size;
    if n == d {
      p := c;
    } else {
      p := ChunkBefore(y, d, n);
    }
  }

  /** A clear pinuse bit leads back to a free chunk of the recorded size. */
  lemma PrevChunk(y: Segment, d: Addr)
    requires LayoutOK(y) && d in y.starts && !y.head[d].pinuse
    ensures var p := d - Get(y.foot, d); IsFree(y, p) && y.head[p].size == Get(y.foot, d) && y.head[p].pinuse
  {
    assert Placed(y, d);
    var p := ChunkBefore(y, d, y.base);
    assert ChunkOK(y, p);
  }

  /** Two layouts of the same extent with the same live chunks agree on each chunk they share, and on the next one. */
  lemma SameChunk(y: Segment, z: Segment, c: Addr)
    requires LayoutOK(y) && LayoutOK(z) && LiveChunks(y) == LiveChunks(z)
    requires c in y.starts && c in z.starts
    ensures c == y.top <==> c == z.top
    ensures c != y.top ==> y.head[c].size == z.head[c].size && (y.head[c].cinuse <==> z.head[c].cinuse)
  {
    assert Placed(y, c) && Placed(z, c);
    if c in LiveChunks(y) {
      assert c in LiveChunks(z) && LiveChunks(y)[c] == LiveChunks(z)[c];
    } else {
      NextLive(y, z, c);
      NextLive(z, y, c);
    }
  }

  /** What follows a free chunk is live, hence a chunk of both. */
  lemma NextLive(y: Segment, z: Segment, c: Addr)
    requires LayoutOK(y) && LayoutOK(z) && LiveChunks(y) == LiveChunks(z)
    requires c in y.starts && c in z.starts && c !in LiveChunks(y)
    ensures c != y.top ==> c != z.top && z.head[c].size <= y.head[c].size && !y.head[c].cinuse
  {
    if c != y.top {
      NotBothFree(y, c);
      assert ChunkOK(y, c);
      var n := c + y.head[c].size;
      assert n in LiveChunks(y) && n in LiveChunks(z);
      assert Placed(z, n);
      if c != z.top { assert ChunkOK(z, c); }
    }
  }

  lemma {:induction false} SameStarts(y: Segment, z: Segment, c: Addr, d: Addr)
    requires LayoutOK(y) && LayoutOK(z) && LiveChunks(y) == LiveChunks(z)
    requires c in y.starts && c in z.starts && d in y.starts && c <= d
    ensures d in z.starts
    decreases d - c
  {
    if c < d {
      ChunksDisjoint(y, c, d);
      SameChunk(y, z, c);
      assert ChunkOK(y, c) && ChunkOK(z, c);
      SameStarts(y, z, c + y.head[c].size, d);
    }
  }

  /** The free chunks and top are determined by where the segment lies and which chunks are live. */
  lemma LayoutUnique(y: Segment, z: Segment)
    requires LayoutOK(y) && LayoutOK(z) && LiveChunks(y) == LiveChunks(z)
    requires y.base == z.base && y.top + y.topsize == z.top + z.topsize
    ensures y.starts == z.starts && FreeChunks(y) == FreeChunks(z) && y.top == z.top && y.topsize == z.topsize
  {
    forall d
      ensures d in y.starts <==> d in z.starts
    {
      if d in y.starts { assert Placed(y, d); SameStarts(y, z, y.base, d); }
      if d in z.starts { assert Placed(z, d); SameStarts(z, y, y.base, d); }
    }
    SameChunk(y, z, y.top);
    forall c | c in y.starts
      ensures IsFree(y, c) <==> IsFree(z, c)
      ensures IsFree(y, c) ==> y.head[c].size == z.head[c].size
    {
      SameChunk(y, z, c);
    }
  }

  /** The word addresses holding live metadata of chunk c. */
  ghost predicate Metadata(y: Segment, c: Addr, a: Addr) {
    && c in y.starts && c in y.head
    && (a == c + 4 || (IsFree(y, c) && (a == c + 8 || a == c + 12 || a == c + y.head[c].size
         || (y.head[c].size >= 256 && c + 16 <= a < c + 32))))
  }

  /** The bytes handed to the user for chunk c. */
  ghost predicate Payload(y: Segment, c: Addr, a: Addr) {
    IsLive(y, c) && c + 8 <= a < c + y.head[c].size + 4
  }

  /** No metadata word lies in a user's bytes, and no word serves two chunks. */
  lemma MetadataApart(y: Segment, c: Addr, d: Addr, a: Addr, b: Addr)
    requires LayoutOK(y) && Metadata(y, c, a) && a % 4 == 0
    ensures Payload(y, d, b) ==> !(a <= b < a + 4)
    ensures c != d ==> !Metadata(y, d, a)
    ensures c != d && Payload(y, c, b) ==> !Payload(y, d, b)
  {
    if d in y.starts {
      assert Placed(y, c) && Placed(y, d);
      if c < d { ChunksDisjoint(y, c, d); assert ChunkOK(y, c); }
      if d < c { ChunksDisjoint(y, d, c); assert ChunkOK(y, d); }
      if c != y.top { assert ChunkOK(y, c); }
      if d != y.top { assert ChunkOK(y, d); }
    }
  }

  // ---- changes of layout ----

  /** set_inuse_and_pinuse: a free chunk is taken whole. */
  ghost function TakeWhole(y: Segment, p: Addr): Segment
    requires p in y.head && p + y.head[p].size in y.head
  {
    var s := y.head[p].size;
    var head1 := y.head[p := HeadWord(s, true, true)];
    y.(head := head1[p + s := head1[p + s].(pinuse := true)])
  }

  /** A free chunk is split: its first nb bytes are taken, the rest stays free. */
  ghost function TakePart(y: Segment, p: Addr, nb: nat): Segment
    requires p in y.head && nb <= y.head[p].size
  {
    var rsize := y.head[p].size - nb;
    y.(starts := y.starts + {p + nb},
       head := y.head[p := HeadWord(nb, true, true)][p + nb := HeadWord(rsize, true, false)],
       foot := y.foot[p + nb + rsize := rsize])
  }

  /** The first nb bytes of top are taken. */
  ghost function TakeTop(y: Segment, nb: nat): Segment
    requires nb <= y.topsize
  {
    y.(starts := y.starts + {y.top + nb},
       head := y.head[y.top + nb := HeadWord(y.topsize - nb, true, false)][y.top := HeadWord(nb, true, true)],
       top := y.top + nb, topsize := y.topsize - nb)
  }

  /** The chunks from q up to e become one free chunk, or part of top if they reach it. */
  ghost function Coalesced(y: Segment, q: Addr, e: Addr): Segment
    requires e in y.head && q <= e
  {
    if e == y.top then
      y.(starts := (set d | d in y.starts && d <= q),
         head := y.head[q := HeadWord(e - q + y.topsize, true, false)],
         top := q, topsize := e - q + y.topsize)
    else
      y.(starts := (set d | d in y.starts && (d <= q || e <= d)),
         head := y.head[e := y.head[e].(pinuse := false)][q := HeadWord(e - q, true, false)],
         foot := y.foot[e := e - q])
  }

  /** How the free and the live chunks change, chunk by chunk. */
  ghost predicate Changes(y: Segment, y': Segment, free: map<Addr, nat>, live: map<Addr, nat>) {
    && (forall c {:trigger IsFree(y', c)} :: IsFree(y', c) <==> c in free)
    && (forall c {:trigger IsLive(y', c)} :: IsLive(y', c) <==> c in live)
    && (forall c | c in free :: c in y'.head && y'.head[c].size == free[c])
    && (forall c | c in live :: c in y'.head && y'.head[c].size == live[c])
  }

  lemma ChangesAre(y: Segment, y': Segment, free: map<Addr, nat>, live: map<Addr, nat>)
    requires Changes(y, y', free, live)
    ensures FreeChunks(y') == free && LiveChunks(y') == live
  {
    forall c
      ensures c in FreeChunks(y') <==> c in free
      ensures c in LiveChunks(y') <==> c in live
    {
      assert IsFree(y', c) <==> c in free;
      assert IsLive(y', c) <==> c in live;
    }
  }

  lemma TakeWholeLayout(y: Segment, p: Addr)
    requires LayoutOK(y) && IsFree(y, p)
    ensures p + y.head[p].size in y.head && LayoutOK(TakeWhole(y, p))
  {
    assert ChunkOK(y, p);
    var y' := TakeWhole(y, p);
    forall c | c in y'.starts
      ensures Placed(y', c)
    {
      assert Placed(y, c);
    }
    forall c | c in y'.starts && c != y'.top
      ensures ChunkOK(y', c)
    {
      assert ChunkOK(y, c);
      if c != p { Apart(y, c, p); }
    }
  }

  lemma TakeWholeOK(y: Segment, p: Addr)
    requires LayoutOK(y) && IsFree(y, p)
    ensures p + y.head[p].size in y.head
    ensures var y' := TakeWhole(y, p);
      && LayoutOK(y')
      && FreeChunks(y') == FreeChunks(y) - {p}
      && LiveChunks(y') == LiveChunks(y)[p := y.head[p].size]
  {
    TakeWholeLayout(y, p);
    var y' := TakeWhole(y, p);
    assert Changes(y, y', FreeChunks(y) - {p}, LiveChunks(y)[p := y.head[p].size]) by { assert ChunkOK(y, p); }
    ChangesAre(y, y', FreeChunks(y) - {p}, LiveChunks(y)[p := y.head[p].size]);
  }

  /** The chunk after a free chunk is in use. */
  lemma NotBothFree(y: Segment, p: Addr)
    requires LayoutOK(y) && IsFree(y, p)
    ensures var n := p + y.head[p].size; n != y.top && IsLive(y, n)
  {
    assert ChunkOK(y, p);
    var n := p + y.head[p].size;
    if n != y.top { assert ChunkOK(y, n); }
  }

  lemma TakePartLayout(y: Segment, p: Addr, nb: nat)
    requires LayoutOK(y) && IsFree(y, p)
    requires MIN_CHUNK_SIZE <= nb && nb % 8 == 0 && nb + MIN_CHUNK_SIZE <= y.head[p].size
    ensures LayoutOK(TakePart(y, p, nb)) && p + nb !in y.starts && p + nb < y.top
  {
    RemainderPlace(y, p, nb);
    hide ChunkOK, Placed;
    var y', r := TakePart(y, p, nb), p + nb;
    forall c | c in y'.starts
      ensures Placed(y', c) && (c != y'.top ==> ChunkOK(y', c))
    {
      TakePartChunk(y, p, nb, c);
    }
  }

  lemma RemainderPlace(y: Segment, p: Addr, nb: nat)
    requires LayoutOK(y) && IsFree(y, p) && MIN_CHUNK_SIZE <= nb && nb + MIN_CHUNK_SIZE <= y.head[p].size
    ensures p + nb !in y.starts && p + nb < y.top
  {
    assert ChunkOK(y, p) && Placed(y, p + y.head[p].size);
  }

  lemma TakePartChunk(y: Segment, p: Addr, nb: nat, c: Addr)
    requires LayoutOK(y) && IsFree(y, p)
    requires MIN_CHUNK_SIZE <= nb && nb % 8 == 0 && nb + MIN_CHUNK_SIZE <= y.head[p].size
    requires c == p + nb || c in y.starts
    ensures Placed(TakePart(y, p, nb), c)
    ensures c != y.top ==> ChunkOK(TakePart(y, p, nb), c)
  {
    assert ChunkOK(y, p) && Placed(y, p) && Placed(y, p + y.head[p].size);
    if c in y.starts {
      assert Placed(y, c);
      if c != y.top { assert ChunkOK(y, c); }
      if c != p { Apart(y, c, p); }
    }
  }

  lemma TakePartOK(y: Segment, p: Addr, nb: nat)
    requires LayoutOK(y) && IsFree(y, p)
    requires MIN_CHUNK_SIZE <= nb && nb % 8 == 0 && nb + MIN_CHUNK_SIZE <= y.head[p].size
    ensures var y' := TakePart(y, p, nb);
      && LayoutOK(y')
      && p + nb !in y.starts
      && FreeChunks(y') == (FreeChunks(y) - {p})[p + nb := y.head[p].size - nb]
      && LiveChunks(y') == LiveChunks(y)[p := nb]
  {
    TakePartLayout(y, p, nb);
    var y' := TakePart(y, p, nb);
    var free, live := (FreeChunks(y) - {p})[p + nb := y.head[p].size - nb], LiveChunks(y)[p := nb];
    assert Changes(y, y', free, live);
    ChangesAre(y, y', free, live);
  }

  /** Neither of two chunks starts inside the other. */
  lemma Apart(y: Segment, c: Addr, d: Addr)
    requires LayoutOK(y) && c in y.starts && d in y.starts && c != d
    ensures c < d ==> c != y.top && c + y.head[c].size <= d
    ensures d < c ==> d != y.top && d + y.head[d].size <= c
  {
    if c < d { ChunksDisjoint(y, c, d); } else { ChunksDisjoint(y, d, c); }
  }

  lemma TopIsLast(y: Segment)
    requires LayoutOK(y)
    ensures forall d | d in y.starts :: d <= y.top
  {
    forall d | d in y.starts
      ensures d <= y.top
    {
      assert Placed(y, d);
    }
  }

  lemma TakeTopChunk(y: Segment, nb: nat, c: Addr)
    requires LayoutOK(y) && MIN_CHUNK_SIZE <= nb && nb % 8 == 0 && nb < y.topsize
    requires c in y.starts || c == y.top + nb
    ensures Placed(TakeTop(y, nb), c)
    ensures c in y.starts ==> c <= y.top && ChunkOK(TakeTop(y, nb), c)
  {
    assert Placed(y, y.top);
    TopIsLast(y);
    if c in y.starts {
      assert Placed(y, c);
      if c != y.top { assert ChunkOK(y, c); ChunksDisjoint(y, c, y.top); }
    }
  }

  lemma TakeTopLayout(y: Segment, nb: nat)
    requires LayoutOK(y) && MIN_CHUNK_SIZE <= nb && nb % 8 == 0 && nb < y.topsize
    ensures LayoutOK(TakeTop(y, nb))
    ensures forall c | c in y.starts :: c <= y.top
  {
    hide ChunkOK, Placed;
    var y' := TakeTop(y, nb);
    TakeTopChunk(y, nb, y.base);
    forall c | c in y'.starts
      ensures Placed(y', c)
      ensures c in y.starts ==> c <= y.top && ChunkOK(y', c)
    {
      TakeTopChunk(y, nb, c);
    }
  }

  lemma TakeTopOK(y: Segment, nb: nat)
    requires LayoutOK(y) && MIN_CHUNK_SIZE <= nb && nb % 8 == 0 && nb < y.topsize
    ensures var y' := TakeTop(y, nb);
      && LayoutOK(y')
      && FreeChunks(y') == FreeChunks(y)
      && LiveChunks(y') == LiveChunks(y)[y.top := nb]
      && y.top !in LiveChunks(y)
  {
    TakeTopLayout(y, nb);
    var y' := TakeTop(y, nb);
    assert Changes(y, y', FreeChunks(y), LiveChunks(y)[y.top := nb]);
    ChangesAre(y, y', FreeChunks(y), LiveChunks(y)[y.top := nb]);
  }

  lemma CoalescedOK(y: Segment, q: Addr, e: Addr)
    requires LayoutOK(y) && q in y.starts && e in y.starts && q < e && y.head[q].pinuse
    requires e != y.top ==> y.head[e].cinuse
    ensures LayoutOK(Coalesced(y, q, e))
  {
    hide ChunkOK, Placed;
    var y' := Coalesced(y, q, e);
    CoalescedPlaces(y, q, e);
    forall c | c in y'.starts && c != y'.top
      ensures ChunkOK(y', c)
    {
      if c < q { CoalescedBelow(y, q, e, c); }
      else if c == q { CoalescedSelf(y, q, e); }
      else { CoalescedAbove(y, q, e, c); }
    }
  }

  lemma CoalescedPlaces(y: Segment, q: Addr, e: Addr)
    requires LayoutOK(y) && q in y.starts && e in y.starts && q < e
    ensures var y' := Coalesced(y, q, e);
      && (forall c | c in y'.starts :: Placed(y', c) && c <= y.top)
      && y.base <= q && e <= y.top && (e - q) % 8 == 0 && q > 0
  {
    hide ChunkOK;
    assert Placed(y, q) && Placed(y, e) && Placed(y, y.top);
    forall c | c in y.starts
      ensures Placed(y, c) && c <= y.top
    {
    }
  }

  lemma CoalescedSelf(y: Segment, q: Addr, e: Addr)
    requires LayoutOK(y) && q in y.starts && e in y.starts && q < e && e != y.top
    ensures ChunkOK(Coalesced(y, q, e), q)
  {
    ChunksDisjoint(y, q, e);
    assert ChunkOK(y, q) && Placed(y, q) && Placed(y, e);
  }

  lemma CoalescedAbove(y: Segment, q: Addr, e: Addr, c: Addr)
    requires LayoutOK(y) && q in y.starts && e in y.starts && q < e && e != y.top && y.head[e].cinuse
    requires c in y.starts && e <= c && c != y.top
    ensures ChunkOK(Coalesced(y, q, e), c)
  {
    assert ChunkOK(y, c);
  }

  lemma CoalescedBelow(y: Segment, q: Addr, e: Addr, c: Addr)
    requires LayoutOK(y) && q in y.starts && e in y.starts && q < e && y.head[q].pinuse && c in y.starts && c < q
    ensures c != y.top && ChunkOK(Coalesced(y, q, e), c)
  {
    ChunksDisjoint(y, c, q);
    assert ChunkOK(y, c) && Placed(y, c + y.head[c].size);
  }

  /** Coalescing makes the chunks of the region free and leaves the others alone. */
  lemma CoalescedChunks(y: Segment, q: Addr, e: Addr)
    requires LayoutOK(y) && q in y.starts && e in y.starts && q < e
    ensures var y' := Coalesced(y, q, e);
      && (forall c :: IsLive(y', c) <==> IsLive(y, c) && !(q <= c < e))
      && (forall c :: IsFree(y', c) <==> (IsFree(y, c) && !(q <= c < e)) || (c == q && e != y.top))
      && (forall c | c in y'.starts && c != q && c != y'.top ::
            c in y'.head && c in y.head && y'.head[c].size == y.head[c].size)
      && (e != y.top ==> y'.head[q].size == e - q)
  {
    forall c | c in y.starts
      ensures c in y.head && c <= y.top
    {
      assert Placed(y, c);
    }
  }
}
