/**
 dlmalloc and dlfree over one contiguous segment: the bins, the designated
 victim dv and top are an index over the free chunks of the layout, and every
 operation keeps the two in agreement.
 */
module Heap {
  import opened Words
  import opened Binmap
  import opened Rings
  import opened TreeBins
  import opened SmallBins
  import opened Layout

  const MAX_REQUEST: nat := 0xffff_ffc0
  const MAX_SMALL_REQUEST: nat := 244
  const MIN_REQUEST: nat := 11
  const MAX_SIZE_T: nat := 0xffff_ffff

  /** (bytes + CHUNK_OVERHEAD + CHUNK_ALIGN_MASK) & ~CHUNK_ALIGN_MASK */
  function PadRequest(bytes: nat): (nb: nat)
    ensures nb % 8 == 0 && bytes + 4 <= nb < bytes + 12
  {
    (bytes + 11) / 8 * 8
  }

  /** Every free chunk is in exactly one of its smallbin, its treebin, and dv. */
  ghost predicate IndexOK(free: map<Addr, nat>, s: map<Addr, nat>, t: map<Addr, nat>, dv: Addr, dvsize: nat) {
    && 0 !in free
    && s.Keys !! t.Keys
    && dv !in s && dv !in t
    && (dv == 0 <==> dvsize == 0)
    && (forall c | c in s :: c in free && free[c] == s[c])
    && (forall c | c in t :: c in free && free[c] == t[c])
    && (dv != 0 ==> dv in free && free[dv] == dvsize)
    && (forall c | c in free :: c in s || c in t || c == dv)
  }

  function Sizes(head: map<Addr, HeadWord>): map<Addr, nat> {
    map c | c in head :: head[c].size
  }

  class Heap {
    const small: Smallbins
    const tree: Treebins
    var head: map<Addr, HeadWord>
    var foot: map<Addr, int>
    var dv: Addr
    var dvsize: nat
    var top: Addr
    var topsize: nat
    ghost var base: Addr
    ghost var starts: set<Addr>

    ghost function Seg(): Segment
      reads this
    {
      Segment(base, starts, head, foot, top, topsize)
    }

    ghost function Live(): map<Addr, nat>
      reads this
    {
      LiveChunks(Seg())
    }

    ghost function Free(): map<Addr, nat>
      reads this
    {
      FreeChunks(Seg())
    }

    /** The bins and the link fields of free chunks are sound. */
    ghost predicate BinsOK()
      reads this, small, tree
    {
      small.Valid() && tree.Valid()
    }

    /** The bins and dv index exactly the given free chunks. */
    ghost predicate Indexes(free: map<Addr, nat>)
      reads this, small, tree
    {
      BinsOK() && IndexOK(free, small.sz, tree.g.sz, dv, dvsize)
    }

    ghost predicate Valid()
      reads this, small, tree
    {
      && (if top == 0 then starts == {} && topsize == 0 else LayoutOK(Seg()))
      && Indexes(Free())
    }

    constructor ()
      ensures Valid() && Live() == map[] && fresh(small) && fresh(tree)
    {
      small := new Smallbins();
      tree := new Treebins();
      head, foot := map[], map[];
      dv, dvsize, top, topsize := 0, 0, 0, 0;
      base, starts := 0, {};
    }

    /** insert_chunk: relay to the smallbins or the treebins. */
    method InsertChunk(p: Addr, s: nat)
      requires BinsOK() && Agree(Sizes(head), tree.g.sz)
      requires p > 0 && p !in small.sz && p !in tree.g.sz
      requires MIN_CHUNK_SIZE <= s < WORD && s % 8 == 0
      modifies small, tree
      ensures BinsOK()
      ensures if s < MIN_LARGE_SIZE then small.sz == old(small.sz)[p := s] && tree.g.sz == old(tree.g.sz)
              else small.sz == old(small.sz) && tree.g.sz == old(tree.g.sz)[p := s]
    {
      if s / 8 < 32 {
        small.InsertSmall(p, s);
      } else {
        tree.InsertLarge(Sizes(head), p, s);
      }
    }

    /** unlink_chunk: relay to the smallbins or the treebins. */
    method UnlinkChunk(p: Addr, s: nat)
      requires BinsOK()
      requires p in small.sz || p in tree.g.sz
      requires p in small.sz ==> small.sz[p] == s
      requires p in tree.g.sz ==> tree.g.sz[p] == s
      requires small.sz.Keys !! tree.g.sz.Keys
      modifies small, tree
      ensures BinsOK()
      ensures small.sz == old(small.sz) - {p} && tree.g.sz == old(tree.g.sz) - {p}
    {
      hide SmallOK, TreeOK;
      SmallIsSmall(small.smallmap, small.fd, small.bk, small.bins, small.sz);
      AllLarge(tree.l, tree.g);
      if s / 8 < 32 {
        small.UnlinkSmall(p, s);
      } else {
        tree.UnlinkLarge(p);
      }
    }

    /** set_inuse_and_pinuse */
    method SetInuseAndPinuse(p: Addr, s: nat)
      requires p + s in head && s > 0
      modifies this`head
      ensures head == old(head)[p := HeadWord(s, true, true)][p + s := old(head)[p + s].(pinuse := true)]
    {
      head := head[p := HeadWord(s, true, true)];
      head := head[p + s := head[p + s].(pinuse := true)];
    }

    /** set_size_and_pinuse_of_inuse_chunk(p, nb) and set_size_and_pinuse_of_free_chunk(p + nb, rsize) */
    method SplitChunk(p: Addr, nb: nat, rsize: nat)
      requires nb > 0
      modifies this`head, this`foot
      ensures head == old(head)[p := HeadWord(nb, true, true)][p + nb := HeadWord(rsize, true, false)]
      ensures foot == old(foot)[p + nb + rsize := rsize]
    {
      head := head[p := HeadWord(nb, true, true)];
      var r := p + nb;
      head := head[r := HeadWord(rsize, true, false)];
      foot := foot[r + rsize := rsize];
    }

    /** The user gained exactly the chunk before mem, of nb bytes up to a remainder too small to split. */
    twostate predicate Gained(mem: Addr, nb: nat)
      reads this
    {
      var p := mem - 8;
      && p > 0 && p % 8 == 0
      && p !in old(Live())
      && p in Live() && Live() == old(Live())[p := Live()[p]]
      && nb <= Live()[p] < nb + 16
    }

    /** The segment neither grew nor shrank. */
    twostate predicate SameExtent()
      reads this
    {
      base == old(base) && top + topsize == old(top + topsize)
    }

    /** dv is where it was, grown if it was merged, or gone into top. */
    twostate predicate DvKept()
      reads this
    {
      if old(dv) == 0 || dv == 0 then dv == 0 && (old(dv) == 0 || top <= old(dv))
      else dv <= old(dv) && old(dv + dvsize) <= dv + dvsize
    }

    /** A remainder of rsize bytes is the new dv, unless it was too small to split off. */
    twostate predicate DvAfter(mem: Addr, nb: nat, rsize: nat)
      reads this
    {
      if rsize < MIN_CHUNK_SIZE then dv == old(dv) && dvsize == old(dvsize) else dv == mem - 8 + nb && dvsize == rsize
    }

    /** v is a free chunk just taken out of the index. */
    ghost predicate Loose(v: Addr)
      reads this, small, tree
    {
      && top != 0 && LayoutOK(Seg())
      && v in Free()
      && Indexes(Free() - {v})
    }

    /** The end of tmalloc_large: use v, returning a remainder to the bins. */
    method UseAndRebin(v: Addr, nb: nat, rsize: nat) returns (mem: Addr)
      requires Loose(v) && Free()[v] == nb + rsize && MIN_CHUNK_SIZE <= nb && nb % 8 == 0
      modifies this, small, tree
      ensures Valid() && top == old(top) && dv == old(dv) && dvsize == old(dvsize)
      ensures mem == v + 8 && Gained(mem, nb)
      ensures SameExtent()
    {
      hide SmallOK, TreeOK, LayoutOK, FreeChunks, LiveChunks, TakeWhole, TakePart, IndexOK, Agree;
      ghost var y := Seg();
      IsFreeChunk(y, v);
      mem := v + 8;
      if rsize < MIN_CHUNK_SIZE {
        TakeWholeOK(y, v);
        SetInuseAndPinuse(v, rsize + nb);
        assert Seg() == TakeWhole(y, v) by { TakeWholeIs(y, v); }
      } else {
        TakePartOK(y, v, nb);
        SplitChunk(v, nb, rsize);
        starts := starts + {v + nb};
        assert Seg() == TakePart(y, v, nb) by { TakePartIs(y, v, nb); }
        NotInFree(y, v + nb);
        IndexAdd(Seg(), FreeChunks(y) - {v}, small.sz, tree.g.sz, dv, dvsize, v + nb, rsize);
        InsertChunk(v + nb, rsize);
      }
    }

    /** A search that finds nothing changes nothing. */
    twostate predicate Untouched()
      reads this, small, tree
    {
      && Seg() == old(Seg())
      && small.sz == old(small.sz) && tree.g == old(tree.g) && tree.l == old(tree.l)
      && dv == old(dv) && dvsize == old(dvsize)
    }

    /**
     tmalloc_large: the smallest tree chunk that fits is used, unless there is
     none or dv fits at least as well.
     */
    method TmallocLarge(nb: nat) returns (mem: Addr)
      requires Valid() && top != 0 && MIN_LARGE_SIZE <= nb < WORD && nb % 8 == 0
      modifies this, small, tree
      ensures Valid() && top == old(top) && dv == old(dv) && dvsize == old(dvsize)
      ensures mem == 0 <==>
        forall c | c in old(tree.g.sz) && nb <= old(tree.g.sz)[c] :: nb <= dvsize <= old(tree.g.sz)[c]
      ensures mem == 0 ==> Untouched()
      ensures SameExtent()
      ensures mem != 0 ==>
        && Gained(mem, nb)
        && mem - 8 in old(tree.g.sz) && nb <= old(tree.g.sz)[mem - 8]
        && (dvsize < nb || old(tree.g.sz)[mem - 8] < dvsize)
        && forall c | c in old(tree.g.sz) && nb <= old(tree.g.sz)[c] :: old(tree.g.sz)[mem - 8] <= old(tree.g.sz)[c]
    {
      hide SmallOK, TreeOK, LayoutOK, FreeChunks, LiveChunks;
      TreeSizes(Seg(), tree.l, tree.g, small.sz, dv, dvsize);
      mem := 0;
      var v, rsize := tree.BestFit(Sizes(head), nb);
      if v != 0 && rsize < (dvsize - nb) % WORD {
        tree.UnlinkLarge(v);
        mem := UseAndRebin(v, nb, rsize);
      }
    }

    /** replace_dv: the old dv, known to be small, is binned. */
    method ReplaceDv(p: Addr, s: nat)
      requires BinsOK() && dv !in small.sz && dv >= 0
      requires dvsize != 0 ==> dv > 0 && IsSmallSize(dvsize)
      modifies this`dv, this`dvsize, small
      ensures BinsOK() && dv == p && dvsize == s
      ensures small.sz == if old(dvsize) != 0 then old(small.sz)[old(dv) := old(dvsize)] else old(small.sz)
    {
      if dvsize != 0 {
        small.InsertSmall(dv, dvsize);
      }
      dvsize := s;
      dv := p;
    }

    /** The end of tmalloc_small and of the smallbin split: use v, making a remainder the new dv. */
    method UseAndReplaceDv(v: Addr, nb: nat, rsize: nat) returns (mem: Addr)
      requires Loose(v) && Free()[v] == nb + rsize && MIN_CHUNK_SIZE <= nb && nb % 8 == 0
      requires v != dv && dvsize < MIN_LARGE_SIZE
      modifies this, small, tree
      ensures Valid() && top == old(top)
      ensures mem == v + 8 && Gained(mem, nb)
      ensures DvAfter(mem, nb, rsize)
      ensures SameExtent()
    {
      hide SmallOK, TreeOK, LayoutOK, FreeChunks, LiveChunks, TakeWhole, TakePart;
      ghost var y := Seg();
      IsFreeChunk(y, v);
      if dv != 0 { IsFreeChunk(y, dv); }
      mem := v + 8;
      if rsize < MIN_CHUNK_SIZE {
        TakeWholeOK(y, v);
        SetInuseAndPinuse(v, rsize + nb);
        assert Seg() == TakeWhole(y, v) by { TakeWholeIs(y, v); }
      } else {
        TakePartOK(y, v, nb);
        SplitChunk(v, nb, rsize);
        starts := starts + {v + nb};
        assert Seg() == TakePart(y, v, nb) by { TakePartIs(y, v, nb); }
        NotInFree(y, v + nb);
        IndexReplaceDv(FreeChunks(y) - {v}, small.sz, tree.g.sz, dv, dvsize, v + nb, rsize);
        ReplaceDv(v + nb, rsize);
      }
    }

    /** tmalloc_small: the smallest tree chunk is split, its remainder becoming dv. */
    method TmallocSmall(nb: nat) returns (mem: Addr)
      requires Valid() && top != 0 && MIN_CHUNK_SIZE <= nb < MIN_LARGE_SIZE && nb % 8 == 0
      requires tree.l.treemap != 0 && dvsize < nb
      modifies this, small, tree
      ensures Valid() && top == old(top)
      ensures mem - 8 in old(tree.g.sz) && Gained(mem, nb)
      ensures SameExtent()
      ensures nb < old(tree.g.sz)[mem - 8] && DvAfter(mem, nb, old(tree.g.sz)[mem - 8] - nb)
      ensures forall c | c in old(tree.g.sz) :: old(tree.g.sz)[mem - 8] <= old(tree.g.sz)[c]
    {
      hide SmallOK, TreeOK, LayoutOK, FreeChunks, LiveChunks;
      TreeSizes(Seg(), tree.l, tree.g, small.sz, dv, dvsize);
      var v, rsize := tree.SmallestFit(Sizes(head), nb);
      tree.UnlinkLarge(v);
      mem := UseAndReplaceDv(v, nb, rsize);
    }

    /** The smallbin paths of dlmalloc: a remainderless fit, or the next nonempty bin split. */
    method MallocFromSmallbins(nb: nat) returns (mem: Addr)
      requires Valid() && MIN_CHUNK_SIZE <= nb < MIN_LARGE_SIZE && nb % 8 == 0
      modifies this, small, tree
      ensures Valid() && top == old(top)
      ensures mem == 0 ==> Untouched()
      ensures SameExtent()
      ensures mem == 0 && dvsize < nb ==> !Fits(small.sz, nb)
      ensures mem == 0 ==> !Remainderless(small.sz, nb)
      ensures mem != 0 ==> Gained(mem, nb) && Smallest(old(small.sz), nb, mem - 8)
      ensures mem != 0 ==> DvAfter(mem, nb, old(small.sz)[mem - 8] - nb)
      ensures mem != 0 ==> old(dvsize) < nb || Remainderless(old(small.sz), nb)
    {
      hide SmallOK, TreeOK, LayoutOK, FreeChunks, LiveChunks, Marked, BitwiseAnd, LeftBits, LeastBit, BitToIndex, Shr, Shl, Not, TakeWhole;
      hide Smallest, Remainderless;
      mem := 0;
      var idx := nb / 8;
      SmallMarks(small.smallmap, small.fd, small.bk, small.bins, small.sz);
      FirstOfTwo(small.smallmap, idx);
      var smallbits := Shr(small.smallmap, idx);
      ghost var y, s, m := Seg(), small.sz, small.smallmap;
      if BitwiseAnd(smallbits, 3) != 0 {
        idx := idx + BitwiseAnd(Not(smallbits), 1);
        var p := small.UnlinkFirst(idx);
        OwnBinFirst(m, s, nb, p);
        HasChunk(y, p);
        IsFreeChunk(y, p);
        TakeWholeOK(y, p);
        SetInuseAndPinuse(p, IndexToSize(idx));
        assert Seg() == TakeWhole(y, p) by { TakeWholeIs(y, p); }
        mem := p + 8;
      } else {
        NoRemainderless(m, s, nb);
        if nb > dvsize {
          if smallbits != 0 {
            mem := FromNextBin(nb, smallbits);
          } else {
            NoneAbove(small.smallmap, small.sz, idx);
          }
        }
      }
    }

    /** The next nonempty smallbin of dlmalloc: its chunk is split, the remainder becoming dv. */
    method FromNextBin(nb: nat, smallbits: nat) returns (mem: Addr)
      requires Valid() && MIN_CHUNK_SIZE <= nb < MIN_LARGE_SIZE && nb % 8 == 0 && dvsize < nb
      requires smallbits == Shr(small.smallmap, nb / 8) != 0 && !Marked(small.smallmap, nb / 8) && !Marked(small.smallmap, nb / 8 + 1)
      modifies this, small, tree
      ensures Valid() && top == old(top) && SameExtent()
      ensures mem != 0 && Gained(mem, nb) && Smallest(old(small.sz), nb, mem - 8)
      ensures nb + MIN_CHUNK_SIZE <= old(small.sz)[mem - 8] && DvAfter(mem, nb, old(small.sz)[mem - 8] - nb)
    {
      hide SmallOK, TreeOK, LayoutOK, FreeChunks, LiveChunks, Marked, BitwiseAnd, LeftBits, LeastBit, BitToIndex, Shr, Shl, Not, Smallest;
      SmallMarks(small.smallmap, small.fd, small.bk, small.bins, small.sz);
      ghost var y, s, m := Seg(), small.sz, small.smallmap;
      var idx := nb / 8;
      MarksAbove(m, idx);
      var leftbits := BitwiseAnd(Shl(smallbits, idx), LeftBits(Pow2(idx)));
      LeastMarked(leftbits);
      var i := BitToIndex(LeastBit(leftbits));
      var p := small.UnlinkFirst(i);
      NextBinFirst(m, s, nb, leftbits, i, p);
      HasChunk(y, p);
      var rsize := IndexToSize(i) - nb;
      assert rsize >= MIN_CHUNK_SIZE;
      mem := UseAndReplaceDv(p, nb, rsize);
    }

    /** The dv path of dlmalloc: split dv, or exhaust it. */
    method UseDv(nb: nat) returns (mem: Addr)
      requires Valid() && MIN_CHUNK_SIZE <= nb <= dvsize && nb % 8 == 0
      modifies this
      ensures Valid() && top == old(top)
      ensures mem == old(dv) + 8 && Gained(mem, nb)
      ensures SameExtent()
    {
      hide SmallOK, TreeOK, LayoutOK, FreeChunks, LiveChunks, TakeWhole, TakePart;
      ghost var y := Seg();
      HasChunk(y, dv);
      IsFreeChunk(y, dv);
      assert FreeChunks(y)[dv] == dvsize;
      hide IndexOK;
      var rsize := dvsize - nb;
      var p := dv;
      mem := p + 8;
      if rsize >= MIN_CHUNK_SIZE {
        TakePartOK(y, p, nb);
        NotInFree(y, p + nb);
        IndexMoveDv(FreeChunks(y), small.sz, tree.g.sz, dv, dvsize, p + nb, rsize);
        dv := p + nb;
        dvsize := rsize;
        SplitChunk(p, nb, rsize);
        starts := starts + {p + nb};
        assert Seg() == TakePart(y, p, nb) by { TakePartIs(y, p, nb); }
      } else {
        TakeWholeOK(y, p);
        IndexDropDv(FreeChunks(y), small.sz, tree.g.sz, dv, dvsize);
        var dvs := dvsize;
        dvsize := 0;
        dv := 0;
        SetInuseAndPinuse(p, dvs);
        assert Seg() == TakeWhole(y, p) by { TakeWholeIs(y, p); }
      }
    }

    /** Split top, as dlmalloc and sys_alloc do. */
    method UseTop(nb: nat) returns (mem: Addr)
      requires Valid() && MIN_CHUNK_SIZE <= nb < topsize && nb % 8 == 0
      modifies this
      ensures Valid() && mem == old(top) + 8 && Gained(mem, nb)
      ensures SameExtent()
    {
      hide SmallOK, TreeOK, LayoutOK, FreeChunks, LiveChunks;
      ghost var y := Seg();
      TakeTopOK(y, nb);
      TopPlaced(y);
      topsize := topsize - nb;
      var p := top;
      top := p + nb;
      head := head[top := HeadWord(topsize, true, false)];
      head := head[p := HeadWord(nb, true, true)];
      starts := starts + {top};
      assert Seg() == TakeTop(y, nb);
      mem := p + 8;
    }

    /** What the system may return: nothing, a first segment, or space contiguous with the present one. */
    ghost predicate Grants(more: MoreCore)
      reads this
    {
      more.Got? ==>
        && more.size % 8 == 0
        && more.at + more.size <= WORD
        && if top == 0 then more.at > 0 && more.at % 8 == 0 && more.size > TOP_FOOT_SIZE
           else more.at == top + topsize + TOP_FOOT_SIZE
    }

    /** init_top */
    method InitTop(p: Addr, psize: nat)
      modifies this`head, this`top, this`topsize
      ensures top == p && topsize == psize
      ensures head == old(head)[p := HeadWord(psize, true, false)][p + psize := HeadWord(TOP_FOOT_SIZE, false, false)]
    {
      top := p;
      topsize := psize;
      head := head[p := HeadWord(psize, true, false)];
      head := head[p + psize := HeadWord(TOP_FOOT_SIZE, false, false)];
    }

    /** sys_alloc: extend top with what the system grants and allocate from it if it is enough. */
    method SysAlloc(nb: nat, more: MoreCore) returns (mem: Addr)
      requires Valid() && Grants(more) && MIN_CHUNK_SIZE <= nb < WORD && (nb % 8 == 0 || nb == MAX_SIZE_T)
      modifies this, small, tree
      ensures Valid()
      ensures mem == 0 ==> Live() == old(Live()) && Free() == old(Free()) && (more.Got? ==> topsize <= nb)
      ensures mem != 0 ==> nb != MAX_SIZE_T && Gained(mem, nb) && mem == TopPlace(more)
      ensures if more.Got? then Grown(more) else mem == 0 && SameExtent() && topsize == old(topsize)
    {
      hide SmallOK, TreeOK, LayoutOK, FreeChunks, LiveChunks;
      mem := 0;
      if more.Got? {
        ghost var y := Seg();
        if top == 0 {
          InitTop(more.at, more.size - TOP_FOOT_SIZE);
          base, starts := top, {top};
          FirstSegment(y, Seg());
        } else {
          ExtendTop(y, more.size);
          InitTop(top, topsize + more.size);
          assert Seg() == Extended(y, more.size);
        }
        TopBelowWord(Seg());
        if nb < topsize {
          mem := UseTop(nb);
        }
      }
    }

    /** The segment grew by exactly what the system granted. */
    twostate predicate Grown(more: MoreCore)
      requires more.Got?
      reads this
    {
      && base == (if old(top) == 0 then more.at else old(base))
      && top + topsize + 40 == more.at + more.size
    }

    /** Where a chunk from top begins for the user: at the present top, or in a first segment. */
    twostate function TopPlace(more: MoreCore): Addr
      reads this
    {
      8 + if old(top) == 0 && more.Got? then more.at else old(top)
    }

    /** All binned chunks are smaller than nb. */
    ghost predicate NoneBinned(nb: nat)
      reads small, tree
    {
      !Fits(small.sz, nb) && !Fits(tree.g.sz, nb)
    }

    /** The bin searches of dlmalloc for a small request. */
    method FromBinsSmall(nb: nat) returns (mem: Addr)
      requires Valid() && MIN_CHUNK_SIZE <= nb < MIN_LARGE_SIZE && nb % 8 == 0
      modifies this, small, tree
      ensures Valid()
      ensures mem == 0 ==> Untouched() && (dvsize < nb ==> NoneBinned(nb)) && !Remainderless(small.sz, nb)
      ensures mem != 0 ==> Gained(mem, nb) && SmallUse(old(small.sz), old(tree.g.sz), old(dv), old(dvsize), nb, mem)
      ensures mem != 0 ==> Fits(old(Free()), nb)
      ensures SameExtent()
    {
      hide SmallOK, TreeOK, LayoutOK, FreeChunks, LiveChunks, Remainderless;
      BinnedFit(Free(), small.sz, tree.g.sz, dv, dvsize, nb);
      mem := MallocFromSmallbins(nb);
      if mem == 0 && nb > dvsize {
        TreemapReady();
        if tree.l.treemap != 0 {
          mem := TmallocSmall(nb);
        }
      }
    }

    lemma TreemapReady()
      requires Valid()
      ensures tree.l.treemap == 0 <==> tree.g.sz == map[]
      ensures tree.l.treemap != 0 ==> top != 0
    {
      hide SmallOK, TreeOK, LayoutOK;
      TreemapSpec(tree.l, tree.g);
      if tree.l.treemap != 0 {
        var a := SomeKey(tree.g.sz);
        HasChunk(Seg(), a);
      }
    }

    /** The bin search of dlmalloc for a large request. */
    method FromBinsLarge(nb: nat) returns (mem: Addr)
      requires Valid() && MIN_LARGE_SIZE <= nb < WORD && nb % 8 == 0
      modifies this, small, tree
      ensures Valid()
      ensures mem == 0 ==> Untouched() && (dvsize < nb ==> NoneBinned(nb))
      ensures mem == 0 ==> forall c | c in tree.g.sz && nb <= tree.g.sz[c] :: nb <= dvsize <= tree.g.sz[c]
      ensures mem != 0 ==> Gained(mem, nb) && BestUse(old(Free()), nb, mem)
      ensures mem != 0 ==> Fits(old(Free()), nb)
      ensures SameExtent()
    {
      hide SmallOK, TreeOK, LayoutOK, FreeChunks, LiveChunks;
      BinnedFit(Free(), small.sz, tree.g.sz, dv, dvsize, nb);
      TreemapReady();
      SmallIsSmall(small.smallmap, small.fd, small.bk, small.bins, small.sz);
      mem := 0;
      if tree.l.treemap != 0 {
        mem := TmallocLarge(nb);
      }
    }

    /** The dv, top and system steps of dlmalloc. */
    method FromDvOrTop(nb: nat, more: MoreCore) returns (mem: Addr)
      requires Valid() && Grants(more) && MIN_CHUNK_SIZE <= nb < WORD && (nb % 8 == 0 || nb == MAX_SIZE_T)
      requires dvsize < MAX_SIZE_T && topsize < MAX_SIZE_T
      modifies this, small, tree
      ensures Valid()
      ensures nb <= old(dvsize) ==> mem == old(dv) + 8
      ensures mem != 0 ==> nb != MAX_SIZE_T && Gained(mem, nb)
      ensures mem == 0 ==> old(dvsize) < nb && Live() == old(Live()) && Free() == old(Free()) && topsize <= nb
      ensures mem != 0 && old(dvsize) < nb ==> mem == TopPlace(more)
      ensures if old(dvsize) < nb && old(topsize) <= nb && more.Got? then Grown(more) else SameExtent()
    {
      hide SmallOK, TreeOK, LayoutOK, FreeChunks, LiveChunks, IndexOK;
      if nb <= dvsize {
        mem := UseDv(nb);
      } else if nb < topsize {
        mem := UseTop(nb);
      } else {
        mem := SysAlloc(nb, more);
      }
    }

    /**
     dlmalloc.  Success hands out one new chunk of at least the padded size;
     failure means that no free chunk and not even the extended top is large
     enough.  A large request takes the best fit among the bins and dv.
     */
    method Malloc(bytes: nat, more: MoreCore) returns (mem: Addr)
      requires Valid() && Grants(more) && bytes < WORD
      modifies this, small, tree
      ensures Valid()
      ensures mem != 0 ==> Gained(mem, Request(bytes)) && bytes + 4 <= Live()[mem - 8] < bytes + 32
      ensures bytes < 0xffff_ffc0 && mem == 0 ==> topsize <= bytes + 16 && !Fits(Free(), bytes + 16)
      ensures bytes >= 0xffff_ffc0 ==> mem == 0
      ensures mem == 0 ==> Live() == old(Live()) && Free() == old(Free())
      ensures mem == 0 ==> topsize <= Request(bytes) && !Fits(Free(), Request(bytes))
      ensures bytes > 244 ==> BestUse(old(Free()), Request(bytes), mem)
      ensures bytes <= 244 ==>
        SmallUse(old(small.sz), old(tree.g.sz), old(dv), old(dvsize), Request(bytes), mem)
      ensures mem != 0 && !Fits(old(Free()), Request(bytes)) ==> mem == TopPlace(more)
      ensures if !Fits(old(Free()), Request(bytes)) && old(topsize) <= Request(bytes) && more.Got? then Grown(more) else SameExtent()
    {
      hide SmallOK, TreeOK, LayoutOK, FreeChunks, LiveChunks;
      IndexSizes(Seg(), top != 0, small.smallmap, small.fd, small.bk, small.bins, small.sz, tree.l, tree.g, dv, dvsize);
      FreeFit(Free(), small.sz, tree.g.sz, dv, dvsize, Request(bytes));
      hide IndexOK, Remainderless, Smallest, Request, Fits, BestUse, SmallUse;
      var nb;
      nb, mem := FromBins(bytes);
      MoreNeverFits(Free(), nb, bytes + 16);
      if mem == 0 {
        if MAX_SMALL_REQUEST < bytes < MAX_REQUEST {
          DvIsBest(Free(), small.sz, tree.g.sz, dv, dvsize, nb);
        }
        mem := FromDvOrTop(nb, more);
      }
    }

    /** The first half of dlmalloc: pad the request and search the bins. */
    method FromBins(bytes: nat) returns (nb: nat, mem: Addr)
      requires Valid() && bytes < WORD
      modifies this, small, tree
      ensures Valid() && SameExtent() && nb == Request(bytes)
      ensures mem == 0 ==> Untouched() && (bytes < MAX_REQUEST && dvsize < nb ==> NoneBinned(nb))
      ensures mem == 0 && MAX_SMALL_REQUEST < bytes < MAX_REQUEST ==>
        forall c | c in tree.g.sz && nb <= tree.g.sz[c] :: nb <= dvsize <= tree.g.sz[c]
      ensures mem != 0 ==> bytes < MAX_REQUEST && Gained(mem, nb) && (bytes > MAX_SMALL_REQUEST ==> BestUse(old(Free()), nb, mem))
      ensures mem != 0 ==> Fits(old(Free()), nb)
      ensures mem != 0 && bytes <= MAX_SMALL_REQUEST ==> SmallUse(old(small.sz), old(tree.g.sz), old(dv), old(dvsize), nb, mem)
      ensures mem == 0 && bytes <= MAX_SMALL_REQUEST ==> !Remainderless(small.sz, nb)
    {
      hide SmallOK, TreeOK, LayoutOK, FreeChunks, LiveChunks, IndexOK, BestUse;
      if bytes <= MAX_SMALL_REQUEST {
        nb := if bytes < MIN_REQUEST then MIN_CHUNK_SIZE else PadRequest(bytes);
        mem := FromBinsSmall(nb);
      } else if bytes >= MAX_REQUEST {
        nb := MAX_SIZE_T;
        mem := 0;
      } else {
        nb := PadRequest(bytes);
        mem := FromBinsLarge(nb);
      }
    }

    /**
     dlfree: the chunk before mem is freed, merging with its free neighbours;
     the merged chunk becomes part of top, or dv if dv took part, or is binned.
     */
    method FreeMem(mem: Addr)
      requires Valid()
      requires mem == 0 || mem - 8 in Live()
      modifies this, small, tree
      ensures Valid()
      ensures Live() == if mem == 0 then old(Live()) else old(Live()) - {mem - 8}
      ensures SameExtent() && DvKept()
    {
      hide SmallOK, TreeOK, LayoutOK, FreeChunks, LiveChunks, IndexOK, Coalesced;
      if mem == 0 {
        return;
      }
      ghost var y := Seg();
      var p := mem - 8;
      ghost var p0 := p;
      LiveChunk(y, p);
      NotDv(Free(), small.sz, tree.g.sz, dv, dvsize, p);
      var psize := head[p].size;
      var next := p + psize;
      if !head[p].pinuse {
        var prevsize := Get(foot, p);
        Backward(y, p);
        psize := psize + prevsize;
        p := p - prevsize;
        if p != dv {
          IndexUnlink(Free(), small.sz, tree.g.sz, dv, dvsize, p);
          UnlinkChunk(p, prevsize);
        } else if head[next].pinuse && head[next].cinuse {
          GrowDv(p, psize, next, p0);
          return;
        }
      }
      NextOf(y, p0);
      MergeForward(p, psize, next, p0);
    }

    /** p is the start of the region being freed: p0 itself, or the free chunk before it. */
    ghost predicate Freeing(p: Addr, psize: nat, next: Addr, p0: Addr)
      reads this, small, tree
    {
      && top != 0 && LayoutOK(Seg())
      && IsLive(Seg(), p0) && next == p0 + head[p0].size && next == p + psize && next in starts
      && (if p == p0 then head[p0].pinuse else IsFree(Seg(), p) && p + head[p].size == p0)
      && Indexes(if p == dv || p == p0 then Free() else Free() - {p})
    }

    /** The dv shortcut of dlfree: only dv precedes, and an in-use chunk follows. */
    method GrowDv(p: Addr, psize: nat, next: Addr, ghost p0: Addr)
      requires Freeing(p, psize, next, p0) && p == dv && p != p0 && next in head && head[next].cinuse
      modifies this, small, tree
      ensures Valid() && Live() == old(Live()) - {p0}
      ensures SameExtent() && DvKept()
    {
      hide SmallOK, TreeOK, LayoutOK, FreeChunks, LiveChunks, IndexOK, Coalesced;
      ghost var y := Seg();
      NextOf(y, p0);
      FreshRegion(y, p, p0);
      FreedOK(y, p, p0, next, next);
      DvIs(y, Free(), small.sz, tree.g.sz, dv, dvsize);
      IndexMoveDv(Free(), small.sz, tree.g.sz, dv, dvsize, p, psize);
      CoalescedIs(y, p, next);
      LiveNotFree(y, next);
      assert (Free() - {p})[p := psize] == (Free() - {p, next})[p := psize];
      dvsize := psize;
      SetFreeWithPinuse(p, psize, next);
      starts := Coalesced(y, p, next).starts;
      assert Seg() == Coalesced(y, p, next);
    }

    /** The rest of dlfree: consolidate forward. */
    method MergeForward(p: Addr, psize: nat, next: Addr, ghost p0: Addr)
      requires Freeing(p, psize, next, p0) && p0 != dv
      requires p == dv ==> next in head && !head[next].cinuse
      modifies this, small, tree
      ensures Valid() && Live() == old(Live()) - {p0}
      ensures SameExtent() && DvKept()
    {
      hide SmallOK, TreeOK, LayoutOK, FreeChunks, LiveChunks, IndexOK, Coalesced;
      ghost var y, free := Seg(), Free();
      ghost var rest := if p == dv || p == p0 then free else free - {p};
      NextOf(y, p0);
      if !head[next].cinuse {
        if next == top {
          MergeIntoTop(p, psize, next, p0);
        } else if next == dv {
          MergeIntoDv(p, psize, next, p0);
        } else {
          MergeWithNext(p, psize, next, p0);
        }
      } else {
        FreshRegion(y, p, p0);
        LiveNotFree(y, next);
        FreedOK(y, p, p0, next, next);
        CoalescedIs(y, p, next);
        SetFreeWithPinuse(p, psize, next);
        starts := Coalesced(y, p, next).starts;
        assert Seg() == Coalesced(y, p, next);
        assert rest[p := psize] == (free - {p, next})[p := psize];
        Rebin(p, psize, rest);
      }
    }

    /** insert_chunk for the freed region, the only free chunk not yet indexed. */
    method Rebin(p: Addr, psize: nat, ghost rest: map<Addr, nat>)
      requires top != 0 && LayoutOK(Seg()) && Indexes(rest) && p !in rest && Free() == rest[p := psize] && p != dv
      modifies small, tree
      ensures Valid()
    {
      hide SmallOK, TreeOK, LayoutOK, FreeChunks, LiveChunks, IndexOK, Coalesced;
      IsFreeChunk(Seg(), p);
      IndexAdd(Seg(), rest, small.sz, tree.g.sz, dv, dvsize, p, psize);
      InsertChunk(p, psize);
    }

    method MergeIntoTop(p: Addr, psize: nat, next: Addr, ghost p0: Addr)
      requires Freeing(p, psize, next, p0) && next == top && p0 != dv
      modifies this, small, tree
      ensures Valid() && Live() == old(Live()) - {p0}
      ensures SameExtent() && DvKept()
    {
      hide SmallOK, TreeOK, LayoutOK, FreeChunks, LiveChunks, IndexOK, Coalesced;
      ghost var y := Seg();
      FreedOK(y, p, p0, next, next);
      CoalescedIs(y, p, next);
      FreshRegion(y, p, p0);
      topsize := topsize + psize;
      top := p;
      head := head[p := HeadWord(topsize, true, false)];
      starts := Coalesced(y, p, next).starts;
      assert Seg() == Coalesced(y, p, next);
      assert p == p0 ==> FreeChunks(y) - {p} == FreeChunks(y);
      if p == dv {
        IndexDropDv(FreeChunks(y), small.sz, tree.g.sz, dv, dvsize);
        dv := 0;
        dvsize := 0;
      }
    }

    method MergeIntoDv(p: Addr, psize: nat, next: Addr, ghost p0: Addr)
      requires Freeing(p, psize, next, p0) && next == dv
      modifies this, small, tree
      ensures Valid() && Live() == old(Live()) - {p0}
      ensures SameExtent() && DvKept()
    {
      hide SmallOK, TreeOK, LayoutOK, FreeChunks, LiveChunks, IndexOK, Coalesced;
      ghost var y, free := Seg(), Free();
      ghost var rest := if p == dv || p == p0 then free else free - {p};
      FreshRegion(y, p, p0);
      DvIs(y, rest, small.sz, tree.g.sz, dv, dvsize);
      FreedOK(y, p, p0, next, next + dvsize);
      CoalescedIs(y, p, next + dvsize);
      IndexMoveDv(rest, small.sz, tree.g.sz, dv, dvsize, p, psize + dvsize);
      dvsize := dvsize + psize;
      dv := p;
      SetFreeChunk(p, dvsize);
      starts := Coalesced(y, p, p + dvsize).starts;
      assert Seg() == Coalesced(y, p, p + dvsize);
      assert (rest - {next})[p := dvsize] == (free - {p, next})[p := dvsize];
    }

    method MergeWithNext(p: Addr, psize: nat, next: Addr, ghost p0: Addr)
      requires Freeing(p, psize, next, p0) && next != dv && IsFree(Seg(), next) && p0 != dv
      modifies this, small, tree
      ensures Valid() && Live() == old(Live()) - {p0}
      ensures SameExtent() && DvKept()
    {
      hide SmallOK, TreeOK, LayoutOK, FreeChunks, LiveChunks, IndexOK, Coalesced;
      ghost var y, free := Seg(), Free();
      ghost var rest := if p == dv || p == p0 then free else free - {p};
      var nsize := head[next].size;
      var size := psize + nsize;
      FreshRegion(y, p, p0);
      NextIs(y, p, next);
      if p == dv {
        DvIs(y, rest, small.sz, tree.g.sz, dv, dvsize);
      }
      IndexUnlink(rest, small.sz, tree.g.sz, dv, dvsize, next);
      UnlinkChunk(next, nsize);
      FreedOK(y, p, p0, next, next + nsize);
      CoalescedIs(y, p, next + nsize);
      SetFreeChunk(p, size);
      starts := Coalesced(y, p, p + size).starts;
      assert Seg() == Coalesced(y, p, p + size);
      MergedFree(free, rest, p, next, size);
      Reindex(p, size, rest - {next});
    }

    /** The merged region is dv if dv took part, and is binned otherwise. */
    method Reindex(p: Addr, size: nat, ghost rest: map<Addr, nat>)
      requires top != 0 && LayoutOK(Seg()) && Indexes(rest) && Free() == (rest - {p})[p := size]
      requires (p == dv || p !in rest) && p > 0 && size > 0
      modifies this`dvsize, small, tree
      ensures Valid() && dvsize == if p == dv then size else old(dvsize)
    {
      hide SmallOK, TreeOK, LayoutOK, FreeChunks, LiveChunks, IndexOK, Coalesced;
      if p == dv {
        IndexMoveDv(rest, small.sz, tree.g.sz, dv, dvsize, p, size);
        dvsize := size;
      } else {
        assert rest - {p} == rest;
        Rebin(p, size, rest);
      }
    }

    /** The metadata word of chunk c at address a: its head, its foot, or a link of a binned chunk. */
    ghost function Word(c: Addr, a: Addr): int
      requires c in head
      reads this, small, tree
    {
      if a == c + 4 then head[c].size + (if head[c].pinuse then 1 else 0) + (if head[c].cinuse then 2 else 0)
      else if a == c + head[c].size then Get(foot, a)
      else if c in small.sz then (if a == c + 8 then Get(small.fd, c) else Get(small.bk, c))
      else if a == c + 8 then Get(tree.l.fd, c)
      else if a == c + 12 then Get(tree.l.bk, c)
      else if a == c + 16 then Get(tree.l.child0, c)
      else if a == c + 20 then Get(tree.l.child1, c)
      else if a == c + 24 then Get(tree.l.parent, c)
      else Get(tree.l.index, c)
    }

    /** Flat memory m holds every metadata word of the heap at its address. */
    ghost predicate StoredIn(m: map<Addr, int>)
      reads this, small, tree
    {
      forall c, a {:trigger Metadata(Seg(), c, a)} | Metadata(Seg(), c, a) && a % 4 == 0 :: a in m && m[a] == Word(c, a)
    }

    /** Whatever the user writes to the bytes of a live chunk, memory still holds the heap. */
    lemma PayloadWriteKeeps(m: map<Addr, int>, d: Addr, b: Addr, v: int)
      requires Valid() && StoredIn(m) && b % 4 == 0 && Payload(Seg(), d, b)
      ensures StoredIn(m[b := v])
    {
      hide SmallOK, TreeOK, IndexOK, FreeChunks;
      var y := Seg();
      assert top != 0 && LayoutOK(y);
      forall c, a | Metadata(y, c, a) && a % 4 == 0
        ensures a != b
      {
        MetadataApart(y, c, d, a, b);
      }
      hide LayoutOK, Metadata, Payload, Word;
    }

    /** set_size_and_pinuse_of_free_chunk */
    method SetFreeChunk(p: Addr, s: nat)
      modifies this`head, this`foot
      ensures head == old(head)[p := HeadWord(s, true, false)] && foot == old(foot)[p + s := s]
    {
      head := head[p := HeadWord(s, true, false)];
      foot := foot[p + s := s];
    }

    /** set_free_with_pinuse */
    method SetFreeWithPinuse(p: Addr, s: nat, n: Addr)
      requires n in head
      modifies this`head, this`foot
      ensures head == old(head)[n := old(head)[n].(pinuse := false)][p := HeadWord(s, true, false)]
      ensures foot == old(foot)[p + s := s]
    {
      head := head[n := head[n].(pinuse := false)];
      SetFreeChunk(p, s);
    }
  }

  /** The padded size of a request; MAX_SIZE_T, which never fits, for one that is too large. */
  function Request(bytes: nat): (nb: nat)
    ensures bytes < 0xffff_ffc0 ==> nb % 8 == 0 && 16 <= nb && bytes + 4 <= nb && (nb == 16 || nb < bytes + 12)
    ensures bytes >= 0xffff_ffc0 ==> nb == 0xffff_ffff
  {
    if bytes < MIN_REQUEST then MIN_CHUNK_SIZE
    else if bytes >= MAX_REQUEST then MAX_SIZE_T
    else PadRequest(bytes)
  }

  /** If any chunk of at least nb bytes was free, a smallest such chunk was used. */
  ghost predicate BestUse(free: map<Addr, nat>, nb: nat, mem: Addr) {
    Fits(free, nb) ==> mem != 0 && Smallest(free, nb, mem - 8)
  }

  /** p is a smallest chunk of at least nb bytes among s. */
  ghost predicate Smallest(s: map<Addr, nat>, nb: nat, p: Addr) {
    p in s && nb <= s[p] && forall c | c in s && nb <= s[c] :: s[p] <= s[c]
  }

  ghost predicate Fits(s: map<Addr, nat>, nb: nat) {
    exists c :: c in s && nb <= s[c]
  }

  /** Some chunk fits and would leave too little to split off. */
  ghost predicate Remainderless(s: map<Addr, nat>, nb: nat) {
    exists c :: c in s && nb <= s[c] < nb + MIN_CHUNK_SIZE
  }

  /**
   Which chunk a small request takes, of small bins s, treebins t and dv: a remainderless small chunk, else dv, else
   the smallest binned chunk that fits.
   */
  ghost predicate SmallUse(s: map<Addr, nat>, t: map<Addr, nat>, dv: Addr, dvsize: nat, nb: nat, mem: Addr) {
    if Remainderless(s, nb) then Smallest(s, nb, mem - 8)
    else if nb <= dvsize then mem - 8 == dv
    else if Fits(s, nb) then Smallest(s, nb, mem - 8)
    else Fits(t, nb) ==> Smallest(t, nb, mem - 8)
  }

  datatype MoreCore = Fail | Got(at: Addr, size: nat)

  ghost function Extended(y: Segment, n: nat): Segment {
    y.(topsize := y.topsize + n,
       head := y.head[y.top := HeadWord(y.topsize + n, true, false)]
                     [y.top + (y.topsize + n) := HeadWord(TOP_FOOT_SIZE, false, false)])
  }

  lemma ExtendTopChunk(y: Segment, n: nat, c: Addr)
    requires LayoutOK(y) && n % 8 == 0 && y.top + y.topsize + TOP_FOOT_SIZE + n <= WORD
    requires c in y.starts
    ensures Placed(Extended(y, n), c) && c <= y.top
    ensures c != y.top ==> ChunkOK(Extended(y, n), c)
  {
    assert Placed(y, c);
    if c != y.top {
      assert ChunkOK(y, c);
      assert Placed(y, c + y.head[c].size);
    }
  }

  lemma ExtendTopLayout(y: Segment, n: nat)
    requires LayoutOK(y) && n % 8 == 0 && y.top + y.topsize + TOP_FOOT_SIZE + n <= WORD
    ensures LayoutOK(Extended(y, n))
    ensures forall c | c in y.starts :: c <= y.top
  {
    hide ChunkOK, Placed;
    var y' := Extended(y, n);
    ExtendTopChunk(y, n, y.base);
    forall c | c in y.starts
      ensures Placed(y', c) && c <= y.top && (c != y.top ==> ChunkOK(y', c))
    {
      ExtendTopChunk(y, n, c);
    }
  }

  lemma ExtendTop(y: Segment, n: nat)
    requires LayoutOK(y) && n % 8 == 0 && y.top + y.topsize + TOP_FOOT_SIZE + n <= WORD
    ensures LayoutOK(Extended(y, n)) && FreeChunks(Extended(y, n)) == FreeChunks(y) && LiveChunks(Extended(y, n)) == LiveChunks(y)
  {
    hide ChunkOK, Placed;
    ExtendTopLayout(y, n);
    var y' := Extended(y, n);
    assert Changes(y, y', FreeChunks(y), LiveChunks(y));
    ChangesAre(y, y', FreeChunks(y), LiveChunks(y));
  }

  lemma FirstSegment(y: Segment, y': Segment)
    requires y.starts == {} && y'.starts == {y'.top} && y'.base == y'.top && y'.top > 0 && y'.top % 8 == 0
    requires y'.top in y'.head && y'.head[y'.top] == HeadWord(y'.topsize, true, false)
    requires 0 < y'.topsize && y'.topsize % 8 == 0 && y'.top + y'.topsize + TOP_FOOT_SIZE <= WORD
    ensures LayoutOK(y') && FreeChunks(y') == FreeChunks(y) && LiveChunks(y') == LiveChunks(y)
  {
    assert FreeChunks(y') == map[] && LiveChunks(y') == map[];
    assert FreeChunks(y) == map[] && LiveChunks(y) == map[];
  }

  lemma TopBelowWord(y: Segment)
    requires LayoutOK(y)
    ensures y.topsize < MAX_SIZE_T
  {
    assert Placed(y, y.top);
  }

  lemma TopPlaced(y: Segment)
    requires LayoutOK(y)
    ensures y.top > 0 && y.top % 8 == 0
  {
    assert Placed(y, y.top);
  }

  lemma HasChunk(y: Segment, c: Addr)
    requires c in FreeChunks(y)
    ensures y.starts != {}
  {
  }

  lemma Pick<T>(s: set<T>) returns (a: T)
    requires s != {}
    ensures a in s
  {
    a :| a in s;
  }

  lemma SomeKey(m: map<Addr, nat>) returns (a: Addr)
    requires m != map[]
    ensures a in m
  {
    a := Pick(m.Keys);
  }

  lemma SmallIsSmall(m: nat, fd: map<Addr, Addr>, bk: map<Addr, Addr>, bins: seq<seq<Addr>>, sz: map<Addr, nat>)
    requires SmallOK(m, fd, bk, bins, sz)
    ensures forall a | a in sz :: sz[a] < MIN_LARGE_SIZE && a > 0
  {
  }

  /** The chunk sizes the trie search reads are those the index records; they are all below dv's bound. */
  lemma TreeSizes(y: Segment, l: Links, g: Shape, s: map<Addr, nat>, dv: Addr, dvsize: nat)
    requires LayoutOK(y) && TreeOK(l, g) && IndexOK(FreeChunks(y), s, g.sz, dv, dvsize)
    ensures Agree(Sizes(y.head), g.sz)
    ensures dvsize < WORD
    ensures forall c | c in g.sz :: MIN_LARGE_SIZE <= g.sz[c] < WORD
  {
    hide TreeOK, LayoutOK, ChunkOK;
    AllLarge(l, g);
    if dv != 0 { SizeBound(y, dv); }
  }

  lemma IsFreeChunk(y: Segment, c: Addr)
    requires LayoutOK(y) && c in FreeChunks(y)
    ensures IsFree(y, c) && FreeChunks(y)[c] == y.head[c].size && c > 0 && c % 8 == 0
    ensures y.head[c].size % 8 == 0 && MIN_CHUNK_SIZE <= y.head[c].size < WORD
    ensures c !in LiveChunks(y)
  {
    SizeBound(y, c);
    assert ChunkOK(y, c) && Placed(y, c);
  }

  /** A new free chunk r can be binned by its size. */
  lemma IndexAdd(y: Segment, free: map<Addr, nat>, s: map<Addr, nat>, t: map<Addr, nat>, dv: Addr, dvsize: nat, r: Addr, rsize: nat)
    requires IndexOK(free, s, t, dv, dvsize) && r !in free && r > 0
    requires FreeChunks(y) == free[r := rsize]
    ensures r !in s && r !in t && Agree(Sizes(y.head), t)
    ensures if rsize < MIN_LARGE_SIZE then IndexOK(free[r := rsize], s[r := rsize], t, dv, dvsize)
            else IndexOK(free[r := rsize], s, t[r := rsize], dv, dvsize)
  {
    assert s[r := rsize].Keys == s.Keys + {r};
    assert t[r := rsize].Keys == t.Keys + {r};
    forall c | c in t
      ensures c in Sizes(y.head) && Sizes(y.head)[c] == t[c]
    {
      assert c in FreeChunks(y) && FreeChunks(y)[c] == t[c];
    }
  }

  /** A binned chunk that fits is a free chunk that fits. */
  lemma BinnedFit(free: map<Addr, nat>, s: map<Addr, nat>, t: map<Addr, nat>, dv: Addr, dvsize: nat, nb: nat)
    requires IndexOK(free, s, t, dv, dvsize)
    ensures Fits(s, nb) || Fits(t, nb) ==> Fits(free, nb)
  {
    if c :| c in s && nb <= s[c] { assert c in free && nb <= free[c]; }
    if c :| c in t && nb <= t[c] { assert c in free && nb <= free[c]; }
  }

  lemma MergedFree(free: map<Addr, nat>, rest: map<Addr, nat>, p: Addr, next: Addr, size: nat)
    requires rest == free || rest == free - {p}
    ensures (rest - {next} - {p})[p := size] == (free - {p, next})[p := size]
  {
  }

  lemma MoreNeverFits(free: map<Addr, nat>, nb: nat, more: nat)
    ensures nb <= more && Fits(free, more) ==> Fits(free, nb)
  {
    if nb <= more && Fits(free, more) {
      var c :| c in free && more <= free[c];
      assert nb <= free[c];
    }
  }

  /** What fits is binned or dv. */
  lemma FreeFit(free: map<Addr, nat>, s: map<Addr, nat>, t: map<Addr, nat>, dv: Addr, dvsize: nat, nb: nat)
    requires IndexOK(free, s, t, dv, dvsize) && nb > 0
    ensures Fits(free, nb) <==> Fits(s, nb) || Fits(t, nb) || nb <= dvsize
  {
    BinnedFit(free, s, t, dv, dvsize, nb);
    if nb <= dvsize { assert dv in free && nb <= free[dv]; }
    if c :| c in free && nb <= free[c] {
      assert c in s ==> Fits(s, nb);
      assert c in t ==> Fits(t, nb);
    }
  }

  /** If no tree chunk that fits is smaller than a fitting dv, dv is the best fit for a large request. */
  lemma DvIsBest(free: map<Addr, nat>, s: map<Addr, nat>, t: map<Addr, nat>, dv: Addr, dvsize: nat, nb: nat)
    requires IndexOK(free, s, t, dv, dvsize) && MIN_LARGE_SIZE <= nb && (forall c | c in s :: s[c] < MIN_LARGE_SIZE)
    requires forall c | c in t && nb <= t[c] :: nb <= dvsize <= t[c]
    ensures nb <= dvsize ==> Smallest(free, nb, dv)
    ensures dvsize < nb ==> !Fits(free, nb)
  {
  }

  lemma TakeWholeIs(y: Segment, p: Addr)
    requires p in y.head && p + y.head[p].size in y.head && y.head[p].size > 0
    ensures var s := y.head[p].size;
      TakeWhole(y, p) == y.(head := y.head[p := HeadWord(s, true, true)][p + s := y.head[p + s].(pinuse := true)])
  {
  }

  lemma TakePartIs(y: Segment, p: Addr, nb: nat)
    requires p in y.head && nb <= y.head[p].size
    ensures var r := y.head[p].size - nb;
      TakePart(y, p, nb) == y.(starts := y.starts + {p + nb},
        head := y.head[p := HeadWord(nb, true, true)][p + nb := HeadWord(r, true, false)],
        foot := y.foot[p + nb + r := r])
  {
  }

  lemma NotInFree(y: Segment, c: Addr)
    requires c !in y.starts
    ensures c !in FreeChunks(y) && c !in LiveChunks(y)
  {
  }

  /** A bin is marked exactly when it holds a chunk of its size. */
  lemma SmallMarks(m: nat, fd: map<Addr, Addr>, bk: map<Addr, Addr>, bins: seq<seq<Addr>>, sz: map<Addr, nat>)
    requires SmallOK(m, fd, bk, bins, sz)
    ensures m < WORD
    ensures forall c | c in sz :: IsSmallSize(sz[c]) && Marked(m, sz[c] / 8)
  {
    hide Marked, Ring, Distinct;
    forall c | c in sz
      ensures Marked(m, sz[c] / 8)
    {
      assert Filed(sz, bins, sz[c] / 8) && BinAt(m, fd, bk, bins, sz[c] / 8);
    }
  }

  /** The chunk taken from the own bin, or from the next if that is empty, is a smallest that fits. */
  lemma OwnBinFirst(m: nat, s: map<Addr, nat>, nb: nat, p: Addr)
    requires nb % 8 == 0 && forall c | c in s :: IsSmallSize(s[c]) && Marked(m, s[c] / 8)
    requires p in s && nb <= s[p] <= nb + 8 && (s[p] > nb ==> !Marked(m, nb / 8))
    ensures Smallest(s, nb, p) && Remainderless(s, nb)
  {
    hide Marked;
  }

  lemma NoRemainderless(m: nat, s: map<Addr, nat>, nb: nat)
    requires nb % 8 == 0 && forall c | c in s :: IsSmallSize(s[c]) && Marked(m, s[c] / 8)
    requires !Marked(m, nb / 8) && !Marked(m, nb / 8 + 1)
    ensures !Remainderless(s, nb)
  {
    hide Marked;
  }

  /** So is the chunk of the least marked bin above. */
  lemma NextBinFirst(m: nat, s: map<Addr, nat>, nb: nat, left: nat, i: nat, p: Addr)
    requires nb % 8 == 0 && forall c | c in s :: IsSmallSize(s[c]) && Marked(m, s[c] / 8)
    requires !Marked(m, nb / 8) && !Marked(m, nb / 8 + 1) && i < 32 && Marked(left, i) && forall j: nat :: j < i ==> !Marked(left, j)
    requires forall j: nat :: j < 32 ==> (Marked(left, j) <==> nb / 8 < j && Marked(m, j))
    requires p in s && s[p] == IndexToSize(i)
    ensures Smallest(s, nb, p) && nb + MIN_CHUNK_SIZE <= s[p]
  {
    hide Marked;
    forall c | c in s && nb <= s[c]
      ensures s[p] <= s[c]
    {
      assert Marked(left, s[c] / 8);
    }
  }

  lemma NoneAbove(m: nat, sz: map<Addr, nat>, i: nat)
    requires m < WORD && Shr(m, i) == 0
    requires forall c | c in sz :: IsSmallSize(sz[c]) && Marked(m, sz[c] / 8)
    ensures forall c | c in sz :: sz[c] < 8 * i
  {
    hide Shr;
    forall c | c in sz
      ensures sz[c] < 8 * i
    {
      var j := sz[c] / 8;
      if j >= i {
        ShrZero(j - i);
        ShiftedBit(m, i, j - i);
      }
    }
  }

  lemma IndexReplaceDv(free: map<Addr, nat>, s: map<Addr, nat>, t: map<Addr, nat>, dv: Addr, dvsize: nat, r: Addr, rsize: nat)
    requires IndexOK(free, s, t, dv, dvsize) && r !in free && r > 0 && rsize > 0
    ensures IndexOK(free[r := rsize], if dvsize != 0 then s[dv := dvsize] else s, t, r, rsize)
  {
    assert s[dv := dvsize].Keys == s.Keys + {dv};
  }

  /** Which free chunks a failed search of one part of the index leaves. */
  lemma IndexSizes(y: Segment, ready: bool, m: nat, fd: map<Addr, Addr>, bk: map<Addr, Addr>, bins: seq<seq<Addr>>, s: map<Addr, nat>,
                   l: Links, g: Shape, dv: Addr, dvsize: nat)
    requires if ready then LayoutOK(y) else y.starts == {}
    requires SmallOK(m, fd, bk, bins, s) && TreeOK(l, g) && IndexOK(FreeChunks(y), s, g.sz, dv, dvsize)
    ensures forall c | c in s :: s[c] < MIN_LARGE_SIZE
    ensures l.treemap == 0 ==> g.sz == map[]
    ensures l.treemap != 0 ==> ready
    ensures dvsize < MAX_SIZE_T && (ready ==> y.topsize < MAX_SIZE_T)
    ensures !Fits(FreeChunks(y), MAX_SIZE_T)
  {
    hide SmallOK, TreeOK, LayoutOK, ChunkOK;
    SmallIsSmall(m, fd, bk, bins, s);
    TreemapSpec(l, g);
    if l.treemap != 0 {
      var a := SomeKey(g.sz);
      HasChunk(y, a);
    }
    if ready {
      TopBelowWord(y);
      forall c | c in FreeChunks(y)
        ensures FreeChunks(y)[c] < MAX_SIZE_T
      {
        SizeBelowTop(y, c);
      }
    }
  }

  lemma SizeBelowTop(y: Segment, c: Addr)
    requires LayoutOK(y) && c in y.starts && c != y.top
    ensures y.head[c].size < MAX_SIZE_T
  {
    SizeBound(y, c);
    assert Placed(y, y.top) && Placed(y, c);
  }

  lemma TreemapSpec(l: Links, g: Shape)
    requires TreeOK(l, g)
    ensures l.treemap == 0 <==> g.sz == map[]
  {
    hide TreeIndex, Shr, RingsOK, NodeUp, NodeDown, Marked;
    if l.treemap == 0 && g.sz != map[] {
      var a := SomeKey(g.sz);
      var j := TreeBins.PlaceOf(l, g, a);
      UnderRoot(l, g, g.sz[a]);
      assert RootAt(l, g, TreeIndex(g.sz[a]));
      ZeroUnmarked(TreeIndex(g.sz[a]));
    }
    if l.treemap != 0 {
      LeastMarked(l.treemap);
      assert RootAt(l, g, BitToIndex(LeastBit(l.treemap)));
    }
  }

  lemma LiveChunk(y: Segment, p: Addr)
    requires if y.top == 0 then y.starts == {} else LayoutOK(y)
    requires p in LiveChunks(y)
    ensures y.top != 0 && LayoutOK(y) && IsLive(y, p) && p in y.starts && p > 0 && p !in FreeChunks(y)
    ensures var n := p + y.head[p].size; n in y.starts && n in y.head && y.head[n].pinuse && y.head[p].size > 0
  {
    assert ChunkOK(y, p) && Placed(y, p);
  }

  lemma Backward(y: Segment, p: Addr)
    requires LayoutOK(y) && IsLive(y, p) && !y.head[p].pinuse
    ensures var q := p - Get(y.foot, p);
      IsFree(y, q) && q in FreeChunks(y) && FreeChunks(y)[q] == Get(y.foot, p) == y.head[q].size && q != p && Get(y.foot, p) > 0
  {
    PrevChunk(y, p);
    assert ChunkOK(y, p - Get(y.foot, p));
  }

  lemma NextOf(y: Segment, p: Addr)
    requires LayoutOK(y) && IsLive(y, p)
    ensures var n := p + y.head[p].size;
      n in y.starts && n in y.head && y.head[n].pinuse && (n == y.top ==> !y.head[n].cinuse) && y.head[p].size > 0
  {
    assert ChunkOK(y, p);
  }

  lemma NextIs(y: Segment, p: Addr, n: Addr)
    requires LayoutOK(y) && IsFree(y, n)
    ensures n in FreeChunks(y) && FreeChunks(y)[n] == y.head[n].size > 0
  {
    assert ChunkOK(y, n);
  }

  lemma LiveNotFree(y: Segment, n: Addr)
    requires n in y.head && y.head[n].cinuse
    ensures n !in FreeChunks(y)
  {
  }

  lemma NotDv(free: map<Addr, nat>, s: map<Addr, nat>, t: map<Addr, nat>, dv: Addr, dvsize: nat, p: Addr)
    requires IndexOK(free, s, t, dv, dvsize) && p !in free && p > 0
    ensures p != dv
  {
  }

  lemma FreshRegion(y: Segment, p: Addr, p0: Addr)
    requires LayoutOK(y) && IsLive(y, p0) && (p == p0 || IsFree(y, p))
    ensures p0 !in FreeChunks(y) && p > 0 && (p != p0 ==> p in FreeChunks(y))
  {
    assert Placed(y, p);
  }

  lemma DvIs(y: Segment, rest: map<Addr, nat>, s: map<Addr, nat>, t: map<Addr, nat>, dv: Addr, dvsize: nat)
    requires LayoutOK(y) && IndexOK(rest, s, t, dv, dvsize) && dv in y.starts && dv > 0
    requires forall c | c in rest :: c in FreeChunks(y) && rest[c] == FreeChunks(y)[c]
    ensures dv in rest && IsFree(y, dv) && y.head[dv].size == dvsize && dvsize > 0
  {
    assert ChunkOK(y, dv);
  }

  lemma IndexUnlink(free: map<Addr, nat>, s: map<Addr, nat>, t: map<Addr, nat>, dv: Addr, dvsize: nat, c: Addr)
    requires IndexOK(free, s, t, dv, dvsize) && c in free && c != dv
    ensures c in s || c in t
    ensures (c in s ==> s[c] == free[c]) && (c in t ==> t[c] == free[c]) && s.Keys !! t.Keys
    ensures IndexOK(free - {c}, s - {c}, t - {c}, dv, dvsize)
  {
  }

  lemma IndexMoveDv(free: map<Addr, nat>, s: map<Addr, nat>, t: map<Addr, nat>, dv: Addr, dvsize: nat, q: Addr, n: nat)
    requires IndexOK(free, s, t, dv, dvsize) && dv != 0 && (q == dv || q !in free) && q > 0 && n > 0
    ensures IndexOK((free - {dv})[q := n], s, t, q, n)
  {
  }

  lemma IndexDropDv(free: map<Addr, nat>, s: map<Addr, nat>, t: map<Addr, nat>, dv: Addr, dvsize: nat)
    requires IndexOK(free, s, t, dv, dvsize) && dv != 0
    ensures IndexOK(free - {dv}, s, t, 0, 0)
  {
  }

  lemma CoalescedIs(y: Segment, q: Addr, e: Addr)
    requires e in y.head && q < e
    ensures var y' := Coalesced(y, q, e);
      && y'.base == y.base
      && (e == y.top ==> y' == y.(starts := y'.starts, head := y.head[q := HeadWord(e - q + y.topsize, true, false)],
                                  top := q, topsize := e - q + y.topsize))
      && (e != y.top ==> y' == y.(starts := y'.starts, foot := y.foot[e := e - q],
                                  head := y.head[e := y.head[e].(pinuse := false)][q := HeadWord(e - q, true, false)]))
      && (!y.head[e].pinuse ==> y.head[e := y.head[e].(pinuse := false)] == y.head)
  {
  }

  /** Freeing the live chunk p0, with its free neighbours if any, as one region from q to e. */
  ghost predicate FreeRegion(y: Segment, q: Addr, p0: Addr, n: Addr, e: Addr) {
    && LayoutOK(y) && IsLive(y, p0) && n == p0 + y.head[p0].size && n in y.starts
    && (q == p0 || (IsFree(y, q) && q + y.head[q].size == p0))
    && (q == p0 ==> y.head[p0].pinuse)
    && (e == n || (IsFree(y, n) && e == n + y.head[n].size))
    && (e == n && n != y.top ==> y.head[n].cinuse)
  }

  lemma FreeRegionSpan(y: Segment, q: Addr, p0: Addr, n: Addr, e: Addr)
    requires FreeRegion(y, q, p0, n, e)
    ensures q in y.starts && q <= p0 < n <= e && e in y.starts && e in y.head && y.head[q].pinuse
    ensures e != n ==> e != y.top && !y.head[e].pinuse
    ensures e != y.top ==> y.head[e].cinuse
    ensures forall c | c in y.starts && q <= c < e :: c == q || c == p0 || c == n
  {
    assert ChunkOK(y, p0);
    if q != p0 { assert ChunkOK(y, q); }
    if e != n { assert ChunkOK(y, n); NotBothFree(y, n); }
  }

  lemma FreedOK(y: Segment, q: Addr, p0: Addr, n: Addr, e: Addr)
    requires FreeRegion(y, q, p0, n, e)
    ensures q < e && e in y.starts && e in y.head
    ensures e != n ==> e != y.top && !y.head[e].pinuse
    ensures var y' := Coalesced(y, q, e);
      && LayoutOK(y')
      && LiveChunks(y') == LiveChunks(y) - {p0}
      && FreeChunks(y') == if e == y.top then FreeChunks(y) - {q} else (FreeChunks(y) - {q, n})[q := e - q]
  {
    hide LayoutOK, ChunkOK;
    FreeRegionSpan(y, q, p0, n, e);
    CoalescedOK(y, q, e);
    CoalescedChunks(y, q, e);
    FreedChanges(y, q, p0, n, e);
    ChangesAre(y, Coalesced(y, q, e),
               if e == y.top then FreeChunks(y) - {q} else (FreeChunks(y) - {q, n})[q := e - q],
               LiveChunks(y) - {p0});
  }

  lemma FreedChanges(y: Segment, q: Addr, p0: Addr, n: Addr, e: Addr)
    requires FreeRegion(y, q, p0, n, e)
    requires q in y.starts && q <= p0 < n <= e && e in y.starts && e in y.head
    requires e != n ==> e != y.top
    requires e != y.top ==> y.head[e].cinuse
    requires forall c | c in y.starts && q <= c < e :: c == q || c == p0 || c == n
    requires var y' := Coalesced(y, q, e);
      && (forall c :: IsLive(y', c) <==> IsLive(y, c) && !(q <= c < e))
      && (forall c :: IsFree(y', c) <==> (IsFree(y, c) && !(q <= c < e)) || (c == q && e != y.top))
      && (forall c | c in y'.starts && c != q && c != y'.top :: c in y'.head && c in y.head && y'.head[c].size == y.head[c].size)
      && (e != y.top ==> q in y'.head && y'.head[q].size == e - q)
    ensures Changes(y, Coalesced(y, q, e),
               if e == y.top then FreeChunks(y) - {q} else (FreeChunks(y) - {q, n})[q := e - q],
               LiveChunks(y) - {p0})
  {
    hide Coalesced, LayoutOK;
    var y' := Coalesced(y, q, e);
    var free := if e == y.top then FreeChunks(y) - {q} else (FreeChunks(y) - {q, n})[q := e - q];
    forall c
      ensures IsFree(y', c) <==> c in free
      ensures IsLive(y', c) <==> c in LiveChunks(y) - {p0}
    {
      assert IsFree(y, c) <==> c in FreeChunks(y);
      assert IsLive(y, c) <==> c in LiveChunks(y);
    }
  }
}
