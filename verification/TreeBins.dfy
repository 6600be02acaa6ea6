/**
 The treebins of dlmalloc: 32 bitwise tries of free large chunks keyed on chunk
 size, with the chunks of one size chained in a ring whose oldest member is the
 trie node.  A node's own size is unordered with respect to its children; what
 orders the trie is the number of size bits still undecided at a node.
 */
module TreeBins {
  import opened Words
  import opened Binmap
  import opened Rings

  /** The address of the slot treebins[i] inside malloc_state. */
  function TreebinAt(i: nat): Addr {
    -1000 - i
  }

  /** The tree fields of malloc_state and the link fields of every tree chunk. */
  datatype Links = Links(
    treemap: nat,
    root: seq<Addr>,
    child0: map<Addr, Addr>,
    child1: map<Addr, Addr>,
    parent: map<Addr, Addr>,
    fd: map<Addr, Addr>,
    bk: map<Addr, Addr>,
    index: map<Addr, int>)
  {
    function Child(x: Addr, k: nat): Addr {
      if k == 0 then Get(child0, x) else Get(child1, x)
    }

    function SetChild(x: Addr, k: nat, c: Addr): Links {
      if k == 0 then this.(child0 := child0[x := c]) else this.(child1 := child1[x := c])
    }

    function SetParent(x: Addr, p: Addr): Links {
      this.(parent := parent[x := p])
    }
  }

  /**
   What the links represent.  Nodes are named by their size: head[s] is the chunk
   of size s that is the trie node, ring[s] lists all chunks of that size with the
   node first, und[s] counts the size bits undecided at the node, and up[s] is its
   parent's size.
   */
  datatype Shape = Shape(
    sz: map<Addr, nat>,
    head: map<nat, Addr>,
    ring: map<nat, seq<Addr>>,
    und: map<nat, nat>,
    up: map<nat, nat>)

  function BitAt(s: nat, k: nat): nat {
    Shr(s, k) % 2
  }

  ghost predicate Nodes(g: Shape) {
    && g.und.Keys == g.head.Keys
    && g.up.Keys == g.head.Keys
    && forall s | s in g.head ::
         MIN_LARGE_SIZE <= s < WORD && g.head[s] > 0 && g.head[s] in g.sz && g.sz[g.head[s]] == s
  }

  ghost predicate IsRoot(g: Shape, s: nat)
    requires s in g.und && s < WORD
  {
    g.und[s] == BitForTreeIndex(TreeIndex(s)) + 1
  }

  /** The node of size s hangs where its size bits put it. */
  ghost predicate NodeUp(l: Links, g: Shape, s: nat)
    requires Nodes(g) && |l.root| == 32 && s in g.head
  {
    var i, h := TreeIndex(s), g.head[s];
    && i < 32
    && g.und[s] <= BitForTreeIndex(i) + 1
    && if IsRoot(g, s) then
         l.root[i] == h && Get(l.parent, h) == TreebinAt(i)
       else
         var p := g.up[s];
         && p in g.head && p != s
         && TreeIndex(p) == i
         && g.und[p] == g.und[s] + 1
         && Shr(p, g.und[p]) == Shr(s, g.und[p])
         && l.Child(g.head[p], BitAt(s, g.und[s])) == h
         && Get(l.parent, h) == g.head[p]
  }

  /** A child pointer of the node of size s leads to a node one bit further down. */
  ghost predicate NodeDown(l: Links, g: Shape, s: nat, k: nat)
    requires Nodes(g) && s in g.head
  {
    var c := l.Child(g.head[s], k);
    c != 0 ==>
      && c in g.sz
      && var t := g.sz[c];
      && t in g.head && g.head[t] == c
      && TreeIndex(t) == TreeIndex(s)
      && g.und[t] + 1 == g.und[s]
      && g.up[t] == s
      && BitAt(t, g.und[t]) == k
  }

  ghost predicate RootAt(l: Links, g: Shape, i: nat)
    requires Nodes(g) && |l.root| == 32 && i < 32
  {
    && (Marked(l.treemap, i) <==> l.root[i] != 0)
    && (l.root[i] != 0 ==>
          && l.root[i] in g.sz
          && var t := g.sz[l.root[i]];
          && t in g.head && g.head[t] == l.root[i]
          && TreeIndex(t) == i
          && IsRoot(g, t))
  }

  ghost predicate TrieOK(l: Links, g: Shape) {
    && |l.root| == 32
    && l.treemap < WORD
    && Nodes(g)
    && (forall s {:trigger NodeUp(l, g, s)} | s in g.head :: NodeUp(l, g, s))
    && (forall s, k {:trigger NodeDown(l, g, s, k)} | s in g.head && 0 <= k <= 1 :: NodeDown(l, g, s, k))
    && (forall i {:trigger RootAt(l, g, i)} | 0 <= i < 32 :: RootAt(l, g, i))
  }

  /** A chunk that is not a trie node has no trie links. */
  ghost predicate OffTrie(l: Links, a: Addr) {
    Get(l.parent, a) == 0 && l.Child(a, 0) == 0 && l.Child(a, 1) == 0
  }

  /** r is linked as a ring; only its first chunk is in the trie. */
  ghost predicate RingOK(l: Links, r: seq<Addr>) {
    && Ring(l.fd, l.bk, r)
    && forall j | 1 <= j < |r| :: OffTrie(l, r[j])
  }

  /** The ring of size s holds exactly the chunks of that size, behind its node. */
  ghost predicate RingAt(l: Links, g: Shape, s: nat)
    requires s in g.head
  {
    && s in g.ring
    && g.ring[s] != []
    && g.ring[s][0] == g.head[s]
    && RingOK(l, g.ring[s])
    && Distinct(g.ring[s])
    && (forall j | 0 <= j < |g.ring[s]| :: g.ring[s][j] > 0 && g.ring[s][j] in g.sz && g.sz[g.ring[s][j]] == s)
  }

  ghost predicate ChunkAt(l: Links, g: Shape, a: Addr)
    requires a in g.sz
  {
    && g.sz[a] < WORD
    && Get(l.index, a) == TreeIndex(g.sz[a])
    && g.sz[a] in g.head
    && g.sz[a] in g.ring
    && a in g.ring[g.sz[a]]
  }

  ghost predicate RingsOK(l: Links, g: Shape) {
    && (forall s {:trigger RingAt(l, g, s)} | s in g.head :: RingAt(l, g, s))
    && (forall a {:trigger ChunkAt(l, g, a)} | a in g.sz :: ChunkAt(l, g, a))
  }

  ghost predicate TreeOK(l: Links, g: Shape) {
    TrieOK(l, g) && RingsOK(l, g)
  }

  // ---- where a size can be found ----

  /** Size x belongs in the subtrie rooted at the node of size t. */
  ghost predicate Sub(g: Shape, t: nat, x: nat)
    requires Nodes(g) && t in g.head && x in g.head
  {
    && TreeIndex(x) == TreeIndex(t)
    && g.und[x] <= g.und[t]
    && Shr(x, g.und[t]) == Shr(t, g.und[t])
  }

  /** A position of a trie holds at most one node. */
  lemma {:induction false} UniquePosition(l: Links, g: Shape, a: nat, b: nat)
    requires TrieOK(l, g) && a in g.head && b in g.head
    requires TreeIndex(a) == TreeIndex(b) && g.und[a] == g.und[b] && Shr(a, g.und[a]) == Shr(b, g.und[a])
    ensures a == b
    decreases BitForTreeIndex(TreeIndex(a)) + 1 - g.und[a]
  {
    hide TreeIndex, Shr, Marked;
    assert NodeUp(l, g, a) && NodeUp(l, g, b);
    if !IsRoot(g, a) {
      var p, q, u := g.up[a], g.up[b], g.und[a];
      assert NodeUp(l, g, p);
      ShrStep(a, u);
      ShrStep(b, u);
      UniquePosition(l, g, p, q);
    }
    assert g.head[a] == g.head[b];
    assert g.sz[g.head[a]] == a && g.sz[g.head[b]] == b;
  }

  /** The next size bit of x says which child of t leads to x. */
  lemma {:induction false} Descend(l: Links, g: Shape, t: nat, x: nat)
    requires TrieOK(l, g) && t in g.head && x in g.head && Sub(g, t, x) && x != t
    ensures g.und[t] > g.und[x]
    ensures var c := l.Child(g.head[t], BitAt(x, g.und[t] - 1));
      c != 0 && c in g.sz && g.sz[c] in g.head && Sub(g, g.sz[c], x)
    decreases g.und[t] - g.und[x]
  {
    hide TreeIndex, Shr, Marked;
    if g.und[x] == g.und[t] { UniquePosition(l, g, t, x); }
    assert NodeUp(l, g, x) && NodeUp(l, g, t);
    var p := g.up[x];
    if p != t {
      ShrEqualAbove(p, x, g.und[p], g.und[t]);
      Descend(l, g, t, p);
      ShrEqualAbove(p, x, g.und[p], g.und[t] - 1);
      var c := l.Child(g.head[t], BitAt(x, g.und[t] - 1));
      assert NodeDown(l, g, t, 0) && NodeDown(l, g, t, 1);
    }
  }

  /** Every size of bin i is in the trie rooted at treebins[i]. */
  lemma {:induction false} UnderRoot(l: Links, g: Shape, x: nat)
    requires TrieOK(l, g) && x in g.head
    ensures var i := TreeIndex(x);
      i < 32 && l.root[i] != 0 && l.root[i] in g.sz && g.sz[l.root[i]] in g.head && Sub(g, g.sz[l.root[i]], x)
    decreases BitForTreeIndex(TreeIndex(x)) + 1 - g.und[x]
  {
    hide TreeIndex, Shr, Marked;
    assert NodeUp(l, g, x);
    var i := TreeIndex(x);
    if !IsRoot(g, x) {
      assert NodeUp(l, g, g.up[x]);
      UnderRoot(l, g, g.up[x]);
    }
    assert RootAt(l, g, i);
    SameBinSamePrefix(x, g.sz[l.root[i]]);
  }

  /** Sizes on different sides of a branching bit are ordered by it. */
  lemma BranchOrder(x: nat, y: nat, u: nat)
    requires Shr(x, u + 1) == Shr(y, u + 1) && BitAt(x, u) == 0 && BitAt(y, u) == 1
    ensures x < y
  {
    ShrStep(x, u);
    ShrStep(y, u);
    if y <= x { ShrMonotone(y, x, u); }
  }

  // ---- insert_large_chunk ----

  function FreshNode(l: Links, x: Addr, i: nat): Links {
    l.(index := l.index[x := i], child0 := l.child0[x := 0], child1 := l.child1[x := 0])
  }

  function SelfRing(l: Links, x: Addr): Links {
    l.(fd := l.fd[x := x], bk := l.bk[x := x])
  }

  /** X joins the ring of its size just behind the trie node. */
  ghost function RingInsertShape(g: Shape, x: Addr, s: nat): Shape
    requires s in g.ring && g.ring[s] != []
  {
    g.(sz := g.sz[x := s], ring := g.ring[s := [g.ring[s][0], x] + g.ring[s][1..]])
  }

  /** X becomes the node of a size not seen before. */
  ghost function NewNodeShape(g: Shape, x: Addr, s: nat, u: nat, p: nat): Shape {
    Shape(g.sz[x := s], g.head[s := x], g.ring[s := [x]], g.und[s := u], g.up[s := p])
  }

  /** Nodes whose links are untouched stay in place. */
  lemma TrieFrame(l: Links, l': Links, g: Shape, g': Shape)
    requires TrieOK(l, g) && Nodes(g')
    requires g'.head == g.head && g'.und == g.und && g'.up == g.up
    requires l'.root == l.root && l'.treemap == l.treemap
    requires forall s | s in g.head :: Get(l'.parent, g.head[s]) == Get(l.parent, g.head[s])
    requires forall s, k | s in g.head && 0 <= k <= 1 :: l'.Child(g.head[s], k) == l.Child(g.head[s], k)
    ensures TrieOK(l', g')
  {
    hide TreeIndex, Shr, Marked;
    forall s | s in g'.head
      ensures NodeUp(l', g', s)
    {
      assert NodeUp(l, g, s);
    }
    forall s, k | s in g'.head && 0 <= k <= 1
      ensures NodeDown(l', g', s, k)
    {
      assert NodeDown(l, g, s, k);
    }
    forall i | 0 <= i < 32
      ensures RootAt(l', g', i)
    {
      assert RootAt(l, g, i);
    }
  }

  ghost predicate SameLinks(l: Links, l': Links, a: Addr) {
    && Get(l'.fd, a) == Get(l.fd, a)
    && Get(l'.bk, a) == Get(l.bk, a)
    && Get(l'.parent, a) == Get(l.parent, a)
    && l'.Child(a, 0) == l.Child(a, 0)
    && l'.Child(a, 1) == l.Child(a, 1)
  }

  /** A ring survives changes elsewhere, and changes to its node's place in the trie. */
  lemma RingKept(l: Links, l': Links, r: seq<Addr>)
    requires RingOK(l, r)
    requires r != [] ==> Get(l'.fd, r[0]) == Get(l.fd, r[0]) && Get(l'.bk, r[0]) == Get(l.bk, r[0])
    requires forall j | 1 <= j < |r| :: SameLinks(l, l', r[j])
    ensures RingOK(l', r)
  {
    hide Ring;
    RingFrame(l.fd, l.bk, l'.fd, l'.bk, r);
  }

  lemma RingInsertLinks(l: Links, l': Links, r: seq<Addr>, x: Addr)
    requires r != [] && RingOK(l, r) && Distinct(r) && x !in r
    requires var t, f := r[0], Get(l.fd, r[0]);
      l' == l.(fd := l.fd[t := x][x := f], bk := l.bk[f := x][x := t],
               parent := l.parent[x := 0], index := l'.index,
               child0 := l.child0[x := 0], child1 := l.child1[x := 0])
    ensures RingOK(l', [r[0], x] + r[1..]) && Distinct([r[0], x] + r[1..])
  {
    hide Ring;
    InsertOK(l.fd, l.bk, r, x);
  }

  /** Inserting a chunk of a size already present. */
  lemma RingInsertRings(l: Links, l': Links, g: Shape, x: Addr, s: nat, z: nat)
    requires s in g.head && RingAt(l, g, s) && x > 0 && x !in g.sz && s < WORD
    requires var t, f := g.head[s], Get(l.fd, g.head[s]);
      l' == FreshNode(l, x, TreeIndex(s)).(fd := l.fd[t := x][x := f], bk := l.bk[f := x][x := t],
                                           parent := l.parent[x := 0])
    requires z in g.head && RingAt(l, g, z)
    ensures RingAt(l', RingInsertShape(g, x, s), z)
  {
    hide TreeIndex, RingOK, Distinct;
    if z != s {
      NextInRing(l, g, s, 0);
      RingKept(l, l', g.ring[z]);
    } else {
      RingInsertLinks(l, l', g.ring[s], x);
    }
  }

  lemma RingInsertChunks(l: Links, l': Links, g: Shape, x: Addr, s: nat, a: Addr)
    requires s in g.head && RingAt(l, g, s) && s < WORD && x !in g.sz
    requires l'.index == l.index[x := TreeIndex(s)]
    requires a == x || (a in g.sz && ChunkAt(l, g, a))
    ensures ChunkAt(l', RingInsertShape(g, x, s), a)
  {
    hide TreeIndex, RingOK, Distinct;
    var g' := RingInsertShape(g, x, s);
    if a == x {
      assert g'.ring[s][1] == x;
    } else if g.sz[a] == s {
      var j :| 0 <= j < |g.ring[s]| && g.ring[s][j] == a;
      assert g'.ring[s][if j == 0 then 0 else j + 1] == a;
    }
  }

  lemma RingInsertOK(l: Links, l': Links, g: Shape, x: Addr, s: nat)
    requires TreeOK(l, g) && s in g.head && x > 0 && x !in g.sz
    requires var t, f := g.head[s], Get(l.fd, g.head[s]);
      l' == FreshNode(l, x, TreeIndex(s)).(fd := l.fd[t := x][x := f], bk := l.bk[f := x][x := t],
                                           parent := l.parent[x := 0])
    ensures RingAt(l, g, s)
    ensures TreeOK(l', RingInsertShape(g, x, s))
  {
    hide TreeIndex, Shr, Marked, RingOK, Distinct, NodeUp, NodeDown, RootAt;
    assert RingAt(l, g, s);
    var g' := RingInsertShape(g, x, s);
    TrieFrame(l, l', g, g');
    forall z | z in g'.head
      ensures RingAt(l', g', z)
    {
      assert RingAt(l, g, z);
      RingInsertRings(l, l', g, x, s, z);
    }
    forall a | a in g'.sz
      ensures ChunkAt(l', g', a)
    {
      assert a == x || ChunkAt(l, g, a);
      RingInsertChunks(l, l', g, x, s, a);
    }
  }

  /** Ring neighbours have the same size. */
  lemma NextInRing(l: Links, g: Shape, s: nat, j: nat)
    requires s in g.head && RingAt(l, g, s) && j < |g.ring[s]|
    ensures var f, b := Get(l.fd, g.ring[s][j]), Get(l.bk, g.ring[s][j]);
      f in g.sz && g.sz[f] == s && b in g.sz && g.sz[b] == s
  {
    LinkedAt(l.fd, l.bk, g.ring[s], j);
  }

  /** A new node's ring is itself; the other rings are where they were. */
  lemma NewNodeRings(l: Links, l': Links, g: Shape, x: Addr, s: nat, u: nat, p: nat)
    requires Nodes(g) && RingsOK(l, g) && s !in g.head && x > 0 && x !in g.sz && s < WORD
    requires l'.fd == l.fd[x := x] && l'.bk == l.bk[x := x] && l'.index == l.index[x := TreeIndex(s)]
    requires forall a | a in g.sz && g.sz[a] in g.head && g.head[g.sz[a]] != a :: SameLinks(l, l', a)
    ensures RingsOK(l', NewNodeShape(g, x, s, u, p))
  {
    hide TreeIndex, RingOK;
    var g' := NewNodeShape(g, x, s, u, p);
    forall z | z in g'.head
      ensures RingAt(l', g', z)
    {
      if z != s {
        assert RingAt(l, g, z);
        forall j | 1 <= j < |g.ring[z]|
          ensures SameLinks(l, l', g.ring[z][j])
        {
          assert g.ring[z][0] != g.ring[z][j];
        }
        RingKept(l, l', g.ring[z]);
      } else {
        SingleRing(l', x);
      }
    }
    forall a | a in g'.sz
      ensures ChunkAt(l', g', a)
    {
      if a != x { assert ChunkAt(l, g, a); }
    }
  }

  lemma SingleRing(l: Links, x: Addr)
    requires Get(l.fd, x) == x && Get(l.bk, x) == x
    ensures RingOK(l, [x])
  {
    assert Linked(l.fd, l.bk, [x], 0);
  }

  lemma UpFrame(l: Links, l': Links, g: Shape, g': Shape, z: nat)
    requires Nodes(g) && Nodes(g') && |l.root| == |l'.root| == 32
    requires z in g.head && NodeUp(l, g, z)
    requires z in g'.head && g'.head[z] == g.head[z] && g'.und[z] == g.und[z] && g'.up[z] == g.up[z]
    requires Get(l'.parent, g.head[z]) == Get(l.parent, g.head[z])
    requires IsRoot(g, z) ==> l'.root[TreeIndex(z)] == l.root[TreeIndex(z)]
    requires !IsRoot(g, z) ==>
      var p := g.up[z];
      && p in g'.head && g'.head[p] == g.head[p] && g'.und[p] == g.und[p]
      && l'.Child(g.head[p], BitAt(z, g.und[z])) == l.Child(g.head[p], BitAt(z, g.und[z]))
    ensures NodeUp(l', g', z)
  {
    hide TreeIndex, Shr, Get, Links.Child;
  }

  lemma DownFrame(l: Links, l': Links, g: Shape, g': Shape, z: nat, k: nat)
    requires Nodes(g) && Nodes(g') && k <= 1
    requires z in g.head && NodeDown(l, g, z, k)
    requires z in g'.head && g'.head[z] == g.head[z] && g'.und[z] == g.und[z]
    requires l'.Child(g.head[z], k) == l.Child(g.head[z], k)
    requires var c := l.Child(g.head[z], k);
      c != 0 ==>
        && c in g'.sz && g'.sz[c] == g.sz[c]
        && var t := g.sz[c];
        && t in g'.head && g'.head[t] == g.head[t] && g'.und[t] == g.und[t] && g'.up[t] == g.up[t]
    ensures NodeDown(l', g', z, k)
  {
    hide TreeIndex, Shr, Get, Links.Child;
  }

  lemma ParentOf(l: Links, g: Shape, z: nat)
    requires TrieOK(l, g) && z in g.head
    ensures TreeIndex(z) < 32 && Get(l.parent, g.head[z]) != 0
    ensures g.und[z] <= BitForTreeIndex(TreeIndex(z)) + 1
    ensures IsRoot(g, z) ==> l.root[TreeIndex(z)] == g.head[z]
    ensures !IsRoot(g, z) ==>
      && g.up[z] in g.head
      && g.up[z] != z
      && g.und[g.up[z]] == g.und[z] + 1
      && l.Child(g.head[g.up[z]], BitAt(z, g.und[z])) == g.head[z]
  {
    hide TreeIndex, Shr, Marked;
    assert NodeUp(l, g, z);
  }

  lemma ChildOf(l: Links, g: Shape, z: nat, k: nat)
    requires TrieOK(l, g) && z in g.head && k <= 1
    ensures var c := l.Child(g.head[z], k);
      c != 0 ==>
        && c in g.sz && g.sz[c] in g.head && g.head[g.sz[c]] == c
        && g.up[g.sz[c]] == z && TreeIndex(g.sz[c]) == TreeIndex(z)
        && g.und[g.sz[c]] + 1 == g.und[z] && BitAt(g.sz[c], g.und[g.sz[c]]) == k
  {
    hide TreeIndex, Shr, Marked;
    assert NodeDown(l, g, z, k);
  }

  /** What the trie sees of a new leaf x hung at child k of h. */
  ghost predicate NewLeaf(l: Links, l': Links, x: Addr, h: Addr, k: nat) {
    && l'.root == l.root
    && l'.treemap == l.treemap
    && (forall a, j {:trigger l'.Child(a, j)} | 0 <= j <= 1 ::
          l'.Child(a, j) == if a == x then 0 else if a == h && j == k then x else l.Child(a, j))
    && (forall a {:trigger Get(l'.parent, a)} :: Get(l'.parent, a) == if a == x then h else Get(l.parent, a))
  }

  lemma LeafInsertNode(l: Links, l': Links, g: Shape, x: Addr, s: nat, t: nat)
    requires TrieOK(l, g) && s !in g.head && x > 0 && x !in g.sz && MIN_LARGE_SIZE <= s < WORD
    requires t in g.head && TreeIndex(t) == TreeIndex(s)
    requires g.und[t] > 0 && Shr(t, g.und[t]) == Shr(s, g.und[t])
    requires l.Child(g.head[t], BitAt(s, g.und[t] - 1)) == 0
    requires NewLeaf(l, l', x, g.head[t], BitAt(s, g.und[t] - 1))
    ensures var g' := NewNodeShape(g, x, s, g.und[t] - 1, t);
      && Nodes(g') && NodeUp(l', g', s) && NodeDown(l', g', s, 0) && NodeDown(l', g', s, 1)
      && NodeDown(l', g', t, BitAt(s, g.und[t] - 1))
  {
    hide TreeIndex, Shr, Marked, Get, Links.Child;
    assert NodeUp(l, g, t);
  }

  lemma LeafInsertUp(l: Links, l': Links, g: Shape, x: Addr, s: nat, t: nat, z: nat)
    requires TrieOK(l, g) && s !in g.head && x > 0 && x !in g.sz && MIN_LARGE_SIZE <= s < WORD
    requires t in g.head && TreeIndex(t) == TreeIndex(s)
    requires g.und[t] > 0 && Shr(t, g.und[t]) == Shr(s, g.und[t])
    requires l.Child(g.head[t], BitAt(s, g.und[t] - 1)) == 0
    requires NewLeaf(l, l', x, g.head[t], BitAt(s, g.und[t] - 1))
    requires z in g.head && Nodes(NewNodeShape(g, x, s, g.und[t] - 1, t))
    ensures NodeUp(l', NewNodeShape(g, x, s, g.und[t] - 1, t), z)
  {
    hide TreeIndex, Shr, Marked, NodeUp, NodeDown, Get, Links.Child;
    assert NodeUp(l, g, z);
    ParentOf(l, g, z);
    UpFrame(l, l', g, NewNodeShape(g, x, s, g.und[t] - 1, t), z);
  }

  lemma LeafInsertDown(l: Links, l': Links, g: Shape, x: Addr, s: nat, t: nat, z: nat, k: nat)
    requires TrieOK(l, g) && s !in g.head && x > 0 && x !in g.sz && MIN_LARGE_SIZE <= s < WORD
    requires t in g.head && TreeIndex(t) == TreeIndex(s)
    requires g.und[t] > 0 && Shr(t, g.und[t]) == Shr(s, g.und[t])
    requires l.Child(g.head[t], BitAt(s, g.und[t] - 1)) == 0
    requires NewLeaf(l, l', x, g.head[t], BitAt(s, g.und[t] - 1))
    requires z in g.head && k <= 1 && !(z == t && k == BitAt(s, g.und[t] - 1))
    requires Nodes(NewNodeShape(g, x, s, g.und[t] - 1, t))
    ensures NodeDown(l', NewNodeShape(g, x, s, g.und[t] - 1, t), z, k)
  {
    hide TreeIndex, Shr, Marked, NodeUp, NodeDown, Get, Links.Child;
    assert NodeDown(l, g, z, k);
    ChildOf(l, g, z, k);
    DownFrame(l, l', g, NewNodeShape(g, x, s, g.und[t] - 1, t), z, k);
  }

  /** Hanging a new leaf under the node of size t. */
  lemma LeafInsertTrie(l: Links, l': Links, g: Shape, x: Addr, s: nat, t: nat)
    requires TrieOK(l, g) && s !in g.head && x > 0 && x !in g.sz && MIN_LARGE_SIZE <= s < WORD
    requires t in g.head && TreeIndex(t) == TreeIndex(s)
    requires g.und[t] > 0 && Shr(t, g.und[t]) == Shr(s, g.und[t])
    requires l.Child(g.head[t], BitAt(s, g.und[t] - 1)) == 0
    requires NewLeaf(l, l', x, g.head[t], BitAt(s, g.und[t] - 1))
    ensures TrieOK(l', NewNodeShape(g, x, s, g.und[t] - 1, t))
  {
    hide TreeIndex, Shr, Marked, NodeUp, NodeDown, Get, Links.Child;
    var g' := NewNodeShape(g, x, s, g.und[t] - 1, t);
    LeafInsertNode(l, l', g, x, s, t);
    forall z | z in g'.head
      ensures NodeUp(l', g', z)
    {
      if z != s { LeafInsertUp(l, l', g, x, s, t, z); }
    }
    forall z, k | z in g'.head && 0 <= k <= 1
      ensures NodeDown(l', g', z, k)
    {
      if z != s && !(z == t && k == BitAt(s, g.und[t] - 1)) { LeafInsertDown(l, l', g, x, s, t, z, k); }
    }
    forall i | 0 <= i < 32
      ensures RootAt(l', g', i)
    {
      assert RootAt(l, g, i);
    }
  }

  lemma FreshEffect(l: Links, x: Addr, i: nat)
    ensures var l' := FreshNode(l, x, i);
      && l'.fd == l.fd && l'.bk == l.bk && l'.parent == l.parent && l'.root == l.root && l'.treemap == l.treemap
      && forall a, j {:trigger l'.Child(a, j)} :: l'.Child(a, j) == if a == x then 0 else l.Child(a, j)
  {
  }

  lemma LeafEffect(l: Links, x: Addr, h: Addr, k: nat, i: nat)
    requires x != h && k <= 1
    ensures var l' := SelfRing(FreshNode(l, x, i).SetChild(h, k, x).SetParent(x, h), x);
      NewLeaf(l, l', x, h, k) && forall a | a != x && a != h :: SameLinks(l, l', a)
  {
    hide Links.Child, Links.SetChild, Links.SetParent, FreshNode;
    FreshEffect(l, x, i);
    var l1 := FreshNode(l, x, i);
    SetChildEffect(l1, h, k, x);
    var l2 := l1.SetChild(h, k, x);
    SetParentEffect(l2, x, h);
    SameChildren(l2.SetParent(x, h), SelfRing(l2.SetParent(x, h), x));
  }

  lemma LeafInsertOK(l: Links, l': Links, g: Shape, x: Addr, s: nat, t: nat)
    requires TreeOK(l, g) && s !in g.head && x > 0 && x !in g.sz && MIN_LARGE_SIZE <= s < WORD
    requires t in g.head && TreeIndex(t) == TreeIndex(s)
    requires g.und[t] > 0 && Shr(t, g.und[t]) == Shr(s, g.und[t])
    requires l.Child(g.head[t], BitAt(s, g.und[t] - 1)) == 0
    requires l' == SelfRing(FreshNode(l, x, TreeIndex(s)).SetChild(g.head[t], BitAt(s, g.und[t] - 1), x)
                                                         .SetParent(x, g.head[t]), x)
    ensures TreeOK(l', NewNodeShape(g, x, s, g.und[t] - 1, t))
  {
    hide TreeIndex, Shr, RingAt, ChunkAt, NodeUp, NodeDown, RootAt, SameLinks, NewLeaf;
    LeafEffect(l, x, g.head[t], BitAt(s, g.und[t] - 1), TreeIndex(s));
    LeafInsertTrie(l, l', g, x, s, t);
    NewNodeRings(l, l', g, x, s, g.und[t] - 1, t);
  }

  /** What the trie sees of a new root x in bin i. */
  ghost predicate NewRoot(l: Links, l': Links, x: Addr, i: nat)
    requires i < |l.root|
  {
    && l'.root == l.root[i := x]
    && l'.treemap == Mark(l.treemap, i)
    && (forall a, j {:trigger l'.Child(a, j)} | 0 <= j <= 1 :: l'.Child(a, j) == if a == x then 0 else l.Child(a, j))
    && (forall a {:trigger Get(l'.parent, a)} :: Get(l'.parent, a) == if a == x then TreebinAt(i) else Get(l.parent, a))
  }

  lemma RootInsertNode(l: Links, l': Links, g: Shape, x: Addr, s: nat, z: nat)
    requires TrieOK(l, g) && x > 0 && x !in g.sz && MIN_LARGE_SIZE <= s < WORD
    requires TreeIndex(s) < 32 && l.root[TreeIndex(s)] == 0
    requires NewRoot(l, l', x, TreeIndex(s))
    requires s !in g.head && (z == s || z in g.head)
    ensures var g' := NewNodeShape(g, x, s, BitForTreeIndex(TreeIndex(s)) + 1, s);
      Nodes(g') && NodeUp(l', g', z) && NodeDown(l', g', z, 0) && NodeDown(l', g', z, 1)
  {
    hide TreeIndex, Shr, Marked, Mark, Get, Links.Child;
    var g' := NewNodeShape(g, x, s, BitForTreeIndex(TreeIndex(s)) + 1, s);
    if z != s {
      assert NodeUp(l, g, z) && NodeDown(l, g, z, 0) && NodeDown(l, g, z, 1);
      UpFrame(l, l', g, g', z);
      DownFrame(l, l', g, g', z, 0);
      DownFrame(l, l', g, g', z, 1);
    }
  }

  /** Starting a trie in an empty bin. */
  lemma RootInsertTrie(l: Links, l': Links, g: Shape, x: Addr, s: nat)
    requires TrieOK(l, g) && x > 0 && x !in g.sz && MIN_LARGE_SIZE <= s < WORD
    requires TreeIndex(s) < 32 && l.root[TreeIndex(s)] == 0
    requires NewRoot(l, l', x, TreeIndex(s))
    ensures s !in g.head
    ensures TrieOK(l', NewNodeShape(g, x, s, BitForTreeIndex(TreeIndex(s)) + 1, s))
  {
    hide TreeIndex, Shr, Marked, Mark, NodeUp, NodeDown, Get, Links.Child;
    if s in g.head { UnderRoot(l, g, s); }
    var i := TreeIndex(s);
    var g' := NewNodeShape(g, x, s, BitForTreeIndex(i) + 1, s);
    MarkBound(l.treemap, i);
    RootInsertNode(l, l', g, x, s, s);
    forall z | z in g'.head
      ensures NodeUp(l', g', z)
    {
      RootInsertNode(l, l', g, x, s, z);
    }
    forall z, k | z in g'.head && 0 <= k <= 1
      ensures NodeDown(l', g', z, k)
    {
      RootInsertNode(l, l', g, x, s, z);
    }
    forall j | 0 <= j < 32
      ensures RootAt(l', g', j)
    {
      assert RootAt(l, g, j);
      MarkSpec(l.treemap, i, j);
    }
  }

  lemma RootInsertOK(l: Links, l': Links, g: Shape, x: Addr, s: nat)
    requires TreeOK(l, g) && x > 0 && x !in g.sz && MIN_LARGE_SIZE <= s < WORD
    requires TreeIndex(s) < 32 && l.root[TreeIndex(s)] == 0
    requires var i := TreeIndex(s);
      l' == SelfRing(FreshNode(l, x, i).(treemap := Mark(l.treemap, i), root := l.root[i := x])
                                       .SetParent(x, TreebinAt(i)), x)
    ensures TreeOK(l', NewNodeShape(g, x, s, BitForTreeIndex(TreeIndex(s)) + 1, s))
  {
    hide TreeIndex, Shr, RingAt, ChunkAt, NodeUp, NodeDown, RootAt, Mark;
    RootInsertTrie(l, l', g, x, s);
    NewNodeRings(l, l', g, x, s, BitForTreeIndex(TreeIndex(s)) + 1, s);
  }

  lemma EmptyOK()
    ensures TreeOK(Links(0, seq(32, _ => 0), map[], map[], map[], map[], map[], map[]),
                   Shape(map[], map[], map[], map[], map[]))
  {
    hide TreeIndex;
    forall i | 0 <= i < 32
      ensures !Marked(0, i)
    {
      ShrZero(i);
    }
  }

  /** sizes gives chunksize(p), as read from the head word, for every chunk in the tries. */
  ghost predicate Agree(sizes: map<Addr, nat>, sz: map<Addr, nat>) {
    forall a | a in sz :: a in sizes && sizes[a] == sz[a]
  }

  class Treebins {
    var l: Links
    ghost var g: Shape

    ghost predicate Valid()
      reads this
    {
      TreeOK(l, g)
    }

    constructor ()
      ensures Valid() && g.sz == map[]
    {
      l := Links(0, seq(32, _ => 0), map[], map[], map[], map[], map[], map[]);
      g := Shape(map[], map[], map[], map[], map[]);
      EmptyOK();
    }

    /** insert_large_chunk: exactly the chunk x of size s joins the tries. */
    method InsertLarge(sizes: map<Addr, nat>, x: Addr, s: nat)
      requires Valid() && Agree(sizes, g.sz)
      requires x > 0 && x !in g.sz && MIN_LARGE_SIZE <= s < WORD
      modifies this
      ensures Valid() && g.sz == old(g.sz)[x := s]
    {
      hide TreeOK, TreeIndex, Shr, Marked, Mark;
      var i := ComputeTreeIndex(s);
      TreeIndexSpec(s);
      BinLookup(l, g, s);
      if !Marked(l.treemap, i) {
        RootInsertOK(l, RootLinks(l, x, i), g, x, s);
        l := RootLinks(l, x, i);
        g := NewNodeShape(g, x, s, BitForTreeIndex(i) + 1, s);
      } else {
        var t := l.root[i];
        var k := Shl(s, LeftShiftForTreeIndex(i));
        ghost var n := LeftShiftForTreeIndex(i);
        while true
          invariant g == old(g) && l == old(l)
          invariant OnPath(g, t, s, i)
          invariant 0 <= n < 33 && n == 32 - g.und[g.sz[t]] && k == Shl(s, n)
          decreases g.und[g.sz[t]]
        {
          if sizes[t] != s {
            StepDown(l, g, t, s, i);
            SignBitOfShl(s, n);
            ShlStep(s, n);
            var b := k / 0x8000_0000;
            k := k * 2 % WORD;
            n := n + 1;
            if l.Child(t, b) != 0 {
              t := l.Child(t, b);
            } else {
              LeafInsertOK(l, LeafLinks(l, x, t, b, i), g, x, s, g.sz[t]);
              l := LeafLinks(l, x, t, b, i);
              g := NewNodeShape(g, x, s, g.und[g.sz[t]] - 1, g.sz[t]);
              break;
            }
          } else {
            var f := Get(l.fd, t);
            RingInsertOK(l, RingLinks(l, x, t, f, i), g, x, s);
            l := RingLinks(l, x, t, f, i);
            g := RingInsertShape(g, x, s);
            break;
          }
        }
      }
    }

    /** The pointer to the trie node x, in its bin or in its parent, now leads to r. */
    method Repoint(x: Addr, r: Addr)
      requires |l.root| == 32 && 0 <= Get(l.index, x) < 32
      requires x != l.root[Get(l.index, x)] ==>
        (l.Child(Get(l.parent, x), 0) == x) != (l.Child(Get(l.parent, x), 1) == x)
      modifies this
      ensures g == old(g)
      ensures Repointed(old(l), l, x, r)
    {
      hide Clear, Get, Links.Child, Links.SetChild;
      var xp, i := Get(l.parent, x), Get(l.index, x);
      ghost var l0 := l;
      if x == l.root[i] {
        l := l.(root := l.root[i := r]);
        if r == 0 {
          l := l.(treemap := Clear(l.treemap, i));
        }
        SameChildren(l0, l);
      } else if l.Child(xp, 0) == x {
        SetChildEffect(l, xp, 0, r);
        l := l.SetChild(xp, 0, r);
      } else {
        SetChildEffect(l, xp, 1, r);
        l := l.SetChild(xp, 1, r);
      }
    }

    /** r takes over the children of x. */
    method Adopt(x: Addr, r: Addr)
      requires r != x && l.Child(r, 0) == 0 && l.Child(r, 1) == 0
      modifies this
      ensures g == old(g)
      ensures Adopted(old(l), l, x, r)
    {
      hide Get, Links.Child, Links.SetChild, Links.SetParent;
      var c0 := l.Child(x, 0);
      if c0 != 0 {
        AdoptEffect(l, r, 0, c0);
        l := l.SetChild(r, 0, c0).SetParent(c0, r);
      }
      var c1 := l.Child(x, 1);
      if c1 != 0 {
        AdoptEffect(l, r, 1, c1);
        l := l.SetChild(r, 1, c1).SetParent(c1, r);
      }
    }

    /**
     The last step of unlink_large_chunk, for a chunk x that is a trie node: its
     parent and children are relinked to r, or its parent's pointer is cleared
     when there is no replacement.
     */
    method TakePlace(x: Addr, r: Addr)
      requires Ready(l, x, r)
      modifies this
      ensures g == old(g) && l.fd == old(l.fd) && l.bk == old(l.bk) && l.index == old(l.index)
      ensures var p, i := Get(old(l).parent, x), Get(old(l).index, x);
        && (r == 0 ==> LeafCut(old(l), l, x == old(l).root[i], i, p, if old(l).Child(p, 0) == x then 0 else 1))
        && (r != 0 ==> Relinked(old(l), l, x, r, x == old(l).root[i], i, p))
    {
      hide Clear, Get, Links.Child, Links.SetParent;
      var xp := Get(l.parent, x);
      Repoint(x, r);
      if r != 0 {
        SetParentEffect(l, r, xp);
        l := l.SetParent(r, xp);
        Adopt(x, r);
      }
    }

    /** unlink_large_chunk: exactly the chunk x leaves the tries. */
    method UnlinkLarge(x: Addr)
      requires Valid() && x in g.sz
      modifies this
      ensures Valid() && g.sz == old(g.sz) - {x}
    {
      hide TreeOK, TrieOK, RingsOK, TreeIndex, Shr, Get, Links.Child, Ring, OffTrie, Relinked, Sub, Without;
      ghost var s := g.sz[x];
      ghost var j := PlaceOf(l, g, x);
      ghost var l0, g0 := l, g;
      var xp := Get(l.parent, x);
      var r := 0;
      if Get(l.bk, x) != x {
        var f := Get(l.fd, x);
        r := Get(l.bk, x);
        LinkedAt(l.fd, l.bk, g.ring[s], j);
        assert Get(l.bk, f) == x && Get(l.fd, r) == x by { NeighboursPointBack(l.fd, l.bk, g.ring[s], j); }
        l := l.(bk := l.bk[f := r], fd := l.fd[r := f]);
        if xp != 0 {
          TakeoverReady(l0, l, g, x, s, j);
          TakePlace(x, r);
          TakeoverOK(l0, l0.(bk := l0.bk[f := r], fd := l0.fd[r := f]), l, g, s);
          g := TakeoverShape(g, s);
        } else {
          OffTheTrie(l0, g, x, s, j);
          UnlinkChainedOK(l0, l, g, x, s, j);
          g := g.(sz := g.sz - {x}, ring := g.ring[s := Without(g.ring[s], j)]);
        }
      } else {
        LoneNode(l, g, x, s, j);
        var rp, rk := x, 1;
        r := l.Child(x, 1);
        if r == 0 {
          rk := 0;
          r := l.Child(x, 0);
        }
        if r != 0 {
          FirstBelow(l, g, s, rk);
          while true
            invariant l == l0 && g == g0
            invariant Below(g, s, r, rp, rk)
            decreases g.und[g.sz[r]]
          {
            var cp, ck := l.Child(r, 1), 1;
            if cp == 0 {
              ck := 0;
              cp := l.Child(r, 0);
            }
            if cp == 0 {
              break;
            }
            NextBelow(l, g, s, r, rp, rk, ck);
            rp, rk, r := r, ck, cp;
          }
          ghost var rs := g.sz[r];
          SetChildEffect(l, rp, rk, 0);
          l := l.SetChild(rp, rk, 0);
          MoveReady(l0, l, g, x, s, r, rp, rk);
          ghost var l1 := l;
          TakePlace(x, r);
          MoveLeafOK(l0, l1, l, g, s, rs);
          g := MovedShape(g, s, rs);
        } else {
          LeafReady(l, g, x, s);
          TakePlace(x, r);
          UnlinkLeafOK(l0, l, g, s);
          g := DropNode(g, s).(sz := g.sz - {x});
        }
      }
    }

    /**
     First loop of tmalloc_large: follow the bits of nb down its own bin, keeping
     the best fit met and the deepest right subtrie not taken.
     */
    method WalkPath(sizes: map<Addr, nat>, nb: nat, idx: nat) returns (t: Addr, v: Addr, rsize: nat)
      requires Valid() && Agree(sizes, g.sz)
      requires MIN_LARGE_SIZE <= nb < WORD && TreeIndex(nb) == idx < 32
      ensures BinDone(g, t, v, nb, idx) && Candidate(g, v, rsize, nb)
    {
      hide TreeOK, TreeIndex, Shr, Get, Links.Child, Marked, Sub, BinDone, RightOf;
      v := 0;
      rsize := WORD - nb;
      BinLookup(l, g, nb);
      ForkAtRoot(l, g, nb, idx);
      t := l.root[idx];
      if t != 0 {
        var sizebits := Shl(nb, LeftShiftForTreeIndex(idx));
        ghost var n := LeftShiftForTreeIndex(idx);
        var rst := 0;
        while true
          invariant t != 0 && Fork(g, t, rst, v, nb, idx)
          invariant Candidate(g, v, rsize, nb)
          invariant n == 32 - g.und[g.sz[t]] && sizebits == Shl(nb, n)
          decreases g.und[g.sz[t]]
        {
          var trem := (sizes[t] - nb) % WORD;
          ghost var v0 := v;
          CandidateStep(g, t, v, rsize, nb);
          if trem < rsize {
            v := t;
            rsize := trem;
          }
          if rsize == 0 {
            ExactIsDone(g, t, rst, v0, v, nb, idx);
            break;
          }
          ForkStep(l, g, t, rst, v0, v, nb, idx);
          SignBitOfShl(nb, n);
          ShlStep(nb, n);
          var rt := l.Child(t, 1);
          t := l.Child(t, sizebits / 0x8000_0000);
          if rt != 0 && rt != t {
            rst := rt;
          }
          if t == 0 {
            t := rst;
            break;
          }
          sizebits := sizebits * 2 % WORD;
          n := n + 1;
        }
      }
    }

    /** Last loop of tmalloc_large: the smallest of a subtrie lies on its leftmost path. */
    method ScanLeftmost(sizes: map<Addr, nat>, nb: nat, t0: Addr, v0: Addr, rsize0: nat) returns (v: Addr, rsize: nat)
      requires Valid() && Agree(sizes, g.sz) && 0 < nb < WORD
      requires Scan(g, t0, v0, nb) && Candidate(g, v0, rsize0, nb)
      ensures Candidate(g, v, rsize, nb)
      ensures forall a | a in g.sz && nb <= g.sz[a] :: Covers(g, v, g.sz[a])
    {
      hide TreeOK, TreeIndex, Shr, Get, Links.Child, Sub;
      var t := t0;
      v, rsize := v0, rsize0;
      while t != 0
        invariant Scan(g, t, v, nb) && Candidate(g, v, rsize, nb)
        decreases if t == 0 then 0 else g.und[g.sz[t]] + 1
      {
        var trem := (sizes[t] - nb) % WORD;
        CandidateStep(g, t, v, rsize, nb);
        ghost var v1 := v;
        if trem < rsize {
          rsize := trem;
          v := t;
        }
        ScanStep(l, g, t, v1, v, nb);
        t := if l.Child(t, 0) != 0 then l.Child(t, 0) else l.Child(t, 1);
      }
      ScanDone(l, g, v, nb);
    }

    /**
     The search of tmalloc_large: the smallest tree chunk of at least nb bytes, or
     null when there is none.  Remainders are computed in unsigned arithmetic, so
     a chunk that is too small shows as one that is far too large.
     */
    method BestFit(sizes: map<Addr, nat>, nb: nat) returns (v: Addr, rsize: nat)
      requires Valid() && Agree(sizes, g.sz)
      requires MIN_LARGE_SIZE <= nb < WORD
      ensures v == 0 ==> rsize == WORD - nb && forall a | a in g.sz :: g.sz[a] < nb
      ensures v != 0 ==>
        && v in g.sz && nb <= g.sz[v] && rsize == g.sz[v] - nb
        && (forall a | a in g.sz && nb <= g.sz[a] :: g.sz[v] <= g.sz[a])
        && IsOldest(g, v)
    {
      hide TreeOK, TreeIndex, Shr, Marked, BinDone, Scan, BitwiseAnd, LeftBits, LeastBit, BitToIndex;
      var idx := ComputeTreeIndex(nb);
      TreeIndexSpec(nb);
      BinLookup(l, g, nb);
      var t;
      t, v, rsize := WalkPath(sizes, nb, idx);
      if t == 0 && v == 0 {
        NextBin(l, g, nb, idx);
        var leftbits := BitwiseAnd(LeftBits(Pow2(idx)), l.treemap);
        if leftbits != 0 {
          var i := BitToIndex(LeastBit(leftbits));
          t := l.root[i];
        }
      } else {
        BinIsEnough(l, g, t, v, nb, idx);
      }
      v, rsize := ScanLeftmost(sizes, nb, t, v, rsize);
    }

    /**
     The search of tmalloc_small: when every tree chunk is large enough, the
     smallest of them.
     */
    method SmallestFit(sizes: map<Addr, nat>, nb: nat) returns (v: Addr, rsize: nat)
      requires Valid() && Agree(sizes, g.sz)
      requires 0 < nb < MIN_LARGE_SIZE && l.treemap != 0
      ensures v in g.sz && rsize == g.sz[v] - nb
      ensures forall a | a in g.sz :: g.sz[v] <= g.sz[a]
      ensures IsOldest(g, v)
    {
      hide TreeOK, TreeIndex, Shr, Marked, Get, Links.Child, Sub, LeastBit, BitToIndex;
      LeastBin(l, g, nb);
      var i := BitToIndex(LeastBit(l.treemap));
      var t := l.root[i];
      v := t;
      rsize := (sizes[t] - nb) % WORD;
      CandidateStep(g, t, 0, WORD - nb, nb);
      ScanStep(l, g, t, 0, v, nb);
      t := if l.Child(t, 0) != 0 then l.Child(t, 0) else l.Child(t, 1);
      while t != 0
        invariant Scan(g, t, v, nb) && Candidate(g, v, rsize, nb) && v != 0
        decreases if t == 0 then 0 else g.und[g.sz[t]] + 1
      {
        var trem := (sizes[t] - nb) % WORD;
        CandidateStep(g, t, v, rsize, nb);
        ghost var v1 := v;
        if trem < rsize {
          rsize := trem;
          v := t;
        }
        ScanStep(l, g, t, v1, v, nb);
        t := if l.Child(t, 0) != 0 then l.Child(t, 0) else l.Child(t, 1);
      }
      ScanDone(l, g, v, nb);
      AllLarge(l, g);
    }
  }

  /** Where x stands in the ring of its size. */
  ghost function PlaceOf(l: Links, g: Shape, x: Addr): (j: nat)
    requires TreeOK(l, g) && x in g.sz
    ensures g.sz[x] in g.head && RingAt(l, g, g.sz[x]) && j < |g.ring[g.sz[x]]| && g.ring[g.sz[x]][j] == x
  {
    assert ChunkAt(l, g, x);
    assert RingAt(l, g, g.sz[x]);
    var j :| 0 <= j < |g.ring[g.sz[x]]| && g.ring[g.sz[x]][j] == x;
    j
  }

  /** x is a trie node in its place, and r is apart from the trie. */
  ghost predicate Ready(l: Links, x: Addr, r: Addr) {
    && |l.root| == 32 && 0 <= Get(l.index, x) < 32
    && var p, i := Get(l.parent, x), Get(l.index, x);
    && p != x && r != x && r != p
    && (x != l.root[i] ==> (l.Child(p, 0) == x) != (l.Child(p, 1) == x))
    && (r != 0 ==> l.Child(r, 0) == 0 && l.Child(r, 1) == 0)
    && (l.Child(x, 0) != 0 ==> l.Child(x, 0) != r) && (l.Child(x, 1) != 0 ==> l.Child(x, 1) != r)
  }

  ghost predicate Repointed(l: Links, l': Links, x: Addr, r: Addr)
    requires |l.root| == 32 && 0 <= Get(l.index, x) < 32
  {
    var p, i := Get(l.parent, x), Get(l.index, x);
    var root := x == l.root[i];
    && l'.fd == l.fd && l'.bk == l.bk && l'.index == l.index && l'.parent == l.parent
    && l'.root == (if root then l.root[i := r] else l.root)
    && l'.treemap == (if root && r == 0 then Clear(l.treemap, i) else l.treemap)
    && forall a, k {:trigger l'.Child(a, k)} | 0 <= k <= 1 ::
         l'.Child(a, k) == if !root && a == p && l.Child(a, k) == x then r else l.Child(a, k)
  }

  ghost predicate Adopted(l: Links, l': Links, x: Addr, r: Addr) {
    && l'.fd == l.fd && l'.bk == l.bk && l'.index == l.index && l'.root == l.root && l'.treemap == l.treemap
    && (forall a, k {:trigger l'.Child(a, k)} | 0 <= k <= 1 ::
          l'.Child(a, k) == if a == r then l.Child(x, k) else l.Child(a, k))
    && (forall a {:trigger Get(l'.parent, a)} ::
          Get(l'.parent, a) ==
            if a != 0 && (a == l.Child(x, 0) || a == l.Child(x, 1)) then r else Get(l.parent, a))
  }

  lemma SetChildEffect(l: Links, h: Addr, k: nat, c: Addr)
    requires k <= 1
    ensures var l' := l.SetChild(h, k, c);
      && l'.fd == l.fd && l'.bk == l.bk && l'.index == l.index && l'.parent == l.parent
      && l'.root == l.root && l'.treemap == l.treemap
      && forall a, j {:trigger l'.Child(a, j)} | 0 <= j <= 1 ::
           l'.Child(a, j) == if a == h && j == k then c else l.Child(a, j)
  {
  }

  lemma SetParentEffect(l: Links, x: Addr, p: Addr)
    ensures var l' := l.SetParent(x, p);
      && l'.fd == l.fd && l'.bk == l.bk && l'.index == l.index && l'.root == l.root && l'.treemap == l.treemap
      && (forall a, j {:trigger l'.Child(a, j)} :: l'.Child(a, j) == l.Child(a, j))
      && (forall a {:trigger Get(l'.parent, a)} :: Get(l'.parent, a) == if a == x then p else Get(l.parent, a))
  {
  }

  lemma AdoptEffect(l: Links, r: Addr, k: nat, c: Addr)
    requires k <= 1
    ensures var l' := l.SetChild(r, k, c).SetParent(c, r);
      && l'.fd == l.fd && l'.bk == l.bk && l'.index == l.index && l'.root == l.root && l'.treemap == l.treemap
      && (forall a, j {:trigger l'.Child(a, j)} | 0 <= j <= 1 ::
            l'.Child(a, j) == if a == r && j == k then c else l.Child(a, j))
      && (forall a {:trigger Get(l'.parent, a)} :: Get(l'.parent, a) == if a == c then r else Get(l.parent, a))
  {
    hide Get, Links.Child, Links.SetChild, Links.SetParent;
    SetChildEffect(l, r, k, c);
    SetParentEffect(l.SetChild(r, k, c), c, r);
  }

  function RootLinks(l: Links, x: Addr, i: nat): Links
    requires i < |l.root|
  {
    SelfRing(FreshNode(l, x, i).(treemap := Mark(l.treemap, i), root := l.root[i := x]).SetParent(x, TreebinAt(i)), x)
  }

  function LeafLinks(l: Links, x: Addr, t: Addr, b: nat, i: nat): Links {
    SelfRing(FreshNode(l, x, i).SetChild(t, b, x).SetParent(x, t), x)
  }

  function RingLinks(l: Links, x: Addr, t: Addr, f: Addr, i: nat): Links {
    FreshNode(l, x, i).(fd := l.fd[t := x][x := f], bk := l.bk[f := x][x := t], parent := l.parent[x := 0])
  }

  /** t is a node of bin i at which the bits of s decided so far agree. */
  ghost predicate OnPath(g: Shape, t: Addr, s: nat, i: nat) {
    && Nodes(g)
    && t in g.sz
    && s < WORD
    && g.sz[t] in g.head
    && g.head[g.sz[t]] == t
    && TreeIndex(g.sz[t]) == i
    && g.und[g.sz[t]] <= 32
    && Shr(s, g.und[g.sz[t]]) == Shr(g.sz[t], g.und[g.sz[t]])
    && (s in g.head ==> Sub(g, g.sz[t], s))
  }

  lemma BinLookup(l: Links, g: Shape, s: nat)
    requires TreeOK(l, g) && MIN_LARGE_SIZE <= s < WORD && TreeIndex(s) < 32
    ensures |l.root| == 32 && l.treemap < WORD
    ensures Marked(l.treemap, TreeIndex(s)) <==> l.root[TreeIndex(s)] != 0
    ensures l.root[TreeIndex(s)] != 0 ==>
      && OnPath(g, l.root[TreeIndex(s)], s, TreeIndex(s))
      && g.und[g.sz[l.root[TreeIndex(s)]]] == BitForTreeIndex(TreeIndex(s)) + 1
  {
    hide TreeIndex, Shr, Marked, RingsOK;
    var i := TreeIndex(s);
    assert RootAt(l, g, i);
    if l.root[i] != 0 { SameBinSamePrefix(s, g.sz[l.root[i]]); }
    if s in g.head { UnderRoot(l, g, s); }
  }

  /** Following the next bit of s: either onto the next node of the path, or off the trie. */
  lemma StepDown(l: Links, g: Shape, t: Addr, s: nat, i: nat)
    requires TreeOK(l, g) && OnPath(g, t, s, i) && g.sz[t] != s && MIN_LARGE_SIZE <= s && TreeIndex(s) == i
    ensures g.und[g.sz[t]] > 0
    ensures var u := g.und[g.sz[t]] - 1; var c := l.Child(t, BitAt(s, u));
      && (c != 0 ==> OnPath(g, c, s, i) && g.und[g.sz[c]] == u)
      && (c == 0 ==> s !in g.head)
  {
    hide TreeIndex, Shr, Marked, RingsOK;
    var ts := g.sz[t];
    UndecidedBits(s, ts, g.und[ts]);
    var u := g.und[ts] - 1;
    var b := BitAt(s, u);
    assert NodeDown(l, g, ts, b);
    var c := l.Child(t, b);
    if s in g.head { Descend(l, g, ts, s); }
    if c != 0 {
      var cs := g.sz[c];
      assert NodeUp(l, g, cs) && NodeUp(l, g, ts);
      ShrStep(s, u);
      ShrStep(cs, u);
    }
  }

  lemma UndecidedBits(s: nat, t: nat, u: nat)
    requires s != t && Shr(s, u) == Shr(t, u)
    ensures u > 0
  {
  }

  // ---- unlink_large_chunk ----

  /** The shape without the node of size t (its chunk may still be in sz). */
  ghost function DropNode(g: Shape, t: nat): Shape {
    Shape(g.sz, g.head - {t}, g.ring - {t}, g.und - {t}, g.up - {t})
  }

  /** What the trie sees when the pointer to the leaf h of bin i, under the node p, is cleared. */
  ghost predicate LeafCut(l: Links, l': Links, root: bool, i: nat, p: Addr, k: nat)
    requires i < 32 && |l.root| == 32
  {
    && l'.root == (if root then l.root[i := 0] else l.root)
    && l'.treemap == (if root then Clear(l.treemap, i) else l.treemap)
    && (forall a, j {:trigger l'.Child(a, j)} | 0 <= j <= 1 ::
          l'.Child(a, j) == if !root && a == p && j == k then 0 else l.Child(a, j))
    && l'.parent == l.parent
  }

  ghost predicate IsLeaf(l: Links, g: Shape, t: nat)
    requires t in g.head
  {
    l.Child(g.head[t], 0) == 0 && l.Child(g.head[t], 1) == 0
  }

  lemma CutNode(l: Links, l': Links, g: Shape, t: nat, z: nat, k: nat)
    requires TrieOK(l, g) && t in g.head && IsLeaf(l, g, t) && TreeIndex(t) < 32
    requires !IsRoot(g, t) ==> g.up[t] in g.head
    requires LeafCut(l, l', IsRoot(g, t), TreeIndex(t), if IsRoot(g, t) then 0 else g.head[g.up[t]], BitAt(t, g.und[t]))
    requires z in g.head && z != t && k <= 1
    ensures Nodes(DropNode(g, t)) && |l'.root| == 32
    ensures NodeUp(l', DropNode(g, t), z) && NodeDown(l', DropNode(g, t), z, k)
  {
    hide TreeIndex, Shr, Marked, Get, Links.Child, NodeUp, NodeDown;
    var g' := DropNode(g, t);
    assert NodeUp(l, g, z) && NodeDown(l, g, z, k);
    ParentOf(l, g, z);
    ParentOf(l, g, t);
    ChildOf(l, g, z, k);
    UpFrame(l, l', g, g', z);
    if l.Child(g.head[z], k) != g.head[t] {
      DownFrame(l, l', g, g', z, k);
    } else {
      CutEmpty(l', g', z, k);
    }
  }

  lemma CutEmpty(l: Links, g: Shape, z: nat, k: nat)
    requires Nodes(g) && z in g.head && l.Child(g.head[z], k) == 0
    ensures NodeDown(l, g, z, k)
  {
  }

  /** Cutting off a leaf. */
  lemma CutOK(l: Links, l': Links, g: Shape, t: nat)
    requires TrieOK(l, g) && t in g.head && IsLeaf(l, g, t) && TreeIndex(t) < 32
    requires !IsRoot(g, t) ==> g.up[t] in g.head
    requires LeafCut(l, l', IsRoot(g, t), TreeIndex(t), if IsRoot(g, t) then 0 else g.head[g.up[t]], BitAt(t, g.und[t]))
    ensures TrieOK(l', DropNode(g, t))
  {
    hide TreeIndex, Shr, Marked, Clear, Get, Links.Child, NodeUp, NodeDown;
    var g', i := DropNode(g, t), TreeIndex(t);
    MarkBound(l.treemap, i);
    forall z | z in g'.head
      ensures NodeUp(l', g', z)
    {
      CutNode(l, l', g, t, z, 0);
    }
    forall z, k | z in g'.head && 0 <= k <= 1
      ensures NodeDown(l', g', z, k)
    {
      CutNode(l, l', g, t, z, k);
    }
    forall j | 0 <= j < 32
      ensures RootAt(l', g', j)
    {
      assert RootAt(l, g, j);
      ParentOf(l, g, t);
      ClearSpec(l.treemap, i, j);
    }
  }

  /** The shape in which the chunk r of size rs has taken the place of the node of size s. */
  ghost function Replaced(g: Shape, s: nat, r: Addr, rs: nat): Shape
    requires s in g.und && s in g.up
  {
    Shape(g.sz[r := rs],
          (g.head - {s})[rs := r],
          g.ring,
          (g.und - {s})[rs := g.und[s]],
          map t | t in (g.up.Keys - {s}) + {rs} ::
            if t == rs then g.up[s] else if g.up[t] == s then rs else g.up[t])
  }

  /** What the trie sees when r is linked in where x was. */
  ghost predicate Relinked(l: Links, l': Links, x: Addr, r: Addr, root: bool, i: nat, p: Addr)
    requires i < 32 && |l.root| == 32
  {
    && l'.root == (if root then l.root[i := r] else l.root)
    && l'.treemap == l.treemap
    && (forall a, k {:trigger l'.Child(a, k)} | 0 <= k <= 1 ::
          l'.Child(a, k) ==
            if a == r then l.Child(x, k)
            else if !root && a == p && l.Child(a, k) == x then r
            else l.Child(a, k))
    && (forall a {:trigger Get(l'.parent, a)} ::
          Get(l'.parent, a) ==
            if a == r then p
            else if a != 0 && (a == l.Child(x, 0) || a == l.Child(x, 1)) then r
            else Get(l.parent, a))
  }

  ghost predicate CanReplace(l: Links, g: Shape, s: nat, r: Addr, rs: nat) {
    && TrieOK(l, g) && s in g.head
    && r > 0 && (forall z | z in g.head :: g.head[z] != r) && (r in g.sz ==> g.sz[r] == rs)
    && MIN_LARGE_SIZE <= rs < WORD
    && (rs == s || rs !in g.head)
    && TreeIndex(rs) == TreeIndex(s) < 32
    && Shr(rs, g.und[s]) == Shr(s, g.und[s])
  }

  lemma ReplaceNode(l: Links, l': Links, g: Shape, s: nat, r: Addr, rs: nat)
    requires CanReplace(l, g, s, r, rs)
    requires Relinked(l, l', g.head[s], r, IsRoot(g, s), TreeIndex(s), Get(l.parent, g.head[s]))
    ensures Nodes(Replaced(g, s, r, rs)) && |l'.root| == 32
    ensures NodeUp(l', Replaced(g, s, r, rs), rs)
  {
    hide TreeIndex, Shr, Marked, Get, Links.Child;
    assert NodeUp(l, g, s);
    if !IsRoot(g, s) {
      ShrEqualAbove(rs, s, g.und[s], g.und[s] + 1);
    }
  }

  lemma ReplaceUp(l: Links, l': Links, g: Shape, s: nat, r: Addr, rs: nat, z: nat)
    requires CanReplace(l, g, s, r, rs)
    requires Relinked(l, l', g.head[s], r, IsRoot(g, s), TreeIndex(s), Get(l.parent, g.head[s]))
    requires z in g.head && z != s && Nodes(Replaced(g, s, r, rs)) && |l'.root| == 32
    ensures NodeUp(l', Replaced(g, s, r, rs), z)
  {
    hide TreeIndex, Shr, Marked, Get, Links.Child;
    assert NodeUp(l, g, z) && NodeUp(l, g, s);
    var g' := Replaced(g, s, r, rs);
    assert g.head[z] != g.head[s];
    if IsRoot(g, z) || g.up[z] != s {
      NotChildOf(l, g, s, z);
    }
  }

  /** Only its own children point up to a node. */
  lemma NotChildOf(l: Links, g: Shape, s: nat, z: nat)
    requires TrieOK(l, g) && s in g.head && z in g.head && !(!IsRoot(g, z) && g.up[z] == s)
    ensures l.Child(g.head[s], 0) != g.head[z] && l.Child(g.head[s], 1) != g.head[z]
  {
    hide TreeIndex, Shr, Marked, Get, Links.Child;
    assert NodeDown(l, g, s, 0) && NodeDown(l, g, s, 1);
    assert NodeUp(l, g, s);
  }

  lemma ReplaceDown(l: Links, l': Links, g: Shape, s: nat, r: Addr, rs: nat, z: nat, k: nat)
    requires CanReplace(l, g, s, r, rs)
    requires Relinked(l, l', g.head[s], r, IsRoot(g, s), TreeIndex(s), Get(l.parent, g.head[s]))
    requires (z == rs || (z in g.head && z != s)) && k <= 1 && Nodes(Replaced(g, s, r, rs))
    ensures NodeDown(l', Replaced(g, s, r, rs), z, k)
  {
    hide TreeIndex, Shr, Marked, Get, Links.Child;
    var g' := Replaced(g, s, r, rs);
    assert NodeUp(l, g, s);
    if z == rs {
      assert NodeDown(l, g, s, k);
    } else {
      assert NodeDown(l, g, z, k) && NodeUp(l, g, z);
      assert g.head[z] != r;
    }
  }

  /** A node may be replaced by any chunk whose size agrees with its position. */
  lemma ReplaceOK(l: Links, l': Links, g: Shape, s: nat, r: Addr, rs: nat)
    requires CanReplace(l, g, s, r, rs)
    requires Relinked(l, l', g.head[s], r, IsRoot(g, s), TreeIndex(s), Get(l.parent, g.head[s]))
    ensures TrieOK(l', Replaced(g, s, r, rs))
  {
    hide TreeIndex, Shr, Marked, Get, Links.Child, NodeUp, NodeDown;
    var g' := Replaced(g, s, r, rs);
    ReplaceNode(l, l', g, s, r, rs);
    forall z | z in g'.head
      ensures NodeUp(l', g', z)
    {
      if z != rs { ReplaceUp(l, l', g, s, r, rs, z); }
    }
    forall z, k | z in g'.head && 0 <= k <= 1
      ensures NodeDown(l', g', z, k)
    {
      ReplaceDown(l, l', g, s, r, rs, z, k);
    }
    forall j | 0 <= j < 32
      ensures RootAt(l', g', j)
    {
      assert RootAt(l, g, j);
      ParentOf(l, g, s);
    }
  }

  /** A child of a node of a subtrie is in that subtrie. */
  lemma SubStep(l: Links, g: Shape, s: nat, t: nat, k: nat)
    requires TrieOK(l, g) && s in g.head && t in g.head && Sub(g, s, t) && k <= 1
    requires l.Child(g.head[t], k) != 0
    ensures var c := l.Child(g.head[t], k);
      && c in g.sz && g.sz[c] in g.head && g.head[g.sz[c]] == c
      && Sub(g, s, g.sz[c])
      && g.und[g.sz[c]] < g.und[t]
      && !IsRoot(g, g.sz[c]) && g.up[g.sz[c]] == t && BitAt(g.sz[c], g.und[g.sz[c]]) == k
  {
    hide TreeIndex, Shr, Marked, Get, Links.Child;
    assert NodeDown(l, g, t, k);
    var cs := g.sz[l.Child(g.head[t], k)];
    assert NodeUp(l, g, t) && NodeUp(l, g, cs);
    ShrEqualAbove(t, cs, g.und[t], g.und[s]);
  }

  /** The rings of the sizes other than s, and their chunks, when only s's ring and trie links change. */
  ghost predicate OtherRings(l: Links, l': Links, g: Shape, g': Shape, s: nat) {
    && (forall a {:trigger Get(l'.index, a)} :: Get(l'.index, a) == Get(l.index, a))
    && (forall a | a in g.sz && g.sz[a] != s ::
          && Get(l'.fd, a) == Get(l.fd, a) && Get(l'.bk, a) == Get(l.bk, a)
          && (g.sz[a] in g.head && g.head[g.sz[a]] != a ==> SameLinks(l, l', a)))
    && (forall z | z in g.head && z != s ::
          z in g'.head && g'.head[z] == g.head[z] && z in g.ring && z in g'.ring && g'.ring[z] == g.ring[z])
    && (forall a | a in g.sz && g.sz[a] != s :: a in g'.sz && g'.sz[a] == g.sz[a])
  }

  lemma OtherRingAt(l: Links, l': Links, g: Shape, g': Shape, s: nat, z: nat)
    requires RingsOK(l, g) && OtherRings(l, l', g, g', s)
    requires z in g.head && z != s
    ensures RingAt(l', g', z)
  {
    hide RingOK, SameLinks, Get;
    assert RingAt(l, g, z);
    var r := g.ring[z];
    forall j | 1 <= j < |r|
      ensures SameLinks(l, l', r[j])
    {
      assert r[0] != r[j];
    }
    RingKept(l, l', r);
  }

  lemma OtherChunkAt(l: Links, l': Links, g: Shape, g': Shape, s: nat, a: Addr)
    requires RingsOK(l, g) && OtherRings(l, l', g, g', s)
    requires a in g.sz && g.sz[a] != s
    ensures ChunkAt(l', g', a)
  {
    hide TreeIndex;
    assert ChunkAt(l, g, a);
  }

  /** Step 1 of unlinking: a chained chunk that is not the node leaves its ring. */
  lemma UnlinkChainedOK(l: Links, l': Links, g: Shape, x: Addr, s: nat, j: nat)
    requires TreeOK(l, g) && s in g.head && RingAt(l, g, s) && 1 <= j < |g.ring[s]| && g.ring[s][j] == x
    requires var f, b := Get(l.fd, x), Get(l.bk, x);
      l' == l.(bk := l.bk[f := b], fd := l.fd[b := f])
    ensures TreeOK(l', g.(sz := g.sz - {x}, ring := g.ring[s := Without(g.ring[s], j)]))
  {
    hide TreeIndex, Shr, Marked, Ring, OffTrie, Get, Links.Child, NodeUp, NodeDown, RootAt, Without;
    var r, r' := g.ring[s], Without(g.ring[s], j);
    var g' := g.(sz := g.sz - {x}, ring := g.ring[s := r']);
    assert r[0] != x;
    TrieFrame(l, l', g, g') by { assert forall a, k :: l'.Child(a, k) == l.Child(a, k) by { SameChildren(l, l'); } }
    WithoutMembers(r, j);
    assert r'[0] == r[0];
    assert g.head == g.head[s := r'[0]];
    SameChildren(l, l');
    RingRemoved(l, l', g, g', x, s, j);
  }

  lemma SameChildren(l: Links, l': Links)
    requires l'.child0 == l.child0 && l'.child1 == l.child1
    ensures forall a, k :: l'.Child(a, k) == l.Child(a, k)
  {
  }

  /** The rings after chunk x, element j of the ring of size s, has left it. */
  lemma RingRemoved(l: Links, l': Links, g: Shape, g': Shape, x: Addr, s: nat, j: nat)
    requires Nodes(g) && RingsOK(l, g) && s in g.head && RingAt(l, g, s) && |g.ring[s]| >= 2
    requires j < |g.ring[s]| && g.ring[s][j] == x
    requires var f, b := Get(l.fd, x), Get(l.bk, x);
      l'.bk == l.bk[f := b] && l'.fd == l.fd[b := f] && l'.index == l.index
    requires var r' := Without(g.ring[s], j);
      && |r'| == |g.ring[s]| - 1
      && g'.sz == g.sz - {x} && g'.ring == g.ring[s := r'] && g'.head == g.head[s := r'[0]]
    requires forall a | a in g.sz && g.sz[a] in g.head && g.head[g.sz[a]] != a && a != g'.head[s] ::
      Get(l'.parent, a) == Get(l.parent, a) && l'.Child(a, 0) == l.Child(a, 0) && l'.Child(a, 1) == l.Child(a, 1)
    ensures RingsOK(l', g')
  {
    hide TreeIndex, Links.Child, Without, Ring, OffTrie, Get, OtherRings;
    RingRemovedOthers(l, l', g, g', x, s, j);
    RingRemovedSelf(l, l', g, g', x, s, j);
    forall z | z in g'.head
      ensures RingAt(l', g', z)
    {
      if z != s { OtherRingAt(l, l', g, g', s, z); }
    }
    forall a | a in g'.sz
      ensures ChunkAt(l', g', a)
    {
      if g.sz[a] != s { OtherChunkAt(l, l', g, g', s, a); } else { assert ChunkAt(l, g, a); }
    }
  }

  lemma RingRemovedOthers(l: Links, l': Links, g: Shape, g': Shape, x: Addr, s: nat, j: nat)
    requires Nodes(g) && RingsOK(l, g) && s in g.head && RingAt(l, g, s) && |g.ring[s]| >= 2
    requires j < |g.ring[s]| && g.ring[s][j] == x
    requires var f, b := Get(l.fd, x), Get(l.bk, x);
      l'.bk == l.bk[f := b] && l'.fd == l.fd[b := f] && l'.index == l.index
    requires var r' := Without(g.ring[s], j);
      && |r'| == |g.ring[s]| - 1
      && g'.sz == g.sz - {x} && g'.ring == g.ring[s := r'] && g'.head == g.head[s := r'[0]]
    requires forall a | a in g.sz && g.sz[a] in g.head && g.head[g.sz[a]] != a && a != g'.head[s] ::
      Get(l'.parent, a) == Get(l.parent, a) && l'.Child(a, 0) == l.Child(a, 0) && l'.Child(a, 1) == l.Child(a, 1)
    ensures OtherRings(l, l', g, g', s)
  {
    hide TreeIndex, Links.Child, Without, Ring, OffTrie;
    WithoutMembers(g.ring[s], j);
    NextInRing(l, g, s, j);
    RingsPresent(l, g);
  }

  lemma RingRemovedSelf(l: Links, l': Links, g: Shape, g': Shape, x: Addr, s: nat, j: nat)
    requires Nodes(g) && RingsOK(l, g) && s in g.head && RingAt(l, g, s) && |g.ring[s]| >= 2
    requires j < |g.ring[s]| && g.ring[s][j] == x
    requires var f, b := Get(l.fd, x), Get(l.bk, x);
      l'.bk == l.bk[f := b] && l'.fd == l.fd[b := f] && l'.index == l.index
    requires var r' := Without(g.ring[s], j);
      && |r'| == |g.ring[s]| - 1
      && g'.sz == g.sz - {x} && g'.ring == g.ring[s := r'] && g'.head == g.head[s := r'[0]]
    requires forall a | a in g.sz && g.sz[a] in g.head && g.head[g.sz[a]] != a && a != g'.head[s] ::
      Get(l'.parent, a) == Get(l.parent, a) && l'.Child(a, 0) == l.Child(a, 0) && l'.Child(a, 1) == l.Child(a, 1)
    ensures RingAt(l', g', s)
    ensures forall a | a in g.ring[s] && a != x :: a in g'.ring[s]
  {
    hide TreeIndex, Links.Child, Without, Ring, Get;
    WithoutMembers(g.ring[s], j);
    RingTail(l, l', g, g', s, j);
    RemoveOK(l.fd, l.bk, g.ring[s], j);
  }

  lemma RingsPresent(l: Links, g: Shape)
    requires RingsOK(l, g)
    ensures forall z | z in g.head :: z in g.ring
  {
    forall z | z in g.head
      ensures z in g.ring
    {
      assert RingAt(l, g, z);
    }
  }

  lemma RingTail(l: Links, l': Links, g: Shape, g': Shape, s: nat, j: nat)
    requires Nodes(g) && s in g.head && RingAt(l, g, s) && |g.ring[s]| >= 2 && j < |g.ring[s]|
    requires |Without(g.ring[s], j)| == |g.ring[s]| - 1
    requires s in g'.head && g'.head[s] == Without(g.ring[s], j)[0]
    requires forall a | a in g.sz && g.sz[a] in g.head && g.head[g.sz[a]] != a && a != g'.head[s] ::
      Get(l'.parent, a) == Get(l.parent, a) && l'.Child(a, 0) == l.Child(a, 0) && l'.Child(a, 1) == l.Child(a, 1)
    ensures forall i | 0 < i < |g.ring[s]| - 1 ::
      var a := g.ring[s][Source(|g.ring[s]|, j, i)];
      Get(l'.parent, a) == Get(l.parent, a) && l'.Child(a, 0) == l.Child(a, 0) && l'.Child(a, 1) == l.Child(a, 1)
  {
    hide Links.Child, Without, Ring, OffTrie, Get;
    var r := g.ring[s];
    WithoutMembers(r, j);
    forall i | 0 < i < |r| - 1
      ensures var a := r[Source(|r|, j, i)];
        Get(l'.parent, a) == Get(l.parent, a) && l'.Child(a, 0) == l.Child(a, 0) && l'.Child(a, 1) == l.Child(a, 1)
    {
      SourceNeighbours(|r|, j, i);
      var i0 := Source(|r|, j, i);
      assert r[0] != r[i0];
      assert Without(r, j)[0] != Without(r, j)[i];
    }
  }

  /** Relinking touches only trie nodes and r. */
  lemma RelinkTouchesHeads(l: Links, l': Links, g: Shape, s: nat, r: Addr, a: Addr)
    requires TrieOK(l, g) && s in g.head && TreeIndex(s) < 32
    requires Relinked(l, l', g.head[s], r, IsRoot(g, s), TreeIndex(s), Get(l.parent, g.head[s]))
    requires a in g.sz && g.sz[a] in g.head && g.head[g.sz[a]] != a && a != r
    ensures Get(l'.parent, a) == Get(l.parent, a) && l'.Child(a, 0) == l.Child(a, 0) && l'.Child(a, 1) == l.Child(a, 1)
  {
    hide TreeIndex, Shr, Marked, Get, Links.Child;
    ChildOf(l, g, s, 0);
    ChildOf(l, g, s, 1);
    assert NodeUp(l, g, s);
  }

  /** Step 3 for a chained node: the ring's previous chunk takes the node's place. */
  ghost function TakeoverShape(g: Shape, s: nat): Shape
    requires s in g.ring && |g.ring[s]| >= 2 && s in g.und && s in g.up && s in g.head
  {
    var r := g.ring[s][|g.ring[s]| - 1];
    Replaced(g, s, r, s).(sz := g.sz - {g.head[s]}, ring := g.ring[s := Without(g.ring[s], 0)])
  }

  lemma TakeoverOK(l: Links, l1: Links, l': Links, g: Shape, s: nat)
    requires TreeOK(l, g) && s in g.head && RingAt(l, g, s) && |g.ring[s]| >= 2 && TreeIndex(s) < 32
    requires var x := g.head[s]; var f, b := Get(l.fd, x), Get(l.bk, x);
      && l1 == l.(bk := l.bk[f := b], fd := l.fd[b := f])
      && l'.fd == l1.fd && l'.bk == l1.bk && l'.index == l.index
      && Relinked(l1, l', x, b, IsRoot(g, s), TreeIndex(s), Get(l.parent, x))
    ensures TreeOK(l', TakeoverShape(g, s))
  {
    hide TreeIndex, Shr, Marked, Ring, OffTrie, Get, Links.Child, NodeUp, NodeDown, RootAt, Without, Relinked, CanReplace;
    var ring := g.ring[s];
    var x, r := g.head[s], ring[|ring| - 1];
    assert Get(l.bk, x) == r by { LinkedAt(l.fd, l.bk, ring, 0); }
    SameChildren(l, l1);
    TrieFrame(l, l1, g, g);
    assert CanReplace(l1, g, s, r, s) by { TailCanReplace(l, l1, g, s, r); }
    ReplaceOK(l1, l', g, s, r, s);
    WithoutMembers(ring, 0);
    var g' := TakeoverShape(g, s);
    assert g'.head == g.head[s := r];
    TrieFrame(l', l', Replaced(g, s, r, s), g');
    forall a | a in g.sz && g.sz[a] in g.head && g.head[g.sz[a]] != a && a != r
      ensures Get(l'.parent, a) == Get(l.parent, a) && l'.Child(a, 0) == l.Child(a, 0) && l'.Child(a, 1) == l.Child(a, 1)
    {
      RelinkTouchesHeads(l1, l', g, s, r, a);
    }
    RingRemoved(l, l', g, g', x, s, 0);
  }

  lemma TailCanReplace(l: Links, l1: Links, g: Shape, s: nat, r: Addr)
    requires TrieOK(l1, g) && s in g.head && RingAt(l, g, s) && |g.ring[s]| >= 2 && TreeIndex(s) < 32
    requires r == g.ring[s][|g.ring[s]| - 1]
    ensures CanReplace(l1, g, s, r, s)
  {
    hide TreeIndex, Shr, RingOK, NodeUp, NodeDown, RootAt;
    assert g.ring[s][0] != r;
  }

  /** The last chunk of its size, and a leaf: its node disappears. */
  lemma UnlinkLeafOK(l: Links, l': Links, g: Shape, s: nat)
    requires TreeOK(l, g) && s in g.head && RingAt(l, g, s) && |g.ring[s]| == 1 && IsLeaf(l, g, s)
    requires TreeIndex(s) < 32 && (!IsRoot(g, s) ==> g.up[s] in g.head)
    requires LeafCut(l, l', IsRoot(g, s), TreeIndex(s), if IsRoot(g, s) then 0 else g.head[g.up[s]], BitAt(s, g.und[s]))
    requires l'.fd == l.fd && l'.bk == l.bk && l'.index == l.index
    ensures TreeOK(l', DropNode(g, s).(sz := g.sz - {g.head[s]}))
  {
    hide TreeIndex, Shr, Marked, Ring, OffTrie, Get, Links.Child, NodeUp, NodeDown, RootAt, IsLeaf;
    var g' := DropNode(g, s).(sz := g.sz - {g.head[s]});
    CutOK(l, l', g, s);
    TrieFrame(l', l', DropNode(g, s), g');
    RingsPresent(l, g);
    assert OtherRings(l, l', g, g', s) by {
      forall a | a in g.sz && g.sz[a] != s && g.sz[a] in g.head && g.head[g.sz[a]] != a
        ensures SameLinks(l, l', a)
      {
      }
    }
    DropRings(l, l', g, g', s);
  }

  lemma DropRings(l: Links, l': Links, g: Shape, g': Shape, s: nat)
    requires RingsOK(l, g) && OtherRings(l, l', g, g', s)
    requires s in g.head && RingAt(l, g, s) && |g.ring[s]| == 1
    requires g'.head.Keys == g.head.Keys - {s} && g'.sz == g.sz - {g.head[s]}
    ensures RingsOK(l', g')
  {
    hide RingOK, OtherRings, TreeIndex;
    forall z | z in g'.head
      ensures RingAt(l', g', z)
    {
      OtherRingAt(l, l', g, g', s, z);
    }
    forall a | a in g'.sz
      ensures ChunkAt(l', g', a)
    {
      assert ChunkAt(l, g, a);
      OtherChunkAt(l, l', g, g', s, a);
    }
  }

  /** The shape after the leaf node of size rs has moved to the place of the node of size s. */
  ghost function MovedShape(g: Shape, s: nat, rs: nat): Shape
    requires s in g.head && rs in g.head && s != rs && Nodes(g)
  {
    Replaced(DropNode(g, rs), s, g.head[rs], rs).(sz := g.sz - {g.head[s]}, ring := g.ring - {s})
  }

  /** The last chunk of its size, with children: a leaf below it takes its place. */
  lemma MoveLeafOK(l: Links, l1: Links, l': Links, g: Shape, s: nat, rs: nat)
    requires TreeOK(l, g) && s in g.head && RingAt(l, g, s) && |g.ring[s]| == 1 && TreeIndex(s) < 32
    requires rs in g.head && rs != s && Sub(g, s, rs) && IsLeaf(l, g, rs)
    requires !IsRoot(g, rs) && g.up[rs] in g.head
    requires LeafCut(l, l1, false, TreeIndex(s), g.head[g.up[rs]], BitAt(rs, g.und[rs]))
    requires Relinked(l1, l', g.head[s], g.head[rs], IsRoot(g, s), TreeIndex(s), Get(l.parent, g.head[s]))
    requires l'.fd == l.fd && l'.bk == l.bk && l'.index == l.index
    ensures TreeOK(l', MovedShape(g, s, rs))
  {
    hide TreeIndex, Shr, Marked, Ring, OffTrie, Get, Links.Child, NodeUp, NodeDown, RootAt, IsLeaf, Relinked, SameLinks, OtherRings;
    var g1, g' := DropNode(g, rs), MovedShape(g, s, rs);
    CutOK(l, l1, g, rs);
    MoveLeafTrie(l1, l', g, s, rs);
    forall a | a in g.sz && g.sz[a] != s && g.sz[a] in g.head && g.head[g.sz[a]] != a
      ensures SameLinks(l, l', a)
    {
      MoveTouchesHeads(l, l1, l', g, s, rs, a);
    }
    MovedOthers(l, l', g, s, rs);
    DropRings(l, l', g, g', s);
  }

  lemma MovedOthers(l: Links, l': Links, g: Shape, s: nat, rs: nat)
    requires Nodes(g) && RingsOK(l, g) && s in g.head && rs in g.head && rs != s
    requires l'.fd == l.fd && l'.bk == l.bk && l'.index == l.index
    requires forall a | a in g.sz && g.sz[a] != s && g.sz[a] in g.head && g.head[g.sz[a]] != a :: SameLinks(l, l', a)
    ensures OtherRings(l, l', g, MovedShape(g, s, rs), s)
  {
    hide TreeIndex, SameLinks, Get;
    RingsPresent(l, g);
  }

  lemma MoveLeafTrie(l1: Links, l': Links, g: Shape, s: nat, rs: nat)
    requires Nodes(g) && s in g.head && rs in g.head && rs != s && Sub(g, s, rs) && TreeIndex(s) < 32
    requires TrieOK(l1, DropNode(g, rs))
    requires Relinked(l1, l', g.head[s], g.head[rs], IsRoot(g, s), TreeIndex(s), Get(l1.parent, g.head[s]))
    ensures TrieOK(l', MovedShape(g, s, rs))
  {
    hide TreeIndex, Shr, Marked, Get, Links.Child, NodeUp, NodeDown, RootAt, Relinked;
    var g1, r := DropNode(g, rs), g.head[rs];
    ReplaceOK(l1, l', g1, s, r, rs);
    TrieFrame(l', l', Replaced(g1, s, r, rs), MovedShape(g, s, rs));
  }

  lemma MoveTouchesHeads(l: Links, l1: Links, l': Links, g: Shape, s: nat, rs: nat, a: Addr)
    requires TrieOK(l, g) && s in g.head && rs in g.head && rs != s && TreeIndex(s) < 32
    requires g.up[rs] in g.head
    requires LeafCut(l, l1, false, TreeIndex(s), g.head[g.up[rs]], BitAt(rs, g.und[rs]))
    requires TrieOK(l1, DropNode(g, rs))
    requires Relinked(l1, l', g.head[s], g.head[rs], IsRoot(g, s), TreeIndex(s), Get(l.parent, g.head[s]))
    requires l'.fd == l.fd && l'.bk == l.bk
    requires a in g.sz && g.sz[a] in g.head && g.head[g.sz[a]] != a
    ensures SameLinks(l, l', a)
  {
    hide TreeIndex, Shr, Marked, Get, Links.Child, NodeUp, NodeDown, RootAt;
    var g1 := DropNode(g, rs);
    ChildOf(l1, g1, s, 0);
    ChildOf(l1, g1, s, 1);
    NodeParent(l1, g1, s);
  }

  lemma NodeParent(l: Links, g: Shape, s: nat)
    requires TrieOK(l, g) && s in g.head
    ensures !IsRoot(g, s) ==> g.up[s] in g.head && Get(l.parent, g.head[s]) == g.head[g.up[s]]
    ensures IsRoot(g, s) ==> Get(l.parent, g.head[s]) < 0
  {
    hide TreeIndex, Shr, Marked, Get, Links.Child;
    assert NodeUp(l, g, s);
  }

  /** r is a trie node strictly below the node of size s, hanging at child rk of rp. */
  ghost predicate Below(g: Shape, s: nat, r: Addr, rp: Addr, rk: nat) {
    && Nodes(g) && s in g.head
    && r in g.sz && g.sz[r] in g.head && g.head[g.sz[r]] == r
    && g.sz[r] != s && Sub(g, s, g.sz[r])
    && !IsRoot(g, g.sz[r])
    && g.up[g.sz[r]] in g.head && g.head[g.up[g.sz[r]]] == rp
    && BitAt(g.sz[r], g.und[g.sz[r]]) == rk
  }

  lemma FirstBelow(l: Links, g: Shape, s: nat, k: nat)
    requires TreeOK(l, g) && s in g.head && k <= 1 && l.Child(g.head[s], k) != 0
    ensures Below(g, s, l.Child(g.head[s], k), g.head[s], k)
  {
    hide RingsOK, TreeIndex, Shr, Links.Child;
    SubStep(l, g, s, s, k);
  }

  lemma NextBelow(l: Links, g: Shape, s: nat, r: Addr, rp: Addr, rk: nat, k: nat)
    requires TreeOK(l, g) && Below(g, s, r, rp, rk) && k <= 1 && l.Child(r, k) != 0
    ensures Below(g, s, l.Child(r, k), r, k)
    ensures g.und[g.sz[l.Child(r, k)]] < g.und[g.sz[r]]
  {
    hide RingsOK, TreeIndex, Shr, Links.Child;
    SubStep(l, g, s, g.sz[r], k);
  }

  lemma LoneNode(l: Links, g: Shape, x: Addr, s: nat, j: nat)
    requires TreeOK(l, g) && s in g.head && RingAt(l, g, s) && j < |g.ring[s]| && g.ring[s][j] == x
    requires Get(l.bk, x) == x
    ensures |g.ring[s]| == 1 && g.head[s] == x
  {
    LinkedAt(l.fd, l.bk, g.ring[s], j);
  }

  /** How the node of size s is found from its own fields. */
  lemma NodeFields(l: Links, g: Shape, s: nat)
    requires TreeOK(l, g) && s in g.head
    ensures Nodes(g) && TreeIndex(s) < 32 && Get(l.index, g.head[s]) == TreeIndex(s) && |l.root| == 32
    ensures IsRoot(g, s) <==> l.root[TreeIndex(s)] == g.head[s]
    ensures Get(l.parent, g.head[s]) != 0 && Get(l.parent, g.head[s]) != g.head[s]
    ensures !IsRoot(g, s) ==>
      && g.up[s] in g.head && Get(l.parent, g.head[s]) == g.head[g.up[s]] && g.und[g.up[s]] == g.und[s] + 1
      && (l.Child(g.head[g.up[s]], 0) == g.head[s] <==> BitAt(s, g.und[s]) == 0)
      && (l.Child(g.head[g.up[s]], 1) == g.head[s] <==> BitAt(s, g.und[s]) == 1)
    ensures IsRoot(g, s) ==> Get(l.parent, g.head[s]) < 0
  {
    hide TreeIndex, Shr, Marked, Get, Links.Child;
    assert NodeUp(l, g, s);
    assert ChunkAt(l, g, g.head[s]);
    assert RootAt(l, g, TreeIndex(s));
    if !IsRoot(g, s) {
      assert NodeDown(l, g, g.up[s], 0) && NodeDown(l, g, g.up[s], 1);
    }
  }

  lemma OffTheTrie(l: Links, g: Shape, x: Addr, s: nat, j: nat)
    requires TreeOK(l, g) && s in g.head && RingAt(l, g, s) && j < |g.ring[s]| && g.ring[s][j] == x
    ensures Get(l.parent, x) == 0 <==> j > 0
    ensures j > 0 ==> l.Child(x, 0) == 0 && l.Child(x, 1) == 0
  {
    hide TreeIndex, Shr, Marked, Get, Links.Child, TrieOK, RingsOK;
    NodeFields(l, g, s);
    assert j > 0 ==> OffTrie(l, g.ring[s][j]);
  }

  lemma TakeoverReady(l: Links, l1: Links, g: Shape, x: Addr, s: nat, j: nat)
    requires TreeOK(l, g) && s in g.head && RingAt(l, g, s) && j < |g.ring[s]| && g.ring[s][j] == x
    requires Get(l.parent, x) != 0 && Get(l.bk, x) != x
    requires l1 == l.(fd := l1.fd, bk := l1.bk)
    ensures Ready(l1, x, Get(l.bk, x)) && Get(l.bk, x) != 0
    ensures Nodes(g) && g.head[s] == x && |g.ring[s]| >= 2 && TreeIndex(s) < 32 && Get(l.index, x) == TreeIndex(s)
    ensures |l.root| == 32 && (x == l.root[TreeIndex(s)] <==> IsRoot(g, s))
  {
    hide TreeIndex, Shr, Marked, Get, Links.Child, TrieOK, RingsOK, Ring, OffTrie;
    OffTheTrie(l, g, x, s, j);
    LinkedAt(l.fd, l.bk, g.ring[s], 0);
    var n := |g.ring[s]|;
    assert n >= 2;
    OffTheTrie(l, g, g.ring[s][n - 1], s, n - 1);
    NodeFields(l, g, s);
    SameChildren(l, l1);
    NotHead(l, g, s, n - 1);
    ChildIsHead(l, g, s, 0);
    ChildIsHead(l, g, s, 1);
  }

  lemma NotHead(l: Links, g: Shape, s: nat, j: nat)
    requires Nodes(g) && s in g.head && RingAt(l, g, s) && 0 < j < |g.ring[s]|
    ensures forall z | z in g.head :: g.head[z] != g.ring[s][j]
  {
    assert g.ring[s][0] != g.ring[s][j];
  }

  lemma ChildIsHead(l: Links, g: Shape, s: nat, k: nat)
    requires TreeOK(l, g) && s in g.head && k <= 1
    ensures Nodes(g)
    ensures var c := l.Child(g.head[s], k);
      c != 0 ==>
        && c in g.sz && g.sz[c] in g.head && g.head[g.sz[c]] == c && g.up[g.sz[c]] == s
        && g.und[g.sz[c]] + 1 == g.und[s] && BitAt(g.sz[c], g.und[g.sz[c]]) == k
  {
    hide TreeIndex, Shr, Links.Child;
    ChildOf(l, g, s, k);
  }

  lemma LeafReady(l: Links, g: Shape, x: Addr, s: nat)
    requires TreeOK(l, g) && s in g.head && g.head[s] == x && IsLeaf(l, g, s) && x != 0
    ensures Ready(l, x, 0)
    ensures TreeIndex(s) < 32 && Get(l.index, x) == TreeIndex(s)
    ensures |l.root| == 32 && (x == l.root[TreeIndex(s)] <==> IsRoot(g, s))
    ensures !IsRoot(g, s) ==>
      && g.up[s] in g.head && Get(l.parent, x) == g.head[g.up[s]]
      && BitAt(s, g.und[s]) == (if l.Child(g.head[g.up[s]], 0) == x then 0 else 1)
  {
    hide TreeIndex, Shr, Marked, Get, Links.Child, TrieOK, RingsOK;
    NodeFields(l, g, s);
  }

  lemma MoveReady(l: Links, l1: Links, g: Shape, x: Addr, s: nat, r: Addr, rp: Addr, rk: nat)
    requires TreeOK(l, g) && s in g.head && g.head[s] == x && Below(g, s, r, rp, rk)
    requires IsLeaf(l, g, g.sz[r]) && l1 == l.SetChild(rp, rk, 0)
    ensures Ready(l1, x, r) && r != 0
    ensures TreeIndex(s) < 32 && Get(l1.index, x) == TreeIndex(s) && Get(l1.parent, x) == Get(l.parent, x)
    ensures |l1.root| == 32 && (x == l1.root[TreeIndex(s)] <==> IsRoot(g, s))
    ensures LeafCut(l, l1, false, TreeIndex(s), rp, rk)
  {
    hide TreeIndex, Shr, Marked, Get, Links.Child, Links.SetChild, TrieOK, RingsOK;
    var rs := g.sz[r];
    SetChildEffect(l, rp, rk, 0);
    NodeFields(l, g, s);
    StrictlyBelow(l, g, s, rs);
    ChildIsHead(l, g, s, 0);
    ChildIsHead(l, g, s, 1);
  }

  lemma StrictlyBelow(l: Links, g: Shape, s: nat, rs: nat)
    requires TreeOK(l, g) && s in g.head && rs in g.head && rs != s && Sub(g, s, rs) && !IsRoot(g, rs)
    ensures g.und[rs] < g.und[s]
    ensures g.up[rs] in g.head && g.und[g.up[rs]] == g.und[rs] + 1 && g.up[rs] != rs
  {
    hide RingsOK, TreeIndex, Shr;
    Descend(l, g, s, rs);
    ParentOf(l, g, rs);
  }

  // ---- best fit ----

  /** v is the trie node of its size, hence the first of its ring to be used. */
  ghost predicate IsOldest(g: Shape, v: Addr) {
    v in g.sz && g.sz[v] in g.head && g.head[g.sz[v]] == v
  }

  /** The best chunk seen so far, with its unsigned remainder. */
  ghost predicate Candidate(g: Shape, v: Addr, rsize: nat, nb: nat) {
    && (v == 0 ==> rsize == WORD - nb)
    && (v != 0 ==> IsOldest(g, v) && nb <= g.sz[v] && rsize == g.sz[v] - nb)
  }

  ghost predicate Covers(g: Shape, v: Addr, x: nat) {
    v != 0 && v in g.sz && g.sz[v] <= x
  }

  ghost predicate Exact(g: Shape, v: Addr, nb: nat) {
    v != 0 && v in g.sz && g.sz[v] == nb
  }

  /** One comparison of the search: after it, t is no better than the candidate. */
  lemma CandidateStep(g: Shape, t: Addr, v: Addr, rsize: nat, nb: nat)
    requires Nodes(g) && IsOldest(g, t) && t != 0 && Candidate(g, v, rsize, nb) && 0 < nb < WORD
    ensures var trem := (g.sz[t] - nb) % WORD;
      var v', r' := if trem < rsize then t else v, if trem < rsize then trem else rsize;
      && Candidate(g, v', r', nb)
      && (nb <= g.sz[t] ==> v' != 0 && g.sz[v'] <= g.sz[t])
      && (v != 0 ==> v' != 0 && g.sz[v'] <= g.sz[v])
  {
    var s := g.sz[t];
    assert MIN_LARGE_SIZE <= s < WORD;
    if s < nb {
      assert (s - nb) % WORD == s - nb + WORD;
    } else {
      assert (s - nb) % WORD == s - nb;
    }
  }

  /**
   Walking down the bits of nb in bin idx: every fitting size is covered by v, or
   in the subtrie of t, or not below the smallest of the subtrie of rst, the
   deepest right subtrie not taken.
   */
  ghost predicate Fork(g: Shape, t: Addr, rst: Addr, v: Addr, nb: nat, idx: nat) {
    && OnPath(g, t, nb, idx)
    && (v != 0 ==> IsOldest(g, v) && TreeIndex(g.sz[v]) == idx)
    && (rst != 0 ==> RightOf(g, t, rst, nb, idx))
    && forall x | x in g.head && TreeIndex(x) == idx && nb <= x ::
         Covers(g, v, x) || Sub(g, g.sz[t], x) || (rst != 0 && (Sub(g, g.sz[rst], x) || g.sz[rst] < x))
  }

  /** All of the subtrie of rst lies above nb and above the subtrie of t. */
  ghost predicate RightOf(g: Shape, t: Addr, rst: Addr, nb: nat, idx: nat)
    requires Nodes(g) && IsOldest(g, t)
  {
    && IsOldest(g, rst)
    && TreeIndex(g.sz[rst]) == idx
    && (forall x | x in g.head && Sub(g, g.sz[rst], x) :: nb < x)
    && (forall x, y | x in g.head && y in g.head && Sub(g, g.sz[rst], x) && Sub(g, g.sz[t], y) :: y < x)
  }

  /** Bin idx is settled: its fitting sizes are covered by v or await the scan of t. */
  ghost predicate BinDone(g: Shape, t: Addr, v: Addr, nb: nat, idx: nat) {
    && Nodes(g)
    && (v != 0 ==> IsOldest(g, v) && TreeIndex(g.sz[v]) == idx)
    && (t != 0 ==> IsOldest(g, t) && TreeIndex(g.sz[t]) == idx)
    && (t != 0 && !Exact(g, v, nb) ==> forall x | x in g.head && Sub(g, g.sz[t], x) :: nb <= x)
    && forall x | x in g.head && TreeIndex(x) == idx && nb <= x ::
         Covers(g, v, x) || (t != 0 && (Sub(g, g.sz[t], x) || g.sz[t] < x))
  }

  /** Every fitting size is covered by v or not below the smallest in the subtrie of t. */
  ghost predicate Scan(g: Shape, t: Addr, v: Addr, nb: nat) {
    && Nodes(g)
    && (t != 0 ==> IsOldest(g, t))
    && (t != 0 && !Exact(g, v, nb) ==> forall x | x in g.head && Sub(g, g.sz[t], x) :: nb <= x)
    && forall x | x in g.head && nb <= x :: Covers(g, v, x) || (t != 0 && (Sub(g, g.sz[t], x) || g.sz[t] < x))
  }

  lemma ForkAtRoot(l: Links, g: Shape, nb: nat, idx: nat)
    requires TreeOK(l, g) && MIN_LARGE_SIZE <= nb < WORD && TreeIndex(nb) == idx < 32 && |l.root| == 32
    ensures 0 !in g.sz
    ensures l.root[idx] != 0 ==> Fork(g, l.root[idx], 0, 0, nb, idx)
    ensures l.root[idx] == 0 ==> BinDone(g, 0, 0, nb, idx)
  {
    hide TreeIndex, Shr, Links.Child, Sub;
    BinLookup(l, g, nb);
    assert 0 !in g.sz by { NullNotFree(l, g); }
    forall x | x in g.head && TreeIndex(x) == idx && nb <= x
      ensures l.root[idx] != 0 && Sub(g, g.sz[l.root[idx]], x)
    {
      UnderRoot(l, g, x);
    }
  }

  lemma NullNotFree(l: Links, g: Shape)
    requires TreeOK(l, g)
    ensures 0 !in g.sz
  {
    if 0 in g.sz {
      var j := PlaceOf(l, g, 0);
    }
  }

  /** The child of t on the path of nb, and the right child if it is another. */
  lemma ForkStep(l: Links, g: Shape, t: Addr, rst: Addr, v0: Addr, v: Addr, nb: nat, idx: nat)
    requires TreeOK(l, g) && Fork(g, t, rst, v0, nb, idx) && MIN_LARGE_SIZE <= nb < WORD && TreeIndex(nb) == idx
    requires g.sz[t] != nb && Improves(g, t, v0, v, nb)
    ensures g.und[g.sz[t]] > 0
    ensures var t' := l.Child(t, BitAt(nb, g.und[g.sz[t]] - 1)); var rt := l.Child(t, 1);
      var rst' := if rt != 0 && rt != t' then rt else rst;
      && (t' != 0 ==> Fork(g, t', rst', v, nb, idx) && g.und[g.sz[t']] + 1 == g.und[g.sz[t]])
      && (t' == 0 ==> BinDone(g, rst', v, nb, idx))
  {
    hide TreeIndex, Shr, Links.Child, Sub, RingsOK, TrieOK, RightOf, Covers, BitAt;
    StepDown(l, g, t, nb, idx);
    var t' := l.Child(t, BitAt(nb, g.und[g.sz[t]] - 1));
    var rt := l.Child(t, 1);
    var rst' := if rt != 0 && rt != t' then rt else rst;
    if rst' != 0 { ForkRight(l, g, t, rst, v0, nb, idx); }
    forall x | x in g.head && TreeIndex(x) == idx && nb <= x
      ensures Covers(g, v, x) || (t' != 0 && Sub(g, g.sz[t'], x)) || (rst' != 0 && (Sub(g, g.sz[rst'], x) || g.sz[rst'] < x))
    {
      ForkCovers(l, g, t, rst, v0, v, nb, idx, x);
    }
  }

  /** v is at least as good as v0, and as t if t fits. */
  ghost predicate Improves(g: Shape, t: Addr, v0: Addr, v: Addr, nb: nat) {
    && t in g.sz
    && (v == v0 || v == t)
    && (nb <= g.sz[t] ==> Covers(g, v, g.sz[t]))
    && (v0 != 0 && v0 in g.sz ==> Covers(g, v, g.sz[v0]))
  }

  /** Where the fitting sizes below t go when the path of nb is followed one step. */
  lemma ForkCovers(l: Links, g: Shape, t: Addr, rst: Addr, v0: Addr, v: Addr, nb: nat, idx: nat, x: nat)
    requires TreeOK(l, g) && Fork(g, t, rst, v0, nb, idx) && MIN_LARGE_SIZE <= nb < WORD && TreeIndex(nb) == idx
    requires g.sz[t] != nb && Improves(g, t, v0, v, nb) && g.und[g.sz[t]] > 0
    requires x in g.head && TreeIndex(x) == idx && nb <= x
    ensures var t' := l.Child(t, BitAt(nb, g.und[g.sz[t]] - 1)); var rt := l.Child(t, 1);
      var rst' := if rt != 0 && rt != t' then rt else rst;
      && (t' != 0 ==> t' in g.sz && g.sz[t'] in g.head) && (rst' != 0 ==> rst' in g.sz && g.sz[rst'] in g.head)
      && (Covers(g, v, x) || (t' != 0 && Sub(g, g.sz[t'], x)) || (rst' != 0 && (Sub(g, g.sz[rst'], x) || g.sz[rst'] < x)))
  {
    hide TreeIndex, Shr, Links.Child, RingsOK, TrieOK;
    var ts := g.sz[t];
    var u := g.und[ts] - 1;
    ChildIsHead(l, g, ts, 0);
    ChildIsHead(l, g, ts, 1);
    if Sub(g, ts, x) {
      if x != ts {
        Descend(l, g, ts, x);
        if BitAt(x, u) != BitAt(nb, u) && BitAt(nb, u) == 1 { BranchOrder(x, nb, u); }
      }
    } else if rst != 0 && l.Child(t, 1) != 0 {
      SubOfChild(l, g, ts, 1);
      assert Sub(g, g.sz[rst], g.sz[rst]);
    }
  }

  lemma SubOfChild(l: Links, g: Shape, s: nat, k: nat)
    requires TreeOK(l, g) && s in g.head && k <= 1 && l.Child(g.head[s], k) != 0
    ensures var c := l.Child(g.head[s], k); c in g.sz && g.sz[c] in g.head && Sub(g, s, g.sz[c])
    ensures forall x | x in g.head && Sub(g, g.sz[l.Child(g.head[s], k)], x) ::
      Sub(g, s, x) && g.und[s] > 0 && BitAt(x, g.und[s] - 1) == k
  {
    hide TreeIndex, Shr, Links.Child;
    SubStep(l, g, s, s, k);
    var cs := g.sz[l.Child(g.head[s], k)];
    ChildOf(l, g, s, k);
    forall x | x in g.head && Sub(g, cs, x)
      ensures Sub(g, s, x) && BitAt(x, g.und[s] - 1) == k
    {
      ShrEqualAbove(x, cs, g.und[cs], g.und[s]);
    }
  }

  lemma ForkRight(l: Links, g: Shape, t: Addr, rst: Addr, v0: Addr, nb: nat, idx: nat)
    requires TreeOK(l, g) && Fork(g, t, rst, v0, nb, idx) && nb < WORD && TreeIndex(nb) == idx
    requires g.und[g.sz[t]] > 0
    ensures var t' := l.Child(t, BitAt(nb, g.und[g.sz[t]] - 1)); var rt := l.Child(t, 1);
      var rst' := if rt != 0 && rt != t' then rt else rst;
      rst' != 0 ==>
        && IsOldest(g, rst') && TreeIndex(g.sz[rst']) == idx
        && (forall x | x in g.head && Sub(g, g.sz[rst'], x) :: nb < x)
        && (t' != 0 ==> IsOldest(g, t') && RightOf(g, t', rst', nb, idx))
  {
    hide TreeIndex, Shr, Links.Child, RingsOK, TrieOK;
    var ts := g.sz[t];
    var u := g.und[ts] - 1;
    var t' := l.Child(t, BitAt(nb, u));
    var rt := l.Child(t, 1);
    ChildIsHead(l, g, ts, 0);
    ChildIsHead(l, g, ts, 1);
    if t' != 0 { SubOfChild(l, g, ts, BitAt(nb, u)); }
    if rt != 0 && rt != t' {
      SubOfChild(l, g, ts, 1);
      forall x | x in g.head && Sub(g, g.sz[rt], x)
        ensures nb < x
      {
        BranchOrder(nb, x, u);
      }
      if t' != 0 {
        forall x, y | x in g.head && y in g.head && Sub(g, g.sz[rt], x) && Sub(g, g.sz[t'], y)
          ensures y < x
        {
          BranchOrder(y, x, u);
        }
      }
    }
  }

  lemma ExactIsDone(g: Shape, t: Addr, rst: Addr, v0: Addr, v: Addr, nb: nat, idx: nat)
    requires Fork(g, t, rst, v0, nb, idx) && IsOldest(g, v) && Exact(g, v, nb) && (v == v0 || v == t) && t != 0
    ensures BinDone(g, t, v, nb, idx)
  {
    hide TreeIndex, Shr, Sub;
  }

  /** Once bin idx has a candidate or a pending subtrie, larger bins cannot do better. */
  lemma BinIsEnough(l: Links, g: Shape, t: Addr, v: Addr, nb: nat, idx: nat)
    requires TreeOK(l, g) && BinDone(g, t, v, nb, idx) && (t != 0 || v != 0)
    requires MIN_LARGE_SIZE <= nb < WORD && TreeIndex(nb) == idx
    ensures Scan(g, t, v, nb)
  {
    hide TreeIndex, Shr, Sub, TrieOK, RingsOK;
    forall x | x in g.head && nb <= x
      ensures Covers(g, v, x) || (t != 0 && (Sub(g, g.sz[t], x) || g.sz[t] < x))
    {
      TreeIndexMonotone(nb, x);
      if TreeIndex(x) > idx {
        var y := if v != 0 then g.sz[v] else g.sz[t];
        if x <= y { TreeIndexMonotone(x, y); }
      }
    }
  }

  /** With nothing left in bin idx, the next marked bin holds the best fit, if any does. */
  lemma NextBin(l: Links, g: Shape, nb: nat, idx: nat)
    requires TreeOK(l, g) && BinDone(g, 0, 0, nb, idx)
    requires MIN_LARGE_SIZE <= nb < WORD && TreeIndex(nb) == idx < 32 && l.treemap < WORD && |l.root| == 32
    ensures Pow2(idx) < WORD
    ensures var left := BitwiseAnd(LeftBits(Pow2(idx)), l.treemap);
      && left < WORD
      && (left == 0 ==> Scan(g, 0, 0, nb))
      && (left != 0 ==>
            && 0 < LeastBit(left) && BitToIndex(LeastBit(left)) < 32
            && var t := l.root[BitToIndex(LeastBit(left))]; t != 0 && Scan(g, t, 0, nb))
  {
    hide TreeIndex, Shr, Sub, TrieOK, RingsOK, BitwiseAnd, LeftBits, LeastBit, BitToIndex, Marked;
    LeftMarks(l.treemap, idx);
    var left := BitwiseAnd(LeftBits(Pow2(idx)), l.treemap);
    if left == 0 {
      forall x | x in g.head && nb <= x
        ensures false
      {
        FittingBin(l, g, x, nb, idx);
      }
    } else {
      LeastMarked(left);
      var i := BitToIndex(LeastBit(left));
      FirstOfBin(l, g, i);
      var t := l.root[i];
      forall x | x in g.head && nb <= x
        ensures Sub(g, g.sz[t], x) || g.sz[t] < x
      {
        FittingBin(l, g, x, nb, idx);
        if TreeIndex(x) == i { UnderRoot(l, g, x); }
        else if x <= g.sz[t] { TreeIndexMonotone(x, g.sz[t]); }
      }
      forall x | x in g.head && Sub(g, g.sz[t], x)
        ensures nb <= x
      {
        SubBin(g, g.sz[t], x);
        if x < nb { TreeIndexMonotone(x, nb); }
      }
    }
  }

  lemma SubBin(g: Shape, t: nat, x: nat)
    requires Nodes(g) && t in g.head && x in g.head && Sub(g, t, x)
    ensures TreeIndex(x) == TreeIndex(t)
  {
    hide TreeIndex, Shr;
  }

  lemma FirstOfBin(l: Links, g: Shape, i: nat)
    requires TreeOK(l, g) && i < 32 && |l.root| == 32 && Marked(l.treemap, i)
    ensures l.root[i] != 0 && IsOldest(g, l.root[i]) && TreeIndex(g.sz[l.root[i]]) == i
  {
    hide TreeIndex, Shr, Marked;
    assert RootAt(l, g, i);
  }

  lemma FittingBin(l: Links, g: Shape, x: nat, nb: nat, idx: nat)
    requires TreeOK(l, g) && BinDone(g, 0, 0, nb, idx) && x in g.head && nb <= x && |l.root| == 32
    requires MIN_LARGE_SIZE <= nb < WORD && TreeIndex(nb) == idx < 32
    ensures idx < TreeIndex(x) < 32 && Marked(l.treemap, TreeIndex(x))
  {
    hide TreeIndex, Shr, Sub, Marked;
    TreeIndexMonotone(nb, x);
    UnderRoot(l, g, x);
    assert RootAt(l, g, TreeIndex(x));
  }

  /** The smallest of a subtrie is its root or on the leftmost path below it. */
  lemma ScanStep(l: Links, g: Shape, t: Addr, v0: Addr, v: Addr, nb: nat)
    requires TreeOK(l, g) && t != 0 && Scan(g, t, v0, nb) && Improves(g, t, v0, v, nb)
    requires v != 0 ==> v in g.sz && nb <= g.sz[v]
    ensures var t' := if l.Child(t, 0) != 0 then l.Child(t, 0) else l.Child(t, 1);
      && Scan(g, t', v, nb)
      && (t' != 0 ==> g.und[g.sz[t']] < g.und[g.sz[t]])
  {
    hide TreeIndex, Shr, Links.Child, RingsOK, TrieOK, Sub, BitAt;
    var ts := g.sz[t];
    var k := if l.Child(t, 0) != 0 then 0 else 1;
    var t' := l.Child(t, k);
    ChildIsHead(l, g, ts, 0);
    ChildIsHead(l, g, ts, 1);
    if t' != 0 { SubOfChild(l, g, ts, k); }
    forall x | x in g.head && nb <= x
      ensures Covers(g, v, x) || (t' != 0 && (Sub(g, g.sz[t'], x) || g.sz[t'] < x))
    {
      ScanCovers(l, g, t, v0, v, nb, x);
    }
  }

  lemma ScanCovers(l: Links, g: Shape, t: Addr, v0: Addr, v: Addr, nb: nat, x: nat)
    requires TreeOK(l, g) && t != 0 && Scan(g, t, v0, nb) && Improves(g, t, v0, v, nb)
    requires x in g.head && nb <= x
    ensures var t' := if l.Child(t, 0) != 0 then l.Child(t, 0) else l.Child(t, 1);
      && (t' != 0 ==> IsOldest(g, t'))
      && (Covers(g, v, x) || (t' != 0 && (Sub(g, g.sz[t'], x) || g.sz[t'] < x)))
  {
    hide TreeIndex, Shr, Links.Child, RingsOK, TrieOK;
    var ts := g.sz[t];
    ChildIsHead(l, g, ts, 0);
    ChildIsHead(l, g, ts, 1);
    assert Sub(g, ts, ts);
    if Sub(g, ts, x) && x != ts {
      Descend(l, g, ts, x);
      if l.Child(t, 0) != 0 && BitAt(x, g.und[ts] - 1) == 1 {
        SubOfChild(l, g, ts, 0);
        assert Sub(g, g.sz[l.Child(t, 0)], g.sz[l.Child(t, 0)]);
        BranchOrder(g.sz[l.Child(t, 0)], x, g.und[ts] - 1);
      }
    }
  }

  lemma ScanDone(l: Links, g: Shape, v: Addr, nb: nat)
    requires TreeOK(l, g) && Scan(g, 0, v, nb)
    ensures forall a | a in g.sz && nb <= g.sz[a] :: Covers(g, v, g.sz[a])
  {
    hide TreeIndex, Shr, TrieOK;
    forall a | a in g.sz && nb <= g.sz[a]
      ensures Covers(g, v, g.sz[a])
    {
      assert ChunkAt(l, g, a);
    }
  }

  lemma AllLarge(l: Links, g: Shape)
    requires TreeOK(l, g)
    ensures forall a | a in g.sz :: MIN_LARGE_SIZE <= g.sz[a] < WORD
  {
    hide TreeIndex, Shr;
    forall a | a in g.sz
      ensures MIN_LARGE_SIZE <= g.sz[a] < WORD
    {
      assert ChunkAt(l, g, a);
    }
  }

  /** The least marked bin holds the smallest tree chunk. */
  lemma LeastBin(l: Links, g: Shape, nb: nat)
    requires TreeOK(l, g) && 0 < nb < MIN_LARGE_SIZE && l.treemap != 0
    ensures 0 < l.treemap < WORD && |l.root| == 32 && 0 < LeastBit(l.treemap) && BitToIndex(LeastBit(l.treemap)) < 32
    ensures var t := l.root[BitToIndex(LeastBit(l.treemap))]; t != 0 && Scan(g, t, 0, nb)
  {
    hide TreeIndex, Shr, Sub, NodeUp, NodeDown, RootAt, RingsOK, LeastBit, BitToIndex, Marked;
    LeastMarked(l.treemap);
    var i := BitToIndex(LeastBit(l.treemap));
    FirstOfBin(l, g, i);
    var t := l.root[i];
    forall x | x in g.head && nb <= x
      ensures Sub(g, g.sz[t], x) || g.sz[t] < x
    {
      UnderRoot(l, g, x);
      BinMarked(l, g, TreeIndex(x));
      if TreeIndex(x) != i && x <= g.sz[t] { TreeIndexMonotone(x, g.sz[t]); }
    }
  }

  lemma BinMarked(l: Links, g: Shape, i: nat)
    requires TrieOK(l, g) && i < 32
    ensures Marked(l.treemap, i) <==> l.root[i] != 0
  {
    hide TreeIndex, Shr, Marked;
    assert RootAt(l, g, i);
  }
}
