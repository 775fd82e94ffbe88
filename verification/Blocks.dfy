/** Boundary tags: the block layout that segregate.c and implicit.c keep in memory.
    A block with payload pointer p and size n covers the bytes p-4 .. p+n-5, with a
    header word at p-4 and a footer word at p+n-8, both holding size|alloc. */
module Blocks {
  import opened Memory

  datatype Block = Block(size: nat, alloc: bool) {
    /** BLK_AVAL_SIZE / RB_AVL_SIZE */
    function Cap(): int { size - 8 }
  }

  /** The blocks of a heap, by payload pointer. */
  type Heap = map<nat, Block>

  // ---------------------------------------------------------------------------
  // Tag words
  // ---------------------------------------------------------------------------

  /** ALIGN: (size + 7) & ~7 */
  function Align(size: nat): nat { (size + 7) / 8 * 8 }

  /** PACK: size | alloc */
  function Pack(size: nat, alloc: bool): nat {
    if alloc && size % 2 == 0 then size + 1 else size
  }

  /** GET_SIZE: w & ~7 */
  function GetSize(w: nat): nat { w - w % 8 }

  /** GET_ALLOC: w & 1 */
  function GetAlloc(w: nat): bool { w % 2 == 1 }

  /** Bit i of w. */
  predicate Bit(w: nat, i: nat) {
    if i == 0 then w % 2 == 1 else Bit(w / 2, i - 1)
  }

  /** size | alloc sets bit 0 for an allocated block and leaves all other bits. */
  lemma PackBits(size: nat, alloc: bool, i: nat)
    ensures Bit(Pack(size, alloc), i) <==> Bit(size, i) || (i == 0 && alloc)
  {
    if i > 0 && size % 2 == 0 {
      assert (size + 1) / 2 == size / 2;
    }
  }

  /** w & ~0x7 clears bits 0 to 2 and leaves all other bits. */
  lemma SizeBits(w: nat, i: nat)
    ensures Bit(GetSize(w), i) <==> Bit(w, i) && i >= 3
  {
    var k := w / 8;
    assert GetSize(w) == 2 * (2 * (2 * k));
    TwiceBits(2 * (2 * k), i);
    if i > 0 { TwiceBits(2 * k, i - 1); }
    if i > 1 { TwiceBits(k, i - 2); }
    if i >= 3 {
      assert Bit(w, i) == Bit(w / 2, i - 1) == Bit(w / 2 / 2, i - 2) == Bit(w / 2 / 2 / 2, i - 3);
      assert w / 2 / 2 / 2 == k;
    }
  }

  lemma TwiceBits(k: nat, i: nat)
    ensures Bit(2 * k, i) <==> i > 0 && Bit(k, i - 1)
  {
    assert 2 * k / 2 == k;
  }

  /** w & 0x1 is bit 0. */
  lemma AllocBit(w: nat)
    ensures GetAlloc(w) <==> Bit(w, 0)
  {
  }

  /** (size + 7) & ~0x7 clears bits 0 to 2 of size + 7. */
  lemma AlignBits(size: nat, i: nat)
    ensures Bit(Align(size), i) <==> Bit(size + 7, i) && i >= 3
  {
    SizeBits(size + 7, i);
    assert Align(size) == GetSize(size + 7);
  }

  /** A word is determined by its bits. */
  lemma {:induction false} BitsDetermine(v: nat, w: nat)
    requires forall i: nat :: Bit(v, i) == Bit(w, i)
    ensures v == w
  {
    assert Bit(v, 0) == Bit(w, 0);
    if v > 0 || w > 0 {
      forall i: nat ensures Bit(v / 2, i) == Bit(w / 2, i) {
        assert Bit(v, i + 1) == Bit(w, i + 1);
      }
      BitsDetermine(v / 2, w / 2);
    }
  }

  lemma AlignBounds(size: nat)
    ensures size <= Align(size) < size + 8 && Align(size) % 8 == 0
  {
  }

  lemma AlignTwice(size: nat)
    ensures Align(Align(size)) == Align(size)
  {
  }

  /** ALIGN gives the least multiple of 8 that is large enough. */
  lemma AlignLeast(size: nat, n: nat)
    requires n % 8 == 0
    ensures size <= n <==> Align(size) <= n
  {
  }

  lemma Unpack(size: nat, alloc: bool)
    requires size % 8 == 0
    ensures GetSize(Pack(size, alloc)) == size && GetAlloc(Pack(size, alloc)) == alloc
  {
  }

  // ---------------------------------------------------------------------------
  // The layout: blocks are aligned, disjoint and leave no gap between lo and hi
  // ---------------------------------------------------------------------------

  ghost predicate BlockIn(p: nat, b: Block, lo: nat, hi: nat) {
    lo <= p && 8 <= b.size && p + b.size <= hi
  }

  ghost predicate Layout(h: Heap, lo: nat, hi: nat) {
    && (forall p {:trigger h[p]} :: p in h ==> BlockIn(p, h[p], lo, hi))
    && (forall p, q {:trigger h[p], h[q]} :: p in h && q in h && p < q ==> p + h[p].size <= q)
  }

  /** Payload pointers and block sizes are multiples of ALIGNMENT. */
  ghost predicate Aligned(h: Heap) {
    forall p {:trigger h[p]} :: p in h ==> p % 8 == 0 && h[p].size % 8 == 0
  }

  /** Block p is followed by another block or by the end of the heap. */
  ghost predicate NextIn(h: Heap, hi: nat, p: nat) {
    p in h ==> p + h[p].size in h || p + h[p].size == hi
  }

  ghost predicate Gapless(h: Heap, lo: nat, hi: nat) {
    lo in h && forall p {:trigger NextIn(h, hi, p)} :: NextIn(h, hi, p)
  }

  ghost predicate Tiling(h: Heap, lo: nat, hi: nat) {
    Layout(h, lo, hi) && Gapless(h, lo, hi)
  }

  /** No two free blocks are neighbours, except possibly where one of them is x. */
  ghost predicate Apart(h: Heap, x: nat) {
    forall p, q {:trigger h[p], h[q]} ::
      p in h && q in h && p + h[p].size == q && p != x && q != x ==> h[p].alloc || h[q].alloc
  }

  /** No free block has room for n payload bytes. */
  ghost predicate NoFit(h: Heap, n: nat) {
    forall p {:trigger h[p]} :: p in h && !h[p].alloc ==> h[p].Cap() < n
  }

  /** Every pointer except the first block is preceded by a block that ends there. */
  lemma PrevBlock(h: Heap, lo: nat, hi: nat, q: nat) returns (p: nat)
    requires Tiling(h, lo, hi) && lo < q && (q in h || q == hi)
    ensures p in h && p + h[p].size == q
  {
    p := lo;
    while p + h[p].size != q
      invariant p in h && p < q
      decreases q - p
    {
      assert NextIn(h, hi, p);
      p := p + h[p].size;
    }
  }

  /** The pointers visited by stepping forward from p with NEXT_BLKP. */
  ghost function Walk(h: Heap, lo: nat, hi: nat, p: nat): seq<nat>
    requires Tiling(h, lo, hi) && (p in h || p == hi)
    decreases hi - p
  {
    if p == hi then [] else
      assert NextIn(h, hi, p);
      [p] + Walk(h, lo, hi, p + h[p].size)
  }

  ghost function TotalSize(h: Heap, ps: seq<nat>): nat {
    if ps == [] then 0 else (if ps[0] in h then h[ps[0]].size else 0) + TotalSize(h, ps[1..])
  }

  /** Stepping forward from any block visits, in address order, exactly the blocks from
      there on, and their sizes add up to the bytes between p and the end. */
  lemma {:induction false} WalkTiles(h: Heap, lo: nat, hi: nat, p: nat)
    requires Tiling(h, lo, hi) && (p in h || p == hi)
    ensures forall q :: q in Walk(h, lo, hi, p) <==> q in h && p <= q
    ensures forall i, j :: 0 <= i < j < |Walk(h, lo, hi, p)| ==> Walk(h, lo, hi, p)[i] < Walk(h, lo, hi, p)[j]
    ensures TotalSize(h, Walk(h, lo, hi, p)) == hi - p
    decreases hi - p
  {
    if p == hi {
      NoneBehind(h, lo, hi, p);
    } else {
      NextStep(h, lo, hi, p);
      hide Layout, Gapless;
      var n := p + h[p].size;
      WalkTiles(h, lo, hi, n);
      WalkStep(h, lo, hi, p);
    }
  }

  /** The bytes from start to hi are those before the first block and those of the blocks that
      a walk from there visits, which are all blocks. */
  ghost predicate Accounted(h: Heap, start: nat, lo: nat, hi: nat) {
    && Tiling(h, lo, hi) && start <= lo && (forall q :: q in h <==> q in Walk(h, lo, hi, lo))
    && (lo - start) + TotalSize(h, Walk(h, lo, hi, lo)) == hi - start
  }

  lemma TilingAccounts(h: Heap, start: nat, lo: nat, hi: nat)
    requires Tiling(h, lo, hi) && start <= lo
    ensures Accounted(h, start, lo, hi)
  {
    WalkTiles(h, lo, hi, lo);
    forall q | q in h ensures lo <= q {
      assert BlockIn(q, h[q], lo, hi);
    }
  }

  lemma WalkStep(h: Heap, lo: nat, hi: nat, p: nat)
    requires Tiling(h, lo, hi) && p in h && (p + h[p].size in h || p + h[p].size == hi)
    requires forall q :: p < q < p + h[p].size ==> q !in h
    requires h[p].size > 0
    requires var u := Walk(h, lo, hi, p + h[p].size);
      && (forall q :: q in u <==> q in h && p + h[p].size <= q)
      && (forall i, j :: 0 <= i < j < |u| ==> u[i] < u[j])
      && TotalSize(h, u) == hi - (p + h[p].size)
    ensures var w := Walk(h, lo, hi, p);
      && (forall q :: q in w <==> q in h && p <= q)
      && (forall i, j :: 0 <= i < j < |w| ==> w[i] < w[j])
      && TotalSize(h, w) == hi - p
  {
    var w, u := Walk(h, lo, hi, p), Walk(h, lo, hi, p + h[p].size);
    assert p < hi by { assert BlockIn(p, h[p], lo, hi); }
    hide Layout, Gapless;
    assert w == [p] + u;
    hide Walk;
    assert w[1..] == u;
    forall q ensures q in w <==> q in h && p <= q {
      assert q in w <==> q == p || q in u;
    }
    forall i, j | 0 <= i < j < |w| ensures w[i] < w[j] {
      assert w[j] == u[j - 1] && u[j - 1] in u;
      if i > 0 { assert w[i] == u[i - 1]; }
    }
  }

  // ---------------------------------------------------------------------------
  // Tags in memory
  // ---------------------------------------------------------------------------

  ghost predicate TagAt(m: Mem, p: nat, b: Block) {
    Word(m, p - 4) == Pack(b.size, b.alloc) && Word(m, p + b.size - 8) == Pack(b.size, b.alloc)
  }

  /** Every block's header and footer hold its size and state, except where p is in x. */
  ghost predicate Tagged(m: Mem, h: Heap, x: set<nat>) {
    forall p {:trigger h[p]} :: p in h && p !in x ==> TagAt(m, p, h[p])
  }

  /** The effect of SET_BLK(p, size, alloc). */
  ghost predicate Retagged(m: Mem, m': Mem, p: nat, b: Block) {
    && |m'| == |m| && TagAt(m', p, b)
    && (forall i {:trigger m'[i]} ::
          0 <= i < |m| && !(p - 4 <= i < p) && !(p + b.size - 8 <= i < p + b.size - 4) ==> m'[i] == m[i])
  }

  /** All payload bytes of all blocks of h are the same in m and m'. */
  ghost predicate PayloadsKept(m: Mem, m': Mem, h: Heap) {
    forall q {:trigger h[q]} :: q in h ==> Same(m, m', q, q + h[q].Cap())
  }

  /** SET_BLK writes only tags: it completes the tagging of p, keeps that of the other
      blocks, and leaves every payload byte alone. */
  lemma RetagOne(m: Mem, m': Mem, h: Heap, lo: nat, hi: nat, p: nat, x: set<nat>)
    requires 4 <= lo && hi <= |m| && Layout(h, lo, hi) && p in h
    requires Retagged(m, m', p, h[p]) && Tagged(m, h, x)
    ensures Tagged(m', h, x - {p}) && PayloadsKept(m, m', h)
  {
    hide Word, Pack;
    forall q | q in h
      ensures q !in x - {p} ==> TagAt(m', q, h[q])
      ensures Same(m, m', q, q + h[q].Cap())
    {
      if q != p {
        assert BlockIn(q, h[q], lo, hi) && BlockIn(p, h[p], lo, hi);
        WordSame(m, m', q - 4);
        WordSame(m, m', q + h[q].size - 8);
      }
    }
  }

  /** A write inside the payload of one block touches no tag and no other payload. */
  lemma PayloadWrite(m: Mem, m': Mem, h: Heap, lo: nat, hi: nat, p: nat, a: nat, n: nat, x: set<nat>)
    requires 4 <= lo && hi <= |m| && Layout(h, lo, hi) && p in h && Tagged(m, h, x)
    requires p <= a && a + n <= p + h[p].Cap() && Only(m, m', a, n)
    ensures Tagged(m', h, x)
    ensures forall q {:trigger h[q]} :: q in h && q != p ==> Same(m, m', q, q + h[q].Cap())
    ensures Same(m, m', hi - 4, |m|) && Same(m, m', 0, lo - 4)
  {
    hide Word, Pack;
    assert BlockIn(p, h[p], lo, hi);
    forall q | q in h && q !in x ensures TagAt(m', q, h[q]) {
      assert BlockIn(q, h[q], lo, hi) && TagAt(m, q, h[q]);
      WordSame(m, m', q - 4);
      WordSame(m, m', q + h[q].size - 8);
    }
    forall q | q in h && q != p ensures Same(m, m', q, q + h[q].Cap()) {
      assert h[q] == h[q];
    }
  }

  /** NEXT_BLKP and PREV_BLKP, both computed from tags in memory, undo each other. */
  lemma StepsInvert(m: Mem, h: Heap, lo: nat, hi: nat, p: nat, q: nat)
    requires Tiling(h, lo, hi) && Aligned(h) && Tagged(m, h, {}) && p in h && q in h
    ensures p + GetSize(Word(m, p - 4)) == q <==> q - GetSize(Word(m, q - 8)) == p && lo < q
  {
    hide Word, GetSize, Pack;
    assert TagAt(m, p, h[p]);
    Unpack(h[p].size, h[p].alloc);
    if lo < q {
      var r := PrevBlock(h, lo, hi, q);
      assert TagAt(m, r, h[r]);
      hide Tagged;
      Unpack(h[r].size, h[r].alloc);
      if p < r { assert p + h[p].size <= r; }
      if r < p { assert r + h[r].size <= p; }
    } else {
      assert BlockIn(p, h[p], lo, hi) && BlockIn(q, h[q], lo, hi);
    }
  }

  /** The words in memory alone determine the blocks: two readings of the same memory that
      agree on the first block and the end agree on every block. */
  lemma {:induction false} TagsDetermine(m: Mem, h1: Heap, h2: Heap, lo: nat, hi: nat, p: nat)
    requires Tiling(h1, lo, hi) && Aligned(h1) && Tagged(m, h1, {})
    requires Tiling(h2, lo, hi) && Aligned(h2) && Tagged(m, h2, {})
    requires (p in h1 && p in h2) || p == hi
    ensures forall q :: p <= q ==> (q in h1 <==> q in h2) && (q in h1 ==> h1[q] == h2[q])
    decreases hi - p
  {
    hide Tagged, Gapless, Word, Pack;
    if p == hi {
      NoneBehind(h1, lo, hi, hi);
      NoneBehind(h2, lo, hi, hi);
    } else {
      TagsAgree(m, h1, h2, p);
      var n := p + h1[p].size;
      NextStep(h1, lo, hi, p);
      NextStep(h2, lo, hi, p);
      TagsDetermine(m, h1, h2, lo, hi, n);
    }
  }

  lemma TagsAgree(m: Mem, h1: Heap, h2: Heap, p: nat)
    requires Aligned(h1) && Tagged(m, h1, {}) && Aligned(h2) && Tagged(m, h2, {}) && p in h1 && p in h2
    ensures h1[p] == h2[p]
  {
    assert TagAt(m, p, h1[p]) && TagAt(m, p, h2[p]);
    Unpack(h1[p].size, h1[p].alloc);
    Unpack(h2[p].size, h2[p].alloc);
  }

  lemma NoneBehind(h: Heap, lo: nat, hi: nat, p: nat)
    requires Layout(h, lo, hi) && p == hi
    ensures forall q :: p <= q ==> q !in h
  {
    forall q | p <= q ensures q !in h {
      assert q in h ==> BlockIn(q, h[q], lo, hi);
    }
  }

  lemma NextStep(h: Heap, lo: nat, hi: nat, p: nat)
    requires Tiling(h, lo, hi) && p in h
    ensures var n := p + h[p].size; p < n <= hi && (n in h || n == hi) && forall q :: p < q < n ==> q !in h
  {
    assert NextIn(h, hi, p) && BlockIn(p, h[p], lo, hi);
    var n := p + h[p].size;
    forall q | q in h && p < q ensures n <= q {
      assert h[p] == h[p] && h[q] == h[q];
    }
  }

  // ---------------------------------------------------------------------------
  // The tag macros
  // ---------------------------------------------------------------------------

  /** BLK_SIZE(p) */
  method BlkSize(lib: Memlib, p: nat) returns (size: nat)
    requires 4 <= p <= lib.mem.Length
    ensures size == GetSize(Word(lib.mem[..], p - 4))
  {
    var w := lib.Load32(p - 4);
    size := GetSize(w);
  }

  /** BLK_STATE(p) */
  method BlkAlloc(lib: Memlib, p: nat) returns (alloc: bool)
    requires 4 <= p <= lib.mem.Length
    ensures alloc == GetAlloc(Word(lib.mem[..], p - 4))
  {
    var w := lib.Load32(p - 4);
    alloc := GetAlloc(w);
  }

  /** SET_BLK(p, size, alloc): the header first, then the footer at the address that the
      new header gives. */
  method SetBlk(lib: Memlib, p: nat, size: nat, alloc: bool)
    requires 8 <= size < 0x8000_0000 && size % 8 == 0 && 4 <= p && p + size - 4 <= lib.mem.Length
    modifies lib.mem
    ensures Retagged(old(lib.mem[..]), lib.mem[..], p, Block(size, alloc))
  {
    lib.Store32(p - 4, Pack(size, alloc));
    var n := BlkSize(lib, p);
    Unpack(size, alloc);
    ghost var m1 := lib.mem[..];
    lib.Store32(p + n - 8, Pack(size, alloc));
    WordSame(m1, lib.mem[..], p - 4);
  }

  // ---------------------------------------------------------------------------
  // Abstract heap transformations
  // ---------------------------------------------------------------------------

  function Recolored(h: Heap, p: nat, alloc: bool): Heap
    requires p in h
  {
    h[p := Block(h[p].size, alloc)]
  }

  /** Block p cut after n bytes. */
  function Split(h: Heap, p: nat, n: nat, first: bool, second: bool): Heap
    requires p in h && n <= h[p].size
  {
    h[p := Block(n, first)][p + n := Block(h[p].size - n, second)]
  }

  /** Block p swallowing the block that follows it. */
  function Joined(h: Heap, p: nat, alloc: bool): Heap
    requires p in h && p + h[p].size in h
  {
    (h - {p + h[p].size})[p := Block(h[p].size + h[p + h[p].size].size, alloc)]
  }

  lemma RecoloredTiles(h: Heap, lo: nat, hi: nat, p: nat, alloc: bool)
    requires Tiling(h, lo, hi) && p in h
    ensures Tiling(Recolored(h, p, alloc), lo, hi)
  {
    var h' := Recolored(h, p, alloc);
    forall q: nat ensures NextIn(h', hi, q) {
      assert NextIn(h, hi, q);
    }
  }

  lemma SplitLayout(h: Heap, lo: nat, hi: nat, p: nat, n: nat, first: bool, second: bool)
    requires Layout(h, lo, hi) && p in h && 8 <= n && n + 8 <= h[p].size
    ensures p + n !in h && Layout(Split(h, p, n, first, second), lo, hi)
  {
    var h', r := Split(h, p, n, first, second), p + n;
    assert BlockIn(p, h[p], lo, hi) && BlockIn(p, h'[p], lo, hi) && BlockIn(r, h'[r], lo, hi);
    forall q | q in h' && q != p && q != r
      ensures h'[q] == h[q] && (q + h[q].size <= p || r + h'[r].size <= q)
    {
      assert h[q] == h'[q];
    }
  }

  lemma SplitTiles(h: Heap, lo: nat, hi: nat, p: nat, n: nat, first: bool, second: bool)
    requires Tiling(h, lo, hi) && p in h && 8 <= n && n + 8 <= h[p].size
    ensures p + n !in h && Tiling(Split(h, p, n, first, second), lo, hi)
  {
    hide Aligned;
    SplitLayout(h, lo, hi, p, n, first, second);
    var h' := Split(h, p, n, first, second);
    forall q: nat ensures NextIn(h', hi, q) {
      assert NextIn(h, hi, q) && NextIn(h, hi, p);
    }
  }

  /** Only one block ends where p ends, and no block starts inside p. */
  lemma NoneInside(h: Heap, lo: nat, hi: nat, p: nat)
    requires Layout(h, lo, hi) && p in h
    ensures forall q {:trigger h[q]} :: q in h && q + h[q].size == p + h[p].size ==> q == p
    ensures forall q :: p < q < p + h[p].size ==> q !in h
  {
    forall q | q in h && q != p ensures q + h[q].size <= p || p + h[p].size <= q {
      assert h[q] == h[q] && h[p] == h[p];
    }
    forall q | q in h && q + h[q].size == p + h[p].size ensures q == p {
      assert BlockIn(q, h[q], lo, hi) && BlockIn(p, h[p], lo, hi);
    }
  }

  lemma EndsDiffer(h: Heap, lo: nat, hi: nat, p: nat, q: nat)
    requires Layout(h, lo, hi) && p in h && q in h && p != q
    ensures p + h[p].size != q + h[q].size
  {
    assert BlockIn(p, h[p], lo, hi) && BlockIn(q, h[q], lo, hi);
  }

  lemma JoinedLayout(h: Heap, lo: nat, hi: nat, p: nat, alloc: bool)
    requires Layout(h, lo, hi) && p in h && p + h[p].size in h
    ensures Layout(Joined(h, p, alloc), lo, hi)
  {
    var h', n := Joined(h, p, alloc), p + h[p].size;
    assert BlockIn(p, h[p], lo, hi) && BlockIn(n, h[n], lo, hi) && BlockIn(p, h'[p], lo, hi);
    forall q | q in h' && q != p
      ensures h'[q] == h[q] && (q + h[q].size <= p || p + h'[p].size <= q)
    {
      assert h[q] == h'[q];
    }
  }

  lemma JoinedTiles(h: Heap, lo: nat, hi: nat, p: nat, alloc: bool)
    requires Tiling(h, lo, hi) && p in h && p + h[p].size in h
    ensures Tiling(Joined(h, p, alloc), lo, hi)
  {
    JoinedLayout(h, lo, hi, p, alloc);
    var h', n := Joined(h, p, alloc), p + h[p].size;
    forall q: nat ensures NextIn(h', hi, q) {
      if q == p {
        assert NextIn(h, hi, n);
      } else if q in h' {
        assert NextIn(h, hi, q);
        EndsDiffer(h, lo, hi, p, q);
      }
    }
  }

  lemma ExtendedLayout(h: Heap, lo: nat, hi: nat, b: Block)
    requires Layout(h, lo, hi) && lo <= hi && 8 <= b.size
    ensures hi !in h && Layout(h[hi := b], lo, hi + b.size)
  {
    assert hi in h ==> BlockIn(hi, h[hi], lo, hi);
    var h' := h[hi := b];
    forall q | q in h && q != hi ensures h'[q] == h[q] && q + h[q].size <= hi {
      assert BlockIn(q, h[q], lo, hi);
    }
  }

  lemma ExtendedTiles(h: Heap, lo: nat, hi: nat, b: Block)
    requires Tiling(h, lo, hi) && 8 <= b.size
    ensures hi !in h && Tiling(h[hi := b], lo, hi + b.size)
  {
    assert BlockIn(lo, h[lo], lo, hi);
    ExtendedLayout(h, lo, hi, b);
    var h', hi' := h[hi := b], hi + b.size;
    forall q: nat ensures NextIn(h', hi', q) {
      assert NextIn(h, hi, q);
    }
  }

  lemma AlignedEnd(h: Heap, lo: nat, hi: nat)
    requires Tiling(h, lo, hi) && Aligned(h) && lo < hi
    ensures hi % 8 == 0
  {
    var p := PrevBlock(h, lo, hi, hi);
    AlignedSum(p, h[p].size);
  }

  lemma AlignedSum(a: nat, b: nat)
    requires a % 8 == 0 && b % 8 == 0
    ensures (a + b) % 8 == 0
  {
  }
}
