/** The invariant of the implicit-list allocator, and what its stores do to it. */
module ImplicitHeap {
  import opened Memory
  import opened Blocks
  import opened LiveBlocks

  /** RB_HDR_SIZE + RB_FTR_SIZE: a free block may have no payload at all. */
  const MIN_BLK_SIZE: nat := 8

  /** heap_listp, the end of the heap, and the blocks by payload pointer. */
  datatype Space = Space(lo: nat, brk: nat, h: Heap)

  /** The prologue is an allocated block of size 8; other allocated blocks have a payload. */
  ghost predicate Sized(h: Heap, lo: nat) {
    lo in h && h[lo] == Block(8, true) && forall p {:trigger h[p]} ::
      p in h && h[p].alloc && p != lo ==> h[p].size >= 16
  }

  ghost predicate Shaped(sp: Space) {
    16 <= sp.lo && Tiling(sp.h, sp.lo, sp.brk) && Aligned(sp.h) && Sized(sp.h, sp.lo)
  }

  /** The end marker: init sets the alloc bit, but extend_heap moves the end into zeroed
      memory without setting it again. */
  function EndWord(sp: Space): nat {
    if sp.brk == sp.lo + 8 then Pack(0, true) else 0
  }

  /** The blocks and their tags, except for the tags of the blocks in x; the end marker,
      zeroed memory above it, and nothing that looks like a block below the heap. */
  ghost predicate Framed(m: Mem, sp: Space, x: set<nat>) {
    && Shaped(sp) && sp.brk <= |m| < PTR_LIMIT && Tagged(m, sp.h, x)
    && Word(m, sp.brk - 4) == EndWord(sp) && Zero(m, sp.brk, |m|)
    && GetSize(Word(m, sp.lo - 12)) == 0
  }

  lemma FramedShape(m: Mem, sp: Space, x: set<nat>)
    requires Framed(m, sp, x)
    ensures Shaped(sp) && 8 <= sp.lo && sp.lo + 8 <= sp.brk <= |m| && 0 !in sp.h
    ensures sp.lo in sp.h && sp.h[sp.lo] == Block(8, true)
  {
    assert BlockIn(sp.lo, sp.h[sp.lo], sp.lo, sp.brk);
    assert 0 in sp.h ==> BlockIn(0, sp.h[0], sp.lo, sp.brk);
  }

  lemma BlockBounds(sp: Space, p: nat)
    requires Shaped(sp) && p in sp.h
    ensures sp.lo <= p && 8 <= sp.h[p].size && p + sp.h[p].size <= sp.brk && p % 8 == 0 && sp.h[p].size % 8 == 0
    ensures p != sp.lo ==> sp.lo + 8 <= p
    ensures p != sp.lo && sp.h[p].alloc ==> sp.h[p].size >= 16
    ensures p + sp.h[p].size in sp.h || p + sp.h[p].size == sp.brk
  {
    assert BlockIn(p, sp.h[p], sp.lo, sp.brk) && NextIn(sp.h, sp.brk, p);
    assert sp.h[sp.lo] == Block(8, true);
  }

  // ---------------------------------------------------------------------------
  // Reading the tags
  // ---------------------------------------------------------------------------

  lemma ReadTag(m: Mem, sp: Space, x: set<nat>, p: nat)
    requires Framed(m, sp, x) && p in sp.h && p !in x
    ensures GetSize(Word(m, p - 4)) == sp.h[p].size && GetAlloc(Word(m, p - 4)) == sp.h[p].alloc
    ensures GetSize(Word(m, p + sp.h[p].size - 8)) == sp.h[p].size
    ensures GetAlloc(Word(m, p + sp.h[p].size - 8)) == sp.h[p].alloc
    ensures Word(m, p - 4) == Word(m, p + sp.h[p].size - 8)
    ensures sp.lo <= p && 8 <= sp.h[p].size && p + sp.h[p].size <= sp.brk && p % 8 == 0 && sp.h[p].size % 8 == 0
  {
    assert TagAt(m, p, sp.h[p]) && BlockIn(p, sp.h[p], sp.lo, sp.brk);
    Unpack(sp.h[p].size, sp.h[p].alloc);
  }

  /** EB: stepping stops exactly at the end of the heap. */
  lemma ReadEnd(m: Mem, sp: Space, p: nat)
    requires Framed(m, sp, {}) && (p in sp.h || p == sp.brk)
    ensures GetSize(Word(m, p - 4)) == 0 <==> p == sp.brk
    ensures p == sp.brk && sp.brk != sp.lo + 8 ==> !GetAlloc(Word(m, p - 4))
    ensures 4 <= p <= |m|
  {
    FramedShape(m, sp, {});
    if p in sp.h {
      ReadTag(m, sp, {}, p);
    }
  }

  /** NEXT_BLK_ALLOC and NEXT_BLK_SIZE: behind the last block the end marker reads as a free
      block of size 0. */
  lemma ReadNext(m: Mem, sp: Space, p: nat)
    requires Framed(m, sp, {}) && p in sp.h && p != sp.lo
    ensures var n := p + sp.h[p].size;
      && (n == sp.brk || n in sp.h) && n <= |m|
      && GetAlloc(Word(m, n - 4)) == (n in sp.h && sp.h[n].alloc)
      && GetSize(Word(m, n - 4)) == (if n in sp.h then sp.h[n].size else 0)
  {
    var n := p + sp.h[p].size;
    BlockBounds(sp, p);
    FramedShape(m, sp, {});
    if n in sp.h {
      ReadTag(m, sp, {}, n);
    }
  }

  /** PREV_BLKP, also at the end of the heap (TAIL_BLK). */
  lemma ReadPrev(m: Mem, sp: Space, p: nat) returns (q: nat)
    requires Framed(m, sp, {}) && p != sp.lo && (p in sp.h || p == sp.brk)
    ensures q in sp.h && q + sp.h[q].size == p && sp.lo <= q < p
    ensures GetSize(Word(m, p - 8)) == sp.h[q].size && GetAlloc(Word(m, p - 8)) == sp.h[q].alloc
    ensures sp.h[q].alloc ==> MergeStart(sp.h, p, p)
    ensures !sp.h[q].alloc ==> MergeStart(sp.h, p, q) && q != p
    ensures 8 <= p <= |m|
  {
    FramedShape(m, sp, {});
    if p in sp.h { BlockBounds(sp, p); }
    q := PrevBlock(sp.h, sp.lo, sp.brk, p);
    ReadTag(m, sp, {}, q);
    forall r | r in sp.h && r + sp.h[r].size == p ensures r == q {
      assert sp.h[r] == sp.h[r];
    }
  }

  // ---------------------------------------------------------------------------
  // Writing tags and payloads
  // ---------------------------------------------------------------------------

  /** Re-reading the same memory as a different tiling: the blocks that changed are untagged. */
  lemma Relayout(m: Mem, sp: Space, h': Heap, x: set<nat>)
    requires Framed(m, sp, {}) && Shaped(sp.(h := h'))
    requires forall q {:trigger h'[q]} :: q in h' && q !in x ==> q in sp.h && sp.h[q] == h'[q]
    ensures Framed(m, sp.(h := h'), x)
  {
    hide Shaped;
  }

  /** SET_RB on a block of the tiling. */
  lemma Retag(m: Mem, m': Mem, sp: Space, p: nat, x: set<nat>)
    requires Framed(m, sp, x) && p in sp.h && p != sp.lo && Retagged(m, m', p, sp.h[p])
    ensures Framed(m', sp, x - {p}) && PayloadsKept(m, m', sp.h) && |m'| == |m|
  {
    RetagOne(m, m', sp.h, sp.lo, sp.brk, p, x);
    BlockBounds(sp, p);
    WordSame(m, m', sp.brk - 4);
    WordSame(m, m', sp.lo - 12);
  }

  /** A write inside one block's payload leaves the tags and all other payloads alone. */
  lemma InnerWrite(m: Mem, m': Mem, sp: Space, x: set<nat>, p: nat, a: nat, n: nat)
    requires Framed(m, sp, x) && p in sp.h && p <= a && a + n <= p + sp.h[p].Cap() && Only(m, m', a, n)
    ensures Framed(m', sp, x)
    ensures forall q {:trigger sp.h[q]} :: q in sp.h && q != p ==> Same(m, m', q, q + sp.h[q].Cap())
  {
    hide Tagged, Gapless, Aligned, Word, Pack;
    BlockBounds(sp, p);
    PayloadWrite(m, m', sp.h, sp.lo, sp.brk, p, a, n, x);
    WordSame(m, m', sp.brk - 4);
    WordSame(m, m', sp.lo - 12);
  }

  // ---------------------------------------------------------------------------
  // Carving an allocated block of n bytes out of block p
  // ---------------------------------------------------------------------------

  /** Block p allocated with n bytes, the rest of it, if any, being a free block. */
  ghost function Carved(h: Heap, p: nat, n: nat): Heap
    requires p in h && n <= h[p].size
  {
    if n == h[p].size then Recolored(h, p, true) else Split(h, p, n, true, false)
  }

  lemma CarvedShape(sp: Space, p: nat, n: nat)
    requires Shaped(sp) && p in sp.h && p != sp.lo && 16 <= n <= sp.h[p].size && n % 8 == 0
    ensures Shaped(sp.(h := Carved(sp.h, p, n)))
    ensures n < sp.h[p].size ==>
      n + 8 <= sp.h[p].size && p + n !in sp.h && p + n != sp.lo && (sp.h[p].size - n) % 8 == 0
    ensures sp.lo + 8 <= p && p + sp.h[p].size <= sp.brk
  {
    BlockBounds(sp, p);
    CarvedAligned(sp.h, sp.lo, p, n);
    hide Tiling, Aligned, Sized;
    if n < sp.h[p].size {
      RestAligned(p, sp.h[p].size, n);
      SplitTiles(sp.h, sp.lo, sp.brk, p, n, true, false);
    } else {
      RecoloredTiles(sp.h, sp.lo, sp.brk, p, true);
    }
  }

  lemma CarvedAligned(h: Heap, lo: nat, p: nat, n: nat)
    requires Aligned(h) && Sized(h, lo) && p in h && p != lo && 16 <= n <= h[p].size && n % 8 == 0 && p > lo
    ensures Aligned(Carved(h, p, n)) && Sized(Carved(h, p, n), lo)
  {
    var h' := Carved(h, p, n);
    assert h[p] == h[p];
    if n < h[p].size { RestAligned(p, h[p].size, n); }
    forall q | q in h' && q != p && (n == h[p].size || q != p + n) ensures h'[q] == h[q] {
    }
  }

  lemma RestAligned(p: nat, size: nat, n: nat)
    requires p % 8 == 0 && size % 8 == 0 && n % 8 == 0 && n < size
    ensures n + 8 <= size && (size - n) % 8 == 0 && (p + n) % 8 == 0
  {
  }

  /** The stores that carve n bytes out of a block whose own tags may be out of date. */
  lemma CarveStores(m: Mem, m1: Mem, m2: Mem, sp: Space, x: set<nat>, p: nat, n: nat)
    requires Framed(m, sp, x) && x <= {p} && p in sp.h && p != sp.lo && 16 <= n <= sp.h[p].size && n % 8 == 0
    requires Retagged(m, m1, p, Block(n, true))
    requires if n == sp.h[p].size then m2 == m1 else Retagged(m1, m2, p + n, Block(sp.h[p].size - n, false))
    ensures Framed(m2, sp.(h := Carved(sp.h, p, n)), {})
    ensures CarveKept(m, m2, sp.h, p, n)
  {
    hide Framed, Shaped, Retagged, PayloadsKept, Carved, Same;
    var r := p + n;
    var sp' := sp.(h := Carved(sp.h, p, n));
    FramedShape(m, sp, x);
    CarvedShape(sp, p, n);
    CarvedBlocks(sp.h, p, n);
    UntagCarved(m, sp, x, p, n);
    if n == sp.h[p].size {
      Retag(m, m1, sp', p, {p});
      assert {p} - {p} == {};
      CarvedKept(m, m1, m1, sp.h, p, n);
    } else {
      Retag(m, m1, sp', p, {p, r});
      assert {p, r} - {p} == {r};
      Retag(m1, m2, sp', r, {r});
      assert {r} - {r} == {};
      CarvedKept(m, m1, m2, sp.h, p, n);
    }
  }

  lemma CarvedBlocks(h: Heap, p: nat, n: nat)
    requires p in h && 0 < n <= h[p].size
    ensures var h' := Carved(h, p, n);
      && p in h' && h'[p] == Block(n, true)
      && (n < h[p].size ==> p + n in h' && h'[p + n] == Block(h[p].size - n, false))
  {
  }

  lemma UntagCarved(m: Mem, sp: Space, x: set<nat>, p: nat, n: nat)
    requires Framed(m, sp, x) && x <= {p} && p in sp.h && 0 < n <= sp.h[p].size && Shaped(sp.(h := Carved(sp.h, p, n)))
    requires n < sp.h[p].size ==> p + n !in sp.h
    ensures Framed(m, sp.(h := Carved(sp.h, p, n)), if n == sp.h[p].size then {p} else {p, p + n})
  {
    hide Shaped;
    var h' := Carved(sp.h, p, n);
    forall q | q in h' && q != p && (n == sp.h[p].size || q != p + n) ensures TagAt(m, q, h'[q]) {
      assert h'[q] == sp.h[q];
    }
  }

  /** All payloads of h other than p's, and the first n-8 bytes of p's, are the same. */
  ghost predicate CarveKept(m: Mem, m': Mem, h: Heap, p: nat, n: nat) {
    Same(m, m', p, p + n - 8) && forall q {:trigger h[q]} :: q in h && q != p ==> Same(m, m', q, q + h[q].Cap())
  }

  lemma CarvedKept(m: Mem, m1: Mem, m2: Mem, h: Heap, p: nat, n: nat)
    requires p in h && 0 < n <= h[p].size && (n < h[p].size ==> p + n !in h)
    requires PayloadsKept(m, m1, Carved(h, p, n)) && |m| == |m1|
    requires m2 == m1 || (PayloadsKept(m1, m2, Carved(h, p, n)) && |m1| == |m2|)
    ensures CarveKept(m, m2, h, p, n)
  {
    var h' := Carved(h, p, n);
    assert h'[p] == Block(n, true);
    forall q | q in h && q != p ensures Same(m, m2, q, q + h[q].Cap()) {
      assert h'[q] == h[q];
    }
  }

  /** Carving out of a free block adds p to the allocated blocks; carving out of an allocated
      one changes its size. */
  lemma CarvedLive(h: Heap, p: nat, n: nat)
    requires p in h && 0 < n <= h[p].size && (n < h[p].size ==> p + n !in h)
    ensures Live(Carved(h, p, n)) == Live(h)[p := n]
  {
    var h' := Carved(h, p, n);
    forall q | q in h' && q != p && (n == h[p].size || q != p + n) ensures h'[q] == h[q] {
    }
  }

  lemma CarvedApart(sp: Space, p: nat, n: nat)
    requires Shaped(sp) && p in sp.h && p != sp.lo && 16 <= n <= sp.h[p].size && n % 8 == 0 && Apart(sp.h, 0)
    ensures var h' := Carved(sp.h, p, n);
      Apart(h', 0) <==> n == sp.h[p].size || !NextFree(sp.h, p)
  {
    hide Gapless, Aligned, Sized, Apart;
    var h, h' := sp.h, Carved(sp.h, p, n);
    CarvedShape(sp, p, n);
    if n == h[p].size {
      RecoloredApart(h, p);
    } else {
      SplitApart(h, sp.lo, sp.brk, p, n);
      RestApart(sp, p, n);
    }
  }

  lemma RestApart(sp: Space, p: nat, n: nat)
    requires Shaped(sp) && p in sp.h && p + n !in sp.h && 8 <= n && n + 8 <= sp.h[p].size
    requires Apart(Split(sp.h, p, n, true, false), p + n)
    ensures Apart(Split(sp.h, p, n, true, false), 0) <==> !NextFree(sp.h, p)
  {
    hide Gapless, Aligned, Sized;
    var h, r := sp.h, p + n;
    var h' := Split(h, p, n, true, false);
    var e := p + h[p].size;
    assert BlockIn(p, h[p], sp.lo, sp.brk);
    assert h'[r] == Block(h[p].size - n, false) && h'[p] == Block(n, true);
    if e in h {
      assert h'[e] == h[e];
    }
    forall a | a in h' && a + h'[a].size == r ensures a == p {
      assert h'[a] == h'[a];
    }
  }

  // ---------------------------------------------------------------------------
  // Growing the heap
  // ---------------------------------------------------------------------------

  /** p is where a growing allocation starts: the last block, or the end of the heap. */
  ghost predicate GrowsAt(sp: Space, p: nat, n: nat) {
    && n % 8 == 0 && n >= 16 && p != sp.lo
    && (p == sp.brk || (p in sp.h && p + sp.h[p].size == sp.brk && sp.h[p].size < n))
  }

  ghost function Grown(sp: Space, p: nat, n: nat): Space {
    Space(sp.lo, p + n, sp.h[p := Block(n, true)])
  }

  /** A block of n bytes allocated at r: carved out of a block that has room, or grown. */
  ghost function Allotted(sp: Space, r: nat, n: nat): Space {
    if r in sp.h && n <= sp.h[r].size then sp.(h := Carved(sp.h, r, n)) else Grown(sp, r, n)
  }

  lemma AllottedGrown(sp: Space, r: nat, n: nat)
    requires Shaped(sp) && GrowsAt(sp, r, n)
    ensures Allotted(sp, r, n) == Grown(sp, r, n)
  {
    FramedEnds(sp);
  }

  lemma GrownLayout(sp: Space, p: nat, n: nat)
    requires Shaped(sp) && GrowsAt(sp, p, n)
    ensures sp.brk < p + n && sp.lo + 8 <= p && Layout(Grown(sp, p, n).h, sp.lo, p + n) && (p == sp.brk ==> p !in sp.h)
  {
    FramedEnds(sp);
    hide Gapless, Aligned, Sized;
    var h, h' := sp.h, Grown(sp, p, n).h;
    if p in h { BlockIsIn(sp, p); }
    forall q | q in h && q != p ensures h'[q] == h[q] && q + h[q].size <= p && BlockIn(q, h'[q], sp.lo, p + n) {
      BlockIsIn(sp, q);
      if p in h { assert h[p] == h[p]; }
    }
  }

  lemma BlockIsIn(sp: Space, q: nat)
    requires Shaped(sp) && q in sp.h
    ensures BlockIn(q, sp.h[q], sp.lo, sp.brk)
  {
  }

  lemma FramedEnds(sp: Space)
    requires Shaped(sp)
    ensures sp.lo + 8 <= sp.brk && sp.brk !in sp.h && sp.brk % 8 == 0 && sp.lo in sp.h
    ensures forall p {:trigger sp.h[p]} :: p in sp.h && p != sp.lo ==> sp.lo + 8 <= p
  {
    hide Gapless, Aligned;
    assert BlockIn(sp.lo, sp.h[sp.lo], sp.lo, sp.brk);
    assert sp.brk in sp.h ==> BlockIn(sp.brk, sp.h[sp.brk], sp.lo, sp.brk);
    AlignedEnd(sp.h, sp.lo, sp.brk);
  }

  lemma GrownShape(sp: Space, p: nat, n: nat)
    requires Shaped(sp) && GrowsAt(sp, p, n)
    ensures Shaped(Grown(sp, p, n)) && p % 8 == 0 && sp.brk + 8 <= p + n
  {
    GrownLayout(sp, p, n);
    FramedEnds(sp);
    GrownAligned(sp, p, n);
    hide Layout, Aligned;
    var h', hi := Grown(sp, p, n).h, p + n;
    forall q: nat ensures NextIn(h', hi, q) {
      GrownNext(sp, p, n, q);
    }
  }

  lemma GrownAligned(sp: Space, p: nat, n: nat)
    requires Shaped(sp) && GrowsAt(sp, p, n) && sp.brk < p + n && sp.brk % 8 == 0
    ensures Aligned(Grown(sp, p, n).h) && p % 8 == 0 && sp.brk + 8 <= p + n
  {
    hide Tiling, Sized;
    assert p in sp.h ==> sp.h[p] == sp.h[p];
    forall q | q in sp.h && q != p ensures Grown(sp, p, n).h[q] == sp.h[q] {
    }
  }

  lemma GrownNext(sp: Space, p: nat, n: nat, q: nat)
    requires Shaped(sp) && GrowsAt(sp, p, n)
    ensures NextIn(Grown(sp, p, n).h, p + n, q)
  {
    hide Aligned, Sized;
    assert NextIn(sp.h, sp.brk, q);
    if q in sp.h && q != p && p in sp.h {
      EndsDiffer(sp.h, sp.lo, sp.brk, p, q);
    }
  }

  /** The two steps of every growth: extend_heap rewrites the old end marker, and SET_RB
      tags the grown or new last block. Its payload so far, and all others, are kept. */
  lemma GrowStores(m: Mem, m1: Mem, m2: Mem, sp: Space, p: nat, n: nat)
    requires Framed(m, sp, {}) && GrowsAt(sp, p, n) && p + n <= |m| && Only(m, m1, sp.brk - 4, 4)
    requires Retagged(m1, m2, p, Block(n, true))
    ensures Framed(m2, Grown(sp, p, n), {})
    ensures forall q {:trigger sp.h[q]} :: q in sp.h ==> Same(m, m2, q, q + sp.h[q].Cap())
  {
    hide Framed, Shaped, Retagged, PayloadsKept, Same, Only;
    var sp' := Grown(sp, p, n);
    FramedShape(m, sp, {});
    FramedEnds(sp);
    GrownShape(sp, p, n);
    GrowFrame(m, m1, sp, p, n);
    GrownBlock(sp, p, n);
    Retag(m1, m2, sp', p, {p});
    assert {p} - {p} == {};
    GrowKept(m, m1, m2, sp, p, n);
  }

  lemma GrownBlock(sp: Space, p: nat, n: nat)
    ensures p in Grown(sp, p, n).h && Grown(sp, p, n).h[p] == Block(n, true)
  {
  }

  lemma GrowFrame(m: Mem, m1: Mem, sp: Space, p: nat, n: nat)
    requires Framed(m, sp, {}) && GrowsAt(sp, p, n) && p + n <= |m| && Only(m, m1, sp.brk - 4, 4)
    requires Shaped(Grown(sp, p, n)) && sp.brk + 8 <= p + n
    ensures Framed(m1, Grown(sp, p, n), {p}) && |m1| == |m|
    ensures forall q {:trigger sp.h[q]} :: q in sp.h ==> Same(m, m1, q, q + sp.h[q].Cap())
  {
    FramedEnds(sp);
    hide Shaped;
    assert Zero(m1, sp.brk, |m1|);
    ZeroWord(m1, p + n - 4);
    WordSame(m, m1, sp.lo - 12);
    GrowTags(m, m1, sp, p, n);
  }

  lemma GrowTags(m: Mem, m1: Mem, sp: Space, p: nat, n: nat)
    requires Shaped(sp) && Tagged(m, sp.h, {}) && 8 <= sp.lo && sp.brk <= |m|
    requires p != sp.lo && (p == sp.brk || (p in sp.h && p + sp.h[p].size == sp.brk)) && Only(m, m1, sp.brk - 4, 4)
    ensures Tagged(m1, Grown(sp, p, n).h, {p})
    ensures forall q {:trigger sp.h[q]} :: q in sp.h ==> Same(m, m1, q, q + sp.h[q].Cap())
  {
    hide Shaped, Word, Pack;
    var h' := Grown(sp, p, n).h;
    forall q | q in sp.h
      ensures q != p ==> h'[q] == sp.h[q] && TagAt(m1, q, h'[q])
      ensures Same(m, m1, q, q + sp.h[q].Cap())
    {
      BlockBounds(sp, q);
      assert TagAt(m, q, sp.h[q]);
      WordSame(m, m1, q - 4);
      if q != p {
        WordSame(m, m1, q + sp.h[q].size - 8);
      }
    }
  }

  lemma GrowKept(m: Mem, m1: Mem, m2: Mem, sp: Space, p: nat, n: nat)
    requires PayloadsKept(m1, m2, Grown(sp, p, n).h) && |m1| == |m| && |m2| == |m1| && (p in sp.h ==> sp.h[p].size < n)
    requires forall q {:trigger sp.h[q]} :: q in sp.h ==> Same(m, m1, q, q + sp.h[q].Cap())
    ensures forall q {:trigger sp.h[q]} :: q in sp.h ==> Same(m, m2, q, q + sp.h[q].Cap())
  {
    var h' := Grown(sp, p, n).h;
    forall q | q in sp.h ensures Same(m, m2, q, q + sp.h[q].Cap()) {
      assert Same(m1, m2, q, q + h'[q].Cap());
      assert sp.h[q] == sp.h[q];
    }
  }

  lemma GrownLive(sp: Space, p: nat, n: nat)
    requires Shaped(sp) && GrowsAt(sp, p, n)
    ensures Live(Grown(sp, p, n).h) == Live(sp.h)[p := n]
  {
  }

  lemma GrownApart(sp: Space, p: nat, n: nat)
    requires Shaped(sp) && GrowsAt(sp, p, n) && Apart(sp.h, 0)
    ensures Apart(Grown(sp, p, n).h, 0)
  {
    hide Gapless, Aligned, Sized;
    var h, h' := sp.h, Grown(sp, p, n).h;
    forall a, b | a in h' && b in h' && a + h'[a].size == b && a != 0 && b != 0 ensures h'[a].alloc || h'[b].alloc {
      assert a != p ==> h'[a] == h[a];
      assert b != p ==> h'[b] == h[b];
      assert a in h && b in h ==> h[a] == h[a] && h[b] == h[b];
    }
  }

  // ---------------------------------------------------------------------------
  // coalesce, and joining blocks in realloc
  // ---------------------------------------------------------------------------

  lemma MergedShape(sp: Space, bp: nat, p: nat)
    requires Shaped(sp) && bp in sp.h && bp != sp.lo && MergeStart(sp.h, bp, p)
    ensures Shaped(sp.(h := Merged(sp.h, bp, p))) && p != sp.lo
  {
    FramedEnds(sp);
    hide Tiling, Aligned, Sized;
    MergedTiles(sp.h, sp.lo, sp.brk, bp, p);
    MergedAligned(sp.h, sp.lo, bp, p);
  }

  lemma MergedAligned(h: Heap, lo: nat, bp: nat, p: nat)
    requires Aligned(h) && Sized(h, lo) && bp in h && bp != lo && bp > lo && MergeStart(h, bp, p)
    requires NextFree(h, bp) ==> bp + h[bp].size != lo
    ensures Aligned(Merged(h, bp, p)) && Sized(Merged(h, bp, p), lo) && p != lo
  {
    MergedSize(h, bp, p);
    var h' := Merged(h, bp, p);
    forall q | q in h' && q != p ensures h'[q] == h[q] {
    }
  }

  /** The final SET_RB of coalesce. */
  lemma CoalesceStore(m: Mem, m': Mem, sp: Space, bp: nat, p: nat)
    requires Framed(m, sp, {}) && bp in sp.h && bp != sp.lo && MergeStart(sp.h, bp, p)
    requires Retagged(m, m', p, Merged(sp.h, bp, p)[p])
    ensures Framed(m', sp.(h := Merged(sp.h, bp, p)), {}) && LiveKept(m, m', sp.h, bp)
  {
    hide Framed, Shaped, Retagged, PayloadsKept, LiveKept, Same;
    var h' := Merged(sp.h, bp, p);
    FramedShape(m, sp, {});
    MergedShape(sp, bp, p);
    Relayout(m, sp, h', {p});
    Retag(m, m', sp.(h := h'), p, {p});
    assert {p} - {p} == {};
    MergedLive(m, m', sp.h, bp, p);
  }

  lemma MergedBounds(sp: Space, bp: nat, p: nat)
    requires Shaped(sp) && bp in sp.h && bp != sp.lo && MergeStart(sp.h, bp, p)
    ensures p in Merged(sp.h, bp, p)
    ensures var b := Merged(sp.h, bp, p)[p];
      sp.lo + 8 <= p && p + b.size <= sp.brk && 8 <= b.size && b.size % 8 == 0
  {
    hide Merged;
    MergedShape(sp, bp, p);
    MergedBlock(sp.h, bp, p);
    BlockBounds(sp.(h := Merged(sp.h, bp, p)), p);
  }

  /** Two neighbours, one of them about to be allocated, read as one block. */
  lemma JoinedFrame(m: Mem, sp: Space, p: nat)
    requires Framed(m, sp, {}) && p in sp.h && p != sp.lo && p + sp.h[p].size in sp.h
    ensures Framed(m, sp.(h := Joined(sp.h, p, true)), {p})
    ensures var h1 := Joined(sp.h, p, true);
      p in h1 && h1[p].size == sp.h[p].size + sp.h[p + sp.h[p].size].size
  {
    hide Framed, Shaped;
    FramedShape(m, sp, {});
    BlockBounds(sp, p);
    JoinedShape(sp, p);
    Relayout(m, sp, Joined(sp.h, p, true), {p});
  }

  lemma JoinedShape(sp: Space, p: nat)
    requires Shaped(sp) && p in sp.h && p != sp.lo && p + sp.h[p].size in sp.h && sp.h[p].size > 0
    ensures Shaped(sp.(h := Joined(sp.h, p, true)))
  {
    var n := p + sp.h[p].size;
    BlockBounds(sp, p);
    BlockBounds(sp, n);
    hide Tiling;
    JoinedTiles(sp.h, sp.lo, sp.brk, p, true);
    JoinedSizes(sp, p);
  }

  lemma JoinedSizes(sp: Space, p: nat)
    requires Aligned(sp.h) && Sized(sp.h, sp.lo) && p in sp.h && p != sp.lo && p + sp.h[p].size in sp.h
    requires p + sp.h[p].size != sp.lo && 0 < sp.h[p].size && 16 <= sp.h[p].size + sp.h[p + sp.h[p].size].size
    ensures Aligned(Joined(sp.h, p, true)) && Sized(Joined(sp.h, p, true), sp.lo)
  {
    var n := p + sp.h[p].size;
    var h := Joined(sp.h, p, true);
    assert h[p] == Block(sp.h[p].size + sp.h[n].size, true);
    AlignedSum(sp.h[p].size, sp.h[n].size) by {
      assert sp.h[p] == sp.h[p] && sp.h[n] == sp.h[n];
    }
    forall q | q in h && q != p ensures q in sp.h && h[q] == sp.h[q] {
    }
  }

  // ---------------------------------------------------------------------------
  // Initialisation
  // ---------------------------------------------------------------------------

  ghost function InitialSpace(brk: nat): Space {
    Space(brk + 8, brk + 16, map[brk + 8 := Block(8, true)])
  }

  lemma InitialFrame(m: Mem, brk: nat)
    requires 8 <= brk && brk % 8 == 0 && brk + 16 <= |m| < PTR_LIMIT && Zero(m, brk + 16, |m|)
    requires Word(m, brk + 4) == Pack(8, true) && Word(m, brk + 8) == Pack(8, true)
    requires Word(m, brk + 12) == Pack(0, true) && GetSize(Word(m, brk - 4)) == 0
    ensures Framed(m, InitialSpace(brk), {})
  {
    hide Word, Pack, GetSize;
    var sp := InitialSpace(brk);
    forall p: nat ensures NextIn(sp.h, sp.brk, p) {
    }
    assert Tagged(m, sp.h, {});
  }

  // ---------------------------------------------------------------------------
  // Placement
  // ---------------------------------------------------------------------------

  ghost predicate Fits(h: Heap, p: nat, size: nat) {
    p in h && !h[p].alloc && h[p].Cap() >= size
  }

  /** Block r was free and had room for size bytes; now it is allocated with exactly the
      aligned size, and no allocated payload has changed. */
  ghost predicate Placed(m: Mem, m': Mem, sp: Space, sp': Space, r: nat, size: nat) {
    && Fits(sp.h, r, size) && Align(size) + 8 <= sp.h[r].size
    && sp' == sp.(h := Carved(sp.h, r, Align(size) + 8))
    && LiveKept(m, m', sp.h, 0)
  }

  lemma FitSize(sp: Space, p: nat, size: nat)
    requires Shaped(sp) && Fits(sp.h, p, size)
    ensures Align(size) + 8 <= sp.h[p].size && p != sp.lo
  {
    BlockBounds(sp, p);
    assert sp.h[sp.lo] == Block(8, true);
    hide Shaped;
    LessEight(sp.h[p].size);
    AlignLeast(size, sp.h[p].size - 8);
  }

  lemma LessEight(n: nat)
    requires n % 8 == 0 && n >= 8
    ensures (n - 8) % 8 == 0
  {
  }

  lemma CarvePlaced(m: Mem, m': Mem, sp: Space, p: nat, size: nat)
    requires Fits(sp.h, p, size) && Align(size) + 8 <= sp.h[p].size
    requires CarveKept(m, m', sp.h, p, Align(size) + 8)
    ensures Placed(m, m', sp, sp.(h := Carved(sp.h, p, Align(size) + 8)), p, size)
  {
  }

  /** Stepping forward from p meets no other block on the way. */
  lemma StepForward(sp: Space, p: nat)
    requires Shaped(sp) && p in sp.h
    ensures var n := p + sp.h[p].size;
      && p < n <= sp.brk && (n in sp.h || n == sp.brk)
      && (forall q {:trigger sp.h[q]} :: q in sp.h && q < n ==> q <= p)
      && (forall q {:trigger sp.h[q]} :: q in sp.h && p < q ==> n <= q)
  {
    BlockBounds(sp, p);
    hide Gapless, Aligned, Sized;
    forall q | q in sp.h && p < q ensures p + sp.h[p].size <= q {
      assert sp.h[q] == sp.h[q] && sp.h[p] == sp.h[p];
    }
  }

  lemma FirstBlock(sp: Space)
    requires Shaped(sp)
    ensures sp.lo in sp.h && sp.lo < sp.brk
    ensures forall q {:trigger sp.h[q]} :: q in sp.h ==> sp.lo <= q < sp.brk
  {
    forall q | q in sp.h ensures sp.lo <= q < sp.brk {
      BlockBounds(sp, q);
    }
  }

  // ---------------------------------------------------------------------------
  // malloc, free and realloc
  // ---------------------------------------------------------------------------

  /** Placing a request allocates exactly one new block, of exactly the aligned size. */
  lemma PlacedLive(m: Mem, m': Mem, sp: Space, sp': Space, r: nat, size: nat)
    requires Shaped(sp) && Placed(m, m', sp, sp', r, size) && size >= 1
    ensures r !in Live(sp.h) && Live(sp'.h) == Live(sp.h)[r := Align(size) + 8] && r in sp'.h
    ensures sp' == Allotted(sp, r, Align(size) + 8)
    ensures Apart(sp.h, 0) ==> Apart(sp'.h, 0)
  {
    hide Shaped, LiveKept, Live, Carved, Apart;
    var n := Align(size) + 8;
    FitSize(sp, r, size);
    AlignBounds(size);
    LiveIff(sp.h, r);
    CarvedShape(sp, r, n);
    CarvedLive(sp.h, r, n);
    CarvedBlocks(sp.h, r, n);
    if Apart(sp.h, 0) {
      BlockBounds(sp, r);
      NoFreeNeighbour(sp, r);
      CarvedApart(sp, r, n);
    }
  }

  lemma NoFreeNeighbour(sp: Space, p: nat)
    requires Apart(sp.h, 0) && p in sp.h && !sp.h[p].alloc && p != 0
    ensures !NextFree(sp.h, p)
  {
    assert sp.h[p] == sp.h[p];
  }

  /** free marks the block before it coalesces; the merged heap is the same. */
  lemma MergedRecolored(h: Heap, bp: nat, p: nat)
    requires bp in h && h[bp].size > 0
    ensures MergeStart(Recolored(h, bp, false), bp, p) <==> MergeStart(h, bp, p)
    ensures MergeStart(h, bp, p) ==> Merged(Recolored(h, bp, false), bp, p) == Merged(h, bp, p)
  {
    var h1 := Recolored(h, bp, false);
    assert forall q :: q in h && q != bp ==> h1[q] == h[q];
    if MergeStart(h, bp, p) {
      assert MergedNext(h1, bp) == MergedNext(h, bp);
    }
  }

  /** SET_RB that frees a block. */
  lemma FreeStore(m: Mem, m': Mem, sp: Space, p: nat)
    requires Framed(m, sp, {}) && p in sp.h && p != sp.lo && Retagged(m, m', p, Block(sp.h[p].size, false))
    ensures Framed(m', sp.(h := Recolored(sp.h, p, false)), {}) && LiveKept(m, m', sp.h, p)
  {
    hide Framed, Shaped, Retagged, PayloadsKept, LiveKept;
    var h' := Recolored(sp.h, p, false);
    FramedShape(m, sp, {});
    FreedShape(sp, p);
    Relayout(m, sp, h', {p});
    Retag(m, m', sp.(h := h'), p, {p});
    assert {p} - {p} == {};
    FreedKept(m, m', sp.h, p);
  }

  lemma FreedShape(sp: Space, p: nat)
    requires Shaped(sp) && p in sp.h && p != sp.lo
    ensures Shaped(sp.(h := Recolored(sp.h, p, false)))
  {
    hide Tiling;
    RecoloredTiles(sp.h, sp.lo, sp.brk, p, false);
  }

  lemma FreedKept(m: Mem, m': Mem, h: Heap, p: nat)
    requires p in h && PayloadsKept(m, m', Recolored(h, p, false)) && |m'| == |m|
    ensures LiveKept(m, m', h, p)
  {
    hide Same;
    forall q | q in h && q != p ensures Same(m, m', q, q + h[q].Cap()) {
      assert Recolored(h, p, false)[q] == h[q];
    }
  }

  lemma FreedThrough(m: Mem, m1: Mem, m2: Mem, sp: Space, p: nat)
    requires Shaped(sp) && p in sp.h && LiveKept(m, m1, sp.h, p) && LiveKept(m1, m2, Recolored(sp.h, p, false), p)
    ensures LiveKept(m, m2, sp.h, p)
  {
    hide LiveKept;
    LiveKeptThrough(m, m1, m2, sp.h, p, Recolored(sp.h, p, false), p);
  }

  /** The effect of a successful realloc of ptr to size > 0 bytes. */
  ghost predicate Reallocated(m: Mem, m': Mem, h: Heap, h': Heap, ptr: nat, np: nat, size: nat) {
    && ptr in Live(h) && np != 0 && np !in Live(h) - {ptr}
    && Live(h') == (Live(h) - {ptr})[np := Align(size) + 8]
    && |m'| == |m| && ptr + Live(h)[ptr] - 8 <= |m|
    && (forall i {:trigger m'[i]} ::
         np <= i < np + size && i < np + Live(h)[ptr] - 8 && i < |m| ==> m'[i] == m[i - np + ptr])
  }

  /** do_malloc would fail for n bytes. */
  ghost predicate NoRoom(sp: Space, limit: nat, n: nat) {
    forall g: nat {:trigger MergeStart(sp.h, sp.brk, g)} ::
      MergeStart(sp.h, sp.brk, g) ==> !(GrowsAt(sp, g, n) && g + n <= limit)
  }

  /** The requests that realloc answers with NULL: a larger size for a block that is not the
      last one, where neither the free block behind it nor the one before it makes enough
      room, and the end of the heap cannot grow: because mem_sbrk would refuse, or because
      the last block is free and already large enough, a case that do_malloc mistakes for a
      refusal. */
  ghost predicate Stuck(sp: Space, limit: nat, ptr: nat, size: nat)
    requires ptr in sp.h
  {
    var n := Align(size) + 8;
    && sp.h[ptr].size < n && ptr + sp.h[ptr].size != sp.brk
    && (NextFree(sp.h, ptr) ==> sp.h[ptr].size + sp.h[ptr + sp.h[ptr].size].size < n)
    && (forall q {:trigger sp.h[q]} ::
         q in sp.h && !sp.h[q].alloc && q + sp.h[q].size == ptr ==> sp.h[q].size + sp.h[ptr].size < n)
    && NoRoom(sp, limit, n)
  }

  /** The requests for which tail growth would have to grow the heap, but mem_sbrk refuses. */
  ghost predicate TailRefused(sp: Space, limit: nat, ptr: nat, size: nat)
    requires ptr in sp.h
  {
    ptr + sp.h[ptr].size == sp.brk && sp.h[ptr].size < Align(size) + 8 && ptr + Align(size) + 8 > limit
  }

  /** The blocks after a realloc of ptr to a block of n bytes at np. */
  ghost function Reshaped(sp: Space, ptr: nat, np: nat, n: nat): Space
    requires ptr in sp.h
  {
    var h, b := sp.h, sp.h[ptr].size;
    if n == b then sp
    else if n < b then sp.(h := Carved(h, ptr, n))
    else if np == ptr && ptr + b in h && n <= b + h[ptr + b].size then sp.(h := Carved(Joined(h, ptr, true), ptr, n))
    else if np == ptr then Grown(sp, ptr, n)
    else if np in h && np + h[np].size == ptr && n <= h[np].size + b then sp.(h := Carved(Joined(h, np, true), np, n))
    else
      var sp1 := Grown(sp, np, n);
      sp1.(h := FreedHeap(sp1.h, ptr))
  }

  /** Where a successful realloc puts the block: where it is, if the size is not larger, or
      it is the last block, or the free block behind it makes enough room; else where the
      free block before it starts, if that makes enough room; else at the end of the heap. */
  ghost predicate Destination(sp: Space, ptr: nat, size: nat, np: nat)
    requires ptr in sp.h
  {
    var b, n := sp.h[ptr].size, Align(size) + 8;
    if n <= b || ptr + b == sp.brk || (NextFree(sp.h, ptr) && n <= b + sp.h[ptr + b].size) then np == ptr
    else if exists q {:trigger sp.h[q]} ::
              q in sp.h && !sp.h[q].alloc && q + sp.h[q].size == ptr && n <= b + sp.h[q].size
    then np in sp.h && np + sp.h[np].size == ptr
    else MergeStart(sp.h, sp.brk, np)
  }

  /** Resizing ptr splits off a free rest right before a free block: the block shrinks, or
      slides down into a free block that is more than large enough. */
  ghost predicate Splinters(h: Heap, ptr: nat, size: nat)
    requires ptr in h
  {
    var b, n := h[ptr].size, Align(size) + 8;
    && NextFree(h, ptr)
    && (n < b || (b + h[ptr + b].size < n && exists q {:trigger h[q]} ::
                    q in h && q + h[q].size == ptr && !h[q].alloc && n < b + h[q].size))
  }

  lemma JoinedApart(sp: Space, p: nat)
    requires Shaped(sp) && p in sp.h && p + sp.h[p].size in sp.h && Apart(sp.h, 0)
    ensures var h1 := Joined(sp.h, p, true);
      Apart(h1, 0) && p in h1 && (NextFree(h1, p) <==> NextFree(sp.h, p + sp.h[p].size))
  {
    var h1 := Joined(sp.h, p, true);
    BlockBounds(sp, p);
    BlockBounds(sp, p + sp.h[p].size);
    hide Shaped;
    JoinedPairs(sp.h, p);
    hide Apart;
  }

  lemma JoinedPairs(h: Heap, p: nat)
    requires p in h && p + h[p].size in h && Apart(h, 0)
    ensures Apart(Joined(h, p, true), 0)
  {
    var h1 := Joined(h, p, true);
    forall a, b | a in h1 && b in h1 && a + h1[a].size == b && a != 0 && b != 0 ensures h1[a].alloc || h1[b].alloc {
      JoinedPair(h, p, a, b);
    }
  }

  lemma JoinedPair(h: Heap, p: nat, a: nat, b: nat)
    requires p in h && p + h[p].size in h && Apart(h, 0)
    requires var h1 := Joined(h, p, true); a in h1 && b in h1 && a + h1[a].size == b && a != 0 && b != 0
    ensures var h1 := Joined(h, p, true); h1[a].alloc || h1[b].alloc
  {
    if a != p && b != p {
      assert h[a] == Joined(h, p, true)[a] && h[b] == Joined(h, p, true)[b];
    }
  }

  /** Taking n bytes out of a block joined with its free neighbours. */
  lemma JoinedCarvedApart(sp: Space, p: nat, n: nat)
    requires Shaped(sp) && p in sp.h && p != sp.lo && p + sp.h[p].size in sp.h && Apart(sp.h, 0)
    requires 16 <= n <= sp.h[p].size + sp.h[p + sp.h[p].size].size && n % 8 == 0
    ensures var h1 := Joined(sp.h, p, true);
      p in h1 && h1[p].size == sp.h[p].size + sp.h[p + sp.h[p].size].size
      && (Apart(Carved(h1, p, n), 0) <==> n == h1[p].size || !NextFree(sp.h, p + sp.h[p].size))
  {
    hide Shaped, Apart, Carved;
    BlockBounds(sp, p);
    JoinedShape(sp, p);
    JoinedApart(sp, p);
    CarvedApart(sp.(h := Joined(sp.h, p, true)), p, n);
  }

  lemma AbsorbApart(sp: Space, p: nat, n: nat)
    requires Shaped(sp) && Apart(sp.h, 0) && p in sp.h && p != sp.lo && NextFree(sp.h, p)
    requires 16 <= n <= sp.h[p].size + sp.h[p + sp.h[p].size].size && n % 8 == 0
    ensures Apart(Carved(Joined(sp.h, p, true), p, n), 0)
  {
    hide Shaped, Apart, Carved, Joined;
    BlockBounds(sp, p);
    NoFreeNeighbour(sp, p + sp.h[p].size);
    JoinedCarvedApart(sp, p, n);
  }

  lemma SlideApart(sp: Space, q: nat, ptr: nat, size: nat)
    requires Shaped(sp) && Apart(sp.h, 0) && q in sp.h && !sp.h[q].alloc && q != sp.lo && q + sp.h[q].size == ptr
    requires ptr in sp.h
    requires sp.h[ptr].size < Align(size) + 8 <= sp.h[q].size + sp.h[ptr].size && Align(size) >= 8
    requires NextFree(sp.h, ptr) ==> sp.h[ptr].size + sp.h[ptr + sp.h[ptr].size].size < Align(size) + 8
    ensures Apart(Carved(Joined(sp.h, q, true), q, Align(size) + 8), 0) <==> !Splinters(sp.h, ptr, size)
  {
    hide Shaped, Apart, Carved, Joined, Splinters;
    AlignBounds(size);
    SlideSplinters(sp, q, ptr, size);
    JoinedCarvedApart(sp, q, Align(size) + 8);
  }

  /** The free block before ptr is q. */
  lemma SlideSplinters(sp: Space, q: nat, ptr: nat, size: nat)
    requires Shaped(sp) && q in sp.h && !sp.h[q].alloc && q + sp.h[q].size == ptr && ptr in sp.h
    requires sp.h[ptr].size < Align(size) + 8
    requires NextFree(sp.h, ptr) ==> sp.h[ptr].size + sp.h[ptr + sp.h[ptr].size].size < Align(size) + 8
    ensures Splinters(sp.h, ptr, size) <==>
      NextFree(sp.h, ptr) && Align(size) + 8 < sp.h[ptr].size + sp.h[q].size
  {
    NoneInside(sp.h, sp.lo, sp.brk, q);
    hide Align, Aligned, Sized;
  }

  lemma MovesToEnd(sp: Space, ptr: nat, size: nat, q: nat, g: nat)
    requires Shaped(sp) && ptr in sp.h && sp.h[ptr].size < Align(size) + 8 && ptr + sp.h[ptr].size != sp.brk
    requires NextFree(sp.h, ptr) ==> sp.h[ptr].size + sp.h[ptr + sp.h[ptr].size].size < Align(size) + 8
    requires q in sp.h && q + sp.h[q].size == ptr
    requires (!sp.h[q].alloc ==> sp.h[ptr].size + sp.h[q].size < Align(size) + 8)
    requires MergeStart(sp.h, sp.brk, g)
    ensures Destination(sp, ptr, size, g)
  {
    NoneInside(sp.h, sp.lo, sp.brk, q);
    hide Shaped, MergeStart;
  }

  lemma NotSplintered(sp: Space, ptr: nat, size: nat, q: nat)
    requires Shaped(sp) && ptr in sp.h && q in sp.h && q + sp.h[q].size == ptr && sp.h[ptr].size < Align(size) + 8
    requires !sp.h[q].alloc ==> sp.h[ptr].size + sp.h[q].size < Align(size) + 8
    ensures !Splinters(sp.h, ptr, size)
  {
    NoneInside(sp.h, sp.lo, sp.brk, q);
  }

  /** Staying in place: a carved, joined or grown block that starts at ptr. */
  lemma KeptInPlace(m: Mem, m': Mem, h: Heap, h': Heap, ptr: nat, size: nat)
    requires ptr in h && h[ptr].alloc && ptr != 0 && |m'| == |m| && ptr + h[ptr].Cap() <= |m|
    requires Live(h') == Live(h)[ptr := Align(size) + 8]
    requires forall i {:trigger m'[i]} :: ptr <= i < ptr + h[ptr].Cap() && i < ptr + Align(size) ==> m'[i] == m[i]
    ensures Reallocated(m, m', h, h', ptr, ptr, size)
  {
    AlignBounds(size);
    assert Live(h)[ptr := Align(size) + 8] == (Live(h) - {ptr})[ptr := Align(size) + 8];
  }

  /** Shrinking, or keeping the size. */
  lemma CarvedInPlace(m: Mem, m': Mem, sp: Space, ptr: nat, size: nat)
    requires Shaped(sp) && ptr in sp.h && sp.h[ptr].alloc && ptr != 0 && sp.brk <= |m| && |m'| == |m|
    requires 0 < size && Align(size) + 8 <= sp.h[ptr].size
    requires (Align(size) + 8 < sp.h[ptr].size ==> ptr + (Align(size) + 8) !in sp.h)
    requires CarveKept(m, m', sp.h, ptr, Align(size) + 8)
    ensures Reallocated(m, m', sp.h, Carved(sp.h, ptr, Align(size) + 8), ptr, ptr, size) && LiveKept(m, m', sp.h, ptr)
  {
    hide Carved, Reallocated, Live, Align;
    BlockBounds(sp, ptr);
    hide Shaped;
    CarvedLive(sp.h, ptr, Align(size) + 8);
    KeptInPlace(m, m', sp.h, Carved(sp.h, ptr, Align(size) + 8), ptr, size);
  }

  lemma JoinedLive(h: Heap, p: nat)
    requires p in h && p + h[p].size in h && h[p].size > 0
    ensures Live(Joined(h, p, true)) == (Live(h) - {p + h[p].size})[p := h[p].size + h[p + h[p].size].size]
  {
  }

  /** Absorbing the free block behind ptr. */
  lemma AbsorbedInPlace(m: Mem, m': Mem, sp: Space, ptr: nat, size: nat)
    requires Shaped(sp) && ptr in sp.h && sp.h[ptr].alloc && ptr != 0 && sp.brk <= |m| && |m'| == |m|
    requires NextFree(sp.h, ptr)
    requires var h1, n := Joined(sp.h, ptr, true), Align(size) + 8;
      && 0 < size && sp.h[ptr].size < n <= h1[ptr].size && (n < h1[ptr].size ==> ptr + n !in h1)
      && CarveKept(m, m', h1, ptr, n)
    ensures Reallocated(m, m', sp.h, Carved(Joined(sp.h, ptr, true), ptr, Align(size) + 8), ptr, ptr, size)
    ensures LiveKept(m, m', sp.h, ptr)
  {
    hide Shaped, LiveKept, Live, Carved, Reallocated, CarveKept, Same, Align;
    var h, h1, n := sp.h, Joined(sp.h, ptr, true), Align(size) + 8;
    BlockBounds(sp, ptr);
    AlignBounds(size);
    JoinedLive(h, ptr);
    CarvedLive(h1, ptr, n);
    BlockBounds(sp, ptr + h[ptr].size);
    CarveBytes(m, m', h1, ptr, n);
    LiveIff(h, ptr + h[ptr].size);
    assert Live(Carved(h1, ptr, n)) == Live(h)[ptr := n];
    KeptInPlace(m, m', h, Carved(h1, ptr, n), ptr, size);
    AbsorbedKept(m, m', h, ptr, n);
  }

  lemma CarveBytes(m: Mem, m': Mem, h: Heap, p: nat, n: nat)
    requires CarveKept(m, m', h, p, n) && p + n - 8 <= |m|
    ensures |m'| == |m| && forall i {:trigger m'[i]} :: p <= i < p + n - 8 ==> m'[i] == m[i]
  {
  }

  lemma AbsorbedKept(m: Mem, m': Mem, h: Heap, p: nat, n: nat)
    requires p in h && p + h[p].size in h && !h[p + h[p].size].alloc && |m'| == |m|
    requires CarveKept(m, m', Joined(h, p, true), p, n)
    ensures LiveKept(m, m', h, p)
  {
    hide Same;
    forall q | q in h && h[q].alloc && q != p ensures Same(m, m', q, q + h[q].Cap()) {
      assert Joined(h, p, true)[q] == h[q];
    }
  }

  /** Sliding down into the free block q before ptr: the payload is copied first, then the
      joined block is carved. */
  lemma Slid(m: Mem, m1: Mem, m2: Mem, sp: Space, q: nat, ptr: nat, size: nat)
    requires Shaped(sp) && q in sp.h && !sp.h[q].alloc && q + sp.h[q].size == ptr && ptr in sp.h && sp.h[ptr].alloc
    requires q != 0
    requires sp.brk <= |m| == |m1| == |m2|
    requires var h1, n := Joined(sp.h, q, true), Align(size) + 8;
      && 0 < size && sp.h[ptr].size < n <= h1[q].size && (n < h1[q].size ==> q + n !in h1)
      && CarveKept(m1, m2, h1, q, n)
    requires forall i :: q <= i < q + sp.h[ptr].Cap() ==> m1[i] == m[i - q + ptr]
    requires forall r {:trigger Joined(sp.h, q, true)[r]} :: r in Joined(sp.h, q, true) && r != q ==>
      Same(m, m1, r, r + Joined(sp.h, q, true)[r].Cap())
    ensures Reallocated(m, m2, sp.h, Carved(Joined(sp.h, q, true), q, Align(size) + 8), ptr, q, size)
    ensures LiveKept(m, m2, sp.h, ptr)
  {
    hide Shaped, LiveKept, Live, Carved, CarveKept, Same, Align;
    var h, h1, n := sp.h, Joined(sp.h, q, true), Align(size) + 8;
    BlockBounds(sp, ptr);
    BlockBounds(sp, q);
    AlignBounds(size);
    JoinedLive(h, q);
    CarvedLive(h1, q, n);
    CarveBytes(m1, m2, h1, q, n);
    LiveIff(h, q);
    LiveIff(h, ptr);
    assert Live(Carved(h1, q, n)) == (Live(h) - {ptr})[q := n];
    SlidKept(m, m1, m2, h, q, n);
  }

  lemma SlidKept(m: Mem, m1: Mem, m2: Mem, h: Heap, q: nat, n: nat)
    requires q in h && !h[q].alloc && q + h[q].size in h && |m| == |m1| == |m2|
    requires CarveKept(m1, m2, Joined(h, q, true), q, n)
    requires forall r {:trigger Joined(h, q, true)[r]} :: r in Joined(h, q, true) && r != q ==>
      Same(m, m1, r, r + Joined(h, q, true)[r].Cap())
    ensures LiveKept(m, m2, h, q + h[q].size)
  {
    var h1 := Joined(h, q, true);
    forall r | r in h && h[r].alloc && r != q + h[q].size ensures Same(m, m2, r, r + h[r].Cap()) {
      assert h1[r] == h[r];
    }
  }

  /** Growing the last block. */
  lemma GrownInPlace(m: Mem, m': Mem, sp: Space, ptr: nat, size: nat)
    requires Shaped(sp) && ptr in sp.h && sp.h[ptr].alloc && ptr != 0 && sp.brk <= |m| && |m'| == |m|
    requires GrowsAt(sp, ptr, Align(size) + 8)
    requires forall q {:trigger sp.h[q]} :: q in sp.h ==> Same(m, m', q, q + sp.h[q].Cap())
    ensures Reallocated(m, m', sp.h, Grown(sp, ptr, Align(size) + 8).h, ptr, ptr, size) && LiveKept(m, m', sp.h, ptr)
  {
    BlockBounds(sp, ptr);
    GrownLive(sp, ptr, Align(size) + 8);
    assert Same(m, m', ptr, ptr + sp.h[ptr].Cap());
    KeptInPlace(m, m', sp.h, Grown(sp, ptr, Align(size) + 8).h, ptr, size);
  }

  /** The old payload of ptr is now at p; other allocated payloads are the same. */
  ghost predicate Transferred(m: Mem, m': Mem, h: Heap, ptr: nat, p: nat)
    requires ptr in h
  {
    && |m'| == |m|
    && (forall i {:trigger m'[i]} ::
         p <= i < p + h[ptr].Cap() && 0 <= i - p + ptr < |m| && 0 <= i < |m| ==> m'[i] == m[i - p + ptr])
    && (forall q {:trigger h[q]} :: q in h && h[q].alloc && q != ptr && q != p ==> Same(m, m', q, q + h[q].Cap()))
  }

  /** Copy the payload of ptr to p, free ptr, and tag p again. */
  lemma TransferSteps(m: Mem, m1: Mem, m2: Mem, m3: Mem, h: Heap, h': Heap, ptr: nat, p: nat)
    requires ptr in h && p in h && h[p].alloc && ptr != p && h[ptr].size < h[p].size && |m| == |m1| == |m2| == |m3|
    requires p + h[ptr].Cap() <= |m|
    requires forall q {:trigger h[q]} :: q in h && q != p ==> Same(m, m1, q, q + h[q].Cap())
    requires forall i :: p <= i < p + h[ptr].Cap() && 0 <= i - p + ptr < |m| ==> m1[i] == m[i - p + ptr]
    requires LiveKept(m1, m2, h, ptr) && Live(h') == Live(h) - {ptr} && PayloadsKept(m2, m3, h')
    ensures Transferred(m, m3, h, ptr, p)
  {
    forall q | q in h && h[q].alloc && q != ptr ensures Same(m1, m3, q, q + h[q].Cap()) {
      assert q in Live(h) && q in Live(h') && Live(h')[q] == Live(h)[q];
      assert h'[q].size == h[q].size;
    }
    assert Same(m1, m3, p, p + h[p].Cap());
  }

  /** Moving to a new block at g: grow, then transfer. */
  lemma MovedBlock(m: Mem, m1: Mem, m2: Mem, sp: Space, h': Heap, ptr: nat, g: nat, size: nat)
    requires Shaped(sp) && ptr in sp.h && sp.h[ptr].alloc && ptr != g && g != 0 && size > 0
    requires sp.h[ptr].size < Align(size) + 8
    requires sp.brk <= |m| == |m1| == |m2| && g + Align(size) + 8 <= |m|
    requires GrowsAt(sp, g, Align(size) + 8) && (g in sp.h ==> !sp.h[g].alloc)
    requires forall q {:trigger sp.h[q]} :: q in sp.h ==> Same(m, m1, q, q + sp.h[q].Cap())
    requires var h1 := Grown(sp, g, Align(size) + 8).h;
      ptr in h1 && h1[ptr] == sp.h[ptr] && Transferred(m1, m2, h1, ptr, g) && Live(h') == Live(h1) - {ptr}
    ensures Reallocated(m, m2, sp.h, h', ptr, g, size) && LiveKept(m, m2, sp.h, ptr)
  {
    hide Shaped, LiveKept, Live, Same, Align, Transferred;
    var h, n := sp.h, Align(size) + 8;
    BlockBounds(sp, ptr);
    AlignBounds(size);
    GrownLive(sp, g, n);
    LiveIff(h, ptr);
    LiveIff(h, g);
    assert Live(h') == (Live(h) - {ptr})[g := n];
    MovedKept(m, m1, m2, sp, ptr, g, n);
    MovedBytes(m, m1, m2, sp, ptr, g, n);
  }

  lemma MovedKept(m: Mem, m1: Mem, m2: Mem, sp: Space, ptr: nat, g: nat, n: nat)
    requires |m| == |m1| == |m2| && (g in sp.h ==> !sp.h[g].alloc) && ptr in Grown(sp, g, n).h
    requires forall q {:trigger sp.h[q]} :: q in sp.h ==> Same(m, m1, q, q + sp.h[q].Cap())
    requires Transferred(m1, m2, Grown(sp, g, n).h, ptr, g)
    ensures LiveKept(m, m2, sp.h, ptr)
  {
    var h, h1 := sp.h, Grown(sp, g, n).h;
    forall q | q in h && h[q].alloc && q != ptr ensures Same(m, m2, q, q + h[q].Cap()) {
      assert h1[q] == h[q] && q != g;
    }
  }

  lemma MovedBytes(m: Mem, m1: Mem, m2: Mem, sp: Space, ptr: nat, g: nat, n: nat)
    requires ptr in sp.h && |m| == |m1| == |m2| && ptr + sp.h[ptr].Cap() <= |m|
    requires forall q {:trigger sp.h[q]} :: q in sp.h ==> Same(m, m1, q, q + sp.h[q].Cap())
    requires ptr in Grown(sp, g, n).h && Grown(sp, g, n).h[ptr] == sp.h[ptr]
    requires Transferred(m1, m2, Grown(sp, g, n).h, ptr, g)
    ensures forall i {:trigger m2[i]} :: g <= i < g + sp.h[ptr].Cap() && i < |m| ==> m2[i] == m[i - g + ptr]
  {
    assert Same(m, m1, ptr, ptr + sp.h[ptr].Cap());
  }
}
