/** The allocated blocks of a heap, and how freeing, merging and cutting blocks affects
    them. Shared by both allocators. */
module LiveBlocks {
  import opened Memory
  import opened Blocks

  /** The allocated blocks and their sizes. */
  ghost function Live(h: Heap): map<nat, nat> {
    map q | q in h && h[q].alloc :: h[q].size
  }

  lemma LiveIff(h: Heap, p: nat)
    ensures p in Live(h) <==> p in h && h[p].alloc
    ensures p in Live(h) ==> Live(h)[p] == h[p].size
  {
  }

  /** The payload bytes of all allocated blocks of h other than x are the same in m and m'. */
  ghost predicate LiveKept(m: Mem, m': Mem, h: Heap, x: nat) {
    |m'| == |m| && forall q {:trigger h[q]} :: q in h && h[q].alloc && q != x ==> Same(m, m', q, q + h[q].Cap())
  }

  lemma LiveKeptSelf(m: Mem, h: Heap, x: nat)
    ensures LiveKept(m, m, h, x)
  {
  }

  lemma LiveKeptTrans(m: Mem, m1: Mem, m2: Mem, h: Heap, x: nat)
    requires LiveKept(m, m1, h, x) && LiveKept(m1, m2, h, x)
    ensures LiveKept(m, m2, h, x)
  {
  }

  lemma LiveKeptWeaken(m: Mem, m': Mem, h: Heap, x: nat)
    requires LiveKept(m, m', h, 0) && 0 !in h
    ensures LiveKept(m, m', h, x)
  {
  }

  lemma FreeKept(m: Mem, m': Mem, h: Heap, x: nat)
    requires LiveKept(m, m', h, x) && (x in h ==> !h[x].alloc)
    ensures LiveKept(m, m', h, 0)
  {
  }

  // ---------------------------------------------------------------------------
  // Merging a block with its free neighbours
  // ---------------------------------------------------------------------------

  ghost predicate NextFree(h: Heap, bp: nat)
    requires bp in h
  {
    bp + h[bp].size in h && !h[bp + h[bp].size].alloc
  }

  /** Block bp freed and joined with the following block if that is free. */
  ghost function MergedNext(h: Heap, bp: nat): Heap
    requires bp in h
  {
    if NextFree(h, bp) then Joined(h, bp, false) else Recolored(h, bp, false)
  }

  /** p is where the block that swallows bp starts: the preceding block if that is free,
      else bp itself. */
  ghost predicate MergeStart(h: Heap, bp: nat, p: nat) {
    if p == bp then forall q {:trigger h[q]} :: q in h && q + h[q].size == bp ==> h[q].alloc
    else p in h && !h[p].alloc && p + h[p].size == bp
  }

  lemma MergeStartUnique(h: Heap, lo: nat, hi: nat, bp: nat, g: nat, g': nat)
    requires Layout(h, lo, hi) && MergeStart(h, bp, g) && MergeStart(h, bp, g')
    ensures g == g'
  {
    assert g in h ==> h[g] == h[g];
    assert g' in h ==> h[g'] == h[g'];
  }

  /** Block bp freed and joined with its free neighbours. */
  ghost function Merged(h: Heap, bp: nat, p: nat): Heap
    requires bp in h && MergeStart(h, bp, p)
  {
    var h1 := MergedNext(h, bp);
    if p == bp then h1 else
      (h1 - {bp})[p := Block(h[p].size + h1[bp].size, false)]
  }

  /** Where the block begins that results from freeing p. */
  ghost function MergePoint(h: Heap, p: nat): nat {
    if exists q {:trigger h[q]} :: q in h && !h[q].alloc && q + h[q].size == p then
      var q: nat :| q in h && !h[q].alloc && q + h[q].size == p;
      q
    else p
  }

  lemma MergePointStarts(h: Heap, lo: nat, hi: nat, p: nat)
    requires Layout(h, lo, hi) && p in h
    ensures MergeStart(h, p, MergePoint(h, p))
  {
    assert BlockIn(p, h[p], lo, hi);
  }

  /** The blocks after freeing p. */
  ghost function FreedHeap(h: Heap, p: nat): Heap {
    if p in h && MergeStart(h, p, MergePoint(h, p)) then Merged(h, p, MergePoint(h, p)) else h
  }

  lemma FreedHeapIs(h: Heap, lo: nat, hi: nat, p: nat, q: nat)
    requires Layout(h, lo, hi) && p in h && MergeStart(h, p, q)
    ensures q == MergePoint(h, p) && FreedHeap(h, p) == Merged(h, p, q)
  {
    MergePointStarts(h, lo, hi, p);
    MergeStartUnique(h, lo, hi, p, q, MergePoint(h, p));
  }

  lemma MergedBlock(h: Heap, bp: nat, p: nat)
    requires bp in h && MergeStart(h, bp, p)
    ensures p in Merged(h, bp, p)
    ensures Merged(h, bp, p)[p] ==
            Block((if p == bp then 0 else h[p].size) + h[bp].size
                  + (if NextFree(h, bp) then h[bp + h[bp].size].size else 0), false)
  {
  }

  lemma MergedSize(h: Heap, bp: nat, p: nat)
    requires Aligned(h) && bp in h && MergeStart(h, bp, p)
    ensures p in Merged(h, bp, p) && p in h && p % 8 == 0 && Merged(h, bp, p)[p].size % 8 == 0
    ensures !Merged(h, bp, p)[p].alloc
  {
    var e := bp + h[bp].size;
    var tail := if NextFree(h, bp) then h[e].size else 0;
    var head := if p == bp then 0 else h[p].size;
    assert h[p] == h[p];
    MergedBlock(h, bp, p);
    hide *;
    AlignedSum(head, h[bp].size);
    AlignedSum(head + h[bp].size, tail);
  }

  lemma MergedLive(m: Mem, m': Mem, h: Heap, bp: nat, p: nat)
    requires bp in h && MergeStart(h, bp, p) && PayloadsKept(m, m', Merged(h, bp, p)) && |m'| == |m|
    ensures LiveKept(m, m', h, bp)
  {
    hide Same;
    var h' := Merged(h, bp, p);
    forall q | q in h && h[q].alloc && q != bp ensures Same(m, m', q, q + h[q].Cap()) {
      assert h'[q] == h[q];
    }
  }

  lemma MergedLiveMap(h: Heap, bp: nat, p: nat)
    requires bp in h && MergeStart(h, bp, p)
    ensures Live(Merged(h, bp, p)) == Live(h) - {bp}
  {
    var h' := Merged(h, bp, p);
    forall q ensures (q in h' && h'[q].alloc) <==> (q in h && h[q].alloc && q != bp) {
      if q in h' && q != p { assert h'[q] == h[q]; }
    }
    forall q | q in h' && h'[q].alloc ensures h'[q] == h[q] {
    }
  }

  lemma LiveKeptThrough(m: Mem, m1: Mem, m2: Mem, h: Heap, x: nat, h1: Heap, x1: nat)
    requires LiveKept(m, m1, h, x) && LiveKept(m1, m2, h1, x1)
    requires forall q {:trigger h[q]} :: q in h && h[q].alloc && q != x ==> q in h1 && h1[q] == h[q] && q != x1
    ensures LiveKept(m, m2, h, x)
  {
    forall q | q in h && h[q].alloc && q != x ensures Same(m, m2, q, q + h[q].Cap()) {
      assert h1[q] == h[q];
    }
  }

  lemma MergedTiles(h: Heap, lo: nat, hi: nat, bp: nat, p: nat)
    requires Tiling(h, lo, hi) && bp in h && MergeStart(h, bp, p)
    ensures Tiling(Merged(h, bp, p), lo, hi)
  {
    hide Gapless;
    var h1 := MergedNext(h, bp);
    assert BlockIn(bp, h[bp], lo, hi);
    assert p != bp ==> BlockIn(p, h[p], lo, hi);
    hide *;
    if NextFree(h, bp) {
      JoinedTiles(h, lo, hi, bp, false);
    } else {
      RecoloredTiles(h, lo, hi, bp, false);
    }
    if p != bp {
      MergedPrev(h, bp, p);
      JoinedTiles(h1, lo, hi, p, false);
    }
  }

  lemma MergedPrev(h: Heap, bp: nat, p: nat)
    requires bp in h && MergeStart(h, bp, p) && p != bp && h[bp].size > 0 && h[p].size > 0
    ensures var h1 := MergedNext(h, bp);
      p in h1 && h1[p] == h[p] && p + h1[p].size == bp && bp in h1 && Merged(h, bp, p) == Joined(h1, p, false)
  {
  }

  /** Allocating a block keeps free blocks apart. */
  lemma RecoloredApart(h: Heap, p: nat)
    requires p in h && Apart(h, 0)
    ensures Apart(Recolored(h, p, true), 0)
  {
    var h' := Recolored(h, p, true);
    forall a, b | a in h' && b in h' && a + h'[a].size == b && a != 0 && b != 0 ensures h'[a].alloc || h'[b].alloc {
      assert h[a].size == h'[a].size && h[b].size == h'[b].size;
    }
  }

  /** If free blocks were apart up to bp, merging bp makes them apart altogether. */
  lemma MergedApart(h: Heap, lo: nat, hi: nat, bp: nat, p: nat)
    requires Layout(h, lo, hi) && bp in h && MergeStart(h, bp, p) && Apart(h, bp)
    ensures Apart(Merged(h, bp, p), 0)
  {
    var h' := Merged(h, bp, p);
    MergedBlock(h, bp, p);
    NotFollowed(h, lo, hi, bp, p);
    hide Merged, Layout, MergeStart;
    forall a | a in h' && NextFree(h', a) && a != p ensures h'[a].alloc {
      NotBefore(h, bp, p, a);
    }
  }

  /** Nor does the merged block, or any other, follow a free one. */
  lemma NotBefore(h: Heap, bp: nat, p: nat, a: nat)
    requires bp in h && MergeStart(h, bp, p) && Apart(h, bp)
    requires a in Merged(h, bp, p) && a != p && p in Merged(h, bp, p) && NextFree(Merged(h, bp, p), a)
    ensures Merged(h, bp, p)[a].alloc
  {
    var h' := Merged(h, bp, p);
    var b := a + h'[a].size;
    MergedMember(h, bp, p, a);
    if b != p { MergedMember(h, bp, p, b); }
    hide Merged;
    assert p != bp ==> h[p] == h[p];
  }

  /** The blocks other than the merged one are not new. */
  lemma MergedMember(h: Heap, bp: nat, p: nat, a: nat)
    requires bp in h && MergeStart(h, bp, p) && a in Merged(h, bp, p) && a != p
    ensures a in h && a != bp && Merged(h, bp, p)[a] == h[a]
  {
  }

  /** No free block follows the merged one. */
  lemma NotFollowed(h: Heap, lo: nat, hi: nat, bp: nat, p: nat)
    requires Layout(h, lo, hi) && bp in h && MergeStart(h, bp, p) && Apart(h, bp)
    ensures p in Merged(h, bp, p) && !NextFree(Merged(h, bp, p), p)
  {
    var h', n := Merged(h, bp, p), bp + h[bp].size;
    MergedBlock(h, bp, p);
    var e := p + h'[p].size;
    assert BlockIn(bp, h[bp], lo, hi);
    assert p != bp ==> BlockIn(p, h[p], lo, hi);
    assert NextFree(h, bp) ==> BlockIn(n, h[n], lo, hi);
    hide Layout;
    if e in h' {
      MergedMember(h, bp, p, e);
      hide Merged;
    }
  }

  /** Cutting an allocated front off p leaves free blocks apart, up to the free rest. */
  lemma SplitApart(h: Heap, lo: nat, hi: nat, p: nat, n: nat)
    requires Layout(h, lo, hi) && lo > 0 && p in h && 8 <= n && n + 8 <= h[p].size && Apart(h, 0)
    ensures Apart(Split(h, p, n, true, false), p + n)
  {
    var r := p + n;
    var h' := Split(h, p, n, true, false);
    assert BlockIn(p, h[p], lo, hi);
    forall a, b | a in h' && b in h' && a + h'[a].size == b && a != r && b != r && a != p && b != p
      ensures h'[a].alloc || h'[b].alloc
    {
      assert BlockIn(a, h[a], lo, hi);
      assert h'[a] == h[a] && h'[b] == h[b];
    }
  }

  // ---------------------------------------------------------------------------
  // What an allocator's user sees
  // ---------------------------------------------------------------------------

  /** h' has the allocated blocks of h and a new one at r, with room for size bytes and at
      most 8 bytes more than the aligned request. */
  ghost predicate Gained(h: Heap, h': Heap, r: nat, size: nat) {
    && r in h' && r !in Live(h)
    && (h'[r].Cap() == Align(size) || h'[r].Cap() == Align(size) + 8)
    && Live(h') == Live(h)[r := h'[r].size]
  }

  /** The effect of a successful realloc of ptr to size > 0 bytes. */
  ghost predicate Resized(m: Mem, m': Mem, h: Heap, h': Heap, ptr: nat, np: nat, size: nat) {
    && ptr in Live(h) && np in Live(h') && np != 0
    && (Live(h')[np] == Align(size) + 8 || Live(h')[np] == Align(size) + 16)
    && (np != ptr ==> np !in Live(h))
    && Live(h') == (Live(h) - {ptr})[np := Live(h')[np]]
    && |m'| == |m| && ptr + Live(h)[ptr] - 8 <= |m|
    && (forall i {:trigger m'[i]} ::
         np <= i < np + size && i < np + Live(h)[ptr] - 8 && i < |m| ==> m'[i] == m[i - np + ptr])
  }

  /** Aligned, disjoint blocks between lo and brk: a prologue of 8 bytes at lo, and allocated
      blocks that have a payload. */
  ghost predicate Sound(h: Heap, lo: nat, brk: nat) {
    && Layout(h, lo, brk) && Aligned(h) && lo in h && h[lo] == Block(8, true) && 0 !in h
    && forall p {:trigger h[p]} :: p in h && h[p].alloc && p != lo ==> h[p].size >= 16
  }

  /** Live payloads are 8-aligned, lie between the prologue and the end of the heap, and are
      pairwise disjoint. */
  lemma PayloadsPlaced(h: Heap, lo: nat, brk: nat, p: nat, q: nat)
    requires Sound(h, lo, brk) && p in Live(h) && q in Live(h) && p != lo && q != lo
    ensures var n := Live(h)[p] - 8;
      && p % 8 == 0 && n >= 8 && lo + 8 <= p && p + n < brk
      && (p != q ==> p + n <= q || q + (Live(h)[q] - 8) <= p)
  {
    assert h[p] == h[p] && h[q] == h[q] && h[lo] == Block(8, true);
  }
}
