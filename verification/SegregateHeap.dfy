/** The invariant of the segregated-fit allocator, and what its stores do to it. */
module SegregateHeap {
  import opened Memory
  import opened Blocks
  import opened LiveBlocks
  import opened SizeClass
  import opened FreeLists

  /** BLK_MIN_SIZE */
  const BLK_MIN_SIZE: nat := 16

  /** Where the table and the heap end are, and the blocks by payload pointer. */
  datatype Arena = Arena(tbl: nat, brk: nat, h: Heap) {
    /** heap_listp: the prologue block, behind the table, the padding and its own header. */
    function Lo(): nat { tbl + 96 }
  }

  /** The abstract state behind a memory: the blocks, the list nodes, the insertion clock. */
  datatype State = State(ar: Arena, nd: Nodes, ctr: nat)

  /** The prologue is an allocated block of size 8; every other block has at least 16 bytes. */
  ghost predicate Sized(h: Heap, lo: nat) {
    lo in h && h[lo] == Block(8, true) && forall p {:trigger h[p]} :: p in h && p != lo ==> h[p].size >= BLK_MIN_SIZE
  }

  /** Nodes are free blocks of more than 16 bytes, in the slot of their capacity. */
  ghost predicate NodesFree(h: Heap, nd: Nodes) {
    forall p {:trigger nd[p]} ::
      p in nd ==> p in h && !h[p].alloc && h[p].size > BLK_MIN_SIZE && nd[p].slot == FltClass(h[p].size - 8)
  }

  /** Conversely, every free block of more than 16 bytes, except possibly x, is a node. */
  ghost predicate FreeListed(h: Heap, nd: Nodes, x: nat) {
    forall p {:trigger h[p]} :: p in h && !h[p].alloc && h[p].size > BLK_MIN_SIZE && p != x ==> p in nd
  }

  ghost predicate Shaped(ar: Arena) {
    && 8 <= ar.tbl && ar.Lo() + 8 <= ar.brk
    && Tiling(ar.h, ar.Lo(), ar.brk) && Aligned(ar.h) && Sized(ar.h, ar.Lo())
  }

  /** The blocks and their tags, except for the tags of the blocks in x. */
  ghost predicate Framed(m: Mem, ar: Arena, x: set<nat>) {
    Shaped(ar) && ar.brk <= |m| < PTR_LIMIT && Tagged(m, ar.h, x) && Word(m, ar.brk - 4) == Pack(0, true)
  }

  /** The blocks, their tags, and the lists that thread some of the free ones. */
  ghost predicate Core(m: Mem, s: State) {
    && Framed(m, s.ar, {})
    && Linked(m, s.ar.tbl, s.nd) && Stamped(s.nd, s.ctr) && NodesFree(s.ar.h, s.nd)
  }

  /** What every operation of the allocator keeps. */
  ghost predicate HeapOk(m: Mem, s: State) {
    Core(m, s) && FreeListed(s.ar.h, s.nd, 0) && Apart(s.ar.h, 0)
  }

  lemma FramedShape(m: Mem, ar: Arena, x: set<nat>)
    requires Framed(m, ar, x)
    ensures Shaped(ar) && 8 <= ar.tbl && ar.Lo() + 8 <= ar.brk <= |m| && 0 !in ar.h
    ensures ar.Lo() in ar.h && ar.h[ar.Lo()] == Block(8, true)
  {
    assert 0 in ar.h ==> BlockIn(0, ar.h[0], ar.Lo(), ar.brk);
  }

  lemma NodeRoom(m: Mem, ar: Arena, nd: Nodes, x: set<nat>, p: nat)
    requires Framed(m, ar, x) && NodesFree(ar.h, nd) && p in nd
    ensures p in ar.h && !ar.h[p].alloc && ar.h[p].size >= 24 && ar.tbl + 104 <= p && p + ar.h[p].size <= ar.brk
  {
    assert nd[p] == nd[p];
    assert ar.h[p] == ar.h[p] && ar.h[ar.Lo()] == Block(8, true);
  }

  lemma NodesSpread(m: Mem, ar: Arena, nd: Nodes, x: set<nat>)
    requires Framed(m, ar, x) && NodesFree(ar.h, nd)
    ensures Spread(m, ar.tbl, nd)
  {
    forall p | p in nd ensures ar.tbl + 104 <= p && p + 16 <= ar.brk {
      assert nd[p] == nd[p];
      assert ar.h[p] == ar.h[p] && ar.h[ar.Lo()] == Block(8, true);
    }
    forall p, q | p in nd && q in nd && p < q ensures p + 16 <= q {
      assert nd[p] == nd[p];
      assert ar.h[p] == ar.h[p] && ar.h[q] == ar.h[q];
    }
  }

  /** A write below the prologue's header, such as one to the table, misses all blocks. */
  lemma LowWrite(m: Mem, m': Mem, ar: Arena, a: nat, n: nat)
    requires Framed(m, ar, {}) && a + n <= ar.Lo() - 4 && Only(m, m', a, n)
    ensures Framed(m', ar, {}) && PayloadsKept(m, m', ar.h)
  {
    hide Gapless, Aligned, Sized, Word, Pack;
    forall q | q in ar.h ensures TagAt(m', q, ar.h[q]) && Same(m, m', q, q + ar.h[q].Cap()) {
      WordSame(m, m', q - 4);
      WordSame(m, m', q + ar.h[q].size - 8);
    }
    WordSame(m, m', ar.brk - 4);
  }

  /** A write inside one block's payload leaves the tags and all other payloads alone. */
  lemma InnerWrite(m: Mem, m': Mem, ar: Arena, p: nat, a: nat, n: nat)
    requires Framed(m, ar, {}) && p in ar.h && p <= a && a + n <= p + ar.h[p].Cap() && Only(m, m', a, n)
    ensures Framed(m', ar, {})
    ensures forall q {:trigger ar.h[q]} :: q in ar.h && q != p ==> Same(m, m', q, q + ar.h[q].Cap())
  {
    hide Tagged, Layout, Gapless, Aligned, Sized, Word, Pack;
    PayloadWrite(m, m', ar.h, ar.Lo(), ar.brk, p, a, n, {});
    WordSame(m, m', ar.brk - 4);
  }

  lemma NodeStore(m: Mem, m': Mem, ar: Arena, p: nat, a: nat)
    requires Framed(m, ar, {}) && p in ar.h && !ar.h[p].alloc && p <= a && a + 8 <= p + ar.h[p].Cap()
    requires Only(m, m', a, 8)
    ensures Framed(m', ar, {}) && LiveKept(m, m', ar.h, 0)
  {
    hide Framed, Same;
    InnerWrite(m, m', ar, p, a, 8);
  }

  /** Storing a link keeps the tags and every allocated payload. */
  lemma CellStore(m: Mem, m': Mem, ar: Arena, nd: Nodes, a: nat)
    requires Framed(m, ar, {}) && NodesFree(ar.h, nd) && Cell(ar.tbl, nd, a) && Only(m, m', a, 8)
    ensures Framed(m', ar, {}) && LiveKept(m, m', ar.h, 0)
  {
    hide Framed, Same, Only;
    if a in nd || (a >= 8 && a - 8 in nd) {
      var p := if a in nd then a else a - 8;
      NodeRoom(m, ar, nd, {}, p);
      NodeStore(m, m', ar, p, a);
    } else {
      LowStore(m, m', ar, a);
    }
  }

  lemma LowStore(m: Mem, m': Mem, ar: Arena, a: nat)
    requires Framed(m, ar, {}) && a <= ar.tbl + 80 && Only(m, m', a, 8)
    ensures Framed(m', ar, {}) && LiveKept(m, m', ar.h, 0)
  {
    LowWrite(m, m', ar, a, 8);
  }

  /** Re-reading the same memory as a different tiling: the blocks that changed are untagged. */
  lemma Relayout(m: Mem, ar: Arena, h': Heap, x: set<nat>)
    requires Framed(m, ar, {}) && Shaped(ar.(h := h'))
    requires forall q {:trigger h'[q]} :: q in h' && q !in x ==> q in ar.h && ar.h[q] == h'[q]
    ensures Framed(m, ar.(h := h'), x)
  {
    hide Shaped;
  }

  /** SET_BLK on a block of the tiling. */
  lemma Retag(m: Mem, m': Mem, ar: Arena, p: nat, x: set<nat>)
    requires Framed(m, ar, x) && p in ar.h && p != ar.Lo() && Retagged(m, m', p, ar.h[p])
    ensures Framed(m', ar, x - {p}) && PayloadsKept(m, m', ar.h) && Same(m, m', ar.tbl, ar.tbl + 88)
    ensures |m'| == |m|
  {
    RetagOne(m, m', ar.h, ar.Lo(), ar.brk, p, x);
    assert BlockIn(p, ar.h[p], ar.Lo(), ar.brk) && ar.h[ar.Lo()] == Block(8, true);
    WordSame(m, m', ar.brk - 4);
  }

  lemma TableKept(m: Mem, m': Mem, tbl: nat)
    requires Same(m, m', tbl, tbl + 88)
    ensures Ptr(m', tbl) == Ptr(m, tbl)
  {
    PtrSame(m, m', tbl);
  }

  lemma BelowWrite(m: Mem, m': Mem, tbl: nat, a: nat, n: nat)
    requires tbl + 8 <= a && Only(m, m', a, n)
    ensures Ptr(m', tbl) == Ptr(m, tbl)
  {
    PtrSame(m, m', tbl);
  }

  /** Tag writes leave the lists alone. */
  lemma RetagLinks(m: Mem, m': Mem, ar: Arena, nd: Nodes, x: set<nat>)
    requires Framed(m', ar, x) && NodesFree(ar.h, nd) && Linked(m, ar.tbl, nd)
    requires PayloadsKept(m, m', ar.h) && Same(m, m', ar.tbl, ar.tbl + 88)
    ensures Linked(m', ar.tbl, nd)
  {
    hide Framed, Linked;
    NodesSpread(m', ar, nd, x);
    forall p | p in nd ensures Same(m, m', p, p + 16) {
      NodeRoom(m', ar, nd, x, p);
      assert ar.h[p] == ar.h[p];
    }
    LinkedFrame(m, m', ar.tbl, nd);
  }

  // ---------------------------------------------------------------------------
  // FREELIST_DEL_BLK and freelist_insert2
  // ---------------------------------------------------------------------------

  /** The two stores of FREELIST_DEL_BLK on a node. */
  lemma Unlink(m: Mem, m1: Mem, m2: Mem, s: State, p: nat)
    requires Core(m, s) && p in s.nd
    requires Ptr(m1, Ptr(m, p + 8)) == Ptr(m, p) && Only(m, m1, Ptr(m, p + 8), 8)
    requires if Ptr(m, p) == 0 then m2 == m1
             else Ptr(m2, Ptr(m, p) + 8) == Ptr(m, p + 8) && Only(m1, m2, Ptr(m, p) + 8, 8)
    ensures Core(m2, s.(nd := s.nd - {p})) && LiveKept(m, m2, s.ar.h, 0)
    ensures Ptr(m2, s.ar.tbl) == Ptr(m, s.ar.tbl)
  {
    hide Framed, Linked, Spread, NodesFree, Stamped, LiveKept, Bypassed, Only, Ptr;
    NodesSpread(m, s.ar, s.nd, {});
    BypassStores(m, m1, m2, s.ar.tbl, s.nd, p);
    BypassedZero(m, m2, s.ar.tbl, s.nd, p);
    BypassedLinked(m, m2, s.ar.tbl, s.nd, p);
    UnlinkFrame(m, m1, m2, s, p);
    UnlinkNodes(s, p);
  }

  lemma UnlinkFrame(m: Mem, m1: Mem, m2: Mem, s: State, p: nat)
    requires Core(m, s) && p in s.nd
    requires Only(m, m1, Ptr(m, p + 8), 8)
    requires if Ptr(m, p) == 0 then m2 == m1 else Only(m1, m2, Ptr(m, p) + 8, 8)
    ensures Framed(m2, s.ar, {}) && LiveKept(m, m2, s.ar.h, 0)
  {
    hide Framed, NodesFree, Stamped, LiveKept, Only;
    assert NodeOk(m, s.ar.tbl, s.nd, p);
    assert Cell(s.ar.tbl, s.nd, Ptr(m, p + 8));
    CellStore(m, m1, s.ar, s.nd, Ptr(m, p + 8));
    if Ptr(m, p) != 0 {
      assert Cell(s.ar.tbl, s.nd, Ptr(m, p) + 8);
      CellStore(m1, m2, s.ar, s.nd, Ptr(m, p) + 8);
      LiveKeptTrans(m, m1, m2, s.ar.h, 0);
    }
  }

  lemma UnlinkNodes(s: State, p: nat)
    requires NodesFree(s.ar.h, s.nd) && Stamped(s.nd, s.ctr)
    ensures NodesFree(s.ar.h, s.nd - {p}) && Stamped(s.nd - {p}, s.ctr)
  {
    var nd' := s.nd - {p};
    assert forall q :: q in nd' ==> nd'[q] == s.nd[q];
  }

  /** The four stores of freelist_insert2 on a block of more than 16 bytes. */
  lemma Push(m: Mem, m1: Mem, m2: Mem, m3: Mem, m4: Mem, s: State, p: nat, i: nat)
    requires Core(m, s) && p in s.ar.h && !s.ar.h[p].alloc && s.ar.h[p].size > BLK_MIN_SIZE && p !in s.nd
    requires i == FltClass(s.ar.h[p].size - 8)
    requires Ptr(m1, p) == Ptr(m, s.ar.tbl + 8 * i) && Only(m, m1, p, 8)
    requires Ptr(m2, p + 8) == s.ar.tbl + 8 * i && Only(m1, m2, p + 8, 8)
    requires Ptr(m3, s.ar.tbl + 8 * i) == p && Only(m2, m3, s.ar.tbl + 8 * i, 8)
    requires var h := Ptr(m, s.ar.tbl + 8 * i);
             if h == 0 then m4 == m3 else Ptr(m4, h + 8) == p && Only(m3, m4, h + 8, 8)
    ensures Core(m4, s.(nd := s.nd[p := Node(i, s.ctr)], ctr := s.ctr + 1)) && LiveKept(m, m4, s.ar.h, 0)
    ensures Ptr(m4, s.ar.tbl) == Ptr(m, s.ar.tbl)
  {
    hide Framed, Spread, NodesFree, Stamped, LiveKept, Pushed, Only, FltClass, Ptr;
    var nd' := s.nd[p := Node(i, s.ctr)];
    PushNodesFree(s, p, i);
    NodesSpread(m, s.ar, nd', {});
    assert SlotOk(m, s.ar.tbl, s.nd, i);
    PushStores(m, m1, m2, m3, m4, s.ar.tbl, nd', p, i);
    PushedLinked(m, m4, s.ar.tbl, s.nd, p, i, s.ctr);
    PushedZero(m, m4, s.ar.tbl, nd', p, i);
    PushFrame(m, m1, m2, m3, m4, s.ar, nd', p, i);
  }

  lemma PushNodesFree(s: State, p: nat, i: nat)
    requires NodesFree(s.ar.h, s.nd) && p in s.ar.h && !s.ar.h[p].alloc && s.ar.h[p].size > BLK_MIN_SIZE
    requires i == FltClass(s.ar.h[p].size - 8)
    ensures 1 <= i <= 10 && NodesFree(s.ar.h, s.nd[p := Node(i, s.ctr)])
  {
    var nd' := s.nd[p := Node(i, s.ctr)];
    assert forall q :: q in nd' && q != p ==> nd'[q] == s.nd[q];
  }

  lemma PushFrame(m: Mem, m1: Mem, m2: Mem, m3: Mem, m4: Mem, ar: Arena, nd: Nodes, p: nat, i: nat)
    requires Framed(m, ar, {}) && NodesFree(ar.h, nd) && p in nd && i <= 10
    requires Only(m, m1, p, 8) && Only(m1, m2, p + 8, 8) && Only(m2, m3, ar.tbl + 8 * i, 8)
    requires var h := Ptr(m, ar.tbl + 8 * i); if h == 0 then m4 == m3 else h in nd && Only(m3, m4, h + 8, 8)
    ensures Framed(m4, ar, {}) && LiveKept(m, m4, ar.h, 0)
  {
    hide Framed, NodesFree, LiveKept, Only;
    assert Cell(ar.tbl, nd, p) && Cell(ar.tbl, nd, p + 8) && Cell(ar.tbl, nd, ar.tbl + 8 * i);
    CellStore(m, m1, ar, nd, p);
    CellStore(m1, m2, ar, nd, p + 8);
    CellStore(m2, m3, ar, nd, ar.tbl + 8 * i);
    LiveKeptTrans(m, m1, m2, ar.h, 0);
    LiveKeptTrans(m, m2, m3, ar.h, 0);
    var h := Ptr(m, ar.tbl + 8 * i);
    if h != 0 {
      assert Cell(ar.tbl, nd, h + 8);
      CellStore(m3, m4, ar, nd, h + 8);
      LiveKeptTrans(m, m3, m4, ar.h, 0);
    }
  }

  /** The two stores of freelist_insert2 on a 16-byte block: it is put in front of slot 0,
      which no list invariant mentions. */
  lemma PushSmall(m: Mem, m1: Mem, m2: Mem, s: State, p: nat)
    requires Core(m, s) && p in s.ar.h && !s.ar.h[p].alloc && s.ar.h[p].size == BLK_MIN_SIZE
    requires Only(m, m1, p, 8) && Only(m1, m2, s.ar.tbl, 8)
    ensures Core(m2, s) && LiveKept(m, m2, s.ar.h, 0) && Ptr(m2, p) == Ptr(m1, p)
  {
    assert BlockIn(p, s.ar.h[p], s.ar.Lo(), s.ar.brk);
    PtrSame(m1, m2, p);
    hide Framed, NodesFree, LiveKept, Only, Linked, Stamped;
    NodeStore(m, m1, s.ar, p, p);
    LowStore(m1, m2, s.ar, s.ar.tbl);
    LiveKeptTrans(m, m1, m2, s.ar.h, 0);
    PushSmallLinks(m, m1, m2, s, p);
  }

  lemma PushSmallLinks(m: Mem, m1: Mem, m2: Mem, s: State, p: nat)
    requires Core(m, s) && p in s.ar.h && !s.ar.h[p].alloc && s.ar.h[p].size == BLK_MIN_SIZE
    requires Only(m, m1, p, 8) && Only(m1, m2, s.ar.tbl, 8)
    ensures Linked(m2, s.ar.tbl, s.nd)
  {
    hide Linked, Spread, Stamped, Tagged;
    NodesSpread(m, s.ar, s.nd, {});
    InnerWrite(m, m1, s.ar, p, p, 8);
    assert s.ar.h[p] == s.ar.h[p] && s.ar.h[s.ar.Lo()] == Block(8, true);
    forall q | q in s.nd ensures Same(m, m1, q, q + 16) {
      assert s.nd[q] == s.nd[q];
      assert s.ar.h[q] == s.ar.h[q];
    }
    LinkedFrame(m, m1, s.ar.tbl, s.nd);
    Slot0Write(m1, m2, s.ar.tbl, s.nd);
  }

  lemma Slot0Write(m: Mem, m': Mem, tbl: nat, nd: Nodes)
    requires Spread(m, tbl, nd) && Linked(m, tbl, nd) && Only(m, m', tbl, 8)
    ensures Linked(m', tbl, nd)
  {
    assert Cell(tbl, nd, tbl + 8 * 0);
    CellWrite(m, m', tbl, nd, tbl);
    forall i: nat ensures SlotOk(m', tbl, nd, i) {
      assert SlotOk(m, tbl, nd, i);
      if 1 <= i <= 10 {
        assert Cell(tbl, nd, tbl + 8 * i);
        var n := Ptr(m, tbl + 8 * i);
        assert n != 0 ==> Cell(tbl, nd, n + 8);
      }
    }
    forall p: nat ensures NodeOk(m', tbl, nd, p) {
      assert NodeOk(m, tbl, nd, p);
      if p in nd {
        var n, q := Ptr(m, p), Ptr(m, p + 8);
        assert nd[p] == nd[p];
        assert Cell(tbl, nd, p) && Cell(tbl, nd, p + 8) && Cell(tbl, nd, q);
        assert n != 0 ==> Cell(tbl, nd, n + 8);
      }
    }
  }

  // ---------------------------------------------------------------------------
  // coalesce
  // ---------------------------------------------------------------------------

  lemma MergedShape(ar: Arena, bp: nat, p: nat)
    requires Shaped(ar) && bp in ar.h && bp != ar.Lo() && MergeStart(ar.h, bp, p)
    ensures Shaped(ar.(h := Merged(ar.h, bp, p))) && p != ar.Lo()
  {
    SplitBlock(ar, bp);
    hide Tiling, Aligned, Sized;
    MergedTiles(ar.h, ar.Lo(), ar.brk, bp, p);
    MergedAligned(ar.h, ar.Lo(), bp, p);
  }

  lemma MergedAligned(h: Heap, lo: nat, bp: nat, p: nat)
    requires Aligned(h) && Sized(h, lo) && bp in h && bp > lo && MergeStart(h, bp, p)
    ensures Aligned(Merged(h, bp, p)) && Sized(Merged(h, bp, p), lo) && p != lo
  {
    MergedSize(h, bp, p);
    MergedBlock(h, bp, p);
    var h' := Merged(h, bp, p);
    assert h[bp] == h[bp];
    forall q | q in h' && q != p ensures h'[q] == h[q] {
    }
  }

  lemma MergedNodes(h: Heap, nd: Nodes, bp: nat, p: nat)
    requires NodesFree(h, nd) && bp in h && bp !in nd && p !in nd && MergeStart(h, bp, p)
    requires NextFree(h, bp) ==> bp + h[bp].size !in nd
    ensures NodesFree(Merged(h, bp, p), nd)
  {
    hide FltClass;
    var h' := Merged(h, bp, p);
    forall q | q in nd ensures q in h' && h'[q] == h[q] {
      assert nd[q] == nd[q];
    }
  }

  /** The final SET_BLK of coalesce, once the merged neighbours are off their lists. */
  lemma CoalesceStore(m: Mem, m': Mem, s: State, bp: nat, p: nat)
    requires Core(m, s) && bp in s.ar.h && bp != s.ar.Lo() && bp !in s.nd && p !in s.nd && MergeStart(s.ar.h, bp, p)
    requires NextFree(s.ar.h, bp) ==> bp + s.ar.h[bp].size !in s.nd
    requires Retagged(m, m', p, Merged(s.ar.h, bp, p)[p])
    ensures Core(m', s.(ar := s.ar.(h := Merged(s.ar.h, bp, p)))) && LiveKept(m, m', s.ar.h, bp)
    ensures Ptr(m', s.ar.tbl) == Ptr(m, s.ar.tbl)
  {
    hide Framed, Linked, Shaped, NodesFree, Stamped, Retagged, PayloadsKept, LiveKept, Same;
    var h, h' := s.ar.h, Merged(s.ar.h, bp, p);
    var ar' := s.ar.(h := h');
    FramedShape(m, s.ar, {});
    MergedShape(s.ar, bp, p);
    Relayout(m, s.ar, h', {p});
    Retag(m, m', ar', p, {p});
    assert {p} - {p} == {};
    TableKept(m, m', s.ar.tbl);
    MergedNodes(h, s.nd, bp, p);
    RetagLinks(m, m', ar', s.nd, {});
    MergedLive(m, m', h, bp, p);
  }

  /** After coalescing bp, no two free blocks are neighbours, the merged block is the only
      free block not on a list, and the allocated blocks are those of before without bp. */
  lemma MergedFacts(ar: Arena, nd: Nodes, nd': Nodes, bp: nat, p: nat)
    requires Shaped(ar) && bp in ar.h && bp != ar.Lo() && MergeStart(ar.h, bp, p)
    requires FreeListed(ar.h, nd, bp) && Apart(ar.h, bp)
    requires forall q :: q in nd && q != p && q != bp + ar.h[bp].size ==> q in nd'
    ensures FreeListed(Merged(ar.h, bp, p), nd', p) && Apart(Merged(ar.h, bp, p), 0)
  {
    var h, h' := ar.h, Merged(ar.h, bp, p);
    forall q | q in h' && !h'[q].alloc && q != p ensures q in h && q != bp && q != bp + h[bp].size && h'[q] == h[q] {
      assert h'[q] == h'[q];
    }
    MergedApart(ar.h, ar.Lo(), ar.brk, bp, p);
  }

  // ---------------------------------------------------------------------------
  // Reading the tags
  // ---------------------------------------------------------------------------

  lemma ReadTag(m: Mem, ar: Arena, p: nat)
    requires Framed(m, ar, {}) && p in ar.h
    ensures GetSize(Word(m, p - 4)) == ar.h[p].size && GetAlloc(Word(m, p - 4)) == ar.h[p].alloc
    ensures GetSize(Word(m, p + ar.h[p].size - 8)) == ar.h[p].size
    ensures GetAlloc(Word(m, p + ar.h[p].size - 8)) == ar.h[p].alloc
    ensures ar.Lo() <= p && 8 <= ar.h[p].size && p + ar.h[p].size <= ar.brk && p % 8 == 0 && ar.h[p].size % 8 == 0
  {
    assert TagAt(m, p, ar.h[p]) && BlockIn(p, ar.h[p], ar.Lo(), ar.brk);
    Unpack(ar.h[p].size, ar.h[p].alloc);
  }

  /** NEXT_BLK_ALLOC: the word after a block says whether the next block is free; at the
      end of the heap it is the epilogue, which counts as allocated. */
  lemma ReadNext(m: Mem, ar: Arena, p: nat)
    requires Framed(m, ar, {}) && p in ar.h
    ensures var n := p + ar.h[p].size;
      && (n == ar.brk || n in ar.h) && GetAlloc(Word(m, n - 4)) == !NextFree(ar.h, p)
  {
    var n := p + ar.h[p].size;
    assert NextIn(ar.h, ar.brk, p);
    if n in ar.h {
      ReadTag(m, ar, n);
    } else {
      Unpack(0, true);
    }
  }

  /** PREV_BLK_SIZE: the word before a block's header leads to the preceding block. */
  lemma ReadPrev(m: Mem, ar: Arena, p: nat) returns (q: nat)
    requires Framed(m, ar, {}) && p in ar.h && p != ar.Lo()
    ensures q in ar.h && q + ar.h[q].size == p && q < p
    ensures GetSize(Word(m, p - 8)) == ar.h[q].size && GetAlloc(Word(m, p - 8)) == ar.h[q].alloc
    ensures ar.h[q].alloc ==> MergeStart(ar.h, p, p)
    ensures !ar.h[q].alloc ==> MergeStart(ar.h, p, q) && q != p
  {
    assert BlockIn(p, ar.h[p], ar.Lo(), ar.brk);
    q := PrevBlock(ar.h, ar.Lo(), ar.brk, p);
    ReadTag(m, ar, q);
    forall r | r in ar.h && r + ar.h[r].size == p ensures r == q {
      assert ar.h[r] == ar.h[r];
    }
  }

  // ---------------------------------------------------------------------------
  // Cutting a block in two, and allocating a whole one
  // ---------------------------------------------------------------------------

  lemma SplitShape(ar: Arena, p: nat, n: nat)
    requires Shaped(ar) && p in ar.h && p != ar.Lo() && 16 <= n && n % 8 == 0 && n + 16 <= ar.h[p].size
    ensures Shaped(ar.(h := Split(ar.h, p, n, true, false))) && p + n !in ar.h
    ensures (ar.h[p].size - n) % 8 == 0 && (p + n) % 8 == 0 && ar.Lo() <= p && p + ar.h[p].size <= ar.brk
  {
    SplitBlock(ar, p);
    hide Layout, Gapless;
    SplitTiles(ar.h, ar.Lo(), ar.brk, p, n, true, false);
    hide Tiling;
    RestEight(p, ar.h[p].size, n) by {
      assert ar.h[p] == ar.h[p];
    }
    var h := Split(ar.h, p, n, true, false);
    forall q | q in h && q != p && q != p + n ensures q in ar.h && h[q] == ar.h[q] {
    }
  }

  lemma RestEight(p: nat, size: nat, n: nat)
    requires p % 8 == 0 && size % 8 == 0 && n % 8 == 0 && n <= size
    ensures (size - n) % 8 == 0 && (p + n) % 8 == 0
  {
  }

  lemma SplitBlock(ar: Arena, p: nat)
    requires Shaped(ar) && p in ar.h
    ensures BlockIn(p, ar.h[p], ar.Lo(), ar.brk)
  {
  }

  /** The two SET_BLKs that cut block p after n bytes: the front is allocated, the rest is
      free and not yet on a list. */
  lemma SplitStores(m: Mem, m1: Mem, m2: Mem, s: State, p: nat, n: nat)
    requires Core(m, s) && p in s.ar.h && p != s.ar.Lo() && p !in s.nd
    requires 16 <= n && n % 8 == 0 && n + 16 <= s.ar.h[p].size
    requires Retagged(m, m1, p, Block(n, true)) && Retagged(m1, m2, p + n, Block(s.ar.h[p].size - n, false))
    ensures Core(m2, s.(ar := s.ar.(h := Split(s.ar.h, p, n, true, false))))
    ensures LiveKept(m, m2, s.ar.h, p) && Same(m, m2, p, p + n - 8) && Ptr(m2, s.ar.tbl) == Ptr(m, s.ar.tbl)
  {
    hide Framed, Linked, Shaped, NodesFree, Stamped, Retagged, PayloadsKept, LiveKept, Same;
    var h, r := s.ar.h, p + n;
    var h' := Split(h, p, n, true, false);
    var ar' := s.ar.(h := h');
    FramedShape(m, s.ar, {});
    SplitShape(s.ar, p, n);
    Relayout(m, s.ar, h', {p, r});
    Retag(m, m1, ar', p, {p, r});
    assert {p, r} - {p} == {r};
    Retag(m1, m2, ar', r, {r});
    assert {r} - {r} == {};
    TableKept(m, m1, s.ar.tbl);
    TableKept(m1, m2, s.ar.tbl);
    SplitNodes(s, p, n);
    RetagLinks(m, m1, ar', s.nd, {r});
    RetagLinks(m1, m2, ar', s.nd, {});
    SplitLive(m, m1, m2, h, p, n);
  }

  lemma SplitNodes(s: State, p: nat, n: nat)
    requires NodesFree(s.ar.h, s.nd) && p in s.ar.h && p !in s.nd && n <= s.ar.h[p].size && p + n !in s.ar.h
    ensures NodesFree(Split(s.ar.h, p, n, true, false), s.nd)
  {
    hide FltClass;
    var h' := Split(s.ar.h, p, n, true, false);
    forall q | q in s.nd ensures q in h' && h'[q] == s.ar.h[q] {
      assert s.nd[q] == s.nd[q];
    }
  }

  lemma SplitLive(m: Mem, m1: Mem, m2: Mem, h: Heap, p: nat, n: nat)
    requires p in h && n <= h[p].size && p + n !in h && |m| == |m1| == |m2|
    requires PayloadsKept(m, m1, Split(h, p, n, true, false)) && PayloadsKept(m1, m2, Split(h, p, n, true, false))
    ensures LiveKept(m, m2, h, p) && Same(m, m2, p, p + n - 8)
  {
    var h' := Split(h, p, n, true, false);
    assert n > 0 ==> h'[p] == Block(n, true);
    forall q | q in h && q != p ensures Same(m, m2, q, q + h[q].Cap()) {
      assert h'[q] == h[q];
    }
  }

  /** Cutting keeps the list bookkeeping, up to the free rest. */
  lemma SplitFacts(ar: Arena, nd: Nodes, p: nat, n: nat)
    requires Shaped(ar) && p in ar.h && p != ar.Lo() && 16 <= n && n % 8 == 0 && n + 16 <= ar.h[p].size
    requires FreeListed(ar.h, nd, p) && Apart(ar.h, 0)
    ensures var h' := Split(ar.h, p, n, true, false);
      FreeListed(h', nd, p + n) && Apart(h', p + n) && Live(h') == Live(ar.h)[p := n]
  {
    hide Layout, Gapless, Aligned;
    SplitShape(ar, p, n);
    SplitApart(ar.h, ar.Lo(), ar.brk, p, n);
    var h, r := ar.h, p + n;
    var h' := Split(h, p, n, true, false);
    forall q | q in h' && q != p && q != r ensures q in h && h'[q] == h[q] {
    }
    assert h'[p] == Block(n, true) && !h'[r].alloc;
  }

  /** SET_BLK that allocates a whole free block. */
  lemma TakeStore(m: Mem, m': Mem, s: State, p: nat)
    requires Core(m, s) && p in s.ar.h && p != s.ar.Lo() && p !in s.nd
    requires Retagged(m, m', p, Block(s.ar.h[p].size, true))
    ensures Core(m', s.(ar := s.ar.(h := Recolored(s.ar.h, p, true)))) && LiveKept(m, m', s.ar.h, 0)
    ensures Ptr(m', s.ar.tbl) == Ptr(m, s.ar.tbl)
  {
    hide Framed, Linked, Shaped, NodesFree, Stamped, Retagged, PayloadsKept, LiveKept, Same;
    var h' := Recolored(s.ar.h, p, true);
    var ar' := s.ar.(h := h');
    FramedShape(m, s.ar, {});
    TakeShape(s.ar, p);
    Relayout(m, s.ar, h', {p});
    Retag(m, m', ar', p, {p});
    assert {p} - {p} == {};
    TableKept(m, m', s.ar.tbl);
    TakeNodes(s, p);
    RetagLinks(m, m', ar', s.nd, {});
    TakeLive(m, m', s.ar.h, p);
  }

  lemma TakeShape(ar: Arena, p: nat)
    requires Shaped(ar) && p in ar.h && p != ar.Lo()
    ensures Shaped(ar.(h := Recolored(ar.h, p, true)))
  {
    hide Layout, Gapless;
    RecoloredTiles(ar.h, ar.Lo(), ar.brk, p, true);
  }

  lemma TakeNodes(s: State, p: nat)
    requires NodesFree(s.ar.h, s.nd) && p in s.ar.h && p !in s.nd
    ensures NodesFree(Recolored(s.ar.h, p, true), s.nd)
  {
    hide FltClass;
    var h' := Recolored(s.ar.h, p, true);
    forall q | q in s.nd ensures q in h' && h'[q] == s.ar.h[q] {
      assert s.nd[q] == s.nd[q];
    }
  }

  lemma TakeLive(m: Mem, m': Mem, h: Heap, p: nat)
    requires p in h && PayloadsKept(m, m', Recolored(h, p, true)) && |m'| == |m|
    ensures LiveKept(m, m', h, 0)
  {
    var h' := Recolored(h, p, true);
    forall q | q in h ensures Same(m, m', q, q + h[q].Cap()) {
      assert h'[q].size == h[q].size;
    }
  }

  lemma TakeFacts(h: Heap, nd: Nodes, p: nat)
    requires p in h && FreeListed(h, nd, p) && Apart(h, 0)
    ensures var h' := Recolored(h, p, true);
      FreeListed(h', nd, 0) && Apart(h', 0) && Live(h') == Live(h)[p := h[p].size]
  {
    var h' := Recolored(h, p, true);
    RecoloredApart(h, p);
    hide Apart;
    forall q | q in h' && q != p ensures h'[q] == h[q] {
    }
  }

  // ---------------------------------------------------------------------------
  // Growing the heap
  // ---------------------------------------------------------------------------

  /** extend_heap moved the epilogue to the new end, and SET_BLK makes the new room one
      allocated block. */
  lemma GrowStores(m: Mem, m1: Mem, m2: Mem, s: State, n: nat)
    requires Core(m, s) && 16 <= n && n % 8 == 0 && s.ar.brk + n <= |m|
    requires Word(m1, s.ar.brk + n - 4) == Pack(0, true) && Only(m, m1, s.ar.brk + n - 4, 4)
    requires Retagged(m1, m2, s.ar.brk, Block(n, true))
    ensures Core(m2, s.(ar := s.ar.(brk := s.ar.brk + n, h := s.ar.h[s.ar.brk := Block(n, true)])))
    ensures LiveKept(m, m2, s.ar.h, 0) && Ptr(m2, s.ar.tbl) == Ptr(m, s.ar.tbl)
  {
    hide Framed, Linked, Shaped, NodesFree, Stamped, Retagged, PayloadsKept, LiveKept, Same, Only, Ptr;
    var r := s.ar.brk;
    var ar' := s.ar.(brk := r + n, h := s.ar.h[r := Block(n, true)]);
    FramedShape(m, s.ar, {});
    GrowShape(s.ar, n);
    GrowFrame(m, m1, s.ar, s.nd, n);
    Retag(m1, m2, ar', r, {r});
    assert {r} - {r} == {};
    BelowWrite(m, m1, s.ar.tbl, s.ar.brk + n - 4, 4);
    TableKept(m1, m2, s.ar.tbl);
    GrowNodes(s, n);
    RetagLinks(m1, m2, ar', s.nd, {});
    GrowLive(m, m1, m2, s.ar.h, r, n);
  }

  lemma GrowShape(ar: Arena, n: nat)
    requires Shaped(ar) && 16 <= n && n % 8 == 0
    ensures Shaped(ar.(brk := ar.brk + n, h := ar.h[ar.brk := Block(n, true)]))
    ensures ar.brk !in ar.h && ar.brk % 8 == 0
  {
    hide Layout, Gapless;
    ExtendedTiles(ar.h, ar.Lo(), ar.brk, Block(n, true));
    AlignedEnd(ar.h, ar.Lo(), ar.brk);
  }

  lemma GrowFrame(m: Mem, m1: Mem, ar: Arena, nd: Nodes, n: nat)
    requires Framed(m, ar, {}) && 16 <= n && n % 8 == 0 && ar.brk + n <= |m|
    requires Word(m1, ar.brk + n - 4) == Pack(0, true) && Only(m, m1, ar.brk + n - 4, 4)
    requires NodesFree(ar.h, nd) && Linked(m, ar.tbl, nd)
    ensures Framed(m1, ar.(brk := ar.brk + n, h := ar.h[ar.brk := Block(n, true)]), {ar.brk})
    ensures PayloadsKept(m, m1, ar.h) && Linked(m1, ar.tbl, nd) && |m1| == |m|
  {
    hide Linked, Tiling, Aligned, Sized;
    GrowShape(ar, n);
    var h' := ar.h[ar.brk := Block(n, true)];
    forall q | q in ar.h ensures TagAt(m1, q, ar.h[q]) && Same(m, m1, q, q + ar.h[q].Cap()) {
      SplitBlock(ar, q);
      assert TagAt(m, q, ar.h[q]);
      WordSame(m, m1, q - 4);
      WordSame(m, m1, q + ar.h[q].size - 8);
    }
    GrowLinks(m, m1, ar, nd, n);
  }

  lemma GrowLinks(m: Mem, m1: Mem, ar: Arena, nd: Nodes, n: nat)
    requires Framed(m, ar, {}) && 16 <= n && ar.brk + n <= |m| && Only(m, m1, ar.brk + n - 4, 4)
    requires NodesFree(ar.h, nd) && Linked(m, ar.tbl, nd)
    ensures Linked(m1, ar.tbl, nd)
  {
    hide Linked, Framed, NodesFree;
    NodesSpread(m, ar, nd, {});
    FramedShape(m, ar, {});
    forall p | p in nd ensures Same(m, m1, p, p + 16) {
      NodeRoom(m, ar, nd, {}, p);
    }
    LinkedFrame(m, m1, ar.tbl, nd);
  }

  lemma GrowNodes(s: State, n: nat)
    requires NodesFree(s.ar.h, s.nd) && s.ar.brk !in s.ar.h
    ensures NodesFree(s.ar.h[s.ar.brk := Block(n, true)], s.nd)
  {
    hide FltClass;
  }

  lemma GrowLive(m: Mem, m1: Mem, m2: Mem, h: Heap, r: nat, n: nat)
    requires r !in h && PayloadsKept(m, m1, h) && PayloadsKept(m1, m2, h[r := Block(n, true)]) && |m| == |m1| == |m2|
    ensures LiveKept(m, m2, h, 0)
  {
    var h' := h[r := Block(n, true)];
    forall q | q in h ensures Same(m, m2, q, q + h[q].Cap()) {
      assert h'[q] == h[q];
    }
  }

  lemma GrowFacts(ar: Arena, nd: Nodes, n: nat)
    requires Shaped(ar) && 16 <= n && n % 8 == 0 && FreeListed(ar.h, nd, 0) && Apart(ar.h, 0)
    ensures var h' := ar.h[ar.brk := Block(n, true)];
      FreeListed(h', nd, 0) && Apart(h', 0) && Live(h') == Live(ar.h)[ar.brk := n] && ar.brk !in Live(ar.h)
  {
    hide Shaped;
    GrowShape(ar, n);
    var h, h' := ar.h, ar.h[ar.brk := Block(n, true)];
    forall a, b | a in h' && b in h' && a + h'[a].size == b && a != 0 && b != 0 ensures h'[a].alloc || h'[b].alloc {
      assert a != ar.brk ==> h'[a] == h[a];
      assert b != ar.brk ==> h'[b] == h[b];
    }
    forall q | q in h' && q != ar.brk ensures h'[q] == h[q] {
    }
  }

  // ---------------------------------------------------------------------------
  // Compositions used by the allocator's methods
  // ---------------------------------------------------------------------------

  lemma InsertKept(m: Mem, m1: Mem, m2: Mem, ar: Arena, bp: nat, p: nat)
    requires Shaped(ar) && bp in ar.h && MergeStart(ar.h, bp, p)
    requires LiveKept(m, m1, ar.h, bp) && LiveKept(m1, m2, Merged(ar.h, bp, p), 0)
    ensures LiveKept(m, m2, ar.h, bp)
  {
    hide LiveKept;
    assert 0 in ar.h ==> BlockIn(0, ar.h[0], ar.Lo(), ar.brk);
    LiveKeptThrough(m, m1, m2, ar.h, bp, Merged(ar.h, bp, p), 0);
  }

  lemma ListedAfterInsert(h: Heap, nd: Nodes, nd': Nodes, p: nat)
    requires FreeListed(h, nd, p) && (forall q :: q in nd ==> q in nd')
    requires p in h && h[p].size > BLK_MIN_SIZE ==> p in nd'
    ensures FreeListed(h, nd', 0)
  {
  }

  lemma LiveNotNode(s: State, p: nat)
    requires NodesFree(s.ar.h, s.nd) && p in s.ar.h && s.ar.h[p].alloc
    ensures p !in s.nd
  {
    forall q | q in s.nd ensures !(q in s.ar.h && s.ar.h[q].alloc) {
      assert s.nd[q] == s.nd[q];
    }
  }

  /** Where no block is special, the exception of a bookkeeping predicate can be any pointer. */
  lemma FreeListedWeaken(h: Heap, nd: Nodes, nd': Nodes, x: nat)
    requires FreeListed(h, nd, 0) && 0 !in h && nd' == nd - {x}
    ensures FreeListed(h, nd', x)
  {
  }

  lemma ApartWeaken(h: Heap, x: nat)
    requires Apart(h, 0) && 0 !in h
    ensures Apart(h, x)
  {
  }

  /** Cutting p after n bytes and inserting the free rest keeps every allocated payload of
      the original blocks other than p, and the first n-8 payload bytes of p. */
  lemma SplitKept(m: Mem, m1: Mem, m2: Mem, ar: Arena, p: nat, n: nat)
    requires Shaped(ar) && p in ar.h && p != ar.Lo() && 16 <= n && n % 8 == 0 && n + 16 <= ar.h[p].size
    requires LiveKept(m, m1, ar.h, p) && Same(m, m1, p, p + n - 8)
    requires LiveKept(m1, m2, Split(ar.h, p, n, true, false), p + n)
    ensures LiveKept(m, m2, ar.h, p) && Same(m, m2, p, p + n - 8)
  {
    SplitShape(ar, p, n);
    var h' := Split(ar.h, p, n, true, false);
    assert h'[p] == Block(n, true);
    LiveKeptThrough(m, m1, m2, ar.h, p, h', p + n);
  }

  lemma SplitRest(ar: Arena, p: nat, n: nat)
    requires Shaped(ar) && p in ar.h && p != ar.Lo() && 16 <= n && n % 8 == 0 && n + 16 <= ar.h[p].size
    ensures var h' := Split(ar.h, p, n, true, false);
      p + n in h' && h'[p + n] == Block(ar.h[p].size - n, false) && p + n != ar.Lo() && ar.Lo() <= p
  {
    SplitShape(ar, p, n);
  }

  // ---------------------------------------------------------------------------
  // Searching
  // ---------------------------------------------------------------------------

  /** r is the first block of the list that has at least n bytes. */
  ghost predicate FirstFit(h: Heap, list: seq<nat>, n: nat, r: nat) {
    exists k :: 0 <= k < |list| && list[k] == r && r in h && h[r].size >= n && AllSmaller(h, list[..k], n)
  }

  /** Every block of the list has fewer than n bytes. */
  ghost predicate AllSmaller(h: Heap, list: seq<nat>, n: nat) {
    forall j :: 0 <= j < |list| ==> list[j] in h && h[list[j]].size < n
  }

  /** The lists of slots lo..hi-1 hold no block of at least n bytes. */
  ghost predicate SlotsSmaller(h: Heap, nd: Nodes, lo: nat, hi: nat, n: nat) {
    forall p {:trigger nd[p]} :: p in nd && lo <= nd[p].slot < hi ==> p in h && h[p].size < n
  }

  /** r is the first fit of the first slot, from the request's class upward, that has one. */
  ghost predicate Chosen(m: Mem, s: State, size: nat, r: nat)
    requires Core(m, s)
  {
    exists i {:trigger SlotList(m, s.ar.tbl, s.nd, i)} :: 1 <= i <= 10 && FltClass(size) <= i
      && SlotsSmaller(s.ar.h, s.nd, FltClass(size), i, Align(size) + 8)
      && FirstFit(s.ar.h, SlotList(m, s.ar.tbl, s.nd, i), Align(size) + 8, r)
  }

  lemma ChosenListed(m: Mem, s: State, i: nat, n: nat, r: nat)
    requires Core(m, s) && 1 <= i <= 10 && FirstFit(s.ar.h, SlotList(m, s.ar.tbl, s.nd, i), n, r)
    ensures r in s.nd && s.nd[r].slot == i && r in s.ar.h && s.ar.h[r].size >= n
  {
    hide Framed, NodesFree;
    assert SlotOk(m, s.ar.tbl, s.nd, i);
    if Ptr(m, s.ar.tbl + 8 * i) != 0 {
      ChainShape(m, s.ar.tbl, s.nd, Ptr(m, s.ar.tbl + 8 * i));
    }
  }

  lemma SmallerBefore(h: Heap, list: seq<nat>, k: nat, j: nat, n: nat)
    requires j < k <= |list| && AllSmaller(h, list[..k], n)
    ensures list[j] in h && h[list[j]].size < n
  {
    assert list[..k][j] == list[j];
  }

  /** The chosen block is free and has room. */
  lemma ChosenFits(m: Mem, s: State, size: nat, r: nat)
    requires Core(m, s) && Chosen(m, s, size, r)
    ensures r in s.ar.h && !s.ar.h[r].alloc && s.ar.h[r].size >= Align(size) + 8 && !NoFit(s.ar.h, Align(size))
  {
    hide Framed, FltClass, Align, Linked, Stamped;
    var n := Align(size) + 8;
    var i :| 1 <= i <= 10 && FltClass(size) <= i && SlotsSmaller(s.ar.h, s.nd, FltClass(size), i, n)
      && FirstFit(s.ar.h, SlotList(m, s.ar.tbl, s.nd, i), n, r);
    ChosenListed(m, s, i, n, r);
    assert s.nd[r] == s.nd[r];
  }

  /** A list that was searched to the end without success settles its whole slot. */
  lemma SlotSearched(m: Mem, s: State, i: nat, lo: nat, n: nat)
    requires Core(m, s) && 1 <= i <= 10 && AllSmaller(s.ar.h, SlotList(m, s.ar.tbl, s.nd, i), n)
    requires SlotsSmaller(s.ar.h, s.nd, lo, i, n)
    ensures SlotsSmaller(s.ar.h, s.nd, lo, i + 1, n)
  {
    hide Framed, Linked, NodesFree, Stamped, SlotList;
    var list := SlotList(m, s.ar.tbl, s.nd, i);
    NodesSpread(m, s.ar, s.nd, {});
    forall p | p in s.nd && s.nd[p].slot == i ensures p in s.ar.h && s.ar.h[p].size < n {
      NodeNotNull(m, s.ar, s.nd);
      NodeOnList(m, s.ar.tbl, s.nd, s.ctr, p);
      var k :| 0 <= k < |list| && list[k] == p;
    }
  }

  lemma NodeNotNull(m: Mem, ar: Arena, nd: Nodes)
    requires Framed(m, ar, {}) && NodesFree(ar.h, nd)
    ensures 0 !in nd
  {
    assert forall p :: p in nd ==> nd[p].slot <= 10;
  }

  /** Searching only the slots from flt_index(size) upward is complete: no free block at
      all has room for the request. */
  lemma SearchComplete(h: Heap, nd: Nodes, lo: nat, size: nat)
    requires Sized(h, lo) && Aligned(h) && NodesFree(h, nd) && FreeListed(h, nd, 0) && 0 !in h && size > 0
    requires size > 8 || forall p {:trigger h[p]} :: p in h && !h[p].alloc ==> h[p].size > BLK_MIN_SIZE
    requires SlotsSmaller(h, nd, FltClass(size), 11, Align(size) + 8)
    ensures NoFit(h, Align(size))
  {
    AlignBounds(size);
    forall p | p in h && !h[p].alloc ensures h[p].Cap() < Align(size) {
      if h[p].Cap() >= Align(size) {
        assert p in nd && nd[p].slot == FltClass(h[p].size - 8);
        FltClassOfAlign(size);
        FltClassMonotone(Align(size), h[p].size - 8);
        assert false;
      }
    }
  }

  /** No node is in slot 0. */
  lemma NoNodeInSlotZero(m: Mem, s: State, n: nat)
    requires Core(m, s)
    ensures SlotsSmaller(s.ar.h, s.nd, 0, 1, n)
  {
    forall p | p in s.nd ensures s.nd[p].slot >= 1 {
      assert NodeOk(m, s.ar.tbl, s.nd, p);
    }
  }

  // ---------------------------------------------------------------------------
  // Initialisation, and writes by the owner of a block
  // ---------------------------------------------------------------------------

  ghost function InitialState(tbl: nat): State {
    State(Arena(tbl, tbl + 104, map[tbl + 96 := Block(8, true)]), map[], 0)
  }

  /** A zeroed table followed by padding, the prologue and the epilogue is a heap. */
  lemma InitialHeap(m: Mem, tbl: nat)
    requires 8 <= tbl && tbl % 8 == 0 && tbl + 104 <= |m| < PTR_LIMIT && Zero(m, tbl, tbl + 88)
    requires Word(m, tbl + 92) == Pack(8, true) && Word(m, tbl + 96) == Pack(8, true)
    requires Word(m, tbl + 100) == Pack(0, true)
    ensures HeapOk(m, InitialState(tbl))
  {
    InitialFrame(m, tbl);
    InitialLists(m, tbl);
    hide Framed, Linked;
  }

  lemma InitialFrame(m: Mem, tbl: nat)
    requires 8 <= tbl && tbl % 8 == 0 && tbl + 104 <= |m| < PTR_LIMIT
    requires Word(m, tbl + 92) == Pack(8, true) && Word(m, tbl + 96) == Pack(8, true)
    requires Word(m, tbl + 100) == Pack(0, true)
    ensures Framed(m, InitialState(tbl).ar, {})
  {
    hide Word, Pack;
    var ar := InitialState(tbl).ar;
    forall p: nat ensures NextIn(ar.h, ar.brk, p) {
    }
    assert Tagged(m, ar.h, {});
  }

  lemma InitialLists(m: Mem, tbl: nat)
    requires tbl + 88 <= |m| && Zero(m, tbl, tbl + 88)
    ensures Linked(m, tbl, map[])
  {
    forall i: nat ensures SlotOk(m, tbl, map[], i) {
      if 1 <= i <= 10 { ZeroPtr(m, tbl + 8 * i); }
    }
  }

  /** The bytes that the owner of an allocated block writes into its payload disturb neither
      the heap nor any other payload. */
  lemma OwnerWrite(m: Mem, m': Mem, s: State, p: nat, a: nat, n: nat)
    requires Core(m, s) && p in s.ar.h && s.ar.h[p].alloc && p <= a && a + n <= p + s.ar.h[p].Cap() && Only(m, m', a, n)
    ensures Core(m', s)
    ensures forall q {:trigger s.ar.h[q]} :: q in s.ar.h && q != p ==> Same(m, m', q, q + s.ar.h[q].Cap())
  {
    hide Framed, Linked, NodesFree, Stamped, Only, Same;
    InnerWrite(m, m', s.ar, p, a, n);
    OwnerLinks(m, m', s, p, a, n);
  }

  lemma OwnerLinks(m: Mem, m': Mem, s: State, p: nat, a: nat, n: nat)
    requires Core(m, s) && p in s.ar.h && s.ar.h[p].alloc && p <= a && a + n <= p + s.ar.h[p].Cap() && Only(m, m', a, n)
    ensures Linked(m', s.ar.tbl, s.nd)
  {
    hide Framed, Linked, Stamped;
    InnerWrite(m, m', s.ar, p, a, n);
    NodesSpread(m, s.ar, s.nd, {});
    ReadTag(m, s.ar, p);
    forall q | q in s.nd ensures Same(m, m', q, q + 16) {
      NodeRoom(m, s.ar, s.nd, {}, q);
      assert s.ar.h[q] == s.ar.h[q];
    }
    LinkedFrame(m, m', s.ar.tbl, s.nd);
  }
}
