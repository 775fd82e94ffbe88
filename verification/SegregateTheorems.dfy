/** What the invariant of the segregated allocator means for its users. */
module SegregateTheorems {
  import opened Memory
  import opened Blocks
  import opened LiveBlocks
  import opened SizeClass
  import opened FreeLists
  import opened SegregateHeap
  import Segregate

  /** Each list of slots 1..10 holds, without repetition, exactly the free blocks of more
      than 16 bytes of its class. */
  lemma ListsExact(m: Mem, s: State, i: nat)
    requires HeapOk(m, s) && 1 <= i <= 10
    ensures var list := SlotList(m, s.ar.tbl, s.nd, i);
      && (forall p ::
           p in list <==> p in s.ar.h && !s.ar.h[p].alloc && s.ar.h[p].size > 16 && FltClass(s.ar.h[p].size - 8) == i)
      && (forall j, k :: 0 <= j < k < |list| ==> list[j] != list[k])
  {
    hide Framed, FltClass, Apart, Stamped, Chain, NodesFree, FreeListed;
    ListMembers(m, s, i);
    ListsLinked(m, s, i);
  }

  /** In memory, the slot points at the first node, each node at the next one and the last
      one at null; each node's prev pointer leads back, the first one's to the slot. */
  lemma ListsLinked(m: Mem, s: State, i: nat)
    requires Core(m, s) && 1 <= i <= 10
    ensures var list, slot := SlotList(m, s.ar.tbl, s.nd, i), s.ar.tbl + 8 * i;
      && (forall j, k :: 0 <= j < k < |list| ==> list[j] != list[k])
      && Ptr(m, slot) == (if list == [] then 0 else list[0])
      && (forall k :: 0 <= k < |list| ==> Ptr(m, list[k]) == (if k + 1 < |list| then list[k + 1] else 0))
      && (forall k :: 0 <= k < |list| ==> Ptr(m, list[k] + 8) == (if k > 0 then list[k - 1] else slot))
  {
    hide Framed, Stamped, NodesFree;
    var list, slot := SlotList(m, s.ar.tbl, s.nd, i), s.ar.tbl + 8 * i;
    assert SlotOk(m, s.ar.tbl, s.nd, i);
    if Ptr(m, slot) != 0 {
      ChainShape(m, s.ar.tbl, s.nd, Ptr(m, slot));
    }
  }

  lemma ListMembers(m: Mem, s: State, i: nat)
    requires HeapOk(m, s) && 1 <= i <= 10
    ensures forall p :: p in SlotList(m, s.ar.tbl, s.nd, i) <==>
      p in s.ar.h && !s.ar.h[p].alloc && s.ar.h[p].size > 16 && FltClass(s.ar.h[p].size - 8) == i
  {
    hide Framed, FltClass, Apart, Chain, Linked;
    var list, slot := SlotList(m, s.ar.tbl, s.nd, i), s.ar.tbl + 8 * i;
    NodeNotNull(m, s.ar, s.nd);
    FramedShape(m, s.ar, {});
    SlotNodes(m, s, i);
    forall p ensures p in list <==> p in s.nd && s.nd[p].slot == i {
      if p in s.nd && s.nd[p].slot == i {
        NodeOnList(m, s.ar.tbl, s.nd, s.ctr, p);
      }
    }
    forall p | p in s.ar.h && !s.ar.h[p].alloc && s.ar.h[p].size > 16 ensures p in s.nd {
    }
  }

  lemma SlotNodes(m: Mem, s: State, i: nat)
    requires Core(m, s) && 1 <= i <= 10
    ensures forall p :: p in SlotList(m, s.ar.tbl, s.nd, i) ==> p in s.nd && s.nd[p].slot == i
  {
    hide Framed, NodesFree, Stamped;
    assert SlotOk(m, s.ar.tbl, s.nd, i);
    if Ptr(m, s.ar.tbl + 8 * i) != 0 {
      ChainShape(m, s.ar.tbl, s.nd, Ptr(m, s.ar.tbl + 8 * i));
    }
  }

  lemma Soundness(m: Mem, s: State)
    requires Core(m, s)
    ensures Sound(s.ar.h, s.ar.Lo(), s.ar.brk) && s.ar.tbl <= s.ar.Lo() <= s.ar.brk <= |m|
  {
    hide Linked, Tagged, NodesFree, Gapless;
    FramedShape(m, s.ar, {});
  }

  /** Live payloads are 8-aligned, lie between the slot table and the end of the heap, and
      are pairwise disjoint. */
  lemma LivePlaced(m: Mem, s: State, p: nat, q: nat)
    requires HeapOk(m, s) && p in Live(s.ar.h) && q in Live(s.ar.h) && p != s.ar.Lo() && q != s.ar.Lo()
    ensures var n := Live(s.ar.h)[p] - 8;
      && p % 8 == 0 && n >= 8 && s.ar.tbl + 104 <= p && p + n < s.ar.brk
      && (p != q ==> p + n <= q || q + (Live(s.ar.h)[q] - 8) <= p)
  {
    Soundness(m, s);
    hide HeapOk;
    PayloadsPlaced(s.ar.h, s.ar.Lo(), s.ar.brk, p, q);
  }

  /** Since no two free blocks are neighbours, the free blocks are exactly the gaps that the
      allocated ones leave: the allocated blocks determine the whole heap. */
  lemma LiveDeterminesHeap(m1: Mem, s1: State, m2: Mem, s2: State)
    requires HeapOk(m1, s1) && HeapOk(m2, s2)
    requires s1.ar.tbl == s2.ar.tbl && s1.ar.brk == s2.ar.brk && Live(s1.ar.h) == Live(s2.ar.h)
    ensures s1.ar.h == s2.ar.h
  {
    hide Framed, Linked, NodesFree, FreeListed, Stamped, Apart, Live;
    FramedShape(m1, s1.ar, {});
    FramedShape(m2, s2.ar, {});
    GapsAgree(s1.ar, s2.ar, s1.ar.Lo());
    ShapedFrom(s1.ar);
    ShapedFrom(s2.ar);
  }

  lemma ShapedFrom(ar: Arena)
    requires Shaped(ar)
    ensures forall q :: q in ar.h ==> ar.Lo() <= q
  {
    forall q | q in ar.h ensures ar.Lo() <= q {
      assert BlockIn(q, ar.h[q], ar.Lo(), ar.brk);
    }
  }

  lemma {:induction false} GapsAgree(a1: Arena, a2: Arena, p: nat)
    requires Shaped(a1) && Shaped(a2) && a1.tbl == a2.tbl && a1.brk == a2.brk
    requires Apart(a1.h, 0) && Apart(a2.h, 0) && Live(a1.h) == Live(a2.h)
    requires (p in a1.h && p in a2.h) || p == a1.brk
    ensures forall q :: p <= q ==> (q in a1.h <==> q in a2.h) && (q in a1.h ==> a1.h[q] == a2.h[q])
    decreases a1.brk - p
  {
    if p == a1.brk {
      NoBlockAt(a1, p);
      NoBlockAt(a2, p);
    } else {
      SameSize(a1, a2, p);
      var n := p + a1.h[p].size;
      assert NextIn(a1.h, a1.brk, p) && NextIn(a2.h, a2.brk, p);
      SplitBlock(a1, p);
      GapsAgree(a1, a2, n);
      NoneInside(a1.h, a1.Lo(), a1.brk, p);
      NoneInside(a2.h, a2.Lo(), a2.brk, p);
    }
  }

  lemma NoBlockAt(ar: Arena, p: nat)
    requires Shaped(ar) && p == ar.brk
    ensures forall q :: p <= q ==> q !in ar.h
  {
    forall q | p <= q && q in ar.h ensures false {
      SplitBlock(ar, q);
    }
  }

  lemma SameSize(a1: Arena, a2: Arena, p: nat)
    requires Shaped(a1) && Shaped(a2) && a1.tbl == a2.tbl && a1.brk == a2.brk && p in a1.h && p in a2.h
    requires Apart(a1.h, 0) && Apart(a2.h, 0) && Live(a1.h) == Live(a2.h)
    ensures a1.h[p] == a2.h[p]
  {
    hide Shaped, Live, Apart;
    LiveIff(a1.h, p);
    LiveIff(a2.h, p);
    if !a1.h[p].alloc {
      FreeEnds(a1, p);
      FreeEnds(a2, p);
      EndNotInside(a1, a2, p);
      EndNotInside(a2, a1, p);
    }
  }

  /** A free block is followed by an allocated one or by the end. */
  lemma FreeEnds(ar: Arena, p: nat)
    requires Shaped(ar) && Apart(ar.h, 0) && p in ar.h && !ar.h[p].alloc
    ensures p + ar.h[p].size in Live(ar.h) || p + ar.h[p].size == ar.brk
  {
    hide Layout, Aligned, Sized;
    SplitBlock(ar, p);
    assert NextIn(ar.h, ar.brk, p);
    var n := p + ar.h[p].size;
    if n in ar.h {
      assert ar.h[n] == ar.h[n] && ar.h[p] == ar.h[p];
      SplitBlock(ar, n);
      assert ar.Lo() > 0;
    }
  }

  lemma EndNotInside(a1: Arena, a2: Arena, p: nat)
    requires Shaped(a1) && Shaped(a2) && a1.brk == a2.brk && p in a1.h && p in a2.h
    requires p + a1.h[p].size in Live(a2.h) || p + a1.h[p].size == a1.brk
    ensures p + a1.h[p].size >= p + a2.h[p].size
  {
    SplitBlock(a1, p);
    SplitBlock(a2, p);
    NoneInside(a2.h, a2.Lo(), a2.brk, p);
  }

  /** The blocks can be read off the memory in one way only. */
  lemma MemoryDeterminesHeap(m: Mem, s1: State, s2: State)
    requires HeapOk(m, s1) && HeapOk(m, s2) && s1.ar.tbl == s2.ar.tbl && s1.ar.brk == s2.ar.brk
    ensures s1.ar == s2.ar
  {
    hide Linked, Stamped, NodesFree, FreeListed, Apart, Tagged, Tiling;
    ShapedFrom(s1.ar);
    ShapedFrom(s2.ar);
    TagsDetermine(m, s1.ar.h, s2.ar.h, s1.ar.Lo(), s1.ar.brk, s1.ar.Lo());
    assert s1.ar.h.Keys == s2.ar.h.Keys;
  }

  /** After any operation, the blocks that a walk from heap_listp visits and the table and
      padding before heap_listp add up to the heap size. */
  lemma HeapAccounted(a: Segregate.Allocator)
    requires a.Valid()
    ensures Accounted(a.s.ar.h, a.lib.start, a.listp, a.lib.brk) && a.listp == a.table + 96
  {
    hide Tiling, Tagged, Linked;
    FramedShape(a.lib.mem[..], a.s.ar, {});
    TilingAccounts(a.s.ar.h, a.lib.start, a.listp, a.lib.brk);
  }

  /** NEXT_BLKP and PREV_BLKP undo each other on its blocks. */
  lemma StepsUndo(a: Segregate.Allocator, p: nat, q: nat)
    requires a.Valid() && p in a.s.ar.h && q in a.s.ar.h
    ensures var m := a.lib.mem[..];
      p + GetSize(Word(m, p - 4)) == q <==> q - GetSize(Word(m, q - 8)) == p && a.listp < q
  {
    hide Tiling, Tagged, Aligned, GetSize, Word, Linked;
    StepsInvert(a.lib.mem[..], a.s.ar.h, a.listp, a.lib.brk, p, q);
  }

  /** The chosen block is the first one with room in its list, which ListsLinked reads off the
      memory, and no free block of a class from the request's up to the list's has room. */
  lemma ChosenFirst(m: Mem, s: State, size: nat, r: nat) returns (i: nat, k: nat)
    requires HeapOk(m, s) && Chosen(m, s, size, r)
    ensures 1 <= i <= 10 && FltClass(size) <= i
    ensures var list := SlotList(m, s.ar.tbl, s.nd, i);
      && k < |list| && list[k] == r && r in s.ar.h && s.ar.h[r].size >= Align(size) + 8
      && forall j :: 0 <= j < k ==> list[j] in s.ar.h && s.ar.h[list[j]].size < Align(size) + 8
    ensures forall p {:trigger s.ar.h[p]} :: p in s.ar.h && !s.ar.h[p].alloc && s.ar.h[p].size > 16 ==>
      FltClass(size) <= FltClass(s.ar.h[p].size - 8) < i ==> s.ar.h[p].size < Align(size) + 8
  {
    hide FltClass, Align, Framed, Linked, Stamped, Apart, SlotList;
    NullNotBlock(m, s);
    var n := Align(size) + 8;
    i :| 1 <= i <= 10 && FltClass(size) <= i && SlotsSmaller(s.ar.h, s.nd, FltClass(size), i, n)
      && FirstFit(s.ar.h, SlotList(m, s.ar.tbl, s.nd, i), n, r);
    var list := SlotList(m, s.ar.tbl, s.nd, i);
    k :| 0 <= k < |list| && list[k] == r && r in s.ar.h && s.ar.h[r].size >= n && AllSmaller(s.ar.h, list[..k], n);
    forall j | 0 <= j < k ensures list[j] in s.ar.h && s.ar.h[list[j]].size < n {
      SmallerBefore(s.ar.h, list, k, j, n);
    }
    LowerClasses(s.ar.h, s.nd, FltClass(size), i, n);
  }

  lemma LowerClasses(h: Heap, nd: Nodes, c: nat, i: nat, n: nat)
    requires NodesFree(h, nd) && FreeListed(h, nd, 0) && 0 !in h && SlotsSmaller(h, nd, c, i, n)
    ensures forall p {:trigger h[p]} :: p in h && !h[p].alloc && h[p].size > 16 ==>
      c <= FltClass(h[p].size - 8) < i ==> h[p].size < n
  {
    hide FltClass;
    forall p | p in h && !h[p].alloc && h[p].size > 16 && c <= FltClass(h[p].size - 8) < i ensures h[p].size < n {
      assert nd[p] == nd[p];
    }
  }

  /** First fit over size classes is nearly best fit: up to a capacity of 4096 bytes, no free
      block with room has half the capacity of the chosen one or less. */
  lemma NearlyBest(m: Mem, s: State, size: nat, r: nat, p: nat)
    requires HeapOk(m, s) && size > 8 && Chosen(m, s, size, r)
    requires p in s.ar.h && !s.ar.h[p].alloc && s.ar.h[p].Cap() >= Align(size)
    ensures r in s.ar.h && (s.ar.h[r].Cap() < 2 * s.ar.h[p].Cap() || s.ar.h[p].Cap() > 4096)
  {
    hide FltClass, Align, HeapOk, Chosen;
    ChosenClass(m, s, size, r, p);
    if s.ar.h[p].Cap() <= 4096 {
      ClassWidth(s.ar.h[r].size - 8, s.ar.h[p].size - 8);
    }
  }

  lemma ChosenClass(m: Mem, s: State, size: nat, r: nat, p: nat)
    requires HeapOk(m, s) && size > 8 && Chosen(m, s, size, r)
    requires p in s.ar.h && !s.ar.h[p].alloc && s.ar.h[p].Cap() >= Align(size)
    ensures r in s.ar.h && s.ar.h[r].size >= 8 && s.ar.h[p].Cap() > 8
    ensures FltClass(s.ar.h[r].size - 8) <= FltClass(s.ar.h[p].size - 8)
  {
    hide FltClass, Align, Framed, Linked, Apart, Stamped, NodesFree, FreeListed, SlotsSmaller;
    NullNotBlock(m, s);
    var i := ChosenSlot(m, s, size, r);
    LowestClass(s.ar.h, s.nd, size, i, r, p);
  }

  lemma NullNotBlock(m: Mem, s: State)
    requires Framed(m, s.ar, {})
    ensures 0 !in s.ar.h
  {
    FramedShape(m, s.ar, {});
  }

  lemma ChosenSlot(m: Mem, s: State, size: nat, r: nat) returns (i: nat)
    requires Core(m, s) && Chosen(m, s, size, r)
    ensures r in s.nd && s.nd[r].slot == i && SlotsSmaller(s.ar.h, s.nd, FltClass(size), i, Align(size) + 8)
  {
    hide FltClass, Align, Framed, Linked, Stamped, NodesFree, FirstFit, SlotsSmaller, SlotList;
    i :| 1 <= i <= 10 && FltClass(size) <= i && SlotsSmaller(s.ar.h, s.nd, FltClass(size), i, Align(size) + 8)
      && FirstFit(s.ar.h, SlotList(m, s.ar.tbl, s.nd, i), Align(size) + 8, r);
    ChosenListed(m, s, i, Align(size) + 8, r);
  }

  lemma LowestClass(h: Heap, nd: Nodes, size: nat, i: nat, r: nat, p: nat)
    requires NodesFree(h, nd) && FreeListed(h, nd, 0) && 0 !in h && size > 8
    requires r in nd && nd[r].slot == i && SlotsSmaller(h, nd, FltClass(size), i, Align(size) + 8)
    requires p in h && !h[p].alloc && h[p].Cap() >= Align(size)
    ensures r in h && h[r].size >= 8 && h[p].Cap() > 8
    ensures FltClass(h[r].size - 8) <= FltClass(h[p].size - 8)
  {
    AlignBounds(size);
    FltClassOfAlign(size);
    FltClassMonotone(Align(size), h[p].size - 8);
    hide FltClass, Align;
    assert nd[p] == nd[p] && nd[r] == nd[r];
  }

  /** A class spans the capacities from a power of two up to the next. */
  lemma ClassWidth(v: nat, w: nat)
    requires FltClass(v) <= FltClass(w) && 8 < w <= 4096
    ensures v < 2 * w
  {
  }
}
