/** What the invariant of the implicit allocator means for its users. */
module ImplicitTheorems {
  import opened Memory
  import opened Blocks
  import opened LiveBlocks
  import opened ImplicitHeap
  import Implicit

  lemma Soundness(m: Mem, sp: Space)
    requires Framed(m, sp, {})
    ensures Sound(sp.h, sp.lo, sp.brk) && sp.lo <= sp.brk <= |m|
  {
    hide Tagged, Gapless;
    FramedShape(m, sp, {});
  }

  /** Live payloads are 8-aligned, lie between the prologue and the end of the heap, and are
      pairwise disjoint. */
  lemma LivePlaced(m: Mem, sp: Space, p: nat, q: nat)
    requires Framed(m, sp, {}) && p in Live(sp.h) && q in Live(sp.h) && p != sp.lo && q != sp.lo
    ensures var n := Live(sp.h)[p] - 8;
      && p % 8 == 0 && n >= 8 && sp.lo + 8 <= p && p + n < sp.brk
      && (p != q ==> p + n <= q || q + (Live(sp.h)[q] - 8) <= p)
  {
    Soundness(m, sp);
    hide Framed;
    PayloadsPlaced(sp.h, sp.lo, sp.brk, p, q);
  }

  /** The blocks, and whether each is allocated, can be read off the memory in one way only. */
  lemma MemoryDeterminesHeap(m: Mem, sp1: Space, sp2: Space)
    requires Framed(m, sp1, {}) && Framed(m, sp2, {}) && sp1.lo == sp2.lo && sp1.brk == sp2.brk
    ensures sp1 == sp2
  {
    hide Tagged, Tiling;
    FirstBlock(sp1);
    FirstBlock(sp2);
    TagsDetermine(m, sp1.h, sp2.h, sp1.lo, sp1.brk, sp1.lo);
    assert sp1.h.Keys == sp2.h.Keys;
  }

  /** After any operation, the blocks that a walk from heap_listp visits and the fixed prefix
      before heap_listp add up to the heap size. */
  lemma HeapAccounted(a: Implicit.Allocator)
    requires a.Valid()
    ensures Accounted(a.sp.h, a.lib.start, a.listp, a.lib.brk)
  {
    hide Tiling, Tagged;
    FramedShape(a.lib.mem[..], a.sp, {});
    TilingAccounts(a.sp.h, a.lib.start, a.listp, a.lib.brk);
  }

  /** NEXT_BLKP and PREV_BLKP undo each other on its blocks. */
  lemma StepsUndo(a: Implicit.Allocator, p: nat, q: nat)
    requires a.Valid() && p in a.sp.h && q in a.sp.h
    ensures var m := a.lib.mem[..];
      p + GetSize(Word(m, p - 4)) == q <==> q - GetSize(Word(m, q - 8)) == p && a.listp < q
  {
    hide Tiling, Tagged, Aligned, GetSize, Word;
    StepsInvert(a.lib.mem[..], a.sp.h, a.listp, a.lib.brk, p, q);
  }

  /** Where a resized block goes, in order of address: it stays if it shrinks, is the last one,
      or the free block behind it makes room; else it slides down exactly if a free block
      before it makes room; else it moves up to the end of the heap. */
  lemma MovesWhere(sp: Space, ptr: nat, size: nat, np: nat)
    requires Shaped(sp) && ptr in sp.h && sp.h[ptr].alloc && Destination(sp, ptr, size, np)
    ensures var h, n, e := sp.h, Align(size) + 8, ptr + sp.h[ptr].size;
      var stays := n <= h[ptr].size || e == sp.brk || (e in h && !h[e].alloc && n <= h[ptr].size + h[e].size);
      && (np == ptr <==> stays)
      && (np < ptr ==> np in h && !h[np].alloc && np + h[np].size == ptr && n <= h[np].size + h[ptr].size)
      && (np > ptr ==> np == sp.brk || (np in h && !h[np].alloc && np + h[np].size == sp.brk))
      && (forall q {:trigger h[q]} :: q in h && !h[q].alloc && q + h[q].size == ptr && !stays ==>
            (np < ptr <==> n <= h[q].size + h[ptr].size))
  {
    BlockBounds(sp, ptr);
    FramedEnds(sp);
    if np in sp.h {
      BlockBounds(sp, np);
    }
    forall q | q in sp.h && q + sp.h[q].size == ptr
      ensures forall r :: r in sp.h && r + sp.h[r].size == ptr ==> r == q
    {
      NoneInside(sp.h, sp.lo, sp.brk, q);
    }
    hide Shaped, Align;
  }

  /** A request is refused, or fatal, exactly if the block would have to grow at, or move to,
      the end of the heap, and the end cannot move. */
  lemma RefusedAtEnd(sp: Space, limit: nat, ptr: nat, size: nat, np: nat)
    requires Shaped(sp) && ptr in sp.h && sp.h[ptr].alloc && Destination(sp, ptr, size, np) && size > 0
    ensures var n := Align(size) + 8;
      && (TailRefused(sp, limit, ptr, size) <==>
            np == ptr && n > sp.h[ptr].size && ptr + sp.h[ptr].size == sp.brk && ptr + n > limit)
      && (Stuck(sp, limit, ptr, size) <==>
            np > ptr && (np + n > limit || (np in sp.h && n <= sp.h[np].size)))
  {
    MovesWhere(sp, ptr, size, np);
    AlignBounds(size);
    BlockBounds(sp, ptr);
    FramedEnds(sp);
    if np > ptr {
      EndStart(sp, ptr, size, np);
    }
    hide Shaped, Align;
  }

  /** The destination at the end of the heap is the only place where do_malloc would grow it. */
  lemma EndStart(sp: Space, ptr: nat, size: nat, np: nat)
    requires Shaped(sp) && ptr in sp.h && sp.h[ptr].alloc && Destination(sp, ptr, size, np) && np > ptr
    ensures MergeStart(sp.h, sp.brk, np) && forall g: nat :: MergeStart(sp.h, sp.brk, g) ==> g == np
  {
    hide Align;
    BlockBounds(sp, ptr);
    if !MergeStart(sp.h, sp.brk, np) {
      BlockBounds(sp, np);
    } else {
      forall g: nat | MergeStart(sp.h, sp.brk, g) ensures g == np {
        MergeStartUnique(sp.h, sp.lo, sp.brk, sp.brk, g, np);
      }
    }
  }

  /** do_malloc cannot grow the heap exactly if the last block is allocated and there is no room
      behind it, or it is free and has no room to grow, or need not. */
  lemma NoRoomAtEnd(sp: Space, limit: nat, n: nat, q: nat)
    requires Shaped(sp) && q in sp.h && q + sp.h[q].size == sp.brk && n % 8 == 0 && n >= 16
    ensures NoRoom(sp, limit, n) <==>
      if sp.h[q].alloc then sp.brk + n > limit else q + n > limit || sp.h[q].size >= n
  {
    var g := if sp.h[q].alloc then sp.brk else q;
    assert sp.h[sp.lo] == Block(8, true);
    FramedEnds(sp);
    forall r | r in sp.h && r + sp.h[r].size == sp.brk ensures r == q {
      NoneInside(sp.h, sp.lo, sp.brk, q);
      BlockBounds(sp, r);
    }
    assert MergeStart(sp.h, sp.brk, g);
    forall g' | MergeStart(sp.h, sp.brk, g') ensures g' == g {
      MergeStartUnique(sp.h, sp.lo, sp.brk, sp.brk, g, g');
    }
    hide Shaped, MergeStart;
  }
}
