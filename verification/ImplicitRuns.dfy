/** Runs of the implicit allocator on an empty heap, under any placement strategy. */
module ImplicitRuns {
  import opened Memory
  import opened Blocks
  import opened LiveBlocks
  import opened ImplicitHeap
  import opened Implicit

  /** The region is fresh: empty and zeroed, with nothing that looks like a block below it. */
  ghost predicate Fresh(lib: Memlib)
    reads lib, lib.mem
  {
    && lib.Valid() && lib.brk == lib.start && Zero(lib.mem[..], lib.start, lib.mem.Length)
    && GetSize(Word(lib.mem[..], lib.start - 4)) == 0
  }

  ghost predicate AllLive(h: Heap) {
    forall p {:trigger h[p]} :: p in h ==> h[p].alloc
  }

  /** Where nothing is free, a request appends a block. */
  lemma Appended(sp: Space, r: nat, n: nat, size: nat)
    requires Shaped(sp) && AllLive(sp.h)
    ensures NoFit(sp.h, size)
    ensures MergeStart(sp.h, sp.brk, r) ==>
      r == sp.brk && Allotted(sp, r, n) == Space(sp.lo, sp.brk + n, sp.h[sp.brk := Block(n, true)])
    ensures AllLive(sp.h[sp.brk := Block(n, true)])
  {
    FramedEnds(sp);
    hide Shaped;
    assert r in sp.h ==> sp.h[r] == sp.h[r];
  }

  lemma InitialLive(brk: nat)
    ensures AllLive(InitialSpace(brk).h) && Apart(InitialSpace(brk).h, 0)
  {
  }

  /** Freeing the last block when the one before it is allocated. */
  lemma LastFreed(sp: Space, p: nat)
    requires Shaped(sp) && AllLive(sp.h) && p in sp.h && p + sp.h[p].size == sp.brk
    ensures FreedHeap(sp.h, p) == Recolored(sp.h, p, false) && p in Live(sp.h)
  {
    FramedEnds(sp);
    assert BlockIn(p, sp.h[p], sp.lo, sp.brk);
    assert MergeStart(sp.h, p, p);
    FreedHeapIs(sp.h, sp.lo, sp.brk, p, p);
  }

  /** An allocator on a fresh region. */
  method Start(lib: Memlib, strategy: Strategy) returns (a: Allocator)
    requires Fresh(lib)
    modifies lib`brk, lib`enomem, lib.mem
    ensures fresh(a) && a.lib == lib && a.strategy == strategy && a.Valid() && a.CursorOk()
    ensures a.sp == InitialSpace(lib.start) && lib.brk == lib.start + 16
  {
    hide Zero, Word, GetSize, InitialSpace;
    a := new Allocator(lib, strategy);
    var r, fault := a.Init();
    InitialFields(lib.start);
  }

  /** A request while nothing is free. */
  method Append(a: Allocator, size: nat) returns (p: nat)
    requires a.Valid() && a.CursorOk() && AllLive(a.sp.h) && Apart(a.sp.h, 0) && 8 <= size <= 4096 && size % 8 == 0
    requires a.lib.brk + size + 8 <= a.lib.mem.Length
    modifies a`sp, a`curp, a.lib`brk, a.lib`enomem, a.lib.mem
    ensures a.Valid() && a.CursorOk() && AllLive(a.sp.h) && Apart(a.sp.h, 0) && p == old(a.sp.brk)
    ensures a.sp == Space(old(a.sp.lo), p + size + 8, old(a.sp.h)[p := Block(size + 8, true)])
  {
    hide Framed, Live, LiveKept, NoFit, MergeStart, Allotted, AllLive, Apart, Picked, NoRoom;
    ShapedOf(a);
    Appended(a.sp, a.sp.brk, size + 8, size);
    forall r: nat | MergeStart(a.sp.h, a.sp.brk, r) ensures r == a.sp.brk {
      Appended(a.sp, r, size + 8, size);
    }
    RoomAtEnd(a.sp, a.lib.mem.Length, size + 8);
    p := a.Malloc(size);
  }

  lemma ShapedOf(a: Allocator)
    requires a.Valid()
    ensures Shaped(a.sp) && a.sp.brk == a.lib.brk && 0 !in a.sp.h
  {
    FramedShape(a.lib.mem[..], a.sp, {});
  }

  lemma RoomAtEnd(sp: Space, limit: nat, n: nat)
    requires Shaped(sp) && AllLive(sp.h) && n % 8 == 0 && n >= 16 && sp.brk + n <= limit
    ensures !NoRoom(sp, limit, n)
  {
    FramedEnds(sp);
    hide Shaped;
    assert MergeStart(sp.h, sp.brk, sp.brk);
  }

  /** malloc(24), malloc(8), free of the second block, realloc of the first to 8 bytes: two
      free blocks adjoin. */
  method ShrinkLeavesNeighbours(lib: Memlib, strategy: Strategy) returns (a: Allocator, p: nat)
    requires Fresh(lib)
    modifies lib`brk, lib`enomem, lib.mem
    ensures a.Valid() && !Apart(a.sp.h, 0)
    ensures p + 16 in a.sp.h && p + 32 in a.sp.h && a.sp.h[p + 16] == a.sp.h[p + 32] == Block(16, false)
  {
    hide Framed, Shaped, Live, LiveKept, NoFit, MergeStart, AllLive, Apart, FreedHeap,
         NoRoom, Word, Zero, Reallocated;
    a := Start(lib, strategy);
    InitialLive(lib.start);
    InitialFields(lib.start);
    p := Append(a, 24);
    var q := Append(a, 8);
    ShapedOf(a);
    LastFreed(a.sp, q);
    a.Free(q);
    var np, fault := a.Realloc(p, 8);
  }

  /** The prologue, two live blocks of 16 bytes, and a free one of 48 at the end. */
  ghost function FreeTail(lo: nat): Space {
    Space(lo, lo + 88, map[lo := Block(8, true), lo + 8 := Block(16, true),
                           lo + 24 := Block(16, true), lo + 40 := Block(48, false)])
  }

  lemma TailStuck(lo: nat, limit: nat)
    ensures var sp := FreeTail(lo); lo + 8 in sp.h && Stuck(sp, limit, lo + 8, 16) && !NoFit(sp.h, 40)
  {
    var sp := FreeTail(lo);
    assert sp.h[lo + 40].Cap() == 40;
    forall g: nat | MergeStart(sp.h, sp.brk, g) ensures g == lo + 40 {
      assert sp.h[lo + 40].size == 48;
    }
  }

  /** malloc(8), malloc(8), malloc(40), free of the third block, realloc of the first to 16
      bytes: NULL, although the third has room. do_malloc does not use it, because it would
      not have to grow. */
  method RefusedWithRoom(lib: Memlib, strategy: Strategy) returns (a: Allocator, p: nat, np: nat)
    requires Fresh(lib)
    modifies lib`brk, lib`enomem, lib.mem
    ensures a.Valid() && np == 0 && p in a.sp.h && a.sp.h[p] == Block(16, true) && !NoFit(a.sp.h, 40)
  {
    hide Framed, Shaped, Live, LiveKept, NoFit, MergeStart, AllLive, Apart, FreedHeap, Stuck,
         NoRoom, Word, Zero, Reallocated, Picked, MergePoint, Destination, Splinters, Reshaped, TailRefused;
    a := Start(lib, strategy);
    InitialLive(lib.start);
    InitialFields(lib.start);
    p := Append(a, 8);
    var q := Append(a, 8);
    var t := Append(a, 40);
    ShapedOf(a);
    LastFreed(a.sp, t);
    a.Free(t);
    assert a.sp == FreeTail(a.listp);
    TailStuck(a.listp, lib.mem.Length);
    var fault;
    np, fault := a.Realloc(p, 16);
  }
}
