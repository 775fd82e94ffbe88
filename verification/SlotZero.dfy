/** What FREELIST_DEL_BLK's exception for 16-byte blocks does to slot 0 of the table: runs of
    the allocator on an empty heap. */
module SlotZero {
  import opened Memory
  import opened Blocks
  import opened LiveBlocks
  import opened SegregateHeap
  import opened HeapView
  import opened ListView
  import Segregate

  /** The prologue and two blocks behind it. */
  ghost function Two(lo: nat, first: Block, second: Block): Heap {
    map[lo := Block(8, true), lo + 8 := first, lo + 8 + first.size := second]
  }

  ghost function One(lo: nat, b: Block): Heap {
    map[lo := Block(8, true), lo + 8 := b]
  }

  /** Nothing is free, so that a request has to grow the heap. */
  lemma NothingFree(lo: nat, b: Block, n: nat)
    requires b.alloc
    ensures NoFit(map[lo := Block(8, true)], n) && NoFit(One(lo, b), n)
  {
  }

  lemma TakeTwo(lo: nat, b: Block, c: Block)
    requires b.alloc && c.alloc && b.size > 0
    ensures Taken(View(map[lo := Block(8, true)], lo + 8, 0), lo + 8, b.size) == View(One(lo, b), lo + 8 + b.size, 0)
    ensures Taken(View(One(lo, b), lo + 8 + b.size, 0), lo + 8 + b.size, c.size)
         == View(Two(lo, b, c), lo + 8 + b.size + c.size, 0)
  {
  }

  lemma FreeSecond(lo: nat, n: nat, brk: nat, head: nat)
    requires n >= 16
    ensures Freed(View(Two(lo, Block(n, true), Block(16, true)), brk, head), lo + 8 + n)
         == View(Two(lo, Block(n, true), Block(16, false)), brk, lo + 8 + n)
    ensures lo + 8 + n in Live(Two(lo, Block(n, true), Block(16, true)))
  {
    var h, p := Two(lo, Block(n, true), Block(16, true)), lo + 8 + n;
    assert !NextFree(h, p) && MergePoint(h, p) == p;
    assert Merged(h, p, p) == Two(lo, Block(n, true), Block(16, false));
  }

  lemma FreeFirst(lo: nat, brk: nat, head: nat)
    ensures Freed(View(Two(lo, Block(16, true), Block(16, false)), brk, head), lo + 8)
         == View(One(lo, Block(32, false)), brk, head)
    ensures lo + 8 in Live(Two(lo, Block(16, true), Block(16, false)))
  {
    var h, p := Two(lo, Block(16, true), Block(16, false)), lo + 8;
    assert NextFree(h, p) && MergePoint(h, p) == p;
    assert Merged(h, p, p) == One(lo, Block(32, false));
  }

  /** A run: malloc(n), malloc(8), and free of the second block, which becomes the head of
      slot 0. */
  method FreeBehind(lib: Memlib, n: nat) returns (a: Segregate.Allocator, p: nat, q: nat)
    requires lib.Valid() && lib.brk == lib.start && 8 <= n <= 4096 && n % 8 == 0
    modifies lib, lib.mem
    ensures a.lib == lib && a.Valid() && fresh(a) && p == a.s.ar.Lo() + 8 && q == p + n + 8 && lib.brk == q + 16
    ensures lib.Valid() && lib.brk == lib.start + 128 + n
    ensures a.View() == View(Two(a.s.ar.Lo(), Block(n + 8, true), Block(16, false)), lib.brk, q)
  {
    hide Core, FreeListed, Apart, SmallSeen, Ptr, LiveKept, Live, NoFit, Freed, Taken, ListsFreed, ListsTaken,
         Gained, Chosen, Word, HeadGood, GoodAfterFree, GoodAfterMalloc;
    a := new Segregate.Allocator(lib);
    var ok := a.Init();
    ghost var lo := a.s.ar.Lo();
    NothingFree(lo, Block(n + 8, true), n);
    NothingFree(lo, Block(n + 8, true), 8);
    TakeTwo(lo, Block(n + 8, true), Block(16, true));
    p := a.Malloc(n);
    q := a.Malloc(8);
    FreeSecond(lo, n + 8, lib.brk, 0);
    a.Free(q);
  }

  lemma OnlyFree(lo: nat, r: nat)
    requires r in One(lo, Block(32, false)) && r !in Live(One(lo, Block(32, false)))
    ensures r == lo + 8
  {
    assert lo in Live(One(lo, Block(32, false)));
  }

  lemma TakeWhole(lo: nat, brk: nat, head: nat, n: nat)
    requires n >= 16
    ensures Taken(View(One(lo, Block(n, false)), brk, head), lo + 8, n) == View(One(lo, Block(n, true)), brk, head)
    ensures Taken(View(One(lo, Block(n, true)), brk, head), lo + 8, n) == View(One(lo, Block(n, true)), brk, head)
    ensures !NoFit(One(lo, Block(n, false)), n - 8) && lo + 8 in Live(One(lo, Block(n, true)))
  {
    assert One(lo, Block(n, false))[lo + 8].Cap() == n - 8;
  }

  /** malloc(8), malloc(8), free of the second and of the first block, malloc(24): the head
      of slot 0 is no block at all, but an address inside the payload of the allocated r. */
  method StaleByFree(lib: Memlib) returns (a: Segregate.Allocator, r: nat, q: nat)
    requires lib.Valid() && lib.brk == lib.start
    modifies lib, lib.mem
    ensures a.lib == lib && a.Valid() && a.View() == View(One(a.s.ar.Lo(), Block(32, true)), lib.brk, q)
    ensures r == a.s.ar.Lo() + 8 && q == r + 16 && Ptr(lib.mem[..], a.table) == q && !HeadGood(a.View())
  {
    hide Core, FreeListed, Apart, SmallSeen, Ptr, LiveKept, Live, NoFit, Freed, Taken, ListsFreed, ListsTaken,
         Gained, Chosen, Word, GoodAfterFree, GoodAfterMalloc;
    var p;
    a, p, q := FreeBehind(lib, 8);
    ghost var lo := a.s.ar.Lo();
    FreeFirst(lo, lib.brk, q);
    a.Free(p);
    TakeWhole(lo, lib.brk, q, 32);
    r := a.Malloc(24);
    OnlyFree(lo, r);
  }

  lemma CutFirst(lo: nat, brk: nat, head: nat)
    ensures Cut(View(Two(lo, Block(40, true), Block(16, false)), brk, head), lo + 8, 24)
         == View(Two(lo, Block(24, true), Block(32, false)), brk, head)
    ensures lo + 8 in Live(Two(lo, Block(40, true), Block(16, false)))
    ensures Live(Two(lo, Block(40, true), Block(16, false)))[lo + 8] == 40
    ensures !HeadGood(View(Two(lo, Block(24, true), Block(32, false)), brk, lo + 48))
  {
    var h, p := Two(lo, Block(40, true), Block(16, false)), lo + 32;
    var h1 := Split(h, lo + 8, 24, true, false);
    assert h1[lo + 8] == Block(24, true) && h1[p] == Block(16, false);
    assert NextFree(h1, p) && MergePoint(h1, p) == p;
    assert Merged(h1, p, p) == Two(lo, Block(24, true), Block(32, false));
  }

  /** malloc(32), malloc(8), free of the second block, realloc of the first to 16 bytes: no
      neighbour of the head was freed, but the rest of the first block swallows it. */
  method StaleByRealloc(lib: Memlib) returns (a: Segregate.Allocator, p: nat, q: nat)
    requires lib.Valid() && lib.brk == lib.start
    modifies lib, lib.mem
    ensures a.lib == lib && a.Valid() && Ptr(lib.mem[..], a.table) == q && !HeadGood(a.View())
    ensures a.View() == View(Two(a.s.ar.Lo(), Block(24, true), Block(32, false)), lib.brk, q) && q == p + 40
  {
    hide Core, FreeListed, Apart, SmallSeen, Ptr, LiveKept, Live, NoFit, Freed, Cut, Taken, ListsFreed, ListsCut,
         ListsTaken, Gained, Resized, Word, HeadGood, GoodAfterRealloc;
    a, p, q := FreeBehind(lib, 32);
    CutFirst(a.s.ar.Lo(), lib.brk, q);
    var np, fault := a.Realloc(p, 16);
  }

  lemma OneFreed(lo: nat, brk: nat, head: nat)
    ensures Freed(View(One(lo, Block(16, true)), brk, head), lo + 8) == View(One(lo, Block(16, false)), brk, lo + 8)
    ensures lo + 8 in Live(One(lo, Block(16, true)))
  {
    var h, p := One(lo, Block(16, true)), lo + 8;
    assert !NextFree(h, p) && MergePoint(h, p) == p;
    assert Merged(h, p, p) == One(lo, Block(16, false));
  }

  /** malloc(8), free, malloc(8), malloc(8): the last two calls return the same block. */
  method SamePayloadTwice(lib: Memlib) returns (a: Segregate.Allocator, r1: nat, r2: nat)
    requires lib.Valid() && lib.brk == lib.start
    modifies lib, lib.mem
    ensures a.lib == lib && a.Valid() && r1 == r2 && r1 in Live(a.s.ar.h)
  {
    hide Core, FreeListed, Apart, SmallSeen, Ptr, LiveKept, Live, NoFit, Freed, Taken, ListsFreed, ListsTaken,
         Gained, Chosen, Word, HeadGood, GoodAfterFree, GoodAfterMalloc;
    a := new Segregate.Allocator(lib);
    var ok := a.Init();
    ghost var lo := a.s.ar.Lo();
    NothingFree(lo, Block(16, true), 8);
    TakeTwo(lo, Block(16, true), Block(16, true));
    var p := a.Malloc(8);
    OneFreed(lo, lib.brk, 0);
    a.Free(p);
    TakeWhole(lo, lib.brk, p, 16);
    r1 := a.Malloc(8);
    r2 := a.Malloc(8);
  }
}
