/** segregate.c: the segregated-fit allocator. */
module Segregate {
  import opened Memory
  import opened Blocks
  import opened LiveBlocks
  import opened SizeClass
  import opened FreeLists
  import opened SegregateHeap
  import opened HeapView
  import opened ListView

  class Allocator {
    const lib: Memlib
    var table: nat        // freelist_table
    var listp: nat        // heap_listp
    ghost var s: State

    constructor (lib: Memlib)
      ensures this.lib == lib
    {
      this.lib := lib;
      table, listp := 0, 0;
      s := State(Arena(0, 0, map[]), map[], 0);
    }

    ghost predicate CoreOk()
      reads this, lib, lib.mem
    {
      && lib.Valid() && lib.start <= table
      && s.ar.brk == lib.brk && s.ar.tbl == table && s.ar.Lo() == listp
      && Core(lib.mem[..], s)
    }

    ghost predicate Valid()
      reads this, lib, lib.mem
    {
      CoreOk() && FreeListed(s.ar.h, s.nd, 0) && Apart(s.ar.h, 0) && SmallSeen(View(), 0)
    }

    /** The blocks and the head of slot 0. */
    ghost function View(): View
      reads this, lib, lib.mem
    {
      HeapView.View(s.ar.h, lib.brk, Ptr(lib.mem[..], table))
    }

    /** The free lists. */
    ghost function Order(): Lists
      reads this
    {
      Lists(s.nd, s.ctr)
    }

    /** FREELIST_DEL_BLK: a free block of more than 16 bytes is taken off its list; smaller
        blocks are left where they are. */
    method DelBlk(bp: nat)
      requires CoreOk() && bp in s.ar.h
      requires s.ar.h[bp].size > BLK_MIN_SIZE ==> bp in s.nd
      modifies this`s, lib.mem
      ensures CoreOk() && s == old(s).(nd := old(s.nd) - {bp})
      ensures Ptr(lib.mem[..], table) == old(Ptr(lib.mem[..], table))
      ensures LiveKept(old(lib.mem[..]), lib.mem[..], s.ar.h, 0)
    {
      hide Framed, Linked, NodesFree, Stamped, LiveKept, Only, Ptr, Word, GetSize;
      ghost var m := lib.mem[..];
      ReadTag(m, s.ar, bp);
      var size := BlkSize(lib, bp);
      if size > BLK_MIN_SIZE {
        NodeBounds(m, s, bp);
        var prevp := lib.Load64(bp + 8);
        var nextp := lib.Load64(bp);
        lib.Store64(prevp, nextp);
        ghost var m1 := lib.mem[..];
        if nextp != 0 {
          lib.Store64(nextp + 8, prevp);
        }
        Unlink(m, m1, lib.mem[..], s, bp);
      } else {
        SmallNotNode(s, bp);
        LiveKeptSelf(m, s.ar.h, 0);
      }
      s := s.(nd := s.nd - {bp});
    }

    /** freelist_insert2: a block of more than 16 bytes is pushed at the front of its list;
        a 16-byte block is put in front of slot 0. */
    method FreelistInsert2(freelistp: nat, bp: nat)
      requires CoreOk() && bp in s.ar.h && !s.ar.h[bp].alloc && bp !in s.nd
      requires s.ar.h[bp].size >= 16 && freelistp == table + 8 * FltClass(s.ar.h[bp].size - 8)
      modifies this`s, lib.mem
      ensures CoreOk() && s.ar == old(s.ar)
      ensures s.nd == if s.ar.h[bp].size > BLK_MIN_SIZE
                      then old(s.nd)[bp := Node(FltClass(s.ar.h[bp].size - 8), old(s.ctr))] else old(s.nd)
      ensures s.ctr == if s.ar.h[bp].size > BLK_MIN_SIZE then old(s.ctr) + 1 else old(s.ctr)
      ensures Ptr(lib.mem[..], table) == if s.ar.h[bp].size > BLK_MIN_SIZE then old(Ptr(lib.mem[..], table)) else bp
      ensures s.ar.h[bp].size == BLK_MIN_SIZE ==> Ptr(lib.mem[..], bp) == old(Ptr(lib.mem[..], table))
      ensures LiveKept(old(lib.mem[..]), lib.mem[..], s.ar.h, 0)
    {
      hide Framed, Linked, NodesFree, Stamped, LiveKept, Only, FltClass, Ptr, Word, GetSize;
      ghost var m := lib.mem[..];
      FreeBounds(m, s, bp);
      ghost var i := FltClass(s.ar.h[bp].size - 8);
      var nextp := lib.Load64(freelistp);
      var size := BlkSize(lib, bp);
      if size == BLK_MIN_SIZE {
        lib.Store64(bp, nextp);
        ghost var m1 := lib.mem[..];
        lib.Store64(freelistp, bp);
        PushSmall(m, m1, lib.mem[..], s, bp);
        return;
      }
      SlotHead(m, s, i);
      nextp := lib.Load64(freelistp);
      lib.Store64(bp, nextp);
      ghost var m1 := lib.mem[..];
      lib.Store64(bp + 8, freelistp);
      ghost var m2 := lib.mem[..];
      lib.Store64(freelistp, bp);
      ghost var m3 := lib.mem[..];
      if nextp != 0 {
        lib.Store64(nextp + 8, bp);
      }
      Push(m, m1, m2, m3, lib.mem[..], s, bp, i);
      s := s.(nd := s.nd[bp := Node(i, s.ctr)], ctr := s.ctr + 1);
    }

    /** The first half of coalesce: a free block behind bp is taken off its list, and its
        size is added. */
    method TakeNext(bp: nat) returns (size: nat)
      requires CoreOk() && bp in s.ar.h && FreeListed(s.ar.h, s.nd, bp)
      modifies this`s, lib.mem
      ensures TookNext(old(s), s, bp, size)
      ensures CoreOk() && LiveKept(old(lib.mem[..]), lib.mem[..], s.ar.h, 0)
      ensures Ptr(lib.mem[..], table) == old(Ptr(lib.mem[..], table))
    {
      hide Framed, Linked, NodesFree, Stamped, LiveKept, Only, Ptr, Word, GetSize, GetAlloc, FreeListed;
      ReadTag(lib.mem[..], s.ar, bp);
      ReadNext(lib.mem[..], s.ar, bp);
      LiveKeptSelf(lib.mem[..], s.ar.h, 0);
      size := BlkSize(lib, bp);
      var n := bp + size;
      var nextAlloc := BlkAlloc(lib, n);
      if !nextAlloc {
        ListedNext(s, bp);
        DelBlk(n);
        ReadTag(lib.mem[..], s.ar, n);
        var nextSize := BlkSize(lib, n);
        size := size + nextSize;
      }
    }

    /** The second half of coalesce: a free block before bp is taken off its list, and its
        size is added. */
    method TakePrev(bp: nat, size0: nat, ghost s0: State) returns (p: nat, size: nat)
      requires CoreOk() && bp in s.ar.h && bp != listp && s0.ar == s.ar && FreeListed(s.ar.h, s0.nd, bp)
      requires forall q :: q in s0.nd && q < bp ==> q in s.nd
      modifies this`s, lib.mem
      ensures TookPrev(old(s), s, bp, p, size0, size)
      ensures CoreOk() && LiveKept(old(lib.mem[..]), lib.mem[..], s.ar.h, 0)
      ensures Ptr(lib.mem[..], table) == old(Ptr(lib.mem[..], table))
    {
      hide Framed, Linked, NodesFree, Stamped, LiveKept, Only, Ptr, Word, GetSize, GetAlloc, FreeListed, MergeStart;
      LiveKeptSelf(lib.mem[..], s.ar.h, 0);
      p, size := bp, size0;
      ReadTag(lib.mem[..], s.ar, bp);
      ghost var q := ReadPrev(lib.mem[..], s.ar, bp);
      var footer := lib.Load32(bp - 8);
      if !GetAlloc(footer) {
        p := bp - GetSize(footer);
        ListedPrev(s0, bp, q);
        DelBlk(p);
        ReadTag(lib.mem[..], s.ar, p);
        footer := lib.Load32(bp - 8);
        size := size + GetSize(footer);
      }
    }

    /** coalesce: bp becomes free and swallows its free neighbours, which leave their lists. */
    method Coalesce(bp: nat) returns (p: nat)
      requires CoreOk() && bp in s.ar.h && bp != listp && bp !in s.nd
      requires FreeListed(s.ar.h, s.nd, bp) && Apart(s.ar.h, bp)
      modifies this`s, lib.mem
      ensures CoreOk() && MergeStart(old(s.ar.h), bp, p)
      ensures s.ar == old(s.ar).(h := Merged(old(s.ar.h), bp, p)) && s.ctr == old(s.ctr)
      ensures s.nd == old(s.nd) - {p, bp + old(s.ar.h[bp].size)}
      ensures p !in s.nd && FreeListed(s.ar.h, s.nd, p) && Apart(s.ar.h, 0)
      ensures Ptr(lib.mem[..], table) == old(Ptr(lib.mem[..], table))
      ensures LiveKept(old(lib.mem[..]), lib.mem[..], old(s.ar.h), bp)
    {
      hide Framed, Shaped, Linked, NodesFree, Stamped, LiveKept, Retagged, Merged, Apart, FreeListed, MergeStart, Ptr;
      ghost var m, s0, h := lib.mem[..], s, s.ar.h;
      var size := TakeNext(bp);
      ghost var m1 := lib.mem[..];
      p, size := TakePrev(bp, size, s0);
      ghost var m2 := lib.mem[..];
      LiveKeptTrans(m, m1, m2, h, 0);
      MergedBlock(h, bp, p);
      MergedBounds(m2, s.ar, bp, p);
      SetBlk(lib, p, size, false);
      CoalesceDone(m, m2, lib.mem[..], s0, s, bp, p);
      CoalesceOrder(s0, bp, p);
      s := s.(ar := s.ar.(h := Merged(h, bp, p)));
    }

    /** freelist_insert: coalesce, then put the merged block on its list. */
    method FreelistInsert(bp: nat)
      requires CoreOk() && bp in s.ar.h && bp != listp && bp !in s.nd
      requires FreeListed(s.ar.h, s.nd, bp) && Apart(s.ar.h, bp) && SmallSeen(View(), bp)
      modifies this`s, lib.mem
      ensures Valid() && s.ar.tbl == old(s.ar.tbl)
      ensures View() == Freed(old(View()), bp) && Live(s.ar.h) == Live(old(s.ar.h)) - {bp}
      ensures Order() == ListsFreed(old(Order()), old(s.ar.h), bp)
      ensures LiveKept(old(lib.mem[..]), lib.mem[..], old(s.ar.h), bp)
    {
      hide Framed, Shaped, Linked, NodesFree, Stamped, LiveKept, Merged, Apart, FreeListed, MergeStart, FltClass,
           GetSize, Ptr, Freed, Live, SmallSeen;
      ghost var m, ar, v, l := lib.mem[..], s.ar, View(), Order();
      FramedShape(m, ar, {});
      var p := Coalesce(bp);
      ghost var m1, nd1 := lib.mem[..], s.nd;
      MergedBlock(ar.h, bp, p);
      MergedBounds(m, ar, bp, p);
      FreeBounds(m1, s, p);
      var size := BlkSize(lib, p);
      var i := FltIndex(size - 8);
      FreelistInsert2(table + 8 * i, p);
      InsertKept(m, m1, lib.mem[..], ar, bp, p);
      ListedAfterInsert(s.ar.h, nd1, s.nd, p);
      InsertView(v, ar, bp, p);
      InsertOrder(l, ar, bp, p);
      InsertSeen(v, ar, bp);
    }

    /** segregate_mm_free: the block is no longer allocated; no other allocated block, and
        no byte of its payload, changes. */
    method Free(ptr: nat)
      requires Valid() && ptr in Live(s.ar.h) && ptr != listp
      modifies this`s, lib.mem
      ensures Valid() && s.ar.tbl == old(s.ar.tbl)
      ensures View() == Freed(old(View()), ptr) && Live(s.ar.h) == Live(old(s.ar.h)) - {ptr}
      ensures Order() == ListsFreed(old(Order()), old(s.ar.h), ptr)
      ensures HeadGood(View()) <==> old(GoodAfterFree(View(), ptr))
      ensures LiveKept(old(lib.mem[..]), lib.mem[..], old(s.ar.h), ptr)
    {
      hide Framed, Shaped, Linked, NodesFree, Stamped, LiveKept, Merged, Apart, FreeListed, MergeStart, Ptr, Freed,
           HeadGood, GoodAfterFree, SmallSeen;
      ghost var h := s.ar.h;
      FreeHead(lib.mem[..], s.ar, View(), ptr);
      FramedShape(lib.mem[..], s.ar, {});
      LiveNotNode(s, ptr);
      assert s.nd - {ptr} == s.nd;
      FreeListedWeaken(h, s.nd, s.nd, ptr);
      ApartWeaken(h, ptr);
      SeenWeaken(View(), ptr);
      FreelistInsert(ptr);
    }

    /** The block that freelist_alloc chose is taken off its list, cut if at least 16 bytes
        would be left over, and allocated. It is free, or else of 16 bytes only. */
    method TakeBlock(p: nat, nsize: nat)
      requires Valid() && p in s.ar.h && p != listp && 16 <= nsize <= s.ar.h[p].size && nsize % 8 == 0
      requires s.ar.h[p].alloc ==> s.ar.h[p].size == BLK_MIN_SIZE
      modifies this`s, lib.mem
      ensures Valid() && s.ar.tbl == old(s.ar.tbl) && s.ar.brk == old(s.ar.brk)
      ensures View() == Taken(old(View()), p, nsize)
      ensures Order() == ListsTaken(old(Order()), old(s.ar.h), p, nsize)
      ensures Live(s.ar.h)
           == Live(old(s.ar.h))[p := if old(s.ar.h[p].size) - nsize >= 16 then nsize else old(s.ar.h[p].size)]
      ensures LiveKept(old(lib.mem[..]), lib.mem[..], old(s.ar.h), 0)
    {
      hide Framed, Shaped, Linked, NodesFree, Stamped, LiveKept, Merged, Apart, FreeListed, MergeStart, Split,
           Recolored, Retagged, Live, Same, Ptr, Cut, ListsCut, SmallSeen;
      ghost var m, s0, v := lib.mem[..], s, View();
      ghost var h := s.ar.h;
      FramedShape(m, s.ar, {});
      ReadTag(m, s.ar, p);
      OnList(s, p);
      var bsize := BlkSize(lib, p);
      DelBlk(p);
      FreeListedWeaken(h, s0.nd, s.nd, p);
      ghost var m1 := lib.mem[..];
      CutOnce(s0, p, nsize);
      SeenWeaken(v, p);
      var rsize := bsize - nsize;
      if rsize >= BLK_MIN_SIZE {
        CutAndInsert(p, nsize, rsize, m);
        FreeKept(m, lib.mem[..], h, p);
      } else {
        ReadTag(m1, s.ar, p);
        var size := BlkSize(lib, p);
        SetBlk(lib, p, size, true);
        TakeStore(m1, lib.mem[..], s, p);
        TakeFacts(h, s.nd, p);
        RecoloredSeen(v, p);
        LiveKeptTrans(m, m1, lib.mem[..], h, 0);
        s := s.(ar := s.ar.(h := Recolored(h, p, true)));
      }
    }

    /** The two SET_BLKs that cut p after nsize bytes, and the insertion of the rest; m is
        an earlier memory with the same allocated payloads. */
    method CutAndInsert(p: nat, nsize: nat, rsize: nat, ghost m: Mem)
      requires CoreOk() && p in s.ar.h && p != listp && p !in s.nd
      requires FreeListed(s.ar.h, s.nd, p) && Apart(s.ar.h, 0) && SmallSeen(View(), p)
      requires 16 <= nsize && nsize % 8 == 0 && 16 <= rsize && nsize + rsize == s.ar.h[p].size
      requires LiveKept(m, lib.mem[..], s.ar.h, 0)
      modifies this`s, lib.mem
      ensures Valid() && s.ar.tbl == old(s.ar.tbl) && s.ar.brk == old(s.ar.brk)
      ensures Live(s.ar.h) == Live(old(s.ar.h))[p := nsize]
      ensures LiveKept(m, lib.mem[..], old(s.ar.h), p)
      ensures Same(old(lib.mem[..]), lib.mem[..], p, p + nsize - 8)
      ensures View() == Cut(old(View()), p, nsize)
      ensures Order() == ListsCut(old(Order()), old(s.ar.h), p, nsize)
    {
      hide Framed, Shaped, Linked, NodesFree, Stamped, LiveKept, Merged, Apart, FreeListed, MergeStart, Split,
           Retagged, Live, Same, GetSize, TagAt, Freed, Ptr, ListsFreed, SmallSeen;
      ghost var m0, ar0, v := lib.mem[..], s.ar, View();
      FramedShape(m0, ar0, {});
      SplitShape(ar0, p, nsize);
      SetBlk(lib, p, nsize, true);
      ghost var m1 := lib.mem[..];
      RetaggedSize(m0, m1, p, nsize);
      var n := BlkSize(lib, p);
      SetBlk(lib, p + n, rsize, false);
      ghost var m2 := lib.mem[..];
      SplitStores(m0, m1, m2, s, p, nsize);
      SplitFacts(ar0, s.nd, p, nsize);
      SplitRest(ar0, p, nsize);
      SplitRestNotNode(s, p + nsize);
      s := s.(ar := ar0.(h := Split(ar0.h, p, nsize, true, false)));
      HeaderKept(m1, m2, p, nsize, rsize);
      n := BlkSize(lib, p);
      assert s.nd - {p} == s.nd;
      CutOff(v, ar0, p, nsize);
      FreelistInsert(p + n);
      SplitKept(m0, m2, lib.mem[..], ar0, p, nsize);
      LiveKeptWeaken(m, m0, ar0.h, p);
      LiveKeptTrans(m, m0, lib.mem[..], ar0.h, p);
      RestNotLive(ar0.h, p, nsize);
    }

    /** The head of slot 0 is null, or a block that freelist_alloc can take for a request of
        at most 8 bytes: a free block, or an allocated one without links of its own. */
    ghost predicate HeadUsable(size: nat)
      reads this, lib, lib.mem
    {
      var z := Ptr(lib.mem[..], table);
      z == 0 || (size <= 8 && z in s.ar.h && z != listp && (s.ar.h[z].alloc ==> s.ar.h[z].size == BLK_MIN_SIZE))
    }

    /** freelist_alloc on slot i: the first block of the list that is large enough is taken;
        0 means that the list has none. From slot 0, always the head is taken, even if it is
        allocated: 16-byte blocks are never taken off the list. */
    method FreelistAlloc(ghost i: nat, freelistp: nat, size: nat) returns (r: nat)
      requires Valid() && i <= 10 && freelistp == table + 8 * i && 1 <= size < 0x7FFF_FFF0
      requires i == 0 ==> HeadUsable(size)
      modifies this`s, lib.mem
      ensures Valid() && s.ar.tbl == old(s.ar.tbl) && s.ar.brk == old(s.ar.brk)
      ensures LiveKept(old(lib.mem[..]), lib.mem[..], old(s.ar.h), 0)
      ensures r == 0 ==> s == old(s) && lib.mem[..] == old(lib.mem[..])
      ensures r == 0 && i > 0 ==> AllSmaller(s.ar.h, SlotList(lib.mem[..], s.ar.tbl, s.nd, i), Align(size) + 8)
      ensures r != 0 ==> r in old(s.ar.h) && View() == Taken(old(View()), r, Align(size) + 8)
      ensures r != 0 ==> Order() == ListsTaken(old(Order()), old(s.ar.h), r, Align(size) + 8)
      ensures r != 0 ==> Takable(old(s.ar.h)[r], Align(size) + 8)
      ensures r != 0 && !old(s.ar.h)[r].alloc ==> Gained(old(s.ar.h), s.ar.h, r, size)
      ensures r != 0 && i > 0 ==> !old(s.ar.h)[r].alloc
      ensures r != 0 && i > 0 ==>
        FirstFit(old(s.ar.h), SlotList(old(lib.mem[..]), old(s.ar.tbl), old(s.nd), i), Align(size) + 8, r)
      ensures i == 0 ==> r == old(Ptr(lib.mem[..], table))
    {
      hide Framed, Shaped, Linked, NodesFree, Stamped, LiveKept, Apart, FreeListed, Live, GetSize, Gained, AllSmaller,
           FirstFit, Word, Ptr, Searched, SlotList, Chain, Taken, ListsTaken, SmallSeen;
      ghost var m, s0, h := lib.mem[..], s, s.ar.h;
      LiveKeptSelf(m, h, 0);
      TableBounds(m, s);
      var p := lib.Load64(freelistp);
      if p == 0 {
        if i > 0 { EmptySlot(m, s, i, Align(size) + 8); }
        return 0;
      }
      var nsize := Align(size) + 8;
      AlignBounds(size);
      ghost var visited: seq<nat> := [];
      if i > 0 {
        SlotHead(m, s, i);
        EmptySmaller(h, nsize);
        SearchStart(m, s, i, p);
      }
      while p != 0
        invariant Valid() && s == s0 && lib.mem[..] == m
        invariant i == 0 ==> p == Ptr(m, table) && p in h && p != listp
        invariant i > 0 ==> (p == 0 || p in s.nd) && Searched(m, s, i, visited, p) && AllSmaller(h, visited, nsize)
        decreases if p != 0 && p in s.nd then s.nd[p].stamp + 1 else 0
      {
        if i > 0 { NodeRoom(m, s.ar, s.nd, {}, p); }
        ReadTag(m, s.ar, p);
        var bsize := BlkSize(lib, p);
        if bsize >= nsize {
          if i > 0 { SearchFound(m, s, i, visited, p, nsize); }
          TakeBlock(p, nsize);
          LiveIff(h, p);
          if !h[p].alloc { TakenGained(h, s.ar.h, p, size); }
          return p;
        }
        SmallFits(m, s, p, nsize);
        SearchStep(m, s, i, visited, p, nsize);
        visited := visited + [p];
        p := lib.Load64(p);
      }
      SearchEnd(m, s, i, visited);
      return 0;
    }

    /** extend_heap: 0 exactly when the size is 0, unaligned, or refused by mem_sbrk. */
    method ExtendHeap(size: int) returns (oldBrk: nat)
      requires lib.Valid()
      modifies lib`brk, lib`enomem, lib.mem
      ensures lib.Valid()
      ensures size > 0 && size % 8 == 0 && old(lib.brk) + size <= lib.mem.Length ==>
        && oldBrk == old(lib.brk) && lib.brk == oldBrk + size && lib.enomem == old(lib.enomem)
        && Word(lib.mem[..], lib.brk - 4) == Pack(0, true) && Only(old(lib.mem[..]), lib.mem[..], lib.brk - 4, 4)
      ensures !(size > 0 && size % 8 == 0 && old(lib.brk) + size <= lib.mem.Length) ==>
        && oldBrk == 0 && lib.brk == old(lib.brk) && lib.mem[..] == old(lib.mem[..])
        && lib.enomem == (old(lib.enomem) || (size != 0 && size % 8 == 0))
    {
      if size == 0 {
        return 0;
      }
      if size % 8 != 0 {
        return 0;
      }
      var r := lib.Sbrk(size);
      if r == -1 {
        return 0;
      }
      oldBrk := r;
      var brk := lib.Sbrk(0);
      lib.Store32(brk - 4, Pack(0, true));
    }

    /** segregate_mm_init: the table, padding, prologue and epilogue; 1 if mem_sbrk refuses. */
    method Init() returns (r: int)
      requires lib.Valid() && lib.brk % 8 == 0
      modifies this, lib`brk, lib`enomem, lib.mem
      ensures r == 0 || r == 1
      ensures r == 1 <==> old(lib.brk) + 104 > lib.mem.Length
      ensures r == 0 ==>
        Valid() && s == InitialState(old(lib.brk)) && lib.brk == old(lib.brk) + 104 && lib.enomem == old(lib.enomem)
      ensures r == 0 ==> Ptr(lib.mem[..], table) == 0
    {
      hide Word, HeapOk, InitialState, Ptr, SmallSeen;
      table := ExtendHeap(8 * FLT_SLOT_NUM + 4 + 4 + 4 + 4);
      if table == 0 {
        return 1;
      }
      lib.Memset(table, 0, 8 * FLT_SLOT_NUM);
      listp := table + 8 * FLT_SLOT_NUM;
      ghost var m0 := lib.mem[..];
      lib.Store32(listp, 0xDEADBEEF);
      ghost var m1 := lib.mem[..];
      lib.Store32(listp + 4, Pack(8, true));
      ghost var m2 := lib.mem[..];
      lib.Store32(listp + 4 + 4, Pack(8, true));
      ghost var m3 := lib.mem[..];
      lib.Store32(listp + 4 + 4 + 4, Pack(0, true));
      InitStores(m0, m1, m2, m3, lib.mem[..], table);
      listp := listp + 4 + 4;
      s := InitialState(table);
      InitialFields(lib.mem[..], table);
      return 0;
    }

    /** segregate_mm_malloc. It succeeds unless no free block has room and mem_sbrk refuses;
        then nothing changes. The new block has the aligned size or 8 bytes more, and was
        not allocated before. The heap grows only if no free block has room. The exception
        are requests of at most 8 bytes while slot 0 has a head: they get the head, which was
        allocated before if the head was. */
    method Malloc(size: nat) returns (r: nat)
      requires Valid() && 1 <= size < 0x7FFF_FFF0 && (size > 8 || HeadUsable(size))
      modifies this`s, lib`brk, lib`enomem, lib.mem
      ensures Valid() && s.ar.tbl == old(s.ar.tbl)
      ensures LiveKept(old(lib.mem[..]), lib.mem[..], old(s.ar.h), 0)
      ensures r == 0 ==> s == old(s) && lib.mem[..] == old(lib.mem[..]) && lib.enomem && lib.brk == old(lib.brk)
      ensures r == 0 ==> lib.brk + Align(size) + 8 > lib.mem.Length
      ensures r == 0 ==> NoFit(s.ar.h, Align(size))
      ensures r != 0 ==> View() == Taken(old(View()), r, Align(size) + 8) && lib.enomem == old(lib.enomem)
      ensures r != 0 ==> Order() == ListsTaken(old(Order()), old(s.ar.h), r, Align(size) + 8)
      ensures r != 0 ==> (HeadGood(View()) <==> GoodAfterMalloc(old(View()), r, Align(size) + 8))
      ensures r != 0 && size > 8 && old(HeadGood(View())) ==> HeadGood(View())
      ensures r != 0 && r !in Live(old(s.ar.h)) ==> Gained(old(s.ar.h), s.ar.h, r, size)
      ensures r != 0 ==>
        (r in Live(old(s.ar.h)) <==> size <= 8 && old(Ptr(lib.mem[..], table)) in Live(old(s.ar.h)))
      ensures size <= 8 && old(Ptr(lib.mem[..], table)) != 0 ==> r == old(Ptr(lib.mem[..], table))
      ensures r != 0 && lib.brk == old(lib.brk) ==> r in old(s.ar.h) && Takable(old(s.ar.h)[r], Align(size) + 8)
      ensures r != 0 && lib.brk == old(lib.brk) && (size > 8 || old(Ptr(lib.mem[..], table)) == 0) ==>
        !NoFit(old(s.ar.h), Align(size)) && Chosen(old(lib.mem[..]), old(s), size, r)
      ensures r != 0 && lib.brk != old(lib.brk) ==> r == old(lib.brk) && lib.brk == r + Align(size) + 8
      ensures r != 0 && lib.brk != old(lib.brk) ==> NoFit(old(s.ar.h), Align(size))
    {
      hide Framed, Shaped, Linked, NodesFree, Stamped, LiveKept, Apart, FreeListed, Live, GetSize, Gained, AllSmaller,
           FirstFit, Word, Ptr, SlotList, Chain, SlotsSmaller, NoFit, FltClass, Chosen, Taken,
           HeadGood, GoodAfterMalloc, ListsTaken, SmallSeen;
      ghost var m, s0, h, v := lib.mem[..], s, s.ar.h, View();
      AlignBounds(size);
      var nsize := Align(size) + 8;
      var index := FltIndex(size);
      ghost var c := FltClass(size);
      ClassRange(size);
      var i := index;
      NoSlots(h, s.nd, c, nsize);
      HeadLive(m, s);
      while i < FLT_SLOT_NUM
        invariant c <= i <= FLT_SLOT_NUM
        invariant Valid() && s == s0 && lib.mem[..] == m && lib.brk == old(lib.brk) && lib.enomem == old(lib.enomem)
        invariant size <= 8 && i > 0 ==> Ptr(m, table) == 0
        invariant SlotsSmaller(h, s.nd, c, i, nsize)
      {
        r := FreelistAlloc(i, table + 8 * i, size);
        if r != 0 {
          LiveIff(h, r);
          MallocHead(m, s0, v, r, nsize);
          if i > 0 {
            FoundFirst(m, s0, i, size, r);
            FoundFits(h, s.ar.h, SlotList(m, s0.ar.tbl, s0.nd, i), size, r);
          }
          return r;
        }
        if i == 0 { NoNodeInSlotZero(m, s, nsize); } else { SlotSearched(m, s, i, c, nsize); }
        i := i + 1;
      }
      MallocSearched(m, s, v, size);
      r := ExtendHeap(nsize);
      if r == 0 {
        LiveKeptSelf(m, h, 0);
        return 0;
      }
      ghost var m1 := lib.mem[..];
      FramedShape(m, s.ar, {});
      SetBlk(lib, r, nsize, true);
      GrowStores(m, m1, lib.mem[..], s, nsize);
      GrowFacts(s.ar, s.nd, nsize);
      GrowGained(s.ar, size);
      GrowTaken(v, Order(), s.ar, nsize);
      GrownSeen(v, r, nsize);
      MallocHead(m, s0, v, r, nsize);
      s := s.(ar := s.ar.(brk := s.ar.brk + nsize, h := s.ar.h[s.ar.brk := Block(nsize, true)]));
    }

    /** segregate_mm_realloc. With a live pointer and a positive size, the block ends up at
        np with the aligned size or 8 bytes more, its old contents are kept up to the smaller
        of the two sizes, and no other allocated block changes. `fault` means that the
        program dies: malloc returned NULL and memcpy was called all the same. */
    method Realloc(ptr: nat, size: nat) returns (np: nat, fault: bool)
      requires Valid() && size < 0x7FFF_FFE0
      requires ptr == 0 ==> size > 8 || (size > 0 && HeadUsable(size))
      requires ptr != 0 ==> ptr in Live(s.ar.h) && ptr != listp
      modifies this`s, lib`brk, lib`enomem, lib.mem
      ensures Valid() && s.ar.tbl == old(s.ar.tbl)
      ensures LiveKept(old(lib.mem[..]), lib.mem[..], old(s.ar.h), ptr)
      ensures ptr == 0 && np != 0 ==>
        && !fault && View() == Taken(old(View()), np, Align(size) + 8) && lib.enomem == old(lib.enomem)
        && Order() == ListsTaken(old(Order()), old(s.ar.h), np, Align(size) + 8)
      ensures ptr == 0 && np != 0 && np !in Live(old(s.ar.h)) ==> Gained(old(s.ar.h), s.ar.h, np, size)
      ensures ptr == 0 && np != 0 ==>
        (np in Live(old(s.ar.h)) <==> size <= 8 && old(Ptr(lib.mem[..], table)) in Live(old(s.ar.h)))
      ensures ptr == 0 && np != 0 ==> (HeadGood(View()) <==> GoodAfterMalloc(old(View()), np, Align(size) + 8))
      ensures ptr == 0 && np != 0 && size > 8 && old(HeadGood(View())) ==> HeadGood(View())
      ensures ptr == 0 && size <= 8 && old(Ptr(lib.mem[..], table)) != 0 ==> np == old(Ptr(lib.mem[..], table))
      ensures ptr == 0 && np != 0 && (size > 8 || old(Ptr(lib.mem[..], table)) == 0) ==>
        if lib.brk == old(lib.brk) then Chosen(old(lib.mem[..]), old(s), size, np) else np == old(lib.brk)
      ensures ptr == 0 && np == 0 ==> !fault && s == old(s) && lib.mem[..] == old(lib.mem[..]) && lib.enomem
      ensures ptr == 0 && np == 0 ==> lib.brk + Align(size) + 8 > lib.mem.Length
      ensures ptr != 0 && size > 0 ==> (np == 0 <==> fault)
      ensures ptr != 0 && size == 0 ==> np == 0 && !fault && View() == Freed(old(View()), ptr)
      ensures ptr != 0 && size == 0 ==> Order() == ListsFreed(old(Order()), old(s.ar.h), ptr)
      ensures ptr != 0 && size == 0 ==> Live(s.ar.h) == Live(old(s.ar.h)) - {ptr}
      ensures ptr != 0 && size > 0 && !fault ==>
        && Resized(old(lib.mem[..]), lib.mem[..], old(s.ar.h), s.ar.h, ptr, np, size)
        && (np == ptr <==> Align(size) + 8 <= Live(old(s.ar.h))[ptr])
        && View() == Refitted(old(View()), ptr, np, Align(size) + 8) && lib.enomem == old(lib.enomem)
        && Order() == ListsRefitted(old(Order()), old(View()), ptr, np, Align(size) + 8)
        && (HeadGood(View()) <==> GoodAfterRealloc(old(View()), ptr, np, Align(size) + 8))
      ensures ptr != 0 && np != 0 && np != ptr ==>
        if lib.brk == old(lib.brk) then Chosen(old(lib.mem[..]), old(s), Align(size), np) else np == old(lib.brk)
      ensures fault ==> ptr != 0 && size > 0 && Align(size) + 8 > Live(old(s.ar.h))[ptr]
      ensures fault ==> s == old(s) && lib.mem[..] == old(lib.mem[..]) && lib.enomem
      ensures fault ==> lib.brk == old(lib.brk) && lib.brk + Align(size) + 8 > lib.mem.Length
      ensures lib.brk == old(lib.brk) || lib.brk == old(lib.brk) + Align(size) + 8
      ensures fault || (ptr == 0 && np == 0) || lib.brk != old(lib.brk) ==> NoFit(old(s.ar.h), Align(size))
    {
      hide Framed, Shaped, Linked, NodesFree, Stamped, LiveKept, Apart, FreeListed, Live, GetSize, Gained, Word, Ptr,
           NoFit, Same, Only, Resized, Align, Taken, Freed, Cut, HeadGood, GoodAfterCut, GoodAfterMove, GoodAfterMalloc,
           GoodAfterFree, Chosen, ListsTaken, ListsFreed, ListsCut, SmallSeen;
      ghost var m, h := lib.mem[..], s.ar.h;
      FramedShape(m, s.ar, {});
      fault := false;
      if ptr == 0 {
        np := Malloc(size);
        return;
      }
      if size == 0 {
        Free(ptr);
        return 0, false;
      }
      LiveTag(m, s, ptr);
      AlignBounds(size);
      var asize := Align(size);
      var avasize := BlkSize(lib, ptr);
      avasize := avasize - 8;
      if asize > avasize {
        np, fault := MoveBlock(ptr, size, asize);
        return;
      }
      np := ptr;
      if asize < avasize && avasize - asize >= BLK_MIN_SIZE {
        LiveKeptSelf(m, h, 0);
        LiveNotNode(s, ptr);
        FreeListedWeaken(h, s.nd, s.nd, ptr) by { assert s.nd - {ptr} == s.nd; }
        CutHead(m, s.ar, View(), ptr, asize + 8);
        SeenWeaken(View(), ptr);
        CutAndInsert(ptr, asize + 8, avasize - asize, m);
        Shrunk(m, lib.mem[..], h, s.ar.h, ptr, size);
        return;
      }
      StayedPut(m, h, ptr, size);
    }

    /** realloc to a larger size: malloc, copy and free. */
    method MoveBlock(ptr: nat, size: nat, asize: nat) returns (np: nat, fault: bool)
      requires Valid() && 0 < size < 0x7FFF_FFE0 && asize == Align(size) && ptr != listp
      requires ptr in s.ar.h && s.ar.h[ptr].alloc && ptr in Live(s.ar.h) && Live(s.ar.h)[ptr] == s.ar.h[ptr].size
      requires asize + 8 > s.ar.h[ptr].size >= 16
      modifies this`s, lib`brk, lib`enomem, lib.mem
      ensures Valid() && s.ar.tbl == old(s.ar.tbl)
      ensures LiveKept(old(lib.mem[..]), lib.mem[..], old(s.ar.h), ptr)
      ensures np == 0 <==> fault
      ensures !fault ==>
        && Resized(old(lib.mem[..]), lib.mem[..], old(s.ar.h), s.ar.h, ptr, np, size) && np != ptr
        && View() == Freed(Taken(old(View()), np, asize + 8), ptr) && lib.enomem == old(lib.enomem)
        && (HeadGood(View()) <==> GoodAfterMove(old(View()), ptr, np, asize + 8))
      ensures !fault ==>
        var h1 := Taken(old(View()), np, asize + 8).h;
        ptr in h1 && Order() == ListsFreed(ListsTaken(old(Order()), old(s.ar.h), np, asize + 8), h1, ptr)
      ensures fault ==> s == old(s) && lib.mem[..] == old(lib.mem[..]) && lib.enomem
      ensures fault ==> lib.brk == old(lib.brk) && lib.brk + asize + 8 > lib.mem.Length
      ensures lib.brk == old(lib.brk) || lib.brk == old(lib.brk) + asize + 8
      ensures !fault ==> if lib.brk == old(lib.brk) then Chosen(old(lib.mem[..]), old(s), asize, np)
                         else np == old(lib.brk)
      ensures fault || lib.brk != old(lib.brk) ==> NoFit(old(s.ar.h), asize)
    {
      hide Framed, Shaped, Linked, NodesFree, Stamped, LiveKept, Apart, FreeListed, Live, GetSize, Gained, Word, Ptr,
           NoFit, Same, Only, Resized, Align, Taken, Freed, Cut, HeadGood, GoodAfterMove,
           GoodAfterMalloc, GoodAfterFree, Chosen, ListsTaken, ListsFreed, SmallSeen;
      ghost var m, s0, h, v := lib.mem[..], s, s.ar.h, View();
      FramedShape(m, s.ar, {});
      AlignBounds(size);
      AlignTwice(size);
      np := Malloc(asize);
      if np == 0 {
        LiveKeptWeaken(m, m, h, ptr);
        return 0, true;
      }
      MoveBounds(m, lib.mem[..], s, h, ptr, np, asize);
      if np in h { LiveIff(h, np); }
      MoveHead(m, s0, v, ptr, np, asize + 8);
      ghost var m1, h1 := lib.mem[..], s.ar.h;
      var n := BlkSize(lib, ptr);
      lib.Memcpy(np, ptr, n - 8);
      ghost var m2 := lib.mem[..];
      OwnerWrite(m1, m2, s, np, np, n - 8);
      BelowWrite(m1, m2, s.ar.tbl, np, n - 8);
      Free(ptr);
      Moved(m, m1, m2, lib.mem[..], h, h1, s.ar.h, ptr, np, size);
      fault := false;
    }
  }

  ghost predicate TookNext(s0: State, s: State, bp: nat, size: nat)
    requires bp in s0.ar.h
  {
    var h, n := s0.ar.h, bp + s0.ar.h[bp].size;
    if NextFree(h, bp) then s == s0.(nd := s0.nd - {n}) && size == h[bp].size + h[n].size && bp < n
    else s == s0 && size == h[bp].size
  }

  ghost predicate TookPrev(s0: State, s: State, bp: nat, p: nat, size0: nat, size: nat) {
    && MergeStart(s0.ar.h, bp, p) && p <= bp
    && (if p == bp then s == s0 && size == size0
        else p in s0.ar.h && s == s0.(nd := s0.nd - {p}) && size == size0 + s0.ar.h[p].size)
  }

  lemma SmallNotNode(s: State, bp: nat)
    requires NodesFree(s.ar.h, s.nd) && bp in s.ar.h && s.ar.h[bp].size <= BLK_MIN_SIZE
    ensures s.nd - {bp} == s.nd
  {
    assert forall p :: p in s.nd ==> s.nd[p].slot <= 10;
  }

  /** The links of a node, and the cells they lead to, are inside the heap. */
  lemma NodeBounds(m: Mem, s: State, p: nat)
    requires Core(m, s) && p in s.nd
    ensures p + 16 <= |m| && Ptr(m, p + 8) + 8 <= |m| && Ptr(m, p) + 16 <= |m| < PTR_LIMIT
  {
    NodesSpread(m, s.ar, s.nd, {});
    assert NodeOk(m, s.ar.tbl, s.nd, p) && s.nd[p] == s.nd[p];
    var n, q := Ptr(m, p), Ptr(m, p + 8);
    if n in s.nd { assert s.nd[n] == s.nd[n]; }
    if q in s.nd { assert s.nd[q] == s.nd[q]; }
  }

  lemma FreeBounds(m: Mem, s: State, p: nat)
    requires Core(m, s) && p in s.ar.h && !s.ar.h[p].alloc
    ensures p != s.ar.Lo() && s.ar.h[p].size >= 16 && p + s.ar.h[p].size <= s.ar.brk <= |m| < PTR_LIMIT
    ensures s.ar.Lo() + 8 <= p
    ensures GetSize(Word(m, p - 4)) == s.ar.h[p].size
    ensures s.ar.h[p].size == BLK_MIN_SIZE ==> FltClass(s.ar.h[p].size - 8) == 0
    ensures s.ar.h[p].size > BLK_MIN_SIZE ==> 1 <= FltClass(s.ar.h[p].size - 8) <= 10 && s.ar.h[p].size >= 24
  {
    ReadTag(m, s.ar, p);
    assert s.ar.h[s.ar.Lo()] == Block(8, true);
  }

  lemma SlotHead(m: Mem, s: State, i: nat)
    requires Core(m, s) && 1 <= i <= 10
    ensures var h := Ptr(m, s.ar.tbl + 8 * i); h == 0 || (h in s.nd && h + 16 <= |m|)
  {
    NodesSpread(m, s.ar, s.nd, {});
    assert SlotOk(m, s.ar.tbl, s.nd, i);
    var h := Ptr(m, s.ar.tbl + 8 * i);
    if h in s.nd { assert s.nd[h] == s.nd[h]; }
  }

  /** Free neighbours of bp with more than 16 bytes are on a list. */
  lemma ListedNext(s: State, bp: nat)
    requires bp in s.ar.h && FreeListed(s.ar.h, s.nd, bp) && NextFree(s.ar.h, bp) && s.ar.h[bp].size > 0
    ensures s.ar.h[bp + s.ar.h[bp].size].size > BLK_MIN_SIZE ==> bp + s.ar.h[bp].size in s.nd
  {
  }

  lemma ListedPrev(s: State, bp: nat, q: nat)
    requires bp in s.ar.h && FreeListed(s.ar.h, s.nd, bp) && q in s.ar.h && q < bp
    ensures !s.ar.h[q].alloc && s.ar.h[q].size > BLK_MIN_SIZE ==> q in s.nd
  {
  }

  lemma InsertView(v: View, ar: Arena, bp: nat, p: nat)
    requires Shaped(ar) && v.h == ar.h && v.brk == ar.brk && bp in ar.h && MergeStart(ar.h, bp, p)
    ensures p in Merged(ar.h, bp, p)
    ensures Freed(v, bp)
         == View(Merged(ar.h, bp, p), v.brk, if Merged(ar.h, bp, p)[p].size > BLK_MIN_SIZE then v.head else p)
    ensures Live(Merged(ar.h, bp, p)) == Live(ar.h) - {bp}
  {
    hide Freed, Merged, MergeStart, Live, Gapless, Aligned, Sized;
    FreedIs(v, ar.Lo(), bp, p);
  }

  lemma InsertSeen(v: View, ar: Arena, bp: nat)
    requires Shaped(ar) && v.h == ar.h && v.brk == ar.brk && bp in ar.h && SmallSeen(v, bp)
    ensures SmallSeen(Freed(v, bp), 0)
  {
    hide Freed, SmallSeen, Gapless, Aligned, Sized;
    FreedSeen(v, ar.Lo(), bp);
  }

  lemma CutOff(v: View, ar: Arena, p: nat, n: nat)
    requires Shaped(ar) && v.h == ar.h && v.brk == ar.brk && p in ar.h && 16 <= n && n + 16 <= ar.h[p].size
    requires SmallSeen(v, p)
    ensures SmallSeen(v.(h := Split(v.h, p, n, true, false)), p + n)
  {
    hide Freed, SmallSeen, Gapless, Aligned, Sized;
    CutSeen(v, ar.Lo(), p, n);
  }

  lemma InsertOrder(l: Lists, ar: Arena, bp: nat, p: nat)
    requires Shaped(ar) && bp in ar.h && MergeStart(ar.h, bp, p)
    ensures p in Merged(ar.h, bp, p)
    ensures ListsFreed(l, ar.h, bp) == Listed(l.(nd := l.nd - {p, bp + ar.h[bp].size}), Merged(ar.h, bp, p), p)
  {
    hide Merged, MergeStart, Gapless, Aligned, Sized, FltClass;
    MergedBlock(ar.h, bp, p);
    FreedHeapIs(ar.h, ar.Lo(), ar.brk, bp, p);
  }

  /** Only free blocks are nodes. */
  lemma CoalesceOrder(s: State, bp: nat, p: nat)
    requires NodesFree(s.ar.h, s.nd) && bp in s.ar.h && bp !in s.nd
    ensures !NextFree(s.ar.h, bp) ==> bp + s.ar.h[bp].size !in s.nd
    ensures var n := bp + s.ar.h[bp].size;
      s.nd - {n} - {p} == s.nd - {p, n} && (!NextFree(s.ar.h, bp) ==> s.nd - {p} == s.nd - {p, n})
    ensures p == bp ==> s.nd - {p} == s.nd
  {
    hide FltClass;
    var n := bp + s.ar.h[bp].size;
    if n in s.nd { assert s.nd[n] == s.nd[n]; }
  }

  lemma CutOnce(s: State, p: nat, n: nat)
    requires p in s.ar.h && n <= s.ar.h[p].size
    ensures ListsCut(Lists(s.nd - {p}, s.ctr), s.ar.h, p, n) == ListsCut(Lists(s.nd, s.ctr), s.ar.h, p, n)
  {
    hide ListsFreed;
    var l := Lists(s.nd - {p}, s.ctr);
    assert l.nd - {p} == l.nd;
    assert l.(nd := l.nd - {p}) == l;
  }

  /** A free block of more than 16 bytes is a node. */
  lemma OnList(s: State, p: nat)
    requires FreeListed(s.ar.h, s.nd, 0) && p in s.ar.h && (s.ar.h[p].alloc ==> s.ar.h[p].size == BLK_MIN_SIZE)
    requires p != 0
    ensures s.ar.h[p].size > BLK_MIN_SIZE ==> p in s.nd
  {
  }

  /** The end of coalesce: s0 is the state before it, s the state without the list nodes of
      the merged neighbours, and m3 the memory after SET_BLK. */
  lemma CoalesceDone(m: Mem, m2: Mem, m3: Mem, s0: State, s: State, bp: nat, p: nat)
    requires Core(m2, s) && s.ar == s0.ar && bp in s.ar.h && bp != s.ar.Lo() && bp !in s.nd && p !in s.nd
    requires MergeStart(s.ar.h, bp, p) && (NextFree(s.ar.h, bp) ==> bp + s.ar.h[bp].size !in s.nd)
    requires FreeListed(s0.ar.h, s0.nd, bp) && Apart(s0.ar.h, bp)
    requires forall q :: q in s0.nd && q != p && q != bp + s.ar.h[bp].size ==> q in s.nd
    requires LiveKept(m, m2, s.ar.h, 0)
    requires Retagged(m2, m3, p, Merged(s.ar.h, bp, p)[p])
    ensures Core(m3, s.(ar := s.ar.(h := Merged(s.ar.h, bp, p))))
    ensures FreeListed(Merged(s.ar.h, bp, p), s.nd, p) && Apart(Merged(s.ar.h, bp, p), 0)
    ensures LiveKept(m, m3, s.ar.h, bp) && Ptr(m3, s.ar.tbl) == Ptr(m2, s.ar.tbl)
  {
    hide Framed, Shaped, Linked, NodesFree, Stamped, LiveKept, Retagged, Merged, Apart, FreeListed;
    FramedShape(m2, s.ar, {});
    CoalesceStore(m2, m3, s, bp, p);
    MergedFacts(s.ar, s0.nd, s.nd, bp, p);
    LiveKeptWeaken(m, m2, s.ar.h, bp);
    LiveKeptTrans(m, m2, m3, s.ar.h, bp);
  }

  lemma MergedBounds(m: Mem, ar: Arena, bp: nat, p: nat)
    requires Framed(m, ar, {}) && bp in ar.h && bp != ar.Lo() && MergeStart(ar.h, bp, p)
    ensures p in Merged(ar.h, bp, p)
    ensures var b := Merged(ar.h, bp, p)[p];
      ar.Lo() <= p && p + b.size <= ar.brk <= |m| && 8 <= b.size && b.size % 8 == 0
  {
    hide Merged;
    MergedShape(ar, bp, p);
    MergedBlock(ar.h, bp, p);
    var h' := Merged(ar.h, bp, p);
    assert BlockIn(p, h'[p], ar.Lo(), ar.brk);
  }

  lemma RetaggedSize(m: Mem, m': Mem, p: nat, n: nat)
    requires Retagged(m, m', p, Block(n, true)) && n % 8 == 0
    ensures GetSize(Word(m', p - 4)) == n
  {
    Unpack(n, true);
  }

  /** The SET_BLK of the rest does not touch the header of the front. */
  lemma HeaderKept(m: Mem, m': Mem, p: nat, n: nat, r: nat)
    requires n >= 8 && r >= 8 && Retagged(m, m', p + n, Block(r, false))
    ensures Word(m', p - 4) == Word(m, p - 4)
  {
    WordSame(m, m', p - 4);
  }

  lemma SplitRestNotNode(s: State, r: nat)
    requires NodesFree(s.ar.h, s.nd) && r !in s.ar.h
    ensures r !in s.nd
  {
    forall q | q in s.nd ensures q in s.ar.h {
      assert s.nd[q] == s.nd[q];
    }
  }

  lemma RestNotLive(h: Heap, p: nat, n: nat)
    requires p in h && n < h[p].size && n > 0 && p + n !in h
    ensures Live(h)[p := n] - {p + n} == Live(h)[p := n]
  {
  }

  lemma TableBounds(m: Mem, s: State)
    requires Core(m, s)
    ensures s.ar.tbl + 104 <= |m| < PTR_LIMIT
  {
  }

  /** The search of slot i has rejected the nodes of visited and is about to look at p. */
  ghost predicate Searched(m: Mem, s: State, i: nat, visited: seq<nat>, p: nat) {
    && Core(m, s) && 1 <= i <= 10 && (p == 0 || p in s.nd)
    && SlotList(m, s.ar.tbl, s.nd, i) == visited + Chain(m, s.ar.tbl, s.nd, p)
  }

  lemma SearchStart(m: Mem, s: State, i: nat, p: nat)
    requires Core(m, s) && 1 <= i <= 10 && p == Ptr(m, s.ar.tbl + 8 * i)
    ensures Searched(m, s, i, [], p)
  {
    hide Framed, NodesFree, Stamped;
    assert SlotOk(m, s.ar.tbl, s.nd, i);
    assert [] + Chain(m, s.ar.tbl, s.nd, p) == Chain(m, s.ar.tbl, s.nd, p);
  }

  lemma SearchStep(m: Mem, s: State, i: nat, visited: seq<nat>, p: nat, n: nat)
    requires Searched(m, s, i, visited, p) && p != 0 && p in s.ar.h && s.ar.h[p].size < n
    requires AllSmaller(s.ar.h, visited, n)
    ensures Searched(m, s, i, visited + [p], Ptr(m, p)) && AllSmaller(s.ar.h, visited + [p], n)
    ensures Ptr(m, p) == 0 || (Ptr(m, p) in s.nd && s.nd[Ptr(m, p)].stamp < s.nd[p].stamp)
  {
    hide Framed, NodesFree, Stamped, SlotList;
    assert NodeOk(m, s.ar.tbl, s.nd, p);
    var d := Chain(m, s.ar.tbl, s.nd, Ptr(m, p));
    assert Chain(m, s.ar.tbl, s.nd, p) == [p] + d;
    assert visited + ([p] + d) == (visited + [p]) + d;
  }

  lemma SearchFound(m: Mem, s: State, i: nat, visited: seq<nat>, p: nat, n: nat)
    requires Searched(m, s, i, visited, p) && p != 0 && p in s.ar.h && s.ar.h[p].size >= n
    requires AllSmaller(s.ar.h, visited, n)
    ensures FirstFit(s.ar.h, SlotList(m, s.ar.tbl, s.nd, i), n, p)
  {
    hide Framed, NodesFree, Stamped, SlotList, AllSmaller;
    var list, k := SlotList(m, s.ar.tbl, s.nd, i), |visited|;
    assert Chain(m, s.ar.tbl, s.nd, p)[0] == p;
    assert list[k] == p && list[..k] == visited;
  }

  lemma SearchEnd(m: Mem, s: State, i: nat, visited: seq<nat>)
    requires Searched(m, s, i, visited, 0)
    ensures SlotList(m, s.ar.tbl, s.nd, i) == visited
  {
    hide Framed, NodesFree, Stamped, SlotList;
    assert Chain(m, s.ar.tbl, s.nd, 0) == [];
    assert visited + [] == visited;
  }

  /** Every block but the prologue is large enough for a request of at most 8 bytes. */
  lemma SmallFits(m: Mem, s: State, p: nat, n: nat)
    requires Framed(m, s.ar, {}) && p in s.ar.h && p != s.ar.Lo() && s.ar.h[p].size < n
    ensures n > 16
  {
    assert s.ar.h[p] == s.ar.h[p];
  }

  /** Null is not allocated, and neither is the end of the heap. */
  lemma HeadLive(m: Mem, s: State)
    requires Framed(m, s.ar, {})
    ensures 0 !in Live(s.ar.h) && s.ar.brk !in s.ar.h && s.ar.brk !in Live(s.ar.h)
  {
    FramedShape(m, s.ar, {});
    assert s.ar.brk in s.ar.h ==> BlockIn(s.ar.brk, s.ar.h[s.ar.brk], s.ar.Lo(), s.ar.brk);
  }

  /** A block that can be allocated for n bytes: a large enough free one, or a live one that
      would have to be exactly right. */
  predicate Takable(b: Block, n: nat) {
    if b.alloc then b.size == n else b.size >= n
  }

  /** What the operations do to the head of slot 0. */
  lemma FreeHead(m: Mem, ar: Arena, v: View, p: nat)
    requires Framed(m, ar, {}) && v.h == ar.h && v.brk == ar.brk && p in ar.h && p != ar.Lo()
    ensures HeadGood(Freed(v, p)) <==> GoodAfterFree(v, p)
  {
    hide Freed, GoodAfterFree, HeadGood, Gapless, Aligned, Tagged;
    assert ar.h[p] == ar.h[p];
    FreedHeadIff(v, ar.Lo(), p);
  }

  lemma CutHead(m: Mem, ar: Arena, v: View, p: nat, n: nat)
    requires Framed(m, ar, {}) && v.h == ar.h && v.brk == ar.brk && p in ar.h && 16 <= n && n + 16 <= ar.h[p].size
    ensures HeadGood(Cut(v, p, n)) <==> GoodAfterCut(v, p, n)
  {
    hide Cut, GoodAfterCut, HeadGood, Gapless, Aligned, Tagged, Sized;
    CutHeadIff(v, ar.Lo(), p, n);
  }

  lemma MallocHead(m: Mem, s: State, v: View, r: nat, n: nat)
    requires Framed(m, s.ar, {}) && Apart(s.ar.h, 0) && v.h == s.ar.h && v.brk == s.ar.brk && n >= 16
    requires r == v.brk || (r in v.h && Takable(v.h[r], n))
    ensures HeadGood(Taken(v, r, n)) <==> GoodAfterMalloc(v, r, n)
    ensures n >= 24 && HeadGood(v) ==> HeadGood(Taken(v, r, n))
  {
    hide Taken, GoodAfterMalloc, HeadGood, Gapless, Aligned, Tagged, Sized, Apart;
    TakenHeadIff(v, s.ar.Lo(), r, n);
    if n >= 24 && HeadGood(v) {
      TakenKeepsHead(v, s.ar.Lo(), r, n);
    }
  }

  lemma MoveHead(m: Mem, s: State, v: View, ptr: nat, np: nat, n: nat)
    requires Framed(m, s.ar, {}) && Apart(s.ar.h, 0) && v.h == s.ar.h && v.brk == s.ar.brk && n >= 24
    requires np == v.brk || (np in v.h && !v.h[np].alloc && v.h[np].size >= n)
    requires ptr in v.h && v.h[ptr].alloc && 16 <= v.h[ptr].size < n
    ensures HeadGood(Freed(Taken(v, np, n), ptr)) <==> GoodAfterMove(v, ptr, np, n)
  {
    hide Taken, Freed, GoodAfterMove, HeadGood, Gapless, Aligned, Tagged, Sized, Apart;
    MovedHeadIff(v, s.ar.Lo(), ptr, np, n);
  }

  lemma GrowTaken(v: View, l: Lists, ar: Arena, n: nat)
    requires v.h == ar.h && v.brk == ar.brk && ar.brk !in ar.h
    ensures Taken(v, ar.brk, n) == View(ar.h[ar.brk := Block(n, true)], ar.brk + n, v.head)
    ensures ListsTaken(l, ar.h, ar.brk, n) == l
  {
  }

  lemma EmptySlot(m: Mem, s: State, i: nat, n: nat)
    requires Core(m, s) && 1 <= i <= 10 && Ptr(m, s.ar.tbl + 8 * i) == 0
    ensures AllSmaller(s.ar.h, SlotList(m, s.ar.tbl, s.nd, i), n)
  {
    hide Framed, NodesFree, Stamped;
  }

  lemma EmptySmaller(h: Heap, n: nat)
    ensures AllSmaller(h, [], n)
  {
  }

  lemma TakenGained(h: Heap, h': Heap, p: nat, size: nat)
    requires p in h && h[p].size % 8 == 0 && h[p].size >= Align(size) + 8 && p !in Live(h)
    requires Live(h') == Live(h)[p := if h[p].size - (Align(size) + 8) >= 16 then Align(size) + 8 else h[p].size]
    ensures Gained(h, h', p, size)
  {
    AlignBounds(size);
    assert p in Live(h');
  }

  lemma InitStores(m0: Mem, m1: Mem, m2: Mem, m3: Mem, m4: Mem, tbl: nat)
    requires 8 <= tbl && tbl % 8 == 0 && tbl + 104 <= |m0| < PTR_LIMIT && Zero(m0, tbl, tbl + 88)
    requires Only(m0, m1, tbl + 88, 4) && Only(m1, m2, tbl + 92, 4) && Only(m2, m3, tbl + 96, 4)
    requires Only(m3, m4, tbl + 100, 4)
    requires Word(m2, tbl + 92) == Pack(8, true) && Word(m3, tbl + 96) == Pack(8, true)
    requires Word(m4, tbl + 100) == Pack(0, true)
    ensures HeapOk(m4, InitialState(tbl)) && Ptr(m4, tbl) == 0
  {
    hide HeapOk, Word;
    WordSame(m2, m4, tbl + 92);
    WordSame(m3, m4, tbl + 96);
    InitialHeap(m4, tbl);
    ZeroPtr(m4, tbl);
  }

  lemma InitialFields(m: Mem, tbl: nat)
    requires HeapOk(m, InitialState(tbl))
    ensures var s := InitialState(tbl);
      && s.ar.tbl == tbl && s.ar.brk == tbl + 104 && s.ar.Lo() == tbl + 96
      && Core(m, s) && FreeListed(s.ar.h, s.nd, 0) && Apart(s.ar.h, 0)
    ensures forall v: View {:trigger SmallSeen(v, 0)} :: v.h == InitialState(tbl).ar.h ==> SmallSeen(v, 0)
  {
    hide Core, FreeListed, Apart;
  }

  lemma ClassRange(size: nat)
    ensures FltClass(size) <= 10 && (size > 8 <==> FltClass(size) > 0)
  {
  }

  lemma NoSlots(h: Heap, nd: Nodes, i: nat, n: nat)
    ensures SlotsSmaller(h, nd, i, i, n)
  {
  }

  lemma MallocSearched(m: Mem, s: State, v: View, size: nat)
    requires Core(m, s) && FreeListed(s.ar.h, s.nd, 0) && size > 0
    requires v.h == s.ar.h && SmallSeen(v, 0) && (size <= 8 ==> v.head == 0)
    requires SlotsSmaller(s.ar.h, s.nd, FltClass(size), 11, Align(size) + 8)
    ensures NoFit(s.ar.h, Align(size))
  {
    hide FltClass, NodesFree, Linked, FreeListed, SlotsSmaller, NoFit, Tagged, Tiling;
    FramedShape(m, s.ar, {});
    assert 0 !in s.ar.h;
    SearchComplete(s.ar.h, s.nd, s.ar.Lo(), size);
  }

  lemma FoundFirst(m: Mem, s: State, i: nat, size: nat, r: nat)
    requires Core(m, s) && 1 <= i <= 10 && FltClass(size) <= i
    requires SlotsSmaller(s.ar.h, s.nd, FltClass(size), i, Align(size) + 8)
    requires FirstFit(s.ar.h, SlotList(m, s.ar.tbl, s.nd, i), Align(size) + 8, r)
    ensures Chosen(m, s, size, r)
  {
  }

  lemma FoundFits(h: Heap, h': Heap, list: seq<nat>, size: nat, r: nat)
    requires FirstFit(h, list, Align(size) + 8, r) && Gained(h, h', r, size)
    ensures !NoFit(h, Align(size))
  {
  }

  lemma GrowGained(ar: Arena, size: nat)
    requires ar.brk !in Live(ar.h)
    requires Live(ar.h[ar.brk := Block(Align(size) + 8, true)]) == Live(ar.h)[ar.brk := Align(size) + 8]
    ensures Gained(ar.h, ar.h[ar.brk := Block(Align(size) + 8, true)], ar.brk, size)
  {
  }

  lemma LiveTag(m: Mem, s: State, p: nat)
    requires Core(m, s) && p in Live(s.ar.h) && p != s.ar.Lo()
    ensures p in s.ar.h && s.ar.h[p].alloc && s.ar.h[p].size == Live(s.ar.h)[p] >= 16
    ensures GetSize(Word(m, p - 4)) == s.ar.h[p].size && s.ar.h[p].size % 8 == 0 && p != 0
    ensures s.ar.Lo() <= p && p + s.ar.h[p].size <= s.ar.brk <= |m|
  {
    ReadTag(m, s.ar, p);
  }

  /** After malloc found np, the old block is still there, and np has room for its payload. */
  lemma MoveBounds(m: Mem, m1: Mem, s: State, h: Heap, ptr: nat, np: nat, asize: nat)
    requires Core(m1, s) && ptr in h && h[ptr].alloc && h[ptr].size >= 16 && ptr != s.ar.Lo() && s.ar.Lo() in h
    requires h[s.ar.Lo()].alloc
    requires Gained(h, s.ar.h, np, asize) && asize > h[ptr].size - 8 && Align(asize) == asize
    ensures np in s.ar.h && s.ar.h[np].alloc && s.ar.h[np].Cap() >= asize && np != s.ar.Lo() && np != ptr && np != 0
    ensures ptr in s.ar.h && s.ar.h[ptr] == h[ptr] && ptr in Live(s.ar.h)
    ensures GetSize(Word(m1, ptr - 4)) == h[ptr].size
    ensures np + s.ar.h[np].size <= |m1| && ptr + h[ptr].size <= |m1| && 4 <= ptr
    ensures np >= ptr + h[ptr].size || np + s.ar.h[np].size <= ptr
    ensures s.ar.tbl + 8 <= np
  {
    var h1 := s.ar.h;
    assert ptr in Live(h1) && Live(h1)[ptr] == Live(h)[ptr];
    assert np in Live(h1);
    ReadTag(m1, s.ar, ptr);
    ReadTag(m1, s.ar, np);
  }

  lemma Moved(m: Mem, m1: Mem, m2: Mem, m3: Mem, h: Heap, h1: Heap, h2: Heap, ptr: nat, np: nat, size: nat)
    requires ptr in h && h[ptr].alloc && h[ptr].size >= 16 && ptr != 0 && ptr in h1 && h1[ptr] == h[ptr] && np in h1
    requires h1[np].alloc && np != ptr && np != 0
    requires Gained(h, h1, np, Align(size)) && Align(Align(size)) == Align(size) && Align(size) > h[ptr].size - 8
    requires LiveKept(m, m1, h, 0) && ptr + h[ptr].size <= |m1| && np + h[ptr].size <= |m1| && 0 !in h
    requires Only(m1, m2, np, h[ptr].size - 8)
    requires forall i :: np <= i < np + h[ptr].size - 8 ==> m2[i] == m1[i - np + ptr]
    requires forall q {:trigger h1[q]} :: q in h1 && q != np ==> Same(m1, m2, q, q + h1[q].Cap())
    requires Live(h2) == Live(h1) - {ptr} && LiveKept(m2, m3, h1, ptr)
    ensures LiveKept(m, m3, h, ptr) && Resized(m, m3, h, h2, ptr, np, size)
  {
    forall q | q in h && h[q].alloc && q != ptr ensures Same(m, m3, q, q + h[q].Cap()) {
      assert q in Live(h1) && Live(h1)[q] == Live(h)[q];
      assert h1[q] == h[q] && q != np;
      SameTrans(m, m1, m2, m3, q, q + h[q].Cap());
    }
    MovedBytes(m, m1, m2, m3, h, h1, ptr, np);
    assert np in Live(h2) && Live(h2)[np] == h1[np].size;
    assert Live(h2) == (Live(h) - {ptr})[np := h1[np].size];
  }

  lemma SameTrans(m: Mem, m1: Mem, m2: Mem, m3: Mem, lo: nat, hi: int)
    requires Same(m, m1, lo, hi) && Same(m1, m2, lo, hi) && Same(m2, m3, lo, hi)
    ensures Same(m, m3, lo, hi)
  {
  }

  lemma MovedBytes(m: Mem, m1: Mem, m2: Mem, m3: Mem, h: Heap, h1: Heap, ptr: nat, np: nat)
    requires ptr in h && h[ptr].alloc && h[ptr].size >= 8 && np in h1 && h1[np].alloc && np != ptr && 0 != ptr
    requires ptr + h[ptr].size <= |m1| && np + h[ptr].size <= |m1| && h1[np].size >= h[ptr].size
    requires LiveKept(m, m1, h, 0) && LiveKept(m2, m3, h1, ptr) && |m2| == |m1|
    requires forall i :: np <= i < np + h[ptr].size - 8 ==> m2[i] == m1[i - np + ptr]
    ensures |m3| == |m| && forall i {:trigger m3[i]} :: np <= i < np + h[ptr].size - 8 ==> m3[i] == m[i - np + ptr]
  {
    assert Same(m, m1, ptr, ptr + h[ptr].Cap());
    assert Same(m2, m3, np, np + h1[np].Cap());
  }

  lemma Shrunk(m: Mem, m': Mem, h: Heap, h': Heap, ptr: nat, size: nat)
    requires ptr in h && h[ptr].alloc && ptr != 0 && Live(h') == Live(h)[ptr := Align(size) + 8]
    requires Same(m, m', ptr, ptr + Align(size)) && ptr + h[ptr].size <= |m| && Align(size) < h[ptr].size - 8
    ensures Resized(m, m', h, h', ptr, ptr, size)
  {
    AlignBounds(size);
    assert Live(h)[ptr := Align(size) + 8] == (Live(h) - {ptr})[ptr := Align(size) + 8];
  }

  lemma StayedPut(m: Mem, h: Heap, ptr: nat, size: nat)
    requires ptr in h && h[ptr].alloc && ptr != 0 && ptr + h[ptr].size <= |m|
    requires h[ptr].size % 8 == 0 && Align(size) <= h[ptr].size - 8 < Align(size) + 16
    ensures Resized(m, m, h, h, ptr, ptr, size) && LiveKept(m, m, h, ptr)
  {
    AlignBounds(size);
    assert Live(h) == (Live(h) - {ptr})[ptr := Live(h)[ptr]];
  }
}
