/** What the operations of segregate.c make of the blocks and of the head of slot 0, which no
    list invariant mentions. */
module HeapView {
  import opened Blocks
  import opened LiveBlocks

  /** The blocks, the end of the heap, and the pointer in slot 0 of the table. */
  datatype View = View(h: Heap, brk: nat, head: nat)

  /** Block p freed and merged. A resulting block of 16 bytes becomes the head of slot 0. */
  ghost function Freed(v: View, p: nat): View {
    var h', q := FreedHeap(v.h, p), MergePoint(v.h, p);
    View(h', v.brk, if q in h' && h'[q].size > 16 then v.head else q)
  }

  lemma FreedIs(v: View, lo: nat, p: nat, q: nat)
    requires Layout(v.h, lo, v.brk) && p in v.h && MergeStart(v.h, p, q)
    ensures q in Merged(v.h, p, q)
    ensures Freed(v, p) == View(Merged(v.h, p, q), v.brk, if Merged(v.h, p, q)[q].size > 16 then v.head else q)
    ensures Live(Freed(v, p).h) == Live(v.h) - {p}
  {
    FreedHeapIs(v.h, lo, v.brk, p, q);
    MergedBlock(v.h, p, q);
    MergedLiveMap(v.h, p, q);
  }

  /** Block p allocated with n bytes, the rest of it freed. */
  ghost function Cut(v: View, p: nat, n: nat): View {
    if p in v.h && n <= v.h[p].size then Freed(v.(h := Split(v.h, p, n, true, false)), p + n) else v
  }

  /** A block of at least n bytes allocated: at the end of the heap, or in block r, of which
      a rest of at least 16 bytes is cut off. */
  ghost function Taken(v: View, r: nat, n: nat): View {
    if r !in v.h then View(v.h[r := Block(n, true)], r + n, v.head)
    else if v.h[r].size >= n + 16 then Cut(v, r, n)
    else v.(h := Recolored(v.h, r, true))
  }

  /** The block at ptr given n bytes, at np if that is larger than it was. */
  ghost function Refitted(v: View, ptr: nat, np: nat, n: nat): View {
    if ptr !in v.h then v
    else if n > v.h[ptr].size then Freed(Taken(v, np, n), ptr)
    else if v.h[ptr].size >= n + 16 then Cut(v, ptr, n)
    else v
  }

  // ---------------------------------------------------------------------------
  // While slot 0 is empty, there is no free block of 16 bytes
  // ---------------------------------------------------------------------------

  /** Slot 0 has had a head ever since a 16-byte block other than x became free. */
  ghost predicate SmallSeen(v: View, x: nat) {
    v.head == 0 ==> forall p {:trigger v.h[p]} :: p in v.h && !v.h[p].alloc && p != x ==> v.h[p].size > 16
  }

  lemma FreedSeen(v: View, lo: nat, p: nat)
    requires Layout(v.h, lo, v.brk) && lo > 0 && p in v.h && SmallSeen(v, p)
    ensures SmallSeen(Freed(v, p), 0)
  {
    var q := MergePoint(v.h, p);
    MergePointStarts(v.h, lo, v.brk, p);
    FreedIs(v, lo, p, q);
    assert q != p ==> BlockIn(q, v.h[q], lo, v.brk);
    assert BlockIn(p, v.h[p], lo, v.brk);
    hide Layout, Freed, FreedHeap, MergePoint;
    var w := Freed(v, p);
    forall r | r in w.h && !w.h[r].alloc && w.head == 0 ensures w.h[r].size > 16 {
      if r != q { MergedMember(v.h, p, q, r); }
    }
  }

  lemma CutSeen(v: View, lo: nat, p: nat, n: nat)
    requires Layout(v.h, lo, v.brk) && lo > 0 && p in v.h && 8 <= n && n + 8 <= v.h[p].size && SmallSeen(v, p)
    ensures SmallSeen(v.(h := Split(v.h, p, n, true, false)), p + n)
    ensures SmallSeen(Cut(v, p, n), 0)
  {
    var h' := Split(v.h, p, n, true, false);
    SplitLayout(v.h, lo, v.brk, p, n, true, false);
    hide Layout, Freed;
    forall q | q in h' && !h'[q].alloc && q != p + n ensures q in v.h && q != p && h'[q] == v.h[q] {
    }
    FreedSeen(v.(h := h'), lo, p + n);
  }

  lemma RecoloredSeen(v: View, p: nat)
    requires p in v.h && SmallSeen(v, p)
    ensures SmallSeen(v.(h := Recolored(v.h, p, true)), 0)
  {
    var h' := Recolored(v.h, p, true);
    forall q | q in h' && !h'[q].alloc ensures q != p && h'[q] == v.h[q] {
    }
  }

  lemma GrownSeen(v: View, p: nat, n: nat)
    requires SmallSeen(v, 0)
    ensures SmallSeen(View(v.h[p := Block(n, true)], p + n, v.head), 0)
  {
  }

  /** Where no block is special, the exception can be any block. */
  lemma SeenWeaken(v: View, p: nat)
    requires SmallSeen(v, 0) && 0 !in v.h
    ensures SmallSeen(v, p)
  {
  }

  // ---------------------------------------------------------------------------
  // When the head of slot 0 is what the table promises: a free block of 16 bytes
  // ---------------------------------------------------------------------------

  ghost predicate HeadGood(v: View) {
    v.head in v.h && v.h[v.head] == Block(16, false)
  }

  ghost predicate PrevFree(h: Heap, p: nat) {
    exists q {:trigger h[q]} :: q in h && !h[q].alloc && q + h[q].size == p
  }

  /** When the head is good after freeing p: the resulting block has 16 bytes, and so is the
      new head, or the head was good and is not merged. */
  ghost predicate GoodAfterFree(v: View, p: nat)
    requires p in v.h
  {
    || (v.h[p].size == 16 && !PrevFree(v.h, p) && !NextFree(v.h, p))
    || (HeadGood(v) && v.head != p && v.head + 16 != p && v.head != p + v.h[p].size)
  }

  /** When the head is good after allocating n bytes at r: a rest of 16 bytes is cut off, or
      the head was good and is not the allocated block itself. */
  ghost predicate GoodAfterMalloc(v: View, r: nat, n: nat) {
    (r in v.h && v.h[r].size == n + 16) || (HeadGood(v) && v.head != r)
  }

  /** When the head is good after cutting p down to n bytes: the rest has 16 bytes and is not
      merged, or the head was good and is not the block behind p. */
  ghost predicate GoodAfterCut(v: View, p: nat, n: nat)
    requires p in v.h
  {
    (v.h[p].size == n + 16 && !NextFree(v.h, p)) || (HeadGood(v) && v.head != p + v.h[p].size)
  }

  /** When the head is good after moving ptr to np: ptr becomes a free block of 16 bytes, or
      the head that allocating np leaves is good and is not merged with ptr. np itself may
      have been a free neighbour of ptr, or have left a rest that is one. */
  ghost predicate GoodAfterMove(v: View, ptr: nat, np: nat, n: nat)
    requires ptr in v.h
  {
    var h, e := v.h, ptr + v.h[ptr].size;
    var whole := np in h && h[np].size < n + 16;
    var even := np in h && h[np].size == n + 16;
    var z := if even then np + n else v.head;
    || (h[ptr].size == 16 && !(PrevFree(h, ptr) && !(whole && np + h[np].size == ptr))
        && !(NextFree(h, ptr) && np != e))
    || ((even || HeadGood(v)) && z + 16 != ptr && z != e)
  }

  /** When the head is good after realloc, by what happens to the block. */
  ghost predicate GoodAfterRealloc(v: View, ptr: nat, np: nat, n: nat)
    requires ptr in v.h
  {
    if n > v.h[ptr].size then GoodAfterMove(v, ptr, np, n)
    else if v.h[ptr].size >= n + 16 then GoodAfterCut(v, ptr, n)
    else HeadGood(v)
  }

  /** Only one block ends at p. */
  lemma MergedFrom(h: Heap, lo: nat, hi: nat, p: nat, q: nat)
    requires Layout(h, lo, hi) && p in h && MergeStart(h, p, q)
    ensures PrevFree(h, p) <==> q != p
    ensures forall r {:trigger h[r]} :: r in h && !h[r].alloc && r + h[r].size == p ==> r == q
  {
    assert BlockIn(p, h[p], lo, hi);
    assert q != p ==> BlockIn(q, h[q], lo, hi);
    if q != p {
      NoneInside(h, lo, hi, q);
    }
  }

  /** A block other than p is still there after merging p exactly if it was no free neighbour. */
  lemma MergedElsewhere(h: Heap, lo: nat, hi: nat, p: nat, q: nat, z: nat)
    requires Layout(h, lo, hi) && p in h && MergeStart(h, p, q) && z != q
    ensures z in Merged(h, p, q) <==> z in h && z != p && !(NextFree(h, p) && z == p + h[p].size)
    ensures z in Merged(h, p, q) ==> Merged(h, p, q)[z] == h[z]
  {
  }

  lemma MergedSizes(h: Heap, lo: nat, hi: nat, p: nat, q: nat)
    requires Layout(h, lo, hi) && p in h && MergeStart(h, p, q) && h[p].size >= 16
    ensures q in Merged(h, p, q) && Merged(h, p, q)[q].size >= 16 && !Merged(h, p, q)[q].alloc
    ensures Merged(h, p, q)[q].size == 16 <==> h[p].size == 16 && q == p && !NextFree(h, p)
  {
    MergedBlock(h, p, q);
    hide Merged;
    var n := p + h[p].size;
    assert q != p ==> BlockIn(q, h[q], lo, hi);
    assert NextFree(h, p) ==> BlockIn(n, h[n], lo, hi);
  }

  lemma FreedHeadIff(v: View, lo: nat, p: nat)
    requires Layout(v.h, lo, v.brk) && p in v.h && v.h[p].size >= 16
    ensures HeadGood(Freed(v, p)) <==> GoodAfterFree(v, p)
  {
    var h, q, z := v.h, MergePoint(v.h, p), v.head;
    MergePointStarts(h, lo, v.brk, p);
    MergedFrom(h, lo, v.brk, p, q);
    MergedSizes(h, lo, v.brk, p, q);
    FreedIs(v, lo, p, q);
    if z != q {
      MergedElsewhere(h, lo, v.brk, p, q, z);
    }
    assert z in h ==> h[z] == h[z];
    hide Merged, MergePoint, Layout, Freed, FreedHeap, MergeStart, PrevFree;
  }

  /** Without a free block behind p, the rest is not merged. */
  lemma CutExact(v: View, lo: nat, p: nat, n: nat)
    requires Layout(v.h, lo, v.brk) && p in v.h && 16 <= n && n + 16 <= v.h[p].size && !NextFree(v.h, p)
    ensures Cut(v, p, n) == View(Split(v.h, p, n, true, false), v.brk, if v.h[p].size == n + 16 then p + n else v.head)
  {
    var r := p + n;
    var h := Split(v.h, p, n, true, false);
    CutLayout(v, lo, p, n);
    var q := MergePoint(h, r);
    MergePointStarts(h, lo, v.brk, r);
    MergedFrom(h, lo, v.brk, r, q);
    MergedBlock(h, r, q);
    assert q == r && Merged(h, r, r) == h;
  }

  /** What the rest of a cut block adjoins. */
  lemma CutLayout(v: View, lo: nat, p: nat, n: nat)
    requires Layout(v.h, lo, v.brk) && p in v.h && 16 <= n && n + 16 <= v.h[p].size
    ensures var h, r := Split(v.h, p, n, true, false), p + n;
      && Layout(h, lo, v.brk) && r in h && r !in v.h && h[r] == Block(v.h[p].size - n, false)
      && !PrevFree(h, r) && (NextFree(h, r) <==> NextFree(v.h, p))
  {
    var h, r, e := Split(v.h, p, n, true, false), p + n, p + v.h[p].size;
    SplitLayout(v.h, lo, v.brk, p, n, true, false);
    assert h[p] == Block(n, true) && h[r] == Block(v.h[p].size - n, false);
    assert e in v.h ==> h[e] == v.h[e];
    NoneInside(v.h, lo, v.brk, p);
    NoneInside(h, lo, v.brk, p);
  }

  lemma CutHeadIff(v: View, lo: nat, p: nat, n: nat)
    requires Layout(v.h, lo, v.brk) && p in v.h && 16 <= n && n + 16 <= v.h[p].size
    ensures HeadGood(Cut(v, p, n)) <==> GoodAfterCut(v, p, n)
  {
    var h, r, z := Split(v.h, p, n, true, false), p + n, v.head;
    CutLayout(v, lo, p, n);
    FreedHeadIff(v.(h := h), lo, r);
    SplitHead(v, lo, p, n);
    hide Layout, Freed, HeadGood, NextFree, PrevFree;
  }

  /** Of the good heads, only the block behind p is beside the rest of a cut. */
  lemma SplitHead(v: View, lo: nat, p: nat, n: nat)
    requires Layout(v.h, lo, v.brk) && p in v.h && 16 <= n && n + 16 <= v.h[p].size
    requires p + n !in v.h && Layout(Split(v.h, p, n, true, false), lo, v.brk)
    ensures HeadGood(v.(h := Split(v.h, p, n, true, false))) && v.head != p + n ==> v.head + 16 != p + n
    ensures HeadGood(v.(h := Split(v.h, p, n, true, false))) && v.head != p + n <==> HeadGood(v)
  {
    var h, r, z := Split(v.h, p, n, true, false), p + n, v.head;
    assert h[p] == Block(n, true);
    NoneInside(h, lo, v.brk, p);
    hide Layout;
    assert z != r && z != p ==> (z in h <==> z in v.h) && (z in v.h ==> h[z] == v.h[z]);
    assert z in h ==> h[z] == h[z];
  }

  lemma TakenHeadIff(v: View, lo: nat, r: nat, n: nat)
    requires Layout(v.h, lo, v.brk) && Apart(v.h, 0) && lo > 0 && n >= 16
    requires r == v.brk || (r in v.h && (if v.h[r].alloc then v.h[r].size == n else v.h[r].size >= n))
    ensures HeadGood(Taken(v, r, n)) <==> GoodAfterMalloc(v, r, n)
  {
    TakenExact(v, lo, r, n);
    var z := v.head;
    assert z in v.h ==> v.h[z] == v.h[z] && BlockIn(z, v.h[z], lo, v.brk);
    assert r in v.h ==> v.h[r] == v.h[r];
  }

  /** A request of more than 8 bytes, whose block has more than 16, never spoils the head. */
  lemma TakenKeepsHead(v: View, lo: nat, r: nat, n: nat)
    requires Layout(v.h, lo, v.brk) && Apart(v.h, 0) && lo > 0 && n >= 24 && HeadGood(v)
    requires r == v.brk || (r in v.h && (if v.h[r].alloc then v.h[r].size == n else v.h[r].size >= n))
    ensures HeadGood(Taken(v, r, n))
  {
    hide Taken, Apart;
    NoneBehind(v.h, lo, v.brk, v.brk);
    TakenHeadIff(v, lo, r, n);
  }

  lemma TakenExact(v: View, lo: nat, r: nat, n: nat)
    requires Layout(v.h, lo, v.brk) && Apart(v.h, 0) && lo > 0 && n >= 16
    requires r == v.brk || (r in v.h && (if v.h[r].alloc then v.h[r].size == n else v.h[r].size >= n))
    ensures Taken(v, r, n) ==
      if r !in v.h then View(v.h[r := Block(n, true)], r + n, v.head)
      else if v.h[r].size >= n + 16 then
        View(Split(v.h, r, n, true, false), v.brk, if v.h[r].size == n + 16 then r + n else v.head)
      else v.(h := Recolored(v.h, r, true))
  {
    if r in v.h && v.h[r].size >= n + 16 {
      assert !NextFree(v.h, r) by {
        var e := r + v.h[r].size;
        assert BlockIn(r, v.h[r], lo, v.brk);
        assert e in v.h ==> v.h[e] == v.h[e] && BlockIn(e, v.h[e], lo, v.brk);
      }
      CutExact(v, lo, r, n);
    }
  }

  /** The neighbours of an allocated block ptr after another block was allocated at np. */
  lemma TakenBeside(v: View, lo: nat, ptr: nat, np: nat, n: nat)
    requires Layout(v.h, lo, v.brk) && Apart(v.h, 0) && lo > 0 && n >= 16
    requires np == v.brk || (np in v.h && !v.h[np].alloc && v.h[np].size >= n)
    requires ptr in v.h && v.h[ptr].alloc
    ensures var h, h1 := v.h, Taken(v, np, n).h;
      && Layout(h1, lo, Taken(v, np, n).brk) && ptr in h1 && h1[ptr] == h[ptr]
      && (NextFree(h1, ptr) <==> NextFree(h, ptr) && np != ptr + h[ptr].size)
      && (PrevFree(h1, ptr) <==> PrevFree(h, ptr) && !(np in h && np + h[np].size == ptr && h[np].size < n + 16))
  {
    var h := v.h;
    TakenExact(v, lo, np, n);
    assert np in h ==> BlockIn(np, h[np], lo, v.brk);
    assert BlockIn(ptr, h[ptr], lo, v.brk);
    if np !in h {
      GrownBeside(h, lo, v.brk, ptr, n);
    } else if h[np].size >= n + 16 {
      SplitBeside(h, lo, v.brk, ptr, np, n);
    } else {
      RecoloredBeside(h, lo, v.brk, ptr, np);
    }
  }

  lemma GrownBeside(h: Heap, lo: nat, hi: nat, ptr: nat, n: nat)
    requires Layout(h, lo, hi) && ptr in h && n >= 16 && hi !in h && lo <= hi
    ensures var h1 := h[hi := Block(n, true)];
      Layout(h1, lo, hi + n) && ptr in h1 && h1[ptr] == h[ptr] &&
      (NextFree(h1, ptr) <==> NextFree(h, ptr)) && (PrevFree(h1, ptr) <==> PrevFree(h, ptr))
  {
    ExtendedLayout(h, lo, hi, Block(n, true));
    var h1 := h[hi := Block(n, true)];
    assert forall q :: q in h ==> h1[q] == h[q];
    assert forall q :: q in h1 && q != hi ==> h1[q] == h[q];
  }

  lemma SplitBeside(h: Heap, lo: nat, hi: nat, ptr: nat, np: nat, n: nat)
    requires Layout(h, lo, hi) && ptr in h && np in h && np != ptr && 16 <= n && n + 16 <= h[np].size && !h[np].alloc
    ensures var h1 := Split(h, np, n, true, false);
      Layout(h1, lo, hi) && ptr in h1 && h1[ptr] == h[ptr] &&
      (NextFree(h1, ptr) <==> NextFree(h, ptr) && np != ptr + h[ptr].size) && (PrevFree(h1, ptr) <==> PrevFree(h, ptr))
  {
    SplitLayout(h, lo, hi, np, n, true, false);
    var h1, r := Split(h, np, n, true, false), np + n;
    assert h1[np] == Block(n, true) && h1[r] == Block(h[np].size - n, false);
    NoneInside(h, lo, hi, np);
    NoneInside(h1, lo, hi, np);
    hide Layout;
    forall q | q in h1 && q != np && q != r ensures q in h && h1[q] == h[q] {
    }
    SplitPrev(h, h1, ptr, np, n);
  }

  lemma SplitPrev(h: Heap, h1: Heap, ptr: nat, np: nat, n: nat)
    requires np in h && n <= h[np].size && !h[np].alloc && np + n !in h && np + n != np
    requires h1 == Split(h, np, n, true, false)
    ensures PrevFree(h1, ptr) <==> PrevFree(h, ptr)
  {
    var r := np + n;
    if PrevFree(h, ptr) {
      var q :| q in h && !h[q].alloc && q + h[q].size == ptr;
      var q' := if q == np then r else q;
      assert q' in h1 && !h1[q'].alloc && q' + h1[q'].size == ptr;
    }
    if PrevFree(h1, ptr) {
      var q :| q in h1 && !h1[q].alloc && q + h1[q].size == ptr;
      var q' := if q == r then np else q;
      assert q' in h && !h[q'].alloc && q' + h[q'].size == ptr;
    }
  }

  lemma RecoloredBeside(h: Heap, lo: nat, hi: nat, ptr: nat, np: nat)
    requires Layout(h, lo, hi) && ptr in h && np in h && np != ptr && !h[np].alloc
    ensures var h1 := Recolored(h, np, true);
      Layout(h1, lo, hi) && ptr in h1 && h1[ptr] == h[ptr] &&
      (NextFree(h1, ptr) <==> NextFree(h, ptr) && np != ptr + h[ptr].size) &&
      (PrevFree(h1, ptr) <==> PrevFree(h, ptr) && np + h[np].size != ptr)
  {
    var h1 := Recolored(h, np, true);
    forall q | q in h1 ensures h1[q].size == h[q].size && (q != np ==> h1[q] == h[q]) && BlockIn(q, h1[q], lo, hi) {
      assert h[q] == h[q];
    }
    NoneInside(h, lo, hi, np);
    hide Layout;
    RecoloredPrev(h, h1, ptr, np);
  }

  lemma RecoloredPrev(h: Heap, h1: Heap, ptr: nat, np: nat)
    requires np in h && h1 == Recolored(h, np, true) && ptr in h
    requires forall q {:trigger h[q]} :: q in h && !h[q].alloc && q + h[q].size == np + h[np].size ==> q == np
    ensures PrevFree(h1, ptr) <==> PrevFree(h, ptr) && np + h[np].size != ptr
  {
    if PrevFree(h, ptr) {
      var q :| q in h && !h[q].alloc && q + h[q].size == ptr;
      assert q != np ==> h1[q] == h[q];
    }
    if PrevFree(h1, ptr) {
      var q :| q in h1 && !h1[q].alloc && q + h1[q].size == ptr;
      assert h[q] == h1[q];
    }
  }

  lemma MovedHeadIff(v: View, lo: nat, ptr: nat, np: nat, n: nat)
    requires Layout(v.h, lo, v.brk) && Apart(v.h, 0) && lo > 0 && n >= 24
    requires np == v.brk || (np in v.h && !v.h[np].alloc && v.h[np].size >= n)
    requires ptr in v.h && v.h[ptr].alloc && 16 <= v.h[ptr].size < n
    ensures HeadGood(Freed(Taken(v, np, n), ptr)) <==> GoodAfterMove(v, ptr, np, n)
  {
    hide Layout, Apart, Freed, Taken, PrevFree, NextFree, HeadGood, GoodAfterFree, GoodAfterMalloc, GoodAfterMove;
    NoneBehind(v.h, lo, v.brk, v.brk);
    TakenBeside(v, lo, ptr, np, n);
    TakenHeadIff(v, lo, np, n);
    TakenHead(v, lo, np, n);
    FreedHeadIff(Taken(v, np, n), lo, ptr);
    MoveCases(v, Taken(v, np, n), ptr, np, n);
  }

  lemma MoveCases(v: View, v1: View, ptr: nat, np: nat, n: nat)
    requires ptr in v.h && v.h[ptr].alloc && ptr in v1.h && v1.h[ptr] == v.h[ptr] && n >= 24
    requires (np in v.h ==> v.h[np].size >= n)
    requires NextFree(v1.h, ptr) <==> NextFree(v.h, ptr) && np != ptr + v.h[ptr].size
    requires PrevFree(v1.h, ptr) <==>
      PrevFree(v.h, ptr) && !(np in v.h && np + v.h[np].size == ptr && v.h[np].size < n + 16)
    requires HeadGood(v1) <==> GoodAfterMalloc(v, np, n)
    requires v1.head == if np in v.h && v.h[np].size == n + 16 then np + n else v.head
    ensures GoodAfterFree(v1, ptr) <==> GoodAfterMove(v, ptr, np, n)
  {
    hide PrevFree, NextFree;
  }

  lemma TakenHead(v: View, lo: nat, r: nat, n: nat)
    requires Layout(v.h, lo, v.brk) && Apart(v.h, 0) && lo > 0 && n >= 16
    requires r == v.brk || (r in v.h && (if v.h[r].alloc then v.h[r].size == n else v.h[r].size >= n))
    ensures Taken(v, r, n).head == if r in v.h && v.h[r].size == n + 16 then r + n else v.head
  {
    TakenExact(v, lo, r, n);
    hide Taken;
  }
}
