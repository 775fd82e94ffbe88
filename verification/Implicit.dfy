/** implicit.c: the implicit-list allocator, with its three placement strategies. */
module Implicit {
  import opened Memory
  import opened Blocks
  import opened LiveBlocks
  import opened ImplicitHeap

  /** USE_FIRST_FIT, USE_NEXT_FIT, USE_BEST_FIT */
  datatype Strategy = FirstFit | NextFit | BestFit

  /** Walking from `from` to the end and on from the start, q is met before r. */
  ghost predicate MetBefore(from: nat, q: nat, r: nat) {
    if from <= q then r < from || q < r else r < from && q < r
  }

  /** r is the block that the strategy picks: the lowest that fits, the first that fits
      behind block cur, or the smallest that fits and the lowest of those. */
  ghost predicate Picked(strategy: Strategy, h: Heap, cur: nat, size: nat, r: nat) {
    && Fits(h, r, size)
    && match strategy
       case FirstFit => forall q {:trigger h[q]} :: q in h && q < r ==> !Fits(h, q, size)
       case NextFit => cur in h && forall q {:trigger h[q]} ::
         q in h && MetBefore(cur + h[cur].size, q, r) ==> !Fits(h, q, size)
       case BestFit => forall q: nat {:trigger h[q]} :: Fits(h, q, size) ==>
         h[r].size < h[q].size || (h[r].size == h[q].size && r <= q)
  }

  /** r is the first block of the walk w that has room. */
  ghost predicate FirstOf(w: seq<nat>, h: Heap, size: nat, r: nat) {
    exists k :: 0 <= k < |w| && w[k] == r && r in h && !h[r].alloc && h[r].size - 8 >= size
      && forall j :: 0 <= j < k ==> w[j] in h && (h[w[j]].alloc || h[w[j]].size - 8 < size)
  }

  /** What the strategies pick, in terms of the walks with NEXT_BLKP: the first block with room
      from the start on; the first from the block behind the cursor to the end and then from
      the start on; the first of the smallest ones. */
  lemma PickedWalk(strategy: Strategy, sp: Space, cur: nat, size: nat, r: nat)
    requires Shaped(sp) && cur in sp.h && sp.lo in sp.h
    ensures var h, next := sp.h, cur + sp.h[cur].size;
      && (next in h || next == sp.brk)
      && (Picked(FirstFit, h, cur, size, r) <==> FirstOf(Walk(h, sp.lo, sp.brk, sp.lo), h, size, r))
      && (Picked(NextFit, h, cur, size, r) <==>
            FirstOf(Walk(h, sp.lo, sp.brk, next) + Walk(h, sp.lo, sp.brk, sp.lo), h, size, r))
      && (Picked(BestFit, h, cur, size, r) <==>
            && r in h && !h[r].alloc && h[r].size - 8 >= size
            && forall q {:trigger h[q]} :: q in h && !h[q].alloc && h[q].size - 8 >= size ==>
                 h[r].size < h[q].size || (h[r].size == h[q].size && r <= q))
  {
    PickedBest(sp.h, cur, size, r);
    hide Walk, FirstOf, MetBefore, Fits, Aligned, Sized;
    var h, lo, brk := sp.h, sp.lo, sp.brk;
    var next := cur + h[cur].size;
    assert NextIn(h, brk, cur);
    WalkFromStart(sp);
    WalkTiles(h, lo, brk, next);
    var u, w := Walk(h, lo, brk, next), Walk(h, lo, brk, lo);
    hide Tiling, Shaped;
    FirstInOrder(w, h, size, r);
    FirstMetInOrder(u, w, h, next, size, r);
  }

  /** The part of next_fit's walk that has been made: from `from` up to p, or to the end and
      then from the start up to p. */
  ghost predicate NoneMet(h: Heap, from: nat, p: nat, wrapped: bool, size: nat) {
    forall q {:trigger h[q]} ::
      q in h && (if q >= from then wrapped || q < p else wrapped && q < p) ==> !Fits(h, q, size)
  }

  lemma NoneMetFirst(h: Heap, from: nat, size: nat)
    ensures NoneMet(h, from, from, false, size)
  {
  }

  lemma NoneMetStep(sp: Space, from: nat, p: nat, wrapped: bool, size: nat)
    requires Shaped(sp) && p in sp.h && NoneMet(sp.h, from, p, wrapped, size) && !Fits(sp.h, p, size)
    requires if wrapped then p < from else from <= p
    ensures NoneMet(sp.h, from, p + sp.h[p].size, wrapped, size)
  {
    NoneInside(sp.h, sp.lo, sp.brk, p);
    hide Shaped, Fits;
  }

  lemma NoneMetWrap(sp: Space, from: nat, p: nat, wrapped: bool, size: nat)
    requires Shaped(sp) && p == sp.brk && NoneMet(sp.h, from, p, wrapped, size) && from <= sp.brk
    requires if wrapped then p < from else from <= p
    ensures !wrapped && NoneMet(sp.h, from, sp.lo, true, size)
  {
    forall q | q in sp.h ensures sp.lo <= q < sp.brk {
      BlockBounds(sp, q);
    }
    hide Shaped, Fits;
  }

  lemma NoneMetFound(sp: Space, cur: nat, p: nat, wrapped: bool, size: nat)
    requires cur in sp.h && NoneMet(sp.h, cur + sp.h[cur].size, p, wrapped, size) && Fits(sp.h, p, size)
    requires if wrapped then p < cur + sp.h[cur].size else cur + sp.h[cur].size <= p
    ensures Picked(NextFit, sp.h, cur, size, p) && !NoFit(sp.h, size)
  {
  }

  lemma NextFound(sp: Space, cur: nat, p: nat, wrapped: bool, size: nat)
    requires Shaped(sp) && sp.lo in sp.h && cur in sp.h && Fits(sp.h, p, size)
    requires NoneMet(sp.h, cur + sp.h[cur].size, p, wrapped, size)
    requires if wrapped then p < cur + sp.h[cur].size else cur + sp.h[cur].size <= p
    ensures var h, next := sp.h, cur + sp.h[cur].size;
      && Tiling(h, sp.lo, sp.brk) && (next in h || next == sp.brk)
      && FirstOf(Walk(h, sp.lo, sp.brk, next) + Walk(h, sp.lo, sp.brk, sp.lo), h, size, p)
    ensures Picked(NextFit, sp.h, cur, size, p) && !NoFit(sp.h, size)
  {
    hide NoneMet, Picked, NoFit, Shaped, Fits, FirstOf, Walk;
    NoneMetFound(sp, cur, p, wrapped, size);
    NextPicked(sp, cur, size, p);
  }

  lemma NoneMetLast(h: Heap, from: nat, wrapped: bool, size: nat)
    requires NoneMet(h, from, from, wrapped, size) && wrapped
    ensures NoFit(h, size)
  {
  }

  lemma NextPicked(sp: Space, cur: nat, size: nat, r: nat)
    requires Shaped(sp) && cur in sp.h && sp.lo in sp.h && Picked(NextFit, sp.h, cur, size, r)
    ensures var h, next := sp.h, cur + sp.h[cur].size;
      && Tiling(h, sp.lo, sp.brk) && (next in h || next == sp.brk)
      && FirstOf(Walk(h, sp.lo, sp.brk, next) + Walk(h, sp.lo, sp.brk, sp.lo), h, size, r)
  {
    PickedWalk(NextFit, sp, cur, size, r);
  }

  lemma FirstPicked(sp: Space, size: nat, r: nat)
    requires Shaped(sp) && sp.lo in sp.h && Picked(FirstFit, sp.h, sp.lo, size, r)
    ensures Tiling(sp.h, sp.lo, sp.brk) && FirstOf(Walk(sp.h, sp.lo, sp.brk, sp.lo), sp.h, size, r)
  {
    PickedWalk(FirstFit, sp, sp.lo, size, r);
  }

  lemma PickedBest(h: Heap, cur: nat, size: nat, r: nat)
    ensures Picked(BestFit, h, cur, size, r) <==>
      && r in h && !h[r].alloc && h[r].size - 8 >= size
      && forall q {:trigger h[q]} :: q in h && !h[q].alloc && h[q].size - 8 >= size ==>
           h[r].size < h[q].size || (h[r].size == h[q].size && r <= q)
  {
  }

  lemma WalkFromStart(sp: Space)
    requires Shaped(sp) && sp.lo in sp.h
    ensures var w := Walk(sp.h, sp.lo, sp.brk, sp.lo);
      (forall q :: q in w <==> q in sp.h) && (forall i, j :: 0 <= i < j < |w| ==> w[i] < w[j])
  {
    hide Walk;
    WalkTiles(sp.h, sp.lo, sp.brk, sp.lo);
    forall q | q in sp.h ensures sp.lo <= q {
      BlockBounds(sp, q);
    }
  }

  lemma FirstInOrder(w: seq<nat>, h: Heap, size: nat, r: nat)
    requires forall q :: q in w <==> q in h
    requires forall i, j :: 0 <= i < j < |w| ==> w[i] < w[j]
    ensures FirstOf(w, h, size, r) <==>
      Fits(h, r, size) && forall q {:trigger h[q]} :: q in h && q < r ==> !Fits(h, q, size)
  {
    if Fits(h, r, size) && forall q {:trigger h[q]} :: q in h && q < r ==> !Fits(h, q, size) {
      var k :| 0 <= k < |w| && w[k] == r;
      forall j | 0 <= j < k ensures w[j] in h && !Fits(h, w[j], size) {
        assert w[j] in w && h[w[j]] == h[w[j]];
      }
    }
    if FirstOf(w, h, size, r) {
      var k :| 0 <= k < |w| && w[k] == r && Fits(h, r, size) && forall j :: 0 <= j < k ==> !Fits(h, w[j], size);
      forall q | q in h && q < r ensures !Fits(h, q, size) {
        var j :| 0 <= j < |w| && w[j] == q;
      }
    }
  }

  lemma FirstMetInOrder(u: seq<nat>, w: seq<nat>, h: Heap, from: nat, size: nat, r: nat)
    requires (forall q :: q in w <==> q in h) && (forall q :: q in u <==> q in h && from <= q)
    requires forall i, j :: 0 <= i < j < |w| ==> w[i] < w[j]
    requires forall i, j :: 0 <= i < j < |u| ==> u[i] < u[j]
    ensures FirstOf(u + w, h, size, r) <==>
      Fits(h, r, size) && forall q {:trigger h[q]} :: q in h && MetBefore(from, q, r) ==> !Fits(h, q, size)
  {
    var s := u + w;
    if Fits(h, r, size) && forall q {:trigger h[q]} :: q in h && MetBefore(from, q, r) ==> !Fits(h, q, size) {
      FirstMetThere(u, w, h, from, size, r);
    }
    if FirstOf(s, h, size, r) {
      var k :| 0 <= k < |s| && s[k] == r && Fits(h, r, size) && forall j :: 0 <= j < k ==> !Fits(h, s[j], size);
      forall q | q in h && MetBefore(from, q, r) ensures !Fits(h, q, size) {
        FirstMetBefore(u, w, h, from, size, k, q);
      }
    }
  }

  lemma FirstMetThere(u: seq<nat>, w: seq<nat>, h: Heap, from: nat, size: nat, r: nat)
    requires (forall q :: q in w <==> q in h) && (forall q :: q in u <==> q in h && from <= q)
    requires forall i, j :: 0 <= i < j < |w| ==> w[i] < w[j]
    requires forall i, j :: 0 <= i < j < |u| ==> u[i] < u[j]
    requires Fits(h, r, size) && forall q {:trigger h[q]} :: q in h && MetBefore(from, q, r) ==> !Fits(h, q, size)
    ensures FirstOf(u + w, h, size, r)
  {
    var s := u + w;
    var i :| 0 <= i < |(if from <= r then u else w)| && (if from <= r then u else w)[i] == r;
    var k := if from <= r then i else |u| + i;
    assert s[k] == r;
    forall j | 0 <= j < k ensures s[j] in h && !Fits(h, s[j], size) {
      if j < |u| {
        assert s[j] == u[j] && u[j] in u && h[u[j]] == h[u[j]];
      } else {
        assert s[j] == w[j - |u|] && w[j - |u|] in w && h[s[j]] == h[s[j]];
      }
    }
  }

  lemma FirstMetBefore(u: seq<nat>, w: seq<nat>, h: Heap, from: nat, size: nat, k: nat, q: nat)
    requires (forall q :: q in w <==> q in h) && (forall q :: q in u <==> q in h && from <= q)
    requires forall i, j :: 0 <= i < j < |w| ==> w[i] < w[j]
    requires forall i, j :: 0 <= i < j < |u| ==> u[i] < u[j]
    requires k < |u + w| && Fits(h, (u + w)[k], size) && forall j :: 0 <= j < k ==> !Fits(h, (u + w)[j], size)
    requires q in h && MetBefore(from, q, (u + w)[k])
    ensures !Fits(h, q, size)
  {
    var s := u + w;
    var r := s[k];
    forall i | 0 <= i < |u| && k >= |u| ensures u[i] != r {
      assert s[i] == u[i];
    }
    if from <= q {
      var i :| 0 <= i < |u| && u[i] == q;
      assert s[i] == q;
    } else {
      var i :| 0 <= i < |w| && w[i] == q;
      assert s[|u| + i] == q;
    }
  }

  class Allocator {
    const lib: Memlib
    const strategy: Strategy
    var listp: nat          // heap_listp
    var curp: nat           // heap_curp
    ghost var sp: Space

    constructor (lib: Memlib, strategy: Strategy)
      ensures this.lib == lib && this.strategy == strategy
    {
      this.lib, this.strategy := lib, strategy;
      listp, curp := 0, 0;
      sp := Space(0, 0, map[]);
    }

    ghost predicate Valid()
      reads this, lib, lib.mem
    {
      && lib.Valid() && lib.start <= listp && sp.lo == listp && sp.brk == lib.brk
      && Framed(lib.mem[..], sp, {})
    }

    /** The next-fit cursor is a block boundary. */
    ghost predicate CursorOk()
      reads this
    {
      strategy.NextFit? ==> curp in sp.h
    }

    /** SET_RB(p, n, BLK_ALLOC), and SET_RB(NEXT_BLKP(p), rest, BLK_FREE) if rest is large
        enough for a block. The layout sp1 that this completes may differ from the current
        one in block p, whose own tags may be out of date. */
    method Carve(p: nat, n: nat, rest: nat, ghost sp1: Space, ghost x: set<nat>)
      requires lib.Valid() && lib.start <= listp && sp1.lo == listp && sp1.brk == lib.brk
      requires Framed(lib.mem[..], sp1, x) && x <= {p} && p in sp1.h && p != listp
      requires 16 <= n <= sp1.h[p].size && n % 8 == 0 && n + rest == sp1.h[p].size
      modifies this`sp, lib.mem
      ensures Valid() && sp == sp1.(h := Carved(sp1.h, p, n))
      ensures CarveKept(old(lib.mem[..]), lib.mem[..], sp1.h, p, n)
    {
      hide Framed, Shaped, Carved, CarveKept, Retagged, Word, GetSize;
      ghost var m := lib.mem[..];
      FramedShape(m, sp1, x);
      CarvedShape(sp1, p, n);
      SetBlk(lib, p, n, true);
      ghost var m1 := lib.mem[..];
      if rest >= MIN_BLK_SIZE {
        TaggedSize(m, m1, p, n);
        var s := BlkSize(lib, p);
        SetBlk(lib, p + s, rest, false);
      }
      CarveStores(m, m1, lib.mem[..], sp1, x, p, n);
      sp := sp1.(h := Carved(sp1.h, p, n));
    }

    /** place: NULL exactly if the block is allocated or too small. */
    method Place(bp: nat, size: nat) returns (r: nat)
      requires Valid() && bp in sp.h && 1 <= size < 0x7FFF_FFF0
      modifies this`sp, lib.mem
      ensures Valid() && r == (if old(Fits(sp.h, bp, size)) then bp else 0)
      ensures r == 0 ==> sp == old(sp) && lib.mem[..] == old(lib.mem[..])
      ensures r != 0 ==> Placed(old(lib.mem[..]), lib.mem[..], old(sp), sp, bp, size)
    {
      hide Framed, Shaped, Carved, CarveKept, Retagged, Word, GetSize, GetAlloc, Placed, Align;
      ghost var m := lib.mem[..];
      FramedShape(m, sp, {});
      ReadTag(m, sp, {}, bp);
      AlignBounds(size);
      var alloc := BlkAlloc(lib, bp);
      if alloc {
        return 0;
      }
      var asize := Align(size);
      var nsize := asize + 4 + 4;
      var osize := BlkSize(lib, bp);
      if nsize > osize {
        return 0;
      }
      FitSize(sp, bp, size);
      CarvePlacedWhen(sp, bp, size);
      Carve(bp, nsize, osize - nsize, sp, {});
      CarvePlaced(m, lib.mem[..], old(sp), bp, size);
      return bp;
    }

    /** first_fit: the lowest block that fits; NULL exactly if none does. */
    method FirstFit(size: nat) returns (r: nat)
      requires Valid() && 1 <= size < 0x7FFF_FFF0
      modifies this`sp, lib.mem
      ensures Valid()
      ensures r == 0 <==> NoFit(old(sp.h), size)
      ensures r == 0 ==> sp == old(sp) && lib.mem[..] == old(lib.mem[..])
      ensures r != 0 ==> Placed(old(lib.mem[..]), lib.mem[..], old(sp), sp, r, size)
      ensures forall q {:trigger old(sp).h[q]} :: q in old(sp).h && q < r ==> !Fits(old(sp).h, q, size)
      ensures r != 0 ==>
        var sp0 := old(sp);
        && Tiling(sp0.h, sp0.lo, sp0.brk) && sp0.lo in sp0.h
        && FirstOf(Walk(sp0.h, sp0.lo, sp0.brk, sp0.lo), sp0.h, size, r)
    {
      hide Framed, Shaped, Word, GetSize, GetAlloc, Placed, FirstOf, Walk, Tiling;
      ghost var m, sp0 := lib.mem[..], sp;
      FramedShape(m, sp, {});
      FirstBlock(sp);
      var p := listp;
      while true
        invariant Valid() && sp == sp0 && lib.mem[..] == m && (p in sp.h || p == sp.brk) && p >= 4
        invariant forall q {:trigger sp.h[q]} :: q in sp.h && q < p ==> !Fits(sp.h, q, size)
        decreases sp.brk - p
      {
        ReadEnd(m, sp, p);
        var n := BlkSize(lib, p);
        if n == 0 {
          break;
        }
        ReadTag(m, sp, {}, p);
        StepForward(sp, p);
        var alloc := BlkAlloc(lib, p);
        if !alloc && n - 8 >= size {
          r := Place(p, size);
          FirstPicked(sp0, size, r);
          return;
        }
        p := p + n;
      }
      return 0;
    }

    /** next_fit: starting behind the cursor and wrapping around once, the first block that
        fits; NULL exactly if none does. */
    method NextFit(size: nat) returns (r: nat)
      requires Valid() && curp in sp.h && 1 <= size < 0x7FFF_FFF0
      modifies this`sp, lib.mem
      ensures Valid()
      ensures r == 0 <==> NoFit(old(sp.h), size)
      ensures r == 0 ==> sp == old(sp) && lib.mem[..] == old(lib.mem[..])
      ensures r != 0 ==> Placed(old(lib.mem[..]), lib.mem[..], old(sp), sp, r, size)
      ensures r != 0 ==> Picked(Strategy.NextFit, old(sp.h), curp, size, r)
      ensures r != 0 ==>
        var sp0, next := old(sp), curp + old(sp.h[curp]).size;
        && Tiling(sp0.h, sp0.lo, sp0.brk) && sp0.lo in sp0.h && (next in sp0.h || next == sp0.brk)
        && FirstOf(Walk(sp0.h, sp0.lo, sp0.brk, next) + Walk(sp0.h, sp0.lo, sp0.brk, sp0.lo), sp0.h, size, r)
    {
      hide EndWord, Framed, Shaped, Word, GetSize, GetAlloc, Placed, Pack, Live, LiveKept, FirstOf, Walk,
           Tiling, NoneMet, MetBefore, NoFit, Picked, CursorOk;
      ghost var m, sp0 := lib.mem[..], sp;
      FramedShape(m, sp, {});
      FirstBlock(sp);
      ReadTag(m, sp, {}, curp);
      StepForward(sp, curp);
      var c := BlkSize(lib, curp);
      var oldp := curp + c;
      var p := oldp;
      ghost var wrapped := false;
      NoneMetFirst(sp.h, oldp, size);
      while true
        invariant Valid() && sp == sp0 && lib.mem[..] == m && (p in sp.h || p == sp.brk) && p >= 4
        invariant if wrapped then p < oldp else oldp <= p
        invariant NoneMet(sp.h, oldp, p, wrapped, size)
        decreases !wrapped, sp.brk - p
      {
        ReadEnd(m, sp, p);
        var n := BlkSize(lib, p);
        if n == 0 {
          NoneMetWrap(sp, oldp, p, wrapped, size);
          p := listp;
          wrapped := true;
        } else {
          ReadTag(m, sp, {}, p);
          StepForward(sp, p);
          var alloc := BlkAlloc(lib, p);
          if !alloc && n - 8 >= size {
            r := Place(p, size);
            NextFound(sp0, curp, p, wrapped, size);
            return;
          }
          NoneMetStep(sp, oldp, p, wrapped, size);
          p := p + n;
        }
        if p == oldp {
          NoneMetLast(sp.h, p, wrapped, size);
          break;
        }
      }
      return 0;
    }

    /** best_fit: among the blocks that fit the smallest, and among those the lowest; NULL
        exactly if none fits. */
    method BestFit(size: nat) returns (r: nat)
      requires Valid() && 1 <= size < 0x7FFF_FFF0
      modifies this`sp, lib.mem
      ensures Valid()
      ensures r == 0 <==> NoFit(old(sp.h), size)
      ensures r == 0 ==> sp == old(sp) && lib.mem[..] == old(lib.mem[..])
      ensures r != 0 ==> Placed(old(lib.mem[..]), lib.mem[..], old(sp), sp, r, size)
      ensures r != 0 ==> forall q: nat {:trigger old(sp).h[q]} :: Fits(old(sp).h, q, size) ==>
        old(sp).h[r].size < old(sp).h[q].size || (old(sp).h[r].size == old(sp).h[q].size && r <= q)
    {
      hide Framed, Shaped, Word, GetSize, GetAlloc, Placed;
      ghost var m, sp0 := lib.mem[..], sp;
      FramedShape(m, sp, {});
      FirstBlock(sp);
      var best := MAX_HEAP;
      var bestp: nat := 0;
      var p := listp;
      while true
        invariant Valid() && sp == sp0 && lib.mem[..] == m && (p in sp.h || p == sp.brk) && p >= 4
        invariant if bestp == 0 then best == MAX_HEAP
                  else best < MAX_HEAP && Fits(sp.h, bestp, size) && sp.h[bestp].Cap() == best && bestp < p
        invariant forall q: nat {:trigger sp.h[q]} :: q < p && Fits(sp.h, q, size) ==>
          best < sp.h[q].Cap() || (bestp != 0 && best == sp.h[q].Cap() && bestp <= q)
        decreases sp.brk - p
      {
        ReadEnd(m, sp, p);
        var n := BlkSize(lib, p);
        if n == 0 {
          break;
        }
        ReadTag(m, sp, {}, p);
        StepForward(sp, p);
        var alloc := BlkAlloc(lib, p);
        if !alloc && n - 8 >= size && n - 8 < best {
          best := n - 8;
          bestp := p;
        }
        p := p + n;
      }
      if best == MAX_HEAP {
        BestNone(sp, size, lib.start);
        return 0;
      }
      r := Place(bestp, size);
    }

    /** find_fit. Whatever the strategy, NULL means exactly that no free block fits; which
        of several blocks is taken is up to the strategy. */
    method FindFit(size: nat) returns (r: nat)
      requires Valid() && CursorOk() && 1 <= size < 0x7FFF_FFF0
      modifies this`sp, lib.mem
      ensures Valid()
      ensures r == 0 <==> NoFit(old(sp.h), size)
      ensures r == 0 ==> sp == old(sp) && lib.mem[..] == old(lib.mem[..])
      ensures r != 0 ==> Placed(old(lib.mem[..]), lib.mem[..], old(sp), sp, r, size)
      ensures r != 0 ==> Picked(strategy, old(sp.h), curp, size, r)
    {
      match strategy
      case FirstFit => r := FirstFit(size);
      case NextFit => r := NextFit(size);
      case BestFit => r := BestFit(size);
    }

    /** coalesce: bp becomes free and swallows its free neighbours. */
    method Coalesce(bp: nat) returns (p: nat)
      requires Valid() && bp in sp.h && bp != listp
      modifies this`sp, this`curp, lib.mem
      ensures Valid() && CursorOk()
      ensures MergeStart(old(sp.h), bp, p) && sp == old(sp).(h := Merged(old(sp.h), bp, p))
      ensures strategy.NextFit? ==> curp == p
      ensures LiveKept(old(lib.mem[..]), lib.mem[..], old(sp.h), bp)
    {
      hide Framed, Shaped, LiveKept, Retagged, Word, GetSize, GetAlloc, Merged, MergeStart;
      ghost var m := lib.mem[..];
      FramedShape(m, sp, {});
      ReadTag(m, sp, {}, bp);
      ReadNext(m, sp, bp);
      ghost var q := ReadPrev(m, sp, bp);
      var size := BlkSize(lib, bp);
      p := bp;
      var n := bp + size;
      var nextAlloc := BlkAlloc(lib, n);
      if !nextAlloc {
        var nextSize := BlkSize(lib, n);
        size := size + nextSize;
      }
      var footer := lib.Load32(bp - 8);
      if !GetAlloc(footer) {
        size := size + GetSize(footer);
        p := bp - GetSize(footer);
      }
      MergedBlock(sp.h, bp, p);
      MergedBounds(sp, bp, p);
      SetBlk(lib, p, size, false);
      CoalesceStore(m, lib.mem[..], sp, bp, p);
      sp := sp.(h := Merged(sp.h, bp, p));
      if strategy.NextFit? {
        curp := p;
      }
    }

    /** extend_heap: NULL exactly if the size is not positive or mem_sbrk refuses. The end
        marker that it sets is the old one. */
    method ExtendHeap(size: int) returns (oldBrk: nat)
      requires lib.Valid() && GetSize(Word(lib.mem[..], lib.brk - 4)) == 0
      modifies lib`brk, lib`enomem, lib.mem
      ensures lib.Valid()
      ensures size > 0 && old(lib.brk) + size <= lib.mem.Length ==>
        && oldBrk == old(lib.brk) && lib.brk == oldBrk + size && lib.enomem == old(lib.enomem)
        && Word(lib.mem[..], oldBrk - 4) == Pack(0, true) && Only(old(lib.mem[..]), lib.mem[..], oldBrk - 4, 4)
      ensures !(size > 0 && old(lib.brk) + size <= lib.mem.Length) ==>
        oldBrk == 0 && lib.brk == old(lib.brk) && lib.mem[..] == old(lib.mem[..])
    {
      if size == 0 {
        return 0;
      }
      var r := lib.Sbrk(size);
      if r == -1 {
        return 0;
      }
      oldBrk := r;
      var n := BlkSize(lib, oldBrk);
      lib.Store32(oldBrk + n - 4, Pack(0, true));
    }

    /** SET_RB(p, n, BLK_ALLOC) at the end of the heap, which extend_heap has just grown to
        hold it; m is the memory before. */
    method Claim(p: nat, n: nat, ghost m: Mem)
      requires lib.Valid() && lib.start <= listp && sp.lo == listp && Framed(m, sp, {}) && GrowsAt(sp, p, n)
      requires lib.brk == p + n && n < 0x8000_0000 && |m| == lib.mem.Length && Only(m, lib.mem[..], sp.brk - 4, 4)
      modifies this`sp, lib.mem
      ensures Valid() && sp == Grown(old(sp), p, n)
      ensures forall q {:trigger old(sp).h[q]} :: q in old(sp).h ==> Same(m, lib.mem[..], q, q + old(sp).h[q].Cap())
    {
      hide EndWord, Framed, Shaped, Retagged, Grown, Same, Only;
      ghost var m1 := lib.mem[..];
      FramedShape(m, sp, {});
      ClaimBounds(sp, p, n);
      SetBlk(lib, p, n, true);
      GrowStores(m, m1, lib.mem[..], sp, p, n);
      GrownFields(sp, p, n);
      sp := Grown(sp, p, n);
    }

    /** do_malloc: the last block if it is free, or else a new one, grows to hold the request.
        NULL exactly if that is no growth, or mem_sbrk refuses. */
    method DoMalloc(size: nat) returns (curp': nat, ghost g: nat)
      requires Valid() && 1 <= size < 0x7FFF_FFF0
      modifies this`sp, this`curp, lib`brk, lib`enomem, lib.mem
      ensures old(lib.brk) <= lib.brk <= old(lib.brk) + Align(size) + 8
      ensures Valid() && MergeStart(old(sp.h), old(sp.brk), g) && g != 0
      ensures curp' == (if GrowsAt(old(sp), g, Align(size) + 8) && g + Align(size) + 8 <= lib.mem.Length then g else 0)
      ensures curp' == 0 ==> sp == old(sp) && lib.mem[..] == old(lib.mem[..]) && curp == old(curp)
      ensures curp' != 0 ==>
        sp == Grown(old(sp), g, Align(size) + 8) && curp == (if strategy.NextFit? then g else old(curp))
      ensures forall q {:trigger old(sp).h[q]} :: q in old(sp).h ==>
        Same(old(lib.mem[..]), lib.mem[..], q, q + old(sp).h[q].Cap())
    {
      hide EndWord, Framed, Shaped, Retagged, Word, GetSize, GetAlloc, MergeStart, Grown, GrowsAt, Same, Only, Align;
      ghost var m, sp0 := lib.mem[..], sp;
      SameSelf(m, sp.h);
      ghost var q;
      q, g := TailFacts(m, sp, size);
      var asize := Align(size);
      var brk := lib.Sbrk(0);
      var footer := lib.Load32(brk - 8);
      var tailp := brk - GetSize(footer);
      var alloc := BlkAlloc(lib, tailp);
      if !alloc {
        // tsize wraps around as a size_t, and the conversion to int undoes that
        var n := BlkSize(lib, tailp);
        var pasize: int, tsize: int := n, asize;
        pasize := pasize - 8;
        tsize := tsize - pasize;
        var r := ExtendHeap(tsize);
        if r == 0 {
          return 0, g;
        }
        curp' := tailp;
      } else {
        curp' := ExtendHeap(asize + 4 + 4);
        if curp' == 0 {
          return 0, g;
        }
      }
      Claim(curp', asize + 4 + 4, m);
      if strategy.NextFit? {
        curp := curp';
      }
    }

    /** implicit_mm_init on a zeroed heap. The word below the region is read as the header of
        an empty block by extend_heap, and is overwritten. `fault` means that mem_sbrk refuses;
        the program then stores through NULL, because it compares NULL with -1. */
    method Init() returns (r: int, fault: bool)
      requires lib.Valid() && lib.brk % 8 == 0
      requires GetSize(Word(lib.mem[..], lib.brk - 4)) == 0 && Zero(lib.mem[..], lib.brk, lib.mem.Length)
      modifies this, lib`brk, lib`enomem, lib.mem
      ensures r == 0 && (fault <==> old(lib.brk) + 16 > lib.mem.Length)
      ensures fault ==> lib.brk == old(lib.brk) && lib.mem[..] == old(lib.mem[..])
      ensures !fault ==> Valid() && CursorOk() && sp == InitialSpace(old(lib.brk)) && listp == old(lib.brk) + 8
      ensures !fault && strategy.NextFit? ==> curp == listp
      ensures !fault ==> Only(old(lib.mem[..]), lib.mem[..], old(lib.brk) - 4, 20)
    {
      hide Word, Framed, InitialSpace, GetSize;
      ghost var m := lib.mem[..];
      listp := ExtendHeap(4 + 4 + 4 + 4);
      if listp == 0 {
        return 0, true;
      }
      ghost var m0 := lib.mem[..];
      lib.Store32(listp, 0xDEADBEEF);
      ghost var m1 := lib.mem[..];
      lib.Store32(listp + 4, Pack(4 + 4, true));
      ghost var m2 := lib.mem[..];
      lib.Store32(listp + 4 + 4, Pack(4 + 4, true));
      ghost var m3 := lib.mem[..];
      lib.Store32(listp + 4 + 4 + 4, Pack(0, true));
      InitStores(m, m0, m1, m2, m3, lib.mem[..], listp);
      InitialFields(listp);
      sp := InitialSpace(listp);
      listp := listp + 4 + 4;
      if strategy.NextFit? {
        curp := listp;
      }
      return 0, false;
    }

    /** implicit_mm_malloc. The new block has exactly the aligned size and was not allocated
        before. The heap grows only if no free block has room; NULL means that it cannot. */
    method Malloc(size: nat) returns (r: nat)
      requires Valid() && CursorOk() && size < 0x7FFF_FFE0
      modifies this`sp, this`curp, lib`brk, lib`enomem, lib.mem
      ensures Valid() && LiveKept(old(lib.mem[..]), lib.mem[..], old(sp.h), 0)
      ensures size == 0 ==> r == 0 && CursorOk()
      ensures r == 0 ==> sp == old(sp) && lib.mem[..] == old(lib.mem[..])
      ensures size > 0 ==>
        (r == 0 <==> NoFit(old(sp.h), Align(size)) && NoRoom(old(sp), lib.mem.Length, Align(size) + 8))
      ensures strategy.NextFit? ==> curp == if size > 0 then r else old(curp)
      ensures r != 0 ==>
        CursorOk() && r !in Live(old(sp.h)) && Live(sp.h) == Live(old(sp.h))[r := Align(size) + 8] && r in sp.h
      ensures r != 0 ==> sp == Allotted(old(sp), r, Align(size) + 8)
      ensures r != 0 && lib.brk == old(lib.brk) ==> Picked(strategy, old(sp.h), old(curp), Align(size), r)
      ensures r != 0 && lib.brk == old(lib.brk) && strategy.NextFit? ==>
        var sp0, next := old(sp), old(curp + sp.h[curp].size);
        && Tiling(sp0.h, sp0.lo, sp0.brk) && sp0.lo in sp0.h && (next in sp0.h || next == sp0.brk)
        && FirstOf(Walk(sp0.h, sp0.lo, sp0.brk, next) + Walk(sp0.h, sp0.lo, sp0.brk, sp0.lo), sp0.h, Align(size), r)
      ensures r != 0 && lib.brk != old(lib.brk) ==>
        MergeStart(old(sp.h), old(lib.brk), r) && lib.brk == r + Align(size) + 8
      ensures old(lib.brk) <= lib.brk <= old(lib.brk) + Align(size) + 8
      ensures r != 0 && Apart(old(sp.h), 0) ==> Apart(sp.h, 0)
      ensures r != 0 ==> (lib.brk == old(lib.brk) <==> !NoFit(old(sp.h), Align(size)))
    {
      hide Framed, Shaped, LiveKept, Live, Apart, NoFit, MergeStart, GrowsAt, Grown, Same, Placed, Align, Picked,
           Allotted, FirstOf, Walk, Tiling;
      ghost var m, sp0 := lib.mem[..], sp;
      LiveKeptSelf(m, sp.h, 0);
      FramedShape(m, sp, {});
      if size == 0 {
        return 0;
      }
      AlignBounds(size);
      AlignTwice(size);
      var asize := Align(size);
      r := FindFit(asize);
      if r != 0 {
        if strategy.NextFit? { NextPicked(sp0, old(curp), asize, r); }
        PlacedLive(m, lib.mem[..], sp0, sp, r, asize);
        PlacedKept(m, lib.mem[..], sp0, sp, r, asize);
      } else {
        ghost var g;
        r, g := DoMalloc(asize);
        if r == 0 {
          NoRoomAt(sp0, lib.mem.Length, g, asize + 8);
        } else {
          GrownFields(sp0, g, asize + 8);
          GrownNew(m, lib.mem[..], sp0, g, asize + 8);
          GrownLive(sp0, g, asize + 8);
          AllottedGrown(sp0, g, asize + 8);
          if Apart(sp0.h, 0) { GrownApart(sp0, g, asize + 8); }
          assert !NoRoom(sp0, lib.mem.Length, asize + 8);
        }
      }
      if strategy.NextFit? {
        curp := r;
      }
    }

    /** implicit_mm_free */
    method Free(ptr: nat)
      requires Valid() && ptr in Live(sp.h) && ptr != listp
      modifies this`sp, this`curp, lib.mem
      ensures Valid() && CursorOk() && Live(sp.h) == Live(old(sp.h)) - {ptr}
      ensures sp == old(sp).(h := FreedHeap(old(sp.h), ptr))
      ensures strategy.NextFit? ==> curp == MergePoint(old(sp.h), ptr)
      ensures LiveKept(old(lib.mem[..]), lib.mem[..], old(sp.h), ptr)
      ensures Apart(old(sp.h), 0) ==> Apart(sp.h, 0)
    {
      hide Framed, Shaped, LiveKept, Retagged, Apart, MergeStart, Merged, GetSize, Word, FreedHeap;
      ghost var m, sp0 := lib.mem[..], sp;
      FramedShape(m, sp, {});
      ReadTag(m, sp, {}, ptr);
      BlockBounds(sp, ptr);
      var size := BlkSize(lib, ptr);
      SetBlk(lib, ptr, size, false);
      ghost var m1 := lib.mem[..];
      FreeStore(m, m1, sp, ptr);
      sp := sp.(h := Recolored(sp.h, ptr, false));
      var p := Coalesce(ptr);
      MergedRecolored(sp0.h, ptr, p);
      FreedThrough(m, m1, lib.mem[..], sp0, ptr);
      MergedLiveMap(sp0.h, ptr, p);
      FreedSpace(sp0, ptr, p);
      if Apart(sp0.h, 0) {
        FreeApart(sp0, ptr, p);
      }
    }

    /** implicit_mm_realloc. With a live pointer and a positive size, the block ends up at np
        with exactly the aligned size, its old contents are kept up to the smaller of the two
        sizes, and no other allocated block changes. NULL is returned exactly for a stuck
        request, and for the prologue and free blocks; then nothing changes. Free blocks stay
        apart unless a rest is split off right before one. `fault` means that the last block
        has to grow and mem_sbrk refuses; the program then writes tags beyond the heap. */
    method Realloc(ptr: nat, size: nat) returns (np: nat, fault: bool)
      requires Valid() && CursorOk() && size < 0x7FFF_FFE0
      requires ptr != 0 ==> ptr in sp.h && (size == 0 ==> sp.h[ptr].alloc && ptr != listp)
      modifies this`sp, this`curp, lib`brk, lib`enomem, lib.mem
      ensures old(lib.brk) <= lib.brk <= old(lib.brk) + Align(size) + 8
      ensures Valid() && LiveKept(old(lib.mem[..]), lib.mem[..], old(sp.h), ptr)
      ensures ptr != 0 || size == 0 || np != 0 ==> CursorOk()
      ensures ptr == 0 && np != 0 ==> np !in Live(old(sp.h)) && Live(sp.h) == Live(old(sp.h))[np := Align(size) + 8]
      ensures ptr == 0 && np != 0 ==> sp == Allotted(old(sp), np, Align(size) + 8)
      ensures ptr == 0 && np != 0 && Apart(old(sp.h), 0) ==> Apart(sp.h, 0)
      ensures ptr == 0 && size > 0 ==>
        (np == 0 <==> NoFit(old(sp.h), Align(size)) && NoRoom(old(sp), lib.mem.Length, Align(size) + 8))
      ensures ptr == 0 && np != 0 && lib.brk == old(lib.brk) ==>
        Picked(strategy, old(sp.h), old(curp), Align(size), np)
      ensures ptr == 0 && np != 0 && lib.brk != old(lib.brk) ==>
        MergeStart(old(sp.h), old(lib.brk), np) && lib.brk == np + Align(size) + 8
      ensures ptr == 0 && np != 0 ==> (lib.brk == old(lib.brk) <==> !NoFit(old(sp.h), Align(size)))
      ensures strategy.NextFit? && np != 0 ==> curp == if size > 0 then np else MergePoint(old(sp.h), ptr)
      ensures strategy.NextFit? && np == 0 ==> curp == if ptr == 0 && size > 0 then 0 else old(curp)
      ensures ptr != 0 && size == 0 ==> np == ptr && Live(sp.h) == Live(old(sp.h)) - {ptr}
      ensures ptr != 0 && size == 0 ==> sp == old(sp).(h := FreedHeap(old(sp.h), ptr))
      ensures fault <==>
        (ptr != 0 && size > 0 && old(sp.h[ptr].alloc && ptr != listp && TailRefused(sp, lib.mem.Length, ptr, size)))
      ensures fault ==> np == 0
      ensures ptr != 0 && size > 0 ==>
        (np == 0 <==> fault || old(!sp.h[ptr].alloc || ptr == listp || Stuck(sp, lib.mem.Length, ptr, size)))
      ensures ptr != 0 && size > 0 && np != 0 ==>
        && Reallocated(old(lib.mem[..]), lib.mem[..], old(sp.h), sp.h, ptr, np, size)
        && Destination(old(sp), ptr, size, np) && sp == Reshaped(old(sp), ptr, np, Align(size) + 8)
      ensures ptr != 0 && size > 0 && np != 0 && Apart(old(sp.h), 0) ==>
        (Apart(sp.h, 0) <==> !old(Splinters(sp.h, ptr, size)))
      ensures np == 0 ==> sp == old(sp) && lib.mem[..] == old(lib.mem[..])
    {
      hide Framed, Shaped, LiveKept, Live, Align, GetSize, GetAlloc, Word, Stuck, Reallocated, TailRefused,
           Splinters, Apart,
           Destination, Reshaped, NoFit, Allotted, FreedHeap;
      ghost var m, sp0 := lib.mem[..], sp;
      fault := false;
      FramedShape(m, sp, {});
      if ptr == 0 {
        np := Malloc(size);
        return;
      }
      if size == 0 {
        ReadTag(m, sp, {}, ptr);
        LiveIff(sp.h, ptr);
        Free(ptr);
        return ptr, false;
      }
      LiveKeptSelf(m, sp.h, ptr);
      ReadTag(m, sp, {}, ptr);
      BlockBounds(sp, ptr);
      AlignBounds(size);
      var bsize := BlkSize(lib, ptr);
      var alloc := BlkAlloc(lib, ptr);
      var hdr := lib.Load32(ptr - 4);
      var ftr := lib.Load32(ptr + bsize - 8);
      if !alloc || bsize <= MIN_BLK_SIZE || bsize % 8 != 0 || hdr != ftr {
        return 0, false;
      }
      var nsize := Align(size) + 4 + 4;
      if nsize <= bsize {
        np := ReallocSmaller(ptr, size, bsize, nsize);
      } else {
        np, fault := ReallocLarger(ptr, size, bsize, nsize);
      }
      if np != 0 && strategy.NextFit? {
        curp := np;
      }
    }

    /** The same size, or a smaller one: the block stays, and a rest is split off. */
    method ReallocSmaller(ptr: nat, size: nat, bsize: nat, nsize: nat) returns (p: nat)
      requires Valid() && ptr in sp.h && sp.h[ptr].alloc && ptr != listp && 0 < size < 0x7FFF_FFE0
      requires bsize == sp.h[ptr].size && nsize == Align(size) + 8 && nsize <= bsize
      modifies this`sp, lib.mem
      ensures Valid() && p == ptr && p in sp.h && LiveKept(old(lib.mem[..]), lib.mem[..], old(sp.h), ptr)
      ensures Reallocated(old(lib.mem[..]), lib.mem[..], old(sp.h), sp.h, ptr, ptr, size)
      ensures !Stuck(old(sp), lib.mem.Length, ptr, size) && !TailRefused(old(sp), lib.mem.Length, ptr, size)
      ensures old(Destination(sp, ptr, size, ptr)) && sp == Reshaped(old(sp), ptr, ptr, nsize)
      ensures Apart(old(sp.h), 0) ==> (Apart(sp.h, 0) <==> !old(Splinters(sp.h, ptr, size)))
    {
      hide Framed, Shaped, LiveKept, Live, Reallocated, Carved, CarveKept, Apart;
      ghost var m, sp0 := lib.mem[..], sp;
      FramedShape(m, sp, {});
      BlockBounds(sp, ptr);
      AlignBounds(size);
      if nsize == bsize {
        StayedPut(m, sp.h, ptr, size);
        return ptr;
      }
      CarvedShape(sp, ptr, nsize);
      CarvedBlocks(sp.h, ptr, nsize);
      if Apart(sp.h, 0) { CarvedApart(sp, ptr, nsize); }
      Carve(ptr, nsize, bsize - nsize, sp, {});
      CarvedInPlace(m, lib.mem[..], sp0, ptr, size);
      return ptr;
    }

    /** A larger size: absorb the free block behind, grow at the end of the heap, slide down
        into the free block before, or move. The later test for TAIL_BLK never succeeds: the
        end marker reads as a free block of size 0, so the last block has grown already. */
    method ReallocLarger(ptr: nat, size: nat, bsize: nat, nsize: nat) returns (p: nat, fault: bool)
      requires Valid() && CursorOk() && ptr in sp.h && sp.h[ptr].alloc && ptr != listp && 0 < size < 0x7FFF_FFE0
      requires bsize == sp.h[ptr].size && nsize == Align(size) + 8 && bsize < nsize
      modifies this`sp, this`curp, lib`brk, lib`enomem, lib.mem
      ensures old(lib.brk) <= lib.brk <= old(lib.brk) + Align(size) + 8
      ensures Valid() && LiveKept(old(lib.mem[..]), lib.mem[..], old(sp.h), ptr)
      ensures fault <==> TailRefused(old(sp), lib.mem.Length, ptr, size)
      ensures p == 0 <==> fault || Stuck(old(sp), lib.mem.Length, ptr, size)
      ensures p != 0 ==> p in sp.h && Reallocated(old(lib.mem[..]), lib.mem[..], old(sp.h), sp.h, ptr, p, size)
      ensures p == 0 ==> sp == old(sp) && lib.mem[..] == old(lib.mem[..]) && curp == old(curp)
      ensures p != 0 ==> Destination(old(sp), ptr, size, p) && sp == Reshaped(old(sp), ptr, p, nsize)
      ensures p != 0 && Apart(old(sp.h), 0) ==> (Apart(sp.h, 0) <==> !old(Splinters(sp.h, ptr, size)))
    {
      hide Framed, Shaped, LiveKept, Live, Reallocated, Align, GetSize, GetAlloc, Word, Stuck, Splinters, Apart,
           Destination, Reshaped;
      fault := false;
      ghost var m := lib.mem[..];
      FramedShape(m, sp, {});
      ReadTag(m, sp, {}, ptr);
      ReadNext(m, sp, ptr);
      NextSize(sp, ptr);
      var n := ptr + bsize;
      var nextAlloc := BlkAlloc(lib, n);
      if !nextAlloc {
        var fsize := BlkSize(lib, n);
        if nsize <= bsize + fsize {
          p := Absorb(ptr, size, bsize, nsize, fsize);
          return;
        } else if fsize == 0 {
          p, fault := GrowTail(ptr, size, bsize, nsize);
          return;
        }
      }
      ghost var q := ReadPrev(m, sp, ptr);
      var footer := lib.Load32(ptr - 8);
      var prep := ptr - GetSize(footer);
      ReadTag(m, sp, {}, q);
      var psize := BlkSize(lib, prep);
      var palloc := BlkAlloc(lib, prep);
      if !palloc && nsize <= bsize + psize {
        p := Slide(ptr, prep, size, bsize, nsize, psize);
        return;
      }
      NotTail(m, sp, ptr);
      var brk := lib.Sbrk(0);
      var last := lib.Load32(brk - 8);
      if ptr == brk - GetSize(last) {
        assert false;
      }
      p := Move(ptr, size, bsize, nsize, q);
    }

    /** The free block behind is large enough: take what is needed of it. */
    method Absorb(ptr: nat, size: nat, bsize: nat, nsize: nat, fsize: nat) returns (p: nat)
      requires Valid() && ptr in sp.h && sp.h[ptr].alloc && ptr != listp && 0 < size
      requires bsize == sp.h[ptr].size && nsize == Align(size) + 8 && bsize < nsize <= bsize + fsize
      requires NextFree(sp.h, ptr) && fsize == sp.h[ptr + bsize].size
      modifies this`sp, lib.mem
      ensures Valid() && p == ptr && p in sp.h && LiveKept(old(lib.mem[..]), lib.mem[..], old(sp.h), ptr)
      ensures Reallocated(old(lib.mem[..]), lib.mem[..], old(sp.h), sp.h, ptr, ptr, size)
      ensures !Stuck(old(sp), lib.mem.Length, ptr, size) && !TailRefused(old(sp), lib.mem.Length, ptr, size)
      ensures old(Destination(sp, ptr, size, ptr)) && sp == Reshaped(old(sp), ptr, ptr, nsize)
      ensures Apart(old(sp.h), 0) ==> (Apart(sp.h, 0) <==> !old(Splinters(sp.h, ptr, size)))
    {
      hide Framed, Shaped, LiveKept, Live, Reallocated, Carved, CarveKept, Joined, GrowsAt, MergeStart, Apart;
      ghost var m, sp0 := lib.mem[..], sp;
      ghost var sp1 := sp.(h := Joined(sp.h, ptr, true));
      FramedShape(m, sp, {});
      BlockBounds(sp, ptr);
      AlignBounds(size);
      JoinedFrame(m, sp, ptr);
      FramedShape(m, sp1, {ptr});
      CarvedShape(sp1, ptr, nsize);
      CarvedBlocks(sp1.h, ptr, nsize);
      if Apart(sp.h, 0) { AbsorbApart(sp, ptr, nsize); }
      Carve(ptr, nsize, fsize - (nsize - bsize), sp1, {ptr});
      AbsorbedInPlace(m, lib.mem[..], sp0, ptr, size);
      return ptr;
    }

    /** The block is the last one: grow the heap by what is missing, whether or not it can. */
    method GrowTail(ptr: nat, size: nat, bsize: nat, nsize: nat) returns (p: nat, fault: bool)
      requires Valid() && ptr in sp.h && sp.h[ptr].alloc && ptr != listp && 0 < size < 0x7FFF_FFE0
      requires bsize == sp.h[ptr].size && nsize == Align(size) + 8 && bsize < nsize && ptr + bsize == sp.brk
      modifies this`sp, lib`brk, lib`enomem, lib.mem
      ensures old(lib.brk) <= lib.brk <= old(lib.brk) + Align(size) + 8
      ensures Valid() && LiveKept(old(lib.mem[..]), lib.mem[..], old(sp.h), ptr)
      ensures fault <==> TailRefused(old(sp), lib.mem.Length, ptr, size)
      ensures if fault then p == 0 && sp == old(sp) && lib.mem[..] == old(lib.mem[..])
              else p == ptr && p in sp.h && Reallocated(old(lib.mem[..]), lib.mem[..], old(sp.h), sp.h, ptr, ptr, size)
      ensures !Stuck(old(sp), lib.mem.Length, ptr, size)
      ensures old(Destination(sp, ptr, size, ptr))
      ensures !fault ==> sp == Reshaped(old(sp), ptr, ptr, nsize)
      ensures !fault && Apart(old(sp.h), 0) ==> (Apart(sp.h, 0) <==> !old(Splinters(sp.h, ptr, size)))
    {
      hide Framed, Shaped, LiveKept, Live, Reallocated, Grown, Retagged, Word, GetSize, Apart;
      ghost var m, sp0 := lib.mem[..], sp;
      FramedShape(m, sp, {});
      BlockBounds(sp, ptr);
      AlignBounds(size);
      ReadEnd(m, sp, sp.brk);
      LiveKeptSelf(m, sp.h, ptr);
      var r := ExtendHeap(nsize - bsize);
      if r == 0 {
        return 0, true;
      }
      if Apart(sp.h, 0) { GrownApart(sp, ptr, nsize); }
      FramedEnds(sp);
      Claim(ptr, nsize, m);
      GrownFields(sp0, ptr, nsize);
      GrownInPlace(m, lib.mem[..], sp0, ptr, size);
      return ptr, false;
    }

    /** The free block before is large enough: slide down into it. */
    method Slide(ptr: nat, prep: nat, size: nat, bsize: nat, nsize: nat, psize: nat) returns (p: nat)
      requires Valid() && ptr in sp.h && sp.h[ptr].alloc && ptr != listp && 0 < size
      requires bsize == sp.h[ptr].size && nsize == Align(size) + 8 && bsize < nsize <= bsize + psize
      requires prep in sp.h && !sp.h[prep].alloc && psize == sp.h[prep].size && prep + psize == ptr
      requires ptr + bsize != sp.brk
      requires NextFree(sp.h, ptr) ==> bsize + sp.h[ptr + bsize].size < nsize
      modifies this`sp, lib.mem
      ensures Valid() && p == prep && p in sp.h && p != 0 && LiveKept(old(lib.mem[..]), lib.mem[..], old(sp.h), ptr)
      ensures Reallocated(old(lib.mem[..]), lib.mem[..], old(sp.h), sp.h, ptr, prep, size)
      ensures !Stuck(old(sp), lib.mem.Length, ptr, size) && !TailRefused(old(sp), lib.mem.Length, ptr, size)
      ensures old(Destination(sp, ptr, size, prep)) && sp == Reshaped(old(sp), ptr, prep, nsize)
      ensures Apart(old(sp.h), 0) ==> (Apart(sp.h, 0) <==> !old(Splinters(sp.h, ptr, size)))
    {
      hide Framed, Shaped, LiveKept, Live, Reallocated, Carved, CarveKept, Joined, GrowsAt, MergeStart, Only, Same,
           Apart, Splinters;
      ghost var m, sp0 := lib.mem[..], sp;
      ghost var sp1 := sp.(h := Joined(sp.h, prep, true));
      FramedShape(m, sp, {});
      BlockBounds(sp, ptr);
      BlockBounds(sp, prep);
      FreeNotLo(sp, prep);
      AlignBounds(size);
      JoinedFrame(m, sp, prep);
      FramedShape(m, sp1, {prep});
      CarvedShape(sp1, prep, nsize);
      CarvedBlocks(sp1.h, prep, nsize);
      if Apart(sp.h, 0) { SlideApart(sp, prep, ptr, size); }
      lib.Memcpy(prep, ptr, bsize - 8);
      ghost var m1 := lib.mem[..];
      InnerWrite(m, m1, sp1, {prep}, prep, prep, bsize - 8);
      Carve(prep, nsize, psize - (nsize - bsize), sp1, {prep});
      CarveLength(m1, lib.mem[..], sp1.h, prep, nsize);
      Slid(m, m1, lib.mem[..], sp0, prep, ptr, size);
      return prep;
    }

    /** No room around the block: allocate at the end of the heap, copy, and free. */
    method Move(ptr: nat, size: nat, bsize: nat, nsize: nat, ghost q: nat) returns (p: nat)
      requires Valid() && CursorOk() && ptr in sp.h && sp.h[ptr].alloc && ptr != listp && 0 < size < 0x7FFF_FFE0
      requires bsize == sp.h[ptr].size && nsize == Align(size) + 8 && bsize < nsize && ptr + bsize != sp.brk
      requires NextFree(sp.h, ptr) ==> bsize + sp.h[ptr + bsize].size < nsize
      requires q in sp.h && q + sp.h[q].size == ptr && (!sp.h[q].alloc ==> bsize + sp.h[q].size < nsize)
      modifies this`sp, this`curp, lib`brk, lib`enomem, lib.mem
      ensures old(lib.brk) <= lib.brk <= old(lib.brk) + Align(size) + 8
      ensures Valid() && LiveKept(old(lib.mem[..]), lib.mem[..], old(sp.h), ptr)
      ensures p == 0 <==> Stuck(old(sp), lib.mem.Length, ptr, size)
      ensures p != 0 ==> p in sp.h && Reallocated(old(lib.mem[..]), lib.mem[..], old(sp.h), sp.h, ptr, p, size)
      ensures p == 0 ==> sp == old(sp) && lib.mem[..] == old(lib.mem[..]) && curp == old(curp)
      ensures p != 0 ==> Destination(old(sp), ptr, size, p) && sp == Reshaped(old(sp), ptr, p, nsize)
      ensures p != 0 && Apart(old(sp.h), 0) ==> Apart(sp.h, 0) && !old(Splinters(sp.h, ptr, size))
    {
      hide EndWord, NextFree, Framed, Shaped, LiveKept, Live, Reallocated, Retagged, PayloadsKept, Grown, GrowsAt,
           MergeStart, Stuck, Same, Only, Align, Apart, GetSize, Word, Splinters, Destination, Reshaped, Transferred;
      ghost var m, sp0 := lib.mem[..], sp;
      FramedShape(m, sp, {});
      LiveKeptSelf(m, sp.h, ptr);
      AlignBounds(size);
      AlignTwice(size);
      ghost var g;
      p, g := DoMalloc(nsize - 8);
      if p == 0 {
        StuckWhen(sp0, lib.mem.Length, ptr, size, q, g);
        return 0;
      }
      ghost var m1 := lib.mem[..];
      NotStuck(sp0, lib.mem.Length, ptr, size, g);
      NotSplintered(sp0, ptr, size, q);
      MovesToEnd(sp0, ptr, size, q, g);
      MoveRoom(m1, sp0, ptr, g, nsize);
      MovedShape(sp0, ptr, g, nsize);
      if Apart(sp0.h, 0) { GrownApart(sp0, g, nsize); }
      Transfer(ptr, p, nsize);
      MovedBlock(m, m1, lib.mem[..], sp0, sp.h, ptr, g, size);
    }

    /** memcpy, free, and SET_RB of the new block once more. */
    method Transfer(ptr: nat, p: nat, nsize: nat)
      requires Valid() && ptr in sp.h && ptr in Live(sp.h) && sp.h[ptr].alloc && ptr != listp && 8 <= ptr
      requires p in sp.h && sp.h[p] == Block(nsize, true) && p != listp && ptr + sp.h[ptr].size <= p
      requires sp.h[ptr].size < nsize
      modifies this`sp, this`curp, lib.mem
      ensures Valid() && CursorOk() && sp == old(sp).(h := FreedHeap(old(sp.h), ptr)) && p in sp.h
      ensures Live(sp.h) == Live(old(sp.h)) - {ptr}
      ensures Transferred(old(lib.mem[..]), lib.mem[..], old(sp.h), ptr, p)
      ensures Apart(old(sp.h), 0) ==> Apart(sp.h, 0)
    {
      hide EndWord, Framed, Shaped, LiveKept, Live, Retagged, PayloadsKept, MergeStart, Same, Only, Apart, GetSize,
           Word, Transferred, FreedHeap;
      ghost var m, h := lib.mem[..], sp.h;
      FramedShape(m, sp, {});
      BlockBounds(sp, ptr);
      BlockBounds(sp, p);
      ReadTag(m, sp, {}, ptr);
      var n := BlkSize(lib, ptr);
      lib.Memcpy(p, ptr, n - 8);
      ghost var m1 := lib.mem[..];
      InnerWrite(m, m1, sp, {}, p, p, n - 8);
      Free(ptr);
      ghost var m2 := lib.mem[..];
      StillThere(h, sp.h, ptr, p, nsize);
      FramedShape(m2, sp, {});
      SetBlk(lib, p, nsize, true);
      Retag(m2, lib.mem[..], sp, p, {});
      assert {} - {p} == {};
      TransferSteps(m, m1, m2, lib.mem[..], h, sp.h, ptr, p);
    }
  }

  lemma NoRoomAt(sp: Space, limit: nat, g: nat, n: nat)
    requires Shaped(sp) && MergeStart(sp.h, sp.brk, g) && !(GrowsAt(sp, g, n) && g + n <= limit)
    ensures NoRoom(sp, limit, n)
  {
    forall g': nat | MergeStart(sp.h, sp.brk, g') ensures g' == g {
      MergeStartUnique(sp.h, sp.lo, sp.brk, sp.brk, g, g');
    }
  }

  lemma FreeApart(sp: Space, bp: nat, p: nat)
    requires Shaped(sp) && bp in sp.h && bp != sp.lo && MergeStart(sp.h, bp, p) && Apart(sp.h, 0) && 0 !in sp.h
    ensures Apart(Merged(sp.h, bp, p), 0)
  {
    hide Gapless, Aligned, Sized;
    assert Apart(sp.h, bp);
    MergedApart(sp.h, sp.lo, sp.brk, bp, p);
  }

  lemma FreedSpace(sp: Space, ptr: nat, p: nat)
    requires Shaped(sp) && ptr in sp.h && MergeStart(sp.h, ptr, p)
    ensures FreedHeap(sp.h, ptr) == Merged(sp.h, ptr, p) && p == MergePoint(sp.h, ptr)
  {
    hide Gapless, Aligned, Sized;
    FreedHeapIs(sp.h, sp.lo, sp.brk, ptr, p);
  }

  lemma PlacedKept(m: Mem, m': Mem, sp: Space, sp': Space, r: nat, size: nat)
    requires Placed(m, m', sp, sp', r, size)
    ensures LiveKept(m, m', sp.h, 0) && sp'.lo == sp.lo && sp'.brk == sp.brk
  {
  }

  lemma GrownNew(m: Mem, m': Mem, sp: Space, g: nat, n: nat)
    requires Shaped(sp) && GrowsAt(sp, g, n) && MergeStart(sp.h, sp.brk, g) && |m'| == |m|
    requires forall q {:trigger sp.h[q]} :: q in sp.h ==> Same(m, m', q, q + sp.h[q].Cap())
    ensures LiveKept(m, m', sp.h, 0) && g !in Live(sp.h) && g != 0 && sp.brk < g + n
  {
    FramedEnds(sp);
    hide Shaped;
  }

  lemma ClaimBounds(sp: Space, p: nat, n: nat)
    requires Shaped(sp) && GrowsAt(sp, p, n)
    ensures 4 <= p
  {
    FramedEnds(sp);
  }

  lemma GrownFields(sp: Space, g: nat, n: nat)
    ensures Grown(sp, g, n).lo == sp.lo && Grown(sp, g, n).brk == g + n && g in Grown(sp, g, n).h
  {
  }

  lemma SameSelf(m: Mem, h: Heap)
    ensures forall q {:trigger h[q]} :: q in h ==> Same(m, m, q, q + h[q].Cap())
  {
  }

  /** A free block is not the prologue. */
  lemma FreeNotLo(sp: Space, q: nat)
    requires Shaped(sp) && q in sp.h
    ensures !sp.h[q].alloc ==> q != sp.lo
  {
    assert sp.h[sp.lo] == Block(8, true);
  }

  /** What do_malloc finds at the end of the heap: the last block q; a growing block starts
      at g, and it really grows if it ends above brk. */
  lemma TailFacts(m: Mem, sp: Space, size: nat) returns (q: nat, g: nat)
    requires Framed(m, sp, {}) && size >= 1
    ensures q in sp.h && q + sp.h[q].size == sp.brk && 8 <= q && 8 <= sp.h[q].size && sp.h[q].size % 8 == 0
    ensures GetSize(Word(m, sp.brk - 8)) == sp.h[q].size && 8 <= sp.brk <= |m| && GetSize(Word(m, sp.brk - 4)) == 0
    ensures GetSize(Word(m, q - 4)) == sp.h[q].size && GetAlloc(Word(m, q - 4)) == sp.h[q].alloc
    ensures g == (if sp.h[q].alloc then sp.brk else q) && MergeStart(sp.h, sp.brk, g) && g != 0 && g <= sp.brk
    ensures size <= Align(size) < size + 8 && Align(size) % 8 == 0 && Align(size) >= 8
    ensures GrowsAt(sp, g, Align(size) + 8) <==> g + Align(size) + 8 > sp.brk
  {
    hide Framed, Shaped, MergeStart, Word, GetSize, GetAlloc;
    FramedShape(m, sp, {});
    ReadEnd(m, sp, sp.brk);
    AlignBounds(size);
    q := ReadPrev(m, sp, sp.brk);
    ReadTag(m, sp, {}, q);
    FramedEnds(sp);
    assert sp.h[q] == sp.h[q];
    g := if sp.h[q].alloc then sp.brk else q;
  }

  lemma InitStores(m: Mem, m0: Mem, m1: Mem, m2: Mem, m3: Mem, m4: Mem, brk: nat)
    requires 8 <= brk && brk % 8 == 0 && brk + 16 <= |m| < PTR_LIMIT && Zero(m, brk, |m|)
    requires Only(m, m0, brk - 4, 4) && Only(m0, m1, brk, 4) && Only(m1, m2, brk + 4, 4) && Only(m2, m3, brk + 8, 4)
    requires Only(m3, m4, brk + 12, 4)
    requires Word(m2, brk + 4) == Pack(8, true) && Word(m3, brk + 8) == Pack(8, true)
    requires Word(m4, brk + 12) == Pack(0, true) && Word(m0, brk - 4) == Pack(0, true)
    ensures Framed(m4, InitialSpace(brk), {}) && Only(m, m4, brk - 4, 20)
  {
    hide Framed, Word;
    WordSame(m2, m4, brk + 4);
    WordSame(m3, m4, brk + 8);
    WordSame(m0, m4, brk - 4);
    Unpack(0, true);
    InitialFrame(m4, brk);
  }

  lemma InitialFields(brk: nat)
    ensures var sp := InitialSpace(brk); sp.lo == brk + 8 && sp.brk == brk + 16 && sp.lo in sp.h
  {
  }

  lemma TaggedSize(m: Mem, m': Mem, p: nat, n: nat)
    requires Retagged(m, m', p, Block(n, true)) && n % 8 == 0
    ensures GetSize(Word(m', p - 4)) == n
  {
    Unpack(n, true);
  }

  lemma CarvePlacedWhen(sp: Space, p: nat, size: nat)
    requires Shaped(sp) && p in sp.h && Align(size) + 8 <= sp.h[p].size && size >= 1
    ensures (sp.h[p].size - Align(size) - 8) % 8 == 0 && Align(size) % 8 == 0 && Align(size) >= 8
  {
    BlockBounds(sp, p);
    hide Shaped;
    AlignBounds(size);
    hide Align;
    RestAligned(p, sp.h[p].size, Align(size));
    LessEight(sp.h[p].size - Align(size));
  }

  /** The loop of best_fit starts from MAX_HEAP, which no block reaches. */
  lemma BestNone(sp: Space, size: nat, start: nat)
    requires Shaped(sp) && start <= sp.lo && sp.brk <= start + MAX_HEAP
    requires forall q: nat {:trigger sp.h[q]} :: q < sp.brk && Fits(sp.h, q, size) ==> MAX_HEAP < sp.h[q].Cap()
    ensures NoFit(sp.h, size)
  {
    forall p | p in sp.h && !sp.h[p].alloc ensures sp.h[p].Cap() < size {
      BlockBounds(sp, p);
    }
  }

  lemma StayedPut(m: Mem, h: Heap, ptr: nat, size: nat)
    requires ptr in h && h[ptr].alloc && ptr != 0 && ptr + h[ptr].Cap() <= |m| && h[ptr].size == Align(size) + 8
    ensures Reallocated(m, m, h, h, ptr, ptr, size) && LiveKept(m, m, h, ptr)
  {
    assert Live(h) == Live(h)[ptr := h[ptr].size];
    KeptInPlace(m, m, h, h, ptr, size);
  }

  /** The size that the word behind a block shows is 0 only at the end of the heap. */
  lemma NextSize(sp: Space, p: nat)
    requires Shaped(sp) && p in sp.h
    ensures p + sp.h[p].size in sp.h ==> sp.h[p + sp.h[p].size].size > 0 && p + sp.h[p].size != sp.brk
  {
    BlockBounds(sp, p);
    if p + sp.h[p].size in sp.h { BlockBounds(sp, p + sp.h[p].size); }
  }

  /** A block behind which the next word shows an allocated block, or a free one of positive
      size, is not TAIL_BLK. */
  lemma NotTail(m: Mem, sp: Space, p: nat)
    requires Framed(m, sp, {}) && p in sp.h && p + sp.h[p].size != sp.brk
    ensures sp.brk - GetSize(Word(m, sp.brk - 8)) != p
  {
    FramedShape(m, sp, {});
    var t := ReadPrev(m, sp, sp.brk);
  }

  lemma CarveLength(m: Mem, m': Mem, h: Heap, p: nat, n: nat)
    requires CarveKept(m, m', h, p, n)
    ensures |m'| == |m|
  {
  }

  lemma StuckWhen(sp: Space, limit: nat, ptr: nat, size: nat, q: nat, g: nat)
    requires Shaped(sp) && ptr in sp.h && sp.h[ptr].size < Align(size) + 8 && ptr + sp.h[ptr].size != sp.brk
    requires NextFree(sp.h, ptr) ==> sp.h[ptr].size + sp.h[ptr + sp.h[ptr].size].size < Align(size) + 8
    requires q in sp.h && q + sp.h[q].size == ptr
    requires (!sp.h[q].alloc ==> sp.h[ptr].size + sp.h[q].size < Align(size) + 8)
    requires MergeStart(sp.h, sp.brk, g) && !(GrowsAt(sp, g, Align(size) + 8) && g + (Align(size) + 8) <= limit)
    ensures Stuck(sp, limit, ptr, size)
  {
    hide GrowsAt, Align;
    forall g': nat | MergeStart(sp.h, sp.brk, g') ensures g' == g {
      MergeStartUnique(sp.h, sp.lo, sp.brk, sp.brk, g, g');
    }
    forall r | r in sp.h && r + sp.h[r].size == ptr ensures r == q {
      assert sp.h[r] == sp.h[r] && sp.h[q] == sp.h[q];
    }
  }

  lemma MovedShape(sp: Space, ptr: nat, g: nat, n: nat)
    requires Shaped(sp) && ptr in sp.h && sp.h[ptr].size < n && ptr + sp.h[ptr].size != sp.brk && ptr != g
    requires MergeStart(sp.h, sp.brk, g) && GrowsAt(sp, g, n)
    ensures Reshaped(sp, ptr, g, n) == Grown(sp, g, n).(h := FreedHeap(Grown(sp, g, n).h, ptr))
  {
    BlockBounds(sp, ptr);
    FramedEnds(sp);
  }

  lemma NotStuck(sp: Space, limit: nat, ptr: nat, size: nat, g: nat)
    requires ptr in sp.h && MergeStart(sp.h, sp.brk, g) && GrowsAt(sp, g, Align(size) + 8)
    requires g + (Align(size) + 8) <= limit
    ensures !Stuck(sp, limit, ptr, size)
  {
  }

  /** The block that do_malloc made at g has room for the old payload and lies above or below it. */
  lemma MoveRoom(m1: Mem, sp: Space, ptr: nat, g: nat, n: nat)
    requires Shaped(sp) && ptr in sp.h && sp.h[ptr].alloc && ptr != sp.lo && sp.h[ptr].size < n
    requires MergeStart(sp.h, sp.brk, g) && GrowsAt(sp, g, n) && Framed(m1, Grown(sp, g, n), {})
    ensures var sp1 := Grown(sp, g, n);
      && ptr in sp1.h && sp1.h[ptr] == sp.h[ptr] && g in sp1.h && sp1.h[g] == Block(n, true) && ptr != g && g != sp.lo
      && ptr in Live(sp1.h) && g + n <= |m1| && ptr + sp.h[ptr].size <= g && ptr >= 8
      && (g in sp.h ==> !sp.h[g].alloc) && sp1.lo == sp.lo
  {
    hide Framed, Shaped;
    var sp1 := Grown(sp, g, n);
    BlockBounds(sp, ptr);
    FramedEnds(sp);
    FramedShape(m1, sp1, {});
    BlockBounds(sp1, g);
    StepForward(sp, ptr);
    if g in sp.h {
      StepForward(sp, g);
      assert ptr < g by {
        assert sp.h[ptr] == sp.h[ptr];
      }
      assert sp.h[g] == sp.h[g];
    }
    LiveIff(sp1.h, ptr);
  }

  lemma StillThere(h: Heap, h': Heap, ptr: nat, p: nat, n: nat)
    requires p in h && h[p] == Block(n, true) && p != ptr && Live(h') == Live(h) - {ptr}
    ensures p in h' && h'[p] == Block(n, true)
  {
    assert p in Live(h) && p in Live(h');
  }
}
