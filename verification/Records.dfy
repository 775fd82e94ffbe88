/** How the records of mdriver.c's evaluation loops follow an allocator: what one request
    changes in trace->blocks, trace->block_sizes, the range list and the filled payloads. */
module Records {
  import opened Memory
  import opened Blocks
  import opened LiveBlocks
  import opened Ranges
  import opened Books

  /** The result of eval_mm_valid: 1, 0, or death of the program. */
  datatype Verdict = Pass | Fail | Crash

  /** The result of eval_mm_util, unless the driver gives up or dies. */
  datatype Utilisation = Ratio(u: real) | Died

  /** u is the peak over the heap size, which is at most `most`. */
  ghost predicate Utilised(u: real, peak: int, size: int, most: int) {
    && 0 < size <= most && u == (peak as real) / (size as real)
    && 0.0 <= (peak as real) / (most as real) <= u <= 1.0
  }

  lemma RatioBound(peak: int, size: int, most: int)
    requires 0 <= peak <= size <= most && 0 < size
    ensures Utilised((peak as real) / (size as real), peak, size, most)
  {
    var p, s, m := peak as real, size as real, most as real;
    DividedBy(p, s);
    DividedBy(p, m);
    QuotientBound(p, s, m, p / m, p / s);
  }

  lemma QuotientBound(p: real, s: real, m: real, x: real, y: real)
    requires 0.0 <= p <= s <= m && 0.0 < s && x * m == p && y * s == p
    ensures 0.0 <= x <= y <= 1.0
  {
    Cancel(0.0, x, m);
    Cancel(y, 1.0, s);
    assert x <= y by {
      var xs, ys := x * s, y * s;
      Shrinks(x, s, m);
      assert xs <= p == ys;
      Cancel(x, y, s);
    }
  }

  lemma DividedBy(p: real, s: real)
    requires s > 0.0
    ensures (p / s) * s == p
  {
  }

  lemma Shrinks(q: real, s: real, m: real)
    requires s <= m && q >= 0.0
    ensures q * s <= q * m
  {
  }

  lemma Cancel(x: real, y: real, s: real)
    requires s > 0.0 && x * s <= y * s
    ensures x <= y
  {
    if x > y { Scaled(x, y, s); }
  }

  lemma Scaled(x: real, y: real, s: real)
    requires s > 0.0 && x > y
    ensures x * s > y * s
  {
  }

  /** A byte read through a (signed) char pointer. */
  function Char(b: byte): int {
    if b < 128 then b else b - 256
  }

  /** Of the driver: trace->blocks, trace->block_sizes, the range list, and the memory whose
      payloads it fills. owner maps the recorded blocks back to their ids. */
  class Ledger {
    const lib: Memlib
    const blocks: array<nat>
    const sizes: array<nat>
    const ranges: RangeList
    ghost var owner: map<nat, nat>

    constructor (lib: Memlib, blocks: array<nat>, sizes: array<nat>, ranges: RangeList)
      ensures this.lib == lib && this.blocks == blocks && this.sizes == sizes && this.ranges == ranges
    {
      this.lib, this.blocks, this.sizes, this.ranges := lib, blocks, sizes, ranges;
      owner := map[];
    }

    /** The arrays do not overlap. */
    ghost predicate Wired() {
      blocks != sizes && blocks as object != lib.mem && sizes as object != lib.mem && blocks.Length == sizes.Length
    }

    /** As after clean_up. */
    ghost predicate Blank()
      reads blocks, sizes, ranges, ranges.nodes
    {
      && Wired() && ranges.Valid()
      && forall id :: 0 <= id < blocks.Length ==> blocks[id] == 0 && sizes[id] == 0
    }

    /** blocks, block_sizes, the range list and the payload bytes all agree with the allocated
        blocks of the heap about the live ids. */
    ghost predicate Agrees(h: Heap, lo: nat, ids: Ids)
      reads this, lib.mem, blocks, sizes, ranges, ranges.nodes
    {
      && Wired() && ranges.Valid()
      && Booked(Live(h), lo, blocks[..], sizes[..], ids, owner)
      && Filled(lib.mem[..], blocks[..], sizes[..], ids.live)
      && Ranged(ranges.ranges, blocks[..], sizes[..], ids.live, owner)
    }

    /** An address is in a recorded range exactly if it is a payload byte of a live id, and then
        it holds the low byte of that id. */
    lemma Recorded(h: Heap, lo: nat, ids: Ids, a: nat)
      requires Agrees(h, lo, ids)
      ensures (exists r :: r in ranges.ranges && r.lo <= a <= r.hi) <==>
        exists id: nat :: id in ids.live && PayloadByte(blocks[..], sizes[..], id, a)
      ensures a < lib.mem.Length ==> forall id: nat ::
        id in ids.live && PayloadByte(blocks[..], sizes[..], id, a) ==> lib.mem[a] == id % 256
    {
      RecordedIds(h, lo, ids);
      hide Booked;
      RangedBytes(ranges.ranges, blocks[..], sizes[..], ids.live, owner, a);
      hide Ranged;
      if a < lib.mem.Length {
        FilledBytes(lib.mem[..], blocks[..], sizes[..], ids.live, a);
      }
    }

    lemma RecordedIds(h: Heap, lo: nat, ids: Ids)
      requires Agrees(h, lo, ids)
      ensures forall id: nat :: id in ids.live ==> id < blocks.Length
    {
      forall id: nat | id in ids.live ensures id < blocks.Length {
        BookedFits(Live(h), lo, blocks[..], sizes[..], ids, owner, id);
      }
    }

    /** clean_up: memset of both arrays. */
    method CleanUp()
      requires Wired() && ranges.Valid()
      modifies blocks, sizes
      ensures Blank()
    {
      for id := 0 to blocks.Length
        invariant forall k :: 0 <= k < id ==> blocks[k] == 0 && sizes[k] == 0
      {
        blocks[id], sizes[id] := 0, 0;
      }
    }

    /** The start of eval_mm_valid: with an empty heap and range list, nothing is recorded. */
    method Clear(ghost h: Heap, ghost lo: nat)
      requires Blank() && Live(h).Keys == {lo} && lo != 0
      modifies this, ranges
      ensures Agrees(h, lo, Ids({}, {})) && ranges.nodes == [] && Blank()
    {
      hide Live;
      ranges.ClearRanges();
      owner := map[];
      BookStart(Live(h), lo, blocks[..], sizes[..]);
    }

    /** The payload at p, whose range has just been recorded, is filled and remembered as id's. */
    method Remember(id: nat, p: nat, size: nat, ghost h: Heap, ghost lo: nat, ghost lv: map<nat, nat>,
        ghost rs: seq<Range>, ghost ids: Ids)
      requires Wired() && lib.Valid() && ranges.Valid() && id < blocks.Length && id !in ids.live && p != 0 && size > 0
      requires ranges.ranges == [Extent(p, size)] + rs && Sound(h, lo, lib.brk)
      requires Booked(lv, lo, blocks[..], sizes[..], ids, owner) && Ranged(rs, blocks[..], sizes[..], ids.live, owner)
      requires Filled(lib.mem[..], blocks[..], sizes[..], ids.live)
      requires Joins(lv, Live(h), p, size)
      modifies this, lib.mem, blocks, sizes
      ensures Agrees(h, lo, Ids(ids.live + {id}, ids.used + {id})) && Only(old(lib.mem[..]), lib.mem[..], p, size)
      ensures blocks[..] == old(blocks[..])[id := p] && sizes[..] == old(sizes[..])[id := size]
    {
      hide Sound, Booked, Filled, Ranged, Live, Only, Align;
      ghost var m1, b, z := lib.mem[..], blocks[..], sizes[..];
      BookRoom(h, lo, lib.brk, p, size);
      lib.Memset(p, id % 256, size);
      blocks[id] := p;
      sizes[id] := size;
      PayloadOnly(m1, lib.mem[..], h, lo, lib.brk, p, size);
      BookBlock(m1, lib.mem[..], h, lo, lv, rs, b, z, ids, owner, id, p, size);
      owner := owner[p := id];
      assert blocks[..] == b[id := p] && sizes[..] == z[id := size];
    }

    /** case ALLOC, once mm_malloc has returned p: the block passes all checks. */
    method Add(id: nat, p: nat, size: nat, ghost h: Heap, ghost lo: nat, ghost lv: map<nat, nat>, ghost ids: Ids)
      returns (ok: bool)
      requires Wired() && lib.Valid() && ranges.Valid() && id < blocks.Length && id !in ids.live && p != 0 && size > 0
      requires Sound(h, lo, lib.brk) && lib.start <= lo && Joins(lv, Live(h), p, size)
      requires Booked(lv, lo, blocks[..], sizes[..], ids, owner)
      requires Ranged(ranges.ranges, blocks[..], sizes[..], ids.live, owner)
      requires Filled(lib.mem[..], blocks[..], sizes[..], ids.live)
      modifies this, lib.mem, blocks, sizes, ranges
      ensures ok && Agrees(h, lo, Ids(ids.live + {id}, ids.used + {id})) && Only(old(lib.mem[..]), lib.mem[..], p, size)
      ensures blocks[..] == old(blocks[..])[id := p] && sizes[..] == old(sizes[..])[id := size]
      ensures forall x :: x in ranges.nodes ==> x in old(ranges.nodes) || fresh(x)
    {
      hide Sound, Booked, Filled, Ranged, Live, Only, Align;
      ghost var b, z := blocks[..], sizes[..];
      BookRoom(h, lo, lib.brk, p, size);
      NewRangeAccepted(h, lo, lib.brk, lib.start, ranges.ranges, lv, b, z, ids, owner, p, size);
      ok := ranges.AddRange(lib, p, size);
      if !ok {
        return false;
      }
      Remember(id, p, size, h, lo, lv, ranges.ranges[1..], ids);
    }

    /** The driver's check that the old bytes of a reallocated block are still there: it rejects
        every memory in which one of them has changed. It reads them as chars, so that it also
        rejects correct contents of 128 and above. */
    method CheckOld(newp: nat, oldsize: nat, id: nat) returns (ok: bool)
      requires newp + oldsize <= lib.mem.Length
      ensures ok <==> forall i :: newp <= i < newp + oldsize ==> lib.mem[i] == id % 256 < 128
      ensures FilledAt(lib.mem[..], newp, oldsize, id % 256) ==> (ok <==> oldsize == 0 || id % 256 < 128)
    {
      var j := 0;
      while j < oldsize
        invariant 0 <= j <= oldsize
        invariant forall i :: newp <= i < newp + j ==> lib.mem[i] == id % 256 < 128
      {
        if Char(lib.mem[newp + j]) != id % 256 {
          return false;
        }
        j := j + 1;
      }
      assert FilledAt(lib.mem[..], newp, oldsize, id % 256) && oldsize > 0 ==> lib.mem[newp] == id % 256;
      return true;
    }

    /** remove_range of the old block, if there is one, and add_range of the new one. */
    method SwapRange(id: nat, oldp: nat, newp: nat, size: nat, ghost h: Heap, ghost lo: nat, ghost lv0: map<nat, nat>,
        ghost ids: Ids) returns (ok: bool)
      requires Wired() && lib.Valid() && ranges.Valid() && id < blocks.Length && size > 0
      requires oldp == blocks[id] && (id in ids.live || id !in ids.used)
      requires Sound(h, lo, lib.brk) && lib.start <= lo && Joins(lv0 - {oldp}, Live(h), newp, size)
      requires Booked(lv0, lo, blocks[..], sizes[..], ids, owner)
      requires Ranged(ranges.ranges, blocks[..], sizes[..], ids.live, owner)
      modifies ranges, ranges.nodes
      ensures ok && ranges.Valid() && ranges.ranges != [] && ranges.ranges[0] == Extent(newp, size)
      ensures Ranged(ranges.ranges[1..], blocks[..], sizes[..], ids.live - {id}, owner - {oldp})
      ensures Booked(lv0 - {oldp}, lo, blocks[..], sizes[..], Ids(ids.live - {id}, ids.used), owner - {oldp})
      ensures forall x :: x in ranges.nodes ==> x in old(ranges.nodes) || fresh(x)
    {
      hide Sound, Booked, Ranged, Live, Removed, Align, Joins;
      ghost var b, z, lv := blocks[..], sizes[..], lv0 - {oldp};
      JoinsRoom(lv, h, lo, lib.brk, newp, size);
      DropBlock(ranges.ranges, lv0, lo, b, z, ids, owner, id);
      ranges.RemoveRange(oldp);
      ghost var rs := ranges.ranges;
      NewRangeAccepted(h, lo, lib.brk, lib.start, rs, lv, b, z,
                       Ids(ids.live - {id}, ids.used), owner - {oldp}, newp, size);
      ok := ranges.AddRange(lib, newp, size);
      assert ranges.ranges[1..] == rs;
    }

    /** case REALLOC, once mm_realloc has returned newp: it replaces the block of id, if any. */
    method Replace(id: nat, oldp: nat, newp: nat, size: nat, ghost h: Heap, ghost lo: nat, ghost lv0: map<nat, nat>,
        ghost ids: Ids) returns (ok: bool)
      requires Wired() && lib.Valid() && ranges.Valid() && id < blocks.Length && size > 0 && newp != 0
      requires oldp == blocks[id] && (id in ids.live || id !in ids.used)
      requires Sound(h, lo, lib.brk) && lib.start <= lo && Joins(lv0 - {oldp}, Live(h), newp, size)
      requires Booked(lv0, lo, blocks[..], sizes[..], ids, owner)
      requires Ranged(ranges.ranges, blocks[..], sizes[..], ids.live, owner)
      requires Filled(lib.mem[..], blocks[..], sizes[..], ids.live - {id})
      requires FilledAt(lib.mem[..], newp, if size < sizes[id] then size else sizes[id], id % 256)
      modifies this, lib.mem, blocks, sizes, ranges, ranges.nodes
      ensures ok <==> !Misread(Realloc(id, size), ids)
      ensures ok ==> Agrees(h, lo, Next(Realloc(id, size), ids))
      ensures ok ==> blocks[..] == old(blocks[..])[id := newp] && sizes[..] == old(sizes[..])[id := size]
      ensures Only(old(lib.mem[..]), lib.mem[..], newp, size)
      ensures forall x :: x in ranges.nodes ==> x in old(ranges.nodes) || fresh(x)
    {
      hide Sound, Booked, Filled, FilledAt, Ranged, Live, Only, Align, Joins;
      ghost var lv, ids' := lv0 - {oldp}, Ids(ids.live - {id}, ids.used);
      OnlySelf(lib.mem[..], newp, size);
      JoinsRoom(lv, h, lo, lib.brk, newp, size);
      SizeOf(lv0, lo, blocks[..], sizes[..], ids, owner, id);
      ok := SwapRange(id, oldp, newp, size, h, lo, lv0, ids);
      if !ok {
        return false;
      }
      var oldsize := sizes[id];
      if size < oldsize {
        oldsize := size;
      }
      ok := CheckOld(newp, oldsize, id);
      if !ok {
        return false;
      }
      owner := owner - {oldp};
      Remember(id, newp, size, h, lo, lv, ranges.ranges[1..], ids');
      assert Ids(ids'.live + {id}, ids'.used + {id}) == Next(Realloc(id, size), ids);
    }

    /** case FREE, up to mm_free: the range of id's block p is removed. */
    method Forget(id: nat, ghost h: Heap, ghost lo: nat, ghost ids: Ids) returns (p: nat)
      requires Agrees(h, lo, ids) && id < blocks.Length && id in ids.live
      modifies this, ranges, ranges.nodes
      ensures Wired() && ranges.Valid() && p == blocks[id] && p in Live(h) && p != lo && p != 0
      ensures Booked(Live(h) - {p}, lo, blocks[..], sizes[..], Ids(ids.live - {id}, ids.used), owner)
      ensures Ranged(ranges.ranges, blocks[..], sizes[..], ids.live - {id}, owner)
      ensures forall x: nat :: x in ids.live - {id} && x < blocks.Length ==> blocks[x] != p
      ensures forall x :: x in ranges.nodes ==> x in old(ranges.nodes)
    {
      hide Booked, Filled, Ranged, Live, Removed;
      ghost var b, z := blocks[..], sizes[..];
      BookedFits(Live(h), lo, b, z, ids, owner, id);
      BookedPointers(Live(h), lo, b, z, ids, owner);
      p := blocks[id];
      RangedRemove(ranges.ranges, Live(h), lo, b, z, ids, owner, id);
      BookFree(Live(h), lo, b, z, ids, owner, id);
      ranges.RemoveRange(p);
      owner := owner - {p};
    }

    /** The part of the records that eval_mm_util keeps: the arrays agree with the allocated
        blocks lv of the heap, and block_sizes with the requests so far. */
    ghost predicate Counts(lv: map<nat, nat>, lo: nat, ids: Ids, req: map<nat, nat>)
      reads this, blocks, sizes
    {
      && Wired() && Booked(lv, lo, blocks[..], sizes[..], ids, owner)
      && forall id {:trigger req[id]} :: id in req ==> id < sizes.Length && sizes[id] == req[id]
    }

    /** cases ALLOC and REALLOC of eval_mm_util: id's block is now at p. */
    method Enter(id: nat, p: nat, size: nat, ghost lv: map<nat, nat>, ghost lv1: map<nat, nat>, ghost lo: nat,
        ghost ids: Ids, ghost req: map<nat, nat>)
      requires Counts(lv, lo, ids, req) && id < blocks.Length && p != 0 && size > 0
      requires Joins(if id in ids.live then lv - {blocks[id]} else lv, lv1, p, size)
      modifies this, blocks, sizes
      ensures Counts(lv1, lo, Next(Alloc(id, size), ids), req[id := size])
      ensures blocks[..] == old(blocks[..])[id := p]
    {
      hide Booked, Align;
      ghost var b, z := blocks[..], sizes[..];
      BookReplace(lv, lv1, lo, b, z, ids, owner, id, p, size);
      owner := (if id in ids.live then owner - {b[id]} else owner)[p := id];
      blocks[id] := p;
      sizes[id] := size;
      assert blocks[..] == b[id := p] && sizes[..] == z[id := size];
    }

    /** case FREE of eval_mm_util, where the arrays stay as they are. */
    ghost method Leave(id: nat, lv: map<nat, nat>, lo: nat, ids: Ids, req: map<nat, nat>)
      requires Counts(lv, lo, ids, req) && id < blocks.Length && id in ids.live
      modifies this
      ensures Counts(lv - {blocks[id]}, lo, Next(Free(id), ids), req - {id})
    {
      BookFree(lv, lo, blocks[..], sizes[..], ids, owner, id);
      owner := owner - {blocks[id]};
    }
  }

  /** lv1 has the blocks of lv and a new one at p, with room for size bytes and at most 8
      bytes more than the aligned size. */
  ghost predicate Joins(lv: map<nat, nat>, lv1: map<nat, nat>, p: nat, size: nat) {
    && p !in lv && p in lv1 && lv1 == lv[p := lv1[p]]
    && (lv1[p] == Align(size) + 8 || lv1[p] == Align(size) + 16)
  }

  /** Only live ids have a size. */
  lemma SizeOf(lv: map<nat, nat>, lo: nat, b: seq<nat>, z: seq<nat>, ids: Ids, owner: map<nat, nat>, id: nat)
    requires Booked(lv, lo, b, z, ids, owner) && id < |b| && (id in ids.live || id !in ids.used)
    ensures |z| == |b| && (id in ids.live <==> z[id] > 0)
  {
    if id in ids.live {
      BookedFits(lv, lo, b, z, ids, owner, id);
    } else {
      UnusedId(lv, lo, b, z, ids, owner, id);
    }
  }

  lemma JoinsRoom(lv: map<nat, nat>, h: Heap, lo: nat, brk: nat, p: nat, size: nat)
    requires Sound(h, lo, brk) && Joins(lv, Live(h), p, size) && size > 0
    ensures p in h && h[p].alloc && size <= h[p].Cap() && p + size <= brk
    ensures p !in lv && p in Live(h) && p != lo && size + 8 <= Live(h)[p]
    ensures Keeps(lv, Live(h))
  {
    hide Sound, Live;
    BookRoom(h, lo, brk, p, size);
  }

  lemma OnlySelf(m: Mem, a: int, n: int)
    ensures Only(m, m, a, n)
  {
  }

  /** Writing into a live payload leaves the other payloads alone. */
  lemma PayloadOnly(m: Mem, m': Mem, h: Heap, lo: nat, brk: nat, p: nat, size: nat)
    requires Sound(h, lo, brk) && p in h && size <= h[p].Cap() && Only(m, m', p, size)
    ensures forall q {:trigger h[q]} :: q in h && q != p ==> Same(m, m', q, q + h[q].Cap())
  {
    forall q | q in h && q != p ensures Same(m, m', q, q + h[q].Cap()) {
      assert h[q] == h[q] && h[p] == h[p];
    }
  }

  /** What mm_realloc returned is ready to replace the block of id: it is new apart from that
      block, the other payloads are still filled, and the old bytes are in place. */
  lemma ReplaceReady(m: Mem, m1: Mem, h: Heap, h1: Heap, lo: nat, b: seq<nat>, z: seq<nat>, ids: Ids,
      owner: map<nat, nat>, id: nat, newp: nat, size: nat)
    requires Booked(Live(h), lo, b, z, ids, owner) && Filled(m, b, z, ids.live) && id < |b| && newp != 0 && size > 0
    requires if id in ids.live then b[id] != 0 && Resized(m, m1, h, h1, b[id], newp, size)
             else id !in ids.used && b[id] == 0 && z[id] == 0 && Gained(h, h1, newp, size)
    requires LiveKept(m, m1, h, b[id])
    ensures Filled(m1, b, z, ids.live - {id})
    ensures Joins(Live(h) - {b[id]}, Live(h1), newp, size)
    ensures id < |z| && FilledAt(m1, newp, if size < z[id] then size else z[id], id % 256)
  {
    hide Booked, Filled, FilledAt, Live, LiveKept, Gained, Resized;
    BookedPointers(Live(h), lo, b, z, ids, owner);
    FilledKept(m, m1, h, b[id], lo, b, z, ids, owner, ids.live - {id});
    if id in ids.live {
      ReadyLive(m, m1, h, h1, lo, b, z, ids, owner, id, newp, size);
    } else {
      ReadyNew(m1, h, h1, lo, b, z, ids, owner, id, newp, size);
    }
  }

  lemma ReadyLive(m: Mem, m1: Mem, h: Heap, h1: Heap, lo: nat, b: seq<nat>, z: seq<nat>, ids: Ids,
      owner: map<nat, nat>, id: nat, newp: nat, size: nat)
    requires Booked(Live(h), lo, b, z, ids, owner) && Filled(m, b, z, ids.live) && id in ids.live && id < |b|
    requires Resized(m, m1, h, h1, b[id], newp, size) && size > 0
    ensures Joins(Live(h) - {b[id]}, Live(h1), newp, size)
    ensures id < |z| && FilledAt(m1, newp, if size < z[id] then size else z[id], id % 256)
  {
    hide Booked, Live;
    BookedFits(Live(h), lo, b, z, ids, owner, id);
    assert FilledAt(m, b[id], z[id], id % 256);
    var n := if size < z[id] then size else z[id];
    forall i | newp <= i < newp + n && 0 <= i < |m1| ensures m1[i] == id % 256 {
      FilledByte(m, m1, h, h1, b[id], newp, size, z[id], id % 256, i);
    }
  }

  lemma FilledByte(m: Mem, m1: Mem, h: Heap, h1: Heap, oldp: nat, newp: nat, size: nat, oldsize: nat, v: int, i: nat)
    requires Resized(m, m1, h, h1, oldp, newp, size) && FilledAt(m, oldp, oldsize, v)
    requires oldp in Live(h) && oldsize + 8 <= Live(h)[oldp] && newp <= i < newp + size && i < newp + oldsize
    requires i < |m1|
    ensures m1[i] == v
  {
    hide Live;
    assert m1[i] == m[i - newp + oldp];
  }

  lemma ReadyNew(m1: Mem, h: Heap, h1: Heap, lo: nat, b: seq<nat>, z: seq<nat>, ids: Ids, owner: map<nat, nat>,
      id: nat, newp: nat, size: nat)
    requires Booked(Live(h), lo, b, z, ids, owner) && id < |b| == |z| && b[id] == 0 && z[id] == 0
    requires Gained(h, h1, newp, size)
    ensures Joins(Live(h) - {b[id]}, Live(h1), newp, size)
    ensures FilledAt(m1, newp, 0, id % 256)
  {
    GainedLive(h, h1, newp, size);
    assert Live(h) - {0} == Live(h);
  }

  /** A newly allocated block has room for its payload, inside the heap. */
  lemma BookRoom(h: Heap, lo: nat, brk: nat, p: nat, size: nat)
    requires Sound(h, lo, brk) && p in Live(h) && size > 0
    requires Live(h)[p] == Align(size) + 8 || Live(h)[p] == Align(size) + 16
    ensures p in h && h[p].alloc && size <= h[p].Cap() && p + size <= brk
    ensures size + 8 <= Live(h)[p] && p != lo
  {
    assert h[p] == h[p];
    AlignBounds(size);
  }

  lemma BookedPointers(lv: map<nat, nat>, lo: nat, b: seq<nat>, z: seq<nat>, ids: Ids, owner: map<nat, nat>)
    requires Booked(lv, lo, b, z, ids, owner)
    ensures |b| == |z| && forall id: nat {:trigger b[id]} :: id in ids.live && id < |b| ==> b[id] != 0
    ensures forall x, y: nat {:trigger b[x], b[y]} :: x in ids.live && y in ids.live && x < |b| && y < |b| && x != y ==>
      b[x] != b[y]
  {
    forall id: nat | id in ids.live && id < |b| ensures b[id] != 0 && b[id] in owner && owner[b[id]] == id {
      BookedFits(lv, lo, b, z, ids, owner, id);
    }
  }

  lemma GainedLive(h: Heap, h': Heap, p: nat, size: nat)
    requires Gained(h, h', p, size)
    ensures Joins(Live(h), Live(h'), p, size)
  {
    assert p in Live(h') && Live(h')[p] == h'[p].size;
  }

  /** What realloc makes of the allocated blocks. */
  lemma ResizedLive(m: Mem, m1: Mem, h: Heap, h1: Heap, p: nat, newp: nat, size: nat)
    requires Resized(m, m1, h, h1, p, newp, size)
    ensures Joins(Live(h) - {p}, Live(h1), newp, size)
  {
    hide Live;
  }

  /** A block at p is recorded for id, and filled. */
  lemma BookBlock(m1: Mem, m2: Mem, h: Heap, lo: nat, lv: map<nat, nat>, rs: seq<Range>, b: seq<nat>, z: seq<nat>,
      ids: Ids, owner: map<nat, nat>, id: nat, p: nat, size: nat)
    requires p != 0 && size > 0 && id < |b| && id !in ids.live
    requires Joins(lv, Live(h), p, size)
    requires Booked(lv, lo, b, z, ids, owner) && Ranged(rs, b, z, ids.live, owner) && Filled(m1, b, z, ids.live)
    requires p + size <= |m2| && forall i :: p <= i < p + size ==> m2[i] == id % 256
    requires forall q {:trigger h[q]} :: q in h && q != p ==> Same(m1, m2, q, q + h[q].Cap())
    ensures var ids', b', z', owner' :=
              Ids(ids.live + {id}, ids.used + {id}), b[id := p], z[id := size], owner[p := id];
      && Booked(Live(h), lo, b', z', ids', owner') && Filled(m2, b', z', ids'.live)
      && Ranged([Extent(p, size)] + rs, b', z', ids'.live, owner')
  {
    hide Booked, Ranged, Filled, Live, Same;
    BookAlloc(lv, Live(h), lo, b, z, ids, owner, id, p, size);
    OwnerFresh(lv, lo, b, z, ids, owner, p);
    RangedAdd(rs, b, z, ids.live, owner, id, p, size);
    var b', z', ids' := b[id := p], z[id := size], Ids(ids.live + {id}, ids.used + {id});
    FilledUpdate(m1, b, z, ids.live, id, p, size);
    FilledMemset(m1, m2, h, lo, b', z', ids', owner[p := id], ids.live, id);
  }

  lemma OwnerFresh(lv: map<nat, nat>, lo: nat, b: seq<nat>, z: seq<nat>, ids: Ids, owner: map<nat, nat>, p: nat)
    requires Booked(lv, lo, b, z, ids, owner) && p !in lv
    ensures p !in owner && |b| == |z| && 0 !in lv && lo in lv
  {
  }

  lemma FilledUpdate(m: Mem, b: seq<nat>, z: seq<nat>, live: set<nat>, id: nat, p: nat, size: nat)
    requires Filled(m, b, z, live) && id < |b| && id !in live
    ensures Filled(m, b[id := p], z[id := size], live)
  {
    forall x: nat | x in live && x < |b| ensures FilledAt(m, b[id := p][x], z[id := size][x], x % 256) {
      assert FilledAt(m, b[x], z[x], x % 256);
    }
  }

  /** remove_range before a realloc: the records without id. A never-used id has none. */
  lemma DropBlock(rs: seq<Range>, lv: map<nat, nat>, lo: nat, b: seq<nat>, z: seq<nat>, ids: Ids,
      owner: map<nat, nat>, id: nat)
    requires Booked(lv, lo, b, z, ids, owner) && Ranged(rs, b, z, ids.live, owner) && id < |b|
    requires (id in ids.live || id !in ids.used)
    ensures Booked(lv - {b[id]}, lo, b, z, Ids(ids.live - {id}, ids.used), owner - {b[id]})
    ensures Ranged(Removed(rs, b[id]), b, z, ids.live - {id}, owner - {b[id]})
    ensures |z| == |b| && (if id in ids.live then z[id] > 0 && b[id] != 0 else b[id] == 0 && z[id] == 0)
  {
    if id in ids.live {
      BookedFits(lv, lo, b, z, ids, owner, id);
      BookFree(lv, lo, b, z, ids, owner, id);
      RangedRemove(rs, lv, lo, b, z, ids, owner, id);
    } else {
      DropNothing(rs, lv, lo, b, z, ids, owner, id);
    }
  }

  lemma DropNothing(rs: seq<Range>, lv: map<nat, nat>, lo: nat, b: seq<nat>, z: seq<nat>, ids: Ids,
      owner: map<nat, nat>, id: nat)
    requires Booked(lv, lo, b, z, ids, owner) && Ranged(rs, b, z, ids.live, owner) && id < |b| && id !in ids.used
    ensures b[id] == 0 && z[id] == 0 && id !in ids.live
    ensures lv - {b[id]} == lv && owner - {b[id]} == owner && Ids(ids.live - {id}, ids.used) == ids
    ensures Removed(rs, b[id]) == rs
  {
    hide Ranged, Removed;
    UnusedId(lv, lo, b, z, ids, owner, id);
    hide Booked;
    StartsNotNull(rs, b, z, ids.live, owner);
    RemovedNothing(rs, 0);
    assert ids.live - {id} == ids.live;
  }

  lemma StartsNotNull(rs: seq<Range>, b: seq<nat>, z: seq<nat>, live: set<nat>, owner: map<nat, nat>)
    requires Ranged(rs, b, z, live, owner) && 0 !in owner
    ensures forall r :: r in rs ==> r.lo != 0
  {
    forall r | r in rs ensures r.lo != 0 {
      assert r.lo in owner;
    }
  }

  lemma UnusedId(lv: map<nat, nat>, lo: nat, b: seq<nat>, z: seq<nat>, ids: Ids, owner: map<nat, nat>, id: nat)
    requires Booked(lv, lo, b, z, ids, owner) && id < |b| && id !in ids.used
    ensures b[id] == 0 && z[id] == 0 && id !in ids.live && 0 !in lv && 0 !in owner
  {
  }

  lemma BookedAt(lv: map<nat, nat>, lo: nat, b: seq<nat>, z: seq<nat>, ids: Ids, owner: map<nat, nat>, id: nat)
    requires Booked(lv, lo, b, z, ids, owner) && id < |b| && (id in ids.live || id !in ids.used)
    ensures |z| == |b|
    ensures if id in ids.live then b[id] != 0 && b[id] in lv && b[id] != lo else b[id] == 0 && z[id] == 0
  {
    if id in ids.live {
      BookedFits(lv, lo, b, z, ids, owner, id);
    }
  }

  lemma BookReplace(lv: map<nat, nat>, lv1: map<nat, nat>, lo: nat, b: seq<nat>, z: seq<nat>, ids: Ids,
      owner: map<nat, nat>, id: nat, newp: nat, size: nat)
    requires Booked(lv, lo, b, z, ids, owner) && id < |b| && newp != 0 && size > 0
    requires Joins(if id in ids.live then lv - {b[id]} else lv, lv1, newp, size)
    ensures Booked(lv1, lo, b[id := newp], z[id := size], Next(Realloc(id, size), ids),
                   (if id in ids.live then owner - {b[id]} else owner)[newp := id])
  {
    hide Booked;
    if id in ids.live {
      BookFree(lv, lo, b, z, ids, owner, id);
      var ids0 := Ids(ids.live - {id}, ids.used);
      BookAlloc(lv - {b[id]}, lv1, lo, b, z, ids0, owner - {b[id]}, id, newp, size);
      assert Ids(ids0.live + {id}, ids0.used + {id}) == Next(Realloc(id, size), ids);
    } else {
      BookAlloc(lv, lv1, lo, b, z, ids, owner, id, newp, size);
    }
  }

  lemma PeakStart(ops: seq<Op>, n: nat)
    ensures Sum(map[], n) == 0 && Peak(ops, 0, n) == 0
    ensures After(ops, 0) == Ids({}, {}) && Requested(ops, 0) == map[] && Demand(ops, 0) == 0
  {
    SumEmpty(n);
  }

  /** The k-th request of a well-formed trace, and the room that it takes. */
  lemma TraceStep(ops: seq<Op>, k: nat, n: nat, least: nat)
    requires k < |ops| && WellFormed(ops, n, least)
    ensures Legal(ops[k], After(ops, k), n, least) && ops[k].id < n
    ensures After(ops, k + 1) == Next(ops[k], After(ops, k))
    ensures Demand(ops, k + 1) == Demand(ops, k) + Need(ops[k]) && Demand(ops, k + 1) <= Demand(ops, |ops|)
  {
    DemandMonotone(ops, k + 1, |ops|);
  }

  /** One request's effect on the sum of the live request sizes, and on its peak. */
  lemma CountStep(ops: seq<Op>, k: nat, n: nat)
    requires 0 < k <= |ops| && ops[k - 1].id < n
    ensures var op, req := ops[k - 1], Requested(ops, k - 1);
      && After(ops, k) == Next(op, After(ops, k - 1))
      && Requested(ops, k) == (if op.Free? then req - {op.id} else req[op.id := op.size])
      && Sum(Requested(ops, k), n) == Sum(req, n) + (if op.Free? then 0 else op.size)
        - (if op.id in req then req[op.id] else 0)
      && Peak(ops, k, n)
        == (if Sum(Requested(ops, k), n) > Peak(ops, k - 1, n) then Sum(Requested(ops, k), n) else Peak(ops, k - 1, n))
  {
    hide Sum;
    var op := ops[k - 1];
    SumUpdate(Requested(ops, k - 1), n, op.id, if op.Free? then 0 else op.size);
  }

  /** Live payloads are disjoint, so their requested sizes add up to no more than the heap. */
  lemma FitTogether(h: Heap, lo: nat, brk: nat, b: seq<nat>, z: seq<nat>, ids: Ids, owner: map<nat, nat>,
      req: map<nat, nat>)
    requires Sound(h, lo, brk) && lo <= brk && Booked(Live(h), lo, b, z, ids, owner) && req.Keys == ids.live
    requires forall id {:trigger req[id]} :: id in req ==> id < |z| && z[id] == req[id]
    ensures Sum(req, |b|) <= brk - lo
  {
    hide Sound, Booked, Live, Sum;
    forall id | id in req
      ensures id < |b| && req[id] > 0 && lo <= b[id] && b[id] + req[id] <= brk
    {
      FitOne(h, lo, brk, b, z, ids, owner, id);
    }
    forall x, y | x in req && y in req && x != y
      ensures x < |b| && y < |b| && (b[x] + req[x] <= b[y] || b[y] + req[y] <= b[x])
    {
      FitOne(h, lo, brk, b, z, ids, owner, x);
      FitOne(h, lo, brk, b, z, ids, owner, y);
      PayloadsPlaced(h, lo, brk, b[x], b[y]);
    }
    Packed(req, b, lo, brk);
  }

  lemma FitOne(h: Heap, lo: nat, brk: nat, b: seq<nat>, z: seq<nat>, ids: Ids, owner: map<nat, nat>, id: nat)
    requires Sound(h, lo, brk) && Booked(Live(h), lo, b, z, ids, owner) && id in ids.live
    ensures id < |b| == |z| && z[id] > 0 && b[id] in Live(h) && b[id] != lo && z[id] + 8 <= Live(h)[b[id]]
    ensures b[id] in owner && owner[b[id]] == id && lo <= b[id] && b[id] + z[id] <= brk
  {
    hide Sound, Live;
    BookedFits(Live(h), lo, b, z, ids, owner, id);
    PayloadsPlaced(h, lo, brk, b[id], b[id]);
  }
}
