/** Traces of allocator requests (mdriver.c), and the bookkeeping that the driver's
    evaluation loops keep about them. */
module Books {
  import opened Memory
  import opened Blocks
  import opened LiveBlocks
  import opened Ranges

  // ---------------------------------------------------------------------------
  // Traces
  // ---------------------------------------------------------------------------

  datatype Op = Alloc(id: nat, size: nat) | Free(id: nat) | Realloc(id: nat, size: nat)

  /** The ids that own a block, and the ids that ever did. */
  datatype Ids = Ids(live: set<nat>, used: set<nat>)

  function Next(op: Op, ids: Ids): Ids {
    match op
    case Free(id) => Ids(ids.live - {id}, ids.used)
    case _ => Ids(ids.live + {op.id}, ids.used + {op.id})
  }

  /** The ids after the first k requests. */
  function After(ops: seq<Op>, k: nat): Ids
    requires k <= |ops|
  {
    if k == 0 then Ids({}, {}) else Next(ops[k - 1], After(ops, k - 1))
  }

  /** Ids are below n, and new blocks have at least `least` bytes. Frees and reallocs name
      live ids; a realloc of a never-used id stands for a malloc. */
  predicate Legal(op: Op, ids: Ids, n: nat, least: nat) {
    op.id < n &&
    match op
    case Alloc(id, size) => id !in ids.live && 0 < size < 0x7FFF_FFE0 && size >= least
    case Free(id) => id in ids.live
    case Realloc(id, size) => 0 < size < 0x7FFF_FFE0 && (id in ids.live || (id !in ids.used && size >= least))
  }

  predicate WellFormed(ops: seq<Op>, n: nat, least: nat) {
    forall k :: 0 <= k < |ops| ==> Legal(ops[k], After(ops, k), n, least)
  }

  /** The request is a realloc of a live id whose low byte is negative as a char. */
  predicate Misread(op: Op, ids: Ids) {
    op.Realloc? && op.id in ids.live && op.id % 256 >= 128
  }

  predicate HasMisread(ops: seq<Op>) {
    exists k :: 0 <= k < |ops| && Misread(ops[k], After(ops, k))
  }

  /** A well-formed trace that the driver rejects although its data is kept. */
  lemma MisreadTrace(least: nat)
    requires least <= 16
    ensures var ops := [Alloc(128, 16), Realloc(128, 16)]; WellFormed(ops, 129, least) && HasMisread(ops)
  {
    var ops := [Alloc(128, 16), Realloc(128, 16)];
    assert After(ops, 0) == Ids({}, {});
    assert After(ops, 1) == Ids({128}, {128});
    assert Misread(ops[1], After(ops, 1));
  }

  /** The most that one request can grow the heap by. */
  function Need(op: Op): nat {
    if op.Free? then 0 else Align(op.size) + 8
  }

  /** The size rounded up to a multiple of 8, and 8 bytes of tags. */
  lemma NeedBounds(op: Op)
    ensures op.Free? ==> Need(op) == 0
    ensures !op.Free? ==> op.size + 8 <= Need(op) < op.size + 16 && Need(op) % 8 == 0
  {
    if !op.Free? { AlignBounds(op.size); }
  }

  function Demand(ops: seq<Op>, k: nat): nat
    requires k <= |ops|
  {
    if k == 0 then 0 else Demand(ops, k - 1) + Need(ops[k - 1])
  }

  lemma {:induction false} DemandMonotone(ops: seq<Op>, j: nat, k: nat)
    requires j <= k <= |ops|
    ensures Demand(ops, j) <= Demand(ops, k)
  {
    if j < k {
      DemandMonotone(ops, j, k - 1);
    }
  }

  // ---------------------------------------------------------------------------
  // trace->blocks and trace->block_sizes against the heap
  // ---------------------------------------------------------------------------

  /** The allocated blocks other than the prologue lo are exactly the blocks of the live ids,
      one each; owner maps them back. A block has the aligned requested size or 8 bytes
      more. Ids never used hold a null pointer and size 0. */
  ghost predicate Booked(lv: map<nat, nat>, lo: nat, blocks: seq<nat>, sizes: seq<nat>, ids: Ids,
      owner: map<nat, nat>) {
    && |blocks| == |sizes| && ids.live <= ids.used && lo in lv && 0 !in lv
    && (forall p {:trigger owner[p]} ::
         p in owner ==> owner[p] in ids.live && owner[p] < |blocks| && blocks[owner[p]] == p)
    && (forall p :: p in owner <==> p in lv && p != lo)
    && (forall id: nat {:trigger id in ids.live} {:trigger blocks[id]} :: id in ids.live ==>
          id < |blocks| && blocks[id] in owner && owner[blocks[id]] == id)
    && (forall id: nat {:trigger sizes[id]} :: id in ids.live && id < |blocks| ==>
          sizes[id] > 0 && blocks[id] in lv &&
          (lv[blocks[id]] == Align(sizes[id]) + 8 || lv[blocks[id]] == Align(sizes[id]) + 16))
    && (forall id: nat :: id < |blocks| && id !in ids.used ==> blocks[id] == 0 && sizes[id] == 0)
  }

  lemma BookedFits(lv: map<nat, nat>, lo: nat, blocks: seq<nat>, sizes: seq<nat>, ids: Ids, owner: map<nat, nat>,
      id: nat)
    requires Booked(lv, lo, blocks, sizes, ids, owner) && id in ids.live
    ensures id < |blocks| && blocks[id] in lv && blocks[id] != lo && blocks[id] != 0 && 0 < sizes[id]
    ensures sizes[id] + 8 <= lv[blocks[id]]
    ensures blocks[id] in owner && owner[blocks[id]] == id
  {
    assert id in ids.live && id < |blocks|;
    AlignBounds(sizes[id]);
  }

  lemma BookStart(lv: map<nat, nat>, lo: nat, blocks: seq<nat>, sizes: seq<nat>)
    requires lv.Keys == {lo} && lo != 0 && |blocks| == |sizes|
    requires forall id :: 0 <= id < |blocks| ==> blocks[id] == 0 && sizes[id] == 0
    ensures Booked(lv, lo, blocks, sizes, Ids({}, {}), map[])
  {
  }

  lemma BookAlloc(lv: map<nat, nat>, lv': map<nat, nat>, lo: nat, blocks: seq<nat>, sizes: seq<nat>, ids: Ids,
      owner: map<nat, nat>, id: nat, p: nat, size: nat)
    requires Booked(lv, lo, blocks, sizes, ids, owner) && id < |blocks| && id !in ids.live && size > 0
    requires p !in lv && p != 0 && p in lv' && (lv'[p] == Align(size) + 8 || lv'[p] == Align(size) + 16)
    requires lv' == lv[p := lv'[p]]
    ensures Booked(lv', lo, blocks[id := p], sizes[id := size], Ids(ids.live + {id}, ids.used + {id}), owner[p := id])
  {
    var blocks', sizes', owner' := blocks[id := p], sizes[id := size], owner[p := id];
    forall x | x in owner' ensures owner'[x] in ids.live + {id} && owner'[x] < |blocks'| && blocks'[owner'[x]] == x {
      if x != p { assert owner'[x] == owner[x]; }
    }
    forall x: nat | x in ids.live && x != id
      ensures x < |blocks| && blocks'[x] == blocks[x] && blocks[x] in owner && blocks[x] != p && owner'[blocks[x]] == x
      ensures sizes'[x] == sizes[x]
    {
      BookedFits(lv, lo, blocks, sizes, ids, owner, x);
    }
  }

  lemma BookFree(lv: map<nat, nat>, lo: nat, blocks: seq<nat>, sizes: seq<nat>, ids: Ids, owner: map<nat, nat>, id: nat)
    requires Booked(lv, lo, blocks, sizes, ids, owner) && id in ids.live && id < |blocks|
    ensures Booked(lv - {blocks[id]}, lo, blocks, sizes, Ids(ids.live - {id}, ids.used), owner - {blocks[id]})
  {
    BookedFits(lv, lo, blocks, sizes, ids, owner, id);
    var p := blocks[id];
    var owner' := owner - {p};
    forall x | x in owner'
      ensures owner'[x] in ids.live && owner'[x] != id && owner'[x] < |blocks| && blocks[owner'[x]] == x
    {
      assert owner'[x] == owner[x];
    }
    forall x: nat | x in ids.live && x != id ensures x < |blocks| && blocks[x] in owner' && owner'[blocks[x]] == x {
      BookedFits(lv, lo, blocks, sizes, ids, owner, x);
    }
  }

  // ---------------------------------------------------------------------------
  // The bytes that the driver filled the payloads with
  // ---------------------------------------------------------------------------

  ghost predicate FilledAt(m: Mem, p: nat, n: nat, v: int) {
    forall i {:trigger m[i]} :: p <= i < p + n && 0 <= i < |m| ==> m[i] == v
  }

  /** Every live payload holds the low byte of its id. */
  ghost predicate Filled(m: Mem, blocks: seq<nat>, sizes: seq<nat>, live: set<nat>) {
    |blocks| == |sizes| &&
    forall id: nat {:trigger blocks[id]} :: id in live && id < |blocks| ==> FilledAt(m, blocks[id], sizes[id], id % 256)
  }

  /** Operations that keep the allocated payloads other than x keep the contents of the ids
      that do not own x. */
  lemma FilledKept(m: Mem, m': Mem, h: Heap, x: nat, lo: nat, blocks: seq<nat>, sizes: seq<nat>, ids: Ids,
      owner: map<nat, nat>, live': set<nat>)
    requires Booked(Live(h), lo, blocks, sizes, ids, owner) && Filled(m, blocks, sizes, ids.live)
    requires LiveKept(m, m', h, x)
    requires live' <= ids.live && forall id: nat :: id in live' && id < |blocks| ==> blocks[id] != x
    ensures Filled(m', blocks, sizes, live')
  {
    forall id: nat | id in live' && id < |blocks| ensures FilledAt(m', blocks[id], sizes[id], id % 256) {
      BookedFits(Live(h), lo, blocks, sizes, ids, owner, id);
      var p := blocks[id];
      assert FilledAt(m, p, sizes[id], id % 256);
      assert Same(m, m', p, p + h[p].Cap());
    }
  }

  /** Filling the payload of a newly recorded block. */
  lemma FilledMemset(m: Mem, m': Mem, h: Heap, lo: nat, blocks: seq<nat>, sizes: seq<nat>, ids: Ids,
      owner: map<nat, nat>, live: set<nat>, id: nat)
    requires Booked(Live(h), lo, blocks, sizes, ids, owner) && Filled(m, blocks, sizes, live)
    requires id in ids.live && id < |blocks| && live <= ids.live - {id} && ids.live <= live + {id}
    requires forall i :: blocks[id] <= i < blocks[id] + sizes[id] ==> i < |m'| && m'[i] == id % 256
    requires forall q {:trigger h[q]} :: q in h && q != blocks[id] ==> Same(m, m', q, q + h[q].Cap())
    ensures Filled(m', blocks, sizes, ids.live)
  {
    hide Booked;
    BookedFits(Live(h), lo, blocks, sizes, ids, owner, id);
    forall x: nat | x in ids.live && x < |blocks| ensures FilledAt(m', blocks[x], sizes[x], x % 256) {
      if x != id {
        BookedFits(Live(h), lo, blocks, sizes, ids, owner, x);
        var p := blocks[x];
        assert FilledAt(m, p, sizes[x], x % 256);
        assert Same(m, m', p, p + h[p].Cap());
      }
    }
  }

  // ---------------------------------------------------------------------------
  // The range list
  // ---------------------------------------------------------------------------

  ghost predicate RangeOf(r: Range, blocks: seq<nat>, sizes: seq<nat>, id: nat) {
    id < |blocks| == |sizes| && r == Extent(blocks[id], sizes[id])
  }

  /** The list holds exactly the payload ranges of the live ids, each once. */
  ghost predicate Ranged(rs: seq<Range>, blocks: seq<nat>, sizes: seq<nat>, live: set<nat>, owner: map<nat, nat>) {
    && |blocks| == |sizes|
    && (forall r {:trigger r in rs} ::
         r in rs ==> r.lo in owner && owner[r.lo] in live && RangeOf(r, blocks, sizes, owner[r.lo]))
    && (forall id: nat {:trigger blocks[id]} :: id in live && id < |blocks| ==> Extent(blocks[id], sizes[id]) in rs)
    && (forall j, k :: 0 <= j < k < |rs| ==> rs[j].lo != rs[k].lo)
  }

  /** a is one of the bytes that the driver fills for id. */
  ghost predicate PayloadByte(blocks: seq<nat>, sizes: seq<nat>, id: nat, a: nat) {
    id < |blocks| == |sizes| && blocks[id] <= a < blocks[id] + sizes[id]
  }

  /** An address is in a recorded range exactly if it is a payload byte of a live id. */
  lemma RangedBytes(rs: seq<Range>, blocks: seq<nat>, sizes: seq<nat>, live: set<nat>, owner: map<nat, nat>, a: nat)
    requires Ranged(rs, blocks, sizes, live, owner) && forall id: nat :: id in live ==> id < |blocks|
    ensures (exists r :: r in rs && r.lo <= a <= r.hi) <==>
            (exists id: nat :: id in live && PayloadByte(blocks, sizes, id, a))
  {
    if exists r :: r in rs && r.lo <= a <= r.hi {
      var r :| r in rs && r.lo <= a <= r.hi;
      assert PayloadByte(blocks, sizes, owner[r.lo], a);
    }
    if exists id: nat :: id in live && PayloadByte(blocks, sizes, id, a) {
      var id: nat :| id in live && PayloadByte(blocks, sizes, id, a);
      assert Extent(blocks[id], sizes[id]) in rs;
    }
  }

  lemma FilledBytes(m: Mem, blocks: seq<nat>, sizes: seq<nat>, live: set<nat>, a: nat)
    requires Filled(m, blocks, sizes, live) && a < |m|
    ensures forall id: nat :: id in live && PayloadByte(blocks, sizes, id, a) ==> m[a] == id % 256
  {
    forall id: nat | id in live && PayloadByte(blocks, sizes, id, a) ensures m[a] == id % 256 {
      assert FilledAt(m, blocks[id], sizes[id], id % 256);
    }
  }

  lemma RangedAdd(rs: seq<Range>, blocks: seq<nat>, sizes: seq<nat>, live: set<nat>, owner: map<nat, nat>, id: nat,
      p: nat, size: nat)
    requires Ranged(rs, blocks, sizes, live, owner) && id < |blocks| && id !in live && p !in owner && size > 0
    ensures Ranged([Extent(p, size)] + rs, blocks[id := p], sizes[id := size], live + {id}, owner[p := id])
  {
    var n := Extent(p, size);
    var rs' := [n] + rs;
    forall r | r in rs'
      ensures r.lo in owner[p := id] && owner[p := id][r.lo] in live + {id}
      ensures RangeOf(r, blocks[id := p], sizes[id := size], owner[p := id][r.lo])
    {
      if r != n { assert r in rs; }
    }
    forall x: nat | x in live + {id} && x < |blocks|
      ensures Extent(blocks[id := p][x], sizes[id := size][x]) in rs'
    {
      if x == id {
        assert rs'[0] == n;
      } else {
        assert blocks[id := p][x] == blocks[x];
      }
    }
    forall j, k | 0 <= j < k < |rs'| ensures rs'[j].lo != rs'[k].lo {
      assert rs'[k] == rs[k - 1] && rs[k - 1] in rs;
      if j > 0 { assert rs'[j] == rs[j - 1]; }
    }
  }

  lemma RangedRemove(rs: seq<Range>, lv: map<nat, nat>, lo: nat, blocks: seq<nat>, sizes: seq<nat>, ids: Ids,
      owner: map<nat, nat>, id: nat)
    requires Booked(lv, lo, blocks, sizes, ids, owner) && Ranged(rs, blocks, sizes, ids.live, owner)
    requires id in ids.live && id < |blocks|
    ensures Ranged(Removed(rs, blocks[id]), blocks, sizes, ids.live - {id}, owner - {blocks[id]})
  {
    var p := blocks[id];
    BookedFits(lv, lo, blocks, sizes, ids, owner, id);
    RemovedExact(rs, p);
    var rs' := Removed(rs, p);
    forall r | r in rs' ensures r.lo in owner - {p} && owner[r.lo] in ids.live - {id} {
      assert r in rs;
    }
    forall x: nat | x in ids.live - {id} && x < |blocks| ensures Extent(blocks[x], sizes[x]) in rs' {
      BookedFits(lv, lo, blocks, sizes, ids, owner, x);
      assert blocks[x] == blocks[x];
    }
  }

  /** remove_range of a null pointer removes nothing. */
  lemma {:induction false} RemovedNothing(rs: seq<Range>, lo: nat)
    requires forall r :: r in rs ==> r.lo != lo
    ensures Removed(rs, lo) == rs
  {
    if rs != [] {
      assert rs[0] in rs;
      forall r | r in rs[1..] ensures r.lo != lo {
      }
      RemovedNothing(rs[1..], lo);
    }
  }

  /** The blocks of lv are in lv1. */
  ghost predicate Keeps(lv: map<nat, nat>, lv1: map<nat, nat>) {
    forall q {:trigger q in lv} {:trigger lv[q]} :: q in lv ==> q in lv1 && lv1[q] == lv[q]
  }

  /** add_range accepts the payload of a newly allocated block. */
  lemma NewRangeAccepted(h: Heap, lo: nat, brk: nat, start: nat, rs: seq<Range>, lv: map<nat, nat>, blocks: seq<nat>,
      sizes: seq<nat>, ids: Ids, owner: map<nat, nat>, p: nat, size: nat)
    requires Sound(h, lo, brk) && start <= lo && p in Live(h) && p != lo && 0 < size && size + 8 <= Live(h)[p]
    requires Booked(lv, lo, blocks, sizes, ids, owner) && Ranged(rs, blocks, sizes, ids.live, owner) && p !in lv
    requires Keeps(lv, Live(h))
    ensures p % 8 == 0 && start <= p && p + size <= brk
    ensures forall r {:trigger r in rs} :: r in rs ==>
      !(r.lo <= p <= r.hi) && !(r.lo <= p + size - 1 <= r.hi)
  {
    hide Sound, Live;
    PayloadsPlaced(h, lo, brk, p, p);
    forall r | r in rs ensures !(r.lo <= p <= r.hi) && !(r.lo <= p + size - 1 <= r.hi) {
      var id := owner[r.lo];
      BookedFits(lv, lo, blocks, sizes, ids, owner, id);
      PayloadsPlaced(h, lo, brk, p, blocks[id]);
    }
  }

  // ---------------------------------------------------------------------------
  // Utilisation: the sum of the live request sizes, and the room it needs
  // ---------------------------------------------------------------------------

  /** The last requested size of every live id after k requests. */
  function Requested(ops: seq<Op>, k: nat): map<nat, nat>
    requires k <= |ops|
  {
    if k == 0 then map[] else
      var r := Requested(ops, k - 1);
      match ops[k - 1]
      case Free(id) => r - {id}
      case _ => r[ops[k - 1].id := ops[k - 1].size]
  }

  lemma {:induction false} RequestedLive(ops: seq<Op>, k: nat)
    requires k <= |ops|
    ensures Requested(ops, k).Keys == After(ops, k).live && After(ops, k).live <= After(ops, k).used
  {
    if k > 0 {
      RequestedLive(ops, k - 1);
    }
  }

  /** The sum of the sizes that r gives to ids below n. */
  function Sum(r: map<nat, nat>, n: nat): nat {
    if n == 0 then 0 else Sum(r, n - 1) + (if n - 1 in r then r[n - 1] else 0)
  }

  /** The largest sum of live request sizes after any of the first k requests. */
  function Peak(ops: seq<Op>, k: nat, n: nat): nat
    requires k <= |ops|
  {
    var s := Sum(Requested(ops, k), n);
    if k == 0 then s else
      var p := Peak(ops, k - 1, n);
      if s > p then s else p
  }

  lemma {:induction false} SumAbove(r: map<nat, nat>, n: nat, id: nat, v: nat)
    requires id >= n
    ensures Sum(r[id := v], n) == Sum(r, n) && Sum(r - {id}, n) == Sum(r, n)
  {
    if n > 0 {
      SumAbove(r, n - 1, id, v);
    }
  }

  lemma {:induction false} SumUpdate(r: map<nat, nat>, n: nat, id: nat, v: nat)
    requires id < n
    ensures Sum(r[id := v], n) == Sum(r, n) - (if id in r then r[id] else 0) + v
    ensures Sum(r - {id}, n) == Sum(r, n) - (if id in r then r[id] else 0)
  {
    if id == n - 1 {
      SumAbove(r, n - 1, id, v);
    } else {
      SumUpdate(r, n - 1, id, v);
    }
  }

  lemma {:induction false} SumEmpty(n: nat)
    ensures Sum(map[], n) == 0
  {
    if n > 0 {
      SumEmpty(n - 1);
    }
  }

  lemma MaxPointer(s: set<nat>, b: seq<nat>) returns (x: nat)
    requires s != {} && forall id :: id in s ==> id < |b|
    ensures x in s && forall id :: id in s ==> b[id] <= b[x]
  {
    x :| x in s;
    var first, t := x, s - {x};
    if t != {} {
      var y := MaxPointer(t, b);
      if b[y] > b[x] {
        x := y;
      }
    }
    forall id | id in s ensures b[id] <= b[x] {
      if id != first {
        assert id in t;
      }
    }
  }

  /** Disjoint nonempty intervals inside lo..hi-1 have at most hi-lo elements altogether. */
  lemma {:induction false} Packed(r: map<nat, nat>, b: seq<nat>, lo: nat, hi: nat)
    requires lo <= hi
    requires forall id {:trigger r[id]} :: id in r ==> id < |b| && r[id] > 0 && lo <= b[id] && b[id] + r[id] <= hi
    requires forall x, y {:trigger r[x], r[y]} :: x in r && y in r && x != y ==>
      x < |b| && y < |b| && (b[x] + r[x] <= b[y] || b[y] + r[y] <= b[x])
    ensures Sum(r, |b|) <= hi - lo
    decreases |r.Keys|
  {
    if r.Keys == {} {
      assert r == map[];
      SumEmpty(|b|);
    } else {
      forall id | id in r.Keys ensures id < |b| {
        assert r[id] > 0;
      }
      var x := MaxPointer(r.Keys, b);
      assert r[x] > 0;
      var r' := r - {x};
      assert r'.Keys == r.Keys - {x};
      SumUpdate(r, |b|, x, 0);
      forall id | id in r' ensures b[id] + r'[id] <= b[x] {
        assert r'[id] == r[id];
      }
      Packed(r', b, lo, b[x]);
    }
  }
}
