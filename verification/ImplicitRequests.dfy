/** Which requests of a trace the implicit allocator refuses or dies of, and what the others
    make of its heap, its next-fit cursor and trace->blocks. All of it is determined by the
    heap before the request, and so are whole runs. */
module ImplicitRequests {
  import opened Blocks
  import opened LiveBlocks
  import opened ImplicitHeap
  import opened Implicit
  import opened Books
  import opened Records
  import opened Runs

  /** The blocks, the cursor (0 unless the strategy is next fit), and trace->blocks, between
      two requests. */
  datatype Stage = Stage(sp: Space, cur: nat, b: seq<nat>)

  /** The allocator answers the request with NULL: a malloc because no free block has room and
      the heap cannot grow, a realloc because it is stuck. */
  ghost predicate Refuses(x: Stage, limit: nat, op: Op, ids: Ids) {
    && !op.Free? && op.id < |x.b|
    && if op.id in ids.live then x.b[op.id] in x.sp.h && Stuck(x.sp, limit, x.b[op.id], op.size)
       else NoFit(x.sp.h, Align(op.size)) && NoRoom(x.sp, limit, Align(op.size) + 8)
  }

  /** The program dies: the last block has to grow, and mem_sbrk refuses. */
  ghost predicate Dies(x: Stage, limit: nat, op: Op, ids: Ids) {
    && op.Realloc? && op.id in ids.live && op.id < |x.b|
    && x.b[op.id] in x.sp.h && TailRefused(x.sp, limit, x.b[op.id], op.size)
  }

  /** What the driver answers to the request. */
  ghost function Outcome(x: Stage, limit: nat, op: Op, ids: Ids): Verdict {
    if Dies(x, limit, op, ids) then Crash
    else if Refuses(x, limit, op, ids) || Misread(op, ids) then Fail
    else Pass
  }

  /** Where malloc puts a new block: in the free block that the strategy picks, if there is
      one, or else at the end of the heap, in the free last block if there is one. */
  ghost predicate PutAt(strategy: Strategy, x: Stage, p: nat, size: nat) {
    if NoFit(x.sp.h, Align(size)) then MergeStart(x.sp.h, x.sp.brk, p)
    else Picked(strategy, x.sp.h, x.cur, Align(size), p)
  }

  /** What an accepted request makes of x. */
  ghost predicate Step(strategy: Strategy, x: Stage, y: Stage, op: Op, ids: Ids) {
    op.id < |x.b| &&
    if op.Free? then
      && y.sp == x.sp.(h := FreedHeap(x.sp.h, x.b[op.id])) && y.b == x.b
      && y.cur == if strategy.NextFit? then MergePoint(x.sp.h, x.b[op.id]) else 0
    else
      && op.id < |y.b| && y.b == x.b[op.id := y.b[op.id]]
      && var ptr, p, n := x.b[op.id], y.b[op.id], Align(op.size) + 8;
         && y.cur == (if strategy.NextFit? then p else 0)
         && if op.id !in ids.live then y.sp == Allotted(x.sp, p, n) && PutAt(strategy, x, p, op.size)
            else ptr in x.sp.h && Destination(x.sp, ptr, op.size, p) && y.sp == Reshaped(x.sp, ptr, p, n)
  }

  /** The requests that are neither refused nor fatal. */
  ghost function Accepts(strategy: Strategy, limit: nat): Acceptance<Stage> {
    (x: Stage, y: Stage, op: Op, ids: Ids) =>
      Shaped(x.sp) && Step(strategy, x, y, op, ids) && !Refuses(x, limit, op, ids) && !Dies(x, limit, op, ids)
  }

  // ---------------------------------------------------------------------------
  // The state before a request determines the one after it
  // ---------------------------------------------------------------------------

  lemma PickedUnique(strategy: Strategy, h: Heap, cur: nat, size: nat, p: nat, q: nat)
    requires Picked(strategy, h, cur, size, p) && Picked(strategy, h, cur, size, q)
    ensures p == q
  {
    assert h[p] == h[p] && h[q] == h[q];
  }

  lemma EndsUnique(sp: Space, p: nat, q: nat)
    requires Shaped(sp) && p in sp.h && q in sp.h && p + sp.h[p].size == q + sp.h[q].size
    ensures p == q
  {
    BlockBounds(sp, p);
    BlockBounds(sp, q);
    NoneInside(sp.h, sp.lo, sp.brk, p);
    NoneInside(sp.h, sp.lo, sp.brk, q);
  }

  lemma DestinationUnique(sp: Space, ptr: nat, size: nat, p: nat, q: nat)
    requires Shaped(sp) && ptr in sp.h && Destination(sp, ptr, size, p) && Destination(sp, ptr, size, q)
    ensures p == q
  {
    hide MergeStart, Align;
    if MergeStart(sp.h, sp.brk, p) && MergeStart(sp.h, sp.brk, q) {
      MergeStartUnique(sp.h, sp.lo, sp.brk, sp.brk, p, q);
    }
    if p in sp.h && q in sp.h && p + sp.h[p].size == q + sp.h[q].size {
      EndsUnique(sp, p, q);
    }
  }

  lemma StepUnique(strategy: Strategy, x: Stage, y: Stage, z: Stage, op: Op, ids: Ids)
    requires Shaped(x.sp) && Step(strategy, x, y, op, ids) && Step(strategy, x, z, op, ids)
    ensures y == z
  {
    hide Shaped, Picked, Destination, MergeStart, Align, NoFit, Allotted, Reshaped, FreedHeap, MergePoint;
    if !op.Free? {
      var p, q := y.b[op.id], z.b[op.id];
      if op.id in ids.live {
        DestinationUnique(x.sp, x.b[op.id], op.size, p, q);
      } else if NoFit(x.sp.h, Align(op.size)) {
        ShapedLayout(x.sp);
        MergeStartUnique(x.sp.h, x.sp.lo, x.sp.brk, x.sp.brk, p, q);
      } else {
        PickedUnique(strategy, x.sp.h, x.cur, Align(op.size), p, q);
      }
    }
  }

  lemma ShapedLayout(sp: Space)
    requires Shaped(sp)
    ensures Layout(sp.h, sp.lo, sp.brk)
  {
  }

  lemma AcceptsFunctional(strategy: Strategy, limit: nat)
    ensures Functional(Accepts(strategy, limit))
  {
    hide Step, Refuses, Dies, Shaped;
    var accepts := Accepts(strategy, limit);
    forall x, y, z, op, ids | accepts(x, y, op, ids) && accepts(x, z, op, ids) ensures y == z {
      StepUnique(strategy, x, y, z, op, ids);
    }
  }

  /** A run that gets through the whole trace, or ends at a refused or fatal request. */
  lemma RunRefused(strategy: Strategy, run: seq<Stage>, x: Stage, limit: nat, ops: seq<Op>)
    requires Run(Accepts(strategy, limit), run, x, ops)
    requires var k := |run| - 1;
      0 <= k < |ops| ==> Refuses(run[k], limit, ops[k], After(ops, k)) || Dies(run[k], limit, ops[k], After(ops, k))
    ensures Completes(Accepts(strategy, limit), x, ops) <==> |run| == |ops| + 1
  {
    hide Step, Refuses, Dies, Shaped, After;
    AcceptsFunctional(strategy, limit);
    RunEnds(Accepts(strategy, limit), run, x, ops);
  }

  /** The driver accepts exactly if the run completes and no request is misread. */
  lemma Judged(strategy: Strategy, run: seq<Stage>, x: Stage, limit: nat, ops: seq<Op>, v: Verdict)
    requires Run(Accepts(strategy, limit), run, x, ops)
    requires forall j :: 0 <= j < |run| - 1 && j < |ops| ==> !Misread(ops[j], After(ops, j))
    requires v == Pass <==> |run| == |ops| + 1
    requires var k := |run| - 1;
      0 <= k < |ops| ==> v == Outcome(run[k], limit, ops[k], After(ops, k))
    ensures v == Pass <==> Completes(Accepts(strategy, limit), x, ops) && !HasMisread(ops)
  {
    hide Run, Accepts, Completes, Refuses, Dies, Misread, After;
    RunLength(Accepts(strategy, limit), run, x, ops);
    var k := |run| - 1;
    if k == |ops| || Refuses(run[k], limit, ops[k], After(ops, k)) || Dies(run[k], limit, ops[k], After(ops, k)) {
      RunRefused(strategy, run, x, limit, ops);
    }
  }

  // ---------------------------------------------------------------------------
  // The allocator's answers
  // ---------------------------------------------------------------------------

  /** A malloc, or a realloc of a never-used id. */
  lemma NewBlock(strategy: Strategy, x: Stage, y: Stage, cur: nat, limit: nat, op: Op, ids: Ids, p: nat)
    requires Shaped(x.sp) && !op.Free? && op.id < |x.b| && op.id !in ids.live && (strategy.NextFit? ==> cur == x.cur)
    requires p == 0 <==> NoFit(x.sp.h, Align(op.size)) && NoRoom(x.sp, limit, Align(op.size) + 8)
    requires p != 0 ==> y.sp == Allotted(x.sp, p, Align(op.size) + 8)
    requires p != 0 && y.sp.brk == x.sp.brk ==> Picked(strategy, x.sp.h, cur, Align(op.size), p)
    requires p != 0 && y.sp.brk != x.sp.brk ==> MergeStart(x.sp.h, x.sp.brk, p)
    requires p != 0 ==> (y.sp.brk == x.sp.brk <==> !NoFit(x.sp.h, Align(op.size)))
    requires p != 0 ==> y.b == x.b[op.id := p] && y.cur == if strategy.NextFit? then p else 0
    ensures p == 0 <==> Refuses(x, limit, op, ids)
    ensures !Dies(x, limit, op, ids)
    ensures p != 0 ==> Accepts(strategy, limit)(x, y, op, ids)
  {
    hide NoFit, NoRoom, Align, Allotted, MergeStart, Shaped;
  }

  /** A realloc of a live id. */
  lemma ResizedBlock(strategy: Strategy, x: Stage, y: Stage, limit: nat, op: Op, ids: Ids, p: nat, fault: bool)
    requires Shaped(x.sp) && op.Realloc? && op.id < |x.b| && op.id in ids.live && x.b[op.id] in x.sp.h
    requires fault <==> TailRefused(x.sp, limit, x.b[op.id], op.size)
    requires p == 0 <==> fault || Stuck(x.sp, limit, x.b[op.id], op.size)
    requires p != 0 ==>
      Destination(x.sp, x.b[op.id], op.size, p) && y.sp == Reshaped(x.sp, x.b[op.id], p, Align(op.size) + 8)
    requires p != 0 ==> y.b == x.b[op.id := p] && y.cur == if strategy.NextFit? then p else 0
    ensures fault <==> Dies(x, limit, op, ids)
    ensures p == 0 <==> Dies(x, limit, op, ids) || Refuses(x, limit, op, ids)
    ensures p != 0 ==> Accepts(strategy, limit)(x, y, op, ids)
  {
    hide TailRefused, Stuck, Destination, Reshaped, Align, Shaped;
  }

  lemma FreedBlock(strategy: Strategy, x: Stage, y: Stage, limit: nat, op: Op, ids: Ids)
    requires Shaped(x.sp) && op.Free? && op.id < |x.b| && y.b == x.b
    requires y.sp == x.sp.(h := FreedHeap(x.sp.h, x.b[op.id]))
    requires y.cur == if strategy.NextFit? then MergePoint(x.sp.h, x.b[op.id]) else 0
    ensures Outcome(x, limit, op, ids) == Pass && Accepts(strategy, limit)(x, y, op, ids)
    ensures !Refuses(x, limit, op, ids) && !Dies(x, limit, op, ids)
  {
    hide Shaped, FreedHeap, MergePoint;
  }
}
