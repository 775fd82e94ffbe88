/** Which requests of a trace the segregated allocator refuses, and what the others make of
    its heap, its free lists and trace->blocks. All of it is determined by the state before
    the request, and so are whole runs. */
module Requests {
  import opened Memory
  import opened Blocks
  import opened LiveBlocks
  import opened SizeClass
  import opened SegregateHeap
  import opened HeapView
  import opened ListView
  import opened Books
  import opened Records
  import opened Runs

  /** The blocks with slot 0, the other free lists, and trace->blocks, between two requests. */
  datatype Stage = Stage(v: View, l: Lists, b: seq<nat>)

  /** malloc returns NULL: no free block has room, and neither is there any above brk. */
  ghost predicate Full(v: View, limit: nat, size: nat) {
    NoFit(v.h, Align(size)) && v.brk + Align(size) + 8 > limit
  }

  /** A malloc, or a realloc that would have to move, when there is no room. */
  ghost predicate Refuses(x: Stage, limit: nat, op: Op, ids: Ids) {
    && !op.Free? && op.id < |x.b| && Full(x.v, limit, op.size)
    && (op.id in ids.live ==> x.b[op.id] in x.v.h && x.v.h[x.b[op.id]].size < Align(op.size) + 8)
  }

  /** What the driver answers to the request. A realloc that cannot move kills the program,
      because it copies to NULL. */
  ghost function Outcome(x: Stage, limit: nat, op: Op, ids: Ids): Verdict {
    if Refuses(x, limit, op, ids) then if op.id in ids.live then Crash else Fail
    else if Misread(op, ids) then Fail
    else Pass
  }

  /** Where malloc puts a new block: in the first free block with room of the lowest list that
      has one, or else at the end of the heap. */
  ghost predicate Placed(x: Stage, p: nat, size: nat) {
    if NoFit(x.v.h, Align(size)) then p == x.v.brk else Found(x.l, x.v.h, size, p)
  }

  /** What an accepted request makes of x. */
  ghost predicate Step(x: Stage, y: Stage, op: Op, ids: Ids) {
    op.id < |x.b| &&
    if op.Free? then
      x.b[op.id] in x.v.h && y == Stage(Freed(x.v, x.b[op.id]), ListsFreed(x.l, x.v.h, x.b[op.id]), x.b)
    else
      && op.id < |y.b| && y.b == x.b[op.id := y.b[op.id]]
      && var ptr, p, n := x.b[op.id], y.b[op.id], Align(op.size) + 8;
         if op.id !in ids.live then
           y.v == Taken(x.v, p, n) && y.l == ListsTaken(x.l, x.v.h, p, n) && Placed(x, p, op.size)
         else
           && ptr in x.v.h && y.v == Refitted(x.v, ptr, p, n) && y.l == ListsRefitted(x.l, x.v, ptr, p, n)
           && if n <= x.v.h[ptr].size then p == ptr else Placed(x, p, op.size)
  }

  /** The requests that are not refused. */
  ghost function Accepts(limit: nat): Acceptance<Stage> {
    (x: Stage, y: Stage, op: Op, ids: Ids) => Ordered(x.l.nd) && Step(x, y, op, ids) && !Refuses(x, limit, op, ids)
  }

  lemma StepUnique(x: Stage, y: Stage, z: Stage, op: Op, ids: Ids)
    requires Ordered(x.l.nd) && Step(x, y, op, ids) && Step(x, z, op, ids)
    ensures y == z
  {
    hide Found, Ordered, Align, NoFit, Taken, Refitted, ListsTaken, ListsRefitted, Freed, ListsFreed;
    if !op.Free? && !NoFit(x.v.h, Align(op.size)) {
      var p, q := y.b[op.id], z.b[op.id];
      if Found(x.l, x.v.h, op.size, p) && Found(x.l, x.v.h, op.size, q) {
        FoundUnique(x.l, x.v.h, op.size, p, q);
      }
    }
  }

  lemma AcceptsFunctional(limit: nat)
    ensures Functional(Accepts(limit))
  {
    hide Step, Refuses, Ordered;
    forall x, y, z, op, ids | Accepts(limit)(x, y, op, ids) && Accepts(limit)(x, z, op, ids) ensures y == z {
      StepUnique(x, y, z, op, ids);
    }
  }

  /** A run that gets through the whole trace, or ends at a refused request. */
  lemma RunRefused(run: seq<Stage>, x: Stage, limit: nat, ops: seq<Op>)
    requires Run(Accepts(limit), run, x, ops)
    requires |run| <= |ops| ==> Refuses(run[|run| - 1], limit, ops[|run| - 1], After(ops, |run| - 1))
    ensures Completes(Accepts(limit), x, ops) <==> |run| == |ops| + 1
  {
    hide Step, Refuses, Ordered, After;
    AcceptsFunctional(limit);
    RunEnds(Accepts(limit), run, x, ops);
  }

  /** The driver accepts exactly if the run completes and no request is misread. If it stops
      early for lack of room, then the trace demands more memory than there is. */
  lemma Judged(run: seq<Stage>, x: Stage, limit: nat, ops: seq<Op>, v: Verdict, brk: nat, room: nat)
    requires Run(Accepts(limit), run, x, ops)
    requires (v == Pass <==> |run| == |ops| + 1) && forall j :: 0 <= j < |run| - 1 ==> !Misread(ops[j], After(ops, j))
    requires var k := |run| - 1;
      v != Pass ==>
        && v == Outcome(run[k], limit, ops[k], After(ops, k))
        && ((v == Fail && Misread(ops[k], After(ops, k)))
            || (brk + Need(ops[k]) > limit && brk + room <= limit + Demand(ops, k)))
    ensures v == Pass <==> Completes(Accepts(limit), x, ops) && !HasMisread(ops)
    ensures Demand(ops, |ops|) <= room ==> v != Crash && (v == Pass <==> !HasMisread(ops))
  {
    hide After, Need, Misread, Refuses, Step, Completes, Run;
    RunLength(Accepts(limit), run, x, ops);
    var k := |run| - 1;
    if k == |ops| || Refuses(run[k], limit, ops[k], After(ops, k)) {
      RunRefused(run, x, limit, ops);
    }
    if k < |ops| {
      DemandMonotone(ops, k + 1, |ops|);
    }
  }

  // ---------------------------------------------------------------------------
  // The allocator's answers
  // ---------------------------------------------------------------------------

  lemma MallocPlaced(m: Mem, s: State, x: Stage, brk': nat, limit: nat, size: nat, p: nat)
    requires Core(m, s) && x.v.h == s.ar.h && x.v.brk == s.ar.brk && x.l == Lists(s.nd, s.ctr) && brk' <= limit
    requires if brk' == x.v.brk then Chosen(m, s, size, p)
             else p == x.v.brk && brk' == p + Align(size) + 8 && NoFit(x.v.h, Align(size))
    ensures Placed(x, p, size) && !Full(x.v, limit, size)
  {
    hide Core, Chosen, Found, NoFit, Align;
    if brk' == x.v.brk {
      ChosenFits(m, s, size, p);
      ChosenFound(m, s, size, p);
    }
  }

  /** A malloc, or a realloc of a never-used id. */
  lemma NewBlock(m: Mem, s: State, x: Stage, y: Stage, limit: nat, op: Op, ids: Ids, p: nat)
    requires Core(m, s) && x.v.h == s.ar.h && x.v.brk == s.ar.brk && x.l == Lists(s.nd, s.ctr) && y.v.brk <= limit
    requires !op.Free? && op.id < |x.b| && op.id !in ids.live
    requires p == 0 ==> Full(x.v, limit, op.size)
    requires p != 0 ==> y.v == Taken(x.v, p, Align(op.size) + 8)
    requires p != 0 ==> y.l == ListsTaken(x.l, x.v.h, p, Align(op.size) + 8) && y.b == x.b[op.id := p]
    requires p != 0 ==> if y.v.brk == x.v.brk then Chosen(m, s, op.size, p)
                        else p == x.v.brk && y.v.brk == p + Align(op.size) + 8 && NoFit(x.v.h, Align(op.size))
    ensures Outcome(x, limit, op, ids) == if p == 0 then Fail else Pass
    ensures p == 0 <==> Refuses(x, limit, op, ids)
    ensures p != 0 ==> Accepts(limit)(x, y, op, ids)
  {
    hide Core, Chosen, Found, NoFit, Align, Full, Taken, ListsTaken, Placed, Ordered;
    ListsOrdered(m, s);
    if p != 0 {
      MallocPlaced(m, s, x, y.v.brk, limit, op.size, p);
    }
  }

  lemma FreedBlock(m: Mem, s: State, x: Stage, y: Stage, limit: nat, op: Op, ids: Ids)
    requires Core(m, s) && x.l == Lists(s.nd, s.ctr) && op.Free? && op.id < |x.b| && x.b[op.id] in Live(x.v.h)
    requires y.v == Freed(x.v, x.b[op.id]) && y.b == x.b
    requires x.b[op.id] in x.v.h ==> y.l == ListsFreed(x.l, x.v.h, x.b[op.id])
    ensures Outcome(x, limit, op, ids) == Pass && Accepts(limit)(x, y, op, ids)
  {
    hide Core, Ordered, Freed, ListsFreed, Live;
    LiveIff(x.v.h, x.b[op.id]);
    ListsOrdered(m, s);
  }

  /** A realloc of a live id. */
  lemma ResizedBlock(m: Mem, s: State, x: Stage, y: Stage, limit: nat, op: Op, ids: Ids, p: nat, fault: bool)
    requires Core(m, s) && x.v.h == s.ar.h && x.v.brk == s.ar.brk && x.l == Lists(s.nd, s.ctr) && y.v.brk <= limit
    requires op.Realloc? && op.id < |x.b| && op.id in ids.live && x.b[op.id] in Live(x.v.h)
    requires var ptr, n := x.b[op.id], Align(op.size) + 8;
      if fault then Full(x.v, limit, op.size) && n > Live(x.v.h)[ptr]
      else
        && y.v == Refitted(x.v, ptr, p, n) && y.l == ListsRefitted(x.l, x.v, ptr, p, n) && y.b == x.b[op.id := p]
        && (p == ptr <==> n <= Live(x.v.h)[ptr])
        && (p != ptr ==> if y.v.brk == x.v.brk then Chosen(m, s, n - 8, p)
                         else p == x.v.brk && y.v.brk == p + n && NoFit(x.v.h, n - 8))
    ensures Outcome(x, limit, op, ids) == if fault then Crash else if Misread(op, ids) then Fail else Pass
    ensures fault <==> Refuses(x, limit, op, ids)
    ensures !fault ==> Accepts(limit)(x, y, op, ids)
  {
    hide Core, Chosen, Found, NoFit, Align, Full, Refitted, ListsRefitted, Placed, Ordered, Live;
    var ptr := x.b[op.id];
    LiveIff(x.v.h, ptr);
    ListsOrdered(m, s);
    if !fault && p != ptr {
      AlignTwice(op.size);
      MallocPlaced(m, s, x, y.v.brk, limit, Align(op.size), p);
      SameFit(x, limit, p, op.size);
    }
  }

  /** A size and its aligned size are searched for alike. */
  lemma SameFit(x: Stage, limit: nat, p: nat, size: nat)
    ensures Placed(x, p, Align(size)) <==> Placed(x, p, size)
    ensures Full(x.v, limit, Align(size)) <==> Full(x.v, limit, size)
  {
    AlignTwice(size);
    FltClassOfAlign(size);
    hide Align, FltClass, NoFit;
    forall q ensures Suits(x.l, x.v.h, Align(size), q) <==> Suits(x.l, x.v.h, size, q) {
    }
  }
}
