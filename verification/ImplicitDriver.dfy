/** The evaluation loops of mdriver.c, run over the implicit allocator. */
module ImplicitDriver {
  import opened Memory
  import opened Blocks
  import opened LiveBlocks
  import opened ImplicitHeap
  import opened ImplicitTheorems
  import opened Ranges
  import opened Books
  import opened Records
  import opened ImplicitRequests
  import opened Runs
  import Implicit

  /** Every recorded block has exactly the aligned size that was requested last. */
  ghost predicate Snug(lv: map<nat, nat>, b: seq<nat>, z: seq<nat>, live: set<nat>) {
    forall id: nat {:trigger id in live} ::
      id in live && id < |b| && id < |z| && b[id] in lv ==> lv[b[id]] == Align(z[id]) + 8
  }

  /** No request is a realloc of a live id. */
  ghost predicate MallocFree(ops: seq<Op>, k: nat) {
    forall j :: 0 <= j < k && j < |ops| ==> !(ops[j].Realloc? && ops[j].id in After(ops, j).live)
  }

  class Evaluation {
    const a: Implicit.Allocator
    const ledger: Ledger

    constructor (a: Implicit.Allocator, ledger: Ledger)
      requires a.lib == ledger.lib
      ensures this.a == a && this.ledger == ledger
    {
      this.a, this.ledger := a, ledger;
    }

    /** The heap is well formed, the next-fit cursor is a block, the ledger agrees with the
        heap about the live ids, and no block is larger than it has to be. */
    ghost predicate Books(ids: Ids)
      reads a, a.lib, a.lib.mem, ledger, ledger.blocks, ledger.sizes, ledger.ranges, ledger.ranges.nodes
    {
      && ledger.lib == a.lib && a.Valid() && a.CursorOk() && ledger.Agrees(a.sp.h, a.sp.lo, ids)
      && Snug(Live(a.sp.h), ledger.blocks[..], ledger.sizes[..], ids.live)
    }

    ghost function Now(): Stage
      reads a, a.lib, a.lib.mem, ledger.blocks
    {
      Stage(a.sp, if a.strategy.NextFit? then a.curp else 0, ledger.blocks[..])
    }

    /** case ALLOC */
    method DoAlloc(id: nat, size: nat, ghost ids: Ids) returns (v: Verdict)
      requires Books(ids) && Legal(Alloc(id, size), ids, ledger.blocks.Length, 1)
      modifies a`sp, a`curp, a.lib`brk, a.lib`enomem, a.lib.mem
      modifies ledger, ledger.blocks, ledger.sizes, ledger.ranges, ledger.ranges.nodes
      ensures old(a.lib.brk) <= a.lib.brk <= old(a.lib.brk) + Align(size) + 8
      ensures v == Pass ==> Books(Next(Alloc(id, size), ids)) && (Apart(old(a.sp.h), 0) ==> Apart(a.sp.h, 0))
      ensures v == Pass ==> forall x :: x in ledger.ranges.nodes ==> x in old(ledger.ranges.nodes) || fresh(x)
      ensures v == Outcome(old(Now()), a.lib.mem.Length, Alloc(id, size), ids)
      ensures v == Pass ==> Accepts(a.strategy, a.lib.mem.Length)(old(Now()), Now(), Alloc(id, size), ids)
      ensures v != Pass ==> v == Fail && a.Valid() && a.sp == old(a.sp) && ledger.blocks[..] == old(ledger.blocks[..])
    {
      hide Framed, Booked, Filled, Ranged, Live, LiveKept, Gained, Only, NoFit, NoRoom, Apart, Align, Sound, Joins,
           Snug, Implicit.Picked, Allotted, MergeStart, Accepts, Refuses, Dies, Shaped;
      ghost var m, sp0, b, z := a.lib.mem[..], a.sp, ledger.blocks[..], ledger.sizes[..];
      ghost var lo, lv, x := sp0.lo, Live(sp0.h), Now();
      var p := a.Malloc(size);
      FramedShape(m, sp0, {});
      NewBlock(a.strategy, x, Now().(b := b[id := p]), old(a.curp), a.lib.mem.Length, Alloc(id, size), ids, p);
      if p == 0 {
        return Fail;
      }
      ghost var m1, sp := a.lib.mem[..], a.sp;
      AllottedLo(sp0, p, Align(size) + 8);
      ExactJoins(lv, Live(sp.h), p, size);
      Soundness(m1, sp);
      JoinsRoom(lv, sp.h, lo, sp.brk, p, size);
      BookedPointers(lv, lo, b, z, ids, ledger.owner);
      FilledKept(m, m1, sp0.h, 0, lo, b, z, ids, ledger.owner, ids.live);
      SnugAdd(lv, lo, b, z, ids, ledger.owner, id, p, size);
      var ok := ledger.Add(id, p, size, sp.h, lo, lv, ids);
      if !ok {
        return Fail;
      }
      InnerWrite(m1, a.lib.mem[..], sp, {}, p, p, size);
      return Pass;
    }

    /** case FREE */
    method DoFree(id: nat, ghost ids: Ids)
      requires Books(ids) && Legal(Free(id), ids, ledger.blocks.Length, 1)
      modifies a`sp, a`curp, a.lib.mem, ledger, ledger.ranges, ledger.ranges.nodes
      ensures Books(Next(Free(id), ids)) && (Apart(old(a.sp.h), 0) ==> Apart(a.sp.h, 0))
      ensures Outcome(old(Now()), a.lib.mem.Length, Free(id), ids) == Pass
      ensures var limit := a.lib.mem.Length;
        !Refuses(old(Now()), limit, Free(id), ids) && !Dies(old(Now()), limit, Free(id), ids)
      ensures Accepts(a.strategy, a.lib.mem.Length)(old(Now()), Now(), Free(id), ids)
      ensures forall x :: x in ledger.ranges.nodes ==> x in old(ledger.ranges.nodes)
    {
      hide Framed, Booked, Filled, Ranged, Live, LiveKept, Apart, FreedHeap, MergePoint, Snug, Accepts, Outcome,
           Refuses, Dies, Shaped;
      ghost var m, h, lo, b, z := a.lib.mem[..], a.sp.h, a.sp.lo, ledger.blocks[..], ledger.sizes[..];
      ghost var owner, sp0, x := ledger.owner, a.sp, Now();
      FramedShape(m, sp0, {});
      var p := ledger.Forget(id, h, lo, ids);
      a.Free(p);
      FreedBlock(a.strategy, x, Now(), a.lib.mem.Length, Free(id), ids);
      FilledKept(m, a.lib.mem[..], h, p, lo, b, z, ids, owner, ids.live - {id});
      SnugDrop(Live(h), b, z, ids.live, id, p);
    }

    /** mm_realloc on the block of an id, if it has one. */
    method Resize(id: nat, size: nat, ghost ids: Ids) returns (oldp: nat, newp: nat, fault: bool)
      requires ledger.lib == a.lib && ledger.Wired() && a.Valid() && a.CursorOk()
      requires Booked(Live(a.sp.h), a.sp.lo, ledger.blocks[..], ledger.sizes[..], ids, ledger.owner)
      requires Legal(Realloc(id, size), ids, ledger.blocks.Length, 1)
      modifies a`sp, a`curp, a.lib`brk, a.lib`enomem, a.lib.mem
      ensures a.Valid() && a.sp.lo == old(a.sp.lo) && oldp == ledger.blocks[id]
      ensures old(a.lib.brk) <= a.lib.brk <= old(a.lib.brk) + Align(size) + 8
      ensures var x, limit, op := old(Now()), a.lib.mem.Length, Realloc(id, size);
        (fault <==> Dies(x, limit, op, ids)) && (newp == 0 <==> Dies(x, limit, op, ids) || Refuses(x, limit, op, ids))
      ensures newp == 0 ==> a.sp == old(a.sp)
      ensures newp != 0 ==> a.CursorOk()
      ensures newp != 0 ==>
        var y := Now().(b := ledger.blocks[..][id := newp]);
        Accepts(a.strategy, a.lib.mem.Length)(old(Now()), y, Realloc(id, size), ids)
      ensures newp != 0 ==>
        if id in ids.live then
          oldp != 0 && Resized(old(a.lib.mem[..]), a.lib.mem[..], old(a.sp.h), a.sp.h, oldp, newp, size)
        else oldp == 0 && ledger.sizes[id] == 0 && Gained(old(a.sp.h), a.sp.h, newp, size)
      ensures newp != 0 ==> newp in Live(a.sp.h) && Live(a.sp.h)[newp] == Align(size) + 8
      ensures LiveKept(old(a.lib.mem[..]), a.lib.mem[..], old(a.sp.h), oldp)
      ensures newp != 0 && id !in ids.live && Apart(old(a.sp.h), 0) ==> Apart(a.sp.h, 0)
    {
      hide Framed, Booked, Live, LiveKept, Gained, Resized, Reallocated, NoFit, NoRoom, Apart, Align, Stuck,
           TailRefused, Destination, Splinters, Allotted, Reshaped, FreedHeap, Implicit.Picked, MergeStart, MergePoint,
           Accepts, Refuses, Dies, Shaped;
      ghost var m, sp0, x, b, op := a.lib.mem[..], a.sp, Now(), ledger.blocks[..], Realloc(id, size);
      ghost var h := sp0.h;
      BookedAt(Live(h), sp0.lo, b, ledger.sizes[..], ids, ledger.owner, id);
      FramedShape(m, sp0, {});
      oldp := ledger.blocks[id];
      LiveIff(h, oldp);
      newp, fault := a.Realloc(oldp, size);
      ghost var y := Now().(b := b[id := newp]);
      if oldp == 0 {
        NewBlock(a.strategy, x, y, old(a.curp), a.lib.mem.Length, op, ids, newp);
        if newp != 0 {
          AllottedLo(sp0, newp, Align(size) + 8);
          ExactGained(h, a.sp.h, newp, size);
        }
      } else {
        ResizedBlock(a.strategy, x, y, a.lib.mem.Length, op, ids, newp, fault);
        if newp != 0 {
          ReshapedLo(sp0, oldp, newp, Align(size) + 8);
          ExactResized(m, a.lib.mem[..], h, a.sp.h, oldp, newp, size);
        }
      }
    }

    /** case REALLOC */
    method DoRealloc(id: nat, size: nat, ghost ids: Ids) returns (v: Verdict)
      requires Books(ids) && Legal(Realloc(id, size), ids, ledger.blocks.Length, 1)
      modifies a`sp, a`curp, a.lib`brk, a.lib`enomem, a.lib.mem
      modifies ledger, ledger.blocks, ledger.sizes, ledger.ranges, ledger.ranges.nodes
      ensures old(a.lib.brk) <= a.lib.brk <= old(a.lib.brk) + Align(size) + 8
      ensures v == Pass ==> Books(Next(Realloc(id, size), ids)) && !Misread(Realloc(id, size), ids)
      ensures v == Pass && id !in ids.live && Apart(old(a.sp.h), 0) ==> Apart(a.sp.h, 0)
      ensures v == Pass ==> forall x :: x in ledger.ranges.nodes ==> x in old(ledger.ranges.nodes) || fresh(x)
      ensures v == Outcome(old(Now()), a.lib.mem.Length, Realloc(id, size), ids)
      ensures v == Pass ==> Accepts(a.strategy, a.lib.mem.Length)(old(Now()), Now(), Realloc(id, size), ids)
      ensures (v != Pass && !Misread(Realloc(id, size), ids)) || v == Crash ==>
        a.Valid() && a.sp == old(a.sp) && ledger.blocks[..] == old(ledger.blocks[..])
    {
      hide Framed, Booked, Filled, FilledAt, Ranged, Live, LiveKept, Gained, Resized, Only, Apart, Align, Sound, Joins,
           Snug, Accepts, Refuses, Dies, Shaped;
      ghost var m, h, lo, b, z := a.lib.mem[..], a.sp.h, a.sp.lo, ledger.blocks[..], ledger.sizes[..];
      var oldp, newp, fault := Resize(id, size, ids);
      if fault {
        return Crash;
      }
      if newp == 0 {
        return Fail;
      }
      ghost var m1, sp := a.lib.mem[..], a.sp;
      ReplaceReady(m, m1, h, sp.h, lo, b, z, ids, ledger.owner, id, newp, size);
      Soundness(m1, sp);
      JoinsRoom(Live(h) - {oldp}, sp.h, lo, sp.brk, newp, size);
      SnugReplace(Live(h), Live(sp.h), lo, b, z, ids, ledger.owner, id, newp, size);
      var ok := ledger.Replace(id, oldp, newp, size, sp.h, lo, Live(h), ids);
      InnerWrite(m1, a.lib.mem[..], sp, {}, newp, newp, size);
      return if ok then Pass else Fail;
    }

    /** The switch over the request types. */
    method DoOp(op: Op, ghost ids: Ids) returns (v: Verdict)
      requires Books(ids) && Legal(op, ids, ledger.blocks.Length, 1)
      modifies a`sp, a`curp, a.lib`brk, a.lib`enomem, a.lib.mem
      modifies ledger, ledger.blocks, ledger.sizes, ledger.ranges, ledger.ranges.nodes
      ensures old(a.lib.brk) <= a.lib.brk <= old(a.lib.brk) + Need(op)
      ensures v == Pass ==> Books(Next(op, ids)) && !Misread(op, ids)
      ensures v == Pass && !(op.Realloc? && op.id in ids.live) && Apart(old(a.sp.h), 0) ==> Apart(a.sp.h, 0)
      ensures v == Pass ==> forall x :: x in ledger.ranges.nodes ==> x in old(ledger.ranges.nodes) || fresh(x)
      ensures v == Outcome(old(Now()), a.lib.mem.Length, op, ids)
      ensures v == Pass ==>
        && Accepts(a.strategy, a.lib.mem.Length)(old(Now()), Now(), op, ids)
        && !Refuses(old(Now()), a.lib.mem.Length, op, ids) && !Dies(old(Now()), a.lib.mem.Length, op, ids)
      ensures v == Crash || (v == Fail && !Misread(op, ids)) ==>
        a.Valid() && a.sp == old(a.sp) && a.lib.brk == old(a.lib.brk) && ledger.blocks[..] == old(ledger.blocks[..])
    {
      hide Booked, Filled, Ranged, Live, Align, Framed, Apart, Snug, Refuses, Dies, Accepts;
      match op {
        case Alloc(id, size) =>
          v := DoAlloc(id, size, ids);
        case Realloc(id, size) =>
          v := DoRealloc(id, size, ids);
        case Free(id) =>
          DoFree(id, ids);
          v := Pass;
      }
    }

    /** The start of eval_mm_valid, on a zeroed region. */
    method Begin()
      requires a.lib.Valid() && ledger.lib == a.lib && ledger.Blank() && Zeroed(a.lib.mem[..], a.lib.start)
      modifies a, a.lib`brk, a.lib`enomem, a.lib.mem, ledger, ledger.ranges
      ensures Books(Ids({}, {})) && ledger.ranges.nodes == [] && a.lib.brk == a.lib.start + 16 && Apart(a.sp.h, 0)
      ensures Now() == First(a.strategy, a.lib.start, old(ledger.blocks[..])) && a.listp == a.lib.start + 8
    {
      hide Framed, Booked, Filled, Ranged, Live, InitialSpace, Apart, Word, GetSize, Zero;
      a.lib.ResetBrk();
      var r, fault := a.Init();
      FirstSpace(a.lib.start);
      ledger.Clear(a.sp.h, a.sp.lo);
    }

    /** eval_mm_valid over the implicit allocator, under any placement strategy. `run` holds
        the heap before each request that it starts. It gets past exactly the requests that are
        neither refused nor fatal nor misread, and stops at the first other one; so it accepts
        exactly if the run, which its start determines, completes and nothing is misread. Memory
        permitting, only a stuck realloc is refused and nothing is fatal. As long as no live
        block is resized, free blocks stay apart. */
    method EvalMmValid(ops: seq<Op>) returns (v: Verdict, ghost run: seq<Stage>)
      requires a.lib.Valid() && ledger.lib == a.lib && ledger.Blank() && Zeroed(a.lib.mem[..], a.lib.start)
      requires WellFormed(ops, ledger.blocks.Length, 1)
      modifies a, a.lib`brk, a.lib`enomem, a.lib.mem
      modifies ledger, ledger.blocks, ledger.sizes, ledger.ranges, ledger.ranges.nodes
      ensures
        Run(Accepts(a.strategy, a.lib.mem.Length), run, First(a.strategy, a.lib.start, old(ledger.blocks[..])), ops)
      ensures v == Pass <==>
        && !HasMisread(ops)
        && Completes(Accepts(a.strategy, a.lib.mem.Length), First(a.strategy, a.lib.start, old(ledger.blocks[..])), ops)
      ensures forall j :: 0 <= j < |run| - 1 ==> !Misread(ops[j], After(ops, j))
      ensures (v == Pass <==> |run| == |ops| + 1) && a.listp == a.lib.start + 8
      ensures v != Pass ==> v == Outcome(run[|run| - 1], a.lib.mem.Length, ops[|run| - 1], After(ops, |run| - 1))
      ensures v == Pass ==>
        Books(After(ops, |ops|)) && run[|ops|] == Now() && (MallocFree(ops, |ops|) ==> Apart(a.sp.h, 0))
      ensures v == Pass ==> Accounted(a.sp.h, a.lib.start, a.lib.start + 8, a.lib.brk)
      ensures var k := |run| - 1;
        v == Crash || (v == Fail && !Misread(ops[k], After(ops, k))) ==> a.Valid() && a.sp == run[k].sp
      ensures 16 + Demand(ops, |ops|) <= MAX_HEAP ==> v != Crash
      ensures var k := |run| - 1;
        16 + Demand(ops, |ops|) <= MAX_HEAP && v == Fail ==> ops[k].Realloc? && ops[k].id in After(ops, k).live
    {
      hide Books, Misread, Legal, Need, Next, Demand, Booked, Outcome, Apart, Zeroed, MallocFree, Run, Accepts,
           Refuses, Dies, Framed, WellFormed, Allotted, Now, First, Shaped, Align, Live, Filled, Ranged,
           After, Accounted, HasMisread, Completes;
      Begin();
      var n := ledger.blocks.Length;
      PeakStart(ops, n);
      BooksLib(After(ops, 0));
      ghost var x0, accepts := Now(), Accepts(a.strategy, a.lib.mem.Length);
      run := [x0];
      RunStart(accepts, x0, ops);
      var i := 0;
      while i < |ops|
        invariant 0 <= i <= |ops| && |run| == i + 1
        invariant Books(After(ops, i)) && a.lib.Valid() && a.listp == a.lib.start + 8
        invariant forall x: RangeNode :: x in ledger.ranges.nodes ==> fresh(x)
        invariant forall k :: 0 <= k < |ledger.ranges.nodes| ==> fresh(ledger.ranges.nodes[k])
        invariant a.lib.brk <= a.lib.start + 16 + Demand(ops, i)
        invariant Run(accepts, run, x0, ops) && run[i] == Now()
        invariant forall k :: 0 <= k < i ==> !Misread(ops[k], After(ops, k))
        invariant MallocFree(ops, i) ==> Apart(a.sp.h, 0)
      {
        ghost var ids := After(ops, i);
        TraceStep(ops, i, n, 1);
        MallocFreeStep(ops, i);
        BooksLib(ids);
        if a.lib.brk + Need(ops[i]) <= a.lib.mem.Length {
          AmpleRoom(run[i], a.lib.mem.Length, ops[i], ids, n);
        }
        v := DoOp(ops[i], ids);
        if v != Pass {
          Judged(a.strategy, run, x0, a.lib.mem.Length, ops, v);
          return;
        }
        BooksLib(After(ops, i + 1));
        RunOn(accepts, run, x0, Now(), ops);
        run := run + [Now()];
        i := i + 1;
        assert forall k :: 0 <= k < |ledger.ranges.nodes| ==> ledger.ranges.nodes[k] in ledger.ranges.nodes;
      }
      BooksAccount(After(ops, i));
      v := Pass;
      Judged(a.strategy, run, x0, a.lib.mem.Length, ops, v);
    }

    /** The heap is well formed, the cursor is a block, and the part of the ledger that
        eval_mm_util keeps agrees with the heap and with the requested sizes. */
    ghost predicate Counted(ids: Ids, req: map<nat, nat>)
      reads a, a.lib, a.lib.mem, ledger, ledger.blocks, ledger.sizes
    {
      ledger.lib == a.lib && a.Valid() && a.CursorOk() && ledger.Counts(Live(a.sp.h), a.sp.lo, ids, req)
    }

    /** case ALLOC of eval_mm_util; false if the driver gives up. */
    method CountAlloc(id: nat, size: nat, ghost ids: Ids, ghost req: map<nat, nat>) returns (ok: bool)
      requires Counted(ids, req) && Legal(Alloc(id, size), ids, ledger.blocks.Length, 1)
      modifies a`sp, a`curp, a.lib`brk, a.lib`enomem, a.lib.mem, ledger, ledger.blocks, ledger.sizes
      ensures ok ==> Counted(Next(Alloc(id, size), ids), req[id := size])
      ensures old(a.lib.brk) <= a.lib.brk <= old(a.lib.brk) + Align(size) + 8 && a.lib.Valid()
      ensures ok <==> !Refuses(old(Now()), a.lib.mem.Length, Alloc(id, size), ids)
      ensures !Dies(old(Now()), a.lib.mem.Length, Alloc(id, size), ids)
      ensures ok ==> Accepts(a.strategy, a.lib.mem.Length)(old(Now()), Now(), Alloc(id, size), ids)
    {
      hide Framed, Booked, Live, LiveKept, Gained, NoFit, NoRoom, Apart, Align, Joins, Implicit.Picked, Allotted,
           MergeStart, Accepts, Refuses, Dies, Shaped;
      ghost var m, sp0, x, b := a.lib.mem[..], a.sp, Now(), ledger.blocks[..];
      var p := a.Malloc(size);
      FramedShape(m, sp0, {});
      NewBlock(a.strategy, x, Now().(b := b[id := p]), old(a.curp), a.lib.mem.Length, Alloc(id, size), ids, p);
      if p == 0 {
        return false;
      }
      AllottedLo(sp0, p, Align(size) + 8);
      ExactJoins(Live(sp0.h), Live(a.sp.h), p, size);
      ledger.Enter(id, p, size, Live(sp0.h), Live(a.sp.h), a.sp.lo, ids, req);
      return true;
    }

    /** case REALLOC of eval_mm_util; false if the driver gives up or dies. */
    method CountRealloc(id: nat, size: nat, ghost ids: Ids, ghost req: map<nat, nat>) returns (ok: bool)
      requires Counted(ids, req) && Legal(Realloc(id, size), ids, ledger.blocks.Length, 1)
      modifies a`sp, a`curp, a.lib`brk, a.lib`enomem, a.lib.mem, ledger, ledger.blocks, ledger.sizes
      ensures ok ==> Counted(Next(Realloc(id, size), ids), req[id := size])
      ensures old(a.lib.brk) <= a.lib.brk <= old(a.lib.brk) + Align(size) + 8 && a.lib.Valid()
      ensures var op, limit := Realloc(id, size), a.lib.mem.Length;
        ok <==> !Refuses(old(Now()), limit, op, ids) && !Dies(old(Now()), limit, op, ids)
      ensures ok ==> Accepts(a.strategy, a.lib.mem.Length)(old(Now()), Now(), Realloc(id, size), ids)
    {
      hide Framed, Booked, Live, LiveKept, Gained, Resized, Apart, Align, Joins, Accepts, Refuses, Dies, Shaped;
      ghost var m, h, lo := a.lib.mem[..], a.sp.h, a.sp.lo;
      var oldp, newp, fault := Resize(id, size, ids);
      if fault || newp == 0 {
        return false;
      }
      if oldp == 0 {
        GainedLive(h, a.sp.h, newp, size);
      } else {
        ResizedLive(m, a.lib.mem[..], h, a.sp.h, oldp, newp, size);
      }
      ledger.Enter(id, newp, size, Live(h), Live(a.sp.h), lo, ids, req);
      return true;
    }

    /** case FREE of eval_mm_util. */
    method CountFree(id: nat, ghost ids: Ids, ghost req: map<nat, nat>)
      requires Counted(ids, req) && Legal(Free(id), ids, ledger.blocks.Length, 1)
      modifies a`sp, a`curp, a.lib.mem, ledger
      ensures Counted(Next(Free(id), ids), req - {id}) && a.lib.Valid()
      ensures Outcome(old(Now()), a.lib.mem.Length, Free(id), ids) == Pass
      ensures var limit := a.lib.mem.Length;
        !Refuses(old(Now()), limit, Free(id), ids) && !Dies(old(Now()), limit, Free(id), ids)
      ensures Accepts(a.strategy, a.lib.mem.Length)(old(Now()), Now(), Free(id), ids)
    {
      hide Framed, Booked, Live, LiveKept, Apart, FreedHeap, MergePoint, Accepts, Outcome, Refuses, Dies, Shaped;
      ghost var h, lo, x := a.sp.h, a.sp.lo, Now();
      FramedShape(a.lib.mem[..], a.sp, {});
      BookedFits(Live(h), lo, ledger.blocks[..], ledger.sizes[..], ids, ledger.owner, id);
      a.Free(ledger.blocks[id]);
      FreedBlock(a.strategy, x, Now(), a.lib.mem.Length, Free(id), ids);
      ledger.Leave(id, Live(h), lo, ids, req);
    }

    /** The switch of eval_mm_util; delta is what it adds to total_size. */
    method CountOp(op: Op, ghost ids: Ids, ghost req: map<nat, nat>) returns (ok: bool, delta: int)
      requires Counted(ids, req) && Legal(op, ids, ledger.blocks.Length, 1) && req.Keys == ids.live
      modifies a`sp, a`curp, a.lib`brk, a.lib`enomem, a.lib.mem, ledger, ledger.blocks, ledger.sizes
      ensures ok ==> Counted(Next(op, ids), if op.Free? then req - {op.id} else req[op.id := op.size])
      ensures ok ==> delta == (if op.Free? then 0 else op.size) - (if op.id in req then req[op.id] else 0)
      ensures old(a.lib.brk) <= a.lib.brk <= old(a.lib.brk) + Need(op) && a.lib.Valid()
      ensures var limit := a.lib.mem.Length;
        ok <==> !Refuses(old(Now()), limit, op, ids) && !Dies(old(Now()), limit, op, ids)
      ensures ok ==> Accepts(a.strategy, a.lib.mem.Length)(old(Now()), Now(), op, ids)
    {
      hide Framed, Booked, Live, Align, Accepts, Refuses, Dies;
      match op {
        case Alloc(id, size) =>
          ok := CountAlloc(id, size, ids, req);
          delta := size;
        case Realloc(id, size) =>
          var oldsize: int := ledger.sizes[id];
          BookedAt(Live(a.sp.h), a.sp.lo, ledger.blocks[..], ledger.sizes[..], ids, ledger.owner, id);
          ok := CountRealloc(id, size, ids, req);
          delta := size - oldsize;
        case Free(id) =>
          var size: int := ledger.sizes[id];
          CountFree(id, ids, req);
          ok, delta := true, -size;
      }
    }

    /** eval_mm_util over the implicit allocator, from a reset and zeroed heap. */
    method EvalMmUtil(ops: seq<Op>) returns (r: Utilisation, ghost run: seq<Stage>)
      requires a.lib.Valid() && a.lib.brk == a.lib.start && ledger.lib == a.lib && ledger.Blank()
      requires Zeroed(a.lib.mem[..], a.lib.start) && WellFormed(ops, ledger.blocks.Length, 1)
      modifies a, a.lib`brk, a.lib`enomem, a.lib.mem, ledger, ledger.blocks, ledger.sizes
      ensures
        Run(Accepts(a.strategy, a.lib.mem.Length), run, First(a.strategy, a.lib.start, old(ledger.blocks[..])), ops)
      ensures r.Ratio? <==> |run| == |ops| + 1
      ensures r.Ratio? <==>
        Completes(Accepts(a.strategy, a.lib.mem.Length), First(a.strategy, a.lib.start, old(ledger.blocks[..])), ops)
      ensures r.Died? ==> var k := |run| - 1;
        || Refuses(run[k], a.lib.mem.Length, ops[k], After(ops, k))
        || Dies(run[k], a.lib.mem.Length, ops[k], After(ops, k))
      ensures var k := |run| - 1;
        16 + Demand(ops, |ops|) <= MAX_HEAP && r.Died? ==> ops[k].Realloc? && ops[k].id in After(ops, k).live
      ensures r.Ratio? ==> run[|ops|] == Now()
      ensures r.Ratio? ==> a.lib.brk > a.lib.start && Accounted(a.sp.h, a.lib.start, a.lib.start + 8, a.lib.brk)
      ensures r.Ratio? ==>
        && r.u == (Peak(ops, |ops|, ledger.blocks.Length) as real) / ((a.lib.brk - a.lib.start) as real)
        && Utilised(r.u, Peak(ops, |ops|, ledger.blocks.Length), a.lib.brk - a.lib.start, 16 + Demand(ops, |ops|))
    {
      hide Counted, Next, Peak, Sum, Booked, Framed, Apart, InitialSpace, Live, Need, Demand, Legal, After, Requested,
           Run, Accepts, Refuses, Dies, First, Now, WellFormed, Zeroed, Utilised, Shaped, Completes,
           Accounted;
      var maxTotal, total: int := 0, 0;
      CountBegin();
      var n := ledger.blocks.Length;
      PeakStart(ops, n);
      CountLib(After(ops, 0), map[]);
      ghost var x0, accepts := Now(), Accepts(a.strategy, a.lib.mem.Length);
      run := [x0];
      RunStart(accepts, x0, ops);
      var i := 0;
      while i < |ops|
        invariant 0 <= i <= |ops| && a.lib.Valid() && |run| == i + 1
        invariant a.listp == a.lib.start + 8 && a.lib.start + 16 <= a.lib.brk <= a.lib.start + 16 + Demand(ops, i)
        invariant Counted(After(ops, i), Requested(ops, i))
        invariant Run(accepts, run, x0, ops) && run[i] == Now()
        invariant total == Sum(Requested(ops, i), n) && maxTotal == Peak(ops, i, n) <= a.lib.brk - a.lib.start
      {
        ghost var ids, req := After(ops, i), Requested(ops, i);
        TraceStep(ops, i, n, 1);
        RequestedLive(ops, i);
        CountLib(ids, req);
        if a.lib.brk + Need(ops[i]) <= a.lib.mem.Length {
          AmpleRoom(run[i], a.lib.mem.Length, ops[i], ids, n);
        }
        var ok: bool, delta := CountOp(ops[i], ids, req);
        if !ok {
          RunRefused(a.strategy, run, x0, a.lib.mem.Length, ops);
          return Died, run;
        }
        CountLib(After(ops, i + 1), if ops[i].Free? then req - {ops[i].id} else req[ops[i].id := ops[i].size]);
        RunOn(accepts, run, x0, Now(), ops);
        run := run + [Now()];
        total := total + delta;
        maxTotal := if total > maxTotal then total else maxTotal;
        i := i + 1;
        CountStep(ops, i, n);
        CountBound(ops, i);
      }
      RunRefused(a.strategy, run, x0, a.lib.mem.Length, ops);
      CountAccount(After(ops, i), Requested(ops, i));
      RatioBound(maxTotal, a.lib.HeapSize(), 16 + Demand(ops, i));
      r := Ratio((maxTotal as real) / (a.lib.HeapSize() as real));
    }

    /** The start of eval_mm_util. */
    method CountBegin()
      requires a.lib.Valid() && a.lib.brk == a.lib.start && ledger.lib == a.lib && ledger.Blank()
      requires Zeroed(a.lib.mem[..], a.lib.start)
      modifies a, a.lib`brk, a.lib`enomem, a.lib.mem, ledger
      ensures Counted(Ids({}, {}), map[]) && a.lib.Valid() && a.lib.brk == a.lib.start + 16
      ensures a.listp == a.lib.start + 8
      ensures Now() == First(a.strategy, a.lib.start, ledger.blocks[..])
    {
      hide Framed, Booked, Live, InitialSpace, Apart, Word, GetSize, Zero;
      var r, fault := a.Init();
      FirstSpace(a.lib.start);
      ledger.owner := map[];
      BookStart(Live(a.sp.h), a.sp.lo, ledger.blocks[..], ledger.sizes[..]);
    }

    /** What main does with a trace: eval_mm_valid, and if that accepts, clean_up and
        eval_mm_util, which then always has a result: both loops run through the same heaps. */
    method Judge(ops: seq<Op>) returns (v: Verdict, r: Utilisation)
      requires a.lib.Valid() && ledger.lib == a.lib && ledger.Blank() && Zeroed(a.lib.mem[..], a.lib.start)
      requires WellFormed(ops, ledger.blocks.Length, 1)
      modifies a, a.lib`brk, a.lib`enomem, a.lib.mem
      modifies ledger, ledger.blocks, ledger.sizes, ledger.ranges, ledger.ranges.nodes
      ensures v == Pass <==>
        && !HasMisread(ops)
        && Completes(Accepts(a.strategy, a.lib.mem.Length), First(a.strategy, a.lib.start, old(ledger.blocks[..])), ops)
      ensures v == Pass <==> r.Ratio?
      ensures r.Ratio? ==> a.lib.brk > a.lib.start && Accounted(a.sp.h, a.lib.start, a.lib.start + 8, a.lib.brk)
      ensures r.Ratio? ==>
        && r.u == (Peak(ops, |ops|, ledger.blocks.Length) as real) / ((a.lib.brk - a.lib.start) as real)
        && Utilised(r.u, Peak(ops, |ops|, ledger.blocks.Length), a.lib.brk - a.lib.start, 16 + Demand(ops, |ops|))
    {
      hide Peak, Accounted, Books, WellFormed, Run, Refuses, Dies, After, Demand, MallocFree, Apart, Utilised, First,
           Misread, Outcome, Completes, HasMisread;
      ghost var run, run2, b := [], [], ledger.blocks[..];
      v, run := EvalMmValid(ops);
      r := Died;
      if v == Pass {
        BooksClean(After(ops, |ops|));
        ghost var m := a.lib.mem[..];
        a.lib.Clear();
        ClearedBelow(m, a.lib.mem[..], a.lib.start);
        ledger.CleanUp();
        assert ledger.blocks[..] == b;
        r, run2 := EvalMmUtil(ops);
      }
    }

    lemma BooksAccount(ids: Ids)
      requires Books(ids)
      ensures Accounted(a.sp.h, a.lib.start, a.listp, a.lib.brk)
    {
      HeapAccounted(a);
    }

    lemma BooksClean(ids: Ids)
      requires Books(ids)
      ensures a.lib.Valid() && ledger.Wired() && ledger.lib == a.lib && ledger.ranges.Valid()
      ensures GetSize(Word(a.lib.mem[..], a.sp.lo - 12)) == 0 && a.sp.lo == a.listp
    {
    }

    lemma CountLib(ids: Ids, req: map<nat, nat>)
      requires Counted(ids, req)
      ensures a.lib.Valid() && Shaped(a.sp) && Now().sp == a.sp && a.sp.brk == a.lib.brk
    {
      FramedShape(a.lib.mem[..], a.sp, {});
    }

    lemma CountAccount(ids: Ids, req: map<nat, nat>)
      requires Counted(ids, req)
      ensures Accounted(a.sp.h, a.lib.start, a.listp, a.lib.brk)
    {
      HeapAccounted(a);
    }

    /** The live request sizes fit into the heap together. */
    lemma CountBound(ops: seq<Op>, k: nat)
      requires k <= |ops| && Counted(After(ops, k), Requested(ops, k))
      ensures Sum(Requested(ops, k), ledger.blocks.Length) <= a.lib.brk - a.lib.start && a.lib.Valid()
    {
      hide Framed, Booked, Live, Sum, Sound;
      Soundness(a.lib.mem[..], a.sp);
      RequestedLive(ops, k);
      FitTogether(a.sp.h, a.sp.lo, a.sp.brk, ledger.blocks[..], ledger.sizes[..], After(ops, k), ledger.owner,
                  Requested(ops, k));
    }

    lemma BooksLib(ids: Ids)
      requires Books(ids)
      ensures a.lib.Valid() && Shaped(a.sp) && Now().sp == a.sp && a.sp.brk == a.lib.brk
    {
      FramedShape(a.lib.mem[..], a.sp, {});
    }
  }

  /** Before the first request: the prologue, which is also where the cursor is. */
  ghost function First(strategy: Implicit.Strategy, start: nat, b: seq<nat>): Stage {
    Stage(InitialSpace(start), if strategy.NextFit? then start + 8 else 0, b)
  }

  lemma ClearedBelow(m: Mem, m': Mem, start: nat)
    requires |m'| == |m| && 8 <= start <= |m| && GetSize(Word(m, start - 4)) == 0
    requires (forall i :: start <= i < |m| ==> m'[i] == 0) && (forall i :: 0 <= i < start ==> m'[i] == m[i])
    ensures Zeroed(m', start)
  {
    WordSame(m, m', start - 4);
  }

  /** The region is zeroed, and nothing looks like a block below it. */
  ghost predicate Zeroed(m: Mem, start: nat) {
    Zero(m, start, |m|) && GetSize(Word(m, start - 4)) == 0
  }

  lemma FirstSpace(brk: nat)
    ensures var sp := InitialSpace(brk);
      Live(sp.h).Keys == {sp.lo} && sp.lo != 0 && Apart(sp.h, 0) && sp.brk == brk + 16
    ensures forall b, z :: Snug(Live(InitialSpace(brk).h), b, z, {})
  {
  }

  lemma MallocFreeStep(ops: seq<Op>, k: nat)
    requires k < |ops|
    ensures MallocFree(ops, k + 1) ==> MallocFree(ops, k) && !(ops[k].Realloc? && ops[k].id in After(ops, k).live)
  {
  }

  /** With room for the request at the end of the heap, no malloc is refused, and no realloc
      kills the program. */
  lemma AmpleRoom(x: Stage, limit: nat, op: Op, ids: Ids, n: nat)
    requires Shaped(x.sp) && x.sp.brk + Need(op) <= limit && Legal(op, ids, n, 1)
    ensures Outcome(x, limit, op, ids) != Crash
    ensures Outcome(x, limit, op, ids) == Fail ==> op.Realloc? && op.id in ids.live
  {
    if !op.Free? && op.id < |x.b| && x.b[op.id] in x.sp.h {
      BlockBounds(x.sp, x.b[op.id]);
    }
    if !op.Free? && op.id !in ids.live && NoFit(x.sp.h, Align(op.size)) {
      CanGrow(x.sp, limit, op.size);
    }
  }

  lemma CanGrow(sp: Space, limit: nat, size: nat)
    requires Shaped(sp) && NoFit(sp.h, Align(size)) && size > 0 && sp.brk + Align(size) + 8 <= limit
    ensures !NoRoom(sp, limit, Align(size) + 8)
  {
    assert sp.h[sp.lo] == Block(8, true);
    hide Shaped;
    AlignBounds(size);
    FramedEnds(sp);
    var q := LastBlock(sp);
    var g := if sp.h[q].alloc then sp.brk else q;
    assert MergeStart(sp.h, sp.brk, g) && GrowsAt(sp, g, Align(size) + 8);
  }

  lemma LastBlock(sp: Space) returns (q: nat)
    requires Shaped(sp)
    ensures q in sp.h && q + sp.h[q].size == sp.brk
    ensures MergeStart(sp.h, sp.brk, if sp.h[q].alloc then sp.brk else q)
  {
    q := PrevBlock(sp.h, sp.lo, sp.brk, sp.brk);
    forall r | r in sp.h && r + sp.h[r].size == sp.brk ensures r == q {
      EndsUnique(sp, q, r);
    }
  }

  lemma AllottedLo(sp: Space, r: nat, n: nat)
    ensures Allotted(sp, r, n).lo == sp.lo
  {
  }

  lemma ReshapedLo(sp: Space, ptr: nat, np: nat, n: nat)
    requires ptr in sp.h
    ensures Reshaped(sp, ptr, np, n).lo == sp.lo
  {
  }

  lemma ExactJoins(lv: map<nat, nat>, lv1: map<nat, nat>, p: nat, size: nat)
    requires p !in lv && lv1 == lv[p := Align(size) + 8]
    ensures Joins(lv, lv1, p, size)
  {
  }

  lemma ExactGained(h: Heap, h': Heap, p: nat, size: nat)
    requires p !in Live(h) && Live(h') == Live(h)[p := Align(size) + 8]
    ensures Gained(h, h', p, size) && Live(h')[p] == Align(size) + 8
  {
    assert p in Live(h');
  }

  lemma ExactResized(m: Mem, m': Mem, h: Heap, h': Heap, ptr: nat, np: nat, size: nat)
    requires Reallocated(m, m', h, h', ptr, np, size)
    ensures Resized(m, m', h, h', ptr, np, size) && np in Live(h') && Live(h')[np] == Align(size) + 8
  {
    hide Live;
    assert Live(h') == (Live(h) - {ptr})[np := Live(h')[np]];
  }

  lemma SnugAdd(lv: map<nat, nat>, lo: nat, b: seq<nat>, z: seq<nat>, ids: Ids, owner: map<nat, nat>, id: nat, p: nat,
      size: nat)
    requires Snug(lv, b, z, ids.live) && Booked(lv, lo, b, z, ids, owner) && id < |b| && p !in lv && id !in ids.live
    ensures |z| == |b| && Snug(lv[p := Align(size) + 8], b[id := p], z[id := size], ids.live + {id})
  {
    forall x: nat | x in ids.live ensures x < |b| && b[x] in lv && b[x] != p && lv[b[x]] == Align(z[x]) + 8 {
      BookedFits(lv, lo, b, z, ids, owner, x);
    }
  }

  lemma SnugDrop(lv: map<nat, nat>, b: seq<nat>, z: seq<nat>, live: set<nat>, id: nat, p: nat)
    requires Snug(lv, b, z, live)
    ensures Snug(lv - {p}, b, z, live - {id})
  {
    assert forall x: nat :: x in live - {id} ==> x in live;
  }

  lemma SnugReplace(lv: map<nat, nat>, lv1: map<nat, nat>, lo: nat, b: seq<nat>, z: seq<nat>, ids: Ids,
      owner: map<nat, nat>, id: nat, newp: nat, size: nat)
    requires Snug(lv, b, z, ids.live) && Booked(lv, lo, b, z, ids, owner) && id < |b|
    requires (id in ids.live || id !in ids.used)
    requires Joins(lv - {b[id]}, lv1, newp, size) && lv1[newp] == Align(size) + 8
    ensures |z| == |b| && Snug(lv1, b[id := newp], z[id := size], ids.live + {id})
  {
    forall x: nat | x in ids.live && x != id
      ensures x < |b| && b[x] in lv && b[x] != b[id] && lv[b[x]] == Align(z[x]) + 8
    {
      BookedFits(lv, lo, b, z, ids, owner, x);
      if id in ids.live { BookedFits(lv, lo, b, z, ids, owner, id); }
    }
  }
}
