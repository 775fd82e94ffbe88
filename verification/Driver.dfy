/** The evaluation loops of mdriver.c, run over the segregated allocator. */
module Driver {
  import opened Memory
  import opened Blocks
  import opened LiveBlocks
  import opened SegregateHeap
  import opened HeapView
  import opened ListView
  import opened SegregateTheorems
  import opened Ranges
  import opened Books
  import opened Records
  import opened Requests
  import opened Runs
  import Segregate

  /** Requests of fewer bytes would read slot 0. */
  const LEAST: nat := 9

  class Evaluation {
    const a: Segregate.Allocator
    const ledger: Ledger

    constructor (a: Segregate.Allocator, ledger: Ledger)
      requires a.lib == ledger.lib
      ensures this.a == a && this.ledger == ledger
    {
      this.a, this.ledger := a, ledger;
    }

    /** The heap is well formed, and the ledger agrees with it about the live ids. */
    ghost predicate Books(ids: Ids)
      reads a, a.lib, a.lib.mem, ledger, ledger.blocks, ledger.sizes, ledger.ranges, ledger.ranges.nodes
    {
      ledger.lib == a.lib && a.Valid() && ledger.Agrees(a.s.ar.h, a.s.ar.Lo(), ids)
    }

    ghost function Now(): Stage
      reads a, a.lib, a.lib.mem, ledger.blocks
    {
      Stage(a.View(), a.Order(), ledger.blocks[..])
    }

    /** case ALLOC */
    method DoAlloc(id: nat, size: nat, ghost ids: Ids) returns (v: Verdict)
      requires Books(ids) && Legal(Alloc(id, size), ids, ledger.blocks.Length, LEAST)
      modifies a`s, a.lib`brk, a.lib`enomem, a.lib.mem
      modifies ledger, ledger.blocks, ledger.sizes, ledger.ranges, ledger.ranges.nodes
      ensures v == Pass ==> Books(Next(Alloc(id, size), ids)) && a.lib.brk <= old(a.lib.brk) + Align(size) + 8
      ensures v == Pass ==> forall x :: x in ledger.ranges.nodes ==> x in old(ledger.ranges.nodes) || fresh(x)
      ensures v == Outcome(old(Now()), a.lib.mem.Length, Alloc(id, size), ids)
      ensures v == Pass ==> Accepts(a.lib.mem.Length)(old(Now()), Now(), Alloc(id, size), ids)
      ensures v != Pass ==> v == Fail && a.lib.brk == old(a.lib.brk) && a.lib.brk + Align(size) + 8 > a.lib.mem.Length
    {
      hide Core, FreeListed, Apart, SmallSeen, Booked, Filled, Ranged, Live, LiveKept, Gained, Only, NoFit, Ptr,
           Align, Sound, Joins, Taken, HeadGood, GoodAfterMalloc, Chosen, Outcome, Accepts;
      ghost var m, s0, lo, b, z := a.lib.mem[..], a.s, a.s.ar.Lo(), ledger.blocks[..], ledger.sizes[..];
      ghost var x := Now();
      var p := a.Malloc(size);
      NewBlock(m, s0, x, Now().(b := x.b[id := p]), a.lib.mem.Length, Alloc(id, size), ids, p);
      if p == 0 {
        return Fail;
      }
      ghost var m1, s, lv := a.lib.mem[..], a.s, Live(s0.ar.h);
      GainedLive(s0.ar.h, s.ar.h, p, size);
      Soundness(m1, s);
      BookRoom(s.ar.h, lo, s.ar.brk, p, size);
      BookedPointers(lv, lo, b, z, ids, ledger.owner);
      FilledKept(m, m1, s0.ar.h, 0, lo, b, z, ids, ledger.owner, ids.live);
      var ok := ledger.Add(id, p, size, s.ar.h, lo, lv, ids);
      if !ok {
        return Fail;
      }
      OwnerWrite(m1, a.lib.mem[..], s, p, p, size);
      HeadWrite(m1, a.lib.mem[..], s, p, size);
      return Pass;
    }

    /** case FREE */
    method DoFree(id: nat, ghost ids: Ids)
      requires Books(ids) && Legal(Free(id), ids, ledger.blocks.Length, LEAST)
      modifies a`s, a.lib.mem, ledger, ledger.ranges, ledger.ranges.nodes
      ensures Books(Next(Free(id), ids))
      ensures Outcome(old(Now()), a.lib.mem.Length, Free(id), ids) == Pass
      ensures Accepts(a.lib.mem.Length)(old(Now()), Now(), Free(id), ids)
      ensures forall x :: x in ledger.ranges.nodes ==> x in old(ledger.ranges.nodes)
    {
      hide Core, FreeListed, Apart, SmallSeen, Booked, Filled, Ranged, Live, LiveKept, Ptr, Freed, ListsFreed,
           HeadGood, GoodAfterFree, Accepts, Outcome;
      ghost var m, h, lo, b, z := a.lib.mem[..], a.s.ar.h, a.s.ar.Lo(), ledger.blocks[..], ledger.sizes[..];
      ghost var owner, s, x := ledger.owner, a.s, Now();
      var p := ledger.Forget(id, h, lo, ids);
      a.Free(p);
      FreedBlock(m, s, x, Now(), a.lib.mem.Length, Free(id), ids);
      FilledKept(m, a.lib.mem[..], h, p, lo, b, z, ids, owner, ids.live - {id});
    }

    /** mm_realloc on the block of an id, if it has one. */
    method Resize(id: nat, size: nat, ghost ids: Ids) returns (oldp: nat, newp: nat, fault: bool)
      requires ledger.lib == a.lib && ledger.Wired() && a.Valid()
      requires Booked(Live(a.s.ar.h), a.s.ar.Lo(), ledger.blocks[..], ledger.sizes[..], ids, ledger.owner)
      requires Legal(Realloc(id, size), ids, ledger.blocks.Length, LEAST)
      modifies a`s, a.lib`brk, a.lib`enomem, a.lib.mem
      ensures a.Valid() && a.s.ar.Lo() == old(a.s.ar.Lo()) && oldp == ledger.blocks[id]
      ensures old(a.lib.brk) <= a.lib.brk <= old(a.lib.brk) + Align(size) + 8
      ensures newp == 0 <==> Refuses(old(Now()), a.lib.mem.Length, Realloc(id, size), ids)
      ensures fault <==> newp == 0 && id in ids.live
      ensures newp == 0 ==> a.lib.brk == old(a.lib.brk) && a.lib.brk + Align(size) + 8 > a.lib.mem.Length
      ensures newp != 0 ==>
        Accepts(a.lib.mem.Length)(old(Now()), Now().(b := ledger.blocks[..][id := newp]), Realloc(id, size), ids)
      ensures newp != 0 ==>
        if id in ids.live then
          oldp != 0 && Resized(old(a.lib.mem[..]), a.lib.mem[..], old(a.s.ar.h), a.s.ar.h, oldp, newp, size)
        else oldp == 0 && ledger.sizes[id] == 0 && Gained(old(a.s.ar.h), a.s.ar.h, newp, size)
      ensures LiveKept(old(a.lib.mem[..]), a.lib.mem[..], old(a.s.ar.h), oldp)
    {
      hide Core, FreeListed, Apart, SmallSeen, Booked, Live, LiveKept, Gained, Resized, Ptr, Align, NoFit, Taken,
           Freed, Refitted, HeadGood, GoodAfterMalloc, GoodAfterRealloc, Chosen, Refuses, Accepts, ListsTaken,
           ListsFreed, ListsRefitted;
      ghost var m, s, h, x, limit := a.lib.mem[..], a.s, a.s.ar.h, Now(), a.lib.mem.Length;
      BookedAt(Live(h), s.ar.Lo(), ledger.blocks[..], ledger.sizes[..], ids, ledger.owner, id);
      oldp := ledger.blocks[id];
      newp, fault := a.Realloc(oldp, size);
      ghost var y := Now().(b := x.b[id := newp]);
      if oldp == 0 {
        NewBlock(m, s, x, y, limit, Realloc(id, size), ids, newp);
      } else {
        ResizedBlock(m, s, x, y, limit, Realloc(id, size), ids, newp, fault);
      }
    }

    /** case REALLOC */
    method DoRealloc(id: nat, size: nat, ghost ids: Ids) returns (v: Verdict)
      requires Books(ids) && Legal(Realloc(id, size), ids, ledger.blocks.Length, LEAST)
      modifies a`s, a.lib`brk, a.lib`enomem, a.lib.mem
      modifies ledger, ledger.blocks, ledger.sizes, ledger.ranges, ledger.ranges.nodes
      ensures v == Pass ==> Books(Next(Realloc(id, size), ids)) && a.lib.brk <= old(a.lib.brk) + Align(size) + 8
      ensures v == Pass ==> forall x :: x in ledger.ranges.nodes ==> x in old(ledger.ranges.nodes) || fresh(x)
      ensures v == Outcome(old(Now()), a.lib.mem.Length, Realloc(id, size), ids)
      ensures v == Pass ==> Accepts(a.lib.mem.Length)(old(Now()), Now(), Realloc(id, size), ids)
      ensures v == Pass ==> !Misread(Realloc(id, size), ids)
      ensures v != Pass ==>
        || (v == Fail && Misread(Realloc(id, size), ids))
        || (a.lib.brk == old(a.lib.brk) && a.lib.brk + Align(size) + 8 > a.lib.mem.Length)
      ensures v == Crash ==> a.lib.brk == old(a.lib.brk) && a.lib.brk + Align(size) + 8 > a.lib.mem.Length
    {
      hide Core, FreeListed, Apart, SmallSeen, Booked, Filled, FilledAt, Ranged, Live, LiveKept, Gained, Resized,
           Only, Ptr, Align, Sound, Joins, Refuses, Accepts;
      ghost var m, h, lo, b, z := a.lib.mem[..], a.s.ar.h, a.s.ar.Lo(), ledger.blocks[..], ledger.sizes[..];
      var oldp, newp, fault := Resize(id, size, ids);
      if fault {
        return Crash;
      }
      if newp == 0 {
        return Fail;
      }
      ghost var m1, s := a.lib.mem[..], a.s;
      ReplaceReady(m, m1, h, s.ar.h, lo, b, z, ids, ledger.owner, id, newp, size);
      Soundness(m1, s);
      JoinsRoom(Live(h) - {oldp}, s.ar.h, lo, s.ar.brk, newp, size);
      var ok := ledger.Replace(id, oldp, newp, size, s.ar.h, lo, Live(h), ids);
      OwnerWrite(m1, a.lib.mem[..], s, newp, newp, size);
      HeadWrite(m1, a.lib.mem[..], s, newp, size);
      return if ok then Pass else Fail;
    }

    /** The switch over the request types. */
    method DoOp(op: Op, ghost ids: Ids) returns (v: Verdict)
      requires Books(ids) && Legal(op, ids, ledger.blocks.Length, LEAST)
      modifies a`s, a.lib`brk, a.lib`enomem, a.lib.mem
      modifies ledger, ledger.blocks, ledger.sizes, ledger.ranges, ledger.ranges.nodes
      ensures v == Outcome(old(Now()), a.lib.mem.Length, op, ids)
      ensures v == Pass ==> !Refuses(old(Now()), a.lib.mem.Length, op, ids)
      ensures v == Pass ==> Accepts(a.lib.mem.Length)(old(Now()), Now(), op, ids)
      ensures v == Pass ==> Books(Next(op, ids)) && a.lib.brk <= old(a.lib.brk) + Need(op) && !Misread(op, ids)
      ensures v == Pass ==> forall x :: x in ledger.ranges.nodes ==> x in old(ledger.ranges.nodes) || fresh(x)
      ensures v != Pass ==>
        || (v == Fail && Misread(op, ids))
        || (a.lib.brk == old(a.lib.brk) && a.lib.brk + Need(op) > a.lib.mem.Length)
      ensures v == Crash ==> a.lib.brk == old(a.lib.brk) && a.lib.brk + Need(op) > a.lib.mem.Length
    {
      hide Booked, Filled, Ranged, Live, Align, Core, FreeListed, Apart, SmallSeen, Accepts;
      match op {
        case Alloc(id, size) =>
          v := DoAlloc(id, size, ids);
        case Realloc(id, size) =>
          v := DoRealloc(id, size, ids);
        case Free(id) =>
          DoFree(id, ids);
          v := Pass;
      }
    }

    /** The start of eval_mm_valid: the heap is reset and initialised, the range list cleared. */
    method Begin()
      requires a.lib.Valid() && ledger.lib == a.lib && ledger.Blank()
      modifies a, a.lib`brk, a.lib`enomem, a.lib.mem, ledger, ledger.ranges
      ensures Books(Ids({}, {})) && ledger.ranges.nodes == [] && a.lib.brk == a.lib.start + 104
      ensures Now() == First(a.lib.start, old(ledger.blocks[..])) && a.listp == a.lib.start + 96
    {
      hide Core, FreeListed, Apart, SmallSeen, Booked, Filled, Ranged, Live, InitialState;
      a.lib.ResetBrk();
      var r := a.Init();
      InitialLive(a.lib.start);
      ledger.Clear(a.s.ar.h, a.s.ar.Lo());
    }

    /** eval_mm_valid. `run` holds the blocks before each request that it starts. It accepts
        all requests that it gets past, and stops at the first one that the allocator refuses
        or the byte check misreads. So on a well-formed trace for which the heap has room, it
        accepts exactly if no realloc of a live id has a low byte of 128 or more. */
    method EvalMmValid(ops: seq<Op>) returns (v: Verdict, ghost run: seq<Stage>)
      requires a.lib.Valid() && ledger.lib == a.lib && ledger.Blank() && WellFormed(ops, ledger.blocks.Length, LEAST)
      modifies a, a.lib`brk, a.lib`enomem, a.lib.mem
      modifies ledger, ledger.blocks, ledger.sizes, ledger.ranges, ledger.ranges.nodes
      ensures Run(Accepts(a.lib.mem.Length), run, First(a.lib.start, old(ledger.blocks[..])), ops)
      ensures v == Pass <==> |run| == |ops| + 1
      ensures v == Pass <==>
        && !HasMisread(ops)
        && Completes(Accepts(a.lib.mem.Length), First(a.lib.start, old(ledger.blocks[..])), ops)
      ensures v == Pass ==> Books(After(ops, |ops|)) && run[|ops|] == Now()
      ensures v == Pass ==> Accounted(a.s.ar.h, a.lib.start, a.lib.start + 96, a.lib.brk)
      ensures forall j :: 0 <= j < |run| - 1 ==> !Misread(ops[j], After(ops, j))
      ensures var k := |run| - 1;
        v != Pass ==>
          && v == Outcome(run[k], a.lib.mem.Length, ops[k], After(ops, k))
          && ((v == Fail && Misread(ops[k], After(ops, k))) || a.lib.brk + Need(ops[k]) > a.lib.mem.Length)
      ensures 104 + Demand(ops, |ops|) <= MAX_HEAP ==> v != Crash && (v == Pass <==> !HasMisread(ops))
    {
      hide Books, Misread, Legal, Need, Next, Demand, Booked, Outcome, Accepts, Run, First, WellFormed, HasMisread,
           Refuses, Ptr, Core, FreeListed, Apart, SmallSeen, Live, Filled, Ranged, Now, After, Accounted;
      Begin();
      var n := ledger.blocks.Length;
      PeakStart(ops, n);
      BooksLib(After(ops, 0));
      ghost var x0, limit := Now(), a.lib.mem.Length;
      run := [x0];
      RunStart(Accepts(limit), x0, ops);
      var i := 0;
      while i < |ops|
        invariant 0 <= i <= |ops| && |run| == i + 1
        invariant Books(After(ops, i)) && a.lib.Valid() && a.listp == a.lib.start + 96
        invariant forall x: RangeNode :: x in ledger.ranges.nodes ==> fresh(x)
        invariant forall k :: 0 <= k < |ledger.ranges.nodes| ==> fresh(ledger.ranges.nodes[k])
        invariant a.lib.brk <= a.lib.start + 104 + Demand(ops, i)
        invariant Run(Accepts(limit), run, x0, ops) && run[i] == Now()
        invariant forall k :: 0 <= k < i ==> !Misread(ops[k], After(ops, k))
      {
        ghost var ids := After(ops, i);
        TraceStep(ops, i, n, LEAST);
        v := DoOp(ops[i], ids);
        if v != Pass {
          Judged(run, x0, limit, ops, v, a.lib.brk, MAX_HEAP - 104);
          return;
        }
        RunOn(Accepts(limit), run, x0, Now(), ops);
        run := run + [Now()];
        i := i + 1;
        assert forall k :: 0 <= k < |ledger.ranges.nodes| ==> ledger.ranges.nodes[k] in ledger.ranges.nodes;
        BooksLib(After(ops, i));
      }
      BooksAccount(After(ops, i));
      v := Pass;
      Judged(run, x0, limit, ops, v, a.lib.brk, MAX_HEAP - 104);
    }

    /** The heap is well formed, and the part of the ledger that eval_mm_util keeps agrees with
        it and with the requested sizes. */
    ghost predicate Counted(ids: Ids, req: map<nat, nat>)
      reads a, a.lib, a.lib.mem, ledger, ledger.blocks, ledger.sizes
    {
      ledger.lib == a.lib && a.Valid() && ledger.Counts(Live(a.s.ar.h), a.s.ar.Lo(), ids, req)
    }

    /** case ALLOC of eval_mm_util; false if the driver gives up. */
    method CountAlloc(id: nat, size: nat, ghost ids: Ids, ghost req: map<nat, nat>) returns (ok: bool)
      requires Counted(ids, req) && Legal(Alloc(id, size), ids, ledger.blocks.Length, LEAST)
      modifies a`s, a.lib`brk, a.lib`enomem, a.lib.mem, ledger, ledger.blocks, ledger.sizes
      ensures ok ==> Counted(Next(Alloc(id, size), ids), req[id := size])
      ensures old(a.lib.brk) <= a.lib.brk <= old(a.lib.brk) + Align(size) + 8 && a.lib.Valid()
      ensures ok <==> !Refuses(old(Now()), a.lib.mem.Length, Alloc(id, size), ids)
      ensures ok ==> Accepts(a.lib.mem.Length)(old(Now()), Now(), Alloc(id, size), ids)
      ensures !ok ==> a.lib.brk == old(a.lib.brk) && a.lib.brk + Align(size) + 8 > a.lib.mem.Length
    {
      hide Core, FreeListed, Apart, SmallSeen, Booked, Live, LiveKept, Gained, NoFit, Ptr, Align, Taken, HeadGood,
           GoodAfterMalloc, Chosen, Refuses, Accepts;
      ghost var m, s, x := a.lib.mem[..], a.s, Now();
      var p := a.Malloc(size);
      NewBlock(m, s, x, Now().(b := x.b[id := p]), a.lib.mem.Length, Alloc(id, size), ids, p);
      if p == 0 {
        return false;
      }
      GainedLive(s.ar.h, a.s.ar.h, p, size);
      ledger.Enter(id, p, size, Live(s.ar.h), Live(a.s.ar.h), a.s.ar.Lo(), ids, req);
      return true;
    }

    /** case REALLOC of eval_mm_util; false if the driver gives up or dies. */
    method CountRealloc(id: nat, size: nat, ghost ids: Ids, ghost req: map<nat, nat>) returns (ok: bool)
      requires Counted(ids, req) && Legal(Realloc(id, size), ids, ledger.blocks.Length, LEAST)
      modifies a`s, a.lib`brk, a.lib`enomem, a.lib.mem, ledger, ledger.blocks, ledger.sizes
      ensures ok ==> Counted(Next(Realloc(id, size), ids), req[id := size])
      ensures old(a.lib.brk) <= a.lib.brk <= old(a.lib.brk) + Align(size) + 8 && a.lib.Valid()
      ensures ok <==> !Refuses(old(Now()), a.lib.mem.Length, Realloc(id, size), ids)
      ensures ok ==> Accepts(a.lib.mem.Length)(old(Now()), Now(), Realloc(id, size), ids)
      ensures !ok ==> a.lib.brk == old(a.lib.brk) && a.lib.brk + Align(size) + 8 > a.lib.mem.Length
    {
      hide Core, FreeListed, Apart, SmallSeen, Booked, Live, LiveKept, Gained, Resized, Ptr, Align, Joins, Refuses,
           Accepts;
      ghost var m, h, lo := a.lib.mem[..], a.s.ar.h, a.s.ar.Lo();
      var oldp, newp, fault := Resize(id, size, ids);
      if fault || newp == 0 {
        return false;
      }
      if oldp == 0 {
        GainedLive(h, a.s.ar.h, newp, size);
      } else {
        ResizedLive(m, a.lib.mem[..], h, a.s.ar.h, oldp, newp, size);
      }
      ledger.Enter(id, newp, size, Live(h), Live(a.s.ar.h), lo, ids, req);
      return true;
    }

    /** case FREE of eval_mm_util. */
    method CountFree(id: nat, ghost ids: Ids, ghost req: map<nat, nat>)
      requires Counted(ids, req) && Legal(Free(id), ids, ledger.blocks.Length, LEAST)
      modifies a`s, a.lib.mem, ledger
      ensures Counted(Next(Free(id), ids), req - {id}) && a.lib.Valid()
      ensures Accepts(a.lib.mem.Length)(old(Now()), Now(), Free(id), ids)
    {
      hide Core, FreeListed, Apart, SmallSeen, Booked, Live, LiveKept, Ptr, Freed, ListsFreed, HeadGood,
           GoodAfterFree, Accepts, Outcome;
      ghost var m, s, h, lo, x := a.lib.mem[..], a.s, a.s.ar.h, a.s.ar.Lo(), Now();
      BookedFits(Live(h), lo, ledger.blocks[..], ledger.sizes[..], ids, ledger.owner, id);
      a.Free(ledger.blocks[id]);
      FreedBlock(m, s, x, Now(), a.lib.mem.Length, Free(id), ids);
      ledger.Leave(id, Live(h), lo, ids, req);
    }

    /** eval_mm_util, from a reset heap. `total` is always the sum of the live request sizes;
        the result is the peak of that sum divided by the final heap size, which is at most what
        the requests demand. So the result lies between the peak's share in the demand and 1.
        There is one if the heap has room for the whole trace, and always unless a request is
        refused; `run` holds the blocks before each request. */
    method EvalMmUtil(ops: seq<Op>) returns (r: Utilisation, ghost run: seq<Stage>)
      requires a.lib.Valid() && a.lib.brk == a.lib.start && ledger.lib == a.lib && ledger.Blank()
      requires WellFormed(ops, ledger.blocks.Length, LEAST)
      modifies a, a.lib`brk, a.lib`enomem, a.lib.mem, ledger, ledger.blocks, ledger.sizes
      ensures Run(Accepts(a.lib.mem.Length), run, First(a.lib.start, old(ledger.blocks[..])), ops)
      ensures r.Ratio? <==> |run| == |ops| + 1
      ensures r.Ratio? <==> Completes(Accepts(a.lib.mem.Length), First(a.lib.start, old(ledger.blocks[..])), ops)
      ensures r.Died? ==> var k := |run| - 1;
        && Refuses(run[k], a.lib.mem.Length, ops[k], After(ops, k))
        && a.lib.brk + Need(ops[k]) > a.lib.mem.Length
      ensures 104 + Demand(ops, |ops|) <= MAX_HEAP ==> r.Ratio?
      ensures r.Ratio? ==> run[|ops|] == Now()
      ensures r.Ratio? ==> a.lib.brk > a.lib.start && Accounted(a.s.ar.h, a.lib.start, a.lib.start + 96, a.lib.brk)
      ensures r.Ratio? ==>
        && r.u == (Peak(ops, |ops|, ledger.blocks.Length) as real) / ((a.lib.brk - a.lib.start) as real)
        && Utilised(r.u, Peak(ops, |ops|, ledger.blocks.Length), a.lib.brk - a.lib.start, 104 + Demand(ops, |ops|))
    {
      hide Counted, Next, Peak, Sum, Booked, Core, FreeListed, Apart, SmallSeen, Live, Need, Demand, Legal, After,
           Requested, Run, Accepts, Refuses, First, WellFormed, Utilised, Now, Ptr, Filled, Ranged, Align, Accounted;
      var maxTotal, total: int := 0, 0;
      CountBegin();
      var n := ledger.blocks.Length;
      PeakStart(ops, n);
      ghost var x0, limit := Now(), a.lib.mem.Length;
      run := [x0];
      RunStart(Accepts(limit), x0, ops);
      var i := 0;
      while i < |ops|
        invariant 0 <= i <= |ops| && a.lib.Valid() && |run| == i + 1
        invariant a.listp == a.lib.start + 96 && a.lib.start + 104 <= a.lib.brk <= a.lib.start + 104 + Demand(ops, i)
        invariant Counted(After(ops, i), Requested(ops, i))
        invariant Run(Accepts(limit), run, x0, ops) && run[i] == Now()
        invariant total == Sum(Requested(ops, i), n) && maxTotal == Peak(ops, i, n) <= a.lib.brk - a.lib.start
      {
        ghost var ids, req := After(ops, i), Requested(ops, i);
        TraceStep(ops, i, n, LEAST);
        RequestedLive(ops, i);
        var ok: bool, delta := CountOp(ops[i], ids, req);
        if !ok {
          RunRefused(run, x0, limit, ops);
          return Died, run;
        }
        RunOn(Accepts(limit), run, x0, Now(), ops);
        run := run + [Now()];
        total := total + delta;
        maxTotal := if total > maxTotal then total else maxTotal;
        i := i + 1;
        CountStep(ops, i, n);
        CountBound(ops, i);
      }
      RunRefused(run, x0, limit, ops);
      CountAccount(After(ops, i), Requested(ops, i));
      r := Quotient(maxTotal, 104 + Demand(ops, i));
    }

    /** The last line of eval_mm_util. */
    method Quotient(peak: int, ghost most: int) returns (r: Utilisation)
      requires 0 <= peak <= a.lib.brk - a.lib.start <= most && a.lib.start < a.lib.brk
      ensures r.Ratio? && r.u == (peak as real) / ((a.lib.brk - a.lib.start) as real)
      ensures Utilised(r.u, peak, a.lib.brk - a.lib.start, most)
    {
      RatioBound(peak, a.lib.brk - a.lib.start, most);
      return Ratio((peak as real) / (a.lib.HeapSize() as real));
    }

    /** The switch of eval_mm_util; delta is what it adds to total_size. */
    method CountOp(op: Op, ghost ids: Ids, ghost req: map<nat, nat>) returns (ok: bool, delta: int)
      requires Counted(ids, req) && Legal(op, ids, ledger.blocks.Length, LEAST) && req.Keys == ids.live
      modifies a`s, a.lib`brk, a.lib`enomem, a.lib.mem, ledger, ledger.blocks, ledger.sizes
      ensures ok ==> Counted(Next(op, ids), if op.Free? then req - {op.id} else req[op.id := op.size])
      ensures ok ==> delta == (if op.Free? then 0 else op.size) - (if op.id in req then req[op.id] else 0)
      ensures old(a.lib.brk) <= a.lib.brk <= old(a.lib.brk) + Need(op) && a.lib.Valid()
      ensures ok <==> !Refuses(old(Now()), a.lib.mem.Length, op, ids)
      ensures ok ==> Accepts(a.lib.mem.Length)(old(Now()), Now(), op, ids)
      ensures !ok ==> a.lib.brk == old(a.lib.brk) && a.lib.brk + Need(op) > a.lib.mem.Length
    {
      hide Core, FreeListed, Apart, SmallSeen, Booked, Live, Align, Accepts;
      match op {
        case Alloc(id, size) =>
          ok := CountAlloc(id, size, ids, req);
          delta := size;
        case Realloc(id, size) =>
          var oldsize: int := ledger.sizes[id];
          BookedAt(Live(a.s.ar.h), a.s.ar.Lo(), ledger.blocks[..], ledger.sizes[..], ids, ledger.owner, id);
          ok := CountRealloc(id, size, ids, req);
          delta := size - oldsize;
        case Free(id) =>
          var size: int := ledger.sizes[id];
          CountFree(id, ids, req);
          ok, delta := true, -size;
      }
    }

    /** What main does with a trace: eval_mm_valid, and if that accepts, clean_up and
        eval_mm_util, which then always has a result: both loops run through the same heaps. */
    method Judge(ops: seq<Op>) returns (v: Verdict, r: Utilisation)
      requires a.lib.Valid() && ledger.lib == a.lib && ledger.Blank() && WellFormed(ops, ledger.blocks.Length, LEAST)
      modifies a, a.lib`brk, a.lib`enomem, a.lib.mem
      modifies ledger, ledger.blocks, ledger.sizes, ledger.ranges, ledger.ranges.nodes
      ensures v == Pass <==>
        && !HasMisread(ops)
        && Completes(Accepts(a.lib.mem.Length), First(a.lib.start, old(ledger.blocks[..])), ops)
      ensures v == Pass <==> r.Ratio?
      ensures r.Ratio? ==> a.lib.brk > a.lib.start && Accounted(a.s.ar.h, a.lib.start, a.lib.start + 96, a.lib.brk)
      ensures r.Ratio? ==>
        && r.u == (Peak(ops, |ops|, ledger.blocks.Length) as real) / ((a.lib.brk - a.lib.start) as real)
        && Utilised(r.u, Peak(ops, |ops|, ledger.blocks.Length), a.lib.brk - a.lib.start, 104 + Demand(ops, |ops|))
    {
      hide Peak, Books, WellFormed, Run, Accepts, Refuses, After, Demand, Utilised, First, Misread, Outcome, Completes,
           HasMisread, Accounted;
      ghost var run, run2, b := [], [], ledger.blocks[..];
      v, run := EvalMmValid(ops);
      r := Died;
      if v == Pass {
        BooksClean(After(ops, |ops|));
        a.lib.Clear();
        ledger.CleanUp();
        assert ledger.blocks[..] == b;
        r, run2 := EvalMmUtil(ops);
      }
    }

    lemma BooksClean(ids: Ids)
      requires Books(ids)
      ensures a.lib.Valid() && ledger.Wired() && ledger.lib == a.lib && ledger.ranges.Valid()
    {
    }

    /** The start of eval_mm_util. */
    method CountBegin()
      requires a.lib.Valid() && a.lib.brk == a.lib.start && ledger.lib == a.lib && ledger.Blank()
      modifies a, a.lib`brk, a.lib`enomem, a.lib.mem, ledger
      ensures Counted(Ids({}, {}), map[]) && a.lib.Valid() && a.lib.brk == a.lib.start + 104
      ensures Now() == First(a.lib.start, ledger.blocks[..]) && a.listp == a.lib.start + 96
    {
      hide Booked, Core, FreeListed, Apart, SmallSeen, InitialState, Live, Ptr;
      var x := a.Init();
      ledger.owner := map[];
      CountStart();
    }

    lemma CountStart()
      requires ledger.lib == a.lib && ledger.Blank() && a.Valid() && a.s == InitialState(a.lib.start)
      requires ledger.owner == map[] && a.lib.brk == a.lib.start + 104 && Ptr(a.lib.mem[..], a.table) == 0
      ensures Counted(Ids({}, {}), map[]) && Now() == First(a.lib.start, ledger.blocks[..])
      ensures a.listp == a.lib.start + 96
    {
      BookStart(Live(a.s.ar.h), a.s.ar.Lo(), ledger.blocks[..], ledger.sizes[..]);
    }

    lemma CountAccount(ids: Ids, req: map<nat, nat>)
      requires Counted(ids, req)
      ensures Accounted(a.s.ar.h, a.lib.start, a.listp, a.lib.brk)
    {
      HeapAccounted(a);
    }

    /** The live request sizes fit into the heap together. */
    lemma CountBound(ops: seq<Op>, k: nat)
      requires k <= |ops| && Counted(After(ops, k), Requested(ops, k))
      ensures Sum(Requested(ops, k), ledger.blocks.Length) <= a.lib.brk - a.lib.start && a.lib.Valid()
    {
      hide Core, FreeListed, Apart, SmallSeen, Booked, Live, Sum, Sound;
      Soundness(a.lib.mem[..], a.s);
      RequestedLive(ops, k);
      FitTogether(a.s.ar.h, a.s.ar.Lo(), a.s.ar.brk, ledger.blocks[..], ledger.sizes[..], After(ops, k), ledger.owner,
                  Requested(ops, k));
    }

    lemma BooksAccount(ids: Ids)
      requires Books(ids)
      ensures Accounted(a.s.ar.h, a.lib.start, a.listp, a.lib.brk)
    {
      HeapAccounted(a);
    }

    lemma BooksLib(ids: Ids)
      requires Books(ids)
      ensures a.lib.Valid()
    {
    }
  }

  /** The driver rejects a trace on which the allocator has kept all data: memory is ample,
      and only the comparison of chars with an int fails. */
  method RejectKeptData(e: Evaluation) returns (v: Verdict)
    requires e.a.lib.Valid() && e.ledger.lib == e.a.lib && e.ledger.Blank() && e.ledger.blocks.Length == 129
    modifies e.a, e.a.lib`brk, e.a.lib`enomem, e.a.lib.mem
    modifies e.ledger, e.ledger.blocks, e.ledger.sizes, e.ledger.ranges, e.ledger.ranges.nodes
    ensures v == Fail
  {
    var ops := [Alloc(128, 16), Realloc(128, 16)];
    MisreadTrace(LEAST);
    assert Demand(ops, 1) == 24 && Demand(ops, 2) == 48;
    hide WellFormed, HasMisread, Demand;
    ghost var run;
    v, run := e.EvalMmValid(ops);
  }

  /** Before the first request: an empty table and the prologue. */
  ghost function First(start: nat, b: seq<nat>): Stage {
    Stage(View(InitialState(start).ar.h, start + 104, 0), Lists(map[], 0), b)
  }

  lemma HeadWrite(m: Mem, m': Mem, s: State, p: nat, n: nat)
    requires Core(m, s) && p in s.ar.h && Only(m, m', p, n)
    ensures Ptr(m', s.ar.tbl) == Ptr(m, s.ar.tbl)
  {
    assert BlockIn(p, s.ar.h[p], s.ar.Lo(), s.ar.brk);
    BelowWrite(m, m', s.ar.tbl, p, n);
  }

  lemma InitialLive(tbl: nat)
    ensures InitialState(tbl).nd == map[] && InitialState(tbl).ctr == 0
    ensures Live(InitialState(tbl).ar.h).Keys == {InitialState(tbl).ar.Lo()} && InitialState(tbl).ar.Lo() == tbl + 96
  {
  }
}
