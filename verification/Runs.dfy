/** Runs of an allocator through a trace, for any relation that says which requests it accepts
    and what they make of its state. */
module Runs {
  import opened Books

  /** accepts(x, y, op, ids): in state x, with the ids in use, op is accepted and leads to y. */
  type Acceptance<!S> = (S, S, Op, Ids) -> bool

  /** The states before the first requests of a trace, from x on, and after the last of them. */
  ghost predicate Run<S(!new)>(accepts: Acceptance<S>, run: seq<S>, x: S, ops: seq<Op>) {
    && 0 < |run| <= |ops| + 1 && run[0] == x
    && forall j {:trigger run[j]} :: 0 <= j < |run| - 1 ==> accepts(run[j], run[j + 1], ops[j], After(ops, j))
  }

  /** A run from x gets through the whole trace. */
  ghost predicate Completes<S(!new)>(accepts: Acceptance<S>, x: S, ops: seq<Op>) {
    exists run {:trigger Run(accepts, run, x, ops)} :: Run(accepts, run, x, ops) && |run| == |ops| + 1
  }

  /** The state before a request determines the one after it. */
  ghost predicate Functional<S(!new)>(accepts: Acceptance<S>) {
    forall x, y, z, op, ids {:trigger accepts(x, y, op, ids), accepts(x, z, op, ids)} ::
      accepts(x, y, op, ids) && accepts(x, z, op, ids) ==> y == z
  }

  lemma RunLength<S(!new)>(accepts: Acceptance<S>, run: seq<S>, x: S, ops: seq<Op>)
    requires Run(accepts, run, x, ops)
    ensures 0 < |run| <= |ops| + 1 && run[0] == x
  {
  }

  lemma RunStart<S(!new)>(accepts: Acceptance<S>, x: S, ops: seq<Op>)
    ensures Run(accepts, [x], x, ops)
  {
  }

  lemma RunOn<S(!new)>(accepts: Acceptance<S>, run: seq<S>, x: S, y: S, ops: seq<Op>)
    requires Run(accepts, run, x, ops) && |run| <= |ops|
    requires accepts(run[|run| - 1], y, ops[|run| - 1], After(ops, |run| - 1))
    ensures Run(accepts, run + [y], x, ops)
  {
    hide After;
    var run' := run + [y];
    forall j {:trigger run'[j]} | 0 <= j < |run'| - 1 ensures accepts(run'[j], run'[j + 1], ops[j], After(ops, j)) {
      assert run'[j] == run[j] && (j + 1 < |run| ==> run'[j + 1] == run[j + 1]);
    }
  }

  /** Two runs of the same trace from the same state agree as long as both last. */
  lemma {:induction false} RunUnique<S(!new)>(accepts: Acceptance<S>, r1: seq<S>, r2: seq<S>, x: S, ops: seq<Op>,
      k: nat)
    requires Functional(accepts) && Run(accepts, r1, x, ops) && Run(accepts, r2, x, ops) && k < |r1| && k < |r2|
    ensures r1[k] == r2[k]
  {
    if k > 0 {
      RunUnique(accepts, r1, r2, x, ops, k - 1);
      assert accepts(r1[k - 1], r1[k - 1 + 1], ops[k - 1], After(ops, k - 1));
      assert accepts(r2[k - 1], r2[k - 1 + 1], ops[k - 1], After(ops, k - 1));
    }
  }

  /** The run completes, or it ends at a request that is not accepted, and then none completes. */
  lemma RunEnds<S(!new)>(accepts: Acceptance<S>, run: seq<S>, x: S, ops: seq<Op>)
    requires Functional(accepts) && Run(accepts, run, x, ops)
    requires var k := |run| - 1;
      k < |ops| ==> forall y {:trigger accepts(run[k], y, ops[k], After(ops, k))} ::
        !accepts(run[k], y, ops[k], After(ops, k))
    ensures Completes(accepts, x, ops) <==> |run| == |ops| + 1
  {
    var k := |run| - 1;
    if k < |ops| && Completes(accepts, x, ops) {
      var r :| Run(accepts, r, x, ops) && |r| == |ops| + 1;
      assert accepts(r[k], r[k + 1], ops[k], After(ops, k));
      RunUnique(accepts, r, run, x, ops, k);
    }
  }
}
