/** fcyc.c: the K-best scheme, which samples until the k smallest times seen agree. */
module Sampler {

  ghost predicate Ordered(s: seq<real>) {
    forall i, j :: 0 <= i < j < |s| ==> s[i] <= s[j]
  }

  /** x inserted into an ordered sequence, behind its equals. */
  function Insert(s: seq<real>, x: real): (r: seq<real>)
    ensures |r| == |s| + 1
  {
    if s == [] || s[|s| - 1] <= x then s + [x] else Insert(s[..|s| - 1], x) + [s[|s| - 1]]
  }

  function Sort(s: seq<real>): (r: seq<real>)
    ensures |r| == |s|
  {
    if s == [] then [] else Insert(Sort(s[..|s| - 1]), s[|s| - 1])
  }

  function Min(a: nat, b: nat): nat {
    if a < b then a else b
  }

  /** The k smallest of s, in order; all of s if there are fewer. */
  function KBest(s: seq<real>, k: nat): (r: seq<real>)
    ensures |r| == Min(|s|, k)
  {
    Sort(s)[..Min(|s|, k)]
  }

  /** How many samples are at most b. */
  function CountUpTo(s: seq<real>, b: real): nat {
    if s == [] then 0 else CountUpTo(s[..|s| - 1], b) + (if s[|s| - 1] <= b then 1 else 0)
  }

  /** The stopping rule: k samples have been taken, and the k-th smallest is within a factor
      1 + epsilon of the smallest. */
  ghost predicate Converged(s: seq<real>, k: nat, epsilon: real) {
    k >= 1 && |s| >= k && (1.0 + epsilon) * KBest(s, k)[0] >= KBest(s, k)[k - 1]
  }

  // ---------------------------------------------------------------------------
  // Sorting
  // ---------------------------------------------------------------------------

  lemma {:induction false} InsertPermutes(s: seq<real>, x: real)
    ensures multiset(Insert(s, x)) == multiset(s) + multiset{x}
  {
    if s != [] && s[|s| - 1] > x {
      var t := s[..|s| - 1];
      InsertPermutes(t, x);
      assert s == t + [s[|s| - 1]];
    }
  }

  lemma {:induction false} InsertOrdered(s: seq<real>, x: real)
    requires Ordered(s)
    ensures Ordered(Insert(s, x))
  {
    if s != [] && s[|s| - 1] > x {
      var t := s[..|s| - 1];
      InsertOrdered(t, x);
      InsertPermutes(t, x);
      var u := Insert(t, x);
      forall y | y in u ensures y <= s[|s| - 1] {
        assert y in multiset(u);
        assert y == x || y in multiset(t);
      }
      forall i | 0 <= i < |u| ensures u[i] <= s[|s| - 1] {
        assert u[i] in u;
      }
    }
  }

  lemma {:induction false} SortPermutes(s: seq<real>)
    ensures multiset(Sort(s)) == multiset(s)
  {
    if s != [] {
      var t := s[..|s| - 1];
      SortPermutes(t);
      InsertPermutes(Sort(t), s[|s| - 1]);
      assert s == t + [s[|s| - 1]];
    }
  }

  lemma {:induction false} SortOrdered(s: seq<real>)
    ensures Ordered(Sort(s))
  {
    if s != [] {
      SortOrdered(s[..|s| - 1]);
      InsertOrdered(Sort(s[..|s| - 1]), s[|s| - 1]);
    }
  }

  /** The samples are those in KBest and others, none of which is smaller than one of KBest. */
  lemma KBestIsBest(s: seq<real>, k: nat)
    ensures var best, rest := KBest(s, k), Sort(s)[Min(|s|, k)..];
      && Ordered(best) && multiset(best) + multiset(rest) == multiset(s)
      && forall x, y :: x in best && y in rest ==> x <= y
  {
    SortPermutes(s);
    SortOrdered(s);
    SplitOrdered(Sort(s), Min(|s|, k));
  }

  lemma SplitOrdered(t: seq<real>, n: nat)
    requires Ordered(t) && n <= |t|
    ensures Ordered(t[..n]) && multiset(t[..n]) + multiset(t[n..]) == multiset(t)
    ensures forall x, y :: x in t[..n] && y in t[n..] ==> x <= y
  {
    assert t == t[..n] + t[n..];
  }

  // ---------------------------------------------------------------------------
  // A new sample
  // ---------------------------------------------------------------------------

  /** Only the first k elements matter for the first k elements of the result. */
  lemma {:induction false} InsertPrefix(s: seq<real>, x: real, k: nat)
    requires Ordered(s) && 1 <= k <= |s|
    ensures Insert(s, x)[..k] == if x < s[k - 1] then Insert(s[..k - 1], x) else s[..k]
  {
    if s[|s| - 1] > x {
      var t := s[..|s| - 1];
      if k < |s| {
        InsertPrefix(t, x, k);
        assert Insert(s, x)[..k] == Insert(t, x)[..k] && t[..k - 1] == s[..k - 1] && t[..k] == s[..k];
      } else {
        assert Insert(s, x)[..k] == Insert(t, x);
      }
    }
  }

  /** How one more sample changes the k best. */
  lemma KBestStep(s: seq<real>, x: real, k: nat)
    requires k >= 1
    ensures var b := KBest(s, k);
      KBest(s + [x], k) == if |s| < k then Insert(b, x) else if x < b[k - 1] then Insert(b[..k - 1], x) else b
    ensures Ordered(KBest(s, k))
  {
    var s' := s + [x];
    assert s'[..|s'| - 1] == s;
    SortPermutes(s);
    SortPermutes(s');
    SortOrdered(s);
    if |s| < k {
      assert KBest(s, k) == Sort(s) && KBest(s', k) == Sort(s');
    } else {
      InsertPrefix(Sort(s), x, k);
      assert KBest(s, k)[..k - 1] == Sort(s)[..k - 1];
    }
  }

  // ---------------------------------------------------------------------------
  // What convergence means
  // ---------------------------------------------------------------------------

  lemma {:induction false} CountInsert(s: seq<real>, x: real, b: real)
    ensures CountUpTo(Insert(s, x), b) == CountUpTo(s, b) + (if x <= b then 1 else 0)
  {
    var u := Insert(s, x);
    if s == [] || s[|s| - 1] <= x {
      assert u[..|u| - 1] == s;
    } else {
      CountInsert(s[..|s| - 1], x, b);
      assert u[..|u| - 1] == Insert(s[..|s| - 1], x);
    }
  }

  lemma {:induction false} CountSort(s: seq<real>, b: real)
    ensures CountUpTo(Sort(s), b) == CountUpTo(s, b)
  {
    if s != [] {
      CountSort(s[..|s| - 1], b);
      CountInsert(Sort(s[..|s| - 1]), s[|s| - 1], b);
    }
  }

  lemma {:induction false} CountOrdered(s: seq<real>, b: real, k: nat)
    requires Ordered(s) && 1 <= k <= |s|
    ensures s[k - 1] <= b <==> CountUpTo(s, b) >= k
    ensures s[|s| - 1] <= b ==> CountUpTo(s, b) == |s|
    ensures CountUpTo(s, b) <= |s|
  {
    var t := s[..|s| - 1];
    if t != [] {
      CountOrdered(t, b, if k < |s| then k else k - 1);
    }
  }

  lemma CountKBest(s: seq<real>, k: nat, b: real)
    requires 1 <= k <= |s|
    ensures KBest(s, k)[k - 1] <= b <==> CountUpTo(s, b) >= k
    ensures KBest(s, k)[0] == KBest(s, 1)[0]
  {
    SortOrdered(s);
    CountSort(s, b);
    CountOrdered(Sort(s), b, k);
  }

  /** The sampler has converged exactly if at least k samples are within a factor
      1 + epsilon of the smallest sample. */
  lemma ConvergedIff(s: seq<real>, k: nat, epsilon: real)
    requires k >= 1
    ensures Converged(s, k, epsilon) <==> |s| >= k && CountUpTo(s, (1.0 + epsilon) * KBest(s, 1)[0]) >= k
  {
    hide KBest, CountUpTo;
    if |s| >= k {
      CountKBest(s, k, (1.0 + epsilon) * KBest(s, 1)[0]);
    }
  }

  /** The smallest sample is one of the samples, and no sample is below it. */
  lemma SmallestIsMinimum(s: seq<real>)
    requires s != []
    ensures KBest(s, 1)[0] in s && forall x :: x in s ==> KBest(s, 1)[0] <= x
  {
    SortPermutes(s);
    SortOrdered(s);
    var t := Sort(s);
    assert t[0] in multiset(t);
    forall x | x in s ensures t[0] <= x {
      assert x in multiset(s);
      assert x in t;
    }
  }

  // ---------------------------------------------------------------------------
  // The sampler
  // ---------------------------------------------------------------------------

  /** The first n measurements. */
  function Samples(measure: nat -> real, n: nat): seq<real> {
    seq(n, i requires 0 <= i => measure(i))
  }

  /** The state of the insertion loop: v starts with t, except that x stands before t[pos];
      its place in the ordered result is there or lower. */
  ghost predicate Sifting(v: seq<real>, t: seq<real>, x: real, pos: nat) {
    && pos <= |t| < |v| && v[pos] == x
    && (forall i :: 0 <= i < pos ==> v[i] == t[i])
    && (forall i :: pos <= i < |t| ==> v[i + 1] == t[i])
    && Insert(t, x) == Insert(t[..pos], x) + t[pos..]
  }

  lemma SiftStart(v: seq<real>, t: seq<real>, x: real)
    requires |t| < |v| && v[..|t|] == t && v[|t|] == x
    ensures Sifting(v, t, x, |t|)
  {
    assert t[..|t|] == t && t[|t|..] == [];
    forall i | 0 <= i < |t| ensures v[i] == t[i] {
      assert v[..|t|][i] == t[i];
    }
  }

  lemma SiftDown(v: seq<real>, t: seq<real>, x: real, pos: nat)
    requires Sifting(v, t, x, pos) && pos >= 1 && v[pos - 1] > v[pos]
    ensures Sifting(v[pos - 1 := v[pos]][pos := v[pos - 1]], t, x, pos - 1)
  {
    assert t[..pos][..pos - 1] == t[..pos - 1];
    assert Insert(t[..pos], x) == Insert(t[..pos - 1], x) + [t[pos - 1]];
  }

  lemma SiftEnd(v: seq<real>, t: seq<real>, x: real, pos: nat)
    requires Sifting(v, t, x, pos) && (pos == 0 || v[pos - 1] <= v[pos])
    ensures v[..|t| + 1] == Insert(t, x)
  {
    var u := t[..pos] + [x] + t[pos..];
    assert Insert(t, x) == u by {
      assert pos > 0 ==> t[..pos][pos - 1] == t[pos - 1];
    }
    hide Insert;
    forall i | 0 <= i < |u| ensures v[i] == u[i] {
      if i > pos { assert v[(i - 1) + 1] == t[i - 1]; }
    }
    assert v[..|t| + 1] == u;
  }

  lemma Smallest(measure: nat -> real, n: nat)
    requires n >= 1
    ensures forall k :: k >= 1 ==> KBest(Samples(measure, n), k)[0] == KBest(Samples(measure, n), 1)[0]
    ensures var least := KBest(Samples(measure, n), 1)[0];
      (exists i :: 0 <= i < n && least == measure(i)) && forall i :: 0 <= i < n ==> least <= measure(i)
  {
    var s := Samples(measure, n);
    SmallestIsMinimum(s);
    var least := KBest(s, 1)[0];
    var i :| 0 <= i < |s| && s[i] == least;
    assert least == measure(i);
    forall j | 0 <= j < n ensures least <= measure(j) {
      assert s[j] in s;
    }
  }

  class KBestSampler {
    var kbest: int
    var maxsamples: int
    var epsilon: real
    var values: array?<real>
    var samplecount: nat

    constructor (kbest: int, maxsamples: int, epsilon: real)
      ensures this.kbest == kbest && this.maxsamples == maxsamples && this.epsilon == epsilon && values == null
    {
      this.kbest, this.maxsamples, this.epsilon := kbest, maxsamples, epsilon;
      values, samplecount := null, 0;
    }

    /** values starts with the kbest smallest of the samples s so far, in order. */
    ghost predicate Holds(s: seq<real>)
      reads this, values
    {
      && kbest >= 1 && samplecount == |s|
      && values != null && values.Length == kbest && values[..Min(|s|, kbest)] == KBest(s, kbest)
    }

    /** init_sampler */
    method InitSampler()
      requires kbest >= 1
      modifies this`values, this`samplecount
      ensures Holds([]) && fresh(values)
    {
      values := new real[kbest](_ => 0.0);
      samplecount := 0;
    }

    /** add_sample: a value that is not among the kbest smallest is dropped, any other is put
        at the end and sorted in by swapping. */
    method AddSample(val: real, ghost s: seq<real>)
      requires Holds(s)
      modifies this`samplecount, values
      ensures Holds(s + [val])
    {
      hide KBest, Insert, Sifting;
      KBestStep(s, val, kbest);
      ghost var best := KBest(s, kbest);
      var pos := 0;
      ghost var kept := true;
      if samplecount < kbest {
        pos := samplecount;
        values[pos] := val;
      } else if val < values[kbest - 1] {
        pos := kbest - 1;
        values[pos] := val;
      } else {
        kept := false;
      }
      samplecount := samplecount + 1;
      ghost var t, best' := best[..pos], KBest(s + [val], kbest);
      if kept {
        SiftStart(values[..], t, val);
      }
      while pos > 0 && values[pos - 1] > values[pos]
        invariant 0 <= pos < kbest && samplecount == |s| + 1
        invariant if kept then Sifting(values[..], t, val, pos) else pos == 0 && values[..] == best'
      {
        SiftDown(values[..], t, val, pos);
        var temp := values[pos - 1];
        values[pos - 1] := values[pos];
        values[pos] := temp;
        pos := pos - 1;
      }
      if kept {
        SiftEnd(values[..], t, val, pos);
        assert values[..|t| + 1] == values[..][..|t| + 1];
      }
    }

    /** has_converged */
    method HasConverged(ghost s: seq<real>) returns (b: bool)
      requires Holds(s)
      ensures b <==> Converged(s, kbest, epsilon)
    {
      if samplecount < kbest {
        return false;
      }
      assert values[..kbest][0] == values[0] && values[..kbest][kbest - 1] == values[kbest - 1];
      return (1.0 + epsilon) * values[0] >= values[kbest - 1];
    }

    /** fcyc, where the i-th run of the function takes measure(i) cycles. It runs the function
        at least once and at most maxsamples times otherwise, stops at the first convergence,
        and returns the smallest measurement. */
    method Fcyc(measure: nat -> real) returns (result: real, ghost n: nat)
      requires kbest >= 1
      modifies this`values, this`samplecount
      ensures 1 <= n && (n == 1 || n <= maxsamples)
      ensures forall j :: 1 <= j < n ==> !Converged(Samples(measure, j), kbest, epsilon)
      ensures n < maxsamples ==> Converged(Samples(measure, n), kbest, epsilon)
      ensures (exists i :: 0 <= i < n && result == measure(i)) && forall i :: 0 <= i < n ==> result <= measure(i)
    {
      hide Converged, KBest;
      InitSampler();
      n := 0;
      assert Samples(measure, 0) == [];
      ghost var done := false;
      while true
        invariant Holds(Samples(measure, n)) && fresh(values) && (n == 0 || n < maxsamples)
        invariant forall j :: 1 <= j <= n ==> !Converged(Samples(measure, j), kbest, epsilon)
        decreases maxsamples - n
      {
        var cyc := measure(samplecount);
        AddSample(cyc, Samples(measure, n));
        assert Samples(measure, n + 1) == Samples(measure, n) + [cyc];
        n := n + 1;
        var converged := HasConverged(Samples(measure, n));
        if !(!converged && samplecount < maxsamples) {
          break;
        }
      }
      Smallest(measure, n);
      assert values[..Min(n, kbest)][0] == values[0];
      result := values[0];
      values := null;
    }
  }
}
