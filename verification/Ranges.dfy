/** The range list of mdriver.c, which records the extent of every allocated payload. */
module Ranges {
  import opened Memory

  /** A payload's first and last address. */
  datatype Range = Range(lo: nat, hi: int)

  /** The range of a payload of size bytes at lo. */
  function Extent(lo: nat, size: nat): Range {
    var a: int, n: int := lo, size;
    Range(lo, a + n - 1)
  }

  ghost predicate Covers(r: Range, a: int) {
    r.lo <= a <= r.hi
  }

  /** Neither end of n lies in r. */
  predicate EndsClear(r: Range, n: Range) {
    !(r.lo <= n.lo <= r.hi) && !(r.lo <= n.hi <= r.hi)
  }

  /** For nonempty ranges, no address of n is in a recorded range exactly if neither end of n
      is and no recorded range lies strictly inside n. */
  lemma DisjointIff(rs: seq<Range>, n: Range)
    requires n.lo <= n.hi && forall k :: 0 <= k < |rs| ==> rs[k].lo <= rs[k].hi
    ensures (forall k, a {:trigger Covers(rs[k], a)} :: 0 <= k < |rs| && Covers(n, a) ==> !Covers(rs[k], a)) <==>
            (forall k :: 0 <= k < |rs| ==> EndsClear(rs[k], n) && !(n.lo < rs[k].lo && rs[k].hi < n.hi))
  {
    if forall k, a {:trigger Covers(rs[k], a)} :: 0 <= k < |rs| && Covers(n, a) ==> !Covers(rs[k], a) {
      forall k | 0 <= k < |rs| ensures EndsClear(rs[k], n) && !(n.lo < rs[k].lo && rs[k].hi < n.hi) {
        assert !Covers(rs[k], n.lo) && !Covers(rs[k], n.hi) && Covers(rs[k], rs[k].lo);
      }
    }
  }

  /** The list without its first range that starts at lo. */
  ghost function Removed(rs: seq<Range>, lo: nat): seq<Range> {
    if rs == [] then []
    else if rs[0].lo == lo then rs[1..]
    else [rs[0]] + Removed(rs[1..], lo)
  }

  /** Where starts are distinct, removal takes out exactly the range that starts at lo. */
  lemma {:induction false} RemovedExact(rs: seq<Range>, lo: nat)
    requires forall j, k :: 0 <= j < k < |rs| ==> rs[j].lo != rs[k].lo
    ensures forall r :: r in Removed(rs, lo) <==> r in rs && r.lo != lo
    ensures forall j, k :: 0 <= j < k < |Removed(rs, lo)| ==> Removed(rs, lo)[j].lo != Removed(rs, lo)[k].lo
  {
    if rs != [] {
      var t, out := rs[1..], Removed(rs, lo);
      assert rs == [rs[0]] + t;
      if rs[0].lo != lo {
        RemovedExact(t, lo);
        var u := Removed(t, lo);
        assert out == [rs[0]] + u;
        forall j, k | 0 <= j < k < |out| ensures out[j].lo != out[k].lo {
          assert out[k] == u[k - 1] && u[k - 1] in u;
          if j > 0 { assert out[j] == u[j - 1]; }
        }
      }
    }
  }

  lemma RemovedStep(rs: seq<Range>, k: nat, lo: nat)
    requires k < |rs| && Removed(rs, lo) == rs[..k] + Removed(rs[k..], lo)
    ensures if rs[k].lo == lo then Removed(rs, lo) == rs[..k] + rs[k + 1..]
            else Removed(rs, lo) == rs[..k + 1] + Removed(rs[k + 1..], lo)
  {
    assert rs[k..][1..] == rs[k + 1..];
    if rs[k].lo != lo {
      assert rs[..k + 1] + Removed(rs[k + 1..], lo) == rs[..k] + ([rs[k]] + Removed(rs[k + 1..], lo));
    }
  }

  /** The sequence without position k. */
  function Without<T>(s: seq<T>, k: nat): (r: seq<T>)
    requires k < |s|
  {
    s[..k] + s[k + 1..]
  }

  lemma WithoutAt<T>(s: seq<T>, k: nat)
    requires k < |s|
    ensures |Without(s, k)| == |s| - 1
    ensures forall j :: 0 <= j < |s| - 1 ==> Without(s, k)[j] == s[if j < k then j else j + 1]
  {
  }

  class RangeNode {
    var lo: nat
    var hi: int
    var next: RangeNode?

    constructor (lo: nat, hi: int, next: RangeNode?)
      ensures this.lo == lo && this.hi == hi && this.next == next
    {
      this.lo, this.hi, this.next := lo, hi, next;
    }
  }

  class RangeList {
    var head: RangeNode?
    ghost var nodes: seq<RangeNode>
    ghost var ranges: seq<Range>

    ghost predicate Valid()
      reads this, nodes
    {
      && |ranges| == |nodes|
      && (forall k :: 0 <= k < |nodes| ==> ranges[k] == Range(nodes[k].lo, nodes[k].hi))
      && (forall j, k :: 0 <= j < k < |nodes| ==> nodes[j] != nodes[k])
      && head == At(0)
      && (forall k {:trigger nodes[k].next} :: 0 <= k < |nodes| ==> nodes[k].next == At(k + 1))
    }

    /** The node at position k, or null behind the last one. */
    ghost function At(k: nat): RangeNode?
      reads this
    {
      if k < |nodes| then nodes[k] else null
    }

    constructor ()
      ensures Valid() && ranges == [] && nodes == []
    {
      head, nodes, ranges := null, [], [];
    }

    /** add_range: the range of size bytes at lo is recorded, exactly if it is aligned, its first
        and last byte are inside the heap, and neither of them is in a recorded range;
        otherwise nothing changes. */
    method AddRange(lib: Memlib, lo: nat, size: nat) returns (ok: bool)
      requires Valid()
      modifies this
      ensures Valid()
      ensures var hi := lo + size - 1;
        ok <==>
          && lo % 8 == 0 && lib.start <= lo < lib.brk && lib.start <= hi < lib.brk
          && forall r {:trigger r in old(ranges)} :: r in old(ranges) ==>
               !(r.lo <= lo <= r.hi) && !(r.lo <= hi <= r.hi)
      ensures ok ==> ranges == [Range(lo, lo + size - 1)] + old(ranges)
      ensures ok ==> |nodes| == |old(nodes)| + 1 && nodes[1..] == old(nodes) && fresh(nodes[0])
      ensures !ok ==> ranges == old(ranges) && nodes == old(nodes)
    {
      var hi := lo + size - 1;
      if lo % 8 != 0 {
        return false;
      }
      if lo < lib.HeapLo() || lo > lib.HeapHi() || hi < lib.HeapLo() || hi > lib.HeapHi() {
        return false;
      }
      var p := head;
      ghost var k := 0;
      while p != null
        invariant k <= |nodes| && p == At(k)
        invariant forall j :: 0 <= j < k ==> EndsClear(ranges[j], Range(lo, hi))
        decreases |nodes| - k
      {
        if (lo >= p.lo && lo <= p.hi) || (hi >= p.lo && hi <= p.hi) {
          assert ranges[k] in ranges;
          return false;
        }
        p := p.next;
        k := k + 1;
      }
      var node := new RangeNode(lo, hi, head);
      head := node;
      nodes, ranges := [node] + nodes, [Range(lo, hi)] + ranges;
      return true;
    }

    /** remove_range: the first range that starts at lo, if any, is unlinked. */
    method RemoveRange(lo: nat)
      requires Valid()
      modifies this, nodes
      ensures Valid() && ranges == Removed(old(ranges), lo)
      ensures forall x :: x in nodes ==> x in old(nodes)
    {
      var p := head;
      var prev: RangeNode? := null;
      ghost var k := 0;
      assert ranges[..0] == [] && ranges[0..] == ranges;
      while p != null
        invariant unchanged(this) && unchanged(nodes)
        invariant k <= |nodes| && p == At(k) && prev == (if k == 0 then null else At(k - 1))
        invariant Removed(ranges, lo) == ranges[..k] + Removed(ranges[k..], lo)
        decreases |nodes| - k
      {
        RemovedStep(ranges, k, lo);
        if p.lo == lo {
          Unlink(prev, p, k);
          return;
        }
        prev := p;
        p := p.next;
        k := k + 1;
      }
      assert ranges[k..] == [] && ranges[..k] == ranges;
    }

    /** *prevpp = p->next, where prevpp is the head variable or prev's next field. */
    method Unlink(prev: RangeNode?, p: RangeNode, ghost k: nat)
      requires Valid() && k < |nodes| && p == nodes[k] && prev == (if k == 0 then null else nodes[k - 1])
      modifies this, nodes
      ensures Valid() && ranges == Without(old(ranges), k) && nodes == Without(old(nodes), k)
    {
      hide Without;
      WithoutAt(nodes, k);
      WithoutAt(ranges, k);
      assert p.next == At(k + 1);
      if prev == null {
        head := p.next;
      } else {
        prev.next := p.next;
      }
      nodes, ranges := Without(nodes, k), Without(ranges, k);
    }

    /** clear_ranges: the traversal that frees every node comes to the end of the list. */
    method ClearRanges()
      requires Valid()
      modifies this
      ensures Valid() && ranges == [] && nodes == []
    {
      var p := head;
      ghost var k := 0;
      while p != null
        invariant k <= |nodes| && p == At(k)
        decreases |nodes| - k
      {
        p := p.next;
        k := k + 1;
      }
      head, nodes, ranges := null, [], [];
    }
  }

  /** The test of the ends alone accepts a range that swallows a recorded one. */
  method SwallowedRangeAccepted(lib: Memlib) returns (list: RangeList)
    requires lib.Valid() && lib.start + 40 <= lib.brk
    ensures list.Valid() && list.ranges == [Range(lib.start, lib.start + 39), Range(lib.start + 8, lib.start + 15)]
  {
    list := new RangeList();
    var ok := list.AddRange(lib, lib.start + 8, 8);
    ok := list.AddRange(lib, lib.start, 40);
  }
}
