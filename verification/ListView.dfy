/** What the operations of segregate.c make of the free lists: which nodes are on them, and in
    which order. A list is ordered by insertion time, latest first. */
module ListView {
  import opened Memory
  import opened Blocks
  import opened LiveBlocks
  import opened SizeClass
  import opened FreeLists
  import opened SegregateHeap
  import opened HeapView

  datatype Lists = Lists(nd: Nodes, ctr: nat)

  /** A free block of more than 16 bytes is pushed on the list of its class. */
  ghost function Listed(l: Lists, h: Heap, p: nat): Lists {
    if p in h && h[p].size > 16 then Lists(l.nd[p := Node(FltClass(h[p].size - 8), l.ctr)], l.ctr + 1) else l
  }

  /** Block p freed: its free neighbours leave their lists, and the merged block is pushed. */
  ghost function ListsFreed(l: Lists, h: Heap, p: nat): Lists
    requires p in h
  {
    Listed(l.(nd := l.nd - {MergePoint(h, p), p + h[p].size}), FreedHeap(h, p), MergePoint(h, p))
  }

  /** Block p leaves its list, and its rest behind n bytes is freed. */
  ghost function ListsCut(l: Lists, h: Heap, p: nat, n: nat): Lists {
    if p in h && n <= h[p].size then ListsFreed(l.(nd := l.nd - {p}), Split(h, p, n, true, false), p + n) else l
  }

  /** A block of n bytes allocated at r. */
  ghost function ListsTaken(l: Lists, h: Heap, r: nat, n: nat): Lists {
    if r !in h then l
    else if h[r].size >= n + 16 then ListsCut(l, h, r, n)
    else l.(nd := l.nd - {r})
  }

  /** The block at ptr given n bytes, at np if that is larger than it was. */
  ghost function ListsRefitted(l: Lists, v: View, ptr: nat, np: nat, n: nat): Lists {
    if ptr !in v.h then l
    else if n > v.h[ptr].size then
      var h1 := Taken(v, np, n).h;
      if ptr in h1 then ListsFreed(ListsTaken(l, v.h, np, n), h1, ptr) else l
    else if v.h[ptr].size >= n + 16 then ListsCut(l, v.h, ptr, n)
    else l
  }

  // ---------------------------------------------------------------------------
  // The block that a search finds
  // ---------------------------------------------------------------------------

  /** Node p has room, and is in a slot from the request's class upward. */
  ghost predicate Suits(l: Lists, h: Heap, size: nat, p: nat) {
    p in l.nd && p in h && h[p].size >= Align(size) + 8 && FltClass(size) <= l.nd[p].slot
  }

  /** r is the first suitable node of the lowest slot that has one. */
  ghost predicate Found(l: Lists, h: Heap, size: nat, r: nat) {
    && Suits(l, h, size, r)
    && forall p {:trigger Suits(l, h, size, p)} :: Suits(l, h, size, p) ==>
         l.nd[r].slot < l.nd[p].slot || (l.nd[r].slot == l.nd[p].slot && l.nd[p].stamp <= l.nd[r].stamp)
  }

  /** No two nodes of a slot were inserted at the same time. */
  ghost predicate Ordered(nd: Nodes) {
    forall p, q {:trigger nd[p], nd[q]} ::
      p in nd && q in nd && nd[p].slot == nd[q].slot && nd[p].stamp == nd[q].stamp ==> p == q
  }

  lemma FoundUnique(l: Lists, h: Heap, size: nat, p: nat, q: nat)
    requires Ordered(l.nd) && Found(l, h, size, p) && Found(l, h, size, q)
    ensures p == q
  {
    hide FltClass, Align;
    assert Suits(l, h, size, p) && Suits(l, h, size, q);
    assert l.nd[p] == l.nd[p] && l.nd[q] == l.nd[q];
  }

  /** The links in memory put the nodes of a slot in the order of their insertion. */
  lemma ListsOrdered(m: Mem, s: State)
    requires Core(m, s)
    ensures Ordered(s.nd)
  {
    hide Framed, NodesFree;
    NodeNotNull(m, s.ar, s.nd);
    forall p, q | p in s.nd && q in s.nd && s.nd[p].slot == s.nd[q].slot && s.nd[p].stamp == s.nd[q].stamp
      ensures p == q
    {
      OnOneList(m, s, p, q);
    }
  }

  lemma OnOneList(m: Mem, s: State, p: nat, q: nat)
    requires Core(m, s) && 0 !in s.nd && p in s.nd && q in s.nd && s.nd[p].slot == s.nd[q].slot
    requires s.nd[p].stamp == s.nd[q].stamp
    ensures p == q
  {
    hide Framed, NodesFree;
    var i := s.nd[p].slot;
    NodeOnList(m, s.ar.tbl, s.nd, s.ctr, p);
    NodeOnList(m, s.ar.tbl, s.nd, s.ctr, q);
    var list := SlotList(m, s.ar.tbl, s.nd, i);
    ListStamps(m, s, i);
    var j :| 0 <= j < |list| && list[j] == p;
    var k :| 0 <= k < |list| && list[k] == q;
    hide SlotList;
  }

  lemma ListStamps(m: Mem, s: State, i: nat)
    requires Core(m, s) && 1 <= i <= 10
    ensures var list := SlotList(m, s.ar.tbl, s.nd, i);
      && (forall k :: 0 <= k < |list| ==> list[k] in s.nd && s.nd[list[k]].slot == i)
      && (forall j, k :: 0 <= j < k < |list| ==> s.nd[list[j]].stamp > s.nd[list[k]].stamp)
  {
    hide Framed, NodesFree, Stamped;
    assert SlotOk(m, s.ar.tbl, s.nd, i);
    if Ptr(m, s.ar.tbl + 8 * i) != 0 {
      ChainShape(m, s.ar.tbl, s.nd, Ptr(m, s.ar.tbl + 8 * i));
    }
  }

  /** The block that the walk through the slots chooses is the one that the lists determine. */
  lemma ChosenFound(m: Mem, s: State, size: nat, r: nat)
    requires Core(m, s) && Chosen(m, s, size, r)
    ensures Found(Lists(s.nd, s.ctr), s.ar.h, size, r)
  {
    hide Framed, FltClass, Align, NodesFree;
    var l, n := Lists(s.nd, s.ctr), Align(size) + 8;
    NodeNotNull(m, s.ar, s.nd);
    var i :| 1 <= i <= 10 && FltClass(size) <= i && SlotsSmaller(s.ar.h, s.nd, FltClass(size), i, n)
      && FirstFit(s.ar.h, SlotList(m, s.ar.tbl, s.nd, i), n, r);
    ChosenListed(m, s, i, n, r);
    forall p | Suits(l, s.ar.h, size, p)
      ensures i < s.nd[p].slot || (i == s.nd[p].slot && s.nd[p].stamp <= s.nd[r].stamp)
    {
      assert s.nd[p] == s.nd[p];
      if s.nd[p].slot == i { FirstInSlot(m, s, i, n, r, p); }
    }
  }

  lemma FirstInSlot(m: Mem, s: State, i: nat, n: nat, r: nat, p: nat)
    requires Core(m, s) && 0 !in s.nd && 1 <= i <= 10 && FirstFit(s.ar.h, SlotList(m, s.ar.tbl, s.nd, i), n, r)
    requires p in s.nd && s.nd[p].slot == i && p in s.ar.h && s.ar.h[p].size >= n && r in s.nd
    ensures s.nd[p].stamp <= s.nd[r].stamp
  {
    hide Framed, NodesFree;
    NodeOnList(m, s.ar.tbl, s.nd, s.ctr, p);
    ListStamps(m, s, i);
    var list := SlotList(m, s.ar.tbl, s.nd, i);
    var k :| 0 <= k < |list| && list[k] == r && AllSmaller(s.ar.h, list[..k], n);
    var j :| 0 <= j < |list| && list[j] == p;
    hide SlotList;
    if j < k { SmallerBefore(s.ar.h, list, k, j, n); }
  }
}
