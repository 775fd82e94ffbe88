/** The doubly linked free lists of segregate.c. A free block's payload holds its next
    pointer at p and its prev pointer at p+8; slot i of the table, at tbl+8*i, acts as
    the node before the first one. Slot 0 is not kept as a list (see README). */
module FreeLists {
  import opened Memory

  /** A list node: its slot, and the time at which it was inserted. Blocks are pushed
      at the front, so stamps fall along a list. */
  datatype Node = Node(slot: nat, stamp: nat)

  type Nodes = map<nat, Node>

  /** Slot i is empty or points at a node whose prev pointer is the slot. */
  ghost predicate SlotOk(m: Mem, tbl: nat, nd: Nodes, i: nat) {
    1 <= i <= 10 ==>
      var n := Ptr(m, tbl + 8 * i);
      n == 0 || (n in nd && nd[n].slot == i && Ptr(m, n + 8) == tbl + 8 * i)
  }

  /** Node p and its two neighbours point at each other and share p's slot. */
  ghost predicate NodeOk(m: Mem, tbl: nat, nd: Nodes, p: nat) {
    p in nd ==>
      var i, n, q := nd[p].slot, Ptr(m, p), Ptr(m, p + 8);
      && 1 <= i <= 10
      && (n == 0 || (n in nd && nd[n].slot == i && nd[n].stamp < nd[p].stamp && Ptr(m, n + 8) == p))
      && Ptr(m, q) == p
      && (q == tbl + 8 * i || (q in nd && nd[q].slot == i && nd[p].stamp < nd[q].stamp))
  }

  ghost predicate Linked(m: Mem, tbl: nat, nd: Nodes) {
    && (forall i {:trigger SlotOk(m, tbl, nd, i)} :: SlotOk(m, tbl, nd, i))
    && (forall p {:trigger NodeOk(m, tbl, nd, p)} :: NodeOk(m, tbl, nd, p))
  }

  /** Every insertion so far happened before time ctr. */
  ghost predicate Stamped(nd: Nodes, ctr: nat) {
    forall p {:trigger nd[p]} :: p in nd ==> nd[p].stamp < ctr
  }

  /** Nodes have room for two pointers, and lie in memory above the table. */
  ghost predicate Spread(m: Mem, tbl: nat, nd: Nodes) {
    && 8 <= tbl && tbl + 88 <= |m|
    && (forall p {:trigger nd[p]} :: p in nd ==> tbl + 88 <= p && p + 16 <= |m|)
    && (forall p, q {:trigger nd[p], nd[q]} :: p in nd && q in nd && p < q ==> p + 16 <= q)
  }

  // ---------------------------------------------------------------------------
  // The cells that hold links do not overlap
  // ---------------------------------------------------------------------------

  ghost predicate Cell(tbl: nat, nd: Nodes, b: nat) {
    (exists i: nat :: i <= 10 && b == tbl + 8 * i) || b in nd || (b >= 8 && b - 8 in nd)
  }

  lemma CellsApart(m: Mem, tbl: nat, nd: Nodes, a: nat, b: nat)
    requires Spread(m, tbl, nd) && Cell(tbl, nd, a) && Cell(tbl, nd, b) && a != b
    ensures a + 8 <= b || b + 8 <= a
  {
    var x := if a in nd then a else if a >= 8 && a - 8 in nd then a - 8 else 0;
    var y := if b in nd then b else if b >= 8 && b - 8 in nd then b - 8 else 0;
    if x in nd { assert nd[x] == nd[x]; }
    if y in nd { assert nd[y] == nd[y]; }
  }

  /** Storing a pointer in cell a leaves the other cells alone. */
  lemma CellWrite(m: Mem, m': Mem, tbl: nat, nd: Nodes, a: nat)
    requires Spread(m, tbl, nd) && Cell(tbl, nd, a) && Only(m, m', a, 8)
    ensures Spread(m', tbl, nd)
    ensures forall b: nat {:trigger Ptr(m', b)} :: Cell(tbl, nd, b) && b != a ==> Ptr(m', b) == Ptr(m, b)
  {
    forall b: nat | Cell(tbl, nd, b) && b != a ensures Ptr(m', b) == Ptr(m, b) {
      CellsApart(m, tbl, nd, a, b);
      PtrSame(m, m', b);
    }
  }

  /** Writes outside all cells leave the lists alone. */
  lemma LinkedFrame(m: Mem, m': Mem, tbl: nat, nd: Nodes)
    requires Spread(m, tbl, nd) && Linked(m, tbl, nd) && Same(m, m', tbl, tbl + 88)
    requires forall p {:trigger nd[p]} :: p in nd ==> Same(m, m', p, p + 16)
    ensures Spread(m', tbl, nd) && Linked(m', tbl, nd)
  {
    hide Ptr;
    forall i: nat | i <= 10 ensures Ptr(m', tbl + 8 * i) == Ptr(m, tbl + 8 * i) {
      PtrSame(m, m', tbl + 8 * i);
    }
    forall p | p in nd ensures Ptr(m', p) == Ptr(m, p) && Ptr(m', p + 8) == Ptr(m, p + 8) {
      assert nd[p] == nd[p];
      PtrSame(m, m', p);
      PtrSame(m, m', p + 8);
    }
    forall i: nat ensures SlotOk(m', tbl, nd, i) {
      assert SlotOk(m, tbl, nd, i);
    }
    forall p: nat ensures NodeOk(m', tbl, nd, p) {
      assert NodeOk(m, tbl, nd, p);
    }
  }

  // ---------------------------------------------------------------------------
  // Unlinking and pushing
  // ---------------------------------------------------------------------------

  /** m2 holds the links of m with p bypassed. */
  ghost predicate Bypassed(m: Mem, m2: Mem, tbl: nat, nd: Nodes, p: nat) {
    var n, q := Ptr(m, p), Ptr(m, p + 8);
    && Ptr(m2, q) == n
    && (n != 0 ==> Ptr(m2, n + 8) == q)
    && (forall b: nat {:trigger Ptr(m2, b)} ::
         Cell(tbl, nd, b) && b != q && !(n != 0 && b == n + 8) ==> Ptr(m2, b) == Ptr(m, b))
  }

  lemma {:induction false} BypassSlots(m: Mem, m2: Mem, tbl: nat, nd: Nodes, p: nat, i: nat)
    requires Spread(m, tbl, nd) && Linked(m, tbl, nd) && p in nd && Bypassed(m, m2, tbl, nd, p)
    ensures SlotOk(m2, tbl, nd - {p}, i)
  {
    assert SlotOk(m, tbl, nd, i) && NodeOk(m, tbl, nd, p);
    assert nd[p] == nd[p];
    if 1 <= i <= 10 {
      assert Cell(tbl, nd, tbl + 8 * i);
      var h := Ptr(m, tbl + 8 * i);
      if h != 0 {
        assert Cell(tbl, nd, h + 8);
      }
    }
  }

  lemma BypassNodes(m: Mem, m2: Mem, tbl: nat, nd: Nodes, p: nat, r: nat)
    requires Spread(m, tbl, nd) && Linked(m, tbl, nd) && p in nd && Bypassed(m, m2, tbl, nd, p)
    ensures NodeOk(m2, tbl, nd - {p}, r)
  {
    hide Ptr;
    if r in nd && r != p {
      assert NodeOk(m, tbl, nd, r) && NodeOk(m, tbl, nd, p);
      assert nd[p] == nd[p] && nd[r] == nd[r];
      var x, y := Ptr(m, r), Ptr(m, r + 8);
      assert Cell(tbl, nd, r) && Cell(tbl, nd, r + 8) && Cell(tbl, nd, y);
      assert x != 0 ==> Cell(tbl, nd, x + 8);
    }
  }

  /** Unlinking p, as FREELIST_DEL_BLK does it, removes p from its list and changes no
      other list. */
  lemma BypassedLinked(m: Mem, m2: Mem, tbl: nat, nd: Nodes, p: nat)
    requires Spread(m, tbl, nd) && Linked(m, tbl, nd) && p in nd && Bypassed(m, m2, tbl, nd, p)
    ensures Linked(m2, tbl, nd - {p})
  {
    forall i: nat ensures SlotOk(m2, tbl, nd - {p}, i) {
      BypassSlots(m, m2, tbl, nd, p, i);
    }
    forall r: nat ensures NodeOk(m2, tbl, nd - {p}, r) {
      BypassNodes(m, m2, tbl, nd, p, r);
    }
  }

  /** A bypass does not touch slot 0. */
  lemma BypassedZero(m: Mem, m2: Mem, tbl: nat, nd: Nodes, p: nat)
    requires Spread(m, tbl, nd) && Linked(m, tbl, nd) && p in nd && Bypassed(m, m2, tbl, nd, p)
    ensures Ptr(m2, tbl) == Ptr(m, tbl)
  {
    hide Ptr;
    assert NodeOk(m, tbl, nd, p);
    assert Cell(tbl, nd, tbl + 8 * 0);
    var n, q := Ptr(m, p), Ptr(m, p + 8);
    if q in nd { assert nd[q] == nd[q]; }
    if n in nd { assert nd[n] == nd[n]; }
  }

  /** The two stores of FREELIST_DEL_BLK bypass p. */
  lemma BypassStores(m: Mem, m1: Mem, m2: Mem, tbl: nat, nd: Nodes, p: nat)
    requires Spread(m, tbl, nd) && Linked(m, tbl, nd) && p in nd
    requires Ptr(m1, Ptr(m, p + 8)) == Ptr(m, p) && Only(m, m1, Ptr(m, p + 8), 8)
    requires if Ptr(m, p) == 0 then m2 == m1
             else Ptr(m2, Ptr(m, p) + 8) == Ptr(m, p + 8) && Only(m1, m2, Ptr(m, p) + 8, 8)
    ensures Spread(m2, tbl, nd) && Bypassed(m, m2, tbl, nd, p)
  {
    var n, q := Ptr(m, p), Ptr(m, p + 8);
    assert NodeOk(m, tbl, nd, p);
    assert Cell(tbl, nd, q);
    CellWrite(m, m1, tbl, nd, q);
    if n != 0 {
      assert Cell(tbl, nd, n + 8);
      CellWrite(m1, m2, tbl, nd, n + 8);
      BypassTargets(m, tbl, nd, p);
    }
  }

  /** The two cells that a bypass stores to are different. */
  lemma BypassTargets(m: Mem, tbl: nat, nd: Nodes, p: nat)
    requires Spread(m, tbl, nd) && Linked(m, tbl, nd) && p in nd && Ptr(m, p) != 0
    ensures Ptr(m, p) + 8 != Ptr(m, p + 8)
  {
    hide Ptr;
    assert NodeOk(m, tbl, nd, p);
    var n, q := Ptr(m, p), Ptr(m, p + 8);
    assert nd[n] == nd[n];
    if q in nd { assert nd[q] == nd[q]; }
  }

  /** m4 holds the links of m with p pushed at the front of slot i. */
  ghost predicate Pushed(m: Mem, m4: Mem, tbl: nat, nd: Nodes, p: nat, i: nat) {
    var s := tbl + 8 * i;
    var h := Ptr(m, s);
    && Ptr(m4, p) == h && Ptr(m4, p + 8) == s && Ptr(m4, s) == p
    && (h != 0 ==> Ptr(m4, h + 8) == p)
    && (forall b: nat {:trigger Ptr(m4, b)} ::
          Cell(tbl, nd, b) && b != p && b != p + 8 && b != s && !(h != 0 && b == h + 8) ==> Ptr(m4, b) == Ptr(m, b))
  }

  lemma PushSlots(m: Mem, m4: Mem, tbl: nat, nd: Nodes, p: nat, i: nat, t: nat, j: nat)
    requires 1 <= i <= 10 && p !in nd
    requires Spread(m, tbl, nd[p := Node(i, t)]) && Linked(m, tbl, nd) && Stamped(nd, t)
    requires Pushed(m, m4, tbl, nd[p := Node(i, t)], p, i)
    ensures SlotOk(m4, tbl, nd[p := Node(i, t)], j)
  {
    hide Ptr;
    var nd' := nd[p := Node(i, t)];
    assert SlotOk(m, tbl, nd, i) && SlotOk(m, tbl, nd, j);
    assert nd'[p] == Node(i, t);
    if 1 <= j <= 10 && j != i {
      assert Cell(tbl, nd', tbl + 8 * j);
      var h := Ptr(m, tbl + 8 * j);
      if h != 0 {
        assert nd'[h] == nd[h];
        assert Cell(tbl, nd', h + 8);
      }
    }
  }

  lemma PushNew(m: Mem, m4: Mem, tbl: nat, nd: Nodes, p: nat, i: nat, t: nat)
    requires 1 <= i <= 10 && p !in nd && Linked(m, tbl, nd) && Stamped(nd, t)
    requires Pushed(m, m4, tbl, nd[p := Node(i, t)], p, i)
    ensures NodeOk(m4, tbl, nd[p := Node(i, t)], p)
  {
    hide Ptr;
    var nd' := nd[p := Node(i, t)];
    assert SlotOk(m, tbl, nd, i);
    assert nd'[p] == Node(i, t);
    var h := Ptr(m, tbl + 8 * i);
    assert h != 0 ==> nd'[h] == nd[h];
  }

  lemma PushOld(m: Mem, m4: Mem, tbl: nat, nd: Nodes, p: nat, i: nat, t: nat, r: nat)
    requires 1 <= i <= 10 && p !in nd && r in nd
    requires Spread(m, tbl, nd[p := Node(i, t)]) && Linked(m, tbl, nd) && Stamped(nd, t)
    requires Pushed(m, m4, tbl, nd[p := Node(i, t)], p, i)
    ensures NodeOk(m4, tbl, nd[p := Node(i, t)], r)
  {
    hide Ptr;
    var nd' := nd[p := Node(i, t)];
    assert SlotOk(m, tbl, nd, i) && NodeOk(m, tbl, nd, r);
    hide Linked;
    assert nd'[p] == Node(i, t);
    var x, y := Ptr(m, r), Ptr(m, r + 8);
    assert nd'[r] == nd[r];
    assert Cell(tbl, nd', r) && Cell(tbl, nd', r + 8);
    assert x != 0 ==> Cell(tbl, nd', x + 8) && nd'[x] == nd[x];
    assert y in nd ==> nd'[y] == nd[y];
    assert Cell(tbl, nd', y);
  }

  /** Pushing p, as freelist_insert2 does it, adds p to list i and changes no other. */
  lemma PushedLinked(m: Mem, m4: Mem, tbl: nat, nd: Nodes, p: nat, i: nat, t: nat)
    requires 1 <= i <= 10 && p !in nd
    requires Spread(m, tbl, nd[p := Node(i, t)]) && Linked(m, tbl, nd) && Stamped(nd, t)
    requires Pushed(m, m4, tbl, nd[p := Node(i, t)], p, i)
    ensures Linked(m4, tbl, nd[p := Node(i, t)]) && Stamped(nd[p := Node(i, t)], t + 1)
  {
    var nd' := nd[p := Node(i, t)];
    forall j: nat ensures SlotOk(m4, tbl, nd', j) {
      PushSlots(m, m4, tbl, nd, p, i, t, j);
    }
    forall r: nat ensures NodeOk(m4, tbl, nd', r) {
      if r == p {
        PushNew(m, m4, tbl, nd, p, i, t);
      } else if r in nd {
        PushOld(m, m4, tbl, nd, p, i, t, r);
      }
    }
    forall r | r in nd' ensures nd'[r].stamp < t + 1 {
      assert r != p ==> nd'[r] == nd[r];
    }
  }

  /** A push on another slot does not touch slot 0. */
  lemma PushedZero(m: Mem, m4: Mem, tbl: nat, nd: Nodes, p: nat, i: nat)
    requires 1 <= i <= 10 && p in nd && Spread(m, tbl, nd) && Pushed(m, m4, tbl, nd, p, i)
    requires var h := Ptr(m, tbl + 8 * i); h == 0 || h in nd
    ensures Ptr(m4, tbl) == Ptr(m, tbl)
  {
    hide Ptr;
    assert Cell(tbl, nd, tbl + 8 * 0);
    var h := Ptr(m, tbl + 8 * i);
    assert nd[p] == nd[p];
    if h in nd { assert nd[h] == nd[h]; }
  }

  /** The four stores of freelist_insert2 push p. */
  lemma PushStores(m: Mem, m1: Mem, m2: Mem, m3: Mem, m4: Mem, tbl: nat, nd: Nodes, p: nat, i: nat)
    requires 1 <= i <= 10 && p in nd && Spread(m, tbl, nd)
    requires var h := Ptr(m, tbl + 8 * i); h == 0 || (h in nd && h != p)
    requires Ptr(m1, p) == Ptr(m, tbl + 8 * i) && Only(m, m1, p, 8)
    requires Ptr(m2, p + 8) == tbl + 8 * i && Only(m1, m2, p + 8, 8)
    requires Ptr(m3, tbl + 8 * i) == p && Only(m2, m3, tbl + 8 * i, 8)
    requires var h := Ptr(m, tbl + 8 * i); if h == 0 then m4 == m3 else Ptr(m4, h + 8) == p && Only(m3, m4, h + 8, 8)
    ensures Spread(m4, tbl, nd) && Pushed(m, m4, tbl, nd, p, i)
  {
    var s := tbl + 8 * i;
    var h := Ptr(m, s);
    assert Cell(tbl, nd, p) && Cell(tbl, nd, p + 8) && Cell(tbl, nd, s);
    assert nd[p] == nd[p];
    CellWrite(m, m1, tbl, nd, p);
    CellWrite(m1, m2, tbl, nd, p + 8);
    CellWrite(m2, m3, tbl, nd, s);
    if h != 0 {
      assert nd[h] == nd[h];
      assert Cell(tbl, nd, h + 8);
      CellWrite(m3, m4, tbl, nd, h + 8);
    }
  }

  // ---------------------------------------------------------------------------
  // The lists as sequences
  // ---------------------------------------------------------------------------

  /** The nodes reached from p by following next pointers. */
  ghost function Chain(m: Mem, tbl: nat, nd: Nodes, p: nat): seq<nat>
    requires Linked(m, tbl, nd) && (p == 0 || p in nd)
    decreases if p != 0 && p in nd then nd[p].stamp + 1 else 0
  {
    assert NodeOk(m, tbl, nd, p);
    if p != 0 then [p] + Chain(m, tbl, nd, Ptr(m, p)) else []
  }

  /** The list of slot i. */
  ghost function SlotList(m: Mem, tbl: nat, nd: Nodes, i: nat): seq<nat>
    requires Linked(m, tbl, nd) && 1 <= i <= 10
  {
    assert SlotOk(m, tbl, nd, i);
    Chain(m, tbl, nd, Ptr(m, tbl + 8 * i))
  }

  /** A chain stays in its slot, never comes back to a node, and ends with a null next
      pointer; each node but the first is the prev pointer's target of its successor. */
  lemma {:induction false} ChainShape(m: Mem, tbl: nat, nd: Nodes, p: nat)
    requires Linked(m, tbl, nd) && p in nd && p != 0
    ensures var c := Chain(m, tbl, nd, p);
      && c != [] && c[0] == p && Ptr(m, c[|c| - 1]) == 0
      && (forall k :: 0 <= k < |c| ==> c[k] in nd && nd[c[k]].slot == nd[p].slot && nd[c[k]].stamp <= nd[p].stamp)
      && (forall k :: 0 <= k < |c| - 1 ==> Ptr(m, c[k]) == c[k + 1] && Ptr(m, c[k + 1] + 8) == c[k])
      && (forall j, k :: 0 <= j < k < |c| ==> c[j] != c[k] && nd[c[j]].stamp > nd[c[k]].stamp)
    decreases nd[p].stamp
  {
    hide Ptr;
    assert NodeOk(m, tbl, nd, p);
    var n := Ptr(m, p);
    if n != 0 {
      ChainShape(m, tbl, nd, n);
      var c, d := Chain(m, tbl, nd, p), Chain(m, tbl, nd, n);
      assert c == [p] + d;
    }
  }

  lemma {:induction false} ChainClosed(m: Mem, tbl: nat, nd: Nodes, p: nat, x: nat)
    requires Linked(m, tbl, nd) && p in nd && p != 0 && x in Chain(m, tbl, nd, p) && Ptr(m, x) != 0
    ensures Ptr(m, x) in Chain(m, tbl, nd, p)
    decreases nd[p].stamp
  {
    assert NodeOk(m, tbl, nd, p);
    var n := Ptr(m, p);
    var d := Chain(m, tbl, nd, n);
    assert Chain(m, tbl, nd, p) == [p] + d;
    if x == p {
      assert d[0] == n;
    } else {
      ChainClosed(m, tbl, nd, n, x);
    }
  }

  /** Every node is on the list of its slot: following prev pointers leads to the slot. */
  lemma {:induction false} NodeOnList(m: Mem, tbl: nat, nd: Nodes, t: nat, p: nat)
    requires Linked(m, tbl, nd) && Stamped(nd, t) && p in nd && 0 !in nd
    ensures 1 <= nd[p].slot <= 10 && p in SlotList(m, tbl, nd, nd[p].slot)
    decreases t - nd[p].stamp
  {
    assert NodeOk(m, tbl, nd, p);
    assert SlotOk(m, tbl, nd, nd[p].slot);
    var q := Ptr(m, p + 8);
    if q == tbl + 8 * nd[p].slot {
      assert Chain(m, tbl, nd, p)[0] == p;
    } else {
      NodeOnList(m, tbl, nd, t, q);
      ChainClosed(m, tbl, nd, Ptr(m, tbl + 8 * nd[p].slot), q);
    }
  }
}
