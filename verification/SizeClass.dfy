/** The size classes of segregate.c: `flt_index` and what it computes. */
module SizeClass {
  import opened Blocks

  const FLT_SLOT_NUM: nat := 11

  function Pow2(n: nat): (p: nat)
    ensures p >= 1
  {
    if n == 0 then 1 else 2 * Pow2(n - 1)
  }

  /** The least e with v <= 2^e. */
  function CeilLog2(v: nat): nat {
    if v <= 1 then 0 else 1 + CeilLog2((v + 1) / 2)
  }

  /** The slot of the free list table for a capacity of v bytes: {1-8}, {9-16},
      {17-32}, ..., {2049-4096}... doubling up to the last slot, which is open-ended. */
  function FltClass(v: nat): nat {
    if v <= 8 then 0
    else if v <= 16 then 1
    else if v <= 32 then 2
    else if v <= 64 then 3
    else if v <= 128 then 4
    else if v <= 256 then 5
    else if v <= 512 then 6
    else if v <= 1024 then 7
    else if v <= 2048 then 8
    else if v <= 4096 then 9
    else 10
  }

  lemma {:induction false} CeilLog2Bounds(v: nat)
    requires v >= 1
    ensures v <= Pow2(CeilLog2(v))
    ensures CeilLog2(v) > 0 ==> Pow2(CeilLog2(v) - 1) < v
  {
    if v > 1 {
      CeilLog2Bounds((v + 1) / 2);
    }
  }

  lemma {:induction false} Pow2Monotone(a: nat, b: nat)
    requires a <= b
    ensures Pow2(a) <= Pow2(b)
  {
    if a < b {
      Pow2Monotone(a, b - 1);
    }
  }

  lemma CeilLog2Unique(v: nat, e: nat)
    requires v <= Pow2(e) && (e > 0 ==> Pow2(e - 1) < v) && v >= 1
    ensures CeilLog2(v) == e
  {
    CeilLog2Bounds(v);
    var c := CeilLog2(v);
    if c < e { Pow2Monotone(c, e - 1); }
    if e < c { Pow2Monotone(e, c - 1); }
  }

  lemma Powers()
    ensures Pow2(3) == 8 && Pow2(4) == 16 && Pow2(5) == 32 && Pow2(6) == 64 && Pow2(7) == 128 && Pow2(8) == 256
    ensures Pow2(9) == 512 && Pow2(10) == 1024 && Pow2(11) == 2048 && Pow2(12) == 4096
  {
    assert Pow2(3) == 8;
    assert Pow2(6) == 64;
    assert Pow2(9) == 512;
    assert Pow2(12) == 4096;
  }

  lemma FltClassIsLog(v: nat)
    requires v >= 1
    ensures CeilLog2(v) <= 3 ==> FltClass(v) == 0
    ensures 3 <= CeilLog2(v) <= 13 ==> FltClass(v) == CeilLog2(v) - 3
    ensures CeilLog2(v) >= 13 ==> FltClass(v) == 10
  {
    CeilLog2Bounds(v);
    var c := CeilLog2(v);
    Powers();
    if v <= 8 {
      if c > 3 { Pow2Monotone(3, c - 1); }
    } else if v > 4096 {
      if c <= 12 { Pow2Monotone(c, 12); }
    } else {
      var e := FltClass(v) + 3;
      CeilLog2Unique(v, e);
    }
  }

  lemma FltClassMonotone(v: nat, w: nat)
    requires v <= w
    ensures FltClass(v) <= FltClass(w)
  {
  }

  lemma FltClassOfAlign(v: nat)
    ensures FltClass(Align(v)) == FltClass(v)
  {
    AlignBounds(v);
  }

  // ---------------------------------------------------------------------------
  // flt_index itself, on 32-bit words
  // ---------------------------------------------------------------------------

  lemma Doubling(y: bv32)
    requires y as int < 0x8000_0000
    ensures (y << 1) as int == 2 * (y as int)
    ensures ((y << 1) | 1) as int == 2 * (y as int) + 1
  {
    assert y < 0x8000_0000;
  }

  /** A number as a 32-bit word. */
  function Bits(v: nat): (x: bv32)
    requires v < 0x1_0000_0000
    ensures x as int == v
  {
    if v == 0 then 0
    else
      var y := Bits(v / 2);
      Doubling(y);
      if v % 2 == 0 then y << 1 else (y << 1) | 1
  }

  /** The table b: step i asks whether any of the bits 2^i .. 2^(i+1)-1 is set. */
  function Mask(i: int): bv32 {
    if i == 0 then 0x2 else if i == 1 then 0xC else if i == 2 then 0xF0 else if i == 3 then 0xFF00 else 0xFFFF0000
  }

  /** The table S. */
  function Shift(i: int): (s: bv32)
    ensures s <= 16
  {
    if i == 0 then 1 else if i == 1 then 2 else if i == 2 then 4 else if i == 3 then 8 else 16
  }

  /** The bits of v that can still be set before step i. */
  ghost function Top(i: int): bv32 {
    if i == 0 then 0x3 else if i == 1 then 0xF else if i == 2 then 0xFF else if i == 3 then 0xFFFF
    else if i == 4 then 0xFFFFFFFF else 0x1
  }

  /** The bits of r that are still clear before step i. */
  ghost function Low(i: int): bv32 {
    if i == 0 then 0x1 else if i == 1 then 0x3 else if i == 2 then 0x7 else if i == 3 then 0xF
    else if i == 4 then 0xFFFFFFFF else 0x0
  }

  /** The search for the highest set bit maintains that v is vc shifted right by r. */
  ghost predicate Narrowed(top: bv32, low: bv32, vc: bv32, v: bv32, r: bv32) {
    && v <= top && r & low == 0 && r <= 31 && v == vc >> r
    && (if vc == 0 then r == 0 else v != 0)
  }

  /** v & b[i] */
  function Test(v: bv32, i: int): bool { v & Mask(i) != 0 }

  /** v >>= S[i] */
  function Down(v: bv32, i: int): bv32 { v >> Shift(i) }

  /** r |= S[i] */
  function Up(r: bv32, i: int): bv32 { r | Shift(i) }

  lemma NarrowInit(vc: bv32)
    ensures Narrowed(Top(4), Low(4), vc, vc, 0)
  {
  }

  lemma NarrowStart(vc: bv32, v: bv32, r: bv32)
    requires Narrowed(Top(4), Low(4), vc, v, r)
    ensures r == 0 && v == vc
  {
    assert r == r & 0xFFFFFFFF;
  }

  lemma HighHalf(vc: bv32)
    ensures vc & 0xFFFF0000 != 0 ==> Narrowed(0xFFFF, 0xF, vc, vc >> 16, 16)
    ensures vc & 0xFFFF0000 == 0 ==> Narrowed(0xFFFF, 0xF, vc, vc, 0)
  {
  }

  lemma Narrow4(vc: bv32)
    ensures Test(vc, 4) ==> Narrowed(Top(3), Low(3), vc, Down(vc, 4), Up(0, 4))
    ensures !Test(vc, 4) ==> Narrowed(Top(3), Low(3), vc, vc, 0)
  {
    hide Narrowed;
    HighHalf(vc);
    assert Up(0, 4) == 16;
  }

  lemma Narrow3(vc: bv32, v: bv32, r: bv32)
    requires Narrowed(Top(3), Low(3), vc, v, r)
    ensures Test(v, 3) ==> Narrowed(Top(2), Low(2), vc, Down(v, 3), Up(r, 3))
    ensures !Test(v, 3) ==> Narrowed(Top(2), Low(2), vc, v, r)
  {
  }

  lemma Narrow2(vc: bv32, v: bv32, r: bv32)
    requires Narrowed(Top(2), Low(2), vc, v, r)
    ensures Test(v, 2) ==> Narrowed(Top(1), Low(1), vc, Down(v, 2), Up(r, 2))
    ensures !Test(v, 2) ==> Narrowed(Top(1), Low(1), vc, v, r)
  {
  }

  lemma Narrow1(vc: bv32, v: bv32, r: bv32)
    requires Narrowed(Top(1), Low(1), vc, v, r)
    ensures Test(v, 1) ==> Narrowed(Top(0), Low(0), vc, Down(v, 1), Up(r, 1))
    ensures !Test(v, 1) ==> Narrowed(Top(0), Low(0), vc, v, r)
  {
  }

  lemma Narrow0(vc: bv32, v: bv32, r: bv32)
    requires Narrowed(Top(0), Low(0), vc, v, r)
    ensures Test(v, 0) ==> Narrowed(Top(-1), Low(-1), vc, Down(v, 0), Up(r, 0))
    ensures !Test(v, 0) ==> Narrowed(Top(-1), Low(-1), vc, v, r)
  {
  }

  lemma NarrowStep(i: nat, vc: bv32, v: bv32, r: bv32)
    requires i <= 4 && Narrowed(Top(i), Low(i), vc, v, r)
    ensures Test(v, i) ==> Narrowed(Top(i - 1), Low(i - 1), vc, Down(v, i), Up(r, i))
    ensures !Test(v, i) ==> Narrowed(Top(i - 1), Low(i - 1), vc, v, r)
  {
    hide *;
    if i == 4 {
      NarrowStart(vc, v, r);
      Narrow4(vc);
    } else if i == 3 {
      Narrow3(vc, v, r);
    } else if i == 2 {
      Narrow2(vc, v, r);
    } else if i == 1 {
      Narrow1(vc, v, r);
    } else {
      Narrow0(vc, v, r);
    }
  }

  /** Position of the highest bit, plus one unless the word is a power of two. */
  function Rounded(vc: bv32, r: bv32): int {
    (r as int) + (if vc & (vc - 1) != 0 then 1 else 0)
  }

  lemma RoundedIsClass(vc: bv32, v: bv32, r: bv32)
    requires Narrowed(Top(-1), Low(-1), vc, v, r)
    ensures var x := Rounded(vc, r) - 3;
      FltClass(vc as int) == if x < 0 then 0 else if x > 10 then 10 else x
  {
    hide Narrowed, Rounded;
    RoundedLow(vc, v, r);
    RoundedHigh(vc, v, r);
  }

  lemma RoundedLow(vc: bv32, v: bv32, r: bv32)
    requires Narrowed(Top(-1), Low(-1), vc, v, r)
    ensures Rounded(vc, r) <= 3 <==> vc as int <= 8
    ensures Rounded(vc, r) <= 4 <==> vc as int <= 16
    ensures Rounded(vc, r) <= 5 <==> vc as int <= 32
    ensures Rounded(vc, r) <= 6 <==> vc as int <= 64
    ensures Rounded(vc, r) <= 7 <==> vc as int <= 128
  {
  }

  lemma RoundedHigh(vc: bv32, v: bv32, r: bv32)
    requires Narrowed(Top(-1), Low(-1), vc, v, r)
    ensures Rounded(vc, r) <= 8 <==> vc as int <= 256
    ensures Rounded(vc, r) <= 9 <==> vc as int <= 512
    ensures Rounded(vc, r) <= 10 <==> vc as int <= 1024
    ensures Rounded(vc, r) <= 11 <==> vc as int <= 2048
    ensures Rounded(vc, r) <= 12 <==> vc as int <= 4096
  {
  }

  /** flt_index: v is halved in log steps while r collects the position of its highest
      set bit; the last term rounds up unless the number is a power of two. */
  method FltIndex(n: nat) returns (ret: int)
    requires n < 0x8000_0000
    ensures ret == FltClass(n)
  {
    hide Narrowed, Test, Down, Up, Top, Low, Rounded, FltClass;
    var vc := Bits(n);
    var v, r: bv32, i := vc, 0, 4;
    NarrowInit(vc);
    while i >= 0
      invariant -1 <= i <= 4 && Narrowed(Top(i), Low(i), vc, v, r)
    {
      NarrowStep(i, vc, v, r);
      if Test(v, i) {
        v := Down(v, i);
        r := Up(r, i);
      }
      i := i - 1;
    }
    RoundedIsClass(vc, v, r);
    ret := Rounded(vc, r) - 3;
    if ret < 0 {
      return 0;
    } else if ret > 10 {
      return 10;
    }
  }
}
