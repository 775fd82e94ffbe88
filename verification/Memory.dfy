/** The simulated memory of memlib.c: one byte array whose indexes are the addresses,
    the brk pointer that `mem_sbrk` advances, and the loads and stores of 4-byte
    words and 8-byte pointers that both allocators perform on it. */
module Memory {

  /** config.h: 20 MB. */
  const MAX_HEAP: nat := 20971520

  const WORD_LIMIT: nat := 0x1_0000_0000
  const PTR_LIMIT: nat := 0x1_0000_0000_0000_0000

  type byte = x: int | 0 <= x < 256

  // ---------------------------------------------------------------------------
  // Little-endian numbers in a byte sequence
  // ---------------------------------------------------------------------------

  /** The number a little-endian byte string denotes. */
  function Value(s: seq<byte>): nat {
    if s == [] then 0 else s[0] + 256 * Value(s[1..])
  }

  lemma LittleEndian(s: seq<byte>)
    requires |s| == 4
    ensures var a: int, b: int, c: int, d: int := s[0], s[1], s[2], s[3];
      Value(s) == a + 0x100 * b + 0x1_0000 * c + 0x100_0000 * d
  {
    assert s[1..][1..] == s[2..] && s[2..][1..] == s[3..] && s[3..][1..] == [];
    assert Value(s[3..]) == s[3] && Value(s[2..]) == s[2] + 256 * Value(s[3..]);
    assert Value(s[1..]) == s[1] + 256 * Value(s[2..]);
  }

  /** The n low-order bytes of v, least significant first. */
  function Bytes(v: nat, n: nat): (s: seq<byte>)
    ensures |s| == n
  {
    if n == 0 then [] else [v % 256] + Bytes(v / 256, n - 1)
  }

  /** 256 to the power n. */
  function Limit(n: nat): nat {
    if n == 0 then 1 else 256 * Limit(n - 1)
  }

  /** Storing a number in n bytes and reading it back loses nothing that fits. */
  lemma {:induction false} ValueOfBytes(v: nat, n: nat)
    requires v < Limit(n)
    ensures Value(Bytes(v, n)) == v
  {
    if n > 0 {
      ValueOfBytes(v / 256, n - 1);
      assert Bytes(v, n)[1..] == Bytes(v / 256, n - 1);
    }
  }

  lemma Limits()
    ensures Limit(4) == WORD_LIMIT && Limit(8) == PTR_LIMIT
  {
    assert Limit(4) == 256 * Limit(3) && Limit(3) == 256 * Limit(2) && Limit(2) == 256 * Limit(1);
    assert Limit(8) == 256 * Limit(7) && Limit(7) == 256 * Limit(6)
        && Limit(6) == 256 * Limit(5) && Limit(5) == 256 * Limit(4);
  }

  // ---------------------------------------------------------------------------
  // Snapshots of memory. The read functions are total so that invariants can be
  // written without range side conditions; the methods below only read in range.
  // ---------------------------------------------------------------------------

  type Mem = seq<byte>

  /** GET: the 4-byte word at address a. */
  ghost function Word(m: Mem, a: int): nat {
    if 0 <= a && a + 4 <= |m| then Value(m[a..a + 4]) else 0
  }

  /** The 8-byte pointer at address a. */
  ghost function Ptr(m: Mem, a: int): nat {
    if 0 <= a && a + 8 <= |m| then Value(m[a..a + 8]) else 0
  }

  /** m and m' hold the same bytes at addresses lo..hi-1. */
  ghost predicate Same(m: Mem, m': Mem, lo: int, hi: int) {
    |m'| == |m| && forall i {:trigger m'[i]} :: lo <= i < hi && 0 <= i < |m| ==> m'[i] == m[i]
  }

  /** m' differs from m at most at addresses a..a+n-1. */
  ghost predicate Only(m: Mem, m': Mem, a: int, n: int) {
    |m'| == |m| && forall i {:trigger m'[i]} :: 0 <= i < |m| && !(a <= i < a + n) ==> m'[i] == m[i]
  }

  lemma WordSame(m: Mem, m': Mem, a: int)
    requires Same(m, m', a, a + 4)
    ensures Word(m', a) == Word(m, a)
  {
    if 0 <= a && a + 4 <= |m| {
      assert m'[a..a + 4] == m[a..a + 4];
    }
  }

  lemma PtrSame(m: Mem, m': Mem, a: int)
    requires Same(m, m', a, a + 8)
    ensures Ptr(m', a) == Ptr(m, a)
  {
    if 0 <= a && a + 8 <= |m| {
      assert m'[a..a + 8] == m[a..a + 8];
    }
  }

  lemma {:induction false} ZeroValue(s: seq<byte>)
    requires forall i :: 0 <= i < |s| ==> s[i] == 0
    ensures Value(s) == 0
  {
    if s != [] {
      ZeroValue(s[1..]);
    }
  }

  /** All bytes at addresses lo..hi-1 are 0. */
  ghost predicate Zero(m: Mem, lo: int, hi: int) {
    forall i {:trigger m[i]} :: lo <= i < hi && 0 <= i < |m| ==> m[i] == 0
  }

  lemma ZeroPtr(m: Mem, a: int)
    requires Zero(m, a, a + 8)
    ensures Ptr(m, a) == 0
  {
    if 0 <= a && a + 8 <= |m| {
      ZeroValue(m[a..a + 8]);
    }
  }

  lemma ZeroWord(m: Mem, a: int)
    requires Zero(m, a, a + 4)
    ensures Word(m, a) == 0
  {
    if 0 <= a && a + 4 <= |m| {
      ZeroValue(m[a..a + 4]);
    }
  }

  // ---------------------------------------------------------------------------
  // memlib.c
  // ---------------------------------------------------------------------------

  class Memlib {
    const start: nat          // mem_start_brk
    const mem: array<byte>    // indexed by address; the heap region is start..start+MAX_HEAP
    var brk: nat              // mem_brk
    var enomem: bool          // errno was set to ENOMEM

    ghost predicate Valid()
      reads this
    {
      8 <= start && start % 8 == 0 && mem.Length == start + MAX_HEAP && mem.Length < PTR_LIMIT &&
      start <= brk <= mem.Length
    }

    /** mem_init: the system's malloc leaves the region's contents unspecified. */
    constructor (start: nat)
      requires 8 <= start && start % 8 == 0 && start + MAX_HEAP < PTR_LIMIT
      ensures Valid() && fresh(mem) && this.start == start && brk == start && !enomem
    {
      this.start := start;
      mem := new byte[start + MAX_HEAP];
      brk := start;
      enomem := false;
    }

    /** mem_clear */
    method Clear()
      requires Valid()
      modifies this`brk, mem
      ensures Valid() && brk == start
      ensures forall i :: start <= i < mem.Length ==> mem[i] == 0
      ensures forall i :: 0 <= i < start ==> mem[i] == old(mem[i])
    {
      Memset(start, 0, MAX_HEAP);
      ResetBrk();
    }

    /** mem_reset_brk */
    method ResetBrk()
      requires Valid()
      modifies this`brk
      ensures Valid() && brk == start
    {
      brk := start;
    }

    /** mem_sbrk: -1 exactly when the request is negative or does not fit. */
    method Sbrk(incr: int) returns (oldBrk: int)
      requires Valid()
      modifies this`brk, this`enomem
      ensures Valid()
      ensures incr < 0 || old(brk) + incr > mem.Length ==> oldBrk == -1 && brk == old(brk) && enomem
      ensures 0 <= incr && old(brk) + incr <= mem.Length ==>
        oldBrk == old(brk) && brk == old(brk) + incr && enomem == old(enomem)
    {
      if incr < 0 || brk + incr > mem.Length {
        enomem := true;
        return -1;
      }
      oldBrk := brk;
      brk := brk + incr;
    }

    function HeapLo(): nat { start }

    function HeapHi(): int
      reads this
    {
      brk - 1
    }

    function HeapSize(): int
      reads this
    {
      brk - start
    }

    /** *(unsigned int*)a */
    method Load32(a: nat) returns (w: nat)
      requires a + 4 <= mem.Length
      ensures w == Word(mem[..], a) && w < WORD_LIMIT
    {
      var b0: int, b1: int, b2: int, b3: int := mem[a], mem[a + 1], mem[a + 2], mem[a + 3];
      w := b0 + 256 * (b1 + 256 * (b2 + 256 * b3));
      ghost var s := mem[..][a..a + 4];
      LittleEndian(s);
    }

    /** *(unsigned int*)a = v */
    method Store32(a: nat, v: nat)
      requires a + 4 <= mem.Length && v < WORD_LIMIT
      modifies mem
      ensures Word(mem[..], a) == v
      ensures Only(old(mem[..]), mem[..], a, 4)
    {
      Store(a, v, 4);
    }

    /** *(uintptr_t*)a */
    method Load64(a: nat) returns (w: nat)
      requires a + 8 <= mem.Length
      ensures w == Ptr(mem[..], a) && w < PTR_LIMIT
    {
      var lo := Load32(a);
      var hi := Load32(a + 4);
      w := lo + WORD_LIMIT * hi;
      ghost var s := mem[..][a..a + 8];
      ValueSplit(s, 4);
      Limits();
      assert s[..4] == mem[..][a..a + 4] && s[4..] == mem[..][a + 4..a + 8];
    }

    /** *(uintptr_t*)a = v */
    method Store64(a: nat, v: nat)
      requires a + 8 <= mem.Length && v < PTR_LIMIT
      modifies mem
      ensures Ptr(mem[..], a) == v
      ensures Only(old(mem[..]), mem[..], a, 8)
    {
      Store(a, v, 8);
    }

    method Store(a: nat, v: nat, n: nat)
      requires a + n <= mem.Length && v < Limit(n)
      modifies mem
      ensures Value(mem[a..a + n]) == v
      ensures Only(old(mem[..]), mem[..], a, n)
    {
      var s := Bytes(v, n);
      forall i | 0 <= i < n {
        mem[a + i] := s[i];
      }
      ValueOfBytes(v, n);
      assert mem[a..a + n] == s;
    }

    /** memset(a, v, n) */
    method Memset(a: nat, v: byte, n: nat)
      requires a + n <= mem.Length
      modifies mem
      ensures forall i :: a <= i < a + n ==> mem[i] == v
      ensures Only(old(mem[..]), mem[..], a, n)
    {
      forall i | a <= i < a + n {
        mem[i] := v;
      }
    }

    /** memcpy(dst, src, n), copying upwards. */
    method Memcpy(dst: nat, src: nat, n: nat)
      requires dst + n <= mem.Length && src + n <= mem.Length
      requires dst <= src || src + n <= dst
      modifies mem
      ensures forall i :: dst <= i < dst + n ==> mem[i] == old(mem[i - dst + src])
      ensures Only(old(mem[..]), mem[..], dst, n)
    {
      for k := 0 to n
        invariant forall i :: dst <= i < dst + k ==> mem[i] == old(mem[i - dst + src])
        invariant forall i :: 0 <= i < mem.Length && !(dst <= i < dst + k) ==> mem[i] == old(mem[i])
      {
        mem[dst + k] := mem[src + k];
      }
    }
  }

  lemma {:induction false} ValueSplit(s: seq<byte>, k: nat)
    requires k <= |s|
    ensures Value(s) == Value(s[..k]) + Limit(k) * Value(s[k..])
  {
    if k == 0 {
      assert s[k..] == s;
    } else {
      ValueSplit(s[1..], k - 1);
      assert s[1..][k - 1..] == s[k..] && s[1..][..k - 1] == s[..k][1..];
      assert 256 * (Limit(k - 1) * Value(s[k..])) == Limit(k) * Value(s[k..]);
    }
  }
}
