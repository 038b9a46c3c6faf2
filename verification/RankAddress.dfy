/** Rank interleaving: the address map and the block copies built on it (core/device/sls/utils/rank_address). */
module RankAddress {
  import opened SeqMath

  // Rank interleaving size: 1 << HA_BIT_POS.
  const BLOCK: nat := 256

  function CunitToHa(cunit: nat): nat {
    cunit % 2
  }

  function Flip(x: nat, y: nat): nat {
    if x == y then 0 else 1
  }

  /** The Home Agent bit goes in at bit 8, corrected by bit 19 of the rank address. */
  function Interleaved(rank: nat, ha: nat): nat {
    var corrected := Flip(rank / 0x8_0000 % 2, ha);
    (rank - rank % BLOCK) * 2 + corrected * BLOCK + rank % BLOCK
  }

  /** The way back: rank address and Home Agent of a system address. */
  function RankOf(system: nat): nat {
    system / (2 * BLOCK) * BLOCK + system % BLOCK
  }

  function HaOf(system: nat): nat {
    Flip(RankOf(system) / 0x8_0000 % 2, system / BLOCK % 2)
  }

  /** Block number and offset in the block. */
  lemma Split(rank: nat, ha: nat) returns (h: nat, l: nat, c: nat)
    requires ha < 2
    ensures rank == h * BLOCK + l && l < BLOCK && c == Flip(h / 2048 % 2, ha) && c < 2
    ensures Interleaved(rank, ha) == h * 512 + c * BLOCK + l
    ensures rank / 0x8_0000 == h / 2048
  {
    h, l := rank / BLOCK, rank % BLOCK;
    c := Flip(h / 2048 % 2, ha);
  }

  /** The map is a bijection between pairs of rank address and Home Agent and system addresses: one direction ... */
  lemma InterleaveThenBack(rank: nat, ha: nat)
    requires ha < 2
    ensures RankOf(Interleaved(rank, ha)) == rank && HaOf(Interleaved(rank, ha)) == ha
  {
    hide Interleaved;
    var h, l, c := Split(rank, ha);
    var s := Interleaved(rank, ha);
    DivUnique(s, 512, h, c * BLOCK + l);
    DivUnique(s, BLOCK, 2 * h + c, l);
    assert (2 * h + c) % 2 == c;
  }

  /** ... and the other. */
  lemma BackThenInterleave(system: nat)
    ensures HaOf(system) < 2 && Interleaved(RankOf(system), HaOf(system)) == system
  {
    var h, l, c := system / 512, system % BLOCK, system / BLOCK % 2;
    assert system == h * 512 + c * BLOCK + l;
    var r := RankOf(system);
    assert r == h * BLOCK + l && r % BLOCK == l && r / 0x8_0000 == h / 2048;
  }

  /** Block boundaries of one rank, before and after the correction. */
  lemma BlockBoundaries()
    ensures Interleaved(0, 0) == 0 && Interleaved(30, 0) == 30 && Interleaved(255, 0) == 255
    ensures Interleaved(256, 0) == 512 && Interleaved(286, 0) == 542
    ensures Interleaved(0x7_FFFF, 0) == 0x10_0000 - 256 - 1 && Interleaved(0x8_0000, 0) == 0x10_0000 + 256
    ensures Interleaved(0x10_0000 - 256, 0) == 0x20_0000 - 256 && Interleaved(0x10_0000, 0) == 0x20_0000
    ensures Interleaved(0, 1) == 256 && Interleaved(0x8_0000, 1) == 0x10_0000
  {
  }

  lemma Increasing(r1: nat, r2: nat, ha: nat)
    requires ha < 2 && r1 < r2
    ensures Interleaved(r1, ha) < Interleaved(r2, ha)
  {
    var h1, l1, c1 := Split(r1, ha);
    var h2, l2, c2 := Split(r2, ha);
    assert h1 <= h2;
  }

  /** Inside a block the map is a shift. */
  lemma WithinBlock(rank: nat, ha: nat, j: nat)
    requires ha < 2 && rank % BLOCK + j < BLOCK
    ensures Interleaved(rank + j, ha) == Interleaved(rank, ha) + j
  {
    var h, l, c := Split(rank, ha);
    var h', l', c' := Split(rank + j, ha);
    assert h' == h && l' == l + j;
  }

  /** The window from the image of the start to the image of the end holds every byte of a region. */
  lemma WindowHoldsRegion(start: nat, size: nat, ha: nat, j: nat)
    requires ha < 2 && j < size
    ensures Interleaved(start, ha) <= Interleaved(start + j, ha) < Interleaved(start + size, ha)
  {
    if j > 0 {
      Increasing(start, start + j, ha);
    }
    Increasing(start + j, start + size, ha);
  }

  const PAGE: nat := 4096

  /** `aligned_ceil`. */
  function AlignedCeil(x: nat): nat {
    (x + PAGE - 1) / PAGE * PAGE
  }

  /** The view of `size` bytes at `offset` lies in the mapping, which starts at the page of `offset`. */
  ghost predicate ViewInMapping(offset: nat, size: nat) {
    offset % PAGE + size <= AlignedCeil(size)
  }

  /**
   * The mapping is as long as the rounded size, whatever page offset the view starts at: it holds the view if and only
   * if the page offset is at most what rounding the size added.
   */
  lemma ViewInMappingIff(offset: nat, size: nat)
    ensures ViewInMapping(offset, size) <==> offset % PAGE <= (PAGE - size % PAGE) % PAGE
  {
    var q, r := size / PAGE, size % PAGE;
    assert size == q * PAGE + r;
    if r == 0 {
      DivUnique(size + PAGE - 1, PAGE, q, PAGE - 1);
    } else {
      DivUnique(size + PAGE - 1, PAGE, q + 1, r - 1);
    }
  }

  /** One page is mapped to its end from the start of a page, and not from offset 512. */
  lemma ViewLeavesMapping()
    ensures ViewInMapping(0x7000, 0x1000) && ViewInMapping(0x7FFF, 0x0001) && !ViewInMapping(512, 0x1000)
    ensures !ViewInMapping(Interleaved(0x100, 0), Interleaved(0x900, 0) - Interleaved(0x100, 0))
  {
  }

  /** A position in interleaved memory; `interleaved` caches the address of rank address `ranked`. */
  datatype Pointer = Pointer(base: int, ha: nat, ranked: nat, interleaved: int) {
    ghost predicate Valid() {
      ha < 2 && interleaved == base + Interleaved(ranked, ha)
    }

    function Plus(n: nat): (p: Pointer)
      ensures ha < 2 ==> p.Valid()
    {
      Pointer(base, ha, ranked + n, base + Interleaved(ranked + n, ha))
    }

    ghost function AddressOf(j: nat): int {
      base + Interleaved(ranked + j, ha)
    }

    /** The bytes [0, n) lie in memory. */
    ghost predicate InMemory(n: nat, size: nat) {
      forall j: nat :: j < n ==> 0 <= AddressOf(j) < size
    }
  }

  function MakePointer(base: int, ha: nat): (p: Pointer)
    ensures ha < 2 ==> p.Valid()
  {
    Pointer(base, ha, 0, base + Interleaved(0, ha))
  }

  /** Even units are on Home Agent 0, odd ones on 1. */
  lemma MadePointerIsOnHomeAgent(cunit: nat, phys: nat, virtual: int, n: nat)
    ensures var p := MakeInterleavedPointer(cunit, phys, virtual).Plus(n);
      && p.base <= p.interleaved && p.ranked == phys + n == RankOf(p.interleaved - p.base)
      && (HaOf(p.interleaved - p.base) == 0 <==> cunit % 2 == 0)
  {
    InterleaveThenBack(phys + n, CunitToHa(cunit));
  }

  /** Across bit 19 of the rank address the block changes sides: unit 0 and unit 1. */
  lemma AcrossTheCorrection(virtual: int)
    ensures MakeInterleavedPointer(0, 0, virtual).Plus(0x8_0000).interleaved == virtual + 0x10_0100
    ensures MakeInterleavedPointer(1, 0, virtual).Plus(0x8_0000).interleaved == virtual + 0x0F_FF00
  {
  }

  /** The pointer stands at the given virtual address, and moves inside the mapped window. */
  lemma MadePointerMovesInWindow(cunit: nat, start: nat, size: nat, virtual: int, j: nat)
    requires j < size
    ensures var p := MakeInterleavedPointer(cunit, start, virtual);
      && p.Valid() && p.interleaved == virtual
      && virtual <= p.Plus(j).interleaved
      && p.Plus(j).interleaved < virtual + Interleaved(start + size, CunitToHa(cunit)) - Interleaved(start,
                                                                                                     CunitToHa(cunit))
  {
    WindowHoldsRegion(start, size, CunitToHa(cunit), j);
  }

  function MakeInterleavedPointer(cunit: nat, phys: nat, virtual: int): Pointer {
    var ha := CunitToHa(cunit);
    MakePointer(virtual - Interleaved(phys, ha), ha).Plus(phys)
  }

  // ----- Copies.

  /** Memory after `src` was written through `p`: byte j at the interleaved address of start + j. */
  ghost function Put(mem: seq<nat>, p: Pointer, src: seq<nat>): seq<nat> {
    seq(|mem|, x requires 0 <= x < |mem| =>
      if p.base <= x && HaOf(x - p.base) == p.ha && p.ranked <= RankOf(x - p.base) < p.ranked + |src|
      then src[RankOf(x - p.base) - p.ranked] else mem[x])
  }

  ghost function Get(mem: seq<nat>, p: Pointer, n: nat): seq<nat>
    requires p.InMemory(n, |mem|)
  {
    seq(n, j requires 0 <= j < n => mem[p.AddressOf(j)])
  }

  lemma PutAt(mem: seq<nat>, p: Pointer, src: seq<nat>, j: nat)
    requires p.Valid() && p.InMemory(|src|, |mem|) && j < |src|
    ensures Put(mem, p, src)[p.AddressOf(j)] == src[j]
  {
    InterleaveThenBack(p.ranked + j, p.ha);
  }

  /** Write then read returns what was written. */
  lemma WriteThenRead(mem: seq<nat>, p: Pointer, src: seq<nat>)
    requires p.Valid() && p.InMemory(|src|, |mem|)
    ensures Get(Put(mem, p, src), p, |src|) == src
  {
    forall j: nat | j < |src|
      ensures Put(mem, p, src)[p.AddressOf(j)] == src[j]
    {
      PutAt(mem, p, src, j);
    }
  }

  /** The bytes of the other Home Agent, and all bytes outside the range of this one, are untouched. */
  lemma OthersUntouched(mem: seq<nat>, p: Pointer, src: seq<nat>, ha: nat, rank: nat)
    requires p.Valid() && ha < 2 && 0 <= p.base + Interleaved(rank, ha) < |mem|
    requires ha != p.ha || rank < p.ranked || p.ranked + |src| <= rank
    ensures Put(mem, p, src)[p.base + Interleaved(rank, ha)] == mem[p.base + Interleaved(rank, ha)]
  {
    InterleaveThenBack(rank, ha);
  }

  /** Units of different parity on one device never touch each other's bytes. */
  lemma UnitsAreSeparate(mem: seq<nat>, u: nat, phys: nat, virtual: int, src: seq<nat>, u': nat, phys': nat,
                         virtual': int, n: nat)
    requires var p, q := MakeInterleavedPointer(u, phys, virtual), MakeInterleavedPointer(u', phys', virtual');
      p.base == q.base && u % 2 != u' % 2 && q.InMemory(n, |mem|)
    ensures var p, q := MakeInterleavedPointer(u, phys, virtual), MakeInterleavedPointer(u', phys', virtual');
      q.InMemory(n, |Put(mem, p, src)|) && Get(Put(mem, p, src), q, n) == Get(mem, q, n)
  {
    hide Interleaved, Put;
    var p, q := MakeInterleavedPointer(u, phys, virtual), MakeInterleavedPointer(u', phys', virtual');
    SameSize(mem, p, src);
    forall j: nat | j < n
      ensures Put(mem, p, src)[q.AddressOf(j)] == mem[q.AddressOf(j)]
    {
      OthersUntouched(mem, p, src, q.ha, q.ranked + j);
    }
  }

  lemma SameSize(mem: seq<nat>, p: Pointer, src: seq<nat>)
    ensures |Put(mem, p, src)| == |mem|
  {
  }

  /** Writing in two pieces. */
  lemma PutInTwo(mem: seq<nat>, p: Pointer, src: seq<nat>, k: nat, m: nat)
    requires k <= m <= |src|
    ensures Put(Put(mem, p, src[..k]), p.Plus(k), src[k..m]) == Put(mem, p, src[..m])
  {
    hide Interleaved, HaOf, RankOf;
    var a, b := Put(Put(mem, p, src[..k]), p.Plus(k), src[k..m]), Put(mem, p, src[..m]);
    forall x | 0 <= x < |mem|
      ensures a[x] == b[x]
    {
    }
  }

  /** A piece inside one block is a plain copy. */
  lemma PutInBlock(mem: seq<nat>, after: seq<nat>, p: Pointer, src: seq<nat>)
    requires p.Valid() && p.InMemory(|src|, |mem|) && p.ranked % BLOCK + |src| <= BLOCK && src != []
    requires |after| == |mem| && 0 <= p.interleaved && p.interleaved + |src| <= |mem|
    requires forall x :: 0 <= x < |mem| ==>
      after[x] == if p.interleaved <= x < p.interleaved + |src| then src[x - p.interleaved] else mem[x]
    ensures after == Put(mem, p, src)
  {
    hide HaOf, RankOf, Interleaved;
    forall x | 0 <= x < |mem|
      ensures after[x] == Put(mem, p, src)[x]
    {
      if p.interleaved <= x < p.interleaved + |src| {
        var j := x - p.interleaved;
        WithinBlock(p.ranked, p.ha, j);
        InterleaveThenBack(p.ranked + j, p.ha);
      } else if p.base <= x && HaOf(x - p.base) == p.ha && p.ranked <= RankOf(x - p.base) < p.ranked + |src| {
        BackThenInterleave(x - p.base);
        WithinBlock(p.ranked, p.ha, RankOf(x - p.base) - p.ranked);
      }
    }
  }

  function Min(a: nat, b: nat): nat {
    if a < b then a else b
  }

  /** `memcpy_block`: one contiguous piece, then both sides move on. */
  method CopyBlockTo(src: seq<nat>, copied: nat, size: nat, mem: array<nat>, dst: Pointer) returns (next: Pointer)
    requires dst.Valid() && copied + size <= |src| && 0 < size && dst.ranked % BLOCK + size <= BLOCK
    requires dst.InMemory(size, mem.Length)
    modifies mem
    ensures next == dst.Plus(size)
    ensures mem[..] == Put(old(mem[..]), dst, src[copied..copied + size])
  {
    hide Interleaved;
    WithinBlock(dst.ranked, dst.ha, size - 1);
    assert dst.AddressOf(0) == dst.interleaved && dst.AddressOf(size - 1) == dst.interleaved + size - 1;
    for j := 0 to size
      invariant forall x :: dst.interleaved <= x < dst.interleaved + j ==> mem[x] == src[copied + (x - dst.interleaved)]
      invariant forall x :: 0 <= x < mem.Length && !(dst.interleaved <= x < dst.interleaved + j) ==>
                mem[x] == old(mem[x])
    {
      mem[dst.interleaved + j] := src[copied + j];
    }
    PutInBlock(old(mem[..]), mem[..], dst, src[copied..copied + size]);
    next := dst.Plus(size);
  }

  lemma InMemoryLater(p: Pointer, n: nat, size: nat, k: nat, m: nat)
    requires p.InMemory(n, size) && k + m <= n
    ensures p.Plus(k).InMemory(m, size)
  {
    hide Interleaved;
    forall j: nat | j < m
      ensures 0 <= p.Plus(k).AddressOf(j) < size
    {
      assert p.Plus(k).AddressOf(j) == p.AddressOf(k + j);
    }
  }

  /** `memcpy_interleaved` into the device: a first piece up to a block boundary, then whole blocks. */
  method MemcpyTo(src: seq<nat>, mem: array<nat>, dst: Pointer) returns (copied: nat)
    requires dst.Valid() && dst.InMemory(|src|, mem.Length)
    modifies mem
    ensures copied == |src| && mem[..] == Put(old(mem[..]), dst, src)
  {
    hide Interleaved, Put, Pointer.InMemory;
    copied := 0;
    var p := dst;
    ghost var before := mem[..];
    PutNothing(before, dst);
    assert src[..0] == [];
    // Nothing to copy: the first piece would be empty.
    if p.ranked % BLOCK != 0 && |src| > 0 {
      var size := Min(|src|, BLOCK - p.ranked % BLOCK);
      SameMemory(dst, |src|, mem.Length, 0, size);
      p := CopyBlockTo(src, 0, size, mem, p);
      copied := size;
      assert src[0..size] == src[..size];
    }
    while copied < |src|
      invariant copied <= |src| && p == (if copied == 0 then dst else dst.Plus(copied))
      invariant mem[..] == Put(before, dst, src[..copied])
      invariant copied < |src| ==> p.ranked % BLOCK == 0
    {
      var size := Min(BLOCK, |src| - copied);
      SameMemory(dst, |src|, mem.Length, copied, size);
      p := CopyBlockTo(src, copied, size, mem, p);
      PlusPlus(dst, copied, size);
      PutTwoStart(before, dst, src, copied, copied + size);
      copied := copied + size;
    }
    assert src[..copied] == src;
  }

  lemma PutNothing(mem: seq<nat>, p: Pointer)
    ensures Put(mem, p, []) == mem
  {
  }

  lemma PutTwoStart(mem: seq<nat>, p: Pointer, src: seq<nat>, k: nat, m: nat)
    requires k <= m <= |src|
    ensures Put(Put(mem, p, src[..k]), if k == 0 then p else p.Plus(k), src[k..m]) == Put(mem, p, src[..m])
  {
    hide Put, Interleaved;
    if k == 0 {
      PutNothing(mem, p);
      assert src[..0] == [] && src[0..m] == src[..m];
    } else {
      PutInTwo(mem, p, src, k, m);
    }
  }

  lemma SameMemory(p: Pointer, n: nat, size: nat, k: nat, m: nat)
    requires p.InMemory(n, size) && k + m <= n
    ensures (if k == 0 then p else p.Plus(k)).InMemory(m, size)
  {
    InMemoryLater(p, n, size, k, m);
  }

  lemma PlusPlus(p: Pointer, k: nat, m: nat)
    ensures (if k == 0 then p else p.Plus(k)).Plus(m) == p.Plus(k + m)
  {
  }

  /** `dst` holds the first bytes. */
  ghost predicate Got(mem: seq<nat>, src: Pointer, bytes: nat, dst: seq<nat>)
    requires src.InMemory(bytes, |mem|)
  {
    |dst| <= bytes && forall k: nat :: k < |dst| ==> dst[k] == mem[src.AddressOf(k)]
  }

  lemma GotMore(mem: seq<nat>, src: Pointer, bytes: nat, dst: seq<nat>, block: seq<nat>)
    requires src.InMemory(bytes, |mem|) && Got(mem, src, bytes, dst) && |dst| + |block| <= bytes
    requires forall k: nat :: |dst| <= k < |dst| + |block| ==> block[k - |dst|] == mem[src.AddressOf(k)]
    ensures Got(mem, src, bytes, dst + block)
  {
    hide Interleaved;
  }

  /** `memcpy_interleaved` out of the device, the same way. */
  method MemcpyFrom(mem: array<nat>, src: Pointer, bytes: nat) returns (dst: seq<nat>)
    requires src.Valid() && src.InMemory(bytes, mem.Length)
    ensures dst == Get(mem[..], src, bytes)
  {
    hide Interleaved, Got, Pointer.InMemory;
    dst := [];
    var p := src;
    assert Got(mem[..], src, bytes, []) by { GotNothing(mem[..], src, bytes); }
    // Nothing to copy: the first piece would be empty.
    if p.ranked % BLOCK != 0 && bytes > 0 {
      var size := Min(bytes, BLOCK - p.ranked % BLOCK);
      var block := CopyBlockFrom(mem, p, size, src, bytes, 0);
      GotMore(mem[..], src, bytes, [], block);
      dst := [] + block;
      p := p.Plus(size);
    }
    while |dst| < bytes
      invariant |dst| <= bytes && p == (if |dst| == 0 then src else src.Plus(|dst|))
      invariant Got(mem[..], src, bytes, dst)
      invariant |dst| < bytes ==> p.ranked % BLOCK == 0
    {
      var size := Min(BLOCK, bytes - |dst|);
      var block := CopyBlockFrom(mem, p, size, src, bytes, |dst|);
      PlusPlus(src, |dst|, size);
      GotMore(mem[..], src, bytes, dst, block);
      p := p.Plus(size);
      dst := dst + block;
    }
    GotAll(mem[..], src, bytes, dst);
  }

  lemma GotNothing(mem: seq<nat>, src: Pointer, bytes: nat)
    requires src.InMemory(bytes, |mem|)
    ensures Got(mem, src, bytes, [])
  {
  }

  lemma GotAll(mem: seq<nat>, src: Pointer, bytes: nat, dst: seq<nat>)
    requires src.InMemory(bytes, |mem|) && Got(mem, src, bytes, dst) && |dst| == bytes
    ensures dst == Get(mem, src, bytes)
  {
    hide Interleaved;
  }

  method CopyBlockFrom(mem: array<nat>, p: Pointer, size: nat, ghost src: Pointer, ghost bytes: nat, ghost done: nat)
    returns (block: seq<nat>)
    requires src.Valid() && src.InMemory(bytes, mem.Length) && done + size <= bytes && 0 < size
    requires p == (if done == 0 then src else src.Plus(done)) && p.ranked % BLOCK + size <= BLOCK
    ensures |block| == size && forall k: nat :: done <= k < done + size ==> block[k - done] == mem[..][src.AddressOf(k)]
  {
    hide Interleaved;
    forall k: nat | done <= k < done + size
      ensures src.AddressOf(k) == p.interleaved + (k - done)
    {
      WithinBlock(p.ranked, p.ha, k - done);
    }
    assert 0 <= src.AddressOf(done) && src.AddressOf(done + size - 1) < mem.Length;
    block := mem[p.interleaved..p.interleaved + size];
  }
}
