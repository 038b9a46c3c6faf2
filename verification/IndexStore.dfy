/** Compaction of the matching lane numbers with PDEP, PEXT and a lane permutation (imdb/software_scan/avx2/store). */
module IndexStore {
  import opened SeqMath
  import opened LaneDecompression

  // ----- 64-bit words as bit sequences, bit 0 first.

  const LONG_BITS: nat := 64

  function Number(w: seq<bool>): nat {
    if w == [] then 0 else (if w[0] then 1 else 0) + 2 * Number(w[1..])
  }

  function ToBits(x: nat, n: nat): (w: seq<bool>)
    ensures |w| == n
  {
    if n == 0 then [] else [x % 2 == 1] + ToBits(x / 2, n - 1)
  }

  lemma {:induction false} BitsOfNumber(w: seq<bool>)
    ensures ToBits(Number(w), |w|) == w
  {
    if w != [] {
      BitsOfNumber(w[1..]);
    }
  }

  /** Deposit the low bits of `src` at the set positions of `mask`. */
  function Pdep(src: seq<bool>, mask: seq<bool>): (w: seq<bool>)
    ensures |w| == |mask|
  {
    if mask == [] then []
    else if mask[0] && src != [] then [src[0]] + Pdep(src[1..], mask[1..])
    else [false] + Pdep(src, mask[1..])
  }

  /** The bits of `src` at the set positions of `mask`, in order. */
  function Extract(src: seq<bool>, mask: seq<bool>): (w: seq<bool>)
    requires |src| == |mask|
    ensures |w| <= |src|
  {
    if mask == [] then []
    else (if mask[0] then [src[0]] else []) + Extract(src[1..], mask[1..])
  }

  function Pext(src: seq<bool>, mask: seq<bool>): (w: seq<bool>)
    requires |src| == |mask|
    ensures |w| == |src|
  {
    Extract(src, mask) + seq(|src| - |Extract(src, mask)|, i => false)
  }

  function Multiply(w: seq<bool>, k: nat): seq<bool> {
    ToBits(Number(w) * k, |w|)
  }

  /** `n` bytes with only bit 0 set. */
  function LowBits(n: nat): (w: seq<bool>)
    ensures |w| == 8 * n
  {
    if n == 0 then [] else [true, false, false, false, false, false, false, false] + LowBits(n - 1)
  }

  /** Bytes `k`, `k + 1`, ..., `n` of them. */
  function Counting(k: nat, n: nat): (w: seq<bool>)
    ensures |w| == 8 * n
    decreases n
  {
    if n == 0 then [] else ToBits(k, 8) + Counting(k + 1, n - 1)
  }

  // ----- Positions of the set mask bits.

  function Positions(mask: seq<bool>, k: nat): (r: seq<nat>)
    ensures |r| <= |mask|
  {
    if mask == [] then []
    else (if mask[0] then [k] else []) + Positions(mask[1..], k + 1)
  }

  /** One byte of ones or zeros for each mask bit. */
  ghost function Extended(mask: seq<bool>): (w: seq<bool>)
    ensures |w| == 8 * |mask|
  {
    if mask == [] then [] else ByteOf(mask[0]) + Extended(mask[1..])
  }

  ghost function Spread(mask: seq<bool>): (w: seq<bool>)
    ensures |w| == 8 * |mask|
  {
    if mask == [] then [] else [mask[0], false, false, false, false, false, false, false] + Spread(mask[1..])
  }

  lemma {:induction false} DepositZeros(src: seq<bool>, mask: seq<bool>, n: nat)
    ensures Pdep(src, seq(n, i => false) + mask) == seq(n, i => false) + Pdep(src, mask)
  {
    var zeros := seq(n, i => false);
    if n == 0 {
      assert zeros + mask == mask;
      assert zeros + Pdep(src, mask) == Pdep(src, mask);
    } else {
      var fewer := seq(n - 1, i => false);
      DepositZeros(src, mask, n - 1);
      assert (zeros + mask)[1..] == fewer + mask;
      assert zeros == [false] + fewer;
      assert [false] + (fewer + Pdep(src, mask)) == zeros + Pdep(src, mask);
    }
  }

  lemma {:induction false} DepositIsSpread(mask: seq<bool>)
    ensures Pdep(mask, LowBits(|mask|)) == Spread(mask)
  {
    hide Pdep;
    if mask == [] {
      DepositNothing();
    } else {
      hide LowBits, Spread;
      var n, zeros := |mask|, seq(7, i => false);
      DepositIsSpread(mask[1..]);
      LowBitsUnfold(n);
      DepositOne(mask, LowBits(n));
      DepositZeros(mask[1..], LowBits(n - 1), 7);
      SpreadUnfold(mask);
    }
  }

  lemma LowBitsUnfold(n: nat)
    requires n > 0
    ensures LowBits(n)[0] && LowBits(n)[1..] == seq(7, i => false) + LowBits(n - 1)
  {
  }

  lemma SpreadUnfold(mask: seq<bool>)
    requires mask != []
    ensures Spread(mask) == [mask[0]] + (seq(7, i => false) + Spread(mask[1..]))
  {
  }

  lemma DepositNothing()
    ensures Pdep([], []) == []
  {
  }

  lemma DepositOne(src: seq<bool>, mask: seq<bool>)
    requires src != [] && mask != [] && mask[0]
    ensures Pdep(src, mask) == [src[0]] + Pdep(src[1..], mask[1..])
  {
  }

  lemma NumberOfByte(a: seq<bool>, rest: seq<bool>)
    requires |a| == 8
    ensures Number(a + rest) == Number(a) + 256 * Number(rest)
  {
    PowerOfByte();
    NumberAppend(a, rest, 256);
  }

  lemma NumberUnfold(w: seq<bool>)
    requires w != []
    ensures Number(w) == (if w[0] then 1 else 0) + 2 * Number(w[1..])
  {
  }

  lemma Doubled(half: nat, n: nat)
    ensures 2 * half * n == 2 * (half * n)
  {
  }

  lemma {:induction false} NumberAppend(a: seq<bool>, rest: seq<bool>, p: nat)
    requires p == Pow2(|a|)
    ensures Number(a + rest) == Number(a) + p * Number(rest)
  {
    if a == [] {
      assert a + rest == rest;
    } else {
      hide Number;
      var half := Pow2(|a| - 1);
      NumberAppend(a[1..], rest, half);
      assert (a + rest)[1..] == a[1..] + rest;
      NumberUnfold(a);
      NumberUnfold(a + rest);
      Doubled(half, Number(rest));
    }
  }

  lemma {:induction false} ExtendedNumber(mask: seq<bool>)
    ensures Number(Extended(mask)) == 255 * Number(Spread(mask))
  {
    if mask != [] {
      ExtendedNumber(mask[1..]);
      var low := [mask[0], false, false, false, false, false, false, false];
      NumberOfByte(ByteOf(mask[0]), Extended(mask[1..]));
      NumberOfByte(low, Spread(mask[1..]));
      ByteNumbers(mask[0]);
    }
  }

  lemma ByteNumbers(b: bool)
    ensures Number(ByteOf(b)) == (if b then 255 else 0)
    ensures Number([b, false, false, false, false, false, false, false]) == (if b then 1 else 0)
  {
    var low := [b, false, false, false, false, false, false, false];
    ZerosNumber(low[1..]);
    var ones := ByteOf(b);
    assert ones[7..] == [b] && ones[6..][1..] == ones[7..] && ones[5..][1..] == ones[6..] &&
           ones[4..][1..] == ones[5..];
    assert ones[3..][1..] == ones[4..] && ones[2..][1..] == ones[3..] && ones[1..][1..] == ones[2..];
    assert Number(ones[7..]) == if b then 1 else 0;
    assert Number(ones[6..]) == if b then 3 else 0;
    assert Number(ones[5..]) == if b then 7 else 0;
    assert Number(ones[4..]) == if b then 15 else 0;
    assert Number(ones[3..]) == if b then 31 else 0;
    assert Number(ones[2..]) == if b then 63 else 0;
    assert Number(ones[1..]) == if b then 127 else 0;
  }

  lemma {:induction false} ZerosNumber(w: seq<bool>)
    requires forall i :: 0 <= i < |w| ==> !w[i]
    ensures Number(w) == 0
  {
    if w != [] {
      ZerosNumber(w[1..]);
    }
  }

  /** Deposit and multiply turn each mask bit into a byte. */
  lemma {:induction false} MaskExtends(mask: seq<bool>)
    ensures Multiply(Pdep(mask, LowBits(|mask|)), 0xFF) == Extended(mask)
  {
    DepositIsSpread(mask);
    ExtendedNumber(mask);
    BitsOfNumber(Extended(mask));
  }

  // ----- Extraction selects the positions.

  ghost function BytesOf(list: seq<nat>): (w: seq<bool>)
    ensures |w| == 8 * |list|
  {
    if list == [] then [] else ToBits(list[0], 8) + BytesOf(list[1..])
  }

  lemma {:induction false} ExtractAll(a: seq<bool>, b: seq<bool>, m: seq<bool>, bit: bool, all: seq<bool>)
    requires |a| == |all| && |b| == |m| && forall i :: 0 <= i < |all| ==> all[i] == bit
    ensures Extract(a + b, all + m) == (if bit then a else []) + Extract(b, m)
  {
    hide Extract;
    if a == [] {
      assert a + b == b && all + m == m;
    } else {
      ExtractAll(a[1..], b, m, bit, all[1..]);
      assert (a + b)[1..] == a[1..] + b && (all + m)[1..] == all[1..] + m;
      ExtractOne(a + b, all + m);
      assert [a[0]] + a[1..] == a;
    }
  }

  lemma ExtractOne(src: seq<bool>, mask: seq<bool>)
    requires |src| == |mask| && mask != []
    ensures Extract(src, mask) == (if mask[0] then [src[0]] else []) + Extract(src[1..], mask[1..])
  {
  }

  lemma {:induction false} ExtractIsPositions(mask: seq<bool>, k: nat)
    ensures Extract(Counting(k, |mask|), Extended(mask)) == BytesOf(Positions(mask, k))
  {
    if mask != [] {
      ExtractIsPositions(mask[1..], k + 1);
      ExtractAll(ToBits(k, 8), Counting(k + 1, |mask| - 1), Extended(mask[1..]), mask[0], ByteOf(mask[0]));
      assert Counting(k, |mask|) == ToBits(k, 8) + Counting(k + 1, |mask| - 1) &&
             Extended(mask) == ByteOf(mask[0]) + Extended(mask[1..]);
      hide Extract, Counting, Extended, ToBits;
      var later := Positions(mask[1..], k + 1);
      if mask[0] {
        assert Positions(mask, k) == [k] + later && ([k] + later)[1..] == later;
      } else {
        assert Positions(mask, k) == later;
        assert [] + BytesOf(later) == BytesOf(later);
      }
    }
  }

  lemma {:induction false} NumberOfBits(x: nat, n: nat)
    requires x < Pow2(n)
    ensures Number(ToBits(x, n)) == x
  {
    if n > 0 {
      NumberOfBits(x / 2, n - 1);
      assert ToBits(x, n)[1..] == ToBits(x / 2, n - 1);
    }
  }

  lemma PowerOfByte()
    ensures Pow2(8) == 256
  {
    assert Pow2(4) == 16 && Pow2(6) == 64;
  }

  /** Byte `k` of a bit sequence as a number, as the zero-extending byte-to-lane conversion reads it. */
  function ByteAt(w: seq<bool>, k: nat): nat
    requires 8 * k + 8 <= |w|
  {
    Number(w[8 * k..8 * k + 8])
  }

  lemma {:induction false} ByteOfList(list: seq<nat>, zeros: seq<bool>, k: nat)
    requires forall i :: 0 <= i < |list| ==> list[i] < 8
    requires forall i :: 0 <= i < |zeros| ==> !zeros[i]
    requires 8 * k + 8 <= |BytesOf(list) + zeros|
    ensures ByteAt(BytesOf(list) + zeros, k) == if k < |list| then list[k] else 0
  {
    hide ToBits, Number;
    var w := BytesOf(list) + zeros;
    if list == [] {
      assert w == zeros;
      ZerosNumber(w[8 * k..8 * k + 8]);
    } else {
      assert w == ToBits(list[0], 8) + (BytesOf(list[1..]) + zeros);
      PowerOfByte();
      NumberOfBits(list[0], 8);
      if k > 0 {
        ByteOfList(list[1..], zeros, k - 1);
      }
      LaterByte(ToBits(list[0], 8), BytesOf(list[1..]) + zeros, k);
    }
  }

  lemma LaterByte(a: seq<bool>, rest: seq<bool>, k: nat)
    requires |a| == 8 && 8 * k + 8 <= |a + rest|
    ensures ByteAt(a + rest, k) == if k == 0 then Number(a) else ByteAt(rest, k - 1)
  {
    hide Number;
    assert (a + rest)[8 * k..8 * k + 8] == if k == 0 then a else rest[8 * (k - 1)..8 * (k - 1) + 8];
  }

  lemma {:induction false} PositionsBound(mask: seq<bool>, k: nat)
    ensures forall i :: 0 <= i < |Positions(mask, k)| ==> k <= Positions(mask, k)[i] < k + |mask|
  {
    if mask != [] {
      PositionsBound(mask[1..], k + 1);
    }
  }

  /** The permutation selects the positions of the set bits, in order, then lane 0. */
  function Permutation(mask: seq<bool>): seq<bool>
    requires |mask| == LANES
  {
    Pext(Counting(0, LANES), Multiply(Pdep(mask, LowBits(LANES)), 0xFF))
  }

  lemma PermutationIs(mask: seq<bool>, k: nat)
    requires |mask| == LANES && k < LANES
    ensures |Multiply(Pdep(mask, LowBits(LANES)), 0xFF)| == LONG_BITS && |Permutation(mask)| == LONG_BITS
    ensures ByteAt(Permutation(mask), k) == if k < |Positions(mask, 0)| then Positions(mask, 0)[k] else 0
  {
    hide Counting, Pdep, Multiply, LowBits, Extract, BytesOf, Positions, Extended, ByteAt;
    MaskExtends(mask);
    ExtractIsPositions(mask, 0);
    PositionsBound(mask, 0);
    var list := Positions(mask, 0);
    var zeros := seq(LONG_BITS - 8 * |list|, i => false);
    assert Permutation(mask) == BytesOf(list) + zeros;
    ByteOfList(list, zeros, k);
  }

  /** The constants of the source: bit 0 of each byte, and the byte numbers 7 down to 0. */
  lemma Literals()
    ensures Number(LowBits(8)) == 0x0101_0101_0101_0101
    ensures Number(Counting(0, 8)) == 0x0706_0504_0302_0100
  {
    hide Number, LowBits, Counting;
    LowBitsStep(0);
    LowBitsStep(1);
    LowBitsStep(2);
    LowBitsStep(3);
    LowBitsStep(4);
    LowBitsStep(5);
    LowBitsStep(6);
    LowBitsStep(7);
    CountingStep(0, 7);
    CountingStep(1, 6);
    CountingStep(2, 5);
    CountingStep(3, 4);
    CountingStep(4, 3);
    CountingStep(5, 2);
    CountingStep(6, 1);
    CountingStep(7, 0);
  }

  lemma LowBitsStep(n: nat)
    ensures Number(LowBits(0)) == 0 && Number(LowBits(n + 1)) == 1 + 256 * Number(LowBits(n))
  {
    NumberOfByte([true, false, false, false, false, false, false, false], LowBits(n));
    ByteNumbers(true);
  }

  lemma CountingStep(k: nat, n: nat)
    requires k < 256
    ensures Number(Counting(k, n + 1)) == k + 256 * Number(Counting(k + 1, n)) && Number(Counting(k + 1, 0)) == 0
  {
    PowerOfByte();
    NumberOfByte(ToBits(k, 8), Counting(k + 1, n));
    NumberOfBits(k, 8);
  }

  function PopCount(mask: seq<bool>): (n: nat)
    ensures n <= |mask|
  {
    if mask == [] then 0 else (if mask[0] then 1 else 0) + PopCount(mask[1..])
  }

  lemma {:induction false} PopCountIs(mask: seq<bool>, k: nat)
    ensures PopCount(mask) == |Positions(mask, k)|
  {
    if mask != [] {
      PopCountIs(mask[1..], k + 1);
    }
  }

  /** `store` to an index vector: eight lanes are written, the first of them are the matching indices. */
  method StoreIndices(base: nat, mask: seq<bool>, result: array<nat>, outIndex: nat) returns (n: nat)
    requires |mask| == LANES && base + LANES <= 0x1_0000_0000 && outIndex + LANES <= result.Length
    modifies result
    ensures n == |Positions(mask, 0)|
    ensures forall k :: 0 <= k < n ==> result[outIndex + k] == base + Positions(mask, 0)[k]
    ensures forall x :: 0 <= x < result.Length && !(outIndex <= x < outIndex + LANES) ==> result[x] == old(result[x])
  {
    hide Permutation, Positions, ByteAt;
    PositionsBound(mask, 0);
    PermutationIs(mask, 0);
    var indices := seq(LANES, k requires 0 <= k => (base + k) % 0x1_0000_0000);
    var permutation := Permutation(mask);
    for k := 0 to LANES
      invariant forall i :: 0 <= i < k && i < |Positions(mask, 0)| ==>
                result[outIndex + i] == base + Positions(mask, 0)[i]
      invariant forall x :: 0 <= x < result.Length && !(outIndex <= x < outIndex + k) ==> result[x] == old(result[x])
    {
      PermutationIs(mask, k);
      result[outIndex + k] := indices[ByteAt(permutation, k) % 8];
    }
    PopCountIs(mask, 0);
    n := PopCount(mask);
  }
}
