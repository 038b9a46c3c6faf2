/**
 * The eight-lane scan and the scalar scan it must equal (imdb/software_scan/avx2: predicate, store, scan;
 * nosimd/cpu_scan).
 */
module VectorScan {
  import opened SeqMath
  import opened BitColumn
  import opened LaneDecompression
  import opened IndexStore

  // ----- Numbers in words.

  lemma {:induction false} NumberBound(w: seq<bool>, n: nat)
    requires forall j :: n <= j < |w| ==> !w[j]
    ensures Number(w) < Pow2(n)
  {
    if w != [] {
      if n == 0 {
        NumberBound(w[1..], 0);
      } else {
        NumberBound(w[1..], n - 1);
      }
    }
  }

  lemma {:induction false} NumberOfOne(w: seq<bool>, k: nat)
    requires k < |w| && forall j :: 0 <= j < |w| ==> w[j] == (j == k)
    ensures Number(w) == Pow2(k)
  {
    if k == 0 {
      NumberOfZeros(w[1..]);
    } else {
      NumberOfOne(w[1..], k - 1);
    }
  }

  /** Bit `k` of a word is worth 2^k. */
  lemma OneBitIsPower(k: nat)
    requires k < WORD_BITS
    ensures Number(OneBit(k)) == Pow2(k)
  {
    NumberOfOne(OneBit(k), k);
  }

  /** The signed reading of an unsigned 32-bit number. */
  function Signed(x: nat): int {
    if x % 0x1_0000_0000 < 0x8000_0000 then x % 0x1_0000_0000 else x % 0x1_0000_0000 - 0x1_0000_0000
  }

  // ----- Predicates.

  datatype Predicate =
    | InRange(start: nat, end: nat)
    | InList(size: nat, list: seq<Word>)

  ghost predicate ValidPredicate(p: Predicate) {
    match p
    case InRange(start, end) => start < 0x1_0000_0000 && end < 0x1_0000_0000
    case InList(size, list) => size <= 0x1_0000_0000 && |list| == AlignedStorageSize(size)
  }

  /** The scalar predicates: `start <= x <= end`, and membership in the list. */
  predicate ScalarMatch(p: Predicate, x: nat)
    requires ValidPredicate(p)
  {
    match p
    case InRange(start, end) => start <= x <= end
    case InList(size, list) => StorageHolds(size); x < size && Bit(list, x)
  }

  /** Number of list words: computed in 64 bits, then truncated to 32. */
  function MaxIndex(size: nat): nat {
    (((size - 1) % 0x1_0000_0000_0000_0000) / 32 + 1) % 0x1_0000_0000
  }

  lemma MaxIndexIs(size: nat)
    requires size <= 0x1_0000_0000
    ensures size == 0 ==> MaxIndex(size) == 0
    ensures size > 0 ==> MaxIndex(size) == (size - 1) / 32 + 1
    ensures size <= 32 * MaxIndex(size) && MaxIndex(size) <= AlignedStorageSize(size) && MaxIndex(size) < 0x8000_0000
  {
    hide AlignedStorageSize;
    StorageHolds(size);
    if size > 0 {
      assert (size - 1) % 0x1_0000_0000_0000_0000 == size - 1;
    }
  }

  /** The mask bit of one lane: signed compares, and a masked gather of the list word with a bit test. */
  predicate LaneMatch(p: Predicate, x: nat)
    requires ValidPredicate(p)
  {
    match p
    case InRange(start, end) => !(Signed(start) > Signed(x) || Signed(x) > Signed(end))
    case InList(size, list) =>
      MaxIndexIs(size);
      var index, shift := x / 32, x % 32;
      var word := if Signed(MaxIndex(size)) > Signed(index) && 0 <= index < |list| then list[index] else Zero();
      And(word, OneBit(shift)) == OneBit(shift)
  }

  /** The lane and the scalar predicate give the same answer for value `x`. */
  predicate Agree(p: Predicate, x: nat)
    requires ValidPredicate(p)
  {
    LaneMatch(p, x) == ScalarMatch(p, x)
  }

  /** What the caller must respect for the lanes to agree with the scalar predicate. */
  ghost predicate AgreesOn(p: Predicate, bound: nat)
    requires ValidPredicate(p)
  {
    match p
    case InRange(start, end) =>
      (start < 0x8000_0000 <==> end < 0x8000_0000) || (start < 0x8000_0000 <= end && bound <= start)
    case InList(size, list) =>
      MaxIndexIs(size);
      forall x: nat :: size <= x < 32 * MaxIndex(size) && x < bound ==> !Bit(list, x)
  }

  lemma RangeAgreesIff(start: nat, end: nat, bound: nat)
    requires start < 0x1_0000_0000 && end < 0x1_0000_0000 && 0 < bound <= 0x8000_0000
    ensures (forall x: nat :: x < bound ==> Agree(InRange(start, end), x)) <==> AgreesOn(InRange(start, end), bound)
  {
    var p := InRange(start, end);
    if !AgreesOn(p, bound) {
      if end < start {
        assert !Agree(p, 0);
      } else {
        assert !Agree(p, start);
      }
    }
  }

  /** A range holds its two ends and everything between: one value, or the two parts at any split. */
  lemma RangeIs(a: nat, b: nat, x: nat)
    requires a <= b < 0xFFFF_FFFF
    ensures ScalarMatch(InRange(a, a), x) <==> x == a
    ensures ScalarMatch(InRange(a, b + 1), x) <==> ScalarMatch(InRange(a, b), x) || x == b + 1
    ensures !ScalarMatch(InRange(b + 1, a), x)
  {
  }

  /** Splitting a range. */
  lemma RangeSplits(a: nat, m: nat, b: nat, x: nat)
    requires a <= m < b < 0x1_0000_0000
    ensures ScalarMatch(InRange(a, b), x) <==> ScalarMatch(InRange(a, m), x) || ScalarMatch(InRange(m + 1, b), x)
  {
  }

  /** The list predicate is membership in the bit vector that it was made of. */
  lemma ListIsBitVector(v: BitVector, x: nat)
    requires v.Valid() && v.size <= 0x1_0000_0000
    ensures ValidPredicate(InList(v.size, v.data[..]))
    ensures ScalarMatch(InList(v.size, v.data[..]), x) <==> v.Contains(x)
  {
    hide AlignedStorageSize, And, OneBit, Zero, TailClear, Bit, BitVector.Contains;
    StorageHolds(v.size);
  }

  /** The lane compare takes a bound of 2^31 for a negative number. */
  lemma LargeBoundFails()
    ensures ScalarMatch(InRange(0, 0x8000_0000), 5) && !LaneMatch(InRange(0, 0x8000_0000), 5)
  {
  }

  lemma ListMatch(size: nat, list: seq<Word>, x: nat)
    requires ValidPredicate(InList(size, list)) && x < 0x8000_0000
    ensures MaxIndex(size) <= |list|
    ensures LaneMatch(InList(size, list), x) <==> x < 32 * MaxIndex(size) && Bit(list, x)
  {
    hide And, OneBit, Zero, MaxIndex, AlignedStorageSize, Signed;
    MaxIndexIs(size);
    SignedSmall(x / 32);
    SignedSmall(MaxIndex(size));
    TestBit(Zero(), x % 32);
    ZeroBits(x % 32);
    if x / 32 < MaxIndex(size) {
      TestBit(list[x / 32], x % 32);
    }
  }

  lemma SignedSmall(x: nat)
    requires x < 0x8000_0000
    ensures Signed(x) == x
  {
  }

  lemma ZeroBits(k: nat)
    requires k < WORD_BITS
    ensures !Zero()[k]
  {
  }

  lemma ListAgreesIff(size: nat, list: seq<Word>, bound: nat)
    requires ValidPredicate(InList(size, list)) && bound <= 0x8000_0000
    ensures (forall x: nat :: x < bound ==> Agree(InList(size, list), x)) <==> AgreesOn(InList(size, list), bound)
  {
    hide LaneMatch;
    var p := InList(size, list);
    MaxIndexIs(size);
    forall x: nat | x < bound
      ensures Agree(p, x) <==> !(size <= x < 32 * MaxIndex(size) && Bit(list, x))
    {
      ListMatch(size, list, x);
    }
    if forall x: nat :: x < bound ==> Agree(p, x) {
      forall x: nat | size <= x < 32 * MaxIndex(size) && x < bound
        ensures !Bit(list, x)
      {
        assert Agree(p, x);
      }
    }
  }

  /** A list for the value 0 only, with a stray bit behind it: the lane test also finds 1. */
  lemma StrayBitMatches(list: seq<Word>)
    requires ValidPredicate(InList(1, list)) && Bit(list, 1)
    ensures !ScalarMatch(InList(1, list), 1) && LaneMatch(InList(1, list), 1)
  {
    hide LaneMatch, AlignedStorageSize;
    MaxIndexIs(1);
    ListMatch(1, list, 1);
  }

  /**
   * The lanes agree with the scalar predicate on every column value if and only if the range bounds are
   * on the same side of 2^31 (or the range is empty on the column), or no stray bit follows the list.
   */
  lemma LanesAgreeIff(p: Predicate, bound: nat)
    requires ValidPredicate(p) && 0 < bound <= 0x8000_0000
    ensures (forall x: nat :: x < bound ==> Agree(p, x)) <==> AgreesOn(p, bound)
  {
    hide Agree, AgreesOn;
    match p
    case InRange(start, end) => RangeAgreesIff(start, end, bound);
    case InList(size, list) => ListAgreesIff(size, list, bound);
  }

  // ----- Columns.

  /** A packed column of `count` values over storage with the slack that the container allocates. */
  datatype Column = Column(cells: seq<Word>, bits: nat, count: nat) {
    ghost predicate Valid() {
      1 <= bits <= 18 && bits * count + EXTRA_BITS <= WORD_BITS * |cells| && count <= 0xFFFF_FFF8
    }

    /** The count rounded up to whole blocks of eight. */
    function Padded(): nat {
      (count + 7) / 8 * 8
    }

    /** Every slot of the last block is readable too. */
    lemma SlotInStorage(k: nat)
      requires Valid() && k < Padded()
      ensures k * bits / WORD_BITS + 1 < |cells| && k / 8 * bits + 32 <= 4 * |cells|
    {
      SlotFits(k, count, bits, |cells|);
    }

    function Value(k: nat): (x: nat)
      requires Valid() && k < Padded()
    {
      SlotInStorage(k);
      Number(GetValue(cells, bits, k))
    }

    lemma ValueBound(k: nat)
      requires Valid() && k < Padded()
      ensures Value(k) < Pow2(bits) <= Pow2(18) == 0x4_0000
    {
      SlotInStorage(k);
      NumberBound(GetValue(cells, bits, k), bits);
      PowerGrows(bits, 18);
      assert Pow2(6) == 64 && Pow2(12) == 64 * 64;
    }
  }

  lemma InSlack(position: nat, bytes: nat, bits: nat, cells: nat)
    requires position <= bits + 126 && 8 * bytes <= position && bits + EXTRA_BITS <= WORD_BITS * cells
    ensures position / WORD_BITS + 1 < cells && bytes + 32 <= 4 * cells
  {
  }

  lemma SlotFits(k: nat, count: nat, bits: nat, cells: nat)
    requires k <= count + 7 && bits <= 18 && bits * count + EXTRA_BITS <= WORD_BITS * cells
    ensures k * bits / WORD_BITS + 1 < cells && k / 8 * bits + 32 <= 4 * cells
  {
    PaddedProducts(k, count, bits);
    InSlack(k * bits, k / 8 * bits, bits * count, cells);
  }

  lemma PaddedProducts(k: nat, count: nat, bits: nat)
    requires k <= count + 7 && bits <= 18
    ensures k * bits <= bits * count + 126 && 8 * (k / 8 * bits) <= k * bits
  {
    var q, r := k / 8, k % 8;
    assert k * bits == 8 * (q * bits) + r * bits by {
      assert k == 8 * q + r;
      assert (8 * q + r) * bits == 8 * q * bits + r * bits;
    }
    MulMonotone(k, count + 7, bits);
    assert (count + 7) * bits == bits * count + 7 * bits;
  }

  lemma {:induction false} PowerGrows(a: nat, b: nat)
    requires a <= b
    ensures Pow2(a) <= Pow2(b)
  {
    if a < b {
      PowerGrows(a, b - 1);
    }
  }

  /** Slot `k` of the column matches. */
  predicate Match(c: Column, p: Predicate, k: nat)
    requires c.Valid() && ValidPredicate(p) && k < c.Padded()
  {
    ScalarMatch(p, c.Value(k))
  }

  /** The matching positions in [lo, hi), ascending. */
  ghost function Matches(c: Column, p: Predicate, lo: nat, hi: nat): seq<nat>
    requires c.Valid() && ValidPredicate(p) && lo <= hi <= c.Padded()
    decreases hi - lo
  {
    if lo == hi then []
    else (if Match(c, p, lo) then [lo] else []) + Matches(c, p, lo + 1, hi)
  }

  lemma {:induction false} MatchesSplit(c: Column, p: Predicate, lo: nat, mid: nat, hi: nat)
    requires c.Valid() && ValidPredicate(p) && lo <= mid <= hi <= c.Padded()
    ensures Matches(c, p, lo, hi) == Matches(c, p, lo, mid) + Matches(c, p, mid, hi)
    decreases mid - lo
  {
    hide Match;
    if lo < mid {
      MatchesSplit(c, p, lo + 1, mid, hi);
    }
  }

  /** The list is strictly ascending and holds exactly the matching positions. */
  lemma {:induction false} MatchesAreExact(c: Column, p: Predicate, lo: nat, hi: nat)
    requires c.Valid() && ValidPredicate(p) && lo <= hi <= c.Padded()
    ensures forall a, b :: 0 <= a < b < |Matches(c, p, lo, hi)| ==> Matches(c, p, lo, hi)[a] < Matches(c, p, lo, hi)[b]
    ensures forall k: nat :: k in Matches(c, p, lo, hi) <==> lo <= k < hi && Match(c, p, k)
    ensures |Matches(c, p, lo, hi)| <= hi - lo
    decreases hi - lo
  {
    hide Match, Column.Valid, ValidPredicate;
    if lo < hi {
      MatchesAreExact(c, p, lo + 1, hi);
      Prepend(lo, Match(c, p, lo), Matches(c, p, lo + 1, hi));
    }
  }

  lemma Prepend(k: nat, first: bool, later: seq<nat>)
    requires (forall x :: x in later ==> k < x) && forall a, b :: 0 <= a < b < |later| ==> later[a] < later[b]
    ensures var s := (if first then [k] else []) + later;
      && (forall a, b :: 0 <= a < b < |s| ==> s[a] < s[b])
      && (forall x :: x in s <==> (first && x == k) || x in later)
  {
    assert forall a :: 0 <= a < |later| ==> later[a] in later;
  }

  // ----- The scalar scan.

  /** `in_range_to_iv` and `in_list_to_iv`. */
  method ScalarToIndices(c: Column, p: Predicate) returns (result: seq<nat>)
    requires c.Valid() && ValidPredicate(p)
    ensures result == Matches(c, p, 0, c.count)
  {
    hide Match;
    result := [];
    for i := 0 to c.count
      invariant result == Matches(c, p, 0, i)
    {
      MatchesSplit(c, p, 0, i, i + 1);
      assert Matches(c, p, i, i + 1) == if Match(c, p, i) then [i] else [];
      if Match(c, p, i) {
        result := result + [i];
      }
    }
  }

  /** `in_range_to_bv` and `in_list_to_bv`. */
  method ScalarToBits(c: Column, p: Predicate) returns (result: BitVector)
    requires c.Valid() && ValidPredicate(p)
    ensures fresh(result) && fresh(result.data) && result.Valid() && result.size == c.count
    ensures forall k: nat :: result.Contains(k) <==> k < c.count && Match(c, p, k)
  {
    hide Match;
    result := new BitVector(c.count);
    for i := 0 to c.count
      invariant result.Valid()
      invariant forall k: nat :: result.Contains(k) <==> k < i && Match(c, p, k)
    {
      if Match(c, p, i) {
        result.Insert(i);
      }
    }
  }

  // ----- The vector scan.

  /** The mask of one block, lane by lane. */
  method BlockMask(c: Column, p: Predicate, constants: Constants, i: nat, base: nat,
                   ghost block: nat) returns (mask: seq<bool>)
    requires c.Valid() && ValidPredicate(p) && AgreesOn(p, Pow2(c.bits))
    requires ValidConstants(constants) && constants.entrySize == c.bits && i == 8 * block && i + LANES <= c.Padded()
    requires base == block * c.bits
    ensures |mask| == LANES && forall v :: 0 <= v < LANES ==> mask[v] == Match(c, p, i + v)
  {
    hide LoadWithDecompression, AgreesOn, LaneMatch, Match, Column.Valid, ValidPredicate, Pow2;
    LaneAgrees(c, p, constants, block, base, 0);
    var lanes := LoadWithDecompression(c.cells, base, constants);
    forall v | 0 <= v < LANES
      ensures LaneMatch(p, Number(lanes[v])) == Match(c, p, i + v)
    {
      LaneAgrees(c, p, constants, block, base, v);
    }
    mask := seq(LANES, v requires 0 <= v < LANES => LaneMatch(p, Number(lanes[v])));
  }

  /** Lane `v` of a block gives the scalar answer for its slot. */
  lemma LaneAgrees(c: Column, p: Predicate, constants: Constants, block: nat, base: nat, v: nat)
    requires c.Valid() && ValidPredicate(p) && AgreesOn(p, Pow2(c.bits)) && base == block * c.bits
    requires ValidConstants(constants) && constants.entrySize == c.bits && 8 * block + v < c.Padded() && v < LANES
    ensures base + 32 <= 4 * |c.cells|
    ensures LaneMatch(p, Number(LoadWithDecompression(c.cells, base, constants)[v])) == Match(c, p, 8 * block + v)
  {
    hide LoadWithDecompression, GetValue, AgreesOn, LaneMatch, ScalarMatch;
    c.SlotInStorage(8 * block + v);
    assert (8 * block + v) / 8 == block;
    LanesAreSlots(c.cells, block, constants, v);
    AgreesAt(c, p, 8 * block + v);
  }

  lemma AgreesAt(c: Column, p: Predicate, k: nat)
    requires c.Valid() && ValidPredicate(p) && AgreesOn(p, Pow2(c.bits)) && k < c.Padded()
    ensures LaneMatch(p, c.Value(k)) == ScalarMatch(p, c.Value(k))
  {
    hide AgreesOn, LaneMatch, ScalarMatch, GetValue, Pow2;
    c.ValueBound(k);
    LanesAgreeIff(p, Pow2(c.bits));
    assert Agree(p, c.Value(k));
  }

  lemma Shifted(a: seq<nat>, b: seq<nat>, a': seq<nat>, b': seq<nat>, shift: int)
    requires |a| == |a'| && |b| == |b'|
    requires forall k :: 0 <= k < |a| ==> shift + a[k] == a'[k]
    requires forall k :: 0 <= k < |b| ==> shift + b[k] == b'[k]
    ensures forall k :: 0 <= k < |a + b| ==> shift + (a + b)[k] == (a' + b')[k]
  {
  }

  /** The set lanes of a block are the block's matches. */
  lemma {:induction false} BlockMatches(c: Column, p: Predicate, at: nat, mask: seq<bool>, v: nat)
    requires c.Valid() && ValidPredicate(p) && at + |mask| <= c.Padded()
    requires forall w :: 0 <= w < |mask| ==> mask[w] == Match(c, p, at + w)
    ensures |Positions(mask, v)| == |Matches(c, p, at, at + |mask|)|
    ensures forall k :: 0 <= k < |Positions(mask, v)| ==>
            at - v + Positions(mask, v)[k] == Matches(c, p, at, at + |mask|)[k]
    decreases |mask|
  {
    hide Match, Column.Valid, ValidPredicate, Matches, Positions;
    MatchesUnfold(c, p, at, at + |mask|);
    PositionsUnfold(mask, v);
    if mask != [] {
      assert mask[0] == Match(c, p, at + 0);
      forall w | 0 <= w < |mask[1..]|
        ensures mask[1..][w] == Match(c, p, at + 1 + w)
      {
        assert mask[1..][w] == mask[w + 1] == Match(c, p, at + (w + 1));
      }
      BlockMatches(c, p, at + 1, mask[1..], v + 1);
      var first := mask[0];
      Shifted(if first then [v] else [], Positions(mask[1..], v + 1), if first then [at] else [],
              Matches(c, p, at + 1, at + |mask|), at - v);
    }
  }

  lemma MatchesUnfold(c: Column, p: Predicate, lo: nat, hi: nat)
    requires c.Valid() && ValidPredicate(p) && lo <= hi <= c.Padded()
    ensures Matches(c, p, lo, hi)
      == if lo == hi then [] else (if Match(c, p, lo) then [lo] else []) + Matches(c, p, lo + 1, hi)
  {
    hide Match, Column.Valid, ValidPredicate;
  }

  lemma PositionsUnfold(mask: seq<bool>, k: nat)
    ensures Positions(mask, k) == if mask == [] then [] else (if mask[0] then [k] else []) + Positions(mask[1..], k + 1)
  {
  }

  /** Every eight-wide store of the scan lies in a result of `length` entries. */
  ghost predicate StoresInside(c: Column, p: Predicate, length: nat)
    requires c.Valid() && ValidPredicate(p)
  {
    forall i: nat :: i < c.count && i % LANES == 0 ==> StoreInside(c, p, i, length)
  }

  /** The store of the block that starts at slot `i`: it begins behind the earlier matches. */
  ghost predicate StoreInside(c: Column, p: Predicate, i: nat, length: nat)
    requires c.Valid() && ValidPredicate(p) && i < c.count
  {
    |Matches(c, p, 0, i)| + LANES <= length
  }

  lemma MatchesGrow(c: Column, p: Predicate, i: nat, j: nat)
    requires c.Valid() && ValidPredicate(p) && i <= j <= c.Padded()
    ensures |Matches(c, p, 0, i)| <= |Matches(c, p, 0, j)| && |Matches(c, p, 0, j)| <= j
  {
    hide Matches, Column.Valid, ValidPredicate;
    MatchesSplit(c, p, 0, i, j);
    MatchesAreExact(c, p, 0, j);
  }

  /** A result of the padded size takes every store, whatever matches. */
  lemma PaddedSizeSuffices(c: Column, p: Predicate, length: nat)
    requires c.Valid() && ValidPredicate(p) && c.Padded() <= length
    ensures StoresInside(c, p, length)
  {
    hide Matches, Column.Valid, ValidPredicate;
    forall i: nat | i < c.count && i % LANES == 0
      ensures StoreInside(c, p, i, length)
    {
      MatchesGrow(c, p, i, i);
    }
  }

  /**
   * In a result of exactly the column size, as the AVX2 runner allocates it, all stores stay inside if and only if
   * the size is a multiple of eight or the whole blocks leave room for the last store.
   */
  lemma StoresInsideIff(c: Column, p: Predicate)
    requires c.Valid() && ValidPredicate(p)
    ensures StoresInside(c, p, c.count)
       <==> c.count % LANES == 0 || |Matches(c, p, 0, c.count - c.count % LANES)| + LANES <= c.count
  {
    hide Matches, Column.Valid, ValidPredicate;
    var last := c.count - c.count % LANES;
    if c.count % LANES == 0 {
      PaddedSizeSuffices(c, p, c.count);
    } else {
      assert StoreInside(c, p, last, c.count) <==> |Matches(c, p, 0, last)| + LANES <= c.count;
      forall i: nat | i < c.count && i % LANES == 0
        ensures StoreInside(c, p, last, c.count) ==> StoreInside(c, p, i, c.count)
      {
        MatchesGrow(c, p, i, last);
      }
    }
  }

  const EVERYTHING := InRange(0, 0xFFFF_FFFF)

  lemma {:induction false} EverythingMatches(c: Column, lo: nat, hi: nat)
    requires c.Valid() && ValidPredicate(EVERYTHING) && lo <= hi <= c.Padded()
    ensures |Matches(c, EVERYTHING, lo, hi)| == hi - lo
    decreases hi - lo
  {
    hide Column.Valid, Column.Value;
    MatchesUnfold(c, EVERYTHING, lo, hi);
    if lo < hi {
      c.ValueBound(lo);
      EverythingMatches(c, lo + 1, hi);
    }
  }

  /** All stores stay inside whatever the predicate if and only if the column size is a multiple of eight. */
  lemma AlwaysInsideIff(c: Column)
    requires c.Valid()
    ensures (forall p :: ValidPredicate(p) ==> StoresInside(c, p, c.count)) <==> c.count % LANES == 0
  {
    hide Matches, Column.Valid, StoresInside;
    if c.count % LANES == 0 {
      forall p | ValidPredicate(p)
        ensures StoresInside(c, p, c.count)
      {
        StoresInsideIff(c, p);
      }
    } else {
      StoresInsideIff(c, EVERYTHING);
      EverythingMatches(c, 0, c.count - c.count % LANES);
      assert ValidPredicate(EVERYTHING);
    }
  }

  /** A column of one value: its only store leaves a result of one entry, whatever the predicate. */
  lemma OneValueLeavesResult(c: Column, p: Predicate)
    requires c.Valid() && ValidPredicate(p) && c.count == 1
    ensures !StoresInside(c, p, c.count)
  {
    assert !StoreInside(c, p, 0, 1);
  }

  /**
   * The scan to an index vector. Whole blocks are scanned, so the slots up to the padded count take part;
   * in a result that takes every store no earlier index is lost.
   */
  method ScanToIndices(c: Column, p: Predicate, constants: Constants, result: array<nat>) returns (count: nat)
    requires c.Valid() && ValidPredicate(p) && AgreesOn(p, Pow2(c.bits))
    requires ValidConstants(constants) && constants.entrySize == c.bits && StoresInside(c, p, result.Length)
    modifies result
    ensures count <= c.Padded() && count <= result.Length && result[..count] == Matches(c, p, 0, c.Padded())
    ensures forall x :: c.Padded() <= x < result.Length ==> result[x] == old(result[x])
  {
    hide Match, Matches, AgreesOn, ValidConstants, Column.Valid, ValidPredicate;
    count := 0;
    var i, base := 0, 0;
    NoMatches(c, p);
    while i < c.count
      invariant i <= c.Padded() && i % 8 == 0 && base == i / 8 * c.bits && count <= i && count <= result.Length
      invariant result[..count] == Matches(c, p, 0, i)
      invariant forall x :: c.Padded() <= x < result.Length ==> result[x] == old(result[x])
    {
      assert StoreInside(c, p, i, result.Length);
      count := ScanBlock(c, p, constants, result, i, base, count);
      NextBase(i, c.bits);
      i, base := i + 8, base + c.bits;
    }
  }

  lemma NextBase(i: nat, bits: nat)
    ensures (i + 8) / 8 * bits == i / 8 * bits + bits
  {
    assert (i + 8) / 8 == i / 8 + 1;
  }

  method ScanBlock(c: Column, p: Predicate, constants: Constants, result: array<nat>, i: nat, base: nat,
                   count: nat) returns (count': nat)
    requires c.Valid() && ValidPredicate(p) && AgreesOn(p, Pow2(c.bits))
    requires ValidConstants(constants) && constants.entrySize == c.bits && count + LANES <= result.Length
    requires i + LANES <= c.Padded() && i % 8 == 0 && base == i / 8 * c.bits && count <= i
    requires result[..count] == Matches(c, p, 0, i)
    modifies result
    ensures count <= count' <= count + LANES && result[..count'] == Matches(c, p, 0, i + LANES)
    ensures forall x :: c.Padded() <= x < result.Length ==> result[x] == old(result[x])
  {
    hide Match, Matches, Positions, AgreesOn, ValidConstants, Pow2, ScalarMatch;
    var mask := BlockMask(c, p, constants, i, base, i / 8);
    assert i + LANES <= 0x1_0000_0000;
    ghost var before := result[..count];
    var n := StoreIndices(i, mask, result, count);
    BlockStored(c, p, i, mask, before, result[..count + n]);
    count' := count + n;
  }

  lemma NoMatches(c: Column, p: Predicate)
    requires c.Valid() && ValidPredicate(p)
    ensures Matches(c, p, 0, 0) == []
  {
  }

  lemma BlockStored(c: Column, p: Predicate, i: nat, mask: seq<bool>, before: seq<nat>,
                    after: seq<nat>)
    requires c.Valid() && ValidPredicate(p) && i + LANES <= c.Padded() && |mask| == LANES
    requires forall v :: 0 <= v < LANES ==> mask[v] == Match(c, p, i + v)
    requires before == Matches(c, p, 0, i) && |after| == |before| + |Positions(mask, 0)| && after[..|before|] == before
    requires forall k :: 0 <= k < |Positions(mask, 0)| ==> after[|before| + k] == i + Positions(mask, 0)[k]
    ensures after == Matches(c, p, 0, i + LANES)
  {
    hide Match, Matches, Positions;
    BlockMatches(c, p, i, mask, 0);
    MatchesSplit(c, p, 0, i, i + LANES);
    var block := Matches(c, p, i, i + LANES);
    forall x | 0 <= x < |after|
      ensures after[x] == (before + block)[x]
    {
      if x < |before| {
        assert after[x] == after[..|before|][x];
      } else {
        assert after[|before| + (x - |before|)] == i + Positions(mask, 0)[x - |before|];
      }
    }
  }

  /** The indices are the scalar scan's if and only if no slot of the padding matches. */
  lemma EqualsScalarIff(c: Column, p: Predicate)
    requires c.Valid() && ValidPredicate(p)
    ensures Matches(c, p, 0, c.Padded()) == Matches(c, p, 0, c.count) <==>
            forall k: nat :: c.count <= k < c.Padded() ==> !Match(c, p, k)
  {
    hide Match, Matches;
    MatchesSplit(c, p, 0, c.count, c.Padded());
    MatchesAreExact(c, p, c.count, c.Padded());
    var padding := Matches(c, p, c.count, c.Padded());
    if padding != [] {
      assert padding[0] in padding;
      assert |Matches(c, p, 0, c.Padded())| > |Matches(c, p, 0, c.count)|;
    } else {
      assert forall k: nat :: k !in padding;
    }
  }

  /** Slots that were never written hold zero: then the column size or the predicate on zero decides. */
  lemma EqualsScalarOnFreshPaddingIff(c: Column, p: Predicate)
    requires c.Valid() && ValidPredicate(p)
    requires forall k: nat :: c.count <= k < c.Padded() ==> c.Value(k) == 0
    ensures Matches(c, p, 0, c.Padded()) == Matches(c, p, 0, c.count) <==> c.count % 8 == 0 || !ScalarMatch(p, 0)
  {
    hide Matches, ScalarMatch, Column.Value, Column.Valid, ValidPredicate;
    EqualsScalarIff(c, p);
    assert forall k: nat :: c.count <= k < c.Padded() ==> Match(c, p, k) == ScalarMatch(p, 0);
    assert c.count < c.Padded() <==> c.count % 8 != 0;
    if c.count < c.Padded() {
      assert Match(c, p, c.count) == ScalarMatch(p, 0);
    }
  }

  lemma {:induction false} NumberOfZeros(w: seq<bool>)
    requires forall j :: 0 <= j < |w| ==> !w[j]
    ensures Number(w) == 0
  {
    if w != [] {
      NumberOfZeros(w[1..]);
    }
  }

  /** A new column of one value, searched for zero: the scan also reports slots behind it. */
  lemma PaddingMatches(c: Column)
    requires c.Valid() && c.count == 1 && forall i :: 0 <= i < |c.cells| ==> c.cells[i] == Zero()
    ensures Matches(c, InRange(0, 0), 0, 8) != Matches(c, InRange(0, 0), 0, 1) == [0]
  {
    hide Number, GetValue, IsBits, Column.Valid, Zero;
    forall k: nat | k < c.Padded()
      ensures c.Value(k) == 0
    {
      ZeroSlot(c, k);
    }
    assert c.Padded() == 8 && Match(c, InRange(0, 0), 0);
    MatchesUnfold(c, InRange(0, 0), 0, 1);
    MatchesUnfold(c, InRange(0, 0), 1, 1);
    EqualsScalarOnFreshPaddingIff(c, InRange(0, 0));
  }

  lemma ZeroSlot(c: Column, k: nat)
    requires c.Valid() && k < c.Padded() && forall i :: 0 <= i < |c.cells| ==> c.cells[i] == Zero()
    ensures c.Value(k) == 0
  {
    hide Number, GetValue, IsBits;
    c.SlotInStorage(k);
    ZeroCellsAreClear(c.cells, c.bits, k);
    BitsUnique(c.cells, c.bits, k * c.bits, GetValue(c.cells, c.bits, k), Zero());
    NumberOfZeros(Zero());
  }

  // ----- The scan to a bit vector.

  /** Bit `k` of the result's bytes. */
  ghost predicate ResultBit(bytes: seq<Byte>, k: nat)
    requires k / 8 < |bytes|
  {
    bytes[k / 8][k % 8]
  }

  /** The bits below `n` say which slots match; the bytes from there on are as before. */
  ghost predicate BitsBelow(c: Column, p: Predicate, bytes: seq<Byte>, before: seq<Byte>, n: nat)
    requires c.Valid() && ValidPredicate(p)
  {
    && n % 8 == 0 && n <= c.Padded() && n / 8 <= |bytes| == |before|
    && (forall k: nat :: k < n ==> ResultBit(bytes, k) == Match(c, p, k))
    && (forall x :: n / 8 <= x < |bytes| ==> bytes[x] == before[x])
  }

  /** The scan to a bit vector stores one mask byte per block. */
  method ScanToBits(c: Column, p: Predicate, constants: Constants, bytes: array<Byte>) returns (count: nat)
    requires c.Valid() && ValidPredicate(p) && AgreesOn(p, Pow2(c.bits))
    requires ValidConstants(constants) && constants.entrySize == c.bits
    requires bytes.Length == 4 * AlignedStorageSize(c.count)
    modifies bytes
    ensures count == c.Padded() / 8 && BitsBelow(c, p, bytes[..], old(bytes[..]), c.Padded())
  {
    hide Match, AgreesOn, ValidConstants, Column.Valid, ValidPredicate, AlignedStorageSize, BitsBelow;
    StorageHolds(c.count);
    count := 0;
    var i, base := 0, 0;
    NoBits(c, p, bytes[..]);
    while i < c.count
      invariant i <= c.Padded() && i % 8 == 0 && base == i / 8 * c.bits && count == i / 8
      invariant BitsBelow(c, p, bytes[..], old(bytes[..]), i)
    {
      var lanes := BlockMask(c, p, constants, i, base, i / 8);
      var mask: Byte := lanes;
      ghost var now := bytes[..];
      bytes[count] := mask;
      assert bytes[..] == now[i / 8 := mask];
      NextBits(c, p, now, old(bytes[..]), i, mask);
      NextBase(i, c.bits);
      i, base, count := i + 8, base + c.bits, count + 1;
    }
  }

  lemma NoBits(c: Column, p: Predicate, bytes: seq<Byte>)
    requires c.Valid() && ValidPredicate(p)
    ensures BitsBelow(c, p, bytes, bytes, 0)
  {
  }

  lemma NextBits(c: Column, p: Predicate, bytes: seq<Byte>, before: seq<Byte>, i: nat, mask: Byte)
    requires c.Valid() && ValidPredicate(p) && BitsBelow(c, p, bytes, before, i) && i / 8 < |bytes|
    requires i + 8 <= c.Padded()
    requires forall v :: 0 <= v < 8 ==> mask[v] == Match(c, p, i + v)
    ensures BitsBelow(c, p, bytes[i / 8 := mask], before, i + 8)
  {
    hide Match;
    forall k: nat | k < i + 8
      ensures ResultBit(bytes[i / 8 := mask], k) == Match(c, p, k)
    {
      if k < i {
        assert ResultBit(bytes, k) == Match(c, p, k);
      } else {
        assert mask[k - i] == Match(c, p, i + (k - i));
      }
    }
  }
}
