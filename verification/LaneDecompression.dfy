/** Eight-lane decompression of packed values with byte shuffles (imdb/software_scan/avx2/load). */
module LaneDecompression {
  import opened BitColumn

  // ----- Registers as byte sequences, byte 0 first.

  const HALF: nat := 16
  const LANES: nat := 8

  type Byte = b: seq<bool> | |b| == 8 witness seq(8, i => false)
  type Half = h: seq<Byte> | |h| == HALF witness seq(HALF, i => seq(8, j => false))
  type Register = r: seq<Byte> | |r| == 2 * HALF witness seq(2 * HALF, i => seq(8, j => false))

  function ByteOf(bit: bool): Byte {
    [bit, bit, bit, bit, bit, bit, bit, bit]
  }

  /** `_mm_shuffle_epi8`: a control byte with its top bit set gives zero, others select by their low four bits. */
  function ShuffleBytes(a: Half, control: seq<nat>): Half
    requires |control| == HALF
  {
    seq(HALF, i requires 0 <= i < HALF => if control[i] / 128 % 2 == 1 then ByteOf(false) else a[control[i] % 16])
  }

  function AndByte(a: Byte, b: Byte): Byte {
    seq(8, j requires 0 <= j < 8 => a[j] && b[j])
  }

  function AndHalf(a: Half, b: Half): Half {
    seq(HALF, i requires 0 <= i < HALF => AndByte(a[i], b[i]))
  }

  function OrHalf(a: Half, b: Half): Half {
    seq(HALF, i requires 0 <= i < HALF => seq(8, j requires 0 <= j < 8 => a[i][j] || b[i][j]))
  }

  /** Lane `v` of a register as a 32-bit word. */
  function LaneOf(r: Register, v: nat): Word
    requires v < LANES
  {
    seq(WORD_BITS, j requires 0 <= j < WORD_BITS => r[4 * v + j / 8][j % 8])
  }

  // ----- Constants of one entry size.

  function ByteMin(e: nat, v: nat): nat {
    v * e / 8
  }

  function ByteMax(e: nat, v: nat): nat
    requires 1 <= e
  {
    assert 0 <= e * v;
    (e * (v + 1) - 1) / 8
  }

  /** Where the bytes of each lane lie; only the last lane of 17 and 18 bits crosses the half. */
  lemma ByteBounds(e: nat, v: nat)
    requires 1 <= e <= 18 && v < LANES
    ensures ByteMin(e, v) <= ByteMax(e, v) <= ByteMin(e, v) + 3
    ensures ByteMax(e, v) < HALF || (v == 7 && e == 17 && ByteMin(e, v) == 14 && ByteMax(e, v) == 16)
      || (v == 7 && e == 18 && ByteMin(e, v) == 15 && ByteMax(e, v) == 17)
    ensures e == 17 && v == 7 ==> ByteMin(e, v) == 14 && ByteMax(e, v) == 16
    ensures e == 18 && v == 7 ==> ByteMin(e, v) == 15 && ByteMax(e, v) == 17
  {
    if v == 0 {
    } else if v == 1 {
    } else if v == 2 {
    } else if v == 3 {
    } else if v == 4 {
    } else if v == 5 {
    } else if v == 6 {
    } else {
    }
  }

  /** Control byte `k` of lane `v`. */
  function ShuffleByte(e: nat, v: nat, k: nat): nat
    requires 1 <= e
  {
    if ByteMin(e, v) + k <= ByteMax(e, v) then (ByteMin(e, v) + k) % 16 else 0
  }

  datatype Constants = Constants(entrySize: nat, shuffleL: seq<nat>, shuffleH: seq<nat>, alignShift: seq<nat>,
                                 valueMask: Word, cropMask: Half, inverseCropMask: Half)

  ghost predicate IsShuffle(e: nat, control: seq<nat>, first: nat)
    requires 1 <= e
  {
    |control| == HALF && forall i :: 0 <= i < HALF ==> control[i] == ShuffleByte(e, first + i / 4, i % 4)
  }

  /** How many low bytes of the top half come from the low half of the loaded data. */
  function CropBytes(e: nat): nat {
    if e < 17 then 16 else if e == 17 then 14 else 13
  }

  /** A byte of ones for every true entry. */
  function ByteMask(entries: seq<bool>): Half
    requires |entries| == HALF
  {
    seq(HALF, i requires 0 <= i < HALF => ByteOf(entries[i]))
  }

  function LowBytes(n: nat): (entries: seq<bool>)
    ensures |entries| == HALF
  {
    seq(HALF, i => i < n)
  }

  function OtherBytes(n: nat): (entries: seq<bool>)
    ensures |entries| == HALF
  {
    seq(HALF, i => n <= i)
  }

  ghost predicate ValidConstants(c: Constants) {
    && 1 <= c.entrySize <= 18
    && IsShuffle(c.entrySize, c.shuffleL, 0) && IsShuffle(c.entrySize, c.shuffleH, 4)
    && |c.alignShift| == LANES && (forall v :: 0 <= v < LANES ==> c.alignShift[v] == v * c.entrySize % 8)
    && c.valueMask == Ones(c.entrySize)
    && c.cropMask == ByteMask(LowBytes(CropBytes(c.entrySize))) &&
       c.inverseCropMask == ByteMask(OtherBytes(CropBytes(c.entrySize)))
  }

  /** `value_shuffle_bytes`. */
  method ValueShuffleBytes(e: nat, v: nat) returns (submask: seq<nat>)
    requires 1 <= e <= 18 && v < LANES
    ensures |submask| == 4 && forall k :: 0 <= k < 4 ==> submask[k] == ShuffleByte(e, v, k)
  {
    hide ByteMin, ByteMax;
    ByteBounds(e, v);
    submask := [0, 0, 0, 0];
    var i, k := ByteMin(e, v), 0;
    while i <= ByteMax(e, v)
      invariant k <= 4 && i == ByteMin(e, v) + k && i <= ByteMax(e, v) + 1 && |submask| == 4
      invariant forall n :: 0 <= n < k ==> submask[n] == ShuffleByte(e, v, n)
      invariant forall n :: k <= n < 4 ==> submask[n] == 0
    {
      submask := submask[k := i % 16];
      i, k := i + 1, k + 1;
    }
  }

  /** `init_shuffle_control_fields`: lanes `first` to `first + 3`. */
  method InitShuffleControl(e: nat, first: nat) returns (control: seq<nat>)
    requires 1 <= e <= 18 && first + 4 <= LANES
    ensures IsShuffle(e, control, first)
  {
    hide ShuffleByte;
    control := [];
    for v := 0 to 4
      invariant |control| == 4 * v
      invariant forall i :: 0 <= i < 4 * v ==> control[i] == ShuffleByte(e, first + i / 4, i % 4)
    {
      var submask := ValueShuffleBytes(e, first + v);
      control := control + submask;
    }
  }

  /** `init_align_shift_field`. */
  method InitAlignShift(e: nat) returns (shift: seq<nat>)
    ensures |shift| == LANES && forall v :: 0 <= v < LANES ==> shift[v] == v * e % 8
  {
    shift := [];
    for v := 0 to LANES
      invariant |shift| == v && forall w :: 0 <= w < v ==> shift[w] == w * e % 8
    {
      shift := shift + [v * e % 8];
    }
  }

  datatype Built = Refused | Built(constants: Constants)

  /** The constructor; entry sizes above 18 are refused. */
  method BuildConstants(e: nat) returns (r: Built)
    requires 1 <= e
    ensures r.Refused? <==> e > 18
    ensures r.Built? ==> ValidConstants(r.constants) && r.constants.entrySize == e
  {
    if e > 18 {
      return Refused;
    }
    var l := InitShuffleControl(e, 0);
    var h := InitShuffleControl(e, 4);
    var shift := InitAlignShift(e);
    return Built(Constants(e, l, h, shift, Ones(e), ByteMask(LowBytes(CropBytes(e))),
                           ByteMask(OtherBytes(CropBytes(e)))));
  }

  // ----- Loading.

  /** 32 bytes from byte address `base`. */
  function LoadBytes(cells: seq<Word>, base: nat): Register
    requires base + 32 <= 4 * |cells|
  {
    seq(2 * HALF, m requires 0 <= m < 2 * HALF => seq(8, i requires 0 <= i < 8 => Bit(cells, 8 * (base + m) + i)))
  }

  function SingleLaneShuffle(value: Register, c: Constants): Register
    requires |c.shuffleL| == HALF && |c.shuffleH| == HALF
  {
    var low: Half := value[..HALF];
    ShuffleBytes(low, c.shuffleL) + ShuffleBytes(low, c.shuffleH)
  }

  function CrossLaneShuffle(value: Register, c: Constants): Register
    requires |c.shuffleL| == HALF && |c.shuffleH| == HALF
  {
    var low: Half, high: Half := value[..HALF], value[HALF..];
    var extra := AndHalf(ShuffleBytes(high, c.shuffleH), c.inverseCropMask);
    var shuffledH := AndHalf(ShuffleBytes(low, c.shuffleH), c.cropMask);
    ShuffleBytes(low, c.shuffleL) + OrHalf(shuffledH, extra)
  }

  function Decompress(value: Register, c: Constants): Register
    requires |c.shuffleL| == HALF && |c.shuffleH| == HALF
  {
    if c.entrySize <= 16 then SingleLaneShuffle(value, c) else CrossLaneShuffle(value, c)
  }

  /** `load_with_decompression`. */
  function LoadWithDecompression(cells: seq<Word>, base: nat, c: Constants): (lanes: seq<Word>)
    requires base + 32 <= 4 * |cells| && |c.shuffleL| == HALF && |c.shuffleH| == HALF && |c.alignShift| == LANES
    ensures |lanes| == LANES
  {
    var decompressed := Decompress(LoadBytes(cells, base), c);
    seq(LANES, v requires 0 <= v < LANES => And(Shr(LaneOf(decompressed, v), c.alignShift[v]), c.valueMask))
  }

  // ----- The lanes are the slots.

  /** The shuffles bring byte `q` of lane `v`'s value to byte `q` of the lane. */
  lemma ShuffledByte(value: Register, c: Constants, v: nat, q: nat)
    requires ValidConstants(c) && v < LANES && q < 4 && ByteMin(c.entrySize, v) + q <= ByteMax(c.entrySize, v)
    ensures ByteMin(c.entrySize, v) + q < 2 * HALF
    ensures Decompress(value, c)[4 * v + q] == value[ByteMin(c.entrySize, v) + q]
  {
    hide ByteMin, ByteMax, Decompress, ShuffleBytes;
    ByteBounds(c.entrySize, v);
    if v < 4 {
      var low: Half := value[..HALF];
      LowControl(c, v, q);
      LowHalf(value, c, 4 * v + q);
      Selected(low, c.shuffleL, 4 * v + q, ByteMin(c.entrySize, v) + q);
    } else {
      HighByte(value, c, v, q);
    }
  }

  lemma LowControl(c: Constants, v: nat, q: nat)
    requires ValidConstants(c) && v < 4 && q < 4 && ByteMin(c.entrySize, v) + q <= ByteMax(c.entrySize, v)
    ensures c.shuffleL[4 * v + q] == (ByteMin(c.entrySize, v) + q) % 16
  {
    hide ByteMin, ByteMax;
    var at := 4 * v + q;
    assert at / 4 == v && at % 4 == q;
    assert c.shuffleL[at] == ShuffleByte(c.entrySize, 0 + at / 4, at % 4);
  }

  /** Byte `i` of the low half of a shuffled register. */
  lemma LowHalf(value: Register, c: Constants, i: nat)
    requires |c.shuffleL| == HALF && |c.shuffleH| == HALF && i < HALF
    ensures var low: Half := value[..HALF]; Decompress(value, c)[i] == ShuffleBytes(low, c.shuffleL)[i]
  {
    hide ShuffleBytes, OrHalf, AndHalf;
  }

  lemma HighByte(value: Register, c: Constants, v: nat, q: nat)
    requires ValidConstants(c) && 4 <= v < LANES && q < 4 && ByteMin(c.entrySize, v) + q <= ByteMax(c.entrySize, v)
    ensures ByteMin(c.entrySize, v) + q < 2 * HALF
    ensures Decompress(value, c)[4 * v + q] == value[ByteMin(c.entrySize, v) + q]
  {
    hide ByteMin, ByteMax, ShuffleBytes, OrHalf, AndHalf, ByteMask, Decompress;
    var e, at, byte := c.entrySize, 4 * (v - 4) + q, ByteMin(c.entrySize, v) + q;
    var low: Half, high: Half := value[..HALF], value[HALF..];
    ByteBounds(e, v);
    HighControl(c, v, q);
    TopHalf(value, c, at);
    Selected(low, c.shuffleH, at, byte);
    Selected(high, c.shuffleH, at, byte);
    if e > 16 {
      MaskBytes(CropBytes(e), at);
      Merge(ShuffleBytes(low, c.shuffleH), c.cropMask, ShuffleBytes(high, c.shuffleH), c.inverseCropMask, at,
            at < CropBytes(e));
    }
  }

  /** Byte `i` of the top half of a shuffled register. */
  lemma TopHalf(value: Register, c: Constants, i: nat)
    requires |c.shuffleL| == HALF && |c.shuffleH| == HALF && i < HALF
    ensures var low: Half, high: Half := value[..HALF], value[HALF..];
      Decompress(value, c)[HALF + i]
      == if c.entrySize <= 16 then ShuffleBytes(low, c.shuffleH)[i]
         else OrHalf(AndHalf(ShuffleBytes(low, c.shuffleH), c.cropMask),
                     AndHalf(ShuffleBytes(high, c.shuffleH), c.inverseCropMask))[i]
  {
    hide ShuffleBytes, OrHalf, AndHalf;
  }

  lemma HighControl(c: Constants, v: nat, q: nat)
    requires ValidConstants(c) && 4 <= v < LANES && q < 4 && ByteMin(c.entrySize, v) + q <= ByteMax(c.entrySize, v)
    ensures c.shuffleH[4 * (v - 4) + q] == (ByteMin(c.entrySize, v) + q) % 16
  {
    hide ByteMin, ByteMax;
    var at := 4 * (v - 4) + q;
    assert at / 4 == v - 4 && at % 4 == q;
    assert c.shuffleH[at] == ShuffleByte(c.entrySize, 4 + at / 4, at % 4);
  }

  lemma Selected(a: Half, control: seq<nat>, i: nat, byte: nat)
    requires |control| == HALF && i < HALF && control[i] == byte % 16
    ensures ShuffleBytes(a, control)[i] == a[byte % 16]
  {
  }

  lemma MaskBytes(n: nat, i: nat)
    requires i < HALF
    ensures ByteMask(LowBytes(n))[i] == ByteOf(i < n) && ByteMask(OtherBytes(n))[i] == ByteOf(!(i < n))
  {
  }

  lemma Merge(a: Half, maskA: Half, b: Half, maskB: Half, i: nat, first: bool)
    requires i < HALF && maskA[i] == ByteOf(first) && maskB[i] == ByteOf(!first)
    ensures OrHalf(AndHalf(a, maskA), AndHalf(b, maskB))[i] == if first then a[i] else b[i]
  {
    forall j | 0 <= j < 8
      ensures OrHalf(AndHalf(a, maskA), AndHalf(b, maskB))[i][j] == (if first then a[i] else b[i])[j]
    {
      assert ByteOf(first)[j] == first && ByteOf(!first)[j] == !first;
      assert AndHalf(a, maskA)[i][j] == (a[i][j] && first) && AndHalf(b, maskB)[i][j] == (b[i][j] && !first);
    }
  }

  /** Bit `j` of lane `v`, in bits of the packed column. */
  lemma LaneBit(cells: seq<Word>, base: nat, c: Constants, v: nat, j: nat, p: nat)
    requires ValidConstants(c) && v < LANES && j < c.entrySize && base + 32 <= 4 * |cells| && p == v * c.entrySize
    ensures (8 * base + p + j) / WORD_BITS < |cells|
    ensures LoadWithDecompression(cells, base, c)[v][j] == Bit(cells, 8 * base + p + j)
  {
    hide Decompress, ByteMin, ByteMax;
    var e, s, m := c.entrySize, p % 8, ByteMin(c.entrySize, v);
    var q := (j + s) / 8;
    var data := LoadBytes(cells, base);
    ByteBounds(e, v);
    BytePosition(e, v, j);
    ShuffledByte(data, c, v, q);
    assert c.alignShift[v] == s;
    assert LaneOf(Decompress(data, c), v)[j + s] == data[m + q][(j + s) % 8];
    assert 8 * base + p + j == 8 * (base + (m + q)) + (j + s) % 8;
  }

  lemma BytePosition(e: nat, v: nat, j: nat)
    requires 1 <= e <= 18 && v < LANES && j < e
    ensures var q := (j + v * e % 8) / 8; q < 4 && ByteMin(e, v) + q <= ByteMax(e, v)
    ensures 8 * ByteMin(e, v) + v * e % 8 == v * e && j + v * e % 8 < WORD_BITS
  {
    assert e * (v + 1) - 1 == v * e + e - 1;
    Floor(v * e, j, e - 1);
  }

  lemma Floor(p: nat, j: nat, last: nat)
    requires j <= last < 18
    ensures p / 8 + (j + p % 8) / 8 <= (p + last) / 8 && (j + p % 8) / 8 < 4
  {
  }

  lemma BitsAboveAreClear(cells: seq<Word>, base: nat, c: Constants, v: nat, j: nat)
    requires ValidConstants(c) && v < LANES && c.entrySize <= j < WORD_BITS && base + 32 <= 4 * |cells|
    ensures !LoadWithDecompression(cells, base, c)[v][j]
  {
    hide Decompress;
  }

  lemma LaneIsBits(cells: seq<Word>, base: nat, c: Constants, v: nat, p: nat)
    requires ValidConstants(c) && v < LANES && base + 32 <= 4 * |cells| && p == v * c.entrySize
    requires (8 * base + p) / WORD_BITS + 1 < |cells|
    ensures IsBits(cells, c.entrySize, 8 * base + p, LoadWithDecompression(cells, base, c)[v])
  {
    hide LoadWithDecompression, Bit;
    var lane := LoadWithDecompression(cells, base, c)[v];
    forall j | 0 <= j < WORD_BITS
      ensures lane[j] == (j < c.entrySize && Bit(cells, 8 * base + p + j))
    {
      if j < c.entrySize {
        LaneBit(cells, base, c, v, j, p);
      } else {
        BitsAboveAreClear(cells, base, c, v, j);
      }
    }
  }

  /** For every entry size and block, the eight lanes are the eight slots of the block. */
  lemma LanesAreSlots(cells: seq<Word>, block: nat, c: Constants, v: nat)
    requires ValidConstants(c) && v < LANES && block * c.entrySize + 32 <= 4 * |cells|
    requires (8 * block + v) * c.entrySize / WORD_BITS + 1 < |cells|
    ensures LoadWithDecompression(cells, block * c.entrySize, c)[v] == GetValue(cells, c.entrySize, 8 * block + v)
  {
    hide LoadWithDecompression, GetValue, IsBits;
    var e, base, p := c.entrySize, block * c.entrySize, v * c.entrySize;
    assert (8 * block + v) * e == 8 * base + p;
    LaneIsBits(cells, base, c, v, p);
    BitsUnique(cells, e, 8 * base + p, LoadWithDecompression(cells, base, c)[v], GetValue(cells, e, 8 * block + v));
  }
}
