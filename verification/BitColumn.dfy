/** Bit-packed columns and bit vectors (include/pnmlib/imdb: bit_common, bit_views, bit_containers). */
module BitColumn {
  import opened SeqMath

  // ----- 32-bit words as bit sequences, bit 0 first.

  const WORD_BITS: nat := 32

  type Word = w: seq<bool> | |w| == WORD_BITS witness seq(WORD_BITS, i => false)

  function Zero(): Word {
    seq(WORD_BITS, i => false)
  }

  function Ones(n: nat): Word {
    seq(WORD_BITS, i => i < n)
  }

  function Shl(w: Word, k: nat): Word {
    seq(WORD_BITS, i requires 0 <= i < WORD_BITS => if k <= i then w[i - k] else false)
  }

  function Shr(w: Word, k: nat): Word {
    seq(WORD_BITS, i requires 0 <= i < WORD_BITS => if i + k < WORD_BITS then w[i + k] else false)
  }

  function And(a: Word, b: Word): Word {
    seq(WORD_BITS, i requires 0 <= i < WORD_BITS => a[i] && b[i])
  }

  function Or(a: Word, b: Word): Word {
    seq(WORD_BITS, i requires 0 <= i < WORD_BITS => a[i] || b[i])
  }

  /** Bit `k` of a sequence of cells. */
  predicate Bit(cells: seq<Word>, k: nat)
    requires k / WORD_BITS < |cells|
  {
    cells[k / WORD_BITS][k % WORD_BITS]
  }

  // ----- Storage sizes.

  function AlignSize(size: nat, align: nat): nat
    requires 0 < align
  {
    DivBounds(size + align - 1, align);
    (size + align - 1) / align * align
  }

  /** Number of 32-bit cells for `bits` bits, aligned to 512 bits. */
  function AlignedStorageSize(bits: nat): nat {
    var bytes := if bits % 8 == 0 then bits / 8 else bits / 8 + 1;
    AlignSize(AlignSize(bytes, 4), 64) / 4
  }

  /** The storage is the least multiple of 512 bits that holds the bits. */
  lemma StorageIsTight(bits: nat)
    ensures AlignedStorageSize(bits) % 16 == 0 && bits <= 32 * AlignedStorageSize(bits) < bits + 512
  {
    hide AlignSize;
    var bytes := if bits % 8 == 0 then bits / 8 else bits / 8 + 1;
    var b4 := AlignSize(bytes, 4);
    var b64 := AlignSize(b4, 64);
    AlignIs(bytes, 4);
    AlignIs(b4, 64);
    var q := b64 / 64;
    if q > 0 {
      AlignIsLeast(b4, 64, q - 1);
      AlignIsLeast(bytes, 4, 16 * (q - 1));
    }
  }

  lemma AlignIs(size: nat, align: nat)
    requires 0 < align
    ensures size <= AlignSize(size, align) && AlignSize(size, align) == AlignSize(size, align) / align * align
  {
    var n := size + align - 1;
    var q, r := n / align, n % align;
    assert n == q * align + r;
    DivUnique(q * align, align, q, 0);
  }

  lemma AlignIsLeast(size: nat, align: nat, k: nat)
    requires 0 < align
    ensures size <= k * align ==> AlignSize(size, align) <= k * align
  {
    var n := size + align - 1;
    var q := n / align;
    assert n == q * align + n % align;
    MulMonotone(k + 1, q, align);
    MulMonotone(q, k, align);
    assert (k + 1) * align == k * align + align;
  }

  lemma StorageHolds(bits: nat)
    ensures bits <= WORD_BITS * AlignedStorageSize(bits)
  {
    hide AlignSize;
    var bytes := if bits % 8 == 0 then bits / 8 else bits / 8 + 1;
    var b4 := AlignSize(bytes, 4);
    AlignFour(bytes);
    AlignSixtyFour(b4);
  }

  lemma AlignFour(size: nat)
    ensures size <= AlignSize(size, 4)
  {
  }

  lemma AlignSixtyFour(size: nat)
    ensures size <= AlignSize(size, 64) && AlignSize(size, 64) % 4 == 0
  {
    var q, a := (size + 64 - 1) / 64, AlignSize(size, 64);
    hide AlignSize;
    DivUnique(a, 4, 16 * q, 0);
  }

  const EXTRA_BITS: nat := 512

  function CompressedStorageSize(valueBits: nat, n: nat): nat {
    AlignedStorageSize(valueBits * n + EXTRA_BITS)
  }

  /**
   * Every cell an access to slot `i` touches, and every 32-byte load of the scan at the block that
   * starts with slot `i`, lies in the storage.
   */
  /** A column has 512 bits more than its values take, rounded up. */
  lemma ColumnStorageIsTight(valueBits: nat, n: nat)
    ensures var size := CompressedStorageSize(valueBits, n);
      size % 16 == 0 && valueBits * n + 512 <= 32 * size < valueBits * n + 1024
  {
    hide AlignedStorageSize;
    StorageIsTight(valueBits * n + EXTRA_BITS);
  }

  lemma AccessInStorage(valueBits: nat, n: nat, i: nat)
    requires i < n
    ensures i * valueBits + valueBits <= n * valueBits
    ensures i * valueBits / WORD_BITS + 1 < CompressedStorageSize(valueBits, n)
    ensures i * valueBits / 8 + 32 <= 4 * CompressedStorageSize(valueBits, n)
  {
    MulCompare(i, n, valueBits);
    StorageHolds(valueBits * n + EXTRA_BITS);
    InStorage(i * valueBits, n * valueBits, CompressedStorageSize(valueBits, n));
  }

  lemma InStorage(position: nat, bits: nat, cells: nat)
    requires position <= bits && bits + EXTRA_BITS <= WORD_BITS * cells
    ensures position / WORD_BITS + 1 < cells && position / 8 + 32 <= 4 * cells
  {
  }

  // ----- Reading and writing one slot.

  /** The `valueBits` bits from `position` on, whatever cells they lie in. */
  ghost predicate IsBits(cells: seq<Word>, valueBits: nat, position: nat, w: Word) {
    && (position + valueBits) / WORD_BITS < |cells|
    && forall j :: 0 <= j < WORD_BITS ==> w[j] == (j < valueBits && Bit(cells, position + j))
  }

  /** Slot `i` starts at bit `i * valueBits`. */
  ghost predicate IsSlot(cells: seq<Word>, valueBits: nat, i: nat, w: Word) {
    IsBits(cells, valueBits, i * valueBits, w)
  }

  function ReadBits(cells: seq<Word>, valueBits: nat, position: nat): (w: Word)
    requires 1 <= valueBits < WORD_BITS && position / WORD_BITS + 1 < |cells|
    ensures IsBits(cells, valueBits, position, w)
  {
    var index, shift := position / WORD_BITS, position % WORD_BITS;
    if valueBits + shift < WORD_BITS then
      ReadOneCell(cells, valueBits, position);
      And(Shr(cells[index], shift), Ones(valueBits))
    else
      ReadTwoCells(cells, valueBits, position);
      var part1 := WORD_BITS - shift;
      Or(Shl(And(cells[index + 1], Shr(Ones(valueBits), part1)), part1), Shr(cells[index], shift))
  }

  lemma BitOfCell(cells: seq<Word>, index: nat, shift: nat, j: nat)
    requires shift < WORD_BITS && index + 1 < |cells| && j < WORD_BITS
    ensures (index * WORD_BITS + shift + j) / WORD_BITS < |cells|
    ensures Bit(cells, index * WORD_BITS + shift + j)
         == if shift + j < WORD_BITS then cells[index][shift + j] else cells[index + 1][shift + j - WORD_BITS]
  {
  }

  lemma ReadOneCell(cells: seq<Word>, valueBits: nat, position: nat)
    requires position / WORD_BITS + 1 < |cells| && valueBits + position % WORD_BITS < WORD_BITS
    ensures IsBits(cells, valueBits, position,
                   And(Shr(cells[position / WORD_BITS], position % WORD_BITS), Ones(valueBits)))
  {
    hide Bit;
    var index, shift := position / WORD_BITS, position % WORD_BITS;
    var w := And(Shr(cells[index], shift), Ones(valueBits));
    assert position == index * WORD_BITS + shift && (position + valueBits) / WORD_BITS <= index + 1;
    forall j | 0 <= j < WORD_BITS
      ensures w[j] == (j < valueBits && Bit(cells, position + j))
    {
      BitOfCell(cells, index, shift, j);
    }
  }

  lemma ReadTwoCells(cells: seq<Word>, valueBits: nat, position: nat)
    requires 1 <= valueBits < WORD_BITS && position / WORD_BITS + 1 < |cells|
    requires WORD_BITS <= valueBits + position % WORD_BITS
    ensures var index, shift := position / WORD_BITS, position % WORD_BITS;
      var part1 := WORD_BITS - shift;
      IsBits(cells, valueBits, position,
             Or(Shl(And(cells[index + 1], Shr(Ones(valueBits), part1)), part1), Shr(cells[index], shift)))
  {
    hide Bit;
    var index, shift := position / WORD_BITS, position % WORD_BITS;
    var part1 := WORD_BITS - shift;
    var w := Or(Shl(And(cells[index + 1], Shr(Ones(valueBits), part1)), part1), Shr(cells[index], shift));
    assert position == index * WORD_BITS + shift && (position + valueBits) / WORD_BITS <= index + 1;
    forall j | 0 <= j < WORD_BITS
      ensures w[j] == (j < valueBits && Bit(cells, position + j))
    {
      BitOfCell(cells, index, shift, j);
    }
  }

  /** `get_value`. */
  function GetValue(cells: seq<Word>, valueBits: nat, i: nat): (w: Word)
    requires 1 <= valueBits < WORD_BITS && i * valueBits / WORD_BITS + 1 < |cells|
    ensures IsSlot(cells, valueBits, i, w)
  {
    ReadBits(cells, valueBits, i * valueBits)
  }

  lemma BitsUnique(cells: seq<Word>, valueBits: nat, position: nat, a: Word, b: Word)
    requires IsBits(cells, valueBits, position, a) && IsBits(cells, valueBits, position, b)
    ensures a == b
  {
  }

  /** `cells` is `before` with the low bits of `value` or-ed in at bit `position`. */
  ghost predicate BitsSet(cells: seq<Word>, before: seq<Word>, valueBits: nat, position: nat, value: Word)
    requires valueBits < WORD_BITS
  {
    && |cells| == |before|
    && forall k: nat :: k / WORD_BITS < |cells| ==>
      Bit(cells, k) == (Bit(before, k) || (position <= k < position + valueBits && value[k - position]))
  }

  ghost predicate SlotSet(cells: seq<Word>, before: seq<Word>, valueBits: nat, i: nat, value: Word)
    requires valueBits < WORD_BITS
  {
    BitsSet(cells, before, valueBits, i * valueBits, value)
  }

  lemma OneCellSet(before: seq<Word>, valueBits: nat, index: nat, shift: nat, value: Word)
    requires valueBits + shift < WORD_BITS && index < |before|
    ensures BitsSet(before[index := Or(before[index], Shl(And(value, Ones(valueBits)), shift))], before, valueBits,
                    index * WORD_BITS + shift, value)
  {
  }

  lemma TwoCellsSet(before: seq<Word>, valueBits: nat, index: nat, shift: nat, value: Word)
    requires shift < WORD_BITS <= valueBits + shift && valueBits < WORD_BITS && index + 1 < |before|
    ensures
      var v, part1 := And(value, Ones(valueBits)), WORD_BITS - shift;
      var low := before[index := Or(before[index], Shl(And(v, Shr(Ones(valueBits), valueBits - part1)), shift))];
      BitsSet(low[index + 1 := Or(before[index + 1], Shr(v, part1))], before, valueBits, index * WORD_BITS + shift,
              value)
  {
  }

  /** `set_value`. */
  method SetValue(data: array<Word>, valueBits: nat, i: nat, value: Word)
    requires 1 <= valueBits < WORD_BITS && i * valueBits / WORD_BITS + 1 < data.Length
    modifies data
    ensures SlotSet(data[..], old(data[..]), valueBits, i, value)
  {
    hide BitsSet, And, Or, Shl, Shr, Ones;
    var index, shift := i * valueBits / WORD_BITS, i * valueBits % WORD_BITS;
    var v := And(value, Ones(valueBits));
    ghost var before := data[..];
    if valueBits + shift < WORD_BITS {
      data[index] := Or(data[index], Shl(v, shift));
      OneCellSet(before, valueBits, index, shift, value);
      assert data[..] == before[index := Or(before[index], Shl(v, shift))];
    } else {
      var part1 := WORD_BITS - shift;
      data[index] := Or(data[index], Shl(And(v, Shr(Ones(valueBits), valueBits - part1)), shift));
      ghost var low := data[..];
      data[index + 1] := Or(data[index + 1], Shr(v, part1));
      TwoCellsSet(before, valueBits, index, shift, value);
      assert data[..] == low[index + 1 := Or(before[index + 1], Shr(v, part1))];
    }
  }

  // ----- Round trip.

  ghost predicate SlotClear(cells: seq<Word>, valueBits: nat, i: nat) {
    IsSlot(cells, valueBits, i, Zero())
  }

  lemma ZeroCellsAreClear(cells: seq<Word>, valueBits: nat, i: nat)
    requires forall c :: 0 <= c < |cells| ==> cells[c] == Zero()
    requires valueBits < WORD_BITS && i * valueBits / WORD_BITS + 1 < |cells|
    ensures SlotClear(cells, valueBits, i)
  {
    var position := i * valueBits;
    forall j | 0 <= j < WORD_BITS
      ensures !Zero()[j]
    {
    }
    assert (position + valueBits) / WORD_BITS < |cells|;
  }

  function Low(value: Word, valueBits: nat): Word {
    And(value, Ones(valueBits))
  }

  /** A slot reads back what it held, or-ed with the low bits of the value. */
  lemma SetThenGet(cells: seq<Word>, before: seq<Word>, valueBits: nat, i: nat, value: Word, w: Word)
    requires valueBits < WORD_BITS && SlotSet(cells, before, valueBits, i, value) && IsSlot(before, valueBits, i, w)
    ensures IsSlot(cells, valueBits, i, Or(w, Low(value, valueBits)))
    ensures w == Zero() ==> Or(w, Low(value, valueBits)) == Low(value, valueBits)
  {
    var position := i * valueBits;
    forall j | 0 <= j < valueBits
      ensures Bit(cells, position + j) == (w[j] || value[j])
    {
      assert w[j] == Bit(before, position + j);
    }
    if w == Zero() {
      assert forall j :: 0 <= j < WORD_BITS ==> !w[j];
      assert Or(w, Low(value, valueBits)) == Low(value, valueBits);
    }
  }

  /** Writing one slot leaves every other slot as it was. */
  lemma SetKeepsOthers(cells: seq<Word>, before: seq<Word>, valueBits: nat, i: nat, value: Word,
                       k: nat, w: Word)
    requires valueBits < WORD_BITS && SlotSet(cells, before, valueBits, i, value) && IsSlot(before, valueBits, k, w)
    requires k != i
    ensures IsSlot(cells, valueBits, k, w)
  {
    hide BitsSet, IsBits;
    MulCompare(i, k, valueBits);
    BitsKept(cells, before, valueBits, i * valueBits, value, k * valueBits, w);
  }

  lemma BitsKept(cells: seq<Word>, before: seq<Word>, valueBits: nat, position: nat, value: Word,
                 other: nat, w: Word)
    requires valueBits < WORD_BITS && BitsSet(cells, before, valueBits, position, value)
    requires IsBits(before, valueBits, other, w)
    requires other + valueBits <= position || position + valueBits <= other
    ensures IsBits(cells, valueBits, other, w)
  {
    hide Bit;
  }

  /** A column of `count` slots over its own storage. */
  class CompressedVector {
    const valueBits: nat
    const count: nat
    const data: array<Word>

    ghost predicate Valid() {
      1 <= valueBits < WORD_BITS && data.Length == CompressedStorageSize(valueBits, count)
    }

    constructor (valueBits: nat, count: nat)
      requires 1 <= valueBits < WORD_BITS
      ensures Valid() && this.valueBits == valueBits && this.count == count && fresh(data)
      ensures forall i: nat :: i < count ==> SlotClear(data[..], valueBits, i)
    {
      this.valueBits, this.count := valueBits, count;
      data := new Word[CompressedStorageSize(valueBits, count)](i => Zero());
      new;
      forall i: nat | i < count
        ensures SlotClear(data[..], valueBits, i)
      {
        AccessInStorage(valueBits, count, i);
        ZeroCellsAreClear(data[..], valueBits, i);
      }
    }

    function Get(i: nat): (w: Word)
      reads data
      requires Valid() && i < count
      ensures IsSlot(data[..], valueBits, i, w)
    {
      AccessInStorage(valueBits, count, i);
      GetValue(data[..], valueBits, i)
    }

    method Set(i: nat, value: Word)
      requires Valid() && i < count
      modifies data
      ensures Get(i) == Or(old(Get(i)), Low(value, valueBits))
      ensures old(Get(i)) == Zero() ==> Get(i) == Low(value, valueBits)
      ensures forall k: nat :: k < count && k != i ==> Get(k) == old(Get(k))
    {
      hide BitsSet, IsBits, Low, GetValue, CompressedStorageSize;
      AccessInStorage(valueBits, count, i);
      ghost var w := Get(i);
      SetValue(data, valueBits, i, value);
      SetThenGet(data[..], old(data[..]), valueBits, i, value, w);
      BitsUnique(data[..], valueBits, i * valueBits, Get(i), Or(w, Low(value, valueBits)));
      forall k: nat | k < count && k != i
        ensures Get(k) == old(Get(k))
      {
        SetKeepsOthers(data[..], old(data[..]), valueBits, i, value, k, old(Get(k)));
        BitsUnique(data[..], valueBits, k * valueBits, Get(k), old(Get(k)));
      }
    }

    /** Filling each slot once, in any order. */
    method Fill(order: seq<nat>, values: seq<Word>)
      requires Valid() && |values| == count
      requires forall p, q :: 0 <= p < q < |order| ==> order[p] != order[q]
      requires forall p :: 0 <= p < |order| ==> order[p] < count
      requires forall i: nat :: i < count ==> Get(i) == Zero()
      modifies data
      ensures forall i: nat :: i < count ==> Get(i) == if i in order then Low(values[i], valueBits) else Zero()
    {
      for p := 0 to |order|
        invariant forall i: nat :: i < count ==> Get(i) == if i in order[..p] then Low(values[i], valueBits) else Zero()
      {
        assert order[p] !in order[..p];
        assert order[..p + 1] == order[..p] + [order[p]];
        Set(order[p], values[order[p]]);
      }
      assert order[..|order|] == order;
    }
  }

  // ----- Bit vectors.

  function OneBit(k: nat): Word
    requires k < WORD_BITS
  {
    Shl(Ones(1), k)
  }

  lemma TestBit(w: Word, k: nat)
    requires k < WORD_BITS
    ensures And(w, OneBit(k)) != Zero() <==> w[k]
    ensures And(w, OneBit(k)) == OneBit(k) <==> w[k]
  {
    assert OneBit(k)[k] && !Zero()[k] && And(w, OneBit(k))[k] == w[k];
    forall i | 0 <= i < WORD_BITS && i != k
      ensures !OneBit(k)[i] && !And(w, OneBit(k))[i] && !Zero()[i]
    {
    }
    if w[k] {
      assert And(w, OneBit(k)) == OneBit(k);
    } else {
      assert And(w, OneBit(k)) == Zero();
    }
  }

  /** No bit from `size` on is set. */
  ghost predicate TailClear(cells: seq<Word>, size: nat) {
    forall k: nat :: size <= k && k / WORD_BITS < |cells| ==> !Bit(cells, k)
  }

  /** A set of numbers below `size`, one bit each. */
  class BitVector {
    const size: nat
    const data: array<Word>

    ghost predicate Valid()
      reads data
    {
      data.Length == AlignedStorageSize(size) && TailClear(data[..], size)
    }

    constructor (size: nat)
      ensures Valid() && this.size == size && fresh(data)
      ensures forall k: nat :: !Contains(k)
    {
      this.size := size;
      data := new Word[AlignedStorageSize(size)](i => Zero());
      new;
      StorageHolds(size);
      forall k: nat | k < size
        ensures !Contains(k)
      {
        TestBit(Zero(), k % WORD_BITS);
      }
    }

    predicate Contains(value: nat): (r: bool)
      reads data
      requires data.Length == AlignedStorageSize(size)
      ensures r <==> value < size && value / WORD_BITS < data.Length && Bit(data[..], value)
    {
      StorageHolds(size);
      if value >= size then false
      else
        TestBit(data[value / WORD_BITS], value % WORD_BITS);
        And(data[value / WORD_BITS], OneBit(value % WORD_BITS)) != Zero()
    }

    method Insert(value: nat)
      requires Valid() && value < size
      modifies data
      ensures Valid() && forall k: nat :: Contains(k) <==> k == value || old(Contains(k))
    {
      StorageHolds(size);
      var index, shift := value / WORD_BITS, value % WORD_BITS;
      ghost var before := data[..];
      data[index] := Or(data[index], OneBit(shift));
      assert data[..] == before[index := Or(before[index], OneBit(shift))];
      forall k: nat | k / WORD_BITS < data.Length
        ensures Bit(data[..], k) <==> k == value || Bit(before, k)
      {
        if k / WORD_BITS == index {
          assert OneBit(shift)[k % WORD_BITS] == (k % WORD_BITS == shift);
        }
      }
    }
  }
}
