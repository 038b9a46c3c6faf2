/** Instruction words and the two address maps (core/device/sls/utils/inst_generator). */
module InstGenerators {
  import opened SeqMath

  /** Fields of an instruction word, lowest last. */
  datatype Inst = Inst(opcode: nat, localBit: nat, output: nat, traceEnd: nat,
                       row: nat, bankgroup: nat, bank: nat, column: nat)

  const P61: nat := 0x2000_0000_0000_0000
  const P62: nat := 0x4000_0000_0000_0000
  const P64: nat := 0x1_0000_0000_0000_0000
  const P49: nat := 0x2_0000_0000_0000
  const P48: nat := 0x1_0000_0000_0000
  const P34: nat := 0x4_0000_0000

  function MakeEmptyInstruction(opcode: nat, output: nat): Inst {
    Inst(opcode, 0, output, 0, 0, 0, 0, 0)
  }

  predicate InFieldWidths(i: Inst) {
    && i.opcode < 4 && i.localBit < 2 && i.output < 4096 && i.traceEnd < 2
    && AddressInWidths(i)
  }

  predicate AddressInWidths(i: Inst) {
    i.row < 0x2_0000 && i.bankgroup < 4 && i.bank < 4 && i.column < 1024
  }

  function EncodeInstruction(i: Inst): nat {
    (i.opcode * P62 + i.localBit * P61 + i.output * P49 + i.traceEnd * P48
     + i.row * 0x4000 + i.bankgroup * 0x1000 + i.bank * 0x400 + i.column) % P64
  }

  function DecodeInstruction(w: nat): Inst {
    Inst(w / P62 % 4, w / P61 % 2, w / P49 % 4096, w / P48 % 2,
         w / 0x4000 % 0x2_0000, w / 0x1000 % 4, w / 0x400 % 4, w % 1024)
  }

  /** A field of width b at weight a reads back as itself. */
  lemma FieldReadsBack(w: nat, a: nat, b: nat, low: nat, field: nat, high: nat)
    requires 0 < a && 0 < b && low < a && field < b
    requires w == low + a * (field + b * high)
    ensures w / a % b == field
  {
    assert w / a == field + b * high by { DivUnique(w, a, field + b * high, low); }
    assert (field + b * high) % b == field by { DivUnique(field + b * high, b, high, field); }
  }

  /** The word round trip holds exactly for instructions whose fields fit their widths. */
  lemma InstructionRoundTrip(i: Inst)
    ensures DecodeInstruction(EncodeInstruction(i)) == i <==> InFieldWidths(i)
  {
    if InFieldWidths(i) {
      hide EncodeInstruction;
      var w := EncodeInstruction(i);
      var h48, low48 := UpperFields(i), LowerFields(i);
      assert w == low48 + P48 * h48 by { WordSplits(i); }
      LowerFieldsReadBack(i, w, h48);
      UpperFieldsReadBack(i, w, low48);
    }
  }

  ghost function UpperFields(i: Inst): nat {
    i.traceEnd + 2 * (i.output + 4096 * (i.localBit + 2 * i.opcode))
  }

  ghost function LowerFields(i: Inst): nat {
    i.column + 0x400 * i.bank + 0x1000 * i.bankgroup + 0x4000 * i.row
  }

  lemma WordSplits(i: Inst)
    requires InFieldWidths(i)
    ensures EncodeInstruction(i) == LowerFields(i) + P48 * UpperFields(i) && LowerFields(i) < P48
  {
  }

  lemma LowerFieldsReadBack(i: Inst, w: nat, high: nat)
    requires AddressInWidths(i) && w == LowerFields(i) + P48 * high
    ensures w % 1024 == i.column && w / 0x400 % 4 == i.bank && w / 0x1000 % 4 == i.bankgroup
    ensures w / 0x4000 % 0x2_0000 == i.row
  {
    FieldReadsBack(w, 1, 1024, 0, i.column, i.bank + 4 * (i.bankgroup + 4 * (i.row + 0x4_0000_0000 * high)));
    FieldReadsBack(w, 0x400, 4, i.column, i.bank, i.bankgroup + 4 * (i.row + 0x4_0000_0000 * high));
    FieldReadsBack(w, 0x1000, 4, i.column + 0x400 * i.bank, i.bankgroup, i.row + 0x4_0000_0000 * high);
    FieldReadsBack(w, 0x4000, 0x2_0000, i.column + 0x400 * i.bank + 0x1000 * i.bankgroup, i.row, 0x2_0000 * high);
  }

  lemma UpperFieldsReadBack(i: Inst, w: nat, low: nat)
    requires i.opcode < 4 && i.localBit < 2 && i.output < 4096 && i.traceEnd < 2
    requires w == low + P48 * UpperFields(i) && low < P48
    ensures w / P62 % 4 == i.opcode && w / P61 % 2 == i.localBit && w / P49 % 4096 == i.output
    ensures w / P48 % 2 == i.traceEnd
  {
    FieldReadsBack(w, P48, 2, low, i.traceEnd, i.output + 4096 * (i.localBit + 2 * i.opcode));
    FieldReadsBack(w, P49, 4096, low + P48 * i.traceEnd, i.output, i.localBit + 2 * i.opcode);
    FieldReadsBack(w, P61, 2, low + P48 * i.traceEnd + P49 * i.output, i.localBit, i.opcode);
    FieldReadsBack(w, P62, 4, low + P48 * i.traceEnd + P49 * i.output + P61 * i.localBit, i.opcode, 0);
  }

  /** Where each field stands in the word. */
  lemma FieldPositions()
    ensures EncodeInstruction(Inst(1, 0, 0, 0, 0, 0, 0, 0)) == 0x4000_0000_0000_0000
    ensures EncodeInstruction(Inst(0, 1, 0, 0, 0, 0, 0, 0)) == 0x2000_0000_0000_0000
    ensures EncodeInstruction(Inst(0, 0, 1, 0, 0, 0, 0, 0)) == 0x2_0000_0000_0000
    ensures EncodeInstruction(Inst(0, 0, 0, 1, 0, 0, 0, 0)) == 0x1_0000_0000_0000
    ensures EncodeInstruction(Inst(0, 0, 0, 0, 1, 0, 0, 0)) == 0x4000
    ensures EncodeInstruction(Inst(0, 0, 0, 0, 0, 1, 0, 0)) == 0x1000
    ensures EncodeInstruction(Inst(0, 0, 0, 0, 0, 0, 1, 0)) == 0x400
    ensures EncodeInstruction(Inst(0, 0, 0, 0, 0, 0, 0, 1)) == 1
    // An opcode beyond its two bits is lost.
    ensures EncodeInstruction(Inst(5, 0, 0, 0, 0, 0, 0, 1)) == 0x4000_0000_0000_0001
  {
  }

  /** `|= 1 << 48` on a word. */
  function SetTraceEnd(w: nat): nat {
    if w / P48 % 2 == 1 then w else w + P48
  }

  lemma SetTraceEndOnInstruction(i: Inst)
    requires InFieldWidths(i)
    ensures SetTraceEnd(EncodeInstruction(i)) == EncodeInstruction(i.(traceEnd := 1))
  {
    hide DecodeInstruction;
    InstructionRoundTrip(i);
    EndBitOf(EncodeInstruction(i));
  }

  lemma EndBitOf(w: nat)
    ensures DecodeInstruction(w).traceEnd == w / P48 % 2
  {
  }

  // ----- Addresses.

  function Bit(a: nat, weight: nat): nat
    requires 0 < weight
  {
    a / weight % 2
  }

  function Xor(x: nat, y: nat): nat {
    (x + y) % 2
  }

  /** Column and row bits of a rank address. */
  function RowColumnAddress(i: Inst): nat {
    i.column % 32 * 0x8 + i.column / 32 % 32 * 0x4000
    + i.row % 16 * 0x100 + i.row / 16 % 2 * 0x1000_0000 + i.row / 32 % 128 * 0x20_0000
    + i.row / 4096 % 32 * 0x2000_0000
  }

  /** Bank group and bank bits are stored XORed with row bits. */
  function RankedEncodeAddress(i: Inst): nat {
    var a0 := RowColumnAddress(i);
    var a1 := a0 + Xor(Bit(i.bankgroup, 1), Bit(a0, 0x20_0000)) * 0x1000;
    var a2 := a1 + Xor(Bit(i.bankgroup, 2), Bit(a1, 0x40_0000)) * 0x2000;
    var a3 := a2 + Xor(Bit(i.bank, 1), Bit(a2, 0x80_0000)) * 0x8_0000;
    a3 + Xor(Bit(i.bank, 2), Bit(a3, 0x100_0000)) * 0x10_0000
  }

  function DecodeRow(a: nat): nat {
    a / 0x100 % 16 + a / 0x1000_0000 % 2 * 16 + a / 0x20_0000 % 128 * 32 + a / 0x2000_0000 % 32 * 4096
  }

  function DecodeColumn(a: nat): nat {
    a / 0x8 % 32 + a / 0x4000 % 32 * 32
  }

  function RankedDecodeAddress(a: nat, i: Inst): Inst {
    i.(bankgroup := Xor(Bit(a, 0x20_0000), Bit(a, 0x1000)) + Xor(Bit(a, 0x40_0000), Bit(a, 0x2000)) * 2,
       bank := Xor(Bit(a, 0x80_0000), Bit(a, 0x8_0000)) + Xor(Bit(a, 0x100_0000), Bit(a, 0x10_0000)) * 2,
       row := DecodeRow(a),
       column := DecodeColumn(a))
  }

  /** `&= ~weight` followed by `|= bit * weight`. */
  function PutBit(a: nat, weight: nat, bit: nat): nat
    requires 0 < weight
  {
    if Bit(a, weight) == 1 then a - weight + bit * weight else a + bit * weight
  }

  /** The channel address is the rank address with plain bank group and bank bits. */
  function ChannelEncodeAddress(i: Inst): nat {
    var b0 := PutBit(RankedEncodeAddress(i), 0x8_0000, Bit(i.bank, 1));
    var b1 := PutBit(b0, 0x10_0000, Bit(i.bank, 2));
    var b2 := PutBit(b1, 0x1000, Bit(i.bankgroup, 1));
    PutBit(b2, 0x2000, Bit(i.bankgroup, 2))
  }

  function ChannelDecodeAddress(a: nat, i: Inst): Inst {
    RankedDecodeAddress(a, i).(bankgroup := Bit(a, 0x1000) + Bit(a, 0x2000) * 2,
                               bank := Bit(a, 0x8_0000) + Bit(a, 0x10_0000) * 2)
  }

  /** The bit regions of an address that the instruction fields are made of. */
  datatype Regions = Regions(c0: nat, r0: nat, g0: nat, g1: nat, c1: nat, k0: nat, k1: nat,
                             b21: nat, b22: nat, b23: nat, b24: nat, r1h: nat, r2: nat, r3: nat) {
    predicate Valid() {
      && c0 < 32 && r0 < 16 && g0 < 2 && g1 < 2 && c1 < 32 && k0 < 2 && k1 < 2
      && b21 < 2 && b22 < 2 && b23 < 2 && b24 < 2 && r1h < 8 && r2 < 2 && r3 < 32
    }

    function R1(): nat {
      b21 + 2 * (b22 + 2 * (b23 + 2 * (b24 + 2 * r1h)))
    }

    function Row(): nat {
      r0 + 16 * (r2 + 2 * (R1() + 128 * r3))
    }

    function Column(): nat {
      c0 + 32 * c1
    }

    /** Everything from bit 21 on. */
    function High(): nat {
      R1() + 128 * (r2 + 2 * r3)
    }

    function Address(): nat {
      8 * (c0 + 32 * (r0 + 16 * (g0 + 2 * (g1 + 2 * (c1 + 32 * (k0 + 2 * (k1 + 2 * High())))))))
    }

    /** This with the bank group and bank bits cleared. */
    function NoBanks(): Regions {
      this.(g0 := 0, g1 := 0, k0 := 0, k1 := 0)
    }
  }

  /** Each region of an address reads back as itself, whatever lies below bit 3 and above bit 33. */
  lemma LowRegionsReadBack(g: Regions, a: nat, below: nat, above: nat)
    requires g.Valid() && below < 8 && a == below + g.Address() + P34 * above
    ensures a / 0x8 % 32 == g.c0 && a / 0x100 % 16 == g.r0
    ensures Bit(a, 0x1000) == g.g0 && Bit(a, 0x2000) == g.g1
    ensures a / 0x4000 % 32 == g.c1
    ensures Bit(a, 0x8_0000) == g.k0 && Bit(a, 0x10_0000) == g.k1
  {
    var h := g.High() + 0x2000 * above;
    var h19 := g.k0 + 2 * (g.k1 + 2 * h);
    var h12 := g.g0 + 2 * (g.g1 + 2 * (g.c1 + 32 * h19));
    FieldReadsBack(a, 0x8, 32, below, g.c0, g.r0 + 16 * h12);
    var low8 := below + 8 * g.c0;
    FieldReadsBack(a, 0x100, 16, low8, g.r0, h12);
    var low12 := low8 + 0x100 * g.r0;
    FieldReadsBack(a, 0x1000, 2, low12, g.g0, g.g1 + 2 * (g.c1 + 32 * h19));
    FieldReadsBack(a, 0x2000, 2, low12 + 0x1000 * g.g0, g.g1, g.c1 + 32 * h19);
    var low14 := low12 + 0x1000 * g.g0 + 0x2000 * g.g1;
    FieldReadsBack(a, 0x4000, 32, low14, g.c1, h19);
    FieldReadsBack(a, 0x8_0000, 2, low14 + 0x4000 * g.c1, g.k0, g.k1 + 2 * h);
    FieldReadsBack(a, 0x10_0000, 2, low14 + 0x4000 * g.c1 + 0x8_0000 * g.k0, g.k1, h);
  }

  /** Everything below bit 21 of an address. */
  ghost function Low21(g: Regions, below: nat): nat {
    below + 8 * (g.c0 + 32 * (g.r0 + 16 * (g.g0 + 2 * (g.g1 + 2 * (g.c1 + 32 * (g.k0 + 2 * g.k1))))))
  }

  lemma SplitAt21(g: Regions, a: nat, below: nat, above: nat)
    requires g.Valid() && below < 8 && a == below + g.Address() + P34 * above
    ensures a == Low21(g, below) + 0x20_0000 * (g.R1() + 128 * (g.r2 + 2 * (g.r3 + 32 * above)))
    ensures Low21(g, below) < 0x20_0000 && g.R1() < 128
  {
  }

  lemma HighFieldsReadBack(g: Regions, a: nat, below: nat, above: nat)
    requires g.Valid() && below < 8 && a == below + g.Address() + P34 * above
    ensures a / 0x20_0000 % 128 == g.R1() && a / 0x1000_0000 % 2 == g.r2 && a / 0x2000_0000 % 32 == g.r3
  {
    hide Regions.Address, Low21, Regions.R1;
    SplitAt21(g, a, below, above);
    var low := Low21(g, below);
    FieldReadsBack(a, 0x20_0000, 128, low, g.R1(), g.r2 + 2 * (g.r3 + 32 * above));
    FieldReadsBack(a, 0x1000_0000, 2, low + 0x20_0000 * g.R1(), g.r2, g.r3 + 32 * above);
    FieldReadsBack(a, 0x2000_0000, 32, low + 0x20_0000 * g.R1() + 0x1000_0000 * g.r2, g.r3, above);
  }

  lemma HighBitsReadBack(g: Regions, a: nat, below: nat, above: nat)
    requires g.Valid() && below < 8 && a == below + g.Address() + P34 * above
    ensures Bit(a, 0x20_0000) == g.b21 && Bit(a, 0x40_0000) == g.b22
    ensures Bit(a, 0x80_0000) == g.b23 && Bit(a, 0x100_0000) == g.b24
  {
    hide Regions.Address, Low21;
    SplitAt21(g, a, below, above);
    var low := Low21(g, below);
    var h25 := g.r1h + 8 * (g.r2 + 2 * (g.r3 + 32 * above));
    FieldReadsBack(a, 0x20_0000, 2, low, g.b21, g.b22 + 2 * (g.b23 + 2 * (g.b24 + 2 * h25)));
    FieldReadsBack(a, 0x40_0000, 2, low + 0x20_0000 * g.b21, g.b22, g.b23 + 2 * (g.b24 + 2 * h25));
    var low23 := low + 0x20_0000 * g.b21 + 0x40_0000 * g.b22;
    FieldReadsBack(a, 0x80_0000, 2, low23, g.b23, g.b24 + 2 * h25);
    FieldReadsBack(a, 0x100_0000, 2, low23 + 0x80_0000 * g.b23, g.b24, h25);
  }

  /** Every address splits into regions. */
  lemma SplitIntoRegions(a: nat) returns (g: Regions)
    ensures g.Valid() && a == a % 8 + g.Address() + P34 * (a / P34)
  {
    var q3 := a / 8;
    var q8 := q3 / 32;
    var q12 := q8 / 16;
    var q13, q14 := q12 / 2, q12 / 2 / 2;
    var q19 := q14 / 32;
    var q20, q21 := q19 / 2, q19 / 2 / 2;
    var q22, q23, q24, q25 := q21 / 2, q21 / 2 / 2, q21 / 2 / 2 / 2, q21 / 2 / 2 / 2 / 2;
    var q28 := q25 / 8;
    var q29 := q28 / 2;
    g := Regions(q3 % 32, q8 % 16, q12 % 2, q13 % 2, q14 % 32, q19 % 2, q20 % 2,
                 q21 % 2, q22 % 2, q23 % 2, q24 % 2, q25 % 8, q28 % 2, q29 % 32);
    var above := q29 / 32;
    assert a == a % 8 + g.Address() + P34 * above;
    DivUnique(a, P34, above, a % 8 + g.Address());
  }

  /** The fields that an address is split into, for both maps. */
  lemma DecodedFields(g: Regions, a: nat, below: nat, above: nat, i: Inst)
    requires g.Valid() && below < 8 && a == below + g.Address() + P34 * above
    ensures RankedDecodeAddress(a, i) == i.(
      bankgroup := Xor(g.b21, g.g0) + Xor(g.b22, g.g1) * 2, bank := Xor(g.b23, g.k0) + Xor(g.b24, g.k1) * 2,
      row := g.Row(), column := g.Column())
    ensures ChannelDecodeAddress(a, i) == i.(
      bankgroup := g.g0 + g.g1 * 2, bank := g.k0 + g.k1 * 2, row := g.Row(), column := g.Column())
  {
    LowRegionsReadBack(g, a, below, above);
    HighFieldsReadBack(g, a, below, above);
    HighBitsReadBack(g, a, below, above);
  }

  lemma RowParts(g: Regions)
    requires g.Valid()
    ensures g.Row() % 16 == g.r0 && g.Row() / 16 % 2 == g.r2 && g.Row() / 32 % 128 == g.R1()
    ensures g.Row() / 4096 % 32 == g.r3
  {
    var row, x := g.Row(), g.R1();
    assert x < 128;
    hide Regions.R1;
    FieldReadsBack(row, 1, 16, 0, g.r0, g.r2 + 2 * (x + 128 * g.r3));
    FieldReadsBack(row, 16, 2, g.r0, g.r2, x + 128 * g.r3);
    FieldReadsBack(row, 32, 128, g.r0 + 16 * g.r2, x, g.r3);
    FieldReadsBack(row, 4096, 32, g.r0 + 16 * g.r2 + 32 * x, g.r3, 0);
  }

  lemma ColumnParts(g: Regions)
    requires g.Valid()
    ensures g.Column() % 32 == g.c0 && g.Column() / 32 % 32 == g.c1
  {
    FieldReadsBack(g.Column(), 1, 32, 0, g.c0, g.c1);
    FieldReadsBack(g.Column(), 32, 32, g.c0, g.c1, 0);
  }

  lemma RowColumnOf(g: Regions, i: Inst)
    requires g.Valid() && i.row == g.Row() && i.column == g.Column()
    ensures RowColumnAddress(i) == g.NoBanks().Address()
  {
    RowParts(g);
    ColumnParts(g);
    assert g.NoBanks().R1() == g.R1();
    hide Regions.R1, Regions.Row, Regions.Column;
  }

  /** Adding a bank bit to an address that has it clear sets that region. */
  lemma AddBankBit(g: Regions, bit: nat)
    requires g.Valid() && bit < 2
    ensures g.g0 == 0 ==> g.Address() + bit * 0x1000 == g.(g0 := bit).Address()
    ensures g.g1 == 0 ==> g.Address() + bit * 0x2000 == g.(g1 := bit).Address()
    ensures g.k0 == 0 ==> g.Address() + bit * 0x8_0000 == g.(k0 := bit).Address()
    ensures g.k1 == 0 ==> g.Address() + bit * 0x10_0000 == g.(k1 := bit).Address()
  {
  }

  lemma RankedEncoded(g: Regions, i: Inst)
    requires g.Valid() && i.row == g.Row() && i.column == g.Column()
    requires Bit(i.bankgroup, 1) == Xor(g.b21, g.g0) && Bit(i.bankgroup, 2) == Xor(g.b22, g.g1)
    requires Bit(i.bank, 1) == Xor(g.b23, g.k0) && Bit(i.bank, 2) == Xor(g.b24, g.k1)
    ensures RankedEncodeAddress(i) == g.Address()
  {
    hide Bit, Xor, RowColumnAddress, Regions.Address;
    RowColumnOf(g, i);
    // Bits 21 to 24 are not affected by the bank bits added below them.
    var n0 := g.NoBanks();
    var n1, n2, n3 := n0.(g0 := g.g0), n0.(g0 := g.g0, g1 := g.g1), g.(k1 := 0);
    HighBitsReadBack(n0, n0.Address(), 0, 0);
    XorCancels(g.b21, g.g0);
    AddBankBit(n0, g.g0);
    HighBitsReadBack(n1, n1.Address(), 0, 0);
    XorCancels(g.b22, g.g1);
    AddBankBit(n1, g.g1);
    HighBitsReadBack(n2, n2.Address(), 0, 0);
    XorCancels(g.b23, g.k0);
    AddBankBit(n2, g.k0);
    HighBitsReadBack(n3, n3.Address(), 0, 0);
    XorCancels(g.b24, g.k1);
    AddBankBit(n3, g.k1);
  }

  lemma XorCancels(x: nat, y: nat)
    requires x < 2 && y < 2
    ensures Xor(Xor(x, y), x) == y == Xor(x, Xor(x, y)) && Xor(x, y) < 2
  {
  }

  /** Replacing a bank bit moves the address by the bit's weight. */
  lemma AddressWith(g: Regions, bit: nat)
    ensures g.(g0 := bit).Address() == g.Address() - g.g0 * 0x1000 + bit * 0x1000
    ensures g.(g1 := bit).Address() == g.Address() - g.g1 * 0x2000 + bit * 0x2000
    ensures g.(k0 := bit).Address() == g.Address() - g.k0 * 0x8_0000 + bit * 0x8_0000
    ensures g.(k1 := bit).Address() == g.Address() - g.k1 * 0x10_0000 + bit * 0x10_0000
  {
  }

  lemma PutOneBit(g: Regions, bit: nat)
    requires g.Valid() && bit < 2
    ensures PutBit(g.Address(), 0x1000, bit) == g.(g0 := bit).Address()
    ensures PutBit(g.Address(), 0x2000, bit) == g.(g1 := bit).Address()
    ensures PutBit(g.Address(), 0x8_0000, bit) == g.(k0 := bit).Address()
    ensures PutBit(g.Address(), 0x10_0000, bit) == g.(k1 := bit).Address()
  {
    hide Bit, Regions.Address;
    LowRegionsReadBack(g, g.Address(), 0, 0);
    AddressWith(g, bit);
  }

  lemma PutBanks(g: Regions, k0: nat, k1: nat, g0: nat, g1: nat)
    requires g.Valid() && k0 < 2 && k1 < 2 && g0 < 2 && g1 < 2
    ensures PutBit(PutBit(PutBit(PutBit(g.Address(), 0x8_0000, k0), 0x10_0000, k1), 0x1000, g0), 0x2000, g1)
      == g.(k0 := k0, k1 := k1, g0 := g0, g1 := g1).Address()
  {
    hide PutBit, Regions.Address;
    PutOneBit(g, k0);
    PutOneBit(g.(k0 := k0), k1);
    PutOneBit(g.(k0 := k0, k1 := k1), g0);
    PutOneBit(g.(k0 := k0, k1 := k1, g0 := g0), g1);
  }

  lemma TwoBits(x: nat, y: nat)
    requires x < 2 && y < 2
    ensures Bit(x + y * 2, 1) == x && Bit(x + y * 2, 2) == y
  {
  }

  /** Ranked map: what comes back is the address without bits 0 to 2 and without bits 34 and up. */
  lemma RankedRoundTrip(a: nat, i: Inst)
    ensures RankedEncodeAddress(RankedDecodeAddress(a, i)) == a % P34 - a % 8
    ensures AddressInWidths(RankedDecodeAddress(a, i))
  {
    hide Bit, RankedEncodeAddress, RankedDecodeAddress, Regions.Address, Regions.R1;
    var g := SplitIntoRegions(a);
    DecodedFields(g, a, a % 8, a / P34, i);
    RowFits(g);
    TwoBits(Xor(g.b21, g.g0), Xor(g.b22, g.g1));
    TwoBits(Xor(g.b23, g.k0), Xor(g.b24, g.k1));
    RankedEncoded(g, RankedDecodeAddress(a, i));
  }

  /** Channel map: the same. */
  lemma ChannelRoundTrip(a: nat, i: Inst)
    ensures ChannelEncodeAddress(ChannelDecodeAddress(a, i)) == a % P34 - a % 8
    ensures AddressInWidths(ChannelDecodeAddress(a, i))
  {
    hide Bit, Xor, PutBit, RankedEncodeAddress, RankedDecodeAddress, ChannelDecodeAddress, Regions.Address, Regions.R1;
    var g := SplitIntoRegions(a);
    DecodedFields(g, a, a % 8, a / P34, i);
    RowFits(g);
    ChannelEncoded(g, ChannelDecodeAddress(a, i));
  }

  lemma RowFits(g: Regions)
    requires g.Valid()
    ensures g.Row() < 0x2_0000
  {
  }

  /** The rank encoding XORs the plain bank bits; the channel encoding then overwrites them. */
  lemma ChannelEncoded(g: Regions, i: Inst)
    requires g.Valid() && i.row == g.Row() && i.column == g.Column()
    requires i.bankgroup == g.g0 + g.g1 * 2 && i.bank == g.k0 + g.k1 * 2
    ensures ChannelEncodeAddress(i) == g.Address()
  {
    hide Bit, Xor, PutBit, RankedEncodeAddress, Regions.Address, Regions.R1;
    XorCancels(g.b21, g.g0);
    XorCancels(g.b22, g.g1);
    XorCancels(g.b23, g.k0);
    XorCancels(g.b24, g.k1);
    TwoBits(g.g0, g.g1);
    TwoBits(g.k0, g.k1);
    var x := g.(g0 := Xor(g.b21, g.g0), g1 := Xor(g.b22, g.g1), k0 := Xor(g.b23, g.k0), k1 := Xor(g.b24, g.k1));
    SameRow(g, x);
    RankedEncoded(x, i);
    PutBanks(x, g.k0, g.k1, g.g0, g.g1);
    assert x.(g0 := g.g0, g1 := g.g1, k0 := g.k0, k1 := g.k1) == g;
  }

  lemma SameRow(g: Regions, x: Regions)
    requires x == g.(g0 := x.g0, g1 := x.g1, k0 := x.k0, k1 := x.k1)
    ensures x.Row() == g.Row() && x.Column() == g.Column()
  {
  }

  /** Exactly the 8-aligned addresses below 2^34 survive the trip through an instruction. */
  lemma AddressSurvivesIff(a: nat, i: Inst)
    ensures RankedEncodeAddress(RankedDecodeAddress(a, i)) == a <==> a % 8 == 0 && a < P34
    ensures ChannelEncodeAddress(ChannelDecodeAddress(a, i)) == a <==> a % 8 == 0 && a < P34
  {
    hide RankedEncodeAddress, RankedDecodeAddress, ChannelEncodeAddress, ChannelDecodeAddress;
    RankedRoundTrip(a, i);
    ChannelRoundTrip(a, i);
  }

  /** The generator only demands 4-byte alignment: address 4 passes that demand and comes back as 0. */
  lemma FourAlignedIsNotEnough(i: Inst)
    ensures 4 % 4 == 0 && ChannelEncodeAddress(ChannelDecodeAddress(4, i)) == 0
    ensures RankedEncodeAddress(RankedDecodeAddress(4, i)) == 0
  {
    hide RankedEncodeAddress, RankedDecodeAddress, ChannelEncodeAddress, ChannelDecodeAddress;
    RankedRoundTrip(4, i);
    ChannelRoundTrip(4, i);
  }

  lemma RegionsOfFields(i: Inst) returns (g: Regions)
    requires AddressInWidths(i)
    ensures g.Valid() && i.row == g.Row() && i.column == g.Column()
    ensures i.bankgroup == g.g0 + g.g1 * 2 && i.bank == g.k0 + g.k1 * 2
  {
    var q4 := i.row / 16;
    var q5 := q4 / 2;
    var r := q5 % 128;
    var r1, r2, r3, r4 := r / 2, r / 2 / 2, r / 2 / 2 / 2, r / 2 / 2 / 2 / 2;
    g := Regions(i.column % 32, i.row % 16, i.bankgroup % 2, i.bankgroup / 2, i.column / 32, i.bank % 2, i.bank / 2,
                 r % 2, r1 % 2, r2 % 2, r3 % 2, r4, q4 % 2, q5 / 128);
    assert g.R1() == r;
  }

  /** The other way round: in-range address fields come back unchanged, so each map is a bijection. */
  lemma FieldsRoundTrip(i: Inst)
    requires AddressInWidths(i)
    ensures RankedDecodeAddress(RankedEncodeAddress(i), i) == i
    ensures ChannelDecodeAddress(ChannelEncodeAddress(i), i) == i
  {
    hide Bit, Xor, RankedEncodeAddress, RankedDecodeAddress, ChannelEncodeAddress, ChannelDecodeAddress;
    hide Regions.Address, Regions.R1;
    var h := RegionsOfFields(i);
    ChannelEncoded(h, i);
    DecodedFields(h, h.Address(), 0, 0, i);
    var g := h.(g0 := Xor(h.b21, h.g0), g1 := Xor(h.b22, h.g1), k0 := Xor(h.b23, h.k0), k1 := Xor(h.b24, h.k1));
    SameRow(h, g);
    XorCancels(h.b21, h.g0);
    XorCancels(h.b22, h.g1);
    XorCancels(h.b23, h.k0);
    XorCancels(h.b24, h.k1);
    TwoBits(h.g0, h.g1);
    TwoBits(h.k0, h.k1);
    RankedEncoded(g, i);
    DecodedFields(g, g.Address(), 0, 0, i);
  }

  // ----- The maps as sums of weights.

  /** The channel address: low column, low row, bank group, high column, bank and the three other parts of the row. */
  lemma ChannelAddressIs(i: Inst)
    requires AddressInWidths(i)
    ensures ChannelEncodeAddress(i)
      == 0x8 * (i.column % 32) + 0x100 * (i.row % 16) + 0x1000 * i.bankgroup + 0x4000 * (i.column / 32)
         + 0x8_0000 * i.bank + 0x20_0000 * (i.row / 32 % 128) + 0x1000_0000 * (i.row / 16 % 2)
         + 0x2000_0000 * (i.row / 4096)
  {
    hide Bit, ChannelEncodeAddress, Regions.Row, Regions.Column, Regions.R1, Regions.Address;
    var g := RegionsOfFields(i);
    ChannelEncoded(g, i);
    RowParts(g);
    ColumnParts(g);
    AddressIs(g);
  }

  lemma AddressIs(g: Regions)
    ensures g.Address() == 8 * g.c0 + 0x100 * g.r0 + 0x1000 * g.g0 + 0x2000 * g.g1 + 0x4000 * g.c1 + 0x8_0000 * g.k0
      + 0x10_0000 * g.k1 + 0x20_0000 * g.R1() + 0x1000_0000 * g.r2 + 0x2000_0000 * g.r3
  {
    hide Regions.R1;
  }

  /** The rank address is the channel address with bank group and bank flipped by bits 5 to 8 of the row. */
  lemma RankedAddressIs(i: Inst)
    requires AddressInWidths(i)
    ensures RankedEncodeAddress(i) == ChannelEncodeAddress(i.(
      bankgroup := Xor(Bit(i.row, 32), Bit(i.bankgroup, 1)) + Xor(Bit(i.row, 64), Bit(i.bankgroup, 2)) * 2,
      bank := Xor(Bit(i.row, 128), Bit(i.bank, 1)) + Xor(Bit(i.row, 256), Bit(i.bank, 2)) * 2))
  {
    hide Bit, Xor, RankedEncodeAddress, ChannelEncodeAddress, Regions.Address, Regions.Column;
    var h := RegionsOfFields(i);
    RowBits(h);
    hide Regions.R1, Regions.Row;
    var g := h.(g0 := Xor(h.b21, h.g0), g1 := Xor(h.b22, h.g1), k0 := Xor(h.b23, h.k0), k1 := Xor(h.b24, h.k1));
    SameRow(h, g);
    XorCancels(h.b21, h.g0);
    XorCancels(h.b22, h.g1);
    XorCancels(h.b23, h.k0);
    XorCancels(h.b24, h.k1);
    TwoBits(h.g0, h.g1);
    TwoBits(h.k0, h.k1);
    RankedEncoded(g, i);
    ChannelEncoded(g, i.(bankgroup := g.g0 + g.g1 * 2, bank := g.k0 + g.k1 * 2));
  }

  lemma RowBits(g: Regions)
    requires g.Valid()
    ensures Bit(g.Row(), 32) == g.b21 && Bit(g.Row(), 64) == g.b22 && Bit(g.Row(), 128) == g.b23
    ensures Bit(g.Row(), 256) == g.b24
  {
    var low, h := g.r0 + 16 * g.r2, g.r1h + 8 * g.r3;
    FieldReadsBack(g.Row(), 32, 2, low, g.b21, g.b22 + 2 * (g.b23 + 2 * (g.b24 + 2 * h)));
    FieldReadsBack(g.Row(), 64, 2, low + 32 * g.b21, g.b22, g.b23 + 2 * (g.b24 + 2 * h));
    FieldReadsBack(g.Row(), 128, 2, low + 32 * g.b21 + 64 * g.b22, g.b23, g.b24 + 2 * h);
    FieldReadsBack(g.Row(), 256, 2, low + 32 * g.b21 + 64 * g.b22 + 128 * g.b23, g.b24, h);
  }
}
