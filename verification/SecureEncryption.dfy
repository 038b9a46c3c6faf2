/**
 * Encryption of embedding tables by additive secret sharing, and the pads that undo it
 * (secure/encryption: sls_engine, sls_dlrm_preprocessor, sls_dlrm_postprocessor, AES/sls_extra).
 */
module SecureEncryption {
  import opened SeqMath
  import opened ExecutionGenerators
  import opened PacksData
  import opened CpuSls

  const TAG: nat := 0x1_0000_0000_0000_0000_0000_0000_0000_0000
  const OTP_BYTES: nat := 16
  const OTP_ELEMENTS: nat := 4
  const BUFFER_SIZE: nat := 8192

  // Opcode of the wrapping 32-bit sum.
  const WRAPPING: nat := 2

  /** A key and a table version; `aes` is any function of prefix, version and address. */
  datatype Engine = Engine(version: nat, aes: (nat, nat, nat) -> nat) {
    /** The 128-bit one-time pad block. */
    function Block(prefix: nat, address: nat): nat {
      aes(prefix, version, address) % TAG
    }

    /** The k-th 32-bit element of a data pad block. */
    function Lane(address: nat, k: nat): nat
      requires k < OTP_ELEMENTS
    {
      var block := Block(0x00, address);
      (if k == 0 then block
       else if k == 1 then block / 0x1_0000_0000
       else if k == 2 then block / 0x1_0000_0000_0000_0000
       else block / 0x1_0000_0000_0000_0000_0000_0000) % WORD
    }

    /** The pad of element `c` of a row at `offset`. */
    function PadAt(offset: nat, c: nat): nat {
      Lane(offset + c / OTP_ELEMENTS * OTP_BYTES, c % OTP_ELEMENTS)
    }
  }

  function Cipher(plain: nat, pad: nat): nat {
    (plain - pad) % WORD
  }

  ghost function CipherRow(e: Engine, row: seq<nat>, offset: nat): seq<nat> {
    seq(|row|, c requires 0 <= c < |row| => Cipher(row[c], e.PadAt(offset, c)))
  }

  /** `encrypt`, in place on `data[from..end]`. */
  method Encrypt(e: Engine, data: array<nat>, from: nat, end: nat, offset: nat) returns (ok: bool, size: nat)
    requires from <= end <= data.Length
    modifies data
    ensures ok <==> (end - from) % OTP_ELEMENTS == 0
    ensures !ok ==> data[..] == old(data[..])
    ensures ok ==> size == 4 * (end - from) && data[from..end] == CipherRow(e, old(data[from..end]), offset)
    ensures forall x :: 0 <= x < data.Length && !(from <= x < end) ==> data[x] == old(data[x])
  {
    hide Engine.Lane, Cipher;
    if (end - from) % OTP_ELEMENTS != 0 {
      return false, 0;
    }
    var at, colOffset := from, offset;
    while at != end
      invariant from <= at <= end && (at - from) % OTP_ELEMENTS == 0
      invariant colOffset == offset + (at - from) / OTP_ELEMENTS * OTP_BYTES
      invariant forall x :: from <= x < at ==> data[x] == Cipher(old(data[x]), e.PadAt(offset, x - from))
      invariant forall x :: 0 <= x < data.Length && !(from <= x < at) ==> data[x] == old(data[x])
      decreases end - at
    {
      for k := 0 to OTP_ELEMENTS
        invariant forall x :: from <= x < at + k ==> data[x] == Cipher(old(data[x]), e.PadAt(offset, x - from))
        invariant forall x :: 0 <= x < data.Length && !(from <= x < at + k) ==> data[x] == old(data[x])
      {
        assert (at + k - from) / OTP_ELEMENTS == (at - from) / OTP_ELEMENTS && (at + k - from) % OTP_ELEMENTS == k;
        data[at + k] := Cipher(data[at + k], e.Lane(colOffset, k));
      }
      at, colOffset := at + OTP_ELEMENTS, colOffset + OTP_BYTES;
    }
    return true, colOffset - offset;
  }

  // ----- Secret sharing: ciphertext plus pad.

  lemma AddRemainder(sum: nat, v: nat)
    ensures (sum % WORD + v) % WORD == (sum + v) % WORD
  {
  }

  lemma {:induction false} FoldIsSum(arith: Arith, values: seq<nat>)
    ensures arith.Fold(WRAPPING, values) == Sum(values) % WORD
  {
    if values != [] {
      var n := |values| - 1;
      FoldIsSum(arith, values[..n]);
      AddRemainder(Sum(values[..n]), values[n]);
    }
  }

  /** The sums of the two shares add up to the sum of the plain values. */
  lemma {:induction false} SharesAddUp(arith: Arith, plain: seq<nat>, pads: seq<nat>, cipher: seq<nat>)
    requires |plain| == |pads| == |cipher|
    requires forall j :: 0 <= j < |plain| ==> cipher[j] == Cipher(plain[j], pads[j])
    ensures (arith.Fold(WRAPPING, cipher) + arith.Fold(WRAPPING, pads)) % WORD == arith.Fold(WRAPPING, plain)
  {
    if plain != [] {
      hide Cipher;
      var n := |plain| - 1;
      SharesAddUp(arith, plain[..n], pads[..n], cipher[..n]);
      OneMoreShare(arith.Fold(WRAPPING, cipher[..n]), arith.Fold(WRAPPING, pads[..n]), plain[n], pads[n]);
    }
  }

  lemma OneMoreShare(cipherSum: nat, padSum: nat, plain: nat, pad: nat)
    ensures ((cipherSum + Cipher(plain, pad)) % WORD + (padSum + pad) % WORD) % WORD ==
            ((cipherSum + padSum) % WORD + plain) % WORD
  {
    var c := Cipher(plain, pad);
    var k := (cipherSum + padSum) / WORD - (cipherSum + c) / WORD - (padSum + pad) / WORD - (plain - pad) / WORD;
    Congruent((cipherSum + c) % WORD + (padSum + pad) % WORD, (cipherSum + padSum) % WORD + plain, k);
  }

  lemma Congruent(x: int, y: int, k: int)
    requires x == y + k * WORD
    ensures x % WORD == y % WORD
  {
  }

  /** Byte offset of row `r` of table `t`, counted from the first row of the first table. */
  ghost function RowOffset(rows: seq<nat>, width: nat, t: nat, r: nat): nat
    requires t <= |rows|
  {
    (Sum(rows[..t]) + r) * (4 * width)
  }

  /** Rows of 16 elements lie 64 bytes apart, one table after the other. */
  lemma RowOffsetOf(r: nat)
    ensures RowOffset([2, 3], 16, 0, r) == 64 * r && RowOffset([2, 3], 16, 1, r) == 128 + 64 * r
  {
    assert [2, 3][..0] == [] && [2, 3][..1] == [2] && [2][..0] == [];
  }

  /** The pads of table `t` as a table. */
  ghost function PadTable(e: Engine, rows: seq<nat>, width: nat, t: nat): Table
    requires t <= |rows|
  {
    (r, c) => e.PadAt(RowOffset(rows, width, t, r), c)
  }

  ghost function CipherTable(e: Engine, rows: seq<nat>, width: nat, plain: seq<Table>, t: nat): Table
    requires t < |rows| == |plain|
  {
    (r, c) => Cipher(plain[t](r, c), e.PadAt(RowOffset(rows, width, t, r), c))
  }

  ghost function PadTables(e: Engine, rows: seq<nat>, width: nat): seq<Table> {
    seq(|rows|, t requires 0 <= t < |rows| => PadTable(e, rows, width, t))
  }

  ghost function CipherTables(e: Engine, rows: seq<nat>, width: nat, plain: seq<Table>): seq<Table>
    requires |rows| == |plain|
  {
    seq(|rows|, t requires 0 <= t < |rows| => CipherTable(e, rows, width, plain, t))
  }

  /** Element by element, `out` is the wrapping sum of the two shares. */
  ghost predicate SharesAdded(out: seq<nat>, psum: seq<nat>, epsum: seq<nat>) {
    && |out| == |psum| == |epsum|
    && forall x :: 0 <= x < |out| ==> out[x] == (psum[x] + epsum[x]) % WORD
  }

  lemma RowDecrypts(arith: Arith, plain: Table, cipher: Table, pads: Table, index: seq<nat>,
                    width: nat, c: nat)
    requires forall r, k :: cipher(r, k) == Cipher(plain(r, k), pads(r, k))
    requires c < width
    ensures
      var sum := SumOfRows(arith, WRAPPING, cipher, index, width)[c] +
        SumOfRows(arith, WRAPPING, pads, index, width)[c];
      sum % WORD == SumOfRows(arith, WRAPPING, plain, index, width)[c]
  {
    hide Arith.Fold, Cipher;
    SharesAddUp(arith, ColumnOf(plain, index, c), ColumnOf(pads, index, c), ColumnOf(cipher, index, c));
  }

  lemma RowOfShares(out: seq<nat>, psum: seq<nat>, epsum: seq<nat>, r: nat, plain: seq<nat>,
                    cipher: seq<nat>, pads: seq<nat>)
    requires SharesAdded(out, psum, epsum) && |plain| == |cipher| == |pads|
    requires RowIs(psum, r, cipher) && RowIs(epsum, r, pads)
    requires forall c :: 0 <= c < |plain| ==> plain[c] == (cipher[c] + pads[c]) % WORD
    ensures RowIs(out, r, plain)
  {
    var at := r * |plain|;
    forall c | 0 <= c < |plain|
      ensures out[at + c] == plain[c]
    {
      assert psum[at + c] == psum[at..at + |plain|][c] && epsum[at + c] == epsum[at..at + |plain|][c];
    }
    assert out[at..at + |plain|] == plain;
  }

  /**
   * Any device that reduces the ciphertext, plus the reduction of the pads, is the reduction of the
   * plaintext: for every pad function, every table, every batch.
   */
  lemma DecryptionIsReduction(arith: Arith, e: Engine, rows: seq<nat>, plain: seq<Table>,
                              req: Request, psum: seq<nat>, epsum: seq<nat>, out: seq<nat>)
    requires req.Valid() && |rows| == |plain| == req.numTables
    requires AllReduced(arith, WRAPPING, CipherTables(e, rows, req.featureSize, plain), req, psum)
    requires AllReduced(arith, WRAPPING, PadTables(e, rows, req.featureSize), req, epsum)
    requires SharesAdded(out, psum, epsum)
    ensures AllReduced(arith, WRAPPING, plain, req, out)
  {
    forall b: Batch | InRequest(req, b)
      ensures IsReduced(arith, WRAPPING, plain, req, out, b)
    {
      BatchDecrypts(arith, e, rows, plain, req, psum, epsum, out, b);
    }
  }

  lemma BatchDecrypts(arith: Arith, e: Engine, rows: seq<nat>, plain: seq<Table>, req: Request,
                      psum: seq<nat>, epsum: seq<nat>, out: seq<nat>, b: Batch)
    requires InRequest(req, b) && |rows| == |plain| == req.numTables
    requires IsReduced(arith, WRAPPING, CipherTables(e, rows, req.featureSize, plain), req, psum, b)
    requires IsReduced(arith, WRAPPING, PadTables(e, rows, req.featureSize), req, epsum, b)
    requires SharesAdded(out, psum, epsum)
    ensures IsReduced(arith, WRAPPING, plain, req, out, b)
  {
    hide SumOfRows, RowIs, SharesAdded, Cipher, Engine.PadAt, Sum, Flat, IndexList;
    var index, width := IndexList(req, b), req.featureSize;
    var cipher, pads := CipherTables(e, rows, width, plain)[b.table], PadTables(e, rows, width)[b.table];
    SumOfRowsWidth(arith, WRAPPING, cipher, index, width);
    SumOfRowsWidth(arith, WRAPPING, pads, index, width);
    SumOfRowsWidth(arith, WRAPPING, plain[b.table], index, width);
    forall c | 0 <= c < width
      ensures SumOfRows(arith, WRAPPING, plain[b.table], index, width)[c]
           == (SumOfRows(arith, WRAPPING, cipher, index, width)[c] +
               SumOfRows(arith, WRAPPING, pads, index, width)[c]) % WORD
    {
      RowDecrypts(arith, plain[b.table], cipher, pads, index, width, c);
    }
    RowOfShares(out, psum, epsum, req.Row(b), SumOfRows(arith, WRAPPING, plain[b.table], index, width),
                SumOfRows(arith, WRAPPING, cipher, index, width), SumOfRows(arith, WRAPPING, pads, index, width));
  }

  // ----- Pads are used once.

  /** The four elements of a pad block are its four 32-bit parts, the lowest first. */
  lemma LanesArePartsOfBlock(e: Engine, address: nat)
    ensures e.Block(0x00, address) == e.Lane(address, 0) + 0x1_0000_0000 * e.Lane(address, 1)
      + 0x1_0000_0000_0000_0000 * e.Lane(address, 2) + 0x1_0000_0000_0000_0000_0000_0000 * e.Lane(address, 3)
    ensures forall k :: 0 <= k < OTP_ELEMENTS ==> e.Lane(address, k) < WORD
  {
  }

  /** Four 32-bit parts as a block. */
  function BlockOf(a: nat, b: nat, c: nat, d: nat): nat {
    a + 0x1_0000_0000 * b + 0x1_0000_0000_0000_0000 * c + 0x1_0000_0000_0000_0000_0000_0000 * d
  }

  lemma PartsOf(a: nat, b: nat, c: nat, d: nat)
    requires a < WORD && b < WORD && c < WORD && d < WORD
    ensures var x := BlockOf(a, b, c, d);
      && x < TAG && x % WORD == a && x / 0x1_0000_0000 % WORD == b
      && x / 0x1_0000_0000_0000_0000 % WORD == c && x / 0x1_0000_0000_0000_0000_0000_0000 % WORD == d
  {
    var x, cd := BlockOf(a, b, c, d), c + WORD * d;
    var bcd := b + WORD * cd;
    DivUnique(x, WORD, bcd, a);
    DivUnique(x, 0x1_0000_0000_0000_0000, cd, a + WORD * b);
    DivUnique(x, 0x1_0000_0000_0000_0000_0000_0000, d, a + WORD * (b + WORD * c));
    DivUnique(bcd, WORD, cd, b);
    DivUnique(cd, WORD, d, c);
    DivUnique(d, WORD, 0, d);
  }

  /** Row `g` of all rows, element `c` of it: any choice of pads. */
  type Pads = (nat, nat) -> nat

  /** The engine whose pad of element `c` of row `g` is `pads(g, c)`, for rows of `blocks` pad blocks. */
  ghost function Choosing(pads: Pads, blocks: nat): Engine
    requires 0 < blocks
  {
    Engine(0, (prefix: nat, version: nat, address: nat) =>
      DivBounds(address / OTP_BYTES, blocks);
      ChosenBlock(pads, address / OTP_BYTES / blocks, address / OTP_BYTES % blocks))
  }

  function ChosenBlock(pads: Pads, g: nat, k: nat): nat {
    BlockOf(pads(g, 4 * k), pads(g, 4 * k + 1), pads(g, 4 * k + 2), pads(g, 4 * k + 3))
  }

  /**
   * No two elements of the tables share a pad: every choice of pads, element by element, is the choice of some engine.
   */
  lemma PadsAreFree(pads: Pads, width: nat, g: nat, c: nat)
    requires 0 < width && width % OTP_ELEMENTS == 0 && c < width && forall r, i :: pads(r, i) < WORD
    ensures Choosing(pads, width / OTP_ELEMENTS).PadAt(g * (4 * width), c) == pads(g, c)
  {
    hide BlockOf, Choosing;
    var n, k := width / OTP_ELEMENTS, c / OTP_ELEMENTS;
    PartsOf(pads(g, 4 * k), pads(g, 4 * k + 1), pads(g, 4 * k + 2), pads(g, 4 * k + 3));
    BlockIsChosen(pads, width, g, k);
    assert c == 4 * k + c % OTP_ELEMENTS;
  }

  lemma BlockIsChosen(pads: Pads, width: nat, g: nat, k: nat)
    requires 0 < width && width % OTP_ELEMENTS == 0 && k < width / OTP_ELEMENTS && ChosenBlock(pads, g, k) < TAG
    ensures Choosing(pads, width / OTP_ELEMENTS).Block(0x00, g * (4 * width) + k * OTP_BYTES) == ChosenBlock(pads, g, k)
  {
    hide ChosenBlock;
    BlockAddress(g, k, width / OTP_ELEMENTS, width);
  }

  lemma BlockAddress(g: nat, k: nat, n: nat, width: nat)
    requires k < n && width == OTP_ELEMENTS * n
    ensures var b := (g * (4 * width) + k * OTP_BYTES) / OTP_BYTES; b / n == g && b % n == k
  {
    assert g * (4 * width) == OTP_BYTES * (g * n);
    DivUnique(g * (4 * width) + k * OTP_BYTES, OTP_BYTES, g * n + k, 0);
    DivUnique(g * n + k, n, g, k);
  }

  /** Data pad blocks of different blocks of the tables have different addresses. */
  lemma PadsAreUsedOnce(rows: seq<nat>, width: nat, t: nat, r: nat, c: nat, t': nat, r': nat,
                        c': nat)
    requires t < |rows| && r < rows[t] && c < width && t' < |rows| && r' < rows[t'] && c' < width
    requires width % OTP_ELEMENTS == 0
    requires RowOffset(rows, width, t, r) + c / OTP_ELEMENTS * OTP_BYTES == RowOffset(rows, width, t', r') +
             c' / OTP_ELEMENTS * OTP_BYTES
    ensures t == t' && r == r' && c / OTP_ELEMENTS == c' / OTP_ELEMENTS
    ensures c % OTP_ELEMENTS == c' % OTP_ELEMENTS ==> c == c'
  {
    var g, g' := Sum(rows[..t]) + r, Sum(rows[..t']) + r';
    var n := width / OTP_ELEMENTS;
    RowBlocks(g, width, n);
    RowBlocks(g', width, n);
    FlatInjective(n, g, c / OTP_ELEMENTS, g', c' / OTP_ELEMENTS);
    SameRow(rows, t, r, t', r');
  }

  lemma RowBlocks(g: nat, width: nat, n: nat)
    requires width == OTP_ELEMENTS * n
    ensures g * (4 * width) == OTP_BYTES * Flat(g, n, 0)
  {
  }

  lemma SameRow(rows: seq<nat>, t: nat, r: nat, t': nat, r': nat)
    requires t < |rows| && r < rows[t] && t' < |rows| && r' < rows[t'] && Sum(rows[..t]) + r == Sum(rows[..t']) + r'
    ensures t == t' && r == r'
  {
    if t < t' {
      SumStep(rows, t);
      SumMonotone(rows, t + 1, t');
    } else if t' < t {
      SumStep(rows, t');
      SumMonotone(rows, t' + 1, t);
    }
  }
}
