/** A second run of a secure executor, whose host share still holds the first (secure/common/sls_executor). */
module SecureReuse {
  import opened SeqMath
  import opened ExecutionGenerators
  import opened PacksData
  import opened CpuSls
  import opened SecureEncryption
  import opened SecurePreprocessor
  import opened SecureSls
  import opened SecureExecutor

  /** What the first run of an executor, for `earlier`, leaves in the host share. */
  ghost predicate LeftBy(arith: Arith, keys: Keys, rows: seq<nat>, earlier: Request, left: seq<nat>)
    requires earlier.Valid() && |rows| == earlier.numTables
  {
    && |left| == |earlier.lengths| * earlier.featureSize
    && AllServed(arith, PadTables(keys.data, rows, earlier.featureSize), earlier, left,
                 FreshShare(|earlier.lengths|, earlier.featureSize).rows)
  }

  ghost predicate SameShape(earlier: Request, req: Request, rows: seq<nat>)
    requires |rows| == req.numTables
  {
    && earlier.Valid() && earlier.numTables == req.numTables && earlier.miniBatch == req.miniBatch
    && earlier.featureSize == req.featureSize && IndicesInTables(earlier, rows)
  }

  /** After any first run, with any pads, tables and device sums, a run for `req` gives its reductions. */
  ghost predicate AlwaysReduced(req: Request, rows: seq<nat>)
    requires req.Valid() && |rows| == req.numTables
  {
    forall arith: Arith, keys: Keys, plain: seq<Table>, earlier: Request, left: seq<nat>, psum: seq<nat> ::
      && |plain| == |rows| && SameShape(earlier, req, rows) && LeftBy(arith, keys, rows, earlier, left)
      && AllObtained(arith, plain, req, Stale(left, []), psum)
      ==> AllReduced(arith, WRAPPING, plain, req, psum)
  }

  /** No table's last lookup list is empty. */
  ghost predicate ListsEnd(req: Request)
    requires req.Valid()
  {
    forall t :: 0 <= t < req.numTables ==> LastLength(req, t) > 0
  }

  /** An empty last list is skipped. */
  lemma LastIsSkipped(req: Request, t: nat)
    requires req.Valid() && t < req.numTables && LastLength(req, t) == 0
    ensures Skipped(req, Batch(t, req.miniBatch - 1))
  {
    hide Sum;
    var last := Batch(t, req.miniBatch - 1);
    RowOf(req, last);
    SumStep(req.lengths, req.Row(last));
    FlatStep(t, req.miniBatch, req.miniBatch - 1);
  }

  ghost function Ones(n: nat): seq<nat> {
    seq(n, x => 1)
  }

  lemma OnesShow(req: Request, t: nat)
    requires req.Valid() && t < req.numTables && LastLength(req, t) == 0
    ensures !SkippedRowsAreZero(req, Stale(Ones(|req.lengths| * req.featureSize), []))
  {
    hide Skipped;
    var last, w := Batch(t, req.miniBatch - 1), req.featureSize;
    LastIsSkipped(req, t);
    RowOf(req, last);
    FlatInBounds(req.Row(last), |req.lengths|, w, 0);
    assert InRequest(req, last) && Skipped(req, last);
    assert StaleRow(Stale(Ones(|req.lengths| * w), []), req.Row(last), w)[0] == 1;
  }

  /**
   * Whatever the host share holds, a run gives its reductions if and only if no table's last lookup list is empty:
   * a condition on the request alone.
   */
  lemma AnyShareIff(req: Request)
    requires req.Valid()
    ensures (forall stale: Stale :: |stale.rows| == |req.lengths| * req.featureSize ==> SkippedRowsAreZero(req, stale))
       <==> ListsEnd(req)
  {
    hide Skipped, StaleRow;
    if ListsEnd(req) {
      forall b: Batch | InRequest(req, b)
        ensures !Skipped(req, b)
      {
        NothingSkipped(req, b);
      }
    } else {
      var t :| 0 <= t < req.numTables && LastLength(req, t) == 0;
      OnesShow(req, t);
      assert |Stale(Ones(|req.lengths| * req.featureSize), []).rows| == |req.lengths| * req.featureSize;
    }
  }

  // ----- A first run that shows.

  /** An engine whose pads are all one. */
  const ONE_PADS := Engine(0, (prefix, version, address) => 0x1_0000_0001_0000_0001_0000_0001)

  lemma PadsAreOne(offset: nat, c: nat)
    ensures ONE_PADS.PadAt(offset, c) == 1
  {
  }

  /** Every batch looks up row 0. */
  ghost function OneEach(req: Request): Request {
    Request(Ones(|req.lengths|), seq(|req.lengths|, i => 0), req.miniBatch, req.numTables, req.featureSize)
  }

  lemma {:induction false} SumOfOnes(n: nat)
    ensures Sum(Ones(n)) == n
  {
    if n > 0 {
      SumOfOnes(n - 1);
      assert Ones(n)[..n - 1] == Ones(n - 1);
    }
  }

  lemma OneEachIsValid(req: Request, rows: seq<nat>)
    requires req.Valid() && |rows| == req.numTables && forall t :: 0 <= t < |rows| ==> 0 < rows[t]
    ensures SameShape(OneEach(req), req, rows)
    ensures forall b: Batch :: InRequest(OneEach(req), b) ==> IndexList(OneEach(req), b) == [0]
  {
    hide Sum;
    SumOfOnes(|req.lengths|);
    var one := OneEach(req);
    forall b: Batch | InRequest(one, b)
      ensures IndexList(one, b) == [0]
    {
      RowOf(one, b);
    }
  }

  /** A run for it with those pads leaves ones. */
  lemma OneEachLeavesOnes(arith: Arith, keys: Keys, req: Request, rows: seq<nat>)
    requires req.Valid() && |rows| == req.numTables && forall t :: 0 <= t < |rows| ==> 0 < rows[t]
    requires keys.data == ONE_PADS
    ensures OneEach(req).Valid() && LeftBy(arith, keys, rows, OneEach(req), Ones(|req.lengths| * req.featureSize))
  {
    hide Sum, Skipped, RowIs, PadTable, IsReduced, IndexList, IndicesInTables;
    OneEachIsValid(req, rows);
    var one, w := OneEach(req), req.featureSize;
    var pads, left := PadTables(keys.data, rows, w), Ones(|req.lengths| * w);
    forall b: Batch | InRequest(one, b)
      ensures RowServed(arith, pads, one, left, FreshShare(|req.lengths|, w).rows, b)
    {
      LooksUpOne(req, b);
      BatchOfOnes(arith, keys, one, rows, b);
    }
  }

  lemma LooksUpOne(req: Request, b: Batch)
    requires OneEach(req).Valid() && InRequest(OneEach(req), b)
    ensures !Skipped(OneEach(req), b)
  {
    hide Sum, Skipped;
    var one := OneEach(req);
    RowOf(one, Batch(b.table, one.miniBatch - 1));
    NothingSkipped(one, b);
  }

  lemma BatchOfOnes(arith: Arith, keys: Keys, one: Request, rows: seq<nat>, b: Batch)
    requires one.Valid() && InRequest(one, b) && |rows| == one.numTables && keys.data == ONE_PADS
    requires IndexList(one, b) == [0]
    ensures IsReduced(arith, WRAPPING, PadTables(keys.data, rows, one.featureSize), one,
                      Ones(|one.lengths| * one.featureSize), b)
  {
    hide Sum, RowIs, SumOfRows, IndexList, Flat;
    var w := one.featureSize;
    var table := PadTables(keys.data, rows, w)[b.table];
    RowOf(one, b);
    OneRow(arith, table, 0, w);
    OnePadRow(keys, rows, w, b.table);
    assert SumOfRows(arith, WRAPPING, table, [0], w) == Ones(w);
    RowOfOnes(one.Row(b), |one.lengths|, w);
  }

  lemma OnePadRow(keys: Keys, rows: seq<nat>, width: nat, t: nat)
    requires t < |rows| && keys.data == ONE_PADS
    ensures forall c: nat :: PadTables(keys.data, rows, width)[t](0, c) == 1
  {
    forall c: nat
      ensures PadTables(keys.data, rows, width)[t](0, c) == 1
    {
      PadsAreOne(RowOffset(rows, width, t, 0), c);
    }
  }

  lemma OneRow(arith: Arith, table: Table, i: nat, width: nat)
    ensures |SumOfRows(arith, WRAPPING, table, [i], width)| == width
    ensures forall e: nat :: e < width ==> SumOfRows(arith, WRAPPING, table, [i], width)[e] == table(i, e) % WORD
  {
    forall e: nat | e < width
      ensures arith.Fold(WRAPPING, ColumnOf(table, [i], e)) == table(i, e) % WORD
    {
      assert ColumnOf(table, [i], e) == [] + [table(i, e)];
      arith.FoldAppend(WRAPPING, [], table(i, e));
    }
  }

  lemma RowOfOnes(r: nat, rows: nat, width: nat)
    requires r < rows
    ensures RowIs(Ones(rows * width), r, Ones(width))
  {
    RowBound(r, rows, width);
  }

  // ----- What a run obtains, as a buffer.

  ghost function ObtainedAt(arith: Arith, plain: seq<Table>, req: Request, stale: Stale, x: nat): nat
    requires req.Valid() && |plain| == req.numTables
  {
    var row := x / req.featureSize;
    var b := Batch(row / req.miniBatch, row % req.miniBatch);
    if !InRequest(req, b) then 0
    else
      ObtainedWidth(arith, plain, req, stale, b);
      Obtained(arith, plain, req, stale, b)[x % req.featureSize]
  }

  lemma ObtainedBuffer(arith: Arith, plain: seq<Table>, req: Request, stale: Stale) returns (psum: seq<nat>)
    requires req.Valid() && |plain| == req.numTables
    ensures AllObtained(arith, plain, req, stale, psum)
  {
    hide Obtained, ObtainedAt, RowIs, Flat, Sum;
    var w := req.featureSize;
    psum := seq(|req.lengths| * w, x requires 0 <= x => ObtainedAt(arith, plain, req, stale, x));
    forall b: Batch | InRequest(req, b)
      ensures RowIs(psum, req.Row(b), Obtained(arith, plain, req, stale, b))
    {
      ObtainedRowIs(arith, plain, req, stale, b, psum);
    }
  }

  lemma ObtainedRowIs(arith: Arith, plain: seq<Table>, req: Request, stale: Stale, b: Batch, psum: seq<nat>)
    requires req.Valid() && |plain| == req.numTables && InRequest(req, b)
    requires |psum| == |req.lengths| * req.featureSize
    requires forall x: nat :: x < |psum| ==> psum[x] == ObtainedAt(arith, plain, req, stale, x)
    ensures RowIs(psum, req.Row(b), Obtained(arith, plain, req, stale, b))
  {
    hide Obtained, ObtainedAt, RowIs, Flat, Sum;
    var r, row, w := req.Row(b), Obtained(arith, plain, req, stale, b), req.featureSize;
    RowOf(req, b);
    ObtainedWidth(arith, plain, req, stale, b);
    RowBound(r, |req.lengths|, w);
    forall c: nat | c < w
      ensures Flat(r, w, c) < |psum| && psum[Flat(r, w, c)] == row[c]
    {
      FlatInBounds(r, |req.lengths|, w, c);
      ObtainedElement(arith, plain, req, stale, b, c);
    }
    RowFromElements(psum, r, row);
  }

  lemma RowBound(r: nat, rows: nat, width: nat)
    requires r < rows
    ensures r * width + width <= rows * width
  {
    MulMonotone(r + 1, rows, width);
  }

  lemma RowFromElements(psum: seq<nat>, r: nat, row: seq<nat>)
    requires r * |row| + |row| <= |psum| && forall c: nat :: c < |row| ==> psum[Flat(r, |row|, c)] == row[c]
    ensures RowIs(psum, r, row)
  {
  }

  lemma ObtainedElement(arith: Arith, plain: seq<Table>, req: Request, stale: Stale, b: Batch, c: nat)
    requires req.Valid() && |plain| == req.numTables && InRequest(req, b) && c < req.featureSize
    ensures |Obtained(arith, plain, req, stale, b)| == req.featureSize
    ensures ObtainedAt(arith, plain, req, stale, Flat(req.Row(b), req.featureSize, c))
         == Obtained(arith, plain, req, stale, b)[c]
  {
    hide Obtained;
    ObtainedWidth(arith, plain, req, stale, b);
    DivUnique(req.Row(b) * req.featureSize + c, req.featureSize, req.Row(b), c);
    DivUnique(req.Row(b), req.miniBatch, b.table, b.index);
  }

  /**
   * The exact condition on a request for a used executor: whatever was run first, its result is right for all pads
   * and tables if and only if no table's last lookup list is empty.
   */
  lemma ReusedIff(req: Request, rows: seq<nat>)
    requires req.Valid() && |rows| == req.numTables && forall t :: 0 <= t < |rows| ==> 0 < rows[t]
    ensures AlwaysReduced(req, rows) <==> ListsEnd(req)
  {
    hide AllObtained, AllReduced, LeftBy, IndicesInTables, SkippedRowsAreZero, LastLength, Sum;
    AnyShareIff(req);
    if ListsEnd(req) {
      forall arith: Arith, keys: Keys, plain: seq<Table>, earlier: Request, left: seq<nat>, psum: seq<nat> |
        && |plain| == |rows| && SameShape(earlier, req, rows) && LeftBy(arith, keys, rows, earlier, left)
        && AllObtained(arith, plain, req, Stale(left, []), psum)
        ensures AllReduced(arith, WRAPPING, plain, req, psum)
      {
        LeftSize(arith, keys, rows, earlier, req, left);
        ReducedIffStaleZero(arith, plain, req, Stale(left, []), psum);
      }
    } else {
      NotAlwaysReduced(req, rows);
    }
  }

  lemma LeftSize(arith: Arith, keys: Keys, rows: seq<nat>, earlier: Request, req: Request, left: seq<nat>)
    requires req.Valid() && |rows| == req.numTables && SameShape(earlier, req, rows)
    requires LeftBy(arith, keys, rows, earlier, left)
    ensures |left| == |req.lengths| * req.featureSize
  {
    hide AllServed, Sum, IndicesInTables;
  }

  lemma NotAlwaysReduced(req: Request, rows: seq<nat>)
    requires req.Valid() && |rows| == req.numTables && forall t :: 0 <= t < |rows| ==> 0 < rows[t]
    requires !ListsEnd(req)
    ensures !AlwaysReduced(req, rows)
  {
    hide AllObtained, AllReduced, LeftBy, SameShape, SkippedRowsAreZero, LastLength;
    var arith, keys := Arith((a, b) => 0), Keys(ONE_PADS, ONE_PADS, 0);
    var plain: seq<Table> := seq(|rows|, t => (r, c) => 0);
    var left := Ones(|req.lengths| * req.featureSize);
    var t :| 0 <= t < req.numTables && LastLength(req, t) == 0;
    OnesShow(req, t);
    OneEachIsValid(req, rows);
    OneEachLeavesOnes(arith, keys, req, rows);
    var psum := ObtainedBuffer(arith, plain, req, Stale(left, []));
    ReducedIffStaleZero(arith, plain, req, Stale(left, []), psum);
  }

  // ----- What a skipped batch shows.

  /** Batch `b` asks for row `i` only. */
  ghost predicate LooksUp(req: Request, b: Batch, i: nat) {
    req.Valid() && InRequest(req, b) && !Skipped(req, b) && IndexList(req, b) == [i]
  }

  /** The pad of element `c` of row `i` of table `t`. */
  ghost function PadOf(keys: Keys, rows: seq<nat>, width: nat, t: nat, i: nat, c: nat): nat {
    if t < |rows| then keys.data.PadAt(RowOffset(rows, width, t, i), c) else 0
  }

  /** The row of a single lookup in the host share. */
  lemma LookupLeavesPads(arith: Arith, keys: Keys, rows: seq<nat>, earlier: Request, left: seq<nat>, b: Batch, i: nat,
                         c: nat)
    requires LooksUp(earlier, b, i) && c < earlier.featureSize && |rows| == earlier.numTables
    requires LeftBy(arith, keys, rows, earlier, left)
    ensures var x := Flat(earlier.Row(b), earlier.featureSize, c);
      x < |left| && left[x] == PadOf(keys, rows, earlier.featureSize, b.table, i, c)
  {
    hide Skipped, Sum, IndexList, SumOfRows, PadTable, PadOf, RowIs;
    var w, pads := earlier.featureSize, PadTables(keys.data, rows, earlier.featureSize);
    var sums := SumOfRows(arith, WRAPPING, pads[b.table], [i], w);
    OneRow(arith, pads[b.table], i, w);
    assert RowServed(arith, pads, earlier, left, FreshShare(|earlier.lengths|, w).rows, b);
    ElementOfRow(left, earlier.Row(b), sums, c);
    PadInTable(keys, rows, w, b.table, i, c);
    PadBound(keys, rows, w, b.table, i, c);
  }

  lemma PadInTable(keys: Keys, rows: seq<nat>, width: nat, t: nat, i: nat, c: nat)
    requires t < |rows|
    ensures PadTables(keys.data, rows, width)[t](i, c) == PadOf(keys, rows, width, t, i, c)
  {
  }

  lemma ElementOfRow(psum: seq<nat>, r: nat, row: seq<nat>, c: nat)
    requires RowIs(psum, r, row) && c < |row|
    ensures r * |row| + c < |psum| && psum[r * |row| + c] == row[c]
  {
    assert psum[r * |row| + c] == psum[r * |row|..r * |row| + |row|][c];
  }

  lemma LaneBound(e: Engine, address: nat, k: nat)
    requires k < OTP_ELEMENTS
    ensures e.Lane(address, k) < WORD
  {
  }

  /**
   * Two runs on one executor: where the first looked up one row and the second nothing more in that table, the second
   * result is the pads of that row.
   */
  lemma SkippedBatchShowsPads(arith: Arith, keys: Keys, plain: seq<Table>, rows: seq<nat>, earlier: Request,
                              req: Request, left: seq<nat>, psum: seq<nat>, b: Batch, i: nat, c: nat)
    requires req.Valid() && |plain| == |rows| == req.numTables && SameShape(earlier, req, rows)
    requires LeftBy(arith, keys, rows, earlier, left) && AllObtained(arith, plain, req, Stale(left, []), psum)
    requires InRequest(req, b) && Skipped(req, b) && c < req.featureSize && LooksUp(earlier, b, i)
    ensures var x := Flat(req.Row(b), req.featureSize, c);
      x < |psum| && psum[x] == PadOf(keys, rows, req.featureSize, b.table, i, c)
  {
    hide Skipped, PadOf, Sum, IndexList, LeftBy, RowIs, IndicesInTables, LooksUp;
    LookupLeavesPads(arith, keys, rows, earlier, left, b, i, c);
    PadBound(keys, rows, req.featureSize, b.table, i, c);
    var row := StaleRow(Stale(left, []), req.Row(b), req.featureSize);
    assert RowIs(psum, req.Row(b), row);
    ElementOfRow(psum, req.Row(b), row, c);
  }

  lemma PadBound(keys: Keys, rows: seq<nat>, width: nat, t: nat, i: nat, c: nat)
    ensures PadOf(keys, rows, width, t, i, c) < WORD
  {
    if t < |rows| {
      LaneBound(keys.data, RowOffset(rows, width, t, i) + c / OTP_ELEMENTS * OTP_BYTES, c % OTP_ELEMENTS);
    }
  }

  // ----- One table, one batch: first one lookup, then none.

  const FIRST := Request([1], [0], 1, 1, 4)
  const SECOND := Request([0], [], 1, 1, 4)

  lemma NoLookup()
    ensures SECOND.Valid() && Skipped(SECOND, Batch(0, 0))
    ensures FirstBatch(SECOND)
  {
    hide Skipped;
    assert Sum([0]) == 0 by {
      assert [0][..0] == [];
    }
    LastIsSkipped(SECOND, 0);
  }

  ghost predicate FirstBatch(req: Request) {
    InRequest(req, Batch(0, 0)) && req.Row(Batch(0, 0)) == 0
  }

  lemma FirstIsOneEach()
    ensures FIRST == OneEach(SECOND)
  {
    assert Ones(1) == [1];
  }

  lemma OneEachLooksUp(req: Request, rows: seq<nat>)
    requires req.Valid() && |rows| == req.numTables && forall t :: 0 <= t < |rows| ==> 0 < rows[t]
    requires FirstBatch(req)
    ensures var one := OneEach(req);
      SameShape(one, req, rows) && FirstBatch(one) && LooksUp(one, Batch(0, 0), 0)
  {
    hide Sum, Skipped, IndexList;
    var one := OneEach(req);
    OneEachIsValid(req, rows);
    RowOf(one, Batch(0, one.miniBatch - 1));
    NothingSkipped(one, Batch(0, 0));
  }

  /** Two runs on one executor, the second of which skips the first batch. */
  lemma FirstBatchShowsPads(arith: Arith, keys: Keys, plain: seq<Table>, rows: seq<nat>, req: Request, left: seq<nat>,
                            psum: seq<nat>)
    requires req.Valid() && |plain| == |rows| == req.numTables && forall t :: 0 <= t < |rows| ==> 0 < rows[t]
    requires FirstBatch(req) && Skipped(req, Batch(0, 0)) && keys.data == ONE_PADS && OneEach(req).Valid()
    requires LeftBy(arith, keys, rows, OneEach(req), left) && AllObtained(arith, plain, req, Stale(left, []), psum)
    ensures |psum| >= req.featureSize && psum[..req.featureSize] == Ones(req.featureSize)
    ensures !AllReduced(arith, WRAPPING, plain, req, psum)
  {
    hide Engine.PadAt, AllReduced, LeftBy, Skipped, RowIs, AllObtained, SameShape, Sum, IndexList, RowOffset;
    var w := req.featureSize;
    OneEachLooksUp(req, rows);
    forall c: nat | c < w
      ensures c < |psum| && psum[c] == 1
    {
      SkippedBatchShowsPads(arith, keys, plain, rows, OneEach(req), req, left, psum, Batch(0, 0), 0, c);
      PadsAreOne(RowOffset(rows, w, 0, 0), c);
    }
    SkippedBatchShowsPads(arith, keys, plain, rows, OneEach(req), req, left, psum, Batch(0, 0), 0, w - 1);
    FirstElementWrong(arith, plain, req, psum);
  }

  /** The second result is the pad row of the first run and not the zeros that the request asks for. */
  lemma SecondRunShowsPads(arith: Arith, keys: Keys, plain: seq<Table>, left: seq<nat>, psum: seq<nat>)
    requires FIRST.Valid() && SECOND.Valid() && |plain| == 1 && keys.data == ONE_PADS
    requires LeftBy(arith, keys, [1], FIRST, left) && AllObtained(arith, plain, SECOND, Stale(left, []), psum)
    ensures |psum| >= 4 && psum[..4] == [1, 1, 1, 1] && !AllReduced(arith, WRAPPING, plain, SECOND, psum)
  {
    hide *;
    NoLookup();
    FirstIsOneEach();
    FourOnes();
    FirstBatchShowsPads(arith, keys, plain, [1], SECOND, left, psum);
  }

  lemma FourOnes()
    ensures Ones(4) == [1, 1, 1, 1] && SECOND.numTables == 1 && SECOND.featureSize == 4
  {
  }

  lemma FirstElementWrong(arith: Arith, plain: seq<Table>, req: Request, psum: seq<nat>)
    requires req.Valid() && |plain| == req.numTables && FirstBatch(req) && Skipped(req, Batch(0, 0))
    requires psum != [] && psum[0] == 1
    ensures !AllReduced(arith, WRAPPING, plain, req, psum)
  {
    hide Sum, Skipped, RowIs, SumOfRows, IndexList;
    var b, w := Batch(0, 0), req.featureSize;
    SkippedIsEmpty(req, b);
    NoRowsSum(arith, plain[0], w, 0);
    if IsReduced(arith, WRAPPING, plain, req, psum, b) {
      ElementOfRow(psum, 0, SumOfRows(arith, WRAPPING, plain[0], [], w), 0);
    }
  }
}
