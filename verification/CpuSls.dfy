/** The CPU reference reduction (common/cpu_sls). */
module CpuSls {
  import opened SeqMath
  import opened ExecutionGenerators
  import opened PacksData

  const WORD: nat := 0x1_0000_0000

  /**
   * Elements are 32-bit words. The unsigned sum wraps; the float sum is any function that
   * commutes. It need not be associative, so IEEE addition is an instance.
   */
  datatype Arith = Arith(floatAdd: (nat, nat) -> nat) {
    ghost predicate Valid() {
      forall x, y :: floatAdd(x, y) == floatAdd(y, x)
    }

    function Add(opcode: nat, x: nat, y: nat): nat {
      if opcode == 0 then floatAdd(x, y) else (x + y) % WORD
    }

    /** Left fold from zero. */
    ghost function Fold(opcode: nat, values: seq<nat>): nat {
      if values == [] then 0
      else Add(opcode, Fold(opcode, values[..|values| - 1]), values[|values| - 1])
    }

    lemma FoldAppend(opcode: nat, values: seq<nat>, v: nat)
      ensures Fold(opcode, values + [v]) == Add(opcode, Fold(opcode, values), v)
    {
      assert (values + [v])[..|values|] == values;
    }
  }

  /** Opcode 0 adds floats; the others add 32-bit words that wrap. */
  lemma SumsWrap(arith: Arith, x: nat, y: nat)
    ensures arith.Add(0, x, y) == arith.floatAdd(x, y)
    ensures arith.Add(2, 0xFFFF_FFFF, 2) == 1 && arith.Add(3, 0xFFFF_FFFF, 2) == 1
    ensures x + y < 0x1_0000_0000 ==> arith.Add(2, x, y) == arith.Add(3, x, y) == x + y
  {
  }

  /** Contents of one embedding table: row, element. */
  type Table = (nat, nat) -> nat

  /** Element `e` of the rows that `index` names. */
  ghost function ColumnOf(table: Table, index: seq<nat>, e: nat): seq<nat> {
    seq(|index|, j requires 0 <= j < |index| => table(index[j], e))
  }

  ghost predicate InRequest(req: Request, b: Batch) {
    req.Valid() && b.table < req.numTables && b.index < req.miniBatch
  }

  lemma RowOf(req: Request, b: Batch)
    requires InRequest(req, b)
    ensures req.Row(b) < |req.lengths|
    ensures req.FirstIndex(req.Row(b)) + req.lengths[req.Row(b)] <= |req.indices|
  {
    FlatInBounds(b.table, req.numTables, req.miniBatch, b.index);
    SumStep(req.lengths, req.Row(b));
    SumMonotone(req.lengths, req.Row(b) + 1, |req.lengths|);
  }

  /** The table rows that batch `b` asks for. */
  ghost function IndexList(req: Request, b: Batch): seq<nat>
    requires InRequest(req, b)
  {
    RowOf(req, b);
    var first := req.FirstIndex(req.Row(b));
    req.indices[first..first + req.lengths[req.Row(b)]]
  }

  /** The output row of batch `b`: the rows it asks for, summed in lookup order from zero. */
  ghost function Reduction(arith: Arith, opcode: nat, tables: seq<Table>, req: Request, b: Batch): seq<nat>
    requires InRequest(req, b) && |tables| == req.numTables
  {
    SumOfRows(arith, opcode, tables[b.table], IndexList(req, b), req.featureSize)
  }

  /** Row `r` of a buffer of rows as wide as `row` is `row`. */
  ghost predicate RowIs(psum: seq<nat>, r: nat, row: seq<nat>) {
    r * |row| + |row| <= |psum| && psum[r * |row|..r * |row| + |row|] == row
  }

  ghost predicate IsReduced(arith: Arith, opcode: nat, tables: seq<Table>, req: Request, psum: seq<nat>, b: Batch)
    requires InRequest(req, b) && |tables| == req.numTables
  {
    RowIs(psum, req.Row(b), Reduction(arith, opcode, tables, req, b))
  }

  /** Every output row of `psum` holds the reduction of its batch. */
  ghost predicate AllReduced(arith: Arith, opcode: nat, tables: seq<Table>, req: Request, psum: seq<nat>)
    requires req.Valid() && |tables| == req.numTables
  {
    forall b: Batch :: InRequest(req, b) ==> IsReduced(arith, opcode, tables, req, psum, b)
  }

  /** Every index is a row of its table. */
  ghost predicate IndicesInTables(req: Request, rows: seq<nat>)
    requires req.Valid() && |rows| == req.numTables
  {
    forall b: Batch, j :: InRequest(req, b) && 0 <= j < |IndexList(req, b)| ==> IndexList(req, b)[j] < rows[b.table]
  }

  /** Rows of `width` elements of `table`, stored from `begin` on. */
  ghost predicate Stored(data: seq<nat>, begin: nat, width: nat, rows: nat, table: Table) {
    forall i, e :: 0 <= i < rows && 0 <= e < width ==>
      begin + Flat(i, width, e) < |data| && data[begin + Flat(i, width, e)] == table(i, e)
  }

  /** The tables lie one after the other. */
  ghost predicate AllStored(data: seq<nat>, width: nat, rows: seq<nat>, tables: seq<Table>)
    requires |tables| == |rows|
  {
    forall t :: 0 <= t < |rows| ==> Stored(data, Sum(rows[..t]) * width, width, rows[t], tables[t])
  }

  /** `psum` is `before` with the row at `at` replaced by `row`. */
  ghost predicate RowReplaced(psum: seq<nat>, before: seq<nat>, at: nat, row: seq<nat>) {
    && |psum| == |before| && at + |row| <= |psum|
    && (forall x :: 0 <= x < |psum| && !(at <= x < at + |row|) ==> psum[x] == before[x])
    && (forall x :: at <= x < at + |row| ==> psum[x] == row[x - at])
  }

  /** The sums of the rows that `index` names, element by element. */
  ghost function SumOfRows(arith: Arith, opcode: nat, table: Table, index: seq<nat>, width: nat): seq<nat> {
    seq(width, e requires 0 <= e => arith.Fold(opcode, ColumnOf(table, index, e)))
  }

  /** `Reduction::common`: zero the output row, then add the indexed rows one by one. */
  method Common(arith: Arith, opcode: nat, ghost table: Table, ghost rows: nat, data: seq<nat>, begin: nat, width: nat,
                index: seq<nat>, psum: array<nat>, at: nat)
    requires Stored(data, begin, width, rows, table)
    requires forall j :: 0 <= j < |index| ==> index[j] < rows
    requires at + width <= psum.Length
    modifies psum
    ensures RowReplaced(psum[..], old(psum[..]), at, SumOfRows(arith, opcode, table, index, width))
  {
    for x := at to at + width
      invariant forall y :: at <= y < x ==> psum[y] == 0
      invariant forall y :: 0 <= y < psum.Length && !(at <= y < x) ==> psum[y] == old(psum[y])
    {
      psum[x] := 0;
    }
    for j := 0 to |index|
      invariant RowReplaced(psum[..], old(psum[..]), at, SumOfRows(arith, opcode, table, index[..j], width))
    {
      AddRow(arith, opcode, table, rows, data, begin, width, index, j, psum, at);
    }
    assert index[..|index|] == index;
  }

  method AddRow(arith: Arith, opcode: nat, ghost table: Table, ghost rows: nat, data: seq<nat>, begin: nat, width: nat,
                index: seq<nat>, j: nat, psum: array<nat>, at: nat)
    requires Stored(data, begin, width, rows, table) && j < |index| && index[j] < rows
    requires at + width <= psum.Length
    requires psum[at..at + width] == SumOfRows(arith, opcode, table, index[..j], width)
    modifies psum
    ensures RowReplaced(psum[..], old(psum[..]), at, SumOfRows(arith, opcode, table, index[..j + 1], width))
  {
    hide Arith.Fold, Arith.Add;
    ghost var before, after := SumOfRows(arith, opcode, table, index[..j], width),
      SumOfRows(arith, opcode, table, index[..j + 1], width);
    assert forall x :: at <= x < at + width ==> psum[x] == psum[at..at + width][x - at];
    for e := 0 to width
      invariant forall x :: at <= x < at + e ==> psum[x] == after[x - at]
      invariant forall x :: at + e <= x < at + width ==> psum[x] == before[x - at]
      invariant forall x :: 0 <= x < psum.Length && !(at <= x < at + width) ==> psum[x] == old(psum[x])
    {
      assert data[begin + Flat(index[j], width, e)] == table(index[j], e);
      assert ColumnOf(table, index[..j + 1], e) == ColumnOf(table, index[..j], e) + [table(index[j], e)];
      arith.FoldAppend(opcode, ColumnOf(table, index[..j], e), table(index[j], e));
      assert after[e] == arith.Add(opcode, before[e], table(index[j], e));
      psum[at + e] := arith.Add(opcode, psum[at + e], data[begin + (index[j] * width + e)]);
    }
  }

  lemma RowReplacedRows(psum: seq<nat>, before: seq<nat>, r: nat, row: seq<nat>)
    requires RowReplaced(psum, before, r * |row|, row)
    ensures RowIs(psum, r, row)
  {
  }

  lemma OtherRowsKept(psum: seq<nat>, before: seq<nat>, r: nat, row: seq<nat>, q: nat,
                      other: seq<nat>)
    requires RowReplaced(psum, before, r * |row|, row) && RowIs(before, q, other) && |other| == |row| && q != r
    ensures RowIs(psum, q, other)
  {
    MulCompare(q, r, |row|);
    assert psum[q * |row|..q * |row| + |row|] == before[q * |row|..q * |row| + |row|];
  }

  /** Rows below `done` are reduced. */
  ghost predicate ReducedBelow(arith: Arith, opcode: nat, tables: seq<Table>, req: Request, psum: seq<nat>, done: nat)
    requires req.Valid() && |tables| == req.numTables
  {
    forall b: Batch :: InRequest(req, b) && req.Row(b) < done ==> IsReduced(arith, opcode, tables, req, psum, b)
  }

  lemma ReduceNext(arith: Arith, opcode: nat, tables: seq<Table>, req: Request, before: seq<nat>,
                   psum: seq<nat>, b: Batch)
    requires InRequest(req, b) && |tables| == req.numTables
    requires ReducedBelow(arith, opcode, tables, req, before, req.Row(b))
    requires RowReplaced(psum, before, req.Row(b) * req.featureSize, Reduction(arith, opcode, tables, req, b))
    ensures ReducedBelow(arith, opcode, tables, req, psum, req.Row(b) + 1)
  {
    var row := Reduction(arith, opcode, tables, req, b);
    RowReplacedRows(psum, before, req.Row(b), row);
    forall c: Batch | InRequest(req, c) && req.Row(c) < req.Row(b) + 1
      ensures IsReduced(arith, opcode, tables, req, psum, c)
    {
      if req.Row(c) == req.Row(b) {
        FlatInjective(req.miniBatch, c.table, c.index, b.table, b.index);
      } else {
        OtherRowsKept(psum, before, req.Row(b), row, req.Row(c), Reduction(arith, opcode, tables, req, c));
      }
    }
  }

  /** One step of the batch loop; `r` is the output row of batch `b`. */
  method ComputeBatch(arith: Arith, opcode: nat, ghost tables: seq<Table>, ghost req: Request, ghost b: Batch,
                      ghost r: nat, ghost rows: seq<nat>, data: seq<nat>, tableBegin: nat, indices: seq<nat>,
                      indexBegin: nat, length: nat, width: nat, psum: array<nat>, at: nat)
    requires InRequest(req, b) && |tables| == |rows| == req.numTables && IndicesInTables(req, rows)
    requires indices == req.indices && width == req.featureSize
    requires Stored(data, tableBegin, width, rows[b.table], tables[b.table])
    requires r == req.Row(b) < |req.lengths| && indexBegin == req.FirstIndex(r) && length == req.lengths[r]
    requires at == r * width && at + width <= psum.Length
    requires ReducedBelow(arith, opcode, tables, req, psum[..], r)
    modifies psum
    ensures ReducedBelow(arith, opcode, tables, req, psum[..], r + 1)
  {
    hide SumOfRows, Stored, Sum, ReducedBelow, Flat;
    RowOf(req, b);
    var index := indices[indexBegin..indexBegin + length];
    assert index == IndexList(req, b);
    Common(arith, opcode, tables[b.table], rows[b.table], data, tableBegin, width, index, psum, at);
    SumOfRowsWidth(arith, opcode, tables[b.table], index, width);
    ReduceNext(arith, opcode, tables, req, old(psum[..]), psum[..], b);
  }

  lemma SumOfRowsWidth(arith: Arith, opcode: nat, table: Table, index: seq<nat>, width: nat)
    ensures |SumOfRows(arith, opcode, table, index, width)| == width
  {
  }

  /** `Reduction::compute`: table by table and batch by batch, advancing the table, index, length and psum pointers. */
  method Compute(arith: Arith, opcode: nat, ghost tables: seq<Table>, ghost req: Request,
                 data: seq<nat>, rows: seq<nat>, indices: seq<nat>, lengths: seq<nat>, width: nat, miniBatch: nat,
                 psum: array<nat>)
    requires req == Request(lengths, indices, miniBatch, |rows|, width) && req.Valid()
    requires |tables| == |rows| && AllStored(data, width, rows, tables) && IndicesInTables(req, rows)
    requires psum.Length >= Flat(|lengths|, width, 0)
    modifies psum
    ensures AllReduced(arith, opcode, tables, req, psum[..])
  {
    hide Stored, Sum, IsReduced, IndicesInTables, Flat;
    var tableBegin, indexBegin, length, at := 0, 0, 0, 0;
    SumOfNone(rows);
    SumOfNone(lengths);
    FlatZero(miniBatch);
    FlatZero(width);
    FlatIsProduct(|rows|, miniBatch);
    for t := 0 to |rows|
      invariant length == Flat(t, miniBatch, 0) <= |lengths| && at == Flat(length, width, 0)
      invariant indexBegin == req.FirstIndex(length) && tableBegin == Sum(rows[..t]) * width
      invariant ReducedBelow(arith, opcode, tables, req, psum[..], length)
    {
      FlatNext(t, miniBatch, |rows|);
      for i := 0 to miniBatch
        invariant length == Flat(t, miniBatch, i) <= |lengths| && at == Flat(length, width, 0)
        invariant indexBegin == req.FirstIndex(length)
        invariant ReducedBelow(arith, opcode, tables, req, psum[..], length)
      {
        RowOf(req, Batch(t, i));
        FlatNext(length, width, |lengths|);
        FlatIsProduct(length, width);
        ComputeBatch(arith, opcode, tables, req, Batch(t, i), length, rows, data, tableBegin, indices, indexBegin,
                     lengths[length], width, psum, at);
        SumStep(lengths, length);
        at := at + width;
        indexBegin := indexBegin + lengths[length];
        length := length + 1;
        FlatStep(t, miniBatch, i);
      }
      SumStep(rows, t);
      tableBegin := tableBegin + rows[t] * width;
    }
    AllBelow(arith, opcode, tables, req, psum[..]);
  }

  lemma AllBelow(arith: Arith, opcode: nat, tables: seq<Table>, req: Request, psum: seq<nat>)
    requires req.Valid() && |tables| == req.numTables && ReducedBelow(arith, opcode, tables, req, psum, |req.lengths|)
    ensures AllReduced(arith, opcode, tables, req, psum)
  {
    forall b: Batch | InRequest(req, b)
      ensures IsReduced(arith, opcode, tables, req, psum, b)
    {
      RowOf(req, b);
    }
  }
}
