/** Column-wise traces of ragged index lists (sls/operation/trace_generator_core). */
module TraceGeneratorCores {
  import opened SeqMath

  /** Target-independent instruction: add the row at `address` to output `output`. */
  datatype IR = IR(opcode: nat, output: nat, address: nat)

  /** Both factors are 32-bit in the source, so the product wraps before it is added to the offset. */
  function PhysAddress(row: nat, rowBytes: nat, offset: nat): nat {
    offset + row * rowBytes % 0x1_0000_0000
  }

  /** The address is that of the row if and only if the product fits 32 bits. */
  lemma AddressOfRowIff(row: nat, rowBytes: nat, offset: nat)
    ensures PhysAddress(row, rowBytes, offset) == offset + row * rowBytes <==> row * rowBytes < 0x1_0000_0000
    ensures PhysAddress(0x100_0000, 256, offset) == offset
  {
  }

  /** Lookup number `lookup` of batch number `batch`. */
  datatype Cell = Cell(lookup: nat, batch: nat)

  /** Column `c` of the first `n` rows: one cell for each row longer than `c`. */
  ghost function Column(lens: seq<nat>, c: nat, n: nat): seq<Cell>
    requires n <= |lens|
  {
    if n == 0 then []
    else Column(lens, c, n - 1) + if c < lens[n - 1] then [Cell(c, n - 1)] else []
  }

  /** The first `c` columns, one after the other. */
  ghost function Columns(lens: seq<nat>, c: nat): seq<Cell> {
    if c == 0 then [] else Columns(lens, c - 1) + Column(lens, c - 1, |lens|)
  }

  ghost function MaxLength(lens: seq<nat>): nat {
    if lens == [] then 0
    else
      var m, last := MaxLength(lens[..|lens| - 1]), lens[|lens| - 1];
      if m < last then last else m
  }

  ghost function Transposed(lens: seq<nat>): seq<Cell> {
    Columns(lens, MaxLength(lens))
  }

  lemma {:induction false} MaxLengthBounds(lens: seq<nat>)
    ensures forall b :: 0 <= b < |lens| ==> lens[b] <= MaxLength(lens)
    ensures lens != [] ==> exists b :: 0 <= b < |lens| && lens[b] == MaxLength(lens)
  {
    if lens != [] {
      var i := lens[..|lens| - 1];
      MaxLengthBounds(i);
      if MaxLength(i) < lens[|i|] || i == [] {
        assert lens[|i|] == MaxLength(lens);
      } else {
        var b :| 0 <= b < |i| && i[b] == MaxLength(i);
        assert lens[b] == MaxLength(lens);
      }
    }
  }

  // ----- What the transposed order contains, and in which order.

  ghost predicate Before(x: Cell, y: Cell) {
    x.lookup < y.lookup || (x.lookup == y.lookup && x.batch < y.batch)
  }

  ghost predicate Ordered(cells: seq<Cell>) {
    forall i, j :: 0 <= i < j < |cells| ==> Before(cells[i], cells[j])
  }

  /** Lookup and batch of `x` name a lookup of the lists. */
  ghost predicate IsCell(lens: seq<nat>, x: Cell) {
    x.batch < |lens| && x.lookup < lens[x.batch]
  }

  lemma {:induction false} ColumnCells(lens: seq<nat>, c: nat, n: nat)
    requires n <= |lens|
    ensures Ordered(Column(lens, c, n))
    ensures forall x :: x in Column(lens, c, n) <==> x.lookup == c && x.batch < n && IsCell(lens, x)
  {
    if n > 0 {
      ColumnCells(lens, c, n - 1);
    }
  }

  lemma {:induction false} ColumnsCells(lens: seq<nat>, c: nat)
    ensures Ordered(Columns(lens, c))
    ensures forall x :: x in Columns(lens, c) <==> x.lookup < c && IsCell(lens, x)
  {
    hide Column, Ordered, IsCell;
    if c == 0 {
      NothingOrdered();
    } else {
      ColumnsCells(lens, c - 1);
      ColumnCells(lens, c - 1, |lens|);
      OneMoreColumn(lens, Columns(lens, c - 1), Column(lens, c - 1, |lens|), c - 1);
    }
  }

  lemma NothingOrdered()
    ensures Ordered([])
  {
  }

  lemma OneMoreColumn(lens: seq<nat>, a: seq<Cell>, b: seq<Cell>, c: nat)
    requires Ordered(a) && forall x :: x in a <==> x.lookup < c && IsCell(lens, x)
    requires Ordered(b) && forall x :: x in b <==> x.lookup == c && x.batch < |lens| && IsCell(lens, x)
    ensures Ordered(a + b) && forall x :: x in a + b <==> x.lookup < c + 1 && IsCell(lens, x)
  {
    hide Ordered;
    OrderedConcat(a, b, c);
  }

  lemma OrderedConcat(a: seq<Cell>, b: seq<Cell>, c: nat)
    requires Ordered(a) && Ordered(b)
    requires (forall x :: x in a ==> x.lookup < c) && (forall x :: x in b ==> x.lookup == c)
    ensures Ordered(a + b) && forall x :: x in a + b <==> x in a || x in b
  {
    forall i, j | 0 <= i < j < |a + b|
      ensures Before((a + b)[i], (a + b)[j])
    {
      if i < |a| <= j {
        assert a[i] in a && b[j - |a|] in b;
      }
    }
  }

  /** Every lookup of every batch is emitted, nothing else is, nothing twice, column by column. */
  lemma TransposeIsExact(lens: seq<nat>)
    ensures Ordered(Transposed(lens))
    ensures forall x :: x in Transposed(lens) <==> IsCell(lens, x)
  {
    ColumnsCells(lens, MaxLength(lens));
    MaxLengthBounds(lens);
  }

  // ----- How many cells there are.

  ghost function Cropped(lens: seq<nat>, c: nat): seq<nat> {
    seq(|lens|, b requires 0 <= b < |lens| => if c < lens[b] then c else lens[b])
  }

  lemma {:induction false} ColumnCount(lens: seq<nat>, c: nat, n: nat)
    requires n <= |lens|
    ensures |Column(lens, c, n)| == Sum(Cropped(lens, c + 1)[..n]) - Sum(Cropped(lens, c)[..n])
  {
    if n > 0 {
      ColumnCount(lens, c, n - 1);
      SumStep(Cropped(lens, c + 1), n - 1);
      SumStep(Cropped(lens, c), n - 1);
    }
  }

  lemma {:induction false} ColumnsCount(lens: seq<nat>, c: nat)
    ensures |Columns(lens, c)| == Sum(Cropped(lens, c))
  {
    var crop := Cropped(lens, c);
    assert crop[..|lens|] == crop;
    if c == 0 {
      ZeroSum(crop);
    } else {
      ColumnsCount(lens, c - 1);
      ColumnCount(lens, c - 1, |lens|);
      assert Cropped(lens, c - 1)[..|lens|] == Cropped(lens, c - 1);
    }
  }

  lemma {:induction false} ZeroSum(s: seq<nat>)
    requires forall i :: 0 <= i < |s| ==> s[i] == 0
    ensures Sum(s) == 0
  {
    if s != [] {
      ZeroSum(s[..|s| - 1]);
    }
  }

  lemma TransposeCount(lens: seq<nat>)
    ensures |Transposed(lens)| == Sum(lens)
  {
    ColumnsCount(lens, MaxLength(lens));
    MaxLengthBounds(lens);
    assert Cropped(lens, MaxLength(lens)) == lens;
  }

  // ----- The lookups of one batch keep their order.

  ghost function OfBatch(cells: seq<Cell>, b: nat): seq<nat> {
    if cells == [] then []
    else OfBatch(cells[..|cells| - 1], b) + if cells[|cells| - 1].batch == b then [cells[|cells| - 1].lookup] else []
  }

  lemma {:induction false} OfBatchConcat(x: seq<Cell>, y: seq<Cell>, b: nat)
    ensures OfBatch(x + y, b) == OfBatch(x, b) + OfBatch(y, b)
    decreases |y|
  {
    if y == [] {
      assert x + y == x;
    } else {
      var i := y[..|y| - 1];
      OfBatchConcat(x, i, b);
      assert (x + y)[..|x + y| - 1] == x + i;
    }
  }

  lemma {:induction false} ColumnOfBatch(lens: seq<nat>, c: nat, n: nat, b: nat)
    requires n <= |lens|
    ensures OfBatch(Column(lens, c, n), b) == if b < n && c < lens[b] then [c] else []
  {
    hide OfBatch;
    NoCells(b);
    if n > 0 {
      ColumnOfBatch(lens, c, n - 1, b);
      OfBatchConcat(Column(lens, c, n - 1), if c < lens[n - 1] then [Cell(c, n - 1)] else [], b);
      OfOneCell(Cell(c, n - 1), b);
    }
  }

  lemma OfOneCell(x: Cell, b: nat)
    ensures OfBatch([x], b) == if x.batch == b then [x.lookup] else []
  {
    assert [x][..0] == [];
  }

  lemma NoCells(b: nat)
    ensures OfBatch([], b) == []
  {
  }

  lemma {:induction false} ColumnsOfBatch(lens: seq<nat>, c: nat, b: nat)
    requires b < |lens|
    ensures OfBatch(Columns(lens, c), b) == UpTo(if c < lens[b] then c else lens[b])
  {
    hide OfBatch, Column;
    if c == 0 {
      NoCells(b);
    } else {
      ColumnsOfBatch(lens, c - 1, b);
      ColumnOfBatch(lens, c - 1, |lens|, b);
      OfBatchConcat(Columns(lens, c - 1), Column(lens, c - 1, |lens|), b);
      assert UpTo(c) == UpTo(c - 1) + [c - 1];
    }
  }

  /** For each batch the transposed order visits lookups 0, 1, 2, ... in turn. */
  lemma TransposeKeepsLookupOrder(lens: seq<nat>, b: nat)
    requires b < |lens|
    ensures OfBatch(Transposed(lens), b) == UpTo(lens[b])
  {
    ColumnsOfBatch(lens, MaxLength(lens), b);
    MaxLengthBounds(lens);
  }

  // ----- From cells to instructions.

  ghost function At(s: seq<nat>, i: nat): nat {
    if i < |s| then s[i] else 0
  }

  /** Where the lookups of a table chunk come from, and which outputs they go to. */
  datatype Chunk = Chunk(lens: seq<nat>, index: seq<nat>, base: nat, opcode: nat, offset: nat, rowBytes: nat) {

    ghost function Start(b: nat): nat {
      if b <= |lens| then Sum(lens[..b]) else 0
    }

    /** Lookup j of batch b is element j of the batch's stretch of the index list. */
    ghost function Emit(x: Cell): IR {
      IR(opcode, base + x.batch, PhysAddress(At(index, Start(x.batch) + x.lookup), rowBytes, offset))
    }

    ghost function EmitAll(cells: seq<Cell>): seq<IR> {
      if cells == [] then [] else EmitAll(cells[..|cells| - 1]) + [Emit(cells[|cells| - 1])]
    }

    lemma {:induction false} EmitAllConcat(x: seq<Cell>, y: seq<Cell>)
      ensures EmitAll(x + y) == EmitAll(x) + EmitAll(y)
      decreases |y|
    {
      if y == [] {
        assert x + y == x;
      } else {
        EmitAllConcat(x, y[..|y| - 1]);
        assert (x + y)[..|x + y| - 1] == x + y[..|y| - 1];
      }
    }

    ghost function Trace(): seq<IR> {
      EmitAll(Transposed(lens))
    }

    ghost function Addresses(b: nat, lookups: seq<nat>): seq<nat> {
      seq(|lookups|, i requires 0 <= i < |lookups| => Emit(Cell(lookups[i], b)).address)
    }

    /** Addresses of the lookups of batch `b`, in lookup order. */
    ghost function BatchAddresses(b: nat): seq<nat> {
      Addresses(b, UpTo(if b < |lens| then lens[b] else 0))
    }

    lemma {:induction false} AddressesOfCells(cells: seq<Cell>, b: nat)
      ensures AddressesFor(EmitAll(cells), base + b) == Addresses(b, OfBatch(cells, b))
    {
      if cells != [] {
        AddressesOfCells(cells[..|cells| - 1], b);
      }
    }

    lemma {:induction false} OutputsBelow(cells: seq<Cell>, o: nat)
      requires (forall x :: x in cells ==> x.batch < |lens|) && (o < base || base + |lens| <= o)
      ensures AddressesFor(EmitAll(cells), o) == []
    {
      if cells != [] {
        OutputsBelow(cells[..|cells| - 1], o);
        assert cells[|cells| - 1] in cells;
      }
    }

    lemma {:induction false} EmitAllShape(cells: seq<Cell>)
      ensures |EmitAll(cells)| == |cells|
      ensures forall i :: 0 <= i < |cells| ==> EmitAll(cells)[i] == Emit(cells[i])
    {
      if cells != [] {
        EmitAllShape(cells[..|cells| - 1]);
      }
    }

    /** The device sees, for each output, exactly the rows of its batch, in lookup order. */
    lemma TraceServesEachBatch(b: nat)
      requires b < |lens|
      ensures AddressesFor(Trace(), base + b) == BatchAddresses(b)
    {
      AddressesOfCells(Transposed(lens), b);
      TransposeKeepsLookupOrder(lens, b);
    }

    lemma TraceServesNothingElse(o: nat)
      requires o < base || base + |lens| <= o
      ensures AddressesFor(Trace(), o) == []
    {
      TransposeIsExact(lens);
      OutputsBelow(Transposed(lens), o);
    }

    /** One instruction per lookup, all with the given opcode, all for this chunk's outputs. */
    lemma TraceShape()
      ensures |Trace()| == Sum(lens)
      ensures forall i :: 0 <= i < |Trace()| ==>
              Trace()[i].opcode == opcode && base <= Trace()[i].output < base + |lens|
    {
      TransposeCount(lens);
      TransposeIsExact(lens);
      EmitAllShape(Transposed(lens));
      forall i | 0 <= i < |Trace()|
        ensures Trace()[i].opcode == opcode && base <= Trace()[i].output < base + |lens|
      {
        assert Transposed(lens)[i] in Transposed(lens);
      }
    }

    lemma LookupInRange(x: Cell)
      requires x.batch < |lens| && x.lookup < lens[x.batch] && Sum(lens) <= |index|
      ensures Start(x.batch) + x.lookup < |index|
    {
      SumStep(lens, x.batch);
      SumMonotone(lens, x.batch + 1, x.batch + 1);
    }
  }

  /** Addresses that a trace adds to output `o`, in trace order. */
  ghost function AddressesFor(ir: seq<IR>, o: nat): seq<nat> {
    if ir == [] then []
    else AddressesFor(ir[..|ir| - 1], o) + if ir[|ir| - 1].output == o then [ir[|ir| - 1].address] else []
  }

  lemma {:induction false} AddressesForConcat(x: seq<IR>, y: seq<IR>, o: nat)
    ensures AddressesFor(x + y, o) == AddressesFor(x, o) + AddressesFor(y, o)
    decreases |y|
  {
    if y == [] {
      assert x + y == x;
    } else {
      var i := y[..|y| - 1];
      AddressesForConcat(x, i, o);
      assert (x + y)[..|x + y| - 1] == x + i;
    }
  }

  method WriteObjectTrace(offset: nat, lengths: seq<nat>, lengthAt: nat, count: nat, indices: seq<nat>, indexAt: nat,
                          psumBase: nat, opcode: nat, rowBytes: nat, trace: seq<IR>)
    returns (out: seq<IR>, processed: nat)
    requires lengthAt + count <= |lengths| && indexAt <= |indices|
    requires Sum(lengths[lengthAt..lengthAt + count]) <= |indices[indexAt..]|
    ensures out == trace
      + Chunk(lengths[lengthAt..lengthAt + count], indices[indexAt..], psumBase, opcode, offset, rowBytes).Trace()
    ensures processed == Sum(lengths[lengthAt..lengthAt + count])
  {
    hide Sum, PhysAddress, MaxLength, Column, Chunk.EmitAll;
    ghost var lens := lengths[lengthAt..lengthAt + count];
    ghost var chunk := Chunk(lens, indices[indexAt..], psumBase, opcode, offset, rowBytes);
    out := trace;
    var lookupOffset := 0;
    var hasLookup := true;
    var batchIndexBase := indexAt;
    MaxLengthBounds(lens);
    EmptyEmit(chunk, 0);
    while hasLookup
      invariant if hasLookup then
                  lookupOffset <= MaxLength(lens) && out == trace + chunk.EmitAll(Columns(lens, lookupOffset))
                else
                  out == trace + chunk.Trace() && batchIndexBase == indexAt + Sum(lens)
      decreases MaxLength(lens) + 1 - lookupOffset, hasLookup
    {
      hasLookup := false;
      batchIndexBase := indexAt;
      ghost var before := out;
      SumOfNone(lens);
      EmptyEmit(chunk, lookupOffset);
      for batch := 0 to count
        invariant batchIndexBase == indexAt + Sum(lens[..batch])
        invariant out == before + chunk.EmitAll(Column(lens, lookupOffset, batch))
        invariant !hasLookup ==> out == before
        invariant hasLookup <==> exists b :: 0 <= b < batch && lookupOffset < lens[b]
      {
        EmitColumnStep(chunk, lookupOffset, batch);
        if lookupOffset < lengths[lengthAt + batch] {
          chunk.LookupInRange(Cell(lookupOffset, batch));
          out := out + [IR(opcode, psumBase + batch,
                           PhysAddress(indices[batchIndexBase + lookupOffset], rowBytes, offset))];
          hasLookup := true;
        }
        batchIndexBase := batchIndexBase + lengths[lengthAt + batch];
        SumStep(lens, batch);
      }
      assert lens[..count] == lens;
      chunk.EmitAllConcat(Columns(lens, lookupOffset), Column(lens, lookupOffset, count));
      if !hasLookup {
        LastColumn(lens, lookupOffset);
      }
      lookupOffset := lookupOffset + 1;
    }
    processed := batchIndexBase - indexAt;
  }

  lemma EmitColumnStep(chunk: Chunk, c: nat, n: nat)
    requires n < |chunk.lens|
    ensures chunk.EmitAll(Column(chunk.lens, c, n + 1))
      == chunk.EmitAll(Column(chunk.lens, c, n)) + if c < chunk.lens[n] then [chunk.Emit(Cell(c, n))] else []
  {
    var cells := Column(chunk.lens, c, n + 1);
    if c < chunk.lens[n] {
      assert cells[..|cells| - 1] == Column(chunk.lens, c, n);
    } else {
      assert cells == Column(chunk.lens, c, n);
    }
  }

  lemma EmptyEmit(chunk: Chunk, c: nat)
    ensures chunk.EmitAll(Column(chunk.lens, c, 0)) == [] && chunk.EmitAll([]) == []
  {
  }

  /** The first column that holds no cell ends the transposed order. */
  lemma LastColumn(lens: seq<nat>, c: nat)
    requires c <= MaxLength(lens) && !exists b :: 0 <= b < |lens| && c < lens[b]
    ensures c == MaxLength(lens)
  {
    MaxLengthBounds(lens);
  }
}
