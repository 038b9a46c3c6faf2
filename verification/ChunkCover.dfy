/** The chunks of all executions of all packs tile the user's output. */
module ChunkCover {
  import opened SeqMath
  import opened ExecutionGenerators
  import opened PacksData

  /** Position of a table chunk: pack, execution in that pack, table in the execution. */
  datatype Place = Place(pack: nat, exec: nat, table: nat)

  /** A request together with the layout of its tables and the executions generated for it. */
  datatype Plan = Plan(req: Request, job: Job, layout: seq<seq<nat>>, execs: seq<seq<Execution>>) {

    ghost predicate Valid() {
      && req.Valid()
      && job.lengths == req.lengths && job.miniBatch == req.miniBatch && job.starts == []
      && |execs| == |layout|
      && DistinctTables(layout) && TablesBelow(layout, req.numTables)
      && (forall t :: 0 <= t < req.numTables ==> TablePlaced(layout, t))
      && (forall p :: 0 < p < |layout| ==> job.GoodPack(layout[p], execs[p]))
    }

    ghost predicate IsPlace(c: Place) {
      0 < c.pack < |execs| && c.exec < |execs[c.pack]| && c.table < |execs[c.pack][c.exec].tables|
    }

    ghost function At(c: Place): TableData
      requires IsPlace(c)
    {
      execs[c.pack][c.exec].tables[c.table]
    }

    ghost predicate Covers(c: Place, b: Batch)
      requires IsPlace(c)
    {
      At(c).tableId == b.table && At(c).batchOffset <= b.index < At(c).batchOffset + At(c).chunk
    }

    /** Where batch `b` stands in the flat batch sequence of its pack, when chunk `c` covers it. */
    ghost function Position(c: Place, b: Batch): nat
      requires IsPlace(c) && Covers(c, b)
    {
      |Flatten(Parts(execs[c.pack])[..c.exec])| + |Expand(execs[c.pack][c.exec].tables[..c.table])|
      + (b.index - At(c).batchOffset)
    }

    lemma PositionHolds(c: Place, b: Batch)
      requires Valid() && IsPlace(c) && Covers(c, b)
      ensures Position(c, b) < |PackBatches(layout[c.pack], req.miniBatch)|
      ensures PackBatches(layout[c.pack], req.miniBatch)[Position(c, b)] == b
    {
      hide Flatten, Expand, PackBatches, Job.GoodExecution, Job.Greedy, DistinctTables, TablesBelow;
      var parts := Parts(execs[c.pack]);
      FlattenPrefix(parts, c.exec);
      ExpandAt(execs[c.pack][c.exec].tables, c.table, b.index - At(c).batchOffset);
      var n, whole := |Flatten(parts[..c.exec])|, Flatten(parts);
      assert whole[n..n + |parts[c.exec]|][Position(c, b) - n] == whole[Position(c, b)];
    }

    /** A chunk never reaches beyond its table's mini-batch. */
    lemma ChunkStaysInTable(c: Place)
      requires Valid() && IsPlace(c)
      ensures ChunkInTable(req, At(c))
    {
      hide Job.Greedy, Job.Fits, DistinctTables;
      var td := At(c);
      assert job.GoodExecution(execs[c.pack][c.exec]);
      var last := Batch(td.tableId, td.batchOffset + td.chunk - 1);
      PositionHolds(c, last);
      PackBatchesMember(layout[c.pack], req.miniBatch, last);
    }

    lemma AllChunksInTables(p: nat)
      requires Valid() && 0 < p < |execs|
      ensures ChunksInTables(req, execs[p])
    {
      forall e, k | 0 <= e < |execs[p]| && 0 <= k < |execs[p][e].tables|
        ensures ChunkInTable(req, execs[p][e].tables[k])
      {
        ChunkStaysInTable(Place(p, e, k));
      }
    }

    /** No batch is computed twice. */
    lemma AtMostOneChunk(c: Place, d: Place, b: Batch)
      requires Valid() && IsPlace(c) && IsPlace(d) && Covers(c, b) && Covers(d, b)
      ensures c == d
    {
      hide Flatten, Expand, PackBatches, Job.GoodPack, DistinctTables, TablesBelow;
      PositionHolds(c, b);
      PositionHolds(d, b);
      SamePack(c.pack, d.pack, b);
      PackBatchesDistinct(layout[c.pack], req.miniBatch, Position(c, b), Position(d, b), layout, c.pack);
      SamePosition(c, d, b);
    }

    lemma SamePack(p: nat, q: nat, b: Batch)
      requires Valid() && 0 < p < |layout| && 0 < q < |layout|
      requires b in PackBatches(layout[p], req.miniBatch) && b in PackBatches(layout[q], req.miniBatch)
      ensures p == q
    {
      PackBatchesMember(layout[p], req.miniBatch, b);
      PackBatchesMember(layout[q], req.miniBatch, b);
    }

    /** Positions in one pack determine the chunk. */
    lemma SamePosition(c: Place, d: Place, b: Batch)
      requires IsPlace(c) && IsPlace(d) && Covers(c, b) && Covers(d, b)
      requires c.pack == d.pack && Position(c, b) == Position(d, b)
      ensures c == d
    {
      hide Flatten, Expand;
      var parts := Parts(execs[c.pack]);
      PositionInPart(c, b);
      PositionInPart(d, b);
      if c.exec < d.exec {
        FlattenGrows(parts, c.exec + 1, d.exec);
      } else if d.exec < c.exec {
        FlattenGrows(parts, d.exec + 1, c.exec);
      } else if c.table < d.table {
        ExpandGrows(execs[c.pack][c.exec].tables, c.table + 1, d.table);
      } else if d.table < c.table {
        ExpandGrows(execs[c.pack][c.exec].tables, d.table + 1, c.table);
      }
    }

    lemma PositionInPart(c: Place, b: Batch)
      requires IsPlace(c) && Covers(c, b)
      ensures var parts, ts := Parts(execs[c.pack]), execs[c.pack][c.exec].tables;
        && |Flatten(parts[..c.exec])| + |Expand(ts[..c.table])| <= Position(c, b)
        && Position(c, b) < |Flatten(parts[..c.exec])| + |Expand(ts[..c.table + 1])| <= |Flatten(parts[..c.exec + 1])|
    {
      var parts, ts := Parts(execs[c.pack]), execs[c.pack][c.exec].tables;
      FlattenPrefix(parts, c.exec);
      assert ts[..c.table + 1][..c.table] == ts[..c.table];
      ExpandGrows(ts, c.table + 1, |ts|);
      assert ts[..|ts|] == ts;
    }

    /** Every batch of every table is computed. */
    lemma SomeChunk(b: Batch) returns (c: Place)
      requires Valid() && b.table < req.numTables && b.index < req.miniBatch
      ensures IsPlace(c) && Covers(c, b)
    {
      hide Flatten, Expand, PackBatches, Job.GoodExecution, Job.Greedy, DistinctTables, TablesBelow;
      assert TablePlaced(layout, b.table);
      var p, k :| 0 < p < |layout| && 0 <= k < |layout[p]| && layout[p][k] == b.table;
      PackBatchesContains(layout[p], req.miniBatch, k, b.index);
      assert b in Flatten(Parts(execs[p]));
      var e := PartOf(Parts(execs[p]), b);
      var j := ChunkOf(execs[p][e].tables, b);
      c := Place(p, e, j);
    }

    /** Exactly one chunk for each batch of each table. */
    lemma ExactlyOneChunk(b: Batch)
      requires Valid() && b.table < req.numTables && b.index < req.miniBatch
      ensures exists c :: IsPlace(c) && Covers(c, b) && forall d :: IsPlace(d) && Covers(d, b) ==> d == c
    {
      var c := SomeChunk(b);
      forall d | IsPlace(d) && Covers(d, b)
        ensures d == c
      {
        AtMostOneChunk(d, c, b);
      }
    }
  
    // ----- The same in terms of the user's buffer.

    /** Element `x` of the psum part belongs to the output of chunk `c`. */
    ghost predicate Writes(c: Place, x: nat)
      requires Valid() && IsPlace(c)
    {
      ChunkStaysInTable(c);
      RowInRange(At(c));
      var from := ChunkAddresses(req, At(c)).psumAt;
      from <= x < from + At(c).chunk * req.featureSize
    }

    lemma RowInRange(td: TableData)
      requires req.Valid() && ChunkInTable(req, td)
      ensures req.Row(Batch(td.tableId, td.batchOffset)) <= |req.lengths|
    {
      MulMonotone(td.tableId + 1, req.numTables, req.miniBatch);
    }

    /** An element belongs to a chunk's output exactly when the chunk covers the batch of the element's row. */
    lemma WritesIffCovers(c: Place, b: Batch, column: nat)
      requires Valid() && IsPlace(c) && b.index < req.miniBatch && column < req.featureSize
      ensures Writes(c, Flat(req.Row(b), req.featureSize, column)) <==> Covers(c, b)
    {
      hide Job.GoodPack, DistinctTables, TablesBelow;
      var td := At(c);
      ChunkStaysInTable(c);
      RowInRange(td);
      var r0, r := req.Row(Batch(td.tableId, td.batchOffset)), req.Row(b);
      ElementInRows(r0, td.chunk, r, column, req.featureSize);
      RowInChunk(td, b);
    }

    lemma ElementInRows(r0: nat, rows: nat, r: nat, column: nat, width: nat)
      requires column < width
      ensures r0 * width <= Flat(r, width, column) < r0 * width + rows * width <==> r0 <= r < r0 + rows
    {
      MulMonotone(r0, r, width);
      MulMonotone(r + 1, r0, width);
      MulMonotone(r + 1, r0 + rows, width);
      MulMonotone(r0 + rows, r, width);
    }

    lemma RowInChunk(td: TableData, b: Batch)
      requires req.Valid() && ChunkInTable(req, td) && b.index < req.miniBatch
      ensures var r0, r := req.Row(Batch(td.tableId, td.batchOffset)), req.Row(b);
        r0 <= r < r0 + td.chunk <==> td.tableId == b.table && td.batchOffset <= b.index < td.batchOffset + td.chunk
    {
      MulCompare(td.tableId, b.table, req.miniBatch);
    }

    /** Outputs of different chunks never overlap. */
    lemma OutputsDisjoint(c: Place, d: Place, x: nat)
      requires Valid() && IsPlace(c) && IsPlace(d) && Writes(c, x) && Writes(d, x)
      ensures c == d
    {
      hide Job.GoodPack, DistinctTables, TablesBelow;
      var b, column := BatchOfElement(c, x);
      WritesIffCovers(c, b, column);
      WritesIffCovers(d, b, column);
      AtMostOneChunk(c, d, b);
    }

    lemma BatchOfElement(c: Place, x: nat) returns (b: Batch, column: nat)
      requires Valid() && IsPlace(c) && Writes(c, x)
      ensures b.table < req.numTables && b.index < req.miniBatch && column < req.featureSize
      ensures x == Flat(req.Row(b), req.featureSize, column)
    {
      hide Job.GoodPack, DistinctTables, TablesBelow, TablePlaced, Flat;
      ChunkStaysInTable(c);
      RowsOfChunk(At(c));
      var r0 := req.Row(Batch(At(c).tableId, At(c).batchOffset));
      RowsInBuffer(r0, At(c).chunk, |req.lengths|, req.featureSize);
      b, column := ElementOf(x, req.featureSize);
    }

    lemma RowsOfChunk(td: TableData)
      requires req.Valid() && ChunkInTable(req, td)
      ensures req.Row(Batch(td.tableId, td.batchOffset)) + td.chunk <= |req.lengths|
    {
      MulMonotone(td.tableId + 1, req.numTables, req.miniBatch);
    }

    lemma ElementOf(x: nat, width: nat) returns (b: Batch, column: nat)
      requires req.Valid() && 0 < width && x < |req.lengths| * width
      ensures b.table < req.numTables && b.index < req.miniBatch && column < width
      ensures x == Flat(req.Row(b), width, column)
    {
      var row, col := FlatSurjective(width, |req.lengths|, x);
      var t, i := FlatSurjective(req.miniBatch, req.numTables, row);
      b, column := Batch(t, i), col;
    }

    /** Together the outputs fill the psum part of the user's buffer. */
    lemma OutputsComplete(x: nat)
      requires Valid() && x < |req.lengths| * req.featureSize
      ensures exists c :: IsPlace(c) && Writes(c, x)
    {
      hide Job.GoodPack, DistinctTables, TablesBelow;
      var b, column := ElementOf(x, req.featureSize);
      var c := SomeChunk(b);
      WritesIffCovers(c, b, column);
    }

    // ----- The number of executions.

    /** No other split of the packs within the two limits has fewer executions in any pack. */
    ghost predicate Fewest() {
      && |execs| == |layout|
      && forall p, other ::
           0 < p < |execs| && job.WithinLimits(other) && Flatten(other) == PackBatches(layout[p], req.miniBatch)
           ==> |execs[p]| <= |other|
    }

    lemma PlanHasFewest()
      requires Valid()
      ensures Fewest()
    {
      hide Flatten, PackBatches, Job.GoodPack, Job.WithinLimits, DistinctTables, TablesBelow, TablePlaced;
      forall p, other | 0 < p < |execs| && job.WithinLimits(other)
        && Flatten(other) == PackBatches(layout[p], req.miniBatch)
        ensures |execs[p]| <= |other|
      {
        job.FewestExecutions(layout[p], execs[p], other);
      }
    }

    // ----- The tags behind the psum part.

    ghost function PsumSize(): nat {
      |req.lengths| * req.featureSize
    }

    /** Element `x` belongs to the tags of chunk `c`. */
    ghost predicate WritesTag(c: Place, x: nat)
      requires Valid() && IsPlace(c)
    {
      ChunkStaysInTable(c);
      RowInRange(At(c));
      var from := ChunkAddresses(req, At(c)).tagsAt;
      from <= x < from + At(c).chunk * TAG_ELEMENTS
    }

    lemma WritesTagIffCovers(c: Place, b: Batch, column: nat)
      requires Valid() && IsPlace(c) && b.index < req.miniBatch && column < TAG_ELEMENTS
      ensures WritesTag(c, PsumSize() + Flat(req.Row(b), TAG_ELEMENTS, column)) <==> Covers(c, b)
    {
      hide Job.GoodPack, DistinctTables, TablesBelow;
      var td := At(c);
      ChunkStaysInTable(c);
      RowInRange(td);
      ElementInRows(req.Row(Batch(td.tableId, td.batchOffset)), td.chunk, req.Row(b), column, TAG_ELEMENTS);
      RowInChunk(td, b);
    }

    /** The tags lie behind all psum elements, four elements per batch. */
    lemma TagsBehindPsum(c: Place, x: nat)
      requires Valid() && IsPlace(c)
      ensures Writes(c, x) ==> x < PsumSize()
      ensures WritesTag(c, x) ==> PsumSize() <= x < PsumSize() + 4 * |req.lengths|
    {
      hide Job.GoodPack, DistinctTables, TablesBelow, TablePlaced, Flat;
      ChunkStaysInTable(c);
      RowsOfChunk(At(c));
      var r0 := req.Row(Batch(At(c).tableId, At(c).batchOffset));
      RowsInBuffer(r0, At(c).chunk, |req.lengths|, req.featureSize);
    }

    /** Tags of different chunks never overlap. */
    lemma TagsDisjoint(c: Place, d: Place, x: nat)
      requires Valid() && IsPlace(c) && IsPlace(d) && WritesTag(c, x) && WritesTag(d, x)
      ensures c == d
    {
      hide Job.GoodPack, DistinctTables, TablesBelow, WritesTag, Writes, Flat;
      TagsBehindPsum(c, x);
      var b, column := ElementOf(x - PsumSize(), TAG_ELEMENTS);
      WritesTagIffCovers(c, b, column);
      WritesTagIffCovers(d, b, column);
      AtMostOneChunk(c, d, b);
    }

    /** Together they fill the part behind the psum. */
    lemma TagsComplete(x: nat)
      requires Valid() && PsumSize() <= x < PsumSize() + 4 * |req.lengths|
      ensures exists c :: IsPlace(c) && WritesTag(c, x)
    {
      hide Job.GoodPack, DistinctTables, TablesBelow;
      var b, column := ElementOf(x - PsumSize(), TAG_ELEMENTS);
      var c := SomeChunk(b);
      WritesTagIffCovers(c, b, column);
    }
  }

  lemma RowsInBuffer(r: nat, rows: nat, all: nat, width: nat)
    requires r + rows <= all
    ensures r * width + rows * width <= all * width
  {
    MulMonotone(r + rows, all, width);
  }

  lemma {:induction false} FlattenGrows(parts: seq<seq<Batch>>, i: nat, j: nat)
    requires i <= j <= |parts|
    ensures |Flatten(parts[..i])| <= |Flatten(parts[..j])|
    decreases j - i
  {
    if i < j {
      FlattenGrows(parts, i, j - 1);
      assert parts[..j][..j - 1] == parts[..j - 1];
    }
  }

  lemma {:induction false} ExpandGrows(ts: seq<TableData>, i: nat, j: nat)
    requires i <= j <= |ts|
    ensures |Expand(ts[..i])| <= |Expand(ts[..j])|
    decreases j - i
  {
    if i < j {
      ExpandGrows(ts, i, j - 1);
      assert ts[..j][..j - 1] == ts[..j - 1];
    }
  }

  /** Batch i of chunk k stands right after the batches of the earlier chunks. */
  lemma {:induction false} ExpandAt(ts: seq<TableData>, k: nat, i: nat)
    requires k < |ts| && i < ts[k].chunk
    ensures |Expand(ts[..k])| + i < |Expand(ts)|
    ensures Expand(ts)[|Expand(ts[..k])| + i] == Batch(ts[k].tableId, ts[k].batchOffset + i)
  {
    var init := ts[..|ts| - 1];
    if k < |init| {
      ExpandAt(init, k, i);
      assert init[..k] == ts[..k];
    }
  }

  lemma {:induction false} PartOf(parts: seq<seq<Batch>>, b: Batch) returns (e: nat)
    requires b in Flatten(parts)
    ensures e < |parts| && b in parts[e]
  {
    if b in parts[|parts| - 1] {
      e := |parts| - 1;
    } else {
      e := PartOf(parts[..|parts| - 1], b);
    }
  }

  lemma {:induction false} ChunkOf(ts: seq<TableData>, b: Batch) returns (k: nat)
    requires b in Expand(ts)
    ensures k < |ts| && ts[k].tableId == b.table && ts[k].batchOffset <= b.index < ts[k].batchOffset + ts[k].chunk
  {
    var last := ts[|ts| - 1];
    if b in Run(last.tableId, last.batchOffset, last.chunk) {
      k := |ts| - 1;
    } else {
      k := ChunkOf(ts[..|ts| - 1], b);
    }
  }

  /** Batch b of table number k stands at row k * miniBatch + b. */
  lemma {:induction false} PackBatchesAt(layout: seq<nat>, miniBatch: nat, k: nat, b: nat)
    requires k < |layout| && b < miniBatch
    ensures |PackBatches(layout, miniBatch)| == |layout| * miniBatch
    ensures Flat(k, miniBatch, b) < |PackBatches(layout, miniBatch)|
    ensures PackBatches(layout, miniBatch)[Flat(k, miniBatch, b)] == Batch(layout[k], b)
  {
    var init := layout[..|layout| - 1];
    PackBatchesLength(init, miniBatch);
    if k < |init| {
      PackBatchesAt(init, miniBatch, k, b);
    }
  }

  lemma {:induction false} PackBatchesLength(layout: seq<nat>, miniBatch: nat)
    ensures |PackBatches(layout, miniBatch)| == |layout| * miniBatch
  {
    if layout != [] {
      var n := |layout| - 1;
      PackBatchesLength(layout[..n], miniBatch);
      assert |Run(layout[n], 0, miniBatch)| == miniBatch;
      FlatNext(n, miniBatch, n + 1);
      FlatIsProduct(n, miniBatch);
      FlatIsProduct(n + 1, miniBatch);
    }
  }

  lemma PackBatchesContains(layout: seq<nat>, miniBatch: nat, k: nat, b: nat)
    requires k < |layout| && b < miniBatch
    ensures Batch(layout[k], b) in PackBatches(layout, miniBatch)
  {
    PackBatchesAt(layout, miniBatch, k, b);
  }

  lemma {:induction false} PackBatchesMember(layout: seq<nat>, miniBatch: nat, b: Batch)
    requires b in PackBatches(layout, miniBatch)
    ensures b.table in layout && b.index < miniBatch
  {
    if b !in Run(layout[|layout| - 1], 0, miniBatch) {
      PackBatchesMember(layout[..|layout| - 1], miniBatch, b);
    }
  }

  /** A pack lists no batch twice. */
  lemma PackBatchesDistinct(layout: seq<nat>, miniBatch: nat, i: nat, j: nat, layouts: seq<seq<nat>>,
                            p: nat)
    requires DistinctTables(layouts) && p < |layouts| && layouts[p] == layout && 0 < miniBatch
    requires i < |PackBatches(layout, miniBatch)| && j < |PackBatches(layout, miniBatch)|
    requires PackBatches(layout, miniBatch)[i] == PackBatches(layout, miniBatch)[j]
    ensures i == j
  {
    PackBatchesLength(layout, miniBatch);
    var k, b := FlatSurjective(miniBatch, |layout|, i);
    var l, c := FlatSurjective(miniBatch, |layout|, j);
    PackBatchesAt(layout, miniBatch, k, b);
    PackBatchesAt(layout, miniBatch, l, c);
    assert layouts[p][k] == layouts[p][l];
  }
}
