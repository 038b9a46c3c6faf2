/** Addresses of the lengths, indices, psum and tags of every table chunk (sls/operation/packs_data). */
module PacksData {
  import opened SeqMath
  import opened ExecutionGenerators

  /** The user's request: flat lengths and indices for `numTables` tables of `miniBatch` batches. */
  datatype Request = Request(lengths: seq<nat>, indices: seq<nat>, miniBatch: nat, numTables: nat, featureSize: nat) {
    predicate Valid() {
      && 0 < miniBatch && 0 < featureSize
      && |lengths| == numTables * miniBatch
      && Sum(lengths) <= |indices|
    }

    /** Output row of batch `b`. */
    function Row(b: Batch): nat {
      Flat(b.table, miniBatch, b.index)
    }

    /** Position of the first index of row `r`: the sum of all earlier lengths. */
    function FirstIndex(r: nat): nat
      requires r <= |lengths|
    {
      Sum(lengths[..r])
    }
  }

  // A tag takes four 32-bit elements.
  const TAG_ELEMENTS: nat := 4

  /** Where a chunk's data lives; psum and tags are counted in 32-bit elements of the user's buffer. */
  datatype Addresses = Addresses(lengthAt: nat, indexAt: nat, psumAt: nat, tagsAt: nat)

  /** The addresses of a chunk, from the row of its first batch. */
  ghost function ChunkAddresses(req: Request, td: TableData): Addresses
    requires req.Row(Batch(td.tableId, td.batchOffset)) <= |req.lengths|
  {
    var r := req.Row(Batch(td.tableId, td.batchOffset));
    Addresses(r, req.FirstIndex(r), r * req.featureSize, |req.lengths| * req.featureSize + r * TAG_ELEMENTS)
  }

  /** `std::accumulate(s + lo, s + hi, 0)`. */
  method Accumulate(s: seq<nat>, lo: nat, hi: nat) returns (sum: nat)
    requires lo <= hi <= |s|
    ensures sum == Sum(s[lo..hi])
  {
    sum := 0;
    for i := lo to hi
      invariant sum == Sum(s[lo..i])
    {
      sum := sum + s[i];
      assert s[lo..i + 1] == s[lo..i] + [s[i]];
      assert (s[lo..i] + [s[i]])[..i - lo] == s[lo..i];
    }
  }

  predicate ChunkInTable(req: Request, td: TableData) {
    td.tableId < req.numTables && td.batchOffset + td.chunk <= req.miniBatch
  }

  ghost predicate ChunksInTables(req: Request, execs: seq<Execution>) {
    forall e, k :: 0 <= e < |execs| && 0 <= k < |execs[e].tables| ==> ChunkInTable(req, execs[e].tables[k])
  }

  class ExecutionPacksData {
    const req: Request
    var indicesOffsets: seq<nat>
    var lengthsOffsets: seq<nat>
    // By pack, execution and table position.
    var chunks: seq<seq<seq<Addresses>>>

    constructor (req: Request)
      ensures this.req == req && indicesOffsets == [] && lengthsOffsets == [] && chunks == []
    {
      this.req := req;
      indicesOffsets, lengthsOffsets, chunks := [], [], [];
    }

    /** The start of each table in the flat arrays. */
    ghost predicate Indexed()
      reads this
    {
      && |indicesOffsets| == |lengthsOffsets| == req.numTables
      && forall t :: 0 <= t < req.numTables ==> TableStart(req, t, indicesOffsets[t], lengthsOffsets[t])
    }

    method InitTablesIndexingData()
      requires req.Valid()
      modifies this`indicesOffsets, this`lengthsOffsets
      ensures Indexed()
    {
      indicesOffsets, lengthsOffsets := [], [];
      var indexOffset: nat, batchOffset: nat := 0, 0;
      hide Sum, TableStart;
      FirstTable(req);
      for t := 0 to req.numTables
        invariant |indicesOffsets| == |lengthsOffsets| == t
        invariant forall u :: 0 <= u < t ==> TableStart(req, u, indicesOffsets[u], lengthsOffsets[u])
        invariant TableStart(req, t, indexOffset, batchOffset)
      {
        indicesOffsets := indicesOffsets + [indexOffset];
        lengthsOffsets := lengthsOffsets + [batchOffset];
        NextTable(req, t, indexOffset, batchOffset);
        var inTable := Accumulate(req.lengths, batchOffset, batchOffset + req.miniBatch);
        batchOffset := batchOffset + req.miniBatch;
        indexOffset := indexOffset + inTable;
      }
    }

    method FillTableData(td: TableData) returns (a: Addresses)
      requires req.Valid() && Indexed() && ChunkInTable(req, td)
      ensures req.Row(Batch(td.tableId, td.batchOffset)) <= |req.lengths|
      ensures a == ChunkAddresses(req, td)
    {
      hide Sum, Strided;
      var first := lengthsOffsets[td.tableId];
      MulMonotone(td.tableId + 1, req.numTables, req.miniBatch);
      var before := Accumulate(req.lengths, first, first + td.batchOffset);
      SumSlice(req.lengths, first, first + td.batchOffset);
      a := Addresses(first + td.batchOffset,
                     indicesOffsets[td.tableId] + before,
                     Strided(td.tableId, req.miniBatch, td.batchOffset, req.featureSize),
                     |req.lengths| * req.featureSize +
                       Strided(td.tableId, req.miniBatch, td.batchOffset, TAG_ELEMENTS));
      StridedIsFlat(td.tableId, req.miniBatch, td.batchOffset, req.featureSize);
      StridedIsFlat(td.tableId, req.miniBatch, td.batchOffset, TAG_ELEMENTS);
    }

    method FillPacksData(execPacks: seq<seq<Execution>>)
      requires req.Valid() && Indexed()
      requires forall p :: 0 < p < |execPacks| ==> ChunksInTables(req, execPacks[p])
      modifies this
      ensures |chunks| == |execPacks|
      ensures forall p :: 0 < p < |execPacks| ==> PackFilled(req, execPacks[p], chunks[p])
      ensures indicesOffsets == lengthsOffsets == []
    {
      chunks := seq(|execPacks|, _ => []);
      var pack := 1;
      while pack < |execPacks|
        invariant |chunks| == |execPacks| && 0 < pack && Indexed()
        invariant forall p :: 0 < p < pack && p < |execPacks| ==> PackFilled(req, execPacks[p], chunks[p])
      {
        var filled := FillPack(execPacks[pack]);
        chunks := chunks[pack := filled];
        pack := pack + 1;
      }
      indicesOffsets, lengthsOffsets := [], [];
    }

    method FillPack(execs: seq<Execution>) returns (filled: seq<seq<Addresses>>)
      requires req.Valid() && Indexed()
      requires ChunksInTables(req, execs)
      ensures PackFilled(req, execs, filled)
    {
      filled := [];
      for e := 0 to |execs|
        invariant |filled| == e
        invariant forall i :: 0 <= i < e ==> ExecFilled(req, execs[i].tables, filled[i])
      {
        var tables := execs[e].tables;
        var row: seq<Addresses> := [];
        for k := 0 to |tables|
          invariant |row| == k && ExecFilled(req, tables[..k], row)
        {
          var a := FillTableData(tables[k]);
          row := row + [a];
        }
        assert tables[..|tables|] == tables;
        filled := filled + [row];
      }
    }
  }

  ghost predicate TableStart(req: Request, t: nat, indexOffset: nat, batchOffset: nat) {
    && batchOffset == t * req.miniBatch <= |req.lengths|
    && indexOffset == req.FirstIndex(batchOffset)
  }

  lemma FirstTable(req: Request)
    ensures TableStart(req, 0, 0, 0)
  {
    SumOfNone(req.lengths);
  }

  lemma NextTable(req: Request, t: nat, indexOffset: nat, batchOffset: nat)
    requires req.Valid() && t < req.numTables && TableStart(req, t, indexOffset, batchOffset)
    ensures batchOffset + req.miniBatch <= |req.lengths|
    ensures TableStart(req, t + 1, indexOffset + Sum(req.lengths[batchOffset..batchOffset + req.miniBatch]),
                       batchOffset + req.miniBatch)
  {
    hide Sum;
    MulMonotone(t + 1, req.numTables, req.miniBatch);
    assert (t + 1) * req.miniBatch == batchOffset + req.miniBatch;
    SumSlice(req.lengths, batchOffset, batchOffset + req.miniBatch);
  }

  ghost predicate ExecFilled(req: Request, tables: seq<TableData>, addrs: seq<Addresses>) {
    && |addrs| == |tables|
    && forall k :: 0 <= k < |tables| ==>
         req.Row(Batch(tables[k].tableId, tables[k].batchOffset)) <= |req.lengths|
         && addrs[k] == ChunkAddresses(req, tables[k])
  }

  ghost predicate PackFilled(req: Request, execs: seq<Execution>, addrs: seq<seq<Addresses>>) {
    && |addrs| == |execs|
    && forall e :: 0 <= e < |execs| ==> ExecFilled(req, execs[e].tables, addrs[e])
  }

  /** Element offset computed table by table, as in the psum and tags initializers. */
  function Strided(table: nat, rows: nat, row: nat, width: nat): nat {
    table * (rows * width) + row * width
  }

  lemma StridedIsFlat(table: nat, rows: nat, row: nat, width: nat)
    ensures Strided(table, rows, row, width) == Flat(table, rows, row) * width
  {
  }

}
