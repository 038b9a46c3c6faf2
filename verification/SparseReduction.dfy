/** Instructions of one execution, and where its results go (sls/operation/internal, trace_generator_core). */
module SparseReductions {
  import opened SeqMath
  import opened ExecutionGenerators
  import opened PacksData
  import opened CpuSls
  import opened TraceGeneratorCores

  /** Addresses of the table rows that `index` names. */
  ghost function RowAddresses(index: seq<nat>, rowBytes: nat, offset: nat): seq<nat> {
    seq(|index|, j requires 0 <= j < |index| => PhysAddress(index[j], rowBytes, offset))
  }

  ghost function ChunkOf(req: Request, td: TableData, base: nat, opcode: nat, offset: nat, rowBytes: nat): Chunk
    requires req.Row(Batch(td.tableId, td.batchOffset)) + td.chunk <= |req.lengths|
    requires req.FirstIndex(req.Row(Batch(td.tableId, td.batchOffset))) <= |req.indices|
  {
    var r := req.Row(Batch(td.tableId, td.batchOffset));
    Chunk(req.lengths[r..r + td.chunk], req.indices[req.FirstIndex(r)..], base, opcode, offset, rowBytes)
  }

  /** The rows of a chunk lie in the flat arrays. */
  lemma ChunkBounds(req: Request, td: TableData)
    requires req.Valid() && ChunkInTable(req, td)
    ensures var r := req.Row(Batch(td.tableId, td.batchOffset));
      && r + td.chunk <= |req.lengths|
      && req.FirstIndex(r) + Sum(req.lengths[r..r + td.chunk]) <= |req.indices|
  {
    var r := req.Row(Batch(td.tableId, td.batchOffset));
    MulMonotone(td.tableId + 1, req.numTables, req.miniBatch);
    SumSlice(req.lengths, r, r + td.chunk);
    SumMonotone(req.lengths, r + td.chunk, |req.lengths|);
  }

  /** Output `base + i` of a chunk's trace receives exactly the rows that batch number i of the chunk asks for. */
  lemma ChunkServes(req: Request, td: TableData, base: nat, opcode: nat, offset: nat, rowBytes: nat,
                    i: nat)
    requires req.Valid() && ChunkInTable(req, td) && i < td.chunk
    ensures ChunkBoundsHold(req, td)
    ensures AddressesFor(ChunkOf(req, td, base, opcode, offset, rowBytes).Trace(), base + i)
      == RowAddresses(IndexList(req, Batch(td.tableId, td.batchOffset + i)), rowBytes, offset)
  {
    hide Sum, Flat, Chunk.Trace, AddressesFor, Chunk.BatchAddresses, RowAddresses, IndexList;
    ChunkBounds(req, td);
    ChunkOf(req, td, base, opcode, offset, rowBytes).TraceServesEachBatch(i);
    ChunkAsksFor(req, td, base, opcode, offset, rowBytes, i);
  }

  /** The chunk's stretch of the index list for batch number i is that batch's own index list. */
  lemma ChunkAsksFor(req: Request, td: TableData, base: nat, opcode: nat, offset: nat, rowBytes: nat,
                     i: nat)
    requires req.Valid() && ChunkInTable(req, td) && i < td.chunk && ChunkBoundsHold(req, td)
    ensures ChunkOf(req, td, base, opcode, offset, rowBytes).BatchAddresses(i)
      == RowAddresses(IndexList(req, Batch(td.tableId, td.batchOffset + i)), rowBytes, offset)
  {
    hide Sum, PhysAddress;
    var r, b := req.Row(Batch(td.tableId, td.batchOffset)), Batch(td.tableId, td.batchOffset + i);
    var c := ChunkOf(req, td, base, opcode, offset, rowBytes);
    assert req.Row(b) == r + i;
    hide Flat;
    RowOf(req, b);
    assert c.lens[..i] == req.lengths[r..r + i];
    SumSlice(req.lengths, r, r + i);
    assert req.FirstIndex(r + i) == req.FirstIndex(r) + c.Start(i);
  }

  ghost predicate ChunkBoundsHold(req: Request, td: TableData) {
    var r := req.Row(Batch(td.tableId, td.batchOffset));
    r + td.chunk <= |req.lengths| && req.FirstIndex(r) <= |req.indices|
  }

  ghost predicate AllInRequest(req: Request, bs: seq<Batch>) {
    forall o :: 0 <= o < |bs| ==> InRequest(req, bs[o])
  }

  ghost predicate Hosted(bs: seq<Batch>, offsets: map<nat, nat>) {
    forall o :: 0 <= o < |bs| ==> bs[o].table in offsets
  }

  /** The trace sends to output o the rows of batch number o, in lookup order, and sends nothing anywhere else. */
  ghost predicate Serves(ir: seq<IR>, req: Request, bs: seq<Batch>, offsets: map<nat, nat>, rowBytes: nat,
                         opcode: nat) {
    && AllInRequest(req, bs) && Hosted(bs, offsets)
    && (forall o :: 0 <= o < |bs| ==>
          AddressesFor(ir, o) == RowAddresses(IndexList(req, bs[o]), rowBytes, offsets[bs[o].table]))
    && (forall o :: |bs| <= o ==> AddressesFor(ir, o) == [])
    && (forall i :: 0 <= i < |ir| ==> ir[i].opcode == opcode && ir[i].output < |bs|)
  }

  /** Appending a chunk's trace serves the chunk's batches after the earlier ones. */
  lemma ServesNext(ir: seq<IR>, req: Request, bs: seq<Batch>, td: TableData, offsets: map<nat, nat>,
                   rowBytes: nat, opcode: nat)
    requires Serves(ir, req, bs, offsets, rowBytes, opcode)
    requires req.Valid() && ChunkInTable(req, td) && td.tableId in offsets && ChunkBoundsHold(req, td)
    ensures Serves(ir + ChunkOf(req, td, |bs|, opcode, offsets[td.tableId], rowBytes).Trace(), req,
                   bs + Run(td.tableId, td.batchOffset, td.chunk), offsets, rowBytes, opcode)
  {
    hide AddressesFor, Chunk.Trace, IndexList, RowAddresses;
    var c := ChunkOf(req, td, |bs|, opcode, offsets[td.tableId], rowBytes);
    var run := Run(td.tableId, td.batchOffset, td.chunk);
    var all := bs + run;
    c.TraceShape();
    forall o: nat
      ensures AddressesFor(ir + c.Trace(), o) == AddressesFor(ir, o) + AddressesFor(c.Trace(), o)
    {
      AddressesForConcat(ir, c.Trace(), o);
    }
    forall o: nat | o < |bs| || |all| <= o
      ensures AddressesFor(c.Trace(), o) == []
    {
      c.TraceServesNothingElse(o);
    }
    forall o | |bs| <= o < |all|
      ensures InRequest(req, all[o])
      ensures AddressesFor(c.Trace(), o) == RowAddresses(IndexList(req, all[o]), rowBytes, offsets[all[o].table])
    {
      ChunkServes(req, td, |bs|, opcode, offsets[td.tableId], rowBytes, o - |bs|);
    }
  }

  lemma {:induction false} RunCost(job: Job, req: Request, t: nat, first: nat, n: nat)
    requires job.lengths == req.lengths && job.miniBatch == req.miniBatch && job.starts == []
    requires req.Row(Batch(t, first)) + n <= |req.lengths|
    ensures job.Cost(Run(t, first, n)) == Sum(req.lengths[req.Row(Batch(t, first))..req.Row(Batch(t, first)) + n])
  {
    var r := req.Row(Batch(t, first));
    if n > 0 {
      RunCost(job, req, t, first, n - 1);
      assert Run(t, first, n) == Run(t, first, n - 1) + [Batch(t, first + n - 1)];
      job.CostAppend(Run(t, first, n - 1), Batch(t, first + n - 1));
      assert req.lengths[r..r + n][..n - 1] == req.lengths[r..r + n - 1];
    }
  }

  /** Instructions of one execution, table chunk by table chunk. */
  method GenerateInstructions(ghost job: Job, req: Request, tables: seq<TableData>, addrs: seq<Addresses>,
                              offsets: map<nat, nat>, rowBytes: nat, opcode: nat)
    returns (ir: seq<IR>)
    requires req.Valid() && ExecFilled(req, tables, addrs)
    requires forall k :: 0 <= k < |tables| ==> ChunkInTable(req, tables[k]) && tables[k].tableId in offsets
    requires job.lengths == req.lengths && job.miniBatch == req.miniBatch && job.starts == []
    ensures Serves(ir, req, Expand(tables), offsets, rowBytes, opcode)
    ensures |ir| == job.Cost(Expand(tables))
  {
    hide Job.Cost, Expand, AddressesFor, Chunk.Trace, Sum, Flat;
    ir := [];
    var batchOffset := 0;
    NothingServed(job, req, offsets, rowBytes, opcode);
    for k := 0 to |tables|
      invariant batchOffset == |Expand(tables[..k])|
      invariant Serves(ir, req, Expand(tables[..k]), offsets, rowBytes, opcode)
      invariant |ir| == job.Cost(Expand(tables[..k]))
    {
      var td := tables[k];
      ChunkBounds(req, td);
      ghost var bs := Expand(tables[..k]);
      ghost var c := ChunkOf(req, td, |bs|, opcode, offsets[td.tableId], rowBytes);
      var processed;
      ghost var before := ir;
      ir, processed := WriteObjectTrace(offsets[td.tableId], req.lengths, addrs[k].lengthAt, td.chunk, req.indices,
                                        addrs[k].indexAt, batchOffset, opcode, rowBytes, ir);
      assert ir == before + c.Trace();
      ServesNext(before, req, bs, td, offsets, rowBytes, opcode);
      c.TraceShape();
      RunCost(job, req, td.tableId, td.batchOffset, td.chunk);
      job.CostConcat(bs, Run(td.tableId, td.batchOffset, td.chunk));
      ExpandNext(tables, k);
      batchOffset := batchOffset + td.chunk;
    }
    assert tables[..|tables|] == tables;
  }

  lemma NothingServed(job: Job, req: Request, offsets: map<nat, nat>, rowBytes: nat, opcode: nat)
    ensures Expand([]) == [] && job.Cost([]) == 0 && Serves([], req, [], offsets, rowBytes, opcode)
  {
  }

  lemma ExpandNext(tables: seq<TableData>, k: nat)
    requires k < |tables|
    ensures Expand(tables[..k + 1]) == Expand(tables[..k]) +
            Run(tables[k].tableId, tables[k].batchOffset, tables[k].chunk)
  {
    assert tables[..k + 1][..k] == tables[..k];
  }

  // ----- Scattering an execution's psum into the user's buffer.

  ghost function Overwrite(s: seq<nat>, at: nat, v: seq<nat>): seq<nat>
    requires at + |v| <= |s|
  {
    s[..at] + v + s[at + |v|..]
  }

  /** Each chunk has room for its rows at its destination, and `src` holds the rows of all chunks. */
  ghost predicate RoomFor(tables: seq<TableData>, dst: seq<nat>, width: nat, room: nat, src: seq<nat>) {
    && |dst| == |tables| && |Expand(tables)| * width <= |src|
    && forall k :: 0 <= k < |tables| ==> dst[k] + tables[k].chunk * width <= room
  }

  lemma RoomForPrefix(tables: seq<TableData>, dst: seq<nat>, width: nat, room: nat, src: seq<nat>)
    requires tables != [] && RoomFor(tables, dst, width, room, src)
    ensures var n := |tables| - 1;
      && RoomFor(tables[..n], dst[..n], width, room, src)
      && |Expand(tables[..n])| * width + tables[n].chunk * width == |Expand(tables)| * width
  {
    var n := |tables| - 1;
    var before := |Expand(tables[..n])|;
    assert |Expand(tables)| == before + tables[n].chunk;
    MulMonotone(before, before + tables[n].chunk, width);
    assert (before + tables[n].chunk) * width == before * width + tables[n].chunk * width;
  }

  /** The user's buffer after the rows of every chunk were copied to the chunk's destination. */
  ghost function Scatter(psum: seq<nat>, tables: seq<TableData>, dst: seq<nat>, src: seq<nat>,
                         width: nat): (r: seq<nat>)
    requires RoomFor(tables, dst, width, |psum|, src)
    ensures |r| == |psum|
  {
    if tables == [] then psum
    else
      RoomForPrefix(tables, dst, width, |psum|, src);
      var n := |tables| - 1;
      var from := |Expand(tables[..n])| * width;
      Overwrite(Scatter(psum, tables[..n], dst[..n], src, width), dst[n], src[from..from + tables[n].chunk * width])
  }

  ghost predicate InSome(tables: seq<TableData>, dst: seq<nat>, width: nat, x: int)
    requires |dst| == |tables|
  {
    exists k :: 0 <= k < |tables| && dst[k] <= x < dst[k] + tables[k].chunk * width
  }

  /** Every row of `src` is what is expected at the place it goes to. */
  ghost predicate AsExpected(tables: seq<TableData>, dst: seq<nat>, src: seq<nat>, width: nat, expected: nat -> nat)
    requires |dst| == |tables|
  {
    forall k, j :: 0 <= k < |tables| && 0 <= j < tables[k].chunk * width ==>
      0 <= Flat(|Expand(tables[..k])|, width, j) < |src|
      && src[Flat(|Expand(tables[..k])|, width, j)] == expected(dst[k] + j)
  }

  /** A scatter of expected values makes the destinations as expected and touches nothing else. */
  lemma {:induction false} ScatterIsExact(psum: seq<nat>, tables: seq<TableData>, dst: seq<nat>, src: seq<nat>,
                                          width: nat, expected: nat -> nat)
    requires RoomFor(tables, dst, width, |psum|, src) && AsExpected(tables, dst, src, width, expected)
    ensures var r := Scatter(psum, tables, dst, src, width);
      forall x: nat :: x < |r| ==> r[x] == if InSome(tables, dst, width, x) then expected(x) else psum[x]
  {
    hide Expand, Overwrite;
    if tables != [] {
      var n := |tables| - 1;
      RoomForPrefix(tables, dst, width, |psum|, src);
      var before, count := tables[..n], tables[n].chunk * width;
      assert forall k :: 0 <= k < n ==> before[..k] == tables[..k];
      ScatterIsExact(psum, before, dst[..n], src, width, expected);
      var from := |Expand(before)| * width;
      var r0, r := Scatter(psum, before, dst[..n], src, width), Scatter(psum, tables, dst, src, width);
      forall x: nat | x < |r|
        ensures r[x] == if InSome(tables, dst, width, x) then expected(x) else psum[x]
      {
        OverwriteAt(r0, dst[n], src[from..from + count], x);
        if dst[n] <= x < dst[n] + count {
          assert r[x] == src[Flat(|Expand(before)|, width, x - dst[n])];
        } else {
          assert InSome(tables, dst, width, x) <==> InSome(before, dst[..n], width, x);
        }
      }
    }
  }

  lemma OverwriteAt(s: seq<nat>, at: nat, v: seq<nat>, x: nat)
    requires at + |v| <= |s| && x < |s|
    ensures |Overwrite(s, at, v)| == |s| && Overwrite(s, at, v)[x] == if at <= x < at + |v| then v[x - at] else s[x]
  {
  }

  /** `write_result`: copy chunk after chunk from the intermediate buffer. */
  method WriteResult(tables: seq<TableData>, dst: seq<nat>, src: seq<nat>, width: nat, psum: array<nat>)
    requires RoomFor(tables, dst, width, psum.Length, src)
    modifies psum
    ensures psum[..] == Scatter(old(psum[..]), tables, dst, src, width)
  {
    hide Expand, Scatter, Overwrite;
    var buffOffset := 0;
    ghost var before := psum[..];
    RoomForAll(tables, dst, width, psum.Length, src);
    NothingScattered(before, src, width);
    for k := 0 to |tables|
      invariant buffOffset == |Expand(tables[..k])| * width
      invariant RoomFor(tables[..k], dst[..k], width, psum.Length, src)
      invariant psum[..] == Scatter(before, tables[..k], dst[..k], src, width)
    {
      ScatterStep(before, tables, dst, src, width, k);
      var count := tables[k].chunk * width;
      CopyInto(src, buffOffset, count, psum, dst[k]);
      buffOffset := buffOffset + count;
    }
    assert tables[..|tables|] == tables && dst[..|tables|] == dst;
  }

  lemma {:induction false} RoomForAll(tables: seq<TableData>, dst: seq<nat>, width: nat, room: nat, src: seq<nat>)
    requires RoomFor(tables, dst, width, room, src)
    ensures forall k :: 0 <= k <= |tables| ==> RoomFor(tables[..k], dst[..k], width, room, src)
  {
    assert tables[..|tables|] == tables && dst[..|tables|] == dst;
    if tables != [] {
      var n := |tables| - 1;
      RoomForPrefix(tables, dst, width, room, src);
      RoomForAll(tables[..n], dst[..n], width, room, src);
      assert forall k :: 0 <= k <= n ==> tables[..n][..k] == tables[..k] && dst[..n][..k] == dst[..k];
    }
  }

  lemma ScatterStep(psum: seq<nat>, tables: seq<TableData>, dst: seq<nat>, src: seq<nat>, width: nat,
                    k: nat)
    requires k < |tables| == |dst| && RoomFor(tables[..k + 1], dst[..k + 1], width, |psum|, src)
    requires RoomFor(tables[..k], dst[..k], width, |psum|, src)
    ensures var from, count := |Expand(tables[..k])| * width, tables[k].chunk * width;
      && from + count == |Expand(tables[..k + 1])| * width <= |src| && dst[k] + count <= |psum|
      && Scatter(psum, tables[..k + 1], dst[..k + 1], src, width)
         == Overwrite(Scatter(psum, tables[..k], dst[..k], src, width), dst[k], src[from..from + count])
  {
    RoomForPrefix(tables[..k + 1], dst[..k + 1], width, |psum|, src);
    assert tables[..k + 1][..k] == tables[..k] && dst[..k + 1][..k] == dst[..k];
  }

  lemma NothingScattered(psum: seq<nat>, src: seq<nat>, width: nat)
    ensures Expand([]) == [] && RoomFor([], [], width, |psum|, src) && Scatter(psum, [], [], src, width) == psum
  {
  }

  /** `std::copy_n`. */
  method CopyInto(src: seq<nat>, from: nat, count: nat, dst: array<nat>, at: nat)
    requires from + count <= |src| && at + count <= dst.Length
    modifies dst
    ensures dst[..] == Overwrite(old(dst[..]), at, src[from..from + count])
  {
    for j := 0 to count
      invariant forall x :: at <= x < at + j ==> dst[x] == src[from + (x - at)]
      invariant forall x :: 0 <= x < dst.Length && !(at <= x < at + j) ==> dst[x] == old(dst[x])
    {
      dst[at + j] := src[from + j];
    }
  }

  // ----- The limits handed to the generator.

  /** The largest element. */
  method MaxElement(s: seq<nat>) returns (m: nat)
    requires s != []
    ensures m in s && forall i :: 0 <= i < |s| ==> s[i] <= m
  {
    m := s[0];
    for i := 1 to |s|
      invariant m in s && forall j :: 0 <= j < i ==> s[j] <= m
    {
      if m < s[i] {
        m := s[i];
      }
    }
  }

  /** `set_instr_buffer_size`: the divided buffer, but never less than the longest batch. */
  method SetInstrBufferSize(inBuffer: nat, divider: real, lengths: seq<nat>) returns (maxInst: nat)
    requires divider >= 1.0 && lengths != []
    ensures forall i :: 0 <= i < |lengths| ==> lengths[i] <= maxInst
    ensures inBuffer as real / divider < maxInst as real + 1.0
    ensures maxInst in lengths || maxInst as real <= inBuffer as real / divider
    ensures maxInst <= inBuffer <==> forall i :: 0 <= i < |lengths| ==> lengths[i] <= inBuffer
  {
    var divided := (inBuffer as real / divider).Floor;
    assert 0 <= divided <= inBuffer by {
      assert 0.0 <= inBuffer as real / divider <= inBuffer as real;
    }
    var longest := MaxElement(lengths);
    maxInst := if longest < divided then divided else longest;
  }

  /** One list of five lookups and a buffer of four instructions: the limit is five. */
  method OneLongList() returns (maxInst: nat)
    ensures maxInst == 5
  {
    maxInst := SetInstrBufferSize(4, 1.0, [5]);
    assert [5][0] <= maxInst;
  }

  /** The same list and a buffer of a thousand, halved: the limit is five hundred. */
  method OneShortList() returns (maxInst: nat)
    ensures maxInst == 500
  {
    maxInst := SetInstrBufferSize(1000, 2.0, [5]);
    assert [5][0] <= maxInst;
  }
}
