/** A whole SLS operation on CXL compute units (operation_runner/reduction: core, cxl_runner). */
module CxlRunners {
  import opened SeqMath
  import opened ExecutionGenerators
  import opened PacksData
  import opened ChunkCover
  import opened CpuSls
  import opened TraceGeneratorCores
  import opened InstGenerators
  import opened TraceGenerators
  import opened SparseReductions
  import opened CxlDevices

  /** A table stored in a unit's memory within the reach of the instruction format. */
  ghost predicate TableAt(mem: nat -> nat, table: Table, rows: nat, width: nat, offset: nat, rowBytes: nat) {
    && offset % 8 == 0 && 0 < rowBytes && rowBytes % 8 == 0
    && rows * rowBytes <= WORD && offset + rows * rowBytes <= P34
    && forall i, e :: 0 <= i < rows && 0 <= e < width ==> mem(offset + Flat(i, rowBytes, 4 * e)) == table(i, e)
  }

  /** A row address does not wrap, can be encoded, and leads to the row. */
  lemma RowAddress(mem: nat -> nat, table: Table, rows: nat, width: nat, offset: nat, rowBytes: nat,
                   i: nat)
    requires TableAt(mem, table, rows, width, offset, rowBytes) && i < rows
    ensures PhysAddress(i, rowBytes, offset) == offset + i * rowBytes < P34
    ensures (offset + i * rowBytes) % 8 == 0
    ensures forall e :: 0 <= e < width ==> mem(PhysAddress(i, rowBytes, offset) + 4 * e) == table(i, e)
  {
    hide PhysAddress, Flat;
    ModOfSum(offset, i, rowBytes);
    AddressInReach(i, rows, rowBytes, offset);
    forall e | 0 <= e < width
      ensures mem(PhysAddress(i, rowBytes, offset) + 4 * e) == table(i, e)
    {
      RowElementAt(i, rowBytes, offset, e);
    }
  }

  lemma AddressInReach(i: nat, rows: nat, rowBytes: nat, offset: nat)
    requires i < rows && rows * rowBytes <= WORD && offset + rows * rowBytes <= P34 && 0 < rowBytes
    ensures PhysAddress(i, rowBytes, offset) == offset + i * rowBytes < P34
  {
    MulMonotone(i + 1, rows, rowBytes);
    assert (i + 1) * rowBytes == i * rowBytes + rowBytes;
  }

  lemma RowElementAt(i: nat, rowBytes: nat, offset: nat, e: nat)
    ensures offset + Flat(i, rowBytes, 4 * e) == offset + i * rowBytes + 4 * e
  {
  }

  lemma ModOfSum(offset: nat, i: nat, rowBytes: nat)
    requires offset % 8 == 0 && rowBytes % 8 == 0
    ensures (offset + i * rowBytes) % 8 == 0
  {
    var o, r := offset / 8, rowBytes / 8;
    assert i * rowBytes == 8 * (i * r);
    assert offset + i * rowBytes == 8 * (o + i * r);
  }

  /** What an operation computes: the contents of the tables and the kind of sum. */
  datatype Op = Op(arith: Arith, opcode: nat, tables: seq<Table>, rows: seq<nat>, rowBytes: nat) {

    ghost predicate Valid(req: Request) {
      && req.Valid() && req.featureSize in {16, 32, 64}
      && arith.Valid() && opcode in {0, 2, 3}
      && |tables| == |rows| == req.numTables && IndicesInTables(req, rows)
    }

    /** The unit holds table `t`. */
    ghost predicate Stores(mem: nat -> nat, offsets: map<nat, nat>, req: Request, t: nat) {
      t < |tables| == |rows| && t in offsets
      && TableAt(mem, tables[t], rows[t], req.featureSize, offsets[t], rowBytes)
    }

    /** The value of element `x` of the user's psum according to the reference. */
    ghost function Expected(req: Request): nat -> nat
      requires Valid(req)
    {
      (x: nat) =>
        var row := x / req.featureSize;
        var b := Batch(row / req.miniBatch, row % req.miniBatch);
        if InRequest(req, b) then Reduction(arith, opcode, tables, req, b)[x % req.featureSize] else 0
    }

    lemma ExpectedAt(req: Request, b: Batch, e: nat)
      requires Valid(req) && InRequest(req, b) && e < req.featureSize
      ensures Expected(req)(Flat(req.Row(b), req.featureSize, e)) == Reduction(arith, opcode, tables, req, b)[e]
    {
      DivUnique(Flat(req.Row(b), req.featureSize, e), req.featureSize, req.Row(b), e);
      DivUnique(req.Row(b), req.miniBatch, b.table, b.index);
    }

    /** A buffer that is as expected everywhere holds the reference result. */
    lemma ExpectedEverywhere(req: Request, psum: seq<nat>)
      requires Valid(req) && |req.lengths| * req.featureSize <= |psum|
      requires forall x: nat :: x < |req.lengths| * req.featureSize ==> psum[x] == Expected(req)(x)
      ensures AllReduced(arith, opcode, tables, req, psum)
    {
      hide IndicesInTables, IsReduced, Op.Expected;
      forall b: Batch | InRequest(req, b)
        ensures IsReduced(arith, opcode, tables, req, psum, b)
      {
        RowOf(req, b);
        ExpectedRow(req, psum, b);
      }
    }

    lemma ExpectedRow(req: Request, psum: seq<nat>, b: Batch)
      requires Valid(req) && InRequest(req, b) && req.Row(b) < |req.lengths|
      requires |req.lengths| * req.featureSize <= |psum|
      requires forall x: nat :: x < |req.lengths| * req.featureSize ==> psum[x] == Expected(req)(x)
      ensures IsReduced(arith, opcode, tables, req, psum, b)
    {
      hide IndicesInTables, Op.Expected, Flat, Arith.Fold, IndexList;
      var w, r, row := req.featureSize, req.Row(b), Reduction(arith, opcode, tables, req, b);
      MulMonotone(r + 1, |req.lengths|, w);
      var got := psum[r * w..r * w + w];
      forall e | 0 <= e < w
        ensures got[e] == row[e]
      {
        ExpectedAt(req, b, e);
        FlatElement(r, w, e);
      }
      assert got == row;
    }

    lemma ReducedElement(req: Request, psum: seq<nat>, b: Batch, e: nat)
      requires Valid(req) && InRequest(req, b) && e < req.featureSize && IsReduced(arith, opcode, tables, req, psum, b)
      ensures Flat(req.Row(b), req.featureSize, e) < |psum|
      ensures psum[Flat(req.Row(b), req.featureSize, e)] == Reduction(arith, opcode, tables, req, b)[e]
    {
      var w, r := req.featureSize, req.Row(b);
      FlatElement(r, w, e);
      assert psum[r * w + e] == psum[r * w..r * w + w][e];
    }

    lemma FlatElement(r: nat, w: nat, e: nat)
      ensures Flat(r, w, e) == r * w + e
    {
    }

    /** Words read at the addresses of a batch are the batch's column. */
    lemma BatchWords(mem: nat -> nat, offsets: map<nat, nat>, req: Request, b: Batch, e: nat)
      requires Valid(req) && InRequest(req, b) && Stores(mem, offsets, req, b.table) && e < req.featureSize
      ensures Words(mem, RowAddresses(IndexList(req, b), rowBytes, offsets[b.table]), e)
        == ColumnOf(tables[b.table], IndexList(req, b), e)
    {
      hide TableAt, PhysAddress;
      var index := IndexList(req, b);
      forall j | 0 <= j < |index|
        ensures mem(PhysAddress(index[j], rowBytes, offsets[b.table]) + 4 * e) == tables[b.table](index[j], e)
      {
        RowAddress(mem, tables[b.table], rows[b.table], req.featureSize, offsets[b.table], rowBytes, index[j]);
      }
    }

    lemma BatchAddressesEncodable(mem: nat -> nat, offsets: map<nat, nat>, req: Request, b: Batch,
                                  a: nat)
      requires Valid(req) && InRequest(req, b) && Stores(mem, offsets, req, b.table)
      requires a in RowAddresses(IndexList(req, b), rowBytes, offsets[b.table])
      ensures a % 8 == 0 && a < P34
    {
      hide TableAt, PhysAddress;
      var index := IndexList(req, b);
      var j :| 0 <= j < |index| && a == PhysAddress(index[j], rowBytes, offsets[b.table]);
      RowAddress(mem, tables[b.table], rows[b.table], req.featureSize, offsets[b.table], rowBytes, index[j]);
    }

    ghost predicate StoresAll(mem: nat -> nat, offsets: map<nat, nat>, req: Request, bs: seq<Batch>) {
      forall o :: 0 <= o < |bs| ==> Stores(mem, offsets, req, bs[o].table)
    }

    lemma TraceEncodable(mem: nat -> nat, offsets: map<nat, nat>, req: Request, bs: seq<Batch>,
                         ir: seq<IR>)
      requires Valid(req) && StoresAll(mem, offsets, req, bs) && |bs| <= 4096
      requires Serves(ir, req, bs, offsets, rowBytes, opcode)
      ensures forall i :: 0 <= i < |ir| ==> Encodable(ir[i])
    {
      hide Stores, RowAddresses, IndicesInTables;
      forall i | 0 <= i < |ir|
        ensures Encodable(ir[i])
      {
        AddressIsServed(ir, i);
        BatchAddressesEncodable(mem, offsets, req, bs[ir[i].output], ir[i].address);
      }
    }

    /** Rows of `src` are the reductions of the batches `bs`. */
    ghost predicate ResultRows(req: Request, bs: seq<Batch>, src: seq<nat>)
      requires Valid(req) && AllInRequest(req, bs)
    {
      forall o, e :: 0 <= o < |bs| && 0 <= e < req.featureSize ==>
        Flat(o, req.featureSize, e) < |src|
        && src[Flat(o, req.featureSize, e)] == Reduction(arith, opcode, tables, req, bs[o])[e]
    }

    lemma ResultRowsPrefix(req: Request, bs: seq<Batch>, src: seq<nat>, tmp: seq<nat>)
      requires Valid(req) && AllInRequest(req, bs) && ResultRows(req, bs, src)
      requires |tmp| == |bs| * req.featureSize && tmp <= src
      ensures ResultRows(req, bs, tmp)
    {
      hide IndexList, Arith.Fold, Flat;
      forall o, e | 0 <= o < |bs| && 0 <= e < req.featureSize
        ensures Flat(o, req.featureSize, e) < |tmp|
        ensures tmp[Flat(o, req.featureSize, e)] == Reduction(arith, opcode, tables, req, bs[o])[e]
      {
        FlatInBounds(o, |bs|, req.featureSize, e);
      }
    }

    /** Executing a serving trace on zeroed output rows yields the reductions. */
    lemma DeviceComputes(mem: nat -> nat, offsets: map<nat, nat>, req: Request, bs: seq<Batch>,
                         ir: seq<IR>,
                         zeroed: seq<nat>, src: seq<nat>)
      requires Valid(req) && StoresAll(mem, offsets, req, bs)
      requires Serves(ir, req, bs, offsets, rowBytes, opcode)
      requires |bs| * req.featureSize <= |zeroed| && forall x :: 0 <= x < |bs| * req.featureSize ==> zeroed[x] == 0
      requires src == AppliedAll(arith, mem, zeroed, req.featureSize, ir)
      ensures ResultRows(req, bs, src)
    {
      hide Stores, RowAddresses, IndicesInTables, Flat, AppliedAll, Arith.Fold, AddressesFor;
      forall o, e | 0 <= o < |bs| && 0 <= e < req.featureSize
        ensures Flat(o, req.featureSize, e) < |src|
        ensures src[Flat(o, req.featureSize, e)] == Reduction(arith, opcode, tables, req, bs[o])[e]
      {
        FlatInBounds(o, |bs|, req.featureSize, e);
        TraceSums(arith, mem, zeroed, req.featureSize, ir, opcode, o, e);
        BatchWords(mem, offsets, req, bs[o], e);
      }
    }

    /** The rows of each chunk are what the reference expects at the chunk's psum address. */
    lemma {:induction false} ResultsAsExpected(req: Request, td: seq<TableData>, addrs: seq<Addresses>, dst: seq<nat>,
                                               src: seq<nat>)
      requires Valid(req) && ExecFilled(req, td, addrs) && AllInRequest(req, Expand(td))
      requires ResultRows(req, Expand(td), src)
      requires |dst| == |td| && forall k :: 0 <= k < |td| ==> dst[k] == addrs[k].psumAt
      ensures AsExpected(td, dst, src, req.featureSize, Expected(req))
    {
      hide Expand, Flat, IndicesInTables, Op.Expected, Reduction, Sum, IndexList;
      var bs, w := Expand(td), req.featureSize;
      forall k, j | 0 <= k < |td| && 0 <= j < td[k].chunk * w
        ensures Flat(|Expand(td[..k])|, w, j) < |src|
        ensures src[Flat(|Expand(td[..k])|, w, j)] == Expected(req)(dst[k] + j)
      {
        var i, e := FlatSurjective(w, td[k].chunk, j);
        ExpandAt(td, k, i);
        var o, b := |Expand(td[..k])| + i, Batch(td[k].tableId, td[k].batchOffset + i);
        FlatRegroup(|Expand(td[..k])|, i, w, e);
        FlatRegroup(req.Row(Batch(td[k].tableId, td[k].batchOffset)), i, w, e);
        RowShift(req, td[k], i);
        assert bs[o] == b;
        ExpectedAt(req, b, e);
      }
    }

    lemma RowShift(req: Request, td: TableData, i: nat)
      ensures req.Row(Batch(td.tableId, td.batchOffset + i)) == req.Row(Batch(td.tableId, td.batchOffset)) + i
    {
    }

    lemma FlatRegroup(r: nat, i: nat, w: nat, e: nat)
      ensures Flat(r, w, Flat(i, w, e)) == Flat(r + i, w, e) == r * w + Flat(i, w, e)
    {
    }
  }

  lemma {:induction false} AddressIsServed(ir: seq<IR>, i: nat)
    requires i < |ir|
    ensures ir[i].address in AddressesFor(ir, ir[i].output)
  {
    if i < |ir| - 1 {
      AddressIsServed(ir[..|ir| - 1], i);
    }
  }

  /** The unit's blocks are separate and large enough for the limits given to the generator. */
  ghost predicate UnitFits(unit: CxlUnit, job: Job, width: nat) {
    && unit.inst != unit.psum
    && job.maxInst < unit.inst.Length && job.maxFeatures * width <= unit.psum.Length && job.maxFeatures <= 4096
  }

  /** The body of `process_execs`, up to the read of the psum block into the intermediate buffer. */
  method RunTrace(op: Op, tagged: bool, ghost job: Job, req: Request, e: Execution, addrs: seq<Addresses>,
                  unit: CxlUnit, offsets: map<nat, nat>)
    returns (tmp: seq<nat>)
    requires op.Valid(req) && job.GoodExecution(e) && ExecFilled(req, e.tables, addrs)
    requires job.lengths == req.lengths && job.miniBatch == req.miniBatch && job.starts == []
    requires job.featureBytes == 4 * req.featureSize
    requires forall k :: 0 <= k < |e.tables| ==> ChunkInTable(req, e.tables[k]) && e.tables[k].tableId in offsets
    requires UnitFits(unit, job, req.featureSize) && op.StoresAll(unit.mem, offsets, req, Expand(e.tables))
    modifies unit.inst, unit.psum
    ensures AllInRequest(req, Expand(e.tables)) && op.ResultRows(req, Expand(e.tables), tmp)
    ensures |tmp| == |Expand(e.tables)| * req.featureSize
    ensures unit.inst.Length > 0 && unit.inst[0] / TAG_BIT % 2 == if tagged then 1 else 0
  {
    hide Sum, IndicesInTables, Op.Stores, ExecFilled, AppliedAll;
    hide Executed, DecodeFrom, TraceWords, AddressesFor, RowAddresses;
    hide Expand, Job.Cost, Flat, Op.ResultRows, Encodable, OutputsFit;
    ghost var bs := Expand(e.tables);
    var ir := GenerateInstructions(job, req, e.tables, addrs, offsets, op.rowBytes, op.opcode);
    op.TraceEncodable(unit.mem, offsets, req, bs, ir);
    var trace := CompileTrace(Channel, 4 * req.featureSize, tagged, ir);
    ghost var stale := unit.inst[..];
    TraceLength(Channel, 4 * req.featureSize, tagged, ir);
    unit.WriteInst(trace);
    TraceDecodes(Channel, 4 * req.featureSize, tagged, ir, stale[|trace|..]);
    HeaderRoundTrip(4 * req.featureSize, tagged);
    ExecutedAll(ir);
    MulMonotone(e.batches, job.maxFeatures, req.featureSize);
    unit.ResetPsum(e.psumSize / 4);
    ghost var zeroed := unit.psum[..];
    AllOutputsFit(ir, |bs|, req.featureSize, unit.psum.Length);
    var ok, processed := unit.ExecTrace(op.arith);
    op.DeviceComputes(unit.mem, offsets, req, bs, ir, zeroed, unit.psum[..]);
    tmp := unit.psum[..e.psumSize / 4];
    op.ResultRowsPrefix(req, bs, unit.psum[..], tmp);
  }

  lemma TraceLength(target: Target, rowBytes: nat, tagged: bool, ir: seq<IR>)
    ensures |TraceWords(target, rowBytes, tagged, ir)| == |ir| + 1
  {
  }

  lemma TraceHeader(target: Target, rowBytes: nat, tagged: bool, ir: seq<IR>)
    requires ir != []
    ensures TraceWords(target, rowBytes, tagged, ir)[0] == Header(rowBytes, tagged)
  {
  }

  lemma AllOutputsFit(ir: seq<IR>, outputs: nat, width: nat, room: nat)
    requires outputs * width <= room && forall i :: 0 <= i < |ir| ==> ir[i].output < outputs
    ensures OutputsFit(ir, width, room)
  {
    forall i | 0 <= i < |ir|
      ensures ir[i].output * width + width <= room
    {
      MulMonotone(ir[i].output + 1, outputs, width);
    }
  }

  ghost function Destinations(addrs: seq<Addresses>): seq<nat> {
    seq(|addrs|, k requires 0 <= k < |addrs| => addrs[k].psumAt)
  }

  /** One execution on one unit: the psum of its outputs becomes what the reference says, all other psum stays. */
  method RunExecution(op: Op, tagged: bool, ghost job: Job, req: Request, e: Execution, addrs: seq<Addresses>,
                      unit: CxlUnit, offsets: map<nat, nat>, psum: array<nat>)
    requires op.Valid(req) && job.GoodExecution(e) && ExecFilled(req, e.tables, addrs)
    requires job.lengths == req.lengths && job.miniBatch == req.miniBatch && job.starts == []
    requires job.featureBytes == 4 * req.featureSize
    requires forall k :: 0 <= k < |e.tables| ==> ChunkInTable(req, e.tables[k]) && e.tables[k].tableId in offsets
    requires UnitFits(unit, job, req.featureSize) && op.StoresAll(unit.mem, offsets, req, Expand(e.tables))
    requires psum != unit.inst && psum != unit.psum && |req.lengths| * req.featureSize <= psum.Length
    modifies unit.inst, unit.psum, psum
    ensures |Destinations(addrs)| == |e.tables|
    ensures forall x: nat :: x < psum.Length ==>
      psum[x] == if InSome(e.tables, Destinations(addrs), req.featureSize, x) then op.Expected(req)(x) else old(psum[x])
  {
    hide IndicesInTables, Op.Stores, Op.Expected, Expand, Job.Cost;
    hide Op.ResultRows, InSome, Destinations, Flat, Sum, ExecFilled;
    var tmp := RunTrace(op, tagged, job, req, e, addrs, unit, offsets);
    Deliver(op, req, e, addrs, tmp, psum);
  }

  /**
   * `read_output_buffers` after the read: the rows of an execution go to its destinations, and nothing else changes.
   */
  method Deliver(op: Op, req: Request, e: Execution, addrs: seq<Addresses>, tmp: seq<nat>, psum: array<nat>)
    requires op.Valid(req) && ExecFilled(req, e.tables, addrs) && |req.lengths| * req.featureSize <= psum.Length
    requires forall k :: 0 <= k < |e.tables| ==> ChunkInTable(req, e.tables[k])
    requires AllInRequest(req, Expand(e.tables)) && op.ResultRows(req, Expand(e.tables), tmp)
    requires |tmp| == |Expand(e.tables)| * req.featureSize
    modifies psum
    ensures |Destinations(addrs)| == |e.tables|
    ensures forall x: nat :: x < psum.Length ==>
      psum[x] == if InSome(e.tables, Destinations(addrs), req.featureSize, x) then op.Expected(req)(x) else old(psum[x])
  {
    hide IndicesInTables, Op.Stores, Op.Expected, Expand, Job.Cost, Op.ResultRows, Scatter, AsExpected, Flat, Sum;
    var dst: seq<nat> := seq(|addrs|, k requires 0 <= k < |addrs| => addrs[k].psumAt);
    forall k | 0 <= k < |e.tables|
      ensures dst[k] + e.tables[k].chunk * req.featureSize <= psum.Length
    {
      ChunkBounds(req, e.tables[k]);
      RowsInBuffer(req.Row(Batch(e.tables[k].tableId, e.tables[k].batchOffset)), e.tables[k].chunk, |req.lengths|,
                   req.featureSize);
    }
    op.ResultsAsExpected(req, e.tables, addrs, dst, tmp);
    ScatterIsExact(psum[..], e.tables, dst, tmp, req.featureSize, op.Expected(req));
    WriteResult(e.tables, dst, tmp, req.featureSize, psum);
  }

  // ----- Packs and units.

  /** Bit `u` of a pack identifier: unit `u` holds the tables of that pack. */
  predicate UnitInPack(pack: nat, u: nat) {
    if u == 0 then pack % 2 == 1 else UnitInPack(pack / 2, u - 1)
  }

  /** Every pack identifier names at least one unit. */
  lemma {:induction false} SomeUnitInPack(pack: nat, units: nat) returns (u: nat)
    requires 0 < pack < Pow2(units)
    ensures u < units && UnitInPack(pack, u)
  {
    if pack % 2 == 1 {
      u := 0;
    } else {
      var v := SomeUnitInPack(pack / 2, units - 1);
      u := v + 1;
    }
  }

  /** Units of the device with the offsets of the tables each one holds. */
  ghost predicate UnitsReady(op: Op, req: Request, job: Job, layout: seq<seq<nat>>, units: seq<CxlUnit>,
                             offsets: seq<map<nat, nat>>, psum: array<nat>)
  {
    && |layout| == Pow2(|units|) && |offsets| == |units|
    && (forall u :: 0 <= u < |units| ==>
          UnitFits(units[u], job, req.featureSize) && psum != units[u].inst && psum != units[u].psum)
    && (forall p, u, k :: 0 < p < |layout| && 0 <= u < |units| && UnitInPack(p, u) && 0 <= k < |layout[p]| ==>
          op.Stores(units[u].mem, offsets[u], req, layout[p][k]))
  }

  /** Element `x` is written by execution `e` of pack `p`. */
  ghost predicate WrittenBy(plan: Plan, p: nat, e: nat, x: nat)
    requires plan.Valid()
  {
    exists k :: plan.IsPlace(Place(p, e, k)) && plan.Writes(Place(p, e, k), x)
  }

  lemma WrittenIffInSome(plan: Plan, p: nat, e: nat, addrs: seq<Addresses>, x: nat)
    requires plan.Valid() && 0 < p < |plan.execs| && e < |plan.execs[p]|
    requires ExecFilled(plan.req, plan.execs[p][e].tables, addrs)
    ensures WrittenBy(plan, p, e, x)
      <==> InSome(plan.execs[p][e].tables, Destinations(addrs), plan.req.featureSize, x)
  {
    hide Job.GoodPack, DistinctTables, TablesBelow, TablePlaced, Flat, Sum;
    var ts, dst := plan.execs[p][e].tables, Destinations(addrs);
    forall k: nat
      ensures plan.IsPlace(Place(p, e, k)) && plan.Writes(Place(p, e, k), x)
        <==> k < |ts| && dst[k] <= x < dst[k] + ts[k].chunk * plan.req.featureSize
    {
      if k < |ts| {
        plan.ChunkStaysInTable(Place(p, e, k));
        plan.RowInRange(ts[k]);
      }
    }
  }

  /** The batches of an execution belong to tables of its pack. */
  lemma BatchInPack(plan: Plan, p: nat, e: nat, o: nat)
    requires plan.Valid() && 0 < p < |plan.execs| && e < |plan.execs[p]| && o < |Expand(plan.execs[p][e].tables)|
    ensures Expand(plan.execs[p][e].tables)[o].table in plan.layout[p]
  {
    hide Expand, Flatten, PackBatches, Job.GoodExecution, Job.Greedy, DistinctTables, TablesBelow, TablePlaced;
    var parts, whole := Parts(plan.execs[p]), Flatten(Parts(plan.execs[p]));
    FlattenPrefix(parts, e);
    var n := |Flatten(parts[..e])|;
    assert whole[n + o] == whole[n..n + |parts[e]|][o];
    PackBatchesMember(plan.layout[p], plan.req.miniBatch, whole[n + o]);
  }

  /** A memory with the tables of a pack holds every table that an execution of that pack reads. */
  lemma StoresExecution(op: Op, plan: Plan, mem: nat -> nat, offsets: map<nat, nat>, p: nat, e: nat)
    requires plan.Valid() && IsExec(plan.execs, (p, e))
    requires forall k :: 0 <= k < |plan.layout[p]| ==> op.Stores(mem, offsets, plan.req, plan.layout[p][k])
    ensures op.StoresAll(mem, offsets, plan.req, Expand(plan.execs[p][e].tables))
    ensures forall k :: 0 <= k < |plan.execs[p][e].tables| ==>
      ChunkInTable(plan.req, plan.execs[p][e].tables[k]) && plan.execs[p][e].tables[k].tableId in offsets
  {
    hide Expand, Flatten, PackBatches, DistinctTables, TablesBelow;
    hide TablePlaced, TableAt, Job.Greedy, Job.Fits, Job.Cost;
    var ts := plan.execs[p][e].tables;
    assert plan.job.GoodExecution(plan.execs[p][e]);
    forall o | 0 <= o < |Expand(ts)|
      ensures op.Stores(mem, offsets, plan.req, Expand(ts)[o].table)
    {
      BatchInPack(plan, p, e, o);
    }
    forall k | 0 <= k < |ts|
      ensures ChunkInTable(plan.req, ts[k]) && ts[k].tableId in offsets
    {
      plan.ChunkStaysInTable(Place(p, e, k));
      ExpandAt(ts, k, 0);
    }
  }

  /** A unit of a pack holds every table that an execution of that pack reads. */
  lemma UnitStoresExecution(op: Op, plan: Plan, units: seq<CxlUnit>, offsets: seq<map<nat, nat>>,
                            psum: array<nat>, p: nat, e: nat, u: nat)
    requires plan.Valid() && UnitsReady(op, plan.req, plan.job, plan.layout, units, offsets, psum)
    requires 0 < p < |plan.execs| && e < |plan.execs[p]| && u < |units| && UnitInPack(p, u)
    ensures op.StoresAll(units[u].mem, offsets[u], plan.req, Expand(plan.execs[p][e].tables))
    ensures forall k :: 0 <= k < |plan.execs[p][e].tables| ==>
      ChunkInTable(plan.req, plan.execs[p][e].tables[k]) && plan.execs[p][e].tables[k].tableId in offsets[u]
  {
    hide UnitFits, Op.Stores, Op.StoresAll, UnitInPack, DistinctTables, TablesBelow, TablePlaced, Job.GoodPack;
    StoresExecution(op, plan, units[u].mem, offsets[u], p, e);
  }

  /** Everything written by the executions that are done is as the reference says. */
  ghost predicate DoneCorrectly(op: Op, plan: Plan, remaining: set<(nat, nat)>, psum: seq<nat>)
    requires plan.Valid() && op.Valid(plan.req)
  {
    forall p: nat, e: nat, x: nat {:trigger WrittenBy(plan, p, e, x)} ::
      x < |psum| && 0 < p < |plan.execs| && e < |plan.execs[p]| && (p, e) !in remaining && WrittenBy(plan, p, e, x)
      ==> psum[x] == op.Expected(plan.req)(x)
  }

  /** Running one more execution keeps the finished ones correct and adds its own. */
  lemma OneMoreDone(op: Op, plan: Plan, remaining: set<(nat, nat)>, before: seq<nat>, psum: seq<nat>,
                    addrs: seq<Addresses>, p: nat, e: nat)
    requires plan.Valid() && op.Valid(plan.req) && DoneCorrectly(op, plan, remaining, before) && |psum| == |before|
    requires 0 < p < |plan.execs| && e < |plan.execs[p]| && ExecFilled(plan.req, plan.execs[p][e].tables, addrs)
    requires forall x: nat :: x < |psum| ==>
      psum[x] == if InSome(plan.execs[p][e].tables, Destinations(addrs), plan.req.featureSize, x)
                 then op.Expected(plan.req)(x) else before[x]
    ensures DoneCorrectly(op, plan, remaining - {(p, e)}, psum)
  {
    hide Plan.Valid, Op.Valid, Op.Expected, InSome, WrittenBy, ChunkAddresses;
    forall x: nat
      ensures WrittenBy(plan, p, e, x) <==> InSome(plan.execs[p][e].tables, Destinations(addrs), plan.req.featureSize,
                                                   x)
    {
      WrittenIffInSome(plan, p, e, addrs, x);
    }
  }

  ghost predicate IsExec(execPacks: seq<seq<Execution>>, pe: (nat, nat)) {
    0 < pe.0 < |execPacks| && pe.1 < |execPacks[pe.0]|
  }

  /** All pairs of a pack and one of its executions. */
  method AllExecs(execPacks: seq<seq<Execution>>) returns (r: set<(nat, nat)>)
    ensures forall pe: (nat, nat) :: pe in r <==> IsExec(execPacks, pe)
  {
    r := {};
    var p := 1;
    while p < |execPacks|
      invariant 0 < p && forall pe: (nat, nat) :: pe in r <==> IsExec(execPacks, pe) && pe.0 < p
    {
      for e := 0 to |execPacks[p]|
        invariant forall pe: (nat, nat) :: pe in r <==> IsExec(execPacks, pe) && (pe.0 < p || (pe.0 == p && pe.1 < e))
      {
        r := r + {(p, e)};
      }
      p := p + 1;
    }
  }

  /** `acquire_cunit_from_range`: any unit of a pack. */
  method AcquireUnit(pack: nat, units: nat) returns (u: nat)
    requires 0 < pack < Pow2(units)
    ensures u < units && UnitInPack(pack, u)
  {
    ghost var v := SomeUnitInPack(pack, units);
    u :| u < units && UnitInPack(pack, u);
  }

  /** Blocks of the units. */
  ghost function Blocks(units: seq<CxlUnit>): set<object> {
    (set u | u in units :: u.inst as object) + (set u | u in units :: u.psum as object)
  }

  method RunOne(op: Op, tagged: bool, ghost plan: Plan, req: Request, execPacks: seq<seq<Execution>>,
                chunks: seq<seq<seq<Addresses>>>, units: seq<CxlUnit>, offsets: seq<map<nat, nat>>, psum: array<nat>,
                p: nat, e: nat, ghost remaining: set<(nat, nat)>)
    requires plan.Valid() && plan.req == req && plan.execs == execPacks && op.Valid(req)
    requires plan.job.featureBytes == 4 * req.featureSize
    requires |chunks| == |execPacks| && forall p :: 0 < p < |execPacks| ==> PackFilled(req, execPacks[p], chunks[p])
    requires UnitsReady(op, req, plan.job, plan.layout, units, offsets, psum)
    requires |req.lengths| * req.featureSize <= psum.Length
    requires IsExec(execPacks, (p, e)) && DoneCorrectly(op, plan, remaining, psum[..])
    modifies psum, Blocks(units)
    ensures DoneCorrectly(op, plan, remaining - {(p, e)}, psum[..])
  {
    hide Op.Valid, Op.Expected, Op.StoresAll, ExecFilled, InSome, Pow2, UnitInPack, Destinations;
    hide DistinctTables, TablesBelow, TablePlaced, UnitFits, Flat, Sum, DoneCorrectly, Job.GoodExecution, Job.Greedy;
    var u := AcquireUnit(p, |units|);
    UnitStoresExecution(op, plan, units, offsets, psum, p, e, u);
    assert plan.job.GoodPack(plan.layout[p], execPacks[p]) && PackFilled(req, execPacks[p], chunks[p]);
    assert units[u] in units;
    ghost var before := psum[..];
    RunExecution(op, tagged, plan.job, req, execPacks[p][e], chunks[p][e], units[u], offsets[u], psum);
    OneMoreDone(op, plan, remaining, before, psum[..], chunks[p][e], p, e);
  }

  /**
   * All executions of all packs, in any order and on any unit of each pack. This covers every way in which
   * the worker threads can interleave whole executions of different packs.
   */
  method RunPacks(op: Op, tagged: bool, ghost plan: Plan, req: Request, execPacks: seq<seq<Execution>>,
                  chunks: seq<seq<seq<Addresses>>>, units: seq<CxlUnit>, offsets: seq<map<nat, nat>>, psum: array<nat>)
    requires plan.Valid() && plan.req == req && plan.execs == execPacks && op.Valid(req)
    requires plan.job.featureBytes == 4 * req.featureSize
    requires |chunks| == |execPacks| && forall p :: 0 < p < |execPacks| ==> PackFilled(req, execPacks[p], chunks[p])
    requires UnitsReady(op, req, plan.job, plan.layout, units, offsets, psum)
    requires |req.lengths| * req.featureSize <= psum.Length
    modifies psum, Blocks(units)
    ensures AllReduced(op.arith, op.opcode, op.tables, req, psum[..])
  {
    hide Plan.Valid, Op.Valid, UnitsReady, PackFilled, DoneCorrectly, AllReduced;
    var remaining := AllExecs(execPacks);
    NothingDone(op, plan, remaining, psum[..]);
    while remaining != {}
      invariant forall pe :: pe in remaining ==> IsExec(execPacks, pe)
      invariant DoneCorrectly(op, plan, remaining, psum[..])
      decreases remaining
    {
      var pe :| pe in remaining;
      RunOne(op, tagged, plan, req, execPacks, chunks, units, offsets, psum, pe.0, pe.1, remaining);
      remaining := remaining - {pe};
    }
    AllDone(op, plan, psum[..]);
  }

  lemma NothingDone(op: Op, plan: Plan, remaining: set<(nat, nat)>, psum: seq<nat>)
    requires plan.Valid() && op.Valid(plan.req)
    requires forall pe :: pe in remaining <==> IsExec(plan.execs, pe)
    ensures DoneCorrectly(op, plan, remaining, psum)
  {
  }

  lemma AllDone(op: Op, plan: Plan, psum: seq<nat>)
    requires plan.Valid() && op.Valid(plan.req) && DoneCorrectly(op, plan, {}, psum)
    requires |plan.req.lengths| * plan.req.featureSize <= |psum|
    ensures AllReduced(op.arith, op.opcode, op.tables, plan.req, psum)
  {
    hide Plan.Valid, Op.Valid, Op.Expected, AllReduced;
    forall x: nat | x < |plan.req.lengths| * plan.req.featureSize
      ensures psum[x] == op.Expected(plan.req)(x)
    {
      plan.OutputsComplete(x);
      var c :| plan.IsPlace(c) && plan.Writes(c, x);
      assert c == Place(c.pack, c.exec, c.table);
      assert WrittenBy(plan, c.pack, c.exec, x);
    }
    op.ExpectedEverywhere(plan.req, psum);
  }

  /** Split the batches into executions and compute the addresses of all chunks. */
  method Prepare(req: Request, layout: seq<seq<nat>>, maxInst: nat, maxFeatures: nat)
    returns (execPacks: seq<seq<Execution>>, chunks: seq<seq<seq<Addresses>>>, ghost plan: Plan)
    requires req.Valid() && DistinctTables(layout) && TablesBelow(layout, req.numTables)
    requires forall t :: 0 <= t < req.numTables ==> TablePlaced(layout, t)
    requires 0 < maxFeatures && forall i :: 0 <= i < |req.lengths| ==> 0 < req.lengths[i] <= maxInst
    ensures plan.Valid() && |chunks| == |execPacks| == |layout|
    ensures plan == Plan(req, Job(req.lengths, req.miniBatch, maxInst, maxFeatures, 4 * req.featureSize), layout,
                         execPacks)
    ensures forall p :: 0 < p < |execPacks| ==> PackFilled(req, execPacks[p], chunks[p])
  {
    hide Job.GoodPack, DistinctTables, TablesBelow, TablePlaced, Sum;
    var generator := new ExecutionGenerator(layout, maxInst, maxFeatures, 4 * req.featureSize);
    generator.Generate(req.miniBatch, req.numTables, req.lengths);
    execPacks := generator.execPacks;
    ghost var job := Job(req.lengths, req.miniBatch, maxInst, maxFeatures, 4 * req.featureSize);
    plan := Plan(req, job, layout, execPacks);
    forall p | 0 < p < |layout|
      ensures job.GoodPack(layout[p], execPacks[p])
    {
      FreshIff(job.(starts := Resized([], req.numTables)), layout[p], execPacks[p]);
    }
    var data := new ExecutionPacksData(req);
    data.InitTablesIndexingData();
    AllChunks(plan);
    data.FillPacksData(execPacks);
    chunks := data.chunks;
  }

  /**
   * A whole SLS operation on CXL: split the batches into executions, compute the addresses of all chunks, and run
   * every execution on some unit. Whatever the blocks of the units held before, the user's psum ends up exactly as
   * `Reduction::compute` leaves it.
   */
  method RunSls(op: Op, tagged: bool, req: Request, layout: seq<seq<nat>>, maxInst: nat, maxFeatures: nat,
                units: seq<CxlUnit>, offsets: seq<map<nat, nat>>, psum: array<nat>)
    returns (execPacks: seq<seq<Execution>>)
    requires op.Valid(req)
    requires DistinctTables(layout) && TablesBelow(layout, req.numTables)
    requires forall t :: 0 <= t < req.numTables ==> TablePlaced(layout, t)
    requires 0 < maxFeatures && forall i :: 0 <= i < |req.lengths| ==> 0 < req.lengths[i] <= maxInst
    requires UnitsReady(op, req, Job(req.lengths, req.miniBatch, maxInst, maxFeatures, 4 * req.featureSize), layout,
                        units, offsets, psum)
    requires |req.lengths| * req.featureSize <= psum.Length
    modifies psum, Blocks(units)
    ensures AllReduced(op.arith, op.opcode, op.tables, req, psum[..])
    ensures Plan(req, Job(req.lengths, req.miniBatch, maxInst, maxFeatures, 4 * req.featureSize), layout, execPacks)
            .Fewest()
  {
    hide Plan.Valid, DistinctTables, TablesBelow, TablePlaced, UnitsReady, AllReduced, Sum, IndicesInTables;
    hide Plan.Fewest;
    var chunks;
    ghost var plan;
    execPacks, chunks, plan := Prepare(req, layout, maxInst, maxFeatures);
    RunPacks(op, tagged, plan, req, execPacks, chunks, units, offsets, psum);
    plan.PlanHasFewest();
  }

  /**
   * The units as the device has them: instruction blocks of one header and `instBuffer` words, psum blocks of
   * `psumBytes`.
   */
  ghost predicate DeviceReady(op: Op, req: Request, layout: seq<seq<nat>>, units: seq<CxlUnit>,
                              offsets: seq<map<nat, nat>>, psum: array<nat>, instBuffer: nat, psumBytes: nat)
  {
    && |layout| == Pow2(|units|) && |offsets| == |units|
    && (forall u :: 0 <= u < |units| ==>
          && units[u].inst != units[u].psum && psum != units[u].inst && psum != units[u].psum
          && units[u].inst.Length == instBuffer + 1 && 4 * units[u].psum.Length == psumBytes)
    && (forall p, u, k :: 0 < p < |layout| && 0 <= u < |units| && UnitInPack(p, u) && 0 <= k < |layout[p]| ==>
          op.Stores(units[u].mem, offsets[u], req, layout[p][k]))
  }

  lemma DivideRows(bytes: nat, width: nat)
    requires 0 < width && 4 * width <= bytes <= 4096 * (4 * width)
    ensures 0 < bytes / (4 * width) <= 4096 && 4 * (bytes / (4 * width) * width) <= bytes
  {
    var q := bytes / (4 * width);
    DivBounds(bytes, 4 * width);
    assert q * (4 * width) == 4 * (q * width);
    MulMonotone(4097, q, 4 * width);
  }

  /** The batches of each part fit the psum buffer, and their lookups the instruction limit. */
  ghost predicate PartsFitDevice(req: Request, maxInst: nat, psumBytes: nat, parts: seq<seq<Batch>>) {
    forall i :: 0 <= i < |parts| ==>
      |parts[i]| * (4 * req.featureSize) <= psumBytes
      && Job(req.lengths, req.miniBatch, 0, 0, 0).Cost(parts[i]) <= maxInst
  }

  /** No split that fits the device has fewer executions in any pack. */
  ghost predicate FewestForDevice(req: Request, layout: seq<seq<nat>>, maxInst: nat, psumBytes: nat,
                                  execPacks: seq<seq<Execution>>)
  {
    && |execPacks| == |layout|
    && forall p, other ::
         && 0 < p < |layout| && PartsFitDevice(req, maxInst, psumBytes, other)
         && Flatten(other) == PackBatches(layout[p], req.miniBatch)
         ==> |execPacks[p]| <= |other|
  }

  lemma {:induction false} CostIgnoresLimits(a: Job, b: Job, bs: seq<Batch>)
    requires a.lengths == b.lengths && a.miniBatch == b.miniBatch && a.starts == b.starts
    ensures a.Cost(bs) == b.Cost(bs)
  {
    if bs != [] {
      CostIgnoresLimits(a, b, bs[..|bs| - 1]);
    }
  }

  lemma RowsThatFit(n: nat, rowBytes: nat, bytes: nat)
    requires 0 < rowBytes
    ensures n * rowBytes <= bytes <==> n <= bytes / rowBytes
  {
    var q, r := bytes / rowBytes, bytes % rowBytes;
    MulMonotone(n, q, rowBytes);
    MulMonotone(q + 1, n, rowBytes);
  }

  lemma FewestWithDividedBuffers(req: Request, layout: seq<seq<nat>>, maxInst: nat, psumBytes: nat, maxFeatures: nat,
                                 execPacks: seq<seq<Execution>>)
    requires 0 < req.featureSize && maxFeatures == psumBytes / (4 * req.featureSize)
    requires Plan(req, Job(req.lengths, req.miniBatch, maxInst, maxFeatures, 4 * req.featureSize), layout, execPacks)
             .Fewest()
    ensures FewestForDevice(req, layout, maxInst, psumBytes, execPacks)
  {
    hide Flatten, PackBatches, Job.Cost;
    var job := Job(req.lengths, req.miniBatch, maxInst, maxFeatures, 4 * req.featureSize);
    forall p, other | 0 < p < |layout| && PartsFitDevice(req, maxInst, psumBytes, other)
      && Flatten(other) == PackBatches(layout[p], req.miniBatch)
      ensures |execPacks[p]| <= |other|
    {
      forall i | 0 <= i < |other|
        ensures |other[i]| <= maxFeatures && job.Cost(other[i]) <= maxInst
      {
        RowsThatFit(|other[i]|, 4 * req.featureSize, psumBytes);
        CostIgnoresLimits(job, Job(req.lengths, req.miniBatch, 0, 0, 0), other[i]);
      }
    }
  }

  /**
   * The operation with the limits that `init_exec_gen` computes from the device's buffers and any buffer divider:
   * it gives the reference result whenever every lookup list is non-empty and fits the instruction block, and it uses
   * no more executions than the divided instruction buffer and the psum buffer ask for.
   */
  method RunOperation(op: Op, tagged: bool, req: Request, layout: seq<seq<nat>>, instBuffer: nat, psumBytes: nat,
                      divider: real, units: seq<CxlUnit>, offsets: seq<map<nat, nat>>, psum: array<nat>)
    returns (maxInst: nat, execPacks: seq<seq<Execution>>)
    requires op.Valid(req) && req.lengths != [] && divider >= 1.0
    requires DistinctTables(layout) && TablesBelow(layout, req.numTables)
    requires forall t :: 0 <= t < req.numTables ==> TablePlaced(layout, t)
    requires forall i :: 0 <= i < |req.lengths| ==> 0 < req.lengths[i] <= instBuffer
    requires 4 * req.featureSize <= psumBytes <= 4096 * (4 * req.featureSize)
    requires DeviceReady(op, req, layout, units, offsets, psum, instBuffer, psumBytes)
    requires |req.lengths| * req.featureSize <= psum.Length
    modifies psum, Blocks(units)
    ensures AllReduced(op.arith, op.opcode, op.tables, req, psum[..])
    ensures instBuffer as real / divider < maxInst as real + 1.0
    ensures FewestForDevice(req, layout, maxInst, psumBytes, execPacks)
  {
    hide DistinctTables, TablesBelow, TablePlaced, AllReduced, Sum, IndicesInTables, Op.Stores, UnitInPack;
    hide Plan.Fewest, FewestForDevice;
    maxInst := SetInstrBufferSize(instBuffer, divider, req.lengths);
    DivideRows(psumBytes, req.featureSize);
    var maxFeatures := psumBytes / (4 * req.featureSize);
    execPacks := RunSls(op, tagged, req, layout, maxInst, maxFeatures, units, offsets, psum);
    FewestWithDividedBuffers(req, layout, maxInst, psumBytes, maxFeatures, execPacks);
  }

  lemma AllChunks(plan: Plan)
    requires plan.Valid()
    ensures forall p :: 0 < p < |plan.execs| ==> ChunksInTables(plan.req, plan.execs[p])
  {
    hide Plan.Valid;
    forall p | 0 < p < |plan.execs|
      ensures ChunksInTables(plan.req, plan.execs[p])
    {
      plan.AllChunksInTables(p);
    }
  }

  /** Two buffers that hold the reference result agree on the whole psum part. */
  lemma ReferenceDeterminesPsum(op: Op, req: Request, a: seq<nat>, b: seq<nat>)
    requires op.Valid(req) && AllReduced(op.arith, op.opcode, op.tables, req, a)
    requires AllReduced(op.arith, op.opcode, op.tables, req, b)
    requires |req.lengths| * req.featureSize <= |a| && |req.lengths| * req.featureSize <= |b|
    ensures a[..|req.lengths| * req.featureSize] == b[..|req.lengths| * req.featureSize]
  {
    hide Op.Expected, IndicesInTables, IsReduced, Flat;
    forall x: nat | x < |req.lengths| * req.featureSize
      ensures a[x] == b[x]
    {
      var r, e := FlatSurjective(req.featureSize, |req.lengths|, x);
      var t, i := FlatSurjective(req.miniBatch, req.numTables, r);
      op.ReducedElement(req, a, Batch(t, i), e);
      op.ReducedElement(req, b, Batch(t, i), e);
    }
  }
}
