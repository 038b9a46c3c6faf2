/**
 * A whole SLS operation on AXDIMM units, with the values that the host reads (axdimm_runner,
 * operation_runner/reduction/core).
 */
module AxdimmRunners {
  import opened SeqMath
  import opened ExecutionGenerators
  import opened PacksData
  import opened ChunkCover
  import opened CpuSls
  import opened TraceGeneratorCores
  import opened TraceGenerators
  import opened SparseReductions
  import opened CxlDevices
  import opened CxlRunners
  import opened DirtyRange
  import opened AxdimmPipeline
  import opened AxdimmResults

  // ----- The values of a clean result.

  /** The additions of the words at element `e` of the rows at `addresses`. */
  ghost function RowTerms(opcode: nat, addresses: seq<nat>, e: nat): Element {
    seq(|addresses|, j requires 0 <= j < |addresses| => Term(opcode, addresses[j] + 4 * e))
  }

  /** Element `e` of output row `o` gets the rows that the trace sends there, in order. */
  lemma {:induction false} TermsOfRow(t: Trace, k: nat, opcode: nat, o: nat, e: nat)
    requires k <= |t.ir| && e < t.width && forall j :: 0 <= j < |t.ir| ==> t.ir[j].opcode == opcode
    ensures Terms(t, k, Flat(o, t.width, e)) == RowTerms(opcode, AddressesFor(t.ir[..k], o), e)
  {
    if k > 0 {
      TermsOfRow(t, k - 1, opcode, o, e);
      var i := t.ir[k - 1];
      InRow(i.output, o, t.width, e);
      assert t.ir[..k][..k - 1] == t.ir[..k - 1];
      var before := AddressesFor(t.ir[..k - 1], o);
      assert RowTerms(opcode, before + [i.address], e) == RowTerms(opcode, before, e) +
             [Term(opcode, i.address + 4 * e)];
      assert before + [] == before;
    }
  }

  lemma InRow(output: nat, o: nat, width: nat, e: nat)
    requires e < width
    ensures output * width <= Flat(o, width, e) < output * width + width <==> output == o
    ensures output == o ==> Flat(o, width, e) - output * width == e
  {
    MulCompare(output, o, width);
  }

  lemma {:induction false} ValueOfRow(arith: Arith, mem: nat -> nat, opcode: nat, addresses: seq<nat>, e: nat)
    ensures Value(arith, mem, RowTerms(opcode, addresses, e)) == arith.Fold(opcode, Words(mem, addresses, e))
  {
    if addresses != [] {
      var n := |addresses| - 1;
      ValueOfRow(arith, mem, opcode, addresses[..n], e);
      assert RowTerms(opcode, addresses, e)[..n] == RowTerms(opcode, addresses[..n], e);
      assert Words(mem, addresses, e)[..n] == Words(mem, addresses[..n], e);
    }
  }

  /** The values of a serving trace are the reductions of its batches. */
  lemma CleanComputes(op: Op, mem: nat -> nat, offsets: map<nat, nat>, req: Request, bs: seq<Batch>, t: Trace)
    requires op.Valid(req) && op.StoresAll(mem, offsets, req, bs)
    requires Serves(t.ir, req, bs, offsets, op.rowBytes, op.opcode)
    requires t.width == req.featureSize && t.rows == |bs|
    ensures op.ResultRows(req, bs, Values(op.arith, mem, Clean(t)))
  {
    hide IndicesInTables, Op.Stores, RowAddresses, Arith.Fold, AddressesFor, Terms, Value, Flat;
    forall o, e | 0 <= o < |bs| && 0 <= e < req.featureSize
      ensures Flat(o, req.featureSize, e) < |Values(op.arith, mem, Clean(t))|
      ensures Values(op.arith, mem, Clean(t))[Flat(o, req.featureSize, e)]
           == Reduction(op.arith, op.opcode, op.tables, req, bs[o])[e]
    {
      FlatInBounds(o, |bs|, req.featureSize, e);
      TermsOfRow(t, |t.ir|, op.opcode, o, e);
      assert t.ir[..|t.ir|] == t.ir;
      ValueOfRow(op.arith, mem, op.opcode, AddressesFor(t.ir, o), e);
      op.BatchWords(mem, offsets, req, bs[o], e);
    }
  }

  // ----- Traces.

  /** A serving trace is proper: every row is addressed, from the first to the last. */
  lemma ServingIsProper(req: Request, bs: seq<Batch>, offsets: map<nat, nat>, rowBytes: nat, opcode: nat, t: Trace,
                        size: nat)
    requires Serves(t.ir, req, bs, offsets, rowBytes, opcode) && bs != []
    requires forall o :: 0 <= o < |bs| ==> IndexList(req, bs[o]) != []
    requires t.rows == |bs| && 0 < t.width && t.rows * t.width <= size
    ensures Proper(t, size)
  {
    hide IndexList, AddressesFor, AllInRequest, Hosted;
    var first := Addressed(t.ir, 0);
    var last := Addressed(t.ir, |bs| - 1);
    assert t.ir[first].output == 0 && t.ir[last].output == t.rows - 1;
    forall k | 0 <= k < |t.ir|
      ensures t.ir[k].output * t.width + t.width <= size
    {
      RowOfRows(t.ir[k].output, t.rows, t.width);
    }
  }

  lemma {:induction false} Addressed(ir: seq<IR>, o: nat) returns (i: nat)
    requires AddressesFor(ir, o) != []
    ensures i < |ir| && ir[i].output == o
  {
    if ir[|ir| - 1].output == o {
      i := |ir| - 1;
    } else {
      i := Addressed(ir[..|ir| - 1], o);
    }
  }

  /** A serving trace on a cleared buffer, followed by a clear, leaves the buffer all zero. */
  lemma ServingTraceIsCleared(req: Request, bs: seq<Batch>, offsets: map<nat, nat>, rowBytes: nat, opcode: nat,
                              t: Trace, b: Buffer)
    requires Serves(t.ir, req, bs, offsets, rowBytes, opcode) && bs != []
    requires forall o :: 0 <= o < |bs| ==> IndexList(req, bs[o]) != []
    requires t.rows == |bs| && 0 < t.width && t.rows * t.width <= |b.data|
    requires b.min == |b.data| && b.max == 0 && b.AllZero([])
    ensures t.Fits(|b.data|) && Ran(b, t, |t.ir|).Cleared([]).AllZero([])
  {
    hide Serves, IndexList, Proper, Ran, Repeated;
    ServingIsProper(req, bs, offsets, rowBytes, opcode, t, |b.data|);
    ProperSize(t, |b.data|);
    NoDummies();
    ExecutionIsCleared(b, |b.data|, 0, t);
  }

  /** The batches of an execution ask for at least one row each. */
  lemma ListsNonEmpty(req: Request, bs: seq<Batch>)
    requires AllInRequest(req, bs) && forall i :: 0 <= i < |req.lengths| ==> 0 < req.lengths[i]
    ensures forall o :: 0 <= o < |bs| ==> IndexList(req, bs[o]) != []
  {
    forall o | 0 <= o < |bs|
      ensures IndexList(req, bs[o]) != []
    {
      RowOf(req, bs[o]);
    }
  }

  /**
   * The trace of an execution, compiled for the ranked address map; over any stale words the device decodes it again.
   */
  method CompileExecution(op: Op, tagged: bool, ghost job: Job, req: Request, e: Execution, addrs: seq<Addresses>,
                          offsets: map<nat, nat>, ghost mem: nat -> nat, ghost size: nat)
    returns (words: seq<nat>, t: Trace)
    requires op.Valid(req) && job.GoodExecution(e) && ExecFilled(req, e.tables, addrs)
    requires job.lengths == req.lengths && job.miniBatch == req.miniBatch && job.starts == []
    requires job.featureBytes == 4 * req.featureSize
    requires forall k :: 0 <= k < |e.tables| ==> ChunkInTable(req, e.tables[k]) && e.tables[k].tableId in offsets
    requires job.maxFeatures * req.featureSize <= size && job.maxFeatures <= 4096
    requires op.StoresAll(mem, offsets, req, Expand(e.tables))
    requires forall i :: 0 <= i < |req.lengths| ==> 0 < req.lengths[i]
    ensures t.width == req.featureSize && t.rows == e.batches && Proper(t, size)
    ensures |words| == |t.ir| + 1 <= job.maxInst + 1 && BytesPerIndex(words[0]) == 4 * req.featureSize
    ensures words[0] / TAG_BIT % 2 == if tagged then 1 else 0
    ensures Serves(t.ir, req, Expand(e.tables), offsets, op.rowBytes, op.opcode)
    ensures forall stale :: DecodeFrom(Ranked, words + stale, 1) == t.ir
  {
    hide Sum, IndicesInTables, Op.Stores, ExecFilled, DecodeFrom, TraceWords, AddressesFor, RowAddresses;
    hide Expand, Job.Cost, Flat, Encodable, Proper, IndexList;
    ghost var bs := Expand(e.tables);
    var ir := GenerateInstructions(job, req, e.tables, addrs, offsets, op.rowBytes, op.opcode);
    op.TraceEncodable(mem, offsets, req, bs, ir);
    words := CompileTrace(Ranked, 4 * req.featureSize, tagged, ir);
    t := Trace(ir, req.featureSize, e.batches);
    TraceLength(Ranked, 4 * req.featureSize, tagged, ir);
    TraceHeader(Ranked, 4 * req.featureSize, tagged, ir);
    HeaderRoundTrip(4 * req.featureSize, tagged);
    MulMonotone(e.batches, job.maxFeatures, req.featureSize);
    ListsNonEmpty(req, bs);
    ServingIsProper(req, bs, offsets, op.rowBytes, op.opcode, t, size);
    ProperSize(t, size);
    forall stale
      ensures DecodeFrom(Ranked, words + stale, 1) == ir
    {
      TraceDecodes(Ranked, 4 * req.featureSize, tagged, ir, stale);
    }
  }

  // ----- The operation.

  /** A finished sequence of runs on one unit; the run of a pack starts at trigger `first`. */
  datatype UnitWork = UnitWork(c: Config, run: seq<State>, first: nat, mem: nat -> nat, offsets: map<nat, nat>)

  ghost predicate Finished(w: UnitWork) {
    Session(w.c) && IsRun(w.c, w.run) && w.run[|w.run| - 1].pc == Done
  }

  /** Execution `e` came as trigger `n` of the unit, and its result is not mixed with an earlier dummy. */
  ghost predicate RanAs(op: Op, req: Request, e: Execution, w: UnitWork, n: nat)
    requires Finished(w) && op.Valid(req)
  {
    && n < |w.c.plan| && w.c.plan[n].Exec? && op.StoresAll(w.mem, w.offsets, req, Expand(e.tables))
    && var t := w.c.plan[n].trace;
    && Serves(t.ir, req, Expand(e.tables), w.offsets, op.rowBytes, op.opcode)
    && t.width == req.featureSize && t.rows == |Expand(e.tables)|
    && (Residue(w.c, n, w.c.BufferOf(n)) == 0 || t.ReadSize() <= DUMMY_AT)
  }

  /** The words that the host got for trigger `n`. */
  ghost predicate IsRead(op: Op, w: UnitWork, n: nat, tmp: seq<nat>)
    requires Finished(w)
  {
    var out := w.run[|w.run| - 1].out;
    n in out && tmp == Values(op.arith, w.mem, out[n])
  }

  /** In every interleaving the host got the reductions of the batches of the execution. */
  lemma ReadIsReduction(op: Op, req: Request, e: Execution, w: UnitWork, n: nat, tmp: seq<nat>)
    requires Finished(w) && op.Valid(req) && RanAs(op, req, e, w, n) && IsRead(op, w, n, tmp)
    ensures AllInRequest(req, Expand(e.tables)) && op.ResultRows(req, Expand(e.tables), tmp)
    ensures |tmp| == |Expand(e.tables)| * req.featureSize
  {
    hide Op.Valid, Op.ResultRows, Op.StoresAll, Clean, Expand, Result, Residue, Proper, Init;
    FinishedRunReadsEverything(w.c, w.run);
    RunStartsFresh(w.c, w.run);
    ExactIff(w.c, w.run[0].bufs, n);
    CleanLength(w.c.plan[n].trace);
    CleanComputes(op, w.mem, w.offsets, req, Expand(e.tables), w.c.plan[n].trace);
  }

  lemma RunStartsFresh(c: Config, run: seq<State>)
    requires c.Valid() && IsRun(c, run)
    ensures Fresh(c, run[0].bufs)
  {
  }

  lemma CleanLength(t: Trace)
    ensures |Clean(t)| == t.ReadSize() == t.rows * t.width
  {
  }

  /** Every execution of a pack was served by the pack's unit. */
  ghost predicate PackServed(op: Op, req: Request, execs: seq<Execution>, w: UnitWork, rows: seq<seq<nat>>)
    requires op.Valid(req)
  {
    && |rows| == |execs| && (execs != [] ==> Finished(w))
    && forall e :: 0 <= e < |execs| ==> RanAs(op, req, execs[e], w, w.first + e) && IsRead(op, w, w.first + e, rows[e])
  }

  /**
   * The results of all packs: each pack runs on a unit, after and before any other runs of that unit, in any
   * interleaving with its worker; the host delivers what it read, in any order. The user's psum ends up exactly as
   * `Reduction::compute` leaves it.
   */
  method CollectResults(op: Op, ghost plan: Plan, req: Request, execPacks: seq<seq<Execution>>,
                        chunks: seq<seq<seq<Addresses>>>, ghost works: seq<UnitWork>, rows: seq<seq<seq<nat>>>,
                        psum: array<nat>)
    requires plan.Valid() && plan.req == req && plan.execs == execPacks && op.Valid(req)
    requires |chunks| == |execPacks| && forall p :: 0 < p < |execPacks| ==> PackFilled(req, execPacks[p], chunks[p])
    requires |works| == |rows| == |execPacks|
    requires forall p :: 0 < p < |execPacks| ==> PackServed(op, req, execPacks[p], works[p], rows[p])
    requires |req.lengths| * req.featureSize <= psum.Length
    modifies psum
    ensures AllReduced(op.arith, op.opcode, op.tables, req, psum[..])
  {
    hide Plan.Valid, Op.Valid, PackFilled, DoneCorrectly, AllReduced, PackServed;
    var remaining := AllExecs(execPacks);
    NothingDone(op, plan, remaining, psum[..]);
    while remaining != {}
      invariant forall pe :: pe in remaining ==> IsExec(execPacks, pe)
      invariant DoneCorrectly(op, plan, remaining, psum[..])
      decreases remaining
    {
      var pe :| pe in remaining;
      DeliverOne(op, plan, req, execPacks, chunks, works[pe.0], rows[pe.0], psum, pe.0, pe.1, remaining);
      remaining := remaining - {pe};
    }
    AllDone(op, plan, psum[..]);
  }

  method DeliverOne(op: Op, ghost plan: Plan, req: Request, execPacks: seq<seq<Execution>>,
                    chunks: seq<seq<seq<Addresses>>>, ghost w: UnitWork, rows: seq<seq<nat>>, psum: array<nat>, p: nat,
                    e: nat, ghost remaining: set<(nat, nat)>)
    requires plan.Valid() && plan.req == req && plan.execs == execPacks && op.Valid(req)
    requires |chunks| == |execPacks| && forall q :: 0 < q < |execPacks| ==> PackFilled(req, execPacks[q], chunks[q])
    requires |req.lengths| * req.featureSize <= psum.Length && IsExec(execPacks, (p, e))
    requires PackServed(op, req, execPacks[p], w, rows) && DoneCorrectly(op, plan, remaining, psum[..])
    modifies psum
    ensures DoneCorrectly(op, plan, remaining - {(p, e)}, psum[..])
  {
    hide Plan.Valid, Op.Valid, Op.Expected, ExecFilled, InSome;
    hide Destinations, DoneCorrectly, RanAs, IsRead, Finished, Op.ResultRows;
    assert PackFilled(req, execPacks[p], chunks[p]);
    ReadIsReduction(op, req, execPacks[p][e], w, w.first + e, rows[e]);
    ChunksOf(plan, p, e);
    ghost var before := psum[..];
    Deliver(op, req, execPacks[p][e], chunks[p][e], rows[e], psum);
    OneMoreDone(op, plan, remaining, before, psum[..], chunks[p][e], p, e);
  }

  lemma ChunksOf(plan: Plan, p: nat, e: nat)
    requires plan.Valid() && IsExec(plan.execs, (p, e))
    ensures forall k :: 0 <= k < |plan.execs[p][e].tables| ==> ChunkInTable(plan.req, plan.execs[p][e].tables[k])
  {
    hide Plan.Valid;
    plan.AllChunksInTables(p);
  }

  // ----- From the request to the reference result.

  /** The compiled words of an execution, and the rows that the host reads back. */
  datatype Submission = Submission(words: seq<nat>, rows: nat)

  /** A unit that finds the words in front of some stale ones runs trace `t`. */
  ghost predicate DecodesTo(sub: Submission, t: Trace) {
    && sub.words != [] && 4 * t.width == BytesPerIndex(sub.words[0]) && t.rows == sub.rows
    && exists stale :: t.ir == DecodeFrom(Ranked, sub.words + stale, 1)
  }

  ghost predicate AllRunnable(subs: seq<Submission>, size: nat) {
    forall e :: 0 <= e < |subs| ==> exists t :: DecodesTo(subs[e], t) && Proper(t, size)
  }

  /** In a finished interleaving the unit ran the submissions from trigger `first` on, and the host read the answers. */
  ghost predicate Answers(op: Op, w: UnitWork, subs: seq<Submission>, answers: seq<seq<nat>>) {
    && Finished(w) && |answers| == |subs| && w.first + |subs| <= |w.c.plan|
    && forall e :: 0 <= e < |subs| ==>
         && w.c.plan[w.first + e].Exec? && DecodesTo(subs[e], w.c.plan[w.first + e].trace)
         && IsRead(op, w, w.first + e, answers[e])
  }

  /** Whatever it is asked to run, a unit with buffers of this size can answer. */
  lemma SomeAnswers(op: Op, subs: seq<Submission>, size: nat, mem: nat -> nat, offsets: map<nat, nat>)
    returns (w: UnitWork, answers: seq<seq<nat>>)
    requires subs != [] && AllRunnable(subs, size) && DUMMY.Fits(size) && size % CLEAR_BLOCK == 0
    ensures Answers(op, w, subs, answers) && w.first == 0 && w.mem == mem && w.offsets == offsets && w.c.size == size
  {
    hide DecodesTo, Results;
    var traces := DecodedTraces(subs, size);
    var c := Config(seq(|subs|, e requires 0 <= e < |subs| => Exec(traces[e])) + [Dummy], 2, size);
    ProperPlan(c, traces);
    var run := SomeRunFinishes(c);
    w := UnitWork(c, run, 0, mem, offsets);
    FinishedRunReadsEverything(c, run);
    var out := run[|run| - 1].out;
    ReadAll(c, run[0].bufs);
    answers := seq(|subs|, e requires 0 <= e < |subs| => if e in out then Values(op.arith, mem, out[e]) else []);
  }

  lemma {:induction false} DecodedTraces(subs: seq<Submission>, size: nat) returns (traces: seq<Trace>)
    requires AllRunnable(subs, size)
    ensures |traces| == |subs|
    ensures forall e :: 0 <= e < |subs| ==> DecodesTo(subs[e], traces[e]) && Proper(traces[e], size)
  {
    hide DecodesTo, Proper;
    traces := [];
    while |traces| < |subs|
      invariant |traces| <= |subs|
      invariant forall e :: 0 <= e < |traces| ==> DecodesTo(subs[e], traces[e]) && Proper(traces[e], size)
    {
      var t :| DecodesTo(subs[|traces|], t) && Proper(t, size);
      traces := traces + [t];
    }
  }

  lemma ProperPlan(c: Config, traces: seq<Trace>)
    requires traces != [] && |c.plan| == |traces| + 1 && c.plan[|traces|] == Dummy && c.buffers == 2
    requires forall e :: 0 <= e < |traces| ==> c.plan[e] == Exec(traces[e]) && Proper(traces[e], c.size)
    requires DUMMY.Fits(c.size) && c.size % CLEAR_BLOCK == 0
    ensures Session(c)
  {
    forall n: nat | n < |c.plan|
      ensures c.TraceAt(n).Fits(c.size)
    {
    }
  }

  lemma ReadAll(c: Config, init: seq<Buffer>)
    requires c.Valid() && c.HasShape(init)
    ensures forall n: nat :: n < |c.plan| && c.plan[n].Exec? ==> n in Results(c, init, |c.plan|)
  {
    hide Result;
  }

  /** The submission of execution `e` makes a unit serve its batches. */
  ghost predicate RightFor(op: Op, req: Request, e: Execution, offsets: map<nat, nat>, sub: Submission) {
    forall t :: DecodesTo(sub, t) ==>
      && Serves(t.ir, req, Expand(e.tables), offsets, op.rowBytes, op.opcode)
      && t.width == req.featureSize && t.rows == e.batches
  }

  /** The submissions of a pack. */
  method CompilePack(op: Op, tagged: bool, ghost plan: Plan, req: Request, execs: seq<Execution>,
                     chunks: seq<seq<Addresses>>, offsets: map<nat, nat>, ghost mem: nat -> nat, ghost size: nat,
                     ghost p: nat)
    returns (subs: seq<Submission>)
    requires plan.Valid() && plan.req == req && 0 < p < |plan.execs| && plan.execs[p] == execs && op.Valid(req)
    requires PackFilled(req, execs, chunks) && plan.job.featureBytes == 4 * req.featureSize
    requires plan.job.maxFeatures * req.featureSize <= size && plan.job.maxFeatures <= 4096
    requires forall k :: 0 <= k < |plan.layout[p]| ==> op.Stores(mem, offsets, req, plan.layout[p][k])
    requires forall i :: 0 <= i < |req.lengths| ==> 0 < req.lengths[i]
    ensures |subs| == |execs| && AllRunnable(subs, size)
    ensures forall e :: 0 <= e < |subs| ==> RightFor(op, req, execs[e], offsets, subs[e])
  {
    hide Op.Valid, Op.Stores, Op.StoresAll, ExecFilled, RightFor, Proper, DecodesTo, Serves;
    hide DistinctTables, TablesBelow, TablePlaced, Job.GoodExecution, Job.Greedy, Flatten, Expand;
    subs := [];
    for e := 0 to |execs|
      invariant |subs| == e && AllRunnable(subs, size)
      invariant forall i :: 0 <= i < e ==> RightFor(op, req, execs[i], offsets, subs[i])
    {
      assert plan.job.GoodPack(plan.layout[p], execs);
      StoresExecution(op, plan, mem, offsets, p, e);
      var words, t := CompileExecution(op, tagged, plan.job, req, execs[e], chunks[e], offsets, mem, size);
      var one := Submission(words, execs[e].batches);
      WordsAreRight(op, req, execs[e], offsets, one, t);
      subs := subs + [one];
    }
  }

  lemma WordsAreRight(op: Op, req: Request, e: Execution, offsets: map<nat, nat>, sub: Submission, t: Trace)
    requires sub.words != [] && BytesPerIndex(sub.words[0]) == 4 * req.featureSize && sub.rows == e.batches
    requires t.width == req.featureSize && t.rows == e.batches
    requires Serves(t.ir, req, Expand(e.tables), offsets, op.rowBytes, op.opcode)
    requires forall stale :: DecodeFrom(Ranked, sub.words + stale, 1) == t.ir
    ensures DecodesTo(sub, t) && RightFor(op, req, e, offsets, sub)
  {
    hide DecodeFrom, Serves, BytesPerIndex, Expand;
    assert DecodeFrom(Ranked, sub.words + [], 1) == t.ir;
  }

  /** Read in the first run of a unit, or small enough, the answers are not mixed with a dummy. */
  lemma AnswersServePack(op: Op, plan: Plan, p: nat, w: UnitWork, subs: seq<Submission>, answers: seq<seq<nat>>)
    requires plan.Valid() && 0 < p < |plan.execs| && op.Valid(plan.req) && |subs| == |plan.execs[p]|
    requires forall k :: 0 <= k < |plan.layout[p]| ==> op.Stores(w.mem, w.offsets, plan.req, plan.layout[p][k])
    requires forall e :: 0 <= e < |subs| ==> RightFor(op, plan.req, plan.execs[p][e], w.offsets, subs[e])
    requires Answers(op, w, subs, answers)
    requires w.first == 0 || plan.job.maxFeatures * plan.req.featureSize <= DUMMY_AT
    ensures PackServed(op, plan.req, plan.execs[p], w, answers)
  {
    hide Op.Valid, Op.Stores, Op.StoresAll, DecodesTo, Serves, IsRead, Finished;
    hide DistinctTables, TablesBelow, TablePlaced, Job.Greedy, Flatten, Expand, Job.Cost;
    OnlyExecs(op, w, subs, answers);
    forall e | 0 <= e < |subs|
      ensures RanAs(op, plan.req, plan.execs[p][e], w, w.first + e)
    {
      var x := plan.execs[p][e];
      assert plan.job.GoodExecution(x) && RightFor(op, plan.req, x, w.offsets, subs[e]);
      StoresExecution(op, plan, w.mem, w.offsets, p, e);
      NotMixed(w, e, x.batches, plan.req.featureSize, plan.job.maxFeatures);
    }
  }

  lemma OnlyExecs(op: Op, w: UnitWork, subs: seq<Submission>, answers: seq<seq<nat>>)
    requires Answers(op, w, subs, answers)
    ensures forall n :: w.first <= n < w.first + |subs| ==> w.c.plan[n].Exec?
  {
    hide Finished, DecodesTo, IsRead;
    forall n | w.first <= n < w.first + |subs|
      ensures w.c.plan[n].Exec?
    {
      var e := n - w.first;
      assert DecodesTo(subs[e], w.c.plan[w.first + e].trace);
    }
  }

  lemma NotMixed(w: UnitWork, e: nat, rows: nat, width: nat, limit: nat)
    requires Finished(w) && w.first + e < |w.c.plan| && rows <= limit
    requires forall n :: w.first <= n <= w.first + e ==> w.c.plan[n].Exec?
    requires w.first == 0 || limit * width <= DUMMY_AT
    ensures Residue(w.c, w.first + e, w.c.BufferOf(w.first + e)) == 0 || rows * width <= DUMMY_AT
  {
    if w.first == 0 {
      NoResidueBeforeDummy(w.c, e, w.c.BufferOf(e));
    } else {
      MulMonotone(rows, limit, width);
    }
  }

  /** For a pack and its submissions, what the host reads back. */
  type Device = (nat, seq<Submission>) -> seq<seq<nat>>

  /** The unit with this memory answered; after other runs its results stay below the row of the dummy. */
  ghost predicate AnswersOn(op: Op, w: UnitWork, mem: nat -> nat, offsets: map<nat, nat>, maxRows: nat,
                            width: nat, subs: seq<Submission>, answers: seq<seq<nat>>)
  {
    && w.mem == mem && w.offsets == offsets && (w.first == 0 || maxRows * width <= DUMMY_AT)
    && Answers(op, w, subs, answers)
  }

  /**
   * The device: each pack runs on a unit that holds its tables, in any interleaving with the worker of that unit and
   * after and before any other runs there.
   */
  ghost predicate UnitsAnswer(op: Op, device: Device, layout: seq<seq<nat>>, req: Request, mems: seq<nat -> nat>,
                              offsets: seq<map<nat, nat>>, size: nat, maxRows: nat)
  {
    && |mems| == |offsets| == |layout|
    && (forall p, k :: 0 < p < |layout| && 0 <= k < |layout[p]| ==>
          op.Stores(mems[p], offsets[p], req, layout[p][k]))
    && (forall p: nat, subs: seq<Submission> :: 0 < p < |layout| && subs != [] && AllRunnable(subs, size) ==>
          exists w :: AnswersOn(op, w, mems[p], offsets[p], maxRows, req.featureSize, subs, device(p, subs)))
  }

  /**
   * A whole SLS operation on AXDIMM: split the batches into executions, compute the addresses of all chunks, compile
   * and submit the executions of every pack, and deliver what was read. In every interleaving the user's psum ends up
   * exactly as `Reduction::compute` leaves it.
   */
  method RunSls(op: Op, tagged: bool, req: Request, layout: seq<seq<nat>>, maxInst: nat, maxFeatures: nat,
                device: Device, ghost mems: seq<nat -> nat>, offsets: seq<map<nat, nat>>, ghost size: nat,
                psum: array<nat>)
    returns (execPacks: seq<seq<Execution>>)
    requires op.Valid(req)
    requires DistinctTables(layout) && TablesBelow(layout, req.numTables)
    requires forall t :: 0 <= t < req.numTables ==> TablePlaced(layout, t)
    requires 0 < maxFeatures <= 4096 && maxFeatures * req.featureSize <= size
    requires forall i :: 0 <= i < |req.lengths| ==> 0 < req.lengths[i] <= maxInst
    requires UnitsAnswer(op, device, layout, req, mems, offsets, size, maxFeatures)
    requires |req.lengths| * req.featureSize <= psum.Length
    modifies psum
    ensures AllReduced(op.arith, op.opcode, op.tables, req, psum[..])
    ensures Plan(req, Job(req.lengths, req.miniBatch, maxInst, maxFeatures, 4 * req.featureSize), layout, execPacks)
            .Fewest()
  {
    hide Plan.Valid, DistinctTables, TablesBelow, TablePlaced, AllReduced, Sum, UnitsAnswer, PackServed;
    hide PackFilled, IndicesInTables, Plan.Fewest;
    var chunks;
    ghost var plan;
    execPacks, chunks, plan := Prepare(req, layout, maxInst, maxFeatures);
    var rows: seq<seq<seq<nat>>> := [];
    ghost var works: seq<UnitWork> := [];
    ghost var idle := UnitWork(Config([], 0, 0), [], 0, (a: nat) => 0, map[]);
    for p := 0 to |layout|
      invariant |rows| == |works| == p
      invariant forall q :: 0 < q < p ==> PackServed(op, req, execPacks[q], works[q], rows[q])
    {
      if p == 0 || execPacks[p] == [] {
        rows, works := rows + [[]], works + [idle];
        NothingToServe(op, req, idle);
      } else {
        ghost var w;
        var answers;
        answers, w := RunOnPack(op, tagged, plan, req, execPacks[p], chunks[p], device, mems, offsets, size, p);
        rows, works := rows + [answers], works + [w];
      }
    }
    CollectResults(op, plan, req, execPacks, chunks, works, rows, psum);
    plan.PlanHasFewest();
  }

  lemma NothingToServe(op: Op, req: Request, w: UnitWork)
    requires op.Valid(req)
    ensures PackServed(op, req, [], w, [])
  {
  }

  /** The rows of an execution are the reductions of its batches. */
  ghost predicate IsReductionOf(op: Op, req: Request, e: Execution, rows: seq<nat>)
    requires op.Valid(req)
  {
    && AllInRequest(req, Expand(e.tables)) && op.ResultRows(req, Expand(e.tables), rows)
    && |rows| == |Expand(e.tables)| * req.featureSize
  }

  lemma ServedIsReduced(op: Op, req: Request, execs: seq<Execution>, w: UnitWork, answers: seq<seq<nat>>)
    requires op.Valid(req) && PackServed(op, req, execs, w, answers)
    ensures |answers| == |execs| && forall e :: 0 <= e < |execs| ==> IsReductionOf(op, req, execs[e], answers[e])
  {
    hide Op.Valid, Op.ResultRows, Finished, RanAs, IsRead, Expand, AllInRequest;
    forall e | 0 <= e < |execs|
      ensures IsReductionOf(op, req, execs[e], answers[e])
    {
      ReadIsReduction(op, req, execs[e], w, w.first + e, answers[e]);
    }
  }

  /** `run_on_pack`: compile and submit all executions of a pack, and read all results. */
  method RunOnPack(op: Op, tagged: bool, ghost plan: Plan, req: Request, execs: seq<Execution>,
                   chunks: seq<seq<Addresses>>, device: Device, ghost mems: seq<nat -> nat>,
                   offsets: seq<map<nat, nat>>, ghost size: nat, p: nat)
    returns (answers: seq<seq<nat>>, ghost w: UnitWork)
    requires plan.Valid() && plan.req == req && 0 < p < |plan.execs| && plan.execs[p] == execs != [] && op.Valid(req)
    requires PackFilled(req, execs, chunks) && plan.job.featureBytes == 4 * req.featureSize
    requires plan.job.maxFeatures * req.featureSize <= size && plan.job.maxFeatures <= 4096
    requires forall i :: 0 <= i < |req.lengths| ==> 0 < req.lengths[i]
    requires UnitsAnswer(op, device, plan.layout, req, mems, offsets, size, plan.job.maxFeatures)
    ensures PackServed(op, req, execs, w, answers)
    ensures |answers| == |execs| && forall e :: 0 <= e < |execs| ==> IsReductionOf(op, req, execs[e], answers[e])
  {
    hide Op.Valid, Op.Stores, PackFilled, RightFor, AllRunnable, Answers, PackServed, Plan.Valid, IsReductionOf;
    SameLength(plan);
    var subs := CompilePack(op, tagged, plan, req, execs, chunks, offsets[p], mems[p], size, p);
    answers := device(p, subs);
    w :| AnswersOn(op, w, mems[p], offsets[p], plan.job.maxFeatures, req.featureSize, subs, answers);
    AnswersServePack(op, plan, p, w, subs, answers);
    ServedIsReduced(op, req, execs, w, answers);
  }

  lemma SameLength(plan: Plan)
    requires plan.Valid()
    ensures |plan.execs| == |plan.layout|
  {
  }
}
