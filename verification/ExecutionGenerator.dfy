/** Splitting of table batches into executions (sls/operation/execution_generator). */
module ExecutionGenerators {
  import opened SeqMath

  /** A run of consecutive batches of one table inside one execution. */
  datatype TableData = TableData(tableId: nat, chunk: nat, batchOffset: nat)

  datatype Execution = Execution(tables: seq<TableData>, lookups: nat, batches: nat, psumSize: nat)

  const NO_EXECUTION := Execution([], 0, 0, 0)

  /** Batch `index` of table `table`. */
  datatype Batch = Batch(table: nat, index: nat)

  ghost function Run(table: nat, first: nat, count: nat): seq<Batch> {
    seq(count, i requires 0 <= i => Batch(table, first + i))
  }

  /** The batches that an execution's table chunks stand for, in output order. */
  ghost function Expand(tables: seq<TableData>): seq<Batch> {
    if tables == [] then []
    else
      var last := tables[|tables| - 1];
      Expand(tables[..|tables| - 1]) + Run(last.tableId, last.batchOffset, last.chunk)
  }

  ghost function Parts(execs: seq<Execution>): seq<seq<Batch>> {
    seq(|execs|, i requires 0 <= i < |execs| => Expand(execs[i].tables))
  }

  ghost function Flatten(parts: seq<seq<Batch>>): seq<Batch> {
    if parts == [] then [] else Flatten(parts[..|parts| - 1]) + parts[|parts| - 1]
  }

  /** The count of table `t`. */
  ghost function StartOf(starts: seq<nat>, t: nat): nat {
    if t < |starts| then starts[t] else 0
  }

  /** All batches of a pack: its tables in layout order, each with its whole mini-batch, numbered from its start. */
  ghost function PackBatches(layout: seq<nat>, miniBatch: nat, starts: seq<nat> := []): seq<Batch> {
    if layout == [] then []
    else
      var t := layout[|layout| - 1];
      PackBatches(layout[..|layout| - 1], miniBatch, starts) + Run(t, StartOf(starts, t), miniBatch)
  }

  /**
   * One SLS request as the generator sees it: the flat lengths and the limits of the device buffers. The batches of
   * a table are numbered from its start, which is zero unless the generator was used before.
   */
  datatype Job = Job(lengths: seq<nat>, miniBatch: nat, maxInst: nat, maxFeatures: nat, featureBytes: nat,
                     starts: seq<nat> := []) {

    ghost function Lookups(b: Batch): nat {
      var first := StartOf(starts, b.table);
      var row := Flat(b.table, miniBatch, if first <= b.index then b.index - first else 0);
      if first <= b.index && row < |lengths| then lengths[row] else 0
    }

    ghost function Cost(bs: seq<Batch>): nat {
      if bs == [] then 0 else Cost(bs[..|bs| - 1]) + Lookups(bs[|bs| - 1])
    }

    /** Neither the psum buffer nor the instruction buffer overflows. */
    ghost predicate Fits(bs: seq<Batch>) {
      |bs| <= maxFeatures && Cost(bs) <= maxInst
    }

    /** No part is empty, and each but the last overflows when it also takes the next part's first batch. */
    ghost predicate Greedy(parts: seq<seq<Batch>>) {
      && (forall i :: 0 <= i < |parts| ==> parts[i] != [])
      && (forall i, j :: 0 <= i < j < |parts| && j == i + 1 ==> !Fits(parts[i] + [parts[j][0]]))
    }

    /** What the device needs of one execution. */
    ghost predicate GoodExecution(e: Execution) {
      && GoodChunks(e.tables)
      && 0 < e.batches == |Expand(e.tables)| <= e.lookups
      && e.lookups == Cost(Expand(e.tables))
      && Fits(Expand(e.tables))
      && e.psumSize == e.batches * featureBytes
    }

    /** The executions of one pack: an exact and greedy partition of its batches. */
    ghost predicate GoodPack(layout: seq<nat>, execs: seq<Execution>) {
      && (forall i :: 0 <= i < |execs| ==> GoodExecution(execs[i]))
      && Flatten(Parts(execs)) == PackBatches(layout, miniBatch, starts)
      && Greedy(Parts(execs))
    }

    lemma CostAppend(bs: seq<Batch>, b: Batch)
      ensures Cost(bs + [b]) == Cost(bs) + Lookups(b)
    {
      assert (bs + [b])[..|bs|] == bs;
    }

    lemma {:induction false} CostConcat(a: seq<Batch>, b: seq<Batch>)
      ensures Cost(a + b) == Cost(a) + Cost(b)
      decreases |b|
    {
      if b == [] {
        assert a + b == a;
      } else {
        CostConcat(a, b[..|b| - 1]);
        CostAppend(a + b[..|b| - 1], b[|b| - 1]);
        assert a + b == a + b[..|b| - 1] + [b[|b| - 1]];
      }
    }

    /** A contiguous piece of a sequence that fits the buffers fits them too. */
    lemma FitsSlice(s: seq<Batch>, i: nat, i': nat, j': nat, j: nat)
      requires i <= i' <= j' <= j <= |s|
      requires Fits(s[i..j])
      ensures Fits(s[i'..j'])
    {
      assert s[i..j] == s[i..i'] + s[i'..j'] + s[j'..j];
      CostConcat(s[i..i'] + s[i'..j'], s[j'..j]);
      CostConcat(s[i..i'], s[i'..j']);
    }

    /** One step of the exchange argument: a part that starts no later cannot end later. */
    lemma PartEndsNoLater(s: seq<Batch>, o: nat, o': nat, g: nat, g': nat)
      requires o <= g <= g' < |s| && o <= o' <= |s|
      requires Fits(s[o..o'])
      requires !Fits(s[g..g'] + [s[g']])
      ensures o' <= g'
    {
      assert s[g..g' + 1] == s[g..g'] + [s[g']];
      if o' > g' {
        FitsSlice(s, o, g, g' + 1, o');
      }
    }

    /** Greedy stays ahead: after k parts no other split that fits has got further. */
    lemma {:induction false} GreedyStaysAhead(greedy: seq<seq<Batch>>, other: seq<seq<Batch>>, k: nat)
      requires Greedy(greedy)
      requires forall i :: 0 <= i < |other| ==> Fits(other[i])
      requires Flatten(greedy) == Flatten(other)
      requires k < |greedy| && k <= |other|
      ensures |Flatten(other[..k])| <= |Flatten(greedy[..k])|
    {
      if k == 0 {
        assert other[..0] == [];
      } else {
        GreedyStaysAhead(greedy, other, k - 1);
        StaysAheadStep(greedy, other, k - 1);
      }
    }

    lemma StaysAheadStep(greedy: seq<seq<Batch>>, other: seq<seq<Batch>>, k: nat)
      requires Greedy(greedy) && k + 1 < |greedy| && k < |other| && Fits(other[k])
      requires Flatten(greedy) == Flatten(other)
      requires |Flatten(other[..k])| <= |Flatten(greedy[..k])|
      ensures |Flatten(other[..k + 1])| <= |Flatten(greedy[..k + 1])|
    {
      hide Flatten, Fits;
      FlattenPrefix(greedy, k);
      FlattenPrefix(greedy, k + 1);
      FlattenPrefix(other, k);
      var s, o, g := Flatten(greedy), |Flatten(other[..k])|, |Flatten(greedy[..k])|;
      var o', g' := |Flatten(other[..k + 1])|, |Flatten(greedy[..k + 1])|;
      assert s[g'] == s[g'..g' + |greedy[k + 1]|][0];
      PartEndsNoLater(s, o, o', g, g');
    }

    /** Greedy optimality: no order-preserving split within both limits has fewer parts. */
    lemma GreedyIsMinimal(greedy: seq<seq<Batch>>, other: seq<seq<Batch>>)
      requires Greedy(greedy)
      requires forall i :: 0 <= i < |other| ==> Fits(other[i])
      requires Flatten(greedy) == Flatten(other)
      ensures |greedy| <= |other|
    {
      var k := |other|;
      assert other[..k] == other;
      if k < |greedy| {
        GreedyStaysAhead(greedy, other, k);
        FlattenPrefix(greedy, k);
      }
    }

    lemma GreedyAppend(parts: seq<seq<Batch>>, part: seq<Batch>)
      requires Greedy(parts) && part != []
      requires parts != [] ==> !Fits(parts[|parts| - 1] + [part[0]])
      ensures Greedy(parts + [part])
    {
    }

    ghost predicate WithinLimits(parts: seq<seq<Batch>>) {
      forall i :: 0 <= i < |parts| ==> |parts[i]| <= maxFeatures && Cost(parts[i]) <= maxInst
    }

    /** The executions generated for a pack keep both limits and are as few as the two limits allow. */
    lemma FewestExecutions(layout: seq<nat>, execs: seq<Execution>, other: seq<seq<Batch>>)
      requires GoodPack(layout, execs)
      requires WithinLimits(other)
      requires Flatten(other) == PackBatches(layout, miniBatch, starts)
      ensures forall i :: 0 <= i < |execs| ==> execs[i].batches <= maxFeatures && execs[i].lookups <= maxInst
      ensures |execs| <= |other|
    {
      GreedyIsMinimal(Parts(execs), other);
    }
  }

  /** Chunks hold at least one batch and neighbours belong to different tables. */
  ghost predicate GoodChunks(ts: seq<TableData>) {
    && (forall i :: 0 <= i < |ts| ==> 0 < ts[i].chunk)
    && (forall i, j :: 0 <= i < j < |ts| && j == i + 1 ==> ts[i].tableId != ts[j].tableId)
  }

  /** A chunk that was just opened holds nothing. */
  lemma NewChunkPending(e: Execution, committed: seq<nat>, t: nat, unset: nat)
    requires t < |committed|
    ensures var next := Open(e.(tables := e.tables + [TableData(t, 0, unset)]), committed);
      next.Valid() && next.Pending() == Expand(e.tables)
  {
    var ts := e.tables + [TableData(t, 0, unset)];
    assert ts[..|e.tables|] == e.tables;
    assert Run(t, committed[t], 0) == [];
  }

  lemma PartsAppend(execs: seq<Execution>, e: Execution)
    ensures Parts(execs + [e]) == Parts(execs) + [Expand(e.tables)]
    ensures Flatten(Parts(execs + [e])) == Flatten(Parts(execs)) + Expand(e.tables)
  {
    var parts := Parts(execs + [e]);
    assert parts == Parts(execs) + [Expand(e.tables)];
    assert parts[..|parts| - 1] == Parts(execs);
  }

  lemma {:induction false} FlattenConcat(a: seq<seq<Batch>>, b: seq<seq<Batch>>)
    ensures Flatten(a + b) == Flatten(a) + Flatten(b)
    decreases |b|
  {
    if b == [] {
      assert a + b == a;
    } else {
      var i := b[..|b| - 1];
      FlattenConcat(a, i);
      assert (a + b)[..|a + b| - 1] == a + i;
    }
  }

  /** The first k parts are a prefix of the whole, and part k follows them. */
  lemma FlattenPrefix(parts: seq<seq<Batch>>, k: nat)
    requires k < |parts|
    ensures var whole, n := Flatten(parts), |Flatten(parts[..k])|;
      && n + |parts[k]| == |Flatten(parts[..k + 1])| <= |whole|
      && whole[n..n + |parts[k]|] == parts[k]
  {
    assert parts[..k + 1][..k] == parts[..k];
    FlattenConcat(parts[..k + 1], parts[k + 1..]);
    assert parts == parts[..k + 1] + parts[k + 1..];
  }

  // ----- The execution being filled: its last chunk has no offset until it is committed.

  /** The open execution, with the number of committed batches of each table. */
  datatype Open = Open(exec: Execution, committed: seq<nat>) {

    ghost predicate Valid() {
      exec.tables != [] ==> exec.tables[|exec.tables| - 1].tableId < |committed|
    }

    /** The batches of the open execution. */
    ghost function Pending(): seq<Batch>
      requires Valid()
    {
      if exec.tables == [] then []
      else
        var last := exec.tables[|exec.tables| - 1];
        Expand(exec.tables[..|exec.tables| - 1]) + Run(last.tableId, committed[last.tableId], last.chunk)
    }

    /** Batches of table `t` placed so far, committed or not. */
    ghost function Placed(t: nat): nat
      requires t < |committed|
    {
      committed[t] + if exec.tables != [] && exec.tables[|exec.tables| - 1].tableId == t
                     then exec.tables[|exec.tables| - 1].chunk else 0
    }

    /** The counters agree with the batches, and these still fit. */
    ghost predicate Consistent(job: Job) {
      && Valid()
      && GoodChunks(exec.tables)
      && Counted(job)
      && job.Fits(Pending())
    }

    ghost predicate Counted(job: Job)
      requires Valid()
    {
      && (exec.tables == [] <==> exec.batches == 0)
      && exec.batches == |Pending()| <= exec.lookups
      && exec.lookups == job.Cost(Pending())
      && exec.psumSize == 0
      && (exec.batches == 0 ==> exec.lookups == 0)
    }

    /** `next` is this with one more batch of table `t`. */
    ghost predicate Adds(t: nat, next: Open)
      requires Valid() && t < |committed|
    {
      && |next.committed| == |committed|
      && next.Valid()
      && next.Pending() == Pending() + [Batch(t, Placed(t))]
      && (forall u :: 0 <= u < |committed| ==> next.Placed(u) == Placed(u) + if u == t then 1 else 0)
    }

    /** `next` is this with its last chunk's offset set and its batches counted as committed. */
    ghost predicate Commits(next: Open)
      requires Valid()
    {
      && |next.committed| == |committed|
      && next.exec.tables != []
      && Expand(next.exec.tables) == Pending()
      && (GoodChunks(exec.tables) ==> GoodChunks(next.exec.tables))
      && next.exec.lookups == exec.lookups && next.exec.batches == exec.batches
      && next.exec.psumSize == exec.psumSize
      && next.exec.tables[|next.exec.tables| - 1].tableId == exec.tables[|exec.tables| - 1].tableId
      && (forall u :: 0 <= u < |committed| ==> next.committed[u] == Placed(u))
    }

    lemma CommitLast(next: Open)
      requires Valid() && exec.tables != []
      requires var last := exec.tables[|exec.tables| - 1];
        && next.exec == exec.(tables := exec.tables[|exec.tables| - 1 := last.(batchOffset := committed[last.tableId])])
        && next.committed == committed[last.tableId := committed[last.tableId] + last.chunk]
      ensures Commits(next)
    {
      assert next.exec.tables[..|exec.tables| - 1] == exec.tables[..|exec.tables| - 1];
    }

    /** `next` holds the same batches and its last chunk, possibly still empty, is one of table `t`. */
    ghost predicate ReadyFor(t: nat, next: Open)
      requires Valid()
    {
      && |next.committed| == |committed|
      && next.exec.tables != [] && next.exec.tables[|next.exec.tables| - 1].tableId == t
      && next.Valid() && next.Pending() == Pending()
      && (forall i :: 0 <= i < |next.exec.tables| - 1 ==> 0 < next.exec.tables[i].chunk)
      && (forall i, j :: 0 <= i < j < |next.exec.tables| && j == i + 1 ==>
          next.exec.tables[i].tableId != next.exec.tables[j].tableId)
      && next.exec.lookups == exec.lookups && next.exec.batches == exec.batches && next.exec.psumSize == exec.psumSize
      && (forall u :: 0 <= u < |committed| ==> next.Placed(u) == Placed(u))
    }

    /** After the last chunk was committed, an empty chunk of another table can be opened. */
    lemma OpenChunk(t: nat, unset: nat, closed: Open, next: Open)
      requires Valid() && GoodChunks(exec.tables) && t < |committed|
      requires if exec.tables == [] then closed == this
               else exec.tables[|exec.tables| - 1].tableId != t && Commits(closed)
      requires next == Open(closed.exec.(tables := closed.exec.tables + [TableData(t, 0, unset)]), closed.committed)
      ensures ReadyFor(t, next)
    {
      hide Pending, Expand;
      NewChunkPending(closed.exec, closed.committed, t, unset);
      if exec.tables == [] {
        NothingPending();
      }
    }

    lemma NothingPending()
      requires Valid() && exec.tables == []
      ensures Pending() == Expand(exec.tables) == []
    {
    }

    lemma AlreadyReady(t: nat)
      requires Valid() && GoodChunks(exec.tables)
      requires exec.tables != [] && exec.tables[|exec.tables| - 1].tableId == t
      ensures ReadyFor(t, this)
    {
    }

    lemma AddToReady(job: Job, t: nat, lookups: nat, ready: Open, next: Open)
      requires Consistent(job) && t < |committed| && ReadyFor(t, ready)
      requires 0 < lookups == job.Lookups(Batch(t, Placed(t)))
      requires job.Fits(Pending() + [Batch(t, Placed(t))])
      requires next.committed == ready.committed
      requires var n := |ready.exec.tables| - 1;
        next.exec == Execution(ready.exec.tables[n := ready.exec.tables[n].(chunk := ready.exec.tables[n].chunk + 1)],
                               ready.exec.lookups + lookups, ready.exec.batches + 1, ready.exec.psumSize)
      ensures Adds(t, next) && next.Consistent(job)
    {
      ready.GrowChunk(next);
      job.CostAppend(Pending(), Batch(t, Placed(t)));
    }

    lemma GrowChunk(next: Open)
      requires Valid() && exec.tables != []
      requires var last := exec.tables[|exec.tables| - 1];
        && next.exec.tables == exec.tables[|exec.tables| - 1 := last.(chunk := last.chunk + 1)]
        && next.committed == committed
      ensures Adds(exec.tables[|exec.tables| - 1].tableId, next)
    {
      var last := exec.tables[|exec.tables| - 1];
      var first := committed[last.tableId];
      assert next.exec.tables[..|exec.tables| - 1] == exec.tables[..|exec.tables| - 1];
      assert Run(last.tableId, first, last.chunk + 1)
          == Run(last.tableId, first, last.chunk) + [Batch(last.tableId, first + last.chunk)];
    }
  }

  /** A pack in the middle of generation: `done` is what was placed of it so far. */
  ghost predicate InProgress(job: Job, execs: seq<Execution>, open: Open, done: seq<Batch>) {
    && open.Consistent(job)
    && (forall i :: 0 <= i < |execs| ==> job.GoodExecution(execs[i]))
    && Flatten(Parts(execs)) + open.Pending() == done
    && job.Greedy(Parts(execs))
    && (execs != [] ==>
          open.exec.batches > 0 && !job.Fits(Expand(execs[|execs| - 1].tables) + [open.Pending()[0]]))
  }

  /** Closing the open execution appends one good execution and keeps the partition greedy. */
  lemma CloseExecution(job: Job, execs: seq<Execution>, open: Open, done: seq<Batch>, e: Execution)
    requires InProgress(job, execs, open, done) && open.exec.batches > 0
    requires GoodChunks(e.tables) && Expand(e.tables) == open.Pending()
    requires e.lookups == open.exec.lookups && e.batches == open.exec.batches
    requires e.psumSize == e.batches * job.featureBytes
    ensures forall i :: 0 <= i < |execs + [e]| ==> job.GoodExecution((execs + [e])[i])
    ensures Flatten(Parts(execs + [e])) == done
    ensures job.Greedy(Parts(execs + [e]))
  {
    PartsAppend(execs, e);
    job.GreedyAppend(Parts(execs), Expand(e.tables));
  }

  lemma ClosePack(job: Job, layout: seq<nat>, execs: seq<Execution>, open: Open, e: Execution)
    requires InProgress(job, execs, open, PackBatches(layout, job.miniBatch, job.starts)) && open.exec.batches > 0
    requires GoodChunks(e.tables) && Expand(e.tables) == open.Pending()
    requires e.lookups == open.exec.lookups && e.batches == open.exec.batches
    requires e.psumSize == e.batches * job.featureBytes
    ensures job.GoodPack(layout, execs + [e])
  {
    hide InProgress, Job.GoodExecution, Job.Greedy, Open.Pending, Expand, Flatten;
    CloseExecution(job, execs, open, PackBatches(layout, job.miniBatch, job.starts), e);
  }

  /** Growing the open execution by a batch keeps a pack in progress. */
  lemma GrowExecution(job: Job, execs: seq<Execution>, open: Open, done: seq<Batch>, t: nat,
                      next: Open)
    requires InProgress(job, execs, open, done)
    requires t < |open.committed| && open.Adds(t, next) && next.Consistent(job)
    ensures InProgress(job, execs, next, done + [Batch(t, open.Placed(t))])
  {
    assert Flatten(Parts(execs)) + (open.Pending() + [Batch(t, open.Placed(t))]) == done + [Batch(t, open.Placed(t))];
  }

  /** After an overflow: the closed execution is full, and the batch that overflowed it opens the next one. */
  lemma StartExecution(job: Job, execs: seq<Execution>, open: Open, done: seq<Batch>, e: Execution,
                       b: Batch, next: Open)
    requires InProgress(job, execs, open, done) && open.exec.batches > 0
    requires GoodChunks(e.tables) && Expand(e.tables) == open.Pending()
    requires e.lookups == open.exec.lookups && e.batches == open.exec.batches
    requires e.psumSize == e.batches * job.featureBytes
    requires !job.Fits(open.Pending() + [b])
    requires next.Consistent(job) && next.Pending() == [b]
    ensures InProgress(job, execs + [e], next, done + [b])
  {
    CloseExecution(job, execs, open, done, e);
  }

  lemma InProgressIsConsistent(job: Job, execs: seq<Execution>, open: Open, done: seq<Batch>)
    requires InProgress(job, execs, open, done)
    ensures open.Consistent(job)
  {
  }

  /** With everything committed and nothing open, the counts are those of the batches placed. */
  lemma CommittedIsPlaced(open: Open, closed: Open, empty: Open)
    requires open.Valid() && open.Commits(closed) && empty == Open(NO_EXECUTION, closed.committed)
    ensures |empty.committed| == |open.committed|
    ensures forall u :: 0 <= u < |open.committed| ==> empty.Placed(u) == open.Placed(u)
  {
    hide Open.Pending, GoodChunks, Expand;
  }

  lemma OneBatchFits(job: Job, b: Batch)
    ensures [] + [b] == [b] && job.Cost([b]) == job.Lookups(b)
  {
    hide Job.Lookups;
    job.CostAppend([], b);
    assert [] + [b] == [b];
  }

  /** No table occurs twice, in one pack or in two. */
  ghost predicate DistinctTables(layout: seq<seq<nat>>) {
    forall p, k, q, j ::
      0 <= p < |layout| && 0 <= k < |layout[p]| && 0 <= q < |layout| && 0 <= j < |layout[q]| &&
        layout[p][k] == layout[q][j]
      ==> p == q && k == j
  }

  ghost predicate TablesBelow(layout: seq<seq<nat>>, numTables: nat) {
    forall p, k :: 0 <= p < |layout| && 0 <= k < |layout[p]| ==> layout[p][k] < numTables
  }

  /** Table `t` lives in some pack; there is no pack 0. */
  ghost predicate TablePlaced(layout: seq<seq<nat>>, t: nat) {
    exists p, k :: 0 < p < |layout| && 0 <= k < |layout[p]| && layout[p][k] == t
  }

  /** Table `u` comes before position `k` of `pack`. */
  ghost predicate Before(layout: seq<seq<nat>>, pack: nat, k: nat, u: nat) {
    exists p, j :: 0 < p < |layout| && 0 <= j < |layout[p]| && (p < pack || (p == pack && j < k)) && layout[p][j] == u
  }

  /** The tables before position `k` of `pack` have got their whole mini-batch, the others nothing yet. */
  ghost predicate PlacedBefore(layout: seq<seq<nat>>, pack: nat, k: nat, job: Job, open: Open) {
    forall u :: 0 <= u < |open.committed| ==>
      open.Placed(u) == StartOf(job.starts, u) + if Before(layout, pack, k, u) then job.miniBatch else 0
  }

  /** While table number `k` of `pack` is placed, no other count moves. */
  lemma PlacedNext(layout: seq<seq<nat>>, pack: nat, k: nat, job: Job, before: Open, after: Open)
    requires DistinctTables(layout) && 0 < pack < |layout| && k < |layout[pack]|
    requires layout[pack][k] < |before.committed| == |after.committed| && PlacedBefore(layout, pack, k, job, before)
    requires forall u :: 0 <= u < |after.committed| ==>
      after.Placed(u) == before.Placed(u) + if u == layout[pack][k] then job.miniBatch else 0
    ensures PlacedBefore(layout, pack, k + 1, job, after)
  {
    hide Open.Placed;
    forall u: nat
      ensures Before(layout, pack, k + 1, u) <==> Before(layout, pack, k, u) || u == layout[pack][k]
      ensures !Before(layout, pack, k, layout[pack][k])
    {
    }
  }

  lemma NotBefore(layout: seq<seq<nat>>, pack: nat, k: nat, job: Job, open: Open)
    requires DistinctTables(layout) && 0 < pack < |layout| && k < |layout[pack]|
    requires layout[pack][k] < |open.committed| && PlacedBefore(layout, pack, k, job, open)
    ensures open.Placed(layout[pack][k]) == StartOf(job.starts, layout[pack][k])
  {
  }

  lemma NothingBefore(layout: seq<seq<nat>>, job: Job, open: Open)
    requires open.exec == NO_EXECUTION && open.committed == job.starts
    ensures PlacedBefore(layout, 1, 0, job, open)
  {
  }

  lemma AllBefore(layout: seq<seq<nat>>, pack: nat, job: Job, open: Open)
    requires |layout| <= pack && open.exec == NO_EXECUTION && PlacedBefore(layout, pack, 0, job, open)
    ensures forall t :: 0 <= t < |open.committed| ==>
      open.committed[t] == StartOf(job.starts, t) + if TablePlaced(layout, t) then job.miniBatch else 0
  {
    forall t: nat
      ensures Before(layout, pack, 0, t) <==> TablePlaced(layout, t)
    {
    }
  }

  /** After its last position a pack is over. */
  lemma NextPack(layout: seq<seq<nat>>, pack: nat, job: Job, open: Open)
    requires 0 < pack < |layout|
    ensures PlacedBefore(layout, pack, |layout[pack]|, job, open) <==> PlacedBefore(layout, pack + 1, 0, job, open)
  {
    hide Open.Placed;
    forall u: nat
      ensures Before(layout, pack, |layout[pack]|, u) <==> Before(layout, pack + 1, 0, u)
    {
    }
  }

  /** `resize`: the counts that exist are kept, new ones are zero. */
  function Resized(counts: seq<nat>, n: nat): seq<nat> {
    seq(n, t requires 0 <= t => if t < |counts| then counts[t] else 0)
  }

  ghost predicate SameElsewhere(pack: nat, before: seq<seq<Execution>>, after: seq<seq<Execution>>) {
    |before| == |after| && forall p :: 0 <= p < |after| && p != pack ==> after[p] == before[p]
  }

  lemma NothingOpen(job: Job, committed: seq<nat>)
    ensures Open(NO_EXECUTION, committed).Consistent(job)
    ensures Open(NO_EXECUTION, committed).Pending() == []
    ensures InProgress(job, [], Open(NO_EXECUTION, committed), [])
  {
  }

  /** At the end of a pack either nothing is open, or the open execution can be closed. */
  lemma EndOfPack(job: Job, layout: seq<nat>, execs: seq<Execution>, open: Open)
    requires InProgress(job, execs, open, PackBatches(layout, job.miniBatch, job.starts))
    ensures open.Valid() && GoodChunks(open.exec.tables)
    ensures if open.exec.lookups == 0 then open.exec == NO_EXECUTION && job.GoodPack(layout, execs)
            else open.exec.tables != [] && open.exec.batches > 0
  {
    if open.exec.lookups == 0 {
      assert Flatten(Parts(execs)) + [] == Flatten(Parts(execs));
    }
  }

  // ----- A generator that was used before.

  lemma {:induction false} SamePackIff(layout: seq<nat>, miniBatch: nat, starts: seq<nat>)
    requires 0 < miniBatch
    ensures |PackBatches(layout, miniBatch, starts)| == |PackBatches(layout, miniBatch)|
    ensures PackBatches(layout, miniBatch, starts) == PackBatches(layout, miniBatch)
       <==> forall k :: 0 <= k < |layout| ==> StartOf(starts, layout[k]) == 0
  {
    if layout != [] {
      var n := |layout| - 1;
      var t, init := layout[n], layout[..n];
      SamePackIff(init, miniBatch, starts);
      var a, b := PackBatches(init, miniBatch, starts), PackBatches(init, miniBatch);
      var r, q := Run(t, StartOf(starts, t), miniBatch), Run(t, 0, miniBatch);
      assert a + r == b + q <==> a == b && r == q by {
        assert (a + r)[..|a|] == a && (b + q)[..|b|] == b && (a + r)[|a|..] == r && (b + q)[|b|..] == q;
      }
      assert r == q <==> StartOf(starts, t) == 0 by {
        assert r[0] == Batch(t, StartOf(starts, t)) && q[0] == Batch(t, 0);
      }
    }
  }

  lemma {:induction false} TableInLayout(layout: seq<nat>, miniBatch: nat, starts: seq<nat>, b: Batch)
    requires b in PackBatches(layout, miniBatch, starts)
    ensures b.table in layout
  {
    var t := layout[|layout| - 1];
    if b !in Run(t, StartOf(starts, t), miniBatch) {
      TableInLayout(layout[..|layout| - 1], miniBatch, starts, b);
    }
  }

  /** No table of these batches had a count. */
  ghost predicate FromZero(starts: seq<nat>, bs: seq<Batch>) {
    forall i :: 0 <= i < |bs| ==> StartOf(starts, bs[i].table) == 0
  }

  lemma {:induction false} SameCost(job: Job, bs: seq<Batch>)
    requires FromZero(job.starts, bs)
    ensures job.(starts := []).Cost(bs) == job.Cost(bs)
  {
    if bs != [] {
      SameCost(job, bs[..|bs| - 1]);
    }
  }

  lemma PartFromZero(starts: seq<nat>, parts: seq<seq<Batch>>, i: nat)
    requires i < |parts| && FromZero(starts, Flatten(parts))
    ensures FromZero(starts, parts[i])
  {
    hide Flatten;
    FlattenPrefix(parts, i);
    var n, whole := |Flatten(parts[..i])|, Flatten(parts);
    forall o | 0 <= o < |parts[i]|
      ensures StartOf(starts, parts[i][o].table) == 0
    {
      assert parts[i][o] == whole[n..n + |parts[i]|][o] == whole[n + o];
    }
  }

  lemma SameExecution(job: Job, e: Execution)
    requires FromZero(job.starts, Expand(e.tables))
    ensures job.(starts := []).GoodExecution(e) <==> job.GoodExecution(e)
  {
    SameCost(job, Expand(e.tables));
  }

  lemma SameGreedy(job: Job, parts: seq<seq<Batch>>)
    requires forall i :: 0 <= i < |parts| ==> FromZero(job.starts, parts[i])
    ensures job.(starts := []).Greedy(parts) <==> job.Greedy(parts)
  {
    hide Job.Cost;
    forall i, j | 0 <= i < j < |parts| && j == i + 1 && parts[j] != []
      ensures job.(starts := []).Fits(parts[i] + [parts[j][0]]) <==> job.Fits(parts[i] + [parts[j][0]])
    {
      SameCost(job, parts[i] + [parts[j][0]]);
    }
  }

  /**
   * The executions are right for the request if and only if no table of the pack had a count when the run started.
   * A run leaves a count for every table it places, so a generator gives right executions only once.
   */
  lemma FreshIff(job: Job, layout: seq<nat>, execs: seq<Execution>)
    requires job.GoodPack(layout, execs) && 0 < job.miniBatch
    ensures job.(starts := []).GoodPack(layout, execs)
       <==> forall k :: 0 <= k < |layout| ==> StartOf(job.starts, layout[k]) == 0
  {
    hide Job.GoodExecution, Job.Greedy, Flatten, Expand, PackBatches;
    SamePackIff(layout, job.miniBatch, job.starts);
    if forall k :: 0 <= k < |layout| ==> StartOf(job.starts, layout[k]) == 0 {
      var bs := Flatten(Parts(execs));
      forall i | 0 <= i < |bs|
        ensures StartOf(job.starts, bs[i].table) == 0
      {
        TableInLayout(layout, job.miniBatch, job.starts, bs[i]);
      }
      forall i | 0 <= i < |execs|
        ensures FromZero(job.starts, Parts(execs)[i]) && job.(starts := []).GoodExecution(execs[i])
      {
        PartFromZero(job.starts, Parts(execs), i);
        SameExecution(job, execs[i]);
      }
      SameGreedy(job, Parts(execs));
    }
  }

  /** The second run for one table with one batch places it at offset 1, beyond the mini-batch. */
  lemma SecondRunMisplaces()
    ensures var job, execs := Job([1], 1, 1, 1, 4, [1]), [Execution([TableData(0, 1, 1)], 1, 1, 4)];
      job.GoodPack([0], execs) && !job.(starts := []).GoodPack([0], execs)
  {
    var job, td := Job([1], 1, 1, 1, 4, [1]), TableData(0, 1, 1);
    var execs, b := [Execution([td], 1, 1, 4)], Batch(0, 1);
    assert Expand([td]) == [b] by {
      assert [td][..0] == [] && Run(0, 1, 1) == [b];
    }
    assert Parts(execs) == [[b]];
    assert Flatten([[b]]) == [b] by {
      assert [[b]][..0] == [];
    }
    assert PackBatches([0], 1, [1]) == [b] by {
      assert [0][..0] == [] && Run(0, 1, 1) == [b];
    }
    assert job.Lookups(b) == 1;
    job.CostAppend([], b);
    assert [] + [b] == [b];
    FreshIff(job, [0], execs);
    assert StartOf([1], [0][0]) == 1;
  }

  class ExecutionGenerator {
    var currentExec: Execution
    var execPacks: seq<seq<Execution>>
    // Batches of each table that were committed so far.
    var tablesBatches: seq<nat>
    const tablesLayout: seq<seq<nat>>
    const maxInst: nat
    const maxFeatures: nat
    const featureBytes: nat

    constructor (tablesLayout: seq<seq<nat>>, maxInst: nat, maxFeatures: nat, featureBytes: nat)
      ensures this.tablesLayout == tablesLayout && this.featureBytes == featureBytes
      ensures this.maxInst == maxInst && this.maxFeatures == maxFeatures
      ensures Now() == Open(NO_EXECUTION, [])
      ensures execPacks == seq(|tablesLayout|, _ => [])
    {
      this.tablesLayout, this.featureBytes := tablesLayout, featureBytes;
      this.maxInst, this.maxFeatures := maxInst, maxFeatures;
      currentExec, tablesBatches := NO_EXECUTION, [];
      execPacks := seq(|tablesLayout|, _ => []);
    }

    ghost function Now(): Open
      reads this`currentExec, this`tablesBatches
    {
      Open(currentExec, tablesBatches)
    }

    ghost predicate Owns(job: Job) {
      job.maxInst == maxInst && job.maxFeatures == maxFeatures && job.featureBytes == featureBytes
    }

    method CommitTableBatches()
      requires Now().Valid() && currentExec.tables != []
      modifies this`currentExec, this`tablesBatches
      ensures old(Now()).Commits(Now())
    {
      var n := |currentExec.tables|;
      var last := currentExec.tables[n - 1];
      var offset := tablesBatches[last.tableId];
      currentExec := currentExec.(tables := currentExec.tables[n - 1 := last.(batchOffset := offset)]);
      tablesBatches := tablesBatches[last.tableId := offset + last.chunk];
      old(Now()).CommitLast(Now());
    }

    method AddBatch(t: nat, lookups: nat, ghost job: Job)
      requires Now().Consistent(job)
      requires t < |tablesBatches|
      requires 0 < lookups == job.Lookups(Batch(t, Now().Placed(t)))
      requires job.Fits(Now().Pending() + [Batch(t, Now().Placed(t))])
      modifies this`currentExec, this`tablesBatches
      ensures old(Now()).Adds(t, Now()) && Now().Consistent(job)
    {
      hide Open.Pending, Job.Cost;
      ghost var open := Now();
      if currentExec.tables == [] || currentExec.tables[|currentExec.tables| - 1].tableId != t {
        if currentExec.tables != [] {
          CommitTableBatches();
        }
        // The new chunk's offset stays unset until it is committed.
        var unset: nat := *;
        ghost var closed := Now();
        currentExec := currentExec.(tables := currentExec.tables + [TableData(t, 0, unset)]);
        open.OpenChunk(t, unset, closed, Now());
      } else {
        open.AlreadyReady(t);
      }
      ghost var ready := Now();
      var n := |currentExec.tables|;
      var last := currentExec.tables[n - 1];
      currentExec := Execution(currentExec.tables[n - 1 := last.(chunk := last.chunk + 1)],
                               currentExec.lookups + lookups, currentExec.batches + 1, currentExec.psumSize);
      open.AddToReady(job, t, lookups, ready, Now());
    }

    method TryAddBatch(t: nat, lookups: nat, ghost job: Job) returns (added: bool)
      requires Owns(job) && Now().Consistent(job)
      requires t < |tablesBatches|
      requires lookups == job.Lookups(Batch(t, Now().Placed(t)))
      requires 0 < lookups <= maxInst && 0 < maxFeatures
      modifies this`currentExec, this`tablesBatches
      ensures added <==> old(currentExec.lookups) + lookups <= maxInst && old(currentExec.batches) + 1 <= maxFeatures
      ensures added == job.Fits(old(Now()).Pending() + [Batch(t, old(Now()).Placed(t))])
      ensures added ==> old(Now()).Adds(t, Now()) && Now().Consistent(job)
      ensures !added ==> old(currentExec.batches) > 0 && old(Now()).Commits(Now())
    {
      job.CostAppend(Now().Pending(), Batch(t, Now().Placed(t)));
      if currentExec.lookups + lookups > maxInst {
        CommitTableBatches();
        return false;
      }
      if currentExec.batches + 1 > maxFeatures {
        CommitTableBatches();
        return false;
      }
      AddBatch(t, lookups, job);
      added := true;
    }

    method CommitExecution(pack: nat)
      requires pack < |execPacks|
      modifies this`currentExec, this`execPacks
      ensures currentExec == NO_EXECUTION
      ensures var e := old(currentExec).(psumSize := old(currentExec).batches * featureBytes);
        execPacks == old(execPacks)[pack := old(execPacks)[pack] + [e]]
    {
      currentExec := currentExec.(psumSize := currentExec.batches * featureBytes);
      execPacks := execPacks[pack := execPacks[pack] + [currentExec]];
      currentExec := NO_EXECUTION;
    }

    /** The body of the innermost loop: add a batch, or commit and start a new execution with it. */
    method PlaceBatch(pack: nat, t: nat, lookups: nat, ghost job: Job, ghost done: seq<Batch>)
      requires pack < |execPacks| && Owns(job)
      requires InProgress(job, execPacks[pack], Now(), done)
      requires t < |tablesBatches|
      requires lookups == job.Lookups(Batch(t, Now().Placed(t)))
      requires 0 < lookups <= maxInst && 0 < maxFeatures
      modifies this
      ensures |tablesBatches| == |old(tablesBatches)|
      ensures SameElsewhere(pack, old(execPacks), execPacks)
      ensures InProgress(job, execPacks[pack], Now(), done + [Batch(t, old(Now()).Placed(t))])
      ensures forall u :: 0 <= u < |tablesBatches| ==> Now().Placed(u) == old(Now()).Placed(u) + if u == t then 1 else 0
    {
      hide Open.Pending, Job.Cost, Job.Greedy, Job.GoodExecution, Job.Lookups, Flatten, Parts;
      ghost var open := Now();
      var added := TryAddBatch(t, lookups, job);
      if added {
        GrowExecution(job, execPacks[pack], open, done, t, Now());
      } else {
        StartNext(pack, t, lookups, job, done, open);
      }
    }

    /** The batch that overflowed the open execution starts the next one. */
    method StartNext(pack: nat, t: nat, lookups: nat, ghost job: Job, ghost done: seq<Batch>, ghost open: Open)
      requires pack < |execPacks| && Owns(job) && InProgress(job, execPacks[pack], open, done)
      requires open.exec.batches > 0 && open.Commits(Now()) && t < |tablesBatches|
      requires lookups == job.Lookups(Batch(t, open.Placed(t))) && 0 < lookups <= maxInst && 0 < maxFeatures
      requires !job.Fits(open.Pending() + [Batch(t, open.Placed(t))])
      modifies this
      ensures |tablesBatches| == |old(tablesBatches)|
      ensures SameElsewhere(pack, old(execPacks), execPacks)
      ensures InProgress(job, execPacks[pack], Now(), done + [Batch(t, open.Placed(t))])
      ensures forall u :: 0 <= u < |tablesBatches| ==> Now().Placed(u) == open.Placed(u) + if u == t then 1 else 0
    {
      hide Open.Pending, Job.Cost, Job.Greedy, Job.GoodExecution, Job.Lookups, Flatten, Parts, InProgress;
      ghost var execs, b, closed := execPacks[pack], Batch(t, open.Placed(t)), Now();
      InProgressIsConsistent(job, execs, open, done);
      CommitExecution(pack);
      ghost var e, empty := execPacks[pack][|execs|], Now();
      NothingOpen(job, tablesBatches);
      CommittedIsPlaced(open, closed, empty);
      OneBatchFits(job, b);
      AddBatch(t, lookups, job);
      StartExecution(job, execs, open, done, e, b, Now());
    }

    /** All executions of one pack. */
    method GeneratePack(pack: nat, job: Job, ghost numTables: nat)
      requires 0 < pack < |tablesLayout| == |execPacks| && |tablesBatches| == numTables && Owns(job)
      requires currentExec == NO_EXECUTION && execPacks[pack] == []
      requires PlacedBefore(tablesLayout, pack, 0, job, Now())
      requires 0 < job.miniBatch && |job.lengths| == numTables * job.miniBatch
      requires DistinctTables(tablesLayout) && TablesBelow(tablesLayout, numTables)
      requires 0 < maxFeatures && forall i :: 0 <= i < |job.lengths| ==> 0 < job.lengths[i] <= maxInst
      modifies this
      ensures |execPacks| == |tablesLayout| && |tablesBatches| == numTables
      ensures currentExec == NO_EXECUTION && PlacedBefore(tablesLayout, pack + 1, 0, job, Now())
      ensures SameElsewhere(pack, old(execPacks), execPacks)
      ensures job.GoodPack(tablesLayout[pack], execPacks[pack])
    {
      hide Open.Pending, Job.Cost, Job.Greedy, Job.GoodExecution, InProgress;
      var layout := tablesLayout[pack];
      NothingOpen(job, tablesBatches);
      for k := 0 to |layout|
        invariant |execPacks| == |tablesLayout| && |tablesBatches| == numTables
        invariant InProgress(job, execPacks[pack], Now(), PackBatches(layout[..k], job.miniBatch, job.starts))
        invariant PlacedBefore(tablesLayout, pack, k, job, Now())
        invariant SameElsewhere(pack, old(execPacks), execPacks)
      {
        PlaceTable(pack, k, job, numTables);
      }
      assert layout[..|layout|] == layout;
      FinishPack(pack, job);
    }

    /** What is still open at the end of a pack is its last execution. */
    method FinishPack(pack: nat, ghost job: Job)
      requires 0 < pack < |tablesLayout| == |execPacks| && Owns(job)
      requires InProgress(job, execPacks[pack], Now(), PackBatches(tablesLayout[pack], job.miniBatch, job.starts))
      requires PlacedBefore(tablesLayout, pack, |tablesLayout[pack]|, job, Now())
      modifies this
      ensures |tablesBatches| == |old(tablesBatches)| && SameElsewhere(pack, old(execPacks), execPacks)
      ensures currentExec == NO_EXECUTION && PlacedBefore(tablesLayout, pack + 1, 0, job, Now())
      ensures job.GoodPack(tablesLayout[pack], execPacks[pack])
    {
      hide Open.Pending, InProgress, Job.GoodPack, Before;
      ghost var open, execs := Now(), execPacks[pack];
      NextPack(tablesLayout, pack, job, open);
      EndOfPack(job, tablesLayout[pack], execs, open);
      if currentExec.lookups != 0 {
        CommitTableBatches();
        CommitExecution(pack);
        ClosePack(job, tablesLayout[pack], execs, open, execPacks[pack][|execs|]);
      }
    }

    /** The batches of one table. */
    method PlaceTable(pack: nat, k: nat, job: Job, ghost numTables: nat)
      requires 0 < pack < |tablesLayout| == |execPacks| && |tablesBatches| == numTables && Owns(job)
      requires k < |tablesLayout[pack]|
      requires InProgress(job, execPacks[pack], Now(),
                          PackBatches(tablesLayout[pack][..k], job.miniBatch, job.starts))
      requires PlacedBefore(tablesLayout, pack, k, job, Now())
      requires 0 < job.miniBatch && |job.lengths| == numTables * job.miniBatch
      requires DistinctTables(tablesLayout) && TablesBelow(tablesLayout, numTables)
      requires 0 < maxFeatures && forall i :: 0 <= i < |job.lengths| ==> 0 < job.lengths[i] <= maxInst
      modifies this
      ensures |execPacks| == |tablesLayout| && |tablesBatches| == numTables
      ensures InProgress(job, execPacks[pack], Now(),
                         PackBatches(tablesLayout[pack][..k + 1], job.miniBatch, job.starts))
      ensures PlacedBefore(tablesLayout, pack, k + 1, job, Now())
      ensures SameElsewhere(pack, old(execPacks), execPacks)
    {
      hide Open.Pending, Job.Cost, InProgress, PlacedBefore, Open.Placed, DistinctTables;
      var t := tablesLayout[pack][k];
      ghost var open, first := Now(), StartOf(job.starts, t);
      ghost var done := PackBatches(tablesLayout[pack][..k], job.miniBatch, job.starts);
      NotBefore(tablesLayout, pack, k, job, open);
      assert done + Run(t, first, 0) == done;
      for b := 0 to job.miniBatch
        invariant |execPacks| == |tablesLayout| && |tablesBatches| == numTables
        invariant InProgress(job, execPacks[pack], Now(), done + Run(t, first, b))
        invariant forall u :: 0 <= u < numTables ==> Now().Placed(u) == open.Placed(u) + if u == t then b else 0
        invariant SameElsewhere(pack, old(execPacks), execPacks)
      {
        FlatInBounds(t, numTables, job.miniBatch, b);
        PlaceBatch(pack, t, job.lengths[t * job.miniBatch + b], job, done + Run(t, first, b));
        assert done + Run(t, first, b) + [Batch(t, first + b)] == done + Run(t, first, b + 1);
      }
      PlacedNext(tablesLayout, pack, k, job, open, Now());
      assert tablesLayout[pack][..k + 1][..k] == tablesLayout[pack][..k];
    }

    /**
     * Every pack becomes an exact greedy partition of its batches, numbered from the counts that the generator starts
     * with; a second run continues them. A run ends with nothing open and every placed table counted once more.
     */
    method Generate(miniBatch: nat, numTables: nat, lengths: seq<nat>)
      requires currentExec == NO_EXECUTION
      requires |execPacks| == |tablesLayout|
      requires 0 < miniBatch && |lengths| == numTables * miniBatch
      requires DistinctTables(tablesLayout) && TablesBelow(tablesLayout, numTables)
      requires 0 < maxFeatures && forall i :: 0 <= i < |lengths| ==> 0 < lengths[i] <= maxInst
      modifies this
      ensures |execPacks| == |tablesLayout| && currentExec == NO_EXECUTION && |tablesBatches| == numTables
      ensures var job := Job(lengths, miniBatch, maxInst, maxFeatures, featureBytes,
                             old(Resized(tablesBatches, numTables)));
        forall p :: 0 < p < |execPacks| ==> job.GoodPack(tablesLayout[p], execPacks[p])
      ensures forall t :: 0 <= t < numTables ==>
        tablesBatches[t] == old(StartOf(tablesBatches, t)) + if TablePlaced(tablesLayout, t) then miniBatch else 0
    {
      hide Job.GoodPack, Before, PlacedBefore;
      tablesBatches := Resized(tablesBatches, numTables);
      var job := Job(lengths, miniBatch, maxInst, maxFeatures, featureBytes, tablesBatches);
      execPacks := seq(|tablesLayout|, _ => []);
      NothingBefore(tablesLayout, job, Now());
      var pack := 1;
      while pack < |tablesLayout|
        invariant |execPacks| == |tablesLayout| && |tablesBatches| == numTables && 0 < pack
        invariant currentExec == NO_EXECUTION
        invariant forall p :: 0 < p < pack && p < |execPacks| ==> job.GoodPack(tablesLayout[p], execPacks[p])
        invariant forall p :: pack <= p < |tablesLayout| ==> execPacks[p] == []
        invariant PlacedBefore(tablesLayout, pack, 0, job, Now())
      {
        GeneratePack(pack, job, numTables);
        pack := pack + 1;
      }
      AllBefore(tablesLayout, pack, job, Now());
    }
  }
}
