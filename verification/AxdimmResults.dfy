/**
 * What the host reads from an AXDIMM unit, run after run: the dummy that ends each run leaves a residue that the
 * clears miss (axdimm_core_sim, axdimm_compute_device, axdimm_runner).
 */
module AxdimmResults {
  import opened SeqMath
  import opened CpuSls
  import opened TraceGeneratorCores
  import opened DirtyRange
  import opened AxdimmPipeline

  // ----- What a trace adds to each element.

  /** The terms that the first `k` instructions of a trace add to element `x`. */
  ghost function Terms(t: Trace, k: nat, x: nat): Element
    requires k <= |t.ir|
  {
    if k == 0 then []
    else
      var i := t.ir[k - 1];
      Terms(t, k - 1, x)
      + if i.output * t.width <= x < i.output * t.width + t.width
        then [Term(i.opcode, i.address + 4 * (x - i.output * t.width))] else []
  }

  /** What the host should read of a trace: its terms, from zero. */
  ghost function Clean(t: Trace): seq<Element> {
    seq(t.ReadSize(), x requires 0 <= x => Terms(t, |t.ir|, x))
  }

  lemma AddedAt(b: Buffer, i: IR, width: nat, x: nat)
    requires i.output * width + width <= |b.data| && x < |b.data|
    ensures Added(b, i, width).data[x]
      == b.data[x] + if i.output * width <= x < i.output * width + width
        then [Term(i.opcode, i.address + 4 * (x - i.output * width))] else []
  {
  }

  lemma {:induction false} RanAt(b: Buffer, t: Trace, k: nat, x: nat)
    requires t.Fits(|b.data|) && k <= |t.ir| && x < |b.data|
    ensures Ran(b, t, k).data[x] == b.data[x] + Terms(t, k, x)
  {
    hide Added;
    if k > 0 {
      RanAt(b, t, k - 1, x);
      AddedAt(Ran(b, t, k - 1), t.ir[k - 1], t.width, x);
    }
  }

  /**
   * The trace of an execution: its rows are exactly those it addresses, from the first to the last, with one kind of
   * sum.
   */
  ghost predicate Proper(t: Trace, size: nat) {
    && t.Fits(size) && 0 < t.rows
    && (forall k :: 0 <= k < |t.ir| ==> t.ir[k].output < t.rows && t.ir[k].opcode == t.ir[0].opcode)
    && Addresses(t, |t.ir|, 0) && Addresses(t, |t.ir|, t.rows - 1)
  }

  /** One of the first `k` instructions addresses row `o`. */
  ghost predicate Addresses(t: Trace, k: nat, o: nat)
    requires k <= |t.ir|
  {
    exists j :: 0 <= j < k && t.ir[j].output == o
  }

  /** The dirty range after the first `k` instructions on a cleared buffer. */
  lemma {:induction false} RangeOf(b: Buffer, t: Trace, k: nat)
    requires Proper(t, |b.data|) && k <= |t.ir| && b.min == |b.data| && b.max == 0
    ensures var r := Ran(b, t, k);
      && r.max <= t.ReadSize()
      && (Addresses(t, k, 0) ==> r.min == 0) && (Addresses(t, k, t.rows - 1) ==> r.max == t.ReadSize())
  {
    if k > 0 {
      hide Added;
      RangeOf(b, t, k - 1);
      var o := t.ir[k - 1].output;
      RangeGrows(Ran(b, t, k - 1), t.ir[k - 1], t.width);
      RowOfRows(o, t.rows, t.width);
      assert Addresses(t, k, 0) ==> Addresses(t, k - 1, 0) || o == 0;
      assert Addresses(t, k, t.rows - 1) ==> Addresses(t, k - 1, t.rows - 1) || o == t.rows - 1;
    }
  }

  lemma RangeGrows(b: Buffer, i: IR, width: nat)
    requires i.output * width + width <= |b.data|
    ensures var r, at := Added(b, i, width), i.output * width;
      && r.min == (if at < b.min then at else b.min) && r.max == if b.max < at + width then at + width else b.max
  {
  }

  lemma RowOfRows(o: nat, rows: nat, width: nat)
    requires o < rows
    ensures o * width + width <= rows * width
    ensures o == 0 ==> o * width == 0
    ensures o == rows - 1 ==> o * width + width == rows * width
  {
    MulMonotone(o + 1, rows, width);
  }

  /** Beyond its rows a trace adds nothing. */
  lemma {:induction false} NothingBeyond(t: Trace, k: nat, x: nat)
    requires k <= |t.ir| && t.ReadSize() <= x && forall j :: 0 <= j < |t.ir| ==> t.ir[j].output < t.rows
    ensures Terms(t, k, x) == []
  {
    if k > 0 {
      NothingBeyond(t, k - 1, x);
      RowOfRows(t.ir[k - 1].output, t.rows, t.width);
    }
  }

  // ----- The residue.

  /** Words that `m` dummies added to element `e` of their row. */
  ghost function Repeated(m: nat, e: nat): Element {
    seq(m, i => Term(0, 4 * e))
  }

  /** A cleared buffer that still holds `m` dummies in the dummy's row, and nothing else. */
  ghost predicate Holding(b: Buffer, size: nat, m: nat) {
    && |b.data| == size && b.min == size && b.max == 0
    && forall x: nat :: x < size ==> b.data[x] == if DUMMY_AT <= x < DUMMY_AT + 16 then Repeated(m, x - DUMMY_AT)
       else []
  }

  /** On a new unit the first clear removes everything. */
  lemma FirstClear(b: Buffer, size: nat)
    requires |b.data| == size && b.min == 0 && b.max == size && 0 < size && size % CLEAR_BLOCK == 0
    ensures Holding(b.Cleared([]), size, 0)
  {
    hide Repeated;
    NoDummies();
    assert b.ClearSize() == size;
    forall x: nat | x < size
      ensures b.Cleared([]).data[x] == []
    {
    }
  }

  /** A clear of the dummy's range misses the dummy. */
  lemma DummyStays(b: Buffer, size: nat, m: nat)
    requires Holding(b, size, m) && DUMMY.Fits(size)
    ensures Holding(Ran(b, DUMMY, 1).Cleared([]), size, m + 1)
  {
    var r := Ran(b, DUMMY, 1);
    assert Ran(b, DUMMY, 0) == b;
    assert r == Added(b, DUMMY.ir[0], 16);
    assert r.min == DUMMY_AT && r.max == DUMMY_AT + 16 && r.ClearSize() == CLEAR_BLOCK;
    forall x: nat | x < size
      ensures r.Cleared([]).data[x] == if DUMMY_AT <= x < DUMMY_AT + 16 then Repeated(m + 1, x - DUMMY_AT) else []
    {
      AddedAt(b, DUMMY.ir[0], 16, x);
      if DUMMY_AT <= x < DUMMY_AT + 16 {
        assert Repeated(m, x - DUMMY_AT) + [Term(0, 4 * (x - DUMMY_AT))] == Repeated(m + 1, x - DUMMY_AT);
      }
    }
  }

  /** The clear after an execution reaches the dummy's row. */
  ghost predicate Reaches(t: Trace) {
    AlignUp(t.ReadSize()) > DUMMY_AT
  }

  /** A clear after an execution removes what the execution added, and older dummies only where it reaches them. */
  lemma ExecutionIsCleared(b: Buffer, size: nat, m: nat, t: Trace)
    requires Holding(b, size, m) && Proper(t, size)
    ensures Holding(Ran(b, t, |t.ir|).Cleared([]), size, if Reaches(t) then 0 else m)
  {
    hide Ran, Proper, Repeated;
    ProperSize(t, size);
    ProperRange(b, t);
    var r := Ran(b, t, |t.ir|);
    Alignment(0, r.max);
    assert r.ClearSize() == AlignUp(t.ReadSize());
    forall x: nat | x < size
      ensures r.Cleared([]).data[x] == if !Reaches(t) && DUMMY_AT <= x < DUMMY_AT + 16 then Repeated(m, x - DUMMY_AT)
              else []
    {
      if AlignUp(t.ReadSize()) <= x {
        RanAt(b, t, |t.ir|, x);
        ProperBeyond(t, size, x);
        if DUMMY_AT <= x < DUMMY_AT + 16 {
          BlockOfDummy(t.ReadSize(), x);
        }
      }
    }
    NoDummies();
  }

  lemma ProperRange(b: Buffer, t: Trace)
    requires Proper(t, |b.data|) && b.min == |b.data| && b.max == 0
    ensures Ran(b, t, |t.ir|).min == 0 && Ran(b, t, |t.ir|).max == t.ReadSize()
  {
    RangeOf(b, t, |t.ir|);
  }

  lemma ProperSize(t: Trace, size: nat)
    requires Proper(t, size)
    ensures 0 < t.ReadSize() <= size && t.Fits(size)
  {
    MulMonotone(1, t.rows, t.width);
  }

  lemma ProperBeyond(t: Trace, size: nat, x: nat)
    requires Proper(t, size) && t.ReadSize() <= x
    ensures Terms(t, |t.ir|, x) == []
  {
    NothingBeyond(t, |t.ir|, x);
  }

  /** The dummy's row lies in one block: a clear reaches all of it or nothing. */
  lemma BlockOfDummy(size: nat, x: nat)
    requires AlignUp(size) <= x && DUMMY_AT <= x < DUMMY_AT + 16
    ensures AlignUp(size) <= DUMMY_AT
  {
    hide AlignUp;
    Alignment(0, size);
    var q := AlignUp(size) / CLEAR_BLOCK;
    assert AlignUp(size) == CLEAR_BLOCK * q;
  }

  lemma NoDummies()
    ensures forall e :: Repeated(0, e) == []
  {
  }

  /** Dummies left in buffer `b` when trigger `n` comes, counting a pending clear as done. */
  ghost function Residue(c: Config, n: nat, b: nat): nat
    requires 0 < c.buffers && n <= |c.plan|
  {
    if n == 0 then 0
    else if b != c.BufferOf(n - 1) then Residue(c, n - 1, b)
    else if c.plan[n - 1].Dummy? then Residue(c, n - 1, b) + 1
    else if Reaches(c.plan[n - 1].trace) then 0 else Residue(c, n - 1, b)
  }

  /** A unit with at least two buffers, whose executions have proper traces. */
  ghost predicate Session(c: Config) {
    && c.Valid() && 2 <= c.buffers && 0 < c.size && c.size % CLEAR_BLOCK == 0
    && forall n :: 0 <= n < |c.plan| && c.plan[n].Exec? ==> Proper(c.plan[n].trace, c.size)
  }

  /** Buffers of a new unit. */
  ghost predicate Fresh(c: Config, init: seq<Buffer>) {
    c.HasShape(init) && forall b :: 0 <= b < c.buffers ==> init[b].min == 0 && init[b].max == c.size
  }

  /** Before a trigger every buffer is cleared up to its residue, except that the last result may wait to be read. */
  ghost predicate Tidy(c: Config, init: seq<Buffer>, n: nat, b: nat)
    requires Session(c) && Fresh(c, init) && n <= |c.plan| && b < c.buffers
  {
    c.First(n) || b != c.BufferOf(n - 1) ==> Holding(Ready(c, init, n)[b], c.size, Residue(c, n, b))
  }

  /** The last result, once cleared. */
  ghost predicate Pending(c: Config, init: seq<Buffer>, n: nat)
    requires Session(c) && Fresh(c, init) && 0 < n <= |c.plan|
  {
    NextIndex(n, c.buffers);
    Holding(Settled(c, init, n)[c.BufferOf(n - 1)].Cleared([]), c.size, Residue(c, n, c.BufferOf(n - 1)))
  }

  lemma ClearAgain(b: Buffer, size: nat, m: nat)
    requires Holding(b, size, m)
    ensures b.Cleared([]) == b
  {
  }

  lemma {:induction false} AlwaysTidy(c: Config, init: seq<Buffer>, n: nat, b: nat)
    requires Session(c) && Fresh(c, init) && n <= |c.plan| && b < c.buffers
    ensures Tidy(c, init, n, b) && (n > 0 ==> Pending(c, init, n))
    decreases n
  {
    hide Tidy, Pending, Config.Valid, Proper;
    if n == 0 {
      TidyAtFirst(c, init, b);
    } else {
      NextIndex(n, c.buffers);
      NextIndex(n - 1, c.buffers);
      AlwaysTidy(c, init, n - 1, b);
      AlwaysTidy(c, init, n - 1, c.BufferOf(n - 1));
      LastIsPending(c, init, n);
      if b == c.BufferOf(n - 1) {
        LastIsTidy(c, init, n);
      } else {
        OtherIsTidy(c, init, n, b);
      }
    }
  }

  lemma TidyAtFirst(c: Config, init: seq<Buffer>, b: nat)
    requires Session(c) && Fresh(c, init) && b < c.buffers
    ensures Tidy(c, init, 0, b)
  {
    hide Config.Valid, Proper, Holding;
    FirstClear(init[b], c.size);
  }

  lemma LastIsTidy(c: Config, init: seq<Buffer>, n: nat)
    requires Session(c) && Fresh(c, init) && 0 < n <= |c.plan| && c.BufferOf(n - 1) < c.buffers && Pending(c, init, n)
    ensures Tidy(c, init, n, c.BufferOf(n - 1))
  {
    hide Config.Valid, Proper, Holding, Settled;
  }

  lemma LastIsPending(c: Config, init: seq<Buffer>, n: nat)
    requires Session(c) && Fresh(c, init) && 0 < n <= |c.plan| && c.BufferOf(n - 1) < c.buffers
    requires Tidy(c, init, n - 1, c.BufferOf(n - 1))
    ensures Pending(c, init, n)
  {
    hide Ready, Ran, Holding, Proper;
    NextIndex(n - 1, c.buffers);
    var w := c.BufferOf(n - 1);
    var base := Ready(c, init, n - 1)[w];
    if c.plan[n - 1].Dummy? {
      DummyStays(base, c.size, Residue(c, n - 1, w));
    } else {
      ExecutionIsCleared(base, c.size, Residue(c, n - 1, w), c.plan[n - 1].trace);
    }
  }

  lemma OtherIsTidy(c: Config, init: seq<Buffer>, n: nat, b: nat)
    requires Session(c) && Fresh(c, init) && 0 < n <= |c.plan| && b < c.buffers && b != c.BufferOf(n - 1)
    requires Tidy(c, init, n - 1, b) && (n > 1 ==> Pending(c, init, n - 1))
    ensures Tidy(c, init, n, b)
  {
    hide Ran, Holding, Proper;
    NextIndex(n - 1, c.buffers);
    var settled, m := Settled(c, init, n)[b], Residue(c, n, b);
    assert settled == if !c.First(n - 1) && b == c.BufferOf(n - 2) then Settled(c, init, n - 1)[b].Cleared([])
                      else Ready(c, init, n - 1)[b];
    assert Holding(settled, c.size, m);
    ClearAgain(settled, c.size, m);
  }

  // ----- What is read.

  /** The result of an execution: its terms, on top of the dummies left in the dummy's row. */
  lemma ResultAt(c: Config, init: seq<Buffer>, n: nat, x: nat)
    requires Session(c) && Fresh(c, init) && n < |c.plan| && c.plan[n].Exec? && x < c.plan[n].trace.ReadSize()
    ensures |Result(c, init, n)| == c.plan[n].trace.ReadSize()
    ensures var t, m := c.plan[n].trace, Residue(c, n, c.BufferOf(n));
      Result(c, init, n)[x]
      == (if DUMMY_AT <= x < DUMMY_AT + 16 then Repeated(m, x - DUMMY_AT) else []) + Terms(t, |t.ir|, x)
  {
    hide Ran, Ready, Terms, Residue, Proper;
    NextIndex(n, c.buffers);
    var w, t := c.BufferOf(n), c.plan[n].trace;
    AlwaysTidy(c, init, n, w);
    var base := Ready(c, init, n)[w];
    assert Settled(c, init, n + 1)[w] == Ran(base, t, |t.ir|);
    RanAt(base, t, |t.ir|, x);
  }

  /**
   * The exact condition on one read, after any number of runs on the unit: the host reads the result of the execution
   * if and only if the buffer carries no residue or the result ends before the dummy's row.
   */
  lemma ExactIff(c: Config, init: seq<Buffer>, n: nat)
    requires Session(c) && Fresh(c, init) && n < |c.plan| && c.plan[n].Exec?
    ensures Result(c, init, n) == Clean(c.plan[n].trace)
       <==> Residue(c, n, c.BufferOf(n)) == 0 || c.plan[n].trace.ReadSize() <= DUMMY_AT
  {
    hide Terms, Residue, Proper, Result, Config.Valid, Repeated;
    var t, m := c.plan[n].trace, Residue(c, n, c.BufferOf(n));
    ResultLength(c, init, n);
    forall x | 0 <= x < t.ReadSize()
      ensures Result(c, init, n)[x] == Clean(t)[x] <==> m == 0 || !(DUMMY_AT <= x < DUMMY_AT + 16)
    {
      ResultAt(c, init, n, x);
      RepeatedLength(m, x - DUMMY_AT);
    }
    if DUMMY_AT < t.ReadSize() && m > 0 {
      assert Result(c, init, n)[DUMMY_AT] != Clean(t)[DUMMY_AT];
    }
  }

  lemma ResultLength(c: Config, init: seq<Buffer>, n: nat)
    requires Session(c) && Fresh(c, init) && n < |c.plan| && c.plan[n].Exec?
    ensures |Result(c, init, n)| == c.plan[n].trace.ReadSize()
  {
    NextIndex(n, c.buffers);
  }

  lemma RepeatedLength(m: nat, e: int)
    ensures e >= 0 ==> (Repeated(m, e) == [] <==> m == 0) && |Repeated(m, e)| == m
  {
  }

  /** The first run of a unit is exact. */
  lemma {:induction false} NoResidueBeforeDummy(c: Config, n: nat, b: nat)
    requires 0 < c.buffers && n <= |c.plan| && forall k :: 0 <= k < n ==> c.plan[k].Exec?
    ensures Residue(c, n, b) == 0
  {
    if n > 0 {
      NoResidueBeforeDummy(c, n - 1, b);
    }
  }

  lemma FirstRunIsExact(c: Config, init: seq<Buffer>, n: nat)
    requires Session(c) && Fresh(c, init) && n < |c.plan| && forall k :: 0 <= k <= n ==> c.plan[k].Exec?
    ensures Result(c, init, n) == Clean(c.plan[n].trace)
  {
    NoResidueBeforeDummy(c, n, c.BufferOf(n));
    ExactIff(c, init, n);
  }

  // ----- For every sequence of runs.

  /** Wherever it comes in whatever runs of a unit, an execution of trace `t` is read exactly. */
  ghost predicate AlwaysExact(t: Trace, buffers: nat, size: nat) {
    forall c: Config, init: seq<Buffer>, n: nat ::
      Occurs(c, init, n, t, buffers, size) ==> Result(c, init, n) == Clean(t)
  }

  ghost predicate Occurs(c: Config, init: seq<Buffer>, n: nat, t: Trace, buffers: nat, size: nat) {
    Session(c) && Fresh(c, init) && c.buffers == buffers && c.size == size && n < |c.plan| && c.plan[n] == Exec(t)
  }

  /** Two runs: an execution, then one execution for each buffer. */
  ghost function TwoRuns(t: Trace, buffers: nat, size: nat): Config {
    Config([Exec(t), Dummy] + seq(buffers, i => Exec(t)) + [Dummy], buffers, size)
  }

  lemma TwoRunsAreASession(t: Trace, buffers: nat, size: nat)
    requires 2 <= buffers && Proper(t, size) && DUMMY.Fits(size) && size % CLEAR_BLOCK == 0
    ensures Session(TwoRuns(t, buffers, size))
  {
    hide Proper;
    var c := TwoRuns(t, buffers, size);
    ProperSize(t, size);
    assert forall n :: 0 <= n < |c.plan| ==> c.plan[n] == if n == 1 || n == buffers + 2 then Dummy else Exec(t);
  }

  /** In the second run the dummy's buffer comes last, and nothing has touched its residue. */
  lemma {:induction false} ResidueOfFirstRun(t: Trace, buffers: nat, size: nat, n: nat)
    requires 2 <= buffers && 2 <= n <= buffers + 1
    ensures var c := TwoRuns(t, buffers, size); n <= |c.plan| && Residue(c, n, 2 % buffers) == 1
  {
    var c := TwoRuns(t, buffers, size);
    if n == 2 {
      assert c.plan[1] == Dummy && c.plan[0] == Exec(t);
      NextIndex(1, buffers);
      assert Residue(c, 0, 2 % buffers) == 0;
      assert Residue(c, 1, 2 % buffers) == 0;
    } else {
      ResidueOfFirstRun(t, buffers, size, n - 1);
      OtherBuffer(n - 1, buffers);
    }
  }

  lemma OtherBuffer(n: nat, buffers: nat)
    requires 2 <= buffers && 2 <= n <= buffers
    ensures (n + 1) % buffers != 2 % buffers
  {
    if n + 1 < buffers {
      DivUnique(n + 1, buffers, 0, n + 1);
      DivUnique(2, buffers, 0, 2);
    } else if n + 1 == buffers {
      DivUnique(n + 1, buffers, 1, 0);
      DivUnique(2, buffers, 0, 2);
    } else {
      DivUnique(n + 1, buffers, 1, 1);
      if buffers == 2 {
        DivUnique(2, buffers, 1, 0);
      } else {
        DivUnique(2, buffers, 0, 2);
      }
    }
  }

  /** An execution is read exactly in every sequence of runs if and only if its result ends before the dummy's row. */
  lemma AlwaysExactIff(t: Trace, buffers: nat, size: nat)
    requires 2 <= buffers && Proper(t, size) && DUMMY.Fits(size) && size % CLEAR_BLOCK == 0
    ensures AlwaysExact(t, buffers, size) <==> t.ReadSize() <= DUMMY_AT
  {
    hide Result, Clean, Proper, Residue, Config.Valid;
    if t.ReadSize() <= DUMMY_AT {
      forall c: Config, init: seq<Buffer>, n: nat | Occurs(c, init, n, t, buffers, size)
        ensures Result(c, init, n) == Clean(t)
      {
        ExactIff(c, init, n);
      }
    } else {
      var c, init, n := SecondRunReadsDummy(t, buffers, size);
      assert Occurs(c, init, n, t, buffers, size);
    }
  }

  /** Two runs in which the last execution is read with the dummy of the first run in it. */
  lemma SecondRunReadsDummy(t: Trace, buffers: nat, size: nat) returns (c: Config, init: seq<Buffer>, n: nat)
    requires 2 <= buffers && Proper(t, size) && DUMMY.Fits(size) && size % CLEAR_BLOCK == 0 && DUMMY_AT < t.ReadSize()
    ensures Occurs(c, init, n, t, buffers, size) && Result(c, init, n) != Clean(t)
  {
    hide Result, Clean, Session, Proper, Residue;
    c, n := TwoRuns(t, buffers, size), buffers + 1;
    init := seq(buffers, b => Tracked(seq(size, x => []), 0, size));
    TwoRunsAreASession(t, buffers, size);
    ResidueOfFirstRun(t, buffers, size, n);
    NextIndex(2, buffers);
    assert c.plan[n] == Exec(t) && c.BufferOf(n) == 2 % buffers;
    ExactIff(c, init, n);
  }

  /** At the smallest size that fits the dummy: 2047 rows of 64 bytes, two buffers, two runs. */
  lemma ConcreteResidue() returns (t: Trace, c: Config, init: seq<Buffer>, n: nat)
    ensures t == Trace([IR(2, 0, 0), IR(2, 2046, 64)], 16, 2047) && c == TwoRuns(t, 2, 32768) && n == 3
    ensures Occurs(c, init, n, t, 2, 32768) && Result(c, init, n)[DUMMY_AT] == [Term(0, 0), Term(2, 64)]
    ensures Clean(t)[DUMMY_AT] == [Term(2, 64)]
  {
    hide Proper, Session, Terms, Repeated, Residue, Result;
    t := TWO_ROWS;
    c, n := TwoRuns(t, 2, 32768), 3;
    init := seq(2, b => Tracked(seq(32768, x => []), 0, 32768));
    TwoRowsTrace();
    TwoRunsAreASession(t, 2, 32768);
    ResidueOfFirstRun(t, 2, 32768, 3);
    assert c.plan[n] == Exec(t) && c.BufferOf(n) == 0;
    ResultAt(c, init, n, DUMMY_AT);
  }

  const TWO_ROWS := Trace([IR(2, 0, 0), IR(2, 2046, 64)], 16, 2047)

  lemma TwoRowsTrace()
    ensures Proper(TWO_ROWS, 32768) && Terms(TWO_ROWS, 2, DUMMY_AT) == [Term(2, 64)] && Repeated(1, 0) == [Term(0, 0)]
  {
    assert TWO_ROWS.ir[0].output == 0 && TWO_ROWS.ir[1].output == 2046;
    assert Terms(TWO_ROWS, 1, DUMMY_AT) == [];
  }

  // ----- Values.

  /** The value of an element: what was added to it, in order, from zero. */
  ghost function Value(arith: Arith, mem: nat -> nat, x: Element): nat {
    if x == [] then 0
    else
      var last := x[|x| - 1];
      arith.Add(last.opcode, Value(arith, mem, x[..|x| - 1]), mem(last.address))
  }

  ghost function Values(arith: Arith, mem: nat -> nat, xs: seq<Element>): seq<nat> {
    seq(|xs|, i requires 0 <= i < |xs| => Value(arith, mem, xs[i]))
  }

  /** Whatever the tables hold and whatever the float sum is, the host gets the values of the execution. */
  ghost predicate ValuesExact(c: Config, init: seq<Buffer>, n: nat)
    requires Session(c) && Fresh(c, init) && n < |c.plan| && c.plan[n].Exec?
  {
    forall arith: Arith, mem: nat -> nat :: arith.Valid() ==>
      Values(arith, mem, Result(c, init, n)) == Values(arith, mem, Clean(c.plan[n].trace))
  }

  /** The condition on the values is the same. */
  lemma ValuesExactIff(c: Config, init: seq<Buffer>, n: nat)
    requires Session(c) && Fresh(c, init) && n < |c.plan| && c.plan[n].Exec?
    ensures ValuesExact(c, init, n)
       <==> Residue(c, n, c.BufferOf(n)) == 0 || c.plan[n].trace.ReadSize() <= DUMMY_AT
  {
    hide Residue, Result, Clean, Proper, Config.Valid, Terms, Repeated;
    var t, m := c.plan[n].trace, Residue(c, n, c.BufferOf(n));
    ExactIff(c, init, n);
    if m > 0 && DUMMY_AT < t.ReadSize() {
      ResultAt(c, init, n, DUMMY_AT);
      CleanAt(t, DUMMY_AT);
      ResultLength(c, init, n);
      assert Proper(t, c.size);
      ProperSize(t, c.size);
      OneOpcode(t, c.size, |t.ir|, DUMMY_AT);
      var arith, mem := ResidueShows(m, Terms(t, |t.ir|, DUMMY_AT), t.ir[0].opcode);
      assert Values(arith, mem, Result(c, init, n))[DUMMY_AT] != Values(arith, mem, Clean(t))[DUMMY_AT];
    }
  }

  lemma CleanAt(t: Trace, x: nat)
    requires x < t.ReadSize()
    ensures |Clean(t)| == t.ReadSize() && Clean(t)[x] == Terms(t, |t.ir|, x)
  {
  }

  lemma {:induction false} OneOpcode(t: Trace, size: nat, k: nat, x: nat)
    requires Proper(t, size) && k <= |t.ir|
    ensures forall i :: 0 <= i < |Terms(t, k, x)| ==> Terms(t, k, x)[i].opcode == t.ir[0].opcode
  {
    if k > 0 {
      OneOpcode(t, size, k - 1, x);
    }
  }

  /** Table contents and a float sum on which a residue shows. */
  lemma ResidueShows(m: nat, terms: Element, opcode: nat) returns (arith: Arith, mem: nat -> nat)
    requires 0 < m && forall i :: 0 <= i < |terms| ==> terms[i].opcode == opcode
    ensures arith.Valid() && Value(arith, mem, Repeated(m, 0) + terms) != Value(arith, mem, terms)
  {
    if opcode == 0 {
      arith, mem := Arith((x, y) => x + y), (a: nat) => 1;
      Counts(arith, mem, terms);
      Counts(arith, mem, Repeated(m, 0) + terms);
    } else {
      arith, mem := Arith((x, y) => 1), (a: nat) => 0;
      StaysOne(arith, mem, Repeated(m, 0));
      AddsNothing(arith, mem, Repeated(m, 0), terms);
      AddsNothing(arith, mem, [], terms);
      assert [] + terms == terms;
    }
  }

  lemma {:induction false} Counts(arith: Arith, mem: nat -> nat, x: Element)
    requires (forall i :: 0 <= i < |x| ==> x[i].opcode == 0) && (forall a: nat, b: nat :: arith.floatAdd(a, b) == a + b)
    requires forall a :: mem(a) == 1
    ensures Value(arith, mem, x) == |x|
  {
    if x != [] {
      Counts(arith, mem, x[..|x| - 1]);
    }
  }

  lemma StaysOne(arith: Arith, mem: nat -> nat, x: Element)
    requires x != [] && x[|x| - 1].opcode == 0 && forall a, b :: arith.floatAdd(a, b) == 1
    ensures Value(arith, mem, x) == 1
  {
  }

  lemma {:induction false} AddsNothing(arith: Arith, mem: nat -> nat, x: Element, y: Element)
    requires (forall i :: 0 <= i < |y| ==> y[i].opcode != 0) && (forall a :: mem(a) == 0) && Value(arith, mem, x) < WORD
    ensures Value(arith, mem, x + y) == Value(arith, mem, x)
  {
    if y == [] {
      assert x + y == x;
    } else {
      AddsNothing(arith, mem, x, y[..|y| - 1]);
      assert (x + y)[..|x + y| - 1] == x + y[..|y| - 1];
    }
  }
}
