/**
 * The pipelined AXDIMM runs of one compute unit as a state machine: the host runs pack after pack (axdimm_runner,
 * axdimm_compute_unit, compute_device, axdimm_compute_device, nbuffer_memory) while an asynchronous worker serves the
 * registers (base_sls_sim). Every register access, index shift and executed instruction is one atomic step.
 */
module AxdimmPipeline {
  import opened SeqMath
  import opened TraceGeneratorCores
  import opened DirtyRange

  // ----- Result buffers that remember what was added to each element.

  /** One addition: the word at `address`, with the sum that `opcode` names. */
  datatype Term = Term(opcode: nat, address: nat)

  /** What was added to an element since it was zero, in order. */
  type Element = seq<Term>
  type Buffer = Tracked<Element>

  /** The instructions of a trace, the elements of its output rows, and how many rows the host reads back. */
  datatype Trace = Trace(ir: seq<IR>, width: nat, rows: nat) {
    ghost predicate Fits(size: nat) {
      && ir != [] && 0 < width && rows * width <= size
      && forall k :: 0 <= k < |ir| ==> ir[k].output * width + width <= size
    }

    /** Elements that the host reads back. */
    ghost function ReadSize(): nat {
      rows * width
    }
  }

  const DUMMY := Trace([IR(0, DUMMY_OUTPUT, 0)], 16, 0)

  /** One instruction on a buffer: its row grows by the addressed words, and the dirty range covers the row. */
  ghost function Added(b: Buffer, ir: IR, width: nat): (r: Buffer)
    requires ir.output * width + width <= |b.data|
    ensures |r.data| == |b.data|
  {
    var at := ir.output * width;
    b.Written(at, seq(width, e requires 0 <= e < width => b.data[at + e] + [Term(ir.opcode, ir.address + 4 * e)]))
  }

  /** The first `k` instructions of a trace on a buffer. */
  ghost function Ran(b: Buffer, t: Trace, k: nat): (r: Buffer)
    requires t.Fits(|b.data|) && k <= |t.ir|
    ensures |r.data| == |b.data|
  {
    if k == 0 then b else Added(Ran(b, t, k - 1), t.ir[k - 1], t.width)
  }

  ghost function ClearAll(bufs: seq<Buffer>): (r: seq<Buffer>)
    ensures |r| == |bufs|
  {
    seq(|bufs|, b requires 0 <= b < |bufs| => bufs[b].Cleared([]))
  }

  // ----- The unit's work.

  /** A trigger: an execution, or the dummy that ends the run of a pack. */
  datatype Slot = Exec(trace: Trace) | Dummy

  /** All triggers of the unit, one run after the other, and its result buffers. */
  datatype Config = Config(plan: seq<Slot>, buffers: nat, size: nat) {
    ghost predicate Valid() {
      && 0 < buffers && plan != [] && plan[0].Exec? && plan[|plan| - 1].Dummy?
      && (forall m, n :: 0 <= m < n < |plan| && n == m + 1 && plan[m].Dummy? ==> plan[n].Exec?)
      && (forall n: nat :: n < |plan| ==> TraceAt(n).Fits(size))
    }

    ghost function TraceAt(n: nat): Trace
      requires n < |plan|
    {
      if plan[n].Dummy? then DUMMY else plan[n].trace
    }

    /** The first trigger of a run, right after the unit was acquired and enabled. */
    ghost predicate First(n: nat)
      requires n <= |plan|
    {
      n == 0 || plan[n - 1].Dummy?
    }

    /** Buffer that trigger `n` writes, after the shift. */
    ghost function BufferOf(n: nat): nat
      requires 0 < buffers
    {
      (n + 1) % buffers
    }

    ghost predicate HasShape(bufs: seq<Buffer>) {
      |bufs| == buffers && forall b :: 0 <= b < buffers ==> |bufs[b].data| == size
    }
  }

  // ----- What the triggers do one after the other.

  /** The buffers before the trace of trigger `n` runs. */
  ghost function Ready(c: Config, init: seq<Buffer>, n: nat): (r: seq<Buffer>)
    requires c.Valid() && c.HasShape(init) && n <= |c.plan|
    ensures c.HasShape(r)
    decreases n, 1
  {
    if c.First(n) then ClearAll(Settled(c, init, n)) else Settled(c, init, n)
  }

  /** The buffers after the traces of the first `n` triggers ran; the result of the last one was not read yet. */
  ghost function Settled(c: Config, init: seq<Buffer>, n: nat): (r: seq<Buffer>)
    requires c.Valid() && c.HasShape(init) && n <= |c.plan|
    ensures c.HasShape(r)
    decreases n, 0
  {
    if n == 0 then init
    else
      ModBound(n, c.buffers);
      ModBound(n - 1, c.buffers);
      var base, w := Ready(c, init, n - 1), c.BufferOf(n - 1);
      var ran := base[w := Ran(base[w], c.TraceAt(n - 1), |c.TraceAt(n - 1).ir|)];
      if c.First(n - 1) then ran else ran[c.BufferOf(n - 2) := ran[c.BufferOf(n - 2)].Cleared([])]
  }

  /** What the host reads of trigger `n`. */
  ghost function Result(c: Config, init: seq<Buffer>, n: nat): seq<Element>
    requires c.Valid() && c.HasShape(init) && n < |c.plan|
  {
    ModBound(n + 1, c.buffers);
    Settled(c, init, n + 1)[c.BufferOf(n)].data[..c.TraceAt(n).ReadSize()]
  }

  /** The results of the executions among the first `n` triggers. */
  ghost function Results(c: Config, init: seq<Buffer>, n: nat): map<nat, seq<Element>>
    requires c.Valid() && c.HasShape(init) && n <= |c.plan|
  {
    map m: nat | m < n && c.plan[m].Exec? :: Result(c, init, m)
  }

  lemma ModBound(x: nat, n: nat)
    requires 0 < n
    ensures 0 <= x % n < n
  {
  }

  // ----- The state machine.

  /** Contents of the instruction block; while the host rewrites it, it holds no trace. */
  datatype InstBlock = Torn | Holds(slot: nat)

  /** Where the host is. Before `Trigger`, trigger `exec` is about to come; after it, it has been. */
  datatype HostPc =
    | Enable | WriteBegin | WriteEnd | ShiftRead | ShiftWrite | ResetPoll | Trigger | ReadBegin | ReadEnd | Wait | Done

  datatype Worker = Polling | Running(step: nat, buffer: nat) | Disabling | Finishing

  datatype State = State(
    pc: HostPc, exec: nat, out: map<nat, seq<Element>>,
    enabled: bool, finished: bool, inst: InstBlock,
    read: nat, write: nat, bufs: seq<Buffer>,
    worker: Worker, log: seq<InstBlock>)

  /**
   * A new unit: the buffers may hold anything and count as dirty, and the indices are where the constructor puts
   * them.
   */
  ghost predicate Init(c: Config, s: State) {
    && s.pc == Enable && s.exec == 0 && s.out == map[]
    && !s.enabled && !s.finished
    && 0 < c.buffers && s.write == 0 && s.read == (c.buffers - 1) % c.buffers
    && c.HasShape(s.bufs) && (forall b :: 0 <= b < c.buffers ==> s.bufs[b].min == 0 && s.bufs[b].max == c.size)
    && s.worker == Polling && s.log == []
  }

  ghost predicate HostReady(c: Config, s: State)
    requires c.Valid() && s.exec < |c.plan|
  {
    match s.pc
    case ReadBegin =>
      0 < s.exec && s.read < |s.bufs| && c.TraceAt(s.exec - 1).ReadSize() <= |s.bufs[s.read].data|
    case ReadEnd => s.read < |s.bufs|
    case Wait => s.finished
    case Done => false
    case _ => true
  }

  /**
   * Acquiring and enabling the unit resets its registers and clears all its buffers; a release is part of the next
   * acquire.
   */
  ghost function HostNext(c: Config, s: State): State
    requires c.Valid() && s.exec < |c.plan| && HostReady(c, s)
  {
    match s.pc
    case Enable => s.(pc := WriteBegin, enabled := false, finished := false, bufs := ClearAll(s.bufs))
    case WriteBegin => s.(pc := WriteEnd, inst := Torn)
    case WriteEnd => s.(pc := ShiftRead, inst := Holds(s.exec))
    case ShiftRead => s.(pc := ShiftWrite, read := (s.read + 1) % c.buffers)
    case ShiftWrite => s.(pc := ResetPoll, write := (s.write + 1) % c.buffers)
    case ResetPoll => s.(pc := Trigger, finished := false)
    case Trigger => s.(pc := if c.First(s.exec) then Wait else ReadBegin, enabled := true)
    case ReadBegin =>
      s.(pc := ReadEnd, out := s.out[s.exec - 1 := s.bufs[s.read].data[..c.TraceAt(s.exec - 1).ReadSize()]])
    case ReadEnd => s.(pc := Wait, bufs := s.bufs[s.read := s.bufs[s.read].Cleared([])])
    case Wait =>
      if s.exec + 1 == |c.plan| then s.(pc := Done)
      else s.(pc := if c.First(s.exec + 1) then Enable else WriteBegin, exec := s.exec + 1)
    case Done => s
  }

  ghost predicate HostStep(c: Config, s: State, t: State)
    requires c.Valid() && s.exec < |c.plan|
  {
    HostReady(c, s) && t == HostNext(c, s)
  }

  /** The worker reads the instruction block anew at every instruction; a torn one never ends. */
  ghost predicate WorkerReady(c: Config, s: State)
    requires c.Valid()
  {
    match s.worker
    case Polling => s.enabled
    case Running(k, b) =>
      && b < |s.bufs| && s.inst.Holds? && s.inst.slot < |c.plan| && |s.bufs[b].data| == c.size
      && k < |c.TraceAt(s.inst.slot).ir|
    case _ => true
  }

  ghost function WorkerNext(c: Config, s: State): State
    requires c.Valid() && WorkerReady(c, s)
  {
    match s.worker
    case Polling => s.(worker := Running(0, s.write), log := s.log + [s.inst])
    case Running(k, b) =>
      var trace := c.TraceAt(s.inst.slot);
      s.(bufs := s.bufs[b := Added(s.bufs[b], trace.ir[k], trace.width)],
         worker := if k + 1 < |trace.ir| then Running(k + 1, b) else Disabling)
    case Disabling => s.(enabled := false, worker := Finishing)
    case Finishing => s.(finished := true, worker := Polling)
  }

  ghost predicate WorkerStep(c: Config, s: State, t: State)
    requires c.Valid()
  {
    WorkerReady(c, s) && t == WorkerNext(c, s)
  }

  ghost predicate Step(c: Config, s: State, t: State)
    requires c.Valid()
  {
    s.exec < |c.plan| && (HostStep(c, s, t) || WorkerStep(c, s, t))
  }

  ghost predicate IsRun(c: Config, run: seq<State>)
    requires c.Valid()
  {
    && run != [] && Init(c, run[0])
    && forall k, l :: 0 <= k < l < |run| && l == k + 1 ==> Step(c, run[k], run[l])
  }

  // ----- The invariant: control, which holds for any number of buffers, and contents, which need two.

  ghost predicate BeforeTrigger(pc: HostPc) {
    !(pc.ReadBegin? || pc.ReadEnd? || pc.Wait? || pc.Done?)
  }

  ghost predicate Reading(s: State) {
    s.pc.ReadBegin? || s.pc.ReadEnd?
  }

  /** Both indices move on by one buffer per trigger, so the buffer just written is the next to read. */
  ghost predicate Shape(c: Config, s: State) {
    && c.Valid() && s.exec < |c.plan| && c.HasShape(s.bufs)
    && s.write == (if BeforeTrigger(s.pc) && !s.pc.ResetPoll? && !s.pc.Trigger? then s.exec else s.exec + 1) % c.buffers
    && s.read == (if s.pc.Enable? || s.pc.WriteBegin? || s.pc.WriteEnd? || s.pc.ShiftRead?
                  then s.exec + c.buffers - 1 else s.exec) % c.buffers
    && (s.pc.Enable? ==> c.First(s.exec)) && (Reading(s) ==> !c.First(s.exec))
  }

  ghost function Traces(n: nat): seq<InstBlock> {
    seq(n, k requires 0 <= k => Holds(k))
  }

  /** Before the trigger the worker is idle. */
  ghost predicate IdleControl(s: State) {
    && s.worker == Polling && !s.enabled && s.log == Traces(s.exec)
    && (s.pc.WriteEnd? ==> s.inst == Torn)
    && (s.pc.ShiftRead? || s.pc.ShiftWrite? || s.pc.ResetPoll? || s.pc.Trigger? ==> s.inst == Holds(s.exec))
    && (s.pc.Trigger? ==> !s.finished)
  }

  /** After the trigger the worker runs the triggered trace once. */
  ghost predicate BusyControl(c: Config, s: State)
    requires Shape(c, s)
  {
    && s.inst == Holds(s.exec)
    && (s.pc.Done? ==> s.finished && s.exec + 1 == |c.plan|)
    && s.log == Traces(if s.worker.Polling? && s.enabled then s.exec else s.exec + 1)
    && match s.worker
       case Polling => s.enabled != s.finished
       case Running(k, b) => s.enabled && !s.finished && b == s.write && k < |c.TraceAt(s.exec).ir|
       case Disabling => s.enabled && !s.finished
       case Finishing => !s.enabled && !s.finished
  }

  ghost predicate Control(c: Config, s: State) {
    Shape(c, s) && if BeforeTrigger(s.pc) then IdleControl(s) else BusyControl(c, s)
  }

  /** The buffer that the worker fills, as far as it has come. */
  ghost function Filled(c: Config, s: State, b: Buffer): (r: Buffer)
    requires c.Valid() && s.exec < |c.plan| && |b.data| == c.size
    requires s.worker.Running? ==> s.worker.step <= |c.TraceAt(s.exec).ir|
    ensures |r.data| == c.size
  {
    match s.worker
    case Polling => if s.enabled then b else Ran(b, c.TraceAt(s.exec), |c.TraceAt(s.exec).ir|)
    case Running(k, _) => Ran(b, c.TraceAt(s.exec), k)
    case _ => Ran(b, c.TraceAt(s.exec), |c.TraceAt(s.exec).ir|)
  }

  /** The buffers while trigger `exec` is served: one is being filled, and the previous result is read and cleared. */
  ghost predicate BusyBuffers(c: Config, init: seq<Buffer>, s: State)
    requires Shape(c, s) && c.HasShape(init)
    requires s.worker.Running? ==> s.worker.step <= |c.TraceAt(s.exec).ir|
  {
    var base := Ready(c, init, s.exec);
    forall b :: 0 <= b < c.buffers ==>
      s.bufs[b] == if b == s.write then Filled(c, s, base[b])
                   else if b == s.read && !c.First(s.exec) && !Reading(s) then base[b].Cleared([]) else base[b]
  }

  /** Before the trigger nothing has happened to the buffers yet. */
  ghost predicate Contents(c: Config, init: seq<Buffer>, s: State)
    requires Control(c, s) && c.HasShape(init)
  {
    if BeforeTrigger(s.pc) then
      && s.out == Results(c, init, if c.First(s.exec) then s.exec else s.exec - 1)
      && s.bufs == if s.pc.Enable? then Settled(c, init, s.exec) else Ready(c, init, s.exec)
    else
      s.out == Results(c, init, if s.pc.ReadBegin? then s.exec - 1 else s.exec) && BusyBuffers(c, init, s)
  }

  ghost predicate Inv(c: Config, init: seq<Buffer>, s: State) {
    Control(c, s) && 2 <= c.buffers && c.HasShape(init) && Contents(c, init, s)
  }

  /** The index after `n % buffers`; it is another one exactly when there are at least two buffers. */
  lemma NextIndex(n: nat, buffers: nat)
    requires 0 < buffers
    ensures 0 <= n % buffers < buffers && 0 <= (n + 1) % buffers < buffers
    ensures (n % buffers + 1) % buffers == (n + 1) % buffers
    ensures (n + 1) % buffers != n % buffers <==> 2 <= buffers
    ensures (n + buffers) % buffers == n % buffers
  {
    var q, r := n / buffers, n % buffers;
    WholeTurn(q, buffers);
    if r + 1 < buffers {
      DivUnique(n + 1, buffers, q, r + 1);
      DivUnique(r + 1, buffers, 0, r + 1);
    } else {
      DivUnique(n + 1, buffers, q + 1, 0);
      DivUnique(r + 1, buffers, 1, 0);
    }
    DivUnique(n + buffers, buffers, q + 1, r);
  }

  lemma WholeTurn(q: nat, buffers: nat)
    ensures (q + 1) * buffers == q * buffers + buffers
  {
  }

  /** The read index before its shift. */
  lemma PreviousIndex(n: nat, buffers: nat)
    requires 0 < buffers
    ensures 0 <= (n + buffers - 1) % buffers < buffers
    ensures ((n + buffers - 1) % buffers + 1) % buffers == n % buffers
  {
    if n == 0 {
      DivUnique(buffers - 1, buffers, 0, buffers - 1);
      DivUnique(buffers, buffers, 1, 0);
      DivUnique(0, buffers, 0, 0);
    } else {
      NextIndex(n - 1, buffers);
    }
  }

  // ----- Control, for any number of buffers.

  lemma InitControl(c: Config, s: State)
    requires c.Valid() && Init(c, s)
    ensures Control(c, s)
  {
    DivUnique(0, c.buffers, 0, 0);
  }

  lemma HostKeepsControl(c: Config, s: State, t: State)
    requires Control(c, s) && HostStep(c, s, t)
    ensures Control(c, t)
  {
    hide Control, HostReady, HostNext;
    if BeforeTrigger(s.pc) {
      TriggerKeepsControl(c, s, t);
    } else {
      ReadAndWaitKeepControl(c, s, t);
    }
  }

  lemma TriggerKeepsControl(c: Config, s: State, t: State)
    requires Control(c, s) && HostStep(c, s, t) && BeforeTrigger(s.pc)
    ensures Control(c, t)
  {
    hide Traces, ClearAll;
    NextIndex(s.exec, c.buffers);
    PreviousIndex(s.exec, c.buffers);
    ClearKeepsShape(c, s.bufs);
  }

  lemma ReadAndWaitKeepControl(c: Config, s: State, t: State)
    requires Control(c, s) && HostStep(c, s, t) && !BeforeTrigger(s.pc)
    ensures Control(c, t)
  {
    hide Traces;
    NextIndex(s.exec, c.buffers);
  }

  lemma ClearKeepsShape(c: Config, bufs: seq<Buffer>)
    requires c.HasShape(bufs)
    ensures c.HasShape(ClearAll(bufs))
  {
  }

  lemma WorkerKeepsControl(c: Config, s: State, t: State)
    requires Control(c, s) && WorkerStep(c, s, t)
    ensures Control(c, t)
  {
    hide Added;
    assert Traces(s.exec + 1) == Traces(s.exec) + [Holds(s.exec)];
  }

  lemma {:induction false} RunKeepsControl(c: Config, run: seq<State>, k: nat)
    requires c.Valid() && IsRun(c, run) && k < |run|
    ensures Control(c, run[k])
  {
    if k == 0 {
      InitControl(c, run[0]);
    } else {
      hide Control, HostStep, WorkerStep, Init;
      RunKeepsControl(c, run, k - 1);
      var s, t := run[k - 1], run[k];
      assert Step(c, s, t);
      if WorkerStep(c, s, t) {
        WorkerKeepsControl(c, s, t);
      } else {
        HostKeepsControl(c, s, t);
      }
    }
  }

  // ----- Contents, with at least two buffers.

  lemma InitInv(c: Config, s: State)
    requires c.Valid() && 2 <= c.buffers && Init(c, s)
    ensures Inv(c, s.bufs, s)
  {
    InitControl(c, s);
    assert Results(c, s.bufs, 0) == map[];
  }

  lemma TriggerKeepsInv(c: Config, init: seq<Buffer>, s: State, t: State)
    requires Inv(c, init, s) && HostStep(c, s, t) && BeforeTrigger(s.pc)
    ensures Inv(c, init, t)
  {
    hide Settled, Results, Traces, Config.Valid, Ran;
    NextIndex(s.exec, c.buffers);
    HostKeepsControl(c, s, t);
  }

  /** The buffers after a served trigger. */
  lemma ServedIsSettled(c: Config, init: seq<Buffer>, s: State)
    requires Inv(c, init, s) && s.pc == Wait && s.finished
    ensures s.bufs == Settled(c, init, s.exec + 1)
  {
    hide Config.Valid, Ran, Ready, Results, Traces;
    NextIndex(s.exec, c.buffers);
    var base := Ready(c, init, s.exec);
    forall b | 0 <= b < c.buffers
      ensures s.bufs[b] == Settled(c, init, s.exec + 1)[b]
    {
    }
  }

  lemma ReadKeepsInv(c: Config, init: seq<Buffer>, s: State, t: State)
    requires Inv(c, init, s) && HostStep(c, s, t) && Reading(s)
    ensures Inv(c, init, t)
  {
    hide Settled, Traces, Ran, Results, Config.Valid, Result;
    NextIndex(s.exec, c.buffers);
    HostKeepsControl(c, s, t);
    if s.pc == ReadBegin {
      ReadIsResult(c, init, s);
    }
  }

  lemma WaitKeepsInv(c: Config, init: seq<Buffer>, s: State, t: State)
    requires Inv(c, init, s) && HostStep(c, s, t) && s.pc == Wait
    ensures Inv(c, init, t)
  {
    hide Settled, Traces, Ran, Results;
    NextIndex(s.exec, c.buffers);
    HostKeepsControl(c, s, t);
    ServedIsSettled(c, init, s);
    if c.plan[s.exec].Dummy? {
      DummyHasNoResult(c, init, s.exec);
    }
  }

  /** What the host reads is the result of the previous trigger. */
  lemma ReadIsResult(c: Config, init: seq<Buffer>, s: State)
    requires Inv(c, init, s) && s.pc == ReadBegin && s.exec > 0
    ensures s.read < |s.bufs| && c.TraceAt(s.exec - 1).ReadSize() <= |s.bufs[s.read].data|
    ensures s.bufs[s.read].data[..c.TraceAt(s.exec - 1).ReadSize()] == Result(c, init, s.exec - 1)
    ensures Results(c, init, s.exec) == Results(c, init, s.exec - 1)[s.exec - 1 := Result(c, init, s.exec - 1)]
  {
    hide Settled, Traces, Ran;
    NextIndex(s.exec, c.buffers);
    assert c.plan[s.exec - 1].Exec?;
  }

  lemma DummyHasNoResult(c: Config, init: seq<Buffer>, n: nat)
    requires c.Valid() && c.HasShape(init) && n < |c.plan| && c.plan[n].Dummy?
    ensures Results(c, init, n + 1) == Results(c, init, n)
  {
    hide Result;
  }

  lemma WorkerKeepsInv(c: Config, init: seq<Buffer>, s: State, t: State)
    requires Inv(c, init, s) && WorkerStep(c, s, t)
    ensures Inv(c, init, t)
  {
    hide Inv, WorkerStep;
    match s.worker {
      case Polling => StartKeepsInv(c, init, s, t);
      case Running(_, _) => InstructionKeepsInv(c, init, s, t);
      case _ => FinishKeepsInv(c, init, s, t);
    }
  }

  lemma StartKeepsInv(c: Config, init: seq<Buffer>, s: State, t: State)
    requires Inv(c, init, s) && WorkerStep(c, s, t) && s.worker.Polling?
    ensures Inv(c, init, t)
  {
    hide Settled, Results, Ready, Added, Traces;
    WorkerKeepsControl(c, s, t);
  }

  lemma InstructionKeepsInv(c: Config, init: seq<Buffer>, s: State, t: State)
    requires Inv(c, init, s) && WorkerStep(c, s, t) && s.worker.Running?
    ensures Inv(c, init, t)
  {
    hide Settled, Results, Ready, Traces, Added;
    NextIndex(s.exec, c.buffers);
    WorkerKeepsControl(c, s, t);
  }

  lemma FinishKeepsInv(c: Config, init: seq<Buffer>, s: State, t: State)
    requires Inv(c, init, s) && WorkerStep(c, s, t) && (s.worker.Disabling? || s.worker.Finishing?)
    ensures Inv(c, init, t)
  {
    hide Settled, Results, Ready, Traces, Ran;
    WorkerKeepsControl(c, s, t);
  }

  // ----- Safety over whole sequences of runs.

  lemma {:induction false} RunKeepsInv(c: Config, run: seq<State>, k: nat)
    requires c.Valid() && 2 <= c.buffers && IsRun(c, run) && k < |run|
    ensures Inv(c, run[0].bufs, run[k])
  {
    if k == 0 {
      InitInv(c, run[0]);
    } else {
      hide Inv, HostStep, WorkerStep, Init;
      RunKeepsInv(c, run, k - 1);
      var init, s, t := run[0].bufs, run[k - 1], run[k];
      assert Step(c, s, t);
      if WorkerStep(c, s, t) {
        WorkerKeepsInv(c, init, s, t);
      } else if BeforeTrigger(s.pc) {
        TriggerKeepsInv(c, init, s, t);
      } else if Reading(s) {
        ReadKeepsInv(c, init, s, t);
      } else {
        NotDone(c, s, t);
        WaitKeepsInv(c, init, s, t);
      }
    }
  }

  lemma NotDone(c: Config, s: State, t: State)
    requires c.Valid() && s.exec < |c.plan| && HostStep(c, s, t)
    ensures !s.pc.Done?
  {
  }

  /**
   * Pipeline safety, at every point of every sequence of runs on a unit with at least two buffers: while the host
   * reads, the read buffer is what the previous trigger left after it finished, and the worker writes another one.
   */
  lemma ReadsAreSafe(c: Config, run: seq<State>, k: nat)
    requires c.Valid() && 2 <= c.buffers && IsRun(c, run) && k < |run| && Reading(run[k])
    ensures c.HasShape(run[0].bufs)
    ensures var s := run[k];
      && 0 < s.exec < |c.plan| && s.read == c.BufferOf(s.exec - 1) < |s.bufs|
      && s.bufs[s.read] == Settled(c, run[0].bufs, s.exec)[s.read]
      && s.read != s.write && (s.worker.Running? ==> s.worker.buffer != s.read)
  {
    hide Settled, Traces, Results, Ran;
    RunKeepsInv(c, run, k);
    NextIndex(run[k].exec, c.buffers);
  }

  /** The instruction block is never rewritten while a trace runs, and the worker always runs the triggered trace. */
  lemma InstructionsAreStable(c: Config, run: seq<State>, k: nat)
    requires c.Valid() && IsRun(c, run) && k < |run|
    ensures run[k].worker.Running? ==> run[k].inst == Holds(run[k].exec) && !BeforeTrigger(run[k].pc)
    ensures run[k].pc.WriteBegin? || run[k].pc.WriteEnd? ==> run[k].worker == Polling && !run[k].enabled
  {
    RunKeepsControl(c, run, k);
  }

  /** The triggers so far. */
  ghost function Triggered(s: State): nat {
    if BeforeTrigger(s.pc) then s.exec else s.exec + 1
  }

  /**
   * Each trigger causes exactly one execution, of its own trace; a wait that can return has seen it complete. With
   * at least two buffers it then finds them as the triggers one after the other leave them.
   */
  lemma OneExecutionPerTrigger(c: Config, run: seq<State>, k: nat)
    requires c.Valid() && IsRun(c, run) && k < |run|
    ensures c.HasShape(run[0].bufs)
    ensures var s := run[k];
      && s.log == Traces(|s.log|)
      && |s.log| <= Triggered(s) <= |s.log| + 1
      && (Triggered(s) == |s.log| + 1 ==> s.worker == Polling && s.enabled)
      && (s.pc.Wait? && s.finished ==>
            && s.worker == Polling && !s.enabled && |s.log| == Triggered(s) && s.exec < |c.plan|
            && (2 <= c.buffers ==> s.bufs == Settled(c, run[0].bufs, s.exec + 1)))
  {
    hide Settled, Results, Ran;
    RunKeepsControl(c, run, k);
    if 2 <= c.buffers && run[k].pc.Wait? && run[k].finished {
      RunKeepsInv(c, run, k);
      ServedIsSettled(c, run[0].bufs, run[k]);
    }
  }

  /**
   * Every interleaving computes what the triggers do one after the other: when the host is done it has read exactly
   * the results of all executions of all runs, and nothing of a dummy.
   */
  lemma FinishedRunReadsEverything(c: Config, run: seq<State>)
    requires c.Valid() && 2 <= c.buffers && IsRun(c, run) && run[|run| - 1].pc == Done
    ensures c.HasShape(run[0].bufs) && run[|run| - 1].out == Results(c, run[0].bufs, |c.plan|)
  {
    hide Settled, Ran, Results;
    RunKeepsInv(c, run, |run| - 1);
    DummyHasNoResult(c, run[0].bufs, |c.plan| - 1);
  }

  // ----- Every sequence of runs ends.

  ghost function HostRank(pc: HostPc): nat {
    match pc
    case Enable => 10 case WriteBegin => 9 case WriteEnd => 8 case ShiftRead => 7 case ShiftWrite => 6
    case ResetPoll => 5 case Trigger => 4 case ReadBegin => 3 case ReadEnd => 2 case Wait => 1 case Done => 0
  }

  /** Worker steps that remain for the current trigger. */
  ghost function WorkerRank(c: Config, s: State): nat
    requires s.exec < |c.plan|
  {
    var len := |c.TraceAt(s.exec).ir|;
    match s.worker
    case Polling => if BeforeTrigger(s.pc) || s.enabled then len + 3 else 0
    case Running(k, _) => if k < len then len - k + 2 else 0
    case Disabling => 2
    case Finishing => 1
  }

  ghost predicate CanStep(c: Config, s: State)
    requires c.Valid()
  {
    exists t :: Step(c, s, t)
  }

  /** As long as the host is not done, some step is possible: the host's, or while it waits the worker's. */
  lemma NeverStuck(c: Config, s: State) returns (t: State)
    requires Control(c, s) && s.pc != Done
    ensures Step(c, s, t)
  {
    hide Traces, HostNext, WorkerNext;
    NextIndex(s.exec, c.buffers);
    t := if s.pc == Wait && !s.finished then WorkerNext(c, s) else HostNext(c, s);
  }

  /** Steps that the triggers after `exec` can still take. */
  ghost function Budget(c: Config, exec: nat): nat
    decreases |c.plan| - exec
  {
    if exec + 1 < |c.plan| then |c.TraceAt(exec + 1).ir| + 14 + Budget(c, exec + 1) else 0
  }

  /** An upper bound on the steps left. */
  ghost function StepsLeft(c: Config, s: State): nat
    requires s.exec < |c.plan|
  {
    Budget(c, s.exec) + WorkerRank(c, s) + HostRank(s.pc)
  }

  lemma EveryStepProgresses(c: Config, s: State, t: State)
    requires Control(c, s) && Step(c, s, t)
    ensures t.exec < |c.plan| && StepsLeft(c, t) < StepsLeft(c, s)
  {
    hide HostStep, WorkerStep, StepsLeft, Traces;
    if WorkerStep(c, s, t) {
      WorkerProgresses(c, s, t);
    } else {
      HostProgresses(c, s, t);
    }
  }

  lemma WorkerProgresses(c: Config, s: State, t: State)
    requires Control(c, s) && WorkerStep(c, s, t)
    ensures t.exec < |c.plan| && StepsLeft(c, t) < StepsLeft(c, s)
  {
    hide Traces, Added, Budget;
  }

  lemma HostProgresses(c: Config, s: State, t: State)
    requires Control(c, s) && HostStep(c, s, t)
    ensures t.exec < |c.plan| && StepsLeft(c, t) < StepsLeft(c, s)
  {
    hide ClearAll, Budget, Traces;
    if s.pc.Wait? {
      NextTrigger(c, s, t);
    }
  }

  lemma NextTrigger(c: Config, s: State, t: State)
    requires Control(c, s) && HostStep(c, s, t) && s.pc.Wait?
    ensures t.exec < |c.plan| && StepsLeft(c, t) < StepsLeft(c, s)
  {
    hide ClearAll, Traces;
  }

  /**
   * Liveness: no sequence of steps is longer than a bound fixed at its start, and one that cannot be extended has
   * reached the end. So under any scheduling every run completes with every result read.
   */
  lemma EveryRunEnds(c: Config, run: seq<State>)
    requires c.Valid() && IsRun(c, run)
    ensures run[0].exec < |c.plan| && |run| <= StepsLeft(c, run[0]) + 1
    ensures !CanStep(c, run[|run| - 1]) ==> run[|run| - 1].pc == Done
  {
    hide StepsLeft, Control, Step;
    StepsSpent(c, run, |run| - 1);
    RunKeepsControl(c, run, |run| - 1);
    if run[|run| - 1].pc != Done {
      var t := NeverStuck(c, run[|run| - 1]);
    }
  }

  lemma {:induction false} StepsSpent(c: Config, run: seq<State>, k: nat)
    requires c.Valid() && IsRun(c, run) && k < |run|
    ensures run[0].exec < |c.plan| && run[k].exec < |c.plan|
    ensures k + StepsLeft(c, run[k]) <= StepsLeft(c, run[0])
  {
    hide Step, StepsLeft, Control;
    RunKeepsControl(c, run, 0);
    ExecInRange(c, run[0]);
    if k > 0 {
      StepsSpent(c, run, k - 1);
      RunKeepsControl(c, run, k - 1);
      assert Step(c, run[k - 1], run[k]);
      EveryStepProgresses(c, run[k - 1], run[k]);
    }
  }

  lemma ExecInRange(c: Config, s: State)
    requires Control(c, s)
    ensures s.exec < |c.plan|
  {
  }

  /** Every run can be completed. */
  lemma {:induction false} Complete(c: Config, run: seq<State>) returns (full: seq<State>)
    requires c.Valid() && IsRun(c, run) && run[|run| - 1].exec < |c.plan|
    ensures IsRun(c, full) && full[0] == run[0] && full[|full| - 1].pc == Done
    decreases StepsLeft(c, run[|run| - 1])
  {
    hide StepsLeft, Control, Step, Init;
    var s := run[|run| - 1];
    if s.pc == Done {
      full := run;
    } else {
      RunKeepsControl(c, run, |run| - 1);
      var t := NeverStuck(c, s);
      EveryStepProgresses(c, s, t);
      full := Complete(c, run + [t]);
    }
  }

  /** Every unit has a finished run. */
  lemma SomeRunFinishes(c: Config) returns (run: seq<State>)
    requires c.Valid()
    ensures IsRun(c, run) && run[|run| - 1].pc == Done
  {
    var empty := Tracked(seq(c.size, x => []), 0, c.size);
    NextIndex(c.buffers - 1, c.buffers);
    var s := State(Enable, 0, map[], false, false, Torn, (c.buffers - 1) % c.buffers, 0, seq(c.buffers, b => empty),
                   Polling, []);
    run := Complete(c, [s]);
  }

  // ----- Why two buffers are needed.

  /** The worker is not writing the buffer that the host reads. */
  ghost predicate SafeRead(s: State) {
    Reading(s) && s.worker.Running? ==> s.worker.buffer != s.read
  }

  ghost predicate AllReadsSafe(c: Config)
    requires c.Valid()
  {
    forall run, k :: IsRun(c, run) && 0 <= k < |run| ==> SafeRead(run[k])
  }

  /** On every unit all reads of all interleavings are safe if and only if it has at least two buffers. */
  lemma SafeIffTwoBuffers(c: Config)
    requires c.Valid()
    ensures AllReadsSafe(c) <==> 2 <= c.buffers
  {
    if 2 <= c.buffers {
      forall run, k | IsRun(c, run) && 0 <= k < |run|
        ensures SafeRead(run[k])
      {
        if Reading(run[k]) {
          ReadsAreSafe(c, run, k);
        }
      }
    } else {
      var run := SingleBufferRace(c);
      assert !SafeRead(run[|run| - 1]);
    }
  }

  lemma Extend(c: Config, run: seq<State>, t: State) returns (longer: seq<State>)
    requires c.Valid() && IsRun(c, run) && run != [] && Step(c, run[|run| - 1], t)
    ensures IsRun(c, longer) && longer != [] && longer[|longer| - 1] == t
  {
    hide Step, Init;
    longer := run + [t];
  }

  /** The registers and indices of a unit with one buffer. */
  ghost predicate OneBuffer(c: Config, s: State) {
    && c.Valid() && c.buffers == 1 && s.exec < |c.plan| && |s.bufs| == 1 && |s.bufs[0].data| == c.size
    && s.read == 0 && s.write == 0
  }

  /** The host goes through to the trigger while the worker polls. */
  lemma ToTrigger(c: Config, run: seq<State>) returns (longer: seq<State>)
    requires c.Valid() && IsRun(c, run) && run != []
    requires var s := run[|run| - 1]; OneBuffer(c, s) && s.pc == WriteBegin && s.worker == Polling
    ensures IsRun(c, longer) && longer != []
    ensures var s, t := run[|run| - 1], longer[|longer| - 1];
      && OneBuffer(c, t) && t.worker == Polling && t.enabled && t.exec == s.exec && t.inst == Holds(s.exec)
      && t.pc == if c.First(s.exec) then Wait else ReadBegin
  {
    hide Init, Config.Valid, IsRun, Config.TraceAt;
    longer := run;
    for i := 0 to 6
      invariant IsRun(c, longer) && longer != []
      invariant var s, t := run[|run| - 1], longer[|longer| - 1];
        && OneBuffer(c, t) && t.worker == Polling && t.exec == s.exec
        && (i >= 2 ==> t.inst == Holds(s.exec)) && (i == 6 ==> t.enabled)
        && t.pc == match i
                   case 0 => WriteBegin case 1 => WriteEnd case 2 => ShiftRead case 3 => ShiftWrite
                   case 4 => ResetPoll case 5 => Trigger case _ => if c.First(s.exec) then Wait else ReadBegin
    {
      longer := Extend(c, longer, HostNext(c, longer[|longer| - 1]));
    }
  }

  /** The worker runs the rest of the triggered trace while the host waits. */
  lemma {:induction false} ToFinish(c: Config, run: seq<State>) returns (longer: seq<State>)
    requires c.Valid() && IsRun(c, run) && run != []
    requires var s := run[|run| - 1];
      && OneBuffer(c, s) && s.pc == Wait && s.inst == Holds(s.exec)
      && s.worker.Running? && s.worker.buffer == 0 && s.worker.step < |c.TraceAt(s.exec).ir|
    ensures IsRun(c, longer) && longer != []
    ensures var s, t := run[|run| - 1], longer[|longer| - 1];
      OneBuffer(c, t) && t.pc == Wait && t.worker == Polling && t.finished && t.exec == s.exec
    decreases |c.TraceAt(run[|run| - 1].exec).ir| - run[|run| - 1].worker.step
  {
    hide Init, IsRun, Added;
    var s := run[|run| - 1];
    longer := Extend(c, run, WorkerNext(c, s));
    if s.worker.step + 1 < |c.TraceAt(s.exec).ir| {
      longer := ToFinish(c, longer);
    } else {
      longer := Extend(c, longer, WorkerNext(c, longer[|longer| - 1]));
      longer := Extend(c, longer, WorkerNext(c, longer[|longer| - 1]));
    }
  }

  /** With a single buffer, whatever the unit has to do, the host can read a buffer while the worker writes it. */
  lemma SingleBufferRace(c: Config) returns (run: seq<State>)
    requires c.Valid() && c.buffers == 1
    ensures IsRun(c, run)
    ensures var s := run[|run| - 1]; Reading(s) && s.worker.Running? && s.worker.buffer == s.read
  {
    hide Added;
    var s := State(Enable, 0, map[], false, false, Torn, 0, 0, [Tracked(seq(c.size, x => []), 0, c.size)], Polling, []);
    assert Init(c, s);
    run := Extend(c, [s], HostNext(c, s));
    hide Init, IsRun;
    run := ToTrigger(c, run);
    run := Extend(c, run, WorkerNext(c, run[|run| - 1]));
    run := ToFinish(c, run);
    run := Extend(c, run, HostNext(c, run[|run| - 1]));
    run := ToTrigger(c, run);
    run := Extend(c, run, WorkerNext(c, run[|run| - 1]));
  }
}
