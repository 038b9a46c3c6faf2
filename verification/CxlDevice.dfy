/** The CXL compute unit: instruction block, psum block and trace execution (simulator_core/cxl_core_sim). */
module CxlDevices {
  import opened SeqMath
  import opened CpuSls
  import opened TraceGeneratorCores
  import opened InstGenerators
  import opened TraceGenerators

  const RESERVED_OPCODE: nat := 1

  /**
   * One instruction: add the row at its address to its output row. The device adds psum to the row, not the row to
   * psum.
   */
  ghost function Applied(arith: Arith, mem: nat -> nat, psum: seq<nat>, width: nat, ir: IR): (r: seq<nat>)
    ensures |r| == |psum|
  {
    seq(|psum|, x requires 0 <= x < |psum| =>
      var at := ir.output * width;
      if at <= x < at + width then arith.Add(ir.opcode, mem(ir.address + 4 * (x - at)), psum[x]) else psum[x])
  }

  ghost function AppliedAll(arith: Arith, mem: nat -> nat, psum: seq<nat>, width: nat, irs: seq<IR>): (r: seq<nat>)
    ensures |r| == |psum|
  {
    if irs == [] then psum
    else Applied(arith, mem, AppliedAll(arith, mem, psum, width, irs[..|irs| - 1]), width, irs[|irs| - 1])
  }

  /** Element `e` of the rows stored at `addresses`. */
  ghost function Words(mem: nat -> nat, addresses: seq<nat>, e: nat): seq<nat> {
    seq(|addresses|, j requires 0 <= j < |addresses| => mem(addresses[j] + 4 * e))
  }

  /** An instruction changes element e of output row o exactly when o is its output. */
  lemma AppliedAt(arith: Arith, mem: nat -> nat, psum: seq<nat>, width: nat, ir: IR, o: nat, e: nat)
    requires e < width && Flat(o, width, e) < |psum|
    ensures Applied(arith, mem, psum, width, ir)[Flat(o, width, e)]
      == if ir.output == o then arith.Add(ir.opcode, mem(ir.address + 4 * e), psum[Flat(o, width, e)])
         else psum[Flat(o, width, e)]
  {
    MulCompare(o, ir.output, width);
  }

  lemma AddCommutes(arith: Arith, opcode: nat, x: nat, y: nat)
    requires arith.Valid()
    ensures arith.Add(opcode, x, y) == arith.Add(opcode, y, x)
  {
  }

  /** From a zeroed output row, a trace computes the in-order sum of the rows that it sends there. */
  lemma {:induction false} TraceSums(arith: Arith, mem: nat -> nat, psum: seq<nat>, width: nat, irs: seq<IR>,
                                     opcode: nat, o: nat, e: nat)
    requires arith.Valid() && forall i :: 0 <= i < |irs| ==> irs[i].opcode == opcode
    requires e < width && Flat(o, width, e) < |psum| && psum[Flat(o, width, e)] == 0
    ensures AppliedAll(arith, mem, psum, width, irs)[Flat(o, width, e)]
      == arith.Fold(opcode, Words(mem, AddressesFor(irs, o), e))
  {
    hide Applied, Flat, Arith.Add, Arith.Valid;
    if irs == [] {
    } else {
      var init, last := irs[..|irs| - 1], irs[|irs| - 1];
      TraceSums(arith, mem, psum, width, init, opcode, o, e);
      AppliedAt(arith, mem, AppliedAll(arith, mem, psum, width, init), width, last, o, e);
      var before, v := Words(mem, AddressesFor(init, o), e), mem(last.address + 4 * e);
      if last.output == o {
        assert Words(mem, AddressesFor(irs, o), e) == before + [v];
        arith.FoldAppend(opcode, before, v);
        AddCommutes(arith, opcode, v, arith.Fold(opcode, before));
      } else {
        assert AddressesFor(irs, o) == AddressesFor(init, o);
      }
    }
  }

  /** The instructions before the first one with a reserved opcode, which is an error. */
  ghost function Executed(irs: seq<IR>): seq<IR> {
    if irs == [] || irs[0].opcode == RESERVED_OPCODE then [] else [irs[0]] + Executed(irs[1..])
  }

  lemma {:induction false} ExecutedAll(irs: seq<IR>)
    requires forall i :: 0 <= i < |irs| ==> irs[i].opcode != RESERVED_OPCODE
    ensures Executed(irs) == irs
  {
    if irs != [] {
      ExecutedAll(irs[1..]);
      assert irs == [irs[0]] + irs[1..];
    }
  }

  ghost predicate OutputsFit(irs: seq<IR>, width: nat, room: nat) {
    forall i :: 0 <= i < |irs| ==> irs[i].output * width + width <= room
  }

  class CxlUnit {
    // The word at a byte address of the channel.
    const mem: nat -> nat
    const inst: array<nat>
    const psum: array<nat>

    constructor (mem: nat -> nat, inst: array<nat>, psum: array<nat>)
      ensures this.mem == mem && this.inst == inst && this.psum == psum
    {
      this.mem, this.inst, this.psum := mem, inst, psum;
    }

    /** Overwrites the start of the instruction block; the rest keeps its stale words. */
    method WriteInst(trace: seq<nat>)
      requires |trace| <= inst.Length
      modifies inst
      ensures inst[..] == trace + old(inst[..])[|trace|..]
    {
      for k := 0 to |trace|
        invariant forall x :: 0 <= x < k ==> inst[x] == trace[x]
        invariant forall x :: k <= x < inst.Length ==> inst[x] == old(inst[x])
      {
        inst[k] := trace[k];
      }
    }

    /** `reset_output_buffers`, in words. */
    method ResetPsum(words: nat)
      requires words <= psum.Length
      modifies psum
      ensures forall x :: 0 <= x < words ==> psum[x] == 0
      ensures forall x :: words <= x < psum.Length ==> psum[x] == old(psum[x])
    {
      for k := 0 to words
        invariant forall x :: 0 <= x < k ==> psum[x] == 0
        invariant forall x :: k <= x < psum.Length ==> psum[x] == old(psum[x])
      {
        psum[k] := 0;
      }
    }

    /** `sparse_ft_sum`. */
    method SparseFtSum(arith: Arith, ir: IR, width: nat)
      requires ir.output * width + width <= psum.Length
      modifies psum
      ensures psum[..] == Applied(arith, mem, old(psum[..]), width, ir)
    {
      var at := ir.output * width;
      for e := 0 to width
        invariant forall x :: at <= x < at + e ==>
                  psum[x] == arith.Add(ir.opcode, mem(ir.address + 4 * (x - at)), old(psum[x]))
        invariant forall x :: 0 <= x < psum.Length && !(at <= x < at + e) ==> psum[x] == old(psum[x])
      {
        psum[at + e] := arith.Add(ir.opcode, mem(ir.address + 4 * e), psum[at + e]);
      }
    }

    /** `exec_trace`: header first, then instructions up to the end mark. */
    method ExecTrace(arith: Arith) returns (ok: bool, processed: nat)
      requires inst != psum && inst.Length > 0 && inst[0] % 4 <= 2
      requires OutputsFit(Executed(DecodeFrom(Channel, inst[..], 1)), BytesPerIndex(inst[0]) / 4, psum.Length)
      modifies psum
      ensures var irs, width := DecodeFrom(Channel, old(inst[..]), 1), BytesPerIndex(old(inst[0])) / 4;
        && psum[..] == AppliedAll(arith, mem, old(psum[..]), width, Executed(irs))
        && (ok <==> Executed(irs) == irs)
        && (ok && irs != [] && Terminated(old(inst[..]), 1) ==> processed == |irs| + 1)
    {
      hide Applied, DecodeFrom, Executed, DecodeInstruction;
      hide ChannelEncodeAddress, AppliedAll, Pending, BytesPerIndex, Terminated;
      ok, processed := true, 0;
      var width, receivedHeader := 0, false;
      ghost var words, w := inst[..], BytesPerIndex(inst[0]) / 4;
      ghost var done: seq<IR> := [];
      StartPending(words);
      AppliedNone(arith, mem, psum[..], w);
      var i := 0;
      while i < inst.Length
        invariant 0 <= i <= inst.Length && inst[..] == words
        invariant receivedHeader == (i > 0) && (receivedHeader ==> width == w)
        invariant psum[..] == AppliedAll(arith, mem, old(psum[..]), w, done)
        invariant |done| == (if i == 0 then 0 else i - 1) && Pending(words, if i == 0 then 1 else i, done)
      {
        var raw := inst[i];
        if !receivedHeader {
          width := BytesPerIndex(raw) / 4;
          receivedHeader := true;
        } else {
          var instr := DecodeInstruction(raw);
          var ir := IR(instr.opcode, instr.output, ChannelEncodeAddress(instr));
          Advance(words, i, ir, done);
          if instr.opcode == RESERVED_OPCODE {
            return false, processed;
          }
          SparseFtSum(arith, ir, width);
          AppliedOne(arith, mem, old(psum[..]), w, done, ir);
          done := done + [ir];
          if instr.traceEnd == 1 {
            return true, i + 1;
          }
        }
        i := i + 1;
      }
      EndPending(words, i, done);
    }
  }

  /** An end mark follows, at word `from` or later. */
  ghost predicate Terminated(words: seq<nat>, from: nat) {
    exists k :: from <= k < |words| && DecodeInstruction(words[k]).traceEnd == 1
  }

  /** `done` was executed, and word `i` comes next. */
  ghost predicate Pending(words: seq<nat>, i: nat, done: seq<IR>) {
    var irs, rest := DecodeFrom(Channel, words, 1), DecodeFrom(Channel, words, i);
    && irs == done + rest && Executed(irs) == done + Executed(rest)
    && (Terminated(words, 1) ==> Terminated(words, i))
  }

  lemma StartPending(words: seq<nat>)
    ensures Pending(words, 1, [])
  {
  }

  lemma EndPending(words: seq<nat>, i: nat, done: seq<IR>)
    requires |words| <= i && Pending(words, i, done)
    ensures var irs := DecodeFrom(Channel, words, 1); Executed(irs) == irs == done && !Terminated(words, 1)
  {
  }

  lemma AppliedNone(arith: Arith, mem: nat -> nat, psum: seq<nat>, width: nat)
    ensures AppliedAll(arith, mem, psum, width, []) == psum
  {
  }

  lemma AppliedOne(arith: Arith, mem: nat -> nat, psum: seq<nat>, width: nat, done: seq<IR>, ir: IR)
    ensures AppliedAll(arith, mem, psum, width, done + [ir])
      == Applied(arith, mem, AppliedAll(arith, mem, psum, width, done), width, ir)
  {
    assert (done + [ir])[..|done|] == done;
  }

  /** Executing word `i`: an error, the end, or one more instruction done. */
  lemma Advance(words: seq<nat>, i: nat, ir: IR, done: seq<IR>)
    requires 0 < i < |words| && Pending(words, i, done)
    requires var d := DecodeInstruction(words[i]); ir == IR(d.opcode, d.output, ChannelEncodeAddress(d))
    ensures var irs := DecodeFrom(Channel, words, 1);
      if ir.opcode == RESERVED_OPCODE then
        Executed(irs) == done != irs
      else
        && |done| < |Executed(irs)| && Executed(irs)[|done|] == ir
        && if DecodeInstruction(words[i]).traceEnd == 1 then Executed(irs) == irs == done + [ir]
           else Pending(words, i + 1, done + [ir])
  {
    hide ChannelEncodeAddress, DecodeInstruction, DecodeFrom, Executed, Terminated;
    var next := if IsEnd(words[i]) then [] else DecodeFrom(Channel, words, i + 1);
    DecodeStep(words, i, ir);
    ExecutedCons(ir, next);
    TerminatedLater(words, i);
    Regroup(done, ir, next);
    Regroup(done, ir, Executed(next));
  }

  lemma DecodeStep(words: seq<nat>, i: nat, ir: IR)
    requires i < |words|
    requires var d := DecodeInstruction(words[i]); ir == IR(d.opcode, d.output, ChannelEncodeAddress(d))
    ensures DecodeFrom(Channel, words, i) == [ir] + if IsEnd(words[i]) then [] else DecodeFrom(Channel, words, i + 1)
  {
    hide ChannelEncodeAddress, DecodeInstruction;
  }

  lemma Regroup(done: seq<IR>, ir: IR, rest: seq<IR>)
    ensures done + ([ir] + rest) == done + [ir] + rest && (done + ([ir] + rest))[|done|] == ir
  {
  }

  lemma TerminatedLater(words: seq<nat>, i: nat)
    requires i < |words|
    ensures Terminated(words, i) && DecodeInstruction(words[i]).traceEnd != 1 ==> Terminated(words, i + 1)
  {
    hide DecodeInstruction;
  }

  lemma ExecutedCons(ir: IR, next: seq<IR>)
    ensures Executed([]) == []
    ensures Executed([ir] + next) == if ir.opcode == RESERVED_OPCODE then [] else [ir] + Executed(next)
  {
    assert ([ir] + next)[1..] == next;
  }
}
