/** Dirty-range tracking and clearing of the AXDIMM result buffers (simulator_core/axdimm_core_sim). */
module DirtyRange {
  import opened InstGenerators

  // Rank interleaving size, 256 bytes. Offsets count 32-bit elements: all byte offsets are multiples of 4.
  const CLEAR_BLOCK: nat := 64

  function AlignDown(x: nat): nat {
    x - x % CLEAR_BLOCK
  }

  function AlignUp(x: nat): nat {
    if x % CLEAR_BLOCK == 0 then x else x + CLEAR_BLOCK - x % CLEAR_BLOCK
  }

  /** Offsets round to 256 bytes, 64 elements. */
  lemma RoundsToBlocks()
    ensures AlignUp(0) == 0 && AlignUp(1) == 64 && AlignUp(64) == 64 && AlignUp(65) == 128
    ensures AlignDown(63) == 0 && AlignDown(64) == 64 && AlignDown(127) == 64
  {
  }

  /** A buffer with the range that was written since it was last cleared. */
  datatype Tracked<T> = Tracked(data: seq<T>, min: nat, max: nat) {

    /** Elements outside the range are zero. */
    ghost predicate Contained(zero: T) {
      max <= |data| && forall x :: 0 <= x < |data| && !(min <= x < max) ==> data[x] == zero
    }

    ghost predicate AllZero(zero: T) {
      forall x :: 0 <= x < |data| ==> data[x] == zero
    }

    ghost function ClearSize(): int {
      AlignUp(max) - AlignDown(min)
    }

    /** The clear starts at the beginning of the buffer, wherever the dirty range starts. */
    ghost function Cleared(zero: T): (r: Tracked<T>)
      ensures |r.data| == |data|
    {
      if min >= max then this
      else Tracked(seq(|data|, x requires 0 <= x < |data| => if x < ClearSize() then zero else data[x]), |data|, 0)
    }

    ghost function Written(at: nat, row: seq<T>): (r: Tracked<T>)
      requires at + |row| <= |data|
      ensures |r.data| == |data|
    {
      Tracked(data[..at] + row + data[at + |row|..],
              if at < min then at else min, if max < at + |row| then at + |row| else max)
    }
  }

  lemma WriteKeepsRange<T>(b: Tracked<T>, zero: T, at: nat, row: seq<T>)
    requires b.Contained(zero) && at + |row| <= |b.data|
    ensures b.Written(at, row).Contained(zero)
  {
  }

  /** A range that starts in the first block is cleared completely. */
  lemma ClearIsComplete<T>(b: Tracked<T>, zero: T)
    requires b.Contained(zero) && (b.min < CLEAR_BLOCK || b.min >= b.max)
    ensures b.Cleared(zero).AllZero(zero) && b.Cleared(zero).Contained(zero)
  {
    if b.min < b.max {
      Alignment(b.min, b.max);
      var c := b.Cleared(zero);
      forall x | 0 <= x < |c.data|
        ensures c.data[x] == zero
      {
        assert c.data[x] == if x < b.ClearSize() then zero else b.data[x];
      }
    }
  }

  lemma Alignment(min: nat, max: nat)
    ensures max <= AlignUp(max) < max + CLEAR_BLOCK && AlignDown(min) <= min < AlignDown(min) + CLEAR_BLOCK
    ensures AlignDown(min) % CLEAR_BLOCK == 0 && AlignUp(max) % CLEAR_BLOCK == 0
    ensures min < CLEAR_BLOCK <==> AlignDown(min) == 0
    ensures CLEAR_BLOCK <= min ==> CLEAR_BLOCK <= AlignDown(min)
  {
  }

  /** A range that starts later is not: its last element survives whatever it is. */
  lemma LateRangeSurvives<T>(b: Tracked<T>, zero: T)
    requires CLEAR_BLOCK <= b.min < b.max <= |b.data|
    ensures b.Cleared(zero).data[b.max - 1] == b.data[b.max - 1]
  {
    Alignment(b.min, b.max);
    assert b.ClearSize() <= b.max - 1;
  }

  ghost predicate ClearsEverything(size: nat, min: nat, max: nat) {
    forall data: seq<nat> ::
      |data| == size && Tracked(data, min, max).Contained(0) ==> Tracked(data, min, max).Cleared(0).AllZero(0)
  }

  /**
   * The exact condition: a clear does its job for all contents of a dirty range iff the range starts in the first
   * block.
   */
  lemma ClearIsCompleteIff(size: nat, min: nat, max: nat)
    requires min < max <= size
    ensures ClearsEverything(size, min, max) <==> min < CLEAR_BLOCK
  {
    if min < CLEAR_BLOCK {
      forall data: seq<nat> | |data| == size && Tracked(data, min, max).Contained(0)
        ensures Tracked(data, min, max).Cleared(0).AllZero(0)
      {
        ClearIsComplete(Tracked(data, min, max), 0);
      }
    } else {
      var data: seq<nat> := seq(size, x => if x == max - 1 then 1 else 0);
      var b := Tracked(data, min, max);
      LateRangeSurvives(b, 0);
      assert b.Cleared(0).data[max - 1] == 1;
      assert |data| == size && Tracked(data, min, max).Contained(0) && !Tracked(data, min, max).Cleared(0).AllZero(0);
    }
  }

  // ----- Whole runs of writes and clears.

  datatype Event = Write(at: nat, row: seq<nat>) | Clear

  ghost predicate Fits(size: nat, events: seq<Event>) {
    forall i :: 0 <= i < |events| && events[i].Write? ==> events[i].at + |events[i].row| <= size
  }

  ghost function After(b: Tracked<nat>, events: seq<Event>): (r: Tracked<nat>)
    requires Fits(|b.data|, events)
    ensures |r.data| == |b.data|
  {
    if events == [] then b
    else
      var s := After(b, events[..|events| - 1]);
      match events[|events| - 1]
      case Write(at, row) => assert events[|events| - 1].Write?; s.Written(at, row)
      case Clear => s.Cleared(0)
  }

  /** Every clear of the run finds a range that starts in the first block. */
  ghost predicate ClearsEarlyRanges(b: Tracked<nat>, events: seq<Event>)
    requires Fits(|b.data|, events)
  {
    forall k :: 0 <= k < |events| && events[k].Clear? ==>
      var s := After(b, events[..k]); s.min < CLEAR_BLOCK || s.min >= s.max
  }

  /** Over such a run the elements outside the range are always zero, and every clear leaves the buffer all zero. */
  lemma {:induction false} RunStaysContained(b: Tracked<nat>, events: seq<Event>)
    requires b.Contained(0) && Fits(|b.data|, events) && ClearsEarlyRanges(b, events)
    ensures After(b, events).Contained(0)
    ensures events != [] && events[|events| - 1].Clear? ==> After(b, events).AllZero(0)
  {
    if events != [] {
      var init := events[..|events| - 1];
      assert forall k :: 0 <= k < |init| ==> init[..k] == events[..k] && init[k] == events[k];
      RunStaysContained(b, init);
      var s := After(b, init);
      match events[|events| - 1] {
        case Write(at, row) => WriteKeepsRange(s, 0, at, row);
        case Clear => ClearIsComplete(s, 0);
      }
    }
  }

  // ----- The dummy instruction.

  const DUMMY_INSTRUCTION: nat := 0xf_fd00_0000_0000_00
  const DUMMY_OUTPUT: nat := 2046

  /** Where the dummy writes: rows of 64 bytes, because its header is zero. */
  const DUMMY_AT: nat := DUMMY_OUTPUT * 16

  lemma DummyDecodes()
    ensures DecodeInstruction(DUMMY_INSTRUCTION) == Inst(0, 0, DUMMY_OUTPUT, 1, 0, 0, 0, 0)
  {
  }

  /** The dummy violates the condition: what it leaves in its row is still there after the next clear. */
  lemma DummySurvivesClear<T>(zeros: seq<T>, zero: T, row: seq<T>)
    requires DUMMY_AT + 16 <= |zeros| && |row| == 16 && forall x :: 0 <= x < |zeros| ==> zeros[x] == zero
    ensures var c := Tracked(zeros, |zeros|, 0).Written(DUMMY_AT, row).Cleared(zero);
      && c.min == |zeros| && c.max == 0
      && forall x :: 0 <= x < |zeros| ==> c.data[x] == if DUMMY_AT <= x < DUMMY_AT + 16 then row[x - DUMMY_AT] else zero
  {
    var b := Tracked(zeros, |zeros|, 0).Written(DUMMY_AT, row);
    assert b.min == DUMMY_AT && b.max == DUMMY_AT + 16 && b.ClearSize() == CLEAR_BLOCK;
  }

  // ----- The code.

  class ResultBuffer {
    const data: array<nat>
    var min: nat
    var max: nat

    /** The buffer may hold garbage, so all of it counts as dirty. */
    constructor (data: array<nat>)
      ensures this.data == data && min == 0 && max == data.Length
      ensures Now().Contained(0)
    {
      this.data := data;
      min, max := 0, data.Length;
    }

    ghost function Now(): Tracked<nat>
      reads this, data
    {
      Tracked(data[..], min, max)
    }

    /** The effect of one instruction on the buffer: its row gets the new sum, and the range grows. */
    method WriteRow(output: nat, width: nat, row: seq<nat>)
      requires |row| == width && output * width + width <= data.Length
      modifies this, data
      ensures Now() == old(Now()).Written(output * width, row)
    {
      var start := output * width;
      for k := 0 to width
        invariant forall x :: start <= x < start + k ==> data[x] == row[x - start]
        invariant forall x :: 0 <= x < data.Length && !(start <= x < start + k) ==> data[x] == old(data[x])
        invariant min == old(min) && max == old(max)
      {
        data[start + k] := row[k];
      }
      assert data[..] == old(data[..])[..start] + row + old(data[..])[start + width..];
      var end := start + width;
      min := if start < min then start else min;
      max := if max < end then end else max;
    }

    /** `clear_memory`: zero `size` elements, one interleaving block at a time. */
    method ClearMemory(size: nat)
      requires size % CLEAR_BLOCK == 0 && size <= data.Length
      modifies data
      ensures forall x :: 0 <= x < size ==> data[x] == 0
      ensures forall x :: size <= x < data.Length ==> data[x] == old(data[x])
    {
      var i := 0;
      while i < size
        invariant i % CLEAR_BLOCK == 0 && 0 <= i <= size
        invariant forall x :: 0 <= x < i ==> data[x] == 0
        invariant forall x :: i <= x < data.Length ==> data[x] == old(data[x])
      {
        var end := i + CLEAR_BLOCK;
        for k := i to end
          invariant forall x :: 0 <= x < k ==> data[x] == 0
          invariant forall x :: k <= x < data.Length ==> data[x] == old(data[x])
        {
          data[k] := 0;
        }
        i := end;
      }
    }

    /** `clear_buf_common` with the offset 0 that all its callers pass: whole blocks from the start of the buffer. */
    method ClearBuffer()
      requires data.Length % CLEAR_BLOCK == 0 && max <= data.Length
      modifies this, data
      ensures Now() == old(Now()).Cleared(0)
    {
      if min >= max {
        return;
      }
      WholeBlocks(min, max, data.Length);
      var size := AlignUp(max) - AlignDown(min);
      ClearMemory(size);
      max := 0;
      min := data.Length;
      assert old(Now()).ClearSize() == size;
      assert data[..] == old(Now()).Cleared(0).data;
    }
  }

  lemma WholeBlocks(min: nat, max: nat, size: nat)
    requires min < max <= size && size % CLEAR_BLOCK == 0
    ensures (AlignUp(max) - AlignDown(min)) % CLEAR_BLOCK == 0 && 0 <= AlignUp(max) - AlignDown(min) <= size
  {
    hide AlignUp, AlignDown;
    Alignment(min, max);
    var u, d := AlignUp(max) / CLEAR_BLOCK, AlignDown(min) / CLEAR_BLOCK;
    assert AlignUp(max) == CLEAR_BLOCK * u && AlignDown(min) == CLEAR_BLOCK * d &&
           size == CLEAR_BLOCK * (size / CLEAR_BLOCK);
  }
}
