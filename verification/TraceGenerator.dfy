/** From IR to instruction words and back (sls/operation/trace_generator, simulator decoding loop). */
module TraceGenerators {
  import opened TraceGeneratorCores
  import opened InstGenerators

  /** The two targets: rank-wise (AXDIMM) and channel-wise (CXL). */
  datatype Target = Ranked | Channel {
    function DecodeAddress(a: nat, i: Inst): Inst {
      if Ranked? then RankedDecodeAddress(a, i) else ChannelDecodeAddress(a, i)
    }

    function EncodeAddress(i: Inst): nat {
      if Ranked? then RankedEncodeAddress(i) else ChannelEncodeAddress(i)
    }
  }

  const TAG_BIT: nat := 0x100

  /** Vector size in units of 128 bytes, masked to five bits, and the tag bit. */
  function Header(rowBytes: nat, tagged: bool): nat {
    rowBytes / 128 % 32 + if tagged then TAG_BIT else 0
  }

  /** How the device reads the header: `64 << (header & 3)`. */
  function BytesPerIndex(header: nat): nat {
    match header % 4 case 0 => 64 case 1 => 128 case 2 => 256 case _ => 512
  }

  /** The row size survives exactly when it is one the device supports. */
  lemma HeaderRoundTrip(rowBytes: nat, tagged: bool)
    ensures BytesPerIndex(Header(rowBytes, tagged)) == rowBytes <==> rowBytes in {64, 128, 256}
    ensures Header(rowBytes, tagged) / TAG_BIT % 2 == if tagged then 1 else 0
  {
  }

  /** The headers of the supported row sizes. */
  lemma HeaderWords()
    ensures Header(64, false) == 0 && Header(128, false) == 1 && Header(256, false) == 2 && Header(64, true) == 0x100
    ensures Header(128 * 33, false) == 1
    ensures BytesPerIndex(0) == 64 && BytesPerIndex(0x101) == 128 && BytesPerIndex(0x102) == 256
  {
  }

  function Compile(target: Target, ir: IR): nat {
    EncodeInstruction(target.DecodeAddress(ir.address, MakeEmptyInstruction(ir.opcode, ir.output)))
  }

  /** What the instruction format can carry. */
  predicate Encodable(ir: IR) {
    ir.opcode < 4 && ir.output < 4096 && ir.address % 8 == 0 && ir.address < P34
  }

  ghost function Decode(target: Target, word: nat): IR {
    var i := DecodeInstruction(word);
    IR(i.opcode, i.output, target.EncodeAddress(i))
  }

  ghost predicate IsEnd(word: nat) {
    DecodeInstruction(word).traceEnd == 1
  }

  /** Compiling and decoding one instruction, with or without the end mark. */
  lemma InstructionSurvives(target: Target, ir: IR)
    requires Encodable(ir)
    ensures Decode(target, Compile(target, ir)) == ir && !IsEnd(Compile(target, ir))
    ensures Decode(target, SetTraceEnd(Compile(target, ir))) == ir && IsEnd(SetTraceEnd(Compile(target, ir)))
  {
    hide DecodeInstruction, EncodeInstruction, SetTraceEnd;
    hide RankedDecodeAddress, ChannelDecodeAddress, RankedEncodeAddress, ChannelEncodeAddress;
    var empty := MakeEmptyInstruction(ir.opcode, ir.output);
    var i := target.DecodeAddress(ir.address, empty);
    RankedRoundTrip(ir.address, empty);
    ChannelRoundTrip(ir.address, empty);
    DecodeKeepsRest(ir.address, empty);
    InstructionRoundTrip(i);
    SetTraceEndOnInstruction(i);
    InstructionRoundTrip(i.(traceEnd := 1));
    EncodeIgnoresEnd(i);
  }

  lemma DecodeKeepsRest(a: nat, i: Inst)
    ensures var r, c := RankedDecodeAddress(a, i), ChannelDecodeAddress(a, i);
      && r.opcode == c.opcode == i.opcode && r.output == c.output == i.output
      && r.traceEnd == c.traceEnd == i.traceEnd && r.localBit == c.localBit == i.localBit
  {
  }

  lemma EncodeIgnoresEnd(i: Inst)
    ensures RankedEncodeAddress(i.(traceEnd := 1)) == RankedEncodeAddress(i)
    ensures ChannelEncodeAddress(i.(traceEnd := 1)) == ChannelEncodeAddress(i)
  {
    hide Bit, Xor, PutBit, RowColumnAddress;
    SameRowAndColumn(i);
  }

  lemma SameRowAndColumn(i: Inst)
    ensures RowColumnAddress(i.(traceEnd := 1)) == RowColumnAddress(i)
  {
  }

  /** The instructions from position `from` of a buffer up to the first end mark. */
  ghost function DecodeFrom(target: Target, words: seq<nat>, from: nat): seq<IR>
    decreases |words| - from
  {
    if from >= |words| then []
    else [Decode(target, words[from])] + if IsEnd(words[from]) then [] else DecodeFrom(target, words, from + 1)
  }

  /** The words of a trace: header, compiled instructions, end mark on the last word. */
  ghost function TraceWords(target: Target, rowBytes: nat, tagged: bool, ir: seq<IR>): seq<nat> {
    seq(|ir| + 1, k requires 0 <= k < |ir| + 1 =>
      if k == 0 then (if ir == [] then SetTraceEnd(Header(rowBytes, tagged)) else Header(rowBytes, tagged))
      else if k == |ir| then SetTraceEnd(Compile(target, ir[k - 1]))
      else Compile(target, ir[k - 1]))
  }

  lemma {:induction false} TraceDecodesFrom(target: Target, rowBytes: nat, tagged: bool, ir: seq<IR>, words: seq<nat>,
                                            k: nat)
    requires forall j :: 0 <= j < |ir| ==> Encodable(ir[j])
    requires |ir| < |words| && words[..|ir| + 1] == TraceWords(target, rowBytes, tagged, ir)
    requires 0 < k <= |ir|
    ensures DecodeFrom(target, words, k) == ir[k - 1..]
    decreases |ir| - k
  {
    hide Decode, IsEnd, Compile, SetTraceEnd;
    assert words[k] == words[..|ir| + 1][k];
    InstructionSurvives(target, ir[k - 1]);
    if k < |ir| {
      TraceDecodesFrom(target, rowBytes, tagged, ir, words, k + 1);
      assert ir[k - 1..] == [ir[k - 1]] + ir[k..];
    }
  }

  /** Over arbitrary stale contents the device decodes exactly the IR and stops at the marked end. */
  lemma TraceDecodes(target: Target, rowBytes: nat, tagged: bool, ir: seq<IR>, stale: seq<nat>)
    requires ir != [] && forall j :: 0 <= j < |ir| ==> Encodable(ir[j])
    ensures var words := TraceWords(target, rowBytes, tagged, ir) + stale;
      DecodeFrom(target, words, 1) == ir && words[0] == Header(rowBytes, tagged)
  {
    var words := TraceWords(target, rowBytes, tagged, ir) + stale;
    assert words[..|ir| + 1] == TraceWords(target, rowBytes, tagged, ir);
    TraceDecodesFrom(target, rowBytes, tagged, ir, words, 1);
    assert ir[0..] == ir;
  }

  /** Header, compile and end mark, on a freshly resized trace vector. */
  method CompileTrace(target: Target, rowBytes: nat, tagged: bool, ir: seq<IR>) returns (trace: seq<nat>)
    ensures trace == TraceWords(target, rowBytes, tagged, ir)
  {
    hide Compile, SetTraceEnd, Header;
    var words := [Header(rowBytes, tagged)];
    for k := 0 to |ir|
      invariant |words| == k + 1 && words[0] == Header(rowBytes, tagged)
      invariant forall j :: 0 < j <= k ==> words[j] == Compile(target, ir[j - 1])
    {
      words := words + [Compile(target, ir[k])];
    }
    trace := words[|words| - 1 := SetTraceEnd(words[|words| - 1])];
  }
}
