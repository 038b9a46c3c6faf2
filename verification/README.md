# PNMLibrary model

A Dafny model of PNMLibrary's embedding-table reduction (SLS), its device protocols, its secure mode
and its in-memory database scan.

- **SLS on CXL.** `ExecutionGenerator` splits the batches of every table into executions, `PacksData`
  computes where each chunk's data lies, `TraceGeneratorCore` transposes the ragged index lists,
  `TraceGenerator` and `InstGenerator` encode 64-bit instructions, `CxlDevice` decodes and sums them,
  and `SparseReduction` scatters the rows. `CxlRunner` composes all of it: `CxlRunners.RunSls` ends
  with the user psum equal to the reference reduction of `CpuSls`, and `CxlRunners.RunOperation` calls
  it with the limits that the operation derives from the device buffers.
- **SLS on AXDIMM.** `DirtyRange` is the tracking and clearing of the dirty part of a result buffer.
  `AxdimmPipeline` is a state machine over the interleaved atomic steps of host and worker, through any
  sequence of runs on one unit: trigger and poll handshake, rotation of the result buffers, their
  contents, the clears and the dummy. A buffer element is the list of the terms added to it.
  `AxdimmResults` says what each read returns and when that is exactly the execution's own result.
  `AxdimmRunner` gives the terms their values and composes generation, compilation, the pipeline and
  delivery: `AxdimmRunners.RunSls` ends with the reference reduction of every batch.
- **Secure SLS.** `SecureEncryption`, `SecurePreprocessor`, `SecureSls`, `SecureTags` and
  `SecureExecutor` model additive secret sharing and the linear checksum, and `SecureReuse` a second
  run of one executor. The pad is any function of
  prefix, version and address. `SecureEncryption.DecryptionIsReduction` asks of the device only the
  predicate that `CpuSls.Compute` and `CxlRunners.RunSls` both establish.
- **IMDB scan.** `BitColumn` is the packed column, `LaneDecompression` the byte shuffles, `IndexStore`
  the compaction of lane numbers, and `VectorScan` the eight-lane scan against the scalar one. Words
  and registers are bit and byte sequences, and the intrinsics are functions on them.
- **Rank interleaving.** `RankAddress` is the address map and the block copies.

`SeqMath` holds arithmetic that several modules share.

## Where the code falls short of a property

Each of these has a lemma with the failing input or family, and the exact condition.

- A second run of a generator continues the batch counts of the first
  (`ExecutionGenerators.SecondRunMisplaces`, `ExecutionGenerators.FreshIff`).
- The row address wraps at 32 bits (`TraceGeneratorCores.AddressOfRowIff`).
- The address generator asserts 4-byte alignment; 8 is needed (`InstGenerators.AddressSurvivesIff`).
- A clear starts at the beginning of the buffer, not of the dirty range
  (`DirtyRange.ClearIsCompleteIff`); the dummy trace leaves a residue (`DirtyRange.DummySurvivesClear`).
- A later run on the same unit can read that residue as part of its own result
  (`AxdimmResults.ConcreteResidue`, `AxdimmResults.ExactIff`, `AxdimmResults.AlwaysExactIff`).
- With one result buffer, reads race with the worker (`AxdimmPipeline.SafeIffTwoBuffers`).
- The instruction limit can exceed the real buffer (`SparseReductions.OneLongList`,
  `SparseReductions.SetInstrBufferSize`).
- The iterator over lookup lists stops early when a table's last list is empty
  (`SecureSls.EmptyLastList`, `SecureSls.VisitsAllIff`); the rows it skips show the pads of an earlier run
  (`SecureReuse.SecondRunShowsPads`, `SecureReuse.ReusedIff`).
- The tag check can fail on an honest device when a column sum overflows
  (`SecureTags.PassesForEveryKeyIff`).
- The slicing loop does not advance for rows above 8192 bytes (`SecurePreprocessor.WideRowStalls`,
  `SecurePreprocessor.SliceProgressIff`).
- The lane compare is signed (`VectorScan.LargeBoundFails`, `VectorScan.RangeAgreesIff`), the list test
  looks at whole words (`VectorScan.StrayBitMatches`, `VectorScan.ListAgreesIff`), the scan runs over whole
  blocks (`VectorScan.PaddingMatches`, `VectorScan.EqualsScalarOnFreshPaddingIff`), and it stores eight
  entries at a time into a result of the column size (`VectorScan.OneValueLeavesResult`,
  `VectorScan.StoresInsideIff`, `VectorScan.AlwaysInsideIff`).
- A mapped region is as long as its rounded size, whatever its offset in the page
  (`RankAddress.ViewInMappingIff`).

Where comments and code disagree the model follows the code: the checksum weights are repeated
squares and not the powers named at PNMLibrary/secure/encryption/sls_mac.h:200, and the Home Agent
bit is bit 8 corrected by bit 19 and not bits 7 and 16 as at
PNMLibrary/core/device/sls/utils/rank_address.h:35-37.

## Model

| member | source | states |
|---|---|---|
| ExecutionGenerators.ExecutionGenerator.constructor | PNMLibrary/sls/operation/execution_generator.cpp:113 | a generator starts with no open execution and no committed batch |
| ExecutionGenerators.ExecutionGenerator.CommitTableBatches | PNMLibrary/sls/operation/execution_generator.cpp:35-39 | the last chunk, never missing, gets the number of batches of its table committed so far as its offset, and that number grows by the chunk |
| ExecutionGenerators.ExecutionGenerator.AddBatch | PNMLibrary/sls/operation/execution_generator.cpp:41-53 | the batch extends the last chunk, or commits it and opens a chunk of the new table; the counters follow |
| ExecutionGenerators.ExecutionGenerator.TryAddBatch | PNMLibrary/sls/operation/execution_generator.cpp:66-90 | adds the batch exactly when lookups and batches stay within their limits; otherwise commits the open chunk and adds nothing |
| ExecutionGenerators.ExecutionGenerator.CommitExecution | PNMLibrary/sls/operation/execution_generator.cpp:92-102 | appends the open execution with its psum size to its pack and empties it; other packs are untouched |
| ExecutionGenerators.ExecutionGenerator.PlaceBatch | PNMLibrary/sls/operation/execution_generator.cpp:131-142 | one batch keeps its pack an exact greedy partition of the batches seen so far |
| ExecutionGenerators.ExecutionGenerator.StartNext | PNMLibrary/sls/operation/execution_generator.cpp:134-139 | after an overflow the full execution is committed and the refused batch starts the next one |
| ExecutionGenerators.ExecutionGenerator.GeneratePack | PNMLibrary/sls/operation/execution_generator.cpp:120-149 | one pack becomes an exact greedy partition of its batches into non-empty executions within both limits |
| ExecutionGenerators.ExecutionGenerator.FinishPack | PNMLibrary/sls/operation/execution_generator.cpp:144-148 | what is open at the end of a pack becomes its last execution, and the pack an exact greedy partition |
| ExecutionGenerators.ExecutionGenerator.Generate | PNMLibrary/sls/operation/execution_generator.cpp:104-150 | every pack of every layout, on a new or used generator: chunks in order are contiguous, disjoint and cover one mini-batch of each table from its count on; executions are non-empty, within both limits and greedy; every placed table is counted one mini-batch further |
| ExecutionGenerators.FreshIff | PNMLibrary/sls/operation/execution_generator.cpp:113 | the executions are right for the request if and only if no table of the pack had a count at the start |
| ExecutionGenerators.SecondRunMisplaces | PNMLibrary/sls/operation/execution_generator.cpp:113 | one table with one batch: the second run places it at offset 1 |
| ExecutionGenerators.CloseExecution | PNMLibrary/sls/operation/execution_generator.cpp:92-102 | closing the open execution keeps the partition exact and greedy |
| ExecutionGenerators.Job.GreedyStaysAhead | PNMLibrary/sls/operation/execution_generator.cpp:66-148 | after k executions no other split within the limits has placed more batches |
| ExecutionGenerators.Job.GreedyIsMinimal | PNMLibrary/sls/operation/execution_generator.cpp:66-148 | a greedy split has the fewest parts of all order-preserving splits within both limits |
| ExecutionGenerators.Job.FewestExecutions | PNMLibrary/sls/operation/execution_generator.cpp:104-150 | the executions generated for a pack keep both limits, and no order-preserving split that keeps them has fewer parts |
| PacksData.ExecutionPacksData.InitTablesIndexingData | PNMLibrary/sls/operation/packs_data.cpp:60-86 | each table starts at its row of lengths and at the sum of all earlier lengths |
| PacksData.ExecutionPacksData.FillTableData | PNMLibrary/sls/operation/packs_data.cpp:88-151 | lengths, indices, psum and tags addresses of a chunk are those of the row of its first batch |
| PacksData.ExecutionPacksData.FillPacksData | PNMLibrary/sls/operation/packs_data.cpp:165-188 | every chunk of every execution of every pack gets its addresses |
| ChunkCover.Plan.ExactlyOneChunk | PNMLibrary/sls/operation/execution_generator.cpp:104-150 | every batch of every table is in exactly one chunk of exactly one execution of exactly one pack |
| ChunkCover.Plan.ChunkStaysInTable | PNMLibrary/sls/operation/execution_generator.cpp:35-39 | a chunk never reaches beyond the mini-batch of its table |
| ChunkCover.Plan.WritesIffCovers | PNMLibrary/sls/operation/packs_data.cpp:115-127 | a psum element belongs to a chunk exactly when the chunk covers the batch of its row |
| ChunkCover.Plan.OutputsDisjoint | PNMLibrary/sls/operation/packs_data.cpp:115-127 | psum destinations of different chunks never overlap |
| ChunkCover.Plan.OutputsComplete | PNMLibrary/sls/operation/packs_data.cpp:115-127 | psum destinations together fill the psum part of the user buffer |
| ChunkCover.Plan.PlanHasFewest | PNMLibrary/sls/operation/execution_generator.cpp:104-150 | in every pack of a plan no split within the limits has fewer executions |
| ChunkCover.Plan.WritesTagIffCovers | PNMLibrary/sls/operation/packs_data.cpp:129-143 | a tag element belongs to a chunk exactly when the chunk covers the batch of its row |
| ChunkCover.Plan.TagsBehindPsum | PNMLibrary/sls/operation/packs_data.cpp:129-143 | tag destinations lie behind all psum elements, four elements per batch |
| ChunkCover.Plan.TagsDisjoint | PNMLibrary/sls/operation/packs_data.cpp:129-143 | tag destinations of different chunks never overlap |
| ChunkCover.Plan.TagsComplete | PNMLibrary/sls/operation/packs_data.cpp:129-143 | tag destinations together fill the four elements per batch behind the psum |
| TraceGeneratorCores.AddressOfRowIff | PNMLibrary/sls/operation/trace_generator_core.cpp:146-150 | an instruction addresses its row if and only if row index times row size fits 32 bits; row 2^24 of 256 bytes is taken for row 0 |
| TraceGeneratorCores.WriteObjectTrace | PNMLibrary/sls/operation/trace_generator_core.cpp:74-96 | the column-wise loop ends, appends exactly the transposed trace of the chunk and returns the sum of the lengths |
| TraceGeneratorCores.TransposeIsExact | PNMLibrary/sls/operation/trace_generator_core.cpp:74-96 | every (batch, lookup) of the ragged lists is emitted, nothing else is, nothing twice, in column order |
| TraceGeneratorCores.TransposeCount | PNMLibrary/sls/operation/trace_generator_core.cpp:74-96 | as many instructions as lookups |
| TraceGeneratorCores.TransposeKeepsLookupOrder | PNMLibrary/sls/operation/trace_generator_core.cpp:74-96 | restricted to one batch, the emitted lookups are 0, 1, 2, ... in order |
| TraceGeneratorCores.Chunk.TraceServesEachBatch | PNMLibrary/sls/operation/trace_generator_core.cpp:74-96 | each output receives exactly the row addresses of its batch, in lookup order |
| TraceGeneratorCores.Chunk.TraceServesNothingElse | PNMLibrary/sls/operation/trace_generator_core.cpp:74-96 | outputs outside the chunk receive nothing |
| SparseReductions.ChunkServes | PNMLibrary/sls/operation/trace_generator_core.cpp:98-117 | read at its computed addresses, a chunk serves the index list of each of its batches |
| SparseReductions.GenerateInstructions | PNMLibrary/sls/operation/trace_generator_core.cpp:98-117 | the trace of an execution sends to output o the rows of batch number o, in lookup order, and its length is the number of lookups |
| SparseReductions.WriteResult | PNMLibrary/sls/operation/internal.h:121-134 | the user buffer becomes the scatter of the chunk rows to their destinations |
| SparseReductions.ScatterIsExact | PNMLibrary/sls/operation/internal.h:121-134 | a scatter sets every destination element to the value meant for it and touches nothing else |
| SparseReductions.SetInstrBufferSize | PNMLibrary/sls/operation/internal.h:179-199 | the limit is the divided buffer rounded down, or the longest list if that is more; it stays within the real buffer if and only if every length does |
| SparseReductions.OneLongList | PNMLibrary/sls/operation/internal.h:196-199 | one list of five lookups and a buffer of four instructions: the limit is five |
| SparseReductions.OneShortList | PNMLibrary/sls/operation/internal.h:193-199 | the same list and a thousand instructions halved: the limit is five hundred |
| InstGenerators.InstructionRoundTrip | PNMLibrary/core/device/sls/utils/inst_generator.h:62-107 | decoding an encoded instruction gives it back if and only if every field fits its width |
| InstGenerators.FieldPositions | PNMLibrary/hw/pnm_hw_instr_constants.h:21-36 | the weight of each field in the word |
| InstGenerators.SetTraceEndOnInstruction | PNMLibrary/sls/operation/trace_generator.h:83 | setting the end bit of a word is encoding the instruction with the end mark |
| InstGenerators.RankedRoundTrip | PNMLibrary/core/device/sls/utils/inst_generator.h:109-173 | ranked map with XOR banks: an address comes back without bits 0 to 2 and without bits from 34 on |
| InstGenerators.ChannelRoundTrip | PNMLibrary/core/device/sls/utils/inst_generator.h:193-235 | channel map: the same |
| InstGenerators.FieldsRoundTrip | PNMLibrary/core/device/sls/utils/inst_generator.h:109-235 | in-range row, bank group, bank and column come back unchanged, for both maps |
| InstGenerators.ChannelAddressIs | PNMLibrary/hw/pnm_sim_addr_constants.h:26-45 | the channel address is the weighted sum of the parts of column, row, bank group and bank |
| InstGenerators.RankedAddressIs | PNMLibrary/core/device/sls/utils/inst_generator.h:109-140 | the rank address is the channel address with bank group and bank flipped by bits 5 to 8 of the row |
| InstGenerators.AddressSurvivesIff | PNMLibrary/core/device/sls/utils/inst_generator.h:142-173 | exactly the multiples of 8 below 2^34 survive, for both maps |
| InstGenerators.FourAlignedIsNotEnough | PNMLibrary/core/device/sls/utils/inst_generator.h:144 | address 4 meets the alignment the code asserts and is lost |
| TraceGenerators.HeaderRoundTrip | PNMLibrary/sls/operation/trace_generator.h:72-81 | the device reads the row size back if and only if it is 64, 128 or 256; the tag bit always |
| TraceGenerators.HeaderWords | PNMLibrary/sls/operation/trace_generator.h:72-81 | the header words of the three row sizes and of a tagged trace |
| TraceGenerators.InstructionSurvives | PNMLibrary/sls/operation/trace_generator.h:85-97 | compiling and decoding one instruction gives it back, with or without the end mark |
| TraceGenerators.CompileTrace | PNMLibrary/sls/operation/trace_generator.h:46-97 | header, compiled instructions and end mark: one word more than instructions |
| TraceGenerators.TraceDecodes | PNMLibrary/sls/operation/trace_generator.h:46-97 | followed by arbitrary stale words, a trace decodes to exactly its instructions and stops at the end mark, for both maps |
| CpuSls.SumsWrap | PNMLibrary/core/device/sls/utils/inst_generator.h:31-36 | opcode 0 adds floats, opcodes 2 and 3 add words modulo 2^32 |
| CpuSls.Common | PNMLibrary/common/cpu_sls.h:34-44 | zeroes the output row, then it is the in-order sum of the indexed rows; nothing else changes |
| CpuSls.Compute | PNMLibrary/common/cpu_sls.h:61-88 | every output row is the reduction of its batch, with running table, index, length and psum positions |
| CxlDevices.CxlUnit.SparseFtSum | PNMLibrary/core/device/sls/simulator_core/cxl_core_sim.cpp:68-81 | adds the addressed row to its output row and changes nothing else |
| CxlDevices.CxlUnit.ExecTrace | PNMLibrary/core/device/sls/simulator_core/cxl_core_sim.cpp:98-155 | executes exactly the decoded instructions up to the end mark, stops with an error at the reserved opcode, and reports the number processed |
| CxlDevices.CxlUnit.WriteInst | PNMLibrary/core/operation_runner/reduction/cxl_runner.h:77-79 | the trace overwrites the start of the instruction block; the rest keeps its stale words |
| CxlDevices.CxlUnit.ResetPsum | PNMLibrary/core/operation_runner/reduction/cxl_runner.h:94-104 | zeroes the start of the psum block |
| CxlDevices.AppliedAt | PNMLibrary/core/device/sls/simulator_core/cxl_core_sim.cpp:68-81 | an instruction changes an element exactly when the element is in its output row |
| CxlDevices.TraceSums | PNMLibrary/core/device/sls/simulator_core/cxl_core_sim.cpp:68-81 | on a zeroed row, a trace leaves the in-order sum of the rows it sends there, for any commutative addition |
| CxlDevices.Advance | PNMLibrary/core/device/sls/simulator_core/cxl_core_sim.cpp:115-154 | one word: an error, the end, or one more instruction done |
| CxlRunners.RowAddress | PNMLibrary/sls/operation/trace_generator_core.cpp:146-150 | a row address does not wrap, can be encoded, and leads to the row |
| CxlRunners.Op.DeviceComputes | PNMLibrary/core/device/sls/simulator_core/cxl_core_sim.cpp:98-155 | executing a serving trace on zeroed rows yields the reference reductions |
| CxlRunners.Op.ResultsAsExpected | PNMLibrary/sls/operation/internal.h:121-134 | the rows of each chunk are what the reference says at the chunk destination |
| CxlRunners.RunTrace | PNMLibrary/core/operation_runner/reduction/cxl_runner.h:73-84 | write, reset and run: the psum block starts with the reductions of the execution, whatever the blocks held before, and the header tells whether it is tagged |
| CxlRunners.RunExecution | PNMLibrary/core/operation_runner/reduction/cxl_runner.h:68-92 | the psum of one execution on one unit: its destinations become what the reference says and no other psum element changes |
| CxlRunners.Deliver | PNMLibrary/sls/operation/internal.h:64-70 | given the reduced rows of an execution, its destinations become what the reference says and nothing else changes |
| CxlRunners.SomeUnitInPack | PNMLibrary/core/device/sls/rank_memory.h:51-59 | every pack identifier names at least one unit |
| CxlRunners.StoresExecution | PNMLibrary/sls/operation/trace_generator_core.cpp:107-111 | a memory with the tables of a pack holds every table the executions of that pack read |
| CxlRunners.UnitStoresExecution | PNMLibrary/sls/operation/trace_generator_core.cpp:107-111 | any unit of a pack holds every table the executions of that pack read |
| CxlRunners.OneMoreDone | PNMLibrary/core/operation_runner/reduction/core.h:58-85 | one more execution keeps the finished ones correct |
| CxlRunners.RunPacks | PNMLibrary/core/operation_runner/reduction/core.h:58-85 | executions of all packs in any order, on any unit of their pack, leave the reference result |
| CxlRunners.Prepare | PNMLibrary/sls/operation/internal.h:52-58 | generation and addresses: a valid plan of the whole request, with every chunk filled |
| CxlRunners.RunSls | PNMLibrary/core/operation_runner/reduction/cxl_runner.h:60-92 | end to end: generate, fill, compile, run and scatter leave in the user psum exactly the reference reduction of every batch of every table, with as few executions as the limits allow |
| CxlRunners.RunOperation | PNMLibrary/sls/operation/internal.h:180-215 | the same for all non-empty lookup lists that fit the instruction buffer, with as few executions as the psum buffer and the divided instruction buffer allow |
| CxlRunners.ReferenceDeterminesPsum | PNMLibrary/common/cpu_sls.h:61-88 | two buffers that hold the reference result agree on the whole psum, so the end result does not depend on the schedule |
| AxdimmPipeline.NextIndex | PNMLibrary/core/device/sls/utils/nbuffer_memory.cpp:54-57 | shifting an index is counting triggers modulo the number of buffers; it gives another buffer if and only if there are at least two |
| AxdimmPipeline.HostKeepsControl | PNMLibrary/core/operation_runner/reduction/axdimm_runner.h:60-129 | host steps keep registers, indices, instruction block and log in step with the worker, for any number of buffers |
| AxdimmPipeline.WorkerKeepsControl | PNMLibrary/core/device/sls/simulator/base_sls_sim.cpp:38-49 | worker steps do too |
| AxdimmPipeline.RunKeepsControl | PNMLibrary/core/operation_runner/reduction/axdimm_runner.h:60-129 | this control invariant holds in every state of every interleaving, for any number of buffers |
| AxdimmPipeline.InitInv | PNMLibrary/core/device/sls/utils/nbuffer_memory.cpp:44-52 | a new unit, whatever its buffers hold, meets the pipeline invariant |
| AxdimmPipeline.TriggerKeepsInv | PNMLibrary/core/operation_runner/reduction/axdimm_runner.h:97-129 | host steps from acquiring the unit up to a trigger keep the pipeline invariant |
| AxdimmPipeline.ReadKeepsInv | PNMLibrary/core/operation_runner/reduction/axdimm_runner.h:66-90 | host read steps keep the pipeline invariant; what they take is the previous result of the sequential semantics |
| AxdimmPipeline.WaitKeepsInv | PNMLibrary/core/operation_runner/reduction/axdimm_runner.h:113-129 | moving on after a wait keeps the invariant: the buffers are those of the sequential semantics |
| AxdimmPipeline.WorkerKeepsInv | PNMLibrary/core/device/sls/simulator/base_sls_sim.cpp:38-49 | worker steps keep the pipeline invariant |
| AxdimmPipeline.RunKeepsInv | PNMLibrary/core/operation_runner/reduction/axdimm_runner.h:61-95 | with at least two buffers the invariant, buffer contents included, holds in every state of every interleaving of any sequence of runs |
| AxdimmPipeline.ReadsAreSafe | PNMLibrary/core/operation_runner/reduction/axdimm_runner.h:72-87 | every read takes the buffer its execution wrote, after that execution finished, and never the buffer being written |
| AxdimmPipeline.InstructionsAreStable | PNMLibrary/core/operation_runner/reduction/axdimm_runner.h:113-129 | for any number of buffers: the instruction block is never rewritten while a trace runs, and the worker runs the triggered trace |
| AxdimmPipeline.OneExecutionPerTrigger | PNMLibrary/core/device/sls/simulator/base_sls_sim.cpp:33-50 | for any number of buffers: each trigger causes exactly one execution of its own trace, and a wait returns only after it completed; with two, the buffers are then those of the sequential semantics |
| AxdimmPipeline.FinishedRunReadsEverything | PNMLibrary/core/operation_runner/reduction/axdimm_runner.h:61-95 | a finished sequence of runs has read, for every execution and no dummy, exactly the contents that running the traces and clears one after the other gives, whatever the interleaving |
| AxdimmPipeline.NeverStuck | PNMLibrary/core/operation_runner/reduction/axdimm_runner.h:61-95 | until the host is done some step is possible, for any number of buffers |
| AxdimmPipeline.EveryStepProgresses | PNMLibrary/core/operation_runner/reduction/axdimm_runner.h:61-95 | every step lowers a bound on the steps left, for any number of buffers |
| AxdimmPipeline.EveryRunEnds | PNMLibrary/core/operation_runner/reduction/axdimm_runner.h:61-95 | every run is finite and one that cannot be extended is complete, for any number of buffers |
| AxdimmPipeline.Complete | PNMLibrary/core/operation_runner/reduction/axdimm_runner.h:60-95 | every unfinished run can be continued to the end |
| AxdimmPipeline.SafeIffTwoBuffers | PNMLibrary/core/device/sls/utils/nbuffer_memory.cpp:44-92 | no interleaving reads a buffer that is being written if and only if the unit has at least two buffers |
| AxdimmPipeline.SingleBufferRace | PNMLibrary/core/operation_runner/reduction/axdimm_runner.h:72-74 | every unit with one buffer has a run that reads the buffer being written |
| DirtyRange.ResultBuffer.WriteRow | PNMLibrary/core/device/sls/simulator_core/axdimm_core_sim.cpp:222-235 | a row write extends the dirty range to cover it |
| DirtyRange.ResultBuffer.ClearMemory | PNMLibrary/core/device/sls/simulator_core/axdimm_core_sim.cpp:269-276 | zeroes whole interleaving blocks from the start of the buffer |
| DirtyRange.ResultBuffer.ClearBuffer | PNMLibrary/core/device/sls/simulator_core/axdimm_core_sim.cpp:278-312 | clears as many blocks as the dirty range spans, from the start of the buffer, and resets the range |
| DirtyRange.RoundsToBlocks | PNMLibrary/core/device/sls/simulator_core/axdimm_core_sim.cpp:278-296 | offsets round to 256 bytes |
| DirtyRange.WriteKeepsRange | PNMLibrary/core/device/sls/simulator_core/axdimm_core_sim.cpp:222-235 | elements outside the range stay zero under writes |
| DirtyRange.ClearIsComplete | PNMLibrary/core/device/sls/simulator_core/axdimm_core_sim.cpp:278-312 | a range that starts in the first block is cleared completely |
| DirtyRange.ClearIsCompleteIff | PNMLibrary/core/device/sls/simulator_core/axdimm_core_sim.cpp:297-306 | a clear does its job for all contents of a dirty range if and only if the range starts in the first block |
| DirtyRange.RunStaysContained | PNMLibrary/core/device/sls/simulator_core/axdimm_core_sim.cpp:222-312 | over every run of writes and clears of such ranges, elements outside the range are zero and every clear leaves all zero |
| DirtyRange.DummyDecodes | PNMLibrary/core/device/sls/utils/inst_generator.h:38-42 | the dummy instruction writes output 2046 |
| DirtyRange.DummySurvivesClear | PNMLibrary/core/device/sls/simulator_core/axdimm_core_sim.cpp:297-306 | the dummy trace violates the condition: its row is still there after the clear |
| AxdimmResults.RanAt | PNMLibrary/core/device/sls/simulator_core/axdimm_core_sim.cpp:203-235 | a trace appends to each element exactly its own terms |
| AxdimmResults.DummyStays | PNMLibrary/core/device/sls/simulator_core/axdimm_core_sim.cpp:278-312 | running the dummy and clearing adds one dummy row to what a buffer keeps, and nothing else |
| AxdimmResults.ExecutionIsCleared | PNMLibrary/core/device/sls/simulator_core/axdimm_core_sim.cpp:278-312 | running the trace of an execution and clearing leaves at most the dummy rows that were there, and none if the result reaches them |
| AxdimmResults.AlwaysTidy | PNMLibrary/core/operation_runner/reduction/axdimm_runner.h:61-95 | at every trigger of every sequence of runs each buffer is clear up to its dummy rows |
| AxdimmResults.ResultAt | PNMLibrary/core/operation_runner/reduction/axdimm_runner.h:72-87 | each element read is the execution's own terms, behind the dummy rows left at that element |
| AxdimmResults.ExactIff | PNMLibrary/core/operation_runner/reduction/axdimm_runner.h:72-87 | a read returns exactly the execution's own result if and only if its buffer keeps no dummy row or the result ends before the row the dummy writes |
| AxdimmResults.FirstRunIsExact | PNMLibrary/core/operation_runner/reduction/axdimm_runner.h:61-95 | every result of the first run on a unit is exact |
| AxdimmResults.AlwaysExactIff | PNMLibrary/core/operation_runner/reduction/axdimm_runner.h:61-95 | a trace is read exactly wherever it occurs in any sequence of runs if and only if its result ends before the row the dummy writes |
| AxdimmResults.SecondRunReadsDummy | PNMLibrary/core/operation_runner/reduction/axdimm_runner.h:74-84 | every larger result is wrong in the run after one that left the dummy in its buffer |
| AxdimmResults.ConcreteResidue | PNMLibrary/core/operation_runner/reduction/axdimm_runner.h:74-84 | two runs on two buffers of 32768 elements: the second reads the dummy's row added to its own |
| AxdimmResults.ValuesExactIff | PNMLibrary/core/operation_runner/reduction/axdimm_runner.h:72-87 | the same exactness in values, for all memories and additions |
| AxdimmRunners.CleanComputes | PNMLibrary/core/device/sls/simulator_core/axdimm_core_sim.cpp:203-220 | the own terms of a serving trace have the values of the reference reductions |
| AxdimmRunners.ServingIsProper | PNMLibrary/sls/operation/trace_generator_core.cpp:98-117 | the trace of an execution of non-empty lists addresses every output from 0 to its last |
| AxdimmRunners.ServingTraceIsCleared | PNMLibrary/core/device/sls/simulator_core/axdimm_core_sim.cpp:278-312 | the clear after such a trace leaves an empty buffer empty again |
| AxdimmRunners.CompileExecution | PNMLibrary/sls/operation/trace_generator.h:46-97 | the compiled trace serves the batches of its execution and decodes with the ranked address map to itself, over any stale words |
| AxdimmRunners.ReadIsReduction | PNMLibrary/core/operation_runner/reduction/axdimm_runner.h:72-90 | under the exactness condition, what any finished interleaving read for an execution is the reference reduction of its batches |
| AxdimmRunners.CollectResults | PNMLibrary/core/operation_runner/reduction/axdimm_runner.h:60-95 | the rows read by finished interleavings of all packs, with any other runs on their units, leave in the user psum the reference reduction of every batch |
| AxdimmRunners.CompilePack | PNMLibrary/sls/operation/internal.h:92-106 | every trace that a unit can decode from the submitted words, over any stale ones, serves the batches of its execution |
| AxdimmRunners.AnswersServePack | PNMLibrary/core/operation_runner/reduction/axdimm_runner.h:60-95 | what a unit answers in its first run, or with results below the row of the dummy, serves the pack |
| AxdimmRunners.SomeAnswers | PNMLibrary/core/operation_runner/reduction/axdimm_runner.h:60-95 | a unit can answer whatever it is asked to run |
| AxdimmRunners.RunOnPack | PNMLibrary/core/operation_runner/reduction/axdimm_runner.h:60-95 | compile and submit the executions of a pack: what is read in any interleaving is the reference reduction of every batch of every execution |
| AxdimmRunners.RunSls | PNMLibrary/core/operation_runner/reduction/axdimm_runner.h:60-129 | end to end: generate, fill, compile, run in any interleaving and deliver leave in the user psum exactly the reference reduction of every batch of every table, with as few executions as the limits allow |
| SecureEncryption.Encrypt | PNMLibrary/secure/encryption/sls_engine.h:89-109 | refuses rows that are not whole pads; otherwise every element loses its own pad modulo 2^32, in place, and nothing else changes |
| SecureEncryption.SharesAddUp | PNMLibrary/secure/encryption/sls_engine.h:246-264 | sums of ciphertext plus sums of pads are sums of plaintext modulo 2^32, for any pads |
| SecureEncryption.DecryptionIsReduction | PNMLibrary/secure/encryption/sls_dlrm_postprocessor.h:60-127 | any device result on the ciphertext tables plus the pad reduction is the plaintext reduction, for every pad function, table and batch |
| SecureEncryption.PadsAreUsedOnce | PNMLibrary/secure/encryption/sls_dlrm_preprocessor.h:110-148 | no two blocks of the tables share a data pad address, and no two elements a part of a block |
| SecureEncryption.LanesArePartsOfBlock | PNMLibrary/secure/encryption/sls_engine.h:96-106 | the four elements of a pad block are its four 32-bit parts, the lowest first |
| SecureEncryption.PadsAreFree | PNMLibrary/secure/encryption/sls_engine.h:89-109 | every choice of pads, element by element, is the choice of some engine |
| SecureEncryption.RowOffsetOf | PNMLibrary/secure/encryption/sls_dlrm_postprocessor.h:50-58 | rows of 16 elements lie 64 bytes apart, one table after the other |
| SecurePreprocessor.SliceProgressIff | PNMLibrary/secure/encryption/sls_dlrm_preprocessor.h:104-118 | the slicing loop makes progress if and only if a row fits in the slice buffer |
| SecurePreprocessor.WideRowStalls | PNMLibrary/secure/encryption/sls_dlrm_preprocessor.h:104-118 | rows of 2048 elements are fetched one by one, rows of 2049 never |
| SecurePreprocessor.EncryptLine | PNMLibrary/secure/encryption/sls_dlrm_preprocessor.h:129-142 | the tag is that of the plain row, the row is encrypted in place, later rows stay plain |
| SecurePreprocessor.EncryptSlice | PNMLibrary/secure/encryption/sls_dlrm_preprocessor.h:124-145 | each row of a slice is tagged from its plaintext, encrypted and written at its own offset |
| SecurePreprocessor.Load | PNMLibrary/secure/encryption/sls_dlrm_preprocessor.h:95-154 | all rows of all tables are written encrypted and tagged in order, with the table start offsets; it fails exactly when a row is not whole pads |
| SecureSls.FillOffsets | PNMLibrary/secure/encryption/sls_dlrm_postprocessor.h:50-58 | byte offset of each indexed row |
| SecureSls.GenerateOtpVec | PNMLibrary/secure/encryption/AES/sls_extra.h:101-122 | the buffer holds the pad row of every address |
| SecureSls.PadRowsReduce | PNMLibrary/secure/encryption/sls_dlrm_postprocessor.h:87-89 | summing the generated rows is the pad reduction over the index list |
| SecureSls.VisitsAllIff | PNMLibrary/include/pnmlib/common/variable_row_view.h:56-66 | the row iterator visits every lookup list if and only if the last one is not empty |
| SecureSls.EmptyLastList | PNMLibrary/include/pnmlib/common/variable_row_view.h:56-66 | of the lists of lengths 1 and 0 one is visited |
| SecureSls.SkippedIffNotVisited | PNMLibrary/include/pnmlib/common/variable_row_view.h:56-66 | a batch is skipped exactly when no index follows in its table |
| SecureSls.SkippedIsEmpty | PNMLibrary/include/pnmlib/common/variable_row_view.h:56-66 | only empty lookup lists are skipped |
| SecureSls.PerformSls | PNMLibrary/secure/encryption/sls_dlrm_postprocessor.h:60-102 | for any lookup lists: the host share of every visited batch is the reduction of its pads and its tag the sum of the tag pads; skipped batches keep what the buffers held |
| SecureTags.Prefixes | PNMLibrary/secure/encryption/sls_mac.h:68-77 | data pads, checksum seed and tag pads come from prefixes 0x00, 0x01 and 0x10, each with its own address and the table version |
| SecureTags.WeightIsPower | PNMLibrary/secure/encryption/sls_mac.h:200-208 | as long as nothing is reduced the weights are the repeated squares of the seed |
| SecureTags.WeightIsReduced | PNMLibrary/secure/encryption/sls_mac.h:200-208 | squares are reduced modulo 2^128 and then modulo Q |
| SecureTags.ChecksumOfThree | PNMLibrary/secure/encryption/sls_mac.h:194-210 | seed 3 and row 1, 10, 100 give 3 + 90 + 8100 |
| SecureTags.SwapPassesIff | PNMLibrary/secure/encryption/sls_mac.h:194-210 | exchanging two elements keeps the checksum if and only if the difference of their weights times that of the elements vanishes modulo 2^128 |
| SecureTags.SwapIsSeen | PNMLibrary/secure/encryption/sls_mac.h:194-210 | with seed 2 no exchange of one of the first seven elements with an unequal one passes |
| SecureTags.LinearChecksum | PNMLibrary/secure/encryption/sls_mac.h:194-210 | the weighted sum modulo 2^128, with weights squared modulo 2^128 and then modulo Q |
| SecureTags.GenerateMac | PNMLibrary/secure/encryption/sls_mac.h:68-77 | checksum less the tag pad modulo 2^128 |
| SecureTags.ValidatePsum | PNMLibrary/secure/encryption/sls_mac.h:129-137 | true exactly when the checksum is the sum of both tag shares |
| SecureTags.SumTags | PNMLibrary/common/cpu_sls.h:46-59 | sum of tags modulo 2^128 |
| SecureTags.DotLinear | PNMLibrary/secure/encryption/sls_mac.h:194-210 | the weighted sum is linear for these weights |
| SecureTags.DotOfColumnSums | PNMLibrary/secure/encryption/sls_mac.h:194-210 | checksum of the column sums is the sum of the row checksums |
| SecureTags.TagSharesAddUp | PNMLibrary/secure/encryption/sls_mac.h:68-77 | tag shares add up to the row checksums modulo 2^128 |
| SecureTags.CheckIff | PNMLibrary/secure/encryption/sls_mac.h:129-137 | on an honest device the check holds if and only if the weighted column carries vanish modulo 2^128 |
| SecureTags.NoOverflowPasses | PNMLibrary/secure/encryption/sls_mac.h:129-137 | without column overflow the check holds, whatever the pads |
| SecureTags.PassesForEveryKeyIff | PNMLibrary/secure/encryption/sls_mac.h:129-137 | the check holds for every pad function if and only if no column sum overflows 32 bits |
| SecureExecutor.DecryptPsum | PNMLibrary/secure/encryption/sls_dlrm_postprocessor.h:104-127 | adds the shares in place; every row check is its tag equation and the status is their conjunction |
| SecureExecutor.MakeUserPsum | PNMLibrary/secure/common/sls_executor.h:215-238 | exactly the rows whose check is true are copied |
| SecureExecutor.ComputeTags | PNMLibrary/common/cpu_sls.h:90-133 | every device tag is the sum of the stored tags of the rows of its batch |
| SecureExecutor.LoadedRowsAreStored | PNMLibrary/secure/encryption/sls_dlrm_preprocessor.h:111-149 | what was written is the ciphertext tables, laid out as the device reads them |
| SecureExecutor.LoadedTagsAreStored | PNMLibrary/secure/encryption/sls_dlrm_preprocessor.h:139-142 | the tags written are the tags of the rows |
| SecureExecutor.DecryptedIsObtained | PNMLibrary/secure/encryption/sls_dlrm_postprocessor.h:104-127 | decryption gives the plaintext reduction of every visited batch and the stale host share of every skipped one |
| SecureExecutor.ReducedIffStaleZero | PNMLibrary/secure/common/sls_executor.h:126-157 | a run gives the reductions of all batches if and only if the host share held zeros wherever a batch is skipped |
| SecureExecutor.NothingSkipped | PNMLibrary/include/pnmlib/common/variable_row_view.h:56-66 | no batch of a table is skipped when its last lookup list is not empty |
| SecureExecutor.RowCheckIsBatchCheck | PNMLibrary/secure/encryption/sls_dlrm_postprocessor.h:112-123 | the row check of a decrypted batch is its tag equation on the plaintext, or on the stale share if it is skipped |
| SecureExecutor.StatusIsAllPass | PNMLibrary/secure/encryption/sls_dlrm_postprocessor.h:125-126 | the status is true exactly when every batch passes |
| SecureExecutor.NoOverflowDeliversAll | PNMLibrary/secure/common/sls_executor.h:147-153 | without overflow, on a zeroed host share or with nothing skipped, every check passes and every row is delivered |
| SecureExecutor.RunSls | PNMLibrary/secure/common/sls_executor.h:126-157 | for any lookup lists and any earlier host share: without tags the decrypted rows; with tags exactly the rows that pass, the others keep the user data; the status is true exactly when all pass; the host share it leaves is served where visited and as before where skipped |
| SecureExecutor.LoadAndRun | PNMLibrary/secure/common/sls_executor.h:126-157 | from plain tables through load and a first run, for any lookup lists, to the plaintext reduction of every batch |
| SecureReuse.AnyShareIff | PNMLibrary/secure/common/sls_executor.h:126-157 | a run is right whatever the host share holds if and only if no table's last lookup list is empty |
| SecureReuse.ReusedIff | PNMLibrary/secure/common/sls_executor.h:138-139 | after any first run, for all pads and tables, a run is right if and only if no table's last lookup list is empty |
| SecureReuse.SkippedBatchShowsPads | PNMLibrary/secure/common/sls_executor.h:138-139 | where the first run looked up one row and the second skips the batch, the second result is the pads of that row |
| SecureReuse.SecondRunShowsPads | PNMLibrary/secure/common/sls_executor.h:138-139 | one table and one batch, first one lookup and then none, with pads of one: the second result is ones and not zeros |
| BitColumn.AccessInStorage | PNMLibrary/include/pnmlib/imdb/bit_containers.h:35-42 | every cell access of a slot and every 32-byte load of the scan lies in the allocated storage |
| BitColumn.StorageIsTight | PNMLibrary/include/pnmlib/imdb/bit_containers.h:35-42 | the storage is the least multiple of 512 bits that holds the bits |
| BitColumn.ColumnStorageIsTight | PNMLibrary/include/pnmlib/imdb/bit_containers.h:35-42 | a column has 512 bits more than its values take, rounded up to 512 |
| BitColumn.GetValue | PNMLibrary/include/pnmlib/imdb/bit_views.h:81-92 | the bits of the slot, across cell boundaries |
| BitColumn.SetValue | PNMLibrary/include/pnmlib/imdb/bit_views.h:99-110 | ors the low bits of the value into its slot and changes no other bit |
| BitColumn.SetThenGet | PNMLibrary/include/pnmlib/imdb/bit_views.h:81-110 | a written slot reads back the value modulo 2^bits, or-ed with what it held |
| BitColumn.SetKeepsOthers | PNMLibrary/include/pnmlib/imdb/bit_views.h:99-110 | a write leaves every other slot as it was |
| BitColumn.CompressedVector.constructor | PNMLibrary/include/pnmlib/imdb/bit_containers.h:87-88 | a new column holds zero in every slot |
| BitColumn.CompressedVector.Set | PNMLibrary/include/pnmlib/imdb/bit_views.h:99-110 | writing ors the value into its slot, so that a clear slot holds it, and keeps the others |
| BitColumn.CompressedVector.Fill | PNMLibrary/include/pnmlib/imdb/bit_containers.h:135-144 | filling each slot once, in any order, makes every slot read back its value modulo 2^bits |
| BitColumn.BitVector.Contains | PNMLibrary/include/pnmlib/imdb/bit_views.h:213-220 | membership is the bit of the value, false from the size on |
| BitColumn.BitVector.Insert | PNMLibrary/include/pnmlib/imdb/bit_views.h:226-229 | adds exactly the value and leaves no stray bit behind the size |
| LaneDecompression.ByteBounds | PNMLibrary/imdb/software_scan/avx2/load.h:57-70 | only the last lane of 17 and 18 bits crosses the 16-byte half |
| LaneDecompression.InitShuffleControl | PNMLibrary/imdb/software_scan/avx2/load.h:56-83 | the control bytes of each lane, as many as the array holds |
| LaneDecompression.InitAlignShift | PNMLibrary/imdb/software_scan/avx2/load.h:85-92 | the shift of each lane |
| LaneDecompression.BuildConstants | PNMLibrary/imdb/software_scan/avx2/load.h:33-41 | valid constants for entry sizes 1 to 18, refusal above |
| LaneDecompression.ShuffledByte | PNMLibrary/imdb/software_scan/avx2/load.h:108-136 | the shuffles bring each byte of a value to its place in its lane, across the half too |
| LaneDecompression.LanesAreSlots | PNMLibrary/imdb/software_scan/avx2/load.h:138-156 | for every entry size 1 to 18 and every block the eight lanes equal the eight packed values |
| IndexStore.MaskExtends | PNMLibrary/imdb/software_scan/avx2/store.h:50 | deposit and multiplication turn each mask bit into a byte |
| IndexStore.PermutationIs | PNMLibrary/imdb/software_scan/avx2/store.h:50-57 | extraction gives the positions of the set bits in order, then zeros |
| IndexStore.Literals | PNMLibrary/imdb/software_scan/avx2/store.h:50-53 | the two constants |
| IndexStore.StoreIndices | PNMLibrary/imdb/software_scan/avx2/store.h:42-65 | the first entries written are the matching positions in order, as many as set bits; only eight entries are touched |
| VectorScan.RangeIs | PNMLibrary/imdb/software_scan/nosimd/cpu_scan.h:20-44 | a range holds both ends, one value more when its end grows by one, and nothing when its ends are reversed |
| VectorScan.RangeSplits | PNMLibrary/imdb/software_scan/nosimd/cpu_scan.h:20-44 | a range is the union of its two parts at any split |
| VectorScan.ListIsBitVector | PNMLibrary/imdb/software_scan/nosimd/cpu_scan.h:46-68 | the list predicate is membership in the bit vector |
| VectorScan.OneBitIsPower | PNMLibrary/include/pnmlib/imdb/bit_views.h:213-229 | bit k of a word is worth 2^k |
| VectorScan.RangeAgreesIff | PNMLibrary/imdb/software_scan/avx2/predicate.h:34-43 | the signed lane compare agrees with the scalar range on all column values if and only if both bounds lie on the same side of 2^31, or the range starts above every value |
| VectorScan.LargeBoundFails | PNMLibrary/imdb/software_scan/avx2/predicate.h:34-43 | 5 lies between 0 and 2^31 and the lane compare denies it |
| VectorScan.ListAgreesIff | PNMLibrary/imdb/software_scan/avx2/predicate.h:55-81 | the gathered bit test agrees with the scalar list on all column values if and only if no stray bit follows the list |
| VectorScan.StrayBitMatches | PNMLibrary/imdb/software_scan/avx2/predicate.h:55-81 | a list of size 1 with a bit set behind it: the lane test finds 1 |
| VectorScan.LanesAgreeIff | PNMLibrary/imdb/software_scan/avx2/predicate.h:34-81 | the same for both predicates |
| VectorScan.ScalarToIndices | PNMLibrary/imdb/software_scan/nosimd/cpu_scan.h:33-44 | the ascending list of matching positions |
| VectorScan.ScalarToBits | PNMLibrary/imdb/software_scan/nosimd/cpu_scan.h:20-31 | the characteristic vector of the matching positions |
| VectorScan.MatchesAreExact | PNMLibrary/imdb/software_scan/nosimd/cpu_scan.h:33-44 | the list is strictly ascending and holds exactly the matching positions |
| VectorScan.BlockMask | PNMLibrary/imdb/software_scan/avx2/scan.cpp:59-63 | each mask bit is the scalar answer for its slot |
| VectorScan.BlockMatches | PNMLibrary/imdb/software_scan/avx2/store.h:42-65 | the set lanes of a block are its matches |
| VectorScan.PaddedSizeSuffices | PNMLibrary/imdb/software_scan/avx2/store.h:42-65 | a result of the padded column size takes every store |
| VectorScan.StoresInsideIff | PNMLibrary/imdb/utils/runner/avx2_scan.h:59-65 | in a result of the column size all stores stay inside if and only if the size is a multiple of 8 or the matches of the whole blocks leave room for one more store |
| VectorScan.AlwaysInsideIff | PNMLibrary/imdb/utils/runner/avx2_scan.h:59-65 | in a result of the column size all stores stay inside for every predicate if and only if the size is a multiple of 8 |
| VectorScan.OneValueLeavesResult | PNMLibrary/imdb/utils/runner/avx2_scan.h:59-65 | a column of one value always stores beyond its result |
| VectorScan.ScanToIndices | PNMLibrary/imdb/software_scan/avx2/scan.cpp:49-72 | in any result that takes the stores, its prefix becomes exactly the matching positions of all scanned slots, and overlapping stores lose nothing |
| VectorScan.ScanToBits | PNMLibrary/imdb/software_scan/avx2/scan.cpp:49-72 | the result bits are the characteristic vector of all scanned slots; other bytes are untouched |
| VectorScan.EqualsScalarIff | PNMLibrary/imdb/software_scan/avx2/scan.cpp:58 | the indices are the scalar ones if and only if no slot of the last block beyond the column matches |
| VectorScan.EqualsScalarOnFreshPaddingIff | PNMLibrary/imdb/software_scan/avx2/scan.cpp:58 | on fresh padding: if and only if the size is a multiple of 8 or zero does not match |
| VectorScan.PaddingMatches | PNMLibrary/imdb/software_scan/avx2/scan.cpp:58 | a new column of one value, searched for zero: the scan also reports slots behind it |
| RankAddress.InterleaveThenBack | PNMLibrary/core/device/sls/utils/rank_address.h:43-59 | rank address and Home Agent come back from the system address |
| RankAddress.BackThenInterleave | PNMLibrary/core/device/sls/utils/rank_address.h:43-59 | every system address is the image of its rank address and Home Agent |
| RankAddress.BlockBoundaries | PNMLibrary/core/device/sls/utils/rank_address.h:43-59 | block boundaries of both Home Agents before and after bit 19 of the rank address |
| RankAddress.Increasing | PNMLibrary/core/device/sls/utils/rank_address.h:43-59 | for a fixed Home Agent the map is strictly increasing |
| RankAddress.WindowHoldsRegion | PNMLibrary/core/memory/sls/accessor.cpp:97-112 | the view of a region holds every byte of it |
| RankAddress.ViewInMappingIff | PNMLibrary/core/memory/sls/accessor.cpp:33-40 | the mapping holds the view if and only if the offset in the page is at most what rounding the size added |
| RankAddress.ViewLeavesMapping | PNMLibrary/core/memory/sls/accessor.cpp:106-112 | one page is mapped to its end from the start of a page and not from offset 512 |
| RankAddress.MadePointerIsOnHomeAgent | PNMLibrary/core/device/sls/utils/rank_address.h:23-27 | the pointer of an even unit stays on Home Agent 0 and that of an odd one on 1, wherever it moves |
| RankAddress.AcrossTheCorrection | PNMLibrary/core/device/sls/utils/rank_address.cpp:84-93 | where the pointers of units 0 and 1 stand 512 KiB on |
| RankAddress.MadePointerMovesInWindow | PNMLibrary/core/device/sls/utils/rank_address.cpp:84-93 | the pointer starts at the given address and moves inside the window |
| RankAddress.MemcpyTo | PNMLibrary/core/device/sls/utils/rank_address.cpp:45-63 | byte j lands at the interleaved address of start + j, nothing else changes, the full count is copied |
| RankAddress.MemcpyFrom | PNMLibrary/core/device/sls/utils/rank_address.cpp:65-82 | reads the bytes at the interleaved addresses, the full count |
| RankAddress.WriteThenRead | PNMLibrary/core/device/sls/utils/rank_address.cpp:45-82 | write then read returns what was written |
| RankAddress.OthersUntouched | PNMLibrary/core/device/sls/utils/rank_address.cpp:45-63 | bytes of the other Home Agent and outside the range are untouched |
| RankAddress.UnitsAreSeparate | PNMLibrary/core/device/sls/utils/rank_address.cpp:45-93 | a copy to one unit changes no byte that a unit of the other parity reads |

## Left out

- AES rounds, key expansion and key generation: the pad is an arbitrary function.
- ioctl, sysfs, mmap, file descriptors, logging, timers, memory fences and cache flushes: steps are sequentially consistent.
- Data generators, benchmarks and file loaders.
- Floating-point rounding: the float sum is any commutative function, and sums are compared in the same order.
- Tags computed by the CXL and AXDIMM devices: tags are proved against the CPU reference, and psum only on the devices.
- `choose_optimal_buf_divider` and the environment variable that overrides it: any divider of at least 1 is admitted.
- The action queue, shared regions, properties, dispatcher and error types: easy or glue.
- `check_indices`, a debug check: indices in range are a precondition.
- The trigger and poll handshake on CXL: `compute_unit.run()` is one step there; the handshake is proved for AXDIMM.
- Concurrent packs step by step: packs interleave at the granularity of executions, in any order and on any unit of their pack.
- Concurrent host pad reductions: tables are reduced one after the other on disjoint rows.
- `erase`, `clear` and the iterators of bit vectors, and the bulk forms of the packed column constructors other than filling.
- 64-bit wrap-around of rank addresses from 2^63 on, and of table offsets.
- 32-bit columns: the value mask shift is undefined in the source for 32 bits, so entry sizes are 1 to 31, and 1 to 18 for the scan.
- CxlRunners.RunExecution: covers the psum output; tags are not computed on the devices.
- CxlRunners.RunPacks: packs run one execution at a time, in any order.
- CxlRunners.RunSls: requires that every length is at least 1 and fits the instruction buffer, rows of 16, 32 or 64 elements, at most 4096 psum rows per buffer, a row index times the row size below 2^32, and table addresses that are multiples of 8 below 2^34.
- CxlRunners.RunOperation: the same, so the psum buffer holds at most 4096 rows.
- AxdimmPipeline.RunKeepsControl: every result buffer holds the row that the dummy writes, at least 2047 * 16 elements; this is a part of `Config.Valid`, which all results on the pipeline share.
- AxdimmRunners.RunSls: the unit is a parameter that answers as some finished interleaving does, in its first run or with a psum limit below the row of the dummy; otherwise as `CxlRunners.RunSls`.
- AxdimmRunners.CollectResults: requires the exactness condition of ExactIff for every execution.
- CxlDevices.CxlUnit.ExecTrace: requires a header mode of at most 2, the modes with a defined row size.
- SecurePreprocessor.Load: requires a row of at most 8192 bytes, since the source does not end otherwise; rows and tags are two sequences instead of one byte stream.
- SecureExecutor.ComputeTags: sums the tags in a pass of its own, where the source interleaves it with the row sums.
- VectorScan.ScanToIndices: requires a column below 2^32 - 7 values, because positions are 32 bits wide, and a result that takes its stores, the condition of StoresInsideIff.
