/**
 * Secure SLS from encrypted tables to the user's sums: the device reduces ciphertext, the host
 * reduces pads, and the two are added and checked
 * (secure/encryption/sls_dlrm_postprocessor, secure/common/sls_executor, common/cpu_sls).
 */
module SecureSls {
  import opened SeqMath
  import opened ExecutionGenerators
  import opened PacksData
  import opened CpuSls
  import opened SecureEncryption
  import opened SecureTags
  import opened SecurePreprocessor

  // ----- Pads of one lookup list.

  /** `fill_offsets`. */
  method FillOffsets(tableOffset: nat, index: seq<nat>, cols: nat) returns (offsets: seq<nat>)
    ensures |offsets| == |index|
    ensures forall j :: 0 <= j < |index| ==> offsets[j] == tableOffset + index[j] * cols * 4
  {
    offsets := [];
    for j := 0 to |index|
      invariant |offsets| == j && forall i :: 0 <= i < j ==> offsets[i] == tableOffset + index[i] * cols * 4
    {
      offsets := offsets + [tableOffset + index[j] * cols * 4];
    }
  }

  /** The pad blocks of one address, side by side. */
  method OtpRow(e: Engine, address: nat, width: nat) returns (row: seq<nat>)
    requires width % OTP_ELEMENTS == 0
    ensures |row| == width && forall c :: 0 <= c < width ==> row[c] == e.PadAt(address, c)
  {
    hide Engine.Lane;
    row := [];
    var otpAddress := address;
    while |row| != width
      invariant |row| <= width && |row| % OTP_ELEMENTS == 0 && otpAddress == address + |row| / OTP_ELEMENTS * OTP_BYTES
      invariant forall c :: 0 <= c < |row| ==> row[c] == e.PadAt(address, c)
      decreases width - |row|
    {
      row := row + [e.Lane(otpAddress, 0), e.Lane(otpAddress, 1), e.Lane(otpAddress, 2), e.Lane(otpAddress, 3)];
      otpAddress := otpAddress + OTP_BYTES;
    }
  }

  ghost function PadRows(e: Engine, addresses: seq<nat>): Table {
    (k: nat, c: nat) => if k < |addresses| then e.PadAt(addresses[k], c) else 0
  }

  /** `generate_otp_vec`: the pad rows of all addresses, one after the other. */
  method GenerateOtpVec(e: Engine, addresses: seq<nat>, width: nat) returns (buffer: seq<nat>)
    requires width % OTP_ELEMENTS == 0
    ensures Stored(buffer, 0, width, |addresses|, PadRows(e, addresses))
  {
    hide Engine.PadAt;
    buffer := [];
    for k := 0 to |addresses|
      invariant |buffer| == Flat(k, width, 0) && Stored(buffer, 0, width, k, PadRows(e, addresses))
    {
      var row := OtpRow(e, addresses[k], width);
      StoredNext(buffer, row, width, k, PadRows(e, addresses));
      buffer := buffer + row;
      FlatNext(k, width, |addresses|);
    }
  }

  lemma StoredNext(buffer: seq<nat>, row: seq<nat>, width: nat, k: nat, table: Table)
    requires |buffer| == Flat(k, width, 0) && Stored(buffer, 0, width, k, table)
    requires |row| == width && forall c :: 0 <= c < width ==> row[c] == table(k, c)
    ensures Stored(buffer + row, 0, width, k + 1, table)
  {
    forall i, c | 0 <= i < k + 1 && 0 <= c < width
      ensures 0 + Flat(i, width, c) < |buffer + row| && (buffer + row)[0 + Flat(i, width, c)] == table(i, c)
    {
      if i < k {
        assert buffer[0 + Flat(i, width, c)] == table(i, c);
      } else {
        assert Flat(i, width, c) == |buffer| + c;
      }
    }
  }

  /** Byte offsets of the rows that `index` names. */
  ghost function Offsets(rows: seq<nat>, width: nat, t: nat, index: seq<nat>): seq<nat>
    requires t <= |rows|
  {
    seq(|index|, j requires 0 <= j < |index| => RowOffset(rows, width, t, index[j]))
  }

  lemma OffsetsOf(rows: seq<nat>, width: nat, t: nat, index: seq<nat>, tableOffset: nat,
                  offsets: seq<nat>)
    requires t <= |rows| && tableOffset == RowOffset(rows, width, t, 0) && |offsets| == |index|
    requires forall j :: 0 <= j < |index| ==> offsets[j] == tableOffset + index[j] * width * 4
    ensures offsets == Offsets(rows, width, t, index)
  {
    forall j | 0 <= j < |index|
      ensures offsets[j] == RowOffset(rows, width, t, index[j])
    {
      RowOffsetSplit(Sum(rows[..t]), index[j], width);
    }
  }

  lemma RowOffsetSplit(first: nat, r: nat, width: nat)
    ensures (first + r) * (4 * width) == (first + 0) * (4 * width) + r * width * 4
  {
  }

  /** Summing the generated pad rows is the pad table's reduction over the index list. */
  lemma PadRowsReduce(arith: Arith, e: Engine, rows: seq<nat>, width: nat, t: nat, index: seq<nat>)
    requires t <= |rows|
    ensures SumOfRows(arith, WRAPPING, PadRows(e, Offsets(rows, width, t, index)), UpTo(|index|), width)
         == SumOfRows(arith, WRAPPING, PadTable(e, rows, width, t), index, width)
  {
    hide Arith.Fold, Engine.PadAt, RowOffset;
    var offsets := Offsets(rows, width, t, index);
    forall c | 0 <= c < width
      ensures ColumnOf(PadRows(e, offsets), UpTo(|index|), c) == ColumnOf(PadTable(e, rows, width, t), index, c)
    {
    }
  }

  // ----- Tags of all batches.

  /** A tag for row `r` of table `t`. */
  type TagTable = (nat, nat) -> nat

  ghost function TagColumn(tagOf: TagTable, t: nat, index: seq<nat>): seq<nat> {
    seq(|index|, j requires 0 <= j < |index| => tagOf(t, index[j]))
  }

  ghost predicate TagReduced(tagOf: TagTable, req: Request, tags: seq<nat>, b: Batch)
    requires InRequest(req, b)
  {
    req.Row(b) < |tags| && tags[req.Row(b)] == Sum(TagColumn(tagOf, b.table, IndexList(req, b))) % TAG
  }

  /** Every batch's tag is the sum of the tags of the rows it asks for. */
  ghost predicate AllTagsReduced(tagOf: TagTable, req: Request, tags: seq<nat>)
    requires req.Valid()
  {
    forall b: Batch :: InRequest(req, b) ==> TagReduced(tagOf, req, tags, b)
  }

  /** The tag pads of the tables. */
  ghost function PadTags(v: Engine, rows: seq<nat>, width: nat): TagTable {
    (t: nat, r: nat) => if t < |rows| then v.Block(0x10, RowOffset(rows, width, t, r)) else 0
  }

  /** The tags stored with the tables. */
  ghost function RowMacs(keys: Keys, rows: seq<nat>, width: nat, plain: seq<Table>): TagTable
    requires |rows| == |plain|
  {
    (t: nat, r: nat) => if t < |rows| then Mac(keys.tag, keys.base, TableRow(plain[t], r, width),
                                               RowOffset(rows, width, t, r)) else 0
  }

  // ----- The reduction of the pads.

  /** The rows the iterator over a table's lookup lists visits: it stops where no index is left. */
  function Visited(lengths: seq<nat>): nat {
    if Sum(lengths) == 0 then 0 else 1 + Visited(lengths[1..])
  }

  lemma SumFromFront(s: seq<nat>)
    requires s != []
    ensures Sum(s) == s[0] + Sum(s[1..])
  {
    SumConcat([s[0]], s[1..]);
    assert [s[0]] + s[1..] == s;
  }

  /** Every row is visited exactly when the last lookup list of the table is not empty. */
  lemma {:induction false} VisitsAllIff(lengths: seq<nat>)
    requires lengths != []
    ensures Visited(lengths) <= |lengths| && (Visited(lengths) == |lengths| <==> lengths[|lengths| - 1] > 0)
  {
    SumFromFront(lengths);
    SumStep(lengths, |lengths| - 1);
    assert lengths[..|lengths|] == lengths;
    if |lengths| > 1 {
      VisitsAllIff(lengths[1..]);
    }
  }

  /** The empty list behind one lookup is not visited. */
  lemma EmptyLastList()
    ensures Visited([1, 0]) == 1
  {
    assert [1, 0][..1] == [1] && [1][..0] == [];
    assert [1, 0][1..] == [0] && [0][..0] == [];
  }

  /** From batch `b` on no index of the table is left, so the iterator has stopped. */
  ghost predicate Skipped(req: Request, b: Batch)
    requires InRequest(req, b)
  {
    TableRows(req, b.table, b.index);
    req.FirstIndex(req.Row(b)) == req.FirstIndex(Flat(b.table, req.miniBatch, req.miniBatch))
  }

  /** The rows of a table. */
  lemma TableRows(req: Request, t: nat, i: nat)
    requires req.Valid() && t < req.numTables && i <= req.miniBatch
    ensures Flat(t, req.miniBatch, 0) <= Flat(t, req.miniBatch, i) <= Flat(t, req.miniBatch, req.miniBatch) <=
            |req.lengths|
    ensures req.FirstIndex(Flat(t, req.miniBatch, i)) <= req.FirstIndex(Flat(t, req.miniBatch, req.miniBatch))
  {
    FlatNext(t, req.miniBatch, req.numTables);
    FlatIsProduct(req.numTables, req.miniBatch);
    var m, n := Flat(t, req.miniBatch, i), Flat(t, req.miniBatch, req.miniBatch);
    SumSlice(req.lengths, m, n);
  }

  /** The lookup lists of table `t`. */
  ghost function TableLengths(req: Request, t: nat): seq<nat>
    requires req.Valid() && t < req.numTables
  {
    TableRows(req, t, 0);
    req.lengths[Flat(t, req.miniBatch, 0)..Flat(t, req.miniBatch, req.miniBatch)]
  }

  lemma {:induction false} VisitedIs(lengths: seq<nat>, i: nat)
    requires i < |lengths|
    ensures i < Visited(lengths) <==> Sum(lengths[i..]) > 0
  {
    if i == 0 {
      assert lengths[0..] == lengths;
    } else {
      VisitedIs(lengths[1..], i - 1);
      assert lengths[1..][i - 1..] == lengths[i..];
      SumFromFront(lengths);
      SumConcat(lengths[1..][..i - 1], lengths[1..][i - 1..]);
      assert lengths[1..] == lengths[1..][..i - 1] + lengths[1..][i - 1..];
    }
  }

  /** The skipped batches are exactly those that the iterator does not visit. */
  lemma SkippedIffNotVisited(req: Request, b: Batch)
    requires InRequest(req, b)
    ensures Skipped(req, b) <==> Visited(TableLengths(req, b.table)) <= b.index
  {
    hide Visited, Sum;
    TableRows(req, b.table, b.index);
    TableRows(req, b.table, 0);
    var r, n := req.Row(b), Flat(b.table, req.miniBatch, req.miniBatch);
    var lists := TableLengths(req, b.table);
    TableShape(req, b);
    VisitedIs(lists, b.index);
    SumSlice(req.lengths, r, n);
  }

  lemma TableShape(req: Request, b: Batch)
    requires InRequest(req, b)
    ensures b.index < |TableLengths(req, b.table)| == req.miniBatch
    ensures var n := Flat(b.table, req.miniBatch, req.miniBatch);
      req.Row(b) <= n <= |req.lengths| && TableLengths(req, b.table)[b.index..] == req.lengths[req.Row(b)..n]
  {
    TableRows(req, b.table, b.index);
    TableRows(req, b.table, 0);
  }

  /** A skipped batch asks for nothing. */
  lemma SkippedIsEmpty(req: Request, b: Batch)
    requires InRequest(req, b) && Skipped(req, b)
    ensures IndexList(req, b) == []
  {
    RowOf(req, b);
    TableRows(req, b.table, b.index + 1);
    TableRows(req, b.table, b.index);
    SumStep(req.lengths, req.Row(b));
    FlatStep(b.table, req.miniBatch, b.index);
  }

  // ----- Rows and tags of the host share: summed where visited, left as they were where skipped.

  ghost predicate RowUnchanged(psum: seq<nat>, before: seq<nat>, r: nat, width: nat) {
    r * width + width <= |psum| == |before| && psum[r * width..r * width + width] ==
      before[r * width..r * width + width]
  }

  ghost predicate RowServed(arith: Arith, tables: seq<Table>, req: Request, psum: seq<nat>, before: seq<nat>, b: Batch)
    requires InRequest(req, b) && |tables| == req.numTables
  {
    if Skipped(req, b) then RowUnchanged(psum, before, req.Row(b), req.featureSize)
    else IsReduced(arith, WRAPPING, tables, req, psum, b)
  }

  ghost predicate TagServed(tagOf: TagTable, req: Request, tags: seq<nat>, before: seq<nat>, b: Batch)
    requires InRequest(req, b)
  {
    if Skipped(req, b) then req.Row(b) < |tags| == |before| && tags[req.Row(b)] == before[req.Row(b)]
    else TagReduced(tagOf, req, tags, b)
  }

  /** Rows below `done` are served, the rest is as before. */
  ghost predicate ServedBelow(arith: Arith, tables: seq<Table>, req: Request, psum: seq<nat>, before: seq<nat>,
                              done: nat)
    requires req.Valid() && |tables| == req.numTables
  {
    && |psum| == |before|
    && (forall b: Batch :: InRequest(req, b) && req.Row(b) < done ==> RowServed(arith, tables, req, psum, before, b))
    && (forall x :: done * req.featureSize <= x < |psum| ==> psum[x] == before[x])
  }

  ghost predicate TagsServedBelow(tagOf: TagTable, req: Request, tags: seq<nat>, before: seq<nat>, done: nat)
    requires req.Valid()
  {
    && |tags| == |before|
    && (forall b: Batch :: InRequest(req, b) && req.Row(b) < done ==> TagServed(tagOf, req, tags, before, b))
    && (forall r :: done <= r < |tags| ==> tags[r] == before[r])
  }

  lemma ServedNext(arith: Arith, tables: seq<Table>, req: Request, before: seq<nat>, now: seq<nat>, psum: seq<nat>,
                   b: Batch)
    requires InRequest(req, b) && |tables| == req.numTables && !Skipped(req, b)
    requires ServedBelow(arith, tables, req, now, before, req.Row(b))
    requires RowReplaced(psum, now, req.Row(b) * req.featureSize, Reduction(arith, WRAPPING, tables, req, b))
    ensures ServedBelow(arith, tables, req, psum, before, req.Row(b) + 1)
  {
    hide Skipped, Flat, IndexList, SumOfRows, RowReplaced, RowUnchanged, Sum;
    var row, w := Reduction(arith, WRAPPING, tables, req, b), req.featureSize;
    SumOfRowsWidth(arith, WRAPPING, tables[b.table], IndexList(req, b), w);
    RowReplacedRows(psum, now, req.Row(b), row);
    RestKept(psum, now, req.Row(b), row);
    forall c: Batch | InRequest(req, c) && req.Row(c) < req.Row(b) + 1
      ensures RowServed(arith, tables, req, psum, before, c)
    {
      if req.Row(c) == req.Row(b) {
        FlatInjective(req.miniBatch, c.table, c.index, b.table, b.index);
      } else if Skipped(req, c) {
        SkippedRowKept(psum, now, before, req.Row(b), row, req.Row(c), w);
      } else {
        SumOfRowsWidth(arith, WRAPPING, tables[c.table], IndexList(req, c), w);
        OtherRowsKept(psum, now, req.Row(b), row, req.Row(c), Reduction(arith, WRAPPING, tables, req, c));
      }
    }
  }

  lemma RestKept(psum: seq<nat>, now: seq<nat>, r: nat, row: seq<nat>)
    requires RowReplaced(psum, now, r * |row|, row)
    ensures |psum| == |now| && r * |row| <= (r + 1) * |row|
    ensures forall x :: (r + 1) * |row| <= x < |psum| ==> psum[x] == now[x]
  {
    assert (r + 1) * |row| == r * |row| + |row|;
  }

  lemma SkippedRowKept(psum: seq<nat>, now: seq<nat>, before: seq<nat>, r: nat, row: seq<nat>, q: nat, width: nat)
    requires RowReplaced(psum, now, r * |row|, row) && |row| == width && q < r && RowUnchanged(now, before, q, width)
    ensures RowUnchanged(psum, before, q, width)
  {
    MulCompare(q, r, width);
    assert psum[q * width..q * width + width] == now[q * width..q * width + width];
  }

  lemma TagServedNext(tagOf: TagTable, req: Request, before: seq<nat>, now: seq<nat>, tags: seq<nat>, b: Batch)
    requires InRequest(req, b) && !Skipped(req, b) && TagsServedBelow(tagOf, req, now, before, req.Row(b))
    requires req.Row(b) < |now|
    requires tags == now[req.Row(b) := Sum(TagColumn(tagOf, b.table, IndexList(req, b))) % TAG]
    ensures TagsServedBelow(tagOf, req, tags, before, req.Row(b) + 1)
  {
    hide Sum, IndexList, Flat, Skipped;
    forall c: Batch | InRequest(req, c) && req.Row(c) < req.Row(b) + 1
      ensures TagServed(tagOf, req, tags, before, c)
    {
      if req.Row(c) == req.Row(b) {
        FlatInjective(req.miniBatch, c.table, c.index, b.table, b.index);
      } else {
        assert TagServed(tagOf, req, now, before, c);
      }
    }
  }

  /** Batches `i` and on of table `t` are skipped when no index is left. */
  lemma RestIsSkipped(req: Request, t: nat, i: nat, b: Batch)
    requires req.Valid() && t < req.numTables && i <= req.miniBatch && InRequest(req, b)
    requires Flat(t, req.miniBatch, i) <= req.Row(b) < Flat(t, req.miniBatch, req.miniBatch) <= |req.lengths|
    requires req.FirstIndex(Flat(t, req.miniBatch, i)) == req.FirstIndex(Flat(t, req.miniBatch, req.miniBatch))
    ensures Skipped(req, b)
  {
    assert b.table == t by { SameTable(b.table, b.index, t, i, req.miniBatch); }
    TableRows(req, t, b.index);
    SumSlice(req.lengths, Flat(t, req.miniBatch, i), req.Row(b));
  }

  lemma SameTable(t': nat, i': nat, t: nat, i: nat, size: nat)
    requires i' < size && Flat(t, size, i) <= Flat(t', size, i') < Flat(t, size, size)
    ensures t' == t
  {
    MulCompare(t, t', size);
  }

  lemma SkipRest(arith: Arith, tables: seq<Table>, req: Request, psum: seq<nat>, before: seq<nat>, t: nat, i: nat)
    requires req.Valid() && |tables| == req.numTables && t < req.numTables && i <= req.miniBatch
    requires Flat(t, req.miniBatch, req.miniBatch) <= |req.lengths| && |psum| == |req.lengths| * req.featureSize
    requires Flat(t, req.miniBatch, i) <= |req.lengths|
    requires req.FirstIndex(Flat(t, req.miniBatch, i)) == req.FirstIndex(Flat(t, req.miniBatch, req.miniBatch))
    requires ServedBelow(arith, tables, req, psum, before, Flat(t, req.miniBatch, i))
    ensures ServedBelow(arith, tables, req, psum, before, Flat(t, req.miniBatch, req.miniBatch))
  {
    hide Skipped, IsReduced, Sum, Flat;
    var m, n := Flat(t, req.miniBatch, i), Flat(t, req.miniBatch, req.miniBatch);
    TableRows(req, t, i);
    MulMonotone(m, n, req.featureSize);
    forall b: Batch | InRequest(req, b) && req.Row(b) < n
      ensures RowServed(arith, tables, req, psum, before, b)
    {
      if m <= req.Row(b) {
        RestIsSkipped(req, t, i, b);
        RowUntouched(psum, before, m, req.Row(b), |req.lengths|, req.featureSize);
      }
    }
  }

  lemma RowUntouched(psum: seq<nat>, before: seq<nat>, done: nat, r: nat, rows: nat, width: nat)
    requires done <= r < rows && |psum| == |before| == rows * width
    requires forall x :: done * width <= x < |psum| ==> psum[x] == before[x]
    ensures RowUnchanged(psum, before, r, width)
  {
    MulMonotone(done, r, width);
    MulCompare(r, rows, width);
    assert psum[r * width..r * width + width] == before[r * width..r * width + width];
  }

  lemma SkipRestTags(tagOf: TagTable, req: Request, tags: seq<nat>, before: seq<nat>, t: nat, i: nat)
    requires req.Valid() && t < req.numTables && i <= req.miniBatch
    requires Flat(t, req.miniBatch, req.miniBatch) <= |req.lengths| == |tags|
    requires Flat(t, req.miniBatch, i) <= |req.lengths|
    requires req.FirstIndex(Flat(t, req.miniBatch, i)) == req.FirstIndex(Flat(t, req.miniBatch, req.miniBatch))
    requires TagsServedBelow(tagOf, req, tags, before, Flat(t, req.miniBatch, i))
    ensures TagsServedBelow(tagOf, req, tags, before, Flat(t, req.miniBatch, req.miniBatch))
  {
    hide Skipped, TagReduced, Sum, Flat;
    var m, n := Flat(t, req.miniBatch, i), Flat(t, req.miniBatch, req.miniBatch);
    TableRows(req, t, i);
    forall b: Batch | InRequest(req, b) && req.Row(b) < n
      ensures TagServed(tagOf, req, tags, before, b)
    {
      if m <= req.Row(b) {
        RestIsSkipped(req, t, i, b);
      }
    }
  }

  /** One lookup list: clear the row, add the pad rows, and sum the tag pads. */
  method PerformBatch(arith: Arith, keys: Keys, ghost rows: seq<nat>, ghost req: Request, ghost b: Batch, r: nat,
                      tableOffset: nat, index: seq<nat>, width: nat, withTag: bool, epsum: array<nat>,
                      etags: array<nat>, ghost before: seq<nat>, ghost beforeTags: seq<nat>)
    requires InRequest(req, b) && |rows| == req.numTables && index == IndexList(req, b) && !Skipped(req, b)
    requires width == req.featureSize && width % OTP_ELEMENTS == 0 && tableOffset == RowOffset(rows, width, b.table, 0)
    requires r == req.Row(b) && r * width + width <= epsum.Length && (withTag ==> r < etags.Length) && epsum != etags
    requires ServedBelow(arith, PadTables(keys.data, rows, width), req, epsum[..], before, r)
    requires withTag ==> TagsServedBelow(PadTags(keys.tag, rows, width), req, etags[..], beforeTags, r)
    modifies epsum, etags
    ensures ServedBelow(arith, PadTables(keys.data, rows, width), req, epsum[..], before, r + 1)
    ensures withTag ==> TagsServedBelow(PadTags(keys.tag, rows, width), req, etags[..], beforeTags, r + 1)
  {
    hide SumOfRows, Stored, Sum, ServedBelow, TagsServedBelow, Flat, Engine.Block, IndexList, RowOffset, Skipped;
    var offsets := FillOffsets(tableOffset, index, width);
    OffsetsOf(rows, width, b.table, index, tableOffset, offsets);
    var buffer := GenerateOtpVec(keys.data, offsets, width);
    AddPads(arith, keys.data, offsets, buffer, width, epsum, r * width);
    PadRowsReduce(arith, keys.data, rows, width, b.table, index);
    ServedNext(arith, PadTables(keys.data, rows, width), req, before, old(epsum[..]), epsum[..], b);
    if withTag {
      var pads := seq(|offsets|, j requires 0 <= j < |offsets| => keys.tag.Block(0x10, offsets[j]));
      var sum := SumTags(pads);
      assert pads == TagColumn(PadTags(keys.tag, rows, width), b.table, index);
      TagServedNext(PadTags(keys.tag, rows, width), req, beforeTags, old(etags[..]), old(etags[..])[r := sum], b);
      etags[r] := sum;
      assert etags[..] == old(etags[..])[r := sum];
    }
  }

  /** The accumulation over the pad rows: `Common` over every row of the buffer. */
  method AddPads(arith: Arith, e: Engine, offsets: seq<nat>, buffer: seq<nat>, width: nat, epsum: array<nat>, at: nat)
    requires Stored(buffer, 0, width, |offsets|, PadRows(e, offsets)) && at + width <= epsum.Length
    modifies epsum
    ensures RowReplaced(epsum[..], old(epsum[..]), at,
                        SumOfRows(arith, WRAPPING, PadRows(e, offsets), UpTo(|offsets|), width))
  {
    hide Stored, SumOfRows;
    var index := UpTo(|offsets|);
    Common(arith, WRAPPING, PadRows(e, offsets), |offsets|, buffer, 0, width, index, epsum, at);
  }

  /** Every batch of the host share is served, for any lookup lists. */
  ghost predicate AllServed(arith: Arith, tables: seq<Table>, req: Request, psum: seq<nat>, before: seq<nat>)
    requires req.Valid() && |tables| == req.numTables
  {
    forall b: Batch :: InRequest(req, b) ==> RowServed(arith, tables, req, psum, before, b)
  }

  ghost predicate AllTagsServed(tagOf: TagTable, req: Request, tags: seq<nat>, before: seq<nat>)
    requires req.Valid()
  {
    forall b: Batch :: InRequest(req, b) ==> TagServed(tagOf, req, tags, before, b)
  }

  /**
   * `perform_sls` for every table: walk the table's lookup lists until no index is left. Visited rows become the
   * reductions of the pads; skipped rows and their tags keep what the buffers held.
   */
  method PerformSls(arith: Arith, keys: Keys, ghost rows: seq<nat>, ghost req: Request, offsets: seq<nat>,
                    lengths: seq<nat>, indices: seq<nat>, miniBatch: nat, width: nat, withTag: bool,
                    epsum: array<nat>, etags: array<nat>)
    requires req == Request(lengths, indices, miniBatch, |offsets|, width) && req.Valid()
    requires |rows| == |offsets| && width % OTP_ELEMENTS == 0
    requires forall t :: 0 <= t < |rows| ==> offsets[t] == RowOffset(rows, width, t, 0)
    requires epsum.Length == |lengths| * width && (withTag ==> etags.Length == |lengths|) && epsum != etags
    modifies epsum, etags
    ensures AllServed(arith, PadTables(keys.data, rows, width), req, epsum[..], old(epsum[..]))
    ensures withTag ==> AllTagsServed(PadTags(keys.tag, rows, width), req, etags[..], old(etags[..]))
  {
    hide Sum, Flat, RowOffset, RowServed, TagServed, Request.FirstIndex;
    var base, r := 0, 0;
    ghost var before, beforeTags := epsum[..], etags[..];
    FlatZero(miniBatch);
    FlatIsProduct(|offsets|, miniBatch);
    FirstIndexZero(req);
    for t := 0 to |offsets|
      invariant r == Flat(t, miniBatch, 0) <= |lengths| && base == req.FirstIndex(r)
      invariant ServedBelow(arith, PadTables(keys.data, rows, width), req, epsum[..], before, r)
      invariant withTag ==> TagsServedBelow(PadTags(keys.tag, rows, width), req, etags[..], beforeTags, r)
    {
      base, r := PerformTable(arith, keys, rows, req, t, offsets[t], lengths, indices, miniBatch, width, withTag, base,
                              r,
                              epsum, etags, before, beforeTags);
      FlatNext(t, miniBatch, |offsets|);
    }
    forall b: Batch | InRequest(req, b)
      ensures req.Row(b) < |lengths|
    {
      RowOf(req, b);
    }
  }

  lemma FirstIndexZero(req: Request)
    ensures req.FirstIndex(0) == 0
  {
  }

  method PerformTable(arith: Arith, keys: Keys, ghost rows: seq<nat>, ghost req: Request, t: nat, tableOffset: nat,
                      lengths: seq<nat>, indices: seq<nat>, miniBatch: nat, width: nat, withTag: bool, base: nat,
                      r: nat, epsum: array<nat>, etags: array<nat>, ghost before: seq<nat>, ghost beforeTags: seq<nat>)
    returns (base': nat, r': nat)
    requires req == Request(lengths, indices, miniBatch, |rows|, width) && req.Valid() && t < |rows|
    requires width % OTP_ELEMENTS == 0 && tableOffset == RowOffset(rows, width, t, 0)
    requires epsum.Length == |lengths| * width && (withTag ==> etags.Length == |lengths|) && epsum != etags
    requires r == Flat(t, miniBatch, 0) <= |lengths| && base == req.FirstIndex(r)
    requires ServedBelow(arith, PadTables(keys.data, rows, width), req, epsum[..], before, r)
    requires withTag ==> TagsServedBelow(PadTags(keys.tag, rows, width), req, etags[..], beforeTags, r)
    modifies epsum, etags
    ensures r' == Flat(t, miniBatch, miniBatch) <= |lengths| && base' == req.FirstIndex(r')
    ensures ServedBelow(arith, PadTables(keys.data, rows, width), req, epsum[..], before, r')
    ensures withTag ==> TagsServedBelow(PadTags(keys.tag, rows, width), req, etags[..], beforeTags, r')
  {
    hide Sum, Flat, RowOffset, ServedBelow, TagsServedBelow;
    TableRows(req, t, 0);
    FlatNext(t, miniBatch, |rows|);
    var lookups := Accumulate(lengths, r, r + miniBatch);
    SumSlice(lengths, r, r + miniBatch);
    var end := base + lookups;
    base', r' := base, r;
    ghost var i := 0;
    while base' != end
      invariant i <= miniBatch && r' == Flat(t, miniBatch, i) <= |lengths| && base' == req.FirstIndex(r')
      invariant ServedBelow(arith, PadTables(keys.data, rows, width), req, epsum[..], before, r')
      invariant withTag ==> TagsServedBelow(PadTags(keys.tag, rows, width), req, etags[..], beforeTags, r')
      decreases miniBatch - i
    {
      ghost var b := Batch(t, i);
      RowOf(req, b);
      MulCompare(r', |lengths|, width);
      PerformBatch(arith, keys, rows, req, b, r', tableOffset, indices[base'..base' + lengths[r']], width, withTag,
                   epsum, etags,
                   before, beforeTags);
      SumStep(lengths, r');
      base' := base' + lengths[r'];
      FlatStep(t, miniBatch, i);
      r', i := r' + 1, i + 1;
    }
    SkipRest(arith, PadTables(keys.data, rows, width), req, epsum[..], before, t, i);
    if withTag {
      SkipRestTags(PadTags(keys.tag, rows, width), req, etags[..], beforeTags, t, i);
    }
    r' := r + miniBatch;
  }
}
