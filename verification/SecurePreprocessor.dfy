/** Slice-by-slice encryption of all tables (secure/encryption/sls_dlrm_preprocessor). */
module SecurePreprocessor {
  import opened SeqMath
  import opened CpuSls
  import opened SecureEncryption
  import opened SecureTags

  /** The encryption engine, the verification engine and the address that seeds the checksum. */
  datatype Keys = Keys(data: Engine, tag: Engine, base: nat)

  ghost function PlainRow(input: seq<nat>, width: nat, g: nat): seq<nat> {
    if g * width + width <= |input| then input[g * width..g * width + width] else []
  }

  ghost function EncryptedRow(keys: Keys, input: seq<nat>, width: nat, h: nat): seq<nat> {
    CipherRow(keys.data, PlainRow(input, width, h), h * (4 * width))
  }

  ghost function RowTag(keys: Keys, input: seq<nat>, width: nat, h: nat): nat {
    Mac(keys.tag, keys.base, PlainRow(input, width, h), h * (4 * width))
  }

  /** The first `g` rows are written, each encrypted (and tagged) at its own offset. */
  ghost predicate Encoded(keys: Keys, input: seq<nat>, width: nat, includeTag: bool, out: seq<nat>, tags: seq<nat>,
                          g: nat) {
    && g * width <= |input| && |out| == g * width && |tags| == (if includeTag then g else 0)
    && (forall h: nat :: h < g ==> RowIs(out, h, EncryptedRow(keys, input, width, h)))
    && (includeTag ==> forall h: nat :: h < g ==> tags[h] == RowTag(keys, input, width, h))
  }

  lemma EncryptedRowWidth(keys: Keys, input: seq<nat>, width: nat, h: nat, g: nat)
    requires h < g && g * width <= |input|
    ensures |EncryptedRow(keys, input, width, h)| == width
  {
    MulCompare(h, g, width);
  }

  lemma RowKept(out: seq<nat>, row: seq<nat>, h: nat, r: seq<nat>)
    requires RowIs(out, h, r)
    ensures RowIs(out + row, h, r)
  {
    var at := h * |r|;
    assert (out + row)[at..at + |r|] == out[at..at + |r|];
  }

  lemma RowAppended(out: seq<nat>, row: seq<nat>, g: nat)
    requires |out| == g * |row|
    ensures RowIs(out + row, g, row)
  {
    assert (out + row)[|out|..|out| + |row|] == row;
  }

  lemma EncodedNext(keys: Keys, input: seq<nat>, width: nat, includeTag: bool, out: seq<nat>,
                    tags: seq<nat>, g: nat, row: seq<nat>, tag: nat)
    requires Encoded(keys, input, width, includeTag, out, tags, g) && (g + 1) * width <= |input|
    requires row == EncryptedRow(keys, input, width, g)
    requires includeTag ==> tag == RowTag(keys, input, width, g)
    ensures Encoded(keys, input, width, includeTag, out + row, if includeTag then tags + [tag] else tags, g + 1)
  {
    hide RowTag, EncryptedRow, RowIs;
    EncryptedRowWidth(keys, input, width, g, g + 1);
    RowAppended(out, row, g);
    forall h: nat | h < g
      ensures RowIs(out + row, h, EncryptedRow(keys, input, width, h))
    {
      RowKept(out, row, h, EncryptedRow(keys, input, width, h));
    }
    assert (g + 1) * width == g * width + width;
  }

  datatype LoadResult = InvalidArguments | Loaded(out: seq<nat>, tags: seq<nat>, offsets: seq<nat>)

  /** Rows fetched in one go: as many as fit in the slice buffer. */
  function RowsToRead(rowCount: nat, width: nat): nat
    requires 0 < width
  {
    DivBounds(BUFFER_SIZE, 4 * width);
    var perBatch := BUFFER_SIZE / (4 * width);
    if rowCount < perBatch then rowCount else perBatch
  }

  /** The slicing loop makes progress exactly when one row fits in the slice buffer. */
  lemma SliceProgressIff(rowCount: nat, width: nat)
    requires 0 < width && 0 < rowCount
    ensures 0 < RowsToRead(rowCount, width) <= rowCount <==> 4 * width <= BUFFER_SIZE
  {
    DivBounds(BUFFER_SIZE, 4 * width);
  }

  /** Rows of 2048 elements are fetched one by one; no row of 2049 elements is ever fetched. */
  lemma WideRowStalls(rowCount: nat)
    ensures rowCount > 0 ==> RowsToRead(rowCount, 2048) == 1
    ensures RowsToRead(rowCount, 2049) == 0
  {
    DivUnique(BUFFER_SIZE, 4 * 2048, 1, 0);
    DivUnique(BUFFER_SIZE, 4 * 2049, 0, BUFFER_SIZE);
  }

  /** From `at` on the slice still holds the plain elements that `input` has from `base` on. */
  ghost predicate PlainFrom(slice: seq<nat>, at: nat, input: seq<nat>, base: nat) {
    base + |slice| <= |input| && forall x :: at <= x < |slice| ==> slice[x] == input[base + x]
  }

  /** One line of a slice: its tag from the plain row, then its encryption in place. */
  method EncryptLine(keys: Keys, ghost input: seq<nat>, ghost base: nat, slice: array<nat>, at: nat, width: nat,
                     offset: nat, includeTag: bool)
    returns (ok: bool, size: nat, tag: nat)
    requires at + width <= slice.Length && PlainFrom(slice[..], at, input, base)
    modifies slice
    ensures ok <==> width % OTP_ELEMENTS == 0
    ensures ok ==> size == 4 * width
    ensures PlainFrom(slice[..], at + width, input, base)
    ensures ok ==> slice[at..at + width] == CipherRow(keys.data, input[base + at..base + at + width], offset)
    ensures includeTag ==> tag == Mac(keys.tag, keys.base, input[base + at..base + at + width], offset)
  {
    hide Mac, CipherRow;
    assert slice[at..at + width] == input[base + at..base + at + width] by {
      assert forall x :: at <= x < slice.Length ==> slice[x] == slice[..][x];
    }
    ghost var before := slice[..];
    tag := 0;
    if includeTag {
      tag := GenerateMac(keys.tag, keys.base, slice[at..at + width], offset);
    }
    ok, size := Encrypt(keys.data, slice, at, at + width, offset);
    assert forall x :: at + width <= x < slice.Length ==> slice[..][x] == before[x];
  }

  /** One slice, line by line: tag from the plain row, then encryption in place, then both are written. */
  method EncryptSlice(keys: Keys, ghost input: seq<nat>, ghost g: nat, slice: array<nat>, ghost rows: nat, width: nat,
                      offset: nat, includeTag: bool, out: seq<nat>, tags: seq<nat>)
    returns (ok: bool, out': seq<nat>, tags': seq<nat>, offset': nat)
    requires 0 < width && 0 < rows && slice.Length == rows * width
    requires (g + rows) * width <= |input| && slice[..] == input[g * width..(g + rows) * width]
    requires offset == g * (4 * width) && Encoded(keys, input, width, includeTag, out, tags, g)
    modifies slice
    ensures ok <==> width % OTP_ELEMENTS == 0
    ensures ok ==> Encoded(keys, input, width, includeTag, out', tags', g + rows) && offset' == (g + rows) * (4 * width)
  {
    hide Encoded, Mac, CipherRow, PlainRow, PlainFrom, Times;
    ok, out', tags', offset' := true, out, tags, offset;
    ghost var i, base := 0, Times(g, width);
    var at := 0;
    SliceBounds(g, rows, width);
    WholeSlice(slice[..], input, g, rows, width);
    while at != slice.Length
      invariant i <= rows && at == Times(i, width) && offset' == Times(g + i, 4 * width)
      invariant i > 0 ==> width % OTP_ELEMENTS == 0
      invariant Encoded(keys, input, width, includeTag, out', tags', g + i)
      invariant PlainFrom(slice[..], at, input, base)
      decreases rows - i
    {
      RowInSlice(g, rows, i, width, |input|);
      RowOfSlice(slice[..], input, g, i, width);
      var encrypted, size, tag := EncryptLine(keys, input, base, slice, at, width, offset', includeTag);
      if !encrypted {
        return false, [], [], 0;
      }
      EncodedAt(keys, input, width, includeTag, out', tags', g + i, offset', slice[at..at + width], tag);
      out', tags' := out' + slice[at..at + width], if includeTag then tags' + [tag] else tags';
      offset' := offset' + size;
      at, i := at + width, i + 1;
    }
    SliceEnds(i, rows, width);
  }

  /** Products of the loop, kept apart from the rest of its proof. */
  ghost function Times(n: nat, size: nat): nat {
    n * size
  }

  lemma SliceBounds(g: nat, rows: nat, width: nat)
    ensures Times(0, width) == 0 && Times(g, width) == g * width && Times(rows, width) == rows * width
    ensures Times(g, 4 * width) == g * (4 * width) && Times(g + rows, 4 * width) == (g + rows) * (4 * width)
  {
  }

  lemma SliceEnds(i: nat, rows: nat, width: nat)
    requires i <= rows && 0 < width && Times(i, width) == Times(rows, width)
    ensures i == rows
  {
    MulCompare(i, rows, width);
  }

  lemma RowInSlice(g: nat, rows: nat, i: nat, width: nat, size: nat)
    requires i <= rows && Times(i, width) != Times(rows, width) && (g + rows) * width <= size
    ensures i < rows && (g + i + 1) * width <= size
    ensures Times(i + 1, width) == Times(i, width) + width <= Times(rows, width)
    ensures Times(g + i + 1, 4 * width) == Times(g + i, 4 * width) + 4 * width
  {
    MulCompare(g + i, g + rows, width);
    MulCompare(i, rows, width);
    OneMore(g + i, width);
    OneMore(i, width);
    OneMore(g + i, 4 * width);
  }

  lemma OneMore(n: nat, size: nat)
    ensures (n + 1) * size == n * size + size
  {
  }

  lemma RowOfSlice(slice: seq<nat>, input: seq<nat>, g: nat, i: nat, width: nat)
    requires Times(i, width) + width <= |slice| && PlainFrom(slice, Times(i, width), input, Times(g, width))
    ensures Times(g, width) + Times(i, width) + width <= |input|
    ensures var at := Times(g, width) + Times(i, width); input[at..at + width] == PlainRow(input, width, g + i)
  {
    assert (g + i) * width == g * width + i * width;
  }

  lemma EncodedAt(keys: Keys, input: seq<nat>, width: nat, includeTag: bool, out: seq<nat>, tags: seq<nat>, h: nat,
                  offset: nat, row: seq<nat>, tag: nat)
    requires Encoded(keys, input, width, includeTag, out, tags, h) && (h + 1) * width <= |input|
    requires offset == Times(h, 4 * width) && row == CipherRow(keys.data, PlainRow(input, width, h), offset)
    requires includeTag ==> tag == Mac(keys.tag, keys.base, PlainRow(input, width, h), offset)
    ensures Encoded(keys, input, width, includeTag, out + row, if includeTag then tags + [tag] else tags, h + 1)
  {
    hide Encoded, CipherRow, Mac, PlainRow;
    EncodedNext(keys, input, width, includeTag, out, tags, h, row, tag);
  }

  lemma WholeSlice(slice: seq<nat>, input: seq<nat>, g: nat, rows: nat, width: nat)
    requires (g + rows) * width <= |input| && slice == input[g * width..(g + rows) * width]
    ensures PlainFrom(slice, 0, input, Times(g, width))
  {
  }

  /** `load_impl`. A row wider than the slice buffer is excluded: its loop would not end. */
  method Load(keys: Keys, input: seq<nat>, entries: seq<nat>, width: nat, includeTag: bool) returns (r: LoadResult)
    requires 0 < width && 4 * width <= BUFFER_SIZE && Sum(entries) * width <= |input|
    ensures r.InvalidArguments? <==> width % OTP_ELEMENTS != 0 && Sum(entries) > 0
    ensures r.Loaded? ==> Encoded(keys, input, width, includeTag, r.out, r.tags, Sum(entries))
    ensures r.Loaded? ==> |r.offsets| == |entries| && forall t :: 0 <= t < |entries| ==>
            r.offsets[t] == RowOffset(entries, width, t, 0)
  {
    hide Encoded, Sum;
    var out, tags, offsets, offset, pos := [], [], [], 0, 0;
    ghost var g := 0;
    NothingEncoded(keys, input, width, includeTag);
    SumOfNone(entries);
    for t := 0 to |entries|
      invariant g == Sum(entries[..t]) && offset == g * (4 * width) && pos == g * width
      invariant g > 0 ==> width % OTP_ELEMENTS == 0
      invariant Encoded(keys, input, width, includeTag, out, tags, g)
      invariant |offsets| == t && forall s :: 0 <= s < t ==> offsets[s] == RowOffset(entries, width, s, 0)
    {
      offsets := offsets + [offset];
      SumStep(entries, t);
      SumMonotone(entries, t + 1, |entries|);
      MulMonotone(g + entries[t], Sum(entries), width);
      var ok;
      ok, out, tags, offset, pos := LoadTable(keys, input, g, pos, entries[t], width, offset, includeTag, out, tags);
      if !ok {
        return InvalidArguments;
      }
      g := g + entries[t];
    }
    assert entries[..|entries|] == entries;
    return Loaded(out, tags, offsets);
  }

  /** The slices of one table; rows `g` and on are read from `pos`. */
  method LoadTable(keys: Keys, input: seq<nat>, ghost g: nat, pos: nat, rows: nat, width: nat, offset: nat,
                   includeTag: bool, out: seq<nat>, tags: seq<nat>)
    returns (ok: bool, out': seq<nat>, tags': seq<nat>, offset': nat, pos': nat)
    requires 0 < width && 4 * width <= BUFFER_SIZE && (g + rows) * width <= |input|
    requires offset == g * (4 * width) && pos == g * width && Encoded(keys, input, width, includeTag, out, tags, g)
    ensures ok <==> width % OTP_ELEMENTS == 0 || rows == 0
    ensures ok ==> Encoded(keys, input, width, includeTag, out', tags', g + rows)
    ensures ok ==> offset' == (g + rows) * (4 * width) && pos' == (g + rows) * width
  {
    hide Encoded;
    ok, out', tags', offset', pos' := true, out, tags, offset, pos;
    var rowCount := rows;
    ghost var h := g;
    while rowCount > 0
      invariant ok && 0 <= rowCount && h + rowCount == g + rows && offset' == h * (4 * width) && pos' == h * width
      invariant rowCount < rows ==> width % OTP_ELEMENTS == 0
      invariant Encoded(keys, input, width, includeTag, out', tags', h)
    {
      var n := RowsToRead(rowCount, width);
      SliceProgressIff(rowCount, width);
      MulMonotone(h + n, g + rows, width);
      assert (h + n) * width == pos' + n * width;
      var slice := new nat[n * width](i requires 0 <= i < n * width => input[pos' + i]);
      assert slice[..] == input[pos'..pos' + n * width];
      ok, out', tags', offset' := EncryptSlice(keys, input, h, slice, n, width, offset', includeTag, out', tags');
      if !ok {
        return;
      }
      pos', rowCount, h := pos' + n * width, rowCount - n, h + n;
    }
  }

  lemma NothingEncoded(keys: Keys, input: seq<nat>, width: nat, includeTag: bool)
    ensures Encoded(keys, input, width, includeTag, [], [], 0)
  {
  }
}
