/** The secure operation end to end (secure/common/sls_executor, secure/encryption/sls_dlrm_postprocessor). */
module SecureExecutor {
  import opened SeqMath
  import opened ExecutionGenerators
  import opened PacksData
  import opened CpuSls
  import opened SecureEncryption
  import opened SecureTags
  import opened SecurePreprocessor
  import opened SecureSls

  ghost function RowAt(s: seq<nat>, width: nat, r: nat): seq<nat>
    requires r * width + width <= |s|
  {
    s[r * width..r * width + width]
  }

  /** Row `r` of the decrypted sums against its two tag shares. */
  ghost predicate RowChecks(keys: Keys, psum: seq<nat>, width: nat, ctags: seq<nat>, etags: seq<nat>, r: nat) {
    && r * width + width <= |psum| && r < |ctags| && r < |etags|
    && Validates(keys.tag, keys.base, RowAt(psum, width, r), ctags[r], etags[r])
  }

  /** The shares below `at` are added, the rest is as before. */
  ghost predicate AddedBelow(psum: seq<nat>, before: seq<nat>, epsum: seq<nat>, at: nat) {
    && |psum| == |before| == |epsum| && at <= |psum|
    && (forall x :: 0 <= x < at ==> psum[x] == (before[x] + epsum[x]) % WORD)
    && (forall x :: at <= x < |psum| ==> psum[x] == before[x])
  }

  ghost predicate ChecksBelow(keys: Keys, psum: seq<nat>, width: nat, ctags: seq<nat>, etags: seq<nat>,
                              checks: seq<bool>, n: nat) {
    n <= |checks| && forall r: nat :: r < n ==> checks[r] == RowChecks(keys, psum, width, ctags, etags, r)
  }

  lemma AddedNext(psum: seq<nat>, before: seq<nat>, epsum: seq<nat>, r: nat, width: nat,
                  psum': seq<nat>)
    requires AddedBelow(psum, before, epsum, r * width) && r * width + width <= |psum| == |psum'|
    requires forall x :: r * width <= x < r * width + width ==> psum'[x] == (psum[x] + epsum[x]) % WORD
    requires forall x :: 0 <= x < |psum| && !(r * width <= x < r * width + width) ==> psum'[x] == psum[x]
    ensures AddedBelow(psum', before, epsum, (r + 1) * width)
  {
    var at := r * width;
    assert (r + 1) * width == at + width;
  }

  lemma ChecksKept(keys: Keys, psum: seq<nat>, width: nat, ctags: seq<nat>, etags: seq<nat>,
                   checks: seq<bool>, r: nat, psum': seq<nat>)
    requires ChecksBelow(keys, psum, width, ctags, etags, checks, r) && r * width <= |psum| == |psum'|
    requires forall x :: 0 <= x < r * width ==> psum'[x] == psum[x]
    ensures ChecksBelow(keys, psum', width, ctags, etags, checks, r)
  {
    hide Validates;
    forall q: nat | q < r
      ensures RowChecks(keys, psum', width, ctags, etags, q) == RowChecks(keys, psum, width, ctags, etags, q)
    {
      MulCompare(q, r, width);
      assert RowAt(psum', width, q) == RowAt(psum, width, q);
    }
  }

  ghost predicate AllTrue(checks: seq<bool>, n: nat) {
    n <= |checks| && forall r :: 0 <= r < n ==> checks[r]
  }

  /** `decrypt_psum_impl`: add the shares in place row by row, and check each row if there are tags. */
  method DecryptPsum(keys: Keys, psum: array<nat>, epsum: seq<nat>, width: nat, n: nat, ctags: seq<nat>,
                     etags: seq<nat>, checks: array<bool>)
    returns (status: bool)
    requires psum.Length == |epsum| == n * width
    requires |ctags| == |etags| && (ctags != [] ==> |ctags| == n == checks.Length)
    modifies psum, checks
    ensures SharesAdded(psum[..], old(psum[..]), epsum)
    ensures ctags == [] ==> status && checks[..] == old(checks[..])
    ensures ctags != [] ==> ChecksBelow(keys, psum[..], width, ctags, etags, checks[..], n)
    ensures ctags != [] ==> (status <==> AllTrue(checks[..], n))
  {
    hide RowChecks, AddedBelow, ChecksBelow, SharesAdded, Validates, AllTrue;
    status := true;
    ghost var before := psum[..];
    NothingAdded(before, epsum);
    NothingChecked(keys, psum[..], width, ctags, etags, checks[..]);
    for r := 0 to n
      invariant AddedBelow(psum[..], before, epsum, r * width)
      invariant ctags == [] ==> status && checks[..] == old(checks[..])
      invariant ctags != [] ==> ChecksBelow(keys, psum[..], width, ctags, etags, checks[..], r)
      invariant ctags != [] ==> (status <==> AllTrue(checks[..], r))
    {
      MulCompare(r, n, width);
      ghost var now := psum[..];
      DecryptRow(psum, epsum, before, r, width);
      if |ctags| > 0 && |etags| > 0 {
        ChecksKept(keys, now, width, ctags, etags, checks[..], r, psum[..]);
        var ok := CheckRow(keys, psum, r, width, ctags, etags, checks);
        status := status && ok;
      }
    }
    AllAdded(psum[..], before, epsum);
  }

  method CheckRow(keys: Keys, psum: array<nat>, r: nat, width: nat, ctags: seq<nat>, etags: seq<nat>,
                  checks: array<bool>)
    returns (ok: bool)
    requires r < |ctags| == |etags| == checks.Length && r * width + width <= psum.Length
    requires ChecksBelow(keys, psum[..], width, ctags, etags, checks[..], r)
    modifies checks
    ensures ChecksBelow(keys, psum[..], width, ctags, etags, checks[..], r + 1)
    ensures AllTrue(checks[..], r + 1) <==> AllTrue(old(checks[..]), r) && ok
  {
    hide ChecksBelow, Validates, AllTrue;
    ok := ValidatePsum(keys.tag, keys.base, psum[r * width..r * width + width], ctags[r], etags[r]);
    assert psum[r * width..r * width + width] == psum[..][r * width..r * width + width];
    CheckedNext(keys, psum[..], width, ctags, etags, checks[..], r, ok);
    AllTrueNext(checks[..], r, ok);
    checks[r] := ok;
    assert checks[..] == old(checks[..])[r := ok];
  }

  method DecryptRow(psum: array<nat>, epsum: seq<nat>, ghost before: seq<nat>, r: nat, width: nat)
    requires r * width + width <= psum.Length == |epsum| && AddedBelow(psum[..], before, epsum, r * width)
    modifies psum
    ensures AddedBelow(psum[..], before, epsum, (r + 1) * width)
    ensures forall x :: 0 <= x < r * width ==> psum[x] == old(psum[x])
  {
    hide AddedBelow;
    AddShares(psum, epsum, r * width, width);
    AddedNext(old(psum[..]), before, epsum, r, width, psum[..]);
  }

  method AddShares(psum: array<nat>, epsum: seq<nat>, at: nat, width: nat)
    requires at + width <= psum.Length == |epsum|
    modifies psum
    ensures forall x :: at <= x < at + width ==> psum[x] == (old(psum[x]) + epsum[x]) % WORD
    ensures forall x :: 0 <= x < psum.Length && !(at <= x < at + width) ==> psum[x] == old(psum[x])
  {
    for x := at to at + width
      invariant forall y :: at <= y < x ==> psum[y] == (old(psum[y]) + epsum[y]) % WORD
      invariant forall y :: 0 <= y < psum.Length && !(at <= y < x) ==> psum[y] == old(psum[y])
    {
      psum[x] := (psum[x] + epsum[x]) % WORD;
    }
  }

  lemma NothingAdded(before: seq<nat>, epsum: seq<nat>)
    requires |before| == |epsum|
    ensures AddedBelow(before, before, epsum, 0)
  {
  }

  lemma AllAdded(psum: seq<nat>, before: seq<nat>, epsum: seq<nat>)
    requires AddedBelow(psum, before, epsum, |psum|)
    ensures SharesAdded(psum, before, epsum)
  {
  }

  lemma NothingChecked(keys: Keys, psum: seq<nat>, width: nat, ctags: seq<nat>, etags: seq<nat>,
                       checks: seq<bool>)
    ensures ChecksBelow(keys, psum, width, ctags, etags, checks, 0) && AllTrue(checks, 0)
  {
  }

  lemma AllTrueNext(checks: seq<bool>, r: nat, ok: bool)
    requires r < |checks|
    ensures AllTrue(checks[r := ok], r + 1) <==> AllTrue(checks, r) && ok
  {
    if AllTrue(checks[r := ok], r + 1) {
      assert checks[r := ok][r];
      forall q | 0 <= q < r
        ensures checks[q]
      {
        assert checks[r := ok][q];
      }
    }
  }

  lemma CheckedNext(keys: Keys, psum: seq<nat>, width: nat, ctags: seq<nat>, etags: seq<nat>,
                    checks: seq<bool>, r: nat, ok: bool)
    requires ChecksBelow(keys, psum, width, ctags, etags, checks, r) && r < |checks| && r < |ctags| && r < |etags|
    requires r * width + width <= |psum|
    requires ok <==> Validates(keys.tag, keys.base, psum[r * width..r * width + width], ctags[r], etags[r])
    ensures ChecksBelow(keys, psum, width, ctags, etags, checks[r := ok], r + 1)
  {
    hide Validates;
  }

  /** The rows below `n` are copied where their check is true, the rest is as before. */
  ghost predicate CopiedBelow(user: seq<nat>, before: seq<nat>, augmented: seq<nat>, checks: seq<bool>, width: nat,
                              n: nat) {
    && |user| == |before| == |augmented| && n <= |checks| && n * width <= |user|
    && (forall r: nat :: r < n ==> CopiedRow(user, before, augmented, checks, width, r))
    && (forall x :: n * width <= x < |user| ==> user[x] == before[x])
  }

  ghost predicate CopiedRow(user: seq<nat>, before: seq<nat>, augmented: seq<nat>, checks: seq<bool>, width: nat,
                            r: nat) {
    && r < |checks| && r * width + width <= |user| == |before| == |augmented|
    && RowAt(user, width, r) == RowAt(if checks[r] then augmented else before, width, r)
  }

  lemma CopiedNext(user: seq<nat>, before: seq<nat>, augmented: seq<nat>, checks: seq<bool>,
                   width: nat, r: nat, user': seq<nat>)
    requires CopiedBelow(user, before, augmented, checks, width, r) && r < |checks|
    requires r * width + width <= |user| == |user'|
    requires forall x :: 0 <= x < |user| && !(r * width <= x < r * width + width) ==> user'[x] == user[x]
    requires forall x :: r * width <= x < r * width + width ==> user'[x] == (if checks[r] then augmented else user)[x]
    ensures CopiedBelow(user', before, augmented, checks, width, r + 1)
  {
    hide CopiedRow;
    NextRow(r, width);
    ThisRowCopied(user, before, augmented, checks, width, r, user');
    forall q: nat | q < r
      ensures CopiedRow(user', before, augmented, checks, width, q)
    {
      MulCompare(q, r, width);
      EarlierRowKept(user, before, augmented, checks, width, q, user');
    }
  }

  lemma NextRow(r: nat, width: nat)
    ensures (r + 1) * width == r * width + width
  {
  }

  lemma ThisRowCopied(user: seq<nat>, before: seq<nat>, augmented: seq<nat>, checks: seq<bool>, width: nat, r: nat,
                      user': seq<nat>)
    requires r < |checks| && r * width + width <= |user| == |user'| == |before| == |augmented|
    requires forall x :: r * width <= x < |user| ==> user[x] == before[x]
    requires forall x :: r * width <= x < r * width + width ==> user'[x] == (if checks[r] then augmented else user)[x]
    ensures CopiedRow(user', before, augmented, checks, width, r)
  {
    var at := r * width;
    assert user'[at..at + width] == (if checks[r] then augmented else before)[at..at + width];
  }

  lemma EarlierRowKept(user: seq<nat>, before: seq<nat>, augmented: seq<nat>, checks: seq<bool>, width: nat, q: nat,
                       user': seq<nat>)
    requires CopiedRow(user, before, augmented, checks, width, q) && |user| == |user'|
    requires forall x :: q * width <= x < q * width + width ==> user'[x] == user[x]
    ensures CopiedRow(user', before, augmented, checks, width, q)
  {
    var at := q * width;
    assert user'[at..at + width] == user[at..at + width];
  }

  /** `make_user_psum`: only rows that passed their check reach the user. */
  method MakeUserPsum(user: array<nat>, augmented: seq<nat>, checks: seq<bool>, width: nat, n: nat)
    requires user.Length == |augmented| == n * width && |checks| == n
    modifies user
    ensures CopiedBelow(user[..], old(user[..]), augmented, checks, width, n)
  {
    hide CopiedRow;
    for r := 0 to n
      invariant CopiedBelow(user[..], old(user[..]), augmented, checks, width, r)
    {
      MulCompare(r, n, width);
      ghost var before := user[..];
      if checks[r] {
        CopyRow(user, augmented, r * width, width);
      }
      CopiedNext(before, old(user[..]), augmented, checks, width, r, user[..]);
    }
  }

  method CopyRow(user: array<nat>, augmented: seq<nat>, at: nat, width: nat)
    requires at + width <= user.Length == |augmented|
    modifies user
    ensures forall x :: at <= x < at + width ==> user[x] == augmented[x]
    ensures forall x :: 0 <= x < user.Length && !(at <= x < at + width) ==> user[x] == old(user[x])
  {
    for x := at to at + width
      invariant forall y :: at <= y < x ==> user[y] == augmented[y]
      invariant forall y :: 0 <= y < user.Length && !(at <= y < x) ==> user[y] == old(user[y])
    {
      user[x] := augmented[x];
    }
  }

  // ----- Loaded tables.

  /** The encrypted tables lie in memory as ciphertext tables. */
  lemma LoadedRowsAreStored(keys: Keys, input: seq<nat>, rows: seq<nat>, width: nat,
                            includeTag: bool, out: seq<nat>, tags: seq<nat>, plain: seq<Table>)
    requires |plain| == |rows| && AllStored(input, width, rows, plain)
    requires Encoded(keys, input, width, includeTag, out, tags, Sum(rows))
    ensures AllStored(out, width, rows, CipherTables(keys.data, rows, width, plain))
  {
    hide Encoded, Stored, Sum, Cipher, Engine.PadAt;
    forall t | 0 <= t < |rows|
      ensures Stored(out, Sum(rows[..t]) * width, width, rows[t], CipherTables(keys.data, rows, width, plain)[t])
    {
      TableStored(keys, input, rows, width, includeTag, out, tags, plain, t);
    }
  }

  lemma TableStored(keys: Keys, input: seq<nat>, rows: seq<nat>, width: nat, includeTag: bool,
                    out: seq<nat>, tags: seq<nat>, plain: seq<Table>, t: nat)
    requires |plain| == |rows| && t < |rows| && Stored(input, Sum(rows[..t]) * width, width, rows[t], plain[t])
    requires Encoded(keys, input, width, includeTag, out, tags, Sum(rows))
    ensures Stored(out, Sum(rows[..t]) * width, width, rows[t], CipherTable(keys.data, rows, width, plain, t))
  {
    hide Encoded, Sum, Cipher, Engine.PadAt;
    SumStep(rows, t);
    SumMonotone(rows, t + 1, |rows|);
    forall i, c | 0 <= i < rows[t] && 0 <= c < width
      ensures Sum(rows[..t]) * width + Flat(i, width, c) < |out|
      ensures out[Sum(rows[..t]) * width + Flat(i, width, c)] == CipherTable(keys.data, rows, width, plain, t)(i, c)
    {
      assert input[Sum(rows[..t]) * width + Flat(i, width, c)] == plain[t](i, c);
      ElementStored(keys, input, width, includeTag, out, tags, Sum(rows), Sum(rows[..t]), i, c);
    }
  }

  lemma ElementStored(keys: Keys, input: seq<nat>, width: nat, includeTag: bool, out: seq<nat>,
                      tags: seq<nat>, g: nat, first: nat, i: nat, c: nat)
    requires Encoded(keys, input, width, includeTag, out, tags, g) && first + i < g && c < width
    ensures var x := first * width + Flat(i, width, c);
      x < |out| == g * width <= |input| && out[x] == Cipher(input[x], keys.data.PadAt((first + i) * (4 * width), c))
  {
    hide Cipher, Engine.PadAt, RowTag, EncryptedRow, RowIs, Flat;
    var h := first + i;
    RowsBefore(first, i, width, c);
    MulCompare(h, g, width);
    EncryptedRowWidth(keys, input, width, h, g);
    assert RowIs(out, h, EncryptedRow(keys, input, width, h));
    RowElement(out, h, EncryptedRow(keys, input, width, h), c);
    EncryptedElement(keys, input, width, h, c);
  }

  lemma RowsBefore(first: nat, i: nat, width: nat, c: nat)
    ensures first * width + Flat(i, width, c) == (first + i) * width + c
  {
  }

  lemma RowElement(out: seq<nat>, h: nat, row: seq<nat>, c: nat)
    requires RowIs(out, h, row) && c < |row|
    ensures h * |row| + c < |out| && out[h * |row| + c] == row[c]
  {
    var at := h * |row|;
    assert out[at + c] == out[at..at + |row|][c];
  }

  lemma EncryptedElement(keys: Keys, input: seq<nat>, width: nat, h: nat, c: nat)
    requires h * width + width <= |input| && c < width
    ensures |EncryptedRow(keys, input, width, h)| == width
    ensures EncryptedRow(keys, input, width, h)[c] == Cipher(input[h * width + c], keys.data.PadAt(h * (4 * width), c))
  {
    hide Cipher, Engine.PadAt;
  }

  /** Tag `first + r` of the stored tags is the tag of row `r` of table `t`. */
  lemma StoredTag(keys: Keys, input: seq<nat>, rows: seq<nat>, width: nat, out: seq<nat>,
                  tags: seq<nat>, plain: seq<Table>, t: nat, r: nat)
    requires |plain| == |rows| && t < |rows| && r < rows[t]
    requires Stored(input, Sum(rows[..t]) * width, width, rows[t], plain[t])
    requires Encoded(keys, input, width, true, out, tags, Sum(rows))
    ensures Sum(rows[..t]) + r < |tags| && tags[Sum(rows[..t]) + r] == RowMacs(keys, rows, width, plain)(t, r)
  {
    hide Sum, Mac, Encoded, Stored, TableRow, PlainRow;
    SumStep(rows, t);
    SumMonotone(rows, t + 1, |rows|);
    var first, h := Sum(rows[..t]), Sum(rows[..t]) + r;
    TagOfRow(keys, input, width, out, tags, Sum(rows), h);
    PlainRowIs(input, width, first, rows[t], plain[t], r);
  }

  lemma TagOfRow(keys: Keys, input: seq<nat>, width: nat, out: seq<nat>, tags: seq<nat>, g: nat, h: nat)
    requires Encoded(keys, input, width, true, out, tags, g) && h < g
    ensures h < |tags| && tags[h] == RowTag(keys, input, width, h) && (h + 1) * width <= |input|
  {
    hide RowTag, EncryptedRow, RowIs;
    MulMonotone(h + 1, g, width);
  }

  /** Row `r` of a table that starts with row `first` of all rows. */
  lemma PlainRowIs(input: seq<nat>, width: nat, first: nat, rows: nat, table: Table, r: nat)
    requires Stored(input, first * width, width, rows, table) && r < rows && (first + r + 1) * width <= |input|
    ensures PlainRow(input, width, first + r) == TableRow(table, r, width)
  {
    assert (first + r + 1) * width == (first + r) * width + width;
    forall c | 0 <= c < width
      ensures PlainRow(input, width, first + r)[c] == table(r, c)
    {
      assert (first + r) * width + c == first * width + Flat(r, width, c);
      assert input[first * width + Flat(r, width, c)] == table(r, c);
    }
  }

  // ----- The honest device.

  /** The stored tags, as the device reads them. */
  ghost predicate TagsStored(tagOf: TagTable, rows: seq<nat>, tags: seq<nat>) {
    forall t: nat, r: nat :: t < |rows| && r < rows[t] ==> TagStored(tagOf, rows, tags, t, r)
  }

  ghost predicate TagStored(tagOf: TagTable, rows: seq<nat>, tags: seq<nat>, t: nat, r: nat)
    requires t < |rows|
  {
    Sum(rows[..t]) + r < |tags| && tags[Sum(rows[..t]) + r] == tagOf(t, r)
  }

  lemma LoadedTagsAreStored(keys: Keys, input: seq<nat>, rows: seq<nat>, width: nat, out: seq<nat>,
                            tags: seq<nat>, plain: seq<Table>)
    requires |plain| == |rows| && AllStored(input, width, rows, plain)
    requires Encoded(keys, input, width, true, out, tags, Sum(rows))
    ensures TagsStored(RowMacs(keys, rows, width, plain), rows, tags)
  {
    hide Encoded, Stored, Sum, Mac;
    forall t: nat, r: nat | t < |rows| && r < rows[t]
      ensures TagStored(RowMacs(keys, rows, width, plain), rows, tags, t, r)
    {
      StoredTag(keys, input, rows, width, out, tags, plain, t, r);
    }
  }

  ghost predicate TagsBelow(tagOf: TagTable, req: Request, tags: seq<nat>, done: nat)
    requires req.Valid()
  {
    forall b: Batch :: InRequest(req, b) && req.Row(b) < done ==> TagReduced(tagOf, req, tags, b)
  }

  lemma TagNext(tagOf: TagTable, req: Request, before: seq<nat>, tags: seq<nat>, b: Batch)
    requires InRequest(req, b) && TagsBelow(tagOf, req, before, req.Row(b)) && req.Row(b) < |before|
    requires tags == before[req.Row(b) := Sum(TagColumn(tagOf, b.table, IndexList(req, b))) % TAG]
    ensures TagsBelow(tagOf, req, tags, req.Row(b) + 1)
  {
    hide Sum, IndexList, Flat;
    forall c: Batch | InRequest(req, c) && req.Row(c) < req.Row(b) + 1
      ensures TagReduced(tagOf, req, tags, c)
    {
      if req.Row(c) == req.Row(b) {
        FlatInjective(req.miniBatch, c.table, c.index, b.table, b.index);
      } else {
        assert TagReduced(tagOf, req, before, c);
      }
    }
  }

  lemma AllTagsBelow(tagOf: TagTable, req: Request, tags: seq<nat>)
    requires req.Valid() && TagsBelow(tagOf, req, tags, |req.lengths|)
    ensures AllTagsReduced(tagOf, req, tags)
  {
    forall b: Batch | InRequest(req, b)
      ensures TagReduced(tagOf, req, tags, b)
    {
      RowOf(req, b);
    }
  }

  /** The tag half of `compute_with_tag`: `on_tag` for every table and batch. */
  method ComputeTags(ghost tagOf: TagTable, ghost req: Request, tags: seq<nat>, rows: seq<nat>, indices: seq<nat>,
                     lengths: seq<nat>, miniBatch: nat, ghost width: nat, ctags: array<nat>)
    requires req == Request(lengths, indices, miniBatch, |rows|, width) && req.Valid() && IndicesInTables(req, rows)
    requires TagsStored(tagOf, rows, tags) && ctags.Length == |lengths|
    modifies ctags
    ensures AllTagsReduced(tagOf, req, ctags[..])
  {
    hide Sum, Flat, TagsStored, IndicesInTables, TagReduced;
    var first, base, r := 0, 0, 0;
    SumOfNone(rows);
    SumOfNone(lengths);
    FlatZero(miniBatch);
    FlatIsProduct(|rows|, miniBatch);
    for t := 0 to |rows|
      invariant r == Flat(t, miniBatch, 0) <= |lengths| && base == req.FirstIndex(r) && first == Sum(rows[..t])
      invariant TagsBelow(tagOf, req, ctags[..], r)
    {
      FlatNext(t, miniBatch, |rows|);
      for i := 0 to miniBatch
        invariant r == Flat(t, miniBatch, i) <= |lengths| && base == req.FirstIndex(r)
        invariant TagsBelow(tagOf, req, ctags[..], r)
      {
        RowOf(req, Batch(t, i));
        OnTag(tagOf, req, Batch(t, i), tags, rows, first, indices[base..base + lengths[r]], r, ctags);
        SumStep(lengths, r);
        base := base + lengths[r];
        r := r + 1;
        FlatStep(t, miniBatch, i);
      }
      SumStep(rows, t);
      first := first + rows[t];
    }
    AllTagsBelow(tagOf, req, ctags[..]);
  }

  method OnTag(ghost tagOf: TagTable, ghost req: Request, ghost b: Batch, tags: seq<nat>, ghost rows: seq<nat>,
               first: nat, index: seq<nat>, r: nat, ctags: array<nat>)
    requires InRequest(req, b) && |rows| == req.numTables && IndicesInTables(req, rows) && index == IndexList(req, b)
    requires TagsStored(tagOf, rows, tags) && first == Sum(rows[..b.table])
    requires r == req.Row(b) < ctags.Length && TagsBelow(tagOf, req, ctags[..], r)
    modifies ctags
    ensures TagsBelow(tagOf, req, ctags[..], r + 1)
  {
    hide Sum, Flat, IndexList, TagsBelow;
    forall j | 0 <= j < |index|
      ensures first + index[j] < |tags| && tags[first + index[j]] == tagOf(b.table, index[j])
    {
      assert IndexList(req, b)[j] < rows[b.table];
      assert TagStored(tagOf, rows, tags, b.table, index[j]);
    }
    var values := seq(|index|, j requires 0 <= j < |index| && first + index[j] < |tags| => tags[first + index[j]]);
    assert values == TagColumn(tagOf, b.table, index);
    var sum := SumTags(values);
    TagNext(tagOf, req, ctags[..], ctags[..][r := sum], b);
    ctags[r] := sum;
    assert ctags[..] == old(ctags[..])[r := sum];
  }

  // ----- What a run delivers.

  /** What the buffers of the host share hold when a run starts: rows and tags of an earlier run, or zeros. */
  datatype Stale = Stale(rows: seq<nat>, tags: seq<nat>)

  /** Row `r` of an earlier run. */
  ghost function StaleRow(stale: Stale, r: nat, width: nat): seq<nat> {
    seq(width, c requires 0 <= c => if r * width + c < |stale.rows| then stale.rows[r * width + c] % WORD else 0)
  }

  ghost function StaleTag(stale: Stale, r: nat): nat {
    if r < |stale.tags| then stale.tags[r] else 0
  }

  /** What a run makes of batch `b`: the reduction, or what the host share held if the batch was skipped. */
  ghost function Obtained(arith: Arith, plain: seq<Table>, req: Request, stale: Stale, b: Batch): seq<nat>
    requires InRequest(req, b) && |plain| == req.numTables
  {
    if Skipped(req, b) then StaleRow(stale, req.Row(b), req.featureSize) else Reduction(arith, WRAPPING, plain, req, b)
  }

  /** The check of batch `b`: the tag equation of the rows it asks for, or of what the host share held. */
  ghost predicate BatchPasses(keys: Keys, rows: seq<nat>, plain: seq<Table>, req: Request, stale: Stale, b: Batch)
    requires InRequest(req, b) && |rows| == |plain| == req.numTables
  {
    if Skipped(req, b) then
      Validates(keys.tag, keys.base, StaleRow(stale, req.Row(b), req.featureSize), 0, StaleTag(stale, req.Row(b)))
    else
      var index := IndexList(req, b);
      HonestCheck(keys.tag, keys.base, plain[b.table], index, req.featureSize,
                  Offsets(rows, req.featureSize, b.table, index))
  }

  ghost predicate AllObtained(arith: Arith, plain: seq<Table>, req: Request, stale: Stale, psum: seq<nat>)
    requires req.Valid() && |plain| == req.numTables
  {
    forall b: Batch :: InRequest(req, b) ==> RowIs(psum, req.Row(b), Obtained(arith, plain, req, stale, b))
  }

  lemma ObtainedWidth(arith: Arith, plain: seq<Table>, req: Request, stale: Stale, b: Batch)
    requires InRequest(req, b) && |plain| == req.numTables
    ensures |Obtained(arith, plain, req, stale, b)| == req.featureSize
  {
    hide Skipped, SumOfRows, IndexList;
    SumOfRowsWidth(arith, WRAPPING, plain[b.table], IndexList(req, b), req.featureSize);
  }

  /** The sum of no rows is zero. */
  lemma NoRowsSum(arith: Arith, table: Table, width: nat, c: nat)
    requires c < width
    ensures |SumOfRows(arith, WRAPPING, table, [], width)| == width
    ensures SumOfRows(arith, WRAPPING, table, [], width)[c] == 0
  {
  }

  /** Decryption of any served host share. */
  lemma DecryptedIsObtained(arith: Arith, keys: Keys, rows: seq<nat>, plain: seq<Table>, req: Request, stale: Stale,
                            psum: seq<nat>, epsum: seq<nat>, out: seq<nat>)
    requires req.Valid() && |rows| == |plain| == req.numTables
    requires AllReduced(arith, WRAPPING, CipherTables(keys.data, rows, req.featureSize, plain), req, psum)
    requires AllServed(arith, PadTables(keys.data, rows, req.featureSize), req, epsum, stale.rows)
    requires SharesAdded(out, psum, epsum)
    ensures AllObtained(arith, plain, req, stale, out)
  {
    hide IsReduced, Skipped, RowIs, SharesAdded, Flat, Obtained, CipherTable, PadTable;
    forall b: Batch | InRequest(req, b)
      ensures RowIs(out, req.Row(b), Obtained(arith, plain, req, stale, b))
    {
      assert RowServed(arith, PadTables(keys.data, rows, req.featureSize), req, epsum, stale.rows, b);
      if Skipped(req, b) {
        SkippedRow(arith, keys, rows, plain, req, stale, psum, epsum, out, b);
      } else {
        BatchDecrypts(arith, keys.data, rows, plain, req, psum, epsum, out, b);
        VisitedRow(arith, plain, req, stale, out, b);
      }
    }
  }

  lemma VisitedRow(arith: Arith, plain: seq<Table>, req: Request, stale: Stale, out: seq<nat>, b: Batch)
    requires InRequest(req, b) && |plain| == req.numTables && !Skipped(req, b)
    ensures IsReduced(arith, WRAPPING, plain, req, out, b) <==>
            RowIs(out, req.Row(b), Obtained(arith, plain, req, stale, b))
  {
    hide Skipped, RowIs, Reduction, Flat;
  }

  lemma SkippedRow(arith: Arith, keys: Keys, rows: seq<nat>, plain: seq<Table>, req: Request, stale: Stale,
                   psum: seq<nat>, epsum: seq<nat>, out: seq<nat>, b: Batch)
    requires InRequest(req, b) && |rows| == |plain| == req.numTables && Skipped(req, b)
    requires IsReduced(arith, WRAPPING, CipherTables(keys.data, rows, req.featureSize, plain), req, psum, b)
    requires RowUnchanged(epsum, stale.rows, req.Row(b), req.featureSize) && SharesAdded(out, psum, epsum)
    ensures RowIs(out, req.Row(b), Obtained(arith, plain, req, stale, b))
  {
    hide Skipped, SharesAdded, Flat, SumOfRows, Sum, Cipher, Engine.PadAt;
    SkippedIsEmpty(req, b);
    var r, w := req.Row(b), req.featureSize;
    var table := CipherTables(keys.data, rows, w, plain)[b.table];
    SumOfRowsWidth(arith, WRAPPING, table, [], w);
    var pads := epsum[r * w..r * w + w];
    forall c | 0 <= c < w
      ensures StaleRow(stale, r, w)[c] == (SumOfRows(arith, WRAPPING, table, [], w)[c] + pads[c]) % WORD
    {
      NoRowsSum(arith, table, w, c);
      assert pads[c] == stale.rows[r * w..r * w + w][c];
    }
    RowOfShares(out, psum, epsum, r, StaleRow(stale, r, w), SumOfRows(arith, WRAPPING, table, [], w), pads);
  }

  // ----- The exact condition for a whole run.

  ghost predicate SkippedRowsAreZero(req: Request, stale: Stale)
    requires req.Valid()
  {
    forall b: Batch, c :: InRequest(req, b) && Skipped(req, b) && 0 <= c < req.featureSize ==>
      StaleRow(stale, req.Row(b), req.featureSize)[c] == 0
  }

  lemma SkippedReduction(arith: Arith, plain: seq<Table>, req: Request, stale: Stale, psum: seq<nat>, b: Batch)
    requires InRequest(req, b) && |plain| == req.numTables && Skipped(req, b)
    requires RowIs(psum, req.Row(b), Obtained(arith, plain, req, stale, b))
    ensures IsReduced(arith, WRAPPING, plain, req, psum, b)
       <==> forall c :: 0 <= c < req.featureSize ==> StaleRow(stale, req.Row(b), req.featureSize)[c] == 0
  {
    hide Skipped, Flat, SumOfRows, Sum;
    SkippedIsEmpty(req, b);
    var row, zeros := StaleRow(stale, req.Row(b), req.featureSize), Reduction(arith, WRAPPING, plain, req, b);
    SumOfRowsWidth(arith, WRAPPING, plain[b.table], [], req.featureSize);
    forall c | 0 <= c < req.featureSize
      ensures zeros[c] == 0
    {
      NoRowsSum(arith, plain[b.table], req.featureSize, c);
    }
    assert row == zeros <==> forall c :: 0 <= c < req.featureSize ==> row[c] == 0;
  }

  /**
   * A run gives the reductions of all batches if and only if the host share held zeros wherever a batch is skipped:
   * on the first run of an executor, or when the last lookup list of every table is not empty.
   */
  lemma ReducedIffStaleZero(arith: Arith, plain: seq<Table>, req: Request, stale: Stale, psum: seq<nat>)
    requires req.Valid() && |plain| == req.numTables && AllObtained(arith, plain, req, stale, psum)
    ensures AllReduced(arith, WRAPPING, plain, req, psum) <==> SkippedRowsAreZero(req, stale)
  {
    hide Skipped, IsReduced, RowIs, Obtained, Flat;
    forall b: Batch | InRequest(req, b)
      ensures !Skipped(req, b) ==> IsReduced(arith, WRAPPING, plain, req, psum, b)
      ensures Skipped(req, b) ==>
        (IsReduced(arith, WRAPPING, plain, req, psum, b)
         <==> forall c :: 0 <= c < req.featureSize ==> StaleRow(stale, req.Row(b), req.featureSize)[c] == 0)
    {
      if Skipped(req, b) {
        SkippedReduction(arith, plain, req, stale, psum, b);
      } else {
        VisitedRow(arith, plain, req, stale, psum, b);
      }
    }
  }

  /** The last lookup list of table `t`. */
  ghost function LastLength(req: Request, t: nat): nat
    requires req.Valid() && t < req.numTables
  {
    RowOf(req, Batch(t, req.miniBatch - 1));
    req.lengths[req.Row(Batch(t, req.miniBatch - 1))]
  }

  /** No batch of a table is skipped when its last lookup list is not empty. */
  lemma NothingSkipped(req: Request, b: Batch)
    requires InRequest(req, b) && LastLength(req, b.table) > 0
    ensures !Skipped(req, b)
  {
    hide Sum;
    var last := Batch(b.table, req.miniBatch - 1);
    RowOf(req, last);
    SumStep(req.lengths, req.Row(last));
    FlatStep(b.table, req.miniBatch, req.miniBatch - 1);
    assert req.Row(b) <= req.Row(last);
    SumSlice(req.lengths, req.Row(b), req.Row(last));
  }

  // ----- Tagged runs.

  lemma ObtainedRow(arith: Arith, plain: seq<Table>, req: Request, stale: Stale, psum: seq<nat>, b: Batch)
    requires InRequest(req, b) && |plain| == req.numTables
    requires RowIs(psum, req.Row(b), Obtained(arith, plain, req, stale, b))
    ensures req.Row(b) * req.featureSize + req.featureSize <= |psum|
    ensures RowAt(psum, req.featureSize, req.Row(b)) == Obtained(arith, plain, req, stale, b)
  {
    hide Skipped, Flat, Obtained;
    ObtainedWidth(arith, plain, req, stale, b);
  }

  /** The row check of a decrypted batch is its tag equation. */
  lemma RowCheckIsBatchCheck(arith: Arith, keys: Keys, rows: seq<nat>, plain: seq<Table>, req: Request, stale: Stale,
                             psum: seq<nat>, ctags: seq<nat>, etags: seq<nat>, b: Batch)
    requires InRequest(req, b) && |rows| == |plain| == req.numTables
    requires RowIs(psum, req.Row(b), Obtained(arith, plain, req, stale, b))
    requires TagReduced(RowMacs(keys, rows, req.featureSize, plain), req, ctags, b)
    requires TagServed(PadTags(keys.tag, rows, req.featureSize), req, etags, stale.tags, b)
    ensures RowChecks(keys, psum, req.featureSize, ctags, etags, req.Row(b)) <==>
            BatchPasses(keys, rows, plain, req, stale, b)
  {
    hide IndexList, Sum, Flat, WrappedSums, Mac, Validates, RowOffset, Engine.Block, Skipped, SumOfRows;
    var index, width := IndexList(req, b), req.featureSize;
    ObtainedRow(arith, plain, req, stale, psum, b);
    if Skipped(req, b) {
      SkippedIsEmpty(req, b);
      SumOfNothing();
      assert TagColumn(RowMacs(keys, rows, width, plain), b.table, index) == [];
    } else {
      var offsets := Offsets(rows, width, b.table, index);
      WrappedSumsAreReduced(arith, plain[b.table], index, width);
      assert TagColumn(RowMacs(keys, rows, width, plain), b.table, index) ==
             Macs(keys.tag, keys.base, plain[b.table], index, width, offsets);
      assert TagColumn(PadTags(keys.tag, rows, width), b.table, index) == TagPads(keys.tag, offsets);
    }
  }

  lemma SumOfNothing()
    ensures Sum([]) == 0
  {
  }

  /** A tagged run: every check is the batch's tag equation, and exactly the rows that pass are delivered. */
  ghost predicate Delivered(arith: Arith, keys: Keys, rows: seq<nat>, plain: seq<Table>, req: Request, stale: Stale,
                            psum: seq<nat>, before: seq<nat>, checks: seq<bool>, b: Batch)
    requires InRequest(req, b) && |rows| == |plain| == req.numTables
  {
    && req.Row(b) < |checks| && checks[req.Row(b)] == BatchPasses(keys, rows, plain, req, stale, b)
    && if checks[req.Row(b)] then RowIs(psum, req.Row(b), Obtained(arith, plain, req, stale, b))
       else RowUnchanged(psum, before, req.Row(b), req.featureSize)
  }

  ghost predicate AllPass(keys: Keys, rows: seq<nat>, plain: seq<Table>, req: Request, stale: Stale)
    requires req.Valid() && |rows| == |plain| == req.numTables
  {
    forall b: Batch :: InRequest(req, b) ==> BatchPasses(keys, rows, plain, req, stale, b)
  }

  ghost predicate AllDelivered(arith: Arith, keys: Keys, rows: seq<nat>, plain: seq<Table>, req: Request, stale: Stale,
                               psum: seq<nat>, before: seq<nat>, checks: seq<bool>)
    requires req.Valid() && |rows| == |plain| == req.numTables
  {
    forall b: Batch :: InRequest(req, b) ==> Delivered(arith, keys, rows, plain, req, stale, psum, before, checks, b)
  }

  lemma CopiedRowIs(user: seq<nat>, before: seq<nat>, augmented: seq<nat>, checks: seq<bool>, width: nat, r: nat,
                    row: seq<nat>)
    requires CopiedRow(user, before, augmented, checks, width, r) && |row| == width && RowIs(augmented, r, row)
    ensures if checks[r] then RowIs(user, r, row) else RowUnchanged(user, before, r, width)
  {
  }

  lemma DeliverAll(arith: Arith, keys: Keys, rows: seq<nat>, plain: seq<Table>, req: Request, stale: Stale,
                   user: seq<nat>, before: seq<nat>, augmented: seq<nat>, ctags: seq<nat>, etags: seq<nat>,
                   checks: seq<bool>)
    requires req.Valid() && |rows| == |plain| == req.numTables && AllObtained(arith, plain, req, stale, augmented)
    requires AllTagsReduced(RowMacs(keys, rows, req.featureSize, plain), req, ctags)
    requires AllTagsServed(PadTags(keys.tag, rows, req.featureSize), req, etags, stale.tags)
    requires ChecksBelow(keys, augmented, req.featureSize, ctags, etags, checks, |req.lengths|)
    requires CopiedBelow(user, before, augmented, checks, req.featureSize, |req.lengths|)
    ensures AllDelivered(arith, keys, rows, plain, req, stale, user, before, checks)
  {
    hide IndexList, Sum, Flat, TagReduced, TagServed, RowChecks;
    hide CopiedRow, Obtained, BatchPasses, RowIs, RowUnchanged, RowMacs, PadTags;
    forall b: Batch | InRequest(req, b)
      ensures Delivered(arith, keys, rows, plain, req, stale, user, before, checks, b)
    {
      RowOf(req, b);
      RowCheckIsBatchCheck(arith, keys, rows, plain, req, stale, augmented, ctags, etags, b);
      ObtainedWidth(arith, plain, req, stale, b);
      CopiedRowIs(user, before, augmented, checks, req.featureSize, req.Row(b), Obtained(arith, plain, req, stale, b));
    }
  }

  /** The status is true exactly when every batch passes. */
  lemma StatusIsAllPass(arith: Arith, keys: Keys, rows: seq<nat>, plain: seq<Table>, req: Request, stale: Stale,
                        psum: seq<nat>, before: seq<nat>, checks: seq<bool>)
    requires req.Valid() && |rows| == |plain| == req.numTables && |checks| == |req.lengths|
    requires AllDelivered(arith, keys, rows, plain, req, stale, psum, before, checks)
    ensures AllTrue(checks, |checks|) <==> AllPass(keys, rows, plain, req, stale)
  {
    hide Obtained, BatchPasses, Sum, Flat, RowIs, RowUnchanged;
    forall b: Batch | InRequest(req, b)
      ensures req.Row(b) < |checks| && checks[req.Row(b)] == BatchPasses(keys, rows, plain, req, stale, b)
    {
      assert Delivered(arith, keys, rows, plain, req, stale, psum, before, checks, b);
    }
    if AllPass(keys, rows, plain, req, stale) {
      forall r | 0 <= r < |checks|
        ensures checks[r]
      {
        var t, i := FlatSurjective(req.miniBatch, req.numTables, r);
        assert InRequest(req, Batch(t, i)) && req.Row(Batch(t, i)) == r;
      }
    }
  }

  /** No column of any batch overflows 32 bits. */
  ghost predicate NoBatchOverflows(plain: seq<Table>, req: Request)
    requires req.Valid() && |plain| == req.numTables
  {
    forall b: Batch :: InRequest(req, b) ==> NoOverflow(plain[b.table], IndexList(req, b), req.featureSize)
  }

  /** The host share held zeros. */
  ghost predicate AllZero(stale: Stale) {
    (forall x :: 0 <= x < |stale.rows| ==> stale.rows[x] == 0) && forall r :: 0 <= r < |stale.tags| ==>
      stale.tags[r] == 0
  }

  /** The buffers of a new executor. */
  ghost function FreshShare(rows: nat, width: nat): Stale {
    Stale(seq(rows * width, x => 0), seq(rows, r => 0))
  }

  /** A row of zeros with a zero tag passes, whatever the keys. */
  lemma ZeroPasses(keys: Keys, stale: Stale, r: nat, width: nat)
    requires AllZero(stale)
    ensures Validates(keys.tag, keys.base, StaleRow(stale, r, width), 0, StaleTag(stale, r))
  {
    DotOfZeros(keys.tag.Block(0x01, keys.base), StaleRow(stale, r, width));
  }

  /**
   * Completeness for a whole request: without overflow, on a zeroed host share or with nothing skipped, an honest
   * device makes every check pass and every row arrive, whatever the keys.
   */
  lemma NoOverflowDeliversAll(arith: Arith, keys: Keys, rows: seq<nat>, plain: seq<Table>, req: Request, stale: Stale,
                              psum: seq<nat>, before: seq<nat>, checks: seq<bool>)
    requires req.Valid() && |rows| == |plain| == req.numTables && NoBatchOverflows(plain, req)
    requires AllZero(stale) || forall b: Batch :: InRequest(req, b) ==> !Skipped(req, b)
    requires AllDelivered(arith, keys, rows, plain, req, stale, psum, before, checks)
    ensures AllPass(keys, rows, plain, req, stale) && AllReduced(arith, WRAPPING, plain, req, psum)
  {
    hide Sum, Flat, NoOverflow, HonestCheck, IndexList, Validates;
    hide Skipped, Obtained, StaleRow, RowIs, RowUnchanged, AllReduced;
    forall b: Batch | InRequest(req, b)
      ensures BatchPasses(keys, rows, plain, req, stale, b)
      ensures RowIs(psum, req.Row(b), Obtained(arith, plain, req, stale, b))
    {
      if Skipped(req, b) {
        ZeroPasses(keys, stale, req.Row(b), req.featureSize);
      } else {
        var index := IndexList(req, b);
        NoOverflowPasses(keys.tag, keys.base, plain[b.table], index, req.featureSize,
                         Offsets(rows, req.featureSize, b.table, index));
      }
      assert Delivered(arith, keys, rows, plain, req, stale, psum, before, checks, b);
    }
    ReducedIffStaleZero(arith, plain, req, stale, psum);
    ZeroRows(req, stale);
  }

  lemma ZeroRows(req: Request, stale: Stale)
    requires req.Valid() && (AllZero(stale) || forall b: Batch :: InRequest(req, b) ==> !Skipped(req, b))
    ensures SkippedRowsAreZero(req, stale)
  {
    hide Skipped, Flat;
  }

  // ----- The run.

  /**
   * `run_sls` with the CPU as the device: `data` and `tagData` are what the preprocessor wrote, `epsum` and `etags`
   * the executor's buffers for the host share, which outlive a run.
   */
  method RunSls(arith: Arith, keys: Keys, ghost input: seq<nat>, ghost plain: seq<Table>, ghost req: Request,
                rows: seq<nat>, offsets: seq<nat>, data: seq<nat>, tagData: seq<nat>, lengths: seq<nat>,
                indices: seq<nat>, miniBatch: nat, width: nat, withTag: bool, epsum: array<nat>, etags: array<nat>,
                psum: array<nat>, checks: array<bool>)
    returns (status: bool)
    requires req == Request(lengths, indices, miniBatch, |rows|, width) && req.Valid() && IndicesInTables(req, rows)
    requires |plain| == |rows| == |offsets| && AllStored(input, width, rows, plain) && width % OTP_ELEMENTS == 0
    requires Encoded(keys, input, width, withTag, data, tagData, Sum(rows))
    requires forall t :: 0 <= t < |rows| ==> offsets[t] == RowOffset(rows, width, t, 0)
    requires psum.Length == epsum.Length == |lengths| * width
    requires withTag ==> checks.Length == etags.Length == |lengths|
    requires epsum != etags && psum != epsum && psum != etags
    modifies psum, checks, epsum, etags
    ensures !withTag ==> status && AllObtained(arith, plain, req, old(Stale(epsum[..], etags[..])), psum[..])
    ensures withTag ==>
      AllDelivered(arith, keys, rows, plain, req, old(Stale(epsum[..], etags[..])), psum[..], old(psum[..]), checks[..])
    ensures withTag ==> (status <==> AllPass(keys, rows, plain, req, old(Stale(epsum[..], etags[..]))))
    ensures AllServed(arith, PadTables(keys.data, rows, width), req, epsum[..], old(epsum[..]))
    ensures withTag ==> AllTagsServed(PadTags(keys.tag, rows, width), req, etags[..], old(etags[..]))
  {
    hide Sum, Flat, Encoded, AllStored, IndicesInTables, AllReduced;
    hide AllTagsReduced, AllServed, AllTagsServed, RowOffset, AllDelivered, AllPass;
    hide AllObtained, SharesAdded;
    LoadedRowsAreStored(keys, input, rows, width, withTag, data, tagData, plain);
    ghost var cipher, stale := CipherTables(keys.data, rows, width, plain), Stale(epsum[..], etags[..]);
    PerformSls(arith, keys, rows, req, offsets, lengths, indices, miniBatch, width, withTag, epsum, etags);
    FlatIsProduct(|lengths|, width);
    if withTag {
      status := RunTagged(arith, keys, input, plain, req, rows, data, tagData, epsum[..], etags[..], lengths, indices,
                          miniBatch,
                          width, psum, checks, stale);
    } else {
      Compute(arith, WRAPPING, cipher, req, data, rows, indices, lengths, width, miniBatch, psum);
      ghost var shares := psum[..];
      status := DecryptPsum(keys, psum, epsum[..], width, |lengths|, [], [], checks);
      DecryptedIsObtained(arith, keys, rows, plain, req, stale, shares, epsum[..], psum[..]);
    }
  }

  /** The tagged branch: the device fills an internal buffer, and only checked rows are copied out. */
  method RunTagged(arith: Arith, keys: Keys, ghost input: seq<nat>, ghost plain: seq<Table>, ghost req: Request,
                   rows: seq<nat>, data: seq<nat>, tagData: seq<nat>, epsum: seq<nat>, etags: seq<nat>,
                   lengths: seq<nat>, indices: seq<nat>, miniBatch: nat, width: nat, psum: array<nat>,
                   checks: array<bool>, ghost stale: Stale)
    returns (status: bool)
    requires req == Request(lengths, indices, miniBatch, |rows|, width) && req.Valid() && IndicesInTables(req, rows)
    requires |plain| == |rows| && AllStored(input, width, rows, plain)
    requires Encoded(keys, input, width, true, data, tagData, Sum(rows))
    requires AllStored(data, width, rows, CipherTables(keys.data, rows, width, plain))
    requires AllServed(arith, PadTables(keys.data, rows, width), req, epsum, stale.rows) && |epsum| == |lengths| * width
    requires AllTagsServed(PadTags(keys.tag, rows, width), req, etags, stale.tags) && |etags| == |lengths|
    requires psum.Length == |lengths| * width && checks.Length == |lengths|
    modifies psum, checks
    ensures AllDelivered(arith, keys, rows, plain, req, stale, psum[..], old(psum[..]), checks[..])
    ensures status <==> AllPass(keys, rows, plain, req, stale)
  {
    hide Sum, Flat, Encoded, AllStored, IndicesInTables;
    hide AllReduced, AllTagsReduced, AllServed, AllTagsServed, AllDelivered, AllPass;
    hide ChecksBelow, CopiedBelow, SharesAdded, AllObtained;
    var cpsum, ctags := new nat[|lengths| * width], new nat[|lengths|];
    FlatIsProduct(|lengths|, width);
    Compute(arith, WRAPPING, CipherTables(keys.data, rows, width, plain), req, data, rows, indices, lengths, width,
            miniBatch, cpsum);
    LoadedTagsAreStored(keys, input, rows, width, data, tagData, plain);
    ComputeTags(RowMacs(keys, rows, width, plain), req, tagData, rows, indices, lengths, miniBatch, width, ctags);
    ghost var shares := cpsum[..];
    status := DecryptPsum(keys, cpsum, epsum, width, |lengths|, ctags[..], etags, checks);
    DecryptedIsObtained(arith, keys, rows, plain, req, stale, shares, epsum, cpsum[..]);
    NothingChecked(keys, cpsum[..], width, ctags[..], etags, checks[..]);
    MakeUserPsum(psum, cpsum[..], checks[..], width, |lengths|);
    DeliverAll(arith, keys, rows, plain, req, stale, psum[..], old(psum[..]), cpsum[..], ctags[..], etags, checks[..]);
    StatusIsAllPass(arith, keys, rows, plain, req, stale, psum[..], old(psum[..]), checks[..]);
  }

  /**
   * From plain tables to the user's sums: encrypt and load, then the first run of the executor. Its buffers are fresh,
   * so for any lookup lists and a row width that `Load` accepts the result is the reference reduction.
   */
  method LoadAndRun(arith: Arith, keys: Keys, input: seq<nat>, ghost plain: seq<Table>, ghost req: Request,
                    rows: seq<nat>, lengths: seq<nat>, indices: seq<nat>, miniBatch: nat, width: nat, withTag: bool,
                    psum: array<nat>, checks: array<bool>)
    returns (status: bool)
    requires req == Request(lengths, indices, miniBatch, |rows|, width) && req.Valid() && IndicesInTables(req, rows)
    requires |plain| == |rows| && AllStored(input, width, rows, plain) && Sum(rows) * width <= |input|
    requires width % OTP_ELEMENTS == 0 && 4 * width <= BUFFER_SIZE
    requires psum.Length == |lengths| * width && (withTag ==> checks.Length == |lengths|)
    modifies psum, checks
    ensures !withTag || NoBatchOverflows(plain, req) ==> status && AllReduced(arith, WRAPPING, plain, req, psum[..])
    ensures withTag ==> AllDelivered(arith, keys, rows, plain, req, FreshShare(|lengths|, width), psum[..],
                                     old(psum[..]), checks[..])
    ensures withTag ==> (status <==> AllPass(keys, rows, plain, req, FreshShare(|lengths|, width)))
  {
    hide Sum, Flat, Encoded, AllStored, IndicesInTables, AllReduced;
    hide RowOffset, AllDelivered, AllPass, NoBatchOverflows, AllObtained, Skipped;
    var loaded := Load(keys, input, rows, width, withTag);
    var epsum := new nat[|lengths| * width](i => 0);
    var etags := new nat[if withTag then |lengths| else 0](i => 0);
    ghost var stale := Stale(epsum[..], etags[..]);
    assert AllZero(stale) && (withTag ==> stale == FreshShare(|lengths|, width));
    status := RunSls(arith, keys, input, plain, req, rows, loaded.offsets, loaded.out, loaded.tags, lengths, indices,
                     miniBatch, width,
                     withTag, epsum, etags, psum, checks);
    ghost var complete := withTag && NoBatchOverflows(plain, req);
    if complete {
      NoOverflowDeliversAll(arith, keys, rows, plain, req, stale, psum[..], old(psum[..]), checks[..]);
    }
    if !withTag {
      ReducedIffStaleZero(arith, plain, req, stale, psum[..]);
      ZeroRows(req, stale);
    }
  }
}
