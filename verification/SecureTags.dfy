/** Verification tags: the linear checksum of a row and its check on a reduced row (secure/encryption/sls_mac). */
module SecureTags {
  import opened SeqMath
  import opened CpuSls
  import opened SecureEncryption

  // Largest 127-bit number.
  const Q: nat := 0x7FFF_FFFF_FFFF_FFFF_FFFF_FFFF_FFFF_FFFF

  /** The weights are squared modulo 2^128 and then reduced modulo Q, one element after the other. */
  function NextWeight(s: nat): nat {
    s * s % TAG % Q
  }

  ghost function Weight(s: nat, j: nat): nat {
    if j == 0 then s else NextWeight(Weight(s, j - 1))
  }

  /** The weighted sum of a row, without wrapping. */
  ghost function Dot(s: nat, row: seq<nat>): nat {
    if row == [] then 0
    else Dot(s, row[..|row| - 1]) + Weight(s, |row| - 1) * row[|row| - 1]
  }

  ghost function Checksum(v: Engine, base: nat, row: seq<nat>): nat {
    Dot(v.Block(0x01, base), row) % TAG
  }

  ghost function Mac(v: Engine, base: nat, row: seq<nat>, offset: nat): nat {
    (Checksum(v, base, row) - v.Block(0x10, offset)) % TAG
  }

  ghost predicate Validates(v: Engine, base: nat, row: seq<nat>, computed: nat, generated: nat) {
    Checksum(v, base, row) == (computed + generated) % TAG
  }

  // ----- What the engine is asked for.

  /** An engine whose blocks tell what they are for. */
  const ECHO := Engine(7, (prefix, version, address) => prefix + 0x100 * version + 0x1_0000 * address)

  /**
   * Data pads use prefix 0x00 and the address of the block, the seed of the checksum prefix 0x01 and the base, tag pads
   * prefix 0x10 and the offset of the row; all use the table version.
   */
  lemma Prefixes()
    ensures ECHO.PadAt(0x20, 4) == 0x30_0700
    ensures Checksum(ECHO, 2, [1]) == 0x2_0701
    ensures Mac(ECHO, 2, [1], 1) == 0x2_0701 - 0x1_0710
  {
    assert [1][..0] == [];
    assert Dot(0x2_0701, [1]) == 0x2_0701;
  }

  // ----- The weights.

  ghost function Power(s: nat, n: nat): nat {
    if n == 0 then 1 else s * Power(s, n - 1)
  }

  lemma Associative(x: nat, y: nat, z: nat)
    ensures x * (y * z) == x * y * z
  {
  }

  lemma {:induction false} PowerAdds(s: nat, m: nat, n: nat)
    ensures Power(s, m + n) == Power(s, m) * Power(s, n)
  {
    if m > 0 {
      PowerAdds(s, m - 1, n);
      Associative(s, Power(s, m - 1), Power(s, n));
    }
  }

  lemma SquareGrows(x: nat)
    ensures x <= x * x
  {
  }

  lemma SquareIsNext(x: nat)
    requires x * x < Q
    ensures NextWeight(x) == x * x
  {
  }

  /** As long as nothing is reduced, the weights are the repeated squares of the seed. */
  lemma {:induction false} WeightIsPower(s: nat, j: nat)
    requires Power(s, Pow2(j)) < Q
    ensures Weight(s, j) == Power(s, Pow2(j))
  {
    if j == 0 {
      assert Power(s, 1) == s * Power(s, 0);
    } else {
      hide Power, NextWeight;
      var x := Power(s, Pow2(j - 1));
      PowerAdds(s, Pow2(j - 1), Pow2(j - 1));
      SquareGrows(x);
      WeightIsPower(s, j - 1);
      SquareIsNext(x);
    }
  }

  /** Squares are first reduced modulo 2^128 and then modulo Q. */
  lemma WeightIsReduced()
    ensures Weight(3, 0) == 3 && Weight(3, 1) == 9 && Weight(3, 2) == 81
    ensures Weight(0xFFFF_FFFF_FFFF_FFFF, 1) == 0x7FFF_FFFF_FFFF_FFFE_0000_0000_0000_0002
    ensures Weight(0x1_0000_0000_0000_0000, 1) == 0
  {
  }

  /** A checksum without reduction: 3 * 1 + 9 * 10 + 81 * 100. */
  lemma ChecksumOfThree(v: Engine, base: nat)
    requires v.Block(0x01, base) == 3
    ensures Checksum(v, base, [1, 10, 100]) == 8193
  {
    WeightIsReduced();
    assert [1, 10, 100][..2] == [1, 10] && [1, 10][..1] == [1] && [1][..0] == [];
    assert Dot(3, [1]) == 3 && Dot(3, [1, 10]) == 93;
  }

  ghost function Swapped(row: seq<nat>, i: nat, j: nat): seq<nat>
    requires i < |row| && j < |row|
  {
    row[i := row[j]][j := row[i]]
  }

  lemma {:induction false} DotUpdate(s: nat, row: seq<nat>, i: nat, x: nat)
    requires i < |row|
    ensures Dot(s, row[i := x]) == Dot(s, row) + Weight(s, i) * x - Weight(s, i) * row[i]
  {
    hide Weight;
    var n := |row| - 1;
    if i < n {
      assert row[i := x][..n] == row[..n][i := x];
      DotUpdate(s, row[..n], i, x);
    } else {
      assert row[i := x][..n] == row[..n];
    }
  }

  /** What exchanging two elements does to the weighted sum. */
  lemma DotOfSwapped(s: nat, row: seq<nat>, i: nat, j: nat)
    requires i < |row| && j < |row| && i != j
    ensures Dot(s, row) - Dot(s, Swapped(row, i, j)) == (Weight(s, i) as int - Weight(s, j)) * (row[i] as int - row[j])
  {
    hide Weight, Dot;
    DotUpdate(s, row, i, row[j]);
    DotUpdate(s, row[i := row[j]], j, row[i]);
    Expanded(Weight(s, i), Weight(s, j), row[i], row[j]);
  }

  lemma Expanded(a: int, b: int, x: int, y: int)
    ensures (a - b) * (x - y) == a * x - a * y - b * x + b * y
  {
  }

  lemma SameRemainder(x: int, y: int, m: int)
    requires m > 0
    ensures x % m == y % m <==> (x - y) % m == 0
  {
    var p, q := x / m, y / m;
    assert x == p * m + x % m && y == q * m + y % m;
    assert x - y == (p - q) * m + (x % m - y % m);
    if (x - y) % m == 0 {
      var k := (x - y) / m;
      assert (k - (p - q)) * m == x % m - y % m;
      MultipleInside(k - (p - q), m, x % m - y % m);
    } else if x % m == y % m {
      DivUniqueInt(x - y, m, p - q);
    }
  }

  lemma MultipleInside(k: int, m: int, d: int)
    requires m > 0 && k * m == d && -m < d < m
    ensures d == 0
  {
    assert k >= 1 ==> k * m >= m;
    assert k <= -1 ==> k * m <= -m;
  }

  lemma DivUniqueInt(x: int, m: int, k: int)
    requires m > 0 && x == k * m
    ensures x % m == 0
  {
    var q, r := x / m, x % m;
    assert x == q * m + r;
    assert (k - q) * m == r;
    MultipleInside(k - q, m, r);
  }

  /**
   * A row and the row with two elements exchanged have the same checksum if and only if the difference of the weights
   * times the difference of the elements vanishes modulo 2^128.
   */
  lemma SwapPassesIff(v: Engine, base: nat, row: seq<nat>, i: nat, j: nat)
    requires i < |row| && j < |row| && i != j
    ensures var s := v.Block(0x01, base);
      Checksum(v, base, row) == Checksum(v, base, Swapped(row, i, j))
      <==> (Weight(s, i) as int - Weight(s, j)) * (row[i] as int - row[j]) % TAG == 0
  {
    hide Weight, Dot;
    var s := v.Block(0x01, base);
    DotOfSwapped(s, row, i, j);
    SameRemainder(Dot(s, row), Dot(s, Swapped(row, i, j)), TAG);
  }

  /** The weights of seed 2: seven different powers, then zeros. */
  lemma {:induction false} WeightOfTwo(j: nat)
    ensures 6 < j ==> Weight(2, j) == 0
    ensures Weight(2, 0) == 2 && Weight(2, 1) == 4 && Weight(2, 2) == 16 && Weight(2, 3) == 256
    ensures Weight(2, 4) == 0x1_0000 && Weight(2, 5) == 0x1_0000_0000 && Weight(2, 6) == 0x1_0000_0000_0000_0000
  {
    hide NextWeight;
    NextOfPowers();
    assert Weight(2, 1) == 4 && Weight(2, 2) == 16 && Weight(2, 3) == 256;
    assert Weight(2, 4) == 0x1_0000 && Weight(2, 5) == 0x1_0000_0000 && Weight(2, 6) == 0x1_0000_0000_0000_0000;
    assert Weight(2, 7) == 0;
    if j > 7 {
      WeightOfTwo(j - 1);
    }
  }

  lemma NextOfPowers()
    ensures NextWeight(2) == 4 && NextWeight(4) == 16 && NextWeight(16) == 256 && NextWeight(256) == 0x1_0000
    ensures NextWeight(0x1_0000) == 0x1_0000_0000 && NextWeight(0x1_0000_0000) == 0x1_0000_0000_0000_0000
    ensures NextWeight(0x1_0000_0000_0000_0000) == 0 && NextWeight(0) == 0
  {
  }

  /** With seed 2 no exchange of one of the first seven elements with an unequal one passes. */
  lemma SwapIsSeen(v: Engine, base: nat, row: seq<nat>, i: nat, j: nat)
    requires v.Block(0x01, base) == 2 && i < 7 && i < j < |row|
    requires row[i] < WORD && row[j] < WORD && row[i] != row[j]
    ensures Checksum(v, base, row) != Checksum(v, base, Swapped(row, i, j))
  {
    hide Weight, Checksum;
    SwapPassesIff(v, base, row, i, j);
    WeightOfTwo(j);
    var w, d := Weight(2, i) as int - Weight(2, j), row[i] as int - row[j];
    SmallProduct(w, d);
  }

  lemma SmallProduct(w: int, d: int)
    requires w != 0 && d != 0 && -0x1_0000_0000_0000_0000 <= w <= 0x1_0000_0000_0000_0000 && d < WORD && -d < WORD
    ensures w * d % TAG != 0
  {
    var a, b := if w < 0 then -w else w, if d < 0 then -d else d;
    MulMonotone(a, 0x1_0000_0000_0000_0000, b);
    MulMonotone(1, a, b);
    assert w * d == a * b || w * d == -(a * b);
    if w * d % TAG == 0 {
      MultipleInside(w * d / TAG, TAG, w * d);
    }
  }

  lemma CongruentTag(x: int, y: int, k: int)
    requires x == y + k * TAG
    ensures x % TAG == y % TAG
  {
  }

  method LinearChecksum(v: Engine, base: nat, row: seq<nat>) returns (sum: nat)
    ensures sum == Checksum(v, base, row)
  {
    hide NextWeight;
    var s := v.Block(0x01, base);
    ghost var s0 := s;
    sum := 0;
    for j := 0 to |row|
      invariant s == Weight(s0, j) && sum == Dot(s0, row[..j]) % TAG
    {
      ghost var before := Dot(s0, row[..j]);
      assert row[..j + 1][..j] == row[..j];
      CongruentTag(sum + s * row[j], before + s * row[j], -(before / TAG));
      sum := (sum + s * row[j]) % TAG;
      s := NextWeight(s);
    }
    assert row[..|row|] == row;
  }

  method GenerateMac(v: Engine, base: nat, row: seq<nat>, offset: nat) returns (tag: nat)
    ensures tag == Mac(v, base, row, offset)
  {
    var sum := LinearChecksum(v, base, row);
    tag := (sum - v.Block(0x10, offset)) % TAG;
  }

  method ValidatePsum(v: Engine, base: nat, row: seq<nat>, computed: nat, generated: nat) returns (ok: bool)
    ensures ok <==> Validates(v, base, row, computed, generated)
  {
    var sum := LinearChecksum(v, base, row);
    ok := sum == (computed + generated) % TAG;
  }

  /** Sum of 128-bit tags, as `on_tag` and the pad reduction accumulate them. */
  method SumTags(values: seq<nat>) returns (sum: nat)
    ensures sum == Sum(values) % TAG
  {
    sum := 0;
    for j := 0 to |values|
      invariant sum == Sum(values[..j]) % TAG
    {
      SumStep(values, j);
      CongruentTag(sum + values[j], Sum(values[..j]) + values[j], -(Sum(values[..j]) / TAG));
      sum := (sum + values[j]) % TAG;
    }
    assert values[..|values|] == values;
  }

  // ----- Linearity of the checksum.

  lemma Distribute(w: nat, x: nat, y: nat, k: nat, m: nat)
    requires x == y + m * k
    ensures w * x == w * y + m * (w * k)
  {
    calc {
      w * x;
      w * y + w * (m * k);
      { assert w * (m * k) == m * (w * k); }
      w * y + m * (w * k);
    }
  }

  /** The weighted sum is linear. */
  lemma {:induction false} DotLinear(s: nat, row: seq<nat>, part: seq<nat>, rest: seq<nat>, m: nat)
    requires |row| == |part| == |rest|
    requires forall c :: 0 <= c < |row| ==> row[c] == part[c] + m * rest[c]
    ensures Dot(s, row) == Dot(s, part) + m * Dot(s, rest)
  {
    hide Weight;
    if row != [] {
      var n := |row| - 1;
      DotLinear(s, row[..n], part[..n], rest[..n], m);
      Distribute(Weight(s, n), row[n], part[n], rest[n], m);
      assert m * (Dot(s, rest[..n]) + Weight(s, n) * rest[n]) == m * Dot(s, rest[..n]) + m * (Weight(s, n) * rest[n]);
    }
  }

  lemma {:induction false} DotOfZeros(s: nat, row: seq<nat>)
    requires forall c :: 0 <= c < |row| ==> row[c] == 0
    ensures Dot(s, row) == 0
  {
    if row != [] {
      DotOfZeros(s, row[..|row| - 1]);
      assert Weight(s, |row| - 1) * 0 == 0;
    }
  }

  ghost function TableRow(table: Table, r: nat, width: nat): seq<nat> {
    seq(width, c requires 0 <= c => table(r, c))
  }

  /** Column sums without wrapping. */
  ghost function ColumnSums(table: Table, index: seq<nat>, width: nat): seq<nat> {
    seq(width, c requires 0 <= c => Sum(ColumnOf(table, index, c)))
  }

  /** How often each column wraps. */
  ghost function Carries(table: Table, index: seq<nat>, width: nat): seq<nat> {
    seq(width, c requires 0 <= c => Sum(ColumnOf(table, index, c)) / WORD)
  }

  ghost predicate NoOverflow(table: Table, index: seq<nat>, width: nat) {
    forall c :: 0 <= c < width ==> ColumnSums(table, index, width)[c] < WORD
  }

  ghost function RowDots(s: nat, table: Table, index: seq<nat>, width: nat): seq<nat> {
    seq(|index|, j requires 0 <= j < |index| => Dot(s, TableRow(table, index[j], width)))
  }

  /** The weighted sum of the column sums is the sum of the rows' weighted sums. */
  lemma {:induction false} DotOfColumnSums(s: nat, table: Table, index: seq<nat>, width: nat)
    ensures Dot(s, ColumnSums(table, index, width)) == Sum(RowDots(s, table, index, width))
  {
    hide Dot;
    if index == [] {
      DotOfZeros(s, ColumnSums(table, index, width));
    } else {
      var n := |index| - 1;
      DotOfColumnSums(s, table, index[..n], width);
      forall c | 0 <= c < width
        ensures ColumnSums(table, index, width)[c] == ColumnSums(table, index[..n], width)[c] +
                1 * TableRow(table, index[n], width)[c]
      {
        assert ColumnOf(table, index, c)[..n] == ColumnOf(table, index[..n], c);
      }
      DotLinear(s, ColumnSums(table, index, width), ColumnSums(table, index[..n], width),
                TableRow(table, index[n], width), 1);
      assert RowDots(s, table, index, width)[..n] == RowDots(s, table, index[..n], width);
    }
  }

  /** Tag shares: sums of values less pads, plus sums of pads. */
  lemma {:induction false} TagSharesAddUp(values: seq<nat>, pads: seq<nat>, macs: seq<nat>)
    requires |values| == |pads| == |macs|
    requires forall j :: 0 <= j < |values| ==> macs[j] == (values[j] % TAG - pads[j]) % TAG
    ensures (Sum(macs) % TAG + Sum(pads) % TAG) % TAG == Sum(values) % TAG
  {
    if values != [] {
      var n := |values| - 1;
      TagSharesAddUp(values[..n], pads[..n], macs[..n]);
      OneMoreTag(Sum(macs[..n]), Sum(pads[..n]), Sum(values[..n]), values[n], pads[n], macs[n]);
    }
  }

  lemma AddTags(x: nat, y: nat)
    ensures (x % TAG + y % TAG) % TAG == (x + y) % TAG
  {
    CongruentTag(x % TAG + y % TAG, x + y, -(x / TAG) - y / TAG);
  }

  lemma OneMoreTag(macs: nat, pads: nat, values: nat, value: nat, pad: nat, mac: nat)
    requires (macs % TAG + pads % TAG) % TAG == values % TAG && mac == (value % TAG - pad) % TAG
    ensures ((macs + mac) % TAG + (pads + pad) % TAG) % TAG == (values + value) % TAG
  {
    AddTags(macs, pads);
    AddTags(macs + mac, pads + pad);
    var k := (macs + pads) / TAG - values / TAG - value / TAG - (value % TAG - pad) / TAG;
    CongruentTag(macs + mac + pads + pad, values + value, k);
  }

  // ----- What the check says of an honest device.

  ghost function Macs(v: Engine, base: nat, table: Table, index: seq<nat>, width: nat, offsets: seq<nat>): seq<nat>
    requires |offsets| == |index|
  {
    seq(|index|, j requires 0 <= j < |index| => Mac(v, base, TableRow(table, index[j], width), offsets[j]))
  }

  ghost function TagPads(v: Engine, offsets: seq<nat>): seq<nat> {
    seq(|offsets|, j requires 0 <= j < |offsets| => v.Block(0x10, offsets[j]))
  }

  /** The wrapped column sums, checked against the summed tags and the summed tag pads. */
  ghost predicate HonestCheck(v: Engine, base: nat, table: Table, index: seq<nat>, width: nat, offsets: seq<nat>)
    requires |offsets| == |index|
  {
    Validates(v, base, WrappedSums(table, index, width), Sum(Macs(v, base, table, index, width, offsets)) % TAG,
              Sum(TagPads(v, offsets)) % TAG)
  }

  ghost function WrappedSums(table: Table, index: seq<nat>, width: nat): seq<nat> {
    seq(width, c requires 0 <= c => Sum(ColumnOf(table, index, c)) % WORD)
  }

  lemma WrappedSumsAreReduced(arith: Arith, table: Table, index: seq<nat>, width: nat)
    ensures WrappedSums(table, index, width) == SumOfRows(arith, WRAPPING, table, index, width)
  {
    forall c | 0 <= c < width
      ensures WrappedSums(table, index, width)[c] == SumOfRows(arith, WRAPPING, table, index, width)[c]
    {
      FoldIsSum(arith, ColumnOf(table, index, c));
    }
  }

  lemma TagSumIsDot(v: Engine, base: nat, table: Table, index: seq<nat>, width: nat,
                    offsets: seq<nat>)
    requires |offsets| == |index|
    ensures (Sum(Macs(v, base, table, index, width, offsets)) % TAG + Sum(TagPads(v, offsets)) % TAG) % TAG
         == Dot(v.Block(0x01, base), ColumnSums(table, index, width)) % TAG
  {
    hide Dot, Engine.Block, TableRow, ColumnSums, Sum;
    var s := v.Block(0x01, base);
    DotOfColumnSums(s, table, index, width);
    TagSharesAddUp(RowDots(s, table, index, width), TagPads(v, offsets), Macs(v, base, table, index, width, offsets));
  }

  /** The check holds exactly when the weighted carries vanish modulo 2^128. */
  lemma CheckIff(v: Engine, base: nat, table: Table, index: seq<nat>, width: nat, offsets: seq<nat>)
    requires |offsets| == |index|
    ensures HonestCheck(v, base, table, index, width, offsets)
       <==> WORD * Dot(v.Block(0x01, base), Carries(table, index, width)) % TAG == 0
  {
    hide Dot, Engine.Block, Sum, Macs, TagPads;
    var s := v.Block(0x01, base);
    var sums, wrapped, carries := ColumnSums(table, index, width), WrappedSums(table, index, width),
      Carries(table, index, width);
    TagSumIsDot(v, base, table, index, width, offsets);
    DotLinear(s, sums, wrapped, carries, WORD);
    EqualModTag(Dot(s, wrapped), WORD * Dot(s, carries));
  }

  lemma EqualModTag(x: nat, d: nat)
    ensures x % TAG == (x + d) % TAG <==> d % TAG == 0
  {
    if x % TAG == (x + d) % TAG {
      CongruentTag(d, 0, (x + d) / TAG - x / TAG);
    }
    if d % TAG == 0 {
      CongruentTag(x + d, x, d / TAG);
    }
  }

  /** Completeness: without overflow the check holds, whatever the key. */
  lemma NoOverflowPasses(v: Engine, base: nat, table: Table, index: seq<nat>, width: nat,
                         offsets: seq<nat>)
    requires |offsets| == |index| && NoOverflow(table, index, width)
    ensures HonestCheck(v, base, table, index, width, offsets)
  {
    hide HonestCheck, Sum;
    CheckIff(v, base, table, index, width, offsets);
    forall c | 0 <= c < width
      ensures Carries(table, index, width)[c] == 0
    {
      assert ColumnSums(table, index, width)[c] < WORD;
    }
    DotOfZeros(v.Block(0x01, base), Carries(table, index, width));
  }

  // ----- The converse: one key on which every overflow shows.

  ghost function OneKey(): Engine {
    Engine(0, (prefix, version, address) => 1)
  }

  lemma {:induction false} WeightOne(j: nat)
    ensures Weight(1, j) == 1
  {
    hide NextWeight;
    if j > 0 {
      WeightOne(j - 1);
      NextOfOne();
    }
  }

  lemma NextOfOne()
    ensures NextWeight(1) == 1
  {
    var one: nat := 1;
    assert one * one == 1;
  }

  lemma {:induction false} DotOne(row: seq<nat>)
    ensures Dot(1, row) == Sum(row)
  {
    if row != [] {
      DotOne(row[..|row| - 1]);
      WeightOne(|row| - 1);
    }
  }

  lemma {:induction false} SumBounds(s: seq<nat>, bound: nat)
    requires forall j :: 0 <= j < |s| ==> s[j] <= bound
    ensures Sum(s) <= |s| * bound
  {
    if s != [] {
      SumBounds(s[..|s| - 1], bound);
      assert |s| * bound == (|s| - 1) * bound + bound;
    }
  }

  lemma ElementBelowSum(s: seq<nat>, j: nat)
    requires j < |s|
    ensures s[j] <= Sum(s)
  {
    SumStep(s, j);
    SumMonotone(s, j + 1, |s|);
  }

  lemma CarryBound(table: Table, index: seq<nat>, width: nat, c: nat)
    requires c < width && forall r, k :: table(r, k) < WORD
    ensures Carries(table, index, width)[c] <= |index|
  {
    SumBounds(ColumnOf(table, index, c), WORD);
  }

  /**
   * The check holds for every pad function if and only if no column sum overflows. The bounds are those of
   * the 32-bit lengths and row widths, and of the 32-bit entries.
   */
  lemma PassesForEveryKeyIff(base: nat, table: Table, index: seq<nat>, width: nat, offsets: seq<nat>)
    requires |offsets| == |index| < WORD && width < WORD && forall r, c :: table(r, c) < WORD
    ensures (forall v: Engine :: HonestCheck(v, base, table, index, width, offsets)) <==>
            NoOverflow(table, index, width)
  {
    hide HonestCheck, NoOverflow;
    if NoOverflow(table, index, width) {
      forall v: Engine
        ensures HonestCheck(v, base, table, index, width, offsets)
      {
        NoOverflowPasses(v, base, table, index, width, offsets);
      }
    } else {
      OverflowShows(base, table, index, width, offsets);
    }
  }

  lemma OverflowShows(base: nat, table: Table, index: seq<nat>, width: nat, offsets: seq<nat>)
    requires |offsets| == |index| < WORD && width < WORD && forall r, c :: table(r, c) < WORD
    requires !NoOverflow(table, index, width)
    ensures !HonestCheck(OneKey(), base, table, index, width, offsets)
  {
    hide HonestCheck, Sum, Dot;
    var carries := Carries(table, index, width);
    CheckIff(OneKey(), base, table, index, width, offsets);
    DotOne(carries);
    forall c | 0 <= c < width
      ensures carries[c] <= |index|
    {
      CarryBound(table, index, width, c);
    }
    SumBounds(carries, |index|);
    MulMonotone(width, WORD, |index|);
    var c :| 0 <= c < width && ColumnSums(table, index, width)[c] >= WORD;
    ElementBelowSum(carries, c);
  }
}
