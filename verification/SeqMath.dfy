/** Sums over sequences of lengths and flat two-level indexing, used by the whole SLS pipeline. */
module SeqMath {

  function Sum(s: seq<nat>): nat {
    if s == [] then 0 else Sum(s[..|s| - 1]) + s[|s| - 1]
  }

  lemma SumOfNone(s: seq<nat>)
    ensures Sum(s[..0]) == 0
  {
  }

  lemma {:induction false} SumConcat(a: seq<nat>, b: seq<nat>)
    ensures Sum(a + b) == Sum(a) + Sum(b)
    decreases |b|
  {
    if b == [] {
      assert a + b == a;
    } else {
      var i := b[..|b| - 1];
      SumConcat(a, i);
      assert (a + b)[..|a + b| - 1] == a + i;
    }
  }

  lemma SumSlice(s: seq<nat>, i: nat, j: nat)
    requires i <= j <= |s|
    ensures Sum(s[..j]) == Sum(s[..i]) + Sum(s[i..j])
  {
    SumConcat(s[..i], s[i..j]);
    assert s[..i] + s[i..j] == s[..j];
  }

  lemma SumStep(s: seq<nat>, i: nat)
    requires i < |s|
    ensures Sum(s[..i + 1]) == Sum(s[..i]) + s[i]
  {
    assert s[..i + 1][..i] == s[..i];
  }

  lemma SumMonotone(s: seq<nat>, i: nat, j: nat)
    requires i <= j <= |s|
    ensures Sum(s[..i]) <= Sum(s[..j]) <= Sum(s)
  {
    SumSlice(s, i, j);
    SumSlice(s, j, |s|);
    assert s[..|s|] == s;
  }

  /** Position of element `index` of block `block`, for blocks of `size` elements. */
  function Flat(block: nat, size: nat, index: nat): nat {
    block * size + index
  }

  /** The numbers below `n` in order. */
  function UpTo(n: nat): seq<nat> {
    seq(n, i requires 0 <= i => i)
  }

  function Pow2(n: nat): (p: nat)
    ensures p >= 1
  {
    if n == 0 then 1 else 2 * Pow2(n - 1)
  }

  lemma MulMonotone(a: int, b: int, c: nat)
    ensures a <= b ==> a * c <= b * c
  {
  }

  lemma MulCompare(a: nat, b: nat, c: nat)
    ensures a < b ==> a * c + c <= b * c
    ensures b < a ==> b * c + c <= a * c
  {
    MulMonotone(a + 1, b, c);
    MulMonotone(b + 1, a, c);
  }

  lemma DivUnique(x: nat, d: nat, q: nat, r: nat)
    requires 0 < d && r < d && x == q * d + r
    ensures x / d == q && x % d == r
  {
    var q', r' := x / d, x % d;
    assert (q - q') * d == r' - r;
    MulMonotone(1, q - q', d);
    MulMonotone(1, q' - q, d);
    assert (q' - q) * d == r - r';
  }

  lemma DivBounds(x: nat, d: nat)
    requires 0 < d
    ensures 0 <= x / d && (0 < x / d <==> d <= x)
  {
    if x < d {
      DivUnique(x, d, 0, x);
    } else {
      MulMonotone(x / d, 0, d);
    }
  }

  lemma FlatInBounds(block: nat, blocks: nat, size: nat, index: nat)
    requires block < blocks && index < size
    ensures Flat(block, size, index) < blocks * size
  {
    MulMonotone(block + 1, blocks, size);
  }

  lemma FlatZero(size: nat)
    ensures Flat(0, size, 0) == 0
  {
  }

  lemma FlatIsProduct(block: nat, size: nat)
    ensures Flat(block, size, 0) == block * size
  {
  }

  lemma FlatStep(block: nat, size: nat, index: nat)
    ensures Flat(block, size, index + 1) == Flat(block, size, index) + 1
  {
  }

  lemma FlatNext(block: nat, size: nat, blocks: nat)
    requires block < blocks
    ensures Flat(block, size, 0) + size == Flat(block, size, size) == Flat(block + 1, size, 0) <= Flat(blocks, size, 0)
  {
    MulMonotone(block + 1, blocks, size);
  }

  lemma FlatInjective(size: nat, b1: nat, i1: nat, b2: nat, i2: nat)
    requires i1 < size && i2 < size
    requires Flat(b1, size, i1) == Flat(b2, size, i2)
    ensures b1 == b2 && i1 == i2
  {
    MulMonotone(b1 + 1, b2, size);
    MulMonotone(b2 + 1, b1, size);
  }

  lemma FlatSurjective(size: nat, blocks: nat, row: nat) returns (block: nat, index: nat)
    requires 0 < size && row < blocks * size
    ensures block < blocks && index < size && Flat(block, size, index) == row
  {
    block, index := row / size, row % size;
    MulMonotone(blocks, block, size);
  }
}
