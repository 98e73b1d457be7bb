/** The unsigned arithmetic of include/uthash.h: masks and shifts by powers of two, and the
    chain length statistics that bucket expansion computes. */
module HashMath {

  function Pow2(k: nat): (p: nat)
    ensures p > 0
  {
    if k == 0 then 1 else 2 * Pow2(k - 1)
  }

  /** Bitwise and. */
  function And(x: nat, y: nat): nat {
    if x == 0 || y == 0 then 0 else 2 * And(x / 2, y / 2) + (x % 2) * (y % 2)
  }

  /** Right shift. */
  function Shr(x: nat, k: nat): nat {
    if k == 0 then x else Shr(x / 2, k - 1)
  }

  /** HASH_TO_BKT: masking with a power of two less one is reduction modulo that power. */
  lemma {:induction false} MaskIsMod(x: nat, k: nat)
    ensures And(x, Pow2(k) - 1) == x % Pow2(k)
  {
    if k > 0 {
      var p := Pow2(k - 1);
      assert Pow2(k) == 2 * p;
      AndOdd(x, p - 1);
      MaskIsMod(x / 2, k - 1);
      ModSplits(x, p);
    }
  }

  lemma AndOdd(x: nat, q: nat)
    ensures And(x, 2 * q + 1) == 2 * And(x / 2, q) + x % 2
  {
    assert (2 * q + 1) / 2 == q && (2 * q + 1) % 2 == 1;
  }

  lemma ModSplits(x: nat, p: nat)
    requires p > 0
    ensures x % (2 * p) == 2 * ((x / 2) % p) + x % 2
    ensures x / (2 * p) == (x / 2) / p
  {
    var q, r := (x / 2) / p, (x / 2) % p;
    assert x / 2 == p * q + r;
    assert 2 * (p * q + r) == (2 * p) * q + 2 * r;
    assert x == (2 * p) * q + (2 * r + x % 2);
    ModUnique(x, 2 * p, q, 2 * r + x % 2);
  }

  lemma ModUnique(x: nat, m: nat, q: nat, r: nat)
    requires m > 0 && r < m && x == m * q + r
    ensures x % m == r && x / m == q
  {
    var k, s := x / m, x % m;
    assert x == m * k + s;
    assert m * (k - q) == m * k - m * q && m * (q - k) == m * q - m * k;
    assert k <= q by { if k > q { MulAtLeast(m, k - q); } }
    assert q <= k by { if q > k { MulAtLeast(m, q - k); } }
  }

  lemma MulAtLeast(m: nat, d: int)
    requires d >= 1
    ensures m * d >= m
  {
    assert m * d == m * (d - 1) + m;
  }

  lemma {:induction false} ShrIsDiv(x: nat, k: nat)
    ensures Shr(x, k) == x / Pow2(k)
  {
    if k > 0 {
      ShrIsDiv(x / 2, k - 1);
      ModSplits(x, Pow2(k - 1));
    }
  }

  function Times(k: nat, b: nat): nat { k * b }

  /** c is n / b rounded up: chains of length k suffice for n elements in b buckets just when k >= c. */
  ghost predicate IsCeiling(c: nat, n: nat, b: nat) {
    forall k: nat {:trigger Times(k, b)} :: Times(k, b) >= n <==> k >= c
  }

  /** tbl->ideal_chain_maxlen, as HASH_EXPAND_BUCKETS computes it for twice 2^log2 buckets. */
  method IdealLength(numItems: nat, log2: nat, numBuckets: nat) returns (ideal: nat)
    requires numBuckets == Pow2(log2)
    ensures IsCeiling(ideal, numItems, 2 * numBuckets)
  {
    assert 2 * numBuckets == Pow2(log2 + 1);
    ShrIsDiv(numItems, log2 + 1);
    MaskIsMod(numItems, log2 + 1);
    ideal := Shr(numItems, log2 + 1) + if And(numItems, numBuckets * 2 - 1) != 0 then 1 else 0;
    RoundUp(numItems, 2 * numBuckets, ideal);
  }

  lemma RoundUp(n: nat, b: nat, c: nat)
    requires b > 0 && c == n / b + if n % b != 0 then 1 else 0
    ensures IsCeiling(c, n, b)
  {
    var q, r := n / b, n % b;
    assert n == b * q + r;
    forall k: nat ensures Times(k, b) >= n <==> k >= c {
      if k <= q {
        assert b * (q - k) == b * q - k * b;
      } else {
        MulAtLeast(b, k - q);
        assert b * (k - q) == k * b - b * q;
      }
      if k < q { MulAtLeast(b, q - k); }
    }
  }

  // ---------------------------------------------------------------- chain length statistics

  function Over(len: nat, ideal: nat): nat {
    if len > ideal then len - ideal else 0
  }

  /** The expansion multiplier of a chain that has grown to `count` elements one by one: 0 up to the
      ideal length, and beyond it the chain's length in multiples of the ideal length, rounded up,
      except that the first element too many only begins the count. */
  predicate IsMult(m: nat, count: nat, ideal: nat) {
    if ideal == 0 then m == count
    else if count <= ideal then m == 0
    else if ideal == 1 then m == count - 1
    else if count == ideal + 1 then m == 1
    else m > 0 && (m - 1) * ideal < count <= m * ideal
  }

  /** The test and the increment in the expansion loop keep it right. */
  lemma MultNext(m: nat, count: nat, ideal: nat)
    requires IsMult(m, count, ideal)
    ensures IsMult(m + if count + 1 > ideal && count + 1 > m * ideal then 1 else 0, count + 1, ideal)
  {
  }

  /** It is determined by length and ideal length. */
  lemma MultUnique(m: nat, n: nat, count: nat, ideal: nat)
    requires IsMult(m, count, ideal) && IsMult(n, count, ideal)
    ensures m == n
  {
    assert ideal * (n - m) == n * ideal - m * ideal && ideal * (m - n) == m * ideal - n * ideal;
    if m < n {
      MulAtLeast(ideal, n - m);
    } else if n < m {
      MulAtLeast(ideal, m - n);
    }
  }

  /** How many elements sit deeper in their chain than `ideal`; with ideal 0, how many there are. */
  function Excess(lens: seq<nat>, ideal: nat): nat {
    if lens == [] then 0 else Over(lens[0], ideal) + Excess(lens[1..], ideal)
  }

  lemma {:induction false} ExcessUpdate(lens: seq<nat>, i: nat, len: nat, ideal: nat)
    requires i < |lens|
    ensures Excess(lens[i := len], ideal) + Over(lens[i], ideal) == Excess(lens, ideal) + Over(len, ideal)
  {
    if i == 0 {
      assert lens[0 := len][1..] == lens[1..];
    } else {
      assert lens[i := len][1..] == lens[1..][i - 1 := len];
      ExcessUpdate(lens[1..], i - 1, len, ideal);
    }
  }

  /** Excess counts positions: those at `ideal` or beyond in some chain. */
  ghost function Deep(lens: seq<nat>, ideal: nat): set<(int, int)> {
    set b, i | 0 <= b < |lens| && ideal <= i < lens[b] :: (b, i)
  }

  lemma {:induction false} ExcessCounts(lens: seq<nat>, ideal: nat)
    ensures |Deep(lens, ideal)| == Excess(lens, ideal)
  {
    if lens != [] {
      var k := |lens| - 1;
      var row := Row(k, ideal, lens[k]);
      ExcessCounts(lens[..k], ideal);
      RowSize(k, ideal, lens[k]);
      assert Deep(lens, ideal) == Deep(lens[..k], ideal) + row && Deep(lens[..k], ideal) !! row;
      ExcessSnoc(lens[..k], lens[k], ideal);
      assert lens == lens[..k] + [lens[k]];
    }
  }

  ghost function Row(b: int, from: nat, to: nat): set<(int, int)> {
    set i | from <= i < to :: (b, i)
  }

  lemma {:induction false} RowSize(b: int, from: nat, to: nat)
    ensures |Row(b, from, to)| == Over(to, from)
  {
    if from < to {
      RowSize(b, from, to - 1);
      assert Row(b, from, to) == Row(b, from, to - 1) + {(b, to - 1)};
    }
  }

  lemma {:induction false} ExcessSnoc(lens: seq<nat>, len: nat, ideal: nat)
    ensures Excess(lens + [len], ideal) == Excess(lens, ideal) + Over(len, ideal)
  {
    if lens == [] {
      assert [len][1..] == [];
    } else {
      assert (lens + [len])[1..] == lens[1..] + [len];
      ExcessSnoc(lens[1..], len, ideal);
    }
  }

  lemma {:induction false} ExcessZeros(lens: seq<nat>, ideal: nat)
    requires forall i :: 0 <= i < |lens| ==> lens[i] == 0
    ensures Excess(lens, ideal) == 0
  {
    if lens != [] { ExcessZeros(lens[1..], ideal); }
  }

  lemma {:induction false} ExcessAtLeast(lens: seq<nat>, i: nat)
    requires i < |lens|
    ensures lens[i] <= Excess(lens, 0)
  {
    if i > 0 { ExcessAtLeast(lens[1..], i - 1); }
  }
}
