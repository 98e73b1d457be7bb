/** The optional Bloom filter of include/uthash.h: a bit vector that is only ever added to. */
module Bloom {
  import opened HashMath

  /** HASH_BLOOM_BYTELEN for 2^nbits bits. */
  function ByteLength(nbits: nat): nat {
    Pow2(nbits) / 8 + if Pow2(nbits) % 8 != 0 then 1 else 0
  }

  /** The bit a hash value selects. */
  function BitOf(nbits: nat, hashv: nat): (i: nat)
    ensures i / 8 < ByteLength(nbits)
  {
    MaskIsMod(hashv, nbits);
    And(hashv, Pow2(nbits) - 1)
  }

  function Mask(k: nat): bv8
    requires k < 8
  {
    (1 as bv8) << k
  }

  /** HASH_BLOOM_TEST. */
  predicate Test(bv: seq<bv8>, nbits: nat, hashv: nat)
    requires |bv| == ByteLength(nbits)
  {
    var i := BitOf(nbits, hashv);
    bv[i / 8] & Mask(i % 8) != 0
  }

  /** Setting a bit sets that bit only. */
  lemma SetThenTest(x: bv8, k: nat, j: nat)
    requires k < 8 && j < 8
    ensures (x | Mask(k)) & Mask(j) != 0 <==> x & Mask(j) != 0 || j == k
  {
    MaskValue(k);
    MaskValue(j);
    var m, y := Mask(k), Mask(j);
    assert (x | m) & y == (x & y) | (m & y);
    MasksDiffer(k, j);
  }

  lemma MaskValue(k: nat)
    requires k < 8
    ensures Mask(k) == [1, 2, 4, 8, 16, 32, 64, 128][k]
  {
    if k == 0 {} else if k == 1 {} else if k == 2 {} else if k == 3 {}
    else if k == 4 {} else if k == 5 {} else if k == 6 {} else {}
  }

  lemma MasksDiffer(k: nat, j: nat)
    requires k < 8 && j < 8
    ensures Mask(k) & Mask(j) != 0 <==> j == k
  {
    MaskValue(k);
    MaskValue(j);
    if k == 0 {} else if k == 1 {} else if k == 2 {} else if k == 3 {}
    else if k == 4 {} else if k == 5 {} else if k == 6 {} else {}
  }

  /** Values that select the same bit are those that agree modulo the number of bits. */
  lemma SameBit(nbits: nat, g: nat, h: nat)
    ensures BitOf(nbits, g) == BitOf(nbits, h) <==> g % Pow2(nbits) == h % Pow2(nbits)
  {
    MaskIsMod(g, nbits);
    MaskIsMod(h, nbits);
  }

  /** An all-zero filter holds nothing. */
  lemma NothingPasses(bv: seq<bv8>, nbits: nat, hashv: nat)
    requires |bv| == ByteLength(nbits) && forall i :: 0 <= i < |bv| ==> bv[i] == 0
    ensures !Test(bv, nbits, hashv)
  {
    var i := BitOf(nbits, hashv);
    assert bv[i / 8] == 0;
    assert (0 as bv8) & Mask(i % 8) == 0;
  }

  /** HASH_BLOOM_ADD: from then on the filter passes what it passed before, and the values that agree
      with `hashv` modulo its number of bits. */
  method Add(bv: array<bv8>, nbits: nat, hashv: nat)
    requires bv.Length == ByteLength(nbits)
    modifies bv
    ensures forall h: nat :: Test(bv[..], nbits, h) <==>
                             old(Test(bv[..], nbits, h)) || h % Pow2(nbits) == hashv % Pow2(nbits)
  {
    var i := BitOf(nbits, hashv);
    ghost var before := bv[..];
    bv[i / 8] := bv[i / 8] | Mask(i % 8);
    forall h: nat
      ensures Test(bv[..], nbits, h) <==> Test(before, nbits, h) || h % Pow2(nbits) == hashv % Pow2(nbits)
    {
      var j := BitOf(nbits, h);
      SameBit(nbits, hashv, h);
      if j / 8 == i / 8 {
        SetThenTest(before[i / 8], i % 8, j % 8);
        assert i == i / 8 * 8 + i % 8 && j == j / 8 * 8 + j % 8;
      }
    }
  }
}
