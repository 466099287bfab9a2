/** The Bloom bit array of userspace/uthash.h. */
module Bloom {
  import opened Bits

  /** `1U << i`. */
  function Mask(i: nat): (r: bv8)
    requires i < 8
  {
    1 << i
  }

  /** HASH_BLOOM_BITTEST. */
  predicate BitTest(bv: seq<bv8>, idx: nat)
    requires idx / 8 < |bv|
  {
    bv[idx / 8] & Mask(idx % 8) != 0
  }

  /** HASH_BLOOM_BYTELEN for a filter of `2^nbits` bits. */
  function ByteLen(nbits: nat): (r: nat)
    ensures Pow2(nbits) <= 8 * r
  {
    Pow2(nbits) / 8 + (if Pow2(nbits) % 8 != 0 then 1 else 0)
  }

  /** The bits that are set are exactly `bits`. */
  ghost predicate Shows(bv: seq<bv8>, nbits: nat, bits: set<nat>) {
    && |bv| == ByteLen(nbits)
    && forall i | 0 <= i < Pow2(nbits) :: BitTest(bv, i) <==> i in bits
  }

  lemma SetBit(x: bv8, i: nat, j: nat)
    requires i < 8 && j < 8
    ensures (x | Mask(i)) & Mask(i) != 0
    ensures i != j ==> (x | Mask(i)) & Mask(j) == x & Mask(j)
  {
  }

  /** HASH_BLOOM_BITSET. */
  method BitSet(bv: array<bv8>, idx: nat, ghost nbits: nat, ghost bits: set<nat>)
    requires Shows(bv[..], nbits, bits) && idx < Pow2(nbits)
    modifies bv
    ensures Shows(bv[..], nbits, bits + {idx})
  {
    bv[idx / 8] := bv[idx / 8] | Mask(idx % 8);
    forall i | 0 <= i < Pow2(nbits) ensures BitTest(bv[..], i) <==> i in bits + {idx} {
      if i / 8 == idx / 8 {
        SetBit(old(bv[idx / 8]), idx % 8, i % 8);
      }
      assert BitTest(old(bv[..]), i) <==> i in bits;
    }
  }
}
