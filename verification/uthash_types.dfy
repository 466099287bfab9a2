/** The structures of userspace/uthash.h. */
module UtHashTypes {

  /** A key is the `keylen` bytes at `key`. */
  type Key = seq<bv8>

  const INITIAL_NUM_BUCKETS: nat := 32
  const INITIAL_NUM_BUCKETS_LOG2: nat := 5
  const BKT_CAPACITY_THRESH: nat := 10

  /** `UT_hash_handle`, standing for the item that embeds it. */
  class Handle {
    const key: Key
    const hashv: nat
    var tbl: Table?
    var prev: Handle?
    var next: Handle?
    var hhPrev: Handle?
    var hhNext: Handle?

    constructor (key: Key, hashv: nat)
      ensures this.key == key && this.hashv == hashv && tbl == null
    {
      this.key, this.hashv := key, hashv;
      tbl, prev, next, hhPrev, hhNext := null, null, null, null, null;
    }
  }

  /** `UT_hash_bucket`. */
  datatype Bucket = Bucket(head: Handle?, count: nat, expandMult: nat)

  /** `UT_hash_table`. */
  class Table {
    var buckets: array<Bucket>
    var numBuckets: nat
    var log2NumBuckets: nat
    var numItems: nat
    var tail: Handle
    var idealChainMaxlen: nat
    var nonidealItems: nat
    var ineffExpands: nat
    var noexpand: bool
    var bloomBv: array<bv8>
    var bloomNbits: nat

    constructor (tail: Handle, buckets: array<Bucket>, bloomBv: array<bv8>, bloomNbits: nat)
      ensures this.buckets == buckets && this.bloomBv == bloomBv && this.bloomNbits == bloomNbits
      ensures numBuckets == INITIAL_NUM_BUCKETS && log2NumBuckets == INITIAL_NUM_BUCKETS_LOG2
      ensures numItems == idealChainMaxlen == nonidealItems == ineffExpands == 0 && !noexpand
      ensures this.tail == tail
    {
      this.tail, this.buckets, this.bloomBv, this.bloomNbits := tail, buckets, bloomBv, bloomNbits;
      numBuckets, log2NumBuckets := INITIAL_NUM_BUCKETS, INITIAL_NUM_BUCKETS_LOG2;
      numItems, idealChainMaxlen, nonidealItems, ineffExpands, noexpand := 0, 0, 0, 0, false;
    }
  }
}
