/** The hash as its user sees it: a head pointer, and the macros that change what it heads. */
module UtHash {
  import opened Bits
  import opened Seqs
  import opened UtHashTypes
  import opened UtHashModel
  import opened UtHashLinks
  import opened UtHashExpand
  import UtHashFsck
  import UtHashSort
  import StableSort
  import Bloom

  lemma RoomyChains(m: Model)
    requires Partition(m.items, m.chains, m.log2)
    ensures Roomy(m.chains, m.log2, Members(m.chains))
    ensures forall x: Handle | x in Members(m.chains) :: x in m.items
  {
  }

  /** The list ends where `tail` points, and the Bloom bits are the model's. */
  ghost predicate TailAndBloom(t: Table, m: Model)
    reads t, t.bloomBv
  {
    && t.buckets as object != t.bloomBv
    && t.tail == At(m.items, |m.items| - 1)
    && t.bloomNbits == m.bloomNbits && Bloom.Shows(t.bloomBv[..], m.bloomNbits, m.bloom)
  }

  /** The whole table as the model has it. */
  ghost predicate TableOk(t: Table, m: Model)
    reads t, t.buckets, t.bloomBv, Members(m.chains)`hhPrev, Members(m.chains)`hhNext
  {
    TableChains(t, m) && TailAndBloom(t, m)
  }

  lemma PlaceLemma(m: Model, h: Handle)
    requires Partition(m.items, m.chains, m.log2)
    ensures |m.chains| == Pow2(m.log2)
    ensures ToBkt(h.hashv, |m.chains|) == Home(h, m.log2)
    ensures h !in m.items ==> h !in m.chains[Home(h, m.log2)]
    ensures forall x: Handle | x in m.chains[Home(h, m.log2)] :: x in Members(m.chains)
  {
    MaskIsMod(h.hashv, m.log2);
  }

  /** The counting and linking of HASH_ADD_TO_TABLE. */
  method PlaceInBkt(t: Table, addhh: Handle, ghost m: Model, ghost pos: nat) returns (bkt: nat)
    requires Partition(m.items, m.chains, m.log2) && TableChains(t, m)
    requires addhh !in m.items && pos <= |m.items|
    modifies t`numItems, t.buckets, addhh`hhPrev, addhh`hhNext, Members(m.chains)`hhPrev
    ensures bkt == Home(addhh, m.log2)
    ensures TableChains(t, Placed(m, addhh, pos))
  {
    PlaceLemma(m, addhh);
    RoomyChains(m);
    hide Partition, ChainsLinked, Roomy;
    t.numItems := t.numItems + 1;
    bkt := ToBkt(addhh.hashv, t.numBuckets);
    PushBktAmong(t.buckets, bkt, addhh, m.chains, m.log2, Members(m.chains));
  }

  /** HASH_ADD_TO_BKT's answer to a failed expansion: the item leaves its chain. */
  method Unplace(t: Table, addhh: Handle, bkt: nat, ghost m: Model, ghost pos: nat)
    requires Partition(m.items, m.chains, m.log2)
    requires addhh !in m.items && pos <= |m.items|
    requires TableChains(t, Placed(m, addhh, pos)) && bkt == Home(addhh, m.log2)
    modifies t.buckets, addhh`hhPrev, addhh`hhNext, Members(m.chains)`hhPrev, Members(m.chains)`hhNext
    ensures BucketsOk(t.buckets[..], m.chains, m.mults) && ChainsLinked(m.chains)
  {
    ghost var p := Placed(m, addhh, pos);
    PlaceLemma(m, addhh);
    UnplaceLemma(m, addhh, pos);
    hide Partition, ChainsLinked, Roomy;
    DelInBktAmong(t.buckets, bkt, addhh, p.chains, p.log2, Members(p.chains), 0);
  }

  lemma UnplaceLemma(m: Model, h: Handle, pos: nat)
    requires Partition(m.items, m.chains, m.log2)
    requires h !in m.items && pos <= |m.items|
    ensures var p := Placed(m, h, pos); var b := Home(h, m.log2);
            && Roomy(p.chains, p.log2, Members(p.chains))
            && p.chains[b] == [h] + m.chains[b]
            && Unhooked(p.chains[b], 0) == m.chains[b]
            && p.chains[b := Unhooked(p.chains[b], 0)] == m.chains
            && (forall x: Handle | x in p.chains[b] :: x in Members(m.chains) || x == h)
  {
    var p := Placed(m, h, pos);
    var b := Home(h, m.log2);
    assert h !in m.chains[b];
    assert p.chains[b := m.chains[b]] == m.chains;
  }

  /** The item after its placement, with the expansion if the bucket asks for one. */
  ghost function Grown(m: Model, h: Handle, pos: nat): (r: Model)
    requires Shaped(m) && pos <= |m.items|
  {
    if AddExpands(m, h) then Expanded(Placed(m, h, pos)) else Placed(m, h, pos)
  }

  lemma PlacedMembers(m: Model, h: Handle, pos: nat)
    requires |m.chains| == Pow2(m.log2) && pos <= |m.items|
    ensures forall x: Handle | x in Members(Placed(m, h, pos).chains) :: x in Members(m.chains) || x == h
  {
  }

  /** HASH_ADD_TO_BKT. */
  method AddToBkt(t: Table, addhh: Handle, granted: bool, ghost m: Model, ghost pos: nat)
      returns (bkt: nat, oomed: bool)
    requires NoDup(m.items) && Partition(m.items, m.chains, m.log2) && TableChains(t, m)
    requires addhh !in m.items && pos <= |m.items|
    modifies t`buckets, t`numBuckets, t`log2NumBuckets, t`numItems, t`idealChainMaxlen, t`nonidealItems,
             t`ineffExpands, t`noexpand, t.buckets, addhh`hhPrev, addhh`hhNext,
             Members(m.chains)`hhPrev, Members(m.chains)`hhNext
    ensures |m.chains| == |m.mults| && bkt == Home(addhh, m.log2)
    ensures oomed == (AddExpands(m, addhh) && !granted)
    ensures t.buckets == old(t.buckets) || fresh(t.buckets)
    ensures !oomed ==> TableChains(t, Grown(m, addhh, pos))
    ensures oomed ==> CountersShown(t, m) && t.numItems == |m.items| + 1
                      && BucketsOk(t.buckets[..], m.chains, m.mults) && ChainsLinked(m.chains)
  {
    PlacedPartition(m, addhh, pos);
    PlacedMembers(m, addhh, pos);
    hide Partition, ChainsLinked, Expanded, MultAfter;
    bkt := PlaceInBkt(t, addhh, m, pos);
    oomed := false;
    if t.buckets[bkt].count >= (t.buckets[bkt].expandMult + 1) * BKT_CAPACITY_THRESH && !t.noexpand {
      oomed := ExpandBuckets(t, granted, Placed(m, addhh, pos));
      if oomed {
        Unplace(t, addhh, bkt, m, pos);
      }
    }
  }

  /** The same with a coarser frame: nothing is said of single fields, the application list stays linked. */
  method AddToBktInList(t: Table, addhh: Handle, granted: bool, ghost m: Model, ghost pos: nat, ghost s: seq<Handle>)
    returns (bkt: nat, oomed: bool)
    requires NoDup(m.items) && Partition(m.items, m.chains, m.log2) && TableChains(t, m)
    requires addhh !in m.items && pos <= |m.items| && AppLinked(s)
    modifies t, t.buckets, addhh`hhPrev, addhh`hhNext, Members(m.chains)`hhPrev, Members(m.chains)`hhNext
    ensures t.tail == old(t.tail) && t.bloomBv == old(t.bloomBv) && t.bloomNbits == old(t.bloomNbits)
    ensures |m.chains| == |m.mults| && bkt == Home(addhh, m.log2)
    ensures oomed == (AddExpands(m, addhh) && !granted)
    ensures t.buckets == old(t.buckets) || fresh(t.buckets)
    ensures !oomed ==> TableChains(t, Grown(m, addhh, pos))
    ensures oomed ==> CountersShown(t, m) && t.numItems == |m.items| + 1
                      && BucketsOk(t.buckets[..], m.chains, m.mults) && ChainsLinked(m.chains)
    ensures AppLinked(s)
  {
    hide Partition, Expanded, MultAfter;
    bkt, oomed := AddToBkt(t, addhh, granted, m, pos);
  }

  /** The buckets describe the chains, but the count of bucket `b` is `extra` too high. */
  ghost predicate BucketsOver(bs: seq<Bucket>, chains: seq<seq<Handle>>, mults: seq<nat>, b: nat, extra: nat) {
    && |bs| == |chains| == |mults| && b < |bs|
    && bs[b] == Bucket(At(chains[b], 0), |chains[b]| + extra, mults[b])
    && forall d | 0 <= d < |bs| && d != b :: bs[d] == Bucket(At(chains[d], 0), |chains[d]|, mults[d])
  }

  /** The bucket half of HASH_DELETE_HH. */
  method DeleteFromBkt(t: Table, del: Handle, ghost chains: seq<seq<Handle>>, ghost mults: seq<nat>, ghost k: nat,
                       ghost all: set<Handle>, ghost j: int)
    requires |chains| == Pow2(k) && t.numBuckets == Pow2(k) && t.numItems > 0
    requires ChainsLinked(chains) && Roomy(chains, k, all) && -1 <= j < |chains[Home(del, k)]|
    requires j >= 0 ==> chains[Home(del, k)][j] == del
    requires j < 0 ==> del !in chains[Home(del, k)] && del.hhPrev == null && del.hhNext == null
    requires BucketsOver(t.buckets[..], chains, mults, Home(del, k), if j < 0 then 1 else 0)
    modifies t`numItems, t.buckets, chains[Home(del, k)]`hhPrev, chains[Home(del, k)]`hhNext
    ensures t.numItems == old(t.numItems) - 1
    ensures var b := Home(del, k);
            var cs := chains[b := Unhooked(chains[b], j)];
            ChainsLinked(cs) && BucketsOk(t.buckets[..], cs, mults)
  {
    hide ChainsLinked, Roomy, Home;
    var bkt := ToBkt(del.hashv, t.numBuckets);
    HomeMasks(del, k);
    DelInBktAmong(t.buckets, bkt, del, chains, k, all, j);
    t.numItems := t.numItems - 1;
  }

  /** HASH_DELETE_HH for the item at position `i` of the list `s`, which stands at position `j` of its
      chain, or (`j == -1`) in no chain. The only item of a list takes the table with it. */
  method DeleteHh(head: Handle, t: Table, del: Handle, ghost s: seq<Handle>, ghost i: nat,
                  ghost chains: seq<seq<Handle>>, ghost mults: seq<nat>, ghost k: nat, ghost all: set<Handle>,
                      ghost j: int)
    returns (newHead: Handle?)
    requires AppLinked(s) && NoDup(s) && i < |s| && del == s[i] && head == s[0] && t.tail == s[|s| - 1]
    requires |chains| == Pow2(k) && t.numBuckets == Pow2(k) && t.numItems > 0
    requires ChainsLinked(chains) && Roomy(chains, k, all) && -1 <= j < |chains[Home(del, k)]|
    requires j >= 0 ==> chains[Home(del, k)][j] == del
    requires j < 0 ==> del !in chains[Home(del, k)] && del.hhPrev == null && del.hhNext == null
    requires BucketsOver(t.buckets[..], chains, mults, Home(del, k), if j < 0 then 1 else 0)
    modifies t`tail, t`numItems, t.buckets, s`prev, s`next, chains[Home(del, k)]`hhPrev, chains[Home(del, k)]`hhNext
    ensures |s| == 1 ==> newHead == null
    ensures |s| >= 2 ==> AppLinked(RemoveAt(s, i)) && newHead == RemoveAt(s, i)[0] && t.tail == RemoveAt(s, i)[|s| - 2]
    ensures |s| >= 2 ==> t.numItems == old(t.numItems) - 1
    ensures |s| >= 2 ==> var b := Home(del, k);
              var cs := chains[b := Unhooked(chains[b], j)];
              ChainsLinked(cs) && BucketsOk(t.buckets[..], cs, mults)
  {
    if del.prev == null && del.next == null {
      newHead := null;
    } else {
      hide Roomy, Home, BucketsOver, BucketsOk, RemoveAt;
      newHead := UnlinkApp(head, t, del, s, i);
      DeleteFromBkt(t, del, chains, mults, k, all, j);
    }
  }

  lemma HomeMasks(h: Handle, k: nat)
    ensures ToBkt(h.hashv, Pow2(k)) == Home(h, k)
  {
    MaskIsMod(h.hashv, k);
  }

  /** HASH_MAKE_TABLE: three allocations. If a later one fails, the earlier ones are freed and the item keeps the
      address of the freed table, which stands here as a table of no use. */
  method MakeTable(add: Handle, mem: Memory, nbits: nat) returns (oomed: bool)
    modifies add`tbl
    ensures oomed == !(mem.table && mem.buckets && mem.bloom)
    ensures add.tbl == null <==> !mem.table
    ensures add.tbl != null ==> fresh(add.tbl)
    ensures !oomed ==>
              && fresh(add.tbl.buckets) && fresh(add.tbl.bloomBv)
              && TableChains(add.tbl, Fresh(nbits)) && add.tbl.tail == add
              && add.tbl.buckets as object != add.tbl.bloomBv
              && add.tbl.bloomNbits == nbits && Bloom.Shows(add.tbl.bloomBv[..], nbits, {})
  {
    if !mem.table {
      add.tbl := null;
      return true;
    }
    oomed := !mem.buckets || !mem.bloom;
    var buckets := EmptyBuckets(if mem.buckets then INITIAL_NUM_BUCKETS else 0);
    var bv := new bv8[if oomed then 0 else Bloom.ByteLen(nbits)](_ => 0);
    add.tbl := new Table(add, buckets, bv, nbits);
  }

  /** HASH_ROLLBACK_BKT. */
  method RollbackBkt(t: Table, itemptrhh: Handle, ghost m: Model)
    requires |m.chains| == Pow2(m.log2) && t.numBuckets == |m.chains|
    requires BucketsOk(t.buckets[..], m.chains, m.mults)
    requires ChainsLinked(m.chains) && itemptrhh !in Members(m.chains)
    modifies t.buckets, itemptrhh`hhPrev, itemptrhh`hhNext
    ensures ChainsLinked(m.chains)
    ensures BucketsOver(t.buckets[..], m.chains, m.mults, Home(itemptrhh, m.log2), 1)
    ensures itemptrhh.hhPrev == null && itemptrhh.hhNext == null
  {
    HomeMasks(itemptrhh, m.log2);
    var bkt := ToBkt(itemptrhh.hashv, t.numBuckets);
    hide Home, ToBkt, ChainLinked;
    t.buckets[bkt] := t.buckets[bkt].(count := t.buckets[bkt].count + 1);
    itemptrhh.hhNext := null;
    itemptrhh.hhPrev := null;
  }

  /** The list with `add` at position `pos`. */
  ghost function InsertedAt(s: seq<Handle>, pos: nat, add: Handle): (r: seq<Handle>)
    requires pos <= |s|
  {
    s[..pos] + [add] + s[pos..]
  }

  lemma InsertedAtRemoved(s: seq<Handle>, pos: nat, add: Handle)
    requires pos <= |s| && NoDup(s) && add !in s
    ensures NoDup(InsertedAt(s, pos, add))
    ensures InsertedAt(s, pos, add)[pos] == add && RemoveAt(InsertedAt(s, pos, add), pos) == s
    ensures forall x: Handle :: x in InsertedAt(s, pos, add) <==> x in s || x == add
    ensures |InsertedAt(s, pos, add)| == |s| + 1
  {
    NoDupInsert(s, pos, add);
  }

  /** Only a table of nine or more items is ever expanded. */
  lemma ExpandsOnlyCrowded(m: Model, h: Handle)
    requires Inv(m) && AddExpands(m, h)
    ensures |m.items| >= 9
  {
    SubLength(m.chains[Home(h, m.log2)], m.items);
  }

  lemma RollbackFacts(m: Model, add: Handle, pos: nat)
    requires Inv(m) && add !in m.items && pos <= |m.items|
    ensures var s := InsertedAt(m.items, pos, add); var b := Home(add, m.log2);
            && NoDup(s) && |s| == |m.items| + 1 && pos < |s| && s[pos] == add && RemoveAt(s, pos) == m.items
            && (forall i | 0 <= i < |s| :: s[i] in m.items || s[i] == add)
            && |m.chains| == Pow2(m.log2) && b < |m.chains|
            && Roomy(m.chains, m.log2, Members(m.chains))
            && add !in Members(m.chains) && add !in m.chains[b]
            && (forall i | 0 <= i < |m.chains[b]| :: m.chains[b][i] in Members(m.chains))
            && m.chains[b := Unhooked(m.chains[b], -1)] == m.chains
  {
    RoomyChains(m);
    PlaceLemma(m, add);
    InsertedAtRemoved(m.items, pos, add);
  }

  /** The recovery of HASH_ADD_TO_TABLE from a failed expansion: everything is as before the addition. */
  method RollbackAdd(head: Handle, t: Table, add: Handle, ghost m: Model, ghost pos: nat) returns (newHead: Handle?)
    requires Inv(m) && add !in m.items && pos <= |m.items| && |m.items| >= 1
    requires AppLinked(InsertedAt(m.items, pos, add)) && head == At(InsertedAt(m.items, pos, add), 0)
    requires t.tail == At(InsertedAt(m.items, pos, add), |m.items|)
    requires CountersShown(t, m) && t.numItems == |m.items| + 1
    requires BucketsOk(t.buckets[..], m.chains, m.mults) && ChainsLinked(m.chains)
    modifies t`tail, t`numItems, t.buckets, add, m.items`prev, m.items`next, Members(m.chains)`hhPrev,
        Members(m.chains)`hhNext
    ensures AppLinked(m.items) && newHead == At(m.items, 0) && t.tail == At(m.items, |m.items| - 1)
    ensures TableChains(t, m) && add.tbl == null
  {
    hide Inv, Home, Roomy, InsertedAt, BucketsOver, BucketsOk, RemoveAt, ChainsLinked, NoDup, Unhooked, Members;
    RollbackFacts(m, add, pos);
    assert AppLinked(InsertedAt(m.items, pos, add));
    RollbackBkt(t, add, m);
    assert AppLinked(InsertedAt(m.items, pos, add));
    newHead := DeleteHh(head, t, add, InsertedAt(m.items, pos, add), pos, m.chains, m.mults, m.log2,
        Members(m.chains), -1);
    add.tbl := null;
  }

  /** HASH_BLOOM_ADD. */
  method BloomAdd(t: Table, hashv: nat, ghost bits: set<nat>, ghost g: Model)
    requires Bloom.Shows(t.bloomBv[..], t.bloomNbits, bits)
    requires TableChains(t, g) && t.buckets as object != t.bloomBv
    modifies t.bloomBv
    ensures TableChains(t, g)
    ensures Bloom.Shows(t.bloomBv[..], t.bloomNbits, bits + {BloomIndex(hashv, t.bloomNbits)})
  {
    MaskIsMod(hashv, t.bloomNbits);
    ghost var bs := t.buckets[..];
    hide Bloom.Shows, BucketsOk;
    Bloom.BitSet(t.bloomBv, And(hashv, Pow2(t.bloomNbits) - 1), t.bloomNbits, bits);
    assert t.buckets[..] == bs;
  }

  /** HASH_ADD_TO_TABLE up to its success branch, the item being in the list at `pos` already. */
  method AddOrRollback(head: Handle, t: Table, add: Handle, granted: bool, ghost m: Model, ghost pos: nat)
    returns (newHead: Handle?, oomed: bool)
    requires Inv(m) && add !in m.items && pos <= |m.items|
    requires AppLinked(InsertedAt(m.items, pos, add)) && head == At(InsertedAt(m.items, pos, add), 0)
    requires t.tail == At(InsertedAt(m.items, pos, add), |m.items|)
    requires TableChains(t, m)
    modifies t, t.buckets, add, m.items`prev, m.items`next, Members(m.chains)`hhPrev, Members(m.chains)`hhNext
    ensures t.bloomBv == old(t.bloomBv) && t.bloomNbits == old(t.bloomNbits)
    ensures Shaped(m)
    ensures oomed == (AddExpands(m, add) && !granted)
    ensures t.buckets == old(t.buckets) || fresh(t.buckets)
    ensures add.tbl == if oomed then null else old(add.tbl)
    ensures oomed ==> AppLinked(m.items) && newHead == At(m.items, 0) && t.tail == At(m.items, |m.items| - 1)
    ensures oomed ==> TableChains(t, m)
    ensures !oomed ==> AppLinked(InsertedAt(m.items, pos, add)) && newHead == head && t.tail == old(t.tail)
    ensures !oomed ==> TableChains(t, Grown(m, add, pos))
  {
    AddFacts(m, add, pos);
    hide Inv, Expanded, MultAfter, BucketsOk, Placed, Partition, Grown, AddExpands, InsertedAt, Members, NoDup,
        AppLinked, ChainsLinked, TableChains;
    newHead := head;
    var bkt;
    bkt, oomed := AddToBktInList(t, add, granted, m, pos, InsertedAt(m.items, pos, add));
    if oomed {
      newHead := RollbackAdd(head, t, add, m, pos);
    }
  }

  lemma AddFacts(m: Model, add: Handle, pos: nat)
    requires Inv(m) && add !in m.items && pos <= |m.items|
    ensures Shaped(m)
    ensures NoDup(m.items) && Partition(m.items, m.chains, m.log2)
    ensures AddExpands(m, add) ==> |m.items| >= 1
    ensures add !in Members(m.chains)
    ensures Placed(m, add, pos).items == InsertedAt(m.items, pos, add)
  {
    if AddExpands(m, add) {
      ExpandsOnlyCrowded(m, add);
    }
  }

  /** The outcome of HASH_ADD_TO_TABLE. */
  ghost function AddedTo(m: Model, h: Handle, pos: nat, granted: bool): (r: Model)
    requires Shaped(m) && pos <= |m.items|
  {
    if AddExpands(m, h) && !granted then m else Bloomed(Grown(m, h, pos), h)
  }

  lemma BloomedShown(t: Table, m: Model, h: Handle, pos: nat)
    requires Shaped(m) && pos <= |m.items|
    requires TableChains(t, Grown(m, h, pos)) && t.buckets as object != t.bloomBv
    requires t.tail == At(InsertedAt(m.items, pos, h), |m.items|)
    requires t.bloomNbits == m.bloomNbits
    requires Bloom.Shows(t.bloomBv[..], m.bloomNbits, m.bloom + {BloomIndex(h.hashv, m.bloomNbits)})
    ensures TableOk(t, Bloomed(Grown(m, h, pos), h))
    ensures Bloomed(Grown(m, h, pos), h).items == InsertedAt(m.items, pos, h)
  {
    hide MultAfter, NewChain, Sum;
  }

  /** HASH_ADD_TO_TABLE, the item being in the list at `pos` already. */
  method AddToTable(head: Handle, t: Table, add: Handle, granted: bool, ghost m: Model, ghost pos: nat)
    returns (newHead: Handle?, ghost r: Model)
    requires Inv(m) && add !in m.items && pos <= |m.items|
    requires AppLinked(InsertedAt(m.items, pos, add)) && head == At(InsertedAt(m.items, pos, add), 0)
    requires t.tail == At(InsertedAt(m.items, pos, add), |m.items|)
    requires TableChains(t, m) && t.buckets as object != t.bloomBv
    requires t.bloomNbits == m.bloomNbits && Bloom.Shows(t.bloomBv[..], m.bloomNbits, m.bloom)
    modifies t, t.buckets, t.bloomBv, add, m.items`prev, m.items`next, Members(m.chains)`hhPrev,
        Members(m.chains)`hhNext
    ensures Shaped(m) && r == AddedTo(m, add, pos, granted)
    ensures AppLinked(r.items) && newHead == At(r.items, 0) && TableOk(t, r)
    ensures add.tbl == if AddExpands(m, add) && !granted then null else old(add.tbl)
    ensures t.buckets == old(t.buckets) || fresh(t.buckets)
    ensures t.bloomBv == old(t.bloomBv)
  {
    hide Inv, Bloom.Shows, Grown, AddExpands, InsertedAt, BloomIndex, Members, ChainsLinked, BucketsOk, CountersShown;
    var oomed;
    newHead, oomed := AddOrRollback(head, t, add, granted, m, pos);
    r := AddedTo(m, add, pos, granted);
    if !oomed {
      assert AppLinked(InsertedAt(m.items, pos, add));
      BloomAdd(t, add.hashv, m.bloom, Grown(m, add, pos));
      assert AppLinked(InsertedAt(m.items, pos, add));
      BloomedShown(t, m, add, pos);
    }
  }

  /** `head` heads the list of the model, and table `t` holds what the model says. */
  ghost predicate Headed(head: Handle?, t: Table?, m: Model)
    requires Inv(m)
    reads if t == null then {} else {t, t.buckets, t.bloomBv}, m.items, Members(m.chains)
  {
    && head == At(m.items, 0)
    && (t == null <==> m.items == [])
    && AppLinked(m.items)
    && (forall x: Handle | x in m.items :: x.tbl == t)
    && (t != null ==> TableOk(t, m))
  }

  lemma AddedToFacts(m: Model, add: Handle, pos: nat, mem: Memory)
    requires Inv(m) && add !in m.items && pos <= |m.items|
    requires m.items != [] || (mem.table && mem.buckets && mem.bloom)
    ensures AddedTo(m, add, pos, mem.expansion) == Added(m, add, pos, mem)
    ensures Inv(AddedTo(m, add, pos, mem.expansion))
    ensures AddedTo(m, add, pos, mem.expansion).bloomNbits == m.bloomNbits
    ensures forall x: Handle | x in AddedTo(m, add, pos, mem.expansion).items :: x in m.items || x == add
    ensures AddExpands(m, add) && !mem.expansion ==> AddedTo(m, add, pos, mem.expansion) == m && m.items != []
    ensures !(AddExpands(m, add) && !mem.expansion) ==> AddedTo(m, add, pos, mem.expansion).items != []
  {
    AddedInv(m, add, pos, mem);
    AddFacts(m, add, pos);
  }

  lemma MembersAreItems(m: Model)
    requires Inv(m)
    ensures forall x: Handle | x in Members(m.chains) :: x in m.items
  {
  }

  /** AddToTable for items that all carry the table. */
  method AddToHeaded(head: Handle, t: Table, add: Handle, mem: Memory, ghost m: Model, ghost pos: nat)
    returns (newHead: Handle?, ghost r: Model)
    requires Inv(m) && add !in m.items && pos <= |m.items|
    requires m.items != [] || (mem.table && mem.buckets && mem.bloom)
    requires add.tbl == t && forall x: Handle | x in m.items :: x.tbl == t
    requires AppLinked(InsertedAt(m.items, pos, add)) && head == At(InsertedAt(m.items, pos, add), 0)
    requires t.tail == At(InsertedAt(m.items, pos, add), |m.items|)
    requires TableChains(t, m) && t.buckets as object != t.bloomBv
    requires t.bloomNbits == m.bloomNbits && Bloom.Shows(t.bloomBv[..], m.bloomNbits, m.bloom)
    modifies t, t.buckets, t.bloomBv, add, m.items
    ensures Shaped(m) && r == Added(m, add, pos, mem) && Inv(r) && r.bloomNbits == m.bloomNbits
    ensures Headed(newHead, t, r)
    ensures forall x: Handle | x in r.items :: x in m.items || x == add
    ensures t.buckets == old(t.buckets) || fresh(t.buckets)
    ensures t.bloomBv == old(t.bloomBv)
  {
    hide Inv, Bloom.Shows, InsertedAt, TableChains, AppLinked, AddedTo, Added, AddExpands, TableOk, NoDup, Partition,
        Members,
         Placed, At;
    AddFacts(m, add, pos);
    AddedToFacts(m, add, pos, mem);
    MembersAreItems(m);
    newHead, r := AddToTable(head, t, add, mem.expansion, m, pos);
  }

  lemma ModelFacts(m: Model)
    requires Inv(m)
    ensures Shaped(m)
    ensures NoDup(m.items)
    ensures m.items == [] ==> m == Fresh(m.bloomNbits)
  {
  }

  /** The additions to an empty hash: the table is made first. */
  method AddFirst(add: Handle, mem: Memory, nbits: nat, ghost m: Model)
      returns (head: Handle?, t: Table?, ghost r: Model)
    requires Inv(m) && m.items == [] && m.bloomNbits == nbits
    modifies add
    ensures Shaped(m) && r == Added(m, add, 0, mem) && Inv(r) && r.bloomNbits == m.bloomNbits
    ensures Headed(head, t, r)
    ensures t != null ==> fresh(t) && fresh(t.buckets) && fresh(t.bloomBv)
  {
    hide Inv, Bloom.Shows, TableChains;
    ModelFacts(m);
    add.next := null;
    add.prev := null;
    t := null;
    var oomed := MakeTable(add, mem, nbits);
    if !oomed {
      t := add.tbl;
      assert InsertedAt(m.items, 0, add) == [add];
      head, r := AddToHeaded(add, t, add, mem, m, 0);
    } else {
      head := null;
      add.tbl := null;
      r := m;
    }
  }

  /** HASH_ADD_KEYPTR_BYHASHVALUE on a non-empty hash. */
  method Append(head: Handle, add: Handle, mem: Memory, ghost m: Model) returns (newHead: Handle?, ghost r: Model)
    requires Inv(m) && Headed(head, head.tbl, m) && add !in m.items
    modifies add, m.items, TableParts(head.tbl)
    ensures Shaped(m) && r == Added(m, add, |m.items|, mem) && Inv(r) && r.bloomNbits == m.bloomNbits
    ensures Headed(newHead, old(head.tbl), r)
    ensures fresh(TableParts(old(head.tbl)) - old(TableParts(head.tbl)))
  {
    ModelFacts(m);
    hide Inv, Added, Bloom.Shows;
    assert InsertedAt(m.items, |m.items|, add) == m.items + [add];
    add.tbl := head.tbl;
    AppendList(head.tbl, add, m.items);
    newHead, r := AddToHeaded(head, add.tbl, add, mem, m, |m.items|);
  }

  /** HASH_AKBI_INNER_LOOP: the first item that exceeds `add`, or null. */
  method FindSlot(head: Handle, add: Handle, cmp: (Handle, Handle) -> int, ghost s: seq<Handle>) returns (iter: Handle?)
    requires s != [] && head == s[0] && AppLinked(s)
    ensures iter == At(s, StableSort.Slot(cmp, s, add))
  {
    iter := head;
    ghost var p := 0;
    while true
      invariant p < |s| && iter == s[p]
      invariant forall i | 0 <= i < p :: cmp(s[i], add) <= 0
      decreases |s| - p
    {
      if cmp(iter, add) > 0 {
        break;
      }
      iter := iter.next;
      p := p + 1;
      if iter == null {
        break;
      }
    }
  }

  /** The splice of the ordered addition: before `iter`, or at the end. */
  method SpliceOrAppend(head: Handle, t: Table, add: Handle, iter: Handle?, ghost s: seq<Handle>, ghost pos: nat)
    returns (first: Handle)
    requires s != [] && AppLinked(s) && NoDup(s) && add !in s && head == s[0] && t.tail == s[|s| - 1]
    requires pos <= |s| && iter == At(s, pos)
    modifies t`tail, add`prev, add`next, s`prev, s`next
    ensures AppLinked(InsertedAt(s, pos, add)) && first == At(InsertedAt(s, pos, add), 0)
    ensures t.tail == At(InsertedAt(s, pos, add), |s|)
  {
    first := head;
    if iter != null {
      first := SpliceBefore(head, add, iter, s, pos);
    } else {
      assert InsertedAt(s, |s|, add) == s + [add];
      AppendList(t, add, s);
    }
  }

  /** The ordered addition once its place is found. */
  method AddAt(head: Handle, add: Handle, iter: Handle?, mem: Memory, ghost m: Model, ghost pos: nat)
    returns (newHead: Handle?, ghost r: Model)
    requires Inv(m) && Headed(head, head.tbl, m) && add !in m.items
    requires pos <= |m.items| && iter == At(m.items, pos)
    modifies add, m.items, TableParts(head.tbl)
    ensures Shaped(m) && r == Added(m, add, pos, mem)
    ensures Inv(r) && r.bloomNbits == m.bloomNbits && Headed(newHead, old(head.tbl), r)
    ensures fresh(TableParts(old(head.tbl)) - old(TableParts(head.tbl)))
  {
    ModelFacts(m);
    hide Inv, Added, Bloom.Shows, InsertedAt;
    add.tbl := head.tbl;
    var first := SpliceOrAppend(head, head.tbl, add, iter, m.items, pos);
    newHead, r := AddToHeaded(first, add.tbl, add, mem, m, pos);
  }

  /** HASH_ADD_KEYPTR_BYHASHVALUE_INORDER on a non-empty hash. */
  method AddSorted(head: Handle, add: Handle, cmp: (Handle, Handle) -> int, mem: Memory, ghost m: Model)
    returns (newHead: Handle?, ghost r: Model)
    requires Inv(m) && Headed(head, head.tbl, m) && add !in m.items
    modifies add, m.items, TableParts(head.tbl)
    ensures Shaped(m) && r == Added(m, add, StableSort.Slot(cmp, m.items, add), mem)
    ensures Inv(r) && r.bloomNbits == m.bloomNbits && Headed(newHead, old(head.tbl), r)
    ensures fresh(TableParts(old(head.tbl)) - old(TableParts(head.tbl)))
  {
    hide Inv, Added, StableSort.Slot, BucketsOk, CountersShown, Bloom.Shows;
    var iter := FindSlot(head, add, cmp, m.items);
    newHead, r := AddAt(head, add, iter, mem, m, StableSort.Slot(cmp, m.items, add));
  }

  lemma DeleteFacts(m: Model, del: Handle)
    requires Inv(m) && del in m.items
    ensures var b := Home(del, m.log2); var i := IndexOf(m.items, del);
            && Shaped(m) && b < |m.chains| && del in m.chains[b] && NoDup(m.items)
            && Roomy(m.chains, m.log2, Members(m.chains))
            && (forall n | 0 <= n < |m.chains[b]| :: m.chains[b][n] in Members(m.chains))
            && RemoveAt(m.items, i) == Without(m.items, del)
            && Unhooked(m.chains[b], IndexOf(m.chains[b], del)) == Without(m.chains[b], del)
    ensures Inv(Deleted(m, del)) && Deleted(m, del).bloomNbits == m.bloomNbits
    ensures Deleted(m, del).items == if |m.items| == 1 then [] else Without(m.items, del)
    ensures |m.items| >= 2 ==> Without(m.items, del) != []
    ensures forall x: Handle | x in Deleted(m, del).items :: x in m.items
  {
    RoomyChains(m);
    DeletedInv(m, del);
  }

  lemma NothingOver(bs: seq<Bucket>, chains: seq<seq<Handle>>, mults: seq<nat>, b: nat)
    requires BucketsOk(bs, chains, mults) && b < |chains|
    ensures BucketsOver(bs, chains, mults, b, 0)
  {
  }

  /** The chains once `del` has left its own. */
  ghost function ChainsWithout(m: Model, del: Handle): (r: seq<seq<Handle>>)
    requires |m.chains| == Pow2(m.log2)
  {
    m.chains[Home(del, m.log2) := Without(m.chains[Home(del, m.log2)], del)]
  }

  /** The table's half of what HASH_DELETE leaves of a list of two or more. */
  ghost predicate LinksDeleted(t: Table, m: Model, del: Handle)
    requires |m.chains| == Pow2(m.log2)
    reads t`numItems, t`tail, t`buckets, t.buckets,
          Members(ChainsWithout(m, del))`hhPrev, Members(ChainsWithout(m, del))`hhNext
  {
    && t.tail == At(Without(m.items, del), |m.items| - 2) && t.numItems == |m.items| - 1
    && ChainsLinked(ChainsWithout(m, del)) && BucketsOk(t.buckets[..], ChainsWithout(m, del), m.mults)
  }

  /** HASH_DELETE, in terms of the two structures. */
  method DeleteLinks(head: Handle, t: Table, del: Handle, ghost m: Model) returns (newHead: Handle?)
    requires Inv(m) && del in m.items && AppLinked(m.items) && head == At(m.items, 0) && TableChains(t, m)
    requires t.tail == At(m.items, |m.items| - 1)
    modifies t`tail, t`numItems, t.buckets, m.items`prev, m.items`next, Members(m.chains)`hhPrev,
        Members(m.chains)`hhNext
    ensures Shaped(m)
    ensures |m.items| == 1 ==> newHead == null
    ensures |m.items| >= 2 ==> AppLinked(Without(m.items, del)) && newHead == At(Without(m.items, del), 0)
    ensures |m.items| >= 2 ==> LinksDeleted(t, m, del)
  {
    hide Inv, Roomy, BucketsOver, BucketsOk, Without, Unhooked, RemoveAt, Home, NoDup, Members, Deleted, InBucket,
        Partition;
    DeleteFacts(m, del);
    NothingOver(t.buckets[..], m.chains, m.mults, Home(del, m.log2));
    ghost var b := Home(del, m.log2);
    newHead := DeleteHh(head, t, del, m.items, IndexOf(m.items, del), m.chains, m.mults, m.log2, Members(m.chains),
                        IndexOf(m.chains[b], del));
  }

  lemma DeletedShown(t: Table, m: Model, del: Handle)
    requires Shaped(m) && del in m.items && |m.items| >= 2
    requires LinksDeleted(t, m, del) && CountersShown(t, m)
    requires t.buckets as object != t.bloomBv
    requires t.bloomNbits == m.bloomNbits && Bloom.Shows(t.bloomBv[..], m.bloomNbits, m.bloom)
    ensures TableOk(t, Deleted(m, del))
  {
    assert |Without(m.items, del)| == |m.items| - 1;
    hide ChainsLinked, BucketsOk, Bloom.Shows, Without, Home, Pow2;
    var r := Deleted(m, del);
    assert r.chains == ChainsWithout(m, del) && r.items == Without(m.items, del);
  }

  /** DeleteLinks, in terms of the table. */
  method DeleteFromTable(head: Handle, t: Table, del: Handle, ghost m: Model) returns (newHead: Handle?)
    requires Inv(m) && del in m.items && AppLinked(m.items) && head == At(m.items, 0)
    requires TableChains(t, m) && TailAndBloom(t, m)
    modifies t`tail, t`numItems, t.buckets, m.items`prev, m.items`next, Members(m.chains)`hhPrev,
        Members(m.chains)`hhNext
    ensures Shaped(m)
    ensures |m.items| == 1 ==> newHead == null
    ensures |m.items| >= 2 ==> AppLinked(Without(m.items, del)) && newHead == At(Without(m.items, del), 0)
    ensures |m.items| >= 2 ==> TableOk(t, Deleted(m, del))
  {
    ModelFacts(m);
    hide Inv, BucketsOk, Bloom.Shows, Without, NoDup, Members, Deleted, ChainsWithout, LinksDeleted, Roomy, Shaped,
        TableOk;
    newHead := DeleteLinks(head, t, del, m);
    if |m.items| >= 2 {
      DeletedShown(t, m, del);
    }
  }

  /** HASH_DELETE. */
  method DeleteItem(head: Handle, del: Handle, ghost m: Model) returns (newHead: Handle?, ghost r: Model)
    requires Inv(m) && Headed(head, head.tbl, m) && del in m.items
    modifies m.items, TableParts(head.tbl)
    ensures Shaped(m) && r == Deleted(m, del) && Inv(r) && r.bloomNbits == m.bloomNbits
    ensures Headed(newHead, if |m.items| == 1 then null else old(head.tbl), r)
    ensures TableParts(old(head.tbl)) == old(TableParts(head.tbl))
  {
    hide Inv, Deleted, Home, Members, NoDup, Roomy, Unhooked, Without, RemoveAt, BucketsOk, CountersShown, Bloom.Shows;
    DeleteFacts(m, del);
    MembersAreItems(m);
    r := Deleted(m, del);
    newHead := DeleteFromTable(head, head.tbl, del, m);
  }

  /** HASH_FIND_IN_BKT. */
  method FindInBkt(b: Bucket, hashv: nat, key: Key, ghost c: seq<Handle>) returns (out: Handle?)
    requires ChainLinked(c) && b.head == At(c, 0)
    ensures out == Lookup(c, hashv, key)
  {
    out := b.head;
    ghost var p := 0;
    while out != null
      invariant p <= |c| && out == At(c, p)
      invariant Lookup(c, hashv, key) == Lookup(c[p..], hashv, key)
      decreases |c| - p
    {
      if out.hashv == hashv && |out.key| == |key| {
        if out.key == key {
          break;
        }
      }
      out := out.hhNext;
      p := p + 1;
    }
  }

  /** HASH_BLOOM_TEST. */
  method BloomTest(t: Table, hashv: nat, ghost bits: set<nat>) returns (r: bool)
    requires Bloom.Shows(t.bloomBv[..], t.bloomNbits, bits)
    ensures r == (BloomIndex(hashv, t.bloomNbits) in bits)
  {
    MaskIsMod(hashv, t.bloomNbits);
    r := Bloom.BitTest(t.bloomBv[..], And(hashv, Pow2(t.bloomNbits) - 1));
  }

  /** HASH_FIND_BYHASHVALUE on a non-empty hash. */
  method FindInTable(t: Table, hashv: nat, key: Key, ghost m: Model) returns (out: Handle?)
    requires TableOk(t, m) && m.items != [] && |m.chains| == Pow2(m.log2)
    ensures out == Found(m, hashv, key)
  {
    out := null;
    var bkt := ToBkt(hashv, t.numBuckets);
    MaskIsMod(hashv, m.log2);
    var hit := BloomTest(t, hashv, m.bloom);
    if hit {
      out := FindInBkt(t.buckets[bkt], hashv, key, m.chains[bkt]);
    }
  }

  lemma SortedFacts(m: Model, cmp: (Handle, Handle) -> int)
    requires Inv(m)
    ensures Inv(Sorted(m, cmp))
    ensures forall x: Handle | x in Sorted(m, cmp).items :: x in m.items
  {
    StableSort.SortPermutes(cmp, m.items);
    PermutedInv(m, StableSort.Sort(cmp, m.items));
    PermNoDup(m.items, StableSort.Sort(cmp, m.items));
  }

  /** HASH_SRT on a non-empty hash. */
  method SortItems(head: Handle, cmp: (Handle, Handle) -> int, ghost m: Model) returns (newHead: Handle?)
    requires Inv(m) && Headed(head, head.tbl, m)
    requires StableSort.TotalPreorder(cmp, m.items)
    modifies head.tbl`tail, m.items`prev, m.items`next
    ensures Inv(Sorted(m, cmp))
    ensures Headed(newHead, head.tbl, Sorted(m, cmp))
  {
    hide Inv, Home, Members, Bloom.Shows, BucketsOk, StableSort.Sort, StableSort.TotalPreorder;
    ModelFacts(m);
    SortedFacts(m, cmp);
    ghost var t := head.tbl;
    ghost var r := Sorted(m, cmp);
    forall x: Handle | x in r.items ensures x.tbl == t {
      assert x in m.items;
    }
    ghost var s;
    newHead, s := UtHashSort.Srt(cmp, head, head.tbl, m.items);
  }

  lemma InvCounts(m: Model)
    requires Inv(m)
    ensures Sum(Lengths(m.chains)) == |m.items|
  {
    ChainsCountItems(m.items, m.chains, m.log2);
  }

  lemma SortedMeans(m: Model, cmp: (Handle, Handle) -> int)
    requires Inv(m) && StableSort.TotalPreorder(cmp, m.items)
    ensures var s, r := m.items, Sorted(m, cmp).items;
      && |r| == |s| && multiset(r) == multiset(s)
      && (forall i, j | 0 <= i < j < |r| :: cmp(r[i], r[j]) <= 0)
      && (forall i, j, k, l | 0 <= i < j < |s| && 0 <= k < |r| && 0 <= l < |r| && r[k] == s[i] && r[l] == s[j] ::
            k < l <==> cmp(s[i], s[j]) <= 0)
  {
    hide Inv, StableSort.Sort, StableSort.TotalPreorder;
    InvNoDup(m);
    StableSort.SortMeans(cmp, m.items);
  }

  lemma InvNoDup(m: Model)
    requires Inv(m)
    ensures NoDup(m.items)
  {
  }

  lemma SortedNone(m: Model, cmp: (Handle, Handle) -> int)
    ensures m.items == [] ==> Sorted(m, cmp) == m
  {
  }

  lemma EmptyHead(head: Handle?, t: Table?, m: Model)
    requires Inv(m) && (RoomyChains(m); Headed(head, t, m))
    ensures head == null <==> m.items == []
    ensures head != null ==> head.tbl == t
  {
    RoomyChains(m);
  }

  /** What an ordered addition that succeeds does to the list, in terms of the comparison alone. */
  lemma PlacedInOrder(m: Model, add: Handle, cmp: (Handle, Handle) -> int, mem: Memory)
    requires Inv(m)
    ensures Shaped(m)
    ensures var s, r := m.items, Added(m, add, StableSort.Slot(cmp, m.items, add), mem).items;
      if AddFails(m, add, mem) then r == s
      else exists p | 0 <= p <= |s| ::
        && r == s[..p] + [add] + s[p..]
        && (forall i | 0 <= i < p :: cmp(s[i], add) <= 0)
        && (p < |s| ==> cmp(s[p], add) > 0)
  {
    var p := StableSort.Slot(cmp, m.items, add);
  }

  ghost function TableParts(t: Table?): (r: set<object>)
    reads t
  {
    if t == null then {} else var u: Table := t; {u, u.buckets, u.bloomBv}
  }

  class Hash {
    var head: Handle?
    const bloomNbits: nat
    ghost var m: Model
    ghost var tbl: Table?

    ghost predicate Valid()
      reads this, m.items, tbl, TableParts(tbl)
    {
      && Inv(m) && m.bloomNbits == bloomNbits
      && (RoomyChains(m); Headed(head, tbl, m))
    }

    constructor (bloomNbits: nat)
      ensures Valid() && m == Fresh(bloomNbits)
    {
      this.bloomNbits := bloomNbits;
      head := null;
      m := Fresh(bloomNbits);
      tbl := null;
      new;
      FreshInv(bloomNbits);
    }


    /** The assignment to the user's head pointer that ends every macro. */
    method Rehead(newHead: Handle?, ghost t: Table?, ghost r: Model)
      requires Inv(r) && r.bloomNbits == bloomNbits && Headed(newHead, t, r)
      modifies this
      ensures Valid() && head == newHead && tbl == t && m == r
    {
      hide Inv, Bloom.Shows, BucketsOk;
      head, tbl, m := newHead, t, r;
      assert Headed(head, tbl, m);
    }

    /** HASH_ADD_KEYPTR_BYHASHVALUE. */
    method Add(add: Handle, mem: Memory)
      requires Valid() && add !in m.items
      modifies this, add, m.items, TableParts(tbl)
      ensures Valid() && fresh(TableParts(tbl) - old(TableParts(tbl)))
      ensures Shaped(old(m)) && m == Added(old(m), add, |old(m.items)|, mem)
    {
      hide Inv, Added, TableOk, AppLinked;
      ModelFacts(m);
      var newHead: Handle?;
      ghost var t, r := tbl, m;
      if head == null {
        newHead, t, r := AddFirst(add, mem, bloomNbits, m);
      } else {
        newHead, r := Append(head, add, mem, m);
      }
      Rehead(newHead, t, r);
    }

    /** HASH_ADD_KEYPTR_BYHASHVALUE_INORDER. */
    method AddInorder(add: Handle, cmp: (Handle, Handle) -> int, mem: Memory)
      requires Valid() && add !in m.items
      modifies this, add, m.items, TableParts(tbl)
      ensures Valid() && fresh(TableParts(tbl) - old(TableParts(tbl)))
      ensures Shaped(old(m)) && m == Added(old(m), add, StableSort.Slot(cmp, old(m.items), add), mem)
      ensures var s := old(m.items);
        if AddFails(old(m), add, mem) then m.items == s
        else exists p | 0 <= p <= |s| ::
          && m.items == s[..p] + [add] + s[p..]
          && (forall i | 0 <= i < p :: cmp(s[i], add) <= 0)
          && (p < |s| ==> cmp(s[p], add) > 0)
    {
      hide Inv, Added, TableOk, AppLinked, AddFails, StableSort.Slot;
      ModelFacts(m);
      PlacedInOrder(m, add, cmp, mem);
      var newHead: Handle?;
      ghost var t, r := tbl, m;
      if head == null {
        newHead, t, r := AddFirst(add, mem, bloomNbits, m);
      } else {
        newHead, r := AddSorted(head, add, cmp, mem, m);
      }
      Rehead(newHead, t, r);
    }

    /** HASH_DELETE. */
    method Delete(del: Handle)
      requires Valid() && del in m.items
      modifies this, m.items, TableParts(tbl)
      ensures Valid() && fresh(TableParts(tbl) - old(TableParts(tbl)))
      ensures Shaped(old(m)) && m == Deleted(old(m), del)
    {
      hide Inv, Deleted, TableOk, AppLinked;
      ghost var t := if |m.items| == 1 then null else tbl;
      var newHead;
      ghost var r;
      newHead, r := DeleteItem(head, del, m);
      Rehead(newHead, t, r);
    }

    /** HASH_FIND_BYHASHVALUE. */
    method Find(hashv: nat, key: Key) returns (out: Handle?)
      requires Valid()
      ensures Shaped(m) && out == Found(m, hashv, key)
    {
      out := null;
      if head != null {
        out := FindInTable(head.tbl, hashv, key, m);
      }
    }

    /** HASH_REPLACE_BYHASHVALUE. */
    method Replace(add: Handle, mem: Memory) returns (replaced: Handle?)
      requires Valid()
      requires Shaped(m) && (add in m.items ==> Found(m, add.hashv, add.key) == add)
      modifies this, add, m.items, TableParts(tbl)
      ensures Valid() && fresh(TableParts(tbl) - old(TableParts(tbl)))
      ensures replaced == Found(old(m), add.hashv, add.key)
      ensures m == Replaced(old(m), add, mem)
    {
      hide Inv, Headed, Found, Added, Deleted, Shaped;
      replaced := Find(add.hashv, add.key);
      RemoveFound(replaced, add);
      Add(add, mem);
    }

    /** The deletion inside HASH_REPLACE. */
    method RemoveFound(replaced: Handle?, add: Handle)
      requires Valid()
      requires Shaped(m) && replaced == Found(m, add.hashv, add.key) && (add in m.items ==> replaced == add)
      modifies this, m.items, TableParts(tbl)
      ensures Valid() && fresh(TableParts(tbl) - old(TableParts(tbl)))
      ensures m == if replaced == null then old(m) else Deleted(old(m), replaced)
      ensures add !in m.items && forall i | 0 <= i < |m.items| :: m.items[i] in old(m.items)
    {
      hide Inv, Headed, Found, Deleted, Matches;
      FoundIsScan(m, add.hashv, add.key);
      ModelFacts(m);
      if replaced != null {
        DeletedFacts(m, replaced);
        Delete(replaced);
      }
    }

    /** HASH_SRT: in the order of the comparison, an earlier item staying before a later one unless it exceeds it. */
    method Sort(cmp: (Handle, Handle) -> int)
      requires Valid() && StableSort.TotalPreorder(cmp, m.items)
      modifies this, m.items, TableParts(tbl)
      ensures Valid() && fresh(TableParts(tbl) - old(TableParts(tbl)))
      ensures m == Sorted(old(m), cmp) && |m.items| == |old(m.items)| && multiset(m.items) == multiset(old(m.items))
      ensures forall i, j | 0 <= i < j < |m.items| :: cmp(m.items[i], m.items[j]) <= 0
      ensures var s, r := old(m.items), m.items;
        forall i, j, k, l | 0 <= i < j < |s| && 0 <= k < |r| && 0 <= l < |r| && r[k] == s[i] && r[l] == s[j] ::
          k < l <==> cmp(s[i], s[j]) <= 0
    {
      hide Inv, TableOk, AppLinked, StableSort.Sort, StableSort.TotalPreorder, Headed;
      SortedMeans(m, cmp);
      SortedNone(m, cmp);
      EmptyHead(head, tbl, m);
      if head != null {
        var newHead := SortItems(head, cmp, m);
        Rehead(newHead, tbl, Sorted(m, cmp));
      }
    }

    /** HASH_CNT. */
    method Count() returns (n: nat)
      requires Valid()
      ensures n == |m.items|
    {
      n := if head != null then head.tbl.numItems else 0;
    }

    /** HASH_FSCK finds nothing wrong. */
    method Fsck() returns (ok: bool)
      requires Valid()
      ensures ok
    {
      ok := true;
      if head != null {
        hide Inv;
        Walkable(head.tbl, m);
        InvCounts(m);
        ok := UtHashFsck.Check(head, head.tbl, m.chains, m.items);
      }
    }
  }

  /** The lists of a table can be walked, and its back links and counts are right. */
  lemma Walkable(t: Table, m: Model)
    requires TableChains(t, m) && AppLinked(m.items)
    ensures UtHashFsck.ChainsForward(t, m.chains) && ListForward(m.items)
    ensures UtHashFsck.BucketsRight(t.buckets[..], m.chains, |m.chains|) && UtHashFsck.ListBackward(m.items)
    ensures t.numItems == |m.items|
  {
    assert |t.buckets[..]| == |m.chains|;
    forall b | 0 <= b < |m.chains|
      ensures t.buckets[b] == Bucket(At(m.chains[b], 0), |m.chains[b]|, m.mults[b]) && ChainLinked(m.chains[b])
    {
      assert t.buckets[..][b] == t.buckets[b];
    }
  }

  lemma DeletedFacts(m: Model, h: Handle)
    requires Inv(m) && h in m.items
    ensures Shaped(m) && forall y: Handle :: y in Deleted(m, h).items <==> y in m.items && y != h
    ensures forall i | 0 <= i < |Deleted(m, h).items| :: Deleted(m, h).items[i] in m.items
  {
    DeletedInv(m, h);
    forall i | 0 <= i < |Deleted(m, h).items| ensures Deleted(m, h).items[i] in m.items {
      assert Deleted(m, h).items[i] in Deleted(m, h).items;
    }
  }
}