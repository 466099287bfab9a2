/** The abstract state of a hash: the application order, the bucket chains and the counters,
    with every operation as a function, and the invariant that every run keeps. */
module UtHashModel {
  import opened Bits
  import opened Seqs
  import opened UtHashTypes
  import StableSort

  datatype Model = Model(
    items: seq<Handle>,
    chains: seq<seq<Handle>>,
    mults: seq<nat>,
    log2: nat,
    ideal: nat,
    nonideal: nat,
    ineff: nat,
    noexpand: bool,
    bloom: set<nat>,
    bloomNbits: nat,
    history: seq<bool>   // for every expansion since the table was made: was it ineffective?
  )

  /** The bucket of a hash value among `Pow2(k)` buckets. */
  function BucketOf(hashv: nat, k: nat): (b: nat)
    ensures b < Pow2(k)
  {
    hashv % Pow2(k)
  }

  /** The bucket of an item. */
  function Home(h: Handle, k: nat): (b: nat)
    ensures b < Pow2(k)
  {
    BucketOf(h.hashv, k)
  }

  /** The bucket, before doubling, of the items in new bucket `b`. */
  function Parent(b: nat, k: nat): (d: nat)
    ensures d < Pow2(k)
  {
    b % Pow2(k)
  }

  /** The Bloom bit of a hash value. */
  function BloomIndex(hashv: nat, nbits: nat): (b: nat)
    ensures b < Pow2(nbits)
  {
    hashv % Pow2(nbits)
  }

  function Fresh(nbits: nat): (m: Model) {
    Model([], seq(INITIAL_NUM_BUCKETS, _ => []), seq(INITIAL_NUM_BUCKETS, _ => 0), INITIAL_NUM_BUCKETS_LOG2,
          0, 0, 0, false, {}, nbits, [])
  }

  // ---------- invariant ----------

  /** A chain of bucket `b`. */
  ghost predicate InBucket(c: seq<Handle>, b: nat, k: nat) {
    && NoDup(c)
    && (forall x: Handle | x in c :: Home(x, k) == b)
  }

  /** Every chain holds items of its own bucket only, once each, and every item is in its chain. */
  ghost predicate Partition(items: seq<Handle>, chains: seq<seq<Handle>>, k: nat) {
    && |chains| == Pow2(k)
    && (forall b | 0 <= b < |chains| :: InBucket(chains[b], b, k) && (forall x: Handle | x in chains[b] :: x in items))
    && (forall x: Handle | x in items :: x in chains[Home(x, k)])
  }

  /** The number of ineffective expansions in a row that end the history. */
  function Trailing(history: seq<bool>): (n: nat) {
    if history == [] || !history[|history| - 1] then 0 else 1 + Trailing(history[..|history| - 1])
  }

  ghost predicate CountersOk(m: Model) {
    && m.ineff == Trailing(m.history)
    && m.noexpand == (m.ineff > 1)
    && (forall n | 0 <= n < |m.history| :: Trailing(m.history[..n]) <= 1)
  }

  /** As many buckets as the logarithm says. */
  predicate Shaped(m: Model) { |m.chains| == |m.mults| == Pow2(m.log2) }

  ghost predicate BloomOk(m: Model) {
    forall x: Handle | x in m.items :: BloomIndex(x.hashv, m.bloomNbits) in m.bloom
  }

  ghost predicate Inv(m: Model) {
    && NoDup(m.items)
    && Partition(m.items, m.chains, m.log2)
    && |m.mults| == |m.chains|
    && CountersOk(m)
    && BloomOk(m)
    && (m.items == [] ==> m == Fresh(m.bloomNbits))
  }

  // ---------- operations ----------

  function CeilDiv(n: nat, d: nat): (q: nat)
    requires d > 0
  {
    n / d + (if n % d != 0 then 1 else 0)
  }

  /** What expansion makes of one old chain for new bucket `b`: its members there, reversed. */
  function NewChain(chain: seq<Handle>, b: nat, k: nat): (r: seq<Handle>) {
    if chain == [] then []
    else
      var n := |chain| - 1;
      if Home(chain[n], k) == b then [chain[n]] + NewChain(chain[..n], b, k) else NewChain(chain[..n], b, k)
  }

  function Redistributed(chains: seq<seq<Handle>>, k: nat): (r: seq<seq<Handle>>)
    requires |chains| == Pow2(k)
    ensures |r| == Pow2(k + 1)
    ensures forall b | 0 <= b < |r| :: r[b] == NewChain(chains[Parent(b, k)], b, k + 1)
  {
    seq(Pow2(k + 1), b requires 0 <= b < Pow2(k + 1) => NewChain(chains[Parent(b, k)], b, k + 1))
  }

  /** `expand_mult` of a bucket after `count` items arrived one by one, `ideal` being the ideal length. */
  function MultAfter(count: nat, ideal: nat): (r: nat) {
    if count == 0 then 0
    else
      var p := MultAfter(count - 1, ideal);
      if count > ideal && count > p * ideal then p + 1 else p
  }

  function Excess(count: nat, ideal: nat): (r: nat) { if count > ideal then count - ideal else 0 }

  function Excesses(chains: seq<seq<Handle>>, ideal: nat): (r: seq<nat>)
    ensures |r| == |chains|
    ensures forall b | 0 <= b < |r| :: r[b] == Excess(|chains[b]|, ideal)
  {
    seq(|chains|, b requires 0 <= b < |chains| => Excess(|chains[b]|, ideal))
  }

  function Mults(chains: seq<seq<Handle>>, ideal: nat): (r: seq<nat>)
    ensures |r| == |chains|
    ensures forall b | 0 <= b < |r| :: r[b] == MultAfter(|chains[b]|, ideal)
  {
    seq(|chains|, b requires 0 <= b < |chains| => MultAfter(|chains[b]|, ideal))
  }

  /** HASH_EXPAND_BUCKETS. */
  function Expanded(m: Model): (r: Model)
    requires |m.chains| == Pow2(m.log2)
  {
    var chains := Redistributed(m.chains, m.log2);
    var ideal := CeilDiv(|m.items|, Pow2(m.log2 + 1));
    var nonideal := Sum(Excesses(chains, ideal));
    var ineffective := nonideal > |m.items| / 2;
    var ineff := if ineffective then m.ineff + 1 else 0;
    m.(chains := chains, mults := Mults(chains, ideal), log2 := m.log2 + 1, ideal := ideal, nonideal := nonideal,
       ineff := ineff, noexpand := m.noexpand || ineff > 1, history := m.history + [ineffective])
  }

  /** Must a bucket with this many items be expanded? */
  predicate Overfull(count: nat, mult: nat, noexpand: bool) {
    count >= (mult + 1) * BKT_CAPACITY_THRESH && !noexpand
  }

  /** The item is in the list at `pos` and at the front of its chain. */
  function Placed(m: Model, h: Handle, pos: nat): (r: Model)
    requires |m.chains| == Pow2(m.log2)
    requires pos <= |m.items|
  {
    var b := Home(h, m.log2);
    m.(items := m.items[..pos] + [h] + m.items[pos..], chains := m.chains[b := [h] + m.chains[b]])
  }

  function Bloomed(m: Model, h: Handle): (r: Model) {
    m.(bloom := m.bloom + {BloomIndex(h.hashv, m.bloomNbits)})
  }

  predicate AddExpands(m: Model, h: Handle)
    requires Shaped(m)
  {
    Overfull(|m.chains[Home(h, m.log2)]| + 1, m.mults[Home(h, m.log2)], m.noexpand)
  }

  /** What the allocator grants to one addition: the table, its first bucket array and its Bloom
      bits when the hash is empty, and the doubled bucket array of an expansion. */
  datatype Memory = Memory(table: bool, buckets: bool, bloom: bool, expansion: bool)

  predicate AddFails(m: Model, h: Handle, mem: Memory)
    requires Shaped(m)
  {
    if m.items == [] then !(mem.table && mem.buckets && mem.bloom) else AddExpands(m, h) && !mem.expansion
  }

  /** Addition at a list position. Out of memory leaves the hash as it was. */
  function Added(m: Model, h: Handle, pos: nat, mem: Memory): (r: Model)
    requires Shaped(m)
    requires pos <= |m.items|
  {
    if AddFails(m, h, mem) then m
    else
      var p := Placed(m, h, pos);
      Bloomed(if AddExpands(m, h) then Expanded(p) else p, h)
  }

  /** HASH_DELETE: the last item takes the table with it. */
  function Deleted(m: Model, h: Handle): (r: Model)
    requires |m.chains| == Pow2(m.log2)
    ensures Shaped(m) ==> Shaped(r)
  {
    FreshShaped(m.bloomNbits);
    if |m.items| == 1 then Fresh(m.bloomNbits)
    else
      var b := Home(h, m.log2);
      m.(items := Without(m.items, h), chains := m.chains[b := Without(m.chains[b], h)])
  }

  predicate Matches(x: Handle, hashv: nat, key: Key) { x.hashv == hashv && x.key == key }

  /** The first match of a chain. */
  function Lookup(chain: seq<Handle>, hashv: nat, key: Key): (r: Handle?) {
    if chain == [] then null
    else if Matches(chain[0], hashv, key) then chain[0]
    else Lookup(chain[1..], hashv, key)
  }

  /** HASH_FIND_BYHASHVALUE. */
  function Found(m: Model, hashv: nat, key: Key): (r: Handle?)
    requires |m.chains| == Pow2(m.log2)
  {
    if m.items == [] || BloomIndex(hashv, m.bloomNbits) !in m.bloom then null
    else Lookup(m.chains[BucketOf(hashv, m.log2)], hashv, key)
  }

  /** HASH_REPLACE_BYHASHVALUE: the item with the same key, if there is one, goes first. */
  function Replaced(m: Model, h: Handle, mem: Memory): (r: Model)
    requires Shaped(m)
  {
    var x := Found(m, h.hashv, h.key);
    var d := if x == null then m else Deleted(m, x);
    Added(d, h, |d.items|, mem)
  }

  /** HASH_SRT. */
  function Sorted(m: Model, cmp: (Handle, Handle) -> int): (r: Model) {
    m.(items := StableSort.Sort(cmp, m.items))
  }

  // ---------- invariant preservation ----------

  lemma FreshShaped(nbits: nat)
    ensures Shaped(Fresh(nbits))
  {
    assert Pow2(5) == 32 by {
      assert Pow2(0) == 1 && Pow2(1) == 2 && Pow2(2) == 4 && Pow2(3) == 8 && Pow2(4) == 16;
    }
  }

  lemma FreshInv(nbits: nat)
    ensures Inv(Fresh(nbits))
  {
    FreshShaped(nbits);
  }

  lemma PlacedPartition(m: Model, h: Handle, pos: nat)
    requires NoDup(m.items) && Partition(m.items, m.chains, m.log2)
    requires pos <= |m.items| && h !in m.items
    ensures var p := Placed(m, h, pos); NoDup(p.items) && Partition(p.items, p.chains, p.log2)
    ensures forall y: Handle :: y in Placed(m, h, pos).items <==> y in m.items || y == h
  {
    NoDupInsert(m.items, pos, h);
    var b := Home(h, m.log2);
    assert h !in m.chains[b];
    NoDupInsert(m.chains[b], 0, h);
    assert m.chains[b][..0] + [h] + m.chains[b][0..] == [h] + m.chains[b];
  }

  lemma {:induction false} NewChainMembers(chain: seq<Handle>, b: nat, k: nat, x: Handle)
    ensures x in NewChain(chain, b, k) <==> x in chain && Home(x, k) == b
  {
    if chain != [] {
      var n := |chain| - 1;
      NewChainMembers(chain[..n], b, k, x);
      assert chain == chain[..n] + [chain[n]];
    }
  }

  lemma {:induction false} NewChainNoDup(chain: seq<Handle>, b: nat, k: nat)
    requires NoDup(chain)
    ensures NoDup(NewChain(chain, b, k))
  {
    if chain != [] {
      var n := |chain| - 1;
      NewChainNoDup(chain[..n], b, k);
      NewChainMembers(chain[..n], b, k, chain[n]);
    }
  }

  /** Doubling splits bucket `c` into `c` and `c + 2^k`. */
  lemma BucketSplits(hashv: nat, k: nat)
    ensures Parent(BucketOf(hashv, k + 1), k) == BucketOf(hashv, k)
  {
    ModHalves(hashv, Pow2(k), Pow2(k + 1));
  }

  lemma HomeSplits(h: Handle, k: nat)
    ensures Parent(Home(h, k + 1), k) == Home(h, k)
  {
    BucketSplits(h.hashv, k);
  }

  lemma NewChainInBucket(chain: seq<Handle>, b: nat, k: nat)
    requires NoDup(chain)
    ensures InBucket(NewChain(chain, b, k), b, k)
    ensures forall x: Handle | x in NewChain(chain, b, k) :: x in chain
  {
    NewChainNoDup(chain, b, k);
    hide NewChain, Home, NoDup;
    forall x: Handle | x in NewChain(chain, b, k) ensures Home(x, k) == b && x in chain {
      NewChainMembers(chain, b, k, x);
    }
  }

  /** Expansion moves every item to its new bucket and loses none. */
  lemma ExpandedPartition(items: seq<Handle>, chains: seq<seq<Handle>>, k: nat)
    requires Partition(items, chains, k)
    ensures Partition(items, Redistributed(chains, k), k + 1)
  {
    hide NewChain, Home, Parent, Pow2, Redistributed;
    var r := Redistributed(chains, k);
    forall b | 0 <= b < |r| ensures InBucket(r[b], b, k + 1) && (forall x: Handle | x in r[b] :: x in items) {
      var d := Parent(b, k);
      assert InBucket(chains[d], d, k);
      NewChainInBucket(chains[d], b, k + 1);
    }
    forall x: Handle | x in items ensures x in r[Home(x, k + 1)] {
      HomeSplits(x, k);
      NewChainMembers(chains[Home(x, k)], Home(x, k + 1), k + 1, x);
    }
  }

  lemma ExpandedCounters(m: Model)
    requires |m.chains| == Pow2(m.log2)
    requires CountersOk(m) && !m.noexpand
    ensures CountersOk(Expanded(m))
  {
    var r := Expanded(m);
    assert r.history[..|m.history|] == m.history;
    forall n | 0 <= n < |r.history| ensures Trailing(r.history[..n]) <= 1 {
      if n < |m.history| {
        assert r.history[..n] == m.history[..n];
      }
    }
  }

  /** An addition keeps the invariant, whether or not it expands or runs out of memory. */
  lemma AddedInv(m: Model, h: Handle, pos: nat, mem: Memory)
    requires Inv(m) && pos <= |m.items| && h !in m.items
    ensures Inv(Added(m, h, pos, mem))
  {
    if !AddFails(m, h, mem) {
      PlacedPartition(m, h, pos);
      hide Partition, NewChain, Redistributed, MultAfter, Sum, Trailing, NoDup, CountersOk, BloomOk, Home;
      var p := Placed(m, h, pos);
      if AddExpands(m, h) {
        ExpandedPartition(p.items, p.chains, p.log2);
        ExpandedCounters(p);
        BloomedInv(m, Expanded(p), h);
      } else {
        BloomedInv(m, p, h);
      }
    }
  }

  lemma BloomedInv(m: Model, p: Model, h: Handle)
    requires BloomOk(m) && p.bloom == m.bloom && p.bloomNbits == m.bloomNbits
    requires forall y: Handle :: y in p.items <==> y in m.items || y == h
    requires NoDup(p.items) && Partition(p.items, p.chains, p.log2) && |p.mults| == |p.chains| && CountersOk(p)
    ensures Inv(Bloomed(p, h))
  {
    assert h in p.items;
  }

  lemma DeletedInv(m: Model, h: Handle)
    requires Inv(m) && h in m.items
    ensures Inv(Deleted(m, h))
    ensures forall y: Handle :: y in Deleted(m, h).items <==> y in m.items && y != h
  {
    if |m.items| == 1 {
      FreshInv(m.bloomNbits);
      assert m.items == [h];
    } else {
      NoDupWithout(m.items, h);
      NoDupWithout(m.chains[Home(h, m.log2)], h);
    }
  }

  lemma PermutedInv(m: Model, items: seq<Handle>)
    requires Inv(m) && multiset(items) == multiset(m.items)
    ensures Inv(m.(items := items))
  {
    PermNoDup(m.items, items);
    if items == [] {
      assert multiset(m.items) == multiset{};
      assert m.items == [];
    }
  }

  lemma {:induction false} LookupMatches(chain: seq<Handle>, hashv: nat, key: Key)
    ensures var r := Lookup(chain, hashv, key);
            if r == null then forall x: Handle | x in chain :: !Matches(x, hashv, key)
            else r in chain && Matches(r, hashv, key)
  {
    if chain != [] { LookupMatches(chain[1..], hashv, key); }
  }

  /** HASH_FIND answers null exactly when a scan of the application list finds no such item, and what
      it finds is such an item. */
  lemma FoundIsScan(m: Model, hashv: nat, key: Key)
    requires Inv(m)
    ensures var r := Found(m, hashv, key);
            && (r == null <==> forall x: Handle | x in m.items :: !Matches(x, hashv, key))
            && (r != null ==> r in m.items && Matches(r, hashv, key))
  {
    var b := BucketOf(hashv, m.log2);
    LookupMatches(m.chains[b], hashv, key);
    forall x: Handle | x in m.items && Matches(x, hashv, key)
      ensures BloomIndex(hashv, m.bloomNbits) in m.bloom && x in m.chains[b]
    {
      assert Home(x, m.log2) == b;
    }
  }

  lemma ReplacedInv(m: Model, h: Handle, mem: Memory)
    requires Inv(m)
    requires h in m.items ==> Found(m, h.hashv, h.key) == h
    ensures Inv(Replaced(m, h, mem))
  {
    FoundIsScan(m, h.hashv, h.key);
    var x := Found(m, h.hashv, h.key);
    if x == null {
      AddedInv(m, h, |m.items|, mem);
    } else {
      DeletedInv(m, x);
      AddedInv(Deleted(m, x), h, |Deleted(m, x).items|, mem);
    }
  }

  /** The bucket counts add up to the number of items. */
  lemma ChainsCountItems(items: seq<Handle>, chains: seq<seq<Handle>>, k: nat)
    requires NoDup(items) && Partition(items, chains, k)
    ensures Sum(Lengths(chains)) == |items|
  {
    FlatLength(chains);
    forall a, b, x: Handle | 0 <= a < |chains| && 0 <= b < |chains| && x in chains[a] && x in chains[b] ensures a == b {
      assert Home(x, k) == a;
    }
    FlatNoDup(chains);
    forall x: Handle ensures x in Flat(chains) <==> x in items {
      FlatMembers(chains, x);
      if x in items {
        assert x in chains[Home(x, k)];
      }
    }
    SameMembersSameLength(items, Flat(chains));
  }
}