/** HASH_EXPAND_BUCKETS: the bucket array doubles and every chain is relinked in place. */
module UtHashExpand {
  import opened Bits
  import opened Seqs
  import opened UtHashTypes
  import opened UtHashModel
  import opened UtHashLinks

  /** HASH_TO_BKT. */
  function ToBkt(hashv: nat, numBkts: nat): (b: nat)
    requires numBkts > 0
  {
    And(hashv, numBkts - 1)
  }

  /** The part of old chain `d` already moved when the cursor stands at item `j` of chain `i`. */
  function Seen(chains: seq<seq<Handle>>, i: nat, j: nat, d: nat): (r: seq<Handle>)
    requires d < |chains|
    requires i < |chains| ==> j <= |chains[i]|
  {
    if d < i then chains[d] else if d == i then chains[i][..j] else []
  }

  /** The new chains at that moment. */
  function Partial(chains: seq<seq<Handle>>, k: nat, i: nat, j: nat): (r: seq<seq<Handle>>)
    requires |chains| == Pow2(k)
    requires i < |chains| ==> j <= |chains[i]|
    ensures |r| == Pow2(k + 1)
    ensures forall b | 0 <= b < |r| :: r[b] == NewChain(Seen(chains, i, j, Parent(b, k)), b, k + 1)
  {
    seq(Pow2(k + 1), b requires 0 <= b < Pow2(k + 1) => NewChain(Seen(chains, i, j, Parent(b, k)), b, k + 1))
  }

  lemma PartialStart(chains: seq<seq<Handle>>, k: nat)
    requires |chains| == Pow2(k)
    ensures forall b | 0 <= b < Pow2(k + 1) :: Partial(chains, k, 0, 0)[b] == []
  {
  }

  lemma PartialRow(chains: seq<seq<Handle>>, k: nat, i: nat)
    requires |chains| == Pow2(k) && i < |chains|
    ensures Partial(chains, k, i, |chains[i]|) == Partial(chains, k, i + 1, 0)
  {
    forall d | 0 <= d < |chains| ensures Seen(chains, i, |chains[i]|, d) == Seen(chains, i + 1, 0, d) {
      assert chains[i][..|chains[i]|] == chains[i];
    }
  }

  lemma PartialEnd(chains: seq<seq<Handle>>, k: nat)
    requires |chains| == Pow2(k)
    ensures Partial(chains, k, |chains|, 0) == Redistributed(chains, k)
  {
  }

  lemma PartialStep(items: seq<Handle>, chains: seq<seq<Handle>>, k: nat, i: nat, j: nat)
    requires Partition(items, chains, k)
    requires i < |chains| && j < |chains[i]|
    ensures var h := chains[i][j]; var b := Home(h, k + 1); var p := Partial(chains, k, i, j);
            Partial(chains, k, i, j + 1) == p[b := [h] + p[b]]
  {
    var h := chains[i][j];
    var b := Home(h, k + 1);
    HomeSplits(h, k);
    assert h in chains[i] && Home(h, k) == i;
    var p, r := Partial(chains, k, i, j), Partial(chains, k, i, j + 1);
    assert chains[i][..j + 1][..j] == chains[i][..j];
    forall c | 0 <= c < |r| ensures r[c] == p[b := [h] + p[b]][c] {
      if Parent(c, k) == i {
        assert NewChain(chains[i][..j + 1], c, k + 1)
            == if b == c then [h] + NewChain(chains[i][..j], c, k + 1) else NewChain(chains[i][..j], c, k + 1);
      }
    }
  }

  lemma PartialRoomy(items: seq<Handle>, chains: seq<seq<Handle>>, k: nat, i: nat, j: nat, all: set<Handle>)
    requires Partition(items, chains, k)
    requires i < |chains| ==> j <= |chains[i]|
    requires all == Members(chains)
    ensures Roomy(Partial(chains, k, i, j), k + 1, all)
  {
    assert |chains| == Pow2(k);
    hide Partial, Partition, InBucket, Members;
    var p := Partial(chains, k, i, j);
    forall b | 0 <= b < |p| ensures InBucket(p[b], b, k + 1) && (forall x: Handle | x in p[b] :: x in all) {
      PartialInBucket(items, chains, k, i, j, b);
    }
  }

  lemma PartialInBucket(items: seq<Handle>, chains: seq<seq<Handle>>, k: nat, i: nat, j: nat, b: nat)
    requires Partition(items, chains, k)
    requires i < |chains| ==> j <= |chains[i]|
    requires b < Pow2(k + 1)
    ensures var c := Partial(chains, k, i, j)[b];
            InBucket(c, b, k + 1) && (forall x: Handle | x in c :: x in Members(chains))
  {
    var d := Parent(b, k);
    SeenFacts(items, chains, k, i, j, d);
    NewChainInBucket(Seen(chains, i, j, d), b, k + 1);
    hide NewChain, Home, Parent, Pow2, Seen, Partition;
  }

  lemma SeenFacts(items: seq<Handle>, chains: seq<seq<Handle>>, k: nat, i: nat, j: nat, d: nat)
    requires Partition(items, chains, k) && d < |chains|
    requires i < |chains| ==> j <= |chains[i]|
    ensures NoDup(Seen(chains, i, j, d))
    ensures forall x: Handle | x in Seen(chains, i, j, d) :: x in Members(chains)
  {
    assert InBucket(chains[d], d, k);
  }

  lemma CursorNotMoved(items: seq<Handle>, chains: seq<seq<Handle>>, k: nat, i: nat, j: nat)
    requires Partition(items, chains, k)
    requires i < |chains| && j < |chains[i]|
    ensures chains[i][j] !in Partial(chains, k, i, j)[Home(chains[i][j], k + 1)]
  {
    var h := chains[i][j];
    HomeSplits(h, k);
    assert h in chains[i];
    NewChainMembers(chains[i][..j], Home(h, k + 1), k + 1, h);
    assert h !in chains[i][..j];
  }

  /** One more item in a bucket raises the tally of non-ideal items if the bucket is past the ideal. */
  lemma ExcessStep(nc: seq<seq<Handle>>, b: nat, h: Handle, ideal: nat)
    requires b < |nc|
    ensures var r := nc[b := [h] + nc[b]];
            && Sum(Excesses(r, ideal)) == Sum(Excesses(nc, ideal)) + (if |nc[b]| + 1 > ideal then 1 else 0)
            && Mults(r, ideal) == Mults(nc, ideal)[b := MultAfter(|nc[b]| + 1, ideal)]
  {
    var r := nc[b := [h] + nc[b]];
    SumUpdate(Excesses(nc, ideal), b, Excess(|nc[b]| + 1, ideal));
    assert Excesses(r, ideal) == Excesses(nc, ideal)[b := Excess(|nc[b]| + 1, ideal)];
  }

  /** The counting half of the loop body. */
  method Tally(t: Table, nb: array<Bucket>, bkt: nat, ghost c: seq<Handle>)
    requires bkt < nb.Length && nb[bkt] == Bucket(At(c, 0), |c|, MultAfter(|c|, t.idealChainMaxlen))
    modifies nb, t`nonidealItems
    ensures nb[..] == old(nb[..])[bkt := Bucket(At(c, 0), |c| + 1, MultAfter(|c| + 1, t.idealChainMaxlen))]
    ensures t.nonidealItems == old(t.nonidealItems) + (if |c| + 1 > t.idealChainMaxlen then 1 else 0)
  {
    nb[bkt] := nb[bkt].(count := nb[bkt].count + 1);
    if nb[bkt].count > t.idealChainMaxlen {
      t.nonidealItems := t.nonidealItems + 1;
      if nb[bkt].count > nb[bkt].expandMult * t.idealChainMaxlen {
        nb[bkt] := nb[bkt].(expandMult := nb[bkt].expandMult + 1);
      }
    }
  }

  /** The linking half of the loop body. */
  method PushNew(nb: array<Bucket>, bkt: nat, thh: Handle, ghost c: seq<Handle>)
    requires bkt < nb.Length && nb[bkt].head == At(c, 0)
    requires ChainLinked(c) && NoDup(c) && thh !in c
    modifies nb, thh`hhPrev, thh`hhNext, c`hhPrev
    ensures ChainLinked([thh] + c)
    ensures nb[..] == old(nb[..])[bkt := old(nb[bkt]).(head := thh)]
  {
    thh.hhPrev := null;
    thh.hhNext := nb[bkt].head;
    if nb[bkt].head != null {
      nb[bkt].head.hhPrev := thh;
    }
    nb[bkt] := nb[bkt].(head := thh);
    ghost var r := [thh] + c;
    assert forall i | 1 <= i < |r| :: r[i] == c[i - 1];
  }

  /** The same, with the other chains in view. */
  method PushNewKeepsOthers(nb: array<Bucket>, bkt: nat, thh: Handle, ghost nc: seq<seq<Handle>>, ghost k: nat,
      ghost all: set<Handle>)
    requires bkt < nb.Length && bkt == Home(thh, k) && bkt < |nc|
    requires nb[bkt].head == At(nc[bkt], 0)
    requires ChainsLinked(nc) && Roomy(nc, k, all) && thh !in nc[bkt]
    modifies nb, thh`hhPrev, thh`hhNext, nc[bkt]`hhPrev
    ensures ChainsLinked(nc[bkt := [thh] + nc[bkt]])
    ensures nb[..] == old(nb[..])[bkt := old(nb[bkt]).(head := thh)]
  {
    PushNew(nb, bkt, thh, nc[bkt]);
    forall b | 0 <= b < |nc| && b != bkt ensures ChainLinked(nc[b]) {
      forall i | 0 <= i < |nc[b]| ensures nc[b][i] !in nc[bkt] && nc[b][i] != thh {
        assert nc[b][i] in nc[b] && Home(nc[b][i], k) == b;
      }
    }
  }

  /** The new buckets and the tallies describe the chains built so far. */
  ghost predicate Moved(t: Table, nb: array<Bucket>, nc: seq<seq<Handle>>)
    reads t, nb, Members(nc)`hhPrev, Members(nc)`hhNext
  {
    && BucketsOk(nb[..], nc, Mults(nc, t.idealChainMaxlen))
    && t.nonidealItems == Sum(Excesses(nc, t.idealChainMaxlen))
    && ChainsLinked(nc)
  }

  /** The loop body of HASH_EXPAND_BUCKETS: one item goes to the front of its new bucket. */
  method MoveItem(t: Table, nb: array<Bucket>, thh: Handle, bkt: nat, ghost nc: seq<seq<Handle>>, ghost k: nat,
      ghost all: set<Handle>)
    requires bkt < nb.Length && bkt == Home(thh, k)
    requires Moved(t, nb, nc)
    requires Roomy(nc, k, all) && thh !in nc[bkt]
    modifies nb, t`nonidealItems, thh`hhPrev, thh`hhNext, nc[bkt]`hhPrev
    ensures Moved(t, nb, nc[bkt := [thh] + nc[bkt]])
  {
    hide Roomy, Sum, MultAfter, Excess, Home;
    ExcessStep(nc, bkt, thh, t.idealChainMaxlen);
    Tally(t, nb, bkt, nc[bkt]);
    PushNewKeepsOthers(nb, bkt, thh, nc, k, all);
  }

  ghost predicate UnreadFrom(chains: seq<seq<Handle>>, i: nat)
    reads Members(chains)`hhNext
  {
    forall d | i <= d < |chains| :: ChainForward(chains[d])
  }

  /** The item under the cursor occurs nowhere in what is still to be read. */
  ghost predicate Passed(h: Handle, rest: seq<Handle>, chains: seq<seq<Handle>>, i: nat) {
    && (forall n | 0 <= n < |rest| :: rest[n] != h)
    && (forall d, n | i <= d < |chains| && 0 <= n < |chains[d]| :: chains[d][n] != h)
  }

  lemma CursorPassed(items: seq<Handle>, chains: seq<seq<Handle>>, k: nat, i: nat, j: nat)
    requires Partition(items, chains, k)
    requires i < |chains| && j < |chains[i]|
    ensures Passed(chains[i][j], chains[i][j + 1..], chains, i + 1)
  {
    assert chains[i][j] in chains[i];
    forall d, n | i < d < |chains| && 0 <= n < |chains[d]| ensures chains[d][n] != chains[i][j] {
      assert chains[d][n] in chains[d] && Home(chains[d][n], k) == d;
    }
  }

  /** One item moves; what is still to be read is not disturbed. */
  method MoveItemKeepsUnread(t: Table, nb: array<Bucket>, thh: Handle, bkt: nat, ghost nc: seq<seq<Handle>>,
      ghost k: nat,
                             ghost all: set<Handle>, ghost rest: seq<Handle>, ghost chains: seq<seq<Handle>>,
                                 ghost i: nat)
    requires bkt < nb.Length && bkt == Home(thh, k)
    requires Moved(t, nb, nc)
    requires Roomy(nc, k, all) && thh !in nc[bkt] && thh in all
    requires ChainForward(rest) && UnreadFrom(chains, i) && Passed(thh, rest, chains, i)
    modifies nb, t`nonidealItems, all`hhPrev, all`hhNext
    ensures Moved(t, nb, nc[bkt := [thh] + nc[bkt]])
    ensures ChainForward(rest) && UnreadFrom(chains, i)
  {
    assert bkt < |nc|;
    hide Moved, Home;
    forall x: Handle | x in nc[bkt] ensures x in all {
      assert Home(x, k) == bkt;
    }
    MoveItem(t, nb, thh, bkt, nc, k, all);
  }

  /** The bucket among twice as many. */
  lemma MaskIsHome(h: Handle, k: nat)
    ensures Pow2(k) * 2 == Pow2(k + 1) > 0 && ToBkt(h.hashv, Pow2(k) * 2) == Home(h, k + 1)
  {
    MaskIsMod(h.hashv, k + 1);
  }

  method MoveNext(t: Table, nb: array<Bucket>, thh: Handle, numBuckets: nat, ghost items: seq<Handle>,
                  ghost chains: seq<seq<Handle>>, ghost k: nat, ghost i: nat, ghost j: nat)
    returns (nxt: Handle?)
    requires Partition(items, chains, k) && numBuckets == Pow2(k)
    requires i < |chains| && j < |chains[i]| && thh == chains[i][j]
    requires nb.Length == Pow2(k + 1) && |chains| == Pow2(k)
    requires Moved(t, nb, Partial(chains, k, i, j))
    requires ChainForward(chains[i][j..]) && UnreadFrom(chains, i + 1)
    modifies nb, t`nonidealItems, Members(chains)`hhPrev, Members(chains)`hhNext
    ensures Moved(t, nb, Partial(chains, k, i, j + 1))
    ensures nxt == At(chains[i], j + 1)
    ensures ChainForward(chains[i][j + 1..]) && UnreadFrom(chains, i + 1)
  {
    hide Moved, UnreadFrom, NewChain, Partition, Roomy, Passed, Home, ToBkt, Pow2, Partial;
    nxt := thh.hhNext;
    MaskIsHome(thh, k);
    var bkt := ToBkt(thh.hashv, numBuckets * 2);
    ghost var nc := Partial(chains, k, i, j);
    PartialRoomy(items, chains, k, i, j, Members(chains));
    CursorNotMoved(items, chains, k, i, j);
    PartialStep(items, chains, k, i, j);
    CursorPassed(items, chains, k, i, j);
    UnreadTail(chains[i], j);
    assert thh in chains[i];
    MoveItemKeepsUnread(t, nb, thh, bkt, nc, k + 1, Members(chains), chains[i][j + 1..], chains, i + 1);
  }

  lemma UnreadTail(c: seq<Handle>, j: nat)
    requires j < |c| && ChainForward(c[j..])
    ensures ChainForward(c[j + 1..]) && c[j].hhNext == At(c, j + 1)
  {
    var u, v := c[j..], c[j + 1..];
    assert u[0] == c[j];
    forall i | 0 <= i < |v| ensures v[i].hhNext == At(v, i + 1) {
      assert v[i] == u[i + 1];
      assert u[i + 1].hhNext == At(u, i + 2);
    }
  }

  lemma StartChain(chains: seq<seq<Handle>>, i: nat)
    requires i < |chains| && UnreadFrom(chains, i)
    ensures ChainForward(chains[i][0..]) && UnreadFrom(chains, i + 1)
  {
    assert chains[i][0..] == chains[i];
  }

  /** The inner loop: one old chain is emptied into the new buckets. */
  method MoveChain(t: Table, nb: array<Bucket>, thh0: Handle?, numBuckets: nat, ghost items: seq<Handle>,
                   ghost chains: seq<seq<Handle>>, ghost k: nat, ghost i: nat)
    requires Partition(items, chains, k) && numBuckets == |chains| == Pow2(k)
    requires i < |chains| && thh0 == At(chains[i], 0)
    requires nb.Length == Pow2(k + 1)
    requires Moved(t, nb, Partial(chains, k, i, 0))
    requires UnreadFrom(chains, i)
    modifies nb, t`nonidealItems, Members(chains)`hhPrev, Members(chains)`hhNext
    ensures Moved(t, nb, Partial(chains, k, i + 1, 0))
    ensures UnreadFrom(chains, i + 1)
  {
    var thh := thh0;
    ghost var j := 0;
    StartChain(chains, i);
    hide Moved, NewChain, Partition, ChainForward, UnreadFrom;
    while thh != null
      invariant j <= |chains[i]| && thh == At(chains[i], j)
      invariant Moved(t, nb, Partial(chains, k, i, j))
      invariant ChainForward(chains[i][j..]) && UnreadFrom(chains, i + 1)
      decreases |chains[i]| - j
    {
      thh := MoveNext(t, nb, thh, numBuckets, items, chains, k, i, j);
      j := j + 1;
    }
    PartialRow(chains, k, i);
  }

  /** The outer loop: all old chains are emptied into the new buckets. */
  method MoveAll(t: Table, nb: array<Bucket>, ghost items: seq<Handle>,
                 ghost chains: seq<seq<Handle>>, ghost mults: seq<nat>, ghost k: nat)
    requires Partition(items, chains, k) && t.numBuckets == |chains| == Pow2(k)
    requires BucketsOk(t.buckets[..], chains, mults) && nb != t.buckets
    requires nb.Length == Pow2(k + 1)
    requires Moved(t, nb, Partial(chains, k, 0, 0))
    requires UnreadFrom(chains, 0)
    modifies nb, t`nonidealItems, Members(chains)`hhPrev, Members(chains)`hhNext
    ensures Moved(t, nb, Redistributed(chains, k))
  {
    hide Moved, NewChain, Partition, UnreadFrom;
    for i := 0 to t.numBuckets
      invariant BucketsOk(t.buckets[..], chains, mults)
      invariant Moved(t, nb, Partial(chains, k, i, 0))
      invariant UnreadFrom(chains, i)
    {
      MoveChain(t, nb, t.buckets[i].head, t.numBuckets, items, chains, k, i);
    }
    PartialEnd(chains, k);
  }

  lemma IdealChainLength(n: nat, k: nat)
    ensures Shr(n, k + 1) + (if And(n, Pow2(k) * 2 - 1) != 0 then 1 else 0) == CeilDiv(n, Pow2(k + 1))
  {
    ShrIsDiv(n, k + 1);
    MaskIsMod(n, k + 1);
  }

  ghost predicate CountersShown(t: Table, m: Model)
    reads t`numBuckets, t`log2NumBuckets, t`idealChainMaxlen, t`nonidealItems, t`ineffExpands, t`noexpand
  {
    && t.numBuckets == |m.chains| && t.log2NumBuckets == m.log2
    && t.idealChainMaxlen == m.ideal && t.nonidealItems == m.nonideal
    && t.ineffExpands == m.ineff && t.noexpand == m.noexpand
  }

  /** The table's counters and buckets as the model has them, and its chains linked. */
  ghost predicate TableChains(t: Table, m: Model)
    reads t`numBuckets, t`log2NumBuckets, t`idealChainMaxlen, t`nonidealItems, t`ineffExpands, t`noexpand,
          t`numItems, t`buckets, t.buckets, Members(m.chains)`hhPrev, Members(m.chains)`hhNext
  {
    && CountersShown(t, m)
    && t.numItems == |m.items|
    && BucketsOk(t.buckets[..], m.chains, m.mults)
    && ChainsLinked(m.chains)
  }

  lemma NothingMoved(t: Table, nb: array<Bucket>, chains: seq<seq<Handle>>, k: nat)
    requires |chains| == Pow2(k) && nb.Length == Pow2(k + 1)
    requires forall b | 0 <= b < nb.Length :: nb[b] == Bucket(null, 0, 0)
    requires t.nonidealItems == 0
    ensures Moved(t, nb, Partial(chains, k, 0, 0))
  {
    PartialStart(chains, k);
    var nc := Partial(chains, k, 0, 0);
    SumZero(Excesses(nc, t.idealChainMaxlen));
  }

  lemma NothingRead(chains: seq<seq<Handle>>)
    requires ChainsLinked(chains)
    ensures UnreadFrom(chains, 0)
  {
  }

  method EmptyBuckets(n: nat) returns (nb: array<Bucket>)
    ensures fresh(nb) && nb.Length == n
    ensures forall b | 0 <= b < n :: nb[b] == Bucket(null, 0, 0)
  {
    nb := new Bucket[n](_ => Bucket(null, 0, 0));
  }

  method SetIdeal(t: Table, ghost k: nat)
    requires t.log2NumBuckets == k && t.numBuckets == Pow2(k)
    modifies t`idealChainMaxlen, t`nonidealItems
    ensures t.idealChainMaxlen == CeilDiv(t.numItems, Pow2(k + 1)) && t.nonidealItems == 0
  {
    t.idealChainMaxlen := Shr(t.numItems, t.log2NumBuckets + 1)
                          + (if And(t.numItems, t.numBuckets * 2 - 1) != 0 then 1 else 0);
    t.nonidealItems := 0;
    IdealChainLength(t.numItems, k);
  }

  /** The new bucket array, filled from the old one. */
  method Redistribute(t: Table, ghost m: Model) returns (nb: array<Bucket>)
    requires Partition(m.items, m.chains, m.log2) && TableChains(t, m)
    modifies t`idealChainMaxlen, t`nonidealItems, Members(m.chains)`hhPrev, Members(m.chains)`hhNext
    ensures fresh(nb) && Moved(t, nb, Redistributed(m.chains, m.log2))
    ensures t.idealChainMaxlen == CeilDiv(|m.items|, Pow2(m.log2 + 1))
  {
    NothingRead(m.chains);
    hide Moved, CeilDiv, UnreadFrom, ChainsLinked, Partition, Redistributed, Partial;
    nb := EmptyBuckets(2 * t.numBuckets);
    SetIdeal(t, m.log2);
    NothingMoved(t, nb, m.chains, m.log2);
    MoveAll(t, nb, m.items, m.chains, m.mults, m.log2);
  }

  /** The new array replaces the old one, and the expansion is judged. */
  method CommitExpansion(t: Table, nb: array<Bucket>, ghost m: Model)
    requires |m.chains| == Pow2(m.log2)
    requires Moved(t, nb, Redistributed(m.chains, m.log2))
    requires t.idealChainMaxlen == CeilDiv(|m.items|, Pow2(m.log2 + 1))
    requires t.numBuckets == |m.chains| && t.log2NumBuckets == m.log2 && t.numItems == |m.items|
    requires t.ineffExpands == m.ineff && t.noexpand == m.noexpand
    modifies t`buckets, t`numBuckets, t`log2NumBuckets, t`ineffExpands, t`noexpand
    ensures t.buckets == nb && TableChains(t, Expanded(m))
  {
    hide CeilDiv, Sum, Excess, MultAfter, NewChain;
    t.numBuckets := t.numBuckets * 2;
    t.log2NumBuckets := t.log2NumBuckets + 1;
    t.buckets := nb;
    t.ineffExpands := if t.nonidealItems > Shr(t.numItems, 1) then t.ineffExpands + 1 else 0;
    ShrIsDiv(t.numItems, 1);
    if t.ineffExpands > 1 {
      t.noexpand := true;
    }
  }

  /** For each bucket, by how much its count exceeds the ideal chain length. */
  function PastIdeal(bs: seq<Bucket>, ideal: nat): (r: seq<nat>)
    ensures |r| == |bs|
  {
    seq(|bs|, b requires 0 <= b < |bs| => if bs[b].count > ideal then bs[b].count - ideal else 0)
  }

  /** The counters that an expansion computes, over the buckets it leaves. */
  lemma ExpandedTally(t: Table, m: Model)
    requires |m.chains| == Pow2(m.log2) && TableChains(t, Expanded(m))
    ensures t.buckets.Length == 2 * |m.chains| && t.idealChainMaxlen == CeilDiv(|m.items|, t.buckets.Length)
    ensures t.nonidealItems == Sum(PastIdeal(t.buckets[..], t.idealChainMaxlen)) && t.numItems == |m.items|
    ensures t.ineffExpands == if 2 * t.nonidealItems > t.numItems then m.ineff + 1 else 0
    ensures t.noexpand == (m.noexpand || t.ineffExpands >= 2)
  {
    hide CeilDiv, Sum, MultAfter, NewChain, ChainsLinked;
    var r := Expanded(m);
    assert PastIdeal(t.buckets[..], r.ideal) == Excesses(r.chains, r.ideal);
  }

  lemma TableShown(t: Table, m: Model)
    requires TableChains(t, m)
    ensures t.ineffExpands == m.ineff && t.noexpand == m.noexpand
  {
  }

  /** HASH_EXPAND_BUCKETS. The expansion is ineffective when more than half of the items lie past the ideal length.
      Without memory nothing changes. */
  method ExpandBuckets(t: Table, granted: bool, ghost m: Model) returns (oomed: bool)
    requires Partition(m.items, m.chains, m.log2) && TableChains(t, m)
    modifies t`buckets, t`numBuckets, t`log2NumBuckets, t`idealChainMaxlen, t`nonidealItems, t`ineffExpands, t`noexpand,
             Members(m.chains)`hhPrev, Members(m.chains)`hhNext
    ensures oomed == !granted
    ensures oomed ==> unchanged(t) && unchanged(Members(m.chains)) && TableChains(t, m)
    ensures !oomed ==> fresh(t.buckets) && TableChains(t, Expanded(m))
    ensures !oomed ==>
              && t.buckets.Length == 2 * |m.chains| && t.idealChainMaxlen == CeilDiv(|m.items|, t.buckets.Length)
              && t.nonidealItems == Sum(PastIdeal(t.buckets[..], t.idealChainMaxlen))
              && var ineffective := 2 * Sum(PastIdeal(t.buckets[..], t.idealChainMaxlen)) > t.numItems;
                 && t.ineffExpands == (if ineffective then old(t.ineffExpands) + 1 else 0)
                 && t.noexpand == (old(t.noexpand) || t.ineffExpands >= 2)
  {
    oomed := !granted;
    if granted {
      TableShown(t, m);
      var nb := Redistribute(t, m);
      hide Moved, Expanded, Partition, TableChains;
      CommitExpansion(t, nb, m);
      ExpandedTally(t, m);
    }
  }
}
