/** HASH_FSCK of userspace/uthash.h: what its checks find out about lists that can be walked forwards. */
module UtHashFsck {
  import opened Seqs
  import opened UtHashTypes
  import opened UtHashLinks

  ghost predicate ChainBackward(c: seq<Handle>)
    reads c`hhPrev
  {
    forall i {:trigger c[i].hhPrev} | 0 <= i < |c| :: c[i].hhPrev == At(c, i - 1)
  }

  ghost predicate ListBackward(s: seq<Handle>)
    reads s`prev
  {
    forall i {:trigger s[i].prev} | 0 <= i < |s| :: s[i].prev == At(s, i - 1)
  }

  /** The chains can be walked from the bucket heads. */
  ghost predicate ChainsForward(t: Table, chains: seq<seq<Handle>>)
    reads t`numBuckets, t`buckets, t.buckets, Members(chains)`hhNext
  {
    && t.numBuckets == |chains| == t.buckets.Length
    && forall b | 0 <= b < |chains| :: ChainForward(chains[b]) && t.buckets[b].head == At(chains[b], 0)
  }

  /** The back links and the count of one bucket are right. */
  ghost predicate BucketRight(b: Bucket, c: seq<Handle>)
    reads c`hhPrev
  {
    ChainBackward(c) && b.count == |c|
  }

  ghost predicate BucketsRight(bs: seq<Bucket>, chains: seq<seq<Handle>>, n: nat)
    requires n <= |bs| == |chains|
    reads Members(chains)`hhPrev
  {
    forall b | 0 <= b < n :: BucketRight(bs[b], chains[b])
  }

  /** The walk along one chain. */
  method CheckChain(b: Bucket, ghost c: seq<Handle>) returns (ok: bool, count: nat)
    requires ChainForward(c) && b.head == At(c, 0)
    ensures count == |c| && (ok <==> BucketRight(b, c))
  {
    var thh := b.head;
    var prev: Handle? := null;
    ok, count := true, 0;
    while thh != null
      invariant count <= |c| && thh == At(c, count) && prev == At(c, count - 1)
      invariant ok <==> forall i {:trigger c[i].hhPrev} | 0 <= i < count :: c[i].hhPrev == At(c, i - 1)
      decreases |c| - count
    {
      if prev != thh.hhPrev {
        ok := false;
      }
      count := count + 1;
      prev := thh;
      thh := thh.hhNext;
    }
    if b.count != count {
      ok := false;
    }
  }

  /** The bucket half. */
  method CheckBuckets(t: Table, ghost chains: seq<seq<Handle>>) returns (ok: bool)
    requires ChainsForward(t, chains)
    ensures ok <==> BucketsRight(t.buckets[..], chains, |chains|) && t.numItems == Sum(Lengths(chains))
  {
    hide ChainForward, BucketRight, Sum;
    var count := 0;
    ok := true;
    ghost var bs := t.buckets[..];
    SumNone(chains);
    for i := 0 to t.numBuckets
      invariant ok <==> BucketsRight(bs, chains, i)
      invariant count == Sum(Lengths(chains)[..i])
    {
      var okChain, n := CheckChain(t.buckets[i], chains[i]);
      ok := ok && okChain;
      count := count + n;
      SumNext(chains, i);
    }
    assert Lengths(chains)[..|chains|] == Lengths(chains);
    if count != t.numItems {
      ok := false;
    }
  }

  lemma SumNone(chains: seq<seq<Handle>>)
    ensures Sum(Lengths(chains)[..0]) == 0
  {
  }

  lemma SumNext(chains: seq<seq<Handle>>, i: nat)
    requires i < |chains|
    ensures Sum(Lengths(chains)[..i + 1]) == Sum(Lengths(chains)[..i]) + |chains[i]|
  {
    assert Lengths(chains)[..i + 1][..i] == Lengths(chains)[..i];
  }

  /** The walk along the application list. */
  method CheckList(head: Handle, t: Table, ghost s: seq<Handle>) returns (ok: bool)
    requires ListForward(s) && head == At(s, 0)
    ensures ok <==> ListBackward(s) && t.numItems == |s|
  {
    var thh: Handle? := head;
    var prev: Handle? := null;
    var count := 0;
    ok := true;
    while thh != null
      invariant count <= |s| && thh == At(s, count) && prev == At(s, count - 1)
      invariant ok <==> forall i {:trigger s[i].prev} | 0 <= i < count :: s[i].prev == At(s, i - 1)
      decreases |s| - count
    {
      count := count + 1;
      if prev != thh.prev {
        ok := false;
      }
      prev := thh;
      thh := thh.next;
    }
    if count != t.numItems {
      ok := false;
    }
  }

  /** Provided that the links forward make lists, the checks find nothing exactly when the links backward and every
      count are right. */
  method Check(head: Handle, t: Table, ghost chains: seq<seq<Handle>>, ghost s: seq<Handle>) returns (ok: bool)
    requires ChainsForward(t, chains) && ListForward(s) && head == At(s, 0)
    ensures ok <==>
              && BucketsRight(t.buckets[..], chains, |chains|) && t.numItems == Sum(Lengths(chains))
              && ListBackward(s) && t.numItems == |s|
  {
    hide Sum;
    BucketsLength(t, chains);
    ok := CheckBuckets(t, chains);
    var okList := CheckList(head, t, s);
    ok := ok && okList;
  }

  lemma BucketsLength(t: Table, chains: seq<seq<Handle>>)
    requires ChainsForward(t, chains)
    ensures t.buckets.Length == |chains|
  {
  }
}
