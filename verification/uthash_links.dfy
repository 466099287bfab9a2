/** The pointer surgery of userspace/uthash.h on the two intrusive lists. */
module UtHashLinks {
  import opened Seqs
  import opened UtHashTypes
  import opened UtHashModel

  function At(s: seq<Handle>, i: int): (r: Handle?) {
    if 0 <= i < |s| then s[i] else null
  }

  /** `s` is the application list, both ways. */
  ghost predicate AppLinked(s: seq<Handle>)
    reads s`prev, s`next
  {
    && (forall i {:trigger s[i].prev} | 0 <= i < |s| :: s[i].prev == At(s, i - 1))
    && (forall i {:trigger s[i].next} | 0 <= i < |s| :: s[i].next == At(s, i + 1))
  }

  /** `c` is a bucket chain, both ways. */
  ghost predicate ChainLinked(c: seq<Handle>)
    reads c`hhPrev, c`hhNext
  {
    && (forall i {:trigger c[i].hhPrev} | 0 <= i < |c| :: c[i].hhPrev == At(c, i - 1))
    && (forall i {:trigger c[i].hhNext} | 0 <= i < |c| :: c[i].hhNext == At(c, i + 1))
  }

  /** `s` can be walked along the application order, up to the null that ends it. */
  ghost predicate ListForward(s: seq<Handle>)
    reads s`next
  {
    forall i {:trigger s[i].next} | 0 <= i < |s| :: s[i].next == At(s, i + 1)
  }

  /** `c` can be walked along the chain, up to the null that ends it. */
  ghost predicate ChainForward(c: seq<Handle>)
    reads c`hhNext
  {
    forall i {:trigger c[i].hhNext} | 0 <= i < |c| :: c[i].hhNext == At(c, i + 1)
  }

  ghost function Members(chains: seq<seq<Handle>>): (r: set<Handle>)
    ensures forall b, x: Handle | 0 <= b < |chains| && x in chains[b] :: x in r
  {
    set b, x: Handle | 0 <= b < |chains| && x in chains[b] :: x
  }

  ghost predicate ChainsLinked(chains: seq<seq<Handle>>)
    reads Members(chains)`hhPrev, Members(chains)`hhNext
  {
    forall b | 0 <= b < |chains| :: ChainLinked(chains[b])
  }

  /** The chains hold nodes of `all`, once each, in their own bucket. */
  ghost predicate Roomy(nc: seq<seq<Handle>>, k: nat, all: set<Handle>) {
    forall b | 0 <= b < |nc| :: InBucket(nc[b], b, k) && (forall x: Handle | x in nc[b] :: x in all)
  }

  /** The bucket array describes the chains. */
  ghost predicate BucketsOk(bs: seq<Bucket>, chains: seq<seq<Handle>>, mults: seq<nat>) {
    && |bs| == |chains| == |mults|
    && forall b | 0 <= b < |bs| :: bs[b] == Bucket(At(chains[b], 0), |chains[b]|, mults[b])
  }

  // ---------- application order ----------

  /** HASH_APPEND_LIST. */
  method AppendList(t: Table, add: Handle, ghost s: seq<Handle>)
    requires s != [] && AppLinked(s) && NoDup(s) && add !in s
    requires t.tail == s[|s| - 1]
    modifies t`tail, add`prev, add`next, t.tail`next
    ensures AppLinked(s + [add])
    ensures t.tail == add
  {
    add.next := null;
    add.prev := t.tail;
    t.tail.next := add;
    t.tail := add;
  }

  /** The list with the two pointers around position `p` redirected to `add`. */
  ghost predicate Spliced(s: seq<Handle>, p: nat, add: Handle)
    reads s`prev, s`next, add`prev, add`next
  {
    && p < |s|
    && add.prev == At(s, p - 1) && add.next == s[p]
    && (forall i {:trigger s[i].prev} | 0 <= i < |s| :: s[i].prev == (if i == p then add else At(s, i - 1)))
    && (forall i {:trigger s[i].next} | 0 <= i < |s| :: s[i].next == (if i == p - 1 then add else At(s, i + 1)))
  }

  lemma SplicedLinks(s: seq<Handle>, p: nat, add: Handle)
    requires Spliced(s, p, add)
    ensures AppLinked(s[..p] + [add] + s[p..])
  {
    var r := s[..p] + [add] + s[p..];
    forall i | 0 <= i < |r| ensures r[i].prev == At(r, i - 1) && r[i].next == At(r, i + 1) {
      if i < p { assert r[i] == s[i]; } else if i > p { assert r[i] == s[i - 1]; }
    }
  }

  /** The splice of HASH_ADD_KEYPTR_BYHASHVALUE_INORDER in front of `iter`. */
  method SpliceBefore(head: Handle, add: Handle, iter: Handle, ghost s: seq<Handle>, ghost p: nat)
    returns (newHead: Handle)
    requires AppLinked(s) && NoDup(s) && add !in s
    requires p < |s| && iter == s[p] && head == s[0]
    modifies s`prev, s`next, add`prev, add`next
    ensures AppLinked(s[..p] + [add] + s[p..])
    ensures newHead == (s[..p] + [add] + s[p..])[0]
  {
    newHead := head;
    add.next := iter;
    add.prev := iter.prev;
    if add.prev != null {
      add.prev.next := add;
    } else {
      newHead := add;
    }
    iter.prev := add;
    SplicedLinks(s, p, add);
  }

  /** The list with the pointers around position `p` redirected past it. */
  ghost predicate Bypassed(s: seq<Handle>, p: nat)
    reads s`prev, s`next
  {
    && p < |s|
    && (forall i {:trigger s[i].prev} | 0 <= i < |s| :: s[i].prev == At(s, if i == p + 1 then p - 1 else i - 1))
    && (forall i {:trigger s[i].next} | 0 <= i < |s| :: s[i].next == At(s, if i == p - 1 then p + 1 else i + 1))
  }

  lemma BypassedLinks(s: seq<Handle>, p: nat)
    requires Bypassed(s, p)
    ensures AppLinked(RemoveAt(s, p))
  {
    var r := RemoveAt(s, p);
    forall i | 0 <= i < |r| ensures r[i].prev == At(r, i - 1) && r[i].next == At(r, i + 1) {
      if i < p { assert r[i] == s[i]; } else { assert r[i] == s[i + 1]; }
    }
  }

  /** The list half of HASH_DELETE_HH, for a list of two or more. */
  method UnlinkApp(head: Handle, t: Table, del: Handle, ghost s: seq<Handle>, ghost p: nat)
    returns (newHead: Handle)
    requires AppLinked(s) && NoDup(s) && |s| >= 2
    requires p < |s| && del == s[p] && head == s[0] && t.tail == s[|s| - 1]
    modifies t`tail, s`prev, s`next
    ensures AppLinked(RemoveAt(s, p))
    ensures newHead == RemoveAt(s, p)[0]
    ensures t.tail == RemoveAt(s, p)[|s| - 2]
    ensures del.prev == old(del.prev) && del.next == old(del.next)
  {
    newHead := head;
    if del == t.tail {
      t.tail := del.prev;
    }
    if del.prev != null {
      del.prev.next := del.next;
    } else {
      newHead := del.next;
    }
    if del.next != null {
      del.next.prev := del.prev;
    }
    BypassedLinks(s, p);
  }

  // ---------- bucket chains ----------

  /** The linking half of HASH_ADD_TO_BKT. */
  method PushBkt(buckets: array<Bucket>, b: nat, addhh: Handle, ghost c: seq<Handle>)
    requires b < buckets.Length
    requires ChainLinked(c) && NoDup(c) && addhh !in c
    requires buckets[b].head == At(c, 0)
    modifies buckets, addhh`hhPrev, addhh`hhNext, c`hhPrev
    ensures ChainLinked([addhh] + c)
    ensures buckets[..] == old(buckets[..])[b := Bucket(addhh, old(buckets[b].count) + 1, old(buckets[b].expandMult))]
  {
    buckets[b] := buckets[b].(count := buckets[b].count + 1);
    addhh.hhNext := buckets[b].head;
    addhh.hhPrev := null;
    if buckets[b].head != null {
      buckets[b].head.hhPrev := addhh;
    }
    buckets[b] := buckets[b].(head := addhh);
    ghost var r := [addhh] + c;
    forall i | 0 <= i < |r| ensures r[i].hhPrev == At(r, i - 1) && r[i].hhNext == At(r, i + 1) {
      if i > 0 { assert r[i] == c[i - 1]; }
    }
  }

  ghost predicate BypassedChain(c: seq<Handle>, p: nat)
    reads c`hhPrev, c`hhNext
  {
    && p < |c|
    && (forall i {:trigger c[i].hhPrev} | 0 <= i < |c| :: c[i].hhPrev == At(c, if i == p + 1 then p - 1 else i - 1))
    && (forall i {:trigger c[i].hhNext} | 0 <= i < |c| :: c[i].hhNext == At(c, if i == p - 1 then p + 1 else i + 1))
  }

  lemma BypassedChainLinks(c: seq<Handle>, p: nat)
    requires BypassedChain(c, p)
    ensures ChainLinked(RemoveAt(c, p))
  {
    var r := RemoveAt(c, p);
    forall i | 0 <= i < |r| ensures r[i].hhPrev == At(r, i - 1) && r[i].hhNext == At(r, i + 1) {
      if i < p { assert r[i] == c[i]; } else { assert r[i] == c[i + 1]; }
    }
  }

  /** The chain without the node at `p`; `p == -1` stands for a node that is in no chain. */
  ghost function Unhooked(c: seq<Handle>, p: int): (r: seq<Handle>)
    requires -1 <= p < |c|
  {
    if p < 0 then c else RemoveAt(c, p)
  }

  /** The link half of HASH_DEL_IN_BKT. */
  method UnhookLinks(delhh: Handle, ghost c: seq<Handle>, ghost p: int)
    requires ChainLinked(c) && NoDup(c) && -1 <= p < |c|
    requires p >= 0 ==> c[p] == delhh
    requires p < 0 ==> delhh.hhPrev == null && delhh.hhNext == null
    modifies c`hhPrev, c`hhNext
    ensures ChainLinked(Unhooked(c, p))
  {
    if delhh.hhPrev != null {
      delhh.hhPrev.hhNext := delhh.hhNext;
    }
    if delhh.hhNext != null {
      delhh.hhNext.hhPrev := delhh.hhPrev;
    }
    if p >= 0 {
      BypassedChainLinks(c, p);
    }
  }

  /** HASH_DEL_IN_BKT. A node in no chain, with null links, only costs the count. */
  method DelInBkt(buckets: array<Bucket>, b: nat, delhh: Handle, ghost c: seq<Handle>, ghost p: int)
    requires b < buckets.Length
    requires ChainLinked(c) && NoDup(c) && -1 <= p < |c|
    requires p >= 0 ==> c[p] == delhh
    requires p < 0 ==> delhh !in c && delhh.hhPrev == null && delhh.hhNext == null
    requires buckets[b].head == At(c, 0) && buckets[b].count > 0
    modifies buckets, c`hhPrev, c`hhNext
    ensures ChainLinked(Unhooked(c, p))
    ensures buckets[..] == old(buckets[..])[b := Bucket(At(Unhooked(c, p), 0), old(buckets[b].count) - 1,
        old(buckets[b].expandMult))]
  {
    buckets[b] := buckets[b].(count := buckets[b].count - 1);
    if buckets[b].head == delhh {
      buckets[b] := buckets[b].(head := delhh.hhNext);
    }
    UnhookLinks(delhh, c, p);
  }

  // ---------- one chain among the others ----------

  lemma OtherChains(chains: seq<seq<Handle>>, k: nat, all: set<Handle>, b: nat, h: Handle)
    requires Roomy(chains, k, all) && b < |chains| && Home(h, k) == b
    ensures forall d, i | 0 <= d < |chains| && d != b && 0 <= i < |chains[d]| ::
              chains[d][i] !in chains[b] && chains[d][i] != h
  {
    forall d, i | 0 <= d < |chains| && d != b && 0 <= i < |chains[d]|
      ensures chains[d][i] !in chains[b] && chains[d][i] != h
    {
      assert chains[d][i] in chains[d] && Home(chains[d][i], k) == d;
    }
  }

  /** PushBkt, with the other chains in view. */
  method PushBktAmong(buckets: array<Bucket>, b: nat, addhh: Handle, ghost chains: seq<seq<Handle>>, ghost k: nat,
      ghost all: set<Handle>)
    requires b < buckets.Length == |chains| && Home(addhh, k) == b
    requires ChainsLinked(chains) && Roomy(chains, k, all) && addhh !in chains[b]
    requires buckets[b].head == At(chains[b], 0)
    modifies buckets, addhh`hhPrev, addhh`hhNext, chains[b]`hhPrev
    ensures ChainsLinked(chains[b := [addhh] + chains[b]])
    ensures buckets[..] == old(buckets[..])[b := Bucket(addhh, old(buckets[b].count) + 1, old(buckets[b].expandMult))]
  {
    OtherChains(chains, k, all, b, addhh);
    PushBkt(buckets, b, addhh, chains[b]);
    forall d | 0 <= d < |chains| && d != b ensures ChainLinked(chains[d]) {
    }
  }

  /** DelInBkt, with the other chains in view. */
  method DelInBktAmong(buckets: array<Bucket>, b: nat, delhh: Handle, ghost chains: seq<seq<Handle>>, ghost k: nat,
                       ghost all: set<Handle>, ghost p: int)
    requires b < buckets.Length == |chains| && Home(delhh, k) == b
    requires ChainsLinked(chains) && Roomy(chains, k, all) && -1 <= p < |chains[b]|
    requires p >= 0 ==> chains[b][p] == delhh
    requires p < 0 ==> delhh !in chains[b] && delhh.hhPrev == null && delhh.hhNext == null
    requires buckets[b].head == At(chains[b], 0) && buckets[b].count > 0
    modifies buckets, chains[b]`hhPrev, chains[b]`hhNext
    ensures ChainsLinked(chains[b := Unhooked(chains[b], p)])
    ensures buckets[..] == old(buckets[..])[b := Bucket(At(Unhooked(chains[b], p), 0), old(buckets[b].count) - 1,
        old(buckets[b].expandMult))]
  {
    OtherChains(chains, k, all, b, delhh);
    DelInBkt(buckets, b, delhh, chains[b], p);
    forall d | 0 <= d < |chains| && d != b ensures ChainLinked(chains[d]) {
    }
  }
}
