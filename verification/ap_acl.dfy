/** The MAC access list of kernel/core/rtw_ap.c: a fixed pool of nodes, and the list of those in use. */
module ApAcl {
  import opened Seqs

  const NUM_ACL: nat := 16

  type Mac = s: seq<bv8> | |s| == 6 witness [0, 0, 0, 0, 0, 0]

  const BROADCAST: Mac := [255, 255, 255, 255, 255, 255]

  datatype Mode = Disabled | AcceptUnlessListed | DenyUnlessListed

  datatype Node = Node(valid: bool, addr: Mac)

  /** The addresses on the list. */
  function View(pool: seq<Node>, queue: seq<nat>): (v: seq<Mac>)
    requires forall k | 0 <= k < |queue| :: queue[k] < |pool|
    ensures |v| == |queue|
  {
    seq(|queue|, k requires 0 <= k < |queue| => pool[queue[k]].addr)
  }

  /** The list is exactly the valid slots of the pool, and its addresses are pairwise different. */
  ghost predicate Consistent(pool: seq<Node>, queue: seq<nat>, num: nat) {
    && |pool| == NUM_ACL && num == |queue| && NoDup(queue)
    && (forall k | 0 <= k < |queue| :: queue[k] < NUM_ACL)
    && (forall i | 0 <= i < NUM_ACL :: pool[i].valid <==> i in queue)
    && NoDup(View(pool, queue))
  }

  /** What a removal leaves. */
  function Keep(v: seq<Mac>, addr: Mac): (r: seq<Mac>) {
    if v == [] then [] else (if addr == BROADCAST || v[0] == addr then [] else [v[0]]) + Keep(v[1..], addr)
  }

  lemma {:induction false} KeepMembers(v: seq<Mac>, addr: Mac)
    ensures forall x :: x in Keep(v, addr) <==> x in v && x != addr && addr != BROADCAST
  {
    if v != [] {
      KeepMembers(v[1..], addr);
      assert v == [v[0]] + v[1..];
    }
  }

  lemma {:induction false} KeepNone(v: seq<Mac>, addr: Mac)
    requires addr !in v && addr != BROADCAST
    ensures Keep(v, addr) == v
  {
    if v != [] {
      assert v == [v[0]] + v[1..];
      KeepNone(v[1..], addr);
    }
  }

  /** Different numbers below a bound are not more than the bound. */
  lemma {:induction false} Pigeonhole(q: seq<nat>, n: nat)
    requires NoDup(q) && forall k | 0 <= k < |q| :: q[k] < n
    ensures |q| <= n
  {
    if n > 0 {
      var r := Without(q, n - 1);
      NoDupWithout(q, n - 1);
      forall k | 0 <= k < |r| ensures r[k] < n - 1 {
        assert r[k] in r;
      }
      Pigeonhole(r, n - 1);
    }
  }

  lemma {:induction false} AllUsed(q: seq<nat>, n: nat)
    requires NoDup(q) && forall i | 0 <= i < n :: i in q
    ensures |q| >= n
  {
    if n > 0 {
      NoDupWithout(q, n - 1);
      AllUsed(Without(q, n - 1), n - 1);
    }
  }

  lemma Taken(pool: seq<Node>, queue: seq<nat>, k: nat, num: nat)
    requires Consistent(pool, queue, num) && k < |queue|
    ensures var i := queue[k];
      Consistent(pool[i := pool[i].(valid := false)], RemoveAt(queue, k), num - 1)
      && View(pool[i := pool[i].(valid := false)], RemoveAt(queue, k)) == RemoveAt(View(pool, queue), k)
  {
    hide View;
    var i := queue[k];
    var p, q := pool[i := pool[i].(valid := false)], RemoveAt(queue, k);
    NoDupRemoveAt(queue, k);
    TakenView(pool, queue, k);
    NoDupRemoveAt(View(pool, queue), k);
  }

  lemma NoDupRemoveAt<T>(s: seq<T>, k: nat)
    requires NoDup(s) && k < |s|
    ensures NoDup(RemoveAt(s, k))
    ensures forall x :: x in RemoveAt(s, k) <==> x in s && x != s[k]
  {
    IndexUnique(s, k);
    NoDupWithout(s, s[k]);
  }

  lemma IndexUnique<T>(s: seq<T>, k: nat)
    requires NoDup(s) && k < |s|
    ensures IndexOf(s, s[k]) == k
  {
  }

  lemma TakenView(pool: seq<Node>, queue: seq<nat>, k: nat)
    requires k < |queue| && forall j | 0 <= j < |queue| :: queue[j] < |pool|
    ensures var i := queue[k];
      && (forall j | 0 <= j < |queue| - 1 :: RemoveAt(queue, k)[j] < |pool|)
      && View(pool[i := pool[i].(valid := false)], RemoveAt(queue, k)) == RemoveAt(View(pool, queue), k)
  {
    var q := RemoveAt(queue, k);
    assert forall j | 0 <= j < |q| :: q[j] == queue[if j < k then j else j + 1];
  }

  lemma Appended(pool: seq<Node>, queue: seq<nat>, i: nat, addr: Mac, num: nat)
    requires Consistent(pool, queue, num) && i < NUM_ACL && !pool[i].valid && addr !in View(pool, queue)
    ensures var p := pool[i := Node(true, addr)];
      Consistent(p, queue + [i], num + 1) && View(p, queue + [i]) == View(pool, queue) + [addr]
  {
    var p, q := pool[i := Node(true, addr)], queue + [i];
    assert i !in queue;
    assert View(p, q) == View(pool, queue) + [addr];
  }

  class Acl {
    const pool: array<Node>
    var queue: seq<nat>
    var num: int
    var mode: Mode

    constructor ()
      ensures Valid() && fresh(pool) && Addrs() == [] && mode == Disabled
    {
      pool := new Node[NUM_ACL](_ => Node(false, BROADCAST));
      queue, num, mode := [], 0, Disabled;
    }

    ghost predicate Valid()
      reads this, pool
    {
      num >= 0 && Consistent(pool[..], queue, num)
    }

    ghost function Addrs(): (v: seq<Mac>)
      requires Valid()
      reads this, pool
    {
      View(pool[..], queue)
    }

    /** `rtw_macaddr_acl_init`: whatever was there before, the list is empty. */
    method Init()
      requires pool.Length == NUM_ACL
      modifies this, pool
      ensures Valid() && Addrs() == [] && mode == Disabled
    {
      queue, num, mode := [], 0, Disabled;
      for i := 0 to NUM_ACL
        modifies pool
        invariant forall j | 0 <= j < i :: !pool[j].valid
      {
        pool[i] := pool[i].(valid := false);
      }
    }

    /** Takes entry `k` off the list and out of use. */
    method Drop(k: nat)
      requires Valid() && k < |queue|
      modifies `queue, `num, pool
      ensures Valid() && Addrs() == RemoveAt(old(Addrs()), k) && queue == RemoveAt(old(queue), k)
    {
      Taken(pool[..], queue, k, num);
      pool[queue[k]] := pool[queue[k]].(valid := false);
      queue := RemoveAt(queue, k);
      num := num - 1;
    }

    /** `rtw_macaddr_acl_deinit`. */
    method Deinit()
      requires Valid()
      modifies this, pool
      ensures Valid() && Addrs() == [] && num == 0 && mode == Disabled
    {
      while queue != []
        invariant Valid()
        decreases |queue|
      {
        assert pool[queue[0]].valid by { assert queue[0] in queue; assert pool[..][queue[0]].valid; }
        Drop(0);
      }
      mode := Disabled;
    }

    /** `rtw_set_macaddr_acl`. */
    method SetMode(m: Mode)
      requires Valid()
      modifies this, pool
      ensures Valid() && mode == m
      ensures Addrs() == if m == Disabled then [] else old(Addrs())
    {
      mode := m;
      if m == Disabled {
        Deinit();
      }
    }

    /** `rtw_acl_add_sta`: fails exactly when the address is not there and every slot is taken. */
    method Add(addr: Mac) returns (ret: int)
      requires Valid()
      modifies `queue, `num, pool
      ensures Valid()
      ensures ret == if addr !in old(Addrs()) && |old(Addrs())| == NUM_ACL then -1 else 0
      ensures Addrs() == if addr in old(Addrs()) || ret == -1 then old(Addrs()) else old(Addrs()) + [addr]
    {
      var existed, i := false, -1;
      var k := 0;
      Pigeonhole(queue, NUM_ACL);
      while k < |queue|
        invariant 0 <= k <= |queue|
        invariant !existed && forall j | 0 <= j < k :: Addrs()[j] != addr
      {
        var n := queue[k];
        if pool[n].addr == addr {
          if pool[n].valid {
            existed := true;
            assert Addrs()[k] == addr;
            break;
          }
        }
        assert n in queue && pool[..][n].valid;
        k := k + 1;
      }
      if existed {
        return 0;
      }
      if num >= NUM_ACL {
        return -1;
      }
      i := 0;
      while i < NUM_ACL && pool[i].valid
        invariant 0 <= i <= NUM_ACL
        invariant forall j | 0 <= j < i :: pool[j].valid
      {
        i := i + 1;
      }
      FreeSlot(i);
      assert addr !in Addrs();
      Appended(pool[..], queue, i, addr, num);
      pool[i] := Node(true, addr);
      queue := queue + [i];
      num := num + 1;
      return 0;
    }

    /** Below the limit the search for a free slot cannot come to the end of the pool. */
    lemma FreeSlot(i: int)
      requires Valid() && num < NUM_ACL && 0 <= i <= NUM_ACL
      requires forall j | 0 <= j < i :: pool[j].valid
      ensures i < NUM_ACL
    {
      if i == NUM_ACL {
        forall j | 0 <= j < NUM_ACL ensures j in queue {
          assert pool[..][j].valid;
        }
        AllUsed(queue, NUM_ACL);
      }
    }

    /** `rtw_acl_remove_sta`: the address goes, and with the broadcast address every one. */
    method Remove(addr: Mac)
      requires Valid()
      modifies `queue, `num, pool
      ensures Valid() && Addrs() == Keep(old(Addrs()), addr)
    {
      hide Consistent, Keep, View;
      var k: nat := 0;
      ghost var v0 := Addrs();
      assert v0[..0] == [] && v0[0..] == v0;
      while k < |queue|
        invariant Valid() && k <= |queue| == |Addrs()|
        invariant Keep(v0, addr) == Addrs()[..k] + Keep(Addrs()[k..], addr)
        decreases |queue| - k
      {
        var n := queue[k];
        ghost var v := Addrs();
        Entry(k);
        KeepStep(v, k, addr);
        if addr == BROADCAST || pool[n].addr == addr {
          if pool[n].valid {
            Drop(k);
          }
        } else {
          k := k + 1;
        }
      }
      KeepEnd(Addrs(), addr);
    }

    lemma Entry(k: nat)
      requires Valid() && k < |queue|
      ensures queue[k] < pool.Length && pool[queue[k]].valid && Addrs()[k] == pool[queue[k]].addr
    {
      assert pool[..][queue[k]].valid;
    }
  }

  lemma KeepStep(v: seq<Mac>, k: nat, addr: Mac)
    requires k < |v|
    ensures if addr == BROADCAST || v[k] == addr
            then v[..k] + Keep(v[k..], addr) == RemoveAt(v, k)[..k] + Keep(RemoveAt(v, k)[k..], addr)
            else v[..k] + Keep(v[k..], addr) == v[..k + 1] + Keep(v[k + 1..], addr)
  {
    assert v[k..][1..] == v[k + 1..] && v[..k + 1] == v[..k] + [v[k]];
    assert RemoveAt(v, k)[..k] == v[..k] && RemoveAt(v, k)[k..] == v[k + 1..];
    assert [] + Keep(v[k + 1..], addr) == Keep(v[k + 1..], addr);
  }

  lemma KeepEnd(v: seq<Mac>, addr: Mac)
    ensures v[..|v|] + Keep(v[|v|..], addr) == v
  {
  }
}
