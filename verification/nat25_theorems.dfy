/** Whole runs of the NAT2.5 database: it is a map that ages. */
module Nat25Theorems {
  import opened Options
  import opened Nat25Model

  datatype Op =
    | Insert(mac: Mac, addr: NetAddr, now: int, memory: bool)
    | Replace(addr: NetAddr, now: int)
    | Expire(now: int)
    | Clean
    | Cache(mac: Mac, ip: Ip, now: int)

  function Apply(d: Db, hz: nat, op: Op): (d': Db)
    requires |d.view| == NAT25_HASH_SIZE
    ensures |d'.view| == NAT25_HASH_SIZE
  {
    match op
    case Insert(mac, addr, now, memory) => Inserted(d, mac, addr, now, memory)
    case Replace(addr, now) => LookedUp(d, addr, Limit(now, hz))
    case Expire(now) => Expired(d, Limit(now, hz))
    case Clean => Cleaned(d)
    case Cache(mac, ip, now) => Cached(d, mac, ip, now)
  }

  function Run(d: Db, hz: nat, ops: seq<Op>): (d': Db)
    requires |d.view| == NAT25_HASH_SIZE
    ensures |d'.view| == NAT25_HASH_SIZE
    decreases |ops|
  {
    if ops == [] then d else Run(Apply(d, hz, ops[0]), hz, ops[1..])
  }

  function Fresh(): (d: Db)
    ensures Inv(d)
  {
    Db(seq(NAT25_HASH_SIZE, _ => []), None, ZERO_MAC, ZERO_IP)
  }

  // ---------- the map ----------

  datatype Spec = Spec(entries: map<NetAddr, Rec>, cached: Option<NetAddr>, cachedMac: Mac, cachedIp: Ip)

  function Find(m: map<NetAddr, Rec>, a: NetAddr): (r: Option<Rec>) {
    if a in m then Some(m[a]) else None
  }

  ghost predicate Stands(s: Spec, d: Db)
    requires |d.view| == NAT25_HASH_SIZE
  {
    && (forall a :: Find(s.entries, a) == Lookup(d.view, a))
    && s.cached == d.cached && s.cachedMac == d.cachedMac && s.cachedIp == d.cachedIp
  }

  function AgedMap(m: map<NetAddr, Rec>, limit: int): (r: map<NetAddr, Rec>) {
    map a | a in m && Aged(m[a], limit).Some? :: Aged(m[a], limit).value
  }

  function WithEntries(s: Spec, m: map<NetAddr, Rec>): (s': Spec) {
    if s.cached.Some? && s.cached.value !in m then Spec(m, None, ZERO_MAC, ZERO_IP) else s.(entries := m)
  }

  function Touched(m: map<NetAddr, Rec>, a: NetAddr, now: int): (r: map<NetAddr, Rec>) {
    if a in m then m[a := m[a].(timer := now)] else m
  }

  function ApplySpec(s: Spec, hz: nat, op: Op): (s': Spec) {
    match op
    case Insert(mac, a, now, memory) =>
      if a in s.entries || memory then s.(entries := s.entries[a := InsertedRec(Find(s.entries, a), mac, now)]) else s
    case Replace(a, now) =>
      if a in s.entries then s.(entries := s.entries[a := Hit(s.entries[a], Limit(now, hz))]) else s
    case Expire(now) => WithEntries(s, AgedMap(s.entries, Limit(now, hz)))
    case Clean => WithEntries(s, map[])
    case Cache(mac, ip, now) =>
      var a := Ipv4Addr(ip);
      if s.cachedMac != mac then
        if a in s.entries then Spec(Touched(s.entries, a, now), Some(a), mac, ip) else s.(cached := None)
      else if s.cached.Some? then s.(entries := Touched(s.entries, s.cached.value, now))
      else Spec(s.entries, None, ZERO_MAC, ZERO_IP)
  }

  function RunSpec(s: Spec, hz: nat, ops: seq<Op>): (s': Spec)
    decreases |ops|
  {
    if ops == [] then s else RunSpec(ApplySpec(s, hz, ops[0]), hz, ops[1..])
  }

  // ---------- refinement ----------

  lemma CleanLaw(d: Db)
    ensures Inv(Cleaned(d))
    ensures forall x :: Lookup(Cleaned(d).view, x) == None
  {
  }

  /** Every operation keeps one entry per address in its own bucket, positive use counts and a live short cut. */
  lemma StepInv(d: Db, hz: nat, op: Op)
    requires Inv(d)
    ensures Inv(Apply(d, hz, op))
  {
    hide Lookup, Store, BucketOk, Touch;
    match op
    case Insert(mac, a, now, memory) =>
      var o := Lookup(d.view, a);
      if o.Some? { UseCountPositive(d.view, a); }
      StoreLaw(d.view, a, InsertedRec(o, mac, now));
    case Replace(a, now) =>
      var o := Lookup(d.view, a);
      if o.Some? {
        UseCountPositive(d.view, a);
        StoreLaw(d.view, a, Hit(o.value, Limit(now, hz)));
      }
    case Expire(now) => ExpireLaw(d, Limit(now, hz));
    case Clean => CleanLaw(d);
    case Cache(mac, ip, now) =>
      TouchLaw(d.view, Ipv4Addr(ip), now);
      if d.cached.Some? { TouchLaw(d.view, d.cached.value, now); }
  }

  lemma {:induction false} RunInv(d: Db, hz: nat, ops: seq<Op>)
    requires Inv(d)
    ensures Inv(Run(d, hz, ops))
    decreases |ops|
  {
    if ops != [] {
      StepInv(d, hz, ops[0]);
      RunInv(Apply(d, hz, ops[0]), hz, ops[1..]);
    }
  }

  /** The chains behave like the map. */
  lemma StepRefines(s: Spec, d: Db, hz: nat, op: Op)
    requires Inv(d) && Stands(s, d)
    ensures Stands(ApplySpec(s, hz, op), Apply(d, hz, op))
  {
    hide Lookup, Store, Inv;
    assert Buckets(d.view) by { InvBuckets(d); }
    match op
    case Insert(mac, a, now, memory) =>
      var o := Lookup(d.view, a);
      assert o == Find(s.entries, a);
      if o.Some? { UseCountPositive(d.view, a); }
      StoreLaw(d.view, a, InsertedRec(o, mac, now));
    case Replace(a, now) =>
      var o := Lookup(d.view, a);
      assert o == Find(s.entries, a);
      if o.Some? {
        UseCountPositive(d.view, a);
        StoreLaw(d.view, a, Hit(o.value, Limit(now, hz)));
      }
    case Expire(now) =>
      ExpireLaw(d, Limit(now, hz));
      ExpireRefines(s, d, hz, now);
    case Clean => CleanRefines(s, d);
    case Cache(mac, ip, now) =>
      TouchLaw(d.view, Ipv4Addr(ip), now);
      assert Find(s.entries, Ipv4Addr(ip)) == Lookup(d.view, Ipv4Addr(ip));
      if d.cached.Some? {
        TouchLaw(d.view, d.cached.value, now);
        assert Find(s.entries, d.cached.value) == Lookup(d.view, d.cached.value);
      }
  }

  lemma InvBuckets(d: Db)
    requires Inv(d)
    ensures Buckets(d.view)
  {
  }

  lemma ExpireRefines(s: Spec, d: Db, hz: nat, now: int)
    requires Inv(d) && Stands(s, d)
    ensures Stands(ApplySpec(s, hz, Expire(now)), Expired(d, Limit(now, hz)))
  {
    hide Lookup, BucketOk, Limit;
    var limit := Limit(now, hz);
    ExpireLaw(d, limit);
    var m, v := AgedMap(s.entries, limit), Expired(d, limit).view;
    forall a ensures Find(m, a) == Lookup(v, a) {
      assert Find(s.entries, a) == Lookup(d.view, a);
    }
    if d.cached.Some? { assert Find(m, d.cached.value) == Lookup(v, d.cached.value); }
  }

  lemma CleanRefines(s: Spec, d: Db)
    requires Inv(d) && Stands(s, d)
    ensures Stands(ApplySpec(s, 0, Clean), Cleaned(d))
  {
  }

  /** Over any run from an empty table, the chains are the map the operations describe. */
  lemma {:induction false} RunRefines(s: Spec, d: Db, hz: nat, ops: seq<Op>)
    requires Inv(d) && Stands(s, d)
    ensures Stands(RunSpec(s, hz, ops), Run(d, hz, ops))
    decreases |ops|
  {
    hide Stands, BucketOk;
    if ops != [] {
      StepInv(d, hz, ops[0]);
      StepRefines(s, d, hz, ops[0]);
      RunRefines(ApplySpec(s, hz, ops[0]), Apply(d, hz, ops[0]), hz, ops[1..]);
    }
  }

  // ---------- ageing ----------

  /** `op` leaves the entry for `a` alone, except that an expire pass finds it unused for 300 seconds. */
  predicate Quiet(s: Spec, hz: nat, op: Op, a: NetAddr) {
    match op
    case Insert(_, b, _, _) => b != a
    case Replace(b, now) => b != a || (a in s.entries ==> now - s.entries[a].timer >= 300 * hz)
    case Expire(now) => a in s.entries ==> now - s.entries[a].timer >= 300 * hz
    case Clean => false
    case Cache(mac, ip, _) => if s.cachedMac != mac then Ipv4Addr(ip) != a else s.cached != Some(a)
  }

  predicate Untouched(s: Spec, hz: nat, ops: seq<Op>, a: NetAddr)
    decreases |ops|
  {
    ops == [] || (Quiet(s, hz, ops[0], a) && Untouched(ApplySpec(s, hz, ops[0]), hz, ops[1..], a))
  }

  function Passes(ops: seq<Op>): (n: nat) {
    if ops == [] then 0 else (if ops[0].Expire? then 1 else 0) + Passes(ops[1..])
  }

  lemma {:induction false} StaysGone(s: Spec, hz: nat, ops: seq<Op>, a: NetAddr)
    requires a !in s.entries && Untouched(s, hz, ops, a)
    ensures a !in RunSpec(s, hz, ops).entries
    decreases |ops|
  {
    if ops != [] { StaysGone(ApplySpec(s, hz, ops[0]), hz, ops[1..], a); }
  }

  /** An entry that nothing refreshes is gone after exactly as many stale expire passes as its use count. */
  lemma {:induction false} Forgotten(s: Spec, hz: nat, ops: seq<Op>, a: NetAddr)
    requires a in s.entries && s.entries[a].useCount >= 1 && Untouched(s, hz, ops, a)
    ensures var r := s.entries[a];
      Find(RunSpec(s, hz, ops).entries, a)
        == if Passes(ops) < r.useCount then Some(r.(useCount := r.useCount - Passes(ops))) else None
    decreases |ops|
  {
    if ops != [] {
      var t := ApplySpec(s, hz, ops[0]);
      if a in t.entries {
        Forgotten(t, hz, ops[1..], a);
      } else {
        StaysGone(t, hz, ops[1..], a);
      }
    }
  }

  // ---------- the recorded address ----------

  function LastMac(before: Option<Mac>, ops: seq<Op>, a: NetAddr): (m: Option<Mac>)
    decreases |ops|
  {
    if ops == [] then before
    else LastMac(if ops[0].Insert? && ops[0].addr == a then Some(ops[0].mac) else before, ops[1..], a)
  }

  lemma {:induction false} CarriesLastMac(s: Spec, hz: nat, before: Option<Mac>, ops: seq<Op>, a: NetAddr)
    requires a in s.entries ==> before == Some(s.entries[a].mac)
    ensures var t := RunSpec(s, hz, ops); a in t.entries ==> LastMac(before, ops, a) == Some(t.entries[a].mac)
    decreases |ops|
  {
    if ops != [] {
      CarriesLastMac(ApplySpec(s, hz, ops[0]), hz, if ops[0].Insert? && ops[0].addr == a then Some(ops[0].mac)
          else before, ops[1..], a);
    }
  }

  /** From an empty table, a lookup finds the entry used in the last 300 seconds only under the MAC last inserted for
      it. */
  lemma LookupGivesLastMac(hz: nat, ops: seq<Op>, a: NetAddr, now: int)
    ensures var m := Replacement(Lookup(Run(Fresh(), hz, ops).view, a), Limit(now, hz));
      m.Some? ==> LastMac(None, ops, a) == m
  {
    var s := Spec(map[], None, ZERO_MAC, ZERO_IP);
    RunRefines(s, Fresh(), hz, ops);
    CarriesLastMac(s, hz, None, ops, a);
    assert Find(RunSpec(s, hz, ops).entries, a) == Lookup(Run(Fresh(), hz, ops).view, a);
  }

  // ---------- how long an entry lives ----------

  /** `op` inserts nothing for `a`, refreshes nothing with a time before `t`, and looks and ages before `end` only. */
  predicate Between(op: Op, a: NetAddr, t: int, end: int) {
    match op
    case Insert(_, b, _, _) => b != a
    case Replace(_, now) => now < end
    case Expire(now) => now < end
    case Clean => false
    case Cache(_, _, now) => now >= t
  }

  lemma {:induction false} KeepsFresh(s: Spec, hz: nat, ops: seq<Op>, a: NetAddr, t: int)
    requires a in s.entries && s.entries[a].timer >= t
    requires forall i | 0 <= i < |ops| :: Between(ops[i], a, t, t + 300 * hz)
    ensures var r := RunSpec(s, hz, ops);
      && a in r.entries && r.entries[a].mac == s.entries[a].mac && r.entries[a].timer >= t
      && ((forall i | 0 <= i < |ops| :: !ops[i].Cache?) ==> r.entries[a].timer == s.entries[a].timer)
    decreases |ops|
  {
    if ops != [] {
      assert Between(ops[0], a, t, t + 300 * hz);
      KeepsFresh(ApplySpec(s, hz, ops[0]), hz, ops[1..], a, t);
    }
  }

  /** An entry lives 300 seconds: after an insertion at time `t`, while other addresses are inserted and every look-up
      and expire pass is before `t + 300 * hz`, the entry is there under its MAC and no older than `t`, so every
      look-up before that time gives the MAC. If the short cut does not refresh it either, no later look-up does. */
  lemma LivesFor300Seconds(hz: nat, before: seq<Op>, mac: Mac, a: NetAddr, t: int, after: seq<Op>, now: int)
    requires forall i | 0 <= i < |after| :: Between(after[i], a, t, t + 300 * hz)
    ensures var o := Lookup(Run(Fresh(), hz, before + [Insert(mac, a, t, true)] + after).view, a);
      && o.Some? && o.value.mac == mac && o.value.timer >= t
      && (now < t + 300 * hz ==> Replacement(o, Limit(now, hz)) == Some(mac))
      && ((forall i | 0 <= i < |after| :: !after[i].Cache?) ==>
            o.value.timer == t && (now >= t + 300 * hz ==> Replacement(o, Limit(now, hz)) == None))
  {
    hide Run, Apply, RunSpec, Lookup;
    var s0 := Spec(map[], None, ZERO_MAC, ZERO_IP);
    var all := before + [Insert(mac, a, t, true)] + after;
    FreshStands();
    RunRefines(s0, Fresh(), hz, all);
    SpecSplits(s0, hz, before + [Insert(mac, a, t, true)], after);
    SpecSplits(s0, hz, before, [Insert(mac, a, t, true)]);
    var s := RunSpec(s0, hz, before);
    SpecOne(s, hz, Insert(mac, a, t, true));
    KeepsFresh(ApplySpec(s, hz, Insert(mac, a, t, true)), hz, after, a, t);
    assert Find(RunSpec(s0, hz, all).entries, a) == Lookup(Run(Fresh(), hz, all).view, a);
  }

  lemma FreshStands()
    ensures Stands(Spec(map[], None, ZERO_MAC, ZERO_IP), Fresh())
  {
  }

  lemma {:induction false} SpecSplits(s: Spec, hz: nat, p: seq<Op>, q: seq<Op>)
    ensures RunSpec(s, hz, p + q) == RunSpec(RunSpec(s, hz, p), hz, q)
    decreases |p|
  {
    if p == [] {
      assert p + q == q;
    } else {
      assert (p + q)[0] == p[0] && (p + q)[1..] == p[1..] + q;
      SpecSplits(ApplySpec(s, hz, p[0]), hz, p[1..], q);
    }
  }

  lemma SpecOne(s: Spec, hz: nat, op: Op)
    ensures RunSpec(s, hz, [op]) == ApplySpec(s, hz, op)
  {
    assert [op][1..] == [];
  }
}
