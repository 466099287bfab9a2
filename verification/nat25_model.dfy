/** The NAT2.5 address database of kernel/core/rtw_br_ext.c, on values: buckets of records, and the map they stand
    for. */
module Nat25Model {
  import opened Options

  const MAX_NETWORK_ADDR_LEN: nat := 17
  const NAT25_HASH_SIZE: nat := 16
  const NAT25_AGEING_TIME: nat := 300
  const NAT25_IPV4: bv8 := 1
  const NAT25_IPV6: bv8 := 2
  const NAT25_IPX: bv8 := 3
  const NAT25_APPLE: bv8 := 4
  const NAT25_PPPOE: bv8 := 5

  type NetAddr = s: seq<bv8> | |s| == MAX_NETWORK_ADDR_LEN witness seq(MAX_NETWORK_ADDR_LEN, _ => 0)
  type Mac = s: seq<bv8> | |s| == 6 witness [0, 0, 0, 0, 0, 0]
  type Ip = s: seq<bv8> | |s| == 4 witness [0, 0, 0, 0]

  const ZERO_MAC: Mac := [0, 0, 0, 0, 0, 0]
  const ZERO_IP: Ip := [0, 0, 0, 0]

  /** What an entry says about its address. */
  datatype Rec = Rec(mac: Mac, useCount: nat, timer: int)
  datatype Cell = Cell(addr: NetAddr, rec: Rec)

  type View = seq<seq<Cell>>

  function Xor(a: NetAddr, lo: nat, hi: nat): (r: bv8)
    requires lo <= hi <= MAX_NETWORK_ADDR_LEN
    decreases hi - lo
  {
    if lo == hi then 0 else a[lo] ^ Xor(a, lo + 1, hi)
  }

  /** The bytes `__nat25_network_hash` folds together, which depend on the kind of address. */
  function HashByte(a: NetAddr): (r: bv8) {
    if a[0] == NAT25_IPV4 then Xor(a, 7, 11)
    else if a[0] == NAT25_IPX then Xor(a, 1, 11)
    else if a[0] == NAT25_APPLE then Xor(a, 1, 4)
    else if a[0] == NAT25_PPPOE then Xor(a, 0, 9)
    else if a[0] == NAT25_IPV6 then Xor(a, 1, 17)
    else Xor(a, 0, MAX_NETWORK_ADDR_LEN)
  }

  function Hash(a: NetAddr): (r: nat)
    ensures r < NAT25_HASH_SIZE
  {
    var m := HashByte(a) & 15;
    assert m <= 15;
    m as nat
  }

  /** The address of an IPv4 host. */
  function Ipv4Addr(ip: Ip): (a: NetAddr) {
    [NAT25_IPV4, 0, 0, 0, 0, 0, 0] + ip + [0, 0, 0, 0, 0, 0]
  }

  // ---------- one bucket ----------

  /** Where the scan of a bucket stops. */
  function Pos(s: seq<Cell>, a: NetAddr): (p: nat)
    ensures p <= |s|
    ensures p < |s| ==> s[p].addr == a
    ensures forall i | 0 <= i < p :: s[i].addr != a
  {
    if s == [] || s[0].addr == a then 0 else 1 + Pos(s[1..], a)
  }

  function Get(s: seq<Cell>, a: NetAddr): (r: Option<Rec>) {
    var p := Pos(s, a);
    if p < |s| then Some(s[p].rec) else None
  }

  ghost predicate Distinct(s: seq<Cell>) {
    forall i, j | 0 <= i < j < |s| :: s[i].addr != s[j].addr
  }

  ghost predicate BucketOk(s: seq<Cell>, b: nat) {
    && Distinct(s)
    && forall i | 0 <= i < |s| :: Hash(s[i].addr) == b && s[i].rec.useCount >= 1
  }

  /** `__nat25_timeout`: a record whose timer is not later has expired. */
  function Limit(now: int, hz: nat): (r: int) {
    now - NAT25_AGEING_TIME * hz
  }

  /** What one expire pass leaves of a record. */
  function Aged(r: Rec, limit: int): (o: Option<Rec>) {
    if r.timer > limit then Some(r)
    else if r.useCount <= 1 then None
    else Some(r.(useCount := r.useCount - 1))
  }

  function ExpireBucket(s: seq<Cell>, limit: int): (r: seq<Cell>) {
    if s == [] then [] else
      (match Aged(s[0].rec, limit)
       case None => []
       case Some(rec) => [Cell(s[0].addr, rec)]) + ExpireBucket(s[1..], limit)
  }

  lemma GetAt(s: seq<Cell>, i: nat)
    requires Distinct(s) && i < |s|
    ensures Pos(s, s[i].addr) == i
  {
  }

  lemma GetNil(a: NetAddr)
    ensures Get([], a) == None
  {
  }

  lemma GetCons(c: Cell, t: seq<Cell>, a: NetAddr)
    ensures Get([c] + t, a) == if c.addr == a then Some(c.rec) else Get(t, a)
  {
    var s := [c] + t;
    assert s[1..] == t;
    assert c.addr != a ==> Pos(s, a) == 1 + Pos(t, a);
  }

  lemma DistinctCons(c: Cell, t: seq<Cell>)
    ensures Distinct([c] + t) <==> Distinct(t) && Get(t, c.addr).None?
  {
    var s := [c] + t;
    if Distinct(s) {
      forall i, j | 0 <= i < j < |t| ensures t[i].addr != t[j].addr {
        assert s[i + 1] == t[i] && s[j + 1] == t[j];
      }
      forall i | 0 <= i < |t| ensures t[i].addr != c.addr {
        assert s[0] == c && s[i + 1] == t[i];
      }
    }
  }

  /** An expire pass ages every record of a bucket exactly once. */
  lemma {:induction false} GetExpired(s: seq<Cell>, limit: int, a: NetAddr)
    requires Distinct(s)
    ensures Get(ExpireBucket(s, limit), a) == match Get(s, a) case None => None case Some(r) => Aged(r, limit)
  {
    hide Distinct, Get, Aged;
    GetNil(a);
    if s != [] {
      var t := ExpireBucket(s[1..], limit);
      assert s == [s[0]] + s[1..];
      DistinctCons(s[0], s[1..]);
      GetExpired(s[1..], limit, a);
      GetCons(s[0], s[1..], a);
      if Aged(s[0].rec, limit).Some? {
        GetCons(Cell(s[0].addr, Aged(s[0].rec, limit).value), t, a);
      } else {
        assert ExpireBucket(s, limit) == t;
      }
    }
  }

  lemma {:induction false} ExpireBucketOk(s: seq<Cell>, b: nat, limit: int)
    requires BucketOk(s, b)
    ensures BucketOk(ExpireBucket(s, limit), b)
  {
    if s != [] {
      var c, u := s[0], s[1..];
      assert s == [c] + u;
      DistinctCons(c, u);
      ExpireBucketOk(u, b, limit);
      GetExpired(u, limit, c.addr);
      var t := ExpireBucket(u, limit);
      var o := Aged(c.rec, limit);
      if o.Some? { DistinctCons(Cell(c.addr, o.value), t); }
    }
  }

  // ---------- the whole table ----------

  /** The database, and the single-client short cut that points into it. */
  datatype Db = Db(view: View, cached: Option<NetAddr>, cachedMac: Mac, cachedIp: Ip)

  function Lookup(v: View, a: NetAddr): (r: Option<Rec>)
    requires |v| == NAT25_HASH_SIZE
  {
    Get(v[Hash(a)], a)
  }

  ghost predicate Buckets(v: View) {
    && |v| == NAT25_HASH_SIZE
    && forall b | 0 <= b < |v| :: BucketOk(v[b], b)
  }

  ghost predicate Inv(d: Db) {
    && Buckets(d.view)
    && (d.cached.Some? ==> Lookup(d.view, d.cached.value).Some?)
  }

  function Put(s: seq<Cell>, a: NetAddr, r: Rec): (t: seq<Cell>)
  {
    var p := Pos(s, a);
    if p < |s| then s[p := Cell(a, r)] else [Cell(a, r)] + s
  }

  function Store(v: View, a: NetAddr, r: Rec): (w: View)
    requires |v| == NAT25_HASH_SIZE
  {
    v[Hash(a) := Put(v[Hash(a)], a, r)]
  }

  function InsertedRec(o: Option<Rec>, mac: Mac, now: int): (r: Rec) {
    Rec(mac, if o.Some? then o.value.useCount else 1, now)
  }

  function Inserted(d: Db, mac: Mac, a: NetAddr, now: int, memory: bool): (d': Db)
    requires |d.view| == NAT25_HASH_SIZE
  {
    var o := Lookup(d.view, a);
    if o.None? && !memory then d else d.(view := Store(d.view, a, InsertedRec(o, mac, now)))
  }

  function Hit(r: Rec, limit: int): (r': Rec) {
    if r.timer <= limit then r else r.(useCount := r.useCount + 1)
  }

  function LookedUp(d: Db, a: NetAddr, limit: int): (d': Db)
    requires |d.view| == NAT25_HASH_SIZE
  {
    var o := Lookup(d.view, a);
    if o.None? then d else d.(view := Store(d.view, a, Hit(o.value, limit)))
  }

  function ForgetCached(d: Db): (d': Db) {
    Db(d.view, None, ZERO_MAC, ZERO_IP)
  }

  /** The short cut is dropped when its entry is. */
  function Refreshed(d: Db, v: View): (d': Db)
    requires |v| == NAT25_HASH_SIZE
  {
    var e := d.(view := v);
    if d.cached.Some? && Lookup(v, d.cached.value).None? then ForgetCached(e) else e
  }

  function Expired(d: Db, limit: int): (d': Db)
    requires |d.view| == NAT25_HASH_SIZE
  {
    Refreshed(d, seq(NAT25_HASH_SIZE, b requires 0 <= b < NAT25_HASH_SIZE => ExpireBucket(d.view[b], limit)))
  }

  function Cleaned(d: Db): (d': Db) {
    Refreshed(d, seq(NAT25_HASH_SIZE, _ => []))
  }

  function Touch(v: View, a: NetAddr, now: int): (w: View)
    requires |v| == NAT25_HASH_SIZE
  {
    var o := Lookup(v, a);
    if o.None? then v else Store(v, a, o.value.(timer := now))
  }

  /** The transmit path's use of the short cut for a frame sent by `mac` from `ip`. */
  function Cached(d: Db, mac: Mac, ip: Ip, now: int): (d': Db)
    requires |d.view| == NAT25_HASH_SIZE
  {
    if d.cachedMac != mac then
      var a := Ipv4Addr(ip);
      if Lookup(d.view, a).Some? then Db(Touch(d.view, a, now), Some(a), mac, ip) else d.(cached := None)
    else if d.cached.Some? then d.(view := Touch(d.view, d.cached.value, now))
    else ForgetCached(d)
  }

  /** What `__nat25_db_network_lookup_and_replace` writes over the frame's destination. */
  function Replacement(o: Option<Rec>, limit: int): (m: Option<Mac>) {
    if o.Some? && o.value.timer > limit then Some(o.value.mac) else None
  }

  // ---------- laws ----------

  lemma PutLaw(s: seq<Cell>, b: nat, a: NetAddr, r: Rec)
    requires BucketOk(s, b) && Hash(a) == b && r.useCount >= 1
    ensures BucketOk(Put(s, a, r), b)
    ensures forall x :: Get(Put(s, a, r), x) == if x == a then Some(r) else Get(s, x)
  {
    var t := Put(s, a, r);
    var p := Pos(s, a);
    forall x ensures Get(t, x) == if x == a then Some(r) else Get(s, x) {
      PutGet(s, a, r, x);
    }
  }

  lemma PutGet(s: seq<Cell>, a: NetAddr, r: Rec, x: NetAddr)
    requires Distinct(s)
    ensures Get(Put(s, a, r), x) == if x == a then Some(r) else Get(s, x)
  {
    var t, p, q := Put(s, a, r), Pos(s, a), Pos(s, x);
    if p == |s| {
      assert t[1..] == s;
    } else {
      assert forall i | 0 <= i < |s| && i != p :: t[i] == s[i];
      assert forall i | 0 <= i < |s| :: t[i].addr == s[i].addr;
    }
  }

  lemma StoreLaw(v: View, a: NetAddr, r: Rec)
    requires Buckets(v) && r.useCount >= 1
    ensures Buckets(Store(v, a, r))
    ensures forall x :: Lookup(Store(v, a, r), x) == if x == a then Some(r) else Lookup(v, x)
  {
    PutLaw(v[Hash(a)], Hash(a), a, r);
  }

  /** Storing over a record that is there changes that record only. */
  lemma StoreAt(d: Db, b: nat, k: nat, r: Rec)
    requires Inv(d) && b < |d.view| && k < |d.view[b]| && r.useCount >= 1
    ensures var a := d.view[b][k].addr;
      && Hash(a) == b
      && Store(d.view, a, r) == d.view[b := d.view[b][k := Cell(a, r)]]
      && Inv(d.(view := Store(d.view, a, r)))
  {
    assert BucketOk(d.view[b], b);
    GetAt(d.view[b], k);
    StoreLaw(d.view, d.view[b][k].addr, r);
  }

  /** Storing a record that is not there puts it in front of its bucket. */
  lemma StoreNew(d: Db, a: NetAddr, r: Rec)
    requires Inv(d) && Lookup(d.view, a).None? && r.useCount >= 1
    ensures Store(d.view, a, r) == d.view[Hash(a) := [Cell(a, r)] + d.view[Hash(a)]]
    ensures Inv(d.(view := Store(d.view, a, r)))
    ensures d.cached != Some(a)
  {
    StoreLaw(d.view, a, r);
  }

  lemma RemoveGet(s: seq<Cell>, k: nat, x: NetAddr)
    requires Distinct(s) && k < |s|
    ensures Get(s[..k] + s[k + 1..], x) == if x == s[k].addr then None else Get(s, x)
  {
    var t, p := s[..k] + s[k + 1..], Pos(s, x);
    assert forall i | 0 <= i < |t| :: t[i] == s[if i < k then i else i + 1];
    if p < |s| && p != k {
      assert t[if p < k then p else p - 1] == s[p];
    }
  }

  /** Taking one record out of its bucket takes it out of the database. */
  lemma RemoveLaw(d: Db, b: nat, k: nat)
    requires Inv(d) && b < |d.view| && k < |d.view[b]|
    ensures var s := d.view[b];
      var w := d.view[b := s[..k] + s[k + 1..]];
      && Buckets(w) && Inv(Refreshed(d, w)) && Hash(s[k].addr) == b
      && forall x :: Lookup(w, x) == if x == s[k].addr then None else Lookup(d.view, x)
  {
    var s := d.view[b];
    var t := s[..k] + s[k + 1..];
    var w := d.view[b := t];
    assert BucketOk(s, b);
    assert BucketOk(t, b) by {
      assert forall i | 0 <= i < |t| :: t[i] == s[if i < k then i else i + 1];
    }
    forall x ensures Lookup(w, x) == if x == s[k].addr then None else Lookup(d.view, x) {
      RemoveGet(s, k, x);
    }
  }

  /** Storing what is already recorded changes nothing. */
  lemma StoreSame(d: Db, b: nat, k: nat)
    requires Inv(d) && b < |d.view| && k < |d.view[b]|
    ensures Store(d.view, d.view[b][k].addr, d.view[b][k].rec) == d.view
  {
    assert d.view[b][k := d.view[b][k]] == d.view[b];
    assert BucketOk(d.view[b], b);
    GetAt(d.view[b], k);
  }

  lemma ExpireLaw(d: Db, limit: int)
    requires Inv(d)
    ensures Inv(Expired(d, limit))
    ensures forall x :: Lookup(Expired(d, limit).view, x)
                        == match Lookup(d.view, x) case None => None case Some(r) => Aged(r, limit)
  {
    var v := Expired(d, limit).view;
    forall b | 0 <= b < |v| ensures BucketOk(v[b], b) {
      ExpireBucketOk(d.view[b], b, limit);
    }
    forall x ensures Lookup(v, x) == match Lookup(d.view, x) case None => None case Some(r) => Aged(r, limit) {
      assert BucketOk(d.view[Hash(x)], Hash(x));
      GetExpired(d.view[Hash(x)], limit, x);
    }
  }

  /** What an expire pass at `now` does to every record, with the time written out. */
  lemma ExpiredMeans(d: Db, now: int, hz: nat)
    requires Inv(d)
    ensures forall a :: Lookup(Expired(d, Limit(now, hz)).view, a) ==
              match Lookup(d.view, a)
              case None => None
              case Some(r) =>
                if now - r.timer < 300 * hz then Some(r)
                else if r.useCount == 1 then None
                else Some(r.(useCount := r.useCount - 1))
  {
    hide Lookup, Expired, Buckets;
    var limit := Limit(now, hz);
    ExpireLaw(d, limit);
    BucketsShape(d);
    forall a ensures Lookup(d.view, a).Some? ==> Lookup(d.view, a).value.useCount >= 1 {
      if Lookup(d.view, a).Some? {
        UseCountPositive(d.view, a);
      }
    }
  }

  lemma BucketsShape(d: Db)
    requires Inv(d)
    ensures Buckets(d.view) && |d.view| == NAT25_HASH_SIZE
  {
  }

  lemma InsertedMeans(d: Db, mac: Mac, a: NetAddr, now: int, memory: bool)
    requires Inv(d)
    ensures var v, w := d.view, Inserted(d, mac, a, now, memory).view;
      && (forall x | x != a :: Lookup(w, x) == Lookup(v, x))
      && match Lookup(v, a)
         case None => Lookup(w, a) == if memory then Some(Rec(mac, 1, now)) else None
         case Some(r) => Lookup(w, a) == Some(Rec(mac, r.useCount, now))
  {
    hide Lookup, Store, Buckets;
    BucketsShape(d);
    var o := Lookup(d.view, a);
    if o.Some? { UseCountPositive(d.view, a); }
    StoreLaw(d.view, a, InsertedRec(o, mac, now));
  }

  /** What a look-up at `now` does, with the time written out. */
  lemma LookedUpMeans(d: Db, a: NetAddr, now: int, hz: nat)
    requires Inv(d)
    ensures var v, w := d.view, LookedUp(d, a, Limit(now, hz)).view;
      && (forall x | x != a :: Lookup(w, x) == Lookup(v, x))
      && match Lookup(v, a)
         case None => Replacement(None, Limit(now, hz)) == None && Lookup(w, a) == None
         case Some(r) =>
           if now - r.timer < 300 * hz then
             Replacement(Some(r), Limit(now, hz)) == Some(r.mac) && Lookup(w, a) == Some(r.(useCount := r.useCount + 1))
           else Replacement(Some(r), Limit(now, hz)) == None && Lookup(w, a) == Some(r)
  {
    hide Lookup, Store, Buckets;
    BucketsShape(d);
    var o := Lookup(d.view, a);
    if o.Some? {
      UseCountPositive(d.view, a);
      StoreLaw(d.view, a, Hit(o.value, Limit(now, hz)));
    }
  }

  lemma TouchLaw(v: View, a: NetAddr, now: int)
    requires Buckets(v)
    ensures Buckets(Touch(v, a, now))
    ensures forall x :: Lookup(Touch(v, a, now), x)
                        == if x == a && Lookup(v, a).Some? then Some(Lookup(v, a).value.(timer := now))
                            else Lookup(v, x)
  {
    var o := Lookup(v, a);
    if o.Some? {
      UseCountPositive(v, a);
      StoreLaw(v, a, o.value.(timer := now));
    }
  }

  /** What the transmit path does with the short cut: a frame of another station points it at the entry of the frame's
      address, or drops it when there is none; a frame of the same station uses it, or forgets the station. Only the
      entry it then points at is refreshed. */
  lemma CachedMeans(d: Db, mac: Mac, ip: Ip, now: int)
    requires Inv(d)
    ensures var e := Cached(d, mac, ip, now);
      var to := if d.cachedMac == mac then d.cached
                else if Lookup(d.view, Ipv4Addr(ip)).Some? then Some(Ipv4Addr(ip)) else None;
      && e.cached == to
      && (d.cachedMac != mac && to.Some? ==> e.cachedMac == mac && e.cachedIp == ip)
      && (d.cachedMac == mac && to.None? ==> e.cachedMac == ZERO_MAC && e.cachedIp == ZERO_IP)
      && ((d.cachedMac == mac) == to.Some? ==> e.cachedMac == d.cachedMac && e.cachedIp == d.cachedIp)
      && forall x :: match Lookup(d.view, x)
                     case None => Lookup(e.view, x) == None
                     case Some(r) => Lookup(e.view, x) == Some(if Some(x) == to then r.(timer := now) else r)
  {
    hide Lookup, Touch, Buckets, Ipv4Addr;
    BucketsShape(d);
    TouchLaw(d.view, Ipv4Addr(ip), now);
    if d.cached.Some? { TouchLaw(d.view, d.cached.value, now); }
  }

  /** The addresses of IPv4 hosts are told apart by the host alone, and their buckets are chosen by its four bytes. */
  lemma Ipv4Means(ip: Ip)
    ensures var a := Ipv4Addr(ip);
      && a[0] == 1 && a[7..11] == ip && (forall i | 0 < i < 17 && !(7 <= i < 11) :: a[i] == 0)
      && Hash(a) == ((ip[0] ^ ip[1] ^ ip[2] ^ ip[3]) & 15) as int
  {
    hide Xor;
    var a := Ipv4Addr(ip);
    assert a[7] == ip[0] && a[8] == ip[1] && a[9] == ip[2] && a[10] == ip[3];
    XorFour(a, 7);
  }

  lemma XorFour(a: NetAddr, i: nat)
    requires i + 4 <= MAX_NETWORK_ADDR_LEN
    ensures Xor(a, i, i + 4) == a[i] ^ a[i + 1] ^ a[i + 2] ^ a[i + 3]
  {
    XorStep(a, i, i + 4);
    XorStep(a, i + 1, i + 4);
    XorStep(a, i + 2, i + 4);
    XorStep(a, i + 3, i + 4);
    hide Xor;
    XorAssoc(a[i], a[i + 1], a[i + 2], a[i + 3]);
  }

  lemma XorAssoc(x: bv8, y: bv8, z: bv8, w: bv8)
    ensures x ^ (y ^ (z ^ (w ^ 0))) == x ^ y ^ z ^ w
  {
  }

  lemma XorStep(a: NetAddr, lo: nat, hi: nat)
    requires lo < hi <= MAX_NETWORK_ADDR_LEN
    ensures Xor(a, lo, hi) == a[lo] ^ Xor(a, lo + 1, hi) && Xor(a, hi, hi) == 0
  {
  }

  // ---------- the expire pass, bucket by bucket ----------

  /** The buckets before `i` have been expired, the others not yet. */
  ghost predicate SweptTo(d0: Db, d: Db, i: nat, limit: int) {
    && |d0.view| == |d.view| == NAT25_HASH_SIZE
    && d == Refreshed(d0, d.view)
    && (forall j | 0 <= j < i && j < NAT25_HASH_SIZE :: d.view[j] == ExpireBucket(d0.view[j], limit))
    && (forall j | i < j < NAT25_HASH_SIZE :: d.view[j] == d0.view[j])
  }

  ghost predicate Swept(d0: Db, d: Db, i: nat, limit: int) {
    SweptTo(d0, d, i, limit) && (i < NAT25_HASH_SIZE ==> d.view[i] == d0.view[i])
  }

  /** Of bucket `i`, the records before position `k` are what the pass left. */
  ghost predicate Sweeping(d0: Db, d: Db, i: nat, k: nat, limit: int) {
    && SweptTo(d0, d, i, limit)
    && i < NAT25_HASH_SIZE && k <= |d.view[i]|
    && ExpireBucket(d0.view[i], limit) == d.view[i][..k] + ExpireBucket(d.view[i][k..], limit)
  }

  lemma SweepStart(d: Db, limit: int)
    requires Inv(d)
    ensures Swept(d, d, 0, limit)
  {
  }

  lemma SweepEnd(d0: Db, d: Db, limit: int)
    requires Swept(d0, d, NAT25_HASH_SIZE, limit)
    ensures d == Expired(d0, limit)
  {
    var v := seq(NAT25_HASH_SIZE, b requires 0 <= b < NAT25_HASH_SIZE => ExpireBucket(d0.view[b], limit));
    assert d.view == v;
  }

  lemma SweepBucketEnd(d0: Db, d: Db, i: nat, limit: int)
    requires i < |d.view| && Sweeping(d0, d, i, |d.view[i]|, limit)
    ensures Swept(d0, d, i + 1, limit)
  {
    assert d.view[i][|d.view[i]|..] == [];
  }

  /** Dropping the short cut when its record goes can be decided at the end of the pass. */
  lemma RefreshedTwice(d0: Db, v: View, w: View)
    requires |v| == |w| == NAT25_HASH_SIZE
    requires forall x :: Lookup(w, x).Some? ==> Lookup(v, x).Some?
    ensures Refreshed(Refreshed(d0, v), w) == Refreshed(d0, w)
    ensures Refreshed(d0, w).view == w
  {
  }

  /** One record of the pass: it stays, ages, or goes. */
  lemma SweepStep(d0: Db, d: Db, i: nat, k: nat, limit: int)
    requires Inv(d) && Sweeping(d0, d, i, k, limit) && k < |d.view[i]|
    ensures var c := d.view[i][k];
      && (c.rec.timer > limit ==> Sweeping(d0, d, i, k + 1, limit))
      && (c.rec.timer <= limit && c.rec.useCount == 1 ==>
            Sweeping(d0, Refreshed(d, d.view[i := d.view[i][..k] + d.view[i][k + 1..]]), i, k, limit))
      && (c.rec.timer <= limit && c.rec.useCount > 1 ==>
            Sweeping(d0, d.(view := Store(d.view, c.addr, c.rec.(useCount := c.rec.useCount - 1))), i, k + 1, limit))
  {
    hide Inv, Refreshed, Store;
    var s, c := d.view[i], d.view[i][k];
    assert s[k..] == [c] + s[k + 1..];
    if c.rec.timer > limit {
      assert s[..k + 1] == s[..k] + [c];
    } else if c.rec.useCount == 1 {
      SweepDrop(d0, d, i, k, limit);
    } else if c.rec.useCount > 1 {
      SweepAge(d0, d, i, k, limit);
    }
  }

  lemma SweepDrop(d0: Db, d: Db, i: nat, k: nat, limit: int)
    requires Inv(d) && Sweeping(d0, d, i, k, limit) && k < |d.view[i]|
    requires Aged(d.view[i][k].rec, limit).None?
    ensures Sweeping(d0, Refreshed(d, d.view[i := d.view[i][..k] + d.view[i][k + 1..]]), i, k, limit)
  {
    hide Inv, Lookup, Refreshed, ExpireBucket, Buckets;
    var s := d.view[i];
    RemoveLaw(d, i, k);
    RefreshedTwice(d0, d.view, d.view[i := s[..k] + s[k + 1..]]);
    DropTail(s, k, limit);
  }

  lemma DropTail(s: seq<Cell>, k: nat, limit: int)
    requires k < |s| && Aged(s[k].rec, limit).None?
    ensures var t := s[..k] + s[k + 1..];
      t[..k] + ExpireBucket(t[k..], limit) == s[..k] + ExpireBucket(s[k..], limit)
  {
    var t := s[..k] + s[k + 1..];
    assert t[..k] == s[..k] && t[k..] == s[k + 1..] == s[k..][1..];
  }

  lemma SweepAge(d0: Db, d: Db, i: nat, k: nat, limit: int)
    requires Inv(d) && Sweeping(d0, d, i, k, limit) && k < |d.view[i]|
    requires d.view[i][k].rec.timer <= limit && d.view[i][k].rec.useCount > 1
    ensures var c := d.view[i][k];
      Sweeping(d0, d.(view := Store(d.view, c.addr, c.rec.(useCount := c.rec.useCount - 1))), i, k + 1, limit)
  {
    hide Lookup, Store;
    var s, c := d.view[i], d.view[i][k];
    var r := c.rec.(useCount := c.rec.useCount - 1);
    var w := Store(d.view, c.addr, r);
    StoreAt(d, i, k, r);
    StoreLaw(d.view, c.addr, r);
    LookupAt(d, i, k);
    RefreshedTwice(d0, d.view, w);
    var t := s[k := Cell(c.addr, r)];
    assert s[k..][1..] == s[k + 1..];
    assert t[..k + 1] == s[..k] + [Cell(c.addr, r)] && t[k + 1..] == s[k + 1..];
  }

  lemma LookupAt(d: Db, b: nat, k: nat)
    requires Inv(d) && b < |d.view| && k < |d.view[b]|
    ensures Lookup(d.view, d.view[b][k].addr) == Some(d.view[b][k].rec)
  {
    assert BucketOk(d.view[b], b);
    GetAt(d.view[b], k);
  }

  // ---------- the cleanup, bucket by bucket ----------

  ghost predicate Emptied(d0: Db, d: Db, i: nat) {
    && |d0.view| == |d.view| == NAT25_HASH_SIZE
    && d == Refreshed(d0, d.view)
    && forall j | 0 <= j < i && j < NAT25_HASH_SIZE :: d.view[j] == []
  }

  lemma EmptyStart(d: Db)
    requires Inv(d)
    ensures Emptied(d, d, 0)
  {
  }

  lemma EmptyStep(d0: Db, d: Db, i: nat)
    requires Inv(d) && Emptied(d0, d, i) && i < |d.view| && d.view[i] != []
    ensures Emptied(d0, Refreshed(d, d.view[i := d.view[i][..0] + d.view[i][1..]]), i)
  {
    hide Inv, Lookup, Refreshed, Buckets;
    var w := d.view[i := d.view[i][..0] + d.view[i][1..]];
    RemoveLaw(d, i, 0);
    RefreshedTwice(d0, d.view, w);
  }

  lemma EmptyBucketEnd(d0: Db, d: Db, i: nat)
    requires i < |d.view| && Emptied(d0, d, i) && d.view[i] == []
    ensures Emptied(d0, d, i + 1)
  {
  }

  lemma EmptyEnd(d0: Db, d: Db)
    requires Emptied(d0, d, NAT25_HASH_SIZE)
    ensures d == Cleaned(d0)
  {
    assert d.view == seq(NAT25_HASH_SIZE, _ => []);
  }

  lemma UseCountPositive(v: View, a: NetAddr)
    requires Buckets(v) && Lookup(v, a).Some?
    ensures Lookup(v, a).value.useCount >= 1
  {
    assert BucketOk(v[Hash(a)], Hash(a));
  }
}
