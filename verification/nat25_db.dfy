/** The NAT2.5 hash chains of kernel/core/rtw_br_ext.c in the heap, each method against its effect on `Db`. */
module Nat25Db {
  import opened Options
  import opened Nat25Model
  import opened Seqs

  /** `pprev_hash`: the pointer that points at the entry. */
  datatype PPrev = Nowhere | Slot(index: nat) | Next(of: Entry)

  class Entry {
    const networkAddr: NetAddr
    var macAddr: Mac
    var useCount: nat
    var ageingTimer: int
    var nextHash: Entry?
    var pprevHash: PPrev

    constructor (addr: NetAddr, r: Rec)
      ensures networkAddr == addr && Now() == r
    {
      networkAddr, macAddr, useCount, ageingTimer := addr, r.mac, r.useCount, r.timer;
      nextHash, pprevHash := null, Nowhere;
    }

    function Now(): (r: Rec)
      reads this`macAddr, this`useCount, this`ageingTimer
    {
      Rec(macAddr, useCount, ageingTimer)
    }
  }

  function At(s: seq<Entry>, i: int): (r: Entry?) {
    if 0 <= i < |s| then s[i] else null
  }

  /** Where the entry at `i` of bucket `b` must be pointed at from. */
  function Back(s: seq<Entry>, b: nat, i: nat): (r: PPrev)
    requires i <= |s|
  {
    if i == 0 then Slot(b) else Next(s[i - 1])
  }

  ghost predicate Linked(s: seq<Entry>, b: nat)
    reads s`nextHash, s`pprevHash
  {
    && (forall i {:trigger s[i].nextHash} | 0 <= i < |s| :: s[i].nextHash == At(s, i + 1))
    && (forall i {:trigger s[i].pprevHash} | 0 <= i < |s| :: s[i].pprevHash == Back(s, b, i))
  }

  ghost predicate Recorded(s: seq<Entry>, v: seq<Cell>)
    reads s`macAddr, s`useCount, s`ageingTimer
  {
    && |s| == |v|
    && forall i | 0 <= i < |s| :: s[i].networkAddr == v[i].addr && s[i].Now() == v[i].rec
  }

  /** The entries of a chain are in the right bucket and have different addresses. */
  ghost predicate Homed(s: seq<Entry>, b: nat) {
    && (forall i | 0 <= i < |s| :: Hash(s[i].networkAddr) == b)
    && forall i, j | 0 <= i < j < |s| :: s[i] != s[j]
  }

  // ---------- pointer surgery ----------

  /** The chain `s` once its head points back at `e` and `e` at its head. */
  ghost predicate Pushed(e: Entry, s: seq<Entry>, b: nat)
    reads e, s`nextHash, s`pprevHash
  {
    && e.nextHash == At(s, 0) && e.pprevHash == Slot(b)
    && (forall i {:trigger s[i].nextHash} | 0 <= i < |s| :: s[i].nextHash == At(s, i + 1))
    && (forall i {:trigger s[i].pprevHash} | 0 <= i < |s| ::
          s[i].pprevHash == if i == 0 then Next(e) else Next(s[i - 1]))
  }

  lemma PushedLinks(e: Entry, s: seq<Entry>, b: nat)
    requires Pushed(e, s, b)
    ensures Linked([e] + s, b)
  {
    var r := [e] + s;
    forall i | 0 <= i < |r| ensures r[i].nextHash == At(r, i + 1) && r[i].pprevHash == Back(r, b, i) {
      if i > 0 { assert r[i] == s[i - 1]; }
    }
  }

  /** `__network_hash_link`. */
  method Link(t: array<Entry?>, e: Entry, b: nat, ghost s: seq<Entry>)
    requires b < t.Length && t[b] == At(s, 0) && Linked(s, b) && Homed(s, b) && e !in s
    modifies t, e`nextHash, e`pprevHash, s`pprevHash
    ensures t[..] == old(t[..])[b := e]
    ensures Linked([e] + s, b)
  {
    e.nextHash := t[b];
    if e.nextHash != null {
      e.nextHash.pprevHash := Next(e);
    }
    t[b] := e;
    e.pprevHash := Slot(b);
    PushedLinks(e, s, b);
  }

  /** The chain with the two pointers around position `p` redirected past it. */
  ghost predicate Bypassed(s: seq<Entry>, b: nat, p: nat)
    reads s`nextHash, s`pprevHash
  {
    && p < |s|
    && (forall i {:trigger s[i].nextHash} | 0 <= i < |s| && i != p ::
          s[i].nextHash == At(s, if i == p - 1 then p + 1 else i + 1))
    && (forall i {:trigger s[i].pprevHash} | 0 <= i < |s| && i != p ::
          s[i].pprevHash == Back(s, b, if i == p + 1 then p else i))
  }

  lemma BypassedLinks(s: seq<Entry>, b: nat, p: nat)
    requires Bypassed(s, b, p)
    ensures Linked(RemoveAt(s, p), b)
  {
    var r := RemoveAt(s, p);
    forall i | 0 <= i < |r| ensures r[i].nextHash == At(r, i + 1) && r[i].pprevHash == Back(r, b, i) {
      if i < p { assert r[i] == s[i]; } else { assert r[i] == s[i + 1]; }
    }
  }

  /** `__network_hash_unlink`. */
  method Unlink(t: array<Entry?>, e: Entry, ghost s: seq<Entry>, ghost b: nat, ghost p: nat)
    requires b < t.Length && t[b] == At(s, 0) && Linked(s, b) && Homed(s, b)
    requires p < |s| && s[p] == e
    modifies t, s`nextHash, s`pprevHash
    ensures t[..] == old(t[..])[b := At(RemoveAt(s, p), 0)]
    ensures Linked(RemoveAt(s, p), b)
    ensures e.nextHash == null && e.pprevHash == Nowhere
  {
    match e.pprevHash {
      case Slot(i) => t[i] := e.nextHash;
      case Next(of) => of.nextHash := e.nextHash;
    }
    if e.nextHash != null {
      e.nextHash.pprevHash := e.pprevHash;
    }
    e.nextHash := null;
    e.pprevHash := Nowhere;
    BypassedLinks(s, b, p);
  }

  ghost function Members(chains: seq<seq<Entry>>): (r: set<Entry>)
    ensures forall b, x: Entry | 0 <= b < |chains| && x in chains[b] :: x in r
  {
    set b, x: Entry | 0 <= b < |chains| && x in chains[b] :: x
  }

  lemma MembersShrink(chains: seq<seq<Entry>>, b: nat, k: nat)
    requires b < |chains| && k < |chains[b]|
    ensures Members(chains[b := RemoveAt(chains[b], k)]) <= Members(chains)
  {
  }

  lemma AtDrop(s: seq<Entry>, k: nat)
    requires k <= |s|
    ensures At(s, k) == At(s[k..], 0)
  {
  }

  /** Chain `s` of bucket `b` is linked and carries the records `v`. */
  ghost predicate Holds(head: Entry?, s: seq<Entry>, b: nat, v: seq<Cell>)
    reads s
  {
    head == At(s, 0) && Linked(s, b) && Homed(s, b) && Recorded(s, v)
  }

  /** The bucket array and the chains carry the records of `view`. */
  ghost predicate AllHold(t: array<Entry?>, chains: seq<seq<Entry>>, view: View)
    reads t, Members(chains)
  {
    && t.Length == |chains| == |view| == NAT25_HASH_SIZE
    && forall b | 0 <= b < |chains| :: Holds(t[b], chains[b], b, view[b])
  }

  /** `e` is the entry at `k` of bucket `b`. */
  ghost predicate Listed(chains: seq<seq<Entry>>, e: Entry, b: nat, k: nat) {
    b < |chains| && k < |chains[b]| && chains[b][k] == e
  }

  /** New contents for a listed entry. */
  method Write(e: Entry, r: Rec, ghost t: array<Entry?>, ghost chains: seq<seq<Entry>>, ghost view: View,
      ghost b: nat, ghost k: nat)
    requires AllHold(t, chains, view) && Listed(chains, e, b, k)
    modifies e`macAddr, e`useCount, e`ageingTimer
    ensures AllHold(t, chains, view[b := view[b][k := Cell(e.networkAddr, r)]]) && e.Now() == r
  {
    ghost var s := chains[b];
    assert Holds(t[b], s, b, view[b]);
    assert forall i | 0 <= i < |s| && i != k :: s[i] != e;
    assert forall c | 0 <= c < |chains| && c != b :: Holds(t[c], chains[c], c, view[c]) && e !in chains[c];
    e.macAddr, e.useCount, e.ageingTimer := r.mac, r.useCount, r.timer;
    assert Holds(t[b], s, b, view[b][k := Cell(e.networkAddr, r)]);
  }

  /** Unlinks a listed entry from the table. */
  method Remove(t: array<Entry?>, e: Entry, ghost chains: seq<seq<Entry>>, ghost view: View, ghost b: nat, ghost k: nat)
    requires AllHold(t, chains, view) && Listed(chains, e, b, k)
    modifies t, chains[b]`nextHash, chains[b]`pprevHash
    ensures AllHold(t, chains[b := RemoveAt(chains[b], k)], view[b := RemoveAt(view[b], k)])
  {
    ghost var s := chains[b];
    assert Holds(t[b], s, b, view[b]);
    assert forall c | 0 <= c < |chains| && c != b ::
        Holds(t[c], chains[c], c, view[c]) && forall i | 0 <= i < |chains[c]| :: chains[c][i] !in s;
    Unlink(t, e, s, b, k);
    HoldsRemoved(s, b, view[b], k);
  }

  lemma HoldsRemoved(s: seq<Entry>, b: nat, v: seq<Cell>, k: nat)
    requires k < |s| && Homed(s, b) && Recorded(s, v) && Linked(RemoveAt(s, k), b)
    ensures Holds(At(RemoveAt(s, k), 0), RemoveAt(s, k), b, RemoveAt(v, k))
  {
    var r := RemoveAt(s, k);
    assert forall i | 0 <= i < |r| :: r[i] == s[if i < k then i else i + 1];
  }

  /** Links a new entry in front of its bucket. */
  method Add(t: array<Entry?>, e: Entry, b: nat, ghost chains: seq<seq<Entry>>, ghost view: View)
    requires AllHold(t, chains, view) && Hash(e.networkAddr) == b && e !in Members(chains)
    modifies t, e`nextHash, e`pprevHash, chains[b]`pprevHash
    ensures AllHold(t, chains[b := [e] + chains[b]], view[b := [Cell(e.networkAddr, e.Now())] + view[b]])
  {
    ghost var s := chains[b];
    assert Holds(t[b], s, b, view[b]);
    assert forall c | 0 <= c < |chains| && c != b ::
        && Holds(t[c], chains[c], c, view[c])
        && forall i | 0 <= i < |chains[c]| :: chains[c][i] !in s && chains[c][i] != e;
    Link(t, e, b, s);
    HoldsAdded(e, s, b, view[b]);
  }

  lemma HoldsAdded(e: Entry, s: seq<Entry>, b: nat, v: seq<Cell>)
    requires Homed(s, b) && Recorded(s, v) && e !in s && Hash(e.networkAddr) == b && Linked([e] + s, b)
    ensures Holds(e, [e] + s, b, [Cell(e.networkAddr, e.Now())] + v)
  {
    var r := [e] + s;
    assert forall i | 0 < i < |r| :: r[i] == s[i - 1];
  }

  class Bridge {
    const nethash: array<Entry?>
    const hz: nat
    var scdbEntry: Entry?
    var scdbMac: Mac
    var scdbIp: Ip
    ghost var chains: seq<seq<Entry>>
    ghost var db: Db

    ghost predicate Valid()
      reads this, nethash, Members(chains)
    {
      && Inv(db)
      && AllHold(nethash, chains, db.view)
      && scdbMac == db.cachedMac && scdbIp == db.cachedIp
      && (scdbEntry == null <==> db.cached.None?)
      && (scdbEntry != null ==>
            db.cached == Some(scdbEntry.networkAddr) && scdbEntry in chains[Hash(scdbEntry.networkAddr)])
    }

    constructor (hz: nat)
      ensures Valid() && fresh(nethash)
      ensures db == Db(seq(NAT25_HASH_SIZE, _ => []), None, ZERO_MAC, ZERO_IP)
    {
      this.hz := hz;
      nethash := new Entry?[NAT25_HASH_SIZE](_ => null);
      scdbEntry, scdbMac, scdbIp := null, ZERO_MAC, ZERO_IP;
      chains := seq(NAT25_HASH_SIZE, _ => []);
      db := Db(seq(NAT25_HASH_SIZE, _ => []), None, ZERO_MAC, ZERO_IP);
    }

    /** The scan every operation starts with. */
    method Scan(a: NetAddr) returns (e: Entry?, ghost k: nat)
      requires Valid()
      ensures k == Pos(db.view[Hash(a)], a)
      ensures e == At(chains[Hash(a)], k)
    {
      ghost var s, v := chains[Hash(a)], db.view[Hash(a)];
      assert Holds(nethash[Hash(a)], s, Hash(a), v);
      e, k := nethash[Hash(a)], 0;
      while e != null
        invariant k <= |s| && e == At(s, k)
        invariant forall i | 0 <= i < k :: v[i].addr != a
        decreases |s| - k
      {
        if e.networkAddr == a {
          return;
        }
        e, k := e.nextHash, k + 1;
      }
    }

    /** Gives a listed entry new contents. */
    method Update(e: Entry, r: Rec, ghost b: nat, ghost k: nat)
      requires Valid() && Listed(chains, e, b, k) && r.useCount >= 1
      modifies `db, e`macAddr, e`useCount, e`ageingTimer
      ensures Valid()
      ensures db == old(db).(view := Store(old(db).view, e.networkAddr, r)) && e.Now() == r
    {
      hide Inv, Store, Lookup, Holds;
      Recording(b, k);
      StoreAt(db, b, k, r);
      Write(e, r, nethash, chains, db.view, b, k);
      db := db.(view := Store(db.view, e.networkAddr, r));
    }

    /** Unlinks and frees an entry; the short cut must not go on pointing at it. */
    method Drop(e: Entry, ghost b: nat, ghost k: nat)
      requires Valid() && Listed(chains, e, b, k)
      modifies this, nethash, chains[b]`nextHash, chains[b]`pprevHash
      ensures Valid()
      ensures chains == old(chains)[b := RemoveAt(old(chains)[b], k)]
      ensures db == Refreshed(old(db), old(db).view[b := RemoveAt(old(db).view[b], k)])
    {
      hide Inv, Lookup, Holds, Buckets;
      Recording(b, k);
      RemoveLaw(db, b, k);
      CachedListed(e, b, k);
      if scdbEntry == e {
        scdbMac, scdbIp, scdbEntry := ZERO_MAC, ZERO_IP, null;
      }
      Remove(nethash, e, chains, db.view, b, k);
      chains := chains[b := RemoveAt(chains[b], k)];
      db := Refreshed(db, db.view[b := RemoveAt(db.view[b], k)]);
    }

    /** The short cut is `e` exactly when it is for `e`'s address; any other one stays in its chain without `e`. */
    lemma CachedListed(e: Entry, b: nat, k: nat)
      requires Valid() && Listed(chains, e, b, k)
      ensures scdbEntry == e <==> db.cached == Some(e.networkAddr)
      ensures db.cached.Some? ==> Lookup(db.view, db.cached.value).Some?
      ensures scdbEntry != null && scdbEntry != e ==>
                scdbEntry in chains[b := RemoveAt(chains[b], k)][Hash(scdbEntry.networkAddr)]
    {
      hide Inv, Holds, Lookup, Buckets;
      Recording(b, k);
      if scdbEntry != null {
        var h := Hash(scdbEntry.networkAddr);
        var j :| 0 <= j < |chains[h]| && chains[h][j] == scdbEntry;
        Recording(h, j);
        if h == b && j != k {
          assert RemoveAt(chains[b], k)[if j < k then j else j - 1] == scdbEntry;
        }
      }
    }

    /** Facts about a listed entry. */
    lemma Recording(b: nat, k: nat)
      requires Inv(db) && AllHold(nethash, chains, db.view) && b < |chains| && k < |chains[b]|
      ensures |db.view| == NAT25_HASH_SIZE && |db.view[b]| == |chains[b]|
      ensures var e := chains[b][k];
        && db.view[b][k] == Cell(e.networkAddr, e.Now()) && Hash(e.networkAddr) == b
            && Pos(db.view[b], e.networkAddr) == k
        && Lookup(db.view, e.networkAddr) == Some(e.Now()) && e.useCount >= 1
    {
      assert Holds(nethash[b], chains[b], b, db.view[b]);
      assert BucketOk(db.view[b], b);
      GetAt(db.view[b], k);
    }

    /** `__nat25_db_network_lookup_and_replace`: whether there is an entry, and the MAC written over the destination. */
    method LookupAndReplace(a: NetAddr, now: int) returns (found: bool, mac: Option<Mac>)
      requires Valid()
      modifies `db, Members(chains)
      ensures Valid() && chains == old(chains)
      ensures db == LookedUp(old(db), a, Limit(now, hz))
      ensures found == Lookup(old(db).view, a).Some?
      ensures mac == Replacement(Lookup(old(db).view, a), Limit(now, hz))
      ensures match Lookup(old(db).view, a)
              case None => mac == None && Lookup(db.view, a) == None
              case Some(r) =>
                if now - r.timer < 300 * hz then
                  mac == Some(r.mac) && Lookup(db.view, a) == Some(r.(useCount := r.useCount + 1))
                else mac == None && Lookup(db.view, a) == Some(r)
      ensures forall x | x != a :: Lookup(db.view, x) == Lookup(old(db).view, x)
    {
      hide Inv, AllHold, Store, Limit;
      LookedUpMeans(db, a, now, hz);
      var e, k := Scan(a);
      ViewShape();
      found, mac := e != null, None;
      if e != null {
        Recording(Hash(a), k);
        if e.ageingTimer > Limit(now, hz) {
          mac := Some(e.macAddr);
          Update(e, Rec(e.macAddr, e.useCount + 1, e.ageingTimer), Hash(a), k);
        } else {
          StoreSame(db, Hash(a), k);
        }
      }
    }

    /** Links a new entry under its address. */
    method LinkNew(f: Entry)
      requires Valid() && f !in Members(chains) && Lookup(db.view, f.networkAddr).None? && f.useCount >= 1
      modifies `chains, `db, nethash, f`nextHash, f`pprevHash, Members(chains)`pprevHash
      ensures Valid()
      ensures chains == old(chains)[Hash(f.networkAddr) := [f] + old(chains)[Hash(f.networkAddr)]]
      ensures db == old(db).(view := Store(old(db).view, f.networkAddr, f.Now()))
    {
      hide Inv, Holds, Store;
      ViewShape();
      var b := Hash(f.networkAddr);
      StoreNew(db, f.networkAddr, f.Now());
      Add(nethash, f, b, chains, db.view);
      assert scdbEntry != null && scdbEntry in chains[b] ==> scdbEntry in [f] + chains[b];
      chains := chains[b := [f] + chains[b]];
      db := db.(view := Store(db.view, f.networkAddr, f.Now()));
    }

    /** `__nat25_db_network_insert`; `memory` says whether `rtw_malloc` succeeds. */
    method Insert(mac: Mac, a: NetAddr, now: int, memory: bool)
      requires Valid()
      modifies this, nethash, Members(chains)
      ensures Valid()
      ensures db == Inserted(old(db), mac, a, now, memory)
      ensures match Lookup(old(db).view, a)
              case None => Lookup(db.view, a) == if memory then Some(Rec(mac, 1, now)) else None
              case Some(r) => Lookup(db.view, a) == Some(Rec(mac, r.useCount, now))
      ensures forall x | x != a :: Lookup(db.view, x) == Lookup(old(db).view, x)
      ensures fresh(Members(chains) - old(Members(chains)))
    {
      hide Inv, AllHold, Store;
      InsertedMeans(db, mac, a, now, memory);
      var e, k := Scan(a);
      ViewShape();
      if e != null {
        Recording(Hash(a), k);
        Update(e, Rec(mac, e.useCount, now), Hash(a), k);
      } else if memory {
        var f := new Entry(a, Rec(mac, 1, now));
        LinkNew(f);
      }
    }

    lemma ViewShape()
      requires Inv(db) && AllHold(nethash, chains, db.view)
      ensures nethash.Length == |chains| == |db.view| == NAT25_HASH_SIZE
      ensures forall b | 0 <= b < |chains| :: |chains[b]| == |db.view[b]|
    {
      forall b | 0 <= b < |chains| ensures |chains[b]| == |db.view[b]| {
        assert Holds(nethash[b], chains[b], b, db.view[b]);
      }
    }

    /** `scdb_findEntry`. */
    method FindEntry(ip: Ip) returns (e: Entry?)
      requires Valid()
      ensures e == null <==> Lookup(db.view, Ipv4Addr(ip)).None?
      ensures e != null ==> e in chains[Hash(Ipv4Addr(ip))] && e.networkAddr == Ipv4Addr(ip)
    {
      ViewShape();
      ghost var k: nat;
      e, k := Scan(Ipv4Addr(ip));
      if e != null { Recording(Hash(Ipv4Addr(ip)), k); }
    }

    /** The current entry and the one after it. */
    lemma Cursor(b: nat, k: nat)
      requires Valid() && b < |chains| && k < |chains[b]|
      ensures chains[b][k].nextHash == At(chains[b], k + 1)
    {
      assert Holds(nethash[b], chains[b], b, db.view[b]);
    }

    lemma Heads()
      requires Valid()
      ensures forall b | 0 <= b < nethash.Length :: nethash[b] == At(chains[b], 0)
    {
      forall b | 0 <= b < nethash.Length ensures nethash[b] == At(chains[b], 0) {
        assert Holds(nethash[b], chains[b], b, db.view[b]);
      }
    }

    /** `nat25_db_expire`. */
    method Expire(now: int)
      requires Valid()
      modifies this, nethash, Members(chains)
      ensures Valid()
      ensures db == Expired(old(db), Limit(now, hz))
      ensures forall a :: Lookup(db.view, a) ==
                match Lookup(old(db).view, a)
                case None => None
                case Some(r) =>
                  if now - r.timer < 300 * hz then Some(r)
                  else if r.useCount == 1 then None
                  else Some(r.(useCount := r.useCount - 1))
      ensures Members(chains) <= old(Members(chains))
    {
      hide Inv, AllHold, Swept, Refreshed, Expired, Lookup;
      ExpiredMeans(db, now, hz);
      ghost var d0 := db;
      ViewShape();
      SweepStart(d0, Limit(now, hz));
      for i := 0 to NAT25_HASH_SIZE
        invariant Valid()
        invariant Members(chains) <= old(Members(chains))
        invariant Swept(d0, db, i, Limit(now, hz))
      {
        ExpireChain(i, now, d0);
      }
      SweepEnd(d0, db, Limit(now, hz));
    }

    /** The body of the inner loop of `nat25_db_expire`; the result is the position of what follows `f`. */
    method ExpireEntry(f: Entry, i: nat, ghost k: nat, now: int, ghost d0: Db) returns (ghost j: nat)
      requires Valid() && Listed(chains, f, i, k) && Sweeping(d0, db, i, k, Limit(now, hz))
      modifies this, nethash, chains[i]
      ensures Valid() && i < |chains| == NAT25_HASH_SIZE && Members(chains) <= old(Members(chains))
      ensures j <= |chains[i]| && chains[i][j..] == old(chains)[i][k + 1..]
      ensures Sweeping(d0, db, i, j, Limit(now, hz))
      ensures if now - old(f.ageingTimer) < 300 * hz then chains == old(chains) && f.Now() == old(f.Now())
              else if old(f.useCount) == 1 then chains == old(chains)[i := RemoveAt(old(chains)[i], k)]
              else chains == old(chains) && f.Now() == old(f.Now()).(useCount := old(f.useCount) - 1)
    {
      hide Inv, AllHold, Refreshed, Sweeping, Lookup, Store;
      ViewShape();
      Recording(i, k);
      SweepStep(d0, db, i, k, Limit(now, hz));
      j := k + 1;
      if f.ageingTimer <= Limit(now, hz) {
        if f.useCount == 1 {
          MembersShrink(chains, i, k);
          Drop(f, i, k);
          j := k;
          assert chains[i] == old(chains)[i][..k] + old(chains)[i][k + 1..];
        } else {
          Update(f, Rec(f.macAddr, f.useCount - 1, f.ageingTimer), i, k);
        }
      }
    }

    /** The body of the bucket loop of `nat25_db_expire`. */
    method ExpireChain(i: nat, now: int, ghost d0: Db)
      requires Valid() && i < NAT25_HASH_SIZE && Swept(d0, db, i, Limit(now, hz))
      modifies this, nethash, Members(chains)
      ensures Valid()
      ensures Members(chains) <= old(Members(chains))
      ensures Swept(d0, db, i + 1, Limit(now, hz))
    {
      hide Inv, AllHold, Refreshed, ExpireBucket;
      ViewShape();
      Heads();
      var f := nethash[i];
      ghost var k: nat := 0;
      assert Sweeping(d0, db, i, 0, Limit(now, hz));
      while f != null
        invariant Valid()
        invariant Members(chains) <= old(Members(chains))
        invariant |chains| == NAT25_HASH_SIZE && k <= |chains[i]| && f == At(chains[i], k)
        invariant Sweeping(d0, db, i, k, Limit(now, hz))
        decreases |chains[i]| - k
      {
        ViewShape();
        Cursor(i, k);
        var g := f.nextHash;
        AtDrop(chains[i], k + 1);
        k := ExpireEntry(f, i, k, now, d0);
        AtDrop(chains[i], k);
        f := g;
      }
      ViewShape();
      SweepBucketEnd(d0, db, i, Limit(now, hz));
    }

    /** `nat25_db_cleanup`. */
    method Cleanup()
      requires Valid()
      modifies this, nethash, Members(chains)
      ensures Valid()
      ensures db == Cleaned(old(db))
      ensures Members(chains) <= old(Members(chains))
    {
      hide Inv, AllHold, Emptied, Refreshed;
      ghost var d0 := db;
      ViewShape();
      EmptyStart(d0);
      for i := 0 to NAT25_HASH_SIZE
        invariant Valid()
        invariant Members(chains) <= old(Members(chains))
        invariant Emptied(d0, db, i)
      {
        CleanChain(i, d0);
      }
      EmptyEnd(d0, db);
    }

    /** The body of the bucket loop of `nat25_db_cleanup`. */
    method CleanChain(i: nat, ghost d0: Db)
      requires Valid() && i < NAT25_HASH_SIZE && Emptied(d0, db, i)
      modifies this, nethash, Members(chains)
      ensures Valid()
      ensures Members(chains) <= old(Members(chains))
      ensures Emptied(d0, db, i + 1)
    {
      hide Inv, AllHold, Emptied, Refreshed;
      ViewShape();
      Heads();
      var f := nethash[i];
      while f != null
        invariant Valid()
        invariant Members(chains) <= old(Members(chains))
        invariant |chains| == NAT25_HASH_SIZE && f == At(chains[i], 0)
        invariant Emptied(d0, db, i)
        decreases |chains[i]|
      {
        ViewShape();
        Cursor(i, 0);
        EmptyStep(d0, db, i);
        MembersShrink(chains, i, 0);
        var g := f.nextHash;
        Drop(f, i, 0);
        f := g;
      }
      ViewShape();
      EmptyBucketEnd(d0, db, i);
    }

    /** The transmit path's use of the short cut for an IPv4 frame of the station `mac` at `ip`. */
    method Cache(mac: Mac, ip: Ip, now: int)
      requires Valid()
      modifies `scdbEntry, `scdbMac, `scdbIp, `db, Members(chains)
      ensures Valid() && chains == old(chains)
      ensures db == Cached(old(db), mac, ip, now)
    {
      hide Inv, AllHold, Store;
      ViewShape();
      if scdbMac != mac {
        scdbEntry := FindEntry(ip);
        if scdbEntry != null {
          scdbMac := mac;
          scdbIp := ip;
          Stamp(scdbEntry, now, Db(db.view, Some(Ipv4Addr(ip)), mac, ip));
        } else {
          NoShortCut(db.(cached := None));
          db := db.(cached := None);
        }
      } else if scdbEntry != null {
        Stamp(scdbEntry, now, db);
      } else {
        scdbMac := ZERO_MAC;
        scdbIp := ZERO_IP;
        NoShortCut(ForgetCached(db));
        db := ForgetCached(db);
      }
    }

    lemma NoShortCut(d: Db)
      requires Inv(db) && d.view == db.view && d.cached.None?
      ensures Inv(d)
    {
    }

    /** Refreshes the timer of the short cut's entry, once the short cut is what `d` says. */
    method Stamp(e: Entry, now: int, ghost d: Db)
      requires Inv(db) && AllHold(nethash, chains, db.view) && scdbEntry == e && e in chains[Hash(e.networkAddr)]
      requires d == Db(db.view, Some(e.networkAddr), scdbMac, scdbIp)
      modifies `db, e`macAddr, e`useCount, e`ageingTimer
      ensures Valid()
      ensures db == d.(view := Touch(d.view, e.networkAddr, now))
    {
      hide Holds, Buckets, Store;
      ViewShape();
      ghost var b := Hash(e.networkAddr);
      ghost var k :| 0 <= k < |chains[b]| && chains[b][k] == e;
      Recording(b, k);
      db := d;
      Update(e, Rec(e.macAddr, e.useCount, now), b, k);
    }
  }
}
