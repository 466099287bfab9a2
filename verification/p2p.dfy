/** P2P elements and their attributes in a BSS description: kernel/core/rtw_ieee80211.c. */
module P2p {
  import opened Bytes
  import opened Elements
  import opened IeEdit
  import opened Options
  import opened P2pAttr
  import opened Seqs

  const MAX_IE_SZ: nat := 768
  const VENDOR: Byte := 221
  const P2P_OUI: seq<Byte> := [0x50, 0x6F, 0x9A, 0x09]

  // ---------- one element in a buffer ----------

  predicate IsP2p(x: seq<Byte>) {
    |x| > 6 && x[0] == VENDOR && x[2..6] == P2P_OUI
  }

  /** A search of the attributes of a P2P element ends. */
  predicate Searchable(x: seq<Byte>, id: Byte) {
    IsP2p(x) ==> !Stalls(x[6..], id)
  }

  /** So do all searches of a deletion. */
  predicate Deletable(x: seq<Byte>, id: Byte) {
    IsP2p(x) ==> !Blocked(x[6..], id)
  }

  lemma DeletableIsSearchable(x: seq<Byte>, id: Byte)
    requires Deletable(x, id)
    ensures Searchable(x, id)
  {
  }

  function FindIn(x: seq<Byte>, id: Byte): (r: Option<Range>)
    ensures r.Some? ==> 6 + r.value.at + r.value.len <= |x|
  {
    if IsP2p(x) then FindAttr(x[6..], id) else None
  }

  /** The guard of `rtw_get_p2p_attr`. */
  method TestHeader(buf: array<Byte>, ie: nat, ielen: nat) returns (ok: bool)
    requires ie + ielen <= buf.Length
    ensures ok <==> IsP2p(buf[ie..ie + ielen])
  {
    if ielen <= 6 {
      return false;
    }
    SubSlice(buf[..], ie, ie + ielen, 2, 6);
    assert buf[..][ie..ie + ielen] == buf[ie..ie + ielen] && buf[..][ie + 2..ie + 6] == buf[ie + 2..ie + 6];
    return buf[ie] == VENDOR && buf[ie + 2..ie + 6] == P2P_OUI;
  }

  /** `rtw_get_p2p_attr` on the `ielen` bytes at `ie`, for every element on which its search ends. */
  method GetP2pAttr(buf: array<Byte>, ie: nat, ielen: nat, id: Byte) returns (target: Option<nat>, lenAttr: nat)
    requires ie + ielen <= buf.Length
    requires Searchable(buf[ie..ie + ielen], id)
    ensures match FindIn(buf[ie..ie + ielen], id)
            case None => target == None && lenAttr == 0
            case Some(r) => target == Some(ie + 6 + r.at) && lenAttr == r.len
  {
    hide Scanning, Stalls, FindAttr, AttrLen;
    target, lenAttr := None, 0;
    var ok := TestHeader(buf, ie, ielen);
    if !ok {
      return;
    }
    ghost var b := buf[ie..ie + ielen][6..];
    var attr: nat := ie + 6;
    ghost var p: nat := 0;
    ScanStart(b, id);
    while attr - ie + 3 <= ielen
      invariant attr == ie + 6 + p && p <= |b|
      invariant Scanning(b, p, id)
      decreases |b| - p
    {
      var attrLen := AttrLen(buf[attr + 1], buf[attr + 2]);
      AttrStep(b, p, id);
      if attr - ie + attrLen > ielen {
        break;
      }
      if buf[attr] == id {
        return Some(attr), attrLen;
      }
      attr, p := attr + attrLen, p + attrLen;
    }
    AttrStep(b, p, id);
  }

  /** The attribute sought is not before position `p`. */
  predicate Scanning(b: seq<Byte>, p: nat, id: Byte) {
    p <= |b| && !Stalls(b[p..], id) && FindAttr(b, id) == Shift(FindAttr(b[p..], id), p)
  }

  lemma ScanStart(b: seq<Byte>, id: Byte)
    requires !Stalls(b, id)
    ensures Scanning(b, 0, id)
  {
    assert b[0..] == b;
  }

  /** The scan of `b` at position `p`. */
  lemma AttrStep(b: seq<Byte>, p: nat, id: Byte)
    requires Scanning(b, p, id)
    ensures p + 3 > |b| ==> FindAttr(b, id).None?
    ensures p + 3 <= |b| ==>
              var n := AttrLen(b[p + 1], b[p + 2]);
              && (p + n > |b| ==> FindAttr(b, id).None?)
              && (p + n <= |b| && b[p] == id ==> FindAttr(b, id) == Some(Range(p, n)))
              && (p + n <= |b| && b[p] != id ==> n > 0 && Scanning(b, p + n, id))
  {
    hide AttrLen, FindAttr, Stalls;
    var t := b[p..];
    AttrFront(t, id);
    if p + 3 <= |b| {
      assert t[0] == b[p] && t[1] == b[p + 1] && t[2] == b[p + 2];
      var n := AttrLen(b[p + 1], b[p + 2]);
      if p + n <= |b| {
        assert t[n..] == b[p + n..];
      }
    }
  }

  lemma AttrFront(t: seq<Byte>, id: Byte)
    requires !Stalls(t, id)
    ensures |t| < 3 ==> FindAttr(t, id) == None
    ensures |t| >= 3 ==>
              var n := AttrLen(t[1], t[2]);
              if n > |t| then FindAttr(t, id) == None
              else if t[0] == id then FindAttr(t, id) == Some(Range(0, n))
              else n > 0 && !Stalls(t[n..], id) && FindAttr(t, id) == Shift(FindAttr(t[n..], id), n)
  {
    hide AttrLen;
  }

  /** An element with `n` bytes cut out at `at` and its length byte reduced. */
  function Shorter(x: seq<Byte>, at: nat, n: nat): (y: seq<Byte>)
    requires 6 <= at && at + n <= |x| && n <= x[1]
  {
    [x[0], x[1] as int - n] + x[2..at] + x[at + n..]
  }

  /** The length byte counts what follows it. */
  predicate Sized(x: seq<Byte>) {
    |x| >= 2 && |x| == 2 + x[1] as int
  }

  /** What `rtw_del_p2p_attr` makes of an element. */
  function StripIe(x: seq<Byte>, id: Byte): (y: seq<Byte>)
    requires Sized(x)
  {
    if !IsP2p(x) then x else
      P2pIe(x[0], Deleted(x[6..], id))
  }

  /** A P2P element with the attributes `t`. */
  function P2pIe(eid: Byte, t: seq<Byte>): (x: seq<Byte>)
    requires |t| + 4 < 256
  {
    [eid, |t| + 4] + P2P_OUI + t
  }

  lemma StripIeStep(x: seq<Byte>, at: nat, n: nat, id: Byte)
    requires Sized(x) && Deletable(x, id) && FindIn(x, id) == Some(Range(at, n)) && n > 0
    ensures 6 + at + n <= |x| && 2 <= |x| && n <= x[1]
    ensures var y := Shorter(x, 6 + at, n);
      && Sized(y) && |y| == |x| - n && StripIe(y, id) == StripIe(x, id)
      && Deletable(y, id)
  {
    hide FindAttr, Stalls, Shorter, P2pIe;
    var y := Shorter(x, 6 + at, n);
    ShorterParts(x, at, n);
    assert y[6..] == CutOut(x[6..], Range(at, n));
    if |y| == 6 {
      EndOfList(id);
      assert y[6..] == [];
      HeaderOnly(y);
    }
  }

  lemma HeaderOnly(y: seq<Byte>)
    requires Sized(y) && |y| == 6 && y[2..6] == P2P_OUI
    ensures y == P2pIe(y[0], [])
  {
    assert y == [y[0], y[1]] + y[2..6];
  }

  lemma ShorterParts(x: seq<Byte>, at: nat, n: nat)
    requires Sized(x) && 6 + at + n <= |x|
    ensures n <= x[1]
    ensures var y := Shorter(x, 6 + at, n);
      Sized(y) && |y| == |x| - n && y[0] == x[0] && y[2..6] == x[2..6] && y[6..] == x[6..][..at] + x[6..][at + n..]
  {
    var y := Shorter(x, 6 + at, n);
    var u, v := y[6..], x[6..][..at] + x[6..][at + n..];
    forall k | 0 <= k < |u| ensures u[k] == v[k] {
      assert v[k] == if k < at then x[6 + k] else x[6 + k + n];
      assert y[6 + k] == if k < at then x[2..6 + at][4 + k] else x[6 + at + n..][k - at];
    }
    assert u == v;
    assert y[2..6] == x[2..6 + at][..4] == x[2..6];
  }

  lemma StripIeDone(x: seq<Byte>, id: Byte)
    requires Sized(x) && !Cuts(FindIn(x, id))
    ensures StripIe(x, id) == x
  {
    if IsP2p(x) {
      assert x == [x[0], x[1]] + x[2..6] + x[6..];
    }
  }

  /** One turn of the loop of `rtw_del_p2p_attr`: the attribute of `n` bytes at `target` goes, and the room it took
      is zeroed. */
  method CutAttr(buf: array<Byte>, ie: nat, ielen: nat, target: nat, n: nat)
    requires ie + 6 <= target && target + n <= ie + ielen <= buf.Length && n <= buf[ie + 1]
    modifies buf
    ensures buf[ie..ie + ielen - n] == Shorter(old(buf[ie..ie + ielen]), target - ie, n)
    ensures Zero(buf[ie + ielen - n..ie + ielen])
    ensures Outside(old(buf[..]), buf[..], ie, ie + ielen)
  {
    ghost var s0 := buf[..];
    CloseGap(buf, target, n, ie + ielen);
    ghost var s1 := buf[..];
    buf[ie + 1] := buf[ie + 1] as int - n;
    assert buf[..] == s1[ie + 1 := s1[ie + 1] as int - n];
    CutBytes(s0, s1, ie, ie + ielen, target, n);
  }

  lemma CutBytes(s0: seq<Byte>, s1: seq<Byte>, ie: nat, end: nat, target: nat, n: nat)
    requires ie + 6 <= target && target + n <= end <= |s0| && n <= s0[ie + 1]
    requires Outside(s0, s1, target, end) && s1[target..end - n] == s0[target + n..end] && Zero(s1[end - n..end])
    ensures s1[ie + 1] == s0[ie + 1]
    ensures var s2 := s1[ie + 1 := s1[ie + 1] as int - n];
      && s2[ie..end - n] == Shorter(s0[ie..end], target - ie, n)
      && Zero(s2[end - n..end]) && Outside(s0, s2, ie, end)
  {
    var s2 := s1[ie + 1 := s1[ie + 1] as int - n];
    var y, z := s2[ie..end - n], Shorter(s0[ie..end], target - ie, n);
    var x, at := s0[ie..end], target - ie;
    forall k | 0 <= k < |y| ensures y[k] == z[k] {
      if k < at {
        assert s1[ie + k] == s1[..target][ie + k] == s0[..target][ie + k] == s0[ie + k] == x[k];
        assert k >= 2 ==> z[k] == x[2..at][k - 2] == x[k];
      } else {
        assert s1[ie + k] == s1[target..end - n][k - at] == s0[ie + k + n] == x[k + n];
        assert z[k] == x[at + n..][k - at];
      }
    }
    assert y == z;
    OutsideGrows(s0, s1, target, end, ie, end);
    assert Outside(s1, s2, ie, end);
  }

  /** `rtw_del_p2p_attr` on the element of `ielenOri` bytes at `ie`. */
  method DelP2pAttr(buf: array<Byte>, ie: nat, ielenOri: nat, id: Byte) returns (ielen: nat)
    requires ie + ielenOri <= buf.Length && Sized(buf[ie..ie + ielenOri])
    requires Deletable(buf[ie..ie + ielenOri], id)
    modifies buf
    ensures ielen <= ielenOri && buf[ie..ie + ielen] == StripIe(old(buf[ie..ie + ielenOri]), id)
    ensures Zero(buf[ie + ielen..ie + ielenOri])
    ensures Outside(old(buf[..]), buf[..], ie, ie + ielenOri)
  {
    hide Deletable, Searchable, FindIn, StripIe, Outside, Sized, Zero, Shorter, Deleting;
    ielen := ielenOri;
    ghost var x, s0 := buf[ie..ie + ielenOri], buf[..];
    assert s0[ie..ie + ielenOri] == x;
    DeletingStart(s0, ie, ielenOri, id);
    while true
      invariant ielen <= ielenOri && Deleting(s0, buf[..], ie, ielen, ielenOri, id)
      decreases ielen
    {
      ghost var y, s1 := buf[ie..ie + ielen], buf[..];
      DeletingFacts(s0, s1, ie, ielen, ielenOri, id);
      assert s1[ie..ie + ielen] == y;
      var target, targetLen := GetP2pAttr(buf, ie, ielen, id);
      if target.None? || targetLen == 0 {
        StripIeDone(y, id);
        break;
      }
      StripIeStep(y, target.value - ie - 6, targetLen, id);
      assert y[1] == buf[ie + 1];
      CutAttr(buf, ie, ielen, target.value, targetLen);
      DeletingStep(s0, s1, buf[..], ie, ielen, ielenOri, id, target.value - ie - 6, targetLen);
      ielen := ielen - targetLen;
    }
  }

  /** The loop of `rtw_del_p2p_attr`: of the element of `len0` bytes at `ie` there are `len` bytes left. */
  ghost predicate Deleting(s0: seq<Byte>, s: seq<Byte>, ie: nat, len: nat, len0: nat, id: Byte) {
    && len <= len0 && ie + len0 <= |s0| == |s|
    && Sized(s0[ie..ie + len0]) && Sized(s[ie..ie + len]) && Deletable(s[ie..ie + len], id)
    && StripIe(s[ie..ie + len], id) == StripIe(s0[ie..ie + len0], id)
    && Zero(s[ie + len..ie + len0]) && Outside(s0, s, ie, ie + len0)
  }

  lemma DeletingStart(s: seq<Byte>, ie: nat, len: nat, id: Byte)
    requires ie + len <= |s| && Sized(s[ie..ie + len]) && Deletable(s[ie..ie + len], id)
    ensures Deleting(s, s, ie, len, len, id)
  {
    SameOutside(s, ie, ie + len);
  }

  lemma DeletingFacts(s0: seq<Byte>, s: seq<Byte>, ie: nat, len: nat, len0: nat, id: Byte)
    requires Deleting(s0, s, ie, len, len0, id)
    ensures len <= len0 && ie + len0 <= |s0| == |s|
    ensures Sized(s0[ie..ie + len0]) && Sized(s[ie..ie + len])
    ensures Deletable(s[ie..ie + len], id) && Searchable(s[ie..ie + len], id)
    ensures StripIe(s[ie..ie + len], id) == StripIe(s0[ie..ie + len0], id)
    ensures Zero(s[ie + len..ie + len0]) && Outside(s0, s, ie, ie + len0)
  {
    hide Deletable, Searchable, StripIe, Outside, Sized, Zero;
    DeletableIsSearchable(s[ie..ie + len], id);
  }

  lemma DeletingStep(s0: seq<Byte>, s: seq<Byte>, t: seq<Byte>, ie: nat, len: nat, len0: nat, id: Byte, at: nat, n: nat)
    requires Deleting(s0, s, ie, len, len0, id) && n > 0
    requires FindIn(s[ie..ie + len], id) == Some(Range(at, n))
    requires 6 + at + n <= len && s[ie..ie + len][1] >= n
    requires |t| == |s| && t[ie..ie + len - n] == Shorter(s[ie..ie + len], 6 + at, n)
    requires Zero(t[ie + len - n..ie + len]) && Outside(s, t, ie, ie + len)
    ensures Deleting(s0, t, ie, len - n, len0, id)
  {
    hide Deletable, Searchable, FindIn, StripIe, Outside, Sized, Zero, Shorter;
    StripIeStep(s[ie..ie + len], at, n, id);
    ZeroGrows(s, t, ie, ie + len - n, ie + len, ie + len0);
    OutsideWider(s0, s, t, ie, ie + len0, ie + len);
  }

  // ---------- the elements of a frame ----------

  lemma {:induction false} ShortNoHit(es: seq<Elem>)
    requires |Ser(es)| < 6
    ensures FirstHit(es, VENDOR, P2P_OUI) == |es|
  {
    if es != [] {
      SerHead(es);
      ShortNoHit(es[1..]);
    }
  }

  /** What the search for a P2P element sees after passing `k` elements of `b`. */
  lemma P2pSearchAt(es: seq<Elem>, k: nat, b: seq<Byte>)
    requires k <= |es| && b == Ser(es)
    ensures var c := |Ser(es[..k])|;
      && c <= |b|
      && (c + 5 >= |b| ==> FirstHit(es[k..], VENDOR, P2P_OUI) == |es| - k)
      && (c + 5 < |b| ==>
            && k < |es| && c + 2 + |es[k].body| <= |b| && b[c] == es[k].id && b[c + 1] == |es[k].body|
            && |Ser(es[..k + 1])| == c + 2 + |es[k].body|
            && (if b[c] == VENDOR && b[c + 2..c + 6] == P2P_OUI then FirstHit(es[k..], VENDOR, P2P_OUI) == 0
                else FirstHit(es[k..], VENDOR, P2P_OUI) == 1 + FirstHit(es[k + 1..], VENDOR, P2P_OUI)))
  {
    hide Ser, Hit;
    SerScan(es, k, b);
    var c := |Ser(es[..k])|;
    if c + 5 >= |b| {
      ShortNoHit(es[k..]);
    } else {
      HitTest(es[k..]);
      assert es[k..][1..] == es[k + 1..];
      ScanSlice(b, c, 2, 6);
    }
  }

  lemma HitTest(es: seq<Elem>)
    requires es != [] && |Ser(es)| >= 6
    ensures Hit(es, VENDOR, P2P_OUI) <==> es[0].id == VENDOR && Ser(es)[2..6] == P2P_OUI
  {
    hide Ser;
    assert P2P_OUI <= Ser(es)[2..] <==> Ser(es)[2..][..4] == P2P_OUI;
    assert Ser(es)[2..][..4] == Ser(es)[2..6];
  }

  /** Where a search of the bytes `b` from `cnt` on stops, if it finds a P2P element. */
  function FindP2p(b: seq<Byte>, cnt: nat): (r: Option<nat>)
    ensures r.Some? ==> r.value + 6 <= |b|
    decreases |b| - cnt
  {
    if cnt + 1 + 4 >= |b| || cnt + 1 + 4 >= MAX_IE_SZ then None
    else if b[cnt] == VENDOR && b[cnt + 2..cnt + 6] == P2P_OUI then Some(cnt)
    else FindP2p(b, cnt + b[cnt + 1] as int + 2)
  }

  /** `rtw_get_p2p_ie` on any `inLen` bytes at `start`: it never looks beyond them. */
  method GetP2pIe(buf: array<Byte>, start: nat, inLen: int) returns (target: Option<nat>, ielen: nat)
    requires start + inLen <= buf.Length
    ensures inLen < 0 ==> target == None && ielen == 0
    ensures inLen >= 0 ==>
              var b := buf[start..start + inLen];
              match FindP2p(b, 0)
              case None => target == None && ielen == 0
              case Some(c) => target == Some(start + c) && ielen == b[c + 1] as int + 2
  {
    target, ielen := None, 0;
    if inLen < 0 {
      return;
    }
    if inLen <= 0 {
      return;
    }
    ghost var b := buf[start..start + inLen];
    var cnt: nat := 0;
    while cnt + 1 + 4 < inLen
      invariant FindP2p(b, 0) == FindP2p(b, cnt)
      decreases inLen - cnt
    {
      if cnt + 1 + 4 >= MAX_IE_SZ {
        return;
      }
      var hit := TestOui(buf, start, inLen, cnt);
      if hit {
        return Some(start + cnt), buf[start + cnt + 1] as int + 2;
      }
      cnt := cnt + buf[start + cnt + 1] as int + 2;
    }
  }

  /** On a list of elements the search finds the first hit, if that starts within the first 768 bytes. */
  lemma FindP2pOnList(es: seq<Elem>, b: seq<Byte>)
    requires b == Ser(es)
    ensures var k := FirstHit(es, VENDOR, P2P_OUI);
      FindP2p(b, 0) == if k < |es| && |Ser(es[..k])| + 1 + 4 < MAX_IE_SZ then Some(|Ser(es[..k])|) else None
  {
    SerNil();
    assert es[..0] == [] && es[0..] == es;
    FindP2pFrom(es, 0, b);
  }

  lemma {:induction false} FindP2pFrom(es: seq<Elem>, j: nat, b: seq<Byte>)
    requires j <= |es| && b == Ser(es)
    ensures var k := j + FirstHit(es[j..], VENDOR, P2P_OUI);
      FindP2p(b, |Ser(es[..j])|) == if k < |es| && |Ser(es[..k])| + 1 + 4 < MAX_IE_SZ then Some(|Ser(es[..k])|)
          else None
    decreases |es| - j
  {
    hide Ser, Hit, FirstHit;
    P2pSearchAt(es, j, b);
    var c := |Ser(es[..j])|;
    if c + 5 < |b| {
      if c + 5 >= MAX_IE_SZ {
        FirstHitBound(es[j..]);
        PrefixGrows(es, j, j + FirstHit(es[j..], VENDOR, P2P_OUI));
      } else if !(b[c] == VENDOR && b[c + 2..c + 6] == P2P_OUI) {
        FindP2pFrom(es, j + 1, b);
      }
    }
  }

  lemma FirstHitBound(es: seq<Elem>)
    ensures FirstHit(es, VENDOR, P2P_OUI) <= |es|
  {
  }

  lemma PrefixGrows(es: seq<Elem>, j: nat, k: nat)
    requires j <= k <= |es|
    ensures |Ser(es[..j])| <= |Ser(es[..k])|
  {
    assert es[..k] == es[..j] + es[j..k];
    SerConcat(es[..j], es[j..k]);
  }

  /** In a description every P2P element starts where the search may look. */
  lemma HitFits(es: seq<Elem>)
    ensures var k := FirstHit(es, VENDOR, P2P_OUI);
      k < |es| ==> |Ser(es[..k])| + 6 <= |Ser(es)|
  {
    hide Ser, Hit;
    var k := FirstHit(es, VENDOR, P2P_OUI);
    FirstHitHits(es);
    if k < |es| {
      SerScan(es, k, Ser(es));
      HitLong(es[k..]);
    }
  }

  lemma HitLong(es: seq<Elem>)
    requires es != [] && Hit(es, VENDOR, P2P_OUI)
    ensures |Ser(es)| >= 6
  {
  }

  lemma {:induction false} FirstHitHits(es: seq<Elem>)
    ensures var k := FirstHit(es, VENDOR, P2P_OUI); k < |es| ==> Hit(es[k..], VENDOR, P2P_OUI)
  {
    hide Hit;
    if es != [] {
      FirstHitHits(es[1..]);
      assert es[0..] == es;
      var k := FirstHit(es, VENDOR, P2P_OUI);
      if k > 0 { assert es[k..] == es[1..][k - 1..]; }
    }
  }

  /** In a description, which is no longer than the bound, the search finds the first hit and its length. */
  lemma SearchOnList(es: seq<Elem>, b: seq<Byte>)
    requires b == Ser(es) && |b| <= MAX_IE_SZ
    ensures var k := FirstHit(es, VENDOR, P2P_OUI);
      if k < |es| then
        var c := |Ser(es[..k])|;
        FindP2p(b, 0) == Some(c) && c + 1 < |b| && b[c + 1] == |es[k].body|
      else FindP2p(b, 0) == None
  {
    hide Ser, FindP2p, FirstHit, Hit;
    FindP2pOnList(es, b);
    HitFits(es);
    FirstHitBound(es);
    var k := FirstHit(es, VENDOR, P2P_OUI);
    if k < |es| { SerScan(es, k, b); }
  }

  method TestOui(buf: array<Byte>, start: nat, inLen: nat, cnt: nat) returns (hit: bool)
    requires start + inLen <= buf.Length && cnt + 6 <= inLen
    ensures var b := buf[start..start + inLen]; hit <==> b[cnt] == VENDOR && b[cnt + 2..cnt + 6] == P2P_OUI
  {
    SubSlice(buf[..], start, start + inLen, cnt + 2, cnt + 6);
    assert buf[..][start..start + inLen] == buf[start..start + inLen];
    assert buf[..][start + cnt + 2..start + cnt + 6] == buf[start + cnt + 2..start + cnt + 6];
    hit := buf[start + cnt] == VENDOR && buf[start + cnt + 2..start + cnt + 6] == P2P_OUI;
  }

  /** `e` without the P2P attributes of ID `id`. */
  function StripElem(e: Elem, id: Byte): (r: Elem) {
    if Matches(e, VENDOR, P2P_OUI) then Elem(VENDOR, P2P_OUI + Deleted(e.body[4..], id)) else e
  }

  function StripAll(es: seq<Elem>, id: Byte): (r: seq<Elem>)
    ensures |r| == |es|
  {
    if es == [] then [] else [StripElem(es[0], id)] + StripAll(es[1..], id)
  }

  predicate AllDeletable(es: seq<Elem>, id: Byte) {
    forall i | 0 <= i < |es| :: Deletable(One(es[i]), id)
  }

  /** Editing the bytes of an element is editing the element. */
  lemma StripIeIsStripElem(e: Elem, id: Byte)
    ensures Sized(One(e)) && StripIe(One(e), id) == One(StripElem(e, id))
  {
    hide Deleted;
    var x := One(e);
    assert x[2..] == e.body;
    if |e.body| >= 4 {
      assert x[2..6] == e.body[..4] && x[6..] == e.body[4..];
    }
    if Matches(e, VENDOR, P2P_OUI) {
      assert e.body[..4] == P2P_OUI;
      var t := Deleted(e.body[4..], id);
      MatchedIsP2p(e, id);
      if |e.body| == 4 {
        EndOfList(id);
        assert e.body == P2P_OUI + e.body[4..] && t == [];
      } else {
        assert P2pIe(VENDOR, t) == [VENDOR, |P2P_OUI + t|] + (P2P_OUI + t);
      }
    } else {
      MatchedIsP2p(e, id);
    }
  }

  lemma MatchedIsP2p(e: Elem, id: Byte)
    ensures IsP2p(One(e)) <==> |e.body| > 4 && Matches(e, VENDOR, P2P_OUI)
  {
    var x := One(e);
    if |e.body| > 4 {
      assert x[2..6] == e.body[..4];
      assert P2P_OUI <= e.body <==> e.body[..4] == P2P_OUI;
    }
  }

  /** The elements before the first hit carry no P2P attributes. */
  lemma {:induction false} StripAllFirst(es: seq<Elem>, id: Byte)
    ensures var k := FirstHit(es, VENDOR, P2P_OUI);
      StripAll(es, id) == if k < |es| then es[..k] + [StripElem(es[k], id)] + StripAll(es[k + 1..], id) else es
  {
    hide Hit, Matches, StripElem;
    if es != [] {
      var t := es[1..];
      assert es == [es[0]] + t;
      if !Hit(es, VENDOR, P2P_OUI) {
        NoHitStays(es, id);
        StripAllFirst(t, id);
        var j := FirstHit(t, VENDOR, P2P_OUI);
        if j < |t| {
          PrependSplice(es[0], t, j, StripElem(t[j], id), StripAll(t[j + 1..], id));
        }
      } else {
        assert es[..0] + [StripElem(es[0], id)] + StripAll(t, id) == [StripElem(es[0], id)] + StripAll(t, id);
      }
    }
  }

  lemma NoHitStays(es: seq<Elem>, id: Byte)
    requires es != [] && !Hit(es, VENDOR, P2P_OUI)
    ensures StripElem(es[0], id) == es[0]
  {
    HitOrStray(es, VENDOR, P2P_OUI);
  }

  lemma PrependSplice<T>(e: T, t: seq<T>, j: nat, m: T, r: seq<T>)
    requires j < |t|
    ensures [e] + (t[..j] + [m] + r) == ([e] + t)[..j + 1] + [m] + r
    ensures t[j + 1..] == ([e] + t)[j + 2..] && t[j] == ([e] + t)[j + 1]
  {
    assert ([e] + t)[..j + 1] == [e] + t[..j];
  }

  /** The state of the loop of `rtw_bss_ex_del_p2p_attr`: `done` is edited, `rest` is not, and the room freed so far
      is zeroed. */
  ghost predicate Editing(s0: seq<Byte>, s: seq<Byte>, lo: nat, start: nat, end: nat, end0: nat, done: seq<Elem>,
      rest: seq<Elem>)
  {
    && lo <= start <= end <= end0 <= |s0| == |s|
    && s[lo..start] == Ser(done) && s[start..end] == Ser(rest)
    && Zero(s[end..end0]) && Outside(s0, s, lo, end0)
  }

  /** The element at `ie` has become `e`, `d` bytes shorter. */
  ghost predicate Edited(s: seq<Byte>, t: seq<Byte>, ie: nat, end: nat, d: nat, e: Elem) {
    && ie + 2 + |e.body| + d <= end <= |s| == |t|
    && t[ie..ie + 2 + |e.body|] == One(e)
    && t[ie + 2 + |e.body|..end - d] == s[ie + 2 + |e.body| + d..end]
    && Zero(t[end - d..end]) && Outside(s, t, ie, end)
  }

  /** One turn of the loop of `rtw_bss_ex_del_p2p_attr`: edits the element at `ie` and closes the gap before `end`. */
  method EditElem(buf: array<Byte>, ie: nat, ieLenOri: nat, end: nat, id: Byte, ghost e: Elem) returns (ieLen: nat)
    requires ie + ieLenOri <= end <= buf.Length
    requires buf[ie..ie + ieLenOri] == One(e) && Deletable(One(e), id)
    modifies buf
    ensures ieLen == 2 + |StripElem(e, id).body| <= ieLenOri
    ensures Edited(old(buf[..]), buf[..], ie, end, ieLenOri - ieLen, StripElem(e, id))
  {
    hide Deletable, StripIe, Outside, Sized, Zero, One, StripElem, Edited;
    StripIeIsStripElem(e, id);
    ghost var s0 := buf[..];
    ieLen := DelP2pAttr(buf, ie, ieLenOri, id);
    ghost var s1 := buf[..];
    var d := ieLenOri - ieLen;
    if ieLen != ieLenOri {
      CloseGap(buf, ie + ieLen, d, end);
    }
    EditedGap(s0, s1, buf[..], ie, ieLenOri, end, d, StripElem(e, id));
  }

  /** Stripping the element at `ie` and closing the gap edits the list. */
  lemma EditedGap(s: seq<Byte>, s1: seq<Byte>, t: seq<Byte>, ie: nat, len: nat, end: nat, d: nat, e: Elem)
    requires ie + len <= end <= |s| == |s1| == |t| && 2 + |e.body| + d == len
    requires Outside(s, s1, ie, ie + len) && s1[ie..ie + len - d] == One(e)
    requires if d == 0 then t == s1 else
               && t[ie + len - d..end - d] == s1[ie + len..end] && Zero(t[end - d..end])
               && Outside(s1, t, ie + len - d, end)
    ensures Edited(s, t, ie, end, d, e)
  {
    hide One, Outside, Zero;
    KeepSlice(s, s1, ie, ie + len, ie + len, end);
    OutsideGrows(s, s1, ie, ie + len, ie, end);
    if d == 0 {
      ZeroNil(t[end..end]);
    } else {
      KeepSlice(s1, t, ie + len - d, end, ie, ie + len - d);
      OutsideTrans(s, s1, t, ie, end, ie + len - d, end);
    }
  }

  lemma EditStep(s0: seq<Byte>, s: seq<Byte>, t: seq<Byte>, lo: nat, start: nat, end: nat, end0: nat,
                 done: seq<Elem>, rest: seq<Elem>, k: nat, d: nat, e: Elem)
    requires Editing(s0, s, lo, start, end, end0, done, rest) && k < |rest|
    requires d + |e.body| == |rest[k].body| && Edited(s, t, start + |Ser(rest[..k])|, end, d, e)
    ensures Editing(s0, t, lo, start + |Ser(rest[..k])| + 2 + |e.body|, end - d, end0, done + rest[..k] + [e],
        rest[k + 1..])
  {
    hide Ser, One, Zero, Outside;
    var ie := start + |Ser(rest[..k])|;
    ElemBytes(s, start, end, rest, k);
    Regrow(s, t, lo, start, ie, end, done, rest[..k], e);
    ZeroGrows(s, t, ie, end - d, end, end0);
    OutsideTrans(s0, s, t, lo, end0, ie, end);
  }

  /** `WLAN_BSSID_EX`: the elements start after the fixed fields, twelve bytes or none. */
  class BssEx {
    const ies: array<Byte>
    const fixedLen: nat
    var ieLength: nat

    constructor (probeReq: bool)
      ensures fresh(ies) && ies.Length == MAX_IE_SZ && fixedLen == ieLength == if probeReq then 0 else 12
    {
      ies := new Byte[MAX_IE_SZ];
      fixedLen := if probeReq then 0 else 12;
      ieLength := if probeReq then 0 else 12;
    }

    ghost predicate Holds(es: seq<Elem>)
      reads this, ies
    {
      && ies.Length == MAX_IE_SZ && fixedLen <= ieLength <= MAX_IE_SZ
      && ies[fixedLen..ieLength] == Ser(es)
    }

    /** `rtw_bss_ex_del_p2p_attr`: every P2P element loses its attributes with the ID, and everything else stays. */
    method DelAttr(id: Byte, ghost es: seq<Elem>)
      requires Holds(es) && AllDeletable(es, id)
      modifies `ieLength, ies
      ensures Holds(StripAll(es, id))
      ensures ieLength <= old(ieLength) && Zero(ies[ieLength..old(ieLength)])
      ensures Outside(old(ies[..]), ies[..], fixedLen, old(ieLength))
    {
      hide Ser, One, StripElem, Deletable, FindP2p, FirstHit, Hit, Outside, Zero, Edited, Editing, Stripping;
      ghost var s0, end0 := ies[..], ieLength;
      var start: nat, len: nat := fixedLen, ieLength - fixedLen;
      ghost var done: seq<Elem>, rest := [], es;
      EditStart(s0, fixedLen, end0, es, id);
      while true
        invariant Editing(s0, ies[..], fixedLen, start, ieLength, end0, done, rest)
        invariant start + len == ieLength <= end0
        invariant Stripping(es, done, rest, id)
        decreases |rest|
      {
        EditBounds(s0, ies[..], fixedLen, start, ieLength, end0, done, rest);
        var ie, ieLenOri := GetP2pIe(ies, start, len);
        SearchOnList(rest, ies[start..start + len]);
        if ie.None? {
          StrippingEnd(es, done, rest, id);
          EditEnd(s0, ies[..], fixedLen, start, ieLength, end0, done, rest);
          break;
        }
        ghost var k := FirstHit(rest, VENDOR, P2P_OUI);
        ghost var s1, e := ies[..], rest[k];
        ElemBytes(s1, start, ieLength, rest, k);
        StrippingStep(es, done, rest, id);
        var ieLen := EditElem(ies, ie.value, ieLenOri, ieLength, id, e);
        EditStep(s0, s1, ies[..], fixedLen, start, ieLength, end0, done, rest, k, ieLenOri - ieLen, StripElem(e, id));
        done, rest := done + rest[..k] + [StripElem(e, id)], rest[k + 1..];
        len := start + len - (ie.value + ieLenOri);
        start := ie.value + ieLen;
        ieLength := ieLength - (ieLenOri - ieLen);
      }
    }
  }

  /** Of the elements `es` those in `done` are stripped and those in `rest` are not. */
  ghost predicate Stripping(es: seq<Elem>, done: seq<Elem>, rest: seq<Elem>, id: Byte) {
    AllDeletable(rest, id) && StripAll(es, id) == done + StripAll(rest, id)
  }

  lemma StrippingStep(es: seq<Elem>, done: seq<Elem>, rest: seq<Elem>, id: Byte)
    requires Stripping(es, done, rest, id)
    ensures var k := FirstHit(rest, VENDOR, P2P_OUI);
      k < |rest| ==>
        && Deletable(One(rest[k]), id)
        && Stripping(es, done + rest[..k] + [StripElem(rest[k], id)], rest[k + 1..], id)
  {
    hide One, StripElem, StripAll, Deletable, FirstHit, Hit;
    StripAllFirst(rest, id);
    var k := FirstHit(rest, VENDOR, P2P_OUI);
    if k < |rest| {
      Regroup(done, rest[..k], [StripElem(rest[k], id)], StripAll(rest[k + 1..], id));
    }
  }

  lemma StrippingEnd(es: seq<Elem>, done: seq<Elem>, rest: seq<Elem>, id: Byte)
    requires Stripping(es, done, rest, id) && FirstHit(rest, VENDOR, P2P_OUI) >= |rest|
    ensures StripAll(es, id) == done + rest
  {
    StripAllFirst(rest, id);
  }

  lemma EditBounds(s0: seq<Byte>, s: seq<Byte>, lo: nat, start: nat, end: nat, end0: nat, done: seq<Elem>,
      rest: seq<Elem>)
    requires Editing(s0, s, lo, start, end, end0, done, rest)
    ensures lo <= start <= end <= end0 <= |s| && s[start..end] == Ser(rest)
  {
  }

  lemma EditEnd(s0: seq<Byte>, s: seq<Byte>, lo: nat, start: nat, end: nat, end0: nat, done: seq<Elem>, rest: seq<Elem>)
    requires Editing(s0, s, lo, start, end, end0, done, rest)
    ensures lo <= end <= end0 <= |s| && s[lo..end] == Ser(done + rest) && Zero(s[end..end0]) && Outside(s0, s, lo, end0)
  {
    hide Ser, Outside, Zero;
    SerConcat(done, rest);
    JoinSlices(s, lo, start, end);
  }

  lemma Regroup<T>(a: seq<T>, b: seq<T>, c: seq<T>, d: seq<T>)
    ensures a + (b + c + d) == a + b + c + d
  {
  }

  lemma EditStart(s: seq<Byte>, lo: nat, end: nat, es: seq<Elem>, id: Byte)
    requires lo <= end <= |s| && s[lo..end] == Ser(es)
    ensures Editing(s, s, lo, lo, end, end, [], es)
    ensures AllDeletable(es, id) ==> Stripping(es, [], es, id)
  {
    assert [] + StripAll(es, id) == StripAll(es, id);
  }

  /** The bytes of element `k` of a list at `start` of `s`, and of what follows it. */
  lemma ElemBytes(s: seq<Byte>, start: nat, end: nat, es: seq<Elem>, k: nat)
    requires start <= end <= |s| && s[start..end] == Ser(es) && k < |es|
    ensures var ie := start + |Ser(es[..k])|;
      var next := ie + 2 + |es[k].body|;
      && next <= end
      && s[start..ie] == Ser(es[..k]) && s[ie..next] == One(es[k]) && s[next..end] == Ser(es[k + 1..])
  {
    hide Ser, One;
    var b, c, n := Ser(es), |Ser(es[..k])|, 2 + |es[k].body|;
    SerCut(es, k, b);
    SerAt(es, k);
    SubSlice(s, start, end, 0, c);
    SubSlice(s, start, end, c, c + n);
    SubSlice(s, start, end, c + n, |b|);
    assert b == b[..c] + (One(es[k]) + Ser(es[k + 1..]));
    MidSlice(b[..c], One(es[k]), Ser(es[k + 1..]));
    assert b[0..c] == b[..c] && b[c + n..|b|] == b[c + n..];
  }

  lemma MidSlice(x: seq<Byte>, y: seq<Byte>, z: seq<Byte>)
    ensures (x + (y + z))[|x|..|x| + |y|] == y
  {
  }

  /** Elements already done, elements passed over and an edited element make up a longer done part. */
  lemma Regrow(s: seq<Byte>, t: seq<Byte>, lo: nat, start: nat, ie: nat, end: nat, done: seq<Elem>, part: seq<Elem>,
      e: Elem)
    requires Outside(s, t, ie, end) && lo <= start <= ie && ie + 2 + |e.body| <= end
    requires s[lo..start] == Ser(done) && s[start..ie] == Ser(part) && t[ie..ie + 2 + |e.body|] == One(e)
    ensures t[lo..ie + 2 + |e.body|] == Ser(done + part + [e])
  {
    hide Ser, One;
    KeepSlice(s, t, ie, end, lo, start);
    KeepSlice(s, t, ie, end, start, ie);
    SerConcat(done, part);
    SerConcat(done + part, [e]);
    SerOne(e);
    JoinSlices(t, lo, start, ie);
    JoinSlices(t, lo, ie, ie + 2 + |e.body|);
  }

  /** A P2P element that holds a list of attributes keeps exactly the attributes with another ID, in order. */
  lemma StripElemIsFilter(e: Elem, attrs: seq<Attr>, id: Byte)
    requires e.id == VENDOR && e.body == P2P_OUI + SerAttrs(attrs)
    ensures Deletable(One(e), id)
    ensures StripElem(e, id).id == VENDOR && StripElem(e, id).body == P2P_OUI + SerAttrs(OtherAttrs(attrs, id))
  {
    AttrsFit(attrs);
    ListsAreFiltered(attrs, id);
    assert e.body[4..] == SerAttrs(attrs) && e.body[..4] == P2P_OUI;
    assert One(e)[6..] == e.body[4..];
  }

  lemma {:induction false} AttrsFit(attrs: seq<Attr>)
    requires |SerAttrs(attrs)| < 65536
    ensures Representable(attrs)
  {
    if attrs != [] { AttrsFit(attrs[1..]); }
  }

  lemma {:induction false} StripAllAt(es: seq<Elem>, id: Byte, i: nat)
    requires i < |es|
    ensures StripAll(es, id)[i] == StripElem(es[i], id)
  {
    hide StripElem;
    if i > 0 { StripAllAt(es[1..], id, i - 1); }
  }

  /** Element by element: what is not a vendor element with the P2P OUI and type stays as it is; what is one, and holds
      a list of attributes, keeps exactly the attributes with another ID. */
  lemma StripAllMeans(es: seq<Elem>, id: Byte, i: nat, attrs: seq<Attr>)
    requires i < |es|
    ensures var e, r := es[i], StripAll(es, id)[i];
      && r.id == e.id
      && (e.id != 221 || |e.body| < 4 || e.body[..4] != [0x50, 0x6F, 0x9A, 9] ==> r == e)
      && (e.id == 221 && e.body == [0x50, 0x6F, 0x9A, 9] + SerAttrs(attrs) ==>
            r.body == [0x50, 0x6F, 0x9A, 9] + SerAttrs(OtherAttrs(attrs, id)))
  {
    hide SerAttrs, OtherAttrs, Deleted;
    var e := es[i];
    StripAllAt(es, id, i);
    assert |e.body| >= 4 ==> (P2P_OUI <= e.body <==> e.body[..4] == P2P_OUI);
    if e.id == 221 && e.body == [0x50, 0x6F, 0x9A, 9] + SerAttrs(attrs) {
      StripElemIsFilter(e, attrs, id);
    }
  }

  /** Whatever its attributes claim, a P2P element keeps its complete attributes with another ID and its incomplete end
      exactly when nothing is cut from the first wrapping length on. */
  lemma StripElemExact(e: Elem, id: Byte)
    requires Matches(e, VENDOR, P2P_OUI) && Deletable(One(e), id)
    ensures StripElem(e, id).body == P2P_OUI + Filtered(e.body[4..], id) <==> Harmless(e.body[4..], id)
  {
    var b := e.body[4..];
    assert One(e)[2..] == e.body && One(e)[6..] == b && e.body[..4] == P2P_OUI;
    if |b| == 0 { EndOfList(id); }
    assert |One(e)| > 6 ==> One(e)[2..6] == P2P_OUI;
    DeletionIsFilter(b, id);
    SameTail(P2P_OUI, Deleted(b, id), Filtered(b, id));
  }
}
