/** Building, searching and removing elements in a buffer: kernel/core/rtw_ieee80211.c. */
module IeEdit {
  import opened Bytes
  import opened Options
  import opened Elements
  import opened Seqs

  /** `rtw_set_ie` at `pos`; the new frame length and the position after the element. */
  method SetIe(buf: array<Byte>, pos: nat, index: int, source: seq<Byte>, frlen: nat) returns (next: nat, frlen': nat)
    requires pos + 2 + |source| <= buf.Length
    modifies buf
    ensures next == pos + 2 + |source| && frlen' == frlen + 2 + |source|
    ensures buf[..pos] == old(buf[..pos]) && buf[next..] == old(buf[next..])
    ensures buf[pos..next] == [index % 256, |source| % 256] + source
    ensures 0 <= index < 256 && |source| <= 255 ==> buf[pos..next] == One(Elem(index, source))
  {
    buf[pos] := index % 256;
    buf[pos + 1] := |source| % 256;
    if |source| > 0 {
      Memcpy(buf, pos + 2, source);
    }
    frlen' := frlen + (|source| + 2);
    next := pos + |source| + 2;
  }

  /** Adding an element at the end of a list of elements gives the longer list. */
  lemma SetIeExtends(es: seq<Elem>, e: Elem)
    ensures Ser(es + [e]) == Ser(es) + One(e)
  {
    SerConcat(es, [e]);
    assert Ser([e]) == One(e);
  }

  /** The index of the first element with the given ID. */
  function First(es: seq<Elem>, id: int): (k: nat)
    ensures k <= |es|
    ensures k < |es| ==> es[k].id == id
    ensures forall i | 0 <= i < k :: es[i].id != id
  {
    if es == [] || es[0].id == id then 0 else 1 + First(es[1..], id)
  }

  /** The reads of `rtw_get_ie` from `i` on stay inside the `|b|` bytes it may search. */
  predicate Inside(b: seq<Byte>, index: int, i: nat)
    decreases |b| - i
  {
    i + 1 < |b| && (b[i] == index || i + 2 + b[i + 1] as int >= |b| || Inside(b, index, i + 2 + b[i + 1] as int))
  }

  /** Where `rtw_get_ie` stops when it searches `b` from `i` on. */
  function FindIe(b: seq<Byte>, index: int, i: nat): (r: Option<nat>)
    ensures r.Some? ==> r.value + 1 < |b|
    decreases |b| - i
  {
    if i + 1 >= |b| then None else if b[i] == index then Some(i) else FindIe(b, index, i + 2 + b[i + 1] as int)
  }

  /** `rtw_get_ie`; `len` stands for the integer the caller passes by reference. */
  method GetIe(buf: array<Byte>, index: int, len: int, limit: int) returns (at: Option<nat>, len': int)
    requires limit <= buf.Length && (limit >= 1 ==> Inside(buf[..limit], index, 0))
    ensures limit < 1 ==> at == None && len' == len
    ensures limit >= 1 ==>
              var b := buf[..limit];
              at == FindIe(b, index, 0) && len' == if at.Some? then b[at.value + 1] else 0
  {
    at, len' := None, len;
    if limit < 1 {
      return;
    }
    var i: nat := 0;
    ghost var b := buf[..limit];
    len' := 0;
    while true
      invariant len' == 0 && at == None
      invariant Inside(b, index, i) && FindIe(b, index, i) == FindIe(b, index, 0)
      decreases limit - i
    {
      if buf[i] == index {
        len' := buf[i + 1];
        at := Some(i);
        return;
      }
      i := i + 2 + buf[i + 1] as int;
      if i >= limit {
        break;
      }
    }
  }

  /** What is left of a buffer after its complete elements. */
  predicate CutShort(t: seq<Byte>) {
    |t| < 2 || 2 + t[1] as int > |t|
  }

  /** Every buffer is a list of elements and a part cut short. The search finds the first element of the list with
      the ID, and otherwise the part cut short if that has it; it reads behind the limit exactly when it gets to a
      single byte. */
  lemma FindIeOnList(es: seq<Elem>, t: seq<Byte>, b: seq<Byte>, index: int)
    requires b == Ser(es) + t && CutShort(t) && |b| >= 1
    ensures var k := First(es, index);
      && (Inside(b, index, 0) <==> k < |es| || |t| != 1)
      && (k < |es| ==> FindIe(b, index, 0) == Some(|Ser(es[..k])|) && b[|Ser(es[..k])| + 1] == |es[k].body|)
      && (k == |es| ==> FindIe(b, index, 0) == if |t| >= 2 && t[0] == index then Some(|Ser(es)|) else None)
  {
    SerNil();
    assert es[..0] == [] && es[0..] == es;
    FindIeFrom(es, t, b, index, 0);
  }

  lemma {:induction false} FindIeFrom(es: seq<Elem>, t: seq<Byte>, b: seq<Byte>, index: int, j: nat)
    requires b == Ser(es) + t && CutShort(t) && j <= |es| && |Ser(es[..j])| < |b|
    ensures var k, i := j + First(es[j..], index), |Ser(es[..j])|;
      && (Inside(b, index, i) <==> k < |es| || |t| != 1)
      && (k < |es| ==> FindIe(b, index, i) == Some(|Ser(es[..k])|) && b[|Ser(es[..k])| + 1] == |es[k].body|)
      && (k == |es| ==> FindIe(b, index, i) == if |t| >= 2 && t[0] == index then Some(|Ser(es)|) else None)
    decreases |es| - j
  {
    hide Ser, One, CutShort;
    HeaderAt(es, t, b, j);
    if j < |es| {
      assert es[j..][1..] == es[j + 1..];
      if es[j].id != index && |Ser(es[..j + 1])| < |b| {
        FindIeFrom(es, t, b, index, j + 1);
      }
    } else {
      assert es[..j] == es;
      FindIeRest(Ser(es), t, b, index);
    }
  }

  lemma HeaderAt(es: seq<Elem>, t: seq<Byte>, b: seq<Byte>, j: nat)
    requires b == Ser(es) + t && j <= |es|
    ensures var i := |Ser(es[..j])|;
      j < |es| ==>
        && i + 1 < |b| && b[i] == es[j].id && b[i + 1] == |es[j].body| && |Ser(es[..j + 1])| == i + 2 + |es[j].body|
        && (i + 2 + |es[j].body| >= |b| ==> i + 2 + |es[j].body| == |b| && t == [] && j + 1 == |es|)
  {
    hide Ser, One;
    SerScan(es, j, Ser(es));
    if j < |es| { SerScan(es, j + 1, Ser(es)); }
  }

  lemma FindIeRest(s: seq<Byte>, t: seq<Byte>, b: seq<Byte>, index: int)
    requires b == s + t && CutShort(t) && t != []
    ensures Inside(b, index, |s|) <==> |t| != 1
    ensures FindIe(b, index, |s|) == if |t| >= 2 && t[0] == index then Some(|s|) else None
  {
    assert b[|s|] == t[0];
    if |t| >= 2 { assert b[|s| + 1] == t[1]; }
  }

  // ---------- search by vendor, and removal ----------

  /** `rtw_get_ie_ex` stops at the front of `b`. */
  predicate HitsFront(b: seq<Byte>, eid: Byte, oui: seq<Byte>) {
    |b| >= 2 && b[0] == eid && oui <= b[2..]
  }

  /** The header at the front of `b` is there, and so are the bytes compared with the OUI. */
  predicate FrontInside(b: seq<Byte>, eid: Byte, n: nat) {
    |b| >= 2 && (b[0] == eid ==> |b| >= 2 + n)
  }

  /** The reads of `rtw_get_ie_ex` stay inside the bytes `b` it may search. */
  predicate InsideEx(b: seq<Byte>, eid: Byte, oui: seq<Byte>) {
    b == [] || (&& FrontInside(b, eid, |oui|)
                && (HitsFront(b, eid, oui) || 2 + b[1] as int >= |b| || InsideEx(b[2 + b[1] as int..], eid, oui)))
  }

  function Plus(r: Option<nat>, n: nat): (r': Option<nat>) {
    match r
    case None => None
    case Some(x) => Some(n + x)
  }

  /** Where `rtw_get_ie_ex` stops when it searches `b`. */
  function FindEx(b: seq<Byte>, eid: Byte, oui: seq<Byte>): (r: Option<nat>)
    ensures r.Some? ==> r.value + 2 <= |b|
  {
    if HitsFront(b, eid, oui) then Some(0)
    else if |b| < 2 || 2 + b[1] as int >= |b| then None
    else Plus(FindEx(b[2 + b[1] as int..], eid, oui), 2 + b[1] as int)
  }

  /** The test of `rtw_get_ie_ex` at `cnt` of the `inLen` bytes from `start`. */
  method Compare(buf: array<Byte>, start: nat, inLen: nat, cnt: nat, eid: Byte, oui: seq<Byte>) returns (hit: bool)
    requires start + inLen <= buf.Length && cnt <= inLen && FrontInside(buf[start..start + inLen][cnt..], eid, |oui|)
    ensures hit <==> HitsFront(buf[start..start + inLen][cnt..], eid, oui)
  {
    ghost var t := buf[start..start + inLen][cnt..];
    hit := eid == buf[start + cnt];
    if hit {
      assert t[2..][..|oui|] == buf[start + cnt + 2..start + cnt + 2 + |oui|];
      hit := buf[start + cnt + 2..start + cnt + 2 + |oui|] == oui;
    }
  }

  /** `rtw_get_ie_ex` on the `inLen` bytes at `start`; an empty `oui` stands for NULL. */
  method GetIeEx(buf: array<Byte>, start: nat, inLen: nat, eid: Byte, oui: seq<Byte>)
    returns (target: Option<nat>, ielen: nat)
    requires start + inLen <= buf.Length && InsideEx(buf[start..start + inLen], eid, oui)
    ensures var b := buf[start..start + inLen];
            match FindEx(b, eid, oui)
            case None => target == None && ielen == 0
            case Some(c) => target == Some(start + c) && ielen == b[c + 1] as int + 2
  {
    hide InsideEx, FindEx, HitsFront;
    target, ielen := None, 0;
    ghost var b := buf[start..start + inLen];
    SearchStart(b, eid, oui);
    if inLen <= 0 {
      return;
    }
    var cnt: nat := 0;
    while cnt < inLen
      invariant Searching(b, eid, oui, cnt)
      decreases inLen - cnt
    {
      SearchStep(b, eid, oui, cnt);
      var hit := Compare(buf, start, inLen, cnt, eid, oui);
      if hit {
        return Some(start + cnt), buf[start + cnt + 1] as int + 2;
      }
      cnt := cnt + (buf[start + cnt + 1] as int + 2);
    }
  }

  /** Nothing before `cnt` stops the search, and when `cnt` is behind `b` nothing does. */
  predicate Searching(b: seq<Byte>, eid: Byte, oui: seq<Byte>, cnt: nat) {
    if cnt < |b| then InsideEx(b[cnt..], eid, oui) && FindEx(b, eid, oui) == Plus(FindEx(b[cnt..], eid, oui), cnt)
    else FindEx(b, eid, oui) == None
  }

  lemma SearchStart(b: seq<Byte>, eid: Byte, oui: seq<Byte>)
    requires InsideEx(b, eid, oui)
    ensures Searching(b, eid, oui, 0)
  {
    assert b[0..] == b;
  }

  lemma SearchStep(b: seq<Byte>, eid: Byte, oui: seq<Byte>, cnt: nat)
    requires Searching(b, eid, oui, cnt) && cnt < |b|
    ensures FrontInside(b[cnt..], eid, |oui|) && b[cnt..][1] == b[cnt + 1]
    ensures if HitsFront(b[cnt..], eid, oui) then FindEx(b, eid, oui) == Some(cnt)
            else Searching(b, eid, oui, cnt + 2 + b[cnt + 1] as int)
  {
    hide HitsFront, FrontInside, InsideEx, FindEx;
    var t := b[cnt..];
    SearchFront(t, eid, oui);
    var n := 2 + t[1] as int;
    if n < |t| {
      assert t[n..] == b[cnt + n..];
    }
  }

  lemma SearchFront(b: seq<Byte>, eid: Byte, oui: seq<Byte>)
    requires b != [] && InsideEx(b, eid, oui)
    ensures |b| >= 2 && FrontInside(b, eid, |oui|)
    ensures var n := 2 + b[1] as int;
      if HitsFront(b, eid, oui) then FindEx(b, eid, oui) == Some(0)
      else if n >= |b| then FindEx(b, eid, oui) == None
      else InsideEx(b[n..], eid, oui) && FindEx(b, eid, oui) == Plus(FindEx(b[n..], eid, oui), n)
  {
    hide HitsFront;
  }

  /** The bytes `rtw_ies_remove_ie` leaves of `b`. */
  function Kept(b: seq<Byte>, eid: Byte, oui: seq<Byte>): (r: seq<Byte>) {
    if |b| < 2 || 2 + b[1] as int > |b| then b
    else (if HitsFront(b, eid, oui) then [] else b[..2 + b[1] as int]) + Kept(b[2 + b[1] as int..], eid, oui)
  }

  /** All its reads stay inside `b`, and no element it removes is cut short. */
  predicate Removable(b: seq<Byte>, eid: Byte, oui: seq<Byte>) {
    b == [] || (&& FrontInside(b, eid, |oui|)
                && (if 2 + b[1] as int > |b| then !HitsFront(b, eid, oui)
                    else Removable(b[2 + b[1] as int..], eid, oui)))
  }

  lemma RemoveNone(b: seq<Byte>, eid: Byte, oui: seq<Byte>)
    requires Removable(b, eid, oui) && (b == [] || 2 + b[1] as int > |b|)
    ensures InsideEx(b, eid, oui) && FindEx(b, eid, oui) == None && Kept(b, eid, oui) == b
  {
  }

  lemma RemoveFront(b: seq<Byte>, eid: Byte, oui: seq<Byte>)
    requires Removable(b, eid, oui) && b != [] && 2 + b[1] as int <= |b|
    ensures var n := 2 + b[1] as int;
      var t := b[n..];
      && Removable(t, eid, oui)
      && (if HitsFront(b, eid, oui) then
            InsideEx(b, eid, oui) && FindEx(b, eid, oui) == Some(0) && Kept(b, eid, oui) == Kept(t, eid, oui)
          else
            && (InsideEx(t, eid, oui) ==> InsideEx(b, eid, oui))
            && FindEx(b, eid, oui) == Plus(FindEx(t, eid, oui), n)
            && Kept(b, eid, oui) == b[..n] + Kept(t, eid, oui))
  {
    hide HitsFront;
    var t := b[2 + b[1] as int..];
    if t == [] { FindNone(eid, oui); }
    assert [] + Kept(t, eid, oui) == Kept(t, eid, oui);
  }

  lemma RemovableHeader(b: seq<Byte>, eid: Byte, oui: seq<Byte>)
    requires Removable(b, eid, oui)
    ensures b == [] || |b| >= 2
  {
  }

  lemma FindNone(eid: Byte, oui: seq<Byte>)
    ensures FindEx([], eid, oui) == None
  {
  }

  lemma CutBehind(b: seq<Byte>, n: nat, c: nat, m: nat)
    requires n + c + m <= |b|
    ensures b[n..][c + m..] == b[n + c + m..] && b[..n + c] == b[..n] + b[n..][..c]
  {
  }

  /** The first hit of a search, and what the removal of the rest starts from. */
  lemma {:induction false} KeptFirst(b: seq<Byte>, eid: Byte, oui: seq<Byte>)
    requires Removable(b, eid, oui)
    ensures InsideEx(b, eid, oui)
    ensures match FindEx(b, eid, oui)
            case None => Kept(b, eid, oui) == b
            case Some(c) =>
              var n := 2 + b[c + 1] as int;
              && c + n <= |b| && Removable(b[c + n..], eid, oui)
              && Kept(b, eid, oui) == b[..c] + Kept(b[c + n..], eid, oui)
  {
    hide HitsFront, InsideEx, FindEx, Kept, Removable;
    RemovableHeader(b, eid, oui);
    if b == [] || 2 + b[1] as int > |b| {
      RemoveNone(b, eid, oui);
    } else {
      RemoveFront(b, eid, oui);
      var n := 2 + b[1] as int;
      var t := b[n..];
      if HitsFront(b, eid, oui) {
        assert b[..0] + Kept(t, eid, oui) == Kept(t, eid, oui);
      } else {
        KeptFirst(t, eid, oui);
        assert b == b[..n] + t;
        var r := FindEx(t, eid, oui);
        if r.Some? {
          var m := 2 + t[r.value + 1] as int;
          CutBehind(b, n, r.value, m);
          Assoc(b[..n], t[..r.value], Kept(t[r.value + m..], eid, oui));
        }
      }
    }
  }

  /** One turn of the loop of `rtw_ies_remove_ie`: finds the first hit and moves what follows over it. */
  method CutHit(ies: array<Byte>, start: nat, searchLen: nat, eid: Byte, oui: seq<Byte>)
    returns (target: Option<nat>, ielen: nat)
    requires start + searchLen <= ies.Length && Removable(ies[start..start + searchLen], eid, oui)
    modifies ies
    ensures target.None? ==> ies[..] == old(ies[..])
    ensures target.Some? ==>
              && start <= target.value && 2 <= ielen && target.value + ielen <= start + searchLen
              && Outside(old(ies[..]), ies[..], target.value, start + searchLen)
              && ies[target.value..start + searchLen - ielen] == old(ies[target.value + ielen..start + searchLen])
    ensures match FindEx(old(ies[start..start + searchLen]), eid, oui)
            case None => target == None
            case Some(c) => target == Some(start + c) && ielen == old(ies[start..start + searchLen])[c + 1] as int + 2
  {
    hide Removable, InsideEx, FindEx, Outside, Kept;
    KeptFirst(ies[start..start + searchLen], eid, oui);
    target, ielen := GetIeEx(ies, start, searchLen, eid, oui);
    if target.Some? {
      Cut(ies, target.value, ielen, start + searchLen);
    }
  }

  /** The loop of `rtw_ies_remove_ie`: `offset..start` is done, `start..end` is still to search. */
  ghost predicate Removing(s0: seq<Byte>, s: seq<Byte>, offset: nat, start: nat, end: nat, end0: nat, eid: Byte,
      oui: seq<Byte>) {
    && offset <= start <= end <= end0 <= |s0| == |s|
    && Removable(s[start..end], eid, oui) && Outside(s0, s, offset, end0)
    && Kept(s0[offset..end0], eid, oui) == s[offset..start] + Kept(s[start..end], eid, oui)
  }

  lemma RemoveStart(s: seq<Byte>, offset: nat, end: nat, eid: Byte, oui: seq<Byte>)
    requires offset <= end <= |s| && Removable(s[offset..end], eid, oui)
    ensures Removing(s, s, offset, offset, end, end, eid, oui)
  {
    SameOutside(s, offset, end);
    assert s[offset..offset] == [];
    assert [] + Kept(s[offset..end], eid, oui) == Kept(s[offset..end], eid, oui);
  }

  lemma RemoveFacts(s0: seq<Byte>, s: seq<Byte>, offset: nat, start: nat, end: nat, end0: nat, eid: Byte,
      oui: seq<Byte>)
    requires Removing(s0, s, offset, start, end, end0, eid, oui)
    ensures offset <= start <= end <= end0 <= |s0| == |s| && Removable(s[start..end], eid, oui)
  {
  }

  /** The hit of `n` bytes at `at` has been cut out of `s`. */
  lemma RemoveStep(s0: seq<Byte>, s: seq<Byte>, t: seq<Byte>, offset: nat, start: nat, end: nat, end0: nat,
                   eid: Byte, oui: seq<Byte>, at: nat, n: nat)
    requires Removing(s0, s, offset, start, end, end0, eid, oui)
    requires start <= at && at + n <= end <= |t| && Outside(s, t, at, end) && t[at..end - n] == s[at + n..end]
    requires FindEx(s[start..end], eid, oui) == Some(at - start) && n == s[start..end][at - start + 1] as int + 2
    ensures Removing(s0, t, offset, at, end - n, end0, eid, oui)
  {
    hide Removable, InsideEx, FindEx, Kept, Outside;
    var b := s[start..end];
    KeptFirst(b, eid, oui);
    SubSlice(s, start, end, at - start + n, end - start);
    assert b[at - start + n..end - start] == b[at - start + n..];
    SubSlice(s, start, end, 0, at - start);
    assert b[0..at - start] == b[..at - start];
    KeepSlice(s, t, at, end, offset, at);
    JoinSlices(s, offset, start, at);
    Assoc(s[offset..start], s[start..at], Kept(t[at..end - n], eid, oui));
    OutsideTrans(s0, s, t, offset, end0, at, end);
  }

  lemma RemoveEnd(s0: seq<Byte>, s: seq<Byte>, offset: nat, start: nat, end: nat, end0: nat, eid: Byte, oui: seq<Byte>)
    requires Removing(s0, s, offset, start, end, end0, eid, oui) && FindEx(s[start..end], eid, oui) == None
    ensures offset <= end <= end0 <= |s0| == |s| && Outside(s0, s, offset, end0)
    ensures s[offset..end] == Kept(s0[offset..end0], eid, oui)
  {
    hide Removable, FindEx, Kept, Outside;
    KeptFirst(s[start..end], eid, oui);
    JoinSlices(s, offset, start, end);
  }

  /** `rtw_ies_remove_ie`; the result is whether anything was removed, and the new length. */
  method RemoveIe(ies: array<Byte>, iesLen: nat, offset: nat, eid: Byte, oui: seq<Byte>)
      returns (ret: bool, iesLen': nat)
    requires iesLen <= ies.Length && (iesLen > offset ==> Removable(ies[offset..iesLen], eid, oui))
    modifies ies
    ensures iesLen <= offset ==> !ret && iesLen' == iesLen && ies[..] == old(ies[..])
    ensures iesLen > offset ==>
              && offset <= iesLen' <= iesLen
              && ies[offset..iesLen'] == Kept(old(ies[offset..iesLen]), eid, oui)
              && Outside(old(ies[..]), ies[..], offset, iesLen)
              && ret == (iesLen' < iesLen)
  {
    hide Removable, FindEx, Kept, Outside, Removing;
    ret, iesLen' := false, iesLen;
    if iesLen <= offset {
      return;
    }
    var start: nat, searchLen: nat := offset, iesLen - offset;
    ghost var s0 := ies[..];
    assert s0[offset..iesLen] == ies[offset..iesLen];
    RemoveStart(s0, offset, iesLen, eid, oui);
    while true
      invariant Removing(s0, ies[..], offset, start, start + searchLen, iesLen, eid, oui)
      invariant offset <= start && start + searchLen == iesLen' <= iesLen && ret == (iesLen' < iesLen)
      decreases searchLen
    {
      ghost var s := ies[..];
      assert s[start..start + searchLen] == ies[start..start + searchLen];
      RemoveFacts(s0, s, offset, start, iesLen', iesLen, eid, oui);
      var target, targetIelen := CutHit(ies, start, searchLen, eid, oui);
      if target.None? {
        RemoveEnd(s0, s, offset, start, iesLen', iesLen, eid, oui);
        break;
      }
      RemoveStep(s0, s, ies[..], offset, start, iesLen', iesLen, eid, oui, target.value, targetIelen);
      iesLen' := iesLen' - targetIelen;
      ret := true;
      start, searchLen := target.value, searchLen - (target.value + targetIelen - start);
    }
  }

  // ---------- lists ----------

  /** What `rtw_get_ie_ex` compares: the bytes after the header, wherever the element ends. */
  predicate Hit(es: seq<Elem>, eid: Byte, oui: seq<Byte>)
    requires es != []
  {
    es[0].id == eid && oui <= Ser(es)[2..]
  }

  /** The index of the first hit, or the length. */
  function FirstHit(es: seq<Elem>, eid: Byte, oui: seq<Byte>): (k: nat)
    ensures k <= |es|
  {
    if es == [] || Hit(es, eid, oui) then 0 else 1 + FirstHit(es[1..], eid, oui)
  }

  /** Comparing `n` bytes after any header with this ID stays inside the list. */
  predicate Comparable(es: seq<Elem>, eid: Byte, n: nat) {
    es == [] || ((es[0].id == eid ==> |Ser(es)| >= 2 + n) && Comparable(es[1..], eid, n))
  }

  /** What repeated removal leaves. */
  function Remaining(es: seq<Elem>, eid: Byte, oui: seq<Byte>): (r: seq<Elem>) {
    if es == [] then [] else (if Hit(es, eid, oui) then [] else [es[0]]) + Remaining(es[1..], eid, oui)
  }

  lemma Front(es: seq<Elem>, eid: Byte, oui: seq<Byte>)
    requires es != []
    ensures var b, n := Ser(es), 2 + |es[0].body|;
      && b != [] && 2 <= n <= |b| && b[1] == |es[0].body| && b[n..] == Ser(es[1..]) && b[..n] == One(es[0])
      && (FrontInside(b, eid, |oui|) <==> es[0].id == eid ==> |b| >= 2 + |oui|)
      && (HitsFront(b, eid, oui) <==> Hit(es, eid, oui))
  {
    SerHead(es);
  }

  /** Comparing `n` bytes after the headers with this ID among the first `k` stays inside the list. */
  predicate Legible(es: seq<Elem>, k: nat, eid: Byte, n: nat)
    requires k <= |es|
  {
    forall j | 0 <= j < k :: es[j].id == eid ==> |Ser(es[j..])| >= 2 + n
  }

  lemma LegibleStep(es: seq<Elem>, k: nat, eid: Byte, n: nat)
    requires 0 < k <= |es|
    ensures Legible(es, k, eid, n) <==> (es[0].id == eid ==> |Ser(es)| >= 2 + n) && Legible(es[1..], k - 1, eid, n)
  {
    hide Ser;
    var t := es[1..];
    assert es[0..] == es;
    forall j | 0 <= j < k - 1 ensures t[j..] == es[j + 1..] && t[j] == es[j + 1] {
    }
    if Legible(es, k, eid, n) {
      forall j | 0 <= j < k - 1 ensures t[j].id == eid ==> |Ser(t[j..])| >= 2 + n {
        assert es[j + 1].id == eid ==> |Ser(es[j + 1..])| >= 2 + n;
      }
    }
    if (es[0].id == eid ==> |Ser(es)| >= 2 + n) && Legible(t, k - 1, eid, n) {
      forall j | 0 <= j < k ensures es[j].id == eid ==> |Ser(es[j..])| >= 2 + n {
        if j > 0 { assert t[j - 1].id == eid ==> |Ser(t[j - 1..])| >= 2 + n; }
      }
    }
  }

  /** A search of a list finds the first element whose header is followed by the OUI; its reads stay inside the list
      exactly when the comparisons up to there do. */
  lemma {:induction false} FindExOnList(es: seq<Elem>, eid: Byte, oui: seq<Byte>)
    ensures var k, b := FirstHit(es, eid, oui), Ser(es);
      && (InsideEx(b, eid, oui) <==> Legible(es, k, eid, |oui|))
      && FindEx(b, eid, oui) == if k < |es| then Some(|Ser(es[..k])|) else None
  {
    hide Ser, One, Hit, HitsFront, FrontInside, Legible;
    SerNil();
    if es != [] {
      Front(es, eid, oui);
      var t, k := es[1..], FirstHit(es, eid, oui);
      if Hit(es, eid, oui) {
        LegibleNone(es, eid, oui);
        assert es[..0] == [];
      } else {
        FindExOnList(t, eid, oui);
        LegibleStep(es, k, eid, |oui|);
        PrefixSer(es, k);
      }
    } else {
      LegibleNone(es, eid, oui);
    }
  }

  lemma LegibleNone(es: seq<Elem>, eid: Byte, oui: seq<Byte>)
    ensures Legible(es, 0, eid, |oui|)
    ensures es != [] && Hit(es, eid, oui) ==> FrontInside(Ser(es), eid, |oui|)
  {
  }

  lemma PrefixSer(es: seq<Elem>, k: nat)
    requires 0 < k <= |es|
    ensures |Ser(es[..k])| == 2 + |es[0].body| + |Ser(es[1..][..k - 1])|
  {
    assert es[..k] == [es[0]] + es[1..][..k - 1];
    SerConcat([es[0]], es[1..][..k - 1]);
    SerOne(es[0]);
  }

  /** On a list, removal leaves the elements that were not hit; its reads stay inside exactly when all comparisons
      do. */
  lemma {:induction false} KeptOnList(es: seq<Elem>, eid: Byte, oui: seq<Byte>)
    ensures Removable(Ser(es), eid, oui) <==> Comparable(es, eid, |oui|)
    ensures Kept(Ser(es), eid, oui) == Ser(Remaining(es, eid, oui))
  {
    hide Ser, One, Hit, HitsFront, FrontInside;
    SerNil();
    if es != [] {
      Front(es, eid, oui);
      KeptOnList(es[1..], eid, oui);
      var r := Remaining(es[1..], eid, oui);
      if !Hit(es, eid, oui) {
        SerConcat([es[0]], r);
        SerOne(es[0]);
      } else {
        assert [] + r == r && [] + Ser(r) == Ser(r);
      }
    }
  }

  // ---------- removal as a filter ----------

  predicate Matches(e: Elem, eid: Byte, oui: seq<Byte>) {
    e.id == eid && oui <= e.body
  }

  function Others(es: seq<Elem>, eid: Byte, oui: seq<Byte>): (r: seq<Elem>) {
    if es == [] then [] else (if Matches(es[0], eid, oui) then [] else [es[0]]) + Others(es[1..], eid, oui)
  }

  /** An element too short for the OUI, which the comparison completes with bytes of its successors. */
  predicate Stray(es: seq<Elem>, eid: Byte, oui: seq<Byte>)
    requires es != []
  {
    |es[0].body| < |oui| && Hit(es, eid, oui)
  }

  predicate NoStray(es: seq<Elem>, eid: Byte, oui: seq<Byte>) {
    es == [] || (!Stray(es, eid, oui) && NoStray(es[1..], eid, oui))
  }

  lemma HitOrStray(es: seq<Elem>, eid: Byte, oui: seq<Byte>)
    requires es != []
    ensures Hit(es, eid, oui) <==> Matches(es[0], eid, oui) || Stray(es, eid, oui)
  {
    hide Ser;
    SerHead(es);
    var b, n := Ser(es), |es[0].body|;
    assert b[2..][..n] == es[0].body;
    if |oui| <= n {
      assert oui <= b[2..] ==> oui == b[2..][..|oui|] == es[0].body[..|oui|];
      assert oui <= es[0].body ==> oui == es[0].body[..|oui|] == b[2..][..|oui|];
    }
  }

  /** Removal deletes the matching elements and nothing else exactly when no short element is completed by its
      successors. */
  lemma {:induction false} RemovalIsFilter(es: seq<Elem>, eid: Byte, oui: seq<Byte>)
    ensures |Remaining(es, eid, oui)| <= |Others(es, eid, oui)|
    ensures Remaining(es, eid, oui) == Others(es, eid, oui) <==> NoStray(es, eid, oui)
  {
    hide Hit, Matches, Stray;
    if es != [] {
      HitOrStray(es, eid, oui);
      RemovalIsFilter(es[1..], eid, oui);
      StrayLonger(es, eid, oui);
      var r, o := Remaining(es[1..], eid, oui), Others(es[1..], eid, oui);
      assert [] + r == r && [] + o == o;
      assert ([es[0]] + r)[1..] == r && ([es[0]] + o)[1..] == o;
    }
  }

  lemma StrayLonger(es: seq<Elem>, eid: Byte, oui: seq<Byte>)
    requires es != []
    ensures !(Stray(es, eid, oui) && Matches(es[0], eid, oui))
  {
  }

  /** Elements that carry the whole OUI are never strays. */
  lemma {:induction false} FullOui(es: seq<Elem>, eid: Byte, oui: seq<Byte>)
    requires forall i | 0 <= i < |es| :: es[i].id == eid ==> |es[i].body| >= |oui|
    ensures NoStray(es, eid, oui) && Comparable(es, eid, |oui|)
  {
    if es != [] {
      SerHead(es);
      FullOui(es[1..], eid, oui);
    }
  }

  /** A vendor element with an empty body, followed by one whose header spells the OUI, is removed although it does
      not match. */
  lemma StrayExample()
    ensures var es, oui := [Elem(221, []), Elem(80, [111])], [80, 1];
      Comparable(es, 221, 2) && !Matches(es[0], 221, oui) && Remaining(es, 221, oui) == [es[1]]
  {
    var es, oui := [Elem(221, []), Elem(80, [111])], [80, 1];
    assert es[1..] == [es[1]] && es[1..][1..] == [];
    assert Ser(es[1..]) == [80, 1, 111];
    assert Ser(es) == [221, 0] + [80, 1, 111];
    assert Ser(es)[2..] == [80, 1, 111];
    assert Remaining(es[1..], 221, oui) == [es[1]];
  }
}
