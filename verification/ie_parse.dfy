/** `rtw_ieee802_11_parse_elems` of kernel/core/rtw_ieee80211.c. */
module IeParse {
  import opened Bytes
  import opened Options
  import opened Elements
  import opened Seqs

  const OUI_MICROSOFT: int := 0x0050f2
  const OUI_BROADCOM: int := 0x00904c
  const WME_OUI_TYPE: Byte := 2
  const VENDOR_HT_CAPAB_OUI_TYPE: Byte := 0x33
  const WLAN_EID_VENDOR_SPECIFIC: Byte := 221

  /** The members of `struct rtw_ieee802_11_elems`. */
  datatype Kind =
    | Ssid | SuppRates | FhParams | DsParams | CfParams | Tim | IbssParams | Challenge | ErpInfo | ExtSuppRates
    | Rsn | PowerCap | SuppChannels | Mdie | Ftie | TimeoutInt | HtCapabilities | HtOperation
    | VhtCapabilities | VhtOperation | VhtOpModeNotify
    | Wpa | Wme | WmeTspec | Wps | VendorHtCap

  /** A pointer into the buffer and a length. */
  datatype Slice = Slice(start: nat, len: nat)

  datatype ParseRes = ParseOK | ParseUnknown | ParseFailed

  function Be24(b: seq<Byte>): (r: nat)
    requires |b| >= 3
  {
    (b[0] as int) * 0x10000 + (b[1] as int) * 0x100 + b[2]
  }

  /** `rtw_ieee802_11_parse_vendor_specific`: which member is filled, if any. */
  function VendorKind(body: seq<Byte>): (k: Option<Kind>) {
    if |body| < 4 then None
    else if Be24(body) == OUI_MICROSOFT then
      if body[3] == 1 then Some(Wpa)
      else if body[3] == WME_OUI_TYPE then
        if |body| < 5 then None
        else if body[4] == 0 || body[4] == 1 then Some(Wme)
        else if body[4] == 2 then Some(WmeTspec)
        else None
      else if body[3] == 4 then Some(Wps)
      else None
    else if Be24(body) == OUI_BROADCOM then
      if body[3] == VENDOR_HT_CAPAB_OUI_TYPE then Some(VendorHtCap) else None
    else None
  }

  function KindOf(id: Byte, body: seq<Byte>): (k: Option<Kind>) {
    match id
    case 0 => Some(Ssid)
    case 1 => Some(SuppRates)
    case 2 => Some(FhParams)
    case 3 => Some(DsParams)
    case 4 => Some(CfParams)
    case 5 => Some(Tim)
    case 6 => Some(IbssParams)
    case 16 => Some(Challenge)
    case 42 => Some(ErpInfo)
    case 50 => Some(ExtSuppRates)
    case 221 => VendorKind(body)
    case 48 => Some(Rsn)
    case 33 => Some(PowerCap)
    case 36 => Some(SuppChannels)
    case 54 => Some(Mdie)
    case 55 => Some(Ftie)
    case 56 => Some(TimeoutInt)
    case 45 => Some(HtCapabilities)
    case 61 => Some(HtOperation)
    case 191 => Some(VhtCapabilities)
    case 192 => Some(VhtOperation)
    case 199 => Some(VhtOpModeNotify)
    case _ => None
  }

  lemma Oui(body: seq<Byte>, a: Byte, b: Byte, c: Byte)
    requires |body| >= 3
    ensures Be24(body) == a as int * 0x10000 + b as int * 0x100 + c as int <==> body[..3] == [a, b, c]
  {
    assert body[..3] == [body[0], body[1], body[2]];
  }

  /** A body that begins with an OUI and a type. */
  predicate Typed(body: seq<Byte>, head: seq<Byte>) {
    head <= body
  }

  lemma FourBytes(body: seq<Byte>, a: Byte, b: Byte, c: Byte, t: Byte)
    ensures Typed(body, [a, b, c, t]) <==> |body| >= 4 && body[..3] == [a, b, c] && body[3] == t
  {
    if |body| >= 4 {
      assert body[..4] == body[..3] + [body[3]];
      assert [a, b, c, t] == [a, b, c] + [t];
    }
  }

  /** Which elements are recorded as what: by their ID, and for vendor elements by the OUI and the type behind it. */
  lemma KindsMean(id: Byte, body: seq<Byte>)
    ensures var k := KindOf(id, body);
      && (k == Some(Ssid) <==> id == 0) && (k == Some(SuppRates) <==> id == 1) && (k == Some(FhParams) <==> id == 2)
      && (k == Some(DsParams) <==> id == 3) && (k == Some(CfParams) <==> id == 4) && (k == Some(Tim) <==> id == 5)
      && (k == Some(IbssParams) <==> id == 6) && (k == Some(Challenge) <==> id == 16)
      && (k == Some(ErpInfo) <==> id == 42) && (k == Some(ExtSuppRates) <==> id == 50) && (k == Some(Rsn) <==> id == 48)
      && (k == Some(PowerCap) <==> id == 33) && (k == Some(SuppChannels) <==> id == 36)
      && (k == Some(Mdie) <==> id == 54) && (k == Some(Ftie) <==> id == 55) && (k == Some(TimeoutInt) <==> id == 56)
      && (k == Some(HtCapabilities) <==> id == 45) && (k == Some(HtOperation) <==> id == 61)
      && (k == Some(VhtCapabilities) <==> id == 191) && (k == Some(VhtOperation) <==> id == 192)
      && (k == Some(VhtOpModeNotify) <==> id == 199)
    ensures var k := KindOf(id, body);
      && (k == Some(Wpa) <==> id == 221 && [0x00, 0x50, 0xF2, 1] <= body)
      && (k == Some(Wme) <==> id == 221 && [0x00, 0x50, 0xF2, 2] <= body && |body| >= 5 && body[4] <= 1)
      && (k == Some(WmeTspec) <==> id == 221 && [0x00, 0x50, 0xF2, 2] <= body && |body| >= 5 && body[4] == 2)
      && (k == Some(Wps) <==> id == 221 && [0x00, 0x50, 0xF2, 4] <= body)
      && (k == Some(VendorHtCap) <==> id == 221 && [0x00, 0x90, 0x4C, 0x33] <= body)
  {
    FourBytes(body, 0x00, 0x50, 0xF2, 1);
    FourBytes(body, 0x00, 0x50, 0xF2, 2);
    FourBytes(body, 0x00, 0x50, 0xF2, 4);
    FourBytes(body, 0x00, 0x90, 0x4C, 0x33);
    if |body| >= 3 {
      Oui(body, 0x00, 0x50, 0xF2);
      Oui(body, 0x00, 0x90, 0x4C);
    }
    hide Be24;
  }

  // ---------- specification ----------

  /** The complete elements at the front of a buffer. */
  function Decode(b: seq<Byte>): (es: seq<Elem>) {
    if |b| < 2 || 2 + b[1] > |b| then [] else [Elem(b[0], b[2..2 + b[1]])] + Decode(b[2 + b[1]..])
  }

  ghost predicate WellFormed(b: seq<Byte>) {
    exists es :: Ser(es) == b
  }

  lemma {:induction false} DecodeSer(es: seq<Elem>)
    ensures Decode(Ser(es)) == es
  {
    if es != [] {
      SerHead(es);
      DecodeSer(es[1..]);
      assert es == [es[0]] + es[1..];
    }
  }

  /** The index of the last element of kind `k`, or the length. */
  function LastIndex(es: seq<Elem>, k: Kind): (i: nat)
    ensures i <= |es|
    ensures i < |es| ==> KindOf(es[i].id, es[i].body) == Some(k)
    ensures forall j | 0 <= j < |es| && (i == |es| || i < j) :: KindOf(es[j].id, es[j].body) != Some(k)
    decreases |es|
  {
    if es == [] then 0
    else
      var n := |es| - 1;
      if KindOf(es[n].id, es[n].body) == Some(k) then n
      else
        var i := LastIndex(es[..n], k);
        if i == n then |es| else i
  }

  /** The payload of the last element of kind `k`. */
  function LastOf(es: seq<Elem>, k: Kind): (s: Option<Slice>) {
    var i := LastIndex(es, k);
    if i < |es| then Some(Slice(|Ser(es[..i])| + 2, |es[i].body|)) else None
  }

  function At(m: map<Kind, Slice>, k: Kind): (s: Option<Slice>) {
    if k in m then Some(m[k]) else None
  }

  ghost predicate AllKnown(es: seq<Elem>) {
    forall i | 0 <= i < |es| :: KindOf(es[i].id, es[i].body).Some?
  }

  // ---------- the parser ----------

  /** The parser fails exactly on what is not a list of complete elements, and reports the last element of every
      kind. */
  method ParseElems(b: seq<Byte>) returns (res: ParseRes, elems: map<Kind, Slice>)
    ensures res == ParseFailed <==> !WellFormed(b)
    ensures res == ParseOK ==> AllKnown(Decode(b))
    ensures res == ParseUnknown ==> !AllKnown(Decode(b))
    ensures forall k :: At(elems, k) == LastOf(Decode(b), k)
  {
    hide Ser, KindOf, LastOf, LastIndex, AllKnown, WellFormed;
    var left: nat, pos: nat, unknown: nat := |b|, 0, 0;
    ghost var es: seq<Elem> := [];
    elems := map[];
    ParseStart(b);
    while left >= 2
      invariant pos + left == |b|
      invariant Passed(b, es, pos)
      invariant unknown == 0 <==> AllKnown(es)
      invariant forall k :: At(elems, k) == LastOf(es, k)
    {
      var id, elen := b[pos], b[pos + 1];
      pos, left := pos + 2, left - 2;
      if elen > left {
        ParseEnd(b, es, pos - 2);
        return ParseFailed, elems;
      }
      var kind := KindOf(id, b[pos..pos + elen]);
      ParseStep(b, es, pos - 2);
      es := es + [Elem(id, b[pos..pos + elen])];
      if kind.Some? {
        elems := elems[kind.value := Slice(pos, elen)];
      } else {
        unknown := unknown + 1;
      }
      left := left - elen;
      pos := pos + elen;
    }
    ParseEnd(b, es, pos);
    if left != 0 {
      return ParseFailed, elems;
    }
    return if unknown > 0 then ParseUnknown else ParseOK, elems;
  }

  /** The parser has passed the elements `es`. */
  ghost predicate Passed(b: seq<Byte>, es: seq<Elem>, pos: nat) {
    pos <= |b| && b[..pos] == Ser(es) && Decode(b) == es + Decode(b[pos..])
  }

  lemma ParseStart(b: seq<Byte>)
    ensures Passed(b, [], 0) && AllKnown([])
    ensures forall k :: LastOf([], k) == None
  {
    assert b[0..] == b;
  }

  lemma ParseStep(b: seq<Byte>, es: seq<Elem>, pos: nat)
    requires Passed(b, es, pos) && |b| - pos >= 2 && pos + 2 + b[pos + 1] <= |b|
    ensures var n: nat := b[pos + 1];
      var e := Elem(b[pos], b[pos + 2..pos + 2 + n]);
      && Passed(b, es + [e], pos + 2 + n)
      && (AllKnown(es + [e]) <==> AllKnown(es) && KindOf(e.id, e.body).Some?)
      && forall k :: LastOf(es + [e], k) == if KindOf(e.id, e.body) == Some(k) then Some(Slice(pos + 2, n))
          else LastOf(es, k)
  {
    hide LastOf, KindOf, Passed;
    var n: nat := b[pos + 1];
    var e := Elem(b[pos], b[pos + 2..pos + 2 + n]);
    PassStep(b, es, pos, n);
    var fs := es + [e];
    assert forall i | 0 <= i < |es| :: fs[i] == es[i];
    forall k ensures LastOf(fs, k) == if KindOf(e.id, e.body) == Some(k) then Some(Slice(pos + 2, n))
        else LastOf(es, k) {
      LastOfAppend(es, e, k);
    }
    AllKnownAppend(es, e);
  }

  lemma AllKnownAppend(es: seq<Elem>, e: Elem)
    ensures AllKnown(es + [e]) <==> AllKnown(es) && KindOf(e.id, e.body).Some?
  {
    hide KindOf;
    var fs := es + [e];
    assert fs[|es|] == e;
    assert forall i | 0 <= i < |es| :: fs[i] == es[i];
  }

  lemma PassStep(b: seq<Byte>, es: seq<Elem>, pos: nat, n: nat)
    requires Passed(b, es, pos) && |b| - pos >= 2 && n == b[pos + 1] && pos + 2 + n <= |b|
    ensures Passed(b, es + [Elem(b[pos], b[pos + 2..pos + 2 + n])], pos + 2 + n) && pos == |Ser(es)|
  {
    hide Ser;
    var e := Elem(b[pos], b[pos + 2..pos + 2 + n]);
    var t := b[pos..];
    ScanSlice(b, pos, 2, 2 + n);
    assert t[2 + n..] == b[pos + 2 + n..];
    Assoc(es, [e], Decode(b[pos + 2 + n..]));
    SerConcat(es, [e]);
    SerOne(e);
    assert b[..pos + 2 + n] == b[..pos] + One(e);
  }

  lemma LastOfAppend(es: seq<Elem>, e: Elem, k: Kind)
    ensures LastOf(es + [e], k)
         == if KindOf(e.id, e.body) == Some(k) then Some(Slice(|Ser(es)| + 2, |e.body|)) else LastOf(es, k)
  {
    hide Ser, KindOf, LastIndex;
    var fs := es + [e];
    LastIndexAppend(es, e, k);
    var i := LastIndex(es, k);
    assert fs[..|es|] == es && fs[..i] == es[..i];
  }

  lemma LastIndexAppend(es: seq<Elem>, e: Elem, k: Kind)
    ensures LastIndex(es + [e], k)
         == if KindOf(e.id, e.body) == Some(k) then |es|
            else if LastIndex(es, k) == |es| then |es| + 1 else LastIndex(es, k)
  {
    hide KindOf;
    var fs := es + [e];
    assert fs[..|es|] == es && fs[|es|] == e;
  }

  lemma ParseEnd(b: seq<Byte>, es: seq<Elem>, pos: nat)
    requires Passed(b, es, pos) && (|b| - pos < 2 || pos + 2 + b[pos + 1] > |b|)
    ensures Decode(b) == es
    ensures WellFormed(b) <==> pos == |b|
  {
    hide Ser;
    assert es + [] == es;
    if pos == |b| {
      assert b[..pos] == b;
    } else if WellFormed(b) {
      var fs :| Ser(fs) == b;
      DecodeSer(fs);
    }
  }

  // ---------- what is reported ----------

  /** A reported slice lies in the buffer and is the payload of the last element of its kind. */
  lemma ReportedIsLast(es: seq<Elem>, k: Kind, b: seq<Byte>)
    requires b == Ser(es)
    ensures LastOf(es, k).None? <==> forall j | 0 <= j < |es| :: KindOf(es[j].id, es[j].body) != Some(k)
    ensures LastOf(es, k).Some? ==>
              var s, i := LastOf(es, k).value, LastIndex(es, k);
              && KindOf(es[i].id, es[i].body) == Some(k)
              && (forall j | i < j < |es| :: KindOf(es[j].id, es[j].body) != Some(k))
              && s.start + s.len <= |b| && b[s.start..s.start + s.len] == es[i].body
  {
    hide KindOf, Ser;
    var i := LastIndex(es, k);
    if i < |es| { SerScan(es, i, b); }
  }

  /** The complete elements at the front are followed by less than one element. */
  lemma {:induction false} DecodePrefix(b: seq<Byte>)
    ensures Ser(Decode(b)) <= b
    ensures var t := b[|Ser(Decode(b))|..]; |t| < 2 || 2 + t[1] > |t|
    decreases |b|
  {
    if |b| >= 2 && 2 + b[1] <= |b| {
      var n: nat := 2 + b[1] as int;
      var e := Elem(b[0], b[2..n]);
      DecodePrefix(b[n..]);
      var es := Decode(b[n..]);
      var fs := [e] + es;
      assert fs[1..] == es;
      assert b == One(e) + b[n..];
      assert Ser(fs) == One(e) + Ser(es);
      assert b[|Ser(fs)|..] == b[n..][|Ser(es)|..];
    }
  }
}
