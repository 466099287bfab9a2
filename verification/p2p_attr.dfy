/** The attributes of a P2P element as bytes: the search and the deletion of kernel/core/rtw_ieee80211.c. */
module P2pAttr {
  import opened Bytes
  import opened Options
  import opened Seqs

  function Le16(lo: Byte, hi: Byte): (n: nat) {
    lo as int + 256 * hi as int
  }

  /** `attr_len`, which is a 16-bit variable. */
  function AttrLen(lo: Byte, hi: Byte): (n: nat) {
    (Le16(lo, hi) + 3) % 65536
  }

  /** `attr_len` of the attribute at the front of `b`, unless that runs past the end. */
  function Span(b: seq<Byte>): (n: Option<nat>)
    ensures n.Some? ==> n.value <= |b| && |b| >= 3
  {
    if |b| < 3 || AttrLen(b[1], b[2]) > |b| then None else Some(AttrLen(b[1], b[2]))
  }

  datatype Range = Range(at: nat, len: nat)

  function Shift(r: Option<Range>, n: nat): (r': Option<Range>) {
    match r
    case None => None
    case Some(x) => Some(Range(n + x.at, x.len))
  }

  /** Position and `attr_len` of the first attribute `id` that a search of `b` meets. */
  function FindAttr(b: seq<Byte>, id: Byte): (r: Option<Range>)
    ensures r.Some? ==> r.value.at + r.value.len <= |b|
  {
    match Span(b)
    case None => None
    case Some(n) =>
      if b[0] == id then Some(Range(0, n))
      else if n == 0 then None
      else Shift(FindAttr(b[n..], id), n)
  }

  // ---------- when the search ends ----------

  /** The search meets an attribute with another ID whose `attr_len` is zero. */
  predicate Stalls(b: seq<Byte>, id: Byte) {
    match Span(b)
    case None => false
    case Some(n) => b[0] != id && (n == 0 || Stalls(b[n..], id))
  }

  /** The cursor after `k` turns of the search loop, or nothing once the loop has been left. */
  function Cursor(b: seq<Byte>, p: nat, id: Byte, k: nat): (r: Option<nat>)
    requires p <= |b|
    decreases k
  {
    var t := b[p..];
    if Span(t).None? || t[0] == id then None
    else if k == 0 then Some(p)
    else Cursor(b, p + Span(t).value, id, k - 1)
  }

  lemma {:induction false} CursorStays(b: seq<Byte>, p: nat, id: Byte, k: nat)
    requires p <= |b| && Stalls(b[p..], id)
    ensures Cursor(b, p, id, k).Some?
    decreases k
  {
    if k > 0 {
      var n := Span(b[p..]).value;
      assert b[p..][n..] == b[p + n..];
      CursorStays(b, p + n, id, k - 1);
    }
  }

  lemma {:induction false} CursorLeaves(b: seq<Byte>, p: nat, id: Byte) returns (k: nat)
    requires p <= |b| && !Stalls(b[p..], id)
    ensures Cursor(b, p, id, k).None?
    decreases |b| - p
  {
    var t := b[p..];
    k := 0;
    if Span(t).Some? && t[0] != id {
      var n := Span(t).value;
      assert t[n..] == b[p + n..];
      k := CursorLeaves(b, p + n, id);
      k := k + 1;
    }
  }

  /** The search loop is left after some number of turns exactly when no attribute stalls it. */
  lemma SearchEnds(b: seq<Byte>, id: Byte)
    ensures (exists k: nat :: Cursor(b, 0, id, k).None?) <==> !Stalls(b, id)
  {
    assert b[0..] == b;
    if Stalls(b, id) {
      forall k: nat ensures Cursor(b, 0, id, k).Some? {
        CursorStays(b, 0, id, k);
      }
    } else {
      var k := CursorLeaves(b, 0, id);
    }
  }

  /** An attribute that claims 65533 bytes: a search for another ID never gets past it, a search for its own finds
      it. */
  lemma {:induction false} StallExample(k: nat)
    ensures var b := [5, 253, 255];
      Stalls(b, 6) && Cursor(b, 0, 6, k) == Some(0) && !Stalls(b, 5) && FindAttr(b, 5) == Some(Range(0, 0))
  {
    var b := [5, 253, 255];
    assert Le16(253, 255) == 65533 && Span(b) == Some(0);
    assert b[0..] == b;
    if k > 0 { StallExample(k - 1); }
  }

  /** One that claims 65534 bytes is only a byte long for the search, which then reads from the middle of it. */
  lemma MisreadExample()
    ensures var b := [5, 254, 255, 9]; !Stalls(b, 6) && FindAttr(b, 6) == None && Span(b) == Some(1)
  {
    var b := [5, 254, 255, 9];
    assert Le16(254, 255) == 65534 && Span(b) == Some(1);
    var c := b[1..];
    assert c == [254, 255, 9];
    assert Le16(255, 9) == 2559 && Span(c) == None;
  }

  // ---------- deletion ----------

  function CutOut(b: seq<Byte>, r: Range): (c: seq<Byte>)
    requires r.at + r.len <= |b|
    ensures |c| == |b| - r.len
  {
    b[..r.at] + b[r.at + r.len..]
  }

  predicate Cuts(r: Option<Range>) {
    r.Some? && r.value.len > 0
  }

  /** What repeated search and deletion leave of the attributes `b`. */
  function Deleted(b: seq<Byte>, id: Byte): (r: seq<Byte>)
    ensures |r| <= |b|
    ensures Cuts(FindAttr(b, id)) ==> |r| < |b|
    decreases |b|
  {
    var r := FindAttr(b, id);
    if Cuts(r) then Deleted(CutOut(b, r.value), id) else b
  }

  /** One of those searches stalls. */
  predicate Blocked(b: seq<Byte>, id: Byte)
    decreases |b|
  {
    Stalls(b, id) || (var r := FindAttr(b, id); Cuts(r) && Blocked(CutOut(b, r.value), id))
  }

  /** After an unblocked deletion the search finds nothing to delete. */
  lemma {:induction false} DeletedTwice(b: seq<Byte>, id: Byte)
    requires !Blocked(b, id)
    ensures !Stalls(Deleted(b, id), id) && !Cuts(FindAttr(Deleted(b, id), id))
    decreases |b|
  {
    var r := FindAttr(b, id);
    if Cuts(r) { DeletedTwice(CutOut(b, r.value), id); }
  }

  // ---------- deletion as a filter ----------

  /** The length of an attribute that `attr_len` cannot hold. */
  predicate Wraps(b: seq<Byte>) {
    |b| >= 3 && Le16(b[1], b[2]) + 3 >= 65536
  }

  /** `b` without its complete attributes of ID `id`, by the lengths they claim; an incomplete one at the end stays. */
  function Filtered(b: seq<Byte>, id: Byte): (r: seq<Byte>) {
    if |b| < 3 || Le16(b[1], b[2]) + 3 > |b| then b
    else
      var n := Le16(b[1], b[2]) + 3;
      (if b[0] == id then [] else b[..n]) + Filtered(b[n..], id)
  }

  /** From the first attribute with a length that wraps on, the search meets nothing it would cut. */
  predicate Harmless(b: seq<Byte>, id: Byte) {
    if Wraps(b) then !Cuts(FindAttr(b, id))
    else Span(b).None? || Harmless(b[Span(b).value..], id)
  }

  /** A complete attribute in front, whatever follows it. */
  predicate Head(h: seq<Byte>) {
    |h| >= 3 && |h| < 65536 && Le16(h[1], h[2]) + 3 == |h|
  }

  lemma HeadSpan(h: seq<Byte>, t: seq<Byte>)
    requires Head(h)
    ensures var b := h + t;
      Span(b) == Some(|h|) && !Wraps(b) && b[0] == h[0] && b[|h|..] == t && b[..|h|] == h
  {
    var b := h + t;
    assert b[1] == h[1] && b[2] == h[2];
  }

  lemma SpanHead(b: seq<Byte>)
    requires !Wraps(b) && Span(b).Some?
    ensures var n := Span(b).value; n >= 3 && Head(b[..n]) && b == b[..n] + b[n..] && Le16(b[1], b[2]) + 3 == n
  {
    hide Le16;
    var h := b[..Span(b).value];
    assert h[1] == b[1] && h[2] == b[2];
  }

  /** Deleting behind a complete attribute. */
  lemma {:induction false} DeletedHead(h: seq<Byte>, t: seq<Byte>, id: Byte)
    requires Head(h)
    ensures Deleted(h + t, id) == (if h[0] == id then Deleted(t, id) else h + Deleted(t, id))
    ensures Blocked(h + t, id) <==> Blocked(t, id)
    decreases |t|
  {
    hide Head, Span;
    var b := h + t;
    HeadBounds(h);
    HeadSpan(h, t);
    if h[0] == id {
      assert CutOut(b, Range(0, |h|)) == t;
    } else {
      var r := FindAttr(t, id);
      if Cuts(r) {
        assert CutOut(b, Range(|h| + r.value.at, r.value.len)) == h + CutOut(t, r.value);
        DeletedHead(h, CutOut(t, r.value), id);
      }
    }
  }

  lemma HeadBounds(h: seq<Byte>)
    requires Head(h)
    ensures |h| >= 3
  {
  }

  /** Deletion is the filter exactly when nothing is cut from the first wrapping length on. */
  lemma {:induction false} DeletionIsFilter(b: seq<Byte>, id: Byte)
    requires !Blocked(b, id) && |b| < 65536
    ensures Deleted(b, id) == Filtered(b, id) <==> Harmless(b, id)
    decreases |b|
  {
    hide Deleted, Blocked, FindAttr, Head;
    DeletedOnce(b, id);
    if !Wraps(b) && Span(b).Some? {
      var n := Span(b).value;
      var h, t := b[..n], b[n..];
      SpanHead(b);
      DeletedHead(h, t, id);
      DeletionIsFilter(t, id);
      assert [] + Filtered(t, id) == Filtered(t, id);
      SameTail(h, Deleted(t, id), Filtered(t, id));
    }
  }

  lemma SameTail(h: seq<Byte>, s: seq<Byte>, t: seq<Byte>)
    ensures h + s == h + t <==> s == t
  {
    assert (h + s)[|h|..] == s && (h + t)[|h|..] == t;
  }

  lemma DeletedOnce(b: seq<Byte>, id: Byte)
    ensures Deleted(b, id) == b <==> !Cuts(FindAttr(b, id))
    ensures Span(b).None? ==> FindAttr(b, id) == None
  {
  }

  /** A deletion that takes a byte out of an attribute that the filter keeps. */
  lemma CutExample()
    ensures var b := [6, 254, 255]; !Blocked(b, 6) && Deleted(b, 6) == [254, 255] && Filtered(b, 6) == b
  {
    var b := [6, 254, 255];
    assert Le16(254, 255) == 65534 && Span(b) == Some(1);
    assert CutOut(b, Range(0, 1)) == [254, 255];
  }

  // ---------- attribute lists ----------

  /** None of the attributes a scan of `b` reaches claims a length that wraps. */
  predicate NoWrap(b: seq<Byte>) {
    !Wraps(b) && (Span(b).None? || NoWrap(b[Span(b).value..]))
  }

  lemma {:induction false} NoWrapIsHarmless(b: seq<Byte>, id: Byte)
    requires NoWrap(b)
    ensures !Stalls(b, id) && !Blocked(b, id) && Harmless(b, id)
    decreases |b|
  {
    if Span(b).Some? {
      hide Blocked, Deleted, Head;
      SpanHead(b);
      var n := Span(b).value;
      NoWrapIsHarmless(b[n..], id);
      DeletedHead(b[..n], b[n..], id);
    } else {
      assert FindAttr(b, id) == None;
    }
  }

  datatype Attr = Attr(id: Byte, data: seq<Byte>)

  function OneAttr(a: Attr): (b: seq<Byte>)
    ensures |b| == 3 + |a.data|
  {
    [a.id, |a.data| % 256, (|a.data| / 256) % 256] + a.data
  }

  function SerAttrs(s: seq<Attr>): (b: seq<Byte>) {
    if s == [] then [] else OneAttr(s[0]) + SerAttrs(s[1..])
  }

  predicate Representable(s: seq<Attr>) {
    forall i | 0 <= i < |s| :: |s[i].data| + 3 < 65536
  }

  function OtherAttrs(s: seq<Attr>, id: Byte): (r: seq<Attr>) {
    if s == [] then [] else (if s[0].id == id then [] else [s[0]]) + OtherAttrs(s[1..], id)
  }

  lemma {:induction false} OthersMean(s: seq<Attr>, id: Byte)
    ensures forall a :: a in OtherAttrs(s, id) <==> a in s && a.id != id
  {
    if s != [] {
      OthersMean(s[1..], id);
      assert s == [s[0]] + s[1..];
    }
  }

  lemma OneAttrHead(a: Attr)
    requires |a.data| + 3 < 65536
    ensures Head(OneAttr(a)) && OneAttr(a)[0] == a.id
  {
  }

  /** On a list of attributes, deletion takes out every attribute with the ID and nothing else. */
  lemma {:induction false} ListsAreFiltered(s: seq<Attr>, id: Byte)
    requires Representable(s)
    ensures NoWrap(SerAttrs(s)) && !Blocked(SerAttrs(s), id)
    ensures Deleted(SerAttrs(s), id) == SerAttrs(OtherAttrs(s, id))
  {
    hide OneAttr, Head, Deleted, Blocked;
    if s == [] {
      EndOfList(id);
    } else {
      var t := SerAttrs(s[1..]);
      ListsAreFiltered(s[1..], id);
      OneAttrHead(s[0]);
      HeadSpan(OneAttr(s[0]), t);
      DeletedHead(OneAttr(s[0]), t, id);
      var o := OtherAttrs(s[1..], id);
      assert ([s[0]] + o)[1..] == o && [] + o == o;
    }
  }

  lemma EndOfList(id: Byte)
    ensures NoWrap([]) && !Blocked([], id) && Deleted([], id) == []
  {
  }
}
