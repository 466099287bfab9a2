/** Grouping of channel and bandwidth settings: kernel/core/rtw_ieee80211.c. */
module Chbw {

  const WIDTH_20: nat := 0
  const WIDTH_40: nat := 1
  const WIDTH_80: nat := 2
  const DONT_CARE: nat := 0
  const LOWER: nat := 1
  const UPPER: nat := 2

  datatype Chbw = Chbw(ch: nat, bw: nat, offset: nat)

  /** `rtw_get_offset_by_ch`. */
  function OffsetByCh(ch: nat): (o: nat) {
    if 1 <= ch <= 4 || ch in {36, 44, 52, 60, 100, 108, 116, 124, 132, 149, 157} then LOWER
    else if 5 <= ch <= 14 || ch in {40, 48, 56, 64, 104, 112, 120, 128, 136, 153, 161} then UPPER
    else DONT_CARE
  }

  /** On 5 GHz the lower channels of the pairs are every other one of three runs, and the upper one of a pair is four
      up; on 2.4 GHz the lower four channels pair upwards and the others downwards. */
  lemma OffsetsPair(ch: nat)
    ensures 1 <= ch <= 4 ==> OffsetByCh(ch) == LOWER
    ensures 5 <= ch <= 14 ==> OffsetByCh(ch) == UPPER
    ensures ch > 14 ==> (OffsetByCh(ch) == LOWER <==>
                         || (36 <= ch <= 60 && (ch - 36) % 8 == 0) || (100 <= ch <= 132 && (ch - 100) % 8 == 0)
                         || (149 <= ch <= 157 && (ch - 149) % 8 == 0))
    ensures ch > 14 ==> (OffsetByCh(ch + 4) == UPPER <==> OffsetByCh(ch) == LOWER)
    ensures 14 < ch <= 18 || ch == 0 ==> OffsetByCh(ch) == DONT_CARE
  {
    if 36 <= ch <= 60 { assert (ch - 36) % 8 == 0 <==> ch in {36, 44, 52, 60}; }
    if 100 <= ch <= 132 { assert (ch - 100) % 8 == 0 <==> ch in {100, 108, 116, 124, 132}; }
    if 149 <= ch <= 157 { assert (ch - 149) % 8 == 0 <==> ch in {149, 157}; }
  }

  predicate Wide(w: nat) {
    w == WIDTH_40 || w == WIDTH_80
  }

  /** `rtw_is_chbw_grouped`. */
  predicate Grouped(a: Chbw, b: Chbw) {
    a.ch == b.ch && (Wide(a.bw) && Wide(b.bw) ==> a.offset == b.offset)
  }

  /** The request after `rtw_sync_chbw`. */
  function Adjusted(r: Chbw, g: Chbw): (r': Chbw) {
    var bw := if r.bw == WIDTH_80 && g.ch <= 14 then WIDTH_40 else r.bw;
    if Wide(bw) then
      var o := if Wide(g.bw) then g.offset else if g.bw == WIDTH_20 then OffsetByCh(g.ch) else r.offset;
      Chbw(g.ch, if o == DONT_CARE then WIDTH_20 else bw, o)
    else Chbw(g.ch, bw, if bw == WIDTH_20 then DONT_CARE else r.offset)
  }

  /** The group after `rtw_sync_chbw`. */
  function Widened(r: Chbw, g: Chbw): (g': Chbw) {
    var r' := Adjusted(r, g);
    if r'.bw > g.bw then Chbw(g.ch, r'.bw, r'.offset) else g
  }

  class Setting {
    var ch: nat
    var bw: nat
    var offset: nat

    constructor (c: Chbw)
      ensures Now() == c
    {
      ch, bw, offset := c.ch, c.bw, c.offset;
    }

    function Now(): (c: Chbw)
      reads this
    {
      Chbw(ch, bw, offset)
    }
  }

  /** `rtw_sync_chbw`. */
  method Sync(req: Setting, g: Setting)
    requires req != g
    modifies req, g
    ensures req.Now() == Adjusted(old(req.Now()), old(g.Now()))
    ensures g.Now() == Widened(old(req.Now()), old(g.Now()))
  {
    req.ch := g.ch;
    if req.bw == WIDTH_80 && g.ch <= 14 {
      req.bw := WIDTH_40;
    }
    if req.bw == WIDTH_80 || req.bw == WIDTH_40 {
      if g.bw == WIDTH_40 || g.bw == WIDTH_80 {
        req.offset := g.offset;
      } else if g.bw == WIDTH_20 {
        req.offset := OffsetByCh(req.ch);
      }
      if req.offset == DONT_CARE {
        req.bw := WIDTH_20;
      }
    } else if req.bw == WIDTH_20 {
      req.offset := DONT_CARE;
    }
    if req.bw > g.bw {
      g.bw := req.bw;
      g.offset := req.offset;
    }
  }

  // ---------- many requests against one group ----------

  function FinalGroup(g: Chbw, rs: seq<Chbw>): (g': Chbw)
    decreases |rs|
  {
    if rs == [] then g else FinalGroup(Widened(rs[0], g), rs[1..])
  }

  function AllAdjusted(g: Chbw, rs: seq<Chbw>): (r: seq<Chbw>)
    ensures |r| == |rs|
    decreases |rs|
  {
    if rs == [] then [] else [Adjusted(rs[0], g)] + AllAdjusted(Widened(rs[0], g), rs[1..])
  }

  predicate Usual(c: Chbw) {
    c.bw <= WIDTH_80
  }

  predicate AllUsual(rs: seq<Chbw>) {
    forall i | 0 <= i < |rs| :: Usual(rs[i])
  }

  /** The channel stays, the group never narrows, and its offset is fixed once it is 40 MHz or wider. */
  lemma {:induction false} GroupOnlyWidens(g: Chbw, rs: seq<Chbw>)
    requires Usual(g) && AllUsual(rs)
    ensures var f := FinalGroup(g, rs);
      f.ch == g.ch && Usual(f) && g.bw <= f.bw && (Wide(g.bw) ==> f.offset == g.offset)
    decreases |rs|
  {
    if rs != [] { GroupOnlyWidens(Widened(rs[0], g), rs[1..]); }
  }

  /** What becomes of the width of one request: it is kept, but at most 40 MHz on 2.4 GHz; without an offset it falls to
      20 MHz. The offset is that of a wide group, else that of the channel. A group that is narrower follows. */
  lemma WidthKept(r: Chbw, g: Chbw)
    requires Usual(r) && Usual(g)
    ensures var a, most := Adjusted(r, g), if g.ch <= 14 && r.bw == 2 then 1 else r.bw;
      var o := if g.bw == 0 then OffsetByCh(g.ch) else g.offset;
      && a.ch == g.ch
      && (r.bw == 0 ==> a.bw == 0 && a.offset == 0)
      && (r.bw != 0 ==> a.offset == o && a.bw == if o == 0 then 0 else most)
    ensures var a, w := Adjusted(r, g), Widened(r, g);
      && (a.bw <= g.bw ==> w == g)
      && (a.bw > g.bw ==> w == a)
  {
  }

  /** Every adjusted request is grouped with the final group, and none is wider. */
  lemma {:induction false} GroupedWithFinal(g: Chbw, rs: seq<Chbw>, i: nat)
    requires Usual(g) && AllUsual(rs) && i < |rs|
    ensures var r, f := AllAdjusted(g, rs)[i], FinalGroup(g, rs);
      Grouped(r, f) && Usual(r) && r.bw <= f.bw
    decreases |rs|
  {
    var w := Widened(rs[0], g);
    GroupOnlyWidens(w, rs[1..]);
    if i > 0 { GroupedWithFinal(w, rs[1..], i - 1); }
  }

  /** Any two adjusted requests are grouped with each other. */
  lemma GroupedPairwise(g: Chbw, rs: seq<Chbw>, i: nat, j: nat)
    requires Usual(g) && AllUsual(rs) && i < |rs| && j < |rs|
    ensures Grouped(AllAdjusted(g, rs)[i], AllAdjusted(g, rs)[j])
  {
    GroupedWithFinal(g, rs, i);
    GroupedWithFinal(g, rs, j);
    GroupOnlyWidens(g, rs);
  }

  predicate Reached(rs: seq<Chbw>, f: Chbw) {
    exists i | 0 <= i < |rs| :: rs[i].bw == f.bw && rs[i].offset == f.offset
  }

  /** The group ends up as wide as it was or as its widest adjusted request. */
  lemma {:induction false} WidthIsReached(g: Chbw, rs: seq<Chbw>)
    requires Usual(g) && AllUsual(rs)
    ensures var f := FinalGroup(g, rs);
      f.bw == g.bw || Reached(AllAdjusted(g, rs), f)
    decreases |rs|
  {
    if rs != [] {
      var w := Widened(rs[0], g);
      WidthIsReached(w, rs[1..]);
      GroupOnlyWidens(w, rs[1..]);
      var a, f := AllAdjusted(g, rs), FinalGroup(g, rs);
      if f.bw != w.bw {
        var i :| 0 <= i < |rs[1..]| && AllAdjusted(w, rs[1..])[i].bw == f.bw
            && AllAdjusted(w, rs[1..])[i].offset == f.offset;
        assert a[i + 1] == AllAdjusted(w, rs[1..])[i];
        assert a[i + 1].bw == f.bw && a[i + 1].offset == f.offset;
      } else if f.bw != g.bw {
        assert a[0] == Adjusted(rs[0], g) && Wide(w.bw);
        assert a[0].bw == f.bw && a[0].offset == f.offset;
      }
    }
  }

  /** The settings of a list of requests merged, one after the other, into a group. */
  method Merge(reqs: seq<Setting>, g: Setting)
    requires g !in reqs && forall i, j | 0 <= i < j < |reqs| :: reqs[i] != reqs[j]
    requires Usual(g.Now()) && forall i | 0 <= i < |reqs| :: Usual(reqs[i].Now())
    modifies reqs, g
    ensures forall i | 0 <= i < |reqs| ::
              && reqs[i].ch == g.ch && reqs[i].bw <= g.bw
              && (reqs[i].bw in {1, 2} && g.bw in {1, 2} ==> reqs[i].offset == g.offset)
    ensures forall i, j | 0 <= i < |reqs| && 0 <= j < |reqs| :: Grouped(reqs[i].Now(), reqs[j].Now())
    ensures g.ch == old(g.ch) && g.bw >= old(g.bw) && (Wide(old(g.bw)) ==> g.offset == old(g.offset))
  {
    for k := 0 to |reqs|
      invariant Usual(g.Now())
      invariant forall i | k <= i < |reqs| :: reqs[i].Now() == old(reqs[i].Now())
      invariant forall i | 0 <= i < k :: Grouped(reqs[i].Now(), g.Now()) && reqs[i].bw <= g.bw
      invariant g.ch == old(g.ch) && g.bw >= old(g.bw) && (Wide(old(g.bw)) ==> g.offset == old(g.offset))
    {
      Sync(reqs[k], g);
    }
  }
}
