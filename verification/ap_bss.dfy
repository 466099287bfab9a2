/** SoftAP bookkeeping of kernel/core/rtw_ap.c: counters of associated stations, the HT operation word and the
    beacon's ERP bits. */
module ApBss {
  import opened Options
  import opened Seqs

  /** What a station says about itself. */
  datatype Caps = Caps(shortPreamble: bool, nonErp: bool, shortSlot: bool, ht: bool, greenfield: bool, width40: bool)

  /** What a station has been counted for: the `_set` members of `struct sta_info`. */
  datatype Flags = Flags(noShortPreamble: bool, nonErp: bool, noShortSlot: bool, noHt: bool, noHtGf: bool, ht20: bool)

  datatype Kind = NoShortPreamble | NonErp | NoShortSlot | NoHt | NoHtGf | Ht20

  const NO_FLAGS: Flags := Flags(false, false, false, false, false, false)

  predicate Has(f: Flags, k: Kind) {
    match k
    case NoShortPreamble => f.noShortPreamble
    case NonErp => f.nonErp
    case NoShortSlot => f.noShortSlot
    case NoHt => f.noHt
    case NoHtGf => f.noHtGf
    case Ht20 => f.ht20
  }

  function One(b: bool): (n: nat) { if b then 1 else 0 }

  /** The number of stations counted for `k`. */
  function Count(s: seq<Flags>, k: Kind): (n: nat) {
    if s == [] then 0 else One(Has(s[0], k)) + Count(s[1..], k)
  }

  lemma {:induction false} CountConcat(s: seq<Flags>, t: seq<Flags>, k: Kind)
    ensures Count(s + t, k) == Count(s, k) + Count(t, k)
  {
    if s == [] {
      assert s + t == t;
    } else {
      CountConcat(s[1..], t, k);
      assert (s + t)[1..] == s[1..] + t;
    }
  }

  lemma CountAt(s: seq<Flags>, i: nat, k: Kind)
    requires i < |s|
    ensures Count(s, k) == Count(s[..i], k) + One(Has(s[i], k)) + Count(s[i + 1..], k)
  {
    assert s == s[..i] + s[i..] && s[i..][1..] == s[i + 1..];
    CountConcat(s[..i], s[i..], k);
  }

  lemma CountUpdate(s: seq<Flags>, i: nat, f: Flags, k: Kind)
    requires i < |s|
    ensures Count(s[i := f], k) == Count(s, k) - One(Has(s[i], k)) + One(Has(f, k))
  {
    var t := s[i := f];
    CountAt(s, i, k);
    CountAt(t, i, k);
    assert t[..i] == s[..i] && t[i + 1..] == s[i + 1..];
  }

  lemma CountRemove(s: seq<Flags>, i: nat, k: Kind)
    requires i < |s|
    ensures Count(RemoveAt(s, i), k) == Count(s, k) - One(Has(s[i], k))
  {
    CountAt(s, i, k);
    CountConcat(s[..i], s[i + 1..], k);
  }

  /** The six counters together. */
  datatype Nums = Nums(noShortPreamble: int, nonErp: int, noShortSlot: int, noHt: int, noHtGf: int, ht20: int)

  function Tally(s: seq<Flags>): (n: Nums) {
    Nums(Count(s, NoShortPreamble), Count(s, NonErp), Count(s, NoShortSlot), Count(s, NoHt), Count(s, NoHtGf),
        Count(s, Ht20))
  }

  /** The counters after a station's flags went from `f` to `g`. */
  function Shift(n: Nums, f: Flags, g: Flags): (r: Nums) {
    Nums(n.noShortPreamble - One(f.noShortPreamble) + One(g.noShortPreamble),
         n.nonErp - One(f.nonErp) + One(g.nonErp),
         n.noShortSlot - One(f.noShortSlot) + One(g.noShortSlot),
         n.noHt - One(f.noHt) + One(g.noHt),
         n.noHtGf - One(f.noHtGf) + One(g.noHtGf),
         n.ht20 - One(f.ht20) + One(g.ht20))
  }

  lemma ShiftTwice(n: Nums, f: Flags, g: Flags, h: Flags)
    ensures Shift(Shift(n, f, g), g, h) == Shift(n, f, h)
  {
  }

  lemma ShiftErp(n: Nums, f: Flags, want: bool)
    ensures Shift(n, f, f.(nonErp := want)) ==
            if want == f.nonErp then n else n.(nonErp := if want then n.nonErp + 1 else n.nonErp - 1)
  {
  }

  lemma TallyUpdate(s: seq<Flags>, i: nat, g: Flags)
    requires i < |s|
    ensures Tally(s[i := g]) == Shift(Tally(s), s[i], g)
  {
    hide Count;
    CountUpdate(s, i, g, NoShortPreamble);
    CountUpdate(s, i, g, NonErp);
    CountUpdate(s, i, g, NoShortSlot);
    CountUpdate(s, i, g, NoHt);
    CountUpdate(s, i, g, NoHtGf);
    CountUpdate(s, i, g, Ht20);
  }

  lemma TallyRemove(s: seq<Flags>, i: nat)
    requires i < |s|
    ensures Tally(RemoveAt(s, i)) == Shift(Tally(s), s[i], NO_FLAGS)
  {
    hide Count, RemoveAt;
    CountRemove(s, i, NoShortPreamble);
    CountRemove(s, i, NonErp);
    CountRemove(s, i, NoShortSlot);
    CountRemove(s, i, NoHt);
    CountRemove(s, i, NoHtGf);
    CountRemove(s, i, Ht20);
  }

  lemma TallyAppend(s: seq<Flags>)
    ensures Tally(s + [NO_FLAGS]) == Tally(s)
  {
    forall k: Kind ensures Count(s + [NO_FLAGS], k) == Count(s, k) {
      CountConcat(s, [NO_FLAGS], k);
    }
  }

  lemma TallyErp(s: seq<Flags>, i: nat)
    requires i < |s|
    ensures Tally(s).nonErp >= One(s[i].nonErp)
  {
    CountAt(s, i, NonErp);
  }

  /** A counter is positive exactly when some station is counted for it. */
  lemma {:induction false} CountPositive(s: seq<Flags>, k: Kind)
    ensures Count(s, k) > 0 <==> exists i | 0 <= i < |s| :: Has(s[i], k)
  {
    if s != [] {
      CountPositive(s[1..], k);
      if i :| 0 <= i < |s[1..]| && Has(s[1..][i], k) {
        assert Has(s[i + 1], k);
      }
      if i :| 0 <= i < |s| && Has(s[i], k) && !Has(s[0], k) {
        assert s[1..][i - 1] == s[i];
      }
    }
  }

  // ---------- the stations' histories ----------

  /** The flags of a station after it joins or joins again: the two HT flags are never taken back. */
  function Joined(c: Caps, f: Flags): (r: Flags) {
    Flags(!c.shortPreamble, c.nonErp, !c.shortSlot, !c.ht,
          f.noHtGf || (c.ht && !c.greenfield), f.ht20 || (c.ht && !c.width40))
  }

  /** What a station says in each join since it was associated. */
  type History = seq<Caps>

  function FlagsAfter(h: History): (f: Flags) {
    if h == [] then NO_FLAGS else Joined(h[|h| - 1], FlagsAfter(h[..|h| - 1]))
  }

  function FlagsOf(hs: seq<History>): (s: seq<Flags>)
    ensures |s| == |hs|
  {
    seq(|hs|, i requires 0 <= i < |hs| => FlagsAfter(hs[i]))
  }

  /** A station with these capabilities is one of those that `k` is to count. */
  predicate Lacks(c: Caps, k: Kind) {
    match k
    case NoShortPreamble => !c.shortPreamble
    case NonErp => c.nonErp
    case NoShortSlot => !c.shortSlot
    case NoHt => !c.ht
    case NoHtGf => c.ht && !c.greenfield
    case Ht20 => c.ht && !c.width40
  }

  predicate Sticky(k: Kind) {
    k.NoHtGf? || k.Ht20?
  }

  /** Four of the flags say what the last join said, the two HT flags what any of the joins said. */
  lemma {:induction false} FlagsAfterJoins(h: History, k: Kind)
    requires h != []
    ensures Has(FlagsAfter(h), k) <==>
            if Sticky(k) then exists m | 0 <= m < |h| :: Lacks(h[m], k) else Lacks(h[|h| - 1], k)
  {
    var t, c := h[..|h| - 1], h[|h| - 1];
    assert Has(FlagsAfter(h), k) <==> Lacks(c, k) || (Sticky(k) && Has(FlagsAfter(t), k));
    if t != [] {
      FlagsAfterJoins(t, k);
      assert forall m | 0 <= m < |t| :: t[m] == h[m];
    }
  }

  /** The number of stations with these capabilities that `k` is to count. */
  function Lacking(cs: seq<Caps>, k: Kind): (n: nat) {
    if cs == [] then 0 else One(Lacks(cs[0], k)) + Lacking(cs[1..], k)
  }

  ghost function Lackers(cs: seq<Caps>, k: Kind): (s: set<nat>) {
    set i: nat | i < |cs| && Lacks(cs[i], k)
  }

  lemma {:induction false} LackingIsSize(cs: seq<Caps>, k: Kind)
    ensures Lacking(cs, k) == |Lackers(cs, k)|
  {
    if cs != [] {
      var n := |cs| - 1;
      LackingSnoc(cs[..n], cs[n], k);
      assert cs == cs[..n] + [cs[n]];
      LackingIsSize(cs[..n], k);
      assert Lackers(cs, k) == if Lacks(cs[n], k) then Lackers(cs[..n], k) + {n} else Lackers(cs[..n], k);
    }
  }

  lemma {:induction false} LackingSnoc(cs: seq<Caps>, c: Caps, k: Kind)
    ensures Lacking(cs + [c], k) == Lacking(cs, k) + One(Lacks(c, k))
  {
    if cs != [] {
      LackingSnoc(cs[1..], c, k);
      assert (cs + [c])[1..] == cs[1..] + [c];
    }
  }

  lemma {:induction false} CountLacking(s: seq<Flags>, cs: seq<Caps>, k: Kind)
    requires |s| == |cs| && forall i | 0 <= i < |s| :: Lacks(cs[i], k) ==> Has(s[i], k)
    ensures Count(s, k) >= Lacking(cs, k)
    ensures Count(s, k) == Lacking(cs, k) <==> forall i | 0 <= i < |s| :: Has(s[i], k) ==> Lacks(cs[i], k)
  {
    if s != [] {
      CountLacking(s[1..], cs[1..], k);
      assert forall i | 0 <= i < |s| - 1 :: s[1..][i] == s[i + 1] && cs[1..][i] == cs[i + 1];
      if forall i | 0 <= i < |s[1..]| :: Has(s[1..][i], k) ==> Lacks(cs[1..][i], k) {
        forall i | 0 < i < |s| ensures Has(s[i], k) ==> Lacks(cs[i], k) {
          assert s[1..][i - 1] == s[i];
        }
      }
    }
  }

  /** The histories of the associated stations, and the preamble bit of the beacon. */
  datatype Bss = Bss(hs: seq<History>, barker: bool)

  function Num(hs: seq<History>, k: Kind): (n: nat) {
    Count(FlagsOf(hs), k)
  }

  datatype Event = Assoc(caps: Caps) | Reassoc(idx: nat, caps: Caps) | Gone(idx: nat)

  function NextHistories(hs: seq<History>, e: Event): (r: seq<History>) {
    match e
    case Assoc(c) => hs + [[c]]
    case Reassoc(i, c) => if i < |hs| then hs[i := hs[i] + [c]] else hs
    case Gone(i) => if i < |hs| then RemoveAt(hs, i) else hs
  }

  /** The beacon is updated when the first non-ERP station comes or the last one goes. */
  predicate Updates(hs: seq<History>, hs': seq<History>) {
    (Num(hs, NonErp) == 0) != (Num(hs', NonErp) == 0)
  }

  function Next(b: Bss, e: Event): (r: Bss) {
    var hs := NextHistories(b.hs, e);
    Bss(hs, if Updates(b.hs, hs) then Num(hs, NoShortPreamble) > 0 else b.barker)
  }

  function After(b: Bss, es: seq<Event>): (r: Bss) {
    if es == [] then b else Next(After(b, es[..|es| - 1]), es[|es| - 1])
  }

  lemma AfterOne(b: Bss, es: seq<Event>, k: nat)
    requires k < |es|
    ensures After(b, es[..k + 1]) == Next(After(b, es[..k]), es[k])
  {
    assert es[..k + 1][..k] == es[..k];
  }

  /** The preamble bit says whether a station without short preamble was associated when the beacon was last updated. */
  lemma {:induction false} BarkerIsOld(b: Bss, es: seq<Event>, m: nat)
    requires m <= |es|
    requires forall j | m <= j < |es| :: !Updates(After(b, es[..j]).hs, After(b, es[..j + 1]).hs)
    ensures After(b, es).barker == After(b, es[..m]).barker
    ensures m > 0 && Updates(After(b, es[..m - 1]).hs, After(b, es[..m]).hs) ==>
              (After(b, es).barker <==> Num(After(b, es[..m]).hs, NoShortPreamble) > 0)
    decreases |es|
  {
    hide Updates, Num, NextHistories;
    if m == |es| {
      assert es[..m] == es;
      if m > 0 { AfterOne(b, es, m - 1); }
    } else {
      var t := es[..|es| - 1];
      assert forall j | 0 <= j <= |t| :: t[..j] == es[..j];
      BarkerIsOld(b, t, m);
      AfterOne(b, es, |t|);
      assert es[..|t| + 1] == es && es[..|t|] == t;
    }
  }

  /** An ERP station without short preamble: it is counted, and the bit stays clear. */
  lemma BarkerExample()
    ensures var b := After(Bss([], false), [Assoc(Caps(false, false, true, true, true, true))]);
      Num(b.hs, NoShortPreamble) == 1 && !b.barker
  {
    var c := Caps(false, false, true, true, true, true);
    var es := [Assoc(c)];
    AfterOne(Bss([], false), es, 0);
    assert es[..1] == es && es[..0] == [];
    OneStation([c]);
  }

  lemma OneStation(h: History)
    ensures forall k :: Num([h], k) == One(Has(FlagsAfter(h), k)) && Num([], k) == 0
    ensures [] + [h] == [h]
  {
    assert FlagsOf([h]) == [FlagsAfter(h)] && FlagsOf([]) == [];
    forall k ensures Num([h], k) == One(Has(FlagsAfter(h), k)) && Num([], k) == 0 {
      assert Count([FlagsAfter(h)], k) == One(Has(FlagsAfter(h), k)) + Count([], k);
    }
  }

  // ---------- beacon contents ----------

  /** The HT operation word as its fields; `rest` are the bits this code does not touch. */
  datatype OpWord = OpWord(opMode: nat, nonGfPresent: bool, nonHtPresent: bool, rest: nat)

  const OP_MODE_PURE: nat := 0
  const OP_MODE_MAY_BE_LEGACY_STAS: nat := 1
  const OP_MODE_20MHZ_HT_STA_ASSOCED: nat := 2
  const OP_MODE_MIXED: nat := 3

  function OpMode(noHt: int, ht20: int, olbc: bool, width40: bool): (m: nat) {
    if noHt != 0 then OP_MODE_MIXED
    else if width40 && ht20 != 0 then OP_MODE_20MHZ_HT_STA_ASSOCED
    else if olbc then OP_MODE_MAY_BE_LEGACY_STAS
    else OP_MODE_PURE
  }

  /** The HT protection (section 9.4.2.57 of IEEE 802.11-2016) that the counters call for. */
  function HtWord(rest: nat, noGf: int, noHt: int, ht20: int, olbc: bool, width40: bool): (w: OpWord) {
    OpWord(OpMode(noHt, ht20, olbc, width40), noGf != 0, noHt != 0 || olbc, rest)
  }

  /** The bits of the ERP element (section 9.4.2.12): two for protection and one for the preamble. */
  predicate ErpBits(erp: bv8, protect: bool, barker: bool) {
    (erp & 1 != 0 <==> protect) && (erp & 2 != 0 <==> protect) && (erp & 4 != 0 <==> barker)
  }

  lemma SetProtection(e: bv8)
    ensures (e | 3) & 1 != 0 && (e | 3) & 2 != 0 && (e | 3) & 0xF8 == e & 0xF8
    ensures (e & !3) & 1 == 0 && (e & !3) & 2 == 0 && (e & !3) & 0xF8 == e & 0xF8
  {
  }

  lemma SetPreamble(e: bv8)
    ensures (e | 4) & 1 == e & 1 && (e | 4) & 2 == e & 2 && (e | 4) & 4 != 0 && (e | 4) & 0xF8 == e & 0xF8
    ensures (e & !4) & 1 == e & 1 && (e & !4) & 2 == e & 2 && (e & !4) & 4 == 0 && (e & !4) & 0xF8 == e & 0xF8
  {
  }

  class Sta {
    var caps: Caps
    var flags: Flags

    /** A station just allocated. */
    constructor (caps: Caps)
      ensures this.caps == caps && flags == NO_FLAGS
    {
      this.caps, flags := caps, NO_FLAGS;
    }
  }

  /** Each station has the flags its joins have given it, and the capabilities of its last join. */
  ghost predicate Follow(stas: seq<Sta>, hs: seq<History>)
    reads stas
  {
    && |stas| == |hs|
    && forall i | 0 <= i < |stas| ::
         stas[i].flags == FlagsAfter(hs[i]) && (hs[i] != [] ==> stas[i].caps == hs[i][|hs[i]| - 1])
  }

  class Ap {
    const htOption: bool
    const olbcHt: bool
    const width40: bool      // the AP itself supports 40 MHz
    const bssStarted: bool
    const erpEnable: bool
    var noShortPreamble: int
    var nonErp: int
    var noShortSlot: int
    var noHt: int
    var noHtGf: int
    var ht20: int
    var htOpMode: OpWord
    var erp: Option<bv8>     // the ERP element of the beacon, if it has one
    var stas: seq<Sta>       // the list of associated stations
    ghost var hs: seq<History>
    // whether a station was counted without short preamble when the ERP element was last updated
    ghost var barker: bool

    /** A fresh access point. */
    constructor (htOption: bool, width40: bool, bssStarted: bool, erpEnable: bool, erpPresent: bool)
      ensures Valid() && State() == Bss([], false)
      ensures this.htOption == htOption && this.width40 == width40
      ensures this.bssStarted == bssStarted && this.erpEnable == erpEnable && erp.Some? == erpPresent
    {
      this.htOption, this.olbcHt, this.width40, this.bssStarted, this.erpEnable := htOption, false, width40,
          bssStarted, erpEnable;
      noShortPreamble, nonErp, noShortSlot, noHt, noHtGf, ht20 := 0, 0, 0, 0, 0, 0;
      htOpMode := OpWord(OP_MODE_PURE, false, false, 0);
      erp := if erpPresent then Some(0) else None;
      stas, hs, barker := [], [], false;
    }

    function Now(): (n: Nums)
      reads this
    {
      Nums(noShortPreamble, nonErp, noShortSlot, noHt, noHtGf, ht20)
    }

    ghost function State(): (b: Bss)
      reads this
    {
      Bss(hs, barker)
    }

    ghost predicate HtOk()
      reads this
    {
      htOption ==> htOpMode == HtWord(htOpMode.rest, noHtGf, noHt, ht20, olbcHt, width40)
    }

    ghost predicate ErpOk()
      reads this
    {
      bssStarted && erpEnable && erp.Some? ==> ErpBits(erp.value, nonErp > 0, barker)
    }

    /** The counters, the HT operation word and the protection bits are what the associated stations call for. */
    ghost predicate Valid()
      reads this, stas
    {
      NoDup(stas) && Follow(stas, hs) && Now() == Tally(FlagsOf(hs)) && HtOk() && ErpOk()
    }

    /** `rtw_ht_operation_update`; the result counts the changes. */
    method HtOperationUpdate() returns (changes: nat)
      modifies `htOpMode
      ensures htOpMode == if htOption then HtWord(old(htOpMode).rest, noHtGf, noHt, ht20, olbcHt, width40)
          else old(htOpMode)
      ensures changes > 0 <==> htOpMode != old(htOpMode)
    {
      changes := 0;
      if !htOption {
        return;
      }
      if !htOpMode.nonGfPresent && noHtGf != 0 {
        htOpMode := htOpMode.(nonGfPresent := true);
        changes := changes + 1;
      } else if htOpMode.nonGfPresent && noHtGf == 0 {
        htOpMode := htOpMode.(nonGfPresent := false);
        changes := changes + 1;
      }
      if !htOpMode.nonHtPresent && (noHt != 0 || olbcHt) {
        htOpMode := htOpMode.(nonHtPresent := true);
        changes := changes + 1;
      } else if htOpMode.nonHtPresent && noHt == 0 && !olbcHt {
        htOpMode := htOpMode.(nonHtPresent := false);
        changes := changes + 1;
      }
      var newOpMode := OP_MODE_PURE;
      if noHt != 0 {
        newOpMode := OP_MODE_MIXED;
      } else if width40 && ht20 != 0 {
        newOpMode := OP_MODE_20MHZ_HT_STA_ASSOCED;
      } else if olbcHt {
        newOpMode := OP_MODE_MAY_BE_LEGACY_STAS;
      }
      if htOpMode.opMode != newOpMode {
        htOpMode := htOpMode.(opMode := newOpMode);
        changes := changes + 1;
      }
    }

    /** `update_beacon` for the ERP element, and `update_bcn_erpinfo_ie`. */
    method UpdateErp()
      modifies `erp, `barker
      ensures erp.Some? == old(erp).Some? && barker == (noShortPreamble > 0)
      ensures bssStarted && erpEnable && erp.Some? ==>
                ErpBits(erp.value, nonErp == 1, noShortPreamble > 0) && erp.value & 0xF8 == old(erp).value & 0xF8
      ensures !(bssStarted && erpEnable) ==> erp == old(erp)
    {
      barker := noShortPreamble > 0;
      if !bssStarted || !erpEnable || erp.None? {
        return;
      }
      SetProtection(erp.value);
      if nonErp == 1 {
        erp := Some(erp.value | 3);
      } else {
        erp := Some(erp.value & !3);
      }
      SetPreamble(erp.value);
      if noShortPreamble > 0 {
        erp := Some(erp.value | 4);
      } else {
        erp := Some(erp.value & !4);
      }
    }

    /** A station enters the list of associated stations. */
    method Associate(psta: Sta)
      requires Valid() && psta !in stas && psta.flags == NO_FLAGS
      modifies `stas, `hs
      ensures Valid() && stas == old(stas) + [psta] && hs == old(hs) + [[]]
      ensures Tally(FlagsOf(hs)) == Tally(FlagsOf(old(hs)))
    {
      hide Tally, ErpBits;
      TallyAppend(FlagsOf(hs));
      assert FlagsOf(hs + [[]]) == FlagsOf(hs) + [NO_FLAGS];
      stas, hs := stas + [psta], hs + [[]];
    }

    /** Counts a station, or no longer counts it, as one without short preamble. */
    method MarkPreamble(psta: Sta, want: bool)
      modifies `noShortPreamble, psta`flags
      ensures psta.flags == old(psta.flags).(noShortPreamble := want)
      ensures Now() == Shift(old(Now()), old(psta.flags), psta.flags)
    {
      if want {
        if !psta.flags.noShortPreamble {
          psta.flags := psta.flags.(noShortPreamble := true);
          noShortPreamble := noShortPreamble + 1;
        }
      } else {
        if psta.flags.noShortPreamble {
          psta.flags := psta.flags.(noShortPreamble := false);
          noShortPreamble := noShortPreamble - 1;
        }
      }
    }

    /** The same for short slot time. */
    method MarkSlot(psta: Sta, want: bool)
      modifies `noShortSlot, psta`flags
      ensures psta.flags == old(psta.flags).(noShortSlot := want)
      ensures Now() == Shift(old(Now()), old(psta.flags), psta.flags)
    {
      if want {
        if !psta.flags.noShortSlot {
          psta.flags := psta.flags.(noShortSlot := true);
          noShortSlot := noShortSlot + 1;
        }
      } else {
        if psta.flags.noShortSlot {
          psta.flags := psta.flags.(noShortSlot := false);
          noShortSlot := noShortSlot - 1;
        }
      }
    }

    /** The same for HT. */
    method MarkNoHt(psta: Sta, want: bool)
      modifies `noHt, psta`flags
      ensures psta.flags == old(psta.flags).(noHt := want)
      ensures Now() == Shift(old(Now()), old(psta.flags), psta.flags)
    {
      if want {
        if !psta.flags.noHt {
          psta.flags := psta.flags.(noHt := true);
          noHt := noHt + 1;
        }
      } else {
        if psta.flags.noHt {
          psta.flags := psta.flags.(noHt := false);
          noHt := noHt - 1;
        }
      }
    }

    /** The same for HT greenfield. */
    method MarkNoHtGf(psta: Sta, want: bool)
      modifies `noHtGf, psta`flags
      ensures psta.flags == old(psta.flags).(noHtGf := want)
      ensures Now() == Shift(old(Now()), old(psta.flags), psta.flags)
    {
      if want {
        if !psta.flags.noHtGf {
          psta.flags := psta.flags.(noHtGf := true);
          noHtGf := noHtGf + 1;
        }
      } else {
        if psta.flags.noHtGf {
          psta.flags := psta.flags.(noHtGf := false);
          noHtGf := noHtGf - 1;
        }
      }
    }

    /** The same for 20 MHz HT. */
    method MarkHt20(psta: Sta, want: bool)
      modifies `ht20, psta`flags
      ensures psta.flags == old(psta.flags).(ht20 := want)
      ensures Now() == Shift(old(Now()), old(psta.flags), psta.flags)
    {
      if want {
        if !psta.flags.ht20 {
          psta.flags := psta.flags.(ht20 := true);
          ht20 := ht20 + 1;
        }
      } else {
        if psta.flags.ht20 {
          psta.flags := psta.flags.(ht20 := false);
          ht20 := ht20 - 1;
        }
      }
    }

    /** The same for ERP; the beacon is updated with the first non-ERP station and after the last one. */
    method MarkErp(psta: Sta, want: bool)
      requires ErpOk() && nonErp >= One(psta.flags.nonErp)
      modifies `nonErp, `erp, `barker, psta`flags
      ensures ErpOk() && psta.flags == old(psta.flags).(nonErp := want)
      ensures Now() == Shift(old(Now()), old(psta.flags), psta.flags)
      ensures barker == if (nonErp == 0) != (old(nonErp) == 0) then noShortPreamble > 0 else old(barker)
    {
      hide ErpBits, Shift;
      ShiftErp(Now(), psta.flags, want);
      if want {
        if !psta.flags.nonErp {
          psta.flags := psta.flags.(nonErp := true);
          nonErp := nonErp + 1;
          if nonErp == 1 {
            UpdateErp();
          }
        }
      } else {
        if psta.flags.nonErp {
          psta.flags := psta.flags.(nonErp := false);
          nonErp := nonErp - 1;
          if nonErp == 0 {
            UpdateErp();
          }
        }
      }
    }

    /** The HT part of a join. */
    method MarkHt(psta: Sta)
      modifies `noHt, `noHtGf, `ht20, psta`flags
      ensures var f, c := old(psta.flags), psta.caps;
        psta.flags == f.(noHt := !c.ht, noHtGf := f.noHtGf || (c.ht && !c.greenfield),
                         ht20 := f.ht20 || (c.ht && !c.width40))
      ensures Now() == Shift(old(Now()), old(psta.flags), psta.flags)
    {
      hide Shift;
      ghost var n, f := Now(), psta.flags;
      MarkNoHt(psta, !psta.caps.ht);
      ghost var g := psta.flags;
      if psta.caps.ht && !psta.caps.greenfield {
        MarkNoHtGf(psta, true);
        ShiftTwice(n, f, g, psta.flags);
      }
      ghost var h := psta.flags;
      if psta.caps.ht && !psta.caps.width40 {
        MarkHt20(psta, true);
        ShiftTwice(n, f, h, psta.flags);
      }
    }

    /** `bss_cap_update_on_sta_join`, up to the HT operation word. */
    method CountJoin(psta: Sta)
      requires ErpOk() && nonErp >= One(psta.flags.nonErp)
      modifies `noShortPreamble, `nonErp, `noShortSlot, `noHt, `noHtGf, `ht20, `erp, `barker, psta`flags
      ensures psta.flags == Joined(psta.caps, old(psta.flags))
      ensures Now() == Shift(old(Now()), old(psta.flags), psta.flags)
      ensures ErpOk()
      ensures barker == if (nonErp == 0) != (old(nonErp) == 0) then noShortPreamble > 0 else old(barker)
    {
      hide ErpBits, One, Shift;
      ghost var n, f := Now(), psta.flags;
      MarkPreamble(psta, !psta.caps.shortPreamble);
      ghost var f1 := psta.flags;
      MarkedPreamble(n, f, f1);
      MarkErp(psta, psta.caps.nonErp);
      ShiftTwice(n, f, f1, psta.flags);
      ghost var f2 := psta.flags;
      MarkSlot(psta, !psta.caps.shortSlot);
      ShiftTwice(n, f, f2, psta.flags);
      ghost var f3 := psta.flags;
      MarkHt(psta);
      ShiftTwice(n, f, f3, psta.flags);
    }

    /** `bss_cap_update_on_sta_join` for the associated station `i`, which has the capabilities `caps` this time. */
    method Join(psta: Sta, caps: Caps, ghost i: nat)
      requires Valid() && i < |stas| && stas[i] == psta
      modifies `noShortPreamble, `nonErp, `noShortSlot, `noHt, `noHtGf, `ht20, `htOpMode, `erp, `barker, `hs, psta
      ensures Valid() && hs == old(hs)[i := old(hs)[i] + [caps]]
      ensures psta.caps == caps && psta.flags == Joined(caps, old(psta.flags))
      ensures barker == if Updates(old(hs), hs) then Num(hs, NoShortPreamble) > 0 else old(barker)
    {
      hide Tally, ErpBits, Shift, Joined, Count, FlagsAfter, FlagsOf;
      ghost var hs', f := hs[i := hs[i] + [caps]], psta.flags;
      FlagsRejoin(hs, i, caps);
      FlagsAt(hs, i);
      TallyErp(FlagsOf(hs), i);
      TallyUpdate(FlagsOf(hs), i, Joined(caps, f));
      TallyIs(hs);
      TallyIs(hs');
      psta.caps := caps;
      CountJoin(psta);
      var changes := HtOperationUpdate();
      OneJoined(i, caps);
      hs := hs';
    }

    /** Only station `i` has changed, by a join. */
    lemma OneJoined(i: nat, caps: Caps)
      requires |stas| == |hs| && i < |stas|
      requires stas[i].flags == FlagsAfter(hs[i] + [caps]) && stas[i].caps == caps
      requires forall j | 0 <= j < |stas| && j != i ::
                 stas[j].flags == FlagsAfter(hs[j]) && (hs[j] != [] ==> stas[j].caps == hs[j][|hs[j]| - 1])
      ensures Follow(stas, hs[i := hs[i] + [caps]])
    {
      hide FlagsAfter;
    }

    /** `bss_cap_update_on_sta_leave`, up to the HT operation word. */
    method CountLeave(psta: Sta)
      requires ErpOk() && nonErp >= One(psta.flags.nonErp)
      modifies `noShortPreamble, `nonErp, `noShortSlot, `noHt, `noHtGf, `ht20, `erp, `barker, psta`flags
      ensures psta.flags == NO_FLAGS
      ensures Now() == Shift(old(Now()), old(psta.flags), NO_FLAGS)
      ensures ErpOk()
      ensures barker == if (nonErp == 0) != (old(nonErp) == 0) then noShortPreamble > 0 else old(barker)
    {
      hide ErpBits, One, Shift;
      ghost var n, f := Now(), psta.flags;
      MarkPreamble(psta, false);
      ghost var f1 := psta.flags;
      MarkedPreamble(n, f, f1);
      MarkErp(psta, false);
      ShiftTwice(n, f, f1, psta.flags);
      ghost var f2 := psta.flags;
      MarkSlot(psta, false);
      ShiftTwice(n, f, f2, psta.flags);
      UnmarkHt(psta, n, f);
    }

    /** The HT part of a departure. */
    method UnmarkHt(psta: Sta, ghost n: Nums, ghost f: Flags)
      requires Now() == Shift(n, f, psta.flags)
      modifies `noHt, `noHtGf, `ht20, psta`flags
      ensures psta.flags == old(psta.flags).(noHtGf := false, noHt := false, ht20 := false)
      ensures Now() == Shift(n, f, psta.flags)
    {
      hide One, Shift;
      ghost var f3 := psta.flags;
      MarkNoHtGf(psta, false);
      ShiftTwice(n, f, f3, psta.flags);
      ghost var f4 := psta.flags;
      MarkNoHt(psta, false);
      ShiftTwice(n, f, f4, psta.flags);
      ghost var f5 := psta.flags;
      MarkHt20(psta, false);
      ShiftTwice(n, f, f5, psta.flags);
    }

    /** Station `i` goes off the list of associated stations, and `bss_cap_update_on_sta_leave` runs for it. */
    method Leave(psta: Sta, i: nat)
      requires Valid() && i < |stas| && stas[i] == psta
      modifies `noShortPreamble, `nonErp, `noShortSlot, `noHt, `noHtGf, `ht20, `htOpMode, `erp, `barker, `stas, `hs,
          psta`flags
      ensures Valid() && stas == RemoveAt(old(stas), i) && hs == RemoveAt(old(hs), i) && psta.flags == NO_FLAGS
      ensures barker == if Updates(old(hs), hs) then Num(hs, NoShortPreamble) > 0 else old(barker)
    {
      hide Tally, ErpBits, Shift, Count;
      ghost var hs' := RemoveAt(hs, i);
      assert FlagsOf(hs') == RemoveAt(FlagsOf(hs), i);
      TallyErp(FlagsOf(hs), i);
      TallyRemove(FlagsOf(hs), i);
      TallyIs(hs);
      TallyIs(hs');
      CountLeave(psta);
      var changes := HtOperationUpdate();
      RestKept(i);
      stas, hs := RemoveAt(stas, i), hs';
    }

    /** Only station `i` has changed. */
    lemma RestKept(i: nat)
      requires NoDup(stas) && |stas| == |hs| && i < |stas|
      requires forall j | 0 <= j < |stas| && j != i ::
                 stas[j].flags == FlagsAfter(hs[j]) && (hs[j] != [] ==> stas[j].caps == hs[j][|hs[j]| - 1])
      ensures Follow(RemoveAt(stas, i), RemoveAt(hs, i)) && NoDup(RemoveAt(stas, i))
    {
      hide FlagsAfter;
      var r, h := RemoveAt(stas, i), RemoveAt(hs, i);
      assert forall j | 0 <= j < |r| ::
          r[j] == stas[if j < i then j else j + 1] && h[j] == hs[if j < i then j else j + 1];
    }

    // ---------- what the beacon says of the stations ----------

    /** Every associated station has joined. */
    ghost predicate AllJoined()
      reads this
    {
      forall i | 0 <= i < |hs| :: hs[i] != []
    }

    ghost function CapsNow(): (cs: seq<Caps>)
      reads this, stas
      ensures |cs| == |stas| && forall i | 0 <= i < |cs| :: cs[i] == stas[i].caps
    {
      seq(|stas|, i requires 0 <= i < |stas| reads this, stas => stas[i].caps)
    }

    lemma FlagsAreLacks(k: Kind)
      requires Valid() && AllJoined()
      ensures |FlagsOf(hs)| == |stas|
      ensures forall i | 0 <= i < |stas| ::
                Has(FlagsOf(hs)[i], k) <==>
                if Sticky(k) then exists m | 0 <= m < |hs[i]| :: Lacks(hs[i][m], k) else Lacks(stas[i].caps, k)
      ensures forall i | 0 <= i < |stas| :: Lacks(stas[i].caps, k) ==> Has(FlagsOf(hs)[i], k)
    {
      hide FlagsAfter, Has, Lacks, ErpBits, Tally;
      forall i | 0 <= i < |stas|
        ensures Has(FlagsOf(hs)[i], k) <==>
                if Sticky(k) then exists m | 0 <= m < |hs[i]| :: Lacks(hs[i][m], k) else Lacks(stas[i].caps, k)
        ensures Lacks(stas[i].caps, k) ==> Has(FlagsOf(hs)[i], k)
      {
        FlagsAfterJoins(hs[i], k);
        assert FlagsOf(hs)[i] == FlagsAfter(hs[i]);
        assert stas[i].caps == hs[i][|hs[i]| - 1];
      }
    }

    /** The counters for preamble, ERP, slot time and HT are the numbers of associated stations without the
        capability. */
    lemma CountersAreNumbers()
      requires Valid() && AllJoined()
      ensures var cs := CapsNow();
        && noShortPreamble == |set i | 0 <= i < |cs| && !cs[i].shortPreamble|
        && nonErp == |set i | 0 <= i < |cs| && cs[i].nonErp|
        && noShortSlot == |set i | 0 <= i < |cs| && !cs[i].shortSlot|
        && noHt == |set i | 0 <= i < |cs| && !cs[i].ht|
    {
      hide Has, Count, FlagsOf, Lacking;
      var cs := CapsNow();
      forall k: Kind | !Sticky(k) ensures Count(FlagsOf(hs), k) == |Lackers(cs, k)| {
        FlagsAreLacks(k);
        CountLacking(FlagsOf(hs), cs, k);
        LackingIsSize(cs, k);
      }
      assert Lackers(cs, NoShortPreamble) == set i | 0 <= i < |cs| && !cs[i].shortPreamble;
      assert Lackers(cs, NonErp) == set i | 0 <= i < |cs| && cs[i].nonErp;
      assert Lackers(cs, NoShortSlot) == set i | 0 <= i < |cs| && !cs[i].shortSlot;
      assert Lackers(cs, NoHt) == set i | 0 <= i < |cs| && !cs[i].ht;
    }

    /** The two HT counters are at least those numbers, and equal them exactly when no associated station lacked the
        capability in an earlier join and has it now. */
    lemma HtCountersAreBounds(k: Kind)
      requires Valid() && AllJoined() && Sticky(k)
      ensures var n := if k.NoHtGf? then noHtGf else ht20;
        && n >= Lacking(CapsNow(), k)
        && (n == Lacking(CapsNow(), k) <==>
            forall i, m | 0 <= i < |stas| && 0 <= m < |hs[i]| :: Lacks(hs[i][m], k) ==> Lacks(stas[i].caps, k))
    {
      hide Has, Lacks, Count, FlagsOf, Lacking;
      FlagsAreLacks(k);
      CountLacking(FlagsOf(hs), CapsNow(), k);
      var cs := CapsNow();
      if forall i, m | 0 <= i < |stas| && 0 <= m < |hs[i]| :: Lacks(hs[i][m], k) ==> Lacks(stas[i].caps, k) {
        forall i | 0 <= i < |stas| ensures Has(FlagsOf(hs)[i], k) ==> Lacks(cs[i], k) {
        }
      }
      if forall i | 0 <= i < |stas| :: Has(FlagsOf(hs)[i], k) ==> Lacks(cs[i], k) {
        forall i, m | 0 <= i < |stas| && 0 <= m < |hs[i]| ensures Lacks(hs[i][m], k) ==> Lacks(stas[i].caps, k) {
          assert Lacks(hs[i][m], k) ==> Has(FlagsOf(hs)[i], k);
          assert cs[i] == stas[i].caps;
        }
      }
    }

    /** With the BSS started, ERP enabled and the element there, the two protection bits are set exactly when a non-ERP
        station is associated. */
    lemma ProtectionIffNonErp()
      requires Valid() && AllJoined() && bssStarted && erpEnable && erp.Some?
      ensures (erp.value & 1 != 0) <==> exists i | 0 <= i < |stas| :: stas[i].caps.nonErp
      ensures (erp.value & 2 != 0) <==> exists i | 0 <= i < |stas| :: stas[i].caps.nonErp
    {
      SomeStation(NonErp);
      assert forall i | 0 <= i < |stas| :: Lacks(stas[i].caps, NonErp) <==> stas[i].caps.nonErp;
    }

    lemma SomeStation(k: Kind)
      requires Valid() && AllJoined()
      ensures !Sticky(k) ==> (Count(FlagsOf(hs), k) > 0 <==> exists i | 0 <= i < |stas| :: Lacks(stas[i].caps, k))
      ensures Sticky(k) ==>
                (Count(FlagsOf(hs), k) > 0 <==> exists i, m | 0 <= i < |stas| && 0 <= m < |hs[i]| :: Lacks(hs[i][m], k))
    {
      hide Has, Lacks, Count, FlagsOf, ErpBits, Tally, FlagsAfter;
      FlagsAreLacks(k);
      CountPositive(FlagsOf(hs), k);
      if i, m :| Sticky(k) && 0 <= i < |stas| && 0 <= m < |hs[i]| && Lacks(hs[i][m], k) {
        assert Has(FlagsOf(hs)[i], k);
      }
    }

    /** Some associated station has no HT. */
    ghost predicate SomeNoHt()
      reads this, stas
    {
      exists i | 0 <= i < |stas| :: !stas[i].caps.ht
    }

    /** Some associated station has said in some join that it has HT without 40 MHz. */
    ghost predicate Some20()
      reads this
    {
      exists i, m | 0 <= i < |hs| && 0 <= m < |hs[i]| :: hs[i][m].ht && !hs[i][m].width40
    }

    /** The HT operation word in terms of the stations: mixed mode (3) exactly when one has no HT; else 20 MHz mode
        (2) exactly when the access point has 40 MHz and one has said in some join that it has HT without; else the
        mode for legacy stations nearby (1) exactly when there are overlapping ones; else the pure mode (0). Stations
        without greenfield are announced exactly when one has said so in some join, stations without HT exactly when
        there is one or one overlaps. */
    lemma HtWordMeans()
      requires Valid() && AllJoined() && htOption
      ensures htOpMode.opMode == 3 <==> exists i | 0 <= i < |stas| :: !stas[i].caps.ht
      ensures htOpMode.opMode == 2 <==>
              !SomeNoHt() && width40
              && exists i, m | 0 <= i < |stas| && 0 <= m < |hs[i]| :: hs[i][m].ht && !hs[i][m].width40
      ensures htOpMode.opMode == 1 <==> !SomeNoHt() && !(width40 && Some20()) && olbcHt
      ensures htOpMode.opMode == 0 <==> !SomeNoHt() && !(width40 && Some20()) && !olbcHt
      ensures htOpMode.nonGfPresent <==>
              exists i, m | 0 <= i < |stas| && 0 <= m < |hs[i]| :: hs[i][m].ht && !hs[i][m].greenfield
      ensures htOpMode.nonHtPresent <==> olbcHt || exists i | 0 <= i < |stas| :: !stas[i].caps.ht
    {
      hide Count, FlagsOf, Has, Tally, ErpBits, Follow;
      SomeStation(NoHt);
      SomeStation(NoHtGf);
      SomeStation(Ht20);
      TallyHt(hs);
      assert |hs| == |stas| by { FollowSize(stas, hs); }
      assert forall i | 0 <= i < |stas| :: Lacks(stas[i].caps, NoHt) <==> !stas[i].caps.ht;
      assert forall i, m | 0 <= i < |stas| && 0 <= m < |hs[i]| ::
          && (Lacks(hs[i][m], NoHtGf) <==> hs[i][m].ht && !hs[i][m].greenfield)
          && (Lacks(hs[i][m], Ht20) <==> hs[i][m].ht && !hs[i][m].width40);
    }

    /** The preamble bit is the one of the last update, whatever joined or left since. */
    lemma PreambleBit()
      requires Valid() && bssStarted && erpEnable && erp.Some?
      ensures (erp.value & 4 != 0) == barker
    {
    }
  }

  /** A join adds to the history of one station. */
  lemma FlagsRejoin(hs: seq<History>, i: nat, c: Caps)
    requires i < |hs|
    ensures FlagsAfter(hs[i] + [c]) == Joined(c, FlagsAfter(hs[i]))
    ensures FlagsOf(hs[i := hs[i] + [c]]) == FlagsOf(hs)[i := Joined(c, FlagsAfter(hs[i]))]
  {
    var h := hs[i] + [c];
    assert h[..|h| - 1] == hs[i];
  }

  lemma FlagsAt(hs: seq<History>, i: nat)
    requires i < |hs|
    ensures FlagsOf(hs)[i] == FlagsAfter(hs[i])
  {
  }

  lemma TallyIs(hs: seq<History>)
    ensures Tally(FlagsOf(hs)).nonErp == Num(hs, NonErp)
    ensures Tally(FlagsOf(hs)).noShortPreamble == Num(hs, NoShortPreamble)
  {
  }

  lemma TallyHt(hs: seq<History>)
    ensures var n := Tally(FlagsOf(hs));
      n.noHt == Count(FlagsOf(hs), NoHt) && n.noHtGf == Count(FlagsOf(hs), NoHtGf) && n.ht20 == Count(FlagsOf(hs), Ht20)
  {
  }

  lemma FollowSize(stas: seq<Sta>, hs: seq<History>)
    requires Follow(stas, hs)
    ensures |stas| == |hs|
  {
  }

  lemma MarkedPreamble(n: Nums, f: Flags, g: Flags)
    ensures Shift(n, f, g).nonErp == n.nonErp - One(f.nonErp) + One(g.nonErp)
  {
  }

  /** Any run of associations, reassociations and departures. */
  method Run(ap: Ap, events: seq<Event>)
    requires ap.Valid() && ap.AllJoined()
    modifies ap, ap.stas
    ensures ap.Valid() && ap.AllJoined()
    ensures ap.State() == After(old(ap.State()), events)
    ensures forall i | 0 <= i < |ap.stas| :: ap.stas[i] in old(ap.stas) || fresh(ap.stas[i])
  {
    hide After, Updates, Num, FlagsOf, Tally;
    assert events[..0] == [];
    AfterNone(ap.State());
    for k := 0 to |events|
      invariant ap.Valid() && ap.AllJoined()
      invariant ap.State() == After(old(ap.State()), events[..k])
      invariant forall i | 0 <= i < |ap.stas| :: ap.stas[i] in old(ap.stas) || fresh(ap.stas[i])
    {
      AfterOne(old(ap.State()), events, k);
      Handle(ap, events[k]);
    }
    assert events[..|events|] == events;
  }

  lemma AfterNone(b: Bss)
    ensures After(b, []) == b
  {
  }

  method Handle(ap: Ap, event: Event)
    requires ap.Valid() && ap.AllJoined()
    modifies ap, ap.stas
    ensures ap.Valid() && ap.AllJoined()
    ensures ap.State() == Next(old(ap.State()), event)
    ensures forall i | 0 <= i < |ap.stas| :: ap.stas[i] in old(ap.stas) || fresh(ap.stas[i])
  {
    hide FlagsOf, Tally, Updates, Num, ErpBits;
    SameHistories(ap.hs);
    match event {
      case Assoc(caps) =>
        Arrive(ap, caps);
      case Reassoc(i, caps) =>
        if i < |ap.stas| {
          ap.Join(ap.stas[i], caps, i);
        }
      case Gone(i) =>
        if i < |ap.stas| {
          ap.Leave(ap.stas[i], i);
        }
    }
  }

  lemma SameHistories(hs: seq<History>)
    ensures !Updates(hs, hs)
  {
  }

  /** A new station is associated and joins. */
  method Arrive(ap: Ap, caps: Caps)
    requires ap.Valid()
    modifies ap
    ensures ap.Valid() && ap.State() == Next(old(ap.State()), Assoc(caps))
    ensures |ap.stas| == |old(ap.stas)| + 1 && ap.stas[..|old(ap.stas)|] == old(ap.stas)
    ensures fresh(ap.stas[|old(ap.stas)|])
  {
    hide FlagsOf, Tally, ErpBits, Count;
    ghost var hs, n := ap.hs, |ap.hs|;
    var psta := new Sta(caps);
    ap.Associate(psta);
    TallyIs(hs);
    TallyIs(ap.hs);
    ap.Join(psta, caps, |ap.stas| - 1);
    assert (hs + [[]])[n := [] + [caps]] == hs + [[caps]];
  }

  /** A station that joins without greenfield and joins again with it: the only station supports greenfield, and the
      access point counts and announces one that does not. */
  method RejoinExample() returns (ap: Ap)
    ensures fresh(ap) && ap.Valid() && ap.AllJoined() && |ap.stas| == 1
    ensures ap.stas[0].caps.ht && ap.stas[0].caps.greenfield
    ensures ap.noHtGf == 1 && ap.htOpMode.nonGfPresent
  {
    var c, d := Caps(true, false, true, true, false, true), Caps(true, false, true, true, true, true);
    ap := new Ap(true, true, true, true, true);
    Run(ap, [Assoc(c), Reassoc(0, d)]);
    RejoinHistory(c, d);
    OneStation([c, d]);
    FlagsAfterJoins([c, d], NoHtGf);
    assert Lacks([c, d][0], NoHtGf);
  }

  lemma RejoinHistory(c: Caps, d: Caps)
    ensures After(Bss([], false), [Assoc(c), Reassoc(0, d)]).hs == [[c, d]]
  {
    var b, es := Bss([], false), [Assoc(c), Reassoc(0, d)];
    AfterOne(b, es, 0);
    AfterOne(b, es, 1);
    assert es[..0] == [] && es[..2] == es;
    assert [c] + [d] == [c, d];
  }
}
