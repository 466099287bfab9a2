/** The sounding scheduler of kernel/core/rtw_beamforming.c (RTW_BEAMFORMING_VERSION_2). */
module Beamforming {
  import opened SoundingLog

  const MAX_SU: nat := 2
  const MAX_MU: nat := 6
  const MAX_ENTRY: nat := 8
  const NO_ENTRY: nat := 255
  const NO_PERIOD: nat := 0xFFFF

  datatype State = None | Init | SuStart | SuSoundDown | MuStart | MuSoundDown | Timeout

  /** `struct beamformee_entry`. */
  datatype Bfee = Bfee(
    used: bool, added: bool, vhtMu: bool, vhtSu: bool, htExplicit: bool,
    soundPeriod: nat, soundCnt: nat, candidate: bool,
    sounding: bool, timeout: bool, delete: bool, apply: bool, suspend: bool, failCnt: nat)

  /** The commands that the scheduler sends itself; `Leave` carries the entry that is to go. */
  datatype Cmd = StartPeriod | EndPeriod(status: bool) | Leave(idx: nat)

  // ---------- the lists of a period ----------

  /** `SoundCnt` lets the entry be sounded in this period. */
  predicate Due(e: Bfee) {
    e.used && e.added && e.soundCnt <= 1
  }

  predicate MuDue(e: Bfee) {
    Due(e) && e.vhtMu && e.apply
  }

  predicate SuDue(e: Bfee) {
    Due(e) && !e.vhtMu && (e.vhtSu || e.htExplicit) && (e.delete || (e.apply && !e.suspend))
  }

  /** The entries below `n` to be sounded one by one, as far as the list has room. */
  function SuList(es: seq<Bfee>, n: nat): (l: seq<nat>)
    requires n <= |es|
    ensures |l| <= MAX_SU
    ensures forall k | 0 <= k < |l| :: l[k] < n && SuDue(es[l[k]])
  {
    if n == 0 then []
    else
      var l := SuList(es, n - 1);
      if |l| < MAX_SU && SuDue(es[n - 1]) then l + [n - 1] else l
  }

  function MuList(es: seq<Bfee>, n: nat): (l: seq<nat>)
    requires n <= |es|
    ensures |l| <= MAX_MU
    ensures forall k | 0 <= k < |l| :: l[k] < n && MuDue(es[l[k]])
  {
    if n == 0 then []
    else
      var l := MuList(es, n - 1);
      if |l| < MAX_MU && MuDue(es[n - 1]) then l + [n - 1] else l
  }

  /** The entry after `_sounding_get_list`; `listed` says whether it went into a list. */
  function Prepared(e: Bfee, listed: bool, minPeriod: nat): (r: Bfee)
    requires e.used ==> minPeriod > 0
  {
    if !e.used || !e.added then e
    else if e.soundCnt > 1 then e.(soundCnt := e.soundCnt - 1)
    else if listed && (e.vhtMu || !e.delete) then e.(soundCnt := e.soundPeriod / minPeriod, candidate := true)
    else e.(soundCnt := 0)
  }

  predicate Joins(es: seq<Bfee>, i: nat)
    requires i < |es|
  {
    (|MuList(es, i)| < MAX_MU && MuDue(es[i])) || (|SuList(es, i)| < MAX_SU && SuDue(es[i]))
  }

  /** Entry `i` after `_sounding_get_list`. */
  function After(es: seq<Bfee>, i: nat, minPeriod: nat): (r: Bfee)
    requires i < |es| && (es[i].used ==> minPeriod > 0)
    ensures r.sounding == es[i].sounding && r.used == es[i].used && r.soundPeriod == es[i].soundPeriod
    ensures r.failCnt == es[i].failCnt
  {
    Prepared(es[i], Joins(es, i), minPeriod)
  }

  /** A list of `n` slots. */
  function Slots(l: seq<nat>, n: nat): (s: seq<nat>)
    requires |l| <= n
    ensures |s| == n
  {
    l + seq(n - |l|, _ => NO_ENTRY)
  }

  lemma SlotsAppend(l: seq<nat>, n: nat, x: nat)
    requires |l| < n
    ensures Slots(l, n)[|l| := x] == Slots(l + [x], n)
  {
  }

  lemma NoLists(es: seq<Bfee>)
    ensures SuList(es, 0) == [] && MuList(es, 0) == []
  {
  }

  lemma ListsNext(es: seq<Bfee>, i: nat)
    requires i < |es|
    ensures SuList(es, i + 1) == if |SuList(es, i)| < MAX_SU && SuDue(es[i]) then SuList(es, i) + [i] else SuList(es, i)
    ensures MuList(es, i + 1) == if |MuList(es, i)| < MAX_MU && MuDue(es[i]) then MuList(es, i) + [i] else MuList(es, i)
  {
  }

  /** The first `max` positions below `n` where `w` holds. */
  function Firsts(w: seq<bool>, n: nat, max: nat): (l: seq<nat>)
    requires n <= |w|
    ensures |l| <= max
  {
    if n == 0 then []
    else
      var l := Firsts(w, n - 1, max);
      if |l| < max && w[n - 1] then l + [n - 1] else l
  }

  lemma {:induction false} FirstsMean(w: seq<bool>, n: nat, max: nat)
    requires n <= |w|
    ensures var l := Firsts(w, n, max);
      && (forall i | i in l :: i < n && w[i])
      && (forall a, b | 0 <= a < b < |l| :: l[a] < l[b])
  {
    if n > 0 {
      FirstsMean(w, n - 1, max);
      var p := Firsts(w, n - 1, max);
      assert forall k | 0 <= k < |p| :: p[k] in p;
    }
  }

  lemma {:induction false} FirstsHold(w: seq<bool>, n: nat, max: nat, i: nat)
    requires i < n <= |w| && w[i]
    ensures var l := Firsts(w, n, max); i in l || (|l| == max && forall j | j in l :: j < i)
  {
    var l := Firsts(w, n - 1, max);
    FirstsMean(w, n - 1, max);
    if i < n - 1 {
      FirstsHold(w, n - 1, max, i);
      assert i in l ==> i in l + [n - 1];
    } else if |l| < max {
      assert Firsts(w, n, max)[|l|] == i;
    }
  }

  /** Which entries ask for a sounding of their own, and which for the multi-user round. */
  function WantSu(es: seq<Bfee>): (w: seq<bool>)
    ensures |w| == |es|
    ensures forall j | 0 <= j < |es| ::
              w[j] <==> es[j].used && es[j].added && es[j].soundCnt <= 1 && !es[j].vhtMu
                        && (es[j].vhtSu || es[j].htExplicit) && (es[j].delete || (es[j].apply && !es[j].suspend))
  {
    seq(|es|, j requires 0 <= j < |es| => SuDue(es[j]))
  }

  function WantMu(es: seq<Bfee>): (w: seq<bool>)
    ensures |w| == |es|
    ensures forall j | 0 <= j < |es| ::
              w[j] <==> es[j].used && es[j].added && es[j].soundCnt <= 1 && es[j].vhtMu && es[j].apply
  {
    seq(|es|, j requires 0 <= j < |es| => MuDue(es[j]))
  }

  lemma {:induction false} ListsAreFirsts(es: seq<Bfee>, n: nat)
    requires n <= |es|
    ensures SuList(es, n) == Firsts(WantSu(es), n, 2) && MuList(es, n) == Firsts(WantMu(es), n, 6)
  {
    hide SuDue, MuDue, SuList, MuList, WantSu, WantMu, Firsts;
    if n > 0 {
      ListsAreFirsts(es, n - 1);
      ListsNext(es, n - 1);
      WantsAre(es, n - 1);
      FirstsNext(WantSu(es), n, 2);
      FirstsNext(WantMu(es), n, 6);
    } else {
      NoLists(es);
      NoFirsts(WantSu(es), 2);
      NoFirsts(WantMu(es), 6);
    }
  }

  lemma WantsAre(es: seq<Bfee>, i: nat)
    requires i < |es|
    ensures WantSu(es)[i] == SuDue(es[i]) && WantMu(es)[i] == MuDue(es[i])
  {
  }

  lemma FirstsNext(w: seq<bool>, n: nat, max: nat)
    requires 0 < n <= |w|
    ensures var l := Firsts(w, n - 1, max); Firsts(w, n, max) == if |l| < max && w[n - 1] then l + [n - 1] else l
  {
  }

  lemma NoFirsts(w: seq<bool>, max: nat)
    ensures Firsts(w, 0, max) == []
  {
  }

  /** The two lists of a period, in ascending order: an entry that asks for a sounding of its own is on the first
      unless two before it are, and one that asks for the multi-user round is on the second unless six before it are.
      */
  lemma ListsMean(es: seq<Bfee>)
    requires |es| == MAX_ENTRY
    ensures var l := SuList(es, MAX_ENTRY);
      && |l| <= 2 && (forall a, b | 0 <= a < b < |l| :: l[a] < l[b])
      && (forall i | i in l :: i < MAX_ENTRY && WantSu(es)[i])
      && (forall i | 0 <= i < MAX_ENTRY && WantSu(es)[i] :: i in l || (|l| == 2 && forall j | j in l :: j < i))
    ensures var l := MuList(es, MAX_ENTRY);
      && |l| <= 6 && (forall a, b | 0 <= a < b < |l| :: l[a] < l[b])
      && (forall i | i in l :: i < MAX_ENTRY && WantMu(es)[i])
      && (forall i | 0 <= i < MAX_ENTRY && WantMu(es)[i] :: i in l || (|l| == 6 && forall j | j in l :: j < i))
  {
    ListsAreFirsts(es, MAX_ENTRY);
    FirstsMean(WantSu(es), MAX_ENTRY, 2);
    FirstsMean(WantMu(es), MAX_ENTRY, 6);
    hide WantSu, WantMu, SuList, MuList, Firsts;
    forall i | 0 <= i < MAX_ENTRY && WantSu(es)[i]
      ensures var l := SuList(es, MAX_ENTRY); i in l || (|l| == 2 && forall j | j in l :: j < i)
    {
      FirstsHold(WantSu(es), MAX_ENTRY, 2, i);
    }
    forall i | 0 <= i < MAX_ENTRY && WantMu(es)[i]
      ensures var l := MuList(es, MAX_ENTRY); i in l || (|l| == 6 && forall j | j in l :: j < i)
    {
      FirstsHold(WantMu(es), MAX_ENTRY, 6, i);
    }
  }

  /** An entry after `n` periods, in each of which it gets on a list if it is due. */
  function Periods(e: Bfee, minPeriod: nat, n: nat): (r: Bfee)
    requires minPeriod > 0
  {
    if n == 0 then e else Prepared(Periods(e, minPeriod, n - 1), true, minPeriod)
  }

  /** A beamformee that is due and always gets on a list when it is is due again after `soundPeriod / minPeriod`
      periods, or in the next one, and not before. */
  lemma DueOnceInItsPeriod(e: Bfee, minPeriod: nat, n: nat)
    requires minPeriod > 0 && e.used && e.added && (e.vhtMu || !e.delete) && e.soundCnt <= 1
    requires 1 <= n && (n == 1 || n <= e.soundPeriod / minPeriod)
    ensures var c, r := e.soundPeriod / minPeriod, Periods(e, minPeriod, n);
      && r == e.(soundCnt := r.soundCnt, candidate := true)
      && (r.soundCnt <= 1 <==> n >= c)
  {
    DueCount(e, minPeriod, n);
  }

  lemma {:induction false} DueCount(e: Bfee, minPeriod: nat, n: nat)
    requires minPeriod > 0 && e.used && e.added && (e.vhtMu || !e.delete) && e.soundCnt <= 1
    requires 1 <= n && (n == 1 || n <= e.soundPeriod / minPeriod)
    ensures var r := Periods(e, minPeriod, n);
      r == e.(soundCnt := e.soundPeriod / minPeriod - (n - 1), candidate := true)
  {
    var p := Periods(e, minPeriod, n - 1);
    if n > 1 {
      DueCount(e, minPeriod, n - 1);
    } else {
      assert p == e;
    }
    assert Periods(e, minPeriod, n) == Prepared(p, true, minPeriod);
  }

  predicate MuJoins(es: seq<Bfee>, i: nat)
    requires i < |es|
  {
    es[i].vhtMu && es[i].apply && |MuList(es, i)| < MAX_MU
  }

  predicate SuJoins(es: seq<Bfee>, i: nat)
    requires i < |es|
  {
    !es[i].vhtMu && (es[i].vhtSu || es[i].htExplicit) && |SuList(es, i)| < MAX_SU
        && (es[i].delete || (es[i].apply && !es[i].suspend))
  }

  /** What considering entry `i` does to it and to the lists. */
  lemma Considered(es: seq<Bfee>, i: nat, minPeriod: nat)
    requires i < |es| && (es[i].used ==> minPeriod > 0)
    ensures !Due(es[i]) ==> SuList(es, i + 1) == SuList(es, i) && MuList(es, i + 1) == MuList(es, i)
    ensures !es[i].used || !es[i].added ==> After(es, i, minPeriod) == es[i]
    ensures es[i].used && es[i].added && es[i].soundCnt > 1
        ==> After(es, i, minPeriod) == es[i].(soundCnt := es[i].soundCnt - 1)
    ensures Due(es[i]) ==>
              && SuList(es, i + 1) == (if SuJoins(es, i) then SuList(es, i) + [i] else SuList(es, i))
              && MuList(es, i + 1) == (if MuJoins(es, i) then MuList(es, i) + [i] else MuList(es, i))
              && After(es, i, minPeriod) == (if MuJoins(es, i) || (SuJoins(es, i) && !es[i].delete)
                                             then es[i].(candidate := true, soundCnt := es[i].soundPeriod / minPeriod)
                                             else es[i].(soundCnt := 0))
  {
    ListsNext(es, i);
  }

  predicate NotReady(e: Bfee) {
    e.used && !e.added
  }

  /** The slots of listed beamformees that have not been started. */
  function Open(list: seq<nat>, es: seq<Bfee>): (n: nat)
  {
    if list == [] then 0
    else (if list[0] < |es| && !es[list[0]].sounding then 1 else 0) + Open(list[1..], es)
  }

  /** The first such slot, or the length of the list. */
  function FirstOpen(list: seq<nat>, es: seq<Bfee>): (i: nat)
    ensures i <= |list|
  {
    if list == [] || (list[0] < |es| && !es[list[0]].sounding) then 0 else 1 + FirstOpen(list[1..], es)
  }

  /** What a period does next: the first beamformee not started, the multi-user round, or its end. */
  function NextItem(list: seq<nat>, es: seq<Bfee>, muCnt: nat): (x: Item) {
    var i := FirstOpen(list, es);
    if i < |list| then Su(list[i]) else if muCnt > 0 then Mu else Done
  }

  lemma {:induction false} FirstOpenMeans(list: seq<nat>, es: seq<Bfee>)
    ensures var i := FirstOpen(list, es);
      && (i < |list| ==> list[i] < |es| && !es[list[i]].sounding)
      && (forall j | 0 <= j < i && list[j] < |es| :: es[list[j]].sounding)
  {
    if list != [] { FirstOpenMeans(list[1..], es); }
  }

  /** What the handler starts: the first of the list not sounded yet; the multi-user round when all of them are, if it
      is still to come; else nothing, and the period is over. */
  lemma NextMeans(list: seq<nat>, es: seq<Bfee>, muCnt: nat)
    ensures var x := NextItem(list, es, muCnt);
      && (x.Su? ==> exists k | 0 <= k < |list| ::
            && list[k] == x.idx && x.idx < |es| && !es[x.idx].sounding
            && forall j | 0 <= j < k && list[j] < |es| :: es[list[j]].sounding)
      && (x == Mu <==> muCnt > 0 && forall j | 0 <= j < |list| && list[j] < |es| :: es[list[j]].sounding)
      && (x == Done <==> muCnt == 0 && forall j | 0 <= j < |list| && list[j] < |es| :: es[list[j]].sounding)
  {
    FirstOpenMeans(list, es);
    hide FirstOpen;
  }

  lemma FirstOpenStep(list: seq<nat>, es: seq<Bfee>, i: nat)
    requires i <= |list|
    ensures FirstOpen(list[i..], es)
         == if i < |list| && !(list[i] < |es| && !es[list[i]].sounding) then 1 + FirstOpen(list[i + 1..], es) else 0
  {
    if i < |list| { assert list[i..][1..] == list[i + 1..]; }
  }

  ghost predicate SameSounding(es: seq<Bfee>, fs: seq<Bfee>) {
    |es| == |fs| && forall i | 0 <= i < |es| :: es[i].sounding == fs[i].sounding
  }

  lemma {:induction false} OpenSame(list: seq<nat>, es: seq<Bfee>, fs: seq<Bfee>)
    requires SameSounding(es, fs)
    ensures Open(list, es) == Open(list, fs)
  {
    if list != [] { OpenSame(list[1..], es, fs); }
  }

  lemma {:induction false} OpenStarted(list: seq<nat>, es: seq<Bfee>, i: nat)
    requires i < |es| && !es[i].sounding
    ensures Open(list, es[i := es[i].(sounding := true, timeout := false)]) <= Open(list, es)
    ensures i in list ==> Open(list, es[i := es[i].(sounding := true, timeout := false)]) < Open(list, es)
  {
    if list != [] { OpenStarted(list[1..], es, i); }
  }

  // ---------- the state between events ----------

  /** The log is a good one, and the flags of the listed beamformees say what has happened in this period. */
  ghost predicate CoreOf(es: seq<Bfee>, suList: seq<nat>, muCnt: nat, st: State, cur: nat, log: Log) {
    && |es| == MAX_ENTRY && Good(log)
    && (forall k | 0 <= k < |suList| :: suList[k] < MAX_ENTRY ==> suList[k] in Listed(log))
    && (forall i | i in Listed(log) :: i < MAX_ENTRY && i in suList && (es[i].sounding <==> Happened(log, Su(i))))
    && (Happened(log, Mu) ==> muCnt == 0 && forall i | i in Listed(log) :: Happened(log, Su(i)))
    && (muCnt == 0 <==> ListedMu(log) == [] || Happened(log, Mu))
    && (st == SuStart ==> cur < MAX_ENTRY && cur in Listed(log) && !es[cur].timeout)
  }

  lemma SuStarted(es: seq<Bfee>, suList: seq<nat>, muCnt: nat, st: State, cur: nat, log: Log, i: nat)
    requires CoreOf(es, suList, muCnt, st, cur, log) && i < MAX_ENTRY && i in suList && !es[i].sounding
    ensures CoreOf(es[i := es[i].(sounding := true, timeout := false)], suList, muCnt, SuStart, i, log + [Su(i)])
  {
    Append(log, Su(i));
  }

  lemma MuStarted(es: seq<Bfee>, fs: seq<Bfee>, suList: seq<nat>, muCnt: nat, st: State, cur: nat, cur': nat, log: Log)
    requires CoreOf(es, suList, muCnt, st, cur, log) && muCnt > 0
    requires forall k | 0 <= k < |suList| :: suList[k] < MAX_ENTRY ==> es[suList[k]].sounding
    requires |fs| == |es| && forall i | 0 <= i < |es| :: es[i].sounding ==> fs[i].sounding
    ensures CoreOf(fs, suList, 0, MuStart, cur', log + [Mu])
  {
    Append(log, Mu);
    forall k | 0 <= k < |Listed(log)| ensures Happened(log, Su(Listed(log)[k])) {
      assert Listed(log)[k] in Listed(log);
    }
  }

  lemma PeriodStarted(es: seq<Bfee>, fs: seq<Bfee>, muCnt: nat, cur: nat, st: State, log: Log)
    requires Good(log) && |es| == |fs| == MAX_ENTRY && SameSounding(es, fs) && st != SuStart
    requires forall i | 0 <= i < |es| :: es[i].used ==> !es[i].sounding
    requires muCnt == |MuList(es, MAX_ENTRY)|
    ensures var l, m := SuList(es, MAX_ENTRY), MuList(es, MAX_ENTRY); CoreOf(fs, Slots(l, MAX_SU), muCnt, st, cur,
        log + [Start(l, m)])
  {
    var l := SuList(es, MAX_ENTRY);
    Append(log, Start(l, MuList(es, MAX_ENTRY)));
    var s := Slots(l, MAX_SU);
    forall i | i in l ensures i < MAX_ENTRY && i in s && !es[i].sounding {
      var k :| 0 <= k < |l| && l[k] == i;
      assert s[k] == i && SuDue(es[l[k]]);
    }
    forall k | 0 <= k < |s| && s[k] < MAX_ENTRY ensures s[k] in l {
      assert k < |l|;
    }
  }

  lemma CoreKeep(es: seq<Bfee>, fs: seq<Bfee>, suList: seq<nat>, muCnt: nat, st: State, st': State, cur: nat, log: Log)
    requires CoreOf(es, suList, muCnt, st, cur, log) && SameSounding(es, fs) && st' != SuStart
    ensures CoreOf(fs, suList, muCnt, st', cur, log)
  {
  }

  function ResetEntry(e: Bfee): (r: Bfee) {
    if e.used && e.sounding then e.(sounding := false, candidate := false) else e
  }

  function Cleared(es: seq<Bfee>): (r: seq<Bfee>)
    ensures |r| == |es|
  {
    seq(|es|, i requires 0 <= i < |es| => ResetEntry(es[i]))
  }

  function NewPeriod(es: seq<Bfee>): (x: Item)
    requires |es| == MAX_ENTRY
  {
    Start(SuList(es, MAX_ENTRY), MuList(es, MAX_ENTRY))
  }

  lemma AllStarted(es: seq<Bfee>, suList: seq<nat>, st: State, cur: nat, log: Log)
    requires CoreOf(es, suList, 0, st, cur, log)
    requires forall k | 0 <= k < |suList| :: suList[k] < MAX_ENTRY ==> es[suList[k]].sounding
    ensures CoreOf(es, suList, 0, Init, cur, log + [Done])
  {
    Append(log, Done);
    forall k | 0 <= k < |Listed(log)| ensures Happened(log, Su(Listed(log)[k])) {
      assert Listed(log)[k] in Listed(log);
    }
  }

  lemma CoreGood(es: seq<Bfee>, suList: seq<nat>, muCnt: nat, st: State, cur: nat, log: Log)
    requires CoreOf(es, suList, muCnt, st, cur, log)
    ensures Good(log) && |es| == MAX_ENTRY
  {
  }

  /** After the reset no used entry counts as sounded, and preparing the lists keeps that. */
  lemma BeginFacts(es0: seq<Bfee>, es: seq<Bfee>, fs: seq<Bfee>, minPeriod: nat)
    requires |es0| == |es| == |fs| == MAX_ENTRY
    requires es == Cleared(es0)
    requires forall i | 0 <= i < MAX_ENTRY :: es[i].used ==> minPeriod > 0
    requires forall i | 0 <= i < MAX_ENTRY :: fs[i] == After(es, i, minPeriod)
    ensures forall i | 0 <= i < MAX_ENTRY :: es[i].used ==> !es[i].sounding
    ensures SameSounding(es, fs)
    ensures forall i | 0 <= i < MAX_ENTRY :: fs[i].used == es[i].used == es0[i].used
    ensures forall i | 0 <= i < MAX_ENTRY ::
              fs[i].soundPeriod == es[i].soundPeriod == es0[i].soundPeriod && fs[i].failCnt == es0[i].failCnt
  {
  }

  predicate Ready(s: State) {
    s == Init || s == SuSoundDown || s == MuSoundDown || s == Timeout
  }

  /** States in which the scheduler waits for a timer or an event of the hardware. */
  predicate Resting(s: State) {
    s == None || s == Init || s == SuStart || s == MuStart
  }

  predicate HasEnd(q: seq<Cmd>) {
    exists k | 0 <= k < |q| :: q[k].EndPeriod?
  }

  predicate HasStart(q: seq<Cmd>) {
    exists k | 0 <= k < |q| :: q[k].StartPeriod?
  }

  lemma Enqueued(q: seq<Cmd>, c: Cmd)
    ensures HasEnd(q + [c]) <==> HasEnd(q) || c.EndPeriod?
    ensures HasStart(q + [c]) <==> HasStart(q) || c.StartPeriod?
  {
    var r := q + [c];
    assert r[|q|] == c;
    assert forall k | 0 <= k < |q| :: r[k] == q[k];
  }

  lemma Dequeued(q: seq<Cmd>)
    requires q != []
    ensures HasEnd(q) <==> HasEnd(q[1..]) || q[0].EndPeriod?
    ensures HasStart(q) <==> HasStart(q[1..]) || q[0].StartPeriod?
  {
    assert forall k | 0 < k < |q| :: q[k] == q[1..][k - 1];
  }

  lemma Queued(q: seq<Cmd>, r: seq<Cmd>)
    requires q <= r
    ensures HasEnd(q) ==> HasEnd(r)
    ensures HasStart(q) ==> HasStart(r)
  {
    assert forall k | 0 <= k < |q| :: r[k] == q[k];
  }

  /** What the period handler achieves: from a ready state it comes to rest, with the timer set when a sounding is
      under way. */
  ghost predicate Handled(st: State, core: bool, st': State, armed: bool) {
    Ready(st) && core ==> Resting(st') && (st' == SuStart || st' == MuStart ==> armed)
  }

  /** What the end of a sounding achieves: the period goes on and comes to rest. */
  ghost predicate Ended(st: State, core: bool, st': State, armed: bool) {
    && ((st == SuStart || st == MuStart) && core ==> Resting(st') && (st' == SuStart || st' == MuStart ==> armed))
    && (st != SuStart && st != MuStart ==> st' == st)
  }

  lemma NoTimeout(es: seq<Bfee>, suList: seq<nat>, muCnt: nat, cur: nat, log: Log)
    requires CoreOf(es, suList, muCnt, SuStart, cur, log)
    ensures cur < |es| && !es[cur].timeout
  {
  }

  /** A beamformee after the end of its sounding; the count of failures has five bits. */
  function Judged(e: Bfee, status: bool): (r: Bfee) {
    if status then e.(failCnt := 0)
    else if e.delete then e.(delete := false)
    else e.(failCnt := NextFail(e.failCnt))
  }

  function NextFail(n: nat): (r: nat) {
    (n + 1) % 32
  }

  predicate GivesUp(e: Bfee, status: bool) {
    !status && !e.delete && NextFail(e.failCnt) > 30
  }

  /** The end of a sounding makes the scheduler ask for a leave. */
  predicate AsksToLeave(es: seq<Bfee>, st: State, cur: nat, status: bool) {
    st == SuStart && cur < |es| && !es[cur].timeout && GivesUp(es[cur], status)
  }

  /** The queue after such a request, and whether it has been lost. */
  function QueueAfter(q: seq<Cmd>, asks: bool, cur: nat, memory: bool): (r: seq<Cmd>) {
    if asks && memory then q + [Leave(cur)] else q
  }

  /** What the removal of entry `idx` does not touch. */
  lemma Released(es: seq<Bfee>, idx: nat)
    requires idx < |es|
    ensures var m := es[idx := es[idx].(added := false)];
      var fs := es[idx := es[idx].(used := false, added := false)];
      && m[idx := m[idx].(used := false)] == fs && SameSounding(es, fs)
      && (forall i | 0 <= i < |es| :: fs[i].timeout == es[i].timeout)
      && (forall i | 0 <= i < |es| :: m[i].used == es[i].used && m[i].soundPeriod == es[i].soundPeriod)
      && (forall i | 0 <= i < |es| :: fs[i].used ==> es[i].used && fs[i].soundPeriod == es[i].soundPeriod)
  {
  }

  lemma JudgedSame(es: seq<Bfee>, i: nat, status: bool)
    requires i < |es|
    ensures var fs := es[i := Judged(es[i], status)];
      && SameSounding(es, fs)
      && forall j | 0 <= j < |es| :: fs[j].used == es[j].used && fs[j].soundPeriod == es[j].soundPeriod
  {
  }

  function Rank(c: Cmd, enqueue: bool): (n: nat) {
    if enqueue then 1 else match c case StartPeriod => 5 case EndPeriod(_) => 8 case Leave(_) => 1
  }

  // ---------- what has become of an entry's soundings ----------

  /** A sounding succeeded, failed, or was the one that undoes the sounding of a beamformee. */
  datatype Outcome = Succeeded | Failed | Undone

  /** The failures after the last success, on top of `first` if there was none. */
  function Failures(first: nat, os: seq<Outcome>): (n: nat) {
    if os == [] then first
    else
      var n := |os| - 1;
      match os[n]
      case Succeeded => 0
      case Failed => Failures(first, os[..n]) + 1
      case Undone => Failures(first, os[..n])
  }

  /** `Failures` counts: after a success it is the number of failures since. */
  lemma {:induction false} FailuresSinceSuccess(first: nat, os: seq<Outcome>, k: nat)
    requires k <= |os| && (k > 0 ==> os[k - 1] == Succeeded)
    requires forall j | k <= j < |os| :: os[j] != Succeeded
    ensures Failures(first, os) == (if k == 0 then first else 0) + |set j | k <= j < |os| && os[j] == Failed|
    decreases |os|
  {
    var f := set j | k <= j < |os| && os[j] == Failed;
    if k == |os| {
      assert f == {};
    } else {
      var n := |os| - 1;
      LastFailure(os, k);
      FailuresSinceSuccess(first, os[..n], k);
    }
  }

  lemma LastFailure(os: seq<Outcome>, k: nat)
    requires k < |os|
    ensures var t := os[..|os| - 1];
      |set j | k <= j < |os| && os[j] == Failed|
      == |set j | k <= j < |t| && t[j] == Failed| + if os[|os| - 1] == Failed then 1 else 0
  {
    var n := |os| - 1;
    var t := os[..n];
    var f, g := set j | k <= j < |os| && os[j] == Failed, set j | k <= j < |t| && t[j] == Failed;
    if os[n] == Failed {
      assert f == g + {n};
    } else {
      assert f == g;
    }
  }

  /** The failure counts of the entries are those of their soundings, in five bits. */
  ghost predicate Counted(es: seq<Bfee>, first: seq<nat>, outs: seq<seq<Outcome>>) {
    && |es| == |first| == |outs|
    && forall i | 0 <= i < |es| :: es[i].failCnt == Failures(first[i], outs[i]) % 32
  }

  /** The end of the sounding under way, unless it is too late. */
  function Noted(es: seq<Bfee>, st: State, cur: nat, outs: seq<seq<Outcome>>, status: bool): (r: seq<seq<Outcome>>)
    ensures |r| == |outs|
  {
    if st == SuStart && cur < |es| && cur < |outs| && !es[cur].timeout then
      outs[cur := outs[cur] + [if status then Succeeded else if es[cur].delete then Undone else Failed]]
    else outs
  }

  /** Only undone soundings have been added. */
  ghost predicate Extends(a: seq<seq<Outcome>>, b: seq<seq<Outcome>>) {
    && |a| == |b|
    && forall i | 0 <= i < |a| :: a[i] <= b[i] && forall k | |a[i]| <= k < |b[i]| :: b[i][k] == Undone
  }

  lemma ExtendsSelf(a: seq<seq<Outcome>>)
    ensures Extends(a, a)
  {
  }

  lemma ExtendsTrans(a: seq<seq<Outcome>>, b: seq<seq<Outcome>>, c: seq<seq<Outcome>>)
    requires Extends(a, b) && Extends(b, c)
    ensures Extends(a, c)
  {
  }

  lemma NotedUndone(es: seq<Bfee>, st: State, cur: nat, outs: seq<seq<Outcome>>)
    requires cur < |es| && es[cur].delete
    ensures Extends(outs, Noted(es, st, cur, outs, false))
  {
  }

  lemma {:induction false} UndoneKeeps(first: nat, a: seq<Outcome>, b: seq<Outcome>)
    requires a <= b && forall k | |a| <= k < |b| :: b[k] == Undone
    ensures Failures(first, b) == Failures(first, a)
    decreases |b|
  {
    if |a| == |b| {
      assert a == b;
    } else {
      UndoneKeeps(first, a, b[..|b| - 1]);
    }
  }

  /** What the end of a sounding does to the failure count of its entry. */
  lemma NotedCount(es: seq<Bfee>, cur: nat, first: seq<nat>, outs: seq<seq<Outcome>>, status: bool,
                   fs: seq<Bfee>, outs': seq<seq<Outcome>>)
    requires Counted(es, first, outs) && cur < |es| && !es[cur].timeout
    requires Counted(fs, first, outs') && Extends(Noted(es, SuStart, cur, outs, status), outs')
    ensures fs[cur].failCnt
         == if status then 0 else if es[cur].delete then es[cur].failCnt else (es[cur].failCnt + 1) % 32
  {
    hide Counted, Failures, Noted, Extends;
    CountAt(es, first, outs, cur);
    NotedIs(es, cur, outs, status);
    ExtendsAt(Noted(es, SuStart, cur, outs, status), outs', cur);
    CountedSizes(fs, first, outs');
    CountAt(fs, first, outs', cur);
    var x := if status then Succeeded else if es[cur].delete then Undone else Failed;
    FailuresSnoc(first[cur], outs[cur], x);
    Mod32(Failures(first[cur], outs[cur]));
    UndoneKeeps(first[cur], outs[cur] + [x], outs'[cur]);
  }

  lemma CountAt(es: seq<Bfee>, first: seq<nat>, outs: seq<seq<Outcome>>, i: nat)
    requires Counted(es, first, outs) && i < |es|
    ensures |es| == |first| == |outs| && es[i].failCnt == Failures(first[i], outs[i]) % 32
  {
  }

  lemma ExtendsAt(a: seq<seq<Outcome>>, b: seq<seq<Outcome>>, i: nat)
    requires Extends(a, b) && i < |a|
    ensures |a| == |b| && a[i] <= b[i] && forall k | |a[i]| <= k < |b[i]| :: b[i][k] == Undone
  {
  }

  lemma FailuresSnoc(first: nat, os: seq<Outcome>, x: Outcome)
    ensures var n := Failures(first, os);
      Failures(first, os + [x]) == match x case Succeeded => 0 case Failed => n + 1 case Undone => n
  {
    assert (os + [x])[..|os|] == os;
  }

  lemma Mod32(n: nat)
    ensures (n + 1) % 32 == (n % 32 + 1) % 32
  {
  }

  lemma CountedSizes(es: seq<Bfee>, first: seq<nat>, outs: seq<seq<Outcome>>)
    requires Counted(es, first, outs)
    ensures |es| == |first| == |outs|
  {
  }

  lemma CountedSame(es: seq<Bfee>, fs: seq<Bfee>, first: seq<nat>, outs: seq<seq<Outcome>>)
    requires Counted(es, first, outs) && |fs| == |es|
    requires forall i | 0 <= i < |es| :: fs[i].failCnt == es[i].failCnt
    ensures Counted(fs, first, outs)
  {
  }

  /** Clearing a timeout is no outcome. */
  lemma CountsStay(es: seq<Bfee>, cur: nat, first: seq<nat>, outs: seq<seq<Outcome>>)
    requires Counted(es, first, outs)
    ensures |outs| == |es| && (cur < |es| ==> Counted(es[cur := es[cur].(timeout := false)], first, outs))
  {
  }

  lemma NotedNot(es: seq<Bfee>, st: State, cur: nat, outs: seq<seq<Outcome>>, status: bool)
    ensures st != SuStart || (cur < |es| && es[cur].timeout) ==>
              Noted(es, st, cur, outs, status) == outs && !AsksToLeave(es, st, cur, status)
  {
  }

  lemma TimeoutSame(es: seq<Bfee>, i: nat)
    requires i < |es|
    ensures SameSounding(es, es[i := es[i].(timeout := false)])
  {
  }

  lemma NotedIs(es: seq<Bfee>, cur: nat, outs: seq<seq<Outcome>>, status: bool)
    requires cur < |es| && cur < |outs| && !es[cur].timeout
    ensures Noted(es, SuStart, cur, outs, status)
         == outs[cur := outs[cur] + [if status then Succeeded else if es[cur].delete then Undone else Failed]]
  {
  }

  lemma AskedToLeave(es: seq<Bfee>, cur: nat, first: seq<nat>, outs: seq<seq<Outcome>>, status: bool)
    requires Counted(es, first, outs) && cur < |es| && !es[cur].timeout
    ensures AsksToLeave(es, SuStart, cur, status) <==> !status && !es[cur].delete && (es[cur].failCnt + 1) % 32 == 31
  {
  }

  lemma JudgedCounted(es: seq<Bfee>, cur: nat, first: seq<nat>, outs: seq<seq<Outcome>>, status: bool)
    requires Counted(es, first, outs) && cur < |es| && !es[cur].timeout
    ensures Counted(es[cur := Judged(es[cur], status)], first, Noted(es, SuStart, cur, outs, status))
  {
    hide Failures;
    var x := if status then Succeeded else if es[cur].delete then Undone else Failed;
    var o, fs := Noted(es, SuStart, cur, outs, status), es[cur := Judged(es[cur], status)];
    FailuresSnoc(first[cur], outs[cur], x);
    Mod32(Failures(first[cur], outs[cur]));
    forall i | 0 <= i < |fs| ensures fs[i].failCnt == Failures(first[i], o[i]) % 32 {
      if i == cur {
        assert o[i] == outs[i] + [x];
      } else {
        assert o[i] == outs[i] && fs[i] == es[i];
      }
    }
  }

  class Scheduler {
    var entries: seq<Bfee>
    var suList: seq<nat>
    var muList: seq<nat>
    var state: State
    var curIdx: nat
    var muCnt: nat
    var minPeriod: nat
    var running: int
    var waitCnt: nat
    var delay: nat
    var scanning: bool         // WIFI_SITE_MONITOR
    var armed: bool            // the sounding timeout timer
    var queue: seq<Cmd>        // the command thread's queue
    ghost var lost: bool       // an allocation for a command has failed
    ghost var log: Log
    ghost const first: seq<nat>              // the failure counts at the start
    ghost var outcomes: seq<seq<Outcome>>    // for every entry, the soundings ended since

    /** The scheduler once beamformees have entered, each with a sounding period; nothing else is known about their
        entries. */
    constructor (es: seq<Bfee>, minPeriod: nat)
      requires |es| == MAX_ENTRY && minPeriod > 0
      requires forall i | 0 <= i < MAX_ENTRY :: es[i].failCnt < 32 && (es[i].used ==> 0 < es[i].soundPeriod < NO_PERIOD)
      ensures Valid() && entries == es && state == Init && log == [] && queue == []
      ensures first == seq(MAX_ENTRY, i requires 0 <= i < MAX_ENTRY => es[i].failCnt)
      ensures outcomes == seq(MAX_ENTRY, _ => [])
    {
      entries, this.minPeriod := es, minPeriod;
      suList, muList := seq(MAX_SU, _ => NO_ENTRY), seq(MAX_MU, _ => NO_ENTRY);
      state, curIdx, muCnt := Init, NO_ENTRY, 0;
      running, waitCnt, delay := 0, 0, 0;
      scanning, armed, queue, lost, log := false, false, [], false, [];
      first, outcomes := seq(MAX_ENTRY, i requires 0 <= i < MAX_ENTRY => es[i].failCnt), seq(MAX_ENTRY, _ => []);
    }

    ghost predicate Shape()
      reads this
    {
      && |entries| == MAX_ENTRY && |suList| == MAX_SU && |muList| == MAX_MU
      && muCnt <= MAX_MU && (forall k | 0 <= k < muCnt :: muList[k] < MAX_ENTRY)
      && (forall i | 0 <= i < |entries| :: entries[i].used ==> minPeriod > 0 && 0 < entries[i].soundPeriod < NO_PERIOD)
      && (state == SuStart ==> curIdx < MAX_ENTRY)
      && Counted(entries, first, outcomes)
    }

    ghost predicate Core()
      reads this
    {
      CoreOf(entries, suList, muCnt, state, curIdx, log)
    }

    /** A started sounding will be ended, and a timed-out one continued, unless a command was lost. */
    ghost predicate Pending()
      reads this
    {
      && (state == SuStart || state == MuStart ==> armed || lost || HasEnd(queue))
      && (state == Timeout ==> lost || HasStart(queue))
    }

    /** The state between two events. */
    ghost predicate Valid()
      reads this
    {
      Shape() && Core() && Pending() && (Resting(state) || state == Timeout)
    }

    /** `_sounding_reset_vars`. */
    method ResetVars()
      requires Shape() && state == Init
      modifies `entries, `suList, `muList, `curIdx, `muCnt
      ensures entries == Cleared(old(entries)) && Shape()
      ensures suList == Slots([], MAX_SU) && muList == Slots([], MAX_MU) && curIdx == NO_ENTRY && muCnt == 0
    {
      suList, muList := Slots([], MAX_SU), Slots([], MAX_MU);
      curIdx, muCnt := NO_ENTRY, 0;
      for idx := 0 to MAX_ENTRY
        modifies `entries
        invariant |entries| == MAX_ENTRY
        invariant forall i | 0 <= i < MAX_ENTRY :: entries[i] == if i < idx then ResetEntry(old(entries)[i])
            else old(entries)[i]
      {
        if entries[idx].used && entries[idx].sounding {
          entries := entries[idx := entries[idx].(sounding := false, candidate := false)];
        }
      }
    }

    /** `_sounding_get_list`. */
    method GetList() returns (ret: int)
      requires Shape() && suList == Slots([], MAX_SU) && muList == Slots([], MAX_MU)
      modifies `entries, `suList, `muList, `muCnt
      ensures suList == Slots(SuList(old(entries), MAX_ENTRY), MAX_SU)
      ensures muList == Slots(MuList(old(entries), MAX_ENTRY), MAX_MU)
      ensures muCnt == |MuList(old(entries), MAX_ENTRY)|
      ensures |entries| == MAX_ENTRY && forall i | 0 <= i < MAX_ENTRY :: entries[i] == After(old(entries), i, minPeriod)
      ensures ret == if |SuList(old(entries), MAX_ENTRY)| + muCnt > 0 then 0
                     else if exists i | 0 <= i < MAX_ENTRY :: NotReady(old(entries)[i]) then -2 else -1
    {
      hide SuList, MuList, After, Slots;
      var su: nat, mu: nat, notReady := 0, 0, 0;
      ghost var es := entries;
      NoLists(es);
      for i := 0 to MAX_ENTRY
        modifies `entries, `suList, `muList
        invariant |entries| == MAX_ENTRY && su == |SuList(es, i)| && mu == |MuList(es, i)|
        invariant suList == Slots(SuList(es, i), MAX_SU) && muList == Slots(MuList(es, i), MAX_MU)
        invariant forall j | 0 <= j < MAX_ENTRY :: entries[j] == if j < i then After(es, j, minPeriod) else es[j]
        invariant notReady >= 0 && (notReady > 0 <==> exists j | 0 <= j < i :: NotReady(es[j]))
      {
        var unready: bool;
        su, mu, unready := Consider(i, su, mu, es);
        if unready {
          notReady := notReady + 1;
        }
      }
      muCnt := mu;
      ret := 0;
      if su + mu == 0 {
        ret := -1;
        if notReady > 0 {
          ret := -2;
        }
      }
    }

    /** The body of the loop of `_sounding_get_list`; the results are the next free places of the lists. */
    method Consider(i: nat, su: nat, mu: nat, ghost es: seq<Bfee>) returns (su': nat, mu': nat, unready: bool)
      requires i < MAX_ENTRY == |entries| == |es| && entries[i] == es[i] && (es[i].used ==> minPeriod > 0)
      requires su == |SuList(es, i)| && mu == |MuList(es, i)|
      requires suList == Slots(SuList(es, i), MAX_SU) && muList == Slots(MuList(es, i), MAX_MU)
      modifies `entries, `suList, `muList
      ensures entries == old(entries)[i := After(es, i, minPeriod)]
      ensures su' == |SuList(es, i + 1)| && mu' == |MuList(es, i + 1)|
      ensures suList == Slots(SuList(es, i + 1), MAX_SU) && muList == Slots(MuList(es, i + 1), MAX_MU)
      ensures unready == NotReady(es[i])
    {
      hide SuList, MuList, Slots, After, SuDue, MuDue;
      Considered(es, i, minPeriod);
      su', mu', unready := su, mu, false;
      var e := entries[i];
      if !e.used {
        return;
      }
      if !e.added {
        unready := true;
        return;
      }
      var due := CountDown(i);
      if !due {
        return;
      }
      if e.vhtMu {
        mu' := JoinMu(i, mu, MuList(es, i));
      } else if e.vhtSu || e.htExplicit {
        su' := JoinSu(i, su, SuList(es, i));
      }
    }

    /** Counts the periods of entry `i` down to the one in which it may be sounded. */
    method CountDown(i: nat) returns (due: bool)
      requires i < |entries|
      modifies `entries
      ensures var e := old(entries)[i];
        due == (e.soundCnt <= 1) && entries == old(entries)[i := e.(soundCnt := if due then 0 else e.soundCnt - 1)]
    {
      due := true;
      if entries[i].soundCnt > 0 {
        entries := entries[i := entries[i].(soundCnt := entries[i].soundCnt - 1)];
        due := entries[i].soundCnt == 0;
      }
    }

    /** Puts entry `i` on the multi-user list if it asks for sounding and there is room. */
    method JoinMu(i: nat, mu: nat, ghost l: seq<nat>) returns (mu': nat)
      requires i < |entries| && minPeriod > 0 && mu == |l| <= MAX_MU && muList == Slots(l, MAX_MU)
      modifies `entries, `muList
      ensures var join := mu < MAX_MU && old(entries)[i].apply;
        && mu' == (if join then mu + 1 else mu)
        && muList == Slots(if join then l + [i] else l, MAX_MU)
        && entries == if join
            then old(entries)[i := old(entries)[i].(candidate := true,
                                                    soundCnt := old(entries)[i].soundPeriod / minPeriod)]
                      else old(entries)
    {
      mu' := mu;
      if mu >= MAX_MU {
        return;
      }
      if entries[i].apply {
        entries := entries[i := entries[i].(candidate := true, soundCnt := entries[i].soundPeriod / minPeriod)];
        SlotsAppend(l, MAX_MU, i);
        muList := muList[mu := i];
        mu' := mu + 1;
      }
    }

    /** Puts entry `i` on the single-user list if it is to be deleted or asks for sounding, and there is room. */
    method JoinSu(i: nat, su: nat, ghost l: seq<nat>) returns (su': nat)
      requires i < |entries| && minPeriod > 0 && su == |l| <= MAX_SU && suList == Slots(l, MAX_SU)
      modifies `entries, `suList
      ensures var e := old(entries)[i];
        var join := su < MAX_SU && (e.delete || (e.apply && !e.suspend));
        && su' == (if join then su + 1 else su)
        && suList == Slots(if join then l + [i] else l, MAX_SU)
        && entries == if join && !e.delete
            then old(entries)[i := e.(candidate := true, soundCnt := e.soundPeriod / minPeriod)]
                      else old(entries)
    {
      su' := su;
      if su >= MAX_SU {
        return;
      }
      if entries[i].delete {
        SlotsAppend(l, MAX_SU, i);
        suList := suList[su := i];
        su' := su + 1;
      } else if entries[i].apply && !entries[i].suspend {
        entries := entries[i := entries[i].(candidate := true, soundCnt := entries[i].soundPeriod / minPeriod)];
        SlotsAppend(l, MAX_SU, i);
        suList := suList[su := i];
        su' := su + 1;
      }
    }

    /** What `_sounding_handler` does with the result of the preparation. */
    method Decide(ret: int) returns (go: bool)
      modifies `waitCnt, `state, `running
      ensures go == (ret != -1 && ret != -2 && !scanning)
      ensures state == if ret == -1 || (ret == -2 && old(waitCnt) >= 5) then None else old(state)
      ensures waitCnt == if ret == -2 && old(waitCnt) < 5 then old(waitCnt) + 1 else 0
      ensures running == if go then old(running) else old(running) - 1
    {
      go := false;
      if ret == -1 {
        waitCnt, state, running := 0, None, running - 1;
      } else if ret == -2 {
        if waitCnt < 5 {
          waitCnt := waitCnt + 1;
        } else {
          waitCnt, state := 0, None;
        }
        running := running - 1;
      } else {
        waitCnt := 0;
        if scanning {
          running := running - 1;
        } else {
          go := true;
        }
      }
    }

    /** The part of `_sounding_handler` that prepares a new period; `go` says whether there is something to sound
        now. */
    method BeginPeriod() returns (go: bool)
      requires Shape() && state == Init
      modifies this
      ensures Shape() && queue == old(queue) && armed == old(armed) && lost == old(lost) && outcomes == old(outcomes)
      ensures log == old(log) + [NewPeriod(Cleared(old(entries)))]
      ensures old(Core()) ==> Core()
      ensures state == Init || (state == None && !go)
    {
      hide CoreOf, SuList, MuList, After, Good, Cleared;
      ResetVars();
      ghost var es := entries;
      var ret := GetList();
      BeginFacts(old(entries), es, entries, minPeriod);
      log := log + [NewPeriod(es)];
      go := Decide(ret);
      if old(Core()) {
        CoreGood(old(entries), old(suList), old(muCnt), old(state), old(curIdx), old(log));
        PeriodStarted(es, entries, muCnt, curIdx, state, old(log));
      }
    }

    /** `_sounding_handler`; `memory` says whether a command can be allocated, which it never needs. */
    method Handler(memory: bool)
      requires Shape()
      modifies this
      ensures Shape() && queue == old(queue) && lost == old(lost) && Extends(old(outcomes), outcomes)
      ensures old(Core()) ==> Core()
      ensures old(Core()) && Ready(old(state)) ==> Resting(state)
      ensures Ready(old(state)) && (state == SuStart || state == MuStart) ==> armed || old(!Core())
      ensures !Ready(old(state)) ==> state == old(state) && armed == old(armed)
      ensures old(log) <= log && (Ready(old(state)) ==> old(log) < log)
      ensures Ready(old(state)) && old(state) != Init
          ==> old(log) + [NextItem(old(suList), old(entries), old(muCnt))] <= log
      ensures old(state) == Init ==> old(log) + [NewPeriod(Cleared(old(entries)))] <= log
      decreases if state == Init then 2 else 0, Open(suList, entries), 3
    {
      if state != Init && state != SuSoundDown && state != MuSoundDown && state != Timeout {
        return;
      }
      if state == Init {
        var go := BeginPeriod();
        if !go {
          return;
        }
      }
      Continue(memory);
    }

    /** The next slot of the single-user list to be started, or the length of the list. */
    method NextSu() returns (i: nat)
      requires Shape()
      ensures i <= MAX_SU
      ensures i < MAX_SU ==> suList[i] < MAX_ENTRY && !entries[suList[i]].sounding
      ensures i == MAX_SU ==> forall k | 0 <= k < MAX_SU :: suList[k] < MAX_ENTRY ==> entries[suList[k]].sounding
      ensures i == FirstOpen(suList, entries)
    {
      i := 0;
      assert suList[0..] == suList;
      while i < MAX_SU
        invariant i <= MAX_SU
        invariant FirstOpen(suList, entries) == i + FirstOpen(suList[i..], entries)
        invariant forall k | 0 <= k < i :: suList[k] < MAX_ENTRY ==> entries[suList[k]].sounding
      {
        var su := suList[i];
        FirstOpenStep(suList, entries, i);
        if su < MAX_ENTRY && !entries[su].sounding {
          return;
        }
        i := i + 1;
      }
      FirstOpenStep(suList, entries, i);
    }

    /** The part of `_sounding_handler` that starts the next sounding of the period. */
    method Continue(memory: bool)
      requires Shape() && Ready(state)
      modifies this
      ensures Shape() && queue == old(queue) && lost == old(lost) && Extends(old(outcomes), outcomes)
      ensures old(Core()) ==> Core() && Resting(state)
      ensures state == SuStart || state == MuStart ==> armed || old(!Core())
      ensures old(log) + [NextItem(old(suList), old(entries), old(muCnt))] <= log
      decreases if state == Init then 1 else 0, Open(suList, entries), 2
    {
      hide CoreOf, Good, Open, FirstOpen, Counted, Extends, Noted;
      ghost var ok, outs := Core(), outcomes;
      ExtendsSelf(outs);
      var i := NextSu();
      if i < MAX_SU {
        StartSu(i);
        if entries[curIdx].delete {
          NotedUndone(entries, state, curIdx, outs);
          ghost var noted := Noted(entries, state, curIdx, outs, false);
          BfCmd(EndPeriod(false), false, memory);
          ExtendsTrans(outs, noted, outcomes);
          return;
        }
        armed := true;
        return;
      }
      if muCnt > 0 {
        StartMu();
        armed := true;
        return;
      }
      running := running - 1;
      state := Init;
      if ok { AllStarted(entries, suList, old(state), curIdx, log); }
      log := log + [Done];
    }

    /** Makes the beamformee of slot `i` the current one. */
    method StartSu(i: nat)
      requires Shape() && i < MAX_SU && suList[i] < MAX_ENTRY && !entries[suList[i]].sounding
      modifies `entries, `state, `curIdx, `log
      ensures Shape() && state == SuStart && curIdx == suList[i]
      ensures entries == old(entries)[curIdx := old(entries)[curIdx].(sounding := true, timeout := false)]
      ensures log == old(log) + [Su(curIdx)]
      ensures old(Core()) ==> Core()
      ensures Open(suList, entries) < old(Open(suList, entries))
    {
      hide CoreOf, Good, Open;
      curIdx := suList[i];
      state := SuStart;
      OpenStarted(suList, entries, curIdx);
      if old(Core()) { SuStarted(entries, suList, muCnt, old(state), old(curIdx), log, curIdx); }
      entries := entries[curIdx := entries[curIdx].(sounding := true, timeout := false)];
      log := log + [Su(curIdx)];
    }

    /** Starts the multi-user round of the listed beamformees. */
    method StartMu()
      requires Shape() && muCnt > 0
      requires forall k | 0 <= k < MAX_SU :: suList[k] < MAX_ENTRY ==> entries[suList[k]].sounding
      modifies `entries, `state, `muCnt, `log
      ensures Shape() && state == MuStart && muCnt == 0 && log == old(log) + [Mu]
      ensures forall k | 0 <= k < old(muCnt) :: entries[muList[k]].sounding
      ensures old(Core()) ==> Core()
    {
      hide CoreOf, Counted;
      ghost var es := entries;
      state := MuStart;
      MarkMu();
      CountedSame(es, entries, first, outcomes);
      if old(Core()) { MuStarted(es, entries, suList, muCnt, old(state), old(curIdx), curIdx, log); }
      log := log + [Mu];
      muCnt := 0;
    }

    /** Marks the listed beamformees of the round as sounded. */
    method MarkMu()
      requires |entries| == MAX_ENTRY && muCnt <= |muList| && forall k | 0 <= k < muCnt :: muList[k] < MAX_ENTRY
      modifies `entries
      ensures |entries| == MAX_ENTRY
      ensures forall j | 0 <= j < MAX_ENTRY ::
                && entries[j] == old(entries)[j].(sounding := entries[j].sounding)
                && (old(entries)[j].sounding ==> entries[j].sounding)
      ensures forall k | 0 <= k < muCnt :: entries[muList[k]].sounding
    {
      for i := 0 to muCnt
        invariant |entries| == MAX_ENTRY
        invariant forall j | 0 <= j < MAX_ENTRY ::
                    && entries[j] == old(entries)[j].(sounding := entries[j].sounding)
                    && (old(entries)[j].sounding ==> entries[j].sounding)
        invariant forall k | 0 <= k < i :: entries[muList[k]].sounding
      {
        entries := entries[muList[i] := entries[muList[i]].(sounding := true)];
      }
    }

    /** `rtw_bf_cmd`: at once, or through the queue of the command thread. */
    method BfCmd(c: Cmd, enqueue: bool, memory: bool)
      requires Shape() && (enqueue || !c.Leave?)
      modifies this
      ensures Shape() && old(log) <= log
      ensures old(Core()) ==> Core()
      ensures enqueue ==> unchanged(`entries, `suList, `muList, `state, `curIdx, `muCnt, `armed, `log, `minPeriod,
          `running, `waitCnt, `delay, `outcomes)
      ensures enqueue ==> queue == (if memory then old(queue) + [c] else old(queue)) && lost == (old(lost) || !memory)
      ensures !enqueue && c.StartPeriod? ==>
                && Handled(old(state), old(Core()), state, armed) && (Ready(old(state)) ==> old(log) < log)
                && queue == old(queue) && lost == old(lost) && Extends(old(outcomes), outcomes)
      ensures !enqueue && !c.EndPeriod? && !Ready(old(state)) ==> state == old(state) && armed == old(armed)
      ensures !enqueue && c.EndPeriod? ==>
                && Ended(old(state), old(Core()), state, armed)
                && Extends(Noted(old(entries), old(state), old(curIdx), old(outcomes), c.status), outcomes)
                && var asks := AsksToLeave(old(entries), old(state), old(curIdx), c.status);
                   queue == QueueAfter(old(queue), asks, old(curIdx), memory)
                       && lost == (old(lost) || (asks && !memory))
      decreases if state == Init then 2 else 0, Open(suList, entries), Rank(c, enqueue)
    {
      hide AsksToLeave, CoreOf, Counted, Extends, Noted;
      ExtendsSelf(outcomes);
      if !enqueue {
        CmdHdl(c, memory);
        return;
      }
      if memory {
        queue := queue + [c];
      } else {
        lost := true;
      }
    }

    /** `rtw_bf_cmd_hdl`. */
    method CmdHdl(c: Cmd, memory: bool)
      requires Shape()
      modifies this
      ensures Shape() && old(log) <= log
      ensures old(Core()) ==> Core()
      ensures c.StartPeriod? ==>
                Handled(old(state), old(Core()), state, armed) && (Ready(old(state)) ==> old(log) < log)
      ensures c.StartPeriod? && !Ready(old(state)) ==> state == old(state) && armed == old(armed)
      ensures c.EndPeriod? ==>
                && Ended(old(state), old(Core()), state, armed)
                && Extends(Noted(old(entries), old(state), old(curIdx), old(outcomes), c.status), outcomes)
                && var asks := AsksToLeave(old(entries), old(state), old(curIdx), c.status);
                   queue == QueueAfter(old(queue), asks, old(curIdx), memory)
                       && lost == (old(lost) || (asks && !memory))
      ensures !c.EndPeriod? ==> queue == old(queue) && lost == old(lost) && Extends(old(outcomes), outcomes)
      ensures c.Leave? ==> armed == old(armed) && (state == old(state) || state == None)
      ensures c.Leave? ==> c.idx < MAX_ENTRY ==> !entries[c.idx].used
      decreases if state == Init then 2 else 0, Open(suList, entries), if c.StartPeriod? then 4 else 7
    {
      hide AsksToLeave, CoreOf, Counted, Extends, Noted;
      ExtendsSelf(outcomes);
      match c {
        case StartPeriod => Handler(memory);
        case EndPeriod(status) => SoundingDown(status, memory);
        case Leave(idx) => LeaveEntry(idx);
      }
    }

    /** `_sounding_update_min_period` for a beamformee that leaves. */
    method UpdateMinPeriod()
      requires |entries| == MAX_ENTRY
      requires forall i | 0 <= i < MAX_ENTRY :: entries[i].used ==> 0 < entries[i].soundPeriod < NO_PERIOD
      modifies `minPeriod
      ensures (forall i | 0 <= i < MAX_ENTRY :: !entries[i].used) ==> minPeriod == 0
      ensures forall i | 0 <= i < MAX_ENTRY && entries[i].used :: 0 < minPeriod <= entries[i].soundPeriod
      ensures minPeriod > 0 ==> exists i | 0 <= i < MAX_ENTRY :: entries[i].used && entries[i].soundPeriod == minPeriod
    {
      var minVal: nat := NO_PERIOD;
      for i := 0 to MAX_ENTRY
        invariant 0 < minVal <= NO_PERIOD
        invariant forall j | 0 <= j < i && entries[j].used :: minVal <= entries[j].soundPeriod
        invariant minVal < NO_PERIOD ==> exists j | 0 <= j < i :: entries[j].used && entries[j].soundPeriod == minVal
      {
        if entries[i].used && entries[i].soundPeriod < minVal {
          minVal := entries[i].soundPeriod;
        }
      }
      minPeriod := if minVal == NO_PERIOD then 0 else minVal;
    }

    /** `_beamforming_leave` for the beamformee of entry `idx`, which the hardware layer releases. */
    method LeaveEntry(idx: nat)
      requires Shape()
      modifies `entries, `minPeriod, `state, `suList, `muList, `curIdx, `muCnt, `log
      ensures Shape() && (old(Core()) ==> Core())
      ensures idx >= MAX_ENTRY || !old(entries)[idx].used ==>
                unchanged(`entries, `minPeriod, `state, `suList, `muList, `curIdx, `muCnt, `log)
      ensures idx < MAX_ENTRY && old(entries)[idx].used ==>
                && entries == old(entries)[idx := old(entries)[idx].(used := false, added := false)]
                && if exists i | 0 <= i < MAX_ENTRY :: entries[i].used
                   then unchanged(`state, `suList, `muList, `curIdx, `muCnt, `log)
                   else && state == None && suList == Slots([], MAX_SU) && muList == Slots([], MAX_MU)
                        && curIdx == NO_ENTRY && muCnt == 0 && log == old(log) + [Start([], [])]
    {
      hide CoreOf, Good, Slots;
      if idx >= MAX_ENTRY || !entries[idx].used {
        return;
      }
      Release(idx);
      if forall i | 0 <= i < MAX_ENTRY :: !entries[i].used {
        SoundingInit();
      }
    }

    /** `_bfee_remove_entry`, and the release of the entry. */
    method Release(idx: nat)
      requires Shape() && idx < MAX_ENTRY && entries[idx].used
      modifies `entries, `minPeriod
      ensures Shape() && (old(Core()) ==> Core())
      ensures entries == old(entries)[idx := old(entries)[idx].(used := false, added := false)]
    {
      hide CoreOf, SameSounding;
      ghost var es := entries;
      Released(es, idx);
      entries := entries[idx := entries[idx].(added := false)];
      UpdateMinPeriod();
      entries := entries[idx := entries[idx].(used := false)];
      if old(Core()) { CoreAdjusted(es, entries, suList, muCnt, state, curIdx, log); }
    }

    /** `_sounding_init`. */
    method SoundingInit()
      requires Shape() && forall i | 0 <= i < MAX_ENTRY :: !entries[i].used
      modifies `minPeriod, `state, `suList, `muList, `curIdx, `muCnt, `log
      ensures Shape() && (old(Core()) ==> Core())
      ensures state == None && suList == Slots([], MAX_SU) && muList == Slots([], MAX_MU)
      ensures curIdx == NO_ENTRY && muCnt == 0 && log == old(log) + [Start([], [])]
    {
      suList, muList := Slots([], MAX_SU), Slots([], MAX_MU);
      state, curIdx, muCnt, minPeriod := None, NO_ENTRY, 0, 0;
      Append(log, Start([], []));
      log := log + [Start([], [])];
    }

    /** `_beamforming_sounding_down`. */
    method SoundingDown(status: bool, memory: bool)
      requires Shape()
      modifies this
      ensures Shape() && old(log) <= log
      ensures old(Core()) ==> Core()
      ensures var asks := AsksToLeave(old(entries), old(state), old(curIdx), status);
        queue == QueueAfter(old(queue), asks, old(curIdx), memory) && lost == (old(lost) || (asks && !memory))
      ensures Extends(Noted(old(entries), old(state), old(curIdx), old(outcomes), status), outcomes)
      ensures Ended(old(state), old(Core()), state, armed)
      decreases if state == Init then 2 else 0, Open(suList, entries), 6
    {
      hide CoreOf, Good, Open, AsksToLeave, Counted, Extends, Noted;
      var go := NoteEnd(status, memory);
      ExtendsSelf(outcomes);
      if go {
        BfCmd(StartPeriod, false, memory);
      }
    }

    /** The part of `_beamforming_sounding_down` before the period is continued; `go` says whether it is. */
    method NoteEnd(status: bool, memory: bool) returns (go: bool)
      requires Shape()
      modifies `entries, `state, `queue, `lost, `outcomes
      ensures Shape() && outcomes == Noted(old(entries), old(state), old(curIdx), old(outcomes), status)
      ensures var asks := AsksToLeave(old(entries), old(state), old(curIdx), status);
        queue == QueueAfter(old(queue), asks, old(curIdx), memory) && lost == (old(lost) || (asks && !memory))
      ensures old(Core()) ==> Core()
      ensures Open(suList, entries) == old(Open(suList, entries))
      ensures old(state) == MuStart ==> go && state == MuSoundDown
      ensures old(state) == SuStart ==> state == SuSoundDown && (old(Core()) ==> go)
      ensures old(state) != MuStart && old(state) != SuStart ==> !go && state == old(state)
    {
      hide CoreOf, Good, Open, AsksToLeave, Counted, Noted;
      ghost var ok, es := Core(), entries;
      NotedNot(entries, state, curIdx, outcomes, status);
      go := false;
      if state == MuStart {
        state := MuSoundDown;
        if ok { CoreKeep(es, entries, suList, muCnt, old(state), state, curIdx, log); }
        go := true;
      } else if state == SuStart {
        go := NoteSu(status, memory);
      }
    }

    /** The same for the sounding of a single beamformee. */
    method NoteSu(status: bool, memory: bool) returns (go: bool)
      requires Shape() && state == SuStart
      modifies `entries, `state, `queue, `lost, `outcomes
      ensures Shape() && outcomes == Noted(old(entries), SuStart, curIdx, old(outcomes), status)
      ensures var asks := AsksToLeave(old(entries), SuStart, curIdx, status);
        queue == QueueAfter(old(queue), asks, curIdx, memory) && lost == (old(lost) || (asks && !memory))
      ensures old(Core()) ==> Core() && go
      ensures Open(suList, entries) == old(Open(suList, entries)) && state == SuSoundDown
    {
      hide CoreOf, Good, Open, Judged, AsksToLeave, Counted, Noted, SameSounding;
      ghost var ok, es := Core(), entries;
      CountsStay(entries, curIdx, first, outcomes);
      NotedNot(entries, state, curIdx, outcomes, status);
      state := SuSoundDown;
      if entries[curIdx].timeout {
        entries := entries[curIdx := entries[curIdx].(timeout := false)];
        if ok { NoTimeout(es, suList, muCnt, curIdx, log); }
        TimeoutSame(es, curIdx);
        OpenSame(suList, es, entries);
        return false;
      }
      JudgedSame(es, curIdx, status);
      JudgedCounted(es, curIdx, first, outcomes, status);
      AskedToLeave(es, curIdx, first, outcomes, status);
      NotedIs(es, curIdx, outcomes, status);
      Judge(status, memory);
      if ok { CoreKeep(es, entries, suList, muCnt, old(state), state, curIdx, log); }
      OpenSame(suList, es, entries);
      go := true;
    }

    /** What `_beamforming_sounding_down` notes about the current beamformee. */
    method Judge(status: bool, memory: bool)
      requires Shape() && state == SuSoundDown && curIdx < MAX_ENTRY
      modifies `entries, `queue, `lost, `outcomes
      ensures entries == old(entries)[curIdx := Judged(old(entries)[curIdx], status)]
      ensures var e, f := old(entries)[curIdx], entries[curIdx];
        && outcomes == old(outcomes)[curIdx := old(outcomes)[curIdx] +
                                       [if status then Succeeded else if e.delete then Undone else Failed]]
        && (status ==> f == e.(failCnt := 0) && queue == old(queue) && lost == old(lost))
        && (!status && e.delete ==> f == e.(delete := false) && queue == old(queue) && lost == old(lost))
        && (!status && !e.delete ==>
              && f == e.(failCnt := (e.failCnt + 1) % 32)
              && (f.failCnt == 31 ==> if memory then queue == old(queue) + [Leave(curIdx)] && lost == old(lost)
                                      else queue == old(queue) && lost)
              && (f.failCnt != 31 ==> queue == old(queue) && lost == old(lost)))
    {
      var e := entries[curIdx];
      outcomes := outcomes[curIdx := outcomes[curIdx] +
                             [if status then Succeeded else if e.delete then Undone else Failed]];
      if status {
        entries := entries[curIdx := e.(failCnt := 0)];
      } else if e.delete {
        entries := entries[curIdx := e.(delete := false)];
      } else {
        var fails := NextFail(e.failCnt);
        entries := entries[curIdx := e.(failCnt := fails)];
        if fails > 30 {
          if memory {
            queue := queue + [Leave(curIdx)];
          } else {
            lost := true;
          }
        }
      }
    }

    // ---------- events ----------

    /** `_sounding_force_stop`. */
    method ForceStop(memory: bool)
      requires Valid()
      modifies this
      ensures Valid() && old(log) == log && outcomes == old(outcomes)
      ensures old(state) != SuStart && old(state) != MuStart ==>
                state == Init && running == old(running) - 1 && queue == old(queue)
      ensures old(state) == SuStart || old(state) == MuStart ==>
                state == old(state) && !armed && (lost || queue == old(queue) + [EndPeriod(false)])
    {
      hide Counted, CoreOf;
      if state == SuStart || state == MuStart {
        armed := false;
        Enqueued(queue, EndPeriod(false));
        BfCmd(EndPeriod(false), true, memory);
        return;
      }
      running := running - 1;
      state := Init;
      CoreKeep(entries, entries, suList, muCnt, old(state), Init, curIdx, log);
    }

    /** `_sounding_timer_handler`. */
    method SoundingTimer(memory: bool)
      requires Valid()
      modifies this
      ensures Valid() && old(log) == log && outcomes == old(outcomes)
      ensures old(state) == None ==> state == None && queue == old(queue)
      ensures old(state) != None && old(running) == 0 ==>
                state == Init && running == 1 && (lost || queue == old(queue) + [StartPeriod])
      ensures old(state) != None && old(running) != 0 && old(delay) < 3 ==>
                state == old(state) && queue == old(queue) && delay == old(delay) + 1
      ensures old(state) != None && old(running) != 0 && old(delay) >= 3 ==>
                if old(state) == SuStart || old(state) == MuStart
                then state == old(state) && !armed && (lost || queue == old(queue) + [EndPeriod(false)])
                else state == Init && queue == old(queue)
    {
      hide Counted, CoreOf;
      if state == None {
        return;
      }
      if running == 0 {
        if state != Init {
          state := Init;
          CoreKeep(entries, entries, suList, muCnt, old(state), Init, curIdx, log);
        }
        delay := 0;
        running := running + 1;
        Enqueued(queue, StartPeriod);
        BfCmd(StartPeriod, true, memory);
      } else {
        if delay != 0xFF {
          delay := delay + 1;
        }
        if delay > 3 {
          ForceStop(memory);
        }
      }
    }

    /** `_sounding_timeout_timer_handler`. */
    method TimeoutTimer(memory: bool)
      requires Valid() && armed
      modifies this
      ensures Valid() && old(log) == log && outcomes == old(outcomes) && !armed
      ensures state == if old(state) == SuStart || old(state) == MuStart then Timeout else old(state)
      ensures old(state) == SuStart || old(state) == MuStart ==> lost || queue == old(queue) + [StartPeriod]
      ensures old(state) == SuStart ==> entries[old(curIdx)].timeout
    {
      hide Counted;
      armed := false;
      ghost var es := entries;
      if state == SuStart {
        state := Timeout;
        entries := entries[curIdx := entries[curIdx].(timeout := true)];
        CountedSame(es, entries, first, outcomes);
      } else if state == MuStart {
        state := Timeout;
      } else {
        return;
      }
      CoreKeep(es, entries, suList, muCnt, old(state), Timeout, curIdx, log);
      Enqueued(queue, StartPeriod);
      BfCmd(StartPeriod, true, memory);
    }

    /** `_c2h_snd_txbf`: the hardware reports the end of a sounding. */
    method Report(status: bool, memory: bool)
      requires Valid()
      modifies this
      ensures Valid() && old(log) == log && outcomes == old(outcomes) && state == old(state) && !armed
      ensures lost || queue == old(queue) + [EndPeriod(status)]
    {
      armed := false;
      Enqueued(queue, EndPeriod(status));
      BfCmd(EndPeriod(status), true, memory);
    }

    /** The command thread takes the next command. */
    method RunCmd(memory: bool)
      requires Valid() && queue != []
      modifies this
      ensures Valid() && old(log) <= log
      ensures old(queue[0]).StartPeriod? && Ready(old(state)) ==> Resting(state) && old(log) < log
      ensures old(queue[0]).EndPeriod? && (old(state) == SuStart || old(state) == MuStart) ==> Resting(state)
      ensures old(queue[0]).Leave? && old(queue[0]).idx < MAX_ENTRY ==> !entries[old(queue[0]).idx].used
      ensures var c := old(queue[0]);
        var asks := c.EndPeriod? && AsksToLeave(old(entries), old(state), old(curIdx), c.status);
        queue == QueueAfter(old(queue[1..]), asks, old(curIdx), memory) && lost == (old(lost) || (asks && !memory))
      ensures var c := old(queue[0]);
        Extends(if c.EndPeriod? then Noted(old(entries), old(state), old(curIdx), old(outcomes), c.status)
                else old(outcomes), outcomes)
      ensures old(state) == SuStart && old(queue[0]).EndPeriod? ==>
                var status, e, f := old(queue[0]).status, old(entries[curIdx]), entries[old(curIdx)];
                && (status ==> f.failCnt == 0 && queue == old(queue[1..]))
                && (!status && e.delete ==> f.failCnt == e.failCnt && queue == old(queue[1..]))
                && (!status && !e.delete ==>
                      && f.failCnt == (e.failCnt + 1) % 32
                      && (memory ==> queue == if f.failCnt == 31 then old(queue[1..]) + [Leave(old(curIdx))]
                                              else old(queue[1..])))
    {
      hide CoreOf, HasEnd, HasStart, AsksToLeave, Counted, Extends, Noted;
      if state == SuStart { NoTimeout(entries, suList, muCnt, curIdx, log); }
      ghost var es, outs, st, cur := entries, outcomes, state, curIdx;
      var c := queue[0];
      Dequeued(queue);
      queue := queue[1..];
      ghost var q := queue;
      CmdHdl(c, memory);
      Queued(q, queue);
      if st == SuStart && c.EndPeriod? {
        NotedCount(es, cur, first, outs, c.status, entries, outcomes);
        AskedToLeave(es, cur, first, outs, c.status);
      }
    }

    /** Where an entry's soundings have had a success, or its count began at zero, the count is the number of failures
        since, in five bits. */
    lemma CountIsFailures(i: nat, k: nat)
      requires Valid() && i < MAX_ENTRY && k <= |outcomes[i]|
      requires if k == 0 then first[i] == 0 else outcomes[i][k - 1] == Succeeded
      requires forall j | k <= j < |outcomes[i]| :: outcomes[i][j] != Succeeded
      ensures entries[i].failCnt == |set j | k <= j < |outcomes[i]| && outcomes[i][j] == Failed| % 32
    {
      FailuresSinceSuccess(first[i], outcomes[i], k);
    }

    lemma CoreIsGood()
      requires Valid()
      ensures Good(log)
    {
    }

    /** Other parts of the driver change what a beamformee asks for. */
    method Adjust(i: nat, apply: bool, delete: bool, suspend: bool, added: bool)
      requires Valid() && i < MAX_ENTRY
      modifies `entries
      ensures Valid()
    {
      ghost var es := entries;
      entries := entries[i := entries[i].(apply := apply, delete := delete, suspend := suspend, added := added)];
      CoreAdjusted(es, entries, suList, muCnt, state, curIdx, log);
    }
  }

  lemma CoreAdjusted(es: seq<Bfee>, fs: seq<Bfee>, suList: seq<nat>, muCnt: nat, st: State, cur: nat, log: Log)
    requires CoreOf(es, suList, muCnt, st, cur, log) && SameSounding(es, fs)
    requires forall i | 0 <= i < |es| :: fs[i].timeout == es[i].timeout
    ensures CoreOf(fs, suList, muCnt, st, cur, log)
  {
  }

  datatype Event =
    | Tick
    | Expire
    | Reported(status: bool)
    | Command
    | Scan(on: bool)
    | Change(idx: nat, apply: bool, delete: bool, suspend: bool, added: bool)

  /** Every entry's outcomes have only been added to. */
  ghost predicate Longer(a: seq<seq<Outcome>>, b: seq<seq<Outcome>>) {
    |a| == |b| && forall i | 0 <= i < |a| :: a[i] <= b[i]
  }

  lemma LongerTrans(a: seq<seq<Outcome>>, b: seq<seq<Outcome>>, c: seq<seq<Outcome>>)
    requires Longer(a, b) && Longer(b, c)
    ensures Longer(a, c)
  {
  }

  lemma ExtendsLonger(es: seq<Bfee>, st: State, cur: nat, outs: seq<seq<Outcome>>, status: bool, b: seq<seq<Outcome>>)
    ensures Extends(outs, b) || Extends(Noted(es, st, cur, outs, status), b) ==> Longer(outs, b)
    ensures Longer(outs, outs)
  {
    if Extends(Noted(es, st, cur, outs, status), b) {
      var o := Noted(es, st, cur, outs, status);
      forall i | 0 <= i < |outs| ensures outs[i] <= b[i] {
        assert outs[i] <= o[i];
      }
    }
  }

  /** One event. */
  method Step(s: Scheduler, event: Event, memory: bool)
    requires s.Valid()
    modifies s
    ensures s.Valid() && old(s.log) <= s.log && Longer(old(s.outcomes), s.outcomes)
  {
    hide CoreOf, Counted, Extends, Noted, Longer, AsksToLeave;
    ghost var es, st, cur, outs := s.entries, s.state, s.curIdx, s.outcomes;
    ExtendsLonger(es, st, cur, outs, true, outs);
    match event {
      case Tick => s.SoundingTimer(memory);
      case Expire =>
        if s.armed {
          s.TimeoutTimer(memory);
        }
      case Reported(status) => s.Report(status, memory);
      case Command =>
        if s.queue != [] {
          ghost var c := s.queue[0];
          s.RunCmd(memory);
          ExtendsLonger(es, st, cur, outs, c.EndPeriod? && c.status, s.outcomes);
        }
      case Scan(on) => s.scanning := on;
      case Change(i, apply, delete, suspend, added) =>
        if i < MAX_ENTRY {
          s.Adjust(i, apply, delete, suspend, added);
        }
    }
  }

  /** Any run of events, with any allocation failures, keeps the order of soundings and adds to the record of their
      ends. */
  method Run(s: Scheduler, events: seq<Event>, memory: seq<bool>)
    requires s.Valid() && |memory| == |events|
    modifies s
    ensures s.Valid() && Good(s.log) && old(s.log) <= s.log && Longer(old(s.outcomes), s.outcomes)
  {
    hide CoreOf, Counted, Longer;
    ExtendsLonger(s.entries, s.state, s.curIdx, s.outcomes, true, s.outcomes);
    for k := 0 to |events|
      invariant s.Valid() && old(s.log) <= s.log && Longer(old(s.outcomes), s.outcomes)
    {
      ghost var outs := s.outcomes;
      Step(s, events[k], memory[k]);
      LongerTrans(old(s.outcomes), outs, s.outcomes);
    }
    s.CoreIsGood();
  }
}
