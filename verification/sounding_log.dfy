/** What a sounding schedule may do: the order of events within every sounding period. */
module SoundingLog {

  /** A new period with its listed single-user and multi-user beamformees, a single-user sounding, a multi-user
      round, the end of the period. A period without any is what the clearing of the lists amounts to when the last
      beamformee leaves. */
  datatype Item = Start(list: seq<nat>, mus: seq<nat>) | Su(idx: nat) | Mu | Done

  type Log = seq<Item>

  /** The single-user list of the current period. */
  function Listed(log: Log): (l: seq<nat>) {
    if log == [] then []
    else
      var n := |log| - 1;
      if log[n].Start? then log[n].list else Listed(log[..n])
  }

  /** The multi-user list of the current period. */
  function ListedMu(log: Log): (l: seq<nat>) {
    if log == [] then []
    else
      var n := |log| - 1;
      if log[n].Start? then log[n].mus else ListedMu(log[..n])
  }

  /** Every single-user beamformee of the current period has been started. */
  predicate AllSu(log: Log) {
    forall i | 0 <= i < |Listed(log)| :: Happened(log, Su(Listed(log)[i]))
  }

  /** `x` happened in the current period. */
  predicate Happened(log: Log, x: Item) {
    log != [] && var n := |log| - 1; !log[n].Start? && (log[n] == x || Happened(log[..n], x))
  }

  predicate Allowed(log: Log, x: Item) {
    match x
    case Start(_, _) => true
    case Su(i) => i in Listed(log) && !Happened(log, Su(i)) && !Happened(log, Mu)
    case Mu => ListedMu(log) != [] && !Happened(log, Mu) && AllSu(log)
    case Done => AllSu(log) && (ListedMu(log) != [] ==> Happened(log, Mu))
  }

  predicate Good(log: Log) {
    log == [] || (Good(log[..|log| - 1]) && Allowed(log[..|log| - 1], log[|log| - 1]))
  }

  lemma Append(log: Log, x: Item)
    ensures Good(log + [x]) <==> Good(log) && Allowed(log, x)
    ensures Listed(log + [x]) == if x.Start? then x.list else Listed(log)
    ensures ListedMu(log + [x]) == if x.Start? then x.mus else ListedMu(log)
    ensures forall y :: Happened(log + [x], y) <==> !x.Start? && (x == y || Happened(log, y))
  {
    var l := log + [x];
    assert l[..|l| - 1] == log;
  }

  // ---------- what a good log means ----------

  predicate NoStart(log: Log, lo: nat, hi: nat)
    requires lo <= hi <= |log|
  {
    forall k | lo <= k < hi :: !log[k].Start?
  }

  lemma {:induction false} HappenedAt(log: Log, k: nat)
    requires k < |log| && NoStart(log, k, |log|)
    ensures Happened(log, log[k])
    decreases |log|
  {
    var n := |log| - 1;
    if k < n {
      HappenedAt(log[..n], k);
    }
  }

  lemma {:induction false} HappenedWhen(log: Log, x: Item) returns (k: nat)
    requires Happened(log, x)
    ensures k < |log| && log[k] == x && NoStart(log, k, |log|)
    decreases |log|
  {
    var n := |log| - 1;
    if log[n] == x {
      k := n;
    } else {
      k := HappenedWhen(log[..n], x);
      assert forall j | k <= j < n :: log[j] == log[..n][j];
    }
  }

  lemma {:induction false} GoodPrefix(log: Log, k: nat)
    requires Good(log) && k < |log|
    ensures Good(log[..k]) && Allowed(log[..k], log[k])
    decreases |log|
  {
    var n := |log| - 1;
    if k < n {
      GoodPrefix(log[..n], k);
      assert log[..n][..k] == log[..k];
    }
  }

  /** Within one period nothing is started twice. */
  lemma AtMostOnce(log: Log, a: nat, b: nat)
    requires Good(log) && a < b < |log| && NoStart(log, a, b + 1) && log[a] != Done
    ensures log[a] != log[b]
  {
    GoodPrefix(log, b);
    if log[a] == log[b] {
      HappenedAt(log[..b], a);
    }
  }

  lemma {:induction false} ListedAt(log: Log, s: nat)
    requires s < |log| && log[s].Start? && NoStart(log, s + 1, |log|)
    ensures Listed(log) == log[s].list && ListedMu(log) == log[s].mus
    decreases |log|
  {
    var n := |log| - 1;
    if s < n { ListedAt(log[..n], s); }
  }

  /** A multi-user round comes after a sounding of every listed single-user beamformee of its period, and after it
      there is none. */
  lemma MuAfterAllSu(log: Log, s: nat, m: nat, i: nat)
    requires Good(log) && s < m < |log| && log[s].Start? && NoStart(log, s + 1, m) && log[m] == Mu
    requires i in log[s].list
    ensures exists k | s < k < m :: log[k] == Su(i)
    ensures forall k | m < k < |log| && NoStart(log, m, k) :: !log[k].Su?
  {
    GoodPrefix(log, m);
    ListedAt(log[..m], s);
    var j :| 0 <= j < |log[s].list| && log[s].list[j] == i;
    assert Happened(log[..m], Su(i));
    var k := HappenedWhen(log[..m], Su(i));
    assert log[k] == Su(i);
    forall k | m < k < |log| && NoStart(log, m, k) ensures !log[k].Su? {
      GoodPrefix(log, k);
      HappenedAt(log[..k], m);
    }
  }

  /** Every single-user sounding is of a beamformee listed for its period. */
  lemma SuIsListed(log: Log, s: nat, k: nat)
    requires Good(log) && s < k < |log| && log[s].Start? && NoStart(log, s + 1, k) && log[k].Su?
    ensures log[k].idx in log[s].list
  {
    GoodPrefix(log, k);
    ListedAt(log[..k], s);
  }

  /** A period that is over has sounded every listed beamformee. */
  lemma DoneAfterAll(log: Log, s: nat, d: nat, i: nat)
    requires Good(log) && s < d < |log| && log[s].Start? && NoStart(log, s + 1, d) && log[d] == Done
    ensures i in log[s].list ==> exists k | s < k < d :: log[k] == Su(i)
    ensures log[s].mus != [] ==> exists k | s < k < d :: log[k] == Mu
  {
    GoodPrefix(log, d);
    ListedAt(log[..d], s);
    if i in log[s].list {
      var j :| 0 <= j < |log[s].list| && log[s].list[j] == i;
      var k := HappenedWhen(log[..d], Su(i));
      assert log[k] == Su(i);
    }
    if log[s].mus != [] {
      var k := HappenedWhen(log[..d], Mu);
      assert log[k] == Mu;
    }
  }
}
