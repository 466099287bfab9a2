/** What the operations of the hash amount to: over every run, for every lookup, through every expansion. */
module UtHashTheorems {
  import opened Bits
  import opened Seqs
  import opened UtHashTypes
  import opened UtHashModel
  import StableSort

  // ---------- runs ----------

  datatype Op =
    | Add(h: Handle, mem: Memory)
    | AddInorder(h: Handle, cmp: (Handle, Handle) -> int, mem: Memory)
    | Replace(h: Handle, mem: Memory)
    | Delete(h: Handle)
    | Sort(cmp: (Handle, Handle) -> int)

  /** What the macros ask of their user. */
  ghost predicate Legal(m: Model, op: Op)
    requires Shaped(m)
  {
    match op
    case Add(h, _) => h !in m.items
    case AddInorder(h, _, _) => h !in m.items
    case Replace(h, _) => h in m.items ==> Found(m, h.hashv, h.key) == h
    case Delete(h) => h in m.items
    case Sort(cmp) => StableSort.TotalPreorder(cmp, m.items)
  }

  function Apply(m: Model, op: Op): (r: Model)
    requires Shaped(m)
  {
    match op
    case Add(h, mem) => Added(m, h, |m.items|, mem)
    case AddInorder(h, cmp, mem) => Added(m, h, StableSort.Slot(cmp, m.items, h), mem)
    case Replace(h, mem) => Replaced(m, h, mem)
    case Delete(h) => Deleted(m, h)
    case Sort(cmp) => Sorted(m, cmp)
  }

  lemma StepInv(m: Model, op: Op)
    requires Inv(m) && Legal(m, op)
    ensures Inv(Apply(m, op))
  {
    hide Inv, Added, Deleted, Replaced;
    match op
    case Add(h, mem) => AddedInv(m, h, |m.items|, mem);
    case AddInorder(h, cmp, mem) => AddedInv(m, h, StableSort.Slot(cmp, m.items, h), mem);
    case Replace(h, mem) => ReplacedInv(m, h, mem);
    case Delete(h) => DeletedInv(m, h);
    case Sort(cmp) =>
      StableSort.SortPermutes(cmp, m.items);
      PermutedInv(m, StableSort.Sort(cmp, m.items));
  }

  /** The states a run passes through, each step legal where it is taken. */
  ghost predicate IsRun(states: seq<Model>, ops: seq<Op>) {
    && |states| == |ops| + 1
    && states[0] == Fresh(states[0].bloomNbits)
    && forall i | 0 <= i < |ops| :: Shaped(states[i]) && Legal(states[i], ops[i])
        && states[i + 1] == Apply(states[i], ops[i])
  }

  /** Every state of every run from an empty hash satisfies the invariant. */
  lemma {:induction false} RunInv(states: seq<Model>, ops: seq<Op>, n: nat)
    requires IsRun(states, ops) && n < |states|
    ensures Inv(states[n])
  {
    if n == 0 {
      FreshInv(states[0].bloomNbits);
    } else {
      RunInv(states, ops, n - 1);
      StepInv(states[n - 1], ops[n - 1]);
    }
  }

  // ---------- when expansion stops ----------

  lemma {:induction false} TrailingSplits(h: seq<bool>)
    ensures Trailing(h) <= |h|
    ensures forall i | |h| - Trailing(h) <= i < |h| :: h[i]
    ensures Trailing(h) < |h| ==> !h[|h| - 1 - Trailing(h)]
  {
    if h != [] && h[|h| - 1] { TrailingSplits(h[..|h| - 1]); }
  }

  /** `ineff_expands` counts the ineffective expansions in a row up to the latest one; `noexpand` is set
      exactly when the last two were ineffective; and two in a row never occur before that. */
  lemma HistoryRules(m: Model)
    requires Inv(m)
    ensures var h := m.history; var n := |h|;
            && m.ineff <= n && (forall i | n - m.ineff <= i < n :: h[i]) && (m.ineff < n ==> !h[n - 1 - m.ineff])
            && (m.noexpand <==> n >= 2 && h[n - 2] && h[n - 1])
            && (forall i | 0 <= i && i + 2 < n :: !(h[i] && h[i + 1]))
  {
    var h := m.history;
    TrailingSplits(h);
    forall i | 0 <= i && i + 2 < |h| ensures !(h[i] && h[i + 1]) {
      var p := h[..i + 2];
      assert Trailing(p) <= 1;
      TrailingSplits(p);
      assert p[i + 1] == h[i + 1] && p[i] == h[i];
    }
  }

  lemma InhibitedStep(m: Model, op: Op)
    requires Inv(m) && Legal(m, op) && m.noexpand
    ensures var r := Apply(m, op); (r.history == m.history && r.noexpand && |r.chains| == |m.chains|) || r.history == []
  {
  }

  /** A table is made with an empty history; an inhibited one never expands again until that happens. */
  lemma {:induction false} InhibitedStays(states: seq<Model>, ops: seq<Op>, a: nat, b: nat)
    requires IsRun(states, ops) && a <= b < |states| && states[a].noexpand
    requires forall i | a < i <= b :: states[i].history != []
    ensures states[b].noexpand && states[b].history == states[a].history && |states[b].chains| == |states[a].chains|
    decreases b
  {
    hide Apply, Inv;
    if a < b {
      InhibitedStays(states, ops, a, b - 1);
      RunInv(states, ops, b - 1);
      InhibitedStep(states[b - 1], ops[b - 1]);
      assert states[b - 1 + 1] == Apply(states[b - 1], ops[b - 1]);
    }
  }

  // ---------- what expansion computes ----------

  /** `CeilDiv(n, d)` is the least `q` with `n <= q * d`. */
  lemma CeilDivLeast(n: nat, d: nat, p: nat)
    requires d > 0
    ensures n <= p * d <==> CeilDiv(n, d) <= p
  {
    var q, r := n / d, n % d;
    if p < q {
      MulGap(p, q, d);
    } else if q < p {
      MulGap(q, p, d);
    }
  }

  lemma CeilDivStep(n: nat, d: nat)
    requires n > 0 && d > 0
    ensures CeilDiv(n - 1, d) <= CeilDiv(n, d) <= CeilDiv(n - 1, d) + 1
  {
    hide CeilDiv;
    var q := CeilDiv(n - 1, d);
    CeilDivLeast(n - 1, d, q);
    MulNext(q, d);
    CeilDivLeast(n, d, q + 1);
    var p := CeilDiv(n, d);
    CeilDivLeast(n, d, p);
    CeilDivLeast(n - 1, d, p);
  }

  /** `expand_mult` in closed form: no more than the items past the ideal, no more than the ideals in the count. */
  lemma {:induction false} MultClosed(count: nat, ideal: nat)
    requires ideal > 0
    ensures MultAfter(count, ideal)
         == if count <= ideal then 0
            else if count - ideal <= CeilDiv(count, ideal) then count - ideal else CeilDiv(count, ideal)
  {
    if count > 0 {
      MultClosed(count - 1, ideal);
      CeilDivStep(count, ideal);
      hide CeilDiv;
      var p := MultAfter(count - 1, ideal);
      CeilDivLeast(count, ideal, p);
      CeilDivLeast(count, ideal, 1);
    }
  }

  /** What an expansion computes from `n` items and `b` buckets: the ideal chain length is ceil(n / b). */
  lemma ExpansionIdeal(m: Model, p: nat)
    requires Inv(m)
    ensures |m.items| <= p * |Expanded(m).chains| <==> Expanded(m).ideal <= p
    ensures |Expanded(m).chains| == 2 * |m.chains|
    ensures Sum(Lengths(Expanded(m).chains)) == |m.items|
  {
    ExpandedPartition(m.items, m.chains, m.log2);
    ChainsCountItems(m.items, Redistributed(m.chains, m.log2), m.log2 + 1);
    hide CeilDiv, Partition, NewChain, Sum, MultAfter;
    CeilDivLeast(|m.items|, Pow2(m.log2 + 1), p);
  }

  lemma ExpansionMult(m: Model, i: nat)
    requires Inv(m) && m.items != [] && i < 2 * |m.chains|
    ensures |Expanded(m).chains| == 2 * |m.chains|
    ensures var r := Expanded(m); var c := |r.chains[i]|;
            && r.ideal > 0
            && r.mults[i] == if c <= r.ideal then 0
                             else if c - r.ideal <= CeilDiv(c, r.ideal) then c - r.ideal else CeilDiv(c, r.ideal)
  {
    CeilDivLeast(|m.items|, Pow2(m.log2 + 1), 0);
    var r := Expanded(m);
    MultClosed(|r.chains[i]|, r.ideal);
    hide CeilDiv, Partition, NewChain, Sum, MultAfter;
  }

  // ---------- lookups ----------

  /** The matches of a chain, first to last. */
  function Hits(chain: seq<Handle>, hashv: nat, key: Key): (r: seq<Handle>) {
    if chain == [] then []
    else (if Matches(chain[0], hashv, key) then [chain[0]] else []) + Hits(chain[1..], hashv, key)
  }

  lemma {:induction false} HitsConcat(a: seq<Handle>, b: seq<Handle>, hashv: nat, key: Key)
    ensures Hits(a + b, hashv, key) == Hits(a, hashv, key) + Hits(b, hashv, key)
  {
    if a == [] {
      assert a + b == b;
    } else {
      assert (a + b)[1..] == a[1..] + b;
      HitsConcat(a[1..], b, hashv, key);
      var first := if Matches(a[0], hashv, key) then [a[0]] else [];
      assert Hits(a, hashv, key) == first + Hits(a[1..], hashv, key);
      assert Hits(a + b, hashv, key) == first + Hits(a[1..] + b, hashv, key);
      hide Hits, Matches;
      Assoc(first, Hits(a[1..], hashv, key), Hits(b, hashv, key));
    }
  }

  lemma {:induction false} LookupIsFirstHit(chain: seq<Handle>, hashv: nat, key: Key)
    ensures Lookup(chain, hashv, key) == if Hits(chain, hashv, key) == [] then null else Hits(chain, hashv, key)[0]
  {
    if chain != [] { LookupIsFirstHit(chain[1..], hashv, key); }
  }

  lemma {:induction false} HitsMembers(chain: seq<Handle>, hashv: nat, key: Key)
    requires NoDup(chain)
    ensures NoDup(Hits(chain, hashv, key))
    ensures forall i | 0 <= i < |Hits(chain, hashv, key)| ::
              Hits(chain, hashv, key)[i] in chain && Matches(Hits(chain, hashv, key)[i], hashv, key)
  {
    if chain != [] {
      var t := Hits(chain[1..], hashv, key);
      HitsMembers(chain[1..], hashv, key);
      assert chain == [chain[0]] + chain[1..];
      assert chain[0] !in t;
      NoDupConcat([chain[0]], t);
    }
  }

  lemma {:induction false} HitsAll(chain: seq<Handle>, hashv: nat, key: Key, x: Handle)
    requires x in chain && Matches(x, hashv, key)
    ensures x in Hits(chain, hashv, key)
  {
    if chain[0] != x { HitsAll(chain[1..], hashv, key, x); }
  }

  /** A sequence backwards. */
  function Rev(s: seq<Handle>): (r: seq<Handle>)
    ensures |r| == |s|
    ensures s != [] ==> r[0] == s[|s| - 1]
  {
    if s == [] then [] else Rev(s[1..]) + [s[0]]
  }

  lemma {:induction false} RevSnoc(s: seq<Handle>, x: Handle)
    ensures Rev(s + [x]) == [x] + Rev(s)
  {
    if s != [] {
      assert (s + [x])[1..] == s[1..] + [x];
      RevSnoc(s[1..], x);
    }
  }

  /** An expansion turns the matches of a chain around. */
  lemma {:induction false} HitsReversed(chain: seq<Handle>, b: nat, k: nat, hashv: nat, key: Key)
    requires BucketOf(hashv, k) == b
    ensures Hits(NewChain(chain, b, k), hashv, key) == Rev(Hits(chain, hashv, key))
  {
    if chain != [] {
      var n := |chain| - 1;
      var u, h := chain[..n], chain[n];
      var hu := Hits(u, hashv, key);
      assert chain == u + [h];
      HitsReversed(u, b, k, hashv, key);
      HitsConcat(u, [h], hashv, key);
      HitsConcat([h], NewChain(u, b, k), hashv, key);
      assert Hits([h], hashv, key) == if Matches(h, hashv, key) then [h] else [];
      if Matches(h, hashv, key) {
        assert Home(h, k) == b;
        RevSnoc(hu, h);
      } else {
        assert hu + [] == hu && [] + Rev(hu) == Rev(hu);
      }
    }
  }

  lemma OnlyHit(hits: seq<Handle>)
    requires NoDup(hits)
    ensures (if Rev(hits) == [] then null else Rev(hits)[0]) == (if hits == [] then null else hits[0]) <==> |hits| <= 1
  {
  }

  /** HASH_FIND answers the first match of the bucket the hash value selects. */
  lemma FoundIsFirstHit(m: Model, hashv: nat, key: Key)
    requires Partition(m.items, m.chains, m.log2) && BloomOk(m)
    ensures var hits := Hits(m.chains[BucketOf(hashv, m.log2)], hashv, key);
            Found(m, hashv, key) == if hits == [] then null else hits[0]
  {
    var chain := m.chains[BucketOf(hashv, m.log2)];
    LookupIsFirstHit(chain, hashv, key);
    LookupMatches(chain, hashv, key);
    assert InBucket(chain, BucketOf(hashv, m.log2), m.log2);
  }

  /** Two items match. */
  ghost predicate Clash(m: Model, hashv: nat, key: Key) {
    exists x: Handle, y: Handle :: x in m.items && y in m.items && Matches(x, hashv, key) && Matches(y, hashv, key)
        && x != y
  }

  lemma HitsClash(m: Model, hashv: nat, key: Key)
    requires Partition(m.items, m.chains, m.log2)
    ensures var hits := Hits(m.chains[BucketOf(hashv, m.log2)], hashv, key);
            NoDup(hits) && (|hits| <= 1 <==> !Clash(m, hashv, key))
  {
    var b := BucketOf(hashv, m.log2);
    assert InBucket(m.chains[b], b, m.log2);
    HitsMembers(m.chains[b], hashv, key);
    var hits := Hits(m.chains[b], hashv, key);
    if |hits| >= 2 {
      assert hits[0] in m.chains[b] && hits[1] in m.chains[b];
    }
    if Clash(m, hashv, key) {
      var x: Handle, y: Handle :| x in m.items && y in m.items && Matches(x, hashv, key) && Matches(y, hashv, key)
          && x != y;
      assert Home(x, m.log2) == b && Home(y, m.log2) == b;
      HitsAll(m.chains[b], hashv, key, x);
      HitsAll(m.chains[b], hashv, key, y);
    }
  }

  /** An expansion changes no lookup but those that several items match: there the answer changes. */
  lemma ExpansionKeepsFound(m: Model, hashv: nat, key: Key)
    requires Inv(m)
    ensures Found(Expanded(m), hashv, key) == Found(m, hashv, key) <==> !Clash(m, hashv, key)
  {
    hide NewChain, MultAfter, Clash, Home, BucketOf, Parent, Hits, Lookup, Found, Sum, CeilDiv, Rev, NoDup;
    var b, c := BucketOf(hashv, m.log2), BucketOf(hashv, m.log2 + 1);
    var chain := m.chains[b];
    BucketSplits(hashv, m.log2);
    ExpandedPartition(m.items, m.chains, m.log2);
    FoundIsFirstHit(m, hashv, key);
    FoundIsFirstHit(Expanded(m), hashv, key);
    HitsReversed(chain, c, m.log2 + 1, hashv, key);
    HitsClash(m, hashv, key);
    OnlyHit(Hits(chain, hashv, key));
  }

  // ---------- the expansion an addition makes ----------

  /** The state an addition expands: the item is in its place, and its Bloom bit is set. */
  function Enlarged(m: Model, h: Handle, pos: nat): (r: Model)
    requires Shaped(m) && pos <= |m.items|
  {
    Bloomed(Placed(m, h, pos), h)
  }

  /** An addition that has to expand, and may, leaves the expansion of a state that satisfies the invariant. */
  lemma AddedIsExpansion(m: Model, h: Handle, pos: nat, mem: Memory)
    requires Inv(m) && pos <= |m.items| && h !in m.items && AddExpands(m, h) && !AddFails(m, h, mem)
    ensures var q := Enlarged(m, h, pos);
      && Inv(q) && |q.items| == |m.items| + 1 && |q.chains| == |m.chains| && Shaped(q)
      && Added(m, h, pos, mem) == Expanded(q)
  {
    PlacedPartition(m, h, pos);
    hide Partition, NewChain, Redistributed, MultAfter, Sum, Trailing, NoDup, BloomOk, Home, CeilDiv;
    BloomedInv(m, Placed(m, h, pos), h);
  }

  /** By how much each chain exceeds `ideal`. */
  function Beyond(chains: seq<seq<Handle>>, ideal: nat): (r: seq<nat>)
    ensures |r| == |chains|
    ensures forall i | 0 <= i < |chains| :: r[i] == if |chains[i]| > ideal then |chains[i]| - ideal else 0
  {
    seq(|chains|, i requires 0 <= i < |chains| => if |chains[i]| > ideal then |chains[i]| - ideal else 0)
  }

  /** An expansion is ineffective when it leaves more than half of the items past the ideal position of their chain. */
  lemma ExpansionVerdict(m: Model)
    requires Shaped(m)
    ensures var r := Expanded(m);
      var past := Sum(Beyond(r.chains, r.ideal));
      && r.nonideal == past
      && r.history == m.history + [2 * past > |m.items|]
      && r.ineff == (if 2 * past > |m.items| then m.ineff + 1 else 0)
      && r.noexpand == (m.noexpand || r.ineff >= 2)
      && ((forall i | 0 <= i < |r.chains| :: |r.chains[i]| <= r.ideal) ==> r.ineff == 0 && r.noexpand == m.noexpand)
  {
    hide CeilDiv, NewChain, Sum, MultAfter;
    var r := Expanded(m);
    var past := Beyond(r.chains, r.ideal);
    assert Excesses(r.chains, r.ideal) == past;
    if forall i | 0 <= i < |r.chains| :: |r.chains[i]| <= r.ideal {
      SumZero(past);
    }
  }

  /** When a table grows: an addition doubles its buckets, or fails, exactly when the item's bucket then holds ten items
      or more for each of its allowance and expansion is not inhibited; memory decides which. */
  lemma GrowthRule(m: Model, h: Handle, pos: nat, mem: Memory)
    requires Inv(m) && m.items != [] && pos <= |m.items| && h !in m.items
    ensures Shaped(m) && |m.chains| > 0
    ensures var r, b := Added(m, h, pos, mem), h.hashv % |m.chains|;
      var crowded := |m.chains[b]| + 1 >= 10 * (m.mults[b] + 1) && !m.noexpand;
      && |r.chains| == (if crowded && mem.expansion then 2 * |m.chains| else |m.chains|)
      && r.items == (if crowded && !mem.expansion then m.items else m.items[..pos] + [h] + m.items[pos..])
      && (!crowded ==> r.chains == m.chains[b := [h] + m.chains[b]])
      && (crowded && !mem.expansion ==> r == m)
  {
    hide Redistributed, NewChain, Sum, MultAfter, CeilDiv, Partition, BloomOk, CountersOk, NoDup;
    InvShaped(m);
    assert Pow2(m.log2) > 0;
  }

  /** The first addition makes a table of 32 buckets that holds one item, unless one of three allocations fails. */
  lemma FirstAddition(m: Model, h: Handle, mem: Memory)
    requires Inv(m) && m.items == []
    ensures Shaped(m)
    ensures var r := Added(m, h, 0, mem);
      if mem.table && mem.buckets && mem.bloom then
        && r.items == [h] && |r.chains| == 32 && !r.noexpand && r.ineff == 0
        && forall b | 0 <= b < 32 :: r.chains[b] == if b == h.hashv % 32 then [h] else []
      else r == m
  {
    FreshShaped(m.bloomNbits);
    hide Redistributed, NewChain, Sum, MultAfter, CeilDiv, Partition, BloomOk, CountersOk, NoDup;
  }

  /** After an addition without expansion the new item is what a lookup of its key finds, also when other items carry
      the key, and every other lookup answers as before. */
  lemma NewestFound(m: Model, h: Handle, pos: nat, mem: Memory, hashv: nat, key: Key)
    requires Inv(m) && Shaped(m) && pos <= |m.items| && h !in m.items && !AddFails(m, h, mem) && !AddExpands(m, h)
    ensures var r := Added(m, h, pos, mem);
      Shaped(r) && Found(r, hashv, key) == if hashv == h.hashv && key == h.key then h else Found(m, hashv, key)
  {
    hide Redistributed, NewChain, Sum, MultAfter, CeilDiv, CountersOk, Partition, NoDup, BloomOk, Hits, BucketOf;
    AddedInv(m, h, pos, mem);
    FoundIsFirstHit(m, hashv, key);
    FoundIsFirstHit(Added(m, h, pos, mem), hashv, key);
    HitsFront(h, m.chains[BucketOf(hashv, m.log2)], hashv, key);
  }

  lemma HitsFront(h: Handle, c: seq<Handle>, hashv: nat, key: Key)
    ensures Hits([h] + c, hashv, key)
         == if Matches(h, hashv, key) then [h] + Hits(c, hashv, key) else Hits(c, hashv, key)
  {
    assert ([h] + c)[1..] == c;
  }

  /** A deletion takes the item out of the list and out of its chain, where it stood, and changes no counter; the last
      item leaves an empty hash. */
  lemma DeletionCuts(m: Model, h: Handle)
    requires Inv(m) && h in m.items
    ensures Shaped(m) && |m.chains| > 0
    ensures var r := Deleted(m, h);
      exists i | 0 <= i < |m.items| :: m.items[i] == h && r.items == m.items[..i] + m.items[i + 1..]
    ensures |m.items| > 1 ==>
              var r, b := Deleted(m, h), h.hashv % |m.chains|;
              var c := m.chains[b];
              && r == m.(items := r.items, chains := m.chains[b := r.chains[b]])
              && exists j | 0 <= j < |c| :: c[j] == h && r.chains[b] == c[..j] + c[j + 1..]
  {
    hide CountersOk, BloomOk, NoDup;
    InvShaped(m);
    var i := IndexOf(m.items, h);
    var c := m.chains[Home(h, m.log2)];
    assert m.items[i] == h && RemoveAt(m.items, i) == m.items[..i] + m.items[i + 1..];
    assert h in c;
    var j := IndexOf(c, h);
    assert c[j] == h && RemoveAt(c, j) == c[..j] + c[j + 1..];
    if |m.items| == 1 {
      assert m.items[..0] + m.items[1..] == [];
    }
  }

  /** What an addition that expands computes, and what it does to lookups. */
  lemma AdditionExpands(m: Model, h: Handle, pos: nat, mem: Memory, p: nat, i: nat, hashv: nat, key: Key)
    requires Inv(m) && pos <= |m.items| && h !in m.items && AddExpands(m, h) && !AddFails(m, h, mem)
    requires i < 2 * |m.chains|
    ensures var r, q := Added(m, h, pos, mem), Enlarged(m, h, pos);
      && |r.chains| == 2 * |m.chains| && Shaped(q) && Shaped(r)
      && (|m.items| + 1 <= p * |r.chains| <==> r.ideal <= p)
      && r.ideal > 0
      && (var c := |r.chains[i]|;
          r.mults[i] == if c <= r.ideal then 0
                        else if c - r.ideal <= CeilDiv(c, r.ideal) then c - r.ideal else CeilDiv(c, r.ideal))
      && (Found(r, hashv, key) == Found(q, hashv, key) <==> !Clash(q, hashv, key))
    ensures var r := Added(m, h, pos, mem);
      var past := Sum(Beyond(r.chains, r.ideal));
      && r.nonideal == past
      && r.history == m.history + [2 * past > |m.items| + 1]
      && r.ineff == (if 2 * past > |m.items| + 1 then m.ineff + 1 else 0)
      && r.noexpand == (m.noexpand || r.ineff >= 2)
      && ((forall j | 0 <= j < |r.chains| :: |r.chains[j]| <= r.ideal) ==> r.ineff == 0)
  {
    hide *;
    InvShaped(m);
    var q := Enlarged(m, h, pos);
    AddedIsExpansion(m, h, pos, mem);
    InvShaped(q);
    ExpandedShaped(q);
    ExpansionIdeal(q, p);
    ExpansionMult(q, i);
    ExpansionKeepsFound(q, hashv, key);
    ExpansionVerdict(q);
    SameCounters(m, h, pos);
  }

  lemma SameCounters(m: Model, h: Handle, pos: nat)
    requires Shaped(m) && pos <= |m.items|
    ensures var q := Enlarged(m, h, pos); q.history == m.history && q.ineff == m.ineff && q.noexpand == m.noexpand
  {
  }

  lemma ExpandedShaped(m: Model)
    requires Shaped(m)
    ensures Shaped(Expanded(m))
  {
  }

  // ---------- the table as a finite map ----------

  /** Every item carries the hash of its key, and no two items share a key. */
  ghost predicate Keyed(m: Model, hash: Key -> nat) {
    && (forall x: Handle | x in m.items :: x.hashv == hash(x.key))
    && (forall x: Handle, y: Handle | x in m.items && y in m.items && x.key == y.key :: x == y)
  }

  ghost function KeyMap(m: Model, hash: Key -> nat): (r: map<Key, Handle>)
    requires Keyed(m, hash)
    ensures forall x: Handle | x in m.items :: x.key in r && r[x.key] == x
    ensures forall k | k in r :: r[k] in m.items && r[k].key == k
  {
    map x: Handle | x in m.items :: x.key := x
  }

  lemma MapsAgree(m: Model, hash: Key -> nat, r: map<Key, Handle>)
    requires Keyed(m, hash)
    requires forall i | 0 <= i < |m.items| :: m.items[i].key in r
    requires forall k | k in r :: r[k] in m.items && r[k].key == k
    ensures KeyMap(m, hash) == r
  {
    var q := KeyMap(m, hash);
    forall k ensures k in q <==> k in r {
      if k in q { assert q[k] in m.items; }
      if k in r { assert r[k] in m.items; }
    }
    forall k | k in q ensures q[k] == r[k] {
      assert q[k] in m.items;
    }
  }

  /** HASH_FIND is the map's lookup. */
  lemma FindIsLookup(m: Model, hash: Key -> nat, key: Key)
    requires Inv(m) && Keyed(m, hash)
    ensures var q := KeyMap(m, hash);
            Found(m, hash(key), key) == if key in q then q[key] else null
  {
    FoundIsScan(m, hash(key), key);
    var q := KeyMap(m, hash);
    if key in q { assert q[key] in m.items && Matches(q[key], hash(key), key); }
  }

  lemma InvShaped(m: Model)
    requires Inv(m)
    ensures Shaped(m)
  {
  }

  lemma KeyedSub(m: Model, r: Model, hash: Key -> nat)
    requires Keyed(m, hash)
    requires forall i | 0 <= i < |r.items| :: r.items[i] in m.items
    ensures Keyed(r, hash)
  {
  }

  lemma DeletedItems(m: Model, h: Handle)
    requires Inv(m) && h in m.items
    ensures Shaped(m)
    ensures forall i | 0 <= i < |Deleted(m, h).items| ::
              Deleted(m, h).items[i] in m.items && Deleted(m, h).items[i] != h
    ensures forall i | 0 <= i < |m.items| :: m.items[i] in Deleted(m, h).items || m.items[i] == h
  {
    DeletedInv(m, h);
    var r := Deleted(m, h);
    forall i | 0 <= i < |r.items| ensures r.items[i] in m.items && r.items[i] != h {
      assert r.items[i] in r.items;
    }
  }

  /** HASH_DELETE removes the key. */
  lemma DeleteIsRemove(m: Model, hash: Key -> nat, h: Handle)
    requires Inv(m) && Keyed(m, hash) && h in m.items
    ensures Shaped(m) && Keyed(Deleted(m, h), hash)
    ensures KeyMap(Deleted(m, h), hash) == KeyMap(m, hash) - {h.key}
  {
    hide Inv, Deleted;
    DeletedItems(m, h);
    KeyedSub(m, Deleted(m, h), hash);
    MapsAgree(Deleted(m, h), hash, KeyMap(m, hash) - {h.key});
  }

  /** An addition under a new key, if memory lasts, adds the key. */
  lemma AddIsUpdate(m: Model, hash: Key -> nat, h: Handle, pos: nat, mem: Memory)
    requires Inv(m) && Keyed(m, hash) && pos <= |m.items|
    requires h !in m.items && h.hashv == hash(h.key) && h.key !in KeyMap(m, hash)
    ensures Keyed(Added(m, h, pos, mem), hash)
    ensures KeyMap(Added(m, h, pos, mem), hash) == if AddFails(m, h, mem) then KeyMap(m, hash)
        else KeyMap(m, hash)[h.key := h]
  {
    if !AddFails(m, h, mem) {
      PlacedPartition(m, h, pos);
      var r := Added(m, h, pos, mem);
      assert r.items == Placed(m, h, pos).items;
      hide Inv, Added, Placed, Partition;
      MapsAgree(r, hash, KeyMap(m, hash)[h.key := h]);
    }
  }

  /** HASH_REPLACE is the map's update; out of memory, the key is gone and nothing else has changed. */
  lemma ReplaceIsUpdate(m: Model, hash: Key -> nat, h: Handle, mem: Memory)
    requires Inv(m) && Keyed(m, hash) && h.hashv == hash(h.key)
    ensures Shaped(m) && Legal(m, Replace(h, mem))
    ensures var d := if h.key in KeyMap(m, hash) then Deleted(m, KeyMap(m, hash)[h.key]) else m;
            && Keyed(Replaced(m, h, mem), hash)
            && KeyMap(Replaced(m, h, mem), hash)
               == if AddFails(d, h, mem) then KeyMap(m, hash) - {h.key} else KeyMap(m, hash)[h.key := h]
  {
    hide Inv, Found, Deleted, Added, AddFails, Keyed;
    InvShaped(m);
    FindIsLookup(m, hash, h.key);
    var q := KeyMap(m, hash);
    if h.key in q {
      DeleteThenAdd(m, hash, q[h.key], h, mem);
    } else {
      NewKeyIsNew(m, hash, h);
      AddIsUpdate(m, hash, h, |m.items|, mem);
      assert q - {h.key} == q;
    }
  }

  lemma NewKeyIsNew(m: Model, hash: Key -> nat, h: Handle)
    requires Keyed(m, hash)
    ensures h in m.items ==> h.key in KeyMap(m, hash) && KeyMap(m, hash)[h.key] == h
  {
  }

  lemma DeleteThenAdd(m: Model, hash: Key -> nat, x: Handle, h: Handle, mem: Memory)
    requires Inv(m) && Keyed(m, hash) && h.hashv == hash(h.key) && x in m.items && x.key == h.key
    ensures h in m.items ==> h == x
    ensures Shaped(m) && Keyed(Added(Deleted(m, x), h, |Deleted(m, x).items|, mem), hash)
    ensures KeyMap(Added(Deleted(m, x), h, |Deleted(m, x).items|, mem), hash)
         == if AddFails(Deleted(m, x), h, mem) then KeyMap(m, hash) - {h.key} else KeyMap(m, hash)[h.key := h]
  {
    hide Inv, Deleted, Added, AddFails, Keyed, KeyMap;
    var q := KeyMap(m, hash);
    InvShaped(m);
    DeletedInv(m, x);
    DeleteIsRemove(m, hash, x);
    NewKeyIsNew(m, hash, h);
    NewKeyIsNew(Deleted(m, x), hash, h);
    AddIsUpdate(Deleted(m, x), hash, h, |Deleted(m, x).items|, mem);
    assert (q - {h.key})[h.key := h] == q[h.key := h];
  }

  lemma SortedMembers(m: Model, cmp: (Handle, Handle) -> int)
    ensures forall i | 0 <= i < |Sorted(m, cmp).items| :: Sorted(m, cmp).items[i] in m.items
    ensures forall i | 0 <= i < |m.items| :: m.items[i] in Sorted(m, cmp).items
  {
    var r := Sorted(m, cmp).items;
    forall i | 0 <= i < |r| ensures r[i] in m.items {
      StableSort.InSorted(cmp, m.items, r[i]);
    }
    forall i | 0 <= i < |m.items| ensures m.items[i] in r {
      StableSort.InSorted(cmp, m.items, m.items[i]);
    }
  }

  /** HASH_SRT keeps the map. */
  lemma SortKeepsMap(m: Model, hash: Key -> nat, cmp: (Handle, Handle) -> int)
    requires Inv(m) && Keyed(m, hash)
    ensures Keyed(Sorted(m, cmp), hash) && KeyMap(Sorted(m, cmp), hash) == KeyMap(m, hash)
  {
    hide Sorted, Inv;
    SortedMembers(m, cmp);
    KeyedSub(m, Sorted(m, cmp), hash);
    MapsAgree(Sorted(m, cmp), hash, KeyMap(m, hash));
  }

  /** Does memory run out in this step? */
  ghost predicate Fails(m: Model, hash: Key -> nat, op: Op)
    requires Shaped(m) && Keyed(m, hash)
  {
    match op
    case Add(h, mem) => AddFails(m, h, mem)
    case AddInorder(h, _, mem) => AddFails(m, h, mem)
    case Replace(h, mem) =>
      AddFails(if h.key in KeyMap(m, hash) then Deleted(m, KeyMap(m, hash)[h.key]) else m, h, mem)
    case Delete(_) => false
    case Sort(_) => false
  }

  /** The operations on a finite map. */
  function MapStep(q: map<Key, Handle>, op: Op, fails: bool): (r: map<Key, Handle>) {
    match op
    case Add(h, _) => if fails then q else q[h.key := h]
    case AddInorder(h, _, _) => if fails then q else q[h.key := h]
    case Replace(h, _) => if fails then q - {h.key} else q[h.key := h]
    case Delete(h) => q - {h.key}
    case Sort(_) => q
  }

  /** How a user who keeps keys unique calls the macros. */
  predicate KeyUse(q: map<Key, Handle>, hash: Key -> nat, op: Op) {
    match op
    case Add(h, _) => h.hashv == hash(h.key) && h.key !in q
    case AddInorder(h, _, _) => h.hashv == hash(h.key) && h.key !in q
    case Replace(h, _) => h.hashv == hash(h.key)
    case Delete(h) => h.key in q && q[h.key] == h
    case Sort(cmp) => true
  }

  lemma StepRefines(m: Model, hash: Key -> nat, op: Op)
    requires Inv(m) && Shaped(m) && Keyed(m, hash) && Legal(m, op) && KeyUse(KeyMap(m, hash), hash, op)
    ensures Keyed(Apply(m, op), hash)
    ensures KeyMap(Apply(m, op), hash) == MapStep(KeyMap(m, hash), op, Fails(m, hash, op))
  {
    hide Inv, Keyed, KeyMap, Added, Deleted, Replaced, AddFails, Sorted;
    match op
    case Add(h, mem) => AddIsUpdate(m, hash, h, |m.items|, mem);
    case AddInorder(h, cmp, mem) => AddIsUpdate(m, hash, h, StableSort.Slot(cmp, m.items, h), mem);
    case Replace(h, mem) => ReplaceIsUpdate(m, hash, h, mem);
    case Delete(h) => DeleteIsRemove(m, hash, h);
    case Sort(cmp) => SortKeepsMap(m, hash, cmp);
  }

  /** The maps a run passes through, when `fails` says where memory ran out. */
  ghost predicate MapRun(maps: seq<map<Key, Handle>>, ops: seq<Op>, hash: Key -> nat, fails: seq<bool>) {
    && |maps| == |ops| + 1 && |fails| == |ops| && maps[0] == map[]
    && forall i | 0 <= i < |ops| ::
         KeyUse(maps[i], hash, ops[i]) && maps[i + 1] == MapStep(maps[i], ops[i], fails[i])
  }

  ghost predicate FailsAt(m: Model, hash: Key -> nat, op: Op, fails: bool) {
    Shaped(m) && (Keyed(m, hash) ==> fails == Fails(m, hash, op))
  }

  /** Over any run the table is the map, and every lookup in every state is the map's. */
  lemma {:induction false} RunRefines(states: seq<Model>, maps: seq<map<Key, Handle>>, ops: seq<Op>, hash: Key -> nat,
                                      fails: seq<bool>, n: nat, key: Key)
    requires IsRun(states, ops) && MapRun(maps, ops, hash, fails) && n < |states|
    requires forall i | 0 <= i < |ops| :: FailsAt(states[i], hash, ops[i], fails[i])
    ensures Shaped(states[n]) && Keyed(states[n], hash) && KeyMap(states[n], hash) == maps[n]
    ensures Found(states[n], hash(key), key) == if key in maps[n] then maps[n][key] else null
    decreases n
  {
    hide Inv, Apply, MapStep, KeyUse, Fails, Legal, Keyed, KeyMap, Found;
    RunInv(states, ops, n);
    InvShaped(states[n]);
    if n == 0 {
      FreshKeyed(states[0].bloomNbits, hash);
    } else {
      RunRefines(states, maps, ops, hash, fails, n - 1, key);
      RunInv(states, ops, n - 1);
      assert FailsAt(states[n - 1], hash, ops[n - 1], fails[n - 1]);
      StepRefines(states[n - 1], hash, ops[n - 1]);
      assert states[n - 1 + 1] == Apply(states[n - 1], ops[n - 1]);
      assert maps[n - 1 + 1] == MapStep(maps[n - 1], ops[n - 1], fails[n - 1]);
    }
    FindIsLookup(states[n], hash, key);
  }

  lemma FreshKeyed(nbits: nat, hash: Key -> nat)
    ensures Keyed(Fresh(nbits), hash) && KeyMap(Fresh(nbits), hash) == map[]
  {
    MapsAgree(Fresh(nbits), hash, map[]);
  }

  // ---------- order ----------

  /** The hash after ordered additions of `hs`, first to last, when memory lasts. */
  function AddedInorder(m: Model, hs: seq<Handle>, cmp: (Handle, Handle) -> int, mem: Memory): (r: Model)
    requires Shaped(m)
    ensures Shaped(r)
  {
    if hs == [] then m
    else
      var p := AddedInorder(m, hs[..|hs| - 1], cmp, mem);
      AddedShaped(p, hs[|hs| - 1], StableSort.Slot(cmp, p.items, hs[|hs| - 1]), mem);
      Added(p, hs[|hs| - 1], StableSort.Slot(cmp, p.items, hs[|hs| - 1]), mem)
  }

  lemma AddedShaped(m: Model, h: Handle, pos: nat, mem: Memory)
    requires Shaped(m) && pos <= |m.items|
    ensures Shaped(Added(m, h, pos, mem))
  {
  }

  /** Ordered additions to an empty hash leave the list that HASH_SORT makes of plain additions. */
  lemma {:induction false} InorderIsSort(nbits: nat, hs: seq<Handle>, cmp: (Handle, Handle) -> int, mem: Memory)
    requires mem == Memory(true, true, true, true)
    ensures Shaped(Fresh(nbits)) && AddedInorder(Fresh(nbits), hs, cmp, mem).items == StableSort.Sort(cmp, hs)
  {
    FreshShaped(nbits);
    if hs != [] {
      InorderIsSort(nbits, hs[..|hs| - 1], cmp, mem);
    }
  }
}
