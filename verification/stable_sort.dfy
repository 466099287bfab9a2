/** The order specification shared by the ordered insertion and the list mergesort
    of the hash table: insertion after the last element that does not exceed the new one. */
module StableSort {
  import opened Seqs

  /** The comparison orders the elements of `s`, ties allowed. */
  ghost predicate TotalPreorder<T>(cmp: (T, T) -> int, s: seq<T>) {
    && (forall x, y {:trigger cmp(x, y)} | x in s && y in s :: cmp(x, y) <= 0 || cmp(y, x) <= 0)
    && (forall x, y, z {:trigger cmp(x, y), cmp(y, z)} |
          x in s && y in s && z in s && cmp(x, y) <= 0 && cmp(y, z) <= 0 ::
          cmp(x, z) <= 0)
  }

  ghost predicate Sorted<T>(cmp: (T, T) -> int, s: seq<T>) {
    forall i, j | 0 <= i < j < |s| :: cmp(s[i], s[j]) <= 0
  }

  /** The index of the first element strictly greater than `x`, or the length. */
  function Slot<T>(cmp: (T, T) -> int, s: seq<T>, x: T): (p: nat)
    ensures p <= |s|
    ensures forall i | 0 <= i < p :: cmp(s[i], x) <= 0
    ensures p < |s| ==> cmp(s[p], x) > 0
  {
    if s == [] || cmp(s[0], x) > 0 then 0 else 1 + Slot(cmp, s[1..], x)
  }

  function Insert<T>(cmp: (T, T) -> int, s: seq<T>, x: T): (r: seq<T>)
    ensures |r| == |s| + 1
  {
    var p := Slot(cmp, s, x);
    s[..p] + [x] + s[p..]
  }

  /** Insertion sort: the elements are inserted one by one, first to last. */
  function Sort<T>(cmp: (T, T) -> int, s: seq<T>): (r: seq<T>)
    ensures |r| == |s|
  {
    if s == [] then []
    else
      var n := |s| - 1;
      Insert(cmp, Sort(cmp, s[..n]), s[n])
  }

  lemma InsertPermutes<T>(cmp: (T, T) -> int, s: seq<T>, x: T)
    ensures multiset(Insert(cmp, s, x)) == multiset(s) + multiset{x}
  {
    var p := Slot(cmp, s, x);
    assert s == s[..p] + s[p..];
  }

  /** Sorting loses and invents nothing. */
  lemma {:induction false} SortPermutes<T>(cmp: (T, T) -> int, s: seq<T>)
    ensures multiset(Sort(cmp, s)) == multiset(s)
  {
    if s != [] {
      var n := |s| - 1;
      assert s == s[..n] + [s[n]];
      SortPermutes(cmp, s[..n]);
      InsertPermutes(cmp, Sort(cmp, s[..n]), s[n]);
    }
  }

  /** Merging takes from the left run on ties. */
  function Merge<T>(cmp: (T, T) -> int, a: seq<T>, b: seq<T>): (r: seq<T>)
    ensures |r| == |a| + |b|
    decreases |a| + |b|
  {
    if a == [] then b
    else if b == [] then a
    else if cmp(a[0], b[0]) <= 0 then [a[0]] + Merge(cmp, a[1..], b)
    else [b[0]] + Merge(cmp, a, b[1..])
  }

  lemma InsertCons<T>(cmp: (T, T) -> int, h: T, s: seq<T>, x: T)
    ensures Insert(cmp, [h] + s, x) == if cmp(h, x) <= 0 then [h] + Insert(cmp, s, x) else [x, h] + s
  {
    var t := [h] + s;
    assert t[1..] == s;
    if cmp(h, x) <= 0 {
      var p := Slot(cmp, s, x);
      assert t[..1 + p] == [h] + s[..p];
      assert t[1 + p..] == s[p..];
    } else {
      assert t[..0] == [] && t[0..] == t;
    }
  }

  lemma InSorted<T>(cmp: (T, T) -> int, s: seq<T>, x: T)
    ensures x in Sort(cmp, s) <==> x in s
  {
    SortPermutes(cmp, s);
    assert x in multiset(Sort(cmp, s)) <==> x in multiset(s);
  }

  lemma SubPreorder<T>(cmp: (T, T) -> int, s: seq<T>, t: seq<T>)
    requires TotalPreorder(cmp, s)
    requires forall x | x in t :: x in s
    ensures TotalPreorder(cmp, t)
  {
  }

  lemma ThreeOf<T>(cmp: (T, T) -> int, s: seq<T>, h: T, k: T, x: T)
    requires TotalPreorder(cmp, s) && h in s && k in s && x in s
    ensures cmp(h, k) <= 0 && cmp(k, x) <= 0 ==> cmp(h, x) <= 0
    ensures cmp(h, k) > 0 && cmp(h, x) <= 0 ==> cmp(k, x) <= 0
  {
    assert cmp(h, k) > 0 ==> cmp(k, h) <= 0;
  }

  lemma MergeLeft<T>(cmp: (T, T) -> int, a: seq<T>, b: seq<T>)
    requires a != [] && (b == [] || cmp(a[0], b[0]) <= 0)
    ensures Merge(cmp, a, b) == [a[0]] + Merge(cmp, a[1..], b)
  {
  }

  lemma MergeRight<T>(cmp: (T, T) -> int, a: seq<T>, b: seq<T>)
    requires b != [] && (a == [] || cmp(a[0], b[0]) > 0)
    ensures Merge(cmp, a, b) == [b[0]] + Merge(cmp, a, b[1..])
  {
  }

  lemma MergeCons<T>(cmp: (T, T) -> int, x: T, a: seq<T>, y: T, b: seq<T>)
    ensures Merge(cmp, [x] + a, [y] + b)
         == if cmp(x, y) <= 0 then [x] + Merge(cmp, a, [y] + b) else [y] + Merge(cmp, [x] + a, b)
  {
    assert ([x] + a)[1..] == a && ([y] + b)[1..] == b;
  }

  /** Inserting an element into a merge is inserting it into the right run. */
  lemma {:induction false} InsertMerge<T>(cmp: (T, T) -> int, a: seq<T>, b: seq<T>, x: T)
    requires TotalPreorder(cmp, a + b + [x])
    ensures Insert(cmp, Merge(cmp, a, b), x) == Merge(cmp, a, Insert(cmp, b, x))
    decreases |a| + |b|
  {
    hide TotalPreorder, Slot, Insert, Merge;
    if a == [] {
      MergeNil(cmp, b);
      MergeNil(cmp, Insert(cmp, b, x));
    } else if b == [] {
      assert a == [a[0]] + a[1..] && [x] + [] == [x];
      MergeNil(cmp, a);
      MergeNil(cmp, a[1..]);
      InsertNil(cmp, x);
      InsertCons(cmp, a[0], a[1..], x);
      MergeCons(cmp, a[0], a[1..], x, []);
      if cmp(a[0], x) <= 0 {
        SubPreorder(cmp, a + b + [x], a[1..] + b + [x]);
        InsertMerge(cmp, a[1..], b, x);
      } else {
        assert [x, a[0]] + a[1..] == [x] + a;
      }
    } else {
      ThreeOf(cmp, a + b + [x], a[0], b[0], x);
      if cmp(a[0], b[0]) <= 0 {
        SubPreorder(cmp, a + b + [x], a[1..] + b + [x]);
        InsertMerge(cmp, a[1..], b, x);
      } else {
        SubPreorder(cmp, a + b + [x], a + b[1..] + [x]);
        InsertMerge(cmp, a, b[1..], x);
      }
      assert a == [a[0]] + a[1..] && b == [b[0]] + b[1..];
      InsertMergeStep(cmp, a[0], a[1..], b[0], b[1..], x);
    }
  }

  lemma MergeNil<T>(cmp: (T, T) -> int, s: seq<T>)
    ensures Merge(cmp, [], s) == s && Merge(cmp, s, []) == s
  {
  }

  lemma InsertNil<T>(cmp: (T, T) -> int, x: T)
    ensures Insert(cmp, [], x) == [x]
  {
    hide Slot;
    var s: seq<T> := [];
    assert s[..0] + [x] + s[0..] == [x];
  }

  lemma InsertMergeStep<T>(cmp: (T, T) -> int, h: T, a: seq<T>, k: T, b: seq<T>, x: T)
    requires cmp(h, k) <= 0 && cmp(k, x) <= 0 ==> cmp(h, x) <= 0
    requires cmp(h, k) > 0 && cmp(h, x) <= 0 ==> cmp(k, x) <= 0
    requires if cmp(h, k) <= 0 then Insert(cmp, Merge(cmp, a, [k] + b), x) == Merge(cmp, a, Insert(cmp, [k] + b, x))
             else Insert(cmp, Merge(cmp, [h] + a, b), x) == Merge(cmp, [h] + a, Insert(cmp, b, x))
    ensures Insert(cmp, Merge(cmp, [h] + a, [k] + b), x) == Merge(cmp, [h] + a, Insert(cmp, [k] + b, x))
  {
    hide *;
    MergeCons(cmp, h, a, k, b);
    InsertCons(cmp, k, b, x);
    if cmp(k, x) <= 0 {
      MergeCons(cmp, h, a, k, Insert(cmp, b, x));
    } else {
      assert [x, k] + b == [x] + ([k] + b);
      MergeCons(cmp, h, a, x, [k] + b);
    }
    if cmp(h, k) <= 0 {
      InsertCons(cmp, h, Merge(cmp, a, [k] + b), x);
    } else {
      InsertCons(cmp, k, Merge(cmp, [h] + a, b), x);
    }
  }

  lemma SortSnoc<T>(cmp: (T, T) -> int, s: seq<T>, x: T)
    ensures Sort(cmp, s + [x]) == Insert(cmp, Sort(cmp, s), x)
  {
    assert (s + [x])[..|s|] == s;
  }

  /** Merging two sorted halves sorts the whole. */
  lemma {:induction false} MergeSorts<T>(cmp: (T, T) -> int, a: seq<T>, b: seq<T>)
    requires TotalPreorder(cmp, a + b)
    ensures Merge(cmp, Sort(cmp, a), Sort(cmp, b)) == Sort(cmp, a + b)
    decreases |b|
  {
    if b == [] {
      assert a + b == a;
    } else {
      var n := |b| - 1;
      var b', x := b[..n], b[n];
      assert b == b' + [x];
      assert a + b == a + b' + [x];
      SubPreorder(cmp, a + b, a + b');
      MergeSorts(cmp, a, b');
      SortSnoc(cmp, a + b', x);
      SortSnoc(cmp, b', x);
      forall y | y in Sort(cmp, a) + Sort(cmp, b') + [x] ensures y in a + b {
        InSorted(cmp, a, y);
        InSorted(cmp, b', y);
      }
      SubPreorder(cmp, a + b, Sort(cmp, a) + Sort(cmp, b') + [x]);
      InsertMerge(cmp, Sort(cmp, a), Sort(cmp, b'), x);
    }
  }

  /** The list between two passes of the mergesort: every run of `w` elements sorted. */
  function Blocks<T>(cmp: (T, T) -> int, s: seq<T>, w: nat): (r: seq<T>)
    requires w > 0
    ensures |r| == |s|
  {
    if |s| <= w then Sort(cmp, s)
    else Sort(cmp, s[..w]) + Blocks(cmp, s[w..], w)
  }

  lemma BlocksEdges<T>(cmp: (T, T) -> int, s: seq<T>, w: nat)
    requires w > 0
    ensures s == [] ==> Blocks(cmp, s, w) == []
    ensures |s| <= w ==> Blocks(cmp, s, w) == Sort(cmp, s)
  {
  }

  lemma BlocksSplit<T>(cmp: (T, T) -> int, a: seq<T>, t: seq<T>, w: nat)
    requires |a| == w > 0 && t != []
    ensures Blocks(cmp, a + t, w) == Sort(cmp, a) + Blocks(cmp, t, w)
  {
    assert (a + t)[..w] == a && (a + t)[w..] == t;
  }

  /** One step of a pass: the first two runs of width `w` become one of width `2 * w`. */
  lemma MergeTwoBlocks<T>(cmp: (T, T) -> int, a: seq<T>, b: seq<T>, t: seq<T>, w: nat)
    requires |a| == |b| == w > 0 && t != []
    requires TotalPreorder(cmp, a + b + t)
    ensures Blocks(cmp, a + b + t, w) == Sort(cmp, a) + Sort(cmp, b) + Blocks(cmp, t, w)
    ensures Blocks(cmp, a + b + t, 2 * w) == Merge(cmp, Sort(cmp, a), Sort(cmp, b)) + Blocks(cmp, t, 2 * w)
  {
    SubPreorder(cmp, a + b + t, a + b);
    MergeSorts(cmp, a, b);
    BlocksSplit(cmp, a + b, t, 2 * w);
    BlocksSplit(cmp, b, t, w);
    BlocksSplit(cmp, a, b + t, w);
    Assoc(a, b, t);
    Assoc(Sort(cmp, a), Sort(cmp, b), Blocks(cmp, t, w));
  }

  /** The last step of a pass, where the right run may be short or missing. */
  lemma MergeLastBlocks<T>(cmp: (T, T) -> int, a: seq<T>, b: seq<T>, w: nat)
    requires w > 0 && |a| <= w && |b| <= w
    requires b != [] ==> |a| == w
    requires TotalPreorder(cmp, a + b)
    ensures Blocks(cmp, a + b, w) == Sort(cmp, a) + Sort(cmp, b)
    ensures Blocks(cmp, a + b, 2 * w) == Merge(cmp, Sort(cmp, a), Sort(cmp, b))
  {
    MergeSorts(cmp, a, b);
    if b != [] {
      BlocksSplit(cmp, a, b, w);
    } else {
      assert a + b == a;
    }
  }

  lemma SortOne<T>(cmp: (T, T) -> int, s: seq<T>)
    requires |s| == 1
    ensures Sort(cmp, s) == s
  {
    assert s[..0] == [];
    assert Sort(cmp, s[..0]) == [];
  }

  /** Before the first pass the list is its own sequence of runs of one element. */
  lemma {:induction false} BlocksOfOne<T>(cmp: (T, T) -> int, s: seq<T>)
    ensures Blocks(cmp, s, 1) == s
  {
    if |s| <= 1 {
      if s != [] { SortOne(cmp, s); }
    } else {
      SortOne(cmp, s[..1]);
      BlocksOfOne(cmp, s[1..]);
    }
  }

  lemma Above<T>(cmp: (T, T) -> int, s: seq<T>, x: T, u: T, v: T)
    requires TotalPreorder(cmp, s) && x in s && u in s && v in s
    requires cmp(u, x) > 0 && (u == v || cmp(u, v) <= 0)
    ensures cmp(x, v) <= 0
  {
    assert cmp(x, u) <= 0;
  }

  lemma InsertSorted<T>(cmp: (T, T) -> int, s: seq<T>, x: T)
    requires TotalPreorder(cmp, s + [x])
    requires Sorted(cmp, s)
    ensures Sorted(cmp, Insert(cmp, s, x))
  {
    hide TotalPreorder, Slot;
    var p, r := Slot(cmp, s, x), Insert(cmp, s, x);
    forall i | p <= i < |s| ensures cmp(x, s[i]) <= 0 {
      Above(cmp, s + [x], x, s[p], s[i]);
    }
    forall i, j | 0 <= i < j < |r| ensures cmp(r[i], r[j]) <= 0 {
      assert r[i] == if i < p then s[i] else if i == p then x else s[i - 1];
      assert r[j] == if j < p then s[j] else if j == p then x else s[j - 1];
    }
  }

  /** The result is in order. */
  lemma {:induction false} SortSorted<T>(cmp: (T, T) -> int, s: seq<T>)
    requires TotalPreorder(cmp, s)
    ensures Sorted(cmp, Sort(cmp, s))
  {
    if s != [] {
      var n := |s| - 1;
      var s' := s[..n];
      SubPreorder(cmp, s, s');
      SortSorted(cmp, s');
      forall y | y in Sort(cmp, s') + [s[n]] ensures y in s {
        InSorted(cmp, s', y);
      }
      SubPreorder(cmp, s, Sort(cmp, s') + [s[n]]);
      InsertSorted(cmp, Sort(cmp, s'), s[n]);
    }
  }

  /** The elements that tie with `g`, in their order. */
  function Ties<T>(cmp: (T, T) -> int, s: seq<T>, g: T): (r: seq<T>) {
    if s == [] then []
    else (if cmp(s[0], g) <= 0 && cmp(g, s[0]) <= 0 then [s[0]] else []) + Ties(cmp, s[1..], g)
  }

  lemma {:induction false} TiesConcat<T>(cmp: (T, T) -> int, s: seq<T>, t: seq<T>, g: T)
    ensures Ties(cmp, s + t, g) == Ties(cmp, s, g) + Ties(cmp, t, g)
  {
    if s == [] {
      assert s + t == t;
    } else {
      assert (s + t)[1..] == s[1..] + t;
      TiesConcat(cmp, s[1..], t, g);
    }
  }

  lemma {:induction false} NoTies<T>(cmp: (T, T) -> int, s: seq<T>, g: T)
    requires forall y | y in s :: !(cmp(y, g) <= 0 && cmp(g, y) <= 0)
    ensures Ties(cmp, s, g) == []
  {
    if s != [] { NoTies(cmp, s[1..], g); }
  }

  lemma InsertTies<T>(cmp: (T, T) -> int, s: seq<T>, x: T, g: T)
    requires TotalPreorder(cmp, s + [x] + [g])
    requires Sorted(cmp, s)
    ensures Ties(cmp, Insert(cmp, s, x), g) == Ties(cmp, s + [x], g)
  {
    hide TotalPreorder, Sorted, Ties, Slot;
    var p := Slot(cmp, s, x);
    var u, v := s[..p], s[p..];
    assert s == u + v;
    if cmp(x, g) <= 0 && cmp(g, x) <= 0 {
      AboveNoTies(cmp, s, x, g);
    } else {
      assert forall y | y in [x] :: y == x;
      NoTies(cmp, [x], g);
    }
    TiesSwap(cmp, u, v, [x], g);
  }

  lemma TiesSwap<T>(cmp: (T, T) -> int, u: seq<T>, v: seq<T>, x: seq<T>, g: T)
    requires Ties(cmp, v, g) == [] || Ties(cmp, x, g) == []
    ensures Ties(cmp, u + x + v, g) == Ties(cmp, u + v + x, g)
  {
    hide Ties;
    TiesConcat(cmp, u, v, g);
    TiesConcat(cmp, u + v, x, g);
    TiesConcat(cmp, u + x, v, g);
    TiesConcat(cmp, u, x, g);
  }

  lemma AboveNoTies<T>(cmp: (T, T) -> int, s: seq<T>, x: T, g: T)
    requires TotalPreorder(cmp, s + [x] + [g])
    requires Sorted(cmp, s)
    requires cmp(g, x) <= 0
    ensures Ties(cmp, s[Slot(cmp, s, x)..], g) == []
  {
    var p := Slot(cmp, s, x);
    forall y | y in s[p..] ensures cmp(y, g) > 0 {
      var all := s + [x] + [g];
      assert y in all && x in all && g in all && s[p] in all;
      var i :| p <= i < |s| && y == s[i];
      assert i == p || cmp(s[p], s[i]) <= 0;
    }
    NoTies(cmp, s[p..], g);
  }

  /** The sort is stable: elements that compare equal keep their order. */
  lemma {:induction false} SortStable<T>(cmp: (T, T) -> int, s: seq<T>, g: T)
    requires TotalPreorder(cmp, s + [g])
    ensures Ties(cmp, Sort(cmp, s), g) == Ties(cmp, s, g)
  {
    if s != [] {
      var n := |s| - 1;
      var s', x := s[..n], s[n];
      assert s == s' + [x];
      SubPreorder(cmp, s + [g], s' + [g]);
      SortStable(cmp, s', g);
      SubPreorder(cmp, s + [g], s');
      SortSorted(cmp, s');
      forall y | y in Sort(cmp, s') + [x] + [g] ensures y in s + [g] {
        InSorted(cmp, s', y);
      }
      SubPreorder(cmp, s + [g], Sort(cmp, s') + [x] + [g]);
      InsertTies(cmp, Sort(cmp, s'), x, g);
      TiesConcat(cmp, Sort(cmp, s'), [x], g);
      TiesConcat(cmp, s', [x], g);
    }
  }

  // ---------- where an element goes ----------

  /** The element inserted last goes behind the elements that do not exceed it, and before those that do. */
  lemma InsertBehind<T>(cmp: (T, T) -> int, s: seq<T>, x: T, i: nat)
    requires TotalPreorder(cmp, s + [x]) && Sorted(cmp, s) && i < |s|
    ensures i < Slot(cmp, s, x) <==> cmp(s[i], x) <= 0
  {
    hide TotalPreorder;
    var p := Slot(cmp, s, x);
    if i > p {
      ThreeOf(cmp, s + [x], s[p], s[i], x);
    }
  }

  /** Of two elements the earlier one stays before the later one exactly when it does not exceed it. */
  lemma {:induction false} SortPlaces<T>(cmp: (T, T) -> int, s: seq<T>, i: nat, j: nat, k: nat, l: nat)
    requires TotalPreorder(cmp, s) && NoDup(s) && i < j < |s| && k < |s| && l < |s|
    requires Sort(cmp, s)[k] == s[i] && Sort(cmp, s)[l] == s[j]
    ensures k < l <==> cmp(s[i], s[j]) <= 0
  {
    hide Sort, TotalPreorder, Sorted, Insert, Slot;
    var n := |s| - 1;
    var t, x := s[..n], s[n];
    var r := Sort(cmp, t);
    assert s == t + [x];
    SortSnoc(cmp, t, x);
    SubPreorder(cmp, s, t);
    var p := Slot(cmp, r, x);
    SortedAround(cmp, t, x);
    NewPlace(cmp, t, x, k);
    NewPlace(cmp, t, x, l);
    NotAmong(s, i);
    NotAmong(s, j);
    var k' := if k < p then k else k - 1;
    if j == n {
      InsertBehind(cmp, r, x, k');
    } else {
      SortPlaces(cmp, t, i, j, k', if l < p then l else l - 1);
    }
  }

  lemma NotAmong<T>(s: seq<T>, i: nat)
    requires NoDup(s) && i < |s|
    ensures s[i] == s[|s| - 1] ==> i == |s| - 1
    ensures NoDup(s[..|s| - 1])
  {
  }

  lemma SortedAround<T>(cmp: (T, T) -> int, s: seq<T>, x: T)
    requires TotalPreorder(cmp, s + [x])
    ensures Sorted(cmp, Sort(cmp, s)) && TotalPreorder(cmp, Sort(cmp, s) + [x])
  {
    hide Sort, TotalPreorder, Sorted;
    SubPreorder(cmp, s + [x], s);
    SortSorted(cmp, s);
    forall y | y in Sort(cmp, s) + [x] ensures y in s + [x] {
      InSorted(cmp, s, y);
    }
    SubPreorder(cmp, s + [x], Sort(cmp, s) + [x]);
  }

  /** Position `k` before and after the insertion of `x`. */
  lemma NewPlace<T>(cmp: (T, T) -> int, s: seq<T>, x: T, k: nat)
    requires k <= |s| && x !in s
    ensures var r := Sort(cmp, s);
      var p, q := Slot(cmp, r, x), Insert(cmp, r, x);
      && (q[k] == x <==> k == p)
      && (k != p ==> q[k] == r[if k < p then k else k - 1])
  {
    hide Sort, Slot;
    var r := Sort(cmp, s);
    InSorted(cmp, s, x);
  }

  /** What the sort is for, in terms of the comparison alone. */
  lemma SortMeans<T>(cmp: (T, T) -> int, s: seq<T>)
    requires TotalPreorder(cmp, s) && NoDup(s)
    ensures var r := Sort(cmp, s);
      && multiset(r) == multiset(s)
      && (forall i, j | 0 <= i < j < |r| :: cmp(r[i], r[j]) <= 0)
      && (forall i, j, k, l | 0 <= i < j < |s| && 0 <= k < |r| && 0 <= l < |r| && r[k] == s[i] && r[l] == s[j] ::
            k < l <==> cmp(s[i], s[j]) <= 0)
  {
    hide Sort;
    SortPermutes(cmp, s);
    SortSorted(cmp, s);
    var r := Sort(cmp, s);
    forall i, j, k, l | 0 <= i < j < |s| && 0 <= k < |r| && 0 <= l < |r| && r[k] == s[i] && r[l] == s[j]
      ensures k < l <==> cmp(s[i], s[j]) <= 0
    {
      SortPlaces(cmp, s, i, j, k, l);
    }
  }
}
