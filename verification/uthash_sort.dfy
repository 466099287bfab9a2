/** HASH_SRT: the bottom-up mergesort that relinks the application list in place. */
module UtHashSort {
  import opened Seqs
  import opened UtHashTypes
  import opened UtHashLinks
  import StableSort

  /** The output list under construction: everything but the last `next` is in place. */
  ghost predicate OutLinked(s: seq<Handle>)
    reads s`prev, s`next
  {
    && (forall i {:trigger s[i].prev} | 0 <= i < |s| :: s[i].prev == At(s, i - 1))
    && (forall i {:trigger s[i].next} | 0 <= i < |s| - 1 :: s[i].next == At(s, i + 1))
  }

  /** A run whose end is known by counting. */
  ghost predicate RunLinked(s: seq<Handle>)
    reads s`next
  {
    forall i {:trigger s[i].next} | 0 <= i < |s| - 1 :: s[i].next == At(s, i + 1)
  }

  /** The three lists hold distinct nodes of `all`. */
  ghost predicate Apart(all: set<Handle>, o: seq<Handle>, p: seq<Handle>, q: seq<Handle>) {
    && NoDup(o) && NoDup(p) && NoDup(q)
    && (forall x: Handle | x in o :: x in all && x !in p && x !in q)
    && (forall x: Handle | x in p :: x in all && x !in q)
    && (forall x: Handle | x in q :: x in all)
  }

  function Min(a: nat, b: nat): (r: nat) { if a <= b then a else b }

  lemma ApartLeft(all: set<Handle>, o: seq<Handle>, p: seq<Handle>, q: seq<Handle>)
    requires Apart(all, o, p, q) && p != []
    ensures Apart(all, o + [p[0]], p[1..], q)
  {
    NoDupConcat(o, [p[0]]);
  }

  lemma ApartRight(all: set<Handle>, o: seq<Handle>, p: seq<Handle>, q: seq<Handle>)
    requires Apart(all, o, p, q) && q != []
    ensures Apart(all, o + [q[0]], p, q[1..])
  {
    NoDupConcat(o, [q[0]]);
  }

  /** The head of the left run goes out. */
  lemma TakeLeft(cmp: (Handle, Handle) -> int, o: seq<Handle>, p: seq<Handle>, q: seq<Handle>, n: nat)
    requires p != [] && n <= |q|
    requires n == 0 || cmp(p[0], q[0]) <= 0
    requires RunLinked(p)
    ensures RunLinked(p[1..]) && (|p| > 1 ==> p[0].next == p[1])
    ensures o + StableSort.Merge(cmp, p, q[..n]) == o + [p[0]] + StableSort.Merge(cmp, p[1..], q[..n])
  {
    StableSort.MergeLeft(cmp, p, q[..n]);
    Assoc(o, [p[0]], StableSort.Merge(cmp, p[1..], q[..n]));
  }

  /** The head of the right run goes out. */
  lemma TakeRight(cmp: (Handle, Handle) -> int, o: seq<Handle>, p: seq<Handle>, q: seq<Handle>, n: nat)
    requires 0 < n <= |q|
    requires p == [] || cmp(p[0], q[0]) > 0
    requires ListForward(q)
    ensures ListForward(q[1..]) && q[0].next == At(q[1..], 0)
    ensures q[1..][n - 1..] == q[n..]
    ensures o + StableSort.Merge(cmp, p, q[..n]) == o + [q[0]] + StableSort.Merge(cmp, p, q[1..][..n - 1])
  {
    assert q[..n][1..] == q[1..][..n - 1];
    StableSort.MergeRight(cmp, p, q[..n]);
    Assoc(o, [q[0]], StableSort.Merge(cmp, p, q[1..][..n - 1]));
  }

  /** The tail of the inner loop: append `e` to the output. The unconsumed lists do not notice. */
  method Emit(list: Handle?, tail: Handle?, e: Handle,
              ghost all: set<Handle>, ghost o: seq<Handle>, ghost p: seq<Handle>, ghost q: seq<Handle>)
    returns (newList: Handle)
    requires OutLinked(o) && RunLinked(p) && ListForward(q)
    requires Apart(all, o + [e], p, q)
    requires list == At(o, 0) && tail == At(o, |o| - 1)
    modifies e`prev, o`next
    ensures OutLinked(o + [e]) && RunLinked(p) && ListForward(q)
    ensures newList == (o + [e])[0]
  {
    ghost var r := o + [e];
    assert forall i | 0 <= i < |o| :: r[i] == o[i] && r[i] in r;
    assert r[|o|] == e;
    if tail != null {
      tail.next := e;
      newList := list;
    } else {
      newList := e;
    }
    e.prev := tail;
  }

  /** The four-way choice of the inner loop: the next node, and the cursors after it. */
  method Pick(cmp: (Handle, Handle) -> int, p: Handle?, q: Handle?, psize: nat, qsize: nat,
              ghost all: set<Handle>, ghost o: seq<Handle>, ghost P: seq<Handle>, ghost Q: seq<Handle>)
    returns (e: Handle, p': Handle?, q': Handle?, psize': nat, qsize': nat, ghost P': seq<Handle>,
        ghost Q': seq<Handle>)
    requires psize != 0 || (qsize != 0 && q != null)
    requires Apart(all, o, P, Q) && RunLinked(P) && ListForward(Q)
    requires psize == |P| && (psize != 0 ==> p == At(P, 0)) && q == At(Q, 0)
    ensures Apart(all, o + [e], P', Q') && RunLinked(P') && ListForward(Q')
    ensures psize' == |P'| && (psize' != 0 ==> p' == At(P', 0)) && q' == At(Q', 0)
    ensures o + StableSort.Merge(cmp, P, Q[..Min(qsize, |Q|)])
         == o + [e] + StableSort.Merge(cmp, P', Q'[..Min(qsize', |Q'|)])
    ensures Q[Min(qsize, |Q|)..] == Q'[Min(qsize', |Q'|)..]
    ensures psize' + |Q'| == psize + |Q| - 1
  {
    p', q', psize', qsize', P', Q' := p, q, psize, qsize, P, Q;
    ghost var m := Min(qsize, |Q|);
    if psize == 0 {
      e := q;
      q' := q.next;
      qsize' := qsize - 1;
      TakeRight(cmp, o, P, Q, m);
      ApartRight(all, o, P, Q);
      Q' := Q[1..];
    } else if qsize == 0 || q == null {
      e := p;
      p' := p.next;
      psize' := psize - 1;
      TakeLeft(cmp, o, P, Q, m);
      ApartLeft(all, o, P, Q);
      P' := P[1..];
    } else if cmp(p, q) <= 0 {
      e := p;
      p' := p.next;
      psize' := psize - 1;
      TakeLeft(cmp, o, P, Q, m);
      ApartLeft(all, o, P, Q);
      P' := P[1..];
    } else {
      e := q;
      q' := q.next;
      qsize' := qsize - 1;
      TakeRight(cmp, o, P, Q, m);
      ApartRight(all, o, P, Q);
      Q' := Q[1..];
    }
  }

  /** The inner loop between two turns: `o` is out, `P` and `Q` are still to be merged towards `goal`. */
  ghost predicate Merging(cmp: (Handle, Handle) -> int, p: Handle?, q: Handle?, psize: nat, qsize: nat,
                          list: Handle?, tail: Handle?, all: set<Handle>, o: seq<Handle>, P: seq<Handle>,
                          Q: seq<Handle>, goal: seq<Handle>, rest: seq<Handle>)
    reads o`prev, o`next, P`next, Q`next
  {
    && Apart(all, o, P, Q) && OutLinked(o) && RunLinked(P) && ListForward(Q)
    && list == At(o, 0) && tail == At(o, |o| - 1)
    && psize == |P| && (psize != 0 ==> p == At(P, 0)) && q == At(Q, 0)
    && o + StableSort.Merge(cmp, P, Q[..Min(qsize, |Q|)]) == goal && Q[Min(qsize, |Q|)..] == rest
  }

  lemma ApartIn(all: set<Handle>, o: seq<Handle>, e: Handle, p: seq<Handle>, q: seq<Handle>)
    requires Apart(all, o + [e], p, q)
    ensures e in all && forall i | 0 <= i < |o| :: o[i] in all
  {
    var r := o + [e];
    assert r[|o|] == e && r[|o|] in r;
    forall i | 0 <= i < |o| ensures o[i] in all {
      assert r[i] == o[i] && r[i] in r;
    }
  }

  /** One turn of the inner loop. */
  method MergeStep(cmp: (Handle, Handle) -> int, p: Handle?, q: Handle?, psize: nat, qsize: nat,
                   list: Handle?, tail: Handle?, ghost all: set<Handle>, ghost o: seq<Handle>, ghost P: seq<Handle>,
                   ghost Q: seq<Handle>, ghost goal: seq<Handle>, ghost rest: seq<Handle>)
    returns (p': Handle?, q': Handle?, psize': nat, qsize': nat, list': Handle?, e: Handle,
        ghost o': seq<Handle>, ghost P': seq<Handle>, ghost Q': seq<Handle>)
    requires Merging(cmp, p, q, psize, qsize, list, tail, all, o, P, Q, goal, rest)
    requires psize != 0 || (qsize != 0 && q != null)
    modifies all`prev, all`next
    ensures Merging(cmp, p', q', psize', qsize', list', e, all, o', P', Q', goal, rest)
    ensures psize' + |Q'| < psize + |Q|
  {
    hide StableSort.Merge, Apart, Min;
    e, p', q', psize', qsize', P', Q' := Pick(cmp, p, q, psize, qsize, all, o, P, Q);
    ApartIn(all, o, e, P', Q');
    list' := Emit(list, tail, e, all, o, P', Q');
    o' := o + [e];
  }

  /** The inner loop: merges `psize` nodes from `p` with at most `qsize` from `q`. */
  method MergeRuns(cmp: (Handle, Handle) -> int, p0: Handle?, q0: Handle?, psize0: nat, qsize0: nat,
                   list0: Handle?, tail0: Handle?,
                   ghost all: set<Handle>, ghost o0: seq<Handle>, ghost P0: seq<Handle>, ghost Q0: seq<Handle>)
    returns (q: Handle?, list: Handle?, tail: Handle?, ghost o: seq<Handle>)
    requires Apart(all, o0, P0, Q0)
    requires OutLinked(o0) && RunLinked(P0) && ListForward(Q0)
    requires list0 == At(o0, 0) && tail0 == At(o0, |o0| - 1)
    requires p0 == At(P0, 0) && q0 == At(Q0, 0) && psize0 == |P0|
    modifies all`prev, all`next
    ensures var n := Min(qsize0, |Q0|);
            && o == o0 + StableSort.Merge(cmp, P0, Q0[..n])
            && Apart(all, o, [], Q0[n..])
            && ListForward(Q0[n..]) && q == At(Q0[n..], 0)
    ensures OutLinked(o)
    ensures list == At(o, 0) && tail == At(o, |o| - 1)
  {
    hide Merging, StableSort.Merge, Apart, OutLinked, RunLinked, ListForward;
    var p, psize: nat, qsize: nat := p0, psize0, qsize0;
    q, list, tail := q0, list0, tail0;
    o := o0;
    ghost var P, Q := P0, Q0;
    ghost var goal, rest := o0 + StableSort.Merge(cmp, P0, Q0[..Min(qsize0, |Q0|)]), Q0[Min(qsize0, |Q0|)..];
    MergeStart(cmp, p, q, psize, qsize, list, tail, all, o, P, Q);
    while psize != 0 || (qsize != 0 && q != null)
      invariant Merging(cmp, p, q, psize, qsize, list, tail, all, o, P, Q, goal, rest)
      decreases psize + |Q|
    {
      p, q, psize, qsize, list, tail, o, P, Q :=
        MergeStep(cmp, p, q, psize, qsize, list, tail, all, o, P, Q, goal, rest);
    }
    Merged(cmp, p, q, psize, qsize, list, tail, all, o, P, Q, goal, rest);
  }

  lemma MergeStart(cmp: (Handle, Handle) -> int, p: Handle?, q: Handle?, psize: nat, qsize: nat,
                   list: Handle?, tail: Handle?, all: set<Handle>, o: seq<Handle>, P: seq<Handle>, Q: seq<Handle>)
    requires Apart(all, o, P, Q) && OutLinked(o) && RunLinked(P) && ListForward(Q)
    requires list == At(o, 0) && tail == At(o, |o| - 1) && p == At(P, 0) && q == At(Q, 0) && psize == |P|
    ensures var n := Min(qsize, |Q|);
      Merging(cmp, p, q, psize, qsize, list, tail, all, o, P, Q, o + StableSort.Merge(cmp, P, Q[..n]), Q[n..])
  {
  }

  /** What the inner loop has done when nothing is left to merge. */
  lemma Merged(cmp: (Handle, Handle) -> int, p: Handle?, q: Handle?, psize: nat, qsize: nat,
               list: Handle?, tail: Handle?, all: set<Handle>, o: seq<Handle>, P: seq<Handle>,
               Q: seq<Handle>, goal: seq<Handle>, rest: seq<Handle>)
    requires Merging(cmp, p, q, psize, qsize, list, tail, all, o, P, Q, goal, rest)
    requires psize == 0 && (qsize == 0 || q == null)
    ensures o == goal && Apart(all, o, [], rest) && OutLinked(o) && ListForward(rest) && q == At(rest, 0)
    ensures list == At(o, 0) && tail == At(o, |o| - 1)
  {
    hide StableSort.Merge;
    StableSort.MergeNil(cmp, []);
    assert P == [] && Q[..Min(qsize, |Q|)] == [] && o + [] == o;
    assert Q == rest;
  }

  /** What one round of a pass does to the input and to the outcome. */
  lemma RoundOfBlocks(cmp: (Handle, Handle) -> int, s: seq<Handle>, w: nat)
    requires w > 0 && StableSort.TotalPreorder(cmp, s)
    ensures var n := Min(w, |s|); var m := Min(w, |s| - n); var t := s[n + m..];
            && StableSort.Blocks(cmp, s, w)[n..][m..] == StableSort.Blocks(cmp, t, w)
            && StableSort.Blocks(cmp, s, 2 * w)
               == StableSort.Merge(cmp, StableSort.Blocks(cmp, s, w)[..n], StableSort.Blocks(cmp, s, w)[n..][..m])
                  + StableSort.Blocks(cmp, t, 2 * w)
  {
    hide StableSort.Blocks, StableSort.Sort, StableSort.Merge;
    var n := Min(w, |s|);
    var m := Min(w, |s| - n);
    var a, b, t := s[..n], s[n..n + m], s[n + m..];
    var sa, sb := StableSort.Sort(cmp, a), StableSort.Sort(cmp, b);
    assert s == a + b + t;
    StableSort.BlocksEdges(cmp, t, w);
    StableSort.BlocksEdges(cmp, t, 2 * w);
    Slices(sa, sb, StableSort.Blocks(cmp, t, w));
    if t != [] {
      StableSort.MergeTwoBlocks(cmp, a, b, t, w);
    } else {
      assert a + b + t == a + b;
      StableSort.MergeLastBlocks(cmp, a, b, w);
      assert sa + sb + [] == sa + sb;
    }
  }

  /** Steps `insize` nodes ahead, or to the end. */
  method CountRun(p: Handle, insize: nat, ghost r: seq<Handle>) returns (q: Handle?, psize: nat)
    requires ListForward(r) && p == At(r, 0) && insize > 0
    ensures psize == Min(insize, |r|) && q == At(r, psize)
  {
    q, psize := p, 0;
    for i := 0 to insize
      invariant psize == i <= |r| && q == At(r, psize)
      invariant i < insize ==> q != null
    {
      psize := psize + 1;
      q := q.next;
      if q == null {
        break;
      }
    }
  }

  lemma SplitRest(all: set<Handle>, o: seq<Handle>, r: seq<Handle>, n: nat)
    requires Apart(all, o, [], r) && ListForward(r) && n <= |r|
    ensures Apart(all, o, r[..n], r[n..]) && RunLinked(r[..n]) && ListForward(r[n..])
    ensures At(r, n) == At(r[n..], 0)
  {
  }

  /** The lists of a pass between two rounds: `o` is built, `r` is still to be read. */
  ghost predicate PassState(all: set<Handle>, o: seq<Handle>, r: seq<Handle>, list: Handle?, tail: Handle?, p: Handle?)
    reads o`prev, o`next, r`next
  {
    && Apart(all, o, [], r)
    && OutLinked(o) && ListForward(r)
    && list == At(o, 0) && tail == At(o, |o| - 1) && p == At(r, 0)
  }

  /** One round of a pass: two runs are counted off and merged. */
  method Round(cmp: (Handle, Handle) -> int, p: Handle, insize: nat, list0: Handle?, tail0: Handle?,
               ghost all: set<Handle>, ghost o0: seq<Handle>, ghost r: seq<Handle>)
    returns (q: Handle?, list: Handle?, tail: Handle?, ghost o: seq<Handle>)
    requires insize > 0
    requires PassState(all, o0, r, list0, tail0, p)
    modifies all`prev, all`next
    ensures var n := Min(insize, |r|); var m := Min(insize, |r| - n);
            && o == o0 + StableSort.Merge(cmp, r[..n], r[n..][..m])
            && PassState(all, o, r[n..][m..], list, tail, q)
  {
    ghost var n := Min(insize, |r|);
    SplitRest(all, o0, r, n);
    var psize;
    q, psize := CountRun(p, insize, r);
    q, list, tail, o := MergeRuns(cmp, p, q, psize, insize, list0, tail0, all, o0, r[..n], r[n..]);
  }

  /** The sequence a pass has yet to read, and the one it will have written. */
  ghost predicate Planned(cmp: (Handle, Handle) -> int, s: seq<Handle>, w: nat, o: seq<Handle>, r: seq<Handle>,
      goal: seq<Handle>)
    requires w > 0
  {
    && StableSort.TotalPreorder(cmp, s)
    && r == StableSort.Blocks(cmp, s, w)
    && goal == o + StableSort.Blocks(cmp, s, 2 * w)
  }

  lemma PlanRound(cmp: (Handle, Handle) -> int, s: seq<Handle>, w: nat, o: seq<Handle>, r: seq<Handle>,
      goal: seq<Handle>)
    requires w > 0 && Planned(cmp, s, w, o, r, goal)
    ensures var n := Min(w, |r|); var m := Min(w, |r| - n);
            Planned(cmp, s[n + m..], w, o + StableSort.Merge(cmp, r[..n], r[n..][..m]), r[n..][m..], goal)
  {
    hide StableSort.Blocks;
    var n := Min(w, |r|);
    var m := Min(w, |r| - n);
    RoundOfBlocks(cmp, s, w);
    StableSort.SubPreorder(cmp, s, s[n + m..]);
    Assoc(o, StableSort.Merge(cmp, r[..n], r[n..][..m]), StableSort.Blocks(cmp, s[n + m..], 2 * w));
  }

  lemma PlanPass(cmp: (Handle, Handle) -> int, s: seq<Handle>, w: nat)
    requires w > 0 && StableSort.TotalPreorder(cmp, s)
    ensures Planned(cmp, s, w, [], StableSort.Blocks(cmp, s, w), StableSort.Blocks(cmp, s, 2 * w))
    ensures |StableSort.Blocks(cmp, s, 2 * w)| == |s|
  {
    hide StableSort.TotalPreorder;
    var goal := StableSort.Blocks(cmp, s, 2 * w);
    assert [] + goal == goal;
  }

  /** The end of a pass: the last node ends the list. */
  method FinishPass(list: Handle?, tail: Handle?, ghost all: set<Handle>, ghost o: seq<Handle>)
    requires PassState(all, o, [], list, tail, null)
    modifies all`next
    ensures Apart(all, [], [], o) && AppLinked(o)
  {
    if tail != null {
      tail.next := null;
    }
  }

  /** One pass over the list: runs of `insize` become runs of `2 * insize`. */
  method Pass(cmp: (Handle, Handle) -> int, list0: Handle, insize: nat,
              ghost s: seq<Handle>, ghost all: set<Handle>, ghost r0: seq<Handle>, ghost goal: seq<Handle>)
    returns (list: Handle?, tail: Handle?, nmerges: nat)
    requires insize > 0 && s != []
    requires Planned(cmp, s, insize, [], r0, goal)
    requires Apart(all, [], [], r0) && ListForward(r0) && list0 == r0[0]
    modifies all`prev, all`next
    ensures Apart(all, [], [], goal) && AppLinked(goal) && list == goal[0] && tail == goal[|goal| - 1]
    ensures nmerges <= 1 <==> |s| <= 2 * insize
  {
    hide StableSort.Blocks, StableSort.TotalPreorder, StableSort.Merge, Apart;
    var p: Handle? := list0;
    list, tail, nmerges := null, null, 0;
    ghost var o, r, todo := [], r0, s;
    while p != null
      invariant PassState(all, o, r, list, tail, p)
      invariant Planned(cmp, todo, insize, o, r, goal)
      invariant nmerges == 0 ==> |todo| == |s|
      invariant nmerges == 1 ==> |todo| == if |s| <= 2 * insize then 0 else |s| - 2 * insize
      invariant nmerges >= 2 ==> |s| > 2 * insize
      decreases |todo|
    {
      nmerges := nmerges + 1;
      PlanRound(cmp, todo, insize, o, r, goal);
      ghost var n := Min(insize, |r|);
      ghost var m := Min(insize, |r| - n);
      p, list, tail, o := Round(cmp, p, insize, list, tail, all, o, r);
      todo, r := todo[n + m..], r[n..][m..];
    }
    StableSort.BlocksEdges(cmp, todo, 2 * insize);
    assert goal == o;
    FinishPass(list, tail, all, o);
  }

  /** The passes of HASH_SRT, until one merges nothing. */
  method Passes(cmp: (Handle, Handle) -> int, head: Handle, t: Table, ghost s: seq<Handle>) returns (newHead: Handle)
    requires s != [] && StableSort.TotalPreorder(cmp, s)
    requires AppLinked(s) && NoDup(s) && head == s[0] && t.tail == s[|s| - 1]
    modifies t`tail, s`prev, s`next
    ensures AppLinked(StableSort.Sort(cmp, s))
    ensures newHead == StableSort.Sort(cmp, s)[0]
    ensures t.tail == StableSort.Sort(cmp, s)[|s| - 1]
  {
    hide StableSort.Blocks, StableSort.Sort, StableSort.TotalPreorder, Planned;
    ghost var all := set x: Handle | x in s;
    var insize, looping := 1, true;
    var list: Handle := head;
    newHead := head;
    StableSort.BlocksOfOne(cmp, s);
    ghost var cur := s;
    while looping
      invariant insize > 0 && (insize == 1 || insize < |s| || !looping)
      invariant |cur| == |s|
      invariant looping ==> cur == StableSort.Blocks(cmp, s, insize) && Apart(all, [], [], cur) && list == cur[0]
      invariant !looping ==> cur == StableSort.Sort(cmp, s) && newHead == cur[0] && t.tail == cur[|cur| - 1]
      invariant AppLinked(cur)
      decreases looping, |s| - insize
    {
      ghost var goal := StableSort.Blocks(cmp, s, 2 * insize);
      PlanPass(cmp, s, insize);
      StableSort.BlocksEdges(cmp, s, 2 * insize);
      var l, tail, nmerges := Pass(cmp, list, insize, s, all, cur, goal);
      list := l;
      if nmerges <= 1 {
        looping := false;
        t.tail := tail;
        newHead := list;
      }
      insize := insize * 2;
      cur := goal;
    }
  }

  /** HASH_SRT on a non-empty list: `r` is the list afterwards, in the order of the comparison, where an earlier node
      stays before a later one exactly when it does not exceed it. The bucket chains are not touched. */
  method Srt(cmp: (Handle, Handle) -> int, head: Handle, t: Table, ghost s: seq<Handle>)
    returns (newHead: Handle, ghost r: seq<Handle>)
    requires s != [] && StableSort.TotalPreorder(cmp, s)
    requires AppLinked(s) && NoDup(s) && head == s[0] && t.tail == s[|s| - 1]
    modifies t`tail, s`prev, s`next
    ensures r == StableSort.Sort(cmp, s) && |r| == |s|
    ensures AppLinked(r) && newHead == r[0] && t.tail == r[|r| - 1]
    ensures multiset(r) == multiset(s)
    ensures forall i, j | 0 <= i < j < |r| :: cmp(r[i], r[j]) <= 0
    ensures forall i, j, k, l | 0 <= i < j < |s| && 0 <= k < |r| && 0 <= l < |r| && r[k] == s[i] && r[l] == s[j] ::
              k < l <==> cmp(s[i], s[j]) <= 0
  {
    hide StableSort.Sort, StableSort.TotalPreorder;
    newHead := Passes(cmp, head, t, s);
    r := StableSort.Sort(cmp, s);
    StableSort.SortMeans(cmp, s);
  }
}
