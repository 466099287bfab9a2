/** Sequences without repetition, and sums over sequences. */
module Seqs {

  ghost predicate NoDup<T>(s: seq<T>) {
    forall i, j | 0 <= i < j < |s| :: s[i] != s[j]
  }

  lemma Assoc<T>(a: seq<T>, b: seq<T>, c: seq<T>)
    ensures a + (b + c) == a + b + c
  {
  }

  lemma Slices<T>(a: seq<T>, b: seq<T>, c: seq<T>)
    ensures (a + b + c)[..|a|] == a
    ensures (a + b + c)[|a|..][..|b|] == b
    ensures (a + b + c)[|a|..][|b|..] == c
  {
  }

  function IndexOf<T(==)>(s: seq<T>, x: T): (i: nat)
    requires x in s
    ensures i < |s| && s[i] == x
  {
    if s[0] == x then 0 else 1 + IndexOf(s[1..], x)
  }

  function RemoveAt<T>(s: seq<T>, i: nat): (r: seq<T>)
    requires i < |s|
    ensures |r| == |s| - 1
  {
    s[..i] + s[i + 1..]
  }

  /** `s` without its occurrence of `x`, if it has one. */
  function Without<T(==)>(s: seq<T>, x: T): (r: seq<T>) {
    if x in s then RemoveAt(s, IndexOf(s, x)) else s
  }

  lemma NoDupWithout<T>(s: seq<T>, x: T)
    requires NoDup(s)
    ensures NoDup(Without(s, x))
    ensures forall y :: y in Without(s, x) <==> y in s && y != x
  {
    if x in s {
      var i := IndexOf(s, x);
      var r := RemoveAt(s, i);
      forall y | y in s && y != x ensures y in r {
        var j :| 0 <= j < |s| && s[j] == y;
        assert y == r[if j < i then j else j - 1];
      }
      forall y | y in r ensures y in s && y != x {
        var j :| 0 <= j < |r| && r[j] == y;
        assert y == s[if j < i then j else j + 1];
      }
      forall j, k | 0 <= j < k < |r| ensures r[j] != r[k] {
        assert r[j] == s[if j < i then j else j + 1] && r[k] == s[if k < i then k else k + 1];
      }
    }
  }

  lemma NoDupInsert<T>(s: seq<T>, p: nat, x: T)
    requires NoDup(s) && p <= |s| && x !in s
    ensures NoDup(s[..p] + [x] + s[p..])
    ensures forall y :: y in s[..p] + [x] + s[p..] <==> y in s || y == x
  {
    assert s == s[..p] + s[p..];
  }

  lemma {:induction false} NoDupCount<T>(s: seq<T>, x: T)
    requires NoDup(s)
    ensures multiset(s)[x] == if x in s then 1 else 0
  {
    if s != [] {
      assert s == [s[0]] + s[1..];
      NoDupCount(s[1..], x);
    }
  }

  lemma PermNoDup<T>(s: seq<T>, t: seq<T>)
    requires multiset(s) == multiset(t) && NoDup(s)
    ensures NoDup(t)
    ensures forall x :: x in s <==> x in t
  {
    forall x ensures x in s <==> x in t {
      assert x in multiset(s) <==> x in multiset(t);
    }
    forall x ensures multiset(t)[x] <= 1 {
      NoDupCount(s, x);
    }
    CountNoDup(t);
  }

  lemma {:induction false} CountNoDup<T>(t: seq<T>)
    requires forall x :: multiset(t)[x] <= 1
    ensures NoDup(t)
  {
    if t != [] {
      var u, x := t[..|t| - 1], t[|t| - 1];
      assert t == u + [x];
      assert multiset(t) == multiset(u) + multiset{x};
      forall y ensures multiset(u)[y] <= 1 {
        assert multiset(u)[y] <= multiset(t)[y];
      }
      CountNoDup(u);
      assert multiset(t)[x] == multiset(u)[x] + 1;
      assert x !in multiset(u);
      NoDupConcat(u, [x]);
    }
  }

  /** Two sequences without repetition and with the same members are equally long. */
  lemma SameMembersSameLength<T>(s: seq<T>, t: seq<T>)
    requires NoDup(s) && NoDup(t)
    requires forall x :: x in s <==> x in t
    ensures |s| == |t|
  {
    forall x ensures multiset(s)[x] == multiset(t)[x] {
      NoDupCount(s, x);
      NoDupCount(t, x);
    }
    assert multiset(s) == multiset(t);
    assert |multiset(s)| == |multiset(t)|;
  }

  lemma SubLength<T>(s: seq<T>, t: seq<T>)
    requires NoDup(s)
    requires forall x | x in s :: x in t
    ensures |s| <= |t|
  {
    forall x ensures multiset(s)[x] <= multiset(t)[x] {
      NoDupCount(s, x);
      assert x in multiset(s) ==> x in multiset(t);
    }
    assert multiset(s) <= multiset(t);
    assert |multiset(s)| + |multiset(t) - multiset(s)| == |multiset(t)|;
  }

  /** Sum of a sequence of naturals. */
  function Sum(s: seq<nat>): (r: nat) {
    if s == [] then 0 else Sum(s[..|s| - 1]) + s[|s| - 1]
  }

  /** Raising one entry raises the sum by as much. */
  lemma {:induction false} SumUpdate(s: seq<nat>, i: nat, v: nat)
    requires i < |s|
    ensures Sum(s[i := v]) == Sum(s) - s[i] + v
  {
    var n := |s| - 1;
    if i == n {
      assert s[i := v][..n] == s[..n];
    } else {
      assert s[i := v][..n] == s[..n][i := v];
      SumUpdate(s[..n], i, v);
    }
  }

  lemma {:induction false} SumZero(s: seq<nat>)
    requires forall i | 0 <= i < |s| :: s[i] == 0
    ensures Sum(s) == 0
  {
    if s != [] { SumZero(s[..|s| - 1]); }
  }

  function Flat<T>(ss: seq<seq<T>>): (r: seq<T>) {
    if ss == [] then [] else Flat(ss[..|ss| - 1]) + ss[|ss| - 1]
  }

  function Lengths<T>(ss: seq<seq<T>>): (r: seq<nat>)
    ensures |r| == |ss|
    ensures forall i | 0 <= i < |ss| :: r[i] == |ss[i]|
  {
    seq(|ss|, i requires 0 <= i < |ss| => |ss[i]|)
  }

  lemma {:induction false} FlatLength<T>(ss: seq<seq<T>>)
    ensures |Flat(ss)| == Sum(Lengths(ss))
  {
    if ss != [] {
      FlatLength(ss[..|ss| - 1]);
      assert Lengths(ss)[..|ss| - 1] == Lengths(ss[..|ss| - 1]);
    }
  }

  lemma {:induction false} FlatMembers<T>(ss: seq<seq<T>>, x: T)
    ensures x in Flat(ss) <==> exists b | 0 <= b < |ss| :: x in ss[b]
  {
    if ss != [] {
      var n := |ss| - 1;
      FlatMembers(ss[..n], x);
      if x in Flat(ss[..n]) {
        var b :| 0 <= b < n && x in ss[..n][b];
        assert x in ss[b];
      }
      if b :| 0 <= b < |ss| && x in ss[b] {
        if b < n { assert x in ss[..n][b]; }
      }
    }
  }

  ghost predicate Disjoint<T>(ss: seq<seq<T>>) {
    forall a, b, x | 0 <= a < |ss| && 0 <= b < |ss| && x in ss[a] && x in ss[b] :: a == b
  }

  lemma NoDupConcat<T>(s: seq<T>, t: seq<T>)
    requires NoDup(s) && NoDup(t)
    requires forall x | x in s :: x !in t
    ensures NoDup(s + t)
  {
    forall i, j | 0 <= i < j < |s + t| ensures (s + t)[i] != (s + t)[j] {
      if i < |s| <= j {
        assert (s + t)[i] in s && (s + t)[j] in t;
      }
    }
  }

  lemma {:induction false} FlatNoDup<T>(ss: seq<seq<T>>)
    requires forall b | 0 <= b < |ss| :: NoDup(ss[b])
    requires Disjoint(ss)
    ensures NoDup(Flat(ss))
  {
    if ss != [] {
      var n := |ss| - 1;
      var u := ss[..n];
      assert forall a, x | 0 <= a < n && x in u[a] :: x in ss[a];
      FlatNoDup(u);
      forall x | x in Flat(u) ensures x !in ss[n] {
        FlatMembers(u, x);
        var b :| 0 <= b < n && x in u[b];
        assert x in ss[b];
      }
      NoDupConcat(Flat(u), ss[n]);
    }
  }
}
