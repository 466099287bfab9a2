/** Byte buffers, and the C library calls that edit them. */
module Bytes {

  type Byte = x: int | 0 <= x < 256

  /** The byte order of the host. */
  datatype Endian = Little | Big

  /** `a` and `b` differ at most in `lo..hi`. */
  ghost predicate Outside(a: seq<Byte>, b: seq<Byte>, lo: nat, hi: nat) {
    lo <= hi <= |a| == |b| && a[..lo] == b[..lo] && a[hi..] == b[hi..]
  }

  lemma SameOutside(a: seq<Byte>, lo: nat, hi: nat)
    requires lo <= hi <= |a|
    ensures Outside(a, a, lo, hi)
  {
  }

  lemma OutsideTrans(a: seq<Byte>, b: seq<Byte>, c: seq<Byte>, lo: nat, hi: nat, lo': nat, hi': nat)
    requires Outside(a, b, lo, hi) && Outside(b, c, lo', hi') && lo <= lo' && hi' <= hi
    ensures Outside(a, c, lo, hi)
  {
    assert b[..lo] == b[..lo'][..lo] && c[..lo] == c[..lo'][..lo];
    assert b[hi..] == b[hi'..][hi - hi'..] && c[hi..] == c[hi'..][hi - hi'..];
  }

  lemma SubSlice(s: seq<Byte>, lo: nat, hi: nat, i: nat, j: nat)
    requires lo <= hi <= |s| && i <= j <= hi - lo
    ensures s[lo..hi][i..j] == s[lo + i..lo + j]
  {
    var a, b := s[lo..hi][i..j], s[lo + i..lo + j];
    forall k | 0 <= k < |a| ensures a[k] == b[k] {
    }
  }

  lemma JoinSlices(s: seq<Byte>, lo: nat, mid: nat, hi: nat)
    requires lo <= mid <= hi <= |s|
    ensures s[lo..hi] == s[lo..mid] + s[mid..hi]
  {
  }

  predicate Zero(s: seq<Byte>) {
    forall i | 0 <= i < |s| :: s[i] == 0
  }

  /** An edit before zeroed bytes that ends in zeroes extends them. */
  lemma ZeroGrows(s: seq<Byte>, t: seq<Byte>, lo: nat, mid: nat, hi: nat, end: nat)
    requires Outside(s, t, lo, hi) && lo <= mid <= hi <= end <= |s|
    requires Zero(t[mid..hi]) && Zero(s[hi..end])
    ensures Zero(t[mid..end])
  {
    forall i | mid <= i < end ensures t[i] == 0 {
      if i < hi {
        assert t[i] == t[mid..hi][i - mid];
      } else {
        assert t[i] == t[hi..][i - hi] == s[hi..][i - hi] == s[hi..end][i - hi];
      }
    }
  }

  lemma KeepSlice(a: seq<Byte>, b: seq<Byte>, lo: nat, hi: nat, i: nat, j: nat)
    requires Outside(a, b, lo, hi) && i <= j <= |a| && (j <= lo || hi <= i)
    ensures a[i..j] == b[i..j]
  {
    if j <= lo {
      SubSlice(a, 0, lo, i, j);
      SubSlice(b, 0, lo, i, j);
      assert a[0..lo] == a[..lo] && b[0..lo] == b[..lo];
    } else {
      SubSlice(a, hi, |a|, i - hi, j - hi);
      SubSlice(b, hi, |b|, i - hi, j - hi);
      assert a[hi..|a|] == a[hi..] && b[hi..|b|] == b[hi..];
    }
  }

  lemma OutsideGrows(a: seq<Byte>, b: seq<Byte>, lo: nat, hi: nat, lo': nat, hi': nat)
    requires Outside(a, b, lo, hi) && lo' <= lo && hi <= hi' <= |a|
    ensures Outside(a, b, lo', hi')
  {
    KeepSlice(a, b, lo, hi, 0, lo');
    KeepSlice(a, b, lo, hi, hi', |a|);
    assert a[0..lo'] == a[..lo'] && b[0..lo'] == b[..lo'];
    assert a[hi'..|a|] == a[hi'..] && b[hi'..|b|] == b[hi'..];
  }

  lemma ZeroNil(s: seq<Byte>)
    requires |s| == 0
    ensures Zero(s)
  {
  }

  lemma OutsideWider(a: seq<Byte>, b: seq<Byte>, c: seq<Byte>, lo: nat, hi: nat, hi': nat)
    requires Outside(a, b, lo, hi) && Outside(b, c, lo, hi') && hi' <= hi
    ensures Outside(a, c, lo, hi)
  {
    OutsideTrans(a, b, c, lo, hi, lo, hi');
  }

  /** `memmove` within one buffer. */
  method Memmove(a: array<Byte>, dst: nat, src: nat, n: nat)
    requires dst + n <= a.Length && src + n <= a.Length
    modifies a
    ensures a[..] == old(a[..dst]) + old(a[src..src + n]) + old(a[dst + n..])
  {
    forall i | 0 <= i < n {
      a[dst + i] := a[src + i];
    }
  }

  /** `memset`. */
  method Memset(a: array<Byte>, dst: nat, v: Byte, n: nat)
    requires dst + n <= a.Length
    modifies a
    ensures a[..] == old(a[..dst]) + seq(n, _ => v) + old(a[dst + n..])
  {
    forall i | 0 <= i < n {
      a[dst + i] := v;
    }
  }

  /** `memcpy` from another buffer. */
  method Memcpy(a: array<Byte>, dst: nat, src: seq<Byte>)
    requires dst + |src| <= a.Length
    modifies a
    ensures a[..] == old(a[..dst]) + src + old(a[dst + |src|..])
  {
    forall i | 0 <= i < |src| {
      a[dst + i] := src[i];
    }
  }

  /** Closes the gap `at..at + n` by moving the bytes up to `end` down. */
  method Cut(a: array<Byte>, at: nat, n: nat, end: nat)
    requires at + n <= end <= a.Length
    modifies a
    ensures Outside(old(a[..]), a[..], at, end)
    ensures a[at..end - n] == old(a[at + n..end])
  {
    Memmove(a, at, at + n, end - (at + n));
  }

  /** Zeroes `n` bytes at `at`. */
  method Clear(a: array<Byte>, at: nat, n: nat)
    requires at + n <= a.Length
    modifies a
    ensures Outside(old(a[..]), a[..], at, at + n)
    ensures Zero(a[at..at + n])
  {
    Memset(a, at, 0, n);
  }

  /** Closes the gap `at..at + n` and zeroes the room that becomes free before `end`. */
  method CloseGap(a: array<Byte>, at: nat, n: nat, end: nat)
    requires at + n <= end <= a.Length
    modifies a
    ensures a[at..end - n] == old(a[at + n..end])
    ensures Zero(a[end - n..end])
    ensures Outside(old(a[..]), a[..], at, end)
  {
    hide Outside, Zero;
    ghost var s0 := a[..];
    Cut(a, at, n, end);
    ghost var s1 := a[..];
    Clear(a, end - n, n);
    KeepSlice(s1, a[..], end - n, end, at, end - n);
    OutsideTrans(s0, s1, a[..], at, end, end - n, end);
  }
}
