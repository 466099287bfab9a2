/** Information elements (section 9.4.2.1 of IEEE 802.11-2016) and their byte form. */
module Elements {
  import opened Bytes
  import opened Seqs

  type Body = s: seq<Byte> | |s| <= 255
  datatype Elem = Elem(id: Byte, body: Body)

  function One(e: Elem): (b: seq<Byte>)
    ensures |b| == 2 + |e.body|
  {
    [e.id, |e.body|] + e.body
  }

  function Ser(es: seq<Elem>): (b: seq<Byte>) {
    if es == [] then [] else One(es[0]) + Ser(es[1..])
  }

  /** How a list of elements begins. */
  lemma SerHead(es: seq<Elem>)
    requires es != []
    ensures var b, n := Ser(es), |es[0].body|;
      && |b| >= 2 + n && b[0] == es[0].id && b[1] == n
      && b[2..2 + n] == es[0].body && b[2 + n..] == Ser(es[1..])
  {
  }

  lemma {:induction false} SerConcat(a: seq<Elem>, c: seq<Elem>)
    ensures Ser(a + c) == Ser(a) + Ser(c)
  {
    hide One;
    if a == [] {
      assert a + c == c;
    } else {
      var rest := a[1..];
      SerConcat(rest, c);
      assert (a + c)[0] == a[0] && (a + c)[1..] == rest + c;
      Assoc(One(a[0]), Ser(rest), Ser(c));
    }
  }

  lemma SerAt(es: seq<Elem>, k: nat)
    requires k <= |es|
    ensures Ser(es) == Ser(es[..k]) + Ser(es[k..])
    ensures k < |es| ==> Ser(es[k..]) == One(es[k]) + Ser(es[k + 1..]) && Ser(es[..k + 1]) == Ser(es[..k]) + One(es[k])
  {
    hide One;
    assert es == es[..k] + es[k..];
    SerConcat(es[..k], es[k..]);
    if k < |es| {
      SerNext(es, k);
    }
  }

  lemma SerNext(es: seq<Elem>, k: nat)
    requires k < |es|
    ensures Ser(es[k..]) == One(es[k]) + Ser(es[k + 1..]) && Ser(es[..k + 1]) == Ser(es[..k]) + One(es[k])
  {
    hide One;
    assert es[k..][1..] == es[k + 1..] && es[k..][0] == es[k];
    assert es[..k + 1] == es[..k] + [es[k]];
    SerConcat(es[..k], [es[k]]);
    SerOne(es[k]);
  }

  lemma SerNil()
    ensures Ser([]) == []
  {
  }

  lemma SerOne(e: Elem)
    ensures Ser([e]) == One(e)
  {
    hide One;
    assert One(e) + [] == One(e);
  }

  /** A scan that has passed `k` elements of `b` is at the header of the next one. */
  lemma SerScan(es: seq<Elem>, k: nat, b: seq<Byte>)
    requires k <= |es| && b == Ser(es)
    ensures var c := |Ser(es[..k])|;
      && c <= |b| && b[c..] == Ser(es[k..]) && (k == |es| <==> c == |b|)
      && (k < |es| ==>
            && c + 2 + |es[k].body| <= |b| && b[c] == es[k].id && b[c + 1] == |es[k].body|
            && b[c + 2..c + 2 + |es[k].body|] == es[k].body
            && |Ser(es[..k + 1])| == c + 2 + |es[k].body|)
  {
    SerAt(es, k);
    if k < |es| {
      SerHead(es[k..]);
      ScanSlice(b, |Ser(es[..k])|, 2, 2 + |es[k].body|);
    } else {
      assert es[..k] == es;
    }
  }

  /** The bytes before and after element `k`. */
  lemma SerCut(es: seq<Elem>, k: nat, b: seq<Byte>)
    requires k < |es| && b == Ser(es)
    ensures var c := |Ser(es[..k])|;
      && c + 2 + |es[k].body| <= |b|
      && b[..c] == Ser(es[..k])
      && b[c + 2 + |es[k].body|..] == Ser(es[k + 1..])
  {
    SerScan(es, k, b);
    SerScan(es, k + 1, b);
    SerAt(es, k);
  }

  lemma ScanSlice(b: seq<Byte>, c: nat, i: nat, j: nat)
    requires c <= |b| && i <= j <= |b| - c
    ensures b[c..][i..j] == b[c + i..c + j]
  {
  }

  /** The byte form determines the elements. */
  lemma {:induction false} SerInjective(a: seq<Elem>, c: seq<Elem>)
    requires Ser(a) == Ser(c)
    ensures a == c
  {
    if a != [] && c != [] {
      SerHead(a);
      SerHead(c);
      assert a[0] == c[0];
      SerInjective(a[1..], c[1..]);
      assert a == [a[0]] + a[1..] && c == [c[0]] + c[1..];
    }
  }
}
