/** SipHash-2-4: the definition on bytes (section 2 of Aumasson and Bernstein), and userspace/csiphash.c. */
module SipHash {

  import opened Bytes
  import opened Words

  // ---------- the definition ----------

  datatype State = State(v0: Word, v1: Word, v2: Word, v3: Word)

  /** One SipRound. */
  function SipRound(v: State): (r: State) {
    var a0, a2 := Add(v.v0, v.v1), Add(v.v2, v.v3);
    var a1, a3 := Xor(Rotl(v.v1, 13), a0), Xor(Rotl(v.v3, 16), a2);
    var b0 := Rotl(a0, 32);
    var b2, c0 := Add(a2, a1), Add(b0, a3);
    var c1, c3 := Xor(Rotl(a1, 17), b2), Xor(Rotl(a3, 21), c0);
    State(c0, c1, Rotl(b2, 32), c3)
  }

  /** What completes the last word of a message of `n` bytes: zeroes, and the length modulo 256. */
  function Tail(n: nat): (b: seq<Byte>)
    ensures |b| == 8 - n % 8
  {
    seq(7 - n % 8, _ => 0) + [n % 256]
  }

  function Compress(v: State, w: Word): (r: State) {
    var u := SipRound(SipRound(v.(v3 := Xor(v.v3, w))));
    u.(v0 := Xor(u.v0, w))
  }

  /** Every whole word of `p`, in order. */
  function Absorb(v: State, p: seq<Byte>): (r: State)
    decreases |p|
  {
    if |p| < 8 then v else Absorb(Compress(v, Load(p[..8])), p[8..])
  }

  function Initial(key: seq<Byte>): (v: State)
    requires |key| == 16
  {
    var k0, k1 := Load(key[..8]), Load(key[8..]);
    State(Xor(k0, BitsOf(0x736f6d6570736575, 64)), Xor(k1, BitsOf(0x646f72616e646f6d, 64)),
          Xor(k0, BitsOf(0x6c7967656e657261, 64)), Xor(k1, BitsOf(0x7465646279746573, 64)))
  }

  function Finish(v: State): (h: Word) {
    var u := SipRound(SipRound(SipRound(SipRound(v.(v2 := Xor(v.v2, BitsOf(0xff, 64)))))));
    Xor(Xor(u.v0, u.v1), Xor(u.v2, u.v3))
  }

  /** SipHash-2-4 of the message `m` under `key`. */
  function Hash(key: seq<Byte>, m: seq<Byte>): (h: Word)
    requires |key| == 16
  {
    Finish(Absorb(Initial(key), m + Tail(|m|)))
  }

  // ---------- the rounds of the program ----------

  datatype Four = Four(a: Word, b: Word, c: Word, d: Word)

  /** ROTATE. */
  function Rotate(x: Word, b: nat): (r: Word)
    requires b <= 64
    ensures r == Rotl(x, b)
  {
    RotateIsRotl(x, b);
    Or(Shl(x, b), Shr(x, 64 - b))
  }

  /** HALF_ROUND. */
  function HalfRound(x: Four, s: nat, t: nat): (r: Four)
    requires s <= 64 && t <= 64
  {
    var a, c := Add(x.a, x.b), Add(x.c, x.d);
    Four(Rotate(a, 32), Xor(Rotate(x.b, s), a), c, Xor(Rotate(x.d, t), c))
  }

  function UndoHalf(x: Four, s: nat, t: nat): (r: Four)
    requires s <= 64 && t <= 64
  {
    var a := Rotl(x.a, 32);
    var b, d := Rotl(Xor(x.b, a), 64 - s), Rotl(Xor(x.d, x.c), 64 - t);
    Four(Sub(a, b), b, Sub(x.c, d), d)
  }

  /** Every half round can be undone, and every state is the result of one. */
  lemma HalfRoundInvertible(x: Four, s: nat, t: nat)
    requires s <= 64 && t <= 64
    ensures UndoHalf(HalfRound(x, s, t), s, t) == x
    ensures HalfRound(UndoHalf(x, s, t), s, t) == x
  {
    hide Add, Sub, Xor, Rotl, Rotate;
    var a, c := Add(x.a, x.b), Add(x.c, x.d);
    RotateBack(a, 32);
    XorBack(Rotl(x.b, s), a);
    XorBack(Rotl(x.d, t), c);
    RotateBack(x.b, s);
    RotateBack(x.d, t);
    AddBack(x.a, x.b);
    AddBack(x.c, x.d);
    var e := Rotl(x.a, 32);
    RotateBack(x.a, 32);
    RotateBack(Xor(x.b, e), 64 - s);
    RotateBack(Xor(x.d, x.c), 64 - t);
    XorBack(x.b, e);
    XorBack(x.d, x.c);
    SubBack(e, Rotl(Xor(x.b, e), 64 - s));
    SubBack(x.c, Rotl(Xor(x.d, x.c), 64 - t));
  }

  /** DOUBLE_ROUND, on the registers `v0..v3`. */
  method DoubleRound(v0: Word, v1: Word, v2: Word, v3: Word) returns (w0: Word, w1: Word, w2: Word, w3: Word)
    ensures State(w0, w1, w2, w3) == SipRound(SipRound(State(v0, v1, v2, v3)))
  {
    hide Add, Xor, Rotl, Rotate;
    var h := HalfRound(Four(v0, v1, v2, v3), 13, 16);
    h := HalfRound(Four(h.c, h.b, h.a, h.d), 17, 21);
    h := HalfRound(Four(h.c, h.b, h.a, h.d), 13, 16);
    h := HalfRound(Four(h.c, h.b, h.a, h.d), 17, 21);
    return h.c, h.b, h.a, h.d;
  }

  // ---------- the program ----------

  /** The fall-through switch: the last `|m|` bytes of the message in a word of zeroes. */
  method LoadTail(m: seq<Byte>) returns (t: seq<Byte>)
    requires |m| < 8
    ensures t == m + seq(8 - |m|, _ => 0)
  {
    var pt := new Byte[8](_ => 0);
    if |m| >= 7 { pt[6] := m[6]; }
    if |m| >= 6 { pt[5] := m[5]; }
    if |m| >= 5 { pt[4] := m[4]; }
    if |m| >= 4 {
      pt[0], pt[1], pt[2], pt[3] := m[0], m[1], m[2], m[3];
    } else {
      if |m| >= 3 { pt[2] := m[2]; }
      if |m| >= 2 { pt[1] := m[1]; }
      if |m| >= 1 { pt[0] := m[0]; }
    }
    t := pt[..];
  }

  /** `siphash24`, on a little-endian host. */
  method SipHash24(src: seq<Byte>, key: seq<Byte>) returns (h: Word)
    requires |key| == 16
    ensures h == Hash(key, src)
  {
    hide Add, Xor, Or, Rotl, Load, SipRound, Shl, BitsOf;
    var k0, k1 := Load(key[..8]), Load(key[8..]);
    var b := Shl(BitsOf(|src|, 64), 56);
    var v0 := Xor(k0, BitsOf(0x736f6d6570736575, 64));
    var v1 := Xor(k1, BitsOf(0x646f72616e646f6d, 64));
    var v2 := Xor(k0, BitsOf(0x6c7967656e657261, 64));
    var v3 := Xor(k1, BitsOf(0x7465646279746573, 64));
    ghost var whole := Absorb(Initial(key), src + Tail(|src|));
    var pos: nat, size: nat := 0, |src|;
    assert src[0..] == src;
    while size >= 8
      invariant pos + size == |src| && pos % 8 == 0
      invariant Absorb(State(v0, v1, v2, v3), src[pos..] + Tail(|src|)) == whole
    {
      var mi := Load(src[pos..pos + 8]);
      AbsorbStep(State(v0, v1, v2, v3), src, pos);
      pos, size := pos + 8, size - 8;
      v3 := Xor(v3, mi);
      v0, v1, v2, v3 := DoubleRound(v0, v1, v2, v3);
      v0 := Xor(v0, mi);
    }
    var t := LoadTail(src[pos..]);
    AbsorbLast(State(v0, v1, v2, v3), src, pos);
    b := Or(b, Load(t));
    v3 := Xor(v3, b);
    v0, v1, v2, v3 := DoubleRound(v0, v1, v2, v3);
    v0 := Xor(v0, b);
    v2 := Xor(v2, BitsOf(0xff, 64));
    v0, v1, v2, v3 := DoubleRound(v0, v1, v2, v3);
    v0, v1, v2, v3 := DoubleRound(v0, v1, v2, v3);
    return Xor(Xor(v0, v1), Xor(v2, v3));
  }

  lemma AbsorbStep(v: State, src: seq<Byte>, pos: nat)
    requires pos + 8 <= |src|
    ensures Absorb(v, src[pos..] + Tail(|src|))
         == Absorb(Compress(v, Load(src[pos..pos + 8])), src[pos + 8..] + Tail(|src|))
  {
    hide Load, Compress;
    var p := src[pos..] + Tail(|src|);
    assert p[..8] == src[pos..pos + 8];
    assert p[8..] == src[pos + 8..] + Tail(|src|);
  }

  /** The last word: the bytes left over, zeroes, and the length byte. */
  lemma AbsorbLast(v: State, src: seq<Byte>, pos: nat)
    requires pos <= |src| < pos + 8 && pos % 8 == 0
    ensures var r := src[pos..];
      Absorb(v, r + Tail(|src|)) == Compress(v, Or(Shl(BitsOf(|src|, 64), 56), Load(r + seq(8 - |r|, _ => 0))))
  {
    hide Load, Compress, Or, Shl, BitsOf;
    var r, b := src[pos..], |src| % 256;
    var t := r + seq(8 - |r|, _ => 0);
    LastWord(t, |src|);
    var p := r + Tail(|src|);
    assert |r| == |src| % 8;
    assert p == t[7 := b];
    assert p[..8] == p && p[8..] == [];
  }
}
