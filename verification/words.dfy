/** 64-bit words as their bits, the lowest first. */
module Words {
  import opened Bits
  import opened Bytes

  type Word = w: seq<bool> | |w| == 64 witness seq(64, _ => false)

  /** The lowest `k` bits of `n`. */
  function BitsOf(n: nat, k: nat): (b: seq<bool>)
    ensures |b| == k
  {
    if k == 0 then [] else [n % 2 == 1] + BitsOf(n / 2, k - 1)
  }

  function Value(b: seq<bool>): (n: nat) {
    if b == [] then 0 else (if b[0] then 1 else 0) + 2 * Value(b[1..])
  }

  function Zeros(k: nat): (b: seq<bool>)
    ensures |b| == k
  {
    seq(k, _ => false)
  }

  function XorBits(x: seq<bool>, y: seq<bool>): (r: seq<bool>)
    requires |x| == |y|
    ensures |r| == |x| && forall i | 0 <= i < |r| :: r[i] == (x[i] != y[i])
  {
    seq(|x|, i requires 0 <= i < |x| => x[i] != y[i])
  }

  function OrBits(x: seq<bool>, y: seq<bool>): (r: seq<bool>)
    requires |x| == |y|
    ensures |r| == |x| && forall i | 0 <= i < |r| :: r[i] == (x[i] || y[i])
  {
    seq(|x|, i requires 0 <= i < |x| => x[i] || y[i])
  }

  /** Addition with a carry, bit by bit; the carry out is dropped. */
  function AddBits(x: seq<bool>, y: seq<bool>, c: bool): (r: seq<bool>)
    requires |x| == |y|
    ensures |r| == |x|
  {
    if x == [] then []
    else [(x[0] != y[0]) != c] + AddBits(x[1..], y[1..], Carry(x[0], y[0], c))
  }

  function Carry(a: bool, b: bool, c: bool): (r: bool) {
    (a && b) || (a && c) || (b && c)
  }

  /** Subtraction with a borrow. */
  function SubBits(x: seq<bool>, y: seq<bool>, c: bool): (r: seq<bool>)
    requires |x| == |y|
    ensures |r| == |x|
  {
    if x == [] then []
    else [(x[0] != y[0]) != c] + SubBits(x[1..], y[1..], Carry(!x[0], y[0], c))
  }

  function Xor(x: Word, y: Word): (r: Word) { XorBits(x, y) }

  function Or(x: Word, y: Word): (r: Word) { OrBits(x, y) }

  function Add(x: Word, y: Word): (r: Word) { AddBits(x, y, false) }

  function Sub(x: Word, y: Word): (r: Word) { SubBits(x, y, false) }

  /** `x << b`. */
  function Shl(x: Word, b: nat): (r: Word)
    requires b <= 64
  {
    Zeros(b) + x[..64 - b]
  }

  /** `x >> b`. */
  function Shr(x: Word, b: nat): (r: Word)
    requires b <= 64
  {
    x[b..] + Zeros(b)
  }

  /** The rotation that the macro ROTATE spells with two shifts. */
  function Rotl(x: Word, b: nat): (r: Word)
    requires b <= 64
  {
    x[64 - b..] + x[..64 - b]
  }

  lemma RotateIsRotl(x: Word, b: nat)
    requires b <= 64
    ensures Or(Shl(x, b), Shr(x, 64 - b)) == Rotl(x, b)
  {
  }

  lemma RotateBack(x: Word, b: nat)
    requires b <= 64
    ensures Rotl(Rotl(x, b), 64 - b) == x
  {
    var y := Rotl(x, b);
    assert y[b..] == x[..64 - b] && y[..b] == x[64 - b..];
  }

  lemma XorBack(x: Word, y: Word)
    ensures Xor(Xor(x, y), y) == x
  {
  }

  lemma {:induction false} AddBitsBack(x: seq<bool>, y: seq<bool>, c: bool)
    requires |x| == |y|
    ensures SubBits(AddBits(x, y, c), y, c) == x
  {
    if x != [] {
      AddBitsBack(x[1..], y[1..], Carry(x[0], y[0], c));
      var r := AddBits(x, y, c);
      assert r[1..] == AddBits(x[1..], y[1..], Carry(x[0], y[0], c));
      assert Carry(!r[0], y[0], c) == Carry(x[0], y[0], c);
      assert x == [x[0]] + x[1..];
    }
  }

  lemma AddBack(x: Word, y: Word)
    ensures Sub(Add(x, y), y) == x
  {
    AddBitsBack(x, y, false);
  }

  lemma {:induction false} SubBitsBack(x: seq<bool>, y: seq<bool>, c: bool)
    requires |x| == |y|
    ensures AddBits(SubBits(x, y, c), y, c) == x
  {
    if x != [] {
      SubBitsBack(x[1..], y[1..], Carry(!x[0], y[0], c));
      var r := SubBits(x, y, c);
      assert r[1..] == SubBits(x[1..], y[1..], Carry(!x[0], y[0], c));
      assert Carry(r[0], y[0], c) == Carry(!x[0], y[0], c);
      assert x == [x[0]] + x[1..];
    }
  }

  lemma SubBack(x: Word, y: Word)
    ensures Add(Sub(x, y), y) == x
  {
    SubBitsBack(x, y, false);
  }

  /** Addition is addition of the values, modulo the width. */
  lemma {:induction false} AddBitsValue(x: seq<bool>, y: seq<bool>, c: bool) returns (k: nat)
    requires |x| == |y|
    ensures Value(x) + Value(y) + (if c then 1 else 0) == Value(AddBits(x, y, c)) + k * Pow2(|x|)
    ensures Value(AddBits(x, y, c)) < Pow2(|x|)
  {
    if x == [] {
      k := if c then 1 else 0;
    } else {
      var d := Carry(x[0], y[0], c);
      k := AddBitsValue(x[1..], y[1..], d);
      var r := AddBits(x, y, c);
      assert r[1..] == AddBits(x[1..], y[1..], d);
      MulTwice(k, Pow2(|x| - 1), Pow2(|x|));
      assert k * Pow2(|x|) == 2 * (k * Pow2(|x| - 1)) by { Doubling(k, Pow2(|x| - 1)); }
    }
  }

  lemma Doubling(k: nat, p: nat)
    ensures k * (2 * p) == 2 * (k * p)
  {
  }

  /** `+` on `uint64_t`. */
  lemma AddValue(x: Word, y: Word)
    ensures Value(Add(x, y)) == (Value(x) + Value(y)) % Pow2(64)
  {
    var k := AddBitsValue(x, y, false);
    DivModUnique(Value(x) + Value(y), Pow2(64), k, Value(Add(x, y)));
  }

  /** The low byte of a number is its remainder modulo 256. */
  lemma {:induction false} LowBits(n: nat, m: nat, k: nat, j: nat)
    requires j <= k && n % Pow2(j) == m % Pow2(j)
    ensures BitsOf(n, k)[..j] == BitsOf(m, j)
  {
    if j > 0 {
      ModTwice(n, Pow2(j - 1));
      ModTwice(m, Pow2(j - 1));
      LowBits(n / 2, m / 2, k - 1, j - 1);
      assert BitsOf(n, k)[..j] == [n % 2 == 1] + BitsOf(n / 2, k - 1)[..j - 1];
    }
  }

  lemma {:induction false} ZeroBits(k: nat)
    ensures BitsOf(0, k) == Zeros(k)
  {
    if k > 0 {
      ZeroBits(k - 1);
      assert Zeros(k) == [false] + Zeros(k - 1);
    }
  }

  /** The little-endian word of eight bytes. */
  function Load(b: seq<Byte>): (w: Word)
    requires |b| == 8
  {
    Load7(b[..7]) + BitsOf(b[7], 8)
  }

  function Load7(b: seq<Byte>): (w: seq<bool>)
    requires |b| == 7
    ensures |w| == 56
  {
    BitsOf(b[0], 8) + BitsOf(b[1], 8) + BitsOf(b[2], 8) + BitsOf(b[3], 8) + BitsOf(b[4], 8) + BitsOf(b[5],
        8) + BitsOf(b[6], 8)
  }

  /** Or-ing the shifted length into a word with a zero top byte puts its low byte there. */
  lemma LastWord(t: seq<Byte>, n: nat)
    requires |t| == 8 && t[7] == 0
    ensures Or(Shl(BitsOf(n, 64), 56), Load(t)) == Load(t[7 := n % 256])
  {
    hide Load7, BitsOf;
    var u := t[7 := n % 256];
    assert u[..7] == t[..7];
    ZeroBits(8);
    assert Pow2(8) == 256 by { assert Pow2(3) == 8; Pow2Adds(5, 3); assert Pow2(5) == 32; }
    DivModUnique(n % 256, 256, 0, n % 256);
    LowBits(n, n % 256, 64, 8);
    var a, b := BitsOf(n, 64)[..8], Load7(t[..7]);
    OrParts(a, b);
  }

  lemma OrParts(a: seq<bool>, b: seq<bool>)
    requires |a| == 8 && |b| == 56
    ensures Or(Zeros(56) + a, b + Zeros(8)) == b + a
  {
  }
}
