/** `dhcp_flag_bcast` of kernel/core/rtw_br_ext.c and the UDP checksum it repairs. */
module Dhcp {
  import opened Bytes

  const CLIENT_PORT: nat := 68
  const SERVER_PORT: nat := 67
  const ETH_HLEN: nat := 14
  const ETH_P_IP: nat := 0x0800
  const IPPROTO_UDP: Byte := 17
  const DHCP_MAGIC: seq<Byte> := [0x63, 0x82, 0x53, 0x63]
  const UDP_HDR_LEN: nat := 8
  const CHECK: nat := 6       // offset of the checksum in the UDP header
  const FLAGS: nat := 18      // offset of the DHCP flags from the UDP header
  const COOKIE: nat := 244    // offset of the magic word from the UDP header
  const DHCP_END: nat := 248

  function Word(e: Endian, x: Byte, y: Byte): (w: nat)
    ensures w < 65536
  {
    if e.Little? then x as int + 256 * y as int else 256 * x as int + y as int
  }

  function First(e: Endian, w: nat): (x: Byte)
    requires w < 65536
  {
    if e.Little? then w % 256 else w / 256
  }

  function Second(e: Endian, w: nat): (y: Byte)
    requires w < 65536
  {
    if e.Little? then w / 256 else w % 256
  }

  lemma WordBytes(e: Endian, w: nat)
    requires w < 65536
    ensures Word(e, First(e, w), Second(e, w)) == w
  {
  }

  // ---------- the checksum ----------

  /** The sum of the 16-bit words of `b`, the last one padded with a zero byte. */
  function Sum(e: Endian, b: seq<Byte>): (s: nat) {
    if b == [] then 0
    else if |b| == 1 then Word(e, b[0], 0)
    else Word(e, b[0], b[1]) + Sum(e, b[2..])
  }

  /** The checksum in `b` is right: the one's-complement sum is minus zero (RFC 768). */
  predicate Valid(e: Endian, b: seq<Byte>) {
    Sum(e, b) % 65535 == 0
  }

  lemma Mod65535(a: nat, c: nat)
    requires a % 65535 == c % 65535
    ensures (256 * a) % 65535 == (256 * c) % 65535
  {
    var q, r := a / 65535, a % 65535;
    var p := c / 65535;
    assert 256 * a == 65535 * (256 * q) + 256 * r;
    assert 256 * c == 65535 * (256 * p) + 256 * r;
    ModShift(256 * r, 256 * q);
    ModShift(256 * r, 256 * p);
  }

  lemma {:induction false} ModShift(a: int, k: nat)
    ensures (a + 65535 * k) % 65535 == a % 65535
  {
    if k > 0 {
      ModShift(a, k - 1);
      assert a + 65535 * k == (a + 65535 * (k - 1)) + 65535;
    }
  }

  /** Swapping the bytes of every word multiplies the sum by 256, modulo 65535. */
  lemma {:induction false} SwappedSum(b: seq<Byte>)
    ensures exists k: nat :: 256 * Sum(Big, b) == Sum(Little, b) + 65535 * k
  {
    if b == [] {
      assert 256 * Sum(Big, b) == Sum(Little, b) + 65535 * 0;
    } else if |b| == 1 {
      assert 256 * Sum(Big, b) == Sum(Little, b) + 65535 * (b[0] as int);
    } else {
      SwappedSum(b[2..]);
      var k: nat :| 256 * Sum(Big, b[2..]) == Sum(Little, b[2..]) + 65535 * k;
      var x: nat, y: nat := b[0], b[1];
      assert 256 * (256 * x + y) == x + 256 * y + 65535 * x;
      assert 256 * Sum(Big, b) == Sum(Little, b) + 65535 * (k + x);
    }
  }

  /** Whether a checksum is right does not depend on the byte order of the host. */
  lemma ValidEitherWay(b: seq<Byte>)
    ensures Valid(Little, b) <==> Valid(Big, b)
  {
    SwappedSum(b);
    var s := Sum(Big, b);
    var k: nat :| 256 * s == Sum(Little, b) + 65535 * k;
    ModShift(Sum(Little, b), k);
    if Valid(Big, b) {
      Mod65535(s, 0);
    }
    if Valid(Little, b) {
      Mod65535(256 * s, 0);
      assert 256 * (256 * s) == s + 65535 * s;
      ModShift(s, s);
    }
  }

  /** Replacing the word at an even position. */
  lemma {:induction false} SumUpdate(e: Endian, b: seq<Byte>, i: nat, x: Byte, y: Byte)
    requires i % 2 == 0 && i + 2 <= |b|
    ensures Sum(e, b[i := x][i + 1 := y]) == Sum(e, b) - Word(e, b[i], b[i + 1]) + Word(e, x, y)
  {
    var c := b[i := x][i + 1 := y];
    if i == 0 {
      assert c[2..] == b[2..];
    } else {
      SumUpdate(e, b[2..], i - 2, x, y);
      assert c[2..] == b[2..][i - 2 := x][i - 1 := y];
    }
  }

  // ---------- the update ----------

  /** The 16-bit one's-complement value of a sum. */
  function Folded(sum: nat): (r: nat)
    ensures r < 65536 && r % 65535 == sum % 65535 && (r == 0 <==> sum == 0)
  {
    if sum == 0 then 0 else (sum - 1) % 65535 + 1
  }

  lemma FoldedUnique(sum: nat, r: nat)
    requires r < 65536 && r % 65535 == sum % 65535 && (r == 0 <==> sum == 0)
    ensures r == Folded(sum)
  {
  }

  /** The carry loop terminates with the one's-complement value. */
  method Fold(sum: nat) returns (r: nat)
    ensures r == Folded(sum)
  {
    r := sum;
    while r / 65536 != 0
      invariant r % 65535 == sum % 65535 && (r == 0 <==> sum == 0)
      decreases r
    {
      ModShift(r % 65536 + r / 65536, r / 65536);
      r := r % 65536 + r / 65536;
    }
    FoldedUnique(sum, r);
  }

  /** The checksum word the code stores for the old word `c` and the new flags `f`. */
  function NewCheck(c: nat, f: nat): (c': nat)
    requires c < 65536
    ensures c' < 65536
  {
    65535 - Folded(65535 - c + f)
  }

  /** The datagram with the broadcast flag set and the checksum replaced. */
  function Flagged(e: Endian, b: seq<Byte>, ci: nat, fi: nat): (r: seq<Byte>)
    requires ci + 2 <= |b| && fi + 2 <= |b| && b[fi] < 128
    ensures |r| == |b|
  {
    var c' := NewCheck(Word(e, b[ci], b[ci + 1]), Word(e, b[fi] + 128, b[fi + 1]));
    b[fi := b[fi] + 128][ci := First(e, c')][ci + 1 := Second(e, c')]
  }

  lemma FlaggedSum(e: Endian, b: seq<Byte>, ci: nat, fi: nat)
    requires ci % 2 == fi % 2 == 0 && ci != fi && ci + 2 <= |b| && fi + 2 <= |b| && b[fi] < 128
    ensures var c, f, f' := Word(e, b[ci], b[ci + 1]), Word(e, b[fi], b[fi + 1]), Word(e, b[fi] + 128, b[fi + 1]);
      Sum(e, Flagged(e, b, ci, fi)) == Sum(e, b) - c - f + f' + NewCheck(c, f')
  {
    hide Word, First, Second, NewCheck;
    var c' := NewCheck(Word(e, b[ci], b[ci + 1]), Word(e, b[fi] + 128, b[fi + 1]));
    var t := b[fi := b[fi] + 128];
    SumUpdate(e, b, fi, b[fi] + 128, b[fi + 1]);
    assert t == b[fi := b[fi] + 128][fi + 1 := b[fi + 1]];
    SumUpdate(e, t, ci, First(e, c'), Second(e, c'));
    WordBytes(e, c');
  }

  lemma FoldedParts(t: nat)
    ensures Folded(t) <= t && exists q: nat :: t == Folded(t) + 65535 * q
  {
    var r := Folded(t);
    if t > 0 {
      assert t == r + 65535 * ((t - 1) / 65535);
    } else {
      assert t == r + 65535 * 0;
    }
  }

  /** The checksum is right after the update exactly when it would have been right with zero flags, whether it was there
      and right before or not. */
  lemma UpdateIsRecomputation(e: Endian, b: seq<Byte>, ci: nat, fi: nat)
    requires ci % 2 == fi % 2 == 0 && ci != fi && ci + 2 <= |b| && fi + 2 <= |b| && b[fi] < 128
    ensures Valid(e, Flagged(e, b, ci, fi)) <==> (Sum(e, b) - Word(e, b[fi], b[fi + 1])) % 65535 == 0
  {
    hide Folded, Sum, Word, Flagged;
    FlaggedSum(e, b, ci, fi);
    var c, f, f' := Word(e, b[ci], b[ci + 1]), Word(e, b[fi], b[fi + 1]), Word(e, b[fi] + 128, b[fi + 1]);
    var t := 65535 - c + f';
    FoldedParts(t);
    var q: nat :| t == Folded(t) + 65535 * q;
    assert Sum(e, Flagged(e, b, ci, fi)) == Sum(e, b) - f + 65535 * q;
    ModShift(Sum(e, b) - f, q);
  }

  /** A right checksum stays right exactly when all flag bits were zero. */
  lemma RightStaysRight(e: Endian, b: seq<Byte>, ci: nat, fi: nat)
    requires ci % 2 == fi % 2 == 0 && ci != fi && ci + 2 <= |b| && fi + 2 <= |b| && b[fi] < 128
    requires Valid(e, b)
    ensures Valid(e, Flagged(e, b, ci, fi)) <==> b[fi] == 0 && b[fi + 1] == 0
  {
    hide Flagged;
    UpdateIsRecomputation(e, b, ci, fi);
    NotMultiple(Sum(e, b) / 65535, Word(e, b[fi], b[fi + 1]));
  }

  lemma NotMultiple(q: int, f: nat)
    requires f < 65535
    ensures (65535 * q - f) % 65535 == 0 <==> f == 0
  {
  }

  /** The new checksum reads as "no checksum" exactly when the old one was the new flags word, or there was none and all
      flag bits are set. */
  lemma NewCheckIsZero(c: nat, f: nat)
    requires c < 65536 && 0 < f < 65536
    ensures NewCheck(c, f) == 0 <==> c == f || (c == 0 && f == 65535)
  {
    assert NewCheck(c, f) == 0 <==> (65534 - c + f) % 65535 == 65534;
  }

  /** What a receiver accepts: no checksum, or a right one (RFC 768). */
  predicate Accepted(e: Endian, b: seq<Byte>, ci: nat)
    requires ci + 2 <= |b|
  {
    Word(e, b[ci], b[ci + 1]) == 0 || Valid(e, b)
  }

  /** When a receiver accepts the datagram after the update. */
  lemma AcceptedAfter(e: Endian, b: seq<Byte>, ci: nat, fi: nat)
    requires ci % 2 == fi % 2 == 0 && ci != fi && ci + 2 <= |b| && fi + 2 <= |b| && b[fi] < 128
    ensures var c, f, f' := Word(e, b[ci], b[ci + 1]), Word(e, b[fi], b[fi + 1]), Word(e, b[fi] + 128, b[fi + 1]);
      Accepted(e, Flagged(e, b, ci, fi), ci) <==>
      c == f' || (c == 0 && f' == 65535) || (Sum(e, b) - f) % 65535 == 0
  {
    hide NewCheck, First, Second, Valid, Folded;
    UpdateIsRecomputation(e, b, ci, fi);
    var c, f' := Word(e, b[ci], b[ci + 1]), Word(e, b[fi] + 128, b[fi + 1]);
    NewCheckIsZero(c, f');
    WordBytes(e, NewCheck(c, f'));
  }

  // ---------- the frame ----------

  function Udp(s: seq<Byte>): (u: nat)
    requires |s| > ETH_HLEN
  {
    ETH_HLEN + 4 * (s[ETH_HLEN] as int % 16)
  }

  /** The 16-bit field at `at`, in network order. */
  predicate Field(s: seq<Byte>, at: nat, value: nat)
    requires at + 2 <= |s|
  {
    s[at] as int * 256 + s[at + 1] as int == value
  }

  /** The frame holds what the code reads of it, in the order in which it reads. */
  predicate Readable(s: seq<Byte>) {
    && |s| >= ETH_HLEN
    && (Field(s, 12, ETH_P_IP) ==>
          && |s| >= ETH_HLEN + 10
          && (s[ETH_HLEN + 9] == IPPROTO_UDP ==>
                && var u := Udp(s);
                && |s| >= u + 2
                && (Field(s, u, CLIENT_PORT) ==>
                      && |s| >= u + 4
                      && (Field(s, u + 2, SERVER_PORT) ==> |s| >= u + DHCP_END))))
  }

  /** A DHCP request without the broadcast flag. */
  predicate Target(s: seq<Byte>)
    requires Readable(s)
  {
    && Field(s, 12, ETH_P_IP) && s[ETH_HLEN + 9] == IPPROTO_UDP
    && var u := Udp(s);
    && Field(s, u, CLIENT_PORT) && Field(s, u + 2, SERVER_PORT)
    && s[u + COOKIE..u + DHCP_END] == DHCP_MAGIC
    && s[u + FLAGS] < 128
  }

  lemma FieldBytes(s: seq<Byte>, at: nat, x: Byte, y: Byte)
    requires at + 2 <= |s|
    ensures Field(s, at, 256 * x as int + y as int) <==> s[at..at + 2] == [x, y]
  {
    assert s[at..at + 2] == [s[at], s[at + 1]];
  }

  /** The frames that are changed, by their bytes: an IPv4 UDP packet from port 68 to port 67 with the magic cookie
      after the BOOTP fields, and the first bit of the flags clear. */
  lemma TargetsMean(s: seq<Byte>)
    requires Readable(s)
    ensures |s| >= 14 && (s[12..14] == [8, 0] ==> |s| >= 24)
    ensures s[12..14] == [8, 0] && s[23] == 17 ==>
              var u := 14 + 4 * (s[14] as int % 16);
              && |s| >= u + 2
              && (s[u..u + 2] == [0, 68] ==> |s| >= u + 4 && (s[u + 2..u + 4] == [0, 67] ==> |s| >= u + 248))
    ensures Target(s) <==>
            && s[12..14] == [8, 0] && s[23] == 17
            && var u := 14 + 4 * (s[14] as int % 16);
            && s[u..u + 2] == [0, 68] && s[u + 2..u + 4] == [0, 67]
            && s[u + 244..u + 248] == [0x63, 0x82, 0x53, 0x63] && s[u + 18] < 128
  {
    hide Field;
    FieldBytes(s, 12, 8, 0);
    if s[12..14] == [8, 0] && s[23] == 17 {
      var u := 14 + 4 * (s[14] as int % 16);
      FieldBytes(s, u, 0, 68);
      if s[u..u + 2] == [0, 68] {
        FieldBytes(s, u + 2, 0, 67);
      }
    }
  }

  /** What becomes of such a frame: the first bit of the flags is set, and nothing else but the checksum changes. */
  lemma BroadcastMeans(e: Endian, s: seq<Byte>)
    requires Readable(s) && Target(s)
    ensures var u, t := 14 + 4 * (s[14] as int % 16), Flagged(e, s, Udp(s) + CHECK, Udp(s) + FLAGS);
      && u + 248 <= |s| == |t| && s[u + 18] < 128 && t[u + 18] == s[u + 18] + 128
      && forall i | 0 <= i < |s| && i != u + 18 && i != u + 6 && i != u + 7 :: t[i] == s[i]
  {
    hide Word, First, Second, NewCheck;
  }

  lemma FoldedRange(sum: nat)
    ensures Folded(sum) < 65536
  {
  }

  /** Sets the broadcast flag and updates the checksum. */
  method SetBroadcast(e: Endian, skb: array<Byte>, ci: nat, fi: nat)
    requires ci + 2 <= fi && fi + 2 <= skb.Length && skb[fi] < 128
    modifies skb
    ensures skb[..] == Flagged(e, old(skb[..]), ci, fi)
  {
    hide Word, First, Second, Folded;
    skb[fi] := skb[fi] + 128;
    var sum := 65535 - Word(e, skb[ci], skb[ci + 1]);
    sum := sum + Word(e, skb[fi], skb[fi + 1]);
    sum := Fold(sum);
    FoldedRange(65535 - Word(e, skb[ci], skb[ci + 1]) + Word(e, skb[fi], skb[fi + 1]));
    var check := 65535 - sum;
    skb[ci], skb[ci + 1] := First(e, check), Second(e, check);
  }

  /** `dhcp_flag_bcast`. */
  method FlagBcast(e: Endian, disabled: bool, skb: array<Byte>)
    requires disabled || Readable(skb[..])
    modifies skb
    ensures skb[..] == if !disabled && Target(old(skb[..]))
                       then Flagged(e, old(skb[..]), Udp(old(skb[..])) + CHECK, Udp(old(skb[..])) + FLAGS)
                       else old(skb[..])
  {
    hide Flagged;
    if disabled {
      return;
    }
    if 256 * skb[12] as int + skb[13] as int != ETH_P_IP || skb[ETH_HLEN + 9] != IPPROTO_UDP {
      return;
    }
    var u := ETH_HLEN + 4 * (skb[ETH_HLEN] as int % 16);
    if 256 * skb[u] as int + skb[u + 1] as int == CLIENT_PORT
        && 256 * skb[u + 2] as int + skb[u + 3] as int == SERVER_PORT {
      assert skb[..][u + COOKIE..u + DHCP_END] == skb[u + COOKIE..u + DHCP_END];
      if skb[u + COOKIE..u + DHCP_END] == DHCP_MAGIC && skb[u + FLAGS] < 128 {
        SetBroadcast(e, skb, u + CHECK, u + FLAGS);
      }
    }
  }

  /** What the UDP checksum of the frame covers: the pseudo header, and `n` bytes from the UDP header on. */
  function Covered(s: seq<Byte>, u: nat, n: nat): (b: seq<Byte>)
    requires 34 <= u && DHCP_END <= n && u + n <= |s|
    ensures |b| == 12 + n
  {
    s[26..34] + [0, IPPROTO_UDP] + s[u + 4..u + 6] + s[u..u + n]
  }

  lemma CoveredFlagged(e: Endian, s: seq<Byte>, u: nat, n: nat)
    requires 34 <= u && DHCP_END <= n && u + n <= |s| && s[u + FLAGS] < 128
    ensures var b := Covered(s, u, n);
      && b[12 + FLAGS] == s[u + FLAGS] && b[13 + FLAGS] == s[u + FLAGS + 1]
      && b[12 + CHECK] == s[u + CHECK] && b[13 + CHECK] == s[u + CHECK + 1]
      && Covered(Flagged(e, s, u + CHECK, u + FLAGS), u, n) == Flagged(e, b, 12 + CHECK, 12 + FLAGS)
  {
    hide Word, First, Second, NewCheck;
    var b := Covered(s, u, n);
    var t := Flagged(e, s, u + CHECK, u + FLAGS);
    var x, y := Covered(t, u, n), Flagged(e, b, 12 + CHECK, 12 + FLAGS);
    forall i | 0 <= i < |x| ensures x[i] == y[i] {
      if i >= 12 { assert x[i] == t[u + i - 12] && b[i] == s[u + i - 12]; }
    }
    assert x == y;
  }

  /** The frame leaves with a right checksum exactly when it would have been right with zero flags; if it was right
      before, exactly when the flags were zero. The datagram has any length. */
  lemma FrameStaysValid(e: Endian, s: seq<Byte>, n: nat)
    requires Readable(s) && Target(s) && 34 <= Udp(s) && DHCP_END <= n && Udp(s) + n <= |s|
    ensures var u := Udp(s);
      var before, after := Covered(s, u, n), Covered(Flagged(e, s, u + CHECK, u + FLAGS), u, n);
      && (Valid(e, after) <==> (Sum(e, before) - Word(e, s[u + FLAGS], s[u + FLAGS + 1])) % 65535 == 0)
      && (Valid(e, before) ==> (Valid(e, after) <==> s[u + FLAGS] == 0 && s[u + FLAGS + 1] == 0))
  {
    hide Valid, Word, Covered, Flagged, Sum;
    var u := Udp(s);
    CoveredFlagged(e, s, u, n);
    var b := Covered(s, u, n);
    UpdateIsRecomputation(e, b, 12 + CHECK, 12 + FLAGS);
    if Valid(e, b) {
      RightStaysRight(e, b, 12 + CHECK, 12 + FLAGS);
    }
  }

  /** When a receiver accepts the frame: the new checksum is right, or it came out as zero. */
  lemma FrameAccepted(e: Endian, s: seq<Byte>, n: nat)
    requires Readable(s) && Target(s) && 34 <= Udp(s) && DHCP_END <= n && Udp(s) + n <= |s|
    ensures var u := Udp(s);
      var c := Word(e, s[u + CHECK], s[u + CHECK + 1]);
      var f, f' := Word(e, s[u + FLAGS], s[u + FLAGS + 1]), Word(e, s[u + FLAGS] + 128, s[u + FLAGS + 1]);
      Accepted(e, Covered(Flagged(e, s, u + CHECK, u + FLAGS), u, n), 12 + CHECK) <==>
      c == f' || (c == 0 && f' == 65535) || (Sum(e, Covered(s, u, n)) - f) % 65535 == 0
  {
    hide Accepted, Word, Covered, Flagged, Sum;
    var u := Udp(s);
    CoveredFlagged(e, s, u, n);
    AcceptedAfter(e, Covered(s, u, n), 12 + CHECK, 12 + FLAGS);
  }

  // ---------- a request without a checksum ----------

  lemma {:induction false} SumConcat(e: Endian, a: seq<Byte>, b: seq<Byte>)
    requires |a| % 2 == 0
    ensures Sum(e, a + b) == Sum(e, a) + Sum(e, b)
  {
    if a == [] {
      assert a + b == b;
    } else {
      SumConcat(e, a[2..], b);
      assert (a + b)[2..] == a[2..] + b;
    }
  }

  function Zeros(n: nat): (z: seq<Byte>)
    ensures |z| == n
  {
    seq(n, _ => 0)
  }

  lemma {:induction false} SumZeros(e: Endian, n: nat)
    ensures Sum(e, Zeros(n)) == 0
  {
    if n >= 2 {
      SumZeros(e, n - 2);
      assert Zeros(n)[2..] == Zeros(n - 2);
    }
  }

  /** A request with zero addresses, no options, no flags and no checksum. */
  function BareRequest(): (s: seq<Byte>)
    ensures |s| == 282
  {
    seq(282, i => BareByte(i))
  }

  function BareByte(i: int): (x: Byte) {
    match i
    case 12 => 8
    case 14 => 0x45
    case 23 => 17
    case 35 => 68
    case 37 => 67
    case 39 => 248
    case 278 => 0x63
    case 279 => 0x82
    case 280 => 0x53
    case 281 => 0x63
    case _ => 0
  }

  const BARE_HEADERS: seq<Byte> := [0, 17, 0, 248] + [0, 68, 0, 67] + [0, 248, 0, 0]

  lemma BareRequestFields()
    ensures var s := BareRequest();
      && Readable(s) && Target(s) && Udp(s) == 34
      && s[34 + CHECK] == s[34 + CHECK + 1] == 0 && s[34 + FLAGS] == s[34 + FLAGS + 1] == 0
  {
    var s := BareRequest();
    assert s[12] == 8 && s[13] == 0 && s[14] == 0x45 && s[23] == 17 && s[52] == 0;
    assert Udp(s) == 34;
    assert s[34] == 0 && s[35] == 68 && s[36] == 0 && s[37] == 67;
    assert s[278..282] == DHCP_MAGIC;
  }

  lemma BareRequestCovered()
    ensures Covered(BareRequest(), 34, 248) == Zeros(8) + BARE_HEADERS + Zeros(236) + DHCP_MAGIC
  {
    var s := BareRequest();
    var x, y := Covered(s, 34, 248), Zeros(8) + BARE_HEADERS + Zeros(236) + DHCP_MAGIC;
    forall i | 0 <= i < |x| ensures x[i] == y[i] {
      if i >= 12 {
        assert x[i] == s[i + 22] == BareByte(i + 22);
      }
    }
    assert x == y;
  }

  lemma BareRequestSum()
    ensures Sum(Big, Zeros(8) + BARE_HEADERS + Zeros(236) + DHCP_MAGIC) == 47469
  {
    hide Zeros, Sum;
    SumZeros(Big, 8);
    SumZeros(Big, 236);
    SumTwo(0, 17, 0, 248);
    SumTwo(0, 68, 0, 67);
    SumTwo(0, 248, 0, 0);
    SumTwo(0x63, 0x82, 0x53, 0x63);
    SumConcat(Big, [0, 17, 0, 248], [0, 68, 0, 67]);
    SumConcat(Big, [0, 17, 0, 248] + [0, 68, 0, 67], [0, 248, 0, 0]);
    SumConcat(Big, Zeros(8), BARE_HEADERS);
    SumConcat(Big, Zeros(8) + BARE_HEADERS, Zeros(236));
    SumConcat(Big, Zeros(8) + BARE_HEADERS + Zeros(236), DHCP_MAGIC);
  }

  lemma SumTwo(a: Byte, b: Byte, c: Byte, d: Byte)
    ensures Sum(Big, [a, b, c, d]) == 256 * a as int + b as int + 256 * c as int + d as int
  {
    assert [a, b, c, d][2..] == [c, d] && [c, d][2..] == [];
    assert Sum(Big, [c, d]) == Word(Big, c, d) + Sum(Big, []);
  }

  /** A receiver accepts the bare request, which has no checksum, and rejects what the code makes of it. */
  lemma BareRequestRejected(e: Endian)
    ensures var s := BareRequest();
      var before, after := Covered(s, 34, 248), Covered(Flagged(e, s, 34 + CHECK, 34 + FLAGS), 34, 248);
      Readable(s) && Target(s) && Accepted(e, before, 12 + CHECK) && !Accepted(e, after, 12 + CHECK)
  {
    hide Covered, Flagged, BareRequest, Sum;
    var s := BareRequest();
    BareRequestFields();
    BareRequestCovered();
    BareRequestSum();
    var b := Covered(s, 34, 248);
    CoveredFlagged(e, s, 34, 248);
    ValidEitherWay(b);
    AcceptedAfter(e, b, 12 + CHECK, 12 + FLAGS);
  }
}
