/** The PPPoE relay tag of kernel/core/rtw_br_ext.c (Relay-Session-Id, Appendix A of RFC 2516), in a frame buffer. */
module Pppoe {
  import opened Bytes
  import opened Options
  import opened Seqs

  const TAG_HDR_LEN: nat := 4
  const MAGIC_CODE_LEN: nat := 2
  const RTL_RELAY_TAG_LEN: nat := 6
  const TAG_BUF_LEN: nat := 40
  const MAGIC: seq<Byte> := [0x81, 0x86]
  const PTT_RELAY_SID: nat := 0x0110
  const TAGS: nat := 20

  // ---------- tags ----------

  datatype Tag = Tag(kind: nat, data: seq<Byte>)

  predicate Fits(t: Tag) {
    t.kind < 65536 && |t.data| < 65536
  }

  predicate AllFit(ts: seq<Tag>) {
    forall i | 0 <= i < |ts| :: Fits(ts[i])
  }

  function Be16(hi: Byte, lo: Byte): (n: nat)
    ensures n < 65536
  {
    256 * hi as int + lo as int
  }

  function Hi(n: nat): (b: Byte) { (n / 256) % 256 }

  function Lo(n: nat): (b: Byte) { n % 256 }

  lemma Be16Bytes(n: nat)
    requires n < 65536
    ensures Be16(Hi(n), Lo(n)) == n
  {
  }

  function One(t: Tag): (b: seq<Byte>)
    ensures |b| == 4 + |t.data|
  {
    [Hi(t.kind), Lo(t.kind), Hi(|t.data|), Lo(|t.data|)] + t.data
  }

  function Ser(ts: seq<Tag>): (b: seq<Byte>) {
    if ts == [] then [] else One(ts[0]) + Ser(ts[1..])
  }

  lemma SerHead(t: Tag, rest: seq<Byte>)
    requires Fits(t)
    ensures var b := One(t) + rest;
      && Be16(b[0], b[1]) == t.kind && Be16(b[2], b[3]) == |t.data|
      && b[4..4 + |t.data|] == t.data && b[4 + |t.data|..] == rest
  {
    var b := One(t) + rest;
    Be16Bytes(t.kind);
    Be16Bytes(|t.data|);
    assert b[0] == Hi(t.kind) && b[1] == Lo(t.kind) && b[2] == Hi(|t.data|) && b[3] == Lo(|t.data|);
    forall k | 0 <= k < |t.data| ensures b[4 + k] == t.data[k] {
    }
    assert b[4..4 + |t.data|] == t.data;
    assert b[|One(t)|..] == rest;
  }

  lemma {:induction false} SerConcat(a: seq<Tag>, c: seq<Tag>)
    ensures Ser(a + c) == Ser(a) + Ser(c)
  {
    hide One;
    if a == [] {
      assert a + c == c;
    } else {
      SerConcat(a[1..], c);
      assert (a + c)[0] == a[0] && (a + c)[1..] == a[1..] + c;
      Assoc(One(a[0]), Ser(a[1..]), Ser(c));
    }
  }

  lemma SerOne(t: Tag)
    ensures Ser([t]) == One(t)
  {
    hide One;
    assert One(t) + [] == One(t);
  }

  /** The bytes before, of and after tag `k`. */
  lemma SerAt(ts: seq<Tag>, k: nat)
    requires k < |ts|
    ensures Ser(ts) == Ser(ts[..k]) + (One(ts[k]) + Ser(ts[k + 1..]))
    ensures Ser(ts[..k + 1]) == Ser(ts[..k]) + One(ts[k])
  {
    hide One;
    assert ts == ts[..k] + ts[k..];
    SerConcat(ts[..k], ts[k..]);
    SerNext(ts, k);
  }

  lemma SerNext(ts: seq<Tag>, k: nat)
    requires k < |ts|
    ensures Ser(ts[k..]) == One(ts[k]) + Ser(ts[k + 1..]) && Ser(ts[..k + 1]) == Ser(ts[..k]) + One(ts[k])
  {
    hide One;
    assert ts[k..][1..] == ts[k + 1..] && ts[k..][0] == ts[k];
    assert ts[..k + 1] == ts[..k] + [ts[k]];
    SerConcat(ts[..k], [ts[k]]);
    SerOne(ts[k]);
  }

  /** A scan of `b` that has passed `k` tags is at the header of the next one. */
  lemma SerScan(ts: seq<Tag>, k: nat, b: seq<Byte>)
    requires k <= |ts| && b == Ser(ts) && AllFit(ts)
    ensures var c := |Ser(ts[..k])|;
      && c <= |b| && (k == |ts| <==> c == |b|)
      && (k < |ts| ==>
            var n := |ts[k].data|;
            && c + 4 + n <= |b| && |Ser(ts[..k + 1])| == c + 4 + n
            && Be16(b[c], b[c + 1]) == ts[k].kind && Be16(b[c + 2], b[c + 3]) == n
            && b[c + 4..c + 4 + n] == ts[k].data
            && b[..c] == Ser(ts[..k]) && b[c + 4 + n..] == Ser(ts[k + 1..]))
  {
    hide One;
    if k < |ts| {
      SerAt(ts, k);
      var c, rest := |Ser(ts[..k])|, Ser(ts[k + 1..]);
      SerHead(ts[k], rest);
      var t := One(ts[k]) + rest;
      assert b == Ser(ts[..k]) + t;
      assert b[c..] == t && b[..c] == Ser(ts[..k]);
      DropSlice(b, c, 4, 4 + |ts[k].data|);
    } else {
      assert ts[..k] == ts;
    }
  }

  lemma DropSlice(b: seq<Byte>, c: nat, i: nat, j: nat)
    requires c <= |b| && i <= j <= |b| - c
    ensures b[c..][i..j] == b[c + i..c + j] && b[c..][j..] == b[c + j..]
  {
  }

  /** The index of the first tag of a kind, or the length. */
  function First(ts: seq<Tag>, kind: nat): (k: nat)
    ensures k <= |ts|
    ensures k < |ts| ==> ts[k].kind == kind
    ensures forall i | 0 <= i < k :: ts[i].kind != kind
  {
    if ts == [] || ts[0].kind == kind then 0 else 1 + First(ts[1..], kind)
  }

  // ---------- what the two directions do to the tags ----------

  datatype Outcome = Done | Failed

  function Relay(mac: seq<Byte>, sid: seq<Byte>): (t: Tag) {
    Tag(PTT_RELAY_SID, MAGIC + mac + sid)
  }

  function OldSid(ts: seq<Tag>): (d: seq<Byte>) {
    var k := First(ts, PTT_RELAY_SID);
    if k < |ts| then ts[k].data else []
  }

  function WithoutSid(ts: seq<Tag>): (r: seq<Tag>) {
    var k := First(ts, PTT_RELAY_SID);
    if k < |ts| then RemoveAt(ts, k) else ts
  }

  lemma OldTag(ts: seq<Tag>)
    ensures var k := First(ts, PTT_RELAY_SID);
      && OldSid(ts) == (if k < |ts| then ts[k].data else [])
      && WithoutSid(ts) == (if k < |ts| then RemoveAt(ts, k) else ts)
  {
  }

  lemma RelaySize(mac: seq<Byte>, sid: seq<Byte>)
    requires |mac| == 6
    ensures |Relay(mac, sid).data| == MAGIC_CODE_LEN + RTL_RELAY_TAG_LEN + |sid|
        && Relay(mac, sid).kind == PTT_RELAY_SID
  {
  }

  function TooLong(ts: seq<Tag>): (b: bool) {
    |OldSid(ts)| + TAG_HDR_LEN + MAGIC_CODE_LEN + RTL_RELAY_TAG_LEN > TAG_BUF_LEN
  }

  /** The tags of a PADI or PADR after the relay tag of the client `mac` went in front. */
  function Tagged(ts: seq<Tag>, mac: seq<Byte>): (r: seq<Tag>) {
    [Relay(mac, OldSid(ts))] + WithoutSid(ts)
  }

  /** What a host reads from a 16-bit field in network order. */
  function HostLen(e: Endian, n: nat): (r: nat)
    requires n < 65536
  {
    if e.Big? then n else 256 * Lo(n) as int + Hi(n) as int
  }

  lemma HostLenIsRight(e: Endian, n: nat)
    requires n < 65536
    ensures HostLen(e, n) == n <==> e.Big? || Hi(n) == Lo(n)
  {
  }

  /** The bytes that the code takes the relay tag to have, which it does not convert from network order. */
  function RelayLen(e: Endian, ts: seq<Tag>): (n: nat)
    requires !TooLong(ts)
  {
    HostLen(e, MAGIC_CODE_LEN + RTL_RELAY_TAG_LEN + |OldSid(ts)|) + TAG_HDR_LEN
  }

  /** A buffer of `cap` bytes has no room for the relay tag once the old one is out. */
  predicate Full(e: Endian, ts: seq<Tag>, len: nat, cap: nat)
    requires !TooLong(ts)
  {
    len - (if First(ts, PTT_RELAY_SID) < |ts| then TAG_HDR_LEN + |OldSid(ts)| else 0) + RelayLen(e, ts) > cap
  }

  /** On a little-endian host the relay tag is always taken to be longer than the buffer it is built in. */
  lemma LittleEndianOverruns(ts: seq<Tag>)
    requires !TooLong(ts)
    ensures RelayLen(Little, ts) > TAG_BUF_LEN
    ensures RelayLen(Big, ts) == TAG_HDR_LEN + MAGIC_CODE_LEN + RTL_RELAY_TAG_LEN + |OldSid(ts)| <= TAG_BUF_LEN
  {
  }

  predicate Echoed(ts: seq<Tag>) {
    var k := First(ts, PTT_RELAY_SID);
    k < |ts| && |ts[k].data| >= MAGIC_CODE_LEN + RTL_RELAY_TAG_LEN && ts[k].data[..2] == MAGIC
  }

  function ClientMac(ts: seq<Tag>): (m: seq<Byte>)
    requires Echoed(ts)
    ensures |m| == 6
  {
    ts[First(ts, PTT_RELAY_SID)].data[2..8]
  }

  /** The tags of a PADO or PADS after the relay tag came out. */
  function Stripped(ts: seq<Tag>): (r: seq<Tag>)
    requires Echoed(ts)
  {
    var k := First(ts, PTT_RELAY_SID);
    var d := ts[k].data[8..];
    if d == [] then RemoveAt(ts, k) else ts[k := Tag(PTT_RELAY_SID, d)]
  }

  /** Whatever else an answer carries around the echoed relay tag, stripping it gives back the client and its own
      Relay-Session-Id. */
  lemma EchoRecovers(before: seq<Tag>, mac: seq<Byte>, sid: seq<Byte>, after: seq<Tag>)
    requires |mac| == 6 && First(before, PTT_RELAY_SID) == |before|
    ensures var ts := before + [Relay(mac, sid)] + after;
      && Echoed(ts) && ClientMac(ts) == mac
      && Stripped(ts) == before + (if sid == [] then [] else [Tag(PTT_RELAY_SID, sid)]) + after
  {
    hide Relay, First, RemoveAt;
    var t := Relay(mac, sid);
    RelayData(mac, sid);
    FirstAfter(before, t, after);
    MiddleOf(before, t, Tag(PTT_RELAY_SID, sid), after);
  }

  lemma MiddleOf<T>(a: seq<T>, x: T, y: T, c: seq<T>)
    ensures var s := a + [x] + c;
      s[|a|] == x && s[|a| := y] == a + [y] + c && RemoveAt(s, |a|) == a + [] + c
  {
    var s := a + [x] + c;
    assert s[..|a|] == a && s[|a| + 1..] == c;
  }

  lemma RelayData(mac: seq<Byte>, sid: seq<Byte>)
    requires |mac| == 6
    ensures var t := Relay(mac, sid);
      t.kind == PTT_RELAY_SID && |t.data| >= 8 && t.data[..2] == MAGIC && t.data[2..8] == mac && t.data[8..] == sid
  {
  }

  lemma FirstAfter(before: seq<Tag>, t: Tag, after: seq<Tag>)
    requires First(before, t.kind) == |before|
    ensures First(before + [t] + after, t.kind) == |before|
  {
    var ts := before + [t] + after;
    assert ts[|before|] == t;
    assert forall i | 0 <= i < |before| :: ts[i] == before[i];
  }

  /** Exactly those answers are taken that carry a relay tag as their first Relay-Session-Id: the magic code 0x8186,
      the client, and whatever Relay-Session-Id the request had. */
  lemma EchoedMeans(ts: seq<Tag>)
    ensures Echoed(ts) <==>
            exists before: seq<Tag>, mac: seq<Byte>, sid: seq<Byte>, after: seq<Tag> ::
              && |mac| == 6 && ts == before + [Tag(0x0110, [0x81, 0x86] + mac + sid)] + after
              && forall i | 0 <= i < |before| :: before[i].kind != 0x0110
  {
    if before: seq<Tag>, mac: seq<Byte>, sid: seq<Byte>, after: seq<Tag> :|
        && |mac| == 6 && ts == before + [Tag(0x0110, [0x81, 0x86] + mac + sid)] + after
        && forall i | 0 <= i < |before| :: before[i].kind != 0x0110 {
      assert [0x81, 0x86] + mac + sid == MAGIC + mac + sid;
      EchoRecovers(before, mac, sid, after);
    }
    if Echoed(ts) {
      var k := First(ts, PTT_RELAY_SID);
      var d := ts[k].data;
      var before, mac, sid, after := ts[..k], d[2..8], d[8..], ts[k + 1..];
      assert d == [0x81, 0x86] + mac + sid;
      assert ts == before + [Tag(0x0110, [0x81, 0x86] + mac + sid)] + after;
    }
  }

  /** A request without a Relay-Session-Id always gets the relay tag, of magic code and client, in front. */
  lemma TaggedNew(ts: seq<Tag>, mac: seq<Byte>)
    requires forall i | 0 <= i < |ts| :: ts[i].kind != 0x0110
    ensures !TooLong(ts) && Tagged(ts, mac) == [Tag(0x0110, [0x81, 0x86] + mac)] + ts
  {
    assert MAGIC + mac + [] == [0x81, 0x86] + mac;
  }

  /** With one, the first is taken into the relay tag, which is refused without a change exactly when that leaves no
      room in the forty bytes it is built in. */
  lemma TaggedOld(before: seq<Tag>, sid: seq<Byte>, after: seq<Tag>, mac: seq<Byte>)
    requires forall i | 0 <= i < |before| :: before[i].kind != 0x0110
    ensures var ts := before + [Tag(0x0110, sid)] + after;
      && (TooLong(ts) <==> 4 + 2 + 6 + |sid| > 40)
      && Tagged(ts, mac) == [Tag(0x0110, [0x81, 0x86] + mac + sid)] + (before + after)
  {
    hide First, RemoveAt;
    var t := Tag(0x0110, sid);
    FirstIsEnd(before, 0x0110);
    FirstAfter(before, t, after);
    MiddleOf(before, t, t, after);
    assert before + [] + after == before + after;
  }

  lemma FirstIsEnd(ts: seq<Tag>, kind: nat)
    requires forall i | 0 <= i < |ts| :: ts[i].kind != kind
    ensures First(ts, kind) == |ts|
  {
  }

  /** On a big-endian host the frame grows by twelve bytes, or by eight when the old Relay-Session-Id makes room for
      what is kept of it. */
  lemma FullMeans(ts: seq<Tag>, len: nat, cap: nat)
    requires !TooLong(ts)
    ensures Full(Big, ts, len, cap) <==> len + 12 > cap + (if First(ts, 0x0110) < |ts| then 4 else 0)
  {
    LittleEndianOverruns(ts);
  }

  /** What tagging a request and stripping the same tags yields. */
  function RoundTripped(ts: seq<Tag>): (r: seq<Tag>) {
    (if OldSid(ts) == [] then [] else [Tag(PTT_RELAY_SID, OldSid(ts))]) + WithoutSid(ts)
  }

  lemma RoundTrip(ts: seq<Tag>, mac: seq<Byte>)
    requires |mac| == 6
    ensures Echoed(Tagged(ts, mac)) && ClientMac(Tagged(ts, mac)) == mac
    ensures Stripped(Tagged(ts, mac)) == RoundTripped(ts)
  {
    EchoRecovers([], mac, OldSid(ts), WithoutSid(ts));
    assert [] + [Relay(mac, OldSid(ts))] + WithoutSid(ts) == Tagged(ts, mac);
  }

  /** The round trip is the identity exactly when there was no Relay-Session-Id, or a non-empty one in front. */
  lemma RoundTripIdentity(ts: seq<Tag>)
    ensures RoundTripped(ts) == ts <==>
              First(ts, PTT_RELAY_SID) == |ts| || (First(ts, PTT_RELAY_SID) == 0 && OldSid(ts) != [])
  {
    hide First, RemoveAt;
    var k := First(ts, PTT_RELAY_SID);
    var r := RoundTripped(ts);
    if k == |ts| {
      assert [] + ts == ts;
    } else if OldSid(ts) == [] {
      assert |r| == |ts| - 1;
    } else if k == 0 {
      RemoveFirst(ts);
      assert ts[0] == Tag(PTT_RELAY_SID, OldSid(ts));
    } else {
      assert r[0].kind == PTT_RELAY_SID && ts[0].kind != PTT_RELAY_SID;
    }
  }

  lemma RemoveFirst(ts: seq<Tag>)
    requires ts != []
    ensures ts == [ts[0]] + RemoveAt(ts, 0)
  {
  }

  // ---------- the search ----------

  /** The reads of the search for a tag, from position `c` of the `n` bytes of tags on, stay inside the buffer `s`. */
  predicate TagsInside(s: seq<Byte>, n: nat, kind: nat, c: nat)
    decreases n - c
  {
    c >= n || (&& TAGS + c + 4 <= |s|
               && (Be16(s[TAGS + c], s[TAGS + c + 1]) == kind
                   || TagsInside(s, n, kind, c + 4 + Be16(s[TAGS + c + 2], s[TAGS + c + 3]))))
  }

  /** Where it stops, if it finds a tag. */
  function FindAt(s: seq<Byte>, n: nat, kind: nat, c: nat): (r: Option<nat>)
    ensures r.Some? ==> r.value < n && TAGS + r.value + 4 <= |s|
    decreases n - c
  {
    if c >= n || TAGS + c + 4 > |s| then None
    else if Be16(s[TAGS + c], s[TAGS + c + 1]) == kind then Some(c)
    else FindAt(s, n, kind, c + 4 + Be16(s[TAGS + c + 2], s[TAGS + c + 3]))
  }

  /** The `len` bytes of a frame hold the tag bytes `b`, possibly followed by padding; the PPPoE length field counts
      them. */
  ghost predicate Region(s: seq<Byte>, len: nat, b: seq<Byte>) {
    && TAGS + |b| <= len <= |s| < 65536
    && Be16(s[18], s[19]) == |b|
    && s[TAGS..TAGS + |b|] == b
  }

  /** The tag bytes are complete tags, and a rest. */
  ghost predicate Framed(s: seq<Byte>, len: nat, ts: seq<Tag>, rest: seq<Byte>) {
    AllFit(ts) && Region(s, len, Ser(ts) + rest)
  }

  /** What is left of tag bytes after their complete tags. */
  predicate CutShort(b: seq<Byte>) {
    |b| < 4 || 4 + Be16(b[2], b[3]) > |b|
  }

  function Decode(b: seq<Byte>): (ts: seq<Tag>) {
    if CutShort(b) then []
    else [Tag(Be16(b[0], b[1]), b[4..4 + Be16(b[2], b[3])])] + Decode(b[4 + Be16(b[2], b[3])..])
  }

  /** All tag bytes are complete tags and a part cut short. */
  lemma {:induction false} DecodePrefix(b: seq<Byte>)
    ensures var ts := Decode(b); AllFit(ts) && Ser(ts) <= b && CutShort(b[|Ser(ts)|..])
    decreases |b|
  {
    hide One, CutShort, Be16, Ser, Fits, Decode;
    DecodeStep(b);
    SerNil([]);
    if CutShort(b) {
      assert b[0..] == b;
    } else {
      var n := OneBytes(b);
      var ts := Decode(b[n..]);
      DecodePrefix(b[n..]);
      SerFront(Tag(Be16(b[0], b[1]), b[4..n]), ts);
      assert b == b[..n] + b[n..];
      assert b[n + |Ser(ts)|..] == b[n..][|Ser(ts)|..];
    }
  }

  lemma DecodeStep(b: seq<Byte>)
    ensures CutShort(b) ==> Decode(b) == []
    ensures !CutShort(b) ==>
              && |b| >= 4 && 4 + Be16(b[2], b[3]) <= |b|
              && Decode(b) == [Tag(Be16(b[0], b[1]), b[4..4 + Be16(b[2], b[3])])] + Decode(b[4 + Be16(b[2], b[3])..])
  {
    hide Be16;
  }

  lemma OneBytes(b: seq<Byte>) returns (n: nat)
    requires !CutShort(b)
    ensures 4 <= n == 4 + Be16(b[2], b[3]) <= |b|
    ensures var t := Tag(Be16(b[0], b[1]), b[4..n]); Fits(t) && One(t) == b[..n]
  {
    hide Be16, Hi, Lo;
    n := 4 + Be16(b[2], b[3]);
    BytesBe16(b[0], b[1]);
    BytesBe16(b[2], b[3]);
    assert b[..n] == [b[0], b[1], b[2], b[3]] + b[4..n];
  }

  lemma BytesBe16(x: Byte, y: Byte)
    ensures Hi(Be16(x, y)) == x && Lo(Be16(x, y)) == y
  {
  }

  /** The bytes of tag `k` in a frame. */
  lemma TagBytes(s: seq<Byte>, len: nat, ts: seq<Tag>, rest: seq<Byte>, k: nat)
    requires Framed(s, len, ts, rest) && k < |ts|
    ensures var at, n := TAGS + |Ser(ts[..k])|, |ts[k].data|;
      && at + 4 + n <= TAGS + |Ser(ts)| <= len <= |s|
      && Be16(s[at], s[at + 1]) == ts[k].kind && Be16(s[at + 2], s[at + 3]) == n
      && s[at + 4..at + 4 + n] == ts[k].data && |Ser(ts[..k + 1])| == at - TAGS + 4 + n
  {
    hide Ser, Be16, AllFit;
    var b := Ser(ts);
    var c, n := |Ser(ts[..k])|, |ts[k].data|;
    SerScan(ts, k, b);
    var r := s[TAGS..TAGS + |b + rest|];
    assert r[..|b|] == b;
    SubSlice(s, TAGS, TAGS + |b + rest|, 0, |b|);
    assert s[TAGS..TAGS + |b|] == b;
    SubSlice(s, TAGS, TAGS + |b|, c + 4, c + 4 + n);
    assert b[c] == s[TAGS + c] && b[c + 1] == s[TAGS + c + 1];
    assert b[c + 2] == s[TAGS + c + 2] && b[c + 3] == s[TAGS + c + 3];
  }

  /** In a frame the search finds the first complete tag of the kind; without one, and without a rest, it finds nothing.
      Either way it stays inside the frame. */
  lemma FindTagOnList(s: seq<Byte>, len: nat, ts: seq<Tag>, rest: seq<Byte>, kind: nat)
    requires Framed(s, len, ts, rest)
    ensures |s| >= TAGS
    ensures var k, n := First(ts, kind), Be16(s[18], s[19]);
      && (k < |ts| ==> TagsInside(s, n, kind, 0) && FindAt(s, n, kind, 0) == Some(|Ser(ts[..k])|))
      && (k == |ts| && rest == [] ==> TagsInside(s, n, kind, 0) && FindAt(s, n, kind, 0) == None)
  {
    SerNil(ts);
    FindTagFrom(s, len, ts, rest, kind, 0);
  }

  lemma {:induction false} FindTagFrom(s: seq<Byte>, len: nat, ts: seq<Tag>, rest: seq<Byte>, kind: nat, j: nat)
    requires Framed(s, len, ts, rest) && j <= |ts|
    ensures |s| >= TAGS
    ensures var k, n, c := j + First(ts[j..], kind), Be16(s[18], s[19]), |Ser(ts[..j])|;
      && (k < |ts| ==> TagsInside(s, n, kind, c) && FindAt(s, n, kind, c) == Some(|Ser(ts[..k])|))
      && (k == |ts| && rest == [] ==> TagsInside(s, n, kind, c) && FindAt(s, n, kind, c) == None)
    decreases |ts| - j
  {
    hide Ser, Be16, AllFit, First;
    FirstStep(ts, j, kind);
    if j < |ts| {
      TagBytes(s, len, ts, rest, j);
      if ts[j].kind != kind {
        FindTagFrom(s, len, ts, rest, kind, j + 1);
      }
    } else {
      assert ts[..j] == ts;
    }
  }

  lemma SerNil(ts: seq<Tag>)
    ensures ts[..0] == [] && ts[0..] == ts && Ser([]) == []
  {
  }

  lemma FirstStep(ts: seq<Tag>, k: nat, kind: nat)
    requires k <= |ts|
    ensures if k == |ts| then First(ts[k..], kind) == 0
            else if ts[k].kind == kind then First(ts[k..], kind) == 0
            else First(ts[k..], kind) == 1 + First(ts[k + 1..], kind)
  {
    if k < |ts| { assert ts[k..][1..] == ts[k + 1..]; }
  }

  /** The search for the Relay-Session-Id stays inside the frame buffer and stops at no tag but a complete one. */
  predicate Findable(s: seq<Byte>, ts: seq<Tag>)
    requires |s| >= TAGS
  {
    var n := Be16(s[18], s[19]);
    TagsInside(s, n, PTT_RELAY_SID, 0)
    && (First(ts, PTT_RELAY_SID) == |ts| ==> FindAt(s, n, PTT_RELAY_SID, 0) == None)
  }

  /** That is so for lists of complete tags, and whenever a complete Relay-Session-Id comes before the rest. */
  lemma WholeTagsAreFindable(s: seq<Byte>, len: nat, ts: seq<Tag>, rest: seq<Byte>)
    requires Framed(s, len, ts, rest) && (rest == [] || First(ts, PTT_RELAY_SID) < |ts|)
    ensures |s| >= TAGS && Findable(s, ts)
  {
    FindTagOnList(s, len, ts, rest, PTT_RELAY_SID);
  }

  // ---------- the frame buffer ----------

  class Skb {
    const buf: array<Byte>
    var len: nat

    constructor (buf: array<Byte>, len: nat)
      ensures this.buf == buf && this.len == len
    {
      this.buf, this.len := buf, len;
    }

    ghost predicate Holds(ts: seq<Tag>, rest: seq<Byte>)
      reads this, buf
    {
      Framed(buf[..], len, ts, rest)
    }

    /** `__nat25_find_pppoe_tag`, wherever its reads stay inside the buffer. */
    method FindTag(kind: nat) returns (found: bool, at: nat)
      requires TAGS <= buf.Length && TagsInside(buf[..], Be16(buf[18], buf[19]), kind, 0)
      ensures match FindAt(buf[..], Be16(buf[18], buf[19]), kind, 0)
              case None => !found
              case Some(c) => found && at == TAGS + c
    {
      hide Be16;
      ghost var s, n := buf[..], Be16(buf[18], buf[19]);
      var cur: nat := TAGS;
      while cur - TAGS < Be16(buf[18], buf[19])
        invariant TAGS <= cur && TagsInside(s, n, kind, cur - TAGS)
        invariant FindAt(s, n, kind, cur - TAGS) == FindAt(s, n, kind, 0)
        decreases n - (cur - TAGS)
      {
        var tagType := Be16(buf[cur], buf[cur + 1]);
        var tagLen := Be16(buf[cur + 2], buf[cur + 3]);
        if tagType == kind {
          return true, cur;
        }
        cur := cur + TAG_HDR_LEN + tagLen;
      }
      return false, 0;
    }

    /** `skb_pull_and_merge`: takes `n` bytes out of the frame. */
    method PullAndMerge(src: nat, n: nat) returns (r: int)
      requires len <= buf.Length
      modifies `len, buf
      ensures r == if src + n > old(len) then -1 else 0
      ensures r == -1 ==> len == old(len) && buf[..] == old(buf[..])
      ensures r == 0 ==>
                && len == old(len) - n
                && buf[src..len] == old(buf[src + n..len])
                && Outside(old(buf[..]), buf[..], src, old(len))
    {
      if src + n > len || len < n {
        return -1;
      }
      Cut(buf, src, n, len);
      len := len - n;
      return 0;
    }

    method SetLength(v: nat)
      requires v < 65536 && TAGS <= buf.Length
      modifies buf
      ensures buf[..] == old(buf[..])[18 := Hi(v)][19 := Lo(v)]
      ensures Be16(buf[18], buf[19]) == v
    {
      buf[18], buf[19] := Hi(v), Lo(v);
    }

    /** `skb_pull_and_merge` on `n` bytes of the tags, and the length field. */
    method Shrink(at: nat, n: nat, ghost b: seq<Byte>) returns (r: int)
      requires Region(buf[..], len, b) && TAGS <= at && at + n <= TAGS + |b|
      modifies `len, buf
      ensures r == 0 && len == old(len) - n && buf[..18] == old(buf[..18])
      ensures Region(buf[..], len, b[..at - TAGS] + b[at - TAGS + n..])
    {
      hide Be16, Hi, Lo, Region, Outside;
      ghost var s0, len0 := buf[..], len;
      RegionBytes(s0, len, b);
      r := PullAndMerge(at, n);
      ghost var s1: seq<Byte> := buf[..];
      KeepHeader(s0, s1, at, len0);
      SetLength(Be16(buf[18], buf[19]) - n);
      Shrunk(s0, s1, buf[..], at, n, len0, b);
    }

    /** Takes tag `k`, at `at`, out of the frame. */
    method DropTag(at: nat, n: nat, ghost ts: seq<Tag>, ghost rest: seq<Byte>, ghost k: nat) returns (r: int)
      requires Holds(ts, rest) && k < |ts| && at == TAGS + |Ser(ts[..k])| && n == |ts[k].data|
      modifies `len, buf
      ensures r == 0 && Holds(RemoveAt(ts, k), rest)
      ensures len == old(len) - TAG_HDR_LEN - n && buf[..18] == old(buf[..18])
    {
      hide Ser, Be16, AllFit, RemoveAt, Region;
      SerScan(ts, k, Ser(ts));
      SerRemoved(ts, k);
      AllFitPart(ts, k);
      CutFront(Ser(ts), rest, at - TAGS, TAG_HDR_LEN + n);
      r := Shrink(at, TAG_HDR_LEN + n, Ser(ts) + rest);
    }

    /** `__nat25_add_pppoe_tag`; `tail` are the bytes behind the tag in the buffer where it was built. */
    method AddTag(e: Endian, tag: Tag, tail: seq<Byte>, ghost b: seq<Byte>) returns (r: int)
      requires Region(buf[..], len, b) && Fits(tag)
      requires var n := HostLen(e, |tag.data|) + TAG_HDR_LEN;
        len + n <= buf.Length ==> n <= |One(tag) + tail|
      modifies `len, buf
      ensures var n := HostLen(e, |tag.data|) + TAG_HDR_LEN;
        if old(len) + n > buf.Length then r == -1 && len == old(len) && buf[..] == old(buf[..])
        else
          && r == n && len == old(len) + n && buf[..18] == old(buf[..18])
          && Region(buf[..], len, (One(tag) + tail)[..n] + b)
    {
      hide Be16, Hi, Lo, One, HostLen, Region;
      RegionBytes(buf[..], len, b);
      var dataLen := HostLen(e, |tag.data|) + TAG_HDR_LEN;
      if buf.Length - len < dataLen {
        return -1;
      }
      ghost var s0 := buf[..];
      len := len + dataLen;
      var old16 := Be16(buf[18], buf[19]);
      Memmove(buf, TAGS + dataLen, TAGS, old16);
      ghost var s1: seq<Byte> := buf[..];
      SetLength(old16 + dataLen);
      ghost var s2 := buf[..];
      var bytes := (One(tag) + tail)[..dataLen];
      Memcpy(buf, TAGS, bytes);
      Prepended(s0, s1, s2, buf[..], bytes, b);
      IsRegion(buf[..], len, bytes + b);
      return dataLen;
    }

    /** Copies the data of the Relay-Session-Id, if there is one, and takes it out of the frame, unless it is too
        long. */
    method TakeOld(ghost ts: seq<Tag>, ghost rest: seq<Byte>) returns (ok: bool, sid: seq<Byte>)
      requires Holds(ts, rest) && TAGS <= buf.Length && Findable(buf[..], ts)
      modifies `len, buf
      ensures ok <==> !TooLong(ts)
      ensures !ok ==> len == old(len) && buf[..] == old(buf[..])
      ensures ok ==> sid == OldSid(ts) && Holds(WithoutSid(ts), rest)
      ensures ok ==> len == old(len) - if First(ts, PTT_RELAY_SID) < |ts| then TAG_HDR_LEN + |sid| else 0
      ensures buf[..18] == old(buf[..18])
    {
      hide Ser, Be16, First, Framed, RemoveAt, Findable, OldSid, WithoutSid, TagsInside, FindAt;
      FindableSearch(buf[..], len, ts, rest);
      RelayFields(buf[..], len, ts, rest);
      OldTag(ts);
      var found, at := FindTag(PTT_RELAY_SID);
      if !found {
        return true, [];
      }
      var oldTagLen := Be16(buf[at + 2], buf[at + 3]);
      if oldTagLen + TAG_HDR_LEN + MAGIC_CODE_LEN + RTL_RELAY_TAG_LEN > TAG_BUF_LEN {
        return false, [];
      }
      ok, sid := true, buf[at + 4..at + 4 + oldTagLen];
      var r := DropTag(at, oldTagLen, ts, rest, First(ts, PTT_RELAY_SID));
    }

    /** The INSERT arm for a PADI or PADR with `addPPPoETag` set, where it does not read beyond `tag_buf`; `tagBuf`
        are the bytes of that variable before it is filled. */
    method InsertRelay(e: Endian, tagBuf: seq<Byte>, ghost ts: seq<Tag>, ghost rest: seq<Byte>) returns (r: int)
      requires Holds(ts, rest) && TAGS <= buf.Length && Findable(buf[..], ts) && |tagBuf| == TAG_BUF_LEN
      requires e.Little? ==> TooLong(ts) || Full(e, ts, len, buf.Length)
      modifies `len, buf
      ensures TooLong(ts) ==> r == -1 && len == old(len) && buf[..] == old(buf[..])
      ensures !TooLong(ts) && Full(e, ts, old(len), buf.Length) ==> r == -1 && Holds(WithoutSid(ts), rest)
      ensures !TooLong(ts) && !Full(e, ts, old(len), buf.Length) ==> r == 0 && Holds(Tagged(ts, old(buf[6..12])), rest)
      ensures buf[..18] == old(buf[..18])
    {
      hide Ser, Be16, First, Framed, Findable, HostLen, Region, One, OldSid, WithoutSid, Relay;
      ghost var h := buf[..];
      var ok, sid := TakeOld(ts, rest);
      if !ok {
        return -1;
      }
      FramedBounds(buf[..], len, WithoutSid(ts), rest);
      SourceKept(h, buf[..]);
      LittleEndianOverruns(ts);
      var tag := Relay(buf[6..12], sid);
      RelaySize(buf[6..12], sid);
      r := AddTag(e, tag, tagBuf[TAG_HDR_LEN + |tag.data|..], Ser(WithoutSid(ts)) + rest);
      if r >= 0 {
        AddedIffLengthRight(e, buf[..], len, tag, WithoutSid(ts), rest, tagBuf[TAG_HDR_LEN + |tag.data|..]);
        return 0;
      }
      return -1;
    }

    /** Takes the magic code and the client out of tag `k`, at `at`, which has more data. */
    method TrimTag(at: nat, tagLen: nat, ghost ts: seq<Tag>, ghost rest: seq<Byte>, ghost k: nat) returns (r: int)
      requires Holds(ts, rest) && k < |ts| && at == TAGS + |Ser(ts[..k])| && tagLen == |ts[k].data| > 8
      modifies `len, buf
      ensures r == 0 && Holds(ts[k := Tag(ts[k].kind, ts[k].data[8..])], rest)
      ensures buf[..18] == old(buf[..18])
    {
      hide Ser, Be16, Region, AllFit, Hi, Lo;
      ghost var b, c := Ser(ts), at - TAGS;
      FramedBounds(buf[..], len, ts, rest);
      TagBytes(buf[..], len, ts, rest, k);
      r := Shrink(at + TAG_HDR_LEN, MAGIC_CODE_LEN + RTL_RELAY_TAG_LEN, b + rest);
      ghost var s2: seq<Byte> := buf[..];
      var newLen: nat := tagLen - MAGIC_CODE_LEN - RTL_RELAY_TAG_LEN;
      TrimmedTag(ts, k);
      TrimmedFits(ts, k);
      TrimmedRegion(b, rest, c, Hi(newLen), Lo(newLen));
      RegionBytes(s2, len, (b + rest)[..c + 4] + (b + rest)[c + 12..]);
      RegionUpdate(s2, len, (b + rest)[..c + 4] + (b + rest)[c + 12..], c + 2, Hi(newLen), Lo(newLen));
      buf[at + 2], buf[at + 3] := Hi(newLen), Lo(newLen);
      assert buf[..] == s2[at + 2 := Hi(newLen)][at + 3 := Lo(newLen)];
      assert buf[..18] == s2[..18];
    }

    /** Makes `mac` the destination and takes the magic code and the client out of tag `k`, at `at`. */
    method StripRelay(mac: seq<Byte>, at: nat, tagLen: nat, ghost ts: seq<Tag>, ghost rest: seq<Byte>, ghost k: nat)
      returns (r: int)
      requires Holds(ts, rest) && k < |ts| && at == TAGS + |Ser(ts[..k])| && tagLen == |ts[k].data| >= 8 && |mac| == 6
      modifies `len, buf
      ensures r == 0 && buf[..6] == mac && buf[6..18] == old(buf[6..18])
      ensures var d := ts[k].data[8..]; Holds(if d == [] then RemoveAt(ts, k) else ts[k := Tag(ts[k].kind, d)], rest)
    {
      hide Ser, Be16, Framed, RemoveAt;
      FramedBounds(buf[..], len, ts, rest);
      ghost var s0 := buf[..];
      Memcpy(buf, 0, mac);
      DstOnly(s0, buf[..], mac, len, ts, rest);
      ghost var s1: seq<Byte> := buf[..];
      if tagLen > MAGIC_CODE_LEN + RTL_RELAY_TAG_LEN {
        r := TrimTag(at, tagLen, ts, rest, k);
      } else {
        r := DropTag(at, tagLen, ts, rest, k);
      }
      SameHeader(s1, buf[..]);
    }

    /** The LOOKUP arm for a PADO or PADS with `addPPPoETag` set. */
    method LookupRelay(ghost ts: seq<Tag>, ghost rest: seq<Byte>) returns (r: int)
      requires Holds(ts, rest) && TAGS <= buf.Length && Findable(buf[..], ts)
      modifies `len, buf
      ensures r == if Echoed(ts) then 0 else -1
      ensures r == -1 ==> len == old(len) && buf[..] == old(buf[..])
      ensures r == 0 ==> Holds(Stripped(ts), rest) && buf[..6] == ClientMac(ts) && buf[6..18] == old(buf[6..18])
    {
      hide Ser, Be16, First, Framed, RemoveAt, Findable, Echoed, ClientMac, Stripped, TagsInside, FindAt;
      FindableSearch(buf[..], len, ts, rest);
      RelayFields(buf[..], len, ts, rest);
      var found, at := FindTag(PTT_RELAY_SID);
      if !found {
        return -1;
      }
      var tagLen := Be16(buf[at + 2], buf[at + 3]);
      if tagLen < MAGIC_CODE_LEN + RTL_RELAY_TAG_LEN || buf[at + 4..at + 6] != MAGIC {
        return -1;
      }
      r := StripRelay(buf[at + 6..at + 12], at, tagLen, ts, rest, First(ts, PTT_RELAY_SID));
    }
  }

  /** The Relay-Session-Id of a frame, if it has one among its complete tags. */
  lemma RelayFields(s: seq<Byte>, len: nat, ts: seq<Tag>, rest: seq<Byte>)
    requires Framed(s, len, ts, rest)
    ensures var k := First(ts, PTT_RELAY_SID);
      && (k == |ts| ==> !Echoed(ts))
      && (k < |ts| ==>
            var at, n := TAGS + |Ser(ts[..k])|, |ts[k].data|;
            && at + 4 + n <= |s| && Be16(s[at + 2], s[at + 3]) == n && s[at + 4..at + 4 + n] == OldSid(ts)
            && (Echoed(ts) <==> n >= 8 && s[at + 4..at + 6] == MAGIC)
            && (Echoed(ts) ==>
                  && ClientMac(ts) == s[at + 6..at + 12]
                  && (var d := ts[k].data[8..];
                      Stripped(ts) == if d == [] then RemoveAt(ts, k) else ts[k := Tag(ts[k].kind, d)])))
  {
    hide Ser, Be16, Framed, RemoveAt, Echoed, ClientMac, Stripped, First, OldSid, WithoutSid;
    EchoedSid(ts);
    OldTag(ts);
    var k := First(ts, PTT_RELAY_SID);
    if k < |ts| {
      TagBytes(s, len, ts, rest, k);
      SidParts(s, TAGS + |Ser(ts[..k])| + 4, OldSid(ts));
    }
  }

  lemma SidParts(s: seq<Byte>, at: nat, d: seq<Byte>)
    requires at + |d| <= |s| && s[at..at + |d|] == d
    ensures |d| >= 8 ==> s[at..at + 2] == d[..2] && s[at + 2..at + 8] == d[2..8]
  {
    if |d| >= 8 {
      SubSlice(s, at, at + |d|, 0, 2);
      SubSlice(s, at, at + |d|, 2, 8);
      assert d[..2] == d[0..2];
    }
  }

  lemma EchoedSid(ts: seq<Tag>)
    ensures var k, d := First(ts, PTT_RELAY_SID), OldSid(ts);
      && (Echoed(ts) <==> k < |ts| && |d| >= 8 && d[..2] == MAGIC)
      && (Echoed(ts) ==>
            && ClientMac(ts) == d[2..8]
            && Stripped(ts) == if d[8..] == [] then RemoveAt(ts, k) else ts[k := Tag(ts[k].kind, d[8..])])
  {
  }

  lemma FramedBounds(s: seq<Byte>, len: nat, ts: seq<Tag>, rest: seq<Byte>)
    requires Framed(s, len, ts, rest)
    ensures TAGS + |Ser(ts)| + |rest| <= len <= |s| < 65536 && Be16(s[18], s[19]) == |Ser(ts)| + |rest|
    ensures AllFit(ts) && Region(s, len, Ser(ts) + rest)
  {
  }

  lemma RegionBytes(s: seq<Byte>, len: nat, b: seq<Byte>)
    requires Region(s, len, b)
    ensures TAGS + |b| <= len <= |s| < 65536 && Be16(s[18], s[19]) == |b| && s[TAGS..TAGS + |b|] == b
  {
  }

  lemma IsRegion(s: seq<Byte>, len: nat, b: seq<Byte>)
    requires TAGS + |b| <= len <= |s| < 65536 && Be16(s[18], s[19]) == |b| && s[TAGS..TAGS + |b|] == b
    ensures Region(s, len, b)
  {
  }

  /** What the search for the Relay-Session-Id finds in a frame where it is findable. */
  lemma FindableSearch(s: seq<Byte>, len: nat, ts: seq<Tag>, rest: seq<Byte>)
    requires Framed(s, len, ts, rest) && |s| >= TAGS && Findable(s, ts)
    ensures var k, n := First(ts, PTT_RELAY_SID), Be16(s[18], s[19]);
      && TagsInside(s, n, PTT_RELAY_SID, 0)
      && FindAt(s, n, PTT_RELAY_SID, 0) == if k < |ts| then Some(|Ser(ts[..k])|) else None
  {
    hide Ser, First, Framed;
    FindTagOnList(s, len, ts, rest, PTT_RELAY_SID);
  }

  /** Cutting bytes out of `x` in front of `rest`. */
  lemma CutFront(x: seq<Byte>, rest: seq<Byte>, c: nat, n: nat)
    requires c + n <= |x|
    ensures (x + rest)[..c] + (x + rest)[c + n..] == x[..c] + x[c + n..] + rest
  {
  }

  lemma AllFitPart(ts: seq<Tag>, k: nat)
    requires AllFit(ts) && k < |ts|
    ensures AllFit(RemoveAt(ts, k))
  {
    var r := RemoveAt(ts, k);
    forall i | 0 <= i < |r| ensures Fits(r[i]) {
      assert r[i] == ts[if i < k then i else i + 1];
    }
  }

  lemma SerRemoved(ts: seq<Tag>, k: nat)
    requires k < |ts|
    ensures Ser(RemoveAt(ts, k)) == Ser(ts[..k]) + Ser(ts[k + 1..])
  {
    SerConcat(ts[..k], ts[k + 1..]);
  }

  /** The bytes left when `n` bytes of a region are cut out. */
  lemma CutRegion(s: seq<Byte>, t: seq<Byte>, at: nat, n: nat, len: nat, size: nat)
    requires Outside(s, t, at, len) && TAGS <= at && at + n <= TAGS + size <= len
    requires t[at..len - n] == s[at + n..len]
    ensures var b, c := s[TAGS..TAGS + size], at - TAGS;
      t[TAGS..TAGS + size - n] == b[..c] + b[c + n..]
  {
    var b, c := s[TAGS..TAGS + size], at - TAGS;
    KeepSlice(s, t, at, len, TAGS, at);
    SubSlice(s, TAGS, TAGS + size, 0, c);
    SubSlice(s, TAGS, TAGS + size, c + n, size);
    SubSlice(t, at, len - n, 0, TAGS + size - n - at);
    SubSlice(s, at + n, len, 0, TAGS + size - n - at);
    JoinSlices(t, TAGS, at, TAGS + size - n);
    assert b[0..c] == b[..c] && b[c + n..size] == b[c + n..];
  }

  lemma Shrunk(s0: seq<Byte>, s1: seq<Byte>, s2: seq<Byte>, at: nat, n: nat, len: nat, b: seq<Byte>)
    requires Region(s0, len, b) && TAGS <= at && at + n <= TAGS + |b|
    requires Outside(s0, s1, at, len) && s1[at..len - n] == s0[at + n..len]
    requires |s2| == |s1| && s2 == s1[18 := s2[18]][19 := s2[19]] && Be16(s2[18], s2[19]) == |b| - n
    ensures s2[..18] == s0[..18]
    ensures Region(s2, len - n, b[..at - TAGS] + b[at - TAGS + n..])
  {
    hide Be16;
    CutRegion(s0, s1, at, n, len, |b|);
    KeepHeader(s0, s1, at, len);
    HeaderKept(s1, s2, TAGS + |b| - n);
  }

  lemma KeepHeader(s: seq<Byte>, t: seq<Byte>, at: nat, len: nat)
    requires Outside(s, t, at, len) && TAGS <= at
    ensures t[..18] == s[..18] && t[18] == s[18] && t[19] == s[19]
  {
    assert s[..18] == s[..at][..18] && t[..18] == t[..at][..18];
    assert s[18] == s[..at][18] && t[18] == t[..at][18] && s[19] == s[..at][19] && t[19] == t[..at][19];
  }

  lemma HeaderKept(s: seq<Byte>, t: seq<Byte>, end: nat)
    requires TAGS <= end <= |s| == |t| && t == s[18 := t[18]][19 := t[19]]
    ensures t[TAGS..end] == s[TAGS..end] && t[..18] == s[..18]
  {
  }

  /** What `__nat25_add_pppoe_tag` leaves is the longer list of tags exactly when the host reads the tag's length
      right. */
  lemma AddedIffLengthRight(e: Endian, s: seq<Byte>, len: nat, t: Tag, ts: seq<Tag>, rest: seq<Byte>, tail: seq<Byte>)
    requires AllFit(ts) && Fits(t) && HostLen(e, |t.data|) + TAG_HDR_LEN <= |One(t) + tail|
    requires Region(s, len, (One(t) + tail)[..HostLen(e, |t.data|) + TAG_HDR_LEN] + (Ser(ts) + rest))
    ensures Framed(s, len, [t] + ts, rest) <==> e.Big? || Hi(|t.data|) == Lo(|t.data|)
  {
    HostLenIsRight(e, |t.data|);
    SerFront(t, ts);
    hide One, Ser, AllFit, HostLen, Hi, Lo, Be16;
    if HostLen(e, |t.data|) == |t.data| {
      assert (One(t) + tail)[..|One(t)|] == One(t);
      Assoc(One(t), Ser(ts), rest);
    }
  }

  lemma SerFront(t: Tag, ts: seq<Tag>)
    requires AllFit(ts) && Fits(t)
    ensures Ser([t] + ts) == One(t) + Ser(ts) && AllFit([t] + ts)
  {
    assert ([t] + ts)[1..] == ts;
  }

  /** Moving the tags `b` up, setting the length field and copying `x` in front of them. */
  lemma Prepended(s0: seq<Byte>, s1: seq<Byte>, s2: seq<Byte>, s3: seq<Byte>, x: seq<Byte>, b: seq<Byte>)
    requires TAGS + |x| + |b| <= |s0| && s0[TAGS..TAGS + |b|] == b
    requires s1 == s0[..TAGS + |x|] + s0[TAGS..TAGS + |b|] + s0[TAGS + |x| + |b|..]
    requires |s2| == |s1| && s2 == s1[18 := s2[18]][19 := s2[19]]
    requires s3 == s2[..TAGS] + x + s2[TAGS + |x|..]
    ensures |s3| == |s0| && s3[18] == s2[18] && s3[19] == s2[19] && s3[..18] == s0[..18]
    ensures s3[TAGS..TAGS + |x| + |b|] == x + b
  {
    var y := s3[TAGS..TAGS + |x| + |b|];
    forall k | 0 <= k < |y| ensures y[k] == (x + b)[k] {
      if k >= |x| {
        assert y[k] == s3[TAGS + k] == s2[TAGS + |x|..][k - |x|] == s2[TAGS + k] == s1[TAGS + k];
        assert s1[TAGS + k] == s0[TAGS..TAGS + |b|][k - |x|];
      }
    }
    assert y == x + b;
    forall k | 0 <= k < 18 ensures s3[k] == s0[k] {
    }
  }

  /** Writing the destination address does not touch the tags. */
  lemma DstOnly(s: seq<Byte>, t: seq<Byte>, mac: seq<Byte>, len: nat, ts: seq<Tag>, rest: seq<Byte>)
    requires Framed(s, len, ts, rest) && |mac| == 6 && t == s[..0] + mac + s[6..]
    ensures Framed(t, len, ts, rest) && t[..6] == mac && t[6..18] == s[6..18]
  {
    hide Ser, Be16, AllFit;
    var b := Ser(ts) + rest;
    assert t[TAGS..TAGS + |b|] == s[TAGS..TAGS + |b|];
    assert t[18] == s[18] && t[19] == s[19];
  }

  lemma SourceKept(s: seq<Byte>, t: seq<Byte>)
    requires |s| >= 18 && |t| >= 18 && s[..18] == t[..18]
    ensures s[6..12] == t[6..12]
  {
    assert s[6..12] == s[..18][6..12] && t[6..12] == t[..18][6..12];
  }

  lemma SameHeader(s: seq<Byte>, t: seq<Byte>)
    requires |s| >= 18 && |t| >= 18 && s[..18] == t[..18]
    ensures s[..6] == t[..6] && s[6..18] == t[6..18]
  {
    assert s[..6] == s[..18][..6] && s[6..18] == s[..18][6..];
    assert t[..6] == t[..18][..6] && t[6..18] == t[..18][6..];
  }

  /** Two bytes of the tags are overwritten. */
  lemma RegionUpdate(s: seq<Byte>, len: nat, b: seq<Byte>, c: nat, x: Byte, y: Byte)
    requires Region(s, len, b) && c + 2 <= |b|
    ensures Region(s[TAGS + c := x][TAGS + c + 1 := y], len, b[c := x][c + 1 := y])
  {
    hide Be16;
    var t := s[TAGS + c := x][TAGS + c + 1 := y];
    assert t[18] == s[18] && t[19] == s[19];
    assert t[TAGS..TAGS + |b|] == b[c := x][c + 1 := y];
  }

  lemma TrimmedRegion(b: seq<Byte>, rest: seq<Byte>, c: nat, x: Byte, y: Byte)
    requires c + 12 <= |b|
    ensures ((b + rest)[..c + 4] + (b + rest)[c + 12..])[c + 2 := x][c + 3 := y]
         == (b[..c + 4] + b[c + 12..])[c + 2 := x][c + 3 := y] + rest
  {
    CutFront(b, rest, c + 4, 8);
  }

  lemma TrimmedFits(ts: seq<Tag>, k: nat)
    requires AllFit(ts) && k < |ts| && |ts[k].data| > 8
    ensures AllFit(ts[k := Tag(ts[k].kind, ts[k].data[8..])])
  {
  }

  lemma TrimmedTag(ts: seq<Tag>, k: nat)
    requires AllFit(ts) && k < |ts| && |ts[k].data| > 8
    ensures var b, c, n: nat := Ser(ts), |Ser(ts[..k])|, |ts[k].data| - 8;
      && c + 12 <= |b|
      && (b[..c + 4] + b[c + 12..])[c + 2 := Hi(n)][c + 3 := Lo(n)] == Ser(ts[k := Tag(ts[k].kind, ts[k].data[8..])])
  {
    hide Ser, Hi, Lo, AllFit;
    var b, t, n: nat := Ser(ts), ts[k], |ts[k].data| - 8;
    var t' := Tag(t.kind, t.data[8..]);
    var ts' := ts[k := t'];
    SerAt(ts, k);
    SerAt(ts', k);
    assert ts'[..k] == ts[..k] && ts'[k + 1..] == ts[k + 1..];
    TrimOne(Ser(ts[..k]), t, Ser(ts[k + 1..]));
  }

  lemma TrimOne(p: seq<Byte>, t: Tag, q: seq<Byte>)
    requires |t.data| > 8
    ensures var b, c, n: nat := p + (One(t) + q), |p|, |t.data| - 8;
      && c + 12 <= |b|
      && (b[..c + 4] + b[c + 12..])[c + 2 := Hi(n)][c + 3 := Lo(n)] == p + (One(Tag(t.kind, t.data[8..])) + q)
  {
    var b, c, n: nat := p + (One(t) + q), |p|, |t.data| - 8;
    var x := (b[..c + 4] + b[c + 12..])[c + 2 := Hi(n)][c + 3 := Lo(n)];
    var y := p + (One(Tag(t.kind, t.data[8..])) + q);
    assert |x| == |y|;
    forall i | 0 <= i < |x| ensures x[i] == y[i] {
      if c <= i < c + 4 {
        assert y[i] == One(Tag(t.kind, t.data[8..]))[i - c];
        assert b[i] == One(t)[i - c];
      } else if c + 4 <= i < c + 4 + n {
        assert y[i] == t.data[8..][i - c - 4];
        assert x[i] == b[i + 8] == One(t)[i + 8 - c] == t.data[i + 4 - c];
      } else if i >= c + 4 + n {
        assert x[i] == b[i + 8] == q[i - c - 4 - n];
      }
    }
  }
}
