// The KCP wire format: 24-byte little-endian headers followed by their data,
// several of them concatenated in one datagram of at most mtu bytes.
module Wire {
  import opened Word

  const OVERHEAD: int := 24
  const CMD_PUSH: u8 := 81
  const CMD_ACK: u8 := 82
  const CMD_WASK: u8 := 83
  const CMD_WINS: u8 := 84

  /** One fragment of a message: how many fragments follow it, and its bytes. */
  datatype Frag = Frag(frg: u8, data: seq<u8>)

  datatype Msg = Msg(conv: u32, cmd: u8, wnd: u16, ts: u32, sn: u32, una: u32, frag: Frag)

  datatype Head = Head(conv: u32, cmd: u8, frg: u8, wnd: u16, ts: u32, sn: u32, una: u32, len: u32)

  // ---------- integers ----------

  function Encode16(w: u16): (s: seq<u8>)
    ensures |s| == 2
  {
    [w % 256, w / 256]
  }

  function Decode16(s: seq<u8>): u16
    requires |s| == 2
  {
    var lo: int, hi: int := s[0], s[1];
    lo + 0x100 * hi
  }

  function Encode32(l: u32): (s: seq<u8>)
    ensures |s| == 4
  {
    [l % 256, l / 0x100 % 256, l / 0x1_0000 % 256, l / 0x100_0000]
  }

  function Decode32(s: seq<u8>): u32
    requires |s| == 4
  {
    var a: int, b: int, c: int, d: int := s[0], s[1], s[2], s[3];
    a + 0x100 * b + 0x1_0000 * c + 0x100_0000 * d
  }

  lemma RoundTrip32(l: u32, s: seq<u8>)
    requires |s| == 4
    ensures Decode32(Encode32(l)) == l
    ensures Encode32(Decode32(s)) == s
  {
    Digits(l);
    Digits(Decode32(s));
    SameDigits(Decode32(s), s[0], s[1], s[2], s[3]);
    hide Decode32;
  }

  /** The bytes of a word, each taken out of what the ones below leave. */
  lemma Digits(l: u32)
    ensures var x := l / 0x100; var y := x / 0x100;
      && l / 0x1_0000 == y && l / 0x100_0000 == y / 0x100
      && l == l % 256 + 0x100 * (x % 256 + 0x100 * (y % 256 + 0x100 * (y / 0x100)))
  {
  }

  lemma SameDigits(l: u32, a: u8, b: u8, c: u8, d: u8)
    requires l == a + 0x100 * (b + 0x100 * (c + 0x100 * d))
    ensures var x := l / 0x100; var y := x / 0x100;
      l % 256 == a && x % 256 == b && y % 256 == c && y / 0x100 == d
  {
    LowDigit(l, a, b + 0x100 * (c + 0x100 * d));
    LowDigit(l / 0x100, b, c + 0x100 * d);
    LowDigit(l / 0x100 / 0x100, c, d);
  }

  lemma LowDigit(x: int, lo: u8, hi: int)
    requires x == lo + 0x100 * hi
    ensures x % 256 == lo && x / 0x100 == hi
  {
  }

  // ---------- headers ----------

  function EncodeHead(h: Head): (s: seq<u8>)
    ensures |s| == OVERHEAD
  {
    Encode32(h.conv) + [h.cmd, h.frg] + Encode16(h.wnd) +
    Encode32(h.ts) + Encode32(h.sn) + Encode32(h.una) + Encode32(h.len)
  }

  function DecodeHead(s: seq<u8>): Head
    requires |s| >= OVERHEAD
  {
    Head(Decode32(s[0..4]), s[4], s[5], Decode16(s[6..8]),
         Decode32(s[8..12]), Decode32(s[12..16]), Decode32(s[16..20]), Decode32(s[20..24]))
  }

  lemma HeadRoundTrip(h: Head, s: seq<u8>, rest: seq<u8>)
    requires |s| == OVERHEAD
    ensures DecodeHead(EncodeHead(h) + rest) == h
    ensures EncodeHead(DecodeHead(s + rest)) == s
  {
    DecodeEncoded(h, rest);
    EncodeDecoded(s, rest);
  }

  lemma DecodeEncoded(h: Head, rest: seq<u8>)
    ensures DecodeHead(EncodeHead(h) + rest) == h
  {
    hide Encode32, Decode32;
    var e := EncodeHead(h) + rest;
    assert e[0..4] == Encode32(h.conv) && e[6..8] == Encode16(h.wnd);
    assert e[8..12] == Encode32(h.ts) && e[12..16] == Encode32(h.sn);
    assert e[16..20] == Encode32(h.una) && e[20..24] == Encode32(h.len);
    RoundTrip32(h.conv, [0, 0, 0, 0]);
    RoundTrip32(h.ts, [0, 0, 0, 0]);
    RoundTrip32(h.sn, [0, 0, 0, 0]);
    RoundTrip32(h.una, [0, 0, 0, 0]);
    RoundTrip32(h.len, [0, 0, 0, 0]);
  }

  lemma EncodeDecoded(s: seq<u8>, rest: seq<u8>)
    requires |s| == OVERHEAD
    ensures EncodeHead(DecodeHead(s + rest)) == s
  {
    hide Encode32, Decode32;
    var t := s + rest;
    assert t[0..4] == s[0..4] && t[6..8] == s[6..8] && t[8..12] == s[8..12];
    assert t[12..16] == s[12..16] && t[16..20] == s[16..20] && t[20..24] == s[20..24];
    RoundTrip32(0, s[0..4]);
    RoundTrip32(0, s[8..12]);
    RoundTrip32(0, s[12..16]);
    RoundTrip32(0, s[16..20]);
    RoundTrip32(0, s[20..24]);
  }

  /** The number that four bytes of s from i on spell, the lowest first. */
  function Word32(s: seq<u8>, i: nat): int
    requires i + 4 <= |s|
  {
    var a: int, b: int, c: int, d: int := s[i], s[i + 1], s[i + 2], s[i + 3];
    a + 256 * (b + 256 * (c + 256 * d))
  }

  function Word16(s: seq<u8>, i: nat): int
    requires i + 2 <= |s|
  {
    var a: int, b: int := s[i], s[i + 1];
    a + 256 * b
  }

  /** Where each field of a header is, and in which order its bytes are. */
  lemma HeadLayout(h: Head)
    ensures var s := EncodeHead(h);
      && |s| == 24
      && Word32(s, 0) == h.conv && s[4] == h.cmd && s[5] == h.frg && Word16(s, 6) == h.wnd
      && Word32(s, 8) == h.ts && Word32(s, 12) == h.sn && Word32(s, 16) == h.una && Word32(s, 20) == h.len
  {
    WordSpelt(h.conv);
    WordSpelt(h.ts);
    WordSpelt(h.sn);
    WordSpelt(h.una);
    WordSpelt(h.len);
    hide Encode32;
  }

  lemma WordSpelt(l: u32)
    ensures Word32(Encode32(l), 0) == l
  {
    Digits(l);
  }

  // ---------- messages ----------

  predicate Encodable(ms: seq<Msg>) {
    forall i :: 0 <= i < |ms| ==> |ms[i].frag.data| < TWO31
  }

  predicate AllSendable(conv: u32, ms: seq<Msg>) {
    forall i :: 0 <= i < |ms| ==> Sendable(conv, ms[i])
  }

  predicate Sendable(conv: u32, m: Msg) {
    m.conv == conv && CMD_PUSH <= m.cmd <= CMD_WINS && |m.frag.data| < TWO31
  }

  function MsgSize(m: Msg): nat {
    OVERHEAD + |m.frag.data|
  }

  function HeadOf(m: Msg): Head
    requires |m.frag.data| < TWO31
  {
    Head(m.conv, m.cmd, m.frag.frg, m.wnd, m.ts, m.sn, m.una, |m.frag.data|)
  }

  function EncodeMsg(m: Msg): (s: seq<u8>)
    requires |m.frag.data| < TWO31
    ensures |s| == MsgSize(m)
  {
    EncodeHead(HeadOf(m)) + m.frag.data
  }

  function EncodeAll(ms: seq<Msg>): seq<u8>
    requires Encodable(ms)
  {
    if ms == [] then [] else EncodeMsg(ms[0]) + EncodeAll(ms[1..])
  }

  /** The message that a header h at the front of s announces, with its data. */
  function MsgAt(h: Head, s: seq<u8>): Msg
    requires |s| >= OVERHEAD + h.len
  {
    Msg(h.conv, h.cmd, h.wnd, h.ts, h.sn, h.una, Frag(h.frg, s[OVERHEAD..OVERHEAD + h.len]))
  }

  datatype Parsed = Parsed(ms: seq<Msg>, code: int)

  /** The code with which the input loop rejects the bytes s when it meets header h, 0 for none. */
  function Reject(conv: u32, h: Head, size: nat): int {
    if h.conv != conv then -1
    else if size - OVERHEAD < h.len || h.len >= TWO31 then -2
    else if !(CMD_PUSH <= h.cmd <= CMD_WINS) then -3
    else 0
  }

  /** The messages in a datagram up to the first bad one, and the resulting return code. */
  function Parse(conv: u32, s: seq<u8>): (p: Parsed)
    ensures AllSendable(conv, p.ms) && Encodable(p.ms)
    decreases |s|
  {
    if |s| < OVERHEAD then Parsed([], 0) else
    var h := DecodeHead(s);
    var code := Reject(conv, h, |s|);
    if code != 0 then Parsed([], code) else
    var rest := Parse(conv, s[OVERHEAD + h.len..]);
    Parsed([MsgAt(h, s)] + rest.ms, rest.code)
  }

  lemma ParseOne(conv: u32, m: Msg, t: seq<u8>)
    requires Sendable(conv, m)
    ensures Parse(conv, EncodeMsg(m) + t) == Parsed([m] + Parse(conv, t).ms, Parse(conv, t).code)
  {
    var h, s := HeadOf(m), EncodeMsg(m) + t;
    var rest := m.frag.data + t;
    assert s == EncodeHead(h) + rest;
    HeadRoundTrip(h, EncodeHead(h), rest);
    assert s[OVERHEAD..OVERHEAD + h.len] == m.frag.data;
    assert s[OVERHEAD + h.len..] == t;
    assert MsgAt(h, s) == m;
  }

  lemma SplitConcat<T>(ms: seq<T>, t: seq<T>)
    requires ms != []
    ensures ms + t == [ms[0]] + (ms[1..] + t)
  {
  }

  lemma Assoc<T>(a: seq<T>, b: seq<T>, c: seq<T>)
    ensures a + b + c == a + (b + c)
  {
  }

  /** What was encoded is what the parser sees, whatever follows it in the datagram. */
  lemma {:induction false} ParseEncode(conv: u32, ms: seq<Msg>, tail: seq<u8>)
    requires AllSendable(conv, ms)
    ensures Encodable(ms)
    ensures Parse(conv, EncodeAll(ms) + tail) == Parsed(ms + Parse(conv, tail).ms, Parse(conv, tail).code)
  {
    hide Parse;
    var p := Parse(conv, tail);
    if ms == [] {
      assert EncodeAll(ms) + tail == tail;
      assert ms + p.ms == p.ms;
    } else {
      var t := EncodeAll(ms[1..]) + tail;
      ParseEncode(conv, ms[1..], tail);
      ParseOne(conv, ms[0], t);
      SplitConcat(ms, p.ms);
      assert EncodeAll(ms) + tail == EncodeMsg(ms[0]) + t by {
        hide EncodeMsg;
      }
    }
  }

  lemma ParseFirst(conv: u32, s: seq<u8>)
    requires |s| >= OVERHEAD && Reject(conv, DecodeHead(s), |s|) == 0
    ensures var h := DecodeHead(s); var m := MsgAt(h, s);
      && OVERHEAD + h.len <= |s| && |m.frag.data| < TWO31
      && s == EncodeMsg(m) + s[OVERHEAD + h.len..]
  {
    var h := DecodeHead(s);
    assert s == s[..OVERHEAD] + s[OVERHEAD..];
    HeadRoundTrip(h, s[..OVERHEAD], s[OVERHEAD..]);
    hide DecodeHead, EncodeHead;
    assert EncodeMsg(MsgAt(h, s)) == s[..OVERHEAD] + s[OVERHEAD..OVERHEAD + h.len];
  }

  lemma EncodeFirst(m: Msg, ms: seq<Msg>)
    requires |m.frag.data| < TWO31 && Encodable(ms)
    ensures Encodable([m] + ms) && EncodeAll([m] + ms) == EncodeMsg(m) + EncodeAll(ms)
  {
    hide EncodeMsg;
    assert ([m] + ms)[1..] == ms;
  }

  /** The parser consumes a prefix of its input that re-encodes to the very same bytes. */
  lemma {:induction false} EncodeParse(conv: u32, s: seq<u8>)
    ensures EncodeAll(Parse(conv, s).ms) <= s
    ensures Parse(conv, s).code == 0 ==> |s| - |EncodeAll(Parse(conv, s).ms)| < OVERHEAD
    decreases |s|
  {
    hide DecodeHead, EncodeMsg, Reject;
    if |s| >= OVERHEAD && Reject(conv, DecodeHead(s), |s|) == 0 {
      ParseFirst(conv, s);
      var h := DecodeHead(s);
      var t := s[OVERHEAD + h.len..];
      EncodeParse(conv, t);
      EncodeFirst(MsgAt(h, s), Parse(conv, t).ms);
    }
  }

  /**
   * The loop stops when less than a header is left, with code 0, or at a header of another conversation (-1), of
   * more data than is left or than 2^31 - 1 bytes (-2), or of an unknown command (-3), in this order.
   */
  lemma {:induction false} RejectedFor(conv: u32, s: seq<u8>)
    ensures var p := Parse(conv, s);
      && Size(p.ms) <= |s|
      && p.code == Verdict(conv, s[Size(p.ms)..])
    decreases |s|
  {
    hide DecodeHead, Verdict;
    if |s| >= OVERHEAD {
      var h := DecodeHead(s);
      VerdictIs(conv, s);
      if Reject(conv, h, |s|) == 0 {
        RejectedFor(conv, s[OVERHEAD + h.len..]);
        var ms := Parse(conv, s[OVERHEAD + h.len..]).ms;
        assert Parse(conv, s).ms == [MsgAt(h, s)] + ms;
        assert Size([MsgAt(h, s)] + ms) == OVERHEAD + h.len + Size(ms);
        assert s[OVERHEAD + h.len..][Size(ms)..] == s[OVERHEAD + h.len + Size(ms)..];
      } else {
        assert s[0..] == s;
      }
    } else {
      assert s[0..] == s;
      VerdictShort(conv, s);
    }
  }

  /** The code for what is left. */
  function Verdict(conv: u32, s: seq<u8>): int {
    if |s| < 24 then 0
    else if Word32(s, 0) != conv then -1
    else if |s| < 24 + Word32(s, 20) || Word32(s, 20) > 0x7fff_ffff then -2
    else if s[4] !in {81, 82, 83, 84} then -3
    else 1
  }

  lemma VerdictShort(conv: u32, s: seq<u8>)
    requires |s| < 24
    ensures Verdict(conv, s) == 0
  {
  }

  lemma VerdictIs(conv: u32, s: seq<u8>)
    requires |s| >= 24
    ensures Verdict(conv, s) == if Reject(conv, DecodeHead(s), |s|) == 0 then 1 else Reject(conv, DecodeHead(s), |s|)
  {
    assert Word32(s, 0) == Decode32(s[0..4]) && Word32(s, 20) == Decode32(s[20..24]);
  }

  // ---------- datagrams ----------

  function Size(ms: seq<Msg>): nat {
    if ms == [] then 0 else MsgSize(ms[0]) + Size(ms[1..])
  }

  function Flat(packets: seq<seq<Msg>>): seq<Msg> {
    if packets == [] then [] else packets[0] + Flat(packets[1..])
  }

  /** The datagrams made of a buffer already holding cur and the messages ms written after it. */
  function Pack(mtu: nat, cur: seq<Msg>, ms: seq<Msg>): seq<seq<Msg>>
    decreases |ms|
  {
    if ms == [] then Flushed(cur)
    else if Size(cur) + MsgSize(ms[0]) > mtu then Flushed(cur) + Pack(mtu, [ms[0]], ms[1..])
    else Pack(mtu, cur + [ms[0]], ms[1..])
  }

  /** The output hook is not called for an empty buffer. */
  function Flushed(cur: seq<Msg>): seq<seq<Msg>> {
    if cur == [] then [] else [cur]
  }

  lemma {:induction false} FlatConcat(p: seq<seq<Msg>>, q: seq<seq<Msg>>)
    ensures Flat(p + q) == Flat(p) + Flat(q)
  {
    if p == [] {
      assert p + q == q;
    } else {
      FlatConcat(p[1..], q);
      SplitConcat(p, q);
      Assoc(p[0], Flat(p[1..]), Flat(q));
    }
  }

  lemma {:induction false} SizeConcat(p: seq<Msg>, q: seq<Msg>)
    ensures Size(p + q) == Size(p) + Size(q)
  {
    if p == [] {
      assert p + q == q;
    } else {
      SizeConcat(p[1..], q);
      assert (p + q)[0] == p[0] && (p + q)[1..] == p[1..] + q;
    }
  }

  lemma {:induction false} EncodeConcat(p: seq<Msg>, q: seq<Msg>)
    requires Encodable(p) && Encodable(q)
    ensures EncodeAll(p + q) == EncodeAll(p) + EncodeAll(q)
  {
    if p == [] {
      assert p + q == q;
    } else {
      assert (p + q)[0] == p[0] && (p + q)[1..] == p[1..] + q;
      EncodeConcat(p[1..], q);
    }
  }

  lemma {:induction false} EncodeSize(ms: seq<Msg>)
    requires Encodable(ms)
    ensures |EncodeAll(ms)| == Size(ms)
  {
    if ms != [] {
      EncodeSize(ms[1..]);
    }
  }

  predicate Fits(mtu: nat, packet: seq<Msg>) {
    packet != [] && Size(packet) <= mtu
  }

  /** Packing loses nothing, keeps the order, and makes only non-empty datagrams of at most mtu bytes. */
  lemma {:induction false} PackCorrect(mtu: nat, cur: seq<Msg>, ms: seq<Msg>)
    requires Size(cur) <= mtu
    requires forall m :: m in ms ==> MsgSize(m) <= mtu
    ensures Flat(Pack(mtu, cur, ms)) == cur + ms
    ensures forall p :: p in Pack(mtu, cur, ms) ==> Fits(mtu, p)
    decreases |ms|
  {
    if ms == [] {
      assert cur + ms == cur;
      if cur != [] {
        assert Flat([cur]) == cur + Flat([]);
      }
    } else {
      var m, rest := ms[0], ms[1..];
      SizeConcat(cur, [m]);
      assert ms == [m] + rest;
      if Size(cur) + MsgSize(m) > mtu {
        PackCorrect(mtu, [m], rest);
        FlatConcat(Flushed(cur), Pack(mtu, [m], rest));
        if cur != [] {
          assert Flat([cur]) == cur + Flat([]);
        }
        assert cur + ms == cur + ([m] + rest);
      } else {
        PackCorrect(mtu, cur + [m], rest);
        assert cur + ms == cur + [m] + rest;
      }
    }
  }

  /** No datagram could have taken the first message of the next one as well. */
  lemma {:induction false} PackGreedy(mtu: nat, cur: seq<Msg>, ms: seq<Msg>)
    requires cur == [] ==> forall m :: m in ms ==> MsgSize(m) <= mtu
    ensures var ps := Pack(mtu, cur, ms);
      && (cur != [] ==> ps != [] && cur <= ps[0])
      && forall i :: 0 < i < |ps| ==> ps[i] != [] && Size(ps[i - 1]) + MsgSize(ps[i][0]) > mtu
    decreases |ms|
  {
    if ms != [] {
      var m, rest := ms[0], ms[1..];
      if Size(cur) + MsgSize(m) > mtu {
        PackGreedy(mtu, [m], rest);
        assert Pack(mtu, [m], rest)[0][0] == [m][0];
      } else {
        PackGreedy(mtu, cur + [m], rest);
        assert cur <= cur + [m];
      }
    }
  }

  // ---------- the output buffer, one write at a time ----------

  /** The datagrams put out so far and the messages in the buffer. */
  datatype Framer = Framer(done: seq<seq<Msg>>, cur: seq<Msg>)

  function Put(mtu: nat, f: Framer, m: Msg): Framer {
    if Size(f.cur) + MsgSize(m) > mtu then Framer(f.done + Flushed(f.cur), [m])
    else Framer(f.done, f.cur + [m])
  }

  function PutAll(mtu: nat, ms: seq<Msg>): Framer {
    if ms == [] then Framer([], [])
    else Put(mtu, PutAll(mtu, ms[..|ms| - 1]), ms[|ms| - 1])
  }

  lemma PutOneMore(mtu: nat, ms: seq<Msg>, m: Msg)
    ensures PutAll(mtu, ms + [m]) == Put(mtu, PutAll(mtu, ms), m)
  {
  }

  lemma {:induction false} PutAllPack(mtu: nat, ms: seq<Msg>, rest: seq<Msg>)
    ensures var f := PutAll(mtu, ms); f.done + Pack(mtu, f.cur, rest) == Pack(mtu, [], ms + rest)
    decreases |ms|
  {
    if ms == [] {
      assert ms + rest == rest;
    } else {
      var init, m := ms[..|ms| - 1], ms[|ms| - 1];
      var f := PutAll(mtu, init);
      PutAllPack(mtu, init, [m] + rest);
      assert init + ([m] + rest) == ms + rest;
      assert ([m] + rest)[1..] == rest;
    }
  }

  /** Writing message by message and putting out the remainder makes exactly the packed datagrams. */
  lemma PutAllCorrect(mtu: nat, ms: seq<Msg>)
    ensures var f := PutAll(mtu, ms); f.done + Flushed(f.cur) == Pack(mtu, [], ms)
  {
    PutAllPack(mtu, ms, []);
    assert ms + [] == ms;
  }

  predicate AllEncodable(ps: seq<seq<Msg>>) {
    forall i :: 0 <= i < |ps| ==> Encodable(ps[i])
  }

  function EncodeEach(ps: seq<seq<Msg>>): seq<seq<u8>>
    requires AllEncodable(ps)
  {
    seq(|ps|, i requires 0 <= i < |ps| => EncodeAll(ps[i]))
  }

  lemma {:induction false} PutAllEncodable(mtu: nat, ms: seq<Msg>)
    requires Encodable(ms)
    ensures AllEncodable(PutAll(mtu, ms).done) && Encodable(PutAll(mtu, ms).cur)
    decreases |ms|
  {
    if ms != [] {
      PutAllEncodable(mtu, ms[..|ms| - 1]);
    }
  }
}
