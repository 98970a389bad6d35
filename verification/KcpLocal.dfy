// What every operation keeps of one control block, whatever the peer or the
// network feeds it: the shape of snd_buf and rcv_buf under 32-bit comparison.
module KcpLocal {
  import opened Word
  import opened Wire
  import opened KcpSpec

  /** Strictly ascending sequence numbers, all less than bound ahead of base. */
  predicate Asc(buf: seq<Seg>, base: u32, bound: int) {
    && (forall i :: 0 <= i < |buf| ==> Off(buf[i].sn, base) < bound)
    && (forall i, j :: 0 <= i < j < |buf| ==> Off(buf[i].sn, base) < Off(buf[j].sn, base))
  }

  predicate AscR(buf: seq<RSeg>, base: u32, bound: int) {
    && (forall i :: 0 <= i < |buf| ==> Off(buf[i].sn, base) < bound)
    && (forall i, j :: 0 <= i < j < |buf| ==> Off(buf[i].sn, base) < Off(buf[j].sn, base))
  }

  predicate Has(buf: seq<Seg>, sn: u32) {
    exists s :: s in buf && s.sn == sn
  }

  predicate HasR(buf: seq<RSeg>, sn: u32) {
    exists s :: s in buf && s.sn == sn
  }

  predicate SndOk(snd: Snd, wnd: u32) {
    && Off(snd.nxt, snd.una) <= wnd
    && Asc(snd.buf, snd.una, Off(snd.nxt, snd.una))
    && snd.una == (if snd.buf == [] then snd.nxt else snd.buf[0].sn)
  }

  predicate Drained(rcv: Rcv, wnd: u32) {
    rcv.buf != [] && rcv.buf[0].sn == rcv.nxt ==> |rcv.queue| >= wnd
  }

  predicate RcvOk(rcv: Rcv, wnd: u32) {
    && AscR(rcv.buf, rcv.nxt, wnd)
    && |rcv.queue| <= wnd
    && Drained(rcv, wnd)
  }

  predicate LocalInv(cfg: Cfg, k: Pcb) {
    SndOk(k.snd, cfg.sndWnd) && RcvOk(k.rcv, cfg.rcvWnd)
  }

  // ---------- the sender's buffer ----------

  lemma {:induction false} ParseUnaAhead(buf: seq<Seg>, base: u32, bound: int, una: u32)
    requires Asc(buf, base, bound) && bound <= TWO31
    requires TimeDiff(una, base) > 0
    ensures var r := ParseUna(buf, una);
      && |r| <= |buf| && r == buf[|buf| - |r|..]
      && forall i :: 0 <= i < |buf| ==> (i < |buf| - |r| <==> Off(buf[i].sn, base) < TimeDiff(una, base))
  {
    if buf != [] {
      Ahead(una, base);
      DiffOff(una, buf[0].sn, base);
      hide Off, TimeDiff;
      if TimeDiff(una, buf[0].sn) > 0 {
        ParseUnaAhead(buf[1..], base, bound, una);
      }
    }
  }

  lemma Ahead(a: u32, base: u32)
    requires TimeDiff(a, base) > 0
    ensures TimeDiff(a, base) == Off(a, base) < TWO31 && Off(base, base) == 0
  {
  }

  /** A cumulative acknowledgement removes exactly the segments numbered before it. */
  lemma ParseUnaCorrect(snd: Snd, wnd: u32, una: u32)
    requires SndOk(snd, wnd) && wnd < TWO31
    ensures var r := ParseUna(snd.buf, una);
      && |r| <= |snd.buf| && r == snd.buf[|snd.buf| - |r|..]
      && forall i :: 0 <= i < |snd.buf| ==>
           (i < |snd.buf| - |r| <==> Off(snd.buf[i].sn, snd.una) < TimeDiff(una, snd.una))
  {
    if TimeDiff(una, snd.una) > 0 {
      ParseUnaAhead(snd.buf, snd.una, Off(snd.nxt, snd.una), una);
    }
  }

  lemma AscFront(buf: seq<Seg>, r: seq<Seg>, base: u32, bound: int)
    requires Asc(buf, base, bound) && buf != [] && Asc(r, base, bound) && forall s :: s in r ==> s in buf[1..]
    ensures Asc([buf[0]] + r, base, bound)
  {
    hide Off;
    assert forall i :: 0 <= i < |r| ==> r[i] in buf[1..];
  }

  /** A selective acknowledgement removes exactly the segment it names. */
  lemma {:induction false} WithoutCorrect(buf: seq<Seg>, base: u32, bound: int, sn: u32)
    requires Asc(buf, base, bound) && bound <= TWO31 && Off(sn, base) < bound
    ensures Asc(Without(buf, sn), base, bound)
    ensures forall s :: s in Without(buf, sn) <==> s in buf && s.sn != sn
  {
    if buf != [] {
      var tail := buf[1..];
      assert buf == [buf[0]] + tail;
      if buf[0].sn == sn {
        assert forall s :: s in tail ==> s.sn != sn;
      } else if TimeDiff(sn, buf[0].sn) < 0 {
        assert forall s :: s in buf ==> s.sn != sn;
      } else {
        WithoutCorrect(tail, base, bound, sn);
        AscFront(buf, Without(tail, sn), base, bound);
      }
    }
  }

  /** Setting snd_una to the first segment still waiting keeps the order and the end of the window. */
  lemma ShrinkCorrect(snd: Snd, wnd: int)
    requires Off(snd.nxt, snd.una) <= wnd < TWO31
    requires Asc(snd.buf, snd.una, Off(snd.nxt, snd.una))
    ensures SndOk(Shrink(snd), wnd)
    ensures Off(Shrink(snd).una, snd.una) + Off(snd.nxt, Shrink(snd).una) == Off(snd.nxt, snd.una)
  {
  }

  /** Whether a cumulative acknowledgement una covers the number sn. */
  predicate Covers(snd: Snd, una: u32, sn: u32) {
    Off(sn, snd.una) < TimeDiff(una, snd.una)
  }

  lemma UnaStep(snd: Snd, wnd: u32, una: u32)
    requires SndOk(snd, wnd) && wnd < TWO31
    ensures var s := Shrink(snd.(buf := ParseUna(snd.buf, una)));
      && SndOk(s, wnd)
      && Off(s.una, snd.una) + Off(s.nxt, s.una) == Off(snd.nxt, snd.una)
      && (forall g :: g in s.buf <==> g in snd.buf && !Covers(snd, una, g.sn))
  {
    var b := ParseUna(snd.buf, una);
    var d := |snd.buf| - |b|;
    assert forall i :: 0 <= i < |snd.buf| ==> (d <= i <==> !Covers(snd, una, snd.buf[i].sn)) by {
      ParseUnaCorrect(snd, wnd, una);
    }
    assert b == snd.buf[d..] by {
      ParseUnaCorrect(snd, wnd, una);
    }
    hide Covers, ParseUna, Off;
    assert forall i :: 0 <= i < |b| ==> b[i] == snd.buf[i + d];
    ShrinkCorrect(snd.(buf := b), wnd);
    forall g
      ensures g in b <==> g in snd.buf && !Covers(snd, una, g.sn)
    {
      if g in b {
        var i :| 0 <= i < |b| && b[i] == g;
        assert snd.buf[i + d] == g;
      }
    }
  }

  lemma AckStep(snd: Snd, wnd: u32, sn: u32)
    requires SndOk(snd, wnd) && wnd < TWO31
    ensures var s := Shrink(ParseAck(snd, sn));
      && SndOk(s, wnd)
      && Off(s.una, snd.una) + Off(s.nxt, s.una) == Off(snd.nxt, snd.una)
      && (forall g :: g in s.buf <==> g in snd.buf && g.sn != sn)
  {
    if Outstanding(snd, sn) {
      WithoutCorrect(snd.buf, snd.una, Off(snd.nxt, snd.una), sn);
    } else {
      assert forall i :: 0 <= i < |snd.buf| ==> snd.buf[i].sn != sn;
    }
    ShrinkCorrect(ParseAck(snd, sn), wnd);
  }

  /** Whether message m acknowledges sequence number sn of the sender snd. */
  predicate Acks(snd: Snd, m: Msg, sn: u32) {
    Covers(snd, m.una, sn) || (m.cmd == CMD_ACK && m.sn == sn)
  }

  /** A message frees exactly the segments it acknowledges, and snd_una only moves forward within the window. */
  lemma InputSndCorrect(snd: Snd, wnd: u32, m: Msg)
    requires SndOk(snd, wnd) && wnd < TWO31
    ensures var s := InputSnd(snd, m);
      && SndOk(s, wnd)
      && s.nxt == snd.nxt && s.queue == snd.queue
      && Off(s.una, snd.una) + Off(s.nxt, s.una) == Off(snd.nxt, snd.una)
      && (forall g :: g in s.buf <==> g in snd.buf && !Acks(snd, m, g.sn))
  {
    UnaStep(snd, wnd, m.una);
    var s1 := Shrink(snd.(buf := ParseUna(snd.buf, m.una)));
    hide Covers, ParseUna, Asc;
    if m.cmd == CMD_ACK {
      AckStep(s1, wnd, m.sn);
    }
  }

  /** Duplicate-ack counting changes nothing but the counters. */
  lemma {:induction false} BumpFastackSame(buf: seq<Seg>, sn: u32)
    ensures var r := BumpFastack(buf, sn);
      && |r| == |buf|
      && forall i :: 0 <= i < |buf| ==> r[i] == buf[i].(fastack := r[i].fastack)
  {
    if buf != [] && TimeDiff(sn, buf[0].sn) >= 0 {
      BumpFastackSame(buf[1..], sn);
    }
  }

  /** Only segments before the newest acknowledged one are counted as skipped, each once. */
  lemma {:induction false} BumpFastackCorrect(buf: seq<Seg>, base: u32, bound: int, sn: u32)
    requires Asc(buf, base, bound) && bound <= TWO31 && Off(sn, base) < bound
    ensures |BumpFastack(buf, sn)| == |buf|
    ensures forall i :: 0 <= i < |buf| ==>
      BumpFastack(buf, sn)[i].fastack ==
        if Off(buf[i].sn, base) < Off(sn, base) then Add(buf[i].fastack, 1) else buf[i].fastack
  {
    BumpFastackSame(buf, sn);
    if buf != [] && TimeDiff(sn, buf[0].sn) >= 0 {
      BumpFastackCorrect(buf[1..], base, bound, sn);
    }
  }

  /** s is snd after some of its queued fragments were numbered, the first next in line first. */
  predicate Filled(snd: Snd, s: Snd) {
    var b, c := |snd.buf|, |snd.queue| - |s.queue|;
    && s.una == snd.una
    && 0 <= c && s.queue == snd.queue[c..]
    && |s.buf| == b + c && s.buf[..b] == snd.buf
    && Off(s.nxt, s.una) == Off(snd.nxt, snd.una) + c
    && forall i :: b <= i < b + c ==>
         && s.buf[i].frag == snd.queue[i - b]
         && Off(s.buf[i].sn, snd.una) == Off(snd.nxt, snd.una) + (i - b)
         && s.buf[i].xmit == 0
  }

  lemma FilledTransitive(snd: Snd, s1: Snd, s: Snd)
    requires Filled(snd, s1) && Filled(s1, s)
    ensures Filled(snd, s)
  {
  }

  lemma FilledOne(snd: Snd, wnd: u32, w: u32, current: u32, una: u32, rto: u32)
    requires SndOk(snd, wnd) && wnd < TWO31 && Off(snd.nxt, snd.una) < wnd && snd.queue != []
    ensures var s := FillOne(snd, w, current, una, rto); SndOk(s, wnd) && Filled(snd, s)
  {
  }

  /** Numbering queued fragments fills the window and never goes past it. */
  lemma {:induction false} FillWindowCorrect(snd: Snd, cwnd: u32, sndWnd: u32, wnd: u32, current: u32, una: u32,
                                             rto: u32)
    requires SndOk(snd, sndWnd) && cwnd <= sndWnd < TWO31
    ensures var s := FillWindow(snd, cwnd, wnd, current, una, rto);
      && SndOk(s, sndWnd) && Filled(snd, s)
      && (|s.queue| < |snd.queue| ==> Off(s.nxt, s.una) <= cwnd)
      && (s.queue == [] || Off(s.nxt, s.una) >= cwnd)
    decreases |snd.queue|
  {
    assert TimeDiff(snd.nxt, Add(snd.una, cwnd)) < 0 <==> Off(snd.nxt, snd.una) < cwnd;
    if TimeDiff(snd.nxt, Add(snd.una, cwnd)) < 0 && snd.queue != [] {
      var s1 := FillOne(snd, wnd, current, una, rto);
      FilledOne(snd, sndWnd, wnd, current, una, rto);
      hide Filled, FillOne, SndOk, Off, Add;
      FillWindowCorrect(s1, cwnd, sndWnd, wnd, current, una, rto);
      FilledTransitive(snd, s1, FillWindow(s1, cwnd, wnd, current, una, rto));
    }
  }

  // ---------- the receiver's buffer ----------

  lemma SplitLast(buf: seq<RSeg>, base: u32, bound: int)
    requires AscR(buf, base, bound) && buf != []
    ensures var init, last := buf[..|buf| - 1], buf[|buf| - 1];
      && AscR(init, base, Off(last.sn, base)) && Off(last.sn, base) < bound
      && buf == init + [last]
  {
  }

  lemma JoinLast(init: seq<RSeg>, last: RSeg, base: u32, bound: int)
    requires AscR(init, base, Off(last.sn, base)) && Off(last.sn, base) < bound
    ensures AscR(init + [last], base, bound)
  {
  }

  lemma NotIn(buf: seq<RSeg>, sn: u32, base: u32)
    requires AscR(buf, base, Off(sn, base))
    ensures !HasR(buf, sn)
  {
  }

  /** Insertion keeps the order and adds the segment unless its number is already there. */
  lemma {:induction false} InsertCorrect(buf: seq<RSeg>, seg: RSeg, base: u32, bound: int)
    requires AscR(buf, base, bound) && bound <= TWO31 && Off(seg.sn, base) < bound
    ensures AscR(Insert(buf, seg), base, bound)
    ensures forall s :: s in Insert(buf, seg) <==> s in buf || (s == seg && !HasR(buf, seg.sn))
  {
    if buf == [] {
    } else {
      var init, last := buf[..|buf| - 1], buf[|buf| - 1];
      SplitLast(buf, base, bound);
      DiffOff(seg.sn, last.sn, base);
      hide AscR, Off, TimeDiff;
      if last.sn == seg.sn {
        assert last in buf;
      } else if TimeDiff(seg.sn, last.sn) > 0 {
        JoinLast(init, last, base, Off(seg.sn, base));
        NotIn(buf, seg.sn, base);
        JoinLast(buf, seg, base, bound);
      } else {
        InsertCorrect(init, seg, base, Off(last.sn, base));
        JoinLast(Insert(init, seg), last, base, bound);
        assert HasR(buf, seg.sn) <==> HasR(init, seg.sn);
      }
    }
  }

  function FragsOf(buf: seq<RSeg>): seq<Frag> {
    seq(|buf|, i requires 0 <= i < |buf| => buf[i].frag)
  }

  lemma DrainOne(rcv: Rcv, wnd: u32)
    requires AscR(rcv.buf, rcv.nxt, wnd) && wnd < TWO31
    requires rcv.buf != [] && rcv.buf[0].sn == rcv.nxt
    ensures AscR(rcv.buf[1..], Add(rcv.nxt, 1), wnd)
    ensures forall i :: 0 < i < |rcv.buf| ==> Off(rcv.buf[i].sn, Add(rcv.nxt, 1)) == Off(rcv.buf[i].sn, rcv.nxt) - 1
    ensures Off(rcv.buf[0].sn, rcv.nxt) == 0
  {
    forall i | 0 < i < |rcv.buf|
      ensures Off(rcv.buf[i].sn, Add(rcv.nxt, 1)) == Off(rcv.buf[i].sn, rcv.nxt) - 1
    {
      assert Off(rcv.buf[0].sn, rcv.nxt) < Off(rcv.buf[i].sn, rcv.nxt);
      OffRebase(rcv.buf[i].sn, rcv.nxt, 1);
    }
  }

  /** r is rcv after a run of consecutive segments, starting with the next expected one, moved to the queue. */
  predicate Moved(rcv: Rcv, r: Rcv) {
    var c := |rcv.buf| - |r.buf|;
    && r.acks == rcv.acks
    && 0 <= c && r.buf == rcv.buf[c..]
    && Off(r.nxt, rcv.nxt) == c
    && r.queue == rcv.queue + FragsOf(rcv.buf[..c])
    && forall i :: 0 <= i < c ==> Off(rcv.buf[i].sn, rcv.nxt) == i
  }

  lemma MovedOne(rcv: Rcv, r1: Rcv, r: Rcv, wnd: u32)
    requires AscR(rcv.buf, rcv.nxt, wnd) && |r.queue| <= wnd < TWO31
    requires rcv.buf != [] && rcv.buf[0].sn == rcv.nxt
    requires r1 == Rcv(Add(rcv.nxt, 1), rcv.queue + [rcv.buf[0].frag], rcv.buf[1..], rcv.acks)
    requires Moved(r1, r)
    ensures Moved(rcv, r)
  {
    var c := |rcv.buf| - |r.buf|;
    DrainOne(rcv, wnd);
    OffNext(r.nxt, rcv.nxt);
    assert FragsOf(rcv.buf[..c]) == [rcv.buf[0].frag] + FragsOf(r1.buf[..c - 1]);
    forall i | 0 <= i < c
      ensures Off(rcv.buf[i].sn, rcv.nxt) == i
    {
      if i > 0 {
        assert Off(r1.buf[i - 1].sn, r1.nxt) == i - 1;
      }
    }
  }

  lemma MovedNone(rcv: Rcv)
    ensures Moved(rcv, rcv)
  {
  }

  /** Draining stops only at a gap or a full queue. */
  lemma {:induction false} DrainCorrect(rcv: Rcv, wnd: u32)
    requires AscR(rcv.buf, rcv.nxt, wnd) && |rcv.queue| <= wnd < TWO31
    ensures RcvOk(Drain(rcv, wnd), wnd) && Moved(rcv, Drain(rcv, wnd))
    decreases |rcv.buf|
  {
    hide Moved, AscR, Off, Add;
    if rcv.buf != [] && rcv.buf[0].sn == rcv.nxt && |rcv.queue| < wnd {
      var r1 := Rcv(Add(rcv.nxt, 1), rcv.queue + [rcv.buf[0].frag], rcv.buf[1..], rcv.acks);
      DrainOne(rcv, wnd);
      DrainCorrect(r1, wnd);
      MovedOne(rcv, r1, Drain(r1, wnd), wnd);
    } else {
      MovedNone(rcv);
    }
  }

  /** The numbers a receiver takes in: from the next expected one to the end of its window. */
  predicate InWindow(rcv: Rcv, sn: u32, wnd: u32) {
    Off(sn, rcv.nxt) < wnd
  }

  lemma ParsePushCorrect(rcv: Rcv, m: Msg, wnd: u32)
    requires RcvOk(rcv, wnd) && wnd < TWO31
    ensures RcvOk(ParsePush(rcv, m, wnd), wnd)
    ensures ParsePush(rcv, m, wnd).acks ==
      if TimeDiff(m.sn, Add(rcv.nxt, wnd)) >= 0 then rcv.acks else rcv.acks + [Ack(m.sn, m.ts)]
    ensures InWindow(rcv, m.sn, wnd) ==>
      ParsePush(rcv, m, wnd) ==
        Drain(Rcv(rcv.nxt, rcv.queue, Insert(rcv.buf, RSeg(m.sn, m.frag)), rcv.acks + [Ack(m.sn, m.ts)]), wnd)
    ensures !InWindow(rcv, m.sn, wnd) ==>
      ParsePush(rcv, m, wnd) == rcv.(acks := ParsePush(rcv, m, wnd).acks)
  {
    if InWindow(rcv, m.sn, wnd) {
      InsertCorrect(rcv.buf, RSeg(m.sn, m.frag), rcv.nxt, wnd);
      var r := Rcv(rcv.nxt, rcv.queue, Insert(rcv.buf, RSeg(m.sn, m.frag)), rcv.acks + [Ack(m.sn, m.ts)]);
      DrainCorrect(r, wnd);
    }
  }

  // ---------- every operation keeps the invariant ----------

  lemma CreateOk(cfg: Cfg)
    requires cfg.Ok()
    ensures LocalInv(cfg, Create())
  {
  }

  lemma InputMsgOk(cfg: Cfg, k: Pcb, m: Msg)
    requires cfg.Ok() && LocalInv(cfg, k)
    ensures LocalInv(cfg, InputMsg(cfg, k, m))
  {
    InputSndCorrect(k.snd, cfg.sndWnd, m);
    if m.cmd == CMD_PUSH {
      ParsePushCorrect(k.rcv, m, cfg.rcvWnd);
    }
  }

  lemma {:induction false} InputMsgsOk(cfg: Cfg, k: Pcb, ms: seq<Msg>)
    requires cfg.Ok() && LocalInv(cfg, k)
    ensures LocalInv(cfg, InputMsgs(cfg, k, ms))
    decreases |ms|
  {
    if ms != [] {
      InputMsgOk(cfg, k, ms[0]);
      InputMsgsOk(cfg, InputMsg(cfg, k, ms[0]), ms[1..]);
    }
  }

  /** The order depends on the numbers alone. */
  lemma SameOrder(snd: Snd, b: seq<Seg>, wnd: u32)
    requires SndOk(snd, wnd)
    requires |b| == |snd.buf| && forall i :: 0 <= i < |b| ==> b[i].sn == snd.buf[i].sn
    ensures SndOk(snd.(buf := b), wnd)
  {
  }

  lemma ParseFastackOk(snd: Snd, wnd: u32, sn: u32)
    requires SndOk(snd, wnd)
    ensures SndOk(ParseFastack(snd, sn), wnd)
  {
    hide Off, SndOk;
    BumpFastackSame(snd.buf, sn);
    SameOrder(snd, BumpFastack(snd.buf, sn), wnd);
  }

  /** Any byte string at all, well-formed or not, leaves a well-formed endpoint. */
  lemma AnyBytesKeepInvariant(cfg: Cfg, k: Pcb, bytes: seq<u8>)
    requires cfg.Ok() && LocalInv(cfg, k)
    ensures LocalInv(cfg, Input(cfg, k, bytes).k)
  {
    hide Parse;
    if |bytes| >= OVERHEAD {
      var p := Parse(cfg.conv, bytes);
      InputMsgsOk(cfg, k, p.ms);
      var k1 := InputMsgs(cfg, k, p.ms);
      var a := LatestAck(NoAck, p.ms);
      if a.MaxAck? {
        ParseFastackOk(k1.snd, cfg.sndWnd, a.sn);
      }
    }
  }

  lemma RecvOk(cfg: Cfg, k: Pcb, len: int)
    requires cfg.Ok() && LocalInv(cfg, k)
    ensures LocalInv(cfg, Recv(cfg, k, len).k)
  {
    hide Drain, PeekSize, Bytes, FirstMessage, AscR, Asc, Moved;
    var n := FirstMessage(k.rcv.queue);
    DrainCorrect(k.rcv, cfg.rcvWnd);
    DrainCorrect(k.rcv.(queue := k.rcv.queue[n..]), cfg.rcvWnd);
  }

  lemma FlushOk(cfg: Cfg, k: Pcb)
    requires cfg.Ok() && LocalInv(cfg, k)
    ensures LocalInv(cfg, Flush(cfg, k))
  {
    hide FillWindow, Filled, SndOk, AscR, AfterFlush, PushMsgs;
    if k.updated {
      var s := FilledSnd(cfg, k);
      FillWindowCorrect(k.snd, SendWindow(cfg, k.cong), cfg.sndWnd, WndUnused(cfg, k.rcv), k.current, k.rcv.nxt,
                        k.rtt.rto);
      SameOrder(s, ResendBuf(RoundOf(cfg, k), s.buf), cfg.sndWnd);
    }
  }

  lemma UpdateOk(cfg: Cfg, k: Pcb, current: u32)
    requires cfg.Ok() && LocalInv(cfg, k)
    ensures LocalInv(cfg, Update(cfg, k, current))
  {
    FlushOk(cfg, Tick(cfg, k, current));
  }

  /** The receiver stores at most twice its window: a full queue and a full reorder buffer. */
  lemma {:induction false} StoredBound(buf: seq<RSeg>, base: u32, bound: int)
    requires AscR(buf, base, bound)
    ensures |buf| <= Max(bound, 0)
  {
    if buf != [] {
      var last := buf[|buf| - 1];
      StoredBound(buf[..|buf| - 1], base, Off(last.sn, base));
    }
  }
}
