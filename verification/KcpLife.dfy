// The life of one segment of an endpoint in any environment: when it is sent again, in terms of the calls made.
module KcpLife {
  import opened Word
  import opened Wire
  import opened KcpSpec
  import opened KcpLocal
  import opened KcpLink
  import opened KcpAlone
  import opened KcpProbe
  import opened KcpResend

  /** The control block that a call flushes, its clock set. */
  function Clock(cfg: Cfg, k: Pcb, c: Call): Pcb {
    if c.Updating? then Tick(cfg, k, c.now) else k
  }

  /** A call sends the segment numbered x. */
  predicate Sends(cfg: Cfg, k: Pcb, c: Call, x: u32)
    requires cfg.Ok()
  {
    Has81(CallMsgs(cfg, k, c), x)
  }

  predicate Has81(ms: seq<Msg>, x: u32) {
    exists m :: m in ms && m.cmd == 81 && m.sn == x
  }

  lemma SameSeg(snd: Snd, wnd: u32, s: Seg, t: Seg)
    requires SndOk(snd, wnd) && s in snd.buf && t in snd.buf && s.sn == t.sn
    ensures s == t
  {
    var i :| 0 <= i < |snd.buf| && snd.buf[i] == s;
    var j :| 0 <= j < |snd.buf| && snd.buf[j] == t;
  }

  /** A flush sends a segment exactly if it is to be sent now. */
  lemma FlushSendsSeg(cfg: Cfg, k: Pcb, s: Seg)
    requires cfg.Ok() && k.updated && SndOk(k.snd, cfg.sndWnd) && SndOk(Flush(cfg, k).snd, cfg.sndWnd)
    requires s in k.snd.buf
    ensures Has81(FlushMsgs(cfg, k), s.sn) <==> SendsNow(cfg, k, s)
  {
    hide SndOk, Flush, FlushMsgs, SendsNow, InOrder;
    var n := FlushMessages(cfg, k);
    FlushSegments(cfg, k);
    var f, ms := Flush(cfg, k).snd, FlushMsgs(cfg, k);
    var i :| 0 <= i < |k.snd.buf| && k.snd.buf[i] == s;
    assert f.buf[i].sn == s.sn;
    if Has81(ms, s.sn) {
      var m :| m in ms && m.cmd == 81 && m.sn == s.sn;
      assert CarriesSome(cfg, k, f.buf, m);
      var j :| 0 <= j < |f.buf| && SentAt(cfg, k, j) && Carries(cfg, k, f.buf[j], m);
      SameIndex(f, cfg.sndWnd, i, j);
    }
    if SendsNow(cfg, k, s) {
      assert SentAt(cfg, k, i);
      assert HasMsg(ms, cfg, k, f.buf[i]);
    }
  }

  lemma SameIndex(f: Snd, wnd: u32, i: nat, j: nat)
    requires SndOk(f, wnd) && i < |f.buf| && j < |f.buf| && f.buf[i].sn == f.buf[j].sn
    ensures i == j
  {
  }

  lemma FlushSendsCall(cfg: Cfg, k: Pcb, c: Call, s: Seg)
    requires cfg.Ok() && LocalInv(cfg, k) && Flushes(k, c) && s in k.snd.buf
    ensures Sends(cfg, k, c, s.sn) <==> SendsNow(cfg, Clock(cfg, k, c), s)
  {
    ClockFlushes(cfg, k, c);
    hide SndOk, RcvOk, Flush, FlushMsgs, Flushes, Do, Clock, CallMsgs, SendsNow;
    FlushSnds(cfg, Clock(cfg, k, c));
    FlushSendsSeg(cfg, Clock(cfg, k, c), s);
  }

  /** What a call makes of a segment that it leaves outstanding. */
  lemma CallSegment(cfg: Cfg, k: Pcb, c: Call, s: Seg, g: Seg)
    requires cfg.Ok() && LocalInv(cfg, k) && s in k.snd.buf && g in Do(cfg, k, c).snd.buf && s.sn == g.sn
    requires c.Arriving? ==> AcksUsed(Parse(cfg.conv, c.bytes).ms, k.snd.nxt)
    ensures Flushes(k, c) ==> Follows(cfg, Clock(cfg, k, c), s, g)
    ensures Flushes(k, c) ==> (Sends(cfg, k, c, s.sn) <==> SendsNow(cfg, Clock(cfg, k, c), s))
    ensures !Flushes(k, c) ==> g == s.(fastack := if Skipping(cfg, k, c, s.sn) then Add(s.fastack, 1) else s.fastack)
  {
    hide SndOk, RcvOk, Flush, FlushMsgs, Input, KcpSpec.Recv, SendQueue, Follows, SendsNow, Parse, AcksUsed, Passes,
      Tick, FlushDue;
    if Flushes(k, c) {
      var k1 := Clock(cfg, k, c);
      assert k1.snd == k.snd && k1.updated && Do(cfg, k, c) == Flush(cfg, k1) by {
        ClockFlushes(cfg, k, c);
      }
      FlushSnds(cfg, k1);
      FlushSendsCall(cfg, k, c, s);
      FlushSegments(cfg, k1);
      var f := Flush(cfg, k1).snd;
      var i :| 0 <= i < |k.snd.buf| && k.snd.buf[i] == s;
      FollowsNumber(cfg, k1, s, f.buf[i]);
      assert f.buf[i] in f.buf;
      SameSeg(f, cfg.sndWnd, f.buf[i], g);
    } else if c.Arriving? {
      SkippedOnce(cfg, k, c.bytes, g);
      var s1 :| s1 in k.snd.buf && g == s1.(fastack := g.fastack)
        && g.fastack == if Input(cfg, k, c.bytes).code == 0 && Passes(Parse(cfg.conv, c.bytes).ms, s1.sn)
                        then Add(s1.fastack, 1) else s1.fastack;
      SameSeg(k.snd, cfg.sndWnd, s, s1);
    } else {
      QuietSegs(cfg, k, c);
      SameSeg(k.snd, cfg.sndWnd, s, g);
    }
  }

  /** A datagram that is read to its end and acknowledges a number after x. */
  predicate Skipping(cfg: Cfg, k: Pcb, c: Call, x: u32)
    requires cfg.Ok()
  {
    c.Arriving? && Input(cfg, k, c.bytes).code == 0 && Passes(Parse(cfg.conv, c.bytes).ms, x)
  }

  lemma ClockFlushes(cfg: Cfg, k: Pcb, c: Call)
    requires cfg.Ok() && Flushes(k, c)
    ensures var k1 := Clock(cfg, k, c);
      && k1.snd == k.snd && k1.updated && k1.rcv == k.rcv && k1.rtt == k.rtt && k1.cong == k.cong
      && Do(cfg, k, c) == Flush(cfg, k1) && CallMsgs(cfg, k, c) == FlushMsgs(cfg, k1)
  {
    hide Flush, FlushMsgs;
  }

  lemma FlushSnds(cfg: Cfg, k: Pcb)
    requires cfg.Ok() && SndOk(k.snd, cfg.sndWnd) && k.updated
    ensures SndOk(Flush(cfg, k).snd, cfg.sndWnd)
  {
    FilledExtends(cfg, k);
    hide FilledSnd, SndOk, AfterFlush, Extends;
    SameOrder(FilledSnd(cfg, k), ResendBuf(RoundOf(cfg, k), FilledSnd(cfg, k).buf), cfg.sndWnd);
  }

  lemma QuietSegs(cfg: Cfg, k: Pcb, c: Call)
    requires cfg.Ok() && !Flushes(k, c) && !c.Arriving?
    ensures Do(cfg, k, c).snd.buf == k.snd.buf
  {
    hide SendQueue, PeekSize, FirstMessage, Drain, Bytes;
  }

  // ---------- over calls ----------

  /** The segment numbered x is outstanding. */
  predicate Waits(k: Pcb, x: u32) {
    exists s :: s in k.snd.buf && s.sn == x
  }

  /** Calls from a up to b that count x as skipped. */
  function SkipCount(cfg: Cfg, calls: seq<Call>, a: nat, b: nat, x: u32): nat
    requires cfg.Ok() && b <= |calls|
    decreases b
  {
    if a >= b then 0
    else SkipCount(cfg, calls, a, b - 1, x) + if Skipping(cfg, Before(cfg, calls, b - 1), calls[b - 1], x) then 1 else 0
  }

  /** From before call a until call b the segment x is outstanding; what arrives acknowledges only numbers used. */
  predicate StaysOut(cfg: Cfg, calls: seq<Call>, a: nat, b: nat, x: u32)
    requires cfg.Ok() && b <= |calls|
  {
    && (forall m :: a <= m <= b ==> Waits(Before(cfg, calls, m), x))
    && forall m :: a <= m < b && calls[m].Arriving? ==>
         AcksUsed(Parse(cfg.conv, calls[m].bytes).ms, Before(cfg, calls, m).snd.nxt)
  }

  /** No call from a up to b sends x. */
  predicate Unsent(cfg: Cfg, calls: seq<Call>, a: nat, b: nat, x: u32)
    requires cfg.Ok() && b <= |calls|
  {
    forall m :: a <= m < b ==> !Sends(cfg, Before(cfg, calls, m), calls[m], x)
  }

  lemma BeforeOk(cfg: Cfg, calls: seq<Call>, i: nat)
    requires cfg.Ok() && i <= |calls|
    ensures LocalInv(cfg, Before(cfg, calls, i)) && 30 <= Before(cfg, calls, i).rtt.rto <= 60000
  {
    hide After, LocalInv;
    AnyCalls(cfg, calls[..i]);
  }

  /** While it is not sent a segment only counts how often it is skipped. */
  lemma {:induction false} OnlyCounts(cfg: Cfg, calls: seq<Call>, a: nat, b: nat, s: Seg, g: Seg)
    requires cfg.Ok() && a <= b <= |calls| && s.sn == g.sn
    requires StaysOut(cfg, calls, a, b, s.sn) && Unsent(cfg, calls, a, b, s.sn)
    requires s in Before(cfg, calls, a).snd.buf && g in Before(cfg, calls, b).snd.buf
    ensures g == s.(fastack := W(s.fastack + SkipCount(cfg, calls, a, b, s.sn)))
  {
    hide Do, Before, LocalInv, Sends, Skipping, Flushes, AcksUsed, Parse, W;
    BeforeOk(cfg, calls, b);
    if a == b {
      SameWaiting(cfg, Before(cfg, calls, a), s, g);
      WordOf(s.fastack);
    } else {
      var k := Before(cfg, calls, b - 1);
      assert Waits(k, s.sn);
      var h :| h in k.snd.buf && h.sn == s.sn;
      OnlyCounts(cfg, calls, a, b - 1, s, h);
      BeforeNext(cfg, calls, b - 1);
      BeforeOk(cfg, calls, b - 1);
      CallSegment(cfg, k, calls[b - 1], h, g);
      assert !Sends(cfg, k, calls[b - 1], s.sn);
      NotSentSame(cfg, k, calls[b - 1], h, g);
      WordNext(s.fastack + SkipCount(cfg, calls, a, b - 1, s.sn), 1);
    }
  }

  lemma WordOf(x: u32)
    ensures W(x) == x
  {
  }

  lemma SameWaiting(cfg: Cfg, k: Pcb, s: Seg, g: Seg)
    requires LocalInv(cfg, k) && s in k.snd.buf && g in k.snd.buf && s.sn == g.sn
    ensures s == g
  {
    SameSeg(k.snd, cfg.sndWnd, s, g);
  }

  lemma NotSentSame(cfg: Cfg, k: Pcb, c: Call, s: Seg, g: Seg)
    requires cfg.Ok()
    requires Flushes(k, c) ==> Follows(cfg, Clock(cfg, k, c), s, g) && !SendsNow(cfg, Clock(cfg, k, c), s)
    ensures Flushes(k, c) ==> g == s && !Skipping(cfg, k, c, s.sn)
  {
    hide Input, Tick, FlushDue, SendsNow, Room;
  }

  /** How long a segment just sent waits before it is sent again. */
  function Patience(cfg: Cfg, s: Seg): nat {
    s.rto + if s.xmit == 1 && cfg.nodelay == 0 then s.rto / 8 else 0
  }

  /** A segment that a flush has sent carries the time of that flush, and waits as long from then on. */
  lemma JustSent(cfg: Cfg, k: Pcb, c: Call, s: Seg)
    requires cfg.Ok() && LocalInv(cfg, k) && k.rtt.rto <= 60000 && Flushes(k, c)
    requires s in Do(cfg, k, c).snd.buf && Sends(cfg, k, c, s.sn)
    ensures var now := Clock(cfg, k, c).current;
      s.ts == now && (s.xmit > 0 ==> s.resendts == W(now + Patience(cfg, s)))
  {
    ClockFlushes(cfg, k, c);
    hide SndOk, RcvOk, Flush, FlushMsgs, Flushes, Do, W, Clock, CallMsgs;
    FlushTimes(cfg, Clock(cfg, k, c), s);
  }

  lemma FlushTimes(cfg: Cfg, k: Pcb, s: Seg)
    requires cfg.Ok() && SndOk(k.snd, cfg.sndWnd) && k.rtt.rto <= 60000 && k.updated
    requires s in Flush(cfg, k).snd.buf && Has81(FlushMsgs(cfg, k), s.sn)
    ensures s.ts == k.current && (s.xmit > 0 ==> s.resendts == W(k.current + Patience(cfg, s)))
  {
    hide SndOk, Flush, FlushMsgs, Follows, SendsNow, Numbered, W, Has81, Patience;
    var f, b := Flush(cfg, k).snd, |k.snd.buf|;
    FlushSegments(cfg, k);
    var i :| 0 <= i < |f.buf| && f.buf[i] == s;
    if i < b {
      var s0 := k.snd.buf[i];
      FlushSnds(cfg, k);
      FollowsNumber(cfg, k, s0, s);
      FlushSendsSeg(cfg, k, s0);
      FollowsTime(cfg, k, s0, s);
    } else {
      NumberedTime(cfg, k, k.snd.queue[i - b], s);
    }
  }

  lemma FollowsTime(cfg: Cfg, k: Pcb, s: Seg, g: Seg)
    requires Follows(cfg, k, s, g) && SendsNow(cfg, k, s) && k.rtt.rto <= 60000
    ensures g.ts == k.current && (g.xmit > 0 ==> g.resendts == W(k.current + Patience(cfg, g)))
  {
    WordOf(k.current);
    WordNext(k.current, g.rto);
    WordNext(k.current, Min(g.rto + g.rto / 8, 67500));
    hide W, TimeDiff, BacksOff, Room;
  }

  lemma NumberedTime(cfg: Cfg, k: Pcb, frag: Frag, g: Seg)
    requires Numbered(cfg, k, frag, g) && k.rtt.rto <= 60000
    ensures g.ts == k.current && g.resendts == W(k.current + Patience(cfg, g))
  {
    WordOf(k.current);
    WordNext(k.current, g.rto);
    WordNext(k.current, g.rto + g.rto / 8);
    hide W, Room;
  }

  /** The clock of a flush is the time of the call. */
  lemma ClockIs(cfg: Cfg, calls: seq<Call>, times: seq<int>, i: nat)
    requires cfg.Ok() && Clocked(calls, times) && i < |calls| && Flushes(Before(cfg, calls, i), calls[i])
    ensures Clock(cfg, Before(cfg, calls, i), calls[i]).current == W(times[i])
  {
    hide Before, W, FlushDue;
    var t, x, b := AlwaysScheduled(cfg, calls, times, i);
  }

  /**
   * A segment sent by the flush at call i, outstanding ever since and not sent in between, is sent again by the
   * flush at call j exactly if its patience has run out by then, or datagrams have skipped it often enough and it
   * has not been sent too often.
   */
  lemma SentAgain(cfg: Cfg, calls: seq<Call>, times: seq<int>, i: nat, j: nat, s: Seg)
    requires cfg.Ok() && Clocked(calls, times) && i < j < |calls|
    requires Flushes(Before(cfg, calls, i), calls[i]) && Flushes(Before(cfg, calls, j), calls[j])
    requires s in Before(cfg, calls, i + 1).snd.buf && Sends(cfg, Before(cfg, calls, i), calls[i], s.sn)
    requires StaysOut(cfg, calls, i + 1, j, s.sn) && Unsent(cfg, calls, i + 1, j, s.sn)
    requires times[j] - times[i] < TWO31 && Patience(cfg, s) < TWO31 && 0 < s.xmit < TWO31
    ensures Sends(cfg, Before(cfg, calls, j), calls[j], s.sn) <==>
      || times[j] >= times[i] + Patience(cfg, s)
      || (W(s.fastack + SkipCount(cfg, calls, i + 1, j, s.sn)) >= SkipLimit(cfg)
          && (cfg.fastlimit <= 0 || s.xmit <= cfg.fastlimit))
  {
    hide Before, Do, LocalInv, Sends, Flushes, Parse, W, SendsNow, Skipping, AcksUsed, Unsent;
    BeforeOk(cfg, calls, i);
    BeforeOk(cfg, calls, j);
    BeforeNext(cfg, calls, i);
    TimesGrow(calls, times, i, j);
    JustSent(cfg, Before(cfg, calls, i), calls[i], s);
    ClockIs(cfg, calls, times, i);
    ClockIs(cfg, calls, times, j);
    var k := Before(cfg, calls, j);
    assert Waits(k, s.sn);
    var g :| g in k.snd.buf && g.sn == s.sn;
    OnlyCounts(cfg, calls, i + 1, j, s, g);
    FlushSendsCall(cfg, k, calls[j], g);
    WordSum(times[i], Patience(cfg, s));
    SendsTime(cfg, Clock(cfg, k, calls[j]), g, times[i], times[j], s);
  }

  lemma WordSum(a: int, d: u32)
    ensures W(W(a) + d) == W(a + d)
  {
    WordNext(a, d);
    WordNext(W(a), d);
    WordOf(W(a));
    hide W;
  }

  lemma SendsTime(cfg: Cfg, k: Pcb, g: Seg, t: int, now: int, s: Seg)
    requires k.current == W(now) && s.resendts == W(t + Patience(cfg, s)) && g == s.(fastack := g.fastack)
    requires t <= now < t + TWO31 && Patience(cfg, s) < TWO31 && 0 < s.xmit < TWO31
    ensures SendsNow(cfg, k, g) <==>
      || now >= t + Patience(cfg, s)
      || (g.fastack >= SkipLimit(cfg) && (cfg.fastlimit <= 0 || s.xmit <= cfg.fastlimit))
  {
    WordDiff(now, t + Patience(cfg, s));
    hide W, Patience, Off;
  }

  lemma {:induction false} TimesGrow(calls: seq<Call>, times: seq<int>, i: nat, j: nat)
    requires Clocked(calls, times) && i <= j < |calls|
    ensures times[i] <= times[j]
  {
    if i < j {
      TimesGrow(calls, times, i, j - 1);
    }
  }
}
