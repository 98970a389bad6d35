// The congestion window: what it lets a flush number, how it collapses after a loss, and how it grows back.
module KcpWindow {
  import opened Word
  import opened Wire
  import opened KcpSpec
  import opened KcpLocal
  import opened KcpTiming
  import opened KcpAlone
  import opened KcpProbe
  import opened KcpResend
  import opened KcpLife

  // ---------- what a flush numbers ----------

  /** n segments are within all windows that bind: the own one, the peer's, and the congestion window if it is on. */
  predicate Within(cfg: Cfg, c: Cong, n: int) {
    n <= cfg.sndWnd && n <= c.rmtWnd && (!cfg.nocwnd ==> n <= c.cwnd)
  }

  /** They fill one of these. */
  predicate Fills(cfg: Cfg, c: Cong, n: int) {
    n >= cfg.sndWnd || n >= c.rmtWnd || (!cfg.nocwnd && n >= c.cwnd)
  }

  /** A flush numbers queued fragments in order while the segments in flight stay within all windows, and no longer. */
  lemma FlushNumbers(cfg: Cfg, k: Pcb)
    requires cfg.Ok() && k.updated && SndOk(k.snd, cfg.sndWnd)
    ensures var s, f := k.snd, KcpSpec.Flush(cfg, k).snd; var n := Off(f.nxt, f.una);
      && f.una == s.una && |f.queue| <= |s.queue| && f.queue == s.queue[|s.queue| - |f.queue|..]
      && n == Off(s.nxt, s.una) + |s.queue| - |f.queue|
      && (|f.queue| < |s.queue| ==> Within(cfg, k.cong, n))
      && (f.queue != [] ==> Fills(cfg, k.cong, n))
  {
    FillWindowCorrect(k.snd, SendWindow(cfg, k.cong), cfg.sndWnd, WndUnused(cfg, k.rcv), k.current, k.rcv.nxt,
                      k.rtt.rto);
    hide FillWindow, SndOk, Off, AfterFlush;
  }

  /** So does every call that flushes, whatever has been called before. */
  lemma CallNumbers(cfg: Cfg, calls: seq<Call>, i: nat)
    requires cfg.Ok() && i < |calls| && Flushes(Before(cfg, calls, i), calls[i])
    ensures var k, f := Before(cfg, calls, i), Before(cfg, calls, i + 1).snd; var n := Off(f.nxt, f.una);
      && f.una == k.snd.una
      && (|f.queue| < |k.snd.queue| ==> Within(cfg, k.cong, n))
      && (f.queue != [] ==> Fills(cfg, k.cong, n))
  {
    hide Before, Do, LocalInv, Within, Fills, Flushes, KcpSpec.Flush;
    BeforeOk(cfg, calls, i);
    BeforeNext(cfg, calls, i);
    NumbersFrom(cfg, Before(cfg, calls, i), calls[i]);
  }

  lemma NumbersFrom(cfg: Cfg, k: Pcb, c: Call)
    requires cfg.Ok() && LocalInv(cfg, k) && Flushes(k, c)
    ensures var f := Do(cfg, k, c).snd; var n := Off(f.nxt, f.una);
      && f.una == k.snd.una
      && (|f.queue| < |k.snd.queue| ==> Within(cfg, k.cong, n))
      && (f.queue != [] ==> Fills(cfg, k.cong, n))
  {
    ClockFlushes(cfg, k, c);
    hide Do, Within, Fills, Flushes, KcpSpec.Flush, FlushMsgs, SndOk, RcvOk, Clock;
    FlushNumbers(cfg, Clock(cfg, k, c));
  }

  // ---------- losses ----------

  predicate TimedOut(k: Pcb) {
    exists s :: s in k.snd.buf && Overdue(k, s)
  }

  predicate SkippedOften(cfg: Cfg, k: Pcb) {
    exists s :: s in k.snd.buf && Skipped(cfg, k, s)
  }

  /** t is half of w, rounded down, but at least 2. */
  predicate HalfOf(t: int, w: int) {
    (t >= 2 && 0 <= w - 2 * t < 2) || (t == 2 && w < 4)
  }

  lemma SegReasons(cfg: Cfg, k: Pcb)
    requires cfg.Ok() && SndOk(k.snd, cfg.sndWnd)
    ensures Lost(RoundOf(cfg, k), FilledSnd(cfg, k).buf) <==> TimedOut(k)
    ensures Changed(RoundOf(cfg, k), FilledSnd(cfg, k).buf) <==> SkippedOften(cfg, k)
  {
    FilledExtends(cfg, k);
    hide FilledSnd, SndOk, Due, RoundOf;
    ExtendedReasons(cfg, k, FilledSnd(cfg, k));
  }

  lemma ExtendedReasons(cfg: Cfg, k: Pcb, f: Snd)
    requires cfg.Ok() && Extends(k.snd, f)
    ensures Lost(RoundOf(cfg, k), f.buf) <==> TimedOut(k)
    ensures Changed(RoundOf(cfg, k), f.buf) <==> SkippedOften(cfg, k)
  {
    hide Due, RoundOf, Off;
    var b := |k.snd.buf|;
    forall i | 0 <= i < |f.buf|
      ensures Due(RoundOf(cfg, k), f.buf[i]).Timeout? <==> Overdue(k, f.buf[i])
      ensures Due(RoundOf(cfg, k), f.buf[i]).Fast? <==> Skipped(cfg, k, f.buf[i])
      ensures if i < b then f.buf[i] == k.snd.buf[i] else !Overdue(k, f.buf[i]) && !Skipped(cfg, k, f.buf[i])
    {
      ResentFollows(cfg, k, f.buf[i]);
      assert i < b ==> f.buf[..b][i] == f.buf[i];
    }
    hide Extends, Overdue, Skipped;
    assert b <= |f.buf| by {
      ExtendsLength(k.snd, f);
    }
    if TimedOut(k) {
      var s :| s in k.snd.buf && Overdue(k, s);
      var i :| 0 <= i < b && k.snd.buf[i] == s;
      assert Due(RoundOf(cfg, k), f.buf[i]).Timeout?;
    }
    if SkippedOften(cfg, k) {
      var s :| s in k.snd.buf && Skipped(cfg, k, s);
      var i :| 0 <= i < b && k.snd.buf[i] == s;
      assert Due(RoundOf(cfg, k), f.buf[i]).Fast?;
    }
  }

  lemma ExtendsLength(snd: Snd, f: Snd)
    requires Extends(snd, f)
    ensures |snd.buf| <= |f.buf|
  {
  }

  /**
   * A timeout shuts the congestion window to one segment and sets the threshold to half of the window that bound
   * the flush; else a fast retransmission sets the threshold to half of what is in flight and the window above it;
   * else a flush leaves the window alone, if there is one.
   */
  lemma FlushReacts(cfg: Cfg, k: Pcb, w: int)
    requires cfg.Ok() && k.updated && SndOk(k.snd, cfg.sndWnd)
    requires Within(cfg, k.cong, w) && Fills(cfg, k.cong, w)
    ensures var f, mss := KcpSpec.Flush(cfg, k), cfg.mtu - 24; var g := f.cong;
      && g.rmtWnd == k.cong.rmtWnd
      && (TimedOut(k) ==> g.cwnd == 1 && g.incr == mss && HalfOf(g.ssthresh, w))
      && (!TimedOut(k) && SkippedOften(cfg, k) ==>
            && HalfOf(g.ssthresh, Off(f.snd.nxt, f.snd.una))
            && g.cwnd == W(g.ssthresh + SkipLimit(cfg))
            && g.incr == W(g.cwnd * mss))
      && (!TimedOut(k) && !SkippedOften(cfg, k) ==>
            g == if k.cong.cwnd == 0 then k.cong.(cwnd := 1, incr := mss) else k.cong)
  {
    SegReasons(cfg, k);
    BindingWindow(cfg, k.cong, w);
    hide FilledSnd, Lost, Changed, TimedOut, SkippedOften, SndOk, Within, Fills, SendWindow;
    var f, r := FilledSnd(cfg, k), RoundOf(cfg, k);
    AfterFlushIs(cfg.mtu - 24, k.cong, Changed(r, f.buf), Lost(r, f.buf), Off(f.nxt, f.una), w, r.resent);
  }

  lemma BindingWindow(cfg: Cfg, c: Cong, w: int)
    requires cfg.Ok() && Within(cfg, c, w) && Fills(cfg, c, w)
    ensures w == SendWindow(cfg, c)
  {
  }

  lemma AfterFlushIs(mss: u32, c: Cong, change: bool, lost: bool, inflight: u32, w: u32, resent: u32)
    requires resent < TWO31 || resent == 0xffff_ffff
    ensures var g := AfterFlush(mss, c, change, lost, inflight, w, resent);
      && g.rmtWnd == c.rmtWnd
      && (lost ==> g.cwnd == 1 && g.incr == mss && HalfOf(g.ssthresh, w))
      && (!lost && change ==>
            HalfOf(g.ssthresh, inflight) && g.cwnd == W(g.ssthresh + resent) && g.incr == W(g.cwnd * mss))
      && (!lost && !change ==> g == if c.cwnd == 0 then c.(cwnd := 1, incr := mss) else c)
  {
    var t := Max(inflight / 2, 2);
    assert W(t + resent) == if t + resent < TWO32 then t + resent else t + resent - TWO32;
    hide W;
  }

  // ---------- growth ----------

  /** y is what one acknowledgement makes of byte counter x: mss squared over x and a sixteenth of mss more. */
  ghost predicate Accrues(mss: int, x: int, y: int) {
    exists q, d :: Floor(mss * mss, x, q) && Floor(mss, 16, d) && y == x + q + d
  }

  /** q is a / b rounded down. */
  predicate Floor(a: int, b: int, q: int) {
    0 <= a - q * b < b
  }

  /**
   * Below the peer's window an advance of snd_una opens the window by one segment in slow start. At or above the
   * threshold it adds to the byte counter, and the window opens to the bytes counted, rounded up, once they are
   * worth a segment more, but not beyond the peer's window.
   */
  lemma GrowExact(mss: int, c: Cong)
    requires 16 <= mss <= 65535 && CongOk(mss, c)
    ensures var g := Grow(mss, c);
      && g.ssthresh == c.ssthresh && g.rmtWnd == c.rmtWnd
      && (c.cwnd >= c.rmtWnd ==> g == c)
      && (c.cwnd < c.rmtWnd && c.cwnd < c.ssthresh ==> g.cwnd == c.cwnd + 1 && g.incr == c.incr + mss)
      && (c.ssthresh <= c.cwnd < c.rmtWnd ==>
            exists y :: Accrues(mss, Max(c.incr, mss), y) && Opens(mss, c, y, g))
  {
    hide CongOk, Grow;
    if c.cwnd >= c.rmtWnd {
      GrowNothing(mss, c);
    } else if c.cwnd < c.ssthresh {
      SlowStartExact(mss, c);
    } else {
      AvoidanceExact(mss, c);
    }
  }

  predicate Opens(mss: int, c: Cong, y: int, g: Cong) {
    if y < (c.cwnd + 1) * mss then g.cwnd == c.cwnd && g.incr == y
    else if y <= c.rmtWnd * mss then (g.cwnd - 1) * mss < y <= g.cwnd * mss && g.incr == y
    else g.cwnd == c.rmtWnd && g.incr == c.rmtWnd * mss
  }

  lemma SlowStartExact(mss: int, c: Cong)
    requires 0 < mss <= 65535 && CongOk(mss, c) && c.cwnd < c.rmtWnd && c.cwnd < c.ssthresh
    ensures var g := Grow(mss, c);
      && g.cwnd == c.cwnd + 1 && g.incr == c.incr + mss && g.ssthresh == c.ssthresh && g.rmtWnd == c.rmtWnd
  {
    hide GrowIncr, W, Div;
    WindowBound(c.cwnd, mss);
    assert c.incr + mss < TWO32;
  }

  lemma AvoidanceExact(mss: int, c: Cong)
    requires 16 <= mss <= 65535 && CongOk(mss, c) && c.ssthresh <= c.cwnd < c.rmtWnd
    ensures var g := Grow(mss, c);
      && g.ssthresh == c.ssthresh && g.rmtWnd == c.rmtWnd
      && exists y :: Accrues(mss, Max(c.incr, mss), y) && Opens(mss, c, y, g)
  {
    hide Grow, Avoid, CongOk, Up, Opens, Accrues;
    CongRange(mss, c);
    var x := Max(c.incr, mss);
    var y := Avoid(mss, x);
    AvoidFacts(mss, c, x, y);
    UpIs(mss, y);
    GrowShape(mss, c, x, y, Up(mss, y));
    AvoidAccrues(mss, x, y);
    ShapeOpens(mss, c, y, Up(mss, y), Grow(mss, c));
  }

  lemma AvoidAccrues(mss: int, x: int, y: int)
    requires 16 <= mss <= x && y == Avoid(mss, x)
    ensures Accrues(mss, x, y)
  {
    MulNonNeg(mss, mss);
    Quotient(mss * mss, x, mss * mss / x);
    Quotient(mss, 16, mss / 16);
    assert Floor(mss * mss, x, mss * mss / x) && Floor(mss, 16, mss / 16);
  }

  lemma ShapeOpens(mss: int, c: Cong, y: int, n: int, g: Cong)
    requires 0 < mss <= 65535 && c.ssthresh <= c.cwnd < c.rmtWnd < TWO16
    requires y >= 0 && n == Up(mss, y) && 0 <= n < TWO32 && 0 <= y < TWO32 && 0 <= c.rmtWnd * mss < TWO32
    requires g == if (c.cwnd + 1) * mss > y then c.(incr := y)
                  else if n > c.rmtWnd then c.(cwnd := c.rmtWnd, incr := c.rmtWnd * mss)
                  else c.(cwnd := n, incr := y)
    ensures Opens(mss, c, y, g)
  {
    CeilDiv(y, mss, n);
    if n > c.rmtWnd {
      MulMono(c.rmtWnd, n - 1, mss);
    } else {
      MulMono(n, c.rmtWnd, mss);
    }
  }

  // ---------- over calls ----------

  /** A call takes in a datagram that is read to its end and moves snd_una forward. */
  predicate Advances(cfg: Cfg, k: Pcb, c: Call)
    requires cfg.Ok()
  {
    c.Arriving? && Input(cfg, k, c.bytes).code == 0 && TimeDiff(Input(cfg, k, c.bytes).k.snd.una, k.snd.una) > 0
  }

  /** A call flushes after a timeout or with a fast retransmission. */
  predicate Reacts(cfg: Cfg, k: Pcb, c: Call) {
    Flushes(k, c) && (TimedOut(Clock(cfg, k, c)) || SkippedOften(cfg, Clock(cfg, k, c)))
  }

  /** A call that does not react changes the window only by growing it, once for a datagram that moves snd_una. */
  lemma CallCong(cfg: Cfg, k: Pcb, c: Call)
    requires cfg.Ok() && LocalInv(cfg, k) && !Reacts(cfg, k, c) && k.cong.cwnd >= 1
    ensures var g := Do(cfg, k, c).cong; var heard := k.cong.(rmtWnd := g.rmtWnd);
      && (if c.Arriving? then g.rmtWnd < TWO16 || g.rmtWnd == k.cong.rmtWnd else g.rmtWnd == k.cong.rmtWnd)
      && g == if Advances(cfg, k, c) then Grow(cfg.mtu - 24, heard) else heard
  {
    hide LocalInv, TimedOut, SkippedOften, Flushes, Grow, KcpSpec.Flush, Within, Fills;
    if c.Arriving? {
      InputGrows(cfg, k, c.bytes);
    } else if Flushes(k, c) {
      ClockFlushes(cfg, k, c);
      LocalSnd(cfg, k);
      SendWindowBinds(cfg, k.cong);
      FlushReacts(cfg, Clock(cfg, k, c), SendWindow(cfg, k.cong));
    } else {
      QuietCong(cfg, k, c);
    }
  }

  lemma LocalSnd(cfg: Cfg, k: Pcb)
    requires LocalInv(cfg, k)
    ensures SndOk(k.snd, cfg.sndWnd)
  {
  }

  lemma SendWindowBinds(cfg: Cfg, c: Cong)
    ensures Within(cfg, c, SendWindow(cfg, c)) && Fills(cfg, c, SendWindow(cfg, c))
  {
  }

  lemma QuietCong(cfg: Cfg, k: Pcb, c: Call)
    requires cfg.Ok() && !Flushes(k, c) && !c.Arriving?
    ensures Do(cfg, k, c).cong == k.cong
  {
    hide SendQueue, PeekSize, FirstMessage, Drain, Bytes;
  }

  lemma InputGrows(cfg: Cfg, k: Pcb, bytes: seq<u8>)
    requires cfg.Ok()
    ensures var w := Input(cfg, k, bytes).k.cong.rmtWnd; w < TWO16 || w == k.cong.rmtWnd
    ensures var r := Input(cfg, k, bytes); var heard := k.cong.(rmtWnd := r.k.cong.rmtWnd);
      r.k.cong == if r.code == 0 && TimeDiff(r.k.snd.una, k.snd.una) > 0 then Grow(cfg.mtu - 24, heard) else heard
  {
    hide Parse, Grow, LatestAck, BumpFastack, InputMsgs, TimeDiff;
    if |bytes| >= OVERHEAD {
      var p := Parse(cfg.conv, bytes);
      InputMsgsHeard(cfg, k, p.ms);
      GrowKeepsRmt(cfg.mtu - 24, InputMsgs(cfg, k, p.ms).cong);
    }
  }

  /** The peer's window is the one that the last message carries. */
  lemma {:induction false} InputMsgsHeard(cfg: Cfg, k: Pcb, ms: seq<Msg>)
    ensures InputMsgs(cfg, k, ms).cong == k.cong.(rmtWnd := if ms == [] then k.cong.rmtWnd else ms[|ms| - 1].wnd)
    decreases |ms|
  {
    hide InputSnd, InputRcv, UpdateAck;
    if ms != [] {
      InputMsgsHeard(cfg, InputMsg(cfg, k, ms[0]), ms[1..]);
    }
  }

  /** Calls from a up to b that move snd_una. */
  function AdvanceCount(cfg: Cfg, calls: seq<Call>, a: nat, b: nat): nat
    requires cfg.Ok() && b <= |calls|
    decreases b
  {
    if a >= b then 0
    else AdvanceCount(cfg, calls, a, b - 1) + if Advances(cfg, Before(cfg, calls, b - 1), calls[b - 1]) then 1 else 0
  }

  predicate Calm(cfg: Cfg, calls: seq<Call>, a: nat, b: nat)
    requires cfg.Ok() && b <= |calls|
  {
    forall m :: a <= m < b ==> !Reacts(cfg, Before(cfg, calls, m), calls[m])
  }

  /** What arrives from a up to b says that the peer's window is w or more. */
  predicate RoomFor(cfg: Cfg, calls: seq<Call>, a: nat, b: nat, w: int)
    requires cfg.Ok() && b <= |calls|
  {
    forall m :: a <= m < b && Advances(cfg, Before(cfg, calls, m), calls[m]) ==>
      Before(cfg, calls, m + 1).cong.rmtWnd >= w
  }

  /**
   * Slow start: without a loss the window opens by at most one segment for each datagram that moves snd_una, as
   * long as that stays below the threshold; and by exactly one if the peer's window has room.
   */
  lemma {:induction false} SlowStart(cfg: Cfg, calls: seq<Call>, a: nat, b: nat)
    requires cfg.Ok() && a <= b <= |calls| && Calm(cfg, calls, a, b) && Before(cfg, calls, a).cong.cwnd >= 1
    requires Before(cfg, calls, a).cong.cwnd + AdvanceCount(cfg, calls, a, b) <= Before(cfg, calls, a).cong.ssthresh
    ensures var c, g, n := Before(cfg, calls, a).cong, Before(cfg, calls, b).cong, AdvanceCount(cfg, calls, a, b);
      && g.ssthresh == c.ssthresh && c.cwnd <= g.cwnd <= c.cwnd + n
      && (RoomFor(cfg, calls, a, b, c.cwnd + n) ==> g.cwnd == c.cwnd + n)
  {
    hide Before, Do, Reacts, Advances, LocalInv, Grow;
    if a < b {
      SlowStart(cfg, calls, a, b - 1);
      BeforeNext(cfg, calls, b - 1);
      BeforeOk(cfg, calls, b - 1);
      var k := Before(cfg, calls, b - 1);
      CallCong(cfg, k, calls[b - 1]);
      SlowStep(cfg.mtu - 24, k.cong.(rmtWnd := Before(cfg, calls, b).cong.rmtWnd));
    }
  }

  lemma SlowStep(mss: int, c: Cong)
    requires 0 < mss < TWO32
    ensures var g := Grow(mss, c);
      && g.rmtWnd == c.rmtWnd && g.ssthresh == c.ssthresh
      && (c.cwnd < c.ssthresh ==> g.cwnd == if c.cwnd < c.rmtWnd then c.cwnd + 1 else c.cwnd)
  {
    hide GrowIncr, Div, W;
  }

  /**
   * After the flush at call i, in which a segment had timed out, and with no loss since, a flush at call j numbers
   * fragments up to one more in flight than datagrams have moved snd_una in between, while that is below the
   * threshold, half of the window w that bound the flush at i.
   */
  lemma AfterTimeout(cfg: Cfg, calls: seq<Call>, i: nat, j: nat, w: int)
    requires cfg.Ok() && !cfg.nocwnd && i < j < |calls|
    requires Flushes(Before(cfg, calls, i), calls[i]) && TimedOut(Clock(cfg, Before(cfg, calls, i), calls[i]))
    requires Within(cfg, Before(cfg, calls, i).cong, w) && Fills(cfg, Before(cfg, calls, i).cong, w)
    requires Calm(cfg, calls, i + 1, j) && Flushes(Before(cfg, calls, j), calls[j])
    ensures HalfOf(Before(cfg, calls, i + 1).cong.ssthresh, w)
    ensures var n, s, f := AdvanceCount(cfg, calls, i + 1, j), Before(cfg, calls, j).snd, Before(cfg, calls, j + 1).snd;
      1 + n <= Before(cfg, calls, i + 1).cong.ssthresh && |f.queue| < |s.queue| ==> Off(f.nxt, f.una) <= 1 + n
  {
    hide Before, Do, LocalInv, Within, Fills, Flushes, KcpSpec.Flush, TimedOut, Calm, Clock, HalfOf;
    var k := Before(cfg, calls, i);
    BeforeOk(cfg, calls, i);
    BeforeNext(cfg, calls, i);
    Collapses(cfg, k, calls[i], w);
    if 1 + AdvanceCount(cfg, calls, i + 1, j) <= Before(cfg, calls, i + 1).cong.ssthresh {
      SlowStart(cfg, calls, i + 1, j);
      CallNumbers(cfg, calls, j);
      WithinCwnd(cfg, Before(cfg, calls, j).cong);
    }
  }

  lemma WithinCwnd(cfg: Cfg, c: Cong)
    ensures forall n :: Within(cfg, c, n) && !cfg.nocwnd ==> n <= c.cwnd
  {
  }

  lemma Collapses(cfg: Cfg, k: Pcb, c: Call, w: int)
    requires cfg.Ok() && LocalInv(cfg, k) && Flushes(k, c) && TimedOut(Clock(cfg, k, c))
    requires Within(cfg, k.cong, w) && Fills(cfg, k.cong, w)
    ensures Do(cfg, k, c).cong.cwnd == 1 && HalfOf(Do(cfg, k, c).cong.ssthresh, w)
  {
    hide LocalInv, TimedOut, SkippedOften, Flushes, KcpSpec.Flush, Within, Fills, HalfOf, Clock, FlushMsgs;
    ClockFlushes(cfg, k, c);
    LocalSnd(cfg, k);
    FlushReacts(cfg, Clock(cfg, k, c), w);
  }

  /** What a datagram that moves snd_una adds to the window or at least to the byte counter. */
  lemma GrowSome(mss: int, c: Cong)
    requires 26 <= mss <= 65535 && CongOk(mss, c) && c.cwnd < c.rmtWnd
    ensures var g := Grow(mss, c);
      && CongOk(mss, g) && c.cwnd <= g.cwnd && g.ssthresh == c.ssthresh
      && (g.cwnd == c.cwnd ==> 31 * (g.incr - c.incr) >= mss)
  {
    GrowCorrect(mss, c);
    GrowExact(mss, c);
    CongRange(mss, c);
    hide Grow, CongOk, Accrues, Opens;
    if c.ssthresh <= c.cwnd < c.rmtWnd {
      var y :| Accrues(mss, Max(c.incr, mss), y) && Opens(mss, c, y, Grow(mss, c));
      AccruesSome(mss, Max(c.incr, mss), y);
      OpensSame(mss, c, y, Grow(mss, c));
    }
  }

  lemma AccruesSome(mss: int, x: int, y: int)
    requires 26 <= mss <= x && Accrues(mss, x, y)
    ensures 31 * (y - x) >= mss
  {
    var q, d :| Floor(mss * mss, x, q) && Floor(mss, 16, d) && y == x + q + d;
    MulNonNeg(mss, mss);
    if q < 0 {
      MulMono(q, -1, x);
    }
  }

  lemma OpensSame(mss: int, c: Cong, y: int, g: Cong)
    requires 0 < mss && Opens(mss, c, y, g) && c.cwnd < c.rmtWnd
    ensures g.cwnd == c.cwnd ==> g.incr == y
  {
    assert (c.cwnd + 1) * mss == c.cwnd * mss + mss;
  }

  /**
   * Without a loss the window never shrinks, and 62 datagrams that move snd_una, heard while the peer's window has
   * room, open it by a segment at least.
   */
  lemma {:induction false} ClimbsBack(cfg: Cfg, calls: seq<Call>, a: nat, b: nat)
    requires cfg.Ok() && cfg.Mss() <= 65535 && a <= b <= |calls| && Calm(cfg, calls, a, b)
    requires CongOk(cfg.Mss(), Before(cfg, calls, a).cong) && Before(cfg, calls, a).cong.cwnd >= 1
    requires RoomFor(cfg, calls, a, b, Before(cfg, calls, a).cong.cwnd + 1)
    ensures var c, g, n := Before(cfg, calls, a).cong, Before(cfg, calls, b).cong, AdvanceCount(cfg, calls, a, b);
      && CongOk(cfg.Mss(), g) && c.cwnd <= g.cwnd
      && (g.cwnd == c.cwnd ==> 31 * (g.incr - c.incr) >= n * cfg.Mss())
      && (n >= 62 ==> g.cwnd > c.cwnd)
  {
    hide Before, Do, Reacts, Advances, LocalInv, Grow, CongOk;
    var mss := cfg.mtu - 24;
    var c, n := Before(cfg, calls, a).cong, AdvanceCount(cfg, calls, a, b);
    if a < b {
      ClimbsBack(cfg, calls, a, b - 1);
      BeforeNext(cfg, calls, b - 1);
      BeforeOk(cfg, calls, b - 1);
      var k := Before(cfg, calls, b - 1);
      CallCong(cfg, k, calls[b - 1]);
      CongRange(mss, k.cong);
      ClimbStep(mss, c, k.cong, Before(cfg, calls, b).cong, AdvanceCount(cfg, calls, a, b - 1), n);
    }
    TwoMore(mss, c, Before(cfg, calls, b).cong, n);
  }

  lemma ClimbStep(mss: int, c: Cong, h: Cong, g: Cong, m: nat, n: nat)
    requires 26 <= mss <= 65535 && CongOk(mss, h) && c.cwnd <= h.cwnd
    requires h.cwnd == c.cwnd ==> 31 * (h.incr - c.incr) >= m * mss
    requires g.rmtWnd < TWO16
    requires m <= n <= m + 1 && g == if n > m then Grow(mss, h.(rmtWnd := g.rmtWnd)) else h.(rmtWnd := g.rmtWnd)
    requires n > m ==> g.rmtWnd >= c.cwnd + 1
    ensures CongOk(mss, g) && c.cwnd <= g.cwnd && (g.cwnd == c.cwnd ==> 31 * (g.incr - c.incr) >= n * mss)
  {
    var heard := h.(rmtWnd := g.rmtWnd);
    SameCong(mss, h, g.rmtWnd);
    hide CongOk, Grow;
    if n > m {
      GrowCorrect(mss, heard);
      assert n * mss == m * mss + mss;
      if h.cwnd == c.cwnd {
        GrowSome(mss, heard);
      }
    } else {
      assert n == m;
    }
  }

  lemma SameCong(mss: int, c: Cong, w: u16)
    requires CongOk(mss, c)
    ensures CongOk(mss, c.(rmtWnd := w))
  {
  }

  lemma TwoMore(mss: int, c: Cong, g: Cong, n: nat)
    requires 0 < mss && CongOk(mss, c) && CongOk(mss, g) && c.cwnd >= 1
    requires g.cwnd == c.cwnd ==> 31 * (g.incr - c.incr) >= n * mss
    ensures n >= 62 ==> g.cwnd != c.cwnd
  {
    if n >= 62 {
      MulMono(62, n, mss);
      assert (c.cwnd + 1) * mss == (c.cwnd - 1) * mss + 2 * mss;
    }
  }
}
