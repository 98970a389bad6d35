// Timers and the congestion window: the round-trip estimator, the retransmission
// clock that ikcp_check predicts, and the window arithmetic.
module KcpTiming {
  import opened Word
  import opened Wire
  import opened KcpSpec

  // ---------- round-trip estimator (section 2 of RFC 6298) ----------

  predicate RttOk(R: int, r: Rtt) {
    0 <= r.srtt <= R && 0 <= r.rttval <= R
  }

  function Clamp(lo: int, x: int, hi: int): int {
    Min(Max(lo, x), hi)
  }

  /** With samples in [0, R] and 8R < 2^31 no signed operation overflows, and no word wraps. */
  lemma RttStep(cfg: Cfg, R: int, r: Rtt, rtt: int)
    requires cfg.Ok() && 1 <= R && 8 * R < TWO31 && RttOk(R, r) && 0 <= rtt <= R
    ensures var d := Max(rtt - r.srtt, r.srtt - rtt);
      0 <= 3 * r.rttval + d < TWO31 && 0 <= 7 * r.srtt + rtt < TWO31
    ensures var r' := UpdateAck(cfg, r, rtt);
      && RttOk(R, r')
      && 4 * r'.rttval < TWO31
      && r'.rto == Clamp(cfg.minrto, r'.srtt + Max(cfg.interval, 4 * r'.rttval), RTO_MAX)
  {
    var v := UpdateAck(cfg, r, rtt).rttval;
    NoWrap(4 * v);
    NoWrap(UpdateAck(cfg, r, rtt).srtt + Max(cfg.interval, 4 * v));
    hide W;
  }

  lemma RtoBounds(cfg: Cfg, r: Rtt, rtt: int)
    requires cfg.Ok()
    ensures 30 <= UpdateAck(cfg, r, rtt).rto <= 60000
  {
  }

  /** The estimator after a sequence of samples. */
  function Estimate(cfg: Cfg, r: Rtt, samples: seq<int>): Rtt {
    if samples == [] then r
    else UpdateAck(cfg, Estimate(cfg, r, samples[..|samples| - 1]), samples[|samples| - 1])
  }

  /** In every run of samples the estimate stays within the samples and the timeout within its limits. */
  lemma {:induction false} EstimateBounds(cfg: Cfg, R: int, samples: seq<int>)
    requires cfg.Ok() && 1 <= R && 8 * R < TWO31
    requires forall i :: 0 <= i < |samples| ==> 0 <= samples[i] <= R
    ensures RttOk(R, Estimate(cfg, Create().rtt, samples))
    ensures 30 <= Estimate(cfg, Create().rtt, samples).rto <= 60000
  {
    hide UpdateAck;
    if samples != [] {
      EstimateBounds(cfg, R, samples[..|samples| - 1]);
      RttStep(cfg, R, Estimate(cfg, Create().rtt, samples[..|samples| - 1]), samples[|samples| - 1]);
      RtoBounds(cfg, Estimate(cfg, Create().rtt, samples[..|samples| - 1]), samples[|samples| - 1]);
    }
  }

  predicate RtoOk(k: Pcb) {
    30 <= k.rtt.rto <= 60000
  }

  /** rx_rto stays in [30, 60000] whatever arrives. */
  lemma {:induction false} InputKeepsRto(cfg: Cfg, k: Pcb, ms: seq<Msg>)
    requires cfg.Ok() && RtoOk(k)
    ensures RtoOk(InputMsgs(cfg, k, ms))
    decreases |ms|
  {
    hide UpdateAck;
    if ms != [] {
      var k1 := InputMsg(cfg, k, ms[0]);
      RtoBounds(cfg, k.rtt, TimeDiff(k.current, ms[0].ts));
      InputKeepsRto(cfg, k1, ms[1..]);
    }
  }

  // ---------- congestion window ----------

  /** The byte counter incr stays strictly within one mss of the window it stands for. */
  predicate CongOk(mss: int, c: Cong) {
    && c.ssthresh >= THRESH_MIN && c.rmtWnd < TWO16
    && if c.cwnd == 0 then c.incr == 0 else (c.cwnd - 1) * mss < c.incr < (c.cwnd + 1) * mss
  }

  lemma MulMono(a: int, b: int, m: int)
    requires a <= b && m >= 0
    ensures a * m <= b * m
  {
    assert b * m - a * m == (b - a) * m;
    MulNonNeg(b - a, m);
  }

  lemma MulNonNeg(a: int, m: int)
    requires a >= 0 && m >= 0
    ensures a * m >= 0
  {
  }

  lemma Quotient(a: nat, b: nat, q: int)
    requires b > 0 && q == a / b
    ensures 0 <= q && q * b <= a < q * b + b
  {
    assert a == q * b + a % b;
    DivBound(a, b);
  }

  lemma QuotientSmall(m: int, x: int, q: int)
    requires 0 < m <= x && 0 <= q && q * x <= m * m
    ensures q <= m
    ensures q == m ==> x == m
  {
    assert (m + 1) * x == m * x + x && (m + 1) * m == m * m + m && m * x == x * m;
    MulMono(m, x, m);
    if x > m {
      MulMono(m + 1, x, m);
    }
    if q > m {
      MulMono(m + 1, q, x);
    } else if q == m {
      assert m * x <= m * m;
    }
  }

  lemma QuotientHigh(m: int, x: int, q: int)
    requires m > 0 && 0 <= q && q * x <= m * m && 16 * x > 31 * m
    ensures 31 * q < 16 * m
  {
    MulMono(31 * m + 1, 16 * x, q);
    assert (16 * x) * q == 16 * (q * x);
    assert (31 * m + 1) * q == m * (31 * q) + q;
    assert (31 * q) * m == m * (31 * q) && (16 * m) * m == 16 * (m * m);
    if 31 * q >= 16 * m {
      MulMono(16 * m, 31 * q, m);
    }
  }

  /** The increase of incr in congestion avoidance is always less than what two more segments would be. */
  lemma AvoidanceBound(m: int, c: int, x: int, q: int)
    requires m > 0 && c >= 1 && m <= x && x < (c + 1) * m
    requires 0 <= q && q * x <= m * m
    ensures x + q + m / 16 < (c + 2) * m
  {
    var p := (c + 1) * m;
    assert (c + 2) * m == p + m;
    MulMono(2, c + 1, m);
    QuotientSmall(m, x, q);
    if 16 * x > 31 * m {
      QuotientHigh(m, x, q);
    }
    AvoidanceLinear(m, p, x, q);
  }

  lemma AvoidanceLinear(m: int, p: int, x: int, q: int)
    requires 0 < m <= x < p && 2 * m <= p && 0 <= q <= m
    requires q == m ==> x == m
    requires 16 * x > 31 * m ==> 31 * q < 16 * m
    ensures x + q + m / 16 < p + m
  {
  }

  /** (a + m - 1) / m is a / m rounded up. */
  lemma CeilDiv(a: int, m: int, n: int)
    requires m > 0 && a >= 0 && n == (a + m - 1) / m
    ensures (n - 1) * m < a <= n * m
  {
    Quotient(a + m - 1, m, n);
    assert (n - 1) * m == n * m - m;
  }

  lemma NoWrap(x: int)
    requires 0 <= x < TWO32
    ensures W(x) == x
  {
  }

  /** incr after one acknowledgement in congestion avoidance, when nothing wraps. */
  function Avoid(mss: int, x: int): int
    requires x > 0
  {
    x + mss * mss / x + mss / 16
  }

  lemma WindowBound(c: int, m: int)
    requires 0 <= c <= 65535 && 0 <= m <= 65535
    ensures c * m <= 65535 * 65535
    ensures (c + 1) * m == c * m + m && (c + 2) * m == c * m + 2 * m
    ensures (c - 1) * m == c * m - m
  {
    MulMono(c, 65535, m);
    MulMono(m, 65535, 65535);
    assert 65535 * m == m * 65535;
  }

  /** Window growth raises cwnd by at most two segments, never past the peer's window, and keeps incr in step. */
  lemma GrowCorrect(mss: int, c: Cong)
    requires 0 < mss <= 65535 && CongOk(mss, c)
    ensures var g := Grow(mss, c);
      && CongOk(mss, g)
      && c.cwnd <= g.cwnd <= c.cwnd + 2
      && (g.cwnd > c.cwnd ==> g.cwnd <= c.rmtWnd)
  {
    hide CongOk, Grow;
    if c.cwnd >= c.rmtWnd {
      GrowNothing(mss, c);
    } else if c.cwnd < c.ssthresh {
      GrowSlowStart(mss, c);
    } else {
      GrowAvoidance(mss, c);
    }
  }

  lemma GrowNothing(mss: int, c: Cong)
    requires 0 < mss <= 65535 && c.cwnd >= c.rmtWnd
    ensures Grow(mss, c) == c
  {
  }

  lemma GrowSlowStart(mss: int, c: Cong)
    requires 0 < mss <= 65535 && CongOk(mss, c) && c.cwnd < c.rmtWnd && c.cwnd < c.ssthresh
    ensures var g := Grow(mss, c);
      CongOk(mss, g) && g.cwnd == c.cwnd + 1 && g.rmtWnd == c.rmtWnd
  {
    hide GrowIncr, W, Div;
    var p := c.cwnd * mss;
    WindowBound(c.cwnd, mss);
    assert c.incr + mss < TWO32;
    SlowStartStep(mss, c.cwnd, c.incr);
  }

  lemma SlowStartStep(m: int, c: int, incr: int)
    requires 0 < m && 0 <= c
    requires if c == 0 then incr == 0 else (c - 1) * m < incr < (c + 1) * m
    ensures (c + 1 - 1) * m < incr + m < (c + 1 + 1) * m
  {
    assert (c + 1) * m == c * m + m && (c - 1) * m == c * m - m && (c + 2) * m == c * m + 2 * m;
  }

  lemma GrowAvoidance(mss: int, c: Cong)
    requires 0 < mss <= 65535 && CongOk(mss, c) && c.ssthresh <= c.cwnd < c.rmtWnd
    ensures var g := Grow(mss, c);
      && CongOk(mss, g) && c.cwnd <= g.cwnd <= c.cwnd + 2 && g.cwnd <= c.rmtWnd
  {
    hide Grow, Avoid, CongOk, Up;
    CongRange(mss, c);
    var x := Max(c.incr, mss);
    var y := Avoid(mss, x);
    AvoidFacts(mss, c, x, y);
    UpIs(mss, y);
    GrowShape(mss, c, x, y, Up(mss, y));
    AvoidSettles(mss, c, y, Up(mss, y), Grow(mss, c));
  }

  lemma CongRange(mss: int, c: Cong)
    requires CongOk(mss, c)
    ensures c.ssthresh >= THRESH_MIN && c.rmtWnd < TWO16
  {
  }

  /** y / mss rounded up, as the code computes it. */
  function Up(mss: int, y: int): int
    requires mss > 0
  {
    (y + mss - 1) / mss
  }

  lemma UpIs(mss: int, y: int)
    requires 0 < mss <= 65535 && 0 <= y && y + mss < TWO32
    ensures 0 <= Up(mss, y) < TWO32
  {
    CeilIs(mss, y, Up(mss, y));
  }

  lemma AvoidSettles(mss: int, c: Cong, y: u32, n: u32, g: Cong)
    requires 0 < mss <= 65535 && CongOk(mss, c) && c.ssthresh <= c.cwnd < c.rmtWnd
    requires c.incr <= y < (c.cwnd + 2) * mss && n == Up(mss, y)
    requires 0 <= c.rmtWnd * mss < TWO32
    requires g == if (c.cwnd + 1) * mss > y then c.(incr := y)
                  else if n > c.rmtWnd then c.(cwnd := c.rmtWnd, incr := c.rmtWnd * mss)
                  else c.(cwnd := n, incr := y)
    ensures CongOk(mss, g) && c.cwnd <= g.cwnd <= c.cwnd + 2 && g.cwnd <= c.rmtWnd
  {
    if (c.cwnd + 1) * mss > y {
    } else {
      CeilDiv(y, mss, n);
      CeilRange(c.cwnd, mss, y, n);
      if n <= c.rmtWnd {
        assert (n + 1) * mss == n * mss + mss && (n - 1) * mss == n * mss - mss;
      } else {
        WindowBound(c.rmtWnd, mss);
      }
    }
  }

  lemma CeilRange(c: int, m: int, y: int, n: int)
    requires m > 0 && c >= 0 && (c + 1) * m <= y < (c + 2) * m && (n - 1) * m < y <= n * m
    ensures c + 1 <= n <= c + 2
  {
    assert (c + 1) * m == c * m + m;
    if n <= c {
      MulMono(n, c, m);
    }
    if n >= c + 3 {
      MulMono(c + 2, n - 1, m);
    }
  }

  lemma AvoidFacts(mss: int, c: Cong, x: int, y: int)
    requires 0 < mss <= 65535 && CongOk(mss, c) && 2 <= c.ssthresh <= c.cwnd < c.rmtWnd
    requires x == Max(c.incr, mss) && y == Avoid(mss, x)
    ensures mss <= x < (c.cwnd + 1) * mss && x <= y < (c.cwnd + 2) * mss < TWO32
    ensures y + mss < TWO32
    ensures 0 <= mss * mss < TWO32 && c.incr <= y
  {
    assert c.incr < (c.cwnd + 1) * mss;
    hide Avoid, CongOk;
    WindowBound(c.cwnd + 1, mss);
    MulMono(2, c.cwnd + 1, mss);
    assert (c.cwnd + 2) * mss == (c.cwnd + 1) * mss + mss;
    AvoidValue(mss, c.cwnd, x, y);
  }

  lemma AvoidValue(mss: int, cwnd: int, x: int, y: int)
    requires 0 < mss <= 65535 && cwnd >= 1 && mss <= x < (cwnd + 1) * mss && y == Avoid(mss, x)
    ensures 0 <= mss * mss < TWO32 && x <= y < (cwnd + 2) * mss
  {
    WindowBound(mss, mss);
    MulNonNeg(mss, mss);
    var q := mss * mss / x;
    Quotient(mss * mss, x, q);
    AvoidanceBound(mss, cwnd, x, q);
  }

  lemma GrowShape(mss: int, c: Cong, x: int, y: int, n: int)
    requires 0 < mss <= 65535 && c.ssthresh <= c.cwnd < c.rmtWnd < TWO16
    requires x == Max(c.incr, mss) && y == Avoid(mss, x)
    requires 0 <= mss * mss < TWO32 && 0 <= y < (c.cwnd + 2) * mss < TWO32
    requires n == Up(mss, y) && n >= 0 && y + mss < TWO32
    ensures 0 <= c.rmtWnd * mss < TWO32
    ensures Grow(mss, c) ==
        if (c.cwnd + 1) * mss > y then c.(incr := y)
        else if n > c.rmtWnd then c.(cwnd := c.rmtWnd, incr := c.rmtWnd * mss)
        else c.(cwnd := n, incr := y)
  {
    hide W, GrowIncr, Avoid, Grow, Div;
    GrowIncrIs(mss, c.incr, y);
    CeilIs(mss, y, n);
    ProductIs(c.cwnd + 1, mss);
    ProductIs(c.rmtWnd, mss);
    GrowWords(mss, c, y, (c.cwnd + 1) * mss, n, c.rmtWnd * mss);
  }

  lemma ProductIs(a: int, mss: int)
    requires 0 <= a <= 65535 && 0 <= mss <= 65535
    ensures 0 <= a * mss < TWO32 && W(a * mss) == a * mss
  {
    WindowBound(a, mss);
    MulNonNeg(a, mss);
    NoWrap(a * mss);
  }

  lemma CeilIs(mss: int, y: int, n: int)
    requires 0 < mss <= 65535 && 0 <= y && y + mss < TWO32 && n == (y + mss - 1) / mss
    ensures 0 <= n < TWO32 && n == Div(W(y + mss - 1), mss)
  {
    NoWrap(y + mss - 1);
    DivBound(y + mss - 1, mss);
  }

  /** Grow in congestion avoidance, with its products and quotients named. */
  lemma GrowWords(mss: u32, c: Cong, y: u32, room: u32, n: u32, cap: u32)
    requires 0 < mss && c.ssthresh <= c.cwnd < c.rmtWnd
    requires y == GrowIncr(mss, c.incr) && room == W((c.cwnd + 1) * mss) && cap == W(c.rmtWnd * mss)
    requires n == Div(W(y + mss - 1), mss)
    ensures Grow(mss, c) ==
      if room > y then c.(incr := y)
      else if n > c.rmtWnd then c.(cwnd := c.rmtWnd, incr := cap)
      else c.(cwnd := n, incr := y)
  {
    hide W, GrowIncr, Div;
  }

  lemma GrowIncrIs(mss: int, incr: u32, y: int)
    requires 0 < mss <= 65535 && y == Avoid(mss, Max(incr, mss))
    requires 0 <= mss * mss < TWO32 && 0 <= y < TWO32
    ensures GrowIncr(mss, incr) == y
  {
    NoWrap(mss * mss);
    NoWrap(y);
    hide W;
  }

  /** One ikcp_input, whatever it reads, keeps the window arithmetic and grows the window by at most two. */
  lemma InputCong(cfg: Cfg, k: Pcb, bytes: seq<u8>)
    requires cfg.Ok() && cfg.Mss() <= 65535 && CongOk(cfg.Mss(), k.cong)
    ensures var c, g := k.cong, Input(cfg, k, bytes).k.cong;
      && CongOk(cfg.Mss(), g)
      && c.cwnd <= g.cwnd <= c.cwnd + 2
      && (g.cwnd > c.cwnd ==> g.cwnd <= g.rmtWnd)
  {
    hide Parse, Grow, LatestAck, CongOk, BumpFastack;
    var p := Parse(cfg.conv, bytes);
    InputMsgsCong(cfg, k, p.ms);
    GrowCorrect(cfg.Mss(), InputMsgs(cfg, k, p.ms).cong);
    GrowKeepsRmt(cfg.Mss(), InputMsgs(cfg, k, p.ms).cong);
  }

  lemma GrowKeepsRmt(mss: u32, c: Cong)
    requires mss > 0
    ensures Grow(mss, c).rmtWnd == c.rmtWnd
  {
  }

  lemma {:induction false} InputMsgsCong(cfg: Cfg, k: Pcb, ms: seq<Msg>)
    requires CongOk(cfg.Mss(), k.cong)
    ensures CongOk(cfg.Mss(), InputMsgs(cfg, k, ms).cong)
    ensures InputMsgs(cfg, k, ms).cong == k.cong.(rmtWnd := InputMsgs(cfg, k, ms).cong.rmtWnd)
    decreases |ms|
  {
    if ms != [] {
      InputMsgsCong(cfg, InputMsg(cfg, k, ms[0]), ms[1..]);
    }
  }

  /** The window that a fast retransmission sets. */
  function FastWindow(inflight: u32, resent: u32): u32 {
    Add(Max(inflight / 2, THRESH_MIN), resent)
  }

  lemma AfterFlushCong(mss: int, c: Cong, change: bool, lost: bool, inflight: u32, cwnd: u32, resent: u32)
    requires 0 < mss <= 65535 && CongOk(mss, c)
    ensures var g := AfterFlush(mss, c, change, lost, inflight, cwnd, resent);
      && g.cwnd >= 1 && g.ssthresh >= THRESH_MIN && g.rmtWnd == c.rmtWnd
      && (CongOk(mss, g) <==> (change && !lost ==> FastWindow(inflight, resent) * mss < TWO32))
  {
    if change && !lost {
      var n := FastWindow(inflight, resent);
      MulNonNeg(n, mss);
      assert (n - 1) * mss == n * mss - mss && (n + 1) * mss == n * mss + mss;
      if n * mss < TWO32 {
        NoWrap(n * mss);
      } else {
        assert W(n * mss) <= n * mss - TWO32 by {
          WrapsBelow(n * mss);
        }
      }
    }
  }

  lemma WrapsBelow(x: int)
    requires x >= TWO32
    ensures W(x) <= x - TWO32
  {
  }

  /** The byte count of the window that a fast retransmission sets in this flush, if any, fits 32 bits. */
  predicate FastFits(cfg: Cfg, k: Pcb)
    requires cfg.Ok()
  {
    var f, r := FilledSnd(cfg, k), RoundOf(cfg, k);
    k.updated && Changed(r, f.buf) && !Lost(r, f.buf) ==> FastWindow(Off(f.nxt, f.una), r.resent) * cfg.Mss() < TWO32
  }

  /**
   * Every effective flush leaves a window of at least one segment and a threshold of at least two; it
   * keeps the byte counter in step exactly if the window of a fast retransmission does not wrap it.
   */
  lemma FlushCong(cfg: Cfg, k: Pcb)
    requires cfg.Ok() && cfg.Mss() <= 65535 && CongOk(cfg.Mss(), k.cong)
    ensures CongOk(cfg.Mss(), Flush(cfg, k).cong) <==> FastFits(cfg, k)
    ensures k.updated ==> Flush(cfg, k).cong.cwnd >= 1 && Flush(cfg, k).cong.ssthresh >= THRESH_MIN
  {
    hide FilledSnd, Changed, Lost, CongOk, AfterFlush, FastWindow, SendWindow;
    if k.updated {
      var r, f := RoundOf(cfg, k), FilledSnd(cfg, k);
      AfterFlushCong(cfg.Mss(), k.cong, Changed(r, f.buf), Lost(r, f.buf), Off(f.nxt, f.una), SendWindow(cfg, k.cong),
                     r.resent);
    }
  }

  // ---------- ikcp_check and ikcp_update ----------

  lemma {:induction false} NextResendMin(buf: seq<Seg>, current: u32, limit: int)
    requires limit > 0
    ensures var n := NextResend(buf, current, limit);
      && 0 <= n <= limit
      && (n == 0 <==> exists i :: 0 <= i < |buf| && TimeDiff(buf[i].resendts, current) <= 0)
      && (n > 0 ==> forall i :: 0 <= i < |buf| ==> n <= TimeDiff(buf[i].resendts, current))
  {
    if buf != [] && TimeDiff(buf[0].resendts, current) > 0 {
      NextResendMin(buf[1..], current, Min(TimeDiff(buf[0].resendts, current), limit));
    }
  }

  /** Work for an update at the given time: a flush, or a segment whose resend time has come. */
  predicate WorkDue(k: Pcb, now: u32) {
    FlushDue(k, now) || exists i :: 0 <= i < |k.snd.buf| && TimeDiff(k.snd.buf[i].resendts, now) <= 0
  }

  /** ikcp_check answers "now" exactly when there is work now. */
  lemma CheckNow(cfg: Cfg, k: Pcb, current: u32)
    requires cfg.Ok()
    ensures Check(cfg, k, current) == current <==> WorkDue(k, current)
  {
    NextResendMin(k.snd.buf, current, TWO31 - 1);
    hide NextResend;
  }

  /**
   * Otherwise it names a time no later than one interval ahead such that every
   * update before it does nothing but set the clock, and no segment is overdue.
   */
  lemma CheckRefinesPolling(cfg: Cfg, k: Pcb, current: u32, now: u32)
    requires cfg.Ok()
    requires Off(now, current) < Off(Check(cfg, k, current), current)
    ensures 0 < Off(Check(cfg, k, current), current) <= cfg.interval
    ensures Update(cfg, k, now) == k.(current := now) && UpdateMsgs(cfg, k, now) == []
    ensures forall i :: 0 <= i < |k.snd.buf| ==> TimeDiff(now, k.snd.buf[i].resendts) < 0
  {
    CheckAhead(cfg, k, current);
    IdleUpdate(cfg, k, current, now);
    hide Check, Update, UpdateMsgs, Off, TimeDiff;
    forall i | 0 <= i < |k.snd.buf|
      ensures TimeDiff(now, k.snd.buf[i].resendts) < 0
    {
      LaterStill(now, current, k.snd.buf[i].resendts);
    }
  }

  /**
   * And no earlier time would do: if the answer is not "now", there is work at that time, or it is a whole
   * interval ahead.
   */
  lemma CheckLatest(cfg: Cfg, k: Pcb, current: u32)
    requires cfg.Ok() && Check(cfg, k, current) != current
    ensures var t := Check(cfg, k, current); WorkDue(k, t) || Off(t, current) == cfg.interval
  {
    CheckAhead(cfg, k, current);
    NextResendIs(k.snd.buf, current, TWO31 - 1);
    NextResendMin(k.snd.buf, current, TWO31 - 1);
    CheckIs(cfg, k, current);
    hide Check, NextResend, FlushDue;
    var n := NextResend(k.snd.buf, current, TWO31 - 1);
    var d := Off(Check(cfg, k, current), current);
    if d == n < TWO31 - 1 {
      var i :| 0 <= i < |k.snd.buf| && TimeDiff(k.snd.buf[i].resendts, current) == n;
      Reached(k.snd.buf[i].resendts, current, Check(cfg, k, current));
    } else if d == TimeDiff(k.tsFlush, current) {
      Reached(k.tsFlush, current, Check(cfg, k, current));
      DueThen(k, k.tsFlush);
    }
  }

  lemma Reached(t: u32, current: u32, now: u32)
    requires TimeDiff(t, current) == Off(now, current)
    ensures t == now && TimeDiff(t, now) == 0
  {
  }

  lemma DueThen(k: Pcb, now: u32)
    requires now == k.tsFlush
    ensures FlushDue(k, now)
  {
  }

  lemma CheckIs(cfg: Cfg, k: Pcb, current: u32)
    requires cfg.Ok() && Check(cfg, k, current) != current
    ensures var n := NextResend(k.snd.buf, current, TWO31 - 1);
      var d := Off(Check(cfg, k, current), current);
      (d == n < TWO31 - 1) || d == TimeDiff(k.tsFlush, current) || d == cfg.interval
  {
    NextResendMin(k.snd.buf, current, TWO31 - 1);
    hide NextResend;
  }

  lemma {:induction false} NextResendIs(buf: seq<Seg>, current: u32, limit: int)
    requires limit > 0
    ensures var n := NextResend(buf, current, limit);
      n == 0 || n == limit || exists i :: 0 <= i < |buf| && TimeDiff(buf[i].resendts, current) == n
  {
    if buf != [] && TimeDiff(buf[0].resendts, current) > 0 {
      var l := Min(TimeDiff(buf[0].resendts, current), limit);
      NextResendIs(buf[1..], current, l);
      if l == TimeDiff(buf[0].resendts, current) && NextResend(buf[1..], current, l) == l {
        assert TimeDiff(buf[0].resendts, current) == NextResend(buf, current, limit);
      }
    }
  }

  lemma CheckAhead(cfg: Cfg, k: Pcb, current: u32)
    requires cfg.Ok() && Check(cfg, k, current) != current
    ensures var d := Off(Check(cfg, k, current), current);
      && k.updated && 0 < d <= cfg.interval
      && d <= TimeDiff(k.tsFlush, current) <= 10000
      && forall i :: 0 <= i < |k.snd.buf| ==> d <= TimeDiff(k.snd.buf[i].resendts, current)
  {
    NextResendMin(k.snd.buf, current, TWO31 - 1);
    hide NextResend;
  }

  lemma IdleUpdate(cfg: Cfg, k: Pcb, current: u32, now: u32)
    requires cfg.Ok() && k.updated && Off(now, current) < TimeDiff(k.tsFlush, current) <= 10000
    ensures Update(cfg, k, now) == k.(current := now) && UpdateMsgs(cfg, k, now) == []
  {
    hide Flush, FlushMsgs;
  }

  lemma LaterStill(now: u32, current: u32, t: u32)
    requires Off(now, current) < TimeDiff(t, current)
    ensures TimeDiff(now, t) < 0
  {
  }

  /** The timeout a segment gets in this flush, if it is sent, lies ahead on the 32-bit clock. */
  predicate TimerFits(r: Round, s: Seg) {
    match Due(r, s)
    case Timeout => 0 < Backoff(r, s.rto) <= TWO31 && s.xmit < TWO32 - 1
    case Fast => 0 < s.rto <= TWO31 && s.xmit < TWO32 - 1
    case _ => true
  }

  predicate NotOverdue(current: u32, s: Seg) {
    s.xmit >= 1 && TimeDiff(current, s.resendts) < 0
  }

  lemma ResentNotOverdue(r: Round, s: Seg)
    requires 30 <= r.rto <= 60000 && r.rtomin <= r.rto
    ensures NotOverdue(r.current, Resent(r, s)) <==> TimerFits(r, s)
  {
  }

  /**
   * After a flush every buffered segment has been sent at least once and none is overdue, exactly if no
   * timeout set in it exceeds half the clock.
   */
  lemma FlushedNotOverdue(cfg: Cfg, k: Pcb)
    requires cfg.Ok() && k.updated && RtoOk(k)
    ensures (forall s :: s in Flush(cfg, k).snd.buf ==> NotOverdue(k.current, s))
       <==> (forall s :: s in FilledSnd(cfg, k).buf ==> TimerFits(RoundOf(cfg, k), s))
  {
    hide FilledSnd, AfterFlush, Due, Resent, NotOverdue, TimerFits;
    var r, f := RoundOf(cfg, k), FilledSnd(cfg, k);
    var b := Flush(cfg, k).snd.buf;
    forall i | 0 <= i < |b|
      ensures NotOverdue(k.current, b[i]) <==> TimerFits(r, f.buf[i])
    {
      ResentNotOverdue(r, f.buf[i]);
    }
    SameMembers(b, f.buf, r, k.current);
  }

  lemma SameMembers(b: seq<Seg>, c: seq<Seg>, r: Round, current: u32)
    requires |b| == |c| && forall i :: 0 <= i < |b| ==> (NotOverdue(current, b[i]) <==> TimerFits(r, c[i]))
    ensures (forall s :: s in b ==> NotOverdue(current, s)) <==> (forall s :: s in c ==> TimerFits(r, s))
  {
    hide NotOverdue, TimerFits;
    if forall s :: s in b ==> NotOverdue(current, s) {
      forall s | s in c
        ensures TimerFits(r, s)
      {
        var i :| 0 <= i < |c| && c[i] == s;
        assert b[i] in b;
      }
    } else {
      var s :| s in b && !NotOverdue(current, s);
      var i :| 0 <= i < |b| && b[i] == s;
      assert c[i] in c;
    }
  }

  /** Timeouts below 2^30 always fit: none is more than doubled. */
  lemma SmallTimersFit(r: Round, s: Seg)
    requires 30 <= r.rto <= 60000 && 0 < s.rto < 0x4000_0000 && s.xmit < TWO32 - 1
    ensures TimerFits(r, s)
  {
  }
}
