// When updates flush: the beat of an endpoint whose clock goes forward.
module KcpCadence {
  import opened Word
  import opened KcpSpec
  import opened KcpLink
  import opened KcpTiming
  import opened KcpAlone
  import opened KcpProbe

  /** A flush is due unless there is a schedule and its next flush is 1 to 10000 milliseconds ahead. */
  lemma DueExactly(k: Pcb, now: u32)
    ensures FlushDue(k, now) <==> !(k.updated && 1 <= Off(k.tsFlush, now) <= 10000)
  {
  }

  /** The updates among the first n calls that flush. */
  function Beats(cfg: Cfg, calls: seq<Call>, n: nat): nat
    requires cfg.Ok() && n <= |calls|
  {
    if n == 0 then 0
    else Beats(cfg, calls, n - 1)
         + if calls[n - 1].Updating? && FlushDue(Before(cfg, calls, n - 1), calls[n - 1].now) then 1 else 0
  }

  /** Each call comes less than an interval after the one before it. */
  predicate Frequent(cfg: Cfg, times: seq<int>, n: nat)
    requires n <= |times|
  {
    forall m :: 0 < m < n ==> times[m] < times[m - 1] + cfg.interval
  }

  /** The next flush is due at time x, after c flushes that began at t, the clock being at u. */
  predicate OnBeat(cfg: Cfg, k: Pcb, t: int, c: nat, u: int, x: int, frequent: bool) {
    && k.updated && k.tsFlush == W(x) && c >= 1
    && t + (c - 1) * cfg.interval <= u < x <= u + 5000 && x >= t + c * cfg.interval
    && (frequent ==> x == t + c * cfg.interval)
  }

  lemma BeatStep(cfg: Cfg, k: Pcb, c: Call, t: int, n: nat, u: int, x: int, v: int, frequent: bool)
      returns (x': int)
    requires cfg.Ok() && OnBeat(cfg, k, t, n, u, x, frequent)
    requires u <= v < u + TWO30 && (if c.Updating? then c.now == W(v) else v == u)
    requires frequent ==> v < u + cfg.interval
    ensures var due := c.Updating? && FlushDue(k, c.now);
      OnBeat(cfg, Do(cfg, k, c), t, if due then n + 1 else n, v, x', frequent)
  {
    hide Do, W, FlushDue;
    x' := x;
    if c.Updating? {
      var y := UpdateSchedule(cfg, k, u, u, x, v);
      UpdateClock(cfg, k, c.now);
      if FlushDue(k, c.now) {
        x' := y;
        assert (n + 1) * cfg.interval == n * cfg.interval + cfg.interval;
        assert (n + 1 - 1) * cfg.interval == n * cfg.interval;
      }
    } else {
      OtherClock(cfg, k, c);
    }
  }

  lemma UpdateClock(cfg: Cfg, k: Pcb, now: u32)
    requires cfg.Ok()
    ensures var r := Do(cfg, k, Updating(now)); r.tsFlush == Tick(cfg, k, now).tsFlush && r.updated
  {
    FlushKeepsClock(cfg, Tick(cfg, k, now));
    hide KcpSpec.Flush, FlushDue;
  }

  lemma OtherClock(cfg: Cfg, k: Pcb, c: Call)
    requires cfg.Ok() && !c.Updating?
    ensures Do(cfg, k, c).tsFlush == k.tsFlush && Do(cfg, k, c).updated == k.updated
  {
    hide KcpSpec.Flush, Do, Flushes;
    if Flushes(k, c) {
      FlushingClock(cfg, k, c);
    } else {
      QuietCall(cfg, k, c);
    }
  }

  lemma FlushingClock(cfg: Cfg, k: Pcb, c: Call)
    requires cfg.Ok() && !c.Updating? && Flushes(k, c)
    ensures Do(cfg, k, c).tsFlush == k.tsFlush && Do(cfg, k, c).updated == k.updated
  {
    FlushKeepsClock(cfg, k);
    hide KcpSpec.Flush;
  }

  /** The first update flushes, and the next flush is due an interval later. */
  lemma FirstBeat(cfg: Cfg, c: Call, v: int)
    requires cfg.Ok() && c.Updating? && c.now == W(v)
    ensures FlushDue(Create(), c.now) && OnBeat(cfg, Do(cfg, Create(), c), v, 1, v, v + cfg.interval, true)
  {
    hide Do, W, FlushDue;
    var y := UpdateSchedule(cfg, Create(), v, v, v, v);
    UpdateClock(cfg, Create(), c.now);
  }

  lemma {:induction false} BeatAfter(cfg: Cfg, calls: seq<Call>, times: seq<int>, n: nat) returns (x: int)
    requires cfg.Ok() && Clocked(calls, times) && 1 <= n <= |calls| && calls[0].Updating?
    ensures OnBeat(cfg, Before(cfg, calls, n), times[0], Beats(cfg, calls, n), times[n - 1], x, Frequent(cfg, times, n))
  {
    hide Do, OnBeat, W, FlushDue;
    BeforeNext(cfg, calls, n - 1);
    if n == 1 {
      FirstBeat(cfg, calls[0], times[0]);
      x := times[0] + cfg.interval;
      FrequentStart(cfg, times);
    } else {
      x := BeatAfter(cfg, calls, times, n - 1);
      assert Frequent(cfg, times, n) ==> Frequent(cfg, times, n - 1);
      Weaken(cfg, Before(cfg, calls, n - 1), times[0], Beats(cfg, calls, n - 1), times[n - 2], x,
             Frequent(cfg, times, n - 1), Frequent(cfg, times, n));
      x := BeatStep(cfg, Before(cfg, calls, n - 1), calls[n - 1], times[0], Beats(cfg, calls, n - 1), times[n - 2], x,
                    times[n - 1], Frequent(cfg, times, n));
    }
  }

  lemma FrequentStart(cfg: Cfg, times: seq<int>)
    requires |times| >= 1
    ensures Frequent(cfg, times, 1)
  {
  }

  lemma Weaken(cfg: Cfg, k: Pcb, t: int, c: nat, u: int, x: int, was: bool, now: bool)
    requires OnBeat(cfg, k, t, c, u, x, was) && (now ==> was)
    ensures OnBeat(cfg, k, t, c, u, x, now)
  {
  }

  /**
   * Counting from the first update, no more updates flush than intervals have begun; if every call comes less than
   * an interval after the one before it exactly as many do, without drift.
   */
  lemma FlushesOnBeat(cfg: Cfg, calls: seq<Call>, times: seq<int>, n: nat)
    requires cfg.Ok() && Clocked(calls, times) && 1 <= n <= |calls| && calls[0].Updating?
    ensures var passed := times[n - 1] - times[0];
      && Beats(cfg, calls, n) <= passed / cfg.interval + 1
      && (Frequent(cfg, times, n) ==> Beats(cfg, calls, n) == passed / cfg.interval + 1)
  {
    hide Do, W, FlushDue, Before, Frequent;
    var x := BeatAfter(cfg, calls, times, n);
    Quotients(cfg.interval, times[n - 1] - times[0], Beats(cfg, calls, n));
  }

  lemma Quotients(d: int, p: int, c: int)
    requires d > 0 && c >= 1
    ensures p >= (c - 1) * d ==> c <= p / d + 1
    ensures (c - 1) * d <= p < c * d ==> c == p / d + 1
  {
    if p >= (c - 1) * d {
      MulNonNeg(c - 1, d);
      Quotient(p, d, p / d);
      if p / d < c - 1 {
        MulMono(p / d + 1, c - 1, d);
      }
      if p < c * d && p / d >= c {
        MulMono(c, p / d, d);
      }
    }
  }
}
