// A closed window: the sender keeps asking for it, and an answer opens it again.
module KcpProbe {
  import opened Word
  import opened Wire
  import opened KcpSpec
  import opened KcpLocal
  import opened KcpLink
  import opened KcpFrag
  import opened KcpProgress
  import opened KcpTiming
  import opened KcpAlone

  /** What looking at the probe timer means; while the window is closed its waits never get shorter. */
  lemma ProbeBounds(p: Probe, rmtWnd: u32, current: u32)
    requires WaitOk(p)
    ensures var q := ProbeWindow(p, rmtWnd, current);
      && WaitOk(q) && Probed(p, q, rmtWnd, current)
      && (q.ts != p.ts && rmtWnd == 0 ==> TimeDiff(q.ts, current) == q.wait >= p.wait)
      && (q.ts == p.ts && rmtWnd == 0 && p.wait != 0 ==> q.wait >= p.wait)
    ensures var q := ProbeWindow(p, rmtWnd, current);
      rmtWnd == 0 ==>
        if p.wait == 0 then q.wait == 7000 && q.ts == Add(current, 7000)
        else if TimeDiff(current, p.ts) < 0 then q == p
        else q.ts == Add(current, q.wait) && (0 <= 3 * p.wait - 2 * q.wait < 2 || 3 * p.wait > 2 * q.wait == 240000)
  {
    if p.wait != 0 {
      LongerWait(p.wait);
      TimerAhead(current, Min(W(Max(p.wait, PROBE_INIT) + Max(p.wait, PROBE_INIT) / 2), PROBE_LIMIT));
    } else {
      TimerAhead(current, PROBE_INIT);
    }
    hide W, TimeDiff, Add;
  }

  lemma LongerWait(wait: u32)
    requires PROBE_INIT <= wait <= PROBE_LIMIT
    ensures wait <= Min(W(wait + wait / 2), PROBE_LIMIT)
  {
  }

  lemma TimerAhead(current: u32, wait: u32)
    requires wait < TWO31
    ensures TimeDiff(Add(current, wait), current) == wait
  {
  }

  predicate Asks(ms: seq<Msg>) {
    exists m :: m in ms && m.cmd == 83
  }

  predicate Tells(ms: seq<Msg>) {
    exists m :: m in ms && m.cmd == 84
  }

  lemma {:induction false} PushOnly(r: Round, buf: seq<Seg>)
    ensures forall m :: m in PushMsgs(r, buf) ==> m.cmd == CMD_PUSH && m.wnd == r.wnd % TWO16
  {
    if buf != [] {
      PushOnly(r, buf[1..]);
    }
  }

  /**
   * A flush asks for the window, or tells its own, exactly if the flags say so; all it says carries the free
   * window.
   */
  lemma FlushAsks(cfg: Cfg, k: Pcb)
    requires cfg.Ok() && k.updated
    ensures Asks(FlushMsgs(cfg, k)) <==> ProbeWindow(k.probe, k.cong.rmtWnd, k.current).askSend
    ensures Tells(FlushMsgs(cfg, k)) <==> k.probe.askTell
    ensures forall m :: m in FlushMsgs(cfg, k) ==> m.wnd == WndUnused(cfg, k.rcv) % TWO16
    ensures KcpSpec.Flush(cfg, k).probe == ProbeWindow(k.probe, k.cong.rmtWnd, k.current).(askSend := false,
              askTell := false)
  {
    hide FilledSnd, PushMsgs, ResendBuf, AfterFlush;
    var r, buf := RoundOf(cfg, k), FilledSnd(cfg, k).buf;
    PushOnly(r, buf);
    var p := ProbeWindow(k.probe, k.cong.rmtWnd, k.current);
    var acks, probes := AckMsgs(cfg, k.rcv), ProbeMsgs(cfg, k.rcv, p);
    assert forall m :: m in FlushMsgs(cfg, k) <==> m in acks || m in probes || m in PushMsgs(r, buf);
    assert p.askSend ==> probes[0].cmd == CMD_WASK;
    assert p.askTell ==> probes[|probes| - 1].cmd == CMD_WINS;
  }

  // ---------- asking ----------

  /** The timer was set at time b, and by time t has not run out. */
  predicate Armed(p: Probe, b: int, t: int) {
    && PROBE_INIT <= p.wait <= PROBE_LIMIT && !p.askSend
    && p.ts == W(b + p.wait) && b <= t < b + p.wait
  }

  /** The probe fields after a flush while the window is closed; askTell may be set again before the next one. */
  function Asked(p: Probe, current: u32): Probe {
    ProbeWindow(p, 0, current).(askSend := false, askTell := false)
  }

  /** A flush at a later time asks if the timer has run out by then, and sets it anew; otherwise it goes on. */
  lemma ArmedStep(p: Probe, b: int, t: int, now: int)
    requires Armed(p, b, t) && t <= now < t + TWO31
    ensures ProbeWindow(p, 0, W(now)).askSend <==> now >= b + p.wait
    ensures now >= b + p.wait ==> Armed(Asked(p, W(now)), now, now)
    ensures now < b + p.wait ==> Armed(Asked(p, W(now)), b, now) && Asked(p, W(now)).wait == p.wait
  {
    WordDiff(now, b + p.wait);
    var w: u32 := Min(p.wait + p.wait / 2, PROBE_LIMIT);
    WordAdd(now, w);
    hide W;
  }

  lemma ArmedFirst(p: Probe, now: int)
    requires p.wait == 0 && !p.askSend
    ensures Armed(Asked(p, W(now)), now, now)
  {
    WordAdd(now, PROBE_INIT);
    hide W;
  }

  /**
   * Calls and the times of the endpoint's clock after each: an update sets it, to a time less than 2^30
   * milliseconds ahead, and no other call does.
   */
  predicate Clocked(calls: seq<Call>, times: seq<int>) {
    && |times| == |calls|
    && (forall i :: 0 <= i < |calls| && calls[i].Updating? ==> calls[i].now == W(times[i]))
    && (forall i :: 0 < i < |calls| ==>
          times[i - 1] <= times[i] < times[i - 1] + TWO30 && (times[i] == times[i - 1] || calls[i].Updating?))
  }

  /** Whether a call flushes. */
  predicate Flushes(k: Pcb, c: Call) {
    match c
    case Flushing => k.updated
    case Updating(now) => FlushDue(k, now)
    case _ => false
  }

  /** What a call flushes. */
  function CallMsgs(cfg: Cfg, k: Pcb, c: Call): seq<Msg>
    requires cfg.Ok()
  {
    match c
    case Flushing => FlushMsgs(cfg, k)
    case Updating(now) => UpdateMsgs(cfg, k, now)
    case _ => []
  }

  /** The control block that call i finds. */
  function Before(cfg: Cfg, calls: seq<Call>, i: nat): Pcb
    requires cfg.Ok() && i <= |calls|
  {
    After(cfg, calls[..i])
  }

  lemma BeforeNext(cfg: Cfg, calls: seq<Call>, i: nat)
    requires cfg.Ok() && i < |calls|
    ensures Before(cfg, calls, i + 1) == Do(cfg, Before(cfg, calls, i), calls[i])
  {
    assert calls[..i + 1][..i] == calls[..i];
  }

  /** Flushed last at time t, at time u with the next flush due at x, and the probe timer, if any, set at b. */
  predicate Scheduled(k: Pcb, t: int, u: int, x: int, b: int) {
    && k.updated && k.current == W(u) && k.tsFlush == W(x) && t <= u < x <= t + 5000
    && !k.probe.askSend && (k.probe.wait == 0 || Armed(k.probe, b, t))
  }

  lemma {:induction false} InputQuiet(cfg: Cfg, k: Pcb, ms: seq<Msg>)
    ensures var k' := InputMsgs(cfg, k, ms);
      && k'.probe == k.probe.(askTell := k'.probe.askTell)
      && k'.current == k.current && k'.tsFlush == k.tsFlush && k'.updated == k.updated
    decreases |ms|
  {
    hide InputSnd, InputRcv, UpdateAck;
    if ms != [] {
      InputQuiet(cfg, InputMsg(cfg, k, ms[0]), ms[1..]);
    }
  }

  /** A call that does not flush leaves the probe timer alone, and all but an update the clock and the schedule. */
  lemma QuietCall(cfg: Cfg, k: Pcb, c: Call)
    requires cfg.Ok() && !Flushes(k, c)
    ensures var k' := Do(cfg, k, c);
      && k'.probe == k.probe.(askTell := k'.probe.askTell)
      && (!c.Updating? ==> k'.current == k.current && k'.tsFlush == k.tsFlush && k'.updated == k.updated)
  {
    hide InputMsgs, Parse, BumpFastack, Grow, RoundOf, FilledSnd, ResendBuf, AfterFlush, SendQueue, Drain, PeekSize,
      FirstMessage, Bytes;
    if c.Arriving? {
      InputQuiet(cfg, k, Parse(cfg.conv, c.bytes).ms);
    }
  }

  /** An update at time v flushes exactly if the flush is due by then; the next one is due within an interval. */
  lemma UpdateSchedule(cfg: Cfg, k: Pcb, t: int, u: int, x: int, v: int) returns (y: int)
    requires cfg.Ok() && (k.updated ==> k.tsFlush == W(x) && t <= u < x <= t + 5000 && u <= v < u + TWO30)
    ensures FlushDue(k, W(v)) <==> !k.updated || v >= x
    ensures !FlushDue(k, W(v)) ==> Tick(cfg, k, W(v)) == k.(current := W(v))
    ensures FlushDue(k, W(v)) ==> Tick(cfg, k, W(v)) == k.(current := W(v), updated := true, tsFlush := W(y))
    ensures FlushDue(k, W(v)) ==> v < y <= v + 5000
    ensures FlushDue(k, W(v)) ==>
      y == if k.updated && v < x + cfg.interval then x + cfg.interval else v + cfg.interval
  {
    var base := if !k.updated || v - x >= 10000 then v else x;
    y := if k.updated && v < x + cfg.interval then x + cfg.interval else v + cfg.interval;
    WordDiff(v, v);
    hide W, TimeDiff, Add;
    if k.updated {
      WordDiff(v, x);
    }
    assert FlushBase(k, W(v)) == W(base);
    if base <= v {
      WordDiff(v, base);
      WordDiff(v, base + cfg.interval);
      WordNext(base, cfg.interval);
      WordNext(v, cfg.interval);
    }
  }

  lemma WordNext(x: int, d: u32)
    ensures Add(W(x), d) == W(x + d)
  {
    WordAdd(x, d);
    hide W;
  }

  /** One call: a flush with a closed window asks exactly if the probe timer has run out by then. */
  lemma CallStep(cfg: Cfg, k: Pcb, c: Call, t: int, u: int, x: int, b: int, v: int)
      returns (t': int, x': int, b': int)
    requires cfg.Ok() && (c.Updating? ==> c.now == W(v))
    requires if k.updated then Scheduled(k, t, u, x, b) && u <= v < u + TWO30 && (v == u || c.Updating?)
             else k.probe.wait == 0 && !k.probe.askSend
    ensures var k' := Do(cfg, k, c);
      if k'.updated then Scheduled(k', t', v, x', b') else k'.probe.wait == 0 && !k'.probe.askSend
    ensures var k' := Do(cfg, k, c);
      Flushes(k, c) ==> t' == v && (k.cong.rmtWnd == 0 ==> k'.probe.wait != 0)
    ensures var k' := Do(cfg, k, c);
      !Asks(CallMsgs(cfg, k, c)) && k.probe.wait != 0 && k.updated && (Flushes(k, c) ==> k.cong.rmtWnd == 0) ==>
        b' == b && k'.probe.wait == k.probe.wait && (Flushes(k, c) ==> v < b + k.probe.wait)
  {
    hide W, KcpSpec.Flush, FlushMsgs, Asks, FlushDue, Tick;
    t', x', b' := t, x, b;
    var k1 := k;
    if c.Updating? {
      x' := UpdateSchedule(cfg, k, t, u, x, v);
      k1 := Tick(cfg, k, c.now);
    }
    if Flushes(k, c) {
      t' := v;
      FlushAsks(cfg, k1);
      FlushKeepsClock(cfg, k1);
      if k.cong.rmtWnd == 0 {
        if k.probe.wait == 0 {
          ArmedFirst(k.probe, v);
          b' := v;
        } else {
          ArmedStep(k.probe, b, t, v);
          b' := if v >= b + k.probe.wait then v else b;
        }
      }
      x' := if c.Updating? then x' else x;
    } else {
      QuietCall(cfg, k, c);
      x' := x;
    }
  }

  lemma FlushKeepsClock(cfg: Cfg, k: Pcb)
    requires cfg.Ok()
    ensures var f := KcpSpec.Flush(cfg, k); f.current == k.current && f.tsFlush == k.tsFlush && f.updated == k.updated
  {
  }

  /** After any calls there is a schedule, and the probe timer is set or not needed. */
  lemma {:induction false} AlwaysScheduled(cfg: Cfg, calls: seq<Call>, times: seq<int>, i: nat)
      returns (t: int, x: int, b: int)
    requires cfg.Ok() && Clocked(calls, times) && i <= |calls|
    ensures var k := Before(cfg, calls, i);
      if k.updated then i > 0 && Scheduled(k, t, times[i - 1], x, b) else k.probe.wait == 0 && !k.probe.askSend
    ensures var k := Before(cfg, calls, i);
      i > 0 && Flushes(Before(cfg, calls, i - 1), calls[i - 1]) ==>
        t == times[i - 1] && (Before(cfg, calls, i - 1).cong.rmtWnd == 0 ==> k.probe.wait != 0)
  {
    hide Do, Scheduled, Flushes;
    t, x, b := 0, 0, 0;
    if i > 0 {
      t, x, b := AlwaysScheduled(cfg, calls, times, i - 1);
      BeforeNext(cfg, calls, i - 1);
      t, x, b := CallStep(cfg, Before(cfg, calls, i - 1), calls[i - 1], t, if i > 1 then times[i - 2] else 0, x, b,
                          times[i - 1]);
    }
  }

  /** No flush from call i up to call j has found the window open. */
  predicate WindowClosed(cfg: Cfg, calls: seq<Call>, i: nat, j: nat)
    requires cfg.Ok() && j < |calls|
  {
    forall m :: i <= m <= j && Flushes(Before(cfg, calls, m), calls[m]) ==> Before(cfg, calls, m).cong.rmtWnd == 0
  }

  /** Since call i, which set the timer at b, none before call j has asked, and the timer runs on. */
  lemma {:induction false} StillArmed(cfg: Cfg, calls: seq<Call>, times: seq<int>, i: nat, j: nat, t0: int, x0: int,
                                      b: int)
      returns (t: int, x: int)
    requires cfg.Ok() && Clocked(calls, times) && i < j < |calls| && WindowClosed(cfg, calls, i, j)
    requires Scheduled(Before(cfg, calls, i + 1), t0, times[i], x0, b) && Before(cfg, calls, i + 1).probe.wait != 0
    requires forall m :: i < m < j ==> !Asks(CallMsgs(cfg, Before(cfg, calls, m), calls[m]))
    ensures Scheduled(Before(cfg, calls, j), t, times[j - 1], x, b)
    ensures Before(cfg, calls, j).probe.wait == Before(cfg, calls, i + 1).probe.wait
  {
    hide Do, Flushes, CallMsgs, Asks, Armed, Before, W;
    t, x := t0, x0;
    if i + 1 < j {
      t, x := StillArmed(cfg, calls, times, i, j - 1, t0, x0, b);
      BeforeNext(cfg, calls, j - 1);
      var k := Before(cfg, calls, j - 1);
      assert !Asks(CallMsgs(cfg, k, calls[j - 1]));
      var b': int;
      t, x, b' := CallStep(cfg, k, calls[j - 1], t, times[j - 2], x, b, times[j - 1]);
    }
  }

  /**
   * Whatever is called, while the peer's window stays closed, of any two flushes two minutes or more apart
   * one after the first, up to the second, asks for it.
   */
  lemma ProbesKeepComing(cfg: Cfg, calls: seq<Call>, times: seq<int>, i: nat, j: nat)
    requires cfg.Ok() && Clocked(calls, times) && i < j < |calls| && WindowClosed(cfg, calls, i, j)
    requires Flushes(Before(cfg, calls, i), calls[i]) && Flushes(Before(cfg, calls, j), calls[j])
    requires times[j] - times[i] >= 120000
    ensures exists m :: i < m <= j && Asks(CallMsgs(cfg, Before(cfg, calls, m), calls[m]))
  {
    hide Do, Flushes, CallMsgs, Asks, Before, W;
    var t, x, b := AlwaysScheduled(cfg, calls, times, i + 1);
    BeforeNext(cfg, calls, i);
    FlushUpdates(cfg, Before(cfg, calls, i), calls[i]);
    if forall m :: i < m <= j ==> !Asks(CallMsgs(cfg, Before(cfg, calls, m), calls[m])) {
      t, x := StillArmed(cfg, calls, times, i, j, t, x, b);
      var t', x', b' := CallStep(cfg, Before(cfg, calls, j), calls[j], t, times[j - 1], x, b, times[j]);
    }
  }

  lemma FlushUpdates(cfg: Cfg, k: Pcb, c: Call)
    requires cfg.Ok() && Flushes(k, c)
    ensures Do(cfg, k, c).updated
  {
    hide FilledSnd, ResendBuf, AfterFlush;
  }

  // ---------- telling ----------

  lemma {:induction false} AskTellStays(cfg: Cfg, k: Pcb, ms: seq<Msg>)
    ensures InputMsgs(cfg, k, ms).probe.askTell <==> k.probe.askTell || Asks(ms)
    decreases |ms|
  {
    hide InputSnd, InputRcv, UpdateAck;
    if ms != [] {
      AskTellStays(cfg, InputMsg(cfg, k, ms[0]), ms[1..]);
      assert forall m :: m in ms <==> m == ms[0] || m in ms[1..];
    }
  }

  /** Whoever takes in a datagram that asks for the window is to tell it in its next flush. */
  lemma AskIsHeard(cfg: Cfg, k: Pcb, bytes: seq<u8>)
    requires cfg.Ok() && Asks(Parse(cfg.conv, bytes).ms)
    ensures KcpSpec.Input(cfg, k, bytes).k.probe.askTell
  {
    hide InputMsgs, BumpFastack, Grow;
    AskTellStays(cfg, k, Parse(cfg.conv, bytes).ms);
  }

  lemma {:induction false} LastWindow(cfg: Cfg, k: Pcb, ms: seq<Msg>, wnd: u16)
    requires ms != [] && forall m :: m in ms ==> m.wnd == wnd
    ensures InputMsgs(cfg, k, ms).cong.rmtWnd == wnd
    decreases |ms|
  {
    hide InputSnd, InputRcv, UpdateAck;
    if |ms| > 1 {
      LastWindow(cfg, InputMsg(cfg, k, ms[0]), ms[1..], wnd);
    }
  }

  /** Such a flush puts out at least one datagram. */
  lemma TellIsSent(cfg: Cfg, k: Pcb)
    requires cfg.Ok() && k.updated && k.probe.askTell
    requires SndOk(k.snd, cfg.sndWnd) && SegsShort(cfg.Mss(), k.snd.buf) && Short(cfg.Mss(), k.snd.queue)
    ensures Datagrams(cfg, k) != []
  {
    hide Datagrams, FlushMsgs, SndOk;
    FlushFraming(cfg, k);
    FlushAsks(cfg, k);
  }

  /**
   * Any one of its datagrams gives the asker the free window of the one who tells, modulo 65536: the window
   * is open again if there is room, and not for 65536 segments or more.
   */
  lemma WindowReopens(cb: Cfg, b: Pcb, ca: Cfg, a: Pcb, p: seq<Msg>)
    requires cb.Ok() && ca.Ok() && ca.conv == cb.conv && b.updated && b.probe.askTell
    requires SndOk(b.snd, cb.sndWnd) && SegsShort(cb.Mss(), b.snd.buf) && Short(cb.Mss(), b.snd.queue)
    requires p in Datagrams(cb, b)
    ensures Encodable(p)
    ensures KcpSpec.Input(ca, a, EncodeAll(p)).k.cong.rmtWnd == WndUnused(cb, b.rcv) % TWO16
    ensures 0 < WndUnused(cb, b.rcv) < TWO16 ==> KcpSpec.Input(ca, a, EncodeAll(p)).k.cong.rmtWnd > 0
  {
    hide Datagrams, FlushMsgs, Parse, InputMsgs, BumpFastack, Grow, SndOk, WndUnused;
    FlushFraming(cb, b);
    FlushAsks(cb, b);
    EncodeSize(p);
    forall m | m in p
      ensures m.wnd == WndUnused(cb, b.rcv) % TWO16
    {
      InFlat(Datagrams(cb, b), p, m);
    }
    LastWindow(ca, a, p, WndUnused(cb, b.rcv) % TWO16);
    GrowKeepsRmt(ca.Mss(), InputMsgs(ca, a, p).cong);
  }
}
