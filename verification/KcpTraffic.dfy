// What two endpoints send each other in every run: how much is in flight, and what each round-trip sample measures.
module KcpTraffic {
  import opened Word
  import opened Wire
  import opened KcpSpec
  import opened KcpLocal
  import opened KcpLink
  import opened KcpFrag
  import opened KcpSystem
  import opened KcpRuns
  import opened KcpProgress
  import opened KcpExchange
  import KcpProbe
  import KcpResend
  import KcpWindow

  // ---------- the windows ----------

  /**
   * Every run, in unbounded numbers: a flush numbers fragments as long as those in flight are within the own
   * window, the peer's and, if it is on, the congestion window, and leaves fragments queued only if they fill one
   * of these.
   */
  lemma RunNumbers(states: seq<Sys>, steps: seq<Step>, i: nat)
    requires RunBy(states, steps) && i < |steps| && steps[i].AtA? && Flushes(states[i], steps[i].act)
    ensures var s, r := states[i], states[i + 1]; var n := |r.a.log| - r.a.u;
      && r.a.u == s.a.u
      && (|r.a.log| > |s.a.log| ==> KcpWindow.Within(s.ca, s.a.k.cong, n))
      && (r.a.k.snd.queue != [] ==> KcpWindow.Fills(s.ca, s.a.k.cong, n))
  {
    hide Inv, Init, StepA, EnabledA, Flushes, Goes, KcpWindow.Within, KcpWindow.Fills;
    RunByInv(states, steps, i);
    RunByInv(states, steps, i + 1);
    assert Goes(states[i], steps[i], states[i + 1]);
    StepAtA(states[i], steps[i], states[i + 1]);
    FlushCounted(states[i], steps[i].act, states[i + 1]);
  }

  lemma FlushCounted(s: Sys, act: Action, r: Sys)
    requires Inv(s) && Inv(r) && EnabledA(s, act) && Flushes(s, act) && r == StepA(s, act)
    ensures var n := |r.a.log| - r.a.u;
      && r.a.u == s.a.u
      && (|r.a.log| > |s.a.log| ==> KcpWindow.Within(s.ca, s.a.k.cong, n))
      && (r.a.k.snd.queue != [] ==> KcpWindow.Fills(s.ca, s.a.k.cong, n))
  {
    hide *;
    InvOff(s);
    InvOff(r);
    FlushedEnd(s, act);
    TickedEnd(s, act);
    EndCounted(s.ca, Ticked(s, act).a, r.a);
  }

  lemma FlushedEnd(s: Sys, act: Action)
    requires s.ca.Ok() && EnabledA(s, act) && Flushes(s, act)
    ensures StepA(s, act).a == FlushE(s.ca, Ticked(s, act).a) && Ticked(s, act).a.k.updated
  {
    FlushingStep(s, act);
    hide StepA, EnabledA, Flushes, FlushE, FlushTags;
  }

  lemma EndCounted(cfg: Cfg, e: End, r: End)
    requires cfg.Ok() && e.k.updated && SndOk(e.k.snd, cfg.sndWnd) && r == FlushE(cfg, e)
    requires Off(e.k.snd.nxt, e.k.snd.una) == |e.log| - e.u && Off(r.k.snd.nxt, r.k.snd.una) == |r.log| - r.u
    ensures var n := |r.log| - r.u;
      && r.u == e.u
      && (|r.log| > |e.log| ==> KcpWindow.Within(cfg, e.k.cong, n))
      && (r.k.snd.queue != [] ==> KcpWindow.Fills(cfg, e.k.cong, n))
  {
    hide KcpWindow.Within, KcpWindow.Fills, Off, SndOk, Flush, FlushE;
    KcpWindow.FlushNumbers(cfg, e.k);
    FlushLogs(cfg, e);
  }

  lemma FlushLogs(cfg: Cfg, e: End)
    requires cfg.Ok()
    ensures var r := FlushE(cfg, e);
      && r.k == Flush(cfg, e.k) && r.u == e.u
      && (|r.k.snd.queue| <= |e.k.snd.queue| ==> |r.log| == |e.log| + |e.k.snd.queue| - |r.k.snd.queue|)
  {
    hide Flush;
  }

  lemma InvOff(s: Sys)
    requires Inv(s)
    ensures s.ca.Ok() && SndOk(s.a.k.snd, s.ca.sndWnd) && Off(s.a.k.snd.nxt, s.a.k.snd.una) == |s.a.log| - s.a.u
  {
    DirParts(s.ca, s.a, s.cb, s.b, s.ab, s.ba);
    hide Dir, RcvInv, Covered, RecvApp, SendApp;
  }

  lemma TickedEnd(s: Sys, act: Action)
    ensures var e := Ticked(s, act).a;
      e.k.snd == s.a.k.snd && e.k.cong == s.a.k.cong && e.log == s.a.log && e.u == s.a.u
    ensures Ticked(s, act).ca == s.ca
  {
  }

  // ---------- round-trip samples ----------

  /** Data message number x, sent at time ts, is in flight. */
  ghost predicate SentAt(net: set<TMsg>, x: int, ts: u32) {
    exists p :: p in net && Names(p, 81, x) && p.m.ts == ts
  }

  /** Whatever e is about to acknowledge it acknowledges with the time at which that number was sent to it. */
  ghost predicate PendingEcho(e: End, net: set<TMsg>) {
    && |e.acks| == |e.k.rcv.acks|
    && forall i :: 0 <= i < |e.acks| ==> SentAt(net, e.acks[i], e.k.rcv.acks[i].ts)
  }

  /** So do the acknowledgements in flight. */
  ghost predicate FlightEcho(back: set<TMsg>, net: set<TMsg>) {
    forall t :: t in back && t.m.cmd == 82 ==> SentAt(net, t.sn, t.m.ts)
  }

  lemma {:induction false} DrainKeepsAcks(rcv: Rcv, wnd: u32)
    ensures Drain(rcv, wnd).acks == rcv.acks
    decreases |rcv.buf|
  {
    if rcv.buf != [] && rcv.buf[0].sn == rcv.nxt && |rcv.queue| < wnd {
      DrainKeepsAcks(Rcv(Add(rcv.nxt, 1), rcv.queue + [rcv.buf[0].frag], rcv.buf[1..], rcv.acks), wnd);
    }
  }

  /** A data message adds at most its own acknowledgement to those pending; no other message adds any. */
  lemma InputNotes(rcv: Rcv, m: Msg, wnd: u32)
    ensures var r := InputRcv(rcv, m, wnd);
      r.acks == rcv.acks || (m.cmd == 81 && r.acks == rcv.acks + [Ack(m.sn, m.ts)])
  {
    var noted := rcv.(acks := rcv.acks + [Ack(m.sn, m.ts)]);
    DrainKeepsAcks(noted.(buf := Insert(rcv.buf, RSeg(m.sn, m.frag))), wnd);
    hide Drain, Insert, Off, Add;
  }

  lemma InputEcho(cfg: Cfg, e: End, t: TMsg, net: set<TMsg>)
    requires PendingEcho(e, net) && t in net
    ensures PendingEcho(InputE(cfg, e, t), net)
  {
    InputNotes(e.k.rcv, t.m, cfg.rcvWnd);
    hide InputRcv, InputSnd, UpdateAck, Off;
    assert t.m.cmd == 81 ==> SentAt(net, t.sn, t.m.ts);
  }

  lemma {:induction false} InputAllEcho(cfg: Cfg, e: End, ts: seq<TMsg>, net: set<TMsg>)
    requires PendingEcho(e, net) && forall t :: t in ts ==> t in net
    ensures PendingEcho(InputAllE(cfg, e, ts), net)
    decreases |ts|
  {
    hide PendingEcho, InputE;
    if ts != [] {
      InputEcho(cfg, e, ts[0], net);
      InputAllEcho(cfg, InputE(cfg, e, ts[0]), ts[1..], net);
    }
  }

  lemma FlushEcho(cfg: Cfg, e: End, net: set<TMsg>, t: TMsg)
    requires cfg.Ok() && PendingEcho(e, net) && t in FlushTags(cfg, e) && t.m.cmd == 82
    ensures SentAt(net, t.sn, t.m.ts)
  {
    hide FlushMsgs, SentAt, KcpResend.Control, KcpResend.Repeats;
    var i :| 0 <= i < |FlushTags(cfg, e)| && FlushTags(cfg, e)[i] == t;
    if e.k.updated {
      AckControl(cfg, e.k, i);
    } else {
      NothingUnset(cfg, e.k);
    }
  }

  lemma AckControl(cfg: Cfg, k: Pcb, i: nat)
    requires cfg.Ok() && k.updated && i < |FlushMsgs(cfg, k)| && FlushMsgs(cfg, k)[i].cmd == 82
    ensures i < |k.rcv.acks| && FlushMsgs(cfg, k)[i].ts == k.rcv.acks[i].ts
  {
    hide FlushMsgs, KcpResend.Repeats;
    KcpResend.FlushControls(cfg, k);
  }

  lemma NothingUnset(cfg: Cfg, k: Pcb)
    requires cfg.Ok() && !k.updated
    ensures FlushMsgs(cfg, k) == []
  {
  }

  /** The endpoint that acknowledges takes a step: what it and its acknowledgements echo stays true. */
  lemma StepEcho(s: Sys, act: Action)
    requires Inv(s) && EnabledA(s, act) && PendingEcho(s.a, s.ba) && FlightEcho(s.ab, s.ba)
    ensures var r := StepA(s, act); PendingEcho(r.a, r.ba) && FlightEcho(r.ab, r.ba)
  {
    hide *;
    InvOff(s);
    match act
    case Send(buf) => SendEcho(s, buf);
    case Recv(len) => RecvEcho(s, len);
    case FlushNow => FlushNowEcho(s); NowIs(s);
    case Update(current) => UpdateEcho(s, current);
    case Deliver(ts) => DeliverEcho(s, ts);
  }

  lemma NowIs(s: Sys)
    requires s.ca.Ok()
    ensures EnabledA(s, FlushNow) && StepA(s, FlushNow) == FlushA(s)
  {
    hide FlushA;
  }

  lemma SendEcho(s: Sys, buf: seq<u8>)
    requires s.ca.Ok() && PendingEcho(s.a, s.ba) && FlightEcho(s.ab, s.ba)
    ensures var r := StepA(s, Send(buf)); PendingEcho(r.a, r.ba) && FlightEcho(r.ab, r.ba)
  {
    hide SendQueue, SentAt;
  }

  lemma RecvEcho(s: Sys, len: int)
    requires s.ca.Ok() && PendingEcho(s.a, s.ba) && FlightEcho(s.ab, s.ba)
    ensures var r := StepA(s, Recv(len)); PendingEcho(r.a, r.ba) && FlightEcho(r.ab, r.ba)
  {
    RecvAcks(s.ca, s.a.k, len);
    hide KcpSpec.Recv, SentAt;
  }

  lemma RecvAcks(cfg: Cfg, k: Pcb, len: int)
    ensures KcpSpec.Recv(cfg, k, len).k.rcv.acks == k.rcv.acks
  {
    var n := FirstMessage(k.rcv.queue);
    DrainKeepsAcks(k.rcv, cfg.rcvWnd);
    DrainKeepsAcks(k.rcv.(queue := k.rcv.queue[n..]), cfg.rcvWnd);
    hide Drain, PeekSize, FirstMessage, Bytes;
  }

  lemma FlushNowEcho(s: Sys)
    requires s.ca.Ok() && PendingEcho(s.a, s.ba) && FlightEcho(s.ab, s.ba)
    ensures var r := FlushA(s); PendingEcho(r.a, r.ba) && FlightEcho(r.ab, r.ba)
  {
    hide FlushTags, SentAt, FlushMsgs, FilledSnd, AfterFlush;
    forall t | t in FlushTags(s.ca, s.a) && t.m.cmd == 82
      ensures SentAt(s.ba, t.sn, t.m.ts)
    {
      FlushEcho(s.ca, s.a, s.ba, t);
    }
  }

  lemma UpdateEcho(s: Sys, current: u32)
    requires s.ca.Ok() && PendingEcho(s.a, s.ba) && FlightEcho(s.ab, s.ba)
    ensures var r := StepA(s, Update(current)); PendingEcho(r.a, r.ba) && FlightEcho(r.ab, r.ba)
  {
    TickData(s.ca, s.a.k, current);
    hide FlushA, SentAt, Tick;
    FlushNowEcho(s.(a := TickE(s.ca, s.a, current)));
  }

  lemma DeliverEcho(s: Sys, ts: seq<TMsg>)
    requires Inv(s) && EnabledA(s, Deliver(ts)) && PendingEcho(s.a, s.ba) && FlightEcho(s.ab, s.ba)
    ensures var r := StepA(s, Deliver(ts)); PendingEcho(r.a, r.ba) && FlightEcho(r.ab, r.ba)
  {
    assert forall t :: t in ts ==> t in s.ba by {
      InFlight(s, ts);
    }
    DeliverFacts(s, ts);
    DeliverIs(s, ts);
    InputAllEcho(s.ca, s.a, ts, s.ba);
    DeliverData(s.ca, s.a, ts);
    DeliverKeeps(s.ca, s.a, ts);
    hide Inv, Dir, StepA, EnabledA, DeliverE, InputAllE, Plain, Encodable, AllSendable, SentAt;
  }

  lemma InFlight(s: Sys, ts: seq<TMsg>)
    requires EnabledA(s, Deliver(ts))
    ensures forall t :: t in ts ==> t in s.ba
  {
    hide FreshAck, FreshPush, Encodable, Plain;
    forall t | t in ts
      ensures t in s.ba
    {
      var i :| 0 <= i < |ts| && ts[i] == t;
      assert Deliverable(s, ts[i]);
    }
  }

  lemma EchoGrows(s: Sys, r: Sys)
    requires Grows(s, r) && PendingEcho(s.b, s.ab) && FlightEcho(s.ba, s.ab)
    ensures PendingEcho(r.b, r.ab) && FlightEcho(r.ba, r.ab)
  {
    hide Names, EndGrows;
    assert forall x, ts :: SentAt(s.ab, x, ts) ==> SentAt(r.ab, x, ts);
    hide SentAt;
  }

  lemma {:induction false} RunEcho(states: seq<Sys>, steps: seq<Step>, i: nat)
    requires RunBy(states, steps) && i <= |steps|
    ensures PendingEcho(states[i].b, states[i].ab) && FlightEcho(states[i].ba, states[i].ab)
  {
    hide Inv, Goes, StepA, EnabledA, Grows, PendingEcho, FlightEcho;
    if i == 0 {
      FreshEcho(states[0]);
    } else {
      RunEcho(states, steps, i - 1);
      RunByInv(states, steps, i - 1);
      var s, st, r := states[i - 1], steps[i - 1], states[i - 1 + 1];
      assert Goes(s, st, r);
      if st.AtA? {
        StepAtA(s, st, r);
        StepGrows(s, st.act);
        EchoGrows(s, r);
      } else {
        StepAtB(s, st, r);
        StepEcho(Flip(s), st.act);
        FlippedEcho(r);
      }
    }
  }

  lemma FreshEcho(s: Sys)
    requires Init(s)
    ensures PendingEcho(s.b, s.ab) && FlightEcho(s.ba, s.ab)
  {
  }

  lemma FlippedEcho(r: Sys)
    requires var f := Flip(r); PendingEcho(f.a, f.ba) && FlightEcho(f.ab, f.ba)
    ensures PendingEcho(r.b, r.ab) && FlightEcho(r.ba, r.ab)
  {
  }

  /** At step j a flushes, and data message number x with the time of that flush goes on its way. */
  ghost predicate FlushedThen(states: seq<Sys>, steps: seq<Step>, j: nat, x: int, ts: u32) {
    && j < |steps| && |states| == |steps| + 1 && steps[j].AtA? && Flushes(states[j], steps[j].act)
    && states[j + 1].a.k.current == ts && SentAt(states[j + 1].ab, x, ts)
  }

  /** Every data message in flight was put there by a flush at the time it carries. */
  lemma {:induction false} DataTimes(states: seq<Sys>, steps: seq<Step>, i: nat, p: TMsg)
    requires RunBy(states, steps) && i <= |steps| && p in states[i].ab && p.m.cmd == 81
    ensures exists j :: 0 <= j < i && FlushedThen(states, steps, j, p.sn, p.m.ts)
  {
    hide Inv, Goes, StepA, EnabledA, Flushes;
    if i > 0 {
      RunByInv(states, steps, i - 1);
      var s, st, r := states[i - 1], steps[i - 1], states[i - 1 + 1];
      assert Goes(s, st, r);
      if p in s.ab {
        DataTimes(states, steps, i - 1, p);
      } else {
        NewData(s, st, r, p);
        assert Names(p, 81, p.sn) && SentAt(states[i - 1 + 1].ab, p.sn, p.m.ts);
        assert FlushedThen(states, steps, i - 1, p.sn, p.m.ts);
      }
    }
  }

  lemma NewData(s: Sys, st: Step, r: Sys, p: TMsg)
    requires Inv(s) && Goes(s, st, r) && p in r.ab && p !in s.ab && p.m.cmd == 81
    ensures st.AtA? && Flushes(s, st.act) && r.a.k.current == p.m.ts
  {
    hide *;
    InvOff(s);
    if st.AtA? {
      StepAtA(s, st, r);
      if Flushes(s, st.act) {
        FlushedNet(s, st.act, p);
      } else {
        QuietNet(s, st.act);
      }
    } else {
      StepAtB(s, st, r);
      StepGrows(Flip(s), st.act);
      OtherNet(s, r);
    }
  }

  lemma OtherNet(s: Sys, r: Sys)
    requires Grows(Flip(s), Flip(r))
    ensures r.ab == s.ab
  {
  }

  lemma QuietNet(s: Sys, act: Action)
    requires s.ca.Ok() && EnabledA(s, act) && !Flushes(s, act)
    ensures StepA(s, act).ab == s.ab
  {
    hide FlushA, SendE, RecvE, DeliverE, Encodable, Deliverable, FlushDue;
    if act.FlushNow? {
      FlushNothing(s);
    }
  }

  lemma FlushedNet(s: Sys, act: Action, p: TMsg)
    requires Inv(s) && EnabledA(s, act) && Flushes(s, act) && p in StepA(s, act).ab && p !in s.ab && p.m.cmd == 81
    ensures StepA(s, act).a.k.current == p.m.ts
  {
    hide *;
    InvOff(s);
    FlushedEnd(s, act);
    TickedEnd(s, act);
    FlushedTags(s, act, p);
    FlushLogs(s.ca, Ticked(s, act).a);
    TagTime(s.ca, Ticked(s, act).a, p);
    KcpProbe.FlushKeepsClock(s.ca, Ticked(s, act).a.k);
  }

  lemma FlushedTags(s: Sys, act: Action, p: TMsg)
    requires s.ca.Ok() && EnabledA(s, act) && Flushes(s, act) && p in StepA(s, act).ab && p !in s.ab
    ensures p in FlushTags(s.ca, Ticked(s, act).a)
  {
    FlushingStep(s, act);
    hide StepA, EnabledA, Flushes, FlushE, FlushTags, Tick;
  }

  lemma TagTime(cfg: Cfg, e: End, p: TMsg)
    requires cfg.Ok() && e.k.updated && SndOk(e.k.snd, cfg.sndWnd) && p in FlushTags(cfg, e) && p.m.cmd == 81
    ensures p.m.ts == e.k.current
  {
    hide FlushMsgs, Flush, SndOk, KcpResend.InOrder, KcpResend.SentAt, KcpResend.HasMsg, KcpResend.Room;
    var i :| 0 <= i < |FlushTags(cfg, e)| && FlushTags(cfg, e)[i] == p;
    assert p.m == FlushMsgs(cfg, e.k)[i];
    var n := KcpResend.FlushMessages(cfg, e.k);
    assert KcpResend.CarriesSome(cfg, e.k, Flush(cfg, e.k).snd.buf, p.m);
  }

  /**
   * Every run: an acknowledgement that reaches a carries the time of a flush in which a sent that very number, so
   * each round-trip sample is the time from such a flush to the arrival.
   */
  lemma SampleIsTrip(states: seq<Sys>, steps: seq<Step>, i: nat, t: TMsg)
    requires RunBy(states, steps) && i < |steps| && steps[i].AtA? && steps[i].act.Deliver?
    requires t in steps[i].act.ts && t.m.cmd == 82
    ensures exists j :: 0 <= j < i && FlushedThen(states, steps, j, t.sn, t.m.ts)
  {
    hide Inv, Goes, StepA, EnabledA, PendingEcho;
    RunEcho(states, steps, i);
    RunByInv(states, steps, i);
    assert Goes(states[i], steps[i], states[i + 1]);
    StepAtA(states[i], steps[i], states[i + 1]);
    InFlight(states[i], steps[i].act.ts);
    var p :| p in states[i].ab && Names(p, 81, t.sn) && p.m.ts == t.m.ts;
    DataTimes(states, steps, i, p);
  }

  /**
   * Every run: what is delivered to a acknowledges only numbers that a has used, so that `KcpResend.SkippedOnce`
   * says how often each segment is counted as skipped.
   */
  lemma DeliveredAcksUsed(s: Sys, ts: seq<TMsg>)
    requires Inv(s) && EnabledA(s, Deliver(ts))
    ensures KcpResend.AcksUsed(Plain(ts), s.a.k.snd.nxt)
  {
    InFlight(s, ts);
    DeliverFacts(s, ts);
    LogWord(s);
    hide Inv, Dir, PushOk, FreshPush, EnabledA, Encodable, AllSendable, W, Held;
    forall m | m in Plain(ts) && m.cmd == 82
      ensures TimeDiff(m.sn, s.a.k.snd.nxt) < 0
    {
      var i :| 0 <= i < |ts| && ts[i].m == m;
      BelowLog(s, ts[i]);
      WordDiff(ts[i].sn, |s.a.log|);
    }
  }

  lemma LogWord(s: Sys)
    requires Inv(s)
    ensures s.a.k.snd.nxt == W(|s.a.log|)
  {
    DirParts(s.ca, s.a, s.cb, s.b, s.ab, s.ba);
    hide Dir, RcvInv, Covered, RecvApp, SendApp, SndContent, SndOk, W, Off;
  }

  lemma BelowLog(s: Sys, t: TMsg)
    requires Inv(s) && AckOk(t, s.cb.rcvWnd, s.b.k.rcv, s.b.n) && t.m.cmd == 82
    ensures t.sn < |s.a.log|
  {
    DirParts(s.ca, s.a, s.cb, s.b, s.ab, s.ba);
    hide Dir, SndInv, RcvInv, Covered, RecvApp, SendApp, W, Held;
    HeldBelow(s.cb.rcvWnd, s.b.k.rcv, s.b.n, s.b.acks, s.a.log, t.sn);
  }

  // ---------- what is read ----------

  /**
   * Every run in message mode: what ikcp_recv returns at b, taking it off or only looking, is the next message
   * that a has accepted and b has not read yet.
   */
  lemma NextMessage(states: seq<Sys>, i: nat, len: int)
    requires Run(states) && i < |states| && !states[i].ca.stream
    ensures var s := states[i]; var r := KcpSpec.Recv(s.cb, s.b.k, len);
      r.code >= 0 ==> |s.b.delivered| < |s.a.accepted| && r.data == s.a.accepted[|s.b.delivered|]
  {
    hide Inv, Run, KcpSpec.Recv;
    RunInv(states, i);
    var s := states[i];
    var r := KcpSpec.Recv(s.cb, s.b.k, len);
    if r.code >= 0 {
      TakingIt(s.cb, s.b.k, len);
      ReadNext(s, Max(len, -len));
    }
  }

  lemma TakingIt(cfg: Cfg, k: Pcb, len: int)
    requires KcpSpec.Recv(cfg, k, len).code >= 0
    ensures var r := KcpSpec.Recv(cfg, k, len); var t := KcpSpec.Recv(cfg, k, Max(len, -len));
      t.code >= 0 && t.data == r.data
  {
    hide Drain, FirstMessage, Bytes;
  }

  lemma ReadNext(s: Sys, len: nat)
    requires Inv(s) && !s.ca.stream && KcpSpec.Recv(s.cb, s.b.k, len).code >= 0
    ensures |s.b.delivered| < |s.a.accepted|
    ensures s.a.accepted[|s.b.delivered|] == KcpSpec.Recv(s.cb, s.b.k, len).data
  {
    hide *;
    FlipInv(s);
    MayRead(s, len);
    StepRecv(Flip(s), len);
    FlipInv(StepA(Flip(s), Recv(len)));
    AfterRead(s, len);
    AppParts(Flip(StepA(Flip(s), Recv(len))));
    ReadPrefix(s, len);
  }

  lemma MayRead(s: Sys, len: nat)
    requires Inv(s)
    ensures s.cb.Ok() && Flip(s).ca.Ok() && EnabledA(Flip(s), Recv(len))
  {
    hide Dir;
  }

  lemma AfterRead(s: Sys, len: nat)
    requires s.cb.Ok() && KcpSpec.Recv(s.cb, s.b.k, len).code >= 0
    ensures var r := Flip(StepA(Flip(s), Recv(len)));
      && r.a == s.a && r.ca == s.ca
      && r.b.delivered == s.b.delivered + [KcpSpec.Recv(s.cb, s.b.k, len).data]
  {
    hide KcpSpec.Recv;
  }

  lemma ReadPrefix(s: Sys, len: nat)
    requires s.cb.Ok()
    requires var r := Flip(StepA(Flip(s), Recv(len)));
      && r.a == s.a && r.b.delivered == s.b.delivered + [KcpSpec.Recv(s.cb, s.b.k, len).data]
      && 0 <= r.b.taken <= |r.a.log| && r.b.delivered == Messages([], r.a.log[..r.b.taken])
      && r.a.accepted == Messages([], r.a.log + r.a.k.snd.queue)
    ensures |s.b.delivered| < |s.a.accepted|
    ensures s.a.accepted[|s.b.delivered|] == KcpSpec.Recv(s.cb, s.b.k, len).data
  {
    var r := Flip(StepA(Flip(s), Recv(len)));
    hide *;
    var n, data := |s.b.delivered|, KcpSpec.Recv(s.cb, s.b.k, len).data;
    PartMeans(r.a.log + r.a.k.snd.queue, r.a.log[..r.b.taken]);
    assert (s.b.delivered + [data])[n] == data;
  }
}
