// Complete delivery stays possible: from every state of a young connection the applications, the clocks and the
// network can go on so that everything accepted is read.
module KcpDelivery {
  import opened Word
  import opened Wire
  import opened KcpSpec
  import opened KcpLocal
  import opened KcpLink
  import opened KcpFrag
  import opened KcpSystem
  import opened KcpRuns
  import opened KcpProgress
  import opened KcpExchange
  import opened KcpProbe

  // ---------- continuations ----------

  /** The steps, none of which sends anything new, lead from s to r. */
  predicate Leads(s: Sys, steps: seq<Step>, r: Sys)
    decreases |steps|
  {
    if steps == [] then r == s
    else
      && s.ca.Ok() && s.cb.Ok() && Enabled(s, steps[0]) && !steps[0].act.Send?
      && Leads(Apply(s, steps[0]), steps[1..], r)
  }

  ghost predicate Reaches(s: Sys, r: Sys) {
    exists steps :: Leads(s, steps, r)
  }

  lemma {:induction false} LeadsOn(s: Sys, steps: seq<Step>, t: Sys, more: seq<Step>, r: Sys)
    requires Leads(s, steps, t) && Leads(t, more, r)
    ensures Leads(s, steps + more, r)
    decreases |steps|
  {
    hide Apply, Enabled;
    if steps == [] {
      assert steps + more == more;
    } else {
      LeadsOn(Apply(s, steps[0]), steps[1..], t, more, r);
      assert (steps + more)[1..] == steps[1..] + more;
    }
  }

  lemma ReachSelf(s: Sys)
    ensures Reaches(s, s)
  {
    assert Leads(s, [], s);
  }

  lemma ReachOn(s: Sys, t: Sys, r: Sys)
    requires Reaches(s, t) && Reaches(t, r)
    ensures Reaches(s, r)
  {
    hide Leads;
    var steps :| Leads(s, steps, t);
    var more :| Leads(t, more, r);
    LeadsOn(s, steps, t, more, r);
  }

  lemma ReachStep(s: Sys, st: Step)
    requires Inv(s) && Enabled(s, st) && !st.act.Send?
    ensures s.ca.Ok() && s.cb.Ok() && Reaches(s, Apply(s, st))
  {
    InvDir(s);
    hide Apply, Enabled, Inv, Dir, Leads;
    LeadsOne(s, st);
  }

  lemma LeadsOne(s: Sys, st: Step)
    requires s.ca.Ok() && s.cb.Ok() && Enabled(s, st) && !st.act.Send?
    ensures Leads(s, [st], Apply(s, st))
  {
    hide Apply, Enabled;
    assert Leads(Apply(s, st), [], Apply(s, st));
    assert [st][1..] == [];
  }

  lemma ReachA(s: Sys, act: Action)
    requires Inv(s) && EnabledA(s, act) && !act.Send?
    ensures s.ca.Ok() && Reaches(s, StepA(s, act))
  {
    InvDir(s);
    hide StepA, EnabledA, Inv, Dir, Reaches;
    ReachStep(s, AtA(act));
  }

  lemma ReachB(s: Sys, act: Action)
    requires Inv(s) && EnabledA(Flip(s), act) && !act.Send?
    ensures s.cb.Ok() && Reaches(s, Flip(StepA(Flip(s), act)))
  {
    InvDir(s);
    hide StepA, EnabledA, Inv, Dir, Reaches;
    ReachStep(s, AtB(act));
  }

  // ---------- what continuations keep ----------

  /** All that e has accepted is with it or numbered still, and nothing goes back. */
  predicate EndKept(e: End, f: End) {
    && f.log + f.k.snd.queue == e.log + e.k.snd.queue
    && f.accepted == e.accepted && f.acceptedBytes == e.acceptedBytes
    && e.u <= f.u && e.taken <= f.taken && (e.k.updated ==> f.k.updated)
  }

  predicate Kept(s: Sys, r: Sys) {
    r.ca == s.ca && r.cb == s.cb && EndKept(s.a, r.a) && EndKept(s.b, r.b)
  }

  lemma FlushKept(s: Sys)
    requires Inv(s)
    ensures EndKept(s.a, FlushE(s.ca, s.a))
  {
    InvDir(s);
    DirParts(s.ca, s.a, s.cb, s.b, s.ab, s.ba);
    hide Inv, Dir, SndInv, RcvInv, Covered, SendApp, RecvApp;
    FlushedKept(s.ca, s.a);
  }

  lemma FlushedKept(cfg: Cfg, e: End)
    requires cfg.Ok() && cfg.sndWnd < TWO30 && SndInv(cfg.sndWnd, e.k.snd, e.log, e.u)
    ensures EndKept(e, FlushE(cfg, e))
  {
    FlushKeeps(cfg, e);
    FlushApp(cfg, e);
    hide FlushE, SndContent, SndOk, FilledSnd;
    if e.k.updated {
      SndUna(cfg.sndWnd, e.k.snd, e.log, e.u);
      FlushSnd(cfg, e);
    } else {
      NotFlushed(cfg, e);
    }
  }

  lemma FlushApp(cfg: Cfg, e: End)
    requires cfg.Ok()
    ensures var f := FlushE(cfg, e);
      f.accepted == e.accepted && f.acceptedBytes == e.acceptedBytes && f.taken == e.taken
  {
    hide Flush;
  }

  lemma NotFlushed(cfg: Cfg, e: End)
    requires cfg.Ok() && !e.k.updated
    ensures FlushE(cfg, e) == e
  {
    assert e.log + [] == e.log;
  }

  lemma RecvKept(cfg: Cfg, e: End, len: int)
    ensures EndKept(e, RecvE(cfg, e, len))
  {
    hide PeekSize, Drain, Bytes;
  }

  lemma TickKept(cfg: Cfg, e: End, current: u32)
    ensures EndKept(e, TickE(cfg, e, current))
  {
  }

  lemma {:induction false} InputAllApp(cfg: Cfg, e: End, ts: seq<TMsg>)
    ensures var f := InputAllE(cfg, e, ts);
      && f.accepted == e.accepted && f.acceptedBytes == e.acceptedBytes && f.taken == e.taken
      && f.delivered == e.delivered && f.deliveredBytes == e.deliveredBytes && f.n >= e.n
    decreases |ts|
  {
    hide InputMsg;
    if ts != [] {
      InputAllApp(cfg, InputE(cfg, e, ts[0]), ts[1..]);
    }
  }

  lemma DeliverKept(s: Sys, ts: seq<TMsg>)
    requires Inv(s) && EnabledA(s, Deliver(ts))
    ensures EndKept(s.a, StepA(s, Deliver(ts)).a)
  {
    InvDir(s);
    DeliverFacts(s, ts);
    DeliverIs(s, ts);
    DeliverGrows(s, ts);
    hide Inv, Dir, PushOk, AckOk, FreshPush, FreshAck, InputAllE, Plain, EnabledA, AllSendable, Encodable, StepA, Input;
    DeliverLogs(s.ca, s.a, ts);
    InputAllApp(s.ca, s.a, ts);
  }

  lemma StepKept(s: Sys, act: Action)
    requires Inv(s) && EnabledA(s, act) && !act.Send?
    ensures var r := StepA(s, act);
      Inv(r) && EndKept(s.a, r.a) && r.b == s.b && r.ca == s.ca && r.cb == s.cb
  {
    StepAKeepsInv(s, act);
    InvDir(s);
    StepGrows(s, act);
    hide Inv, Dir, EndKept, RecvE, FlushE, TickE, DeliverE, EnabledA, FlushTags;
    match act
    case Recv(len) => RecvKept(s.ca, s.a, len);
    case FlushNow => FlushKept(s);
    case Update(current) => UpdateKept(s, current);
    case Deliver(ts) => DeliverKept(s, ts);
  }

  lemma UpdateKept(s: Sys, current: u32)
    requires Inv(s)
    ensures s.ca.Ok() && EndKept(s.a, StepA(s, Update(current)).a)
  {
    hide Inv, FlushE, TickE, FlushTags, EndKept, FlushDue;
    TickedInv(s, Update(current));
    TickKept(s.ca, s.a, current);
    FlushKept(Ticked(s, Update(current)));
    CfgOk(s);
    KeptOn(s.a, TickE(s.ca, s.a, current), FlushE(s.ca, TickE(s.ca, s.a, current)));
  }

  lemma CfgOk(s: Sys)
    requires Inv(s)
    ensures s.ca.Ok()
  {
    hide Dir;
  }

  lemma {:induction false} LeadsKeeps(s: Sys, steps: seq<Step>, r: Sys)
    requires Inv(s) && Leads(s, steps, r)
    ensures Inv(r) && Kept(s, r)
    decreases |steps|
  {
    hide Inv, EndKept, EnabledA, StepA;
    if steps == [] {
      SelfKept(s.a);
      SelfKept(s.b);
    } else {
      var st := steps[0];
      var t := Apply(s, st);
      StepKeepsInv(s, st);
      if st.AtA? {
        StepKept(s, st.act);
        SelfKept(s.b);
      } else {
        FlipInv(s);
        StepKept(Flip(s), st.act);
        SelfKept(s.a);
      }
      LeadsKeeps(t, steps[1..], r);
      KeptOn(s.a, t.a, r.a);
      KeptOn(s.b, t.b, r.b);
    }
  }

  lemma SelfKept(e: End)
    ensures EndKept(e, e)
  {
  }

  lemma KeptOn(e: End, f: End, g: End)
    requires EndKept(e, f) && EndKept(f, g)
    ensures EndKept(e, g)
  {
  }

  lemma ReachKeeps(s: Sys, r: Sys)
    requires Inv(s) && Reaches(s, r)
    ensures Inv(r) && Kept(s, r)
  {
    hide Inv, Kept, Leads;
    var steps :| Leads(s, steps, r);
    LeadsKeeps(s, steps, r);
  }

  // ---------- the same seen from the other end ----------

  function Mirror(st: Step): Step {
    if st.AtA? then AtB(st.act) else AtA(st.act)
  }

  function Mirrored(steps: seq<Step>): seq<Step> {
    seq(|steps|, i requires 0 <= i < |steps| => Mirror(steps[i]))
  }

  lemma {:induction false} LeadsFlipped(s: Sys, steps: seq<Step>, r: Sys)
    requires Leads(s, steps, r)
    ensures Leads(Flip(s), Mirrored(steps), Flip(r))
    decreases |steps|
  {
    hide EnabledA, StepA;
    if steps != [] {
      LeadsFlipped(Apply(s, steps[0]), steps[1..], r);
      assert Mirrored(steps)[1..] == Mirrored(steps[1..]);
      assert Flip(Flip(s)) == s;
    }
  }

  lemma ReachFlipped(s: Sys, r: Sys)
    requires Reaches(s, r)
    ensures Reaches(Flip(s), Flip(r))
  {
    hide Leads;
    var steps :| Leads(s, steps, r);
    LeadsFlipped(s, steps, r);
  }

  // ---------- reading all that is there ----------

  /** No complete message is ready to be read. */
  predicate Quiet(e: End) {
    PeekSize(e.k.rcv.queue) < 0
  }

  lemma ReadOne(cfg: Cfg, e: End)
    requires !Quiet(e)
    ensures var f := RecvE(cfg, e, PeekSize(e.k.rcv.queue));
      && f.taken > e.taken && f.k.updated == e.k.updated && f.k.snd == e.k.snd && f.k.cong == e.k.cong
      && (e.k.probe.askTell ==> f.k.probe.askTell)
  {
    hide Drain;
  }

  lemma TakenBound(s: Sys)
    requires Inv(s)
    ensures 0 <= s.a.taken <= |s.b.log|
  {
    hide SndInv, RcvInv, Covered, SendApp, SrOk, RsOk;
  }

  /** a reads until no complete message is left. */
  lemma {:induction false} ReadAll(s: Sys) returns (r: Sys)
    requires Inv(s)
    ensures Reaches(s, r) && Inv(r) && Quiet(r.a)
    ensures r.b == s.b && r.ca == s.ca && r.cb == s.cb && r.a.k.updated == s.a.k.updated
    ensures s.a.k.probe.askTell ==> r.a.k.probe.askTell
    decreases |s.b.log| - s.a.taken
  {
    InvDir(s);
    hide Inv, Dir, Quiet, RecvE, Reaches;
    r := s;
    ReachSelf(s);
    if !Quiet(s.a) {
      var act := Action.Recv(PeekSize(s.a.k.rcv.queue));
      var t := StepA(s, act);
      ReadOne(s.ca, s.a);
      ReachA(s, act);
      StepKept(s, act);
      TakenBound(t);
      r := ReadAll(t);
      ReachOn(s, t, r);
    }
  }

  /** b reads until no complete message is left. */
  lemma ReadAllB(s: Sys) returns (r: Sys)
    requires Inv(s)
    ensures Reaches(s, r) && Inv(r) && Quiet(r.b)
    ensures r.a == s.a && r.ca == s.ca && r.cb == s.cb && r.b.k.updated == s.b.k.updated
    ensures s.b.k.probe.askTell ==> r.b.k.probe.askTell
  {
    hide Inv, Quiet, Reaches;
    FlipInv(s);
    var g := ReadAll(Flip(s));
    FlipInv(g);
    ReachFlipped(Flip(s), g);
    r := Flip(g);
  }

  /** Then b's queue has room, and b waits for the number from which a's window starts or an earlier one. */
  lemma QuietRoom(s: Sys)
    requires Inv(s) && Quiet(s.b)
    ensures |s.b.k.rcv.queue| < WND_RCV - 1 && s.a.u <= s.b.n <= |s.a.log| && 0 <= s.b.taken <= s.b.n
  {
    QueueCountsDown(s);
    if |s.b.k.rcv.queue| >= WND_RCV - 1 {
      FullQueueReady(s.b.k.rcv.queue);
    }
    DirParts(s.ca, s.a, s.cb, s.b, s.ab, s.ba);
    hide Dir, SendApp, RecvApp, CountsDown, PeekSize;
    HeadMissing(s.cb.rcvWnd, s.b.k.rcv, s.b.n, s.b.acks, s.a.log);
  }

  lemma HeadMissing(wnd: u32, rcv: Rcv, n: int, acks: seq<int>, log: seq<Frag>)
    requires RcvInv(wnd, rcv, n, acks, log) && |rcv.queue| < wnd
    ensures !Held(wnd, rcv, n, n)
  {
    if HasR(rcv.buf, W(n)) {
      var i :| 0 <= i < |rcv.buf| && rcv.buf[i].sn == W(n);
      FirstIsLeast(rcv.buf, rcv.nxt, wnd, i);
    }
  }

  lemma FirstIsLeast(buf: seq<RSeg>, base: u32, bound: int, i: nat)
    requires AscR(buf, base, bound) && i < |buf|
    ensures Off(buf[0].sn, base) <= Off(buf[i].sn, base)
    ensures Off(buf[i].sn, base) == 0 ==> buf[0].sn == base
  {
  }

  /** Everything a has accepted, b has read. */
  predicate AllDelivered(s: Sys) {
    s.b.deliveredBytes == s.a.acceptedBytes && (!s.ca.stream ==> s.b.delivered == s.a.accepted)
  }

  /** Every fragment has been numbered and read. */
  predicate Finished(s: Sys) {
    s.a.k.snd.queue == [] && s.b.taken == |s.a.log|
  }

  lemma FinishedMeans(s: Sys)
    requires Inv(s) && Finished(s)
    ensures AllDelivered(s)
  {
    hide Inv, Messages, Bytes;
    AppParts(s);
    assert s.a.log + [] == s.a.log == s.a.log[..s.b.taken];
  }

  /** When nothing is outstanding either, everything has been read. */
  lemma AllRead(s: Sys)
    requires Inv(s) && Quiet(s.b) && s.a.u == |s.a.log| && s.a.k.snd.queue == []
    ensures Finished(s)
  {
    hide Inv, CountsDown, Closed, PeekSize;
    QuietRoom(s);
    QueueCountsDown(s);
    LogClosed(s);
    LastOfSlice(s.a.log, s.b.taken);
    assert s.b.k.rcv.queue == s.a.log[s.b.taken..|s.a.log|];
    LastClosed(s.b.k.rcv.queue);
  }

  lemma LastOfSlice(log: seq<Frag>, taken: nat)
    requires Closed(log) && taken <= |log|
    ensures Closed(log[taken..|log|])
  {
  }

  lemma LogClosed(s: Sys)
    requires Inv(s) && s.a.k.snd.queue == []
    ensures Closed(s.a.log)
  {
    DirParts(s.ca, s.a, s.cb, s.b, s.ab, s.ba);
    hide Dir, Covered, SndInv, RcvInv, RecvApp, CountsDown;
    assert s.a.log + [] == s.a.log;
  }

  lemma LastClosed(q: seq<Frag>)
    requires CountsDown(q) && Closed(q)
    ensures q != [] ==> PeekSize(q) >= 0
  {
    hide PeekSize, CountsDown;
    if q != [] {
      FirstMessageCorrect(q);
      if |q| <= q[0].frg {
        CountDownAt(q, |q| - 1);
      }
    }
  }

  // ---------- opening the window ----------

  /** All numbers, now and when everything queued is numbered, are below 2^30. */
  predicate StaysYoung(s: Sys) {
    |s.a.log| + |s.a.k.snd.queue| < TWO30 && |s.b.log| + |s.b.k.snd.queue| < TWO30
  }

  lemma KeptYoung(s: Sys, r: Sys)
    requires Kept(s, r) && StaysYoung(s)
    ensures StaysYoung(r)
  {
    assert |r.a.log| + |r.a.k.snd.queue| == |r.a.log + r.a.k.snd.queue|;
    assert |r.b.log| + |r.b.k.snd.queue| == |r.b.log + r.b.k.snd.queue|;
    assert |s.a.log| + |s.a.k.snd.queue| == |s.a.log + s.a.k.snd.queue|;
    assert |s.b.log| + |s.b.k.snd.queue| == |s.b.log + s.b.k.snd.queue|;
  }

  /** a can be flushed at any time of its clock. */
  lemma TickFlush(s: Sys, current: u32)
    requires Inv(s)
    ensures var t := Ticked(s, Update(current));
      Inv(t) && t.ca.Ok() && t.a.k.updated && Reaches(s, FlushA(t))
  {
    var act := Update(current);
    var t := Ticked(s, act);
    TickedInv(s, act);
    UpdateIs(s, current);
    hide Inv, Reaches, FlushA, Ticked, StepA;
    ReachA(s, act);
    if !FlushDue(s.a.k, current) {
      ReachA(t, FlushNow);
      FlushNowIs(t);
      ReachOn(s, t, FlushA(t));
    }
  }

  lemma UpdateIs(s: Sys, current: u32)
    requires Inv(s)
    ensures s.ca.Ok() && var t := Ticked(s, Update(current));
      && t.ca.Ok() && t.a.k.updated
      && StepA(s, Update(current)) == if FlushDue(s.a.k, current) then FlushA(t) else t
  {
    TickKeeps(s.ca, s.a, current);
    hide Dir, FlushA, Tick, FlushDue;
  }

  lemma FlushNowIs(s: Sys)
    requires s.ca.Ok()
    ensures StepA(s, FlushNow) == FlushA(s)
  {
  }

  lemma FlushedRmt(cfg: Cfg, e: End)
    requires cfg.Ok() && e.k.updated
    ensures var f := FlushE(cfg, e);
      && f.k.cong.rmtWnd == e.k.cong.rmtWnd && f.k.cong.cwnd >= 1 && f.k.updated && f.k.current == e.k.current
      && f.u == e.u && f.k.rcv.queue == e.k.rcv.queue
      && f.k.probe == ProbeWindow(e.k.probe, e.k.cong.rmtWnd, e.k.current).(askSend := false, askTell := false)
  {
    hide FilledSnd, ResendBuf, ProbeWindow, Changed, Lost, RoundOf, SendWindow;
  }

  /** A flush with the window closed leaves a timer set, or had one set already. */
  lemma TimerSet(s: Sys) returns (r: Sys)
    requires Inv(s) && s.a.k.updated && s.a.k.cong.rmtWnd == 0
    ensures Inv(r) && Reaches(s, r) && Kept(s, r) && r.b == s.b
    ensures r.a.k.probe.wait != 0 && r.a.k.cong.rmtWnd == 0
  {
    r := s;
    InvDir(s);
    hide Inv, Dir, FlushA, Reaches, EndKept, StepA;
    SelfKept(s.a);
    SelfKept(s.b);
    ReachSelf(s);
    if s.a.k.probe.wait == 0 {
      r := FlushA(s);
      FlushNowIs(s);
      ReachA(s, FlushNow);
      StepKept(s, FlushNow);
      FlushArms(s);
    }
  }

  lemma FlushArms(s: Sys)
    requires s.ca.Ok() && s.a.k.updated && s.a.k.cong.rmtWnd == 0 && s.a.k.probe.wait == 0
    ensures var k := FlushA(s).a.k; k.probe.wait != 0 && k.cong.rmtWnd == 0
  {
    FlushedRmt(s.ca, s.a);
    hide FlushE, FlushTags;
  }

  /** While b's window is closed to it, a comes to ask: t is the state in which it is flushed then. */
  lemma AskOnce(s: Sys) returns (t: Sys)
    requires Inv(s) && s.a.k.updated && s.a.k.cong.rmtWnd == 0
    ensures Inv(t) && t.ca.Ok() && Reaches(s, FlushA(t)) && Kept(s, t)
    ensures t.b == s.b && Asks(FlushMsgs(t.ca, t.a.k))
  {
    hide Inv, FlushA, FlushMsgs, Reaches, Asks, EndKept, Tick;
    var r := TimerSet(s);
    var at := r.a.k.probe.ts;
    t := Ticked(r, Update(at));
    TickFlush(r, at);
    ReachOn(s, r, FlushA(t));
    TickKept(r.ca, r.a, at);
    KeptOn(s.a, r.a, t.a);
    TimerOut(r.ca, r.a.k);
  }

  lemma TimerOut(cfg: Cfg, k: Pcb)
    requires cfg.Ok() && k.probe.wait != 0 && k.cong.rmtWnd == 0
    ensures Asks(FlushMsgs(cfg, Tick(cfg, k, k.probe.ts)))
  {
    hide FlushMsgs, Asks, KcpSpec.Flush;
    FlushAsks(cfg, Tick(cfg, k, k.probe.ts));
  }

  /** The question reaches b, which is then to tell its window. */
  lemma AskArrives(t: Sys) returns (g: Sys)
    requires Inv(t) && StaysYoung(t) && t.ca.Ok() && Asks(FlushMsgs(t.ca, t.a.k))
    ensures Inv(FlushA(t)) && Reaches(FlushA(t), g) && Inv(g) && g.b.k.probe.askTell
  {
    hide Asks, FlushMsgs;
    StepFlush(t);
    var i := AskIndex(t.ca, t.a);
    hide FlushTags;
    var p := DatagramCovers(t.ca, t.a, i);
    YoungAfter(t);
    YoungPart(t, p);
    FlipInv(FlushA(t));
    hide Inv, EnabledA, StepA, DatagramOf, Reaches, Young, FlushE;
    ReachB(FlushA(t), Deliver(p));
    StepAKeepsInv(Flip(FlushA(t)), Deliver(p));
    AskTaken(Flip(FlushA(t)), p, FlushTags(t.ca, t.a)[i]);
    FlipInv(StepA(Flip(FlushA(t)), Deliver(p)));
    g := Flip(StepA(Flip(FlushA(t)), Deliver(p)));
  }

  lemma AskIndex(cfg: Cfg, e: End) returns (i: nat)
    requires cfg.Ok() && Asks(FlushMsgs(cfg, e.k))
    ensures i < |FlushTags(cfg, e)| && FlushTags(cfg, e)[i].m.cmd == CMD_WASK
  {
    hide FlushMsgs;
    var m :| m in FlushMsgs(cfg, e.k) && m.cmd == CMD_WASK;
    i :| 0 <= i < |FlushMsgs(cfg, e.k)| && FlushMsgs(cfg, e.k)[i] == m;
  }

  lemma TellIndex(cfg: Cfg, e: End) returns (i: nat)
    requires cfg.Ok() && Tells(FlushMsgs(cfg, e.k))
    ensures i < |FlushTags(cfg, e)|
  {
    hide FlushMsgs;
    var m :| m in FlushMsgs(cfg, e.k) && m.cmd == CMD_WINS;
    i :| 0 <= i < |FlushMsgs(cfg, e.k)| && FlushMsgs(cfg, e.k)[i] == m;
  }

  lemma AskTaken(f: Sys, p: seq<TMsg>, t: TMsg)
    requires Inv(f) && EnabledA(f, Deliver(p)) && t in p && t.m.cmd == CMD_WASK
    ensures f.ca.Ok() && StepA(f, Deliver(p)).a.k.probe.askTell
  {
    InvDir(f);
    DeliverFacts(f, p);
    DeliverIs(f, p);
    hide Inv, Dir, EnabledA, PushOk, AckOk, FreshAck, FreshPush, StepA, InputAllE, Parse, Input;
    var ms := Plain(p);
    var j :| 0 <= j < |p| && p[j] == t;
    assert ms[j] == t.m;
    hide Plain, EncodeAll;
    ParseEncode(f.ca.conv, ms, []);
    assert EncodeAll(ms) + [] == EncodeAll(ms) && ms + [] == ms;
    ParseNothing(f.ca.conv);
    assert Asks(ms);
    AskIsHeard(f.ca, f.a.k, EncodeAll(ms));
  }

  /**
   * The sizes of receive window that never show as closed when all complete messages have been read: what
   * is left is less than a message of at most 127 fragments.
   */
  predicate ShowsRoom(cfg: Cfg) {
    cfg.rcvWnd % TWO16 >= WND_RCV - 1
  }

  lemma SomeRoom(wnd: int, used: nat)
    requires wnd % TWO16 >= WND_RCV - 1 > used && wnd >= 0
    ensures (wnd - used) % TWO16 > 0
  {
  }

  /** b tells its window, and a learns that it is open. */
  lemma TellArrives(g: Sys) returns (r: Sys)
    requires Inv(g) && StaysYoung(g) && g.b.k.updated && g.b.k.probe.askTell && Quiet(g.b)
    requires ShowsRoom(g.cb)
    ensures Reaches(g, r) && Inv(r) && Quiet(r.b) && r.a.k.cong.rmtWnd > 0
  {
    hide Inv, FlushMsgs, FlushTags, SndOk, SegsShort, Short, Datagrams, EnabledA, StepA, Reaches, Young, FlushE,
      Tells, EndKept;
    var f := Flip(g);
    FlipInv(g);
    CfgOk(f);
    QuietRoom(g);
    FlushAsks(f.ca, f.a.k);
    var i := TellIndex(f.ca, f.a);
    var p := DatagramCovers(f.ca, f.a, i);
    YoungAfter(f);
    YoungPart(f, p);
    var h := Flip(FlushA(f));
    FlushedByB(f);
    QuietFlush(f.ca, f.a);
    TellTaken(g, h, p);
    ReachA(h, Deliver(p));
    r := StepA(h, Deliver(p));
    ReachOn(g, h, r);
    StepKept(h, Deliver(p));
  }

  lemma QuietFlush(cfg: Cfg, e: End)
    requires cfg.Ok() && Quiet(e)
    ensures Quiet(FlushE(cfg, e))
  {
    hide PeekSize, FilledSnd;
  }

  lemma TellTaken(g: Sys, h: Sys, p: seq<TMsg>)
    requires Inv(g) && Inv(h) && h.ca == g.ca && h.a == g.a && EnabledA(h, Deliver(p)) && g.cb.Ok()
    requires g.b.k.updated && g.b.k.probe.askTell && |g.b.k.rcv.queue| < WND_RCV - 1 && ShowsRoom(g.cb)
    requires DatagramOf(g.cb, g.b, p)
    ensures h.ca.Ok() && StepA(h, Deliver(p)).a.k.cong.rmtWnd > 0
  {
    FlipInv(g);
    InvShort(Flip(g));
    InvDir(g);
    DeliverIs(h, p);
    hide Inv, Dir, EnabledA, StepA, DeliverE, SndOk, SegsShort, Short, FlushTags, Datagrams, Plain, Encodable;
    TellMeans(g.cb, g.b.k, g.ca, g.a, p);
  }

  lemma TellMeans(cb: Cfg, b: Pcb, ca: Cfg, e: End, p: seq<TMsg>)
    requires cb.Ok() && ca.Ok() && ca.conv == cb.conv && b.updated && b.probe.askTell
    requires SndOk(b.snd, cb.sndWnd) && SegsShort(cb.Mss(), b.snd.buf) && Short(cb.Mss(), b.snd.queue)
    requires Plain(p) in Datagrams(cb, b) && Encodable(Plain(p))
    requires |b.rcv.queue| < WND_RCV - 1 && ShowsRoom(cb)
    ensures DeliverE(ca, e, p).k.cong.rmtWnd > 0
  {
    hide InputAllE, Input, SndOk, SegsShort, Short, Datagrams, Plain, EncodeAll, Encodable;
    WindowReopens(cb, b, ca, e.k, Plain(p));
    SomeRoom(cb.rcvWnd, |b.rcv.queue|);
  }

  /** Whatever b's window was to a, a can come to see it open, with nothing left for b to read. */
  lemma OpenWindow(s: Sys) returns (r: Sys)
    requires Inv(s) && StaysYoung(s) && s.a.k.updated && s.b.k.updated && ShowsRoom(s.cb) && Quiet(s.b)
    ensures Reaches(s, r) && Inv(r) && Quiet(r.b) && r.a.k.cong.rmtWnd > 0
  {
    hide Inv, Quiet, Reaches, FlushA, Asks, FlushMsgs, EndKept;
    r := s;
    ReachSelf(s);
    if s.a.k.cong.rmtWnd == 0 {
      var t := AskOnce(s);
      KeptYoung(s, t);
      var g := AskArrives(t);
      ReachOn(s, FlushA(t), g);
      var h := ReadAllB(g);
      ReachOn(s, g, h);
      ReachKeeps(s, h);
      KeptYoung(s, h);
      KeptUpdated(s, h);
      r := TellArrives(h);
      ReachOn(s, h, r);
    }
  }

  lemma KeptUpdated(s: Sys, r: Sys)
    requires Kept(s, r) && s.a.k.updated && s.b.k.updated
    ensures r.a.k.updated && r.b.k.updated && r.ca == s.ca && r.cb == s.cb
  {
  }

  // ---------- one exchange ----------

  /** The oldest segment is due when the clock reaches its retransmission time, or when it is first numbered. */
  lemma HeadDueNow(cfg: Cfg, k: Pcb)
    requires cfg.Ok() && k.updated && SndOk(k.snd, cfg.sndWnd)
    requires if k.snd.buf != [] then k.current == k.snd.buf[0].resendts
             else k.snd.queue != [] && k.cong.cwnd > 0 && k.cong.rmtWnd > 0
    ensures HeadDue(cfg, k)
  {
    hide FillWindow, SndOk;
    var w := SendWindow(cfg, k.cong);
    FillWindowCorrect(k.snd, w, cfg.sndWnd, WndUnused(cfg, k.rcv), k.current, k.rcv.nxt, k.rtt.rto);
    var f := FilledSnd(cfg, k);
    hide FilledSnd;
    if k.snd.buf != [] {
      assert f.buf[0] == f.buf[..|k.snd.buf|][0] == k.snd.buf[0];
    } else {
      EmptyWindow(k.snd, cfg.sndWnd);
      assert f.buf != [] && f.buf[0].xmit == 0;
    }
  }

  lemma EmptyWindow(snd: Snd, wnd: u32)
    requires SndOk(snd, wnd) && snd.buf == []
    ensures Off(snd.nxt, snd.una) == 0
  {
  }

  /** Something is outstanding or queued as long as not all is acknowledged. */
  lemma SomethingLeft(s: Sys)
    requires Inv(s) && s.a.u < |s.a.log| + |s.a.k.snd.queue|
    ensures s.ca.Ok() && SndOk(s.a.k.snd, s.ca.sndWnd) && (s.a.k.snd.buf != [] || s.a.k.snd.queue != [])
  {
    DirParts(s.ca, s.a, s.cb, s.b, s.ab, s.ba);
    hide Dir, RcvInv, Covered, SendApp, RecvApp, SndContent, W;
    if s.a.k.snd.buf == [] {
      EmptyWindow(s.a.k.snd, s.ca.sndWnd);
    }
  }

  /** a can come to a flush, in state t, that sends its oldest segment. */
  lemma Attempt(s: Sys) returns (t: Sys)
    requires Inv(s) && s.a.k.updated && s.a.k.cong.rmtWnd > 0 && s.a.u < |s.a.log| + |s.a.k.snd.queue|
    ensures Inv(t) && t.ca.Ok() && Reaches(s, FlushA(t)) && Kept(s, t) && HeadDue(t.ca, t.a.k)
    ensures t.b == s.b && t.a.u == s.a.u
  {
    hide Inv, FlushA, Reaches, HeadDue, EndKept, SndOk, Tick;
    t := FlushedOnce(s);
    SomethingLeft(t);
    if t.a.k.snd.buf != [] {
      var at := t.a.k.snd.buf[0].resendts;
      var t' := Ticked(t, Update(at));
      TickFlush(t, at);
      ReachOn(s, t, FlushA(t'));
      TickKept(t.ca, t.a, at);
      KeptOn(s.a, t.a, t'.a);
      TickData(t.ca, t.a.k, at);
      TickSets(t.ca, t.a.k, at);
      t := t';
    } else {
      ReachA(t, FlushNow);
      FlushNowIs(t);
      ReachOn(s, t, FlushA(t));
    }
    HeadDueNow(t.ca, t.a.k);
  }

  lemma TickSets(cfg: Cfg, k: Pcb, at: u32)
    ensures Tick(cfg, k, at).current == at && Tick(cfg, k, at).updated
  {
  }

  /** A flush opens the congestion window if it was closed. */
  lemma FlushedOnce(s: Sys) returns (t: Sys)
    requires Inv(s) && s.a.k.updated
    ensures Inv(t) && t.ca.Ok() && Reaches(s, t) && Kept(s, t) && t.b == s.b && t.a.u == s.a.u
    ensures t.a.k.cong.rmtWnd == s.a.k.cong.rmtWnd && t.a.k.cong.cwnd > 0 && t.a.k.updated
    ensures |t.a.log| + |t.a.k.snd.queue| == |s.a.log| + |s.a.k.snd.queue|
  {
    CfgOk(s);
    FlushedRmt(s.ca, s.a);
    FlushNowIs(s);
    hide Inv, FlushE, FlushTags, Reaches, EndKept, StepA;
    t := FlushA(s);
    ReachA(s, FlushNow);
    StepKept(s, FlushNow);
    SelfKept(s.b);
    KeptTotal(s.a, t.a);
  }

  lemma KeptTotal(e: End, f: End)
    requires EndKept(e, f)
    ensures |f.log| + |f.k.snd.queue| == |e.log| + |e.k.snd.queue| && e.u <= f.u
  {
    assert |f.log + f.k.snd.queue| == |e.log + e.k.snd.queue|;
  }

  /** One segment more can be acknowledged. */
  lemma OneMoreAcked(s: Sys) returns (r: Sys)
    requires Inv(s) && StaysYoung(s) && s.a.k.updated && s.b.k.updated && Quiet(s.b)
    requires s.a.k.cong.rmtWnd > 0 && s.a.u < |s.a.log| + |s.a.k.snd.queue|
    ensures Reaches(s, r) && Inv(r) && r.a.u > s.a.u
  {
    QuietRoom(s);
    InvWindow(s);
    hide Inv, Quiet, Reaches, FlushA, EndKept, HeadDue, Hears;
    var t := Attempt(s);
    KeptYoung(s, t);
    KeptUpdated(s, t);
    YoungProgress(t);
    var p, g, q, x :| Hears(t, p, g) && Hears(g, q, x) && x.a.u > t.a.u;
    r := x;
    BothHear(t, p, g, q, r);
    ReachOn(s, FlushA(t), r);
  }

  lemma BothHear(t: Sys, p: seq<TMsg>, g: Sys, q: seq<TMsg>, r: Sys)
    requires Inv(t) && t.ca.Ok() && Hears(t, p, g) && Hears(g, q, r)
    ensures Reaches(FlushA(t), r) && Inv(r)
  {
    hide Inv, Reaches, FlushA, Takes, DatagramOf;
    StepFlush(t);
    HearsReaches(FlushA(t), p, g);
    FlipInv(g);
    FlushedByB(g);
    ReachOn(FlushA(t), Flip(g), Flip(FlushA(g)));
    StepFlush(g);
    FlipInv(FlushA(g));
    TakesReaches(Flip(FlushA(g)), q, r);
    ReachOn(FlushA(t), Flip(FlushA(g)), r);
  }

  lemma FlushedByB(g: Sys)
    requires Inv(g) && g.ca.Ok()
    ensures Reaches(Flip(g), Flip(FlushA(g)))
  {
    hide Inv, Reaches, FlushA;
    FlipInv(g);
    ReachB(Flip(g), FlushNow);
  }

  lemma TakesReaches(f: Sys, p: seq<TMsg>, g: Sys)
    requires Inv(f) && Takes(f, p, g)
    ensures Inv(g) && Reaches(f, g)
  {
    hide Inv, StepA, EnabledA, Reaches;
    ReachA(f, Deliver(p));
    StepAKeepsInv(f, Deliver(p));
  }

  lemma InvWindow(s: Sys)
    requires Inv(s)
    ensures s.ca.Ok() && s.cb.Ok() && s.cb.rcvWnd >= WND_RCV
  {
    hide Dir;
  }

  lemma HearsReaches(f: Sys, p: seq<TMsg>, g: Sys)
    requires Inv(f) && Takes(Flip(f), p, g)
    ensures Inv(g) && Reaches(f, Flip(g))
  {
    hide Inv, StepA, EnabledA, Reaches;
    FlipInv(f);
    ReachB(f, Deliver(p));
    StepAKeepsInv(Flip(f), Deliver(p));
  }

  // ---------- all of it ----------

  lemma {:induction false} DeliverRest(s: Sys) returns (r: Sys)
    requires Inv(s) && StaysYoung(s) && s.a.k.updated && s.b.k.updated && ShowsRoom(s.cb)
    ensures Reaches(s, r) && Inv(r) && Finished(r)
    decreases |s.a.log| + |s.a.k.snd.queue| - s.a.u
  {
    hide Inv, Quiet, Reaches, EndKept, Finished;
    var t := ReadAllB(s);
    ReachKeeps(s, t);
    KeptYoung(s, t);
    r := OpenWindow(t);
    ReachOn(s, t, r);
    ReachKeeps(s, r);
    KeptYoung(s, r);
    KeptUpdated(s, r);
    KeptTotal(s.a, r.a);
    UnaInLog(r);
    if r.a.u == |r.a.log| + |r.a.k.snd.queue| {
      AllRead(r);
    } else {
      var x := OneMoreAcked(r);
      ReachOn(s, r, x);
      ReachKeeps(s, x);
      KeptYoung(s, x);
      KeptUpdated(s, x);
      KeptTotal(s.a, x.a);
      UnaInLog(x);
      var y := DeliverRest(x);
      ReachOn(s, x, y);
      r := y;
    }
  }

  lemma UnaInLog(s: Sys)
    requires Inv(s)
    ensures 0 <= s.a.u <= |s.a.log|
  {
    hide RcvInv, Covered, SendApp, RecvApp;
  }

  /** Both ends have been updated at least once. */
  lemma Started(s: Sys) returns (r: Sys)
    requires Inv(s)
    ensures Reaches(s, r) && Inv(r) && Kept(s, r) && r.a.k.updated && r.b.k.updated
  {
    hide Inv, Reaches, FlushA, EndKept, Tick;
    var t := StartA(s);
    FlipInv(t);
    var g := StartA(Flip(t));
    FlipInv(g);
    ReachFlipped(Flip(t), g);
    r := Flip(g);
    ReachOn(s, t, r);
    ReachKeeps(s, r);
  }

  lemma StartA(s: Sys) returns (r: Sys)
    requires Inv(s)
    ensures Reaches(s, r) && Inv(r) && r.a.k.updated && r.b == s.b
  {
    TickFlush(s, 0);
    var t := Ticked(s, Update(0));
    StepFlush(t);
    FlushKeeps(t.ca, t.a);
    r := FlushA(t);
    hide Inv, Reaches, FlushE, FlushTags, TickE;
  }

  lemma StillFinished(s: Sys, r: Sys)
    requires Inv(s) && Finished(s) && Inv(r) && Kept(s, r)
    ensures Finished(r)
  {
    KeptTotal(s.a, r.a);
    FlipInv(r);
    TakenBound(Flip(r));
    hide Inv;
  }

  /**
   * In every state of every run of a young connection there is a continuation, without further sends, in
   * which b reads everything a has accepted.
   */
  lemma DeliveryStaysPossible(states: seq<Sys>, i: nat)
    requires Run(states) && i < |states| && StaysYoung(states[i]) && ShowsRoom(states[i].cb)
    ensures exists r :: Reaches(states[i], r) && Kept(states[i], r) && AllDelivered(r)
  {
    hide Inv, Run, Reaches, EndKept, Finished;
    RunInv(states, i);
    var r := DeliverFrom(states[i]);
    FinishedMeans(r);
  }

  lemma DeliverFrom(s: Sys) returns (r: Sys)
    requires Inv(s) && StaysYoung(s) && ShowsRoom(s.cb)
    ensures Reaches(s, r) && Kept(s, r) && Inv(r) && Finished(r)
  {
    hide Inv, Reaches, EndKept, Finished;
    var t := Started(s);
    KeptYoung(s, t);
    r := DeliverRest(t);
    ReachOn(s, t, r);
    ReachKeeps(s, r);
  }

  /** The same both ways at once. */
  lemma BothDeliver(states: seq<Sys>, i: nat)
    requires Run(states) && i < |states| && StaysYoung(states[i])
    requires ShowsRoom(states[i].ca) && ShowsRoom(states[i].cb)
    ensures exists r :: Reaches(states[i], r) && Kept(states[i], r) && AllDelivered(r) && AllDelivered(Flip(r))
  {
    hide Inv, Run, Reaches, EndKept, Finished;
    RunInv(states, i);
    var s := states[i];
    var x := DeliverFrom(s);
    KeptYoung(s, x);
    FlipInv(x);
    var y := DeliverFrom(Flip(x));
    ReachFlipped(Flip(x), y);
    FlipInv(y);
    var r := Flip(y);
    ReachOn(s, x, r);
    ReachKeeps(s, r);
    ReachKeeps(x, r);
    StillFinished(x, r);
    FinishedMeans(r);
    FinishedMeans(y);
  }
}
