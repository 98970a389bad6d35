// When a receive window cannot show its room: connections that stand still for good, and the exact condition.
module KcpStall {
  import opened Word
  import opened Wire
  import opened KcpSpec
  import opened KcpLocal
  import opened KcpLink
  import opened KcpFrag
  import opened KcpSystem
  import opened KcpRuns
  import opened KcpProgress
  import opened KcpExchange
  import opened KcpProbe
  import opened KcpDelivery

  /** The sender sees the window closed and has nothing outstanding. */
  predicate Blocked(e: End) {
    e.k.cong.rmtWnd == 0 && e.u == |e.log|
  }

  /** The receiver has nothing to read, and its free window shows as none. */
  predicate Hides(cfg: Cfg, e: End) {
    Quiet(e) && WndUnused(cfg, e.k.rcv) % TWO16 == 0
  }

  predicate AllClosed(net: set<TMsg>) {
    forall t :: t in net ==> t.m.wnd == 0
  }

  /** a waits for b's window to open, and all that b has said and says is that it is closed. */
  predicate Stalled(s: Sys) {
    Blocked(s.a) && Hides(s.cb, s.b) && s.b.n == |s.a.log| && AllClosed(s.ba)
  }

  predicate SameLog(e: End, f: End) {
    f.log == e.log && e.accepted <= f.accepted && e.acceptedBytes <= f.acceptedBytes
  }

  predicate SameRead(e: End, f: End) {
    f.taken == e.taken && f.delivered == e.delivered && f.deliveredBytes == e.deliveredBytes
  }

  /** Nothing more is numbered or read. */
  predicate Still(s: Sys, r: Sys) {
    r.ca == s.ca && r.cb == s.cb && SameLog(s.a, r.a) && SameRead(s.b, r.b)
  }

  // ---------- steps of a ----------

  lemma NothingFilled(cfg: Cfg, k: Pcb)
    requires k.cong.rmtWnd == 0 && k.snd.nxt == k.snd.una
    ensures FilledSnd(cfg, k) == k.snd
  {
  }

  lemma FlushIdle(cfg: Cfg, e: End)
    requires cfg.Ok() && Blocked(e) && e.k.snd.nxt == e.k.snd.una
    ensures Blocked(FlushE(cfg, e)) && SameLog(e, FlushE(cfg, e))
  {
    NothingFilled(cfg, e.k);
    hide FilledSnd, ResendBuf, Lost, Changed, RoundOf, SendWindow;
    assert e.log + [] == e.log;
  }

  lemma NothingOut(s: Sys)
    requires Inv(s) && s.a.u == |s.a.log|
    ensures s.ca.Ok() && s.a.k.snd.nxt == s.a.k.snd.una
  {
    DirParts(s.ca, s.a, s.cb, s.b, s.ab, s.ba);
    hide Dir, RcvInv, Covered, SendApp, RecvApp, SndContent;
  }

  lemma {:induction false} ClosedHeard(cfg: Cfg, k: Pcb, ms: seq<Msg>)
    requires k.cong.rmtWnd == 0 && forall m :: m in ms ==> m.wnd == 0
    ensures InputMsgs(cfg, k, ms).cong.rmtWnd == 0
    decreases |ms|
  {
    hide InputSnd, InputRcv, UpdateAck;
    if ms != [] {
      ClosedHeard(cfg, InputMsg(cfg, k, ms[0]), ms[1..]);
    }
  }

  lemma ClosedDelivered(cfg: Cfg, e: End, ts: seq<TMsg>)
    requires cfg.Ok() && AllSendable(cfg.conv, Plain(ts)) && Encodable(Plain(ts))
    requires e.k.cong.rmtWnd == 0 && forall t :: t in ts ==> t.m.wnd == 0
    ensures DeliverE(cfg, e, ts).k.cong.rmtWnd == 0
  {
    DeliverData(cfg, e, ts);
    InputAllPlain(cfg, e, ts);
    assert forall m :: m in Plain(ts) ==> m.wnd == 0;
    hide Plain, InputAllE, Input, InputMsgs, AllSendable, Encodable;
    ClosedHeard(cfg, e.k, Plain(ts));
  }

  lemma DeliverBlocked(s: Sys, ts: seq<TMsg>)
    requires Inv(s) && Blocked(s.a) && AllClosed(s.ba) && EnabledA(s, Deliver(ts))
    ensures s.ca.Ok() && Blocked(StepA(s, Deliver(ts)).a) && SameLog(s.a, StepA(s, Deliver(ts)).a)
  {
    CfgOk(s);
    hide Inv, DeliverE, Plain, EnabledA, AllSendable, Encodable, StepA, AllClosed;
    Taking(s, ts);
    DeliverIs(s, ts);
    ClosedDelivered(s.ca, s.a, ts);
    DeliverGrows(s, ts);
    DeliveredApp(s.ca, s.a, ts);
    DeliverLogs(s.ca, s.a, ts);
    StepAKeepsInv(s, Deliver(ts));
    UnaInLog(StepA(s, Deliver(ts)));
  }

  lemma Taking(s: Sys, ts: seq<TMsg>)
    requires Inv(s) && EnabledA(s, Deliver(ts))
    ensures s.ca.Ok() && AllSendable(s.ca.conv, Plain(ts)) && Encodable(Plain(ts))
    ensures AllClosed(s.ba) ==> forall t :: t in ts ==> t.m.wnd == 0
  {
    CfgOk(s);
    DeliverFacts(s, ts);
    EnabledEncodable(s, Deliver(ts));
    assert forall i :: 0 <= i < |ts| ==> Deliverable(s, ts[i]);
    hide Inv, PushOk, AckOk, FreshPush, FreshAck, AllSendable, Encodable, Plain;
  }

  lemma DeliveredApp(cfg: Cfg, e: End, ts: seq<TMsg>)
    requires cfg.Ok() && Encodable(Plain(ts))
    ensures var f := DeliverE(cfg, e, ts);
      && f.accepted == e.accepted && f.acceptedBytes == e.acceptedBytes && f.taken == e.taken
      && f.delivered == e.delivered && f.deliveredBytes == e.deliveredBytes && f.n >= e.n
  {
    InputAllApp(cfg, e, ts);
    hide InputAllE, Input;
  }

  lemma SendOnly(cfg: Cfg, e: End, buf: seq<u8>)
    requires cfg.Ok()
    ensures var f := SendE(cfg, e, buf);
      SameLog(e, f) && SameRead(e, f) && f.n == e.n && (Blocked(e) ==> Blocked(f)) && (Hides(cfg, e) ==> Hides(cfg, f))
  {
    hide SendQueue, TopUp, PeekSize;
  }

  lemma RecvOnly(cfg: Cfg, e: End, len: int)
    ensures var f := RecvE(cfg, e, len); SameLog(e, f) && (Blocked(e) ==> Blocked(f))
    ensures Quiet(e) ==> RecvE(cfg, e, len) == e
  {
    hide PeekSize, Drain, FirstMessage, Bytes;
  }

  lemma TickOnly(cfg: Cfg, e: End, current: u32)
    ensures var f := TickE(cfg, e, current);
      SameLog(e, f) && SameRead(e, f) && f.n == e.n && (Blocked(e) ==> Blocked(f)) && (Hides(cfg, e) ==> Hides(cfg, f))
  {
    hide PeekSize;
  }

  lemma StepABlocked(s: Sys, act: Action)
    requires Inv(s) && Blocked(s.a) && AllClosed(s.ba) && EnabledA(s, act)
    ensures s.ca.Ok() && Blocked(StepA(s, act).a) && SameLog(s.a, StepA(s, act).a)
  {
    CfgOk(s);
    NothingOut(s);
    hide Inv, Blocked, SameLog, SendE, RecvE, TickE, FlushE, EnabledA, FlushTags, SameRead, Hides;
    match act
    case Send(buf) => SendOnly(s.ca, s.a, buf);
    case Recv(len) => RecvOnly(s.ca, s.a, len);
    case FlushNow => FlushIdle(s.ca, s.a);
    case Update(current) => UpdateBlocked(s, current);
    case Deliver(ts) => DeliverBlocked(s, ts);
  }

  lemma UpdateBlocked(s: Sys, current: u32)
    requires Inv(s) && Blocked(s.a)
    ensures s.ca.Ok() && Blocked(StepA(s, Update(current)).a) && SameLog(s.a, StepA(s, Update(current)).a)
  {
    UpdateIs(s, current);
    TickOnly(s.ca, s.a, current);
    hide Inv, FlushE, FlushTags, StepA, SameRead, Hides;
    var t := TickE(s.ca, s.a, current);
    NothingOut(s);
    TickData(s.ca, s.a.k, current);
    FlushIdle(s.ca, t);
  }

  lemma StepAStays(s: Sys, act: Action)
    requires Inv(s) && Stalled(s) && EnabledA(s, act)
    ensures s.ca.Ok() && Stalled(StepA(s, act)) && Still(s, StepA(s, act))
  {
    StepABlocked(s, act);
    StepGrows(s, act);
    hide Inv, Blocked, Hides, AllClosed, EnabledA, StepA, EndGrows;
  }

  // ---------- steps of b, seen from b ----------

  lemma BInLog(s: Sys)
    requires Inv(s)
    ensures 0 <= s.a.taken <= s.a.n <= |s.b.log| && s.a.k.rcv.queue == s.b.log[s.a.taken..s.a.n]
  {
    hide SndInv, RcvInv, Covered, SendApp, SrOk, RsOk, Messages, Unfinished, Bytes;
  }

  lemma StillHides(cfg: Cfg, e: End, f: End)
    requires Hides(cfg, e) && f.k.rcv.queue == e.k.rcv.queue
    ensures Hides(cfg, f)
  {
  }

  /** Nothing that arrives is new to b. */
  lemma DeliverHides(f: Sys, ts: seq<TMsg>)
    requires Inv(f) && Hides(f.ca, f.a) && f.a.n == |f.b.log| && EnabledA(f, Deliver(ts))
    ensures f.ca.Ok() && var r := StepA(f, Deliver(ts)).a;
      Hides(f.ca, r) && SameRead(f.a, r) && r.n == f.a.n
  {
    CfgOk(f);
    hide Inv, DeliverE, Plain, EnabledA, Encodable, StepA, Hides;
    DeliverIs(f, ts);
    DeliveredApp(f.ca, f.a, ts);
    StepAKeepsInv(f, Deliver(ts));
    BInLog(f);
    BInLog(StepA(f, Deliver(ts)));
    StillHides(f.ca, f.a, StepA(f, Deliver(ts)).a);
  }

  lemma FlushHides(cfg: Cfg, e: End)
    requires cfg.Ok() && Hides(cfg, e)
    ensures var f := FlushE(cfg, e); Hides(cfg, f) && SameRead(e, f) && f.n == e.n
    ensures AllClosed(Set(FlushTags(cfg, e)))
  {
    FlushedReads(cfg, e);
    TagsClosed(cfg, e);
    hide FlushE, FlushTags;
    StillHides(cfg, e, FlushE(cfg, e));
  }

  lemma FlushedReads(cfg: Cfg, e: End)
    requires cfg.Ok()
    ensures var f := FlushE(cfg, e); f.k.rcv.queue == e.k.rcv.queue && f.n == e.n && SameRead(e, f)
  {
    hide FilledSnd, ResendBuf, AfterFlush, RoundOf, ProbeWindow;
  }

  lemma TagsClosed(cfg: Cfg, e: End)
    requires cfg.Ok() && WndUnused(cfg, e.k.rcv) % TWO16 == 0
    ensures forall t :: t in FlushTags(cfg, e) ==> t.m.wnd == 0
  {
    if e.k.updated {
      FlushAsks(cfg, e.k);
    }
    hide WndUnused, ControlMsgs, PushMsgs, FilledSnd;
    forall i | 0 <= i < |FlushTags(cfg, e)|
      ensures FlushTags(cfg, e)[i].m.wnd == 0
    {
      assert FlushMsgs(cfg, e.k)[i] in FlushMsgs(cfg, e.k);
    }
  }

  /** What a step of b, seen from b, leaves as it was. */
  predicate Hidden(f: Sys, r: Sys) {
    Hides(f.ca, r.a) && SameRead(f.a, r.a) && r.a.n == f.a.n && (AllClosed(f.ab) ==> AllClosed(r.ab))
  }

  lemma FlushHidden(f: Sys)
    requires f.ca.Ok() && Hides(f.ca, f.a)
    ensures Hidden(f, FlushA(f))
  {
    FlushHides(f.ca, f.a);
    hide Hides, SameRead, FlushE, FlushTags;
  }

  lemma UpdateHidden(f: Sys, current: u32)
    requires Inv(f) && Hides(f.ca, f.a)
    ensures f.ca.Ok() && Hidden(f, StepA(f, Update(current)))
  {
    UpdateIs(f, current);
    TickOnly(f.ca, f.a, current);
    hide Inv, FlushA, StepA, Hides, SameLog, Blocked, AllClosed, TickE;
    FlushHidden(Ticked(f, Update(current)));
  }

  lemma StepHidden(f: Sys, act: Action)
    requires Inv(f) && Hides(f.ca, f.a) && f.a.n == |f.b.log| && EnabledA(f, act)
    ensures f.ca.Ok() && Hidden(f, StepA(f, act))
  {
    CfgOk(f);
    hide Inv, Hides, SameRead, SameLog, SendE, RecvE, FlushA, EnabledA, AllClosed, Blocked, DeliverE;
    match act
    case Send(buf) => SendOnly(f.ca, f.a, buf);
    case Recv(len) =>
      HidesQuiet(f.ca, f.a);
      RecvOnly(f.ca, f.a, len);
    case FlushNow => FlushHidden(f);
    case Update(current) => UpdateHidden(f, current);
    case Deliver(ts) => DeliverHides(f, ts);
  }

  lemma HidesQuiet(cfg: Cfg, e: End)
    requires Hides(cfg, e)
    ensures Quiet(e) && SameRead(e, e)
  {
  }

  lemma SameSelf(e: End)
    ensures SameLog(e, e)
  {
  }

  lemma StepBStays(s: Sys, act: Action)
    requires Inv(s) && Stalled(s) && EnabledA(Flip(s), act)
    ensures s.cb.Ok() && Stalled(Flip(StepA(Flip(s), act))) && Still(s, Flip(StepA(Flip(s), act)))
  {
    hide Inv, Blocked, Hides, AllClosed, EnabledA, StepA, EndGrows, SameLog, SameRead;
    FlipInv(s);
    StepHidden(Flip(s), act);
    StepGrows(Flip(s), act);
    SameSelf(s.a);
  }

  // ---------- for good ----------

  /** Whatever happens from then on, and whatever else is sent, b reads nothing more. */
  lemma {:induction false} StalledForGood(states: seq<Sys>, steps: seq<Step>, j: nat)
    requires |states| == |steps| + 1 && forall i :: 0 <= i < |steps| ==> Goes(states[i], steps[i], states[i + 1])
    requires Inv(states[0]) && Stalled(states[0]) && j <= |steps|
    ensures Inv(states[j]) && Stalled(states[j]) && Still(states[0], states[j])
  {
    hide Inv, Stalled, StepA, EnabledA;
    if j > 0 {
      StalledForGood(states, steps, j - 1);
      var s, st := states[j - 1], steps[j - 1];
      assert Goes(s, st, states[j - 1 + 1]);
      StepKeepsInv(s, st);
      if st.AtA? {
        StepAStays(s, st.act);
      } else {
        StepBStays(s, st.act);
      }
    }
  }

  // ---------- how it comes about ----------

  /** A sender without congestion window, with a send window of one segment more than m. */
  function StallCfg(conv: u32, m: nat): Cfg
    requires m < WND_RCV - 1
  {
    NoDelay(WndSize(DefaultCfg(conv), m + 1, 0), -1, -1, -1, 1)
  }

  const MSS: int := 1376

  /** A message of one fragment, and one of m + 1. */
  function Small(): seq<u8> {
    [0]
  }

  function Large(m: nat): seq<u8> {
    seq(m * MSS + 1, _ => 0)
  }

  function Queued(m: nat): (q: seq<Frag>)
    requires m < WND_RCV - 1
    ensures |q| == m + 2
  {
    FragmentsShape(MSS, false, Large(m), m + 1);
    [Frag(0, Small())] + Fragments(MSS, false, Large(m), m + 1)
  }

  lemma QueuedShape(m: nat)
    requires m < WND_RCV - 1
    ensures var q := Queued(m);
      |q| == m + 2 && q[0] == Frag(0, Small()) && forall i :: 1 <= i < m + 2 ==> q[i].frg == m + 1 - i
  {
    FragmentsShape(MSS, false, Large(m), m + 1);
    hide Fragments;
  }

  /** The sender with both messages queued. */
  function Loaded(cfg: Cfg, m: nat): End
    requires cfg.Ok()
  {
    SendE(cfg, SendE(cfg, Fresh(), Small()), Large(m))
  }

  lemma IsLoaded(cfg: Cfg, m: nat)
    requires cfg.Ok() && !cfg.stream && cfg.Mss() == MSS && m < WND_RCV - 1
    ensures Loaded(cfg, m) ==
            Fresh().(k := Create().(snd := Snd(0, 0, Queued(m), [])),
                     accepted := [Small(), Large(m)], acceptedBytes := Small() + Large(m))
  {
    var q, l := [Frag(0, Small())], Large(m);
    SendOne(cfg, [], Small(), 1);
    assert Small()[..1] == Small();
    assert Fragments(MSS, false, Small()[1..], 0) == [];
    assert Fragments(MSS, false, Small(), 1) == q;
    assert [] + q == q;
    SendOne(cfg, q, l, m + 1);
    hide Fragments, FragCount, Large, SendQueue;
    assert [] + [Small()] + [l] == [Small(), l] && [] + Small() + l == Small() + l;
  }

  lemma SendOne(cfg: Cfg, q: seq<Frag>, buf: seq<u8>, count: nat)
    requires cfg.Ok() && !cfg.stream && cfg.Mss() == MSS && (count - 1) * MSS < |buf| <= count * MSS
    requires 1 <= count < WND_RCV
    ensures SendQueue(cfg, q, buf) == Sent(0, q + Fragments(MSS, false, buf, count))
  {
    assert buf[0..] == buf;
    assert FragCount(MSS, |buf|) == count;
    hide Fragments, FragCount;
  }

  /** Some message of the network is of this kind and has this number. */
  ghost predicate Carries(net: set<TMsg>, cmd: u8, x: int) {
    exists t :: t in net && Names(t, cmd, x)
  }

  /** The sender in its first update, about to flush. */
  function Starting(conv: u32, m: nat): End
    requires m < WND_RCV - 1
  {
    TickE(StallCfg(conv, m), Loaded(StallCfg(conv, m), m), 0)
  }

  lemma IsStarting(conv: u32, m: nat)
    requires m < WND_RCV - 1
    ensures Starting(conv, m) ==
            Fresh().(k := Create().(snd := Snd(0, 0, Queued(m), []), updated := true, tsFlush := 100),
                     accepted := [Small(), Large(m)], acceptedBytes := Small() + Large(m))
  {
    IsLoaded(StallCfg(conv, m), m);
    hide Queued, Large, Loaded;
  }

  /** What is filled in then: all but the last fragment. */
  lemma FirstFill(cfg: Cfg, k: Pcb, q: seq<Frag>, m: nat)
    requires cfg.sndWnd == m + 1 <= 127 && cfg.nocwnd && |q| == m + 2
    requires k.snd == Snd(0, 0, q, []) && k.cong.rmtWnd == 128
    ensures var f := FilledSnd(cfg, k);
      && f.queue == q[m + 1..] && |f.buf| == m + 1 && f.una == 0
      && forall x :: 0 <= x <= m ==> f.buf[x].xmit == 0 && Off(f.buf[x].sn, 0) == x
  {
    assert SendWindow(cfg, k.cong) == m + 1;
    FillWindowCorrect(k.snd, m + 1, m + 1, WndUnused(cfg, k.rcv), k.current, k.rcv.nxt, k.rtt.rto);
    hide FillWindow, Asc;
  }

  /** The first flush: all but the last fragment are numbered and sent. */
  lemma FirstFlush(conv: u32, m: nat)
    requires m < WND_RCV - 1
    ensures var f := FlushE(StallCfg(conv, m), Starting(conv, m));
      && f.log == Queued(m)[..m + 1] && f.u == 0 && f.k.snd.queue == Queued(m)[m + 1..]
      && f.acceptedBytes == Small() + Large(m)
    ensures forall x :: 0 <= x <= m ==> Carries(Set(FlushTags(StallCfg(conv, m), Starting(conv, m))), CMD_PUSH, x)
  {
    var cfg, e := StallCfg(conv, m), Starting(conv, m);
    IsStarting(conv, m);
    FirstFill(cfg, e.k, Queued(m), m);
    hide Queued, Large, Starting, FilledSnd;
    FlushFields(cfg, e);
    assert [] + Queued(m)[..m + 1] == Queued(m)[..m + 1];
    FlushApp(cfg, e);
    FlushKeeps(cfg, e);
    hide FlushE, FlushTags;
    forall x | 0 <= x <= m
      ensures Carries(Set(FlushTags(cfg, e)), CMD_PUSH, x)
    {
      var i := PushIndex(RoundOf(cfg, e.k), FilledSnd(cfg, e.k).buf, x);
      FirstTag(cfg, e, FilledSnd(cfg, e.k), i, x);
    }
  }

  /** A segment never sent before is among the messages of a flush. */
  lemma {:induction false} PushIndex(r: Round, buf: seq<Seg>, x: nat) returns (i: nat)
    requires x < |buf| && buf[x].xmit == 0
    ensures i < |PushMsgs(r, buf)| && PushMsgs(r, buf)[i] == PushMsg(r, Resent(r, buf[x]))
  {
    hide Resent, PushMsg;
    var here := if Due(r, buf[0]).Wait? then [] else [PushMsg(r, Resent(r, buf[0]))];
    if x == 0 {
      i := 0;
    } else {
      i := PushIndex(r, buf[1..], x - 1);
      i := |here| + i;
    }
  }

  lemma FirstTag(cfg: Cfg, e: End, f: Snd, i: nat, x: nat)
    requires cfg.Ok() && e.k.updated && f == FilledSnd(cfg, e.k) && x < |f.buf|
    requires i < |PushMsgs(RoundOf(cfg, e.k), f.buf)|
    requires PushMsgs(RoundOf(cfg, e.k), f.buf)[i] == PushMsg(RoundOf(cfg, e.k), Resent(RoundOf(cfg, e.k), f.buf[x]))
    requires |e.acks| == |e.k.rcv.acks| && e.u + Off(f.buf[x].sn, e.k.snd.una) == x
    ensures Carries(Set(FlushTags(cfg, e)), CMD_PUSH, x)
  {
    ControlCount(cfg, e.k);
    var c := |ControlMsgs(cfg, e.k)|;
    hide ControlMsgs, PushMsgs, FilledSnd;
    assert FlushMsgs(cfg, e.k)[c + i] == PushMsgs(RoundOf(cfg, e.k), f.buf)[i];
    assert Names(FlushTags(cfg, e)[c + i], CMD_PUSH, x) && FlushTags(cfg, e)[c + i] in Set(FlushTags(cfg, e));
  }

  /** A run that ends in s. */
  ghost predicate Ends(states: seq<Sys>, s: Sys) {
    |states| > 0 && Run(states) && states[|states| - 1] == s && Inv(s)
  }

  lemma Extend(states: seq<Sys>, s: Sys, st: Step) returns (more: seq<Sys>)
    requires Ends(states, s) && Enabled(s, st)
    ensures s.ca.Ok() && s.cb.Ok() && Ends(more, Apply(s, st))
  {
    hide Inv, Enabled, Apply, Run;
    CfgOk(s);
    FlipInv(s);
    CfgOk(Flip(s));
    StepKeepsInv(s, st);
    RunOn(states, Apply(s, st), st);
    more := states + [Apply(s, st)];
  }

  lemma RunOn(states: seq<Sys>, r: Sys, st: Step)
    requires Run(states) && Goes(states[|states| - 1], st, r)
    ensures Run(states + [r])
  {
    hide Init, Enabled, Apply;
    var more := states + [r];
    forall i | 0 <= i < |more| - 1
      ensures Next(more[i], more[i + 1])
    {
      if i < |states| - 1 {
        assert Next(states[i], states[i + 1]);
      }
    }
  }

  lemma ExtendA(states: seq<Sys>, s: Sys, act: Action) returns (more: seq<Sys>)
    requires Ends(states, s) && EnabledA(s, act)
    ensures s.ca.Ok() && Ends(more, StepA(s, act))
  {
    hide EnabledA, StepA, Ends;
    more := Extend(states, s, AtA(act));
  }

  lemma ExtendB(states: seq<Sys>, s: Sys, act: Action) returns (more: seq<Sys>)
    requires Ends(states, s) && EnabledA(Flip(s), act)
    ensures s.cb.Ok() && Ends(more, Flip(StepA(Flip(s), act)))
  {
    hide EnabledA, StepA, Ends;
    more := Extend(states, s, AtB(act));
  }

  /** Both ends as they are at first, the sender's messages apart. */
  function AtFirst(cb: Cfg, m: nat, e: End): Sys
    requires m < WND_RCV - 1
  {
    Sys(StallCfg(cb.conv, m), cb, e, Fresh(), {}, {})
  }

  lemma SendBoth(cb: Cfg, m: nat) returns (states: seq<Sys>)
    requires m < WND_RCV - 1 && PairOk(StallCfg(cb.conv, m), cb)
    ensures Ends(states, FlushA(AtFirst(cb, m, Starting(cb.conv, m))))
  {
    var cfg := StallCfg(cb.conv, m);
    var s0 := AtFirst(cb, m, Fresh());
    InitInv(s0);
    var first := [s0];
    assert Run(first);
    IsLoaded(cfg, m);
    hide SendE, FlushE, FlushTags, Inv, Queued, Large, Run, Loaded, Starting;
    var s1 := AtFirst(cb, m, SendE(cfg, Fresh(), Small()));
    var s2 := AtFirst(cb, m, Loaded(cfg, m));
    states := ExtendA(first, s0, Send(Small()));
    assert StepA(s0, Send(Small())) == s1;
    states := ExtendA(states, s1, Send(Large(m)));
    LoadedIs(cfg, m);
    assert StepA(s1, Send(Large(m))) == s2;
    states := ExtendA(states, s2, Update(0));
    StartingIs(cb, m);
  }

  lemma LoadedIs(cfg: Cfg, m: nat)
    requires cfg.Ok()
    ensures Loaded(cfg, m) == SendE(cfg, SendE(cfg, Fresh(), Small()), Large(m))
  {
  }

  lemma StartingIs(cb: Cfg, m: nat)
    requires m < WND_RCV - 1 && PairOk(StallCfg(cb.conv, m), cb)
    ensures var s := AtFirst(cb, m, Loaded(StallCfg(cb.conv, m), m));
      StepA(s, Update(0)) == FlushA(AtFirst(cb, m, Starting(cb.conv, m)))
  {
    var s := AtFirst(cb, m, Loaded(StallCfg(cb.conv, m), m));
    IsLoaded(StallCfg(cb.conv, m), m);
    hide FlushE, FlushTags, Queued, Large, Loaded;
    assert FlushDue(s.a.k, 0);
  }

  // ---------- the receiver's part, seen from it ----------

  /** What has been noted for acknowledgement is held; with nothing missing all of the log has been taken in. */
  lemma AllTaken(f: Sys)
    requires Inv(f) && |f.b.log| < WND_RCV && forall x :: 0 <= x < |f.b.log| ==> x in f.a.acks
    ensures f.a.n == |f.b.log|
  {
    BInLog(f);
    DirParts(f.cb, f.b, f.ca, f.a, f.ba, f.ab);
    assert |f.a.k.rcv.queue| < f.ca.rcvWnd;
    HeadMissing(f.ca.rcvWnd, f.a.k.rcv, f.a.n, f.a.acks, f.b.log);
    AllHeld(f.ca.rcvWnd, f.a.k.rcv, f.a.n, f.a.acks, f.b.log);
    hide Inv, Dir, RcvInv, SndInv, Covered, RecvApp, SendApp, Held;
    assert f.a.n < |f.b.log| ==> f.a.n in f.a.acks;
  }

  lemma AllHeld(wnd: u32, rcv: Rcv, n: int, acks: seq<int>, log: seq<Frag>)
    requires RcvInv(wnd, rcv, n, acks, log)
    ensures forall x :: x in acks ==> Held(wnd, rcv, n, x)
  {
    hide Held, W;
  }

  /** The receiver hears the whole flush. */
  lemma HearFlush(f: Sys, ts: seq<TMsg>)
    requires Inv(f) && Young(f) && f.a == Fresh() && |f.b.log| < WND_RCV
    requires forall i :: 0 <= i < |ts| ==> ts[i] in f.ba
    requires forall x :: 0 <= x < |f.b.log| ==> Carries(Set(ts), CMD_PUSH, x)
    ensures f.ca.Ok() && EnabledA(f, Deliver(ts))
    ensures var r := StepA(f, Deliver(ts));
      && Inv(r) && r == f.(a := r.a) && r.a.taken == 0 && r.a.deliveredBytes == [] && !r.a.k.updated
      && r.a.n == |r.b.log| && forall x :: 0 <= x < |r.b.log| ==> x in r.a.acks
  {
    hide Inv, EnabledA, Young, StepA, DeliverE, Encodable, Plain, Carries;
    InvWindow(f);
    YoungEnables(f, ts);
    DeliverIs(f, ts);
    StepAKeepsInv(f, Deliver(ts));
    DeliveredApp(f.ca, f.a, ts);
    DeliverGrows(f, ts);
    HearAll(f, ts);
    AllTaken(StepA(f, Deliver(ts)));
  }

  lemma HearAll(f: Sys, ts: seq<TMsg>)
    requires Inv(f) && EnabledA(f, Deliver(ts)) && f.a == Fresh() && |f.b.log| < WND_RCV && f.ca.Ok()
    requires forall x :: 0 <= x < |f.b.log| ==> Carries(Set(ts), CMD_PUSH, x)
    ensures forall x :: 0 <= x < |f.b.log| ==> x in StepA(f, Deliver(ts)).a.acks
  {
    hide Inv, EnabledA, StepA, Names;
    forall x | 0 <= x < |f.b.log|
      ensures x in StepA(f, Deliver(ts)).a.acks
    {
      assert Carries(Set(ts), CMD_PUSH, x);
      var t :| t in Set(ts) && Names(t, CMD_PUSH, x);
      TakenIn(f, ts, t, x);
    }
  }

  /** It reads the small message, and is left with all of the large one but its last fragment. */
  lemma ReadSmall(f: Sys, m: nat)
    requires Inv(f) && f.a.taken == 0 && f.a.deliveredBytes == [] && f.a.n == |f.b.log| && !f.a.k.updated
    requires m < WND_RCV - 1 && f.b.log == Queued(m)[..m + 1] && f.ca.rcvWnd % TWO16 == m && f.ca.rcvWnd >= WND_RCV
    ensures f.ca.Ok() && var r := StepA(f, Action.Recv(1));
      && Inv(r) && r == f.(a := r.a) && r.a.acks == f.a.acks && !r.a.k.updated
      && r.a.n == |r.b.log| && r.a.deliveredBytes == Small() && Hides(r.ca, r.a)
  {
    CfgOk(f);
    QueuedShape(m);
    BInLog(f);
    var r := StepA(f, Action.Recv(1));
    hide Queued, Inv, Small;
    StepAKeepsInv(f, Action.Recv(1));
    BInLog(r);
    ReadFirst(f.ca, f.a);
    LeftOver(f.ca, r.a, Queued(m), m);
  }

  lemma ReadFirst(cfg: Cfg, e: End)
    requires e.k.rcv.queue != [] && e.k.rcv.queue[0] == Frag(0, Small())
    ensures var r := RecvE(cfg, e, 1);
      && r.taken == e.taken + 1 && r.deliveredBytes == e.deliveredBytes + Small() && r.acks == e.acks
      && r.n >= e.n && r.k.updated == e.k.updated
  {
    var q := e.k.rcv.queue;
    assert PeekSize(q) == 1 && FirstMessage(q) == 1;
    assert Bytes(q[..1]) == Small() + Bytes(q[..1][1..]) == Small();
    hide Drain, Bytes, FirstMessage, PeekSize;
  }

  lemma LeftOver(cfg: Cfg, e: End, q: seq<Frag>, m: nat)
    requires m < WND_RCV - 1 && |q| == m + 2 && forall i :: 1 <= i < m + 2 ==> q[i].frg == m + 1 - i
    requires e.k.rcv.queue == q[..m + 1][1..m + 1] && cfg.rcvWnd % TWO16 == m && cfg.rcvWnd >= WND_RCV
    ensures Hides(cfg, e)
  {
    var r := e.k.rcv.queue;
    assert |r| == m && (m > 0 ==> r[0] == q[1]);
    hide Bytes, FirstMessage;
  }

  /** It acknowledges all it has, and shows its window as closed. */
  lemma Acknowledge(f: Sys)
    requires Inv(f) && Hides(f.ca, f.a) && !f.a.k.updated && AllClosed(f.ab)
    requires forall x :: 0 <= x < |f.b.log| ==> x in f.a.acks
    ensures f.ca.Ok() && var r := StepA(f, Update(0));
      && Inv(r) && r == f.(a := r.a, ab := r.ab) && Hides(r.ca, r.a) && SameRead(f.a, r.a) && r.a.n == f.a.n
      && AllClosed(r.ab) && forall x :: 0 <= x < |r.b.log| ==> Carries(r.ab, CMD_ACK, x)
  {
    assert FlushDue(f.a.k, 0);
    hide Inv, StepA, Hides, SameRead, AllClosed, Names, FlushDue;
    CfgOk(f);
    UpdateHidden(f, 0);
    StepAKeepsInv(f, Update(0));
    UpdateFrame(f);
    forall x | 0 <= x < |f.b.log|
      ensures Carries(StepA(f, Update(0)).ab, CMD_ACK, x)
    {
      FlushAcks(f, Update(0), x);
    }
  }

  lemma UpdateFrame(f: Sys)
    requires f.ca.Ok()
    ensures var r := StepA(f, Update(0)); r == f.(a := r.a, ab := r.ab)
  {
    hide FlushE, FlushTags, TickE, FlushDue;
  }

  // ---------- the sender's part ----------

  /** A message that says the window is closed. */
  lemma OneHeard(s: Sys, t: TMsg)
    requires Inv(s) && EnabledA(s, Deliver([t])) && t.m.wnd == 0
    ensures s.ca.Ok() && StepA(s, Deliver([t])).a.k.cong.rmtWnd == 0
  {
    hide Inv, DeliverE, EnabledA, AllSendable, Encodable, StepA, AllClosed;
    Taking(s, [t]);
    DeliverIs(s, [t]);
    ClosedOnce(s.ca, s.a, t);
  }

  lemma ClosedOnce(cfg: Cfg, e: End, t: TMsg)
    requires cfg.Ok() && AllSendable(cfg.conv, Plain([t])) && Encodable(Plain([t])) && t.m.wnd == 0
    ensures DeliverE(cfg, e, [t]).k.cong.rmtWnd == 0
  {
    DeliverData(cfg, e, [t]);
    InputAllPlain(cfg, e, [t]);
    assert Plain([t]) == [t.m];
    hide Plain, InputAllE, Input, InputMsgs, AllSendable, Encodable;
    LastWindow(cfg, e.k, [t.m], 0);
  }

  /** The acknowledgements arrive one by one. */
  lemma {:induction false} FreeAll(states: seq<Sys>, s: Sys) returns (more: seq<Sys>, r: Sys)
    requires Ends(states, s) && Young(s) && AllClosed(s.ba) && (s.a.u == |s.a.log| ==> s.a.k.cong.rmtWnd == 0)
    requires forall x :: 0 <= x < |s.a.log| ==> Carries(s.ba, CMD_ACK, x)
    ensures Ends(more, r) && r == s.(a := r.a) && Blocked(r.a) && SameLog(s.a, r.a)
    ensures r.a.k.snd.queue == s.a.k.snd.queue
    decreases |s.a.log| - s.a.u
  {
    hide Inv, StepA, EnabledA, AllClosed, Names, DeliverE, Run, Encodable, Plain;
    UnaInLog(s);
    more, r := states, s;
    if s.a.u < |s.a.log| {
      assert Carries(s.ba, CMD_ACK, s.a.u);
      var t :| t in s.ba && Names(t, CMD_ACK, s.a.u);
      ClosedOne(s.ba, t);
      YoungEnables(s, [t]);
      more := ExtendA(states, s, Deliver([t]));
      var x := StepA(s, Deliver([t]));
      TakenIn(s, [t], t, s.a.u);
      OneHeard(s, t);
      DeliverIs(s, [t]);
      Taking(s, [t]);
      DeliveredApp(s.ca, s.a, [t]);
      DeliverLogs(s.ca, s.a, [t]);
      more, r := FreeAll(more, x);
    }
  }

  lemma ClosedOne(net: set<TMsg>, t: TMsg)
    requires AllClosed(net) && t in net
    ensures t.m.wnd == 0
  {
  }

  /** a has sent all fragments but the last. */
  lemma Stage1(cb: Cfg, m: nat) returns (states: seq<Sys>, s: Sys, ts: seq<TMsg>)
    requires m < WND_RCV - 1 && PairOk(StallCfg(cb.conv, m), cb)
    ensures Ends(states, s) && s.cb == cb && s.b == Fresh() && s.ba == {}
    ensures forall i :: 0 <= i < |ts| ==> ts[i] in s.ab
    ensures s.a.log == Queued(m)[..m + 1] && s.a.u == 0 && s.a.k.snd.queue == Queued(m)[m + 1..]
    ensures s.a.acceptedBytes == Small() + Large(m)
    ensures forall x :: 0 <= x <= m ==> Carries(Set(ts), CMD_PUSH, x)
  {
    hide Inv, FlushE, FlushTags, Queued, Run, Starting, Carries, Large;
    var t := AtFirst(cb, m, Starting(cb.conv, m));
    ts := FlushTags(t.ca, t.a);
    states := SendBoth(cb, m);
    FirstFlush(cb.conv, m);
    s := FlushA(t);
    AllInNet(ts, s.ab);
  }

  /** b has taken in and acknowledged all of them, and read what it can. */
  lemma Stage2(states: seq<Sys>, s: Sys, ts: seq<TMsg>, m: nat) returns (more: seq<Sys>, r: Sys)
    requires m < WND_RCV - 1 && s.cb.rcvWnd % TWO16 == m && Young(s)
    requires Ends(states, s) && s.b == Fresh() && s.ba == {} && forall i :: 0 <= i < |ts| ==> ts[i] in s.ab
    requires s.a.log == Queued(m)[..m + 1]
    requires forall x :: 0 <= x <= m ==> Carries(Set(ts), CMD_PUSH, x)
    ensures Ends(more, r) && r == s.(b := r.b, ba := r.ba) && Hides(r.cb, r.b) && r.b.n == |r.a.log| && AllClosed(r.ba)
    ensures r.b.deliveredBytes == Small() && forall x :: 0 <= x < |r.a.log| ==> Carries(r.ba, CMD_ACK, x)
    ensures |r.b.log| + |r.b.k.snd.queue| == 0
  {
    hide Inv, StepA, EnabledA, Queued, Run, Hides, Carries, Encodable, Plain, AllClosed, EndKept;
    FlipInv(s);
    YoungFlipped(s);
    InvWindow(Flip(s));
    HearFlush(Flip(s), ts);
    var f1 := StepA(Flip(s), Deliver(ts));
    more := ExtendB(states, s, Deliver(ts));
    StepKept(Flip(s), Deliver(ts));
    RecvEnabled(f1);
    ReadSmall(f1, m);
    var f2 := StepA(f1, Action.Recv(1));
    more := ExtendB(more, Flip(f1), Action.Recv(1));
    StepKept(f1, Action.Recv(1));
    NoneClosed();
    Acknowledge(f2);
    RecvEnabled(f2);
    more := ExtendB(more, Flip(f2), Update(0));
    StepKept(f2, Update(0));
    KeptOn(s.b, f1.a, f2.a);
    r := Flip(StepA(f2, Update(0)));
    KeptOn(s.b, f2.a, r.b);
    KeptTotal(s.b, r.b);
  }

  lemma RecvEnabled(f: Sys)
    ensures EnabledA(f, Action.Recv(1)) && EnabledA(f, Update(0))
  {
  }

  lemma WindowLeft(cb: Cfg, m: int)
    requires cb.Ok() && cb.sndWnd < TWO30 && cb.rcvWnd < TWO30 && !ShowsRoom(cb) && m == cb.rcvWnd % TWO16
    ensures 0 <= m < WND_RCV - 1 && PairOk(StallCfg(cb.conv, m), cb)
  {
  }

  lemma LargeIs(m: nat)
    ensures |Large(m)| == m * MSS + 1 > 0
  {
  }

  /** For every such window there is a run to a state in which all stands still, with bytes accepted and not read. */
  lemma StallComesAbout(cb: Cfg) returns (states: seq<Sys>, s: Sys)
    requires cb.Ok() && cb.sndWnd < TWO30 && cb.rcvWnd < TWO30 && !ShowsRoom(cb)
    ensures Ends(states, s) && s.cb == cb && Stalled(s) && StaysYoung(s)
    ensures |s.b.deliveredBytes| < |s.a.acceptedBytes|
  {
    var m := cb.rcvWnd % TWO16;
    WindowLeft(cb, m);
    hide Ends, Hides, Carries, AllClosed, Queued, Large, Blocked, PairOk, ShowsRoom, Cfg.Ok, Stalled, StaysYoung;
    LargeIs(m);
    var states1, s1, ts := Stage1(cb, m);
    var states2, s2 := Stage2(states1, s1, ts, m);
    states, s := FreeAll(states2, s2);
    AllStands(s2, s);
  }

  lemma AllStands(s: Sys, r: Sys)
    requires r == s.(a := r.a) && Blocked(r.a) && SameLog(s.a, r.a) && r.a.k.snd.queue == s.a.k.snd.queue
    requires Hides(s.cb, s.b) && s.b.n == |s.a.log| && AllClosed(s.ba)
    requires |s.a.log| + |s.a.k.snd.queue| < TWO30 && |s.b.log| + |s.b.k.snd.queue| == 0
    ensures Stalled(r) && StaysYoung(r)
  {
    hide Blocked, Hides, AllClosed;
  }

  lemma AllInNet(ts: seq<TMsg>, net: set<TMsg>)
    requires net == {} + Set(ts)
    ensures forall i :: 0 <= i < |ts| ==> ts[i] in net
  {
  }

  lemma NoneClosed()
    ensures AllClosed({})
  {
  }

  /**
   * The exact condition: from every state of every run of a young connection to a receiver with this
   * configuration b can come to read all that a has accepted, exactly if the window shows its room.
   */
  lemma RoomDecides(cb: Cfg)
    requires cb.Ok() && cb.sndWnd < TWO30 && cb.rcvWnd < TWO30
    ensures ShowsRoom(cb) <==>
            forall states: seq<Sys>, i ::
              (Run(states) && 0 <= i < |states| && states[i].cb == cb && StaysYoung(states[i])) ==>
              exists r :: Reaches(states[i], r) && AllDelivered(r)
  {
    hide Run, Reaches, StaysYoung, AllDelivered, Kept;
    if ShowsRoom(cb) {
      forall states: seq<Sys>, i | Run(states) && 0 <= i < |states| && states[i].cb == cb && StaysYoung(states[i])
        ensures exists r :: Reaches(states[i], r) && AllDelivered(r)
      {
        DeliveryStaysPossible(states, i);
      }
    } else {
      var states, s := StallComesAbout(cb);
      var last := |states| - 1;
      forall r | Reaches(states[last], r)
        ensures !AllDelivered(r)
      {
        NeverDelivered(s, r);
      }
      assert Run(states) && states[last].cb == cb && StaysYoung(states[last]);
    }
  }

  lemma NeverDelivered(s: Sys, r: Sys)
    requires Inv(s) && Stalled(s) && |s.b.deliveredBytes| < |s.a.acceptedBytes| && Reaches(s, r)
    ensures !AllDelivered(r)
  {
    hide Inv, Stalled, Leads;
    var steps :| Leads(s, steps, r);
    LeadsStalled(s, steps, r);
  }

  lemma {:induction false} LeadsStalled(s: Sys, steps: seq<Step>, r: Sys)
    requires Inv(s) && Stalled(s) && Leads(s, steps, r)
    ensures Still(s, r)
    decreases |steps|
  {
    hide Inv, Stalled, StepA, EnabledA;
    if steps != [] {
      var st := steps[0];
      StepKeepsInv(s, st);
      if st.AtA? {
        StepAStays(s, st.act);
      } else {
        StepBStays(s, st.act);
      }
      LeadsStalled(Apply(s, st), steps[1..], r);
    }
  }
}
