// Whole runs of two KCP endpoints: what holds after any number of sends,
// receives, updates and deliveries in any order.
module KcpRuns {
  import opened Word
  import opened Wire
  import opened KcpSpec
  import opened KcpLocal
  import opened KcpLink
  import opened KcpFrag
  import opened KcpSystem

  /** Endpoints a and b, and the messages ever sent from a to b and from b to a. */
  datatype Sys = Sys(ca: Cfg, cb: Cfg, a: End, b: End, ab: set<TMsg>, ba: set<TMsg>)

  datatype Action = Send(buf: seq<u8>) | Recv(len: int) | FlushNow | Update(current: u32) | Deliver(ts: seq<TMsg>)

  datatype Step = AtA(act: Action) | AtB(act: Action)

  function Flip(s: Sys): Sys {
    Sys(s.cb, s.ca, s.b, s.a, s.ba, s.ab)
  }

  /** t was sent to a at some time, and fewer than 2^31 numbers less a window have been used since. */
  predicate Deliverable(s: Sys, t: TMsg) {
    t in s.ba && FreshAck(t, s.a.log) && FreshPush(t, s.b.log, s.ca.rcvWnd)
  }

  /** The network may deliver any messages in flight, again and again, in any order and grouping. */
  predicate EnabledA(s: Sys, act: Action) {
    act.Deliver? ==> Encodable(Plain(act.ts)) && forall i :: 0 <= i < |act.ts| ==> Deliverable(s, act.ts[i])
  }

  function FlushA(s: Sys): Sys
    requires s.ca.Ok()
  {
    s.(a := FlushE(s.ca, s.a), ab := s.ab + Set(FlushTags(s.ca, s.a)))
  }

  function StepA(s: Sys, act: Action): Sys
    requires s.ca.Ok() && EnabledA(s, act)
  {
    match act
    case Send(buf) => s.(a := SendE(s.ca, s.a, buf))
    case Recv(len) => s.(a := RecvE(s.ca, s.a, len))
    case FlushNow => FlushA(s)
    case Update(current) =>
      var ticked := s.(a := TickE(s.ca, s.a, current));
      if FlushDue(s.a.k, current) then FlushA(ticked) else ticked
    case Deliver(ts) => s.(a := DeliverE(s.ca, s.a, ts))
  }

  predicate Enabled(s: Sys, st: Step) {
    if st.AtA? then EnabledA(s, st.act) else EnabledA(Flip(s), st.act)
  }

  function Apply(s: Sys, st: Step): Sys
    requires s.ca.Ok() && s.cb.Ok() && Enabled(s, st)
  {
    if st.AtA? then StepA(s, st.act) else Flip(StepA(Flip(s), st.act))
  }

  predicate Init(s: Sys) {
    PairOk(s.ca, s.cb) && s.a == Fresh() && s.b == Fresh() && s.ab == {} && s.ba == {}
  }

  ghost predicate Next(s: Sys, s': Sys) {
    s.ca.Ok() && s.cb.Ok() && exists st :: Enabled(s, st) && s' == Apply(s, st)
  }

  ghost predicate Run(states: seq<Sys>) {
    && states != [] && Init(states[0])
    && forall i :: 0 <= i < |states| - 1 ==> Next(states[i], states[i + 1])
  }

  // ---------- the invariant ----------

  predicate NetOk(conv: u32, net: set<TMsg>) {
    forall t :: t in net ==> Sendable(conv, t.m)
  }

  predicate Inv(s: Sys) {
    && PairOk(s.ca, s.cb)
    && Dir(s.ca, s.a, s.cb, s.b, s.ab, s.ba)
    && Dir(s.cb, s.b, s.ca, s.a, s.ba, s.ab)
    && NetOk(s.ca.conv, s.ab) && NetOk(s.ca.conv, s.ba)
  }

  lemma DirSenderSame(cs: Cfg, s: End, s': End, cr: Cfg, r: End, sr: set<TMsg>, rs: set<TMsg>)
    requires Dir(cs, s, cr, r, sr, rs)
    requires s'.k.snd == s.k.snd && s'.k.cong == s.k.cong && s'.log == s.log && s'.u == s.u
    requires s'.accepted == s.accepted && s'.acceptedBytes == s.acceptedBytes
    ensures Dir(cs, s', cr, r, sr, rs)
  {
  }

  lemma DirReceiverSame(cs: Cfg, s: End, cr: Cfg, r: End, r': End, sr: set<TMsg>, rs: set<TMsg>)
    requires Dir(cs, s, cr, r, sr, rs)
    requires r'.k.rcv == r.k.rcv && r'.n == r.n && r'.acks == r.acks && r'.taken == r.taken
    requires r'.delivered == r.delivered && r'.deliveredBytes == r.deliveredBytes
    ensures Dir(cs, s, cr, r', sr, rs)
  {
  }

  lemma StepSend(s: Sys, buf: seq<u8>)
    requires Inv(s)
    ensures Inv(StepA(s, Send(buf)))
  {
    hide Dir, SendQueue, TopUp;
    DirSend(s.ca, s.a, s.cb, s.b, s.ab, s.ba, buf);
    DirReceiverSame(s.cb, s.b, s.ca, s.a, SendE(s.ca, s.a, buf), s.ba, s.ab);
  }

  lemma StepRecv(s: Sys, len: int)
    requires Inv(s)
    ensures Inv(StepA(s, Recv(len)))
  {
    hide Dir, Drain, PeekSize, FirstMessage, Bytes, Off;
    DirRecv(s.cb, s.b, s.ca, s.a, s.ba, s.ab, len);
    DirSenderSame(s.ca, s.a, RecvE(s.ca, s.a, len), s.cb, s.b, s.ab, s.ba);
  }

  lemma FlushNothing(s: Sys)
    requires s.ca.Ok() && !s.a.k.updated
    ensures FlushA(s) == s
  {
  }

  lemma StepFlush(s: Sys)
    requires Inv(s)
    ensures Inv(FlushA(s))
  {
    if !s.a.k.updated {
      FlushNothing(s);
    } else {
      var tags := FlushTags(s.ca, s.a);
      FlushFacts(s);
      hide Dir, FlushE, FlushTags, PushOk, AckOk, FlushLog;
      DirFlushSender(s.ca, s.a, s.cb, s.b, s.ab, s.ba, tags);
      DirFlushReceiver(s.cb, s.b, s.ca, s.a, s.ba, s.ab, tags);
      assert NetOk(s.ca.conv, s.ab + Set(tags));
      FlushBoth(s, tags);
    }
  }

  /** Both directions after a flush speak of the same new state. */
  lemma FlushBoth(s: Sys, tags: seq<TMsg>)
    requires s.ca.Ok() && tags == FlushTags(s.ca, s.a) && PairOk(s.ca, s.cb)
    requires Dir(s.ca, FlushE(s.ca, s.a), s.cb, s.b, s.ab + Set(tags), s.ba)
    requires Dir(s.cb, s.b, s.ca, FlushE(s.ca, s.a), s.ba, s.ab + Set(tags))
    requires NetOk(s.ca.conv, s.ab + Set(tags)) && NetOk(s.ca.conv, s.ba)
    ensures Inv(FlushA(s))
  {
  }

  lemma FlushFacts(s: Sys)
    requires Inv(s) && s.a.k.updated
    ensures forall i :: 0 <= i < |FlushTags(s.ca, s.a)| ==> var t := FlushTags(s.ca, s.a)[i];
      && Sendable(s.ca.conv, t.m) && PushOk(t, FlushLog(s.ca, s.a)) && AckOk(t, s.ca.rcvWnd, s.a.k.rcv, s.a.n)
  {
    var log := FlushLog(s.ca, s.a);
    DirParts(s.ca, s.a, s.cb, s.b, s.ab, s.ba);
    DirParts(s.cb, s.b, s.ca, s.a, s.ba, s.ab);
    SndUna(s.ca.sndWnd, s.a.k.snd, s.a.log, s.a.u);
    FlushSnd(s.ca, s.a);
    RcvFacts(s.ca.rcvWnd, s.a.k.rcv, s.a.n, s.a.acks, s.b.log);
    hide Dir, FilledSnd, FlushTags, SndInv, RcvInv, Covered, RecvApp, SndContent, AcksHeld, W, Has, Off, Flush;
    assert Short(s.ca.Mss(), log) by {
      ShortPrefix(s.ca.Mss(), log, FlushE(s.ca, s.a).k.snd.queue);
    }
    FlushTagsOk(s.ca, s.a, log);
  }

  lemma SndUna(wnd: u32, snd: Snd, log: seq<Frag>, u: int)
    requires SndInv(wnd, snd, log, u)
    ensures snd.una == W(u) && SndOk(snd, wnd)
  {
  }

  lemma RcvFacts(wnd: u32, rcv: Rcv, n: int, acks: seq<int>, log: seq<Frag>)
    requires RcvInv(wnd, rcv, n, acks, log)
    ensures rcv.nxt == W(n) && 0 <= n && AcksHeld(wnd, rcv, n, acks)
  {
  }

  lemma ShortPrefix(mss: int, a: seq<Frag>, b: seq<Frag>)
    requires Short(mss, a + b)
    ensures Short(mss, a)
  {
    assert forall i :: 0 <= i < |a| ==> (a + b)[i] == a[i];
  }

  lemma StepUpdate(s: Sys, current: u32)
    requires Inv(s)
    ensures Inv(StepA(s, Update(current)))
  {
    hide Dir, FlushA, Tick, NetOk;
    var ticked := s.(a := TickE(s.ca, s.a, current));
    TickData(s.ca, s.a.k, current);
    DirReceiverSame(s.cb, s.b, s.ca, s.a, ticked.a, s.ba, s.ab);
    DirSenderSame(s.ca, s.a, ticked.a, s.cb, s.b, s.ab, s.ba);
    StepFlush(ticked);
  }

  lemma TickData(cfg: Cfg, k: Pcb, current: u32)
    ensures Tick(cfg, k, current).snd == k.snd && Tick(cfg, k, current).rcv == k.rcv
    ensures Tick(cfg, k, current).cong == k.cong
  {
  }

  lemma StepDeliver(s: Sys, ts: seq<TMsg>)
    requires Inv(s) && EnabledA(s, Deliver(ts))
    ensures Inv(StepA(s, Deliver(ts)))
  {
    hide Dir, DeliverE, AckOk, PushOk, FreshAck, FreshPush, NetOk, AllSendable, Encodable, Plain, Deliverable;
    DeliverFacts(s, ts);
    DirDeliverSender(s.ca, s.a, s.cb, s.b, s.ab, s.ba, ts);
    DirDeliverReceiver(s.cb, s.b, s.ca, s.a, s.ba, s.ab, ts);
  }

  lemma DeliverFacts(s: Sys, ts: seq<TMsg>)
    requires Inv(s) && EnabledA(s, Deliver(ts))
    ensures AllSendable(s.ca.conv, Plain(ts))
    ensures forall i :: 0 <= i < |ts| ==>
      && PushOk(ts[i], s.b.log) && AckOk(ts[i], s.cb.rcvWnd, s.b.k.rcv, s.b.n)
      && FreshAck(ts[i], s.a.log) && FreshPush(ts[i], s.b.log, s.ca.rcvWnd)
  {
    hide SndInv, RcvInv, Covered, SendApp, RecvApp, PushOk, AckOk;
    assert forall i :: 0 <= i < |ts| ==> Deliverable(s, ts[i]);
  }

  lemma StepAKeepsInv(s: Sys, act: Action)
    requires Inv(s) && EnabledA(s, act)
    ensures Inv(StepA(s, act))
  {
    hide Inv, SendE, RecvE, FlushE, DeliverE, EnabledA;
    match act
    case Send(buf) => StepSend(s, buf);
    case Recv(len) => StepRecv(s, len);
    case FlushNow => StepFlush(s);
    case Update(current) => StepUpdate(s, current);
    case Deliver(ts) => StepDeliver(s, ts);
  }

  lemma StepKeepsInv(s: Sys, st: Step)
    requires Inv(s) && Enabled(s, st)
    ensures Inv(Apply(s, st))
  {
    hide Dir, NetOk, StepA, EnabledA;
    StepAKeepsInv(if st.AtA? then s else Flip(s), st.act);
  }

  lemma InitInv(s: Sys)
    requires Init(s)
    ensures Inv(s)
  {
    hide Dir;
    DirFresh(s.ca, s.cb);
    DirFresh(s.cb, s.ca);
  }

  /** The invariant holds in every state of every run. */
  lemma {:induction false} RunInv(states: seq<Sys>, i: nat)
    requires Run(states) && i < |states|
    ensures Inv(states[i])
  {
    hide Inv, Init, Enabled, Apply;
    if i == 0 {
      InitInv(states[0]);
    } else {
      RunInv(states, i - 1);
      assert Next(states[i - 1], states[i - 1 + 1]);
      var st :| Enabled(states[i - 1], st) && states[i] == Apply(states[i - 1], st);
      StepKeepsInv(states[i - 1], st);
    }
  }

  // ---------- the theorems ----------

  /** What a accepted and what b delivered, as parts of the fragments of a. */
  lemma AppParts(s: Sys)
    requires Inv(s)
    ensures 0 <= s.b.taken <= |s.a.log| && s.b.deliveredBytes == Bytes(s.a.log[..s.b.taken])
    ensures s.a.acceptedBytes == Bytes(s.a.log + s.a.k.snd.queue) && s.b.delivered == Messages([], s.a.log[..s.b.taken])
    ensures !s.ca.stream ==> s.a.accepted == Messages([], s.a.log + s.a.k.snd.queue)
  {
    DirParts(s.ca, s.a, s.cb, s.b, s.ab, s.ba);
    hide Dir, SndInv, RcvInv, Covered, CountsDown, KcpFrag.Closed, Short, Bytes, Messages, Unfinished;
  }

  /** Messages arrive whole, unaltered, once and in order: what b received is a prefix of what a sent. */
  lemma MessagesInOrder(states: seq<Sys>, i: nat)
    requires Run(states) && i < |states| && !states[i].ca.stream
    ensures states[i].b.delivered <= states[i].a.accepted
  {
    hide Inv, Run, Bytes, Messages;
    RunInv(states, i);
    var s := states[i];
    AppParts(s);
    PartMeans(s.a.log + s.a.k.snd.queue, s.a.log[..s.b.taken]);
  }

  /** The bytes b received are a prefix of the bytes a accepted, in message mode and in stream mode. */
  lemma BytesInOrder(states: seq<Sys>, i: nat)
    requires Run(states) && i < |states|
    ensures states[i].b.deliveredBytes <= states[i].a.acceptedBytes
  {
    hide Inv, Run, Bytes, Messages;
    RunInv(states, i);
    var s := states[i];
    AppParts(s);
    PartMeans(s.a.log + s.a.k.snd.queue, s.a.log[..s.b.taken]);
  }

  /** b has fragment x of a's log: it went to the queue already or waits in rcv_buf. */
  predicate HasAtB(s: Sys, x: int) {
    Held(s.cb.rcvWnd, s.b.k.rcv, s.b.n, x)
  }

  /**
   * No acknowledged data is lost.  Whatever a has freed, whatever b is about to
   * acknowledge and whatever an acknowledgement in flight names, b holds.
   */
  lemma NoAcknowledgedDataLost(states: seq<Sys>, i: nat)
    requires Run(states) && i < |states|
    ensures var s := states[i];
      && (forall x :: 0 <= x < |s.a.log| && !Has(s.a.k.snd.buf, W(x)) ==> HasAtB(s, x))
      && (forall x :: 0 <= x < s.a.u ==> HasAtB(s, x))
      && s.a.k.snd.una == W(s.a.u) && s.b.k.rcv.nxt == W(s.b.n)
      && |s.b.k.rcv.acks| == |s.b.acks|
      && (forall j :: 0 <= j < |s.b.k.rcv.acks| ==> s.b.k.rcv.acks[j].sn == W(s.b.acks[j]) && HasAtB(s, s.b.acks[j]))
      && (forall t :: t in s.ba ==> t.una <= s.b.n && t.m.una == W(t.una))
      && (forall t :: t in s.ba && t.m.cmd == CMD_ACK ==> t.m.sn == W(t.sn) && HasAtB(s, t.sn))
  {
    RunInv(states, i);
    hide Held, Has, W, SendApp, RecvApp, PushOk, SndOk, AscR;
  }

  /** The windows hold in unbounded numbers although no endpoint ever sees more than 32 bits of them. */
  lemma WindowBounds(states: seq<Sys>, i: nat)
    requires Run(states) && i < |states|
    ensures var s := states[i];
      && 0 <= |s.a.log| - s.a.u <= s.ca.sndWnd
      && s.b.n <= |s.a.log| <= s.b.n + 2 * s.cb.rcvWnd
      && s.a.u <= s.b.n + s.cb.rcvWnd
      && |s.b.k.rcv.queue| <= s.cb.rcvWnd && |s.b.k.rcv.buf| <= s.cb.rcvWnd
  {
    RunInv(states, i);
    var s := states[i];
    DirParts(s.ca, s.a, s.cb, s.b, s.ab, s.ba);
    hide Dir, Covered, SendApp, RecvApp, W, Off, RcvContent, SndContent, AcksHeld;
    assert 0 <= s.b.n;
    UnaBound(s.a.k.snd, s.a.log, s.a.u, s.ca.sndWnd, s.cb.rcvWnd, s.b.k.rcv, s.b.n);
    StoredBound(s.b.k.rcv.buf, s.b.k.rcv.nxt, s.cb.rcvWnd);
  }

  /** A full receive queue always starts with a complete message, so the application can always make room. */
  lemma NoReceiveDeadlock(states: seq<Sys>, i: nat)
    requires Run(states) && i < |states|
    ensures var s := states[i]; |s.b.k.rcv.queue| >= s.cb.rcvWnd ==> PeekSize(s.b.k.rcv.queue) >= 0
  {
    hide Inv, Run, PeekSize;
    RunInv(states, i);
    if |states[i].b.k.rcv.queue| >= states[i].cb.rcvWnd {
      QueueCountsDown(states[i]);
      FullQueueReady(states[i].b.k.rcv.queue);
    }
  }

  lemma QueueCountsDown(s: Sys)
    requires Inv(s)
    ensures CountsDown(s.b.k.rcv.queue) && s.cb.rcvWnd >= WND_RCV
    ensures 0 <= s.b.taken <= s.b.n <= |s.a.log| && s.b.k.rcv.queue == s.a.log[s.b.taken..s.b.n]
  {
    hide *;
    ForwardDir(s);
    DirParts(s.ca, s.a, s.cb, s.b, s.ab, s.ba);
    QueuePart(s.ca, s.a, s.b);
  }

  lemma ForwardDir(s: Sys)
    requires Inv(s)
    ensures Dir(s.ca, s.a, s.cb, s.b, s.ab, s.ba) && s.cb.rcvWnd >= WND_RCV
  {
    hide Dir;
  }

  lemma QueuePart(cfg: Cfg, a: End, b: End)
    requires SendApp(cfg, a) && RecvApp(b, a.log)
    ensures CountsDown(b.k.rcv.queue)
    ensures 0 <= b.taken <= b.n <= |a.log| && b.k.rcv.queue == a.log[b.taken..b.n]
  {
    hide Bytes, Messages, Unfinished, CountsDown;
    var all := a.log + a.k.snd.queue;
    assert b.k.rcv.queue == all[b.taken..b.n];
    CountsDownSlice(all, b.taken, b.n);
  }
}
