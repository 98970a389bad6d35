// Progress over whole runs: what becomes of the oldest unacknowledged segment once it is flushed, datagram by
// datagram and whatever happens in between.
module KcpExchange {
  import opened Word
  import opened Wire
  import opened KcpSpec
  import opened KcpLink
  import opened KcpSystem
  import opened KcpRuns
  import opened KcpProgress

  // ---------- datagrams ----------

  /** Every datagram is a stretch of the messages written. */
  lemma {:induction false} PackIsSlice(mtu: nat, cur: seq<Msg>, ms: seq<Msg>, p: seq<Msg>) returns (a: nat, b: nat)
    requires p in Pack(mtu, cur, ms)
    ensures a <= b <= |cur + ms| && p == (cur + ms)[a..b]
    decreases |ms|
  {
    if p == cur && cur != [] {
      a, b := 0, |cur|;
    } else if ms == [] {
      assert false;
    } else if Size(cur) + MsgSize(ms[0]) > mtu {
      assert [ms[0]] + ms[1..] == ms;
      a, b := PackIsSlice(mtu, [ms[0]], ms[1..], p);
      assert ms[a..b] == (cur + ms)[a + |cur|..b + |cur|];
      a, b := a + |cur|, b + |cur|;
    } else {
      assert cur + [ms[0]] + ms[1..] == cur + ms;
      a, b := PackIsSlice(mtu, cur + [ms[0]], ms[1..], p);
    }
  }

  /** Every message written is in a datagram. */
  lemma {:induction false} PackCovers(mtu: nat, cur: seq<Msg>, ms: seq<Msg>, i: nat) returns (a: nat, b: nat)
    requires i < |cur + ms|
    ensures a <= i < b <= |cur + ms| && (cur + ms)[a..b] in Pack(mtu, cur, ms)
    decreases |ms|
  {
    if ms == [] {
      a, b := 0, |cur|;
      assert (cur + ms)[0..|cur|] == cur && Pack(mtu, cur, ms) == [cur];
    } else if Size(cur) + MsgSize(ms[0]) > mtu {
      assert [ms[0]] + ms[1..] == ms;
      if i < |cur| {
        a, b := 0, |cur|;
        assert (cur + ms)[0..|cur|] == cur && (Flushed(cur) + Pack(mtu, [ms[0]], ms[1..]))[0] == cur;
      } else {
        a, b := PackCovers(mtu, [ms[0]], ms[1..], i - |cur|);
        assert ms[a..b] == (cur + ms)[a + |cur|..b + |cur|];
        a, b := a + |cur|, b + |cur|;
      }
    } else {
      assert cur + [ms[0]] + ms[1..] == cur + ms;
      a, b := PackCovers(mtu, cur + [ms[0]], ms[1..], i);
    }
  }

  /** ts are the messages of one datagram of the flush of e. */
  predicate DatagramOf(cfg: Cfg, e: End, ts: seq<TMsg>)
    requires cfg.Ok()
  {
    Plain(ts) in Datagrams(cfg, e.k) && forall t :: t in ts ==> t in FlushTags(cfg, e)
  }

  lemma PlainSlice(cfg: Cfg, e: End, a: nat, b: nat)
    requires cfg.Ok() && a <= b <= |FlushMsgs(cfg, e.k)|
    ensures |FlushTags(cfg, e)| == |FlushMsgs(cfg, e.k)|
    ensures Plain(FlushTags(cfg, e)[a..b]) == FlushMsgs(cfg, e.k)[a..b]
  {
    hide FlushMsgs;
  }

  /** Each message of a flush travels in one of its datagrams. */
  lemma DatagramCovers(cfg: Cfg, e: End, i: nat) returns (ts: seq<TMsg>)
    requires cfg.Ok() && i < |FlushTags(cfg, e)|
    ensures DatagramOf(cfg, e, ts) && FlushTags(cfg, e)[i] in ts
  {
    hide FlushMsgs, Pack;
    var ms := FlushMsgs(cfg, e.k);
    assert [] + ms == ms;
    var a, b := PackCovers(cfg.mtu, [], ms, i);
    PlainSlice(cfg, e, a, b);
    hide FlushTags;
    ts := FlushTags(cfg, e)[a..b];
    assert ts[i - a] == FlushTags(cfg, e)[i];
  }

  /**
   * The bytes of each datagram put out are the encoding of messages of the flush: the network may deliver them
   * as such.
   */
  lemma OutputDelivers(cfg: Cfg, e: End, d: seq<u8>) returns (ts: seq<TMsg>)
    requires cfg.Ok() && AllEncodable(Datagrams(cfg, e.k)) && d in EncodeEach(Datagrams(cfg, e.k))
    ensures DatagramOf(cfg, e, ts) && Encodable(Plain(ts)) && d == EncodeAll(Plain(ts))
  {
    hide FlushMsgs, Pack, EncodeAll, Encodable;
    var ms := FlushMsgs(cfg, e.k);
    var p := EncodedFrom(Datagrams(cfg, e.k), d);
    assert [] + ms == ms;
    var a, b := PackIsSlice(cfg.mtu, [], ms, p);
    PlainSlice(cfg, e, a, b);
    hide FlushTags;
    ts := FlushTags(cfg, e)[a..b];
  }

  lemma EncodedFrom(ps: seq<seq<Msg>>, d: seq<u8>) returns (p: seq<Msg>)
    requires AllEncodable(ps) && d in EncodeEach(ps)
    ensures p in ps && Encodable(p) && d == EncodeAll(p)
  {
    hide EncodeAll;
    var i :| 0 <= i < |EncodeEach(ps)| && EncodeEach(ps)[i] == d;
    p := ps[i];
  }

  // ---------- one step of a ----------

  /** The step flushes a: at once, or because the clock says so. */
  predicate Flushes(s: Sys, act: Action) {
    (act.FlushNow? && s.a.k.updated) || (act.Update? && FlushDue(s.a.k, act.current))
  }

  /** The state in which a is flushed, its clock set. */
  function Ticked(s: Sys, act: Action): Sys {
    if act.Update? then s.(a := TickE(s.ca, s.a, act.current)) else s
  }

  lemma TickedInv(s: Sys, act: Action)
    requires Inv(s)
    ensures Inv(Ticked(s, act))
  {
    hide Dir, NetOk, Tick;
    if act.Update? {
      TickData(s.ca, s.a.k, act.current);
      DirReceiverSame(s.cb, s.b, s.ca, s.a, Ticked(s, act).a, s.ba, s.ab);
      DirSenderSame(s.ca, s.a, Ticked(s, act).a, s.cb, s.b, s.ab, s.ba);
    }
  }

  lemma FlushingStep(s: Sys, act: Action)
    requires s.ca.Ok() && EnabledA(s, act) && Flushes(s, act)
    ensures StepA(s, act) == FlushA(Ticked(s, act)) && Ticked(s, act).a.k.updated
    ensures Ticked(s, act).a.acks == s.a.acks && Ticked(s, act).a.u == s.a.u && Ticked(s, act).ba == s.ba
  {
    hide FlushA;
  }

  /** snd_una and the log have not gone back, messages stay in flight, and the other side is as it was. */
  predicate Grows(s: Sys, r: Sys) {
    && EndGrows(s.a, r.a) && s.ab <= r.ab
    && r.b == s.b && r.ba == s.ba && r.ca == s.ca && r.cb == s.cb
  }

  predicate EndGrows(e: End, r: End) {
    e.u <= r.u && |e.log| <= |r.log| && (e.k.updated ==> r.k.updated)
  }

  lemma DeliverIs(s: Sys, ts: seq<TMsg>)
    requires s.ca.Ok() && EnabledA(s, Deliver(ts))
    ensures Encodable(Plain(ts)) && StepA(s, Deliver(ts)) == s.(a := DeliverE(s.ca, s.a, ts))
  {
    hide DeliverE, Encodable, Plain;
  }

  lemma StepGrows(s: Sys, act: Action)
    requires Inv(s) && EnabledA(s, act)
    ensures Grows(s, StepA(s, act))
  {
    InvDir(s);
    hide StepA, EnabledA, Inv, Dir, Grows, Cfg.Ok;
    match act
    case Send(buf) => SendGrows(s, buf);
    case Recv(len) => RecvGrows(s, len);
    case FlushNow => FlushNowGrows(s);
    case Update(current) => UpdateGrows(s, current);
    case Deliver(ts) => DeliverStepGrows(s, ts);
  }

  lemma SendGrows(s: Sys, buf: seq<u8>)
    requires s.ca.Ok()
    ensures Grows(s, StepA(s, Send(buf)))
  {
    hide SendQueue;
  }

  lemma RecvGrows(s: Sys, len: int)
    requires s.ca.Ok()
    ensures Grows(s, StepA(s, Recv(len)))
  {
    RecvKeeps(s.ca, s.a.k, len);
    hide KcpSpec.Recv;
  }

  lemma FlushNowGrows(s: Sys)
    requires s.ca.Ok()
    ensures Grows(s, StepA(s, FlushNow))
  {
    FlushGrows(s.ca, s.a);
    hide FlushE, FlushTags, EndGrows;
  }

  lemma UpdateGrows(s: Sys, current: u32)
    requires s.ca.Ok()
    ensures Grows(s, StepA(s, Update(current)))
  {
    TickKeeps(s.ca, s.a, current);
    FlushGrows(s.ca, TickE(s.ca, s.a, current));
    hide FlushE, FlushTags, TickE;
  }

  lemma DeliverStepGrows(s: Sys, ts: seq<TMsg>)
    requires Inv(s) && EnabledA(s, Deliver(ts))
    ensures Grows(s, StepA(s, Deliver(ts)))
  {
    InvDir(s);
    DeliverGrows(s, ts);
    DeliverIs(s, ts);
    hide Inv, Dir, StepA, EnabledA, DeliverE, EndGrows, Encodable, Plain;
  }

  lemma FlushGrows(cfg: Cfg, e: End)
    requires cfg.Ok()
    ensures EndGrows(e, FlushE(cfg, e))
  {
    FlushKeeps(cfg, e);
    hide Flush;
  }

  lemma RecvKeeps(cfg: Cfg, k: Pcb, len: int)
    ensures KcpSpec.Recv(cfg, k, len).k.updated == k.updated
  {
    hide PeekSize, FirstMessage, Drain, Bytes;
  }

  lemma TickKeeps(cfg: Cfg, e: End, current: u32)
    ensures var r := TickE(cfg, e, current); r.u == e.u && r.log == e.log && r.k.updated
  {
  }

  lemma DeliverGrows(s: Sys, ts: seq<TMsg>)
    requires Inv(s) && EnabledA(s, Deliver(ts))
    ensures var r := DeliverE(s.ca, s.a, ts);
      EndGrows(s.a, r) && r.k.updated == s.a.k.updated && s.a.acks <= r.acks
  {
    hide Inv, Dir, PushOk, AckOk, FreshPush, FreshAck, DeliverE, InputAllE, Plain, EnabledA, AllSendable, Encodable;
    DeliverFacts(s, ts);
    EnabledEncodable(s, Deliver(ts));
    InvDir(s);
    DeliveredGrows(s.ca, s.a, ts);
    UnaMovesOn(s.ca, s.a, s.cb, s.b, s.ab, s.ba, ts);
  }

  lemma DeliveredGrows(cfg: Cfg, e: End, ts: seq<TMsg>)
    requires cfg.Ok() && Encodable(Plain(ts)) && AllSendable(cfg.conv, Plain(ts))
    ensures var r := DeliverE(cfg, e, ts);
      r.u == InputAllE(cfg, e, ts).u && r.log == e.log && r.k.updated == e.k.updated && e.acks <= r.acks
  {
    hide DeliverE, InputAllE, Plain, AllSendable, Encodable;
    DeliverKeeps(cfg, e, ts);
    DeliverLogs(cfg, e, ts);
    InputAllAcksGrow(cfg, e, ts);
  }

  /** What a is about to acknowledge it acknowledges in its next flush, and not before. */
  lemma AcksKept(s: Sys, act: Action, x: int)
    requires Inv(s) && EnabledA(s, act) && x in s.a.acks && !Flushes(s, act)
    ensures x in StepA(s, act).a.acks
  {
    hide SendQueue, KcpSpec.Recv, Flush, Input, Tick, InputAllE, EnabledA, Inv;
    if act.Deliver? {
      DeliverGrows(s, act.ts);
    }
  }

  lemma FlushAcks(s: Sys, act: Action, x: int)
    requires Inv(s) && EnabledA(s, act) && x in s.a.acks && Flushes(s, act)
    ensures exists t :: t in StepA(s, act).ab && Names(t, CMD_ACK, x)
  {
    var f := Ticked(s, act);
    TickedInv(s, act);
    FlushingStep(s, act);
    hide Inv, Ticked, StepA, FlushTags, EnabledA, Flushes;
    AcksFlushed(f, x);
    FlushedInNet(f);
  }

  lemma FlushPushes(s: Sys, act: Action)
    requires Inv(s) && EnabledA(s, act) && Flushes(s, act) && HeadDue(s.ca, Ticked(s, act).a.k)
    ensures exists t :: t in StepA(s, act).ab && Names(t, CMD_PUSH, s.a.u)
    ensures s.a.u < |StepA(s, act).a.log|
  {
    var f := Ticked(s, act);
    TickedInv(s, act);
    FlushingStep(s, act);
    hide Inv, Ticked, StepA, FlushTags, EnabledA, Flushes, HeadDue;
    HeadFlushed(f);
    FlushedInNet(f);
  }

  /** A segment in the window, new or repeated, a is about to acknowledge; an acknowledged one it is past. */
  lemma TakenIn(s: Sys, ts: seq<TMsg>, t: TMsg, x: int)
    requires Inv(s) && EnabledA(s, Deliver(ts)) && t in ts
    ensures Names(t, CMD_PUSH, x) && x < s.a.n + s.ca.rcvWnd ==> x in StepA(s, Deliver(ts)).a.acks
    ensures Names(t, CMD_ACK, x) && x <= s.a.u && x < |s.a.log| ==> x < StepA(s, Deliver(ts)).a.u
  {
    FlipInv(s);
    EnabledFits(s, ts);
    InvDir(s);
    DeliverIs(s, ts);
    hide Inv, FitForB, DeliverE, Names, StepA, EnabledA, Plain, Encodable, Dir;
    var j :| 0 <= j < |ts| && ts[j] == t;
    TakenInAtB(Flip(s), ts, j, x);
  }

  // ---------- runs ----------

  /** A run with the steps it takes. */
  ghost predicate RunBy(states: seq<Sys>, steps: seq<Step>) {
    && |states| == |steps| + 1 && Init(states[0])
    && forall i :: 0 <= i < |steps| ==> Goes(states[i], steps[i], states[i + 1])
  }

  ghost predicate Goes(s: Sys, st: Step, s': Sys) {
    s.ca.Ok() && s.cb.Ok() && Enabled(s, st) && s' == Apply(s, st)
  }

  lemma {:induction false} RunByInv(states: seq<Sys>, steps: seq<Step>, i: nat)
    requires RunBy(states, steps) && i <= |steps|
    ensures Inv(states[i])
  {
    hide Inv, Init, Enabled, Apply;
    if i == 0 {
      InitInv(states[0]);
    } else {
      RunByInv(states, steps, i - 1);
      assert Goes(states[i - 1], steps[i - 1], states[i - 1 + 1]);
      StepKeepsInv(states[i - 1], steps[i - 1]);
    }
  }

  /** The same state seen from b. */
  predicate FlushesB(s: Sys, st: Step) {
    st.AtB? && Flushes(Flip(s), st.act)
  }

  lemma StepAtA(s: Sys, st: Step, s': Sys)
    requires Inv(s) && Goes(s, st, s') && st.AtA?
    ensures EnabledA(s, st.act) && s' == StepA(s, st.act)
  {
  }

  lemma StepAtB(s: Sys, st: Step, s': Sys)
    requires Inv(s) && Goes(s, st, s') && st.AtB?
    ensures Inv(Flip(s)) && EnabledA(Flip(s), st.act) && Flip(s') == StepA(Flip(s), st.act)
  {
    FlipInv(s);
    hide Inv, StepA, EnabledA;
  }

  lemma GoesOn(s: Sys, st: Step, s': Sys, x: int)
    requires Inv(s) && Goes(s, st, s')
    ensures s.a.u <= s'.a.u && |s.a.log| <= |s'.a.log|
    ensures x in s.b.acks && !FlushesB(s, st) ==> x in s'.b.acks
  {
    hide Inv, StepA, EnabledA, Flushes, Goes;
    if st.AtA? {
      StepAtA(s, st, s');
      StepGrows(s, st.act);
    } else {
      StepAtB(s, st, s');
      StepGrows(Flip(s), st.act);
      if x in s.b.acks && !FlushesB(s, st) {
        AcksKept(Flip(s), st.act, x);
      }
    }
  }

  lemma {:induction false} RunGoesOn(states: seq<Sys>, steps: seq<Step>, i: nat, j: nat)
    requires RunBy(states, steps) && i <= j <= |steps|
    ensures states[i].a.u <= states[j].a.u && |states[i].a.log| <= |states[j].a.log|
  {
    hide Inv, Goes, Init;
    if i < j {
      RunGoesOn(states, steps, i, j - 1);
      RunByInv(states, steps, j - 1);
      assert Goes(states[j - 1], steps[j - 1], states[j - 1 + 1]);
      GoesOn(states[j - 1], steps[j - 1], states[j], 0);
    }
  }

  /** What b is about to acknowledge at i it is at j, if it does not flush in between. */
  lemma {:induction false} AcksWait(states: seq<Sys>, steps: seq<Step>, i: nat, j: nat, x: int)
    requires RunBy(states, steps) && i <= j <= |steps| && x in states[i].b.acks
    requires forall m :: i <= m < j ==> !FlushesB(states[m], steps[m])
    ensures x in states[j].b.acks
  {
    hide Inv, Goes, Init, FlushesB;
    if i < j {
      AcksWait(states, steps, i, j - 1, x);
      RunByInv(states, steps, j - 1);
      assert Goes(states[j - 1], steps[j - 1], states[j - 1 + 1]);
      GoesOn(states[j - 1], steps[j - 1], states[j], x);
    }
  }

  /** A flush of a at step i, its oldest unacknowledged segment due, puts that segment in flight. */
  lemma HeadPut(states: seq<Sys>, steps: seq<Step>, i: nat)
    requires RunBy(states, steps) && i < |steps| && steps[i].AtA?
    requires Flushes(states[i], steps[i].act) && states[i].ca.Ok()
    requires HeadDue(states[i].ca, Ticked(states[i], steps[i].act).a.k)
    ensures exists t :: t in states[i + 1].ab && Names(t, CMD_PUSH, states[i].a.u)
    ensures states[i].a.u < |states[i + 1].a.log|
  {
    hide Inv, Init, StepA, EnabledA, Flushes, HeadDue, Ticked, Names;
    RunByInv(states, steps, i);
    assert Goes(states[i], steps[i], states[i + 1]);
    StepAtA(states[i], steps[i], states[i + 1]);
    FlushPushes(states[i], steps[i].act);
  }

  /**
   * b heard: a delivery at step j with a segment x of a in b's window, in whatever datagram, is acknowledged
   * by b's first flush after it, at step k, whatever steps lie between.
   */
  lemma HeadHeard(states: seq<Sys>, steps: seq<Step>, j: nat, k: nat, t: TMsg, x: int)
    requires RunBy(states, steps) && j < k < |steps|
    requires steps[j].AtB? && steps[j].act.Deliver? && t in steps[j].act.ts && Names(t, CMD_PUSH, x)
    requires x < states[j].b.n + states[j].cb.rcvWnd
    requires FlushesB(states[k], steps[k]) && forall m :: j < m < k ==> !FlushesB(states[m], steps[m])
    ensures exists t :: t in states[k + 1].ba && Names(t, CMD_ACK, x)
  {
    hide Inv, Init, StepA, EnabledA, Flushes, Names, Goes;
    RunByInv(states, steps, j);
    assert Goes(states[j], steps[j], states[j + 1]);
    StepAtB(states[j], steps[j], states[j + 1]);
    TakenIn(Flip(states[j]), steps[j].act.ts, t, x);
    AcksWait(states, steps, j + 1, k, x);
    RunByInv(states, steps, k);
    assert Goes(states[k], steps[k], states[k + 1]);
    StepAtB(states[k], steps[k], states[k + 1]);
    FlushAcks(Flip(states[k]), steps[k].act, x);
  }

  /**
   * a heard: a delivery at step l with an acknowledgement of x moves snd_una past x, if it is not there yet, for
   * good.
   */
  lemma HeadFreed(states: seq<Sys>, steps: seq<Step>, l: nat, m: nat, t: TMsg, x: int)
    requires RunBy(states, steps) && l < m <= |steps|
    requires steps[l].AtA? && steps[l].act.Deliver? && t in steps[l].act.ts && Names(t, CMD_ACK, x)
    requires x <= states[l].a.u && x < |states[l].a.log|
    ensures states[m].a.u > x
  {
    hide Inv, Init, StepA, EnabledA, Names, Goes;
    RunByInv(states, steps, l);
    assert Goes(states[l], steps[l], states[l + 1]);
    StepAtA(states[l], steps[l], states[l + 1]);
    TakenIn(states[l], steps[l].act.ts, t, x);
    RunGoesOn(states, steps, l + 1, m);
  }

  /**
   * Progress: a flushes at step i with its oldest unacknowledged segment due. Then that segment is in flight.
   * If a datagram with it reaches b at step j, in b's window, b's first flush after that, at step k, puts its
   * acknowledgement in flight; if a datagram with that reaches a at step l, snd_una is past the segment from
   * then on. Anything else may happen before, between and after.
   */
  lemma Progress(states: seq<Sys>, steps: seq<Step>, i: nat, j: nat, k: nat, l: nat, push: TMsg, ack: TMsg)
    requires RunBy(states, steps) && i < j < k < l < |steps|
    requires steps[i].AtA? && Flushes(states[i], steps[i].act)
    requires states[i].ca.Ok() && HeadDue(states[i].ca, Ticked(states[i], steps[i].act).a.k)
    requires steps[j].AtB? && steps[j].act.Deliver? && push in steps[j].act.ts && Names(push, CMD_PUSH, states[i].a.u)
    requires states[i].a.u < states[j].b.n + states[j].cb.rcvWnd
    requires FlushesB(states[k], steps[k]) && forall m :: j < m < k ==> !FlushesB(states[m], steps[m])
    requires steps[l].AtA? && steps[l].act.Deliver? && ack in steps[l].act.ts && Names(ack, CMD_ACK, states[i].a.u)
    ensures exists t :: t in states[i + 1].ab && Names(t, CMD_PUSH, states[i].a.u)
    ensures exists t :: t in states[k + 1].ba && Names(t, CMD_ACK, states[i].a.u)
    ensures forall m :: l < m <= |steps| ==> states[m].a.u > states[i].a.u
  {
    hide RunBy, Flushes, FlushesB, HeadDue, Ticked, Names;
    Lengths(states, steps);
    HeadPut(states, steps, i);
    HeadHeard(states, steps, j, k, push, states[i].a.u);
    RunGoesOn(states, steps, i, l);
    RunGoesOn(states, steps, i + 1, l);
    forall m | l < m <= |steps|
      ensures states[m].a.u > states[i].a.u
    {
      HeadFreed(states, steps, l, m, ack, states[i].a.u);
    }
  }

  lemma Lengths(states: seq<Sys>, steps: seq<Step>)
    requires RunBy(states, steps)
    ensures |states| == |steps| + 1
  {
  }

  // ---------- a young connection ----------

  /**
   * a flushes and b takes in datagram p of that flush, every other one being lost; g is the state then, seen
   * from b.
   */
  predicate Hears(s: Sys, p: seq<TMsg>, g: Sys) {
    s.ca.Ok() && DatagramOf(s.ca, s.a, p) && Takes(Flip(FlushA(s)), p, g)
  }

  predicate Takes(s: Sys, p: seq<TMsg>, g: Sys) {
    s.ca.Ok() && EnabledA(s, Deliver(p)) && g == StepA(s, Deliver(p))
  }

  /** Any part of a flush of a young connection may be delivered. */
  lemma YoungPart(s: Sys, ts: seq<TMsg>)
    requires Inv(s) && Young(FlushA(s)) && forall t :: t in ts ==> t in FlushTags(s.ca, s.a)
    ensures Inv(Flip(FlushA(s))) && EnabledA(Flip(FlushA(s)), Deliver(ts))
  {
    InvDir(s);
    hide Inv, Dir, FlushTags, FlushE, EnabledA, Young;
    StepFlush(s);
    FlipInv(FlushA(s));
    FlushedInNet(s);
    FlushedMembers(s, ts);
    YoungFlipped(FlushA(s));
    YoungEnables(Flip(FlushA(s)), ts);
  }

  lemma YoungFlipped(s: Sys)
    requires Young(s)
    ensures Young(Flip(s))
  {
  }

  lemma FlushedMembers(s: Sys, ts: seq<TMsg>)
    requires s.ca.Ok() && forall t :: t in ts ==> t in FlushTags(s.ca, s.a)
    requires forall i :: 0 <= i < |FlushTags(s.ca, s.a)| ==> FlushTags(s.ca, s.a)[i] in Flip(FlushA(s)).ba
    ensures forall i :: 0 <= i < |ts| ==> ts[i] in Flip(FlushA(s)).ba
  {
    hide FlushTags, FlushA;
    forall i | 0 <= i < |ts|
      ensures ts[i] in Flip(FlushA(s)).ba
    {
      assert ts[i] in ts;
      var j :| 0 <= j < |FlushTags(s.ca, s.a)| && FlushTags(s.ca, s.a)[j] == ts[i];
    }
  }

  /** The first half of the exchange: b has heard the datagram with a's oldest segment. */
  lemma YoungHeard(s: Sys, p: seq<TMsg>, i: nat, x: int)
    requires Inv(s) && Young(FlushA(s)) && DatagramOf(s.ca, s.a, p)
    requires i < |FlushTags(s.ca, s.a)| && FlushTags(s.ca, s.a)[i] in p
    ensures EnabledA(Flip(FlushA(s)), Deliver(p))
    ensures var g := StepA(Flip(FlushA(s)), Deliver(p));
      && Inv(g) && g.b == FlushE(s.ca, s.a) && g.ca == s.cb && g.cb == s.ca
      && g.a.log == s.b.log && g.a.k.snd.queue == s.b.k.snd.queue && g.a.k.updated == s.b.k.updated
      && (Names(FlushTags(s.ca, s.a)[i], CMD_PUSH, x) && x < s.b.n + s.cb.rcvWnd ==> x in g.a.acks)
      && (Names(FlushTags(s.ca, s.a)[i], CMD_ACK, x) && x <= s.b.u && x < |s.b.log| ==> x < g.a.u)
  {
    YoungPart(s, p);
    var f := Flip(FlushA(s));
    DeliverFacts(f, p);
    DeliverIs(f, p);
    InvDir(f);
    hide Inv, FlushTags, EnabledA, DatagramOf, Names, StepA, Dir, DeliverE, Plain, Encodable, AllSendable, FlushE;
    TakenIn(f, p, FlushTags(s.ca, s.a)[i], x);
    StepAKeepsInv(f, Deliver(p));
    DeliverLogs(f.ca, f.a, p);
    DeliverGrows(f, p);
  }

  /** In a young connection one datagram each way is always possible, and moves snd_una forward. */
  lemma YoungProgress(s: Sys)
    requires Inv(s) && |s.a.log| + |s.a.k.snd.queue| < TWO30 && |s.b.log| + |s.b.k.snd.queue| < TWO30
    requires HeadDue(s.ca, s.a.k) && s.b.k.updated && s.a.u < s.b.n + s.cb.rcvWnd
    ensures exists p, g, q, r :: Hears(s, p, g) && Hears(g, q, r) && r.a.u > s.a.u
  {
    InvDir(s);
    YoungAfter(s);
    HeadFlushed(s);
    FlushKeeps(s.ca, s.a);
    LogsAfter(s.ca, s.a);
    hide Inv, HeadDue, FlushTags, StepA, EnabledA, Names, Dir, DatagramOf, FlushE;
    var i :| 0 <= i < |FlushTags(s.ca, s.a)| && Names(FlushTags(s.ca, s.a)[i], CMD_PUSH, s.a.u);
    var p := DatagramCovers(s.ca, s.a, i);
    YoungHeard(s, p, i, s.a.u);
    var g := StepA(Flip(FlushA(s)), Deliver(p));
    AcksFlushed(g, s.a.u);
    YoungAfter(g);
    InvDir(g);
    var j :| 0 <= j < |FlushTags(g.ca, g.a)| && Names(FlushTags(g.ca, g.a)[j], CMD_ACK, s.a.u);
    var q := DatagramCovers(g.ca, g.a, j);
    YoungHeard(g, q, j, s.a.u);
    var r := StepA(Flip(FlushA(g)), Deliver(q));
    assert Hears(s, p, g) && Hears(g, q, r);
  }

  lemma LogsAfter(cfg: Cfg, e: End)
    requires cfg.Ok()
    ensures |FlushE(cfg, e).log| <= |e.log| + |e.k.snd.queue|
  {
    hide Flush;
  }
}
