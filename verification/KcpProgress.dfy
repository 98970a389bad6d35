// The framing of a flush, and what one flush and one delivery do for the oldest outstanding segment.
module KcpProgress {
  import opened Word
  import opened Wire
  import opened KcpSpec
  import opened KcpLocal
  import opened KcpLink
  import opened KcpFrag
  import opened KcpSystem
  import opened KcpRuns

  // ---------- framing ----------

  /** The datagrams that a flush hands to the output hook. */
  function Datagrams(cfg: Cfg, k: Pcb): seq<seq<Msg>>
    requires cfg.Ok()
  {
    Pack(cfg.mtu, [], FlushMsgs(cfg, k))
  }

  predicate Small(cfg: Cfg, m: Msg) {
    Sendable(cfg.conv, m) && MsgSize(m) <= cfg.mtu
  }

  lemma {:induction false} PushMsgsSmall(cfg: Cfg, r: Round, buf: seq<Seg>)
    requires cfg.Ok() && r.conv == cfg.conv && SegsShort(cfg.Mss(), buf)
    ensures forall m :: m in PushMsgs(r, buf) ==> Small(cfg, m)
  {
    if buf != [] {
      PushMsgsSmall(cfg, r, buf[1..]);
    }
  }

  lemma FilledShort(cfg: Cfg, snd: Snd, f: Snd)
    requires cfg.Ok() && SegsShort(cfg.Mss(), snd.buf) && Short(cfg.Mss(), snd.queue) && Filled(snd, f)
    ensures SegsShort(cfg.Mss(), f.buf)
  {
  }

  lemma FlushMsgsSmall(cfg: Cfg, k: Pcb)
    requires cfg.Ok() && SndOk(k.snd, cfg.sndWnd)
    requires SegsShort(cfg.Mss(), k.snd.buf) && Short(cfg.Mss(), k.snd.queue)
    ensures forall m :: m in FlushMsgs(cfg, k) ==> Small(cfg, m)
  {
    hide FillWindow, SndOk, PushMsgs, ProbeWindow, Filled;
    if k.updated {
      FillWindowCorrect(k.snd, SendWindow(cfg, k.cong), cfg.sndWnd, WndUnused(cfg, k.rcv), k.current, k.rcv.nxt,
                        k.rtt.rto);
      var f := FilledSnd(cfg, k);
      FilledShort(cfg, k.snd, f);
      PushMsgsSmall(cfg, RoundOf(cfg, k), f.buf);
    }
  }

  /** What the peer's input loop reads out of datagram p. */
  predicate ReadBack(cfg: Cfg, p: seq<Msg>)
  {
    Encodable(p) && Parse(cfg.conv, EncodeAll(p)) == Parsed(p, 0) && 0 < |EncodeAll(p)| <= cfg.mtu
  }

  lemma PacketReadBack(cfg: Cfg, p: seq<Msg>)
    requires cfg.Ok() && Fits(cfg.mtu, p) && forall m :: m in p ==> Small(cfg, m)
    ensures ReadBack(cfg, p)
  {
    hide Parse, EncodeMsg;
    assert forall i :: 0 <= i < |p| ==> p[i] in p;
    EncodeSize(p);
    ParseEncode(cfg.conv, p, []);
    ParseNothing(cfg.conv);
    assert EncodeAll(p) + [] == EncodeAll(p) && p + [] == p;
  }

  lemma {:induction false} InFlat(ps: seq<seq<Msg>>, p: seq<Msg>, m: Msg)
    requires p in ps && m in p
    ensures m in Flat(ps)
  {
    if ps[0] != p {
      InFlat(ps[1..], p, m);
    }
  }

  /**
   * Every datagram of a flush is non-empty, at most mtu bytes long, and read
   * back by the peer as exactly the messages written into it; together the
   * datagrams are the acknowledgements, probes and segments flushed, in order.
   */
  lemma FlushFraming(cfg: Cfg, k: Pcb)
    requires cfg.Ok() && SndOk(k.snd, cfg.sndWnd)
    requires SegsShort(cfg.Mss(), k.snd.buf) && Short(cfg.Mss(), k.snd.queue)
    ensures Flat(Datagrams(cfg, k)) == FlushMsgs(cfg, k)
    ensures forall p :: p in Datagrams(cfg, k) ==> ReadBack(cfg, p)
  {
    hide Pack, FlushMsgs, Fits, ReadBack, Small;
    FlushMsgsSmall(cfg, k);
    var ms := FlushMsgs(cfg, k);
    SmallSize(cfg, ms);
    PackCorrect(cfg.mtu, [], ms);
    assert [] + ms == ms;
    forall p | p in Datagrams(cfg, k)
      ensures ReadBack(cfg, p)
    {
      forall m | m in p
        ensures Small(cfg, m)
      {
        InFlat(Datagrams(cfg, k), p, m);
      }
      PacketReadBack(cfg, p);
    }
  }

  lemma SmallSize(cfg: Cfg, ms: seq<Msg>)
    requires forall m :: m in ms ==> Small(cfg, m)
    ensures forall m :: m in ms ==> MsgSize(m) <= cfg.mtu
  {
  }

  lemma ContentShort(snd: Snd, log: seq<Frag>, u: int, mss: int)
    requires SndContent(snd, log, u) && Short(mss, log)
    ensures SegsShort(mss, snd.buf)
  {
  }

  lemma ShortParts(mss: int, a: seq<Frag>, b: seq<Frag>)
    requires Short(mss, a + b)
    ensures Short(mss, a) && Short(mss, b)
  {
    assert forall i :: 0 <= i < |a| ==> (a + b)[i] == a[i];
    assert forall i :: 0 <= i < |b| ==> (a + b)[|a| + i] == b[i];
  }

  /** Every state of every run flushes well-framed datagrams. */
  lemma RunFraming(states: seq<Sys>, i: nat)
    requires Run(states) && i < |states|
    ensures var s := states[i];
      && s.ca.Ok()
      && Flat(Datagrams(s.ca, s.a.k)) == FlushMsgs(s.ca, s.a.k)
      && forall p :: p in Datagrams(s.ca, s.a.k) ==> ReadBack(s.ca, p)
  {
    hide Inv, Run, Datagrams, ReadBack, FlushMsgs, SndOk;
    RunInv(states, i);
    InvFraming(states[i]);
  }

  lemma InvFraming(s: Sys)
    requires Inv(s)
    ensures s.ca.Ok() && Flat(Datagrams(s.ca, s.a.k)) == FlushMsgs(s.ca, s.a.k)
    ensures forall p :: p in Datagrams(s.ca, s.a.k) ==> ReadBack(s.ca, p)
  {
    InvShort(s);
    hide Inv, SndOk, Datagrams, ReadBack, FlushMsgs, Short, SegsShort;
    FlushFraming(s.ca, s.a.k);
  }

  /** What a has queued and outstanding is in order, and no fragment is longer than a segment. */
  lemma InvShort(s: Sys)
    requires Inv(s)
    ensures s.ca.Ok() && SndOk(s.a.k.snd, s.ca.sndWnd)
    ensures SegsShort(s.ca.Mss(), s.a.k.snd.buf) && Short(s.ca.Mss(), s.a.k.snd.queue)
  {
    DirParts(s.ca, s.a, s.cb, s.b, s.ab, s.ba);
    hide Dir, RcvInv, Covered, RecvApp, SndOk, SndContent, W, Off, CountsDown, Messages, Bytes, Short;
    ShortParts(s.ca.Mss(), s.a.log, s.a.k.snd.queue);
    ContentShort(s.a.k.snd, s.a.log, s.a.u, s.ca.Mss());
  }

  /** The 16-bit field carries the free receive window unless the window is 65536 or more. */
  lemma AdvertisedWindow(cfg: Cfg, k: Pcb, i: nat)
    requires cfg.Ok() && i < |FlushMsgs(cfg, k)|
    ensures FlushMsgs(cfg, k)[i].wnd == WndUnused(cfg, k.rcv) <==> WndUnused(cfg, k.rcv) < TWO16
  {
    hide FilledSnd, ProbeWindow, Due, Resent;
    var ms := FlushMsgs(cfg, k);
    var c := ControlMsgs(cfg, k);
    if i >= |c| {
      assert ms[i] in PushMsgs(RoundOf(cfg, k), FilledSnd(cfg, k).buf);
      PushWindow(RoundOf(cfg, k), FilledSnd(cfg, k).buf, ms[i]);
    }
  }

  lemma {:induction false} PushWindow(r: Round, buf: seq<Seg>, m: Msg)
    requires m in PushMsgs(r, buf)
    ensures m.wnd == r.wnd % TWO16
  {
    var here := if Due(r, buf[0]).Wait? then [] else [PushMsg(r, Resent(r, buf[0]))];
    if m !in here {
      PushWindow(r, buf[1..], m);
    }
  }

  // ---------- progress ----------

  /** The oldest unacknowledged segment is among those a flush of a sends now. */
  predicate HeadDue(cfg: Cfg, k: Pcb)
    requires cfg.Ok()
  {
    var f := FilledSnd(cfg, k);
    k.updated && f.buf != [] && !Due(RoundOf(cfg, k), f.buf[0]).Wait?
  }

  predicate Names(t: TMsg, cmd: u8, x: int) {
    t.m.cmd == cmd && t.sn == x
  }

  lemma HeadNumber(cfg: Cfg, k: Pcb)
    requires cfg.Ok() && HeadDue(cfg, k) && SndOk(k.snd, cfg.sndWnd)
    ensures var f := FilledSnd(cfg, k);
      && f.una == k.snd.una && f.buf[0].sn == k.snd.una
      && |f.queue| <= |k.snd.queue|
      && 0 < Off(f.nxt, f.una) == Off(k.snd.nxt, k.snd.una) + (|k.snd.queue| - |f.queue|)
  {
    hide FillWindow, Asc, Off, Due;
    FillWindowCorrect(k.snd, SendWindow(cfg, k.cong), cfg.sndWnd, WndUnused(cfg, k.rcv), k.current, k.rcv.nxt,
                      k.rtt.rto);
    AscPositive(FilledSnd(cfg, k).buf, FilledSnd(cfg, k).una, Off(FilledSnd(cfg, k).nxt, FilledSnd(cfg, k).una));
  }

  lemma AscPositive(buf: seq<Seg>, base: u32, bound: int)
    requires Asc(buf, base, bound) && buf != []
    ensures bound > 0
  {
    assert Off(buf[0].sn, base) < bound;
  }

  lemma HeadIsFlushed(cfg: Cfg, e: End)
    requires cfg.Ok() && HeadDue(cfg, e.k) && |e.acks| == |e.k.rcv.acks|
    requires SndOk(e.k.snd, cfg.sndWnd) && Off(e.k.snd.nxt, e.k.snd.una) == |e.log| - e.u
    ensures exists i :: 0 <= i < |FlushTags(cfg, e)| && Names(FlushTags(cfg, e)[i], CMD_PUSH, e.u)
    ensures e.u < |FlushLog(cfg, e)|
  {
    HeadNumber(cfg, e.k);
    var f, r := FilledSnd(cfg, e.k), RoundOf(cfg, e.k);
    FlushFields(cfg, e);
    hide FilledSnd, FillWindow, SndOk, ProbeMsgs, AckMsgs, FlushE;
    var i := |ControlMsgs(cfg, e.k)|;
    assert |ControlMsgs(cfg, e.k)| >= |e.acks| by {
      ControlCount(cfg, e.k);
    }
    hide ControlMsgs;
    assert PushMsgs(r, f.buf)[0] == PushMsg(r, Resent(r, f.buf[0]));
    assert FlushMsgs(cfg, e.k)[i] == PushMsg(r, Resent(r, f.buf[0]));
    assert Names(FlushTags(cfg, e)[i], CMD_PUSH, e.u);
  }

  lemma ControlCount(cfg: Cfg, k: Pcb)
    ensures |ControlMsgs(cfg, k)| >= |k.rcv.acks|
  {
  }

  lemma InputAcksGrow(cfg: Cfg, e: End, t: TMsg)
    requires cfg.Ok()
    ensures e.acks <= InputE(cfg, e, t).acks
  {
  }

  lemma {:induction false} InputAllAcksGrow(cfg: Cfg, e: End, ts: seq<TMsg>)
    requires cfg.Ok()
    ensures e.acks <= InputAllE(cfg, e, ts).acks
    decreases |ts|
  {
    hide InputE;
    if ts != [] {
      InputAcksGrow(cfg, e, ts[0]);
      InputAllAcksGrow(cfg, InputE(cfg, e, ts[0]), ts[1..]);
    }
  }

  /** A segment below the end of the window is acknowledged whether it is new or repeated. */
  lemma PushIsNoted(wnd: u32, rcv: Rcv, n: int, log: seq<Frag>, t: TMsg)
    requires rcv.nxt == W(n) && 0 <= n <= |log| <= n + 2 * wnd && wnd < TWO30 && RcvOk(rcv, wnd)
    requires t.m.cmd == CMD_PUSH && PushOk(t, log) && FreshPush(t, log, wnd) && t.sn < n + wnd
    ensures |InputRcv(rcv, t.m, wnd).acks| == |rcv.acks| + 1
  {
    PushNumbers(wnd, rcv, n, log, t);
    ParsePushCorrect(rcv, t.m, wnd);
  }

  lemma {:induction false} HeadIsNoted(cs: Cfg, s: End, cr: Cfg, r: End, sr: set<TMsg>, rs: set<TMsg>, ts: seq<TMsg>,
                                       j: nat, x: int)
    requires PairOk(cs, cr) && Dir(cs, s, cr, r, sr, rs)
    requires forall i :: 0 <= i < |ts| ==> PushOk(ts[i], s.log) && FreshPush(ts[i], s.log, cr.rcvWnd)
    requires j < |ts| && Names(ts[j], CMD_PUSH, x) && x < r.n + cr.rcvWnd
    ensures x in InputAllE(cr, r, ts).acks
    decreases |ts|
  {
    var r1 := InputE(cr, r, ts[0]);
    DirParts(cs, s, cr, r, sr, rs);
    DirInputReceiver(cs, s, cr, r, sr, rs, ts[0]);
    assert r.n <= r1.n;
    if j == 0 {
      assert RcvOk(r.k.rcv, cr.rcvWnd) && r.k.rcv.nxt == W(r.n) && 0 <= r.n <= |s.log| <= r.n + 2 * cr.rcvWnd;
      hide Dir, RcvInv, SndInv, Covered, RecvApp, SendApp, InputRcv, InputSnd, UpdateAck, W, Off, PushOk, FreshPush,
        RcvOk;
      PushIsNoted(cr.rcvWnd, r.k.rcv, r.n, s.log, ts[0]);
      assert r1.acks == r.acks + [x];
      assert r1.acks[|r.acks|] == x;
      InputAllAcksGrow(cr, r1, ts[1..]);
      assert InputAllE(cr, r1, ts[1..]).acks[|r.acks|] == x;
    } else {
      hide Dir, RcvInv, SndInv, Covered, RecvApp, SendApp, InputE, PushOk, FreshPush;
      HeadIsNoted(cs, s, cr, r1, sr, rs, ts[1..], j - 1, x);
    }
  }

  lemma NotedIsFlushed(cfg: Cfg, e: End, x: int)
    requires cfg.Ok() && e.k.updated && x in e.acks && |e.acks| == |e.k.rcv.acks|
    requires forall i :: 0 <= i < |e.acks| ==> e.k.rcv.acks[i].sn == W(e.acks[i])
    ensures exists i :: 0 <= i < |FlushTags(cfg, e)| && Names(FlushTags(cfg, e)[i], CMD_ACK, x)
  {
    hide FilledSnd, PushMsgs, ProbeMsgs, W;
    var i :| 0 <= i < |e.acks| && e.acks[i] == x;
    assert FlushMsgs(cfg, e.k)[i] == ControlMsg(cfg, e.k.rcv, CMD_ACK, e.k.rcv.acks[i]);
    assert Names(FlushTags(cfg, e)[i], CMD_ACK, x);
  }

  /** Acknowledging the oldest outstanding number moves snd_una. */
  lemma AckOfHead(wnd: u32, snd: Snd, m: Msg)
    requires SndOk(snd, wnd) && wnd < TWO31 && m.cmd == CMD_ACK && m.sn == snd.una && snd.nxt != snd.una
    ensures InputSnd(snd, m).una != snd.una
  {
    InputSndCorrect(snd, wnd, m);
    var s := InputSnd(snd, m);
    assert s.buf != [] ==> s.buf[0] in s.buf;
  }

  /** snd_una never moves back, and moves on when the oldest outstanding number is acknowledged. */
  lemma UnaStepG(cs: Cfg, s: End, t: TMsg, x: int)
    requires SndInv(cs.sndWnd, s.k.snd, s.log, s.u) && cs.sndWnd < TWO30
    ensures s.u <= InputE(cs, s, t).u
    ensures t.m.cmd == CMD_ACK && t.m.sn == W(x) && s.u == x < |s.log| ==> x < InputE(cs, s, t).u
  {
    var s1 := InputE(cs, s, t);
    assert s1.u == s.u + Off(s1.k.snd.una, s.k.snd.una);
    assert s1.k.snd == InputSnd(s.k.snd, t.m);
    hide InputE, InputSnd, SndContent, Asc;
    if t.m.cmd == CMD_ACK && t.m.sn == W(x) && s.u == x < |s.log| {
      AckOfHead(cs.sndWnd, s.k.snd, t.m);
    }
  }

  lemma {:induction false} UnaMovesOn(cs: Cfg, s: End, cr: Cfg, r: End, sr: set<TMsg>, rs: set<TMsg>, ts: seq<TMsg>)
    requires PairOk(cs, cr) && Dir(cs, s, cr, r, sr, rs)
    requires forall i :: 0 <= i < |ts| ==> AckOk(ts[i], cr.rcvWnd, r.k.rcv, r.n) && FreshAck(ts[i], s.log)
    ensures s.u <= InputAllE(cs, s, ts).u
    decreases |ts|
  {
    hide Dir, AckOk, FreshAck, InputMsg, Off;
    if ts != [] {
      var s1 := InputE(cs, s, ts[0]);
      DirInputSender(cs, s, cr, r, sr, rs, ts[0]);
      assert s.u <= s1.u;
      UnaMovesOn(cs, s1, cr, r, sr, rs, ts[1..]);
    }
  }

  lemma HeadStep(cs: Cfg, s: End, cr: Cfg, r: End, t: TMsg, x: int)
    requires SndInv(cs.sndWnd, s.k.snd, s.log, s.u) && cs.sndWnd < TWO30 && AckOk(t, cr.rcvWnd, r.k.rcv, r.n)
    requires x <= s.u && x < |s.log|
    ensures var s1 := InputE(cs, s, t);
      s1.log == s.log && s.u <= s1.u && (Names(t, CMD_ACK, x) ==> x < s1.u)
  {
    UnaStepG(cs, s, t, x);
    hide SndInv, W, InputMsg, Off, Held;
  }

  lemma {:induction false} HeadIsFreed(cs: Cfg, s: End, cr: Cfg, r: End, sr: set<TMsg>, rs: set<TMsg>, ts: seq<TMsg>,
                                       j: nat, x: int)
    requires PairOk(cs, cr) && Dir(cs, s, cr, r, sr, rs)
    requires forall i :: 0 <= i < |ts| ==> AckOk(ts[i], cr.rcvWnd, r.k.rcv, r.n) && FreshAck(ts[i], s.log)
    requires j < |ts| && Names(ts[j], CMD_ACK, x) && x <= s.u && x < |s.log|
    ensures x < InputAllE(cs, s, ts).u
    decreases |ts|
  {
    hide Dir, FreshAck, InputE, SndInv, RcvInv, Covered, RecvApp, SendApp, W, AckOk, Names;
    var s1 := InputE(cs, s, ts[0]);
    DirInputSender(cs, s, cr, r, sr, rs, ts[0]);
    DirParts(cs, s, cr, r, sr, rs);
    HeadStep(cs, s, cr, r, ts[0], x);
    if j == 0 {
      UnaMovesOn(cs, s1, cr, r, sr, rs, ts[1..]);
    } else {
      HeadIsFreed(cs, s1, cr, r, sr, rs, ts[1..], j - 1, x);
    }
  }

  /** Everything in ts is fit to be taken in by b. */
  predicate FitForB(f: Sys, ts: seq<TMsg>) {
    && Encodable(Plain(ts)) && AllSendable(f.cb.conv, Plain(ts))
    && forall i :: 0 <= i < |ts| ==>
         && PushOk(ts[i], f.a.log) && FreshPush(ts[i], f.a.log, f.cb.rcvWnd)
         && AckOk(ts[i], f.ca.rcvWnd, f.a.k.rcv, f.a.n) && FreshAck(ts[i], f.b.log)
  }

  lemma EnabledFits(s: Sys, ts: seq<TMsg>)
    requires Inv(s) && EnabledA(s, Deliver(ts))
    ensures FitForB(Flip(s), ts)
  {
    hide Dir, PushOk, AckOk, FreshPush, FreshAck, NetOk, Plain, Deliverable, EnabledA;
    EnabledEncodable(s, Deliver(ts));
    DeliverFacts(s, ts);
  }

  lemma EnabledEncodable(s: Sys, act: Action)
    requires EnabledA(s, act) && act.Deliver?
    ensures Encodable(Plain(act.ts))
  {
  }

  lemma TakenInAtB(f: Sys, ts: seq<TMsg>, j: nat, x: int)
    requires Inv(f) && FitForB(f, ts) && j < |ts|
    ensures Names(ts[j], CMD_PUSH, x) && x < f.b.n + f.cb.rcvWnd ==> x in DeliverE(f.cb, f.b, ts).acks
    ensures Names(ts[j], CMD_ACK, x) && x <= f.b.u && x < |f.b.log| ==> x < DeliverE(f.cb, f.b, ts).u
    ensures DeliverE(f.cb, f.b, ts).k.updated == f.b.k.updated
  {
    InvDir(f);
    hide Inv, Dir, PushOk, AckOk, FreshPush, FreshAck, DeliverE, InputAllE, Plain;
    if Names(ts[j], CMD_PUSH, x) && x < f.b.n + f.cb.rcvWnd {
      HeadIsNoted(f.ca, f.a, f.cb, f.b, f.ab, f.ba, ts, j, x);
    }
    if Names(ts[j], CMD_ACK, x) && x <= f.b.u && x < |f.b.log| {
      HeadIsFreed(f.cb, f.b, f.ca, f.a, f.ba, f.ab, ts, j, x);
    }
    DeliverKeeps(f.cb, f.b, ts);
  }

  lemma FlushKeeps(cfg: Cfg, e: End)
    requires cfg.Ok()
    ensures FlushE(cfg, e).u == e.u && FlushE(cfg, e).n == e.n && FlushE(cfg, e).k.updated == e.k.updated
  {
  }

  lemma InvDir(s: Sys)
    requires Inv(s)
    ensures PairOk(s.ca, s.cb) && Dir(s.ca, s.a, s.cb, s.b, s.ab, s.ba) && Dir(s.cb, s.b, s.ca, s.a, s.ba, s.ab)
  {
  }

  lemma HeadFlushed(s: Sys)
    requires Inv(s) && HeadDue(s.ca, s.a.k)
    ensures exists i :: 0 <= i < |FlushTags(s.ca, s.a)| && Names(FlushTags(s.ca, s.a)[i], CMD_PUSH, s.a.u)
    ensures s.a.u < |FlushLog(s.ca, s.a)|
  {
    DirParts(s.ca, s.a, s.cb, s.b, s.ab, s.ba);
    DirParts(s.cb, s.b, s.ca, s.a, s.ba, s.ab);
    RcvFacts(s.ca.rcvWnd, s.a.k.rcv, s.a.n, s.a.acks, s.b.log);
    hide Dir, RcvInv, Covered, RecvApp, SendApp, FlushTags, HeadDue, FlushLog, SndOk, SndContent;
    HeadIsFlushed(s.ca, s.a);
  }

  lemma DeliverKeeps(cfg: Cfg, e: End, ts: seq<TMsg>)
    requires cfg.Ok() && Encodable(Plain(ts)) && AllSendable(cfg.conv, Plain(ts))
    ensures DeliverE(cfg, e, ts).acks == InputAllE(cfg, e, ts).acks
    ensures DeliverE(cfg, e, ts).u == InputAllE(cfg, e, ts).u
    ensures DeliverE(cfg, e, ts).k.updated == e.k.updated
  {
    hide Parse, EncodeMsg, Grow;
    InputKeepsUpdated(cfg, e.k, Parse(cfg.conv, EncodeAll(Plain(ts))).ms);
  }

  lemma {:induction false} InputKeepsUpdated(cfg: Cfg, k: Pcb, ms: seq<Msg>)
    ensures InputMsgs(cfg, k, ms).updated == k.updated
    decreases |ms|
  {
    if ms != [] {
      InputKeepsUpdated(cfg, InputMsg(cfg, k, ms[0]), ms[1..]);
    }
  }

  lemma FlipInv(s: Sys)
    requires Inv(s)
    ensures Inv(Flip(s)) && Flip(Flip(s)) == s
  {
  }

  lemma AcksFlushed(g: Sys, x: int)
    requires Inv(g) && g.a.k.updated && x in g.a.acks
    ensures exists i :: 0 <= i < |FlushTags(g.ca, g.a)| && Names(FlushTags(g.ca, g.a)[i], CMD_ACK, x)
  {
    DirParts(g.cb, g.b, g.ca, g.a, g.ba, g.ab);
    RcvFacts(g.ca.rcvWnd, g.a.k.rcv, g.a.n, g.a.acks, g.b.log);
    hide Dir, SndInv, RcvInv, Covered, RecvApp, SendApp, FlushTags;
    NotedIsFlushed(g.ca, g.a, x);
  }

  // ---------- a young connection ----------

  /** Fewer than 2^30 fragments numbered on each side so far. */
  predicate Young(s: Sys) {
    |s.a.log| < TWO30 && |s.b.log| < TWO30
  }

  /** In a young connection nothing in flight can be stale: the network may deliver all of it. */
  lemma YoungDelivers(s: Sys, t: TMsg)
    requires Inv(s) && Young(s) && t in s.ba
    ensures Deliverable(s, t)
  {
    hide SndInv, RcvInv, Covered, SendApp, RecvApp, W, Sendable, HasR;
  }

  lemma YoungEnables(s: Sys, ts: seq<TMsg>)
    requires Inv(s) && Young(s) && forall i :: 0 <= i < |ts| ==> ts[i] in s.ba
    ensures EnabledA(s, Deliver(ts))
  {
    hide Inv, Deliverable, Young;
    forall i | 0 <= i < |ts|
      ensures Deliverable(s, ts[i]) && |ts[i].m.frag.data| < TWO31
    {
      YoungDelivers(s, ts[i]);
      NetEncodable(s, ts[i]);
    }
  }

  lemma FlushedInNet(s: Sys)
    requires s.ca.Ok()
    ensures forall i :: 0 <= i < |FlushTags(s.ca, s.a)| ==> FlushTags(s.ca, s.a)[i] in Flip(FlushA(s)).ba
  {
    hide FlushTags, FlushE;
  }

  lemma NetEncodable(s: Sys, t: TMsg)
    requires Inv(s) && t in s.ba
    ensures |t.m.frag.data| < TWO31
  {
    hide Dir;
  }

  lemma YoungAfter(s: Sys)
    requires s.ca.Ok() && |s.a.log| + |s.a.k.snd.queue| < TWO30 && |s.b.log| < TWO30
    ensures Young(FlushA(s))
  {
    hide Flush;
  }

  lemma {:induction false} InputAllLogs(cfg: Cfg, e: End, ts: seq<TMsg>)
    requires cfg.Ok()
    ensures InputAllE(cfg, e, ts).log == e.log && InputAllE(cfg, e, ts).k.snd.queue == e.k.snd.queue
    decreases |ts|
  {
    hide InputRcv, UpdateAck;
    if ts != [] {
      InputKeepsQueue(e.k.snd, ts[0].m);
      InputAllLogs(cfg, InputE(cfg, e, ts[0]), ts[1..]);
    }
  }

  lemma DeliverLogs(cfg: Cfg, e: End, ts: seq<TMsg>)
    requires cfg.Ok() && AllSendable(cfg.conv, Plain(ts)) && Encodable(Plain(ts))
    ensures DeliverE(cfg, e, ts).log == e.log && DeliverE(cfg, e, ts).k.snd.queue == e.k.snd.queue
  {
    InputAllLogs(cfg, e, ts);
    DeliverData(cfg, e, ts);
    hide InputAllE, Input, Plain;
  }
}
