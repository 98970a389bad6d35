// What becomes of each outstanding segment: when a flush sends it, with what, and how long it then waits.
module KcpResend {
  import opened Word
  import opened Wire
  import opened KcpSpec
  import opened KcpLocal

  /** The timeout of a segment sent before has run out. */
  predicate Overdue(k: Pcb, s: Seg) {
    s.xmit != 0 && TimeDiff(k.current, s.resendts) >= 0
  }

  /** How often a segment is skipped before a fast retransmission; 2^32 - 1 times if these are off. */
  function SkipLimit(cfg: Cfg): int {
    if cfg.fastresend > 0 then cfg.fastresend else 0xffff_ffff
  }

  /** It has not, but the segment has been skipped as often as the configuration allows, and not sent too often. */
  predicate Skipped(cfg: Cfg, k: Pcb, s: Seg) {
    && s.xmit != 0 && TimeDiff(k.current, s.resendts) < 0
    && s.fastack >= SkipLimit(cfg)
    && (cfg.fastlimit <= 0 || Signed(s.xmit) <= cfg.fastlimit)
  }

  predicate SendsNow(cfg: Cfg, k: Pcb, s: Seg) {
    s.xmit == 0 || Overdue(k, s) || Skipped(cfg, k, s)
  }

  /** The segments that the receive queue has room for. */
  function Room(cfg: Cfg, k: Pcb): int {
    Max(cfg.rcvWnd - |k.rcv.queue|, 0)
  }

  lemma RoomIs(cfg: Cfg, k: Pcb)
    ensures Room(cfg, k) == WndUnused(cfg, k.rcv)
  {
  }

  /** The data message that carries segment s in a flush of k. */
  predicate Carries(cfg: Cfg, k: Pcb, s: Seg, m: Msg) {
    && m.conv == cfg.conv && m.cmd == 81 && m.sn == s.sn && m.frag == s.frag
    && m.ts == k.current && m.una == k.rcv.nxt && m.wnd == Room(cfg, k) % 65536
  }

  /** The new timeout after one that was rto has run out: doubled at least, or half as much again of it or of rx_rto. */
  predicate BacksOff(cfg: Cfg, k: Pcb, rto: u32, rto': u32) {
    rto < 0x4000_0000 && k.rtt.rto <= 60000 ==>
      if cfg.nodelay == 0 then rto' == rto + Max(rto, k.rtt.rto)
      else if cfg.nodelay == 1 then 0 <= 3 * rto - 2 * rto' < 2
      else 0 <= 2 * rto + k.rtt.rto - 2 * rto' < 2
  }

  /** Segment s, as a flush of k finds or numbers it, is g after the flush. */
  predicate Follows(cfg: Cfg, k: Pcb, s: Seg, g: Seg) {
    && g.sn == s.sn && g.frag == s.frag
    && (if !SendsNow(cfg, k, s) then g == s
        else
          && g.ts == k.current && g.xmit == Add(s.xmit, 1)
          && g.wnd == Room(cfg, k) && g.una == k.rcv.nxt)
    && (s.xmit == 0 ==>
          && g.rto == k.rtt.rto && g.fastack == s.fastack
          && (k.rtt.rto <= 60000 ==>
                g.resendts == Add(k.current, k.rtt.rto + if cfg.nodelay == 0 then k.rtt.rto / 8 else 0)))
    && (Overdue(k, s) ==>
          BacksOff(cfg, k, s.rto, g.rto) && g.resendts == Add(k.current, g.rto) && g.fastack == s.fastack)
    && (Skipped(cfg, k, s) ==> g.rto == s.rto && g.resendts == Add(k.current, s.rto) && g.fastack == 0)
  }

  lemma ResentFollows(cfg: Cfg, k: Pcb, s: Seg)
    requires cfg.Ok()
    ensures Follows(cfg, k, s, Resent(RoundOf(cfg, k), s))
    ensures !Due(RoundOf(cfg, k), s).Wait? <==> SendsNow(cfg, k, s)
    ensures Due(RoundOf(cfg, k), s).Timeout? <==> Overdue(k, s)
    ensures Due(RoundOf(cfg, k), s).Fast? <==> Skipped(cfg, k, s)
  {
    RoomIs(cfg, k);
    hide WndUnused, Backoff, Room;
    BackoffIs(cfg, k, s.rto);
  }

  lemma BackoffIs(cfg: Cfg, k: Pcb, rto: u32)
    requires cfg.Ok()
    ensures BacksOff(cfg, k, rto, Backoff(RoundOf(cfg, k), rto))
  {
  }

  /** The data messages of a flush are those of the segments it sends, once each in the order of their numbers. */
  lemma {:induction false} PushesAre(cfg: Cfg, k: Pcb, buf: seq<Seg>, base: u32, bound: int)
    requires cfg.Ok() && Asc(buf, base, bound)
    ensures var ms := PushMsgs(RoundOf(cfg, k), buf);
      && (forall m :: m in ms ==> Carried(cfg, k, buf, m))
      && (forall s :: s in buf && SendsNow(cfg, k, s) ==> HasMsg(ms, cfg, k, s))
      && InOrder(ms, base)
  {
    hide Carried, HasMsg, Asc, InOrder;
    var r := RoundOf(cfg, k);
    if buf != [] {
      PushesAre(cfg, k, buf[1..], base, bound) by {
        AscTail(buf, base, bound);
      }
      PushesFirst(cfg, k, buf);
      hide PushMsgs, SendsNow;
      OneMore(cfg, k, buf, base, bound, PushMsgs(r, buf[1..]), PushMsgs(r, buf));
    } else {
      NoneYet(base);
    }
  }

  lemma NoneYet(base: u32)
    ensures InOrder([], base)
  {
  }

  lemma AscTail(buf: seq<Seg>, base: u32, bound: int)
    requires Asc(buf, base, bound) && buf != []
    ensures Asc(buf[1..], base, bound)
  {
  }

  lemma PushesFirst(cfg: Cfg, k: Pcb, buf: seq<Seg>)
    requires cfg.Ok() && buf != []
    ensures var r := RoundOf(cfg, k);
      PushMsgs(r, buf) == if SendsNow(cfg, k, buf[0]) then [PushMsg(r, Resent(r, buf[0]))] + PushMsgs(r, buf[1..])
                          else PushMsgs(r, buf[1..])
  {
    ResentFollows(cfg, k, buf[0]);
    hide SendsNow, Resent;
  }

  lemma OneMore(cfg: Cfg, k: Pcb, buf: seq<Seg>, base: u32, bound: int, rest: seq<Msg>, ms: seq<Msg>)
    requires cfg.Ok() && Asc(buf, base, bound) && buf != []
    requires forall m :: m in rest ==> Carried(cfg, k, buf[1..], m)
    requires forall s :: s in buf[1..] && SendsNow(cfg, k, s) ==> HasMsg(rest, cfg, k, s)
    requires InOrder(rest, base)
    requires var r := RoundOf(cfg, k);
      ms == if SendsNow(cfg, k, buf[0]) then [PushMsg(r, Resent(r, buf[0]))] + rest else rest
    ensures forall m :: m in ms ==> Carried(cfg, k, buf, m)
    ensures forall s :: s in buf && SendsNow(cfg, k, s) ==> HasMsg(ms, cfg, k, s)
    ensures InOrder(ms, base)
  {
    hide InOrder, Asc, Off, SendsNow, Carries;
    var s, r := buf[0], RoundOf(cfg, k);
    var m := PushMsg(r, Resent(r, s));
    assert buf == [s] + buf[1..];
    ResentCarries(cfg, k, s);
    if SendsNow(cfg, k, s) {
      FirstInOrder(cfg, k, buf, base, bound, m, rest) by {
        ResentFollows(cfg, k, s);
      }
      assert ms[0] == m;
      assert forall n :: n in ms <==> n == m || n in rest;
    }
  }

  predicate Carried(cfg: Cfg, k: Pcb, buf: seq<Seg>, m: Msg) {
    exists s :: s in buf && SendsNow(cfg, k, s) && Carries(cfg, k, s, m)
  }

  predicate HasMsg(ms: seq<Msg>, cfg: Cfg, k: Pcb, s: Seg) {
    exists m :: m in ms && Carries(cfg, k, s, m)
  }

  predicate InOrder(ms: seq<Msg>, base: u32) {
    forall i, j :: 0 <= i < j < |ms| ==> Off(ms[i].sn, base) < Off(ms[j].sn, base)
  }

  lemma ResentCarries(cfg: Cfg, k: Pcb, s: Seg)
    requires cfg.Ok()
    ensures SendsNow(cfg, k, s) ==> Carries(cfg, k, s, PushMsg(RoundOf(cfg, k), Resent(RoundOf(cfg, k), s)))
  {
    RoomIs(cfg, k);
    hide WndUnused, Backoff, Room;
  }

  lemma FirstInOrder(cfg: Cfg, k: Pcb, buf: seq<Seg>, base: u32, bound: int, m: Msg, rest: seq<Msg>)
    requires Asc(buf, base, bound) && buf != [] && m.sn == buf[0].sn && InOrder(rest, base)
    requires forall n :: n in rest ==> Carried(cfg, k, buf[1..], n)
    ensures InOrder([m] + rest, base)
  {
    hide Off, SendsNow;
    forall i | 0 <= i < |rest|
      ensures Off(m.sn, base) < Off(rest[i].sn, base)
    {
      assert rest[i] in rest;
      var s :| s in buf[1..] && Carries(cfg, k, s, rest[i]);
      var j :| 0 < j < |buf| && buf[j] == s;
    }
  }

  /** A fragment numbered in a flush of k, as the flush leaves it. */
  predicate Numbered(cfg: Cfg, k: Pcb, frag: Frag, g: Seg) {
    && g.frag == frag && g.xmit == 1 && g.fastack == 0 && g.rto == k.rtt.rto
    && g.ts == k.current && g.wnd == Room(cfg, k) && g.una == k.rcv.nxt
    && (k.rtt.rto <= 60000 ==>
          g.resendts == Add(k.current, k.rtt.rto + if cfg.nodelay == 0 then k.rtt.rto / 8 else 0))
  }

  lemma {:induction false} FilledNew(snd: Snd, cwnd: u32, wnd: u32, current: u32, una: u32, rto: u32)
    ensures var f := FillWindow(snd, cwnd, wnd, current, una, rto);
      && |snd.buf| <= |f.buf| && f.buf[..|snd.buf|] == snd.buf
      && forall i :: |snd.buf| <= i < |f.buf| ==> f.buf[i].xmit == 0 && f.buf[i].fastack == 0
    decreases |snd.queue|
  {
    hide Off;
    if TimeDiff(snd.nxt, Add(snd.una, cwnd)) < 0 && snd.queue != [] {
      var s, b := FillOne(snd, wnd, current, una, rto), |snd.buf|;
      FilledNew(s, cwnd, wnd, current, una, rto);
      var f := FillWindow(s, cwnd, wnd, current, una, rto);
      hide FillWindow;
      assert f.buf[b] == f.buf[..b + 1][b] == s.buf[b];
      assert f.buf[..b] == f.buf[..b + 1][..b];
    }
  }

  /** What a flush makes of each segment outstanding, and of each fragment that it numbers. */
  lemma FlushSegments(cfg: Cfg, k: Pcb)
    requires cfg.Ok() && k.updated && SndOk(k.snd, cfg.sndWnd)
    ensures var b, f, q := |k.snd.buf|, Flush(cfg, k).snd, k.snd.queue;
      && b <= |f.buf| <= b + |q| && f.queue == q[|f.buf| - b..]
      && (forall i :: 0 <= i < b ==> Follows(cfg, k, k.snd.buf[i], f.buf[i]))
      && (forall i :: b <= i < |f.buf| ==>
            && Numbered(cfg, k, q[i - b], f.buf[i])
            && Off(f.buf[i].sn, k.snd.una) == Off(k.snd.nxt, k.snd.una) + i - b)
  {
    var f, r := FilledSnd(cfg, k), RoundOf(cfg, k);
    FilledExtends(cfg, k);
    hide FilledSnd, AfterFlush, Follows, Numbered, Resent, Off, RoundOf, SndOk;
    forall i | 0 <= i < |f.buf|
      ensures i < |k.snd.buf| ==> Follows(cfg, k, k.snd.buf[i], Resent(r, f.buf[i]))
      ensures i >= |k.snd.buf| ==> Numbered(cfg, k, f.buf[i].frag, Resent(r, f.buf[i]))
      ensures Resent(r, f.buf[i]).sn == f.buf[i].sn
    {
      assert i < |k.snd.buf| ==> f.buf[..|k.snd.buf|][i] == f.buf[i];
      ResentFollows(cfg, k, f.buf[i]);
      FollowsNumber(cfg, k, f.buf[i], Resent(r, f.buf[i]));
    }
  }

  lemma FollowsNumber(cfg: Cfg, k: Pcb, s: Seg, g: Seg)
    requires Follows(cfg, k, s, g)
    ensures g.sn == s.sn
    ensures s.xmit == 0 && s.fastack == 0 ==> Numbered(cfg, k, s.frag, g)
  {
  }

  /** f is snd with some fragments numbered, not sent yet and never skipped. */
  predicate Extends(snd: Snd, f: Snd) {
    var b, q := |snd.buf|, snd.queue;
    && f.una == snd.una && b <= |f.buf| <= b + |q| && f.queue == q[|f.buf| - b..] && f.buf[..b] == snd.buf
    && forall i :: b <= i < |f.buf| ==>
         && f.buf[i].xmit == 0 && f.buf[i].fastack == 0 && f.buf[i].frag == q[i - b]
         && Off(f.buf[i].sn, snd.una) == Off(snd.nxt, snd.una) + i - b
  }

  lemma FilledExtends(cfg: Cfg, k: Pcb)
    requires cfg.Ok() && SndOk(k.snd, cfg.sndWnd)
    ensures Extends(k.snd, FilledSnd(cfg, k)) && SndOk(FilledSnd(cfg, k), cfg.sndWnd)
  {
    hide FillWindow, SndOk, Off, Filled, Extends;
    FillWindowCorrect(k.snd, SendWindow(cfg, k.cong), cfg.sndWnd, WndUnused(cfg, k.rcv), k.current, k.rcv.nxt,
                      k.rtt.rto);
    FilledNew(k.snd, SendWindow(cfg, k.cong), WndUnused(cfg, k.rcv), k.current, k.rcv.nxt, k.rtt.rto);
    FilledMeans(k.snd, FilledSnd(cfg, k));
  }

  lemma FilledMeans(snd: Snd, f: Snd)
    requires Filled(snd, f)
    requires forall i :: |snd.buf| <= i < |f.buf| ==> f.buf[i].fastack == 0
    ensures Extends(snd, f)
  {
    hide Off;
  }

  /** The segments that a flush sends: those it numbers, those overdue, and those skipped often enough. */
  predicate SentAt(cfg: Cfg, k: Pcb, i: nat) {
    i < |k.snd.buf| ==> SendsNow(cfg, k, k.snd.buf[i])
  }

  /** The data messages in ms carry exactly the segments of buf that a flush of k sends. */
  predicate CarryAll(cfg: Cfg, k: Pcb, buf: seq<Seg>, ms: seq<Msg>) {
    && (forall m :: m in ms && m.cmd == 81 ==> CarriesSome(cfg, k, buf, m))
    && (forall i :: 0 <= i < |buf| && SentAt(cfg, k, i) ==> HasMsg(ms, cfg, k, buf[i]))
  }

  predicate CarriesSome(cfg: Cfg, k: Pcb, buf: seq<Seg>, m: Msg) {
    exists i :: 0 <= i < |buf| && SentAt(cfg, k, i) && Carries(cfg, k, buf[i], m)
  }

  /** The data messages of a flush carry exactly these, once each, in order and behind all others. */
  lemma FlushMessages(cfg: Cfg, k: Pcb) returns (n: nat)
    requires cfg.Ok() && k.updated && SndOk(k.snd, cfg.sndWnd)
    ensures CarryAll(cfg, k, Flush(cfg, k).snd.buf, FlushMsgs(cfg, k))
    ensures n <= |FlushMsgs(cfg, k)| && InOrder(FlushMsgs(cfg, k)[n..], k.snd.una)
    ensures forall i :: 0 <= i < |FlushMsgs(cfg, k)| ==> (FlushMsgs(cfg, k)[i].cmd == 81 <==> i >= n)
  {
    var f, r := FilledSnd(cfg, k), RoundOf(cfg, k);
    var ps, cs := PushMsgs(r, f.buf), ControlMsgs(cfg, k);
    n := |cs|;
    FilledExtends(cfg, k);
    PushesAre(cfg, k, f.buf, f.una, Off(f.nxt, f.una)) by {
      OrderOf(f, cfg.sndWnd);
    }
    FlushIs(cfg, k, ps, cs);
    ControlOnly(cfg, k);
    ExtendsUna(k.snd, f);
    hide FilledSnd, FlushMsgs, Flush, PushMsgs, ControlMsgs, SndOk, InOrder, Carried, HasMsg, Extends, CarryAll,
      SendsNow, RoundOf, Resent;
    CarriedAfter(cfg, k, f, Flush(cfg, k).snd.buf, cs, ps);
    CarriedPush(cfg, k, f.buf, ps);
    Behind(cs, ps);
  }

  lemma FlushIs(cfg: Cfg, k: Pcb, ps: seq<Msg>, cs: seq<Msg>)
    requires cfg.Ok() && k.updated
    requires ps == PushMsgs(RoundOf(cfg, k), FilledSnd(cfg, k).buf) && cs == ControlMsgs(cfg, k)
    ensures FlushMsgs(cfg, k) == cs + ps
    ensures var b, c := Flush(cfg, k).snd.buf, FilledSnd(cfg, k).buf;
      |b| == |c| && forall i :: 0 <= i < |b| ==> b[i].sn == c[i].sn && b[i].frag == c[i].frag
  {
    hide FilledSnd, AfterFlush, PushMsgs, ControlMsgs;
  }

  lemma ExtendsUna(snd: Snd, f: Snd)
    requires Extends(snd, f)
    ensures f.una == snd.una
  {
  }

  lemma Behind(cs: seq<Msg>, ps: seq<Msg>)
    requires (forall m :: m in cs ==> m.cmd != 81) && forall m :: m in ps ==> m.cmd == 81
    ensures forall i :: 0 <= i < |cs + ps| ==> ((cs + ps)[i].cmd == 81 <==> i >= |cs|)
    ensures (cs + ps)[|cs|..] == ps
  {
  }

  lemma OrderOf(f: Snd, wnd: u32)
    requires SndOk(f, wnd)
    ensures Asc(f.buf, f.una, Off(f.nxt, f.una))
  {
  }

  lemma ControlOnly(cfg: Cfg, k: Pcb)
    ensures forall m :: m in ControlMsgs(cfg, k) ==> m.cmd != 81
  {
    hide ProbeWindow, WndUnused;
  }

  /** A message without data that a flush of k writes. */
  function Control(cfg: Cfg, k: Pcb, cmd: u8, sn: u32, ts: u32): Msg {
    Msg(cfg.conv, cmd, Room(cfg, k) % 65536, ts, sn, k.rcv.nxt, Frag(0, []))
  }

  predicate Repeats(cfg: Cfg, k: Pcb, m: Msg) {
    var acks := k.rcv.acks;
    if acks == [] then m == Control(cfg, k, m.cmd, 0, 0)
    else m == Control(cfg, k, m.cmd, acks[|acks| - 1].sn, acks[|acks| - 1].ts)
  }

  /**
   * Before its data messages a flush writes the pending acknowledgements in order, then the question, then the
   * answer, if there are any; these two repeat number and time of the last acknowledgement.
   */
  lemma FlushControls(cfg: Cfg, k: Pcb)
    requires cfg.Ok() && k.updated
    ensures var ms, acks := FlushMsgs(cfg, k), k.rcv.acks;
      && |acks| <= |ms|
      && (forall i :: 0 <= i < |acks| ==> ms[i] == Control(cfg, k, 82, acks[i].sn, acks[i].ts))
      && forall i :: |acks| <= i < |ms| && ms[i].cmd != 81 ==>
           && Repeats(cfg, k, ms[i])
           && (ms[i].cmd == 83 || ms[i].cmd == 84)
           && i == |acks| + if ms[i].cmd == 84 && ms[|acks|].cmd == 83 then 1 else 0
  {
    RoomIs(cfg, k);
    hide FilledSnd, PushMsgs, ProbeWindow, Room;
    var ps := PushMsgs(RoundOf(cfg, k), FilledSnd(cfg, k).buf);
    PushData(RoundOf(cfg, k), FilledSnd(cfg, k).buf);
    var ms, n := FlushMsgs(cfg, k), |ControlMsgs(cfg, k)|;
    assert forall i :: n <= i < |ms| ==> ms[i] in ps;
  }

  lemma {:induction false} PushData(r: Round, buf: seq<Seg>)
    ensures forall m :: m in PushMsgs(r, buf) ==> m.cmd == 81
  {
    hide Resent;
    if buf != [] {
      PushData(r, buf[1..]);
    }
  }

  lemma CarriedPush(cfg: Cfg, k: Pcb, buf: seq<Seg>, ps: seq<Msg>)
    requires forall m :: m in ps ==> Carried(cfg, k, buf, m)
    ensures forall m :: m in ps ==> m.cmd == 81
  {
    hide SendsNow;
  }

  lemma CarriedAfter(cfg: Cfg, k: Pcb, f: Snd, b: seq<Seg>, cs: seq<Msg>, ps: seq<Msg>)
    requires Extends(k.snd, f)
    requires |b| == |f.buf| && forall i :: 0 <= i < |b| ==> b[i].sn == f.buf[i].sn && b[i].frag == f.buf[i].frag
    requires forall m :: m in ps ==> Carried(cfg, k, f.buf, m)
    requires forall s :: s in f.buf && SendsNow(cfg, k, s) ==> HasMsg(ps, cfg, k, s)
    requires forall m :: m in cs ==> m.cmd != 81
    ensures CarryAll(cfg, k, b, cs + ps)
  {
    hide Overdue, Skipped, Room, Off;
    var buf := f.buf;
    assert forall i :: 0 <= i < |b| ==> (SentAt(cfg, k, i) <==> SendsNow(cfg, k, buf[i])) by {
      assert forall i :: 0 <= i < |k.snd.buf| ==> buf[..|k.snd.buf|][i] == buf[i];
    }
    hide SentAt, SendsNow;
    forall m | m in cs + ps && m.cmd == 81
      ensures CarriesSome(cfg, k, b, m)
    {
      var s :| s in buf && SendsNow(cfg, k, s) && Carries(cfg, k, s, m);
      var i :| 0 <= i < |buf| && buf[i] == s;
      assert Carries(cfg, k, b[i], m);
    }
    forall i | 0 <= i < |b| && SentAt(cfg, k, i)
      ensures HasMsg(cs + ps, cfg, k, b[i])
    {
      assert buf[i] in buf;
      var m :| m in ps && Carries(cfg, k, buf[i], m);
      assert m in cs + ps;
    }
  }

  /** The segments whose timeout has run out. */
  function OverdueOf(k: Pcb, buf: seq<Seg>): set<Seg> {
    set s | s in buf && Overdue(k, s)
  }

  lemma {:induction false} TimeoutsCount(cfg: Cfg, k: Pcb, buf: seq<Seg>, base: u32, bound: int)
    requires cfg.Ok() && Asc(buf, base, bound)
    ensures Timeouts(RoundOf(cfg, k), buf) == |OverdueOf(k, buf)|
  {
    hide Overdue, Off, Due;
    if buf != [] {
      var s, rest := buf[0], buf[1..];
      TimeoutsCount(cfg, k, rest, base, bound);
      ResentFollows(cfg, k, s);
      assert buf == [s] + rest;
      FirstOnce(buf, base, bound);
      hide Asc;
      if Overdue(k, s) {
        assert OverdueOf(k, buf) == {s} + OverdueOf(k, rest);
      } else {
        assert OverdueOf(k, buf) == OverdueOf(k, rest);
      }
    }
  }

  lemma FirstOnce(buf: seq<Seg>, base: u32, bound: int)
    requires Asc(buf, base, bound) && buf != []
    ensures buf[0] !in buf[1..]
  {
    assert forall i :: 0 < i < |buf| ==> buf[i] == buf[1..][i - 1];
  }

  /**
   * A flush counts the timeouts, and declares the link dead exactly if it sends a segment for the dead_link-th
   * time or more.
   */
  lemma FlushCounts(cfg: Cfg, k: Pcb)
    requires cfg.Ok() && k.updated && SndOk(k.snd, cfg.sndWnd)
    ensures var f := Flush(cfg, k);
      && f.xmit == W(k.xmit + |OverdueOf(k, k.snd.buf)|)
      && f.state == (if exists i :: 0 <= i < |f.snd.buf| && SentAt(cfg, k, i) && f.snd.buf[i].xmit >= cfg.deadLink
                     then 0xffff_ffff else k.state)
  {
    var f, r := FilledSnd(cfg, k), RoundOf(cfg, k);
    FilledExtends(cfg, k);
    OrderOf(f, cfg.sndWnd);
    TimeoutsCount(cfg, k, f.buf, f.una, Off(f.nxt, f.una));
    NoneNewOverdue(k, f);
    DeadAt(cfg, k, f);
    hide FilledSnd, SndOk, Dead, Timeouts, AfterFlush, SentAt, Extends, OverdueOf, Asc;
  }

  lemma NoneNewOverdue(k: Pcb, f: Snd)
    requires Extends(k.snd, f)
    ensures OverdueOf(k, f.buf) == OverdueOf(k, k.snd.buf)
  {
    var b := |k.snd.buf|;
    assert f.buf == k.snd.buf + f.buf[b..];
    assert forall s :: s in f.buf[b..] ==> s.xmit == 0;
    hide Extends;
    assert forall s :: s in OverdueOf(k, f.buf) <==> s in OverdueOf(k, k.snd.buf);
  }

  lemma DeadAt(cfg: Cfg, k: Pcb, f: Snd)
    requires cfg.Ok() && Extends(k.snd, f)
    ensures var b := ResendBuf(RoundOf(cfg, k), f.buf);
      Dead(RoundOf(cfg, k), f.buf) <==> exists i :: 0 <= i < |b| && SentAt(cfg, k, i) && b[i].xmit >= cfg.deadLink
  {
    hide Due, Resent, SendsNow, Off;
    var r, n := RoundOf(cfg, k), |k.snd.buf|;
    forall i | 0 <= i < |f.buf|
      ensures SentAt(cfg, k, i) <==> !Due(r, f.buf[i]).Wait?
    {
      assert i < n ==> f.buf[..n][i] == f.buf[i];
      ResentFollows(cfg, k, f.buf[i]);
      assert i >= n ==> SendsNow(cfg, k, f.buf[i]) by {
        NewSent(cfg, k, f.buf[i]);
      }
    }
    hide SentAt, Extends;
    if i :| 0 <= i < |f.buf| && SentAt(cfg, k, i) && ResendBuf(r, f.buf)[i].xmit >= cfg.deadLink {
      assert !Due(r, f.buf[i]).Wait? && Resent(r, f.buf[i]).xmit >= r.deadLink;
    }
    if i :| 0 <= i < |f.buf| && !Due(r, f.buf[i]).Wait? && Resent(r, f.buf[i]).xmit >= r.deadLink {
      assert SentAt(cfg, k, i) && ResendBuf(r, f.buf)[i].xmit >= cfg.deadLink;
    }
  }

  lemma NewSent(cfg: Cfg, k: Pcb, s: Seg)
    ensures s.xmit == 0 ==> SendsNow(cfg, k, s)
  {
  }

  // ---------- skipping ----------

  /** Every acknowledgement in ms names a number used already, less than 2^31 before nxt. */
  predicate AcksUsed(ms: seq<Msg>, nxt: u32) {
    forall m :: m in ms && m.cmd == 82 ==> TimeDiff(m.sn, nxt) < 0
  }

  /** ms acknowledges a number after sn. */
  predicate Passes(ms: seq<Msg>, sn: u32) {
    exists m :: m in ms && m.cmd == 82 && TimeDiff(m.sn, sn) > 0
  }

  /** Numbers used, less than 2^31 before nxt, compare like their offsets from 2^31 before it. */
  lemma UsedOff(sn: u32, nxt: u32)
    requires TimeDiff(sn, nxt) < 0
    ensures Off(sn, Add(nxt, TWO31)) < TWO31
  {
  }

  /** The latest number acknowledged is one of those in ms, or the one noted before, and none of these is later. */
  lemma {:induction false} LatestIsLast(a: MaxAck, ms: seq<Msg>, base: u32)
    requires a.MaxAck? ==> Off(a.sn, base) < TWO31
    requires forall m :: m in ms && m.cmd == 82 ==> Off(m.sn, base) < TWO31
    ensures var r := LatestAck(a, ms);
      && (r.MaxAck? ==> Off(r.sn, base) < TWO31)
      && (r.MaxAck? ==> (a.MaxAck? && r.sn == a.sn) || exists m :: m in ms && m.cmd == 82 && m.sn == r.sn)
      && (r.MaxAck? && a.MaxAck? ==> Off(a.sn, base) <= Off(r.sn, base))
      && (r.MaxAck? ==> forall m :: m in ms && m.cmd == 82 ==> Off(m.sn, base) <= Off(r.sn, base))
    decreases |ms|
  {
    if ms != [] {
      assert ms == [ms[0]] + ms[1..];
      if a.MaxAck? && ms[0].cmd == 82 {
        DiffOff(ms[0].sn, a.sn, base);
      }
      hide Off, TimeDiff;
      LatestIsLast(NoteAck(a, ms[0]), ms[1..], base);
    }
  }

  lemma {:induction false} InputMsgsSegs(cfg: Cfg, k: Pcb, ms: seq<Msg>)
    requires cfg.Ok() && SndOk(k.snd, cfg.sndWnd)
    ensures var s := InputMsgs(cfg, k, ms).snd;
      SndOk(s, cfg.sndWnd) && s.nxt == k.snd.nxt && forall g :: g in s.buf ==> g in k.snd.buf
    decreases |ms|
  {
    hide InputSnd, InputRcv, UpdateAck, SndOk, Acks, Off;
    if ms != [] {
      InputSndCorrect(k.snd, cfg.sndWnd, ms[0]);
      InputMsgsSegs(cfg, InputMsg(cfg, k, ms[0]), ms[1..]);
    }
  }

  /** Counting for the latest number acknowledged: each segment before it is counted once, no other changes. */
  lemma SkipCounted(snd: Snd, wnd: u32, sn: u32, g: Seg)
    requires SndOk(snd, wnd) && wnd < TWO31 && TimeDiff(sn, snd.nxt) < 0 && g in ParseFastack(snd, sn).buf
    ensures exists s :: s in snd.buf
              && g == s.(fastack := if TimeDiff(sn, s.sn) > 0 then Add(s.fastack, 1) else s.fastack)
  {
    var i :| 0 <= i < |ParseFastack(snd, sn).buf| && ParseFastack(snd, sn).buf[i] == g;
    OrderOf(snd, wnd);
    hide SndOk;
    if Outstanding(snd, sn) {
      BumpFastackSame(snd.buf, sn);
      OutstandingOff(snd, wnd, sn);
      BumpFastackCorrect(snd.buf, snd.una, Off(snd.nxt, snd.una), sn);
      var s := snd.buf[i];
      DiffOff(sn, s.sn, snd.una);
      hide Asc, Off, TimeDiff, BumpFastack;
      assert g == s.(fastack := if TimeDiff(sn, s.sn) > 0 then Add(s.fastack, 1) else s.fastack);
    } else {
      NotPassed(snd, wnd, sn, g);
    }
  }

  lemma OutstandingOff(snd: Snd, wnd: u32, sn: u32)
    requires SndOk(snd, wnd) && wnd < TWO31 && Outstanding(snd, sn)
    ensures Off(sn, snd.una) < Off(snd.nxt, snd.una) <= wnd
  {
  }

  lemma NotPassed(snd: Snd, wnd: u32, sn: u32, s: Seg)
    requires SndOk(snd, wnd) && wnd < TWO31 && TimeDiff(sn, snd.nxt) < 0 && !Outstanding(snd, sn) && s in snd.buf
    ensures TimeDiff(sn, s.sn) <= 0
  {
    var i :| 0 <= i < |snd.buf| && snd.buf[i] == s;
    assert Off(s.sn, snd.una) < Off(snd.nxt, snd.una);
  }

  /**
   * Whatever a datagram holds, each segment that it leaves is counted as skipped once if the datagram
   * acknowledges a later number, wherever in it, and not at all if it does not or is broken; nothing else of the
   * segment changes.
   */
  lemma SkippedOnce(cfg: Cfg, k: Pcb, bytes: seq<u8>, g: Seg)
    requires cfg.Ok() && SndOk(k.snd, cfg.sndWnd) && AcksUsed(Parse(cfg.conv, bytes).ms, k.snd.nxt)
    requires g in Input(cfg, k, bytes).k.snd.buf
    ensures exists s :: s in k.snd.buf && g == s.(fastack := g.fastack)
              && g.fastack == if Input(cfg, k, bytes).code == 0 && Passes(Parse(cfg.conv, bytes).ms, s.sn)
                              then Add(s.fastack, 1) else s.fastack
  {
    hide Parse, InputMsgs, LatestAck, Grow, SndOk, ParseFastack, Passes, AcksUsed;
    var ms := Parse(cfg.conv, bytes).ms;
    var k1, a := InputMsgs(cfg, k, ms), LatestAck(NoAck, ms);
    if |bytes| < OVERHEAD {
    } else if Parse(cfg.conv, bytes).code != 0 {
      InputMsgsSegs(cfg, k, ms);
    } else {
      InputMsgsSegs(cfg, k, ms);
      EndSegs(cfg, k1, k.snd.una, a);
      if a.NoAck? {
        NonePassed(ms, g.sn);
      } else {
        LatestUsed(ms, k.snd.nxt);
        SkipCounted(k1.snd, cfg.sndWnd, a.sn, g);
        var s :| s in k1.snd.buf
              && g == s.(fastack := if TimeDiff(a.sn, s.sn) > 0 then Add(s.fastack, 1) else s.fastack);
        SegUsed(k1.snd, cfg.sndWnd, s);
        LatestPasses(ms, k.snd.nxt, s.sn);
      }
    }
  }

  lemma EndSegs(cfg: Cfg, k: Pcb, prevUna: u32, a: MaxAck)
    requires cfg.Ok()
    ensures InputEnd(cfg, k, prevUna, a).snd == if a.MaxAck? then ParseFastack(k.snd, a.sn) else k.snd
  {
    hide Grow, ParseFastack;
  }

  lemma NonePassed(ms: seq<Msg>, sn: u32)
    requires LatestAck(NoAck, ms).NoAck?
    ensures !Passes(ms, sn)
  {
    NoAcks(ms);
  }

  lemma {:induction false} NoAcks(ms: seq<Msg>)
    requires LatestAck(NoAck, ms).NoAck?
    ensures forall m :: m in ms ==> m.cmd != 82
    decreases |ms|
  {
    if ms != [] {
      if ms[0].cmd == 82 {
        StaysNoted(MaxAck(ms[0].sn), ms[1..]);
      }
      NoAcks(ms[1..]);
      assert ms == [ms[0]] + ms[1..];
    }
  }

  lemma {:induction false} StaysNoted(a: MaxAck, ms: seq<Msg>)
    requires a.MaxAck?
    ensures LatestAck(a, ms).MaxAck?
    decreases |ms|
  {
    if ms != [] {
      StaysNoted(NoteAck(a, ms[0]), ms[1..]);
    }
  }

  lemma UsedAll(ms: seq<Msg>, nxt: u32)
    requires AcksUsed(ms, nxt)
    ensures forall m :: m in ms && m.cmd == 82 ==> Off(m.sn, Add(nxt, TWO31)) < TWO31
  {
    forall m | m in ms && m.cmd == 82
      ensures Off(m.sn, Add(nxt, TWO31)) < TWO31
    {
      UsedOff(m.sn, nxt);
    }
  }

  lemma LatestUsed(ms: seq<Msg>, nxt: u32)
    requires AcksUsed(ms, nxt) && LatestAck(NoAck, ms).MaxAck?
    ensures TimeDiff(LatestAck(NoAck, ms).sn, nxt) < 0
  {
    UsedAll(ms, nxt);
    hide LatestAck, Off;
    LatestIsLast(NoAck, ms, Add(nxt, TWO31));
  }

  lemma SegUsed(snd: Snd, wnd: u32, s: Seg)
    requires SndOk(snd, wnd) && wnd < TWO31 && s in snd.buf
    ensures TimeDiff(s.sn, snd.nxt) < 0
  {
    var i :| 0 <= i < |snd.buf| && snd.buf[i] == s;
    assert Off(s.sn, snd.una) < Off(snd.nxt, snd.una);
  }

  lemma LatestPasses(ms: seq<Msg>, nxt: u32, sn: u32)
    requires AcksUsed(ms, nxt) && TimeDiff(sn, nxt) < 0 && LatestAck(NoAck, ms).MaxAck?
    ensures TimeDiff(LatestAck(NoAck, ms).sn, sn) > 0 <==> Passes(ms, sn)
  {
    var a, base := LatestAck(NoAck, ms), Add(nxt, TWO31);
    UsedAll(ms, nxt);
    UsedOff(sn, nxt);
    hide LatestAck;
    LatestIsLast(NoAck, ms, base);
    DiffOff(a.sn, sn, base);
    forall m | m in ms && m.cmd == 82
      ensures TimeDiff(m.sn, sn) == Off(m.sn, base) - Off(sn, base)
    {
      DiffOff(m.sn, sn, base);
    }
    hide Off, TimeDiff;
  }
}
