// Two KCP endpoints and a network between them that may lose, duplicate,
// reorder and re-bundle what the endpoints send, but not alter it.
module KcpSystem {
  import opened Word
  import opened Wire
  import opened KcpSpec
  import opened KcpLocal
  import opened KcpLink
  import opened KcpFrag

  /**
   * A control block together with the history that no 32-bit field can hold:
   * every fragment numbered so far, the unbounded snd_una and rcv_nxt, the
   * numbers behind acklist, and what the application sent and received.
   */
  datatype End = End(k: Pcb, log: seq<Frag>, u: int, n: int, acks: seq<int>, taken: int,
                     accepted: seq<seq<u8>>, acceptedBytes: seq<u8>,
                     delivered: seq<seq<u8>>, deliveredBytes: seq<u8>)

  function Fresh(): End {
    End(Create(), [], 0, 0, [], 0, [], [], [], [])
  }

  // ---------- steps of one endpoint ----------

  function SendE(cfg: Cfg, e: End, buf: seq<u8>): End
    requires cfg.Ok()
  {
    var s := SendQueue(cfg, e.k.snd.queue, buf);
    e.(k := e.k.(snd := e.k.snd.(queue := s.queue)),
       accepted := if s.code == 0 then e.accepted + [buf] else e.accepted,
       acceptedBytes := e.acceptedBytes + if s.code == 0 then buf else buf[..TopUp(cfg, e.k.snd.queue, buf)])
  }

  function RecvE(cfg: Cfg, e: End, len: int): End {
    var r := Recv(cfg, e.k, len);
    var took := r.code >= 0 && len >= 0;
    e.(k := r.k,
       n := e.n + Off(r.k.rcv.nxt, e.k.rcv.nxt),
       taken := if took then e.taken + FirstMessage(e.k.rcv.queue) else e.taken,
       delivered := if took then e.delivered + [r.data] else e.delivered,
       deliveredBytes := if took then e.deliveredBytes + r.data else e.deliveredBytes)
  }

  function FlushE(cfg: Cfg, e: End): End
    requires cfg.Ok()
  {
    var k := Flush(cfg, e.k);
    var c := |e.k.snd.queue| - |k.snd.queue|;
    e.(k := k,
       log := e.log + if 0 <= c <= |e.k.snd.queue| then e.k.snd.queue[..c] else [],
       acks := if e.k.updated then [] else e.acks)
  }

  /** The messages of a flush, each with the unbounded numbers behind its words. */
  function FlushTags(cfg: Cfg, e: End): seq<TMsg>
    requires cfg.Ok()
  {
    var ms := FlushMsgs(cfg, e.k);
    seq(|ms|, i requires 0 <= i < |ms| =>
      TMsg(ms[i],
           if i < |e.acks| then e.acks[i] else if ms[i].cmd == CMD_PUSH then e.u + Off(ms[i].sn, e.k.snd.una) else 0,
           e.n))
  }

  function TickE(cfg: Cfg, e: End, current: u32): End {
    e.(k := Tick(cfg, e.k, current))
  }

  function InputE(cfg: Cfg, e: End, t: TMsg): End {
    var k := InputMsg(cfg, e.k, t.m);
    e.(k := k,
       u := e.u + Off(k.snd.una, e.k.snd.una),
       n := e.n + Off(k.rcv.nxt, e.k.rcv.nxt),
       acks := if |k.rcv.acks| > |e.k.rcv.acks| then e.acks + [t.sn] else e.acks)
  }

  function InputAllE(cfg: Cfg, e: End, ts: seq<TMsg>): End
    decreases |ts|
  {
    if ts == [] then e else InputAllE(cfg, InputE(cfg, e, ts[0]), ts[1..])
  }

  function Plain(ts: seq<TMsg>): seq<Msg> {
    seq(|ts|, i requires 0 <= i < |ts| => ts[i].m)
  }

  /** ikcp_input on the bytes that encode ts. */
  function DeliverE(cfg: Cfg, e: End, ts: seq<TMsg>): End
    requires cfg.Ok() && Encodable(Plain(ts))
  {
    InputAllE(cfg, e, ts).(k := Input(cfg, e.k, EncodeAll(Plain(ts))).k)
  }

  // ---------- one direction ----------

  predicate SendApp(cfg: Cfg, e: End) {
    var all := e.log + e.k.snd.queue;
    && CountsDown(all) && Closed(all) && Short(cfg.Mss(), all)
    && e.acceptedBytes == Bytes(all)
    && (!cfg.stream ==> e.accepted == Messages([], all) && Unfinished([], all) == [])
  }

  predicate RecvApp(e: End, log: seq<Frag>) {
    && 0 <= e.taken <= e.n <= |log|
    && e.k.rcv.queue == log[e.taken..e.n]
    && e.delivered == Messages([], log[..e.taken])
    && Unfinished([], log[..e.taken]) == []
    && e.deliveredBytes == Bytes(log[..e.taken])
  }

  predicate SrOk(s: End, sr: set<TMsg>) {
    forall t :: t in sr ==> PushOk(t, s.log)
  }

  predicate RsOk(wnd: u32, r: End, rs: set<TMsg>) {
    forall t :: t in rs ==> AckOk(t, wnd, r.k.rcv, r.n)
  }

  /** Everything that holds of the data flowing from s to r. */
  predicate Dir(cs: Cfg, s: End, cr: Cfg, r: End, sr: set<TMsg>, rs: set<TMsg>) {
    && SndInv(cs.sndWnd, s.k.snd, s.log, s.u)
    && RcvInv(cr.rcvWnd, r.k.rcv, r.n, r.acks, s.log)
    && Covered(s.k.snd, s.log, s.u, cr.rcvWnd, r.k.rcv, r.n)
    && s.k.cong.rmtWnd <= cr.rcvWnd
    && SrOk(s, sr) && RsOk(cr.rcvWnd, r, rs)
    && SendApp(cs, s) && RecvApp(r, s.log)
  }

  predicate PairOk(cs: Cfg, cr: Cfg) {
    && cs.Ok() && cr.Ok() && cs.conv == cr.conv
    && cs.sndWnd < TWO30 && cs.rcvWnd < TWO30 && cr.sndWnd < TWO30 && cr.rcvWnd < TWO30
  }

  lemma DirFresh(cs: Cfg, cr: Cfg)
    requires PairOk(cs, cr)
    ensures Dir(cs, Fresh(), cr, Fresh(), {}, {})
  {
    FreshNumbers(cs, cr);
    FreshData(cs);
    hide SndInv, RcvInv, Covered, SendApp, RecvApp;
  }

  lemma FreshNumbers(cs: Cfg, cr: Cfg)
    requires PairOk(cs, cr)
    ensures SndInv(cs.sndWnd, Fresh().k.snd, [], 0) && RcvInv(cr.rcvWnd, Fresh().k.rcv, 0, [], [])
    ensures Covered(Fresh().k.snd, [], 0, cr.rcvWnd, Fresh().k.rcv, 0)
  {
  }

  lemma FreshData(cs: Cfg)
    ensures SendApp(cs, Fresh()) && RecvApp(Fresh(), [])
  {
  }

  // ---------- ikcp_send ----------

  lemma TopUpLink(cfg: Cfg, log: seq<Frag>, q: seq<Frag>, buf: seq<u8>)
    requires cfg.Ok() && cfg.stream
    requires CountsDown(log + q) && Closed(log + q) && Short(cfg.Mss(), log + q)
    ensures var q' := TopUpQueue(cfg, q, buf);
      && CountsDown(log + q') && Closed(log + q') && Short(cfg.Mss(), log + q')
      && Bytes(log + q') == Bytes(log + q) + buf[..TopUp(cfg, q, buf)]
  {
    var q' := TopUpQueue(cfg, q, buf);
    var x := TopUp(cfg, q, buf);
    if q != [] && |q[|q| - 1].data| < cfg.Mss() {
      var init, last := log + q[..|q| - 1], q[|q| - 1];
      var last' := Frag(0, last.data + buf[..x]);
      assert log + q == init + [last] && log + q' == init + [last'];
      assert last == (log + q)[|log + q| - 1];
      BytesConcat(init, [last]);
      BytesConcat(init, [last']);
      assert Bytes([last]) == last.data && Bytes([last']) == last.data + buf[..x];
      assert Bytes(init) + (last.data + buf[..x]) == Bytes(init) + last.data + buf[..x];
      ReplaceLast(init, last, last', cfg.Mss());
    } else {
      assert Bytes(log + q) + [] == Bytes(log + q);
    }
  }

  lemma ReplaceLast(init: seq<Frag>, last: Frag, last': Frag, mss: int)
    requires CountsDown(init + [last]) && last.frg == last'.frg && Short(mss, init + [last]) && |last'.data| <= mss
    ensures CountsDown(init + [last']) && Short(mss, init + [last'])
  {
    var a, b := init + [last], init + [last'];
    assert forall i :: 0 <= i < |init| ==> b[i] == a[i];
    forall i | 0 <= i < |b|
      ensures StepsDown(b, i)
    {
      assert StepsDown(a, i);
    }
  }

  lemma AppendLink(cfg: Cfg, all: seq<Frag>, buf: seq<u8>)
    requires cfg.Ok() && FragCount(cfg.Mss(), |buf|) < WND_RCV
    requires CountsDown(all) && Closed(all) && Short(cfg.Mss(), all)
    ensures var fs := Fragments(cfg.Mss(), cfg.stream, buf, FragCount(cfg.Mss(), |buf|));
      && CountsDown(all + fs) && Closed(all + fs) && Short(cfg.Mss(), all + fs)
      && Bytes(all + fs) == Bytes(all) + buf
      && (!cfg.stream && Unfinished([], all) == [] ==>
            Messages([], all + fs) == Messages([], all) + [buf] && Unfinished([], all + fs) == [])
  {
    var fs := Fragments(cfg.Mss(), cfg.stream, buf, FragCount(cfg.Mss(), |buf|));
    hide Fragments, FragCount;
    FragmentsCorrect(cfg.Mss(), cfg.stream, buf);
    CountsDownConcat(all, fs);
    BytesConcat(all, fs);
    MessagesConcat([], all, fs);
  }

  /** Tail merging and fragmentation only ever touch unnumbered fragments, and account for every byte. */
  lemma SendLink(cfg: Cfg, e: End, buf: seq<u8>)
    requires cfg.Ok() && SendApp(cfg, e)
    ensures SendApp(cfg, SendE(cfg, e, buf))
  {
    hide Bytes, Messages, Unfinished, Fragments, FragCount, CountsDown, Closed, Short;
    var q := e.k.snd.queue;
    var q1 := TopUpQueue(cfg, q, buf);
    var x := TopUp(cfg, q, buf);
    var rest := buf[x..];
    assert buf == buf[..x] + rest;
    if cfg.stream {
      TopUpLink(cfg, e.log, q, buf);
    } else {
      assert Bytes(e.log + q) + [] == Bytes(e.log + q);
      assert rest == buf;
    }
    if !(cfg.stream && rest == []) && FragCount(cfg.Mss(), |rest|) < WND_RCV {
      var fs := Fragments(cfg.Mss(), cfg.stream, rest, FragCount(cfg.Mss(), |rest|));
      AppendLink(cfg, e.log + q1, rest);
      assert e.log + (q1 + fs) == e.log + q1 + fs;
      assert Bytes(e.log + q) + buf == Bytes(e.log + q) + buf[..x] + rest;
    }
  }

  lemma DirSend(cs: Cfg, s: End, cr: Cfg, r: End, sr: set<TMsg>, rs: set<TMsg>, buf: seq<u8>)
    requires PairOk(cs, cr) && Dir(cs, s, cr, r, sr, rs)
    ensures Dir(cs, SendE(cs, s, buf), cr, r, sr, rs)
  {
    hide RcvInv, Covered, SendApp, RecvApp, SendQueue, Asc;
    SendLink(cs, s, buf);
    var s' := SendE(cs, s, buf);
    assert SndInv(cs.sndWnd, s'.k.snd, s'.log, s'.u);
    assert Covered(s'.k.snd, s'.log, s'.u, cr.rcvWnd, r.k.rcv, r.n) by {
      CoveredSameBuf(s.k.snd, s'.k.snd, s.log, s.u, cr.rcvWnd, r.k.rcv, r.n);
    }
  }

  lemma CoveredSameBuf(snd: Snd, snd': Snd, log: seq<Frag>, u: int, wnd: u32, rcv: Rcv, n: int)
    requires Covered(snd, log, u, wnd, rcv, n) && snd.buf == snd'.buf
    ensures Covered(snd', log, u, wnd, rcv, n)
  {
  }

  // ---------- what the receiver's progress keeps ----------

  /** r' is a receiver at least as far as r that keeps its own invariants. */
  ghost predicate Further(wnd: u32, r: End, r': End, log: seq<Frag>) {
    && RcvInv(wnd, r'.k.rcv, r'.n, r'.acks, log)
    && r.n <= r'.n
    && (forall i :: Held(wnd, r.k.rcv, r.n, i) ==> Held(wnd, r'.k.rcv, r'.n, i))
    && RecvApp(r', log)
  }

  lemma DirFurther(cs: Cfg, s: End, cr: Cfg, r: End, r': End, sr: set<TMsg>, rs: set<TMsg>)
    requires Dir(cs, s, cr, r, sr, rs) && Further(cr.rcvWnd, r, r', s.log)
    ensures Dir(cs, s, cr, r', sr, rs)
  {
  }

  // ---------- ikcp_recv ----------

  lemma CountsDownSlice(all: seq<Frag>, a: nat, b: nat)
    requires CountsDown(all) && a <= b <= |all|
    ensures CountsDown(all[a..b])
  {
    forall i | 0 <= i < b - a
      ensures StepsDown(all[a..b], i)
    {
      assert StepsDown(all, a + i);
    }
  }

  /** Taking one complete message off the queue extends what was delivered by exactly that message. */
  lemma TakeMessage(log: seq<Frag>, taken: nat, n: nat, c: nat)
    requires taken <= n <= |log| && c <= n - taken
    requires OneMessage(log[taken..n][..c]) && Unfinished([], log[..taken]) == []
    ensures var m := Bytes(log[taken..n][..c]);
      && Messages([], log[..taken + c]) == Messages([], log[..taken]) + [m]
      && Unfinished([], log[..taken + c]) == []
      && Bytes(log[..taken + c]) == Bytes(log[..taken]) + m
  {
    hide Messages, Unfinished, Bytes, OneMessage;
    var fs := log[taken..n][..c];
    assert log[..taken + c] == log[..taken] + fs;
    MessagesConcat([], log[..taken], fs);
    BytesConcat(log[..taken], fs);
    OneMessageMeans([], fs);
    assert [] + Bytes(fs) == Bytes(fs);
  }

  lemma RecvRcv(wnd: u32, rcv: Rcv, n: int, acks: seq<int>, log: seq<Frag>, c: nat, r: Rcv)
    requires RcvInv(wnd, rcv, n, acks, log) && wnd < TWO30 && c <= |rcv.queue|
    requires r == Drain(rcv.(queue := rcv.queue[c..]), wnd)
    ensures var n' := n + Off(r.nxt, rcv.nxt);
      && RcvInv(wnd, r, n', acks, log)
      && Advanced(wnd, rcv.(queue := rcv.queue[c..]), n, r, n', log)
      && forall i :: Held(wnd, rcv, n, i) ==> Held(wnd, r, n', i)
  {
    hide Drain, Held, RcvContent, AscR, W, Off, Moved, RcvBase;
    var r0 := rcv.(queue := rcv.queue[c..]);
    ShorterQueue(wnd, rcv, n, log, c);
    DrainCorrect(r0, wnd);
    DrainLink(wnd, r0, n, log, r);
    assert r.acks == rcv.acks by {
      MovedAcks(r0, r);
    }
  }

  lemma ShorterQueue(wnd: u32, rcv: Rcv, n: int, log: seq<Frag>, c: nat)
    requires RcvBase(wnd, rcv, n, log) && c <= |rcv.queue|
    ensures var r := rcv.(queue := rcv.queue[c..]);
      && RcvBase(wnd, r, n, log) && AscR(r.buf, r.nxt, wnd) && |r.queue| <= wnd
      && forall i :: Held(wnd, rcv, n, i) ==> Held(wnd, r, n, i)
  {
  }

  lemma RecvStep(wnd: u32, e: End, e': End, log: seq<Frag>, c: nat, data: seq<seq<u8>>)
    requires RcvInv(wnd, e.k.rcv, e.n, e.acks, log) && wnd < TWO30 && RecvApp(e, log)
    requires c <= |e.k.rcv.queue|
    requires e'.k.rcv == Drain(e.k.rcv.(queue := e.k.rcv.queue[c..]), wnd)
    requires e'.n == e.n + Off(e'.k.rcv.nxt, e.k.rcv.nxt) && e'.acks == e.acks && e'.taken == e.taken + c
    requires if c == 0 then data == [] && e'.deliveredBytes == e.deliveredBytes
             else (OneMessage(e.k.rcv.queue[..c]) && data == [Bytes(e.k.rcv.queue[..c])]
                   && e'.deliveredBytes == e.deliveredBytes + Bytes(e.k.rcv.queue[..c]))
    requires e'.delivered == e.delivered + data
    ensures Further(wnd, e, e', log)
  {
    hide RcvInv, Held, Drain, Messages, Unfinished, Bytes, OneMessage, Off;
    RecvRcv(wnd, e.k.rcv, e.n, e.acks, log, c, e'.k.rcv);
    if c > 0 {
      TakeMessage(log, e.taken, e.n, c);
    }
    RecvQueue(log, e.taken, e.n, e'.n, c);
  }

  lemma FurtherSame(wnd: u32, e: End, e': End, log: seq<Frag>)
    requires RcvInv(wnd, e.k.rcv, e.n, e.acks, log) && RecvApp(e, log)
    requires e'.k.rcv == e.k.rcv && e'.n == e.n && e'.acks == e.acks && e'.taken == e.taken
    requires e'.delivered == e.delivered && e'.deliveredBytes == e.deliveredBytes
    ensures Further(wnd, e, e', log)
  {
  }

  /** ikcp_recv never finds a broken message, and delivers in order. */
  lemma RecvLink(cfg: Cfg, e: End, log: seq<Frag>, rest: seq<Frag>, len: int)
    requires cfg.Ok() && cfg.rcvWnd < TWO30
    requires RcvInv(cfg.rcvWnd, e.k.rcv, e.n, e.acks, log) && RecvApp(e, log) && CountsDown(log + rest)
    ensures Further(cfg.rcvWnd, e, RecvE(cfg, e, len), log)
  {
    var q := e.k.rcv.queue;
    var e' := RecvE(cfg, e, len);
    assert Off(e.k.rcv.nxt, e.k.rcv.nxt) == 0;
    assert RecvApp(e, log) ==> q == log[e.taken..e.n];
    hide RcvInv, Held, Drain, Bytes, OneMessage, FirstMessage, Off, Further, RecvApp, CountsDown;
    if Recv(cfg, e.k, len).code < 0 {
      FurtherSame(cfg.rcvWnd, e, e', log);
    } else {
      assert q == (log + rest)[e.taken..e.n];
      CountsDownSlice(log + rest, e.taken, e.n);
      FirstMessageCorrect(q);
      assert q[0..] == q;
      if len < 0 {
        RecvStep(cfg.rcvWnd, e, e', log, 0, []);
      } else {
        RecvStep(cfg.rcvWnd, e, e', log, FirstMessage(q), [Bytes(q[..FirstMessage(q)])]);
      }
    }
  }

  lemma DirRecv(cs: Cfg, s: End, cr: Cfg, r: End, sr: set<TMsg>, rs: set<TMsg>, len: int)
    requires PairOk(cs, cr) && Dir(cs, s, cr, r, sr, rs)
    ensures Dir(cs, s, cr, RecvE(cr, r, len), sr, rs)
  {
    hide RecvE, Further, RcvInv, SndInv, Covered;
    RecvLink(cr, r, s.log, s.k.snd.queue, len);
    DirFurther(cs, s, cr, r, RecvE(cr, r, len), sr, rs);
  }

  lemma RecvQueue(log: seq<Frag>, taken: nat, n: nat, n': nat, c: nat)
    requires taken <= n <= n' <= |log| && c <= n - taken
    ensures log[taken..n][c..] + log[n..n'] == log[taken + c..n']
  {
  }

  // ---------- ikcp_input ----------

  lemma InputReceiver(wnd: u32, e: End, e': End, log: seq<Frag>, t: TMsg)
    requires RcvInv(wnd, e.k.rcv, e.n, e.acks, log) && wnd < TWO30
    requires PushOk(t, log) && FreshPush(t, log, wnd) && RecvApp(e, log)
    requires e'.k.rcv == InputRcv(e.k.rcv, t.m, wnd)
    requires e'.n == e.n + Off(e'.k.rcv.nxt, e.k.rcv.nxt)
    requires e'.acks == if |e'.k.rcv.acks| > |e.k.rcv.acks| then e.acks + [t.sn] else e.acks
    requires e'.taken == e.taken && e'.delivered == e.delivered && e'.deliveredBytes == e.deliveredBytes
    ensures Further(wnd, e, e', log)
  {
    hide RcvInv, Held, InputRcv, Messages, Unfinished, Bytes, Off, PushOk, FreshPush;
    ReceiverInput(wnd, e.k.rcv, e.n, e.acks, log, t, e'.k.rcv);
    assert log[e.taken..e.n] + log[e.n..e'.n] == log[e.taken..e'.n];
  }

  lemma DirInputReceiver(cs: Cfg, s: End, cr: Cfg, r: End, sr: set<TMsg>, rs: set<TMsg>, t: TMsg)
    requires PairOk(cs, cr) && Dir(cs, s, cr, r, sr, rs)
    requires PushOk(t, s.log) && FreshPush(t, s.log, cr.rcvWnd)
    ensures Dir(cs, s, cr, InputE(cr, r, t), sr, rs)
  {
    hide RcvInv, Held, InputRcv, InputSnd, UpdateAck, SndInv, Covered, Off, Dir, Further, RecvApp;
    var r' := InputE(cr, r, t);
    assert RcvInv(cr.rcvWnd, r.k.rcv, r.n, r.acks, s.log) && RecvApp(r, s.log) by {
      DirParts(cs, s, cr, r, sr, rs);
    }
    InputReceiver(cr.rcvWnd, r, r', s.log, t);
    DirFurther(cs, s, cr, r, r', sr, rs);
  }

  lemma DirParts(cs: Cfg, s: End, cr: Cfg, r: End, sr: set<TMsg>, rs: set<TMsg>)
    requires Dir(cs, s, cr, r, sr, rs)
    ensures SndInv(cs.sndWnd, s.k.snd, s.log, s.u)
    ensures RcvInv(cr.rcvWnd, r.k.rcv, r.n, r.acks, s.log)
    ensures Covered(s.k.snd, s.log, s.u, cr.rcvWnd, r.k.rcv, r.n)
    ensures SendApp(cs, s) && RecvApp(r, s.log)
  {
  }

  lemma DirInputSender(cs: Cfg, s: End, cr: Cfg, r: End, sr: set<TMsg>, rs: set<TMsg>, t: TMsg)
    requires PairOk(cs, cr) && Dir(cs, s, cr, r, sr, rs)
    requires AckOk(t, cr.rcvWnd, r.k.rcv, r.n) && FreshAck(t, s.log)
    ensures Dir(cs, InputE(cs, s, t), cr, r, sr, rs)
  {
    hide RcvInv, Held, InputRcv, InputSnd, UpdateAck, SndInv, Covered, Off, RecvApp, PushOk;
    SenderNumbers(cs.sndWnd, s.k.snd, s.log, s.u, t.m);
    SenderCovered(cs.sndWnd, s.k.snd, s.log, s.u, cr.rcvWnd, r.k.rcv, r.n, r.acks, t);
    InputKeepsQueue(s.k.snd, t.m);
  }

  lemma InputKeepsQueue(snd: Snd, m: Msg)
    ensures InputSnd(snd, m).queue == snd.queue
  {
  }

  lemma DirInputAllReceiver(cs: Cfg, s: End, cr: Cfg, r: End, sr: set<TMsg>, rs: set<TMsg>, ts: seq<TMsg>)
    requires PairOk(cs, cr) && Dir(cs, s, cr, r, sr, rs)
    requires forall i :: 0 <= i < |ts| ==> PushOk(ts[i], s.log) && FreshPush(ts[i], s.log, cr.rcvWnd)
    ensures Dir(cs, s, cr, InputAllE(cr, r, ts), sr, rs)
    decreases |ts|
  {
    hide Dir, PushOk, FreshPush, InputE;
    if ts != [] {
      DirInputReceiver(cs, s, cr, r, sr, rs, ts[0]);
      DirInputAllReceiver(cs, s, cr, InputE(cr, r, ts[0]), sr, rs, ts[1..]);
    }
  }

  lemma DirInputAllSender(cs: Cfg, s: End, cr: Cfg, r: End, sr: set<TMsg>, rs: set<TMsg>, ts: seq<TMsg>)
    requires PairOk(cs, cr) && Dir(cs, s, cr, r, sr, rs)
    requires forall i :: 0 <= i < |ts| ==> AckOk(ts[i], cr.rcvWnd, r.k.rcv, r.n) && FreshAck(ts[i], s.log)
    ensures Dir(cs, InputAllE(cs, s, ts), cr, r, sr, rs)
    decreases |ts|
  {
    hide Dir, AckOk, FreshAck;
    if ts != [] {
      DirInputSender(cs, s, cr, r, sr, rs, ts[0]);
      DirInputAllSender(cs, InputE(cs, s, ts[0]), cr, r, sr, rs, ts[1..]);
    }
  }

  lemma {:induction false} InputAllPlain(cfg: Cfg, e: End, ts: seq<TMsg>)
    ensures InputAllE(cfg, e, ts).k == InputMsgs(cfg, e.k, Plain(ts))
    decreases |ts|
  {
    hide InputMsg;
    if ts != [] {
      InputAllPlain(cfg, InputE(cfg, e, ts[0]), ts[1..]);
      assert Plain(ts)[1..] == Plain(ts[1..]);
    }
  }

  /** k is k1 but for duplicate-ack counters and the congestion window. */
  predicate SameData(k1: Pcb, k: Pcb) {
    && k.rcv == k1.rcv && k.cong.rmtWnd == k1.cong.rmtWnd
    && k.snd == k1.snd.(buf := k.snd.buf) && |k.snd.buf| == |k1.snd.buf|
    && forall i :: 0 <= i < |k.snd.buf| ==>
         k.snd.buf[i].sn == k1.snd.buf[i].sn && k.snd.buf[i].frag == k1.snd.buf[i].frag
  }

  /** ikcp_input on encoded messages takes them in one by one, whatever it then does to the window. */
  lemma DeliverData(cfg: Cfg, e: End, ts: seq<TMsg>)
    requires cfg.Ok() && AllSendable(cfg.conv, Plain(ts)) && Encodable(Plain(ts))
    ensures SameData(InputAllE(cfg, e, ts).k, DeliverE(cfg, e, ts).k)
  {
    hide Parse, InputMsgs, Grow, EncodeMsg, LatestAck, BumpFastack;
    var ms := Plain(ts);
    var bytes := EncodeAll(ms);
    InputAllPlain(cfg, e, ts);
    EncodeSize(ms);
    if ms == [] {
      assert InputAllE(cfg, e, ts) == e;
    } else {
      assert Size(ms) >= OVERHEAD;
      assert bytes + [] == bytes && ms + [] == ms;
      ParseNothing(cfg.conv);
      ParseEncode(cfg.conv, ms, []);
      InputEndData(cfg, InputMsgs(cfg, e.k, ms), e.k.snd.una, LatestAck(NoAck, ms));
    }
  }

  lemma ParseNothing(conv: u32)
    ensures Parse(conv, []) == Parsed([], 0)
  {
  }

  lemma InputEndData(cfg: Cfg, k: Pcb, prevUna: u32, maxack: MaxAck)
    requires cfg.Ok()
    ensures SameData(k, InputEnd(cfg, k, prevUna, maxack))
  {
    if maxack.MaxAck? {
      BumpFastackSame(k.snd.buf, maxack.sn);
    }
  }

  lemma DirSameSender(cs: Cfg, s: End, k: Pcb, cr: Cfg, r: End, sr: set<TMsg>, rs: set<TMsg>)
    requires Dir(cs, s, cr, r, sr, rs) && SameData(s.k, k)
    ensures Dir(cs, s.(k := k), cr, r, sr, rs)
  {
    hide RcvInv, Held, RecvApp, PushOk, SndInv, Off, W;
    SameNumbers(cs.sndWnd, s.k.snd, s.log, s.u, k.snd.buf);
  }

  lemma DirSameReceiver(cs: Cfg, s: End, k: Pcb, cr: Cfg, r: End, sr: set<TMsg>, rs: set<TMsg>)
    requires Dir(cs, s, cr, r, sr, rs) && SameData(r.k, k)
    ensures Dir(cs, s, cr, r.(k := k), sr, rs)
  {
  }

  lemma DirDeliverSender(cs: Cfg, s: End, cr: Cfg, r: End, sr: set<TMsg>, rs: set<TMsg>, ts: seq<TMsg>)
    requires PairOk(cs, cr) && Dir(cs, s, cr, r, sr, rs)
    requires AllSendable(cs.conv, Plain(ts)) && Encodable(Plain(ts))
    requires forall i :: 0 <= i < |ts| ==> AckOk(ts[i], cr.rcvWnd, r.k.rcv, r.n) && FreshAck(ts[i], s.log)
    ensures Dir(cs, DeliverE(cs, s, ts), cr, r, sr, rs)
  {
    hide Dir, AckOk, FreshAck, InputAllE, Input, SameData;
    DirInputAllSender(cs, s, cr, r, sr, rs, ts);
    DeliverData(cs, s, ts);
    DirSameSender(cs, InputAllE(cs, s, ts), DeliverE(cs, s, ts).k, cr, r, sr, rs);
  }

  lemma DirDeliverReceiver(cs: Cfg, s: End, cr: Cfg, r: End, sr: set<TMsg>, rs: set<TMsg>, ts: seq<TMsg>)
    requires PairOk(cs, cr) && Dir(cs, s, cr, r, sr, rs)
    requires AllSendable(cr.conv, Plain(ts)) && Encodable(Plain(ts))
    requires forall i :: 0 <= i < |ts| ==> PushOk(ts[i], s.log) && FreshPush(ts[i], s.log, cr.rcvWnd)
    ensures Dir(cs, s, cr, DeliverE(cr, r, ts), sr, rs)
  {
    hide Dir, PushOk, FreshPush, InputAllE, Input, SameData;
    DirInputAllReceiver(cs, s, cr, r, sr, rs, ts);
    DeliverData(cr, r, ts);
    DirSameReceiver(cs, s, DeliverE(cr, r, ts).k, cr, InputAllE(cr, r, ts), sr, rs);
  }

  // ---------- ikcp_flush ----------

  /** A flushed message is a fragment of the log under its own number, or speaks only of what is held. */
  predicate TagOk(cfg: Cfg, e: End, log: seq<Frag>, t: TMsg) {
    Sendable(cfg.conv, t.m) && PushOk(t, log) && AckOk(t, cfg.rcvWnd, e.k.rcv, e.n)
  }

  lemma ControlTag(cfg: Cfg, e: End, log: seq<Frag>, cmd: u8, a: Ack, sn: int)
    requires cfg.Ok() && e.k.rcv.nxt == W(e.n) && 0 <= e.n
    requires cmd == CMD_ACK || cmd == CMD_WASK || cmd == CMD_WINS
    requires cmd == CMD_ACK ==> a.sn == W(sn) && Held(cfg.rcvWnd, e.k.rcv, e.n, sn)
    ensures TagOk(cfg, e, log, TMsg(ControlMsg(cfg, e.k.rcv, cmd, a), sn, e.n))
  {
  }

  lemma PushTag(cfg: Cfg, e: End, log: seq<Frag>, snd: Snd, m: Msg)
    requires cfg.Ok() && e.k.rcv.nxt == W(e.n) && 0 <= e.n
    requires snd.una == W(e.u) && snd.una == e.k.snd.una && SndContent(snd, log, e.u) && Short(cfg.Mss(), log)
    requires m in PushMsgs(RoundOf(cfg, e.k), snd.buf)
    ensures m.cmd == CMD_PUSH
    ensures TagOk(cfg, e, log, TMsg(m, e.u + Off(m.sn, e.k.snd.una), e.n))
  {
    PushMsgsOk(RoundOf(cfg, e.k), snd, log, e.u, snd.buf, m);
    hide W, Off, PushMsgs, SndContent;
    assert m.frag == log[e.u + Off(m.sn, snd.una)];
  }

  lemma FlushTagsOk(cfg: Cfg, e: End, log: seq<Frag>)
    requires cfg.Ok() && e.k.rcv.nxt == W(e.n) && 0 <= e.n
    requires AcksHeld(cfg.rcvWnd, e.k.rcv, e.n, e.acks)
    requires var snd := FilledSnd(cfg, e.k);
      snd.una == W(e.u) && snd.una == e.k.snd.una && SndContent(snd, log, e.u)
    requires Short(cfg.Mss(), log)
    ensures forall i :: 0 <= i < |FlushTags(cfg, e)| ==> TagOk(cfg, e, log, FlushTags(cfg, e)[i])
  {
    hide W, Held, PushMsgs, SndContent, Off, FilledSnd, TagOk, ProbeWindow, RoundOf;
    var ms := FlushMsgs(cfg, e.k);
    forall i | 0 <= i < |ms|
      ensures TagOk(cfg, e, log, FlushTags(cfg, e)[i])
    {
      var c := ControlMsgs(cfg, e.k);
      if i < |e.acks| {
        ControlTag(cfg, e, log, CMD_ACK, e.k.rcv.acks[i], e.acks[i]);
      } else if i < |c| {
        ProbeTags(cfg, e, log, c[i]);
      } else {
        var snd := FilledSnd(cfg, e.k);
        assert ms[i] in PushMsgs(RoundOf(cfg, e.k), snd.buf);
        PushTag(cfg, e, log, snd, ms[i]);
      }
    }
  }

  lemma ProbeTags(cfg: Cfg, e: End, log: seq<Frag>, m: Msg)
    requires cfg.Ok() && e.k.rcv.nxt == W(e.n) && 0 <= e.n
    requires m in ProbeMsgs(cfg, e.k.rcv, ProbeWindow(e.k.probe, e.k.cong.rmtWnd, e.k.current))
    ensures m.cmd != CMD_PUSH && TagOk(cfg, e, log, TMsg(m, 0, e.n))
  {
  }

  /** The log after a flush. */
  function FlushLog(cfg: Cfg, e: End): seq<Frag>
    requires cfg.Ok()
  {
    FlushE(cfg, e).log
  }

  /** The sender half of a flush: snd, filled up to f, with resent segments b and the longer log. */
  lemma FlushSndParts(sndWnd: u32, snd: Snd, log: seq<Frag>, u: int, f: Snd, b: seq<Seg>, log': seq<Frag>)
    requires SndInv(sndWnd, snd, log, u) && sndWnd < TWO30
    requires Filled(snd, f) && SndOk(f, sndWnd) && |f.queue| <= |snd.queue|
    requires log' == log + snd.queue[..|snd.queue| - |f.queue|]
    requires |b| == |f.buf| && forall i :: 0 <= i < |b| ==> b[i].sn == f.buf[i].sn && b[i].frag == f.buf[i].frag
    ensures SndInv(sndWnd, f.(buf := b), log', u) && SndContent(f, log', u) && f.una == snd.una
    ensures log' + f.queue == log + snd.queue
    ensures Off(f.nxt, f.una) == |log'| - u
    ensures forall x :: Has(snd.buf, x) ==> Has(b, x)
    ensures forall i :: |log| <= i < |log'| ==> Has(b, W(i))
  {
    hide Has, SndOk, SndContent, Off, W;
    SenderFill(sndWnd, snd, log, u, f);
    hide Filled;
    SameNumbers(sndWnd, f, log', u, b);
  }

  lemma FlushFields(cfg: Cfg, e: End)
    requires cfg.Ok() && e.k.updated && |FilledSnd(cfg, e.k).queue| <= |e.k.snd.queue|
    ensures var s := FlushE(cfg, e); var f := FilledSnd(cfg, e.k);
      && s.k.snd == f.(buf := ResendBuf(RoundOf(cfg, e.k), f.buf))
      && s.log == e.log + e.k.snd.queue[..|e.k.snd.queue| - |f.queue|]
  {
  }

  lemma FlushSnd(cfg: Cfg, e: End)
    requires cfg.Ok() && cfg.sndWnd < TWO30 && e.k.updated
    requires SndInv(cfg.sndWnd, e.k.snd, e.log, e.u) && SndOk(e.k.snd, cfg.sndWnd)
    ensures var s := FlushE(cfg, e); var f := FilledSnd(cfg, e.k);
      && SndInv(cfg.sndWnd, s.k.snd, s.log, e.u)
      && f.una == e.k.snd.una && SndContent(f, s.log, e.u)
      && s.log + s.k.snd.queue == e.log + e.k.snd.queue
      && (|s.log| > |e.log| ==> |s.log| <= e.u + SendWindow(cfg, e.k.cong))
      && e.log <= s.log
      && (forall x :: Has(e.k.snd.buf, x) ==> Has(s.k.snd.buf, x))
      && (forall i :: |e.log| <= i < |s.log| ==> Has(s.k.snd.buf, W(i)))
  {
    var snd, f, s := e.k.snd, FilledSnd(cfg, e.k), FlushE(cfg, e);
    hide Flush, FlushE, RoundOf, FillWindow, Resent, ResendBuf, W, Has, Off, SndInv, SndOk, SndContent, SendWindow,
      WndUnused;
    WindowInOwn(cfg, e.k.cong);
    FillWindowCorrect(snd, SendWindow(cfg, e.k.cong), cfg.sndWnd, WndUnused(cfg, e.k.rcv), e.k.current, e.k.rcv.nxt,
                      e.k.rtt.rto);
    assert |f.queue| <= |snd.queue|;
    hide FilledSnd, Filled;
    FlushFields(cfg, e);
    ResendSame(RoundOf(cfg, e.k), f.buf);
    FlushSndParts(cfg.sndWnd, snd, e.log, e.u, f, s.k.snd.buf, s.log);
  }

  lemma WindowInOwn(cfg: Cfg, c: Cong)
    ensures SendWindow(cfg, c) <= cfg.sndWnd
  {
  }

  lemma ResendSame(r: Round, buf: seq<Seg>)
    ensures var b := ResendBuf(r, buf);
      && |b| == |buf| && forall i :: 0 <= i < |b| ==> b[i].sn == buf[i].sn && b[i].frag == buf[i].frag
  {
  }

  lemma LongerLog(wnd: u32, rcv: Rcv, n: int, acks: seq<int>, log: seq<Frag>, log': seq<Frag>)
    requires RcvInv(wnd, rcv, n, acks, log) && log <= log' && |log'| <= n + 2 * wnd
    ensures RcvInv(wnd, rcv, n, acks, log')
  {
  }

  lemma FilledCovered(snd: Snd, log: seq<Frag>, snd': Snd, log': seq<Frag>, u: int, wnd: u32, rcv: Rcv, n: int)
    requires Covered(snd, log, u, wnd, rcv, n) && log <= log' && u <= |log|
    requires forall x :: Has(snd.buf, x) ==> Has(snd'.buf, x)
    requires forall i :: |log| <= i < |log'| ==> Has(snd'.buf, W(i))
    ensures Covered(snd', log', u, wnd, rcv, n)
  {
  }

  lemma RecvAppLonger(r: End, log: seq<Frag>, log': seq<Frag>)
    requires RecvApp(r, log) && log <= log'
    ensures RecvApp(r, log')
  {
    hide Messages, Unfinished, Bytes;
    assert log'[r.taken..r.n] == log[r.taken..r.n] && log'[..r.taken] == log[..r.taken];
  }

  lemma SrLonger(sr: set<TMsg>, s: End, s': End)
    requires SrOk(s, sr) && s.log <= s'.log
    ensures SrOk(s', sr)
  {
  }

  function Set(ts: seq<TMsg>): set<TMsg> {
    set t | t in ts
  }

  /** A flush numbers new fragments and sends only what the log says; the receiver's window still bounds the log. */
  lemma DirFlushSender(cs: Cfg, s: End, cr: Cfg, r: End, sr: set<TMsg>, rs: set<TMsg>, out: seq<TMsg>)
    requires PairOk(cs, cr) && Dir(cs, s, cr, r, sr, rs) && s.k.updated
    requires forall i :: 0 <= i < |out| ==> PushOk(out[i], FlushLog(cs, s))
    ensures Dir(cs, FlushE(cs, s), cr, r, sr + Set(out), rs)
  {
    var s' := FlushE(cs, s);
    FlushSnd(cs, s);
    assert s'.k.cong.rmtWnd == s.k.cong.rmtWnd;
    UnaBound(s.k.snd, s.log, s.u, cs.sndWnd, cr.rcvWnd, r.k.rcv, r.n);
    assert SendWindow(cs, s.k.cong) <= cr.rcvWnd;
    FilledCovered(s.k.snd, s.log, s'.k.snd, s'.log, s.u, cr.rcvWnd, r.k.rcv, r.n);
    LongerLog(cr.rcvWnd, r.k.rcv, r.n, r.acks, s.log, s'.log);
    RecvAppLonger(r, s.log, s'.log);
    SrLonger(sr, s, s');
    hide Flush, SndInv, RcvInv, Covered, PushOk, RecvApp, W, Off, Has, Held;
  }

  lemma DirFlushReceiver(cs: Cfg, s: End, cr: Cfg, r: End, sr: set<TMsg>, rs: set<TMsg>, out: seq<TMsg>)
    requires PairOk(cs, cr) && Dir(cs, s, cr, r, sr, rs) && r.k.updated
    requires forall i :: 0 <= i < |out| ==> AckOk(out[i], cr.rcvWnd, r.k.rcv, r.n)
    ensures Dir(cs, s, cr, FlushE(cr, r), sr, rs + Set(out))
  {
    hide SndInv, PushOk, Covered, AscR, W, Off, HasR, FilledSnd, AfterFlush, PushMsgs, Messages, Bytes, Unfinished,
      SendApp;
    var r' := FlushE(cr, r);
    assert r'.k.rcv == r.k.rcv.(acks := []) && r'.n == r.n && r'.acks == [];
    assert Covered(s.k.snd, s.log, s.u, cr.rcvWnd, r'.k.rcv, r'.n) by {
      CoveredSameRcv(s.k.snd, s.log, s.u, cr.rcvWnd, r.k.rcv, r'.k.rcv, r.n);
    }
  }

  lemma CoveredSameRcv(snd: Snd, log: seq<Frag>, u: int, wnd: u32, rcv: Rcv, rcv': Rcv, n: int)
    requires Covered(snd, log, u, wnd, rcv, n) && rcv'.buf == rcv.buf
    ensures Covered(snd, log, u, wnd, rcv', n)
  {
    hide Has, HasR;
    assert forall i :: Held(wnd, rcv, n, i) <==> Held(wnd, rcv', n, i);
    hide Held;
  }
}
