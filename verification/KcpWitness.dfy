// Calls after which the code falls short of what one expects, for the conditions of KcpProgress and KcpTiming.
module KcpWitness {
  import opened Word
  import opened Wire
  import opened KcpSpec
  import opened KcpTiming
  import opened KcpAlone

  lemma Next(cfg: Cfg, calls: seq<Call>, c: Call)
    requires cfg.Ok()
    ensures After(cfg, calls + [c]) == Do(cfg, After(cfg, calls), c)
  {
    assert (calls + [c])[..|calls|] == calls;
  }

  function NoData(): Frag {
    Frag(0, [])
  }

  /** A datagram with one message without data. */
  function Hears(conv: u32, cmd: u8, ts: u32, sn: u32, una: u32): Call {
    Arriving(EncodeMsg(Msg(conv, cmd, 128, ts, sn, una, NoData())))
  }

  lemma Heard(cfg: Cfg, k: Pcb, cmd: u8, ts: u32, sn: u32, una: u32)
    requires cfg.Ok() && CMD_PUSH <= cmd <= CMD_WINS
    ensures var m := Msg(cfg.conv, cmd, 128, ts, sn, una, NoData());
      Do(cfg, k, Hears(cfg.conv, cmd, ts, sn, una)) == InputEnd(cfg, InputMsg(cfg, k, m), k.snd.una, NoteAck(NoAck, m))
  {
    hide InputMsg, InputEnd, NoteAck;
    var m := Msg(cfg.conv, cmd, 128, ts, sn, una, NoData());
    assert EncodeMsg(m) + [] == EncodeMsg(m);
    ParseOne(cfg.conv, m, []);
    assert InputMsgs(cfg, k, [m]) == InputMsgs(cfg, InputMsg(cfg, k, m), []);
    assert LatestAck(NoAck, [m]) == LatestAck(NoteAck(NoAck, m), []);
  }

  /** Configurations that differ from the default in their mtu, receive window and fast retransmission at most. */
  predicate Plain(cfg: Cfg) {
    && cfg.Ok() && cfg.Mss() <= 65535
    && cfg == DefaultCfg(cfg.conv).(mtu := cfg.mtu, rcvWnd := cfg.rcvWnd, fastresend := cfg.fastresend)
  }

  /** After the first update, which opens the window of one segment. */
  function Ready(cfg: Cfg): Pcb
    requires Plain(cfg)
  {
    Create().(cong := Cong(1, cfg.Mss(), 2, 128), tsFlush := 100, updated := true)
  }

  lemma IsReady(cfg: Cfg)
    requires Plain(cfg)
    ensures After(cfg, [Updating(0)]) == Ready(cfg)
  {
    Next(cfg, [], Updating(0));
    assert [] + [Updating(0)] == [Updating(0)];
    NothingToFill(cfg, Tick(cfg, Create(), 0));
  }

  lemma NothingToFill(cfg: Cfg, k: Pcb)
    requires k.snd.queue == []
    ensures FilledSnd(cfg, k) == k.snd
  {
  }

  // ---------- the advertised window ----------

  /** A receive window of 65536 segments. */
  function WideCfg(conv: u32): Cfg {
    WndSize(DefaultCfg(conv), 32, 65536)
  }

  /** A segment arrives and is read. */
  function WideCalls(conv: u32): seq<Call> {
    [Updating(0)] + [Hears(conv, CMD_PUSH, 0, 0, 0)] + [Receiving(0)]
  }

  /** Then the whole window is free, and the acknowledgement says that nothing is. */
  lemma WindowWraps(conv: u32)
    ensures var cfg, k := WideCfg(conv), After(WideCfg(conv), WideCalls(conv));
      && WndUnused(cfg, k.rcv) == 65536
      && FlushMsgs(cfg, k) == [Msg(conv, CMD_ACK, 0, 0, 0, 1, NoData())]
  {
    hide Do, ControlMsgs, InputMsg, InputEnd;
    var cfg := WideCfg(conv);
    IsReady(cfg);
    Next(cfg, [Updating(0)], Hears(conv, CMD_PUSH, 0, 0, 0));
    Next(cfg, [Updating(0)] + [Hears(conv, CMD_PUSH, 0, 0, 0)], Receiving(0));
    Heard(cfg, Ready(cfg), CMD_PUSH, 0, 0, 0);
    TakesPush(cfg, Ready(cfg));
    ReadsIt(cfg);
  }

  lemma ReadsIt(cfg: Cfg)
    requires Plain(cfg) && cfg.rcvWnd == 65536
    ensures var k := Do(cfg, Ready(cfg).(rcv := Rcv(1, [NoData()], [], [Ack(0, 0)])), Receiving(0));
      && WndUnused(cfg, k.rcv) == 65536
      && FlushMsgs(cfg, k) == [Msg(cfg.conv, CMD_ACK, 0, 0, 0, 1, NoData())]
  {
    var k := Ready(cfg).(rcv := Rcv(1, [], [], [Ack(0, 0)]));
    assert Do(cfg, Ready(cfg).(rcv := Rcv(1, [NoData()], [], [Ack(0, 0)])), Receiving(0)) == k;
    NothingToFill(cfg, k);
    assert PushMsgs(RoundOf(cfg, k), []) == [];
    assert ControlMsgs(cfg, k) == [Msg(cfg.conv, CMD_ACK, 0, 0, 0, 1, NoData())];
  }

  lemma TakesPush(cfg: Cfg, k: Pcb)
    requires Plain(cfg) && k == Ready(cfg)
    ensures var m := Msg(cfg.conv, CMD_PUSH, 128, 0, 0, 0, NoData());
      InputEnd(cfg, InputMsg(cfg, k, m), k.snd.una, NoteAck(NoAck, m)) == k.(rcv := Rcv(1, [NoData()], [], [Ack(0, 0)]))
  {
    var m := Msg(cfg.conv, CMD_PUSH, 128, 0, 0, 0, NoData());
    var r0 := Rcv(0, [], [RSeg(0, NoData())], [Ack(0, 0)]);
    var r1 := Rcv(1, [NoData()], [], [Ack(0, 0)]);
    assert Drain(r1, cfg.rcvWnd) == r1;
    assert Drain(r0, cfg.rcvWnd) == r1;
    assert [] + [Ack(0, 0)] == [Ack(0, 0)];
    assert Insert([], RSeg(0, NoData())) == [RSeg(0, NoData())];
    assert ParseData(Rcv(0, [], [], [Ack(0, 0)]), RSeg(0, NoData()), cfg.rcvWnd) == r1;
    assert InputRcv(k.rcv, m, cfg.rcvWnd) == r1;
    assert InputSnd(k.snd, m) == k.snd;
  }

  // ---------- the first segment ----------

  /** A segment sent once, at a time when the timeout was rto. */
  function Once(sn: u32, now: u32, rto: u32): Seg
    requires now + rto + rto / 8 < TWO32
  {
    Seg(sn, NoData(), 128, now, 0, now + rto + rto / 8, rto, 0, 1)
  }

  /** A segment is sent and flushed at time 100. */
  function Opening(): seq<Call> {
    [Updating(0)] + [Sending([])] + [Updating(100)]
  }

  function Opened(cfg: Cfg): Pcb
    requires Plain(cfg)
  {
    Ready(cfg).(snd := Snd(0, 1, [], [Once(0, 100, 200)]), current := 100, tsFlush := 200)
  }

  lemma SendOne(cfg: Cfg, k: Pcb)
    requires Plain(cfg)
    ensures Do(cfg, k, Sending([])) == k.(snd := k.snd.(queue := k.snd.queue + [NoData()]))
  {
    assert Fragments(cfg.Mss(), false, [], 1) == [NoData()];
  }

  lemma IsOpened(cfg: Cfg)
    requires Plain(cfg) && cfg.rcvWnd == 128
    ensures After(cfg, Opening()) == Opened(cfg)
  {
    IsReady(cfg);
    Next(cfg, [Updating(0)], Sending([]));
    Next(cfg, [Updating(0)] + [Sending([])], Updating(100));
    SendOne(cfg, Ready(cfg));
    var k := Ready(cfg).(snd := Snd(0, 0, [NoData()], []));
    assert [] + [NoData()] == [NoData()];
    FlushesOne(cfg, Tick(cfg, k, 100), 0);
    assert Update(cfg, k, 100) == Flush(cfg, Tick(cfg, k, 100));
  }

  /** A flush that numbers and sends the one fragment queued. */
  lemma FlushesOne(cfg: Cfg, k: Pcb, sn: u32)
    requires Plain(cfg) && cfg.rcvWnd == 128 && k.updated && k.rcv == Rcv(0, [], [], []) && sn < 100
    requires k.snd == Snd(sn, sn, [NoData()], []) && k.cong.cwnd >= 1 && k.cong.rmtWnd == 128
    requires k.probe == Probe(false, false, 0, 0) && k.current + k.rtt.rto + k.rtt.rto / 8 < TWO32
    ensures Flush(cfg, k) == k.(snd := Snd(sn, sn + 1, [], [Once(sn, k.current, k.rtt.rto)]))
  {
    var r, s := RoundOf(cfg, k), Seg(sn, NoData(), 128, k.current, 0, k.current, k.rtt.rto, 0, 0);
    var f := Snd(sn, sn + 1, [], [s]);
    var w := SendWindow(cfg, k.cong);
    assert FillOne(k.snd, 128, k.current, 0, k.rtt.rto) == f;
    assert FillWindow(f, w, 128, k.current, 0, k.rtt.rto) == f;
    assert FillWindow(k.snd, w, 128, k.current, 0, k.rtt.rto) == f;
    assert FilledSnd(cfg, k) == f;
    assert ResendBuf(r, [s]) == [Once(sn, k.current, k.rtt.rto)];
    assert Due(r, s) == First && !Lost(r, f.buf) && !Changed(r, f.buf);
    assert Timeouts(r, [s]) == 0;
  }

  // ---------- fast retransmission ----------

  /** The largest segments, and retransmission after 65536 skips. */
  function FastCfg(conv: u32): Cfg {
    NoDelay(SetMtu(DefaultCfg(conv), 65535 + OVERHEAD).0, -1, -1, 65536, -1)
  }

  /** The first segment is acknowledged, and two more are sent and flushed at time 200. */
  function TwoSent(conv: u32): seq<Call> {
    Opening() + [Hears(conv, CMD_ACK, 100, 0, 1)] + [Sending([])] + [Sending([])] + [Updating(200)]
  }

  /** Then the second of them is acknowledged n times. */
  function Skipping(conv: u32, n: nat): seq<Call> {
    if n == 0 then TwoSent(conv) else Skipping(conv, n - 1) + [Hears(conv, CMD_ACK, 200, 2, 1)]
  }

  /** The first segment acknowledged; the congestion window is two. */
  function Acked(cfg: Cfg): Pcb
    requires Plain(cfg)
  {
    Opened(cfg).(snd := Snd(1, 1, [], []), cong := Cong(2, 2 * cfg.Mss(), 2, 128), rtt := Rtt(0, 0, 100))
  }

  function Two(cfg: Cfg): Pcb
    requires Plain(cfg)
  {
    Acked(cfg).(snd := Snd(1, 3, [], [Once(1, 200, 100), Once(2, 200, 100)]), current := 200, tsFlush := 300)
  }

  lemma IsAcked(cfg: Cfg)
    requires Plain(cfg) && cfg.rcvWnd == 128
    ensures After(cfg, Opening() + [Hears(cfg.conv, CMD_ACK, 100, 0, 1)]) == Acked(cfg)
  {
    hide Do, InputMsg, InputEnd;
    IsOpened(cfg);
    Next(cfg, Opening(), Hears(cfg.conv, CMD_ACK, 100, 0, 1));
    Heard(cfg, Opened(cfg), CMD_ACK, 100, 0, 1);
    AckTaken(cfg);
  }

  lemma AckTaken(cfg: Cfg)
    requires Plain(cfg)
    ensures var m := Msg(cfg.conv, CMD_ACK, 128, 100, 0, 1, NoData());
      InputEnd(cfg, InputMsg(cfg, Opened(cfg), m), 0, MaxAck(0)) == Acked(cfg)
  {
    var m, k := Msg(cfg.conv, CMD_ACK, 128, 100, 0, 1, NoData()), Opened(cfg);
    assert ParseUna(k.snd.buf, 1) == [];
    assert InputSnd(k.snd, m) == Snd(1, 1, [], []);
    assert UpdateAck(cfg, k.rtt, 0) == Rtt(0, 0, 100);
  }

  lemma IsTwo(cfg: Cfg)
    requires Plain(cfg) && cfg.rcvWnd == 128
    ensures After(cfg, TwoSent(cfg.conv)) == Two(cfg)
  {
    hide Do;
    var calls, k := Opening() + [Hears(cfg.conv, CMD_ACK, 100, 0, 1)], Acked(cfg);
    IsAcked(cfg);
    assert [] + [NoData()] == [NoData()] && [NoData()] + [NoData()] == [NoData(), NoData()];
    Next(cfg, calls, Sending([]));
    Next(cfg, calls + [Sending([])], Sending([]));
    Next(cfg, calls + [Sending([])] + [Sending([])], Updating(200));
    SendOne(cfg, k);
    SendOne(cfg, k.(snd := Snd(1, 1, [NoData()], [])));
    FlushesTwo(cfg);
  }

  lemma FlushesTwo(cfg: Cfg)
    requires Plain(cfg) && cfg.rcvWnd == 128
    ensures Do(cfg, Acked(cfg).(snd := Snd(1, 1, [NoData(), NoData()], [])), Updating(200)) == Two(cfg)
  {
    var k0 := Acked(cfg).(snd := Snd(1, 1, [NoData(), NoData()], []));
    var k := Tick(cfg, k0, 200);
    var s1, s2 := Seg(1, NoData(), 128, 200, 0, 200, 100, 0, 0), Seg(2, NoData(), 128, 200, 0, 200, 100, 0, 0);
    var f1, f2 := Snd(1, 2, [NoData()], [s1]), Snd(1, 3, [], [s1, s2]);
    assert FillWindow(f2, 2, 128, 200, 0, 100) == f2;
    assert FillWindow(f1, 2, 128, 200, 0, 100) == f2;
    assert FillWindow(k.snd, 2, 128, 200, 0, 100) == f2;
    assert FilledSnd(cfg, k) == f2;
    var r := RoundOf(cfg, k);
    assert ResendBuf(r, f2.buf) == [Once(1, 200, 100), Once(2, 200, 100)];
    assert !Lost(r, f2.buf) && !Changed(r, f2.buf);
    assert Timeouts(r, [s2]) == 0;
    assert Timeouts(r, f2.buf) == 0;
  }

  /** The third segment is gone, and the second has been skipped n times. */
  predicate IsSkipped(cfg: Cfg, k: Pcb, n: u32)
    requires Plain(cfg)
  {
    k == Two(cfg).(snd := Snd(1, 3, [], [Once(1, 200, 100).(fastack := n)]), rtt := k.rtt)
  }

  lemma SkipFirst(cfg: Cfg)
    requires Plain(cfg)
    ensures IsSkipped(cfg, Do(cfg, Two(cfg), Hears(cfg.conv, CMD_ACK, 200, 2, 1)), 1)
  {
    var k, m, s := Two(cfg), Msg(cfg.conv, CMD_ACK, 128, 200, 2, 1, NoData()), Once(1, 200, 100);
    Heard(cfg, k, CMD_ACK, 200, 2, 1);
    hide Do, UpdateAck;
    assert Without([Once(2, 200, 100)], 2) == [];
    assert Without(k.snd.buf, 2) == [s];
    assert InputSnd(k.snd, m) == Snd(1, 3, [], [s]);
    assert BumpFastack([s], 2) == [s.(fastack := 1)];
  }

  lemma SkipAgain(cfg: Cfg, k: Pcb, n: u32)
    requires Plain(cfg) && IsSkipped(cfg, k, n) && n < TWO32 - 1
    ensures IsSkipped(cfg, Do(cfg, k, Hears(cfg.conv, CMD_ACK, 200, 2, 1)), n + 1)
  {
    hide Do, UpdateAck, InputSnd, ParseFastack;
    Heard(cfg, k, CMD_ACK, 200, 2, 1);
    SkipOne(cfg.conv, Once(1, 200, 100).(fastack := n));
  }

  lemma SkipOne(conv: u32, s: Seg)
    requires s.sn == 1 && s.fastack < TWO32 - 1
    ensures InputSnd(Snd(1, 3, [], [s]), Msg(conv, CMD_ACK, 128, 200, 2, 1, NoData())) == Snd(1, 3, [], [s])
    ensures ParseFastack(Snd(1, 3, [], [s]), 2) == Snd(1, 3, [], [s.(fastack := s.fastack + 1)])
  {
    assert Without([], 2) == [];
    assert Without([s], 2) == [s];
    assert BumpFastack([], 2) == [];
    assert BumpFastack([s], 2) == [s.(fastack := s.fastack + 1)];
  }

  lemma {:induction false} Skips(cfg: Cfg, n: nat)
    requires Plain(cfg) && cfg.rcvWnd == 128 && 1 <= n < TWO32
    ensures IsSkipped(cfg, After(cfg, Skipping(cfg.conv, n)), n)
  {
    hide Do, TwoSent, IsSkipped;
    Next(cfg, Skipping(cfg.conv, n - 1), Hears(cfg.conv, CMD_ACK, 200, 2, 1));
    if n == 1 {
      IsTwo(cfg);
      SkipFirst(cfg);
    } else {
      Skips(cfg, n - 1);
      SkipAgain(cfg, After(cfg, Skipping(cfg.conv, n - 1)), n - 1);
    }
  }

  /** Window and byte counter are in step before the flush that retransmits, and not after it. */
  lemma FastWraps(conv: u32)
    ensures var cfg, k := FastCfg(conv), After(FastCfg(conv), Skipping(conv, 65536));
      && cfg.Mss() == 65535 && CongOk(65535, k.cong)
      && !FastFits(cfg, k) && !CongOk(65535, Flush(cfg, k).cong)
  {
    hide Skipping, After;
    var cfg := FastCfg(conv);
    Skips(cfg, 65536);
    SkippedWraps(cfg, After(cfg, Skipping(conv, 65536)));
  }

  lemma SkippedWraps(cfg: Cfg, k: Pcb)
    requires Plain(cfg) && cfg.Mss() == 65535 && cfg.fastresend == 65536 && IsSkipped(cfg, k, 65536)
    ensures CongOk(65535, k.cong) && !FastFits(cfg, k) && !CongOk(65535, Flush(cfg, k).cong)
  {
    NothingToFill(cfg, k);
    FlushCong(cfg, k);
    hide Flush, FilledSnd;
    var r := RoundOf(cfg, k);
    assert Due(r, k.snd.buf[0]) == Fast;
    assert Changed(r, k.snd.buf) && !Lost(r, k.snd.buf);
  }

  // ---------- timeouts ----------

  /** The timeout of a segment that has timed out j times. */
  function Rto(j: nat): nat {
    if j == 0 then 60000 else 2 * Rto(j - 1)
  }

  /** When it was sent, and the time of its j-th timeout. */
  function At(j: nat): nat {
    if j == 0 then 60200 else Rto(j) + 7700
  }

  /**
   * The first segment times out a minute after it was sent; then its acknowledgement arrives. A second
   * segment is sent, and times out j times.
   */
  function Aging(conv: u32, j: nat): seq<Call> {
    if j == 0
    then Opening() + [Updating(60100)] + [Hears(conv, CMD_ACK, 100, 0, 1)] + [Sending([])] + [Updating(60200)]
    else Aging(conv, j - 1) + [Updating(W(At(j)))]
  }

  /** The second segment when it has timed out j times, the last time just now. */
  predicate IsAged(k: Pcb, j: nat) {
    && k.updated && k.state == 0 && k.rcv == Rcv(0, [], [], []) && k.rtt.rto == 60000
    && k.current == At(j) && k.tsFlush == At(j) + 100
    && k.snd.queue == [] && |k.snd.buf| == 1
    && var s := k.snd.buf[0];
       s.xmit == j + 1 && s.rto == Rto(j) && s.resendts == W(At(j + 1)) && s.ts == k.current
  }

  lemma {:induction false} RtoGrows(i: nat, j: nat)
    requires i <= j
    ensures 60000 <= Rto(i) <= Rto(j)
  {
    if j > 0 {
      RtoGrows(if i < j then i else i - 1, j - 1);
    }
  }

  /** The first segment has timed out once. */
  function Late(cfg: Cfg): Pcb
    requires Plain(cfg)
  {
    Opened(cfg).(snd := Snd(0, 1, [], [Seg(0, NoData(), 128, 60100, 0, 60500, 400, 0, 2)]),
                 current := 60100, tsFlush := 60200, xmit := 1)
  }

  /** Its acknowledgement has arrived, a minute late. */
  function Slow(cfg: Cfg): Pcb
    requires Plain(cfg)
  {
    Late(cfg).(snd := Snd(1, 1, [], []), cong := Cong(2, 2 * cfg.Mss(), 2, 128), rtt := Rtt(60000, 30000, 60000))
  }

  lemma IsLate(cfg: Cfg)
    requires Plain(cfg) && cfg.rcvWnd == 128
    ensures Do(cfg, Opened(cfg), Updating(60100)) == Late(cfg)
  {
    var k := Tick(cfg, Opened(cfg), 60100);
    NothingToFill(cfg, k);
    var r, b := RoundOf(cfg, k), k.snd.buf;
    assert ResendBuf(r, b) == Late(cfg).snd.buf;
    assert Due(r, b[0]) == Timeout;
    assert Lost(r, b) && !Changed(r, b);
    assert Timeouts(r, b) == 1;
  }

  lemma IsSlow(cfg: Cfg)
    requires Plain(cfg)
    ensures Do(cfg, Late(cfg), Hears(cfg.conv, CMD_ACK, 100, 0, 1)) == Slow(cfg)
  {
    var m, k := Msg(cfg.conv, CMD_ACK, 128, 100, 0, 1, NoData()), Late(cfg);
    Heard(cfg, k, CMD_ACK, 100, 0, 1);
    hide Do, UpdateAck;
    assert ParseUna(k.snd.buf, 1) == [];
    assert InputSnd(k.snd, m) == Snd(1, 1, [], []);
    SlowSample(cfg);
    assert TimeDiff(k.current, 100) == 60000;
  }

  lemma SlowSample(cfg: Cfg)
    requires Plain(cfg)
    ensures UpdateAck(cfg, Rtt(0, 0, 200), 60000) == Rtt(60000, 30000, 60000)
  {
    assert W(120000) == 120000;
    assert W(180000) == 180000;
  }

  lemma IsFresh(cfg: Cfg)
    requires Plain(cfg) && cfg.rcvWnd == 128
    ensures IsAged(Do(cfg, Slow(cfg).(snd := Snd(1, 1, [NoData()], [])), Updating(60200)), 0)
  {
    var k := Slow(cfg).(snd := Snd(1, 1, [NoData()], []));
    FlushesOne(cfg, Tick(cfg, k, 60200), 1);
    assert Update(cfg, k, 60200) == Flush(cfg, Tick(cfg, k, 60200));
  }

  lemma AgeFirst(cfg: Cfg)
    requires Plain(cfg) && cfg.rcvWnd == 128
    ensures IsAged(After(cfg, Aging(cfg.conv, 0)), 0)
  {
    hide Do, IsAged;
    var calls := Opening();
    var ack := Hears(cfg.conv, CMD_ACK, 100, 0, 1);
    IsOpened(cfg);
    Next(cfg, calls, Updating(60100));
    Next(cfg, calls + [Updating(60100)], ack);
    Next(cfg, calls + [Updating(60100)] + [ack], Sending([]));
    Next(cfg, calls + [Updating(60100)] + [ack] + [Sending([])], Updating(60200));
    IsLate(cfg);
    IsSlow(cfg);
    SendOne(cfg, Slow(cfg));
    assert [] + [NoData()] == [NoData()];
    IsFresh(cfg);
  }

  lemma AgeNext(cfg: Cfg, k: Pcb, j: nat)
    requires Plain(cfg) && j < 16 && IsAged(k, j)
    ensures IsAged(Do(cfg, k, Updating(W(At(j + 1)))), j + 1)
  {
    var now := At(j + 1);
    RtoGrows(j, 15);
    RtoAt15();
    assert Rto(j + 2) == 2 * Rto(j + 1);
    NoWrap(now);
    NextTime(now, Rto(j + 1));
    hide W, Rto;
    TimesOut(cfg, k, j, now, Rto(j), Rto(j + 1));
  }

  lemma TimesOut(cfg: Cfg, k: Pcb, j: nat, now: u32, rto: u32, rto': u32)
    requires Plain(cfg) && IsAged(k, j) && now == At(j + 1) && j < 16 && rto == Rto(j) && 60000 <= rto
    requires rto' == 2 * rto
    requires W(now) == now && Add(now, rto') == W(At(j + 2)) && 10000 <= now - k.tsFlush < TWO31 && now + 100 < TWO32
    requires rto' == Rto(j + 1)
    ensures IsAged(Do(cfg, k, Updating(now)), j + 1)
  {
    hide W, Rto;
    var t := Tick(cfg, k, now);
    NothingToFill(cfg, t);
    var r, s := RoundOf(cfg, t), k.snd.buf[0];
    assert Due(r, s) == Timeout;
    assert Backoff(r, s.rto) == rto';
    assert ResendBuf(r, [s]) == [Resent(r, s)];
    assert FlushDue(k, now) && Update(cfg, k, now) == Flush(cfg, t);
  }

  lemma RtoAt15()
    ensures Rto(15) == 1966080000
  {
    assert Rto(5) == 1920000;
    assert Rto(10) == 61440000;
  }

  lemma NextTime(a: u32, b: u32)
    ensures Add(a, b) == W(a + b)
  {
  }

  lemma {:induction false} Ages(cfg: Cfg, j: nat)
    requires Plain(cfg) && cfg.rcvWnd == 128 && j <= 16
    ensures IsAged(After(cfg, Aging(cfg.conv, j)), j)
  {
    hide Do, IsAged;
    if j == 0 {
      AgeFirst(cfg);
    } else {
      Ages(cfg, j - 1);
      Next(cfg, Aging(cfg.conv, j - 1), Updating(W(At(j))));
      AgeNext(cfg, After(cfg, Aging(cfg.conv, j - 1)), j - 1);
    }
  }

  /** The timeout set last lies behind the clock: the segment just sent is overdue at once, on a link not yet dead. */
  lemma TimeoutWraps(conv: u32)
    ensures var k := After(DefaultCfg(conv), Aging(conv, 16));
      && RtoOk(k) && k.state == 0 && |k.snd.buf| == 1
      && var s := k.snd.buf[0]; s.xmit == 17 && s.ts == k.current && TimeDiff(k.current, s.resendts) >= 0
  {
    hide Aging, After;
    Ages(DefaultCfg(conv), 16);
    RtoAt15();
    assert Rto(16) == 2 * Rto(15) && Rto(17) == 2 * Rto(16);
  }
}
