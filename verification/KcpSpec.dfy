// One KCP endpoint as a value: its control block and, for every operation of
// 3rd/kcp/ikcp.c, the control block and results that the operation leaves.
module KcpSpec {
  import opened Word
  import opened Wire

  const RTO_NDL: u32 := 30
  const RTO_MIN: u32 := 100
  const RTO_DEF: u32 := 200
  const RTO_MAX: u32 := 60000
  const WND_SND: u32 := 32
  const WND_RCV: u32 := 128
  const MTU_DEF: u32 := 1400
  const INTERVAL: u32 := 100
  const DEADLINK: u32 := 20
  const THRESH_INIT: u32 := 2
  const THRESH_MIN: u32 := 2
  const PROBE_INIT: u32 := 7000
  const PROBE_LIMIT: u32 := 120000
  const FASTACK_LIMIT: int := 5

  // ---------- configuration ----------

  datatype Cfg = Cfg(conv: u32, mtu: u32, stream: bool, sndWnd: u32, rcvWnd: u32, nodelay: u32,
                     interval: u32, minrto: u32, fastresend: int, fastlimit: int, nocwnd: bool, deadLink: u32)
  {
    function Mss(): int {
      mtu - OVERHEAD
    }

    /** What the setters leave in a configuration. */
    predicate Ok() {
      && 50 <= mtu < TWO31
      && 0 < sndWnd < TWO31 && WND_RCV <= rcvWnd < TWO31
      && 10 <= interval <= 5000
      && (minrto == RTO_NDL || minrto == RTO_MIN)
      && 0 <= fastresend < TWO31
    }
  }

  function DefaultCfg(conv: u32): (c: Cfg)
    ensures c.Ok() && c.conv == conv && c.mtu == 1400 && !c.stream && c.sndWnd == 32 && c.rcvWnd == 128
    ensures c.nodelay == 0 && c.interval == 100 && c.minrto == 100 && c.fastresend == 0 && c.fastlimit == 5
    ensures !c.nocwnd && c.deadLink == 20
  {
    Cfg(conv, MTU_DEF, false, WND_SND, WND_RCV, 0, INTERVAL, RTO_MIN, 0, FASTACK_LIMIT, false, DEADLINK)
  }

  function SetMtu(c: Cfg, mtu: int): (r: (Cfg, int))
    requires c.Ok() && -TWO31 <= mtu < TWO31
    ensures r.0.Ok() && (r.1 == 0 <==> 50 <= mtu) && (r.1 == 0 ==> r.0.mtu == mtu)
  {
    if mtu < 50 || mtu < OVERHEAD then (c, -1) else (c.(mtu := mtu), 0)
  }

  /** The admissible interval nearest to the one asked for. */
  function ClampInterval(interval: int): (r: u32)
    ensures 10 <= r <= 5000
    ensures r == interval || interval < r == 10 || interval > r == 5000
  {
    if interval > 5000 then 5000 else if interval < 10 then 10 else interval
  }

  function NoDelay(c: Cfg, nodelay: int, interval: int, resend: int, nc: int): (r: Cfg)
    requires c.Ok() && nodelay < TWO31 && resend < TWO31
    ensures r.Ok()
    ensures r == c.(nodelay := r.nodelay, minrto := r.minrto, interval := r.interval, fastresend := r.fastresend,
                      nocwnd := r.nocwnd)
    ensures if nodelay < 0 then r.nodelay == c.nodelay && r.minrto == c.minrto
            else r.nodelay == nodelay && r.minrto == if nodelay != 0 then 30 else 100
    ensures r.interval == if interval < 0 then c.interval else ClampInterval(interval)
    ensures r.fastresend == if resend < 0 then c.fastresend else resend
    ensures if nc < 0 then r.nocwnd == c.nocwnd else r.nocwnd <==> nc != 0
  {
    var c1 := if nodelay >= 0
              then c.(nodelay := nodelay, minrto := if nodelay != 0 then RTO_NDL else RTO_MIN) else c;
    var c2 := if interval >= 0 then c1.(interval := ClampInterval(interval)) else c1;
    var c3 := if resend >= 0 then c2.(fastresend := resend) else c2;
    if nc >= 0 then c3.(nocwnd := nc != 0) else c3
  }

  function WndSize(c: Cfg, sndwnd: int, rcvwnd: int): (r: Cfg)
    requires c.Ok() && sndwnd < TWO31 && rcvwnd < TWO31
    ensures r.Ok() && r == c.(sndWnd := r.sndWnd, rcvWnd := r.rcvWnd)
    ensures r.sndWnd == if sndwnd > 0 then sndwnd else c.sndWnd
    ensures if rcvwnd <= 0 then r.rcvWnd == c.rcvWnd
            else r.rcvWnd >= rcvwnd && (r.rcvWnd == rcvwnd || rcvwnd < r.rcvWnd == 128)
  {
    var c1 := if sndwnd > 0 then c.(sndWnd := sndwnd) else c;
    if rcvwnd > 0 then c1.(rcvWnd := Max(rcvwnd, WND_RCV)) else c1
  }

  // ---------- the control block ----------

  /** A numbered segment waiting in snd_buf for its acknowledgement. */
  datatype Seg = Seg(sn: u32, frag: Frag, wnd: u32, ts: u32, una: u32,
                     resendts: u32, rto: u32, fastack: u32, xmit: u32)

  /** A received segment waiting in rcv_buf for its turn. */
  datatype RSeg = RSeg(sn: u32, frag: Frag)

  datatype Ack = Ack(sn: u32, ts: u32)

  datatype Snd = Snd(una: u32, nxt: u32, queue: seq<Frag>, buf: seq<Seg>)
  datatype Rcv = Rcv(nxt: u32, queue: seq<Frag>, buf: seq<RSeg>, acks: seq<Ack>)
  datatype Cong = Cong(cwnd: u32, incr: u32, ssthresh: u32, rmtWnd: u32)
  datatype Rtt = Rtt(srtt: int, rttval: int, rto: u32)
  datatype Probe = Probe(askSend: bool, askTell: bool, ts: u32, wait: u32)

  datatype Pcb = Pcb(snd: Snd, rcv: Rcv, cong: Cong, rtt: Rtt, probe: Probe,
                     current: u32, tsFlush: u32, updated: bool, xmit: u32, state: u32)

  function Create(): (k: Pcb)
    ensures k.rtt.rto == 200 && k.cong.ssthresh == 2 && k.cong.rmtWnd == 128 && k.tsFlush == 100
  {
    Pcb(Snd(0, 0, [], []), Rcv(0, [], [], []), Cong(0, 0, THRESH_INIT, WND_RCV),
        Rtt(0, 0, RTO_DEF), Probe(false, false, 0, 0), 0, INTERVAL, false, 0, 0)
  }

  // ---------- ikcp_send ----------

  /** Fragments of buf, count of them, each of at most mss bytes; frg counts down in message mode. */
  function Fragments(mss: int, stream: bool, buf: seq<u8>, count: nat): seq<Frag>
    requires mss > 0 && count <= 256
  {
    if count == 0 then []
    else
      var size := Min(mss, |buf|);
      [Frag(if stream then 0 else count - 1, buf[..size])] + Fragments(mss, stream, buf[size..], count - 1)
  }

  function FragCount(mss: int, len: nat): nat
    requires mss > 0
  {
    if len <= mss then 1 else (len + mss - 1) / mss
  }

  /** How many bytes of buf stream mode adds to the last queued fragment. */
  function TopUp(cfg: Cfg, queue: seq<Frag>, buf: seq<u8>): nat {
    if cfg.stream && queue != [] && |queue[|queue| - 1].data| < cfg.Mss()
    then Min(cfg.Mss() - |queue[|queue| - 1].data|, |buf|) else 0
  }

  function TopUpQueue(cfg: Cfg, queue: seq<Frag>, buf: seq<u8>): seq<Frag> {
    if cfg.stream && queue != [] && |queue[|queue| - 1].data| < cfg.Mss()
    then queue[..|queue| - 1] + [Frag(0, queue[|queue| - 1].data + buf[..TopUp(cfg, queue, buf)])]
    else queue
  }

  datatype Sent = Sent(code: int, queue: seq<Frag>)

  function SendQueue(cfg: Cfg, queue: seq<Frag>, buf: seq<u8>): Sent
    requires cfg.Ok()
  {
    var q := TopUpQueue(cfg, queue, buf);
    var rest := buf[TopUp(cfg, queue, buf)..];
    if cfg.stream && rest == [] then Sent(0, q) else
    var count := FragCount(cfg.Mss(), |rest|);
    if count >= WND_RCV then Sent(-2, q)
    else Sent(0, q + Fragments(cfg.Mss(), cfg.stream, rest, count))
  }

  // ---------- ikcp_peeksize, ikcp_recv ----------

  /** The fragments at the front of the queue up to the first one with no follower. */
  function FirstMessage(queue: seq<Frag>): (n: nat)
    ensures n <= |queue|
    ensures queue != [] ==> n > 0
  {
    if queue == [] then 0
    else if queue[0].frg == 0 then 1
    else 1 + FirstMessage(queue[1..])
  }

  function Bytes(frags: seq<Frag>): seq<u8> {
    if frags == [] then [] else frags[0].data + Bytes(frags[1..])
  }

  function PeekSize(queue: seq<Frag>): int {
    if queue == [] then -1
    else if queue[0].frg == 0 then |queue[0].data|
    else if |queue| < queue[0].frg + 1 then -1
    else |Bytes(queue[..FirstMessage(queue)])|
  }

  function Drain(rcv: Rcv, wnd: u32): Rcv
    decreases |rcv.buf|
  {
    if rcv.buf != [] && rcv.buf[0].sn == rcv.nxt && |rcv.queue| < wnd
    then Drain(Rcv(Add(rcv.nxt, 1), rcv.queue + [rcv.buf[0].frag], rcv.buf[1..], rcv.acks), wnd)
    else rcv
  }

  datatype Received = Received(k: Pcb, code: int, data: seq<u8>)

  function Recv(cfg: Cfg, k: Pcb, len: int): Received {
    var q := k.rcv.queue;
    var peek := PeekSize(q);
    if q == [] then Received(k, -1, [])
    else if peek < 0 then Received(k, -2, [])
    else if peek > (if len < 0 then -len else len) then Received(k, -3, [])
    else
      var n := FirstMessage(q);
      var rcv := Drain(if len < 0 then k.rcv else k.rcv.(queue := q[n..]), cfg.rcvWnd);
      var tell := |q| >= cfg.rcvWnd && |rcv.queue| < cfg.rcvWnd;
      Received(k.(rcv := rcv, probe := k.probe.(askTell := k.probe.askTell || tell)),
               |Bytes(q[..n])|, Bytes(q[..n]))
  }

  // ---------- ikcp_input ----------

  function UpdateAck(cfg: Cfg, r: Rtt, rtt: int): Rtt {
    var delta := if rtt >= r.srtt then rtt - r.srtt else r.srtt - rtt;
    var rttval := if r.srtt == 0 then rtt / 2 else (3 * r.rttval + delta) / 4;
    var srtt := if r.srtt == 0 then rtt else Max(1, (7 * r.srtt + rtt) / 8);
    var rto := W(srtt + Max(cfg.interval, W(4 * rttval)));
    Rtt(srtt, rttval, Min(Max(cfg.minrto, rto), RTO_MAX))
  }

  function ParseUna(buf: seq<Seg>, una: u32): seq<Seg> {
    if buf != [] && TimeDiff(una, buf[0].sn) > 0 then ParseUna(buf[1..], una) else buf
  }

  /** The segment numbered sn taken out of an ascending buffer. */
  function Without(buf: seq<Seg>, sn: u32): seq<Seg> {
    if buf == [] then []
    else if buf[0].sn == sn then buf[1..]
    else if TimeDiff(sn, buf[0].sn) < 0 then buf
    else [buf[0]] + Without(buf[1..], sn)
  }

  predicate Outstanding(snd: Snd, sn: u32) {
    TimeDiff(sn, snd.una) >= 0 && TimeDiff(sn, snd.nxt) < 0
  }

  function ParseAck(snd: Snd, sn: u32): Snd {
    if Outstanding(snd, sn) then snd.(buf := Without(snd.buf, sn)) else snd
  }

  function Shrink(snd: Snd): Snd {
    snd.(una := if snd.buf != [] then snd.buf[0].sn else snd.nxt)
  }

  function BumpFastack(buf: seq<Seg>, sn: u32): seq<Seg> {
    if buf == [] || TimeDiff(sn, buf[0].sn) < 0 then buf
    else
      [if sn != buf[0].sn then buf[0].(fastack := Add(buf[0].fastack, 1)) else buf[0]] + BumpFastack(buf[1..], sn)
  }

  function ParseFastack(snd: Snd, sn: u32): Snd {
    if Outstanding(snd, sn) then snd.(buf := BumpFastack(snd.buf, sn)) else snd
  }

  /** rcv_buf with seg at its place, found by searching from the back; unchanged for a repeat. */
  function Insert(buf: seq<RSeg>, seg: RSeg): seq<RSeg> {
    if buf == [] then [seg]
    else
      var last := buf[|buf| - 1];
      if last.sn == seg.sn then buf
      else if TimeDiff(seg.sn, last.sn) > 0 then buf + [seg]
      else Insert(buf[..|buf| - 1], seg) + [last]
  }

  function ParseData(rcv: Rcv, seg: RSeg, wnd: u32): Rcv {
    if TimeDiff(seg.sn, Add(rcv.nxt, wnd)) >= 0 || TimeDiff(seg.sn, rcv.nxt) < 0 then rcv
    else Drain(rcv.(buf := Insert(rcv.buf, seg)), wnd)
  }

  function ParsePush(rcv: Rcv, m: Msg, wnd: u32): Rcv {
    if TimeDiff(m.sn, Add(rcv.nxt, wnd)) >= 0 then rcv
    else
      var rcv1 := rcv.(acks := rcv.acks + [Ack(m.sn, m.ts)]);
      if TimeDiff(m.sn, rcv.nxt) >= 0 then ParseData(rcv1, RSeg(m.sn, m.frag), wnd) else rcv1
  }

  function InputSnd(snd: Snd, m: Msg): Snd {
    var s := Shrink(snd.(buf := ParseUna(snd.buf, m.una)));
    if m.cmd == CMD_ACK then Shrink(ParseAck(s, m.sn)) else s
  }

  function InputRcv(rcv: Rcv, m: Msg, wnd: u32): Rcv {
    if m.cmd == CMD_PUSH then ParsePush(rcv, m, wnd) else rcv
  }

  /** What one well-formed message does to the control block. */
  function InputMsg(cfg: Cfg, k: Pcb, m: Msg): Pcb {
    var rtt := TimeDiff(k.current, m.ts);
    k.(snd := InputSnd(k.snd, m),
       rcv := InputRcv(k.rcv, m, cfg.rcvWnd),
       cong := k.cong.(rmtWnd := m.wnd),
       rtt := if m.cmd == CMD_ACK && rtt >= 0 then UpdateAck(cfg, k.rtt, rtt) else k.rtt,
       probe := k.probe.(askTell := k.probe.askTell || m.cmd == CMD_WASK))
  }

  function InputMsgs(cfg: Cfg, k: Pcb, ms: seq<Msg>): Pcb
    decreases |ms|
  {
    if ms == [] then k else InputMsgs(cfg, InputMsg(cfg, k, ms[0]), ms[1..])
  }

  datatype MaxAck = NoAck | MaxAck(sn: u32)

  /** The latest sequence number acknowledged by ms, continuing from a. */
  function LatestAck(a: MaxAck, ms: seq<Msg>): MaxAck
    decreases |ms|
  {
    if ms == [] then a else LatestAck(NoteAck(a, ms[0]), ms[1..])
  }

  function NoteAck(a: MaxAck, m: Msg): MaxAck {
    if m.cmd == CMD_ACK && (a.NoAck? || TimeDiff(m.sn, a.sn) > 0) then MaxAck(m.sn) else a
  }

  /** incr after one acknowledged advance in congestion avoidance. */
  function GrowIncr(mss: u32, incr: u32): u32
    requires mss > 0
  {
    var incr0: u32 := Max(incr, mss);
    W(incr0 + Div(W(mss * mss), incr0) + mss / 16)
  }

  /** Window growth after an advance of snd_una. */
  function Grow(mss: u32, c: Cong): Cong
    requires mss > 0
  {
    if c.cwnd >= c.rmtWnd then c else
    var c1 :=
      if c.cwnd < c.ssthresh then c.(cwnd := Add(c.cwnd, 1), incr := Add(c.incr, mss))
      else
        var incr := GrowIncr(mss, c.incr);
        if W((c.cwnd + 1) * mss) <= incr
        then c.(cwnd := Div(W(incr + mss - 1), mss), incr := incr)
        else c.(incr := incr);
    if c1.cwnd > c1.rmtWnd then c1.(cwnd := c1.rmtWnd, incr := W(c1.rmtWnd * mss)) else c1
  }

  /** The work after the last message of a datagram that was read to its end. */
  function InputEnd(cfg: Cfg, k: Pcb, prevUna: u32, maxack: MaxAck): Pcb
    requires cfg.Ok()
  {
    var snd := if maxack.MaxAck? then ParseFastack(k.snd, maxack.sn) else k.snd;
    k.(snd := snd, cong := if TimeDiff(snd.una, prevUna) > 0 then Grow(cfg.Mss(), k.cong) else k.cong)
  }

  datatype Inputted = Inputted(k: Pcb, code: int)

  function Input(cfg: Cfg, k: Pcb, bytes: seq<u8>): Inputted
    requires cfg.Ok()
  {
    if |bytes| < OVERHEAD then Inputted(k, -1) else
    var p := Parse(cfg.conv, bytes);
    var k1 := InputMsgs(cfg, k, p.ms);
    if p.code != 0 then Inputted(k1, p.code)
    else Inputted(InputEnd(cfg, k1, k.snd.una, LatestAck(NoAck, p.ms)), 0)
  }

  // ---------- ikcp_flush ----------

  function WndUnused(cfg: Cfg, rcv: Rcv): u32 {
    if |rcv.queue| < cfg.rcvWnd then cfg.rcvWnd - |rcv.queue| else 0
  }

  function ControlMsg(cfg: Cfg, rcv: Rcv, cmd: u8, a: Ack): Msg {
    Msg(cfg.conv, cmd, WndUnused(cfg, rcv) % TWO16, a.ts, a.sn, rcv.nxt, Frag(0, []))
  }

  function AckMsgs(cfg: Cfg, rcv: Rcv): seq<Msg> {
    seq(|rcv.acks|, i requires 0 <= i < |rcv.acks| => ControlMsg(cfg, rcv, CMD_ACK, rcv.acks[i]))
  }

  /** Probes carry the number and time of the last acknowledgement flushed before them. */
  function LastAck(acks: seq<Ack>): Ack {
    if acks == [] then Ack(0, 0) else acks[|acks| - 1]
  }

  function ProbeWindow(p: Probe, rmtWnd: u32, current: u32): Probe {
    if rmtWnd != 0 then p.(ts := 0, wait := 0)
    else if p.wait == 0 then p.(ts := Add(current, PROBE_INIT), wait := PROBE_INIT)
    else if TimeDiff(current, p.ts) < 0 then p
    else
      var w0 := Max(p.wait, PROBE_INIT);
      var w: u32 := Min(W(w0 + w0 / 2), PROBE_LIMIT);
      p.(askSend := true, ts := Add(current, w), wait := w)
  }

  /** No probe timer, or one of 7 seconds to 2 minutes. */
  predicate WaitOk(p: Probe) {
    p.wait == 0 || PROBE_INIT <= p.wait <= PROBE_LIMIT
  }

  /** There is a probe timer exactly while the window is closed; a probe is asked for only when it has run out. */
  predicate Probed(was: Probe, now: Probe, rmtWnd: u32, current: u32) {
    && (WaitOk(was) ==> WaitOk(now) && (now.wait == 0 <==> rmtWnd != 0))
    && (now.askSend <==> was.askSend || (rmtWnd == 0 && was.wait != 0 && TimeDiff(current, was.ts) >= 0))
  }

  function ProbeMsgs(cfg: Cfg, rcv: Rcv, p: Probe): seq<Msg> {
    (if p.askSend then [ControlMsg(cfg, rcv, CMD_WASK, LastAck(rcv.acks))] else []) +
    (if p.askTell then [ControlMsg(cfg, rcv, CMD_WINS, LastAck(rcv.acks))] else [])
  }

  function SendWindow(cfg: Cfg, c: Cong): u32 {
    var w := Min(cfg.sndWnd, c.rmtWnd);
    if cfg.nocwnd then w else Min(c.cwnd, w)
  }

  function FillOne(snd: Snd, wnd: u32, current: u32, una: u32, rto: u32): Snd
    requires snd.queue != []
  {
    Snd(snd.una, Add(snd.nxt, 1), snd.queue[1..],
        snd.buf + [Seg(snd.nxt, snd.queue[0], wnd, current, una, current, rto, 0, 0)])
  }

  /** Numbers queued fragments while the window has room. */
  function FillWindow(snd: Snd, cwnd: u32, wnd: u32, current: u32, una: u32, rto: u32): Snd
    decreases |snd.queue|
  {
    if TimeDiff(snd.nxt, Add(snd.una, cwnd)) >= 0 || snd.queue == [] then snd
    else
      FillWindow(FillOne(snd, wnd, current, una, rto), cwnd, wnd, current, una, rto)
  }

  /** The values one flush uses for every segment it looks at. */
  datatype Round = Round(conv: u32, current: u32, wnd: u32, una: u32, rto: u32, rtomin: u32,
                         resent: u32, nodelay: u32, fastlimit: int, deadLink: u32)

  datatype Why = First | Timeout | Fast | Wait

  function Due(r: Round, s: Seg): Why {
    if s.xmit == 0 then First
    else if TimeDiff(r.current, s.resendts) >= 0 then Timeout
    else if s.fastack >= r.resent && (Signed(s.xmit) <= r.fastlimit || r.fastlimit <= 0) then Fast
    else Wait
  }

  function Backoff(r: Round, rto: u32): u32 {
    if r.nodelay == 0 then Add(rto, Max(rto, r.rto))
    else if r.nodelay < 2 then W(rto + Half(Signed(rto)))
    else W(rto + r.rto / 2)
  }

  /** A segment after one look of the flush loop. */
  function Resent(r: Round, s: Seg): Seg {
    var x := Add(s.xmit, 1);
    match Due(r, s)
    case Wait => s
    case First => s.(xmit := x, rto := r.rto, resendts := Add(Add(r.current, r.rto), r.rtomin),
                     ts := r.current, wnd := r.wnd, una := r.una)
    case Timeout => s.(xmit := x, rto := Backoff(r, s.rto), resendts := Add(r.current, Backoff(r, s.rto)),
                       ts := r.current, wnd := r.wnd, una := r.una)
    case Fast => s.(xmit := x, fastack := 0, resendts := Add(r.current, s.rto),
                    ts := r.current, wnd := r.wnd, una := r.una)
  }

  function PushMsg(r: Round, s: Seg): Msg {
    Msg(r.conv, CMD_PUSH, s.wnd % TWO16, s.ts, s.sn, s.una, s.frag)
  }

  function ResendBuf(r: Round, buf: seq<Seg>): seq<Seg> {
    seq(|buf|, i requires 0 <= i < |buf| => Resent(r, buf[i]))
  }

  function PushMsgs(r: Round, buf: seq<Seg>): seq<Msg> {
    if buf == [] then []
    else (if Due(r, buf[0]).Wait? then [] else [PushMsg(r, Resent(r, buf[0]))]) + PushMsgs(r, buf[1..])
  }

  predicate Lost(r: Round, buf: seq<Seg>) {
    exists i :: 0 <= i < |buf| && Due(r, buf[i]).Timeout?
  }

  predicate Changed(r: Round, buf: seq<Seg>) {
    exists i :: 0 <= i < |buf| && Due(r, buf[i]).Fast?
  }

  predicate Dead(r: Round, buf: seq<Seg>) {
    exists i :: 0 <= i < |buf| && !Due(r, buf[i]).Wait? && Resent(r, buf[i]).xmit >= r.deadLink
  }

  function Timeouts(r: Round, buf: seq<Seg>): nat {
    if buf == [] then 0 else (if Due(r, buf[0]).Timeout? then 1 else 0) + Timeouts(r, buf[1..])
  }

  function AfterFlush(mss: u32, c: Cong, change: bool, lost: bool, inflight: u32, cwnd: u32, resent: u32): Cong {
    var c1 := if !change then c else
              var th: u32 := Max(inflight / 2, THRESH_MIN);
              c.(ssthresh := th, cwnd := Add(th, resent), incr := W(Add(th, resent) * mss));
    var c2 := if !lost then c1 else c1.(ssthresh := Max(cwnd / 2, THRESH_MIN), cwnd := 1, incr := mss);
    if c2.cwnd < 1 then c2.(cwnd := 1, incr := mss) else c2
  }

  function RoundOf(cfg: Cfg, k: Pcb): Round
    requires cfg.Ok()
  {
    Round(cfg.conv, k.current, WndUnused(cfg, k.rcv), k.rcv.nxt, k.rtt.rto,
          if cfg.nodelay == 0 then k.rtt.rto / 8 else 0,
          if cfg.fastresend > 0 then cfg.fastresend else TWO32 - 1,
          cfg.nodelay, cfg.fastlimit, cfg.deadLink)
  }

  function FilledSnd(cfg: Cfg, k: Pcb): Snd {
    FillWindow(k.snd, SendWindow(cfg, k.cong), WndUnused(cfg, k.rcv), k.current, k.rcv.nxt, k.rtt.rto)
  }

  function ControlMsgs(cfg: Cfg, k: Pcb): seq<Msg> {
    AckMsgs(cfg, k.rcv) + ProbeMsgs(cfg, k.rcv, ProbeWindow(k.probe, k.cong.rmtWnd, k.current))
  }

  /** The messages of a flush in the order in which they are written. */
  function FlushMsgs(cfg: Cfg, k: Pcb): seq<Msg>
    requires cfg.Ok()
  {
    if !k.updated then []
    else ControlMsgs(cfg, k) + PushMsgs(RoundOf(cfg, k), FilledSnd(cfg, k).buf)
  }

  function Flush(cfg: Cfg, k: Pcb): Pcb
    requires cfg.Ok()
  {
    if !k.updated then k else
    var r := RoundOf(cfg, k);
    var snd := FilledSnd(cfg, k);
    k.(snd := snd.(buf := ResendBuf(r, snd.buf)),
       rcv := k.rcv.(acks := []),
       probe := ProbeWindow(k.probe, k.cong.rmtWnd, k.current).(askSend := false, askTell := false),
       xmit := W(k.xmit + Timeouts(r, snd.buf)),
       state := if Dead(r, snd.buf) then TWO32 - 1 else k.state,
       cong := AfterFlush(cfg.Mss(), k.cong, Changed(r, snd.buf), Lost(r, snd.buf),
                          Off(snd.nxt, snd.una), SendWindow(cfg, k.cong), r.resent))
  }

  // ---------- ikcp_update, ikcp_check ----------

  /** When the flush was due; a first update or a jump of ten seconds or more makes it due now. */
  function FlushBase(k: Pcb, current: u32): u32 {
    var d := TimeDiff(current, k.tsFlush);
    if !k.updated || d >= 10000 || d < -10000 then current else k.tsFlush
  }

  predicate FlushDue(k: Pcb, current: u32) {
    TimeDiff(current, FlushBase(k, current)) >= 0
  }

  /** The control block when ikcp_update has set its clock and scheduled the next flush. */
  function Tick(cfg: Cfg, k: Pcb, current: u32): Pcb {
    var base := FlushBase(k, current);
    var next := Add(base, cfg.interval);
    k.(current := current, updated := true,
       tsFlush := if !FlushDue(k, current) then base
                  else if TimeDiff(current, next) >= 0 then Add(current, cfg.interval)
                  else next)
  }

  function Update(cfg: Cfg, k: Pcb, current: u32): Pcb
    requires cfg.Ok()
  {
    var k1 := Tick(cfg, k, current);
    if FlushDue(k, current) then Flush(cfg, k1) else k1
  }

  function UpdateMsgs(cfg: Cfg, k: Pcb, current: u32): seq<Msg>
    requires cfg.Ok()
  {
    if FlushDue(k, current) then FlushMsgs(cfg, Tick(cfg, k, current)) else []
  }

  /** The earliest retransmission among buf, at most limit, or 0 for one already due. */
  function NextResend(buf: seq<Seg>, current: u32, limit: int): int {
    if buf == [] then limit
    else
      var diff := TimeDiff(buf[0].resendts, current);
      if diff <= 0 then 0 else NextResend(buf[1..], current, Min(diff, limit))
  }

  function Check(cfg: Cfg, k: Pcb, current: u32): u32 {
    var late := TimeDiff(current, k.tsFlush);
    if !k.updated || late >= 10000 || late < -10000 || late >= 0 then current
    else
      var packet := NextResend(k.snd.buf, current, TWO31 - 1);
      if packet == 0 then current
      else Add(current, W(Min(Min(packet, TimeDiff(k.tsFlush, current)), cfg.interval)))
  }
}
