// The KCP endpoint as the C code works it: one object whose fields the
// operations update in place, each operation proved against KcpSpec.
module Kcp {
  import opened Word
  import opened Wire
  import opened KcpSpec
  import opened KcpFrag

  /** The pairs that the first count entries of an acklist hold. */
  function AckPairs(acklist: seq<u32>, count: nat): seq<Ack>
  {
    seq(count, i requires 0 <= i < count =>
      if 2 * i + 1 < |acklist| then Ack(acklist[2 * i], acklist[2 * i + 1]) else Ack(0, 0))
  }

  /** Since when the flush is due; since now in a first update or after a jump of ten seconds or more. */
  function DueSince(tsFlush: u32, updated: bool, now: u32): u32 {
    if !updated || TimeDiff(now, tsFlush) >= 10000 || TimeDiff(now, tsFlush) < -10000 then now else tsFlush
  }

  function NextFlush(cfg: Cfg, tsFlush: u32, updated: bool, now: u32): u32 {
    var base := DueSince(tsFlush, updated, now);
    if TimeDiff(now, base) < 0 then base
    else if TimeDiff(now, Add(base, cfg.interval)) >= 0 then Add(now, cfg.interval)
    else Add(base, cfg.interval)
  }

  lemma TickIs(cfg: Cfg, k: Pcb, now: u32)
    ensures Tick(cfg, k, now) ==
            k.(current := now, updated := true, tsFlush := NextFlush(cfg, k.tsFlush, k.updated, now))
    ensures FlushDue(k, now) <==> TimeDiff(now, DueSince(k.tsFlush, k.updated, now)) >= 0
  {
    hide TimeDiff, Add;
  }

  lemma SameTime(now: u32)
    ensures TimeDiff(now, now) == 0
  {
  }

  /** The control block when n fragments have been taken off the queue, or only looked at, and it is refilled. */
  function Taken(cfg: Cfg, k: Pcb, n: nat, peeking: bool): Pcb
    requires n <= |k.rcv.queue|
  {
    var rcv := Drain(if peeking then k.rcv else k.rcv.(queue := k.rcv.queue[n..]), cfg.rcvWnd);
    var tell := |k.rcv.queue| >= cfg.rcvWnd && |rcv.queue| < cfg.rcvWnd;
    k.(rcv := rcv, probe := k.probe.(askTell := k.probe.askTell || tell))
  }

  /** The control block when acknowledgements and probes have been written. */
  function ControlDone(k: Pcb): Pcb {
    k.(rcv := k.rcv.(acks := []),
       probe := ProbeWindow(k.probe, k.cong.rmtWnd, k.current).(askSend := false, askTell := false))
  }

  /** The control block when the segments have been written and the window is adjusted. */
  function DataDone(cfg: Cfg, k: Pcb): Pcb
    requires cfg.Ok()
  {
    var r, f := RoundOf(cfg, k), FilledSnd(cfg, k);
    k.(snd := f.(buf := ResendBuf(r, f.buf)),
       xmit := W(k.xmit + Timeouts(r, f.buf)),
       state := if Dead(r, f.buf) then TWO32 - 1 else k.state,
       cong := AfterFlush(cfg.Mss(), k.cong, Changed(r, f.buf), Lost(r, f.buf),
                          Off(f.nxt, f.una), SendWindow(cfg, k.cong), r.resent))
  }

  function DataMsgs(cfg: Cfg, k: Pcb): seq<Msg>
    requires cfg.Ok()
  {
    PushMsgs(RoundOf(cfg, k), FilledSnd(cfg, k).buf)
  }

  /** The datagrams that messages written to an empty buffer become. */
  function Outputs(mtu: nat, ms: seq<Msg>): seq<seq<u8>>
    requires AllEncodable(Pack(mtu, [], ms))
  {
    EncodeEach(Pack(mtu, [], ms))
  }

  /** A flush is its control part followed by its data part. */
  lemma FlushCompose(cfg: Cfg, k: Pcb)
    requires cfg.Ok() && k.updated
    ensures DataDone(cfg, ControlDone(k)) == KcpSpec.Flush(cfg, k)
    ensures FlushMsgs(cfg, k) == ControlMsgs(cfg, k) + DataMsgs(cfg, ControlDone(k))
  {
    hide FillWindow, ResendBuf, AfterFlush, PushMsgs, AckMsgs, ProbeMsgs, ProbeWindow, Lost, Changed, Dead, Timeouts;
  }

  class KcpCb {
    const cfg: Cfg
    var sndUna: u32
    var sndNxt: u32
    var rcvNxt: u32
    var ssthresh: u32
    var rxRttval: int
    var rxSrtt: int
    var rxRto: u32
    var rmtWnd: u32
    var cwnd: u32
    var incr: u32
    var askSend: bool
    var askTell: bool
    var tsProbe: u32
    var probeWait: u32
    var current: u32
    var tsFlush: u32
    var updated: bool
    var xmit: u32
    var state: u32
    var nrcvBuf: nat
    var nsndBuf: nat
    var nrcvQue: nat
    var nsndQue: nat
    var sndQueue: seq<Frag>
    var rcvQueue: seq<Frag>
    var sndBuf: seq<Seg>
    var rcvBuf: seq<RSeg>
    var acklist: seq<u32>
    var ackcount: nat
    var ackblock: nat

    predicate AcksFit()
      reads `acklist, `ackcount, `ackblock
    {
      ackcount <= ackblock && |acklist| == 2 * ackblock
    }

    predicate RcvFits()
      reads `rcvBuf, `nrcvBuf, `rcvQueue, `nrcvQue
    {
      nrcvBuf == |rcvBuf| && nrcvQue == |rcvQueue|
    }

    /** No fragment to be sent exceeds one segment. */
    predicate SndFits()
      reads `sndBuf, `nsndBuf, `sndQueue, `nsndQue
    {
      && nsndBuf == |sndBuf| && nsndQue == |sndQueue|
      && Short(cfg.Mss(), sndQueue) && SegsShort(cfg.Mss(), sndBuf)
    }

    /** The counters are the queue lengths. */
    predicate Valid()
      reads `rcvBuf, `nrcvBuf, `rcvQueue, `nrcvQue, `sndBuf, `nsndBuf, `sndQueue, `nsndQue
      reads `acklist, `ackcount, `ackblock
    {
      cfg.Ok() && AcksFit() && RcvFits() && SndFits()
    }

    lemma CfgOk()
      requires Valid()
      ensures cfg.Ok()
    {
    }

    function SndView(): Snd
      reads `sndUna, `sndNxt, `sndQueue, `sndBuf
    {
      Snd(sndUna, sndNxt, sndQueue, sndBuf)
    }

    function CongView(): Cong
      reads `cwnd, `incr, `ssthresh, `rmtWnd
    {
      Cong(cwnd, incr, ssthresh, rmtWnd)
    }

    function RttView(): Rtt
      reads `rxSrtt, `rxRttval, `rxRto
    {
      Rtt(rxSrtt, rxRttval, rxRto)
    }

    function ProbeView(): Probe
      reads `askSend, `askTell, `tsProbe, `probeWait
    {
      Probe(askSend, askTell, tsProbe, probeWait)
    }

    function RcvView(): Rcv
      reads `rcvNxt, `rcvQueue, `rcvBuf, `acklist, `ackcount, `ackblock
    {
      Rcv(rcvNxt, rcvQueue, rcvBuf, AckPairs(acklist, ackcount))
    }

    function View(): Pcb
      reads this
    {
      Pcb(SndView(), RcvView(), CongView(), RttView(),
          ProbeView(), current, tsFlush, updated, xmit, state)
    }

    constructor (cfg: Cfg)
      requires cfg.Ok()
      ensures this.cfg == cfg && Valid() && View() == Create()
    {
      this.cfg := cfg;
      sndUna, sndNxt, rcvNxt := 0, 0, 0;
      ssthresh := THRESH_INIT;
      rxRttval, rxSrtt, rxRto := 0, 0, RTO_DEF;
      rmtWnd, cwnd, incr := WND_RCV, 0, 0;
      askSend, askTell, tsProbe, probeWait := false, false, 0, 0;
      current, tsFlush, updated, xmit, state := 0, INTERVAL, false, 0, 0;
      nrcvBuf, nsndBuf, nrcvQue, nsndQue := 0, 0, 0, 0;
      sndQueue, rcvQueue, sndBuf, rcvBuf := [], [], [], [];
      acklist, ackcount, ackblock := [], 0, 0;
    }

    // ---------- ikcp_send ----------

    /** The stream-mode branch: tops up the last queued fragment and says how many bytes it took. */
    method TopUpTail(buf: seq<u8>) returns (extend: nat)
      requires Valid() && cfg.stream
      modifies `sndQueue
      ensures Valid() && extend == TopUp(cfg, old(sndQueue), buf) <= |buf|
      ensures sndQueue == TopUpQueue(cfg, old(sndQueue), buf)
    {
      extend := 0;
      if |sndQueue| > 0 {
        var tail := sndQueue[|sndQueue| - 1];
        if |tail.data| < cfg.Mss() {
          var capacity := cfg.Mss() - |tail.data|;
          extend := if |buf| < capacity then |buf| else capacity;
          sndQueue := sndQueue[..|sndQueue| - 1] + [Frag(0, tail.data + buf[..extend])];
        }
      }
    }

    /** Queues count fragments of buf. */
    method QueueFragments(buf: seq<u8>, count: nat)
      requires Valid() && count < WND_RCV
      modifies `sndQueue, `nsndQue
      ensures Valid()
      ensures sndQueue == old(sndQueue) + Fragments(cfg.Mss(), cfg.stream, buf, count)
    {
      ghost var all := Fragments(cfg.Mss(), cfg.stream, buf, count);
      FragmentsShape(cfg.Mss(), cfg.stream, buf, count);
      hide Fragments, Short, SegsShort, AcksFit, RcvFits;
      var rest := buf;
      var i := 0;
      while i < count
        invariant 0 <= i <= count && nsndQue == |sndQueue|
        invariant sndQueue + Fragments(cfg.Mss(), cfg.stream, rest, count - i) == old(sndQueue) + all
      {
        var size := if |rest| > cfg.Mss() then cfg.Mss() else |rest|;
        var frag := Frag(if cfg.stream then 0 else count - i - 1, rest[..size]);
        FragmentsStep(cfg.Mss(), cfg.stream, rest, count - i);
        Assoc(sndQueue, [frag], Fragments(cfg.Mss(), cfg.stream, rest[size..], count - i - 1));
        sndQueue := sndQueue + [frag];
        nsndQue := nsndQue + 1;
        rest := rest[size..];
        i := i + 1;
      }
      FragmentsStep(cfg.Mss(), cfg.stream, rest, 0);
      assert sndQueue + [] == sndQueue;
      ShortJoin(cfg.Mss(), old(sndQueue), all);
    }

    method Send(buffer: seq<u8>, len: int) returns (code: int)
      requires Valid() && len <= |buffer|
      modifies `sndQueue, `nsndQue
      ensures Valid()
      ensures len < 0 ==> code == -1 && View() == old(View())
      ensures len >= 0 ==>
        var s := SendQueue(cfg, old(sndQueue), buffer[..len]);
        code == s.code && View() == old(View()).(snd := old(SndView()).(queue := s.queue))
    {
      if len < 0 {
        return -1;
      }
      var buf := buffer[..len];
      if cfg.stream {
        var extend := TopUpTail(buf);
        buf := buf[extend..];
        if |buf| <= 0 {
          return 0;
        }
      } else {
        assert buf[0..] == buf;
      }
      var count := if |buf| <= cfg.Mss() then 1 else (|buf| + cfg.Mss() - 1) / cfg.Mss();
      if count >= WND_RCV {
        return -2;
      }
      FragCountEnough(cfg.Mss(), |buf|);
      QueueFragments(buf, count);
      code := 0;
    }

    // ---------- ikcp_peeksize, ikcp_recv ----------

    method Peek() returns (size: int)
      requires Valid()
      ensures size == PeekSize(rcvQueue)
    {
      if |rcvQueue| == 0 {
        return -1;
      }
      if rcvQueue[0].frg == 0 {
        return |rcvQueue[0].data|;
      }
      if nrcvQue < rcvQueue[0].frg + 1 {
        return -1;
      }
      size := 0;
      var i := 0;
      assert rcvQueue[0..] == rcvQueue;
      while i < |rcvQueue|
        invariant 0 <= i <= |rcvQueue|
        invariant size == |Bytes(rcvQueue[..i])|
        invariant FirstMessage(rcvQueue) == i + FirstMessage(rcvQueue[i..])
      {
        size := size + |rcvQueue[i].data|;
        BytesSnoc(rcvQueue, i);
        if rcvQueue[i].frg == 0 {
          break;
        }
        i := i + 1;
      }
    }

    /** Moves available segments from rcv_buf to rcv_queue. */
    method MoveReady()
      requires Valid()
      modifies `rcvBuf, `nrcvBuf, `rcvQueue, `nrcvQue, `rcvNxt
      ensures Valid() && RcvView() == Drain(old(RcvView()), cfg.rcvWnd)
    {
      hide SndFits, AcksFit, AckPairs;
      while |rcvBuf| > 0
        invariant Valid()
        invariant Drain(RcvView(), cfg.rcvWnd) == Drain(old(RcvView()), cfg.rcvWnd)
        decreases |rcvBuf|
      {
        var seg := rcvBuf[0];
        if seg.sn == rcvNxt && nrcvQue < cfg.rcvWnd {
          rcvBuf := rcvBuf[1..];
          nrcvBuf := nrcvBuf - 1;
          rcvQueue := rcvQueue + [seg.frag];
          nrcvQue := nrcvQue + 1;
          rcvNxt := Add(rcvNxt, 1);
        } else {
          break;
        }
      }
    }

    /** Merges the first message, taking it off the queue unless peeking. */
    method Merge(peeking: bool) returns (data: seq<u8>)
      requires Valid() && rcvQueue != []
      modifies `rcvQueue, `nrcvQue
      ensures Valid()
      ensures data == Bytes(old(rcvQueue)[..FirstMessage(old(rcvQueue))])
      ensures rcvQueue == if peeking then old(rcvQueue) else old(rcvQueue)[FirstMessage(old(rcvQueue))..]
    {
      ghost var q := rcvQueue;
      data := [];
      var i := 0;
      var n := |rcvQueue|;
      assert q[0..] == q;
      while i < n
        invariant 0 <= i <= n == |q| && Valid()
        invariant rcvQueue == if peeking then q else q[i..]
        invariant data == Bytes(q[..i])
        invariant FirstMessage(q) == i + FirstMessage(q[i..])
      {
        var frag := if peeking then rcvQueue[i] else rcvQueue[0];
        data := data + frag.data;
        BytesSnoc(q, i);
        if !peeking {
          rcvQueue := rcvQueue[1..];
          nrcvQue := nrcvQue - 1;
        }
        i := i + 1;
        if frag.frg == 0 {
          break;
        }
      }
    }

    /** Takes or peeks at the first message of the queue and refills the queue. */
    method TakeFirst(peeking: bool) returns (data: seq<u8>)
      requires Valid() && rcvQueue != []
      modifies `rcvQueue, `nrcvQue, `rcvBuf, `nrcvBuf, `rcvNxt, `askTell
      ensures Valid()
      ensures var q, r := old(rcvQueue), old(RcvView()); var n := FirstMessage(q);
        && data == Bytes(q[..n])
        && RcvView() == Drain(if peeking then r else r.(queue := q[n..]), cfg.rcvWnd)
        && askTell == (old(askTell) || (|q| >= cfg.rcvWnd && |rcvQueue| < cfg.rcvWnd))
    {
      hide Drain, FirstMessage, Bytes, SndFits, AcksFit, AckPairs;
      var recover := nrcvQue >= cfg.rcvWnd;
      data := Merge(peeking);
      MoveReady();
      if nrcvQue < cfg.rcvWnd && recover {
        askTell := true;
      }
    }

    /** The same, for the whole control block. */
    method TakeMessage(peeking: bool) returns (data: seq<u8>)
      requires Valid() && rcvQueue != []
      modifies `rcvQueue, `nrcvQue, `rcvBuf, `nrcvBuf, `rcvNxt, `askTell
      ensures Valid()
      ensures var k := old(View()); var n := FirstMessage(k.rcv.queue);
        data == Bytes(k.rcv.queue[..n]) && View() == Taken(cfg, k, n, peeking)
    {
      hide Valid, Drain, FirstMessage, Bytes, AckPairs, SndView, CongView, RttView;
      data := TakeFirst(peeking);
    }

    lemma QueueIs()
      requires Valid()
      ensures View().rcv.queue == rcvQueue
    {
    }

    method Recv(len: int) returns (code: int, data: seq<u8>)
      requires Valid()
      modifies `rcvQueue, `nrcvQue, `rcvBuf, `nrcvBuf, `rcvNxt, `askTell
      ensures Valid()
      ensures Received(View(), code, data) == KcpSpec.Recv(cfg, old(View()), len)
    {
      hide Drain, FirstMessage, Bytes, PeekSize, View, Valid, Taken;
      QueueIs();
      RecvMeans(cfg, View(), len);
      if |rcvQueue| == 0 {
        return -1, [];
      }
      var limit := if len < 0 then -len else len;
      var peeksize := Peek();
      if peeksize < 0 {
        return -2, [];
      }
      PeekMeans(rcvQueue);
      if peeksize > limit {
        return -3, [];
      }
      data := TakeMessage(len < 0);
      code := |data|;
      assert code == peeksize;
    }

    // ---------- ikcp_input ----------

    method UpdateRtt(rtt: int)
      requires cfg.Ok()
      modifies `rxRttval, `rxSrtt, `rxRto
      ensures RttView() == UpdateAck(cfg, old(RttView()), rtt)
    {
      if rxSrtt == 0 {
        rxSrtt := rtt;
        rxRttval := rtt / 2;
      } else {
        var delta := rtt - rxSrtt;
        if delta < 0 {
          delta := -delta;
        }
        rxRttval := (3 * rxRttval + delta) / 4;
        rxSrtt := (7 * rxSrtt + rtt) / 8;
        if rxSrtt < 1 {
          rxSrtt := 1;
        }
      }
      var rto := W(rxSrtt + Max(cfg.interval, W(4 * rxRttval)));
      rxRto := Min(Max(cfg.minrto, rto), RTO_MAX);
    }

    method ShrinkBuf()
      modifies `sndUna
      ensures SndView() == Shrink(old(SndView()))
    {
      if |sndBuf| > 0 {
        sndUna := sndBuf[0].sn;
      } else {
        sndUna := sndNxt;
      }
    }

    method RemoveAcked(sn: u32)
      requires Valid()
      modifies `sndBuf, `nsndBuf
      ensures Valid() && SndView() == ParseAck(old(SndView()), sn)
    {
      if TimeDiff(sn, sndUna) < 0 || TimeDiff(sn, sndNxt) >= 0 {
        return;
      }
      hide Without, TimeDiff, Short, SegsShort, AcksFit, RcvFits;
      ghost var b := sndBuf;
      var i := 0;
      assert b[..0] + Without(b[0..], sn) == Without(b, sn);
      while i < |sndBuf|
        invariant 0 <= i <= |b| && sndBuf == b && nsndBuf == |b|
        invariant b[..i] + Without(b[i..], sn) == Without(b, sn)
      {
        WithoutStep(b, i, sn);
        var seg := sndBuf[i];
        if sn == seg.sn {
          SegsShortWithout(cfg.Mss(), sndBuf, i);
          sndBuf := sndBuf[..i] + sndBuf[i + 1..];
          nsndBuf := nsndBuf - 1;
          return;
        }
        if TimeDiff(sn, seg.sn) < 0 {
          return;
        }
        i := i + 1;
      }
      WithoutEnd(b, sn);
    }

    method RemoveBefore(una: u32)
      requires Valid()
      modifies `sndBuf, `nsndBuf
      ensures Valid() && sndBuf == ParseUna(old(sndBuf), una)
    {
      while |sndBuf| > 0
        invariant Valid()
        invariant ParseUna(sndBuf, una) == ParseUna(old(sndBuf), una)
        decreases |sndBuf|
      {
        if TimeDiff(una, sndBuf[0].sn) > 0 {
          sndBuf := sndBuf[1..];
          nsndBuf := nsndBuf - 1;
        } else {
          break;
        }
      }
    }

    method CountSkipped(sn: u32)
      requires Valid()
      modifies `sndBuf
      ensures Valid() && SndView() == ParseFastack(old(SndView()), sn)
    {
      if TimeDiff(sn, sndUna) < 0 || TimeDiff(sn, sndNxt) >= 0 {
        return;
      }
      hide BumpFastack, TimeDiff, SegsShort, Short, AcksFit, RcvFits;
      ghost var b := sndBuf;
      var i := 0;
      while i < |sndBuf|
        invariant 0 <= i <= |b| == |sndBuf|
        invariant forall j :: 0 <= j < i ==> TimeDiff(sn, b[j].sn) >= 0 && sndBuf[j] == Bumped(b[j], sn)
        invariant forall j :: i <= j < |b| ==> sndBuf[j] == b[j]
      {
        var seg := sndBuf[i];
        if TimeDiff(sn, seg.sn) < 0 {
          break;
        }
        if sn != seg.sn {
          sndBuf := sndBuf[i := seg.(fastack := Add(seg.fastack, 1))];
        }
        i := i + 1;
      }
      BumpIs(b, sn, i);
      assert sndBuf == BumpFastack(b, sn);
      SegsShortSame(cfg.Mss(), b, sndBuf);
    }

    /** Appends to acklist, moving it to a block of twice the size or more when it is full. */
    method AckPush(sn: u32, ts: u32)
      requires AcksFit()
      modifies `acklist, `ackcount, `ackblock
      ensures AcksFit()
      ensures AckPairs(acklist, ackcount) == old(AckPairs(acklist, ackcount)) + [Ack(sn, ts)]
    {
      var newsize := ackcount + 1;
      if newsize > ackblock {
        var newblock := 8;
        while newblock < newsize
          invariant newblock >= 8
          decreases newsize - newblock
        {
          newblock := newblock * 2;
        }
        var larger: seq<u32> := seq(2 * newblock, _ => 0);
        var x := 0;
        while x < ackcount
          invariant 0 <= x <= ackcount && |larger| == 2 * newblock && newblock >= newsize
          invariant larger[..2 * x] == acklist[..2 * x]
        {
          larger := larger[2 * x := acklist[2 * x]][2 * x + 1 := acklist[2 * x + 1]];
          x := x + 1;
        }
        SamePairs(acklist, larger, ackcount);
        acklist := larger;
        ackblock := newblock;
      }
      acklist := acklist[2 * ackcount := sn][2 * ackcount + 1 := ts];
      ackcount := ackcount + 1;
    }

    method StoreData(seg: RSeg)
      requires Valid()
      modifies `rcvBuf, `nrcvBuf, `rcvQueue, `nrcvQue, `rcvNxt
      ensures Valid() && RcvView() == ParseData(old(RcvView()), seg, cfg.rcvWnd)
    {
      hide SndFits, AcksFit, AckPairs, Drain;
      var sn := seg.sn;
      if TimeDiff(sn, Add(rcvNxt, cfg.rcvWnd)) >= 0 || TimeDiff(sn, rcvNxt) < 0 {
        return;
      }
      var repeat := false;
      var p := |rcvBuf|;
      ghost var b := rcvBuf;
      assert b == b[..p] && b[p..] == [];
      while p > 0
        invariant 0 <= p <= |b|
        invariant Insert(b, seg) == Insert(b[..p], seg) + b[p..]
        invariant !repeat
      {
        var last := rcvBuf[p - 1];
        if last.sn == sn {
          repeat := true;
          break;
        }
        if TimeDiff(sn, last.sn) > 0 {
          break;
        }
        assert b[..p][..p - 1] == b[..p - 1];
        assert b[p - 1..] == [last] + b[p..];
        p := p - 1;
      }
      if !repeat {
        assert Insert(b, seg) == b[..p] + [seg] + b[p..];
        rcvBuf := rcvBuf[..p] + [seg] + rcvBuf[p..];
        nrcvBuf := nrcvBuf + 1;
      } else {
        assert Insert(b, seg) == b[..p] + b[p..] == b;
      }
      MoveReady();
    }

    method RecordAck(sn: u32, ts: u32)
      requires Valid()
      modifies `acklist, `ackcount, `ackblock
      ensures Valid()
      ensures var k := old(View()); View() == k.(rcv := k.rcv.(acks := k.rcv.acks + [Ack(sn, ts)]))
    {
      hide SndFits, RcvFits, AckPairs, SndView, CongView, RttView, ProbeView;
      AckPush(sn, ts);
    }

    method RecordData(seg: RSeg)
      requires Valid()
      modifies `rcvBuf, `nrcvBuf, `rcvQueue, `nrcvQue, `rcvNxt
      ensures Valid()
      ensures var k := old(View()); View() == k.(rcv := ParseData(k.rcv, seg, cfg.rcvWnd))
    {
      hide Valid, ParseData, AckPairs, SndView, CongView, RttView, ProbeView;
      StoreData(seg);
    }

    /** A data message is noted for acknowledgement and stored when it lies in the window. */
    method TakeData(m: Msg)
      requires Valid()
      modifies this
      ensures Valid()
      ensures var k := old(View()); View() == k.(rcv := InputRcv(k.rcv, m, cfg.rcvWnd))
    {
      assert rcvNxt == View().rcv.nxt;
      hide View, Valid, ParseData;
      if m.cmd == CMD_PUSH && TimeDiff(m.sn, Add(rcvNxt, cfg.rcvWnd)) < 0 {
        RecordAck(m.sn, m.ts);
        if TimeDiff(m.sn, rcvNxt) >= 0 {
          RecordData(RSeg(m.sn, m.frag));
        }
      }
    }

    /** The acknowledgements of a message: cumulative in every one, selective in an ACK. */
    method FreeAcked(m: Msg)
      requires Valid()
      modifies `sndBuf, `nsndBuf, `sndUna
      ensures Valid() && SndView() == InputSnd(old(SndView()), m)
    {
      hide Valid, ParseUna, ParseAck;
      RemoveBefore(m.una);
      ShrinkBuf();
      if m.cmd == CMD_ACK {
        RemoveAcked(m.sn);
        ShrinkBuf();
      }
    }

    /** The same, for the whole control block. */
    method TakeAcks(m: Msg)
      requires Valid()
      modifies `sndBuf, `nsndBuf, `sndUna
      ensures Valid() && View() == old(View()).(snd := InputSnd(old(View()).snd, m))
    {
      hide Valid, SndView, RcvView, CongView, RttView, ProbeView, InputSnd;
      FreeAcked(m);
    }

    /** The round-trip sample that an ACK brings. */
    method Sample(m: Msg)
      requires cfg.Ok()
      modifies `rxRttval, `rxSrtt, `rxRto
      ensures var rtt := TimeDiff(current, m.ts);
        RttView() == if m.cmd == CMD_ACK && rtt >= 0 then UpdateAck(cfg, old(RttView()), rtt) else old(RttView())
    {
      hide UpdateAck, TimeDiff, RttView;
      if m.cmd == CMD_ACK && TimeDiff(current, m.ts) >= 0 {
        UpdateRtt(TimeDiff(current, m.ts));
      }
    }

    /** The same, for the whole control block. */
    method TakeSample(m: Msg)
      requires Valid()
      modifies `rxRttval, `rxSrtt, `rxRto
      ensures Valid() && View() == old(View()).(rtt := InputMsg(cfg, old(View()), m).rtt)
    {
      CfgOk();
      hide Valid, UpdateAck, TimeDiff, SndView, RcvView, CongView, RttView, ProbeView, InputSnd, InputRcv;
      Sample(m);
    }

    /** The window a message advertises, and its request for ours. */
    method TakeWindow(m: Msg)
      requires Valid()
      modifies `rmtWnd, `askTell
      ensures Valid()
      ensures var k := old(View());
        View() == k.(cong := k.cong.(rmtWnd := m.wnd),
                     probe := k.probe.(askTell := k.probe.askTell || m.cmd == CMD_WASK))
    {
      hide Valid, SndView, RcvView, RttView;
      rmtWnd := m.wnd;
      if m.cmd == CMD_WASK {
        askTell := true;
      }
    }

    /** The body of the input loop for one well-formed message. */
    method TakeIn(m: Msg)
      requires Valid()
      modifies this
      ensures Valid() && View() == InputMsg(cfg, old(View()), m)
    {
      hide View, Valid, InputSnd, InputRcv, UpdateAck, TimeDiff;
      TakeWindow(m);
      TakeAcks(m);
      TakeSample(m);
      TakeData(m);
    }

    /** Window growth when snd_una has advanced. */
    method GrowWindow()
      requires Valid()
      modifies `cwnd, `incr
      ensures Valid() && CongView() == Grow(cfg.Mss(), old(CongView()))
    {
      if cwnd < rmtWnd {
        var mss: u32 := cfg.Mss();
        if cwnd < ssthresh {
          cwnd := Add(cwnd, 1);
          incr := Add(incr, mss);
        } else {
          incr := GrowIncr(mss, incr);
          if W((cwnd + 1) * mss) <= incr {
            cwnd := Div(W(incr + mss - 1), mss);
          }
        }
        if cwnd > rmtWnd {
          cwnd := rmtWnd;
          incr := W(rmtWnd * mss);
        }
      }
    }

    method Input(bytes: seq<u8>) returns (code: int)
      requires Valid()
      modifies this
      ensures Valid() && Inputted(View(), code) == KcpSpec.Input(cfg, old(View()), bytes)
    {
      hide InputMsg, DecodeHead, Grow, GrowIncr, ParseFastack, W, EncodeAll;
      var prevUna := sndUna;
      var acked: MaxAck := NoAck;
      if |bytes| < OVERHEAD {
        return -1;
      }
      ghost var p := Parse(cfg.conv, bytes);
      var rest := bytes;
      while true
        invariant Valid()
        invariant Parse(cfg.conv, rest).code == p.code
        invariant InputMsgs(cfg, View(), Parse(cfg.conv, rest).ms) == InputMsgs(cfg, old(View()), p.ms)
        invariant LatestAck(acked, Parse(cfg.conv, rest).ms) == LatestAck(NoAck, p.ms)
        decreases |rest|
      {
        if |rest| < OVERHEAD {
          break;
        }
        var h := DecodeHead(rest);
        if h.conv != cfg.conv {
          return -1;
        }
        if |rest| - OVERHEAD < h.len || h.len >= TWO31 {
          return -2;
        }
        if h.cmd != CMD_PUSH && h.cmd != CMD_ACK && h.cmd != CMD_WASK && h.cmd != CMD_WINS {
          return -3;
        }
        var m := MsgAt(h, rest);
        ghost var tail := Parse(cfg.conv, rest[OVERHEAD + h.len..]).ms;
        assert Parse(cfg.conv, rest).ms == [m] + tail && ([m] + tail)[1..] == tail;
        TakeIn(m);
        acked := NoteAck(acked, m);
        rest := rest[OVERHEAD + h.len..];
      }
      FinishInput(prevUna, acked);
      code := 0;
    }

    /** What is left to do when a datagram has been read to its end: duplicate counters and window growth. */
    method CountAndGrow(prevUna: u32, acked: MaxAck)
      requires Valid()
      modifies `sndBuf, `cwnd, `incr
      ensures Valid() && SndView() == if acked.MaxAck? then ParseFastack(old(SndView()), acked.sn) else old(SndView())
      ensures CongView() == if TimeDiff(SndView().una, prevUna) > 0 then Grow(cfg.Mss(), old(CongView()))
              else old(CongView())
    {
      UnaIs();
      hide Valid, SndView, CongView, ParseFastack, Grow, TimeDiff;
      if acked.MaxAck? {
        CountSkipped(acked.sn);
        UnaIs();
      }
      if TimeDiff(sndUna, prevUna) > 0 {
        GrowWindow();
      }
    }

    /** The same, for the whole control block. */
    method FinishInput(prevUna: u32, acked: MaxAck)
      requires Valid()
      modifies `sndBuf, `cwnd, `incr
      ensures Valid() && View() == InputEnd(cfg, old(View()), prevUna, acked)
    {
      CfgOk();
      hide Valid, SndView, RcvView, CongView, RttView, ProbeView, ParseFastack, Grow, TimeDiff;
      CountAndGrow(prevUna, acked);
    }

    lemma UnaIs()
      ensures SndView().una == sndUna
    {
    }

    // ---------- ikcp_flush ----------

    function Unused(): u32
      reads `nrcvQue
    {
      if nrcvQue < cfg.rcvWnd then cfg.rcvWnd - nrcvQue else 0
    }

    /** Writes the pending acknowledgements into an empty output buffer. */
    method WriteAcks() returns (outs: seq<seq<u8>>, buf: seq<u8>, last: Ack)
      requires Valid()
      ensures Framed(cfg.mtu, AckMsgs(cfg, RcvView()), outs, buf)
      ensures last == LastAck(RcvView().acks)
    {
      hide Framed, SndFits, RcvFits;
      ghost var acks, all := AckPairs(acklist, ackcount), AckMsgs(cfg, RcvView());
      outs, buf, last := [], [], Ack(0, 0);
      NothingFramed(cfg.mtu);
      var i := 0;
      while i < ackcount
        invariant 0 <= i <= ackcount == |all| && Framed(cfg.mtu, all[..i], outs, buf)
        invariant last == if i == 0 then Ack(0, 0) else acks[i - 1]
      {
        last := Ack(acklist[2 * i], acklist[2 * i + 1]);
        var m := Msg(cfg.conv, CMD_ACK, Unused() % TWO16, last.ts, last.sn, rcvNxt, Frag(0, []));
        assert m == all[i] by {
          UnusedIs();
        }
        outs, buf := Write(cfg.mtu, all[..i], outs, buf, m);
        assert all[..i] + [m] == all[..i + 1];
        i := i + 1;
      }
      assert all[..i] == all;
    }

    lemma UnusedIs()
      requires Valid()
      ensures Unused() == WndUnused(cfg, RcvView())
    {
    }

    /**
     * Decides whether to ask for the peer's window. A timer, of 7 seconds to 2 minutes, is set exactly while
     * the window is closed, and the window is asked for when it has run out.
     */
    method ProbePeer()
      requires Valid()
      modifies `tsProbe, `probeWait, `askSend
      ensures Valid() && ProbeView() == ProbeWindow(old(ProbeView()), rmtWnd, current)
      ensures Probed(old(ProbeView()), ProbeView(), rmtWnd, current)
    {
      hide Valid, RcvView, SndView;
      if rmtWnd == 0 {
        if probeWait == 0 {
          probeWait := PROBE_INIT;
          tsProbe := Add(current, probeWait);
        } else if TimeDiff(current, tsProbe) >= 0 {
          if probeWait < PROBE_INIT {
            probeWait := PROBE_INIT;
          }
          probeWait := W(probeWait + probeWait / 2);
          if probeWait > PROBE_LIMIT {
            probeWait := PROBE_LIMIT;
          }
          tsProbe := Add(current, probeWait);
          askSend := true;
        }
      } else {
        tsProbe := 0;
        probeWait := 0;
      }
    }

    /** Writes the window probes that are asked for. */
    method WriteProbes(ghost sent0: seq<Msg>, outs0: seq<seq<u8>>, buf0: seq<u8>, last: Ack)
      returns (outs: seq<seq<u8>>, buf: seq<u8>)
      requires Valid() && Framed(cfg.mtu, sent0, outs0, buf0) && last == LastAck(RcvView().acks)
      ensures Framed(cfg.mtu, sent0 + ProbeMsgs(cfg, RcvView(), ProbeView()), outs, buf)
    {
      hide SndFits, AcksFit, AckPairs, Framed;
      outs, buf := outs0, buf0;
      ghost var sent := sent0;
      if askSend {
        var m := Msg(cfg.conv, CMD_WASK, Unused() % TWO16, last.ts, last.sn, rcvNxt, Frag(0, []));
        outs, buf := Write(cfg.mtu, sent, outs, buf, m);
        sent := sent + [m];
      }
      if askTell {
        var m := Msg(cfg.conv, CMD_WINS, Unused() % TWO16, last.ts, last.sn, rcvNxt, Frag(0, []));
        outs, buf := Write(cfg.mtu, sent, outs, buf, m);
        sent := sent + [m];
      }
      assert sent == sent0 + ProbeMsgs(cfg, RcvView(), ProbeView());
    }

    /** Gives the first queued fragment the next number. */
    method NumberOne()
      requires SndFits() && sndQueue != []
      modifies `sndQueue, `nsndQue, `sndBuf, `nsndBuf, `sndNxt
      ensures SndFits() && SndView() == FillOne(old(SndView()), Unused(), current, rcvNxt, rxRto)
    {
      FillShort(cfg.Mss(), SndView(), Unused(), current, rcvNxt, rxRto);
      hide Short, SegsShort, Unused;
      var frag := sndQueue[0];
      sndQueue := sndQueue[1..];
      sndBuf := sndBuf + [Seg(sndNxt, frag, Unused(), current, rcvNxt, current, rxRto, 0, 0)];
      nsndQue := nsndQue - 1;
      nsndBuf := nsndBuf + 1;
      sndNxt := Add(sndNxt, 1);
    }

    /** Moves fragments from snd_queue to snd_buf while the window has room. */
    method MoveToBuf(window: u32)
      requires Valid()
      modifies `sndQueue, `nsndQue, `sndBuf, `nsndBuf, `sndNxt
      ensures Valid() && SndView() == FillWindow(old(SndView()), window, Unused(), current, rcvNxt, rxRto)
    {
      hide SndFits, AcksFit, RcvFits, Unused, TimeDiff, FillOne;
      ghost var all := FillWindow(SndView(), window, Unused(), current, rcvNxt, rxRto);
      while TimeDiff(sndNxt, Add(sndUna, window)) < 0
        invariant Valid() && FillWindow(SndView(), window, Unused(), current, rcvNxt, rxRto) == all
        decreases |sndQueue|
      {
        if |sndQueue| == 0 {
          break;
        }
        ShorterQueue(SndView(), Unused(), current, rcvNxt, rxRto);
        NumberOne();
      }
    }

    method Fill(window: u32)
      requires Valid()
      modifies `sndQueue, `nsndQue, `sndBuf, `nsndBuf, `sndNxt
      ensures Valid()
      ensures var k := old(View());
        View() == k.(snd := FillWindow(k.snd, window, WndUnused(cfg, k.rcv), k.current, k.rcv.nxt, k.rtt.rto))
    {
      assert RcvFits();
      hide Valid, FillWindow, AckPairs, CongView, ProbeView;
      MoveToBuf(window);
    }

    /** Sends every buffered segment that is new, timed out or skipped often enough. */
    method SendDue(r: Round, ghost sent0: seq<Msg>, outs0: seq<seq<u8>>, buf0: seq<u8>)
      returns (outs: seq<seq<u8>>, buf: seq<u8>, lost: bool, change: nat)
      requires Valid() && Framed(cfg.mtu, sent0, outs0, buf0)
      modifies `sndBuf, `xmit, `state
      ensures Valid() && sndBuf == ResendBuf(r, old(sndBuf))
      ensures Framed(cfg.mtu, sent0 + PushMsgs(r, old(sndBuf)), outs, buf)
      ensures lost == Lost(r, old(sndBuf)) && (change > 0) == Changed(r, old(sndBuf))
      ensures xmit == W(old(xmit) + Timeouts(r, old(sndBuf)))
      ensures state == if Dead(r, old(sndBuf)) then TWO32 - 1 else old(state)
    {
      hide W, Framed, PushMsg, PushMsgs, Timeouts, Lost, Changed, Dead, Due, Resent;
      ghost var b := sndBuf;
      outs, buf, lost, change := outs0, buf0, false, 0;
      var i := 0;
      RoundNone(r);
      WrapOnce(xmit);
      assert b[..0] == [] && sent0 + [] == sent0;
      while i < |sndBuf|
        invariant 0 <= i <= |b| == |sndBuf| && Valid()
        invariant forall j :: 0 <= j < |b| ==> sndBuf[j] == if j < i then Resent(r, b[j]) else b[j]
        invariant Framed(cfg.mtu, sent0 + PushMsgs(r, b[..i]), outs, buf)
        invariant lost == Lost(r, b[..i]) && (change > 0) == Changed(r, b[..i])
        invariant xmit == W(old(xmit) + Timeouts(r, b[..i]))
        invariant state == if Dead(r, b[..i]) then TWO32 - 1 else old(state)
      {
        RoundSnoc(r, b, i);
        WrapNext(old(xmit) + Timeouts(r, b[..i]));
        ghost var sent := sent0 + PushMsgs(r, b[..i]);
        var why: Why;
        outs, buf, why := SendOne(r, i, sent, outs, buf);
        Assoc(sent0, PushMsgs(r, b[..i]), if why.Wait? then [] else [PushMsg(r, Resent(r, b[i]))]);
        if why.Timeout? {
          lost := true;
        }
        if why.Fast? {
          change := change + 1;
        }
        i := i + 1;
      }
      assert b[..i] == b;
      assert sndBuf == ResendBuf(r, b);
    }

    /** Looks at segment i and sends it when it is due. */
    method SendOne(r: Round, i: nat, ghost sent: seq<Msg>, outs0: seq<seq<u8>>, buf0: seq<u8>)
      returns (outs: seq<seq<u8>>, buf: seq<u8>, why: Why)
      requires Valid() && Framed(cfg.mtu, sent, outs0, buf0) && i < |sndBuf|
      modifies `sndBuf, `xmit, `state
      ensures Valid() && why == Due(r, old(sndBuf)[i]) && sndBuf == old(sndBuf)[i := Resent(r, old(sndBuf)[i])]
      ensures xmit == if why.Timeout? then Add(old(xmit), 1) else old(xmit)
      ensures state == if !why.Wait? && sndBuf[i].xmit >= r.deadLink then TWO32 - 1 else old(state)
      ensures Framed(cfg.mtu, sent + (if why.Wait? then [] else [PushMsg(r, sndBuf[i])]), outs, buf)
    {
      hide Framed, PushMsg, Due, Resent;
      outs, buf := outs0, buf0;
      var after: Seg;
      why, after := SendSeg(r, sndBuf[i]);
      sndBuf := sndBuf[i := after];
      if why.Timeout? {
        xmit := Add(xmit, 1);
      }
      if why.Wait? {
        assert sent + [] == sent;
      } else {
        PushSize(r, after);
        outs, buf := Write(cfg.mtu, sent, outs, buf, PushMsg(r, after));
        if after.xmit >= r.deadLink {
          state := TWO32 - 1;
        }
      }
    }

    method Resend(r: Round, ghost sent0: seq<Msg>, outs0: seq<seq<u8>>, buf0: seq<u8>)
      returns (outs: seq<seq<u8>>, buf: seq<u8>, lost: bool, change: nat)
      requires Valid() && Framed(cfg.mtu, sent0, outs0, buf0)
      modifies `sndBuf, `xmit, `state
      ensures Valid()
      ensures var k := old(View()); var b := k.snd.buf;
        && View() == k.(snd := k.snd.(buf := ResendBuf(r, b)),
                        xmit := W(k.xmit + Timeouts(r, b)),
                        state := if Dead(r, b) then TWO32 - 1 else k.state)
        && Framed(cfg.mtu, sent0 + PushMsgs(r, b), outs, buf)
        && lost == Lost(r, b) && (change > 0) == Changed(r, b)
    {
      hide W, Framed, PushMsgs, Timeouts, Lost, Changed, Dead, ResendBuf, Short, SegsShort, AckPairs;
      outs, buf, lost, change := SendDue(r, sent0, outs0, buf0);
    }

    /** One look of the flush loop at one segment. */
    method SendSeg(r: Round, s: Seg) returns (why: Why, after: Seg)
      ensures why == Due(r, s) && after == Resent(r, s) && after.frag == s.frag
    {
      after := s;
      why := Wait;
      if s.xmit == 0 {
        why := First;
        after := after.(xmit := Add(after.xmit, 1), rto := r.rto);
        after := after.(resendts := Add(Add(r.current, after.rto), r.rtomin));
      } else if TimeDiff(r.current, s.resendts) >= 0 {
        why := Timeout;
        after := after.(xmit := Add(after.xmit, 1));
        if r.nodelay == 0 {
          after := after.(rto := Add(after.rto, Max(after.rto, r.rto)));
        } else {
          var step := if r.nodelay < 2 then Signed(after.rto) else r.rto;
          after := after.(rto := W(after.rto + Half(step)));
        }
        after := after.(resendts := Add(r.current, after.rto));
      } else if s.fastack >= r.resent {
        if Signed(s.xmit) <= r.fastlimit || r.fastlimit <= 0 {
          why := Fast;
          after := after.(xmit := Add(after.xmit, 1), fastack := 0);
          after := after.(resendts := Add(r.current, after.rto));
        }
      }
      if !why.Wait? {
        after := after.(ts := r.current, wnd := r.wnd, una := r.una);
      }
    }

    /** Window and threshold after losses. */
    method AdjustWindow(change: bool, lost: bool, window: u32, resent: u32)
      requires cfg.Ok()
      modifies `ssthresh, `cwnd, `incr
      ensures CongView() == AfterFlush(cfg.Mss(), old(CongView()), change, lost, Off(sndNxt, sndUna), window, resent)
    {
      hide W, Off;
      if change {
        var inflight := Off(sndNxt, sndUna);
        ssthresh := inflight / 2;
        if ssthresh < THRESH_MIN {
          ssthresh := THRESH_MIN;
        }
        cwnd := Add(ssthresh, resent);
        incr := W(cwnd * cfg.Mss());
      }
      if lost {
        ssthresh := window / 2;
        if ssthresh < THRESH_MIN {
          ssthresh := THRESH_MIN;
        }
        cwnd := 1;
        incr := cfg.Mss();
      }
      if cwnd < 1 {
        cwnd := 1;
        incr := cfg.Mss();
      }
    }

    /** The same, for the whole control block. */
    method AfterLosses(change: bool, lost: bool, window: u32, resent: u32)
      requires Valid()
      modifies `ssthresh, `cwnd, `incr
      ensures Valid()
      ensures var k := old(View());
        View() == k.(cong := AfterFlush(cfg.Mss(), k.cong, change, lost, Off(k.snd.nxt, k.snd.una), window, resent))
    {
      CfgOk();
      hide Valid, RcvView, CongView, RttView, ProbeView, AfterFlush;
      AdjustWindow(change, lost, window, resent);
    }

    /** Decides on a probe and writes those asked for. */
    method Probing(ghost sent: seq<Msg>, outs0: seq<seq<u8>>, buf0: seq<u8>, last: Ack)
      returns (outs: seq<seq<u8>>, buf: seq<u8>)
      requires Valid() && Framed(cfg.mtu, sent, outs0, buf0) && last == LastAck(RcvView().acks)
      modifies `tsProbe, `probeWait, `askSend
      ensures Valid() && ProbeView() == ProbeWindow(old(ProbeView()), rmtWnd, current)
      ensures Framed(cfg.mtu, sent + ProbeMsgs(cfg, RcvView(), ProbeView()), outs, buf)
    {
      hide Framed, Probed, ProbeWindow, ProbeMsgs;
      ProbePeer();
      outs, buf := WriteProbes(sent, outs0, buf0, last);
    }

    /** What has been written is no longer pending. */
    method ClearPending()
      requires Valid()
      modifies `ackcount, `askSend, `askTell
      ensures Valid() && RcvView() == old(RcvView()).(acks := [])
      ensures ProbeView() == old(ProbeView()).(askSend := false, askTell := false)
    {
      ackcount := 0;
      askSend, askTell := false, false;
    }

    /** The acknowledgements and probes of a flush. */
    method WriteControl() returns (outs: seq<seq<u8>>, buf: seq<u8>)
      requires Valid()
      modifies `ackcount, `askSend, `askTell, `tsProbe, `probeWait
      ensures Valid() && RcvView() == old(RcvView()).(acks := [])
      ensures var p := ProbeWindow(old(ProbeView()), rmtWnd, current);
        && ProbeView() == p.(askSend := false, askTell := false)
        && Framed(cfg.mtu, AckMsgs(cfg, old(RcvView())) + ProbeMsgs(cfg, old(RcvView()), p), outs, buf)
    {
      hide Valid, Framed, ProbeWindow, AckMsgs, ProbeMsgs, RcvView;
      var last: Ack;
      outs, buf, last := WriteAcks();
      outs, buf := Probing(AckMsgs(cfg, RcvView()), outs, buf, last);
      ClearPending();
    }

    /** The same, for the whole control block. */
    method FlushControl() returns (outs: seq<seq<u8>>, buf: seq<u8>)
      requires Valid()
      modifies `ackcount, `askSend, `askTell, `tsProbe, `probeWait
      ensures Valid() && Framed(cfg.mtu, ControlMsgs(cfg, old(View())), outs, buf)
      ensures View() == ControlDone(old(View()))
    {
      hide Valid, Framed, ProbeWindow, AckMsgs, ProbeMsgs, SndView, RcvView, RttView, ProbeView;
      outs, buf := WriteControl();
    }

    method SendWindowNow() returns (window: u32)
      requires Valid()
      ensures window == SendWindow(cfg, View().cong)
    {
      window := Min(cfg.sndWnd, rmtWnd);
      if !cfg.nocwnd {
        window := Min(cwnd, window);
      }
    }

    method RoundNow() returns (r: Round)
      requires Valid()
      ensures cfg.Ok() && r == RoundOf(cfg, View())
    {
      r := Round(cfg.conv, current, Unused(), rcvNxt, rxRto, if cfg.nodelay == 0 then rxRto / 8 else 0,
                 if cfg.fastresend > 0 then cfg.fastresend else TWO32 - 1,
                 cfg.nodelay, cfg.fastlimit, cfg.deadLink);
    }

    /** Puts out what is left in the buffer. */
    method PutRest(ghost sent: seq<Msg>, outs0: seq<seq<u8>>, buf: seq<u8>) returns (outs: seq<seq<u8>>)
      requires Framed(cfg.mtu, sent, outs0, buf)
      ensures AllEncodable(Pack(cfg.mtu, [], sent)) && outs == Outputs(cfg.mtu, sent)
    {
      FramedDone(cfg.mtu, sent, outs0, buf);
      outs := if |buf| > 0 then outs0 + [buf] else outs0;
    }

    /** The data segments of a flush, the rest of the buffer, and the window adjustment. */
    method FlushData(ghost sent: seq<Msg>, outs0: seq<seq<u8>>, buf0: seq<u8>) returns (outs: seq<seq<u8>>)
      requires Valid() && cfg.Ok() && Framed(cfg.mtu, sent, outs0, buf0)
      modifies this
      ensures Valid() && View() == DataDone(cfg, old(View()))
      ensures var ms := sent + DataMsgs(cfg, old(View()));
        AllEncodable(Pack(cfg.mtu, [], ms)) && outs == Outputs(cfg.mtu, ms)
    {
      hide View, Valid, Framed, FillWindow, AfterFlush, PushMsgs, ResendBuf, Lost, Changed, Dead, Timeouts, W,
        SendWindow, Off, RoundOf, Pack, Outputs, AllEncodable;
      var window := SendWindowNow();
      var r := RoundNow();
      Fill(window);
      ghost var filled := View().snd;
      var lost: bool, change: nat;
      var buf: seq<u8>;
      outs, buf, lost, change := Resend(r, sent, outs0, buf0);
      outs := PutRest(sent + PushMsgs(r, filled.buf), outs, buf);
      AfterLosses(change > 0, lost, window, r.resent);
    }

    method IsUpdated() returns (b: bool)
      requires Valid()
      ensures cfg.Ok() && b == View().updated
    {
      b := updated;
    }

    /** Returns the datagrams handed to the output hook. */
    method Flush() returns (outs: seq<seq<u8>>)
      requires Valid()
      modifies this
      ensures cfg.Ok() && Valid() && View() == KcpSpec.Flush(cfg, old(View()))
      ensures var ms := FlushMsgs(cfg, old(View()));
        AllEncodable(Pack(cfg.mtu, [], ms)) && outs == Outputs(cfg.mtu, ms)
    {
      hide View, Valid, Framed, ControlMsgs, ControlDone, DataDone, DataMsgs, Pack, Outputs, AllEncodable, PushMsgs,
        RoundOf, FilledSnd;
      var running := IsUpdated();
      if !running {
        PackNothing(cfg.mtu);
        return [];
      }
      FlushCompose(cfg, View());
      hide KcpSpec.Flush, FlushMsgs;
      ghost var sent := ControlMsgs(cfg, View());
      var buf: seq<u8>;
      outs, buf := FlushControl();
      outs := FlushData(sent, outs, buf);
    }

    // ---------- ikcp_update, ikcp_check ----------

    /** Sets the clock and the time of the next flush; says whether one is due now. */
    method SetClock(now: u32) returns (due: bool)
      modifies `current, `updated, `tsFlush
      ensures current == now && updated
      ensures tsFlush == NextFlush(cfg, old(tsFlush), old(updated), now)
      ensures due == (TimeDiff(now, DueSince(old(tsFlush), old(updated), now)) >= 0)
    {
      hide TimeDiff, Add;
      SameTime(now);
      current := now;
      if !updated {
        updated := true;
        tsFlush := current;
      }
      var slap := TimeDiff(current, tsFlush);
      if slap >= 10000 || slap < -10000 {
        tsFlush := current;
        slap := 0;
      }
      due := slap >= 0;
      if due {
        tsFlush := Add(tsFlush, cfg.interval);
        if TimeDiff(current, tsFlush) >= 0 {
          tsFlush := Add(current, cfg.interval);
        }
      }
    }

    /** The same, for the whole control block. */
    method TickClock(now: u32) returns (due: bool)
      requires Valid()
      modifies `current, `updated, `tsFlush
      ensures Valid() && View() == Tick(cfg, old(View()), now)
      ensures due == FlushDue(old(View()), now)
    {
      hide Valid, SndView, RcvView, CongView, RttView, ProbeView, Tick, FlushDue, NextFlush, DueSince;
      TickIs(cfg, View(), now);
      due := SetClock(now);
    }

    method Update(now: u32) returns (outs: seq<seq<u8>>)
      requires Valid()
      modifies this
      ensures cfg.Ok() && Valid() && View() == KcpSpec.Update(cfg, old(View()), now)
      ensures var ms := UpdateMsgs(cfg, old(View()), now);
        AllEncodable(Pack(cfg.mtu, [], ms)) && outs == Outputs(cfg.mtu, ms)
    {
      assert cfg.Ok();
      hide View, Valid, KcpSpec.Flush, FlushMsgs, Tick, FlushDue, Outputs, Pack, AllEncodable;
      var due := TickClock(now);
      if due {
        outs := Flush();
      } else {
        PackNothing(cfg.mtu);
        outs := [];
      }
    }

    method CheckTime(now: u32) returns (t: u32)
      requires Valid()
      ensures t == Check(cfg, View(), now)
    {
      if !updated {
        return now;
      }
      var due := tsFlush;
      if TimeDiff(now, due) >= 10000 || TimeDiff(now, due) < -10000 {
        due := now;
      }
      if TimeDiff(now, due) >= 0 {
        return now;
      }
      var tmFlush := TimeDiff(due, now);
      var tmPacket := TWO31 - 1;
      var i := 0;
      assert sndBuf[0..] == sndBuf;
      while i < |sndBuf|
        invariant 0 <= i <= |sndBuf| && tmPacket > 0
        invariant NextResend(sndBuf, now, TWO31 - 1) == NextResend(sndBuf[i..], now, tmPacket)
      {
        var diff := TimeDiff(sndBuf[i].resendts, now);
        if diff <= 0 {
          return now;
        }
        if diff < tmPacket {
          tmPacket := diff;
        }
        i := i + 1;
      }
      var minimal: u32 := if tmPacket < tmFlush then tmPacket else tmFlush;
      if minimal >= cfg.interval {
        minimal := cfg.interval;
      }
      t := Add(now, minimal);
    }
  }

  // ---------- the output buffer ----------

  /** Having written the messages sent, outs was put out and buf is what the buffer holds. */
  ghost predicate Framed(mtu: nat, sent: seq<Msg>, outs: seq<seq<u8>>, buf: seq<u8>) {
    var f := PutAll(mtu, sent);
    && AllEncodable(f.done) && Encodable(f.cur)
    && outs == EncodeEach(f.done) && buf == EncodeAll(f.cur) && |buf| <= mtu
  }

  lemma NothingFramed(mtu: nat)
    ensures Framed(mtu, [], [], [])
  {
  }

  /** Puts the buffer out when m does not fit behind it, then writes m. */
  method Write(mtu: nat, ghost sent: seq<Msg>, outs0: seq<seq<u8>>, buf0: seq<u8>, m: Msg)
    returns (outs: seq<seq<u8>>, buf: seq<u8>)
    requires Framed(mtu, sent, outs0, buf0) && MsgSize(m) <= mtu < TWO31
    ensures Framed(mtu, sent + [m], outs, buf)
  {
    hide EncodeMsg;
    outs, buf := outs0, buf0;
    ghost var f := PutAll(mtu, sent);
    PutOneMore(mtu, sent, m);
    EncodeSize(f.cur);
    if |buf| + MsgSize(m) > mtu {
      if |buf| != 0 {
        outs := outs + [buf];
      }
      buf := [];
      assert EncodeAll([m]) == EncodeMsg(m) + [];
    } else {
      EncodeConcat(f.cur, [m]);
      assert EncodeAll([m]) == EncodeMsg(m) + [];
    }
    buf := buf + EncodeMsg(m);
    assert outs == EncodeEach(PutAll(mtu, sent + [m]).done);
  }

  lemma FramedDone(mtu: nat, sent: seq<Msg>, outs: seq<seq<u8>>, buf: seq<u8>)
    requires Framed(mtu, sent, outs, buf)
    ensures var ps := Pack(mtu, [], sent);
      AllEncodable(ps) && EncodeEach(ps) == if |buf| > 0 then outs + [buf] else outs
  {
    hide EncodeMsg, Pack;
    PutAllCorrect(mtu, sent);
    var f := PutAll(mtu, sent);
    EncodeSize(f.cur);
  }

  lemma PackNothing(mtu: nat)
    ensures AllEncodable(Pack(mtu, [], [])) && Outputs(mtu, []) == []
  {
  }

  lemma FillShort(mss: int, snd: Snd, wnd: u32, current: u32, una: u32, rto: u32)
    requires Short(mss, snd.queue) && SegsShort(mss, snd.buf) && snd.queue != []
    ensures var s := FillOne(snd, wnd, current, una, rto); Short(mss, s.queue) && SegsShort(mss, s.buf)
  {
  }

  lemma ShorterQueue(snd: Snd, wnd: u32, current: u32, una: u32, rto: u32)
    requires snd.queue != []
    ensures |FillOne(snd, wnd, current, una, rto).queue| < |snd.queue|
  {
  }

  lemma PushSize(r: Round, s: Seg)
    ensures MsgSize(PushMsg(r, s)) == OVERHEAD + |s.frag.data|
  {
  }

  // ---------- one more segment in a round ----------

  lemma RoundNone(r: Round)
    ensures PushMsgs(r, []) == [] && Timeouts(r, []) == 0
    ensures !Lost(r, []) && !Changed(r, []) && !Dead(r, [])
  {
  }

  lemma RoundSnoc(r: Round, b: seq<Seg>, i: nat)
    requires i < |b|
    ensures var c, d, why := b[..i], b[..i + 1], Due(r, b[i]);
      && PushMsgs(r, d) == PushMsgs(r, c) + (if why.Wait? then [] else [PushMsg(r, Resent(r, b[i]))])
      && Timeouts(r, d) == Timeouts(r, c) + (if why.Timeout? then 1 else 0)
      && Lost(r, d) == (Lost(r, c) || why.Timeout?)
      && Changed(r, d) == (Changed(r, c) || why.Fast?)
      && Dead(r, d) == (Dead(r, c) || (!why.Wait? && Resent(r, b[i]).xmit >= r.deadLink))
  {
    hide Due, Resent, PushMsg;
    var c := b[..i];
    assert b[..i + 1] == c + [b[i]];
    PushMsgsConcat(r, c, [b[i]]);
    AnyOne(r, c, b[i]);
  }

  lemma AnyOne(r: Round, c: seq<Seg>, s: Seg)
    ensures Lost(r, c + [s]) == (Lost(r, c) || Due(r, s).Timeout?)
    ensures Changed(r, c + [s]) == (Changed(r, c) || Due(r, s).Fast?)
    ensures Dead(r, c + [s]) == (Dead(r, c) || (!Due(r, s).Wait? && Resent(r, s).xmit >= r.deadLink))
  {
    hide Due, Resent;
    var d := c + [s];
    assert d[|c|] == s && forall i :: 0 <= i < |c| ==> d[i] == c[i];
  }

  lemma {:induction false} PushMsgsConcat(r: Round, c: seq<Seg>, d: seq<Seg>)
    ensures PushMsgs(r, c + d) == PushMsgs(r, c) + PushMsgs(r, d)
    ensures Timeouts(r, c + d) == Timeouts(r, c) + Timeouts(r, d)
  {
    hide Due, Resent, PushMsg;
    if c == [] {
      assert c + d == d;
    } else {
      SplitConcat(c, d);
      PushMsgsConcat(r, c[1..], d);
      Assoc(if Due(r, c[0]).Wait? then [] else [PushMsg(r, Resent(r, c[0]))], PushMsgs(r, c[1..]), PushMsgs(r, d));
    }
  }

  lemma WrapOnce(x: u32)
    ensures W(x + 0) == x
  {
  }

  lemma WrapNext(x: int)
    ensures Add(W(x), 1) == W(x + 1)
  {
  }

  lemma SamePairs(a: seq<u32>, b: seq<u32>, count: nat)
    requires 2 * count <= |a| && 2 * count <= |b| && a[..2 * count] == b[..2 * count]
    ensures AckPairs(a, count) == AckPairs(b, count)
  {
  }

  lemma WithoutStep(b: seq<Seg>, i: nat, sn: u32)
    requires i < |b|
    ensures b[..i] + Without(b[i..], sn) ==
      if b[i].sn == sn then b[..i] + b[i + 1..]
      else if TimeDiff(sn, b[i].sn) < 0 then b
      else b[..i + 1] + Without(b[i + 1..], sn)
  {
  }

  lemma WithoutEnd(b: seq<Seg>, sn: u32)
    ensures b[..|b|] + Without(b[|b|..], sn) == b
  {
  }

  function Bumped(s: Seg, sn: u32): Seg {
    if sn != s.sn then s.(fastack := Add(s.fastack, 1)) else s
  }

  lemma {:induction false} BumpIs(b: seq<Seg>, sn: u32, c: nat)
    requires c <= |b| && forall j :: 0 <= j < c ==> TimeDiff(sn, b[j].sn) >= 0
    requires c < |b| ==> TimeDiff(sn, b[c].sn) < 0
    ensures var r := BumpFastack(b, sn);
      |r| == |b| && forall j :: 0 <= j < |b| ==> r[j] == if j < c then Bumped(b[j], sn) else b[j]
  {
    hide TimeDiff;
    if c > 0 {
      BumpIs(b[1..], sn, c - 1);
    }
  }

  lemma FragmentsStep(mss: int, stream: bool, buf: seq<u8>, count: nat)
    requires mss > 0 && count <= 256
    ensures var size := if |buf| > mss then mss else |buf|;
      Fragments(mss, stream, buf, count) ==
        if count == 0 then []
        else [Frag(if stream then 0 else count - 1, buf[..size])] + Fragments(mss, stream, buf[size..], count - 1)
  {
  }

  lemma ShortJoin(mss: int, a: seq<Frag>, b: seq<Frag>)
    requires Short(mss, a) && Short(mss, b)
    ensures Short(mss, a + b)
  {
  }

  lemma SegsShortWithout(mss: int, b: seq<Seg>, i: nat)
    requires SegsShort(mss, b) && i < |b|
    ensures SegsShort(mss, b[..i] + b[i + 1..])
  {
  }

  lemma SegsShortSame(mss: int, b: seq<Seg>, c: seq<Seg>)
    requires SegsShort(mss, b) && |b| == |c| && forall i :: 0 <= i < |b| ==> c[i] == b[i].(fastack := c[i].fastack)
    ensures SegsShort(mss, c)
  {
  }

  lemma RecvMeans(cfg: Cfg, k: Pcb, len: int)
    ensures var q := k.rcv.queue; var peek := PeekSize(q); var n := FirstMessage(q);
      KcpSpec.Recv(cfg, k, len) ==
        if q == [] then Received(k, -1, [])
        else if peek < 0 then Received(k, -2, [])
        else if peek > (if len < 0 then -len else len) then Received(k, -3, [])
        else Received(Taken(cfg, k, n, len < 0), |Bytes(q[..n])|, Bytes(q[..n]))
  {
    hide PeekSize, FirstMessage, Bytes, Drain;
  }

  lemma PeekMeans(q: seq<Frag>)
    requires PeekSize(q) >= 0
    ensures PeekSize(q) == |Bytes(q[..FirstMessage(q)])|
  {
  }

  lemma BytesSnoc(q: seq<Frag>, i: nat)
    requires i < |q|
    ensures Bytes(q[..i + 1]) == Bytes(q[..i]) + q[i].data
  {
    assert q[..i + 1] == q[..i] + [q[i]];
    BytesConcat(q[..i], [q[i]]);
    assert Bytes([q[i]]) == q[i].data + [] == q[i].data;
  }
}
