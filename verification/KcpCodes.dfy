// What ikcp_send and ikcp_recv return, and how tightly ikcp_send packs what it queues.
module KcpCodes {
  import opened Word
  import opened Wire
  import opened KcpSpec
  import opened KcpFrag
  import opened KcpTiming
  import opened KcpLocal
  import opened KcpAlone

  // ---------- ikcp_send ----------

  /** No fewer fragments would do. */
  lemma FragCountLeast(mss: int, len: nat)
    requires mss > 0
    ensures var n := FragCount(mss, len); n == 1 || (n - 1) * mss < len
  {
    if len > mss {
      CeilDiv(len, mss, FragCount(mss, len));
    }
  }

  /** All fragments but the last are full. */
  lemma {:induction false} FragmentsFull(mss: int, stream: bool, buf: seq<u8>, count: nat)
    requires mss > 0 && count <= 256 && (count <= 1 || (count - 1) * mss < |buf|)
    ensures var fs := Fragments(mss, stream, buf, count);
      |fs| == count && forall i :: 0 <= i < count - 1 ==> |fs[i].data| == mss
  {
    if count > 1 {
      assert (count - 1) * mss == (count - 2) * mss + mss;
      MulNonNeg(count - 2, mss);
      FragmentsFull(mss, stream, buf[mss..], count - 1);
      var tail := Fragments(mss, stream, buf[mss..], count - 1);
      assert Fragments(mss, stream, buf, count) == [Frag(if stream then 0 else count - 1, buf[..mss])] + tail;
      hide Fragments;
    }
  }

  /** The bytes that stream mode adds to the last fragment queued: as many as it has room for. */
  function Joined(cfg: Cfg, queue: seq<Frag>, buf: seq<u8>): (n: nat)
    ensures n <= |buf|
  {
    if cfg.stream && queue != [] && |queue[|queue| - 1].data| < cfg.mtu - 24
    then Min(cfg.mtu - 24 - |queue[|queue| - 1].data|, |buf|) else 0
  }

  /** The last fragment takes the bytes that join it and then has no follower; in message mode it is left as it is. */
  predicate Extended(cfg: Cfg, last: Frag, r: Frag, bytes: seq<u8>) {
    r.data == last.data + bytes && r.frg == if cfg.stream && |last.data| < cfg.mtu - 24 then 0 else last.frg
  }

  /** Of the fragments from i on all but the last are full. */
  predicate FullFrom(mss: int, q: seq<Frag>, i: nat) {
    forall j :: i <= j < |q| - 1 ==> |q[j].data| == mss
  }

  /**
   * ikcp_send accepts a buffer exactly if what does not join the last fragment fits 127 segments, and queues that
   * in as few fragments as it takes, one at least in message mode, all but the last of them full.
   */
  lemma SendExactly(cfg: Cfg, queue: seq<Frag>, buf: seq<u8>)
    requires cfg.Ok()
    ensures var r, mss, x := SendQueue(cfg, queue, buf), cfg.mtu - 24, Joined(cfg, queue, buf);
      var n, left := |r.queue| - |queue|, |buf| - x;
      && r.code == (if left <= 127 * mss then 0 else -2)
      && 0 <= n && (n == 0 <==> r.code != 0 || (cfg.stream && left == 0))
      && (n > 0 ==> left <= n * mss && (n == 1 || (n - 1) * mss < left))
      && (forall i :: 0 <= i < |queue| - 1 ==> r.queue[i] == queue[i])
      && (queue != [] ==> Extended(cfg, queue[|queue| - 1], r.queue[|queue| - 1], buf[..x]))
      && FullFrom(mss, r.queue, |queue|)
  {
    hide Fragments, FragCount, FullFrom;
    var q, x, mss := TopUpQueue(cfg, queue, buf), Joined(cfg, queue, buf), cfg.mtu - 24;
    var rest := buf[x..];
    JoinedQueue(cfg, queue, buf);
    NothingAfter(mss, q, |queue|);
    CountFits(mss, |rest|);
    if !(cfg.stream && rest == []) && |rest| <= 127 * mss {
      var count := FragCount(mss, |rest|);
      var fs := Fragments(mss, cfg.stream, rest, count);
      CountedFull(mss, cfg.stream, rest);
      Appended(mss, q, fs);
    }
  }

  /** The top-up changes the last fragment only. */
  lemma JoinedQueue(cfg: Cfg, queue: seq<Frag>, buf: seq<u8>)
    requires cfg.Ok()
    ensures var q := TopUpQueue(cfg, queue, buf);
      && TopUp(cfg, queue, buf) == Joined(cfg, queue, buf)
      && |q| == |queue| && (forall i :: 0 <= i < |queue| - 1 ==> q[i] == queue[i])
      && (queue != [] ==> Extended(cfg, queue[|queue| - 1], q[|queue| - 1], buf[..Joined(cfg, queue, buf)]))
  {
    assert queue != [] ==> queue[|queue| - 1].data + [] == queue[|queue| - 1].data;
  }

  lemma NothingAfter(mss: int, q: seq<Frag>, i: nat)
    requires i == |q|
    ensures FullFrom(mss, q, i)
  {
  }

  lemma Appended(mss: int, q: seq<Frag>, fs: seq<Frag>)
    requires forall i :: 0 <= i < |fs| - 1 ==> |fs[i].data| == mss
    ensures FullFrom(mss, q + fs, |q|)
    ensures forall i :: 0 <= i < |q| ==> (q + fs)[i] == q[i]
  {
  }

  /** 127 fragments or fewer are counted exactly for what fits them. */
  lemma CountFits(mss: int, len: nat)
    requires mss > 0
    ensures var n := FragCount(mss, len);
      n >= 1 && (n <= 127 <==> len <= 127 * mss) && len <= n * mss && (n == 1 || (n - 1) * mss < len)
  {
    FragCountEnough(mss, len);
    FragCountLeast(mss, len);
    hide FragCount;
    var n := FragCount(mss, len);
    if n <= 127 {
      MulMono(n, 127, mss);
    } else {
      MulMono(127, n - 1, mss);
    }
  }

  lemma CountedFull(mss: int, stream: bool, buf: seq<u8>)
    requires mss > 0 && |buf| <= 127 * mss
    ensures var n := FragCount(mss, |buf|); var fs := Fragments(mss, stream, buf, n);
      |fs| == n && forall i :: 0 <= i < n - 1 ==> |fs[i].data| == mss
  {
    CountFits(mss, |buf|);
    hide FragCount, Fragments;
    FragmentsFull(mss, stream, buf, FragCount(mss, |buf|));
  }

  /** What is queued in stream mode: no fragment is longer than a segment, and all but the last are full. */
  predicate Packed(cfg: Cfg, q: seq<Frag>) {
    Short(cfg.mtu - 24, q) && FullFrom(cfg.mtu - 24, q, 0)
  }

  lemma SendPacks(cfg: Cfg, q: seq<Frag>, buf: seq<u8>)
    requires cfg.Ok() && cfg.stream && Packed(cfg, q)
    ensures Packed(cfg, SendQueue(cfg, q, buf).queue)
  {
    SendExactly(cfg, q, buf);
    SendShort(cfg, q, buf);
    hide SendQueue;
  }

  lemma SendShort(cfg: Cfg, q: seq<Frag>, buf: seq<u8>)
    requires cfg.Ok() && Short(cfg.mtu - 24, q)
    ensures Short(cfg.mtu - 24, SendQueue(cfg, q, buf).queue)
  {
    JoinedQueue(cfg, q, buf);
    var rest := buf[TopUp(cfg, q, buf)..];
    var count := FragCount(cfg.Mss(), |rest|);
    if count < WND_RCV {
      FragmentsShape(cfg.Mss(), cfg.stream, rest, count);
    }
    hide Fragments, FragCount, TopUp, TopUpQueue;
  }

  lemma {:induction false} InputMsgsQueue(cfg: Cfg, k: Pcb, ms: seq<Msg>)
    ensures InputMsgs(cfg, k, ms).snd.queue == k.snd.queue
    decreases |ms|
  {
    hide InputRcv, UpdateAck, ParseUna, Without, Outstanding;
    if ms != [] {
      InputMsgsQueue(cfg, InputMsg(cfg, k, ms[0]), ms[1..]);
    }
  }

  lemma InputQueue(cfg: Cfg, k: Pcb, bytes: seq<u8>)
    requires cfg.Ok()
    ensures Input(cfg, k, bytes).k.snd.queue == k.snd.queue
  {
    InputMsgsQueue(cfg, k, Parse(cfg.conv, bytes).ms);
    hide InputMsgs, Parse, LatestAck, Grow, BumpFastack;
  }

  lemma FlushQueue(cfg: Cfg, k: Pcb)
    requires cfg.Ok() && LocalInv(cfg, k) && Packed(cfg, k.snd.queue)
    ensures Packed(cfg, Flush(cfg, k).snd.queue)
  {
    if k.updated {
      FillWindowCorrect(k.snd, SendWindow(cfg, k.cong), cfg.sndWnd, WndUnused(cfg, k.rcv), k.current, k.rcv.nxt,
                        k.rtt.rto);
      hide FillWindow, SndOk, RcvOk, Off, AfterFlush;
    }
  }

  lemma DoPacks(cfg: Cfg, k: Pcb, c: Call)
    requires cfg.Ok() && cfg.stream && LocalInv(cfg, k) && Packed(cfg, k.snd.queue)
    ensures Packed(cfg, Do(cfg, k, c).snd.queue)
  {
    hide SendQueue, Input, Flush, PeekSize, FirstMessage, Drain, Bytes, Packed, FlushDue;
    match c
    case Sending(buf) => SendPacks(cfg, k.snd.queue, buf);
    case Receiving(len) =>
    case Arriving(bytes) => InputQueue(cfg, k, bytes);
    case Flushing => FlushQueue(cfg, k);
    case Updating(now) => FlushQueue(cfg, Tick(cfg, k, now));
  }

  /** After any calls in stream mode all fragments queued are full, but for the last one. */
  lemma {:induction false} QueuePacked(cfg: Cfg, calls: seq<Call>)
    requires cfg.Ok() && cfg.stream
    ensures Packed(cfg, After(cfg, calls).snd.queue)
  {
    hide Do, LocalInv;
    if calls != [] {
      var init := calls[..|calls| - 1];
      QueuePacked(cfg, init);
      AnyCalls(cfg, init);
      DoPacks(cfg, After(cfg, init), calls[|calls| - 1]);
    }
  }

  // ---------- ikcp_recv ----------

  /**
   * ikcp_recv returns -1 for an empty queue, -2 while the first message is not complete, and -3 for a buffer too
   * small, all without any effect. Else it returns the first message, takes it off unless it only peeks, lets in
   * what has become next in line, and is to tell the window if the queue was full and has room now.
   */
  lemma RecvExactly(cfg: Cfg, k: Pcb, len: int)
    requires cfg.Ok() && RcvOk(k.rcv, cfg.rcvWnd) && CountsDown(k.rcv.queue)
    ensures var q, r := k.rcv.queue, Recv(cfg, k, len);
      if q == [] then r == Received(k, -1, [])
      else if |q| <= q[0].frg then r == Received(k, -2, [])
      else
        var n := q[0].frg + 1; var m := Bytes(q[..n]);
        if |m| > Max(len, -len) then r == Received(k, -3, [])
        else
          var left := if len < 0 then q else q[n..];
          && r.code == |m| && r.data == m
          && r.k == k.(rcv := r.k.rcv, probe := r.k.probe) && r.k.probe == k.probe.(askTell := r.k.probe.askTell)
          && Moved(k.rcv.(queue := left), r.k.rcv) && Drained(r.k.rcv, cfg.rcvWnd)
          && (r.k.probe.askTell <==> k.probe.askTell || |r.k.rcv.queue| < cfg.rcvWnd <= |q|)
  {
    hide Drain, Bytes, AscR, Moved, CountsDown, FirstMessage;
    var q := k.rcv.queue;
    if q != [] {
      FirstMessageCorrect(q);
      if |q| > q[0].frg {
        var n := q[0].frg + 1;
        PeekIs(q);
        DrainCorrect(k.rcv, cfg.rcvWnd);
        DrainCorrect(k.rcv.(queue := q[n..]), cfg.rcvWnd);
      }
    }
  }

  lemma PeekIs(q: seq<Frag>)
    requires q != [] && |q| > q[0].frg && FirstMessage(q) == q[0].frg + 1
    ensures PeekSize(q) == |Bytes(q[..q[0].frg + 1])|
  {
    if q[0].frg == 0 {
      assert q[..1] == [q[0]];
      assert Bytes([q[0]]) == q[0].data + Bytes([]);
    }
  }

  // ---------- ikcp_input ----------

  /** ikcp_input returns -1 for less than a header, and else what is said of the rest it does not take in. */
  lemma InputExactly(cfg: Cfg, k: Pcb, bytes: seq<u8>)
    requires cfg.Ok()
    ensures var ms := Parse(cfg.conv, bytes).ms;
      && Size(ms) <= |bytes|
      && Input(cfg, k, bytes).code == if |bytes| < 24 then -1 else Verdict(cfg.conv, bytes[Size(ms)..])
  {
    hide Parse, InputMsgs, InputEnd, LatestAck, Verdict;
    RejectedFor(cfg.conv, bytes);
  }
}
