// One endpoint against any environment: whatever is called in whatever order, with any bytes from the
// network and any clock.
module KcpAlone {
  import opened Word
  import opened Wire
  import opened KcpSpec
  import opened KcpLocal
  import opened KcpTiming

  datatype Call = Sending(buf: seq<u8>) | Receiving(len: int) | Arriving(bytes: seq<u8>) | Flushing | Updating(now: u32)

  function Do(cfg: Cfg, k: Pcb, c: Call): Pcb
    requires cfg.Ok()
  {
    match c
    case Sending(buf) => k.(snd := k.snd.(queue := SendQueue(cfg, k.snd.queue, buf).queue))
    case Receiving(len) => Recv(cfg, k, len).k
    case Arriving(bytes) => Input(cfg, k, bytes).k
    case Flushing => Flush(cfg, k)
    case Updating(now) => Update(cfg, k, now)
  }

  function After(cfg: Cfg, calls: seq<Call>): Pcb
    requires cfg.Ok()
  {
    if calls == [] then Create() else Do(cfg, After(cfg, calls[..|calls| - 1]), calls[|calls| - 1])
  }

  lemma DoKeepsLocal(cfg: Cfg, k: Pcb, c: Call)
    requires cfg.Ok() && LocalInv(cfg, k)
    ensures LocalInv(cfg, Do(cfg, k, c))
  {
    hide Input, Flush, Update, Recv, SendQueue, Asc, AscR, Off;
    match c
    case Sending(buf) =>
    case Receiving(len) => RecvOk(cfg, k, len);
    case Arriving(bytes) => AnyBytesKeepInvariant(cfg, k, bytes);
    case Flushing => FlushOk(cfg, k);
    case Updating(now) => UpdateOk(cfg, k, now);
  }

  lemma InputRto(cfg: Cfg, k: Pcb, bytes: seq<u8>)
    requires cfg.Ok() && RtoOk(k)
    ensures RtoOk(Input(cfg, k, bytes).k)
  {
    hide Parse, Grow, LatestAck, InputMsgs, BumpFastack;
    InputKeepsRto(cfg, k, Parse(cfg.conv, bytes).ms);
  }

  lemma DoKeepsRto(cfg: Cfg, k: Pcb, c: Call)
    requires cfg.Ok() && RtoOk(k)
    ensures RtoOk(Do(cfg, k, c))
  {
    hide Input, SendQueue, FillWindow, PeekSize, FirstMessage, Drain, AfterFlush, ResendBuf, Bytes;
    if c.Arriving? {
      InputRto(cfg, k, c.bytes);
    }
  }

  /**
   * Whatever happens to an endpoint, its buffers stay in order under 32-bit comparison, its window is
   * never exceeded, what can be delivered is in the queue, and the timeout stays within its limits.
   */
  lemma {:induction false} AnyCalls(cfg: Cfg, calls: seq<Call>)
    requires cfg.Ok()
    ensures LocalInv(cfg, After(cfg, calls)) && RtoOk(After(cfg, calls))
  {
    hide Do, LocalInv;
    if calls == [] {
      CreateOk(cfg);
    } else {
      AnyCalls(cfg, calls[..|calls| - 1]);
      DoKeepsLocal(cfg, After(cfg, calls[..|calls| - 1]), calls[|calls| - 1]);
      DoKeepsRto(cfg, After(cfg, calls[..|calls| - 1]), calls[|calls| - 1]);
    }
  }

  /** The window of a fast retransmission in this call, if there is one, does not wrap the byte counter. */
  predicate CallFits(cfg: Cfg, k: Pcb, c: Call)
    requires cfg.Ok()
  {
    match c
    case Flushing => FastFits(cfg, k)
    case Updating(now) => FastFits(cfg, Tick(cfg, k, now))
    case _ => true
  }

  lemma DoKeepsCong(cfg: Cfg, k: Pcb, c: Call)
    requires cfg.Ok() && cfg.Mss() <= 65535 && CongOk(cfg.Mss(), k.cong) && CallFits(cfg, k, c)
    ensures CongOk(cfg.Mss(), Do(cfg, k, c).cong)
  {
    hide Input, Flush, FastFits, SendQueue, CongOk, PeekSize, FirstMessage, Drain, Bytes;
    match c
    case Sending(buf) =>
    case Receiving(len) =>
    case Arriving(bytes) => InputCong(cfg, k, bytes);
    case Flushing => FlushCong(cfg, k);
    case Updating(now) => FlushCong(cfg, Tick(cfg, k, now));
  }

  /** The congestion window and its byte counter stay in step in every run whose retransmissions fit. */
  lemma {:induction false} WindowInStep(cfg: Cfg, calls: seq<Call>)
    requires cfg.Ok() && cfg.Mss() <= 65535
    requires forall i :: 0 <= i < |calls| ==> CallFits(cfg, After(cfg, calls[..i]), calls[i])
    ensures CongOk(cfg.Mss(), After(cfg, calls).cong)
  {
    hide Do, CallFits;
    if calls != [] {
      var last := |calls| - 1;
      assert forall i :: 0 <= i < last ==> calls[..last][..i] == calls[..i];
      WindowInStep(cfg, calls[..last]);
      DoKeepsCong(cfg, After(cfg, calls[..last]), calls[last]);
    }
  }
}
