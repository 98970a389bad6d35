// One direction of a connection: a sender, a receiver and the unbounded
// numbers behind their 32-bit words.  log holds every fragment the sender has
// ever numbered, u and n are the unbounded snd_una and rcv_nxt.
module KcpLink {
  import opened Word
  import opened Wire
  import opened KcpSpec
  import opened KcpLocal

  const TWO30: int := 0x4000_0000

  /** The sender's numbers and segments agree with the log. */
  predicate SndInv(wnd: u32, snd: Snd, log: seq<Frag>, u: int) {
    && SndOk(snd, wnd)
    && 0 <= u <= |log|
    && snd.una == W(u) && snd.nxt == W(|log|)
    && Off(snd.nxt, snd.una) == |log| - u
    && SndContent(snd, log, u)
  }

  predicate SndContent(snd: Snd, log: seq<Frag>, u: int) {
    forall s :: s in snd.buf ==>
      0 <= u + Off(s.sn, snd.una) < |log| && s.frag == log[u + Off(s.sn, snd.una)]
  }

  /** The receiver has number i: it was moved to the queue or waits in the reorder buffer. */
  predicate Held(wnd: u32, rcv: Rcv, n: int, i: int) {
    0 <= i && (i < n || (i < n + wnd && HasR(rcv.buf, W(i))))
  }

  predicate RcvContent(rcv: Rcv, n: int, log: seq<Frag>) {
    forall s :: s in rcv.buf ==>
      0 <= n + Off(s.sn, rcv.nxt) < |log| && s.frag == log[n + Off(s.sn, rcv.nxt)]
  }

  /** Every acknowledgement waiting to be sent names a number that is held. */
  predicate AcksHeld(wnd: u32, rcv: Rcv, n: int, acks: seq<int>) {
    && |acks| == |rcv.acks|
    && forall i :: 0 <= i < |acks| ==> rcv.acks[i].sn == W(acks[i]) && Held(wnd, rcv, n, acks[i])
  }

  /** The receiver's numbers and segments agree with the log. */
  predicate RcvBase(wnd: u32, rcv: Rcv, n: int, log: seq<Frag>) {
    && AscR(rcv.buf, rcv.nxt, wnd)
    && |rcv.queue| <= wnd
    && 0 <= n <= |log|
    && rcv.nxt == W(n)
    && RcvContent(rcv, n, log)
  }

  predicate RcvInv(wnd: u32, rcv: Rcv, n: int, acks: seq<int>, log: seq<Frag>) {
    && RcvBase(wnd, rcv, n, log)
    && Drained(rcv, wnd)
    && |log| <= n + 2 * wnd
    && AcksHeld(wnd, rcv, n, acks)
  }

  /** r follows rcv: the queue has grown by the log from n to n', and nothing held was lost. */
  ghost predicate Advanced(wnd: u32, rcv: Rcv, n: int, r: Rcv, n': int, log: seq<Frag>) {
    && 0 <= n <= n' <= |log|
    && r.queue == rcv.queue + log[n..n']
    && forall i :: Held(wnd, rcv, n, i) ==> Held(wnd, r, n', i)
  }

  /** Every numbered fragment is still in snd_buf or already with the receiver. */
  predicate Covered(snd: Snd, log: seq<Frag>, u: int, wnd: u32, rcv: Rcv, n: int) {
    forall i :: 0 <= i < |log| ==> Held(wnd, rcv, n, i) || (u <= i && Has(snd.buf, W(i)))
  }

  /** A message in flight with the unbounded numbers behind its sn and una. */
  datatype TMsg = TMsg(m: Msg, sn: int, una: int)

  predicate PushOk(t: TMsg, log: seq<Frag>) {
    t.m.cmd == CMD_PUSH ==> 0 <= t.sn < |log| && t.m.sn == W(t.sn) && t.m.frag == log[t.sn]
  }

  predicate AckOk(t: TMsg, wnd: u32, rcv: Rcv, n: int) {
    && 0 <= t.una <= n && t.m.una == W(t.una)
    && t.m.wnd <= wnd
    && (t.m.cmd == CMD_ACK ==> t.m.sn == W(t.sn) && Held(wnd, rcv, n, t.sn))
  }

  // ---------- consequences ----------

  lemma HeldBelow(wnd: u32, rcv: Rcv, n: int, acks: seq<int>, log: seq<Frag>, i: int)
    requires RcvInv(wnd, rcv, n, acks, log) && wnd < TWO30
    requires Held(wnd, rcv, n, i)
    ensures i < |log|
  {
  }

  /** The sender's oldest unacknowledged number is at most one window past the receiver's next one. */
  lemma UnaBound(snd: Snd, log: seq<Frag>, u: int, sndWnd: u32, wnd: u32, rcv: Rcv, n: int)
    requires SndInv(sndWnd, snd, log, u) && wnd < TWO30
    requires Covered(snd, log, u, wnd, rcv, n) && 0 <= n
    ensures u <= n + wnd
  {
    assert u > 0 ==> Held(wnd, rcv, n, u - 1);
  }

  // ---------- the sender takes in a message ----------

  lemma SenderNumbers(wnd: u32, snd: Snd, log: seq<Frag>, u: int, m: Msg)
    requires SndInv(wnd, snd, log, u) && wnd < TWO30
    ensures var s := InputSnd(snd, m); var u' := u + Off(s.una, snd.una);
      SndInv(wnd, s, log, u')
  {
    var s := InputSnd(snd, m);
    var u' := u + Off(s.una, snd.una);
    InputSndCorrect(snd, wnd, m);
    WordAdd(u, s.una);
    hide InputSnd, Acks, Off, W;
    forall g | g in s.buf
      ensures g in snd.buf && u' + Off(g.sn, s.una) == u + Off(g.sn, snd.una)
    {
      BeforeNxt(s, wnd, g);
      OffSum(g.sn, s.una, snd.una);
    }
  }

  lemma BeforeNxt(s: Snd, wnd: u32, g: Seg)
    requires SndOk(s, wnd) && g in s.buf
    ensures Off(g.sn, s.una) < Off(s.nxt, s.una)
  {
    var i :| 0 <= i < |s.buf| && s.buf[i] == g;
  }

  predicate FreshAck(t: TMsg, log: seq<Frag>) {
    |log| - t.una <= TWO31 && (t.m.cmd == CMD_ACK ==> |log| - t.sn <= TWO31)
  }

  /** What an acknowledgement in flight makes the sender free is held by the receiver. */
  lemma AckedIsHeld(sndWnd: u32, snd: Snd, log: seq<Frag>, u: int, wnd: u32, rcv: Rcv, n: int, acks: seq<int>,
                    t: TMsg, i: int)
    requires SndInv(sndWnd, snd, log, u) && sndWnd < TWO30
    requires RcvInv(wnd, rcv, n, acks, log) && wnd < TWO30
    requires AckOk(t, wnd, rcv, n) && FreshAck(t, log)
    requires u <= i < |log| && Acks(snd, t.m, W(i))
    ensures Held(wnd, rcv, n, i)
  {
    WordDiff(t.una, u);
    WordDiff(i, u);
    if !Covers(snd, t.m.una, W(i)) {
      HeldBelow(wnd, rcv, n, acks, log, t.sn);
      WordInjective(i, t.sn);
    }
  }

  lemma SenderCovered(sndWnd: u32, snd: Snd, log: seq<Frag>, u: int, wnd: u32, rcv: Rcv, n: int, acks: seq<int>,
                      t: TMsg)
    requires SndInv(sndWnd, snd, log, u) && sndWnd < TWO30
    requires RcvInv(wnd, rcv, n, acks, log) && wnd < TWO30
    requires Covered(snd, log, u, wnd, rcv, n)
    requires AckOk(t, wnd, rcv, n) && FreshAck(t, log)
    ensures var s := InputSnd(snd, t.m); Covered(s, log, u + Off(s.una, snd.una), wnd, rcv, n)
  {
    var s := InputSnd(snd, t.m);
    var u' := u + Off(s.una, snd.una);
    SenderNumbers(sndWnd, snd, log, u, t.m);
    forall i | 0 <= i < |log| && !Held(wnd, rcv, n, i)
      ensures u' <= i && Has(s.buf, W(i))
    {
      var g :| g in snd.buf && g.sn == W(i);
      if Acks(snd, t.m, W(i)) {
        AckedIsHeld(sndWnd, snd, log, u, wnd, rcv, n, acks, t, i);
      }
      InputSndCorrect(snd, sndWnd, t.m);
      assert g in s.buf;
      WordDiff(i, u);
      OffSum(g.sn, s.una, snd.una);
    }
  }

  // ---------- the receiver takes in a message ----------

  predicate FreshPush(t: TMsg, log: seq<Frag>, wnd: u32) {
    t.m.cmd == CMD_PUSH ==> |log| + wnd - t.sn <= TWO31
  }

  /** The receiver's 32-bit window tests decide as the unbounded numbers would. */
  lemma PushNumbers(wnd: u32, rcv: Rcv, n: int, log: seq<Frag>, t: TMsg)
    requires rcv.nxt == W(n) && 0 <= n <= |log| <= n + 2 * wnd && wnd < TWO30
    requires t.m.cmd == CMD_PUSH && PushOk(t, log) && FreshPush(t, log, wnd)
    ensures TimeDiff(t.m.sn, Add(rcv.nxt, wnd)) == t.sn - n - wnd
    ensures TimeDiff(t.m.sn, rcv.nxt) == t.sn - n
    ensures InWindow(rcv, t.m.sn, wnd) <==> n <= t.sn < n + wnd
    ensures n <= t.sn ==> Off(t.m.sn, rcv.nxt) == t.sn - n
  {
    WordAdd(n, 0);
    WordDiff(t.sn, n + wnd);
    WordDiff(t.sn, n);
  }

  /** Draining loses nothing: what was held stays held, and the queue grows by the log. */
  lemma DrainLink(wnd: u32, rcv: Rcv, n: int, log: seq<Frag>, r: Rcv)
    requires RcvBase(wnd, rcv, n, log) && wnd < TWO30
    requires Moved(rcv, r) && RcvOk(r, wnd)
    ensures var n' := n + Off(r.nxt, rcv.nxt);
      RcvBase(wnd, r, n', log) && Advanced(wnd, rcv, n, r, n', log)
  {
    hide AscR, HasR, Off, Held, RcvContent, W;
    var c := |rcv.buf| - |r.buf|;
    WordAdd(n, r.nxt);
    DrainedFrags(rcv, n, log, c);
    DrainedContent(wnd, rcv, n, log, r, c);
    DrainedHeld(wnd, rcv, n, r, c);
  }

  lemma DrainedContent(wnd: u32, rcv: Rcv, n: int, log: seq<Frag>, r: Rcv, c: nat)
    requires RcvContent(rcv, n, log) && wnd < TWO30
    requires c <= |rcv.buf| && c <= wnd && r.buf == rcv.buf[c..] && Off(r.nxt, rcv.nxt) == c
    requires AscR(r.buf, r.nxt, wnd)
    ensures RcvContent(r, n + c, log)
  {
    forall s | s in r.buf
      ensures s in rcv.buf && c + Off(s.sn, r.nxt) == Off(s.sn, rcv.nxt)
    {
      OffSum(s.sn, r.nxt, rcv.nxt);
    }
  }

  lemma DrainedHeld(wnd: u32, rcv: Rcv, n: int, r: Rcv, c: nat)
    requires rcv.nxt == W(n) && wnd < TWO30
    requires c <= |rcv.buf| && r.buf == rcv.buf[c..]
    requires forall i :: 0 <= i < c ==> Off(rcv.buf[i].sn, rcv.nxt) == i
    ensures forall i :: Held(wnd, rcv, n, i) ==> Held(wnd, r, n + c, i)
  {
  }

  lemma DrainedFrags(rcv: Rcv, n: int, log: seq<Frag>, c: nat)
    requires c <= |rcv.buf|
    requires forall i :: 0 <= i < c ==> Off(rcv.buf[i].sn, rcv.nxt) == i
    requires 0 <= n <= |log| && RcvContent(rcv, n, log)
    ensures n + c <= |log| && FragsOf(rcv.buf[..c]) == log[n..n + c]
  {
    forall i | 0 <= i < c
      ensures n + i < |log| && rcv.buf[i].frag == log[n + i]
    {
      assert rcv.buf[i] in rcv.buf;
    }
    if c > 0 {
      assert rcv.buf[c - 1].frag == log[n + (c - 1)];
    }
  }

  /** The receiver with the segment of t put in its place and its acknowledgement noted, before draining. */
  function Stored(rcv: Rcv, t: TMsg): Rcv {
    Rcv(rcv.nxt, rcv.queue, Insert(rcv.buf, RSeg(t.m.sn, t.m.frag)), rcv.acks + [Ack(t.m.sn, t.m.ts)])
  }

  lemma StoredLink(wnd: u32, rcv: Rcv, n: int, log: seq<Frag>, t: TMsg, r: Rcv)
    requires RcvBase(wnd, rcv, n, log) && wnd < TWO30
    requires PushOk(t, log) && t.m.cmd == CMD_PUSH && n <= t.sn < n + wnd
    requires Off(t.m.sn, rcv.nxt) == t.sn - n
    requires r == Stored(rcv, t)
    ensures RcvBase(wnd, r, n, log) && Held(wnd, r, n, t.sn)
    ensures forall i :: Held(wnd, rcv, n, i) ==> Held(wnd, r, n, i)
  {
    hide Insert, AscR, HasR, Held, W, Off;
    var seg := RSeg(t.m.sn, t.m.frag);
    InsertCorrect(rcv.buf, seg, rcv.nxt, wnd);
    InsertedHeld(wnd, rcv, r, n, t.sn, seg);
  }

  lemma ReceiverStore(wnd: u32, rcv: Rcv, n: int, acks: seq<int>, log: seq<Frag>, t: TMsg, r1: Rcv, r: Rcv)
    requires RcvInv(wnd, rcv, n, acks, log) && wnd < TWO30
    requires PushOk(t, log) && t.m.cmd == CMD_PUSH && n <= t.sn < n + wnd
    requires Off(t.m.sn, rcv.nxt) == t.sn - n
    requires r1 == Stored(rcv, t) && r == Drain(r1, wnd)
    ensures var n' := n + Off(r.nxt, rcv.nxt);
      RcvInv(wnd, r, n', acks + [t.sn], log) && Advanced(wnd, rcv, n, r, n', log)
  {
    hide Insert, Drain, AscR, RcvContent, Held, W, Off;
    StoredLink(wnd, rcv, n, log, t, r1);
    DrainCorrect(r1, wnd);
    DrainLink(wnd, r1, n, log, r);
  }

  lemma ReceiverPush(wnd: u32, rcv: Rcv, n: int, acks: seq<int>, log: seq<Frag>, t: TMsg, r: Rcv)
    requires RcvInv(wnd, rcv, n, acks, log) && wnd < TWO30
    requires PushOk(t, log) && t.m.cmd == CMD_PUSH
    requires TimeDiff(t.m.sn, Add(rcv.nxt, wnd)) == t.sn - n - wnd
    requires InWindow(rcv, t.m.sn, wnd) <==> n <= t.sn < n + wnd
    requires n <= t.sn ==> Off(t.m.sn, rcv.nxt) == t.sn - n
    requires r == ParsePush(rcv, t.m, wnd)
    ensures var n' := n + Off(r.nxt, rcv.nxt);
      var acks' := if |r.acks| > |rcv.acks| then acks + [t.sn] else acks;
      RcvInv(wnd, r, n', acks', log) && Advanced(wnd, rcv, n, r, n', log)
  {
    assert RcvOk(rcv, wnd);
    hide ParsePush, Drain, RcvContent, AscR, W, RcvBase, Drained, AcksHeld, Held, TimeDiff;
    ParsePushCorrect(rcv, t.m, wnd);
    if InWindow(rcv, t.m.sn, wnd) {
      ReceiverStore(wnd, rcv, n, acks, log, t, Stored(rcv, t), r);
      StoredBase(wnd, rcv, n, acks, log, t);
      DrainCorrect(Stored(rcv, t), wnd);
      MovedAcks(Stored(rcv, t), r);
    } else {
      ReceiverOld(wnd, rcv, n, acks, log, t, r);
    }
  }

  lemma MovedAcks(rcv: Rcv, r: Rcv)
    requires Moved(rcv, r)
    ensures r.acks == rcv.acks
  {
  }

  lemma StoredBase(wnd: u32, rcv: Rcv, n: int, acks: seq<int>, log: seq<Frag>, t: TMsg)
    requires RcvInv(wnd, rcv, n, acks, log) && wnd < TWO30
    requires PushOk(t, log) && t.m.cmd == CMD_PUSH && n <= t.sn < n + wnd
    requires Off(t.m.sn, rcv.nxt) == t.sn - n
    ensures AscR(Stored(rcv, t).buf, rcv.nxt, wnd) && |rcv.queue| <= wnd
  {
    StoredLink(wnd, rcv, n, log, t, Stored(rcv, t));
  }

  /** A segment outside the window changes nothing, but one already taken is acknowledged again. */
  lemma ReceiverOld(wnd: u32, rcv: Rcv, n: int, acks: seq<int>, log: seq<Frag>, t: TMsg, r: Rcv)
    requires RcvInv(wnd, rcv, n, acks, log) && PushOk(t, log) && !(n <= t.sn < n + wnd)
    requires r == rcv.(acks := if t.sn - n - wnd >= 0 then rcv.acks else rcv.acks + [Ack(t.m.sn, t.m.ts)])
    requires t.m.cmd == CMD_PUSH
    ensures var acks' := if |r.acks| > |rcv.acks| then acks + [t.sn] else acks;
      Off(r.nxt, rcv.nxt) == 0 && RcvInv(wnd, r, n, acks', log) && Advanced(wnd, rcv, n, r, n, log)
  {
    hide AscR, W;
    assert rcv.queue + log[n..n] == rcv.queue;
  }

  /** A data message in flight, new or repeated, is taken in consistently with the log and acknowledged only if held. */
  lemma ReceiverInput(wnd: u32, rcv: Rcv, n: int, acks: seq<int>, log: seq<Frag>, t: TMsg, r: Rcv)
    requires RcvInv(wnd, rcv, n, acks, log) && wnd < TWO30
    requires PushOk(t, log) && FreshPush(t, log, wnd)
    requires r == InputRcv(rcv, t.m, wnd)
    ensures var n' := n + Off(r.nxt, rcv.nxt);
      var acks' := if |r.acks| > |rcv.acks| then acks + [t.sn] else acks;
      RcvInv(wnd, r, n', acks', log) && Advanced(wnd, rcv, n, r, n', log)
  {
    hide Held, Drain, RcvContent, AscR, W;
    assert rcv.queue + log[n..n] == rcv.queue;
    if t.m.cmd == CMD_PUSH {
      PushNumbers(wnd, rcv, n, log, t);
      ReceiverPush(wnd, rcv, n, acks, log, t, r);
    }
  }

  lemma InsertedHeld(wnd: u32, rcv: Rcv, r: Rcv, n: int, k: int, seg: RSeg)
    requires forall s :: s in r.buf <==> s in rcv.buf || (s == seg && !HasR(rcv.buf, seg.sn))
    requires 0 <= n <= k < n + wnd && seg.sn == W(k)
    ensures forall i :: Held(wnd, rcv, n, i) ==> Held(wnd, r, n, i)
    ensures Held(wnd, r, n, k)
  {
  }

  // ---------- the sender numbers fragments ----------

  /** A flush extends the log with the fragments it numbers, in order, and keeps everything covered. */
  lemma SenderFill(sndWnd: u32, snd: Snd, log: seq<Frag>, u: int, s: Snd)
    requires SndInv(sndWnd, snd, log, u) && sndWnd < TWO30
    requires Filled(snd, s) && SndOk(s, sndWnd)
    ensures var log' := log + snd.queue[..|snd.queue| - |s.queue|];
      && SndInv(sndWnd, s, log', u)
      && log' + s.queue == log + snd.queue
      && (forall x :: Has(snd.buf, x) ==> Has(s.buf, x))
      && (forall i :: |log| <= i < |log'| ==> Has(s.buf, W(i)))
  {
    var c := |snd.queue| - |s.queue|;
    FilledContent(snd, log, u, s, c);
    FilledNumbers(snd, log, u, s, c);
    hide SndContent, Has, SndOk, Off, W;
    FilledIndex(snd, log, u, s, c);
  }

  lemma FilledIndex(snd: Snd, log: seq<Frag>, u: int, s: Snd, c: nat)
    requires snd.una == W(u) && s.una == snd.una && c <= |snd.queue| && s.queue == snd.queue[c..]
    requires Off(s.nxt, s.una) == |log| - u + c
    ensures s.nxt == W(|log + snd.queue[..c]|) && Off(s.nxt, s.una) == |log + snd.queue[..c]| - u
    ensures log + snd.queue[..c] + s.queue == log + snd.queue
  {
    WordAdd(u, s.nxt);
    assert snd.queue == snd.queue[..c] + s.queue;
  }

  lemma FilledContent(snd: Snd, log: seq<Frag>, u: int, s: Snd, c: nat)
    requires SndContent(snd, log, u) && s.una == snd.una && c <= |snd.queue|
    requires Off(snd.nxt, snd.una) == |log| - u
    requires |s.buf| == |snd.buf| + c && s.buf[..|snd.buf|] == snd.buf && u >= 0
    requires forall i :: |snd.buf| <= i < |s.buf| ==>
      && s.buf[i].frag == snd.queue[i - |snd.buf|]
      && Off(s.buf[i].sn, snd.una) == Off(snd.nxt, snd.una) + i - |snd.buf|
    ensures SndContent(s, log + snd.queue[..c], u)
  {
  }

  lemma FilledNumbers(snd: Snd, log: seq<Frag>, u: int, s: Snd, c: nat)
    requires snd.una == W(u) && Off(snd.nxt, snd.una) == |log| - u
    requires |s.buf| == |snd.buf| + c && s.buf[..|snd.buf|] == snd.buf
    requires forall i :: |snd.buf| <= i < |s.buf| ==>
      Off(s.buf[i].sn, snd.una) == Off(snd.nxt, snd.una) + i - |snd.buf|
    ensures forall x :: Has(snd.buf, x) ==> Has(s.buf, x)
    ensures forall i :: |log| <= i < |log| + c ==> Has(s.buf, W(i))
  {
    forall x | Has(snd.buf, x)
      ensures Has(s.buf, x)
    {
      var i :| 0 <= i < |snd.buf| && snd.buf[i].sn == x;
      assert s.buf[i] == s.buf[..|snd.buf|][i];
    }
    forall i | |log| <= i < |log| + c
      ensures Has(s.buf, W(i))
    {
      var g := s.buf[|snd.buf| + i - |log|];
      WordAdd(u, g.sn);
      assert g in s.buf;
    }
  }

  /** Changes that leave numbers and contents alone, such as resending, keep the sender in order. */
  lemma SameNumbers(sndWnd: u32, snd: Snd, log: seq<Frag>, u: int, b: seq<Seg>)
    requires SndInv(sndWnd, snd, log, u)
    requires |b| == |snd.buf|
    requires forall i :: 0 <= i < |b| ==> b[i].sn == snd.buf[i].sn && b[i].frag == snd.buf[i].frag
    ensures SndInv(sndWnd, snd.(buf := b), log, u)
    ensures forall x :: Has(snd.buf, x) ==> Has(b, x)
  {
  }

  /** Every data message of a flush carries a fragment of the log under its own number. */
  lemma {:induction false} PushMsgsOk(r: Round, snd: Snd, log: seq<Frag>, u: int, buf: seq<Seg>, m: Msg)
    requires snd.una == W(u) && SndContent(snd, log, u)
    requires forall s :: s in buf ==> s in snd.buf
    requires m in PushMsgs(r, buf)
    ensures PushOk(TMsg(m, u + Off(m.sn, snd.una), 0), log)
    ensures m.cmd == CMD_PUSH && m.conv == r.conv && m.wnd == r.wnd % TWO16 && m.una == r.una
    ensures exists s :: s in snd.buf && m.frag == s.frag
  {
    var here := if Due(r, buf[0]).Wait? then [] else [PushMsg(r, Resent(r, buf[0]))];
    if m in here {
      assert buf[0] in snd.buf;
      WordAdd(u, buf[0].sn);
    } else {
      PushMsgsOk(r, snd, log, u, buf[1..], m);
    }
  }
}
