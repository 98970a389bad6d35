// Fragmentation and reassembly: what a sequence of fragments means as a
// sequence of messages and as a sequence of bytes.
module KcpFrag {
  import opened Word
  import opened Wire
  import opened KcpSpec

  /** The messages completed by fs when acc holds the bytes of an unfinished one. */
  function Messages(acc: seq<u8>, fs: seq<Frag>): seq<seq<u8>>
    decreases |fs|
  {
    if fs == [] then []
    else if fs[0].frg == 0 then [acc + fs[0].data] + Messages([], fs[1..])
    else Messages(acc + fs[0].data, fs[1..])
  }

  /** The bytes of the message that fs leaves unfinished. */
  function Unfinished(acc: seq<u8>, fs: seq<Frag>): seq<u8>
    decreases |fs|
  {
    if fs == [] then acc
    else Unfinished(if fs[0].frg == 0 then [] else acc + fs[0].data, fs[1..])
  }

  lemma {:induction false} MessagesConcat(acc: seq<u8>, a: seq<Frag>, b: seq<Frag>)
    ensures Messages(acc, a + b) == Messages(acc, a) + Messages(Unfinished(acc, a), b)
    ensures Unfinished(acc, a + b) == Unfinished(Unfinished(acc, a), b)
    decreases |a|
  {
    if a == [] {
      assert a + b == b;
    } else {
      assert (a + b)[0] == a[0] && (a + b)[1..] == a[1..] + b;
      MessagesConcat(if a[0].frg == 0 then [] else acc + a[0].data, a[1..], b);
    }
  }

  lemma {:induction false} BytesConcat(a: seq<Frag>, b: seq<Frag>)
    ensures Bytes(a + b) == Bytes(a) + Bytes(b)
  {
    if a == [] {
      assert a + b == b;
    } else {
      assert (a + b)[0] == a[0] && (a + b)[1..] == a[1..] + b;
      BytesConcat(a[1..], b);
    }
  }

  /** Fragments of exactly one message: only the last one has no follower. */
  predicate OneMessage(fs: seq<Frag>) {
    fs != [] && forall i :: 0 <= i < |fs| ==> (fs[i].frg == 0 <==> i == |fs| - 1)
  }

  lemma {:induction false} OneMessageMeans(acc: seq<u8>, fs: seq<Frag>)
    requires OneMessage(fs)
    ensures Messages(acc, fs) == [acc + Bytes(fs)]
    ensures Unfinished(acc, fs) == []
    decreases |fs|
  {
    if |fs| == 1 {
      assert fs[0].frg == 0 && Bytes(fs) == fs[0].data + [] == fs[0].data;
      assert Messages([], fs[1..]) == [];
    } else {
      assert fs[0].frg != 0;
      OneMessageMeans(acc + fs[0].data, fs[1..]);
      assert acc + fs[0].data + Bytes(fs[1..]) == acc + Bytes(fs);
    }
  }

  // ---------- fragmenting ----------

  /** Each fragment announces how many follow it. */
  predicate CountsDown(fs: seq<Frag>) {
    forall i :: 0 <= i < |fs| ==> StepsDown(fs, i)
  }

  predicate Closed(fs: seq<Frag>) {
    fs != [] ==> fs[|fs| - 1].frg == 0
  }

  predicate Short(mss: int, fs: seq<Frag>) {
    forall i :: 0 <= i < |fs| ==> |fs[i].data| <= mss
  }

  predicate SegsShort(mss: int, buf: seq<Seg>) {
    forall i :: 0 <= i < |buf| ==> |buf[i].frag.data| <= mss
  }

  lemma {:induction false} FragmentsShape(mss: int, stream: bool, buf: seq<u8>, count: nat)
    requires mss > 0 && count < WND_RCV
    ensures var fs := Fragments(mss, stream, buf, count);
      && |fs| == count && Short(mss, fs)
      && forall i :: 0 <= i < count ==> fs[i].frg == if stream then 0 else count - 1 - i
  {
    if count > 0 {
      var size := Min(mss, |buf|);
      var tail := Fragments(mss, stream, buf[size..], count - 1);
      FragmentsShape(mss, stream, buf[size..], count - 1);
      var head := Frag(if stream then 0 else count - 1, buf[..size]);
      assert Fragments(mss, stream, buf, count) == [head] + tail;
      hide Fragments;
    }
  }

  lemma {:induction false} FragmentsBytes(mss: int, stream: bool, buf: seq<u8>, count: nat)
    requires mss > 0 && count < WND_RCV && |buf| <= count * mss
    ensures Bytes(Fragments(mss, stream, buf, count)) == buf
  {
    if count > 0 {
      var size := Min(mss, |buf|);
      OneLess(mss, |buf|, count);
      FragmentsBytes(mss, stream, buf[size..], count - 1);
      assert buf == buf[..size] + buf[size..];
    }
  }

  lemma OneLess(mss: int, len: nat, count: nat)
    requires mss > 0 && count > 0 && len <= count * mss
    ensures len - Min(mss, len) <= (count - 1) * mss
  {
    assert count * mss == (count - 1) * mss + mss;
    NatProduct(count - 1, mss);
  }

  lemma NatProduct(a: nat, b: nat)
    ensures a * b >= 0
  {
  }

  lemma FragCountEnough(mss: int, len: nat)
    requires mss > 0
    ensures len <= FragCount(mss, len) * mss
    ensures FragCount(mss, len) > 0
  {
    if len > mss {
      var q, r := (len + mss - 1) / mss, (len + mss - 1) % mss;
      assert len + mss - 1 == mss * q + r;
    }
  }

  /** The fragments that ikcp_send queues for an accepted buffer spell exactly that buffer. */
  lemma FragmentsCorrect(mss: int, stream: bool, buf: seq<u8>)
    requires mss > 0 && FragCount(mss, |buf|) < WND_RCV
    ensures var fs := Fragments(mss, stream, buf, FragCount(mss, |buf|));
      && Bytes(fs) == buf && Short(mss, fs) && CountsDown(fs) && Closed(fs)
      && (!stream ==> Messages([], fs) == [buf] && Unfinished([], fs) == [])
  {
    var count := FragCount(mss, |buf|);
    FragCountEnough(mss, |buf|);
    FragmentsShape(mss, stream, buf, count);
    FragmentsBytes(mss, stream, buf, count);
    if !stream {
      OneMessageMeans([], Fragments(mss, stream, buf, count));
      assert [] + buf == buf;
    }
  }

  /** The fragment after fs[i], when there is one, has one follower less. */
  predicate StepsDown(fs: seq<Frag>, i: int)
    requires 0 <= i < |fs|
  {
    && fs[i].frg < WND_RCV - 1
    && (fs[i].frg > 0 && i + 1 < |fs| ==> fs[i + 1].frg == fs[i].frg - 1)
  }

  lemma StepsDownConcat(a: seq<Frag>, b: seq<Frag>, i: int)
    requires 0 <= i < |a + b| && Closed(a)
    requires i < |a| ==> StepsDown(a, i)
    requires i >= |a| ==> StepsDown(b, i - |a|)
    ensures StepsDown(a + b, i)
  {
  }

  lemma CountsDownConcat(a: seq<Frag>, b: seq<Frag>)
    requires CountsDown(a) && CountsDown(b) && Closed(a) && Closed(b)
    ensures CountsDown(a + b) && Closed(a + b)
  {
    hide StepsDown;
    forall i | 0 <= i < |a + b|
      ensures StepsDown(a + b, i)
    {
      StepsDownConcat(a, b, i);
    }
    assert b != [] ==> (a + b)[|a + b| - 1] == b[|b| - 1];
    assert b == [] ==> a + b == a;
  }

  // ---------- reassembling ----------

  lemma {:induction false} FirstMessageScan(q: seq<Frag>)
    ensures var n := FirstMessage(q);
      && (forall i :: 0 <= i < n - 1 ==> q[i].frg != 0)
      && (n < |q| ==> n > 0 && q[n - 1].frg == 0)
  {
    if q != [] && q[0].frg != 0 {
      FirstMessageScan(q[1..]);
    }
  }

  lemma {:induction false} CountDownAt(q: seq<Frag>, i: nat)
    requires CountsDown(q) && q != [] && i <= q[0].frg && i < |q|
    ensures q[i].frg == q[0].frg - i
  {
    if i > 0 {
      CountDownAt(q, i - 1);
      assert StepsDown(q, i - 1);
    }
  }

  /** A queue of count-down fragments starts with a complete message exactly when it is long enough. */
  lemma FirstMessageCorrect(q: seq<Frag>)
    requires CountsDown(q) && q != []
    ensures PeekSize(q) >= 0 <==> |q| > q[0].frg
    ensures |q| > q[0].frg ==> FirstMessage(q) == q[0].frg + 1 && OneMessage(q[..FirstMessage(q)])
  {
    hide CountsDown, FirstMessage, Bytes;
    var n := FirstMessage(q);
    FirstMessageScan(q);
    if |q| > q[0].frg {
      CountDownAt(q, q[0].frg);
      assert n <= q[0].frg + 1;
      CountDownAt(q, n - 1);
    }
  }

  /**
   * A queue of at least IKCP_WND_RCV - 1 fragments, as many as a message has at most, starts with a complete
   * message.
   */
  lemma FullQueueReady(q: seq<Frag>)
    requires CountsDown(q) && |q| >= WND_RCV - 1
    ensures PeekSize(q) >= 0
  {
    assert StepsDown(q, 0);
    FirstMessageCorrect(q);
  }

  /** What part of a fragment sequence means is a prefix of what the whole means. */
  lemma PartMeans(all: seq<Frag>, part: seq<Frag>)
    requires part <= all
    ensures Messages([], part) <= Messages([], all) && Bytes(part) <= Bytes(all)
  {
    var rest := all[|part|..];
    assert all == part + rest;
    hide Messages, Bytes, Unfinished;
    MessagesConcat([], part, rest);
    BytesConcat(part, rest);
  }
}
