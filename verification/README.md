# sznet verification model

A Dafny model of the parts of sznet that are hardest to get right, with proofs of what they promise.
`dafny verify dfyconfig.toml` checks all of it.

**KCP (`3rd/kcp/ikcp.c`).** `Word` has the 32-bit words and the modular comparison of sequence numbers and
times, `Wire` the 24-byte headers, the input loop's parser and the packing of messages into datagrams.
`KcpSpec` gives, for each operation, the control block it leaves as a function of the one before; `Kcp` is
the control block as the C code works it, a class whose methods loop over queues and buffers, keep every
counter and assertion, and are proved equal to those functions. What the functions promise is proved in the
other files:

- `KcpLocal`, `KcpAlone`: one endpoint in any environment. Whatever bytes arrive, at whatever clock, the send
  and receive buffers stay in strict order under 32-bit comparison, within their windows and drained, and the
  timeout stays in [30, 60000].
- `KcpFrag`, `KcpLink`, `KcpSystem`, `KcpRuns`: two endpoints and a network that loses, duplicates, reorders and
  re-bundles messages. Each endpoint carries unbounded sequence numbers as history; the network is the set of all
  messages ever flushed, any sequence of which can be delivered at any time unless it is 2^31 numbers old.
  Messages and bytes arrive as a prefix of what was accepted; no acknowledged data is lost; the windows hold;
  a full receive queue can always be read.
- `KcpProgress`, `KcpExchange`: what is flushed is framed so that the peer reads back exactly it; in every run a due
  segment that reaches the peer's window, and its acknowledgement, move `snd_una` forward, datagram by datagram.
- `KcpProbe`: whatever is called, a closed window is asked for again within two minutes, and the answer opens it.
- `KcpDelivery`, `KcpStall`: from every state of every run the rest can still be delivered, exactly if the size of
  the receive window modulo 65536 is 127 or more; otherwise a connection can come to stand still for good.
- `KcpTiming`, `KcpSettle`: the round-trip estimator of section 2 of RFC 6298 and where it settles, the congestion
  window's arithmetic, and `ikcp_check` as the laziest refinement of polling. `KcpWitness` has calls after which the
  code falls short.
- `KcpResend`, `KcpLife`: what one flush makes of every segment and what it writes; over any calls, when a segment is
  sent again. `KcpWindow`: what the windows let a flush number, the collapse of the congestion window and its recovery.
  `KcpCadence`: when updates flush. `KcpCodes`: what the calls return. `KcpTraffic`: windows, round-trip samples and
  reading in every run of two endpoints.

**Intrusive queue (`3rd/kcp/ikcp.h`).** `IQueue` has the ring of `next` and `prev` pointers and shows that its
macros are the sequence operations with which the queues of `Kcp` are written.

**Timers (`sznet/ds/MinHeap.h`, `sznet/time/`).** `MinHeap` is the array heap whose elements store their own slot, for
any total preorder. `TimerQueue` mirrors it in the active set, with addresses that are reused after a timer is freed,
and callbacks that add and cancel timers while they run. `TimerSpec` has what one expiry and any sequence of
operations do to the timers, `TimerRounds` when the expiry loop ends.

**Event loop (`sznet/net/EventLoop.cpp`).** `LoopSteps` is the wakeup protocol as interleaved atomic steps of the
loop thread and any number of others, `LoopQuit` when the loop ends and what its descriptor counts. `EventLoop` has
the methods, each a path of those steps.

**Logger (`sznet/log/AsyncLogging.cpp`, `sznet/log/LogStream.h`).** `LogSteps` is the hand-over of buffers as
interleaved steps, `LogBatch` what becomes of each batch, `AsyncLogging` the methods and the fixed buffer.

**Poller (`sznet/net/SelectPoller.cpp`).** `SelectPoller` keeps the descriptor map, the array and the channels'
indices in bijection and reports each ready channel once.

Findings, each with a lemma: the advertised window is right exactly if it is below 65536
(`KcpProgress.AdvertisedWindow`, and `KcpWitness.WindowWraps` for 65536); a receiver that has read all it can may show
no room for good, exactly if its window modulo 65536 is less than 127, the size of the largest message
(`KcpStall.RoomDecides`); a fast retransmission breaks the congestion window's byte counter exactly if its window
wraps 32 bits (`KcpTiming.FlushCong`, `KcpWitness.FastWraps`); a segment is overdue right after a flush exactly if its
timeout has grown beyond half the clock (`KcpTiming.FlushedNotOverdue`, `KcpWitness.TimeoutWraps`); a functor can wait
through a poll that no descriptor ends exactly if the loop thread queued it from a timer callback or before the loop
(`LoopSteps.StuckOrigins`); a line of exactly `kLargeBuffer` bytes passes the logger's assertion and is dropped
(`LogSteps.AppendHolds`); the expiry loop is sure to end exactly if no due timer repeats with an interval below a
microsecond, and else ends only if callbacks cancel all such timers (`TimerRounds.LoopEnds`,
`TimerRounds.EndsOnceCancelled`, `TimerQueue.TinyQueue`); a cancel keeps heap and active set in agreement exactly if
assertions are compiled in or there is nothing to cancel, since the heap erases inside an assertion
(`TimerSpec.CancelNeedsAssertions`, `TimerQueue.BrokenQueue`); a removed channel cannot be registered again, since its
index is kept (`SelectPoller.SelectPoller.RemoveChannel`).

## Model

| member | source | states |
|---|---|---|
| `Word.DiffOff` | 3rd/kcp/ikcp.c:136-139 | within half the circle ahead of a base, `_itimediff` is the difference of the offsets and zero offsets mean equality |
| `Word.OffRebase` | 3rd/kcp/ikcp.c:136-139 | offsets from a base that has moved ahead shrink by the move |
| `Word.WordDiff` | 3rd/kcp/ikcp.c:136-139 | the signed 32-bit difference of the words of two unbounded numbers less than 2^31 apart is their true difference |
| `Word.WordInjective` | 3rd/kcp/ikcp.c:136-139 | a word determines a number within 2^32 of a known one |
| `Word.WordAdd` | 3rd/kcp/ikcp.c:136-139 | moving ahead on the circle is moving ahead in the unbounded numbers |
| `Wire.RoundTrip32` | 3rd/kcp/ikcp.c:94-121 | encoding and decoding a 32-bit word are inverse both ways |
| `Wire.HeadRoundTrip` | 3rd/kcp/ikcp.c:906-917 | encoding and decoding a header are inverse both ways, whatever follows it |
| `Wire.HeadLayout` | 3rd/kcp/ikcp.c:906-917 | where each field of a header is, with its bytes in ascending order |
| `Wire.Parse` | 3rd/kcp/ikcp.c:761-786 | every message the input loop takes has the endpoint's conversation, a known command and data shorter than 2^31 |
| `Wire.ParseOne` | 3rd/kcp/ikcp.c:761-786 | the loop reads an encoded message back and goes on right behind it |
| `Wire.ParseEncode` | 3rd/kcp/ikcp.c:761-869 | the loop reads back exactly the messages encoded, in order, whatever follows them |
| `Wire.EncodeParse` | 3rd/kcp/ikcp.c:761-869 | what the loop consumes is a prefix of its input that re-encodes to the same bytes; with code 0 less than a header is left |
| `Wire.RejectedFor` | 3rd/kcp/ikcp.c:761-786 | where the loop stops and why: less than 24 bytes left (0), another conversation (-1), more data announced than is there or than 2^31 - 1 (-2), an unknown command (-3) |
| `Wire.PackCorrect` | 3rd/kcp/ikcp.c:1089-1114 | packing keeps all messages in order, in non-empty datagrams of at most mtu bytes |
| `Wire.PackGreedy` | 3rd/kcp/ikcp.c:1089-1098 | no datagram could have taken the first message of the next one |
| `Wire.PutAllPack` | 3rd/kcp/ikcp.c:1089-1114 | writing messages one by one into the output buffer, put out when the next does not fit, makes the same datagrams |
| `KcpSpec.DefaultCfg` | 3rd/kcp/ikcp.c:251-290 | mtu, windows, interval, limits and switches of a new control block, within the limits the setters keep |
| `KcpSpec.SetMtu` | 3rd/kcp/ikcp.c:1223-1236 | an mtu is taken exactly if it is at least 50, and the limits are kept |
| `KcpSpec.ClampInterval` | 3rd/kcp/ikcp.c:1238-1244 | the interval is kept if it is in [10, 5000], else the nearer end is taken |
| `KcpSpec.NoDelay` | 3rd/kcp/ikcp.c:1246-1269 | each argument that is not negative takes effect, a negative one leaves its fields, and no other field changes; the limits are kept |
| `KcpSpec.WndSize` | 3rd/kcp/ikcp.c:1272-1283 | each positive size is taken, the receive window raised to 128 if it is less; other fields are left and the limits kept |
| `KcpFrag.FirstMessageScan` | 3rd/kcp/ikcp.c:456-460 | the scan ends at the first fragment that no other follows, or takes in the whole queue if there is none |
| `KcpFrag.MessagesConcat` | 3rd/kcp/ikcp.c:384-409 | what fragments mean as messages composes over concatenation |
| `KcpFrag.FragmentsShape` | 3rd/kcp/ikcp.c:507-534 | fragments are as many as counted, at most mss long, and count down to 0 in message mode |
| `KcpFrag.FragCountEnough` | 3rd/kcp/ikcp.c:507-512 | the counted fragments have room for the whole buffer and are at least one |
| `KcpFrag.FragmentsBytes` | 3rd/kcp/ikcp.c:514-534 | the fragments together are the buffer's bytes |
| `KcpFrag.FragmentsCorrect` | 3rd/kcp/ikcp.c:507-534 | reassembling the fragments of an accepted buffer gives exactly that buffer, as one message in message mode |
| `KcpFrag.FirstMessageCorrect` | 3rd/kcp/ikcp.c:441-463 | `ikcp_peeksize` finds a message exactly if all its fragments are there, and then those fragments are one message |
| `KcpFrag.FullQueueReady` | 3rd/kcp/ikcp.c:441-463 | 127 or more count-down fragments start with a complete message |
| `KcpFrag.PartMeans` | 3rd/kcp/ikcp.c:384-409 | a prefix of the fragments means a prefix of the messages and of the bytes |
| `KcpLocal.ParseUnaCorrect` | 3rd/kcp/ikcp.c:593-607 | a cumulative acknowledgement removes exactly the segments numbered before it |
| `KcpLocal.WithoutCorrect` | 3rd/kcp/ikcp.c:571-591 | a selective acknowledgement removes exactly the segment it names, and the order stays |
| `KcpLocal.ShrinkCorrect` | 3rd/kcp/ikcp.c:560-569 | resetting `snd_una` to the first segment left keeps order and window, and moves nothing but the near end |
| `KcpLocal.InputSndCorrect` | 3rd/kcp/ikcp.c:788-797 | a message frees exactly the segments it acknowledges; `snd_una` only moves forward, within the window |
| `KcpLocal.BumpFastackCorrect` | 3rd/kcp/ikcp.c:609-631 | exactly the segments before the newest acknowledged number are counted as skipped, once |
| `KcpLocal.FillWindowCorrect` | 3rd/kcp/ikcp.c:1020-1042 | fragments are numbered consecutively in queue order until the window is full or the queue is empty, never beyond |
| `KcpLocal.InsertCorrect` | 3rd/kcp/ikcp.c:695-713 | the backward search inserts a segment in order unless its number is there already |
| `KcpLocal.DrainCorrect` | 3rd/kcp/ikcp.c:720-732 | a run of consecutive segments moves to the queue, and the rest starts with a gap or the queue is full |
| `KcpLocal.ParsePushCorrect` | 3rd/kcp/ikcp.c:822-847 | data below the window's end is noted for acknowledgement; only data inside the window is stored |
| `KcpLocal.CreateOk` | 3rd/kcp/ikcp.c:234-295 | a new control block is well-formed |
| `KcpLocal.AnyBytesKeepInvariant` | 3rd/kcp/ikcp.c:749-900 | `ikcp_input` of any byte string keeps the buffers ordered, within their windows and drained |
| `KcpLocal.RecvOk` | 3rd/kcp/ikcp.c:358-435 | so does `ikcp_recv` |
| `KcpLocal.FlushOk` | 3rd/kcp/ikcp.c:931-1138 | so does `ikcp_flush` |
| `KcpLocal.UpdateOk` | 3rd/kcp/ikcp.c:1146-1171 | so does `ikcp_update` |
| `KcpLocal.StoredBound` | 3rd/kcp/ikcp.c:683-713 | the reorder buffer never holds more than the receive window |
| `KcpAlone.AnyCalls` | 3rd/kcp/ikcp.c:358-1171 | after any calls with any arguments an endpoint is well-formed and its timeout is in [30, 60000] |
| `KcpAlone.WindowInStep` | 3rd/kcp/ikcp.c:875-1137 | after any calls whose fast retransmissions do not wrap, the byte counter is within one mss of the window |
| `KcpLink.UnaBound` | 3rd/kcp/ikcp.c:571-607 | the sender's oldest outstanding number is at most a window past the receiver's next one |
| `KcpLink.SenderNumbers` | 3rd/kcp/ikcp.c:788-797 | a message keeps the sender's segments in agreement with the unbounded numbers and the log of fragments |
| `KcpLink.AckedIsHeld` | 3rd/kcp/ikcp.c:571-607 | whatever number an acknowledgement in flight makes the sender free, the receiver holds |
| `KcpLink.SenderCovered` | 3rd/kcp/ikcp.c:788-797 | after any acknowledgement every numbered fragment is still with the sender or held by the receiver |
| `KcpLink.PushNumbers` | 3rd/kcp/ikcp.c:827-829 | the receiver's 32-bit window tests decide as the unbounded numbers would |
| `KcpLink.DrainLink` | 3rd/kcp/ikcp.c:720-732 | what moves to the queue is the next stretch of the sender's log, and nothing held is lost |
| `KcpLink.ReceiverInput` | 3rd/kcp/ikcp.c:822-847 | taking in a message keeps the receiver in agreement with the log, keeps all it held and notes only held numbers |
| `KcpLink.SenderFill` | 3rd/kcp/ikcp.c:1020-1042 | numbering queued fragments extends the log by exactly them |
| `KcpLink.PushMsgsOk` | 3rd/kcp/ikcp.c:1049-1108 | a data message that is flushed carries the log's fragment of its number |
| `KcpSystem.SendLink` | 3rd/kcp/ikcp.c:469-537 | tail merging and fragmenting touch only unnumbered fragments and account for every accepted byte and message |
| `KcpSystem.TakeMessage` | 3rd/kcp/ikcp.c:384-409 | taking a message off the queue extends what was delivered by exactly that message |
| `KcpSystem.RecvLink` | 3rd/kcp/ikcp.c:358-435 | `ikcp_recv` keeps what was delivered the meaning of the fragments taken so far, and keeps all numbers held |
| `KcpSystem.DeliverData` | 3rd/kcp/ikcp.c:749-900 | a datagram is taken in message by message; the work at its end changes no data |
| `KcpSystem.FlushTagsOk` | 3rd/kcp/ikcp.c:956-1114 | a flush says only what is true: acknowledgements name held numbers, data is the log's |
| `KcpSystem.FlushSnd` | 3rd/kcp/ikcp.c:1016-1042 | a flush numbers fragments in order and keeps all unacknowledged ones; `KcpWindow.FlushNumbers` says how many |
| `KcpSystem.DirDeliverSender` | 3rd/kcp/ikcp.c:749-900 | delivering any messages in flight keeps the sending side of a direction's invariant |
| `KcpSystem.DirDeliverReceiver` | 3rd/kcp/ikcp.c:749-900 | and the receiving side |
| `KcpSystem.DirFlushSender` | 3rd/kcp/ikcp.c:931-1138 | a flush keeps the sending side; the receiver's window still bounds the log |
| `KcpSystem.DirFlushReceiver` | 3rd/kcp/ikcp.c:931-1138 | and the receiving side |
| `KcpRuns.StepAKeepsInv` | 3rd/kcp/ikcp.c:358-1171 | every send, receive, flush, update and delivery keeps the two-endpoint invariant |
| `KcpRuns.RunInv` | 3rd/kcp/ikcp.c:358-1171 | the invariant holds in every state of every run |
| `KcpRuns.MessagesInOrder` | 3rd/kcp/ikcp.c:384-425 | message mode, every run: the messages received are a prefix of the messages for which `ikcp_send` returned 0 |
| `KcpRuns.BytesInOrder` | 3rd/kcp/ikcp.c:478-534 | every run, both modes: the bytes read are a prefix of the bytes accepted, the part merged by a call that then returned -2 included |
| `KcpRuns.NoAcknowledgedDataLost` | 3rd/kcp/ikcp.c:571-607 | every run: numbers freed by the sender, waiting to be acknowledged, or named by an acknowledgement in flight are held by the receiver |
| `KcpRuns.WindowBounds` | 3rd/kcp/ikcp.c:1016-1042 | every run: in flight at most `snd_wnd`; numbered at most two receive windows past `rcv_nxt`; queue and buffer at most a window each |
| `KcpRuns.NoReceiveDeadlock` | 3rd/kcp/ikcp.c:441-463 | every run: a full receive queue starts with a complete message |
| `KcpProgress.FlushFraming` | 3rd/kcp/ikcp.c:956-1114 | every datagram is non-empty, at most mtu bytes and read back as exactly its messages; together they are what was flushed, in order |
| `KcpProgress.RunFraming` | 3rd/kcp/ikcp.c:956-1114 | so in every state of every run |
| `KcpProgress.AdvertisedWindow` | 3rd/kcp/ikcp.c:919-950 | a message carries the free receive window exactly if that is below 65536 |
| `KcpExchange.DatagramCovers` | 3rd/kcp/ikcp.c:956-1114 | each message of a flush travels in one of its datagrams |
| `KcpExchange.OutputDelivers` | 3rd/kcp/ikcp.c:956-1114 | the bytes of each datagram put out are what the network may deliver: the encoding of messages of that flush |
| `KcpExchange.HeadPut` | 3rd/kcp/ikcp.c:1049-1108 | every run: a flush with the oldest unacknowledged segment due puts that segment in flight |
| `KcpExchange.HeadHeard` | 3rd/kcp/ikcp.c:822-829 | every run: a segment in the window that reaches the peer in any datagram is acknowledged by the peer's first flush after that, whatever lies between |
| `KcpExchange.HeadFreed` | 3rd/kcp/ikcp.c:788-797 | every run: its acknowledgement, in any datagram, moves `snd_una` past it for good |
| `KcpExchange.Progress` | 3rd/kcp/ikcp.c:931-1138 | every run: due segment flushed, heard in the window, peer flushed, acknowledgement heard, with anything in between, advance `snd_una` strictly |
| `KcpProgress.YoungDelivers` | 3rd/kcp/ikcp.c:571-607 | while fewer than 2^30 fragments are numbered on each side, nothing in flight is stale: all of it may be delivered |
| `KcpExchange.YoungProgress` | 3rd/kcp/ikcp.c:931-1138 | in such a connection one datagram each way is always possible, and advances `snd_una` |
| `KcpTiming.RttStep` | 3rd/kcp/ikcp.c:543-558 | samples in [0, R] with 8R below 2^31: no signed overflow, estimates stay in [0, R], the timeout is the clamped sum |
| `KcpTiming.RtoBounds` | 3rd/kcp/ikcp.c:556-557 | the timeout is in [30, 60000] for any sample |
| `KcpTiming.EstimateBounds` | 3rd/kcp/ikcp.c:543-558 | the same for every sequence of samples from the start |
| `KcpSettle.SampleMoves` | 3rd/kcp/ikcp.c:543-558 | a sample moves the variation a quarter of the way to its distance from the estimate, and the estimate an eighth of the way to itself, rounded down; the timeout is their sum within [minrto, 60000] |
| `KcpSettle.EstimateArrives` | 3rd/kcp/ikcp.c:546-555 | under a constant sample c the estimate climbs or comes down by one at least for each sample until it is in [c - 7, c], for good |
| `KcpSettle.TimeoutSettles` | 3rd/kcp/ikcp.c:543-558 | from whatever estimates in [0, M], after 2M samples of c, for good: the variation is at most 7 and the timeout between c - 7 + interval and c + max(interval, 28), within its limits |
| `KcpSettle.InputSamples` | 3rd/kcp/ikcp.c:792-795 | one `ikcp_input` feeds the estimator exactly the age of each acknowledgement that is not from the future, in order |
| `KcpTiming.InputKeepsRto` | 3rd/kcp/ikcp.c:792-795 | the timeout stays in its limits whatever messages arrive |
| `KcpTiming.GrowCorrect` | 3rd/kcp/ikcp.c:875-897 | growth keeps the byte counter within one mss of the window, adds at most two segments and never passes the peer's window |
| `KcpTiming.InputCong` | 3rd/kcp/ikcp.c:749-900 | one `ikcp_input` of any bytes does the same |
| `KcpTiming.AfterFlushCong` | 3rd/kcp/ikcp.c:1116-1137 | after losses the window is at least 1 and the threshold at least 2; the counter is in step exactly if the fast retransmission's window does not wrap |
| `KcpTiming.FlushCong` | 3rd/kcp/ikcp.c:931-1138 | the same for a whole flush |
| `KcpTiming.CheckNow` | 3rd/kcp/ikcp.c:1183-1219 | `ikcp_check` answers the current time exactly if a flush or a retransmission is due |
| `KcpTiming.CheckRefinesPolling` | 3rd/kcp/ikcp.c:1183-1219 | otherwise at most an interval ahead, and any earlier update only sets the clock, with no segment overdue; `KcpTiming.CheckLatest` says that no earlier answer would do |
| `KcpTiming.CheckLatest` | 3rd/kcp/ikcp.c:1199-1219 | at the time answered there is work to do, or a whole interval has passed: it is the latest such answer |
| `KcpTiming.ResentNotOverdue` | 3rd/kcp/ikcp.c:1050-1081 | one look of the flush loop leaves a segment sent and not overdue exactly if its new timeout is within half the clock |
| `KcpTiming.FlushedNotOverdue` | 3rd/kcp/ikcp.c:1049-1081 | after a flush all segments are so exactly if all timeouts set are |
| `KcpTiming.SmallTimersFit` | 3rd/kcp/ikcp.c:1058-1070 | timeouts below 2^30 are, since backing off at most doubles them |
| `KcpProbe.ProbeBounds` | 3rd/kcp/ikcp.c:970-990 | the probe timer exists exactly while the window is closed, is 7 seconds at first and half as long again each time it runs out, up to 120 seconds, and only running out asks |
| `KcpProbe.FlushAsks` | 3rd/kcp/ikcp.c:970-1014 | a flush asks and tells exactly as flagged, clears the flags, and carries the free window in every message |
| `KcpProbe.ArmedStep` | 3rd/kcp/ikcp.c:977-985 | in unbounded time: a flush asks exactly if the timer set last has run out, and then sets it anew |
| `KcpProbe.QuietCall` | 3rd/kcp/ikcp.c:970-1001 | a call that does not flush leaves the probe timer alone |
| `KcpProbe.UpdateSchedule` | 3rd/kcp/ikcp.c:1147-1175 | in unbounded time: an update flushes exactly if the flush is due by then, and the next one is due an interval after that, or after now if that has passed too |
| `KcpCadence.DueExactly` | 3rd/kcp/ikcp.c:1152-1166 | a flush is due unless one is scheduled 1 to 10000 milliseconds ahead |
| `KcpCadence.FlushesOnBeat` | 3rd/kcp/ikcp.c:1146-1175 | any calls with a clock that goes forward: no more updates flush than intervals have begun since the first, and exactly as many if none comes an interval or more after the call before: no drift |
| `KcpProbe.CallStep` | 3rd/kcp/ikcp.c:970-1001 | every call keeps clock, schedule and probe timer in order; a flush with a closed window sets the timer and asks exactly if it has run out |
| `KcpProbe.ProbesKeepComing` | 3rd/kcp/ikcp.c:970-1001 | whatever is called with a clock that goes forward: while flushes find the window closed, of any two of them two minutes or more apart one after the first, up to the second, asks |
| `KcpProbe.AskIsHeard` | 3rd/kcp/ikcp.c:848-851 | whoever takes in a datagram that asks is to tell its window in its next flush |
| `KcpProbe.TellIsSent` | 3rd/kcp/ikcp.c:1003-1012 | that flush puts out a datagram |
| `KcpProbe.WindowReopens` | 3rd/kcp/ikcp.c:788 | any one datagram of it gives the asker the free window modulo 65536: open again if there is room for 1 to 65535 segments |
| `KcpResend.FlushSegments` | 3rd/kcp/ikcp.c:1020-1086 | what a flush makes of every segment: sent, with this clock, window and `rcv_nxt`, if new, overdue or skipped often enough, else untouched; the timeout of a new one, doubled or half as long again after a timeout, kept with the skip count cleared in a fast retransmission |
| `KcpResend.FlushMessages` | 3rd/kcp/ikcp.c:1083-1106 | the data messages of a flush carry exactly the segments it sends, once each, in order, behind all other messages |
| `KcpResend.FlushControls` | 3rd/kcp/ikcp.c:944-1012 | before them all pending acknowledgements in order, one question and one answer at most, with the window and `rcv_nxt` of now |
| `KcpResend.FlushCounts` | 3rd/kcp/ikcp.c:1058-1110 | `xmit` grows by the number of segments overdue; the link is dead exactly from when some segment is sent the `dead_link`-th time |
| `KcpResend.SkippedOnce` | 3rd/kcp/ikcp.c:797-873 | a datagram read to its end counts each segment it leaves as skipped once if it acknowledges a later number, wherever in it, else not; a broken one counts none |
| `KcpLife.CallSegment` | 3rd/kcp/ikcp.c:609-1108 | what any call makes of a segment that it leaves outstanding, and whether it sends it |
| `KcpLife.SentAgain` | 3rd/kcp/ikcp.c:1050-1081 | any calls with a clock that goes forward: a segment sent at one flush and not since is sent by a later one exactly if its timeout has passed in between, or it has been skipped `fastresend` times and sent at most `fastlimit` times |
| `KcpWindow.FlushNumbers` | 3rd/kcp/ikcp.c:1016-1042 | a flush numbers queued fragments only while those in flight stay within `snd_wnd`, the peer's window and, with congestion control, `cwnd`, and stops only when they fill one of these |
| `KcpWindow.CallNumbers` | 3rd/kcp/ikcp.c:1016-1042 | so does each flush after any calls |
| `KcpWindow.FlushReacts` | 3rd/kcp/ikcp.c:1116-1137 | after a timeout `cwnd` is 1 and `ssthresh` half of the window that bound the flush; else after a fast retransmission `ssthresh` is half of what is in flight and `cwnd` that and `fastresend`; else both are as before |
| `KcpWindow.GrowExact` | 3rd/kcp/ikcp.c:875-897 | growth in slow start and in congestion avoidance, with its quotients characterized, never past the peer's window |
| `KcpWindow.CallCong` | 3rd/kcp/ikcp.c:749-1138 | a call without a loss changes the window only by growing it once, if it is a datagram read to its end that moves `snd_una` |
| `KcpWindow.SlowStart` | 3rd/kcp/ikcp.c:875-881 | any calls without a loss: below the threshold `cwnd` opens by at most one for each datagram that moves `snd_una`, and by exactly one if the peer has room |
| `KcpWindow.AfterTimeout` | 3rd/kcp/ikcp.c:1016-1137 | any calls: after a timeout, and n datagrams that move `snd_una` without another loss, a flush numbers fragments up to n + 1 in flight at most |
| `KcpWindow.ClimbsBack` | 3rd/kcp/ikcp.c:875-897 | any calls without a loss: `cwnd` never shrinks, and 62 datagrams that move `snd_una` open it by one at least while the peer has room |
| `KcpTraffic.RunNumbers` | 3rd/kcp/ikcp.c:1016-1042 | every run, in unbounded numbers: a flush numbers fragments only while those in flight stay within all three windows, and leaves some queued only if they fill one |
| `KcpTraffic.SampleIsTrip` | 3rd/kcp/ikcp.c:792-826 | every run: an acknowledgement that arrives carries the time of a flush in which that very number was sent, so each sample is a round trip |
| `KcpTraffic.DeliveredAcksUsed` | 3rd/kcp/ikcp.c:609-631 | every run: what arrives acknowledges only numbers already used, so segments are counted as skipped as `KcpResend.SkippedOnce` says |
| `KcpTraffic.NextMessage` | 3rd/kcp/ikcp.c:358-409 | message mode, every run: what `ikcp_recv` returns, read or only peeked at, is the next message accepted and not read yet |
| `KcpCodes.SendExactly` | 3rd/kcp/ikcp.c:469-537 | `ikcp_send` returns 0 exactly if what does not join the last fragment fits 127 segments, else -2; it queues as few fragments as it takes, all but the last full |
| `KcpCodes.QueuePacked` | 3rd/kcp/ikcp.c:478-501 | stream mode, after any calls: all fragments queued but the last are full |
| `KcpCodes.RecvExactly` | 3rd/kcp/ikcp.c:358-435 | `ikcp_recv` returns -1, -2 or -3 without effect exactly for an empty queue, an incomplete message or too small a buffer; else the first message, taken off unless only peeked at, and the window is to be told if the queue was full and has room now |
| `KcpCodes.InputExactly` | 3rd/kcp/ikcp.c:759-786 | `ikcp_input` returns -1 for less than a header, else the code for what it leaves unread |
| `KcpWitness.WindowWraps` | 3rd/kcp/ikcp.c:919-950 | after a segment has arrived and been read 65536 segments are free, and the flush says that none is |
| `KcpWitness.FastWraps` | 3rd/kcp/ikcp.c:1117-1124 | after 65536 repeated acknowledgements of a later segment the window is in step, and a flush with a fast retransmission leaves it out of step |
| `KcpWitness.TimeoutWraps` | 3rd/kcp/ikcp.c:1058-1070 | after a slow acknowledgement and 16 timeouts, on a link not yet dead, the segment just sent is overdue |
| `KcpDelivery.LeadsKeeps` | 3rd/kcp/ikcp.c:384-1138 | whatever happens without sends keeps all that was accepted, and nothing goes back |
| `KcpDelivery.QuietRoom` | 3rd/kcp/ikcp.c:384-409 | when no complete message is left to be read fewer than 127 fragments are, and the sender's `snd_una` is at most the receiver's `rcv_nxt` |
| `KcpDelivery.AskOnce` | 3rd/kcp/ikcp.c:970-1001 | with the window closed a sender can always come to a flush that asks for it |
| `KcpDelivery.OpenWindow` | 3rd/kcp/ikcp.c:788-851 | question and answer, and reading in between, can always open the window |
| `KcpDelivery.HeadDueNow` | 3rd/kcp/ikcp.c:1049-1070 | a segment is due when the clock is at its retransmission time, or with an open window when none is outstanding and some are queued |
| `KcpDelivery.OneMoreAcked` | 3rd/kcp/ikcp.c:931-1138 | one segment more can always be acknowledged |
| `KcpDelivery.DeliverRest` | 3rd/kcp/ikcp.c:384-1138 | so all of them can, and everything be read |
| `KcpDelivery.DeliveryStaysPossible` | 3rd/kcp/ikcp.c:384-1138 | from every state of every run with fewer than 2^30 numbers there is a continuation without sends in which the peer reads exactly what was accepted, if its window modulo 65536 is 127 or more |
| `KcpDelivery.BothDeliver` | 3rd/kcp/ikcp.c:384-1138 | the same in both directions at once |
| `KcpStall.StepABlocked` | 3rd/kcp/ikcp.c:931-1138 | a sender with nothing outstanding that hears only of a closed window numbers nothing, whatever it does |
| `KcpStall.StepHidden` | 3rd/kcp/ikcp.c:919-950 | a receiver with nothing to read whose free window is a multiple of 65536 only ever says that it is closed |
| `KcpStall.StalledForGood` | 3rd/kcp/ikcp.c:919-1138 | such a connection stays so whatever happens, further sends included: nothing more is read |
| `KcpStall.StallComesAbout` | 3rd/kcp/ikcp.c:919-950 | for every window below 127 modulo 65536 there is a run that ends so with bytes accepted and not read |
| `KcpStall.RoomDecides` | 3rd/kcp/ikcp.c:919-950 | delivery stays possible from every state of every run exactly if the receive window modulo 65536 is 127 or more |
| `Kcp.KcpCb.constructor` | 3rd/kcp/ikcp.c:234-295 | a new control block has the initial values |
| `Kcp.KcpCb.TopUpTail` | 3rd/kcp/ikcp.c:478-501 | stream mode fills the last queued fragment up to mss and takes that many bytes |
| `Kcp.KcpCb.QueueFragments` | 3rd/kcp/ikcp.c:514-534 | the loop appends the fragments and counts them |
| `Kcp.KcpCb.Send` | 3rd/kcp/ikcp.c:469-537 | code and queue are those of the specification; nothing else changes, and nothing at all for a negative length |
| `Kcp.KcpCb.Peek` | 3rd/kcp/ikcp.c:441-463 | the loop's sum is the size of the first message, -1 if it is not complete |
| `Kcp.KcpCb.MoveReady` | 3rd/kcp/ikcp.c:413-425 | the loop drains the reorder buffer |
| `Kcp.KcpCb.Merge` | 3rd/kcp/ikcp.c:383-409 | the loop's bytes are the first message; peeking removes nothing, reading exactly its fragments |
| `Kcp.KcpCb.Recv` | 3rd/kcp/ikcp.c:358-435 | code, bytes and control block are those of the specification; the assertion that the length is the peeked one holds |
| `Kcp.KcpCb.UpdateRtt` | 3rd/kcp/ikcp.c:543-558 | the estimator's step, of which `KcpSettle.SampleMoves` says what it moves |
| `Kcp.KcpCb.RemoveAcked` | 3rd/kcp/ikcp.c:571-591 | the scan removes the segment named, if it is outstanding |
| `Kcp.KcpCb.RemoveBefore` | 3rd/kcp/ikcp.c:593-607 | the scan removes the segments before a number |
| `Kcp.KcpCb.CountSkipped` | 3rd/kcp/ikcp.c:609-631 | the scan counts the segments skipped |
| `Kcp.KcpCb.AckPush` | 3rd/kcp/ikcp.c:637-671 | the list grows by the pair; moving it to a larger block keeps its contents |
| `Kcp.KcpCb.StoreData` | 3rd/kcp/ikcp.c:683-743 | the scan from the back inserts in order or drops a repeat, then drains |
| `Kcp.KcpCb.TakeIn` | 3rd/kcp/ikcp.c:788-865 | one pass of the input loop |
| `Kcp.KcpCb.GrowWindow` | 3rd/kcp/ikcp.c:876-896 | window growth |
| `Kcp.KcpCb.Input` | 3rd/kcp/ikcp.c:749-900 | the loop over any bytes returns the code and leaves the control block of the specification |
| `Kcp.KcpCb.WriteAcks` | 3rd/kcp/ikcp.c:956-966 | all pending acknowledgements are written in order |
| `Kcp.KcpCb.ProbePeer` | 3rd/kcp/ikcp.c:970-990 | a timer of 7 to 120 seconds is set exactly while the peer's window is closed; the window is asked for exactly when it has run out |
| `Kcp.KcpCb.WriteProbes` | 3rd/kcp/ikcp.c:992-1012 | the probes asked for are written |
| `Kcp.KcpCb.MoveToBuf` | 3rd/kcp/ikcp.c:1020-1042 | the loop numbers queued fragments while the window has room |
| `Kcp.KcpCb.SendSeg` | 3rd/kcp/ikcp.c:1050-1087 | first, timed-out, fast or no transmission, with the segment's new fields |
| `Kcp.KcpCb.SendDue` | 3rd/kcp/ikcp.c:1048-1108 | the loop sends exactly the due segments in order and notes losses, skips and dead links |
| `Kcp.KcpCb.AdjustWindow` | 3rd/kcp/ikcp.c:1116-1137 | window and threshold after losses |
| `Kcp.Write` | 3rd/kcp/ikcp.c:1089-1102 | writing into the output buffer, put out first when the message does not fit, keeps the framing and the buffer within mtu |
| `Kcp.FlushCompose` | 3rd/kcp/ikcp.c:931-1138 | a flush is its control part followed by its data part |
| `Kcp.KcpCb.Flush` | 3rd/kcp/ikcp.c:931-1138 | control block and datagrams are those of the specification, as `KcpResend` and `KcpWindow` describe them |
| `Kcp.KcpCb.Update` | 3rd/kcp/ikcp.c:1146-1171 | clock, schedule, control block and datagrams are those of the specification |
| `Kcp.KcpCb.CheckTime` | 3rd/kcp/ikcp.c:1183-1219 | the loop's answer is that of the specification, the latest allowed (`KcpTiming.CheckLatest`) |
| `IQueue.Neighbours` | 3rd/kcp/ikcp.h:137-139 | in a ring, `next` leads from each node to the following one and `prev` back |
| `IQueue.Add` | 3rd/kcp/ikcp.h:165-167 | the four writes insert a node behind any node of the ring and keep the rest |
| `IQueue.AddTail` | 3rd/kcp/ikcp.h:169-171 | the four writes append a node |
| `IQueue.Del` | 3rd/kcp/ikcp.h:175-178 | the four writes take a node out and clear its links |
| `IQueue.EmptyRing` | 3rd/kcp/ikcp.h:183 | a head linked to itself is exactly an empty queue |
| `Timer.Timer.Restart` | sznet/time/Timer.cpp:8-20 | a restarted timer is due after now exactly if its interval is a microsecond or more, and less than one microsecond before its interval is over |
| `Timer.Micros` | sznet/time/Timestamp.h:80-84 | truncation toward zero: less than a microsecond off, positive exactly from one microsecond on |
| `Timer.EventGreater` | sznet/time/TimerQueue.cpp:14-30 | 1, 0 and -1 for greater, equal and less |
| `MinHeap.EventGreaterOrders` | sznet/time/TimerQueue.cpp:14-30 | it is a total preorder, which is all the heap asks of its comparator |
| `MinHeap.SwapUp` | sznet/ds/MinHeap.h:48-54 | moving the parent into the hole leaves only the hole's key out of order |
| `MinHeap.SwapDown` | sznet/ds/MinHeap.h:67-84 | so does moving the least child |
| `MinHeap.LeastChild` | sznet/ds/MinHeap.h:69-73 | the child chosen is no greater than the other |
| `MinHeap.EraseAbove` | sznet/ds/MinHeap.h:176-182 | the last key put where an erased one was can only be too small when its parent is greater |
| `MinHeap.EraseBelow` | sznet/ds/MinHeap.h:176-188 | and only too great otherwise, the erased one being the last included |
| `MinHeap.RootIsLeast` | sznet/ds/MinHeap.h:197-200 | the root's key is least in heap order, for any total preorder |
| `MinHeap.Heap.ShiftUp` | sznet/ds/MinHeap.h:44-57 | heap order under the heap's comparator is restored, every slot links back to its element, and the elements are those before and the new one |
| `MinHeap.Heap.ShiftDown` | sznet/ds/MinHeap.h:60-88 | the same downwards |
| `MinHeap.Heap.Reserve` | sznet/ds/MinHeap.h:132-150 | growth keeps the contents; capacity at least doubles |
| `MinHeap.Heap.Push` | sznet/ds/MinHeap.h:152-158 | a valid heap of the old elements and the new one, for any total preorder |
| `MinHeap.Heap.Erase` | sznet/ds/MinHeap.h:169-195 | a valid heap without that element, which then says it is in none; -1 and no change if it was in none |
| `MinHeap.Heap.Top` | sznet/ds/MinHeap.h:197-200 | null exactly for an empty heap, else an element the comparator puts above no other |
| `MinHeap.Heap.Pop` | sznet/ds/MinHeap.h:202-214 | that element, out of a heap of all the others |
| `MinHeap.Heap.SizeIsCount` | sznet/ds/MinHeap.h:164-167 | the size is the number of elements |
| `MinHeap.Heap.RootIsFirst` | sznet/ds/MinHeap.h:197-200 | the comparator puts the element in slot 0 above no other |
| `TimerSpec.ActiveNames` | sznet/time/TimerQueue.cpp:81-83 | an identifier is active exactly if the timer it was handed out for is in the heap |
| `TimerSpec.SameSize` | sznet/time/TimerQueue.cpp:70-92 | the asserted sizes are equal whenever the structures agree |
| `TimerSpec.CancelNeedsAssertions` | sznet/time/TimerQueue.cpp:83-91 | a cancel keeps the structures in agreement exactly if assertions are compiled in or there is nothing to cancel |
| `TimerSpec.GoneForGood` | sznet/time/TimerQueue.cpp:77-127 | over any sequence of operations: a timer that has left is never again in the heap and never runs, its identifier names it still and no living timer |
| `TimerSpec.NamesForGood` | sznet/time/Timer.h:25 | over any sequence of operations identifiers stay handed out, and timers constructed later have other ones |
| `TimerSpec.ProgressStep` | sznet/time/TimerQueue.cpp:99-125 | one round keeps what holds of the timers run so far and of those their callbacks asked for |
| `TimerSpec.AllDueFired` | sznet/time/TimerQueue.cpp:95-127 | a timer that was due has run unless another one's callback cancelled it; one that was not stays unless cancelled |
| `TimerRounds.StaysDue` | sznet/time/TimerQueue.cpp:115-119 | a due timer that repeats with less than a microsecond is due after any number of rounds, until another one's callback cancels it |
| `TimerRounds.WasDue` | sznet/time/TimerQueue.cpp:99-125 | whatever is due after some rounds was due before them and has not been cancelled by another one's callback |
| `TimerRounds.RoundsConsume` | sznet/time/TimerQueue.cpp:99-125 | without such timers each round leaves one timer less due |
| `TimerRounds.ManyRounds` | sznet/time/TimerQueue.cpp:99-125 | from such a timer there are as many rounds as one likes |
| `TimerRounds.EndsOnceCancelled` | sznet/time/TimerQueue.cpp:99-125 | nothing can be left due before all such timers have been cancelled by other callbacks, and from then on the loop ends within as many rounds as timers are due |
| `TimerRounds.LoopEnds` | sznet/time/TimerQueue.cpp:99-125 | whatever the callbacks cancel: the rounds are bounded, by as many as timers are due, exactly if no due timer is such; else something is due as long as one of these is not cancelled |
| `TimerQueue.TinyQueue` | sznet/time/TimerQueue.cpp:55-60 | a queue for which it does not end |
| `TimerQueue.BrokenQueue` | sznet/time/TimerQueue.cpp:83-91 | without assertions a cancel leaves a queue that disagrees: the freed timer is in the heap and in nothing else |
| `TimerQueue.TimerQueue.ValidSound` | sznet/time/TimerQueue.cpp:70-92 | a queue in agreement is a population of the histories above |
| `TimerQueue.TimerQueue.NewTimer` | sznet/time/TimerQueue.cpp:57 | a new timer has a sequence number no timer ever had, at a free address, the wanted one if it is free; a step of the histories |
| `TimerQueue.TimerQueue.AddTimerInLoop` | sznet/time/TimerQueue.cpp:67-75 | heap and active set grow by the timer and agree; all assertions hold; a step of the histories |
| `TimerQueue.TimerQueue.AddTimer` | sznet/time/TimerQueue.cpp:55-60 | in the loop's thread: the heap grows by a new timer as asked for, which the identifier names; a step of the histories |
| `TimerQueue.TimerQueue.CancelInLoop` | sznet/time/TimerQueue.cpp:77-93 | with assertions exactly the timer the identifier was handed out for leaves, if it is in the heap; a stale or repeated cancel writes nothing, whoever has the address; without assertions the heap keeps a deleted timer exactly if one was active |
| `TimerQueue.TimerQueue.Execute` | sznet/time/TimerQueue.cpp:55-65 | a callback's call constructs and adds exactly the timer it asks for, or removes exactly the timer it names |
| `TimerQueue.TimerQueue.Run` | sznet/time/TimerQueue.cpp:114 | exactly the old timers that a callback cancels leave; exactly those it asks for are constructed, numbered in order, and are in the heap unless it cancels them; its own timer is in neither structure |
| `TimerQueue.TimerQueue.FireTop` | sznet/time/TimerQueue.cpp:110-124 | one round: the top timer runs, and is then added again or freed |
| `TimerQueue.TimerQueue.ExpiredProcess` | sznet/time/TimerQueue.cpp:95-127 | ends; runs timers once each in order of expiration, none after its cancellation; leaves exactly those neither cancelled nor run for their only time and those asked for meanwhile, all later than now; a step of the histories |
| `TimerQueue.TimerQueue.Destroy` | sznet/time/TimerQueue.cpp:38-53 | pops every timer once in order of expiration and frees it |
| `LoopSteps.StepKeepsInv` | sznet/net/EventLoop.cpp:87-323 | every step of any thread keeps the protocol's invariant |
| `LoopSteps.RunInv` | sznet/net/EventLoop.cpp:87-323 | the invariant holds in every state of every interleaving |
| `LoopSteps.NoLostWakeup` | sznet/net/EventLoop.cpp:151-169 | no interleaving blocks in the poll with a functor pending whose call in another thread or a functor has completed, nor with such a quit |
| `LoopSteps.OnceInOrder` | sznet/net/EventLoop.cpp:304-323 | functors run once each in the order queued; the others are all still to be run, in that order |
| `LoopSteps.HandlersSwappedOut` | sznet/net/EventLoop.cpp:108-120 | what event handlers queue has run before the next poll |
| `LoopSteps.RunByNextPoll` | sznet/net/EventLoop.cpp:95-121 | whatever is queued at some moment has run by the poll of any later iteration |
| `LoopSteps.StuckOrigins` | sznet/net/EventLoop.cpp:165-168 | functors of exactly two origins can be pending in a poll that no descriptor ends: queued by the loop thread in timer callbacks or before the loop |
| `LoopQuit.QuitDecides` | sznet/net/EventLoop.cpp:93-123 | every interleaving: the test at the head of the loop leaves it exactly if some thread, the loop's own included, has called `quit` since the loop was started |
| `LoopQuit.QuitEnds` | sznet/net/EventLoop.cpp:95-135 | a `quit` while the loop runs ends it at the next test, after one more poll at most |
| `LoopQuit.StaysOut` | sznet/net/EventLoop.cpp:87-93 | outside the loop no functor runs and nothing is polled until it is started |
| `LoopQuit.DescriptorCounts` | sznet/net/EventLoop.cpp:236-302 | the wakeup descriptor counts exactly the wakeups written since it was read |
| `LoopQuit.PollBlocks` | sznet/net/EventLoop.cpp:99-302 | a poll with nothing else to report blocks if nobody has woken the loop since the descriptor was read |
| `LoopQuit.ReadsExactly` | sznet/net/EventLoop.cpp:99-118 | after a poll the descriptor is read exactly if it was readable, before any functor runs |
| `LoopQuit.WakesExactly` | sznet/net/EventLoop.cpp:151-169 | `queueInLoop` wakes the loop exactly if called in another thread or in a functor |
| `LoopQuit.QuitWakes` | sznet/net/EventLoop.cpp:127-135 | `quit` takes effect at once and wakes the loop exactly if called in another thread |
| `EventLoop.EventLoop.Wakeup` | sznet/net/EventLoop.cpp:236-268 | the descriptor is readable afterwards, a saturated counter included |
| `EventLoop.EventLoop.HandleRead` | sznet/net/EventLoop.cpp:270-302 | the counter is cleared and nothing else changes |
| `EventLoop.EventLoop.QueueInLoop` | sznet/net/EventLoop.cpp:151-169 | a push, followed by a wakeup unless the loop thread is outside its pending functors |
| `EventLoop.EventLoop.QuitLoop` | sznet/net/EventLoop.cpp:127-135 | the flag is set, and from another thread the descriptor readable; `LoopQuit.QuitEnds` says what follows |
| `EventLoop.EventLoop.DoPendingFunctors` | sznet/net/EventLoop.cpp:304-323 | a path of the protocol that runs exactly what was pending, in order, and leaves what those functors queue pending with the descriptor readable |
| `LogSteps.PoolStep` | sznet/log/AsyncLogging.cpp:28-150 | every step keeps the buffer pool such that no hand-over lacks a buffer |
| `LogSteps.StepKeepsInv` | sznet/log/AsyncLogging.cpp:28-150 | every step keeps pool, lines and notices in account |
| `LogSteps.LinesConserved` | sznet/log/AsyncLogging.cpp:28-150 | every interleaving: the fitting lines appended are, in order, those written or cut, being written, queued and current; notices count the buffers cut |
| `LogSteps.FileIsPrefix` | sznet/log/AsyncLogging.cpp:107-123 | without a notice the file holds a prefix of the lines appended |
| `LogSteps.AssertionsHold` | sznet/log/AsyncLogging.cpp:83-144 | every interleaving: the assertions on spare buffers and batches never fail |
| `LogSteps.AppendHolds` | sznet/log/AsyncLogging.cpp:28-62 | a line is held exactly if it is shorter than the buffer; one of the buffer's size is dropped |
| `LogBatch.BatchWritten` | sznet/log/AsyncLogging.cpp:107-123 | every interleaving: a batch of at most 25 buffers is written in full, in order, without a notice; of n > 25 exactly the first two, behind one notice of n - 2 |
| `LogBatch.NothingLost` | sznet/log/AsyncLogging.cpp:83-150 | every interleaving in which no batch has more than 25 buffers: the file is a prefix of the fitting lines appended |
| `LogBatch.WaitsExactly` | sznet/log/AsyncLogging.cpp:87-99 | the logging thread waits exactly if no buffer is queued, else it collects all of them and the current one |
| `LogBatch.StopEnds` | sznet/log/AsyncLogging.cpp:83-150 | once stopped it starts no further round and leaves after the one it is in |
| `LogBatch.LeavesOnlyStopped` | sznet/log/AsyncLogging.cpp:83-150 | it does not leave before |
| `LogBatch.HeldExactly` | sznet/log/AsyncLogging.cpp:28-62 | a line given to `append` is held exactly if it is shorter than 4000000 bytes |
| `LogBatch.BeginsExactly` | sznet/log/AsyncLogging.cpp:33-61 | it joins the current buffer exactly if that leaves a byte free of its 4000000, else it begins another one |
| `LogBatch.BuffersBounded` | sznet/log/LogStream.h:39-46 | every interleaving: no buffer holds 4000000 bytes or more |
| `AsyncLogging.FixedBuffer.Append` | sznet/log/LogStream.h:39-46 | the bytes behind the position become the line's if that leaves a byte free, else nothing changes |
| `AsyncLogging.FixedBuffer.Reset` | sznet/log/LogStream.h:73-76 | the buffer is empty again |
| `AsyncLogging.AsyncLogging.Append` | sznet/log/AsyncLogging.cpp:28-62 | the producer's step |
| `AsyncLogging.AsyncLogging.CollectBatch` | sznet/log/AsyncLogging.cpp:93-99 | the consumer's critical section, with the assertions before and after it |
| `AsyncLogging.AsyncLogging.DropExcess` | sznet/log/AsyncLogging.cpp:107-117 | the step that cuts a batch; `LogBatch.BatchWritten` says what becomes of each batch |
| `AsyncLogging.AsyncLogging.WriteBatch` | sznet/log/AsyncLogging.cpp:118-123 | the loop writes the rest of the batch in order |
| `AsyncLogging.AsyncLogging.RecycleSpares` | sznet/log/AsyncLogging.cpp:124-147 | both spare buffers are there and empty again, taken from the batch without running out |
| `SelectPoller.ReadyRevents` | sznet/net/SelectPoller.cpp:83-95 | the event bits say exactly which sets have the descriptor |
| `SelectPoller.ReadyOnce` | sznet/net/SelectPoller.cpp:79-107 | the ready descriptors polled are each there once, and no others |
| `SelectPoller.ReadyBound` | sznet/net/SelectPoller.cpp:79-98 | they are no more than the bits set in all three sets |
| `SelectPoller.WantingExactly` | sznet/net/SelectPoller.cpp:34-53 | the three sets hold exactly the descriptors with the read bit 0x01, those with the write bit 0x08, and all |
| `SelectPoller.SelectPoller.UpdateChannel` | sznet/net/SelectPoller.cpp:109-137 | the channel is registered with its events; map, array and indices stay in bijection |
| `SelectPoller.SelectPoller.RemoveChannel` | sznet/net/SelectPoller.cpp:139-168 | exactly that channel leaves and the bijection stays; its index stays too, so it cannot be updated again |
| `SelectPoller.SelectPoller.ChannelOf` | sznet/net/SelectPoller.cpp:99-102 | the assertions of the scan hold |
| `SelectPoller.SelectPoller.FillActiveChannels` | sznet/net/SelectPoller.cpp:79-107 | the scan reports the channels of all ready descriptors with their events although it stops when the count is used up |
| `SelectPoller.SelectPoller.EachReadyOnce` | sznet/net/SelectPoller.cpp:79-107 | these are exactly the registered channels that are ready, each once |
| `SelectPoller.SelectPoller.BuildSets` | sznet/net/SelectPoller.cpp:30-53 | the loop makes these three sets, and no descriptor exceeds the maximum |
| `SelectPoller.SelectPoller.AsksAsRegistered` | sznet/net/SelectPoller.cpp:34-53 | `select` is asked for reading and writing exactly as registered, and for errors of every registered descriptor |
| `SelectPoller.SelectPoller.Poll` | sznet/net/SelectPoller.cpp:22-77 | the kernel is asked about exactly the registered descriptors, and its answer is reported in full or, on a timeout or error, not at all |

## Left out

- KcpRuns.RunInv: assumes both windows below 2^30 segments, fewer than 2^31 sequence numbers between a message in flight and the newest ones, a configuration fixed before traffic, and a network that does not alter messages. The network delivers any sequence of messages, of which whole datagrams are some.
- KcpDelivery.DeliveryStaysPossible: it says that the rest can be delivered, not that it is: losses, the clocks and the applications decide that. Fewer than 2^30 numbers keep old messages from being stale.
- KcpProbe.ProbesKeepComing: the clock goes forward by less than 2^30 milliseconds from one update to the next.
- KcpExchange.Progress: it does not say when the deliveries and flushes happen, since the network and the callers of `ikcp_update` decide that.
- KcpTiming.GrowCorrect: assumes `mss` of at most 65535 bytes, beyond which `mss * mss` wraps.
- KcpLife.SentAgain: flushes less than 2^31 milliseconds apart, a timeout below 2^31 and fewer than 2^31 transmissions; beyond that see `KcpWitness.TimeoutWraps`.
- KcpResend.SkippedOnce: acknowledgements of numbers used already, as all are in a run (`KcpTraffic.DeliveredAcksUsed`); one of a number not used yet keeps the whole datagram from counting.
- KcpWindow.ClimbsBack: assumes `mss` of at most 65535 bytes, as `KcpTiming.GrowCorrect`.
- KcpSettle.TimeoutSettles: samples below 2^28 milliseconds, as `KcpTiming.RttStep`.
- KcpTiming.RttStep: the signed 32-bit overflow of the estimator for samples of 2^28 milliseconds and more is not modelled; the estimates are integers.
- TimerQueue.TimerQueue.ExpiredProcess: assumes that no callback adds a timer already due, with which the loop need not end, and no due timer that repeats with less than a microsecond, with which it does not.
- TimerQueue.TimerQueue.CancelInLoop: without assertions, as in a Release build, the model says what a cancel of an active timer leaves, and nothing about the uses of the freed timer that follow; callbacks then must not cancel.
- Timer.Micros: intervals are reals, not doubles, so the rounding of the product is not modelled.
- Timer.Timer.Restart: the bounds are those of the exact product, as for `Timer.Micros`.
- TimerQueue.TimerQueue.Destroy: each timer leaves the active set as it is popped, where the source clears the set at the end.
- EventLoop.EventLoop.DoPendingFunctors: no other thread acts in between; their steps are in LoopSteps, where `loop` itself is modelled as steps.
- LogSteps.StepKeepsInv: `threadFunc` is modelled as the steps of its loop; the methods of `AsyncLogging` are those steps, without the loop around them.
- MinHeap.Heap.Push: the elements are timers and their keys integers, on which the comparator is any total preorder; sizes are unbounded.
- KCP: a null buffer passed to `ikcp_recv`, `ikcp_send` or `ikcp_input`; failing allocation; message sizes beyond 2^31; logging and allocator hooks; `IKCP_FASTACK_CONSERVE`; `ikcp_release`; changing mtu or windows during traffic.
- KCP queues are sequences in the control block, not nodes in memory: `IQueue` has the pointer operations, but a segment's own fields and its deletion are not tied to them. A received segment keeps only its number, fragment count and data; the probe flags are booleans.
- The setters of the configuration are functions on a configuration value.
- `iqueue_foreach` and `iqueue_splice`.
- Event loop: the poll's timeout, of ten seconds or none at all while timers are active, after which a stuck functor is run; channels and their callbacks, `runInLoop` in the loop's own thread, the destructor, a `quit` before `loop`, and the socket pair that stands in for the eventfd on Windows.
- Logger: file rolling and flushing, the text of the notice, bytes of buffers after `bzero`, and the condition variable beyond being woken at any time. Buffers are handed over as values, which unique pointers allow. Lines still held when the thread stops stay unwritten.
- Poller: `handleEvent`, `disableAll` and the other event flags, descriptors beyond the capacity of an `fd_set`, and log output.
- Sockets, `KcpTcpEventLoop`, `ThreadPool`, `CountDownLatch`, timestamps' text, and integer conversion.
