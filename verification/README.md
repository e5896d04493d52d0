# Verified models of the media server's transport code

This project models six pieces of the repository in Dafny and proves properties of them:

* **KCP** (`servererizo/KKkcp/ikcp.c`), a reliable transport over datagrams with retransmission,
  selective and cumulative acknowledgement, a reorder buffer, fragmentation, a round-trip estimator,
  a congestion window, window probing and a flush timer;
* the **readers-writer lock** of `servererizo/kkRes/Base/KKRWLock.cpp`, Windows branch;
* the **RTP reordering queue** (`RtpPacketQueue.cpp`);
* the **NACK scheduler** (`RtcpNackGenerator.cpp`) with its PID/BLP packing;
* the **token bucket** (`TokenBucket.cpp`);
* the **ICE candidate printer and parser** (`SdpInfo.cpp`, `StringUtil.cpp`) and the **REMB bitrate
  codec** (`RtpHeaders.h`).

`dafny verify dfyconfig.toml` checks everything.

## How it is organised

KCP comes in three layers.

1. `KcpSpec` gives the control block as a value and every operation of `ikcp.c` as a function on it,
   branch by branch, in wrapping 32-bit arithmetic. `KcpWire` is the 24-byte header.
2. `Kcp` is the control block as the code keeps it: a class with flat fields, queues with separate
   counters, an acknowledgement array that doubles, and an output buffer written through a moving
   position. Each method runs the loops of the source and is proved to compute the function of
   `KcpSpec` on the whole state, to keep the counters equal to the lengths, and never to write past
   the buffer.
3. `KcpSystem` puts two endpoints around a network that drops, duplicates and reorders datagrams, as a
   step relation over whole runs. Its history counts how often `snd_una`, `snd_nxt` and `rcv_nxt`
   have been incremented, as unbounded numbers.

What is proved about one endpoint under arbitrary calls and arbitrary incoming bytes is in `KcpSender`,
`KcpReceiver`, `KcpRuns`, `KcpWindow` (what the windows allow, and how the congestion window grows and
falls), `KcpCongestion` and `KcpOverflow` (its byte accounting, and runs that break it), `KcpRtt`,
`KcpTimer`, `KcpProbing` and `KcpProbeRuns` (window probes, in one flush and over a run) and `KcpBuffered`
(what the send buffer holds); about messages and datagrams in `KcpMessages`, `KcpPacking` and `KcpArrivals`
(what input answers to any bytes); about two endpoints in `KcpLink` (one direction), `KcpSteps` (every step
keeps the invariant), `KcpSafety` (the safety theorems), `KcpEcho` (what acknowledgements echo), `KcpPaths`
and `KcpProgress` (from every reachable state everything can still arrive), `KcpStall` (windows for which
that fails) and `KcpDelivery` (a run of five steps that delivers a message). `Serial` and `Numbers` hold the
machine words and small facts.

For each operation there is a class method, a function that the method is proved to compute, and theorems
that say what the function does without naming it.

The lock is a state machine over threads. The other components are classes whose methods are proved
against functions on values, and the properties are proved about those functions and about runs of them.

## What a reader should know

* Sequence numbers have 32 bits and cannot be told apart 2^31 increments apart. The system of two
  endpoints therefore has a number `age`: a datagram is no longer delivered once more than `age` further
  fragments have been numbered on either side, with 2 * age + 2 * snd_wnd <= 2^31 and
  age + snd_wnd + rcv_wnd < 2^31. `KcpSafety.YoungNetworkIsFree` shows that this is no limit for the
  first `age` fragments.
* "The receiver has a segment" means that its number is below `rcv_nxt` or in `rcv_buf`. `snd_una` can
  be ahead of the peer's `rcv_nxt`, because segments parked behind a full queue are acknowledged one by
  one.
* Message mode is assumed for the theorems about two endpoints. Stream mode is covered for one endpoint
  (`KcpMessages.SendStream`): there a result of -2 can come after part of the buffer has been taken.
  `KcpMessages.StreamRefused` says exactly when, and `KcpMessages.StreamTakesPart` gives two such calls.
* `ikcp_send` accepts a message of up to 255 fragments, whatever the receive window of the peer is. One of
  more than `rcv_wnd` fragments is never read, nor is anything behind it (`KcpSafety.TooLongIsNeverRead`).
  That is the only way in which progress can end for good (`KcpProgress.EverythingGetsThrough`), apart from
  receive windows of 2^16 and more: their announcement is cut to 16 bits, and for a multiple of 2^16 a
  connection can stall (`KcpStall.WindowStalls`).
* `ikcp_check` right after an update that flushed names a later time unless a buffered segment is stuck
  (`KcpProbing.CheckMovesOn`). None is while the clock stays within about twelve days
  (`KcpBuffered.CheckNeverSpins`); a clock that jumps by 2^31 ms can make one
  (`KcpBuffered.JumpSpins`).
* Settings (mtu, windows, stream mode, interval, minimum timeout, fast resend) are fixed before the first
  send. `long` has 64 bits, as on Unix; signed 32-bit overflow is modelled as wrapping.
* The congestion accounting `cwnd * mss <= incr < (cwnd + 1) * mss` is not kept by all settings: a byte
  count can pass 2^32. `KcpCongestion.GrowExact` and `KcpCongestion.FlushExact` say exactly when one
  input or one flush keeps it, `KcpOverflow.FastResendOverflows` and `KcpOverflow.GrowthOverflows` give
  runs in which a flush and an input do not, and `KcpCongestion.ReachableAccounted` proves it for all runs
  with a payload that fits a UDP datagram and windows in proportion. With `fastresend` 0 the word
  0xffffffff is added to `ssthresh`, so such a flush would set the window to `ssthresh - 1`.
* The capping of `cwnd` at the end of `ikcp_input` never happens, since growth starts below the cap and
  goes up by one (`KcpCongestion.InputRaisesByOne`).
* `RtpUtils::sequenceNumberLessThan` calls a packet old only if it is less than 4096 behind; one that is
  further behind counts as newer (`NackGenerator.LessThanMeans`).
* A report of the NACK scheduler does not include every entry that is due: it passes over the entry that
  ends a block, and over one that follows an entry dropped inside a block. `NackGenerator.LeftOutExactly`
  says that these are all, `NackGenerator.DueEntryLeftOut` gives a list of two, and
  `NackGenerator.NothingLeftOut` a condition under which nothing is left out.
* A token bucket whose clock has not yet reached the burst time refuses small requests and grants large
  ones. `TokenBucket.EarlyConsume` and `TokenBucket.AgreesExactlyAfterBurst` say exactly which. It can
  also grant two whole bursts at one instant (`TokenBucket.TwentyAtOnce`): the rate limit holds exactly
  from the burst time on (`TokenBucket.LimitExactlyAfterBurst`).
* A candidate whose address contains a colon, such as an IPv6 address, does not survive printing and
  parsing; `Candidate.RoundTripExact` says exactly which candidates do. Negative ports do.
* `setREMBBitRate` shifts by 64 for bitrates from 0x3FFFF * 2^46 on, which C++ leaves undefined
  (`Remb.ExponentExact`), and `getREMBBitRate` shifts a 32-bit word (`Remb.GetterExact`).

## Model

| member | source | states |
|---|---|---|
| `Serial.UnwrapInverts` | servererizo/KKkcp/ikcp.c:135-138 | a 32-bit number stands for exactly one unbounded index in any range of 2^32 |
| `Serial.DiffOfIndices` | servererizo/KKkcp/ikcp.c:135-138 | `_itimediff` is the true difference of indices less than 2^31 apart |
| `KcpWire.Encode32Inverts` | servererizo/KKkcp/ikcp.c:93-120 | encoding a decoded word gives the 4 bytes back |
| `KcpWire.DecodeInverts` | servererizo/KKkcp/ikcp.c:53-120 | a segment at the front of a datagram is read back field by field with its payload, whatever follows |
| `Kcp.ControlBlock.constructor` | servererizo/KKkcp/ikcp.c:233-293 | a new control block is the initial value, with consistent counters and arrays |
| `Kcp.ControlBlock.Send` | servererizo/KKkcp/ikcp.c:467-535 | the loops of `ikcp_send` compute the new send queue and result, -1 for a negative length |
| `Kcp.ControlBlock.Fragment` | servererizo/KKkcp/ikcp.c:512-532 | the fragment loop appends exactly the cut of the buffer and counts it |
| `Kcp.ControlBlock.PeekSize` | servererizo/KKkcp/ikcp.c:439-461 | the length of the next complete message, or -1 |
| `Kcp.ControlBlock.Recv` | servererizo/KKkcp/ikcp.c:356-433 | result, bytes in the caller's buffer and new state of `ikcp_recv`, peeking or not |
| `Kcp.ControlBlock.Merge` | servererizo/KKkcp/ikcp.c:381-409 | the merge loop copies one message and unlinks exactly its segments |
| `Kcp.ControlBlock.MoveAvailable` | servererizo/KKkcp/ikcp.c:713-725 | the move loop takes the longest in-order run that the queue has room for |
| `Kcp.PeekIsMerged` | servererizo/KKkcp/ikcp.c:409 | the assertion `len == peeksize` holds |
| `Kcp.ControlBlock.UpdateAck` | servererizo/KKkcp/ikcp.c:541-556 | one step of the estimator |
| `Kcp.ControlBlock.ShrinkBuf` | servererizo/KKkcp/ikcp.c:558-567 | `snd_una` becomes the first buffered number, or `snd_nxt` |
| `Kcp.ControlBlock.ParseAck` | servererizo/KKkcp/ikcp.c:569-589 | the search loop removes the acknowledged segment if it is found |
| `Kcp.ControlBlock.ParseUna` | servererizo/KKkcp/ikcp.c:591-605 | the loop removes the covered segments at the front |
| `Kcp.ControlBlock.ParseFastack` | servererizo/KKkcp/ikcp.c:607-624 | the loop counts a skip for every earlier segment |
| `Kcp.ControlBlock.AckPush` | servererizo/KKkcp/ikcp.c:630-664 | the list gets one more entry and keeps the others, in the old array or a larger one |
| `Kcp.ControlBlock.GrowAcks` | servererizo/KKkcp/ikcp.c:635-658 | the new array is large enough and holds the old entries |
| `Kcp.ControlBlock.AckGet` | servererizo/KKkcp/ikcp.c:666-670 | number and time of one entry |
| `Kcp.ControlBlock.ParseData` | servererizo/KKkcp/ikcp.c:676-736 | backward search, insertion without duplicates, and the move to the queue |
| `Kcp.ControlBlock.Process` | servererizo/KKkcp/ikcp.c:781-849 | what one segment of a datagram does to the whole state |
| `Kcp.ControlBlock.InputLoop` | servererizo/KKkcp/ikcp.c:754-853 | the loop processes the segments up to the end or the first fault, and returns the right code |
| `Kcp.ControlBlock.GrowWindow` | servererizo/KKkcp/ikcp.c:860-876 | the growth of the congestion window |
| `Kcp.ControlBlock.Input` | servererizo/KKkcp/ikcp.c:742-880 | new state and result of `ikcp_input` for any bytes; what they are say `KcpArrivals.InputResult` and `KcpWindow.InputGrows` |
| `Kcp.EncodeSeg` | servererizo/KKkcp/ikcp.c:886-897 | the header bytes are written at the position, and the position moves by 24 |
| `Kcp.ControlBlock.Emit` | servererizo/KKkcp/ikcp.c:1064-1077 | one more segment is packed, after a datagram is sent if it would pass the mtu, within the buffer |
| `Kcp.ControlBlock.FlushAcks` | servererizo/KKkcp/ikcp.c:936-946 | all queued acknowledgements are packed in order |
| `Kcp.ControlBlock.ProbeWindow` | servererizo/KKkcp/ikcp.c:950-970 | the probe timer, whose meaning over a run is `KcpProbeRuns.ProbeGoesOut` |
| `Kcp.ControlBlock.FlushProbes` | servererizo/KKkcp/ikcp.c:972-994 | the requested probes are packed and the requests cleared |
| `Kcp.ControlBlock.AdmitQueued` | servererizo/KKkcp/ikcp.c:1000-1022 | the loop numbers exactly the segments that the window admits |
| `Kcp.ControlBlock.Mark` | servererizo/KKkcp/ikcp.c:1032-1062 | what a flush does to one buffered segment, and why it is sent |
| `Kcp.ControlBlock.FlushData` | servererizo/KKkcp/ikcp.c:1028-1083 | the loop over the send buffer: segments, counters, dead link, and what is packed |
| `Kcp.ControlBlock.UpdateThresh` | servererizo/KKkcp/ikcp.c:1091-1112 | threshold and window after retransmissions |
| `Kcp.ControlBlock.Flush` | servererizo/KKkcp/ikcp.c:911-1113 | new state and datagrams of `ikcp_flush`, and nothing before the first update; how much it sends say `KcpWindow.FlushAdmits` and `KcpPacking.FlushOrder` |
| `Kcp.ControlBlock.Schedule` | servererizo/KKkcp/ikcp.c:1125-1143 | the flush time after an update, and whether it flushes |
| `Kcp.ControlBlock.Update` | servererizo/KKkcp/ikcp.c:1121-1146 | new state and datagrams of `ikcp_update` |
| `Kcp.ControlBlock.Check` | servererizo/KKkcp/ikcp.c:1158-1194 | the time that `ikcp_check` returns |
| `KcpMessages.CutShape` | servererizo/KKkcp/ikcp.c:505-532 | fragments concatenate to the buffer, each fits `mss`, and `frg` counts down to 0 (all 0 in stream mode) |
| `KcpMessages.SendMessage` | servererizo/KKkcp/ikcp.c:505-534 | message mode appends exactly the message's fragments on 0 and nothing on -2, and gives 0 exactly for at most 255 fragments |
| `KcpMessages.SendStream` | servererizo/KKkcp/ikcp.c:476-534 | on 0, stream mode appends exactly the buffer's bytes to the byte stream of the queue |
| `KcpMessages.SendableMeans` | servererizo/KKkcp/ikcp.c:505-508 | a buffer needs at most 255 fragments exactly if it is no longer than 255 payloads |
| `KcpMessages.StreamRefused` | servererizo/KKkcp/ikcp.c:476-508 | in stream mode -2 comes exactly if more than 255 payloads are left after the last segment has been filled, exactly those bytes have then been taken, and none exactly if it was full or there was none |
| `KcpMessages.StreamTakesPart` | servererizo/KKkcp/ikcp.c:476-508 | with the smallest payload that the setter allows, two calls of which the second returns -2 after it has taken bytes |
| `KcpMessages.PeekFindsMessage` | servererizo/KKkcp/ikcp.c:439-461 | a queue that continues the stream of fragments has a message ready exactly when all its fragments are there, and then merging gives that message and length |
| `KcpSender.HearAckKeeps` | servererizo/KKkcp/ikcp.c:558-605 | any `una` and any acknowledged number leave the send buffer sorted and `snd_una` at its head, not moved back |
| `KcpSender.ParseAckRemoves` | servererizo/KKkcp/ikcp.c:569-589 | an acknowledgement in range removes its number and no other |
| `KcpSender.ParseUnaRemoves` | servererizo/KKkcp/ikcp.c:591-605 | `una` in range removes exactly the numbers below it |
| `KcpSender.ParseFastackKeeps` | servererizo/KKkcp/ikcp.c:607-624 | skip counts change no number |
| `KcpSender.ParseFastackCounts` | servererizo/KKkcp/ikcp.c:607-624 | an acknowledgement counts one skip for exactly the buffered numbers below it |
| `KcpSender.AdmitKeeps` | servererizo/KKkcp/ikcp.c:996-1022 | admission keeps the buffer sorted and within `snd_wnd` of `snd_una` |
| `KcpSender.AdmitsAll` | servererizo/KKkcp/ikcp.c:1001-1022 | a flush admits as many segments as window and queue allow, no fewer |
| `KcpReceiver.WindowTest` | servererizo/KKkcp/ikcp.c:811-813 | the two comparisons accept exactly the receive window |
| `KcpReceiver.SearchBackFinds` | servererizo/KKkcp/ikcp.c:688-698 | the backward search finds the number or the one place where it belongs |
| `KcpReceiver.InsertKeeps` | servererizo/KKkcp/ikcp.c:688-706 | insertion keeps the reorder buffer sorted and adds the number exactly once |
| `KcpReceiver.DrainKeeps` | servererizo/KKkcp/ikcp.c:713-725 | the move leaves the head different from `rcv_nxt` unless the queue is full |
| `KcpReceiver.AcceptPushKeeps` | servererizo/KKkcp/ikcp.c:806-830 | any data segment keeps the receiver invariant, and moves `rcv_nxt` forward by exactly as many segments as the queue gains, at most `rcv_wnd` |
| `KcpReceiver.AfterRecvKeeps` | servererizo/KKkcp/ikcp.c:381-423 | so does a successful read or peek, counted from the queue without the message |
| `KcpRuns.InputKeeps` | servererizo/KKkcp/ikcp.c:742-880 | both invariants survive any byte string, whatever `ikcp_input` returns; `snd_una` moves forward, and `rcv_nxt` by what the queue gains |
| `KcpRuns.ApplyKeeps` | servererizo/KKkcp/ikcp.c:356-1146 | every operation keeps both invariants and moves no number backwards, `snd_una` at most to the old `snd_nxt` and `rcv_nxt` by at most `rcv_wnd` |
| `KcpRuns.ReachableShape` | servererizo/KKkcp/ikcp.c:233-1146 | in every reachable state the send buffer increases inside [snd_una, snd_nxt) at most `snd_wnd` wide with `snd_una` at its head, and the reorder buffer inside the receive window without duplicates, both lengths at most `rcv_wnd` |
| `KcpRuns.NumbersMoveForward` | servererizo/KKkcp/ikcp.c:558-736 | in wrapping terms `snd_una` never moves back and never past the earlier `snd_nxt`, and `rcv_nxt` and `snd_nxt` move forward by at most a window |
| `KcpPacking.SplitJoins` | servererizo/KKkcp/ikcp.c:936-1089 | dividing the segments among datagrams loses, repeats and moves none |
| `KcpPacking.FlushThenInput` | servererizo/KKkcp/ikcp.c:911-1089 | every datagram of a flush is 24 to mtu bytes of whole segments, together they are the flush's segments in order, and input on an endpoint with the same `conv` processes exactly those and returns 0 |
| `KcpPacking.SplitIsGreedy` | servererizo/KKkcp/ikcp.c:936-1089 | no datagram of a flush had room for the first segment of the next |
| `KcpPacking.InputReads` | servererizo/KKkcp/ikcp.c:742-853 | a run of understood segments is read as exactly that run |
| `KcpPacking.FlushKind` | servererizo/KKkcp/ikcp.c:927-992 | every segment sent announces `rcv_nxt` and the free window, and is a queued acknowledgement with its number and time, a probe, or a buffered segment stamped with the current time |
| `KcpPacking.FlushOrder` | servererizo/KKkcp/ikcp.c:936-1083 | acknowledgements go first, as they were queued, then a probe, an announcement, and data in the order of the send buffer |
| `KcpPacking.DueIsSent` | servererizo/KKkcp/ikcp.c:936-1083 | every queued acknowledgement and every due segment is sent |
| `KcpArrivals.InputResult` | servererizo/KKkcp/ikcp.c:742-853 | whole segments at the front of a datagram are processed; up to 23 bytes behind them are ignored with 0, and otherwise -1, -2 or -3 come for another conversation, missing payload and an unknown command |
| `KcpArrivals.EveryDatagram` | servererizo/KKkcp/ikcp.c:754-779 | every byte string is whole segments and one of these endings |
| `KcpArrivals.InputTells` | servererizo/KKkcp/ikcp.c:832-846 | input asks for a window announcement exactly if the datagram has a probe |
| `KcpArrivals.HeaderLayout` | servererizo/KKkcp/ikcp.c:886-897 | a header byte by byte |
| `KcpArrivals.AnnouncesRoom` | servererizo/KKkcp/ikcp.c:900-906 | every segment of a flush announces the room left in the receive queue, modulo 2^16, and `rcv_nxt` |
| `KcpWindow.FlushAdmits` | servererizo/KKkcp/ikcp.c:996-1022 | a flush numbers as many queued segments as fit between what is in flight and the least of send window, announced window and, unless switched off, congestion window |
| `KcpWindow.InFlightIsLimited` | servererizo/KKkcp/ikcp.c:996-1022 | in every run the number in flight rises in flushes only, and exactly to that least window or by the whole queue |
| `KcpWindow.InputGrows` | servererizo/KKkcp/ikcp.c:859-877 | `cwnd` and `incr` grow by one segment in slow start and by the avoidance step from the threshold on, exactly in an input that returns 0 and has moved `snd_una` below the announced window |
| `KcpWindow.SlowStart` | servererizo/KKkcp/ikcp.c:859-1112 | over a run without retransmission, k inputs that move `snd_una` take `cwnd` from c to c + k until it reaches the threshold or the announced window |
| `KcpWindow.FlushBacksOff` | servererizo/KKkcp/ikcp.c:1047-1112 | a timeout halves the threshold from the window in use and restarts at one segment, skips halve it from what is in flight, and otherwise nothing changes; every timeout is counted |
| `KcpWindow.FlushKills` | servererizo/KKkcp/ikcp.c:1078-1080 | the link is dead exactly from the flush on that sends some segment for the `dead_link`th time |
| `KcpLink.HearAckSafe` | servererizo/KKkcp/ikcp.c:781-798 | honest answers never remove a segment that the receiver lacks |
| `KcpLink.AcceptPushSafe` | servererizo/KKkcp/ikcp.c:806-830 | an honest data segment is stored once in its place, and if it is acknowledged it is held |
| `KcpSteps.NextKeeps` | servererizo/KKkcp/ikcp.c:356-1146 | every step of two endpoints and the network keeps the system invariant |
| `KcpSafety.InvHolds` | servererizo/KKkcp/ikcp.c:233-1146 | the invariant holds throughout every run |
| `KcpSafety.MirrorRuns` | servererizo/KKkcp/ikcp.c:233-1146 | a run seen from the other endpoint is a run |
| `KcpSafety.MessagesArriveInOrder` | servererizo/KKkcp/ikcp.c:356-535 | in every run the messages received on either side are a prefix of those accepted on the other, byte for byte |
| `KcpSafety.NothingAcknowledgedIsLost` | servererizo/KKkcp/ikcp.c:558-605 | every number below `snd_nxt` is in the send buffer or held by the peer |
| `KcpSafety.QueuedAcksAreHeld` | servererizo/KKkcp/ikcp.c:811-830 | every queued acknowledgement names a held segment, the one index in the 2^31 below the sender's `snd_nxt` that it can mean |
| `KcpSafety.AnswersInFlightAreHeld` | servererizo/KKkcp/ikcp.c:927-946 | so does every acknowledgement in flight, and every `una` in flight names only what its sender has received in order; both mean the one index in the 2^31 below what the peer had numbered |
| `KcpSafety.DatagramsAreAccepted` | servererizo/KKkcp/ikcp.c:742-880 | every datagram of a run is accepted with 0 at any time |
| `KcpSafety.ReceiveResult` | servererizo/KKkcp/ikcp.c:356-433 | at any time in any run `ikcp_recv` gives -1 for an empty queue, -2 for an incomplete message, -3 for one that is too long, changing nothing, and otherwise exactly the next message |
| `KcpEcho.AcksEchoTransmissions` | servererizo/KKkcp/ikcp.c:811-812 | every acknowledgement, queued or in flight, carries number and time of a data segment that the peer has sent |
| `KcpEcho.NotesLargest` | servererizo/KKkcp/ikcp.c:791-798 | of numbers less than 2^31 apart the largest acknowledged one is noted |
| `KcpSafety.FullQueueCanBeRead` | servererizo/KKkcp/ikcp.c:378-460 | a full queue can be read exactly if the next message has at most `rcv_wnd` fragments: then exactly that message comes, the queue is refilled and the window announced exactly if it ends below the window; otherwise every length gets -2 |
| `KcpSafety.TooLongIsNeverRead` | servererizo/KKkcp/ikcp.c:439-535 | an accepted message of more than `rcv_wnd` fragments is never read in any continuation of the run, nor is anything after it |
| `KcpPaths.Carry` | servererizo/KKkcp/ikcp.c:742-1146 | any segment of a flush can reach the peer in a continuation of an update and a delivery, and what reaches it is processed as one group of that flush |
| `KcpProgress.DeliverNext` | servererizo/KKkcp/ikcp.c:676-1083 | while the peer lacks a numbered fragment and its queue has room, a continuation moves its `rcv_nxt` on |
| `KcpProgress.NumberMore` | servererizo/KKkcp/ikcp.c:950-1022 | when everything numbered has arrived, a continuation of retransmission or window probe, answer and flushes numbers another fragment |
| `KcpProgress.AnnouncedMeans` | servererizo/KKkcp/ikcp.c:886-906 | the settings named below are exactly those whose announcement is never cut to 0 while less than one message is queued |
| `KcpProgress.MessagesGetThrough` | servererizo/KKkcp/ikcp.c:356-1146 | from the end of any run, whatever was lost, some continuation delivers to one side all messages accepted on the other, exactly if each has at most `rcv_wnd` fragments; for receive windows below 2^16, or at least 255 above a multiple of it |
| `KcpProgress.EverythingGetsThrough` | servererizo/KKkcp/ikcp.c:356-1146 | the same for both directions at once |
| `KcpStall.NextStays` | servererizo/KKkcp/ikcp.c:742-1146 | once the window of an empty queue is taken for closed and every datagram under way says so, every step of either side leaves it at that, if the receive window is a multiple of 2^16 |
| `KcpStall.WindowStalls` | servererizo/KKkcp/ikcp.c:900-1022 | for every such window there is a run with two messages of one fragment that no continuation delivers |
| `KcpDelivery.MessageGetsThrough` | servererizo/KKkcp/ikcp.c:356-1146 | for any settings in range and any message of one fragment there is a run that delivers it |
| `KcpCongestion.GrowExact` | servererizo/KKkcp/ikcp.c:859-877 | input keeps the byte accounting exactly if nothing passes 2^32 |
| `KcpCongestion.FlushExact` | servererizo/KKkcp/ikcp.c:1091-1112 | a flush keeps it exactly if it backs off, has no fast retransmission, or sets a window below 2^32 bytes |
| `KcpOverflow.FastResendOverflows` | servererizo/KKkcp/ikcp.c:1092-1099 | a run from `ikcp_create` in which a flush breaks it: three messages, two acknowledgements, and the fast retransmission |
| `KcpOverflow.GrowthOverflows` | servererizo/KKkcp/ikcp.c:859-877 | a run in which an input breaks it |
| `KcpCongestion.InputRaisesByOne` | servererizo/KKkcp/ikcp.c:859-877 | input raises `cwnd` by at most one, only after `snd_una` has moved, and never past `rmt_wnd` |
| `KcpCongestion.FlushOpensWindow` | servererizo/KKkcp/ikcp.c:1091-1112 | after a flush that runs `cwnd` is at least 1 and `ssthresh` at least 2 |
| `KcpCongestion.ReachableAccounted` | servererizo/KKkcp/ikcp.c:859-1112 | in every reachable state `ssthresh >= 2`, and `cwnd * mss <= incr < (cwnd + 1) * mss` for settings in proportion |
| `KcpRtt.StepExact` | servererizo/KKkcp/ikcp.c:541-556 | below 2^28 ms the two weighted sums and the timeout before its bounds fit their words, and the 32-bit estimator computes the unbounded one |
| `KcpRtt.EstimateWithin` | servererizo/KKkcp/ikcp.c:541-556 | over all samples in [m, R] the smoothed time stays in [m, R] and the deviation is at most R |
| `KcpRtt.LargeSampleWraps` | servererizo/KKkcp/ikcp.c:551 | the limit is sharp: the second of two samples of 2^28 ms wraps the product, and the smoothed time becomes 1 |
| `KcpRtt.RunWithin` | servererizo/KKkcp/ikcp.c:785-788 | the same for the samples that a whole run hears |
| `KcpRtt.RunExact` | servererizo/KKkcp/ikcp.c:785-788 | over a whole run with samples below 2^28 ms the estimator is the unbounded one |
| `KcpRtt.ReachableRto` | servererizo/KKkcp/ikcp.c:554-555 | `30 <= rx_rto <= 60000` in every reachable state, even if a product wraps |
| `KcpTimer.CheckIsNow` | servererizo/KKkcp/ikcp.c:1158-1194 | `ikcp_check` returns the current time exactly when an update would flush, a retransmission is due, or the interval is 0 |
| `KcpTimer.CheckIsFirst` | servererizo/KKkcp/ikcp.c:1179-1193 | a later time is exactly the first of the flush time, one interval, and the earliest retransmission |
| `KcpTimer.NothingBeforeCheck` | servererizo/KKkcp/ikcp.c:1121-1194 | before that time no update flushes and no segment is due |
| `KcpTimer.QuietUntilCheck` | servererizo/KKkcp/ikcp.c:1121-1194 | nor does any of any number of updates before it |
| `KcpTimer.FlushIsScheduled` | servererizo/KKkcp/ikcp.c:1139-1144 | after a flush `current < ts_flush <= current + interval` |
| `KcpTimer.NextFlush` | servererizo/KKkcp/ikcp.c:1132-1145 | from then on an update flushes exactly from the scheduled time on |
| `KcpTimer.FlushPace` | servererizo/KKkcp/ikcp.c:1125-1143 | the next flush time is the old one plus the interval if that is still ahead, and one interval from now otherwise |
| `KcpTimer.FlushesKeepTime` | servererizo/KKkcp/ikcp.c:1121-1146 | while updates come in time, the flush times are whole intervals after the first, without drift |
| `KcpProbing.ProbesSent` | servererizo/KKkcp/ikcp.c:950-994 | a flush asks for the window exactly if a probe is due, and announces its own exactly if that was requested |
| `KcpProbing.ProbeBackoff` | servererizo/KKkcp/ikcp.c:950-970 | the wait starts at 7 s, grows by half up to 120 s, ends with an open window, and no probe is due before it is over |
| `KcpProbing.ProbesRepeat` | servererizo/KKkcp/ikcp.c:972-992 | a probe repeats number and time of the last acknowledgement |
| `KcpProbeRuns.WaitStays` | servererizo/KKkcp/ikcp.c:950-970 | while the window stays closed, flushes before the end of a wait change neither the wait nor the time of the probe |
| `KcpProbeRuns.ProbeGoesOut` | servererizo/KKkcp/ikcp.c:950-984 | in such a run a flush sends a probe exactly from the end of the wait on, so the first flush then does and none before |
| `KcpProbing.ReachableProbe` | servererizo/KKkcp/ikcp.c:950-994 | in every reachable state no probe request is left over and the wait is 0 or within its bounds |
| `KcpProbing.RetransmissionTimes` | servererizo/KKkcp/ikcp.c:1024-1056 | how long each transmission waits: the estimate and an eighth, longer after each timeout, the own timeout after a fast retransmission |
| `KcpProbing.CheckMovesOn` | servererizo/KKkcp/ikcp.c:1028-1194 | after an update that flushes `ikcp_check` names a later time exactly unless a segment is kept whose time is 2^31 away or gets a timeout that is not positive as a signed word |
| `KcpBuffered.ReachableOurs` | servererizo/KKkcp/ikcp.c:467-1146 | in every reachable state, also in stream mode, each queued segment fits the payload limit and one-byte fragment number, and each buffered one is a data segment of the conversation |
| `KcpBuffered.ReachableFlush` | servererizo/KKkcp/ikcp.c:911-1089 | so the datagrams of a flush in any reachable state are 24 to mtu bytes of whole segments and are read back as exactly those |
| `KcpBuffered.ReachableProbesSent` | servererizo/KKkcp/ikcp.c:950-994 | and its probes are exactly those due or requested |
| `KcpBuffered.ReachableTempered` | servererizo/KKkcp/ikcp.c:1024-1062 | while all times since the send buffer was last empty lie within 2^30 ms less a minute, no timeout outgrows that span, however many retransmissions there are |
| `KcpBuffered.CheckNeverSpins` | servererizo/KKkcp/ikcp.c:1028-1194 | in such a run `ikcp_check` right after a flushing update always names a later time |
| `KcpBuffered.JumpSpins` | servererizo/KKkcp/ikcp.c:1028-1194 | a run of two calls after which a clock jump of 2^31 ms makes it name the current time |
| `RwLock.StepKeeps` | servererizo/kkRes/Base/KKRWLock.cpp:28-104 | every atomic step of any thread keeps the lock invariant |
| `RwLock.WriterIsAlone` | servererizo/kkRes/Base/KKRWLock.cpp:28-104 | in every interleaving a writer holds the lock alone |
| `RwLock.CounterIsReaders` | servererizo/kkRes/Base/KKRWLock.cpp:36-46 | when the critical section is free `m_nReaders` is the number of readers and the event tells whether it is 0 |
| `RwLock.ReadersOnlyLeave` | servererizo/kkRes/Base/KKRWLock.cpp:55-70 | while a writer waits under the mutex or writes, the counter does not grow |
| `RwLock.CounterNeverWraps` | servererizo/kkRes/Base/KKRWLock.cpp:90-98 | the counter is above 0 whenever `Runlock` lowers it |
| `RwLock.NoDeadlock` | servererizo/kkRes/Base/KKRWLock.cpp:28-104 | while a thread is in an operation, a thread in an operation can step, or the lock is held |
| `RwLock.DrainedWriterEnters` | servererizo/kkRes/Base/KKRWLock.cpp:62-70 | a waiting writer can enter exactly when no reader is registered |
| `RwLock.ReadAlone` | servererizo/kkRes/Base/KKRWLock.cpp:28-51 | `Read` of a thread that nobody hinders adds one reader, resets the event, and releases the mutex last |
| `RwLock.RunlockAlone` | servererizo/kkRes/Base/KKRWLock.cpp:86-104 | `Runlock` takes one reader off and sets the event exactly for the last one |
| `RwLock.RunlockUndoesRead` | servererizo/kkRes/Base/KKRWLock.cpp:28-104 | one after the other they leave the lock as it was |
| `RwLock.WriteAlone` | servererizo/kkRes/Base/KKRWLock.cpp:55-84 | so do `Write` and `Wunlock` |
| `RwLock.WaitsCanFail` | servererizo/kkRes/Base/KKRWLock.cpp:28-72 | each of the three waits can fail, and then the lock is as before the call |
| `RtpPacketQueue.LessIsSerial` | erizo/src/erizo/rtp/RtpPacketQueue.cpp:135-144 | the comparison is the order of indices less than 2^15 apart (section 3.2 of RFC 1982) |
| `RtpPacketQueue.LessBeyond` | erizo/src/erizo/rtp/RtpPacketQueue.cpp:135-144 | at 2^15 neither is less, and beyond it the order turns |
| `RtpPacketQueue.TrimmingEnds` | erizo/src/erizo/rtp/RtpPacketQueue.cpp:75-79 | the trimming loop can end exactly if the maximum is not negative |
| `RtpPacketQueue.PushDepth` | erizo/src/erizo/rtp/RtpPacketQueue.cpp:75-79 | after a push the queue is not empty, its depth is allowed, and no more was dropped than needed |
| `RtpPacketQueue.DepthIsTime` | erizo/src/erizo/rtp/RtpPacketQueue.cpp:109-120 | the depth is the time from the oldest to the newest timestamp, also across the 32-bit wrap, and 0 without a timebase or a second packet |
| `RtpPacketQueue.PushInTicks` | erizo/src/erizo/rtp/RtpPacketQueue.cpp:28-80 | a push puts the packet, unless its number is there, in one place and keeps the longest front part of at most `max * timebase` ticks; a late one changes nothing |
| `RtpPacketQueue.PopInTicks` | erizo/src/erizo/rtp/RtpPacketQueue.cpp:83-97 | the oldest packet, and nothing else, is handed out exactly if the depth is ignored or the queue spans more than `depth * timebase` ticks |
| `RtpPacketQueue.PopWithoutDepth` | erizo/src/erizo/rtp/RtpPacketQueue.cpp:83-97 | the same without a timebase or a second packet |
| `RtpPacketQueue.CreateMeans` | erizo/src/erizo/rtp/RtpPacketQueue.cpp:14-22 | depths out of order become 3 and 5 seconds |
| `RtpPacketQueue.PushAgrees` | erizo/src/erizo/rtp/RtpPacketQueue.cpp:28-80 | a push does what it does on unbounded indices: late and duplicate packets are dropped, others inserted in order |
| `RtpPacketQueue.RunAgrees` | erizo/src/erizo/rtp/RtpPacketQueue.cpp:28-97 | over any run the queue is the sorted queue of unbounded indices, and what it hands out is strictly increasing |
| `RtpPacketQueue.OrderSeen` | erizo/src/erizo/rtp/RtpPacketQueue.cpp:28-97 | in 16-bit terms too: the queue is strictly sorted and each packet handed out is greater than the one before |
| `RtpPacketQueue.RunHonest` | erizo/src/erizo/rtp/RtpPacketQueue.cpp:28-97 | whatever is queued or handed out in a run has been pushed, unchanged |
| `RtpPacketQueue.PacketQueue.constructor` | erizo/src/erizo/rtp/RtpPacketQueue.cpp:14-22 | an empty queue, with the default depths if the given ones are not in order |
| `RtpPacketQueue.PacketQueue.PushPacket` | erizo/src/erizo/rtp/RtpPacketQueue.cpp:28-80 | the insertion and trimming loops compute the new queue |
| `RtpPacketQueue.PacketQueue.PopPacket` | erizo/src/erizo/rtp/RtpPacketQueue.cpp:83-97 | the oldest packet is handed out exactly if the depth allows it or is ignored |
| `RtpPacketQueue.PacketQueue.GetDepthInSeconds` | erizo/src/erizo/rtp/RtpPacketQueue.cpp:109-120 | the depth in seconds, which `RtpPacketQueue.DepthIsTime` ties to the timestamps |
| `RtpPacketQueue.PacketQueue.HasData` | erizo/src/erizo/rtp/RtpPacketQueue.cpp:122-126 | whether a pop would hand out a packet, and yes for an empty queue with a negative depth |
| `NackGenerator.LessThanMeans` | erizo/src/erizo/rtp/RtpUtils.cpp:10-13 | a packet counts as old exactly if it is less than 4096 behind |
| `NackGenerator.GapIsRemembered` | erizo/src/erizo/rtp/RtcpNackGenerator.cpp:51-65 | a gap puts exactly its numbers on the list, up to 150 entries |
| `NackGenerator.OthersChangeNothing` | erizo/src/erizo/rtp/RtcpNackGenerator.cpp:18-37 | packets of other kinds or streams and the highest one again change nothing; the first one only sets the highest number |
| `NackGenerator.OnlyStreamCounts` | erizo/src/erizo/rtp/RtcpNackGenerator.cpp:18-37 | in a run only packets of the stream and reports count |
| `NackGenerator.LateIsRecovered` | erizo/src/erizo/rtp/RtcpNackGenerator.cpp:38-50 | a late packet asks for nothing and takes exactly the first entry with its number off the list |
| `NackGenerator.LateIsOff` | erizo/src/erizo/rtp/RtcpNackGenerator.cpp:38-50 | in a list without repeats its number is off then, and every other number still on |
| `NackGenerator.RunOrdered` | erizo/src/erizo/rtp/RtcpNackGenerator.cpp:18-118 | in runs without leaps of 2^16 the list is in the order of loss and without repeats |
| `NackGenerator.DueMeans` | erizo/src/erizo/rtp/RtcpNackGenerator.cpp:142-144 | an entry is due at once, and again when more than 20 ms have passed since it was asked for |
| `NackGenerator.ReportNames` | erizo/src/erizo/rtp/RtcpNackGenerator.cpp:73-118 | the blocks name exactly the numbers of the entries asked for (section 6.2.1 of RFC 4585) |
| `NackGenerator.RequestsWhatItCounts` | erizo/src/erizo/rtp/RtcpNackGenerator.cpp:73-118 | these are exactly the entries whose retransmit counter the report raises |
| `NackGenerator.LeftOutExactly` | erizo/src/erizo/rtp/RtcpNackGenerator.cpp:73-118 | a due entry below the limit is left out exactly if it ends a block, more than 16 numbers after its PID, or follows an entry dropped inside a block |
| `NackGenerator.DueEntryLeftOut` | erizo/src/erizo/rtp/RtcpNackGenerator.cpp:92-101 | a list of two due entries of which only the first is asked for |
| `NackGenerator.NothingLeftOut` | erizo/src/erizo/rtp/RtcpNackGenerator.cpp:73-118 | every due entry is asked for if none is at the limit and all lie within 16 numbers after the first due one |
| `NackGenerator.RunSpaced` | erizo/src/erizo/rtp/RtcpNackGenerator.cpp:56-144 | over any run an entry is requested at most twice, more than 20 ms apart, and at most 150 are remembered |
| `NackGenerator.MessageInverts` | erizo/src/erizo/rtp/RtpUtils.cpp:24-39 | the reader gets exactly the written blocks, and the length field is right |
| `NackGenerator.HeaderFields` | erizo/src/erizo/rtp/RtcpNackGenerator.cpp:124-132 | the header as a reader gets it: version 2, format 1, type 205 and the stream twice |
| `NackGenerator.MessageBytes` | erizo/src/erizo/rtp/RtcpNackGenerator.cpp:124-138 | a message byte by byte |
| `NackGenerator.Generator.constructor` | erizo/src/erizo/rtp/RtcpNackGenerator.cpp:15-16 | the initial state |
| `NackGenerator.Generator.HandleRtpPacket` | erizo/src/erizo/rtp/RtcpNackGenerator.cpp:18-54 | new state and result for a packet: ignored, first, duplicate, recovered (`NackGenerator.LateIsRecovered`), or new with the gap before it |
| `NackGenerator.Generator.AddNacksFor` | erizo/src/erizo/rtp/RtcpNackGenerator.cpp:56-65 | the index loop through the wrap appends the missing numbers, and the list is cut to 150 |
| `NackGenerator.Generator.FillBlock` | erizo/src/erizo/rtp/RtcpNackGenerator.cpp:92-113 | the inner loop with its erases fills the mask, ends, and leaves the index in place |
| `NackGenerator.Generator.CollectBlocks` | erizo/src/erizo/rtp/RtcpNackGenerator.cpp:70-118 | the outer loop with its wrapping index computes list and blocks |
| `NackGenerator.Generator.AddNackPacketToRr` | erizo/src/erizo/rtp/RtcpNackGenerator.cpp:67-140 | the packet gets exactly the request appended, or nothing |
| `TokenBucket.ConsumeAgrees` | erizo/src/erizo/lib/TokenBucket.cpp:61-88 | after the burst time one call does what a level-and-refill bucket does |
| `TokenBucket.EarlyConsume` | erizo/src/erizo/lib/TokenBucket.cpp:66-78 | before it a request is granted exactly between what the clock lacks and a whole burst |
| `TokenBucket.AgreesExactlyAfterBurst` | erizo/src/erizo/lib/TokenBucket.cpp:61-88 | the bucket agrees with the plain one on all requests exactly if the burst time has passed |
| `TokenBucket.RunAgrees` | erizo/src/erizo/lib/TokenBucket.cpp:61-88 | over any run of calls from the burst time on the answers are those of the plain bucket |
| `TokenBucket.RateLimit` | erizo/src/erizo/lib/TokenBucket.cpp:61-88 | from the burst time on, tokens granted in any stretch of calls are worth at most the elapsed time and one burst |
| `TokenBucket.LimitExactlyAfterBurst` | erizo/src/erizo/lib/TokenBucket.cpp:61-88 | that limit holds for all calls from a time on exactly if the burst time has passed by then |
| `TokenBucket.TwentyAtOnce` | erizo/src/erizo/lib/TokenBucket.cpp:61-88 | two bursts of ten tokens granted at one instant, half a second after the start |
| `TokenBucket.Settings` | erizo/src/erizo/lib/TokenBucket.cpp:35-40 | `rate` tokens cost one second up to rounding, and a burst costs what its tokens cost |
| `TokenBucket.RateLimiter.constructor` | erizo/src/erizo/lib/TokenBucket.cpp:35-40 | the initial settings |
| `TokenBucket.RateLimiter.Reset` | erizo/src/erizo/lib/TokenBucket.cpp:55-59 | a reset gives the initial settings of a new bucket |
| `TokenBucket.RateLimiter.TryConsume` | erizo/src/erizo/lib/TokenBucket.cpp:61-88 | the call in 64-bit arithmetic |
| `Candidate.SplitOneOf` | erizo/src/erizo/StringUtil.cpp:8-26 | the loop computes the pieces, for any limit of splits |
| `Candidate.SplitWeaves` | erizo/src/erizo/StringUtil.cpp:8-26 | the pieces contain no delimiter, and with the delimiters between them they are the line |
| `Candidate.LimitedWeaves` | erizo/src/erizo/StringUtil.cpp:8-26 | with a limit the line is cut at that many delimiters, or at all if there are fewer |
| `Candidate.WeaveSplits` | erizo/src/erizo/StringUtil.cpp:8-26 | splitting undoes joining words without delimiters |
| `Candidate.StrtoulPrint` | erizo/src/erizo/SdpInfo.cpp:1050-1062 | reading a printed number gives it back modulo 2^64 |
| `Candidate.StrtoulReads` | erizo/src/erizo/SdpInfo.cpp:1050-1062 | `strtoul` on any numeral, with blanks, a sign and text behind it |
| `Candidate.StrtoulNone` | erizo/src/erizo/SdpInfo.cpp:1050-1062 | text that does not start with a numeral gives 0 |
| `Candidate.StringifyCandidate` | erizo/src/erizo/SdpInfo.cpp:79-112 | the printed line |
| `Candidate.LineText` | erizo/src/erizo/SdpInfo.cpp:79-112 | the text of the line part by part, for every candidate |
| `Candidate.RefusedExactly` | erizo/src/erizo/SdpInfo.cpp:1045-1111 | a line with enough pieces is refused exactly for another protocol or without `typ`; an unknown type name is a host |
| `Candidate.SdpInfo.ProcessCandidate` | erizo/src/erizo/SdpInfo.cpp:1045-1111 | the parsed candidate is appended, or the line refused |
| `Candidate.SdpInfo.ProcessLine` | erizo/src/erizo/SdpInfo.cpp:677-680 | splitting and parsing one line |
| `Candidate.FindType` | erizo/src/erizo/SdpInfo.cpp:1068-1091 | the loop over the type names |
| `Candidate.RoundTripExact` | erizo/src/erizo/SdpInfo.cpp:79-112 | printing, splitting and parsing restore a candidate exactly if it is UDP and its strings contain neither blank nor colon (section 15.1 of RFC 5245) |
| `Candidate.Ipv6IsLost` | erizo/src/erizo/SdpInfo.cpp:1063 | a candidate with an IPv6 address is not restored |
| `Remb.FindExponent` | erizo/src/erizo/rtp/RtpHeaders.h:484-490 | the loop finds the exponent, with its 64-bit bound |
| `Remb.ExponentExact` | erizo/src/erizo/rtp/RtpHeaders.h:484-491 | the exponent is at most 46 and the least that fits exactly below the limit, and 64 from there on |
| `Remb.RembPrecision` | erizo/src/erizo/rtp/RtpHeaders.h:491-507 | the field stands for the bitrate rounded down: exact below 0x3FFFF, and within 2/262143 of it otherwise |
| `Remb.GetterExact` | erizo/src/erizo/rtp/RtpHeaders.h:497-507 | the 32-bit getter returns that value exactly for bitrates below 2^32 |
| `Remb.FieldInverts` | erizo/src/erizo/rtp/RtpHeaders.h:495-507 | the byte-swapped 24-bit field is read back as written |
| `Remb.OneMillion` | erizo/src/erizo/rtp/RtpHeaders.h:484-496 | the three bytes for a bitrate of one million |
| `Remb.RtcpHeader.SetRembBitRate` | erizo/src/erizo/rtp/RtpHeaders.h:484-496 | what is written for a bitrate below the limit |
| `Remb.RtcpHeader.GetRembBitRate` | erizo/src/erizo/rtp/RtpHeaders.h:497-499 | the getter returns the bitrate that the field stands for exactly if it is below 2^32, and otherwise too little by a multiple of 2^32 |
| `Remb.SetThenGet` | erizo/src/erizo/rtp/RtpHeaders.h:484-507 | set and get through one header, below 2^32 |

## Left out

- Memory: allocation always succeeds, and `ikcp_release` and the allocation hooks are not modelled.
- Links: the intrusive queues of `ikcp.c` are sequences, so pointers between nodes are not modelled.
- Counters: the queue counters of `ikcp.c` and the capacity of its acknowledgement list are unbounded; they would wrap only after 2^32 entries.
- Logging, the user pointer, and what the output callback does with a datagram; its result is ignored, as in the source.
- Null buffers in `ikcp_send`, `ikcp_recv` and `ikcp_input`.
- `ikcp_setmtu`, `ikcp_wndsize`, `ikcp_interval` and `ikcp_nodelay` after the first send: they do not restore the invariants for data that is queued already.
- Byte order: words are encoded in little-endian order, as on the machines that the source tests for first.
- `Kcp.ControlBlock.Recv`: the buffer is as long as the given length, as the caller promises.
- `KcpEcho.NotesLargest`: for acknowledged numbers less than 2^31 apart, as those of an honest peer are.
- `NackGenerator.RunOrdered`: for runs in which no packet goes 2^16 numbers past the oldest entry; after that numbers can repeat.
- `KcpTimer.FlushIsScheduled`: for intervals from 1 up to 2^31; the setters keep them between 10 and 5000.
- `KcpProbing.CheckMovesOn`: for intervals up to 10000, as the setters keep them, and estimated timeouts up to 60 s, as every run keeps them.
- `KcpBuffered.CheckNeverSpins`: for clocks that stay within 2^30 ms less a minute of a time at which the send buffer was empty.
- `KcpProgress.EverythingGetsThrough`: for the same receive windows as `KcpProgress.MessagesGetThrough`.
- `KcpProgress.MessagesGetThrough`: for receive windows whose announcement is not cut to 0; of the others only the multiples of 2^16 are shown to stall.
- That every fair run delivers: `KcpProgress` shows that delivery stays possible, with times of the updates and deliveries chosen for it. Real clocks: time is an argument.
- Stream mode between two endpoints: message boundaries have no meaning there.
- The pthread branch of the lock, which only forwards, and a thread that takes the lock twice.
- `CKKRWLockGurd` calls `Runlock` even when `Read` failed; the model lets a thread unlock only what it holds.
- A mutex abandoned by a thread that died while holding it.
- `RtpPacketQueue.PacketQueue.PushPacket`: needs a maximal depth of at least 0 unless the packet is too late, since the trimming loop cannot end otherwise; depths are real numbers, not floating point.
- The queue's mutex: each call is one step.
- `NackGenerator.Generator.AddNackPacketToRr`: needs room in the packet, which the source does not check.
- `NackGenerator.LessThanMeans`: nothing is said about packets that are 65536 or more apart.
- `TokenBucket.RunAgrees`: for calls from the burst time on, as also `TokenBucket.RateLimit`; before it both fail.
- `TokenBucket.LimitExactlyAfterBurst`: for bursts of at most 2^63 microseconds that are worth whole tokens, as the constructor makes them.
- The retry after a failed compare-exchange in `TokenBucket::consume`, and its copy operations, which leave the time unset.
- `Candidate.SdpInfo.ProcessCandidate`: needs the pieces that it looks at; the source indexes without a check. Fields that it leaves uninitialised are empty or 0.
- `Remb.RtcpHeader.SetRembBitRate`: for bitrates below 0x3FFFF * 2^46, and `Remb.RtcpHeader.GetRembBitRate` for exponents below 32; outside, the shifts are undefined.
- Everything else in the repository: ICE, DTLS, SRTP and codec wrappers, the rest of SDP, the pipeline handlers and their statistics.
