# Verified models of the gokit core

A Dafny model of the parts of gokit, a Go toolkit for game servers, whose behaviour is
hardest to get right, with proofs of what they are for.  `dafny verify dfyconfig.toml`
checks the whole project.

- **KCP** (`Words`, `Kcp*`): the ARQ transport of `kcp/ikcp.go`.  `KcpSpec` is one endpoint on
  values, `KcpEndpoint` the endpoint as an object that refines it step by step over the byte
  buffer (`KcpOutput`) and the segment heap (`KcpHeap`), `KcpPair` two endpoints over a network.
  `KcpInvariant`, `KcpBytes`, `KcpControl`, `KcpEstimate`, `KcpSkips`, `KcpAnswers` and `KcpRuns` are
  about one endpoint, `KcpCodes` about what its operations return; `KcpFlow`, `KcpHanded` and
  `KcpDelivery` are about the safety of two, `KcpExchange`, `KcpProgress`, `KcpDeadlock` and `KcpShut`
  about their progress.
- **RingBuffer**: the growing ring of `kcp/ringbuffer.go`, as an array.
- **Skip list** (`SkipListShape`, `SkipList`): the indexable skip list of `ds/skiplist`, as linked
  nodes with spans, against a sorted sequence.
- **Timing wheel** (`ClockSpec`, `ClockConserve`, `ClockTiming`, `ClockRuns`, `ClockEnds`,
  `ClockAttempts`, `ClockSends`, `TimerLinks`, `Clock`): the four-level wheel of `clock`.  `ClockSpec`
  is the wheel on values, `Clock` the object over circular lists linked through the timers.
- **WebSocket reading** (`WsFrame`, `WsRead`, `WsFrames`, `WsConn`): frame reading of `wsg`,
  following sections 5.2 and 5.3 of RFC 6455.
- **Static queue** (`StaticQueue`): free list and queue in one array, of `ds/staticlist`.
- **Delta collector** (`Delta`): collapsing writes to dotted paths, of `db/mongo/delta`.

Each object method is proved to do what a function on values does, or to keep a sequence the
object stands for; the theorems about whole runs are about these functions.

## What the proofs found

- `Send` in stream mode that returns -2 has already appended part of the message to the last
  queued segment (`SendBytes`, `RefusedInPart`).
- Two KCP endpoints can deadlock.  An entry that is acknowledged one by one stays in the send
  window until the peer's `una` passes it, is never sent again, and keeps the window full.  If the
  peer's receive queue was full when it acknowledged, an overtaken datagram then announces an open
  window and the datagram with the new `una` is lost, neither side says anything any more that
  could help (`DeadlockReached`, `DeadForever`).  `Deadlocked` is the exact condition on the state:
  from every other reachable one what was accepted can be brought across, even if the network
  loses all it holds, and from a deadlock it cannot (`ProgressExactly`); the one other exception are
  messages with more fragments than the receive window (`TooManyFragments`).
- A receive window that is a multiple of 65536 is announced as closed while the queue is empty, and
  shuts the sender out for good (`ShutOutExactly`, `ShutOutReached`).
- A first fragment numbered 255, which no endpoint sends but any peer may, is taken for a whole message
  at once, because the count of fragments is computed on a byte (`ReadyExact`).
- A timer 2^30 or more ticks ahead makes a tick go on for ever if slot 63 of the top level is
  drained while it is still that far ahead (`TickEndsWhen`, `FarDeadline`); otherwise far
  timers, too, are delivered on their due tick or the next (`Accuracy`).  The late tick is the
  case of a timer due exactly when its list cascades.  A deadline more than 2^63 ms in the past
  has a distance that wraps around, and is treated as one 2^64 ms later (`TicksExact`, `DueTicks`,
  `EarliestDeadline`).
- The WebSocket size check wraps around for lengths near 2^63 (`SizeCheck`, `HugeFrameWaits`), and
  counts a ping against the message being collected (`ControlFrame`); an empty final
  fragment does not deliver the message (`FragmentsDelivered`); error replies are longer than
  their header announces (`CloseReply`).
- `StaticList.Reset` leaves the data of the last entry as it is (`Reset`).
- `SearchByRank(0)` reports the header's zero data as found (`SearchByRank`).

## Assumptions

- MTU, windows and modes are set once, before traffic, within `Config.Valid`: at least 50 bytes
  of MTU, a receive window of at most 2^31 and a fast-resend threshold below 2^31.
- Time, random levels, full receivers and the order of network events are inputs, in every
  combination.  Segments, and pushed payloads that are stored, are at most 1500 bytes, the size of
  the pooled buffers, where an object copies them.
- The clock reads at least 19 ms and less than 2^63 - 20 ms, so that its own times do not wrap around,
  and fewer than 2^63 timers are made; deadlines are any int64 values.
- For progress, send windows are not zero; `WndSize` sets no other.
- For the two-endpoint theorems over unbounded runs the network does not deliver what is 2^31
  numbers old (an ack, 2^31 + 65535); `StaleNumberAliases` shows why, and short runs need no such bound.
- `Compare` is a strict total order; nodes handed to `Remove` and `MoveToBack` are live; the element
  given to the skip list's `Insert` is not present, and of those given to `Update` the old one is
  and the new one is not otherwise, as the comments there demand of callers.
- What is held in memory is below 2^63 bytes.

## Model

| member | source | states |
|---|---|---|
| Words.TimeDiffIsDistance | kcp/ikcp.go:160-162 | The signed 32-bit difference of two sequence words is the distance of the numbers behind them if and only if they are within half the word space of each other. |
| KcpWire.HeaderLayout | kcp/ikcp.go:182-193 | Where each header field sits in the 24 bytes a segment starts with. |
| KcpWire.HeaderRoundTrip | kcp/ikcp.go:107-139 | Reading the encoded header fields back, with anything behind them, gives the fields. |
| KcpWire.ParseEncoded | kcp/ikcp.go:611-642 | One turn of the input loop on an encoded segment yields that segment and leaves the rest. |
| KcpWire.DecodeEncoded | kcp/ikcp.go:611-693 | The input loop on a datagram of encoded segments yields exactly these, in order, with code 0. |
| KcpWire.PackRoundTrip | kcp/ikcp.go:772-809 | Packing: every datagram is non-empty and at most mtu bytes, decodes without error (so no segment straddles two), and all datagrams decode to exactly the segments put in, in order. |
| KcpWire.SpareSpace | kcp/ikcp.go:772-786 | Making room again right before writing changes nothing that is put out later. |
| KcpWire.PackTight | kcp/ikcp.go:772-786 | A datagram ends only before a segment that would not have fitted into it. |
| KcpCodes.LittleEndian | kcp/ikcp.go:120-139 | Header fields are written least significant byte first. |
| KcpCodes.DecodeSays | kcp/ikcp.go:611-642 | Every datagram is the encoding of the segments the input loop gets out of it, followed by data that explains its code: 0 for less than a header, -1 for another conversation, -2 for a length beyond the end, -3 for an unknown command, tested in that order. |
| KcpCodes.DecodeExact | kcp/ikcp.go:611-642 | And there is no other way to read it: encoded segments followed by such data give exactly these segments and that code. |
| KcpCodes.InputCode | kcp/ikcp.go:600-604 | The code of Input is -1 for less than a header and the code of the loop otherwise; with an error nothing is answered. |
| KcpInvariant.UnaCountExact | kcp/ikcp.go:538-550 | A cumulative acknowledgement releases exactly the entries before it, clamped to the window, across wrap-around. |
| KcpInvariant.DropAckedKeeps | kcp/ikcp.go:487-493 | After parse_una and shrink_buf the window starts exactly that many numbers later and keeps its shape. |
| KcpInvariant.MarkAckedKeeps | kcp/ikcp.go:495-514 | parse_ack keeps the window: an acknowledged entry keeps its place and holds no payload. |
| KcpInvariant.SlideKeeps | kcp/ikcp.go:861-879 | Moving segments from the queue into the window keeps it the consecutive numbers from snd_una on, at most 65535. |
| KcpInvariant.TxAllFaithful | kcp/ikcp.go:894-955 | The transmission pass keeps every entry in place, sends only entries that are not acknowledged, and sends them as they are. |
| KcpInvariant.SendKeeps | kcp/ikcp.go:399-460 | Send keeps the endpoint invariant, accepted or refused. |
| KcpInvariant.MoveReadyKeeps | kcp/ikcp.go:578-589 | Moving the next expected segments to the queue stops only at a gap or a full queue. |
| KcpInvariant.WindowExact | kcp/ikcp.go:560-563 | A number passes the receive-window test exactly if it is one of the rcv_wnd numbers from rcv_nxt on. |
| KcpInvariant.ParseDataKeeps | kcp/ikcp.go:558-592 | Any data segment keeps the receive side: distinct numbers in the window, a consecutive queue, nothing ready left behind. |
| KcpInvariant.RecvKeeps | kcp/ikcp.go:344-396 | Recv keeps the endpoint invariant for every buffer size. |
| KcpInvariant.FlushKeeps | kcp/ikcp.go:761-999 | A flush, full or for acks only, keeps the endpoint invariant at any time. |
| KcpInvariant.FlushFits | kcp/ikcp.go:761-999 | Every segment a flush emits is of this conversation and fits a datagram. |
| KcpInvariant.InputKeeps | kcp/ikcp.go:600-751 | Input keeps the endpoint invariant for arbitrary bytes, malformed ones included. |
| KcpInvariant.SmoothBounds | kcp/ikcp.go:465-482 | One sample keeps estimate and deviation between 0 and the largest sample, and no intermediate value overflows; what the sample does is SampleExact. |
| KcpInvariant.EstimateBounds | kcp/ikcp.go:465-482 | For every sequence of samples in [0, M], M below 2^31, estimate and deviation stay in [0, M]; where they go is Converges. |
| KcpInvariant.TimeoutExact | kcp/ikcp.go:483-483 | The timeout is estimate plus four deviations (or the interval) if and only if that sum fits 32 bits; samples up to 2^28 always do. |
| KcpInvariant.RtoBounds | kcp/ikcp.go:484-484 | The timeout lands between rx_minrto and 60000 whenever rx_minrto is at most 60000. |
| KcpEstimate.SampleExact | kcp/ikcp.go:465-482 | Estimate and deviation after a sample are s1 and v1 if and only if, for the first sample r, s1 = r and 2 v1 <= r < 2 v1 + 2, and for a later one 8 s1 <= 7 s + r < 8 s1 + 8 and w v1 <= (w - 1) v + abs(r - s) < w v1 + w, with w = 32 if r < s1 - v and 4 otherwise. |
| KcpEstimate.Converges | kcp/ikcp.go:465-482 | Over any number of samples of the same length the estimate never moves away from it, and comes within 8 ms of it. |
| KcpEstimate.RttExact | kcp/ikcp.go:462-485 | A sample sets estimate and deviation so, and the timeout to the estimate plus the larger of the interval and four deviations, within rx_minrto and 60000, if that sum fits 32 bits. |
| KcpEstimate.InputSamples | kcp/ikcp.go:696-703 | Input of a whole datagram takes exactly one sample, the clock minus the timestamp of its last ack, and none if it holds no ack, was recovered, or the ack is from the future. |
| KcpEstimate.NoSample | kcp/ikcp.go:600-642 | A datagram that does not parse to its end gives no sample. |
| KcpRuns.EveryStateShaped | kcp/ikcp.go:236-264 | In every state an endpoint can reach by Send, Recv, flush and Input of arbitrary bytes: the window is the consecutive numbers from snd_una to snd_nxt, at most 65535; acknowledged entries hold no payload; rcv_buf holds numbers of the window only; rcv_queue is consecutive, ends before rcv_nxt and never exceeds rcv_wnd; the next expected segment is left in the heap only behind a full queue. |
| KcpRuns.AckMakesDone | kcp/ikcp.go:495-514 | An acknowledgement of a number in the window makes it done. |
| KcpRuns.AckedNeverResent | kcp/ikcp.go:895-899 | A number that is done is never transmitted again, over any run in which it stays within half the word space, for arbitrary incoming bytes. |
| KcpFlow.FragmentsShape | kcp/ikcp.go:425-460 | The fragments of a message carry its bytes in order and are numbered down to zero. |
| KcpFlow.QueueFront | kcp/ikcp.go:314-335 | If the queue starts with the fragments of a message, exactly these are the next message. |
| KcpFlow.TakePushFlow | kcp/ikcp.go:659-675 | A data segment of the sender, new or repeated, in or out of order, leaves the receiver with a prefix of what was sent. |
| KcpFlow.TakeAckFlow | kcp/ikcp.go:648-656 | An acknowledgement only releases numbers that have arrived. |
| KcpFlow.PassEmits | kcp/ikcp.go:894-948 | What a flush transmits are numbers of the window with the contents first given to them. |
| KcpFlow.StaleNumberAliases | kcp/ikcp.go:661-675 | Why age must be bounded: a segment a whole word space old is taken for the next one. |
| KcpDelivery.RunKeepsInv | kcp/ikcp.go:600-751 | Every step of two endpoints over a network that drops, repeats and reorders keeps the invariant of the pair. |
| KcpDelivery.EndToEndDelivery | kcp/ikcp.go:344-396 | In every reachable state the messages Recv returned on one side are a prefix, boundaries intact, of those a message-mode Send accepted on the other; runs may be of any length and wrap around. |
| KcpDelivery.ByteStream | kcp/ikcp.go:399-460 | In every mode and every reachable state the bytes Recv returned on one side are a prefix of the bytes Send took on the other, counting what a refused stream-mode Send has appended. |
| KcpDelivery.NoPrematureRelease | kcp/ikcp.go:495-550 | In every reachable state a payload the sender has freed belongs to a number the receiver holds in rcv_buf or rcv_queue, or has returned from Recv. |
| KcpDelivery.ShortRunsAreRuns | kcp/ikcp.go:160-162 | While fewer than 2^31 segments were sent either way, no datagram can be too old: the theorems need no bound on delays. |
| KcpDelivery.DeliveryInShortRuns | kcp/ikcp.go:344-396 | Delivery of messages and bytes, and no premature release, over a network with unbounded delays, for runs of fewer than 2^31 segments. |
| KcpCodes.SendCode | kcp/ikcp.go:399-446 | Send returns -1 exactly for an empty message, -2 exactly if what does not fit into the last queued segment needs more than 255 further ones, and 0 otherwise; refused in message mode, it changes nothing. |
| KcpCodes.PiecesFull | kcp/ikcp.go:425-460 | All pieces of a message but the last are of full size, and none is empty, in either mode. |
| KcpCodes.ReadyExact | kcp/ikcp.go:314-335 | For a queue whose pieces count down, the test whether a whole message is there is right if and only if the first fragment is not number 255 or 256 pieces are there; the byte-wide count wraps to zero there. |
| KcpCodes.RecvCode | kcp/ikcp.go:344-396 | Recv returns the length of the message it copied, which fits the buffer, or -1 or -2 with nothing changed. |
| KcpCodes.RecvExact | kcp/ikcp.go:344-396 | -1 exactly if no pieces numbered down to zero are at the front of the queue, -2 exactly if they hold more than the buffer; otherwise exactly these leave the queue, and the message is what they hold. |
| KcpCodes.RecvInRuns | kcp/ikcp.go:344-396 | So in every reachable state of two endpoints, either way; in message mode the message is the next the other side accepted. |
| KcpExchange.FlushResends | kcp/ikcp.go:894-948 | A full flush at the time its timer runs out sends any entry of the window that waits. |
| KcpExchange.LearnsWindow | kcp/ikcp.go:644-650 | Once it has taken in a datagram of a flush, the other side has moved snd_una to what was received there and knows the window announced there. |
| KcpExchange.Advances | kcp/ikcp.go:658-675 | A datagram that carries the piece waited for moves rcv_nxt on if the receive queue has room. |
| KcpExchange.FlushHeard | kcp/ikcp.go:761-999 | In every reachable state every segment of a flush can be delivered to the other side at once: it is genuine and meets the age bound on deliveries, however long the acks in it have been pending. |
| KcpProgress.Exchange | kcp/ikcp.go:600-751 | If a flush of one side asks for an answer (a piece within the window, or a window probe), flushes and deliveries lead to a state in which it knows rcv_nxt and the window of the other side. |
| KcpProgress.MovesOn | kcp/ikcp.go:811-879 | As long as the sender is not blocked and the receiver announces room, some continuation gets a further piece across: by transmitting again, by sliding the window, or by probing a closed one. |
| KcpProgress.Unblock | kcp/ikcp.go:761-999 | A blocked sender goes on as soon as the other side has anything to say: an ack or a window owed, a window to ask for, a segment to send or to send again, or room made by Recv in a full queue. |
| KcpProgress.NoDeadlock | kcp/ikcp.go:344-396 | From every reachable state that is not deadlocked, even if everything on the network is lost, some finite continuation of flushes, deliveries and Recvs returns every accepted message, and every byte taken, in either mode and with closed windows included, if every message has at most rcv_wnd fragments. |
| KcpProgress.TooManyFragments | kcp/ikcp.go:314-335 | A message with more fragments than the receive window holds is never returned, in any run. |
| KcpDeadlock.ProgressExactly | kcp/ikcp.go:344-396 | For every reachable state, everything on the network lost: some continuation without Sends returns everything the sender was given if and only if every message has at most rcv_wnd fragments and the pair is not deadlocked. Deadlocked is read off the state: something waits at the sender, its window is full of entries acknowledged one by one and the peer window is not known to be zero; the receiver owes nothing, asks nothing, can send nothing and has room in its queue; and no answer that the sender owes, now or once Recv makes room there, would announce a closed window or let the receiver send on. |
| KcpDeadlock.DeadForever | kcp/ikcp.go:761-999 | From a deadlock, with the network empty, every continuation without Sends stays in it with the same segments waiting, whatever is flushed, received and delivered, in whatever order and at whatever time. |
| KcpDeadlock.NeverReturned | kcp/ikcp.go:344-396 | So in every such continuation something the sender was given is missing at the other side. |
| KcpDeadlock.DeadlockReached | kcp/ikcp.go:495-514 | A deadlock can be reached from the start, with one datagram overtaken and one lost. |
| KcpShut.ShutOutExactly | kcp/ikcp.go:753-758 | In every reachable state in which the sender takes the window for closed, all it has sent has been returned and something waits: it can send again if and only if rcv_wnd is not a multiple of 65536, which the 16-bit field announces as zero; if it is one, what waits is never returned. |
| KcpShut.ShutOutReached | kcp/ikcp.go:753-758 | With every such rcv_wnd, whatever the other settings, that state can be reached. |
| KcpControl.NothingOverdue | kcp/ikcp.go:894-948 | In a full flush an entry is sent, at its turn, if and only if it is not acknowledged and is new, timed out or overtaken often enough; it is re-armed with the backed-off timeout only if its timer ran out, carries the time it is sent at, and its count of overtaking acks is closed by a fast retransmission and reset by a timeout; all others are left as they are. |
| KcpControl.SentInOrder | kcp/ikcp.go:894-948 | What a flush transmits goes out in the order of the sequence numbers. |
| KcpControl.NextUpdateInTime | kcp/ikcp.go:950-953 | The time to the next update is not after the timer of any entry that waits. |
| KcpControl.NextUpdateInInterval | kcp/ikcp.go:892-892 | Nor is it longer than the interval. |
| KcpControl.NextUpdateExact | kcp/ikcp.go:892-953 | The time to the next update is exactly the smallest of the interval and the times left on the timers, still running, of entries that wait. |
| KcpControl.FlushNext | kcp/ikcp.go:892-999 | A full flush returns that time for the window as slid, a flush of acks only the interval. |
| KcpControl.ClockRead | kcp/ikcp.go:890-931 | The pass reads the clock once before it starts and once for each segment it sends. |
| KcpControl.PassNotes | kcp/ikcp.go:894-955 | A loss is noted exactly if the timer of some entry had run out at its turn, a fast retransmission exactly if some entry was overtaken, a dead link exactly if some entry sent has been sent dead_link times. |
| KcpControl.FlushPlan | kcp/ikcp.go:854-887 | As many queued segments enter the window as the smallest of send, peer and congestion window allows, in order, with the next numbers; the pass uses the estimated timeout and the threshold set, and knows whether anything was new. |
| KcpControl.FlushWindow | kcp/ikcp.go:975-996 | The congestion state after a full flush, from what happened in it: a loss leaves one segment and half the window as threshold, a fast retransmission half of what is in flight plus the skip threshold, anything else the window as it was, but at least one; a dead link is recorded. |
| KcpControl.WindowAfterFlush | kcp/ikcp.go:975-996 | After a flush the congestion window is at least one segment, exactly one after a loss, and a threshold set is half of what was in flight or of the window, at least two. |
| KcpControl.WindowGrowth | kcp/ikcp.go:706-732 | Growth keeps the congestion window within the window of the peer, is by exactly one below the threshold, never shrinks it and never wraps, for payloads up to 65535 bytes. |
| KcpControl.GrowthExact | kcp/ikcp.go:709-730 | Below the threshold window and byte count grow by one segment; at or above it the byte count grows by mss * mss / incr, rounded down, and mss / 16, and the window moves exactly when a whole further segment is reached, to the byte count in segments rounded up; both stop at the window of the peer. |
| KcpControl.ProbeWait | kcp/ikcp.go:812-833 | The wait between probes of a closed window starts at 500 ms and grows by half, rounded down, up to 120000 ms; a probe is asked for exactly when it has passed; an open window stops probing. |
| KcpSkips.SkipsExact | kcp/ikcp.go:516-536 | An ack of the entry at k with time ts raises by one exactly the counts of entries before k that were not sent after ts and whose count is not 2^32 - 1, and changes nothing else; it calls for a retransmission exactly if a raised count reaches fastresend. |
| KcpSkips.SkipsNothing | kcp/ikcp.go:518-520 | An ack of a number outside the window counts against nothing. |
| KcpSkips.InputCounts | kcp/ikcp.go:648-656 | Input of a datagram that neither releases nor acknowledges an entry sends it again or adds exactly the acks that overtake it to its count, and sends it with the ack that reaches fastresend. |
| KcpSkips.FastResend | kcp/ikcp.go:516-536 | Over any run of datagrams: an entry overtaken fastresend times is sent again by the Input that brings the last of these acks at the latest. |
| KcpAnswers.AnnouncedWindow | kcp/ikcp.go:644-647 | The window of the peer is what the last segment of a regular datagram announces; a recovered one announces nothing. |
| KcpAnswers.AckOwed | kcp/ikcp.go:659-664 | An ack is owed exactly for a piece before the end of the window, new or repeated, with its own number and timestamp. |
| KcpAnswers.FirstStays | kcp/ikcp.go:566-577 | A piece that is held is never replaced by a later one of the same number. |
| KcpAnswers.AcksExact | kcp/ikcp.go:798-809 | Of the pending acks exactly those not covered by rcv_nxt, and the last, are sent, in order, each with the number and timestamp it was owed for. |
| KcpAnswers.GrowsWhenMoved | kcp/ikcp.go:706-708 | The congestion window grows when a datagram has moved snd_una, and only then, and not if it is switched off. |
| KcpAnswers.MovedSendsNew | kcp/ikcp.go:735-741 | A datagram that moves snd_una lets in what the window then holds and sends all of it at once. |
| KcpAnswers.CalmSendsNoData | kcp/ikcp.go:735-750 | A datagram that neither moves snd_una nor calls for a fast retransmission is answered with acks and windows only. |
| KcpAnswers.FewAcksWait | kcp/ikcp.go:742-750 | After a whole datagram the acks that wait, with one more, fit a datagram, and none waits if acks are not to be delayed. |
| KcpAnswers.FlushInOrder | kcp/ikcp.go:795-955 | A flush sends acks first, then a probe, then a window, then data. |
| KcpRuns.WindowsInRuns | kcp/ikcp.go:706-732 | In every state an endpoint can reach the byte count behind the congestion window is at most one segment ahead of it, growth keeps the window between its value and the window of the peer, and the probe wait is 0 or between 500 and 120000 ms. |
| KcpHeap.LessIsKeyOrder | kcp/ikcp.go:211-213 | Within half the word space the heap order is the order of the numbers. |
| KcpHeap.PushHeap | kcp/ikcp.go:216-219 | Pushing keeps heap order and makes the heap hold exactly one more segment. |
| KcpHeap.PopHeap | kcp/ikcp.go:221-228 | Popping removes the segment with the first number and keeps heap order. |
| KcpHeap.Rebase | kcp/ikcp.go:580-583 | The heap stays one when rcv_nxt moves on past the segment popped. |
| KcpHeap.SegmentHeap.Push | kcp/ikcp.go:216-219 | The heap as an array and its marks hold exactly the stored segments and the new one. |
| KcpHeap.SegmentHeap.Pop | kcp/ikcp.go:221-228 | Returns the stored segment with the first number; heap and marks hold exactly the others. |
| KcpOutput.OutBuffer.MakeRoom | kcp/ikcp.go:772-778 | Puts the buffer out exactly if the next segment would not fit the mtu. |
| KcpOutput.OutBuffer.Encode | kcp/ikcp.go:182-193 | Writes exactly the header of the segment at the end of the buffer. |
| KcpOutput.OutBuffer.Append | kcp/ikcp.go:798-809 | The byte-by-byte buffer does what packing on sequences does. |
| KcpEndpoint.FlushPacked | kcp/ikcp.go:761-999 | The datagrams a flush puts out, with room made even for filtered acks, are its segments packed in order. |
| KcpBytes.SendBytes | kcp/ikcp.go:399-460 | Send appends exactly the message to the bytes waiting; refused, it leaves them alone in message mode, while in stream mode the part that fitted into the last segment stays appended although -2 is returned. |
| KcpBytes.RefusedInPart | kcp/ikcp.go:407-439 | The input that shows it: after a one-byte message, a message that needs more than 255 further segments is refused with -2, its first mss - 1 bytes already queued. |
| KcpEndpoint.Kcp.ParseUna | kcp/ikcp.go:538-550 | Drops from the window exactly the entries before una and returns how many. |
| KcpEndpoint.Kcp.ParseAck | kcp/ikcp.go:495-514 | Frees exactly the entry of that number, if it is in the window. |
| KcpEndpoint.Kcp.ParseFastack | kcp/ikcp.go:516-536 | Raises the counts of exactly the earlier entries not sent later, and reports whether one of them reached fastresend. |
| KcpEndpoint.Kcp.MoveAvailable | kcp/ikcp.go:578-589 | Moves to the queue exactly what can be moved. |
| KcpEndpoint.Kcp.ParseDataSegment | kcp/ikcp.go:558-592 | Stores a segment of the window once, then moves what is ready; reports repetitions. |
| KcpEndpoint.Kcp.PeekMessage | kcp/ikcp.go:314-335 | The size of the next whole message, or -1. |
| KcpEndpoint.Kcp.Receive | kcp/ikcp.go:344-396 | Copies the next message out and returns its length, or returns -1 or -2 and changes nothing. |
| KcpEndpoint.Kcp.Transmit | kcp/ikcp.go:399-460 | Queues the fragments of a message, or refuses with -1 or -2. |
| KcpEndpoint.Kcp.FlushAcks | kcp/ikcp.go:798-809 | Puts out the pending acks that matter and clears the list. |
| KcpEndpoint.Kcp.SlideWindow | kcp/ikcp.go:861-879 | Moves as many segments into the window as it allows, numbered consecutively. |
| KcpEndpoint.Kcp.TransmitDue | kcp/ikcp.go:894-955 | Sends exactly the entries that are new, timed out or skipped often enough, and re-arms them. |
| KcpEndpoint.Kcp.FlushOut | kcp/ikcp.go:761-999 | The whole flush: new state, datagrams and next update are those of the flush on values. |
| KcpEndpoint.Kcp.InputBytes | kcp/ikcp.go:600-751 | The whole of Input on any bytes: code, state and datagrams put out are those of the input on values. |
| RingBuffers.RingPush | kcp/ringbuffer.go:62-69 | Writing at the tail appends to the live region, wrapped or not. |
| RingBuffers.RingPop | kcp/ringbuffer.go:72-83 | The live region is the head slot and the region after it. |
| RingBuffers.RingBuffer.Push | kcp/ringbuffer.go:62-69 | Appends, growing if need be. |
| RingBuffers.RingBuffer.Pop | kcp/ringbuffer.go:72-83 | Returns and removes the first element, or zero and false. |
| RingBuffers.RingBuffer.Peek | kcp/ringbuffer.go:86-92 | Returns the first element and changes nothing. |
| RingBuffers.RingBuffer.Discard | kcp/ringbuffer.go:95-108 | Removes the first n elements, or all there are, and returns how many; a negative n removes nothing and is returned. |
| RingBuffers.RingBuffer.ForEach | kcp/ringbuffer.go:113-137 | Applies the callback, with a state of its own that is handed from element to element, from the front up to and including the first element at which it asks to stop; replaces exactly these elements and returns the state reached. |
| RingBuffers.RingBuffer.ForEachReverse | kcp/ringbuffer.go:142-166 | The same from the back. |
| RingBuffers.RingBuffer.Clear | kcp/ringbuffer.go:169-186 | Empties the buffer and zeroes every slot. |
| RingBuffers.RingBuffer.IsFull | kcp/ringbuffer.go:199-201 | True exactly at capacity, one less than the slots. |
| RingBuffers.RingBuffer.Grow | kcp/ringbuffer.go:208-237 | Keeps the sequence, with more slots, the new ones zeroed. |
| SkipListShape.SpliceLinked | ds/skiplist/skiplist.go:79-92 | Splicing a tower in by the predecessors found keeps every level exact: each link leads to the next node that tall, with the distance as span. |
| SkipListShape.UnspliceLinked | ds/skiplist/skiplist.go:114-121 | The same for taking a tower out. |
| SkipListShape.RaiseLinked | ds/skiplist/skiplist.go:71-78 | New levels of the header span the whole list. |
| SkipListShape.LowerLinked | ds/skiplist/skiplist.go:122-124 | A header level that leads nowhere can go. |
| SkipLists.InsertSorted | ds/skiplist/skiplist.go:51-96 | Inserting where Before says keeps a strictly sorted sequence. |
| SkipLists.UpdatePlace | ds/skiplist/skiplist.go:165-169 | The neighbour test holds exactly if remove-then-insert would keep the position. |
| SkipLists.SkipList.Insert | ds/skiplist/skiplist.go:51-96 | For every level choice: keeps all levels exact, inserts into the sorted sequence and returns the rank. |
| SkipLists.SkipList.Remove | ds/skiplist/skiplist.go:98-129 | True exactly if present; removes it and keeps all levels exact. |
| SkipLists.SkipList.Contains | ds/skiplist/skiplist.go:131-141 | True exactly if present. |
| SkipLists.SkipList.Update | ds/skiplist/skiplist.go:144-187 | Equals remove-then-insert on the sorted sequence; returns 0 exactly if the position stays, and the new rank otherwise. |
| SkipLists.SkipList.GetRank | ds/skiplist/skiplist.go:190-204 | The 1-based index of a present element, -1 otherwise. |
| SkipLists.SkipList.GetNodeByRank | ds/skiplist/skiplist.go:207-220 | The node of that rank, the header for 0, nil outside 0..length. |
| SkipLists.SkipList.SearchByRank | ds/skiplist/skiplist.go:223-229 | The element of that rank; the header data for rank 0, which the code reports as found. |
| SkipLists.SkipList.SearchByRankRange | ds/skiplist/skiplist.go:232-244 | The slice of the sorted sequence the ranks name. |
| SkipLists.SkipList.Clear | ds/skiplist/skiplist.go:258-265 | Empties the list and leaves it well formed. |
| ClockConserve.Conservation | clock/clock.go:115-219 | In every state of every run, whatever the clock reads and whichever receivers are full: each id given out is exactly one of pending, delivered and cancelled; pending timers are in exactly one list position and in the index; none is delivered twice. |
| ClockConserve.CancelIsFinal | clock/clock.go:80-86 | A timer cancelled while pending is never delivered, and never pending again, in any continuation. |
| ClockConserve.DeliveryIsFinal | clock/clock.go:145-174 | A delivered timer is never pending, cancelled or delivered again. |
| ClockConserve.TickConserves | clock/clock.go:181-219 | A tick, with its cascades and put-backs, neither loses nor duplicates a timer. |
| ClockTiming.NextVisitExact | clock/clock.go:181-196 | The list of a slot is next drained exactly at the computed tick. |
| ClockTiming.TurnsWhen | clock/clock.go:187-191 | A level turns exactly when all pointers below it are back at zero. |
| ClockTiming.PlacedAhead | clock/clock.go:95-113 | A timer less than 2^30 ticks ahead goes to a list drained no later than it is due, and exactly when due at the bottom level. |
| ClockTiming.TicksExact | clock/clock.go:97-100 | For a clock that reads at least 0, the distance computed on int64 is the true one, rounded up and at least one, if and only if it does not leave the int64 range. |
| ClockTiming.PutBackWhen | clock/clock.go:197-217 | A timer taken from the list being drained goes back into it if and only if it is 2^30 or more ticks ahead while slot 63 of the top level is drained. |
| ClockTiming.DrainEnds | clock/clock.go:197-217 | Draining a list ends after as many steps as it has timers, unless one of them is put back. |
| ClockTiming.DrainNeverEnds | clock/clock.go:197-217 | With such a timer the list is never empty, after any number of steps. |
| ClockRuns.Accuracy | clock/clock.go:145-247 | In every run whose clock never goes back, whatever int64 deadlines it sets, and whose ticks end: the first delivery attempt of each timer is at its due tick or the next, no pending timer is overdue, the four pointers are the mixed-radix digits of the tick count, and lastTime is the start plus 20 ms a tick. |
| ClockRuns.DueTicks | clock/clock.go:95-100 | The due tick is the deadline rounded up to a tick boundary, or the next tick if that is past; the deadline counts as it is if and only if its distance fits int64, and one too far behind for that counts as 2^64 ms later. |
| ClockRuns.HorizonEnds | clock/clock.go:197-217 | If every timer is set less than 2^30 ticks ahead, as the code computes it, every tick ends. |
| ClockRuns.AccuracyWithinHorizon | clock/clock.go:145-247 | So within the horizon accuracy needs only a clock that never goes back. |
| ClockEnds.TickEndsWhen | clock/clock.go:181-219 | In every state a run with any int64 deadlines can reach, a tick ends if and only if it does not drain slot 63 of the top level while some pending timer is due, by the distance computed on int64, 2^30 or more ticks later. |
| ClockEnds.ElapseEndsWhen | clock/clock.go:235-240 | The same for a burst of ticks, in terms of the timers pending before it. |
| ClockEnds.RunEndsWhen | clock/clock.go:221-247 | And for whole runs: exactly those end in which no burst meets such a timer. |
| ClockEnds.EndlessRun | clock/clock.go:197-217 | A run a caller can make: set one timer whose computed distance is 2^30 or more ticks then and when slot 63 is first drained; that tick never ends. |
| ClockEnds.FarDeadline | clock/clock.go:197-217 | A deadline 2^31 ticks ahead is such a timer. |
| ClockEnds.EarliestDeadline | clock/clock.go:97-97 | So is the earliest int64 deadline, because its distance wraps around. |
| ClockAttempts.ElapseFair | clock/clock.go:145-174 | Every delivery attempt of a catch-up is for a deadline that has come, and succeeds if and only if the timer goes into a batch or its receiver is not full at that tick. |
| ClockAttempts.NeverEarly | clock/clock.go:155-155 | No timer is ever tried before its deadline, in any run, whatever the clock reads. |
| ClockAttempts.RetriedNextTick | clock/clock.go:162-166 | A timer whose receiver was full is tried again at the very next tick. |
| ClockAttempts.DataKept | clock/clock.go:158-166 | In every run a timer is tried and delivered with the data and for the receiver it was made with, however often it was moved or updated. |
| TimerRings.PushSpells | clock/timer.go:44-50 | Linking in before the sentinel spells the list with the timer at the end. |
| TimerRings.UnlinkSpells | clock/timer.go:21-30 | Unlinking a timer by its own links spells the list without it. |
| TimerLists.Links.PushBack | clock/timer.go:44-50 | The pointers of the objects change as the links on values do. |
| TimerLists.Links.RemoveFromList | clock/timer.go:21-30 | Unlinks a timer in a list and clears its links; false, with nothing changed, if it is in none. |
| TimerLists.Links.Remove | clock/timer.go:74-83 | Unlinks a timer, and refuses the sentinel. |
| TimerLists.Links.IsEmpty | clock/timer.go:86-88 | True exactly if the sentinel points to itself. |
| TimerLists.Links.NewList | clock/timer.go:36-42 | A new list is a sentinel linked to itself. |
| ClockSends.Channels.SendBatches | clock/clock.go:176-178 | After the batches are sent, in any order, each channel has got exactly what was logged for it, in order. |
| ClockSends.SentInBatch | clock/clock.go:159-160 | A delivery appended to the batch of its channel keeps that account. |
| Clocks.Clock.FindPlace | clock/clock.go:101-110 | The loop over the levels finds the level and slot for a distance. |
| Clocks.Clock.PutTimer | clock/clock.go:115-123 | Links the timer in at the end of the list of that slot, made if need be, and indexes it. |
| Clocks.Clock.AddTimer | clock/clock.go:95-113 | Places a timer by its deadline. |
| Clocks.Clock.DelTimer | clock/clock.go:125-133 | Unlinks the indexed timer from whichever list it is in; nil if there is none. |
| Clocks.Clock.NewTimer | clock/clock.go:64-78 | A fresh id; the new timer is placed. |
| Clocks.Clock.CancelTimer | clock/clock.go:80-86 | True exactly if the timer was pending. |
| Clocks.Clock.UpdateTimer | clock/clock.go:88-93 | Takes a pending timer out and places it by the new deadline. |
| Clocks.Clock.TriggerSlot | clock/clock.go:145-179 | Drains the current bottom list: each due timer is delivered to its channel or put into the next slot, others placed again; receivers and batches get exactly what is logged. |
| Clocks.Clock.MoveAll | clock/clock.go:197-217 | Drains a list of a higher level and places its timers again. |
| Clocks.Clock.TurnLevels | clock/clock.go:187-218 | Turns the higher levels while the pointer below is at zero. |
| Clocks.Clock.OneTick | clock/clock.go:181-219 | The whole tick: the linked lists end as the tick on values does. |
| Clocks.Clock.CatchUp | clock/clock.go:233-239 | The catch-up burst: the ticks for all boundaries passed, in order. |
| WsFrame.MaskedOnly | wsg/ws_util.go:136-140 | A payload is masked by a key if and only if for every byte i and every bit that bit differs from the original exactly if the bit of key byte i mod 4 is set. |
| WsFrame.MaskedTwice | wsg/ws_util.go:136-140 | Masking twice with the same key gives the payload back. |
| WsFrame.MaskPayload | wsg/ws_util.go:136-140 | The loop does so in place: bit j of byte i changes exactly if bit j of key byte i mod 4 is set. |
| WsFrame.HeadRoundTrip | wsg/ws_util.go:142-178 | Reading the header bytes MakeWsHeadBuff writes gives the header back, for every length below 2^63, masked or not. |
| WsFrame.HeadWritten | wsg/ws_util.go:142-178 | The bytes written: fin is bit 7 of the first, the opcode its low four bits; the mask flag is bit 7 of the second, the length its other seven bits, or 126 and two bytes, or 127 and eight, most significant first and as few as hold it; then the key. |
| WsFrame.HeadSays | wsg/connection.go:52-128 | Any header bytes are read by that same layout, and refused exactly for an eight-byte length with the top bit set. |
| WsFrame.FullHeadValid | wsg/ws_util.go:71-134 | Every header read is well formed; a length with the top bit set is refused. |
| WsRead.SizeCheck | wsg/server.go:274-279 | The size check refuses a too large frame if and only if length and collected bytes add up below 2^63; otherwise the frame is waited for. |
| WsFrames.HugeFrameWaits | wsg/server.go:274-279 | The input that shows it: after one byte of a message, a frame that announces 2^63 - 1 bytes leaves a new connection waiting, with no error. |
| WsRead.ChunkingIndependence | wsg/server.go:235-316 | However a byte stream is cut into reads, the connection ends in the same state: same messages, same replies, same error, same bytes held back. |
| WsRead.FeedSplits | wsg/connection.go:52-128 | Reading one chunk and then another is reading both at once, wherever the cut falls. |
| WsFrames.FramesInChunks | wsg/server.go:235-316 | In whatever chunks the bytes of a sequence of frames arrive, what the connection does is handling the frames one after the other up to the first error. |
| WsFrames.FrameRead | wsg/server.go:248-315 | Reading the bytes of one frame, header and masked payload, is handling that frame and going on with the rest. |
| WsFrames.FragmentsDelivered | wsg/server.go:296-307 | A fragmented message is delivered whole if and only if its last fragment is not empty; otherwise its data stays collected. |
| WsFrames.ControlFrame | wsg/connection.go:174-205 | A control frame keeps the connection open if and only if it is masked, final, not a close, at most 125 bytes for a ping and within the size limit together with the collected message; it then only answers a ping and leaves a message being collected alone. |
| WsFrames.ControlReplies | wsg/connection.go:174-205 | A final close frame of a length other than 1 and up to 125 is answered with exactly one close frame with its own payload, and ends the connection as closed by the client; a control frame that is not final, a close of 1 or more than 125 bytes and a ping of more than 125 are answered with exactly one error 1002 and end it as invalid. |
| WsFrames.RefusedFrames | wsg/server.go:258-280 | A frame without a mask and a text frame are answered with 1002, one that makes too much data with 1009, each with its own error, and nothing is delivered. |
| WsFrames.LengthRefused | wsg/connection.go:115-119 | A length with the top bit set ends the connection without a reply. |
| WsFrames.LastFrame | wsg/server.go:235-316 | In whatever chunks frames arrive, after the first that ends the connection nothing more is said or delivered. |
| WsFrames.CloseEchoed | wsg/connection.go:179-194 | So after a close frame its echo is the last that is said, whatever came before and follows. |
| WsFrames.ControlTransparent | wsg/connection.go:174-205 | As long as the connection stays open, control frames between fragments change nothing about the messages delivered, and every ping is answered in order with its own payload. |
| WsFrames.CloseReply | wsg/ws_util.go:180-212 | An error reply has the length its header announces if and only if it gives no reason; the announced part holds zeros where the reason should be. |
| WsConn.Connection.ReadHeader | wsg/connection.go:52-128 | The resumable header read: waits, fails, or takes the header off the input, as the steps on values do. |
| WsConn.Connection.TakePayload | wsg/server.go:274-288 | The unmasked payload, once all of it is there, or the size error. |
| WsConn.Connection.ReadFrame | wsg/server.go:235-316 | The whole loop: messages, replies, error and state are those of all steps the input allows. |
| StaticQueues.StaticList.Reset | ds/staticlist/staticlist.go:55-63 | Makes every entry free, in order; clears all data but that of the last entry, which the loop leaves out. |
| StaticQueues.StaticList.Malloc | ds/staticlist/staticlist.go:26-34 | Takes the first free entry, or Null exactly if there is none. |
| StaticQueues.StaticList.Free | ds/staticlist/staticlist.go:36-41 | Clears the entry and puts it at the front of the free list. |
| StaticQueues.LinksBack | ds/staticlist/queue.go:47-51 | Linking in before the sentinel spells the queue with the element at the end. |
| StaticQueues.Unlinks | ds/staticlist/queue.go:70-71 | Unlinking an entry spells the queue without it. |
| StaticQueues.TakeFree | ds/staticlist/queue.go:36-43 | Taking a free entry keeps each entry exactly one of sentinel, queued and free. |
| StaticQueues.GiveBack | ds/staticlist/queue.go:66-76 | Giving a queued entry back keeps that partition. |
| StaticQueues.Queue.Push | ds/staticlist/queue.go:36-53 | Appends; fails exactly at capacity, and then changes nothing. |
| StaticQueues.Queue.Pop | ds/staticlist/queue.go:55-63 | Removes and returns the first element, or zero. |
| StaticQueues.Queue.Remove | ds/staticlist/queue.go:66-76 | Removes a live entry from its place, and clears it. |
| StaticQueues.Queue.MoveToBack | ds/staticlist/queue.go:79-93 | Moves a live entry to the end. |
| StaticQueues.Queue.PopRange | ds/staticlist/queue.go:129-138 | Removes the longest prefix the callback accepts, one element after the other, handing its own state on from call to call. |
| StaticQueues.Queue.IsFull | ds/staticlist/queue.go:111-113 | True exactly if no entry is free. |
| Delta.WriteCollapses | db/mongo/delta/collector.go:73-92 | One write keeps the tree what it should be: exactly the written keys with nothing ever written above them, each with its last value. |
| Delta.NoConflicts | db/mongo/delta/collector.go:72-92 | No key of the update is a proper dotted ancestor of another, and every written key is in it or below one that is. |
| Delta.OneCollapse | db/mongo/delta/collector.go:72-92 | That determines the update. |
| Delta.HasAncestor | db/mongo/delta/collector.go:76-87 | Building up the prefixes part by part finds an ancestor in the tree exactly if there is one. |
| Delta.DeltaCollector.CatchDeltaData | db/mongo/delta/collector.go:68-92 | For every log: the update holds a key if and only if it was written and nothing above it ever was, with the last value written to it. |

## Left out

- KcpEndpoint.Kcp.Receive: copies into an array that the caller owns; the pooled payload buffers and their reuse are not modelled.
- KcpEndpoint.Kcp.InputBytes: pushed payloads above 1500 bytes that are in the window and new are outside the contract, because the code copies them into pooled buffers of that size and panics.
- KcpEndpoint.Kcp.Transmit: messages that would make a segment above 1500 bytes are outside the contract, for the same reason.
- KcpControl.WindowGrowth: payload sizes above 65535, which no IP datagram carries, are outside the contract; the 32-bit products wrap around there.
- KcpRuns.WindowsInRuns: likewise.
- KcpProgress.NoDeadlock: receive windows above 65535 on either side are outside the contract, since the code announces them truncated to 16 bits; `ShutOutExactly` says when that closes an empty queue.
- KcpDeadlock.ProgressExactly: likewise.
- KcpDeadlock.DeadForever: likewise for the sender's own receive window.
- KcpProgress.MovesOn: receive windows above 2^31 - 65535 are outside the contract, since the code then takes numbers in flight for ones outside the window.
- KcpRuns.AckedNeverResent: over runs in which the number stays within half the word space, since later the word is given to another segment.
- KcpEndpoint.Kcp.TransmitDue: `snd_buf`, `snd_queue`, `rcv_queue` and `acklist` are sequences here; `RingBuffers` proves the ring they are kept in against sequences separately.
- KcpHeap.SegmentHeap.Push: the sift-up and sift-down of the standard heap package are written out here.
- SkipLists.SkipList.Insert: the level is a parameter in 1..32 instead of a random draw.
- Clocks.Clock.CatchUp: ticks that never end are outside the contract, since the code does not return from them; which ticks these are is `TickEndsWhen`.
- Clocks.Clock.TriggerSlot: a blocking batch send is taken to complete, and a receiver being full is decided for each timer and tick.
- Clocks.Clock.NewTimer: the channel that hands operations to the goroutine of the clock, and its overflow, are not modelled; operations run between ticks as in the run loop.
- WsConn.Connection.ReadFrame: writes to the peer and handing messages to the router are taken to succeed and are recorded in order; pooled header objects are values.
- RingBuffers.RingBuffer.ForEach: callbacks have a state of their own but do not touch the ring they visit.
- StaticQueues.Queue.PopRange: likewise, callbacks do not touch the queue.
- StaticQueues.Queue.Remove: entry pointers are pool indices, so the conversion from a pointer to its index is not modelled.
- Delta.DeltaCollector.CatchDeltaData: the radix tree is a map from keys; splitting the update into set and unset parts by reflection is not modelled.
- KCP `Update`, `Check`, the option setters, statistics, logging, forward error correction and encryption.
- The KCP session, listener and transmit layers.
- Skip list `Foreach` and the ranking built on it.
- `InsertSorted`, `Range`, `Clear` and `SafeClear` of the timer list, which the clock does not use.
- The WebSocket handshake, the sending side and the connection timers.
- `First`, `Range` and `Clear` of the static queue.
- The rpc, service discovery, locking, logging and HTTP packages.
