# comnet, modelled and proved in Dafny

This project models the protocol code of comnet and proves what it does:

- the reliable transport of `MP2`: a sender that cuts a file into 100-byte segments and runs slow start, congestion
  avoidance, fast recovery and timeout, a receiver that reassembles the file, and a network between them that loses,
  duplicates and reorders packets;
- the CRC and the Internet checksum of `MP3`;
- the line-framed file service of `client_server`.

`dafny verify dfyconfig.toml` checks everything.

## Results worth knowing

- **transmit is not safe for files of 400 bytes or more.** `newAck` moves the file stream forward without moving
  `filePosition_`. After a timeout an ack can overtake the segment being re-sent, and from then on payloads carry the
  number of an earlier segment. `Overtaking.CodeLosesBytes` is, for every file of at least 400 bytes, a run in which
  `transmit` returns true and the receiver has everything but the fourth segment. So `ShortFiles.SoundIffShort`: all runs
  of a file are safe exactly when it has less than 400 bytes. `Protocol.SyncedIff` gives the exact condition of one call,
  and `Protocol.Safety` shows that end-to-end safety holds for every file in every run in which that condition is never
  violated, and in every run of a sender repaired to move both positions.
- **These are statements about the object.** `Executions.TransmitIsARun` shows that whatever the network does, executing
  `transmit` is a run of the system with the same packets sent, the same final state and the same result;
  `Executions.RunIsTransmit` turns finished runs in which no time passes back into executions, and `Executions.TransmitSafeIffShort` is the 400-byte
  result for `transmit` itself.
- **NUL bytes.** Payloads are copied up to `strlen`, so behind a NUL a segment carries NULs. The proofs do not assume
  NUL-free files: `Delivered(f)` is what the segments of `f` carry, and `Segments.DeliveredIsFileIff` says when
  that is `f` itself.
- **The congestion window can close.** RFC 5681 (equation 4 in section 3.1) keeps ssthresh at 2*SMSS or more; the
  code has no such floor. Some run reaches a window of 0 exactly when the file has at least 200 bytes
  (`Closing.WindowClosesIff`), and with data still to send exactly when it has at least 400
  (`Closing.WindowClosesEarlyIff`); new acks never open such a window again (`CongestionWindow.ClosedStaysClosed`).
- **One fold is not always enough.** `Checksum.AgreesExactly` says for every list when the printed checksum is the one of
  section 1 of RFC 1071. "No carry after the first fold" is the exact condition below 4294901763 words (`Checksum.Agrees`); with that
  many words the two can agree although there is a carry (`Checksum.CarryCanAgree`).
- **recv_line is documented to stop at the first CR LF.** It stops at the first LF that follows an odd number of CRs
  (`Framing.LineEnd`), so it misses CR CR LF (`Framing.DocumentedLineEnd`).
- **The client parses what its buffer holds.** When the connection ends without an answer that is its own request:
  asked for a file whose name starts with the number 404 it reports that the file is missing (`Framing.NoAnswer`). A file of 5120
  bytes or more that holds a NUL keeps it waiting forever (`Framing.Download`), and so does a header that ends with an
  empty line in front of a body without LF (`Framing.EmptyLineGoesOn`).

## Layout

Every object of the source whose methods update its fields is a class with those fields. Each of its methods is proved
equal to a function on values, and the theorems are about those functions.

| file | content |
|---|---|
| Segments.dfy | packets, segments of a file, what they carry (`MP2/packet.h`, `MP2/sender_state_machine.cpp:52-74, 116-150`) |
| Receiver.dfy | `OnPacket`, `Drain`, `Arrive`; class `ReceiverStateMachine` (`MP2/receiver_state_machine.cpp:100-263`) |
| Window.dfy | the congestion window as an automaton over sends, acks and timeouts (`MP2/sender_state_machine.cpp:208-349`) |
| Rtt.dfy | the round-trip estimator (`MP2/sender_state_machine.cpp:386-415`) |
| Sender.dfy | `SendNext`, `Retransmit`, `OnAck`, `TimeOut`; class `SenderStateMachine` (`MP2/sender_state_machine.cpp:36-384`) |
| Protocol.dfy | both ends and the network as one step relation; invariants over every run |
| Alignment.dfy | segment boundaries in every run |
| Timing.dfy | send times and round-trip estimates in every run |
| Phases.dfy | fast retransmit, recovery and timeout inside the system |
| Overtaking.dfy | the damaging run |
| ShortFiles.dfy | the files that no run damages |
| Closing.dfy | the files for which a run closes the window |
| Executions.dfy | executions of `transmit` as runs, and runs as executions |
| Gf2.dfy, Crc.dfy | polynomials over GF(2); the CRC (`MP3/crc/crc.cpp`) |
| Checksum.dfy | the checksum (`MP3/checksum/checksum.cpp`) |
| Framing.dfy | server answers and client parsing over a stream cut into arbitrary pieces (`client_server/network.cpp`, `client.cpp`) |

A run of the system is a list of steps: one pass of the send loop, an ack or a timeout reaching the waiting sender, a
data packet reaching the receiver, and loss or duplication of any packet in flight. The sender waits only when its send loop
has stopped, as in the code.

## Model

| member | source | states |
|---|---|---|
| Segments.BlankTwice | MP2/receiver_state_machine.cpp:238-243 | storing an early payload through a C string loses nothing that the sender's strlen-bounded copy had kept |
| Segments.DeliveredAt | MP2/sender_state_machine.cpp:58-69 | the segment at each legal position carries exactly the delivered bytes of that position |
| Segments.DeliveredIsFileIff | MP2/sender_state_machine.cpp:123-125 | the delivered bytes are the file iff no segment has text behind a NUL |
| Segments.CutThenGlue | MP2/sender_state_machine.cpp:52-74 | cutting the file into segments and concatenating the payloads gives the delivered bytes |
| Segments.CutNumbering | MP2/sender_state_machine.cpp:119-122 | segments are numbered consecutively by byte position, there are \|F\|/100+1 of them, and FIN stands on the last and no other |
| Receiver.OnSegment | MP2/receiver_state_machine.cpp:133-157 | delivering a segment leads from the state determined by the set delivered so far to the one determined by that set plus the segment, and the ack names the first missing byte |
| Receiver.DrainReachesGap | MP2/receiver_state_machine.cpp:245-263 | draining the buffer advances to the first gap, whatever waits beyond it |
| Receiver.DeliverAllIsCanon | MP2/receiver_state_machine.cpp:106-158 | after any list of segments the state is the one determined by the set of their numbers |
| Receiver.Confluence | MP2/receiver_state_machine.cpp:106-177 | two deliveries of the same set of segments, in any order with any duplicates, end in the same state |
| Receiver.Completeness | MP2/receiver_state_machine.cpp:106-160 | receive() finishes iff every segment was delivered, and then with the whole file and an empty buffer |
| Receiver.CompletenessUnderLoss | MP2/receiver_state_machine.cpp:179-219 | with the simulated loss receive() finishes iff every segment is among the arrivals whose numbers the rules do not name, and then with the whole file |
| Receiver.LossFromStart | MP2/receiver_state_machine.cpp:192-210 | the periodic rule loses arrival 1 and every (lossPeriod+1)-th; a rising list of positive numbers loses exactly the arrivals it names |
| Receiver.ArriveLoses | MP2/receiver_state_machine.cpp:192-210 | for any setting: an arrival is dropped iff its number is lost, and it changes nothing about later numbers |
| Receiver.SurvivorsByNumber | MP2/receiver_state_machine.cpp:106-117 | the packets that reach the receiver are, in order, exactly those whose arrival numbers are not lost |
| Receiver.AcksUnderLoss | MP2/receiver_state_machine.cpp:106-158 | every surviving arrival is answered until the file is complete; ack j names the first byte missing after the first j+1 of them, and only the last can carry FIN |
| Receiver.ReceiverStateMachine.SaveData | MP2/receiver_state_machine.cpp:173-177 | appends the payload to the received bytes |
| Receiver.ReceiverStateMachine.ProcessPacket | MP2/receiver_state_machine.cpp:163-171 | an expected packet extends the file and may set FIN |
| Receiver.ReceiverStateMachine.StoreEarlyData | MP2/receiver_state_machine.cpp:238-243 | the buffer gains the blanked payload under its number, replacing an older copy |
| Receiver.ReceiverStateMachine.CheckEarlyData | MP2/receiver_state_machine.cpp:245-263 | the loop over the buffer computes Drain |
| Receiver.ReceiverStateMachine.ReceivePacket | MP2/receiver_state_machine.cpp:179-219 | counts the arrival and drops it as the loss rules say |
| Receiver.ReceiverStateMachine.SendAck | MP2/receiver_state_machine.cpp:221-236 | the ack echoes the number, names the next byte and carries FIN iff the receiver finished |
| Receiver.ReceiverStateMachine.Receive | MP2/receiver_state_machine.cpp:100-161 | the receive loop computes ReceiveAll: state, loss state and acks |
| CongestionWindow.Reachable | MP2/sender_state_machine.cpp:208-349 | in every run: mode and numbers fit, a zero window means congestion avoidance with zero threshold, notAcked <= max(25, cwnd+1), cwnd <= 1 + packets received |
| CongestionWindow.StepKeeps | MP2/sender_state_machine.cpp:208-349 | every event keeps the window invariant and the outstanding bound, and adds at most one per arriving packet to the potential |
| CongestionWindow.ClosedStaysClosed | MP2/sender_state_machine.cpp:278-287 | no number of new acks opens a closed window |
| CongestionWindow.CreditGrows | MP2/sender_state_machine.cpp:278-287 | in congestion avoidance, among sends, cwnd*(cwnd-1)/2 + caAckCount grows by exactly one per new ack and notAcked falls by one |
| CongestionWindow.AdditiveIncrease | MP2/sender_state_machine.cpp:278-287 | k new acks from window c give window c+d with r acks counted iff k = c*d + d*(d-1)/2 + r and r < c+d |
| CongestionWindow.RecoveryIff | MP2/sender_state_machine.cpp:222-227 | in every run the sender is in fast recovery iff three or more duplicate acks came since the last new ack or timeout |
| CongestionWindow.ThreeDuplicates | MP2/sender_state_machine.cpp:222-227 | three duplicates halve the window, rounded down to segments: 100c-100 <= 2*ssthresh <= 100c, and cwnd and notAcked follow from it |
| CongestionWindow.RecoveryHalves | MP2/sender_state_machine.cpp:222-307 | in every run, while in recovery: the threshold is half of the window that the third duplicate found, cwnd is that plus three plus the later duplicates, notAcked is that plus one plus the later sends |
| CongestionWindow.Regrowth | MP2/sender_state_machine.cpp:329-348 | a timeout at window c sets 2*ssthresh = 100c; after k new acks the sender is in slow start with window k+1 iff k = 0 or 2(k+1) < c, and otherwise in additive increase from there |
| RoundTrip.UpdateIsTwoMoves | MP2/sender_state_machine.cpp:403-413 | with a forward clock each update moves the two estimates by an eighth and a quarter of the distance to the sample, rounded down |
| RoundTrip.UpdateBackwards | MP2/sender_state_machine.cpp:403-413 | when the clock ran backwards the estimate moves towards 2^64 less the difference, the deviation towards the difference |
| RoundTrip.UpdatesAreMoves | MP2/sender_state_machine.cpp:386-415 | the same over any run of acks |
| RoundTrip.StaysInRange | MP2/sender_state_machine.cpp:403-410 | a filter never leaves the range of its samples widened by its start |
| RoundTrip.Settles | MP2/sender_state_machine.cpp:403-410 | under a constant sample s the filter settles within the initial distance in updates: on s from above, within [s-7, s] (deviation [s-3, s]) from below |
| Timing.EstimatesInEveryRun | MP2/sender_state_machine.cpp:369-415 | in every run the sender's estimates are the two filters over the elapsed times of exactly its new acks, none missing or negative, hence within their range widened by 100 ms and 20 ms; the interval is estimate + 4*deviation once there was one |
| Timing.TimesAreLastSends | MP2/sender_state_machine.cpp:140-140 | in every run a time is recorded for exactly the sequence numbers sent, and it is that of the last packet sent under the number |
| Sender.SendLoop | MP2/sender_state_machine.cpp:52-74 | from a good stream the send loop sends exactly the next min(segments left, window room) segments, in order |
| Sender.ReadSegment | MP2/sender_state_machine.cpp:55-69 | reading at a position yields that segment's bytes, and fails the stream exactly on the last segment |
| Sender.AckDrivesWindow | MP2/sender_state_machine.cpp:208-327 | every reaction to a packet is one event of the window automaton |
| Sender.OnlyAcksMatter | MP2/sender_state_machine.cpp:351-370 | packets that are no acks change nothing; an ack up to and including the acked position is a duplicate, one above it is new, one with FIN ends the transfer |
| Sender.SenderStateMachine.constructor | MP2/sender_state_machine.cpp:12-18 | the initial fields |
| Sender.SenderStateMachine.SendData | MP2/sender_state_machine.cpp:116-150 | the packet sent has number filePosition+1, FIN iff the stream failed, the strlen-bounded payload; it is timed and counted |
| Sender.SenderStateMachine.SendBurst | MP2/sender_state_machine.cpp:52-74 | the inner loop computes SendAll |
| Sender.SenderStateMachine.RetransmitMissingSegment | MP2/sender_state_machine.cpp:152-191 | sends from the acked position and returns both positions to where sending stood, through both end-of-file branches |
| Sender.SenderStateMachine.UpdateRTT | MP2/sender_state_machine.cpp:386-415 | updates the estimator from the recorded send time, or leaves it alone |
| Sender.SenderStateMachine.DupAck | MP2/sender_state_machine.cpp:359-367 | counts acks at or below the acked position |
| Sender.SenderStateMachine.NewAck | MP2/sender_state_machine.cpp:369-384 | an ack above the acked position moves it and perhaps the stream, but not filePosition |
| Sender.SenderStateMachine.ProcessTimeout | MP2/sender_state_machine.cpp:329-349 | a timeout halves the threshold, closes the window to one and restarts both positions at the acked byte |
| Sender.SenderStateMachine.EnterFastRecovery | MP2/sender_state_machine.cpp:222-231 | the third duplicate ack sets the recovery window and retransmits |
| Sender.SenderStateMachine.SsReceive | MP2/sender_state_machine.cpp:208-249 | in slow start the reaction is OnAck |
| Sender.SenderStateMachine.CaReceive | MP2/sender_state_machine.cpp:251-291 | in congestion avoidance the reaction is OnAck |
| Sender.SenderStateMachine.FrReceive | MP2/sender_state_machine.cpp:293-327 | in fast recovery the reaction is OnAck, including the loop that subtracts the covered segments |
| Sender.TrueIffFinalAck | MP2/sender_state_machine.cpp:50-113 | the loop ends with true iff a FIN ack is among the packets it meets |
| Sender.SenderStateMachine.Transmit | MP2/sender_state_machine.cpp:50-113 | transmit's loop computes TransmitAll: state, packets sent and result; it returns true iff a FIN ack is among its inputs |
| Protocol.AcksAreHonest | MP2/sender_state_machine.cpp:386-394 | in every run of the code every ack in flight answers a packet that was sent, claims no more than was received, carries FIN only after FIN, and finds a send time that is not in the future |
| Protocol.WindowInEveryRun | MP2/sender_state_machine.cpp:208-349 | the window facts hold for the sender in every run of the whole system |
| Protocol.SyncedIff | MP2/sender_state_machine.cpp:377-379 | a reaction to a packet keeps stream and filePosition together iff the ack does not overtake |
| Protocol.SendOnWire | MP2/sender_state_machine.cpp:52-74 | every packet of the send loop is the segment at filePosition |
| Protocol.RetransmitOnWire | MP2/sender_state_machine.cpp:152-191 | every retransmission is the segment at the acked position, and the sender returns to where it stood |
| Protocol.Safety | MP2/sender_state_machine.cpp:50-113 | end-to-end safety in every run without overtaking and in every run of the repaired sender: received bytes are a prefix of the delivered bytes, transmit returns true only when all are there, every data packet is a segment, positions and acks stay on segment boundaries |
| Alignment.AcksOnBoundaries | MP2/receiver_state_machine.cpp:133-157 | in every run, overtaken or not, the receiver stands on a multiple of 100 until FIN, and every ack below FIN and the sender's acked position are 1 modulo 100 |
| Alignment.AckCoversWholeSegments | MP2/sender_state_machine.cpp:312-322 | in every run, a new ack that reaches a sender in recovery takes exactly the newly covered segments off notAcked and sets the window to the threshold; outside recovery it takes off one |
| Alignment.LeavingRecovery | MP2/sender_state_machine.cpp:314-322 | in every run of the code 100*cwnd is then the threshold itself, and notAcked has fallen by ackNum - acked in bytes |
| Phases.RetransmitReturns | MP2/sender_state_machine.cpp:152-191 | for any sender: the segment at the acked position is sent, then stream and filePosition stand together where the stream stood, also at the end of the file, unless the segment was the last |
| Phases.FastRetransmit | MP2/sender_state_machine.cpp:222-231 | the third duplicate sends the missing segment and then exactly the next min(2, 24 - c/2) segments of the file, none if the missing one was the last |
| Phases.FastRetransmitAtEnd | MP2/sender_state_machine.cpp:154-161 | after the whole file was sent, that is one more FIN packet |
| Phases.TimeoutResends | MP2/sender_state_machine.cpp:329-349 | after a timeout exactly the segment at the acked position is sent, and the positions are together, whatever they were |
| Phases.RecoveryInEveryRun | MP2/sender_state_machine.cpp:208-327 | the recovery laws hold for the sender in every run of the system |
| Phases.TimeoutInEveryRun | MP2/sender_state_machine.cpp:329-349 | from any timeout in the system the window is regrown as Regrowth says |
| Overtaking.Overtake | MP2/sender_state_machine.cpp:369-384 | in every file of at least 400 bytes a run reaches a good stream 100 bytes ahead of filePosition |
| Overtaking.StayShifted | MP2/sender_state_machine.cpp:52-74 | from there on each payload is taken for the one before it, through any growth of the window |
| Overtaking.CodeLosesBytes | MP2/sender_state_machine.cpp:369-384 | for every file of at least 400 bytes a run ends with transmit returning true and the receiver having all of the file but its fourth segment |
| Closing.WindowClosesIff | MP2/sender_state_machine.cpp:222-227 | some run reaches window zero iff the file has at least 200 bytes |
| Closing.WindowClosesEarlyIff | MP2/sender_state_machine.cpp:293-322 | some run reaches window zero with the stream still good iff the file has at least 400 bytes |
| ShortFiles.OnlyOneOvertaking | MP2/sender_state_machine.cpp:377-379 | in every run of a file below 400 bytes the only ack that can overtake moves the stream from byte 200 to byte 300 |
| ShortFiles.ShortFilesAreSound | MP2/sender_state_machine.cpp:50-113 | below 400 bytes every run of the code is safe |
| ShortFiles.SoundIffShort | MP2/sender_state_machine.cpp:369-384 | for each file: all its runs are safe iff it has less than 400 bytes |
| Executions.TransmitIsARun | MP2/sender_state_machine.cpp:50-113 | every execution of transmit against the network is a run of the system: same packets sent, same final sender, true iff the run finished |
| Executions.RunIsTransmit | MP2/sender_state_machine.cpp:50-113 | every finished run in which no time passes is an execution of transmit with the same data received |
| Executions.Transfer | MP2/sender_state_machine.cpp:50-113 | a sender object's true return means that the receiver finished, and for files below 400 bytes, or without overtaking, that it has the delivered bytes |
| Executions.TransmitSafeIffShort | MP2/sender_state_machine.cpp:369-384 | for each file: true from transmit always means that the receiver has the delivered bytes, iff the file has less than 400 bytes |
| Crc.GenerateCrc | MP3/crc/crc.cpp:13-28 | the shift-and-add loop computes Remainder |
| Crc.DivideCorrect | MP3/crc/crc.cpp:17-25 | each pass clears the top bit and stays congruent modulo the generator |
| Crc.RemainderCorrect | MP3/crc/crc.cpp:13-28 | the result is the one r < 8 for which (data << 3) xor r is a carry-less multiple of the generator |
| Crc.WidthDoesNotMatter | MP3/crc/crc.cpp:17 | a larger in_bits gives the same CRC |
| Crc.Linear | MP3/crc/crc.cpp:13-28 | the CRC of a xor b is the xor of the CRCs |
| Crc.BurstDetected | MP3/crc/crc.cpp:110-121 | a non-zero error within three adjacent bits never passes |
| Crc.OneInEight | MP3/crc/crc.cpp:110-121 | exactly 2^(n-3) of the 2^n words have remainder zero |
| Crc.NineFolds | MP3/crc/crc.cpp:117 | with generator 9 the CRC is the xor of the word's 3-bit groups |
| Crc.NineDetects | MP3/crc/crc.cpp:117 | with generator 9 an error passes iff each of the three interleaved bit classes has even weight; odd-weight errors never pass |
| Crc.GenerateTable | MP3/crc/crc.cpp:30-34 | fills the table with the CRCs of all 16-bit words, converted to short |
| Crc.TableEntry | MP3/crc/crc.cpp:30-34 | an entry is r iff r is the true remainder: the conversion loses nothing |
| Crc.ShortIs | MP3/crc/crc.cpp:30-34 | the conversion to short gives the one 16-bit number congruent to its argument |
| Checksum.Compute | MP3/checksum/checksum.cpp:20-28 | summing, folding once and complementing prints Printed |
| Checksum.OneFoldSuffices | MP3/checksum/checksum.cpp:26 | the exact condition on any sum for one fold of its low 64 bits to equal the full end-around-carry fold |
| Checksum.AgreesExactly | MP3/checksum/checksum.cpp:20-28 | for lists of any length: when the printed value is the RFC 1071 checksum |
| Checksum.Agrees | MP3/checksum/checksum.cpp:20-28 | below 4294901763 words they agree iff the first fold leaves no carry |
| Checksum.CarryCanAgree | MP3/checksum/checksum.cpp:26 | a list of 4294901763 words that agrees although the first fold leaves a carry, so the bound is the largest possible |
| Checksum.TwoWordsAgree | MP3/checksum/checksum.cpp:20-28 | at most two words always agree |
| Checksum.ThreeWordsDiffer | MP3/checksum/checksum.cpp:20-28 | three words that do not |
| Checksum.ReceiverAccepts | MP3/checksum/checksum.cpp:28 | for lists of any length: when adding the printed value to the words folds to 0xffff, and when that means the RFC 1071 checksum; below 4294901761 words always |
| Checksum.OrderIrrelevant | MP3/checksum/checksum.cpp:22-24 | the order of the words does not matter |
| Checksum.SumOfWords | MP3/checksum/checksum.cpp:22-24 | every number, negative or large, counts as the 16-bit word congruent to it |
| Framing.LineEnd | client_server/network.cpp:16-34 | recv_line ends a line at exactly the first LF behind an odd run of CRs |
| Framing.DocumentedLineEnd | client_server/network.h:6-13 | it stops at the first CR LF, as documented, iff the run of CRs there is odd |
| Framing.AtoiOfToString | client_server/client.cpp:84-93 | atoi reads back what to_string printed, whatever non-digit follows |
| Framing.AtoiOfSigned | client_server/client.cpp:84-93 | also behind white space and one sign |
| Framing.HeaderRoundTrip | client_server/client.cpp:74-95 | whatever the buffer holds, the parsing loop reads back code 200 and the printed length, and stops just before the body |
| Framing.BadRequestRecognised | client_server/client.cpp:85-87 | the server's 400 answer is recognised |
| Framing.NotFoundRecognised | client_server/client.cpp:88-90 | the server's 404 answer is recognised |
| Framing.CutNotFoundRecognised | client_server/client.cpp:74-90 | the 404 answer is recognised even when the stream ends anywhere behind the code |
| Framing.CutLengthLine | client_server/client.cpp:92-94 | an answer cut off in the label of its second line is Malformed or waited for depending on a colon in what the buffer still holds |
| Framing.EmptyLineGoesOn | client_server/client.cpp:74-78 | an empty line does not end the header: with a body without LF behind it the client waits forever |
| Framing.ExtraLineSkipped | client_server/client.cpp:74-95 | header lines behind the second are skipped, whatever they hold |
| Framing.NoAnswer | client_server/client.cpp:59-95 | what the client makes of its own request when the stream ends without an answer |
| Framing.Connection.SendString | client_server/network.cpp:59-72 | over any split into sends: 1 when the whole text went out, 0 when a proper prefix did |
| Framing.Connection.SendFile | client_server/network.cpp:74-107 | 1 when header, length and text went out, 0 when at least one of the three was cut short, the later ones still being sent; -1 only for a missing file |
| Framing.Connection.RecvLine | client_server/network.cpp:16-34 | the byte-wise loop computes Scan; the buffer holds the line, its NUL, and behind them what it held before; at the end of the stream 0 and the bytes read over the old content |
| Framing.Connection.RecvStream | client_server/network.cpp:36-57 | over any split into receives: exactly the next size bytes, or all there are; it never returns iff the size is 5120 or more and the stream too short |
| Framing.Connection.ReadHeader | client_server/client.cpp:72-95 | the header loop computes Parse, including what it parses after the end of the stream |
| Framing.Download | client_server/network.cpp:74-107 | a whole exchange over any splits gives code 200, the length and the file's text: the file itself iff it has no NUL, and an endless wait iff it has one and 5120 bytes or more |

## Left out

- Sender.SenderStateMachine.SendData: returns the number of payload bytes, as its declaration documents; the `strlen(data)-2` of the code depends on what lies behind the buffer, and everything said here of "the code" is said of the code with the documented value. Packet bytes behind data_len are not modelled; no member reads them.
- Sender.SenderStateMachine.SendBurst: reads the clock once for the whole burst; in the step relation of Protocol every packet has its own reading.
- Sender.SenderStateMachine.Transmit: is fed with the list of what each wait brings; failed opens, socket exceptions and the -1 returns they cause are not modelled, nor are traces and console output.
- Receiver.LossFromStart: a list of losses that does not rise gets stuck where it first fails to (`Receiver.Rising`); reading the loss pattern from its file is not modelled.
- Receiver.ReceiverStateMachine.Receive: is fed with the packets that arrive; past the end of the specific loss list nothing more is dropped, where the code reads beyond the vector.
- Protocol.Safety: no liveness; the final ack can be lost after the receiver has left, so the sender need not finish.
- RoundTrip.UpdateIsTwoMoves: the filter is exact real arithmetic truncated on assignment, not IEEE double.
- Crc.GenerateCrc: works on unbounded naturals; in C the int shifts limit in_bits to 28, and negative data or table indices are not modelled.
- Checksum.Compute: takes the numbers that `atoi` yields for the words of the line; splitting the line is not modelled.
- Framing.Connection.ReadHeader: the buffer has room for every line; overflow of the buffer or of `atoi` is not modelled, and going on behind a NULL from `strchr` is the value Malformed.
- Framing.Connection.SendFile: a failed allocation, which the code also answers with 0, does not occur.
- Executions.RunIsTransmit: for runs with constant clock readings, because transmit here reads the clock once a burst; the readings reach nothing but the round-trip estimates.
- Integer widths: positions, windows and counters are unbounded, which is the code's behaviour for files below 2^31 bytes and windows below 2^31 bytes; the wrap-around of the elapsed time and of the checksum sum is modelled.
- The file stream is a value (its position, or failed) held in a field of the sender; the reopened object of the code has no identity here.
- Sockets, name resolution, process handling, argument parsing, the loss-pattern file, random generation and timing in the CRC benchmark: input and output around the modelled code.
- MP0, MP2/test.cpp and the copies under .svn: not part of the protocol code.
