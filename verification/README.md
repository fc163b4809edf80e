# Verified model of libcsp

libcsp is a network stack for small satellites. This project models its transport and link layers in
Dafny 4.11 and proves what they promise:

- **RDP**, the reliable transport: two endpoints with 16-bit wrapping numbers, windows, reorder and
  retransmit queues and a three-party close, over a channel that loses, duplicates and reorders.
- **Link framing**: the CSP header, KISS byte stuffing, CAN fragmentation in both versions, and SFP.
- **Forwarding, the routing table and its text form, the connection table, and buffer ownership.**
- **Fast forms of simple definitions**: table-driven CRC-32C, streaming SHA-1, HMAC and the duplicate
  detection ring.

`dafny verify dfyconfig.toml` checks everything.

## How it is laid out

| files | contents |
|---|---|
| `Rdp` | the protocol as functions on a connection record |
| `RdpConnection`, `RdpQueue` | the same protocol as methods that change fields and queues, each handler proved equal to its function |
| `RdpNet` | two endpoints, a channel, events and runs |
| `RdpFrames`, `RdpLocal` | what each operation changes, and the invariant of one endpoint |
| `RdpEndToEnd`, `RdpReading`, `RdpWindow`, `RdpRetention`, `RdpWrapAround` | safety in every run: order, what user space reads, windows, retransmission, the limit of 16-bit numbers |
| `RdpClosing` | how connections end, and that they do |
| `RdpAcks`, `RdpSegments` | when acknowledgements leave, and exactly what each kind of segment does in each state |
| `RdpProgress`, `RdpLiveness` | which payloads can still be delivered and read |
| `RdpShortRuns`, `RdpWedge` | runs of up to 32767 payloads, and payloads that block the stream |
| `CspId`, `Crc32c` | header formats, checksum, checksum trailer |
| `Kiss`, `CanPbuf`, `Can1`, `Can2`, `Sfp` | framing and fragmentation |
| `Sha1`, `Sha1Known`, `Hmac`, `Dedup` | refinements of simple definitions |
| `Routing`, `RoutingText`, `Forwarding`, `ConnTable`, `Ownership` | the router |
| `WireExamples` | bytes on the wire for one packet of each format |
| `Bytes`, `Addresses`, `SeqNumbers`, `Rotation` | words, blocks of addresses, wrapping numbers, rotating queues |

Code that updates state in place is a class or a method with loops, proved against a specification
function; the theorems are about those functions. Clocks, random numbers, allocation failures and the
order of events are parameters, so the theorems hold for all of them. Fields marked "history" in `Rdp`
record what was accepted, delivered and read; no branch depends on them.

## What does not hold

Each of these comes with the exact condition under which the code does what was expected of it.

- **In-order delivery breaks at 65536 payloads.** A duplicate that outlives 65536 newer payloads carries
  the number expected next and is delivered again (`RdpWrapAround.OneTooMany`). Delivery is in order for
  every run of at most `limit` payloads per side if and only if `limit <= 65535`
  (`RdpWrapAround.EndToEndExactly`), and the same limit is exact for what csp_read returns
  (`RdpWrapAround.ReadExactly`). Beyond that it holds as long as nothing outlives its number
  (`RdpWindow.EndToEndUnbounded`).
- **Some accepted payloads block the stream for good.** `csp_send` takes and numbers a payload without bytes,
  whose segment the receiver reads as a bare acknowledgement, and one that fits a packet only without its
  checksum or HMAC trailer, which is freed on every attempt to send it. Nothing from such a payload on is ever
  delivered (`RdpWedge.UndeliverableWedges`). With both sides open and room on the receiver's queue the next
  payload can still be delivered if and only if it is neither (`RdpLiveness.ProgressExactly`), and everything
  sent so far can be delivered, and read, if and only if no payload is (`RdpLiveness.DrainsExactly`,
  `RdpLiveness.ReadsExactly`). With a CRC-32 and packets of
  256 bytes these are, of the 0 to 251 bytes that are accepted, 0 and 248 to 251 (`RdpWedge.FirstPayload`).
- **The shared RDP queues mix connections.** Taking a packet relabels every packet rotated past. Other
  connections keep their packets if and only if the queue is empty or its first packet already belongs to
  the caller (`RdpQueue.GetIsolatesExactly`).
- **Cleaning up expired CAN packets skips neighbours.** All expired elements are freed, but the list is left
  with the unexpired ones only if and only if no two adjacent elements have expired
  (`CanPbuf.CleanupExactly`, `CanPbuf.CleanupMisses`). Otherwise a freed element stays listed
  (`CanPbuf.FreedListedExactly`).
- **CAN 2 misses losses of eight frames.** A middle run of lost frames is noticed if and only if its length
  is not a multiple of eight (`Can2.RunDropped`); `Can2.LossExactly` covers every pattern of loss.
- **CAN 1 cannot carry more than 2042 bytes** (`Can1.RoundTripExactly`), and **KISS no more than
  CSP_BUFFER_SIZE - 5** (`Kiss.DeliveredExactly`). Longer packets are accepted and lost.
- **The two-step checksum test weakens burst detection.** Damage within four adjacent bytes is always caught
  by the test without the header. It slips through exactly when the test with the header matches by accident
  (`CspId.BurstCaught`). Four bytes of damage that do so exist if and only if the header moves the checksum
  register (`CspId.BurstSlipsExactly`).
- **Duplicate detection right after start-up** takes a packet with checksum zero for a repeat. Exactly this
  case differs from the promise (`Dedup.AnswersExactly`); under every header there is such a packet of four
  bytes (`Dedup.FalseRepeat`).
- **The broadcast rewrite spills over.** Once one local interface turns a destination into a broadcast, all
  later copies keep it (`Forwarding.RewriteSpills`). Each copy depends on its own interface alone if and only if
  no permitted interface on which the destination is ordinary follows one on which it is a broadcast
  (`Forwarding.RewrittenExactly`).
- **Outgoing ports wrap.** An incoming id can come to belong to two open connections if and only if there are
  two slots and CSP_PORT_MAX_BIND plus their number is at least 256 (`ConnTable.AmbiguousExactly`).
- **A SYN can cost a buffer.** With exactly two buffers left it is sent nowhere and not freed; otherwise no
  buffer is lost (`Ownership.Node.SendControl`).

Where code and comments differ, the model follows the code. Comments in `src/csp_route.c` say the CRC-32
check leaves out the header, while `csp_crc32_verify` tries with the header first. The compile-time test in
`src/csp_conn.c:18-21` uses a constant that file does not define, so it is not relied on.

## Model

| member | source | states |
|---|---|---|
| `SeqNumbers.BeforeExact` | src/csp_rdp.c:90-92 | the 16-bit "before" test agrees with unbounded order exactly for differences from -32768 to 32767 |
| `SeqNumbers.BetweenExact` | src/csp_rdp.c:85-87 | the wrapping "between" test of a window agrees with unbounded order for every number not older than the rest of the 16-bit range |
| `Rdp.OptionsRoundTrip` | src/csp_rdp.c:188-195 | the options read from a SYN are those the sender wrote into it |
| `Rdp.FindSeq` | src/csp_rdp.c:257-279 | finds the first queued packet with a number, or reports that none has it |
| `RdpConnection.Connection.FlushPass` | src/csp_rdp.c:221-253 | one pass over the reorder queue delivers the next packet if present and room remains, else leaves the queue unrotated; the enqueue cannot fail |
| `RdpConnection.Connection.RxQueueFlush` | src/csp_rdp.c:215-255 | the restarting loop terminates and equals the specified flush |
| `RdpConnection.Connection.SeqInRxQueue` | src/csp_rdp.c:257-279 | reports whether a number is queued and how far the queue was rotated |
| `RdpConnection.Connection.RetransmitExpired` | src/csp_rdp.c:373-417 | every queued segment is visited exactly once, in order |
| `RdpConnection.Connection.Receive` | src/csp_rdp.c:437-751 | the whole segment handler equals the specified state machine |
| `RdpConnection.Connection.Fetch` | src/csp_io.c:43-70 | csp_read takes the front of the queue and may acknowledge; the item returned is the specified one |
| `RdpFrames.FlushMaximal` | src/csp_rdp.c:215-255 | a flush delivers the maximal run of consecutive queued packets, stopping only at a gap or with two slots free |
| `RdpLocal.ApplyLocal` | src/csp_rdp.c:341-922 | every operation keeps an endpoint's invariant, forgets nothing accepted, and sends only genuine segments |
| `RdpEndToEnd.InvNext` | src/csp_rdp.c:601-706 | every event keeps the two-endpoint invariant while no number is ambiguous |
| `RdpEndToEnd.EndToEnd` | src/csp_rdp.c:601-706 | in every run with at most 65535 payloads per side each side has received a prefix of what the other sent |
| `RdpReading.RunInOrder` | src/csp_rdp.c:200-255 | in every run without exception, while a connection is in use, what was read followed by the packets on its queue is what was delivered |
| `RdpReading.ReadReturns` | src/csp_io.c:43-70 | csp_read returns the oldest delivered payload not yet read, or a wake-up, and leaves the rest in order |
| `RdpReading.ReadEndToEnd` | src/csp_io.c:43-70 | in every run with at most 65535 payloads per side, what each user has read is a prefix of what the other sent |
| `RdpEndToEnd.CloseIsAgreed` | src/csp_rdp.c:890-922 | a connection given to user space is pooled exactly when user, protocol and timeout have all closed it; a pooled one is CLOSED with no closers |
| `RdpClosing.TickPoolsExactly` | src/csp_rdp.c:341-370 | a timeout check pools a connection exactly when its time is over and it is unclaimed or closed by the user; a pooled one is CLOSED with empty queues and no closers |
| `RdpClosing.OverduePooled` | src/csp_rdp.c:341-370 | in every reachable state a connection handed over and closed by the user, or never claimed, is pooled by one check after its connection timeout |
| `RdpClosing.UnclaimedAtFirst` | src/csp_rdp.c:345-357 | a connection opened by a SYN waits unclaimed until the connection timeout of that SYN has passed |
| `RdpClosing.CloseEndsIt` | src/csp_rdp.c:362-370 | in every reachable state csp_close pools the connection at once or leaves it to the first overdue check, whatever the peer does |
| `RdpClosing.HangUpTells` | src/csp_rdp.c:890-922 | csp_close on an open connection sends one reset that acknowledges everything received |
| `RdpClosing.ResetHeard` | src/csp_rdp.c:457-493 | a reset with the next number leaves what was delivered readable, wakes the reader, and lets its csp_close pool the connection at once |
| `RdpClosing.EndIsHeard` | src/csp_rdp.c:457-493 | in every run with at most 65535 payloads per side, once everything sent has been delivered the reset of a closing side, when it arrives, closes the other |
| `RdpWindow.EndToEndUnbounded` | src/csp_rdp.c:601-706 | prefix delivery without a limit on payloads, as long as nothing outlives its number |
| `RdpWindow.NeverBeyondWindow` | src/csp_rdp.c:327-333 | despite acknowledgements that move backwards, no payload is beyond the peer's last delivery plus the window, so none is refused as too new |
| `RdpRetention.Retention` | src/csp_rdp.c:373-417 | with a window of at most CSP_RDP_MAX_WINDOW the retransmit queue stays within its slots and holds every payload above the highest acknowledgement |
| `RdpAcks.CheckAckExactly` | src/csp_rdp.c:293-325 | one acknowledgement of the last delivery leaves exactly when there is room for two windows, it is due and a buffer is free |
| `RdpAcks.DueByCount` | src/csp_rdp.c:293-310 | due by count means more deliveries than the limit since the last acknowledgement, across wrap-around |
| `RdpAcks.PayloadAnswered` | src/csp_rdp.c:667-706 | a payload in sequence is acknowledged exactly when due, and otherwise the acknowledgement clock is left alone |
| `RdpAcks.UndelayedAnswers` | src/csp_rdp.c:667-706 | without delayed acknowledgements every payload in sequence is answered, given room and a buffer |
| `RdpAcks.TickAnswers` | src/csp_rdp.c:418-434 | a delayed acknowledgement leaves with the first check at which it is due, so by the one after its timeout |
| `RdpAcks.RepeatAnswered` | src/csp_rdp.c:677-706 | a payload that is queued already is answered like one in sequence |
| `RdpAcks.ReadAnswers` | src/csp_io.c:43-70 | reading acknowledges exactly when due, counting the slot it has freed |
| `RdpSegments.OpenExactly` | src/csp_rdp.c:601-706 | in OPEN a segment is taken exactly when its number is one of the next two windows and its acknowledgement is not beyond what was sent nor two windows old; else nothing changes |
| `RdpSegments.StaysOpenExactly` | src/csp_rdp.c:457-706 | exactly which segments close an open connection, and what those that do not leave unchanged |
| `RdpSegments.OnlyResetsClose` | src/csp_rdp.c:601-706 | in every run in which nothing outlives its number no segment under way other than a reset closes an open connection |
| `RdpSegments.ListensExactly` | src/csp_rdp.c:499-546 | exactly a bare SYN opens a connection, with the options and number it carries, and is answered with SYN and ACK |
| `RdpSegments.AnswersExactly` | src/csp_rdp.c:601-665 | when the third segment of the handshake opens, is answered again, is ignored or is refused |
| `RdpSegments.CallsExactly` | src/csp_rdp.c:548-596 | what the caller does with each answer to its SYN |
| `RdpSegments.DialExactly` | src/csp_rdp.c:753-813 | connecting sends one SYN whose options read back as given, or gives up |
| `RdpSegments.SendExactly` | src/csp_rdp.c:816-867 | a payload is taken, numbered, sent with the current acknowledgement and kept exactly when fewer than a window are outstanding, it fits, and a buffer is free |
| `RdpSegments.AheadIsKept` | src/csp_rdp.c:677-706 | a payload ahead of sequence is kept once, as long as the queue has room, and nothing else is lost |
| `RdpSegments.CloseWaitExactly` | src/csp_rdp.c:708-729 | a closing side answers plausible acknowledgements with a reset and nothing else |
| `RdpSegments.ResetInWait` | src/csp_rdp.c:457-493 | an acknowledging reset ends a connection the user has closed |
| `RdpSegments.KeptFrom` | src/csp_rdp.c:373-417 | what stays queued after a check was queued, is not acknowledged, and is unchanged or refreshed |
| `RdpSegments.SentFrom` | src/csp_rdp.c:373-417 | what a check sends again was queued, is not acknowledged, and had timed out |
| `RdpSegments.RetransmitsAll` | src/csp_rdp.c:373-417 | with buffers, every unacknowledged segment is sent again if timed out, and stays queued |
| `RdpSegments.Rearmed` | src/csp_rdp.c:373-417 | a segment sent again does not fire before its timeout has passed anew, across clock wrap-around |
| `RdpWrapAround.OneTooMany` | src/csp_rdp.c:616-665 | a run of 65536 payloads that delivers one twice |
| `RdpWrapAround.EndToEndExactly` | src/csp_rdp.c:601-706 | 65535 is the exact bound for prefix delivery |
| `RdpWrapAround.OneTooManyRead` | src/csp_io.c:43-70 | a run of 65536 payloads in which the user reads one twice |
| `RdpWrapAround.ReadExactly` | src/csp_io.c:43-70 | 65535 is the exact bound from csp_send to csp_read |
| `RdpProgress.RunCarried` | src/csp_io.c:239-263 | in every run without exception, whatever is delivered is not empty and fits a packet with header and trailer |
| `RdpProgress.ProgressNext` | src/csp_rdp.c:341-706 | every event keeps what progress rests on: open connections belong to user space, queued payloads carry acknowledgements, and no acknowledgement taken claimed more than was delivered |
| `RdpLiveness.Advance` | src/csp_rdp.c:373-434 | from every state with both sides open at most three steps, a timeout check on each side and one reception, deliver the next payload that is deliverable |
| `RdpLiveness.ProgressExactly` | src/csp_rdp.c:373-706 | the next payload can still be delivered exactly when it is not empty and fits with its trailer |
| `RdpLiveness.DrainsExactly` | src/csp_rdp.c:373-706 | everything sent so far can still be delivered exactly when no undelivered payload is empty or too long for its trailer |
| `RdpLiveness.ReadsExactly` | src/csp_io.c:43-70 | everything sent so far can still be read by the other user under exactly the same condition |
| `RdpShortRuns.ShortRunsSettle` | src/csp_rdp.c:82-112 | with at most 32767 payloads per side and windows within CSP_RDP_MAX_WINDOW nothing ever outlives its number |
| `RdpShortRuns.ShortRunsKeepWindow` | src/csp_rdp.c:327-417 | so in every such run, whatever the channel does: prefix delivery, no payload beyond the window, nothing lost from the retransmit queue |
| `RdpWedge.UndeliverableWedges` | src/csp_rdp.c:673-675 | nothing at or after a payload that is empty or too long for its trailer is ever delivered |
| `RdpWedge.FirstPayload` | src/csp_rdp.c:835-853 | a connected client's first payload of any accepted size: deliverable exactly from 1 to 247 bytes |
| `RdpQueue.Queue.Add` | src/csp_rdp_queue.c:35-40 | appended, or freed when the queue is full |
| `RdpQueue.Queue.Get` | src/csp_rdp_queue.c:42-62 | the first packet of the connection; everything rotated past changes owner |
| `RdpQueue.Queue.Flush` | src/csp_rdp_queue.c:6-33 | an order-preserving filter; exactly the connection's packets are freed |
| `RdpQueue.FlushIsolates` | src/csp_rdp_queue.c:6-33 | a flush changes no other connection's packets and leaves none of its own |
| `RdpQueue.GetIsolatesExactly` | src/csp_rdp_queue.c:42-62 | exact condition for a lookup to leave other connections alone |
| `CspId.StripExactly` | src/csp_id.c:44-178 | a prepended header reads back exactly when every field fits its bits, in both versions; the data always does |
| `CspId.HeaderOfStripped` | src/csp_id.c:44-178 | rewriting a parsed header reproduces the received bytes |
| `CspId.VerifyAppended` | src/csp_crc32.c:92-147 | verify accepts and strips what append produced |
| `CspId.BurstCaught` | src/csp_crc32.c:118-147 | exact condition for damage within four bytes to pass verification |
| `CspId.BurstSlips` | src/csp_crc32.c:126-142 | under every header that moves the checksum register, any four data bytes anywhere have a replacement that verifies against the original trailer |
| `CspId.BurstSlipsExactly` | src/csp_crc32.c:118-147 | and under no other header |
| `Crc32c.TableEntry` | src/csp_crc32.c:16-49 | each of the 256 table entries is eight division steps on its index |
| `Crc32c.TableByteExact` | src/csp_crc32.c:67-67 | one table step is eight bit steps on the register |
| `Crc32c.Update` | src/csp_crc32.c:58-71 | the table loop equals the bit-at-a-time CRC-32C of section 12.1 of RFC 3720 for every byte string |
| `Crc32c.SplitUpdates` | src/csp_crc32.c:58-71 | any split into updates gives the same register |
| `Crc32c.Memory` | src/csp_crc32.c:82-90 | equals the bit-at-a-time checksum |
| `Crc32c.BurstDetected` | src/csp_crc32.c:82-90 | messages of equal length that differ only within four adjacent bytes never share a checksum |
| `Crc32c.ChecksumReach` | src/csp_crc32.c:82-90 | after any bytes, four more give any checksum whatever |
| `Kiss.Transmit` | src/interfaces/csp_if_kiss.c:27-70 | the sending loop produces the specified encoding |
| `Kiss.Receiver.constructor` | src/interfaces/csp_if_kiss.c:194-215 | a new interface is idle |
| `Kiss.Receiver.Step` | src/interfaces/csp_if_kiss.c:81-190 | one byte: new state and delivered packet as specified |
| `Kiss.Receiver.Receive` | src/interfaces/csp_if_kiss.c:75-192 | a chunk is its bytes in turn; the buffer is never overrun |
| `Kiss.FeedValid` | src/interfaces/csp_if_kiss.c:85-89 | after any bytes the frame fits the packet buffer |
| `Kiss.FeedChunks` | src/interfaces/csp_if_kiss.c:75-192 | cutting the stream into chunks changes nothing |
| `Kiss.DeliveredExactly` | src/interfaces/csp_if_kiss.c:75-192 | a packet is delivered, once and unchanged, exactly when its id fits and it has at most CSP_BUFFER_SIZE - 5 bytes |
| `Kiss.Resynchronises` | src/interfaces/csp_if_kiss.c:75-192 | from every state one complete frame of any content restores synchronisation |
| `Kiss.SelfSynchronising` | src/interfaces/csp_if_kiss.c:75-192 | after any noise and one sacrificed frame all later packets that fit arrive once, unchanged, in order |
| `Kiss.AcceptSound` | src/interfaces/csp_if_kiss.c:130-165 | whatever frame is accepted ends in a checksum of its data, with or without its header |
| `CanPbuf.PbufList.Lookup` | src/interfaces/csp_if_can_pbuf.c:98-112 | finds the first element of a masked id and refreshes it |
| `CanPbuf.PbufList.CleanUp` | src/interfaces/csp_if_can_pbuf.c:65-96 | what the unlinking walk leaves in the list, and which elements it frees |
| `CanPbuf.PbufList.New` | src/interfaces/csp_if_can_pbuf.c:46-63 | cleans up and inserts in front |
| `CanPbuf.PbufList.Bind` | src/interfaces/csp_if_can.c:62-71 | a frame is bound to its stream's element, to a new one if it begins a packet, or to none |
| `CanPbuf.PbufList.Free` | src/interfaces/csp_if_can_pbuf.c:13-44 | removes exactly that element |
| `CanPbuf.CleanupExactly` | src/interfaces/csp_if_can_pbuf.c:65-96 | exact condition for cleaning up to leave the unexpired elements |
| `CanPbuf.RecentStays` | src/interfaces/csp_if_can_pbuf.c:65-96 | nothing used within the last second is removed |
| `CanPbuf.CleanupMisses` | src/interfaces/csp_if_can_pbuf.c:74-92 | of two expired neighbours the second stays |
| `CanPbuf.FreedListedExactly` | src/interfaces/csp_if_can_pbuf.c:74-92 | a freed element stays in the list exactly when two neighbours have expired |
| `CanPbuf.PutFind` | src/interfaces/csp_if_can_pbuf.c:13-112 | the list acts as a map from masked ids and never holds one twice |
| `CanPbuf.Projection` | src/interfaces/csp_if_can.c:50-167 | reassembly of interleaved streams equals, stream by stream, reassembly of each alone, while other streams expire |
| `Can1.CanIdFields` | src/interfaces/csp_if_can.c:193-197 | the CAN id gives back its type and remain fields and the stream it belongs to |
| `Can1.Transmit` | src/interfaces/csp_if_can.c:169-263 | the sending loop produces the specified fragments, or loops back |
| `Can1.Assemble` | src/interfaces/csp_if_can.c:73-164 | handling of a frame once bound: every check, the stored packet, the delivery |
| `Can1.Rx` | src/interfaces/csp_if_can.c:50-167 | the receive function on the list equals the specified one |
| `Can1.RoundTripExactly` | src/interfaces/csp_if_can.c:193-258 | over any stale partial packet the frames deliver their packet exactly when it has at most 2042 bytes; a longer one gives nothing |
| `Can1.OnlyThatPacket` | src/interfaces/csp_if_can.c:118-156 | frames lost, repeated and reordered in any way give copies of their packet or nothing |
| `Can1.NeverOverrun` | src/interfaces/csp_if_can.c:73-164 | over any frames whatever no partial or delivered packet exceeds the buffer |
| `Can1.LossExactly` | src/interfaces/csp_if_can.c:118-156 | for every subset of frames in order: the packet, once, exactly when every frame is there and it has at most 2042 bytes, else nothing |
| `Can1.InterleavedDelivery` | src/interfaces/csp_if_can.c:50-263 | in any interleaving each complete stream delivers its packets once, in order, same header and data |
| `Can2.CanIdFields` | src/interfaces/csp_if_can.c:384-388 | the CAN id gives back counter, flags, header bytes and stream |
| `Can2.BaseNames` | src/interfaces/csp_if_can.c:384-388 | the id carries the first two header bytes |
| `Can2.ExtensionBytes` | src/interfaces/csp_if_can.c:395-401 | the extension carries the other four |
| `Can2.Transmit` | src/interfaces/csp_if_can.c:369-461 | the sending loop produces the specified fragments, or loops back |
| `Can2.Assemble` | src/interfaces/csp_if_can.c:281-365 | handling of a frame once bound |
| `Can2.Rx` | src/interfaces/csp_if_can.c:265-367 | the receive function on the list equals the specified one |
| `Can2.RoundTrip` | src/interfaces/csp_if_can.c:265-461 | over any stale partial packet the frames of a packet that fits the buffer deliver it |
| `Can2.NeverOverrun` | src/interfaces/csp_if_can.c:281-365 | over any frames whatever no partial or delivered packet exceeds the buffer |
| `Can2.LossExactly` | src/interfaces/csp_if_can.c:318-332 | for every subset of frames: whether a packet is delivered, and with which data |
| `Can2.RunDropped` | src/interfaces/csp_if_can.c:318-332 | losing d frames in a row from the middle is noticed exactly when d is not a multiple of eight |
| `Can2.InterleavedDelivery` | src/interfaces/csp_if_can.c:265-461 | in any interleaving each complete stream delivers its packets once, in order, same header and data |
| `Sfp.Send` | src/csp_sfp.c:55-100 | illegal sizes are refused; otherwise the loop sends the specified pieces, none longer than a packet |
| `Sfp.Receive` | src/csp_sfp.c:102-195 | the loop that fills the buffer equals the specified reader |
| `Sfp.RemovePiece` | src/csp_sfp.c:26-53 | a trailer gives back offset, total and payload |
| `Sfp.SucceedsExactly` | src/csp_sfp.c:102-195 | over any stream of one transfer's pieces, success exactly when all come first and in order, and then the blob itself |
| `Sfp.CompletesExactly` | src/csp_sfp.c:102-195 | over any stream whatever, a blob is returned exactly when some prefix tiles one total without gap or overlap and joins to that blob |
| `Sfp.RoundTrip` | src/csp_sfp.c:55-195 | receiving undoes sending for every blob of at least one byte |
| `Sfp.EmptyTimesOut` | src/csp_sfp.c:60-61 | an empty blob sends nothing and is never received |
| `Sha1.MacroIsLogic` | src/crypto/csp_sha1.c:46-49 | the macros compute the logical functions of section 5 of RFC 3174 |
| `Sha1.OneRound` | src/crypto/csp_sha1.c:51-70 | one macro call is one round with registers renamed instead of moved |
| `Sha1.FiveRounds` | src/crypto/csp_sha1.c:95-101 | five unrolled calls bring the register names round |
| `Sha1.Expand` | src/crypto/csp_sha1.c:76-89 | the array is the message schedule of section 6.1 |
| `Sha1.Compress` | src/crypto/csp_sha1.c:72-136 | the unrolled loops equal the eighty rounds of section 6.1 |
| `Sha1.State.Process` | src/crypto/csp_sha1.c:149-172 | any chunking absorbs the concatenation |
| `Sha1.State.Done` | src/crypto/csp_sha1.c:174-206 | the result is the digest of everything absorbed, with one or two final blocks |
| `Sha1.Memory` | src/crypto/csp_sha1.c:208-214 | equals the padded block fold of sections 4 and 6.1 of RFC 3174 |
| `Sha1Known.KnownAnswer` | src/crypto/csp_sha1.c:138-147 | the digest of "abc" is the one given in section 7.3 of RFC 3174 |
| `Hmac.FullKey` | src/crypto/csp_hmac.c:31-40 | long keys hashed, all keys filled with zeros to a block |
| `Hmac.Hmac.Init` | src/crypto/csp_hmac.c:23-52 | the inner hash has absorbed the key block combined with 0x36 |
| `Hmac.Hmac.Process` | src/crypto/csp_hmac.c:54-64 | data is appended to the text |
| `Hmac.Hmac.Done` | src/crypto/csp_hmac.c:66-91 | the outer hash gives the code of the whole text |
| `Hmac.Memory` | src/crypto/csp_hmac.c:93-113 | equals section 2 of RFC 2104; an empty key is refused |
| `Hmac.VerifyExactly` | src/crypto/csp_hmac.c:127-183 | verify accepts exactly what append produces and gives the data back |
| `Hmac.FourBytes` | src/crypto/csp_hmac.c:127-151 | exactly the first four bytes of the code are appended, and exactly when they fit |
| `Dedup.Ring.IsDuplicate` | src/csp_dedup.c:22-48 | the scan of the ring equals a search of the whole history, and what is accepted is remembered |
| `Dedup.Ring.Scan` | src/csp_dedup.c:29-41 | the backward loop with early exit misses nothing |
| `Dedup.TooOld` | src/csp_dedup.c:31-34 | stopping at the first old entry is safe when time does not run backwards |
| `Dedup.AnswersExactly` | src/csp_dedup.c:18-20 | where the zeroed ring differs from "same checksum among the last 15 accepted within 100 ms" |
| `Dedup.FalseRepeat` | src/csp_dedup.c:18-41 | under every header four data bytes have checksum zero, so the very first packet can be called a repeat |
| `Dedup.RunsAgree` | src/csp_dedup.c:22-48 | on every run outside that case both give the same answers throughout |
| `Routing.Table.FindRoute` | src/csp_rtable_cidr.c:44-74 | the longest covering prefix, the last of equal ones; none exactly when nothing covers; covering means the same block of addresses as numbers |
| `Addresses.AgreeAboveExactly` | src/csp_rtable_cidr.c:53-61 | the shifted comparison of two addresses means the same quotient by a power of two |
| `Routing.CoversExactly` | src/csp_rtable_cidr.c:53-61 | a route covers one block of consecutive addresses; mask 0 all of them, a full mask only its own |
| `Routing.HostRoute` | src/csp_rtable_cidr.c:107-111 | a mask out of range makes a route to that address alone |
| `Routing.Table.SearchBackward` | src/csp_rtable_cidr.c:27-42 | the nearest earlier entry of the same network |
| `Routing.Table.Set` | src/csp_rtable_cidr.c:76-120 | replaces the entry of that network and interface or appends; full and invalid cases change nothing; entries stay unique |
| `Routing.SetMeans` | src/csp_rtable_cidr.c:76-96 | as a map, exactly one next hop changes |
| `Routing.UpdatedKeeps` | src/csp_rtable_cidr.c:76-96 | address, mask and interface stay unique |
| `Forwarding.NextIface` | src/csp_iflist.c:33-87 | the next matching interface of the list |
| `Addresses.AgreeUnderExactly` | src/csp_iflist.c:15-31 | the masked comparison of two addresses means the same block within the node range |
| `Forwarding.WithinExactly` | src/csp_iflist.c:15-31 | an address is within a subnet exactly when it lies in its block of consecutive addresses |
| `Forwarding.BroadcastExactly` | src/csp_id.c:264-275 | a broadcast is the last address of the block or the last of all |
| `Forwarding.LocalExactly` | src/csp_iflist.c:33-60 | the local interfaces of a destination are those with a mask whose block holds it |
| `Forwarding.SplitHorizonExactly` | src/csp_io.c:111-123 | split horizon bars exactly the interfaces whose address lies in the incoming subnet |
| `Forwarding.SendListed` | src/csp_io.c:107-143 | the loops over local and default interfaces make the specified copies |
| `Forwarding.SendRouted` | src/csp_io.c:152-181 | the loop over routes visits all entries of the best network, backwards |
| `Forwarding.SendDirect` | src/csp_io.c:91-221 | exactly the permitted interfaces of the first non-empty class, in order, and the id of every copy |
| `Forwarding.OnceEach` | src/csp_io.c:91-221 | no interface twice, and every one of the class outside split horizon |
| `Forwarding.LocalCopies` | src/csp_io.c:125-133 | source and destination of every local copy |
| `Forwarding.RewrittenExactly` | src/csp_io.c:130-133 | each copy's destination depends on its own interface only, exactly when among the permitted interfaces none with an ordinary destination follows a broadcast one |
| `Forwarding.RewriteSpills` | src/csp_io.c:130-133 | an example where it does not |
| `Forwarding.RoutedCopies` | src/csp_io.c:170-178 | routed copies keep the first interface's address as source |
| `ConnTable.Tables.constructor` | src/csp_conn.c:51-65 | all slots and ports closed |
| `ConnTable.Tables.FindExisting` | src/csp_conn.c:91-145 | the first open slot that matches |
| `ConnTable.Tables.Allocate` | src/csp_conn.c:161-189 | the first free slot after the cursor, going round once |
| `ConnTable.FreeExactly` | src/csp_conn.c:161-189 | allocation fails only when every slot is taken |
| `ConnTable.Tables.Connect` | src/csp_conn.c:307-315 | a client slot listens on its own port |
| `ConnTable.Tables.Incoming` | src/csp_route.c:171-254 | the new tables and the slot are the specified answer: the connection found, or one opened exactly when a socket waits |
| `ConnTable.Tables.Close` | src/csp_conn.c:245-246 | frees the slot |
| `ConnTable.Tables.Bind` | src/csp_port.c:82-131 | binds a closed port in range, else changes nothing |
| `ConnTable.RunKeeps` | src/csp_conn.c:51-145 | every run keeps client and server ports apart and server ids distinct |
| `ConnTable.OneConnection` | src/csp_conn.c:91-145 | in every reachable state at most one open connection matches an id, and it is the one found |
| `ConnTable.RightPeer` | src/csp_conn.c:91-145 | in every run, with the id that opened each slot on record, a packet goes to a connection opened by its own source, source port and destination port, or to the client that owns its port; a new slot is used only when there is none |
| `ConnTable.SecondPeer` | src/csp_route.c:171-254 | a second peer with the same ports gets a slot of its own while one is free |
| `ConnTable.BindLasts` | src/csp_port.c:32-131 | a bound port answers with its socket or callback until it is closed |
| `ConnTable.AnyLasts` | src/csp_port.c:32-131 | and so does the binding to any port, for every port not bound itself |
| `ConnTable.WrappedPortsClash` | src/csp_conn.c:56-56 | in every pool of two or more slots whose ports wrap, a run that makes a client and a server clash |
| `ConnTable.AmbiguousExactly` | src/csp_conn.c:51-145 | an id can come to belong to two connections exactly when there are two slots and the ports wrap |
| `Ownership.Node.constructor` | src/csp_buffer.c:21-38 | all buffers start free |
| `Ownership.Node.Get` | src/csp_buffer.c:55-92 | hands out the first free buffer, held by nobody, and fails exactly when fewer than the reserve or none are left |
| `Ownership.Node.Release` | src/csp_buffer.c:122-147 | a held buffer returns to the free list once |
| `Ownership.Node.SendDirect` | src/csp_io.c:91-221 | exactly as many copies leave as interfaces accept and buffers allow; the packet itself is freed, or taken by loopback |
| `Ownership.Node.SendControl` | src/csp_rdp.c:119-174 | exact copies sent and clone kept; no buffer lost, except the SYN itself when exactly two are left |
| `Ownership.Node.Send` | src/csp_io.c:289-311 | when the packet is sent and when freed, how many copies leave, and when the clone for retransmission is kept |
| `Ownership.Node.Revisit` | src/csp_rdp.c:373-417 | an acknowledged segment is freed; any other goes to the back, with a copy sent if expired and two buffers are free |
| `Ownership.Node.CheckConnection` | src/csp_rdp.c:341-435 | no buffer lost; exactly the unacknowledged segments stay queued, in order; a receive queue with room keeps room, and a full one changes only by closing |
| `Ownership.Node.CheckTimeouts` | src/csp_conn.c:26-36 | the same over all connections; checks that send nothing take no buffer |
| `Ownership.Node.Close` | src/csp_conn.c:215-249 | queued packets are freed, nothing is lost |
| `Ownership.Node.RdpReceive` | src/csp_rdp.c:437-751 | a payload in sequence ends on the connection exactly with room, one ahead in the reorder queue exactly if new and with room, anything else is freed |
| `Ownership.Node.RouteWork` | src/csp_route.c:113-297 | after the timeouts, which never take room from a queue, the routed packet ends exactly where its decisions and the room left say; a forwarded one leaves exactly as many copies as interfaces accept and buffers allow; at most one buffer is lost, over RDP only |
| `Ownership.FreedExactly` | src/csp_route.c:160-297 | the complete list of reasons for freeing a packet that passes its checks |
| `Ownership.Node.OnePlace` | src/csp_buffer.c:55-147 | between calls every buffer is in exactly one place |
| `Ownership.Node.FreeListDistinct` | src/csp_buffer.c:55-147 | the free list never holds a buffer twice |
| `RoutingText.ScanPrint` | src/csp_rtable_stdio.c:36-62 | a printed entry is scanned back, in all four formats |
| `RoutingText.TokensJoin` | src/csp_rtable_stdio.c:32-34 | splitting at commas undoes joining |
| `RoutingText.TokensExactly` | src/csp_rtable_stdio.c:32-34 | tokens hold no comma and together all other characters in order |
| `RoutingText.LookupExactly` | src/csp_iflist.c:136-145 | an interface is found by name, and missed only when there is none |
| `RoutingText.LoadsOnlyInRange` | src/csp_rtable_stdio.c:36-94 | every route a text installs names a listed interface and has address, mask and next hop in range |
| `RoutingText.MalformedInstallsNothing` | src/csp_rtable_stdio.c:96-103 | a text that fails the check leaves the table alone; any other can fail only for lack of room |
| `RoutingText.RoundTrip` | src/csp_rtable_stdio.c:24-159 | for every limit on routing strings: loading what was saved into an empty table rebuilds the routes without loopback, in order, exactly when the text is within the limit, and else installs nothing |
| `RoutingText.Save` | src/csp_rtable_stdio.c:121-159 | the whole text exactly when it fits the buffer, else an error |
| `RoutingText.CheckText` | src/csp_rtable_stdio.c:101-103 | the dry run: same verdicts, no table |
| `RoutingText.LoadText` | src/csp_rtable_stdio.c:96-99 | the loop sets the scanned routes in order, after a successful check |
| `WireExamples.HeaderOne` | src/csp_id.c:44-65 | the four bytes of a version 1 header |
| `WireExamples.HeaderTwo` | src/csp_id.c:131-149 | the six bytes of a version 2 header |
| `WireExamples.KissBytes` | src/interfaces/csp_if_kiss.c:27-70 | the escape sequences and the bytes around every frame |
| `WireExamples.CanOne` | src/interfaces/csp_if_can.c:169-263 | two CAN 1 frames with their ids |
| `WireExamples.CanTwo` | src/interfaces/csp_if_can.c:369-461 | two CAN 2 frames with their ids |
| `WireExamples.SfpPieces` | src/csp_sfp.c:55-100 | two SFP pieces with their trailers |
| `WireExamples.SynOptions` | src/csp_rdp.c:182-198 | the order of the options in a SYN |
| `WireExamples.RouteText` | src/csp_rtable_stdio.c:121-152 | two printed routes |
| `WireExamples.CrcCheck` | src/csp_crc32.c:82-90 | the published check value 0xE3069283 of CRC-32C |
| `WireExamples.CrcTrailer` | src/csp_crc32.c:92-116 | the same as a big-endian trailer |

## Left out

- RdpWindow.EndToEndUnbounded: assumes that no segment, queued packet or acknowledgement stays around for more than 65534 newer payloads; `RdpWrapAround.OneTooMany` shows that some such limit is needed.
- RdpWindow.NeverBeyondWindow: makes the same assumption; the part about the receive-window test is for windows up to 32768.
- RdpRetention.Retention: makes the same assumption, and that both windows are within CSP_RDP_MAX_WINDOW; for runs of up to 32767 payloads per side `RdpShortRuns.ShortRunsKeepWindow` needs neither.
- RdpLiveness.ProgressExactly: is for windows below 16384, where the range of plausible acknowledgements cannot wrap, and for states reached while nothing outlived its number; it says that some continuation delivers, not that every one does.
- RdpLiveness.DrainsExactly: the same.
- RdpWedge.FirstPayload: both nodes are built with the same CSP_BUFFER_SIZE; a receiving interface with smaller packets drops more.
- RdpConnection.Connection.Receive: a packet shorter than the five bytes of an RDP header is not part of the model.
- RdpConnection.Connection.Transmit: a call that would wait for the window changes nothing; waiting and waking are separate events of a run.
- RdpConnection.Connection.OnClosed: a SYN too short for its options reads zeros past its end.
- CanPbuf.Projection: other streams may expire, but when a packet is allocated the stream itself must not have, nor two neighbours of the list, since then freed elements stay listed (`CanPbuf.FreedListedExactly`).
- Can1.InterleavedDelivery: the same.
- Can2.InterleavedDelivery: the same.
- CanPbuf.PbufList.Free: the linked list is a sequence and a pointer is a position in it, so link fields are not modelled.
- Can1.Transmit: a driver that refuses a frame part way is not modelled; the loss theorems cover what arrives then.
- Can2.Transmit: the same.
- Sfp.Receive: adds offset and length without 32-bit wrap-around, which differs only for totals within 64 KiB of 4 GiB; a failing malloc is not modelled.
- Sfp.Send: assumes an active connection and a buffer for every packet, and a size_t of more than 32 bits; with 32 bits the sum of mtu and header size wraps, so an mtu within eight of 4 GiB is accepted.
- Dedup.Ring.IsDuplicate: the 32-bit millisecond clock does not pass its wrap-around after 49 days.
- Forwarding.SendDirect: assumes that every clone succeeds; `Ownership.Node.SendDirect` covers the failures.
- ConnTable.OneConnection: takes csp_connect as atomic, so no packet is routed before the client port is in place.
- ConnTable.Tables.Close: closing is one step; when RDP allows it is the subject of `RdpEndToEnd.CloseIsAgreed`.
- Ownership.Node.RdpReceive: whether a segment is the next payload, a later one or neither is a parameter; `RdpConnection.Connection.Receive` and `RdpSegments` say which.
- Ownership.Node.CheckConnection: which reordered packets a check delivers is left open; `RdpFrames.FlushMaximal` says which.
- RdpSegments.OpenExactly: is for windows below 16384 and numbers close enough to be told apart in 16 bits.
- RdpSegments.SendExactly: the same.
- RdpSegments.OnlyResetsClose: assumes that nothing outlives its number, as `RdpWindow.EndToEndUnbounded` does.
- RdpClosing.EndIsHeard: a reset sent while payloads are still under way carries a number the other side does not expect, so that side closes by its own user or timeout.
- RoutingText.ScanPrint: numbers are digits without a sign and do not wrap at 32 bits.
- RDP runs are about one incarnation of one connection: retrying after a half-open reply, several RDP connections in the shared queues and the four counter bits in the flag byte are not part of the runs.
- API calls are atomic steps; interleavings inside a call, mutexes and semaphores are not modelled.
- The header variant with little-endian version 1 ids, csp_hmac with the header included, csp_hmac_set_key and csp_rtable_check_config add only easy members.
- csp_iflist_add, remove and check_dfl: the interface list is given, with distinct names.
- Ethernet segmentation has the shape of CAN with a weaker check.
- Drivers, operating system layers, printing, statistics, promiscuous mode, tunnels and services have no hard property.
