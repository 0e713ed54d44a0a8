# Verified models of the X-Wrt packages

A Dafny project that models the stateful cores of several X-Wrt packages and proves what they promise.
Each module follows one source file, in its own form: what the C code updates in place is a class, an
array or a field here, and its loops are loops. Every such method is tied to a specification on values,
and the theorems about all inputs, all runs or all interleavings are proved about that specification.

| file | models |
|---|---|
| Sha1Spec, Sha1, Sha1Context | SHA-1: FIPS 180-4 as the reference, the unrolled in-place transform, the streaming context |
| Hmac | HMAC-SHA1 with a key that is hashed once it passes 64 bytes, and the command-line tool |
| Qmap | framing and parsing of QMAP packets in the modem driver |
| Aggregator, AggregatorThreads | uplink aggregation: serialised calls, and every interleaving of calls, timer and flush work |
| P910 | the circular buffer of the printer server and both copy loops |
| QList, QmiProxy, QmiService, QmiSafety | the intrusive list, the proxy that pairs control requests with answers on it, its service traffic, and which events put its clients at risk |
| QrtrIds | client and port numbers of the QRTR proxy, and data routing by port |
| MbimProxy | transaction ids tagged with a slot number, and routing by tag |
| AtLines, AtReadline, AtCuts, AtReader | lines out of a byte stream: the lines, one call and whole runs, all cuts, and the program |
| AtTexts, AtResponse | what lines say, in bytes, and replies to AT commands out of lines |
| Tlv | QMI requests written field by field, and looked up again |
| UrlLogger | binary records out of a byte stream, printed as CSV |
| Arith, Bytes | shared helpers |

`dafny verify dfyconfig.toml` checks the project.

Some properties turned out to hold only under a condition. Each of these is stated as an if-and-only-if, with
an input or a run that shows the failure:

- framing and parsing: `Qmap.RoundTripIff`, with `PaddingOrLengthLoses`;
- the order of transmission: `AggregatorThreads.OrderOfRuns`, with `OrderCanBreak`;
- the lengths of SHA-1 calls: `Sha1Context.BlockTestIff`, with `SomeCallWraps`;
- requests and answers: `QmiSafety.StepSafe` and `RunSafe`, with `QmiProxy.DisconnectMisroutes` and `SecondRequestStalls`;
- numbers of clients: `QrtrIds.StepConsistent`, with `TooManyClients`;
- tagged ids: `MbimProxy.TagRoundTrip`, with `LargeIdIsMisrouted`;
- prompts: `AtReadline.RunRight`, `AtCuts.EveryCallSafeIff` and `SafeRunIff`, with `TwoCuts` and `StaleComesBack`;
- reads that fill the AT buffer: `AtCuts.NulInside` and `RunGuard`, with `ShortLinesFill`;
- lookups in malformed messages: `Tlv.UnderflowsIff` and `StraysIff`, with `OneByteMissing`.

Where comment and code disagree, the code is followed: `HMAC_SHA1_Done` (hmac-sha1-util/src/hmac_sha1.c:181-188)
says that it wipes all context data, but wipes the inner pad twice and the outer pad never.

The environment is arbitrary: how much read() and write() move and how they fail, what select() reports,
the clock, the allocator, the order of threads. A loop whose end depends on the environment alone is
observed for a bounded number of rounds, for every bound; its promises hold at every test of the loop.

A read that fills the AT buffer makes `readline` store its NUL one byte behind the buffer
(quectel-qconnect-manager/src/atchannel.c:393-401), which C leaves undefined. The model gives the memory that
one byte more, lets reads be as long as the code asks for, and says exactly when that byte is written.

## Model

| member | source | states |
|---|---|---|
| Sha1Transform.InPlaceSchedule | hmac-sha1-util/src/sha1.c:41-42 | the sixteen words that `blk` overwrites in place hold, at every round, the last sixteen entries of the 80-word schedule of FIPS 180-4 section 6.1.2 |
| Sha1Transform.SwapGivesBigEndian | hmac-sha1-util/src/sha1.c:34-36 | the two rotations and masks of `blk0` turn the word a little-endian machine sees into the big-endian word of the same four bytes |
| Sha1Transform.ChRewritten | hmac-sha1-util/src/sha1.c:45-46 | the rewritten choose function equals Ch of section 4.1.1 |
| Sha1Transform.MajRewritten | hmac-sha1-util/src/sha1.c:48 | the rewritten majority function equals Maj of section 4.1.1 |
| Sha1Transform.RoundInPlace | hmac-sha1-util/src/sha1.c:45-49 | a macro that adds into z and rotates w, with the names moved round by one, is one round of section 6.1.2 |
| Sha1Transform.Blk0 | hmac-sha1-util/src/sha1.c:34-39 | one schedule word of the first sixteen: its value, and what it leaves in the block |
| Sha1Transform.Blk | hmac-sha1-util/src/sha1.c:41-42 | one later schedule word: its value, and what it leaves in the block |
| Sha1Transform.R0 | hmac-sha1-util/src/sha1.c:45 | keeps "registers are the reference after i rounds, words are the schedule window" from i to i + 1 |
| Sha1Transform.R3 | hmac-sha1-util/src/sha1.c:48 | the same for rounds 40 to 59 |
| Sha1Transform.Transform | hmac-sha1-util/src/sha1.c:57-97 | the 80 unrolled rounds compress the original 64 bytes exactly as section 6.1.2 does; the block, whoever owns it, is left holding schedule entries 64 to 79, and no other byte changes |
| Sha1Spec.ZeroCountIsLeast | hmac-sha1-util/src/sha1.c:141-143 | the number of zero bytes is the least that leaves 56 bytes modulo 64, which is section 5.1.1 in bytes |
| Sha1Spec.PadByBytes | hmac-sha1-util/src/sha1.c:140-144 | the padding by its bytes: 128, zeros, eight bytes of length, and no block more than that takes |
| Sha1Spec.RoundConstants | hmac-sha1-util/src/sha1.c:45-49 | the four round constants are the square roots of 2, 3, 5 and 10, times 2^30 and rounded down |
| Sha1Spec.InitialValue | hmac-sha1-util/src/sha1.c:103-107 | the initial hash value, half-byte by half-byte |
| Sha1Spec.Rotations | hmac-sha1-util/src/sha1.c:29-29 | the shifts are rotations to the left by 1, 5 and 30 bits |
| Sha1Context.FoldOfPrefix | hmac-sha1-util/src/sha1.c:112-128 | the hash after n whole blocks does not depend on what follows them |
| Sha1Context.CountAdds | hmac-sha1-util/src/sha1.c:116-117 | the two 32-bit counter words with their carry add 8 * len modulo 2^64, for every len below 2^32 |
| Sha1Context.BlockTestIff | hmac-sha1-util/src/sha1.c:118-127 | for every pending count and every 32-bit len, the test for a whole block comes out as meant if and only if its unsigned sum does not wrap |
| Sha1Context.SomeCallWraps | hmac-sha1-util/src/sha1.c:115-118 | after n bytes some call finds that test wrong, the longest for one, if and only if bytes are pending |
| Sha1Context.PendingFromCount | hmac-sha1-util/src/sha1.c:115 | bits 3 to 8 of the low counter word are the number of pending bytes |
| Sha1Context.CountByteIs | hmac-sha1-util/src/sha1.c:136-139 | the shifts of `SHA1_Final` write the counter as the 64-bit big-endian length |
| Sha1Context.ShaCtx.Init | hmac-sha1-util/src/sha1.c:101-109 | the context holds the empty message |
| Sha1Context.ShaCtx.TransformWhole | hmac-sha1-util/src/sha1.c:118-124 | all whole blocks are compressed, the first through the buffer; of the caller's bytes only the later whole blocks are overwritten |
| Sha1Context.ShaCtx.Update | hmac-sha1-util/src/sha1.c:112-128 | a context that holds m holds m followed by the original bytes afterwards, so the cutting of a message does not matter; caller bytes change at most in the whole blocks after the first |
| Sha1Context.ShaCtx.PadZeros | hmac-sha1-util/src/sha1.c:141-143 | the padding loop ends, and has added exactly the zero bytes of section 5.1.1 |
| Sha1Context.ShaCtx.Final | hmac-sha1-util/src/sha1.c:132-156 | the digest is the SHA-1 of everything the context held, and the context is wiped |
| Hmac.HmacCtx.Init | hmac-sha1-util/src/hmac_sha1.c:71-77 | the key is open and empty, and both pads hold their fillers |
| Hmac.HmacCtx.UpdateKey | hmac-sha1-util/src/hmac_sha1.c:79-131 | key bytes append, on both sides of the moment the key passes 64 bytes and is hashed from then on |
| Hmac.HmacCtx.EndKey | hmac-sha1-util/src/hmac_sha1.c:133-159 | both pads hold the key block of RFC 2104 section 2 XORed with their filler |
| Hmac.HmacCtx.StartMessage | hmac-sha1-util/src/hmac_sha1.c:161-164 | hashing the inner pad as one block leaves the pad itself intact, so the context stays keyed |
| Hmac.HmacCtx.UpdateMessage | hmac-sha1-util/src/hmac_sha1.c:166-168 | message bytes append |
| Hmac.HmacCtx.EndMessage | hmac-sha1-util/src/hmac_sha1.c:170-179 | the output is the HMAC of RFC 2104 section 2 of key and message, and the context is keyed for another message |
| Hmac.HmacByNumbers | hmac-sha1-util/src/hmac_sha1.c:71-179 | the same HMAC with the key padded to 64 bytes and the fillers 0x5c and 0x36 written out |
| Hmac.HmacCtx.Done | hmac-sha1-util/src/hmac_sha1.c:181-188 | wipes the inner pad and the key; the outer pad keeps its contents, although the comment says all data |
| Hmac.Tool | hmac-sha1-util/src/hmac_sha1_main.c:23-37 | the program writes the HMAC of its standard input, however `fread` cuts it |
| Qmap.PaddedToFour | qmi-wwan-q/src/qmi_wwan_q.c:647-656 | with three bytes of tail room the padded length is a multiple of four |
| Qmap.AddQhdr | qmi-wwan-q/src/qmi_wwan_q.c:643-664 | the buffer becomes exactly the frame of its contents: header fields, payload, padding |
| Qmap.AddQhdrV5 | qmi-wwan-q/src/qmi_wwan_q.c:666-702 | the same with the checksum header between |
| Qmap.Pass | qmi-wwan-q/src/qmi_wwan_q.c:1564-1696 | one round of the parser: packets delivered plus packets still to come are unchanged, and the buffer shrinks unless the loop ends |
| Qmap.PacketDecode | qmi-wwan-q/src/qmi_wwan_q.c:1550-1700 | the loop ends and delivers what the decoding function says |
| Qmap.HeadOfFrame | qmi-wwan-q/src/qmi_wwan_q.c:1569-1642 | what the parser makes of one frame of the printers, for every length and every minimum padding: dropped, or delivered less that padding |
| Qmap.RoundTrip | qmi-wwan-q/src/qmi_wwan_q.c:1550-1700 | frames of either printer in front of any bytes come out again, in order, with padding stripped |
| Qmap.FrameBytes | qmi-wwan-q/src/qmi_wwan_q.c:658-694 | the header bytes of both printers, by number |
| Qmap.MixedStream | qmi-wwan-q/src/qmi_wwan_q.c:1592-1636 | commands and packets to devices not registered deliver nothing and take nothing away: of any mixture with packets to registered devices, exactly these come out, in order |
| Qmap.CommandSkipped | qmi-wwan-q/src/qmi_wwan_q.c:1592-1595 | one command packet, by its bytes, in front of any bytes |
| Qmap.UnregisteredSkipped | qmi-wwan-q/src/qmi_wwan_q.c:1631-1636 | one packet to a device not registered, in front of any bytes |
| Qmap.UnknownStops | qmi-wwan-q/src/qmi_wwan_q.c:1625-1629 | a packet to a number that no device can have ends the buffer: what stands behind it is lost |
| Qmap.RoundTripIff | qmi-wwan-q/src/qmi_wwan_q.c:1580-1585 | exactly when framing and parsing give the packets back: no frames at all, or minimum padding 0 and no packet above 1500 bytes |
| Qmap.PaddingOrLengthLoses | qmi-wwan-q/src/qmi_wwan_q.c:1580-1585 | a receiver with one byte of minimum padding delivers a packet cut short; a packet of 1501 bytes is not delivered at all |
| Qmap.DecodeIsSound | qmi-wwan-q/src/qmi_wwan_q.c:1580-1642 | on arbitrary bytes, every packet handed up fits, is IPv4 or IPv6 and goes to a registered device, and the packets together are no longer than the buffer |
| Aggregator.LockedConserves | qmi-wwan-q/src/qmi_wwan_q.c:949-1025 | the locked section loses, repeats and reorders no frame, on every path |
| Aggregator.LockedBounds | qmi-wwan-q/src/qmi_wwan_q.c:949-1025 | it keeps the pending buffer and what it sends within both limits; after a frame that does not fit, nothing is pending |
| Aggregator.NextConserves | qmi-wwan-q/src/qmi_wwan_q.c:873-1048 | one call, flush or settings change conserves the frames in order |
| Aggregator.RunConserves | qmi-wwan-q/src/qmi_wwan_q.c:873-1048 | over every serialised run, what was handed to `dev_queue_xmit` followed by what is pending is what was accepted, in order |
| Aggregator.RunBounds | qmi-wwan-q/src/qmi_wwan_q.c:938-1048 | over every serialised run, the pending buffer has fewer frames than the datagram limit and no more bytes than the size limit, and everything transmitted since aggregation was switched on, single frames included, is within both limits |
| Aggregator.RunDeliversBytes | qmi-wwan-q/src/qmi_wwan_q.c:958-959 | the same in bytes on the wire |
| Aggregator.BurstIsHeld | qmi-wwan-q/src/qmi_wwan_q.c:946-1032 | a burst of calls that finds nothing pending is held back entirely if and only if each of its calls joins, by the 10 ms, the 1 ms, both limits and urgency; otherwise something is transmitted |
| Aggregator.BurstIsOneAggregate | qmi-wwan-q/src/qmi_wwan_q.c:873-1048 | prompt frames below both limits, none urgent, leave with the flush as one aggregate |
| Aggregator.Priv.LockedSection | qmi-wwan-q/src/qmi_wwan_q.c:949-1025 | field by field: a frame that finds nothing pending is held if and only if the last transmission is at most 10 ms old, the frame is not the urgent last of its burst, and memory is found; one that fits joins if and only if that age is at most 1 ms, the count stays below the limit, and it is not the urgent last of its burst; otherwise `agg_skb` is handed over |
| Aggregator.Priv.Tx | qmi-wwan-q/src/qmi_wwan_q.c:916-1048 | the same for a whole call of at most two passes, in the fields and in what is handed to `dev_queue_xmit`; the timer is queued if anything is pending, and otherwise as before |
| Aggregator.Priv.TimerExpires | qmi-wwan-q/src/qmi_wwan_q.c:899-906 | the callback schedules the flush work and touches nothing else |
| Aggregator.Priv.Work | qmi-wwan-q/src/qmi_wwan_q.c:873-897 | the flush work hands over everything pending, once |
| Aggregator.Priv.StoreSettings | qmi-wwan-q/src/qmi_wwan_q.c:1335-1343 | settings change only from one datagram to more |
| AggregatorThreads.ApplyKeepsWatched | qmi-wwan-q/src/qmi_wwan_q.c:873-1048 | every single step of a call, the timer or the work keeps pending frames watched over |
| AggregatorThreads.NeverStranded | qmi-wwan-q/src/qmi_wwan_q.c:873-1048 | in every interleaving, if something is pending then the timer is queued, flush work is on its way, or a call has yet to make its last check |
| AggregatorThreads.PendingIsFlushed | qmi-wwan-q/src/qmi_wwan_q.c:873-906 | once no call is active, at most five steps of timer and work empty the buffer |
| AggregatorThreads.ApplyConserves | qmi-wwan-q/src/qmi_wwan_q.c:873-1048 | every step conserves how often each frame exists |
| AggregatorThreads.ConservedAndBounded | qmi-wwan-q/src/qmi_wwan_q.c:890-892 | in every interleaving, accepted frames are handed over, pending or in flight, each as often as it was accepted, and both limits hold |
| AggregatorThreads.EveryInterleaving | qmi-wwan-q/src/qmi_wwan_q.c:873-1048 | in every interleaving of any number of calls with the timer and the work, from the start: nothing is stranded, lost, doubled, or beyond the limits |
| AggregatorThreads.StepInOrder | qmi-wwan-q/src/qmi_wwan_q.c:1025-1032 | one step keeps "handed over, then on the way, then pending" in the order of the locks if whoever hands over has held its frames longest; otherwise a frame overtakes an earlier one |
| AggregatorThreads.RunInOrder | qmi-wwan-q/src/qmi_wwan_q.c:880-892 | over a whole run, for distinct frames: that order survives if and only if every hand-over was in turn; an overtaking is never mended |
| AggregatorThreads.RunFollowsCalls | qmi-wwan-q/src/qmi_wwan_q.c:949-950 | over a whole run: frames are placed in the order of the calls if and only if each lock places the oldest frame not placed yet |
| AggregatorThreads.OrderOfRuns | qmi-wwan-q/src/qmi_wwan_q.c:873-1048 | from the start, for distinct frames: both equivalences, and together they make the frames handed over a prefix of the frames accepted |
| AggregatorThreads.OrderCanBreak | qmi-wwan-q/src/qmi_wwan_q.c:1025-1032 | a run out of turn: two frames are transmitted in the order opposite to their locks |
| AggregatorThreads.InitialIsGood | qmi-wwan-q/src/qmi_wwan_q.c:873-1048 | all three invariants hold before the first step, with any number of callers |
| AggregatorThreads.SerialCall | qmi-wwan-q/src/qmi_wwan_q.c:916-1048 | a call that nobody interferes with ends, and has done what the serialised call does |
| AggregatorThreads.SerialFlush | qmi-wwan-q/src/qmi_wwan_q.c:873-897 | the same for the flush work |
| P910.RingAppend | p910nd-xwrt/src/p910nd.c:309-339 | writing behind a wrapped region appends to what it holds |
| P910.RingDrop | p910nd-xwrt/src/p910nd.c:386-393 | moving the start index drops a prefix |
| P910.WrappedIsMod | p910nd-xwrt/src/p910nd.c:336-339 | resetting an index at the end of the buffer is arithmetic modulo 8192 |
| P910.Buffer.Append | p910nd-xwrt/src/p910nd.c:330-341 | exactly the bytes read are appended, and all indices and counters agree |
| P910.Buffer.Read | p910nd-xwrt/src/p910nd.c:309-356 | a full account of `readBuffer` for every answer of read(): bytes appended, result, error and end-of-file flags |
| P910.Buffer.Remove | p910nd-xwrt/src/p910nd.c:384-392 | exactly the prefix leaves |
| P910.Buffer.Write | p910nd-xwrt/src/p910nd.c:359-403 | a full account of `writeBuffer` for every answer of write(), with or without an output file |
| P910.Serve | p910nd-xwrt/src/p910nd.c:451-504 | one round of the bidirectional loop, for all answers: the printer gets what it takes of the oldest bytes, what the printer has sent goes back, or nowhere after a failed write, and the idle exit is taken if and only if nothing is buffered, the network has not ended, and nothing has moved for 30 seconds |
| P910.CopyUnidirectional | p910nd-xwrt/src/p910nd.c:511-524 | a result of 0 means that the printer got exactly what the network sent, all of it; and with a willing network and printer that is so after at most 2 * length + 2 rounds |
| P910.CopyBidirectional | p910nd-xwrt/src/p910nd.c:413-524 | a result of 0 means that the printer got everything read, and on end of file everything sent; the network gets a prefix of what the printer sends, and failing writes to it never end the loop; if all is ready and willing, everything has been printed after at most 2 * length + 2 rounds |
| P910.ServeTurn | p910nd-xwrt/src/p910nd.c:427-505 | a round in which all is ready brings the end nearer, wherever the job stands |
| QList.AddTail | quectel-qconnect-manager/src/qlist.h:25-31 | on a ring of distinct nodes, adding at the tail gives the ring with the node at its end |
| QList.Remove | quectel-qconnect-manager/src/qlist.h:33-37 | unlinking gives the ring without the node |
| QList.List.Append | quectel-qconnect-manager/src/qlist.h:25-31 | the list refines a sequence: append |
| QList.List.DropFirst | quectel-qconnect-manager/src/qlist.h:33-37 | the list refines a sequence: the first item leaves |
| QList.List.RemoveWhere | quectel-qconnect-manager/src/quectel-qmi-proxy.c:220-228 | walking the list and unlinking the first match refines removing it from the sequence |
| QList.DropWhereAt | quectel-qconnect-manager/src/quectel-qmi-proxy.c:220-228 | removing the first match leaves everything before and behind it |
| QmiProxy.StepPaired | quectel-qconnect-manager/src/quectel-qmi-proxy.c:319-408 | one event keeps the whole history of requests and answers paired if and only if it is orderly: no control frame but a response while requests wait, no sender of a waiting request leaves, descriptors are distinct |
| QmiProxy.RunPaired | quectel-qconnect-manager/src/quectel-qmi-proxy.c:319-408 | over every run: the pairing holds throughout if and only if every event was orderly |
| QmiProxy.StepRouted | quectel-qconnect-manager/src/quectel-qmi-proxy.c:204-408 | one event keeps the history "the n-th response taken went to the sender of the n-th request that reached the device, whose queue head is outstanding and whose waiting senders are connected" if and only if it is harmless: a client may leave unless its request is the outstanding one or it has a second one waiting |
| QmiProxy.RunRouted | quectel-qconnect-manager/src/quectel-qmi-proxy.c:204-408 | over every run: that history holds throughout if and only if every event was harmless |
| QmiSafety.StepSafe | quectel-qconnect-manager/src/quectel-qmi-proxy.c:204-408 | an event is harmless if and only if nothing can go wrong after it: no orderly events that follow, with no answer but to a request the device holds, ever send an answer to a client that it is not owed to, or leave a client waiting for a device that owes nothing |
| QmiSafety.RunSafe | quectel-qconnect-manager/src/quectel-qmi-proxy.c:204-408 | over every run: at every point nothing can go wrong in that sense, whatever follows, if and only if every event was harmless |
| QmiSafety.ReadyStep | quectel-qconnect-manager/src/quectel-qmi-proxy.c:204-408 | a harmless event keeps "every waiting sender is connected, and the device owes just the answer to the head of the queue, to its sender" |
| QmiSafety.ReadyAnswer | quectel-qconnect-manager/src/quectel-qmi-proxy.c:326-351 | an answer reaches exactly the client that it is owed to, once, even when other clients have left before |
| QmiSafety.OwedToNobody | quectel-qconnect-manager/src/quectel-qmi-proxy.c:220-228 | once the client has left whose answer is due, the answer can reach another: the next in the queue, or a new client, or one that has got its descriptor |
| QmiSafety.Unattended | quectel-qconnect-manager/src/quectel-qmi-proxy.c:354-363 | a request further down whose descriptor has no connection, or two, ends in a stalled queue or a wrong delivery when its turn comes |
| QmiSafety.OneTooMany | quectel-qconnect-manager/src/quectel-qmi-proxy.c:319-365 | a head that was sent twice ends in a wrong delivery |
| QmiProxy.SecondRequestStalls | quectel-qconnect-manager/src/quectel-qmi-proxy.c:220-228 | why not a second one: cleanup removes one only, and a head whose sender is gone is never sent, nor anything behind it |
| QmiProxy.OneOutstanding | quectel-qconnect-manager/src/quectel-qmi-proxy.c:354-363 | over every run of harmless events at most one control request is outstanding, and it is the head of the queue |
| QmiProxy.AnswerPairs | quectel-qconnect-manager/src/quectel-qmi-proxy.c:326-351 | the n-th response goes, once, to the sender of the n-th request |
| QmiProxy.DisconnectMisroutes | quectel-qconnect-manager/src/quectel-qmi-proxy.c:220-228 | for any two requests: when the first client leaves, its answer goes to the second, whose request is never sent |
| QmiService.RunRequests | quectel-qconnect-manager/src/quectel-qmi-proxy.c:382-408 | over every run: the modem has been sent exactly the service requests of the clients, in order, and all control requests but synchronisation have been accepted |
| QmiService.ServiceFrameReaches | quectel-qconnect-manager/src/quectel-qmi-proxy.c:366-378 | a service frame is sent once for every client it names, connection by connection and client by client, and changes nothing else |
| QmiService.OnlyServiceFrames | quectel-qconnect-manager/src/quectel-qmi-proxy.c:319-408 | no other event sends anything to clients on the service channels |
| QmiService.RouteReaches | quectel-qconnect-manager/src/quectel-qmi-proxy.c:367-378 | what a service frame sends to clients reaches a connection if and only if it holds a client of the frame's service, with its id or any if the frame names none |
| QmiService.GrantIsServed | quectel-qconnect-manager/src/quectel-qmi-proxy.c:239-251 | after the answer that grants a client id, exactly one connection more is sent frames, and just those that name the client: the one that asked |
| QmiService.ReleaseForgetsOne | quectel-qconnect-manager/src/quectel-qmi-proxy.c:253-268 | after an answer that releases or revokes an id, the connection that asked forgets it once and nothing else changes |
| QmiService.OtherAnswersKeepClients | quectel-qconnect-manager/src/quectel-qmi-proxy.c:336-345 | every other answer, and one that reports an error, leaves all clients as they are |
| QmiService.ResetByRevoke | quectel-qconnect-manager/src/quectel-qmi-proxy.c:341-342 | the reset flag is set if and only if an answer that revokes an id has a client to go to |
| QmiProxy.Server.RecvFromClient | quectel-qconnect-manager/src/quectel-qmi-proxy.c:382-408 | the program, with its queue on the heap list, takes the specified step; a service request goes straight to the modem |
| QmiProxy.Server.DeliverAnswer | quectel-qconnect-manager/src/quectel-qmi-proxy.c:330-347 | the loop over the connections delivers and registers as specified |
| QmiProxy.Server.RecvFromDev | quectel-qconnect-manager/src/quectel-qmi-proxy.c:319-380 | the same for a frame from the modem |
| QmiProxy.Server.Cleanup | quectel-qconnect-manager/src/quectel-qmi-proxy.c:204-237 | the same for a client that leaves |
| AtLines.AllLinesAreRuns | quectel-qconnect-manager/src/atchannel.c:328-429 | taking line after line off a stream gives its non-empty runs between CR and LF, in order |
| AtLines.RunsByNumbers | quectel-qconnect-manager/src/atchannel.c:311-314 | what the runs are, by the bytes 13 and 10 |
| AtReadline.RoomLeft | quectel-qconnect-manager/src/atchannel.c:369-375 | if the first line fits, a partial line leaves room: it is not given up |
| AtReadline.ReadLineOn | quectel-qconnect-manager/src/atchannel.c:328-429 | one call, from any memory and for any cut, takes the next line of the stream, or a prompt, or finds no line |
| AtReadline.ReadLineRight | quectel-qconnect-manager/src/atchannel.c:306-309 | that call returns the next line and leaves the lines behind it if and only if it took no prompt, or one that is a whole line with its terminator to come and nothing but newlines in the memory behind its NUL |
| AtReadline.RunRight | quectel-qconnect-manager/src/atchannel.c:328-429 | over every run: every call is right if and only if every prompt taken was harmless in this sense |
| AtReadline.NoPromptIsRight | quectel-qconnect-manager/src/atchannel.c:328-429 | if the lines fit and none starts with "> ", the lines returned are the non-empty runs of the stream, from any memory and for any cut |
| AtCuts.PromptIsCut | quectel-qconnect-manager/src/atchannel.c:306-309 | when a read ends behind a leading "> ", these two bytes are returned as a line |
| AtCuts.EveryCutRight | quectel-qconnect-manager/src/atchannel.c:304-316 | the next call is right from whatever memory and for every cut if and only if the line does not start with "> " |
| AtCuts.EveryCallSafeIff | quectel-qconnect-manager/src/atchannel.c:304-316 | line after line: every call on a stream is so if and only if none of its lines starts with "> " |
| AtCuts.SafeRunIff | quectel-qconnect-manager/src/atchannel.c:304-429 | whole runs are right from whatever memory and for every cut if and only if no line of the stream starts with "> " |
| AtCuts.EveryRunSafeIff | quectel-qconnect-manager/src/atchannel.c:304-429 | from every line of a fitting stream on, the run over the rest is so if and only if none of its lines starts with "> " |
| AtCuts.PromptLosesCursor | quectel-qconnect-manager/src/atchannel.c:423-425 | a prompt in the first bufferful, with the lines before it: some memory and some cut leave the cursor on bytes without a NUL |
| AtCuts.EveryCutRightWhenCleared | quectel-qconnect-manager/src/atchannel.c:304-316 | from cleared memory every cut is right if and only if the line does not start with "> " or is nothing else |
| AtCuts.SomeCutIsWrong | quectel-qconnect-manager/src/atchannel.c:304-316 | whatever the memory, a stream in which a line goes on behind "> ", or does not end, comes out wrong for some cut |
| AtCuts.TwoCuts | quectel-qconnect-manager/src/atchannel.c:306-309 | two cuts of one stream and the different lines they give |
| AtCuts.StaleComesBack | quectel-qconnect-manager/src/atchannel.c:424-424 | bytes that earlier traffic left behind the NUL of a prompt come out as a line |
| AtCuts.NulInside | quectel-qconnect-manager/src/atchannel.c:393-401 | the NUL of a read is stored inside the buffer if and only if the read does not fill it |
| AtCuts.RunGuard | quectel-qconnect-manager/src/atchannel.c:328-429 | over every run: the byte behind the buffer is cleared if some read filled the buffer, and otherwise as before |
| AtCuts.ShortLinesFill | quectel-qconnect-manager/src/atchannel.c:393-401 | one read of 2048 lines of one letter fills the buffer, though the lines come out right |
| AtReader.Reader.FindNextEol | quectel-qconnect-manager/src/atchannel.c:304-316 | the scan finds the end of the first line in the string at the cursor, or that there is none |
| AtReader.Reader.Compact | quectel-qconnect-manager/src/atchannel.c:354-366 | a partial line moves to the front unchanged, and the rest of the memory is as it was |
| AtReader.Reader.ReadMore | quectel-qconnect-manager/src/atchannel.c:393-401 | a read delivers up to all the room it asks for, and the NUL goes behind it, into the byte behind the buffer if need be |
| AtReader.Reader.Round | quectel-qconnect-manager/src/atchannel.c:368-419 | one round of the loop, with the buffer given up when it is full, does what the specification says |
| AtReader.Reader.ReadLine | quectel-qconnect-manager/src/atchannel.c:328-429 | the program is the specified call, for every memory, cursor and sequence of reads |
| AtReader.Reader.ReaderLoop | quectel-qconnect-manager/src/atchannel.c:450-487 | the lines of the run are passed on in order, one by one or as an SMS and its second line; for fitting lines without prompts they are the runs of the stream, for any cut; the byte behind the buffer keeps its value if and only if no read filled the buffer or it was 0 |
| AtReader.PassOnIs | quectel-qconnect-manager/src/atchannel.c:194-218 | passed on are all lines, in order, each once, but for an announcement in the last place; pairs are those that open with one of the four announcements, given in bytes |
| AtResponse.StartsWith | quectel-qconnect-manager/src/atchannel.c:99-108 | the comparison loop decides "is a prefix of" |
| AtResponse.Verdict | quectel-qconnect-manager/src/atchannel.c:126-181 | for every line, in bytes: the three texts that end a command well, the seven that end it badly, and that no other line ends it |
| AtResponse.WantedIs | quectel-qconnect-manager/src/atchannel.c:262-293 | a MULTILINE command wants every line with its prefix, in order, a SINGLELINE command the first of these, a NUMERIC one the first line that starts with a byte from 48 to 57, any other none |
| AtResponse.WrittenForPrompts | quectel-qconnect-manager/src/atchannel.c:236-261 | what is written while a command waits: its raw data for the first CONNECT, its PDU and the byte 26 for the first prompt, and nothing else |
| AtResponse.WhileWaiting | quectel-qconnect-manager/src/atchannel.c:229-297 | of any lines without a final one, the reply has exactly those the command is to get, and the handler exactly the others, both in order of arrival |
| AtResponse.ReplyIsComplete | quectel-qconnect-manager/src/atchannel.c:229-297 | the same with the final line and its verdict, which a proxy also hands on |
| AtResponse.WantedOrOther | quectel-qconnect-manager/src/atchannel.c:229-297 | no line is lost: each is wanted or one of the others, as often as it came |
| AtResponse.PromptsAside | quectel-qconnect-manager/src/atchannel.c:236-261 | a command with data for its prompts gets what it would get if the prompts had not been there |
| AtResponse.ATResponse.AddIntermediate | quectel-qconnect-manager/src/atchannel.c:111-124 | a line put at the head of the list is the last of the reply |
| AtResponse.ATResponse.ReverseIntermediates | quectel-qconnect-manager/src/atchannel.c:722-737 | the list is turned round in place and is in order of arrival afterwards |
| AtResponse.AtChannel.ProcessLine | quectel-qconnect-manager/src/atchannel.c:229-297 | the program takes the specified step for every state and line |
| AtResponse.ReplyAtAnyTime | quectel-qconnect-manager/src/atchannel.c:213-297 | whatever lines come before the caller wakes, behind a final one too: the reply is the last final line with its verdict and the lines wanted among those that are not final |
| AtResponse.OutcomeAtFinal | quectel-qconnect-manager/src/atchannel.c:213-297 | if the caller wakes on the first final line, that is the line and what was wanted before it |
| AtResponse.LateLine | quectel-qconnect-manager/src/atchannel.c:213-297 | exactly when one more line before the caller wakes changes the reply |
| AtResponse.AtChannel.SendCommand | quectel-qconnect-manager/src/atchannel.c:743-799 | the caller gets the outcome of all lines up to its waking, in order of arrival, with success or failure as the texts in bytes say, also together with the error for a closed channel; or only the error for a pending command, a failed write or a timeout; the handler gets what the specified run gives it, and the command with its 13 and the prompts' data are what is written |
| QrtrIds.FirstFree | quectel-qconnect-manager/src/quectel-qrtr-proxy.c:129-141 | the number found is free and no smaller one is |
| QrtrIds.LowestIsSmall | quectel-qconnect-manager/src/quectel-qrtr-proxy.c:151-163 | with n holders the lowest free number is at most n + 1, so it fits the byte of the map |
| QrtrIds.AllTaken | quectel-qconnect-manager/src/quectel-qrtr-proxy.c:129-141 | n distinct numbers from 1 to n are all of them (pigeonhole) |
| QrtrIds.AllocKeeps | quectel-qconnect-manager/src/quectel-qrtr-proxy.c:373-389 | an allocation keeps ids and ports distinct, non-zero and exactly marked, if and only if fewer than 239 clients are live |
| QrtrIds.DropKeeps | quectel-qconnect-manager/src/quectel-qrtr-proxy.c:391-416 | a release keeps them so |
| QrtrIds.StepConsistent | quectel-qconnect-manager/src/quectel-qrtr-proxy.c:373-465 | one event keeps them so if and only if it is not an allocation beyond 239 live clients |
| QrtrIds.RunConsistent | quectel-qconnect-manager/src/quectel-qrtr-proxy.c:373-465 | over every run: consistent throughout if and only if no id was asked for beyond 239 live clients |
| QrtrIds.TooManyClients | quectel-qconnect-manager/src/quectel-qrtr-proxy.c:129-141 | from the start, 239 clients on one connection are consistent and the 240th is not: it gets the id 0 |
| QrtrIds.StartIsConsistent | quectel-qconnect-manager/src/quectel-qrtr-proxy.c:127-128 | the cleared bitmaps are consistent |
| QrtrIds.GetTakesLowest | quectel-qconnect-manager/src/quectel-qrtr-proxy.c:373-389 | a request adds one client, to the connection that asks, with the lowest id and the lowest port that nobody holds |
| QrtrIds.ReleaseFrees | quectel-qconnect-manager/src/quectel-qrtr-proxy.c:391-416 | a release removes that client alone, frees its id and its port for later requests, and reports the port as deleted |
| QrtrIds.DisconnectFrees | quectel-qconnect-manager/src/quectel-qrtr-proxy.c:439-465 | who leaves has no connection any more, and the ports of its clients are reported as deleted, in order |
| QrtrIds.NothingToDo | quectel-qconnect-manager/src/quectel-qrtr-proxy.c:548-585 | requests from unknown connections, for unknown services and for unknown clients change nothing |
| QrtrIds.OneReceiver | quectel-qconnect-manager/src/quectel-qrtr-proxy.c:479-504 | a data packet reaches exactly one client if its port is held, and none otherwise |
| QrtrIds.ReceiverHoldsPort | quectel-qconnect-manager/src/quectel-qrtr-proxy.c:482-504 | a data packet is delivered to exactly the clients that hold its node and port |
| QrtrIds.Server.AllocId | quectel-qconnect-manager/src/quectel-qrtr-proxy.c:129-163 | the search loop returns and marks the lowest free number |
| QrtrIds.Server.GetClientId | quectel-qconnect-manager/src/quectel-qrtr-proxy.c:548-582 | the program takes the specified step for a client id request |
| QrtrIds.Server.ReleaseOn | quectel-qconnect-manager/src/quectel-qrtr-proxy.c:391-416 | the same for a release |
| QrtrIds.Server.ReleaseClientId | quectel-qconnect-manager/src/quectel-qrtr-proxy.c:583-585 | the program takes the specified step for a release request |
| QrtrIds.Server.Cleanup | quectel-qconnect-manager/src/quectel-qrtr-proxy.c:439-465 | releasing the head until none is left ends, and gives back every number of the connection |
| QrtrIds.Server.RecvData | quectel-qconnect-manager/src/quectel-qrtr-proxy.c:479-504 | the nested loops deliver as specified |
| MbimProxy.StepGood | quectel-qconnect-manager/src/quectel-mbim-proxy.c:156-195 | slot i, once used, is numbered i + 1 and no descriptor has two slots; kept if and only if accepted descriptors are new |
| MbimProxy.TagRoundTrip | quectel-qconnect-manager/src/quectel-mbim-proxy.c:228-228 | slot number and id both come back if and only if the id is below 2^24; a tagged id is never 0, so never taken for an indication |
| MbimProxy.TagFits | quectel-qconnect-manager/src/quectel-mbim-proxy.c:228-228 | a tagged id fits 32 bits |
| MbimProxy.TagByNumbers | quectel-qconnect-manager/src/quectel-mbim-proxy.c:228-228 | for an id below 2^24 the slot number is the top byte and the id the other three |
| MbimProxy.SlotStays | quectel-qconnect-manager/src/quectel-mbim-proxy.c:156-195 | over every run in which its client stays connected, a slot does not change |
| MbimProxy.ResponseReachesSender | quectel-qconnect-manager/src/quectel-mbim-proxy.c:197-279 | a request below 2^24 is forwarded tagged, and whatever happens in between, its response is delivered once, to its sender only, with the id restored |
| MbimProxy.LargeIdIsMisrouted | quectel-qconnect-manager/src/quectel-mbim-proxy.c:228-265 | for a larger id: the answer to client 2 goes to client 3 |
| MbimProxy.ConnectTakesLowest | quectel-qconnect-manager/src/quectel-mbim-proxy.c:156-182 | who connects gets the lowest free slot |
| MbimProxy.FullRefuses | quectel-qconnect-manager/src/quectel-mbim-proxy.c:156-182 | with all slots in use nobody else gets one |
| MbimProxy.DisconnectFrees | quectel-qconnect-manager/src/quectel-mbim-proxy.c:184-195 | who leaves has no slot any more, its slot is free, and no other changes |
| MbimProxy.IndicationReachesAll | quectel-qconnect-manager/src/quectel-mbim-proxy.c:250-257 | a message without a transaction id reaches every connected client once, in the order of the slots |
| MbimProxy.OpenAndCloseAreAnswered | quectel-qconnect-manager/src/quectel-mbim-proxy.c:216-225 | a request to open or close is answered by the proxy with status 0, and the device does not see it |
| MbimProxy.NobodyThere | quectel-qconnect-manager/src/quectel-mbim-proxy.c:205-279 | a request from nobody and a response to nobody go nowhere |
| MbimProxy.Proxy.ClientConnect | quectel-qconnect-manager/src/quectel-mbim-proxy.c:156-182 | the program takes the specified step |
| MbimProxy.Proxy.ClientDisconnect | quectel-qconnect-manager/src/quectel-mbim-proxy.c:184-195 | the program takes the specified step |
| MbimProxy.Proxy.ClientRequest | quectel-qconnect-manager/src/quectel-mbim-proxy.c:197-237 | the program writes what is specified |
| MbimProxy.Proxy.DeviceResponse | quectel-qconnect-manager/src/quectel-mbim-proxy.c:244-279 | the same for a response or an indication |
| Tlv.GetTlv | quectel-qconnect-manager/src/QMIThread.c:75-95 | the loop over pointer and 16-bit Length, on memory that holds anything at all, finds what the walk with wrap-around finds |
| Tlv.UnderflowsIff | quectel-qconnect-manager/src/QMIThread.c:91-91 | on any bytes: Length underflows if and only if no field matches and the fields do not tile the message; the result is NULL if and only if none matches and they do |
| Tlv.WalkIsScan | quectel-qconnect-manager/src/QMIThread.c:80-94 | while Length does not underflow, the lookup stays inside the message, whatever lies before and behind it |
| Tlv.StraysIff | quectel-qconnect-manager/src/QMIThread.c:91-92 | a lookup leaves a message with nothing behind it if and only if no field matches and the last one runs past the end by at most 65533 bytes |
| Tlv.OneByteMissing | quectel-qconnect-manager/src/QMIThread.c:91-92 | the shortest such message: three bytes with a length of 1 |
| Tlv.ScanFindsKind | quectel-qconnect-manager/src/QMIThread.c:81-91 | over encoded fields the scan stops at the first field of the type, and finds nothing exactly when there is none |
| Tlv.ScanFindsIndex | quectel-qconnect-manager/src/QMIThread.c:83-86 | asked for the indices above 0x1000 it returns the fields in order |
| Tlv.EveryFieldFound | quectel-qconnect-manager/src/QMIThread.c:75-95 | with distinct types, every field is found by its type, with type, length and value in place |
| Tlv.NothingElseFound | quectel-qconnect-manager/src/QMIThread.c:94-94 | the result is NULL if and only if no field has the type |
| Tlv.Composer.Qstrcpy | quectel-qconnect-manager/src/QMIThread.c:56-60 | the characters and one NUL are written, and nothing else |
| Tlv.Composer.PutText | quectel-qconnect-manager/src/QMIThread.c:221-227 | a string field extends the message by exactly that field although its NUL lies behind it |
| Tlv.Composer.StartNwInterface | quectel-qconnect-manager/src/QMIThread.c:181-271 | the buffer holds exactly the fields that the profile calls for |
| Tlv.Composer.ModifyProfileSettings | quectel-qconnect-manager/src/QMIThread.c:503-560 | the same for the profile request |
| Tlv.Composer.Finish | quectel-qconnect-manager/src/QMIThread.c:103-133 | the copy is the headers with their lengths, followed by exactly the fields |
| Tlv.StartKindsDistinct | quectel-qconnect-manager/src/QMIThread.c:181-271 | no type is written twice, for any profile |
| Tlv.StartContains | quectel-qconnect-manager/src/QMIThread.c:181-271 | which fields the request has, type by type, for every profile |
| Tlv.ModifyContains | quectel-qconnect-manager/src/QMIThread.c:503-560 | the same for the profile request |
| Tlv.StartAndLookUp | quectel-qconnect-manager/src/QMIThread.c:75-271 | composing and looking up: the header by its bytes, and under each type the value that the profile calls for, with the account of the CDMA network when it names none: 0x30 technology, 0x14 APN, 0x17 user, 0x18 password, 0x16 authentication, 0x19 family, 0x31 index; NULL exactly for what it does not call for; by index, the fields in the order of the request |
| Tlv.ModifyAndLookUp | quectel-qconnect-manager/src/QMIThread.c:503-560 | the same for the profile request: 0x01 index, 0x11 type, 0x14 APN, 0x1B user, 0x1C password, 0x1D authentication |
| UrlLogger.RecordsOfPieces | urllogger/src/urllogger-reader.c:254-284 | cutting the stream anywhere, and carrying over the rest, finds the same records |
| UrlLogger.LinesOfPieces | urllogger/src/urllogger-reader.c:254-284 | and prints the same lines, as long as nothing is given up |
| UrlLogger.PrintedOfPieces | urllogger/src/urllogger-reader.c:254-284 | for any stream at all, with the full buffers that are given up behind a header not accepted: cutting anywhere, and carrying over what the buffer holds, prints the same lines |
| UrlLogger.ValidIsPrinted | urllogger/src/urllogger-reader.c:280-281 | on a valid stream nothing is given up: what is left over never fills the buffer |
| UrlLogger.LinesAreRecords | urllogger/src/urllogger-reader.c:232-252 | one line for each complete record, in order, and reading its last field gives the payload back |
| UrlLogger.EventsPrinted | urllogger/src/urllogger-reader.c:254-278 | of records given by their bytes (version 2, header and record length low byte first), up to anywhere in the stream: one line for each that is there in full, in order, with its first 62 bytes, and its data back from the last field |
| UrlLogger.EventPrinted | urllogger/src/urllogger-reader.c:262-273 | one such record in front of any bytes |
| UrlLogger.FieldRoundTrip | urllogger/src/urllogger-reader.c:209-230 | a field written, then read by rules 5 to 7 of RFC 4180 section 2, is the original bytes, whatever they are |
| UrlLogger.FieldIs | urllogger/src/urllogger-reader.c:209-230 | the field by its bytes: the data itself or, if it holds 34, 44, 13 or 10, the data with each 34 doubled between two more |
| UrlLogger.StuckOnImproper | urllogger/src/urllogger-reader.c:263-268 | behind an improper header nothing is recognised any more |
| UrlLogger.GivenUp | urllogger/src/urllogger-reader.c:280-281 | behind a header of another version exactly 65536 bytes are given up, and what follows is read as a stream of its own |
| UrlLogger.KeptSoFar | urllogger/src/urllogger-reader.c:280-281 | up to 65535 bytes behind such a header, and less than a header, are kept |
| UrlLogger.Reader.CsvWriteField | urllogger/src/urllogger-reader.c:209-230 | the two loops append the quoted field |
| UrlLogger.Reader.ProcessBuffer | urllogger/src/urllogger-reader.c:254-285 | for any bytes: a line for each complete record, the rest moved to the front, a full buffer given up |
| UrlLogger.Reader.Drain | urllogger/src/urllogger-reader.c:327-344 | for any stream and any sizes of the reads: the lines printed are those of the bytes read so far, and the buffer holds what is carried over |
| UrlLogger.ReadLoop | urllogger/src/urllogger-reader.c:304-350 | from start to end of the program, on any stream; on records given by their bytes, exactly the lines of those read in full, in order, each with its data in the last field |

## Left out

- Sha1Context.ShaCtx.Update: requires that pending bytes plus len stay below 2^32; beyond that the C sum wraps (see BlockTestIff) and memcpy would run past the buffer, which C leaves undefined.
- Sha1Context.ShaCtx.Final: the length field is the bit count modulo 2^64, as the code has it; FIPS 180-4 defines the digest below 2^61 bytes.
- Sha1Transform.Transform: alignment and aliasing of the union cast, and big-endian machines, where blk0 does nothing.
- Hmac.HmacCtx.UpdateKey: the caller's array is none of the context's own arrays.
- Qmap.PacketDecode: packet statistics, the Ethernet header and bridge handling, and acceleration hooks; the byte behind the buffer, which the code may look at, is a parameter, and a negative length counts as a failed allocation.
- Qmap.AddQhdr: head room for the header is required, as skb_push demands.
- Aggregator.RunConserves: frames fit the maximum size while aggregation is on, without which skb_put would halt the kernel; the results of dev_queue_xmit only change statistics and are not modelled.
- Aggregator.Priv.Tx: which packets are urgent (rmnet_usb_tx_agg_skip), the clock and the allocator are inputs; socket buffer contents are byte sequences.
- AggregatorThreads.ConservedAndBounded: settings are fixed above one datagram for the whole run.
- P910.CopyUnidirectional: that the loop ends is claimed of a willing network and printer only, since a printer may never take a byte; logging and 64-bit wrap of the counters are left out, and the two error bits are two booleans.
- P910.CopyBidirectional: the same; the clock of the pacing timer is only whether it has expired, and of the network only that it gets a prefix.
- QmiProxy.Server.RecvFromDev: connections and their clients are sequences, only the request queue is on the heap list; the phase before the server is up, write failures and failed allocations are left out.
- QmiSafety.StepSafe: requests come from connected clients only, as the program reads no other descriptor.
- QmiProxy.RunPaired: does not model the exit of the main loop after a modem reset.
- AtReader.Reader.ReadLine: what is delivered holds no NUL; nobody else writes the buffer or the byte behind it during a run; where the cursor is left on bytes without a NUL behind them, the run ends, since what lies further on in memory is not modelled.
- AtReadline.NoPromptIsRight: lines longer than the buffer, of which the code gives up a part; the run is modelled, but no lines are promised.
- AtResponse.AtChannel.SendCommand: the caller wants the response; the loop around pthread_cond_timedwait is not modelled, only how long it lasted and why it ended.
- AtCuts.SafeRunIff: of the streams whose only prompts are whole lines, those with no prompt in the first 4096 bytes, where what earlier lines leave in the buffer decides; EveryRunSafeIff covers them from the line of the prompt on.
- QrtrIds.Server.GetClientId: whether a service is known is an input, since the service list only grows; control packets other than client deletion are left out.
- QrtrIds.RunConsistent: connections and their clients are sequences, not heap lists.
- MbimProxy.Proxy.DeviceResponse: results of writes, message lengths, closing of descriptors, and the opening handshake with the device.
- Tlv.GetTlv: once a lookup has left the memory it was given, nothing more is said.
- Tlv.Composer.StartNwInterface: messages beyond the 256-byte buffer; the branch for a second CDMA index (line 263), which its own guard excludes.
- UrlLogger.Reader.PrintEvent: the text of the fixed columns, which depends on clock and locale; a line keeps the header bytes they are made from.
- UrlLogger.ReadLoop: opening the queue, its cache limit, polling and the lock file.
- Sockets, poll and select loops of the proxies, USB, sysfs, netlink and thread start-up.
- MBIM connection set-up (mbim-cm.c), device detection, DHCP, bridge mode and tables of names: plumbing or easy.
- The NSS offload and code that is not compiled (QUECTEL_QMI_MERGE).
