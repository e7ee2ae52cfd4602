# LTE base station: a verified model

Dafny 4.11 models of the parts of an LTE/LTE-U base station whose correctness is hardest to see from the code, with
proofs of what those parts are for. `dafny verify dfyconfig.toml` checks everything.

## What is modelled

**Channel coding (3GPP TS 36.212, section 5.1, and 3GPP TS 36.211, section 7.2).** `SubBlock` is the column interleaver
with NULL padding, `RateMatch` the circular buffer and the bit selection loop, `DeRateMatch` the receiver's inverse by
counting ranks, and `DeRateMatchLoops` its in-place loops. `Crc` holds the serial register, the polynomial it divides by
and what a passed check means; `CrcLoops` holds the serial and the byte-sliced loops. `Qpp` is the polynomial interleaver
with its 188-row table and both index computations, `TurboCode` the recursive encoders with trellis termination, `DlSch`
the whole transport chain and the receiver's check. `Gold` and `ConvCode` are the sequence generator and the tail-biting
code in their blocked forms, and `Pdsch` maps symbols around pilots.

**MAC downlink scheduler.** `MacTxOutQueue` is the slot array with holes, `MacTxTime` the frame clock modulo 1024 and the
horizon, `MacTxControl` the control packets that replace themselves, `MacTxData` the two data streams, `MacTxStep` one
subframe on the level of bags of packets, `MacTx` the scheduling loops and the walk that adds while it iterates, and
`MacTxScheduler` the class that is stepped once per subframe; `MacTxHarq` says what a run does to the HARQ processes. The
ghost `Run` of the class holds the absolute time, the numbered history of both streams and a log of everything handed to
the PHY, so that `Valid` is a statement about the whole run so far.

**Radio transmit pipeline.** `TxPipeline` is a state machine of writeSora, the worker thread and the firmware, whose
actions are single reads or writes of shared state. Its theorems speak of every interleaving.

**Message formats.** `MacPdu`, `Rlc`, `Checksum` and `Ping` are the MAC, RLC and PDCP codecs, the Internet checksum and
the ping responder. `JsmnSpec` is a lexer and a stack parser for JSON, and `Jsmn` the single-pass tokenizer proved against
them.

`ModArith` and `Options` are helpers.

## What the proofs found

Where the code differs from its own comments or from a standard, the model follows the code.

- The block check of the receiver is meant to compare 22 bits but compares 16, because `compare_bits` only looks at
  whole bytes (UplinkRX/sch_decode.zir:35-47 and 66): `DlSch.SchDecode`, `DlSch.LastCheckByteIgnored`.
- With a command FIFO of two, which is the default (MAC/driver.c:99) and which MAC/sora_radio.h:63-64 calls working,
  nothing is ever freed and at most two buffers are transferred: `TxPipeline.SmallFifoStalls`. With more than two the
  pipeline can always go on: `TxPipeline.NeverJams`.
- The reassembly index is a byte, so no PDU of more than 255 bytes is ever handed up whole: `Rlc.Reassembled`.
- The MAC decoder stops after a hundred SDUs without having read the padding subheader, so that lists of more than 99
  come back only by chance: `MacPdu.RoundTripIff`, `MacPdu.ChannelsOnlyIff`.
- The slot for the next SDU stops at the size of the caller's array, not below it, so a PDU with more subheaders of
  logical channels than the 64 slots of both callers (MAC/mac_rx.c:94-95, MAC/mac_msg_parsing.c:998-1005) makes the
  decoder write behind the array: `MacPdu.StoresInsideIff`, `MacPdu.SixtyFiveTooMany`.
- A control-plane PDU makes the PDCP decoder copy a negative number of bytes if RLC hands up one to four bytes of it.
  Because the reassembly index is a byte, that is so for PDUs sent whole of 1 to 4 bytes, of 257 to 260, and so on, and
  for those that are only a header: `Rlc.NegativeLengthIff`.
- An empty PDU outside transparent mode is read as the header that its buffer held before and the byte in front of the
  buffer. It makes RLC hand something up exactly if that header is one of the last part of a data PDU, without the
  extension bit, and the reassembly index is not about to wrap: `Rlc.EmptyHandsUp`, `Rlc.EmptyIgnoredIff`.
- Rate dematching reads past a received block of fewer values than three times the stream length, and past no other:
  `DeRateMatch.ReadsInsideIff`.
- The command line takes up to ten data subframes (MAC/params.c:233). The queue has room for everything that can be
  pending exactly if there are at most three. With four, packets are dropped in the very first callback if enough
  arrive, the replacement of the DCI0 packet among them, and DCI0 is never sent again: `MacTxStep.Capacity`,
  `MacTxScheduler.FirstCallback`, `MacTx.LostForGood`.
- The bit buffers of 16800 entries hold the turbo code and the interleaver of every block size up to 5568, but not of
  the nine larger ones that the size search accepts: `DlSch.BuffersSufficeIff`.
- Without empty subframes, initialisation queues a second DCI0 packet that then recurs in every frame
  (MAC/mac_tx.c:95-100): `MacTxScheduler.ControlOnTime`.
- When the RRC horizon is reached, the response at hand is lost: `MacTx.ScheduleRRC`.
- The new-data indicator is meant to toggle for every consecutive packet of a HARQ process (MAC/mac_tx_helper.c:605). It
  does in the order of scheduling: `MacTxHarq.HarqAlternates`. But responses are scheduled in the next subframe 2 even if
  twenty frames of IP packets wait, and overtake them, so that two packets sent in a row on a process may carry the same
  indicator: `MacTxHarq.Overtaken`, and `MacTxHarq.TogglesIff` and `MacTxHarq.InOrderIff` for when.
- An accepted IP packet whose ICMP part is not an echo request is answered with a bare header: `Ping.Ip`.
- An odd last byte is left out of the checksum, where RFC 1071 pads it: `Checksum.OddByteIgnored`.
- At pilot offset 0, which every cell number divisible by 3 has, the mapping loop takes the pilot column for data and
  leaves out the column before the next one: `Pdsch.RightIff`. Moreover, the offset in symbol 4 is that of the reference
  symbols (DnlinkTX/cellRS.zir) only for some cells: the program overwrites reference symbols unless the cell number
  leaves 4 or 5 modulo 6: `Pdsch.ReferencesKeptIff`.

## Model

| member | source | states |
|---|---|---|
| SubBlock.ConvColumns | UplinkRX/derateMatchTurbo.zir:84-91 | The second column table is the inverse of the convolutional one, entry by entry |
| SubBlock.BitReversal | DnlinkTX/interleave.zir:41-42 | The turbo column table reverses the five bits of the column number |
| SubBlock.HalvesExchanged | DnlinkTX/interleave.zir:37-42 | The convolutional column table is the turbo one with its halves exchanged |
| SubBlock.ReaderReads | DnlinkTX/interleave.zir:52-55 | Every interleaver input position is read by some output entry, for any length and shift |
| SubBlock.ReaderIsUnique | DnlinkTX/interleave.zir:52-55 | No two output entries read the same position: with the row above, the index expression permutes |
| SubBlock.InterleavedRank | DnlinkTX/interleave.zir:52-56 | An interleaved stream of length D has exactly D entries that are not NULL |
| SubBlock.ReadByColumns | DnlinkTX/interleave.zir:52-56 | Entry j R + i of the output is what stands in row i and the j-th column of the table, delta places on, of the matrix of R rows of 32, whose padding comes out as NULL |
| RateMatch.LapCount | DnlinkTX/rateMatchTurbo.zir:49-59 | One lap of the circular buffer holds exactly 3D entries that are not NULL |
| RateMatch.BitSelectionAt | DnlinkTX/rateMatchTurbo.zir:72-83 | Output n is the (n mod 3D)-th entry that is not NULL, counted from the start index |
| RateMatch.BufferAt | DnlinkTX/rateMatchTurbo.zir:74-77 | The circular buffer is the first interleaved stream and then the other two in turn, the third one shifted by one |
| RateMatch.RateMatchedAt | DnlinkTX/rateMatchTurbo.zir:57-83 | Output n is the n-th entry that is not NULL from R(24 rv + 2) on, R being the number of 32-column rows, cyclically |
| RateMatch.StreamsAligned | DnlinkTX/rateMatchTurbo.zir:41-45 | The three streams of the input begin at multiples of the stream length rounded up to bytes |
| RateMatch.StartIndexValue | DnlinkTX/rateMatchTurbo.zir:57-68 | The start index is R(24 rv + 2), inside the buffer for the four redundancy versions |
| RateMatch.Interleave | DnlinkTX/interleave.zir:32-60 | The loop stores the interleaved stream with -1 for NULL and touches nothing behind it |
| RateMatch.Interleave3 | DnlinkTX/interleave.zir:67-101 | The fused loop stores what three separate interleavers of the three sections would store |
| RateMatch.SelectBits | DnlinkTX/rateMatchTurbo.zir:72-83 | The loop ends for every output length and writes the bit selection; its counter has passed exactly the entries needed |
| RateMatch.CounterFitsInt16 | DnlinkTX/rateMatchTurbo.zir:38-39 | For every turbo block size, redundancy version and output length the loop's position stays below 2^15 |
| RateMatch.RateMatchTurbo | DnlinkTX/rateMatchTurbo.zir:33-85 | From byte-aligned streams to the selected bits; nothing else of the output changes |
| DeRateMatch.SlotHoldsStream | DnlinkTX/rateMatchTurbo.zir:73-77 | Value i of stream q sits in the circular buffer where the inverse permutation says |
| DeRateMatch.ReceivedIsSelected | UplinkRX/derateMatchTurbo.zir:149-157 | Counting ranks from the start index finds the very value that bit selection sent |
| DeRateMatch.RecoveredIsSent | UplinkRX/derateMatchTurbo.zir:141-161 | Every stream value is recovered from a received value that carries it, for all lengths and redundancy versions |
| DeRateMatch.RoundTrip | UplinkRX/derateMatchTurbo.zir:121-164 | Dematching the soft images of rate-matched streams gives the three streams back, concatenated in order |
| DeRateMatch.DeratedCount | UplinkRX/derateMatchTurbo.zir:106-114 | All 3D values come back exactly if none of the first 3D received values is the NULL marker |
| DeRateMatch.ReadsInsideIff | UplinkRX/derateMatchTurbo.zir:149-157 | All reads of the received block stay inside it exactly if it holds at least 3D values |
| DeRateMatchLoops.DrmInterleave | UplinkRX/derateMatchTurbo.zir:39-65 | The loop writes positions and markers of one section and leaves the other two alone |
| DeRateMatchLoops.FillReceived | UplinkRX/derateMatchTurbo.zir:139-157 | The pad and count loops put into every buffer entry the received value of its rank, or the marker |
| DeRateMatchLoops.DrmDeinterleave | UplinkRX/derateMatchTurbo.zir:70-115 | Scatter by the forward table and compaction give the section's values in stream order |
| DeRateMatchLoops.DerateMatchTurbo | UplinkRX/derateMatchTurbo.zir:121-164 | For any received values, as many as are read, dk holds what the specification of dematching says, and the rest of dk is unchanged |
| Crc.RunXor | DnlinkTX/crc.zir:40-49 | The register is linear in state and message |
| Crc.CheckPasses | DnlinkTX/crc.zir:29-55 | Block and check drive the register to zero exactly if the check is the reversed register of the block |
| Crc.BurstDetected | DnlinkTX/crc.zir:29-55 | An error burst no longer than the register never leaves a passing word passing |
| Crc.GeneratorIsCrc24A | DnlinkTX/crc.zir:72 | The taps are those of the polynomial gCRC24A of section 5.1.1 of 3GPP TS 36.212 |
| Crc.BlockIsMultiple | DnlinkTX/crc.zir:29-55 | Block followed by check is a polynomial multiple of the generator |
| CrcLoops.SerialCrc | DnlinkTX/crc.zir:29-55 | The nested loops, guarded at the end, run the register over the whole message |
| CrcLoops.ByteStep | DnlinkTX/crc.zir:98-172 | One byte in unshifted coordinates equals eight serial steps |
| CrcLoops.Crc24a | DnlinkTX/crc.zir:86-197 | The byte-sliced form with its serial tail is the reversed serial register, for every length |
| CrcLoops.CompareBits | UplinkRX/sch_decode.zir:35-47 | The comparison is of the whole bytes only |
| Qpp.FindsRow | Library/C/ChanDecode.h:16-43 | The row search finds the row of every legal block size |
| Qpp.TablesAgree | Library/C/ChanDecode.h:14-15 | The decoder's two tables of coefficients are the encoder's one (DnlinkTX/turboCode.zir:43), row by row |
| Qpp.PolynomialInjective | DnlinkTX/turboCode.zir:45-52 | If f1 is a unit and f2 nilpotent modulo n, the quadratic takes no value twice, for all n |
| Qpp.IndexInjective | DnlinkTX/turboCode.zir:43-52 | The interleaver of every table row never hits an index twice |
| Qpp.IndexSurjective | DnlinkTX/turboCode.zir:43-52 | It hits every index |
| Qpp.IndexStep | Library/C/ChanDecode.h:65 | The incremental index equals the closed form |
| Qpp.Interleave | Library/C/ChanDecode.h:46-67 | Both modes of the loop are the permutation, forwards and backwards |
| Qpp.DeinterleaveUndoes | Library/C/ChanDecode.h:55-66 | Deinterleaving undoes interleaving for every input |
| TurboCode.TerminationReachesZero | DnlinkTX/turboCode.zir:66-78 | Three tail bits bring every encoder state to zero |
| TurboCode.ParityLaw | DnlinkTX/turboCode.zir:55-61 | For every message, tails included, the parity is the message times (1 + D + D^3) / (1 + D^2 + D^3) |
| TurboCode.StreamsAre | DnlinkTX/turboCode.zir:50-61 | The streams are the message, its parity, and the parity of the message taken at (f1 i + f2 i^2) mod K |
| TurboCode.TailsAcross | DnlinkTX/turboCode.zir:66-98 | The twelve tail bits are dealt out across the three streams, those of the first encoder before those of the second |
| TurboCode.Encode | DnlinkTX/turboCode.zir:30-101 | The loop writes systematic bits and both parities, of the message and of its permutation, then the tails |
| DlSch.Dlsch | DnlinkTX/dlsch.zir:34-46 | For every legal size that fits the buffers the output is the rate-matched turbo code of block and check, and the check is appended in place |
| DlSch.CheckedBlock | DnlinkTX/dlsch.zir:41 | What goes into the turbo code is a multiple of gCRC24A |
| DlSch.BuffersSufficeIff | DnlinkTX/turboCode.zir:34-52 | The indices stay inside buffers of 16800 entries exactly for the legal sizes up to 5568 |
| DlSch.SystematicRecovered | DnlinkTX/dlsch.zir:41-43 | Over a noise-free channel the receiver's systematic stream is the block followed by its check |
| DlSch.SchDecode | UplinkRX/sch_decode.zir:50-77 | Around any decoder: it sees the dematched streams, and acceptance is exactly equality of the first 16 check bits with the reversed register |
| DlSch.CorrectIsAccepted | UplinkRX/sch_decode.zir:59-66 | A decoder that returns the systematic bits has its block accepted |
| DlSch.ChainAccepts | UplinkRX/sch_decode.zir:50-77 | Without noise, whatever Dlsch sends for a block makes SchDecode return and accept it, around a decoder that decides the systematic values right |
| DlSch.LastCheckByteIgnored | UplinkRX/sch_decode.zir:65-66 | The last eight check bits have no effect on acceptance |
| Gold.Block | DnlinkTX/gold.zir:81-95 | Eight new bits from a sixteen-bit window are the serial bits, and the window only uses bits that are there |
| Gold.Fill | DnlinkTX/gold.zir:79-95 | The padded number of blocks produces every bit that is needed and stays inside the buffer |
| Gold.Gold | DnlinkTX/gold.zir:38-116 | For every 31-bit seed and every length up to the maximum the output is the Gold sequence of the serial recurrences |
| Gold.Recurrences | DnlinkTX/gold.zir:47-92 | The bits specified are those of the two recurrences of the standard, 1600 places on |
| Gold.SeedDigits | DnlinkTX/gold.zir:64-69 | The second register starts with the seed in binary, the lowest digit first |
| ConvCode.RotationInvariant | DnlinkTX/convCode.zir:49-56 | Rotating the message rotates each output stream |
| ConvCode.Linear | DnlinkTX/convCode.zir:51-53 | The code of a sum is the sum of the codes |
| ConvCode.ImpulseResponse | DnlinkTX/convCode.zir:51-53 | The generators are 133, 171 and 165 in octal |
| ConvCode.Encode | DnlinkTX/convCode.zir:33-65 | Bit k of each byte-aligned stream is the cyclic convolution of the message with the stream's generator, and the register ends as it was filled at the start |
| Pdsch.CountIsExact | DnlinkTX/addPDSCHToSubframe.zir:37-63 | The count formula is the number of data elements of the allocation, in every subframe |
| Pdsch.AddPDSCH | DnlinkTX/addPDSCHToSubframe.zir:83-166 | For pilot offsets 0 to 5: every data element as mapped gets the next symbol in increasing order, nothing else is written, the counted number is used; offset 0 is mapped like offset 5 |
| Pdsch.SymbolAt | DnlinkTX/addPDSCHToSubframe.zir:97-164 | In numbers: which symbol is at column x of the allocation in row r, for every position, pilot offsets included; the first is at 12 ndlrb cfi + 12 prbStart |
| Pdsch.OutsideAlone | DnlinkTX/addPDSCHToSubframe.zir:101-164 | Columns beside the allocation and the rows of the control region stay as they are |
| Pdsch.PilotRun | DnlinkTX/addPDSCHToSubframe.zir:138-164 | One turn in a pilot row maps the run up to the next pilot or the end of the allocation and stands behind it |
| Pdsch.RightIff | DnlinkTX/addPDSCHToSubframe.zir:93-144 | The pilots of the two offsets stay free, and every other element is mapped, exactly if neither offset is 0 |
| Pdsch.CellRS | DnlinkTX/cellRS.zir:34-61 | The loops store the reference symbols of a cell in every sixth column of the four pilot rows, and touch nothing else |
| Pdsch.ReferencesKeptIff | DnlinkTX/addPDSCHToSubframe.zir:93-94 | Around the reference symbols of cell n, none is overwritten exactly if n modulo 6 is at least 4 |
| Pdsch.CellTwelve | DnlinkTX/addPDSCHToSubframe.zir:93-94 | In cell 12 the first reference symbol of the second slot is overwritten |
| MacTxOutQueue.AddedBag | MAC/mac_tx_out_queue.c:48-60 | Adding works exactly while fewer packets than slots are held, wherever the holes are, and adds one packet to the bag |
| MacTxOutQueue.WalkAndDelete | MAC/mac_tx_out_queue.c:66-121 | The walk meets, and deletion removes, exactly the packets with the given stamp, each as often as it is held |
| MacTxOutQueue.OutQueue.Add | MAC/mac_tx_out_queue.c:48-60 | The packet goes to the first free slot; the result tells whether there was one |
| MacTxOutQueue.OutQueue.Find | MAC/mac_tx_out_queue.c:66-80 | The first matching slot, or -1 |
| MacTxOutQueue.OutQueue.GetNext | MAC/mac_tx_out_queue.c:87-101 | The next slot with the same stamp, or -1 |
| MacTxOutQueue.OutQueue.Delete | MAC/mac_tx_out_queue.c:107-121 | All matching slots are freed and the used size shrinks to the last slot in use |
| MacTxTime.CompareTimeExact | MAC/mac_tx_helper.c:531-542 | For any two absolute times the answer is the order of their wrapped distance |
| MacTxTime.CompareTimeOrder | MAC/mac_tx_helper.c:527-542 | Less than half a wrap apart, that is the order of the times |
| MacTxTime.HalfWrapReverses | MAC/mac_tx_helper.c:531-542 | Exactly half a wrap apart, it is the reverse |
| MacTxTime.HorizonOrder | MAC/mac_tx_helper.c:548-556 | The horizon test on stamps is the test on absolute frames |
| MacTxTime.NextInIsFirst | MAC/mac_tx_helper.c:587-602 | The next data subframe is in the list and none before it is |
| MacTxTime.NextRRCSubframe | MAC/mac_tx_helper.c:575-582 | The stamp moves to the next subframe 2 |
| MacTxTime.NextIPSubframe | MAC/mac_tx_helper.c:587-602 | The stamp moves to the next listed subframe, across frame and clock wraps |
| MacTxTime.PendingBound | MAC/mac_tx_helper.c:548-556 | At most 21 frames' worth of listed subframes and one more can be pending |
| MacTxTime.UpdateHARQ | MAC/mac_tx_helper.c:607-619 | Process and indicator are those of the running number of the data packet |
| MacTxTime.NdiToggles | MAC/mac_tx_helper.c:605-619 | Two numbers in a row on one process are eight apart and have opposite indicators |
| MacTxControl.WhenDue | MAC/mac_tx.c:466-530 | Each kind of control packet is due in exactly its own subframes |
| MacTxControl.ControlStep | MAC/mac_tx.c:466-530 | What is due and what replaces it is all that changes in the bag of control packets from one subframe to the next |
| MacTxControl.FollowerOfKind | MAC/mac_tx.c:468-530 | The packet that replaces a due one is the next of its kind, across the clock wrap |
| MacTxControl.EsfStep | MAC/mac_tx_helper.c:312-325 | The counter of empty subframes keeps pace whether or not an empty subframe was sent |
| MacTxControl.Sib1Versions | MAC/mac_tx_helper.c:166-180 | SIB1 goes through the redundancy versions 0, 2, 3, 1, beginning anew at every eighth frame |
| MacTxData.TrackBound | MAC/mac_tx.c:238-249 | However many packets arrive, few of a stream are pending |
| MacTxData.HeadIsDue | MAC/mac_tx.c:439-444 | What a stream has due now is its next unsent packet, if that packet's time has come |
| MacTxData.PlanIs | MAC/mac_tx.c:238-276 | The i-th packet of a plan has the i-th data, the next number, and the first listed subframe after that of the packet before |
| MacTxData.NumberedRrc | MAC/mac_tx.c:271-274 | Whatever one stream adds, the packets of both streams together stay numbered from zero without gaps |
| MacTxData.FilledUp | MAC/mac_tx.c:311-324 | A stream planned from time zero to beyond the horizon has a packet in every listed subframe of 21 frames but time zero |
| MacTxStep.WalkFindsOutgoing | MAC/mac_tx.c:439-543 | The packets met by the walk are the control packets due now and one data packet at most of each stream |
| MacTxStep.Capacity | MAC/mac_tx_out_queue.h:39 | At most 28 slots and 21 more for each data subframe are needed between callbacks, 91 of the 100 if there are three, and at most 7 packets leave in one |
| MacTxStep.OutgoingReplaceable | MAC/mac_tx.c:466-533 | No packet is replaced by one for the same subframe, at most one is EMPTY, and the counter is right afterwards |
| MacTxStep.ContentStep | MAC/mac_tx.c:439-541 | After the subframe the queue holds exactly the control packets and unsent data of the next one |
| MacTx.WalkStep | MAC/mac_tx.c:444-536 | Adding a successor into any free slot does not disturb the rest of the walk |
| MacTx.ScheduleNextSF | MAC/mac_tx.c:433-547 | The output is the packets queued for this subframe in slot order and one end marker; exactly the successors are dropped that the queue has no room for, all if it is full; successors are in, sent packets out; a kind that was not there is not there afterwards |
| MacTx.LostForGood | MAC/mac_tx.c:464-536 | A recurring packet that is gone never comes back, whatever happens to the queue |
| MacTx.ScheduleRRC | MAC/mac_tx.c:178-299 | Responses are scheduled in order, one per frame, until the queue is empty or the horizon loses one; exactly those are dropped that the queue has no room for |
| MacTx.ResponsesInOrder | MAC/mac_tx.c:185-236 | The responses are the answers of the shared-channel messages that have one, in the order of arrival |
| MacTx.ScheduleIP | MAC/mac_tx.c:303-401 | Packets are scheduled in order until none fits or the horizon is reached, even if the source never ends; exactly those are dropped that the queue has no room for |
| MacTxScheduler.Scheduler.constructor | MAC/mac_tx.c:142-167 | The initial queue and context are those of time zero |
| MacTxScheduler.FirstCallback | MAC/mac_tx.c:178-547 | When both streams fill up in the first callback, packets are dropped exactly if there are more than three data subframes, and exactly then the DCI0 packet that is sent leaves no successor |
| MacTxScheduler.Scheduler.Callback | MAC/mac_tx.c:737-775 | With at most three data subframes, whatever arrives, no packet is dropped, the PHY gets this subframe's packets and the marker, both streams grow as planned, and the invariant holds one subframe later |
| MacTxScheduler.IpInOrder | MAC/mac_tx.c:303-384 | In each callback packet i of the interface becomes the next data packet, in the first data subframe after the packet before it |
| MacTxScheduler.RrcInOrder | MAC/mac_tx.c:178-282 | Likewise for response i, in subframe 2 |
| MacTxScheduler.ControlOnTime | MAC/mac_tx.c:466-547 | In every run each control packet, all fields given, was sent exactly in its subframes and exactly once, DCI0 twice without empty subframes |
| MacTxScheduler.DataOnTime | MAC/mac_tx.c:433-547 | In every run the packet of number n was sent once, at its time, alone of its stream, with version 0, process n mod 8 and indicator n / 8 mod 2 |
| MacTxScheduler.DataWasScheduled | MAC/mac_tx.c:433-547 | In every run no data packet was sent that was not scheduled for that very time |
| MacTxHarq.HarqAlternates | MAC/mac_tx_helper.c:605-619 | In every run a HARQ process is used by every eighth data packet in the order of scheduling, and each carries the indicator opposite to the one before |
| MacTxHarq.SentFor | MAC/mac_tx.c:433-447 | Every data packet in the log belongs to a scheduled one, with its process, indicator and data |
| MacTxHarq.TogglesIff | MAC/mac_tx_helper.c:605-619 | Two packets in a row on a process in the order of sending carry opposite indicators exactly if they are an odd number of uses of the process apart |
| MacTxHarq.InOrderIff | MAC/mac_tx.c:269-282 | No packet is overtaken on its process exactly if each is due after the eighth before it, which can be told when it is scheduled |
| MacTxHarq.TogglesInOrder | MAC/mac_tx_helper.c:605-619 | If no packet is overtaken on its process, the indicator toggles in the order of sending too |
| MacTxHarq.OneStreamInOrder | MAC/mac_tx.c:737-775 | With responses only, or IP packets only, none is overtaken |
| MacTxHarq.Overtaken | MAC/mac_tx.c:737-775 | A run of 85 subframes in which the indicator does not toggle: the response of number 24 goes out on process 0 before the IP packet of number 8, both with indicator 1 |
| TxPipeline.DiffWrapExact | MAC/sora_radio.c:828-840 | The function is subtraction modulo 2^32 |
| TxPipeline.DiffWrapCounts | MAC/sora_radio.c:828-840 | Across any number of wraps it gives the true distance of two counters |
| TxPipeline.RingKept | MAC/sora_radio.c:793-824 | Every action of every thread keeps the stream intact |
| TxPipeline.FifoKept | MAC/sora_radio.c:898-949 | Every action keeps counters, slots and freed ids right |
| TxPipeline.StreamInOrder | MAC/sora_radio.c:793-824 | After any interleaving the radio has read a prefix of everything given to writeSora |
| TxPipeline.BacklogBounded | MAC/sora_radio.c:803-822 | What was taken over and not yet read fits the ring |
| TxPipeline.NoRace | MAC/sora_radio.c:800-821 | No buffer is written that is still to be read, or read while it is filled |
| TxPipeline.NoOverwrite | MAC/sora_radio.c:900-910 | A command never takes the slot of an outstanding one, across counter wraps |
| TxPipeline.FreedInOrder | MAC/sora_radio.c:942-949 | Ids are freed once each, in order, two commands behind the firmware |
| TxPipeline.GrantIff | MAC/sora_radio.c:809-813 | The spin loop ends exactly if fewer than no_tx_bufs - 1 buffers wait |
| TxPipeline.LookIff | MAC/sora_radio.c:900-904 | A transfer starts exactly if a buffer waits and fewer than the FIFO size are outstanding |
| TxPipeline.SmallFifoStalls | MAC/sora_radio.c:942-949 | With a FIFO of at most two, no run ever transfers more buffers than the FIFO size |
| TxPipeline.NeverJams | MAC/sora_radio.c:898-949 | With more than two, a waiting buffer can be transferred from every reachable state |
| MacPdu.Encode | MAC/mac_msg_parsing.c:218-265 | The loops write the PDU of every list that fits the buffer |
| MacPdu.Decode | MAC/mac_msg_parsing.c:149-213 | For every input that does not overrun the caller's array, malformed or not, the result is what the header grammar says |
| MacPdu.StoresInsideIff | MAC/mac_msg_parsing.c:201-210 | The decoder stays inside an array of outlen slots exactly if no more subheaders than that are of logical channels, or outlen is at least 100 |
| MacPdu.SixtyFiveTooMany | MAC/mac_msg_parsing.c:1000-1005 | 65 empty SDUs, in 130 bytes, overrun an array of 64 |
| MacPdu.RoundTripIff | MAC/mac_msg_parsing.c:149-265 | Decoding an encoded list with control elements and any trailing bytes gives the SDUs back in order exactly if at most 99 are on logical channels, or there are a hundred and the bytes read too early are theirs |
| MacPdu.ChannelsOnlyIff | MAC/mac_msg_parsing.c:149-265 | Without control elements: exactly if there are at most 99, or a hundred whose payload is all padding subheaders |
| MacPdu.OpenEndIff | MAC/mac_msg_parsing.c:158-212 | A PDU whose last subheader has no extension bit and no length gives its SDUs back, the last one with all that is left, exactly if at most a hundred are on logical channels |
| MacPdu.SubheaderMeans | MAC/mac_msg_parsing.c:158-199 | What one subheader makes of any bytes: kind, length, start and cut of the SDU, and whether reading goes on |
| MacPdu.SubheaderFormat | MAC/mac_msg_parsing.c:218-250 | The bytes of a subheader, with lengths of one byte up to 127 and of two above |
| MacPdu.ControlLengths | MAC/mac_msg_parsing.c:126-133 | The lengths of the control elements |
| Rlc.RlcEncode | MAC/mac_msg_parsing.c:390-420 | The header of the channel's mode and the data; the counter moves on |
| Rlc.PdcpEncode | MAC/mac_msg_parsing.c:461-495 | The header of the channel's plane, the data and an empty integrity code |
| Rlc.PduFormats | MAC/mac_msg_parsing.c:390-495 | The PDUs of RLC and PDCP byte by byte, and counters of 32 bits |
| Rlc.Receiver.Decode | MAC/mac_msg_parsing.c:271-385 | For every PDU, even an empty one, buffer, index, number and output are as specified |
| Rlc.AcknowledgedIs | MAC/mac_msg_parsing.c:279-325 | What each bit of an acknowledged-mode header does: status, poll, framing, extension and number |
| Rlc.UnacknowledgedIs | MAC/mac_msg_parsing.c:347-377 | Likewise for the unacknowledged mode |
| Rlc.SegmentFormat | MAC/mac_msg_parsing.c:306-309 | The framing of a split PDU: 0 whole, 1 first, 2 last, 3 any other part |
| Rlc.PdcpTakesOut | MAC/mac_msg_parsing.c:425-458 | What PDCP takes out on each kind of channel; user-plane control PDUs give nothing |
| Rlc.PdcpDecode | MAC/mac_msg_parsing.c:425-458 | Whenever the length to copy is not negative: the data without header and integrity code; control PDUs give nothing |
| Rlc.NegativeLengthIff | MAC/mac_msg_parsing.c:306-321 | Of a PDU of any length, sent whole, the length that PDCP copies is negative exactly on channels 1 and 2 if it is empty or its length, at most 2048, leaves 1 to 4 modulo 256 |
| Rlc.EmptyHandsUp | MAC/mac_msg_parsing.c:280-364 | For any left-over header and state, when an empty PDU outside transparent mode hands something up, and what |
| Rlc.EmptyIgnoredIff | MAC/mac_msg_parsing.c:271-385 | An empty PDU hands nothing up, whatever is left over, exactly in transparent mode |
| Rlc.Reassembled | MAC/mac_msg_parsing.c:306-321 | Nothing is handed up before the last part of any split, and then the whole PDU exactly if it has at most 255 bytes |
| Rlc.StackInverse | MAC/mac_msg_parsing.c:271-495 | RLC and PDCP undo themselves from any receiver state, and the sequence number arrives modulo 1024 |
| Checksum.FoldExact | MAC/mac_msg_parsing.c:761 | Folding keeps the sum modulo 65535, and only zero becomes zero |
| Checksum.FoldIsOnesSum | MAC/mac_msg_parsing.c:753-761 | Adding first and folding last is ones-complement addition word by word |
| Checksum.ComputeChecksum | MAC/mac_msg_parsing.c:753-764 | The loops end and give the complemented sum of the whole words |
| Checksum.TwoBytes | MAC/mac_msg_parsing.c:758 | Words are big-endian |
| Checksum.RfcExample | MAC/mac_msg_parsing.c:753-764 | The example of section 3 of RFC 1071 |
| Checksum.CheckIsZeroIff | MAC/mac_msg_parsing.c:891-892 | A filled-in field makes the buffer check to zero exactly if it is the checksum |
| Checksum.InsertedChecks | MAC/mac_msg_parsing.c:891-892 | The computed checksum does |
| Checksum.CheckedTail | MAC/mac_msg_parsing.c:847-848 | A part that checks to zero does not change the checksum of what precedes it |
| Checksum.OddByteIgnored | MAC/mac_msg_parsing.c:756 | The last byte of an odd buffer has no effect, unlike in RFC 1071 |
| Ping.Icmp | MAC/mac_msg_parsing.c:861-897 | Exactly the echo requests that fit are answered, with the reply in place |
| Ping.EchoReplyOk | MAC/mac_msg_parsing.c:887-893 | The reply checks to zero and carries the request's code, number and data |
| Ping.Ip | MAC/mac_msg_parsing.c:782-851 | Which packets are answered, and with what |
| Ping.AcceptedIff | MAC/mac_msg_parsing.c:787-821 | The packets that are answered, by their bytes |
| Ping.IpReplyOk | MAC/mac_msg_parsing.c:835-850 | Although summed over the whole packet, the header checks to zero by itself, and so does the ICMP part |
| Ping.HeaderFields | MAC/mac_msg_parsing.c:839-846 | The header goes back to the sender with the new length and is otherwise that of the request |
| JsmnSpec.SucceedsIff | MAC/jsmn.c:190-339 | The stack parser succeeds exactly on balanced texts whose tokens fit, and then agrees with counting |
| JsmnSpec.LexemeOf | MAC/jsmn.c:202-279 | Which character is which lexeme |
| JsmnSpec.PrimitiveLexeme | MAC/jsmn.c:81-100 | A primitive is the longest run of printable characters without : , ] } and white space; it is an error, -2, if any other character follows |
| JsmnSpec.StringLexeme | MAC/jsmn.c:130-184 | A string goes on by characters and well-formed escapes up to the first quote outside them; the error is -3 if the text ends first and -2 only for a malformed escape |
| JsmnSpec.StopsAt | MAC/jsmn.c:190-339 | Why parsing stops: at the end, with an open bracket as -3, at a lexical error, for want of a token as -1, or at a bracket that closes another kind or nothing as -2 |
| Jsmn.Parser.ParsePrimitive | MAC/jsmn.c:74-118 | The scan ends where the lexer says and the token covers it; on errors the position is kept |
| Jsmn.Parser.ParseString | MAC/jsmn.c:123-185 | The scan over escapes ends at the lexer's closing quote, with or without tokens |
| Jsmn.Parser.CloseBracket | MAC/jsmn.c:216-271 | The backward search pops the stack of open brackets, or reports a mismatch |
| Jsmn.Parser.Step | MAC/jsmn.c:197-326 | One character keeps the forest, the sizes, the parents and the final result |
| Jsmn.Parser.Parse | MAC/jsmn.c:190-339 | The result is the reference parser's; on success the tokens are those of the lexer in order, and a closed forest whose sizes count children, where the parent is the token before the colon that still rules, or else the innermost one; counting mode gives the lexer's count |
| Jsmn.RulesUnique | MAC/jsmn.c:279-295 | At most one token is before a colon that still rules, so that parents are determined |
| Jsmn.DisjointOrNested | MAC/jsmn.c:190-339 | Any two tokens are in order of their starts and disjoint or nested, each between its own brackets or quotes |
| Jsmn.FreshParse | MAC/jsmn.c:190-339 | A fresh parse succeeds exactly on balanced texts with enough tokens, and returns what counting returns |

## Left out

- SIMD log-MAP decoding, FFT and OFDM, equalisation, PUCCH, PSS and DRS: floating point or heuristics without an exact specification. `DlSch.SchDecode` holds around any decoder.
- Fixed buffers of 16800 entries in the coding chain: array parameters of the length needed take their place, except in `Gold` and `DlSch.Dlsch`, whose buffer sizes are kept.
- Machine integers: unbounded, except for `RateMatch.CounterFitsInt16`, the 32-bit counters of `TxPipeline`, the 32-bit sum of `Checksum.ComputeChecksum`, the sequence numbers and byte index of `Rlc`, and the clock modulo 1024.
- The offset and skip parameters of the dematching loops: fixed to the three sections that are used.
- crc16, the other tap lists and the broadcast and control channels that use them: the serial loop is proved for every tap list.
- Pdsch.AddPDSCH: one antenna port, and allocations that end below the central six blocks; the branch for allocations above the central blocks does not occur there. In `Pdsch.CellRS` the values of the reference symbols are an input.
- DeRateMatchLoops.DerateMatchTurbo: what is read behind a received block that is too short is not modelled, only when that happens.
- DlSch.SchDecode: likewise for received blocks of fewer than three times the coded length; nor are the received packet structure and the debug output modelled.
- MacTxScheduler.Scheduler.Callback: data and empty subframes in increasing order, with transmission starting at time zero. Whole runs are followed for at most three data subframes; with more, `MacTxScheduler.FirstCallback` shows that packets are lost, and `MacTx.LostForGood` that a lost recurring packet stays lost; the model says no more about the run after that. Without data subframes, the default, the source of IP packets must be one that gives nothing to send.
- MacTxTime.NextIPSubframe: without data subframes the program reads in front of its list for an IP packet that arrives; what it finds there is not modelled.
- The contents of SIB, RAR and RRC packets, rate selection tables and statistics: a response or packet is opaque data, and the transport block size found for an IP packet is an input.
- The LTE-U variant of the scheduler, PRACH statistics and logging.
- TxPipeline.StreamInOrder: memory ordering below single reads and writes of the shared indices is not modelled, nor the synchronisation preamble, failing driver calls, or a FIFO that is not empty at the start. The pipeline is modelled on values, as a state machine, because the threads interleave.
- MacPdu.Decode: what a write behind the caller's array does is not modelled, only when it happens; bytes of an SDU buffer beyond those copied are not modelled; up to two bytes behind the data may be read, as in the program.
- Rlc.PdcpDecode: what a copy of negative length does is not modelled, only when it happens.
- Rlc.Receiver.Decode: RLC extension headers beyond being ignored, the contents of STATUS PDUs, and one receiver per channel only.
- Ping.Ip: the byte swaps that the program leaves behind in the received packet.
- jsmn's strict mode and parent links, which are not compiled in.
- RRC and NAS parsing, hexadecimal helpers, UDP statistics, sockets and threads.
