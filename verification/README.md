# MoonProto client, verified

A Dafny 4 model of the parts of the MoonProto UDP client whose correctness rests on invariants: the SynLZ
codec, the reliable sliced transport in both directions, high-priority retries and batching, the handshake and
reconnect state machine, the pending request registry, the trades resubscribe sequence, and the exact
arithmetic of key import. `dafny verify dfyconfig.toml` checks everything.

How the model is organised:

- **SynLZ** (`SynLzFormat`, `SynLzDecoder`, `SynLzCompressor`, `SynLzRoundTrip`, `SynLzSizes`, `RleLz`). The loops
  of the code, on arrays, are proved equal to a decoder and a compressor on values. The round trip rests on a lag
  invariant: the decoder's table, once caught up, agrees with the compressor's at every slot that can be used.
- **Sliced transport, receiving** (`Slicing`, `Reassembly`, `SlicedReceiving`, `ExactlyOnce`). Delivery exactly
  once, over runs of packets in any order.
- **Sliced transport, sending** (`SentDatagrams`, `AckConfluence`, `SlicedRetry`, `SlicedSender`, `SenderRuns`,
  `SlicedSending`, `KeyedLists`, `Pipeline`, `Envelope`). The list of sent datagrams as a state machine and as an object.
- **Small commands** (`SendQueue`, `PendingHigh`, `MessageNumbers`, `HighSending`, `Batching`, `ReplayWindow`).
- **Where they meet** (`SendPhase`, `EndToEnd`).
- **Other protocols** (`Handshake`, `Connecting`, `ApiPending`, `TradesReconnect`) and **arithmetic** (`Calendar`, `KeyCipher`).

Conventions. Bytes are 8-bit vectors and byte arithmetic wraps. Times are unbounded integers of milliseconds,
passed in where the code reads a clock; random values and nonces are parameters. Floating-point delays, rates
and factors are exact real numbers with the code's rounding. AES-GCM is a pair of functions of which it is
assumed that opening undoes sealing, that sealing keeps the length and that a tag has 16 bytes. Derived session
keys stand for the token and random value they are derived from. Datagram numbers are unbounded serials whose
low 16 bits go on the wire. Automatic induction is switched off for every lemma: each proof is the one written.

What the proofs found:

- The round trip of the codec fails above 2^29 bytes, where the decoder refuses the declared size; below it
  holds for every input (`RoundTrip`). The sender's size gate looks at the compressed size only. Up to a PMTU of
  24025 nothing that passes the gate is that long, so everything sent can be decoded (`GateKeepsLimit`,
  `EncryptedInverse`); at every larger PMTU, and the peer may set any 16-bit value, some payload passes the gate
  and cannot be decoded (`LongPayloadLost`).
- The guard on the copy source of a back-reference never fires (`CorruptIffOverrun`).
- A datagram abandoned for 9 seconds can shut out the next one in its slot: cleanup refreshes the slot in the
  same packet that brings the new first block, and the new command is acknowledged in full but never delivered
  (`LeftoverShutsOut`, `UnopenedIsLost`). `ExactlyOnceDelivery` states the exact condition. A sender that has seen
  every block acknowledged can therefore be wrong (`CoveredAndLost`), exactly in that case
  (`CoveredMeansDelivered`).
- Blocks of another command under a number still in progress are mixed into it (`MixedBlocks`).
- A demand for a new hello resets the message counter and leaves commands pending, so a number can be pending
  twice until the next handshake clears them (`ReusedNumber`). A handshake in turn resets the counter before the
  new keys are there, so a command sent in between repeats a number under the old ones (`ReusedBeforeKeys`). The
  retry budget, spacing and contents are not affected (`RetryAccounting`); `NamedIffFree` and `FreshWithoutReset`
  say exactly when numbers are.
- The branch of the offline check for a zero token is never taken (`OfflineKeeps`).
- The key cipher returns at once on an empty password, while its encoder does not (`DecodeUndoesEncode`).

## Model

| member | source | states |
|---|---|---|
| `SynLzFormat.SlotIgnoresFourthByte` | src/compression.rs:238-248 | the table slot depends on three bytes only, so the decoder's one-byte read-ahead cannot change it |
| `SynLzFormat.FlagWordAnnounces` | src/compression.rs:424-468 | the control word written for a run of items announces literal or back-reference correctly at every bit |
| `SynLzDecoder.CopyForward` | src/compression.rs:286-290 | the byte-by-byte copy repeats an overlapping stretch |
| `SynLzDecoder.CopyWithin` | src/compression.rs:291-294 | copying apart stretches at once is the byte-by-byte copy |
| `SynLzDecoder.CatchUp` | src/compression.rs:300-312 | before a copy ends the table records every position up to where the copy started |
| `SynLzDecoder.DecodeLiteral` | src/compression.rs:224-253 | one literal in place is one step of the decoder on values, table lag included |
| `SynLzDecoder.DecodeReference` | src/compression.rs:254-320 | one back-reference in place is one step of the decoder on values |
| `SynLzDecoder.DecodeGroup` | src/compression.rs:217-324 | the items of one control word, in place, are the steps of the decoder on values |
| `SynLzDecoder.DecompressInner` | src/compression.rs:202-328 | both nested loops on the output and offset arrays compute the run of the decoder, for arbitrary bytes |
| `SynLzDecoder.DecompressBounded` | src/compression.rs:72-128 | header, size limit, decoding and truncation together |
| `SynLzDecoder.LiteralKeepsSound` | src/compression.rs:224-253 | a literal keeps every table entry at or below the output position and never reports corruption |
| `SynLzDecoder.ReferenceKeepsSound` | src/compression.rs:254-320 | a back-reference keeps every table entry at or below the output position; corruption means the declared size would be overrun |
| `SynLzDecoder.CorruptIffOverrun` | src/compression.rs:273-284 | on any bytes whatever the decoder reports corruption exactly when the declared size would be overrun: the guard on the copy source never fires |
| `SynLzDecoder.RefusedIff` | src/compression.rs:72-128 | exactly these bytes are refused: a truncated header, a declared size above the limit, or items that overrun the declared size |
| `SynLzCompressor.ExtendMatch` | src/compression.rs:431-440 | the match loop finds the longest repeat below its limit |
| `SynLzCompressor.EmitItem` | src/compression.rs:424-468 | writing one item patches the current control word and opens the next after 32 items |
| `SynLzCompressor.AppendLiterals` | src/compression.rs:471-481 | the tail loop appends the remaining bytes as literals with fresh control words |
| `SynLzCompressor.CompressInner` | src/compression.rs:394-482 | the loops over source, offset and cache tables write exactly the encoded items |
| `SynLzCompressor.Compress` | src/compression.rs:339-391 | header and body together |
| `SynLzCompressor.MpCompress` | src/compression.rs:487-498 | compression is used above 64 bytes and only for savings of five percent |
| `SynLzCompressor.ItemsCover` | src/compression.rs:394-482 | the items cover the input exactly, and there are at most as many as bytes |
| `SynLzCompressor.CompressedSize` | src/compression.rs:339-343 | the output is at most len + len/8 + 8 bytes, so the reserved capacity is never exceeded |
| `SynLzSizes.CompressedLength` | src/compression.rs:339-482 | the exact length of the output: header, item bodies, and a control word for every 32 items begun |
| `SynLzSizes.CompressedLeast` | src/compression.rs:394-482 | for every input, 273 bytes need more than 25 eighths of a byte of output |
| `SynLzSizes.TriplesCompressed` | src/compression.rs:394-482 | the bytes 0, 0, 1 repeated come within 19 bytes of that bound, at every length |
| `SynLzRoundTrip.SameOffset` | src/compression.rs:202-482 | at a usable back-reference the decoder's lagging table holds the compressor's position |
| `SynLzRoundTrip.LiteralInStep` | src/compression.rs:202-482 | a literal keeps the two tables in step up to the lag |
| `SynLzRoundTrip.MatchInStep` | src/compression.rs:202-482 | a back-reference brings the two tables back in step |
| `SynLzRoundTrip.MatchReproduces` | src/compression.rs:202-482 | the decoder copies from the right place and reproduces the covered bytes |
| `SynLzRoundTrip.RunReproduces` | src/compression.rs:202-482 | from any item on, decoding the compressor's stream reproduces the rest of the input |
| `SynLzRoundTrip.DecodedSize` | src/compression.rs:96-128 | decoding any bytes yields at most the declared size, which is within the limit |
| `SynLzRoundTrip.RoundTrip` | src/compression.rs:68-391 | decompressing the compressor's output gives the input back if and only if the input has at most 2^29 bytes |
| `RleLz.ReadVarU32` | src/compression.rs:152-166 | the shift loop reads the seven-bit groups, at most five, and refuses more than 32 bits |
| `RleLz.ReadBack` | src/compression.rs:152-166 | every 32-bit number is read back as written, whatever follows it |
| `RleLz.RleDecompressExact` | src/compression.rs:168-194 | the size checks on the way refuse exactly the texts that are malformed or expand to another size |
| `RleLz.Unpacked` | src/compression.rs:135-150 | a result always has the expected size |
| `RleLz.UnpackBack` | src/compression.rs:135-150 | a payload packed in either mode is unpacked to what it stands for |
| `Flags.AddHas` | src/protocol/slicing.rs:164-165 | setting a block's bit adds that block and no other |
| `Flags.UnionHas` | src/client/transport_state.rs:31-40 | the union of two flag arrays holds the blocks of both and no other |
| `Slicing.MakeSlices` | src/client/protocol_sliced_send.rs:116-171 | the loop cuts command byte and data into consecutive stretches behind slice headers |
| `Slicing.JoinChunksPrefix` | src/client/protocol_sliced_send.rs:148-171 | the stretches joined in order are the command again |
| `Reassembly.AddPieceBlocks` | src/protocol/slicing.rs:157-182 | a piece adds its block, with its bytes, unless present or out of range; no other block changes |
| `Reassembly.AddPieceFlags` | src/protocol/slicing.rs:157-182 | the acknowledgement flags are exactly the blocks received |
| `Reassembly.CompleteIffAll` | src/protocol/slicing.rs:184-186 | the count reaches the block count exactly when every block has arrived |
| `Reassembly.Assemble` | src/protocol/slicing.rs:191-222 | the buffer handed over as it stands, or rebuilt, is the blocks in block order without the command byte; nothing before completion |
| `Reassembly.MessageIsWhole` | src/protocol/slicing.rs:191-222 | whatever the order of arrival, the blocks of a command assemble to that command |
| `SlicedReceiving.HeaderParses` | src/protocol/slicing.rs:84-112 | a slice header is read back as written |
| `SlicedReceiving.HandledKeepsInv` | src/protocol/slicing.rs:393-541 | every packet keeps counts, spans and flags of all datagrams in progress exact |
| `SlicedReceiving.SlicingReceiver.ClearOld` | src/protocol/slicing.rs:546-559 | going through the table in any order, each old slot loses exactly one datagram and is refreshed; young slots are untouched |
| `SlicedReceiving.SlicingReceiver.DoCleanup` | src/protocol/slicing.rs:363-368 | cleanup runs at most every 5 seconds |
| `SlicedReceiving.SlicingReceiver.IsNewDatagram` | src/protocol/slicing.rs:372-379 | a number is new exactly when its slot has been quiet for 9 seconds, and then reserves it |
| `SlicedReceiving.SlicingReceiver.OnNewSliced` | src/protocol/slicing.rs:393-541 | new, finished, changed and known datagrams, the piece, the acknowledgement and the completion mark |
| `SlicedReceiving.SlicingReceiver.HandleSliced` | src/client/protocol_recv_handlers.rs:184-278 | a datagram is removed once handed on, and the invariant holds again |
| `ExactlyOnce.CollectStep` | src/protocol/slicing.rs:393-541 | while blocks are missing a packet adds its block, acknowledges exactly what has arrived, and delivers when nothing is missing |
| `ExactlyOnce.ExactlyOnceDelivery` | src/protocol/slicing.rs:363-559 | over any run within a reservation, with blocks repeated, reordered and mixed with any other traffic, a command is delivered exactly once and unchanged if and only if its number could be opened and all blocks came; otherwise never. An old leftover under the same number does not matter |
| `ExactlyOnce.AcknowledgementsExact` | src/protocol/slicing.rs:393-541 | every acknowledgement of such a run confirms exactly the blocks that have arrived |
| `ExactlyOnce.UnopenedIsLost` | src/protocol/slicing.rs:427-442 | a number that cannot be opened is acknowledged in full and its command never delivered in that reservation |
| `ExactlyOnce.LeftoverShutsOut` | src/protocol/slicing.rs:363-442 | a run from a new receiver: one of two blocks of number 5, then 9002 ms later the only block of number 4101 together with the cleanup; that block is acknowledged in full and its command never delivered |
| `ExactlyOnce.MixedBlocks` | src/protocol/slicing.rs:393-541 | a run from a new receiver in which the second block of another command under the same number completes a command nobody sent: why the number has to be free or its leftover old |
| `ExactlyOnce.ReceivePacket` | src/client/protocol_recv.rs:388-393 | clock, cleanup and slice handling on the object are one step of such a run |
| `ExactlyOnce.ReceiveAll` | src/client/protocol_recv.rs:388-393 | any sequence of packets given to the object is a run of the kind the results above are about |
| `EndToEnd.CoveredAndDelivered` | src/client/protocol_helpers.rs:164-227 | a run from a new receiver in which acknowledgements cover a command that is delivered |
| `EndToEnd.CoveredAndLost` | src/client/protocol_helpers.rs:164-227 | a run from a new receiver in which acknowledgements cover a command that is never delivered |
| `EndToEnd.CoveredMeansDelivered` | src/client/protocol_helpers.rs:164-227 | if the acknowledgements a sender collected cover all blocks, the receiver has delivered the command, once and unchanged, if and only if it could open the number |
| `SentDatagrams.MinClock` | src/client/transport_state.rs:87-93 | the least clock among unacknowledged blocks, absent exactly when all are acknowledged |
| `SentDatagrams.FallbackUsedIff` | src/client/transport_state.rs:87-93 | the fallback of a refresh matters exactly when no block is missing |
| `SentDatagrams.AckNeedsNoFallback` | src/client/protocol_helpers.rs:164-227 | after new acknowledgements the refresh never uses its fallback: a datagram with nothing missing leaves instead |
| `SlicedRetry.VisitNeedsNoFallback` | src/client/protocol_sliced_send.rs:275-319 | after the sends of a visit the refresh never uses its fallback |
| `SentDatagrams.AckedLive` | src/client/protocol_helpers.rs:174-216 | merging keeps a datagram in order and removes it exactly when all blocks are covered |
| `AckConfluence.AckedTwice` | src/client/protocol_helpers.rs:174-216 | two merges in a row are one merge of the union |
| `AckConfluence.AcksSettle` | src/client/protocol_helpers.rs:164-227 | a batch of acknowledgements does to each datagram what their union does at once |
| `AckConfluence.AcksConfluent` | src/client/protocol_helpers.rs:164-227 | any order and repetition of the same acknowledgements leaves the same flags, clocks, retry counts and datagrams |
| `AckConfluence.LeavesWhenCovered` | src/client/protocol_helpers.rs:178-227 | a datagram leaves exactly when the union of flags covers its blocks |
| `SlicedRetry.SendDueMeaning` | src/client/protocol_sliced_send.rs:284-315 | the blocks sent are missing, have the oldest clock, come once and in order, and stop only when the budget is used up |
| `SlicedRetry.VisitProgress` | src/client/protocol_sliced_send.rs:276-315 | an overdue datagram with budget left sends a block |
| `SlicedRetry.VisitLeftover` | src/client/protocol_sliced_send.rs:284-319 | a block left behind keeps the datagram's clock |
| `SlicedRetry.VisitRetryCounts` | src/client/transport_state.rs:75-85 | a retry is counted only after the delay since the last one and only when every oldest block was sent again |
| `SlicedRetry.PassBudget` | src/client/protocol_sliced_send.rs:265-315 | a pass sends less than one slice beyond its budget |
| `SlicedRetry.PassNoRepeats` | src/client/protocol_sliced_send.rs:275-315 | no block is sent twice in a pass |
| `SlicedRetry.PassLeftover` | src/client/protocol_sliced_send.rs:275-331 | a due block left behind means the budget is used up, and the pass remembers a clock at least as old |
| `SlicedRetry.PathDelayExceedsRtt` | src/client/protocol_sliced_send.rs:4-14 | the path delay exceeds the round trip by more than 9 ms |
| `SlicedRetry.ClientLimitBound` | src/client/protocol_sliced_send.rs:16-22 | the budget of a pass is at least 1311 bytes |
| `KeyedLists.RemoveKeyClears` | src/client/protocol_sliced_send.rs:29-45 | in any list with one element per key, removing the first match removes the key and no other |
| `KeyedLists.ThinnedKeeps` | src/client/protocol_sliced_send.rs:29-45 | dropping elements and changing the others keeps every order and distinctness that the changes carry along |
| `SlicedSender.InsertKeeps` | src/client/protocol_sliced_send.rs:191-198 | inserting before the first longer datagram keeps the list ordered by block count, first come first among equals |
| `SenderRuns.ReachableInv` | src/client/protocol_sliced_send.rs:29-381 | in every reachable state each listed datagram has a missing block, its clock is the least missing clock, its retry count is within its maximum, the list is ordered, keys are unique, and rate and delay factor are in range |
| `SenderRuns.RateDirection` | src/client/protocol_helpers.rs:101-113 | good reports never lower the rate, poor ones never raise it |
| `SenderRuns.TickSends` | src/client/protocol_sliced_send.rs:207-377 | a tick sends only missing blocks, none twice, and less than the budget plus one slice |
| `SenderRuns.TickProgress` | src/client/protocol_sliced_send.rs:234-315 | with the gate open and a datagram overdue, a tick sends at least one block |
| `SenderRuns.TickLeftover` | src/client/protocol_sliced_send.rs:234-331 | after a block was left behind the gate is open at every later tick with the same round trip |
| `SlicedSending.MergeAckFlags` | src/client/transport_state.rs:31-40 | the byte loop computes the union and reports whether anything is new |
| `SlicedSending.SendDueBlocks` | src/client/protocol_sliced_send.rs:284-315 | the inner loop over blocks, in place |
| `SlicedSending.VisitDatagram` | src/client/protocol_sliced_send.rs:275-331 | one datagram: send, refresh, count the retry |
| `SlicedSending.WalkList` | src/client/protocol_sliced_send.rs:275-381 | the outer loop with removal of given-up datagrams from the back |
| `SlicedSending.SenderObject.ApplyUKeyCleanup` | src/client/protocol_sliced_send.rs:29-45 | each keyed command removes the older datagram with its key |
| `SlicedSending.SenderObject.CreateSliced` | src/client/protocol_sliced_send.rs:116-198 | a command that passed the gate enters the list in its place and opens the retry gate |
| `SlicedSending.SenderObject.ApplySlicedAck` | src/client/protocol_helpers.rs:164-227 | the first datagram with the number is merged, refreshed or removed |
| `SlicedSending.SenderObject.RetrySliced` | src/client/protocol_sliced_send.rs:207-381 | gate, delay factor, pass, budget flag and removal |
| `SlicedSending.SenderObject.OnPing` | src/client/protocol_helpers.rs:77-113 | round trip and rate after a ping |
| `SlicedSending.SenderObject.SendBatch` | src/client/protocol_send.rs:90-93 | keys of the whole batch first, then every command; the invariant is kept |
| `SlicedSending.SenderObject.CheckSeningData` | src/client/protocol_send.rs:79-102 | the sliced part of a send phase in its fixed order keeps the invariant |
| `Envelope.PaddingFound` | src/crypto/aes_gcm_codec.rs:64-84 | padding of one to sixteen bytes is recognised |
| `Envelope.DecryptUndoes` | src/crypto/aes_gcm_codec.rs:98-160 | decrypting undoes encrypting and the expansion is nonce, tag and padding |
| `Envelope.HeaderParses` | src/protocol/crypted.rs:44-62 | the crypto header is read back as written |
| `Pipeline.UnpackUndoes` | src/client/protocol_io.rs:12-19 | unpacking gives back what was packed if and only if it was not compressed or has at most 2^29 bytes |
| `Pipeline.GateKeepsLimit` | src/client/protocol_sliced_send.rs:62-80 | up to a PMTU of 24025 a payload whose compressed form passes the size gate has at most 2^29 bytes |
| `Pipeline.LongPayloadLost` | src/client/protocol_sliced_send.rs:62-80 | at every larger PMTU some payload passes the size gate and is not decoded, encrypted or not |
| `Pipeline.EncryptedInverse` | src/client/protocol_helpers.rs:296-406 | an encrypted command with a fresh message number is decoded to what was sent, under exactly that condition, and so without condition up to a PMTU of 24025 |
| `Pipeline.PlainInverse` | src/client/protocol_helpers.rs:296-406 | an unencrypted command is decoded to what was sent exactly when no plaintext gate drops it and that condition holds; up to a PMTU of 24025 the gates alone decide |
| `Pipeline.FitsBlocks` | src/client/protocol_sliced_send.rs:62-119 | what passes the size gate needs 1 to 256 blocks, so block numbers fit a byte |
| `Pipeline.SliceFits` | src/client/protocol_sliced_send.rs:148-171 | every slice is at most the PMTU less 15 bytes |
| `Pipeline.CreateSlicedObject` | src/client/protocol_sliced_send.rs:53-171 | compression, gate, encryption and slicing of one command |
| `Pipeline.CommandSurvives` | src/client/protocol_sliced_send.rs:53-171 | an encrypted command whose slices come in any order amid other traffic is handed on once, if its number could be opened and all slices came, and not at all otherwise; what is handed on decodes to what was sent, for every payload up to a PMTU of 24025 |
| `SendQueue.LastWriterWins` | src/client/send_queue.rs:259-275 | after any pushes a queue holds exactly the commands no later one with the same key replaced, in order, and one per key |
| `SendQueue.LowKeepsAll` | src/client/send_queue.rs:259-275 | nothing is dropped from the low queue |
| `SendQueue.SendQueues.PushSendCmdInt` | src/client/send_queue.rs:259-275 | a push keeps all three queues equal to that reference |
| `SendQueue.SendQueues.TakeInto` | src/client/send_queue.rs:277-286 | the queues are handed over whole and left empty |
| `ReplayWindow.CheckedAccepts` | src/protocol/slider.rs:40-73 | a number is accepted exactly when it is not behind the window and was not accepted before, and the window remembers exactly what was accepted |
| `ReplayWindow.AcceptedOnce` | src/protocol/slider.rs:40-73 | in any run no number is accepted twice |
| `ReplayWindow.AcceptedAll` | src/protocol/slider.rs:40-73 | a number that was not seen and is not overtaken by a whole window is accepted |
| `ReplayWindow.ReportExact` | src/protocol/slider.rs:90-131 | a report confirms exactly the accepted numbers of the upper half, trimmed words included |
| `ReplayWindow.BuildAckHalf` | src/protocol/slider.rs:90-110 | the trimming loop cuts trailing zero words only |
| `ReplayWindow.Slider.Shift` | src/protocol/slider.rs:51-59 | words move down in place and zeros come in |
| `ReplayWindow.Slider.CheckRevd` | src/protocol/slider.rs:40-73 | sliding and marking in place |
| `Batching.SplitGroup` | src/client/protocol_recv.rs:478-499 | the receiver's cursor loop stops at the first item that does not fit |
| `Batching.SplitUndoes` | src/client/protocol_recv.rs:478-499 | splitting undoes grouping |
| `Batching.EmittedMerges` | src/client/protocol_direct_send.rs:257-273 | a tick emits every command once: buffered ones in their order, direct ones in theirs |
| `Batching.GroupFits` | src/client/protocol_direct_send.rs:213-255 | a grouped packet fits the PMTU, header included, and no 16-bit length is truncated |
| `Batching.BatchingConserves` | src/client/protocol_direct_send.rs:213-273 | for any commands and any PMTU the packets of a tick give the receiver exactly the bag of commands that was sent, if and only if no packet with a single command carries a group command |
| `Batching.PlainTold` | src/client/protocol_direct_send.rs:213-273 | commands that are not groups meet that condition at every PMTU |
| `Batching.LoneGroupLost` | src/client/protocol_direct_send.rs:213-239 | a group command given alone is split by the receiver and lost |
| `Batching.DirectSender.FlushSendBatch` | src/client/protocol_direct_send.rs:213-239 | one buffered command goes out plain, several as a group |
| `Batching.DirectSender.DoSendMpDataWire` | src/client/protocol_direct_send.rs:257-273 | buffer, flush first, or send directly |
| `Batching.DirectSender.SendTick` | src/client/protocol_direct_send.rs:195-273 | the commands of a tick and its flush send exactly the packets of the reference, and what the receiver gets out of those packets is the same bag of commands, under exactly that condition |
| `PendingHigh.CompressOnce` | src/client/protocol_direct_send.rs:46-49 | compressing a stored command again changes nothing |
| `PendingHigh.RetryAllKeeps` | src/client/protocol_direct_send.rs:107-139 | a retry pass keeps the log in order and every command it leaves within its budget |
| `PendingHigh.RetryAllOther` | src/client/protocol_direct_send.rs:107-139 | a retry pass changes nothing for a command that is not pending |
| `PendingHigh.RetryAccounting` | src/client/protocol_direct_send.rs:45-139 | over every run, through handshakes, counter resets and changes of keys, a command is transmitted at most max(1, max_retries) times, more than 200 ms apart, always with the same number, command and bytes, asking for an acknowledgement exactly if it may be retried; at most one pending command has a given key |
| `MessageNumbers.NamedIffFree` | src/client/protocol_direct_send.rs:51-58 | after a batch each number still names one command under the keys in force exactly if every number the batch takes is free: unused under these keys and not pending |
| `MessageNumbers.NumbersName` | src/client/protocol_direct_send.rs:51-58 | over every run whose batches take free numbers, a number names one command under each set of keys |
| `MessageNumbers.FreshWithoutReset` | src/client/socket_lifecycle.rs:8-37 | the numbers taken are free by themselves on every run in which nothing new is encrypted between a reset of the counter and the next keys |
| `MessageNumbers.DistinctIffFree` | src/client/socket_lifecycle.rs:8-10 | wherever the counter stands, after a batch pending numbers are distinct exactly if none of the numbers under which the batch will be pending is still pending |
| `MessageNumbers.ReusedNumber` | src/client/socket_lifecycle.rs:8-10 | a run in which the counter is reset alone: two commands are pending under one number, and one confirmation takes both away |
| `MessageNumbers.ReusedBeforeKeys` | src/client/socket_lifecycle.rs:31-37 | a run in which a command is sent after the outbound data is cleared and before the new keys: it repeats a number under the old ones |
| `HighSending.HighSender.SendHItem` | src/client/protocol_direct_send.rs:45-105 | first transmission and entry into the pending list |
| `HighSending.HighSender.ApplyUKeyCleanup` | src/client/protocol_direct_send.rs:27-43 | each keyed command removes the first pending one with its key |
| `HighSending.HighSender.RetryPendingH` | src/client/protocol_direct_send.rs:107-139 | due commands are resent with their present budget, then counted down and dropped when exhausted |
| `HighSending.HighSender.ApplyRegularHlAck` | src/client/protocol_direct_send.rs:15-25 | confirmed commands leave, the others stay in order |
| `HighSending.HighSender.FullReset` | src/client/socket_lifecycle.rs:8-10 | the counter starts again, pending commands stay, and the accounting of transmissions stays in force |
| `HighSending.HighSender.ClearOutboundSessionData` | src/client/socket_lifecycle.rs:31-37 | nothing stays pending, and the accounting of past transmissions stays in force |
| `HighSending.HighSender.SendHigh` | src/client/protocol_send.rs:96-99 | cleanup by key and first transmissions of a tick are one step of a run, and keep the accounting and one pending command per key |
| `SendPhase.QueueFeedsSender` | src/client/protocol_send.rs:79-102 | what the queue hands over has one command per key and 1 to 256 slices each |
| `SendPhase.ConfirmedWasAccepted` | src/client/protocol_direct_send.rs:15-25 | a command is dropped as confirmed only if the peer accepted its number |
| `SendPhase.ExecutedAtMostOnce` | src/client/protocol_direct_send.rs:45-139 | whatever the network does with the transmissions of a run, no number is accepted twice, and all transmissions of a command carry its number and bytes; where batches took free numbers, equal numbers under equal keys are the same command |
| `Handshake.ResetKeeps` | src/client/socket_lifecycle.rs:8-26 | a full reset keeps the invariants exactly if the client is neither authorized nor to reconnect softly |
| `Handshake.BeganKeeps` | src/client/protocol_connect.rs:10-33 | a primary handshake keeps the invariants and waits for the server's answer; it is a cold one only for a client that never had a session |
| `Handshake.ReboundKeeps` | src/client/protocol_connect.rs:35-46 | rebinding keeps session and authorization and sends one packet that names the token |
| `Handshake.HelloSentSends` | src/client/protocol_connect.rs:112-140 | a due hello is exactly one packet, whatever the state, and stamps the clock; otherwise nothing is sent |
| `Handshake.HelloSentKeeps` | src/client/protocol_connect.rs:112-140 | resends never restart or change a window; only an idle client opens one, and it opens now |
| `Handshake.OfflineKeeps` | src/client/protocol_connect.rs:142-170 | a stale authorized client rebinds; its token is never zero, so the fallback branch is never taken |
| `Handshake.TimeoutKeeps` | src/client/protocol_connect.rs:172-194 | a window that outlives the check is at most 15 seconds old; sockets are recreated more than 15 seconds apart |
| `Handshake.EndKeeps` | src/client/protocol_connect.rs:196-224 | a soft disconnect keeps the keys of the session, a hard one leaves nobody authorized or waiting |
| `Handshake.TailKeeps` | src/client/protocol_tick.rs:410-420 | the four checks and the disconnect together keep every invariant, and an open window is the one that was open before or began in this tick |
| `Handshake.WhoAreYouKeeps` | src/client/protocol_recv_handlers.rs:108-154 | only the answer to the current handshake is taken; the invariant survives exactly when an accepted answer carries a token other than zero, and then both keys are those of the answer and two packets sealed with them go out |
| `Handshake.FineKeeps` | src/client/protocol_recv_handlers.rs:156-182 | Fine authorizes exactly a client that waits for it, in answer to its current handshake, with the derived keys in place |
| `Handshake.WantNewHelloKeeps` | src/client/protocol_recv_state.rs:18-26 | an accepted demand ends the authorization, and the next due hello opens a handshake for a new session |
| `Handshake.NeedHelloAgainKeeps` | src/client/protocol_recv_state.rs:28-41 | heeded at most once in 700 ms; authorization and session stay, and the next due hello names the token |
| `Handshake.StepKeeps` | src/client/protocol_recv_state.rs:14-86 | every event keeps the invariants, and only such a Fine ever authorizes |
| `Handshake.SessionKeys` | src/client/protocol_connect.rs:21-224 | over every run: authorized, waiting for Fine or reconnecting softly means token, both keys and acknowledgement session belong together; a first handshake has no token; packets sent name and are sealed for the current token |
| `Handshake.BoundedWindow` | src/client/protocol_connect.rs:35-194 | after every tick of every run an open window is at most 15 seconds old and began no earlier than the last socket recreation |
| `Connecting.Connection.FullReset` | src/client/socket_lifecycle.rs:8-26 | the reset in place; it keeps the invariants exactly if the client is neither authorized nor to reconnect softly |
| `Connecting.Connection.BeginPrimaryHello` | src/client/protocol_connect.rs:10-33 | afterwards the client waits for an answer in a window that began now, with no token, not authorized, one Hello sent, all invariants kept |
| `Connecting.Connection.SendRebindHelloAgain` | src/client/protocol_connect.rs:35-46 | with a session and a window, one packet naming the token is sent; session, authorization and invariants stay |
| `Connecting.Connection.CheckHelloSend` | src/client/protocol_connect.rs:112-140 | one packet if a hello is due and none otherwise; the window stays or opens now; invariants kept |
| `Connecting.Connection.CheckOfflineReconnect` | src/client/protocol_connect.rs:142-170 | when due the client rebinds with a token that is not zero; the window stays or opens now; invariants kept |
| `Connecting.Connection.CheckReconnectTimeout` | src/client/protocol_connect.rs:172-194 | a window still open is at most 15 seconds old, and sockets are recreated more than 15 seconds apart; invariants kept |
| `Connecting.Connection.CheckDeadZone` | src/client/protocol_connect.rs:196-204 | afterwards a client neither authorized nor told to connect has heard from the server within 5 seconds; invariants kept |
| `Connecting.Connection.DoForceDisconnect` | src/client/protocol_connect.rs:206-224 | nobody is authorized or waiting afterwards; a soft disconnect keeps the session and its keys; invariants kept |
| `Connecting.Connection.TransportReconnectTailTick` | src/client/protocol_tick.rs:410-420 | the checks in their order keep the invariants and the window, and a window still open is at most 15 seconds old |
| `Connecting.Connection.OnWhoAreYou` | src/client/protocol_recv_handlers.rs:108-154 | an accepted answer with a token makes both keys and the acknowledgement session those of the answer and is replied to twice; invariants kept exactly if the token is not zero |
| `Connecting.Connection.OnFine` | src/client/protocol_recv_handlers.rs:156-182 | the client is authorized afterwards exactly if it was before or the packet answers its current handshake; then it has its keys; invariants kept |
| `Connecting.Connection.OnWantNewHello` | src/client/protocol_recv_state.rs:18-26 | an accepted demand ends the authorization, and the next due hello opens a new session; invariants kept |
| `Connecting.Connection.OnNeedHelloAgain` | src/client/protocol_recv_state.rs:28-41 | heeded at most once in 700 ms, after which the next due hello names the token; invariants kept |
| `Connecting.Connection.Take` | src/client/protocol_recv_state.rs:14-86 | every event on the object is a step of the state machine, so its results hold for every run of the object |
| `ApiPending.AtMostOneResponse` | src/api_pending.rs:150-178 | under every interleaving a waiter gets at most one response, and to its own request |
| `ApiPending.FailRestores` | src/api_pending.rs:167-174 | a failed parse restores the waiter with its own deadline, only while unexpired and only if no newer registration took the place |
| `ApiPending.StepKeeps` | src/api_pending.rs:81-183 | a waiter is in the registry, in one dispatch or answered, never in two places |
| `ApiPending.Pending.SweepExpired` | src/api_pending.rs:81-89 | the sweep drops exactly the expired entries, at most once a second |
| `ApiPending.Pending.RegisterWithTimeout` | src/api_pending.rs:108-120 | sweep, then the new entry replaces an older one |
| `ApiPending.Pending.Take` | src/api_pending.rs:154-165 | the first critical section |
| `ApiPending.Pending.Reinsert` | src/api_pending.rs:167-174 | the second critical section after a failed parse |
| `TradesReconnect.TickAdds` | src/client/subscription_api.rs:406-471 | a tick sends at most one request, and only while the stream is wanted: a resubscribe when one is scheduled, an unsubscribe when none is |
| `TradesReconnect.RepairAdds` | src/client/subscription_api.rs:375-389 | only an unwanted stream is repaired, and not within 5 seconds of the last check |
| `TradesReconnect.StepKeeps` | src/client/subscription_api.rs:375-483 | every tick, answer and repair keeps the order of the sequence |
| `TradesReconnect.StartsApart` | src/client/subscription_api.rs:391-404 | two sequences start at least 5 seconds apart |
| `TradesReconnect.ResubscribeFollows` | src/client/subscription_api.rs:432-450 | a resubscribe comes at least 100 ms after its own unsubscribe, with nothing of the sequence in between |
| `TradesReconnect.ResubscribeSafety` | src/client/subscription_api.rs:375-483 | over every run the requests keep these distances, and an unsubscribe pending and a resubscribe scheduled never stand together |
| `TradesReconnect.Reconnect.StartTradesReconnectSequence` | src/client/subscription_api.rs:391-404 | for a wanted stream the latest request is this unsubscribe, it is waited for, and nothing else is scheduled |
| `TradesReconnect.Reconnect.TickTradesReconnectSequence` | src/client/subscription_api.rs:406-471 | keeps all distances between requests, never leaves both a wait and a schedule, and queues at most one request, only for a wanted stream |
| `TradesReconnect.Reconnect.CloseTradesUnsubscribeWait` | src/client/subscription_api.rs:473-483 | only the answer to the unsubscribe that is waited for schedules the resubscribe, and it ends the wait; the invariants stay |
| `TradesReconnect.Reconnect.RepairUnwantedTradesStream` | src/client/subscription_api.rs:375-389 | a repair is sent only for an explicit unsubscribe, at most every 5 seconds; the invariants stay |
| `Calendar.YearFound` | src/key_import.rs:376-378 | the corrected quotient finds the year of the era |
| `Calendar.DateOfStep` | src/key_import.rs:378-382 | within a year each day number is a valid date and the next one is the next date |
| `Calendar.NextDay` | src/key_import.rs:372-384 | for every day number the result is a valid proleptic Gregorian date and the next day number gives the next date |
| `Calendar.Epoch` | src/key_import.rs:372-384 | day 0 is 1 January 1970 |
| `Calendar.StampInRange` | src/key_import.rs:358-370 | for every 64-bit millisecond count the year fits 32 bits and hour and minute are in range |
| `KeyCipher.ByteMaps` | src/key_import.rs:456-513 | each position's byte map is a bijection |
| `KeyCipher.DecodeBuffer` | src/key_import.rs:450-514 | the loop decodes every byte in place, and nothing without a password |
| `KeyCipher.EncodeBuffer` | src/key_import.rs:520-564 | the loop encodes every byte in place |
| `KeyCipher.DecodeUndoesEncode` | src/key_import.rs:450-564 | decoding undoes encoding if and only if there is a password or nothing to encode |
| `KeyCipher.EncodeUndoesDecode` | src/key_import.rs:450-564 | with a password encoding undoes decoding |

## Left out

- Sockets, polling, port binding, name resolution, sleeps and threads: only their effect on state is modelled.
- AES-GCM, SipHash, key derivation and transport masking themselves: they are parameters with contracts.
- Event dispatch, order, market and report state, command parsers and public handles: thin wrappers or easy members.
- Metrics, tracing, error emulation, telemetry and the averages `avg_over_heat` and `avg_dup_count`; the latter is a parameter of the retry tick.
- The key container, its checksum and base64, and the conversion of floating-point dates to milliseconds.
- Order book and candle resubscription: the trades sequence is the harder one.
- Unencrypted and low-priority commands have no retry accounting: they are sent once through the batch buffer.
- Connecting.Connection.CheckHelloSend: session values, plans and clocks are three record fields rather than one field each, because nothing aliases them.
- SlicedReceiving.SlicingReceiver.OnNewSliced: progress counters and the datagram number kept inside a datagram are not modelled, because nothing is decided by them.
- ExactlyOnce.ExactlyOnceDelivery: is for a number whose datagram, if there is one, is older than 9 seconds and alone in its slot when a cleanup is due; otherwise blocks of two commands can mix, as MixedBlocks shows.
- AckConfluence.AcksConfluent: is for distinct wire numbers in the list; after 65536 datagrams with an old one still listed, acknowledgements go to the first match.
- SenderRuns.ReachableInv: not-a-number reports and factors are not modelled, because the numbers are exact reals.
- Handshake.SessionKeys: assumes that an accepted server answer carries a token other than zero; WhoAreYouKeeps shows that this is exactly what is needed. The session-close packet, application tokens and the message counter reset are not part of this machine.
- TradesReconnect.ResubscribeSafety: assumes that handlers use times less than 5 seconds ahead of the tick of their loop iteration.
- Batching.BatchingConserves: is for one PMTU between two flushes, as in a send phase.
