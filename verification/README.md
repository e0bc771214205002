# A verified model of the KTP tunnel agent

The agent carries tunnel sessions over KTP, a small frame protocol. This project models the parts where a mistake would
lose, repeat, reorder or invent something, and proves that they do not:

- **Wire formats** (`Ktp`, `TunnelSession`): the 24-byte frame header, its validation rules, and the length-prefixed
  session payloads. Both directions of every codec are related: a decode succeeds exactly on encodings.
- **Streams** (`ByteQueue`, `ReadCursor`, `StreamCodec`, `KtpCrypto`, `RecordCodec`, `EncryptedStream`, `Relay`): two
  buffering codecs with a read cursor, sequence-numbered sealed records, the socket read and write loops, and the relay
  between two encrypted connections. `ByteQueue` states once, for any parser that never changes its mind, what both codecs
  then inherit: results do not depend on how the stream is cut into chunks.
- **Session runtime** (`PendingBytes`, `FrameNotifier`, `SessionAccounting`, `SessionClose`, `FrameQueue`, `DwellHistogram`,
  `BatchLimit`): concurrent code, modelled as atomic steps of several threads (`Runs`). Theorems hold in every state of
  every interleaving.
- **Listeners** (`Listeners`, `Ready`): reconciliation of running listeners with the plan, and the READY report built from it.
- **Side computations** (`Dns`, `ResetDate`, `NetStatic`): DNS queries and replies, billing reset dates, traffic accounting.

`Bytes`, `Text` and `Sorting` hold shared definitions.

Objects whose fields the program updates are classes with the same operations, loops are loops with invariants, and each
method is proved against a function or a direct description of its result. The AEAD cipher is a pair of functions (seal, open)
restricted by one law, `KtpCrypto.Lawful`: opening succeeds exactly on what sealing produced under the same nonce and
header, and returns it. The law can be met (`KtpCrypto.LawfulCipherExists`), and no property of a concrete cipher is used. Sockets are scripts of read results; bind results, write
results and file saves are parameters. Clocks are parameters.

## What does not hold

Where the code falls short of the obvious law, the project shows a run or an input and says exactly how far the law goes:

- An opened record may carry plaintext after its frame, which is dropped (`KtpCrypto.OpenRecordIff` says exactly what opens).
- A frame that cannot be encoded leaves 24 placeholder bytes in the caller's buffer (`KtpCrypto.KtpCryptoSeal.AppendSealedFrame`).
- A frame notifier whose generation has reached the largest value can lose a wakeup
  (`FrameNotifier.SaturatedGenerationLosesWakeup`); below it none is lost (`FrameNotifier.NoLostWakeup`).
- A close that overtakes the open's counting leaves the active counter too high
  (`SessionAccounting.CloseBeforeCountDrifts`). The counter is exact if and only if no insert replaced a live session and no close
  lowered it at zero (`SessionAccounting.ActiveExactIff`), which holds when no close is counted while an open is half counted.
- A closed session can still queue a frame, if and only if the queue has capacity and its handle was not registered while someone
  could still push for it (`SessionClose.MaySpeakClosedIff`, `SessionClose.MaySpeakIff`).
- When a session's writer stops on an error, the bytes still queued for it stay reserved (`PendingBytes.BytesStayReserved`); the
  counter returns to zero if and only if none were queued (`PendingBytes.QuietCounterIsZeroIff`).
- Interface counters that go back between flushes can overflow the flushed sum (`NetStatic.ResetCounterCanWrap`); traffic is
  conserved if and only if no flushed sum does (`NetStatic.TrafficIsConserved`).

## Model

| member | source | states |
|---|---|---|
| Ktp.FrameType.FromByte | src/ktp.rs:26-43 | succeeds with a type exactly when the type's byte is the given one; any other byte is reported as unknown |
| Ktp.FrameLeg.FromByte | src/ktp.rs:61-69 | the same for legs |
| Ktp.AppendFrameBytes | src/ktp.rs:141-159 | appends the frame's encoding exactly when the frame is valid and its payload fits; otherwise names the error and leaves the vector alone |
| Ktp.EncodeFrameInto | src/ktp.rs:136-139 | replaces the vector's contents by the encoding, or empties it and names the first rule the frame breaks |
| Ktp.EncodeFrame | src/ktp.rs:130-134 | what it returns decodes to the same frame; it fails exactly on invalid frames, with the first rule the frame breaks |
| Ktp.EncodedIsDecoded | src/ktp.rs:161-210 | any byte string that starts with a valid frame's encoding decodes to that frame |
| Ktp.DecodedIsEncoded | src/ktp.rs:161-210 | any byte string that decodes starts with the canonical encoding of the result, and the result is valid |
| Ktp.DecodeFrameIff | src/ktp.rs:161-230 | decoding yields a frame if and only if the frame is valid, within the limit, and the bytes start with its encoding |
| Ktp.EncodingsArePrefixFree | src/ktp.rs:141-159 | no encoding is a prefix of a different frame's encoding |
| Ktp.ConcatenationParsesUniquely | src/ktp.rs:141-159 | two lists of valid frames with the same concatenated encoding are the same list |
| Ktp.DecodeIgnoresLaterBytes | src/ktp.rs:161-210 | a verdict other than "truncated" is not changed by more bytes |
| Ktp.RefusalIs | src/ktp.rs:212-230 | why a frame is refused, type by type: the leg must be the connection exactly for the six connection frames, the session id zero exactly for them, the payload at most 1 MiB, in that order |
| Ktp.HeadedDecode | src/ktp.rs:161-210 | bytes behind a proper header decode to: too large, truncated, the rule the frame breaks, or the frame |
| Ktp.UnheadedDecode | src/ktp.rs:161-210 | any other 24 bytes or more are refused for the header field that is wrong, with its value |
| Bytes.FirstWeighsMost | src/ktp.rs:161-210 | fields are read most significant byte first |
| TunnelSession.WriteString | src/tunnel_session.rs:103-113 | appends length and bytes exactly when the string has fewer than 65536 bytes, else appends nothing and names the field |
| TunnelSession.EncodeSessionOpenPayload | src/tunnel_session.rs:44-53 | the first string too long is reported; otherwise the four fields in order |
| TunnelSession.EncodeSessionErrorPayload | src/tunnel_session.rs:80-88 | the same for code and message |
| TunnelSession.PayloadCursor.ReadNextU64 | src/tunnel_session.rs:125-137 | takes eight big-endian bytes off the rest, or fails and stays put |
| TunnelSession.PayloadCursor.ReadNextU16 | src/tunnel_session.rs:139-151 | takes two big-endian bytes off the rest, or fails and stays put |
| TunnelSession.PayloadCursor.ReadNextString | src/tunnel_session.rs:153-164 | takes a length-prefixed UTF-8 string off the rest; on a failure behind the length the cursor stays behind the length |
| TunnelSession.PayloadCursor.ExpectEnd | src/tunnel_session.rs:166-172 | fails exactly when bytes are left |
| TunnelSession.DecodeSessionOpenPayload | src/tunnel_session.rs:55-67 | the cursor reads compute the functional decoder |
| TunnelSession.DecodeSessionAcceptPayload | src/tunnel_session.rs:73-78 | the cursor reads compute the functional decoder |
| TunnelSession.DecodeSessionErrorPayload | src/tunnel_session.rs:90-101 | the cursor reads compute the functional decoder |
| TunnelSession.TakeStringIff | src/tunnel_session.rs:153-164 | a string is read exactly when the bytes are its encoding followed by the rest |
| TunnelSession.OpenPayloadCanonical | src/tunnel_session.rs:44-67 | decoding gives a payload if and only if its strings fit and the bytes are exactly its encoding |
| TunnelSession.AcceptPayloadCanonical | src/tunnel_session.rs:69-78 | decoding gives a rule id if and only if the bytes are exactly its eight-byte encoding |
| TunnelSession.ErrorPayloadCanonical | src/tunnel_session.rs:80-101 | decoding gives a payload if and only if its strings fit and the bytes are exactly its encoding |
| TunnelSession.BadStringFails | src/tunnel_session.rs:153-164 | a complete string that is not UTF-8 is reported as such, by field |
| TunnelSession.CutOpenFails | src/tunnel_session.rs:55-67 | every proper prefix of an open payload is reported as truncated, at the field where it is cut |
| TunnelSession.OpenTrailerFails | src/tunnel_session.rs:55-67 | bytes behind an open payload are reported with their number |
| TunnelSession.CutErrorFails | src/tunnel_session.rs:90-101 | every proper prefix of an error payload is reported as truncated, at the field where it is cut |
| TunnelSession.ErrorTrailerFails | src/tunnel_session.rs:90-101 | bytes behind an error payload are reported with their number |
| TunnelSession.Utf8Iff | src/tunnel_session.rs:153-164 | the byte check accepts exactly the encodings of sequences of Unicode scalar values (section 3 of RFC 3629) |
| ReadCursor.CursorBuffer.Push | src/ktp_transport.rs:64-75 | accepts a chunk exactly when the unread bytes plus the chunk stay within the limit, and then appends it to the unread bytes |
| ReadCursor.CursorBuffer.CompactIfNeededForPush | src/ktp_transport.rs:122-128 | leaves the unread bytes alone and makes room without exceeding the limit physically |
| ReadCursor.CursorBuffer.Consume | src/ktp_transport.rs:130-133 | drops the first bytes of the unread ones and counts them as consumed; the live bytes count as moved exactly when their position changed; bytes moved plus the offset never exceed bytes consumed |
| ReadCursor.CursorBuffer.CompactAfterConsume | src/ktp_transport.rs:135-149 | leaves the unread bytes alone, counts all of them as moved exactly when the offset changed, and re-establishes that the dead prefix is below 64 KiB or shorter than the live bytes |
| ReadCursor.CursorBuffer.Compact | src/ktp_transport.rs:151-157 | the buffer becomes exactly the unread bytes |
| ByteQueue.ChunkingIndependence | src/ktp_transport.rs:54-158 | for every sequence of pushes and reads, the frames read, followed by what the rest parses to, are what the accepted bytes parse to in one piece |
| ByteQueue.NeverOverLimit | src/ktp_transport.rs:64-75 | over any run the unread bytes stay within the limit |
| ByteQueue.ErrorsAreFinal | src/ktp_transport.rs:77-112 | once the head of the queue is malformed, every later read reports the same error whatever is pushed |
| ByteQueue.FramesArrive | src/ktp_transport.rs:387-420 | for any sender the parser understands and any chunking, the frames read are the first ones sent, no read fails, and the receiver stays in step with the sender |
| ByteQueue.AllFramesArrive | src/ktp_transport.rs:387-420 | when nothing is under way and a read comes back empty, exactly the frames sent were read and no byte is left |
| ByteQueue.EncodingParses | src/ktp_transport.rs:387-420 | the whole encoding, parsed in one piece, is the frames sent |
| StreamCodec.StreamParser | src/ktp_transport.rs:77-112 | the frame decoder is incremental: it takes at least one byte per frame, and a frame or an error is never changed by bytes pushed later |
| StreamCodec.KtpStreamCodec.Push | src/ktp_transport.rs:64-75 | refuses exactly over the limit, reporting attempted and allowed length |
| StreamCodec.KtpStreamCodec.NextFrame | src/ktp_transport.rs:77-112 | delivers, fails or waits as the decoder says of the unread bytes, and removes exactly the delivered frame |
| StreamCodec.KtpStreamCodec.RunAll | src/ktp_transport.rs:54-158 | any run of the cursor codec gives the results and contents of the plain byte queue; its buffer layouts account for every byte consumed or moved; in each of them the physical buffer is within its limit and the bytes moved within the bytes consumed |
| StreamCodec.StreamStepDelivers | src/ktp_transport.rs:77-112 | a frame is delivered if and only if it is valid, within both limits, and its complete encoding heads the unread bytes |
| StreamCodec.HeadedVerdict | src/ktp_transport.rs:77-112 | every verdict on bytes with a proper header: too large, over the buffer limit, wait, the broken rule, or the frame |
| StreamCodec.UnheadedFails | src/ktp_transport.rs:77-112 | any other 24 bytes or more fail at once, for a header field |
| StreamCodec.PartialFrameWaits | src/ktp_transport.rs:77-112 | any proper prefix of an admissible encoding makes the codec wait |
| StreamCodec.StreamParserUnderstandsEncoder | src/ktp_transport.rs:77-112 | the decoder understands the encoder: complete frames are delivered, partial ones wait |
| StreamCodec.EncodedFramesArrive | src/ktp_transport.rs:54-158 | concatenated encodings pushed in any accepted chunks are read back as those frames in order, without an error |
| KtpCrypto.NonceInjective | src/ktp_transport.rs:543-548 | different directions or sequence numbers give different nonces |
| KtpCrypto.CryptoHeaderIff | src/ktp_transport.rs:489-541 | a header parses if and only if the bytes start with the header the sender would write for these fields |
| KtpCrypto.KtpCryptoSeal.AppendSealedFrame | src/ktp_transport.rs:283-310 | refuses exactly on an exhausted sequence or an invalid frame, naming which and why; otherwise appends the frame's record, steps the sequence and uses a nonce not used before; a refusal moves neither sequence nor nonce log |
| KtpCrypto.KtpCryptoSeal.SealFrame | src/ktp_transport.rs:268-272 | the record of the frame at the current sequence, or the reason of the refusal and no step |
| KtpCrypto.NonceLogExtends | src/ktp_transport.rs:283-310 | the log of used nonces stays one nonce per sequence number, in order |
| KtpCrypto.NoncesNeverRepeat | src/ktp_transport.rs:283-310 | over both directions of a connection no nonce is used twice |
| KtpCrypto.KtpCryptoOpen.OpenNextRecord | src/ktp_transport.rs:331-361 | computes the functional opener; the expected sequence steps exactly on success |
| KtpCrypto.OpenRecordIff | src/ktp_transport.rs:331-361 | a record opens to a frame if and only if it starts with what a sender at the expected sequence seals for some plaintext that starts with the frame |
| KtpCrypto.SealedIsOpened | src/ktp_transport.rs:331-361 | a record sealed at the expected sequence opens to its frame |
| RecordCodec.RecordParser | src/ktp_transport.rs:397-420 | the record decoder is incremental, sequence number included |
| RecordCodec.KtpCryptoRecordCodec.Push | src/ktp_transport.rs:387-395 | refuses exactly over the limit and then changes nothing |
| RecordCodec.KtpCryptoRecordCodec.NextFrame | src/ktp_transport.rs:397-420 | delivers, fails or waits as the decoder says; it waits if and only if the record is incomplete, a complete record that is no seal under the expected sequence fails authentication, and an error consumes neither bytes nor sequence number |
| RecordCodec.KtpCryptoRecordCodec.RunAll | src/ktp_transport.rs:364-481 | the same for the record codec |
| RecordCodec.KtpCryptoRecordCodec.NextFramesInto | src/ktp_transport.rs:422-435 | the frames taken are the first of all those the buffered bytes parse to, as many as asked for; the call fails exactly when the parse fails before that many |
| RecordCodec.WaitsIff | src/ktp_transport.rs:397-420 | the codec waits if and only if fewer than 24 bytes are there, or the header of a record that fits the buffer is there and the record is incomplete |
| RecordCodec.ForeignBytesFail | src/ktp_transport.rs:503-541 | 24 bytes or more that are no record header of this direction are refused as malformed |
| RecordCodec.HeadedVerdict | src/ktp_transport.rs:331-420 | every verdict on a record whose header is there: over the buffer limit; when complete, exhausted, another sequence, no seal and hence unauthentic, a plaintext that does not decode, or the frame |
| RecordCodec.TakesTheFirst | src/ktp_transport.rs:422-435 | a batch is the first frames of the complete parse, with its failure if that comes before the maximum, and what stays behind parses to the rest |
| RecordCodec.PartialRecordWaits | src/ktp_transport.rs:397-420 | any proper prefix of an admissible record makes the codec wait |
| RecordCodec.CompleteRecordOpens | src/ktp_transport.rs:397-420 | a complete record at the expected sequence is delivered whatever follows it |
| RecordCodec.RecordParserUnderstandsSender | src/ktp_transport.rs:283-420 | the receiver understands the sender at every sequence number |
| RecordCodec.OnlyTheNextRecordIsAccepted | src/ktp_transport.rs:331-361 | a sealed record is delivered if its sequence is the expected one; an earlier or later one is refused as a mismatch |
| RecordCodec.SealedFramesArrive | src/ktp_transport.rs:283-420 | frames sealed from sequence 0 and pushed in any accepted chunks are read back in order without an error; the sender's sequence is the receiver's plus the records not yet delivered; when all has arrived, all is read |
| EncryptedStream.KtpEncryptedStream.SendFrame | src/ktp_transport.rs:649-658 | sends exactly the frame's record, a prefix of it when the write fails, and nothing when the frame is refused; error and sequence in each case |
| EncryptedStream.KtpEncryptedStream.SendFrames | src/ktp_transport.rs:660-675 | sends the records of all frames in order at consecutive sequences, a prefix of them when the write fails, and nothing when one is refused; the error is that of the first refused frame and the sequence has moved past the frames before it |
| EncryptedStream.SealBatch | src/ktp_transport.rs:660-669 | the sealing loop stops at the first refused frame, or leaves the records of all frames in the buffer |
| EncryptedStream.OnlyExhaustionStops | src/ktp_transport.rs:660-669 | a batch of valid frames is refused only for want of sequence numbers |
| EncryptedStream.KtpEncryptedStream.FillFromSocket | src/ktp_transport.rs:686-696 | one socket read: end of stream, error, over the limit, or the bytes appended |
| EncryptedStream.KtpEncryptedStream.NextFrame | src/ktp_transport.rs:677-698 | the read loop computes the functional reader: result, contents and what is left of the socket |
| EncryptedStream.KtpEncryptedStream.NextFramesInto | src/ktp_transport.rs:709-740 | the batched read loop computes the functional batch reader, which `EncryptedStream.ReadBatchExactly` describes |
| EncryptedStream.ReadFrameExactly | src/ktp_transport.rs:677-698 | for any socket: a single read takes reads while the codec waits, and ends with the first frame or failure of what has arrived, or where the socket is dry, fails, is closed or overruns the buffer |
| EncryptedStream.ReadBatchExactly | src/ktp_transport.rs:709-740 | the same for a batch: it returns all frames that have arrived, up to the maximum, or the failure before that many, and leaves the rest readable |
| EncryptedStream.ReadFrameInStep | src/ktp_transport.rs:677-698 | on a well-formed stream a read returns the next frame sent, or ends without a codec error and without losing its place |
| EncryptedStream.ReadBatchInStep | src/ktp_transport.rs:709-740 | the same for a batch: the next frames sent, at most the maximum |
| EncryptedStream.NothingIsLostAcrossCalls | src/tunnel_data.rs:1117-1130 | over any sequence of single and batched reads, each possibly dropped while it waits on the socket, the frames returned are the first ones sent and the reader stays in step |
| EncryptedStream.SealedStreamIsReadBack | src/ktp_transport.rs:612-740 | if each record is at most the buffer limit less 16383 bytes, no read size from 1 to 16384 makes a well-formed stream exceed the buffer limit or fail; no frame is lost, repeated or reordered; and a waiting reader on a dry socket with nothing under way has been given every frame |
| EncryptedStream.ParkedCallHasAll | src/ktp_transport.rs:677-740 | after any calls, a single or batched read that waits on the socket when nothing is under way leaves no frame unread |
| Relay.RecordKeepsBounds | src/ktp_transport.rs:806-826 | frames stay at most 64 times batches and the largest batch at most 64 |
| Relay.StatisticsOf | src/ktp_transport.rs:806-826 | for any batch sizes the counters are their sum, how many are not zero, and the largest |
| Relay.PassBatch | src/ktp_transport.rs:867-891 | forwards exactly the batch it read; it never fails because a decoded frame is refused by the encoder |
| Relay.KtpEncryptedTcpFrameRelay.RelayLeftToRightBatch | src/ktp_transport.rs:867-878 | advances this direction by one forwarded batch and leaves the other direction as it was |
| Relay.KtpEncryptedTcpFrameRelay.RelayRightToLeftBatch | src/ktp_transport.rs:880-891 | the same for the other direction |
| Relay.KtpEncryptedTcpFrameRelay.RelayBidirectionalRounds | src/ktp_transport.rs:893-904 | rounds that end without an error forward that many batches in each direction |
| Relay.ReadBatchEncodable | src/ktp_transport.rs:867-891 | every frame of a batch that was read can be encoded again |
| Relay.ForwardTakes | src/ktp_transport.rs:867-891 | a round passes on all frames that have arrived, up to the batch size and at least one, and leaves the rest readable |
| Relay.RoundsCount | src/ktp_transport.rs:893-904 | error-free rounds count exactly one batch each per direction |
| Relay.RelayIsTransparent | src/ktp_transport.rs:853-905 | over any error-free rounds the far side opens exactly the first of the frames sealed by the near side, although keys and sequences differ; the frame counter grows by that many and stays at most 64 times the batches |
| PendingBytes.PendingIsOutstanding | src/tunnel_async_runtime.rs:1062-1094 | in every interleaving of callers and writer, stale reads and spurious failures of the exchange included, the counter is the total of reserved and unreleased bytes and at most the limit |
| PendingBytes.ReleaseNeverSaturates | src/tunnel_async_runtime.rs:1062-1094 | every release subtracts its full amount |
| PendingBytes.QuietCounterIsZeroIff | src/tunnel_async_runtime.rs:1014-1033 | after the writer stopped and all callers finished, the counter is zero if and only if the receiver was never dropped with payload bytes queued |
| PendingBytes.BytesStayReserved | src/tunnel_async_runtime.rs:1014-1033 | for any two payloads within the limit there is a run in which writing the first fails and the second ends up reserved with nobody left to release it |
| FrameNotifier.NoLostWakeup | src/tunnel_async_runtime.rs:227-264 | in every interleaving, while the consumer waits on a generation below the largest and a frame is queued, the wait can end or the frame's producer has yet to notify |
| FrameNotifier.SaturatedGenerationLosesWakeup | src/tunnel_async_runtime.rs:227-264 | at the largest generation there is a run that leaves the consumer waiting with a queued frame and no notify to come |
| SessionAccounting.BooksBalance | src/tunnel_async_runtime.rs:484-503 | in every interleaving of opens and closes, active plus uncounted sessions are the map's size plus removals not yet uncounted plus drift; rule counters balance in total; each removal is counted closed once |
| SessionAccounting.QuietCounters | src/tunnel_async_runtime.rs:785-834 | at rest the active counter is the map's size plus overwritten entries plus clipped subtractions |
| SessionAccounting.ActiveExactIff | src/tunnel_async_runtime.rs:484-503 | at rest the active counter is never below the map's size, and equal if and only if no insert replaced a live session and no close lowered the counter at zero |
| SessionAccounting.RuleExactIff | src/tunnel_async_runtime.rs:484-503 | with fresh ids, at rest, a rule's counter is the number of its sessions if and only if no close lowered that counter at zero |
| SessionAccounting.CountersAreExact | src/tunnel_async_runtime.rs:785-834 | with fresh ids, if no close is counted while an open is half counted, then at rest the active counter is the map's size and the sum of the rule counters, and each rule's counter the number of its sessions |
| SessionAccounting.CountingAtOnceIsExact | src/tunnel_async_runtime.rs:785-834 | the same equalities when inserting and counting are one step |
| SessionAccounting.CloseBeforeCountDrifts | src/tunnel_async_runtime.rs:909-964 | there is a run with one session, opened and closed, that ends at rest with an empty map and an active count of one |
| SessionAccounting.ActiveSessionsBounded | src/tunnel_async_runtime.rs:785-801 | while at most n opens at a time are between capacity check and count, the active counter never exceeds the session limit less one plus n; a limit of zero admits none |
| SessionAccounting.AdmittedIff | src/tunnel_async_runtime.rs:957-964 | an open is admitted if and only if fewer sessions are active than allowed; a refused open and a failed dial leave everything as it was |
| SessionAccounting.OpenGoesThrough | src/tunnel_async_runtime.rs:777-815 | from any state below the limit an idle open can complete, with its session in the map and both counters one higher |
| SessionAccounting.CloseGoesThrough | src/tunnel_async_runtime.rs:909-929 | from any state a session in the map can be closed, which takes it out of the map and both counters |
| SessionAccounting.OpenAndCloseCancel | src/tunnel_async_runtime.rs:777-929 | opening an unused id and closing it again restores map and counters |
| SessionAccounting.RuleCountersBalance | src/tunnel_async_runtime.rs:484-503 | when no id is opened twice nothing is overwritten, and each rule's counter balances on its own against the sessions of that rule |
| FrameQueue.AsyncTunnelFrameQueue.TryPush | src/tunnel_async_runtime.rs:295-313 | appends the frame and its time exactly when there is room |
| FrameQueue.AsyncTunnelFrameQueue.Pop | src/tunnel_async_runtime.rs:315-322 | takes the first frame and records how long it was queued; none exactly when empty |
| FrameQueue.AsyncTunnelFrameQueue.Drain | src/tunnel_async_runtime.rs:324-339 | splits the queue at the smaller of the maximum and the length and records, in order, how long each taken frame was queued |
| FrameQueue.AsyncTunnelFrameQueue.Clear | src/tunnel_async_runtime.rs:368-378 | empties the queue and returns how many frames there were |
| FrameQueue.AsyncTunnelFrameQueue.RemoveSessionFrames | src/tunnel_async_runtime.rs:380-390 | keeps the frames of other sessions in order with their times and returns the number removed |
| FrameQueue.DwellBetween | src/tunnel_async_runtime.rs:404-409 | the recorded time of a frame is the time between its push and its removal |
| FrameQueue.WithoutIsPurge | src/tunnel_async_runtime.rs:380-390 | a purge leaves no frame of the session, the subsequence of every other session, and splits the frames without loss |
| SessionClose.MaySpeakIff | src/tunnel_async_runtime.rs:909-1012 | from any state in which no frame of the session is queued, some continuation queues one if and only if the queue has capacity and the open has still to announce or to spawn, or the reader runs |
| SessionClose.ClosedSessionStaysSilent | src/tunnel_async_runtime.rs:909-951 | once a close that awaited the registered reader has completed, no frame of that session is ever in the outbound queue again |
| SessionClose.MaySpeakClosedIff | src/tunnel_async_runtime.rs:909-1060 | in any state of any run, a session in the map that is not being closed may be closed completely and then queue a frame if and only if the queue has capacity, its reader handle is not registered, and someone can still push for it |
| SessionClose.NoFrameIsLost | src/tunnel_async_runtime.rs:295-390 | in every interleaving the accepted frames are exactly those delivered, purged or queued |
| SessionClose.OtherSessionsKeepOrder | src/tunnel_async_runtime.rs:380-390 | until the queue is cleared, a session that was not purged has all its accepted frames delivered or queued, in their order |
| SessionClose.FramesKeepOrder | src/tunnel_async_runtime.rs:295-390 | in every state of every run, purges and clears included, the frames delivered and queued are a subsequence of the frames accepted |
| SessionClose.SessionsLeaveTheMapOnce | src/tunnel_async_runtime.rs:909-1012 | in every run a session is in the map exactly while no close has taken it and its reader has not ended, so it leaves the map once |
| DwellHistogram.BucketIndex | src/tunnel_async_runtime.rs:574-579 | the first bucket whose bound is not below the sample, or the overflow bucket |
| DwellHistogram.CumulativeCount | src/tunnel_async_runtime.rs:581-602 | the first buckets of a histogram add up to the samples within the last bound |
| DwellHistogram.RankIsNearest | src/tunnel_async_runtime.rs:581-602 | the rank is the nearest rank: the least number of samples that reaches the percentage |
| DwellHistogram.Percentile | src/tunnel_async_runtime.rs:581-602 | the running-sum loop computes the first bucket that reaches the rank |
| DwellHistogram.ScanOfHistogram | src/tunnel_async_runtime.rs:581-602 | on a histogram of samples the scan finds the first bound with at least rank samples within it |
| DwellHistogram.PercentileRefinesNearestRank | src/tunnel_async_runtime.rs:558-602 | the result is the least table bound not below the rank-th smallest sample, or the largest sample when that one exceeds 1,000,000 |
| DwellHistogram.PercentilesAreOrdered | src/tunnel_async_runtime.rs:558-602 | a higher percentage never gives a smaller result |
| DwellHistogram.PercentileGrows | src/tunnel_async_runtime.rs:558-602 | raising samples never lowers the result |
| DwellHistogram.P95OfFew | src/tunnel_async_runtime.rs:558-602 | of fewer than twenty samples the 95th percentile is the largest sample rounded up to the table, or itself beyond it |
| BatchLimit.RecentDwell.Record | src/tunnel_async_runtime.rs:437-445 | the ring holds the last sixteen samples of the history |
| BatchLimit.RecentDwell.TakeSnapshot | src/tunnel_async_runtime.rs:447-460 | count, total, maximum and percentiles of the last sixteen samples, with p50 <= p95 <= p99 |
| BatchLimit.Tally | src/tunnel_async_runtime.rs:447-460 | one pass builds the histogram, the saturated total and the maximum |
| BatchLimit.ComputeDrainLimit | src/tunnel_data.rs:1874-1881 | 1 to 64 always; 64 under the fixed policy; under the adaptive one the severe cap when a recent sample reaches the severe threshold, and, when all stay below it, the elevated cap for an elevated sample or too many sessions and 64 without either |
| BatchLimit.SevereSampleCaps | src/tunnel_async_runtime.rs:76-99 | one of the last sixteen samples at the severe threshold brings the limit to the severe cap |
| BatchLimit.ElevatedLoadCaps | src/tunnel_async_runtime.rs:76-99 | below the severe threshold, one at the elevated threshold or as many sessions as the session threshold bring it to the elevated cap |
| BatchLimit.LoadKeepsWithinCap | src/tunnel_async_runtime.rs:76-99 | under a valid tuning either load keeps it within the elevated cap |
| BatchLimit.NoLoadNoCap | src/tunnel_async_runtime.rs:76-99 | without load, or under the fixed policy, it is 64 |
| BatchLimit.PolicyFalls | src/tunnel_async_runtime.rs:76-99 | neither more sessions nor a larger p95 raises the adaptive result, if the capped severe limit is at most the elevated one, or p95 does not change or is severe already |
| BatchLimit.LoadNeverRaisesIff | src/tunnel_async_runtime.rs:76-99 | under the adaptive policy, raising recent samples or the session count never raises the limit if and only if the severe cap is at most the elevated one, both cut off at 1 and 64, or the severe threshold is at most the first table bound; through window, histogram, percentile, policy and clamp |
| BatchLimit.LoadNeverRaisesLimit | src/tunnel_async_runtime.rs:897-907 | under either policy and any tuning that passes validation, load never raises the limit, which stays in 1 to 64 |
| Listeners.PlanMembers | src/tunnel_runtime.rs:1056-1071 | the plan holds exactly the specs, field by field, of the enabled TCP ingress rules of this transport, sorted by rule id |
| Listeners.PlanIsDistinct | src/tunnel_runtime.rs:1056-1071 | distinct rule ids give distinct ids in the plan |
| Listeners.UsesTransportIff | src/tunnel_runtime.rs:1056-1086 | up to letter case and white space, the KTP transport takes the rules that name it, and any other transport the rules that name websocket or nothing |
| Listeners.SameListenerIff | src/tunnel_runtime.rs:713-717 | two specs are the same listener if and only if rule id, port, trimmed address and trimmed allowlist agree |
| Text.TrimIs | src/tunnel_runtime.rs:713-717 | trimming removes white space from both ends, all of it and nothing else |
| Listeners.SharedTunnelRuleState.SetListenerHealth | src/tunnel_runtime.rs:181-189 | replaces the entry of the same listener, keeps all others, sorted |
| Listeners.SharedTunnelRuleState.SortHealth | src/tunnel_runtime.rs:734-743 | sorts by listener, rule id first, and keeps the entries |
| Listeners.SharedTunnelRuleState.RetainListenerHealthForSpecs | src/tunnel_runtime.rs:723-732 | keeps exactly the entries of planned listeners, in order |
| Listeners.SharedTunnelRuleState.SetActiveTcpListeners | src/tunnel_runtime.rs:197-220 | the active list is sorted; running entries of inactive listeners go; each active listener has an entry |
| Listeners.TunnelTcpRuntime.SyncActiveListenerSnapshot | src/tunnel_runtime.rs:511-518 | the active list is the handles by id, every running entry is active, every handle has an entry |
| Listeners.TunnelTcpRuntime.DrainListenerRuntimeEvents | src/tunnel_runtime.rs:520-543 | the loop over queued events computes the functional drain |
| Listeners.TunnelTcpRuntime.DropUnplanned | src/tunnel_runtime.rs:454-475 | only handles whose endpoint is still planned stay, and handles and health entries are all planned |
| Listeners.TunnelTcpRuntime.StartPlanned | src/tunnel_runtime.rs:477-503 | the start loop computes the functional one; entries of kept listeners are untouched, a started listener has a running entry, and a failed one, for distinct ids, an entry with the error |
| Listeners.TunnelTcpRuntime.RefreshListeners | src/tunnel_runtime.rs:452-505 | handles are those of the functional reconciliation; the active list is the handles sorted by id; every health entry is planned; every running entry is active; every handle has an entry; kept listeners keep theirs, started ones are running, failed ones carry their error; each handle has the port, address and allowlist of the plan entry with its id |
| Listeners.HandleListUnique | src/tunnel_runtime.rs:511-518 | the list of handles by id is unique |
| Listeners.DrainedExactly | src/tunnel_runtime.rs:520-543 | a handle survives the drain exactly when no event names its listener, and the listeners reported ended are exactly those that were handled and named |
| Listeners.StartedExactly | src/tunnel_runtime.rs:476-505 | kept handles stay; a missing rule gets one exactly when its planned listener did not just end and binds |
| Listeners.RefreshFollowsPlan | src/tunnel_runtime.rs:452-505 | for distinct ids, after a refresh a planned rule has a handle if and only if it was running and did not end, or was not running and binds; a running one is left as it is |
| Listeners.UpIff | src/tunnel_runtime.rs:452-505 | for distinct ids, after a refresh a planned listener has a running entry if and only if it was running, did not end and was not recorded in trouble, or was not running and binds; one that does not bind has its error recorded |
| Ready.ServesIff | src/tunnel_runtime.rs:861-905 | a side is served exactly when nothing is reported for it, and what is reported names the rule |
| Ready.ApplyReadySide | src/tunnel_runtime.rs:861-905 | the rule is listed for its side exactly when it is served, and exactly its listener trouble and its remaining issues are reported, in order and without repeats |
| Ready.BuildReadyState | src/tunnel_runtime.rs:801-859 | the lists are strictly ascending: an id is in the egress list if and only if an enabled TCP egress rule of this transport has it and its preflight checks found nothing, and in the ingress list if and only if such an ingress rule is served; a preflight code is reported if and only if it was found for a side its rule plays and is not its own taken port; listener statuses and misplaced rules are reported exactly; nothing is reported twice |
| Ready.ServesEgressIff | src/tunnel_runtime.rs:861-905 | an egress rule is served if and only if its preflight checks found nothing |
| Ready.RuleFailuresIff | src/tunnel_runtime.rs:801-981 | what is reported for a rule: each preflight code of a side it plays, except a taken port of its own listener; the listener status; a misplaced transport |
| Ready.ServesIngressIff | src/tunnel_runtime.rs:861-981 | when every running entry is of a running listener, an ingress rule is served if and only if its listener is up and the preflight checks found nothing but its port in use |
| Ready.RefreshAndReport | src/tunnel_runtime.rs:259-268 | a report built after a refresh lists an ingress rule only if the handle under its id listens on its port, address and allowlist and has a running entry; for distinct rule ids, a planned rule is listed if and only if the preflight checks found nothing but its port in use and the refresh found or brought its listener up |
| ResetDate.ResetIsLatest | src/linux_proc.rs:1321-1337 | the result is a date not after today, and no reset date of any month lies between |
| ResetDate.ResetIsSomeReset | src/linux_proc.rs:1321-1337 | the result is the reset date of some month |
| ResetDate.ResetIsIdempotent | src/linux_proc.rs:1321-1337 | the reset date of a reset date is itself |
| ResetDate.ResetIsMonotone | src/linux_proc.rs:1321-1337 | a later day never has an earlier reset date |
| ResetDate.NextMonth | src/linux_proc.rs:2959-2971 | in day numbers of the Gregorian calendar, the month lengths lead from each first of the month to the next |
| ResetDate.MonthsAddUp | src/linux_proc.rs:2959-2971 | the days before each month, in closed form |
| ResetDate.ResetOfMonth | src/linux_proc.rs:2946-2957 | the period of a month starts on the reset day, or on the day behind the month when it is shorter |
| ResetDate.ResetIsRecent | src/linux_proc.rs:1321-1337 | the result is at most 30 days back |
| Dns.LabelsJoin | src/linux_proc.rs:1945-1968 | the labels are the host cut at its dots and nowhere else |
| Dns.TrimDotsIs | src/linux_proc.rs:1945-1968 | exactly the trailing dots of a host are cut off |
| Dns.BuildDnsQuery | src/linux_proc.rs:1945-1968 | accepts a host exactly when every label has 1 to 63 bytes, and then builds header, labels and question |
| Dns.SkipDnsName | src/linux_proc.rs:2054-2084 | the loop computes the functional skip, for any bytes and any offset |
| Dns.ParseDnsResponse | src/linux_proc.rs:1970-2052 | the loops compute the functional parser, for any bytes |
| Dns.QueryNameIsSkipped | src/linux_proc.rs:1945-1968 | skipping the question name of an accepted host's query ends exactly four bytes before its end |
| Dns.QueryReadsBack | src/linux_proc.rs:1945-1968 | the query carries the id, the recursion flag and exactly one question: the host's labels, the type and the Internet class |
| Dns.SkipsName | src/linux_proc.rs:2054-2084 | any encoded name with labels of 1 to 191 bytes, ending in the root or in a compression pointer, is skipped exactly |
| Dns.ReplyParses | src/linux_proc.rs:1970-2052 | a reply with any questions, any records and anything behind them (sections 4.1.1 to 4.1.4 of RFC 1035) parses to exactly the Internet-class addresses of the queried type with the right length, in order |
| Dns.ParsedIsReply | src/linux_proc.rs:1970-2084 | conversely, whatever parses is such a reply, with the expected id and no error code |
| Dns.ForeignReplyRefused | src/linux_proc.rs:1970-1998 | a packet shorter than a header, with another id or with an error code is refused as that |
| NetStatic.NetStaticSampler.constructor | src/net_static.rs:76-90 | the loaded store is purged once |
| NetStatic.NetStaticSampler.TakeCounter | src/net_static.rs:119-140 | an allowed interface takes the counter and no other interface changes |
| NetStatic.NetStaticSampler.Sample | src/net_static.rs:110-143 | a throttled sample changes nothing; any other takes the counters of every allowed interface in order |
| NetStatic.NetStaticSampler.FlushCache | src/net_static.rs:222-237 | every interface is flushed, whatever the order of the map, and the cache is empty |
| NetStatic.NetStaticSampler.PurgeExpired | src/net_static.rs:239-246 | every interface keeps exactly its entries at most the configured number of days old, each as often as before, and no empty list stays |
| NetStatic.RecentAreKept | src/net_static.rs:239-246 | purging a list keeps an entry if and only if its age in seconds is at most the days times 86400 |
| NetStatic.NetStaticSampler.FlushAll | src/net_static.rs:155-161 | flush then purge at the same time; the save time moves only when saving succeeds |
| NetStatic.NetStaticSampler.FlushIfDue | src/net_static.rs:145-153 | flushes exactly when never saved or the interval has passed |
| NetStatic.TrafficIsConserved | src/net_static.rs:110-161 | over every run of samples, flushes and purges of an interface, what is held plus what was purged is at most the initial store plus the observed increments, and equal if and only if no flushed sum exceeds 64 bits |
| NetStatic.NextIncrement | src/net_static.rs:119-140 | a counter adds its rise over the one before it, and nothing when it went back |
| NetStatic.SteadyTrafficIsLastLessFirst | src/net_static.rs:110-161 | with counters that never go back, the gain is the last accepted counter less the first, less what was purged |
| NetStatic.ResetCounterCanWrap | src/net_static.rs:222-237 | a run with a counter that goes back whose flushed sum exceeds 64 bits |
| NetStatic.FlushKeepsItsOwn | src/net_static.rs:155-161 | for every retention time, a flush followed by its purge keeps the entry just stored and only thins out older ones |
| NetStatic.AddEntries | src/net_static.rs:260-266 | saturating additions over a list come to the exact windowed sum, cut off at the largest 64-bit signed value |
| NetStatic.AddTotalsBetween | src/net_static.rs:248-268 | the same over a map, whatever its order |
| NetStatic.TotalBetween | src/net_static.rs:163-168 | store and cache together: the exact windowed sum, cut off at the largest 64-bit signed value |
| NetStatic.OpenTotalIsHeld | src/net_static.rs:163-168 | the unbounded total of some interfaces is the sum of all they hold, stored or cached |

## Left out

- TLS, TCP, WebSocket, HTTP, terminals, process execution and file formats: I/O and foreign libraries.
- The cipher itself, key derivation and the handshake: foreign calls; only the law of sealing and opening is used.
- Host metrics, GPU, OS and virtualization detection, command line and configuration merging: many branches, no deep invariant.
- The write-batch statistics and drain loops of the tunnel data client, except the batch limit: easy members.
- Relay of single frames and the mapping of errors to transport error codes: easy members next to the batched relay.
- A batched read whose later record is bad returns the error and drops the frames decoded before it; the model does the same, and the stream theorems are about well-formed streams.
- Machine lengths: buffer lengths and relay counters are unbounded naturals, so saturating additions on `usize` and overflow of 64-bit relay statistics are not modelled.
- The two cursor codecs carry the same buffer code; it is modelled once as `ReadCursor.CursorBuffer` and used by both.
- The process-wide dwell histogram kept in separate atomics: only the recent-samples window, which is taken under one lock, drives the batch limit.
- The rule update that filters listener health by the WebSocket plan, and the listener tasks behind the handles.
- The wording of READY failure messages, and removal of duplicates that depends on it.
- Source allow-lists and CIDR masks of rules: pure and small.
- The name server exchange and the choice of the DNS query id.
- Years beyond 32 bits, and rounding of floating-point retention and interval settings, which are real numbers here.
- Changing the interface list of the traffic sampler while it runs, and the configuration stored in its file.
- NetStatic.NetStaticSampler.FlushCache: overflow wraps around as in an optimised build; a debug build would stop there.
- SessionAccounting.RuleCountersBalance: stated for runs in which no session id is opened twice, because an overwritten entry is counted for two rules and removed for one.
