# A verified model of the QUIC transport core

This project models the stateful core of the QUIC transport in Dafny and proves what its parts keep over every run: the frame
sorter and the receive stream, the crypto stream with its scrambled and scattered ClientHello, the send stream with
retransmissions and partially reliable resets, path MTU discovery, the connection IDs of both sides, the stream maps, the framer
and the token store. Objects that the Go code updates in place are classes with the same fields; ghost fields record the history
that the properties are about. Methods that may interleave (waiting calls, acknowledgements, losses) are separate steps, and each
step keeps the invariant `Valid()`, so that the invariants hold after every interleaving of steps.

| file | component |
|---|---|
| `GapList`, `FrameSorter` | reassembly of out-of-order frames |
| `ReceiveStream`, `ReceiveStreamRuns` | reading, peeking, cancelling and resetting a stream, and runs at the largest offset |
| `Varint`, `Wire`, `Payload` | encodings, and what a payload carries regardless of order |
| `ChaosProtector`, `PacketPacker` | scattering the CRYPTO frames of Initial packets |
| `ClientHello`, `HelloLengths`, `CryptoStream`, `Handshake` | finding the cut positions, the lengths inside of the message, sending around the cuts, and the way from writer to reader |
| `MtuSearch`, `MtuFinder` | the search as a function, and the array code that refines it |
| `StreamFrames`, `StreamWire`, `StreamLedger`, `StreamBooks`, `SendStream`, `SendStreamRuns` | STREAM frames and their encoding, where each byte is, the sending side, and runs in which it surprises |
| `StreamDelivery` | both ends of a stream over an unreliable network |
| `Bags`, `ConnIdManager`, `ConnIdGenerator` | connection IDs issued by the peer and by us |
| `OutgoingStreams`, `IncomingStreams` | opening and accepting streams |
| `Framer`, `StreamAnswers` | choosing the frames of a packet, and what it relies on |
| `TokenStore` | tokens per origin |

## Main results

- `Handshake.EndToEnd`: whatever the pops, the grouping, the padding, the random choices of the scattering, and the order and
  repetition of arrivals, the reader gets exactly the written bytes, as long as the frames that were sent, and ten more for each
  packet, are not too many for the gaps of the sorter; repeated packets do not count.
- `CryptoStream.SendClientHello`: a ClientHello leaves completely exactly if its server name is not empty.
- `HelloLengths.IncompleteExactly`: a whole ClientHello is taken for a part of one exactly if a length field inside of it that the
  search looks at does not fit; `CryptoStream.SendMore`: and then nothing is ever sent.
- `FrameSorter.Sorter.Push`: over all pushes and pops, gaps are exactly the offsets never received, the queue tiles the rest with
  the right bytes, each buffer callback was run once, is held once, or was handed out once, and no buffer is given back while
  queued bytes lie in it.
- `ChaosProtector.ChaosProtect`: the code that splits frames in place refines a function of the random numbers; whatever they are,
  the bytes, the size and the other frames are kept, and something is scattered if the padding allows it.
- `SendStream`: each byte below the write offset is in exactly one of acknowledged, one frame in flight, one queued frame, through
  all splits, losses and resets; the counter of outstanding frames is exact; completion means delivery, and without a reset
  delivery means completion; every frame is as full as the packet, the data and the windows allow.
- `StreamDelivery.Link`: a send stream and a receive stream over a network that loses, repeats and reorders frames; the sender
  respects the window that it learned, and no frame is ever refused for the window of the stream or its final size; the reader
  always gets the next written bytes, and when the sender reports completion the reader can read exactly all of them.
- `MtuSearch.SearchEnds` and `MtuSearch.SearchFindsMtu`: the search ends for every loss history, and finds the MTU with up to two
  spurious losses; `MtuSearch.AcksEndSoon`: without losses after logarithmically many probes.
- `OutgoingStreams`: first come, first served, and no lost wakeup, for every interleaving.
- `ConnIdManager.ConnIdManager.Add`: conservation of sequence numbers and of token registrations.
- `Framer.Framer.Append`: a packet is not overfilled although bytes are lent to each STREAM frame, no frame is lost, and every
  active stream has its turn unless the packet is full.

## Where the code does not meet the property one would expect

The members named here state exactly when this happens, in both directions; where an example is named, it is a run that gets there.

- The frame sorter panics for non-empty frames that end at or behind offset 2^62-1 (`FrameSorter.Sorter.Push`). A receive stream
  gets there exactly for such a frame inside of its windows (`ReceiveStream.ReceiveStream.HandleStreamFrame`, example
  `ReceiveStreamRuns.LargestOffset`): the configuration allows windows of up to 2^62-1 bytes (quic/config.go:36-41). With a smaller
  window this does not happen.
- A final size of 2^62-1 is taken for an unknown one, and the stream is not completed (`ReceiveStream.ReceiveStream.IsNewlyCompleted`,
  example `ReceiveStreamRuns.CompletionMissed`).
- With an empty server name the scrambled stream gets stuck and never sends the rest (`CryptoStream.SendClientHello`, example
  `CryptoStream.EmptyServerName`).
- A server name list without a host name is not rejected, although the code has an error for it, because the position it compares
  with is never 0 (`ClientHello.FindHostName`, example `ClientHello.NameOfAnotherType`). If there is an ECH extension, a last name of
  two bytes or more then cuts out bytes at an unrelated place (`CryptoStream.InitialCryptoStream.ChooseCuts`).
- A complete ClientHello is taken for an incomplete one, whatever follows, and the client waits for ever, exactly if the session
  ID, the cipher suites, the compression methods, the extensions, or an extension or a name that the search looks at reach over the
  end of what contains them, or a server name list does not fill its extension (`HelloLengths.IncompleteExactly`,
  `ClientHello.IncompleteForEver`, `CryptoStream.SendMore`, example `CryptoStream.LongSessionID`).
- When a reset cuts a queued frame, or the loss of a frame after a reset cuts it, the FIN bit stays, and the frame announces
  another end than the reset (`SendStream.SendStream.CancelWrite` and `OnLost`, examples `SendStreamRuns.EndCutByReset` and
  `EndCutByLoss`). A receiver that knows the final size refuses exactly these frames with a final size error
  (`StreamDelivery.DeliverAfterReset`, example `StreamDelivery.CutFrameIsRefused`).
- STOP_SENDING after a reset with a reliable part announces a smaller final size exactly if the reliable part was not sent
  completely (`SendStream.SendStream.HandleStopSending`, example `SendStreamRuns.FinalSizeShrinks`).
- Giving a stream a reliable part after it was reset without one leaves acknowledgements and losses that the counter does not allow
  for (`SendStream.SendStream.SetReliableBoundary` and `EnableResetStreamAt`), and these make it panic (`OnAcked`, `OnAllAcked` and
  `OnLost`, example `SendStreamRuns.PanicAfterBoundary`).
- A Write call that is blocked when the stream is reset succeeds if the rest of its data fits into the buffer
  (`SendStream.SendStream.ContinueWrite`, example `SendStreamRuns.WriteAfterReset`), and the stream is then not completed when
  everything is delivered (`SendStream.SendStream.IsNewlyCompleted`, example `SendStreamRuns.NotCompleted`).
- A repeated NEW_CONNECTION_ID frame for the active ID, while a newer one is probing a path, retires the ID that stays in use
  (`ConnIdManager.ConnIdManager.Add`, example `ConnIdManager.RepeatedFrameRetiresActiveID`).
- Setting a stateless reset token twice leaks the first registration (`ConnIdManager.ConnIdManager.SetStatelessResetToken`, example
  `ConnIdManager.SecondTokenIsLeft`). No caller does this: a client applies the transport parameters of the server once, when the
  handshake completes (quic/connection.go:974-979).
- The ID of a preferred address can be older than the IDs in use (`ConnIdManager.ConnIdManager.AddFromPreferredAddress`, example
  `ConnIdManager.PreferredAddressTooLate`). No caller does this: the ID is added when the handshake completes
  (quic/connection.go:2461-2467), before the first NEW_CONNECTION_ID frame, which arrives in a packet that is encrypted with the keys
  of the completed handshake.
- An AcceptStream call that takes a stream and leaves another one can strand a second call that sleeps
  (`IncomingStreams.IncomingStreams.CheckAccept`, example `IncomingStreams.OverlappingAcceptsMissSignal`); calls that do not
  overlap are never stranded (`IncomingStreams.IncomingStreams.NotStranded`).
- Opening an incoming stream after the map was closed panics (`IncomingStreams.IncomingStreams.GetOrOpenStream`, example
  `IncomingStreams.OpenAfterClose`), and so does closing it twice (`IncomingStreams.IncomingStreams.CloseWithError`, example
  `IncomingStreams.CloseTwice`). No caller does this: a map is closed when the connection ends, after its last frame
  (quic/connection.go:2280), or when it is replaced at once after a 0-RTT rejection (quic/streams_map.go:365-371).
- The comment in the framer calls 25 bytes the largest size of a stream control frame. A packet is never too long if 26 bytes are
  the largest size (`Framer.Framer.Append`), and every larger size makes some packet too long (`Framer.LargerFrame`);
  RESET_STREAM_AT can have 33 (`Framer.ResetStreamSizes`).
- The comment on the MTU search speaks of 10 bytes; the constant, and the result that is proved, is 20.

## Model

| member | source | states |
|---|---|---|
| `FrameSorter.Sorter.Push` | quic/frame_sorter.go:45-54 | panics exactly for non-empty frames that end at or behind the largest offset; otherwise exactly the range of the frame becomes received, the gaps are exactly the offsets never received, the queue tiles what was received from the read position on, the queued bytes are those of the stream at their offsets, and every callback is accounted for; a frame is dropped, and its callback run, exactly if it brings nothing new and does not replace a shorter frame right behind a gap; otherwise a part of it with all new bytes replaces what is queued there, with its callback, unless it is a short part, which is copied; a frame with new bytes only is queued as it is, and no callback is run; too many gaps is reported exactly if more than the allowed number is left |
| `FrameSorter.Sorter.Insert` | quic/frame_sorter.go:56-178 | the core of a push for a callback that is not placed yet: the gap list loses exactly the range of the frame, grows by at most one, and the queue stays a tiling; nothing changes for duplicates |
| `FrameSorter.Sorter.Locate` | quic/frame_sorter.go:61-76 | finds the gaps a frame starts and ends in, or that none of its bytes is missing; fails exactly where the source dereferences a missing gap |
| `FrameSorter.Sorter.Place` | quic/frame_sorter.go:78-160 | replaces the frames that the new frame covers, cuts the frame to what is needed, and takes the range out of the gap list |
| `FrameSorter.Sorter.ReplaceFrames` | quic/frame_sorter.go:85-112 | drops the consecutive frames that the new frame covers, runs their callbacks once, and stops at a longer one |
| `FrameSorter.Sorter.CloseGaps` | quic/frame_sorter.go:120-160 | the gap list after the step-by-step edits is the list carved by the new range |
| `FrameSorter.Sorter.Enqueue` | quic/frame_sorter.go:162-177 | exactly a short part of a cut frame is copied and its callback runs at once; otherwise the callback stays with the queued part; the part is queued unless there are too many gaps |
| `FrameSorter.Sorter.FindStartGap` | quic/frame_sorter.go:180-190 | the first gap that contains the offset, ends right there or starts behind it |
| `FrameSorter.Sorter.FindEndGap` | quic/frame_sorter.go:192-202 | the last gap that a frame ending at the offset reaches, searched from the start gap on |
| `FrameSorter.Sorter.DeleteConsecutive` | quic/frame_sorter.go:205-218 | removes exactly the chain of frames from the position up to the limit and runs each callback once |
| `FrameSorter.Sorter.Pop` | quic/frame_sorter.go:220-232 | returns the next bytes of the stream exactly if they were received, moves the read position behind them, and hands the callback out once |
| `FrameSorter.Sorter.HasMoreData` | quic/frame_sorter.go:235-237 | tells if any received byte was not popped |
| `FrameSorter.Sorter.Peek` | quic/frame_sorter.go:245-274 | succeeds exactly if a frame starts at the offset and all bytes were received, returns those bytes and changes nothing |
| `FrameSorter.Sorter.BufferInUse` | quic/frame_sorter.go:162-177 | no callback was run or handed out as long as queued bytes lie in its buffer |
| `FrameSorter.AllNew` | quic/frame_sorter.go:56-178 | a frame that brings new bytes only is queued whole, at its offset, with its callback |
| `FrameSorter.TiledCovers` | quic/frame_sorter.go:56-178 | in a tiling every offset behind the read position that is in no gap lies in some queued frame |
| `FrameSorter.TiledAfterPush` | quic/frame_sorter.go:85-177 | replacing what lies under the new frame keeps the tiling: frames disjoint, chained up to the gaps |
| `FrameSorter.TiledAfterPop` | quic/frame_sorter.go:220-232 | taking out the frame at the read position keeps the tiling |
| `GapList.SameGaps` | quic/frame_sorter.go:120-160 | gap lists in order that contain the same offsets are equal |
| `GapList.CarveRemovesRange` | quic/frame_sorter.go:120-160 | the carved gap list contains an offset exactly if the old one did and the offset is not in the received range |
| `GapList.CarveIsSeparated` | quic/frame_sorter.go:120-160 | carving keeps the gaps sorted, non-empty and separated |
| `ReceiveStream.ReceiveStream.Read` | quic/receive_stream.go:84-233 | returns the bytes of the stream at the read position whatever the frame order; stops early only where the next byte is missing; end of stream only at the final offset, and always together with the last byte if the end is known before the last frame is taken; the reset error only after a local cancellation or when everything below the reliable size was read, and then always, unless the end was reached before; blocks only on a stream that is not cancelled, reset up to here or shut down; completion reported exactly once, with the first end or reset that is read, unless the final size is the largest offset |
| `ReceiveStream.ReceiveStream.ReadStep` | quic/receive_stream.go:144-227 | one round of the read loop keeps what was read so far a piece of the stream, and ends with the reset error as soon as the cancellation of the peer becomes effective |
| `ReceiveStream.ReceiveStream.Peek` | quic/receive_stream.go:246-354 | the bytes returned are those at the read position, which does not move; an empty request does nothing; succeeds exactly if all requested bytes were received and the stream is not cancelled, reset or shut down; end of stream and reset are reported only at the final offset or the reliable size, and a cancelled, reset or shut down stream always reports it, unless the end was reached before; blocks only if a byte below the requested, final and reliable size is missing |
| `ReceiveStream.ReceiveStream.DequeueNextFrame` | quic/receive_stream.go:356-365 | the next queued frame becomes current, with its callback; exactly the callback of the old one runs; the frame is the last one exactly if it reaches the final offset of a stream that was not reset |
| `ReceiveStream.ReceiveStream.IsNewlyCompleted` | quic/receive_stream.go:108-127 | completion exactly if the final size is known and not the largest offset, and the stream was cancelled or its end read, and at most once |
| `ReceiveStream.ReceiveStream.CancelRead` | quic/receive_stream.go:371-401 | asks the peer to stop exactly for the first cancellation before the end and before a reset |
| `ReceiveStream.ReceiveStream.UpdateHighestReceived` | quic/internal/flowcontrol/stream_flow_controller.go:49-99 | refuses exactly sizes that contradict the final size, and otherwise exactly new offsets behind the window of the stream or the connection; an accepted offset moves the highest offset |
| `ReceiveStream.ReceiveStream.HandleStreamFrame` | quic/receive_stream.go:403-432 | each error exactly: final size, windows, too many gaps, the last one never for bytes that are known; the frame sorter panics exactly for new bytes up to the largest offset inside of the windows; exactly the bytes of an accepted frame become available; completion is checked for refused frames too |
| `ReceiveStream.ReceiveStream.HandleResetStreamFrame` | quic/receive_stream.go:434-476 | both errors exactly; the smallest announced reliable size counts; the final size is fixed; completion exactly for a cancelled stream, unless the final size is the largest offset |
| `ReceiveStream.ReceiveStream.GetWindowUpdate` | quic/internal/flowcontrol/stream_flow_controller.go:138-154 | the window grows, to any size, exactly if the final size is not known, and nothing else changes |
| `ReceiveStream.ReceiveStream.CallbackAtMostOnce` | quic/receive_stream.go:219-226 | no callback is run twice, by the sorter or by the stream |
| `ReceiveStream.ReceiveStream.BufferInUse` | quic/receive_stream.go:356-365 | the callback of the frame that is being read was not run, by the sorter or by the stream |
| `ReceiveStreamRuns.LargestOffset` | quic/frame_sorter.go:56-178 | a run in which a frame inside of the largest window makes the frame sorter panic |
| `ReceiveStreamRuns.CompletionMissed` | quic/receive_stream.go:108-127 | a run in which a stream with the largest final size is reset and cancelled, and completion is not reported |
| `Varint.ParseAppend` | quic/quicvarint/varint.go:82-130 | parsing what was appended gives the number back and its encoded length, whatever follows |
| `Varint.ShortestEncoding` | quic/quicvarint/varint.go:164-180 | no encoding that can be parsed is shorter than the one that is written |
| `Varint.LenMonotone` | quic/quicvarint/varint.go:164-180 | larger numbers never have shorter encodings |
| `Wire.CryptoRoundTrip` | quic/internal/wire/crypto_frame.go:16-46 | a CRYPTO frame survives serializing and parsing |
| `Wire.ParseFindsFrames` | quic/internal/wire/frame_parser.go:39-76 | parsing a serialized payload finds exactly its frames, in order, and skips padding |
| `Payload.SumPermutation` | quic/chaos_protector.go:103-106 | the content, the size and the other frames of a payload do not depend on the order of its entries |
| `Payload.PlacedSplit` | quic/chaos_protector.go:68-76 | splitting a CRYPTO frame keeps every byte at its offset |
| `ChaosProtector.ChaosProtect` | quic/chaos_protector.go:28-108 | applies exactly with padding and a CRYPTO frame; the input frames are not modified; the entries are exactly those that splitting, PINGs, padding and shuffling give for the random numbers; they have exactly the size of the frames plus the padding, the same CRYPTO bytes at the same offsets in non-empty frames, and all other frames; at least one frame is split if all can be split and the padding pays for it, at least two unless the padding or a frame that cannot be split prevents it, and at most ten; at least two PINGs if the padding that is left allows it, and at most ten |
| `ChaosProtector.CopyFrames` | quic/chaos_protector.go:33-55 | copies the CRYPTO frames into new objects and finds the smallest range with all their offsets |
| `ChaosProtector.SplitFrames` | quic/chaos_protector.go:57-77 | the splits in place are exactly those of a function of the random numbers; any sequence of splits costs exactly the padding that it takes, which never becomes negative; at most ten frames are added, at least one if all can be split, and at least two unless something prevents it |
| `ChaosProtector.EverySplit` | quic/chaos_protector.go:58-76 | every frame that can be split can be the first one, at every place inside of it |
| `ChaosProtector.SplitCost` | quic/chaos_protector.go:58-76 | the overhead of a split never exceeds the bound that is checked before it |
| `ChaosProtector.OverheadIsLeast` | quic/chaos_protector.go:58 | no range with all CRYPTO data has a smaller overhead than the one that is computed |
| `ChaosProtector.AddPings` | quic/chaos_protector.go:79-88 | each PING takes one byte of padding; two to ten of them, or as many as there is padding |
| `ChaosProtector.SpreadPadding` | quic/chaos_protector.go:90-101 | all of the remaining padding is placed between the entries, as the random numbers say |
| `ChaosProtector.Shuffle` | quic/chaos_protector.go:103-106 | the result is the permutation of the entries that the random numbers choose |
| `ChaosProtector.EveryOrder` | quic/chaos_protector.go:103-106 | every order of the entries is the outcome of some choices |
| `PacketPacker.AppendPacketPayload` | quic/packet_packer.go:954-1010 | fails exactly if the announced length is not the length of the ACK and the frames; otherwise the payload has that length plus the padding, the same CRYPTO bytes at the same offsets in a bounded number of additional frames, and all other frames; it is scattered exactly if that is asked for, there are no STREAM frames, and there is padding and a CRYPTO frame; otherwise the control frames are shuffled, and the STREAM frames and the padding follow |
| `Handshake.CollectFrames` | quic/packet_packer.go:565-573 | takes frames out of the stream until it waits, is empty or stuck, or the next frame has no room; the announced length is the sum of their lengths and at most the size of the packet |
| `Handshake.SendInitial` | quic/packet_packer.go:496-576 | an Initial packet that is filled from the stream as far as possible never hits the size consistency error, and its payload delivers exactly the collected bytes |
| `Handshake.PackInitial` | quic/packet_packer.go:954-983 | parsing a packed payload gives pieces of the stream that cover exactly the bytes of the packed frames, in at most ten more frames, and otherwise only PING frames; in at least one more frame if all frames have two bytes and the padding pays for a split |
| `Handshake.HandlePayload` | quic/crypto_stream.go:34-56 | a received payload adds exactly its bytes to what was received, and at most one gap for each of its frames; it is refused only if that can be too many gaps, and never if it brings nothing new |
| `Handshake.EndToEnd` | quic/crypto_stream.go:34-257 | the frames of any pops, grouped, padded and scattered in any way and delivered in any order with duplicates, are read as exactly the bytes that were written; the sorter does not object as long as the frames that were sent, and ten for each packet, fit into its gaps |
| `Handshake.ReadAll` | quic/crypto_stream.go:59-62 | reading returns a prefix of the stream up to the first missing byte |
| `ClientHello.FindSNIAndECH` | quic/sni.go:19-136 | each result exactly, by a reference search over the message; positions always lie inside the data; the host name position is that of the first host name of a server name extension, the other one that of an ECH extension; if a position is missing, no such extension or name exists |
| `ClientHello.SearchExtensions` | quic/sni.go:85-135 | each result exactly, by a reference search over the chain of extensions; what is found is there, and if nothing is found there is nothing |
| `ClientHello.FindHostName` | quic/sni.go:100-123 | succeeds exactly if the list has its announced length and every name up to the first host name fits; the first name of type host_name and its length, or that there is none |
| `ClientHello.NameOfAnotherType` | quic/sni.go:100-123 | a whole ClientHello whose server name list has a name of another type only gives no host name position and no error |
| `ClientHello.IncompleteForEver` | quic/sni.go:19-136 | a message of the announced length that is found incomplete stays incomplete whatever follows |
| `HelloLengths.IncompleteExactly` | quic/sni.go:19-136 | a whole ClientHello is found incomplete exactly if one of the length fields that the search looks at does not fit: of the session ID, the cipher suites, the compression methods, the extensions, an extension up to where the search stops, the server name list, or a name in front of the first host name |
| `HelloLengths.LongSessionID` | quic/sni.go:44-52 | a concrete whole ClientHello with a session ID that is too long |
| `ClientHello.EmptyNameIsFound` | quic/sni.go:19-136 | a concrete ClientHello in which an empty host name is found |
| `CryptoStream.InitialCryptoStream.Write` | quic/crypto_stream.go:144-188 | buffers the bytes; until the ClientHello is complete a client searches it, what it finds is right and complete, and decides about the error, the scrambling, the cuts and whether there is an empty cut; a stuck stream stays stuck |
| `CryptoStream.InitialCryptoStream.ChooseCuts` | quic/crypto_stream.go:163-181 | the second half of the server name, and 16 bytes from the middle of the type of the ECH extension on, in order and inside of the ClientHello; a cut is empty exactly if the server name is empty |
| `CryptoStream.InitialCryptoStream.SetUpScrambling` | quic/crypto_stream.go:158-186 | scrambling stays on exactly if a position was found; there is an empty cut exactly if the server name is empty |
| `CryptoStream.InitialCryptoStream.PopCryptoFrame` | quic/crypto_stream.go:190-257 | nothing comes out exactly if everything was sent, there is no room for a byte, scrambling is being left, or the stream is stuck at an empty cut, and then nothing changes; each frame carries the bytes at the next offset, and one byte more does not fit or is not there; it strictly reduces what is left |
| `CryptoStream.MaxDataLenExact` | quic/internal/wire/crypto_frame.go:54-66 | in packets of up to 16385 bytes, data fits into a CRYPTO frame exactly if it is within the limit |
| `CryptoStream.InitialCryptoStream.PopPlain` | quic/crypto_stream.go:85-95 | plain mode sends the next bytes, as many as fit |
| `CryptoStream.InitialCryptoStream.PopAhead` | quic/crypto_stream.go:229-256 | sends up to the next cut, as much as fits, and skips the cut when it is reached |
| `CryptoStream.InitialCryptoStream.PopCut` | quic/crypto_stream.go:195-227 | sends from the first cut that is left, which is shortened or unset while the other one stays, and leaves the scrambling mode exactly after the last cut |
| `CryptoStream.InitialCryptoStream.Drain` | quic/crypto_stream.go:134-257 | with room for a byte in every frame, repeated pops send everything and end the scrambling, exactly if there is no empty cut; otherwise the stream gets stuck |
| `CryptoStream.SendClientHello` | quic/crypto_stream.go:114-257 | a client sends a message: nothing exactly if it is found incomplete, everything if it is malformed, and for a ClientHello everything exactly if its server name is not empty |
| `CryptoStream.SendMore` | quic/crypto_stream.go:134-188 | a whole ClientHello followed by any more bytes: the client waits, and has sent nothing, exactly if a length inside of the ClientHello does not fit |
| `CryptoStream.LongSessionID` | quic/crypto_stream.go:134-188 | a concrete whole ClientHello that the client never sends, whatever follows |
| `CryptoStream.EmptyServerName` | quic/crypto_stream.go:163-219 | a concrete ClientHello that leaves the stream stuck |
| `CryptoStream.InitialCryptoStream.EverythingSent` | quic/crypto_stream.go:190-257 | when nothing is left the frames cover all that was written, each byte once if the cuts are non-empty, separated and not at offset 0 |
| `CryptoStream.InitialCryptoStream.HasData` | quic/crypto_stream.go:134-142 | there is data exactly if the client does not wait for the rest of its ClientHello, and bytes are left to be sent or the stream is stuck |
| `CryptoStream.CryptoReceiver.HandleCryptoFrame` | quic/crypto_stream.go:34-56 | both error conditions exactly; otherwise the bytes of the frame become received, and the highest offset is remembered; too many gaps is never reported for bytes that are known |
| `CryptoStream.CryptoReceiver.Finish` | quic/crypto_stream.go:64-73 | succeeds exactly if every received byte was read; from then on only known offsets are accepted |
| `CryptoStream.CryptoReceiver.GetCryptoData` | quic/crypto_stream.go:59-62 | returns the next bytes exactly if they were received; the output stays a prefix of the stream |
| `CryptoStream.ProgressAhead` | quic/crypto_stream.go:229-256 | everything below the write offset but the cuts was sent, also after a cut is skipped |
| `CryptoStream.ProgressInCut` | quic/crypto_stream.go:199-219 | sending a part of a cut keeps account of what is still to be sent |
| `MtuSearch.SearchEnds` | quic/mtu_discoverer.go:137-253 | every history of acknowledged and lost probes ends the search after boundedly many probes |
| `MtuSearch.StepLowersRank` | quic/mtu_discoverer.go:137-253 | each probe result lowers the measure |
| `MtuSearch.StepKeepsValid` | quic/mtu_discoverer.go:198-253 | the list of lost sizes stays sorted and above the minimum |
| `MtuSearch.SizeNeverDecreases` | quic/mtu_discoverer.go:126-253 | the size in use never decreases |
| `MtuSearch.AckedKeepsLarger` | quic/mtu_discoverer.go:210-226 | an acknowledgement makes exactly the lost sizes up to the acknowledged one forgotten; the larger ones stay as often as they were |
| `MtuSearch.LostIsRemembered` | quic/mtu_discoverer.go:246-252 | a lost size is remembered, in exchange for the largest one exactly if three are known |
| `MtuSearch.ProbeHalves` | quic/mtu_discoverer.go:164-177 | each probe halves the interval that it is sent for |
| `MtuSearch.AcksEndSoon` | quic/mtu_discoverer.go:35-75 | without losses the search ends after logarithmically many probes |
| `MtuSearch.StepStaysOnTrack` | quic/mtu_discoverer.go:198-253 | with fewer than three spurious losses the search interval never excludes the path MTU |
| `MtuSearch.SearchFindsMtu` | quic/mtu_discoverer.go:23-40 | with at most two spurious losses the result never exceeds the path MTU and is within 20 bytes of it, or within 21 of the configured maximum |
| `MtuSearch.ThreeLossesAreTooMany` | quic/mtu_discoverer.go:29-32 | three spurious losses can end the search further away |
| `MtuFinder.MtuFinder.OnAcked` | quic/mtu_discoverer.go:198-233 | the array of lost sizes is edited in place exactly as the search step says: the sizes up to the acknowledged one are forgotten and all others kept; panics exactly if nothing is in flight; handlers of an older generation do nothing |
| `MtuFinder.MtuFinder.OnLost` | quic/mtu_discoverer.go:235-253 | inserts the lost size in place as the search step says; only the largest of three is lost |
| `MtuFinder.MtuFinder.GetPing` | quic/mtu_discoverer.go:164-177 | the probe size is the one the search asks for |
| `MtuFinder.MtuFinder.ShouldSendProbe` | quic/mtu_discoverer.go:154-162 | no probe while one is in flight or when the search is done |
| `MtuFinder.MtuFinder.Reset` | quic/mtu_discoverer.go:183-189 | starts a new search and outdates the handlers |
| `StreamFrames.MaxDataLenFits` | quic/internal/wire/stream_frame.go:136-154 | data within the limit makes a frame within the size, for lengths of at most two bytes |
| `StreamFrames.MaxDataLenExact` | quic/internal/wire/stream_frame.go:136-154 | in packets of up to 16385 bytes, data fits into a STREAM frame exactly if it is within the limit |
| `StreamFrames.MaybeSplitOff` | quic/internal/wire/stream_frame.go:161-187 | the two parts are non-empty, concatenate to the data, continue each other, and only the second keeps the FIN bit |
| `StreamFrames.SplitOffFits` | quic/internal/wire/stream_frame.go:161-187 | the part that is split off fits into the size, and one byte more would not |
| `StreamFrames.NoRoomForOneByte` | quic/internal/wire/stream_frame.go:161-187 | nothing can be split off exactly if neither the frame nor one byte of it fits |
| `StreamFrames.ResendFits` | quic/send_stream.go:359-367 | what is sent again is the first frame of the queue, or a non-empty beginning of it while the rest stays, and fits into the size |
| `StreamWire.RoundTrip` | quic/internal/wire/stream_frame.go:22-111 | a written STREAM frame is parsed as it was, whatever follows, exactly if its data fits into a buffer; one without a length field takes the rest of the packet |
| `StreamWire.Append` | quic/internal/wire/stream_frame.go:86-123 | refuses exactly an empty frame that does not end the stream; otherwise the written bytes are as many as the computed length |
| `StreamLedger.SentAccounts` | quic/send_stream.go:240-308 | a new frame at the write offset extends what is accounted for without overlap |
| `StreamLedger.AckedAccounts` | quic/send_stream.go:663-682 | an acknowledged frame turns its bytes from in flight to acknowledged, and no others |
| `StreamLedger.RequeuedAccounts` | quic/send_stream.go:684-725 | a lost frame, cut to the reliable size, keeps every needed byte in exactly one place |
| `StreamLedger.ResentPartAccounts` | quic/send_stream.go:359-367 | splitting a retransmission keeps every byte in exactly one place |
| `StreamLedger.QueueTruncatedAccounts` | quic/send_stream.go:519-534 | trimming the retransmission queue loses no byte below the reliable size |
| `StreamLedger.FinSplit` | quic/send_stream.go:359-367 | the end of the stream stays announced by exactly one live frame |
| `StreamLedger.KeptRequeued` | quic/send_stream.go:702-723 | after a reset the end that a frame announces is the final size or was cut; cutting a lost frame moves the end exactly if the frame announces it and reaches over the reliable size |
| `StreamBooks.NothingOutstanding` | quic/send_stream.go:385-411 | with nothing in flight and nothing queued, every byte that has to be delivered was acknowledged, and so was the FIN |
| `StreamBooks.NothingLive` | quic/send_stream.go:385-411 | if all data and the FIN are acknowledged, nothing is in flight or queued and the counter is zero |
| `StreamBooks.CutMoves` | quic/send_stream.go:519-534 | trimming the queue moves the announced end exactly if some queued frame announces it and reaches over the limit |
| `StreamBooks.TrimQueue` | quic/send_stream.go:519-534 | frames behind the limit are dropped, the one that reaches over it is cut and keeps its FIN bit, the others and all frames in flight stay; no byte below the limit is lost |
| `SendStream.SendStream.BeginWrite` | quic/send_stream.go:107-128 | the data becomes part of the stream unless it is closed or reset; it is buffered exactly if it fits into the buffered frame, and the call blocks exactly if it does not; on a reset stream it takes notice of the cancellation, and nothing is written |
| `SendStream.SendStream.ContinueWrite` | quic/send_stream.go:135-211 | a blocked call goes on: it succeeds exactly if the rest is empty or fits into the buffered frame, even after a reset, is cancelled, and takes notice of that, exactly if it does not fit and the stream was reset, and blocks otherwise |
| `SendStream.SendStream.ExpireWrite` | quic/send_stream.go:161-167 | a deadline takes back exactly the data that was not sent, on a reset stream too |
| `SendStream.SendStream.PopStreamFrame` | quic/send_stream.go:223-367 | no frame comes out exactly if there is nothing to send or no room for a byte, and then nothing changes; a retransmission is the first queued frame or its beginning; a new frame goes on at the write offset, and has the FIN bit exactly if nothing is left; every frame is as full as possible: one byte more does not fit, is not there, or is not allowed by the windows; each frame carries the application bytes at its offset, is new in flight, and fits unless it has no data; after a reset only reliable bytes are sent; exactly when the stream asks to be called again; the announced final size stays |
| `SendStream.SendStream.PopRetransmission` | quic/send_stream.go:359-367 | sends the first lost frame again, or as much of it as fits; nothing exactly if there is no room for a byte |
| `SendStream.SendStream.TakeNew` | quic/send_stream.go:312-383 | new data is taken from the buffered frame first, then from the current Write call, as much as fits; nothing exactly if not even one byte fits |
| `SendStream.SendStream.IsNewlyCompleted` | quic/send_stream.go:385-411 | completion is reported exactly once nothing is buffered, in flight or queued and the stream was ended or its reset is known; this implies that all data and the FIN were acknowledged, or the reset and every byte below the reliable size |
| `SendStream.SendStream.EverythingAcked` | quic/send_stream.go:385-411 | the condition that is checked implies that everything was delivered |
| `SendStream.SendStream.DeliveredMeansCompleted` | quic/send_stream.go:385-411 | on a stream that was not reset, completion was reported as soon as all data and the FIN are acknowledged |
| `SendStream.SendStream.Close` | quic/send_stream.go:417-441 | ends the stream; closing a cancelled stream is an error |
| `SendStream.SendStream.SetReliableBoundary` | quic/send_stream.go:447-455 | everything taken over so far becomes reliable; after a reset the books stay right if the boundary does not move, and the counter lacks all frames in flight exactly if the boundary leaves 0 |
| `SendStream.SendStream.EnableResetStreamAt` | quic/send_stream.go:542-546 | harmless before a reset, and after one without a reliable part; otherwise the counter lacks all frames in flight |
| `SendStream.SendStream.CancelWrite` | quic/send_stream.go:476-540 | resets once; the reset frame announces the final size; acknowledged bytes and frames in flight stay, the queue and the buffered frame are trimmed to the reliable part; some frame announces another end than the reset exactly if a queued frame with the FIN bit reached over the reliable size |
| `SendStream.SendStream.HandleStopSending` | quic/send_stream.go:561-591 | resets without a reliable part; an earlier announced final size is kept exactly if the whole reliable part was sent |
| `SendStream.SendStream.GetControlFrame` | quic/send_stream.go:593-607 | sends the queued reset with the current final and reliable size |
| `SendStream.SendStream.OnAcked` | quic/send_stream.go:663-682 | the ledger moves the frame to acknowledged; panics exactly if the counter is zero and the frame counts, which never happens on a valid stream; without a reset completion is reported exactly with the last acknowledgement |
| `SendStream.SendStream.OnAllAcked` | quic/send_stream.go:663-682 | acknowledging all frames in flight panics exactly if the counter is smaller than their number |
| `SendStream.SendStream.OnLost` | quic/send_stream.go:684-725 | panics exactly if the counter is zero and the frame counts, which never happens on a valid stream; otherwise the lost frame, or its reliable part, is queued again with its length field, exactly if it has a reliable part; all other frames stay; some frame announces another end than the reset exactly if one did before, or the lost frame has the FIN bit and reaches over the reliable size |
| `SendStream.SendStream.OnResetAcked` | quic/send_stream.go:731-751 | only the current reset frame counts; the panic is unreachable |
| `SendStream.SendStream.OnResetLost` | quic/send_stream.go:753-767 | only the current reset frame is queued again |
| `SendStreamRuns.EndCutByReset` | quic/send_stream.go:519-534 | a run in which a lost frame with the FIN bit is cut by a reset and sent with another end than the reset announces |
| `SendStreamRuns.EndCutByLoss` | quic/send_stream.go:702-723 | a run in which a frame with the FIN bit is cut when it is lost after the reset, and sent with another end |
| `SendStreamRuns.PanicAfterBoundary` | quic/send_stream.go:663-725 | from every valid stream with a frame in flight: after a reset without a reliable part and a new boundary, the acknowledgement of the frame panics, and so does its loss |
| `SendStreamRuns.FinalSizeShrinks` | quic/send_stream.go:561-591 | a run in which the second reset frame announces a smaller final size than the first |
| `SendStreamRuns.WriteAfterReset` | quic/send_stream.go:135-211 | a run in which a blocked Write call succeeds after the stream was reset |
| `SendStreamRuns.NotCompleted` | quic/send_stream.go:385-411 | the run goes on: everything is delivered, but completion is not reported |
| `StreamDelivery.Link.Write` | quic/send_stream.go:107-128 | everything that was sent or received stays part of the longer stream |
| `StreamDelivery.Link.Send` | quic/send_stream.go:223-238 | whatever was sent before, each new frame carries the written bytes and the right end; a frame comes out exactly if there is something to send within the learned window and the size |
| `StreamDelivery.Link.Deliver` | quic/receive_stream.go:403-432 | any frame sent at any time, delivered in any order and repeatedly, is refused exactly if the window of the connection or the gaps of the sorter do not allow it, and panics exactly at the largest offset; the final size and the window of the stream are never a reason; a frame is accepted if there is room for a gap, and one that brings nothing new always |
| `StreamDelivery.Link.Grant` | quic/internal/flowcontrol/stream_flow_controller.go:138-154 | a larger window, of any size, breaks nothing |
| `StreamDelivery.Link.LearnWindow` | quic/internal/flowcontrol/base_flow_controller.go:52-58 | the sender takes over any window that was granted, late or out of order, and never a smaller one |
| `StreamDelivery.Link.Acknowledge` | quic/send_stream.go:663-682 | acknowledged bytes are received bytes; the sender reports completion exactly when everything was acknowledged |
| `StreamDelivery.Link.Lose` | quic/send_stream.go:684-725 | declaring a frame lost, rightly or not, breaks nothing |
| `StreamDelivery.Link.Read` | quic/receive_stream.go:84-233 | the reader always gets the next bytes that were written, and the end only after all of them, together with the last byte if the end is known in time; the first end that is read reports completion |
| `StreamDelivery.Link.CompletionMeansReceived` | quic/send_stream.go:385-411 | when the sender is done, the receiver has every byte and knows the end |
| `StreamDelivery.Link.ReadToEnd` | quic/receive_stream.go:84-233 | after completion the reader gets exactly what was written, up to the end of the stream |
| `StreamDelivery.DeliverAfterReset` | quic/receive_stream.go:403-432 | a receiver that knows the final size of a reset stream refuses a frame in flight with a final size error exactly if the frame announces another end or reaches over it, which needs a frame that was cut |
| `StreamDelivery.CutFrameIsRefused` | quic/send_stream.go:519-534 | a run of both ends in which a frame that was cut by a reset is refused by the receiver |
| `ConnIdManager.ConnIdManager.Add` | quic/conn_id_manager.go:64-130 | every error exactly; no tracked number is forgotten and the new one is tracked once more unless it is known; each number stays in one place exactly if the number is new, queued, or active while no newer one is probing; after a frame that is not stale no ID below the limit is in use; IDs from the limit on stay where they are, only the first of them may become active |
| `ConnIdManager.ConnIdManager.AddConnectionID` | quic/conn_id_manager.go:132-166 | inserts in order, or accepts an identical repetition, or reports a conflict; unused IDs stay newer than those in use exactly if the number is known or newer |
| `ConnIdManager.ConnIdManager.UpdateConnectionID` | quic/conn_id_manager.go:168-186 | the oldest unused ID becomes active, the old one is announced as retired, token registrations stay balanced |
| `ConnIdManager.ConnIdManager.RetireQueued` | quic/conn_id_manager.go:103-114 | exactly the unused IDs below the limit are retired |
| `ConnIdManager.ConnIdManager.RetireProbing` | quic/conn_id_manager.go:90-100 | exactly the probing IDs below the limit are retired, in any iteration order |
| `ConnIdManager.ConnIdManager.AddFromPreferredAddress` | quic/conn_id_manager.go:60-62 | tracks the ID with number 1, or reports exactly a conflict; unused IDs stay newer than those in use exactly if the number is known or newer than those |
| `ConnIdManager.ConnIdManager.Get` | quic/conn_id_manager.go:223-244 | switches to the oldest unused ID exactly after the handshake, if the first ID is in use, or if enough packets were sent with the active one and at least half of the places are filled, and starts to count packets again; otherwise nothing changes |
| `ConnIdManager.UseForPackets` | quic/conn_id_manager.go:219-244 | after the first one, every ID is used for exactly as many packets as were chosen when it became active, if enough unused IDs are there; then the oldest unused one follows |
| `ConnIdManager.ConnIdManager.GetConnIDForPath` | quic/conn_id_manager.go:254-277 | the same ID for the same path, else the oldest unused one; nothing is lost |
| `ConnIdManager.ConnIdManager.RetireConnIDForPath` | quic/conn_id_manager.go:279-295 | the ID of the path is announced as retired |
| `ConnIdManager.ConnIdManager.IsActiveStatelessResetToken` | quic/conn_id_manager.go:297-311 | true exactly for the registered tokens |
| `ConnIdManager.ConnIdManager.SetStatelessResetToken` | quic/conn_id_manager.go:210-217 | the token is registered; registrations stay balanced exactly if no token was set before |
| `ConnIdManager.ConnIdManager.Close` | quic/conn_id_manager.go:188-198 | no token stays registered |
| `ConnIdManager.ExclusiveAfterAdd` | quic/conn_id_manager.go:80-88 | when a frame puts a number into two places |
| `ConnIdManager.RepeatedFrameRetiresActiveID` | quic/conn_id_manager.go:80-88 | a concrete repeated frame after which the active ID is announced as retired |
| `ConnIdManager.SecondTokenIsLeft` | quic/conn_id_manager.go:210-217 | two tokens are set: both stay registered, and only the second one is in use |
| `ConnIdManager.PreferredAddressTooLate` | quic/conn_id_manager.go:60-62 | the ID of the preferred address, after a frame that made a later ID active: number 1 is in two places, and an unused ID is not newer than the active one |
| `Bags.MapBagRemove` | quic/conn_id_manager.go:188-198 | what a map holds does not depend on the order in which it is walked |
| `OutgoingStreams.OutgoingStreams.OpenStream` | quic/streams_map_outgoing.go:72-86 | succeeds exactly if the map is open, nobody waits and the limit allows it; the next ID in the sequence is added to the streams; otherwise STREAMS_BLOCKED is sent if it was not sent for this limit |
| `OutgoingStreams.OutgoingStreams.BeginOpenSync` | quic/streams_map_outgoing.go:88-104 | opens at once exactly if nobody waits and there is credit, else joins the end of the queue, and STREAMS_BLOCKED is sent if it was not sent for this limit |
| `OutgoingStreams.OutgoingStreams.Wake` | quic/streams_map_outgoing.go:118-119 | taking a wakeup keeps the invariant: only the first of the queue has one, and if there is credit it has one |
| `OutgoingStreams.OutgoingStreams.NoticeCancel` | quic/streams_map_outgoing.go:108-109 | a cancelled call that still has a wakeup does not break the invariant |
| `OutgoingStreams.OutgoingStreams.FinishCancel` | quic/streams_map_outgoing.go:109-117 | leaves the queue; a wakeup that was meant for it passes to the next call |
| `OutgoingStreams.OutgoingStreams.Resume` | quic/streams_map_outgoing.go:121-133 | a woken call is the first of the queue and finds a stream, so that going back to sleep is unreachable; it fails exactly if the map was closed |
| `OutgoingStreams.OutgoingStreams.MaybeUnblockOpenSync` | quic/streams_map_outgoing.go:224-237 | the first of the queue has a wakeup if there is credit; its channel is open |
| `OutgoingStreams.OutgoingStreams.SetMaxStream` | quic/streams_map_outgoing.go:189-202 | the limit never falls; no wakeup is lost; STREAMS_BLOCKED is sent for a new limit exactly if more calls wait than can be served |
| `OutgoingStreams.OutgoingStreams.MaybeSendBlockedFrame` | quic/streams_map_outgoing.go:145-159 | at most once per limit, limits increasing |
| `OutgoingStreams.OutgoingStreams.CloseWithError` | quic/streams_map_outgoing.go:239-253 | every waiting call finds its channel closed |
| `OutgoingStreams.OutgoingStreams.ServeWaiting` | quic/streams_map_outgoing.go:88-134 | with credit, the waiting calls go on by themselves until nobody waits or the credit is used up |
| `OutgoingStreams.OutgoingStreams.DeleteStream` | quic/streams_map_outgoing.go:175-187 | removes exactly a known stream |
| `OutgoingStreams.Serving` | quic/streams_map_outgoing.go:121-133 | serving the first call keeps arrival order: earlier calls have smaller IDs |
| `IncomingStreams.IncomingStreams.CreditIsConserved` | quic/streams_map_incoming.go:80-206 | streams in the map plus streams the peer may open plus withheld places is the configured number; nothing is withheld while the computed limit is a valid stream ID |
| `IncomingStreams.IncomingStreams.GetOrOpenStream` | quic/streams_map_incoming.go:122-160 | limit error exactly above the limit; opens all streams up to the ID, none of them marked for deletion; panics exactly for a new stream after closing; strands no call |
| `IncomingStreams.IncomingStreams.DeleteStream` | quic/streams_map_incoming.go:162-206 | a stream that was not accepted is only marked; unknown and twice deleted streams are errors; the limit never falls |
| `IncomingStreams.IncomingStreams.Remove` | quic/streams_map_incoming.go:192-205 | the peer may open one more stream, or the place is withheld; advertised limits increase strictly |
| `IncomingStreams.IncomingStreams.CheckAccept` | quic/streams_map_incoming.go:91-119 | streams are accepted exactly once in the order of their IDs, also those completed before; afterwards a sleeping call is stranded exactly if this call was the only one awake and leaves a stream behind without a signal |
| `IncomingStreams.IncomingStreams.BeginAccept` | quic/streams_map_incoming.go:80-86 | draining an old signal loses nothing if calls do not overlap |
| `IncomingStreams.IncomingStreams.WakeAccept` | quic/streams_map_incoming.go:103-108 | a sleeping call is woken by a signal or by closing; strands no call |
| `IncomingStreams.IncomingStreams.NotStranded` | quic/streams_map_incoming.go:80-119 | calls that do not overlap are never stranded |
| `IncomingStreams.IncomingStreams.CloseWithError` | quic/streams_map_incoming.go:208-216 | no call stays stranded; panics exactly if the map was closed before |
| `IncomingStreams.OverlappingAcceptsMissSignal` | quic/streams_map_incoming.go:80-119 | a concrete interleaving of two calls in which one sleeps without a signal although a stream is there |
| `IncomingStreams.OpenAfterClose` | quic/streams_map_incoming.go:122-160 | a run in which opening a stream after closing panics |
| `IncomingStreams.CloseTwice` | quic/streams_map_incoming.go:208-216 | a run in which closing the map twice panics |
| `Framer.Framer.Append` | quic/framer.go:89-155 | the frames have exactly the returned length, at most the size of the packet plus the excess of oversized stream control frames; only the last STREAM frame lacks its length; exactly the STREAM frames that the streams gave are in the packet; no control frame is lost, and one stays queued only if it does not fit behind those that come first; exactly the streams without more control frames are forgotten, and all are asked unless there is no room; the active streams at the front of the queue are asked, those with more data go to its end and the others are not active any longer, and all have their turn unless the packet is full |
| `Framer.Framer.AppendControlFrames` | quic/framer.go:157-210 | the frames are exactly the first PATH_RESPONSE if it fits, what the streams gave, and queued frames from the end of the queue until one does not fit; every queued frame is returned or still queued; exactly the streams without more control frames are forgotten, and all are asked unless there is no room |
| `Framer.Framer.FetchStreamControl` | quic/framer.go:174-196 | the frames are those that the streams gave; each stream is asked until it has no more; exactly the streams that have no more are forgotten; every stream is asked unless there is no room for the declared size |
| `Framer.Framer.TakeControlFrames` | quic/framer.go:198-207 | takes from the end until a frame does not fit |
| `Framer.Framer.AppendStreamFrames` | quic/framer.go:100-129 | only the last frame overdraws, by no more than its own length field; every frame that a stream gave is there; the queue rotates; stops early only if the packet is full |
| `Framer.Framer.GetNextStreamFrame` | quic/framer.go:248-271 | round-robin: a stream with more data goes to the end of the queue; every active stream stays in it |
| `StreamAnswers.Answer` | quic/send_stream.go:223-238 | what the framer relies on is what a send stream does: its frames have a length field and respect the size, except for a frame without data |
| `Framer.Framer.QueueControlFrame` | quic/framer.go:67-87 | both queue limits exactly |
| `Framer.Framer.AddActiveStream` | quic/framer.go:221-228 | an active stream is in the queue |
| `Framer.Framer.HasData` | quic/framer.go:55-65 | without data no stream is active and nothing is queued |
| `Framer.Framer.Handle0RTTRejection` | quic/framer.go:273-295 | the frames that do not belong to flow control survive, by compaction in place |
| `Framer.SurvivorsInOrder` | quic/framer.go:283-294 | exactly the frames that do not belong to flow control survive, in their order |
| `Framer.Overdraft` | quic/framer.go:257-260 | lent bytes are paid back in packets of up to 16383 bytes |
| `Framer.OverdraftInLargePacket` | quic/framer.go:257-260 | the bound on the packet size is sharp |
| `Framer.ResetStreamSizes` | quic/internal/wire/reset_stream_frame.go:54-79 | the computed length is that of the written frame; RESET_STREAM has the declared size, RESET_STREAM_AT exceeds the checked room by up to 7 bytes, and reaches that |
| `Framer.LargerFrame` | quic/framer.go:174-196 | for every size above 26 a framer and a stream control frame that make a packet for 26 bytes too long |
| `ConnIdGenerator.ConnIdGenerator.IssueNewConnID` | quic/conn_id_generator.go:137-151 | numbers are issued without gaps; the new ID is routed |
| `ConnIdGenerator.ConnIdGenerator.SetMaxActiveConnIDs` | quic/conn_id_generator.go:81-97 | fails exactly if one of the missing IDs cannot be generated; otherwise the number of active IDs is exactly the limit of the peer or the own maximum, unless there were more before |
| `ConnIdGenerator.ConnIdGenerator.Retire` | quic/conn_id_generator.go:99-125 | every error exactly, also that no new ID can be generated; a retired ID stays routed until its expiry, by which it is put into the list, and is replaced by the next number unless it was the first; all other active IDs stay |
| `ConnIdGenerator.QueueForRetiring` | quic/conn_id_generator.go:127-135 | the ID is inserted behind exactly those that expire at the same time or earlier |
| `ConnIdGenerator.ConnIdGenerator.SetHandshakeComplete` | quic/conn_id_generator.go:153-158 | the first ID of the client stays routed, and is queued with the given expiry |
| `ConnIdGenerator.ConnIdGenerator.RemoveRetiredConnIDs` | quic/conn_id_generator.go:160-171 | exactly the expired IDs are removed and not routed any more |
| `ConnIdGenerator.ConnIdGenerator.RemoveAll` | quic/conn_id_generator.go:173-183 | nothing stays routed |
| `TokenStore.SingleOriginTokenStore.Add` | quic/token_store.go:19-23 | the ring buffer is a bounded stack: adding to a full one drops the oldest token |
| `TokenStore.AddedIsNewest` | quic/token_store.go:19-23 | the new token is the newest one, and below it are the newest tokens of before |
| `TokenStore.SingleOriginTokenStore.Pop` | quic/token_store.go:25-31 | returns the newest token, nothing from an empty ring |
| `TokenStore.LruTokenStore.Put` | quic/token_store.go:70-99 | map and list agree; the origin that is dropped was used least recently; other origins keep their tokens; every token is accounted for |
| `TokenStore.LruTokenStore.Pop` | quic/token_store.go:101-116 | returns the newest token of the origin; no empty origin is kept |
| `TokenStore.PutThenPop` | quic/token_store.go:70-116 | the token that was put in last is the next one for its origin |
| `TokenStore.LruTokenStore.ReturnedAtMostOnce` | quic/token_store.go:70-116 | a token that was put in once is returned at most once and not after it was dropped |

## Left out

- SendStream.SendStream.BeginWrite: a Write call is split into steps at the points where it waits; deadlines are a step, not a clock.
- SendStream.SendStream.PopStreamFrame: needs a size of at most 16385 bytes, because the source's arithmetic for the length field
  is only right for two-byte lengths; STREAM_DATA_BLOCKED frames are an output of flow control and not modelled here.
- SendStream.SendStream.SetReliableBoundary: after the boundary was moved on a reset stream only the counter is described.
- SendStream.SendStream.EnableResetStreamAt: after a reset with a reliable part only the counter is described.
- SendStream: shutdown of the connection, which throws the frames away.
- StreamDelivery.Link.Write: the link has no resets, cancellations or write deadlines; they are covered for each side alone.
- Framer.Framer.Append: the streams are any function that answers as `StreamAnswers.Answer` says;
  flow control verdicts are parameters; packets of more than 16383 bytes are excluded by `Framer.OverdraftInLargePacket`.
- ReceiveStream.ReceiveStream.GetWindowUpdate: by how much the window grows is a parameter; auto-tuning is not modelled.
- FrameSorter.Sorter.Push: after the error about too many gaps the sorter is not used any more; the callback of that frame is lost.
- ChaosProtector.ChaosProtect: the random numbers are a parameter, any function of how many were drawn before.
- Handshake.EndToEnd: encryption, packet numbers and the loss of packets that are never repeated are not modelled.
- IncomingStreams.IncomingStreams.GetOrOpenStream: the read lock and the write lock are one step, since only one caller opens streams.
- OutgoingStreams.OutgoingStreams.CloseWithError: the streams themselves are not objects here, only their IDs.
- ConnIdManager.ConnIdManager.Add: the random number of packets per ID is a parameter.
- ConnIdGenerator.ConnIdGenerator.IssueNewConnID: generated IDs are unique by assumption; transports that are added later are not modelled.
- TokenStore.LruTokenStore.Put: the caches are values here, the bounded stacks that the ring buffer is proved to be; list elements are
  not objects.
- MtuFinder.MtuFinder.Reset: the generation counter does not wrap around.
- Sockets, buffers and system calls, the connection run loop, timers, TLS, packet protection, ACK handling, congestion control and
  logging.
- Short header packets, ACK frames inside of payloads other than as opaque bytes, and datagrams, which would only add easy members.
