# LocalSend for KOReader, and the PDF repair passes: models and proofs

This project models the parts of the repository whose behaviour spans many steps or many
parties, and proves what they keep. `dafny verify dfyconfig.toml` checks all of it.

**The WebRTC transfer.** `RtcProtocol` and `Framing` hold the messages, their classification and
the chunked control framing. `ReceiverModel` and `SenderModel` are the two sides as machines
that say what one message or frame does; `Receiver` and `Sender` hold the classes and loops of
the program, with their maps of writers, buffers, paths and hashers, proved to do what the
machines say. `ReceiverRuns` is the receiver under any traffic, `ReceiverChoices` what its
user's choices come to. `TransferSystem`, `TransferSafety` and `TransferProgress` put
`SendFiles` and the receiver together over two FIFO channels: any interleaving, any way of
cutting files into frames, any failure. `HandshakeSystem` is the exchange of nonces, tokens,
PINs and the file list between two sides whose messages arrive whole; `HandshakeFrames` runs the
two sides on frames, chunks and buffer limits included, and `WholeSession` goes on from there to
the transfer. `PinVerdicts` says whom a PIN lets on. `Backpressure` is the wait for the send
queue to drain.

**The HTTP receive session.** `Uploads` models concurrent `SaveFile` and `End` calls as threads
whose steps are mutex sections, atomic operations and file system calls; `UploadSafety` proves
what every step keeps and `UploadRuns` what follows for whole runs. `RecvSession` is the class
itself and shows that an uninterrupted call is one of those runs. `UploadRights` says which
calls are served and how the others are answered. `Retry` is the sender's retry loop against the
session, `UniqueFiles` the allocation of file names.

**Discovery and nonces.** `Discovery` is the store of devices with eviction, expiry and the best
channel, `Responder` the bounded, coalescing responder, `NonceCache` the LRU cache over a map
and a list.

**Markdown repair.** `Text` is splitting, trimming and joining at empty lines; `Structure` the
repair of dialogue, headings and hallucinated numbers, and `BlockFates` what that decides for
every block; `Hyphenation` is the merging of broken words, and `BrokenWords` says which those
are.

Conventions. Errors are values. What the world decides is a parameter: randomness, user answers,
which file system calls succeed, the order in which a Go map yields its entries, the
interleaving. Records called history or bookkeeping are read by no step of the program; they
only state properties. JSON is an encoding that can be undone, of which no proper suffix is JSON
and whose bare statuses fit a buffer of 2 MiB; signatures and SHA-256 are functions about which
nothing is assumed, the disk is a map from paths to bytes. No host contains a bar, so channels
of different hosts have different keys.

## Findings

Some properties one might expect do not hold without a condition. The lemmas named here show a
case where they fail, or say exactly when they hold, or both.

- A file may be saved without a success response: after a rejected header the receiver has
  dropped the connection but still accepts a good header that was on its way
  (`ReceiverRuns.UnansweredSave`, `ReceiverRuns.AnsweredIffLinked`).
- A failed `Create` leaves the allocator's hint where it was, so the next call tries the same
  suffixes again (`UniqueFiles.FullDirectoryIsSearchedAgain`, `UniqueFiles.NoSuffixTwiceIff`).
- A file list whose encoding is over 2 MiB is sent in chunks without a check (sender.go:631-651)
  and thrown away on arrival (receiver.go:687-692); so is an answer that long, on the other side
  (sender.go:401-405). Nothing is in flight then, and both sides wait, the sender until its timer
  fires after a minute (`HandshakeFrames.LongListIsLost`, `HandshakeFrames.EveryHandshakeEndsIff`).
- `GetAllDiscovered` depends on the order of map iteration when two devices share the host of
  their best channel, which two confirmations from one address bring about
  (`Discovery.OneAddressTwoDevices`, `Discovery.ListingIsUniqueIff`).
- Accepting one file id twice counts it twice, and no uploads end such a session
  (`RecvSession.AcceptKeepsCount`, `RecvSession.TwiceAcceptedNeverEnds`); the callers take ids
  from a map, so they never do.
- A retry fails for good if another upload takes the path reserved for it between two attempts
  (`Retry.RetryNeedsItsPath`).

A declared file size may be negative on the wire. The receiver then accepts no data frame, but
`currentBytes` is 0 and so larger than the declared size; the invariant says "no bytes, or at
most the declared size".

The wait for the send queue is sound because there is one waiter, as in the program: with two on
the same channel a wakeup could be lost (`Backpressure.OneWaiterIff`).

## Model

| member | source | states |
|---|---|---|
| Framing.SendJSONBinary | koreader-plugin/internal/webrtc/transfer/peer.go:579-594 | the chunking loop sends the chunks of the message in order, all of them exactly if the connection lasts, else as many as it lasted for |
| Framing.BufferStaysBounded | koreader-plugin/internal/webrtc/transfer/receiver.go:675-695 | for any frames the reassembly buffer and every reassembled message stay within 2 MiB |
| Framing.OneMessageArrives | koreader-plugin/internal/webrtc/transfer/receiver.go:675-695 | one message is reassembled exactly if it is not the bare text "0" and, when chunked, not empty and not over 2 MiB |
| Framing.RoundTrip | koreader-plugin/internal/webrtc/transfer/sender.go:393-408 | any sequence of messages, chunked or not, is reassembled by the same code on both sides into exactly those messages, once each, in order |
| Framing.MessagesArriveAsMeant | koreader-plugin/internal/webrtc/transfer/rtc_protocol.go:91-155 | from message to message: encoded, framed, reassembled, decoded and classified by the ordered tests, any sequence of messages that fit is understood as it was meant, in order, if and only if in none of them a string the classification keys on is empty |
| ReceiverModel.PreparedExactly | koreader-plugin/internal/webrtc/transfer/receiver.go:416-446 | a file gets a token exactly if it is accepted, offered and has a usable name, and the token is one generated for that id |
| ReceiverModel.StepKeepsInvariant | koreader-plugin/internal/webrtc/transfer/receiver.go:635-728 | every event, malformed or not, keeps: receiving iff a file is open; the open file was offered and accepted and its bytes are within its declared size; the control buffer is bounded; the disk is the old disk plus exactly the finished files, each of declared length and checksum at its own fresh path |
| ReceiverRuns.EveryRunIsSound | koreader-plugin/internal/webrtc/transfer/receiver.go:1143-1372 | after any sequence of frames, closes and new offers from a fresh receiver the invariant holds, nothing that was on the disk before has changed, and every other path holds a finished file of declared length and matching hash; no partial file remains once done |
| ReceiverRuns.StepAnswers | koreader-plugin/internal/webrtc/transfer/receiver.go:1280-1355 | one event reports success for exactly the files it finishes, unless the peer is already dropped |
| ReceiverRuns.AnsweredIffLinked | koreader-plugin/internal/webrtc/transfer/receiver.go:1214-1225 | over a whole run the success responses are exactly the saved files in order if and only if no file was finished after the peer had been dropped |
| ReceiverRuns.UnansweredSave | koreader-plugin/internal/webrtc/transfer/receiver.go:1214-1225 | that condition can fail: after a rejected header a good header already on its way is received and saved without a response |
| ReceiverChoices.OfferIsAnsweredAsChosen | koreader-plugin/internal/webrtc/transfer/receiver.go:917-1022 | an offer is declined if and only if it has over 10000 files or the user selects nothing (without a callback: if it is empty); otherwise exactly the selected files that are offered with a usable name get tokens, and the sender is told these |
| ReceiverChoices.OnlyChosenFilesAreSaved | koreader-plugin/internal/webrtc/transfer/receiver.go:949-1199 | over every run of a new receiver: tokens are held for exactly those files of this session, a file is opened only by a header with its id and token, and every file saved had been selected |
| ReceiverChoices.EndOfFileIsReported | koreader-plugin/internal/webrtc/transfer/receiver.go:1280-1355 | a file that ends is saved and reported as a success if and only if its announced checksum and size are right and it was written, flushed and closed; else the report names what failed, the checksum before the writing before the size |
| Receiver.RTCReceiver.HandleDataMessage | koreader-plugin/internal/webrtc/transfer/receiver.go:635-728 | the method over the writer, buffer, path and hasher maps does what the machine does, sends what it sends, and keeps Valid: the maps hold exactly the current file or nothing, currentBytes agrees with the hashed bytes and the declared size, the disk is the finished files plus the open one |
| Receiver.RTCReceiver.PrepareFilesForReceive | koreader-plugin/internal/webrtc/transfer/receiver.go:416-446 | the token map it builds is the specified one |
| Receiver.RTCReceiver.HandleNonce | koreader-plugin/internal/webrtc/transfer/receiver.go:730-773 | validates and combines the nonces, answers with its own and waits for the token, as the machine says, or changes nothing |
| Receiver.RTCReceiver.HandleToken | koreader-plugin/internal/webrtc/transfer/receiver.go:775-842 | asks for a PIN if one is set, else answers OK; new state and outbox as specified |
| Receiver.RTCReceiver.HandlePin | koreader-plugin/internal/webrtc/transfer/receiver.go:844-885 | does what the machine does with a PIN; PinVerdicts says over all runs whom that lets on |
| Receiver.RTCReceiver.HandleFileList | koreader-plugin/internal/webrtc/transfer/receiver.go:887-1022 | does what the machine does with an offer or a PIN request; ReceiverChoices says what that answers and accepts |
| Receiver.RTCReceiver.StartReceivingFile | koreader-plugin/internal/webrtc/transfer/receiver.go:1143-1199 | opens the announced file or rejects the header; exactly one entry in each map afterwards, or none |
| Receiver.RTCReceiver.HandleBinaryData | koreader-plugin/internal/webrtc/transfer/receiver.go:1227-1260 | appends a data frame, or drops the file if it would exceed the declared size; the addition does not overflow int64 |
| Receiver.RTCReceiver.FinishCurrentFile | koreader-plugin/internal/webrtc/transfer/receiver.go:1280-1355 | checks size, flush, close and checksum in that order, keeps or removes the file, and reports the matching response |
| Receiver.RTCReceiver.CleanupPartialFiles | koreader-plugin/internal/webrtc/transfer/receiver.go:267-281 | removes every partial file and empties the maps, leaving finished files alone |
| Receiver.RTCReceiver.AcceptOffer | koreader-plugin/internal/webrtc/transfer/receiver.go:526-600 | resets the session state for a new offer and keeps the invariant |
| Receiver.RTCReceiver.Close | koreader-plugin/internal/webrtc/transfer/receiver.go:1358-1372 | closes with no partial file left |
| Sender.QueueIsSendable | koreader-plugin/internal/webrtc/transfer/sender.go:815-841 | the queue holds exactly the accepted ids that have a token and local metadata, in order |
| Sender.PrepareSendQueue | koreader-plugin/internal/webrtc/transfer/sender.go:815-841 | the indexed loop builds that queue |
| Sender.SendContent | koreader-plugin/internal/webrtc/transfer/sender.go:905-935 | reading in blocks and sending in frames of at most 16 KiB, whatever the short reads, sends the content of the file and nothing else |
| Sender.SendFiles | koreader-plugin/internal/webrtc/transfer/sender.go:856-979 | performs exactly the header, data, next header, acknowledgement sequence of the transfer machine; returns nil only after its last action, an error only before it or when the peer closes at the end |
| Sender.RTCSender.HandleDataMessage | koreader-plugin/internal/webrtc/transfer/sender.go:387-453 | reassembles, classifies and dispatches as the sender machine does; a file response goes into the capacity-one channel or is dropped |
| Sender.RTCSender.HandleNonceResponse | koreader-plugin/internal/webrtc/transfer/sender.go:456-494 | combines the nonces and sends the token, as specified, or fails |
| Sender.RTCSender.HandleTokenResponse | koreader-plugin/internal/webrtc/transfer/sender.go:496-547 | answers a PIN request, gives up, or goes on to the file list |
| Sender.RTCSender.HandleRequiredPIN | koreader-plugin/internal/webrtc/transfer/sender.go:561-588 | checks the receiver's PIN, counts wrong ones, and gives up after the third |
| Sender.RTCSender.HandleFileAcceptance | koreader-plugin/internal/webrtc/transfer/sender.go:654-787 | takes over the receiver's tokens, or records that the offer was declined |
| TransferSafety.NoAckIsDropped | koreader-plugin/internal/webrtc/transfer/sender.go:426-429 | in every reachable state of the two-party system at most one acknowledgement is in flight or buffered, and the non-blocking send has dropped none |
| TransferSafety.NilMeansDelivered | koreader-plugin/internal/webrtc/transfer/sender.go:856-979 | whenever SendFiles has returned nil, every queued file was saved byte for byte in queue order and got exactly one success acknowledgement, in every interleaving and with every failure |
| TransferProgress.StepDecreases | koreader-plugin/internal/webrtc/transfer/sender.go:856-979 | every action of every run decreases a measure fixed by the queue |
| TransferProgress.RunsAreBounded | koreader-plugin/internal/webrtc/transfer/sender.go:856-979 | so no run is longer than that measure |
| TransferProgress.FaultlessRunsDeliver | koreader-plugin/internal/webrtc/transfer/receiver.go:635-673 | without failures a run that can go no further has returned nil with everything delivered, in every interleaving |
| HandshakeFrames.ReceiverFrame | koreader-plugin/internal/webrtc/transfer/receiver.go:675-695 | each frame the receiver handles is a step of the handshake between messages, or fills its buffer, or is the end of a list over 2 MiB, which is lost |
| HandshakeFrames.SenderFrame | koreader-plugin/internal/webrtc/transfer/sender.go:393-408 | the same for the frames the sender handles and the answer to the list |
| HandshakeFrames.EveryHandshakeEndsIff | koreader-plugin/internal/webrtc/transfer/sender.go:456-651 | whatever PINs are given, at most 42 messages and their frames; both final nonces, once held, are equal; when no frame is left the handshake has ended (both sides failed after three wrong PINs, the offer was declined, or the sender holds exactly the receiver's tokens) if and only if the list, if sent, and the answer, if it was accepted, are within 2 MiB; otherwise one of them was lost and both sides wait |
| HandshakeFrames.NeverStuck | koreader-plugin/internal/webrtc/transfer/receiver.go:730-1022 | while a frame is on its way to a side, that side can handle it, whatever its user answers |
| HandshakeFrames.LongListIsLost | koreader-plugin/internal/webrtc/transfer/sender.go:631-651 | for every list over 2 MiB, without PINs and whatever the answers, a run after which no frame is left, the sender waits for an answer and the receiver for a list |
| PinVerdicts.ReceiverPinDecides | koreader-plugin/internal/webrtc/transfer/receiver.go:844-885 | over every run, frame by frame: a receiver with a PIN lets the sender on if and only if one of the answers that arrived is that PIN, has counted every other, has given up exactly if three arrived and none is right, and asks for nothing after the right one; a receiver without a PIN asks for none |
| PinVerdicts.WithoutThePin | koreader-plugin/internal/webrtc/transfer/receiver.go:859-881 | whatever else happens, a sender whose answers are never the PIN never gets as far as the file list |
| PinVerdicts.WithThePin | koreader-plugin/internal/webrtc/transfer/receiver.go:859-864 | a sender whose answers are the PIN has no wrong attempt counted, and is let on before the handshake rests |
| PinVerdicts.SenderPinDecides | koreader-plugin/internal/webrtc/transfer/sender.go:549-588 | the same for the PIN a sender requires: the files are offered if and only if one of the receiver's answers that arrived is that PIN, every other is counted, and the third wrong one ends it |
| PinVerdicts.WithoutTheRequiredPin | koreader-plugin/internal/webrtc/transfer/sender.go:561-588 | a receiver whose answers are never the required PIN is never offered the files |
| HandshakeSystem.OfferIsAnswered | koreader-plugin/internal/webrtc/transfer/receiver.go:887-1022 | an offer that has arrived is declined, or accepted with non-empty tokens for offered files with usable names; HandshakeFrames says when one arrives |
| WholeSession.HandshakeKeepsDisk | koreader-plugin/internal/webrtc/transfer/receiver.go:730-1022 | no handshake, frame by frame, touches the disk or reports a saved file |
| WholeSession.AcceptanceStartsTransfer | koreader-plugin/internal/webrtc/transfer/sender.go:654-787 | an accepted handshake, whose list and answer then were within 2 MiB, leaves both sides in a state from which the whole queue can be transferred |
| WholeSession.SessionDelivers | koreader-plugin/internal/webrtc/transfer/sender.go:815-979 | handshake and transfer together, frame by frame: accepted, which takes a list and an answer within 2 MiB, and nil returned, means every accepted file is on the disk byte for byte, in order, acknowledged once |
| WholeSession.FittingSessionSucceeds | koreader-plugin/internal/webrtc/transfer/sender.go:631-979 | with a list and an answer within 2 MiB and no PINs, a handshake with no frame left was declined or accepted, and a faultless transfer after acceptance that can go no further has delivered every accepted file |
| Backpressure.NoLostWakeup | koreader-plugin/internal/webrtc/transfer/peer.go:491-517 | in every run, if the waiter is parked at or below its limit, a token is in the channel or a low-water callback is still to run, whatever stale tokens are left and whoever enqueues |
| Backpressure.WaiterReturns | koreader-plugin/internal/webrtc/transfer/peer.go:491-517 | from there every schedule of waiter and callbacks lets the waiter return, within a fixed number of steps, without any further release |
| Backpressure.SecondWaiterSleeps | koreader-plugin/internal/webrtc/transfer/peer.go:491-517 | two waiters, which the program does not have: for every limit a run from idle leaves the second parked below it with nothing to wake it |
| Backpressure.OneWaiterIff | koreader-plugin/internal/webrtc/transfer/peer.go:183-188 | no run from idle with n waiters loses a wakeup if and only if n is at most one |
| Backpressure.DataChannel.WaitBufferBelow | koreader-plugin/internal/webrtc/transfer/peer.go:491-517 | the wait loop performs a run of that machine; nil means the amount is at or below the limit, and it gives up only when the timer fires or the peer closes |
| UniqueFiles.ScanFindsFirst | koreader-plugin/internal/utils/files.go:94-122 | the search ends at the first path that is not taken: created there, refused there, or exhausted past suffix 10000 |
| UniqueFiles.CreateUniqueFileFrom | koreader-plugin/internal/utils/files.go:94-122 | the probing loop finds what the search specifies, tries exactly its suffixes, and changes nothing on the disk but the path it creates |
| UniqueFiles.HintAgreesIff | koreader-plugin/internal/utils/files.go:56-83 | searching from a hint is searching from the bare name if and only if every name below the hint is taken |
| UniqueFiles.HintedCreateIsScan | koreader-plugin/internal/utils/files.go:56-83 | after any history without deletions a hinted Create gives the path, or the failure, of a search from the bare name |
| UniqueFiles.NoSuffixTwiceIff | koreader-plugin/internal/utils/files.go:56-83 | no suffix of a name is tried twice if and only if no Create of that name follows one that failed after trying something |
| UniqueFiles.FullDirectoryIsSearchedAgain | koreader-plugin/internal/utils/files.go:62-67 | the failing case: with every name taken each call tries them all again |
| UniqueFiles.UniqueFileAllocator.Create | koreader-plugin/internal/utils/files.go:56-83 | the hint map and the disk change as specified and hints stay below taken names only |
| UploadSafety.StepKeepsSafe | koreader-plugin/internal/localsend/session/recv.go:236-455 | every step of every thread, in any interleaving, keeps all the invariants of counter, attempts and disk |
| UploadRuns.CounterIsExact | koreader-plugin/internal/localsend/session/recv.go:435-455 | while the session is started filesCount is the number of non-terminal files plus the threads whose decrement is still to come |
| UploadRuns.EndsWithLastFile | koreader-plugin/internal/localsend/session/recv.go:499-506 | without a kill the session is over exactly when its last file is terminal, and never before; End returns true at most once |
| UploadRuns.AttemptsAreBounded | koreader-plugin/internal/localsend/session/recv.go:252-269 | at most three attempts per file, at most one at a time |
| UploadRuns.FilesEvolve | koreader-plugin/internal/localsend/session/recv.go:435-447 | a terminal file never changes again, attempts only grow, and the target chosen by the first attempt stays |
| UploadRuns.PendingFileWaits | koreader-plugin/internal/localsend/session/recv.go:252-269 | whatever other uploads do between two attempts at a file, its entry stays as it was and the session stays started, unless End is called from outside |
| UploadRuns.OnlyOwnDraftsChange | koreader-plugin/internal/localsend/session/recv.go:305-345 | a step overwrites, truncates or removes a file only if its own thread created it |
| UploadRuns.DiskIsConserved | koreader-plugin/internal/localsend/session/recv.go:305-420 | once all threads have returned the disk is what others put there, unchanged, plus one copy of each finished file, of declared length and checksum, and nothing else |
| UploadRuns.EveryThreadReturns | koreader-plugin/internal/localsend/session/recv.go:236-455 | no thread waits for another: in any run each takes at most ten steps, and until it has returned it can take its next one |
| UploadRuns.OvercountedNeverEnds | koreader-plugin/internal/localsend/session/recv.go:435-455 | if the counter starts too high by d it stays too high by d in every run, and the session is never over by itself |
| RecvSession.AttemptIsRun | koreader-plugin/internal/localsend/session/recv.go:236-455 | an uninterrupted SaveFile is a run of one thread of the interleaving model |
| RecvSession.SoloRunIsAttempt | koreader-plugin/internal/localsend/session/recv.go:236-455 | and every such run that has returned is that SaveFile: same answer, same session, same disk |
| RecvSession.RecvSession.SaveFile | koreader-plugin/internal/localsend/session/recv.go:236-433 | the method over the session's fields and the disk does what one attempt does; UploadRights says whom it serves and with which answers |
| RecvSession.RecvSession.FinishFileAttempt | koreader-plugin/internal/localsend/session/recv.go:435-455 | status, counter and end of the session after an attempt |
| RecvSession.RecvSession.End | koreader-plugin/internal/localsend/session/recv.go:499-506 | true exactly for the call that ends the session |
| RecvSession.RecvSession.Stopped | koreader-plugin/internal/localsend/session/recv.go:508-518 | timed out, not started, or nothing left |
| RecvSession.RecvSession.AcceptFile | koreader-plugin/internal/localsend/session/recv.go:110-141 | the three refusals in order, else the file is stored and counted |
| RecvSession.AcceptKeepsCount | koreader-plugin/internal/localsend/session/recv.go:131-138 | the counter stays the number of files if and only if the id was not accepted before |
| RecvSession.TwiceAcceptedNeverEnds | koreader-plugin/internal/localsend/session/recv.go:435-455 | after a second acceptance of one id no run of uploads, however long, ends the session, unless End is called from outside |
| RecvSession.NewSession | koreader-plugin/internal/localsend/session/recvsessman.go:121-145 | a session is created exactly if there is room, not too many files, and every id matches; it then holds exactly the offered files, whatever the map order |
| RecvSession.OfferedStarts | koreader-plugin/internal/localsend/session/recvsessman.go:121-145 | such a session starts with an exact counter |
| UploadRights.UnauthorisedIsTurnedAway | koreader-plugin/internal/localsend/session/recv.go:236-262 | over every interleaving: a call whose token is not the one issued for its file, or that comes from another address, returns a rejection (or invalid body if an id or token is empty), and none of its steps changes session or disk |
| UploadRights.ClaimsIff | koreader-plugin/internal/localsend/session/recv.go:241-269 | an authorised call is admitted exactly while the session is started, and claims its file exactly while that is pending; otherwise it is rejected and changes nothing |
| UploadRights.ServedIff | koreader-plugin/internal/localsend/session/recv.go:236-433 | after any run, a call that then runs by itself on a working system returns success if and only if it has the token and the address, the session is started, the file pending, its path free and the body right; then the body is on the disk at that path, nothing else there has changed and the file is finished |
| UploadRights.AttemptAnswers | koreader-plugin/internal/localsend/session/recv.go:236-433 | every answer of a call, for every failure of the file system, in terms of the request and the session's fields |
| Retry.BothSidesAgree | koreader-plugin/internal/localsend/send/fwdsend.go:277-286 | for a body of the announced size the sender succeeds if and only if one of its first three bodies matches; both sides stop after the same attempt; it is never refused |
| Retry.BothSidesAgreeAmongOthers | koreader-plugin/internal/localsend/session/recv.go:252-323 | the same over the interleaving model, after any run and with any runs of other threads, senders and programs between the attempts, as long as nobody claims the file, calls End or takes its reserved path |
| Retry.OtherUploadsDoNotDisturb | koreader-plugin/internal/localsend/session/recv.go:252-323 | other uploads, interleaved in any way between two attempts, leave the receiver as the next attempt needs it, as long as nobody claims the file, calls End or takes its path |
| Retry.RetryNeedsItsPath | koreader-plugin/internal/localsend/session/recv.go:312-323 | a retry with a matching body succeeds if and only if nobody has created the reserved path meanwhile |
| Retry.SendFileWithRetry | koreader-plugin/internal/localsend/send/fwdsend.go:277-286 | the retry loop against the session is that joint run |
| NonceCache.RunFitsHistory | koreader-plugin/internal/localsend/nonce_cache.go:37-106 | after any operations at most capacity entries, one per id, each with the nonce last put and not deleted since, ordered by last use |
| NonceCache.OnlyLeastRecentLeaves | koreader-plugin/internal/localsend/nonce_cache.go:61-71 | an id leaves exactly if it is deleted, or a new id is put into a full cache while it is the least recently used |
| NonceCache.GetIsLastPut | koreader-plugin/internal/localsend/nonce_cache.go:78-95 | Get answers with the nonce last put, if at all |
| NonceCache.Cache.PutNonce | koreader-plugin/internal/localsend/nonce_cache.go:37-72 | map and list change together as the recency sequence does; the caller's buffer stays outside |
| NonceCache.Cache.GetNonce | koreader-plugin/internal/localsend/nonce_cache.go:78-95 | the answer, in a buffer of the caller's own, and the move to the front |
| NonceCache.Cache.Delete | koreader-plugin/internal/localsend/nonce_cache.go:98-106 | removes the entry from map and list |
| NonceCache.WritesDoNotReach | koreader-plugin/internal/localsend/nonce_cache.go:41-43 | later writes to the buffer handed in or handed out do not change what the cache answers |
| Discovery.BestIsUnique | koreader-plugin/internal/localsend/scan.go:816-839 | two best channels are the same channel: the answer does not depend on the map order |
| Discovery.BetterTotal | koreader-plugin/internal/localsend/scan.go:829-836 | between channels of different hosts exactly one is better |
| Discovery.TiesNeedOneHost | koreader-plugin/internal/localsend/scan.go:834-836 | two channels of one host could tie, which is why an entry keeps one per host |
| Discovery.BestDiscoveryChannel | koreader-plugin/internal/localsend/scan.go:816-839 | the loop, in any order, returns a channel if there is one: an IPv6 one if there is any; of that family none was seen later; of those seen at that time none has a smaller host |
| Discovery.BestIsPreferred | koreader-plugin/internal/localsend/scan.go:826-836 | the maximum of the comparison is exactly the channel so preferred |
| Discovery.StoreStaysOk | koreader-plugin/internal/localsend/scan.go:859-897 | over any history: at most 512 devices, one channel per host, every channel its host's last confirmation, lastSeen the maximum over the channels |
| Discovery.CleanupIsExact | koreader-plugin/internal/localsend/scan.go:478-503 | cleanup keeps exactly the channels within the time to live and the devices that have one; its two conditions for removal coincide |
| Discovery.PutRemovesOldest | koreader-plugin/internal/localsend/scan.go:871-880 | a confirmation removes a device only if the store is full and the device new, and then one of minimal lastSeen |
| Discovery.ConfirmationAddsOne | koreader-plugin/internal/localsend/scan.go:859-897 | after any history a confirmation gives its device a channel at its address in place of the one it had there, and every other channel of the device stays |
| Discovery.Discoverer.PutDiscovered | koreader-plugin/internal/localsend/scan.go:859-897 | the store after a confirmation, for whichever oldest entry the scan finds |
| Discovery.Discoverer.CleanupStaleAt | koreader-plugin/internal/localsend/scan.go:478-503 | the store after a cleanup |
| Discovery.Discoverer.GetAllDiscovered | koreader-plugin/internal/localsend/scan.go:841-857 | answers for every device that has a channel, under the host of its preferred channel and with its protocol and port, and for nothing else |
| Discovery.ListingIsUniqueIff | koreader-plugin/internal/localsend/scan.go:841-857 | after any history the listing is independent of the map order if and only if no two devices have best channels of one host and different answers; if all announce fingerprints, if and only if no two devices share the host of their best channels |
| Discovery.OneAddressTwoDevices | koreader-plugin/internal/localsend/scan.go:841-897 | two devices confirmed from one address reach such a store, with its two listings |
| Responder.BoundedAndCoalesced | koreader-plugin/internal/localsend/scan.go:649-688 | in every interleaving at most eight responses, one per key; semaphore and set hold exactly what is under way and are empty once all is done |
| Responder.NothingWaits | koreader-plugin/internal/localsend/scan.go:666-688 | in any run a call with its response takes at most five steps, and until it is done it can take its next one |
| Responder.Discoverer.RespondToAnnouncement | koreader-plugin/internal/localsend/scan.go:649-688 | an uninterrupted call is such a run, responds exactly if the key is new and a slot free, and leaves both fields as they were |
| Structure.CleanupIsIdempotent | src/pdf_to_epub/converter.py:434-470 | for every text a second cleanup changes nothing and reports no dialogue, heading or hallucination |
| Structure.CleanupKeepsWords | src/pdf_to_epub/converter.py:434-470 | for every text nothing is lost or added but whitespace, characters of number sequences and heading marks |
| Structure.DialogueLeavesNone | src/pdf_to_epub/converter.py:440-445 | the dialogue pass leaves no match, although matches consume the quote they end with |
| Structure.FixPartsIsGood | src/pdf_to_epub/converter.py:447-465 | no processed block would be processed again, and none holds a dialogue match |
| Structure.CountingIsHallucinatedIff | src/pdf_to_epub/converter.py:420-431 | a block that only counts is taken for a hallucination if and only if it holds at least 25 numbers |
| Structure.CleanupOcrStructure | src/pdf_to_epub/converter.py:434-470 | the loops over matches and parts compute that cleanup and its three counts; BlockFates says what it does to a text |
| BlockFates.CleanupByBlocks | src/pdf_to_epub/converter.py:434-470 | the whole cleanup: dialogue is split at every boundary, then every block has its fate and every break stays; the three numbers are those of boundaries, marked blocks and dropped blocks |
| BlockFates.BlockFate | src/pdf_to_epub/converter.py:446-465 | a block is dropped if and only if it is number characters only, holds at least 25 numbers and at least nine tenths of the places between them go on by one or start over at 1 from 20 or more; else it is marked if and only if it is one line, no heading yet, that looks like one; else it is kept as it is |
| BlockFates.PrintedListIsDroppedIff | src/pdf_to_epub/converter.py:420-431 | a block that prints numbers of up to seven digits, with any separator of number characters, is dropped if and only if the list itself meets those two conditions |
| BlockFates.DialogueIsSplit | src/pdf_to_epub/converter.py:437-445 | the number of splits is the number of boundaries between speeches, none is left, and a text without any comes back as it is |
| BlockFates.SplitAtBoundary | src/pdf_to_epub/converter.py:437-445 | at every boundary the blanks become one empty line, and the text on either side is split by itself |
| Text.NormalIsJoin | src/pdf_to_epub/converter.py:467-468 | collapsing and stripping newlines leaves the non-empty blocks, an empty line apart |
| Text.PartsOfJoin | src/pdf_to_epub/converter.py:446 | splitting such a text finds the same blocks again |
| Hyphenation.FixConserves | src/pdf_to_epub/converter.py:281-324 | on every input and language: equal apart from hyphens and whitespace, and the count is the number of hyphens removed |
| Hyphenation.FixCountsChanges | src/pdf_to_epub/converter.py:281-324 | the count is zero if and only if the text comes back unchanged |
| Hyphenation.BrokenWordIsJoinedIff | src/pdf_to_epub/converter.py:281-324 | all passes together, on any text and language: a word broken at a line end or by blanks, after at least two of its letters, is joined if it goes on in lower case and left as it is otherwise, and what is before and after it keeps everything but hyphens and whitespace |
| BrokenWords.BrokenAtLineEnd | src/pdf_to_epub/converter.py:311 | a word counts as broken at a line end exactly if it is a letter, a visible hyphen, one line feed among blanks, perhaps after a carriage return, and a letter |
| BrokenWords.BrokenByBlanks | src/pdf_to_epub/converter.py:314 | and as broken by blanks exactly if there are only blanks of the line, one at least, between hyphen and letter |
| BrokenWords.SoftPassIsExact | src/pdf_to_epub/converter.py:307-308 | the first pass removes exactly the soft hyphens between two letters |
| BrokenWords.TurkishWordIsJoinedIff | src/pdf_to_epub/converter.py:317-323 | a hyphenated word standing alone is joined by the last pass if and only if its second part is lower case and looks like a Turkish suffix, and the text around it is worked on by itself |
| Hyphenation.ConsumedLetterWaits | src/pdf_to_epub/converter.py:311-312 | the passes are not idempotent: a hyphen right after a merged letter is left for the next time |
| Hyphenation.FixHyphenation | src/pdf_to_epub/converter.py:281-324 | the passes one after the other compute that result and count |

## Left out

- PAIR and pinned keys: the pairing messages, trusted devices and key checks; the handshake states
  nothing about keys, and neither side pins one.
- Receiver.RTCReceiver.HandleFileList: leaves out the branch for pairing answers.
- Sender.RTCSender.HandleFileAcceptance: leaves out the branch for pairing requests.
- Receiver.RTCReceiver.AcceptOffer: leaves out the flag that keeps a second offer out while one is
  being accepted, and the failures of setting up the peer connection, which end in no session.
- Timeouts of the handshake: a side that waits for a lost message waits for ever in the model; the
  sender's timers (sender.go:314, 345) end its wait with an error, the receiver's goes on.
- Sockets, TLS, ICE, STUN, WebSocket signaling, multicast and HTTP routing: only FIFO channels, or
  a call and its status, remain of them.
- JSON, base64, zlib and signatures: an encoding that is undone by its decoder, and functions.
- Send failures on the receiver's side: while the peer connection is set a message goes out; when
  it is not set nothing does.
- bufio.Writer: buffered bytes, an arbitrary amount of which reaches the disk with each write, and
  an error that sticks.
- os.Remove: assumed to succeed where the program ignores its error.
- The folder remapping, extension routing, file timestamps and path sanitising: whether a name
  is usable, and which fresh path is chosen, are parameters.
- Uploads.Env: the fresh path of a concurrent upload is any path not on the disk, which is what
  UniqueFiles proves of one allocation; allocations that overlap are not modelled suffix by suffix.
- UniqueFiles.Naming: how directory, name and suffix are spelled as a path is an arbitrary
  function; two names may share a path.
- RecvSession.Disk.CopyInto: receives the body as one value cut at the limit, not block by block;
  reads from the network and their activity timestamps are not modelled.
- The session manager's map, vacuum and admission of new sessions: a killed session is one on
  which End was called from outside. Timeouts appear only in Stopped.
- A session with no files never reaches zero by counting down, so UploadRuns.EndsWithLastFile speaks
  of sessions with files; newSessionLocked is guarded against empty requests by its main caller.
- Retry.BothSidesAgree: assumes that between attempts nobody ends the session, touches this file's
  entry or creates its reserved path; Retry.BothSidesAgreeAmongOthers derives the first two from
  runs in which nobody claims the file or calls End. An aborted sender, which returns nil without
  sending, is not modelled.
- Sender.RTCSender.HandleFileResponse: the channel of asynchronous errors is not modelled beside
  the channel of results.
- Sender.SendFiles: reads, sends and acknowledgements fail where a parameter says so; the timers
  behind them are not modelled, and the wait for the send queue is modelled in Backpressure.
- Connection loss in TransferSystem: frames already sent may stay unhandled for ever; a peer that
  closes is an abort of SendFiles.
- NonceCache.Cache: the doubly linked list is a sequence of element references; a negative
  capacity behaves like zero.
- Discovery: device types are not normalised; the fields of an announcement beyond fingerprint,
  alias, protocol and port are not modelled.
- Structure.IsHallucinated: the ratio of floats is compared as integers, ten times the
  transitions against nine times the steps, which agrees for every length that fits in memory.
- Structure.IsHeading: the chapter pattern is an arbitrary predicate on single lines.
- Hyphenation.Fix: whether the language is Turkish is a parameter, as are letters, digits, lower
  case and case folding beyond ASCII.
- The table repair, Pandoc and Calibre calls, OCR, user interfaces, packaging: not modelled.
