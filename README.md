# MSRP session core of the RCS IMS stack

This project models the MSRP (Message Session Relay Protocol, RFC 4975) layer of the
Orange Labs RCS IMS stack and proves properties of the model. It covers five parts:

- **`MsrpSession`.** It sends a content as a run of SEND requests, one per chunk read
  from an input stream. It answers received SEND requests with `200 OK` and reassembles
  their chunks. It sends a success REPORT for the last chunk, releases the response and
  report waits, and reports progress to its event listener.
- **`DataChunks`.** This is the buffer in which received chunks accumulate.
- **`ChunkSender`.** It writes frames to the connection's output stream, either at once
  or through a FIFO queue that a background loop drains.
- **`gov.nist.core.Utils`.** It compares strings without regard to case.

Files:

- `wire.dfy` (module `Wire`) holds the byte-level encodings the session relies on:
  - `String.getBytes` as UTF-8;
  - `Long.toString` for decimal numbers, with a reader for it;
  - `Integer.toHexString` for the identifiers, with a reader for it;
  - the 32-bit integers that `Random.nextInt` returns.
- `utils.dfy` (module `NistUtils`) holds `compareToIgnoreCase` and `equalsIgnoreCase`. It
  also gives independent definitions to check them against: lexicographic order, and
  "same letter up to case".
- `frames.dfy` (module `MsrpFrames`) holds three things:
  - the frames the session writes (SEND request, response and REPORT), with the byte
    layout each writer appends to its `ByteArrayOutputStream`;
  - an independent frame reader. As a peer does, it ends a body at the first line break
    followed by `-------`, the transaction identifier and a continuation flag;
  - the proof that every response and REPORT the session writes reads back as itself, and
    that a SEND request does so exactly when its chunk does not hold that end-line.
- `data_chunks.dfy` (module `MsrpDataChunks`) holds the class `DataChunks`.
- `chunk_sender.dfy` (module `MsrpChunkSender`) holds the class `ChunkSender`.
- `transfer.dfy` (module `MsrpTransfer`) describes what a session does as functions of its
  inputs:
  - `SendChunksTrace` is everything one `sendChunks` call hands to the connection, tells
    the listener and does on the semaphores, together with how the call ends.
  - `OnSend` is the effect of one received SEND request.
- `session.dfy` (module `MsrpSessions`) holds the class `MsrpSession`. Its methods are
  proved to follow those functions:
  - `SendChunks` produces the trace `SendChunksTrace` describes.
  - `ReceiveMsrpSend` produces the buffer, frames and listener calls `OnSend` describes.
- `session_laws.dfy` (module `MsrpSessionLaws`) holds what is proved about those functions:
  - byte ranges tile the content;
  - the last chunk alone is flagged `$`;
  - an undisturbed transfer delivers every chunk, in order, and the peer reads them back;
  - a transfer ends notified, cancelled or failed, and each case is characterised;
  - a run of received chunks reassembles into the content.

A concurrent `close()` is modelled by `closeAt`, the point in the sending thread's run at
which the close lands. Point 2j is before the loop guard of iteration j reads the cancel
flag. Point 2j+1 is before the check that guards that iteration's progress notification or,
when the loop leaves at iteration j, before the final check. The point after the final check,
2j+2, is during the report wait. A wait on a semaphore is recorded as a `WaitResponse`
or `WaitReport` signal, after which the session goes on. Writing frames to the connection
is modelled by the `ChunkSender` that carries them. The stream of one connection is the
sequence of whole frames written to it.

## Model

| member | source | states |
|---|---|---|
| NistUtils.CompareToZeroIff | branches/v2.0.0/core/src/gov/nist/core/Utils.java:39 | `String.compareTo` is 0 exactly when the two strings are equal |
| NistUtils.CompareToSwap | branches/v2.0.0/core/src/gov/nist/core/Utils.java:39 | swapping the arguments of `compareTo` negates its result |
| NistUtils.CompareToOrder | branches/v2.0.0/core/src/gov/nist/core/Utils.java:39 | `compareTo` is negative exactly when the first string sorts lexicographically before the second |
| NistUtils.CompareToIgnoreCaseZeroIff | branches/v2.0.0/core/src/gov/nist/core/Utils.java:36-40 | `compareToIgnoreCase` is 0 exactly when the upper-cased strings are equal |
| NistUtils.CompareToIgnoreCaseReflexive | branches/v2.0.0/core/src/gov/nist/core/Utils.java:36-40 | every string compares equal to itself |
| NistUtils.CompareToIgnoreCaseSwap | branches/v2.0.0/core/src/gov/nist/core/Utils.java:36-40 | swapping the arguments negates the result, so the order is antisymmetric |
| NistUtils.CompareToIgnoreCaseOrder | branches/v2.0.0/core/src/gov/nist/core/Utils.java:36-40 | negative exactly when the upper-cased first string sorts before the second; positive exactly when the upper-cased second string sorts before the first |
| NistUtils.SameLetterIff | branches/v2.0.0/core/src/gov/nist/core/Utils.java:49-51 | two characters are the same letter up to case exactly when their lower cases agree, and exactly when their upper cases agree |
| NistUtils.EqualsIgnoreCaseCharwise | branches/v2.0.0/core/src/gov/nist/core/Utils.java:49-51 | `equalsIgnoreCase` holds exactly when the lengths agree and each position holds the same letter up to case |
| NistUtils.EqualsIgnoreCaseReflexive | branches/v2.0.0/core/src/gov/nist/core/Utils.java:49-51 | every string equals itself ignoring case |
| NistUtils.EqualsIgnoreCaseSymmetric | branches/v2.0.0/core/src/gov/nist/core/Utils.java:49-51 | the relation is symmetric |
| NistUtils.EqualsIgnoreCaseTransitive | branches/v2.0.0/core/src/gov/nist/core/Utils.java:49-51 | the relation is transitive |
| NistUtils.EqualsIffCompareZero | branches/v2.0.0/core/src/gov/nist/core/Utils.java:36-51 | the two functions agree: lower-casing equality holds exactly when `compareToIgnoreCase` is 0 |
| NistUtils.CaseChangeInvariant | branches/v2.0.0/core/src/gov/nist/core/Utils.java:36-51 | changing the case of one character of either argument changes neither result |
| Wire.DecimalRoundTrip | branches/v2.0.0/core/src/com/orangelabs/rcs/core/ims/protocol/msrp/MsrpSession.java:362 | every `long` written by `Long.toString`, negative ones included, reads back as itself |
| Wire.ToHexString | branches/v2.0.0/core/src/com/orangelabs/rcs/core/ims/protocol/msrp/MsrpSession.java:322-326 | a generated identifier is 1 to 8 lower-case hexadecimal digits |
| Wire.HexDigitsRoundTrip | branches/v2.0.0/core/src/com/orangelabs/rcs/core/ims/protocol/msrp/MsrpSession.java:325 | the hexadecimal digits of a number read back as that number |
| Wire.ToHexStringInjective | branches/v2.0.0/core/src/com/orangelabs/rcs/core/ims/protocol/msrp/MsrpSession.java:322-326 | distinct random values give distinct identifiers |
| MsrpFrames.RangeText | branches/v2.0.0/core/src/com/orangelabs/rcs/core/ims/protocol/msrp/MsrpSession.java:362 | the Byte-Range value contains no line break |
| MsrpFrames.RangeTextRoundTrip | branches/v2.0.0/core/src/com/orangelabs/rcs/core/ims/protocol/msrp/MsrpSession.java:362 | `first-last/total` parses back into the three numbers for any first byte of at least 0 |
| MsrpFrames.OptionalHeaders | branches/v2.0.0/core/src/com/orangelabs/rcs/core/ims/protocol/msrp/MsrpSession.java:369-377 | `Failure-Report: no` is present exactly when failure reports are off; `Success-Report: yes` is present exactly when success reports are on |
| MsrpFrames.SendRequestShape | branches/v2.0.0/core/src/com/orangelabs/rcs/core/ims/protocol/msrp/MsrpSession.java:344-392 | the SEND request carries the chunk as its body, then the table's headers, Byte-Range, Content-Type and the report headers, in that order; its flag is `$` exactly when lastByte equals totalSize, otherwise `+` |
| MsrpFrames.SendRequestReadsBack | branches/v2.0.0/core/src/com/orangelabs/rcs/core/ims/protocol/msrp/MsrpSession.java:341-392 | a peer reading the bytes of a SEND request recovers the whole frame (identifier, method, every header, the body and the flag) exactly when the chunk does not hold a line break followed by `-------`, the identifier and a flag |
| MsrpFrames.BodyWithEndLineMisread | branches/v2.0.0/core/src/com/orangelabs/rcs/core/ims/protocol/msrp/MsrpSession.java:380-392 | a frame whose body holds its own end-line after a line break never reads back as itself: the reader ends the body at that end-line |
| MsrpFrames.ResponseOnWire | branches/v2.0.0/core/src/com/orangelabs/rcs/core/ims/protocol/msrp/MsrpSession.java:419-453 | a response exists exactly when the request has To-Path, From-Path and Byte-Range; it reads back as itself, swaps the two paths, echoes Byte-Range, has no body and is flagged `$` |
| MsrpFrames.ReportOnWire | branches/v2.0.0/core/src/com/orangelabs/rcs/core/ims/protocol/msrp/MsrpSession.java:462-511 | a REPORT exists exactly when the request has Message-ID and both paths; it reads back as itself with Message-ID, the swapped paths, the Byte-Range value `1-lastByte/totalSize`, which parses back as (1, lastByte, totalSize), and Status `000 200 OK`, and it is flagged `$` |
| MsrpDataChunks.DataChunks.constructor | branches/v2.0.0/core/src/com/orangelabs/rcs/core/ims/protocol/msrp/DataChunks.java:39-45 | a new buffer is empty with size 0 |
| MsrpDataChunks.DataChunks.AddChunk | branches/v2.0.0/core/src/com/orangelabs/rcs/core/ims/protocol/msrp/DataChunks.java:52-55 | the chunk is appended and its length added to the size; a buffer that would outgrow a Java array raises and is left unchanged; size equals cached length is kept |
| MsrpDataChunks.DataChunks.GetReceivedData | branches/v2.0.0/core/src/com/orangelabs/rcs/core/ims/protocol/msrp/DataChunks.java:62-65 | returns the cache, whose length is the current size |
| MsrpDataChunks.DataChunks.ResetCache | branches/v2.0.0/core/src/com/orangelabs/rcs/core/ims/protocol/msrp/DataChunks.java:70-73 | empties the cache and zeroes the size |
| MsrpDataChunks.DataChunks.GetCurrentSize | branches/v2.0.0/core/src/com/orangelabs/rcs/core/ims/protocol/msrp/DataChunks.java:80-82 | the number of bytes held, between 0 and the largest `int` |
| MsrpDataChunks.Reassemble | branches/v2.0.0/core/src/com/orangelabs/rcs/core/ims/protocol/msrp/DataChunks.java:52-65 | chunks added one by one to a fresh buffer read back as their concatenation, or fail exactly when that concatenation is longer than a Java array can be |
| MsrpChunkSender.ChunkSender.constructor | core/src/com/orangelabs/rcs/core/ims/protocol/msrp/ChunkSender.java:63-66 | remembers the connection and the stream; nothing is queued or written yet |
| MsrpChunkSender.ChunkSender.GetConnection | core/src/com/orangelabs/rcs/core/ims/protocol/msrp/ChunkSender.java:73-75 | returns the connection given at construction |
| MsrpChunkSender.ChunkSender.Terminate | core/src/com/orangelabs/rcs/core/ims/protocol/msrp/ChunkSender.java:80-89 | raises the terminated flag; queue and stream are unchanged |
| MsrpChunkSender.ChunkSender.SendChunk | core/src/com/orangelabs/rcs/core/ims/protocol/msrp/ChunkSender.java:129-137 | with failure reports on, the chunk joins the back of the queue; otherwise it is written to the stream, or an IOException is raised when the stream refuses writes |
| MsrpChunkSender.ChunkSender.Run | core/src/com/orangelabs/rcs/core/ims/protocol/msrp/ChunkSender.java:94-121 | on an open stream, the whole queue is written in FIFO order and the loop then blocks or ends depending on termination; on a closed stream the head chunk is lost and the error is logged as a termination or as a failure |
| MsrpChunkSender.QueueThenDrain | core/src/com/orangelabs/rcs/core/ims/protocol/msrp/ChunkSender.java:94-137 | chunks queued one after another reach the stream whole and in the order they were sent |
| MsrpSessions.WriteSendRequest | branches/v2.0.0/core/src/com/orangelabs/rcs/core/ims/protocol/msrp/MsrpSession.java:344-392 | the bytes assembled in the buffer, the header loop included, are exactly the layout of the SEND request frame |
| MsrpSessions.WriteHeaders | branches/v2.0.0/core/src/com/orangelabs/rcs/core/ims/protocol/msrp/MsrpSession.java:354-359 | the header loop appends one `name: value` line per table entry, in enumeration order |
| MsrpSessions.WriteResponse | branches/v2.0.0/core/src/com/orangelabs/rcs/core/ims/protocol/msrp/MsrpSession.java:420-449 | the buffer is the layout of the response frame; nothing is built when a looked-up header is missing |
| MsrpSessions.WriteReportRequest | branches/v2.0.0/core/src/com/orangelabs/rcs/core/ims/protocol/msrp/MsrpSession.java:464-507 | the buffer is the layout of the REPORT frame; nothing is built when a looked-up header is missing |
| MsrpSessions.MsrpSession.constructor | branches/v2.0.0/core/src/com/orangelabs/rcs/core/ims/protocol/msrp/MsrpSession.java:94-95 | failure reports on and success reports off; no connection, listener or paths are set; the buffer is empty |
| MsrpSessions.MsrpSession.IsFailureReportRequested | branches/v2.0.0/core/src/com/orangelabs/rcs/core/ims/protocol/msrp/MsrpSession.java:102-104 | returns the failure-report option |
| MsrpSessions.MsrpSession.SetFailureReportOption | branches/v2.0.0/core/src/com/orangelabs/rcs/core/ims/protocol/msrp/MsrpSession.java:111-113 | sets the failure-report option and nothing else |
| MsrpSessions.MsrpSession.IsSuccessReportRequested | branches/v2.0.0/core/src/com/orangelabs/rcs/core/ims/protocol/msrp/MsrpSession.java:120-122 | returns the success-report option |
| MsrpSessions.MsrpSession.SetSuccessReportOption | branches/v2.0.0/core/src/com/orangelabs/rcs/core/ims/protocol/msrp/MsrpSession.java:129-131 | sets the success-report option and nothing else |
| MsrpSessions.MsrpSession.SetConnection | branches/v2.0.0/core/src/com/orangelabs/rcs/core/ims/protocol/msrp/MsrpSession.java:138-140 | sets the connection and nothing else |
| MsrpSessions.MsrpSession.GetConnection | branches/v2.0.0/core/src/com/orangelabs/rcs/core/ims/protocol/msrp/MsrpSession.java:147-149 | returns the connection |
| MsrpSessions.MsrpSession.GetMsrpEventListener | branches/v2.0.0/core/src/com/orangelabs/rcs/core/ims/protocol/msrp/MsrpSession.java:156-158 | returns the listener |
| MsrpSessions.MsrpSession.AddMsrpEventListener | branches/v2.0.0/core/src/com/orangelabs/rcs/core/ims/protocol/msrp/MsrpSession.java:165-167 | replaces the listener and nothing else |
| MsrpSessions.MsrpSession.GetFrom | branches/v2.0.0/core/src/com/orangelabs/rcs/core/ims/protocol/msrp/MsrpSession.java:174-176 | returns the From path |
| MsrpSessions.MsrpSession.SetFrom | branches/v2.0.0/core/src/com/orangelabs/rcs/core/ims/protocol/msrp/MsrpSession.java:183-185 | sets the From path and nothing else |
| MsrpSessions.MsrpSession.GetTo | branches/v2.0.0/core/src/com/orangelabs/rcs/core/ims/protocol/msrp/MsrpSession.java:192-194 | returns the To path |
| MsrpSessions.MsrpSession.SetTo | branches/v2.0.0/core/src/com/orangelabs/rcs/core/ims/protocol/msrp/MsrpSession.java:201-203 | sets the To path and nothing else |
| MsrpSessions.MsrpSession.Close | branches/v2.0.0/core/src/com/orangelabs/rcs/core/ims/protocol/msrp/MsrpSession.java:208-230 | raises the cancel flag, terminates the connection and notifies the response semaphore and then the report semaphore; the queue, the stream and the listener are unchanged |
| MsrpSessions.MsrpSession.SendChunks | branches/v2.0.0/core/src/com/orangelabs/rcs/core/ims/protocol/msrp/MsrpSession.java:240-315 | the outcome is the one `SendChunksTrace` gives. When the paths and the connection are set, the frames, listener calls, semaphore traffic and close are those of the trace, starting from a lowered cancel flag; otherwise nothing observable changes |
| MsrpSessions.MsrpSession.Transfer | branches/v2.0.0/core/src/com/orangelabs/rcs/core/ims/protocol/msrp/MsrpSession.java:267-315 | the chunk loop and what follows it produce exactly the effects and the outcome of `ChunkLoop` |
| MsrpSessions.MsrpSession.SendRound | branches/v2.0.0/core/src/com/orangelabs/rcs/core/ims/protocol/msrp/MsrpSession.java:273-287 | one loop iteration (read, guard, send, progress) goes on, leaves or ends the call as `ChunkRound` says, with its effects |
| MsrpSessions.MsrpSession.SendChunkRequest | branches/v2.0.0/core/src/com/orangelabs/rcs/core/ims/protocol/msrp/MsrpSession.java:275-278 | the chunk's SEND request reaches the connection and a response wait follows when failure reports are on; a refused write raises and changes nothing |
| MsrpSessions.MsrpSession.FinishTransfer | branches/v2.0.0/core/src/com/orangelabs/rcs/core/ims/protocol/msrp/MsrpSession.java:289-311 | after the loop, a close landing before the final check and a raised flag end the call as cancelled; otherwise `ConcludeTransfer` follows |
| MsrpSessions.MsrpSession.ConcludeTransfer | branches/v2.0.0/core/src/com/orangelabs/rcs/core/ims/protocol/msrp/MsrpSession.java:294-311 | the report wait when success reports are on, a close that lands during it, then the completion notification, which follows even after that close; without a listener the call fails |
| MsrpSessions.MsrpSession.Poll | branches/v2.0.0/core/src/com/orangelabs/rcs/core/ims/protocol/msrp/MsrpSession.java:272-289 | a read of the cancel flag (loop guard, progress check or final check); a close landing at that point runs first |
| MsrpSessions.MsrpSession.SendMsrpSendRequest | branches/v2.0.0/core/src/com/orangelabs/rcs/core/ims/protocol/msrp/MsrpSession.java:341-409 | the connection receives the SEND request's bytes, queued or written; a response wait is recorded when failure reports are on; a refused write raises |
| MsrpSessions.MsrpSession.SendMsrpResponse | branches/v2.0.0/core/src/com/orangelabs/rcs/core/ims/protocol/msrp/MsrpSession.java:419-453 | the response's bytes reach the connection; a missing header or connection raises a NullPointerException and sends nothing; a refused write raises an IOException |
| MsrpSessions.MsrpSession.SendMsrpReportRequest | branches/v2.0.0/core/src/com/orangelabs/rcs/core/ims/protocol/msrp/MsrpSession.java:462-517 | the REPORT's bytes reach the connection, with the same error cases as the response |
| MsrpSessions.MsrpSession.ReceiveMsrpSend | branches/v2.0.0/core/src/com/orangelabs/rcs/core/ims/protocol/msrp/MsrpSession.java:529-597 | the buffer, the frames sent, the listener calls and the exception are those `OnSend` gives for the old buffer |
| MsrpSessions.MsrpSession.AnswerSend | branches/v2.0.0/core/src/com/orangelabs/rcs/core/ims/protocol/msrp/MsrpSession.java:535-545 | `200 OK` is sent unless Failure-Report is `no` in any case |
| MsrpSessions.MsrpSession.StoreChunk | branches/v2.0.0/core/src/com/orangelabs/rcs/core/ims/protocol/msrp/MsrpSession.java:547-596 | the chunk is stored, then the flag chooses among delivery (`$`), abort (`#`), progress (`+`) and nothing |
| MsrpSessions.MsrpSession.DeliverContent | branches/v2.0.0/core/src/com/orangelabs/rcs/core/ims/protocol/msrp/MsrpSession.java:551-577 | the content is taken out and the buffer emptied; the success report follows when requested, then the content and its Content-Type go to the listener |
| MsrpSessions.MsrpSession.SendSuccessReport | branches/v2.0.0/core/src/com/orangelabs/rcs/core/ims/protocol/msrp/MsrpSession.java:557-571 | a REPORT is sent exactly when Success-Report is `yes` in any case |
| MsrpSessions.MsrpSession.ReceiveMsrpResponse | branches/v2.0.0/core/src/com/orangelabs/rcs/core/ims/protocol/msrp/MsrpSession.java:606-620 | releases the response wait; a status other than 200 is reported to the listener as "<code> response received", raising when no listener is set |
| MsrpSessions.MsrpSession.ReceiveMsrpReport | branches/v2.0.0/core/src/com/orangelabs/rcs/core/ims/protocol/msrp/MsrpSession.java:629-638 | releases the report wait and nothing else |
| MsrpTransfer.CommonHeadersTable | branches/v2.0.0/core/src/com/orangelabs/rcs/core/ims/protocol/msrp/MsrpSession.java:258-261 | whatever the table's enumeration order, it holds From-Path, To-Path and Message-ID, each exactly once |
| MsrpSessionLaws.PlanContiguous | branches/v2.0.0/core/src/com/orangelabs/rcs/core/ims/protocol/msrp/MsrpSession.java:269-281 | the chunks carry the input in order; the first range starts at byte 1 and the last ends at the content length; each range starts right after the previous one ends |
| MsrpSessionLaws.LastChunkFlag | branches/v2.0.0/core/src/com/orangelabs/rcs/core/ims/protocol/msrp/MsrpSession.java:344 | when the announced size is the content length and no read is empty, only the last chunk's request is flagged `$` |
| MsrpSessionLaws.LoopUndisturbed | branches/v2.0.0/core/src/com/orangelabs/rcs/core/ims/protocol/msrp/MsrpSession.java:267-311 | with no close before the final check, no failing read, a writable connection and a listener, every chunk is sent in order with its progress notification and its response wait; the report wait and the completion notification follow, and a close landing during the report wait terminates the connection and releases both waits without stopping the completion |
| MsrpSessionLaws.LoopCompletes | branches/v2.0.0/core/src/com/orangelabs/rcs/core/ims/protocol/msrp/MsrpSession.java:267-315 | a transfer completes exactly when no read fails, no close lands before the final check, a listener is set, and the connection accepts frames (or there is nothing to send) |
| MsrpSessionLaws.LoopNotifications | branches/v2.0.0/core/src/com/orangelabs/rcs/core/ims/protocol/msrp/MsrpSession.java:283-311 | the listener hears only progress reports against the announced size, followed by one completion notification when the transfer completes |
| MsrpSessionLaws.NotifiesMeaning | branches/v2.0.0/core/src/com/orangelabs/rcs/core/ims/protocol/msrp/MsrpSession.java:283-311 | the completion notification is heard exactly when the transfer completes, and it is then the last call |
| MsrpSessionLaws.LoopClosed | branches/v2.0.0/core/src/com/orangelabs/rcs/core/ims/protocol/msrp/MsrpSession.java:273-311 | a completed transfer saw a close exactly when it landed during the report wait, after the final check; a cancelled one saw a close land |
| MsrpSessionLaws.LoopFramesSent | branches/v2.0.0/core/src/com/orangelabs/rcs/core/ims/protocol/msrp/MsrpSession.java:273-287 | whatever happens, the frames sent are the SEND requests of a prefix of the chunks, in order |
| MsrpSessionLaws.ChunkRequestReadsBack | branches/v2.0.0/core/src/com/orangelabs/rcs/core/ims/protocol/msrp/MsrpSession.java:278 | the SEND request of a chunk reads back as itself exactly when the chunk does not hold the end-line of the transaction drawn for it |
| MsrpSessionLaws.PlanBodies | branches/v2.0.0/core/src/com/orangelabs/rcs/core/ims/protocol/msrp/MsrpSession.java:278 | when no chunk holds the end-line of its transaction, the bodies a peer reads from the frames are the chunks, in order |
| MsrpSessionLaws.CommonHeadersSafe | branches/v2.0.0/core/src/com/orangelabs/rcs/core/ims/protocol/msrp/MsrpSession.java:258-261 | the common headers have names and values that fit on one header line |
| MsrpSessionLaws.PlanProgressOf | branches/v2.0.0/core/src/com/orangelabs/rcs/core/ims/protocol/msrp/MsrpSession.java:283-286 | the progress reports name the running total of bytes sent, against the announced size |
| MsrpSessionLaws.SendChunksDelivers | branches/v2.0.0/core/src/com/orangelabs/rcs/core/ims/protocol/msrp/MsrpSession.java:240-315 | an undisturbed `sendChunks` completes and sends one SEND request per read; when no read holds the end-line of the transaction drawn for it, a peer reading the frames gets the input chunk for chunk, hence the whole content; the listener hears the running totals and then the completion |
| MsrpSessionLaws.SendChunksChecks | branches/v2.0.0/core/src/com/orangelabs/rcs/core/ims/protocol/msrp/MsrpSession.java:245-255 | a missing From path, then To path, then connection fails the call with that error and sends nothing |
| MsrpSessionLaws.LoopFaults | branches/v2.0.0/core/src/com/orangelabs/rcs/core/ims/protocol/msrp/MsrpSession.java:267-314 | once the checks pass, a transfer can only fail with a read error, a write error or a missing listener |
| MsrpSessionLaws.OnSendBuffer | branches/v2.0.0/core/src/com/orangelabs/rcs/core/ims/protocol/msrp/MsrpSession.java:547-596 | one received chunk: it is kept unless the buffer would overflow, which raises and leaves the buffer unchanged. `$` empties the buffer and delivers everything with the Content-Type; `#` reports an abort; `+` reports the bytes received so far |
| MsrpSessionLaws.AnswerSent | branches/v2.0.0/core/src/com/orangelabs/rcs/core/ims/protocol/msrp/MsrpSession.java:535-545 | the `200 OK` response is sent exactly when the request does not say `Failure-Report: no` |
| MsrpSessionLaws.StoreSent | branches/v2.0.0/core/src/com/orangelabs/rcs/core/ims/protocol/msrp/MsrpSession.java:551-571 | a REPORT for the whole content is sent exactly when the chunk is stored, is the last one, and Success-Report is `yes` |
| MsrpSessionLaws.OnSendAnswer | branches/v2.0.0/core/src/com/orangelabs/rcs/core/ims/protocol/msrp/MsrpSession.java:535-571 | the frames sent for one request are the response, when it is wanted, followed by the success report when one is due |
| MsrpSessionLaws.MoreChunksAccumulate | branches/v2.0.0/core/src/com/orangelabs/rcs/core/ims/protocol/msrp/MsrpSession.java:588-596 | a run of `+` chunks that fits accumulates in the buffer in order, with progress reports naming the running totals |
| MsrpSessionLaws.OnSendsAppend | branches/v2.0.0/core/src/com/orangelabs/rcs/core/ims/protocol/msrp/MsrpSession.java:529-597 | receiving two runs of requests one after the other is the same as receiving their concatenation |
| MsrpSessionLaws.Reassembly | branches/v2.0.0/core/src/com/orangelabs/rcs/core/ims/protocol/msrp/MsrpSession.java:529-597 | `+` chunks followed by a `$` chunk, from an empty buffer, deliver the concatenation of all chunk data with the last request's Content-Type, and leave the buffer empty |

## Left out

- The semaphore waits have no timeout and no wake-up order. `respSemaphore.wait(timeout)` and
  `reportSemaphore.wait()` are recorded as `WaitResponse` and `WaitReport` signals, after which
  the session proceeds. `notify` is recorded as `NotifyResponse` or `NotifyReport`. Which
  notification wakes which wait is a matter of thread scheduling.
- Threads. Only one form of concurrency is modelled: a `close()` that lands at one point of
  the sending thread's run, given by `closeAt`. A close landing during the report wait releases
  it; one landing between the final check and the wait would leave the real wait blocked,
  which the model, where a wait is a pause, does not capture. The `ChunkSender` thread is modelled by its drain
  loop `Run`, called on its own.
- The pause of one second after a REPORT is sent (`Thread.sleep`), and every log line.
- `Random.nextInt` is an input function from the call count to 32-bit integers.
- The enumeration order of the `Hashtable` of common headers is an input (`KeyOrder`).
- MsrpConnection.java is not part of this model. Its `close()` is modelled as terminating the
  connection's `ChunkSender`. Its `getSession()` is replaced by the session's own
  failure-report option, passed to `SendChunk`.
- MsrpConstants.java is not part of this model. The header names, the flags `$`, `+` and `#`,
  the end-line marker `-------` and the `MSRP` protocol token follow the formal syntax in
  section 9 of RFC 4975.
- FifoBuffer.java is not part of this model. Its queue is a sequence. A `getMessage` that
  would block on an empty queue ends the drain loop with `Waiting`. `unblockRead` is left out,
  and so is `interrupt()`, which `terminate` issues.
- The input stream is the sequence of `read` results, each a chunk of at most
  `CHUNK_MAX_SIZE` bytes whose length the model leaves free, plus whether the read after them
  throws. An empty read result is allowed.
- MsrpSessions.MsrpSession.SendChunks: the `long` byte counters are unbounded integers, so
  their overflow past 2^63 - 1 is not modelled.
- The exceptions a transfer raises are reduced to their cause (`Fault`). Their message text
  and the wrapping into `MsrpException` are left out.
- MsrpSessions.MsrpSession.SendChunks: whether the connection accepts writes is read once per
  call, and the same holds for `MsrpChunkSender.ChunkSender.Run`, whose stream is open or
  closed for the whole drain. A stream that fails after some frames have been written is not
  modelled.
- `sendMsrpSendRequest` does not check that a chunk is free of the end-line of the random
  transaction identifier it picks, as section 7.1 of RFC 4975 asks of a sender. The read-back
  lemmas take that as a hypothesis, and `MsrpFrames.BodyWithEndLineMisread` shows the misread
  frame otherwise.
- A header value containing a line break, and a caller-supplied content type containing one,
  are not excluded by the session. The read-back lemmas require values that fit on one line.
- The `getBytes()` charset is taken to be UTF-8. Strings are sequences of Unicode scalar
  values rather than UTF-16 code units, so an unpaired surrogate cannot occur in the model.
- `toUpperCase` and `toLowerCase` are modelled with the ASCII case mapping. Locale-dependent
  and non-ASCII case mappings are left out.
- MsrpTransfer.HeaderIs: the session's `Failure-Report` and `Success-Report` tests call
  `java.lang.String.equalsIgnoreCase`, which compares character by character through both
  `toUpperCase` and `toLowerCase` (so that "yeſ", with a long s, equals "yes"). The model
  identifies it with `NistUtils.EqualsIgnoreCase`, which lower-cases whole strings; the two
  agree on ASCII text only.
