/** What an MsrpSession does, as functions of its inputs: the trace of one sendChunks run
    (frames, listener calls, semaphore traffic, outcome) and the effect of one received SEND
    request on the reassembly buffer, the connection and the listener. */
module MsrpTransfer {
  import opened Wire
  import opened MsrpFrames
  import opened NistUtils

  /** The calls the session makes on its MsrpEventListener. */
  datatype Event =
    | TransferProgress(currentSize: int, totalSize: int)
    | DataTransfered
    | DataReceived(data: Bytes, contentType: Option<string>)
    | TransferAborted
    | TransferError(error: string)

  /** Waits on, and notifications of, the response and report semaphores. A wait is a pause
      after which the session proceeds. */
  datatype Signal = WaitResponse | WaitReport | NotifyResponse | NotifyReport

  /** Why an operation of the session ends in an exception. */
  datatype Fault =
    | FromNotSet | ToNotSet | NoConnection  // the MsrpExceptions sendChunks raises before sending
    | ReadFailed                            // the input stream threw
    | WriteFailed                           // the output stream threw
    | NullReference                         // a null listener, connection or header value
    | OutOfMemory                           // the reassembly buffer outgrew a Java array

  datatype Outcome = Completed | Cancelled | Failed(fault: Fault)

  /** What a run leaves behind, in order: frames handed to the connection, listener calls,
      semaphore traffic, and whether a close() of the session happened meanwhile. */
  datatype Effects = Effects(frames: seq<Bytes>, events: seq<Event>, signals: seq<Signal>, closed: bool)

  const NoEffects: Effects := Effects([], [], [], false)

  function Then(a: Effects, b: Effects): Effects {
    Effects(a.frames + b.frames, a.events + b.events, a.signals + b.signals, a.closed || b.closed)
  }

  datatype Trace = Trace(effects: Effects, outcome: Outcome)

  function Before(a: Effects, t: Trace): Trace {
    Trace(Then(a, t.effects), t.outcome)
  }

  lemma BeforeThen(a: Effects, b: Effects, t: Trace)
    ensures Before(a, Before(b, t)) == Before(Then(a, b), t)
  {
  }

  lemma BeforeNothing(t: Trace)
    ensures Before(NoEffects, t) == t
  {
  }

  // ---------------------------------------------------------------------------
  // Outbound: sendChunks

  /** The order in which the Hashtable of the three common headers enumerates its keys. */
  datatype KeyOrder = FromToId | FromIdTo | ToFromId | ToIdFrom | IdFromTo | IdToFrom

  /** The From-Path, To-Path and Message-ID headers sendChunks puts in its table, in the
      table's enumeration order. */
  function CommonHeaders(order: KeyOrder, from: string, to: string, messageId: string): seq<(string, string)> {
    var f, t, m := (HEADER_FROM_PATH, from), (HEADER_TO_PATH, to), (HEADER_MESSAGE_ID, messageId);
    match order
    case FromToId => [f, t, m]
    case FromIdTo => [f, m, t]
    case ToFromId => [t, f, m]
    case ToIdFrom => [t, m, f]
    case IdFromTo => [m, f, t]
    case IdToFrom => [m, t, f]
  }

  /** Whatever the enumeration order, the table holds the three headers, once each. */
  lemma CommonHeadersTable(order: KeyOrder, from: string, to: string, messageId: string)
    ensures var hs := CommonHeaders(order, from, to, messageId);
            |hs| == 3 &&
            multiset(hs) == multiset{(HEADER_FROM_PATH, from), (HEADER_TO_PATH, to), (HEADER_MESSAGE_ID, messageId)}
  {
  }

  /** Everything a transfer depends on besides its input and the moment of a close():
      the common headers, the content type and announced size, the random values behind
      the identifiers (the first for the Message-ID, the (j+2)-th for chunk j's transaction),
      the report options, whether the connection accepts frames, and whether a listener is set. */
  datatype SendSetup = SendSetup(headers: seq<(string, string)>, contentType: string, totalSize: int,
                                 random: nat -> int32, failureReport: bool, successReport: bool,
                                 writable: bool, listening: bool)

  /** Chunk number index: its data and the byte range it occupies. */
  datatype ChunkPlan = ChunkPlan(index: nat, data: Bytes, firstByte: int, lastByte: int)

  /** The byte-range bookkeeping of the loop from read j on, starting at firstByte;
      input holds the successive results of InputStream.read. */
  function Plan(input: seq<Bytes>, j: nat, firstByte: int): (p: seq<ChunkPlan>)
    requires j <= |input|
    ensures |p| == |input| - j
    decreases |input| - j
  {
    if j == |input| then []
    else [ChunkPlan(j, input[j], firstByte, firstByte - 1 + |input[j]|)]
         + Plan(input, j + 1, firstByte + |input[j]|)
  }

  /** The SEND request for the chunk c. */
  function ChunkRequest(s: SendSetup, c: ChunkPlan): Frame {
    SendRequest(ToHexString(s.random(c.index + 1)), s.headers, s.contentType, c.data, c.firstByte, c.lastByte,
                s.totalSize, s.failureReport, s.successReport)
  }

  /** The frames of the chunks of a plan. */
  function PlanFrames(s: SendSetup, p: seq<ChunkPlan>): (fs: seq<Bytes>)
    ensures |fs| == |p|
  {
    seq(|p|, k requires 0 <= k < |p| => Layout(ChunkRequest(s, p[k])))
  }

  lemma OneChunkOnWire(s: SendSetup, c: ChunkPlan)
    ensures PlanFrames(s, [c]) == OnWire([ChunkRequest(s, c)])
  {
  }

  /** The progress notifications of the chunks of a plan. */
  function PlanProgress(s: SendSetup, p: seq<ChunkPlan>): (es: seq<Event>)
    ensures |es| == |p|
  {
    seq(|p|, k requires 0 <= k < |p| => TransferProgress(p[k].lastByte, s.totalSize))
  }

  /** What close() does, seen from a transfer: the flag is raised, the connection closed
      and both semaphores notified. */
  const CloseEffects: Effects := Effects([], [], [NotifyResponse, NotifyReport], true)

  /** A concurrent close() lands at one of a run's numbered points: the polls of the cancel
      flag, and after the last poll the stretch before the completion notification (the
      wait for the final report, when there is one). A close() that lands just before point
      closeAt raises the flag for every poll from closeAt on. */
  function PollEffects(p: nat, closeAt: nat): Effects {
    if p == closeAt then CloseEffects else NoEffects
  }

  /** After the loop: the cancel check (poll p) and, unless it finds the flag raised, the end
      of the transfer from point p+1. */
  function Finish(s: SendSetup, closeAt: nat, p: nat): Trace {
    if p >= closeAt then Trace(PollEffects(p, closeAt), Cancelled) else Conclude(s, closeAt, p + 1)
  }

  /** The end of a transfer that was not cancelled: the wait for the final report when
      success reports are on, during which a close() may land (point q) without the flag
      being looked at again, and the completion notification. */
  function Conclude(s: SendSetup, closeAt: nat, q: nat): Trace {
    var wait := Effects([], [], if s.successReport then [WaitReport] else [], false);
    var waited := Then(wait, PollEffects(q, closeAt));
    if !s.listening then Trace(waited, Failed(NullReference))
    else Trace(Then(waited, Effects([], [DataTransfered], [], false)), Completed)
  }

  /** How one iteration of the chunk loop ends: on to the next read, out of the loop, or
      out of sendChunks altogether. */
  datatype Round = Continue(effects: Effects) | Exit(effects: Effects) | Stop(trace: Trace)

  /** The round r, after the effects e. */
  function Behind(e: Effects, r: Round): Round {
    match r
    case Continue(x) => Continue(Then(e, x))
    case Exit(x) => Exit(Then(e, x))
    case Stop(t) => Stop(Before(e, t))
  }

  /** Iteration j of the chunk loop, starting at firstByte. It reads first (input[j], or the
      end of the stream, or an exception once input is used up and readFails holds), then
      polls the flag in the guard (poll 2j) and, when the guard lets it through, sends the
      chunk. */
  function ChunkRound(s: SendSetup, input: seq<Bytes>, readFails: bool, closeAt: nat, j: nat, firstByte: int): (r: Round)
    requires j <= |input|
    ensures r.Continue? ==> j < |input|
  {
    if j == |input| && readFails then Stop(Trace(NoEffects, Failed(ReadFailed)))
    else
      var guard := PollEffects(2 * j, closeAt);
      if 2 * j >= closeAt || j == |input| then Exit(guard)
      else Behind(guard, ChunkSend(s, closeAt, j, ChunkPlan(j, input[j], firstByte, firstByte - 1 + |input[j]|)))
  }

  /** The body of iteration j for the chunk c: the SEND request goes to the connection,
      then the rest of the iteration. */
  function ChunkSend(s: SendSetup, closeAt: nat, j: nat, c: ChunkPlan): (r: Round)
    ensures !r.Exit?
  {
    if !s.writable then Stop(Trace(NoEffects, Failed(WriteFailed)))
    else Behind(Sent(s, c), Progress(s, closeAt, j, c))
  }

  /** The SEND request of chunk j handed to the connection, and the wait for its response
      when failure reports are on. */
  function Sent(s: SendSetup, c: ChunkPlan): Effects {
    Effects(PlanFrames(s, [c]), [], if s.failureReport then [WaitResponse] else [], false)
  }

  /** After the SEND request of chunk j: the flag is polled again (poll 2j+1) and, unless
      it is raised, progress is notified. */
  function Progress(s: SendSetup, closeAt: nat, j: nat, c: ChunkPlan): (r: Round)
    ensures !r.Exit?
  {
    var poll := PollEffects(2 * j + 1, closeAt);
    if 2 * j + 1 >= closeAt then Continue(poll)
    else if !s.listening then Stop(Trace(poll, Failed(NullReference)))
    else Continue(Then(poll, Effects([], [TransferProgress(c.lastByte, s.totalSize)], [], false)))
  }

  /** The chunk loop from iteration j on, then what follows it. */
  function ChunkLoop(s: SendSetup, input: seq<Bytes>, readFails: bool, closeAt: nat, j: nat, firstByte: int): Trace
    requires j <= |input|
    decreases |input| - j
  {
    match ChunkRound(s, input, readFails, closeAt, j, firstByte)
    case Stop(t) => t
    case Exit(e) => Before(e, Finish(s, closeAt, 2 * j + 1))
    case Continue(e) => Before(e, ChunkLoop(s, input, readFails, closeAt, j + 1, firstByte + |input[j]|))
  }

  /** An iteration that goes on moves the loop to the next read, its effects done. */
  lemma LoopAdvance(trace: Trace, s: SendSetup, input: seq<Bytes>, readFails: bool, closeAt: nat,
                    done: Effects, j: nat, firstByte: int, done': Effects, j': nat, firstByte': int)
    requires j < |input| && ChunkRound(s, input, readFails, closeAt, j, firstByte).Continue?
    requires trace == Before(done, ChunkLoop(s, input, readFails, closeAt, j, firstByte))
    requires done' == Then(done, ChunkRound(s, input, readFails, closeAt, j, firstByte).effects)
    requires j' == j + 1 && firstByte' == firstByte + |input[j]|
    ensures trace == Before(done', ChunkLoop(s, input, readFails, closeAt, j', firstByte'))
  {
    var r := ChunkRound(s, input, readFails, closeAt, j, firstByte);
    BeforeThen(done, r.effects, ChunkLoop(s, input, readFails, closeAt, j', firstByte'));
  }

  /** sendChunks: the three checks, then the chunk loop from byte 1. */
  function SendChunksTrace(from: Option<string>, to: Option<string>, connected: bool, order: KeyOrder,
                           contentType: string, totalSize: int, random: nat -> int32,
                           failureReport: bool, successReport: bool, writable: bool, listening: bool,
                           input: seq<Bytes>, readFails: bool, closeAt: nat): Trace
  {
    if from.None? then Trace(NoEffects, Failed(FromNotSet))
    else if to.None? then Trace(NoEffects, Failed(ToNotSet))
    else if !connected then Trace(NoEffects, Failed(NoConnection))
    else
      var headers := CommonHeaders(order, from.value, to.value, ToHexString(random(0)));
      var s := SendSetup(headers, contentType, totalSize, random, failureReport, successReport, writable, listening);
      ChunkLoop(s, input, readFails, closeAt, 0, 1)
  }

  // ---------------------------------------------------------------------------
  // Inbound: receiveMsrpSend

  /** The receiving session's surroundings: a connection is set, it accepts frames, a
      listener is set. */
  datatype ReceiverEnv = ReceiverEnv(connected: bool, writable: bool, listening: bool)

  /** The buffer afterwards, the frames sent, the listener calls made, and the exception
      that ended the call, if any. */
  datatype Reception = Reception(cache: Bytes, frames: seq<Bytes>, events: seq<Event>, error: Option<Fault>)

  /** Handing a frame to the connection: a missing header or a null connection is a
      NullPointerException, a stream that refuses the write an IOException. */
  datatype Emission = Emitted(frames: seq<Bytes>) | Raised(fault: Fault)

  function Emit(env: ReceiverEnv, fr: Option<Frame>): Emission {
    if fr.None? || !env.connected then Raised(NullReference)
    else if !env.writable then Raised(WriteFailed)
    else Emitted(OnWire([fr.value]))
  }

  /** The bytes of frames written one after another, frame by frame. */
  function OnWire(frs: seq<Frame>): (bs: seq<Bytes>)
    ensures |bs| == |frs|
  {
    seq(|frs|, k requires 0 <= k < |frs| => Layout(frs[k]))
  }

  /** The header is present and equals the text ignoring case. */
  predicate HeaderIs(headers: map<string, string>, name: string, text: string) {
    name in headers && EqualsIgnoreCase(headers[name], text)
  }

  function ContentTypeOf(headers: map<string, string>): Option<string> {
    if HEADER_CONTENT_TYPE in headers then Some(headers[HEADER_CONTENT_TYPE]) else None
  }

  /** The listener call, or a NullPointerException without a listener. */
  function Notify(env: ReceiverEnv, cache: Bytes, frames: seq<Bytes>, e: Event): Reception {
    if env.listening then Reception(cache, frames, [e], None) else Reception(cache, frames, [], Some(NullReference))
  }

  /** The 200 response to a SEND request, unless it says "Failure-Report: no". */
  function Answer(env: ReceiverEnv, txId: string, headers: map<string, string>): Emission {
    if HeaderIs(headers, HEADER_FAILURE_REPORT, "no") then Emitted([])
    else Emit(env, Response(RESPONSE_OK_LINE, txId, headers))
  }

  /** The REPORT for size bytes received, when the request asks for one with
      "Success-Report: yes". */
  function SuccessReport(env: ReceiverEnv, txId: string, headers: map<string, string>, size: int,
                         totalSize: int): Emission
  {
    if HeaderIs(headers, HEADER_SUCCESS_REPORT, "yes")
    then Emit(env, ReportRequest(txId, headers, size, totalSize))
    else Emitted([])
  }

  /** What receiveMsrpSend does with the last chunk, once it is in the buffer, which now holds
      full: empty the buffer, send the success report if the request asks for one, and hand
      the content over. */
  function LastChunk(env: ReceiverEnv, full: Bytes, txId: string, headers: map<string, string>,
                     totalSize: int): Reception
  {
    match SuccessReport(env, txId, headers, |full|, totalSize)
    case Raised(fault) => Reception([], [], [], Some(fault))
    case Emitted(reported) => Notify(env, [], reported, DataReceived(full, ContentTypeOf(headers)))
  }

  /** What receiveMsrpSend does once the chunk is in the buffer, which now holds full: the
      branch on the continuation flag. */
  function Deliver(env: ReceiverEnv, full: Bytes, txId: string, headers: map<string, string>,
                   flag: int, totalSize: int): Reception
  {
    if flag == FLAG_LAST_CHUNK as int then LastChunk(env, full, txId, headers, totalSize)
    else if flag == FLAG_ABORT as int then Notify(env, full, [], TransferAborted)
    else if flag == FLAG_MORE_CHUNK as int then Notify(env, full, [], TransferProgress(|full|, totalSize))
    else Reception(full, [], [], None)
  }

  /** addChunk (an OutOfMemoryError when the buffer would outgrow a Java array), then the
      branch on the flag. */
  function Store(env: ReceiverEnv, cache: Bytes, txId: string, headers: map<string, string>,
                 flag: int, data: Bytes, totalSize: int): Reception
  {
    if |cache| + |data| > MAX_INT then Reception(cache, [], [], Some(OutOfMemory))
    else Deliver(env, cache + data, txId, headers, flag, totalSize)
  }

  /** receiveMsrpSend on a buffer holding cache: the answer, then the chunk is stored. */
  function OnSend(env: ReceiverEnv, cache: Bytes, txId: string, headers: map<string, string>,
                  flag: int, data: Bytes, totalSize: int): Reception
  {
    match Answer(env, txId, headers)
    case Raised(fault) => Reception(cache, [], [], Some(fault))
    case Emitted(answered) =>
      var r := Store(env, cache, txId, headers, flag, data, totalSize);
      Reception(r.cache, answered + r.frames, r.events, r.error)
  }

  /** One received SEND request. */
  datatype Send = Send(txId: string, headers: map<string, string>, flag: int, data: Bytes)

  /** Successive receiveMsrpSend calls, up to the first that raises. */
  function OnSends(env: ReceiverEnv, cache: Bytes, sends: seq<Send>, totalSize: int): Reception
    decreases |sends|
  {
    if sends == [] then Reception(cache, [], [], None)
    else
      var r := OnSend(env, cache, sends[0].txId, sends[0].headers, sends[0].flag, sends[0].data, totalSize);
      if r.error.Some? then r
      else
        var rest := OnSends(env, r.cache, sends[1..], totalSize);
        Reception(rest.cache, r.frames + rest.frames, r.events + rest.events, rest.error)
  }
}
