/** The MSRP session: report options, paths, connection and listener; the chunked sending
    of a content; the answers to received SEND requests; and close. */
module MsrpSessions {
  import opened Wire
  import opened MsrpFrames
  import opened NistUtils
  import opened MsrpTransfer
  import opened MsrpDataChunks
  import opened MsrpChunkSender

  /** An MsrpEventListener, seen through the calls it receives. */
  class EventListener {
    var events: seq<Event>

    constructor()
      ensures events == []
    {
      events := [];
    }

    method Notify(e: Event)
      modifies this
      ensures events == old(events) + [e]
    {
      events := events + [e];
    }
  }

  /** What the chunk loop of sendChunks does after an iteration. */
  datatype Step = Proceed | Leave | Halt(outcome: Outcome)

  /** What a transfer can observe of a session, at one moment. */
  datatype Snapshot = Snapshot(cancel: bool, signals: seq<Signal>,
                               connected: bool, taken: seq<Bytes>, bypassed: seq<Bytes>,
                               streamOpen: bool, terminated: bool,
                               listening: bool, events: seq<Event>)

  /** From a to b, exactly the effects e happened: a close() raises the flag and terminates
      the connection, the semaphore traffic and the listener's calls grow by e's, and the
      connection takes e's frames where the session puts them and nothing elsewhere. */
  predicate Follows(a: Snapshot, b: Snapshot, e: Effects) {
    && b.cancel == (a.cancel || e.closed)
    && b.signals == a.signals + e.signals
    && b.connected == a.connected && b.listening == a.listening
    && (a.connected ==> && b.taken == a.taken + e.frames && b.bypassed == a.bypassed
                        && b.streamOpen == a.streamOpen && b.terminated == (a.terminated || e.closed))
    && (a.listening ==> b.events == a.events + e.events)
  }

  lemma FollowsNothing(a: Snapshot)
    ensures Follows(a, a, NoEffects)
  {
  }

  /** Nothing, then e, is e. */
  lemma FollowsAfterNothing(a: Snapshot, b: Snapshot, c: Snapshot, e: Effects)
    requires Follows(a, b, NoEffects) && Follows(b, c, e)
    ensures Follows(a, c, e)
  {
  }

  /** Effects compose: a to b by e1, then b to c by e2, is a to c by e1 then e2. */
  lemma FollowsThen(a: Snapshot, b: Snapshot, c: Snapshot, e1: Effects, e2: Effects)
    requires Follows(a, b, e1) && Follows(b, c, e2)
    ensures Follows(a, c, Then(e1, e2))
  {
    SeqAssoc(a.signals, e1.signals, e2.signals);
    SeqAssoc(a.taken, e1.frames, e2.frames);
    SeqAssoc(a.events, e1.events, e2.events);
  }

  /** The connection took the frames: onto its queue when queued, otherwise onto its stream. */
  twostate predicate Forwarded(c: ChunkSender, queued: bool, frames: seq<Bytes>)
    reads c
  {
    && Taken(c, queued) == old(Taken(c, queued)) + frames
    && Bypassed(c, queued) == old(Bypassed(c, queued))
    && c.streamOpen == old(c.streamOpen)
  }

  /** Where the connection puts the session's frames: its queue when failure reports are
      requested, otherwise its stream. */
  ghost function Taken(c: ChunkSender, queued: bool): seq<Bytes>
    reads c
  {
    if queued then c.buffer else c.stream
  }

  /** The other of the two. */
  ghost function Bypassed(c: ChunkSender, queued: bool): seq<Bytes>
    reads c
  {
    if queued then c.stream else c.buffer
  }

  /** The loop of sendMsrpSendRequest over the header table: one "name: value" line each. */
  method WriteHeaders(buffer: Bytes, headers: seq<(string, string)>) returns (out: Bytes)
    ensures out == buffer + FieldLines(TextFields(headers))
  {
    out := buffer;
    assert out == buffer + FieldLines(TextFields(headers[..0]));
    var k := 0;
    while k < |headers|
      invariant 0 <= k <= |headers|
      invariant out == buffer + FieldLines(TextFields(headers[..k]))
    {
      var (key, value) := headers[k];
      var header := key + ": " + value;
      out := out + Utf8(header);
      out := out + Utf8(NEW_LINE);
      AppendHeaderLine(buffer, TextFields(headers[..k]), key, value);
      TextFieldsSnoc(headers, k);
      k := k + 1;
    }
    assert headers[..k] == headers;
  }

  /** The bytes sendMsrpSendRequest writes into its ByteArrayOutputStream for one chunk: the
      request line, the table's headers, Byte-Range, Content-Type, the optional report
      headers, the blank line, the chunk, and the end line with its continuation flag. */
  method WriteSendRequest(txId: string, headers: seq<(string, string)>, contentType: string,
                          data: Bytes, firstByte: int, lastByte: int, totalSize: int,
                          failureReport: bool, successReport: bool) returns (buffer: Bytes)
    ensures buffer == Layout(SendRequest(txId, headers, contentType, data, firstByte, lastByte, totalSize,
                                         failureReport, successReport))
  {
    var isLastChunk := lastByte == totalSize;
    buffer := [];
    buffer := buffer + Utf8(MSRP_PROTOCOL);
    buffer := buffer + [SP];
    buffer := buffer + Utf8(txId);
    buffer := buffer + Utf8(" " + METHOD_SEND);
    buffer := buffer + Utf8(NEW_LINE);
    StartText(txId, METHOD_SEND);
    ghost var start := StartLine(Utf8(txId), Utf8(METHOD_SEND)) + CRLF;
    buffer := WriteHeaders(buffer, headers);
    ghost var range := TextField(HEADER_BYTE_RANGE, RangeText(firstByte, lastByte, totalSize));
    var byteRange := HEADER_BYTE_RANGE + ": " + Decimal(firstByte) + "-" + Decimal(lastByte) + "/" + Decimal(totalSize) + NEW_LINE;
    buffer := buffer + Utf8(byteRange);
    RangeHeaderText(firstByte, lastByte, totalSize);
    ghost var content := TextField(HEADER_CONTENT_TYPE, contentType);
    var contentHeader := HEADER_CONTENT_TYPE + ": " + contentType + NEW_LINE;
    buffer := buffer + Utf8(contentHeader);
    HeaderText(HEADER_CONTENT_TYPE, contentType);
    ghost var fo: seq<Field> := if !failureReport then [FAILURE_REPORT_NO] else [];
    ghost var so: seq<Field> := if successReport then [SUCCESS_REPORT_YES] else [];
    if !failureReport {
      var header := HEADER_FAILURE_REPORT + ": " + "no" + NEW_LINE;
      buffer := buffer + Utf8(header);
      HeaderText(HEADER_FAILURE_REPORT, "no");
      FieldLinesOne(FAILURE_REPORT_NO);
    } else {
      assert buffer + FieldLines(fo) == buffer;
    }
    if successReport {
      var header := HEADER_SUCCESS_REPORT + ": " + "yes" + NEW_LINE;
      buffer := buffer + Utf8(header);
      HeaderText(HEADER_SUCCESS_REPORT, "yes");
      FieldLinesOne(SUCCESS_REPORT_YES);
    } else {
      assert buffer + FieldLines(so) == buffer;
    }
    ghost var headed := buffer;
    buffer := buffer + Utf8(NEW_LINE);
    buffer := buffer + data;
    buffer := buffer + Utf8(NEW_LINE);
    buffer := buffer + Utf8(END_MSRP_MSG);
    buffer := buffer + Utf8(txId);
    var flag := if isLastChunk then FLAG_LAST_CHUNK else FLAG_MORE_CHUNK;
    buffer := buffer + [flag];
    buffer := buffer + Utf8(NEW_LINE);
    BodyClosingText(headed, data, txId, flag);
    FieldLinesParts(TextFields(headers), range, content, fo, so);
    LayoutRegroup(start, FieldLines(TextFields(headers)), FieldLine(range), FieldLine(content),
                  FieldLines(fo), FieldLines(so), Closing(Some(data), Utf8(txId), flag));
  }

  /** The bytes sendMsrpResponse writes: the status line, From-Path set to the request's
      To-Path, To-Path set to its From-Path, its Byte-Range, and the end line closed by '$'.
      None where a header it looks up is absent (Hashtable.get gives null, and getBytes throws). */
  method WriteResponse(code: string, txId: string, headers: map<string, string>) returns (buffer: Option<Bytes>)
    ensures Response(code, txId, headers).None? ==> buffer == None
    ensures Response(code, txId, headers).Some? ==> buffer == Some(Layout(Response(code, txId, headers).value))
  {
    var b: Bytes := [];
    b := b + Utf8(MSRP_PROTOCOL);
    b := b + [SP];
    b := b + Utf8(txId);
    b := b + [SP];
    b := b + Utf8(code);
    b := b + Utf8(NEW_LINE);
    SpacedStartText(txId, code);
    ghost var start := StartLine(Utf8(txId), Utf8(code)) + CRLF;
    ghost var fields: seq<Field> := [];
    assert b == start + FieldLines(fields);

    if HEADER_TO_PATH !in headers {
      return None;
    }
    b := WriteHeaderParts(b, start, fields, HEADER_FROM_PATH, headers[HEADER_TO_PATH]);
    fields := fields + [TextField(HEADER_FROM_PATH, headers[HEADER_TO_PATH])];

    if HEADER_FROM_PATH !in headers {
      return None;
    }
    b := WriteHeaderParts(b, start, fields, HEADER_TO_PATH, headers[HEADER_FROM_PATH]);
    fields := fields + [TextField(HEADER_TO_PATH, headers[HEADER_FROM_PATH])];

    if HEADER_BYTE_RANGE !in headers {
      return None;
    }
    b := WriteHeaderParts(b, start, fields, HEADER_BYTE_RANGE, headers[HEADER_BYTE_RANGE]);
    fields := fields + [TextField(HEADER_BYTE_RANGE, headers[HEADER_BYTE_RANGE])];

    ghost var headed := b;
    b := b + Utf8(END_MSRP_MSG);
    b := b + Utf8(txId);
    b := b + [FLAG_LAST_CHUNK];
    b := b + Utf8(NEW_LINE);
    ClosingText(headed, txId, FLAG_LAST_CHUNK);
    ghost var fr := Response(code, txId, headers).value;
    FieldsThree(fr.fields[0], fr.fields[1], fr.fields[2]);
    assert b == Layout(fr);
    buffer := Some(b);
  }

  /** One header written as its name, ':', ' ', its value and a line break. */
  method WriteHeaderParts(b: Bytes, ghost start: Bytes, ghost fields: seq<Field>, name: string, value: string)
    returns (out: Bytes)
    requires b == start + FieldLines(fields)
    ensures out == start + FieldLines(fields + [TextField(name, value)])
  {
    out := b + Utf8(name);
    out := out + [COLON];
    out := out + [SP];
    out := out + Utf8(value);
    out := out + Utf8(NEW_LINE);
    AppendHeaderParts(start, fields, name, value);
  }

  /** The bytes sendMsrpReportRequest writes: the REPORT line, the request's Message-ID, the
      paths swapped, Byte-Range "1-lastByte/totalSize", Status "000 200 OK", and the end line
      closed by '$'. None where a header it looks up is absent. */
  method WriteReportRequest(txId: string, headers: map<string, string>, lastByte: int, totalSize: int)
    returns (buffer: Option<Bytes>)
    ensures ReportRequest(txId, headers, lastByte, totalSize).None? ==> buffer == None
    ensures ReportRequest(txId, headers, lastByte, totalSize).Some? ==>
              buffer == Some(Layout(ReportRequest(txId, headers, lastByte, totalSize).value))
  {
    var b: Bytes := [];
    b := b + Utf8(MSRP_PROTOCOL);
    b := b + [SP];
    b := b + Utf8(txId);
    b := b + Utf8(" " + METHOD_REPORT);
    b := b + Utf8(NEW_LINE);
    StartText(txId, METHOD_REPORT);
    ghost var start := StartLine(Utf8(txId), Utf8(METHOD_REPORT)) + CRLF;
    ghost var fields: seq<Field> := [];
    assert b == start + FieldLines(fields);

    if HEADER_MESSAGE_ID !in headers {
      return None;
    }
    b := WriteHeaderParts(b, start, fields, HEADER_MESSAGE_ID, headers[HEADER_MESSAGE_ID]);
    fields := fields + [TextField(HEADER_MESSAGE_ID, headers[HEADER_MESSAGE_ID])];

    if HEADER_TO_PATH !in headers {
      return None;
    }
    b := WriteHeaderParts(b, start, fields, HEADER_FROM_PATH, headers[HEADER_TO_PATH]);
    fields := fields + [TextField(HEADER_FROM_PATH, headers[HEADER_TO_PATH])];

    if HEADER_FROM_PATH !in headers {
      return None;
    }
    b := WriteHeaderParts(b, start, fields, HEADER_TO_PATH, headers[HEADER_FROM_PATH]);
    fields := fields + [TextField(HEADER_TO_PATH, headers[HEADER_FROM_PATH])];

    var byteRange := "1-" + Decimal(lastByte) + "/" + Decimal(totalSize);
    ReportRangeText(lastByte, totalSize);
    b := WriteHeaderParts(b, start, fields, HEADER_BYTE_RANGE, byteRange);
    fields := fields + [TextField(HEADER_BYTE_RANGE, RangeText(1, lastByte, totalSize))];

    var status := STATUS_OK;
    b := WriteHeaderParts(b, start, fields, HEADER_STATUS, status);
    fields := fields + [TextField(HEADER_STATUS, STATUS_OK)];

    ghost var headed := b;
    b := b + Utf8(END_MSRP_MSG);
    b := b + Utf8(txId);
    b := b + [FLAG_LAST_CHUNK];
    b := b + Utf8(NEW_LINE);
    ClosingText(headed, txId, FLAG_LAST_CHUNK);
    ghost var fr := ReportRequest(txId, headers, lastByte, totalSize).value;
    FieldsFive(fr.fields[0], fr.fields[1], fr.fields[2], fr.fields[3], fr.fields[4]);
    assert b == Layout(fr);
    buffer := Some(b);
  }

  class MsrpSession {
    var failureReportOption: bool
    var successReportOption: bool
    /** The connection, through the sender that writes its frames. */
    var connection: ChunkSender?
    var from: Option<string>
    var to: Option<string>
    var cancelTransfer: bool
    /** The traffic on the response and report semaphores, in order. */
    var signals: seq<Signal>
    const receivedChunks: DataChunks
    var listener: EventListener?

    ghost predicate Valid()
      reads receivedChunks
    {
      receivedChunks.Valid()
    }

    /** The frames the connection accepts: all of them when they are queued, otherwise only
        while its stream accepts writes. */
    ghost predicate Writable()
      reads this, connection
    {
      failureReportOption || (connection != null && connection.streamOpen)
    }

    /** What a received request meets: a connection, whether it accepts frames, a listener. */
    ghost function Env(): ReceiverEnv
      reads this, connection
    {
      ReceiverEnv(connection != null, Writable(), listener != null)
    }

    constructor()
      ensures Valid() && fresh(receivedChunks)
      ensures failureReportOption && !successReportOption
      ensures connection == null && listener == null && from == None && to == None
      ensures !cancelTransfer && signals == [] && receivedChunks.cache == []
    {
      failureReportOption := true;
      successReportOption := false;
      connection := null;
      from := None;
      to := None;
      cancelTransfer := false;
      signals := [];
      receivedChunks := new DataChunks();
      listener := null;
    }

    // -------------------------------------------------------------------------
    // Options, paths, connection, listener

    method IsFailureReportRequested() returns (r: bool)
      ensures r == failureReportOption
    {
      r := failureReportOption;
    }

    method SetFailureReportOption(option: bool)
      modifies this`failureReportOption
      ensures failureReportOption == option
    {
      failureReportOption := option;
    }

    method IsSuccessReportRequested() returns (r: bool)
      ensures r == successReportOption
    {
      r := successReportOption;
    }

    method SetSuccessReportOption(option: bool)
      modifies this`successReportOption
      ensures successReportOption == option
    {
      successReportOption := option;
    }

    method SetConnection(c: ChunkSender?)
      modifies this`connection
      ensures connection == c
    {
      connection := c;
    }

    method GetConnection() returns (c: ChunkSender?)
      ensures c == connection
    {
      c := connection;
    }

    method AddMsrpEventListener(l: EventListener?)
      modifies this`listener
      ensures listener == l
    {
      listener := l;
    }

    method GetMsrpEventListener() returns (l: EventListener?)
      ensures l == listener
    {
      l := listener;
    }

    method SetFrom(path: Option<string>)
      modifies this`from
      ensures from == path
    {
      from := path;
    }

    method GetFrom() returns (path: Option<string>)
      ensures path == from
    {
      path := from;
    }

    method SetTo(path: Option<string>)
      modifies this`to
      ensures to == path
    {
      to := path;
    }

    method GetTo() returns (path: Option<string>)
      ensures path == to
    {
      path := to;
    }

    /** What a transfer can observe of the session: the cancel flag, the semaphore traffic,
        the connection's queue, stream and state, and the listener's calls. */
    ghost function Snap(): Snapshot
      reads this, connection, listener
    {
      Snapshot(cancelTransfer, signals, connection != null,
               if connection == null then [] else Taken(connection, failureReportOption),
               if connection == null then [] else Bypassed(connection, failureReportOption),
               connection != null && connection.streamOpen, connection != null && connection.terminated,
               listener != null, if listener == null then [] else listener.events)
    }

    /** The effects e are what happened since the old state. */
    twostate predicate Accounted(e: Effects)
      reads this, connection, listener
    {
      Follows(old(Snap()), Snap(), e)
    }

    /** close: raises the cancel flag, closes the connection, and releases both waits. */
    method Close()
      modifies this`cancelTransfer, this`signals, connection
      ensures Accounted(CloseEffects)
    {
      cancelTransfer := true;
      if connection != null {
        connection.Terminate();
      }
      signals := signals + [NotifyResponse];
      signals := signals + [NotifyReport];
    }

    /** Point p of a run of the sending thread, at which a concurrent close() lands when p
        is closeAt. */
    method Meanwhile(p: nat, closeAt: nat)
      modifies this`cancelTransfer, this`signals, connection
      ensures Accounted(PollEffects(p, closeAt))
    {
      if p == closeAt {
        Close();
      } else if connection != null {
        assert Taken(connection, failureReportOption) == old(Taken(connection, failureReportOption)) + [];
      }
    }

    /** A read of the cancel flag, numbered p, by the sending thread; a concurrent close()
        that lands just before poll closeAt runs first. */
    method Poll(p: nat, closeAt: nat) returns (cancelled: bool)
      modifies this`cancelTransfer, this`signals, connection
      ensures cancelled == cancelTransfer
      ensures Accounted(PollEffects(p, closeAt))
    {
      Meanwhile(p, closeAt);
      cancelled := cancelTransfer;
    }

    /** The report options, the connection's state and the listener a transfer set-up was
        taken from. */
    ghost predicate Matches(s: SendSetup)
      reads this, connection
    {
      && s.failureReport == failureReportOption && s.successReport == successReportOption
      && s.writable == Writable() && s.listening == (listener != null)
    }

    /** sendChunks: checks the paths and the connection, then reads the input chunk by
        chunk, sending each as a SEND request and notifying its progress, until the input
        ends or the session is closed; then waits for the final report when success reports
        are on and notifies the end of the transfer. The whole run follows SendChunksTrace,
        from a lowered cancel flag. */
    method SendChunks(input: seq<Bytes>, readFails: bool, contentType: string, totalSize: int,
                      random: nat -> int32, order: KeyOrder, closeAt: nat) returns (outcome: Outcome)
      modifies this`cancelTransfer, this`signals, connection, listener
      ensures var t := old(SendChunksTrace(from, to, connection != null, order, contentType, totalSize, random,
                                           failureReportOption, successReportOption, Writable(),
                                           listener != null, input, readFails, closeAt));
              && outcome == t.outcome
              && (from.Some? && to.Some? && connection != null ==> Follows(old(Snap()).(cancel := false), Snap(), t.effects))
              && (from.None? || to.None? || connection == null ==> Snap() == old(Snap()))
    {
      ghost var t := SendChunksTrace(from, to, connection != null, order, contentType, totalSize, random,
                                     failureReportOption, successReportOption, Writable(),
                                     listener != null, input, readFails, closeAt);
      if from.None? {
        return Failed(FromNotSet);
      }
      if to.None? {
        return Failed(ToNotSet);
      }
      if connection == null {
        return Failed(NoConnection);
      }
      var headers := CommonHeaders(order, from.value, to.value, ToHexString(random(0)));
      var s := SendSetup(headers, contentType, totalSize, random, failureReportOption, successReportOption,
                         failureReportOption || connection.streamOpen, listener != null);
      assert t == ChunkLoop(s, input, readFails, closeAt, 0, 1);
      cancelTransfer := false;
      ghost var lowered := Snap();
      assert lowered == old(Snap()).(cancel := false);
      outcome := Transfer(s, input, readFails, closeAt);
    }

    /** The chunk loop of sendChunks and what follows it, from a lowered cancel flag, as
        ChunkLoop describes them. */
    method Transfer(s: SendSetup, input: seq<Bytes>, readFails: bool, closeAt: nat) returns (outcome: Outcome)
      requires connection != null && Matches(s) && !cancelTransfer
      modifies this`cancelTransfer, this`signals, connection, listener
      ensures var t := ChunkLoop(s, input, readFails, closeAt, 0, 1);
              outcome == t.outcome && Accounted(t.effects)
    {
      var firstByte := 1;
      var j := 0;
      ghost var done := NoEffects;
      ghost var trace := ChunkLoop(s, input, readFails, closeAt, 0, 1);
      FollowsNothing(Snap());
      BeforeNothing(trace);
      while true
        invariant j <= |input| && connection != null && Matches(s)
        invariant trace == Before(done, ChunkLoop(s, input, readFails, closeAt, j, firstByte))
        invariant cancelTransfer == (closeAt < 2 * j)
        invariant Follows(old(Snap()), Snap(), done)
        decreases |input| - j
      {
        ghost var before := Snap();
        ghost var r := ChunkRound(s, input, readFails, closeAt, j, firstByte);
        var step := SendRound(s, input, readFails, closeAt, j, firstByte);
        if step.Halt? {
          FollowsThen(old(Snap()), before, Snap(), done, r.trace.effects);
          return step.outcome;
        }
        FollowsThen(old(Snap()), before, Snap(), done, r.effects);
        if step == Leave {
          ghost var finish := Finish(s, closeAt, 2 * j + 1);
          BeforeThen(done, r.effects, finish);
          ghost var left := Snap();
          outcome := FinishTransfer(s, closeAt, 2 * j + 1);
          FollowsThen(old(Snap()), left, Snap(), Then(done, r.effects), finish.effects);
          return;
        }
        ghost var done0, j0, firstByte0 := done, j, firstByte;
        done := Then(done, r.effects);
        firstByte := firstByte + |input[j]|;
        j := j + 1;
        LoopAdvance(trace, s, input, readFails, closeAt, done0, j0, firstByte0, done, j, firstByte);
      }
    }

    /** One iteration of the chunk loop of sendChunks, as ChunkRound describes it; step says
        whether the loop goes on, leaves, or sendChunks ends with an outcome. */
    method SendRound(s: SendSetup, input: seq<Bytes>, readFails: bool, closeAt: nat, j: nat, firstByte: int)
      returns (step: Step)
      requires j <= |input| && connection != null && Matches(s)
      requires cancelTransfer == (closeAt < 2 * j)
      modifies this`cancelTransfer, this`signals, connection, listener
      ensures Matches(s)
      ensures step == Leave ==> cancelTransfer == (closeAt < 2 * j + 1)
      ensures step == Proceed ==> cancelTransfer == (closeAt < 2 * j + 2)
      ensures match ChunkRound(s, input, readFails, closeAt, j, firstByte)
              case Continue(e) => step == Proceed && Accounted(e)
              case Exit(e) => step == Leave && Accounted(e)
              case Stop(t) => step == Halt(t.outcome) && Accounted(t.effects)
    {
      if j == |input| && readFails {
        FollowsNothing(Snap());
        return Halt(Failed(ReadFailed));
      }
      var cancelled := Poll(2 * j, closeAt);
      if cancelled || j == |input| {
        return Leave;
      }
      ghost var mid := Snap();
      ghost var guard := PollEffects(2 * j, closeAt);
      var c := ChunkPlan(j, input[j], firstByte, firstByte - 1 + |input[j]|);
      step := SendStep(s, closeAt, j, c);
      ghost var r := ChunkSend(s, closeAt, j, c);
      if r.Stop? {
        FollowsThen(old(Snap()), mid, Snap(), guard, r.trace.effects);
      } else {
        FollowsThen(old(Snap()), mid, Snap(), guard, r.effects);
      }
    }

    /** The body of iteration j of the chunk loop for the chunk c, as ChunkSend describes it. */
    method SendStep(s: SendSetup, closeAt: nat, j: nat, c: ChunkPlan) returns (step: Step)
      requires connection != null && Matches(s)
      requires cancelTransfer == (closeAt < 2 * j + 1)
      modifies this`cancelTransfer, this`signals, connection, listener
      ensures Matches(s)
      ensures step == Proceed ==> cancelTransfer == (closeAt < 2 * j + 2)
      ensures match ChunkSend(s, closeAt, j, c)
              case Continue(e) => step == Proceed && Accounted(e)
              case Exit(e) => false
              case Stop(t) => step == Halt(t.outcome) && Accounted(t.effects)
    {
      var ok := SendChunkRequest(s, c);
      if !ok {
        return Halt(Failed(WriteFailed));
      }
      ghost var mid := Snap();
      step := ProgressStep(s, closeAt, j, c);
      ghost var r := Progress(s, closeAt, j, c);
      if r.Stop? {
        FollowsThen(old(Snap()), mid, Snap(), Sent(s, c), r.trace.effects);
      } else {
        FollowsThen(old(Snap()), mid, Snap(), Sent(s, c), r.effects);
      }
    }

    /** sendMsrpSendRequest for the chunk c, as Sent describes it. */
    method SendChunkRequest(s: SendSetup, c: ChunkPlan) returns (ok: bool)
      requires connection != null && Matches(s)
      modifies this`signals, connection
      ensures Matches(s)
      ensures ok == s.writable
      ensures Accounted(if ok then Sent(s, c) else NoEffects)
    {
      OneChunkOnWire(s, c);
      ghost var frames := OnWire([ChunkRequest(s, c)]);
      assert frames == OnWire([SendRequest(ToHexString(s.random(c.index + 1)), s.headers, s.contentType, c.data,
                                           c.firstByte, c.lastByte, s.totalSize, failureReportOption, successReportOption)]);
      assert Sent(s, c) == Effects(frames, [], if failureReportOption then [WaitResponse] else [], false);
      ok := SendMsrpSendRequest(ToHexString(s.random(c.index + 1)), s.headers, s.contentType, c.data,
                                c.firstByte, c.lastByte, s.totalSize);
    }

    /** The rest of iteration j once its SEND request is out, as Progress describes it. */
    method ProgressStep(s: SendSetup, closeAt: nat, j: nat, c: ChunkPlan) returns (step: Step)
      requires connection != null && Matches(s)
      requires cancelTransfer == (closeAt < 2 * j + 1)
      modifies this`cancelTransfer, this`signals, connection, listener
      ensures Matches(s)
      ensures step == Proceed ==> cancelTransfer == (closeAt < 2 * j + 2)
      ensures match Progress(s, closeAt, j, c)
              case Continue(e) => step == Proceed && Accounted(e)
              case Exit(e) => false
              case Stop(t) => step == Halt(t.outcome) && Accounted(t.effects)
    {
      var cancelled := Poll(2 * j + 1, closeAt);
      if cancelled {
        return Proceed;
      }
      if listener == null {
        return Halt(Failed(NullReference));
      }
      ghost var polledAt := Snap();
      ghost var progress := Effects([], [TransferProgress(c.lastByte, s.totalSize)], [], false);
      listener.Notify(TransferProgress(c.lastByte, s.totalSize));
      assert Follows(polledAt, Snap(), progress);
      FollowsThen(old(Snap()), polledAt, Snap(), PollEffects(2 * j + 1, closeAt), progress);
      return Proceed;
    }

    /** What sendChunks does after its loop, as Finish describes it: the cancel check (poll
        p), the wait for the final report, and the completion notification. */
    method FinishTransfer(s: SendSetup, closeAt: nat, p: nat) returns (outcome: Outcome)
      requires connection != null && Matches(s)
      requires cancelTransfer == (closeAt < p)
      modifies this`cancelTransfer, this`signals, connection, listener
      ensures outcome == Finish(s, closeAt, p).outcome
      ensures Accounted(Finish(s, closeAt, p).effects)
    {
      var cancelled := Poll(p, closeAt);
      if cancelled {
        return Cancelled;
      }
      ghost var polled := Snap();
      outcome := ConcludeTransfer(s, closeAt, p + 1);
      FollowsAfterNothing(old(Snap()), polled, Snap(), Conclude(s, closeAt, p + 1).effects);
    }

    /** The end of sendChunks once the flag is found lowered, as Conclude describes it: a
        close() that lands during the wait for the final report releases the wait, and the
        completion is notified all the same. */
    method ConcludeTransfer(s: SendSetup, closeAt: nat, q: nat) returns (outcome: Outcome)
      requires connection != null && Matches(s)
      modifies this`cancelTransfer, this`signals, connection, listener
      ensures outcome == Conclude(s, closeAt, q).outcome
      ensures Accounted(Conclude(s, closeAt, q).effects)
    {
      var wait := Effects([], [], if s.successReport then [WaitReport] else [], false);
      if successReportOption {
        signals := signals + [WaitReport];
      }
      ghost var waiting := Snap();
      Meanwhile(q, closeAt);
      FollowsThen(old(Snap()), waiting, Snap(), wait, PollEffects(q, closeAt));
      if listener == null {
        return Failed(NullReference);
      }
      ghost var waited := Snap();
      listener.Notify(DataTransfered);
      FollowsThen(old(Snap()), waited, Snap(), Then(wait, PollEffects(q, closeAt)),
                  Effects([], [DataTransfered], [], false));
      return Completed;
    }

    // -------------------------------------------------------------------------
    // Frame writers

    /** connection.sendChunk(frame) on a connection that is set. */
    method SendFrame(frame: Bytes) returns (ok: bool)
      requires connection != null
      modifies connection
      ensures ok == old(Writable())
      ensures Forwarded(connection, failureReportOption, if ok then [frame] else [])
      ensures connection.terminated == old(connection.terminated)
    {
      ok := connection.SendChunk(frame, failureReportOption);
    }

    /** sendMsrpSendRequest: hands the SEND request of one chunk to the connection (ok is
        false when the stream refuses it), then waits for its response when failure reports
        are on. */
    method SendMsrpSendRequest(txId: string, headers: seq<(string, string)>, contentType: string,
                               data: Bytes, firstByte: int, lastByte: int, totalSize: int) returns (ok: bool)
      requires connection != null
      modifies this`signals, connection
      ensures ok == old(Writable())
      ensures Forwarded(connection, failureReportOption,
                        if ok then OnWire([SendRequest(txId, headers, contentType, data, firstByte, lastByte, totalSize,
                                                       failureReportOption, successReportOption)])
                        else [])
      ensures connection.terminated == old(connection.terminated)
      ensures signals == old(signals) + (if ok && failureReportOption then [WaitResponse] else [])
    {
      var buffer := WriteSendRequest(txId, headers, contentType, data, firstByte, lastByte, totalSize,
                                     failureReportOption, successReportOption);
      ok := SendFrame(buffer);
      assert OnWire([SendRequest(txId, headers, contentType, data, firstByte, lastByte, totalSize,
                                 failureReportOption, successReportOption)]) == [buffer];
      if ok && failureReportOption {
        signals := signals + [WaitResponse];
      }
    }
  
    /** Hands a frame built from a request's headers to the connection: a missing header or
        an unset connection is a NullPointerException, a refused write an IOException. */
    method Emitting(buffer: Option<Bytes>, ghost fr: Option<Frame>) returns (error: Option<Fault>)
      requires fr.None? ==> buffer == None
      requires fr.Some? ==> buffer == Some(Layout(fr.value))
      modifies connection
      ensures var e := old(Emit(Env(), fr));
              && error == (if e.Raised? then Some(e.fault) else None)
              && (connection != null ==> Forwarded(connection, failureReportOption, if e.Emitted? then e.frames else []))
      ensures connection != null ==> connection.terminated == old(connection.terminated)
    {
      if buffer.None? || connection == null {
        return Some(NullReference);
      }
      var ok := SendFrame(buffer.value);
      error := if ok then None else Some(WriteFailed);
      assert OnWire([fr.value]) == [buffer.value];
    }

    /** sendMsrpResponse */
    method SendMsrpResponse(code: string, txId: string, headers: map<string, string>) returns (error: Option<Fault>)
      modifies connection
      ensures var e := old(Emit(Env(), Response(code, txId, headers)));
              && error == (if e.Raised? then Some(e.fault) else None)
              && (connection != null ==> Forwarded(connection, failureReportOption, if e.Emitted? then e.frames else []))
      ensures connection != null ==> connection.terminated == old(connection.terminated)
    {
      var buffer := WriteResponse(code, txId, headers);
      error := Emitting(buffer, Response(code, txId, headers));
    }

    /** sendMsrpReportRequest; the pause of a second that follows the write is not modelled. */
    method SendMsrpReportRequest(txId: string, headers: map<string, string>, lastByte: int, totalSize: int)
      returns (error: Option<Fault>)
      modifies connection
      ensures var e := old(Emit(Env(), ReportRequest(txId, headers, lastByte, totalSize)));
              && error == (if e.Raised? then Some(e.fault) else None)
              && (connection != null ==> Forwarded(connection, failureReportOption, if e.Emitted? then e.frames else []))
      ensures connection != null ==> connection.terminated == old(connection.terminated)
    {
      var buffer := WriteReportRequest(txId, headers, lastByte, totalSize);
      error := Emitting(buffer, ReportRequest(txId, headers, lastByte, totalSize));
    }

    /** receiveMsrpResponse: releases the wait for a response; a status other than 200 is
        reported to the listener as "<code> response received". */
    method ReceiveMsrpResponse(code: int, txId: string, headers: map<string, string>) returns (error: Option<Fault>)
      modifies this`signals, listener
      ensures signals == old(signals) + [NotifyResponse]
      ensures error.Some? <==> code != 200 && listener == null
      ensures error.Some? ==> error == Some(NullReference)
      ensures listener != null ==>
                listener.events == old(listener.events)
                                   + (if code != 200 then [TransferError(Decimal(code) + " response received")] else [])
    {
      signals := signals + [NotifyResponse];
      if code != 200 {
        if listener == null {
          return Some(NullReference);
        }
        listener.Notify(TransferError(Decimal(code) + " response received"));
      }
      return None;
    }

    /** receiveMsrpReport: releases the wait for the final report. */
    method ReceiveMsrpReport(txId: string, headers: map<string, string>)
      modifies this`signals
      ensures signals == old(signals) + [NotifyReport]
    {
      signals := signals + [NotifyReport];
    }
  
    /** receiveMsrpSend: answers with "200 OK" unless the request says "Failure-Report: no",
        then stores the chunk. */
    method ReceiveMsrpSend(txId: string, headers: map<string, string>, flag: int, data: Bytes, totalSize: int)
      returns (error: Option<Fault>)
      requires Valid()
      modifies connection, listener, receivedChunks
      ensures Valid()
      ensures var r := old(OnSend(Env(), receivedChunks.cache, txId, headers, flag, data, totalSize));
              && error == r.error
              && receivedChunks.cache == r.cache
              && (connection != null ==> Forwarded(connection, failureReportOption, r.frames))
              && (listener != null ==> listener.events == old(listener.events) + r.events)
      ensures connection != null ==> connection.terminated == old(connection.terminated)
    {
      ghost var env := Env();
      ghost var cache := receivedChunks.cache;
      ghost var answer := Answer(env, txId, headers);
      error := AnswerSend(txId, headers);
      if error.None? {
        assert Env() == env;
        ghost var r := Store(env, cache, txId, headers, flag, data, totalSize);
        error := StoreChunk(txId, headers, flag, data, totalSize);
        if connection != null {
          SeqAssoc(old(Taken(connection, failureReportOption)), answer.frames, r.frames);
        }
      }
    }

    /** The first step of receiveMsrpSend: the response, unless "Failure-Report: no". */
    method AnswerSend(txId: string, headers: map<string, string>) returns (error: Option<Fault>)
      modifies connection
      ensures var e := old(Answer(Env(), txId, headers));
              && error == (if e.Raised? then Some(e.fault) else None)
              && (connection != null ==> Forwarded(connection, failureReportOption, if e.Emitted? then e.frames else []))
      ensures connection != null ==> connection.terminated == old(connection.terminated)
    {
      var failureReportNeeded := true;
      if HEADER_FAILURE_REPORT in headers && EqualsIgnoreCase(headers[HEADER_FAILURE_REPORT], "no") {
        failureReportNeeded := false;
      }
      if failureReportNeeded {
        error := SendMsrpResponse(RESPONSE_OK_LINE, txId, headers);
      } else {
        error := None;
      }
    }

    /** The rest of receiveMsrpSend: the chunk goes into the buffer, then the flag decides. */
    method StoreChunk(txId: string, headers: map<string, string>, flag: int, data: Bytes, totalSize: int)
      returns (error: Option<Fault>)
      requires Valid()
      modifies connection, listener, receivedChunks
      ensures Valid()
      ensures var r := old(Store(Env(), receivedChunks.cache, txId, headers, flag, data, totalSize));
              && error == r.error
              && receivedChunks.cache == r.cache
              && (connection != null ==> Forwarded(connection, failureReportOption, r.frames))
              && (listener != null ==> listener.events == old(listener.events) + r.events)
      ensures connection != null ==> connection.terminated == old(connection.terminated)
    {
      var added := receivedChunks.AddChunk(data);
      if !added {
        return Some(OutOfMemory);
      }
      if flag == FLAG_LAST_CHUNK as int {
        error := DeliverContent(txId, headers, totalSize);
      } else if flag == FLAG_ABORT as int {
        error := NotifyListener(TransferAborted);
      } else if flag == FLAG_MORE_CHUNK as int {
        var size := receivedChunks.GetCurrentSize();
        error := NotifyListener(TransferProgress(size, totalSize));
      } else {
        error := None;
      }
    }

    /** The last chunk is in the buffer: the content is taken out, the buffer emptied, the
        success report sent if the request asks for one, and the content handed over. */
    method DeliverContent(txId: string, headers: map<string, string>, totalSize: int) returns (error: Option<Fault>)
      requires Valid()
      modifies connection, listener, receivedChunks
      ensures Valid()
      ensures var r := old(LastChunk(Env(), receivedChunks.cache, txId, headers, totalSize));
              && error == r.error
              && receivedChunks.cache == r.cache
              && (connection != null ==> Forwarded(connection, failureReportOption, r.frames))
              && (listener != null ==> listener.events == old(listener.events) + r.events)
      ensures connection != null ==> connection.terminated == old(connection.terminated)
    {
      ghost var env := Env();
      var dataContent := receivedChunks.GetReceivedData();
      receivedChunks.ResetCache();
      assert Env() == env;
      error := SendSuccessReport(txId, headers, |dataContent|, totalSize);
      if error.Some? {
        return;
      }
      var contentTypeHeader := if HEADER_CONTENT_TYPE in headers then Some(headers[HEADER_CONTENT_TYPE]) else None;
      error := NotifyListener(DataReceived(dataContent, contentTypeHeader));
    }

    /** The success report of the last chunk, sent when the request asks for one. */
    method SendSuccessReport(txId: string, headers: map<string, string>, size: int, totalSize: int)
      returns (error: Option<Fault>)
      modifies connection
      ensures var e := old(SuccessReport(Env(), txId, headers, size, totalSize));
              && error == (if e.Raised? then Some(e.fault) else None)
              && (connection != null ==> Forwarded(connection, failureReportOption, if e.Emitted? then e.frames else []))
      ensures connection != null ==> connection.terminated == old(connection.terminated)
    {
      error := None;
      if HEADER_SUCCESS_REPORT in headers && EqualsIgnoreCase(headers[HEADER_SUCCESS_REPORT], "yes") {
        error := SendMsrpReportRequest(txId, headers, size, totalSize);
      } else if connection != null {
        assert Taken(connection, failureReportOption) == old(Taken(connection, failureReportOption)) + [];
      }
    }

    /** A call on the listener, a NullPointerException when none is set. */
    method NotifyListener(e: Event) returns (error: Option<Fault>)
      modifies listener
      ensures error.Some? <==> listener == null
      ensures error.Some? ==> error == Some(NullReference)
      ensures listener != null ==> listener.events == old(listener.events) + [e]
    {
      if listener == null {
        return Some(NullReference);
      }
      listener.Notify(e);
      return None;
    }
  }
}
