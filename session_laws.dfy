/** What the traces of an MsrpSession add up to: the byte ranges of a transfer, the frames and
    notifications of a transfer nobody interrupts, what a cancelled or failed transfer leaves
    out, and the reassembly of a chunked message on the receiving side. */
module MsrpSessionLaws {
  import opened Wire
  import opened MsrpFrames
  import opened MsrpTransfer

  // ---------------------------------------------------------------------------
  // Byte ranges

  /** The data of a plan's chunks, in order. */
  function PlanData(p: seq<ChunkPlan>): (ds: seq<Bytes>)
    ensures |ds| == |p|
  {
    seq(|p|, k requires 0 <= k < |p| => p[k].data)
  }

  lemma FlattenCons(chunks: seq<Bytes>)
    requires chunks != []
    ensures Flatten(chunks) == chunks[0] + Flatten(chunks[1..])
  {
    assert chunks == [chunks[0]] + chunks[1..];
    FlattenAppend([chunks[0]], chunks[1..]);
  }

  /** Chunk k of the plan from read j is chunk number j+k: it carries read j+k, and its range
      starts one past the bytes of the reads before it and ends at the last byte of its own
      data. */
  lemma {:induction false} PlanChunk(input: seq<Bytes>, j: nat, firstByte: int, k: nat)
    requires j + k < |input|
    ensures Plan(input, j, firstByte)[k] ==
              ChunkPlan(j + k, input[j + k], firstByte + |Flatten(input[j..j + k])|,
                        firstByte - 1 + |Flatten(input[j..j + k + 1])|)
    decreases k
  {
    var rest := Plan(input, j + 1, firstByte + |input[j]|);
    assert Plan(input, j, firstByte) == [ChunkPlan(j, input[j], firstByte, firstByte - 1 + |input[j]|)] + rest;
    FlattenCons(input[j..j + k + 1]);
    assert input[j..j + k + 1][1..] == input[j + 1..j + k + 1];
    if k == 0 {
      assert input[j..j] == [];
    } else {
      PlanChunk(input, j + 1, firstByte + |input[j]|, k - 1);
      FlattenCons(input[j..j + k]);
      assert input[j..j + k][1..] == input[j + 1..j + k];
    }
  }

  /** The plan of a whole transfer: byte 1 first, each range right after the previous one,
      the data of the reads in order, and the last range ending with the last byte read. */
  lemma PlanContiguous(input: seq<Bytes>)
    ensures var p := Plan(input, 0, 1);
            && PlanData(p) == input
            && (p != [] ==> p[0].firstByte == 1 && p[|p| - 1].lastByte == |Flatten(input)|)
            && forall k :: 0 <= k < |p| - 1 ==> p[k + 1].firstByte == p[k].lastByte + 1
  {
    PlanCarriesInput(input);
    PlanEnds(input);
    PlanAdjacent(input);
  }

  lemma PlanCarriesInput(input: seq<Bytes>)
    ensures PlanData(Plan(input, 0, 1)) == input
  {
    var p := Plan(input, 0, 1);
    forall k | 0 <= k < |p| ensures PlanData(p)[k] == input[k] {
      PlanChunk(input, 0, 1, k);
    }
  }

  lemma PlanEnds(input: seq<Bytes>)
    ensures var p := Plan(input, 0, 1);
            p != [] ==> p[0].firstByte == 1 && p[|p| - 1].lastByte == |Flatten(input)|
  {
    var p := Plan(input, 0, 1);
    if p != [] {
      PlanChunk(input, 0, 1, 0);
      PlanChunk(input, 0, 1, |p| - 1);
      assert input[0..0] == [] && input[0..|p|] == input;
    }
  }

  lemma PlanAdjacent(input: seq<Bytes>)
    ensures var p := Plan(input, 0, 1);
            forall k :: 0 <= k < |p| - 1 ==> p[k + 1].firstByte == p[k].lastByte + 1
  {
    var p := Plan(input, 0, 1);
    forall k | 0 <= k < |p| - 1 ensures p[k + 1].firstByte == p[k].lastByte + 1 {
      PlanChunk(input, 0, 1, k);
      PlanChunk(input, 0, 1, k + 1);
    }
  }

  lemma {:induction false} FlattenLonger(chunks: seq<Bytes>, k: nat)
    requires k < |chunks| && forall i :: 0 <= i < |chunks| ==> chunks[i] != []
    ensures |Flatten(chunks[..k])| < |Flatten(chunks)|
  {
    assert chunks == chunks[..k] + chunks[k..];
    FlattenAppend(chunks[..k], chunks[k..]);
    FlattenCons(chunks[k..]);
  }

  /** When every read returns some bytes and the announced size is the size of the input,
      only the last chunk's range reaches the total: its SEND request alone closes with '$'. */
  lemma LastChunkFlag(s: SendSetup, input: seq<Bytes>, k: nat)
    requires forall i :: 0 <= i < |input| ==> input[i] != []
    requires s.totalSize == |Flatten(input)| && k < |input|
    ensures ChunkRequest(s, Plan(input, 0, 1)[k]).flag == FLAG_LAST_CHUNK <==> k == |input| - 1
  {
    var c := Plan(input, 0, 1)[k];
    PlanChunk(input, 0, 1, k);
    assert input[0..k + 1] == input[..k + 1];
    if k + 1 < |input| {
      FlattenLonger(input, k + 1);
    } else {
      assert input[..k + 1] == input;
    }
    SendRequestShape(ToHexString(s.random(c.index + 1)), s.headers, s.contentType, c.data, c.firstByte, c.lastByte,
                     s.totalSize, s.failureReport, s.successReport);
  }

  // ---------------------------------------------------------------------------
  // A transfer nobody interrupts

  /** The waits for the responses to n SEND requests. */
  function Waits(s: SendSetup, n: nat): (ws: seq<Signal>)
    ensures |ws| == if s.failureReport then n else 0
    ensures forall w <- ws :: w == WaitResponse
  {
    if s.failureReport then seq(n, _ => WaitResponse) else []
  }

  lemma PlanFramesCons(s: SendSetup, c: ChunkPlan, p: seq<ChunkPlan>)
    ensures PlanFrames(s, [c] + p) == PlanFrames(s, [c]) + PlanFrames(s, p)
  {
    var all := PlanFrames(s, [c] + p);
    assert all[1..] == PlanFrames(s, p);
  }

  lemma PlanProgressCons(s: SendSetup, c: ChunkPlan, p: seq<ChunkPlan>)
    ensures PlanProgress(s, [c] + p) == [TransferProgress(c.lastByte, s.totalSize)] + PlanProgress(s, p)
  {
    var all := PlanProgress(s, [c] + p);
    assert all[1..] == PlanProgress(s, p);
  }

  lemma WaitsCons(s: SendSetup, n: nat)
    ensures Waits(s, n + 1) == (if s.failureReport then [WaitResponse] else []) + Waits(s, n)
  {
  }

  /** The semaphore traffic after the last chunk of a transfer of n reads: the wait for the
      final report when success reports are on, and the notifications of a close() that
      lands after the final cancel check. */
  function Ending(s: SendSetup, closeAt: nat, n: nat): seq<Signal> {
    (if s.successReport then [WaitReport] else [])
    + (if closeAt == 2 * n + 2 then [NotifyResponse, NotifyReport] else [])
  }

  /** When the stream reads to its end, the connection takes every frame, a listener is set
      and no close() comes before the final cancel check: the loop from read j sends the
      SEND request of every remaining chunk of the plan in order, notifies progress after
      each, waits for the responses and the final report as the options ask, and notifies
      completion. A close() that lands after the final check releases the report wait and
      the transfer completes all the same. */
  lemma {:induction false} LoopUndisturbed(s: SendSetup, input: seq<Bytes>, closeAt: nat, j: nat, firstByte: int)
    requires j <= |input|
    requires s.writable && s.listening && 2 * |input| + 1 < closeAt
    ensures var t := ChunkLoop(s, input, false, closeAt, j, firstByte);
            var p := Plan(input, j, firstByte);
            && t.outcome == Completed
            && t.effects == Effects(PlanFrames(s, p), PlanProgress(s, p) + [DataTransfered],
                                    Waits(s, |p|) + Ending(s, closeAt, |input|), closeAt == 2 * |input| + 2)
    decreases |input| - j
  {
    var p := Plan(input, j, firstByte);
    if j == |input| {
      assert PlanFrames(s, p) == [] && PlanProgress(s, p) == [] && Waits(s, 0) == [];
      UndisturbedEnd(s, input, closeAt, firstByte);
    } else {
      var c := ChunkPlan(j, input[j], firstByte, firstByte - 1 + |input[j]|);
      var rest := Plan(input, j + 1, firstByte + |input[j]|);
      assert p == [c] + rest;
      LoopUndisturbed(s, input, closeAt, j + 1, firstByte + |input[j]|);
      UndisturbedRound(s, input, closeAt, j, firstByte);
      UndisturbedCons(s, c, rest, ChunkLoop(s, input, false, closeAt, j + 1, firstByte + |input[j]|).effects,
                      Ending(s, closeAt, |input|), closeAt == 2 * |input| + 2);
    }
  }

  /** The end of an undisturbed run: the final report's wait, a close() that lands during it,
      and the completion. */
  lemma UndisturbedEnd(s: SendSetup, input: seq<Bytes>, closeAt: nat, firstByte: int)
    requires s.listening && 2 * |input| + 1 < closeAt
    ensures ChunkLoop(s, input, false, closeAt, |input|, firstByte)
            == Trace(Effects([], [DataTransfered], Ending(s, closeAt, |input|), closeAt == 2 * |input| + 2),
                     Completed)
  {
  }

  /** An undisturbed iteration sends its chunk, waits for the response as the options ask,
      notifies its progress, and goes on to the next read. */
  lemma UndisturbedRound(s: SendSetup, input: seq<Bytes>, closeAt: nat, j: nat, firstByte: int)
    requires j < |input| && s.writable && s.listening && 2 * |input| + 1 < closeAt
    ensures var c := ChunkPlan(j, input[j], firstByte, firstByte - 1 + |input[j]|);
            ChunkRound(s, input, false, closeAt, j, firstByte)
            == Continue(Effects(PlanFrames(s, [c]), [TransferProgress(c.lastByte, s.totalSize)],
                                if s.failureReport then [WaitResponse] else [], false))
  {
  }

  /** One more chunk in front of an undisturbed run: its frame, its progress and its wait. */
  lemma UndisturbedCons(s: SendSetup, c: ChunkPlan, rest: seq<ChunkPlan>, tail: Effects, after: seq<Signal>,
                        closed: bool)
    requires tail == Effects(PlanFrames(s, rest), PlanProgress(s, rest) + [DataTransfered],
                             Waits(s, |rest|) + after, closed)
    ensures Then(Effects(PlanFrames(s, [c]), [TransferProgress(c.lastByte, s.totalSize)],
                         if s.failureReport then [WaitResponse] else [], false), tail)
            == Effects(PlanFrames(s, [c] + rest), PlanProgress(s, [c] + rest) + [DataTransfered],
                       Waits(s, |[c] + rest|) + after, closed)
  {
    PlanFramesCons(s, c, rest);
    PlanProgressCons(s, c, rest);
    WaitsCons(s, |rest|);
    SeqAssoc([TransferProgress(c.lastByte, s.totalSize)], PlanProgress(s, rest), [DataTransfered]);
    SeqAssoc(if s.failureReport then [WaitResponse] else [], Waits(s, |rest|), after);
  }

  // ---------------------------------------------------------------------------
  // How a transfer ends

  /** A transfer completes exactly when the stream reads to its end, no close() comes before
      the final check, a listener is set, and the connection takes the chunks, if any remain. */
  lemma {:induction false} LoopCompletes(s: SendSetup, input: seq<Bytes>, readFails: bool, closeAt: nat,
                                         j: nat, firstByte: int)
    requires j <= |input|
    ensures ChunkLoop(s, input, readFails, closeAt, j, firstByte).outcome == Completed <==>
              !readFails && 2 * |input| + 1 < closeAt && s.listening && (j == |input| || s.writable)
    decreases |input| - j
  {
    if j < |input| {
      LoopCompletes(s, input, readFails, closeAt, j + 1, firstByte + |input[j]|);
    }
  }

  /** The listener calls of a trace: progress against the size total, then, exactly when
      the trace completes, the completion. */
  predicate NotifiesAsDone(t: Trace, totalSize: int) {
    var es := t.effects.events;
    var n := if t.outcome == Completed then 1 else 0;
    && |es| >= n
    && (n == 1 ==> es[|es| - 1] == DataTransfered)
    && forall i :: 0 <= i < |es| - n ==> es[i].TransferProgress? && es[i].totalSize == totalSize
  }

  lemma NotifiesAfterProgress(e: Effects, t: Trace, totalSize: int)
    requires forall i :: 0 <= i < |e.events| ==> e.events[i].TransferProgress? && e.events[i].totalSize == totalSize
    requires NotifiesAsDone(t, totalSize)
    ensures NotifiesAsDone(Before(e, t), totalSize)
  {
    var es := Before(e, t).effects.events;
    assert es == e.events + t.effects.events;
  }

  /** The loop's listener calls from iteration j on. */
  lemma {:induction false} LoopNotifications(s: SendSetup, input: seq<Bytes>, readFails: bool, closeAt: nat,
                                             j: nat, firstByte: int)
    requires j <= |input|
    ensures NotifiesAsDone(ChunkLoop(s, input, readFails, closeAt, j, firstByte), s.totalSize)
    decreases |input| - j
  {
    match ChunkRound(s, input, readFails, closeAt, j, firstByte)
    case Stop(u) =>
    case Exit(e) =>
      NotifiesAfterProgress(e, Finish(s, closeAt, 2 * j + 1), s.totalSize);
    case Continue(e) =>
      var rest := ChunkLoop(s, input, readFails, closeAt, j + 1, firstByte + |input[j]|);
      LoopNotifications(s, input, readFails, closeAt, j + 1, firstByte + |input[j]|);
      NotifiesAfterProgress(e, rest, s.totalSize);
  }

  /** What the shape of the listener calls means: completion is notified exactly when the
      trace completes, and then as the last call; every other call reports progress against
      the size total. */
  lemma NotifiesMeaning(t: Trace, totalSize: int)
    requires NotifiesAsDone(t, totalSize)
    ensures DataTransfered in t.effects.events <==> t.outcome == Completed
    ensures t.outcome == Completed ==> t.effects.events[|t.effects.events| - 1] == DataTransfered
    ensures forall e <- t.effects.events :: e == DataTransfered || (e.TransferProgress? && e.totalSize == totalSize)
  {
    var es := t.effects.events;
    forall e | e in es ensures e == DataTransfered || (e.TransferProgress? && e.totalSize == totalSize) {
      var i :| 0 <= i < |es| && es[i] == e;
    }
  }

  /** A completed transfer saw a close() only when it landed after the final cancel check,
      during the wait for the final report; a cancelled one was closed while it ran (or before
      iteration j, when it is looked at from there). */
  lemma {:induction false} LoopClosed(s: SendSetup, input: seq<Bytes>, readFails: bool, closeAt: nat,
                                      j: nat, firstByte: int)
    requires j <= |input|
    ensures var t := ChunkLoop(s, input, readFails, closeAt, j, firstByte);
            && (t.outcome == Completed ==> (t.effects.closed <==> closeAt == 2 * |input| + 2))
            && (t.outcome == Cancelled ==> t.effects.closed || closeAt < 2 * j)
    decreases |input| - j
  {
    if j < |input| {
      LoopClosed(s, input, readFails, closeAt, j + 1, firstByte + |input[j]|);
    }
  }

  /** The frames are those of the first chunks of the plan p, in order. */
  predicate SentPrefix(s: SendSetup, frames: seq<Bytes>, p: seq<ChunkPlan>) {
    |frames| <= |p| && frames == PlanFrames(s, p[..|frames|])
  }

  lemma SentPrefixCons(s: SendSetup, c: ChunkPlan, rest: seq<ChunkPlan>, frames: seq<Bytes>)
    requires SentPrefix(s, frames, rest)
    ensures SentPrefix(s, PlanFrames(s, [c]) + frames, [c] + rest)
  {
    var n := |frames|;
    assert ([c] + rest)[..n + 1] == [c] + rest[..n];
    PlanFramesCons(s, c, rest[..n]);
  }

  /** Whatever stops it, the frames a transfer sends from iteration j on are the first frames
      of its plan, in order: a cancelled or failed transfer leaves out a tail of the plan,
      never a chunk in between. */
  lemma {:induction false} LoopFramesSent(s: SendSetup, input: seq<Bytes>, readFails: bool, closeAt: nat,
                                          j: nat, firstByte: int)
    requires j <= |input|
    ensures SentPrefix(s, ChunkLoop(s, input, readFails, closeAt, j, firstByte).effects.frames,
                       Plan(input, j, firstByte))
    decreases |input| - j
  {
    var t := ChunkLoop(s, input, readFails, closeAt, j, firstByte);
    var p := Plan(input, j, firstByte);
    if j == |input| {
      assert t.effects.frames == [];
    } else {
      var c := ChunkPlan(j, input[j], firstByte, firstByte - 1 + |input[j]|);
      var rest := Plan(input, j + 1, firstByte + |input[j]|);
      assert p == [c] + rest;
      match ChunkRound(s, input, readFails, closeAt, j, firstByte)
      case Stop(u) =>
        assert t == u;
        if u.effects.frames != [] {
          assert u.effects.frames == PlanFrames(s, [c]);
          assert p[..1] == [c];
        } else {
          assert p[..0] == [];
        }
      case Exit(e) =>
        assert t.effects.frames == [];
        assert p[..0] == [];
      case Continue(e) =>
        LoopFramesSent(s, input, readFails, closeAt, j + 1, firstByte + |input[j]|);
        assert SentPrefix(s, ChunkLoop(s, input, readFails, closeAt, j + 1, firstByte + |input[j]|).effects.frames,
                          Plan(input, j + 1, firstByte + |input[j]|));
        assert e.frames == PlanFrames(s, [c]);
        SentPrefixCons(s, c, Plan(input, j + 1, firstByte + |input[j]|),
                       ChunkLoop(s, input, readFails, closeAt, j + 1, firstByte + |input[j]|).effects.frames);
    }
  }

  // ---------------------------------------------------------------------------
  // What the peer reads

  /** The table's headers and the content type fit on a header line. */
  predicate SetupSafe(s: SendSetup) {
    LineSafe(s.contentType) && forall h <- s.headers :: NameSafe(h.0) && LineSafe(h.1)
  }

  /** The chunk does not hold the end-line of the transaction its SEND request goes out
      under, the random identifier sendChunks draws for it. */
  predicate ChunkDelimited(s: SendSetup, c: ChunkPlan) {
    EndLineFree(c.data, Utf8(ToHexString(s.random(c.index + 1))))
  }

  /** The SEND request of a planned chunk reads back, from the connection's stream, as
      itself exactly when its chunk does not hold the end-line of its transaction. */
  lemma ChunkRequestReadsBack(s: SendSetup, c: ChunkPlan)
    requires SetupSafe(s)
    ensures Read(Layout(ChunkRequest(s, c))) == Some(ChunkRequest(s, c)) <==> ChunkDelimited(s, c)
  {
    SendRequestFrameReadsBack(ChunkRequest(s, c), ToHexString(s.random(c.index + 1)), s.headers, s.contentType,
                              c.data, c.firstByte, c.lastByte, s.totalSize, s.failureReport, s.successReport);
  }

  lemma ChunkFrameReadsBack(s: SendSetup, p: seq<ChunkPlan>, k: nat)
    requires k < |p| && SetupSafe(s) && ChunkDelimited(s, p[k])
    ensures Read(PlanFrames(s, p)[k]) == Some(ChunkRequest(s, p[k]))
  {
    ChunkRequestReadsBack(s, p[k]);
  }

  /** The body of a frame as a reader of the stream recovers it: nothing for bytes that do
      not read as a frame, or for a frame without a body. */
  function BodyOf(bytes: Bytes): Bytes {
    match Read(bytes)
    case Some(fr) => if fr.body.Some? then fr.body.value else []
    case None => []
  }

  function Bodies(frames: seq<Bytes>): (bs: seq<Bytes>)
    ensures |bs| == |frames|
  {
    seq(|frames|, k requires 0 <= k < |frames| => BodyOf(frames[k]))
  }

  /** Read back, the frames of a plan carry the data of its chunks, when no chunk holds the
      end-line of its own transaction. */
  lemma PlanBodies(s: SendSetup, p: seq<ChunkPlan>)
    requires SetupSafe(s) && forall k :: 0 <= k < |p| ==> ChunkDelimited(s, p[k])
    ensures Bodies(PlanFrames(s, p)) == PlanData(p)
  {
    forall k | 0 <= k < |p| ensures Bodies(PlanFrames(s, p))[k] == PlanData(p)[k] {
      ChunkFrameReadsBack(s, p, k);
    }
  }

  /** Chunk k of a plan goes out under the (k+2)-th random value. */
  lemma PlanDelimited(s: SendSetup, input: seq<Bytes>)
    requires forall k :: 0 <= k < |input| ==> EndLineFree(input[k], Utf8(ToHexString(s.random(k + 1))))
    ensures var p := Plan(input, 0, 1);
            forall k :: 0 <= k < |p| ==> ChunkDelimited(s, p[k])
  {
    var p := Plan(input, 0, 1);
    forall k | 0 <= k < |p| ensures ChunkDelimited(s, p[k]) {
      PlanChunk(input, 0, 1, k);
    }
  }

  /** The headers sendChunks puts in its table fit on a header line when both paths do. */
  lemma CommonHeadersSafe(order: KeyOrder, from: string, to: string, messageId: string)
    requires LineSafe(from) && LineSafe(to) && IsHexToken(messageId)
    ensures forall h <- CommonHeaders(order, from, to, messageId) :: NameSafe(h.0) && LineSafe(h.1)
  {
    ConstantNames();
  }

  /** The progress notifications of a transfer of input that nothing interrupts: after
      chunk k, the bytes of the first k+1 reads, out of the announced size. */
  function ProgressOf(input: seq<Bytes>, totalSize: int): (es: seq<Event>)
    ensures |es| == |input|
  {
    seq(|input|, k requires 0 <= k < |input| => TransferProgress(|Flatten(input[..k + 1])|, totalSize))
  }

  lemma PlanProgressOf(s: SendSetup, input: seq<Bytes>)
    ensures PlanProgress(s, Plan(input, 0, 1)) == ProgressOf(input, s.totalSize)
  {
    var p := Plan(input, 0, 1);
    forall k | 0 <= k < |input| ensures PlanProgress(s, p)[k] == ProgressOf(input, s.totalSize)[k] {
      PlanChunk(input, 0, 1, k);
      assert input[0..k + 1] == input[..k + 1];
    }
  }

  /** sendChunks from start to end, when both paths and a connection are set, the stream
      reads to its end, the connection takes every frame, a listener is set and no close()
      comes before the final cancel check: it completes, one SEND request per read goes out,
      and, when no chunk holds the end-line of the transaction drawn for it, their bodies read
      back from the stream are the reads in order, and so laid end to end they are the
      content; the listener hears the progress of each chunk and then the completion. */
  lemma SendChunksDelivers(from: string, to: string, order: KeyOrder, contentType: string, totalSize: int,
                           random: nat -> int32, failureReport: bool, successReport: bool,
                           input: seq<Bytes>, closeAt: nat)
    requires LineSafe(from) && LineSafe(to) && LineSafe(contentType)
    requires forall k :: 0 <= k < |input| ==> EndLineFree(input[k], Utf8(ToHexString(random(k + 1))))
    requires 2 * |input| + 1 < closeAt
    ensures var t := SendChunksTrace(Some(from), Some(to), true, order, contentType, totalSize, random,
                                     failureReport, successReport, true, true, input, false, closeAt);
            && t.outcome == Completed
            && |t.effects.frames| == |input|
            && Bodies(t.effects.frames) == input
            && Flatten(Bodies(t.effects.frames)) == Flatten(input)
            && t.effects.events == ProgressOf(input, totalSize) + [DataTransfered]
  {
    var headers := CommonHeaders(order, from, to, ToHexString(random(0)));
    var s := SendSetup(headers, contentType, totalSize, random, failureReport, successReport, true, true);
    var p := Plan(input, 0, 1);
    LoopUndisturbed(s, input, closeAt, 0, 1);
    CommonHeadersSafe(order, from, to, ToHexString(random(0)));
    PlanDelimited(s, input);
    PlanBodies(s, p);
    PlanContiguous(input);
    PlanProgressOf(s, input);
  }

  /** sendChunks checks, in order, that the From path is set, then the To path, then the
      connection, and sends nothing when one is missing. */
  lemma SendChunksChecks(from: Option<string>, to: Option<string>, connected: bool, order: KeyOrder,
                         contentType: string, totalSize: int, random: nat -> int32,
                         failureReport: bool, successReport: bool, writable: bool, listening: bool,
                         input: seq<Bytes>, readFails: bool, closeAt: nat)
    ensures var t := SendChunksTrace(from, to, connected, order, contentType, totalSize, random, failureReport,
                                     successReport, writable, listening, input, readFails, closeAt);
            && (from.None? ==> t == Trace(NoEffects, Failed(FromNotSet)))
            && (from.Some? && to.None? ==> t == Trace(NoEffects, Failed(ToNotSet)))
            && (from.Some? && to.Some? && !connected ==> t == Trace(NoEffects, Failed(NoConnection)))
            && (t.outcome.Failed? && t.outcome.fault in {FromNotSet, ToNotSet, NoConnection} ==> t.effects == NoEffects)
  {
    if from.Some? && to.Some? && connected {
      var headers := CommonHeaders(order, from.value, to.value, ToHexString(random(0)));
      var s := SendSetup(headers, contentType, totalSize, random, failureReport, successReport, writable, listening);
      LoopFaults(s, input, readFails, closeAt, 0, 1);
    }
  }

  /** The loop fails only with a read, write or null-reference fault. */
  lemma {:induction false} LoopFaults(s: SendSetup, input: seq<Bytes>, readFails: bool, closeAt: nat,
                                      j: nat, firstByte: int)
    requires j <= |input|
    ensures var t := ChunkLoop(s, input, readFails, closeAt, j, firstByte);
            t.outcome.Failed? ==> t.outcome.fault in {ReadFailed, WriteFailed, NullReference}
    decreases |input| - j
  {
    if j < |input| {
      LoopFaults(s, input, readFails, closeAt, j + 1, firstByte + |input[j]|);
    }
  }

  // ---------------------------------------------------------------------------
  // Receiving

  /** The session has a connection that takes frames and a listener. */
  predicate Ready(env: ReceiverEnv) {
    env.connected && env.writable && env.listening
  }

  /** The request carries the headers the response and the report copy. */
  predicate Answerable(headers: map<string, string>) {
    HEADER_TO_PATH in headers && HEADER_FROM_PATH in headers && HEADER_BYTE_RANGE in headers
    && HEADER_MESSAGE_ID in headers
  }

  /** One SEND request received by a ready session, as for the buffer and the listener: the
      chunk is kept unless the buffer would outgrow a Java array, which raises and leaves the
      buffer as it was; a last chunk empties the buffer and hands its whole content to the
      listener; an aborted chunk keeps the buffer; any other chunk reports the bytes received
      so far. */
  lemma OnSendBuffer(env: ReceiverEnv, cache: Bytes, txId: string, headers: map<string, string>,
                     flag: int, data: Bytes, totalSize: int)
    requires Ready(env) && Answerable(headers)
    ensures var r := OnSend(env, cache, txId, headers, flag, data, totalSize);
            var fits := |cache| + |data| <= MAX_INT;
            && (r.error == None <==> fits)
            && (!fits ==> r.error == Some(OutOfMemory) && r.cache == cache && r.events == [])
            && (fits && flag == FLAG_LAST_CHUNK as int ==>
                  r.cache == [] && r.events == [DataReceived(cache + data, ContentTypeOf(headers))])
            && (fits && flag == FLAG_ABORT as int ==> r.cache == cache + data && r.events == [TransferAborted])
            && (fits && flag == FLAG_MORE_CHUNK as int ==>
                  r.cache == cache + data && r.events == [TransferProgress(|cache| + |data|, totalSize)])
  {
  }

  /** A ready session answers a SEND request that carries the headers with the 200 response,
      unless the request says "Failure-Report: no". */
  lemma AnswerSent(env: ReceiverEnv, txId: string, headers: map<string, string>)
    requires Ready(env) && Answerable(headers)
    ensures Answer(env, txId, headers) ==
              Emitted(if HeaderIs(headers, HEADER_FAILURE_REPORT, "no") then []
                      else OnWire([Response(RESPONSE_OK_LINE, txId, headers).value]))
  {
  }

  /** Once the chunk is stored by a ready session, the only frame sent is the REPORT of the
      whole content, after a last chunk that fits and asks for "Success-Report: yes". */
  lemma StoreSent(env: ReceiverEnv, cache: Bytes, txId: string, headers: map<string, string>,
                  flag: int, data: Bytes, totalSize: int)
    requires Ready(env) && Answerable(headers)
    ensures Store(env, cache, txId, headers, flag, data, totalSize).frames ==
              if |cache| + |data| <= MAX_INT && flag == FLAG_LAST_CHUNK as int
                 && HeaderIs(headers, HEADER_SUCCESS_REPORT, "yes")
              then OnWire([ReportRequest(txId, headers, |cache| + |data|, totalSize).value])
              else []
  {
  }

  /** One SEND request received by a ready session, as for the frames it sends back: the 200
      response first, unless the request says "Failure-Report: no", then, after a last chunk
      that fits, a REPORT of the whole content exactly when the request says
      "Success-Report: yes". */
  lemma OnSendAnswer(env: ReceiverEnv, cache: Bytes, txId: string, headers: map<string, string>,
                     flag: int, data: Bytes, totalSize: int)
    requires Ready(env) && Answerable(headers)
    ensures var r := OnSend(env, cache, txId, headers, flag, data, totalSize);
            var answered := !HeaderIs(headers, HEADER_FAILURE_REPORT, "no");
            var reported := |cache| + |data| <= MAX_INT && flag == FLAG_LAST_CHUNK as int
                            && HeaderIs(headers, HEADER_SUCCESS_REPORT, "yes");
            r.frames == (if answered then OnWire([Response(RESPONSE_OK_LINE, txId, headers).value]) else [])
                        + (if reported then OnWire([ReportRequest(txId, headers, |cache| + |data|, totalSize).value])
                           else [])
  {
    AnswerSent(env, txId, headers);
    StoreSent(env, cache, txId, headers, flag, data, totalSize);
  }

  /** The data of received requests, in order. */
  function Datas(sends: seq<Send>): (ds: seq<Bytes>)
    ensures |ds| == |sends|
  {
    seq(|sends|, k requires 0 <= k < |sends| => sends[k].data)
  }

  /** Requests that each carry the headers and announce more chunks to come. */
  predicate MoreChunks(sends: seq<Send>) {
    forall k :: 0 <= k < |sends| ==> sends[k].flag == FLAG_MORE_CHUNK as int && Answerable(sends[k].headers)
  }

  /** The progress reports for the chunks ds received on top of cache. */
  function Progresses(cache: Bytes, ds: seq<Bytes>, totalSize: int): (es: seq<Event>)
    ensures |es| == |ds|
  {
    seq(|ds|, k requires 0 <= k < |ds| => TransferProgress(|cache| + |Flatten(ds[..k + 1])|, totalSize))
  }

  lemma ProgressesCons(cache: Bytes, ds: seq<Bytes>, totalSize: int)
    requires ds != []
    ensures Progresses(cache, ds, totalSize) ==
              [TransferProgress(|cache| + |ds[0]|, totalSize)] + Progresses(cache + ds[0], ds[1..], totalSize)
  {
    var all := Progresses(cache, ds, totalSize);
    var rest := Progresses(cache + ds[0], ds[1..], totalSize);
    forall k | 1 <= k < |ds| ensures all[k] == rest[k - 1] {
      FlattenCons(ds[..k + 1]);
      assert ds[..k + 1][1..] == ds[1..][..k];
    }
    assert ds[..1] == [ds[0]];
  }

  /** Chunks that announce more to come pile up in the buffer, and each reports the bytes
      received so far. */
  lemma {:induction false} MoreChunksAccumulate(env: ReceiverEnv, cache: Bytes, sends: seq<Send>, totalSize: int)
    requires Ready(env) && MoreChunks(sends)
    requires |cache| + |Flatten(Datas(sends))| <= MAX_INT
    ensures var r := OnSends(env, cache, sends, totalSize);
            && r.error == None
            && r.cache == cache + Flatten(Datas(sends))
            && r.events == Progresses(cache, Datas(sends), totalSize)
    decreases |sends|
  {
    var ds := Datas(sends);
    if sends == [] {
      assert ds == [];
    } else {
      FlattenCons(ds);
      assert Datas(sends[1..]) == ds[1..];
      var r0 := OnSend(env, cache, sends[0].txId, sends[0].headers, sends[0].flag, sends[0].data, totalSize);
      OnSendBuffer(env, cache, sends[0].txId, sends[0].headers, sends[0].flag, sends[0].data, totalSize);
      assert r0.cache == cache + ds[0] && r0.events == [TransferProgress(|cache| + |ds[0]|, totalSize)]
             && r0.error == None;
      var rest := OnSends(env, cache + ds[0], sends[1..], totalSize);
      MoreChunksAccumulate(env, cache + ds[0], sends[1..], totalSize);
      ProgressesCons(cache, ds, totalSize);
      SeqAssoc(cache, ds[0], Flatten(ds[1..]));
      assert OnSends(env, cache, sends, totalSize) ==
               Reception(rest.cache, r0.frames + rest.frames, r0.events + rest.events, rest.error);
    }
  }

  /** Successive receptions, the first leaving no error, add up. */
  lemma {:induction false} OnSendsAppend(env: ReceiverEnv, cache: Bytes, a: seq<Send>, b: seq<Send>, totalSize: int)
    requires OnSends(env, cache, a, totalSize).error == None
    ensures var ra := OnSends(env, cache, a, totalSize);
            var rb := OnSends(env, ra.cache, b, totalSize);
            OnSends(env, cache, a + b, totalSize) == Reception(rb.cache, ra.frames + rb.frames, ra.events + rb.events, rb.error)
    decreases |a|
  {
    if a == [] {
      assert a + b == b;
    } else {
      assert (a + b)[0] == a[0] && (a + b)[1..] == a[1..] + b;
      var r0 := OnSend(env, cache, a[0].txId, a[0].headers, a[0].flag, a[0].data, totalSize);
      OnSendsAppend(env, r0.cache, a[1..], b, totalSize);
      var ra := OnSends(env, r0.cache, a[1..], totalSize);
      var rb := OnSends(env, ra.cache, b, totalSize);
      SeqAssoc(r0.frames, ra.frames, rb.frames);
      SeqAssoc(r0.events, ra.events, rb.events);
    }
  }

  /** A message sent in chunks that announce more to come, then a last chunk, reaches the
      listener whole: the chunks laid end to end, after a progress report for each chunk but
      the last; the buffer is empty again. */
  lemma Reassembly(env: ReceiverEnv, sends: seq<Send>, last: Send, totalSize: int)
    requires Ready(env) && MoreChunks(sends)
    requires last.flag == FLAG_LAST_CHUNK as int && Answerable(last.headers)
    requires |Flatten(Datas(sends + [last]))| <= MAX_INT
    ensures var r := OnSends(env, [], sends + [last], totalSize);
            && r.error == None
            && r.cache == []
            && r.events == Progresses([], Datas(sends), totalSize)
                           + [DataReceived(Flatten(Datas(sends + [last])), ContentTypeOf(last.headers))]
  {
    var ds := Datas(sends + [last]);
    assert ds[..|sends|] == Datas(sends);
    FlattenSnoc(ds, |sends|);
    assert ds[..|sends| + 1] == ds;
    MoreChunksAccumulate(env, [], sends, totalSize);
    var ra := OnSends(env, [], sends, totalSize);
    assert ra.cache == Flatten(Datas(sends));
    OnSendsAppend(env, [], sends, [last], totalSize);
    var rl := OnSend(env, ra.cache, last.txId, last.headers, last.flag, last.data, totalSize);
    OnSendBuffer(env, ra.cache, last.txId, last.headers, last.flag, last.data, totalSize);
    assert rl.error == None && rl.cache == [] && rl.events == [DataReceived(Flatten(ds), ContentTypeOf(last.headers))];
    assert [last][1..] == [];
    var rb := OnSends(env, ra.cache, [last], totalSize);
    assert rb == Reception([], rl.frames + [], rl.events + [], None);
    assert rl.events + [] == rl.events;
  }
}

