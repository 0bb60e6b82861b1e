/** The outbound writer of an MSRP connection: frames go either onto a FIFO queue that a
    background loop drains into the TCP output stream, or straight into the stream. */
module MsrpChunkSender {
  import opened Wire

  /** The MsrpConnection a sender belongs to, by identity. */
  type ConnectionId = nat

  /** How one run of the drain loop ends. */
  datatype RunEnd =
    | Drained          // the buffer handed back null: queue empty and the sender terminated
    | Waiting          // queue empty, not terminated: the thread blocks in getMessage
    | WriteError(afterTerminate: bool)  // the stream threw; logged as termination or as a failure

  class ChunkSender {
    const connection: ConnectionId
    /** The chunks written to the output stream, in order, each whole. */
    var stream: seq<Bytes>
    /** Whether the output stream still accepts writes. */
    var streamOpen: bool
    /** The FifoBuffer of chunks waiting to be written, head first. */
    var buffer: seq<Bytes>
    var terminated: bool

    constructor(connection: ConnectionId, streamOpen: bool)
      ensures this.connection == connection && this.streamOpen == streamOpen
      ensures stream == [] && buffer == [] && !terminated
    {
      this.connection := connection;
      this.streamOpen := streamOpen;
      stream := [];
      buffer := [];
      terminated := false;
    }

    /** getConnection: the connection given at construction. */
    method GetConnection() returns (c: ConnectionId)
      ensures c == connection
    {
      c := connection;
    }

    /** terminate: sets the flag that ends the drain loop once the queue is empty. */
    method Terminate()
      modifies this
      ensures terminated
      ensures stream == old(stream) && buffer == old(buffer) && streamOpen == old(streamOpen)
    {
      terminated := true;
    }

    /** sendChunk: queued when the session asks for failure reports, otherwise written at
        once, which fails (an IOException, ok false) on a stream that no longer accepts writes. */
    method SendChunk(chunk: Bytes, failureReportRequested: bool) returns (ok: bool)
      modifies this
      ensures failureReportRequested ==> ok && buffer == old(buffer) + [chunk] && stream == old(stream)
      ensures !failureReportRequested ==> ok == old(streamOpen) && buffer == old(buffer)
      ensures !failureReportRequested && ok ==> stream == old(stream) + [chunk]
      ensures !failureReportRequested && !ok ==> stream == old(stream)
      ensures terminated == old(terminated) && streamOpen == old(streamOpen)
    {
      if failureReportRequested {
        buffer := buffer + [chunk];
        ok := true;
      } else if streamOpen {
        stream := stream + [chunk];
        ok := true;
      } else {
        ok := false;
      }
    }

    /** run: writes the queued chunks to the stream in FIFO order until the queue is empty.
        A write that throws ends the loop with the chunk it had taken lost. */
    method Run() returns (end: RunEnd)
      modifies this
      ensures old(streamOpen) ==> stream == old(stream) + old(buffer) && buffer == []
      ensures old(streamOpen) ==> end == (if terminated then Drained else Waiting)
      ensures !old(streamOpen) && old(buffer) != [] ==>
                stream == old(stream) && buffer == old(buffer)[1..] && end == WriteError(terminated)
      ensures !old(streamOpen) && old(buffer) == [] ==>
                stream == old(stream) && buffer == [] && end == (if terminated then Drained else Waiting)
      ensures terminated == old(terminated) && streamOpen == old(streamOpen)
    {
      ghost var queued := buffer;
      ghost var k := 0;
      while buffer != []
        invariant 0 <= k <= |queued|
        invariant buffer == queued[k..]
        invariant stream == old(stream) + queued[..k]
        invariant !streamOpen ==> k == 0
        invariant terminated == old(terminated) && streamOpen == old(streamOpen)
        decreases |buffer|
      {
        var chunk := buffer[0];
        buffer := buffer[1..];
        if !streamOpen {
          return WriteError(terminated);
        }
        stream := stream + [chunk];
        k := k + 1;
        assert queued[..k] == queued[..k - 1] + [chunk];
      }
      assert queued[..k] == queued;
      end := if terminated then Drained else Waiting;
    }
  }

  /** Frames queued one after another on a fresh sender over an open stream reach the stream
      whole and in the order they were sent, once the drain loop has run. */
  method QueueThenDrain(chunks: seq<Bytes>) returns (written: seq<Bytes>, end: RunEnd)
    ensures written == chunks && end == Waiting
  {
    var sender := new ChunkSender(0, true);
    var j := 0;
    while j < |chunks|
      invariant 0 <= j <= |chunks|
      invariant sender.buffer == chunks[..j] && sender.stream == []
      invariant sender.streamOpen && !sender.terminated
    {
      var ok := sender.SendChunk(chunks[j], true);
      assert chunks[..j + 1] == chunks[..j] + [chunks[j]];
      j := j + 1;
    }
    assert chunks[..j] == chunks;
    end := sender.Run();
    written := sender.stream;
  }
}
