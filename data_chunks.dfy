/** The inbound reassembly buffer: the chunks of one message accumulated in a
    ByteArrayOutputStream, with a running count of the bytes it holds. */
module MsrpDataChunks {
  import opened Wire

  class DataChunks {
    /** The contents of the ByteArrayOutputStream. */
    var cache: Bytes
    /** The transferred size in bytes, a Java int. */
    var currentSize: int

    /** The counter is the length of the cache, and both fit in an int. */
    ghost predicate Valid()
      reads this
    {
      currentSize == |cache| && |cache| <= MAX_INT
    }

    constructor()
      ensures Valid()
      ensures cache == [] && currentSize == 0
    {
      cache := [];
      currentSize := 0;
    }

    /** addChunk: the chunk goes at the end of the cache and its length onto the counter.
        A cache that would outgrow a Java array raises OutOfMemoryError (ok is false) before
        anything changes. */
    method AddChunk(data: Bytes) returns (ok: bool)
      requires Valid()
      modifies this
      ensures Valid()
      ensures ok <==> |old(cache)| + |data| <= MAX_INT
      ensures ok ==> cache == old(cache) + data && currentSize == old(currentSize) + |data|
      ensures !ok ==> cache == old(cache) && currentSize == old(currentSize)
    {
      if |cache| + |data| > MAX_INT {
        return false;
      }
      cache := cache + data;
      currentSize := currentSize + |data|;
      return true;
    }

    /** getReceivedData: a copy of the cache; nothing changes. */
    method GetReceivedData() returns (r: Bytes)
      requires Valid()
      ensures r == cache && |r| == currentSize
    {
      r := cache;
    }

    /** resetCache */
    method ResetCache()
      modifies this
      ensures Valid()
      ensures cache == [] && currentSize == 0
    {
      cache := [];
      currentSize := 0;
    }

    /** getCurrentSize: the number of bytes received since the last reset. */
    method GetCurrentSize() returns (n: int)
      requires Valid()
      ensures n == |cache| && 0 <= n <= MAX_INT
    {
      n := currentSize;
    }
  }

  lemma {:induction false} FlattenPrefixLength(chunks: seq<Bytes>, j: nat)
    requires j <= |chunks|
    ensures |Flatten(chunks[..j])| <= |Flatten(chunks)|
    decreases |chunks| - j
  {
    if j < |chunks| {
      FlattenSnoc(chunks, j);
      FlattenPrefixLength(chunks, j + 1);
    } else {
      assert chunks[..j] == chunks;
    }
  }

  /** Adds the chunks one after another to a fresh buffer and reads it back: the result is
      the chunks laid end to end, or None when they do not fit in a Java array. */
  method Reassemble(chunks: seq<Bytes>) returns (data: Option<Bytes>)
    ensures |Flatten(chunks)| <= MAX_INT ==> data == Some(Flatten(chunks))
    ensures |Flatten(chunks)| > MAX_INT ==> data == None
  {
    var buffer := new DataChunks();
    var j := 0;
    while j < |chunks|
      invariant 0 <= j <= |chunks|
      invariant buffer.Valid()
      invariant buffer.cache == Flatten(chunks[..j])
    {
      FlattenSnoc(chunks, j);
      var ok := buffer.AddChunk(chunks[j]);
      if !ok {
        FlattenPrefixLength(chunks, j + 1);
        return None;
      }
      j := j + 1;
    }
    assert chunks[..j] == chunks;
    var r := buffer.GetReceivedData();
    return Some(r);
  }
}
