/**
 * AsyncBufferedOutputStream: bytes are copied into a fixed buffer `buf` with a fill counter
 * `count`; a full buffer, or any buffer on `flush`, is sealed into a chunk of exactly `count`
 * bytes and appended to a FIFO queue; a background flusher takes chunks from the head of the
 * queue and writes them to the underlying stream. A failure of the flusher is recorded and
 * re-raised on the producer's next `write` or `close`.
 *
 * The flusher thread becomes the explicit step `FlushStep`, told by its argument what the
 * underlying stream does with the chunk it is handed.
 */
module AsyncOutput {
  import opened Wrappers

  type byte = bv8

  /** The exception thrown by the underlying stream, carried as the cause of the re-raised error. */
  datatype Exception = Exception(message: string)

  datatype StreamError =
    | IndexOutOfBounds
      /** IOException("caught flusher to fail writing asynchronously!", cause) */
    | FlusherFailed(cause: Exception)

  /** What the underlying stream does when the flusher writes a chunk to it. */
  datatype SinkReply = Accepted | Throws(e: Exception)

  function Concat(chunks: seq<seq<byte>>): seq<byte> {
    if chunks == [] then [] else chunks[0] + Concat(chunks[1..])
  }

  lemma {:induction false} ConcatSnoc(chunks: seq<seq<byte>>, c: seq<byte>)
    ensures Concat(chunks + [c]) == Concat(chunks) + c
  {
    if chunks != [] {
      assert (chunks + [c])[1..] == chunks[1..] + [c];
      ConcatSnoc(chunks[1..], c);
    }
  }

  lemma ConcatCons(chunks: seq<seq<byte>>)
    requires chunks != []
    ensures Concat(chunks) == chunks[0] + Concat(chunks[1..])
  {
  }

  /** `(byte) b`: the low eight bits of a Java int. */
  function LowByte(b: int): byte {
    (b % 256) as byte
  }

  class AsyncBufferedOutputStream {
    const buf: array<byte>
    var count: nat
    /** The chunk queue, head first. */
    var buffers: seq<seq<byte>>

    // state of the flusher
    var closed: bool
    var errorHappened: bool
    var caughtException: Option<Exception>

    /** Chunks the underlying stream has received, in the order it received them. */
    var sink: seq<seq<byte>>
    var sinkClosed: bool

    /** The chunk the flusher had taken off the queue when the underlying stream threw. */
    ghost var lost: seq<byte>

    ghost predicate Valid()
      reads this, buf
    {
      && 0 < buf.Length
      && count <= buf.Length
      && (forall i :: 0 <= i < |buffers| ==> 1 <= |buffers[i]| <= buf.Length)
      && (errorHappened <==> caughtException.Some?)
      && (!errorHappened ==> lost == [])
    }

    /**
     * Every byte the stream has taken from `write`, in order: what reached the underlying
     * stream, the chunk lost to a failing write, the queued chunks, then the buffer.
     */
    ghost function Written(): seq<byte>
      reads this, buf
      requires count <= buf.Length
    {
      Concat(sink) + lost + Concat(buffers) + buf[..count]
    }

    /** What `throwOnFlusherError` throws, if anything. */
    function FlusherError(): (r: Option<StreamError>)
      reads this
      requires errorHappened <==> caughtException.Some?
      ensures r.Some? <==> errorHappened
      ensures r.Some? ==> r.value == FlusherFailed(caughtException.value)
    {
      if errorHappened then Some(FlusherFailed(caughtException.value)) else None
    }

    constructor (bufSize: nat)
      requires bufSize > 0
      ensures Valid() && fresh(buf) && buf.Length == bufSize
      ensures count == 0 && buffers == [] && sink == []
      ensures !closed && !errorHappened && !sinkClosed
      ensures Written() == []
    {
      buf := new byte[bufSize];
      count := 0;
      buffers := [];
      closed := false;
      errorHappened := false;
      caughtException := None;
      sink := [];
      sinkClosed := false;
      lost := [];
    }

    /** Seals `buf[0..count)` into a chunk at the tail of the queue; nothing when empty. */
    method ForceFlush()
      requires Valid()
      modifies this`count, this`buffers
      ensures Valid()
      ensures count == 0
      ensures buffers == if old(count) > 0 then old(buffers) + [old(buf[..count])] else old(buffers)
      ensures Written() == old(Written())
    {
      if count > 0 {
        var copy := buf[..count];
        ConcatSnoc(buffers, copy);
        buffers := buffers + [copy];
        count := 0;
      }
    }

    method FlushBufferIfSizeLimitReached()
      requires Valid()
      modifies this`count, this`buffers
      ensures Valid()
      ensures count < buf.Length
      ensures old(count) == buf.Length ==> count == 0 && buffers == old(buffers) + [old(buf[..])]
      ensures old(count) < buf.Length ==> count == old(count) && buffers == old(buffers)
      ensures Written() == old(Written())
    {
      if count >= buf.Length {
        assert buf[..count] == buf[..];
        ForceFlush();
      }
    }

    /** `flush()`: queue the current buffer whatever its fill; flusher errors are not checked. */
    method Flush()
      requires Valid()
      modifies this`count, this`buffers
      ensures Valid()
      ensures count == 0
      ensures buffers == if old(count) > 0 then old(buffers) + [old(buf[..count])] else old(buffers)
      ensures Written() == old(Written())
    {
      ForceFlush();
    }

    /** `buf[count++] = (byte) b` */
    method Store(b: int)
      requires Valid() && count < buf.Length
      modifies this`count, buf
      ensures Valid()
      ensures count == old(count) + 1 && buf[..old(count)] == old(buf[..count])
      ensures Written() == old(Written()) + [LowByte(b)]
    {
      ghost var before := buf[..count];
      ghost var queued := Concat(sink) + lost + Concat(buffers);
      buf[count] := LowByte(b);
      assert buf[..count + 1] == before + [LowByte(b)];
      count := count + 1;
      assert Written() == queued + (before + [LowByte(b)]);
    }

    /** `write(int b)`: seal a full buffer first, then re-raise a flusher error, then store the byte. */
    method WriteByte(b: int) returns (r: Option<StreamError>)
      requires Valid()
      modifies this`count, this`buffers, buf
      ensures Valid()
      ensures r == old(FlusherError())
      ensures old(count) == buf.Length ==> buffers == old(buffers) + [old(buf[..])]
      ensures old(count) < buf.Length ==> buffers == old(buffers)
      ensures Written() == if r.None? then old(Written()) + [LowByte(b)] else old(Written())
    {
      FlushBufferIfSizeLimitReached();
      if errorHappened {
        return Some(FlusherFailed(caughtException.value));
      }
      Store(b);
      r := None;
    }

    /** `System.arraycopy(src, from, buf, count, n)` */
    method CopyIn(src: seq<byte>, from: nat, n: nat)
      requires Valid()
      requires from + n <= |src| && count + n <= buf.Length
      modifies buf
      ensures Valid()
      ensures buf[..count + n] == old(buf[..count]) + src[from..from + n]
      ensures Written() == old(Written())
    {
      forall i | 0 <= i < n {
        buf[count + i] := src[from + i];
      }
      assert buf[..count + n] == old(buf[..count]) + src[from..from + n];
      assert buf[..count] == old(buf[..count]);
    }

    /**
     * `write(b, off, len)`: rejects a range outside `b` and changes nothing; otherwise copies the
     * bytes in steps of `min(remaining, free space)`, sealing the buffer whenever it is full, and
     * stops with the recorded flusher error before the first step when there is one.
     */
    method Write(b: seq<byte>, off: int, len: int) returns (r: Option<StreamError>)
      requires Valid()
      modifies this`count, this`buffers, buf
      ensures Valid()
      ensures r == if off < 0 || len < 0 || off + len > |b| then Some(IndexOutOfBounds)
                   else if len > 0 then old(FlusherError())
                   else None
      ensures r.Some? ==> count == old(count) && buffers == old(buffers) && buf[..] == old(buf[..])
      ensures Written() == if r.None? then old(Written()) + b[off..off + len] else old(Written())
    {
      if off < 0 || len < 0 || off + len > |b| {
        return Some(IndexOutOfBounds);
      }
      var bytesWritten := 0;
      while bytesWritten < len
        invariant 0 <= bytesWritten <= len
        invariant Valid()
        invariant Written() == old(Written()) + b[off..off + bytesWritten]
        invariant bytesWritten == 0 ==> count == old(count) && buffers == old(buffers) && buf[..] == old(buf[..])
        invariant bytesWritten > 0 ==> !errorHappened
        decreases len - bytesWritten
      {
        if errorHappened {
          return Some(FlusherFailed(caughtException.value));
        }
        var bytesToWrite := WriteStep(b, off + bytesWritten, len - bytesWritten);
        assert b[off..off + bytesWritten + bytesToWrite]
            == b[off..off + bytesWritten] + b[off + bytesWritten..off + bytesWritten + bytesToWrite];
        bytesWritten := bytesWritten + bytesToWrite;
      }
      r := None;
    }

    /**
     * One turn of `write`'s loop after the error check: seal a full buffer, then copy
     * `min(remaining, free space)` bytes.
     */
    method WriteStep(b: seq<byte>, from: nat, remaining: nat) returns (n: nat)
      requires Valid()
      requires 0 < remaining && from + remaining <= |b|
      modifies this`count, this`buffers, buf
      ensures Valid()
      ensures var free := if old(count) == buf.Length then buf.Length else buf.Length - old(count);
              n == if remaining < free then remaining else free
      ensures 0 < n <= remaining
      ensures Written() == old(Written()) + b[from..from + n]
    {
      FlushBufferIfSizeLimitReached();
      n := if remaining < buf.Length - count then remaining else buf.Length - count;
      ghost var acc := Written();
      ghost var kept := buf[..count];
      CopyIn(b, from, n);
      count := count + n;
      assert buf[..count] == kept + b[from..from + n];
    }

    /** `write(byte[] b)`: the whole array. */
    method WriteAll(b: seq<byte>) returns (r: Option<StreamError>)
      requires Valid()
      modifies this`count, this`buffers, buf
      ensures Valid()
      ensures r == if |b| > 0 then old(FlusherError()) else None
      ensures Written() == if r.None? then old(Written()) + b else old(Written())
    {
      r := Write(b, 0, |b|);
      assert b[0..|b|] == b;
    }

    /** The flusher hands the head chunk to the underlying stream, recording a failure. */
    method DeliverHead(reply: SinkReply)
      requires Valid() && !errorHappened && buffers != []
      modifies this`buffers, this`sink, this`errorHappened, this`caughtException, this`lost
      ensures Valid()
      ensures buffers == old(buffers[1..])
      ensures reply.Accepted? ==> sink == old(sink) + [old(buffers[0])] && !errorHappened
      ensures reply.Throws? ==> sink == old(sink) && errorHappened && caughtException == Some(reply.e)
      ensures Written() == old(Written())
    {
      var take := buffers[0];
      ConcatCons(buffers);
      buffers := buffers[1..];
      match reply
      case Accepted =>
        ConcatSnoc(sink, take);
        sink := sink + [take];
      case Throws(e) =>
        lost := take;
        caughtException := Some(e);
        errorHappened := true;
    }

    /**
     * One turn of the flusher's loop: while not closed, poll the head chunk and write it; the
     * first exception is recorded and ends the flusher for good.
     */
    method FlushStep(reply: SinkReply)
      requires Valid()
      modifies this`buffers, this`sink, this`errorHappened, this`caughtException, this`lost
      ensures Valid()
      ensures Written() == old(Written())
      ensures old(closed || errorHappened || buffers == []) ==>
        buffers == old(buffers) && sink == old(sink) && errorHappened == old(errorHappened)
        && caughtException == old(caughtException)
      ensures !old(closed || errorHappened || buffers == []) ==>
        buffers == old(buffers[1..])
        && (reply.Accepted? ==> sink == old(sink) + [old(buffers[0])] && !errorHappened)
        && (reply.Throws? ==> sink == old(sink) && errorHappened && caughtException == Some(reply.e))
    {
      if !closed && !errorHappened && buffers != [] {
        DeliverHead(reply);
      }
    }

    /**
     * `close()`: a recorded flusher error is thrown at once, before the underlying stream is
     * touched. Otherwise the buffer is sealed, the flusher is told to stop, and `close` waits for
     * it; `inFlight` is the write the flusher had already started when it was told (None when it
     * was idle); once the stream is closed the flusher has ended, so no write is in flight. The
   * flusher does not drain the queue. A failure of that last write is thrown,
     * and the underlying stream is closed in any case.
     */
    method Close(inFlight: Option<SinkReply>) returns (r: Option<StreamError>)
      requires Valid()
      requires closed ==> inFlight.None?
      modifies this`count, this`buffers, this`closed, this`sink, this`sinkClosed,
               this`errorHappened, this`caughtException, this`lost
      ensures Valid()
      ensures Written() == old(Written())
      ensures old(errorHappened) ==> r == old(FlusherError()) && sinkClosed == old(sinkClosed)
                                     && closed == old(closed) && count == old(count) && buffers == old(buffers)
                                     && sink == old(sink) && lost == old(lost)
      ensures !old(errorHappened) ==> closed && sinkClosed && count == 0 && r == FlusherError()
      ensures !old(errorHappened) && (inFlight.None? || (old(count) == 0 && old(buffers) == [])) ==>
        r.None? && sink == old(sink)
        && buffers == if old(count) > 0 then old(buffers) + [old(buf[..count])] else old(buffers)
      ensures !old(errorHappened) && inFlight.Some? && (old(count) > 0 || old(buffers) != []) ==>
        var q := if old(count) > 0 then old(buffers) + [old(buf[..count])] else old(buffers);
        && buffers == q[1..]
        && (inFlight.value.Throws? ==> r == Some(FlusherFailed(inFlight.value.e)) && sink == old(sink))
        && (inFlight.value.Accepted? ==> r.None? && sink == old(sink) + [q[0]])
    {
      if errorHappened {
        return Some(FlusherFailed(caughtException.value));
      }
      ForceFlush();
      closed := true;
      if inFlight.Some? && buffers != [] {
        DeliverHead(inFlight.value);
      }
      r := FlusherError();
      sinkClosed := true;
    }

    /**
     * A producer that flushes and then lets the flusher run while the underlying stream accepts
     * every chunk: the underlying stream ends up with every byte that was written, in order.
     */
    method FlushAndDrain()
      requires Valid() && !closed && !errorHappened
      modifies this`count, this`buffers, this`sink, this`errorHappened, this`caughtException, this`lost
      ensures Valid() && !errorHappened
      ensures count == 0 && buffers == []
      ensures Concat(sink) == old(Written())
      ensures Written() == old(Written())
    {
      ForceFlush();
      while buffers != []
        invariant Valid() && !errorHappened && !closed && count == 0
        invariant Written() == old(Written())
        decreases |buffers|
      {
        FlushStep(Accepted);
      }
    }
  }
}
