/** The byte transport under the channels. Its reads and writes may be short, and may fail. */
module Transports {
  import opened Bytes

  class Transport {
    var sent: seq<byte>      // what the peer can read
    var incoming: seq<byte>  // what the peer has sent and nobody has read
    const faulty: bool       // whether operations may fail although data could move

    constructor (incoming: seq<byte>, faulty: bool)
      ensures this.incoming == incoming && sent == [] && this.faulty == faulty
    {
      this.sent, this.incoming, this.faulty := [], incoming, faulty;
    }

    /** Takes between one byte and all of them, or fails. */
    method Write(data: seq<byte>) returns (ret: int)
      requires data != []
      modifies `sent
      ensures ret < 0 ==> faulty && sent == old(sent)
      ensures ret >= 0 ==> 1 <= ret <= |data| && sent == old(sent) + data[..ret]
    {
      var fails: bool := *;
      if faulty && fails {
        return -1;
      }
      ret :| 1 <= ret <= |data|;
      sent := sent + data[..ret];
    }

    /** Delivers between one byte and `size` of them, or fails; it fails at the end of the stream. */
    method Read(buffer: array<byte>, at: nat, size: nat) returns (ret: int)
      requires 0 < size && at + size <= buffer.Length
      modifies `incoming, buffer
      ensures ret < 0 ==> (faulty || incoming == []) && incoming == old(incoming) && buffer[..] == old(buffer[..])
      ensures ret >= 0 ==> 1 <= ret <= Min(size, |old(incoming)|)
      ensures ret >= 0 ==> incoming == old(incoming[ret..])
      ensures ret >= 0 ==> buffer[..at] == old(buffer[..at]) && buffer[at + ret..] == old(buffer[at + ret..])
      ensures ret >= 0 ==> buffer[at..at + ret] == old(incoming[..ret])
    {
      var fails: bool := *;
      if incoming == [] || (faulty && fails) {
        return -1;
      }
      var n: nat :| 1 <= n <= size && n <= |incoming|;
      ret := n;
      forall i | 0 <= i < ret {
        buffer[at + i] := incoming[i];
      }
      incoming := incoming[ret..];
    }
  }
}

/** Framing and parsing over a transport with short reads and writes. */
module ChannelManagers {
  import opened Bytes
  import opened Common
  import opened Frames
  import opened Transports

  const EIO: int := 5
  const EINVAL: int := 22

  /** How a wait for the reader of a channel ends. */
  datatype Waited = Asks(size: nat) | TimedOut | Closed

  class ChannelManager {
    const transport: Transport
    const digest: Digest
    const closing: bool        // whether the manager may be told to close
    const tmpReadBuffer: array<byte>
    var processed: seq<Frame>  // the frames passed to ProcessData so far

    ghost predicate Valid() {
      tmpReadBuffer.Length == READ_BUFFER_SIZE
    }

    constructor (transport: Transport, digest: Digest, closing: bool)
      ensures Valid() && fresh(tmpReadBuffer)
      ensures this.transport == transport && this.digest == digest && this.closing == closing && processed == []
    {
      this.transport, this.digest, this.closing, processed := transport, digest, closing, [];
      tmpReadBuffer := new byte[READ_BUFFER_SIZE];
    }

    method WriteTransport(data: seq<byte>) returns (err: Error)
      modifies transport`sent
      ensures err.IsNone() ==> transport.sent == old(transport.sent) + data
      ensures !err.IsNone() ==> transport.faulty
      ensures !err.IsNone() ==> old(transport.sent) <= transport.sent < old(transport.sent) + data
    {
      var written := 0;
      while written < |data|
        invariant written <= |data|
        invariant transport.sent == old(transport.sent) + data[..written]
      {
        var ret := transport.Write(data[written..]);
        if ret < 0 {
          return Failed;
        }
        assert data[..written] + data[written..][..ret] == data[..written + ret];
        written := written + ret;
      }
      assert data[..written] == data;
      return NoError;
    }

    /**
     Sends one frame: all of it, or, on an error, a proper prefix of it. `hashes` is whether the
     checksum of the header can be computed.
     */
    method Write(port: nat, data: seq<byte>, hashes: bool) returns (ret: int)
      requires port < TWO_32
      modifies transport`sent
      ensures ret == |data| || ret == -EINVAL || (ret == -EIO && transport.faulty)
      ensures ret == -EINVAL <==> !hashes
      ensures !hashes ==> transport.sent == old(transport.sent)
      ensures ret >= 0 ==> transport.sent == old(transport.sent) + Encode(digest, Frame(port, data))
      ensures ret < 0 ==>
        old(transport.sent) <= transport.sent < old(transport.sent) + Encode(digest, Frame(port, data))
    {
      if !hashes {
        assert Encode(digest, Frame(port, data)) != [];
        return -EINVAL;
      }
      var header := Header(digest, Frame(port, data));
      Assoc(transport.sent, header, data);
      var err := WriteTransport(header);
      if !err.IsNone() {
        PrefixGrows(old(transport.sent) + header, data, transport.sent);
        return -EIO;
      }
      err := WriteTransport(data);
      if !err.IsNone() {
        return -EIO;
      }
      return |data|;
    }

    /** Fills buffer[..size] with the next `size` bytes of the stream, or consumes fewer and fails. */
    method ReadTransport(buffer: array<byte>, size: nat) returns (err: Error)
      requires size <= buffer.Length
      modifies transport`incoming, buffer
      ensures err.IsNone() ==> size <= |old(transport.incoming)|
      ensures err.IsNone() ==> buffer[..size] == old(transport.incoming[..size])
      ensures err.IsNone() ==> transport.incoming == old(transport.incoming[size..])
      ensures !err.IsNone() ==> transport.faulty || |old(transport.incoming)| < size
    {
      var read := 0;
      while read < size
        invariant read <= size && read <= |old(transport.incoming)|
        invariant transport.incoming == old(transport.incoming)[read..]
        invariant buffer[..read] == old(transport.incoming)[..read]
      {
        var ret := transport.Read(buffer, read, size - read);
        if ret < 0 {
          return Failed;
        }
        assert buffer[..read + ret] == buffer[..read] + buffer[read..read + ret];
        read := read + ret;
      }
      return NoError;
    }

    /**
     The body of HandleRead's loop: the next frame, read whole whatever ProcessData will make of it.
     */
    method ReadFrame(header: array<byte>) returns (err: Error, port: nat, size: nat)
      requires Valid() && header.Length == HEADER_SIZE && header != tmpReadBuffer
      modifies transport`incoming, tmpReadBuffer, header
      ensures err.IsNone() ==>
        && HasFrame(old(transport.incoming))
        && size <= READ_BUFFER_SIZE
        && Frame(port, tmpReadBuffer[..size]) == FirstFrame(old(transport.incoming))
        && transport.incoming == AfterFrame(old(transport.incoming))
      ensures !err.IsNone() ==> transport.faulty || !HasFrame(old(transport.incoming))
    {
      port, size := 0, 0;
      err := ReadTransport(header, HEADER_SIZE);
      if !err.IsNone() {
        return;
      }
      port, size := HeaderPort(header[..]), HeaderDataSize(header[..]);
      assert header[..] == header[..HEADER_SIZE] == old(transport.incoming)[..HEADER_SIZE];
      if size > READ_BUFFER_SIZE {
        return Runtime, port, size;
      }
      err := ReadTransport(tmpReadBuffer, size);
      if err.IsNone() {
        ghost var wire := old(transport.incoming);
        assert wire[HEADER_SIZE..][..size] == wire[HEADER_SIZE..HEADER_SIZE + size];
        assert wire[HEADER_SIZE..][size..] == wire[HEADER_SIZE + size..];
      }
    }

    /**
     Hands the data of a frame to the reader of its channel, as much at a time as the reader asks
     for, until all of it is handed over or a wait fails. `waits` is how successive waits end; a
     reader that does not come back lets the wait time out.
     */
    method ProcessData(known: bool, size: nat, waits: seq<Waited>) returns (err: Error, handed: seq<seq<byte>>)
      requires Valid() && size <= READ_BUFFER_SIZE
      requires forall w <- waits :: w.Asks? ==> w.size > 0
      ensures Concat(handed) <= tmpReadBuffer[..size]
      ensures err.IsNone() <==> known && Concat(handed) == tmpReadBuffer[..size]
      ensures !known ==> err == NotFound && handed == []
      ensures known && !err.IsNone() ==>
        err == if |handed| < |waits| && waits[|handed|].Closed? then Runtime else Timeout
      ensures |handed| <= |waits|
      ensures forall i :: 0 <= i < |handed| ==> waits[i].Asks? && 0 < |handed[i]| <= waits[i].size
      ensures forall i :: 0 <= i < |handed| - 1 ==> |handed[i]| == waits[i].size
    {
      handed := [];
      if !known {
        return NotFound, handed;
      }
      var processedSize: nat := 0;
      while processedSize < size
        invariant processedSize <= size && Concat(handed) == tmpReadBuffer[..processedSize]
        invariant |handed| <= |waits|
        invariant forall i :: 0 <= i < |handed| ==> waits[i].Asks? && 0 < |handed[i]| <= waits[i].size
        invariant forall i :: 0 <= i < |handed| && (i < |handed| - 1 || processedSize < size) ==>
          |handed[i]| == waits[i].size
      {
        var waited := if |handed| < |waits| then waits[|handed|] else TimedOut;
        if !waited.Asks? {
          return if waited.TimedOut? then Timeout else Runtime, handed;
        }
        var n := Min(waited.size, size - processedSize);
        var chunk := tmpReadBuffer[processedSize..processedSize + n];
        ConcatSnoc(handed, chunk);
        assert tmpReadBuffer[..processedSize] + chunk == tmpReadBuffer[..processedSize + n];
        handed, processedSize := handed + [chunk], processedSize + n;
      }
      return NoError, handed;
    }

    /**
     Reads frames until the transport fails or announces too large a frame, or until it finds, between
     two frames, that the manager closes. Each frame goes to ProcessData, whose result is only logged,
     so the frames seen depend on the stream alone.
     */
    method HandleRead() returns (err: Error)
      requires Valid()
      modifies this`processed, transport`incoming, tmpReadBuffer
      ensures err.IsNone() ==> closing
      ensures old(processed) <= processed <= old(processed) + Parse(old(transport.incoming))
      ensures !transport.faulty && !err.IsNone() ==> processed == old(processed) + Parse(old(transport.incoming))
    {
      var header := new byte[HEADER_SIZE];
      ghost var frames: seq<Frame> := [];
      assert old(processed) + frames == processed;
      while true
        invariant processed == old(processed) + frames
        invariant frames + Parse(transport.incoming) == Parse(old(transport.incoming))
        decreases |transport.incoming|
      {
        var close: bool := *;
        if closing && close {
          return NoError;
        }
        ghost var before := transport.incoming;
        var port, size;
        err, port, size := ReadFrame(header);
        if !err.IsNone() {
          assert !transport.faulty ==> Parse(before) == [];
          return;
        }
        var frame := Frame(port, tmpReadBuffer[..size]);
        assert frames + Parse(before) == frames + [frame] + Parse(transport.incoming);
        var known: bool := *;
        var waits: seq<Waited> :| forall w <- waits :: w.Asks? ==> w.size > 0;
        var ignored, handed := ProcessData(known, size, waits);
        processed := processed + [frame];
        frames := frames + [frame];
      }
    }
  }
}
