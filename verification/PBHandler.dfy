/** Length-prefixed messages inside a channel: the codec, and the sending and receiving loops. */
module PBHandlers {
  import opened Bytes
  import opened Common
  import opened Frames
  import opened Channels
  import opened ChannelManagers

  const PB_HEADER_SIZE: nat := 4

  function PbEncode(message: seq<byte>): seq<byte>
    requires |message| < TWO_32
  {
    Le32(|message|) + message
  }

  ghost predicate Fits(messages: seq<seq<byte>>, limit: nat) {
    limit < TWO_32 && forall i :: 0 <= i < |messages| ==> |messages[i]| <= limit
  }

  ghost function PbEncodeAll(messages: seq<seq<byte>>, limit: nat): seq<byte>
    requires Fits(messages, limit)
  {
    if messages == [] then [] else PbEncode(messages[0]) + PbEncodeAll(messages[1..], limit)
  }

  function BodySize(stream: seq<byte>): nat
    requires PB_HEADER_SIZE <= |stream|
  {
    FromLe32(stream[..PB_HEADER_SIZE])
  }

  /**
   The messages Run passes to ReceiveMessage when its reads are served from `stream`. An announced
   size above the receive buffer is dropped, but the body that follows it is not skipped.
   */
  ghost function PbParse(stream: seq<byte>, limit: nat): seq<seq<byte>>
    decreases |stream|
  {
    if |stream| < PB_HEADER_SIZE then []
    else
      var n, rest := BodySize(stream), stream[PB_HEADER_SIZE..];
      if n > limit then PbParse(rest, limit)
      else if |rest| < n then []
      else [rest[..n]] + PbParse(rest[n..], limit)
  }

  /** The size of the first non-empty Read that Run issues after its reads returned `stream`. */
  function NextRead(stream: seq<byte>, limit: nat): (n: nat)
    ensures n > 0
    decreases |stream|
  {
    if |stream| < PB_HEADER_SIZE then PB_HEADER_SIZE
    else
      var n, rest := BodySize(stream), stream[PB_HEADER_SIZE..];
      if n > limit then NextRead(rest, limit)
      else if |rest| < n then n
      else NextRead(rest[n..], limit)
  }

  lemma HeaderOf(message: seq<byte>, tail: seq<byte>)
    requires |message| < TWO_32
    ensures
      var stream := PbEncode(message) + tail;
      && PB_HEADER_SIZE + |message| <= |stream|
      && BodySize(stream) == |message|
      && stream[PB_HEADER_SIZE..] == message + tail
      && stream[PB_HEADER_SIZE..][..|message|] == message
      && stream[PB_HEADER_SIZE..][|message|..] == tail
  {
    var stream := PbEncode(message) + tail;
    assert stream[..PB_HEADER_SIZE] == Le32(|message|);
    Le32RoundTrip(|message|);
  }

  lemma PbEncodeAllCons(messages: seq<seq<byte>>, limit: nat, tail: seq<byte>)
    requires Fits(messages, limit) && messages != []
    ensures PbEncodeAll(messages, limit) + tail ==
            PbEncode(messages[0]) + (PbEncodeAll(messages[1..], limit) + tail)
  {
  }

  /** Messages within the receive buffer, empty ones included, are parsed back exactly. */
  lemma {:induction false} PbRoundTrip(messages: seq<seq<byte>>, limit: nat, tail: seq<byte>)
    requires Fits(messages, limit)
    ensures PbParse(PbEncodeAll(messages, limit) + tail, limit) == messages + PbParse(tail, limit)
    ensures NextRead(PbEncodeAll(messages, limit) + tail, limit) == NextRead(tail, limit)
  {
    if messages == [] {
      assert PbEncodeAll(messages, limit) + tail == tail;
    } else {
      var rest := PbEncodeAll(messages[1..], limit) + tail;
      PbEncodeAllCons(messages, limit, tail);
      HeaderOf(messages[0], rest);
      PbRoundTrip(messages[1..], limit, tail);
      Cons(messages, PbParse(tail, limit));
    }
  }

  /** Of a message above the receive buffer only the header is dropped; its body is taken for messages. */
  lemma OversizeKeepsBody(n: nat, rest: seq<byte>, limit: nat)
    requires limit < n < TWO_32
    ensures PbParse(Le32(n) + rest, limit) == PbParse(rest, limit)
  {
    var stream := Le32(n) + rest;
    assert stream[..PB_HEADER_SIZE] == Le32(n) && stream[PB_HEADER_SIZE..] == rest;
    Le32RoundTrip(n);
  }

  /** What has been received is a prefix of what will be. */
  lemma {:induction false} PbParseMonotone(stream: seq<byte>, more: seq<byte>, limit: nat)
    ensures PbParse(stream, limit) <= PbParse(stream + more, limit)
    decreases |stream|
  {
    if |stream| >= PB_HEADER_SIZE {
      var n, rest := BodySize(stream), stream[PB_HEADER_SIZE..];
      assert (stream + more)[..PB_HEADER_SIZE] == stream[..PB_HEADER_SIZE];
      assert (stream + more)[PB_HEADER_SIZE..] == rest + more;
      if n > limit {
        PbParseMonotone(rest, more, limit);
      } else if |rest| >= n {
        assert (rest + more)[..n] == rest[..n] && (rest + more)[n..] == rest[n..] + more;
        PbParseMonotone(rest[n..], more, limit);
      }
    }
  }

  /** Run stands between two messages: what it does next depends only on what comes. */
  ghost predicate Between(stream: seq<byte>, limit: nat) {
    forall more: seq<byte> :: NextRead(stream + more, limit) == NextRead(more, limit)
  }

  lemma BetweenAtStart(limit: nat)
    ensures Between([], limit)
  {
    forall more: seq<byte> ensures NextRead([] + more, limit) == NextRead(more, limit) {
      assert [] + more == more;
    }
  }

  /** After a header Run stands in the message, or, when the message is too large, between two again. */
  lemma AfterHeader(stream: seq<byte>, header: seq<byte>, limit: nat)
    requires Between(stream, limit) && |header| == PB_HEADER_SIZE
    ensures BodySize(header) > limit ==> Between(stream + header, limit)
    ensures 0 < BodySize(header) <= limit ==> NextRead(stream + header, limit) == BodySize(header)
  {
    assert header[..PB_HEADER_SIZE] == header;
    if BodySize(header) > limit {
      forall more: seq<byte> ensures NextRead(stream + header + more, limit) == NextRead(more, limit) {
        Assoc(stream, header, more);
        assert (header + more)[..PB_HEADER_SIZE] == header && (header + more)[PB_HEADER_SIZE..] == more;
      }
    }
  }

  lemma AfterBody(stream: seq<byte>, header: seq<byte>, body: seq<byte>, limit: nat)
    requires Between(stream, limit) && |header| == PB_HEADER_SIZE && BodySize(header) == |body| <= limit
    ensures Between(stream + header + body, limit)
  {
    forall more: seq<byte> ensures NextRead(stream + header + body + more, limit) == NextRead(more, limit) {
      var rest := header + (body + more);
      assert stream + header + body + more == stream + rest;
      assert header[..PB_HEADER_SIZE] == header && rest[..PB_HEADER_SIZE] == header;
      assert rest[PB_HEADER_SIZE..] == body + more && (body + more)[|body|..] == more;
    }
  }

  /** A Read call: what earlier calls had returned, and how much it asks for. */
  datatype Asked = Asked(returned: seq<byte>, size: nat)

  ghost predicate AsksInStep(asked: seq<Asked>, limit: nat) {
    forall a <- asked :: a.size == 0 || a.size == NextRead(a.returned, limit)
  }

  /** The reads of a channel within one connection, served from the bytes still to be delivered. */
  class Source {
    var rest: seq<byte>
    ghost var returned: seq<byte>
    ghost var asked: seq<Asked>

    constructor (stream: seq<byte>)
      ensures rest == stream && returned == [] && asked == []
    {
      rest, returned, asked := stream, [], [];
    }

    method Read(buffer: array<byte>, size: nat) returns (ret: int)
      requires size <= buffer.Length
      modifies this, buffer
      ensures ret == if |old(rest)| < size then -ECONNRESET else size
      ensures ret == size ==> buffer[..size] == old(rest)[..size] && rest == old(rest)[size..]
      ensures returned == old(returned) + if ret == size then buffer[..size] else []
      ensures asked == old(asked) + [Asked(old(returned), size)]
    {
      asked := asked + [Asked(returned, size)];
      if |rest| < size {
        return -ECONNRESET;
      }
      forall i | 0 <= i < size {
        buffer[i] := rest[i];
      }
      rest, returned := rest[size..], returned + rest[..size];
      return size;
    }
  }

  class PBHandler {
    const manager: ChannelManager
    const port: nat
    const sendBufferSize: nat
    const receiveBuffer: array<byte>
    var received: seq<seq<byte>>  // what ReceiveMessage was called with

    ghost predicate Valid() {
      port < TWO_32 && sendBufferSize < TWO_32 - PB_HEADER_SIZE && receiveBuffer.Length < TWO_32
    }

    constructor (manager: ChannelManager, port: nat, sendSize: nat, receiveSize: nat)
      requires port < TWO_32 && sendSize < TWO_32 - PB_HEADER_SIZE && receiveSize < TWO_32
      ensures Valid() && fresh(receiveBuffer) && receiveBuffer.Length == receiveSize
      ensures this.manager == manager && this.port == port && this.sendBufferSize == sendSize && received == []
    {
      this.manager, this.port, this.sendBufferSize, received := manager, port, sendSize, [];
      receiveBuffer := new byte[receiveSize];
    }

    /** Sends header and body in one frame; a message that does not encode into the buffer is not sent. */
    method SendMessage(message: seq<byte>, hashes: bool) returns (err: Error)
      requires Valid()
      modifies manager.transport`sent
      ensures |message| > sendBufferSize ==> err == Runtime && manager.transport.sent == old(manager.transport.sent)
      ensures err.IsNone() ==>
        && |message| <= sendBufferSize
        && manager.transport.sent ==
           old(manager.transport.sent) + Encode(manager.digest, Frame(port, PbEncode(message)))
      ensures |message| <= sendBufferSize && hashes && !manager.transport.faulty ==> err.IsNone()
    {
      if |message| > sendBufferSize {
        return Runtime;
      }
      var ret := manager.Write(port, PbEncode(message), hashes);
      return if ret < 0 then Failed else NoError;
    }

    /**
     The receiving loop of one connection: it ends when a Read fails. Every Read that asks for
     anything asks for what NextRead says.
     */
    method Run(channel: Source)
      requires Valid() && channel.returned == [] && channel.asked == []
      modifies this, receiveBuffer, channel
      ensures AsksInStep(channel.asked, receiveBuffer.Length)
      ensures received == old(received) + PbParse(old(channel.rest), receiveBuffer.Length)
    {
      var header := new byte[PB_HEADER_SIZE];
      assert received == old(received) + [];
      BetweenAtStart(receiveBuffer.Length);
      while true
        invariant received + PbParse(channel.rest, receiveBuffer.Length) ==
                  old(received) + PbParse(old(channel.rest), receiveBuffer.Length)
        invariant Between(channel.returned, receiveBuffer.Length) && AsksInStep(channel.asked, receiveBuffer.Length)
        decreases |channel.rest|
      {
        ghost var stream, returned := channel.rest, channel.returned;
        assert returned + [] == returned;
        var ret := channel.Read(header, PB_HEADER_SIZE);
        if ret < 0 {
          break;
        }
        assert header[..] == header[..PB_HEADER_SIZE];
        var size := FromLe32(header[..]);
        AfterHeader(returned, header[..], receiveBuffer.Length);
        if size > receiveBuffer.Length {
          continue;
        }
        ret := channel.Read(receiveBuffer, size);
        if ret < 0 {
          break;
        }
        AfterBody(returned, header[..], receiveBuffer[..size], receiveBuffer.Length);
        Assoc(received, [receiveBuffer[..size]], PbParse(channel.rest, receiveBuffer.Length));
        received := received + [receiveBuffer[..size]];
      }
    }
  }
}
