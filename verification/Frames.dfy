/**
 The frame format of the multiplexed channel protocol: a header with port, data size and
 checksum, then the data. Parse is what a reader of a byte stream can recover.
 */
module Frames {
  import opened Bytes

  const READ_BUFFER_SIZE: nat := 65 * 1024
  const HEADER_SIZE: nat := 4 + 4 + 32

  datatype Frame = Frame(port: nat, payload: seq<byte>)

  ghost predicate Sendable(f: Frame) {
    f.port < TWO_32 && |f.payload| <= READ_BUFFER_SIZE
  }

  ghost predicate AllSendable(fs: seq<Frame>) {
    forall i :: 0 <= i < |fs| ==> Sendable(fs[i])
  }

  /** The header the sender prepares; the size field holds 32 bits. */
  function Header(digest: Digest, f: Frame): (h: seq<byte>)
    requires f.port < TWO_32
    ensures |h| == HEADER_SIZE
  {
    Le32(f.port) + Le32(|f.payload| % TWO_32) + digest.Of(f.payload)
  }

  function Encode(digest: Digest, f: Frame): seq<byte>
    requires f.port < TWO_32
  {
    Header(digest, f) + f.payload
  }

  ghost function EncodeAll(digest: Digest, fs: seq<Frame>): seq<byte>
    requires AllSendable(fs)
  {
    if fs == [] then [] else Encode(digest, fs[0]) + EncodeAll(digest, fs[1..])
  }

  function HeaderPort(h: seq<byte>): nat
    requires |h| == HEADER_SIZE
  {
    FromLe32(h[..4])
  }

  function HeaderDataSize(h: seq<byte>): nat
    requires |h| == HEADER_SIZE
  {
    FromLe32(h[4..8])
  }

  /** Whether the stream starts with a whole frame that fits the read buffer. */
  predicate HasFrame(wire: seq<byte>) {
    && HEADER_SIZE <= |wire|
    && HeaderDataSize(wire[..HEADER_SIZE]) <= READ_BUFFER_SIZE
    && HEADER_SIZE + HeaderDataSize(wire[..HEADER_SIZE]) <= |wire|
  }

  function FirstFrame(wire: seq<byte>): Frame
    requires HasFrame(wire)
  {
    var h := wire[..HEADER_SIZE];
    Frame(HeaderPort(h), wire[HEADER_SIZE..HEADER_SIZE + HeaderDataSize(h)])
  }

  function AfterFrame(wire: seq<byte>): (rest: seq<byte>)
    requires HasFrame(wire)
    ensures |rest| < |wire|
  {
    wire[HEADER_SIZE + HeaderDataSize(wire[..HEADER_SIZE])..]
  }

  /** The frames a reader recovers before the stream ends or announces too large a frame. */
  function Parse(wire: seq<byte>): seq<Frame>
    decreases |wire|
  {
    if HasFrame(wire) then [FirstFrame(wire)] + Parse(AfterFrame(wire)) else []
  }

  lemma FieldsOf(port: seq<byte>, size: seq<byte>, checksum: seq<byte>)
    requires |port| == 4 && |size| == 4 && |checksum| == 32
    ensures HeaderPort(port + size + checksum) == FromLe32(port)
    ensures HeaderDataSize(port + size + checksum) == FromLe32(size)
  {
    var h := port + size + checksum;
    assert h[..4] == port && h[4..8] == size;
  }

  lemma HeaderFields(digest: Digest, f: Frame)
    requires Sendable(f)
    ensures HeaderPort(Header(digest, f)) == f.port
    ensures HeaderDataSize(Header(digest, f)) == |f.payload|
  {
    assert |f.payload| % TWO_32 == |f.payload|;
    FieldsOf(Le32(f.port), Le32(|f.payload|), digest.Of(f.payload));
    Le32RoundTrip(f.port);
    Le32RoundTrip(|f.payload|);
  }

  /** The checksum on the wire is that of the bytes after the header, up to the next frame. */
  lemma ChecksumCovers(digest: Digest, f: Frame)
    requires f.port < TWO_32
    ensures
      var wire := Encode(digest, f);
      wire[8..HEADER_SIZE] == digest.Of(wire[HEADER_SIZE..]) && wire[HEADER_SIZE..] == f.payload
  {
    var wire := Encode(digest, f);
    assert wire[8..HEADER_SIZE] == Header(digest, f)[8..];
  }

  lemma SplitFrame(h: seq<byte>, payload: seq<byte>, tail: seq<byte>)
    requires |h| == HEADER_SIZE && HeaderDataSize(h) == |payload| <= READ_BUFFER_SIZE
    ensures
      var wire := h + payload + tail;
      HasFrame(wire) && FirstFrame(wire) == Frame(HeaderPort(h), payload) && AfterFrame(wire) == tail
  {
    var wire := h + payload + tail;
    assert wire[..HEADER_SIZE] == h;
    assert wire[HEADER_SIZE..HEADER_SIZE + |payload|] == payload;
    assert wire[HEADER_SIZE + |payload|..] == tail;
  }

  lemma ParseFirst(digest: Digest, f: Frame, tail: seq<byte>)
    requires Sendable(f)
    ensures HasFrame(Encode(digest, f) + tail)
    ensures FirstFrame(Encode(digest, f) + tail) == f
    ensures AfterFrame(Encode(digest, f) + tail) == tail
  {
    HeaderFields(digest, f);
    SplitFrame(Header(digest, f), f.payload, tail);
  }

  lemma EncodeAllCons(digest: Digest, fs: seq<Frame>, tail: seq<byte>)
    requires AllSendable(fs) && fs != []
    ensures EncodeAll(digest, fs) + tail == Encode(digest, fs[0]) + (EncodeAll(digest, fs[1..]) + tail)
  {
  }

  lemma ParseCons(digest: Digest, f: Frame, rest: seq<byte>)
    requires Sendable(f)
    ensures Parse(Encode(digest, f) + rest) == [f] + Parse(rest)
  {
    var wire := Encode(digest, f) + rest;
    assert HasFrame(wire) && FirstFrame(wire) == f && AfterFrame(wire) == rest by {
      ParseFirst(digest, f, rest);
    }
  }

  /** Whatever follows on the wire, the parser recovers exactly the frames written first. */
  lemma {:induction false} ParseEncodeAll(digest: Digest, fs: seq<Frame>, tail: seq<byte>)
    requires AllSendable(fs)
    ensures Parse(EncodeAll(digest, fs) + tail) == fs + Parse(tail)
  {
    var wire := EncodeAll(digest, fs) + tail;
    if fs == [] {
      assert wire == tail;
    } else {
      var rest := EncodeAll(digest, fs[1..]) + tail;
      calc {
        Parse(wire);
        { EncodeAllCons(digest, fs, tail); ParseCons(digest, fs[0], rest); }
        [fs[0]] + Parse(rest);
        { ParseEncodeAll(digest, fs[1..], tail); }
        [fs[0]] + (fs[1..] + Parse(tail));
        { Cons(fs, Parse(tail)); }
        fs + Parse(tail);
      }
    }
  }

  /** One more serialised Write appends one more frame to the stream. */
  lemma {:induction false} EncodeAllSnoc(digest: Digest, fs: seq<Frame>, f: Frame)
    requires Sendable(f) && AllSendable(fs)
    ensures EncodeAll(digest, fs + [f]) == EncodeAll(digest, fs) + Encode(digest, f)
  {
    if fs == [] {
      assert fs + [f] == [f];
    } else {
      assert (fs + [f])[1..] == fs[1..] + [f];
      EncodeAllSnoc(digest, fs[1..], f);
      Assoc(Encode(digest, fs[0]), EncodeAll(digest, fs[1..]), Encode(digest, f));
    }
  }

  lemma CutBetween(wire: seq<byte>, i: nat, k: nat, n: nat)
    requires i <= k <= n <= |wire|
    ensures wire[..n][i..k] == wire[i..k] && wire[..n][k..] == wire[k..][..n - k]
  {
  }

  /**
   A stream cut anywhere yields a prefix of the frames: a reader never invents one.
   */
  lemma {:induction false} ParsePrefix(wire: seq<byte>, n: nat)
    requires n <= |wire|
    ensures Parse(wire[..n]) <= Parse(wire)
    decreases |wire|
  {
    var cut := wire[..n];
    if HasFrame(cut) {
      assert cut[..HEADER_SIZE] == wire[..HEADER_SIZE];
      var k := HEADER_SIZE + HeaderDataSize(cut[..HEADER_SIZE]);
      assert HeaderDataSize(cut[..HEADER_SIZE]) == HeaderDataSize(wire[..HEADER_SIZE]);
      CutBetween(wire, HEADER_SIZE, k, n);
      assert FirstFrame(cut) == FirstFrame(wire);
      assert AfterFrame(cut) == AfterFrame(wire)[..n - k];
      ParsePrefix(AfterFrame(wire), n - k);
    }
  }

  /**
   A frame on the wire can only be misread when its payload does not fit 32 bits of size:
   the parser sees the written frame first exactly when the payload fits the read buffer.
   */
  lemma FrameRecoveredIff(digest: Digest, f: Frame, tail: seq<byte>)
    requires f.port < TWO_32
    ensures
      var wire := Encode(digest, f) + tail;
      (HasFrame(wire) && FirstFrame(wire) == f) <==> |f.payload| <= READ_BUFFER_SIZE
  {
    if |f.payload| <= READ_BUFFER_SIZE {
      ParseFirst(digest, f, tail);
    }
  }
}
