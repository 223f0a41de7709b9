/**
 Message handlers on both ends of a connection: messages sent as frames over the wire, parsed by
 the peer's manager thread, handed to handler threads port by port, and parsed as messages again.
 */
module EndToEnd {
  import opened Bytes
  import opened Frames
  import opened ChannelProtocol
  import opened ChannelDelivery
  import opened PBHandlers

  /** The frames for the port are messages within the receive buffer. */
  ghost predicate PbFrames(fs: seq<Frame>, p: nat, limit: nat) {
    && limit < TWO_32
    && forall i :: 0 <= i < |fs| && fs[i].port == p ==> IsPbFrame(fs[i].payload, limit)
  }

  predicate IsPbFrame(payload: seq<byte>, limit: nat)
    requires limit < TWO_32
  {
    PB_HEADER_SIZE <= |payload| <= PB_HEADER_SIZE + limit && payload == PbEncode(payload[PB_HEADER_SIZE..])
  }

  ghost function Messages(fs: seq<Frame>, p: nat): seq<seq<byte>>
    requires forall i :: 0 <= i < |fs| && fs[i].port == p ==> PB_HEADER_SIZE <= |fs[i].payload|
  {
    if fs == [] then [] else
      var last := fs[|fs| - 1];
      Messages(fs[..|fs| - 1], p) + if last.port == p then [last.payload[PB_HEADER_SIZE..]] else []
  }

  lemma {:induction false} PbEncodeAllSnoc(messages: seq<seq<byte>>, message: seq<byte>, limit: nat)
    requires Fits(messages, limit) && |message| <= limit
    ensures Fits(messages + [message], limit)
    ensures PbEncodeAll(messages + [message], limit) == PbEncodeAll(messages, limit) + PbEncode(message)
  {
    if messages == [] {
      assert messages + [message] == [message];
    } else {
      assert (messages + [message])[1..] == messages[1..] + [message];
      PbEncodeAllSnoc(messages[1..], message, limit);
      Assoc(PbEncode(messages[0]), PbEncodeAll(messages[1..], limit), PbEncode(message));
    }
  }

  lemma {:induction false} StreamIsMessages(fs: seq<Frame>, p: nat, limit: nat)
    requires PbFrames(fs, p, limit)
    ensures Fits(Messages(fs, p), limit)
    ensures Stream(fs, p) == PbEncodeAll(Messages(fs, p), limit)
  {
    if fs != [] {
      var init, last := fs[..|fs| - 1], fs[|fs| - 1];
      StreamIsMessages(init, p, limit);
      if last.port == p {
        assert IsPbFrame(fs[|fs| - 1].payload, limit);
        PbEncodeAllSnoc(Messages(init, p), last.payload[PB_HEADER_SIZE..], limit);
      } else {
        assert Messages(fs, p) == Messages(init, p);
      }
    }
  }

  /** A Read that the thread of the port issues asks for what Run asks for at that point. */
  ghost predicate InStep(s: System, a: Action, p: nat, limit: nat) {
    a.Call? && a.port == p && a.buf != [] && p in s.ports ==> |a.buf| == NextRead(s.ports[p].returned, limit)
  }

  /** Every Read that the thread of the port issues is the one Run issues at that point. */
  ghost predicate PbDriven(s: System, actions: seq<Action>, p: nat, limit: nat)
    requires Inv(s)
    decreases |actions|
  {
    actions == [] ||
    if !Enabled(s, actions[0]) then PbDriven(s, actions[1..], p, limit)
    else
      NextInv(s, actions[0]);
      InStep(s, actions[0], p, limit) && PbDriven(Next(s, actions[0]), actions[1..], p, limit)
  }

  ghost predicate AsksNext(ps: Port, limit: nat) {
    ps.reader.Reading? ==> |ps.reader.buf| == NextRead(ps.returned, limit)
  }

  predicate AtBoundary(mgr: Manager, p: nat) {
    !mgr.Free? && mgr.frame.port == p ==> mgr.k == 0 || mgr.k == PB_HEADER_SIZE
  }

  /**
   The manager works on a frame of the port only at its start or after the message header, and
   the thread always asks for exactly the header or exactly the body.
   */
  ghost predicate PbInv(s: System, p: nat, limit: nat)
    requires Inv(s)
  {
    && p in s.ports && History(s, p) && Whole(s.done, p)
    && !Spanning(s, p)
    && AsksNext(s.ports[p], limit)
    && AtBoundary(s.mgr, p)
  }

  /** Where the handler is after whole messages and the first k bytes of one more. */
  lemma NextReadInside(messages: seq<seq<byte>>, payload: seq<byte>, k: nat, limit: nat)
    requires Fits(messages, limit) && IsPbFrame(payload, limit)
    requires k == 0 || k == PB_HEADER_SIZE < |payload|
    ensures
      NextRead(PbEncodeAll(messages, limit) + payload[..k], limit) ==
      if k == 0 then PB_HEADER_SIZE else |payload| - PB_HEADER_SIZE
  {
    PbRoundTrip(messages, limit, payload[..k]);
    if k > 0 {
      HeaderOf(payload[PB_HEADER_SIZE..], []);
      assert PbEncode(payload[PB_HEADER_SIZE..]) + [] == payload;
      assert payload[..k][..PB_HEADER_SIZE] == payload[..PB_HEADER_SIZE];
    }
  }

  lemma PartsArePbFrames(done: seq<Frame>, inHand: seq<Frame>, pending: seq<Frame>, p: nat, limit: nat)
    requires PbFrames(done + inHand + pending, p, limit)
    ensures PbFrames(done, p, limit) && PbFrames(inHand, p, limit)
  {
    var all := done + inHand + pending;
    assert forall i :: 0 <= i < |done| ==> all[i] == done[i];
    assert forall i :: 0 <= i < |inHand| ==> all[|done| + i] == inHand[i];
  }

  /** A reader the manager is about to serve asks for exactly the header or exactly the body. */
  lemma ReadMatchesFrame(s: System, p: nat, limit: nat)
    requires Inv(s) && PbInv(s, p, limit) && PbFrames(Input(s), p, limit)
    requires !s.mgr.Free? && s.mgr.frame.port == p && s.mgr.k < |s.mgr.frame.payload|
    requires s.ports[p].reader.Reading? && s.ports[p].m.ready
    ensures IsPbFrame(s.mgr.frame.payload, limit)
    ensures |s.ports[p].reader.buf| ==
            if s.mgr.k == 0 then PB_HEADER_SIZE else |s.mgr.frame.payload| - PB_HEADER_SIZE
  {
    var done, payload := FramesDone(s.done), s.mgr.frame.payload;
    PartsArePbFrames(done, InHand(s.mgr), s.pending, p, limit);
    assert InHand(s.mgr)[0] == s.mgr.frame;
    WholeStream(s.done, p);
    StreamIsMessages(done, p, limit);
    NextReadInside(Messages(done, p), payload, s.mgr.k, limit);
  }

  /** The port is as it was, and the manager is elsewhere, or at the start of a frame, or where it was. */
  lemma PbKept(s: System, t: System, p: nat, limit: nat)
    requires Inv(s) && Inv(t) && PbInv(s, p, limit)
    requires p in t.ports && t.ports[p] == s.ports[p] && History(t, p) && Whole(t.done, p)
    requires t.mgr.Free? || t.mgr.frame.port != p || (t.mgr.Processing? && t.mgr.k == 0) || t.mgr == s.mgr
    ensures PbInv(t, p, limit)
  {
  }

  lemma PbElsewhere(s: System, a: Action, p: nat, limit: nat)
    requires Inv(s) && Enabled(s, a) && PbInv(s, p, limit)
    requires a == Take || ServesOther(s, a, p)
    ensures Inv(Next(s, a)) && PbInv(Next(s, a), p, limit)
  {
    NextHistory(s, a, p);
    if a == Take {
      TakeElsewhere(s, p);
    } else {
      ServeElsewhere(s, a, p);
    }
    PbKept(s, Next(s, a), p, limit);
  }

  /** A step of a reader, or a new channel. */
  lemma PbReader(s: System, a: Action, p: nat, limit: nat)
    requires Inv(s) && Enabled(s, a) && PbInv(s, p, limit)
    requires a.CreateChannel? || ((a.Call? || a.Wake?) && a.port != p)
    ensures Inv(Next(s, a)) && PbInv(Next(s, a), p, limit)
  {
    NextHistory(s, a, p);
    PbKept(s, Next(s, a), p, limit);
  }

  lemma PbCall(s: System, buf: seq<byte>, p: nat, limit: nat)
    requires Inv(s) && Enabled(s, Call(p, buf)) && PbInv(s, p, limit)
    requires buf != [] ==> |buf| == NextRead(s.ports[p].returned, limit)
    ensures Inv(Next(s, Call(p, buf))) && PbInv(Next(s, Call(p, buf)), p, limit)
  {
    NextHistory(s, Call(p, buf), p);
  }

  lemma PbWake(s: System, p: nat, limit: nat)
    requires Inv(s) && Enabled(s, Wake(p)) && PbInv(s, p, limit)
    ensures Inv(Next(s, Wake(p))) && PbInv(Next(s, Wake(p)), p, limit)
  {
    NextHistory(s, Wake(p), p);
  }

  lemma PbWaitRead(s: System, p: nat, limit: nat)
    requires Inv(s) && Enabled(s, WaitRead) && PbInv(s, p, limit) && PbFrames(Input(s), p, limit)
    requires s.mgr.frame.port == p
    ensures Inv(Next(s, WaitRead)) && PbInv(Next(s, WaitRead), p, limit)
  {
    NextHistory(s, WaitRead, p);
    ReadMatchesFrame(s, p, limit);
    assert Next(s, WaitRead).mgr.n == |s.ports[p].reader.buf|;
  }

  lemma PbCopy(s: System, p: nat, limit: nat)
    requires Inv(s) && Enabled(s, Copy) && PbInv(s, p, limit)
    requires s.mgr.frame.port == p
    ensures Inv(Next(s, Copy)) && PbInv(Next(s, Copy), p, limit)
  {
    NextHistory(s, Copy, p);
    var ps := Next(s, Copy).ports[p];
    assert |ps.reader.buf| == |s.ports[p].reader.buf| && ps.returned == s.ports[p].returned;
  }

  /** What a signal does to the port it is for. */
  lemma SignalPort(s: System, p: nat)
    requires Inv(s) && Enabled(s, Signal) && s.mgr.frame.port == p && !Spanning(s, p)
    ensures
      var ps, t := s.ports[p], Next(s, Signal);
      && ps.reader.Reading? && s.mgr.n == |ps.reader.buf| && ps.m.ready
      && p in t.ports
      && t.ports[p].reader == ps.reader && t.ports[p].returned == ps.returned
      && !t.ports[p].m.ready && t.ports[p].m.len == |ps.reader.buf|
  {
    assert PortInv(s.ports[p]);
  }

  /** The reader of the port holds all it asked for, and the manager is at a boundary of the frame. */
  lemma PbServed(s: System, t: System, p: nat, limit: nat)
    requires Inv(s) && Inv(t) && PbInv(s, p, limit) && s.ports[p].reader.Reading?
    requires p in t.ports && History(t, p) && Whole(t.done, p)
    requires t.ports[p].reader == s.ports[p].reader && t.ports[p].returned == s.ports[p].returned
    requires !t.ports[p].m.ready && t.ports[p].m.len == |t.ports[p].reader.buf|
    requires t.mgr.Free? || (t.mgr.Processing? && AtBoundary(t.mgr, p))
    ensures PbInv(t, p, limit)
  {
  }

  lemma PbSignal(s: System, p: nat, limit: nat)
    requires Inv(s) && Enabled(s, Signal) && PbInv(s, p, limit) && PbFrames(Input(s), p, limit)
    requires s.mgr.frame.port == p
    ensures Inv(Next(s, Signal)) && PbInv(Next(s, Signal), p, limit)
  {
    SignalPort(s, p);
    SignalWhole(s, p);
    NextHistory(s, Signal, p);
    assert s.mgr.k + s.mgr.n < |s.mgr.frame.payload| ==> s.mgr.k + s.mgr.n == PB_HEADER_SIZE by {
      ReadMatchesFrame(s, p, limit);
    }
    PbServed(s, Next(s, Signal), p, limit);
  }

  lemma {:induction false} PbNext(s: System, a: Action, p: nat, limit: nat)
    requires Inv(s) && Enabled(s, a) && PbInv(s, p, limit) && PbFrames(Input(s), p, limit)
    requires InStep(s, a, p, limit) && (a == TimeOut ==> s.mgr.frame.port != p)
    ensures Inv(Next(s, a)) && PbInv(Next(s, a), p, limit)
  {
    if a == Take || ServesOther(s, a, p) {
      PbElsewhere(s, a, p, limit);
    } else {
      match a
      case WaitRead => PbWaitRead(s, p, limit);
      case Copy => PbCopy(s, p, limit);
      case Signal => PbSignal(s, p, limit);
      case Call(q, buf) => if q == p { PbCall(s, buf, p, limit); } else { PbReader(s, a, p, limit); }
      case Wake(q) => if q == p { PbWake(s, p, limit); } else { PbReader(s, a, p, limit); }
      case CreateChannel(_) => PbReader(s, a, p, limit);
    }
  }

  lemma {:induction false} PbRun(s: System, actions: seq<Action>, p: nat, limit: nat)
    requires Inv(s) && PbInv(s, p, limit) && PbFrames(Input(s), p, limit)
    requires NoTimeOutFor(s, actions, p) && PbDriven(s, actions, p, limit)
    ensures PbInv(Run(s, actions), p, limit)
    ensures Input(Run(s, actions)) == Input(s)
    decreases |actions|
  {
    if actions != [] {
      if Enabled(s, actions[0]) {
        PbNext(s, actions[0], p, limit);
        NextInput(s, actions[0]);
        PbRun(Next(s, actions[0]), actions[1..], p, limit);
      } else {
        PbRun(s, actions[1..], p, limit);
      }
    }
  }

  /** The manager has served every frame, and no Read of the port is about to return or to ask on. */
  predicate Quiescent(s: System, p: nat) {
    && s.mgr.Free? && s.pending == []
    && p in s.ports
    && (s.ports[p].reader.Idle? || s.ports[p].m.ready)
  }

  /** What is left of the manager's frame. */
  function Left(mgr: Manager): nat {
    if mgr.Free? then 0 else if mgr.k <= |mgr.frame.payload| then |mgr.frame.payload| - mgr.k + 1 else 1
  }

  /** How many steps the reader is from being served, or from having returned. */
  function ReaderRank(ports: map<nat, Port>, p: nat): nat {
    if p !in ports then 0 else if ports[p].m.ready then 1 else if ports[p].reader.Idle? then 2 else 3
  }

  function PhaseRank(s: System, p: nat): nat {
    match s.mgr
    case Free => if p in s.ports && s.ports[p].reader.Reading? && !s.ports[p].m.ready then 1 else 0
    case Processing(f, _) => 1 + ReaderRank(s.ports, f.port)
    case Copying(_, _, _, _) => 1
    case Signalling(_, _, _) => 0
  }

  /** The measure by which some step brings the system closer to having served everything. */
  predicate Closer(s: System, t: System, p: nat) {
    || |t.pending| < |s.pending|
    || (|t.pending| == |s.pending| && Left(t.mgr) < Left(s.mgr))
    || (|t.pending| == |s.pending| && Left(t.mgr) == Left(s.mgr) && PhaseRank(t, p) < PhaseRank(s, p))
  }

  lemma ServeCloser(s: System, a: Action, p: nat)
    requires Inv(s) && Enabled(s, a) && (a == Take || a == WaitRead || a == Copy)
    ensures Closer(s, Next(s, a), p)
  {
  }

  lemma SignalCloser(s: System, p: nat)
    requires Inv(s) && Enabled(s, Signal)
    ensures Closer(s, Next(s, Signal), p)
  {
    assert PortInv(s.ports[s.mgr.frame.port]);
    assert s.mgr.n > 0;
  }

  lemma WakeCloser(s: System, p: nat, q: nat)
    requires Inv(s) && Enabled(s, Wake(q))
    requires if s.mgr.Free? then q == p else s.mgr.Processing? && s.mgr.frame.port == q
    ensures Closer(s, Next(s, Wake(q)), p)
  {
  }

  lemma CallCloser(s: System, p: nat, q: nat, buf: seq<byte>)
    requires Inv(s) && Enabled(s, Call(q, buf)) && buf != []
    requires s.mgr.Processing? && s.mgr.frame.port == q
    ensures Closer(s, Next(s, Call(q, buf)), p)
  {
    assert PortInv(s.ports[q]);
  }

  function Blank(n: nat): (b: seq<byte>)
    ensures |b| == n
  {
    seq(n, _ => 0)
  }

  /** Short of quiescence some thread can do something useful, without any wait timing out. */
  lemma MoveOn(s: System, p: nat, limit: nat) returns (a: Action)
    requires Inv(s) && p in s.ports && !Quiescent(s, p)
    ensures Enabled(s, a) && a != TimeOut && InStep(s, a, p, limit) && Closer(s, Next(s, a), p)
  {
    match s.mgr
    case Copying(_, _, _, _) =>
      a := Copy;
      ServeCloser(s, a, p);
    case Signalling(_, _, _) =>
      a := Signal;
      SignalCloser(s, p);
    case Free =>
      if s.pending != [] {
        a := Take;
        ServeCloser(s, a, p);
      } else {
        a := Wake(p);
        WakeCloser(s, p, p);
      }
    case Processing(f, _) =>
      if s.ports[f.port].m.ready {
        a := WaitRead;
        ServeCloser(s, a, p);
      } else if s.ports[f.port].reader.Reading? {
        a := Wake(f.port);
        WakeCloser(s, p, f.port);
      } else {
        var buf := Blank(NextRead(s.ports[f.port].returned, limit));
        a := Call(f.port, buf);
        CallCloser(s, p, f.port, buf);
      }
  }

  /**
   From every state of a run the system can go on, with the handler reading as it does and no wait
   timing out, until it is quiescent.
   */
  lemma {:induction false} CanFinish(s: System, p: nat, limit: nat) returns (more: seq<Action>)
    requires Inv(s) && PbInv(s, p, limit) && PbFrames(Input(s), p, limit)
    ensures TimeOut !in more && PbDriven(s, more, p, limit)
    ensures Quiescent(Run(s, more), p) && PbInv(Run(s, more), p, limit) && Input(Run(s, more)) == Input(s)
    decreases |s.pending|, Left(s.mgr), PhaseRank(s, p)
  {
    if Quiescent(s, p) {
      more := [];
    } else {
      var a := MoveOn(s, p, limit);
      PbNext(s, a, p, limit);
      NextInput(s, a);
      var rest := CanFinish(Next(s, a), p, limit);
      more := [a] + rest;
      assert more[0] == a && more[1..] == rest;
    }
  }

  /** What a handler has received in a state of a run. */
  lemma PbDelivers(s: System, p: nat, limit: nat)
    requires Inv(s) && PbInv(s, p, limit) && PbFrames(Input(s), p, limit)
    ensures PbParse(s.ports[p].returned, limit) <= Messages(Input(s), p)
    ensures Quiescent(s, p) ==> PbParse(s.ports[p].returned, limit) == Messages(Input(s), p)
  {
    HandedFromStream(s, p);
    assert PortInv(s.ports[p]);
    ParsePrefixOfStream(Input(s), p, s.ports[p].returned, limit);
  }

  /** The handler can still receive every message, whatever has happened so far. */
  ghost predicate CanReceiveAll(s: System, p: nat, limit: nat, messages: seq<seq<byte>>)
    requires Inv(s)
  {
    exists more :: TimeOut !in more && PbDriven(s, more, p, limit) && Received(Run(s, more), p, limit, messages)
  }

  ghost predicate Received(s: System, p: nat, limit: nat, messages: seq<seq<byte>>) {
    p in s.ports && PbParse(s.ports[p].returned, limit) == messages
  }

  /**
   Message delivery: when the frames for a port are messages that fit its receive buffer, then in
   every interleaving in which no wait for its reader times out, no Read of the handler spans a frame,
   the messages received are a prefix of those addressed to the port, all of them once the system is
   quiescent, and all of them can still be received.
   */
  lemma MessageDelivery(frames: seq<Frame>, ports: set<nat>, actions: seq<Action>, p: nat, limit: nat)
    requires p in ports && NoTimeOutFor(Init(frames, ports), actions, p) && PbFrames(frames, p, limit)
    requires PbDriven(Init(frames, ports), actions, p, limit)
    ensures
      var s := Run(Init(frames, ports), actions);
      && p in s.ports && !Spanning(s, p)
      && PbParse(s.ports[p].returned, limit) <= Messages(frames, p)
      && (Quiescent(s, p) ==> PbParse(s.ports[p].returned, limit) == Messages(frames, p))
      && CanReceiveAll(s, p, limit, Messages(frames, p))
  {
    var s0 := Init(frames, ports);
    var s := Run(s0, actions);
    InitHolds(frames, ports, p);
    PbRun(s0, actions, p, limit);
    PbDelivers(s, p, limit);
    var more := CanFinish(s, p, limit);
    PbDelivers(Run(s, more), p, limit);
    assert Received(Run(s, more), p, limit, Messages(frames, p));
  }

  lemma ParsePrefixOfStream(frames: seq<Frame>, p: nat, returned: seq<byte>, limit: nat)
    requires PbFrames(frames, p, limit) && returned <= Stream(frames, p)
    ensures PbParse(returned, limit) <= Messages(frames, p)
    ensures PbParse(Stream(frames, p), limit) == Messages(frames, p)
  {
    StreamIsMessages(frames, p, limit);
    var stream := Stream(frames, p);
    assert stream == returned + stream[|returned|..];
    PbParseMonotone(returned, stream[|returned|..], limit);
    PbRoundTrip(Messages(frames, p), limit, []);
    assert PbEncodeAll(Messages(frames, p), limit) + [] == stream;
  }

  datatype Outgoing = Outgoing(port: nat, message: seq<byte>)

  ghost predicate AllOutgoing(out: seq<Outgoing>, limit: nat) {
    && limit + PB_HEADER_SIZE <= READ_BUFFER_SIZE
    && forall i :: 0 <= i < |out| ==> out[i].port < TWO_32 && |out[i].message| <= limit
  }

  /** What successive SendMessage calls on any ports write. */
  ghost function Framed(out: seq<Outgoing>, limit: nat): (fs: seq<Frame>)
    requires AllOutgoing(out, limit)
    ensures AllSendable(fs)
  {
    seq(|out|, i requires 0 <= i < |out| => Frame(out[i].port, PbEncode(out[i].message)))
  }

  ghost function SentTo(out: seq<Outgoing>, p: nat): seq<seq<byte>> {
    if out == [] then [] else
      var last := out[|out| - 1];
      SentTo(out[..|out| - 1], p) + if last.port == p then [last.message] else []
  }

  lemma {:induction false} FramedMessages(out: seq<Outgoing>, p: nat, limit: nat)
    requires AllOutgoing(out, limit)
    ensures PbFrames(Framed(out, limit), p, limit)
    ensures Messages(Framed(out, limit), p) == SentTo(out, p)
  {
    if out != [] {
      var init := out[..|out| - 1];
      FramedMessages(init, p, limit);
      assert Framed(out, limit)[..|out| - 1] == Framed(init, limit);
    }
  }

  /**
   From sender to receiver: any messages written to any ports of one transport arrive, at the
   handler of each port of the peer, unchanged and in order, for every way the threads interleave, and
   none of them is ever out of reach.
   */
  lemma {:induction false} MessageRoundTrip(digest: Digest, out: seq<Outgoing>, ports: set<nat>, actions: seq<Action>,
                                            p: nat, limit: nat)
    requires AllOutgoing(out, limit) && p in ports
    requires NoTimeOutFor(Init(Parse(EncodeAll(digest, Framed(out, limit))), ports), actions, p)
    requires PbDriven(Init(Parse(EncodeAll(digest, Framed(out, limit))), ports), actions, p, limit)
    ensures
      var s := Run(Init(Parse(EncodeAll(digest, Framed(out, limit))), ports), actions);
      && p in s.ports
      && PbParse(s.ports[p].returned, limit) <= SentTo(out, p)
      && (Quiescent(s, p) ==> PbParse(s.ports[p].returned, limit) == SentTo(out, p))
      && CanReceiveAll(s, p, limit, SentTo(out, p))
  {
    var frames := Framed(out, limit);
    var wire := EncodeAll(digest, frames);
    assert Parse(wire) == frames by {
      ParseEncodeAll(digest, frames, []);
      assert wire + [] == wire && frames + [] == frames;
    }
    FramedMessages(out, p, limit);
    MessageDelivery(frames, ports, actions, p, limit);
  }
}
