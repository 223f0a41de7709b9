/** What readers get, over whole runs of the channel protocol. */
module ChannelDelivery {
  import opened Bytes
  import opened Frames
  import opened Channels
  import opened ChannelProtocol

  /** All payloads addressed to a port, in order. */
  ghost function Stream(fs: seq<Frame>, p: nat): seq<byte> {
    if fs == [] then [] else
      var last := fs[|fs| - 1];
      Stream(fs[..|fs| - 1], p) + if last.port == p then last.payload else []
  }

  lemma {:induction false} StreamAppend(a: seq<Frame>, b: seq<Frame>, p: nat)
    ensures Stream(a + b, p) == Stream(a, p) + Stream(b, p)
  {
    if b == [] {
      assert a + b == a;
    } else {
      assert (a + b)[..|a + b| - 1] == a + b[..|b| - 1];
      StreamAppend(a, b[..|b| - 1], p);
    }
  }

  ghost predicate CountsInv(done: seq<Served>) {
    forall i :: 0 <= i < |done| ==> done[i].count <= |done[i].frame.payload|
  }

  /** What ProcessData handed to a port in the frames it is done with. */
  ghost function BytesServed(done: seq<Served>, p: nat): seq<byte>
    requires CountsInv(done)
  {
    if done == [] then [] else
      var last := done[|done| - 1];
      BytesServed(done[..|done| - 1], p) + if last.frame.port == p then last.frame.payload[..last.count] else []
  }

  /** What it handed to the port in the frame it is working on. */
  ghost function Current(s: System, p: nat): seq<byte>
    requires Inv(s)
  {
    if s.mgr.Free? || s.mgr.frame.port != p then [] else s.mgr.frame.payload[..s.mgr.k]
  }

  ghost function FramesDone(done: seq<Served>): seq<Frame> {
    seq(|done|, i requires 0 <= i < |done| => done[i].frame)
  }

  ghost function InHand(mgr: Manager): seq<Frame> {
    if mgr.Free? then [] else [mgr.frame]
  }

  /** Every frame of the connection: done, in hand, or to come. */
  ghost function Input(s: System): seq<Frame> {
    FramesDone(s.done) + InHand(s.mgr) + s.pending
  }

  ghost predicate History(s: System, p: nat)
    requires Inv(s)
  {
    && CountsInv(s.done)
    && if p in s.ports then s.ports[p].handed == BytesServed(s.done, p) + Current(s, p)
       else BytesServed(s.done, p) == []
  }

  lemma NextInput(s: System, a: Action)
    requires Inv(s) && Enabled(s, a)
    ensures Input(Next(s, a)) == Input(s)
  {
    var t := Next(s, a);
    if |t.done| == |s.done| + 1 {
      assert FramesDone(t.done) == FramesDone(s.done) + [t.done[|s.done|].frame];
    }
  }

  lemma ServeOne(done: seq<Served>, last: Served, p: nat)
    requires CountsInv(done) && last.count <= |last.frame.payload|
    ensures CountsInv(done + [last])
    ensures BytesServed(done + [last], p) ==
            BytesServed(done, p) + if last.frame.port == p then last.frame.payload[..last.count] else []
  {
    assert (done + [last])[..|done|] == done;
  }

  /** A frame dropped, or left, after k bytes that were handed over before. */
  lemma DoneHistory(s: System, t: System, f: Frame, k: nat, p: nat)
    requires Inv(s) && Inv(t) && History(s, p) && t.ports == s.ports && t.mgr.Free? && k <= |f.payload|
    requires t.done == s.done + [Served(f, k)]
    requires f.port == p ==> Current(s, p) == f.payload[..k]
    requires f.port != p ==> Current(s, p) == []
    ensures History(t, p)
  {
    ServeOne(s.done, Served(f, k), p);
  }

  lemma TakeHistory(s: System, p: nat)
    requires Inv(s) && Enabled(s, Take) && History(s, p)
    ensures Inv(Next(s, Take)) && History(Next(s, Take), p)
  {
    NextInv(s, Take);
    var t := Next(s, Take);
    if t.mgr.Free? {
      DoneHistory(s, t, s.pending[0], 0, p);
    }
  }

  lemma TimeOutHistory(s: System, p: nat)
    requires Inv(s) && Enabled(s, TimeOut) && History(s, p)
    ensures Inv(Next(s, TimeOut)) && History(Next(s, TimeOut), p)
  {
    NextInv(s, TimeOut);
    DoneHistory(s, Next(s, TimeOut), s.mgr.frame, s.mgr.k, p);
  }

  lemma HandOver(served: seq<byte>, payload: seq<byte>, k: nat, n: nat)
    requires k + n <= |payload|
    ensures served + payload[..k] + payload[k..k + n] == served + payload[..k + n]
  {
  }

  lemma SignalHistory(s: System, p: nat)
    requires Inv(s) && Enabled(s, Signal) && History(s, p)
    ensures Inv(Next(s, Signal)) && History(Next(s, Signal), p)
  {
    NextInv(s, Signal);
    var f, k, n := s.mgr.frame, s.mgr.k, s.mgr.n;
    var t := Next(s, Signal);
    HandOver(BytesServed(s.done, p), f.payload, k, n);
    if k + n == |f.payload| {
      ServeOne(s.done, Served(f, k + n), p);
      assert t.done == s.done + [Served(f, k + n)] && t.mgr.Free?;
    } else {
      assert t.done == s.done && t.mgr == Processing(f, k + n);
    }
  }

  lemma CreateHistory(s: System, q: nat, p: nat)
    requires Inv(s) && Enabled(s, CreateChannel(q)) && History(s, p)
    ensures Inv(Next(s, CreateChannel(q))) && History(Next(s, CreateChannel(q)), p)
  {
    NextInv(s, CreateChannel(q));
  }

  lemma ReaderHistory(s: System, a: Action, p: nat)
    requires Inv(s) && Enabled(s, a) && History(s, p)
    requires a.Call? || a.Wake? || a == WaitRead || a == Copy
    ensures Inv(Next(s, a)) && History(Next(s, a), p)
  {
    NextInv(s, a);
  }

  lemma {:induction false} NextHistory(s: System, a: Action, p: nat)
    requires Inv(s) && Enabled(s, a) && History(s, p)
    ensures Inv(Next(s, a)) && History(Next(s, a), p)
  {
    match a
    case CreateChannel(q) => CreateHistory(s, q, p);
    case Take => TakeHistory(s, p);
    case TimeOut => TimeOutHistory(s, p);
    case Signal => SignalHistory(s, p);
    case _ => ReaderHistory(s, a, p);
  }

  lemma {:induction false} RunHistory(s: System, actions: seq<Action>, p: nat)
    requires Inv(s) && History(s, p)
    ensures History(Run(s, actions), p)
    ensures Input(Run(s, actions)) == Input(s)
    decreases |actions|
  {
    if actions != [] {
      if Enabled(s, actions[0]) {
        NextHistory(s, actions[0], p);
        NextInput(s, actions[0]);
        RunHistory(Next(s, actions[0]), actions[1..], p);
      } else {
        RunHistory(s, actions[1..], p);
      }
    }
  }

  lemma InitHolds(frames: seq<Frame>, ports: set<nat>, p: nat)
    ensures History(Init(frames, ports), p)
    ensures Input(Init(frames, ports)) == frames
  {
    assert FramesDone([]) == [];
  }

  /**
   In every interleaving, time-outs included, the bytes of the Read calls that returned are a
   prefix of what was handed to the port: for each frame in order, a prefix of its payload.
   Nothing is reordered, repeated or taken from another port. A reader outside Read has all of it.
   */
  lemma Delivery(frames: seq<Frame>, ports: set<nat>, actions: seq<Action>, p: nat)
    requires p in Run(Init(frames, ports), actions).ports
    ensures
      var s := Run(Init(frames, ports), actions);
      && Input(s) == frames
      && CountsInv(s.done)
      && s.ports[p].returned <= s.ports[p].handed
      && s.ports[p].handed == BytesServed(s.done, p) + Current(s, p)
      && (s.ports[p].reader.Idle? ==> s.ports[p].returned == s.ports[p].handed)
  {
    InitHolds(frames, ports, p);
    RunHistory(Init(frames, ports), actions, p);
  }

  /** No frame for the port was given up half-way. */
  ghost predicate Whole(done: seq<Served>, p: nat) {
    forall i :: 0 <= i < |done| && done[i].frame.port == p ==> done[i].count == |done[i].frame.payload|
  }

  lemma {:induction false} WholeStream(done: seq<Served>, p: nat)
    requires CountsInv(done) && Whole(done, p)
    ensures BytesServed(done, p) == Stream(FramesDone(done), p)
  {
    if done != [] {
      var init := done[..|done| - 1];
      WholeStream(init, p);
      assert FramesDone(done)[..|done| - 1] == FramesDone(init);
    }
  }

  lemma WholeOneMore(done: seq<Served>, last: Served, p: nat)
    requires Whole(done, p) && (last.frame.port == p ==> last.count == |last.frame.payload|)
    ensures Whole(done + [last], p)
  {
  }

  /** A frame that is taken changes no port, and the manager is at its start or has dropped it. */
  lemma TakeElsewhere(s: System, p: nat)
    requires Inv(s) && Enabled(s, Take) && p in s.ports && Whole(s.done, p)
    ensures
      var t := Next(s, Take);
      t.ports == s.ports && Whole(t.done, p) && (t.mgr.Free? || (t.mgr.Processing? && t.mgr.k == 0))
  {
    var f := s.pending[0];
    if f.port !in s.ports || f.payload == [] {
      WholeOneMore(s.done, Served(f, 0), p);
    }
  }

  predicate ServesOther(s: System, a: Action, p: nat) {
    && (a == WaitRead || a == Copy || a == Signal || a == TimeOut)
    && !s.mgr.Free? && s.mgr.frame.port != p
  }

  /** Serving another port, or giving up on it, changes nothing for this one. */
  lemma ServeElsewhere(s: System, a: Action, p: nat)
    requires Inv(s) && Enabled(s, a) && ServesOther(s, a, p) && p in s.ports && Whole(s.done, p)
    ensures
      var t := Next(s, a);
      && p in t.ports && t.ports[p] == s.ports[p] && Whole(t.done, p)
      && (t.mgr.Free? || t.mgr.frame.port != p)
  {
    if a == TimeOut {
      WholeOneMore(s.done, Served(s.mgr.frame, s.mgr.k), p);
    } else if a == Signal {
      WholeOneMore(s.done, Served(s.mgr.frame, s.mgr.k + s.mgr.n), p);
    }
  }

  /** Signalling on a port finishes a frame only when all of it was handed over. */
  lemma SignalWhole(s: System, p: nat)
    requires Inv(s) && Enabled(s, Signal) && p in s.ports && s.mgr.frame.port == p && Whole(s.done, p)
    ensures p in Next(s, Signal).ports && Whole(Next(s, Signal).done, p)
    ensures Next(s, Signal).mgr == if s.mgr.k + s.mgr.n < |s.mgr.frame.payload|
                                   then Processing(s.mgr.frame, s.mgr.k + s.mgr.n) else Free
  {
    WholeOneMore(s.done, Served(s.mgr.frame, |s.mgr.frame.payload|), p);
  }

  lemma NextWhole(s: System, a: Action, p: nat)
    requires Inv(s) && Enabled(s, a) && p in s.ports && Whole(s.done, p)
    requires a == TimeOut ==> s.mgr.frame.port != p
    ensures p in Next(s, a).ports && Whole(Next(s, a).done, p)
  {
    if a == Take {
      TakeElsewhere(s, p);
    } else if ServesOther(s, a, p) {
      ServeElsewhere(s, a, p);
    } else if a == Signal {
      SignalWhole(s, p);
    }
  }

  /** The manager's wait for the reader of the port never times out; others may. */
  ghost predicate NoTimeOutFor(s: System, actions: seq<Action>, p: nat)
    requires Inv(s)
    decreases |actions|
  {
    actions == [] ||
    if !Enabled(s, actions[0]) then NoTimeOutFor(s, actions[1..], p)
    else
      NextInv(s, actions[0]);
      (actions[0] == TimeOut ==> s.mgr.frame.port != p) && NoTimeOutFor(Next(s, actions[0]), actions[1..], p)
  }

  lemma {:induction false} RunWhole(s: System, actions: seq<Action>, p: nat)
    requires Inv(s) && p in s.ports && Whole(s.done, p)
    requires NoTimeOutFor(s, actions, p)
    ensures p in Run(s, actions).ports && Whole(Run(s, actions).done, p)
    decreases |actions|
  {
    if actions != [] {
      if Enabled(s, actions[0]) {
        NextInv(s, actions[0]);
        NextWhole(s, actions[0], p);
        RunWhole(Next(s, actions[0]), actions[1..], p);
      } else {
        RunWhole(s, actions[1..], p);
      }
    }
  }

  /**
   For a channel that exists from the start and on which no wait times out, what is handed over is
   always a prefix of the port's stream of payloads, and all of it once the manager has no frame
   left. So successive Reads return exactly the port's stream, cut where the reader chose.
   */
  lemma StreamDelivery(frames: seq<Frame>, ports: set<nat>, actions: seq<Action>, p: nat)
    requires p in ports && NoTimeOutFor(Init(frames, ports), actions, p)
    ensures
      var s := Run(Init(frames, ports), actions);
      && p in s.ports
      && s.ports[p].returned <= s.ports[p].handed <= Stream(frames, p)
      && (s.ports[p].reader.Idle? ==> s.ports[p].returned == s.ports[p].handed)
      && (s.mgr.Free? && s.pending == [] ==> s.ports[p].handed == Stream(frames, p))
  {
    var s0 := Init(frames, ports);
    InitHolds(frames, ports, p);
    RunHistory(s0, actions, p);
    RunWhole(s0, actions, p);
    HandedFromStream(Run(s0, actions), p);
  }

  lemma HandedFromStream(s: System, p: nat)
    requires Inv(s) && p in s.ports && History(s, p) && Whole(s.done, p)
    ensures s.ports[p].handed <= Stream(Input(s), p)
    ensures s.mgr.Free? && s.pending == [] ==> s.ports[p].handed == Stream(Input(s), p)
  {
    WholeStream(s.done, p);
    StreamOne(s.mgr, p);
    CurrentFromStream(FramesDone(s.done), InHand(s.mgr), s.pending, Current(s, p), p);
  }

  lemma CurrentFromStream(done: seq<Frame>, inHand: seq<Frame>, pending: seq<Frame>, current: seq<byte>, p: nat)
    requires current <= Stream(inHand, p)
    ensures Stream(done, p) + current <= Stream(done + inHand + pending, p)
    ensures inHand == [] && pending == [] ==> Stream(done, p) + current == Stream(done + inHand + pending, p)
  {
    StreamOfInput(done, inHand, pending, p);
    PrefixOfAll(Stream(done, p), current, Stream(inHand, p), Stream(pending, p));
  }

  lemma StreamOfInput(done: seq<Frame>, inHand: seq<Frame>, pending: seq<Frame>, p: nat)
    ensures Stream(done + inHand + pending, p) == Stream(done, p) + Stream(inHand, p) + Stream(pending, p)
  {
    StreamAppend(done + inHand, pending, p);
    StreamAppend(done, inHand, p);
  }

  lemma PrefixOfAll(served: seq<byte>, current: seq<byte>, inHand: seq<byte>, rest: seq<byte>)
    requires current <= inHand
    ensures served + current <= served + inHand + rest
    ensures inHand == [] && rest == [] ==> served + current == served + inHand + rest
  {
  }

  lemma StreamOne(mgr: Manager, p: nat)
    ensures Stream(InHand(mgr), p) == if mgr.Free? || mgr.frame.port != p then [] else mgr.frame.payload
  {
    if !mgr.Free? {
      assert InHand(mgr)[..0] == [];
    }
  }

  /** The reader of the port has been, or is being, handed fewer bytes than it asked for. */
  predicate Spanning(s: System, p: nat) {
    && p in s.ports
    && s.ports[p].reader.Reading?
    && var ps := s.ports[p];
       Stuck(ps.m, |ps.reader.buf|) ||
       ((s.mgr.Copying? || s.mgr.Signalling?) && s.mgr.frame.port == p && s.mgr.n < |ps.reader.buf|)
  }

  lemma SpanningServe(s: System, a: Action, p: nat)
    requires Inv(s) && Enabled(s, a) && Spanning(s, p)
    requires (a == WaitRead || a == Copy || a == Signal) && s.mgr.frame.port == p
    ensures Spanning(Next(s, a), p)
    ensures Next(s, a).ports[p].returned == s.ports[p].returned
  {
  }

  lemma SpanningReader(s: System, a: Action, p: nat)
    requires Inv(s) && Enabled(s, a) && Spanning(s, p)
    requires a.CreateChannel? || a.Call? || a.Wake? || a == Take || a == TimeOut || ServesOther(s, a, p)
    ensures Spanning(Next(s, a), p)
    ensures Next(s, a).ports[p].returned == s.ports[p].returned
  {
  }

  lemma SpanningStep(s: System, a: Action, p: nat)
    requires Inv(s) && Enabled(s, a) && Spanning(s, p)
    ensures Spanning(Next(s, a), p)
    ensures Next(s, a).ports[p].returned == s.ports[p].returned
  {
    if (a == WaitRead || a == Copy || a == Signal) && s.mgr.frame.port == p {
      SpanningServe(s, a, p);
    } else {
      SpanningReader(s, a, p);
    }
  }

  lemma {:induction false} SpanningForever(s: System, actions: seq<Action>, p: nat)
    requires Inv(s) && Spanning(s, p)
    ensures Spanning(Run(s, actions), p)
    ensures Run(s, actions).ports[p].returned == s.ports[p].returned
    decreases |actions|
  {
    if actions != [] {
      if Enabled(s, actions[0]) {
        SpanningStep(s, actions[0], p);
        NextInv(s, actions[0]);
        SpanningForever(Next(s, actions[0]), actions[1..], p);
      } else {
        SpanningForever(s, actions[1..], p);
      }
    }
  }

  /** A reader that the manager, k bytes into a frame for its port, is about to serve first. */
  predicate AboutToServe(s: System, p: nat) {
    && s.mgr.Processing? && s.mgr.frame.port == p
    && p in s.ports && s.ports[p].reader.Reading?
    && s.ports[p].m == Monitor(true, s.ports[p].m.closed, 0, |s.ports[p].reader.buf|)
  }

  ghost predicate CanReturn(s: System, p: nat)
    requires Inv(s)
  {
    exists actions :: p in Run(s, actions).ports && Run(s, actions).ports[p].reader.Idle?
  }

  lemma RunThree(s: System, a: Action, b: Action, c: Action)
    requires Inv(s) && Enabled(s, a)
    requires Inv(Next(s, a)) && Enabled(Next(s, a), b)
    requires Inv(Next(Next(s, a), b)) && Enabled(Next(Next(s, a), b), c)
    ensures Run(s, [a, b, c]) == Next(Next(Next(s, a), b), c)
  {
    var s1, s2 := Next(s, a), Next(Next(s, a), b);
    assert [a, b, c][1..] == [b, c] && [b, c][1..] == [c] && [c][1..] == [];
    assert Run(s, [a, b, c]) == Run(s1, [b, c]);
    assert Run(s1, [b, c]) == Run(s2, [c]);
    NextInv(s2, c);
    assert Run(s2, [c]) == Run(Next(s2, c), []);
  }

  lemma ServeWhole(s: System, p: nat)
    requires Inv(s) && AboutToServe(s, p)
    requires |s.ports[p].reader.buf| <= |s.mgr.frame.payload| - s.mgr.k
    ensures Inv(Next(s, WaitRead))
    ensures
      var t := Run(Next(s, WaitRead), [Copy, Signal, Wake(p)]);
      && p in t.ports
      && t.ports[p].reader.Idle?
      && t.ports[p].returned ==
         s.ports[p].returned + s.mgr.frame.payload[s.mgr.k..s.mgr.k + |s.ports[p].reader.buf|]
  {
    var chunk := s.mgr.frame.payload[s.mgr.k..s.mgr.k + |s.ports[p].reader.buf|];
    NextInv(s, WaitRead);
    var s1 := Next(s, WaitRead);
    NextInv(s1, Copy);
    var s2 := Next(s1, Copy);
    assert s2.ports[p].reader == Reading(chunk);
    NextInv(s2, Signal);
    var s3 := Next(s2, Signal);
    assert s3.ports[p].reader == Reading(chunk) && s3.ports[p].m.len == |chunk|;
    RunThree(s1, Copy, Signal, Wake(p));
  }

  /**
   A Read can return if and only if it asks for no more than is left of the frame it is served
   from. One that spans a frame boundary blocks in every continuation, until the epoch ends.
   */
  lemma ReadReturnsIffItFits(s: System, p: nat)
    requires Inv(s) && AboutToServe(s, p)
    ensures Inv(Next(s, WaitRead))
    ensures CanReturn(Next(s, WaitRead), p) <==> |s.ports[p].reader.buf| <= |s.mgr.frame.payload| - s.mgr.k
  {
    var t := Next(s, WaitRead);
    NextInv(s, WaitRead);
    if |s.ports[p].reader.buf| <= |s.mgr.frame.payload| - s.mgr.k {
      ServeWhole(s, p);
    } else {
      forall actions ensures Spanning(Run(t, actions), p) {
        SpanningForever(t, actions, p);
      }
    }
  }
}
