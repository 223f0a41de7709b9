/**
 One connection epoch of the channel protocol as atomic steps: the manager thread serving parsed
 frames, any number of reader threads, and the monitors between them, in any interleaving.
 */
module ChannelProtocol {
  import opened Bytes
  import opened Frames
  import opened Channels

  const MAX_CHANNELS: nat := 4

  /** A thread that uses a channel: outside Read, or inside it with its buffer. */
  datatype Reader = Idle | Reading(buf: seq<byte>)

  /** `returned` and `handed` are histories: what Read calls returned, what the manager supplied. */
  datatype Port = Port(m: Monitor, reader: Reader, returned: seq<byte>, handed: seq<byte>)

  /** Where the manager thread is in ProcessData. */
  datatype Manager =
    | Free
    | Processing(frame: Frame, k: nat)
    | Copying(frame: Frame, k: nat, pos: nat, n: nat)
    | Signalling(frame: Frame, k: nat, n: nat)

  /** A frame ProcessData is done with, and how many of its bytes it handed over. */
  datatype Served = Served(frame: Frame, count: nat)

  datatype System = System(pending: seq<Frame>, mgr: Manager, ports: map<nat, Port>, done: seq<Served>)

  datatype Action =
    | CreateChannel(port: nat)
    | Call(port: nat, buf: seq<byte>)
    | Wake(port: nat)
    | Take
    | WaitRead
    | TimeOut
    | Copy
    | Signal

  const NEW_PORT := Port(Monitor(false, false, 0, 0), Idle, [], [])

  /** A connection with the frames to come and the channels created before it was made. */
  function Init(frames: seq<Frame>, ports: set<nat>): (s: System)
    ensures Inv(s)
  {
    System(frames, Free, map p | p in ports :: NEW_PORT, [])
  }

  predicate Enabled(s: System, a: Action) {
    match a
    case CreateChannel(p) => p !in s.ports && |s.ports| < MAX_CHANNELS
    case Call(p, buf) => p in s.ports && s.ports[p].reader.Idle?
    case Wake(p) => p in s.ports && s.ports[p].reader.Reading? && !s.ports[p].m.ready
    case Take => s.mgr.Free? && s.pending != []
    case WaitRead => s.mgr.Processing? && s.mgr.frame.port in s.ports && s.ports[s.mgr.frame.port].m.ready
    case TimeOut => s.mgr.Processing? && s.mgr.frame.port in s.ports && !s.ports[s.mgr.frame.port].m.ready
    case Copy =>
      && s.mgr.Copying?
      && s.mgr.frame.port in s.ports
      && s.ports[s.mgr.frame.port].reader.Reading?
    case Signal => s.mgr.Signalling? && s.mgr.frame.port in s.ports
  }

  /** What holds of a port in every reachable state, whoever is about to move. */
  predicate PortInv(ps: Port) {
    match ps.reader
    case Idle => !ps.m.ready && ps.handed == ps.returned
    case Reading(buf) =>
      && buf != []
      && if Stuck(ps.m, |buf|) then ps.returned <= ps.handed
         else ps.m.len == |buf| && if ps.m.ready then ps.m.pos == 0 && ps.handed == ps.returned
                                   else ps.handed == ps.returned + buf
  }

  /** The manager has seen the reader's request and will honour as much of it as the frame allows. */
  predicate Serving(ps: Port, f: Frame, k: nat, pos: nat, n: nat) {
    && ps.reader.Reading?
    && ps.m.ready
    && pos == ps.m.pos
    && k < |f.payload|
    && n == Min(ps.m.len, |f.payload| - k)
  }

  predicate ManagerInv(mgr: Manager, ports: map<nat, Port>) {
    match mgr
    case Free => true
    case Processing(f, k) => f.port in ports && k < |f.payload|
    case Copying(f, k, pos, n) => f.port in ports && Serving(ports[f.port], f, k, pos, n)
    case Signalling(f, k, n) =>
      && f.port in ports
      && var ps := ports[f.port];
      && Serving(ps, f, k, ps.m.pos, n)
      && ps.m.pos + n <= |ps.reader.buf|
      && ps.reader.buf[ps.m.pos..ps.m.pos + n] == f.payload[k..k + n]
  }

  predicate Inv(s: System) {
    && (forall p <- s.ports :: PortInv(s.ports[p]))
    && ManagerInv(s.mgr, s.ports)
  }

  function StartRead(ps: Port, buf: seq<byte>): Port {
    if buf == [] then ps.(m := Enter(ps.m, 0)) else ps.(m := Enter(ps.m, |buf|), reader := Reading(buf))
  }

  function WakeReader(ps: Port): Port
    requires ps.reader.Reading?
  {
    if ps.m.len < |ps.reader.buf| then ps.(m := Ask(ps.m, |ps.reader.buf|))
    else ps.(reader := Idle, returned := ps.returned + ps.reader.buf)
  }

  function TakeFrame(s: System): System
    requires s.mgr.Free? && s.pending != []
  {
    var f := s.pending[0];
    if f.port !in s.ports || f.payload == [] then s.(pending := s.pending[1..], done := s.done + [Served(f, 0)])
    else s.(pending := s.pending[1..], mgr := Processing(f, 0))
  }

  /** After `k` bytes of its frame, ProcessData goes on or is done with the frame. */
  function Continue(s: System, f: Frame, k: nat): System {
    if k < |f.payload| then s.(mgr := Processing(f, k))
    else s.(mgr := Free, done := s.done + [Served(f, k)])
  }

  function Next(s: System, a: Action): System
    requires Inv(s) && Enabled(s, a)
  {
    match a
    case CreateChannel(p) => s.(ports := s.ports[p := NEW_PORT])
    case Call(p, buf) => s.(ports := s.ports[p := StartRead(s.ports[p], buf)])
    case Wake(p) => s.(ports := s.ports[p := WakeReader(s.ports[p])])
    case Take => TakeFrame(s)
    case WaitRead =>
      var f, k, m := s.mgr.frame, s.mgr.k, s.ports[s.mgr.frame.port].m;
      s.(mgr := Copying(f, k, m.pos, Min(m.len, |f.payload| - k)))
    case TimeOut => s.(mgr := Free, done := s.done + [Served(s.mgr.frame, s.mgr.k)])
    case Copy =>
      var f, k, n := s.mgr.frame, s.mgr.k, s.mgr.n;
      var ps := s.ports[f.port];
      var buf := Overwrite(ps.reader.buf, s.mgr.pos, f.payload[k..k + n]);
      s.(mgr := Signalling(f, k, n), ports := s.ports[f.port := ps.(reader := Reading(buf))])
    case Signal =>
      var f, k, n := s.mgr.frame, s.mgr.k, s.mgr.n;
      var ps := s.ports[f.port];
      var ps' := ps.(m := Done(ps.m, n), handed := ps.handed + f.payload[k..k + n]);
      Continue(s.(ports := s.ports[f.port := ps']), f, k + n)
  }

  /** A port the manager serves keeps its invariant when the manager copies... */
  lemma CopyPortInv(ps: Port, f: Frame, k: nat, pos: nat, n: nat)
    requires PortInv(ps) && Serving(ps, f, k, pos, n)
    ensures pos + n <= |ps.reader.buf|
    ensures
      var copied := ps.(reader := Reading(Overwrite(ps.reader.buf, pos, f.payload[k..k + n])));
      PortInv(copied) && Serving(copied, f, k, pos, n)
  {
  }

  /** ...and when it signals what it has copied. */
  lemma SignalPortInv(ps: Port, chunk: seq<byte>)
    requires PortInv(ps) && ps.reader.Reading? && ps.m.ready
    requires 0 < |chunk| <= ps.m.len && ps.m.pos + |chunk| <= |ps.reader.buf|
    requires ps.reader.buf[ps.m.pos..ps.m.pos + |chunk|] == chunk
    ensures PortInv(ps.(m := Done(ps.m, |chunk|), handed := ps.handed + chunk))
  {
    if !Stuck(ps.m, |ps.reader.buf|) && |chunk| == |ps.reader.buf| {
      assert ps.reader.buf[0..|chunk|] == ps.reader.buf;
    }
  }

  lemma ReaderInv(ps: Port, buf: seq<byte>)
    requires PortInv(ps)
    ensures ps.reader.Idle? ==> PortInv(StartRead(ps, buf))
    ensures ps.reader.Reading? && !ps.m.ready ==> PortInv(WakeReader(ps))
  {
  }

  lemma UpdatePortInv(s: System, p: nat, ps: Port)
    requires forall q <- s.ports :: q != p ==> PortInv(s.ports[q])
    requires ManagerInv(s.mgr, s.ports) && PortInv(ps)
    requires s.mgr.Free? || s.mgr.Processing? || s.mgr.frame.port != p
    ensures Inv(s.(ports := s.ports[p := ps]))
  {
  }

  lemma ContinueInv(s: System, f: Frame, k: nat)
    requires Inv(s.(mgr := Free)) && f.port in s.ports
    ensures Inv(Continue(s, f, k))
  {
  }

  lemma CopyInv(s: System)
    requires Inv(s) && Enabled(s, Copy)
    ensures Inv(Next(s, Copy))
  {
    var ps, mgr := s.ports[s.mgr.frame.port], s.mgr;
    CopyPortInv(ps, mgr.frame, mgr.k, mgr.pos, mgr.n);
    var buf := Overwrite(ps.reader.buf, mgr.pos, mgr.frame.payload[mgr.k..mgr.k + mgr.n]);
    UpdatePortInv(s.(mgr := Free), mgr.frame.port, ps.(reader := Reading(buf)));
  }

  lemma SignalInv(s: System)
    requires Inv(s) && Enabled(s, Signal)
    ensures Inv(Next(s, Signal))
  {
    var ps, f, k, n := s.ports[s.mgr.frame.port], s.mgr.frame, s.mgr.k, s.mgr.n;
    SignalPortInv(ps, f.payload[k..k + n]);
    var ps' := ps.(m := Done(ps.m, n), handed := ps.handed + f.payload[k..k + n]);
    UpdatePortInv(s.(mgr := Free), f.port, ps');
    ContinueInv(s.(ports := s.ports[f.port := ps']), f, k + n);
  }

  lemma {:induction false} NextInv(s: System, a: Action)
    requires Inv(s) && Enabled(s, a)
    ensures Inv(Next(s, a))
  {
    match a
    case CreateChannel(p) => UpdatePortInv(s, p, NEW_PORT);
    case Call(p, buf) =>
      ReaderInv(s.ports[p], buf);
      UpdatePortInv(s, p, StartRead(s.ports[p], buf));
    case Wake(p) =>
      ReaderInv(s.ports[p], []);
      UpdatePortInv(s, p, WakeReader(s.ports[p]));
    case Take =>
    case WaitRead =>
    case TimeOut =>
    case Copy => CopyInv(s);
    case Signal => SignalInv(s);
  }

  /** Steps that are not enabled leave the state alone, so a list of actions is an interleaving. */
  function Run(s: System, actions: seq<Action>): (t: System)
    requires Inv(s)
    ensures Inv(t)
    decreases |actions|
  {
    if actions == [] then s
    else if !Enabled(s, actions[0]) then Run(s, actions[1..])
    else
      NextInv(s, actions[0]);
      Run(Next(s, actions[0]), actions[1..])
  }

  /** Up to four channels can be created, each once, and none disturbs the others. */
  lemma NewChannel(s: System, p: nat, q: nat)
    requires Inv(s)
    ensures Enabled(s, CreateChannel(p)) <==> p !in s.ports && |s.ports| < 4
    ensures Enabled(s, CreateChannel(p)) ==>
      && p in Next(s, CreateChannel(p)).ports && Next(s, CreateChannel(p)).ports[p].reader.Idle?
      && (q in s.ports ==> q in Next(s, CreateChannel(p)).ports && Next(s, CreateChannel(p)).ports[q] == s.ports[q])
  {
  }

  /** With a frame in hand the manager can always move on without waiting for any reader's step. */
  lemma ManagerNeverStuck(s: System)
    requires Inv(s) && !s.mgr.Free?
    ensures Enabled(s, WaitRead) || Enabled(s, TimeOut) || Enabled(s, Copy) || Enabled(s, Signal)
    ensures s.mgr.Processing? ==> (Enabled(s, TimeOut) <==> !s.ports[s.mgr.frame.port].m.ready)
  {
    assert s.mgr.frame.port in s.ports;
  }
}
