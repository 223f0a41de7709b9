/** The secure channel of the SM client: when it is set up, and which certificate it uses. */
module SMClients {
  import opened Common

  /** Where the channel thread is; the mutex is held exactly in the SetUp phases. */
  datatype Phase =
    | Release       // about to clear the certificate flag
    | Releasing     // stopping the handler, deleting the channel, unsubscribing
    | WaitReady     // waiting for synced clock and provisioned node
    | SetUpSubscribe
    | SetUpLoad
    | SetUpStart
    | Retry         // waiting after a failed set-up
    | Connected     // waiting for a reason to reconnect
    | Exited

  /**
   `subscribed` is whether the certificate handler will notify the client, `current` the version of
   the certificate it has, `inFlight` the notifications sent but not delivered, `loaded` the version
   in the installed TLS configuration, and `deliveredSince` whether a notification was delivered
   after that was loaded.
   */
  datatype Client = Client(
    phase: Phase, clockSynced: bool, provisioned: bool, close: bool, certificateChanged: bool, started: bool,
    subscribed: bool, current: nat, inFlight: nat, loaded: nat, deliveredSince: bool)

  datatype Event =
    | ClockSynced(synced: bool)
    | StatusChanged(provisioned: bool)
    | Close
    | UpdateCert                  // the certificate handler gets a new certificate
    | DeliverCert                 // OnCertChanged
    | Step(ok: bool, gone: bool)  // the channel thread moves on; `ok` is whether what it calls succeeds

  const INITIAL := Client(Release, false, false, false, false, false, false, 0, 0, 0, false)

  predicate Locked(c: Client) {
    c.phase.SetUpSubscribe? || c.phase.SetUpLoad? || c.phase.SetUpStart?
  }

  predicate Enabled(c: Client, e: Event) {
    match e
    case ClockSynced(_) => !Locked(c)
    case StatusChanged(_) => !Locked(c)
    case Close => !Locked(c)
    case UpdateCert => true
    case DeliverCert => !Locked(c) && c.inFlight > 0
    case Step(_, _) =>
      match c.phase
      case WaitReady => (c.clockSynced && c.provisioned) || c.close
      case Connected => !c.clockSynced || !c.provisioned || c.close || c.certificateChanged
      case Exited => false
      case _ => true
  }

  /** The thread's next step. In Releasing, `gone` is whether it got as far as unsubscribing. */
  function ThreadStep(c: Client, ok: bool, gone: bool): Client {
    match c.phase
    case Release => c.(phase := Releasing, certificateChanged := false)
    case Releasing =>
      if !c.started then c.(phase := WaitReady)
      else c.(phase := WaitReady, started := false, subscribed := c.subscribed && !gone)
    case WaitReady => c.(phase := if c.close then Exited else SetUpSubscribe)
    case SetUpSubscribe =>
      if ok then c.(phase := SetUpLoad, subscribed := true) else c.(phase := Retry)
    case SetUpLoad =>
      if ok then c.(phase := SetUpStart, loaded := c.current, deliveredSince := false) else c.(phase := Retry)
    case SetUpStart => if ok then c.(phase := Connected, started := true) else c.(phase := Retry)
    case Retry => c.(phase := Release)
    case Connected => c.(phase := Release)
    case Exited => c
  }

  function Next(c: Client, e: Event): Client {
    match e
    case ClockSynced(synced) => c.(clockSynced := synced)
    case StatusChanged(provisioned) => c.(provisioned := provisioned)
    case Close => c.(close := true)
    case UpdateCert => c.(current := c.current + 1, inFlight := if c.subscribed then c.inFlight + 1 else c.inFlight)
    case DeliverCert =>
      if c.inFlight == 0 then c
      else c.(certificateChanged := true, inFlight := c.inFlight - 1, deliveredSince := true)
    case Step(ok, gone) => ThreadStep(c, ok, gone)
  }

  function Run(c: Client, events: seq<Event>): Client
    decreases |events|
  {
    if events == [] then c else Run(if Enabled(c, events[0]) then Next(c, events[0]) else c, events[1..])
  }

  /** What is loaded is up to date, or the client will be told, or has been told. */
  ghost predicate Covered(c: Client) {
    c.subscribed && (c.loaded == c.current || c.inFlight > 0 || c.certificateChanged)
  }

  ghost predicate Inv(c: Client) {
    && c.loaded <= c.current
    && (Locked(c) ==> c.clockSynced && c.provisioned && !c.close)
    && (c.phase.SetUpLoad? ==> c.subscribed)
    && (c.phase.SetUpStart? || c.phase.Connected? ==> Covered(c))
    && (c.phase.Connected? && c.deliveredSince ==> c.certificateChanged)
    && (c.phase.SetUpStart? ==> !c.deliveredSince)
  }

  lemma SetUpStepInv(c: Client, ok: bool, gone: bool)
    requires Inv(c) && Locked(c)
    ensures Inv(ThreadStep(c, ok, gone))
  {
  }

  lemma StepInv(c: Client, ok: bool, gone: bool)
    requires Inv(c) && Enabled(c, Step(ok, gone))
    ensures Inv(ThreadStep(c, ok, gone))
  {
    if Locked(c) {
      SetUpStepInv(c, ok, gone);
    }
  }

  lemma CallbackInv(c: Client, e: Event)
    requires Inv(c) && Enabled(c, e) && !e.Step?
    ensures Inv(Next(c, e))
  {
  }

  lemma {:induction false} RunInv(c: Client, events: seq<Event>)
    requires Inv(c)
    ensures Inv(Run(c, events))
    decreases |events|
  {
    if events != [] {
      var e := events[0];
      if !Enabled(c, e) {
        RunInv(c, events[1..]);
      } else {
        if e.Step? {
          StepInv(c, e.ok, e.gone);
        } else {
          CallbackInv(c, e);
        }
        RunInv(Next(c, e), events[1..]);
      }
    }
  }

  /**
   No certificate change is lost: when the channel thread is blocked in its connected wait, the client
   is subscribed, the TLS configuration was loaded after the last notification delivered, and it holds
   the current certificate unless a notification is still on its way.
   */
  lemma NoLostCertificateChange(events: seq<Event>)
    ensures
      var c := Run(INITIAL, events);
      c.phase.Connected? && !Enabled(c, Step(true, true)) ==>
        c.subscribed && !c.deliveredSince && (c.loaded == c.current || c.inFlight > 0)
  {
    RunInv(INITIAL, events);
  }

  /** The channel is only ever set up with the clock synced, the node provisioned and the client open. */
  lemma SetUpOnlyWhenReady(events: seq<Event>)
    ensures
      var c := Run(INITIAL, events);
      Locked(c) ==> c.clockSynced && c.provisioned && !c.close
  {
    RunInv(INITIAL, events);
  }

  /**
   A connected channel does not stay when it must not: with the clock unsynced, the node unprovisioned,
   the client closing, or a certificate change noticed, the thread's next step leaves the connected wait.
   */
  lemma LeavesConnected(events: seq<Event>, ok: bool, gone: bool)
    requires Run(INITIAL, events).phase.Connected?
    ensures
      var c := Run(INITIAL, events);
      !c.clockSynced || !c.provisioned || c.close || c.certificateChanged ==>
        Enabled(c, Step(ok, gone)) && Next(c, Step(ok, gone)).phase == Release
  {
  }

  lemma StepKeepsFlags(c: Client, ok: bool, gone: bool)
    ensures ThreadStep(c, ok, gone).clockSynced == c.clockSynced
    ensures ThreadStep(c, ok, gone).provisioned == c.provisioned
    ensures ThreadStep(c, ok, gone).close == c.close
  {
    match c.phase
    case Releasing =>
    case SetUpSubscribe =>
    case SetUpLoad =>
    case SetUpStart =>
    case _ =>
  }

  /** The callbacks set one flag each, and only they set it; a closed client stays closed. */
  lemma FlagsFollowCallbacks(c: Client, e: Event)
    requires Enabled(c, e)
    ensures Next(c, e).clockSynced == if e.ClockSynced? then e.synced else c.clockSynced
    ensures Next(c, e).provisioned == if e.StatusChanged? then e.provisioned else c.provisioned
    ensures Next(c, e).close == (c.close || e.Close?)
    ensures e.DeliverCert? ==> Next(c, e).certificateChanged
  {
    if e.Step? {
      StepKeepsFlags(c, e.ok, e.gone);
    }
  }

  /** The thread's steps from here to the connected wait, when everything succeeds. */
  function Distance(phase: Phase): nat {
    match phase
    case Connected => 0
    case SetUpStart => 1
    case SetUpLoad => 2
    case SetUpSubscribe => 3
    case WaitReady => 4
    case Releasing => 5
    case Release => 6
    case Retry => 7
    case Exited => 0
  }

  function Steps(n: nat): seq<Event> {
    if n == 0 then [] else [Step(true, true)] + Steps(n - 1)
  }

  lemma ReadyStep(c: Client)
    requires c.clockSynced && c.provisioned && !c.close && Distance(c.phase) > 0
    ensures Enabled(c, Step(true, true))
    ensures
      var d := Next(c, Step(true, true));
      && d.clockSynced && d.provisioned && !d.close && !d.phase.Exited?
      && Distance(d.phase) == Distance(c.phase) - 1
      && d.current == c.current
      && (c.phase.SetUpStart? ==> d.started && d.loaded == c.loaded)
      && (c.phase.SetUpLoad? ==> d.loaded == d.current)
  {
    StepKeepsFlags(c, true, true);
  }

  /** A client that is ready comes up when what it calls succeeds, with the current certificate. */
  lemma {:induction false} ComesUp(c: Client)
    requires c.clockSynced && c.provisioned && !c.close && !c.phase.Exited?
    ensures
      var d := Run(c, Steps(Distance(c.phase)));
      && d.phase.Connected?
      && (!c.phase.Connected? ==> d.started)
      && (Distance(c.phase) > 1 ==> d.loaded == d.current)
      && (c.phase.SetUpStart? ==> d.loaded == c.loaded) && d.current == c.current
    decreases Distance(c.phase)
  {
    if Distance(c.phase) > 0 {
      var events := Steps(Distance(c.phase));
      assert events[0] == Step(true, true) && events[1..] == Steps(Distance(c.phase) - 1);
      ReadyStep(c);
      ComesUp(Next(c, events[0]));
    }
  }

  /** The thread's steps from here to its end, once the client is closed. */
  function StepsToExit(phase: Phase): nat {
    match phase
    case Exited => 0
    case WaitReady => 1
    case Releasing => 2
    case Release => 3
    case Connected => 4
    case Retry => 4
    case SetUpStart => 5
    case SetUpLoad => 6
    case SetUpSubscribe => 7
  }

  lemma ClosedStep(c: Client)
    requires c.close && !c.phase.Exited?
    ensures Enabled(c, Step(true, true))
    ensures Next(c, Step(true, true)).close
    ensures StepsToExit(Next(c, Step(true, true)).phase) == StepsToExit(c.phase) - 1
  {
    StepKeepsFlags(c, true, true);
  }

  /** A closed client goes down, from wherever its thread is. */
  lemma {:induction false} GoesDown(c: Client)
    requires c.close
    ensures Run(c, Steps(StepsToExit(c.phase))).phase.Exited?
    decreases StepsToExit(c.phase)
  {
    if StepsToExit(c.phase) > 0 {
      var events := Steps(StepsToExit(c.phase));
      assert events[0] == Step(true, true) && events[1..] == Steps(StepsToExit(c.phase) - 1);
      ClosedStep(c);
      GoesDown(Next(c, events[0]));
    }
  }

  lemma {:induction false} RunAppend(c: Client, a: seq<Event>, b: seq<Event>)
    ensures Run(c, a + b) == Run(Run(c, a), b)
    decreases |a|
  {
    if a == [] {
      assert a + b == b;
    } else {
      assert (a + b)[1..] == a[1..] + b;
      RunAppend(if Enabled(c, a[0]) then Next(c, a[0]) else c, a[1..], b);
    }
  }

  /** The client after n more certificates. */
  function Updated(c: Client, n: nat): Client {
    c.(current := c.current + n, inFlight := if c.subscribed then c.inFlight + n else c.inFlight)
  }

  function Updates(n: nat): seq<Event> {
    if n == 0 then [] else [UpdateCert] + Updates(n - 1)
  }

  lemma {:induction false} RunUpdates(c: Client, n: nat)
    ensures Run(c, Updates(n)) == Updated(c, n)
    decreases n
  {
    if n > 0 {
      assert Updates(n)[1..] == Updates(n - 1);
      RunUpdates(Next(c, UpdateCert), n - 1);
    }
  }

  /** Only the thread moves, and certificates arrive. */
  predicate ThreadOnly(events: seq<Event>) {
    forall e <- events :: e.UpdateCert? || e.Step?
  }

  lemma UpdatesThreadOnly(n: nat)
    ensures ThreadOnly(Updates(n))
  {
  }

  /** Certificates that arrive, and then a step of the thread. */
  lemma UpdatesAndStep(c: Client, n: nat, ok: bool, gone: bool)
    requires Enabled(Updated(c, n), Step(ok, gone))
    ensures ThreadOnly(Updates(n) + [Step(ok, gone)])
    ensures Run(c, Updates(n) + [Step(ok, gone)]) == ThreadStep(Updated(c, n), ok, gone)
  {
    RunUpdates(c, n);
    UpdatesThreadOnly(n);
    RunAppend(c, Updates(n), [Step(ok, gone)]);
    var d := Updated(c, n);
    assert [Step(ok, gone)][1..] == [];
    assert Run(d, [Step(ok, gone)]) == Run(Next(d, Step(ok, gone)), []);
  }

  /** The certificate handler: it may get new certificates at any time, and notifies its subscriber. */
  class CertHandler {
    var version: nat
    var subscribed: bool
    var inFlight: nat

    constructor ()
      ensures version == 0 && !subscribed && inFlight == 0
    {
      version, subscribed, inFlight := 0, false, 0;
    }

    method SubscribeCertChanged(accepted: bool) returns (err: Error)
      modifies this
      ensures version == old(version) && inFlight == old(inFlight)
      ensures err.IsNone() == accepted && subscribed == (old(subscribed) || accepted)
    {
      subscribed := subscribed || accepted;
      return if accepted then NoError else Failed;
    }

    /** Certificates that arrive while somebody else is running. */
    method Elapse() returns (ghost arrived: nat)
      modifies this
      ensures version == old(version) + arrived && subscribed == old(subscribed)
      ensures inFlight == if subscribed then old(inFlight) + arrived else old(inFlight)
    {
      var n: nat :| 0 <= n;
      arrived := n;
      version := version + n;
      inFlight := if subscribed then inFlight + n else inFlight;
    }
  }

  /** The part of the client that sets its channel up and releases it. */
  class SecureChannel {
    const certs: CertHandler
    var started: bool
    var certificateChanged: bool
    var loaded: nat
    ghost var phase: Phase
    ghost var deliveredSince: bool

    /** The client, of which `rest` gives the flags set by callbacks other than the certificate's. */
    ghost function View(rest: Client): Client
      reads this, certs
    {
      rest.(phase := phase, certificateChanged := certificateChanged, started := started, loaded := loaded,
            deliveredSince := deliveredSince, subscribed := certs.subscribed, current := certs.version,
            inFlight := certs.inFlight)
    }

    constructor (certs: CertHandler)
      ensures this.certs == certs
      ensures !started && !certificateChanged && loaded == 0 && phase == Release && !deliveredSince
    {
      this.certs, started, certificateChanged, loaded := certs, false, false, 0;
      phase, deliveredSince := Release, false;
    }

    /** The subscription, after what arrived before it. */
    method Subscribe(ok: bool, ghost rest: Client) returns (err: Error, ghost events: seq<Event>)
      requires phase == SetUpSubscribe
      modifies this`phase, certs
      ensures View(rest) == Run(old(View(rest)), events) && ThreadOnly(events)
      ensures err.IsNone() == ok && phase == (if ok then SetUpLoad else Retry) && (ok ==> certs.subscribed)
    {
      ghost var n := certs.Elapse();
      err := certs.SubscribeCertChanged(ok);
      phase := if ok then SetUpLoad else Retry;
      UpdatesAndStep(old(View(rest)), n, ok, false);
      events := Updates(n) + [Step(ok, false)];
    }

    /** Loading the TLS configuration. */
    method Load(ok: bool, ghost rest: Client) returns (err: Error, ghost events: seq<Event>)
      requires phase == SetUpLoad
      modifies this`phase, this`loaded, this`deliveredSince, certs
      ensures View(rest) == Run(old(View(rest)), events) && ThreadOnly(events)
      ensures err.IsNone() == ok && phase == (if ok then SetUpStart else Retry)
      ensures certs.subscribed == old(certs.subscribed) && (ok ==> loaded == certs.version)
    {
      ghost var n := certs.Elapse();
      if ok {
        loaded, deliveredSince := certs.version, false;
      }
      phase := if ok then SetUpStart else Retry;
      UpdatesAndStep(old(View(rest)), n, ok, false);
      events := Updates(n) + [Step(ok, false)];
      return if ok then NoError else Failed, events;
    }

    /** Starting the message handler. */
    method Start(ok: bool, ghost rest: Client) returns (err: Error, ghost events: seq<Event>)
      requires phase == SetUpStart
      modifies this`phase, this`started, certs
      ensures View(rest) == Run(old(View(rest)), events) && ThreadOnly(events)
      ensures err.IsNone() == ok && phase == (if ok then Connected else Retry) && (ok ==> started)
      ensures certs.subscribed == old(certs.subscribed)
      ensures certs.subscribed && loaded == old(certs.version) ==> loaded == certs.version || certs.inFlight > 0
    {
      ghost var n := certs.Elapse();
      if ok {
        started, phase := true, Connected;
      } else {
        phase := Retry;
      }
      UpdatesAndStep(old(View(rest)), n, ok, false);
      events := Updates(n) + [Step(ok, false)];
      return if ok then NoError else Failed, events;
    }

    /**
     The set-up steps of the thread, whatever certificates arrive meanwhile. It subscribes before it
     loads, so a channel that was set up has the current certificate or will be told.
     */
    method SetupChannel(subscribes: bool, loads: bool, starts: bool, ghost rest: Client)
      returns (err: Error, ghost events: seq<Event>)
      requires phase == SetUpSubscribe
      modifies this, certs
      ensures View(rest) == Run(old(View(rest)), events) && ThreadOnly(events)
      ensures phase == if err.IsNone() then Connected else Retry
      ensures err.IsNone() == (subscribes && loads && starts)
      ensures err.IsNone() ==> started && certs.subscribed && (loaded == certs.version || certs.inFlight > 0)
    {
      ghost var c, more := View(rest), [];
      err, events := Subscribe(subscribes, rest);
      if err.IsNone() {
        err, more := Load(loads, rest);
        RunAppend(c, events, more);
        events := events + more;
        if err.IsNone() {
          err, more := Start(starts, rest);
          RunAppend(c, events, more);
          events := events + more;
        }
      }
    }

    /** Stopping the handler, deleting the channel and unsubscribing, if the channel was started. */
    method TearDown(stops: bool, deletes: bool, unsubscribes: bool, ghost rest: Client)
      returns (err: Error, ghost events: seq<Event>)
      requires phase == Releasing
      modifies this`phase, this`started, certs
      ensures View(rest) == Run(old(View(rest)), events) && ThreadOnly(events)
      ensures phase == WaitReady && !started
      ensures err.IsNone() == (!old(started) || (stops && deletes && unsubscribes))
      ensures err.IsNone() && old(started) ==> !certs.subscribed
    {
      ghost var n := certs.Elapse();
      err := if !started || (stops && deletes && unsubscribes) then NoError else Failed;
      UpdatesAndStep(old(View(rest)), n, true, err.IsNone());
      if started && err.IsNone() {
        certs.subscribed := false;
      }
      started, phase := false, WaitReady;
      events := Updates(n) + [Step(true, err.IsNone())];
    }

    /**
     The release steps of the thread, whatever certificates arrive meanwhile. The flag is cleared first:
     a change noticed while the channel goes down counts for the next one.
     */
    method ReleaseChannel(stops: bool, deletes: bool, unsubscribes: bool, ghost rest: Client)
      returns (err: Error, ghost events: seq<Event>)
      requires phase == Release
      modifies this, certs
      ensures View(rest) == Run(old(View(rest)), events) && ThreadOnly(events)
      ensures phase == WaitReady && !started && !certificateChanged
      ensures err.IsNone() == (!old(started) || (stops && deletes && unsubscribes))
      ensures err.IsNone() && old(started) ==> !certs.subscribed
    {
      ghost var c := View(rest);
      UpdatesAndStep(c, 0, true, false);
      certificateChanged, phase := false, Releasing;
      ghost var more;
      err, more := TearDown(stops, deletes, unsubscribes, rest);
      events := Updates(0) + [Step(true, false)];
      RunAppend(c, events, more);
      events := events + more;
    }
  }
}
