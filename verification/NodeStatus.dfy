/** The node status, held by the node info provider, the IAM client and, as one bit, the SM client. */
module NodeStates {
  import opened Common

  datatype NodeStatus = Unprovisioned | Provisioned | Paused

  datatype Port = OpenPort | SecurePort

  /** Where the IAM client's channel thread is. */
  datatype Phase = Release | Enter | WaitClock | Retry | Parked | Exited

  /**
   `status` and `file` are the provider's, the file being absent until the status first changes;
   `sm` is the SM client's provisioned flag; the rest is the IAM client's.
   */
  datatype State = State(
    status: NodeStatus, file: Option<NodeStatus>, sm: bool,
    iam: NodeStatus, reconnect: bool, port: Option<Port>, clockSynced: bool, close: bool, phase: Phase)

  datatype Kind = StartProvisioning | FinishProvisioning | Deprovision | Pause | Resume

  datatype Event =
    // whether the node ID is right, the provision manager succeeds, the status can be stored and node info sent
    | Request(kind: Kind, nodeOk: bool, managerOk: bool, stores: bool, sends: bool)
    | Clock(synced: bool)
    | CertChanged
    | Close
    | Step(ok: bool)

  function ReadNodeStatus(file: Option<NodeStatus>): NodeStatus {
    if file.Some? then file.value else Unprovisioned
  }

  /** The state after start-up with IAM and SM client subscribed. */
  function Initial(file: Option<NodeStatus>): State {
    var status := ReadNodeStatus(file);
    State(status, file, status != Unprovisioned, status, false, None, false, false, Release)
  }

  /** The IAM client's observer; it fails when node info has to be sent and cannot be. */
  function NotifyIAM(s: State, status: NodeStatus, sends: bool): (Error, State) {
    if s.iam == status then (NoError, s)
    else if s.iam == Unprovisioned || status == Unprovisioned then (NoError, s.(iam := status, reconnect := true))
    else (if sends then NoError else Failed, s.(iam := status))
  }

  function NotifySM(s: State, status: NodeStatus): State {
    s.(sm := status != Unprovisioned)
  }

  /** Observers are told in the order they subscribed, up to the first that fails. */
  function Notify(s: State, status: NodeStatus, sends: bool, iamFirst: bool): (Error, State) {
    if iamFirst then
      var (err, s1) := NotifyIAM(s, status, sends);
      if err.IsNone() then (NoError, NotifySM(s1, status)) else (err, s1)
    else
      NotifyIAM(NotifySM(s, status), status, sends)
  }

  function SetNodeStatus(s: State, status: NodeStatus, stores: bool, sends: bool, iamFirst: bool): (Error, State) {
    if s.status == status then (NoError, s)
    else if !stores then (Failed, s)
    else Notify(s.(status := status, file := Some(status)), status, sends, iamFirst)
  }

  predicate Expected(kind: Kind, status: NodeStatus) {
    match kind
    case StartProvisioning => status == Unprovisioned
    case FinishProvisioning => status == Unprovisioned
    case Deprovision => status == Provisioned || status == Paused
    case Pause => status == Provisioned
    case Resume => status == Paused
  }

  predicate AsksManager(kind: Kind) {
    kind == StartProvisioning || kind == FinishProvisioning || kind == Deprovision
  }

  function Target(kind: Kind, status: NodeStatus): NodeStatus {
    match kind
    case StartProvisioning => status
    case FinishProvisioning => Provisioned
    case Deprovision => Unprovisioned
    case Pause => Paused
    case Resume => Provisioned
  }

  /** A request and the error that its response reports. */
  function Handle(s: State, e: Event, iamFirst: bool): (Error, State)
    requires e.Request?
  {
    if !e.nodeOk then (InvalidArgument, s)
    else if !Expected(e.kind, s.iam) then (WrongState, s)
    else if AsksManager(e.kind) && !e.managerOk then (Failed, s)
    else if e.kind == StartProvisioning then (NoError, s)
    else SetNodeStatus(s, Target(e.kind, s.iam), e.stores, e.sends, iamFirst)
  }

  predicate ThreadReady(s: State) {
    match s.phase
    case WaitClock => s.clockSynced || s.close
    case Parked => s.reconnect || s.close
    case Exited => false
    case _ => true
  }

  predicate Enabled(s: State, e: Event) {
    match e
    case Step(_) => ThreadReady(s)
    case _ => true
  }

  /** The thread's next step; leaving WaitClock and setting up the channel is one critical section. */
  function ThreadStep(s: State, ok: bool): State {
    match s.phase
    case Release => s.(phase := Enter)
    case Enter => s.(phase := if s.close then Exited else WaitClock)
    case WaitClock =>
      if s.close then s.(phase := Release)
      else if !ok then s.(phase := Retry)
      else s.(phase := Parked, port := Some(if s.iam == Unprovisioned then OpenPort else SecurePort))
    case Retry => s.(phase := Release)
    case Parked => s.(phase := Release, reconnect := false)
    case Exited => s
  }

  function Next(s: State, e: Event, iamFirst: bool): State {
    match e
    case Request(_, _, _, _, _) => Handle(s, e, iamFirst).1
    case Clock(synced) => s.(clockSynced := synced)
    case CertChanged => s.(reconnect := true)
    case Close => s.(close := true)
    case Step(ok) => ThreadStep(s, ok)
  }

  function Run(s: State, events: seq<Event>, iamFirst: bool): State
    decreases |events|
  {
    if events == [] then s
    else Run(if Enabled(s, events[0]) then Next(s, events[0], iamFirst) else s, events[1..], iamFirst)
  }

  /** The three copies agree, the file holds the status, and a parked channel is the right one. */
  ghost predicate Agree(s: State) {
    && s.iam == s.status
    && s.sm == (s.status != Unprovisioned)
    && ReadNodeStatus(s.file) == s.status
    && (s.phase.Parked? && !s.reconnect ==>
          s.port == Some(if s.status == Unprovisioned then OpenPort else SecurePort))
  }

  predicate LegalChange(from: NodeStatus, to: NodeStatus) {
    || from == to
    || (from == Unprovisioned && to == Provisioned)
    || (from == Provisioned && to == Paused)
    || (from == Paused && to == Provisioned)
    || to == Unprovisioned
  }

  lemma NextAgrees(s: State, e: Event, iamFirst: bool)
    requires Agree(s) && Enabled(s, e)
    ensures Agree(Next(s, e, iamFirst))
    ensures LegalChange(s.status, Next(s, e, iamFirst).status)
  {
  }

  lemma {:induction false} RunAgrees(s: State, events: seq<Event>, iamFirst: bool)
    requires Agree(s)
    ensures Agree(Run(s, events, iamFirst))
    decreases |events|
  {
    if events != [] {
      if Enabled(s, events[0]) {
        NextAgrees(s, events[0], iamFirst);
      }
      RunAgrees(if Enabled(s, events[0]) then Next(s, events[0], iamFirst) else s, events[1..], iamFirst);
    }
  }

  /**
   Agreement: in any run, for either order of subscription and even when sending node info fails, the
   IAM client's copy is the provider's status, the SM client's flag says whether it is provisioned,
   the file restores it, and an IAM channel parked with no reconnect pending is on the open port
   exactly when the node is unprovisioned. The next event changes the status only as allowed.
   */
  lemma StatusAgreement(file: Option<NodeStatus>, events: seq<Event>, next: Event, iamFirst: bool)
    ensures
      var s := Run(Initial(file), events, iamFirst);
      && s.iam == s.status
      && s.sm == (s.status != Unprovisioned)
      && Initial(s.file).status == s.status
      && (s.phase.Parked? && !s.reconnect ==> (s.port == Some(OpenPort) <==> s.status == Unprovisioned))
      && (Enabled(s, next) ==> LegalChange(s.status, Next(s, next, iamFirst).status))
  {
    RunAgrees(Initial(file), events, iamFirst);
    var s := Run(Initial(file), events, iamFirst);
    if Enabled(s, next) {
      NextAgrees(s, next, iamFirst);
    }
  }

  /** From which statuses a request is accepted. */
  predicate Accepts(kind: Kind, status: NodeStatus) {
    || ((kind == StartProvisioning || kind == FinishProvisioning) && status == Unprovisioned)
    || (kind == Deprovision && (status == Provisioned || status == Paused))
    || (kind == Pause && status == Provisioned)
    || (kind == Resume && status == Paused)
  }

  /** What a request that succeeds leaves behind. */
  predicate Achieved(kind: Kind, before: NodeStatus, after: NodeStatus) {
    && (kind == StartProvisioning ==> after == before)
    && (kind == FinishProvisioning || kind == Resume ==> after == Provisioned)
    && (kind == Pause ==> after == Paused)
    && (kind == Deprovision ==> after == Unprovisioned)
  }

  /**
   A request succeeds if and only if the node is the right one, its status accepts the request, and
   everything that has to be done for it can be: asking the provision manager, storing the new status,
   and sending node info when the node stays provisioned. Then the node has the status asked for.
   A request that is refused or cannot be stored changes nothing.
   */
  lemma RequestOutcome(s: State, e: Event, iamFirst: bool)
    requires Agree(s) && e.Request?
    ensures
      var (err, t) := Handle(s, e, iamFirst);
      && (err == InvalidArgument <==> !e.nodeOk)
      && (err == WrongState <==> e.nodeOk && !Accepts(e.kind, s.status))
      && (err.IsNone() <==>
            && e.nodeOk && Accepts(e.kind, s.status)
            && (e.kind == StartProvisioning || e.kind == FinishProvisioning || e.kind == Deprovision ==> e.managerOk)
            && (e.kind != StartProvisioning ==> e.stores)
            && (e.kind == Pause || e.kind == Resume ==> e.sends))
      && (err.IsNone() ==> Achieved(e.kind, s.status, t.status))
      && (t.status != s.status ==> Achieved(e.kind, s.status, t.status))
      && (t.status == s.status ==> t == s)
  {
  }

  /** The callbacks set one flag each, and only they set it; a closed client stays closed. */
  lemma FlagsFollowCallbacks(s: State, e: Event, iamFirst: bool)
    requires Enabled(s, e)
    ensures
      var t := Next(s, e, iamFirst);
      && t.clockSynced == (if e.Clock? then e.synced else s.clockSynced)
      && t.close == (s.close || e.Close?)
      && (e.CertChanged? ==> t.reconnect)
  {
  }

  /** A channel is set up only with the clock synced, and one that is parked is left exactly when it is to be. */
  lemma ChannelSteps(s: State, ok: bool)
    ensures s.phase == Parked ==> (Enabled(s, Step(ok)) <==> s.reconnect || s.close)
    ensures Enabled(s, Step(ok)) && ThreadStep(s, ok).phase == Parked ==>
      s.phase == WaitClock && s.clockSynced && !s.close && ok
    ensures Enabled(s, Step(ok)) && ThreadStep(s, ok).phase == Exited ==> s.close
  {
  }

  /** The thread's steps from here to a parked channel, when everything succeeds. */
  function Distance(s: State): nat {
    match s.phase
    case WaitClock => 1
    case Enter => 2
    case Release => 3
    case Retry => 4
    case Parked => if s.reconnect then 4 else 0
    case Exited => 0
  }

  function Steps(n: nat): seq<Event> {
    if n == 0 then [] else [Step(true)] + Steps(n - 1)
  }

  /**
   With the clock synced and the set-up succeeding, the channel comes up on the port for the present
   status, and a reconnect that was asked for while it was parked has happened then.
   */
  lemma {:induction false} ChannelComesUp(s: State, iamFirst: bool)
    requires Agree(s) && s.clockSynced && !s.close && s.phase != Exited
    ensures
      var t := Run(s, Steps(Distance(s)), iamFirst);
      && t.phase == Parked && t.status == s.status
      && t.reconnect == (s.phase != Parked && s.reconnect)
      && (!t.reconnect ==> t.port == Some(if t.status == Unprovisioned then OpenPort else SecurePort))
    decreases Distance(s)
  {
    if Distance(s) > 0 {
      var events, next := Steps(Distance(s)), ThreadStep(s, true);
      assert events[0] == Step(true) && events[1..] == Steps(Distance(s) - 1);
      NextAgrees(s, Step(true), iamFirst);
      if next.phase == Parked {
        assert Run(s, events, iamFirst) == Run(next, [], iamFirst);
      } else {
        ChannelComesUp(next, iamFirst);
      }
    }
  }

  /** The thread's steps from here to its end, once the client is closed. */
  function StepsToExit(phase: Phase): nat {
    match phase
    case Exited => 0
    case Enter => 1
    case Release => 2
    case WaitClock => 3
    case Retry => 3
    case Parked => 3
  }

  /** A closed client goes down, from wherever its thread is. */
  lemma {:induction false} GoesDown(s: State, iamFirst: bool)
    requires s.close
    ensures Run(s, Steps(StepsToExit(s.phase)), iamFirst).phase == Exited
    decreases StepsToExit(s.phase)
  {
    if StepsToExit(s.phase) > 0 {
      var events := Steps(StepsToExit(s.phase));
      assert events[0] == Step(true) && events[1..] == Steps(StepsToExit(s.phase) - 1);
      GoesDown(Next(s, events[0], iamFirst), iamFirst);
    }
  }

  class SMClient {
    var provisioned: bool

    constructor (status: NodeStatus)
      ensures provisioned == (status != Unprovisioned)
    {
      provisioned := status != Unprovisioned;
    }

    method OnNodeStatusChanged(status: NodeStatus) returns (err: Error)
      modifies this
      ensures err.IsNone() && provisioned == (status != Unprovisioned)
    {
      provisioned := status != Unprovisioned;
      return NoError;
    }
  }

  class IAMClient {
    var status: NodeStatus
    var reconnect: bool

    constructor (status: NodeStatus)
      ensures this.status == status && !reconnect
    {
      this.status, reconnect := status, false;
    }

    method OnNodeStatusChanged(newStatus: NodeStatus, sends: bool) returns (err: Error)
      modifies this
      ensures status == newStatus
      ensures reconnect == (old(reconnect) ||
        (old(status) != newStatus && (old(status) == Unprovisioned || newStatus == Unprovisioned)))
      ensures err ==
        if sends || old(status) == newStatus || old(status) == Unprovisioned || newStatus == Unprovisioned
        then NoError else Failed
    {
      if status == newStatus {
        return NoError;
      }
      var sendNodeInfo := true;
      if status == Unprovisioned || newStatus == Unprovisioned {
        sendNodeInfo, reconnect := false, true;
      }
      status := newStatus;
      if sendNodeInfo && !sends {
        return Failed;
      }
      return NoError;
    }

    method CheckNodeIDAndStatus(nodeOk: bool, expected: set<NodeStatus>) returns (err: Error)
      ensures err == if !nodeOk then InvalidArgument else if status !in expected then WrongState else NoError
    {
      if !nodeOk {
        return InvalidArgument;
      }
      return if status in expected then NoError else WrongState;
    }

    method ProcessStartProvisioning(nodeOk: bool, managerOk: bool) returns (err: Error)
      ensures forall s: State, stores: bool, sends: bool, iamFirst: bool :: s.iam == status ==>
        (err, s) == Handle(s, Request(StartProvisioning, nodeOk, managerOk, stores, sends), iamFirst)
      ensures err.IsNone() <==> nodeOk && status == Unprovisioned && managerOk
    {
      err := CheckNodeIDAndStatus(nodeOk, {Unprovisioned});
      if err.IsNone() && !managerOk {
        err := Failed;
      }
    }

    method ProcessFinishProvisioning(provider: NodeInfoProvider, nodeOk: bool, managerOk: bool, stores: bool,
                                     sends: bool, ghost rest: State)
      returns (err: Error)
      requires provider.iam == this
      modifies provider, this, provider.sm
      ensures (err, provider.View(rest)) ==
              Handle(old(provider.View(rest)), Request(FinishProvisioning, nodeOk, managerOk, stores, sends),
                     provider.iamFirst)
      ensures err.IsNone() ==> provider.status == Provisioned
    {
      err := CheckNodeIDAndStatus(nodeOk, {Unprovisioned});
      if !err.IsNone() {
        return;
      }
      if !managerOk {
        return Failed;
      }
      err := provider.SetStatus(Provisioned, stores, sends, rest);
    }

    method ProcessDeprovision(provider: NodeInfoProvider, nodeOk: bool, managerOk: bool, stores: bool, sends: bool,
                              ghost rest: State)
      returns (err: Error)
      requires provider.iam == this
      modifies provider, this, provider.sm
      ensures (err, provider.View(rest)) ==
              Handle(old(provider.View(rest)), Request(Deprovision, nodeOk, managerOk, stores, sends),
                     provider.iamFirst)
      ensures err.IsNone() ==> provider.status == Unprovisioned
    {
      err := CheckNodeIDAndStatus(nodeOk, {Provisioned, Paused});
      if !err.IsNone() {
        return;
      }
      if !managerOk {
        return Failed;
      }
      err := provider.SetStatus(Unprovisioned, stores, sends, rest);
    }

    method ProcessPauseNode(provider: NodeInfoProvider, nodeOk: bool, stores: bool, sends: bool, ghost rest: State)
      returns (err: Error)
      requires provider.iam == this
      modifies provider, this, provider.sm
      ensures (err, provider.View(rest)) ==
              Handle(old(provider.View(rest)), Request(Pause, nodeOk, true, stores, sends), provider.iamFirst)
      ensures err.IsNone() ==> provider.status == Paused
    {
      err := CheckNodeIDAndStatus(nodeOk, {Provisioned});
      if !err.IsNone() {
        return;
      }
      err := provider.SetStatus(Paused, stores, sends, rest);
    }

    method ProcessResumeNode(provider: NodeInfoProvider, nodeOk: bool, stores: bool, sends: bool, ghost rest: State)
      returns (err: Error)
      requires provider.iam == this
      modifies provider, this, provider.sm
      ensures (err, provider.View(rest)) ==
              Handle(old(provider.View(rest)), Request(Resume, nodeOk, true, stores, sends), provider.iamFirst)
      ensures err.IsNone() ==> provider.status == Provisioned
    {
      err := CheckNodeIDAndStatus(nodeOk, {Paused});
      if !err.IsNone() {
        return;
      }
      err := provider.SetStatus(Provisioned, stores, sends, rest);
    }
  }

  datatype Observer = IAM(client: IAMClient) | SM(smClient: SMClient)

  class NodeInfoProvider {
    var status: NodeStatus
    var file: Option<NodeStatus>
    const iam: IAMClient
    const sm: SMClient
    const iamFirst: bool

    constructor (file: Option<NodeStatus>, iam: IAMClient, sm: SMClient, iamFirst: bool)
      ensures this.iam == iam && this.sm == sm && this.iamFirst == iamFirst
      ensures status == ReadNodeStatus(file) && this.file == file
    {
      this.status, this.file, this.iam, this.sm, this.iamFirst := ReadNodeStatus(file), file, iam, sm, iamFirst;
    }

    /** The state shared with the clients, beside the IAM client's thread. */
    ghost function View(rest: State): State
      reads this, iam, sm
    {
      rest.(status := status, file := file, sm := sm.provisioned, iam := iam.status, reconnect := iam.reconnect)
    }

    method NotifyNodeStatusChanged(newStatus: NodeStatus, sends: bool, ghost rest: State) returns (err: Error)
      modifies iam, sm
      ensures (err, View(rest)) == Notify(old(View(rest)), newStatus, sends, iamFirst)
    {
      var observers := if iamFirst then [IAM(iam), SM(sm)] else [SM(sm), IAM(iam)];
      err := NotifyOne(observers[0], newStatus, sends, rest);
      if err.IsNone() {
        err := NotifyOne(observers[1], newStatus, sends, rest);
      }
    }

    method NotifyOne(observer: Observer, newStatus: NodeStatus, sends: bool, ghost rest: State) returns (err: Error)
      requires observer == IAM(iam) || observer == SM(sm)
      modifies iam, sm
      ensures observer == IAM(iam) ==> (err, View(rest)) == NotifyIAM(old(View(rest)), newStatus, sends)
      ensures observer == SM(sm) ==> err.IsNone() && View(rest) == NotifySM(old(View(rest)), newStatus)
    {
      match observer
      case IAM(client) => err := client.OnNodeStatusChanged(newStatus, sends);
      case SM(client) => err := client.OnNodeStatusChanged(newStatus);
    }

    method SetStatus(newStatus: NodeStatus, stores: bool, sends: bool, ghost rest: State) returns (err: Error)
      modifies this, iam, sm
      ensures (err, View(rest)) == SetNodeStatus(old(View(rest)), newStatus, stores, sends, iamFirst)
    {
      if newStatus == status {
        return NoError;
      }
      if !stores {
        return Failed;
      }
      file, status := Some(newStatus), newStatus;
      err := NotifyNodeStatusChanged(newStatus, sends, rest);
    }
  }
}
