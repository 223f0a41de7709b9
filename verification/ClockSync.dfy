/** Clock synchronisation: the worker loop and its callers, as atomic steps under the mutex. */
module ClockSyncs {
  import opened Common

  /** Periods in one unit of time. */
  datatype Periods = Periods(send: nat, timeout: nat, maxDiff: nat)

  /**
   The fields of the clock sync. `running` is whether the worker thread has not returned. `now` is
   the monotonic clock and `lastWake` its value when the worker last left its wait. `notes` is the
   history of notifications, true for synced; `requests` counts requests sent; `startCalls` counts
   calls of Start.
   */
  datatype Clock = Clock(
    sync: bool, synced: bool, start: bool, started: bool, close: bool, syncTime: nat,
    running: bool, now: nat, lastWake: nat,
    notes: seq<bool>, requests: nat, startCalls: nat)

  datatype Event = Start | Stop | Sync(accepted: bool) | Wake | Tick(d: nat)

  const INITIAL := Clock(false, false, false, false, false, 0, true, 0, 0, [], 0, 0)

  /**
   The worker leaves its wait when there is something to do or a send period has passed; time does
   not pass over the end of the wait, which says that the worker wakes at least every send period.
   */
  predicate Enabled(p: Periods, c: Clock, e: Event) {
    match e
    case Wake => c.running && (c.start || c.close || c.sync || c.now - c.lastWake >= p.send)
    case Tick(d) => !c.running || c.now + d <= c.lastWake + p.send
    case _ => true
  }

  function Notify(c: Clock, synced: bool): Clock {
    c.(synced := synced, notes := c.notes + [synced])
  }

  /** One pass of the worker's loop. */
  function OnWake(p: Periods, c: Clock): Clock {
    if c.close then c.(running := false, lastWake := c.now)
    else
      var c1 := c.(lastWake := c.now, started := c.started || c.start, start := false);
      if c1.sync then
        var c2 := c1.(sync := false, syncTime := c1.now);
        if c2.synced then c2 else Notify(c2, true)
      else
        var c2 := if c1.synced && c1.now - c1.syncTime > p.timeout then Notify(c1, false) else c1;
        if c2.started then c2.(requests := c2.requests + 1) else c2
  }

  function Next(p: Periods, c: Clock, e: Event): Clock {
    match e
    case Start => c.(start := true, startCalls := c.startCalls + 1)
    case Stop => c.(close := true)
    case Sync(accepted) => if accepted then c.(sync := true) else c
    case Wake => OnWake(p, c)
    case Tick(d) => c.(now := c.now + d)
  }

  function Run(p: Periods, c: Clock, events: seq<Event>): Clock
    decreases |events|
  {
    if events == [] then c
    else Run(p, if Enabled(p, c, events[0]) then Next(p, c, events[0]) else c, events[1..])
  }

  /** Notifications alternate, beginning with synced. */
  ghost predicate Alternating(notes: seq<bool>) {
    forall i :: 0 <= i < |notes| ==> notes[i] == (i % 2 == 0)
  }

  ghost predicate Inv(p: Periods, c: Clock) {
    && Alternating(c.notes)
    && c.synced == (|c.notes| % 2 == 1)
    && (c.requests > 0 ==> c.startCalls > 0)
    && (c.start || c.started <==> c.startCalls > 0)
    && c.syncTime <= c.lastWake <= c.now
    && (c.running ==> c.now <= c.lastWake + p.send)
    && (c.running && c.synced ==> c.lastWake <= c.syncTime + p.timeout)
  }

  lemma WakeInv(p: Periods, c: Clock)
    requires Inv(p, c) && Enabled(p, c, Wake)
    ensures Inv(p, OnWake(p, c)) && c.notes <= OnWake(p, c).notes
  {
  }

  lemma NextInv(p: Periods, c: Clock, e: Event)
    requires Inv(p, c) && Enabled(p, c, e)
    ensures Inv(p, Next(p, c, e))
    ensures c.notes <= Next(p, c, e).notes
    ensures !c.running ==> Next(p, c, e).notes == c.notes && Next(p, c, e).requests == c.requests
  {
    if e.Wake? {
      WakeInv(p, c);
    }
  }

  lemma {:induction false} RunInv(p: Periods, c: Clock, events: seq<Event>)
    requires Inv(p, c)
    ensures Inv(p, Run(p, c, events))
    ensures !c.running ==> Run(p, c, events).notes == c.notes && Run(p, c, events).requests == c.requests
    decreases |events|
  {
    if events != [] {
      if Enabled(p, c, events[0]) {
        NextInv(p, c, events[0]);
        RunInv(p, Next(p, c, events[0]), events[1..]);
      } else {
        RunInv(p, c, events[1..]);
      }
    }
  }

  /**
   For every interleaving of calls, wake-ups and time: notifications strictly alternate beginning
   with synced and the last one is the current state, no request is sent before Start, and a clock
   that still counts as synced was synchronised within the timeout and one send period.
   */
  lemma ClockSyncCorrect(p: Periods, events: seq<Event>)
    ensures
      var c := Run(p, INITIAL, events);
      && Alternating(c.notes)
      && c.synced == (c.notes != [] && c.notes[|c.notes| - 1])
      && (c.requests > 0 ==> c.startCalls > 0)
      && (c.running && c.synced ==> c.now <= c.syncTime + p.timeout + p.send)
  {
    RunInv(p, INITIAL, events);
  }

  ghost predicate NoSync(events: seq<Event>) {
    forall e <- events :: !(e.Sync? && e.accepted)
  }

  lemma {:induction false} SyncTimeStays(p: Periods, c: Clock, events: seq<Event>)
    requires !c.sync && NoSync(events)
    ensures !Run(p, c, events).sync && Run(p, c, events).syncTime == c.syncTime
    decreases |events|
  {
    if events != [] {
      assert events[0] in events && forall e <- events[1..] :: e in events;
      SyncTimeStays(p, if Enabled(p, c, events[0]) then Next(p, c, events[0]) else c, events[1..]);
    }
  }

  /**
   Loss of synchronisation is reported: when no sync is pending and none is accepted any more, the clock
   no longer counts as synced once the timeout and one send period have passed.
   */
  lemma LossReported(p: Periods, before: seq<Event>, after: seq<Event>)
    requires !Run(p, INITIAL, before).sync && NoSync(after)
    ensures
      var c, d := Run(p, INITIAL, before), Run(p, Run(p, INITIAL, before), after);
      d.running && d.now > c.now + p.timeout + p.send ==> !d.synced && (d.notes == [] || !d.notes[|d.notes| - 1])
  {
    RunInv(p, INITIAL, before);
    RunInv(p, Run(p, INITIAL, before), after);
    SyncTimeStays(p, Run(p, INITIAL, before), after);
  }

  /** The state changes only for a reason: to synced on a sync, and back only after the timeout. */
  lemma NothingWithoutReason(p: Periods, before: seq<Event>, e: Event)
    requires Enabled(p, Run(p, INITIAL, before), e)
    ensures
      var c := Run(p, INITIAL, before);
      var d := Next(p, c, e);
      && (d.synced != c.synced ==> e == Wake && d.notes == c.notes + [d.synced])
      && (d.synced == c.synced ==> d.notes == c.notes)
      && (d.synced && !c.synced ==> c.sync)
      && (!d.synced && c.synced ==> !c.sync && c.now > c.syncTime + p.timeout)
      && (d.syncTime != c.syncTime ==> c.sync)
  {
    RunInv(p, INITIAL, before);
  }

  /** Time passes up to the end of the worker's wait, where the worker wakes if nothing woke it before. */
  lemma WakesInTime(p: Periods, before: seq<Event>)
    ensures
      var c := Run(p, INITIAL, before);
      && (!c.running ==> forall d: nat :: Enabled(p, c, Tick(d)))
      && (c.running ==>
            && c.now <= c.lastWake + p.send
            && (forall d: nat :: c.now + d <= c.lastWake + p.send ==> Enabled(p, c, Tick(d)))
            && var end := Next(p, c, Tick(c.lastWake + p.send - c.now));
               end.now == c.lastWake + p.send && Enabled(p, end, Wake))
  {
    RunInv(p, INITIAL, before);
  }

  /** An accepted sync wakes the worker, and from then on the clock counts as synced, and is so reported. */
  lemma SyncReported(p: Periods, before: seq<Event>)
    requires Run(p, INITIAL, before).running && !Run(p, INITIAL, before).close
    ensures
      var c := Next(p, Run(p, INITIAL, before), Sync(true));
      && Enabled(p, c, Wake)
      && var d := Next(p, c, Wake);
      && d.synced && d.notes != [] && d.notes[|d.notes| - 1]
      && d.syncTime == c.now && !d.sync
  {
    RunInv(p, INITIAL, before);
    NextInv(p, Run(p, INITIAL, before), Sync(true));
    NextInv(p, Next(p, Run(p, INITIAL, before), Sync(true)), Wake);
  }

  /**
   Once Start was called, every pass of the worker sends one request, unless the clock was just
   synchronised; before that none does. After Stop the next pass is the last, and sends nothing.
   */
  lemma RequestsSent(p: Periods, before: seq<Event>)
    requires Enabled(p, Run(p, INITIAL, before), Wake)
    ensures
      var c := Run(p, INITIAL, before);
      var d := Next(p, c, Wake);
      && d.requests == c.requests + (if c.startCalls > 0 && !c.sync && !c.close then 1 else 0)
      && d.running == !c.close
  {
    RunInv(p, INITIAL, before);
  }

  /** Start and Stop wake the worker at once. */
  lemma CallsWake(p: Periods, c: Clock)
    requires c.running
    ensures Enabled(p, Next(p, c, Event.Start), Wake) && Next(p, c, Event.Start).startCalls == c.startCalls + 1
    ensures Enabled(p, Next(p, c, Event.Stop), Wake) && Next(p, c, Event.Stop).close
    ensures Next(p, c, Event.Sync(false)) == c
  {
  }

  /** Once the worker has returned nobody is notified and nothing is sent any more. */
  lemma SilentAfterStop(p: Periods, before: seq<Event>, after: seq<Event>)
    requires !Run(p, INITIAL, before).running
    ensures
      var c := Run(p, INITIAL, before);
      Run(p, c, after).notes == c.notes && Run(p, c, after).requests == c.requests
  {
    RunInv(p, INITIAL, before);
    RunInv(p, Run(p, INITIAL, before), after);
  }

  class ClockSync {
    const periods: Periods
    var clock: int  // the real-time clock
    var sync: bool
    var synced: bool
    var start: bool
    var started: bool
    var close: bool
    var syncTime: nat
    ghost var running: bool
    ghost var now: nat
    ghost var lastWake: nat
    ghost var notes: seq<bool>
    ghost var requests: nat
    ghost var startCalls: nat

    ghost function View(): Clock
      reads this
    {
      Clock(sync, synced, start, started, close, syncTime, running, now, lastWake, notes, requests, startCalls)
    }

    constructor (periods: Periods, clock: int)
      ensures this.periods == periods && View() == INITIAL
    {
      this.periods, this.clock := periods, clock;
      sync, synced, start, started, close, syncTime := false, false, false, false, false, 0;
      running, now, lastWake, notes, requests, startCalls := true, 0, 0, [], 0, 0;
    }

    method Start()
      modifies this
      ensures View() == Next(periods, old(View()), Event.Start) && clock == old(clock)
    {
      start, startCalls := true, startCalls + 1;
    }

    method Stop()
      modifies this
      ensures View() == Next(periods, old(View()), Event.Stop) && clock == old(clock)
    {
      close := true;
    }

    /** Sets the clock exactly when it is too far off; when it cannot be set the clock does not count as synced. */
    method Sync(time: int, settable: bool) returns (err: Error)
      modifies this
      ensures View() == Next(periods, old(View()), Event.Sync(err.IsNone()))
      ensures var near := old(clock) - time <= periods.maxDiff && time - old(clock) <= periods.maxDiff;
              err.IsNone() == (near || settable) && clock == if near || !settable then old(clock) else time
    {
      var diff := if clock >= time then clock - time else time - clock;
      if diff > periods.maxDiff {
        if !settable {
          return Failed;
        }
        clock := time;
      }
      sync := true;
      return NoError;
    }

    method ClockSyncNotification()
      modifies `notes
      ensures notes == old(notes) + [synced]
    {
      notes := notes + [synced];
    }

    /** The body of the worker's loop, from the end of its wait to the next wait or its return. */
    method Iteration(time: nat) returns (goOn: bool)
      requires running && time == now && syncTime <= now
      modifies this
      ensures View() == Next(periods, old(View()), Wake) && goOn == running && clock == old(clock)
    {
      lastWake := now;
      if close {
        running := false;
        return false;
      }
      if start {
        start, started := false, true;
      }
      if sync {
        sync, syncTime := false, time;
        if !synced {
          synced := true;
          ClockSyncNotification();
        }
        return true;
      }
      WithoutSync(time);
      return true;
    }

    /** The rest of the loop when nobody has synchronised the clock since the last pass. */
    method WithoutSync(time: nat)
      requires time == now && syncTime <= now
      modifies this`synced, this`notes, this`requests
      ensures synced == (old(synced) && now - syncTime <= periods.timeout)
      ensures notes == if old(synced) && !synced then old(notes) + [false] else old(notes)
      ensures requests == if started then old(requests) + 1 else old(requests)
    {
      if synced && time - syncTime > periods.timeout {
        synced := false;
        ClockSyncNotification();
      }
      if started {
        requests := requests + 1;
      }
    }
  }
}
