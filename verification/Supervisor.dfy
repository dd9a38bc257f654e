/** The supervisor's deadline timers against a coalescing wake-up channel (internal/cli
    supervisor.go and approval_control.go). A session operation holds the session's lock from its
    first change to its notification, so each is one step here; the loop takes its snapshot under
    the same lock, but receives from the channel and arms its timers outside it. */
module Supervisor {

  datatype State = Running | Paused | Failed | Recovery | Exported | Destroyed

  /** Times are counted in nanoseconds; 0 is the zero time. */
  datatype Snapshot = Snapshot(state: State, revision: nat, expiresAt: nat, idleDeadline: nat)

  datatype Timer = Idle | Expiry

  /** Where the supervisor loop is. */
  datatype Position =
    | Waiting                        // in the select
    | Woken                          // left the select, about to take a snapshot
    | Reconciling(taken: Snapshot)   // about to arm the timers from it
    | Firing(timer: Timer, now: nat) // a timer fired, about to ask the session to pause
    | Ended

  /** The timers: the revision they were armed for, and for each the deadline and the time it fires. */
  datatype Armed = Disarmed | ArmedFor(deadline: nat, fires: nat)

  datatype Event =
    | Pause(ok: bool)
    | Resume(activated: bool, expiresAt: nat, idleTimeout: nat, ok: bool)
    | Heartbeat
    | Close(outcome: State)     // export, destroy and shutdown: they differ in the state they reach
    | Tick(elapsed: nat)
    | LoopReceive
    | LoopSnapshot
    | LoopArm
    | LoopFire(timer: Timer)
    | LoopPause(ok: bool)
    | LoopExit

  const SECOND := 1_000_000_000

  class Control {
    var clock: nat

    // The session, under its lock.
    var state: State
    var revision: nat
    var expiresAt: nat
    var lastActivity: nat
    var idleTimeout: nat
    var signal: bool       // the channel holds its one element

    // The loop.
    var position: Position
    var armedRevision: nat
    var idle: Armed
    var expiry: Armed
    ghost var armedAt: nat       // the time at which the timers were armed
    ghost var taken: seq<Event>  // the steps so far

    /** A new session, with the loop about to reconcile for the first time. */
    constructor (now: nat, expiresAt: nat, idleTimeout: nat)
      requires expiresAt > 0 && idleTimeout >= SECOND
      ensures Valid() && position == Woken && clock == now && !signal
      ensures Deadlines() == Snapshot(Running, 1, expiresAt, now + idleTimeout) && taken == []
    {
      clock, state, revision, signal := now, Running, 1, false;
      this.expiresAt, lastActivity, this.idleTimeout := expiresAt, now, idleTimeout;
      position, armedRevision, idle, expiry, armedAt := Woken, 0, Disarmed, Disarmed, now;
      taken := [];
    }

    function Deadlines(): Snapshot
      reads this
    {
      Snapshot(state, revision, expiresAt, lastActivity + idleTimeout)
    }

    /** The timers are the ones these deadlines call for. */
    predicate ArmedAs(s: Snapshot)
      reads this
    {
      && armedRevision == s.revision
      && (s.state == Running ==>
        && idle.ArmedFor? && idle.deadline == s.idleDeadline
        && expiry.ArmedFor? && expiry.deadline == s.expiresAt)
      && (s.state != Running ==> idle.Disarmed? && expiry.Disarmed?)
    }

    function TimerOf(timer: Timer): Armed
      reads this
    {
      if timer.Idle? then idle else expiry
    }

    /** The timer fires once its deadline has been reached and time has passed since it was armed,
        neither earlier nor later. */
    ghost predicate OnTime(armed: Armed)
      reads this`armedAt
    {
      armed.ArmedFor? ==> armed.fires >= armed.deadline && armed.fires > armedAt && armed.fires in {armed.deadline, armedAt + 1}
    }

    ghost predicate Punctual()
      reads this
    {
      armedAt <= clock && OnTime(idle) && OnTime(expiry) && (expiry.ArmedFor? ==> expiry.deadline > 0)
    }

    ghost predicate Valid()
      reads this
    {
      && idleTimeout >= SECOND && armedRevision <= revision && Punctual()
      && match position
         case Waiting =>
           && (armedRevision == revision ==> ArmedAs(Deadlines()))
           && (signal || armedRevision == revision)
         case Woken => true
         case Reconciling(taken) =>
           && taken.revision <= revision
           && (taken.revision == revision ==> taken == Deadlines())
           && (signal || taken.revision == revision)
         case Firing(timer, now) =>
           && (armedRevision == revision ==> ArmedAs(Deadlines()))
           && TimerOf(timer).ArmedFor? && TimerOf(timer).deadline <= now
         case Ended => true
    }

    /** No lost wake-up: a loop that waits on an empty channel waits with the right timers. */
    lemma NoLostWakeUp()
      requires Valid() && position == Waiting && !signal
      ensures ArmedAs(Deadlines())
    {
    }

    // ----- The session's side -----

    /** Every change of state or deadlines ends here: a new revision, and a signal unless one is
        already waiting. */
    method NotifyDeadlineChanged()
      requires idleTimeout >= SECOND && armedRevision <= revision && Punctual()
      requires position.Reconciling? ==> position.taken.revision <= revision
      requires position.Firing? ==> TimerOf(position.timer).ArmedFor? && TimerOf(position.timer).deadline <= position.now
      modifies this`revision, this`signal
      ensures Valid() && revision == old(revision) + 1 && signal
    {
      revision := revision + 1;
      if !signal {
        signal := true;
      }
    }

    method PauseLocked(ok: bool)
      requires Valid()
      modifies this`state, this`expiresAt, this`revision, this`signal
      ensures Valid() && signal && revision == old(revision) + 1
      ensures state == (if ok then Paused else Failed) && expiresAt == (if ok then 0 else old(expiresAt))
    {
      if ok {
        state, expiresAt := Paused, 0;
      } else {
        state := Failed;
      }
      NotifyDeadlineChanged();
    }

    method DoPause(ok: bool)
      requires Valid()
      modifies this`state, this`expiresAt, this`revision, this`signal
      ensures Valid()
      ensures if old(state) == Running then
          && signal && revision == old(revision) + 1
          && state == (if ok then Paused else Failed) && expiresAt == (if ok then 0 else old(expiresAt))
        else
          Deadlines() == old(Deadlines()) && signal == old(signal)
    {
      if state == Running {
        PauseLocked(ok);
      }
    }

    method DoResume(activated: bool, expiresAt: nat, idleTimeout: nat, ok: bool)
      requires Valid()
      modifies this`state, this`expiresAt, this`lastActivity, this`idleTimeout, this`revision, this`signal
      ensures Valid()
      ensures if old(state) != Paused || !activated then Deadlines() == old(Deadlines()) && signal == old(signal)
        else
          && signal && revision == old(revision) + 1
          && (!ok ==> state == Failed && this.expiresAt == old(this.expiresAt) && lastActivity == old(lastActivity))
          && (ok ==> state == Running && this.expiresAt == expiresAt && lastActivity == clock)
          && (ok ==> this.idleTimeout == if idleTimeout >= 1_000_000_000 then idleTimeout else old(this.idleTimeout))
    {
      if state != Paused || !activated {
        return;
      }
      if !ok {
        state := Failed;
      } else {
        this.expiresAt := expiresAt;
        if idleTimeout >= SECOND {
          this.idleTimeout := idleTimeout;
        }
        lastActivity := clock;
        state := Running;
      }
      NotifyDeadlineChanged();
    }

    method DoHeartbeat()
      requires Valid()
      modifies this`lastActivity, this`revision, this`signal
      ensures Valid()
      ensures if state == Running && clock < expiresAt then lastActivity == clock && signal && revision == old(revision) + 1
        else Deadlines() == old(Deadlines()) && signal == old(signal)
    {
      if state == Running && clock < expiresAt {
        lastActivity := clock;
        NotifyDeadlineChanged();
      }
    }

    method DoClose(outcome: State)
      requires Valid()
      modifies this`state, this`revision, this`signal
      ensures Valid()
      ensures if outcome in {Failed, Recovery, Exported, Destroyed} && old(state) !in {Exported, Destroyed} then
          state == outcome && signal && revision == old(revision) + 1
        else
          Deadlines() == old(Deadlines()) && signal == old(signal)
    {
      if outcome in {Failed, Recovery, Exported, Destroyed} && state !in {Exported, Destroyed} {
        state := outcome;
        NotifyDeadlineChanged();
      }
    }

    method DoTick(elapsed: nat)
      requires Valid()
      modifies this`clock
      ensures Valid() && clock == old(clock) + elapsed
    {
      clock := clock + elapsed;
    }

    // ----- The loop's side -----

    method Receive()
      requires Valid()
      modifies this`position, this`signal
      ensures Valid()
      ensures if old(position == Waiting && signal) then position == Woken && !signal else position == old(position) && signal == old(signal)
    {
      if position == Waiting && signal {
        signal, position := false, Woken;
      }
    }

    method TakeSnapshot()
      requires Valid()
      modifies this`position
      ensures Valid() && (old(position) == Woken ==> position == Reconciling(Deadlines()))
      ensures old(position) != Woken ==> position == old(position)
    {
      if position == Woken {
        position := Reconciling(Deadlines());
      }
    }

    function FireAt(deadline: nat): (fires: nat)
      reads this
      ensures fires >= deadline && fires > clock && fires in {deadline, clock + 1}
    {
      if deadline <= clock then clock + 1 else deadline
    }

    /** Disarm both timers, then arm them for a running session. */
    method Reconcile()
      requires Valid()
      modifies this`position, this`armedRevision, this`idle, this`expiry, this`armedAt
      ensures Valid()
      ensures match old(position)
        case Reconciling(taken) =>
          if taken.state == Running && (taken.idleDeadline == 0 || taken.expiresAt == 0) then position == Ended
          else position == Waiting && ArmedAs(taken) && armedAt == clock
        case _ => position == old(position) && armedRevision == old(armedRevision) && idle == old(idle) && expiry == old(expiry)
    {
      if position.Reconciling? {
        var taken := position.taken;
        idle, expiry, armedRevision, armedAt := Disarmed, Disarmed, taken.revision, clock;
        position := Waiting;
        if taken.state == Running {
          if taken.idleDeadline == 0 || taken.expiresAt == 0 {
            position := Ended;
          } else {
            idle := ArmedFor(taken.idleDeadline, FireAt(taken.idleDeadline));
            expiry := ArmedFor(taken.expiresAt, FireAt(taken.expiresAt));
          }
        }
      }
    }

    method Fire(timer: Timer)
      requires Valid()
      modifies this`position
      ensures Valid()
      ensures position == if old(position) == Waiting && TimerOf(timer).ArmedFor? && clock >= TimerOf(timer).deadline && clock > armedAt
        then Firing(timer, clock) else old(position)
    {
      if position == Waiting && TimerOf(timer).ArmedFor? && clock >= TimerOf(timer).fires {
        position := Firing(timer, clock);
      }
    }

    /** pauseIfIdle and pauseIfExpired. A timer of an older revision changes nothing; one of the
        current revision always finds its deadline passed and pauses the running session. */
    method PauseIfDue(ok: bool)
      requires Valid()
      modifies this`position, this`state, this`expiresAt, this`revision, this`signal
      ensures Valid()
      ensures old(position.Firing? && armedRevision != revision) ==> Deadlines() == old(Deadlines()) && signal == old(signal) && position == Woken
      ensures !old(position.Firing?) ==> Deadlines() == old(Deadlines()) && signal == old(signal) && position == old(position)
      ensures old(position.Firing? && armedRevision == revision && state == Running) ==>
        && state == (if ok then Paused else Failed) && expiresAt == (if ok then 0 else old(expiresAt))
        && revision == old(revision) + 1 && signal && position == (if ok then Woken else Ended)
    {
      if position.Firing? {
        var timer, now, due := position.timer, position.now, false;
        if armedRevision == revision && state == Running {
          due := if timer.Idle? then idleTimeout >= SECOND && now >= lastActivity + idleTimeout else expiresAt != 0 && now >= expiresAt;
        }
        position := Woken;
        if due {
          PauseLocked(ok);
          if !ok {
            position := Ended;
          }
        }
      }
    }

    /** A session is paused at the first turn of the loop after a deadline of its own, and not
        before: with nothing left to receive, and time having passed since the timers were armed,
        the loop turns to the timer exactly if the deadline has been reached, and then pauses. */
    method Turn(timer: Timer)
      requires Valid() && position == Waiting && !signal && state == Running && clock > armedAt
      modifies this
      ensures Valid()
      ensures var deadline := if timer == Idle then old(lastActivity) + old(idleTimeout) else old(expiresAt);
        if clock >= deadline then state == Paused && expiresAt == 0 && position == Woken && signal
        else state == Running && Deadlines() == old(Deadlines()) && position == Waiting
    {
      NoLostWakeUp();
      Fire(timer);
      PauseIfDue(true);
    }

    // ----- Every interleaving -----

    /** What an event on the session's side does; the loop's fields are not touched. */
    twostate predicate SessionTook(event: Event)
      reads this
    {
      && unchanged(`position) && unchanged(`armedRevision) && unchanged(`idle) && unchanged(`expiry)
      && clock == old(clock) + (if event.Tick? then event.elapsed else 0)
      && match event
         case Pause(ok) =>
           if old(state) == Running then Changed() && state == (if ok then Paused else Failed) else Kept()
         case Resume(activated, expiresAt, _, ok) =>
           if old(state) == Paused && activated then
             Changed() && (if ok then state == Running && this.expiresAt == expiresAt && lastActivity == clock else state == Failed)
           else Kept()
         case Heartbeat =>
           if old(state) == Running && clock < old(expiresAt) then Changed() && state == Running && lastActivity == clock else Kept()
         case Close(outcome) =>
           if outcome in {Failed, Recovery, Exported, Destroyed} && old(state) !in {Exported, Destroyed} then Changed() && state == outcome
           else Kept()
         case _ => Kept()
    }

    /** What an event on the loop's side does; only a due timer changes the session. */
    twostate predicate LoopTook(event: Event)
      reads this
    {
      && clock == old(clock) && (!event.LoopPause? ==> Deadlines() == old(Deadlines()))
      && match event
         case LoopReceive =>
           if old(position) == Waiting && old(signal) then position == Woken && !signal else position == old(position) && signal == old(signal)
         case LoopSnapshot => position == if old(position) == Woken then Reconciling(Deadlines()) else old(position)
         case LoopArm =>
           if old(position).Reconciling? then position == Ended || (position == Waiting && ArmedAs(old(position).taken)) else position == old(position)
         case LoopFire(timer) =>
           if old(position) == Waiting && old(TimerOf(timer)).ArmedFor? && clock >= old(TimerOf(timer)).deadline && clock > old(armedAt)
           then position == Firing(timer, clock) else position == old(position)
         case LoopPause(ok) =>
           if !old(position).Firing? then Kept() && position == old(position)
           else if old(armedRevision) == old(revision) && old(state) == Running then Changed() && state == (if ok then Paused else Failed)
           else Kept() && position == Woken
         case _ => position == Ended
    }

    static predicate SessionSide(event: Event) {
      event.Pause? || event.Resume? || event.Heartbeat? || event.Close? || event.Tick?
    }

    /** The session has changed and said so. */
    twostate predicate Changed()
      reads this
    {
      signal && revision == old(revision) + 1
    }

    twostate predicate Kept()
      reads this
    {
      Deadlines() == old(Deadlines()) && signal == old(signal)
    }

    method SessionStep(event: Event)
      requires Valid() && SessionSide(event)
      modifies this`clock, this`state, this`expiresAt, this`lastActivity, this`idleTimeout, this`revision, this`signal
      ensures Valid() && SessionTook(event)
    {
      match event {
        case Pause(ok) => DoPause(ok);
        case Resume(activated, expiresAt, idleTimeout, ok) => DoResume(activated, expiresAt, idleTimeout, ok);
        case Heartbeat => DoHeartbeat();
        case Close(outcome) => DoClose(outcome);
        case Tick(elapsed) => DoTick(elapsed);
      }
    }

    method LoopStep(event: Event)
      requires Valid() && !SessionSide(event)
      modifies this`position, this`state, this`expiresAt, this`revision, this`signal, this`armedRevision, this`idle, this`expiry, this`armedAt
      ensures Valid() && LoopTook(event)
    {
      match event {
        case LoopReceive => Receive();
        case LoopSnapshot => TakeSnapshot();
        case LoopArm => Reconcile();
        case LoopFire(timer) => Fire(timer);
        case LoopPause(ok) => PauseIfDue(ok);
        case LoopExit => position := Ended;
      }
    }

    method Step(event: Event)
      requires Valid()
      modifies this
      ensures Valid() && taken == old(taken) + [event]
      ensures if SessionSide(event) then SessionTook(event) else LoopTook(event)
    {
      taken := taken + [event];
      if SessionSide(event) {
        SessionStep(event);
      } else {
        LoopStep(event);
      }
    }

    /** After any interleaving of session operations with the loop, a loop that waits on an empty
        channel has its timers armed for the current revision and deadlines. */
    method Interleave(events: seq<Event>)
      requires Valid()
      modifies this
      ensures Valid() && (position == Waiting && !signal ==> ArmedAs(Deadlines()))
      ensures taken == old(taken) + events
    {
      for k := 0 to |events|
        invariant Valid() && taken == old(taken) + events[..k]
      {
        assert events[..k + 1] == events[..k] + [events[k]];
        Step(events[k]);
      }
    }

    /** One signal is enough for any number of changes: left alone, the loop takes it and is
        waiting with current timers again. */
    method CatchUp()
      requires Valid() && position == Waiting && signal
      modifies this
      ensures Valid() && Deadlines() == old(Deadlines()) && !signal
      ensures if state == Running && expiresAt == 0 then position == Ended else position == Waiting && ArmedAs(Deadlines())
    {
      Receive();
      TakeSnapshot();
      Reconcile();
    }
  }
}
