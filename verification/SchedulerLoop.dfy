/** The loop of the scheduler thread, and what other threads can do to it between and during its turns. */
module SchedulerLoop {
  import opened Wrappers
  import opened Timestamps
  import opened Ordering
  import opened Scheduler
  import opened SchedulerPasses

  datatype LoopState = LoopState(rows: map<nat, Row>, entries: map<nat, Entry>, reload: bool, recompute: bool, stop: bool)

  /** How a turn ends; `Died` is an exception that leaves the loop. */
  datatype LoopStep = Return | Again | Wait(timeout: Option<int>) | Died

  /** What a turn meets: its clock readings, whether a stop was requested by the time each search is
      considered, or by the end of the pass, and whether a change was notified since it read the flags. */
  datatype Moment = Moment(
    refreshAt: Instant, passAt: Instant, waitAt: Instant, stopSeen: nat -> bool, stopAfter: bool, notified: bool)

  function Refreshed(s: LoopState, at: Instant): LoopState {
    if s.reload then s.(rows := Rescheduled(s.rows, s.recompute, at), entries := Loaded(s.rows, s.recompute, at)) else s
  }

  /** One turn of `run_forever`. */
  function TurnOf(s: LoopState, m: Moment): (LoopState, LoopStep) {
    if s.stop then (s, Return)
    else
      var begun := Refreshed(s, m.refreshAt);
      var p := PassOver(begun.rows, begun.entries, false, m.passAt, m.stopSeen);
      var after := LoopState(p.rows, p.entries, m.notified, m.notified, p.stopped || m.stopAfter);
      (after,
       if p.result.Raised? then Died
       else if after.stop then Return
       else if m.notified then Again
       else Wait(Timeout(p.entries, m.waitAt)))
  }

  /** A turn waits exactly when it was not stopped, did not die and was told of no change; and then
      nothing was due any more at the clock reading of its pass. */
  lemma WaitingLeavesNothingDue(s: LoopState, m: Moment)
    ensures var (after, step) := TurnOf(s, m);
            && (step.Again? ==> m.notified)
            && (step.Return? <==> after.stop && !step.Died?)
            && (step.Wait? <==> !after.stop && !step.Died? && !m.notified)
            && (step.Wait? ==> step.timeout == Timeout(after.entries, m.waitAt) &&
                               forall id :: id in after.entries ==> after.entries[id].nextRun > m.passAt)
  {
    var (after, step) := TurnOf(s, m);
    if step.Wait? {
      var begun := Refreshed(s, m.refreshAt);
      ImmediateRepeatDispatchesNothing(begun.rows, begun.entries, false, m.passAt, m.stopSeen);
      DueOrderSpelledOut(after.entries, m.passAt);
    }
    hide PassOver, Refreshed, Timeout, DueOrder;
  }

  /** What happens between turns, or a turn; `Started` is `start`, which first waits for the thread to
      be gone, and `Edited` is any change of the search table by others. */
  datatype Event =
    | StopRequested
    | ScheduleChanged
    | Edited(rows: map<nat, Row>)
    | Turned(moment: Moment)
    | Started

  function Next(s: LoopState, event: Event): LoopState {
    match event
    case StopRequested => s.(stop := true)
    case ScheduleChanged => s.(reload := true, recompute := true)
    case Edited(rows) => s.(rows := rows)
    case Turned(moment) => TurnOf(s, moment).0
    case Started => s.(stop := false, reload := true, recompute := false)
  }

  function After(s: LoopState, events: seq<Event>): LoopState
    decreases |events|
  {
    if events == [] then s else After(Next(s, events[0]), events[1..])
  }

  predicate Without(events: seq<Event>, turns: bool) {
    forall i :: 0 <= i < |events| ==> !events[i].Started? && (turns || !events[i].Turned?)
  }

  lemma {:induction false} StopStays(s: LoopState, events: seq<Event>)
    requires s.stop && Without(events, true)
    ensures After(s, events).stop && After(s, events).entries == s.entries
    decreases |events|
  {
    hide PassOver, Refreshed;
    if events != [] { StopStays(Next(s, events[0]), events[1..]); }
  }

  /** After a stop request, and until the scheduler is started again, every turn returns, and no turn
      dispatches anything: no deadline and no row is written by one, whatever else happens. */
  lemma StopIsFinal(s: LoopState, events: seq<Event>, m: Moment)
    requires Without(events, true)
    ensures var later := After(Next(s, StopRequested), events);
            TurnOf(later, m) == (later, Return) && later.entries == s.entries
  {
    StopStays(Next(s, StopRequested), events);
  }

  /** A stop that is requested during a turn ends it with a return, unless the turn dies first. */
  lemma StopDuringATurnReturns(s: LoopState, m: Moment)
    requires !s.stop && (m.stopAfter || TurnOf(s, m).0.stop)
    ensures TurnOf(s, m).1.Return? || TurnOf(s, m).1.Died?
    ensures TurnOf(s, m).0.stop
  {
    hide PassOver, Refreshed, Timeout;
  }

  lemma {:induction false} RequestStays(s: LoopState, events: seq<Event>)
    requires s.reload && s.recompute && Without(events, false)
    ensures After(s, events).reload && After(s, events).recompute && After(s, events).entries == s.entries
    decreases |events|
  {
    if events != [] { RequestStays(Next(s, events[0]), events[1..]); }
  }

  /** The turn recomputed every deadline of the table it found before it dispatched. */
  predicate Resets(s: LoopState, m: Moment) {
    var p := PassOver(Rescheduled(s.rows, true, m.refreshAt), Loaded(s.rows, true, m.refreshAt), false, m.passAt, m.stopSeen);
    TurnOf(s, m).0.rows == p.rows && TurnOf(s, m).0.entries == p.entries
  }

  /** A change that is notified between turns is served by the next turn, unless a stop comes first:
      whatever else happens in between, it recomputes every deadline of the table as it then is. */
  lemma NotificationIsServed(s: LoopState, events: seq<Event>, m: Moment)
    requires Without(events, false)
    ensures var later := After(Next(s, ScheduleChanged), events);
            !later.stop ==> Resets(later, m)
  {
    RequestStays(Next(s, ScheduleChanged), events);
    hide PassOver, Rescheduled, Loaded;
  }

  /** A change that is notified during a turn, after it has read the flags, does not let it sleep: the
      turn repeats at once, and the next one recomputes. */
  lemma NotificationDuringATurnIsServed(s: LoopState, m: Moment, events: seq<Event>, next: Moment)
    requires !s.stop && m.notified && Without(events, false)
    ensures !TurnOf(s, m).1.Wait?
    ensures TurnOf(s, m).1.Again? ==>
              var later := After(TurnOf(s, m).0, events);
              !later.stop ==> Resets(later, next)
  {
    hide PassOver, Rescheduled, Loaded, Timeout, Refreshed;
    RequestStays(TurnOf(s, m).0, events);
    assert forall later: LoopState {:trigger Resets(later, next)} :: later.reload && later.recompute && !later.stop ==> Resets(later, next) by {
      forall later: LoopState | later.reload && later.recompute && !later.stop ensures Resets(later, next) {
        ResetTurn(later, next);
      }
    }
  }

  lemma ResetTurn(s: LoopState, m: Moment)
    requires s.reload && s.recompute && !s.stop
    ensures Resets(s, m)
  {
    hide PassOver, Rescheduled, Loaded, Timeout;
  }

  /** The first turn after a start, whatever the flags were before, takes the stored deadlines as they
      are, recomputes only the missing ones, and dispatches. */
  lemma FirstTurnLoadsStoredDeadlines(s: LoopState, m: Moment)
    ensures var p := PassOver(Rescheduled(s.rows, false, m.refreshAt), Loaded(s.rows, false, m.refreshAt), false, m.passAt, m.stopSeen);
            var after := TurnOf(Next(s, Started), m).0;
            after.rows == p.rows && after.entries == p.entries
  {
    hide PassOver, Rescheduled, Loaded, Timeout;
  }

  // ---------- Turns as runs ----------

  function RefreshActions(s: LoopState, at: Instant): seq<Action> {
    if !s.reload then [] else if s.recompute then [Reset(at)] else [Load(at)]
  }

  /** A turn is a run of a refresh and of the dispatches of its pass, each allowed where it happens; so
      the spacing of dispatches holds of everything the loop does. */
  lemma TurnIsARun(w: World, every: nat -> Interval, s: LoopState, m: Moment)
    requires w.rows == s.rows && w.entries == s.entries && !s.stop && w.clock <= m.refreshAt <= m.passAt
    ensures var begun := Refreshed(s, m.refreshAt);
            var due := DueOrder(begun.entries, m.passAt);
            var dispatched := due[..HaltAt(begun.rows, due, false, m.stopSeen, 0)];
            var actions := RefreshActions(s, m.refreshAt) + PassActions(dispatched, m.passAt);
            && AllAllowed(w, every, actions)
            && RunAll(w, actions).rows == TurnOf(s, m).0.rows && RunAll(w, actions).entries == TurnOf(s, m).0.entries
            && RunAll(w, actions).clock <= m.passAt
  {
    var begun := Refreshed(s, m.refreshAt);
    var due := DueOrder(begun.entries, m.passAt);
    var j := HaltAt(begun.rows, due, false, m.stopSeen, 0);
    var first := RefreshActions(s, m.refreshAt);
    RefreshIsARun(w, every, s, m.refreshAt);
    var w1 := RunAll(w, first);
    DispatchedArePresent(begun.rows, begun.entries, false, m.passAt, m.stopSeen);
    PassIsAllowed(w1, every, due, j, m.passAt);
    PassIsARun(w1, due[..j], m.passAt);
    RunAllConcat(w, first, PassActions(due[..j], m.passAt));
    BothAllowed(w, every, first, PassActions(due[..j], m.passAt));
    hide Refreshed, RefreshActions, RunAll, AllAllowed, Passed, DueOrder, PassActions;
  }

  lemma RefreshIsARun(w: World, every: nat -> Interval, s: LoopState, at: Instant)
    requires w.rows == s.rows && w.entries == s.entries && w.clock <= at
    ensures var after := RunAll(w, RefreshActions(s, at));
            && AllAllowed(w, every, RefreshActions(s, at))
            && after.rows == Refreshed(s, at).rows && after.entries == Refreshed(s, at).entries && after.clock <= at
  {
    hide Rescheduled, Loaded;
    var actions := RefreshActions(s, at);
    if s.reload {
      RunOne(w, actions[0]);
      assert actions[1..] == [];
    }
  }

  lemma {:induction false} BothAllowed(w: World, every: nat -> Interval, a: seq<Action>, b: seq<Action>)
    requires AllAllowed(w, every, a) && AllAllowed(RunAll(w, a), every, b)
    ensures AllAllowed(w, every, a + b)
    decreases |a|
  {
    hide Allowed, Apply;
    if a == [] {
      assert a + b == b;
    } else {
      assert (a + b)[0] == a[0] && (a + b)[1..] == a[1..] + b;
      BothAllowed(Apply(w, a[0]), every, a[1..], b);
    }
  }
}
