/** Deadlines of saved searches, in memory and, truncated to milliseconds, on disk. */
module Scheduler {
  import opened Wrappers
  import opened Timestamps
  import opened Ordering

  const MILLISECOND: int := 1000

  /** What `isoformat(timespec="milliseconds")` keeps of an instant. */
  function Stored(t: Instant): Instant { t / MILLISECOND * MILLISECOND }

  type Interval = seconds: nat | seconds > 0 witness 1

  /** A search with its schedule row. */
  datatype Row = Row(enabled: bool, interval: Interval, nextRun: Option<Instant>, lastScheduled: Option<Instant>)

  datatype Entry = Entry(interval: Interval, nextRun: Instant)

  function StoredOption(t: Option<Instant>): Option<Instant> {
    match t case None => None case Some(v) => Some(Stored(v))
  }

  // ---------- Loading deadlines ----------

  predicate Recomputed(row: Row, reset: bool) { reset || row.nextRun.None? }

  function Deadline(row: Row, reset: bool, now: Instant): Instant {
    if Recomputed(row, reset) then now + row.interval * SECOND else row.nextRun.value
  }

  /** The entries after `refresh`: one for each enabled search. */
  function Loaded(rows: map<nat, Row>, reset: bool, now: Instant): map<nat, Entry> {
    map id | id in rows && rows[id].enabled :: Entry(rows[id].interval, Deadline(rows[id], reset, now))
  }

  /** The rows after `refresh`: recomputed deadlines are written back, truncated. */
  function Rescheduled(rows: map<nat, Row>, reset: bool, now: Instant): map<nat, Row> {
    map id | id in rows ::
      if rows[id].enabled && Recomputed(rows[id], reset)
      then rows[id].(nextRun := Some(Stored(now + rows[id].interval * SECOND)), lastScheduled := StoredOption(rows[id].lastScheduled))
      else rows[id]
  }

  /** Loading without a reset takes every stored deadline as it is and writes nothing; a deadline that is
      missing, and with a reset every deadline, becomes exactly one interval from now, and is stored
      to the millisecond. Disabled searches are left out and left alone. */
  lemma RefreshSpelledOut(rows: map<nat, Row>, reset: bool, now: Instant, id: nat)
    ensures Loaded(rows, reset, now).Keys == set k | k in rows && rows[k].enabled
    ensures Rescheduled(rows, reset, now).Keys == rows.Keys
    ensures id in rows && !rows[id].enabled ==> Rescheduled(rows, reset, now)[id] == rows[id]
    ensures id in rows && rows[id].enabled ==>
              var row, entry, after := rows[id], Loaded(rows, reset, now)[id], Rescheduled(rows, reset, now)[id];
              var next := now + row.interval * SECOND;
              && entry.interval == row.interval
              && (if !reset && row.nextRun.Some? then entry.nextRun == row.nextRun.value && after == row
                  else
                    && entry.nextRun == next
                    && after == row.(nextRun := Some(next / 1000 * 1000),
                                     lastScheduled := match row.lastScheduled
                                                      case None => None
                                                      case Some(t) => Some(t / 1000 * 1000)))
  {
  }

  // ---------- Dispatching ----------

  function DueIds(entries: map<nat, Entry>, now: Instant): set<nat> {
    set id | id in entries && entries[id].nextRun <= now
  }

  function Deadlines(entries: map<nat, Entry>): map<nat, int> {
    map id | id in entries :: entries[id].nextRun
  }

  /** Due searches, in (deadline, id) order. */
  function DueOrder(entries: map<nat, Entry>, now: Instant): seq<nat> {
    Sorted(DueIds(entries, now), Deadlines(entries))
  }

  function Advanced(entries: map<nat, Entry>, id: nat, now: Instant): map<nat, Entry>
    requires id in entries
  {
    entries[id := Entry(entries[id].interval, now + entries[id].interval * SECOND)]
  }

  function Written(rows: map<nat, Row>, entries: map<nat, Entry>, id: nat, now: Instant): map<nat, Row>
    requires id in entries && id in rows
  {
    rows[id := rows[id].(nextRun := Some(Stored(now + entries[id].interval * SECOND)),
                         lastScheduled := Some(Stored(entries[id].nextRun)))]
  }

  // ---------- Whole runs ----------

  /** A scheduled dispatch: the search, the clock reading of its pass, and how many times deadlines
      had been loaded from disk by then. Within one epoch no deadline has come from disk. */
  datatype Dispatch = Dispatch(id: nat, at: Instant, epoch: nat)

  datatype World = World(rows: map<nat, Row>, entries: map<nat, Entry>, epoch: nat, clock: Instant, log: seq<Dispatch>)

  datatype Action =
    | Load(now: Instant)               // refresh(reset=False): a process starts
    | Reset(now: Instant)              // refresh(reset=True): a schedule change was notified
    | Run(id: nat, now: Instant)       // run_due dispatches one due search
    | Exit                             // the process ends; memory is lost
    | SetEnabled(id: nat, enabled: bool)
    | ClearDeadline(id: nat)           // update_configuration
    | Add(id: nat, row: Row)
    | Delete(id: nat)

  /** Clock readings never go back. A dispatch needs a due entry, and the search row must still
      exist, because writing its deadline is not guarded. Intervals are fixed per search. */
  predicate Allowed(w: World, every: nat -> Interval, action: Action) {
    match action
    case Load(now) => w.clock <= now
    case Reset(now) => w.clock <= now
    case Run(id, now) => w.clock <= now && id in w.entries && w.entries[id].nextRun <= now && id in w.rows
    case Add(id, row) => id !in w.rows && row.nextRun.None? && row.interval == every(id)
    case _ => true
  }

  function Apply(w: World, action: Action): World {
    match action
    case Load(now) =>
      w.(rows := Rescheduled(w.rows, false, now), entries := Loaded(w.rows, false, now), epoch := w.epoch + 1, clock := now)
    case Reset(now) =>
      w.(rows := Rescheduled(w.rows, true, now), entries := Loaded(w.rows, true, now), clock := now)
    case Run(id, now) =>
      if id in w.entries && id in w.rows then
        w.(rows := Written(w.rows, w.entries, id, now), entries := Advanced(w.entries, id, now), clock := now,
           log := w.log + [Dispatch(id, now, w.epoch)])
      else w
    case Exit => w.(entries := map[])
    case SetEnabled(id, enabled) => if id in w.rows then w.(rows := w.rows[id := w.rows[id].(enabled := enabled)]) else w
    case ClearDeadline(id) =>
      if id in w.rows then w.(rows := w.rows[id := w.rows[id].(nextRun := None, lastScheduled := None)]) else w
    case Add(id, row) => w.(rows := w.rows[id := row])
    case Delete(id) => w.(rows := w.rows - {id})
  }

  function RunAll(w: World, actions: seq<Action>): World
    decreases |actions|
  {
    if actions == [] then w else RunAll(Apply(w, actions[0]), actions[1..])
  }

  predicate AllAllowed(w: World, every: nat -> Interval, actions: seq<Action>)
    decreases |actions|
  {
    actions == [] || (Allowed(w, every, actions[0]) && AllAllowed(Apply(w, actions[0]), every, actions[1..]))
  }

  /** Two dispatches of one search: an interval apart within an epoch, an interval less one
      millisecond apart across a load from disk. */
  predicate Apart(every: nat -> Interval, first: Dispatch, second: Dispatch) {
    first.id == second.id ==>
      if first.epoch == second.epoch then first.at + every(first.id) * SECOND <= second.at
      else first.epoch < second.epoch && first.at + every(first.id) * SECOND - MILLISECOND < second.at
  }

  predicate Spaced(every: nat -> Interval, log: seq<Dispatch>) {
    forall i, j {:trigger Apart(every, log[i], log[j])} :: 0 <= i < j < |log| ==> Apart(every, log[i], log[j])
  }

  /** The deadlines in memory and on disk respect a past dispatch. */
  predicate Respects(w: World, every: nat -> Interval, d: Dispatch) {
    && d.at <= w.clock && d.epoch <= w.epoch
    && (d.id in w.entries ==>
          if d.epoch == w.epoch then d.at + every(d.id) * SECOND <= w.entries[d.id].nextRun
          else d.at + every(d.id) * SECOND - MILLISECOND < w.entries[d.id].nextRun)
    && (d.id in w.rows && w.rows[d.id].nextRun.Some? ==>
          Stored(d.at + every(d.id) * SECOND) <= w.rows[d.id].nextRun.value)
  }

  predicate FixedIntervals(w: World, every: nat -> Interval) {
    && (forall id :: id in w.rows ==> w.rows[id].interval == every(id))
    && (forall id :: id in w.entries ==> w.entries[id].interval == every(id))
  }

  predicate Invariant(w: World, every: nat -> Interval) {
    && FixedIntervals(w, every)
    && Spaced(every, w.log)
    && (forall i {:trigger Respects(w, every, w.log[i])} :: 0 <= i < |w.log| ==> Respects(w, every, w.log[i]))
  }

  lemma StoredIsClose(a: Instant, b: Instant)
    ensures a - MILLISECOND < Stored(a) <= a
    ensures a <= b ==> Stored(a) <= Stored(b)
  {
  }

  /** A refresh gives every past dispatch its distance, whether it recomputes or loads. */
  lemma RefreshRespects(w: World, every: nat -> Interval, reset: bool, now: Instant, d: Dispatch)
    requires FixedIntervals(w, every) && w.clock <= now && Respects(w, every, d)
    ensures Respects(Apply(w, if reset then Reset(now) else Load(now)), every, d)
  {
    var earliest := d.at + every(d.id) * SECOND;
    StoredIsClose(earliest, now + every(d.id) * SECOND);
    hide Stored, StoredOption;
  }

  lemma RunRespects(w: World, every: nat -> Interval, id: nat, now: Instant, d: Dispatch)
    requires FixedIntervals(w, every) && Allowed(w, every, Run(id, now)) && Respects(w, every, d)
    ensures Respects(Apply(w, Run(id, now)), every, d)
  {
    StoredIsClose(d.at + every(d.id) * SECOND, now + every(d.id) * SECOND);
    hide Stored, StoredOption;
  }

  lemma RespectsIsKept(w: World, every: nat -> Interval, action: Action, d: Dispatch)
    requires FixedIntervals(w, every) && Allowed(w, every, action) && Respects(w, every, d)
    ensures Respects(Apply(w, action), every, d)
  {
    match action
    case Load(now) => RefreshRespects(w, every, false, now, d);
    case Reset(now) => RefreshRespects(w, every, true, now, d);
    case Run(id, now) => RunRespects(w, every, id, now, d);
    case _ => hide Stored;
  }

  lemma RunIsApart(w: World, every: nat -> Interval, id: nat, now: Instant, d: Dispatch)
    requires FixedIntervals(w, every) && Allowed(w, every, Run(id, now)) && Respects(w, every, d)
    ensures Apart(every, d, Dispatch(id, now, w.epoch))
  {
  }

  lemma ApplyKeeps(w: World, every: nat -> Interval, action: Action)
    requires Invariant(w, every) && Allowed(w, every, action)
    ensures Invariant(Apply(w, action), every)
  {
    var w' := Apply(w, action);
    forall i | 0 <= i < |w'.log| ensures Respects(w', every, w'.log[i]) {
      if i < |w.log| {
        assert Respects(w, every, w.log[i]);
        RespectsIsKept(w, every, action, w.log[i]);
      }
    }
    forall i, j | 0 <= i < j < |w'.log| ensures Apart(every, w'.log[i], w'.log[j]) {
      if j < |w.log| {
        assert Apart(every, w.log[i], w.log[j]);
      } else {
        assert Respects(w, every, w.log[i]);
        RunIsApart(w, every, action.id, action.now, w.log[i]);
      }
    }
  }

  lemma {:induction false} RunAllKeeps(w: World, every: nat -> Interval, actions: seq<Action>)
    requires Invariant(w, every) && AllAllowed(w, every, actions)
    ensures Invariant(RunAll(w, actions), every)
    decreases |actions|
  {
    hide Invariant, Allowed, Apply;
    if actions != [] {
      ApplyKeeps(w, every, actions[0]);
      RunAllKeeps(Apply(w, actions[0]), every, actions[1..]);
    }
  }

  /** Over every run: dispatches of one search are an interval apart within an epoch, resets
      included, and more than an interval less one millisecond apart across restarts. */
  lemma DispatchesAreSpaced(w: World, every: nat -> Interval, actions: seq<Action>)
    requires FixedIntervals(w, every) && w.log == [] && AllAllowed(w, every, actions)
    ensures Spaced(every, RunAll(w, actions).log)
  {
    RunAllKeeps(w, every, actions);
  }

  predicate InWindow(d: Dispatch, id: nat, epoch: nat, from: Instant, to: Instant) {
    d.id == id && d.epoch == epoch && from <= d.at <= to
  }

  function CountIn(log: seq<Dispatch>, id: nat, epoch: nat, from: Instant, to: Instant): nat {
    if log == [] then 0
    else
      var init := log[..|log| - 1];
      CountIn(init, id, epoch, from, to) + if InWindow(log[|log| - 1], id, epoch, from, to) then 1 else 0
  }

  lemma {:induction false} CountSpans(every: nat -> Interval, log: seq<Dispatch>, id: nat, epoch: nat, from: Instant, to: Instant)
    requires Spaced(every, log)
    ensures var n := CountIn(log, id, epoch, from, to);
            n > 0 ==> exists i :: 0 <= i < |log| && InWindow(log[i], id, epoch, from, to) &&
                                  from + (n - 1) * (every(id) * SECOND) <= log[i].at
  {
    if log != [] {
      var last := |log| - 1;
      var init := log[..last];
      forall i, j | 0 <= i < j < |init| ensures Apart(every, init[i], init[j]) {
        assert Apart(every, log[i], log[j]);
      }
      CountSpans(every, init, id, epoch, from, to);
      var n := CountIn(init, id, epoch, from, to);
      if n > 0 {
        var i :| 0 <= i < |init| && InWindow(init[i], id, epoch, from, to) && from + (n - 1) * (every(id) * SECOND) <= init[i].at;
        assert Apart(every, log[i], log[last]);
        assert log[i] == init[i];
        if InWindow(log[last], id, epoch, from, to) {
          assert n * (every(id) * SECOND) == (n - 1) * (every(id) * SECOND) + every(id) * SECOND;
        }
      }
    }
  }

  /** A window of length W holds at most W / I + 1 dispatches of one search within an epoch. */
  lemma WindowIsBounded(w: World, every: nat -> Interval, actions: seq<Action>, id: nat, epoch: nat, from: Instant, to: Instant)
    requires FixedIntervals(w, every) && w.log == [] && AllAllowed(w, every, actions)
    requires from <= to
    ensures CountIn(RunAll(w, actions).log, id, epoch, from, to) <= (to - from) / (every(id) * SECOND) + 1
  {
    DispatchesAreSpaced(w, every, actions);
    var log := RunAll(w, actions).log;
    CountSpans(every, log, id, epoch, from, to);
    var n, step := CountIn(log, id, epoch, from, to), every(id) * SECOND;
    if n > 0 {
      assert (n - 1) * step <= to - from;
      DivisionBound(n - 1, step, to - from);
    }
  }

  lemma DivisionBound(n: nat, step: nat, length: nat)
    requires step > 0 && n * step <= length
    ensures n <= length / step
  {
    var q := length / step;
    assert length < (q + 1) * step;
    assert n >= q + 1 ==> n * step >= (q + 1) * step;
  }
}
