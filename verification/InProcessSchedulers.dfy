/** The scheduler object: entries, request flags, and the turns of its loop. */
module InProcessSchedulers {
  import opened Wrappers
  import opened Timestamps
  import opened Ordering
  import opened Scheduler
  import opened SchedulerPasses
  import opened SchedulerLoop

  // ---------- Refreshing ----------

  /** The enabled searches in `done` have been refreshed and no other row has changed. */
  predicate PartlyRefreshed(before: map<nat, Row>, rows: map<nat, Row>, refreshed: map<nat, Entry>, done: set<nat>,
                            reset: bool, now: Instant)
  {
    && rows.Keys == before.Keys && refreshed.Keys == done
    && (forall id :: id in before ==> rows[id] == if id in done then Rescheduled(before, reset, now)[id] else before[id])
    && (forall id :: id in done ==> id in before && before[id].enabled && refreshed[id] == Loaded(before, reset, now)[id])
  }

  lemma RefreshStep(before: map<nat, Row>, rows: map<nat, Row>, refreshed: map<nat, Entry>, done: set<nat>, id: nat,
                    reset: bool, now: Instant)
    requires PartlyRefreshed(before, rows, refreshed, done, reset, now)
    requires id in before && id !in done && before[id].enabled
    ensures id in rows
    ensures var row := rows[id];
            var next := Deadline(row, reset, now);
            var rows' := if Recomputed(row, reset)
                         then rows[id := row.(nextRun := Some(Stored(next)), lastScheduled := StoredOption(row.lastScheduled))]
                         else rows;
            PartlyRefreshed(before, rows', refreshed[id := Entry(row.interval, next)], done + {id}, reset, now)
  {
    hide Stored, StoredOption;
  }

  lemma AllRefreshed(before: map<nat, Row>, rows: map<nat, Row>, refreshed: map<nat, Entry>, reset: bool, now: Instant)
    requires PartlyRefreshed(before, rows, refreshed, (set id | id in before && before[id].enabled), reset, now)
    ensures rows == Rescheduled(before, reset, now) && refreshed == Loaded(before, reset, now)
  {
    hide Stored, StoredOption;
  }

  // ---------- The object ----------

  class InProcessScheduler {
    var rows: map<nat, Row>  // the search table it reads and writes
    var entries: map<nat, Entry>
    var reloadRequested: bool
    var recomputeRequested: bool
    var stopRequested: bool

    function State(): LoopState
      reads this
    {
      LoopState(rows, entries, reloadRequested, recomputeRequested, stopRequested)
    }

    constructor (rows: map<nat, Row>)
      ensures this.rows == rows && entries == map[]
      ensures reloadRequested && !recomputeRequested && !stopRequested
    {
      this.rows, entries := rows, map[];
      reloadRequested, recomputeRequested, stopRequested := true, false, false;
    }

    /** Start the thread, once the one before it is gone. */
    method Start()
      modifies this`stopRequested, this`reloadRequested, this`recomputeRequested
      ensures State() == Next(old(State()), Started)
    {
      stopRequested, reloadRequested, recomputeRequested := false, true, false;
    }

    method RequestStop()
      modifies this`stopRequested
      ensures State() == Next(old(State()), StopRequested)
    {
      stopRequested := true;
    }

    method NotifyScheduleChanged()
      modifies this`reloadRequested, this`recomputeRequested
      ensures State() == Next(old(State()), ScheduleChanged)
    {
      reloadRequested, recomputeRequested := true, true;
    }

    /** Reload the enabled searches, one record after the other. */
    method Refresh(reset: bool, now: Instant)
      modifies this`rows, this`entries
      ensures rows == Rescheduled(old(rows), reset, now) && entries == Loaded(old(rows), reset, now)
    {
      var records := set id | id in rows && rows[id].enabled;
      ghost var before := rows;
      var refreshed: map<nat, Entry> := map[];
      var remaining := records;
      assert PartlyRefreshed(before, rows, refreshed, {}, reset, now);
      hide PartlyRefreshed, Deadline, StoredOption, Recomputed, Stored;
      while remaining != {}
        invariant remaining <= records
        invariant PartlyRefreshed(before, rows, refreshed, records - remaining, reset, now)
        decreases remaining
      {
        var id :| id in remaining;
        RefreshStep(before, rows, refreshed, records - remaining, id, reset, now);
        assert records - (remaining - {id}) == records - remaining + {id};
        remaining := remaining - {id};
        var row := rows[id];
        var next := Deadline(row, reset, now);
        if Recomputed(row, reset) {
          rows := rows[id := row.(nextRun := Some(Stored(next)), lastScheduled := StoredOption(row.lastScheduled))];
        }
        refreshed := refreshed[id := Entry(row.interval, next)];
      }
      AllRefreshed(before, rows, refreshed, reset, now);
      entries := refreshed;
    }

    /** The guarded part of a dispatch: the entry must still be there and due. Writing the deadline
        raises when the row is gone, before the entry is touched. */
    method DispatchIfDue(id: nat, now: Instant) returns (result: Result<bool, Error>)
      modifies this`rows, this`entries
      ensures result == if !(id in old(entries) && old(entries)[id].nextRun <= now) then Ok(false)
                        else if id !in old(rows) then Raised(SearchNotFound) else Ok(true)
      ensures (rows, entries) == if result == Ok(true) then (Written(old(rows), old(entries), id, now), Advanced(old(entries), id, now))
                                 else (old(rows), old(entries))
    {
      if id !in entries || entries[id].nextRun > now { return Ok(false); }
      var next := now + entries[id].interval * SECOND;
      if id !in rows { return Raised(SearchNotFound); }
      rows := rows[id := rows[id].(nextRun := Some(Stored(next)), lastScheduled := Some(Stored(entries[id].nextRun)))];
      entries := entries[id := Entry(entries[id].interval, next)];
      return Ok(true);
    }

    /** Dispatch what is due, one search after the other. */
    method RunDue(now: Instant, stopSeen: nat -> bool) returns (result: Result<seq<nat>, Error>)
      modifies this`rows, this`entries, this`stopRequested
      ensures Pass(rows, entries, stopRequested, result) == PassOver(old(rows), old(entries), old(stopRequested), now, stopSeen)
    {
      var due := DueOrder(entries, now);
      ghost var rows0, entries0, stopped0 := rows, entries, stopRequested;
      ghost var halt := HaltAt(rows0, due, stopped0, stopSeen, 0);
      DispatchedArePresent(rows, entries, stopRequested, now, stopSeen);
      var completed: seq<nat> := [];
      NothingPassed(rows, entries, now);
      assert due[..0] == [];
      hide DueOrder, Written, Advanced, Passed, Present;
      for i := 0 to |due|
        invariant completed == due[..i] && stopRequested == stopped0
        invariant halt == HaltAt(rows0, due, stopped0, stopSeen, i)
        invariant Present(rows0, entries0, due[..i]) && (rows, entries) == Passed(rows0, entries0, due[..i], now)
      {
        stopRequested := stopRequested || stopSeen(i);
        if stopRequested { return Ok(completed); }
        StillDue(rows0, entries0, due, i, now);
        var dispatched :- DispatchIfDue(due[i], now);
        if dispatched { completed := completed + [due[i]]; }
      }
      return Ok(completed);
    }

    /** One turn of `run_forever`. */
    method Turn(m: Moment) returns (step: LoopStep)
      modifies this
      ensures (State(), step) == TurnOf(old(State()), m)
    {
      hide PassOver, Timeout, Loaded, Rescheduled;
      if stopRequested { return Return; }
      var reload, recompute := reloadRequested, recomputeRequested;
      reloadRequested, recomputeRequested := false, false;
      if reload { Refresh(recompute, m.refreshAt); }
      var completed := RunDue(m.passAt, m.stopSeen);
      if m.notified { NotifyScheduleChanged(); }
      if m.stopAfter { RequestStop(); }
      if completed.Raised? { return Died; }
      if stopRequested { return Return; }
      if reloadRequested { return Again; }
      return Wait(Timeout(entries, m.waitAt));
    }
  }
}
