/** Passes of the scheduler over the searches that are due. */
module SchedulerPasses {
  import opened Wrappers
  import opened Timestamps
  import opened Ordering
  import opened Scheduler

  // ---------- Dispatching in order ----------

  predicate Present(rows: map<nat, Row>, entries: map<nat, Entry>, ids: seq<nat>) {
    forall i :: 0 <= i < |ids| ==> ids[i] in entries && ids[i] in rows
  }

  /** Rows and entries after dispatching `ids` in order at one clock reading. */
  function Passed(rows: map<nat, Row>, entries: map<nat, Entry>, ids: seq<nat>, now: Instant): (r: (map<nat, Row>, map<nat, Entry>))
    requires Present(rows, entries, ids)
    ensures r.0.Keys == rows.Keys && r.1.Keys == entries.Keys
  {
    if ids == [] then (rows, entries)
    else
      var id := ids[|ids| - 1];
      var (rows', entries') := Passed(rows, entries, ids[..|ids| - 1], now);
      (Written(rows', entries', id, now), Advanced(entries', id, now))
  }

  lemma PassedOneMore(rows: map<nat, Row>, entries: map<nat, Entry>, ids: seq<nat>, i: nat, now: Instant)
    requires i < |ids| && Present(rows, entries, ids)
    ensures Present(rows, entries, ids[..i]) && Present(rows, entries, ids[..i + 1])
    ensures ids[..i + 1] == ids[..i] + [ids[i]]
    ensures var (rows', entries') := Passed(rows, entries, ids[..i], now);
            Passed(rows, entries, ids[..i + 1], now) == (Written(rows', entries', ids[i], now), Advanced(entries', ids[i], now))
  {
    assert ids[..i + 1][..i] == ids[..i];
    hide Written, Advanced;
  }

  /** A pass leaves each dispatched search one interval after its clock reading and touches no other. */
  lemma {:induction false} PassedEntries(rows: map<nat, Row>, entries: map<nat, Entry>, ids: seq<nat>, now: Instant)
    requires Present(rows, entries, ids)
    ensures var after := Passed(rows, entries, ids, now).1;
            forall id :: id in entries ==>
              after[id] == if id in ids then Entry(entries[id].interval, now + entries[id].interval * SECOND) else entries[id]
  {
    if ids != [] {
      var init := ids[..|ids| - 1];
      assert ids == init + [ids[|ids| - 1]];
      PassedEntries(rows, entries, init, now);
    }
  }

  lemma NothingPassed(rows: map<nat, Row>, entries: map<nat, Entry>, now: Instant)
    ensures Present(rows, entries, []) && Passed(rows, entries, [], now) == (rows, entries)
  {
  }

  lemma DueAreDistinct(entries: map<nat, Entry>, now: Instant)
    ensures var due := DueOrder(entries, now);
            && (forall i, j :: 0 <= i < j < |due| ==> due[i] != due[j])
            && (forall i :: 0 <= i < |due| ==> due[i] in entries && entries[due[i]].nextRun <= now)
  {
    var due := DueOrder(entries, now);
    forall i | 0 <= i < |due| ensures due[i] in DueIds(entries, now) {
    }
  }

  /** A due search is still due when its turn comes, because only the searches before it moved; if
      its row is still there, dispatching it continues the pass. */
  lemma StillDue(rows: map<nat, Row>, entries: map<nat, Entry>, due: seq<nat>, i: nat, now: Instant)
    requires due == DueOrder(entries, now) && i < |due| && Present(rows, entries, due[..i])
    ensures due[..i + 1] == due[..i] + [due[i]]
    ensures var (rows', entries') := Passed(rows, entries, due[..i], now);
            && due[i] in entries' && entries'[due[i]].nextRun <= now
            && (due[i] in rows ==>
                  && Present(rows, entries, due[..i + 1])
                  && Passed(rows, entries, due[..i + 1], now) == (Written(rows', entries', due[i], now), Advanced(entries', due[i], now)))
  {
    DueAreDistinct(entries, now);
    hide DueOrder, Written, Advanced;
    assert due[..i + 1] == due[..i] + [due[i]];
    if due[i] in rows {
      PassedOneMore(rows, entries, due[..i + 1], i, now);
      assert due[..i + 1][..i] == due[..i] && due[..i + 1][..i + 1] == due[..i + 1];
    }
    assert due[i] !in due[..i] && entries[due[i]].nextRun <= now;
    PassedEntries(rows, entries, due[..i], now);
    hide Passed;
  }

  // ---------- Where a pass halts ----------

  /** The first search, from the `i`-th on, before which a stop has been requested or whose row is gone.
      `stopSeen(k)` says whether a stop had been requested by the time the `k`-th search is considered. */
  function HaltAt(rows: map<nat, Row>, due: seq<nat>, stopped: bool, stopSeen: nat -> bool, i: nat): (j: nat)
    requires i <= |due|
    ensures i <= j <= |due|
    ensures forall k :: i <= k < j ==> !stopped && !stopSeen(k) && due[k] in rows
    ensures j < |due| ==> stopped || stopSeen(j) || due[j] !in rows
    decreases |due| - i
  {
    if i == |due| || stopped || stopSeen(i) || due[i] !in rows then i else HaltAt(rows, due, stopped, stopSeen, i + 1)
  }

  lemma DispatchedArePresent(rows: map<nat, Row>, entries: map<nat, Entry>, stopped: bool, now: Instant, stopSeen: nat -> bool)
    ensures var due := DueOrder(entries, now);
            Present(rows, entries, due[..HaltAt(rows, due, stopped, stopSeen, 0)])
  {
    DueAreDistinct(entries, now);
  }

  datatype Error = SearchNotFound

  datatype Pass = Pass(rows: map<nat, Row>, entries: map<nat, Entry>, stopped: bool, result: Result<seq<nat>, Error>)

  /** `run_due`: dispatch what is due in (deadline, id) order, until a stop is requested. Writing the
      deadline of a search whose row is gone raises, and the searches before it stay dispatched. */
  function PassOver(rows: map<nat, Row>, entries: map<nat, Entry>, stopped: bool, now: Instant, stopSeen: nat -> bool): Pass {
    var due := DueOrder(entries, now);
    var j := HaltAt(rows, due, stopped, stopSeen, 0);
    DispatchedArePresent(rows, entries, stopped, now, stopSeen);
    var (rows', entries') := Passed(rows, entries, due[..j], now);
    var stop := stopped || (j < |due| && stopSeen(j));
    Pass(rows', entries', stop, if j == |due| || stop then Ok(due[..j]) else Raised(SearchNotFound))
  }

  /** A pass dispatches a prefix of what is due, all of it unless it is stopped or raises; it raises
      exactly when it comes, not stopped, to a search whose row is gone. */
  lemma PassDispatchesInOrder(rows: map<nat, Row>, entries: map<nat, Entry>, stopped: bool, now: Instant, stopSeen: nat -> bool)
    ensures var due, p := DueOrder(entries, now), PassOver(rows, entries, stopped, now, stopSeen);
            && p.rows.Keys == rows.Keys && p.entries.Keys == entries.Keys
            && (p.result.Ok? ==> p.result.value <= due && (!p.stopped ==> p.result.value == due))
            && (stopped && p.result.Ok? ==> p.result.value == [])
            && (p.stopped <==> stopped || exists i :: 0 <= i < |due| && stopSeen(i) && forall k :: 0 <= k < i ==> due[k] in rows && !stopSeen(k))
            && (p.result.Raised? <==> exists i :: 0 <= i < |due| && due[i] !in rows && !stopSeen(i) && !stopped &&
                                                  forall k :: 0 <= k < i ==> due[k] in rows && !stopSeen(k))
  {
    hide DueOrder, Passed;
    var due := DueOrder(entries, now);
    var j := HaltAt(rows, due, stopped, stopSeen, 0);
    var p := PassOver(rows, entries, stopped, now, stopSeen);
  }

  /** An earlier deadline, or the same one and a lesser id. */
  predicate Sooner(entries: map<nat, Entry>, a: nat, b: nat)
    requires a in entries && b in entries
  {
    entries[a].nextRun < entries[b].nextRun || (entries[a].nextRun == entries[b].nextRun && a < b)
  }

  lemma DueOrderSpelledOut(entries: map<nat, Entry>, now: Instant)
    ensures var due := DueOrder(entries, now);
            && (forall id :: id in due <==> id in entries && entries[id].nextRun <= now)
            && (forall i :: 0 <= i < |due| ==> due[i] in entries && entries[due[i]].nextRun <= now)
            && (forall i, j :: 0 <= i < j < |due| ==> Sooner(entries, due[i], due[j]))
  {
    var due := DueOrder(entries, now);
    forall i | 0 <= i < |due| ensures due[i] in entries && entries[due[i]].nextRun <= now {
      assert due[i] in DueIds(entries, now);
    }
    forall i, j | 0 <= i < j < |due| ensures Sooner(entries, due[i], due[j]) {
      assert Before(Deadlines(entries), due[i], due[j]);
    }
  }

  /** In terms of the entries: what a pass reports was due, each search once and in the order of its
      deadline and id; and a search that was due is missing only from a pass that was stopped, and
      comes after all that are reported. */
  lemma PassReportsExactlyWhatIsDue(rows: map<nat, Row>, entries: map<nat, Entry>, stopped: bool, now: Instant, stopSeen: nat -> bool)
    ensures var p := PassOver(rows, entries, stopped, now, stopSeen);
            p.result.Ok? ==>
              var ids := p.result.value;
              && (forall i :: 0 <= i < |ids| ==> ids[i] in entries && entries[ids[i]].nextRun <= now)
              && (forall i, j :: 0 <= i < j < |ids| ==> Sooner(entries, ids[i], ids[j]))
              && (forall id :: id in entries && entries[id].nextRun <= now && id !in ids ==>
                    p.stopped && forall i :: 0 <= i < |ids| ==> Sooner(entries, ids[i], id))
  {
    var due := DueOrder(entries, now);
    PassDispatchesInOrder(rows, entries, stopped, now, stopSeen);
    DueOrderSpelledOut(entries, now);
    var p := PassOver(rows, entries, stopped, now, stopSeen);
    hide DueOrder, PassOver, Sooner;
    if p.result.Ok? {
      var ids := p.result.value;
      assert forall i :: 0 <= i < |ids| ==> ids[i] == due[i];
      forall id | id in entries && entries[id].nextRun <= now && id !in ids
        ensures p.stopped && forall i :: 0 <= i < |ids| ==> Sooner(entries, ids[i], id)
      {
        var k :| 0 <= k < |due| && due[k] == id;
        assert k >= |ids|;
      }
    }
  }

  /** What a pass writes: a search is left as it was, or it was due, and its deadline is then one
      interval after the clock reading, on disk to the millisecond and with the deadline it met. A pass
      that is neither stopped nor raises does so to every search that was due. */
  lemma PassMovesExactlyWhatIsDue(rows: map<nat, Row>, entries: map<nat, Entry>, stopped: bool, now: Instant, stopSeen: nat -> bool, id: nat)
    requires id in entries && id in rows
    ensures var p := PassOver(rows, entries, stopped, now, stopSeen);
            var next := now + entries[id].interval * SECOND;
            && id in p.entries && id in p.rows
            && (|| (p.entries[id] == entries[id] && p.rows[id] == rows[id] &&
                    (entries[id].nextRun <= now ==> p.stopped || p.result.Raised?))
                || (&& entries[id].nextRun <= now
                    && p.entries[id] == Entry(entries[id].interval, next)
                    && p.rows[id] == rows[id].(nextRun := Some(next / 1000 * 1000), lastScheduled := Some(entries[id].nextRun / 1000 * 1000))))
  {
    var due := DueOrder(entries, now);
    var j := HaltAt(rows, due, stopped, stopSeen, 0);
    DispatchedArePresent(rows, entries, stopped, now, stopSeen);
    PrefixIsDistinct(entries, now, j, id);
    PassedEntries(rows, entries, due[..j], now);
    PassedRows(rows, entries, due[..j], now, id);
    hide DueOrder, Passed, Present, HaltAt;
  }

  lemma PrefixIsDistinct(entries: map<nat, Entry>, now: Instant, j: nat, id: nat)
    requires j <= |DueOrder(entries, now)|
    ensures var ids := DueOrder(entries, now)[..j];
            && (forall a, b :: 0 <= a < b < |ids| ==> ids[a] != ids[b])
            && (id in ids ==> id in entries && entries[id].nextRun <= now)
            && (id in entries && entries[id].nextRun <= now && j == |DueOrder(entries, now)| ==> id in ids)
  {
    DueAreDistinct(entries, now);
    DueOrderSpelledOut(entries, now);
    var due := DueOrder(entries, now);
    hide DueOrder;
    if j == |due| { assert due[..j] == due; }
    if id in due[..j] {
      var k :| 0 <= k < j && due[..j][k] == id;
      assert due[k] == id;
    }
  }

  lemma {:induction false} PassedRows(rows: map<nat, Row>, entries: map<nat, Entry>, ids: seq<nat>, now: Instant, id: nat)
    requires Present(rows, entries, ids) && id in rows && id in entries
    requires forall a, b :: 0 <= a < b < |ids| ==> ids[a] != ids[b]
    ensures var after := Passed(rows, entries, ids, now).0;
            after[id] == if id !in ids then rows[id]
                         else rows[id].(nextRun := Some((now + entries[id].interval * SECOND) / 1000 * 1000),
                                        lastScheduled := Some(entries[id].nextRun / 1000 * 1000))
  {
    if ids != [] {
      var init, last := ids[..|ids| - 1], ids[|ids| - 1];
      assert ids == init + [last];
      PassedRows(rows, entries, init, now, id);
      PassedEntries(rows, entries, init, now);
      assert last !in init;
    }
  }

  /** Right after a pass that was neither stopped nor raised nothing is due at the same clock reading. */
  lemma ImmediateRepeatDispatchesNothing(rows: map<nat, Row>, entries: map<nat, Entry>, stopped: bool, now: Instant, stopSeen: nat -> bool)
    requires var p := PassOver(rows, entries, stopped, now, stopSeen); p.result.Ok? && !p.stopped
    ensures DueOrder(PassOver(rows, entries, stopped, now, stopSeen).entries, now) == []
  {
    var due := DueOrder(entries, now);
    DispatchedArePresent(rows, entries, stopped, now, stopSeen);
    assert HaltAt(rows, due, stopped, stopSeen, 0) == |due| && due[..|due|] == due;
    PassedEntries(rows, entries, due, now);
    var after := Passed(rows, entries, due, now).1;
    forall id | id in after ensures after[id].nextRun > now {
      assert id in DueIds(entries, now) <==> id in due;
    }
    assert DueIds(after, now) == {};
  }

  // ---------- A pass as part of a run ----------

  /** The dispatches of a pass, as actions of a run. */
  function PassActions(ids: seq<nat>, now: Instant): seq<Action> {
    seq(|ids|, i requires 0 <= i < |ids| => Action.Run(ids[i], now))
  }

  lemma {:induction false} RunAllConcat(w: World, a: seq<Action>, b: seq<Action>)
    ensures RunAll(w, a + b) == RunAll(RunAll(w, a), b)
    decreases |a|
  {
    if a == [] {
      assert a + b == b;
    } else {
      assert (a + b)[0] == a[0] && (a + b)[1..] == a[1..] + b;
      RunAllConcat(Apply(w, a[0]), a[1..], b);
    }
  }

  /** A pass of the object is a run of dispatch actions, so the spacing results cover it. */
  lemma {:induction false} PassIsARun(w: World, ids: seq<nat>, now: Instant)
    requires Present(w.rows, w.entries, ids)
    ensures var after := RunAll(w, PassActions(ids, now));
            && (after.rows, after.entries) == Passed(w.rows, w.entries, ids, now)
            && after.epoch == w.epoch
            && |after.log| == |w.log| + |ids|
            && forall i :: 0 <= i < |ids| ==> after.log[|w.log| + i] == Dispatch(ids[i], now, w.epoch)
  {
    if ids != [] {
      hide Written, Advanced;
      var init, last := ids[..|ids| - 1], ids[|ids| - 1];
      PassIsARun(w, init, now);
      assert PassActions(ids, now) == PassActions(init, now) + [Action.Run(last, now)];
      RunAllConcat(w, PassActions(init, now), [Action.Run(last, now)]);
      var mid := RunAll(w, PassActions(init, now));
      RunOne(mid, Action.Run(last, now));
    }
  }

  lemma RunOne(w: World, action: Action)
    ensures RunAll(w, [action]) == Apply(w, action)
  {
    assert [action][1..] == [];
    assert RunAll(Apply(w, action), []) == Apply(w, action);
  }

  lemma {:induction false} AllAllowedConcat(w: World, every: nat -> Interval, a: seq<Action>, last: Action)
    requires AllAllowed(w, every, a) && Allowed(RunAll(w, a), every, last)
    ensures AllAllowed(w, every, a + [last])
    decreases |a|
  {
    hide Allowed, Apply;
    if a == [] {
      assert ([] + [last])[1..] == [];
      assert AllAllowed(Apply(w, last), every, []);
    } else {
      assert (a + [last])[0] == a[0] && (a + [last])[1..] == a[1..] + [last];
      AllAllowedConcat(Apply(w, a[0]), every, a[1..], last);
    }
  }

  /** Every pass over what is due consists of allowed dispatches, so the spacing results hold of the object. */
  lemma {:induction false} PassIsAllowed(w: World, every: nat -> Interval, due: seq<nat>, i: nat, now: Instant)
    requires due == DueOrder(w.entries, now) && i <= |due| && Present(w.rows, w.entries, due[..i]) && w.clock <= now
    ensures AllAllowed(w, every, PassActions(due[..i], now))
    ensures RunAll(w, PassActions(due[..i], now)).clock <= now
  {
    hide Passed, Written, Advanced, DueOrder;
    if i == 0 {
      assert PassActions(due[..0], now) == [];
    } else {
      assert due[..i][i - 1] == due[i - 1] && due[..i][..i - 1] == due[..i - 1];
      assert Present(w.rows, w.entries, due[..i - 1]);
      PassIsAllowed(w, every, due, i - 1, now);
      StillDue(w.rows, w.entries, due, i - 1, now);
      var before, last := PassActions(due[..i - 1], now), Action.Run(due[i - 1], now);
      assert PassActions(due[..i], now) == before + [last];
      PassIsARun(w, due[..i - 1], now);
      AllAllowedConcat(w, every, before, last);
      RunAllConcat(w, before, [last]);
      RunOne(RunAll(w, before), last);
    }
  }

  // ---------- Sleeping ----------

  /** How long the loop sleeps: until the nearest deadline, or without end when there is none. */
  function Timeout(entries: map<nat, Entry>, now: Instant): Option<int> {
    if entries == map[] then None
    else
      var first := Least(entries.Keys, Deadlines(entries));
      var gap := entries[first].nextRun - now;
      Some(if gap < 0 then 0 else gap)
  }

  /** Waking after the timeout something is due, and no search was due before. */
  lemma TimeoutIsNearestDeadline(entries: map<nat, Entry>, now: Instant)
    ensures match Timeout(entries, now)
            case None => entries == map[]
            case Some(t) =>
              && t >= 0
              && (exists id :: id in entries && entries[id].nextRun <= now + t)
              && (forall id :: id in entries && entries[id].nextRun < now + t ==> t == 0)
  {
    if entries != map[] {
      var first := Least(entries.Keys, Deadlines(entries));
      forall id | id in entries ensures entries[first].nextRun <= entries[id].nextRun {
        assert id == first || Before(Deadlines(entries), first, id);
      }
    }
  }
}
