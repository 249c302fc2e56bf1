/** The background worker for duplicate candidates: a bounded queue, a pending counter under a
    lock, and shutdown by a stop marker. Every step below is atomic; any number of threads submit
    and shut down, in any order. */
module DuplicateWorker {
  import opened Wrappers
  import opened Ordering

  type Batch = seq<nat>

  datatype Item = Work(batch: Batch) | Stop

  /** The lock is free, or a submitter holds it after putting its batch and before counting it. */
  datatype Lock = Free | Submitting

  datatype Worker = NotStarted | Waiting | Processing(batch: Batch) | Finished | Stopped

  /** `leaving` counts shutdowns between closing the intake and looking for the thread; `stopping`
      counts those that found it and have yet to put their stop marker. `accepted` and `processed`
      are the batches accepted and processed so far, in order. */
  datatype State = State(
    capacity: nat, queue: seq<Item>, accepting: bool, pending: int, lock: Lock, worker: Worker,
    leaving: nat, stopping: nat, accepted: seq<Batch>, processed: seq<Batch>)

  datatype Action =
    | Start
    | SubmitPut(batch: Batch)
    | SubmitCount
    | StopAccepting
    | ShutdownClose
    | ShutdownLook
    | ShutdownPut
    | Get
    | Process
    | Decrement

  /** What an action does where it can happen; elsewhere it has to wait and changes nothing. */
  function Step(s: State, action: Action): State {
    match action
    case Start =>
      if s.lock.Free? && s.worker.NotStarted? then s.(accepting := true, worker := Waiting) else s
    case SubmitPut(batch) =>
      if s.lock.Free? && batch != [] && s.accepting && |s.queue| < s.capacity then
        s.(queue := s.queue + [Work(batch)], lock := Submitting, accepted := s.accepted + [batch])
      else s
    case SubmitCount =>
      if s.lock.Submitting? then s.(pending := s.pending + 1, lock := Free) else s
    case StopAccepting =>
      if s.lock.Free? then s.(accepting := false) else s
    case ShutdownClose =>
      if s.lock.Free? then s.(accepting := false, leaving := s.leaving + 1) else s
    case ShutdownLook =>
      if s.lock.Free? && s.leaving > 0 then
        s.(leaving := s.leaving - 1, stopping := if s.worker.NotStarted? then s.stopping else s.stopping + 1)
      else s
    case ShutdownPut =>
      if s.stopping > 0 && |s.queue| < s.capacity then s.(stopping := s.stopping - 1, queue := s.queue + [Stop]) else s
    case Get =>
      if s.worker.Waiting? && s.queue != [] then
        match s.queue[0]
        case Work(batch) => s.(queue := s.queue[1..], worker := Processing(batch))
        case Stop => s.(queue := s.queue[1..], worker := Stopped)
      else s
    case Process =>
      if s.worker.Processing? then s.(worker := Finished, processed := s.processed + [s.worker.batch]) else s
    case Decrement =>
      if s.worker.Finished? && s.lock.Free? then s.(pending := s.pending - 1, worker := Waiting) else s
  }

  function Run(s: State, actions: seq<Action>): State
    decreases |actions|
  {
    if actions == [] then s else Run(Step(s, actions[0]), actions[1..])
  }

  /** The worker is not started between the two halves of a shutdown. Starting it again does nothing. */
  predicate StartsOutsideShutdown(s: State, actions: seq<Action>)
    decreases |actions|
  {
    actions == [] || ((actions[0].Start? && s.worker.NotStarted? ==> s.leaving == 0) && StartsOutsideShutdown(Step(s, actions[0]), actions[1..]))
  }

  function Initial(capacity: nat): State {
    State(capacity, [], false, 0, Free, NotStarted, 0, 0, [], [])
  }

  /** The batches waiting in the queue. */
  function Queued(queue: seq<Item>): seq<Batch> {
    if queue == [] then []
    else (match queue[0] case Work(batch) => [batch] case Stop => []) + Queued(queue[1..])
  }

  function InProcessing(worker: Worker): seq<Batch> {
    match worker case Processing(batch) => [batch] case _ => []
  }

  /** Batches taken from the queue whose decrement is still to come. */
  function Undecremented(worker: Worker): nat {
    if worker.Processing? || worker.Finished? then 1 else 0
  }

  predicate StopsAreLast(queue: seq<Item>) {
    forall i, j :: 0 <= i < j < |queue| && queue[i].Stop? ==> queue[j].Stop?
  }

  predicate Closing(s: State) { s.stopping > 0 || Stop in s.queue || s.worker.Stopped? }

  predicate Invariant(s: State) {
    && s.accepted == s.processed + InProcessing(s.worker) + Queued(s.queue)
    && s.pending + (if s.lock.Submitting? then 1 else 0) == |Queued(s.queue)| + Undecremented(s.worker)
    && s.pending >= 0
    && StopsAreLast(s.queue)
    && (Closing(s) || s.leaving > 0 || s.worker.NotStarted? ==> !s.accepting)
    && (!s.accepting ==> s.lock.Free?)
    && (s.worker.NotStarted? ==> s.queue == [] && s.stopping == 0)
    && (s.worker.Stopped? ==> Queued(s.queue) == [])
  }

  lemma {:induction false} QueuedConcat(a: seq<Item>, b: seq<Item>)
    ensures Queued(a + b) == Queued(a) + Queued(b)
  {
    if a == [] {
      assert a + b == b;
    } else {
      assert (a + b)[0] == a[0] && (a + b)[1..] == a[1..] + b;
      QueuedConcat(a[1..], b);
    }
  }

  lemma {:induction false} OnlyStops(queue: seq<Item>)
    requires StopsAreLast(queue) && queue != [] && queue[0].Stop?
    ensures Queued(queue[1..]) == []
    decreases |queue|
  {
    if |queue| > 1 {
      assert queue[1].Stop?;
      OnlyStops(queue[1..]);
    }
  }

  lemma AppendKeepsStopsLast(queue: seq<Item>, item: Item)
    requires StopsAreLast(queue) && (item.Work? ==> Stop !in queue)
    ensures StopsAreLast(queue + [item])
  {
  }

  lemma SubmitPutKeeps(s: State, batch: Batch)
    requires Invariant(s)
    ensures Invariant(Step(s, SubmitPut(batch)))
  {
    if s.lock.Free? && batch != [] && s.accepting && |s.queue| < s.capacity {
      QueuedConcat(s.queue, [Work(batch)]);
      assert Queued([Work(batch)]) == [batch] by { assert [Work(batch)][1..] == []; }
      AppendKeepsStopsLast(s.queue, Work(batch));
      hide Queued, StopsAreLast;
      assert s.accepted + [batch] == s.processed + InProcessing(s.worker) + (Queued(s.queue) + [batch]);
    }
  }

  lemma ShutdownPutKeeps(s: State)
    requires Invariant(s)
    ensures Invariant(Step(s, ShutdownPut))
  {
    if s.stopping > 0 && |s.queue| < s.capacity {
      QueuedConcat(s.queue, [Stop]);
      assert Queued([Stop]) == [] by { assert [Stop][1..] == []; }
      AppendKeepsStopsLast(s.queue, Stop);
      hide Queued, StopsAreLast;
      assert Queued(s.queue) + [] == Queued(s.queue);
    }
  }

  lemma GetKeeps(s: State)
    requires Invariant(s)
    ensures Invariant(Step(s, Get))
  {
    if s.worker.Waiting? && s.queue != [] {
      assert s.queue == [s.queue[0]] + s.queue[1..];
      assert StopsAreLast(s.queue[1..]);
      if s.queue[0].Stop? {
        OnlyStops(s.queue);
        assert Queued(s.queue) == [] + Queued(s.queue[1..]);
      } else {
        assert Queued(s.queue) == [s.queue[0].batch] + Queued(s.queue[1..]);
        assert s.processed + [] + Queued(s.queue) == s.processed + [s.queue[0].batch] + Queued(s.queue[1..]);
      }
    }
  }

  lemma StepKeeps(s: State, action: Action)
    requires Invariant(s) && (action.Start? && s.worker.NotStarted? ==> s.leaving == 0)
    ensures Invariant(Step(s, action))
  {
    match action
    case SubmitPut(batch) => SubmitPutKeeps(s, batch);
    case ShutdownPut => ShutdownPutKeeps(s);
    case Get => GetKeeps(s);
    case _ => hide Queued, StopsAreLast;
  }

  lemma {:induction false} RunKeeps(s: State, actions: seq<Action>)
    requires Invariant(s) && StartsOutsideShutdown(s, actions)
    ensures Invariant(Run(s, actions))
    decreases |actions|
  {
    if actions != [] {
      StepKeeps(s, actions[0]);
      RunKeeps(Step(s, actions[0]), actions[1..]);
    }
  }

  /** Whatever the interleaving, with the worker started outside shutdowns: batches are processed in
      the order they were accepted, each once; once the worker has consumed a stop marker, and
      whenever an idle wait can return, every accepted batch has been processed; while the lock is
      free the counter is exactly the batches queued or not yet counted down, and it never is
      negative. */
  lemma EveryAcceptedBatchIsProcessedOnce(capacity: nat, actions: seq<Action>)
    requires StartsOutsideShutdown(Initial(capacity), actions)
    ensures var s := Run(Initial(capacity), actions);
            && s.processed <= s.accepted
            && (s.worker.Stopped? ==> s.processed == s.accepted)
            && (s.lock.Free? && s.pending == 0 ==> s.processed == s.accepted)
            && (s.lock.Free? ==> s.pending == |Queued(s.queue)| + Undecremented(s.worker))
            && s.pending >= 0
  {
    RunKeeps(Initial(capacity), actions);
  }

  predicate NothingLost(s: State) { s.worker.Stopped? ==> s.processed == s.accepted }

  /** What happens when the worker is started between the two halves of a shutdown: it finds the
      stop marker of that shutdown and ends, and a batch is still accepted and never processed. */
  function LosingRun(batch: Batch): seq<Action> {
    [Start, ShutdownLook, ShutdownPut, Get, SubmitPut(batch), SubmitCount]
  }

  lemma StartInsideShutdownLosesABatch(s: State, batch: Batch)
    requires Invariant(s) && s.worker.NotStarted? && s.leaving > 0 && s.capacity >= 1 && batch != []
    ensures var after := Run(s, LosingRun(batch));
            && after.worker.Stopped? && after.queue == [Work(batch)]
            && after.accepted == s.accepted + [batch] && after.processed == s.processed == s.accepted
  {
    NotStartedIsEmpty(s);
    hide Invariant;
    var stopped := s.(accepting := true, worker := Stopped, leaving := s.leaving - 1);
    StartedInsideStops(s);
    RunConcat(s, [Start, ShutdownLook, ShutdownPut, Get], [SubmitPut(batch), SubmitCount]);
    assert LosingRun(batch) == [Start, ShutdownLook, ShutdownPut, Get] + [SubmitPut(batch), SubmitCount];
    RunUnfolds(stopped, [SubmitPut(batch), SubmitCount]);
    RunUnfolds(Step(stopped, SubmitPut(batch)), [SubmitPut(batch), SubmitCount][1..]);
    assert [SubmitPut(batch), SubmitCount][1..][1..] == [];
    hide Run;
  }

  lemma NotStartedIsEmpty(s: State)
    requires Invariant(s) && s.worker.NotStarted?
    ensures s.lock.Free? && s.queue == [] && s.stopping == 0 && s.processed == s.accepted && !s.accepting
  {
  }

  lemma StartedInsideStops(s: State)
    requires s.lock.Free? && s.queue == [] && s.stopping == 0 && s.worker.NotStarted? && s.leaving > 0 && s.capacity >= 1
    ensures Run(s, [Start, ShutdownLook, ShutdownPut, Get]) == s.(accepting := true, worker := Stopped, leaving := s.leaving - 1)
  {
    var actions := [Start, ShutdownLook, ShutdownPut, Get];
    var s1 := s.(accepting := true, worker := Waiting);
    var s2 := s1.(leaving := s.leaving - 1, stopping := 1);
    var s3 := s2.(stopping := 0, queue := [Stop]);
    assert Step(s, Start) == s1 && Step(s1, ShutdownLook) == s2 && Step(s2, ShutdownPut) == s3;
    assert [Stop][1..] == [];
    RunUnfolds(s, actions);
    RunUnfolds(s1, actions[1..]);
    RunUnfolds(s2, actions[1..][1..]);
    RunUnfolds(s3, actions[1..][1..][1..]);
    assert actions[1..][1..][1..][1..] == [];
    hide Run;
  }

  lemma {:induction false} RunConcat(s: State, a: seq<Action>, b: seq<Action>)
    ensures Run(s, a + b) == Run(Run(s, a), b)
    decreases |a|
  {
    if a == [] {
      assert a + b == b;
    } else {
      assert (a + b)[0] == a[0] && (a + b)[1..] == a[1..] + b;
      RunConcat(Step(s, a[0]), a[1..], b);
    }
  }

  lemma {:induction false} StartedStaysOutside(s: State, actions: seq<Action>)
    requires !s.worker.NotStarted?
    ensures StartsOutsideShutdown(s, actions)
    decreases |actions|
  {
    if actions != [] { StartedStaysOutside(Step(s, actions[0]), actions[1..]); }
  }

  /** Starting the worker is safe exactly outside shutdowns: every continuation has processed all
      accepted batches when the worker stops if and only if no shutdown is between its halves. */
  lemma StartIsSafeExactlyOutsideShutdown(s: State, batch: Batch)
    requires Invariant(s) && s.worker.NotStarted? && s.capacity >= 1 && batch != []
    ensures (forall actions {:trigger Run(Step(s, Start), actions)} :: NothingLost(Run(Step(s, Start), actions))) <==> s.leaving == 0
  {
    if s.leaving == 0 {
      StepKeeps(s, Start);
      forall actions: seq<Action> ensures NothingLost(Run(Step(s, Start), actions)) {
        StartedStaysOutside(Step(s, Start), actions);
        RunKeeps(Step(s, Start), actions);
        hide Step, Run;
      }
    } else {
      StartInsideShutdownLosesABatch(s, batch);
      RunUnfolds(s, LosingRun(batch));
      assert !NothingLost(Run(Step(s, Start), LosingRun(batch)[1..]));
    }
  }

  /** Such a state is reached from the start: a shutdown has closed the intake and not yet looked. */
  lemma UnsafeStartIsReachable(capacity: nat)
    requires capacity >= 1
    ensures var s := Run(Initial(capacity), [ShutdownClose]);
            Invariant(s) && s.worker.NotStarted? && s.leaving == 1 && s.accepted == [] && !s.accepting
  {
    RunUnfolds(Initial(capacity), [ShutdownClose]);
    assert [ShutdownClose][1..] == [];
  }

  predicate Starts(actions: seq<Action>) { exists i :: 0 <= i < |actions| && actions[i].Start? }

  lemma {:induction false} ClosedStaysClosed(s: State, actions: seq<Action>)
    requires !s.accepting && !Starts(actions)
    ensures !Run(s, actions).accepting && Run(s, actions).accepted == s.accepted
    decreases |actions|
  {
    if actions != [] {
      assert !actions[0].Start?;
      forall i | 0 <= i < |actions[1..]| ensures !actions[1..][i].Start? {
        assert actions[1..][i] == actions[i + 1];
      }
      ClosedStaysClosed(Step(s, actions[0]), actions[1..]);
    }
  }

  /** Once the intake is closed, by `stop_accepting` or by the first half of a shutdown, no batch is
      accepted any more, whatever threads do, unless the worker is started. */
  lemma ClosedAcceptsNothing(s: State, close: Action, actions: seq<Action>)
    requires s.lock.Free? && (close.StopAccepting? || close.ShutdownClose?) && !Starts(actions)
    ensures Run(Step(s, close), actions).accepted == s.accepted
  {
    ClosedStaysClosed(Step(s, close), actions);
  }

  /** A batch is accepted exactly when the intake is open, the batch is not empty and the queue has room;
      it is then the last one queued, and is counted in the next step. */
  lemma SubmittingSpelledOut(s: State, batch: Batch)
    requires s.lock.Free?
    ensures var after := Step(Step(s, SubmitPut(batch)), SubmitCount);
            if s.accepting && batch != [] && |s.queue| < s.capacity
            then after == s.(queue := s.queue + [Work(batch)], accepted := s.accepted + [batch], pending := s.pending + 1)
            else after == s
  {
  }

  /** The worker takes batches from the front, one at a time, and counts a batch down once, after it has
      processed it. */
  lemma WorkingSpelledOut(s: State, batch: Batch)
    requires s.lock.Free? && s.worker.Waiting? && |s.queue| > 0 && s.queue[0] == Work(batch)
    ensures Step(Step(Step(s, Get), Process), Decrement) ==
              s.(queue := s.queue[1..], processed := s.processed + [batch], pending := s.pending - 1)
  {
  }

  lemma RunUnfolds(s: State, actions: seq<Action>)
    requires actions != []
    ensures Run(s, actions) == Run(Step(s, actions[0]), actions[1..])
  {
  }

  // ---------- The worker object ----------

  /** What the worker thread does next; it does nothing more once it has stopped. */
  function OwnAction(worker: Worker): Action {
    match worker
    case Processing(_) => Process
    case Finished => Decrement
    case _ => Get
  }

  /** Left alone, the worker takes the first batch, processes it and counts it down in three steps, and
      takes a stop marker in one; on an empty queue it waits. */
  lemma OwnActionsSpelledOut(s: State)
    requires s.lock.Free? && s.worker.Waiting?
    ensures var one := Step(s, OwnAction(s.worker));
            var two := Step(one, OwnAction(one.worker));
            var three := Step(two, OwnAction(two.worker));
            && (s.queue == [] ==> one == s)
            && (s.queue != [] && s.queue[0] == Stop ==> one == s.(queue := s.queue[1..], worker := Stopped) && two == one)
            && (s.queue != [] && s.queue[0].Work? ==>
                  three == s.(queue := s.queue[1..], processed := s.processed + [s.queue[0].batch], pending := s.pending - 1))
  {
  }

  /** The actions of the other threads before each of the first `n` steps of the worker, and these steps. */
  function Interleaved(s: State, others: nat -> seq<Action>, n: nat): seq<Action> {
    if n == 0 then []
    else
      var before := Interleaved(s, others, n - 1) + others(n - 1);
      before + [OwnAction(Run(s, before).worker)]
  }

  class DuplicateCandidateWorker {
    var state: State

    constructor (capacity: nat)
      requires capacity >= 1
      ensures state == Initial(capacity)
    {
      state := Initial(capacity);
    }

    /** Accept a batch, with repeated ids dropped, unless closed or full; an empty batch is accepted
        without queueing. The whole call holds the lock. */
    method Submit(ids: seq<nat>) returns (accepted: bool)
      requires state.lock.Free?
      modifies this
      ensures var batch := FirstOccurrences(ids);
              && accepted == (batch == [] || (old(state).accepting && |old(state).queue| < old(state).capacity))
              && state == (if accepted && batch != [] then Step(Step(old(state), SubmitPut(batch)), SubmitCount) else old(state))
    {
      var batch := FirstOccurrences(ids);
      if batch == [] { return true; }
      if !state.accepting { return false; }
      if |state.queue| >= state.capacity { return false; }
      state := state.(queue := state.queue + [Work(batch)], accepted := state.accepted + [batch]);
      state := state.(pending := state.pending + 1);
      return true;
    }

    /** The worker loop for a number of its steps, with whatever other threads do before each of them.
        All of it is one run, so what holds of every run holds here: whatever was submitted meanwhile,
        everything accepted has been processed when the loop reaches its stop marker. */
    method WorkAmid(others: nat -> seq<Action>, steps: nat) returns (ghost trace: seq<Action>)
      requires Invariant(state) && !state.worker.NotStarted?
      modifies this
      ensures trace == Interleaved(old(state), others, steps) && state == Run(old(state), trace)
      ensures Invariant(state) && state.processed <= state.accepted
      ensures state.worker.Stopped? ==> state.processed == state.accepted
    {
      trace := [];
      for n := 0 to steps
        invariant trace == Interleaved(old(state), others, n) && state == Run(old(state), trace)
      {
        RunConcat(old(state), trace, others(n));
        state := Run(state, others(n));
        var own := OwnAction(state.worker);
        RunConcat(old(state), trace + others(n), [own]);
        RunUnfolds(state, [own]);
        assert [own][1..] == [];
        state := Step(state, own);
        trace := trace + others(n) + [own];
      }
      StartedStaysOutside(old(state), trace);
      RunKeeps(old(state), trace);
    }

    /** The worker loop while nobody submits: it stops at the first stop marker, or waits on an
        empty queue; it returns the batches it processed. */
    method Drain() returns (batches: seq<Batch>)
      requires Invariant(state) && state.worker.Waiting? && state.lock.Free?
      modifies this
      ensures Invariant(state) && (state.worker.Stopped? || (state.worker.Waiting? && state.queue == []))
      ensures state.processed == old(state).processed + batches && state.accepted == old(state).accepted
      ensures batches == Queued(old(state).queue)
    {
      batches := [];
      while state.worker.Waiting? && state.queue != []
        invariant Invariant(state) && state.lock.Free? && (state.worker.Waiting? || state.worker.Stopped?)
        invariant state.processed == old(state).processed + batches && state.accepted == old(state).accepted
        decreases |state.queue|
      {
        StepKeeps(state, Get);
        var item := state.queue[0];
        state := Step(state, Get);
        match item {
          case Stop =>
          case Work(batch) =>
            StepKeeps(state, Process);
            state := Step(state, Process);
            batches := batches + [batch];
            StepKeeps(state, Decrement);
            state := Step(state, Decrement);
        }
      }
      assert Queued(state.queue) == [];
      assert state.accepted[|old(state).processed|..] == batches;
      assert old(state).accepted[|old(state).processed|..] == Queued(old(state).queue);
    }
  }
}
