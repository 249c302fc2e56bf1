/** Ordered schema migrations, each applied in its own transaction with its history row. */
module Migrations {
  import opened Wrappers

  /** `apply` changes the schema or raises. */
  datatype Migration<!S> = Migration(version: int, name: string, apply: S -> Option<S>)

  datatype Error = ValueError | HistoryError | MigrationFailed | IntegrityError

  /** What `MigrationRunner` accepts: contiguous versions from 1 and unique names. */
  predicate Accepted<S>(migrations: seq<Migration<S>>) {
    && (forall i :: 0 <= i < |migrations| ==> migrations[i].version == i + 1)
    && (forall i, j :: 0 <= i < j < |migrations| ==> migrations[i].name != migrations[j].name)
  }

  type History = map<int, string>  // version -> name; the version is the primary key

  /** The history rows of the first `k` migrations. */
  function Prefix<S>(migrations: seq<Migration<S>>, k: nat): (rows: History)
    requires k <= |migrations|
    ensures |rows| == k
    ensures forall v :: v in rows <==> 1 <= v <= k
  {
    if k == 0 then map[] else Prefix(migrations, k - 1)[k := migrations[k - 1].name]
  }

  /** The schema after the first `k` migrations. */
  function Fold<S>(migrations: seq<Migration<S>>, initial: S, k: nat): Option<S>
    requires k <= |migrations|
  {
    if k == 0 then Some(initial)
    else
      match Fold(migrations, initial, k - 1)
      case None => None
      case Some(schema) => migrations[k - 1].apply(schema)
  }

  /** `_validate_history`: the rows in version order are the first migrations, one for one. */
  predicate ValidHistory<S>(migrations: seq<Migration<S>>, history: History) {
    |history| <= |migrations| && history == Prefix(migrations, |history|)
  }

  /** One transaction: apply a migration and insert its row, or leave everything as it was. A row
      with the same version or the same name rejects the insertion. */
  function Transact<S>(schema: S, history: History, m: Migration<S>): Result<(S, History), Error> {
    match m.apply(schema)
    case None => Raised(MigrationFailed)
    case Some(after) =>
      if m.version in history || m.name in history.Values then Raised(IntegrityError)
      else Ok((after, history[m.version := m.name]))
  }

  lemma {:induction false} PrefixNames<S>(migrations: seq<Migration<S>>, k: nat)
    requires k <= |migrations|
    ensures forall v :: v in Prefix(migrations, k) ==> Prefix(migrations, k)[v] == migrations[v - 1].name
  {
    if k > 0 { PrefixNames(migrations, k - 1); }
  }

  /** The next migration is accepted after its prefix and refused after any longer one. */
  lemma TransactAfterPrefix<S>(migrations: seq<Migration<S>>, schema: S, k: nat, j: nat)
    requires Accepted(migrations) && j < |migrations| && j <= k <= |migrations|
    ensures var r := Transact(schema, Prefix(migrations, k), migrations[j]);
            match migrations[j].apply(schema)
            case None => r == Raised(MigrationFailed)
            case Some(after) => r == if j == k then Ok((after, Prefix(migrations, k + 1))) else Raised(IntegrityError)
  {
    var m := migrations[j];
    if j == k {
      PrefixNames(migrations, k);
      var history := Prefix(migrations, k);
      forall name | name in history.Values ensures name != m.name {
        var v :| v in history && history[v] == name;
        assert migrations[v - 1].name == name;
      }
    }
  }

  lemma FoldOneMore<S>(migrations: seq<Migration<S>>, initial: S, k: nat)
    requires k < |migrations|
    ensures Fold(migrations, initial, k + 1) ==
              match Fold(migrations, initial, k) case None => None case Some(schema) => migrations[k].apply(schema)
  {
  }

  /** A history is valid exactly when it is no longer than the list and its versions, from 1 without a
      gap, carry the names of the list. */
  lemma ValidHistorySpelledOut<S>(migrations: seq<Migration<S>>, history: History)
    ensures ValidHistory(migrations, history) <==>
              && |history| <= |migrations|
              && (forall v :: v in history <==> 1 <= v <= |history|)
              && (forall v :: v in history ==> history[v] == migrations[v - 1].name)
  {
    if |history| <= |migrations| { PrefixNames(migrations, |history|); }
  }

  // ---------- One runner ----------

  class Database<!S> {
    var schema: S
    var history: History

    constructor (initial: S)
      ensures schema == initial && history == map[]
    {
      schema, history := initial, map[];
    }

    /** Apply what is pending. An invalid history changes nothing; a failing migration leaves the
        database at the prefix before it. */
    method Migrate(migrations: seq<Migration<S>>, ghost initial: S) returns (r: Result<nat, Error>)
      requires ValidHistory(migrations, history) ==> Fold(migrations, initial, |history|) == Some(schema)
      modifies this
      ensures !Accepted(migrations) ==> r == Raised(ValueError)
      ensures Accepted(migrations) && !ValidHistory(migrations, old(history)) ==> r == Raised(HistoryError)
      ensures !Accepted(migrations) || !ValidHistory(migrations, old(history)) ==> schema == old(schema) && history == old(history)
      ensures Accepted(migrations) && ValidHistory(migrations, old(history)) ==>
                && |old(history)| <= |history| <= |migrations|
                && history == Prefix(migrations, |history|)
                && Fold(migrations, initial, |history|) == Some(schema)
                && (if |history| == |migrations| then r == Ok(|migrations|)
                    else r == Raised(MigrationFailed) && migrations[|history|].apply(schema) == None)
    {
      hide Transact, Accepted, Prefix, Fold;
      if !Accepted(migrations) { return Raised(ValueError); }
      if !ValidHistory(migrations, history) { return Raised(HistoryError); }
      for i := |history| to |migrations|
        invariant history == Prefix(migrations, i) && |history| == i && |old(history)| <= i
        invariant Fold(migrations, initial, i) == Some(schema)
      {
        TransactAfterPrefix(migrations, schema, i, i);
        FoldOneMore(migrations, initial, i);
        match Transact(schema, history, migrations[i]) {
          case Raised(error) => return Raised(error);
          case Ok((after, rows)) => schema, history := after, rows;
        }
      }
      return Ok(|migrations|);
    }
  }

  // ---------- Any number of runners, crashing anywhere ----------

  datatype Runner = Idle | Running(next: nat) | Stopped

  /** `commits` is the log of the migrations whose effect was ever committed. */
  datatype World<!S> = World(schema: S, history: History, runners: map<nat, Runner>, commits: seq<nat>)

  datatype Action = Begin(runner: nat) | Commit(runner: nat) | Crash(runner: nat)

  /** Beginning reads and validates the history outside any transaction, so a runner may be behind
      by the time it commits. A crash inside a transaction rolls it back. */
  function Step<S>(migrations: seq<Migration<S>>, w: World<S>, action: Action): World<S> {
    var r := action.runner;
    var state := if r in w.runners then w.runners[r] else Idle;
    match action
    case Crash(_) => w.(runners := w.runners[r := Idle])
    case Begin(_) =>
      if ValidHistory(migrations, w.history) then w.(runners := w.runners[r := Running(|w.history|)])
      else w.(runners := w.runners[r := Stopped])
    case Commit(_) =>
      if !state.Running? then w
      else if state.next >= |migrations| then w.(runners := w.runners[r := Stopped])
      else
        match Transact(w.schema, w.history, migrations[state.next])
        case Raised(_) => w.(runners := w.runners[r := Stopped])
        case Ok((schema, history)) =>
          World(schema, history, w.runners[r := Running(state.next + 1)], w.commits + [state.next])
  }

  function Run<S>(migrations: seq<Migration<S>>, w: World<S>, actions: seq<Action>): World<S>
    decreases |actions|
  {
    if actions == [] then w else Run(migrations, Step(migrations, w, actions[0]), actions[1..])
  }

  /** The history is a prefix, the schema is the fold of exactly that prefix, every migration of the
      prefix was committed once and in order, and no runner is ahead. */
  ghost predicate Consistent<S>(migrations: seq<Migration<S>>, initial: S, w: World<S>) {
    var k := |w.commits|;
    && k <= |migrations|
    && w.history == Prefix(migrations, k)
    && Fold(migrations, initial, k) == Some(w.schema)
    && (forall i :: 0 <= i < k ==> w.commits[i] == i)
    && (forall r :: r in w.runners && w.runners[r].Running? ==> w.runners[r].next <= k)
  }

  lemma StepKeepsConsistent<S>(migrations: seq<Migration<S>>, initial: S, w: World<S>, action: Action)
    requires Accepted(migrations) && Consistent(migrations, initial, w)
    ensures Consistent(migrations, initial, Step(migrations, w, action))
  {
    hide Transact, Accepted;
    if action.Commit? && action.runner in w.runners {
      var state := w.runners[action.runner];
      if state.Running? && state.next < |migrations| {
        TransactAfterPrefix(migrations, w.schema, |w.commits|, state.next);
      }
    }
  }

  /** Exactly once: whatever runs, crashes and overlaps, nothing of the agreement is lost. */
  lemma {:induction false} RunsApplyExactlyOnce<S>(migrations: seq<Migration<S>>, initial: S, w: World<S>, actions: seq<Action>)
    requires Accepted(migrations) && Consistent(migrations, initial, w)
    ensures Consistent(migrations, initial, Run(migrations, w, actions))
    ensures |w.commits| <= |Run(migrations, w, actions).commits|
    decreases |actions|
  {
    if actions != [] {
      StepKeepsConsistent(migrations, initial, w, actions[0]);
      RunsApplyExactlyOnce(migrations, initial, Step(migrations, w, actions[0]), actions[1..]);
    }
  }

  lemma FreshDatabaseIsConsistent<S>(migrations: seq<Migration<S>>, initial: S)
    ensures Consistent(migrations, initial, World(initial, map[], map[], []))
  {
  }

  /** From a fresh database, whatever runs, crashes and overlaps: the schema is what the first
      migrations make of the initial one, those are the history, and each was committed once. */
  lemma FreshDatabaseIsMigratedOnce<S>(migrations: seq<Migration<S>>, initial: S, actions: seq<Action>)
    requires Accepted(migrations)
    ensures var w := Run(migrations, World(initial, map[], map[], []), actions);
            var k := |w.history|;
            && k <= |migrations| && w.history == Prefix(migrations, k) && Fold(migrations, initial, k) == Some(w.schema)
            && |w.commits| == k && forall i :: 0 <= i < k ==> w.commits[i] == i
  {
    FreshDatabaseIsConsistent(migrations, initial);
    RunsApplyExactlyOnce(migrations, initial, World(initial, map[], map[], []), actions);
    hide Run;
  }
}
