/** The run table and the transactions on it: creating, cancelling, polling and processing a run
    (melp/services/run/routes.py, melp/workers/runner.py, melp/workers/aggregator.py). Every
    `session_scope` block is one transaction. */
module RunStore {
  import opened Wrappers

  datatype Status = Queued | Running | Aggregating | Completed | Failed | Cancelled | PendingSubmission

  /** A run row; its index in the table is its id. `aggregated` says that the result rows of an
      aggregation transaction are committed. */
  datatype Run = Run(project: string, key: Option<string>, status: Status, submittedAt: nat,
                     examplesTotal: nat, examplesDone: nat, aggregated: bool)

  datatype Kind = RunQueued | RunStarted | RunCompleted | RunFailed | RunCancelled

  /** An event handed to the webhook outbox, in the transaction that caused it. */
  datatype Note = Note(kind: Kind, run: nat)

  datatype Db = Db(runs: seq<Run>, log: seq<Note>)

  predicate Active(s: Status) { s == Queued || s == Running || s == Aggregating }

  predicate Terminal(s: Status) { s == Completed || s == Failed || s == Cancelled }

  // ---------- create_run ----------

  datatype CreateResult = Existing(run: nat) | Created(run: nat) | ValidationFailed | ProjectNotFound | QuotaReached | DuplicateKey

  /** An empty header is no idempotency key to the lookup, but is stored like one. */
  predicate Keyed(key: Option<string>) { key.Some? && key.value != "" }

  predicate SameKey(r: Run, project: string, key: Option<string>) {
    key.Some? && r.project == project && r.key == key
  }

  /** The first run of the project with the key, or the table size. */
  function FindKey(runs: seq<Run>, project: string, key: Option<string>): (i: nat)
    ensures i <= |runs| && (i < |runs| ==> SameKey(runs[i], project, key))
    ensures forall j | 0 <= j < i :: !SameKey(runs[j], project, key)
    decreases |runs|
  {
    if runs == [] then 0
    else
      var front := FindKey(runs[..|runs| - 1], project, key);
      if front < |runs| - 1 || SameKey(runs[|runs| - 1], project, key) then front else |runs|
  }

  /** The active runs of a project. */
  function ActiveRuns(runs: seq<Run>, project: string): set<nat> {
    set i: nat | i < |runs| && runs[i].project == project && Active(runs[i].status)
  }

  function NewRun(project: string, key: Option<string>, status: Status, now: nat): Run {
    Run(project, key, status, now, 0, 0, false)
  }

  /** The outcome of a submission: the table after it and the answer. */
  function Create(db: Db, quotas: map<string, int>, project: string, key: Option<string>, refsValid: bool, dispatched: bool, now: nat)
    : (Db, CreateResult)
  {
    var found := FindKey(db.runs, project, key);
    if Keyed(key) && found < |db.runs| then (db, Existing(found))
    else if !refsValid then (db, ValidationFailed)
    else if project !in quotas then (db, ProjectNotFound)
    else if |ActiveRuns(db.runs, project)| >= quotas[project] then (db, QuotaReached)
    else if found < |db.runs| then (db, DuplicateKey)
    else
      var id := |db.runs|;
      var status := if dispatched then Queued else PendingSubmission;
      (Db(db.runs + [NewRun(project, key, status, now)], db.log + [Note(RunQueued, id)]), Created(id))
  }

  /** Some run of the project was stored with the key. */
  ghost predicate KeyUsed(runs: seq<Run>, project: string, key: Option<string>) {
    key.Some? && exists i :: 0 <= i < |runs| && runs[i].project == project && runs[i].key == key
  }

  /** How many runs of the project count against its quota. */
  function InFlight(runs: seq<Run>, project: string): nat {
    |set i: nat | i < |runs| && runs[i].project == project && runs[i].status in {Queued, Running, Aggregating}|
  }

  lemma FindKeyIff(runs: seq<Run>, project: string, key: Option<string>)
    ensures FindKey(runs, project, key) < |runs| <==> KeyUsed(runs, project, key)
  {
    if KeyUsed(runs, project, key) {
      var i :| 0 <= i < |runs| && runs[i].project == project && runs[i].key == key;
      assert SameKey(runs[i], project, key);
    }
  }

  lemma InFlightAreActive(runs: seq<Run>, project: string)
    ensures |ActiveRuns(runs, project)| == InFlight(runs, project)
  {
    assert ActiveRuns(runs, project)
           == set i: nat | i < |runs| && runs[i].project == project && runs[i].status in {Queued, Running, Aggregating};
  }

  /** When each answer is given. In particular a valid submission with an unused key is accepted if and
      only if the project has fewer queued, running and aggregating runs than its quota. */
  lemma CreateAnswers(db: Db, quotas: map<string, int>, project: string, key: Option<string>, refsValid: bool, dispatched: bool, now: nat)
    ensures var (after, r) := Create(db, quotas, project, key, refsValid, dispatched, now);
            var used, known := KeyUsed(db.runs, project, key), project in quotas;
            && (r.Existing? <==> used && key != Some(""))
            && (r.Existing? ==> r.run < |db.runs| && db.runs[r.run].project == project && db.runs[r.run].key == key)
            && (r.ValidationFailed? <==> !r.Existing? && !refsValid)
            && (r.ProjectNotFound? <==> !r.Existing? && refsValid && !known)
            && (r.QuotaReached? <==> !r.Existing? && refsValid && known && InFlight(db.runs, project) >= quotas[project])
            && (r.DuplicateKey? <==> used && key == Some("") && refsValid && known && InFlight(db.runs, project) < quotas[project])
            && (r.Created? <==> !used && refsValid && known && InFlight(db.runs, project) < quotas[project])
            && (!r.Created? ==> after == db)
            && (r.Created? ==>
                  && r.run == |db.runs|
                  && after.runs == db.runs + [Run(project, key, if dispatched then Queued else PendingSubmission, now, 0, 0, false)]
                  && after.log == db.log + [Note(RunQueued, |db.runs|)])
  {
    FindKeyIff(db.runs, project, key);
    InFlightAreActive(db.runs, project);
    hide KeyUsed, InFlight, ActiveRuns;
  }

  // ---------- cancel_run ----------

  datatype CancelResult = CancelledNow | RunNotFound | AlreadyOver

  function Cancel(db: Db, project: string, run: nat): (Db, CancelResult) {
    if run >= |db.runs| || db.runs[run].project != project then (db, RunNotFound)
    else if Terminal(db.runs[run].status) then (db, AlreadyOver)
    else (Db(db.runs[run := db.runs[run].(status := Cancelled)], db.log + [Note(RunCancelled, run)]), CancelledNow)
  }

  // ---------- the worker ----------

  /** What the worker has finished for the run it is processing. */
  datatype Stage = Picked | Loaded | Started | Predicted | Measured | Aggregated

  function StageNumber(s: Stage): nat {
    match s
    case Picked => 0
    case Loaded => 1
    case Started => 2
    case Predicted => 3
    case Measured => 4
    case Aggregated => 5
  }

  function NextStage(s: Stage): Stage
    requires s != Aggregated
  {
    match s
    case Picked => Loaded
    case Loaded => Started
    case Started => Predicted
    case Predicted => Measured
    case Measured => Aggregated
  }

  /** The transaction that completes the stage after `s`, for a dataset of n examples. Status writes
      do not look at the status they overwrite. Judging and metrics leave the run rows alone. */
  function StageTx(db: Db, run: nat, s: Stage, n: nat): Db
    requires run < |db.runs|
  {
    var r := db.runs[run];
    match s
    case Picked => db.(runs := db.runs[run := r.(examplesTotal := n, examplesDone := 0)])
    case Loaded => Db(db.runs[run := r.(status := Running)], db.log + [Note(RunStarted, run)])
    case Started => db.(runs := db.runs[run := r.(examplesTotal := n, examplesDone := n)])
    case Predicted => db
    case Measured => db.(runs := db.runs[run := r.(status := Aggregating, aggregated := true)])
    case Aggregated => Db(db.runs[run := r.(status := Completed)], db.log + [Note(RunCompleted, run)])
  }

  function FailTx(db: Db, run: nat): Db
    requires run < |db.runs|
  {
    Db(db.runs[run := db.runs[run].(status := Failed)], db.log + [Note(RunFailed, run)])
  }

  /** The rest of `process_run_locally` from stage s on, undisturbed; `failAt` is the stage after
      which an exception is raised, if any. */
  function Process(db: Db, run: nat, s: Stage, n: nat, failAt: Option<Stage>): Db
    requires run < |db.runs|
    decreases 5 - StageNumber(s)
  {
    if failAt == Some(s) then FailTx(db, run)
    else if s == Aggregated then StageTx(db, run, s, n)
    else Process(StageTx(db, run, s, n), run, NextStage(s), n, failAt)
  }

  const STAGES := [Picked, Loaded, Started, Predicted, Measured, Aggregated]

  /** The table after the first k transactions of an undisturbed processing. */
  function AfterStages(db: Db, run: nat, n: nat, k: nat): (after: Db)
    requires run < |db.runs| && k <= 6
    ensures |after.runs| == |db.runs|
  {
    if k == 0 then db else StageTx(AfterStages(db, run, n, k - 1), run, STAGES[k - 1], n)
  }

  /** What the row holds on the way: queued until it is started, then running until the aggregation,
      the examples done counted from the prediction on. */
  lemma {:induction false} RowOnTheWay(db: Db, run: nat, n: nat, k: nat)
    requires run < |db.runs| && k <= 6
    ensures var (row, after) := (db.runs[run], AfterStages(db, run, n, k));
            && after.runs == db.runs[run := Run(row.project, row.key,
                                                if k < 2 then row.status else if k < 5 then Running else if k == 5 then Aggregating else Completed,
                                                row.submittedAt,
                                                if k < 1 then row.examplesTotal else n,
                                                if k < 1 then row.examplesDone else if k < 3 then 0 else n,
                                                row.aggregated || k >= 5)]
            && after.log == db.log + (if k >= 2 then [Note(RunStarted, run)] else []) + (if k == 6 then [Note(RunCompleted, run)] else [])
  {
    if k > 0 { RowOnTheWay(db, run, n, k - 1); }
  }

  lemma {:induction false} ProcessFromStage(db: Db, run: nat, n: nat, failAt: Option<Stage>, k: nat)
    requires run < |db.runs| && k <= 5
    requires failAt.Some? ==> k <= StageNumber(failAt.value)
    ensures Process(db, run, Picked, n, failAt) == Process(AfterStages(db, run, n, k), run, STAGES[k], n, failAt)
  {
    if k > 0 { ProcessFromStage(db, run, n, failAt, k - 1); }
  }

  /** A whole processing is all six transactions, or those before the failure and the failure. */
  lemma ProcessInFull(db: Db, run: nat, n: nat, failAt: Option<Stage>)
    requires run < |db.runs|
    ensures match failAt
            case None => Process(db, run, Picked, n, failAt) == AfterStages(db, run, n, 6)
            case Some(s) =>
              var before := AfterStages(db, run, n, StageNumber(s));
              Process(db, run, Picked, n, failAt)
              == Db(before.runs[run := before.runs[run].(status := Failed)], before.log + [Note(RunFailed, run)])
  {
    ProcessFromStage(db, run, n, failAt, if failAt == None then 5 else StageNumber(failAt.value));
    assert failAt.Some? ==> STAGES[StageNumber(failAt.value)] == failAt.value;
  }

  /** The poll's answer: a queued run no queued run is older than, if there is one. */
  ghost predicate IsOldestQueued(runs: seq<Run>, answer: Option<nat>) {
    match answer
    case None => forall i | 0 <= i < |runs| :: runs[i].status != Queued
    case Some(r) =>
      && r < |runs| && runs[r].status == Queued
      && forall i | 0 <= i < |runs| && runs[i].status == Queued :: runs[r].submittedAt <= runs[i].submittedAt
  }

  // ---------- the program ----------

  class Store {
    var runs: seq<Run>
    /** The events enqueued so far. */
    var log: seq<Note>
    const quotas: map<string, int>

    function Contents(): Db
      reads this
    {
      Db(runs, log)
    }

    constructor (quotas: map<string, int>)
      ensures Contents() == Db([], []) && this.quotas == quotas
    {
      this.quotas := quotas;
      runs, log := [], [];
    }

    /** `create_run`: `refsValid` is the verdict of `_validate_refs`, `dispatched` whether handing
        the run to the workflow engine succeeded. */
    method CreateRun(project: string, key: Option<string>, refsValid: bool, dispatched: bool, now: nat) returns (r: CreateResult)
      modifies this
      ensures (Contents(), r) == Create(old(Contents()), quotas, project, key, refsValid, dispatched, now)
    {
      var found := FindKey(runs, project, key);
      if key.Some? && key.value != "" {
        if found < |runs| {
          return Existing(found);
        }
      }
      if !refsValid {
        return ValidationFailed;
      }
      if project !in quotas {
        return ProjectNotFound;
      }
      var running := |ActiveRuns(runs, project)|;
      if running >= quotas[project] {
        return QuotaReached;
      }
      if found < |runs| {
        return DuplicateKey;
      }
      var id := |runs|;
      runs := runs + [NewRun(project, key, Queued, now)];
      if !dispatched {
        runs := runs[id := runs[id].(status := PendingSubmission)];
        assert runs == old(runs) + [NewRun(project, key, PendingSubmission, now)];
      }
      log := log + [Note(RunQueued, id)];
      return Created(id);
    }

    /** `cancel_run`. */
    method CancelRun(project: string, run: nat) returns (r: CancelResult)
      modifies this
      ensures (Contents(), r) == Cancel(old(Contents()), project, run)
      ensures r == RunNotFound <==> run >= |old(runs)| || old(runs)[run].project != project
      ensures r == CancelledNow <==>
              && run < |old(runs)| && old(runs)[run].project == project
              && old(runs)[run].status in {Queued, Running, Aggregating, PendingSubmission}
      ensures if r == CancelledNow
              then runs == old(runs)[run := old(runs)[run].(status := Cancelled)] && log == old(log) + [Note(RunCancelled, run)]
              else runs == old(runs) && log == old(log)
    {
      if run >= |runs| || runs[run].project != project {
        return RunNotFound;
      }
      if runs[run].status == Completed || runs[run].status == Failed || runs[run].status == Cancelled {
        return AlreadyOver;
      }
      runs := runs[run := runs[run].(status := Cancelled)];
      log := log + [Note(RunCancelled, run)];
      return CancelledNow;
    }

    /** `_set_run_status`: unconditional. */
    method SetRunStatus(run: nat, status: Status)
      requires run < |runs|
      modifies this`runs
      ensures runs == old(runs)[run := old(runs)[run].(status := status)]
    {
      runs := runs[run := runs[run].(status := status)];
    }

    /** The query of the polling loop. */
    method NextQueued() returns (answer: Option<nat>)
      ensures IsOldestQueued(runs, answer)
    {
      answer := None;
      for i := 0 to |runs|
        invariant match answer
                  case None => forall j | 0 <= j < i :: runs[j].status != Queued
                  case Some(r) =>
                    && r < i && runs[r].status == Queued
                    && forall j | 0 <= j < i && runs[j].status == Queued :: runs[r].submittedAt <= runs[j].submittedAt
      {
        if runs[i].status == Queued && (answer == None || runs[i].submittedAt < runs[answer.value].submittedAt) {
          answer := Some(i);
        }
      }
    }

    /** `process_run_locally` when nothing else touches the table meanwhile. */
    method ProcessRunLocally(run: nat, n: nat, failAt: Option<Stage>)
      requires run < |runs|
      modifies this
      ensures Contents() == Process(old(Contents()), run, Picked, n, failAt)
      ensures runs[run].status == if failAt == None then Completed else Failed
    {
      var stage := Picked;
      while failAt != Some(stage) && stage != Aggregated
        invariant |runs| == |old(runs)|
        invariant Process(Contents(), run, stage, n, failAt) == Process(old(Contents()), run, Picked, n, failAt)
        invariant failAt.Some? ==> StageNumber(stage) <= StageNumber(failAt.value)
        decreases 5 - StageNumber(stage)
      {
        match stage {
          case Picked => runs := runs[run := runs[run].(examplesTotal := n, examplesDone := 0)];
          case Loaded =>
            SetRunStatus(run, Running);
            log := log + [Note(RunStarted, run)];
          case Started => runs := runs[run := runs[run].(examplesTotal := n, examplesDone := n)];
          case Predicted =>
          case Measured => runs := runs[run := runs[run].(status := Aggregating, aggregated := true)];
        }
        stage := NextStage(stage);
      }
      if failAt == Some(stage) {
        SetRunStatus(run, Failed);
        log := log + [Note(RunFailed, run)];
      } else {
        SetRunStatus(run, Completed);
        log := log + [Note(RunCompleted, run)];
      }
    }
  }
}
